/** One pass of the checkpoint collector (kern/sivfs_gc_checkpoints.c): obsoleted entries
    are filed in groups by a version that still blocks them, and a pass looks only into
    groups whose version is no longer in use. Memory may run out at any allocation. */
module GcPass {
  import opened Types

  /** Tagged pointer: the low three bits say what the rest points to. */
  type Entry = nat

  const TAG_PAGE: nat := 2
  const TAG_INODE: nat := 4
  const TAG_SPAN: nat := 8

  datatype Kind = PageEntry | InodeEntry

  /** What the kernel's allocator does: everything it is asked to, or what it likes. With
      `Exhausted` no new object can be had, and existing stacks may or may not still grow. */
  datatype Memory = Ample | Uncertain | Exhausted

  /** Lifetime records of the checkpoint pages and checkpoint inodes, by address. */
  datatype Records = Records(pages: map<nat, Life>, inodes: map<nat, Life>)

  function MakeEntry(kind: Kind, p: nat): Option<Entry> {
    if p % TAG_SPAN != 0 then None
    else Some(p + if kind.PageEntry? then TAG_PAGE else TAG_INODE)
  }

  function EntryKind(e: Entry): Option<Kind> {
    if e % TAG_SPAN == TAG_PAGE then Some(PageEntry)
    else if e % TAG_SPAN == TAG_INODE then Some(InodeEntry)
    else None
  }

  function EntryPtr(e: Entry): nat {
    e - e % TAG_SPAN
  }

  /** What the collector makes of the word: an object of this kind at this address. */
  predicate StandsFor(e: Entry, kind: Kind, p: nat) {
    EntryKind(e) == Some(kind) && EntryPtr(e) == p
  }

  /** Tagging loses nothing, and a word is an entry of at most one object. */
  lemma TagRoundTrip(kind: Kind, p: nat, e: Entry)
    ensures MakeEntry(kind, p) == Some(e) <==> StandsFor(e, kind, p)
  {
    if p % TAG_SPAN == 0 {
      var tag := if kind.PageEntry? then TAG_PAGE else TAG_INODE;
      assert (p + tag) % TAG_SPAN == tag;
    }
    assert (e - e % TAG_SPAN) % TAG_SPAN == 0;
  }

  function LifeOf(rec: Records, e: Entry): Option<Life> {
    match EntryKind(e)
    case None => None
    case Some(PageEntry) => if EntryPtr(e) in rec.pages then Some(rec.pages[EntryPtr(e)]) else None
    case Some(InodeEntry) => if EntryPtr(e) in rec.inodes then Some(rec.inodes[EntryPtr(e)]) else None
  }

  /** The simple collector's rule: visible from the lower bound on, or at a version seen. */
  ghost predicate Keeps(l: Life, low: Ts, seen: seq<Ts>) {
    l.obs > low || exists i :: 0 <= i < |seen| && Contains(l, seen[i])
  }

  ghost predicate KeepsEntry(rec: Records, e: Entry, low: Ts, seen: seq<Ts>) {
    LifeOf(rec, e).Some? && Keeps(LifeOf(rec, e).value, low, seen)
  }

  /** An entry that may be filed under `k`. */
  ghost predicate Filed(rec: Records, k: Ts, e: Entry) {
    && LifeOf(rec, e).Some? && LifeOf(rec, e).value.obs <= INVALID_TS
    && (k != INVALID_TS ==> Contains(LifeOf(rec, e).value, k))
  }

  ghost predicate GroupOk(rec: Records, k: Ts, group: seq<Entry>) {
    forall i :: 0 <= i < |group| ==> Filed(rec, k, group[i])
  }

  ghost predicate StartedBy(rec: Records, low: Ts, group: seq<Entry>) {
    forall i :: 0 <= i < |group| ==> LifeOf(rec, group[i]).Some? && LifeOf(rec, group[i]).value.start <= low
  }

  predicate StillBlocked(k: Ts, low: Ts, seen: seq<Ts>) {
    k != INVALID_TS && (k >= low || k in seen)
  }

  lemma BlockedIsKept(rec: Records, k: Ts, e: Entry, low: Ts, seen: seq<Ts>)
    requires Filed(rec, k, e) && StillBlocked(k, low, seen)
    ensures KeepsEntry(rec, e, low, seen)
  {
  }

  // ---------------------------------------------------------------- what the groups hold

  ghost function Total(m: map<Ts, seq<Entry>>): multiset<Entry>
    decreases |m|
  {
    if m == map[] then multiset{} else
      var k :| k in m;
      multiset(m[k]) + Total(m - {k})
  }

  lemma {:induction false} TotalWithout(m: map<Ts, seq<Entry>>, k: Ts)
    requires k in m
    ensures Total(m) == multiset(m[k]) + Total(m - {k})
    decreases |m|
  {
    var j :| j in m && Total(m) == multiset(m[j]) + Total(m - {j});
    if j != k {
      TotalWithout(m - {j}, k);
      TotalWithout(m - {k}, j);
      assert m - {j} - {k} == m - {k} - {j};
    }
  }

  lemma TotalPut(m: map<Ts, seq<Entry>>, k: Ts, group: seq<Entry>)
    ensures Total(m[k := group]) == multiset(group) + Total(m - {k})
  {
    TotalWithout(m[k := group], k);
    assert m[k := group] - {k} == m - {k};
  }

  lemma {:induction false} TotalHas(m: map<Ts, seq<Entry>>, e: Entry) returns (k: Ts, i: nat)
    requires e in Total(m)
    ensures k in m && i < |m[k]| && m[k][i] == e
    decreases |m|
  {
    var j :| j in m && Total(m) == multiset(m[j]) + Total(m - {j});
    if e in multiset(m[j]) {
      k := j;
      i :| 0 <= i < |m[j]| && m[j][i] == e;
    } else {
      k, i := TotalHas(m - {j}, e);
    }
  }

  lemma {:induction false} TotalOfEmpty(m: map<Ts, seq<Entry>>)
    requires forall k :: k in m ==> m[k] == []
    ensures Total(m) == multiset{}
    decreases |m|
  {
    if m != map[] {
      var k :| k in m && Total(m) == multiset(m[k]) + Total(m - {k});
      TotalOfEmpty(m - {k});
    }
  }

  function Push(m: map<Ts, seq<Entry>>, k: Ts, e: Entry): map<Ts, seq<Entry>> {
    m[k := (if k in m then m[k] else []) + [e]]
  }

  lemma TotalSplit(m: map<Ts, seq<Entry>>, k: Ts, was: seq<Entry>)
    requires was == if k in m then m[k] else []
    ensures Total(m) == multiset(was) + Total(m - {k})
  {
    if k in m {
      TotalWithout(m, k);
    } else {
      assert m - {k} == m;
    }
  }

  lemma TotalPush(m: map<Ts, seq<Entry>>, k: Ts, e: Entry)
    ensures Total(Push(m, k, e)) == Total(m) + multiset{e}
  {
    var was := if k in m then m[k] else [];
    TotalPut(m, k, was + [e]);
    TotalSplit(m, k, was);
    OneMore(was, e, Total(m - {k}));
  }

  lemma OneMore(group: seq<Entry>, e: Entry, rest: multiset<Entry>)
    ensures multiset(group + [e]) + rest == multiset(group) + rest + multiset{e}
  {
    assert multiset(group + [e]) == multiset(group) + multiset{e};
  }

  lemma TotalPop(m: map<Ts, seq<Entry>>, k: Ts)
    requires k in m && m[k] != []
    ensures Total(m) == Total(m[k := m[k][..|m[k]| - 1]]) + multiset{m[k][|m[k]| - 1]}
  {
    var n := |m[k]| - 1;
    assert m[k] == m[k][..n] + [m[k][n]];
    TotalWithout(m, k);
    TotalPut(m, k, m[k][..n]);
  }

  /** An empty group, as a failed allocation can leave behind, holds nothing. */
  function WithGroup(m: map<Ts, seq<Entry>>, k: Ts): map<Ts, seq<Entry>> {
    if k in m then m else m[k := []]
  }

  lemma TotalWithGroup(m: map<Ts, seq<Entry>>, k: Ts)
    ensures Total(WithGroup(m, k)) == Total(m)
  {
    if k !in m {
      TotalPut(m, k, []);
      assert m - {k} == m;
    }
  }

  // ---------------------------------------------------------------- what a pass maintains

  ghost predicate GroupsOk(rec: Records, m: map<Ts, seq<Entry>>) {
    forall k {:trigger GroupOk(rec, k, m[k])} :: k in m ==> k <= INVALID_TS && GroupOk(rec, k, m[k])
  }

  /** Groups below `done` are settled. */
  ghost predicate Passing(rec: Records, m: map<Ts, seq<Entry>>, low: Ts, seen: seq<Ts>, done: nat) {
    && GroupsOk(rec, m)
    && (INVALID_TS in m ==> StartedBy(rec, low, m[INVALID_TS]))
    && forall k {:trigger StillBlocked(k, low, seen)} :: k in m && k < done ==> StillBlocked(k, low, seen)
  }

  lemma GroupsPut(rec: Records, m: map<Ts, seq<Entry>>, k: Ts, group: seq<Entry>)
    requires GroupsOk(rec, m) && k <= INVALID_TS && GroupOk(rec, k, group)
    ensures GroupsOk(rec, m[k := group])
  {
    var m' := m[k := group];
    forall j | j in m' ensures j <= INVALID_TS && GroupOk(rec, j, m'[j]) {
      if j != k {
        assert GroupOk(rec, j, m[j]);
      }
    }
  }

  lemma UnsortedGroup(rec: Records, m: map<Ts, seq<Entry>>)
    requires GroupsOk(rec, m)
    ensures GroupsOk(rec, WithGroup(m, INVALID_TS)) && Total(WithGroup(m, INVALID_TS)) == Total(m)
  {
    TotalWithGroup(m, INVALID_TS);
    if INVALID_TS !in m {
      GroupsPut(rec, m, INVALID_TS, []);
    }
  }

  lemma UnsortedGrows(rec: Records, m: map<Ts, seq<Entry>>, more: seq<Entry>)
    requires GroupsOk(rec, m) && INVALID_TS in m && GroupOk(rec, INVALID_TS, more)
    ensures
      var m' := m[INVALID_TS := m[INVALID_TS] + more];
      GroupsOk(rec, m') && Total(m') == multiset(more) + Total(m)
  {
    assert GroupOk(rec, INVALID_TS, m[INVALID_TS]);
    TotalWithout(m, INVALID_TS);
    TotalPut(m, INVALID_TS, m[INVALID_TS] + more);
    GroupsPut(rec, m, INVALID_TS, m[INVALID_TS] + more);
    assert multiset(m[INVALID_TS] + more) == multiset(more) + multiset(m[INVALID_TS]);
  }

  lemma UnsortedStarted(rec: Records, m: map<Ts, seq<Entry>>, more: seq<Entry>, low: Ts, seen: seq<Ts>)
    requires GroupsOk(rec, m) && INVALID_TS in m && GroupOk(rec, INVALID_TS, more)
    requires StartedBy(rec, low, m[INVALID_TS]) && StartedBy(rec, low, more)
    ensures
      var m' := m[INVALID_TS := m[INVALID_TS] + more];
      Passing(rec, m', low, seen, 0) && multiset([]) + Total(m') == multiset(more) + Total(m)
  {
    UnsortedGrows(rec, m, more);
  }

  lemma TopFiled(rec: Records, m: map<Ts, seq<Entry>>, low: Ts, seen: seq<Ts>, k: Ts)
    requires Passing(rec, m, low, seen, k) && k in m && m[k] != [] && !StillBlocked(k, low, seen)
    ensures var e := m[k][|m[k]| - 1];
      Filed(rec, k, e) && LifeOf(rec, e).value.start <= low
  {
    assert GroupOk(rec, k, m[k]);
    assert Filed(rec, k, m[k][|m[k]| - 1]);
  }

  lemma PushKeeps(rec: Records, m: map<Ts, seq<Entry>>, low: Ts, seen: seq<Ts>, k: Ts, target: Ts, e: Entry)
    requires Passing(rec, m, low, seen, k) && StillBlocked(target, low, seen) && target <= INVALID_TS && Filed(rec, target, e)
    ensures Passing(rec, Push(m, target, e), low, seen, k)
    ensures Total(Push(m, target, e)) == Total(m) + multiset{e}
  {
    TotalPush(m, target, e);
    assert target in m ==> GroupOk(rec, target, m[target]);
    GroupsPut(rec, m, target, Push(m, target, e)[target]);
  }

  lemma WithGroupKeeps(rec: Records, m: map<Ts, seq<Entry>>, low: Ts, seen: seq<Ts>, k: Ts, target: Ts)
    requires Passing(rec, m, low, seen, k) && StillBlocked(target, low, seen) && target <= INVALID_TS
    ensures Passing(rec, WithGroup(m, target), low, seen, k)
    ensures Total(WithGroup(m, target)) == Total(m)
  {
    TotalWithGroup(m, target);
    if target !in m {
      GroupsPut(rec, m, target, []);
    }
  }

  lemma PopKeeps(rec: Records, m: map<Ts, seq<Entry>>, low: Ts, seen: seq<Ts>, k: Ts)
    requires Passing(rec, m, low, seen, k) && k in m && m[k] != []
    ensures
      var m' := m[k := m[k][..|m[k]| - 1]];
      Passing(rec, m', low, seen, k) && Total(m) == Total(m') + multiset{m[k][|m[k]| - 1]}
  {
    TotalPop(m, k);
    assert GroupOk(rec, k, m[k]);
    GroupsPut(rec, m, k, m[k][..|m[k]| - 1]);
  }

  lemma DropKeeps(rec: Records, m: map<Ts, seq<Entry>>, low: Ts, seen: seq<Ts>, k: Ts)
    requires Passing(rec, m, low, seen, k)
    ensures Passing(rec, m - {k}, low, seen, k)
  {
    forall j | j in m - {k} ensures j <= INVALID_TS && GroupOk(rec, j, (m - {k})[j]) {
      assert GroupOk(rec, j, m[j]);
    }
  }

  lemma PassingFar(rec: Records, m: map<Ts, seq<Entry>>, low: Ts, seen: seq<Ts>, from: nat, to: nat)
    requires Passing(rec, m, low, seen, from) && from <= to
    requires forall k :: k in m && from <= k < to ==> StillBlocked(k, low, seen)
    ensures Passing(rec, m, low, seen, to)
  {
  }

  /** Only entries the simple collector would not keep have been freed, none was lost. */
  ghost predicate Accounts(rec: Records, held: multiset<Entry>, freed: multiset<Entry>,
                           held0: multiset<Entry>, freed0: multiset<Entry>, low: Ts, seen: seq<Ts>)
  {
    && held + freed == held0 + freed0
    && freed0 <= freed
    && forall e :: e in freed - freed0 ==> !KeepsEntry(rec, e, low, seen)
  }

  lemma AccountFree(rec: Records, held: multiset<Entry>, freed: multiset<Entry>,
                    held0: multiset<Entry>, freed0: multiset<Entry>, low: Ts, seen: seq<Ts>, e: Entry)
    requires Accounts(rec, held + multiset{e}, freed, held0, freed0, low, seen) && !KeepsEntry(rec, e, low, seen)
    ensures Accounts(rec, held, freed + multiset{e}, held0, freed0, low, seen)
  {
    assert held + multiset{e} + freed == held + (freed + multiset{e});
  }

  lemma PopFreed(rec: Records, m: map<Ts, seq<Entry>>, low: Ts, seen: seq<Ts>, k: Ts, waiting: multiset<Entry>,
                 freed: multiset<Entry>, held0: multiset<Entry>, freed0: multiset<Entry>)
    requires Passing(rec, m, low, seen, k) && k in m && m[k] != []
    requires !KeepsEntry(rec, m[k][|m[k]| - 1], low, seen)
    requires Accounts(rec, waiting + Total(m), freed, held0, freed0, low, seen)
    ensures
      var m' := m[k := m[k][..|m[k]| - 1]];
      && Passing(rec, m', low, seen, k)
      && Accounts(rec, waiting + Total(m'), freed + multiset{m[k][|m[k]| - 1]}, held0, freed0, low, seen)
  {
    PopKeeps(rec, m, low, seen, k);
    var e := m[k][|m[k]| - 1];
    var m' := m[k := m[k][..|m[k]| - 1]];
    assert waiting + Total(m) == waiting + Total(m') + multiset{e};
    AccountFree(rec, waiting + Total(m'), freed, held0, freed0, low, seen, e);
  }

  lemma PopPushed(rec: Records, m: map<Ts, seq<Entry>>, m1: map<Ts, seq<Entry>>, low: Ts, seen: seq<Ts>, k: Ts, e: Entry)
    requires Passing(rec, m1, low, seen, k) && k in m1 && m1[k] != [] && e == m1[k][|m1[k]| - 1]
    requires Total(m1) == Total(m) + multiset{e}
    ensures
      var m' := m1[k := m1[k][..|m1[k]| - 1]];
      Passing(rec, m', low, seen, k) && Total(m') == Total(m)
  {
    PopKeeps(rec, m1, low, seen, k);
    var m' := m1[k := m1[k][..|m1[k]| - 1]];
    assert Total(m) + multiset{e} - multiset{e} == Total(m);
    assert Total(m') + multiset{e} - multiset{e} == Total(m');
  }

  // ---------------------------------------------------------------- the collector

  /** `r` is the last of the versions that lies in the lifetime. */
  ghost predicate LastIn(l: Life, seen: seq<Ts>, r: Ts) {
    exists i :: 0 <= i < |seen| && seen[i] == r && Contains(l, r) && forall j :: i < j < |seen| ==> !Contains(l, seen[j])
  }

  /** What an entry is filed under: the lower bound if it outlives it, else the last version seen
      in its lifetime, and INVALID_TS if there is none. */
  ghost predicate Blocks(l: Life, low: Ts, seen: seq<Ts>, r: Ts) {
    if l.obs > low then r == low
    else if exists i :: 0 <= i < |seen| && Contains(l, seen[i]) then LastIn(l, seen, r)
    else r == INVALID_TS
  }

  /** The last version seen that blocks the entry, or INVALID_TS when none does. */
  method FindBlocker(l: Life, low: Ts, seen: seq<Ts>) returns (r: Ts)
    requires low < INVALID_TS && l.obs <= INVALID_TS
    ensures r == INVALID_TS <==> !Keeps(l, low, seen)
    ensures r != INVALID_TS ==> StillBlocked(r, low, seen) && (l.start <= low ==> Contains(l, r))
    ensures Blocks(l, low, seen, r)
  {
    r := INVALID_TS;
    if l.obs > low {
      r := low;
    } else {
      for i := 0 to |seen|
        invariant r == INVALID_TS <==> forall j :: 0 <= j < i ==> !Contains(l, seen[j])
        invariant r != INVALID_TS ==> LastIn(l, seen[..i], r)
      {
        assert seen[..i + 1] == seen[..i] + [seen[i]];
        if Contains(l, seen[i]) {
          r := seen[i];
          assert seen[..i + 1][i] == r;
        }
      }
      assert seen[..|seen|] == seen;
    }
  }

  class Collector {
    var records: Records
    var obsoleted: seq<Entry>
    var blocked: map<Ts, seq<Entry>>
    var freed: multiset<Entry>        // what has been given back

    ghost predicate Valid()
      reads this
    {
      GroupOk(records, INVALID_TS, obsoleted) && GroupsOk(records, blocked)
    }

    /** Everything in the collector's hands, freed or not. */
    ghost function Held(): multiset<Entry>
      reads this
    {
      multiset(obsoleted) + Total(blocked)
    }

    constructor (rec: Records)
      ensures Valid() && records == rec && obsoleted == [] && blocked == map[] && freed == multiset{}
    {
      records, obsoleted, blocked, freed := rec, [], map[], multiset{};
    }

    /** Hand over the pages a build replaced and optionally the old checkpoint inode: all of
        them, or none when a pointer cannot be tagged or memory runs out. */
    method MarkObsoleted(pages: seq<nat>, inode: Option<nat>, memory: Memory) returns (rc: Rc)
      modifies this`obsoleted
      ensures rc != Ok ==> obsoleted == old(obsoleted)
      ensures rc == EInval ==> (exists i :: 0 <= i < |pages| && pages[i] % TAG_SPAN != 0)
                               || (inode.Some? && inode.value % TAG_SPAN != 0)
      ensures rc == Ok ==>
        && |obsoleted| == |old(obsoleted)| + |pages| + (if inode.Some? then 1 else 0)
        && obsoleted[..|old(obsoleted)|] == old(obsoleted)
        && (forall i :: 0 <= i < |pages| ==> StandsFor(obsoleted[|old(obsoleted)| + i], PageEntry, pages[i]))
        && (inode.Some? ==> StandsFor(obsoleted[|old(obsoleted)| + |pages|], InodeEntry, inode.value))
      ensures memory.Ample? ==> rc != ENoMem
    {
      var outOfMemory: bool := *;
      if outOfMemory && !memory.Ample? {
        return ENoMem;
      }
      var added: seq<Entry> := [];
      for i := 0 to |pages|
        invariant |added| == i && obsoleted == old(obsoleted)
        invariant forall j :: 0 <= j < i ==> StandsFor(added[j], PageEntry, pages[j])
      {
        var e := MakeEntry(PageEntry, pages[i]);
        if e.None? {
          return EInval;
        }
        TagRoundTrip(PageEntry, pages[i], e.value);
        added := added + [e.value];
      }
      if inode.Some? {
        var e := MakeEntry(InodeEntry, inode.value);
        if e.None? {
          return EInval;
        }
        TagRoundTrip(InodeEntry, inode.value, e.value);
        added := added + [e.value];
      }
      obsoleted := obsoleted + added;
      rc := Ok;
    }

    /** The group for `k`, which is a new object if there is none yet. */
    method GetBlocked(k: Ts, memory: Memory) returns (rc: Rc)
      modifies this`blocked
      ensures rc == Ok ==> blocked == WithGroup(old(blocked), k)
      ensures rc != Ok ==> blocked == old(blocked) && rc == ENoMem && k !in blocked
      ensures memory.Ample? ==> rc == Ok
      ensures memory.Exhausted? && k !in old(blocked) ==> rc == ENoMem
    {
      rc := Ok;
      if k !in blocked {
        var outOfMemory: bool := *;
        if memory.Exhausted? || (outOfMemory && memory.Uncertain?) {
          return ENoMem;
        }
        blocked := blocked[k := []];
      }
    }

    /** Free the entry, or file it under a version that still blocks it. */
    method GcOrReassign(e: Entry, low: Ts, seen: seq<Ts>, memory: Memory) returns (rc: Rc, target: Ts)
      requires low < INVALID_TS && (LifeOf(records, e).Some? ==> LifeOf(records, e).value.obs <= INVALID_TS)
      modifies this`blocked, this`freed
      ensures LifeOf(records, e).None? ==> rc == EInval && blocked == old(blocked) && freed == old(freed)
      ensures LifeOf(records, e).Some? ==> rc != EInval
      ensures LifeOf(records, e).Some? ==> (target == INVALID_TS <==> !Keeps(LifeOf(records, e).value, low, seen))
      ensures LifeOf(records, e).Some? ==> Blocks(LifeOf(records, e).value, low, seen, target)
      ensures LifeOf(records, e).Some? && target != INVALID_TS ==>
        && StillBlocked(target, low, seen)
        && (LifeOf(records, e).value.start <= low ==> Contains(LifeOf(records, e).value, target))
      ensures rc == Ok && target == INVALID_TS ==> blocked == old(blocked) && freed == old(freed) + multiset{e}
      ensures rc == Ok && target != INVALID_TS ==> blocked == Push(old(blocked), target, e) && freed == old(freed)
      ensures rc != Ok ==>
        freed == old(freed) && (blocked == old(blocked) || (target != INVALID_TS && blocked == WithGroup(old(blocked), target)))
      ensures memory.Ample? ==> rc != ENoMem
    {
      target := INVALID_TS;
      var life := LifeOf(records, e);
      if life.None? {
        return EInval, target;
      }
      target := FindBlocker(life.value, low, seen);
      if target == INVALID_TS {
        freed := freed + multiset{e};
        rc := Ok;
      } else {
        rc := GetBlocked(target, memory);
        if rc != Ok {
          return;
        }
        var outOfMemory: bool := *;
        if outOfMemory && !memory.Ample? {
          return ENoMem, target;
        }
        blocked := blocked[target := blocked[target] + [e]];
      }
    }

    ghost predicate Collected(low: Ts, seen: seq<Ts>, held0: multiset<Entry>, freed0: multiset<Entry>)
      reads this
    {
      Accounts(records, Held(), freed, held0, freed0, low, seen)
    }

    /** Handle the entry on top of group `k`. The target group is never `k`, so the stack
        being drained only shrinks. */
    method DrainOne(k: Ts, low: Ts, seen: seq<Ts>, memory: Memory, ghost held0: multiset<Entry>, ghost freed0: multiset<Entry>)
        returns (rc: Rc)
      requires low < INVALID_TS && Passing(records, blocked, low, seen, k) && k in blocked && blocked[k] != []
      requires !StillBlocked(k, low, seen) && Collected(low, seen, held0, freed0)
      modifies this`blocked, this`freed
      ensures Passing(records, blocked, low, seen, k) && Collected(low, seen, held0, freed0) && rc != EInval
      ensures rc == Ok ==> k in blocked && blocked[k] == old(blocked[k])[..|old(blocked[k])| - 1]
      ensures memory.Ample? ==> rc == Ok
    {
      var e := blocked[k][|blocked[k]| - 1];
      TopFiled(records, blocked, low, seen, k);
      var target;
      rc, target := GcOrReassign(e, low, seen, memory);
      if rc != Ok {
        if blocked != old(blocked) {
          WithGroupKeeps(records, old(blocked), low, seen, k, target);
        }
      } else {
        if target == INVALID_TS {
          PopFreed(records, blocked, low, seen, k, multiset(obsoleted), old(freed), held0, freed0);
        } else {
          PushKeeps(records, old(blocked), low, seen, k, target, e);
          PopPushed(records, old(blocked), blocked, low, seen, k, e);
        }
        blocked := blocked[k := blocked[k][..|blocked[k]| - 1]];
      }
    }

    method DrainGroup(k: Ts, low: Ts, seen: seq<Ts>, memory: Memory, ghost held0: multiset<Entry>, ghost freed0: multiset<Entry>)
        returns (rc: Rc)
      requires low < INVALID_TS && Passing(records, blocked, low, seen, k) && k in blocked
      requires !StillBlocked(k, low, seen) && Collected(low, seen, held0, freed0)
      modifies this`blocked, this`freed
      ensures Passing(records, blocked, low, seen, k) && Collected(low, seen, held0, freed0) && rc != EInval
      ensures rc == Ok ==> k !in blocked
      ensures memory.Ample? ==> rc == Ok
    {
      rc := Ok;
      while blocked[k] != []
        invariant Passing(records, blocked, low, seen, k) && k in blocked
        invariant Collected(low, seen, held0, freed0)
        invariant rc == Ok
        decreases |blocked[k]|
      {
        rc := DrainOne(k, low, seen, memory, held0, freed0);
        if rc != Ok {
          return;
        }
      }
      TotalWithout(blocked, k);
      DropKeeps(records, blocked, low, seen, k);
      blocked := blocked - {k};
    }

    /** Step 0: move what the maker handed over into the INVALID_TS group, all or nothing. */
    method TakeObsoleted(low: Ts, seen: seq<Ts>, memory: Memory) returns (rc: Rc)
      requires Valid() && StartedBy(records, low, obsoleted)
      requires INVALID_TS in blocked ==> StartedBy(records, low, blocked[INVALID_TS])
      modifies this`blocked, this`obsoleted
      ensures Valid() && Held() == old(Held()) && rc != EInval
      ensures rc == Ok ==> obsoleted == [] && INVALID_TS in blocked && Passing(records, blocked, low, seen, 0)
      ensures memory.Ample? ==> rc == Ok
      ensures memory.Exhausted? && INVALID_TS !in old(blocked) ==> rc == ENoMem
      ensures rc != Ok ==> obsoleted == old(obsoleted) && (blocked == old(blocked) || INVALID_TS in blocked)
      ensures rc != Ok && memory.Exhausted? ==> blocked == old(blocked)
    {
      rc := GetBlocked(INVALID_TS, memory);
      if rc != Ok {
        return;
      }
      UnsortedGroup(records, old(blocked));
      var outOfMemory: bool := *;
      if outOfMemory && !memory.Ample? {
        return ENoMem;
      }
      UnsortedStarted(records, blocked, obsoleted, low, seen);
      blocked := blocked[INVALID_TS := blocked[INVALID_TS] + obsoleted];
      obsoleted := [];
    }

    /** sivfs_gc_blocked_entries_empty. */
    method BlockedEmpty() returns (empty: bool)
      requires GroupsOk(records, blocked)
      ensures empty <==> Total(blocked) == multiset{}
    {
      var from := 0;
      while from <= INVALID_TS
        invariant forall k :: k in blocked && k < from ==> blocked[k] == []
        decreases INVALID_TS + 1 - from
      {
        var next := NextSlot(blocked, from);
        if next.None? {
          break;
        }
        if blocked[next.value] != [] {
          TotalWithout(blocked, next.value);
          assert blocked[next.value][0] in multiset(blocked[next.value]);
          return false;
        }
        from := next.value + 1;
      }
      forall k | k in blocked ensures blocked[k] == [] {
        assert GroupOk(records, k, blocked[k]);
      }
      TotalOfEmpty(blocked);
      empty := true;
    }

    /** A whole pass, with `low` the published checkpoint and `seen` the versions the scan
        returned. However it ends, no entry is lost, duplicated or wrongly freed; when it
        succeeds, what is left is exactly what the simple collector keeps. The group of unsorted
        entries survives it only if there was nothing to do, and without that group a pass that
        can have no new object takes nothing over. */
    method Gc(low: Ts, seen: seq<Ts>, memory: Memory) returns (rc: Rc)
      requires low < INVALID_TS && Valid() && StartedBy(records, low, obsoleted)
      requires INVALID_TS in blocked ==> StartedBy(records, low, blocked[INVALID_TS])
      modifies this`blocked, this`obsoleted, this`freed
      ensures Valid() && rc != EInval
      ensures Held() + freed == old(Held()) + old(freed)
      ensures forall e :: KeepsEntry(records, e, low, seen) ==> freed[e] == old(freed)[e]
      ensures rc == Ok ==> forall e ::
        Held()[e] == if KeepsEntry(records, e, low, seen) then old(Held())[e] else 0
      ensures rc == Ok ==> obsoleted == [] && (INVALID_TS in blocked <==> old(Held()) == multiset{})
      ensures memory.Ample? ==> rc == Ok
      ensures memory.Exhausted? && INVALID_TS !in old(blocked) ==>
        rc == ENoMem && obsoleted == old(obsoleted) && blocked == old(blocked) && freed == old(freed)
    {
      rc := TakeObsoleted(low, seen, memory);
      if rc != Ok {
        return;
      }
      var empty := BlockedEmpty();
      if empty {
        return;
      }
      var outOfMemory: bool := *;
      if outOfMemory && !memory.Ample? {
        return ENoMem;
      }
      rc := Sweep(low, seen, memory, old(Held()), old(freed));
      NeverFreed(low, seen, old(Held()), old(freed));
      if rc == Ok {
        SweptExactly(low, seen, old(Held()), old(freed));
        assert !StillBlocked(INVALID_TS, low, seen);
      }
    }

    lemma OnlyKeptHeld(low: Ts, seen: seq<Ts>, e: Entry)
      requires obsoleted == [] && Passing(records, blocked, low, seen, INVALID_TS + 1) && e in Held()
      ensures KeepsEntry(records, e, low, seen)
    {
      var k, i := TotalHas(blocked, e);
      assert GroupOk(records, k, blocked[k]) && StillBlocked(k, low, seen);
      assert Filed(records, k, blocked[k][i]);
      BlockedIsKept(records, k, e, low, seen);
    }

    lemma SweptExactly(low: Ts, seen: seq<Ts>, held0: multiset<Entry>, freed0: multiset<Entry>)
      requires obsoleted == [] && Passing(records, blocked, low, seen, INVALID_TS + 1)
      requires Collected(low, seen, held0, freed0)
      ensures forall e :: Held()[e] == if KeepsEntry(records, e, low, seen) then held0[e] else 0
    {
      NeverFreed(low, seen, held0, freed0);
      forall e ensures Held()[e] == if KeepsEntry(records, e, low, seen) then held0[e] else 0 {
        assert (Held() + freed)[e] == (held0 + freed0)[e];
        if e in Held() {
          OnlyKeptHeld(low, seen, e);
        }
      }
    }

    lemma NeverFreed(low: Ts, seen: seq<Ts>, held0: multiset<Entry>, freed0: multiset<Entry>)
      requires Collected(low, seen, held0, freed0)
      ensures forall e :: KeepsEntry(records, e, low, seen) ==> freed[e] == freed0[e]
    {
      forall e | KeepsEntry(records, e, low, seen) ensures freed[e] == freed0[e] {
        assert e !in freed - freed0;
      }
    }

    method Sweep(low: Ts, seen: seq<Ts>, memory: Memory, ghost held0: multiset<Entry>, ghost freed0: multiset<Entry>) returns (rc: Rc)
      requires low < INVALID_TS && obsoleted == [] && Passing(records, blocked, low, seen, 0)
      requires Collected(low, seen, held0, freed0)
      modifies this`blocked, this`freed
      ensures GroupsOk(records, blocked) && Collected(low, seen, held0, freed0) && rc != EInval
      ensures rc == Ok ==> Passing(records, blocked, low, seen, INVALID_TS + 1)
      ensures memory.Ample? ==> rc == Ok
    {
      var from := 0;
      while from <= INVALID_TS
        invariant from <= INVALID_TS + 1
        invariant Passing(records, blocked, low, seen, from) && Collected(low, seen, held0, freed0)
        decreases INVALID_TS + 1 - from
      {
        var next := NextSlot(blocked, from);
        if next.None? {
          PassingFar(records, blocked, low, seen, from, INVALID_TS + 1);
          return Ok;
        }
        var k := next.value;
        assert GroupOk(records, k, blocked[k]);
        PassingFar(records, blocked, low, seen, from, k);
        if !StillBlocked(k, low, seen) {
          rc := DrainGroup(k, low, seen, memory, held0, freed0);
          if rc != Ok {
            return;
          }
        }
        PassingFar(records, blocked, low, seen, k, k + 1);
        from := k + 1;
      }
      rc := Ok;
    }
  }

  /** One replaced page handed over to a collector that has taken over all others. */
  method HandOverPage(c: Collector, p: nat)
    requires c.Valid() && c.obsoleted == [] && p % TAG_SPAN == 0
    requires p in c.records.pages && c.records.pages[p].obs <= INVALID_TS
    modifies c`obsoleted
    ensures c.Valid() && |c.obsoleted| == 1 && StandsFor(c.obsoleted[0], PageEntry, p)
  {
    var pages := [p];
    var rc := c.MarkObsoleted(pages, None, Ample);
    assert rc == Ok && pages[0] == p && StandsFor(c.obsoleted[|old(c.obsoleted)| + 0], PageEntry, pages[0]);
    assert Filed(c.records, INVALID_TS, c.obsoleted[0]);
  }

  /** The group of unsorted entries is meant to stay so that taking entries over cannot fail
      when memory is low. One completed pass over one page is enough for it to go, and the
      next page handed over stays where it is, although nothing needs it. */
  method StarvedHandOver() returns (c: Collector, rc: Rc)
    ensures fresh(c) && c.Valid() && rc == ENoMem
    ensures |c.obsoleted| == 1 && StandsFor(c.obsoleted[0], PageEntry, 16) && INVALID_TS !in c.blocked
    ensures !KeepsEntry(c.records, c.obsoleted[0], 5, [])
  {
    c := new Collector(Records(map[8 := Life(0, 3), 16 := Life(0, 3)], map[]));
    HandOverPage(c, 8);
    assert c.Held() != multiset{} by {
      assert c.obsoleted[0] in multiset(c.obsoleted);
    }
    rc := c.Gc(5, [], Ample);
    HandOverPage(c, 16);
    rc := c.Gc(5, [], Exhausted);
  }
}
