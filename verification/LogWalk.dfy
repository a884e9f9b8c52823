/** The loops that walk a stretch of the commit log: validation against concurrent
    entries, the search for the first write to a range, and the rebuilding of one page
    from a checkpoint page.

    A walk looks its first entry up by timestamp and then follows `next` pointers, so it
    works on what `Walkable` promises. `trim` says what the log collector has done: the
    timestamp lookups are tested against, and below what entries are gone. */
module LogWalk {
  import opened Types
  import opened CheckpointStore
  import Radix

  function TsToEntry(log: seq<LogEntry>, trim: Trim, k: Ts): (r: (Rc, Option<Ts>)) {
    if k < trim.tested then (ENoMem, None)
    else if trim.gone <= k && 1 <= k <= |log| then (Ok, Some(k))
    else (Ok, None)
  }

  /** The lookup of the callers that check what they get. */
  function FindEntry(log: seq<LogEntry>, trim: Trim, k: Ts): (r: Rc)
    ensures 1 <= k <= |log| ==> r == EntryRc(trim, k)
  {
    var (rc, entry) := TsToEntry(log, trim, k);
    if rc != Ok then rc else if entry.None? then EInval else Ok
  }

  /** Following `next` from entry `k`: the successor, unless it is missing or compares later
      than `stop` (a half-built tail entry still carries INVALID_TS). */
  function NextEntry(log: seq<LogEntry>, k: Ts, stop: Ts): Option<Ts>
    requires 1 <= k <= |log|
  {
    if k == |log| || EntryAt(log, k + 1).ts > stop then None else Some(k + 1)
  }

  /** Under `Walkable` the walk visits exactly the timestamps up to `stop`. */
  lemma NextIsExact(log: seq<LogEntry>, k: Ts, stop: Ts)
    requires Walkable(log, stop) && 1 <= k <= stop
    ensures NextEntry(log, k, stop) == if k == stop then None else Some(k + 1)
  {
    assert k < stop ==> EntryAt(log, k + 1).ts == k + 1;
  }

  // ---------------------------------------------------------------- validation

  method WsEntConflictsLog(ent: WsEnt, ws: seq<WsEnt>) returns (conflicts: bool)
    ensures conflicts <==> exists i :: 0 <= i < |ws| && Conflicts(ws[i], ent)
  {
    var i := 0;
    while i < |ws|
      invariant 0 <= i <= |ws|
      invariant forall j :: 0 <= j < i ==> !Conflicts(ws[j], ent)
    {
      if Conflicts(ws[i], ent) {
        return true;
      }
      i := i + 1;
    }
    conflicts := false;
  }

  /** Whether committing `mine` after `other` has to abort. */
  method ValidateOne(mine: seq<WsEnt>, other: LogEntry) returns (conflict: bool)
    ensures conflict <==> !other.aborted && !Disjoint(mine, other.ws)
  {
    if other.aborted {
      return false;
    }
    var i := 0;
    while i < |mine|
      invariant 0 <= i <= |mine|
      invariant forall a, b :: 0 <= a < i && 0 <= b < |other.ws| ==> !Conflicts(mine[a], other.ws[b])
    {
      var c := WsEntConflictsLog(mine[i], other.ws);
      if c {
        var b :| 0 <= b < |other.ws| && Conflicts(other.ws[b], mine[i]);
        assert Conflicts(mine[i], other.ws[b]);
        return true;
      }
      i := i + 1;
    }
    conflict := false;
  }

  ghost predicate Rival(log: seq<LogEntry>, k: Ts, mine: seq<WsEnt>)
    requires 1 <= k <= |log|
  {
    !EntryAt(log, k).aborted && !Disjoint(mine, EntryAt(log, k).ws)
  }

  /** `NullEntry` is the dereference of an entry the lookup did not find. */
  datatype Verdict = Passed | Aborted | NullEntry

  /** sivfs_validate: aborts exactly for a conflict with a non-aborted entry in
      [start, stop], an empty range, or a start the lookup refuses. It does not check what the
      lookup found: with the start gone but not refused it dereferences NULL. */
  method Validate(log: seq<LogEntry>, trim: Trim, mine: seq<WsEnt>, start: Ts, stop: Ts) returns (verdict: Verdict)
    requires Walkable(log, stop) && start >= 1
    ensures verdict.NullEntry? <==> trim.tested <= start <= stop && start < trim.gone
    ensures verdict.Aborted? <==>
      || stop < start || start < trim.tested
      || (trim.gone <= start && exists k :: start <= k <= stop && Rival(log, k, mine))
  {
    if stop < start {
      return Aborted;
    }
    var (rc, entry) := TsToEntry(log, trim, start);
    if rc != Ok {
      return Aborted;
    }
    if entry.None? {
      return NullEntry;
    }
    var k := entry.value;
    while true
      invariant start <= k <= stop
      invariant forall j :: start <= j < k ==> !Rival(log, j, mine)
      decreases stop - k
    {
      var conflict := ValidateOne(mine, EntryAt(log, k));
      if conflict {
        assert Rival(log, k, mine);
        return Aborted;
      }
      assert !Rival(log, k, mine);
      NextIsExact(log, k, stop);
      if EntryAt(log, k).ts == stop {
        break;
      }
      var next := NextEntry(log, k, stop);
      if next.None? {
        break;
      }
      k := next.value;
    }
    assert k == stop;
    verdict := Passed;
  }

  // ---------------------------------------------------------------- first write to a range

  predicate Hits(ent: WsEnt, ino: nat, lo: nat, hi: nat) {
    ent.ino == ino && lo <= ent.off < hi
  }

  ghost predicate HitsRange(e: LogEntry, ino: nat, lo: nat, hi: nat) {
    !e.aborted && exists i :: 0 <= i < |e.ws| && Hits(e.ws[i], ino, lo, hi)
  }

  method EntryHits(e: LogEntry, ino: nat, lo: nat, hi: nat) returns (hit: bool)
    ensures hit <==> HitsRange(e, ino, lo, hi)
  {
    if e.aborted {
      return false;
    }
    var i := 0;
    while i < |e.ws|
      invariant 0 <= i <= |e.ws|
      invariant forall j :: 0 <= j < i ==> !Hits(e.ws[j], ino, lo, hi)
    {
      if Hits(e.ws[i], ino, lo, hi) {
        return true;
      }
      i := i + 1;
    }
    hit := false;
  }

  /** sivfs_find_first_write: the timestamp of the first non-aborted entry in (start, end]
      writing into [lo, hi) of the file, or INVALID_TS exactly when there is none. */
  method FindFirstWrite(log: seq<LogEntry>, trim: Trim, start: Ts, end: Ts, ino: nat, lo: nat, hi: nat)
      returns (rc: Rc, first: Ts)
    requires Walkable(log, end) && end < INVALID_TS
    ensures rc == if end < start || hi <= lo then EInval
                  else if start < end then EntryRc(trim, start + 1)
                  else Ok
    ensures rc == Ok && first == INVALID_TS ==> forall k :: start < k <= end ==> !HitsRange(EntryAt(log, k), ino, lo, hi)
    ensures rc == Ok && first != INVALID_TS ==>
      && start < first <= end && HitsRange(EntryAt(log, first), ino, lo, hi)
      && forall k :: start < k < first ==> !HitsRange(EntryAt(log, k), ino, lo, hi)
  {
    first := INVALID_TS;
    if end < start || hi <= lo {
      return EInval, first;
    }
    rc := Ok;
    if end == start {
      return;
    }
    rc := FindEntry(log, trim, start + 1);
    if rc != Ok {
      return;
    }
    var k := start + 1;
    while true
      invariant start < k <= end
      invariant forall j :: start < j < k ==> !HitsRange(EntryAt(log, j), ino, lo, hi)
      decreases end - k
    {
      var hit := EntryHits(EntryAt(log, k), ino, lo, hi);
      if hit {
        first := EntryAt(log, k).ts;
        return;
      }
      NextIsExact(log, k, end);
      var next := NextEntry(log, k, end);
      if next.None? {
        break;
      }
      k := next.value;
    }
    assert k == end;
  }

  // ---------------------------------------------------------------- rebuilding a page

  function WordAddr(ino: nat, off: nat, w: nat): Addr {
    Addr(ino, off + w * WORD_SIZE)
  }

  /** sivfs_apply_ws_ent_pg, for a page the entry belongs to. */
  function Patch(mem: seq<Word>, ent: WsEnt): seq<Word>
    requires |mem| == WORDS_PER_PAGE
  {
    mem[ent.off % PAGE_SIZE / WORD_SIZE := ent.value]
  }

  predicate SamePage(ent: WsEnt, ino: nat, off: nat) {
    ent.ino == ino && ent.off / PAGE_SIZE == off / PAGE_SIZE
  }

  lemma PatchWord(mem: seq<Word>, ent: WsEnt, ino: nat, off: nat, w: nat)
    requires |mem| == WORDS_PER_PAGE && w < WORDS_PER_PAGE && off % PAGE_SIZE == 0 && ent.off % WORD_SIZE == 0
    ensures SamePage(ent, ino, off) ==>
      Patch(mem, ent)[w] == if Writes(ent, WordAddr(ino, off, w)) then ent.value else mem[w]
    ensures !SamePage(ent, ino, off) ==> !Writes(ent, WordAddr(ino, off, w))
  {
    WordInPage(ino, off, w);
    if SamePage(ent, ino, off) {
      AlignedInPage(ent.off, off);
    }
  }

  lemma AlignedInPage(x: nat, off: nat)
    requires off % PAGE_SIZE == 0 && x % WORD_SIZE == 0 && x / PAGE_SIZE == off / PAGE_SIZE
    ensures x == off + x % PAGE_SIZE / WORD_SIZE * WORD_SIZE
  {
    var q := x / 8;
    var d, r := q / 512, q % 512;
    assert x == 4096 * d + 8 * r && 8 * r < 4096;
    assert x / 4096 == d && x % 4096 == 8 * r;
  }

  /** The page after entries below `k` and the first `i` writes of entry `k`. */
  ghost predicate PageHolds(mem: seq<Word>, log: seq<LogEntry>, k: Ts, i: nat, ino: nat, off: nat)
    requires 1 <= k <= |log| && i <= |EntryAt(log, k).ws|
  {
    && |mem| == WORDS_PER_PAGE
    && forall w {:trigger WordAddr(ino, off, w)} :: 0 <= w < WORDS_PER_PAGE ==>
         mem[w] == Overlay(EntryAt(log, k).ws[..i], WordAddr(ino, off, w), Snapshot(log, k - 1, WordAddr(ino, off, w)))
  }

  lemma PageHoldsStart(mem: seq<Word>, log: seq<LogEntry>, k: Ts, ino: nat, off: nat)
    requires 1 <= k <= |log| && IsPage(mem, log, k - 1, ino, off)
    ensures PageHolds(mem, log, k, 0, ino, off)
  {
  }

  lemma PageHoldsEnd(mem: seq<Word>, log: seq<LogEntry>, k: Ts, ino: nat, off: nat)
    requires 1 <= k <= |log| && !EntryAt(log, k).aborted
    requires PageHolds(mem, log, k, |EntryAt(log, k).ws|, ino, off)
    ensures IsPage(mem, log, k, ino, off)
  {
    var ws := EntryAt(log, k).ws;
    assert ws[..|ws|] == ws;
    forall w | 0 <= w < WORDS_PER_PAGE ensures mem[w] == Snapshot(log, k, Addr(ino, off + w * WORD_SIZE)) {
      assert WordAddr(ino, off, w) == Addr(ino, off + w * WORD_SIZE);
    }
  }

  lemma PageHoldsNext(mem: seq<Word>, mem': seq<Word>, log: seq<LogEntry>, k: Ts, i: nat, ino: nat, off: nat)
    requires 1 <= k <= |log| && i < |EntryAt(log, k).ws| && PageHolds(mem, log, k, i, ino, off)
    requires off % PAGE_SIZE == 0 && EntryAt(log, k).ws[i].off % WORD_SIZE == 0
    requires mem' == if SamePage(EntryAt(log, k).ws[i], ino, off) then Patch(mem, EntryAt(log, k).ws[i]) else mem
    ensures PageHolds(mem', log, k, i + 1, ino, off)
  {
    var ws := EntryAt(log, k).ws;
    assert ws[..i + 1][..i] == ws[..i];
    forall w | 0 <= w < WORDS_PER_PAGE
      ensures mem'[w] == Overlay(ws[..i + 1], WordAddr(ino, off, w), Snapshot(log, k - 1, WordAddr(ino, off, w)))
    {
      PatchWord(mem, ws[i], ino, off, w);
    }
  }

  /** Bring a page from the snapshot at `k - 1` to the one at `k`, in place. */
  method ReplayEntry(mem: array<Word>, log: seq<LogEntry>, k: Ts, ino: nat, off: nat)
    requires 1 <= k <= |log| && off % PAGE_SIZE == 0 && AlignedWs(EntryAt(log, k).ws)
    requires IsPage(mem[..], log, k - 1, ino, off)
    modifies mem
    ensures IsPage(mem[..], log, k, ino, off)
  {
    if EntryAt(log, k).aborted {
      return;
    }
    var ws := EntryAt(log, k).ws;
    PageHoldsStart(mem[..], log, k, ino, off);
    var i := 0;
    while i < |ws|
      invariant 0 <= i <= |ws|
      invariant PageHolds(mem[..], log, k, i, ino, off)
    {
      ghost var before := mem[..];
      if SamePage(ws[i], ino, off) {
        mem[ws[i].off % PAGE_SIZE / WORD_SIZE] := ws[i].value;
        assert mem[..] == Patch(before, ws[i]);
      }
      PageHoldsNext(before, mem[..], log, k, i, ino, off);
      i := i + 1;
    }
    PageHoldsEnd(mem[..], log, k, ino, off);
  }

  /** my_sivfs_update_page: the page at snapshot `ts` from checkpoint `cp` and the log. */
  method UpdatePage(trees: CheckpointTrees, mem: array<Word>, log: seq<LogEntry>, trim: Trim, cp: Option<Ts>, ts: Ts,
                    ino: nat, off: nat)
      returns (rc: Rc)
    requires trees.Valid(log) && (cp.Some? ==> cp.value in trees.Roots())
    requires ts != INVALID_TS ==> Walkable(log, ts)
    requires mem.Length == WORDS_PER_PAGE
    requires forall k :: 1 <= k <= |log| ==> AlignedWs(EntryAt(log, k).ws)
    modifies mem
    ensures rc == if ts == INVALID_TS || off % PAGE_SIZE != 0 || cp.None? || !Radix.InRange(ino, off) then EInval
                  else if cp.value < ts then EntryRc(trim, cp.value + 1)
                  else Ok
    ensures rc == Ok ==> IsPage(mem[..], log, if cp.value <= ts then ts else cp.value, ino, off)
  {
    if ts == INVALID_TS || off % PAGE_SIZE != 0 || cp.None? {
      return EInval;
    }
    var base;
    rc, base := trees.ReadCheckpoint(cp.value, ino, off, log);
    if rc != Ok {
      return;
    }
    forall i | 0 <= i < mem.Length {
      mem[i] := base[i];
    }
    assert mem[..] == base;
    if cp.value + 1 > ts {
      return;
    }
    rc := FindEntry(log, trim, cp.value + 1);
    if rc != Ok {
      return;
    }
    var k := cp.value + 1;
    while true
      invariant cp.value < k <= ts
      invariant IsPage(mem[..], log, k - 1, ino, off)
      decreases ts - k
    {
      ReplayEntry(mem, log, k, ino, off);
      NextIsExact(log, k, ts);
      var next := NextEntry(log, k, ts);
      if next.None? {
        break;
      }
      k := next.value;
    }
    assert k == ts;
  }
}
