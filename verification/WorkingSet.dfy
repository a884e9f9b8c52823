/** A thread's view of the store: private copies of pages in its working set, checkpoint
    pages mapped directly, and the incremental update that carries both from one snapshot
    to the next (kern/sivfs_commit_update_checkpoints.c, kern/sivfs_workingset.c,
    kern/inode.c). */
module WorkingSet {
  import opened Types
  import opened Radix
  import opened CheckpointHeap
  import opened CheckpointStore
  import opened LogWalk
  import CommitProtocol

  datatype PageKey = PageKey(ino: nat, pgoff: nat)

  function KeyOf(ent: WsEnt): PageKey {
    PageKey(ent.ino, ent.off / PAGE_SIZE)
  }

  function PageStart(key: PageKey): nat {
    key.pgoff * PAGE_SIZE
  }

  function Slot(key: PageKey, w: nat): Addr {
    WordAddr(key.ino, PageStart(key), w)
  }

  function LeafPath(key: PageKey): seq<nat> {
    Digits(key.ino, key.pgoff)
  }

  ghost predicate HitsPage(ws: seq<WsEnt>, key: PageKey) {
    exists i :: 0 <= i < |ws| && KeyOf(ws[i]) == key
  }

  // ---------------------------------------------------------------- page contents

  /** The page is the snapshot at `t` with the writes `own` on top. */
  ghost predicate Shows(mem: seq<Word>, log: seq<LogEntry>, t: Ts, key: PageKey, own: seq<WsEnt>)
    requires t <= |log|
  {
    && |mem| == WORDS_PER_PAGE
    && forall w {:trigger Slot(key, w)} :: 0 <= w < WORDS_PER_PAGE ==>
         mem[w] == Overlay(own, Slot(key, w), Snapshot(log, t, Slot(key, w)))
  }

  ghost predicate Replayed(mem: seq<Word>, mem': seq<Word>, ws: seq<WsEnt>, key: PageKey) {
    && |mem| == WORDS_PER_PAGE && |mem'| == WORDS_PER_PAGE
    && forall w {:trigger Slot(key, w)} :: 0 <= w < WORDS_PER_PAGE ==> mem'[w] == Overlay(ws, Slot(key, w), mem[w])
  }

  lemma PatchSlot(mem: seq<Word>, ent: WsEnt, key: PageKey, w: nat)
    requires |mem| == WORDS_PER_PAGE && w < WORDS_PER_PAGE && ent.off % WORD_SIZE == 0
    ensures KeyOf(ent) == key ==> Patch(mem, ent)[w] == if Writes(ent, Slot(key, w)) then ent.value else mem[w]
    ensures KeyOf(ent) != key ==> !Writes(ent, Slot(key, w))
  {
    assert PageStart(key) % PAGE_SIZE == 0 && PageStart(key) / PAGE_SIZE == key.pgoff;
    PatchWord(mem, ent, key.ino, PageStart(key), w);
  }

  lemma ReplayedNext(mem: seq<Word>, m1: seq<Word>, m2: seq<Word>, ws: seq<WsEnt>, i: nat, key: PageKey)
    requires i < |ws| && ws[i].off % WORD_SIZE == 0 && Replayed(mem, m1, ws[..i], key)
    requires m2 == if KeyOf(ws[i]) == key then Patch(m1, ws[i]) else m1
    ensures Replayed(mem, m2, ws[..i + 1], key)
  {
    assert ws[..i + 1][..i] == ws[..i];
    forall w | 0 <= w < WORDS_PER_PAGE ensures m2[w] == Overlay(ws[..i + 1], Slot(key, w), mem[w]) {
      PatchSlot(m1, ws[i], key, w);
    }
  }

  /** Disjoint writes commute. */
  lemma OverlayCommutes(own: seq<WsEnt>, other: seq<WsEnt>, a: Addr, base: Word)
    requires Disjoint(own, other)
    ensures Overlay(other, a, Overlay(own, a, base)) == Overlay(own, a, Overlay(other, a, base))
  {
    if !TouchesWord(own, a) {
      OverlayUntouched(own, a, base);
      OverlayUntouched(own, a, Overlay(other, a, base));
    } else {
      var i :| 0 <= i < |own| && Writes(own[i], a);
      forall j | 0 <= j < |other| ensures !Writes(other[j], a) {
        assert !Conflicts(own[i], other[j]);
      }
      OverlayUntouched(other, a, base);
      OverlayUntouched(other, a, Overlay(own, a, base));
    }
  }

  /** Applying a concurrent earlier entry after the thread's own in-place writes gives the
      page that applying it before them would have given. */
  lemma ShowsPast(mem: seq<Word>, mem': seq<Word>, log: seq<LogEntry>, k: Ts, key: PageKey, own: seq<WsEnt>)
    requires 1 <= k <= |log| && Shows(mem, log, k - 1, key, own)
    requires !EntryAt(log, k).aborted && Disjoint(own, EntryAt(log, k).ws) && Replayed(mem, mem', EntryAt(log, k).ws, key)
    ensures Shows(mem', log, k, key, own)
  {
    forall w | 0 <= w < WORDS_PER_PAGE
      ensures mem'[w] == Overlay(own, Slot(key, w), Snapshot(log, k, Slot(key, w)))
    {
      OverlayCommutes(own, EntryAt(log, k).ws, Slot(key, w), Snapshot(log, k - 1, Slot(key, w)));
    }
  }

  /** At its own entry nothing needs to be applied: the page already shows it. */
  lemma ShowsOwn(mem: seq<Word>, log: seq<LogEntry>, k: Ts, key: PageKey)
    requires 1 <= k <= |log| && !EntryAt(log, k).aborted && Shows(mem, log, k - 1, key, EntryAt(log, k).ws)
    ensures Shows(mem, log, k, key, [])
  {
  }

  lemma ShowsAborted(mem: seq<Word>, log: seq<LogEntry>, k: Ts, key: PageKey, own: seq<WsEnt>)
    requires 1 <= k <= |log| && EntryAt(log, k).aborted && Shows(mem, log, k - 1, key, own)
    ensures Shows(mem, log, k, key, own)
  {
  }

  /** A page none of the writes fall on shows the bare snapshot. */
  lemma ShowsUntouched(mem: seq<Word>, log: seq<LogEntry>, t: Ts, key: PageKey, own: seq<WsEnt>)
    requires t <= |log| && AlignedWs(own) && !HitsPage(own, key)
    ensures Shows(mem, log, t, key, own) <==> Shows(mem, log, t, key, [])
  {
    if |mem| == WORDS_PER_PAGE {
      forall w | 0 <= w < WORDS_PER_PAGE
        ensures Overlay(own, Slot(key, w), Snapshot(log, t, Slot(key, w))) == Snapshot(log, t, Slot(key, w))
      {
        forall i | 0 <= i < |own| ensures !Writes(own[i], Slot(key, w)) {
          PatchSlot(mem, own[i], key, w);
        }
        OverlayUntouched(own, Slot(key, w), Snapshot(log, t, Slot(key, w)));
      }
    }
  }

  /** One more write of the running transaction. */
  lemma ShowsWrite(mem: seq<Word>, log: seq<LogEntry>, t: Ts, key: PageKey, own: seq<WsEnt>, ent: WsEnt)
    requires t <= |log| && ent.off % WORD_SIZE == 0 && Shows(mem, log, t, key, own)
    ensures Shows(if KeyOf(ent) == key then Patch(mem, ent) else mem, log, t, key, own + [ent])
  {
    assert (own + [ent])[..|own|] == own;
    forall w | 0 <= w < WORDS_PER_PAGE
      ensures (if KeyOf(ent) == key then Patch(mem, ent) else mem)[w]
              == Overlay(own + [ent], Slot(key, w), Snapshot(log, t, Slot(key, w)))
    {
      PatchSlot(mem, ent, key, w);
    }
  }

  lemma ShowsIsPage(mem: seq<Word>, log: seq<LogEntry>, t: Ts, key: PageKey)
    requires t <= |log|
    ensures Shows(mem, log, t, key, []) <==> IsPage(mem, log, t, key.ino, PageStart(key))
  {
    if IsPage(mem, log, t, key.ino, PageStart(key)) {
      forall w | 0 <= w < WORDS_PER_PAGE ensures mem[w] == Overlay([], Slot(key, w), Snapshot(log, t, Slot(key, w))) {
        assert Slot(key, w) == Addr(key.ino, PageStart(key) + w * WORD_SIZE);
      }
    } else if Shows(mem, log, t, key, []) {
      forall w | 0 <= w < WORDS_PER_PAGE ensures mem[w] == Snapshot(log, t, Addr(key.ino, PageStart(key) + w * WORD_SIZE)) {
        assert Slot(key, w) == Addr(key.ino, PageStart(key) + w * WORD_SIZE);
      }
    }
  }

  // ---------------------------------------------------------------- mapped checkpoint pages

  ghost predicate LogOk(log: seq<LogEntry>) {
    forall k :: 1 <= k <= |log| ==> AlignedWs(EntryAt(log, k).ws) && InRangeWs(EntryAt(log, k).ws)
  }

  /** No non-aborted entry in (lo, hi] writes to the page. */
  ghost predicate QuietKey(log: seq<LogEntry>, lo: Ts, hi: Ts, key: PageKey)
    requires hi <= |log|
  {
    forall k :: lo < k <= hi ==> EntryAt(log, k).aborted || !HitsPage(EntryAt(log, k).ws, key)
  }

  lemma QuietIsQuiet(log: seq<LogEntry>, lo: Ts, hi: Ts, key: PageKey)
    requires hi <= |log| && LogOk(log) && InRange(key.ino, PageStart(key)) && QuietKey(log, lo, hi, key)
    ensures QuietPage(log, lo, hi, LeafPath(key))
  {
    forall k | lo < k <= hi && !EntryAt(log, k).aborted ensures MissesPage(EntryAt(log, k).ws, LeafPath(key)) {
      var ws := EntryAt(log, k).ws;
      assert !HitsPage(ws, key);
      forall i | 0 <= i < |ws| ensures Digits(ws[i].ino, ws[i].off / PAGE_SIZE) != LeafPath(key) {
        assert KeyOf(ws[i]) != key;
        if Digits(ws[i].ino, ws[i].off / PAGE_SIZE) == LeafPath(key) {
          assert PageStart(key) / PAGE_SIZE == key.pgoff;
          DigitsInjective(ws[i].ino, ws[i].off, key.ino, PageStart(key));
        }
      }
    }
  }

  lemma {:induction false} QuietShows(mem: seq<Word>, log: seq<LogEntry>, lo: Ts, hi: Ts, key: PageKey)
    requires lo <= hi <= |log| && LogOk(log) && QuietKey(log, lo, hi, key)
    ensures Shows(mem, log, lo, key, []) <==> Shows(mem, log, hi, key, [])
    decreases hi
  {
    if lo < hi {
      QuietShows(mem, log, lo, hi - 1, key);
      var e := EntryAt(log, hi);
      if e.aborted {
        SnapshotStepAborted(log, hi);
      } else {
        assert !HitsPage(e.ws, key);
        ShowsUntouched(mem, log, hi - 1, key, e.ws);
      }
    }
  }

  lemma SnapshotStepAborted(log: seq<LogEntry>, k: Ts)
    requires 1 <= k <= |log| && EntryAt(log, k).aborted
    ensures forall a :: Snapshot(log, k, a) == Snapshot(log, k - 1, a)
  {
  }

  /** A checkpoint page a thread on checkpoint `cp` and snapshot `t` may keep mapped: the
      leaf of that checkpoint's own tree, and unwritten since. */
  ghost predicate MayMap(s: Store, log: seq<LogEntry>, cp: Ts, t: Ts, key: PageKey, page: nat)
    requires t <= |log|
  {
    && cp in s.roots && page != 0 && InRange(key.ino, PageStart(key))
    && Read(s, cp, LeafPath(key)) == page
    && QuietKey(log, cp, t, key)
  }

  /** Moving on to a later checkpoint and snapshot, an unwritten page stays the right one. */
  lemma MayMapOn(s: Store, log: seq<LogEntry>, cp: Ts, t: Ts, cp': Ts, t': Ts, key: PageKey, page: nat)
    requires t <= t' <= |log| && cp <= cp' <= t' && cp <= t && cp' != CURRENT && cp != CURRENT && cp' in s.roots
    requires LogOk(log) && Sharing(s, log)
    requires MayMap(s, log, cp, t, key, page) && QuietKey(log, t, t', key)
    ensures MayMap(s, log, cp', t', key, page)
  {
    forall k | cp < k <= t' ensures EntryAt(log, k).aborted || !HitsPage(EntryAt(log, k).ws, key) {
    }
    assert QuietKey(log, cp, cp', key);
    QuietIsQuiet(log, cp, cp', key);
    assert Path(LeafPath(key), DEPTH) && |LeafPath(key)| == DEPTH;
    assert SharedBetween(s, log, cp, cp', LeafPath(key));
  }

  /** Building and collecting checkpoints beside it does not take a mapped page away. */
  lemma MayMapKept(s: Store, s': Store, log: seq<LogEntry>, cp: Ts, t: Ts, key: PageKey, page: nat)
    requires t <= |log| && MayMap(s, log, cp, t, key, page) && cp != CURRENT
    requires Persistent(s, s') && cp in s'.roots
    ensures MayMap(s', log, cp, t, key, page)
  {
    assert Path(LeafPath(key), WORD_DEPTH);
    assert Read(s', cp, LeafPath(key)) == Read(s, cp, LeafPath(key));
  }

  /** What the user reads through the mapping is the snapshot. */
  lemma MappedShows(s: Store, log: seq<LogEntry>, cp: Ts, t: Ts, key: PageKey, page: nat)
    requires Inv(s) && cp <= t <= |log| && LogOk(log)
    requires MayMap(s, log, cp, t, key, page) && IsSnapshot(s, cp, log, cp)
    ensures page in s.h && Shows(s.h[page].mem, log, t, key, [])
  {
    assert Path(LeafPath(key), DEPTH);
    OnPath(s, cp, LeafPath(key));
    assert PageOk(s, page);
    assert PageStart(key) / PAGE_SIZE == key.pgoff && PageStart(key) % PAGE_SIZE == 0;
    PageOfTree(s, cp, log, key.ino, PageStart(key), s.h[page].mem);
    ShowsIsPage(s.h[page].mem, log, cp, key);
    QuietShows(s.h[page].mem, log, cp, t, key);
  }

  // ---------------------------------------------------------------- a thread's whole view

  ghost predicate ResidentOk(resident: map<PageKey, seq<Word>>, log: seq<LogEntry>, t: Ts, own: seq<WsEnt>)
    requires t <= |log|
  {
    forall key {:trigger Shows(resident[key], log, t, key, own)} :: key in resident ==> Shows(resident[key], log, t, key, own)
  }

  ghost predicate MappedOk(s: Store, log: seq<LogEntry>, cp: Ts, t: Ts, mapped: map<PageKey, nat>)
    requires t <= |log|
  {
    forall key {:trigger MayMap(s, log, cp, t, key, mapped[key])} :: key in mapped ==> MayMap(s, log, cp, t, key, mapped[key])
  }

  /** Every page the thread can touch without faulting is right for a transaction at
      snapshot `t` on checkpoint `cp` that has made the writes `own`. */
  ghost predicate View(s: Store, log: seq<LogEntry>, cp: Ts, t: Ts,
                       resident: map<PageKey, seq<Word>>, mapped: map<PageKey, nat>, own: seq<WsEnt>)
  {
    && cp in s.roots && cp != CURRENT && cp <= t <= |log| && t < INVALID_TS
    && AlignedWs(own) && (forall i :: 0 <= i < |own| ==> KeyOf(own[i]) in resident)
    && ResidentOk(resident, log, t, own)
    && MappedOk(s, log, cp, t, mapped)
    && mapped.Keys !! resident.Keys
  }

  /** A view does not change as commits are appended to the log: what it depends on is at
      or below its snapshot, and final. */
  lemma ViewLogGrows(s: Store, log: seq<LogEntry>, log': seq<LogEntry>, cp: Ts, t: Ts,
                     resident: map<PageKey, seq<Word>>, mapped: map<PageKey, nat>, own: seq<WsEnt>)
    requires View(s, log, cp, t, resident, mapped, own) && t <= |log'|
    requires forall i :: 0 <= i < t ==> log'[i] == log[i]
    ensures View(s, log', cp, t, resident, mapped, own)
  {
    forall key | key in resident ensures Shows(resident[key], log', t, key, own) {
      assert Shows(resident[key], log, t, key, own);
      forall w | 0 <= w < WORDS_PER_PAGE ensures Snapshot(log', t, Slot(key, w)) == Snapshot(log, t, Slot(key, w)) {
        SnapshotPrefix(log, log', t, Slot(key, w));
      }
    }
    forall key | key in mapped ensures MayMap(s, log', cp, t, key, mapped[key]) {
      assert MayMap(s, log, cp, t, key, mapped[key]);
      forall k | cp < k <= t ensures EntryAt(log', k) == EntryAt(log, k) {
      }
    }
  }

  /** Nor as checkpoints are built and collected beside it, while its own one is kept. */
  lemma ViewTreesMoveOn(s: Store, s': Store, log: seq<LogEntry>, cp: Ts, t: Ts,
                        resident: map<PageKey, seq<Word>>, mapped: map<PageKey, nat>, own: seq<WsEnt>)
    requires View(s, log, cp, t, resident, mapped, own) && Persistent(s, s') && cp in s'.roots
    ensures View(s', log, cp, t, resident, mapped, own)
  {
    forall key | key in mapped ensures MayMap(s', log, cp, t, key, mapped[key]) {
      assert MayMap(s, log, cp, t, key, mapped[key]);
      MayMapKept(s, s', log, cp, t, key, mapped[key]);
    }
  }

  /** Every published commit of the commit protocol is one the update can skip over. */
  lemma PublishedCommitWins(run: seq<CommitProtocol.State>, n: nat, k: Ts, stop: Ts)
    requires CommitProtocol.Behavior(run) && n < |run| && 1 <= k <= stop <= run[n].master
    ensures Walkable(run[n].log, stop) && |run[n].snapOf| == |run[n].log| && stop <= |run[n].log|
    ensures run[n].snapOf[k - 1] < k && FirstWins(run[n].log, run[n].snapOf[k - 1], k)
  {
    CommitProtocol.OrderedPublication(run, n, stop);
    CommitProtocol.InvAlways(run, n);
    assert CommitProtocol.EntryOk(run[n], k);
    var s := run[n];
    if !EntryAt(s.log, k).aborted {
      forall i | s.snapOf[k - 1] < i < k
        ensures EntryAt(s.log, i).aborted || Disjoint(EntryAt(s.log, k).ws, EntryAt(s.log, i).ws)
      {
        CommitProtocol.FirstCommitterWins(run, n, i, k);
      }
    }
  }

  /** A write in the middle of a page hits its byte range and no other page's. */
  lemma HitsRangeIsHitsPage(e: LogEntry, key: PageKey)
    ensures HitsRange(e, key.ino, PageStart(key), PageStart(key) + PAGE_SIZE) <==> !e.aborted && HitsPage(e.ws, key)
  {
    forall i | 0 <= i < |e.ws|
      ensures Hits(e.ws[i], key.ino, PageStart(key), PageStart(key) + PAGE_SIZE) <==> KeyOf(e.ws[i]) == key
    {
      InPage(e.ws[i].off, key.pgoff);
    }
  }

  lemma InPage(x: nat, pg: nat)
    ensures x / PAGE_SIZE == pg <==> pg * PAGE_SIZE <= x < pg * PAGE_SIZE + PAGE_SIZE
  {
  }

  lemma Unmap(s: Store, log: seq<LogEntry>, cp: Ts, t: Ts, resident: map<PageKey, seq<Word>>,
              mapped: map<PageKey, nat>, own: seq<WsEnt>, key: PageKey)
    requires View(s, log, cp, t, resident, mapped, own)
    ensures key in mapped ==> MayMap(s, log, cp, t, key, mapped[key])
    ensures View(s, log, cp, t, resident, mapped - {key}, own)
  {
    var m := mapped - {key};
    forall other | other in m ensures MayMap(s, log, cp, t, other, m[other]) {
      assert MayMap(s, log, cp, t, other, mapped[other]);
    }
  }

  lemma AddResident(s: Store, log: seq<LogEntry>, cp: Ts, t: Ts, resident: map<PageKey, seq<Word>>,
                    mapped: map<PageKey, nat>, own: seq<WsEnt>, key: PageKey, mem: seq<Word>)
    requires View(s, log, cp, t, resident, mapped, own) && key !in resident && key !in mapped
    requires Shows(mem, log, t, key, [])
    ensures View(s, log, cp, t, resident[key := mem], mapped, own)
  {
    assert !HitsPage(own, key);
    ShowsUntouched(mem, log, t, key, own);
    var r := resident[key := mem];
    forall other | other in r ensures Shows(r[other], log, t, other, own) {
      assert other != key ==> Shows(resident[other], log, t, other, own);
    }
  }

  lemma WriteView(s: Store, log: seq<LogEntry>, cp: Ts, t: Ts, resident: map<PageKey, seq<Word>>,
                  mapped: map<PageKey, nat>, own: seq<WsEnt>, ent: WsEnt)
    requires View(s, log, cp, t, resident, mapped, own) && KeyOf(ent) in resident && ent.off % WORD_SIZE == 0
    requires |resident[KeyOf(ent)]| == WORDS_PER_PAGE
    ensures View(s, log, cp, t, resident[KeyOf(ent) := Patch(resident[KeyOf(ent)], ent)], mapped, own + [ent])
  {
    var r := resident[KeyOf(ent) := Patch(resident[KeyOf(ent)], ent)];
    forall other | other in r ensures Shows(r[other], log, t, other, own + [ent]) {
      assert Shows(resident[other], log, t, other, own);
      ShowsWrite(resident[other], log, t, other, own, ent);
    }
  }

  // ---------------------------------------------------------------- carrying a view forward

  /** The commit the thread is about to skip over, if any, won against every concurrent
      entry before it. */
  ghost predicate FirstWins(log: seq<LogEntry>, t: Ts, commit: Ts)
    requires t < commit <= |log|
  {
    EntryAt(log, commit).aborted ||
    forall i :: t < i < commit ==> EntryAt(log, i).aborted || Disjoint(EntryAt(log, commit).ws, EntryAt(log, i).ws)
  }

  /** The thread's in-place writes that the snapshot at `k` does not contain yet. */
  ghost function OwnAhead(log: seq<LogEntry>, k: Ts, commit: Ts): seq<WsEnt> {
    if k < commit <= |log| && !EntryAt(log, commit).aborted then EntryAt(log, commit).ws else []
  }

  /** One entry's effect on all resident pages. */
  ghost predicate AllReplayed(r: map<PageKey, seq<Word>>, r': map<PageKey, seq<Word>>, ws: seq<WsEnt>) {
    && r'.Keys == r.Keys
    && forall key {:trigger Replayed(r[key], r'[key], ws, key)} :: key in r ==> Replayed(r[key], r'[key], ws, key)
  }

  ghost predicate EntryApplied(r: map<PageKey, seq<Word>>, r': map<PageKey, seq<Word>>, log: seq<LogEntry>, k: Ts, commit: Ts)
    requires 1 <= k <= |log|
  {
    if k == commit || EntryAt(log, k).aborted then r' == r else AllReplayed(r, r', EntryAt(log, k).ws)
  }

  lemma CarryPage(mem: seq<Word>, mem': seq<Word>, log: seq<LogEntry>, t: Ts, k: Ts, commit: Ts, key: PageKey)
    requires t < k <= |log| && (commit != INVALID_TS ==> t < commit <= |log| && FirstWins(log, t, commit)) && |log| < INVALID_TS
    requires Shows(mem, log, k - 1, key, OwnAhead(log, k - 1, commit))
    requires if k == commit || EntryAt(log, k).aborted then mem' == mem else Replayed(mem, mem', EntryAt(log, k).ws, key)
    ensures Shows(mem', log, k, key, OwnAhead(log, k, commit))
  {
    if EntryAt(log, k).aborted {
      ShowsAborted(mem, log, k, key, OwnAhead(log, k - 1, commit));
    } else if k == commit {
      ShowsOwn(mem, log, k, key);
    } else {
      ShowsPast(mem, mem', log, k, key, OwnAhead(log, k - 1, commit));
    }
  }

  lemma CarryResident(r: map<PageKey, seq<Word>>, r': map<PageKey, seq<Word>>, log: seq<LogEntry>, t: Ts, k: Ts, commit: Ts)
    requires t < k <= |log| && (commit != INVALID_TS ==> t < commit <= |log| && FirstWins(log, t, commit)) && |log| < INVALID_TS
    requires ResidentOk(r, log, k - 1, OwnAhead(log, k - 1, commit)) && EntryApplied(r, r', log, k, commit)
    ensures ResidentOk(r', log, k, OwnAhead(log, k, commit))
  {
    forall key | key in r' ensures Shows(r'[key], log, k, key, OwnAhead(log, k, commit)) {
      assert Shows(r[key], log, k - 1, key, OwnAhead(log, k - 1, commit));
      CarryPage(r[key], r'[key], log, t, k, commit, key);
    }
  }

  /** What stays mapped after everything in (t, k]: exactly the pages nobody wrote to. */
  ghost predicate Unwritten(m0: map<PageKey, nat>, m: map<PageKey, nat>, log: seq<LogEntry>, t: Ts, k: Ts)
    requires k <= |log|
  {
    && (forall key {:trigger UnwrittenAt(m0, m, log, t, k, key)} :: UnwrittenAt(m0, m, log, t, k, key))
    && (forall key :: key in m && key in m0 ==> m[key] == m0[key])
  }

  ghost predicate UnwrittenAt(m0: map<PageKey, nat>, m: map<PageKey, nat>, log: seq<LogEntry>, t: Ts, k: Ts, key: PageKey)
    requires k <= |log|
  {
    key in m <==> key in m0 && QuietKey(log, t, k, key)
  }

  ghost predicate Evicted(m: map<PageKey, nat>, m': map<PageKey, nat>, ws: seq<WsEnt>) {
    && (forall key {:trigger EvictedAt(m, m', ws, key)} :: EvictedAt(m, m', ws, key))
    && (forall key :: key in m' && key in m ==> m'[key] == m[key])
  }

  ghost predicate EvictedAt(m: map<PageKey, nat>, m': map<PageKey, nat>, ws: seq<WsEnt>, key: PageKey) {
    key in m' <==> key in m && !HitsPage(ws, key)
  }

  lemma CarryMapped(m0: map<PageKey, nat>, m: map<PageKey, nat>, m': map<PageKey, nat>, log: seq<LogEntry>, t: Ts, k: Ts,
                    commit: Ts, own: set<PageKey>)
    requires t < k <= |log| && Unwritten(m0, m, log, t, k - 1) && own !! m0.Keys
    requires k == commit ==> forall i :: 0 <= i < |EntryAt(log, k).ws| ==> EntryAt(log, k).aborted || KeyOf(EntryAt(log, k).ws[i]) in own
    requires if k == commit || EntryAt(log, k).aborted then m' == m else Evicted(m, m', EntryAt(log, k).ws)
    ensures Unwritten(m0, m', log, t, k)
  {
    forall key ensures UnwrittenAt(m0, m', log, t, k, key) {
      QuietExtend(log, t, k, key);
      assert UnwrittenAt(m0, m, log, t, k - 1, key);
      var ws := EntryAt(log, k).ws;
      if k == commit && !EntryAt(log, k).aborted {
        if HitsPage(ws, key) {
          var i :| 0 <= i < |ws| && KeyOf(ws[i]) == key;
          assert KeyOf(EntryAt(log, k).ws[i]) in own;
        }
      } else if !EntryAt(log, k).aborted {
        assert EvictedAt(m, m', ws, key);
      }
    }
    forall key | key in m' && key in m0 ensures m'[key] == m0[key] {
      assert !(k == commit || EntryAt(log, k).aborted) ==> EvictedAt(m, m', EntryAt(log, k).ws, key);
      assert key in m;
    }
  }

  lemma QuietExtend(log: seq<LogEntry>, t: Ts, k: Ts, key: PageKey)
    requires t < k <= |log|
    ensures QuietKey(log, t, k, key) <==>
      QuietKey(log, t, k - 1, key) && (EntryAt(log, k).aborted || !HitsPage(EntryAt(log, k).ws, key))
  {
    if QuietKey(log, t, k - 1, key) && (EntryAt(log, k).aborted || !HitsPage(EntryAt(log, k).ws, key)) {
      forall j | t < j <= k ensures EntryAt(log, j).aborted || !HitsPage(EntryAt(log, j).ws, key) {
      }
    }
  }

  lemma AppliedNext(r0: map<PageKey, seq<Word>>, r: map<PageKey, seq<Word>>, r': map<PageKey, seq<Word>>,
                    m0: map<PageKey, nat>, m: map<PageKey, nat>, m': map<PageKey, nat>, ws: seq<WsEnt>, i: nat)
    requires i < |ws| && AlignedWs(ws) && AllReplayed(r0, r, ws[..i]) && Evicted(m0, m, ws[..i])
    requires m' == m - {KeyOf(ws[i])}
    requires if KeyOf(ws[i]) in r then |r[KeyOf(ws[i])]| == WORDS_PER_PAGE && r' == r[KeyOf(ws[i]) := Patch(r[KeyOf(ws[i])], ws[i])]
             else r' == r
    ensures AllReplayed(r0, r', ws[..i + 1]) && Evicted(m0, m', ws[..i + 1])
  {
    forall key | key in r0 ensures Replayed(r0[key], r'[key], ws[..i + 1], key) {
      assert Replayed(r0[key], r[key], ws[..i], key);
      ReplayedNext(r0[key], r[key], r'[key], ws, i, key);
    }
    var done := ws[..i + 1];
    forall key ensures EvictedAt(m0, m', done, key) {
      assert EvictedAt(m0, m, ws[..i], key);
      HitsExtend(ws, i, key);
    }
  }

  lemma HitsExtend(ws: seq<WsEnt>, i: nat, key: PageKey)
    requires i < |ws|
    ensures HitsPage(ws[..i + 1], key) <==> HitsPage(ws[..i], key) || KeyOf(ws[i]) == key
  {
    if HitsPage(ws[..i], key) {
      var j :| 0 <= j < i && KeyOf(ws[..i][j]) == key;
      assert ws[..i + 1][j] == ws[..i][j];
    } else if KeyOf(ws[i]) == key {
      assert ws[..i + 1][i] == ws[i];
    }
  }

  /** Where the pages stand before the log is applied. */
  lemma Settle(log: seq<LogEntry>, t: Ts, r: map<PageKey, seq<Word>>, r': map<PageKey, seq<Word>>, own: seq<WsEnt>,
               commit: Ts, aborted: bool)
    requires t <= |log| < INVALID_TS && AlignedWs(own) && ResidentOk(r, log, t, own)
    requires if aborted && own != [] then r' == map key | key in r && !HitsPage(own, key) :: r[key] else r' == r
    requires if commit == INVALID_TS then aborted || own == []
             else t < commit <= |log| && EntryAt(log, commit).ws == own && EntryAt(log, commit).aborted == aborted
    ensures ResidentOk(r', log, t, OwnAhead(log, t, commit))
  {
    forall key | key in r' ensures Shows(r'[key], log, t, key, OwnAhead(log, t, commit)) {
      assert Shows(r[key], log, t, key, own);
      if aborted && own != [] {
        ShowsUntouched(r[key], log, t, key, own);
      }
    }
  }

  lemma MappedMovesOn(s: Store, log: seq<LogEntry>, cp: Ts, t: Ts, cp': Ts, t': Ts, m: map<PageKey, nat>, m': map<PageKey, nat>)
    requires t <= t' <= |log| && cp <= cp' <= t' && cp <= t && cp' != CURRENT && cp != CURRENT && cp' in s.roots
    requires LogOk(log) && Sharing(s, log) && MappedOk(s, log, cp, t, m) && Unwritten(m, m', log, t, t')
    ensures MappedOk(s, log, cp', t', m') && m'.Keys <= m.Keys
  {
    forall key | key in m' ensures key in m {
      assert UnwrittenAt(m, m', log, t, t', key);
    }
    forall key | key in m' ensures MayMap(s, log, cp', t', key, m'[key]) {
      assert UnwrittenAt(m, m', log, t, t', key);
      assert MayMap(s, log, cp, t, key, m[key]);
      MayMapOn(s, log, cp, t, cp', t', key, m[key]);
    }
  }

  lemma NothingMapped(m: map<PageKey, nat>, log: seq<LogEntry>, t: Ts, t': Ts)
    requires t' <= |log| && Unwritten(map[], m, log, t, t')
    ensures m == map[]
  {
    forall key ensures key !in m {
      assert UnwrittenAt(map[], m, log, t, t', key);
    }
  }

  /** No page but the one at `key` is touched. */
  predicate OthersStay(key: PageKey, r: map<PageKey, seq<Word>>, r': map<PageKey, seq<Word>>,
                       m: map<PageKey, nat>, m': map<PageKey, nat>)
  {
    r' - {key} == r - {key} && m' - {key} == m - {key}
  }

  datatype FaultRc = Served | SigBus

  class ThreadState {
    var ts: Ts
    var cp: Option<Ts>                          // state->checkpoint, by timestamp
    var resident: map<PageKey, seq<Word>>       // working-set pages
    var mapped: map<PageKey, nat>               // checkpoint pages mapped in, by address
    var writes: seq<WsEnt>                      // of the running transaction
    var toCow: Option<nat>                      // cp_page_to_cow

    constructor ()
      ensures ts == INVALID_TS && cp == None && resident == map[] && mapped == map[] && writes == [] && toCow == None
    {
      ts, cp, resident, mapped, writes, toCow := INVALID_TS, None, map[], map[], [], None;
    }

    /** In a transaction and on a checkpoint. */
    predicate Ready()
      reads this
    {
      ts != INVALID_TS && cp.Some?
    }

    /** What the thread can touch is right for its snapshot. Where every fault is refused,
        outside of transactions, without a checkpoint or on one that is newer than the
        snapshot, there is nothing to touch. */
    ghost predicate Sound(s: Store, log: seq<LogEntry>)
      reads this
    {
      if Ready() && cp.value <= ts then View(s, log, cp.value, ts, resident, mapped, writes)
      else resident == map[] && mapped == map[] && writes == []
    }

    /** The page of the word can be touched without a fault. */
    predicate InPlace(a: Addr)
      reads this
    {
      PageKey(a.ino, a.off / PAGE_SIZE) in resident || PageKey(a.ino, a.off / PAGE_SIZE) in mapped
    }

    /** The log from the checkpoint to the snapshot is not all there any more. */
    predicate LogLost(trim: Trim)
      reads this
    {
      cp.Some? && cp.value < ts && EntryRc(trim, cp.value + 1) != Ok
    }

    /** The checkpoint page that may stand for the thread's own: written by nobody since the
        checkpoint, present in its tree, and not shadowed by a private copy. */
    ghost function CpPage(s: Store, log: seq<LogEntry>, key: PageKey): Option<nat>
      reads this
    {
      if Ready() && cp.value in s.roots && ts <= |log| && QuietKey(log, cp.value, ts, key) && key !in resident
         && Read(s, cp.value, LeafPath(key)) != 0
      then Some(Read(s, cp.value, LeafPath(key))) else None
    }

    /** sivfs_fault_checkpoint: map the checkpoint's own page, if nothing was written to it
        since the checkpoint and there is no private copy. */
    method FaultCheckpoint(trees: CheckpointTrees, log: seq<LogEntry>, trim: Trim, key: PageKey)
        returns (ret: FaultRc, page: Option<nat>)
      requires trees.Valid(log) && LogOk(log) && Sound(trees.Now(), log) && (Ready() ==> Walkable(log, ts) && ts < INVALID_TS)
      modifies this`mapped
      ensures Sound(trees.Now(), log)
      ensures ret == SigBus ==> page == None
      ensures mapped == if page.Some? then old(mapped)[key := page.value] else old(mapped)
      ensures ret == Served ==> Ready() && cp.value <= ts && !LogLost(trim)
      ensures ret == Served ==> page == old(CpPage(trees.Now(), log, key))
      ensures ret == SigBus ==> !Ready() || cp.value > ts || LogLost(trim) || !InRange(key.ino, PageStart(key))
    {
      page := None;
      ret := SigBus;
      if ts == INVALID_TS || cp.None? {
        return;
      }
      assert PageStart(key) / PAGE_SIZE == key.pgoff;
      var rc, first := FindFirstWrite(log, trim, cp.value, ts, key.ino, PageStart(key), PageStart(key) + PAGE_SIZE);
      if rc != Ok {
        return;
      }
      forall k | cp.value < k <= ts
        ensures HitsRange(EntryAt(log, k), key.ino, PageStart(key), PageStart(key) + PAGE_SIZE)
                <==> !EntryAt(log, k).aborted && HitsPage(EntryAt(log, k).ws, key)
      {
        HitsRangeIsHitsPage(EntryAt(log, k), key);
      }
      if first != INVALID_TS || key in resident {
        assert first == INVALID_TS ==> key in resident;
        return Served, page;
      }
      var leaf;
      rc, leaf := trees.TraversePartial(cp.value, key.ino, PageStart(key), 0, log);
      if rc != Ok {
        return;
      }
      ret := Served;
      assert LeafPath(key)[..DEPTH] == LeafPath(key);
      if leaf != 0 {
        page := Some(leaf);
        mapped := mapped[key := leaf];
      }
    }

    /** The slow half of sivfs_fault: a private page, copied from the unwritten checkpoint
        page or rebuilt from checkpoint and log. Both give the snapshot's page. */
    method FillPage(trees: CheckpointTrees, log: seq<LogEntry>, trim: Trim, key: PageKey, page: Option<nat>)
        returns (rc: Rc, mem: seq<Word>)
      requires trees.Valid(log) && LogOk(log) && Ready() && cp.value <= ts && Sound(trees.Now(), log) && Walkable(log, ts)
      requires page.Some? ==> MayMap(trees.Now(), log, cp.value, ts, key, page.value)
      ensures rc == if page.Some? then Ok
                    else if !InRange(key.ino, PageStart(key)) then EInval
                    else if cp.value < ts then EntryRc(trim, cp.value + 1)
                    else Ok
      ensures rc == Ok ==> Shows(mem, log, ts, key, [])
    {
      ghost var s := trees.Now();
      if page.Some? {
        assert IsSnapshot(s, cp.value, log, cp.value);
        MappedShows(s, log, cp.value, ts, key, page.value);
        return Ok, trees.heap[page.value].mem;
      }
      mem := [];
      var buffer := new Word[WORDS_PER_PAGE];
      rc := UpdatePage(trees, buffer, log, trim, cp, ts, key.ino, PageStart(key));
      if rc == Ok {
        mem := buffer[..];
        ShowsIsPage(mem, log, ts, key);
      }
    }

    method AddPrivate(trees: CheckpointTrees, log: seq<LogEntry>, trim: Trim, key: PageKey, page: Option<nat>)
        returns (ret: FaultRc)
      requires trees.Valid(log) && LogOk(log) && Ready() && cp.value <= ts && Sound(trees.Now(), log) && Walkable(log, ts)
      requires key !in resident && key !in mapped
      requires page.Some? ==> MayMap(trees.Now(), log, cp.value, ts, key, page.value)
      modifies this`resident
      ensures Sound(trees.Now(), log)
      ensures if ret == Served then key in resident && resident - {key} == old(resident) else resident == old(resident)
      ensures ret == SigBus ==> LogLost(trim) || !InRange(key.ino, PageStart(key))
    {
      var rc, mem := FillPage(trees, log, trim, key, page);
      if rc != Ok {
        return SigBus;
      }
      AddResident(trees.Now(), log, cp.value, ts, resident, mapped, writes, key, mem);
      resident := resident[key := mem];
      ret := Served;
    }

    /** sivfs_fault: serve the checkpoint page itself for reading, else a private copy. */
    method Fault(trees: CheckpointTrees, log: seq<LogEntry>, trim: Trim, key: PageKey, isWrite: bool) returns (ret: FaultRc)
      requires trees.Valid(log) && LogOk(log) && Sound(trees.Now(), log) && (Ready() ==> Walkable(log, ts) && ts < INVALID_TS)
      modifies this`mapped, this`resident, this`toCow
      ensures Sound(trees.Now(), log)
      ensures ret == Served ==> Ready() && cp.value <= ts && !LogLost(trim) && (key in resident || key in mapped)
      ensures toCow == None || (ret == SigBus && toCow == old(toCow))
      ensures ret == Served ==>
        (key in mapped <==> !isWrite && old(CpPage(trees.Now(), log, key)).Some? && old(CpPage(trees.Now(), log, key) != toCow))
      ensures mapped - {key} == old(mapped) - {key}
      ensures resident == old(resident) || (key in resident && resident - {key} == old(resident))
      ensures ret == SigBus ==> !Ready() || cp.value > ts || LogLost(trim) || !InRange(key.ino, PageStart(key))
    {
      var page;
      ret, page := FaultCheckpoint(trees, log, trim, key);
      if ret == SigBus {
        return;
      }
      var cow := toCow;
      toCow := None;
      if page.Some? && !isWrite && cow != page {
        return;
      }
      ret := ServePrivate(trees, log, trim, key, page);
    }

    /** Evict a mapped page, if any, and make sure there is a private one. */
    method ServePrivate(trees: CheckpointTrees, log: seq<LogEntry>, trim: Trim, key: PageKey, page: Option<nat>)
        returns (ret: FaultRc)
      requires trees.Valid(log) && LogOk(log) && Ready() && cp.value <= ts && Sound(trees.Now(), log) && Walkable(log, ts)
      requires page.Some? ==> key in mapped && mapped[key] == page.value
      modifies this`mapped, this`resident
      ensures Sound(trees.Now(), log)
      ensures mapped == old(mapped) - {key} && (ret == Served ==> key in resident)
      ensures resident == old(resident) || (key in resident && resident - {key} == old(resident))
      ensures ret == SigBus ==> LogLost(trim) || !InRange(key.ino, PageStart(key))
    {
      ret := Served;
      Unmap(trees.Now(), log, cp.value, ts, resident, mapped, writes, key);
      mapped := mapped - {key};
      if key !in resident {
        ret := AddPrivate(trees, log, trim, key, page);
      }
    }

    /** sivfs_mkwrite on a mapped checkpoint page: unmap it and ask for a copy. */
    method MakeWritable(key: PageKey, ghost s: Store, ghost log: seq<LogEntry>) returns (ret: FaultRc)
      requires Sound(s, log) && Ready() && key in mapped
      modifies this`mapped, this`toCow
      ensures Sound(s, log)
      ensures ret == SigBus <==> old(toCow).Some?
      ensures ret == SigBus ==> mapped == old(mapped) && toCow == old(toCow)
      ensures ret == Served ==> mapped == old(mapped) - {key} && toCow == Some(old(mapped)[key])
    {
      if toCow.Some? {
        return SigBus;
      }
      toCow := Some(mapped[key]);
      Unmap(s, log, cp.value, ts, resident, mapped, writes, key);
      mapped := mapped - {key};
      ret := Served;
    }

    /** A load by the running transaction sees its snapshot and its own writes. It is refused
        only where the fault is: never for a page in place, nor for a page of the file as long
        as the log behind the checkpoint is there. */
    method Load(trees: CheckpointTrees, log: seq<LogEntry>, trim: Trim, a: Addr) returns (ret: FaultRc, v: Word)
      requires trees.Valid(log) && LogOk(log) && Sound(trees.Now(), log) && (Ready() ==> Walkable(log, ts) && ts < INVALID_TS)
      requires a.off % WORD_SIZE == 0
      modifies this`mapped, this`resident, this`toCow
      ensures Sound(trees.Now(), log)
      ensures ret == Served ==> Ready() && v == Overlay(writes, a, Snapshot(log, ts, a))
      ensures ret == SigBus ==> !Ready() || cp.value > ts || LogLost(trim) || !InRange(a.ino, a.off / PAGE_SIZE * PAGE_SIZE)
      ensures Ready() && old(InPlace(a)) ==> ret == Served && resident == old(resident) && mapped == old(mapped)
      ensures OthersStay(PageKey(a.ino, a.off / PAGE_SIZE), old(resident), resident, old(mapped), mapped)
    {
      v := 0;
      ret := Served;
      if !Ready() || !InPlace(a) {
        ret := Fault(trees, log, trim, PageKey(a.ino, a.off / PAGE_SIZE), false);
        if ret == SigBus {
          return;
        }
      }
      v := ReadWord(trees, log, a);
    }

    /** The processor reads a word of a page in place. */
    method ReadWord(trees: CheckpointTrees, ghost log: seq<LogEntry>, a: Addr) returns (v: Word)
      requires trees.Valid(log) && LogOk(log) && Ready() && cp.value <= ts && Sound(trees.Now(), log)
      requires a.off % WORD_SIZE == 0 && InPlace(a)
      ensures v == Overlay(writes, a, Snapshot(log, ts, a))
    {
      var key := PageKey(a.ino, a.off / PAGE_SIZE);
      var w := a.off % PAGE_SIZE / WORD_SIZE;
      OffsetParts(a.off);
      assert Slot(key, w) == a;
      if key in resident {
        assert Shows(resident[key], log, ts, key, writes);
        v := resident[key][w];
      } else {
        assert MayMap(trees.Now(), log, cp.value, ts, key, mapped[key]);
        assert IsSnapshot(trees.Now(), cp.value, log, cp.value);
        MappedShows(trees.Now(), log, cp.value, ts, key, mapped[key]);
        assert !HitsPage(writes, key);
        ShowsUntouched(trees.heap[mapped[key]].mem, log, ts, key, writes);
        v := trees.heap[mapped[key]].mem[w];
      }
    }

    /** A store: copy the page first if needed, then write in place and remember it. */
    method Store(trees: CheckpointTrees, log: seq<LogEntry>, trim: Trim, ent: WsEnt) returns (ret: FaultRc)
      requires trees.Valid(log) && LogOk(log) && Sound(trees.Now(), log) && (Ready() ==> Walkable(log, ts) && ts < INVALID_TS)
      requires ent.off % WORD_SIZE == 0
      modifies this`mapped, this`resident, this`toCow, this`writes
      ensures Sound(trees.Now(), log)
      ensures writes == if ret == Served then old(writes) + [ent] else old(writes)
      ensures ret == Served ==> Ready() && KeyOf(ent) in resident
      ensures ret == SigBus ==>
        || !Ready() || cp.value > ts || LogLost(trim) || !InRange(ent.ino, PageStart(KeyOf(ent)))
        || (old(toCow).Some? && KeyOf(ent) in old(mapped))
      ensures Ready() && KeyOf(ent) in old(resident) ==> ret == Served && mapped == old(mapped) && toCow == old(toCow)
      ensures ret == Served && KeyOf(ent) !in old(resident) ==> toCow == None
      ensures OthersStay(KeyOf(ent), old(resident), resident, old(mapped), mapped)
    {
      var key := KeyOf(ent);
      ret := Served;
      if Ready() && key in mapped {
        ret := MakeWritable(key, trees.Now(), log);
        if ret == SigBus {
          return;
        }
      }
      if !Ready() || key !in resident {
        ret := Fault(trees, log, trim, key, true);
        if ret == SigBus {
          return;
        }
      }
      WriteWord(ent, trees.Now(), log);
    }

    /** The processor writes a word of a private page, and the library remembers it. */
    method WriteWord(ent: WsEnt, ghost s: Store, ghost log: seq<LogEntry>)
      requires Ready() && cp.value <= ts && Sound(s, log) && KeyOf(ent) in resident && ent.off % WORD_SIZE == 0
      modifies this`resident, this`writes
      ensures Sound(s, log) && writes == old(writes) + [ent]
      ensures KeyOf(ent) in resident && resident - {KeyOf(ent)} == old(resident) - {KeyOf(ent)}
    {
      var key := KeyOf(ent);
      assert Shows(resident[key], log, ts, key, writes);
      WriteView(s, log, cp.value, ts, resident, mapped, writes, ent);
      resident := resident[key := Patch(resident[key], ent)];
      writes := writes + [ent];
    }

    /** _sivfs_apply_log_entry_workingset: replay one entry onto the resident pages and evict
        the mapped checkpoint pages it writes to. */
    method ApplyLogEntry(e: LogEntry)
      requires AlignedWs(e.ws) && forall key :: key in resident ==> |resident[key]| == WORDS_PER_PAGE
      modifies this`resident, this`mapped
      ensures if e.aborted then resident == old(resident) && mapped == old(mapped)
              else AllReplayed(old(resident), resident, e.ws) && Evicted(old(mapped), mapped, e.ws)
    {
      if e.aborted {
        return;
      }
      var i := 0;
      while i < |e.ws|
        invariant 0 <= i <= |e.ws|
        invariant AllReplayed(old(resident), resident, e.ws[..i]) && Evicted(old(mapped), mapped, e.ws[..i])
      {
        ghost var r, m := resident, mapped;
        var ent := e.ws[i];
        // sivfs_find_get_wspg with SIVFS_EVICT_CHECKPOINT
        mapped := mapped - {KeyOf(ent)};
        if KeyOf(ent) in resident {
          assert Replayed(old(resident)[KeyOf(ent)], resident[KeyOf(ent)], e.ws[..i], KeyOf(ent));
          resident := resident[KeyOf(ent) := Patch(resident[KeyOf(ent)], ent)];
        }
        AppliedNext(old(resident), r, resident, old(mapped), m, mapped, e.ws, i);
        i := i + 1;
      }
      assert e.ws[..|e.ws|] == e.ws;
    }

    /** sivfs_apply_logs_workingset, skipping the thread's own entry `commit`. */
    method ApplyLogs(log: seq<LogEntry>, next: Ts, commit: Ts, ghost own: set<PageKey>)
      requires LogOk(log) && Walkable(log, next) && ts < next && |log| < INVALID_TS
      requires commit != INVALID_TS ==> ts < commit <= next && FirstWins(log, ts, commit)
      requires commit != INVALID_TS && !EntryAt(log, commit).aborted ==>
        forall i :: 0 <= i < |EntryAt(log, commit).ws| ==> KeyOf(EntryAt(log, commit).ws[i]) in own
      requires own !! mapped.Keys
      requires ResidentOk(resident, log, ts, OwnAhead(log, ts, commit))
      modifies this`resident, this`mapped
      ensures resident.Keys == old(resident).Keys
      ensures ResidentOk(resident, log, next, [])
      ensures Unwritten(old(mapped), mapped, log, ts, next)
    {
      var k := ts + 1;
      while true
        invariant ts < k <= next
        invariant resident.Keys == old(resident).Keys
        invariant ResidentOk(resident, log, k - 1, OwnAhead(log, k - 1, commit))
        invariant Unwritten(old(mapped), mapped, log, ts, k - 1)
        decreases next - k
      {
        ghost var r, m := resident, mapped;
        assert EntryAt(log, k).ts == k;
        if EntryAt(log, k).ts != commit {
          forall key | key in resident ensures |resident[key]| == WORDS_PER_PAGE {
            assert Shows(resident[key], log, k - 1, key, OwnAhead(log, k - 1, commit));
          }
          ApplyLogEntry(EntryAt(log, k));
        }
        CarryResident(r, resident, log, ts, k, commit);
        CarryMapped(old(mapped), m, mapped, log, ts, k, commit, own);
        NextIsExact(log, k, next);
        if EntryAt(log, k).ts == next {
          break;
        }
        var successor := NextEntry(log, k, next);
        if successor.None? {
          break;
        }
        k := successor.value;
      }
      assert k == next;
    }

    /** sivfs_invalidate_workingset_log: throw away every page the writes fall on. */
    method InvalidateLog(ws: seq<WsEnt>)
      modifies this`resident
      ensures resident == map key | key in old(resident) && !HitsPage(ws, key) :: old(resident)[key]
    {
      var i := 0;
      while i < |ws|
        invariant 0 <= i <= |ws|
        invariant resident == map key | key in old(resident) && !HitsPage(ws[..i], key) :: old(resident)[key]
      {
        forall key ensures HitsPage(ws[..i + 1], key) <==> HitsPage(ws[..i], key) || KeyOf(ws[i]) == key {
          HitsExtend(ws, i, key);
        }
        resident := resident - {KeyOf(ws[i])};
        i := i + 1;
      }
      assert ws[..|ws|] == ws;
    }

    /** sivfs_update: bring everything in reach from `ts` to `next`. Refused exactly when the
        log collector has already taken the first entry needed. */
    method Update(log: seq<LogEntry>, trim: Trim, next: Ts, commit: Ts, ghost own: set<PageKey>) returns (rc: Rc)
      requires LogOk(log) && Walkable(log, next) && |log| < INVALID_TS && own !! mapped.Keys
      requires ts == INVALID_TS ==> resident == map[] && mapped == map[] && commit == INVALID_TS
      requires ts != INVALID_TS ==> ts <= next && ResidentOk(resident, log, ts, OwnAhead(log, ts, commit))
      requires commit != INVALID_TS ==> ts < commit <= next && FirstWins(log, ts, commit)
      requires commit != INVALID_TS && !EntryAt(log, commit).aborted ==>
        forall i :: 0 <= i < |EntryAt(log, commit).ws| ==> KeyOf(EntryAt(log, commit).ws[i]) in own
      modifies this`resident, this`mapped, this`ts
      ensures rc == ENoMem <==> old(ts) < next && old(ts) + 1 < trim.tested
      ensures rc == EInval <==> old(ts) < next && trim.tested <= old(ts) + 1 < trim.gone
      ensures rc != Ok ==> ts == old(ts) && resident == old(resident) && mapped == old(mapped)
      ensures rc == Ok ==> ts == next && resident.Keys == old(resident).Keys && ResidentOk(resident, log, next, [])
      ensures rc == Ok && old(ts) != INVALID_TS ==> Unwritten(old(mapped), mapped, log, old(ts), next)
      ensures rc == Ok && old(ts) == INVALID_TS ==> mapped == map[]
    {
      rc := Ok;
      if ts == INVALID_TS {
        ts := next;
      } else {
        if ts + 1 <= next {
          rc := FindEntry(log, trim, ts + 1);
          if rc != Ok {
            return;
          }
          ApplyLogs(log, next, commit, own);
        }
        ts := next;
      }
    }

    /** my_sivfs_commit_update once the fate of the commit is known: `commit` is the entry
        the protocol published for this transaction's writes (INVALID_TS if it made none),
        `newCp` the checkpoint and `next` the snapshot taken over. Afterwards every page
        still in reach is right for `next`; private pages are lost only to an abort that
        wrote them, mapped pages exactly to a write that landed in between. If the update is refused the
        thread is left on the new checkpoint with its old snapshot and pages. */
    method CommitUpdate(trees: CheckpointTrees, log: seq<LogEntry>, trim: Trim, commit: Ts, aborted: bool, newCp: Ts, next: Ts)
        returns (rc: Rc)
      requires trees.Valid(log) && Sharing(trees.Now(), log) && LogOk(log) && Walkable(log, next) && |log| < INVALID_TS
      requires newCp in trees.Roots() && newCp <= next
      requires Sound(trees.Now(), log)
      requires ts != INVALID_TS ==> ts <= next && (cp.Some? ==> cp.value <= newCp)
      requires if commit == INVALID_TS then aborted || writes == []
               else ts < commit <= next && EntryAt(log, commit).ws == writes && EntryAt(log, commit).aborted == aborted
                    && FirstWins(log, ts, commit)
      modifies this
      ensures rc == ENoMem <==> old(ts) < next && old(ts) + 1 < trim.tested
      ensures rc == EInval <==> old(ts) < next && trim.tested <= old(ts) + 1 < trim.gone
      ensures cp == Some(newCp) && toCow == old(toCow)
      ensures rc == Ok ==> ts == next && cp == Some(newCp) && writes == [] && Sound(trees.Now(), log)
      ensures forall key :: key in resident <==> key in old(resident) && !(aborted && HitsPage(old(writes), key))
      ensures rc == Ok && old(ts) != INVALID_TS ==> Unwritten(old(mapped), mapped, log, old(ts), next)
      ensures rc != Ok ==> ts == old(ts) && mapped == old(mapped) && writes == old(writes)
      ensures rc != Ok ==> forall key :: key in resident ==> resident[key] == old(resident)[key]
      ensures rc != Ok && !old(Ready() && cp.value <= ts) && ts < newCp ==> Sound(trees.Now(), log)
    {
      if aborted && writes != [] {
        InvalidateLog(writes);
      }
      assert ts != INVALID_TS ==> ResidentOk(resident, log, ts, OwnAhead(log, ts, commit)) by {
        if ts != INVALID_TS {
          Settle(log, ts, old(resident), resident, writes, commit, aborted);
        }
      }
      cp := Some(newCp);
      rc := Update(log, trim, next, commit, old(resident).Keys);
      if rc == Ok {
        writes := [];
        if old(Ready() && cp.value <= ts) {
          MappedMovesOn(trees.Now(), log, old(cp).value, old(ts), newCp, next, old(mapped), mapped);
        } else if old(ts) != INVALID_TS {
          NothingMapped(mapped, log, old(ts), next);
        }
      }
    }
  }
}
