/** Building and reading checkpoints (kern/sivfs_make_checkpoint.c,
    kern/sivfs_checkpoints.c). Pages live in `heap`, and a build edits them in place:
    only pages created for the checkpoint being built are ever written. */
module CheckpointStore {
  import opened Types
  import opened Radix
  import opened CheckpointHeap

  // ---------------------------------------------------------------- what a build preserves

  /** Nothing readable from any earlier checkpoint has changed. */
  ghost predicate SameOld(s: Store, s': Store) {
    && s'.zeros == s.zeros && s'.bound == s.bound && s'.roots.Keys == s.roots.Keys
    && (forall v :: v in s.roots && v != CURRENT ==> s'.roots[v] == s.roots[v])
    && (forall v, q {:trigger Read(s', v, q)} :: v in s.roots && v != CURRENT && Path(q, WORD_DEPTH) ==>
          Read(s', v, q) == Read(s, v, q))
  }

  /** Pages keep their record, except that a live one may have been obsoleted; added
      pages belong to the checkpoint being built. */
  ghost predicate Aged(s: Store, s': Store) {
    && s'.bound == s.bound
    && (forall p :: p in s.h ==>
          && p in s'.h && s'.h[p].start == s.h[p].start
          && s'.h[p].level == s.h[p].level && s'.h[p].isZero == s.h[p].isZero
          && (s'.h[p].obs == s.h[p].obs || (s.h[p].obs == INVALID_TS && s'.h[p].obs == s.bound)))
    && (forall p :: p in s'.h && p !in s.h ==>
          && s'.h[p].start == s.bound && !s'.h[p].isZero
          && (s'.h[p].obs == INVALID_TS || s'.h[p].obs == s.bound))
  }

  ghost predicate SameWords(s: Store, s': Store)
    requires CURRENT in s.roots && CURRENT in s'.roots
  {
    forall q {:trigger Read(s', CURRENT, q)} :: Path(q, WORD_DEPTH) && |q| == WORD_DEPTH ==>
      Read(s', CURRENT, q) == Read(s, CURRENT, q)
  }

  /** Leaf pages other than the one at `except` stay the very same pages. */
  ghost predicate SameLeaves(s: Store, s': Store, except: seq<nat>)
    requires CURRENT in s.roots && CURRENT in s'.roots
  {
    forall q {:trigger Read(s', CURRENT, q)} ::
      Path(q, DEPTH) && |q| == DEPTH && q != except && Read(s, CURRENT, q) != 0 ==>
      Read(s', CURRENT, q) == Read(s, CURRENT, q)
  }

  /** The list of obsoleted pages is exact and without repetition. */
  ghost predicate ObsListed(s: Store, obs: seq<nat>) {
    && (forall p :: p in obs <==> Real(s.h, p) && s.h[p].obs == s.bound)
    && (forall i, j :: 0 <= i < j < |obs| ==> obs[i] != obs[j])
  }

  ghost predicate Copied(s: Store, s': Store, leaf: seq<nat>)
    requires CURRENT in s.roots && CURRENT in s'.roots
  {
    SameOld(s, s') && Aged(s, s') && SameWords(s, s') && SameLeaves(s, s', leaf)
  }

  lemma CopiedTrans(s0: Store, s1: Store, s2: Store, leaf: seq<nat>)
    requires CURRENT in s0.roots && CURRENT in s1.roots && CURRENT in s2.roots
    requires Copied(s0, s1, leaf) && Copied(s1, s2, leaf)
    ensures Copied(s0, s2, leaf)
  {
    assert SameOld(s0, s2);
    assert SameWords(s0, s2);
    assert SameLeaves(s0, s2, leaf);
  }

  lemma CowCopied(s: Store, path: seq<nat>, np: nat, leaf: seq<nat>)
    requires CowReady(s, path, np) && |leaf| == DEPTH && path <= leaf
    ensures |s.zeros| == FOFFSET_LEVELS
    ensures path != [] ==> |s.h[ParentAt(s, path)].mem| == CHILDREN
    ensures Copied(s, Cow(s, path, np), leaf)
  {
    CowHasRecords(s, path, np);
    CowReadyFacts(s, path, np);
    var s' := Cow(s, path, np);
    assert SameOld(s, s') by {
      forall v, q | v in s.roots && v != CURRENT && Path(q, WORD_DEPTH)
        ensures Read(s', v, q) == Read(s, v, q)
      {
        CowOld(s, s', path, np, v, q);
      }
    }
    assert SameWords(s, s') by {
      forall q | Path(q, WORD_DEPTH) && |q| == WORD_DEPTH
        ensures Read(s', CURRENT, q) == Read(s, CURRENT, q)
      {
        CowCurrent(s, s', path, np, q);
      }
    }
    assert SameLeaves(s, s', leaf) by {
      forall q | Path(q, DEPTH) && |q| == DEPTH && q != leaf && Read(s, CURRENT, q) != 0
        ensures Read(s', CURRENT, q) == Read(s, CURRENT, q)
      {
        CowCurrent(s, s', path, np, q);
      }
    }
  }

  lemma CowObsListed(s: Store, path: seq<nat>, np: nat, obs: seq<nat>)
    requires CowReady(s, path, np) && ObsListed(s, obs)
    ensures |s.zeros| == FOFFSET_LEVELS
    ensures path != [] ==> |s.h[ParentAt(s, path)].mem| == CHILDREN
    ensures var prev := At(s.h, s.roots[CURRENT], path);
      ObsListed(Cow(s, path, np), if Real(s.h, prev) then obs + [prev] else obs)
  {
    CowHasRecords(s, path, np);
    CowReadyFacts(s, path, np);
  }

  /** Everything the build needs to know about one path-copying step. */
  lemma CowStep(s: Store, path: seq<nat>, np: nat, leaf: seq<nat>, obs: seq<nat>)
    requires CowReady(s, path, np) && |leaf| == DEPTH && path <= leaf && ObsListed(s, obs)
    ensures |s.zeros| == FOFFSET_LEVELS
    ensures path != [] ==> |s.h[ParentAt(s, path)].mem| == CHILDREN
    ensures var s', prev := Cow(s, path, np), At(s.h, s.roots[CURRENT], path);
      && Inv(s') && Copied(s, s', leaf)
      && ObsListed(s', if Real(s.h, prev) then obs + [prev] else obs)
      && At(s'.h, s'.roots[CURRENT], path) == np && Real(s'.h, np) && s'.h[np].start == s.bound
  {
    CowInv(s, path, np);
    CowCopied(s, path, np, leaf);
    CowObsListed(s, path, np, obs);
    CowHasRecords(s, path, np);
    CowCurrent(s, Cow(s, path, np), path, np, path);
    assert CowReads(s, Cow(s, path, np), path, np, path);
  }

  lemma CopiedRefl(s: Store, leaf: seq<nat>)
    requires CURRENT in s.roots
    ensures Copied(s, s, leaf)
  {
  }

  lemma PathStep(offsets: seq<nat>, n: nat, h: Heap, root: nat)
    requires n < |offsets|
    ensures var path := offsets[..n + 1];
      && path != [] && path[|path| - 1] == offsets[n] && path <= offsets
      && At(h, root, path[..|path| - 1]) == At(h, root, offsets[..n])
  {
    assert offsets[..n + 1][..n] == offsets[..n];
  }

  ghost function UpperBound(keys: set<nat>): (m: nat)
    ensures forall x :: x in keys ==> x <= m
  {
    if keys == {} then 0
    else
      var y :| y in keys;
      var m := UpperBound(keys - {y});
      assert forall x :: x in keys ==> x == y || x in keys - {y};
      if y > m then y else m
  }

  lemma FreshAddress(h: Heap)
    ensures exists np: nat :: np !in h && np != 0
  {
    assert UpperBound(h.Keys) + 1 !in h;
  }

  /** One write applied to the newest tree: exactly its word changes. */
  ghost predicate Applied(s: Store, s': Store, ent: WsEnt)
    requires CURRENT in s.roots && CURRENT in s'.roots
  {
    && SameOld(s, s') && Aged(s, s')
    && SameLeaves(s, s', Digits(ent.ino, ent.off / PAGE_SIZE))
    && forall q {:trigger Read(s', CURRENT, q)} :: Path(q, WORD_DEPTH) && |q| == WORD_DEPTH ==>
         Read(s', CURRENT, q) ==
         if q == WordPath(Addr(ent.ino, ent.off)) then ent.value else Read(s, CURRENT, q)
  }

  lemma LeafOld(s0: Store, s: Store, path: seq<nat>, w: nat, value: Word)
    requires CURRENT in s0.roots && CURRENT in s.roots && SameOld(s0, s) && LeafReady(s, path, w)
    ensures |s.h[At(s.h, s.roots[CURRENT], path)].mem| == CHILDREN
    ensures SameOld(s0, WriteLeaf(s, path, w, value))
  {
    LeafReadyFacts(s, path, w);
    var s' := WriteLeaf(s, path, w, value);
    forall v, q | v in s0.roots && v != CURRENT && Path(q, WORD_DEPTH)
      ensures Read(s', v, q) == Read(s0, v, q)
    {
      WriteLeafOld(s, path, w, value, v, q);
      assert Read(s, v, q) == Read(s0, v, q);
    }
  }

  lemma LeafNew(s0: Store, s: Store, path: seq<nat>, w: nat, value: Word)
    requires CURRENT in s0.roots && CURRENT in s.roots && SameLeaves(s0, s, path) && SameWords(s0, s) && LeafReady(s, path, w)
    ensures |s.h[At(s.h, s.roots[CURRENT], path)].mem| == CHILDREN
    ensures
      var s' := WriteLeaf(s, path, w, value);
      && CURRENT in s'.roots && SameLeaves(s0, s', path)
      && forall q {:trigger Read(s', CURRENT, q)} :: Path(q, WORD_DEPTH) && |q| == WORD_DEPTH ==>
           Read(s', CURRENT, q) == if q == path + [w] then value else Read(s0, CURRENT, q)
  {
    LeafReadyFacts(s, path, w);
    var s' := WriteLeaf(s, path, w, value);
    forall q | Path(q, DEPTH) && |q| == DEPTH && q != path && Read(s0, CURRENT, q) != 0
      ensures Read(s', CURRENT, q) == Read(s0, CURRENT, q)
    {
      WriteLeafReads(s, path, w, value, q);
      assert Read(s, CURRENT, q) == Read(s0, CURRENT, q);
    }
    forall q | Path(q, WORD_DEPTH) && |q| == WORD_DEPTH
      ensures Read(s', CURRENT, q) == if q == path + [w] then value else Read(s0, CURRENT, q)
    {
      WriteLeafReads(s, path, w, value, q);
      assert Read(s, CURRENT, q) == Read(s0, CURRENT, q);
    }
  }

  lemma LeafApplied(s0: Store, s: Store, ent: WsEnt, obs: seq<nat>)
    requires CURRENT in s0.roots && CURRENT in s.roots
    requires Copied(s0, s, Digits(ent.ino, ent.off / PAGE_SIZE)) && ObsListed(s, obs)
    requires LeafReady(s, Digits(ent.ino, ent.off / PAGE_SIZE), ent.off % PAGE_SIZE / WORD_SIZE)
    ensures var leaf := At(s.h, s.roots[CURRENT], Digits(ent.ino, ent.off / PAGE_SIZE));
      |s.h[leaf].mem| == CHILDREN
    ensures var s' := WriteLeaf(s, Digits(ent.ino, ent.off / PAGE_SIZE), ent.off % PAGE_SIZE / WORD_SIZE, ent.value);
      Inv(s') && Applied(s0, s', ent) && ObsListed(s', obs)
  {
    var path, w := Digits(ent.ino, ent.off / PAGE_SIZE), ent.off % PAGE_SIZE / WORD_SIZE;
    LeafReadyFacts(s, path, w);
    WriteLeafInv(s, path, w, ent.value);
    LeafOld(s0, s, path, w, ent.value);
    LeafNew(s0, s, path, w, ent.value);
    assert WordPath(Addr(ent.ino, ent.off)) == path + [w];
  }

  /** The newest tree holds the snapshot at `k - 1` overlaid with the first `i` writes of
      entry `k`. */
  ghost predicate Holds(s: Store, log: seq<LogEntry>, k: Ts, i: nat)
    requires CURRENT in s.roots && 1 <= k <= |log| && i <= |EntryAt(log, k).ws|
  {
    forall a {:trigger WordPath(a)} :: Addressable(a) ==>
      Read(s, CURRENT, WordPath(a)) == Overlay(EntryAt(log, k).ws[..i], a, Snapshot(log, k - 1, a))
  }

  /** Checkpoint `v` holds the snapshot at `t`. */
  ghost predicate IsSnapshot(s: Store, v: Ts, log: seq<LogEntry>, t: Ts)
    requires v in s.roots && t <= |log|
  {
    forall a {:trigger WordPath(a)} :: Addressable(a) ==> Read(s, v, WordPath(a)) == Snapshot(log, t, a)
  }

  lemma HoldsNext(s: Store, s': Store, log: seq<LogEntry>, k: Ts, i: nat)
    requires CURRENT in s.roots && CURRENT in s'.roots
    requires 1 <= k <= |log| && i < |EntryAt(log, k).ws|
    requires Holds(s, log, k, i) && Applied(s, s', EntryAt(log, k).ws[i])
    requires var e := EntryAt(log, k).ws[i]; Addressable(Addr(e.ino, e.off))
    ensures Holds(s', log, k, i + 1)
  {
    var ws := EntryAt(log, k).ws;
    var e := ws[i];
    forall a | Addressable(a)
      ensures Read(s', CURRENT, WordPath(a)) == Overlay(ws[..i + 1], a, Snapshot(log, k - 1, a))
    {
      WordPathShape(a);
      assert ws[..i + 1][..i] == ws[..i] && ws[..i + 1][i] == e;
      if WordPath(a) == WordPath(Addr(e.ino, e.off)) {
        WordPathInjective(a, Addr(e.ino, e.off));
      } else {
        assert !Writes(e, a);
      }
    }
  }

  /** No write of `ws` falls on the page at `q`. */
  ghost predicate MissesPage(ws: seq<WsEnt>, q: seq<nat>) {
    forall i :: 0 <= i < |ws| ==> Digits(ws[i].ino, ws[i].off / PAGE_SIZE) != q
  }

  /** Pages `ws` misses stay the very same leaf pages. */
  ghost predicate SharedLeaves(s: Store, s': Store, ws: seq<WsEnt>)
    requires CURRENT in s.roots && CURRENT in s'.roots
  {
    forall q {:trigger Read(s', CURRENT, q)} ::
      Path(q, DEPTH) && |q| == DEPTH && MissesPage(ws, q) && Read(s, CURRENT, q) != 0 ==>
      Read(s', CURRENT, q) == Read(s, CURRENT, q)
  }

  /** Every non-aborted entry in `(lo, hi]` misses the page. */
  ghost predicate QuietPage(log: seq<LogEntry>, lo: Ts, hi: Ts, q: seq<nat>)
    requires hi <= |log|
  {
    forall k :: lo < k <= hi ==> EntryAt(log, k).aborted || MissesPage(EntryAt(log, k).ws, q)
  }

  ghost predicate SharedQuiet(s: Store, s': Store, log: seq<LogEntry>, lo: Ts, hi: Ts)
    requires CURRENT in s.roots && CURRENT in s'.roots && hi <= |log|
  {
    forall q {:trigger Read(s', CURRENT, q)} ::
      Path(q, DEPTH) && |q| == DEPTH && QuietPage(log, lo, hi, q) && Read(s, CURRENT, q) != 0 ==>
      Read(s', CURRENT, q) == Read(s, CURRENT, q)
  }

  /** A stretch of the build: older checkpoints untouched, records only aged. */
  ghost predicate Carried(s: Store, s': Store) {
    SameOld(s, s') && Aged(s, s')
  }

  lemma CarriedTrans(s0: Store, s1: Store, s2: Store)
    requires Carried(s0, s1) && Carried(s1, s2)
    ensures Carried(s0, s2)
  {
  }

  lemma AppliedLeaves(s1: Store, s: Store, s': Store, ws: seq<WsEnt>, i: nat)
    requires CURRENT in s1.roots && CURRENT in s.roots && CURRENT in s'.roots && i < |ws|
    requires SharedLeaves(s1, s, ws) && Applied(s, s', ws[i])
    ensures SharedLeaves(s1, s', ws)
  {
    forall q | Path(q, DEPTH) && |q| == DEPTH && MissesPage(ws, q) && Read(s1, CURRENT, q) != 0
      ensures Read(s', CURRENT, q) == Read(s1, CURRENT, q)
    {
      assert Read(s, CURRENT, q) == Read(s1, CURRENT, q);
    }
  }

  lemma SharedExtend(s0: Store, s: Store, s': Store, log: seq<LogEntry>, lo: Ts, k: Ts)
    requires CURRENT in s0.roots && CURRENT in s.roots && CURRENT in s'.roots && lo < k <= |log|
    requires SharedQuiet(s0, s, log, lo, k - 1)
    requires if EntryAt(log, k).aborted then s' == s else SharedLeaves(s, s', EntryAt(log, k).ws)
    ensures SharedQuiet(s0, s', log, lo, k)
  {
    forall q | Path(q, DEPTH) && |q| == DEPTH && QuietPage(log, lo, k, q) && Read(s0, CURRENT, q) != 0
      ensures Read(s', CURRENT, q) == Read(s0, CURRENT, q)
    {
      assert QuietPage(log, lo, k - 1, q);
      assert Read(s, CURRENT, q) == Read(s0, CURRENT, q);
    }
  }

  ghost predicate AlignedWs(ws: seq<WsEnt>) {
    forall i :: 0 <= i < |ws| ==> ws[i].off % WORD_SIZE == 0
  }

  /** Every non-aborted entry in `(lo, hi]` is addressable. */
  ghost predicate LogInRange(log: seq<LogEntry>, lo: Ts, hi: Ts)
    requires hi <= |log|
  {
    forall k :: lo < k <= hi ==> EntryAt(log, k).aborted || InRangeWs(EntryAt(log, k).ws)
  }

  ghost predicate InRangeWs(ws: seq<WsEnt>) {
    forall i :: 0 <= i < |ws| ==> InRange(ws[i].ino, ws[i].off)
  }

  /** Address `p` holds the shared zero page of level `p - 1`. */
  ghost predicate ZeroPageAt(h: Heap, zeros: seq<nat>, p: nat)
    requires |zeros| == FOFFSET_LEVELS
  {
    && (p in h <==> 1 <= p <= FOFFSET_LEVELS)
    && (p in h ==> h[p] == Page(ZeroMem(zeros, p - 1), 0, INVALID_TS, p - 1, true))
  }

  /** Memory that holds the zero pages and nothing else. */
  ghost predicate ZeroesOnly(h: Heap, zeros: seq<nat>) {
    && |zeros| == FOFFSET_LEVELS && (forall l :: 0 <= l < |zeros| ==> zeros[l] == l + 1)
    && forall p {:trigger ZeroPageAt(h, zeros, p)} :: ZeroPageAt(h, zeros, p)
  }

  lemma EmptyZeroPages(h: Heap, zeros: seq<nat>)
    requires ZeroesOnly(h, zeros)
    ensures ZeroPagesOk(h, zeros) && 0 !in h
  {
    assert ZeroPageAt(h, zeros, 0);
    forall l | 0 <= l < |zeros|
      ensures zeros[l] in h && h[zeros[l]].isZero && h[zeros[l]].level == l && h[zeros[l]].mem == ZeroMem(zeros, l)
    {
      assert ZeroPageAt(h, zeros, l + 1);
    }
  }

  lemma EmptyWf(s: Store)
    requires ZeroesOnly(s.h, s.zeros) && s.home == map[] && s.bound == 0
    requires s.roots.Keys == {0, CURRENT} && s.roots[0] == 0 && s.roots[CURRENT] == 0
    ensures Inv(s)
  {
    EmptyZeroPages(s.h, s.zeros);
    forall p | p in s.h ensures PageOk(s, p) {
      assert ZeroPageAt(s.h, s.zeros, p);
      assert s.zeros[p - 1] == p;
    }
    forall p: nat ensures !Real(s.h, p) {
      assert ZeroPageAt(s.h, s.zeros, p);
    }
    assert RootOk(s, 0) && RootOk(s, CURRENT);
  }

  lemma EmptyStoreOk(s: Store)
    requires ZeroesOnly(s.h, s.zeros) && s.home == map[] && s.bound == 0
    requires s.roots.Keys == {0, CURRENT} && s.roots[0] == 0 && s.roots[CURRENT] == 0
    ensures Inv(s) && IsSnapshot(s, 0, [], 0)
  {
    EmptyWf(s);
    forall a | Addressable(a) ensures Read(s, 0, WordPath(a)) == Snapshot([], 0, a) {
      WordPathShape(a);
      EmptyTree(s.h, WordPath(a));
    }
  }

  lemma {:induction false} EmptyTree(h: Heap, path: seq<nat>)
    requires 0 !in h
    ensures At(h, 0, path) == 0
    decreases |path|
  {
    if path != [] {
      EmptyTree(h, path[..|path| - 1]);
    }
  }

  /** Every checkpoint readable before still reads the same, page for page and word for
      word. */
  ghost predicate Persistent(s: Store, s': Store) {
    forall v, q {:trigger Read(s', v, q)} :: v in s.roots && v != CURRENT && Path(q, WORD_DEPTH) ==>
      v in s'.roots && Read(s', v, q) == Read(s, v, q)
  }

  /** Trees share what no write came between: a leaf of checkpoint `v` that nothing in
      (v, v'] writes is the leaf of checkpoint `v'` too. */
  ghost predicate SharedBetween(s: Store, log: seq<LogEntry>, v: Ts, v': Ts, q: seq<nat>) {
    && v in s.roots && v' in s.roots && v <= v' <= |log| && |q| == DEPTH && Path(q, DEPTH)
    && QuietPage(log, v, v', q) && Read(s, v, q) != 0 ==>
      Read(s, v', q) == Read(s, v, q)
  }

  ghost predicate Sharing(s: Store, log: seq<LogEntry>) {
    forall v, v', q {:trigger SharedBetween(s, log, v, v', q)} ::
      v != CURRENT && v' != CURRENT ==> SharedBetween(s, log, v, v', q)
  }

  /** The newest tree is the latest checkpoint's. */
  ghost predicate Settled(s: Store) {
    CURRENT in s.roots && s.bound in s.roots && s.bound != CURRENT && s.roots[CURRENT] == s.roots[s.bound]
  }

  lemma EmptySharing(s: Store)
    requires s.roots.Keys == {0, CURRENT}
    ensures Sharing(s, [])
  {
  }

  lemma SharingBuilt(s: Store, s': Store, log: seq<LogEntry>)
    requires Settled(s) && Settled(s') && s.bound < s'.bound <= |log|
    requires Sharing(s, log) && Persistent(s, s') && SharedQuiet(s, s', log, s.bound, s'.bound)
    requires s'.roots.Keys == s.roots.Keys + {s'.bound}
    requires forall v :: v in s.roots && v != CURRENT ==> v <= s.bound
    ensures Sharing(s', log)
  {
    forall v: Ts, v': Ts, q: seq<nat> | v != CURRENT && v' != CURRENT ensures SharedBetween(s', log, v, v', q) {
      if v in s.roots && v <= v' <= |log| && v' in s'.roots && |q| == DEPTH && Path(q, DEPTH) && QuietPage(log, v, v', q) && Read(s', v, q) != 0 {
        assert Read(s', v, q) == Read(s, v, q);
        if v' in s.roots {
          assert SharedBetween(s, log, v, v', q);
          assert Read(s', v', q) == Read(s, v', q);
        } else {
          assert QuietPage(log, v, s.bound, q) && QuietPage(log, s.bound, s'.bound, q);
          assert SharedBetween(s, log, v, s.bound, q);
          assert Read(s, CURRENT, q) == Read(s, s.bound, q);
          assert Read(s', CURRENT, q) == Read(s', s'.bound, q);
        }
      }
    }
  }

  /** Dropping checkpoints and their private pages does not separate the rest. */
  lemma SharingDropped(s: Store, s': Store, log: seq<LogEntry>)
    requires s'.roots.Keys <= s.roots.Keys && Sharing(s, log)
    requires Persistent(s.(roots := s'.roots), s') && forall v :: v in s'.roots ==> s'.roots[v] == s.roots[v]
    ensures Sharing(s', log)
  {
    forall v: Ts, v': Ts, q: seq<nat> | v != CURRENT && v' != CURRENT ensures SharedBetween(s', log, v, v', q) {
      if v in s'.roots && v' in s'.roots && |q| == DEPTH && Path(q, DEPTH) {
        assert SharedBetween(s, log, v, v', q);
        assert Read(s', v, q) == Read(s.(roots := s'.roots), v, q) == Read(s, v, q);
        assert Read(s', v', q) == Read(s.(roots := s'.roots), v', q) == Read(s, v', q);
      }
    }
  }

  lemma SharingLogGrows(s: Store, log: seq<LogEntry>, log': seq<LogEntry>)
    requires Sharing(s, log) && s.bound <= |log| && s.bound <= |log'|
    requires forall v :: v in s.roots && v != CURRENT ==> v <= s.bound
    requires forall i :: 0 <= i < s.bound ==> log'[i] == log[i]
    ensures Sharing(s, log')
  {
    forall v: Ts, v': Ts, q: seq<nat> | v != CURRENT && v' != CURRENT ensures SharedBetween(s, log', v, v', q) {
      assert SharedBetween(s, log, v, v', q);
      if v' in s.roots && v <= v' && QuietPage(log', v, v', q) {
        forall k | v < k <= v' ensures EntryAt(log, k) == EntryAt(log', k) {}
        assert QuietPage(log, v, v', q);
      }
    }
  }

  lemma BuildPersistent(s0: Store, s1: Store, s2: Store, s3: Store)
    requires s1 == s0.(bound := s1.bound) && SameOld(s1, s2) && s3.h == s2.h
    requires forall v :: v in s2.roots && v != CURRENT ==> v in s3.roots && s3.roots[v] == s2.roots[v]
    ensures Persistent(s0, s3)
  {
    forall v, q | v in s0.roots && v != CURRENT && Path(q, WORD_DEPTH)
      ensures v in s3.roots && Read(s3, v, q) == Read(s0, v, q)
    {
      assert Read(s2, v, q) == Read(s1, v, q);
    }
  }

  lemma BuildShared(s0: Store, s1: Store, s2: Store, s3: Store, log: seq<LogEntry>)
    requires CURRENT in s0.roots && CURRENT in s2.roots && CURRENT in s3.roots && s1.bound <= |log|
    requires s1 == s0.(bound := s1.bound) && s0.bound <= s1.bound && s3.h == s2.h && s3.roots[CURRENT] == s2.roots[CURRENT]
    requires SharedQuiet(s1, s2, log, s0.bound, s1.bound)
    ensures SharedQuiet(s0, s3, log, s0.bound, s1.bound)
  {
    forall q | Path(q, DEPTH) && |q| == DEPTH && QuietPage(log, s0.bound, s1.bound, q) && Read(s0, CURRENT, q) != 0
      ensures Read(s3, CURRENT, q) == Read(s0, CURRENT, q)
    {
      assert Read(s2, CURRENT, q) == Read(s1, CURRENT, q);
    }
  }

  lemma StartBuild(s0: Store, s1: Store)
    requires Inv(s0) && s1 == s0.(bound := s1.bound) && s0.bound < s1.bound < CURRENT
    ensures ObsListed(s1, [])
  {
    forall p | Real(s1.h, p) ensures s1.h[p].obs != s1.bound {
      assert PageOk(s0, p);
    }
  }

  lemma NewestIsLatest(s0: Store, s1: Store, log: seq<LogEntry>)
    requires CURRENT in s0.roots && s0.bound in s0.roots && s0.roots[CURRENT] == s0.roots[s0.bound]
    requires s1 == s0.(bound := s1.bound) && s0.bound <= |log| && IsSnapshot(s0, s0.bound, log, s0.bound)
    ensures IsSnapshot(s1, CURRENT, log, s0.bound)
  {
    forall a | Addressable(a) ensures Read(s1, CURRENT, WordPath(a)) == Snapshot(log, s0.bound, a) {
      assert Read(s0, s0.bound, WordPath(a)) == Snapshot(log, s0.bound, a);
    }
  }

  /** Appending a build's list to the list of all obsoleted pages keeps it exact. */
  lemma ObsoletedAppend(s1: Store, s2: Store, all: seq<nat>, obs: seq<nat>)
    requires Aged(s1, s2) && ObsListed(s1, []) && ObsListed(s2, obs)
    requires forall p :: p in all <==> Real(s1.h, p) && s1.h[p].obs != INVALID_TS
    requires forall i, j :: 0 <= i < j < |all| ==> all[i] != all[j]
    requires s2.bound < INVALID_TS
    ensures forall p :: p in all + obs <==> Real(s2.h, p) && s2.h[p].obs != INVALID_TS
    ensures forall i, j :: 0 <= i < j < |all + obs| ==> (all + obs)[i] != (all + obs)[j]
  {
    forall p | p in all ensures p !in obs && Real(s2.h, p) && s2.h[p].obs != INVALID_TS {
      assert p !in [];
      assert s1.h[p].obs != s1.bound;
    }
    forall i, j | 0 <= i < j < |all + obs| ensures (all + obs)[i] != (all + obs)[j] {
      if i < |all| <= j {
        assert all[i] in all && obs[j - |all|] in obs;
      }
    }
  }

  /** Publishing keeps the meaning of every earlier checkpoint and gives the new one its. */
  lemma PublishSnapshots(s0: Store, s2: Store, log: seq<LogEntry>)
    requires CURRENT in s0.roots && CURRENT in s2.roots && s0.bound < s2.bound <= |log| && s2.bound != CURRENT
    requires SameOld(s0.(bound := s2.bound), s2)
    requires forall v :: v in s0.roots && v != CURRENT ==> v <= s0.bound
    requires forall v {:trigger IsSnapshot(s0, v, log, v)} ::
      v in s0.roots && v != CURRENT ==> IsSnapshot(s0, v, log, v)
    requires IsSnapshot(s2, CURRENT, log, s2.bound)
    ensures var s := s2.(roots := s2.roots[s2.bound := s2.roots[CURRENT]]);
      forall v {:trigger IsSnapshot(s, v, log, v)} :: v in s.roots && v != CURRENT ==> v <= |log| && IsSnapshot(s, v, log, v)
  {
    var s := s2.(roots := s2.roots[s2.bound := s2.roots[CURRENT]]);
    var s1 := s0.(bound := s2.bound);
    forall v | v in s.roots && v != CURRENT ensures v <= |log| && IsSnapshot(s, v, log, v) {
      if v == s2.bound {
        forall a | Addressable(a) ensures Read(s, v, WordPath(a)) == Snapshot(log, v, a) {
          assert Read(s2, CURRENT, WordPath(a)) == Snapshot(log, v, a);
        }
      } else {
        assert IsSnapshot(s0, v, log, v);
        forall a | Addressable(a) ensures Read(s, v, WordPath(a)) == Snapshot(log, v, a) {
          WordPathShape(a);
          assert Read(s2, v, WordPath(a)) == Read(s1, v, WordPath(a));
        }
      }
    }
  }

  lemma {:induction false} MissingStaysMissing(h: Heap, root: nat, path: seq<nat>, n: nat)
    requires n <= |path| && At(h, root, path[..n]) == 0 && 0 !in h
    ensures At(h, root, path) == 0
    decreases |path|
  {
    if n < |path| {
      var m := |path| - 1;
      assert path[..m][..n] == path[..n];
      MissingStaysMissing(h, root, path[..m], n);
    } else {
      assert path[..n] == path;
    }
  }

  /** `mem` is the page of file `ino` at byte offset `off` in the snapshot at `t`. */
  ghost predicate IsPage(mem: seq<Word>, log: seq<LogEntry>, t: Ts, ino: nat, off: nat)
    requires t <= |log|
  {
    && |mem| == WORDS_PER_PAGE
    && forall w :: 0 <= w < WORDS_PER_PAGE ==> mem[w] == Snapshot(log, t, Addr(ino, off + w * WORD_SIZE))
  }

  lemma WordInPage(ino: nat, off: nat, w: nat)
    requires off % PAGE_SIZE == 0 && w < WORDS_PER_PAGE
    ensures var a := Addr(ino, off + w * WORD_SIZE);
      && a.off / PAGE_SIZE == off / PAGE_SIZE && a.off % PAGE_SIZE / WORD_SIZE == w && a.off % WORD_SIZE == 0
      && (InRange(ino, off) ==> Addressable(a))
      && WordPath(a) == Digits(ino, off / PAGE_SIZE) + [w]
  {
    var a := Addr(ino, off + w * WORD_SIZE);
    var pg := off / PAGE_SIZE;
    assert off == pg * PAGE_SIZE;
    assert a.off == pg * PAGE_SIZE + w * WORD_SIZE && w * WORD_SIZE < PAGE_SIZE;
    assert a.off / PAGE_SIZE == pg && a.off % PAGE_SIZE == w * WORD_SIZE;
  }

  lemma PageOfTree(s: Store, v: Ts, log: seq<LogEntry>, ino: nat, off: nat, mem: seq<Word>)
    requires v in s.roots && v <= |log| && IsSnapshot(s, v, log, v) && off % PAGE_SIZE == 0 && InRange(ino, off)
    requires |mem| == WORDS_PER_PAGE && 0 !in s.h
    requires var p := At(s.h, s.roots[v], Digits(ino, off / PAGE_SIZE));
      if p != 0 then p in s.h && mem == s.h[p].mem else mem == seq(WORDS_PER_PAGE, _ => 0)
    ensures IsPage(mem, log, v, ino, off)
  {
    forall w | 0 <= w < WORDS_PER_PAGE ensures mem[w] == Snapshot(log, v, Addr(ino, off + w * WORD_SIZE)) {
      var a := Addr(ino, off + w * WORD_SIZE);
      WordInPage(ino, off, w);
      WordPathShape(a);
      assert WordPath(a)[..|WordPath(a)| - 1] == Digits(ino, off / PAGE_SIZE);
      assert Read(s, v, WordPath(a)) == Snapshot(log, v, a);
    }
  }

  lemma FreeSnapshots(s0: Store, s1: Store, p: nat, log: seq<LogEntry>)
    requires FreeReady(s1, p) && s1 == s0.(roots := s1.roots)
    requires forall v :: v in s1.roots && v != CURRENT ==> v in s0.roots && s0.roots[v] == s1.roots[v] && v <= |log|
    requires forall v {:trigger IsSnapshot(s0, v, log, v)} ::
      v in s0.roots && v != CURRENT && v <= |log| ==> IsSnapshot(s0, v, log, v)
    ensures Persistent(s1, Free(s1, p))
    ensures forall v {:trigger IsSnapshot(Free(s1, p), v, log, v)} ::
      v in s1.roots && v != CURRENT ==> IsSnapshot(Free(s1, p), v, log, v)
  {
    var s2 := Free(s1, p);
    forall v, q | v in s1.roots && v != CURRENT && Path(q, WORD_DEPTH) ensures Read(s2, v, q) == Read(s1, v, q) {
      FreeReads(s1, p, v, q);
    }
    forall v | v in s1.roots && v != CURRENT ensures IsSnapshot(s2, v, log, v) {
      assert IsSnapshot(s0, v, log, v);
      forall a | Addressable(a) ensures Read(s2, v, WordPath(a)) == Snapshot(log, v, a) {
        WordPathShape(a);
        assert Read(s2, v, WordPath(a)) == Read(s1, v, WordPath(a));
        assert Read(s0, v, WordPath(a)) == Snapshot(log, v, a);
      }
    }
  }

  lemma RemoveOne(all: seq<nat>, i: nat)
    requires i < |all| && forall j, k :: 0 <= j < k < |all| ==> all[j] != all[k]
    ensures var rest := all[..i] + all[i + 1..];
      && (forall p :: p in rest <==> p in all && p != all[i])
      && (forall j, k :: 0 <= j < k < |rest| ==> rest[j] != rest[k])
  {
    var rest := all[..i] + all[i + 1..];
    forall p | p in all && p != all[i] ensures p in rest {
      var j :| 0 <= j < |all| && all[j] == p;
      assert rest[if j < i then j else j - 1] == p;
    }
  }

  // ---------------------------------------------------------------- the store object

  /** From `s1`, the first `i` writes of entry `k` have been applied. */
  ghost predicate EntryPart(s1: Store, s: Store, log: seq<LogEntry>, k: Ts, i: nat)
    requires 1 <= k <= |log| && i <= |EntryAt(log, k).ws|
  {
    && CURRENT in s1.roots && CURRENT in s.roots
    && Carried(s1, s) && Holds(s, log, k, i) && SharedLeaves(s1, s, EntryAt(log, k).ws)
  }

  lemma EntryStart(s: Store, log: seq<LogEntry>, k: Ts)
    requires CURRENT in s.roots && 1 <= k <= |log| && IsSnapshot(s, CURRENT, log, k - 1)
    ensures EntryPart(s, s, log, k, 0)
  {
  }

  lemma EntryDone(s1: Store, s: Store, log: seq<LogEntry>, k: Ts)
    requires 1 <= k <= |log| && !EntryAt(log, k).aborted && EntryPart(s1, s, log, k, |EntryAt(log, k).ws|)
    ensures Carried(s1, s) && CURRENT in s.roots && IsSnapshot(s, CURRENT, log, k)
    ensures CURRENT in s1.roots && SharedLeaves(s1, s, EntryAt(log, k).ws)
  {
    var ws := EntryAt(log, k).ws;
    assert ws[..|ws|] == ws;
  }

  lemma WalkOn(log: seq<LogEntry>, k: Ts, stop: Ts)
    requires Walkable(log, stop) && 1 <= k <= stop
    ensures EntryAt(log, k).ts == k && (k < stop ==> k < |log| && EntryAt(log, k + 1).ts == k + 1)
  {
  }

  /** sivfs_init_zero_checkpoint_pages. */
  method ZeroTables() returns (zeros: seq<nat>, h: Heap)
    ensures ZeroesOnly(h, zeros) && forall p :: !Real(h, p)
  {
    zeros := [1, 2, 3, 4];
    h := map[];
    var level := 0;
    while level < FOFFSET_LEVELS
      invariant 0 <= level <= FOFFSET_LEVELS
      invariant forall p :: p in h <==> 1 <= p <= level
      invariant forall p :: p in h ==> h[p] == Page(ZeroMem(zeros, p - 1), 0, INVALID_TS, p - 1, true)
    {
      h := h[level + 1 := Page(ZeroMem(zeros, level), 0, INVALID_TS, level, true)];
      level := level + 1;
    }
    forall p: nat ensures ZeroPageAt(h, zeros, p) {}
  }

  class CheckpointTrees {
    var heap: Heap
    var zeros: seq<nat>
    var inodes: map<Ts, nat>       // checkpoint inodes: cp_ts -> cp_root
    var latest: Ts                 // timestamp of the latest checkpoint
    var obsoleted: seq<nat>        // obsoleted pages, until they are freed
    ghost var home: map<nat, seq<nat>>
    ghost var readable: set<Ts>    // checkpoints whose pages the collector has left alone

    ghost function Roots(): map<Ts, nat>
      reads this
    {
      map v | v in inodes && v in readable :: inodes[v]
    }

    /** The store seen while a tree with root `root` is being built for `bound`. */
    ghost function Value(root: nat, bound: Ts): Store
      reads this
    {
      Store(heap, zeros, home, Roots()[CURRENT := root], bound)
    }

    /** The store between builds. */
    ghost function Now(): Store
      reads this
      requires latest in inodes
    {
      Value(inodes[latest], latest)
    }

    ghost predicate Building(root: nat, bound: Ts)
      reads this
    {
      Inv(Value(root, bound)) && CURRENT !in inodes && forall v :: v in Roots() ==> v < bound
    }

    /** Between builds: the newest tree is the latest checkpoint, every readable
        checkpoint holds the snapshot of its timestamp, and every page is either live in
        the newest tree or listed as obsoleted, once. */
    ghost predicate Valid(log: seq<LogEntry>)
      reads this
    {
      && latest in inodes && latest in readable && CURRENT !in inodes && latest < CURRENT
      && (forall v :: v in Roots() ==> v <= latest) && latest <= |log|
      && var s := Now();
      && Inv(s)
      && (forall v {:trigger IsSnapshot(s, v, log, v)} :: v in Roots() ==> IsSnapshot(s, v, log, v))
      && (forall p :: p in obsoleted <==> Real(heap, p) && heap[p].obs != INVALID_TS)
      && (forall i, j :: 0 <= i < j < |obsoleted| ==> obsoleted[i] != obsoleted[j])
    }

    /** The copying half of the loop body of sivfs_apply_change_checkpoint. */
    method CopyPage(root: nat, obs: seq<nat>, slot: nat, par: nat, d: nat, level: nat, bound: Ts,
                    ghost path: seq<nat>)
      returns (root': nat, obs': seq<nat>, page: nat)
      requires |zeros| == FOFFSET_LEVELS && |path| <= DEPTH && level == DEPTH - |path| && 0 !in heap
      requires slot == At(heap, root, path) && (slot == 0 || slot in heap)
      requires path != [] ==>
        && par == ParentAt(Value(root, bound), path) && d == path[|path| - 1]
        && par in heap && d < |heap[par].mem| && par != slot
      modifies this`heap, this`home
      ensures page !in old(heap) && page != 0
      ensures Value(root', bound) == Cow(old(Value(root, bound)), path, page)
      ensures obs' == if old(Real(heap, slot)) then obs + [slot] else obs
    {
      root', obs' := root, obs;
      ghost var s := Value(root, bound);
      FreshAddress(heap);
      page :| page !in heap && page != 0;
      if slot != 0 {
        var wasZero := heap[slot].isZero;
        heap := heap[page := Page(heap[slot].mem, bound, INVALID_TS, level, false)];
        if !wasZero {
          heap := heap[slot := heap[slot].(obs := bound)];
          obs' := obs + [slot];
        }
      } else {
        heap := heap[page := Page(ZeroMem(zeros, level), bound, INVALID_TS, level, false)];
      }
      if level == TOTAL_LEVELS - 1 {
        root' := page;
      } else {
        heap := heap[par := heap[par].(mem := heap[par].mem[d := page])];
      }
      home := home[page := path];
      assert Value(root', bound).roots == Cow(s, path, page).roots by {
        assert Roots() == old(Roots());
      }
    }

    /** Makes the page at `path` private to the checkpoint being built: one turn of the
        loop of sivfs_apply_change_checkpoint. `par` and `d` name the slot that leads to
        it. */
    method CowLevel(root: nat, obs: seq<nat>, par: nat, d: nat, level: nat, bound: Ts, memory: bool,
                    ghost path: seq<nat>, ghost leaf: seq<nat>, ghost s0: Store)
      returns (rc: Rc, root': nat, obs': seq<nat>, page: nat)
      requires Building(root, bound) && bound > 0 && ObsListed(Value(root, bound), obs)
      requires CURRENT in s0.roots && Copied(s0, Value(root, bound), leaf)
      requires Path(leaf, DEPTH) && |leaf| == DEPTH && path <= leaf && level == DEPTH - |path|
      requires path != [] ==>
        && par == ParentAt(Value(root, bound), path) && d == path[|path| - 1]
        && Real(heap, par) && heap[par].start == bound
      modifies this`heap, this`home
      ensures rc == Ok || (rc == ENoMem && !memory)
      ensures Building(root', bound) && ObsListed(Value(root', bound), obs')
      ensures Copied(s0, Value(root', bound), leaf)
      ensures rc == Ok ==> page == At(heap, root', path) && Real(heap, page) && heap[page].start == bound
    {
      rc := Ok;
      ghost var s := Value(root, bound);
      OnPath(s, CURRENT, path);
      if path != [] {
        assert PageOk(s, par);
        OnPath(s, CURRENT, path[..|path| - 1]);
      }
      var slot := if level == TOTAL_LEVELS - 1 then root else heap[par].mem[d];
      assert slot == At(heap, root, path);
      var oldTs := if slot == 0 || heap[slot].isZero then 0 else heap[slot].start;
      if slot != 0 && oldTs == bound {
        root', obs', page := root, obs, slot;
      } else {
        var outOfMemory: bool := *;
        if outOfMemory && !memory {
          return ENoMem, root, obs, 0;
        }
        assert slot == 0 || PageOk(s, slot);
        root', obs', page := CopyPage(root, obs, slot, par, d, level, bound, path);
        CowStep(s, path, page, leaf, obs);
        CopiedTrans(s0, s, Value(root', bound), leaf);
      }
    }

    /** The descent of sivfs_apply_change_checkpoint: afterwards every page on the path is
        private to the checkpoint being built, and no stored word has changed. */
    method PrivatePath(root: nat, obs: seq<nat>, offsets: seq<nat>, bound: Ts, memory: bool)
      returns (rc: Rc, root': nat, obs': seq<nat>, page: nat)
      requires Building(root, bound) && bound > 0 && ObsListed(Value(root, bound), obs)
      requires Path(offsets, DEPTH) && |offsets| == DEPTH
      modifies this`heap, this`home
      ensures rc == Ok || (rc == ENoMem && !memory)
      ensures Building(root', bound) && ObsListed(Value(root', bound), obs')
      ensures Copied(old(Value(root, bound)), Value(root', bound), offsets)
      ensures rc == Ok ==> page == At(heap, root', offsets) && Real(heap, page) && heap[page].start == bound
    {
      ghost var s0 := Value(root, bound);
      var level := TOTAL_LEVELS - 1;
      CopiedRefl(s0, offsets);
      rc, root', obs', page := CowLevel(root, obs, 0, 0, level, bound, memory, [], offsets, s0);
      if rc != Ok {
        return;
      }
      while level > 0
        invariant 0 <= level <= DEPTH && rc == Ok
        invariant PrivateTo(root', obs', page, offsets, level, bound, s0)
      {
        rc, root', obs', page := Descend(root', obs', page, offsets, level, bound, memory, s0);
        if rc != Ok {
          return;
        }
        level := level - 1;
      }
      assert offsets == offsets[..DEPTH - level];
    }

    /** Down to `level`, the way along `offsets` is private to the checkpoint being built. */
    ghost predicate PrivateTo(root: nat, obs: seq<nat>, page: nat, offsets: seq<nat>, level: nat, bound: Ts, s0: Store)
      reads this
      requires |offsets| == DEPTH && level <= DEPTH && CURRENT in s0.roots
    {
      && Building(root, bound) && ObsListed(Value(root, bound), obs)
      && Copied(s0, Value(root, bound), offsets)
      && page == At(heap, root, offsets[..DEPTH - level]) && Real(heap, page) && heap[page].start == bound
    }

    method Descend(root: nat, obs: seq<nat>, above: nat, offsets: seq<nat>, level: nat, bound: Ts, memory: bool, ghost s0: Store)
      returns (rc: Rc, root': nat, obs': seq<nat>, page: nat)
      requires 0 < level <= DEPTH && Path(offsets, DEPTH) && |offsets| == DEPTH && bound > 0
      requires CURRENT in s0.roots
      requires PrivateTo(root, obs, above, offsets, level, bound, s0)
      modifies this`heap, this`home
      ensures rc == Ok || (rc == ENoMem && !memory)
      ensures rc == Ok ==> PrivateTo(root', obs', page, offsets, level - 1, bound, s0)
      ensures Building(root', bound) && ObsListed(Value(root', bound), obs') && Copied(s0, Value(root', bound), offsets)
    {
      PathStep(offsets, DEPTH - level, heap, root);
      ghost var path := offsets[..DEPTH - (level - 1)];
      rc, root', obs', page := CowLevel(root, obs, above, offsets[DEPTH - level], level - 1, bound, memory, path, offsets, s0);
    }

    /** sivfs_apply_change_checkpoint: path-copies from the root to the leaf, then writes
        the word. */
    method ApplyChange(root: nat, obs: seq<nat>, ent: WsEnt, bound: Ts, memory: bool)
      returns (rc: Rc, root': nat, obs': seq<nat>)
      requires Building(root, bound) && bound > 0 && ObsListed(Value(root, bound), obs)
      modifies this`heap, this`home
      ensures if !InRange(ent.ino, ent.off) then rc == EInval else rc == Ok || (rc == ENoMem && !memory)
      ensures Carried(old(Value(root, bound)), Value(root', bound))
      ensures rc == EInval ==> heap == old(heap) && home == old(home) && root' == root && obs' == obs
      ensures Building(root', bound) && ObsListed(Value(root', bound), obs')
      ensures rc == Ok ==> Applied(old(Value(root, bound)), Value(root', bound), ent)
    {
      var offsets;
      rc, offsets := IterInit(ent.ino, ent.off);
      if rc != Ok {
        return rc, root, obs;
      }
      ghost var s0 := Value(root, bound);
      WordPathShape(Addr(ent.ino, ent.off));
      assert Path(offsets, DEPTH) by {
        assert offsets == WordPath(Addr(ent.ino, ent.off))[..DEPTH];
      }
      var page;
      rc, root', obs', page := PrivatePath(root, obs, offsets, bound, memory);
      if rc != Ok {
        return;
      }
      ghost var s := Value(root', bound);
      var w := ent.off % PAGE_SIZE / WORD_SIZE;
      LeafApplied(s0, s, ent, obs');
      heap := heap[page := heap[page].(mem := heap[page].mem[w := ent.value])];
      assert Value(root', bound) == WriteLeaf(s, offsets, w, ent.value);
    }

    method ApplyWrite(root: nat, obs: seq<nat>, log: seq<LogEntry>, k: Ts, i: nat, bound: Ts, memory: bool, ghost s1: Store)
      returns (rc: Rc, root': nat, obs': seq<nat>)
      requires Building(root, bound) && bound > 0 && ObsListed(Value(root, bound), obs)
      requires 1 <= k <= |log| && AlignedWs(EntryAt(log, k).ws) && i < |EntryAt(log, k).ws|
      requires EntryPart(s1, Value(root, bound), log, k, i)
      modifies this`heap, this`home
      ensures Building(root', bound) && ObsListed(Value(root', bound), obs') && Carried(s1, Value(root', bound))
      ensures if !InRange(EntryAt(log, k).ws[i].ino, EntryAt(log, k).ws[i].off) then rc == EInval
              else rc == Ok || (rc == ENoMem && !memory)
      ensures rc == Ok ==> EntryPart(s1, Value(root', bound), log, k, i + 1)
    {
      ghost var s := Value(root, bound);
      rc, root', obs' := ApplyChange(root, obs, EntryAt(log, k).ws[i], bound, memory);
      CarriedTrans(s1, s, Value(root', bound));
      if rc == Ok {
        HoldsNext(s, Value(root', bound), log, k, i);
        AppliedLeaves(s1, s, Value(root', bound), EntryAt(log, k).ws, i);
      }
    }

    /** The inner loop of _sivfs_make_checkpoint: applies one log entry. */
    method ApplyEntry(root: nat, obs: seq<nat>, log: seq<LogEntry>, k: Ts, bound: Ts, memory: bool)
      returns (rc: Rc, root': nat, obs': seq<nat>)
      requires Building(root, bound) && bound > 0 && ObsListed(Value(root, bound), obs)
      requires 1 <= k <= |log| && !EntryAt(log, k).aborted && AlignedWs(EntryAt(log, k).ws)
      requires IsSnapshot(Value(root, bound), CURRENT, log, k - 1)
      modifies this`heap, this`home
      ensures Building(root', bound) && ObsListed(Value(root', bound), obs')
      ensures Carried(old(Value(root, bound)), Value(root', bound))
      ensures rc == Ok ==> InRangeWs(EntryAt(log, k).ws)
      ensures rc == EInval ==> !InRangeWs(EntryAt(log, k).ws)
      ensures rc == ENoMem ==> !memory
      ensures rc == Ok ==> IsSnapshot(Value(root', bound), CURRENT, log, k)
      ensures rc == Ok ==> SharedLeaves(old(Value(root, bound)), Value(root', bound), EntryAt(log, k).ws)
    {
      var ws := EntryAt(log, k).ws;
      root', obs' := root, obs;
      ghost var s1 := Value(root, bound);
      EntryStart(s1, log, k);
      var i := 0;
      while i < |ws|
        invariant 0 <= i <= |ws| && InRangeWs(ws[..i])
        invariant Building(root', bound) && ObsListed(Value(root', bound), obs')
        invariant EntryPart(s1, Value(root', bound), log, k, i)
      {
        rc, root', obs' := ApplyWrite(root', obs', log, k, i, bound, memory, s1);
        if rc != Ok {
          return;
        }
        i := i + 1;
      }
      rc := Ok;
      assert ws[..i] == ws;
      EntryDone(s1, Value(root', bound), log, k);
    }

    /** Where the walk of _sivfs_make_checkpoint stands once entry `k` is dealt with. */
    ghost predicate AppliedTo(root: nat, obs: seq<nat>, log: seq<LogEntry>, from: Ts, k: Ts, next: Ts, s0: Store)
      reads this
      requires from <= k <= |log| && CURRENT in s0.roots
    {
      var s := Value(root, next);
      && Building(root, next) && ObsListed(s, obs) && Carried(s0, s)
      && IsSnapshot(s, CURRENT, log, k) && SharedQuiet(s0, s, log, from, k)
    }

    method ApplyLogStep(root: nat, obs: seq<nat>, log: seq<LogEntry>, k: Ts, next: Ts, memory: bool, ghost from: Ts, ghost s0: Store)
      returns (rc: Rc, root': nat, obs': seq<nat>)
      requires from < k <= |log| && next > 0 && CURRENT in s0.roots
      requires AppliedTo(root, obs, log, from, k - 1, next, s0) && AlignedWs(EntryAt(log, k).ws)
      modifies this`heap, this`home
      ensures rc == Ok ==> EntryAt(log, k).aborted || InRangeWs(EntryAt(log, k).ws)
      ensures rc == EInval ==> !EntryAt(log, k).aborted && !InRangeWs(EntryAt(log, k).ws)
      ensures rc == ENoMem ==> !memory
      ensures rc == Ok ==> AppliedTo(root', obs', log, from, k, next, s0)
      ensures Building(root', next) && ObsListed(Value(root', next), obs') && Carried(s0, Value(root', next))
    {
      ghost var s := Value(root, next);
      if EntryAt(log, k).aborted {
        rc, root', obs' := Ok, root, obs;
        SharedExtend(s0, s, s, log, from, k);
      } else {
        rc, root', obs' := ApplyEntry(root, obs, log, k, next, memory);
        CarriedTrans(s0, s, Value(root', next));
        if rc == Ok {
          SharedExtend(s0, s, Value(root', next), log, from, k);
        }
      }
    }

    /** _sivfs_make_checkpoint: walks the log from the entry after `from` to `next`. */
    method ApplyLog(root: nat, log: seq<LogEntry>, trim: Trim, from: Ts, next: Ts, memory: bool)
      returns (rc: Rc, root': nat, obs: seq<nat>)
      requires Building(root, next) && from < next && ObsListed(Value(root, next), [])
      requires Walkable(log, next)
      requires forall k :: from < k <= next ==> AlignedWs(EntryAt(log, k).ws)
      requires IsSnapshot(Value(root, next), CURRENT, log, from)
      modifies this`heap, this`home
      ensures Building(root', next) && ObsListed(Value(root', next), obs)
      ensures Carried(old(Value(root, next)), Value(root', next))
      ensures rc == Ok ==> EntryRc(trim, from + 1) == Ok && LogInRange(log, from, next)
      ensures rc == EInval ==> !LogInRange(log, from, next) || EntryRc(trim, from + 1) == EInval
      ensures rc == ENoMem ==> !memory || EntryRc(trim, from + 1) == ENoMem
      ensures rc == Ok ==> AppliedTo(root', obs, log, from, next, next, old(Value(root, next)))
    {
      ghost var s0 := Value(root, next);
      root', obs := root, [];
      rc := EntryRc(trim, from + 1);
      if rc != Ok {
        return;
      }
      rc, root', obs := ApplyFrom(root, log, from, next, memory);
    }

    /** The walk itself. */
    method ApplyFrom(root: nat, log: seq<LogEntry>, from: Ts, next: Ts, memory: bool)
      returns (rc: Rc, root': nat, obs: seq<nat>)
      requires Building(root, next) && from < next && ObsListed(Value(root, next), [])
      requires Walkable(log, next)
      requires forall k :: from < k <= next ==> AlignedWs(EntryAt(log, k).ws)
      requires IsSnapshot(Value(root, next), CURRENT, log, from)
      modifies this`heap, this`home
      ensures Building(root', next) && ObsListed(Value(root', next), obs)
      ensures Carried(old(Value(root, next)), Value(root', next))
      ensures rc == Ok ==> LogInRange(log, from, next)
      ensures rc == EInval ==> !LogInRange(log, from, next)
      ensures rc == ENoMem ==> !memory
      ensures rc == Ok ==> AppliedTo(root', obs, log, from, next, next, old(Value(root, next)))
    {
      ghost var s0 := Value(root, next);
      root', obs := root, [];
      var k := from + 1;
      while true
        invariant from < k <= next
        invariant AppliedTo(root', obs, log, from, k - 1, next, s0)
        invariant LogInRange(log, from, k - 1)
        decreases next - k
      {
        rc, root', obs := ApplyLogStep(root', obs, log, k, next, memory, from, s0);
        if rc != Ok {
          return;
        }
        WalkOn(log, k, next);
        if EntryAt(log, k).ts == next {
          break;
        }
        if k == |log| || EntryAt(log, k + 1).ts > next {
          break;
        }
        k := k + 1;
      }
      assert k == next;
    }

    /** sivfs_init_zero_checkpoint_pages and the empty checkpoint at time 0. */
    constructor ()
      ensures Valid([]) && latest == 0 && inodes == map[0 := 0] && readable == {0} && obsoleted == []
      ensures Sharing(Now(), [])
    {
      var z, h := ZeroTables();
      heap, zeros, inodes, latest, obsoleted := h, z, map[0 := 0], 0, [];
      home, readable := map[], {0};
      new;
      assert Roots() == map[0 := 0];
      assert Value(0, 0).roots.Keys == {0, CURRENT};
      EmptyStoreOk(Value(0, 0));
      EmptySharing(Value(0, 0));
    }

    /** The build half of sivfs_make_checkpoint. */
    method BuildTree(log: seq<LogEntry>, trim: Trim, next: Ts, memory: bool) returns (rc: Rc, root: nat, obs: seq<nat>)
      requires Valid(log) && latest < next < CURRENT && Walkable(log, next)
      requires forall k :: latest < k <= next ==> AlignedWs(EntryAt(log, k).ws)
      modifies this`heap, this`home
      ensures Building(root, next) && ObsListed(Value(root, next), obs)
      ensures ObsListed(old(Value(inodes[latest], next)), [])
      ensures Carried(old(Value(inodes[latest], next)), Value(root, next))
      ensures rc == Ok ==> EntryRc(trim, latest + 1) == Ok && LogInRange(log, latest, next)
      ensures rc == EInval ==> !LogInRange(log, latest, next) || EntryRc(trim, latest + 1) == EInval
      ensures rc == ENoMem ==> !memory || EntryRc(trim, latest + 1) == ENoMem
      ensures rc == Ok ==> IsSnapshot(Value(root, next), CURRENT, log, next)
      ensures rc == Ok ==> SharedQuiet(old(Value(inodes[latest], next)), Value(root, next), log, latest, next)
    {
      ghost var s0 := Now();
      RaiseBound(s0, next);
      ghost var s1 := Value(inodes[latest], next);
      assert s1 == s0.(bound := next);
      StartBuild(s0, s1);
      assert IsSnapshot(s0, latest, log, latest);
      NewestIsLatest(s0, s1, log);
      rc, root, obs := ApplyLog(inodes[latest], log, trim, latest, next, memory);
    }

    /** The publication half: record the inode, hand over the obsoleted pages. */
    method Publish(root: nat, obs: seq<nat>, next: Ts, ghost s0: Store, ghost log: seq<LogEntry>)
      requires latest in inodes && latest in readable && latest < next < CURRENT && next <= |log|
      requires Building(root, next) && ObsListed(Value(root, next), obs) && ObsListed(s0.(bound := next), [])
      requires s0.bound == latest && CURRENT in s0.roots && s0.roots == Roots()[CURRENT := inodes[latest]]
      requires Carried(s0.(bound := next), Value(root, next))
      requires forall v :: v in Roots() ==> v <= latest
      requires forall v {:trigger IsSnapshot(s0, v, log, v)} :: v in Roots() ==> IsSnapshot(s0, v, log, v)
      requires IsSnapshot(Value(root, next), CURRENT, log, next)
      requires forall p :: p in obsoleted <==> Real(s0.h, p) && s0.h[p].obs != INVALID_TS
      requires forall i, j :: 0 <= i < j < |obsoleted| ==> obsoleted[i] != obsoleted[j]
      modifies this`inodes, this`latest, this`obsoleted, this`readable
      ensures Valid(log) && latest == next && inodes == old(inodes)[next := root]
      ensures obsoleted == old(obsoleted) + obs && readable == old(readable) + {next}
      ensures Roots() == old(Roots())[next := root]
    {
      ghost var s2 := Value(root, next);
      PublishInv(s2);
      PublishSnapshots(s0, s2, log);
      ObsoletedAppend(s0.(bound := next), s2, obsoleted, obs);
      inodes := inodes[next := root];
      readable := readable + {next};
      obsoleted := obsoleted + obs;
      latest := next;
      assert Roots() == old(Roots())[next := root];
      ghost var s := Value(root, next);
      assert s == s2.(roots := s2.roots[s2.bound := s2.roots[CURRENT]]);
      forall v | v in Roots() ensures IsSnapshot(s, v, log, v) {
      }
    }

    /** sivfs_make_checkpoint: fold the log up to `master` into a new tree and retire what
        it replaces. A build fails for an entry out of addressable range, for one the log
        collector has deleted, or when a page cannot be allocated; earlier checkpoints read
        the same whether it succeeds or not. */
    method MakeCheckpoint(log: seq<LogEntry>, trim: Trim, master: Ts, memory: bool) returns (rc: Rc, made: bool)
      requires Valid(log) && latest <= master < CURRENT && Walkable(log, master)
      requires forall k :: latest < k <= master ==> AlignedWs(EntryAt(log, k).ws)
      modifies this
      ensures zeros == old(zeros) && readable == old(readable) + (if made then {master} else {})
      ensures latest in inodes
      ensures Persistent(old(Now()), Now())
      ensures made <==> rc == Ok && master != old(latest)
      ensures made ==> EntryRc(trim, old(latest) + 1) == Ok && LogInRange(log, old(latest), master)
      ensures rc == EInval ==> !LogInRange(log, old(latest), master) || EntryRc(trim, old(latest) + 1) == EInval
      ensures rc == ENoMem ==> !memory || EntryRc(trim, old(latest) + 1) == ENoMem
      ensures rc == Ok ==> Valid(log) && latest == master
      ensures made ==> inodes == old(inodes)[master := inodes[master]]
      ensures made ==> SharedQuiet(old(Now()), Value(inodes[master], master), log, old(latest), master)
      ensures rc == Ok && old(Sharing(Now(), log)) ==> Sharing(Now(), log)
      ensures rc != Ok ==> inodes == old(inodes) && latest == old(latest) && obsoleted == old(obsoleted)
    {
      rc, made := Ok, false;
      if master == latest {
        return;
      }
      ghost var s0 := Now();
      var root, obs;
      rc, root, obs := BuildTree(log, trim, master, memory);
      BuildPersistent(s0, s0.(bound := master), Value(root, master), Now());
      if rc != Ok {
        return;
      }
      made := true;
      ghost var s2 := Value(root, master);
      Publish(root, obs, master, s0, log);
      BuildPersistent(s0, s0.(bound := master), s2, Value(root, master));
      BuildShared(s0, s0.(bound := master), s2, Value(root, master), log);
      if Sharing(s0, log) {
        SharingBuilt(s0, Value(root, master), log);
      }
    }

    /** A later log with the same entries up to the latest checkpoint changes nothing. */
    lemma LogGrows(log: seq<LogEntry>, log': seq<LogEntry>)
      requires Valid(log) && latest <= |log'|
      requires forall i :: 0 <= i < latest ==> log'[i] == log[i]
      ensures Valid(log')
      ensures Sharing(Now(), log) ==> Sharing(Now(), log')
    {
      var s := Now();
      if Sharing(s, log) {
        SharingLogGrows(s, log, log');
      }
      forall v | v in Roots() ensures IsSnapshot(s, v, log', v) {
        assert IsSnapshot(s, v, log, v);
        forall a | Addressable(a) ensures Read(s, v, WordPath(a)) == Snapshot(log', v, a) {
          SnapshotPrefix(log, log', v, a);
        }
      }
    }

    /** sivfs_checkpoint_traverse_partial: the page on the way to (ino, off) at level
        `levelStop` of checkpoint `ts`, or 0 when a table on the way is missing. */
    method TraversePartial(ts: Ts, ino: nat, off: nat, levelStop: nat, ghost log: seq<LogEntry>)
      returns (rc: Rc, page: nat)
      requires Valid(log) && ts in Roots() && levelStop <= DEPTH
      ensures rc == if InRange(ino, off) then Ok else EInval
      ensures rc == Ok ==> page == At(heap, inodes[ts], Digits(ino, off / PAGE_SIZE)[..DEPTH - levelStop])
      ensures rc == Ok ==> page == 0 || (page in heap && |heap[page].mem| == CHILDREN)
    {
      var offsets;
      page := 0;
      rc, offsets := IterInit(ino, off);
      if rc != Ok {
        return;
      }
      ghost var s := Now();
      assert s.roots[ts] == inodes[ts];
      assert Path(offsets, DEPTH) by {
        WordPathShape(Addr(ino, off));
        assert offsets == WordPath(Addr(ino, off))[..DEPTH];
      }
      var pa := inodes[ts];
      var level := TOTAL_LEVELS - 1;
      OnPath(s, ts, []);
      while level != levelStop
        invariant levelStop <= level <= DEPTH
        invariant pa == At(heap, inodes[ts], offsets[..DEPTH - level])
        invariant pa == 0 || pa in heap
      {
        ghost var n := DEPTH - level;
        PathStep(offsets, n, heap, inodes[ts]);
        OnPath(s, ts, offsets[..n + 1]);
        if pa == 0 {
          assert offsets[..DEPTH - levelStop][..n] == offsets[..n];
          MissingStaysMissing(heap, inodes[ts], offsets[..DEPTH - levelStop], n);
          return;
        }
        assert PageOk(s, pa);
        pa := heap[pa].mem[offsets[DEPTH - level]];
        level := level - 1;
      }
      page := pa;
      assert page in heap ==> PageOk(s, page);
    }

    /** sivfs_read_checkpoint: the page of a file as checkpoint `ts` has it, which is the
        page of the snapshot at `ts`. */
    method ReadCheckpoint(ts: Ts, ino: nat, off: nat, ghost log: seq<LogEntry>)
      returns (rc: Rc, mem: seq<Word>)
      requires Valid(log) && ts in Roots()
      ensures rc == if off % PAGE_SIZE == 0 && InRange(ino, off) then Ok else EInval
      ensures rc == Ok ==> IsPage(mem, log, ts, ino, off)
    {
      mem := [];
      if off % PAGE_SIZE != 0 {
        return EInval, mem;
      }
      var page;
      rc, page := TraversePartial(ts, ino, off, 0, log);
      if rc != Ok {
        return;
      }
      if page != 0 {
        mem := heap[page].mem;
      } else {
        mem := seq(WORDS_PER_PAGE, _ => 0);
      }
      ghost var s := Now();
      assert IsSnapshot(s, ts, log, ts);
      assert Digits(ino, off / PAGE_SIZE)[..DEPTH] == Digits(ino, off / PAGE_SIZE);
      assert s.roots[ts] == inodes[ts];
      PageOfTree(s, ts, log, ino, off, mem);
    }

    /** sivfs_gc_free_entry on a page: legitimate once its lifetime covers no checkpoint in
        `keep`, and then invisible to all of them. */
    method FreePage(i: nat, ghost keep: set<Ts>, ghost log: seq<LogEntry>)
      requires Valid(log) && latest in keep && i < |obsoleted|
      requires forall v :: v in keep && obsoleted[i] in heap ==> !LiveAt(heap[obsoleted[i]], v)
      modifies this`heap, this`home, this`obsoleted, this`readable
      ensures Valid(log) && heap == old(heap) - {old(obsoleted)[i]}
      ensures obsoleted == old(obsoleted)[..i] + old(obsoleted)[i + 1..]
      ensures readable == old(readable) * keep
      ensures Persistent(old(Now()).(roots := Now().roots),
                         Now())
      ensures old(Sharing(Now(), log)) ==> Sharing(Now(), log)
    {
      var p := obsoleted[i];
      ghost var s0 := Now();
      readable := readable * keep;
      ghost var s1 := Now();
      DropInv(s0, s1);
      assert p in obsoleted && Real(heap, p);
      assert PageOk(s1, p);
      assert FreeReady(s1, p);
      FreeInv(s1, p);
      heap := heap - {p};
      home := home - {p};
      obsoleted := obsoleted[..i] + obsoleted[i + 1..];
      ghost var s2 := Now();
      assert s2 == Free(s1, p);
      forall v | v in Roots() ensures v in old(Roots()) && v <= latest {
      }
      FreeSnapshots(s0, s1, p, log);
      RemoveOne(old(obsoleted), i);
      if Sharing(s0, log) {
        SharingDropped(s0, s2, log);
      }
    }
  }
}
