/** Short runs of the block allocator on a fresh file, each ending where the code does not do
    what it is meant to. The kernel heap does not run out in them. */
module BlockRuns {
  import opened Types
  import opened BlockArena
  import opened BlockAllocator

  /** One page-sized block and the wilderness behind it. */
  ghost predicate OneBlock(a: Arena) {
    a.wild == 1 && a.chunks.Keys <= {0, 1} && 1 in a.chunks && a.chunks[1].start == PAGE_SIZE
  }

  lemma OneBlockIs(a: Arena)
    requires Tiled(a) && OneBlock(a)
    ensures 0 in a.chunks && a.chunks[0].start == 0 && a.chunks[0].size == PAGE_SIZE && a.chunks[1].size == WILD
  {
    var id := EveryOffsetCovered(a, 0);
    assert ChunkOk(a, 0);
  }

  method FirstBlock(al: Allocator, t: Tid)
    requires al.Valid() && al.Value() == FreshArena() && t in al.txns
    modifies al
    ensures al.Valid() && OneBlock(al.Value()) && 0 in al.chunks && al.chunks[0] == Chunk(0, PAGE_SIZE, 0, true, false)
    ensures al.txns == old(al.txns)[t := old(al.txns)[t].(got := [0] + old(al.txns)[t].got)]
    ensures al.getter == old(al.getter)[0 := t] && al.stolen == {}
  {
    var rc, start, size;
    ghost var id;
    rc, start, size, id := al.AllocBlock(t, 1, PAGE_SIZE, Some(1));
    assert id == 0;
    assert ChunkOk(al.Value(), 0);
  }

  /** The free block is found again, whole. */
  method Again(al: Allocator, t: Tid, ts: Ts, kmem: Id)
    requires al.Sound() && OneBlock(al.Value()) && t in al.txns && kmem !in al.chunks
    requires 0 in al.chunks && !Busy(al.chunks[0]) && al.chunks[0].lastFreed <= ts
    modifies al
    ensures 0 in al.chunks && al.chunks[0] == old(al.chunks)[0].(taken := true)
    ensures al.txns == old(al.txns)[t := old(al.txns)[t].(got := [0] + old(al.txns)[t].got)]
    ensures al.stolen == old(al.stolen) && al.getter == old(al.getter)[0 := t]
    ensures old(al.Valid()) ==> al.Valid() && OneBlock(al.Value())
  {
    OneBlockIs(al.Value());
    assert Listed(al.bestfit, 0);
    var rc, start, size;
    ghost var id;
    rc, start, size, id := al.AllocBlock(t, ts, PAGE_SIZE, Some(kmem));
    assert id == 0;
  }

  lemma OneBlockStays(was: Arena, a: Arena)
    requires OneBlock(was) && Tiled(a) && a.wild == was.wild && InPlace(was.chunks, a.chunks)
    ensures OneBlock(a)
  {
    forall x | x in a.chunks ensures x in was.chunks && a.chunks[x].start == was.chunks[x].start {
      assert InPlaceAt(was.chunks, a.chunks, x);
    }
  }

  /** Transaction `t` frees the block and has that accepted. */
  method MarkFreed(al: Allocator, t: Tid, ts: Ts)
    requires al.Sound() && OneBlock(al.Value()) && t in al.txns
    requires 0 in al.chunks && al.chunks[0].taken && al.chunks[0].lastFreed <= ts
    modifies al
    ensures al.Sound() && OneBlock(al.Value()) && 0 in al.chunks
    ensures al.chunks[0] == old(al.chunks)[0].(taken := false, freeing := true)
    ensures al.txns == old(al.txns)[t := old(al.txns)[t].(toFree := [0] + old(al.txns)[t].toFree)]
    ensures old(al.Valid()) && (0 in al.getter ==> al.getter[0] == t) ==> al.Valid()
    ensures al.getter == old(al.getter)
  {
    OneBlockIs(al.Value());
    ghost var a := al.Value();
    var r;
    ghost var id;
    r, id := al.FreeBlock(t, ts, 0);
    assert id == 0;
  }

  /** And commits, which puts it on the free list with time `commitTs`. */
  method Settle(al: Allocator, t: Tid, commitTs: Ts)
    requires al.Sound() && OneBlock(al.Value()) && t in al.txns && commitTs != INVALID_TS
    modifies al
    ensures al.Sound() && OneBlock(al.Value()) && 0 in al.chunks && (old(al.Valid()) ==> al.Valid())
    ensures al.txns == old(al.txns)[t := Txn([], [])]
    ensures 0 in old(al.txns)[t].toFree ==> !Busy(al.chunks[0]) && al.chunks[0].lastFreed == commitTs
    ensures old(al.txns)[t].toFree == [] ==> al.Value() == old(al.Value())
    ensures forall x :: x in al.getter ==> x in old(al.getter) && al.getter[x] == old(al.getter)[x]
  {
    var rc := al.OnCommit(t, commitTs, true);
    OneBlockStays(old(al.Value()), al.Value());
    OneBlockIs(al.Value());
    assert 0 in old(al.txns)[t].toFree ==> ReleasedAt(al.chunks, commitTs, 0);
  }

  /** A transaction frees the block another running transaction has just allocated, and
      commits. The block is on the free list while its allocator still holds it, and a third
      transaction is given it too. */
  method TwoHolders() returns (al: Allocator)
    ensures 1 in al.txns && 3 in al.txns && 0 in al.txns[1].got && 0 in al.txns[3].got
    ensures 0 in al.chunks && al.chunks[0].taken
  {
    al := new Allocator({1, 2, 3});
    FirstBlock(al, 1);
    MarkFreed(al, 2, 1);
    Settle(al, 2, 5);
    Again(al, 3, 7, 2);
  }

  /** A block freed at time 5 is allocated again and freed by one transaction, which aborts.
      Its recorded time is then 0, and a transaction whose snapshot is at 3 is given space
      that was not yet free there. */
  method EarlyReuse() returns (al: Allocator, freedAt: Ts)
    ensures freedAt == 5 && 0 in al.chunks && al.chunks[0].lastFreed == 0
    ensures al.chunks[0].taken && 2 in al.txns && 0 in al.txns[2].got
  {
    al := new Allocator({1, 2});
    FirstBlock(al, 1);
    Settle(al, 1, 4);
    freedAt := FreeReuseAbort(al);
    Again(al, 2, 3, 3);
  }

  method FreeReuseAbort(al: Allocator) returns (freedAt: Ts)
    requires al.Valid() && OneBlock(al.Value()) && al.txns.Keys == {1, 2} && al.txns[1] == Txn([], [])
    requires 0 in al.chunks && al.chunks[0].taken && al.chunks[0].lastFreed == 0
    requires 0 in al.getter ==> al.getter[0] == 1
    modifies al
    ensures al.Valid() && OneBlock(al.Value()) && al.txns.Keys == {1, 2} && freedAt == 5
    ensures 0 in al.chunks && !Busy(al.chunks[0]) && al.chunks[0].lastFreed == 0
  {
    MarkFreed(al, 1, 4);
    Settle(al, 1, 5);
    freedAt := al.chunks[0].lastFreed;
    Again(al, 1, 7, 2);
    MarkFreed(al, 1, 7);
    GiveUp(al);
  }

  method GiveUp(al: Allocator)
    requires al.Valid() && OneBlock(al.Value()) && 1 in al.txns && 0 in al.txns[1].toFree && 0 in al.txns[1].got
    modifies al
    ensures al.Valid() && OneBlock(al.Value()) && al.txns.Keys == old(al.txns.Keys)
    ensures 0 in al.chunks && !Busy(al.chunks[0]) && al.chunks[0].lastFreed == 0
  {
    var rc := al.OnAbort(1, true);
    OneBlockStays(old(al.Value()), al.Value());
    OneBlockIs(al.Value());
    assert ReleasedAt(al.chunks, INVALID_TS, 0);
  }

  /** A page-aligned offset inside the wilderness: there is no chunk to look at. */
  method NoChunkThere() returns (al: Allocator, r: FreeRc)
    ensures r == NoChunk
  {
    al := new Allocator({1});
    ghost var id;
    r, id := al.FreeBlock(1, 1, PAGE_SIZE);
  }

  /** Two page-sized blocks and the wilderness behind them. */
  ghost predicate TwoBlocks(a: Arena) {
    && a.chunks.Keys == {0, 1, 2} && a.wild == 2
    && a.chunks[0].start == 0 && a.chunks[0].size == PAGE_SIZE
    && a.chunks[1].start == PAGE_SIZE && a.chunks[1].size == PAGE_SIZE
  }

  /** Freeing the second of them leaves its bytes with the first. */
  lemma SecondIsSwallowed(a: Arena, commitTs: Ts) returns (home: Id)
    requires Tiled(a) && TwoBlocks(a) && Busy(a.chunks[0])
    ensures
      var a' := FreedTo(a, 1, commitTs).0;
      && Tiled(a') && home in a'.chunks && Busy(a'.chunks[home]) && Covers(a'.chunks[home], PAGE_SIZE)
      && forall x :: x in a'.chunks && Covers(a'.chunks[x], PAGE_SIZE) ==> x == home
  {
    NothingAhead(a, commitTs);
    FreedSwallowed(a, 1, commitTs);
    assert ChunkOk(a, 1) && Apart(a, 0, 1);
    SwallowedByNeighbour(a, 1, commitTs);
    home := FreedTo(a, 1, commitTs).1;
    var id := EveryOffsetCovered(FreedTo(a, 1, commitTs).0, PAGE_SIZE);
  }

  lemma NothingAhead(a: Arena, commitTs: Ts)
    requires Tiled(a) && TwoBlocks(a)
    ensures SizeAhead(a, 1, commitTs) == PAGE_SIZE
  {
    assert ChunkOk(a, 1) && ChunkOk(a, 2);
    ClearedTiled(a, 1, commitTs);
  }

  /** Two blocks allocated and committed, the second freed and committed: its bytes are not on
      the free list but part of the first block, which nobody has freed. */
  method SwallowedBlock() returns (al: Allocator, ghost home: Id)
    ensures al.Valid() && home in al.chunks && al.chunks[home].taken && Covers(al.chunks[home], PAGE_SIZE)
    ensures forall x :: x in al.bestfit && x in al.chunks ==> !Covers(al.chunks[x], PAGE_SIZE)
  {
    al := new Allocator({1});
    FirstBlock(al, 1);
    SecondBlock(al);
    var rc := al.OnCommit(1, 2, true);
    home := FreeSecond(al);
  }

  method SecondBlock(al: Allocator)
    requires al.Valid() && OneBlock(al.Value()) && 1 in al.txns && 0 in al.chunks
    requires al.chunks[0].taken && !al.chunks[0].freeing
    requires al.txns[1].toFree == [] && al.getter == map[0 := 1]
    modifies al
    ensures al.Valid() && TwoBlocks(al.Value()) && al.chunks[0].taken && !al.chunks[0].freeing && al.getter == map[0 := 1, 1 := 1]
    ensures al.chunks[0] == old(al.chunks)[0] && al.chunks[1] == Chunk(PAGE_SIZE, PAGE_SIZE, 0, true, false)
    ensures al.txns.Keys == old(al.txns.Keys) && al.txns[1].toFree == []
  {
    OneBlockIs(al.Value());
    assert WildOk(al.Value());
    var rc, start, size;
    ghost var id;
    rc, start, size, id := al.AllocBlock(1, 1, PAGE_SIZE, Some(2));
    assert id == 1;
  }

  method FreeSecond(al: Allocator) returns (ghost home: Id)
    requires al.Valid() && TwoBlocks(al.Value()) && 1 in al.txns && al.txns[1] == Txn([], [])
    requires al.chunks[0].taken && !al.chunks[0].freeing && al.chunks[1].taken && al.chunks[1].lastFreed <= 3
    requires 1 in al.getter ==> al.getter[1] == 1
    modifies al
    ensures al.Valid() && home in al.chunks && al.chunks[home].taken && Covers(al.chunks[home], PAGE_SIZE)
    ensures forall x :: x in al.bestfit && x in al.chunks ==> !Covers(al.chunks[x], PAGE_SIZE)
  {
    var r;
    ghost var id;
    r, id := al.FreeBlock(1, 3, PAGE_SIZE);
    assert id == 1;
    ghost var a := al.Value();
    ghost var ids := al.txns[1].toFree;
    assert ids == [1];
    home := SecondIsSwallowed(a, 5);
    var rc := al.OnCommit(1, 5, true);
    assert ids[1..] == [];
    assert al.Value() == FreedTo(a, 1, 5).0;
    assert InPlaceAt(a.chunks, al.chunks, home) && ReleasedAt(al.chunks, 5, 1);
    assert OtherKept(a.chunks, al.chunks, ids, 0);
    forall x | x in al.bestfit && x in al.chunks ensures !Covers(al.chunks[x], PAGE_SIZE) {
      assert Listed(al.bestfit, x);
    }
  }

  /** Freeing the first of the two blocks, while the second is in use, only dates it. */
  lemma FirstIsDated(a: Arena, commitTs: Ts)
    requires Tiled(a) && TwoBlocks(a) && Busy(a.chunks[1])
    ensures FreedTo(a, 0, commitTs) == (Cleared(a, 0, commitTs), 0)
  {
    ClearedTiled(a, 0, commitTs);
    var u := Cleared(a, 0, commitTs);
    assert ChunkOk(a, 0) && ChunkOk(a, 1) && ChunkOk(u, 0);
  }

  /** Freeing the second one then adds its bytes to the first, under the time of the first. */
  lemma SecondJoinsFirst(a: Arena, commitTs: Ts)
    requires Tiled(a) && TwoBlocks(a) && !Busy(a.chunks[0])
    ensures
      var (a', home) := FreedTo(a, 1, commitTs);
      && Tiled(a') && home == 0 && 0 in a'.chunks && a'.chunks[0] == a.chunks[0].(size := 2 * PAGE_SIZE)
      && a'.chunks.Keys <= {0, 2}
  {
    NothingAhead(a, commitTs);
    FreedSwallowed(a, 1, commitTs);
    FreedLeaves(a, 1, commitTs);
    assert ChunkOk(a, 1);
    var (a', home) := FreedTo(a, 1, commitTs);
    FreedReport(a, 1, commitTs, a', home);
    assert ChunkOk(a, 2);
    FreedCoalesced(a, 1, commitTs);
    forall x | x in a'.chunks ensures x in a.chunks && a'.chunks[x].start == a.chunks[x].start {
      assert CoalescedAt(Unflagged(a.chunks, 1, commitTs), a'.chunks, x);
    }
    assert Apart(a', 0, 1);
  }

  /** Transaction 1 frees the block at `off` and commits, at `commitTs`. */
  method FreeOne(al: Allocator, off: nat, id: Id, commitTs: Ts)
    requires al.Valid() && TwoBlocks(al.Value()) && 1 in al.txns && al.txns[1] == Txn([], []) && commitTs != INVALID_TS
    requires id in al.chunks && id < 2 && al.chunks[id].start == off && al.chunks[id].taken && al.chunks[id].lastFreed <= commitTs
    requires id in al.getter ==> al.getter[id] == 1
    modifies al
    ensures al.Valid() && al.txns == old(al.txns) && al.wild == old(al.wild)
    ensures id in old(al.chunks) && Tiled(Marked(old(al.Value()), id))
    ensures al.Value() == FreedTo(Marked(old(al.Value()), id), id, commitTs).0
    ensures forall x :: x in al.getter ==> x in old(al.getter) && al.getter[x] == old(al.getter)[x]
  {
    var r;
    ghost var found;
    r, found := al.FreeBlock(1, commitTs, off);
    assert found == id;
    ghost var a, ids := al.Value(), al.txns[1].toFree;
    assert ids == [id] && a == Marked(old(al.Value()), id);
    var rc := al.OnCommit(1, commitTs, true);
    assert ids[1..] == [];
    assert al.txns == old(al.txns);
  }

  ghost function Marked(a: Arena, id: Id): Arena
    requires id in a.chunks
  {
    a.(chunks := a.chunks[id := a.chunks[id].(taken := false, freeing := true)])
  }

  /** Two neighbouring blocks, the first freed at 3 and the second at 5, with no abort anywhere.
      Merged, both have recorded time 3, and a transaction whose snapshot is at 4 is given them,
      though the second was not yet free there. */
  method OlderNeighbour() returns (al: Allocator, start: nat, size: nat, secondFreedAt: Ts)
    ensures secondFreedAt == 5 && start <= PAGE_SIZE && 2 * PAGE_SIZE <= start + size
    ensures 0 in al.chunks && al.chunks[0] == Chunk(start, size, 3, true, false)
    ensures 2 in al.txns && 0 in al.txns[2].got
  {
    secondFreedAt := 5;
    al := new Allocator({1, 2});
    FirstBlock(al, 1);
    SecondBlock(al);
    var rc := al.OnCommit(1, 2, true);
    FreeBoth(al, secondFreedAt);
    start, size := GetBoth(al);
  }

  method GetBoth(al: Allocator) returns (start: nat, size: nat)
    requires al.Valid() && 2 in al.txns && al.chunks.Keys <= {0, 2} && al.wild == 2
    requires 0 in al.chunks && al.chunks[0] == Chunk(0, 2 * PAGE_SIZE, 3, false, false)
    modifies al
    ensures (start, size) == (0, 2 * PAGE_SIZE) && 0 in al.chunks && al.chunks[0] == Chunk(0, 2 * PAGE_SIZE, 3, true, false)
    ensures al.txns == old(al.txns)[2 := old(al.txns)[2].(got := [0] + old(al.txns)[2].got)]
  {
    assert Listed(al.bestfit, 0) && Listed(al.bestfit, 2);
    var rc;
    ghost var id;
    rc, start, size, id := al.AllocBlock(2, 4, 2 * PAGE_SIZE, Some(1));
    assert id == 0;
  }

  method FreeBoth(al: Allocator, secondFreedAt: Ts)
    requires al.Valid() && TwoBlocks(al.Value()) && 1 in al.txns && al.txns[1] == Txn([], [])
    requires al.chunks[0] == Chunk(0, PAGE_SIZE, 0, true, false) && al.chunks[1] == Chunk(PAGE_SIZE, PAGE_SIZE, 0, true, false)
    requires (0 in al.getter ==> al.getter[0] == 1) && (1 in al.getter ==> al.getter[1] == 1) && secondFreedAt != INVALID_TS
    modifies al
    ensures al.Valid() && al.txns == old(al.txns) && al.wild == 2 && al.chunks.Keys <= {0, 2}
    ensures 0 in al.chunks && al.chunks[0] == Chunk(0, 2 * PAGE_SIZE, 3, false, false)
  {
    FreeOne(al, 0, 0, 3);
    FirstIsDated(Marked(old(al.Value()), 0), 3);
    ghost var a := al.Value();
    FreeOne(al, PAGE_SIZE, 1, secondFreedAt);
    SecondJoinsFirst(Marked(a, 1), secondFreedAt);
  }
}
