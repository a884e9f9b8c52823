/** The kernel's block allocator for one file (kern/alloc): transactions allocate and free
    tentatively until they commit or abort. */
module BlockAllocator {
  import opened Types
  import opened BlockArena

  // ---------------------------------------------------------------- lists

  ghost predicate Distinct(s: seq<Id>) {
    forall i, j :: 0 <= i < j < |s| ==> s[i] != s[j]
  }

  function Without(s: seq<Id>, id: Id): seq<Id> {
    if s == [] then []
    else if s[0] == id then s[1..]
    else [s[0]] + Without(s[1..], id)
  }

  lemma {:induction false} WithoutContents(s: seq<Id>, id: Id)
    requires Distinct(s)
    ensures Distinct(Without(s, id))
    ensures forall x :: x in Without(s, id) <==> x in s && x != id
  {
    if s != [] {
      assert s == [s[0]] + s[1..];
      if s[0] != id {
        WithoutContents(s[1..], id);
        var rest := Without(s[1..], id);
        forall i | 0 <= i < |rest| ensures rest[i] != s[0] {
          assert rest[i] in s[1..];
        }
      }
    }
  }

  /** What is left of a list when merging has removed some of its chunks. */
  function Survivors(s: seq<Id>, chunks: map<Id, Chunk>): seq<Id> {
    if s == [] then []
    else (if s[0] in chunks then [s[0]] else []) + Survivors(s[1..], chunks)
  }

  lemma {:induction false} SurvivorsOfAll(s: seq<Id>, chunks: map<Id, Chunk>)
    requires forall x :: x in s ==> x in chunks
    ensures Survivors(s, chunks) == s
  {
    if s != [] {
      assert s[0] in s;
      SurvivorsOfAll(s[1..], chunks);
    }
  }

  lemma {:induction false} SurvivorsTwice(s: seq<Id>, c1: map<Id, Chunk>, c2: map<Id, Chunk>)
    requires c2.Keys <= c1.Keys
    ensures Survivors(Survivors(s, c1), c2) == Survivors(s, c2)
  {
    if s != [] {
      SurvivorsTwice(s[1..], c1, c2);
      var rest := Survivors(s[1..], c1);
      if s[0] in c1 {
        assert ([s[0]] + rest)[1..] == rest;
      } else {
        assert [] + rest == rest && [] + Survivors(s[1..], c2) == Survivors(s[1..], c2);
      }
    }
  }

  lemma {:induction false} SurvivorsWithout(s: seq<Id>, chunks: map<Id, Chunk>, n: Id)
    requires Distinct(s) && n !in chunks && forall x :: x in s && x != n ==> x in chunks
    ensures Without(s, n) == Survivors(s, chunks)
  {
    if s != [] {
      assert s[0] in s;
      if s[0] == n {
        SurvivorsOfAll(s[1..], chunks);
      } else {
        SurvivorsWithout(s[1..], chunks, n);
      }
    }
  }

  /** What a transaction has allocated and what it is going to free. */
  datatype Txn = Txn(got: seq<Id>, toFree: seq<Id>)

  /** The free list is exactly the unflagged chunks. */
  ghost predicate FreeListOk(chunks: map<Id, Chunk>, bestfit: seq<Id>) {
    && Distinct(bestfit)
    && forall id {:trigger Listed(bestfit, id)} :: Listed(bestfit, id) <==> id in chunks && !Busy(chunks[id])
  }

  predicate Listed(s: seq<Id>, id: Id) {
    id in s
  }

  ghost predicate ListOf(s: seq<Id>, owner: map<Id, Tid>, t: Tid) {
    Distinct(s) && forall id {:trigger Listed(s, id)} :: Listed(s, id) <==> id in owner && owner[id] == t
  }

  ghost predicate TxnOk(txn: Txn, freer: map<Id, Tid>, getter: map<Id, Tid>, t: Tid) {
    ListOf(txn.got, getter, t) && ListOf(txn.toFree, freer, t)
  }

  /** `freer` and `getter` say which transaction is freeing or has allocated a chunk. A
      chunk in `limbo` has left the lists but still carries its flags. */
  ghost predicate OwnerOk(chunks: map<Id, Chunk>, freer: map<Id, Tid>, getter: map<Id, Tid>, limbo: set<Id>, id: Id) {
    && (id in freer <==> id in chunks && chunks[id].freeing && !chunks[id].taken && id !in limbo)
    && (id in getter ==> id in chunks && (chunks[id].taken || (id in freer && freer[id] == getter[id])) && id !in limbo)
  }

  ghost predicate OwnersOk(chunks: map<Id, Chunk>, freer: map<Id, Tid>, getter: map<Id, Tid>, limbo: set<Id>) {
    forall id {:trigger OwnerOk(chunks, freer, getter, limbo, id)} :: OwnerOk(chunks, freer, getter, limbo, id)
  }

  ghost predicate NoneFits(chunks: map<Id, Chunk>, ids: seq<Id>, wild: Id, ts: Ts, req: nat) {
    forall k :: 0 <= k < |ids| && ids[k] in chunks && ids[k] != wild ==>
      chunks[ids[k]].size < req || !FreeVisible(chunks[ids[k]], ts)
  }

  lemma AllListed(chunks: map<Id, Chunk>, bestfit: seq<Id>)
    requires FreeListOk(chunks, bestfit)
    ensures (forall x :: x in bestfit ==> x in chunks) && Survivors(bestfit, chunks) == bestfit
  {
    forall x | x in bestfit ensures x in chunks {
      assert Listed(bestfit, x);
    }
    SurvivorsOfAll(bestfit, chunks);
  }

  /** Merging in two stretches. */
  lemma SurvivorsOn(s: seq<Id>, c0: map<Id, Chunk>, c1: map<Id, Chunk>, c2: map<Id, Chunk>)
    requires Coalesced(c0, c1) && Coalesced(c1, c2)
    ensures Coalesced(c0, c2) && Survivors(Survivors(s, c1), c2) == Survivors(s, c2)
  {
    CoalescedTrans(c0, c1, c2);
    forall x | x in c2 ensures x in c1 {
      assert CoalescedAt(c1, c2, x);
    }
    SurvivorsTwice(s, c1, c2);
  }

  /** The first listed chunk that fits and is visible, and the wilderness only if none is. */
  ghost predicate FirstFit(chunks: map<Id, Chunk>, bestfit: seq<Id>, wild: Id, ts: Ts, req: nat, id: Id) {
    if id == wild then NoneFits(chunks, bestfit, wild, ts, req)
    else exists i :: 0 <= i < |bestfit| && bestfit[i] == id && NoneFits(chunks, bestfit[..i], wild, ts, req)
  }

  datatype FreeRc = Freeing | Doomed | NoChunk

  /** `memory` says that the kernel heap does not run out during a call; without it, any page
      record may fail to be allocated. */
  class Allocator {
    var chunks: map<Id, Chunk>
    var tags: map<nat, PgInfo>
    var bestfit: seq<Id>
    var txns: map<Tid, Txn>
    ghost var wild: Id
    ghost var freer: map<Id, Tid>
    ghost var getter: map<Id, Tid>
    ghost var stolen: set<Id>          // allocated by one running transaction, freed by another

    ghost function Value(): Arena
      reads this
    {
      Arena(chunks, tags, wild)
    }

    ghost predicate ValidBut(limbo: set<Id>)
      reads this
    {
      && Tiled(Value()) && FreeListOk(chunks, bestfit)
      && OwnersOk(chunks, freer, Mine(), limbo)
      && TxnsOk(txns, freer, getter)
    }

    /** The allocations nobody else has interfered with. */
    ghost function Mine(): map<Id, Tid>
      reads this
    {
      getter - stolen
    }

    /** In order, but for blocks that were freed behind their allocator's back. */
    ghost predicate Sound()
      reads this
    {
      ValidBut({})
    }

    ghost predicate Valid()
      reads this
    {
      Sound() && stolen == {}
    }

    /** A fresh file: one wilderness chunk. */
    constructor (threads: set<Tid>)
      ensures Valid() && Value() == FreshArena()
      ensures txns == (map t | t in threads :: Txn([], [])) && getter == map[]
    {
      chunks := map[0 := Chunk(0, WILD, 0, false, false)];
      tags := map[0 := PgInfo(0, None, Some(0))];
      bestfit := [0];
      txns := map t | t in threads :: Txn([], []);
      wild, freer, getter, stolen := 0, map[], map[], {};
    }

    /** sivfs_coalesce_with_next: absorb the chunk behind, if it is free, bounded and within
        the budget. Page records may fail to be allocated, before anything is changed. */
    method CoalesceNext(id: Id, budget: nat, memory: bool, ghost limbo: set<Id>) returns (rc: Rc, did: bool, left: nat)
      requires ValidBut(limbo) && id in chunks && chunks[id].size != WILD
      modifies this`chunks, this`tags, this`bestfit
      ensures memory ==> rc == Ok
      ensures ValidBut(limbo) && Coalesced(old(chunks), chunks)
      ensures rc != Ok ==> !did
      ensures !did ==> chunks == old(chunks) && tags == old(tags) && bestfit == old(bestfit) && left == budget
      ensures rc == Ok ==> (did <==> CanMerge(old(Value()), id, budget))
      ensures did ==> MergedNext(old(Value()), Value(), id, budget, left)
      ensures bestfit == Survivors(old(bestfit), chunks)
    {
      rc, did, left := Ok, false, budget;
      AllListed(chunks, bestfit);
      assert ChunkOk(Value(), id);
      var outOfMemory: bool := *;
      if outOfMemory && !memory {
        return ENoMem, false, budget;
      }
      var boundary := chunks[id].start + chunks[id].size;
      var next := TagAt(tags, PageOf(boundary)).starts;
      if next.None? {
        assert false;
        return;
      }
      var n := next.value;
      if Busy(chunks[n]) || chunks[n].size == WILD || chunks[n].size > budget {
        return;
      }
      did, left := true, budget - chunks[n].size;
      Absorb(id, n, budget, limbo);
    }

    /** The merging step itself. */
    method Absorb(id: Id, n: Id, ghost budget: nat, ghost limbo: set<Id>)
      requires ValidBut(limbo) && MergeReady(Value(), id, n) && chunks[n].size <= budget
      modifies this`chunks, this`tags, this`bestfit
      ensures ValidBut(limbo) && Coalesced(old(chunks), chunks)
      ensures MergedNext(old(Value()), Value(), id, budget, budget - old(chunks)[n].size)
      ensures bestfit == Survivors(old(bestfit), chunks)
    {
      ghost var a := Value();
      MergeFacts(a, id, n);
      MergeDone(a, id, n, budget);
      MergeLists(chunks, Merge(a, id, n).chunks, bestfit, freer, Mine(), limbo, id, n);
      var boundary := chunks[id].start + chunks[id].size;
      var end := chunks[n].start + chunks[n].size;
      tags := tags[PageOf(boundary) := PgInfo(NO_BOUNDARY, None, None)];
      tags := tags[PageOf(end) := TagAt(tags, PageOf(end)).(ends := Some(id))];
      chunks := (chunks - {n})[id := chunks[id].(size := chunks[id].size + chunks[n].size)];
      bestfit := Without(bestfit, n);
      AllListed(old(chunks), old(bestfit));
      SurvivorsWithout(old(bestfit), chunks, n);
      assert Value() == Merge(a, id, n);
    }

    /** The forward loop: absorbs bounded free neighbours, byte for byte against the budget. */
    method CoalesceForward(id: Id, budget: nat, memory: bool, ghost limbo: set<Id>) returns (rc: Rc, left: nat)
      requires ValidBut(limbo) && id in chunks && chunks[id].size != WILD
      modifies this`chunks, this`tags, this`bestfit
      ensures memory ==> rc == Ok
      ensures ValidBut(limbo) && Coalesced(old(chunks), chunks)
      ensures id in chunks && chunks[id] == old(chunks)[id].(size := chunks[id].size) && chunks[id].size != WILD
      ensures chunks[id].size + left == old(chunks)[id].size + budget && left <= budget
      ensures rc == Ok ==> (Value(), left) == Ahead(old(Value()), id, budget)
      ensures bestfit == Survivors(old(bestfit), chunks)
    {
      rc, left := Ok, budget;
      var did := true;
      AllListed(chunks, bestfit);
      while did
        invariant bestfit == Survivors(old(bestfit), chunks)
        invariant ValidBut(limbo) && Coalesced(old(chunks), chunks)
        invariant id in chunks && chunks[id] == old(chunks)[id].(size := chunks[id].size) && chunks[id].size != WILD
        invariant chunks[id].size + left == old(chunks)[id].size + budget && left <= budget
        invariant rc == Ok && Ahead(Value(), id, left) == Ahead(old(Value()), id, budget)
        invariant !did ==> !CanMerge(Value(), id, left)
        decreases |chunks|, did
      {
        ghost var before := chunks;
        rc, did, left := ForwardRound(id, left, memory, limbo);
        SurvivorsOn(old(bestfit), old(chunks), before, chunks);
        if rc != Ok {
          return;
        }
      }
    }

    method ForwardRound(id: Id, budget: nat, memory: bool, ghost limbo: set<Id>) returns (rc: Rc, did: bool, left: nat)
      requires ValidBut(limbo) && id in chunks && chunks[id].size != WILD
      modifies this`chunks, this`tags, this`bestfit
      ensures memory ==> rc == Ok
      ensures ValidBut(limbo) && Coalesced(old(chunks), chunks) && (did ==> |chunks| < |old(chunks)|)
      ensures !did ==> chunks == old(chunks)
      ensures id in chunks && chunks[id] == old(chunks)[id].(size := chunks[id].size) && chunks[id].size != WILD
      ensures chunks[id].size + left == old(chunks)[id].size + budget && left <= budget
      ensures rc == Ok ==> Ahead(Value(), id, left) == Ahead(old(Value()), id, budget)
      ensures rc == Ok && !did ==> !CanMerge(Value(), id, left)
      ensures bestfit == Survivors(old(bestfit), chunks)
    {
      rc, did, left := CoalesceNext(id, budget, memory, limbo);
      if did {
        MergedBounded(Value(), id);
        AheadStep(old(Value()), Value(), id, budget, left);
      }
    }

    /** sivfs_coalesce_with_prev: let the chunk in front absorb this one. */
    method CoalescePrev(id: Id, budget: nat, memory: bool, ghost limbo: set<Id>) returns (rc: Rc, into: Option<Id>, left: nat)
      requires ValidBut(limbo) && id in chunks && chunks[id].size != WILD
      modifies this`chunks, this`tags, this`bestfit
      ensures memory ==> rc == Ok
      ensures ValidBut(limbo) && Coalesced(old(chunks), chunks)
      ensures into.None? ==> chunks == old(chunks)
      ensures into.Some? ==>
        && rc == Ok && |chunks| < |old(chunks)| && into.value in chunks
        && chunks[into.value].start < old(chunks)[id].start && End(chunks[into.value]) == End(old(chunks)[id])
        && chunks[into.value].size != WILD
      ensures into.None? ==> Value() == old(Value()) && left == budget
      ensures rc == Ok ==> if into.None? then Back(old(Value()), id, budget) == (Value(), id)
                           else Back(old(Value()), id, budget) == Back(Value(), into.value, left)
      ensures bestfit == Survivors(old(bestfit), chunks)
    {
      into, left := None, budget;
      AllListed(chunks, bestfit);
      assert ChunkOk(Value(), id);
      var outOfMemory: bool := *;
      if outOfMemory && !memory {
        return ENoMem, into, left;
      }
      var prev := TagAt(tags, PageOf(chunks[id].start)).ends;
      if prev.None? {
        return Ok, into, left;
      }
      assert ChunkOk(Value(), prev.value);
      PrevMerges(Value(), id, prev.value);
      var did;
      rc, did, left := CoalesceNext(prev.value, budget, memory, limbo);
      if did {
        MergedBounded(Value(), prev.value);
        into := prev;
      }
    }

    /** _sivfs_free_block: clear the flags, list the chunk, merge it with its neighbours.
        Whatever fails on the way, the allocator stays in order; `home` is where the bytes
        ended up. */
    method FreeReal(id: Id, commitTs: Ts, memory: bool) returns (rc: Rc, ghost home: Id)
      requires ValidBut({id}) && id in chunks && Busy(chunks[id])
      modifies this`chunks, this`tags, this`bestfit
      ensures memory ==> rc == Ok
      ensures Sound() && Tiled(old(Value())) && id != wild
      ensures Coalesced(Unflagged(old(chunks), id, commitTs), chunks)
      ensures home in chunks && chunks[home].size != WILD
      ensures chunks[home].start <= old(chunks)[id].start && End(old(chunks)[id]) <= End(chunks[home])
      ensures End(chunks[home]) <= End(old(chunks)[id]) + 4 * old(chunks)[id].size
      ensures rc == Ok ==> (Value(), home) == FreedTo(old(Value()), id, commitTs)
      ensures bestfit == Survivors([id] + old(bestfit), chunks)
      ensures rc == Ok ==> RestsIn(old(Value()), id, Value(), home)
      ensures home in old(chunks) && chunks[home].lastFreed ==
        if home == id && commitTs != INVALID_TS then commitTs else old(chunks)[home].lastFreed
    {
      assert id != wild by { assert ChunkOk(Value(), id); }
      ClearFlags(id, commitTs);
      rc, home := CoalesceBoth(id, memory);
      assert CoalescedAt(Unflagged(old(chunks), id, commitTs), chunks, home);
      if rc == Ok {
        FreedIsMerged(old(Value()), id, commitTs, Value(), home);
        FreedReport(old(Value()), id, commitTs, Value(), home);
      }
    }

    /** Date the chunk, clear its flags and put it on the free list. */
    method ClearFlags(id: Id, commitTs: Ts)
      requires ValidBut({id}) && id in chunks && Busy(chunks[id])
      modifies this`chunks, this`bestfit
      ensures Sound() && Value() == Cleared(old(Value()), id, commitTs) && chunks[id].size != WILD
      ensures bestfit == [id] + old(bestfit)
    {
      assert id != wild && chunks[id].size != WILD by { assert ChunkOk(Value(), id); }
      ClearedTiled(Value(), id, commitTs);
      FreeLists(chunks, bestfit, freer, Mine(), id, commitTs);
      if commitTs != INVALID_TS {
        chunks := chunks[id := chunks[id].(lastFreed := commitTs)];
      }
      chunks := chunks[id := chunks[id].(taken := false, freeing := false)];
      bestfit := [id] + bestfit;
      assert Value() == Cleared(old(Value()), id, commitTs);
    }

    /** Merge a freed chunk both ways, absorbing at most four times its size. */
    method CoalesceBoth(id: Id, memory: bool) returns (rc: Rc, ghost home: Id)
      requires Sound() && id in chunks && chunks[id].size != WILD && !Busy(chunks[id])
      modifies this`chunks, this`tags, this`bestfit
      ensures memory ==> rc == Ok
      ensures Sound() && Coalesced(old(chunks), chunks)
      ensures home in chunks && chunks[home].size != WILD
      ensures chunks[home].start <= old(chunks)[id].start && End(old(chunks)[id]) <= End(chunks[home])
      ensures End(chunks[home]) <= End(old(chunks)[id]) + 4 * old(chunks)[id].size
      ensures rc == Ok ==> MergedBoth(old(Value()), id, Value(), home)
      ensures bestfit == Survivors(old(bestfit), chunks)
    {
      home := id;
      var left;
      rc, left := CoalesceForward(id, 4 * chunks[id].size, memory, {});
      if rc == Ok {
        ghost var before := chunks;
        rc, home := CoalesceBackward(id, left, memory);
        SurvivorsOn(old(bestfit), old(chunks), before, chunks);
      }
    }

    /** The backward loop. It ends at the first busy chunk, having merged into it. */
    method CoalesceBackward(id: Id, budget: nat, memory: bool) returns (rc: Rc, ghost home: Id)
      requires Sound() && id in chunks && chunks[id].size != WILD && !Busy(chunks[id])
      modifies this`chunks, this`tags, this`bestfit
      ensures memory ==> rc == Ok
      ensures Sound() && Coalesced(old(chunks), chunks)
      ensures home in chunks && chunks[home].size != WILD
      ensures chunks[home].start <= old(chunks)[id].start && End(old(chunks)[id]) == End(chunks[home])
      ensures rc == Ok ==> (Value(), home) == Back(old(Value()), id, budget)
      ensures bestfit == Survivors(old(bestfit), chunks)
    {
      AllListed(chunks, bestfit);
      var cur := id;
      var left := budget;
      home := id;
      rc := Ok;
      while true
        invariant bestfit == Survivors(old(bestfit), chunks)
        invariant Sound() && Coalesced(old(chunks), chunks)
        invariant home == cur && cur in chunks && chunks[cur].size != WILD
        invariant chunks[cur].start <= old(chunks)[id].start && End(old(chunks)[id]) == End(chunks[cur])
        invariant Back(Value(), cur, left) == Back(old(Value()), id, budget)
        decreases |chunks|
      {
        ghost var before := chunks;
        var into;
        rc, into, left := CoalescePrev(cur, left, memory, {});
        SurvivorsOn(old(bestfit), old(chunks), before, chunks);
        if rc != Ok || into.None? {
          return;
        }
        cur := into.value;
        home := cur;
      }
    }

    /** First fit among the visible free chunks; the wilderness only if nothing else fits. */
    method FindChunk(ts: Ts, req: nat) returns (id: Id)
      requires Sound() && req <= MAX_BLOCK
      ensures id in chunks && !Busy(chunks[id]) && req <= chunks[id].size && chunks[id].lastFreed <= ts && Listed(bestfit, id)
      ensures FirstFit(chunks, bestfit, wild, ts, req, id)
    {
      assert Listed(bestfit, wild);
      forall x | x in bestfit ensures x in chunks && !Busy(chunks[x]) && (chunks[x].size == WILD ==> x == wild) {
        assert Listed(bestfit, x) && ChunkOk(Value(), x);
      }
      var wilderness: Option<Id> := None;
      var i := 0;
      while i < |bestfit|
        invariant 0 <= i <= |bestfit|
        invariant wilderness == if exists k :: 0 <= k < i && bestfit[k] == wild then Some(wild) else None
        invariant forall k :: 0 <= k < i && bestfit[k] != wild ==>
          chunks[bestfit[k]].size < req || !FreeVisible(chunks[bestfit[k]], ts)
      {
        var c := chunks[bestfit[i]];
        assert Listed(bestfit, bestfit[i]);
        if c.size >= req {
          if c.size == WILD {
            wilderness := Some(bestfit[i]);
          } else if FreeVisible(c, ts) {
            assert NoneFits(chunks, bestfit[..i], wild, ts, req);
            return bestfit[i];
          }
        }
        i := i + 1;
      }
      id := wilderness.value;
    }

    /** Mark the chunk allocated and move it to the transaction's list. */
    method Take(t: Tid, id: Id)
      requires FreeListOk(chunks, bestfit) && OwnersOk(chunks, freer, Mine(), {}) && t in txns
      requires TxnsOk(txns, freer, getter)
      requires id in chunks && !Busy(chunks[id])
      modifies this`chunks, this`bestfit, this`txns, this`getter
      ensures chunks == old(chunks)[id := old(chunks)[id].(taken := true)]
      ensures FreeListOk(chunks, bestfit) && OwnersOk(chunks, freer, Mine(), {})
      ensures id !in old(getter) ==> TxnsOk(txns, freer, getter)
      ensures txns == old(txns)[t := old(txns)[t].(got := [id] + old(txns)[t].got)]
      ensures getter == old(getter)[id := t] && bestfit == Without(old(bestfit), id)
    {
      TakeLists(chunks, bestfit, freer, Mine(), id, t);
      if id !in getter {
        TakeTxns(txns, freer, getter, id, t);
      }
      bestfit := Without(bestfit, id);
      txns := txns[t := txns[t].(got := [id] + txns[t].got)];
      getter := getter[id := t];
      chunks := chunks[id := chunks[id].(taken := true)];
      OwnersFewer(chunks, freer, old(Mine())[id := t], Mine(), {});
    }

    /** The splitting step of sivfs_alloc_block; offsets wrap around. */
    method SplitOff(id: Id, req: nat, spare: Id)
      requires Sound() && SplitMay(Value(), id, req, spare)
      modifies this`chunks, this`tags, this`bestfit, this`wild
      ensures Value() == Split(old(Value()), id, req, spare)
      ensures FreeListOk(chunks, bestfit) && OwnersOk(chunks, freer, Mine(), {}) && bestfit == [spare] + old(bestfit)
    {
      SplitLists(Value(), bestfit, freer, Mine(), id, req, spare);
      var c := chunks[id];
      var boundary := (c.start + req) % OFFSET_SPAN;
      chunks := chunks[id := c.(size := req)];
      chunks := chunks[spare := Chunk(boundary, if c.size != WILD then c.size - req else c.size, c.lastFreed, c.taken, c.freeing)];
      tags := tags[PageOf(boundary) := PgInfo(boundary % PAGE_SIZE, Some(id), Some(spare))];
      if c.size != WILD {
        tags := tags[PageOf(End(c)) := TagAt(tags, PageOf(End(c))).(ends := Some(spare))];
      } else {
        wild := spare;
      }
      bestfit := [spare] + bestfit;
    }

    /** sivfs_alloc_block. `kmem` is what the kernel heap returned. A request is always met by a
        chunk whose recorded timestamp is at most `ts`, with no more than a page to spare. The
        tiling survives exactly when the chosen chunk is handed out whole or cleanly cut, so
        for a page or more as long as file offsets last. */
    method AllocBlock(t: Tid, ts: Ts, req: nat, kmem: Option<Id>) returns (rc: Rc, start: nat, size: nat, ghost id: Id)
      requires Sound() && t in txns && (kmem.Some? ==> kmem.value !in chunks)
      modifies this
      ensures rc == EInval <==> req > MAX_BLOCK || req % WORD_SIZE != 0
      ensures rc == ENoMem ==> kmem.None? && id in old(chunks) && old(chunks)[id].size > req + PAGE_SIZE
      ensures rc != EInval ==> FirstFit(old(chunks), old(bestfit), old(wild), ts, req, id)
      ensures rc != Ok ==> Sound() && Value() == old(Value()) && txns == old(txns) && stolen == old(stolen)
      ensures rc == Ok ==>
        && id in old(chunks) && !Busy(old(chunks)[id]) && old(chunks)[id].lastFreed <= ts
        && id in chunks && chunks[id] == Chunk(start, size, old(chunks)[id].lastFreed, true, false)
        && start == old(chunks)[id].start && size <= old(chunks)[id].size
        && req <= size <= req + PAGE_SIZE
        && size == (if old(chunks)[id].size > req + PAGE_SIZE then req else old(chunks)[id].size)
        && txns == old(txns)[t := old(txns)[t].(got := [id] + old(txns)[t].got)]
        && (forall x :: x in old(chunks) && x != id ==> x in chunks && chunks[x] == old(chunks)[x])
        && (if old(chunks)[id].size > req + PAGE_SIZE then
              && kmem.Some? && chunks.Keys == old(chunks).Keys + {kmem.value}
              && bestfit == [kmem.value] + Without(old(bestfit), id)
              && chunks[kmem.value] == Chunk((start + req) % OFFSET_SPAN,
                   if old(chunks)[id].size == WILD then WILD else old(chunks)[id].size - req, old(chunks)[id].lastFreed, false, false)
            else chunks.Keys == old(chunks).Keys && bestfit == Without(old(bestfit), id))
      ensures rc == Ok ==> Value() == Taken(
        if old(chunks)[id].size > req + PAGE_SIZE && kmem.Some? then Split(old(Value()), id, req, kmem.value) else old(Value()), id)
      ensures rc == Ok ==>
        (Tiled(Value()) <==> old(chunks)[id].size <= req + PAGE_SIZE || CleanCut(old(chunks)[id], req))
      ensures rc == Ok && Tiled(Value()) ==> SameTimes(old(chunks), chunks)
      ensures rc == Ok && Tiled(Value()) && id !in old(getter) ==> Sound()
      ensures rc == Ok && old(Valid()) ==> (Valid() <==> Tiled(Value()))
      ensures rc == Ok && old(Valid()) && req >= PAGE_SIZE && start + req < WILD ==> Valid()
      ensures stolen == old(stolen) && freer == old(freer) && (rc == Ok ==> getter == old(getter)[id := t])
    {
      start, size, id := 0, 0, 0;
      if req > MAX_BLOCK || req % WORD_SIZE != 0 {
        return EInval, start, size, id;
      }
      var cur := FindChunk(ts, req);
      id := cur;
      if chunks[cur].size > req + PAGE_SIZE && kmem.None? {
        return ENoMem, start, size, id;
      }
      Carve(t, cur, req, kmem);
      rc, start, size := Ok, chunks[cur].start, chunks[cur].size;
    }

    /** Hand out chunk `id`, cut down to the request if it has more than a page to spare. */
    method Carve(t: Tid, id: Id, req: nat, kmem: Option<Id>)
      requires Sound() && t in txns && (kmem.Some? ==> kmem.value !in chunks)
      requires id in chunks && !Busy(chunks[id]) && req <= chunks[id].size && req <= MAX_BLOCK && req % WORD_SIZE == 0
      requires chunks[id].size > req + PAGE_SIZE ==> kmem.Some?
      modifies this
      ensures Value() == Taken(
        if old(chunks)[id].size > req + PAGE_SIZE && kmem.Some? then Split(old(Value()), id, req, kmem.value) else old(Value()), id)
      ensures Tiled(Value()) <==> old(chunks)[id].size <= req + PAGE_SIZE || CleanCut(old(chunks)[id], req)
      ensures Tiled(Value()) ==> SameTimes(old(chunks), chunks)
      ensures bestfit == (if old(chunks)[id].size > req + PAGE_SIZE && kmem.Some? then [kmem.value] else []) + Without(old(bestfit), id)
      ensures txns == old(txns)[t := old(txns)[t].(got := [id] + old(txns)[t].got)]
      ensures stolen == old(stolen) && freer == old(freer) && getter == old(getter)[id := t]
      ensures Tiled(Value()) && id !in old(getter) ==> Sound()
      ensures old(Valid()) ==> (Valid() <==> Tiled(Value()))
    {
      assert ChunkOk(Value(), id) && OwnerOk(chunks, freer, Mine(), {}, id);
      if chunks[id].size > req + PAGE_SIZE {
        SplitTiled(Value(), id, req, kmem.value);
        SplitOff(id, req, kmem.value);
      }
      ghost var a := Value();
      Take(t, id);
      TakenTiled(a, id);
      if Tiled(Value()) {
        CarvedTimes(old(Value()), id, req, kmem);
      }
    }

    /** sivfs_free_block: a tentative free, refused (and the transaction doomed) unless an
        allocated chunk visible at `ts` starts exactly there. Nothing looks at who allocated
        the chunk: freeing one that another running transaction has allocated is accepted, and
        is exactly what the invariant does not survive. A page that never held a boundary reads
        as boundary 0 with no chunk, which the source goes on to dereference. */
    method FreeBlock(t: Tid, ts: Ts, off: nat) returns (r: FreeRc, ghost id: Id)
      requires Sound() && t in txns
      modifies this`chunks, this`txns, this`freer, this`stolen
      ensures Sound()
      ensures r == Freeing <==>
        exists x :: x in old(chunks) && old(chunks)[x].start == off && old(chunks)[x].taken && old(chunks)[x].lastFreed <= ts
      ensures r == Freeing ==>
        && id in old(chunks) && old(chunks)[id].start == off
        && chunks == old(chunks)[id := old(chunks)[id].(taken := false, freeing := true)]
        && txns == old(txns)[t := old(txns)[t].(toFree := [id] + old(txns)[t].toFree)]
      ensures r == Freeing ==> stolen == old(stolen) + (if id in getter && getter[id] != t then {id} else {})
      ensures r == Freeing && old(Valid()) ==>
        && (Valid() <==> (id in getter ==> getter[id] == t))
        && (OwnersOk(chunks, freer, getter, {}) <==> (id in getter ==> getter[id] == t))
      ensures r != Freeing ==> chunks == old(chunks) && txns == old(txns) && stolen == old(stolen)
      ensures r == NoChunk <==> Tag(old(Value()), off).starts.None? && Tag(old(Value()), off).boundary == off % PAGE_SIZE
      ensures r == NoChunk ==> off % PAGE_SIZE == 0 && forall x :: x in chunks ==> chunks[x].start != off
    {
      id := 0;
      var pg := TagAt(tags, PageOf(off));
      assert TagOk(Value(), PageOf(off));
      forall x | x in chunks && chunks[x].start == off ensures pg.starts == Some(x) && pg.boundary == off % PAGE_SIZE {
        assert ChunkOk(Value(), x);
      }
      if pg.boundary == NO_BOUNDARY || pg.boundary != off % PAGE_SIZE {
        return Doomed, id;
      }
      if pg.starts.None? {
        return NoChunk, id;
      }
      var cur := pg.starts.value;
      id := cur;
      StartsThere(Value(), off);
      if !chunks[cur].taken || chunks[cur].lastFreed > ts {
        return Doomed, id;
      }
      SetFreeing(t, cur);
      r := Freeing;
    }

    method SetFreeing(t: Tid, id: Id)
      requires Sound() && t in txns && id in chunks && chunks[id].taken
      modifies this`chunks, this`txns, this`freer, this`stolen
      ensures Sound()
      ensures chunks == old(chunks)[id := old(chunks)[id].(taken := false, freeing := true)]
      ensures txns == old(txns)[t := old(txns)[t].(toFree := [id] + old(txns)[t].toFree)]
      ensures stolen == old(stolen) + (if id in getter && getter[id] != t then {id} else {})
      ensures OwnersOk(chunks, freer, getter, {}) ==> (id in getter ==> getter[id] == t)
      ensures stolen == {} ==> OwnersOk(chunks, freer, getter, {})
    {
      assert id != wild;
      ghost var stolen' := stolen + (if id in getter && getter[id] != t then {id} else {});
      ReflagTiled(Value(), id, chunks[id].lastFreed, false, true);
      OwnersFewer(chunks, freer, Mine(), getter - stolen', {});
      FreeingLists(chunks, bestfit, freer, getter - stolen', id, t);
      FreeingTxns(txns, chunks, freer, getter, Mine(), id, t);
      chunks := chunks[id := chunks[id].(taken := false, freeing := true)];
      txns := txns[t := txns[t].(toFree := [id] + txns[t].toFree)];
      freer := freer[id := t];
      stolen := stolen';
      assert Value() == Reflag(old(Value()), id, old(chunks)[id].lastFreed, false, true);
      if OwnersOk(chunks, freer, getter, {}) {
        assert OwnerOk(chunks, freer, getter, {}, id);
      }
      assert stolen == {} ==> Mine() == getter;
    }

    /** Take a chunk off the transaction's list of frees. */
    method PopToFree(t: Tid) returns (id: Id)
      requires Sound() && t in txns && txns[t].toFree != []
      modifies this`txns, this`freer
      ensures id == old(txns)[t].toFree[0] && txns == old(txns)[t := old(txns)[t].(toFree := old(txns)[t].toFree[1..])]
      ensures id in chunks && chunks[id].freeing && !chunks[id].taken && freer == old(freer) - {id} && id != wild
      ensures Tiled(Value()) && FreeListOk(chunks, bestfit) && TxnsOk(txns, freer, getter)
      ensures id !in Mine() ==> ValidBut({id})
    {
      id := txns[t].toFree[0];
      PopFreer(txns, chunks, freer, getter, Mine(), t);
      txns := txns[t := txns[t].(toFree := txns[t].toFree[1..])];
      freer := freer - {id};
    }

    /** Take a chunk off the transaction's list of allocations. */
    method PopGot(t: Tid) returns (id: Id)
      requires Sound() && t in txns && txns[t].got != []
      modifies this`txns, this`getter, this`stolen
      ensures id == old(txns)[t].got[0] && txns == old(txns)[t := old(txns)[t].(got := old(txns)[t].got[1..])]
      ensures getter == old(getter) - {id} && stolen == old(stolen) - {id}
      ensures Sound()
      ensures id !in old(stolen) ==> id in chunks && Busy(chunks[id]) && (id !in freer ==> ValidBut({id}))
    {
      id := txns[t].got[0];
      PopGetter(txns, chunks, freer, getter, Mine(), t);
      txns := txns[t := txns[t].(got := txns[t].got[1..])];
      getter := getter - {id};
      stolen := stolen - {id};
      assert Mine() == old(Mine()) - {id};
    }

    /** Commit hook: forget the allocations, carry out the frees. */
    method OnCommit(t: Tid, commitTs: Ts, memory: bool) returns (rc: Rc)
      requires Sound() && t in txns
      modifies this
      ensures memory ==> rc == Ok
      ensures Sound() && wild == old(wild) && stolen <= old(stolen) && (old(Valid()) ==> Valid())
      ensures rc == Ok ==> txns == old(txns)[t := Txn([], [])]
      ensures OthersKept(old(chunks), chunks, old(txns)[t].toFree) && InPlace(old(chunks), chunks)
      ensures rc == Ok ==> Released(chunks, old(txns)[t].toFree, [], commitTs)
      ensures rc == Ok ==> Value() == FreedAll(old(Value()), old(txns)[t].toFree, commitTs)
      ensures forall x :: x in getter ==> x in old(getter) && getter[x] == old(getter)[x]
    {
      rc := Ok;
      ForgetGot(t);
      while txns[t].toFree != []
        invariant Sound() && t in txns && wild == old(wild) && stolen <= old(stolen)
        invariant forall x :: x in getter ==> x in old(getter) && getter[x] == old(getter)[x]
        invariant rc == Ok && txns == old(txns)[t := Txn([], txns[t].toFree)]
        invariant forall x :: x in txns[t].toFree ==> x in old(txns)[t].toFree
        invariant OthersKept(old(chunks), chunks, old(txns)[t].toFree) && InPlace(old(chunks), chunks)
        invariant Released(chunks, old(txns)[t].toFree, txns[t].toFree, commitTs)
        invariant FreedAll(Value(), txns[t].toFree, commitTs) == FreedAll(old(Value()), old(txns)[t].toFree, commitTs)
        decreases |txns[t].toFree|
      {
        rc := FreeNext(t, commitTs, memory, old(chunks), old(txns)[t].toFree);
        if rc != Ok {
          return EInval;
        }
      }
    }

    method ForgetGot(t: Tid)
      requires Sound() && t in txns
      modifies this`txns, this`getter, this`stolen
      ensures Sound() && stolen <= old(stolen) && txns == old(txns)[t := old(txns)[t].(got := [])]
      ensures forall x :: x in getter ==> x in old(getter) && getter[x] == old(getter)[x]
    {
      while txns[t].got != []
        invariant Sound() && t in txns && txns == old(txns)[t := Txn(txns[t].got, old(txns)[t].toFree)]
        invariant stolen <= old(stolen) && forall x :: x in getter ==> x in old(getter) && getter[x] == old(getter)[x]
        decreases |txns[t].got|
      {
        var id := PopGot(t);
      }
    }

    /** Carry out the first free on the transaction's list. */
    method FreeNext(t: Tid, commitTs: Ts, memory: bool, ghost was: map<Id, Chunk>, ghost ids: seq<Id>) returns (rc: Rc)
      requires Sound() && t in txns && txns[t].got == [] && txns[t].toFree != [] && txns[t].toFree[0] in ids
      requires OthersKept(was, chunks, ids) && InPlace(was, chunks) && Released(chunks, ids, txns[t].toFree, commitTs)
      modifies this`chunks, this`tags, this`bestfit, this`txns, this`freer
      ensures memory ==> rc == Ok
      ensures Sound() && txns == old(txns)[t := old(txns)[t].(toFree := old(txns)[t].toFree[1..])]
      ensures OthersKept(was, chunks, ids) && InPlace(was, chunks) && Released(chunks, ids, txns[t].toFree, commitTs)
      ensures rc == Ok ==>
        FreedAll(Value(), txns[t].toFree, commitTs) == FreedAll(old(Value()), old(txns)[t].toFree, commitTs)
    {
      NotStillGot(txns, chunks, freer, getter, Mine(), t);
      var id := PopToFree(t);
      ghost var home;
      rc, home := FreeReal(id, commitTs, memory);
      OthersKeptOn(was, old(chunks), chunks, ids, id, commitTs);
      InPlaceOn(was, old(chunks), chunks, id, commitTs);
      ReleasedOn(old(chunks), chunks, ids, old(txns)[t].toFree, commitTs);
    }

    /** One tentative free undone. The masking keeps the flags and drops the timestamp. */
    method Unfree(t: Tid) returns (id: Id)
      requires Sound() && t in txns && txns[t].toFree != []
      modifies this`txns, this`freer, this`chunks
      ensures Sound() && id == old(txns)[t].toFree[0]
      ensures txns == old(txns)[t := old(txns)[t].(toFree := old(txns)[t].toFree[1..])]
      ensures id in old(chunks) && chunks == old(chunks)[id := old(chunks)[id].(lastFreed := 0, taken := true)]
    {
      UnfreeLists(txns, chunks, bestfit, freer, getter, Mine(), t);
      id := PopToFree(t);
      ReflagTiled(Value(), id, 0, true, true);
      chunks := chunks[id := chunks[id].(lastFreed := 0, taken := true)];
      assert Value() == Reflag(old(Value()), id, 0, true, true);
    }

    /** Abort hook: take the frees back first, then give the allocations back. The recorded
        time of every chunk the transaction had marked for freeing becomes 0, all others are
        kept; so abort restores exactly the chunks it did not free, and those with time 0. */
    method OnAbort(t: Tid, memory: bool) returns (rc: Rc)
      requires Sound() && t in txns && forall x :: x in txns[t].got ==> x !in stolen
      modifies this
      ensures memory ==> rc == Ok
      ensures Sound() && wild == old(wild) && stolen <= old(stolen) && (old(Valid()) ==> Valid())
      ensures rc == Ok ==> txns == old(txns)[t := Txn([], [])]
      ensures OthersKept(Unfreed(old(chunks), old(txns)[t].toFree), chunks, old(txns)[t].got)
      ensures rc == Ok ==> Released(chunks, old(txns)[t].got, [], INVALID_TS)
      ensures InPlace(old(chunks), chunks)
      ensures forall x :: x in chunks ==>
        && x in old(chunks)
        && chunks[x].lastFreed == (if x in old(txns)[t].toFree then 0 else old(chunks)[x].lastFreed)
        && (chunks[x].lastFreed == old(chunks)[x].lastFreed <==> x !in old(txns)[t].toFree || old(chunks)[x].lastFreed == 0)
      ensures rc == Ok ==>
        Value() == FreedAll(old(Value()).(chunks := Unfreed(old(chunks), old(txns)[t].toFree)), old(txns)[t].got, INVALID_TS)
    {
      rc := Ok;
      assert Unfreed(chunks, []) == chunks;
      ghost var done := [];
      while txns[t].toFree != []
        invariant Sound() && t in txns && wild == old(wild) && tags == old(tags) && stolen == old(stolen)
        invariant txns == old(txns)[t := Txn(old(txns)[t].got, txns[t].toFree)]
        invariant done + txns[t].toFree == old(txns)[t].toFree
        invariant chunks == Unfreed(old(chunks), done)
        decreases |txns[t].toFree|
      {
        ghost var rest := txns[t].toFree;
        var id := Unfree(t);
        assert done + [id] + rest[1..] == done + rest;
        done := done + [id];
      }
      assert done == old(txns)[t].toFree;
      ghost var unfreed := chunks;
      rc := GiveBack(t, memory);
      forall x | x in chunks
        ensures InPlaceAt(old(chunks), chunks, x) && x in old(chunks)
                && chunks[x].lastFreed == (if x in old(txns)[t].toFree then 0 else old(chunks)[x].lastFreed)
      {
        assert InPlaceAt(unfreed, chunks, x) && DateKept(unfreed, chunks, x);
      }
    }

    method GiveBack(t: Tid, memory: bool) returns (rc: Rc)
      requires Sound() && t in txns && txns[t].toFree == [] && forall x :: x in txns[t].got ==> x !in stolen
      modifies this
      ensures memory ==> rc == Ok
      ensures Sound() && wild == old(wild) && stolen <= old(stolen)
      ensures rc == Ok ==> txns == old(txns)[t := Txn([], [])]
      ensures OthersKept(old(chunks), chunks, old(txns)[t].got) && InPlace(old(chunks), chunks) && DatesKept(old(chunks), chunks)
      ensures rc == Ok ==> Released(chunks, old(txns)[t].got, [], INVALID_TS)
      ensures rc == Ok ==> Value() == FreedAll(old(Value()), old(txns)[t].got, INVALID_TS)
    {
      rc := Ok;
      while txns[t].got != []
        invariant Sound() && t in txns && wild == old(wild) && stolen <= old(stolen)
        invariant rc == Ok && txns == old(txns)[t := Txn(txns[t].got, [])]
        invariant forall x :: x in txns[t].got ==> x in old(txns)[t].got
        invariant OthersKept(old(chunks), chunks, old(txns)[t].got) && InPlace(old(chunks), chunks)
        invariant DatesKept(old(chunks), chunks)
        invariant Released(chunks, old(txns)[t].got, txns[t].got, INVALID_TS)
        invariant FreedAll(Value(), txns[t].got, INVALID_TS) == FreedAll(old(Value()), old(txns)[t].got, INVALID_TS)
        decreases |txns[t].got|
      {
        rc := GiveNext(t, memory, old(chunks), old(txns)[t].got);
        if rc != Ok {
          return EInval;
        }
      }
    }

    method GiveNext(t: Tid, memory: bool, ghost was: map<Id, Chunk>, ghost ids: seq<Id>) returns (rc: Rc)
      requires Sound() && t in txns && txns[t].toFree == [] && txns[t].got != []
      requires txns[t].got[0] in ids && txns[t].got[0] !in stolen
      requires OthersKept(was, chunks, ids) && InPlace(was, chunks) && DatesKept(was, chunks)
      requires Released(chunks, ids, txns[t].got, INVALID_TS)
      modifies this`chunks, this`tags, this`bestfit, this`txns, this`getter, this`stolen
      ensures memory ==> rc == Ok
      ensures Sound() && stolen <= old(stolen) && txns == old(txns)[t := old(txns)[t].(got := old(txns)[t].got[1..])]
      ensures OthersKept(was, chunks, ids) && InPlace(was, chunks) && DatesKept(was, chunks)
      ensures Released(chunks, ids, txns[t].got, INVALID_TS)
      ensures rc == Ok ==>
        FreedAll(Value(), txns[t].got, INVALID_TS) == FreedAll(old(Value()), old(txns)[t].got, INVALID_TS)
    {
      NotStillFreeing(txns, chunks, freer, getter, stolen, t);
      var id := PopGot(t);
      ghost var home;
      rc, home := FreeReal(id, INVALID_TS, memory);
      OthersKeptOn(was, old(chunks), chunks, ids, id, INVALID_TS);
      InPlaceOn(was, old(chunks), chunks, id, INVALID_TS);
      DatesKeptOn(was, old(chunks), chunks, id);
      ReleasedOn(old(chunks), chunks, ids, old(txns)[t].got, INVALID_TS);
    }
  }

  /** Fewer claims are easier to keep. */
  lemma OwnersFewer(chunks: map<Id, Chunk>, freer: map<Id, Tid>, mine: map<Id, Tid>, fewer: map<Id, Tid>, limbo: set<Id>)
    requires OwnersOk(chunks, freer, mine, limbo)
    requires forall id :: id in fewer ==> id in mine && mine[id] == fewer[id]
    ensures OwnersOk(chunks, freer, fewer, limbo)
  {
    forall x ensures OwnerOk(chunks, freer, fewer, limbo, x) {
      assert OwnerOk(chunks, freer, mine, limbo, x);
    }
  }

  /** Chunks only disappear or grow; none is new, none moves. */
  ghost predicate InPlace(was: map<Id, Chunk>, now: map<Id, Chunk>) {
    forall id {:trigger InPlaceAt(was, now, id)} :: InPlaceAt(was, now, id)
  }

  ghost predicate InPlaceAt(was: map<Id, Chunk>, now: map<Id, Chunk>, id: Id) {
    id in now ==> id in was && now[id].start == was[id].start && was[id].size <= now[id].size
  }

  lemma InPlaceOn(c0: map<Id, Chunk>, c1: map<Id, Chunk>, c2: map<Id, Chunk>, id: Id, commitTs: Ts)
    requires InPlace(c0, c1) && id in c1 && Coalesced(Unflagged(c1, id, commitTs), c2)
    ensures InPlace(c0, c2)
  {
    var c1' := Unflagged(c1, id, commitTs);
    forall x ensures InPlaceAt(c0, c2, x) {
      assert InPlaceAt(c0, c1, x) && CoalescedAt(c1', c2, x);
    }
  }

  /** Recorded times are as before. */
  ghost predicate DatesKept(was: map<Id, Chunk>, now: map<Id, Chunk>) {
    forall id {:trigger DateKept(was, now, id)} :: DateKept(was, now, id)
  }

  ghost predicate DateKept(was: map<Id, Chunk>, now: map<Id, Chunk>, id: Id) {
    id in now ==> id in was && now[id].lastFreed == was[id].lastFreed
  }

  lemma DatesKeptOn(c0: map<Id, Chunk>, c1: map<Id, Chunk>, c2: map<Id, Chunk>, id: Id)
    requires DatesKept(c0, c1) && id in c1 && Coalesced(Unflagged(c1, id, INVALID_TS), c2)
    ensures DatesKept(c0, c2)
  {
    var c1' := Unflagged(c1, id, INVALID_TS);
    forall x ensures DateKept(c0, c2, x) {
      assert DateKept(c0, c1, x) && CoalescedAt(c1', c2, x);
    }
  }

  lemma FreeLists(was: map<Id, Chunk>, bestfit: seq<Id>, freer: map<Id, Tid>, getter: map<Id, Tid>, id: Id, commitTs: Ts)
    requires FreeListOk(was, bestfit) && OwnersOk(was, freer, getter, {id}) && id in was && Busy(was[id])
    ensures var now := Unflagged(was, id, commitTs);
      FreeListOk(now, [id] + bestfit) && OwnersOk(now, freer, getter, {})
  {
    var now := Unflagged(was, id, commitTs);
    assert !Listed(bestfit, id);
    forall x ensures Listed([id] + bestfit, x) <==> x in now && !Busy(now[x]) {
      assert Listed(bestfit, x) <==> x in was && !Busy(was[x]);
    }
    forall x ensures OwnerOk(now, freer, getter, {}, x) {
      assert OwnerOk(was, freer, getter, {id}, x);
    }
  }

  lemma MergeLists(was: map<Id, Chunk>, now: map<Id, Chunk>, bestfit: seq<Id>, freer: map<Id, Tid>, getter: map<Id, Tid>,
                   limbo: set<Id>, id: Id, n: Id)
    requires FreeListOk(was, bestfit) && OwnersOk(was, freer, getter, limbo)
    requires id in was && n in was && n != id && !Busy(was[n])
    requires now == (was - {n})[id := was[id].(size := was[id].size + was[n].size)]
    ensures FreeListOk(now, Without(bestfit, n)) && OwnersOk(now, freer, getter, limbo)
  {
    WithoutContents(bestfit, n);
    forall x ensures Listed(Without(bestfit, n), x) <==> x in now && !Busy(now[x]) {
      assert Listed(bestfit, x) <==> x in was && !Busy(was[x]);
    }
    forall x ensures OwnerOk(now, freer, getter, limbo, x) {
      assert OwnerOk(was, freer, getter, limbo, x);
    }
  }

  lemma TakeLists(was: map<Id, Chunk>, bestfit: seq<Id>, freer: map<Id, Tid>, getter: map<Id, Tid>, id: Id, t: Tid)
    requires FreeListOk(was, bestfit) && OwnersOk(was, freer, getter, {}) && id in was && !Busy(was[id])
    ensures var now := was[id := was[id].(taken := true)];
      FreeListOk(now, Without(bestfit, id)) && OwnersOk(now, freer, getter[id := t], {})
  {
    var now := was[id := was[id].(taken := true)];
    WithoutContents(bestfit, id);
    forall x ensures Listed(Without(bestfit, id), x) <==> x in now && !Busy(now[x]) {
      assert Listed(bestfit, x) <==> x in was && !Busy(was[x]);
    }
    var getter' := getter[id := t];
    forall x ensures OwnerOk(now, freer, getter', {}, x) {
      assert OwnerOk(was, freer, getter, {}, x);
    }
  }

  lemma ListGrows(s: seq<Id>, owner: map<Id, Tid>, t: Tid, id: Id)
    requires ListOf(s, owner, t) && id !in owner
    ensures ListOf([id] + s, owner[id := t], t)
  {
    assert !Listed(s, id);
    forall x ensures Listed([id] + s, x) <==> x in owner[id := t] && owner[id := t][x] == t {
      assert Listed(s, x) <==> x in owner && owner[x] == t;
    }
  }

  lemma ListElsewhere(s: seq<Id>, owner: map<Id, Tid>, u: Tid, t: Tid, id: Id)
    requires ListOf(s, owner, u) && id !in owner && u != t
    ensures ListOf(s, owner[id := t], u)
  {
    forall x ensures Listed(s, x) <==> x in owner[id := t] && owner[id := t][x] == u {
      assert Listed(s, x) <==> x in owner && owner[x] == u;
    }
  }

  lemma TakeTxns(txns: map<Tid, Txn>, freer: map<Id, Tid>, getter: map<Id, Tid>, id: Id, t: Tid)
    requires TxnsOk(txns, freer, getter) && t in txns && id !in getter
    ensures TxnsOk(txns[t := txns[t].(got := [id] + txns[t].got)], freer, getter[id := t])
  {
    var txns' := txns[t := txns[t].(got := [id] + txns[t].got)];
    forall u | u in txns' ensures TxnOk(txns'[u], freer, getter[id := t], u) {
      assert TxnOk(txns[u], freer, getter, u);
      if u == t {
        ListGrows(txns[u].got, getter, t, id);
      } else {
        ListElsewhere(txns[u].got, getter, u, t, id);
      }
    }
  }

  lemma SplitLists(a: Arena, bestfit: seq<Id>, freer: map<Id, Tid>, getter: map<Id, Tid>, id: Id, req: nat, spare: Id)
    requires SplitMay(a, id, req, spare) && FreeListOk(a.chunks, bestfit) && OwnersOk(a.chunks, freer, getter, {})
    ensures FreeListOk(Split(a, id, req, spare).chunks, [spare] + bestfit)
    ensures OwnersOk(Split(a, id, req, spare).chunks, freer, getter, {})
  {
    var now := Split(a, id, req, spare).chunks;
    assert !Listed(bestfit, spare);
    forall x ensures Listed([spare] + bestfit, x) <==> x in now && !Busy(now[x]) {
      assert Listed(bestfit, x) <==> x in a.chunks && !Busy(a.chunks[x]);
    }
    forall x ensures OwnerOk(now, freer, getter, {}, x) {
      assert OwnerOk(a.chunks, freer, getter, {}, x);
    }
  }

  lemma FreeingLists(was: map<Id, Chunk>, bestfit: seq<Id>, freer: map<Id, Tid>, getter: map<Id, Tid>, id: Id, t: Tid)
    requires FreeListOk(was, bestfit) && OwnersOk(was, freer, getter, {}) && id in was && was[id].taken
    requires id in getter ==> getter[id] == t
    ensures var now := was[id := was[id].(taken := false, freeing := true)];
      FreeListOk(now, bestfit) && OwnersOk(now, freer[id := t], getter, {})
  {
    var now := was[id := was[id].(taken := false, freeing := true)];
    forall x ensures Listed(bestfit, x) <==> x in now && !Busy(now[x]) {
      assert Listed(bestfit, x) <==> x in was && !Busy(was[x]);
    }
    var freer' := freer[id := t];
    forall x ensures OwnerOk(now, freer', getter, {}, x) {
      assert OwnerOk(was, freer, getter, {}, x);
    }
  }

  lemma FreeingTxns(txns: map<Tid, Txn>, chunks: map<Id, Chunk>, freer: map<Id, Tid>, getter: map<Id, Tid>, mine: map<Id, Tid>,
                    id: Id, t: Tid)
    requires OwnersOk(chunks, freer, mine, {}) && id in chunks && chunks[id].taken && t in txns
    requires TxnsOk(txns, freer, getter)
    ensures TxnsOk(txns[t := txns[t].(toFree := [id] + txns[t].toFree)], freer[id := t], getter)
  {
    var txns' := txns[t := txns[t].(toFree := [id] + txns[t].toFree)];
    assert OwnerOk(chunks, freer, mine, {}, id);
    forall u | u in txns' ensures TxnOk(txns'[u], freer[id := t], getter, u) {
      assert TxnOk(txns[u], freer, getter, u);
      if u == t {
        ListGrows(txns[u].toFree, freer, t, id);
      } else {
        ListElsewhere(txns[u].toFree, freer, u, t, id);
      }
    }
  }

  ghost predicate TxnsOk(txns: map<Tid, Txn>, freer: map<Id, Tid>, getter: map<Id, Tid>) {
    forall u {:trigger TxnOk(txns[u], freer, getter, u)} :: u in txns ==> TxnOk(txns[u], freer, getter, u)
  }

  lemma ListShrinks(s: seq<Id>, owner: map<Id, Tid>, t: Tid)
    requires ListOf(s, owner, t) && s != []
    ensures s[0] in owner && owner[s[0]] == t && ListOf(s[1..], owner - {s[0]}, t)
  {
    assert Listed(s, s[0]);
    forall x ensures Listed(s[1..], x) <==> x in owner - {s[0]} && (owner - {s[0]})[x] == t {
      assert Listed(s, x) <==> x in owner && owner[x] == t;
      assert s == [s[0]] + s[1..];
    }
  }

  lemma ListUnshared(s: seq<Id>, owner: map<Id, Tid>, u: Tid, id: Id)
    requires ListOf(s, owner, u) && id in owner && owner[id] != u
    ensures ListOf(s, owner - {id}, u)
  {
    forall x ensures Listed(s, x) <==> x in owner - {id} && (owner - {id})[x] == u {
      assert Listed(s, x) <==> x in owner && owner[x] == u;
    }
  }

  lemma PopFreer(txns: map<Tid, Txn>, chunks: map<Id, Chunk>, freer: map<Id, Tid>, getter: map<Id, Tid>, mine: map<Id, Tid>, t: Tid)
    requires TxnsOk(txns, freer, getter) && OwnersOk(chunks, freer, mine, {}) && t in txns && txns[t].toFree != []
    ensures
      var id := txns[t].toFree[0];
      && TxnsOk(txns[t := txns[t].(toFree := txns[t].toFree[1..])], freer - {id}, getter)
      && id in chunks && chunks[id].freeing && !chunks[id].taken
      && (id !in mine ==> OwnersOk(chunks, freer - {id}, mine, {id}))
  {
    var id := txns[t].toFree[0];
    var txns' := txns[t := txns[t].(toFree := txns[t].toFree[1..])];
    assert TxnOk(txns[t], freer, getter, t);
    ListShrinks(txns[t].toFree, freer, t);
    forall u | u in txns' ensures TxnOk(txns'[u], freer - {id}, getter, u) {
      assert TxnOk(txns[u], freer, getter, u);
      if u != t {
        ListUnshared(txns[u].toFree, freer, u, id);
      }
    }
    assert OwnerOk(chunks, freer, mine, {}, id);
    if id !in mine {
      var freer' := freer - {id};
      forall x ensures OwnerOk(chunks, freer', mine, {id}, x) {
        assert OwnerOk(chunks, freer, mine, {}, x);
      }
    }
  }

  lemma PopGetter(txns: map<Tid, Txn>, chunks: map<Id, Chunk>, freer: map<Id, Tid>, getter: map<Id, Tid>, mine: map<Id, Tid>, t: Tid)
    requires TxnsOk(txns, freer, getter) && OwnersOk(chunks, freer, mine, {}) && t in txns && txns[t].got != []
    ensures
      var id := txns[t].got[0];
      && TxnsOk(txns[t := txns[t].(got := txns[t].got[1..])], freer, getter - {id})
      && id in getter && (id in mine ==> id in chunks && Busy(chunks[id]))
      && OwnersOk(chunks, freer, mine - {id}, {})
      && (id in mine && id !in freer ==> OwnersOk(chunks, freer, mine - {id}, {id}))
  {
    var id := txns[t].got[0];
    var txns' := txns[t := txns[t].(got := txns[t].got[1..])];
    assert TxnOk(txns[t], freer, getter, t);
    ListShrinks(txns[t].got, getter, t);
    forall u | u in txns' ensures TxnOk(txns'[u], freer, getter - {id}, u) {
      assert TxnOk(txns[u], freer, getter, u);
      if u != t {
        ListUnshared(txns[u].got, getter, u, id);
      }
    }
    assert OwnerOk(chunks, freer, mine, {}, id);
    var mine' := mine - {id};
    forall x ensures OwnerOk(chunks, freer, mine', {}, x) && (id in mine && id !in freer ==> OwnerOk(chunks, freer, mine', {id}, x)) {
      assert OwnerOk(chunks, freer, mine, {}, x);
    }
  }

  /** Blocks in use that are not being given up keep their place, size and flags. */
  ghost predicate OthersKept(was: map<Id, Chunk>, now: map<Id, Chunk>, mine: seq<Id>) {
    forall id {:trigger OtherKept(was, now, mine, id)} :: OtherKept(was, now, mine, id)
  }

  ghost predicate OtherKept(was: map<Id, Chunk>, now: map<Id, Chunk>, mine: seq<Id>, id: Id) {
    id in was && Busy(was[id]) && id !in mine ==>
      id in now && now[id] == was[id].(size := now[id].size) && was[id].size <= now[id].size
  }

  lemma OthersKeptOn(c0: map<Id, Chunk>, c1: map<Id, Chunk>, c2: map<Id, Chunk>, mine: seq<Id>, id: Id, commitTs: Ts)
    requires OthersKept(c0, c1, mine) && id in c1 && id in mine && Coalesced(Unflagged(c1, id, commitTs), c2)
    ensures OthersKept(c0, c2, mine)
  {
    var c1' := Unflagged(c1, id, commitTs);
    forall x ensures OtherKept(c0, c2, mine, x) {
      assert OtherKept(c0, c1, mine, x) && CoalescedAt(c1', c2, x);
    }
  }

  lemma NotStillGot(txns: map<Tid, Txn>, chunks: map<Id, Chunk>, freer: map<Id, Tid>, getter: map<Id, Tid>, mine: map<Id, Tid>, t: Tid)
    requires TxnsOk(txns, freer, getter) && OwnersOk(chunks, freer, mine, {}) && t in txns
    requires forall id :: id in mine ==> id in getter && getter[id] == mine[id]
    requires txns[t].got == [] && txns[t].toFree != []
    ensures txns[t].toFree[0] !in mine
  {
    var id := txns[t].toFree[0];
    assert TxnOk(txns[t], freer, getter, t) && OwnerOk(chunks, freer, mine, {}, id);
    assert Listed(txns[t].toFree, id) && !Listed(txns[t].got, id);
  }

  lemma NotStillFreeing(txns: map<Tid, Txn>, chunks: map<Id, Chunk>, freer: map<Id, Tid>, getter: map<Id, Tid>, stolen: set<Id>, t: Tid)
    requires TxnsOk(txns, freer, getter) && OwnersOk(chunks, freer, getter - stolen, {}) && t in txns
    requires txns[t].toFree == [] && txns[t].got != [] && txns[t].got[0] !in stolen
    ensures txns[t].got[0] !in freer
  {
    var id := txns[t].got[0];
    assert TxnOk(txns[t], freer, getter, t) && OwnerOk(chunks, freer, getter - stolen, {}, id);
    assert Listed(txns[t].got, id) && !Listed(txns[t].toFree, id);
  }

  lemma UnfreeLists(txns: map<Tid, Txn>, chunks: map<Id, Chunk>, bestfit: seq<Id>, freer: map<Id, Tid>, getter: map<Id, Tid>,
                    mine: map<Id, Tid>, t: Tid)
    requires TxnsOk(txns, freer, getter) && OwnersOk(chunks, freer, mine, {}) && FreeListOk(chunks, bestfit)
    requires t in txns && txns[t].toFree != []
    ensures
      var id := txns[t].toFree[0];
      && id in chunks
      && var now := chunks[id := chunks[id].(lastFreed := 0, taken := true)];
      OwnersOk(now, freer - {id}, mine, {}) && FreeListOk(now, bestfit)
  {
    var id := txns[t].toFree[0];
    assert TxnOk(txns[t], freer, getter, t) && Listed(txns[t].toFree, id);
    assert OwnerOk(chunks, freer, mine, {}, id);
    var now := chunks[id := chunks[id].(lastFreed := 0, taken := true)];
    var freer' := freer - {id};
    forall x ensures OwnerOk(now, freer', mine, {}, x) {
      assert OwnerOk(chunks, freer, mine, {}, x);
    }
    forall x ensures Listed(bestfit, x) <==> x in now && !Busy(now[x]) {
      assert Listed(bestfit, x) <==> x in chunks && !Busy(chunks[x]);
    }
  }

  /** The chunks with the frees of `ids` taken back. */
  ghost function Unfreed(chunks: map<Id, Chunk>, ids: seq<Id>): map<Id, Chunk> {
    map id | id in chunks :: if id in ids then chunks[id].(lastFreed := 0, taken := true) else chunks[id]
  }

  /** All of `ids` but `rest` are free again, as of `commitTs`, or part of a larger chunk. */
  ghost predicate Released(chunks: map<Id, Chunk>, ids: seq<Id>, rest: seq<Id>, commitTs: Ts) {
    forall id {:trigger ReleasedAt(chunks, commitTs, id)} :: id in ids && id !in rest ==> ReleasedAt(chunks, commitTs, id)
  }

  ghost predicate ReleasedAt(chunks: map<Id, Chunk>, commitTs: Ts, id: Id) {
    id in chunks ==> !Busy(chunks[id]) && (commitTs != INVALID_TS ==> chunks[id].lastFreed == commitTs)
  }

  lemma ReleasedOn(c1: map<Id, Chunk>, c2: map<Id, Chunk>, ids: seq<Id>, rest: seq<Id>, commitTs: Ts)
    requires rest != [] && rest[0] in c1 && Released(c1, ids, rest, commitTs) && Coalesced(Unflagged(c1, rest[0], commitTs), c2)
    ensures Released(c2, ids, rest[1..], commitTs)
  {
    var c1' := Unflagged(c1, rest[0], commitTs);
    forall id | id in ids && id !in rest[1..] ensures ReleasedAt(c2, commitTs, id) {
      assert CoalescedAt(c1', c2, id);
      assert rest == [rest[0]] + rest[1..];
      assert id !in rest ==> ReleasedAt(c1, commitTs, id);
    }
  }
}
