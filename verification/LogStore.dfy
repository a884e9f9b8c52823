/** Where log entries live (kern/sivfs_shared_state.c): entries are packed into chunks of
    kernel memory, each chunk starts with a pointer to the one before it, and the deletion
    of a chunk's first entry frees the chunk before. */
module LogStore {
  import opened Types

  const CHUNK_SIZE: nat := 1024
  const POINTER_SIZE: nat := 8
  const DELETE_BATCH: nat := 128

  /** An entry of `bytes` bytes at offset `off` of the chunk at address `chunk`. */
  datatype Ent = Ent(chunk: nat, off: nat, bytes: nat, first: bool)

  datatype Block = Block(prev: Option<nat>, size: nat)

  /** History: every chunk ever allocated, every entry ever made, and the chunk (by
      position in `order`) each entry was put in. Entry `k` has index `k - 1`. */
  datatype History = History(order: seq<nat>, ents: seq<Ent>, home: seq<nat>)

  /** Entries fill chunk after chunk, back to back. */
  ghost predicate EntOk(h: History, i: nat)
    requires |h.home| == |h.ents|
  {
    i < |h.ents| ==>
      && h.home[i] < |h.order| && h.ents[i].chunk == h.order[h.home[i]]
      && h.ents[i].bytes > 0 && h.ents[i].off >= POINTER_SIZE
      && (h.ents[i].first <==> i == 0 || h.home[i] != h.home[i - 1])
      && (i == 0 ==> h.home[i] == 0)
      && (i > 0 ==> h.home[i - 1] <= h.home[i] <= h.home[i - 1] + 1)
      && h.ents[i].off == if h.ents[i].first then POINTER_SIZE else h.ents[i - 1].off + h.ents[i - 1].bytes
  }

  ghost predicate HistoryOk(h: History) {
    && |h.home| == |h.ents|
    && (forall i {:trigger EntOk(h, i)} :: EntOk(h, i))
    && |h.order| == if h.ents == [] then 0 else h.home[|h.ents| - 1] + 1
  }

  lemma {:induction false} HomeMonotone(h: History, i: nat, j: nat)
    requires HistoryOk(h) && i <= j < |h.ents|
    ensures h.home[i] <= h.home[j]
    decreases j
  {
    assert EntOk(h, j);
    if i < j {
      HomeMonotone(h, i, j - 1);
    }
  }

  /** Entries put in one chunk never overlap. */
  lemma {:induction false} SameChunkDisjoint(h: History, i: nat, j: nat)
    requires HistoryOk(h) && i < j < |h.ents| && h.home[i] == h.home[j]
    ensures h.ents[i].off + h.ents[i].bytes <= h.ents[j].off
    decreases j
  {
    assert EntOk(h, i) && EntOk(h, j) && EntOk(h, j - 1);
    HomeMonotone(h, i, j - 1);
    if i < j - 1 {
      SameChunkDisjoint(h, i, j - 1);
    }
  }

  /** How many chunks are freed once the first `gone` entries are deleted. */
  ghost function FreedBy(h: History, gone: nat): nat
    requires |h.home| == |h.ents| && gone <= |h.ents|
  {
    if gone == 0 then 0 else h.home[gone - 1]
  }

  /** Memory once the first `gone` entries are deleted: the earlier chunks are gone and the
      rest hang together. */
  ghost predicate MemoryOk(h: History, alive: map<nat, Block>, gone: nat)
    requires HistoryOk(h) && gone <= |h.ents|
  {
    && (forall p {:trigger InUse(h, FreedBy(h, gone), p)} :: p in alive ==> InUse(h, FreedBy(h, gone), p))
    && (forall i, j :: FreedBy(h, gone) <= i < j < |h.order| ==> h.order[i] != h.order[j])
    && forall j {:trigger ChunkOk(h, alive, j)} :: FreedBy(h, gone) <= j < |h.order| ==> ChunkOk(h, alive, j)
  }

  /** One of the chunks from position `f` on. */
  ghost predicate InUse(h: History, f: nat, p: nat) {
    exists j :: f <= j < |h.order| && h.order[j] == p
  }

  ghost predicate ChunkOk(h: History, alive: map<nat, Block>, j: nat)
    requires |h.home| == |h.ents|
  {
    && j < |h.order| && h.order[j] in alive
    && alive[h.order[j]].prev == (if j == 0 then None else Some(h.order[j - 1]))
    && forall i :: 0 <= i < |h.ents| && h.home[i] == j ==> h.ents[i].off + h.ents[i].bytes <= alive[h.order[j]].size
  }

  /** A chunk has been freed exactly when an entry of a later chunk has been deleted, and
      then all its own entries had been. The kernel heap may hand its address out again. */
  lemma FreedExactly(h: History, alive: map<nat, Block>, gone: nat, j: nat)
    requires HistoryOk(h) && gone <= |h.ents| && MemoryOk(h, alive, gone) && j < |h.order|
    ensures j < FreedBy(h, gone) <==> exists i :: 0 <= i < gone && h.home[i] > j
    ensures j < FreedBy(h, gone) ==> forall i :: 0 <= i < |h.ents| && h.home[i] == j ==> i < gone
    ensures j >= FreedBy(h, gone) ==> h.order[j] in alive
    ensures h.order[j] in alive <==> exists m :: FreedBy(h, gone) <= m < |h.order| && h.order[m] == h.order[j]
  {
    assert h.order[j] in alive ==> InUse(h, FreedBy(h, gone), h.order[j]);
    if m :| FreedBy(h, gone) <= m < |h.order| && h.order[m] == h.order[j] {
      assert ChunkOk(h, alive, m);
    }
    if j < FreedBy(h, gone) {
      assert 0 <= gone - 1 < gone && h.home[gone - 1] > j;
      forall i | 0 <= i < |h.ents| && h.home[i] == j ensures i < gone {
        if i >= gone {
          HomeMonotone(h, gone - 1, i);
        }
      }
    } else {
      forall i | 0 <= i < gone ensures h.home[i] <= j {
        HomeMonotone(h, i, gone - 1);
      }
      assert ChunkOk(h, alive, j);
    }
  }

  /** No two entries that are still there share a byte, reused addresses or not. */
  lemma EntriesDisjoint(h: History, alive: map<nat, Block>, gone: nat, i: nat, j: nat)
    requires HistoryOk(h) && gone <= i < j < |h.ents| && MemoryOk(h, alive, gone)
    requires h.ents[i].chunk == h.ents[j].chunk
    ensures h.ents[i].off + h.ents[i].bytes <= h.ents[j].off
  {
    assert EntOk(h, i) && EntOk(h, j);
    HomeMonotone(h, i, j);
    if gone > 0 {
      HomeMonotone(h, gone - 1, i);
    }
    SameChunkDisjoint(h, i, j);
  }

  /** The step from `d` to `d + 1` deleted entries frees the chunk before, if entry `d + 1`
      starts one, and nothing otherwise. */
  lemma DeleteStep(h: History, alive: map<nat, Block>, d: nat)
    requires HistoryOk(h) && d < |h.ents| && MemoryOk(h, alive, d)
    ensures h.ents[d].chunk in alive
    ensures
      var prev := alive[h.ents[d].chunk].prev;
      if h.ents[d].first && prev.Some? then prev.value in alive && MemoryOk(h, alive - {prev.value}, d + 1)
      else MemoryOk(h, alive, d + 1)
  {
    assert EntOk(h, d);
    var j := h.home[d];
    if d > 0 {
      assert EntOk(h, d - 1);
    }
    HomeMonotone(h, d, |h.ents| - 1);
    assert FreedBy(h, d) <= j;
    assert ChunkOk(h, alive, j);
    if h.ents[d].first && j > 0 {
      assert FreedBy(h, d) == j - 1;
      assert ChunkOk(h, alive, j - 1);
      var alive' := alive - {h.order[j - 1]};
      forall m | j <= m < |h.order| ensures ChunkOk(h, alive', m) {
        assert ChunkOk(h, alive, m);
      }
      forall p | p in alive' ensures InUse(h, j, p) {
        assert InUse(h, j - 1, p);
        var m :| FreedBy(h, d) <= m < |h.order| && h.order[m] == p;
        assert m != j - 1;
      }
    }
  }

  // ---------------------------------------------------------------- appending

  ghost function LastChunk(h: History): Option<nat> {
    if h.order == [] then None else Some(h.order[|h.order| - 1])
  }

  /** History with one more entry, in the current chunk or in a new one. */
  ghost function Append(h: History, ent: Ent): History
    requires Follows(h, ent)
  {
    History(if ent.first then h.order + [ent.chunk] else h.order,
            h.ents + [ent],
            h.home + [if ent.first then |h.order| else |h.order| - 1])
  }

  ghost predicate Follows(h: History, ent: Ent) {
    && ent.bytes > 0 && (h.ents == [] ==> ent.first)
    && if ent.first then ent.off == POINTER_SIZE
       else |h.order| > 0 && ent.chunk == h.order[|h.order| - 1]
            && |h.ents| > 0 && ent.off == h.ents[|h.ents| - 1].off + h.ents[|h.ents| - 1].bytes
  }

  lemma AppendOk(h: History, ent: Ent)
    requires HistoryOk(h) && Follows(h, ent)
    ensures HistoryOk(Append(h, ent))
  {
    var h' := Append(h, ent);
    assert h.ents != [] ==> EntOk(h, |h.ents| - 1);
    forall i ensures EntOk(h', i) {
      assert i >= 0 ==> EntOk(h, i);
    }
  }

  lemma AppendMemory(h: History, alive: map<nat, Block>, gone: nat, ent: Ent, alive': map<nat, Block>)
    requires HistoryOk(h) && gone <= |h.ents| && MemoryOk(h, alive, gone) && Follows(h, ent)
    requires ent.chunk in alive' && ent.off + ent.bytes <= alive'[ent.chunk].size
    requires ent.first ==> ent.chunk !in alive
    requires if ent.first then
               alive' == alive[ent.chunk := Block(LastChunk(h), alive'[ent.chunk].size)]
             else alive' == alive
    ensures HistoryOk(Append(h, ent)) && MemoryOk(Append(h, ent), alive', gone)
  {
    AppendOk(h, ent);
    var h' := Append(h, ent);
    var f := FreedBy(h, gone);
    assert FreedBy(h', gone) == f;
    if gone > 0 {
      HomeMonotone(h, gone - 1, |h.ents| - 1);
    }
    forall i | f <= i < |h.order| ensures ent.first ==> h.order[i] != ent.chunk {
      assert ChunkOk(h, alive, i);
    }
    forall j | f <= j < |h'.order| ensures ChunkOk(h', alive', j) {
      if j < |h.order| {
        assert ChunkOk(h, alive, j);
        assert h.order[j] in alive;
        assert ent.first ==> h.order[j] != ent.chunk;
        forall i | 0 <= i < |h'.ents| && h'.home[i] == j
          ensures h'.ents[i].off + h'.ents[i].bytes <= alive'[h'.order[j]].size
        {
        }
      } else {
        forall i | 0 <= i < |h.ents| ensures h.home[i] < |h.order| {
          assert EntOk(h, i);
        }
      }
    }
    forall p | p in alive' ensures InUse(h', f, p) {
      if p in alive {
        assert InUse(h, f, p);
        var m :| f <= m < |h.order| && h.order[m] == p;
        assert h'.order[m] == p;
      } else {
        assert h'.order[|h.order|] == p;
      }
    }
  }

  /** The current chunk and how full it is. */
  ghost predicate TailOk(h: History, alive: map<nat, Block>, cur: Option<nat>, ptr: nat, remaining: nat) {
    && cur == LastChunk(h) && (h.ents == [] <==> h.order == [])
    && if h.ents == [] then remaining == 0
       else
         var last := h.ents[|h.ents| - 1];
         cur.value in alive && ptr == last.off + last.bytes && ptr + remaining == alive[cur.value].size
  }

  ghost predicate CacheOk(h: History, cache: map<Ts, Ent>, gone: nat) {
    && (forall k {:trigger k in cache} :: k in cache <==> gone < k <= |h.ents|)
    && (forall k :: k in cache && 1 <= k <= |h.ents| ==> cache[k] == h.ents[k - 1])
  }

  lemma AppendCache(h: History, cache: map<Ts, Ent>, gone: nat, ent: Ent)
    requires CacheOk(h, cache, gone) && Follows(h, ent) && gone <= |h.ents|
    ensures CacheOk(Append(h, ent), cache[|h.ents| + 1 := ent], gone)
  {
  }

  /** What a new chunk can hold behind its back pointer. */
  function RoomFor(need: nat): (room: nat)
    ensures need <= room && CHUNK_SIZE <= room + POINTER_SIZE
    ensures room == need || room + POINTER_SIZE == CHUNK_SIZE
  {
    (if CHUNK_SIZE >= need + POINTER_SIZE then CHUNK_SIZE else need + POINTER_SIZE) - POINTER_SIZE
  }

  class LogStore {
    var cache: map<Ts, Ent>             // log_cache
    var alive: map<nat, Block>          // chunks in kernel memory
    var cur: Option<nat>                // chunk_start_ptr
    var ptr: nat                        // chunk_ptr, as an offset into the current chunk
    var remaining: nat                  // bytes_remaining_chunk
    var deletedTs: Ts                   // master_log_deleted_ts
    ghost var h: History
    ghost var gone: nat                 // entries deleted so far

    /** Memory may be ahead of the cache inside a deletion batch. */
    ghost predicate ValidAt(done: nat)
      reads this
    {
      && HistoryOk(h) && gone <= done <= |h.ents| && MemoryOk(h, alive, done)
      && TailOk(h, alive, cur, ptr, remaining) && CacheOk(h, cache, gone)
    }

    ghost predicate Valid()
      reads this
    {
      ValidAt(gone)
    }

    constructor ()
      ensures Valid() && h == History([], [], []) && gone == 0 && cache == map[] && alive == map[] && remaining == 0
    {
      cache, alive, cur, ptr, remaining, deletedTs := map[], map[], None, 0, 0, 0;
      h, gone := History([], [], []), 0;
    }

    /** Find room for `need` bytes: in the current chunk, or at the start of a new one, which
        links back to it. */
    method Place(need: nat, kmem: Option<nat>) returns (ok: bool, ent: Ent, room: nat, heap: map<nat, Block>)
      requires Valid() && need > 0 && (kmem.Some? ==> kmem.value !in alive)
      ensures ok <==> kmem.Some? || remaining >= need
      ensures ok ==> Follows(h, ent) && ent.bytes == need <= room && (ent.first <==> remaining < need)
      ensures ok ==> room == if remaining < need then RoomFor(need) else remaining
      ensures ok ==> ent.chunk in heap && ent.off + room == heap[ent.chunk].size
      ensures ok && ent.first ==> ent.chunk !in alive && heap == alive[ent.chunk := Block(cur, heap[ent.chunk].size)]
      ensures ok && !ent.first ==> heap == alive && cur == Some(ent.chunk)
    {
      assert h.ents != [] ==> EntOk(h, |h.ents| - 1);
      heap := alive;
      if remaining < need {
        if kmem.None? {
          return false, Ent(0, 0, 0, false), 0, heap;
        }
        room := RoomFor(need);
        heap := heap[kmem.value := Block(cur, room + POINTER_SIZE)];
        ent := Ent(kmem.value, POINTER_SIZE, need, true);
      } else {
        room := remaining;
        ent := Ent(cur.value, ptr, need, ptr == POINTER_SIZE);
      }
      ok := true;
    }

    /** sivfs_create_log_entry: `need` bytes for the next timestamp `ts`. `kmem` and `inserted`
        are what the kernel heap and the radix tree answered. A failed insertion is undone
        cleanly exactly when it came with a new chunk: otherwise the chunk in use is freed. */
    method CreateEntry(ts: Ts, need: nat, kmem: Option<nat>, inserted: bool) returns (rc: Rc)
      requires Valid() && ts == |h.ents| + 1 && need > 0 && (kmem.Some? ==> kmem.value !in alive)
      modifies this
      ensures rc == Ok <==> inserted && (kmem.Some? || old(remaining) >= need)
      ensures rc == Ok ==> Valid() && gone == old(gone) && |h.ents| == |old(h).ents| + 1 && h.ents[..|old(h).ents|] == old(h).ents
      ensures rc == Ok ==> h.ents[|old(h).ents|].bytes == need
      ensures rc == Ok ==> (h.ents[|old(h).ents|].first <==> old(remaining) < need)
      ensures rc == Ok ==> cur == Some(h.ents[|old(h).ents|].chunk) && cache == old(cache)[ts := h.ents[|old(h).ents|]]
      ensures rc == Ok ==> remaining == (if old(remaining) < need then RoomFor(need) else old(remaining)) - need
      ensures deletedTs == old(deletedTs) && (rc == Ok || rc == ENoMem)
      ensures rc != Ok ==> (Valid() <==> old(remaining) < need) && h == old(h) && gone == old(gone) && cache == old(cache)
      ensures rc != Ok && old(remaining) < need ==>
        alive == old(alive) && cur == old(cur) && ptr == old(ptr) && remaining == old(remaining)
      ensures rc != Ok && old(remaining) >= need ==> cur == old(cur) && cur.Some? && alive == old(alive) - {cur.value} && remaining == old(remaining)
    {
      var ok, ent, room, heap := Place(need, kmem);
      if !ok {
        return ENoMem;
      }
      if inserted {
        Link(ts, ent, room, heap);
        rc := Ok;
      } else {
        Drop(ent, heap);
        rc := ENoMem;
      }
    }

    method Link(ts: Ts, ent: Ent, room: nat, heap: map<nat, Block>)
      requires Valid() && ts == |h.ents| + 1 && Follows(h, ent) && ent.bytes <= room && (ent.first ==> ent.chunk !in alive)
      requires ent.chunk in heap && ent.off + room == heap[ent.chunk].size
      requires heap == if ent.first then alive[ent.chunk := Block(cur, heap[ent.chunk].size)] else alive
      modifies this
      ensures Valid() && gone == old(gone) && h == Append(old(h), ent)
      ensures deletedTs == old(deletedTs)
      ensures remaining == room - ent.bytes && alive == heap && cache == old(cache)[ts := ent] && cur == Some(ent.chunk)
    {
      AppendMemory(h, alive, gone, ent, heap);
      AppendCache(h, cache, gone, ent);
      alive := heap;
      cache := cache[ts := ent];
      h := Append(h, ent);
      cur, ptr, remaining := Some(ent.chunk), ent.off + ent.bytes, room - ent.bytes;
    }

    method Drop(ent: Ent, heap: map<nat, Block>)
      requires Valid() && ent.chunk in heap
      requires ent.first ==> ent.chunk !in alive && heap == alive[ent.chunk := heap[ent.chunk]]
      requires !ent.first ==> heap == alive && cur == Some(ent.chunk)
      modifies this`alive
      ensures Valid() <==> ent.first
      ensures alive == heap - {ent.chunk}
    {
      alive := heap - {ent.chunk};
      assert ent.first ==> alive == old(alive);
    }

    /** Free what entry `k`, the first one left, keeps alive. */
    method ReleaseEntry(k: Ts, ghost done: nat)
      requires ValidAt(done) && done < |h.ents| && k == done + 1
      modifies this`alive
      ensures ValidAt(done + 1)
    {
      DeleteStep(h, alive, done);
      TailStays(h, alive, done);
      var ent := cache[k];
      if ent.first {
        var prev := alive[ent.chunk].prev;
        if prev.Some? {
          // kfree: the chunk is still allocated, so it is not freed twice.
          assert prev.value in alive;
          alive := alive - {prev.value};
        }
      }
    }

    /** Release the next entry below `stop`, if there is one. */
    method DeleteNext(from: nat, stop: Ts, ghost done: nat) returns (slot: Option<Ts>)
      requires ValidAt(done) && (if done == gone then from <= done + 1 else from == done + 1)
      modifies this`alive
      ensures slot.Some? ==> slot.value == done + 1 < stop && ValidAt(done + 1)
      ensures slot.None? ==> alive == old(alive) && (done + 1 >= stop || done == |h.ents|)
    {
      slot := NextSlot(cache, from);
      assert done < |h.ents| ==> done + 1 in cache;
      if slot.None? || slot.value >= stop {
        return None;
      }
      assert slot.value == done + 1;
      ReleaseEntry(slot.value, done);
    }

    /** Walk the oldest entries below `stop`, up to DELETE_BATCH of them. */
    method ReleaseBatch(stop: Ts) returns (indices: seq<Ts>)
      requires Valid()
      modifies this`alive
      ensures ValidAt(gone + |indices|)
      ensures forall i :: 0 <= i < |indices| ==> indices[i] == gone + 1 + i
      ensures if indices == [] then gone + 1 >= stop || gone == |h.ents| else gone + |indices| < stop
    {
      indices := [];
      var from: nat := 0;
      while |indices| < DELETE_BATCH
        invariant ValidAt(gone + |indices|)
        invariant if indices == [] then from == 0 else from == gone + |indices| + 1 <= stop
        invariant forall i :: 0 <= i < |indices| ==> indices[i] == gone + 1 + i
      {
        var slot := DeleteNext(from, stop, gone + |indices|);
        if slot.None? {
          return;
        }
        indices := indices + [slot.value];
        from := slot.value + 1;
      }
    }

    /** One locked section of sivfs_delete_log. */
    method DeleteBatch(stop: Ts) returns (nr: nat)
      requires Valid()
      modifies this`alive, this`cache, this`gone
      ensures Valid() && gone == old(gone) + nr
      ensures nr > 0 ==> |cache| < |old(cache)| && gone < stop
      ensures nr == 0 ==> cache == old(cache) && (gone + 1 >= stop || gone == |h.ents|)
    {
      var indices := ReleaseBatch(stop);
      nr := |indices|;
      RemoveSlots(indices);
    }

    method RemoveSlots(indices: seq<Ts>)
      requires ValidAt(gone + |indices|) && forall i :: 0 <= i < |indices| ==> indices[i] == gone + 1 + i
      modifies this`cache, this`gone
      ensures Valid() && gone == old(gone) + |indices|
      ensures if indices == [] then cache == old(cache) else |cache| < |old(cache)|
    {
      var i := 0;
      while i < |indices|
        invariant 0 <= i <= |indices| && gone == old(gone) + i
        invariant ValidAt(old(gone) + |indices|)
        invariant cache.Keys <= old(cache).Keys && (i > 0 ==> old(gone) + 1 !in cache)
        invariant i == 0 ==> cache == old(cache)
      {
        assert indices[i] == gone + 1 && indices[i] in cache;
        cache := cache - {indices[i]};
        gone := gone + 1;
        i := i + 1;
      }
      if indices != [] {
        assert old(gone) + 1 in old(cache);
        assert cache.Keys <= old(cache).Keys - {old(gone) + 1};
        SmallerMap(old(cache), cache, old(gone) + 1);
      }
    }

    /** sivfs_gc_log, with `low` the published checkpoint and `seen` what the scan returned:
        the cut is the oldest of them, every entry from there on stays, the newest entry in
        particular, and every one below goes. */
    method GcLog(low: Ts, seen: seq<Ts>) returns (did: bool, stop: Ts)
      requires Valid() && low <= |h.ents| && low < INVALID_TS
      modifies this`alive, this`cache, this`gone, this`deletedTs
      ensures Valid() && deletedTs == stop
      ensures stop <= low && (stop == low || stop in seen) && forall i :: 0 <= i < |seen| ==> stop <= seen[i]
      ensures forall k :: k in cache <==> k in old(cache) && stop <= k
      ensures did <==> gone > old(gone)
      ensures did <==> exists k :: k in old(cache) && k < stop
    {
      stop := LogCut(low, seen);
      did := DeleteLog(stop);
      assert did ==> old(gone) + 1 in old(cache);
    }

    /** sivfs_delete_log: the entries below `stop` go, and with them exactly the chunks all of
        whose entries, and the one after, are below it. */
    method DeleteLog(stop: Ts) returns (did: bool)
      requires Valid() && stop != INVALID_TS
      modifies this`alive, this`cache, this`gone, this`deletedTs
      ensures Valid() && deletedTs == stop
      ensures gone == if stop <= old(gone) + 1 then old(gone) else if stop - 1 <= |h.ents| then stop - 1 else |h.ents|
      ensures did <==> gone > old(gone)
    {
      did := false;
      var nr: nat := 1;
      while nr > 0
        invariant Valid() && old(gone) <= gone && (gone == old(gone) || gone < stop)
        invariant did <==> gone > old(gone)
        invariant nr == 0 ==> gone + 1 >= stop || gone == |h.ents|
        decreases |cache|, nr
      {
        nr := DeleteBatch(stop);
        if nr > 0 {
          did := true;
        }
      }
      deletedTs := stop;
    }
  }

  /** The cut of sivfs_gc_log: nothing at or after the published checkpoint, nor after any
      version a thread has announced, is below it. */
  method LogCut(low: Ts, seen: seq<Ts>) returns (stop: Ts)
    ensures stop <= low && (stop == low || stop in seen) && forall i :: 0 <= i < |seen| ==> stop <= seen[i]
  {
    stop := low;
    for i := 0 to |seen|
      invariant stop <= low && (stop == low || stop in seen[..i])
      invariant forall j :: 0 <= j < i ==> stop <= seen[j]
    {
      assert seen[..i + 1] == seen[..i] + [seen[i]];
      if seen[i] < stop {
        stop := seen[i];
      }
    }
  }

  lemma SmallerMap(m: map<Ts, Ent>, m': map<Ts, Ent>, k: Ts)
    requires k in m && m'.Keys <= m.Keys - {k}
    ensures |m'| < |m|
  {
    SubsetSize(m'.Keys, m.Keys - {k});
  }

  lemma {:induction false} SubsetSize(a: set<Ts>, b: set<Ts>)
    requires a <= b
    ensures |a| <= |b|
    decreases |a|
  {
    if a != {} {
      var x :| x in a;
      SubsetSize(a - {x}, b - {x});
    }
  }

  /** The chunk in use is never the one a deletion frees. */
  lemma TailStays(h: History, alive: map<nat, Block>, d: nat)
    requires HistoryOk(h) && d < |h.ents| && MemoryOk(h, alive, d) && h.ents[d].chunk in alive
    ensures h.ents[d].first && alive[h.ents[d].chunk].prev.Some? ==>
      alive[h.ents[d].chunk].prev != Some(h.order[|h.order| - 1])
  {
    assert EntOk(h, d);
    if d > 0 {
      assert EntOk(h, d - 1);
    }
    HomeMonotone(h, d, |h.ents| - 1);
    assert ChunkOk(h, alive, h.home[d]);
  }

  /** A second entry fits into the chunk of the first, but cannot be inserted into the cache.
      The chunk is freed, although the first entry is in it and in the cache, and it stays the
      chunk the next entry will be put in. */
  method LostChunk() returns (log: LogStore)
    ensures 1 in log.cache && log.cache[1].chunk !in log.alive && log.cur == Some(log.cache[1].chunk)
    ensures log.remaining > 0 && !log.Valid()
  {
    log := new LogStore();
    var rc := log.CreateEntry(1, 100, Some(4096), true);
    rc := log.CreateEntry(2, 100, None, false);
  }
}
