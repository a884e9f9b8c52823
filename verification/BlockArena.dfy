/** The block allocator's picture of one file (kern/alloc), as values: chunks tile the file
    and page records hold at most one chunk boundary each. Splitting, merging and the two
    coalescing loops, and what they do to the tiling. */
module BlockArena {
  import opened Types

  type Id = nat

  // (size_t)-1 as a size: the chunk without an end.
  const WILD: nat := 0xFFFF_FFFF_FFFF_FFFF
  // (size_t)-1 as a boundary: no boundary in this page.
  const NO_BOUNDARY: nat := 0xFFFF_FFFF_FFFF_FFFF
  // File offsets are size_t values and wrap around here.
  const OFFSET_SPAN: nat := 0x1_0000_0000_0000_0000
  const MAX_BLOCK: nat := 64 * 1024 * 1024 * 1024

  /** The two top bits of last_freed_ts are kept as separate flags. */
  datatype Chunk = Chunk(start: nat, size: nat, lastFreed: Ts, taken: bool, freeing: bool)

  datatype PgInfo = PgInfo(boundary: nat, ends: Option<Id>, starts: Option<Id>)

  datatype Arena = Arena(chunks: map<Id, Chunk>, tags: map<nat, PgInfo>, wild: Id)

  predicate Busy(c: Chunk) {
    c.taken || c.freeing
  }

  predicate FreeVisible(c: Chunk, ts: Ts) {
    !c.taken && c.lastFreed <= ts
  }

  function PageOf(off: nat): nat {
    off / PAGE_SIZE
  }

  function End(c: Chunk): nat {
    c.start + c.size
  }

  /** A page record that is created on first use starts out zeroed. */
  function TagAt(tags: map<nat, PgInfo>, pg: nat): PgInfo {
    if pg in tags then tags[pg] else PgInfo(0, None, None)
  }

  function Tag(a: Arena, off: nat): PgInfo {
    TagAt(a.tags, PageOf(off))
  }

  // ---------------------------------------------------------------- the tiling

  /** The record of the page a chunk starts in names it, and the chunk before it. */
  ghost predicate StartOk(a: Arena, id: Id)
    requires id in a.chunks
  {
    var c := a.chunks[id];
    && Tag(a, c.start).boundary == c.start % PAGE_SIZE && Tag(a, c.start).starts == Some(id)
    && match Tag(a, c.start).ends
       case None => c.start == 0
       case Some(p) => c.start != 0 && p in a.chunks && a.chunks[p].size != WILD && End(a.chunks[p]) == c.start
  }

  /** The record of the page a chunk ends in names it, and the chunk after it. */
  ghost predicate EndOk(a: Arena, id: Id)
    requires id in a.chunks
  {
    var c := a.chunks[id];
    if c.size == WILD then id == a.wild
    else
      && c.size > 0 && End(c) < WILD
      && Tag(a, End(c)).boundary == End(c) % PAGE_SIZE && Tag(a, End(c)).ends == Some(id)
      && Tag(a, End(c)).starts.Some?
      && var n := Tag(a, End(c)).starts.value;
      n in a.chunks && a.chunks[n].start == End(c)
  }

  ghost predicate ChunkOk(a: Arena, id: Id) {
    id in a.chunks ==> StartOk(a, id) && EndOk(a, id)
  }

  /** Two chunks share no byte and no boundary page. */
  ghost predicate Apart(a: Arena, i: Id, j: Id) {
    i in a.chunks && j in a.chunks && i != j ==>
      && PageOf(a.chunks[i].start) != PageOf(a.chunks[j].start)
      && (a.chunks[i].start < a.chunks[j].start ==> a.chunks[i].size != WILD && End(a.chunks[i]) <= a.chunks[j].start)
  }

  /** Records without a chunk are empty. */
  ghost predicate TagOk(a: Arena, pg: nat) {
    match TagAt(a.tags, pg).starts
    case None => TagAt(a.tags, pg).ends == None && TagAt(a.tags, pg).boundary in {0, NO_BOUNDARY}
    case Some(id) => id in a.chunks && PageOf(a.chunks[id].start) == pg
  }

  ghost predicate WildOk(a: Arena) {
    && a.wild in a.chunks
    && var w := a.chunks[a.wild];
    w.size == WILD && !Busy(w) && w.lastFreed == 0
  }

  ghost predicate Tiled(a: Arena) {
    && WildOk(a)
    && (forall id {:trigger ChunkOk(a, id)} :: ChunkOk(a, id))
    && (forall i, j {:trigger Apart(a, i, j)} :: Apart(a, i, j))
    && (forall pg {:trigger TagOk(a, pg)} :: TagOk(a, pg))
    && Tag(a, 0).starts.Some? && Tag(a, 0).boundary == 0
  }

  predicate Covers(c: Chunk, x: nat) {
    c.start <= x && (c.size == WILD || x < End(c))
  }

  /** The tiling: every byte offset belongs to exactly one chunk. */
  lemma {:induction false} EveryOffsetCovered(a: Arena, x: nat) returns (id: Id)
    requires Tiled(a)
    ensures id in a.chunks && Covers(a.chunks[id], x)
    ensures forall other :: other in a.chunks && Covers(a.chunks[other], x) ==> other == id
    decreases x
  {
    if x == 0 {
      assert TagOk(a, PageOf(0));
      id := Tag(a, 0).starts.value;
      assert ChunkOk(a, id);
      assert a.chunks[id].start % PAGE_SIZE == 0;
    } else {
      var before := EveryOffsetCovered(a, x - 1);
      assert ChunkOk(a, before);
      if Covers(a.chunks[before], x) {
        id := before;
      } else {
        id := Tag(a, End(a.chunks[before])).starts.value;
        assert ChunkOk(a, id);
      }
    }
    forall other | other in a.chunks && Covers(a.chunks[other], x) ensures other == id {
      assert Apart(a, id, other) && Apart(a, other, id);
    }
  }

  // ---------------------------------------------------------------- splitting

  /** Cut chunk `id` after `req` bytes, with the new boundary recorded as `b`. */
  function SplitAt(a: Arena, id: Id, req: nat, b: nat, spare: Id): Arena
    requires id in a.chunks && (a.chunks[id].size == WILD || req <= a.chunks[id].size)
  {
    var c := a.chunks[id];
    var rest := Chunk(b, if c.size == WILD then WILD else c.size - req, c.lastFreed, c.taken, c.freeing);
    var tags := a.tags[PageOf(b) := PgInfo(b % PAGE_SIZE, Some(id), Some(spare))];
    Arena(a.chunks[id := c.(size := req)][spare := rest],
          if c.size == WILD then tags
          else tags[PageOf(End(c)) := TagAt(tags, PageOf(End(c))).(ends := Some(spare))],
          if c.size == WILD then spare else a.wild)
  }

  function Split(a: Arena, id: Id, req: nat, spare: Id): Arena
    requires id in a.chunks && (a.chunks[id].size == WILD || req <= a.chunks[id].size)
  {
    SplitAt(a, id, req, (a.chunks[id].start + req) % OFFSET_SPAN, spare)
  }

  /** No byte of the file has another recorded time than before. */
  ghost predicate SameTimes(was: map<Id, Chunk>, now: map<Id, Chunk>) {
    forall x, i, j {:trigger SameTime(was, now, x, i, j)} :: SameTime(was, now, x, i, j)
  }

  ghost predicate SameTime(was: map<Id, Chunk>, now: map<Id, Chunk>, x: nat, i: Id, j: Id) {
    i in was && j in now && Covers(was[i], x) && Covers(now[j], x) ==> now[j].lastFreed == was[i].lastFreed
  }

  /** The split while offsets last. */
  function Cut(a: Arena, id: Id, req: nat, spare: Id): Arena
    requires id in a.chunks && (a.chunks[id].size == WILD || req <= a.chunks[id].size)
  {
    SplitAt(a, id, req, a.chunks[id].start + req, spare)
  }

  lemma NoWrap(a: Arena, id: Id, req: nat, spare: Id)
    requires id in a.chunks && (a.chunks[id].size == WILD || req <= a.chunks[id].size) && a.chunks[id].start + req < WILD
    ensures Split(a, id, req, spare) == Cut(a, id, req, spare)
  {
  }

  /** A free chunk with at least a page more than was asked for. */
  ghost predicate SplitMay(a: Arena, id: Id, req: nat, spare: Id) {
    && Tiled(a) && id in a.chunks && spare !in a.chunks && !Busy(a.chunks[id]) && req <= MAX_BLOCK
    && a.chunks[id].size > req + PAGE_SIZE
  }

  /** The new boundary is within file offsets; only the wilderness can run out of them. */
  ghost predicate SplitReady(a: Arena, id: Id, req: nat, spare: Id) {
    SplitMay(a, id, req, spare) && a.chunks[id].start + req < WILD
  }

  lemma PagesFollow(x: nat, y: nat)
    requires x <= y
    ensures PageOf(x) <= PageOf(y) && (x + PAGE_SIZE <= y ==> PageOf(x) < PageOf(y))
    ensures PageOf(x) == PageOf(y) && x % PAGE_SIZE == y % PAGE_SIZE ==> x == y
  {
  }

  /** The new boundary meets no other chunk's page. */
  lemma SplitPages(a: Arena, id: Id, req: nat, spare: Id, j: Id)
    requires SplitReady(a, id, req, spare) && j in a.chunks && j != id
    ensures
      var c, b := a.chunks[id], a.chunks[id].start + req;
      && PageOf(a.chunks[j].start) != PageOf(b)
      && (a.chunks[j].start < b ==> a.chunks[j].size != WILD && End(a.chunks[j]) <= c.start)
      && (a.chunks[j].start >= b ==> c.size != WILD && End(c) <= a.chunks[j].start)
  {
    var c, d, b := a.chunks[id], a.chunks[j], a.chunks[id].start + req;
    assert Apart(a, id, j) && Apart(a, j, id);
    if d.start < c.start {
      PagesFollow(d.start, c.start);
      PagesFollow(c.start, b);
    } else {
      PagesFollow(b, d.start);
      PagesFollow(c.start, d.start);
    }
  }

  lemma SplitEnd(a: Arena, id: Id, req: nat, spare: Id)
    requires SplitReady(a, id, req, spare) && a.chunks[id].size != WILD
    ensures PageOf(End(a.chunks[id])) != PageOf(a.chunks[id].start + req)
    ensures PageOf(End(a.chunks[id])) != PageOf(a.chunks[id].start)
  {
    var c := a.chunks[id];
    PagesFollow(c.start + req, End(c));
    PagesFollow(c.start, End(c));
  }

  lemma SplitApart(a: Arena, id: Id, req: nat, spare: Id, i: Id, j: Id)
    requires SplitReady(a, id, req, spare) && req > 0 && PageOf(a.chunks[id].start + req) != PageOf(a.chunks[id].start)
    ensures Apart(Cut(a, id, req, spare), i, j)
  {
    assert Apart(a, i, j) && ChunkOk(a, id);
    if i in a.chunks && i != id { SplitPages(a, id, req, spare, i); }
    if j in a.chunks && j != id { SplitPages(a, id, req, spare, j); }
    if i == spare && j in a.chunks { assert Apart(a, id, j); }
    if j == spare && i in a.chunks { assert Apart(a, i, id); }
  }

  lemma SplitChunk(a: Arena, id: Id, req: nat, spare: Id, i: Id)
    requires SplitReady(a, id, req, spare) && req > 0 && PageOf(a.chunks[id].start + req) != PageOf(a.chunks[id].start)
    ensures ChunkOk(Cut(a, id, req, spare), i)
  {
    assert ChunkOk(a, id) && ChunkOk(a, i);
    if a.chunks[id].size != WILD {
      SplitEnd(a, id, req, spare);
    }
    if i in a.chunks && i != id {
      SplitPages(a, id, req, spare, i);
      SplitNeighbour(a, id, req, spare, i);
    }
  }

  /** A chunk beside the split one keeps its records, but for the one naming the split
      chunk's last byte. */
  lemma SplitNeighbour(a: Arena, id: Id, req: nat, spare: Id, i: Id)
    requires SplitReady(a, id, req, spare) && req > 0 && PageOf(a.chunks[id].start + req) != PageOf(a.chunks[id].start)
    requires i in a.chunks && i != id
    ensures ChunkOk(Cut(a, id, req, spare), i)
  {
    var a' := Cut(a, id, req, spare);
    var c, d := a.chunks[id], a.chunks[i];
    SplitPages(a, id, req, spare, i);
    assert ChunkOk(a, i) && ChunkOk(a, id);
    if c.size != WILD {
      SplitEnd(a, id, req, spare);
    }
    if d.size != WILD {
      var n := Tag(a, End(d)).starts.value;
      if n != id {
        SplitPages(a, id, req, spare, n);
      }
      assert PageOf(End(d)) != PageOf(c.start + req);
      assert c.size != WILD && PageOf(End(d)) == PageOf(End(c)) ==> End(d) == End(c);
    }
  }

  lemma SplitTag(a: Arena, id: Id, req: nat, spare: Id, pg: nat)
    requires SplitReady(a, id, req, spare)
    ensures TagOk(Cut(a, id, req, spare), pg)
  {
    assert TagOk(a, pg) && ChunkOk(a, id);
    if a.chunks[id].size != WILD {
      SplitEnd(a, id, req, spare);
      assert TagOk(a, PageOf(End(a.chunks[id])));
    }
  }

  /** Where cutting `req` bytes off a chunk keeps the tiling: the new boundary is a file offset
      and falls into another page than the chunk's start. */
  predicate CleanCut(c: Chunk, req: nat) {
    c.start + req < WILD && PageOf(c.start + req) != PageOf(c.start)
  }

  /** A split keeps the tiling exactly when it is a clean cut, and a page or more always is
      one while offsets last. */
  lemma SplitTiled(a: Arena, id: Id, req: nat, spare: Id)
    requires SplitMay(a, id, req, spare)
    ensures Tiled(Split(a, id, req, spare)) <==> CleanCut(a.chunks[id], req)
    ensures req >= PAGE_SIZE && a.chunks[id].start + req < WILD ==> CleanCut(a.chunks[id], req)
  {
    var a' := Split(a, id, req, spare);
    var c := a.chunks[id];
    PagesFollow(c.start, c.start + req);
    if c.start + req >= WILD {
      assert !ChunkOk(a', id);
      return;
    }
    NoWrap(a, id, req, spare);
    if PageOf(c.start + req) != PageOf(c.start) {
      forall i ensures ChunkOk(a', i) { SplitChunk(a, id, req, spare, i); }
      forall i, j ensures Apart(a', i, j) { SplitApart(a, id, req, spare, i, j); }
      forall pg ensures TagOk(a', pg) { SplitTag(a, id, req, spare, pg); }
      SplitZero(a, id, req, spare);
    } else {
      assert !Apart(a', id, spare);
    }
  }

  /** A fresh file is one wilderness chunk. */
  function FreshArena(): Arena {
    Arena(map[0 := Chunk(0, WILD, 0, false, false)], map[0 := PgInfo(0, None, Some(0))], 0)
  }

  lemma FreshTiled()
    ensures Tiled(FreshArena())
  {
  }

  /** An eight-byte request on a fresh file is accepted and overwrites the only record of
      the block's start, so the block can no longer be found to be freed. */
  lemma SmallRequestBreaksTiling()
    ensures SplitReady(FreshArena(), 0, 8, 1) && !Tiled(Split(FreshArena(), 0, 8, 1))
    ensures Split(FreshArena(), 0, 8, 1).chunks[0].start == 0 && Tag(Split(FreshArena(), 0, 8, 1), 0).boundary != 0
  {
    FreshTiled();
    SplitTiled(FreshArena(), 0, 8, 1);
  }

  lemma SplitZero(a: Arena, id: Id, req: nat, spare: Id)
    requires SplitReady(a, id, req, spare) && PageOf(a.chunks[id].start + req) != PageOf(a.chunks[id].start)
    ensures var a' := Cut(a, id, req, spare);
      WildOk(a') && Tag(a', 0).starts.Some? && Tag(a', 0).boundary == 0
  {
    assert ChunkOk(a, id) && ChunkOk(a, a.wild);
    PagesFollow(a.chunks[id].start, a.chunks[id].start + req);
    if a.chunks[id].size != WILD {
      SplitEnd(a, id, req, spare);
    }
  }

  // ---------------------------------------------------------------- merging

  /** Absorb the following chunk `n`, which must not be busy, nor the wilderness. */
  ghost predicate MergeReady(a: Arena, id: Id, n: Id) {
    && Tiled(a) && id in a.chunks && n in a.chunks && a.chunks[id].size != WILD
    && Tag(a, End(a.chunks[id])).starts == Some(n)
    && !Busy(a.chunks[n]) && a.chunks[n].size != WILD
  }

  function Merge(a: Arena, id: Id, n: Id): Arena
    requires id in a.chunks && n in a.chunks
  {
    var c, d := a.chunks[id], a.chunks[n];
    var tags := a.tags[PageOf(End(c)) := PgInfo(NO_BOUNDARY, None, None)];
    Arena((a.chunks - {n})[id := c.(size := c.size + d.size)],
          tags[PageOf(End(d)) := TagAt(tags, PageOf(End(d))).(ends := Some(id))],
          a.wild)
  }

  ghost predicate CanMerge(a: Arena, id: Id, budget: nat)
    requires id in a.chunks
  {
    && Tag(a, End(a.chunks[id])).starts.Some?
    && var n := Tag(a, End(a.chunks[id])).starts.value;
    n in a.chunks && !Busy(a.chunks[n]) && a.chunks[n].size != WILD && a.chunks[n].size <= budget
  }

  /** One merge happened, and the budget paid for exactly the absorbed bytes. */
  ghost predicate MergedNext(a: Arena, a': Arena, id: Id, budget: nat, left: nat) {
    && id in a.chunks && id in a'.chunks && |a'.chunks| < |a.chunks|
    && a'.chunks[id] == a.chunks[id].(size := a'.chunks[id].size)
    && a'.chunks[id].size + left == a.chunks[id].size + budget && left <= budget
    && Tag(a, End(a.chunks[id])).starts.Some?
    && var n := Tag(a, End(a.chunks[id])).starts.value;
    MergeReady(a, id, n) && a' == Merge(a, id, n)
  }

  lemma MergeFacts(a: Arena, id: Id, n: Id)
    requires MergeReady(a, id, n)
    ensures
      var c, d := a.chunks[id], a.chunks[n];
      && n != id && n != a.wild && d.start == End(c) && End(c) < End(d) < WILD
      && PageOf(c.start) < PageOf(End(c)) < PageOf(End(d))
      && Tag(a, End(d)).starts.Some? && Tag(a, End(d)).starts.value in a.chunks
      && a.chunks[Tag(a, End(d)).starts.value].start == End(d)
      && Tag(a, End(d)).starts.value != n && Tag(a, End(d)).starts.value != id
  {
    var c, d := a.chunks[id], a.chunks[n];
    assert ChunkOk(a, id) && ChunkOk(a, n) && ChunkOk(a, a.wild);
    var m := Tag(a, End(d)).starts.value;
    assert Apart(a, id, n) && Apart(a, n, m);
    PagesFollow(c.start, End(c));
    PagesFollow(End(c), End(d));
  }

  lemma MergeChunk(a: Arena, id: Id, n: Id, i: Id)
    requires MergeReady(a, id, n)
    ensures ChunkOk(Merge(a, id, n), i)
  {
    MergeFacts(a, id, n);
    assert ChunkOk(a, id) && ChunkOk(a, n) && ChunkOk(a, i);
    if i in a.chunks && i != id && i != n {
      MergeNeighbour(a, id, n, i);
    }
  }

  lemma MergeNeighbour(a: Arena, id: Id, n: Id, i: Id)
    requires MergeReady(a, id, n) && i in a.chunks && i != id && i != n
    ensures ChunkOk(Merge(a, id, n), i)
  {
    MergeFacts(a, id, n);
    assert ChunkOk(a, id) && ChunkOk(a, n) && ChunkOk(a, i);
    assert Apart(a, i, n) && Apart(a, i, id);
    var c, d, e := a.chunks[id], a.chunks[n], a.chunks[i];
    if e.size != WILD {
      var m := Tag(a, End(e)).starts.value;
      assert m != n;
      assert ChunkOk(a, m) && Apart(a, m, n);
    }
  }

  lemma MergeApart(a: Arena, id: Id, n: Id, i: Id, j: Id)
    requires MergeReady(a, id, n)
    ensures Apart(Merge(a, id, n), i, j)
  {
    MergeFacts(a, id, n);
    assert Apart(a, i, j) && Apart(a, n, j) && Apart(a, j, n);
  }

  lemma MergeTag(a: Arena, id: Id, n: Id, pg: nat)
    requires MergeReady(a, id, n)
    ensures TagOk(Merge(a, id, n), pg)
  {
    MergeFacts(a, id, n);
    assert TagOk(a, pg) && TagOk(a, PageOf(End(a.chunks[n]))) && ChunkOk(a, n);
  }

  lemma MergeTiled(a: Arena, id: Id, n: Id)
    requires MergeReady(a, id, n)
    ensures Tiled(Merge(a, id, n))
  {
    var a' := Merge(a, id, n);
    forall i ensures ChunkOk(a', i) { MergeChunk(a, id, n, i); }
    forall i, j ensures Apart(a', i, j) { MergeApart(a, id, n, i, j); }
    forall pg ensures TagOk(a', pg) { MergeTag(a, id, n, pg); }
    MergeFacts(a, id, n);
    assert ChunkOk(a, id) && ChunkOk(a, a.wild);
  }

  // ---------------------------------------------------------------- flags

  /** Change what is known about a chunk other than the wilderness, not where it lies. */
  function Reflag(a: Arena, id: Id, lastFreed: Ts, taken: bool, freeing: bool): Arena
    requires id in a.chunks
  {
    a.(chunks := a.chunks[id := a.chunks[id].(lastFreed := lastFreed, taken := taken, freeing := freeing)])
  }

  lemma ReflagTiled(a: Arena, id: Id, lastFreed: Ts, taken: bool, freeing: bool)
    requires Tiled(a) && id in a.chunks && id != a.wild
    ensures Tiled(Reflag(a, id, lastFreed, taken, freeing))
  {
    var a' := Reflag(a, id, lastFreed, taken, freeing);
    forall i ensures ChunkOk(a', i) { assert ChunkOk(a, i); }
    forall i, j ensures Apart(a', i, j) { assert Apart(a, i, j); }
    forall pg ensures TagOk(a', pg) { assert TagOk(a, pg); }
  }

  /** What merging may do to the chunks: absorb free ones, so that the rest grow. Chunks
      that are handed out stay where they are and never lose a byte. */
  ghost predicate Coalesced(was: map<Id, Chunk>, now: map<Id, Chunk>) {
    forall id {:trigger CoalescedAt(was, now, id)} :: CoalescedAt(was, now, id)
  }

  ghost predicate CoalescedAt(was: map<Id, Chunk>, now: map<Id, Chunk>, id: Id) {
    && (id in was && Busy(was[id]) ==> id in now)
    && (id in now ==> id in was && now[id] == was[id].(size := now[id].size) && was[id].size <= now[id].size)
  }

  lemma CoalescedTrans(c0: map<Id, Chunk>, c1: map<Id, Chunk>, c2: map<Id, Chunk>)
    requires Coalesced(c0, c1) && Coalesced(c1, c2)
    ensures Coalesced(c0, c2)
  {
    forall id ensures CoalescedAt(c0, c2, id) {
      assert CoalescedAt(c0, c1, id) && CoalescedAt(c1, c2, id);
    }
  }

  lemma MergeDone(a: Arena, id: Id, n: Id, budget: nat)
    requires MergeReady(a, id, n) && a.chunks[n].size <= budget
    ensures Tiled(Merge(a, id, n)) && Coalesced(a.chunks, Merge(a, id, n).chunks)
    ensures MergedNext(a, Merge(a, id, n), id, budget, budget - a.chunks[n].size)
  {
    MergeFacts(a, id, n);
    MergeTiled(a, id, n);
    var a' := Merge(a, id, n);
    assert a'.chunks.Keys == a.chunks.Keys - {n};
    assert |a'.chunks.Keys| < |a.chunks.Keys|;
  }

  /** What the forward loop comes to: absorb the next chunk while that is possible. */
  ghost function Ahead(a: Arena, id: Id, budget: nat): (Arena, nat)
    requires Tiled(a) && id in a.chunks
    decreases |a.chunks|
  {
    if a.chunks[id].size != WILD && CanMerge(a, id, budget) then
      var n := Tag(a, End(a.chunks[id])).starts.value;
      MergeDone(a, id, n, budget);
      Ahead(Merge(a, id, n), id, budget - a.chunks[n].size)
    else (a, budget)
  }

  lemma AheadStep(a: Arena, a': Arena, id: Id, budget: nat, left: nat)
    requires Tiled(a) && Tiled(a') && id in a.chunks && a.chunks[id].size != WILD
    requires CanMerge(a, id, budget) && MergedNext(a, a', id, budget, left)
    ensures Ahead(a, id, budget) == Ahead(a', id, left)
  {
    MergeDone(a, id, Tag(a, End(a.chunks[id])).starts.value, budget);
  }

  /** What the backward loop comes to: be absorbed by the chunk in front, whatever its flags,
      and go on with that one. A busy chunk is never absorbed itself. */
  ghost function Back(a: Arena, id: Id, budget: nat): (Arena, Id)
    requires Tiled(a) && id in a.chunks
    decreases |a.chunks|
  {
    assert ChunkOk(a, id);
    var prev := Tag(a, a.chunks[id].start).ends;
    if prev.Some? && CanMerge(a, prev.value, budget) then
      PrevMerges(a, id, prev.value);
      MergeDone(a, prev.value, id, budget);
      Back(Merge(a, prev.value, id), prev.value, budget - a.chunks[id].size)
    else (a, id)
  }

  /** The chunk in front of `id` has `id` behind it. */
  lemma PrevMerges(a: Arena, id: Id, prev: Id)
    requires Tiled(a) && id in a.chunks && Tag(a, a.chunks[id].start).ends == Some(prev)
    ensures prev in a.chunks && a.chunks[prev].size != WILD && Tag(a, End(a.chunks[prev])).starts == Some(id)
  {
    assert ChunkOk(a, id);
  }

  lemma MergedBounded(a: Arena, id: Id)
    requires Tiled(a) && id in a.chunks
    ensures a.chunks[id].size == WILD ==> id == a.wild && !Busy(a.chunks[id])
  {
    assert ChunkOk(a, id);
  }

  /** The freed chunk before any merging; an abort keeps the time of the last real free. */
  function Unflagged(chunks: map<Id, Chunk>, id: Id, commitTs: Ts): map<Id, Chunk>
    requires id in chunks
  {
    var c := chunks[id];
    chunks[id := Chunk(c.start, c.size, if commitTs != INVALID_TS then commitTs else c.lastFreed, false, false)]
  }

  function Taken(a: Arena, id: Id): Arena
    requires id in a.chunks
  {
    a.(chunks := a.chunks[id := a.chunks[id].(taken := true)])
  }

  ghost function Carved(a: Arena, id: Id, req: nat, kmem: Option<Id>): Arena
    requires id in a.chunks && req <= a.chunks[id].size
  {
    Taken(if a.chunks[id].size > req + PAGE_SIZE && kmem.Some? then Split(a, id, req, kmem.value) else a, id)
  }

  predicate Inside(inner: Chunk, outer: Chunk) {
    outer.start <= inner.start && (outer.size == WILD || (inner.size != WILD && End(inner) <= End(outer)))
  }

  /** Every chunk afterwards is part of one before, and has its time. */
  lemma CarvedPiece(a: Arena, id: Id, req: nat, kmem: Option<Id>, j: Id) returns (k: Id)
    requires id in a.chunks && req <= a.chunks[id].size && (kmem.Some? ==> kmem.value !in a.chunks)
    requires a.chunks[id].size > req + PAGE_SIZE && kmem.Some? ==> (a.chunks[id].start + req) % OFFSET_SPAN == a.chunks[id].start + req
    requires a.chunks[id].size <= WILD && j in Carved(a, id, req, kmem).chunks
    ensures k in a.chunks
    ensures var c' := Carved(a, id, req, kmem).chunks[j];
      Inside(c', a.chunks[k]) && c'.lastFreed == a.chunks[k].lastFreed
  {
    k := if kmem == Some(j) then id else j;
  }

  lemma InSpan(x: nat)
    requires x < WILD
    ensures x % OFFSET_SPAN == x
  {
  }

  lemma BoundedEnd(a: Arena, id: Id)
    requires Tiled(a) && id in a.chunks
    ensures a.chunks[id].size <= WILD && (a.chunks[id].size != WILD ==> End(a.chunks[id]) < WILD)
  {
    assert ChunkOk(a, id);
  }

  lemma CoveredOnce(a: Arena, x: nat, i: Id, k: Id)
    requires Tiled(a) && i in a.chunks && k in a.chunks && Covers(a.chunks[i], x) && Covers(a.chunks[k], x)
    ensures i == k
  {
    assert Apart(a, i, k) && Apart(a, k, i);
  }

  /** Handing out the front of a chunk: no byte changes its time, as long as offsets do not wrap. */
  lemma CarvedTimes(a: Arena, id: Id, req: nat, kmem: Option<Id>)
    requires Tiled(a) && id in a.chunks && req <= a.chunks[id].size && (kmem.Some? ==> kmem.value !in a.chunks)
    requires Tiled(Carved(a, id, req, kmem))
    ensures SameTimes(a.chunks, Carved(a, id, req, kmem).chunks)
  {
    var now := Carved(a, id, req, kmem).chunks;
    BoundedEnd(a, id);
    BoundedEnd(Carved(a, id, req, kmem), id);
    if a.chunks[id].size > req + PAGE_SIZE && kmem.Some? {
      InSpan(a.chunks[id].start + req);
    }
    forall x: nat, i: Id, j: Id ensures SameTime(a.chunks, now, x, i, j) {
      if i in a.chunks && j in now && Covers(a.chunks[i], x) && Covers(now[j], x) {
        var k := CarvedPiece(a, id, req, kmem, j);
        CoveredOnce(a, x, i, k);
      }
    }
  }

  /** Taking a chunk neither makes nor breaks a tiling. */
  lemma TakenTiled(a: Arena, id: Id)
    requires id in a.chunks && id != a.wild
    ensures Tiled(a) <==> Tiled(Taken(a, id))
  {
    var c, a' := a.chunks[id], Taken(a, id);
    if Tiled(a) {
      ReflagTiled(a, id, c.lastFreed, true, c.freeing);
    }
    if Tiled(a') {
      ReflagTiled(a', id, c.lastFreed, c.taken, c.freeing);
      assert Reflag(a', id, c.lastFreed, c.taken, c.freeing) == a;
    }
  }

  /** A record with the right boundary names the chunk starting at the offset. */
  lemma StartsThere(a: Arena, off: nat)
    requires Tiled(a) && Tag(a, off).starts.Some? && Tag(a, off).boundary == off % PAGE_SIZE
    ensures Tag(a, off).starts.value in a.chunks && a.chunks[Tag(a, off).starts.value].start == off
  {
    assert TagOk(a, PageOf(off));
    var id := Tag(a, off).starts.value;
    assert ChunkOk(a, id);
    var s := a.chunks[id].start;
    if s <= off { PagesFollow(s, off); } else { PagesFollow(off, s); }
  }

  // ---------------------------------------------------------------- a whole free

  /** Everything below offset `at`, and what ends there, is as before. */
  ghost predicate SameBelow(a: Arena, a': Arena, at: nat) {
    && Tag(a', at).ends == Tag(a, at).ends
    && forall i {:trigger SameAt(a, a', i)} :: i in a.chunks && a.chunks[i].start < at ==> SameAt(a, a', i)
  }

  ghost predicate SameAt(a: Arena, a': Arena, i: Id)
    requires i in a.chunks
  {
    i in a'.chunks && a'.chunks[i] == a.chunks[i] && Tag(a', a.chunks[i].start).ends == Tag(a, a.chunks[i].start).ends
  }

  lemma SameBelowTrans(a0: Arena, a1: Arena, a2: Arena, at: nat)
    requires SameBelow(a0, a1, at) && SameBelow(a1, a2, at)
    ensures SameBelow(a0, a2, at)
  {
    forall i | i in a0.chunks && a0.chunks[i].start < at ensures SameAt(a0, a2, i) {
      assert SameAt(a0, a1, i);
      assert SameAt(a1, a2, i);
    }
  }

  lemma MergeBelow(a: Arena, id: Id, n: Id)
    requires MergeReady(a, id, n)
    ensures SameBelow(a, Merge(a, id, n), a.chunks[id].start)
  {
    MergeFacts(a, id, n);
    var a', c := Merge(a, id, n), a.chunks[id];
    forall i | i in a.chunks && a.chunks[i].start < c.start ensures SameAt(a, a', i) {
      PagesFollow(a.chunks[i].start, c.start);
    }
  }

  /** The forward loop touches nothing in front of the chunk. */
  lemma {:induction false} AheadFacts(a: Arena, id: Id, budget: nat)
    requires Tiled(a) && id in a.chunks && a.chunks[id].size != WILD
    ensures
      var (a', left) := Ahead(a, id, budget);
      && Tiled(a') && id in a'.chunks && a'.wild == a.wild
      && a'.chunks[id] == a.chunks[id].(size := a'.chunks[id].size) && a'.chunks[id].size != WILD
      && a'.chunks[id].size + left == a.chunks[id].size + budget
      && a.chunks[id].size <= a'.chunks[id].size
      && SameBelow(a, a', a.chunks[id].start)
    decreases |a.chunks|
  {
    if CanMerge(a, id, budget) {
      var n := Tag(a, End(a.chunks[id])).starts.value;
      MergeDone(a, id, n, budget);
      MergeFacts(a, id, n);
      MergeBelow(a, id, n);
      var a1 := Merge(a, id, n);
      AheadFacts(a1, id, budget - a.chunks[n].size);
      SameBelowTrans(a, a1, Ahead(a, id, budget).0, a.chunks[id].start);
    }
  }

  /** Chunk `n` starts at `at` and may be absorbed. */
  ghost predicate Loose(a: Arena, n: Id, at: nat, budget: nat) {
    n in a.chunks && a.chunks[n].start == at && !Busy(a.chunks[n]) && a.chunks[n].size != WILD && 0 < a.chunks[n].size <= budget
  }

  /** The forward loop, told on the arena before it: how many bytes of free, bounded chunks lie
      one behind the other from `at` on, as long as the budget covers each of them. */
  ghost function Reach(a: Arena, at: nat, budget: nat): nat
    decreases budget
  {
    if exists n :: Loose(a, n, at, budget) then
      var n :| Loose(a, n, at, budget);
      a.chunks[n].size + Reach(a, at + a.chunks[n].size, budget - a.chunks[n].size)
    else 0
  }

  lemma StartUnique(a: Arena, n: Id, m: Id)
    requires Tiled(a) && n in a.chunks && m in a.chunks && a.chunks[n].start == a.chunks[m].start
    ensures n == m
  {
    assert Apart(a, n, m);
  }

  lemma ReachStep(a: Arena, n: Id, at: nat, budget: nat)
    requires Tiled(a) && Loose(a, n, at, budget)
    ensures Reach(a, at, budget) == a.chunks[n].size + Reach(a, at + a.chunks[n].size, budget - a.chunks[n].size)
  {
    forall m | Loose(a, m, at, budget) ensures m == n {
      StartUnique(a, n, m);
    }
  }

  /** From `at` on the two arenas hold the same chunks. */
  ghost predicate SameAbove(a: Arena, a': Arena, at: nat) {
    forall i {:trigger SameFrom(a, a', at, i)} :: SameFrom(a, a', at, i)
  }

  ghost predicate SameFrom(a: Arena, a': Arena, at: nat, i: Id) {
    && (i in a.chunks && a.chunks[i].start >= at ==> i in a'.chunks && a'.chunks[i] == a.chunks[i])
    && (i in a'.chunks && a'.chunks[i].start >= at ==> i in a.chunks && a.chunks[i] == a'.chunks[i])
  }

  lemma {:induction false} ReachAbove(a: Arena, a': Arena, from: nat, at: nat, budget: nat)
    requires Tiled(a) && Tiled(a') && SameAbove(a, a', from) && from <= at
    ensures Reach(a', at, budget) == Reach(a, at, budget)
    decreases budget
  {
    forall n: Id ensures Loose(a, n, at, budget) <==> Loose(a', n, at, budget) {
      assert SameFrom(a, a', from, n);
    }
    if n :| Loose(a, n, at, budget) {
      ReachStep(a, n, at, budget);
      ReachStep(a', n, at, budget);
      assert SameFrom(a, a', from, n);
      ReachAbove(a, a', from, at + a.chunks[n].size, budget - a.chunks[n].size);
    }
  }

  lemma MergeAbove(a: Arena, id: Id, n: Id)
    requires MergeReady(a, id, n)
    ensures SameAbove(a, Merge(a, id, n), End(a.chunks[n]))
  {
    MergeFacts(a, id, n);
    assert ChunkOk(a, n) && ChunkOk(a, id);
    forall i: Id ensures SameFrom(a, Merge(a, id, n), End(a.chunks[n]), i) {
    }
  }

  /** What lies behind chunk `id` may be absorbed exactly if the page record says so. */
  lemma LooseBehind(a: Arena, id: Id, budget: nat)
    requires Tiled(a) && id in a.chunks && a.chunks[id].size != WILD
    ensures
      var n := Tag(a, End(a.chunks[id])).starts;
      && n.Some? && (CanMerge(a, id, budget) <==> Loose(a, n.value, End(a.chunks[id]), budget))
      && forall m :: Loose(a, m, End(a.chunks[id]), budget) ==> m == n.value
  {
    assert ChunkOk(a, id);
    var n := Tag(a, End(a.chunks[id])).starts.value;
    assert ChunkOk(a, n);
    forall m | Loose(a, m, End(a.chunks[id]), budget) ensures m == n {
      StartUnique(a, n, m);
    }
  }

  /** One round of the forward loop, beside one round of the reference. */
  lemma AheadRound(a: Arena, id: Id, budget: nat) returns (a1: Arena, left: nat)
    requires Tiled(a) && id in a.chunks && a.chunks[id].size != WILD && CanMerge(a, id, budget)
    ensures Tiled(a1) && id in a1.chunks && a1.chunks[id].size != WILD && |a1.chunks| < |a.chunks|
    ensures left <= budget && a1.chunks[id].size + left == a.chunks[id].size + budget
    ensures Ahead(a, id, budget) == Ahead(a1, id, left)
    ensures Reach(a, End(a.chunks[id]), budget) == budget - left + Reach(a1, End(a1.chunks[id]), left)
  {
    LooseBehind(a, id, budget);
    var n := Tag(a, End(a.chunks[id])).starts.value;
    ReachStep(a, n, End(a.chunks[id]), budget);
    MergeDone(a, id, n, budget);
    MergeFacts(a, id, n);
    MergeAbove(a, id, n);
    a1, left := Merge(a, id, n), budget - a.chunks[n].size;
    MergedBounded(a1, id);
    ReachAbove(a, a1, End(a.chunks[n]), End(a.chunks[n]), left);
  }

  lemma NoReach(a: Arena, id: Id, budget: nat)
    requires Tiled(a) && id in a.chunks && a.chunks[id].size != WILD && !CanMerge(a, id, budget)
    ensures Reach(a, End(a.chunks[id]), budget) == 0
  {
    LooseBehind(a, id, budget);
  }

  lemma {:induction false} AheadReaches(a: Arena, id: Id, budget: nat)
    requires Tiled(a) && id in a.chunks && a.chunks[id].size != WILD
    ensures id in Ahead(a, id, budget).0.chunks
    ensures Ahead(a, id, budget).0.chunks[id].size == a.chunks[id].size + Reach(a, End(a.chunks[id]), budget)
    decreases |a.chunks|
  {
    if CanMerge(a, id, budget) {
      var a1, left := AheadRound(a, id, budget);
      AheadReaches(a1, id, left);
    } else {
      NoReach(a, id, budget);
    }
  }

  /** The backward loop, told on the arena before it: starting with `size` bytes at `at` and
      `budget` to spend, the bytes move into the chunk in front as long as the budget covers
      them, past free chunks, until a busy one has swallowed them. */
  ghost predicate Swallowed(a: Arena, at: nat, size: nat, budget: nat)
    decreases at
  {
    match Tag(a, at).ends
    case None => false
    case Some(p) =>
      && size <= budget && p in a.chunks && a.chunks[p].start < at
      && (Busy(a.chunks[p]) || Swallowed(a, a.chunks[p].start, a.chunks[p].size + size, budget - size))
  }

  /** Where the bytes lie in the end. */
  ghost function Landing(a: Arena, at: nat, size: nat, budget: nat): nat
    decreases at
  {
    match Tag(a, at).ends
    case None => at
    case Some(p) =>
      if size <= budget && p in a.chunks && a.chunks[p].start < at then
        if Busy(a.chunks[p]) then a.chunks[p].start
        else Landing(a, a.chunks[p].start, a.chunks[p].size + size, budget - size)
      else at
  }

  lemma {:induction false} SwallowedBelow(a: Arena, a': Arena, at: nat, size: nat, budget: nat)
    requires Tiled(a) && SameBelow(a, a', at)
    requires Tag(a, at).ends.Some? ==>
      Tag(a, at).ends.value in a.chunks && a.chunks[Tag(a, at).ends.value].start < at
    ensures Swallowed(a', at, size, budget) <==> Swallowed(a, at, size, budget)
    ensures Landing(a', at, size, budget) == Landing(a, at, size, budget)
    decreases at
  {
    if Tag(a, at).ends.Some? && size <= budget {
      var p := Tag(a, at).ends.value;
      assert SameAt(a, a', p);
      var s := a.chunks[p].start;
      forall i | i in a.chunks && a.chunks[i].start < s ensures SameAt(a, a', i) {
      }
      assert SameBelow(a, a', s);
      if Tag(a, s).ends.Some? {
        PrevBefore(a, p);
      }
      SwallowedBelow(a, a', s, a.chunks[p].size + size, budget - size);
    }
  }

  lemma PrevBefore(a: Arena, id: Id)
    requires Tiled(a) && id in a.chunks && Tag(a, a.chunks[id].start).ends.Some?
    ensures
      var p := Tag(a, a.chunks[id].start).ends.value;
      p in a.chunks && p != id && a.chunks[p].start < a.chunks[id].start && End(a.chunks[p]) == a.chunks[id].start
  {
    assert ChunkOk(a, id);
    var p := Tag(a, a.chunks[id].start).ends.value;
    assert ChunkOk(a, p);
  }

  /** `home` holds the bytes of chunk `c`, which is all that lies behind its own start. */
  ghost predicate Holds(a: Arena, home: Id, c: Chunk) {
    && Tiled(a) && home in a.chunks && a.chunks[home].size != WILD
    && a.chunks[home].start <= c.start && End(a.chunks[home]) == End(c)
  }

  /** One round of the backward loop. */
  lemma BackStep(a: Arena, id: Id, p: Id, budget: nat)
    requires Tiled(a) && id in a.chunks && !Busy(a.chunks[id]) && a.chunks[id].size != WILD
    requires Tag(a, a.chunks[id].start).ends == Some(p)
    ensures p in a.chunks && p != id
    ensures a.chunks[id].size > budget ==> Back(a, id, budget) == (a, id)
    ensures a.chunks[id].size <= budget ==>
      && MergeReady(a, p, id)
      && var a1 := Merge(a, p, id);
      && Tiled(a1) && |a1.chunks| < |a.chunks| && p in a1.chunks && a1.chunks[p].size != WILD
      && a1.chunks[p] == a.chunks[p].(size := a.chunks[p].size + a.chunks[id].size)
      && a.chunks[p].start < a.chunks[id].start && End(a1.chunks[p]) == End(a.chunks[id])
      && Back(a, id, budget) == Back(a1, p, budget - a.chunks[id].size)
  {
    PrevBefore(a, id);
    PrevMerges(a, id, p);
    if a.chunks[id].size <= budget {
      MergeDone(a, p, id, budget);
      MergeFacts(a, p, id);
    }
  }

  /** The chunks in front of the merged one are the same ones. */
  lemma SwallowedStep(a: Arena, id: Id, p: Id, size: nat, budget: nat)
    requires MergeReady(a, p, id)
    ensures Swallowed(Merge(a, p, id), a.chunks[p].start, size, budget) <==> Swallowed(a, a.chunks[p].start, size, budget)
    ensures Landing(Merge(a, p, id), a.chunks[p].start, size, budget) == Landing(a, a.chunks[p].start, size, budget)
  {
    MergeBelow(a, p, id);
    if Tag(a, a.chunks[p].start).ends.Some? {
      PrevBefore(a, p);
    }
    SwallowedBelow(a, Merge(a, p, id), a.chunks[p].start, size, budget);
  }

  /** One round of the reference loop. */
  lemma SwallowedRound(a: Arena, at: nat, p: Id, size: nat, budget: nat)
    requires Tag(a, at).ends == Some(p) && p in a.chunks && a.chunks[p].start < at && size <= budget
    ensures Busy(a.chunks[p]) ==> Swallowed(a, at, size, budget) && Landing(a, at, size, budget) == a.chunks[p].start
    ensures !Busy(a.chunks[p]) ==>
      && (Swallowed(a, at, size, budget) <==> Swallowed(a, a.chunks[p].start, a.chunks[p].size + size, budget - size))
      && Landing(a, at, size, budget) == Landing(a, a.chunks[p].start, a.chunks[p].size + size, budget - size)
  {
  }

  lemma NotSwallowed(a: Arena, at: nat, size: nat, budget: nat)
    requires Tag(a, at).ends.None? || size > budget
    ensures !Swallowed(a, at, size, budget) && Landing(a, at, size, budget) == at
  {
  }

  /** Where the backward loop leaves the bytes. */
  ghost predicate BackTo(a: Arena, id: Id, budget: nat, a': Arena, home: Id)
    requires id in a.chunks
  {
    && Holds(a', home, a.chunks[id])
    && a'.chunks[home].start == Landing(a, a.chunks[id].start, a.chunks[id].size, budget)
    && (Busy(a'.chunks[home]) <==> Swallowed(a, a.chunks[id].start, a.chunks[id].size, budget))
  }

  /** Merging into a free chunk in front leaves the rest to the loop from there. */
  lemma BackRound(a: Arena, id: Id, p: Id, budget: nat, a': Arena, home: Id)
    requires Tiled(a) && id in a.chunks && !Busy(a.chunks[id]) && a.chunks[id].size != WILD && a.chunks[id].size <= budget
    requires Tag(a, a.chunks[id].start).ends == Some(p) && p in a.chunks && !Busy(a.chunks[p]) && MergeReady(a, p, id)
    requires p in Merge(a, p, id).chunks && BackTo(Merge(a, p, id), p, budget - a.chunks[id].size, a', home)
    requires Merge(a, p, id).chunks[p] == a.chunks[p].(size := a.chunks[p].size + a.chunks[id].size)
    requires a.chunks[p].start < a.chunks[id].start && End(Merge(a, p, id).chunks[p]) == End(a.chunks[id])
    ensures BackTo(a, id, budget, a', home)
  {
    SwallowedRound(a, a.chunks[id].start, p, a.chunks[id].size, budget);
    SwallowedStep(a, id, p, a.chunks[p].size + a.chunks[id].size, budget - a.chunks[id].size);
  }

  lemma BackOnce(a: Arena, id: Id, p: Id, budget: nat)
    requires Tiled(a) && id in a.chunks && !Busy(a.chunks[id]) && a.chunks[id].size != WILD && a.chunks[id].size <= budget
    requires Tag(a, a.chunks[id].start).ends == Some(p) && p in a.chunks && Busy(a.chunks[p])
    ensures BackTo(a, id, budget, Back(a, id, budget).0, Back(a, id, budget).1)
  {
    BackStep(a, id, p, budget);
    SwallowedRound(a, a.chunks[id].start, p, a.chunks[id].size, budget);
    BackStops(Merge(a, p, id), p, budget - a.chunks[id].size);
  }

  /** Where the backward loop leaves the bytes of a free chunk: with a busy block exactly when
      they are swallowed. */
  lemma {:induction false} BackSwallowed(a: Arena, id: Id, budget: nat)
    requires Tiled(a) && id in a.chunks && !Busy(a.chunks[id]) && a.chunks[id].size != WILD
    ensures BackTo(a, id, budget, Back(a, id, budget).0, Back(a, id, budget).1)
    decreases |a.chunks|
  {
    var c := a.chunks[id];
    if Tag(a, c.start).ends.None? || c.size > budget {
      NotSwallowed(a, c.start, c.size, budget);
      BackStays(a, id, budget);
    } else {
      var p := Tag(a, c.start).ends.value;
      BackStep(a, id, p, budget);
      if Busy(a.chunks[p]) {
        BackOnce(a, id, p, budget);
      } else {
        var a1, left := Merge(a, p, id), budget - c.size;
        BackSwallowed(a1, p, left);
        BackRound(a, id, p, budget, Back(a1, p, left).0, Back(a1, p, left).1);
      }
    }
  }

  lemma BackStays(a: Arena, id: Id, budget: nat)
    requires Tiled(a) && id in a.chunks && !Busy(a.chunks[id]) && a.chunks[id].size != WILD
    requires Tag(a, a.chunks[id].start).ends.None? || a.chunks[id].size > budget
    ensures Back(a, id, budget) == (a, id)
  {
    if Tag(a, a.chunks[id].start).ends.Some? {
      BackStep(a, id, Tag(a, a.chunks[id].start).ends.value, budget);
    }
  }

  lemma BackStops(a: Arena, id: Id, budget: nat)
    requires Tiled(a) && id in a.chunks && Busy(a.chunks[id])
    ensures Back(a, id, budget) == (a, id)
  {
    if Tag(a, a.chunks[id].start).ends.Some? {
      PrevBefore(a, id);
      PrevMerges(a, id, Tag(a, a.chunks[id].start).ends.value);
    }
  }

  /** The arena with the flags of a freed chunk cleared, before any merging. */
  ghost function Cleared(a: Arena, id: Id, commitTs: Ts): Arena
    requires id in a.chunks
  {
    a.(chunks := Unflagged(a.chunks, id, commitTs))
  }

  lemma ClearedTiled(a: Arena, id: Id, commitTs: Ts)
    requires Tiled(a) && id in a.chunks && id != a.wild
    ensures Tiled(Cleared(a, id, commitTs)) && a.chunks[id].size != WILD && a.chunks[id].size > 0
    ensures SameBelow(a, Cleared(a, id, commitTs), a.chunks[id].start)
  {
    assert ChunkOk(a, id);
    var u := Cleared(a, id, commitTs);
    ReflagTiled(a, id, u.chunks[id].lastFreed, false, false);
    assert u == Reflag(a, id, u.chunks[id].lastFreed, false, false);
    forall i | i in a.chunks && a.chunks[i].start < a.chunks[id].start ensures SameAt(a, u, i) {
    }
  }

  /** Clear the flags, then merge forward with four times the chunk's size as budget. */
  ghost function FreedAhead(a: Arena, id: Id, commitTs: Ts): (Arena, nat)
    requires Tiled(a) && id in a.chunks && id != a.wild
  {
    ClearedTiled(a, id, commitTs);
    Ahead(Cleared(a, id, commitTs), id, 4 * a.chunks[id].size)
  }

  /** How many bytes the chunk has by then. */
  ghost function SizeAhead(a: Arena, id: Id, commitTs: Ts): nat
    requires Tiled(a) && id in a.chunks && id != a.wild
  {
    FreedAheadFacts(a, id, commitTs);
    FreedAhead(a, id, commitTs).0.chunks[id].size
  }

  lemma FreedAheadFacts(a: Arena, id: Id, commitTs: Ts)
    requires Tiled(a) && id in a.chunks && id != a.wild
    ensures
      var (a', left) := FreedAhead(a, id, commitTs);
      var c := a.chunks[id];
      && Tiled(a') && id in a'.chunks && a'.wild == a.wild && a'.chunks[id].start == c.start && !Busy(a'.chunks[id])
      && a'.chunks[id].size != WILD && c.size <= a'.chunks[id].size && a'.chunks[id].size + left == 5 * c.size
      && SameBelow(a, a', c.start)
  {
    ClearedTiled(a, id, commitTs);
    var u := Cleared(a, id, commitTs);
    AheadFacts(u, id, 4 * a.chunks[id].size);
    SameBelowTrans(a, u, FreedAhead(a, id, commitTs).0, a.chunks[id].start);
  }

  lemma SizeAheadIs(a: Arena, id: Id, commitTs: Ts)
    requires Tiled(a) && id in a.chunks && id != a.wild
    ensures SizeAhead(a, id, commitTs) == a.chunks[id].size + Reach(a, End(a.chunks[id]), 4 * a.chunks[id].size)
  {
    ClearedTiled(a, id, commitTs);
    ClearedAbove(a, id, commitTs);
    ReachesToo(a, Cleared(a, id, commitTs), id, 4 * a.chunks[id].size);
  }

  lemma ReachesToo(a: Arena, u: Arena, id: Id, budget: nat)
    requires Tiled(a) && Tiled(u) && id in a.chunks && id in u.chunks && u.chunks[id].size != WILD
    requires u.chunks[id].start == a.chunks[id].start && u.chunks[id].size == a.chunks[id].size
    requires SameAbove(a, u, End(a.chunks[id]))
    ensures id in Ahead(u, id, budget).0.chunks
    ensures Ahead(u, id, budget).0.chunks[id].size == a.chunks[id].size + Reach(a, End(a.chunks[id]), budget)
  {
    AheadReaches(u, id, budget);
    ReachAbove(a, u, End(a.chunks[id]), End(a.chunks[id]), budget);
  }

  lemma ClearedAbove(a: Arena, id: Id, commitTs: Ts)
    requires id in a.chunks && a.chunks[id].size > 0
    ensures SameAbove(a, Cleared(a, id, commitTs), End(a.chunks[id]))
  {
    forall i: Id ensures SameFrom(a, Cleared(a, id, commitTs), End(a.chunks[id]), i) {
    }
  }

  /** A whole _sivfs_free_block that meets no failure: merged forward, then backward with what
      is left of the budget. Gives the arena and the chunk the bytes end up in. */
  ghost function FreedTo(a: Arena, id: Id, commitTs: Ts): (Arena, Id)
    requires Tiled(a) && id in a.chunks && id != a.wild
  {
    FreedAheadFacts(a, id, commitTs);
    Back(FreedAhead(a, id, commitTs).0, id, FreedAhead(a, id, commitTs).1)
  }

  /** `a'` and `home` are what merging chunk `id` both ways comes to. */
  ghost predicate MergedBoth(a: Arena, id: Id, a': Arena, home: Id)
    requires Tiled(a) && id in a.chunks
  {
    var (a1, left) := Ahead(a, id, 4 * a.chunks[id].size);
    Tiled(a1) && id in a1.chunks && (a', home) == Back(a1, id, left)
  }

  lemma FreedIsMerged(a: Arena, id: Id, commitTs: Ts, a': Arena, home: Id)
    requires Tiled(a) && id in a.chunks && id != a.wild && Tiled(Cleared(a, id, commitTs))
    requires MergedBoth(Cleared(a, id, commitTs), id, a', home)
    ensures (a', home) == FreedTo(a, id, commitTs)
  {
  }

  /** Freed space is lost to a busy block in front, rather than listed, exactly when it is
      swallowed on the arena as it was before the free. */
  lemma FreedSwallowed(a: Arena, id: Id, commitTs: Ts)
    requires Tiled(a) && id in a.chunks && id != a.wild
    ensures
      var c, s := a.chunks[id], SizeAhead(a, id, commitTs);
      var (a', home) := FreedTo(a, id, commitTs);
      && c.size <= s <= 5 * c.size && Holds(a', home, c.(size := s))
      && a'.chunks[home].start == Landing(a, c.start, s, 5 * c.size - s)
      && (Busy(a'.chunks[home]) <==> Swallowed(a, c.start, s, 5 * c.size - s))
  {
    FreedAheadFacts(a, id, commitTs);
    BackFromAhead(a, FreedAhead(a, id, commitTs).0, id, FreedAhead(a, id, commitTs).1);
  }

  lemma BackFromAhead(a: Arena, a1: Arena, id: Id, left: nat)
    requires Tiled(a) && id in a.chunks && Tiled(a1) && id in a1.chunks && a1.chunks[id].start == a.chunks[id].start
    requires !Busy(a1.chunks[id]) && a1.chunks[id].size != WILD && SameBelow(a, a1, a.chunks[id].start)
    ensures
      var at, s := a.chunks[id].start, a1.chunks[id].size;
      var (a', home) := Back(a1, id, left);
      && Holds(a', home, a.chunks[id].(size := s)) && a'.chunks[home].start == Landing(a, at, s, left)
      && (Busy(a'.chunks[home]) <==> Swallowed(a, at, s, left))
  {
    BackSwallowed(a1, id, left);
    FrontSame(a, a1, id, a1.chunks[id].size, left);
  }

  lemma FrontSame(a: Arena, a1: Arena, id: Id, size: nat, budget: nat)
    requires Tiled(a) && id in a.chunks && SameBelow(a, a1, a.chunks[id].start)
    ensures
      var at := a.chunks[id].start;
      && (Swallowed(a1, at, size, budget) <==> Swallowed(a, at, size, budget))
      && Landing(a1, at, size, budget) == Landing(a, at, size, budget)
  {
    if Tag(a, a.chunks[id].start).ends.Some? {
      PrevBefore(a, id);
    }
    SwallowedBelow(a, a1, a.chunks[id].start, size, budget);
  }

  /** The first round of the backward loop decides whether the bytes leave their chunk. */
  lemma BackLeaves(a: Arena, id: Id, budget: nat)
    requires Tiled(a) && id in a.chunks && !Busy(a.chunks[id]) && a.chunks[id].size != WILD
    ensures
      var (a', home) := Back(a, id, budget);
      && home in a'.chunks
      && if Tag(a, a.chunks[id].start).ends.Some? && a.chunks[id].size <= budget
         then a'.chunks[home].start < a.chunks[id].start else (a', home) == (a, id)
  {
    if Tag(a, a.chunks[id].start).ends.Some? {
      var p := Tag(a, a.chunks[id].start).ends.value;
      BackStep(a, id, p, budget);
      if a.chunks[id].size <= budget {
        var a1 := Merge(a, p, id);
        if Busy(a.chunks[p]) {
          BackStops(a1, p, budget - a.chunks[id].size);
        } else {
          BackSwallowed(a1, p, budget - a.chunks[id].size);
        }
      }
    }
  }

  /** So freed bytes stay in their own chunk, and keep the time of their free, exactly when
      nothing lies in front or the budget does not cover them. Otherwise they go under the time
      of the chunk they end up in, which may have been free for longer. */
  lemma FreedLeaves(a: Arena, id: Id, commitTs: Ts)
    requires Tiled(a) && id in a.chunks && id != a.wild
    ensures
      var (a', home) := FreedTo(a, id, commitTs);
      && home in a'.chunks
      && if Tag(a, a.chunks[id].start).ends.Some? && 2 * SizeAhead(a, id, commitTs) <= 5 * a.chunks[id].size
         then a'.chunks[home].start < a.chunks[id].start else home == id
  {
    FreedAheadFacts(a, id, commitTs);
    var (a1, left) := FreedAhead(a, id, commitTs);
    BackLeaves(a1, id, left);
    FrontTag(a, a1, id);
  }

  lemma FrontTag(a: Arena, a1: Arena, id: Id)
    requires Tiled(a) && Tiled(a1) && id in a.chunks && id in a1.chunks && a1.chunks[id].start == a.chunks[id].start
    requires SameBelow(a, a1, a.chunks[id].start)
    ensures Tag(a, a.chunks[id].start).ends.Some? <==> Tag(a1, a.chunks[id].start).ends.Some?
  {
    assert ChunkOk(a, id) && ChunkOk(a1, id);
  }

  lemma {:induction false} AheadCoalesced(a: Arena, id: Id, budget: nat)
    requires Tiled(a) && id in a.chunks
    ensures Coalesced(a.chunks, Ahead(a, id, budget).0.chunks)
    decreases |a.chunks|
  {
    if a.chunks[id].size != WILD && CanMerge(a, id, budget) {
      var n := Tag(a, End(a.chunks[id])).starts.value;
      MergeDone(a, id, n, budget);
      var a1 := Merge(a, id, n);
      AheadCoalesced(a1, id, budget - a.chunks[n].size);
      CoalescedTrans(a.chunks, a1.chunks, Ahead(a, id, budget).0.chunks);
    }
  }

  lemma {:induction false} BackCoalesced(a: Arena, id: Id, budget: nat)
    requires Tiled(a) && id in a.chunks
    ensures Coalesced(a.chunks, Back(a, id, budget).0.chunks)
    decreases |a.chunks|
  {
    assert ChunkOk(a, id);
    var prev := Tag(a, a.chunks[id].start).ends;
    if prev.Some? && CanMerge(a, prev.value, budget) {
      PrevMerges(a, id, prev.value);
      MergeDone(a, prev.value, id, budget);
      var a1 := Merge(a, prev.value, id);
      BackCoalesced(a1, prev.value, budget - a.chunks[id].size);
      CoalescedTrans(a.chunks, a1.chunks, Back(a, id, budget).0.chunks);
    }
  }

  lemma FreedCoalesced(a: Arena, id: Id, commitTs: Ts)
    requires Tiled(a) && id in a.chunks && id != a.wild
    ensures Coalesced(Unflagged(a.chunks, id, commitTs), FreedTo(a, id, commitTs).0.chunks)
  {
    ClearedTiled(a, id, commitTs);
    FreedAheadFacts(a, id, commitTs);
    var (a1, left) := FreedAhead(a, id, commitTs);
    AheadCoalesced(Cleared(a, id, commitTs), id, 4 * a.chunks[id].size);
    BackCoalesced(a1, id, left);
    CoalescedTrans(Unflagged(a.chunks, id, commitTs), a1.chunks, FreedTo(a, id, commitTs).0.chunks);
  }

  /** Where the bytes of a freed chunk end up, told on the arena before the free: the free
      chunks behind it that four times its size covers join it, and then it joins those in front
      of it as far as the rest of the budget goes. The bytes are lost exactly if they end up in
      a busy block, and leave their chunk exactly if there is one in front and they are not too
      many. */
  ghost predicate RestsIn(a: Arena, id: Id, a': Arena, home: Id)
    requires id in a.chunks
  {
    var c := a.chunks[id];
    var s := c.size + Reach(a, End(c), 4 * c.size);
    && home in a.chunks && home in a'.chunks && s <= 5 * c.size
    && a'.chunks[home].start == Landing(a, c.start, s, 5 * c.size - s) && End(a'.chunks[home]) == c.start + s
    && (Busy(a'.chunks[home]) <==> Swallowed(a, c.start, s, 5 * c.size - s))
    && (home != id <==> Tag(a, c.start).ends.Some? && 2 * s <= 5 * c.size)
  }

  /** What a free that meets no failure comes to. */
  lemma FreedReport(a: Arena, id: Id, commitTs: Ts, a': Arena, home: Id)
    requires Tiled(a) && id in a.chunks && id != a.wild && (a', home) == FreedTo(a, id, commitTs)
    ensures RestsIn(a, id, a', home)
    ensures home != id ==> home in a.chunks && a'.chunks[home] == a.chunks[home].(size := a'.chunks[home].size)
  {
    FreedSwallowed(a, id, commitTs);
    SizeAheadIs(a, id, commitTs);
    FreedLeaves(a, id, commitTs);
    FreedCoalesced(a, id, commitTs);
    assert CoalescedAt(Unflagged(a.chunks, id, commitTs), a'.chunks, home);
  }

  /** With a busy block directly in front: swallowed exactly when twice the size after merging
      forward is within five times the freed size, so always when nothing was merged. */
  lemma SwallowedByNeighbour(a: Arena, id: Id, commitTs: Ts)
    requires Tiled(a) && id in a.chunks && id != a.wild
    requires Tag(a, a.chunks[id].start).ends.Some?
    ensures
      var p := Tag(a, a.chunks[id].start).ends.value;
      var (a', home) := FreedTo(a, id, commitTs);
      && p in a.chunks && home in a'.chunks
      && (Busy(a.chunks[p]) ==>
            && (Busy(a'.chunks[home]) <==> 2 * SizeAhead(a, id, commitTs) <= 5 * a.chunks[id].size)
            && (SizeAhead(a, id, commitTs) == a.chunks[id].size ==> Busy(a'.chunks[home])))
  {
    FreedSwallowed(a, id, commitTs);
    PrevBefore(a, id);
  }

  /** Several frees, one after the other. */
  ghost function FreedAll(a: Arena, ids: seq<Id>, commitTs: Ts): Arena
    decreases |ids|
  {
    if ids != [] && Tiled(a) && ids[0] in a.chunks && ids[0] != a.wild then
      FreedAll(FreedTo(a, ids[0], commitTs).0, ids[1..], commitTs)
    else a
  }
}
