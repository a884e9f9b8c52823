/** Slab objects of the user-space allocator (lib/sivfs_allocator.h): one size class with
    its circular free list threaded through the free regions, and slabs cut up from the
    front. */
module SlabAllocator {
  import opened Types
  import opened SlabBins

  // ---------------------------------------------------------------- the header word

  const SIZE_SPAN: nat := 0x4000_0000               // bits 0-29
  const INDEX_SPAN: nat := 0x1_0000                 // bits 30-45
  const MAGIC_SPAN: nat := 0x1_0000                 // bits 46-61
  const FREED_MAGIC: nat := 0xdead
  const MAX_SLAB_ELTS: nat := 0xFFFF

  function PackHeader(size: nat, index: nat, magic: nat, isHead: bool): nat {
    size + SIZE_SPAN * (index + INDEX_SPAN * (magic + MAGIC_SPAN * (if isHead then 1 else 0)))
  }

  function HeaderSize(w: nat): nat {
    w % SIZE_SPAN
  }

  function HeaderIndex(w: nat): nat {
    w / SIZE_SPAN % INDEX_SPAN
  }

  function HeaderMagic(w: nat): nat {
    w / SIZE_SPAN / INDEX_SPAN % MAGIC_SPAN
  }

  function HeaderIsHead(w: nat): bool {
    w / SIZE_SPAN / INDEX_SPAN / MAGIC_SPAN % 2 == 1
  }

  /** Every field of a slab object's header reads back, whatever the others hold. */
  lemma HeaderRoundTrip(size: nat, index: nat, magic: nat, isHead: bool)
    requires size < SIZE_SPAN && index < INDEX_SPAN && magic < MAGIC_SPAN
    ensures
      var w := PackHeader(size, index, magic, isHead);
      HeaderSize(w) == size && HeaderIndex(w) == index && HeaderMagic(w) == magic && HeaderIsHead(w) == isHead
  {
    var top := if isHead then 1 else 0;
    var w := PackHeader(size, index, magic, isHead);
    var x := index + INDEX_SPAN * (magic + MAGIC_SPAN * top);
    var y := magic + MAGIC_SPAN * top;
    assert w == size + 0x4000_0000 * x && w / 0x4000_0000 == x;
    assert x == index + 0x1_0000 * y && x / 0x1_0000 == y;
    assert y / 0x1_0000 == top;
  }

  // ---------------------------------------------------------------- regions and slabs

  datatype Region = Region(size: nat, index: nat, free: bool, isHead: bool, next: nat, prev: nat)

  /** The word in front of a region. */
  function HeaderOf(r: Region): nat {
    PackHeader(r.size, r.index, if r.free then FREED_MAGIC else 0, r.isHead)
  }

  /** sivfs_allocated_region_set_flags: other flags, everything else as it was. */
  function SetFlags(w: nat, magic: nat, isHead: bool): nat {
    PackHeader(HeaderSize(w), HeaderIndex(w), magic, isHead)
  }

  /** Another size with the flags and the index as they were. */
  function Resized(w: nat, size: nat): nat {
    PackHeader(size, HeaderIndex(w), HeaderMagic(w), HeaderIsHead(w))
  }

  /** Room for regions from the slab's first one on, and how many there are so far. */
  datatype Slab = Slab(room: nat, count: nat)

  function Elem(b: nat, i: nat, elt: nat): nat {
    b + i * elt
  }

  /** Region `a` is element number `index` of its slab; only the last one, while free, may be
      longer than an element. */
  ghost predicate RegionOk(elt: nat, m: map<nat, Region>, slabs: map<nat, Slab>, a: nat) {
    a in m ==>
      var r := m[a];
      && r.index * elt <= a && (a - r.index * elt) in slabs
      && var slab := slabs[a - r.index * elt];
      && r.index < slab.count
      && elt <= r.size && r.index * elt + r.size <= slab.room
      && (r.index + 1 < slab.count || !r.free ==> r.size == elt)
  }

  /** Slabs do not overlap and hold all their elements. */
  ghost predicate SlabOk(elt: nat, m: map<nat, Region>, slabs: map<nat, Slab>, b: nat) {
    b in slabs ==>
      && slabs[b].count > 0 && slabs[b].room <= elt * MAX_SLAB_ELTS && slabs[b].room < SIZE_SPAN
      && forall i {:trigger Elem(b, i, elt)} :: 0 <= i < slabs[b].count ==>
           Elem(b, i, elt) in m && m[Elem(b, i, elt)].index == i
  }

  ghost predicate SlabsApart(slabs: map<nat, Slab>, b: nat, c: nat) {
    b in slabs && c in slabs && b < c ==> b + slabs[b].room <= c
  }

  ghost predicate Laid(elt: nat, m: map<nat, Region>, slabs: map<nat, Slab>) {
    && elt > 0
    && (forall a {:trigger RegionOk(elt, m, slabs, a)} :: RegionOk(elt, m, slabs, a))
    && (forall b {:trigger SlabOk(elt, m, slabs, b)} :: SlabOk(elt, m, slabs, b))
    && (forall b, c {:trigger SlabsApart(slabs, b, c)} :: SlabsApart(slabs, b, c))
  }

  /** sivfs_alloc_region_to_block_head: the index leads back to the slab's first region. */
  lemma WalkBack(elt: nat, m: map<nat, Region>, slabs: map<nat, Slab>, a: nat)
    requires Laid(elt, m, slabs) && a in m
    ensures
      var base := a - m[a].index * elt;
      && 0 <= base <= a && base in slabs && base in m && m[base].index == 0
      && a + m[a].size <= base + slabs[base].room
  {
    assert RegionOk(elt, m, slabs, a);
    var base := a - m[a].index * elt;
    assert SlabOk(elt, m, slabs, base);
    assert Elem(base, 0, elt) == base;
  }

  /** So every field fits its place in the word, and the word says everything. */
  lemma HeaderFits(elt: nat, m: map<nat, Region>, slabs: map<nat, Slab>, a: nat)
    requires Laid(elt, m, slabs) && a in m
    ensures m[a].size < SIZE_SPAN && m[a].index < MAX_SLAB_ELTS
  {
    assert RegionOk(elt, m, slabs, a);
    assert SlabOk(elt, m, slabs, a - m[a].index * elt);
    IndexFits(m[a].index, elt, m[a].size, slabs[a - m[a].index * elt].room);
  }

  lemma IndexFits(i: nat, elt: nat, size: nat, room: nat)
    requires 0 < elt <= size && i * elt + size <= room <= elt * MAX_SLAB_ELTS
    ensures i < MAX_SLAB_ELTS
  {
    if i >= MAX_SLAB_ELTS {
      MulMonotone(MAX_SLAB_ELTS, i, elt);
    }
  }

  lemma HeaderReads(elt: nat, m: map<nat, Region>, slabs: map<nat, Slab>, a: nat)
    requires Laid(elt, m, slabs) && a in m
    ensures
      var w, r := HeaderOf(m[a]), m[a];
      && HeaderSize(w) == r.size && HeaderIndex(w) == r.index && HeaderIsHead(w) == r.isHead
      && HeaderMagic(w) == if r.free then FREED_MAGIC else 0
  {
    HeaderFits(elt, m, slabs, a);
    HeaderRoundTrip(m[a].size, m[a].index, if m[a].free then FREED_MAGIC else 0, m[a].isHead);
  }

  /** The words in memory are those of the regions. */
  ghost predicate Worded(words: map<nat, nat>, m: map<nat, Region>) {
    && words.Keys == m.Keys
    && forall a {:trigger WordAt(words, m, a)} :: WordAt(words, m, a)
  }

  ghost predicate WordAt(words: map<nat, nat>, m: map<nat, Region>, a: nat) {
    a in m && a in words ==> words[a] == HeaderOf(m[a])
  }

  lemma WordedPut(words: map<nat, nat>, m: map<nat, Region>, a: nat, r: Region)
    requires Worded(words, m)
    ensures Worded(words[a := HeaderOf(r)], m[a := r])
  {
    var words', m' := words[a := HeaderOf(r)], m[a := r];
    forall x: nat ensures WordAt(words', m', x) { assert WordAt(words, m, x); }
  }

  lemma WordedLinks(words: map<nat, nat>, m: map<nat, Region>, m': map<nat, Region>)
    requires Worded(words, m) && SameLayout(m, m') && forall a :: a in m ==> m'[a].isHead == m[a].isHead
    ensures Worded(words, m')
  {
    forall x: nat ensures WordAt(words, m', x) { assert WordAt(words, m, x); }
  }

  /** Cutting region `a`: its own word loses bytes, the rest gets a word with the next index. */
  function CutWords(elt: nat, words: map<nat, nat>, a: nat): map<nat, nat>
    requires a in words && HeaderSize(words[a]) >= elt
  {
    var w := words[a];
    words[a := Resized(w, elt)][a + elt := PackHeader(HeaderSize(w) - elt, HeaderIndex(w) + 1, FREED_MAGIC, false)]
  }

  lemma WordedCut(elt: nat, m: map<nat, Region>, slabs: map<nat, Slab>, words: map<nat, nat>, a: nat)
    requires Laid(elt, m, slabs) && Worded(words, m) && a in m && m[a].free && m[a].size >= 2 * elt
    ensures a in words && HeaderSize(words[a]) == m[a].size
    ensures Worded(CutWords(elt, words, a), CutMap(elt, m, a))
  {
    assert WordAt(words, m, a);
    HeaderReads(elt, m, slabs, a);
    WordedPut(words, m, a, m[a].(size := elt));
    var m1 := m[a := m[a].(size := elt)];
    WordedPut(words[a := HeaderOf(m1[a])], m1, a + elt, Region(m[a].size - elt, m[a].index + 1, true, false, 0, 0));
  }

  /** No two regions, live or free, share a byte. */
  lemma RegionsDisjoint(elt: nat, m: map<nat, Region>, slabs: map<nat, Slab>, a: nat, b: nat)
    requires Laid(elt, m, slabs) && a in m && b in m && a < b
    ensures a + m[a].size <= b
  {
    assert RegionOk(elt, m, slabs, a) && RegionOk(elt, m, slabs, b);
    var x, y := a - m[a].index * elt, b - m[b].index * elt;
    assert SlabsApart(slabs, x, y) && SlabsApart(slabs, y, x);
    if x == y {
      IndexOrder(m[a].index, m[b].index, elt);
    }
  }

  lemma IndexOrder(i: nat, j: nat, elt: nat)
    requires i * elt < j * elt
    ensures i < j && i * elt + elt <= j * elt
  {
    if i >= j {
      MulMonotone(j, i, elt);
    } else {
      MulMonotone(i + 1, j, elt);
      assert (i + 1) * elt == i * elt + elt;
    }
  }

  /** Layout is about sizes, positions and what is free, not about links. */
  ghost predicate SameLayout(m: map<nat, Region>, m': map<nat, Region>) {
    && m'.Keys == m.Keys
    && forall a {:trigger m'[a]} :: a in m && a in m' ==>
         m'[a].size == m[a].size && m'[a].index == m[a].index && m'[a].free == m[a].free
  }

  lemma LaidLinks(elt: nat, m: map<nat, Region>, m': map<nat, Region>, slabs: map<nat, Slab>)
    requires Laid(elt, m, slabs) && SameLayout(m, m')
    ensures Laid(elt, m', slabs)
  {
    forall a: nat ensures RegionOk(elt, m', slabs, a) { assert RegionOk(elt, m, slabs, a); }
    forall b: nat ensures SlabOk(elt, m', slabs, b) { assert SlabOk(elt, m, slabs, b); }
  }

  /** A long free region is the last of its slab, and what lies behind its first element is
      nobody's. */
  lemma LongIsLast(elt: nat, m: map<nat, Region>, slabs: map<nat, Slab>, a: nat)
    requires Laid(elt, m, slabs) && a in m && m[a].size >= 2 * elt
    ensures
      var base := a - m[a].index * elt;
      && base >= 0 && base in slabs && slabs[base].count == m[a].index + 1
      && m[a].index + 1 <= MAX_SLAB_ELTS && a + elt !in m
  {
    assert RegionOk(elt, m, slabs, a);
    var base := a - m[a].index * elt;
    assert SlabOk(elt, m, slabs, base);
    if m[a].index + 1 > MAX_SLAB_ELTS {
      MulMonotone(MAX_SLAB_ELTS, m[a].index, elt);
    }
    if a + elt in m {
      RegionsDisjoint(elt, m, slabs, a, a + elt);
    }
  }

  function CutMap(elt: nat, m: map<nat, Region>, a: nat): map<nat, Region>
    requires a in m && m[a].size >= elt
  {
    m[a := m[a].(size := elt)][a + elt := Region(m[a].size - elt, m[a].index + 1, true, false, 0, 0)]
  }

  ghost function CutSlabs(elt: nat, m: map<nat, Region>, slabs: map<nat, Slab>, a: nat): map<nat, Slab>
    requires a in m && m[a].index * elt <= a && a - m[a].index * elt in slabs
  {
    var base := a - m[a].index * elt;
    slabs[base := slabs[base].(count := slabs[base].count + 1)]
  }

  lemma CutLaid(elt: nat, m: map<nat, Region>, slabs: map<nat, Slab>, a: nat)
    requires Laid(elt, m, slabs) && a in m && m[a].size >= 2 * elt && m[a].free
    ensures m[a].index * elt <= a && a - m[a].index * elt in slabs
    ensures Laid(elt, CutMap(elt, m, a), CutSlabs(elt, m, slabs, a))
  {
    LongIsLast(elt, m, slabs, a);
    assert RegionOk(elt, m, slabs, a);
    var base := a - m[a].index * elt;
    var m', slabs' := CutMap(elt, m, a), CutSlabs(elt, m, slabs, a);
    assert (m[a].index + 1) * elt == m[a].index * elt + elt;
    forall x: nat ensures RegionOk(elt, m', slabs', x) {
      assert RegionOk(elt, m, slabs, x);
      if x in m && x != a && x - m[x].index * elt == base {
        RegionIndex(elt, m, slabs, x, a);
      }
    }
    forall b: nat ensures SlabOk(elt, m', slabs', b) {
      assert SlabOk(elt, m, slabs, b);
      if b == base {
        assert Elem(b, m[a].index + 1, elt) == a + elt;
        assert Elem(b, m[a].index, elt) == a;
      }
    }
    forall b: nat, c: nat ensures SlabsApart(slabs', b, c) {
      assert SlabsApart(slabs, b, c);
    }
  }

  /** Two regions of one slab have different indices. */
  lemma RegionIndex(elt: nat, m: map<nat, Region>, slabs: map<nat, Slab>, x: nat, a: nat)
    requires x in m && a in m && x != a
    requires m[x].index * elt <= x && m[a].index * elt <= a && x - m[x].index * elt == a - m[a].index * elt
    ensures m[x].index != m[a].index
  {
  }

  /** Handing a region out shortens it to one element. */
  lemma TakenLaid(elt: nat, m: map<nat, Region>, m': map<nat, Region>, slabs: map<nat, Slab>, a: nat)
    requires Laid(elt, m, slabs) && a in m && a in m' && m' == m[a := m'[a]]
    requires m'[a].size == elt && m'[a].index == m[a].index
    ensures Laid(elt, m', slabs)
  {
    forall x: nat ensures RegionOk(elt, m', slabs, x) { assert RegionOk(elt, m, slabs, x); }
    forall b: nat ensures SlabOk(elt, m', slabs, b) { assert SlabOk(elt, m, slabs, b); }
  }

  /** What a new slab may measure: at least one element, and neither the number of elements nor
      the bytes may run into the other fields of a header. */
  predicate RoomOk(elt: nat, room: nat) {
    elt <= room <= elt * MAX_SLAB_ELTS && room < SIZE_SPAN
  }

  ghost predicate RoomFor(slabs: map<nat, Slab>, base: nat, room: nat) {
    forall b :: b in slabs ==> b + slabs[b].room <= base || base + room <= b
  }

  lemma SlabLaid(elt: nat, m: map<nat, Region>, slabs: map<nat, Slab>, base: nat, room: nat)
    requires Laid(elt, m, slabs) && RoomFor(slabs, base, room) && RoomOk(elt, room)
    ensures base !in m && base !in slabs
    ensures Laid(elt, m[base := Region(room, 0, true, true, base, base)], slabs[base := Slab(room, 1)])
  {
    assert RegionOk(elt, m, slabs, base) && SlabOk(elt, m, slabs, base) && Elem(base, 0, elt) == base;
    if base in m {
      WalkBack(elt, m, slabs, base);
    }
    var m', slabs' := m[base := Region(room, 0, true, true, base, base)], slabs[base := Slab(room, 1)];
    forall x: nat ensures RegionOk(elt, m', slabs', x) { assert RegionOk(elt, m, slabs, x); }
    forall b: nat ensures SlabOk(elt, m', slabs', b) {
      assert SlabOk(elt, m, slabs, b);
      assert Elem(base, 0, elt) == base;
      if b == base {
        forall i: nat | i < 1 ensures Elem(b, i, elt) in m' && m'[Elem(b, i, elt)].index == i {
          assert i == 0;
        }
      }
    }
    forall b: nat, c: nat ensures SlabsApart(slabs', b, c) {
      assert SlabsApart(slabs, b, c);
    }
  }

  // ---------------------------------------------------------------- the circular list

  function Succ(ring: seq<nat>, i: nat): nat
    requires i < |ring|
  {
    if i + 1 < |ring| then ring[i + 1] else ring[0]
  }

  function Pred(ring: seq<nat>, i: nat): nat
    requires i < |ring|
  {
    if i > 0 then ring[i - 1] else ring[|ring| - 1]
  }

  ghost predicate LinkOk(m: map<nat, Region>, ring: seq<nat>, i: nat) {
    i < |ring| ==> ring[i] in m && m[ring[i]].next == Succ(ring, i) && m[ring[i]].prev == Pred(ring, i)
  }

  /** `next` runs through `ring` and back to its head; `prev` is its inverse. */
  ghost predicate RingOk(m: map<nat, Region>, ring: seq<nat>) {
    && (forall i, j :: 0 <= i < j < |ring| ==> ring[i] != ring[j])
    && forall i {:trigger LinkOk(m, ring, i)} :: LinkOk(m, ring, i)
  }

  /** sivfs_alloc_lh_add_ws: four writes that put `x` right behind the head. */
  function AddLinks(m: map<nat, Region>, head: nat, x: nat): map<nat, Region>
    requires head in m && x in m && m[head].next in m && m[m[head].next].prev in m
  {
    var target := m[head].next;
    var before := m[target].prev;
    var m1 := m[x := m[x].(next := target, prev := before)];
    var m2 := m1[before := m1[before].(next := x)];
    m2[target := m2[target].(prev := x)]
  }

  lemma RingAdd(m: map<nat, Region>, ring: seq<nat>, x: nat)
    requires RingOk(m, ring) && |ring| > 0 && x in m && x !in ring
    ensures ring[0] in m && m[ring[0]].next in m && m[m[ring[0]].next].prev in m
    ensures RingOk(AddLinks(m, ring[0], x), [ring[0], x] + ring[1..])
    ensures SameLayout(m, AddLinks(m, ring[0], x))
    ensures forall a :: a in m ==> AddLinks(m, ring[0], x)[a].isHead == m[a].isHead
  {
    assert LinkOk(m, ring, 0);
    var n := |ring|;
    if n > 1 {
      assert LinkOk(m, ring, 1);
    }
    var m' := AddLinks(m, ring[0], x);
    var ring' := [ring[0], x] + ring[1..];
    forall i: nat ensures LinkOk(m', ring', i) {
      if 2 <= i < |ring'| {
        assert LinkOk(m, ring, i - 1);
        assert ring'[i] == ring[i - 1];
      }
    }
  }

  /** sivfs_alloc_lh_remove_ws. */
  function RemoveLinks(m: map<nat, Region>, x: nat): map<nat, Region>
    requires x in m && m[x].prev in m && m[x].next in m
  {
    var before, after := m[x].prev, m[x].next;
    var m1 := m[x := m[x].(next := 0, prev := 0)];
    var m2 := m1[before := m1[before].(next := after)];
    m2[after := m2[after].(prev := before)]
  }

  lemma RingRemove(m: map<nat, Region>, ring: seq<nat>, p: nat)
    requires RingOk(m, ring) && 0 < p < |ring|
    ensures ring[p] in m && m[ring[p]].prev in m && m[ring[p]].next in m && m[ring[p]].next != ring[p]
    ensures RingOk(RemoveLinks(m, ring[p]), ring[..p] + ring[p + 1..])
    ensures SameLayout(m, RemoveLinks(m, ring[p]))
  {
    var q := if p + 1 < |ring| then p + 1 else 0;
    assert LinkOk(m, ring, p) && LinkOk(m, ring, p - 1) && LinkOk(m, ring, q);
    var m' := RemoveLinks(m, ring[p]);
    var ring' := ring[..p] + ring[p + 1..];
    forall i: nat ensures LinkOk(m', ring', i) {
      if i < |ring'| {
        var j := if i < p then i else i + 1;
        assert LinkOk(m, ring, j) && ring'[i] == ring[j];
      }
    }
  }

  /** The list holds exactly the free regions. */
  ghost predicate FreeRing(m: map<nat, Region>, ring: seq<nat>) {
    && RingOk(m, ring)
    && forall a {:trigger a in ring} :: a in ring <==> a in m && m[a].free
  }

  lemma SameLinks(m: map<nat, Region>, m': map<nat, Region>, ring: seq<nat>)
    requires RingOk(m, ring)
    requires forall a :: a in ring && a in m ==> a in m' && m'[a].next == m[a].next && m'[a].prev == m[a].prev
    ensures RingOk(m', ring)
  {
    forall i: nat ensures LinkOk(m', ring, i) {
      assert LinkOk(m, ring, i);
    }
  }

  /** Cut the first element off a long region and list the rest right behind the head. */
  lemma CutRing(elt: nat, m: map<nat, Region>, ring: seq<nat>, a: nat)
    requires FreeRing(m, ring) && |ring| > 0 && a in ring && a in m && m[a].size >= elt && elt > 0 && a + elt !in m
    ensures
      var m1 := CutMap(elt, m, a);
      && ring[0] in m1 && m1[ring[0]].next in m1 && m1[m1[ring[0]].next].prev in m1
      && FreeRing(AddLinks(m1, ring[0], a + elt), [ring[0], a + elt] + ring[1..])
      && SameLayout(m1, AddLinks(m1, ring[0], a + elt))
      && forall x :: x in m1 ==> AddLinks(m1, ring[0], a + elt)[x].isHead == m1[x].isHead
  {
    var m1 := CutMap(elt, m, a);
    assert ring[0] in ring;
    SameLinks(m, m1, ring);
    RingAdd(m1, ring, a + elt);
    var m2, ring' := AddLinks(m1, ring[0], a + elt), [ring[0], a + elt] + ring[1..];
    forall x ensures x in ring' <==> x in m2 && m2[x].free {
      assert ring == [ring[0]] + ring[1..];
      assert x in ring <==> x in m && m[x].free;
    }
  }

  lemma TakenWord(elt: nat, m: map<nat, Region>, slabs: map<nat, Slab>, words: map<nat, nat>, a: nat)
    requires Laid(elt, m, slabs) && Worded(words, m) && a in m
    ensures a in words
    ensures Worded(words[a := PackHeader(elt, HeaderIndex(words[a]), 0, false)], m[a := TakenRegion(elt, m[a])])
  {
    assert WordAt(words, m, a);
    HeaderReads(elt, m, slabs, a);
    WordedPut(words, m, a, TakenRegion(elt, m[a]));
  }

  function TakenRegion(elt: nat, r: Region): Region {
    r.(size := elt, free := false, isHead := false)
  }

  lemma TakeRing(elt: nat, m: map<nat, Region>, ring: seq<nat>, p: nat)
    requires FreeRing(m, ring) && 0 < p < |ring|
    ensures
      && ring[p] in m
      && var m1 := m[ring[p] := TakenRegion(elt, m[ring[p]])];
      && m1[ring[p]].prev in m1 && m1[ring[p]].next in m1
      && FreeRing(RemoveLinks(m1, ring[p]), ring[..p] + ring[p + 1..])
      && SameLayout(m1, RemoveLinks(m1, ring[p]))
  {
    assert ring[p] in ring;
    var m1 := m[ring[p] := TakenRegion(elt, m[ring[p]])];
    SameLinks(m, m1, ring);
    RingRemove(m1, ring, p);
    var m2, ring' := RemoveLinks(m1, ring[p]), ring[..p] + ring[p + 1..];
    forall x ensures x in ring' <==> x in m2 && m2[x].free {
      assert x in ring <==> x in m && m[x].free;
      assert ring == ring[..p] + [ring[p]] + ring[p + 1..];
    }
  }

  /** Live objects are untouched. */
  ghost predicate LiveKept(m: map<nat, Region>, m': map<nat, Region>) {
    forall a {:trigger LiveAt(m, m', a)} :: LiveAt(m, m', a)
  }

  ghost predicate LiveAt(m: map<nat, Region>, m': map<nat, Region>, a: nat) {
    a in m && !m[a].free ==> a in m' && m'[a].size == m[a].size && m'[a].index == m[a].index && !m'[a].free
  }

  ghost predicate SameSizes(m: map<nat, Region>, m': map<nat, Region>) {
    m'.Keys == m.Keys && forall a {:trigger SizeKept(m, m', a)} :: SizeKept(m, m', a)
  }

  ghost predicate SizeKept(m: map<nat, Region>, m': map<nat, Region>, a: nat) {
    a in m && a in m' ==> m'[a].size == m[a].size && m'[a].index == m[a].index
  }

  /** The head flag marks the list's canonical element. */
  ghost predicate HeadOk(m: map<nat, Region>, slot: Option<nat>) {
    forall a {:trigger HeadAt(m, slot, a)} :: HeadAt(m, slot, a)
  }

  ghost predicate HeadAt(m: map<nat, Region>, slot: Option<nat>, a: nat) {
    a in m ==> (m[a].isHead <==> slot == Some(a))
  }

  lemma CutHead(elt: nat, m: map<nat, Region>, m2: map<nat, Region>, slot: Option<nat>, a: nat)
    requires HeadOk(m, slot) && a in m && m[a].free && m[a].size >= elt && a + elt !in m && (slot.Some? ==> slot.value in m)
    requires SameLayout(CutMap(elt, m, a), m2)
    requires forall x :: x in CutMap(elt, m, a) ==> m2[x].isHead == CutMap(elt, m, a)[x].isHead
    ensures HeadOk(m2, slot) && LiveKept(m, m2)
  {
    forall x: nat ensures HeadAt(m2, slot, x) && LiveAt(m, m2, x) {
      assert HeadAt(m, slot, x);
    }
  }

  /** All that `Cut` does to the bin, in one. */
  lemma CutSteps(elt: nat, m: map<nat, Region>, slabs: map<nat, Slab>, words: map<nat, nat>, slot: Option<nat>,
                 ring: seq<nat>, a: nat)
    requires Laid(elt, m, slabs) && FreeRing(m, ring) && HeadOk(m, slot) && Worded(words, m)
    requires ring != [] && slot == Some(ring[0]) && a in ring && a in m && m[a].size >= 2 * elt
    ensures m[a].index * elt <= a && a - m[a].index * elt in slabs && a + elt !in m
    ensures a in words && HeaderSize(words[a]) == m[a].size
    ensures
      var m1 := CutMap(elt, m, a);
      && ring[0] in m1 && m1[ring[0]].next in m1 && m1[m1[ring[0]].next].prev in m1
      && var m2 := AddLinks(m1, ring[0], a + elt);
      && Laid(elt, m2, CutSlabs(elt, m, slabs, a)) && FreeRing(m2, [ring[0], a + elt] + ring[1..])
      && HeadOk(m2, slot) && Worded(CutWords(elt, words, a), m2) && LiveKept(m, m2) && SameLayout(m1, m2)
  {
    assert ring[0] in ring;
    LongIsLast(elt, m, slabs, a);
    CutLaid(elt, m, slabs, a);
    CutRing(elt, m, ring, a);
    var m1 := CutMap(elt, m, a);
    var m2 := AddLinks(m1, ring[0], a + elt);
    LaidLinks(elt, m1, m2, CutSlabs(elt, m, slabs, a));
    CutHead(elt, m, m2, slot, a);
    WordedCut(elt, m, slabs, words, a);
    WordedLinks(CutWords(elt, words, a), m1, m2);
  }

  /** The region a request gets: the one behind the head; if the head is alone, its second
      element, and the head itself only when it has none. */
  ghost function Choice(elt: nat, m: map<nat, Region>, ring: seq<nat>): nat
    requires ring != []
  {
    if |ring| > 1 then ring[1]
    else if ring[0] in m && m[ring[0]].size >= 2 * elt then ring[0] + elt
    else ring[0]
  }

  /** `rest` is `ring` without its element `a` at `p`. */
  ghost predicate TakenAt(ring: seq<nat>, rest: seq<nat>, p: nat, a: nat) {
    p < |ring| && ring[p] == a && rest == ring[..p] + ring[p + 1..]
  }

  /** The region a request may be cut from: the one behind the head, or the head if it is alone. */
  ghost function Origin(ring: seq<nat>): nat
    requires ring != []
  {
    if |ring| > 1 then ring[1] else ring[0]
  }

  /** How many elements a request takes from the front of a region that is long enough: it gets
      the first of the region behind the head, and the second of a lone head. */
  function CutAfter(ring: seq<nat>): nat {
    if |ring| > 1 then 1 else 2
  }

  /** The list after a request: what is left of the region it was cut from comes right behind the
      head. */
  ghost function RestRing(elt: nat, m: map<nat, Region>, ring: seq<nat>): seq<nat>
    requires ring != [] && Origin(ring) in m
  {
    var o, n := Origin(ring), CutAfter(ring);
    var rest := if m[o].size >= (n + 1) * elt then [o + n * elt] else [];
    if |ring| > 1 then [ring[0]] + rest + ring[2..]
    else if m[o].size >= 2 * elt then [o] + rest
    else []
  }

  /** How long a free region is after a request. */
  ghost function RestSize(elt: nat, m: map<nat, Region>, ring: seq<nat>, x: nat): int
    requires ring != [] && Origin(ring) in m
  {
    var o, n := Origin(ring), CutAfter(ring);
    if m[o].size >= (n + 1) * elt && x == o + n * elt then m[o].size - n * elt
    else if x == o then elt
    else if x in m then m[x].size
    else 0
  }

  ghost predicate RestOk(elt: nat, m: map<nat, Region>, ring: seq<nat>, m': map<nat, Region>, ring': seq<nat>) {
    && ring != [] && Origin(ring) in m && ring' == RestRing(elt, m, ring)
    && forall x :: x in ring' ==> x in m' && m'[x].size == RestSize(elt, m, ring, x)
  }

  /** The cuts put the remainder where `RestRing` has it. */
  lemma TakenFrom(elt: nat, m: map<nat, Region>, ring: seq<nat>, ring': seq<nat>, p: nat)
    requires elt > 0 && ring != [] && Origin(ring) in m
    requires
      var o := Origin(ring);
      if |ring| > 1 then
        if m[o].size >= 2 * elt then p == 2 && ring' == [ring[0], o + elt] + ring[1..] else p == 1 && ring' == ring
      else if m[o].size >= 3 * elt then p == 2 && ring' == [o, o + 2 * elt, o + elt]
      else if m[o].size >= 2 * elt then p == 1 && ring' == [o, o + elt]
      else p == 0 && ring' == ring
    ensures TakenAt(ring', RestRing(elt, m, ring), p, Choice(elt, m, ring))
  {
    assert |ring| > 1 ==> ring[1..][1..] == ring[2..];
  }

  ghost predicate BinOk(elt: nat, m: map<nat, Region>, slabs: map<nat, Slab>, words: map<nat, nat>,
                        slot: Option<nat>, ring: seq<nat>)
  {
    && Laid(elt, m, slabs) && FreeRing(m, ring)
    && slot == (if ring == [] then None else Some(ring[0]))
    && HeadOk(m, slot) && Worded(words, m)
  }

  class Bin {
    const elt: nat
    var regions: map<nat, Region>     // the links; the other fields are tied to the words
    var words: map<nat, nat>          // allocated_size of each region
    var slot: Option<nat>             // the bin's free_list
    ghost var slabs: map<nat, Slab>
    ghost var ring: seq<nat>

    ghost predicate Valid()
      reads this
    {
      BinOk(elt, regions, slabs, words, slot, ring)
    }

    constructor (elt: nat)
      requires elt > 0
      ensures Valid() && regions == map[] && slot == None && this.elt == elt
    {
      this.elt := elt;
      regions, words, slot, slabs, ring := map[], map[], None, map[], [];
    }

    /** A new slab: one long free region that is the whole list. */
    method AddSlab(base: nat, room: nat)
      requires Valid() && slot == None && RoomFor(slabs, base, room) && RoomOk(elt, room)
      modifies this`regions, this`words, this`slot, this`slabs, this`ring
      ensures Valid() && slot == Some(base) && ring == [base] && slabs == old(slabs)[base := Slab(room, 1)]
      ensures base !in old(regions) && regions == old(regions)[base := Region(room, 0, true, true, base, base)]
    {
      SlabLaid(elt, regions, slabs, base, room);
      WordedPut(words, regions, base, Region(room, 0, true, true, base, base));
      words := words[base := PackHeader(room, 0, FREED_MAGIC, true)];
      regions := regions[base := Region(room, 0, true, true, base, base)];
      slot := Some(base);
      slabs := slabs[base := Slab(room, 1)];
      ring := [base];
      forall a: nat ensures (a in ring <==> a in regions && regions[a].free) && HeadAt(regions, slot, a) {
        assert a in old(ring) <==> a in old(regions) && old(regions)[a].free;
        assert HeadAt(old(regions), old(slot), a);
      }
    }

    /** sivfs_allocated_region_size. */
    method SizeOf(a: nat) returns (size: nat)
      requires Valid() && a in regions
      ensures size == regions[a].size
    {
      assert WordAt(words, regions, a);
      HeaderReads(elt, regions, slabs, a);
      size := HeaderSize(words[a]);
    }

    /** The test for a double free. */
    method CarriesMagic(a: nat) returns (marked: bool)
      requires Valid() && a in regions
      ensures marked <==> regions[a].free
    {
      assert WordAt(words, regions, a);
      HeaderReads(elt, regions, slabs, a);
      marked := HeaderMagic(words[a]) != 0;
    }

    /** sivfs_alloc_region_to_block_head, up to the header of the block: from a live object the
        word leads to its slab, and the test that a first region is found there passes. */
    method BlockHead(a: nat) returns (found: bool, base: nat)
      requires Valid() && a in regions && !regions[a].free
      ensures found && base in slabs && base <= a && a + elt <= base + slabs[base].room
    {
      WalkBack(elt, regions, slabs, a);
      assert RegionOk(elt, regions, slabs, a) && WordAt(words, regions, a);
      HeaderReads(elt, regions, slabs, a);
      base := a - HeaderIndex(words[a]) * HeaderSize(words[a]);
      assert WordAt(words, regions, base);
      HeaderReads(elt, regions, slabs, base);
      found := HeaderIndex(words[base]) == 0;
    }

    method Cut(a: nat)
      requires Valid() && a in ring && a in regions && regions[a].size >= 2 * elt && slot.Some?
      modifies this`regions, this`words, this`slabs, this`ring
      ensures Valid() && slot == old(slot) && a + elt !in old(regions)
      ensures ring == [old(ring)[0], a + elt] + old(ring)[1..]
      ensures a in regions && a + elt in regions && regions[a].size == elt && regions[a + elt].size == old(regions)[a].size - elt
      ensures LiveKept(old(regions), regions) && regions.Keys == old(regions).Keys + {a + elt}
      ensures forall x :: x in old(regions) && x != a ==> regions[x].size == old(regions)[x].size
    {
      CutSteps(elt, regions, slabs, words, slot, ring, a);
      slabs := CutSlabs(elt, regions, slabs, a);
      regions := AddLinks(CutMap(elt, regions, a), slot.value, a + elt);
      words := CutWords(elt, words, a);
      ring := [ring[0], a + elt] + ring[1..];
    }

    /** sivfs_malloc_ws on a bin: the element behind the head, the head itself only when it is
        the last one and cannot be cut. */
    method Malloc(block: Option<(nat, nat)>) returns (r: Option<nat>)
      requires Valid()
      requires block.Some? ==> RoomFor(slabs, block.value.0, block.value.1) && RoomOk(elt, block.value.1)
      modifies this`regions, this`words, this`slot, this`slabs, this`ring
      ensures Valid() && LiveKept(old(regions), regions)
      ensures r.None? <==> old(slot).None? && block.None?
      ensures r.None? ==> regions == old(regions) && slot == old(slot) && ring == old(ring)
      ensures r.Some? ==> r.value in regions && !regions[r.value].free && regions[r.value].size == elt
      ensures r.Some? ==> r.value !in old(regions) || old(regions)[r.value].free
      ensures r.Some? && r == old(slot) ==> old(ring) == [r.value] && slot == None
      ensures old(slot).Some? ==>
        r == Some(Choice(elt, old(regions), old(ring))) && RestOk(elt, old(regions), old(ring), regions, ring)
      ensures old(slot).None? && block.Some? ==>
        && r == Some(if block.value.1 >= 2 * elt then block.value.0 + elt else block.value.0)
        && RestOk(elt, map[block.value.0 := Region(block.value.1, 0, true, true, block.value.0, block.value.0)], [block.value.0], regions, ring)
    {
      if slot.None? {
        if block.None? {
          return None;
        }
        AddSlab(block.value.0, block.value.1);
      }
      ghost var m0, m1, ring1 := old(regions), regions, ring;
      var a := TakeFirst();
      LiveKeptTrans(m0, m1, regions);
      r := Some(a);
    }

    method TakeFirst() returns (a: nat)
      requires Valid() && slot.Some?
      modifies this`regions, this`words, this`slot, this`slabs, this`ring
      ensures Valid() && LiveKept(old(regions), regions)
      ensures a in regions && !regions[a].free && regions[a].size == elt
      ensures a !in old(regions) || old(regions)[a].free
      ensures Some(a) == old(slot) ==> old(ring) == [a] && slot == None
      ensures old(ring) != [] && a == Choice(elt, old(regions), old(ring))
      ensures RestOk(elt, old(regions), old(ring), regions, ring)
    {
      var head := slot.value;
      ghost var p;
      a, p := First();
      ghost var m1 := regions;
      if a == head {
        TakeHead(a);
      } else {
        TakeBehind(a, p);
      }
      LiveKeptTrans(old(regions), m1, regions);
    }

    /** The first region in list order, cut down to less than two elements. Cutting the head
        starts the search over, with the rest in front of it. */
    method First() returns (a: nat, ghost p: nat)
      requires Valid() && slot.Some?
      modifies this`regions, this`words, this`slabs, this`ring
      ensures Valid() && slot == old(slot) && LiveKept(old(regions), regions)
      ensures a in ring && a in regions && regions[a].size < 2 * elt
      ensures a !in old(regions) || old(regions)[a].free
      ensures a == slot.value ==> ring == [a] && old(ring) == [a] && regions == old(regions)
      ensures a == Choice(elt, old(regions), old(ring)) && Origin(old(ring)) in old(regions)
      ensures TakenAt(ring, RestRing(elt, old(regions), old(ring)), p, a)
      ensures forall x :: x in ring && x != a ==> x in regions && regions[x].size == RestSize(elt, old(regions), old(ring), x)
    {
      assert LinkOk(regions, ring, 0) && forall x :: x in ring ==> x in regions;
      a := regions[slot.value].next;
      assert a in ring;
      if a == slot.value {
        a, p := FirstOfHead(a);
      } else {
        p := FirstBehind(a);
      }
    }

    method FirstBehind(a: nat) returns (ghost p: nat)
      requires Valid() && slot.Some? && |ring| > 1 && a == ring[1] && a in regions && forall x :: x in ring ==> x in regions
      modifies this`regions, this`words, this`slabs, this`ring
      ensures Valid() && slot == old(slot) && LiveKept(old(regions), regions)
      ensures a in regions && regions[a].size < 2 * elt
      ensures TakenAt(ring, RestRing(elt, old(regions), old(ring)), p, a)
      ensures forall x :: x in ring && x != a ==> x in regions && regions[x].size == RestSize(elt, old(regions), old(ring), x)
    {
      assert a in ring;
      var did := SplitLong(a);
      p := if did then 2 else 1;
      TakenFrom(elt, old(regions), old(ring), ring, p);
    }

    method FirstOfHead(head: nat) returns (a: nat, ghost p: nat)
      requires Valid() && slot == Some(head) && ring == [head] && head in regions
      modifies this`regions, this`words, this`slabs, this`ring
      ensures Valid() && slot == old(slot) && LiveKept(old(regions), regions)
      ensures a in regions && regions[a].size < 2 * elt
      ensures
        var size := old(regions)[head].size;
        if size < 2 * elt then regions == old(regions) && ring == [head] && a == head && p == 0
        else && head + elt !in old(regions) && a == head + elt && head in regions && regions[head].size == elt
             && (if size < 3 * elt then ring == [head, head + elt] && p == 1
                 else && ring == [head, head + 2 * elt, head + elt] && p == 2
                      && head + 2 * elt in regions && regions[head + 2 * elt].size == size - 2 * elt)
      ensures TakenAt(ring, RestRing(elt, old(regions), old(ring)), p, a)
    {
      a, p := head, 0;
      assert head in ring;
      var did := SplitLong(head);
      if did {
        ghost var m1 := regions;
        assert LinkOk(regions, ring, 0) && ring == [head, head + elt];
        a := regions[head].next;
        assert a in ring;
        did := SplitLong(a);
        LiveKeptTrans(old(regions), m1, regions);
        p := if did then 2 else 1;
      }
      TakenFrom(elt, old(regions), old(ring), ring, p);
    }

    /** Cut a region that is at least two elements long. */
    method SplitLong(a: nat) returns (did: bool)
      requires Valid() && a in ring && a in regions && slot.Some?
      modifies this`regions, this`words, this`slabs, this`ring
      ensures Valid() && slot == old(slot) && LiveKept(old(regions), regions)
      ensures a in regions && regions[a].free && regions[a].size < 2 * elt && (did <==> old(regions)[a].size >= 2 * elt)
      ensures if old(regions)[a].size < 2 * elt then regions == old(regions) && ring == old(ring)
              else && ring == [old(ring)[0], a + elt] + old(ring)[1..] && a + elt !in old(regions)
                   && regions[a].size == elt && a + elt in regions && regions[a + elt].size == old(regions)[a].size - elt
      ensures forall x :: x in old(regions) && x != a ==> x in regions && regions[x].size == old(regions)[x].size
    {
      var size := SizeOf(a);
      did := size >= 2 * elt;
      if did {
        assert RegionOk(elt, regions, slabs, a);
        Cut(a);
        assert a in ring;
      }
    }

    method TakeHead(a: nat)
      requires Valid() && ring == [a] && a in regions
      modifies this`regions, this`words, this`slot, this`ring
      ensures Valid() && slot == None && ring == [] && LiveKept(old(regions), regions)
      ensures regions == old(regions)[a := TakenRegion(elt, old(regions)[a])]
    {
      assert a in ring;
      TakenLaid(elt, regions, regions[a := TakenRegion(elt, regions[a])], slabs, a);
      TakenWord(elt, regions, slabs, words, a);
      words := words[a := PackHeader(elt, HeaderIndex(words[a]), 0, false)];
      regions := regions[a := TakenRegion(elt, regions[a])];
      slot := None;
      ring := [];
      forall x: nat ensures (x in ring <==> x in regions && regions[x].free) && HeadAt(regions, slot, x) && LiveAt(old(regions), regions, x) {
        assert x in old(ring) <==> x in old(regions) && old(regions)[x].free;
        assert HeadAt(old(regions), old(slot), x);
      }
    }

    method TakeBehind(a: nat, ghost p: nat)
      requires Valid() && p < |ring| && ring[p] == a && slot.Some? && a != slot.value && a in regions
      modifies this`regions, this`words, this`ring
      ensures Valid() && slot == old(slot) && LiveKept(old(regions), regions)
      ensures a in regions && !regions[a].free && regions[a].size == elt
      ensures ring == old(ring)[..p] + old(ring)[p + 1..]
      ensures forall x :: x in regions && x != a ==> x in old(regions) && regions[x].size == old(regions)[x].size
    {
      assert a in ring;
      ghost var m1 := regions[a := TakenRegion(elt, regions[a])];
      TakeRing(elt, regions, ring, p);
      TakenLaid(elt, regions, m1, slabs, a);
      LaidLinks(elt, m1, RemoveLinks(m1, a), slabs);
      TakenHeads(elt, regions, slot, a);
      TakenWord(elt, regions, slabs, words, a);
      words := words[a := PackHeader(elt, HeaderIndex(words[a]), 0, false)];
      WordedLinks(words, m1, RemoveLinks(m1, a));
      regions := RemoveLinks(regions[a := TakenRegion(elt, regions[a])], a);
      ring := ring[..p] + ring[p + 1..];
    }

    /** sivfs_free_ws on a slab object: it joins the list right behind the head, or becomes
        the list. Freeing what is free already is caught. */
    method Free(a: nat) returns (rc: Rc)
      requires Valid() && a in regions
      modifies this`regions, this`words, this`slot, this`ring
      ensures Valid()
      ensures rc == EInval <==> old(regions)[a].free
      ensures rc == EInval ==> regions == old(regions) && slot == old(slot)
      ensures rc != EInval ==> rc == Ok && a in regions && regions[a].free
      ensures rc == Ok ==> LiveKept(old(regions) - {a}, regions) && SameSizes(old(regions), regions)
      ensures rc == Ok ==> ring == if old(slot).None? then [a] else [old(ring)[0], a] + old(ring)[1..]
    {
      var isFree := CarriesMagic(a);
      if isFree {
        return EInval;
      }
      var found, base := BlockHead(a);
      if !found {
        return EInval;
      }
      rc := Ok;
      Relink(a);
    }

    method Relink(a: nat)
      requires Valid() && a in regions && !regions[a].free
      modifies this`regions, this`words, this`slot, this`ring
      ensures Valid() && a in regions && regions[a].free
      ensures LiveKept(old(regions) - {a}, regions) && SameSizes(old(regions), regions)
      ensures ring == if old(slot).None? then [a] else [old(ring)[0], a] + old(ring)[1..]
    {
      FreedBin(elt, regions, slabs, words, slot, ring, a);
      words := words[a := SetFlags(words[a], FREED_MAGIC, slot.None?)];
      regions := FreedMap(regions, slot, a);
      ring := if slot.None? then [a] else [ring[0], a] + ring[1..];
      slot := if slot.None? then Some(a) else slot;
    }
  }

  /** All that `Relink` does to the bin, in one. */
  lemma FreedBin(elt: nat, m: map<nat, Region>, slabs: map<nat, Slab>, words: map<nat, nat>, slot: Option<nat>,
                 ring: seq<nat>, a: nat)
    requires BinOk(elt, m, slabs, words, slot, ring) && a in m && !m[a].free
    ensures slot.Some? ==> ring != [] && slot.value in m && m[slot.value].next in m && m[m[slot.value].next].prev in m
    ensures a in words
    ensures
      var m' := FreedMap(m, slot, a);
      var ring' := if slot.None? then [a] else [ring[0], a] + ring[1..];
      && BinOk(elt, m', slabs, words[a := SetFlags(words[a], FREED_MAGIC, slot.None?)],
               if slot.None? then Some(a) else slot, ring')
      && LiveKept(m - {a}, m') && SameSizes(m, m') && m'[a].free
  {
    FreeSteps(elt, m, slabs, slot, ring, a);
    FreedWord(elt, m, slabs, words, slot, a);
    FreedSizes(m, slot, a);
  }

  lemma FreedSizes(m: map<nat, Region>, slot: Option<nat>, a: nat)
    requires a in m
    requires slot.Some? ==> slot.value in m && m[slot.value].next in m && m[m[slot.value].next].prev in m
    ensures SameSizes(m, FreedMap(m, slot, a)) && FreedMap(m, slot, a)[a].free
  {
    var m' := FreedMap(m, slot, a);
    forall x: nat ensures SizeKept(m, m', x) {
    }
  }

  lemma FreedWord(elt: nat, m: map<nat, Region>, slabs: map<nat, Slab>, words: map<nat, nat>, slot: Option<nat>, a: nat)
    requires Laid(elt, m, slabs) && Worded(words, m) && a in m
    requires slot.Some? ==> slot.value in m && m[slot.value].next in m && m[m[slot.value].next].prev in m
    ensures a in words && Worded(words[a := SetFlags(words[a], FREED_MAGIC, slot.None?)], FreedMap(m, slot, a))
  {
    assert WordAt(words, m, a);
    HeaderReads(elt, m, slabs, a);
    if slot.None? {
      WordedPut(words, m, a, FreedMap(m, slot, a)[a]);
    } else {
      var m1 := AddLinks(m, slot.value, a);
      WordedLinks(words, m, m1);
      WordedPut(words, m1, a, FreedMap(m, slot, a)[a]);
    }
  }

  lemma LiveKeptTrans(m0: map<nat, Region>, m1: map<nat, Region>, m2: map<nat, Region>)
    requires LiveKept(m0, m1) && LiveKept(m1, m2)
    ensures LiveKept(m0, m2)
  {
    forall a: nat ensures LiveAt(m0, m2, a) {
      assert LiveAt(m0, m1, a) && LiveAt(m1, m2, a);
    }
  }

  lemma TakenHeads(elt: nat, m: map<nat, Region>, slot: Option<nat>, a: nat)
    requires HeadOk(m, slot) && a in m && m[a].free && slot != Some(a)
    requires m[a].prev in m && m[a].next in m
    ensures
      var m1 := m[a := TakenRegion(elt, m[a])];
      HeadOk(RemoveLinks(m1, a), slot) && LiveKept(m, RemoveLinks(m1, a))
  {
    var m2 := RemoveLinks(m[a := TakenRegion(elt, m[a])], a);
    forall x: nat ensures HeadAt(m2, slot, x) && LiveAt(m, m2, x) {
      assert HeadAt(m, slot, x);
    }
  }

  /** Marking a live region free where it is. */
  lemma FreedLaid(elt: nat, m: map<nat, Region>, m': map<nat, Region>, slabs: map<nat, Slab>, a: nat)
    requires Laid(elt, m, slabs) && a in m && !m[a].free && a in m' && m' == m[a := m'[a]]
    requires m'[a].size == m[a].size && m'[a].index == m[a].index
    ensures Laid(elt, m', slabs)
  {
    assert RegionOk(elt, m, slabs, a);
    TakenLaid(elt, m, m', slabs, a);
  }

  /** The new links: a list of its own, or right behind the head. */
  function FreedMap(m: map<nat, Region>, slot: Option<nat>, a: nat): map<nat, Region>
    requires a in m
    requires slot.Some? ==> slot.value in m && m[slot.value].next in m && m[m[slot.value].next].prev in m
  {
    if slot.None? then m[a := m[a].(free := true, isHead := true, next := a, prev := a)]
    else var m1 := AddLinks(m, slot.value, a); m1[a := m1[a].(free := true, isHead := false)]
  }

  lemma FreeSteps(elt: nat, m: map<nat, Region>, slabs: map<nat, Slab>, slot: Option<nat>, ring: seq<nat>, a: nat)
    requires Laid(elt, m, slabs) && FreeRing(m, ring) && HeadOk(m, slot) && a in m && !m[a].free
    requires slot == if ring == [] then None else Some(ring[0])
    ensures slot.Some? ==> slot.value in m && m[slot.value].next in m && m[m[slot.value].next].prev in m
    ensures
      var m' := FreedMap(m, slot, a);
      var ring' := if slot.None? then [a] else [ring[0], a] + ring[1..];
      && Laid(elt, m', slabs) && FreeRing(m', ring') && HeadOk(m', Some(ring'[0]))
      && LiveKept(m - {a}, m') && m'.Keys == m.Keys
  {
    assert a !in ring;
    if slot.None? {
      FreeAlone(elt, m, slabs, ring, a);
    } else {
      FreeBehind(elt, m, slabs, slot, ring, a);
    }
  }

  lemma FreeAlone(elt: nat, m: map<nat, Region>, slabs: map<nat, Slab>, ring: seq<nat>, a: nat)
    requires Laid(elt, m, slabs) && FreeRing(m, ring) && HeadOk(m, None) && a in m && !m[a].free && ring == []
    ensures
      var m' := FreedMap(m, None, a);
      Laid(elt, m', slabs) && FreeRing(m', [a]) && HeadOk(m', Some(a)) && LiveKept(m - {a}, m')
  {
    var m' := FreedMap(m, None, a);
    FreedLaid(elt, m, m', slabs, a);
    forall x: nat ensures (x in [a] <==> x in m' && m'[x].free) && HeadAt(m', Some(a), x) && LiveAt(m - {a}, m', x) {
      assert x in ring <==> x in m && m[x].free;
      assert HeadAt(m, None, x);
    }
  }

  lemma FreeBehind(elt: nat, m: map<nat, Region>, slabs: map<nat, Slab>, slot: Option<nat>, ring: seq<nat>, a: nat)
    requires Laid(elt, m, slabs) && FreeRing(m, ring) && HeadOk(m, slot) && a in m && !m[a].free
    requires ring != [] && slot == Some(ring[0]) && a !in ring
    ensures slot.value in m && m[slot.value].next in m && m[m[slot.value].next].prev in m
    ensures
      var m' := FreedMap(m, slot, a);
      && Laid(elt, m', slabs) && FreeRing(m', [ring[0], a] + ring[1..]) && HeadOk(m', slot)
      && LiveKept(m - {a}, m') && m'.Keys == m.Keys
  {
    RingAdd(m, ring, a);
    var m1, ring' := AddLinks(m, ring[0], a), [ring[0], a] + ring[1..];
    LaidLinks(elt, m, m1, slabs);
    var m' := FreedMap(m, slot, a);
    FreedLaid(elt, m1, m', slabs, a);
    SameLinks(m1, m', ring');
    forall x: nat ensures (x in ring' <==> x in m' && m'[x].free) && HeadAt(m', slot, x) && LiveAt(m - {a}, m', x) {
      assert x in ring <==> x in m && m[x].free;
      assert HeadAt(m, slot, x);
      assert ring == [ring[0]] + ring[1..];
    }
  }
}
