/** Checkpoint addressing (kern/sivfs_checkpoints.h, sivfs_checkpoint_iter_init): a file
    and page number become the six table offsets on the way from the root to a leaf. */
module Radix {
  import opened Types

  const INO_LEVELS: nat := 3
  const FOFFSET_LEVELS: nat := 4
  const TOTAL_LEVELS: nat := 7
  const MIN_INO_LEVEL: nat := 4
  const CHILDREN: nat := 512

  // Table levels above the leaf, and the same plus the word inside the leaf.
  const DEPTH: nat := 6
  const WORD_DEPTH: nat := 7

  /** `x >> (sublevel * SIVFS_CHECKPOINT_NODE_SHIFT)`. */
  function Shifted(x: nat, sublevel: nat): nat {
    if sublevel == 0 then x else Shifted(x, sublevel - 1) / CHILDREN
  }

  predicate InRange(ino: nat, off: nat) {
    Shifted(ino, INO_LEVELS - 1) < CHILDREN && Shifted(off / PAGE_SIZE, FOFFSET_LEVELS - 2) < CHILDREN
  }

  /** The three base-512 digits of `x`, most significant first. */
  function Digits3(x: nat): seq<nat> {
    [Shifted(x, 2) % CHILDREN, Shifted(x, 1) % CHILDREN, x % CHILDREN]
  }

  function Digits(ino: nat, pg: nat): seq<nat> {
    Digits3(ino) + Digits3(pg)
  }

  /** Where a word lives: six table offsets, then the word inside the leaf page. */
  function WordPath(a: Addr): seq<nat> {
    Digits(a.ino, a.off / PAGE_SIZE) + [a.off % PAGE_SIZE / WORD_SIZE]
  }

  predicate Addressable(a: Addr) {
    InRange(a.ino, a.off) && a.off % WORD_SIZE == 0
  }

  function Join3(d: seq<nat>): nat
    requires |d| == 3
  {
    (d[0] * CHILDREN + d[1]) * CHILDREN + d[2]
  }

  lemma Digits3RoundTrip(x: nat)
    requires Shifted(x, 2) < CHILDREN
    ensures Join3(Digits3(x)) == x
  {
    var y := x / CHILDREN;
    assert Shifted(x, 1) == y by { assert Shifted(x, 0) == x; }
    assert Shifted(x, 2) == y / CHILDREN;
    assert x == y * CHILDREN + x % CHILDREN;
    assert y == (y / CHILDREN) * CHILDREN + y % CHILDREN;
  }

  /** Accepted inputs with the same offsets are the same page of the same file. */
  lemma DigitsInjective(ino1: nat, off1: nat, ino2: nat, off2: nat)
    requires InRange(ino1, off1) && InRange(ino2, off2)
    requires Digits(ino1, off1 / PAGE_SIZE) == Digits(ino2, off2 / PAGE_SIZE)
    ensures ino1 == ino2 && off1 / PAGE_SIZE == off2 / PAGE_SIZE
  {
    var d1, d2 := Digits(ino1, off1 / PAGE_SIZE), Digits(ino2, off2 / PAGE_SIZE);
    assert d1[..3] == Digits3(ino1) && d1[3..] == Digits3(off1 / PAGE_SIZE);
    assert d2[..3] == Digits3(ino2) && d2[3..] == Digits3(off2 / PAGE_SIZE);
    Digits3RoundTrip(ino1);
    Digits3RoundTrip(ino2);
    Digits3RoundTrip(off1 / PAGE_SIZE);
    Digits3RoundTrip(off2 / PAGE_SIZE);
  }

  lemma OffsetParts(off: nat)
    requires off % WORD_SIZE == 0
    ensures off == off / PAGE_SIZE * PAGE_SIZE + off % PAGE_SIZE / WORD_SIZE * WORD_SIZE
  {
    assert off == off / PAGE_SIZE * PAGE_SIZE + off % PAGE_SIZE;
    assert off % PAGE_SIZE % WORD_SIZE == 0;
  }

  lemma WordPathInjective(a: Addr, b: Addr)
    requires Addressable(a) && Addressable(b) && WordPath(a) == WordPath(b)
    ensures a == b
  {
    var pa, pb := WordPath(a), WordPath(b);
    assert pa[..6] == Digits(a.ino, a.off / PAGE_SIZE) && pb[..6] == Digits(b.ino, b.off / PAGE_SIZE);
    DigitsInjective(a.ino, a.off, b.ino, b.off);
    assert pa[6] == a.off % PAGE_SIZE / WORD_SIZE && pb[6] == b.off % PAGE_SIZE / WORD_SIZE;
    OffsetParts(a.off);
    OffsetParts(b.off);
  }

  lemma WordPathShape(a: Addr)
    ensures |WordPath(a)| == WORD_DEPTH
    ensures forall i :: 0 <= i < |WordPath(a)| ==> WordPath(a)[i] < CHILDREN
    ensures WordPath(a)[..DEPTH] == Digits(a.ino, a.off / PAGE_SIZE)
  {
  }

  /** Fills the iterator's offsets top level first; rejects an inode or offset whose
      topmost digit does not fit. */
  method IterInit(ino: nat, off: nat) returns (rc: Rc, offsets: seq<nat>)
    ensures rc == if InRange(ino, off) then Ok else EInval
    ensures rc == Ok ==> offsets == Digits(ino, off / PAGE_SIZE)
  {
    var pg := off / PAGE_SIZE;
    offsets := [];
    var level := TOTAL_LEVELS - 1;
    while level >= MIN_INO_LEVEL
      invariant MIN_INO_LEVEL - 1 <= level <= TOTAL_LEVELS - 1
      invariant level < TOTAL_LEVELS - 1 ==> Shifted(ino, INO_LEVELS - 1) < CHILDREN
      invariant offsets == Digits3(ino)[..TOTAL_LEVELS - 1 - level]
    {
      var sublevel := level - MIN_INO_LEVEL;
      if sublevel == INO_LEVELS - 1 && Shifted(ino, sublevel) >= CHILDREN {
        return EInval, offsets;
      }
      offsets := offsets + [Shifted(ino, sublevel) % CHILDREN];
      level := level - 1;
    }
    while level >= 1
      invariant 0 <= level <= MIN_INO_LEVEL - 1
      invariant level < FOFFSET_LEVELS - 1 ==> Shifted(pg, FOFFSET_LEVELS - 2) < CHILDREN
      invariant offsets == Digits3(ino) + Digits3(pg)[..FOFFSET_LEVELS - 1 - level]
    {
      var sublevel := level - 1;
      if level == FOFFSET_LEVELS - 1 && Shifted(pg, sublevel) >= CHILDREN {
        return EInval, offsets;
      }
      offsets := offsets + [Shifted(pg, sublevel) % CHILDREN];
      level := level - 1;
    }
    rc := Ok;
  }
}
