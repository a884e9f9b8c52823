/** Size classes of the user-space allocator (lib/sivfs_allocator_bins.h): bin i serves
    region sizes below 1.15^(i+1) words. The source computes with floating point; here the
    ratio is 23/20 and the arithmetic exact. */
module SlabBins {
  import opened Types

  const NBINS: nat := 51

  function Pow(b: nat, k: nat): nat {
    if k == 0 then 1 else b * Pow(b, k - 1)
  }

  /** words < 1.15^k */
  predicate Below(words: nat, k: nat) {
    words * Pow(20, k) < Pow(23, k)
  }

  /** floor(log(words) / log(1.15)), unless that is past the last bin. */
  function BinFrom(words: nat, i: nat): Option<nat>
    decreases NBINS - i
  {
    if i >= NBINS then None
    else if Below(words, i + 1) then Some(i)
    else BinFrom(words, i + 1)
  }

  function BinIndex(words: nat): Option<nat> {
    BinFrom(words, 0)
  }

  /** The size, in words, every region of the bin is rounded up to. */
  function BinSize(i: nat): nat {
    PowPositive(20, i + 1);
    Pow(23, i + 1) / Pow(20, i + 1)
  }

  lemma {:induction false} PowPositive(b: nat, k: nat)
    requires b > 0
    ensures Pow(b, k) > 0
  {
    if k > 0 {
      PowPositive(b, k - 1);
    }
  }

  lemma {:induction false} PowOdd(k: nat)
    ensures Pow(23, k) % 2 == 1
  {
    if k > 0 {
      PowOdd(k - 1);
    }
  }

  /** 1.15^k is never a whole number. */
  lemma NeverWhole(n: nat, k: nat)
    requires k > 0
    ensures n * Pow(20, k) != Pow(23, k)
  {
    PowOdd(k);
    var half := n * (10 * Pow(20, k - 1));
    assert n * Pow(20, k) == 2 * half by {
      assert Pow(20, k) == 2 * (10 * Pow(20, k - 1));
      assert n * (2 * (10 * Pow(20, k - 1))) == 2 * half;
    }
  }

  lemma {:induction false} BinFromExact(words: nat, i: nat, b: nat)
    ensures BinFrom(words, i) == Some(b) <==>
      i <= b < NBINS && Below(words, b + 1) && forall k :: i < k <= b ==> !Below(words, k)
    decreases NBINS - i
  {
    if i < NBINS && !Below(words, i + 1) {
      BinFromExact(words, i + 1, b);
    }
  }

  lemma BelowMonotone(w: nat, n: nat, k: nat)
    requires w <= n && Below(n, k)
    ensures Below(w, k)
  {
    assert w * Pow(20, k) <= n * Pow(20, k);
  }

  lemma BinSizeBounds(i: nat)
    ensures BinSize(i) * Pow(20, i + 1) <= Pow(23, i + 1) < (BinSize(i) + 1) * Pow(20, i + 1)
  {
    PowPositive(20, i + 1);
    var p, q := Pow(23, i + 1), Pow(20, i + 1);
    assert p == p / q * q + p % q;
    assert (p / q + 1) * q == p / q * q + q;
  }

  lemma SizeFits(words: nat, i: nat)
    requires Below(words, i + 1)
    ensures words <= BinSize(i)
  {
    BinSizeBounds(i);
    var n, q := BinSize(i), Pow(20, i + 1);
    if words > n {
      MulMonotone(n + 1, words, q);
    }
  }

  lemma MulMonotone(a: nat, b: nat, q: nat)
    requires a <= b
    ensures a * q <= b * q
  {
  }

  lemma SizeBelow(i: nat)
    ensures Below(BinSize(i), i + 1)
  {
    BinSizeBounds(i);
    NeverWhole(BinSize(i), i + 1);
  }

  /** A region is big enough for its request, no smaller bin's would be, and when it is freed it
      goes back to the bin it was taken from. */
  lemma FreedToSameBin(words: nat, i: nat)
    requires BinIndex(words) == Some(i)
    ensures words <= BinSize(i) && BinIndex(BinSize(i)) == Some(i)
    ensures forall j :: 0 <= j < i ==> BinSize(j) < words
  {
    BinFromExact(words, 0, i);
    forall j | 0 <= j < i ensures BinSize(j) < words {
      SizeBelow(j);
      if words <= BinSize(j) {
        BelowMonotone(words, BinSize(j), j + 1);
      }
    }
    SizeFits(words, i);
    SizeBelow(i);
    SameBin(words, BinSize(i), i);
  }

  lemma SameBin(words: nat, n: nat, i: nat)
    requires words <= n && Below(n, i + 1) && BinIndex(words) == Some(i)
    ensures BinIndex(n) == Some(i)
  {
    BinFromExact(words, 0, i);
    forall k | 0 < k <= i ensures !Below(n, k) {
      if Below(n, k) {
        BelowMonotone(words, n, k);
      }
    }
    BinFromExact(n, 0, i);
  }

  lemma {:induction false} PowDoubles(m: nat)
    ensures Pow(2, m) * Pow(20, 5 * m) <= Pow(23, 5 * m)
  {
    if m > 0 {
      PowDoubles(m - 1);
      PowFive(20, 5 * (m - 1));
      PowFive(23, 5 * (m - 1));
      assert 5 * m == 5 * (m - 1) + 5;
      DoubleStep(Pow(2, m - 1), Pow(20, 5 * (m - 1)), Pow(23, 5 * (m - 1)));
    }
  }

  /** 1.15^5 is a little more than 2. */
  lemma DoubleStep(a: nat, x: nat, y: nat)
    requires a * x <= y
    ensures 2 * a * (20 * (20 * (20 * (20 * (20 * x))))) <= 23 * (23 * (23 * (23 * (23 * y))))
  {
    assert 2 * a * (3200000 * x) == 6400000 * (a * x);
  }

  lemma PowFive(b: nat, k: nat)
    ensures Pow(b, k + 5) == b * (b * (b * (b * (b * Pow(b, k)))))
  {
    assert Pow(b, k + 1) == b * Pow(b, k);
    assert Pow(b, k + 2) == b * Pow(b, k + 1);
    assert Pow(b, k + 3) == b * Pow(b, k + 2);
    assert Pow(b, k + 4) == b * Pow(b, k + 3);
    assert Pow(b, k + 5) == b * Pow(b, k + 4);
  }

  lemma BelowPowerOfTwo(words: nat, m: nat)
    requires words < Pow(2, m)
    ensures Below(words, 5 * m)
  {
    PowDoubles(m);
    PowPositive(20, 5 * m);
    var q := Pow(20, 5 * m);
    MulMonotone(words + 1, Pow(2, m), q);
    assert (words + 1) * q == words * q + q;
  }

  /** There is a bin for every size up to a page, and up to twice that. */
  lemma PageHasBin(words: nat)
    requires words < 2 * WORDS_PER_PAGE
    ensures BinIndex(words).Some?
  {
    assert Pow(2, 10) == 1024;
    BinBelow(words, 10);
  }

  lemma BinBelow(words: nat, m: nat)
    requires words < Pow(2, m) && 0 < 5 * m <= NBINS
    ensures BinIndex(words).Some?
  {
    BelowPowerOfTwo(words, m);
    if BinIndex(words) == None {
      NoBin(words, 0, 5 * m - 1);
    }
  }

  lemma {:induction false} NoBin(words: nat, i: nat, j: nat)
    requires BinFrom(words, i) == None && i <= j < NBINS
    ensures !Below(words, j + 1)
    decreases j - i
  {
    if i < j {
      NoBin(words, i + 1, j);
    }
  }
}
