/** Sizes of chunks and the bins they belong in: 32-bit words as numbers. */
module MallocSizes {
  import opened Words

  const WORD := 0x1_0000_0000

  // Chunks below this size are kept in small bins, the others in tree bins.
  const MIN_LARGE := 256

  const NTREEBINS := 32

  // ----- words

  // Bit b of a difference of two words: the high half is all ones exactly when it wraps.
  function BorrowBit(y: nat, c: nat, b: nat): nat
    requires b > 0
  {
    ((y - c) % WORD / 0x1_0000 / b) % 2 * b
  }

  lemma Borrows(y: nat, c: nat, b: nat)
    requires y < 0x1_0000 && c <= 0x1_0000 && (b == 8 || b == 4 || b == 2)
    ensures BorrowBit(y, c, b) == if y < c then b else 0
  {
    if y < c {
      assert (y - c) % WORD == WORD + y - c;
      assert (y - c) % WORD / 0x1_0000 == 0xFFFF;
    } else {
      assert (y - c) % WORD == y - c;
    }
  }

  function Shl(x: nat, n: nat): nat {
    x * Pow2(n) % WORD
  }

  // ----- the index of a tree bin

  // compute_tree_index
  function TreeIndex(s: nat): nat {
    var x := s / 256;
    if x == 0 then 0
    else if x > 0xFFFF then NTREEBINS - 1
    else
      var n0 := BorrowBit(x, 0x100, 8);
      var y0 := Shl(x, n0);
      var k1 := BorrowBit(y0, 0x1000, 4);
      var y1 := Shl(y0, k1);
      var k2 := BorrowBit(y1, 0x4000, 2);
      var y2 := Shl(y1, k2);
      var k := 14 - (n0 + k1 + k2) + y2 / 0x8000;
      2 * k + (s / Pow2(k + 7)) % 2
  }

  // minsize_for_tree_index
  function MinSize(i: nat): nat {
    Pow2(i / 2 + 8) + i % 2 * Pow2(i / 2 + 7)
  }

  // The sizes in bin i differ in so many low bits only.
  function RootBits(i: nat): nat {
    if i == NTREEBINS - 1 then 32 else i / 2 + 7
  }

  function RootLow(i: nat): nat {
    if i == NTREEBINS - 1 then 0 else MinSize(i)
  }

  // leftshift_for_tree_index
  function LeftShift(i: nat): nat
    requires i < NTREEBINS
  {
    if i == NTREEBINS - 1 then 0 else 31 - (i / 2 + 8 - 2)
  }

  // Halving the range until it is one power of two wide finds the leading bit of x.
  lemma LeadingBit(x: nat) returns (k: nat)
    requires 0 < x <= 0xFFFF
    ensures k <= 15 && Pow2(k) <= x < Pow2(k + 1)
    ensures var n0 := BorrowBit(x, 0x100, 8);
      var y0 := Shl(x, n0);
      var k1 := BorrowBit(y0, 0x1000, 4);
      var y1 := Shl(y0, k1);
      var k2 := BorrowBit(y1, 0x4000, 2);
      var y2 := Shl(y1, k2);
      14 - (n0 + k1 + k2) + y2 / 0x8000 == k
  {
    hide Pow2, Shl, BorrowBit;
    Borrows(x, 0x100, 8);
    var n0 := if x < 0x100 then 8 else 0;
    var y0 := Up(x, n0);
    UpIs(x, n0);
    Borrows(y0, 0x1000, 4);
    var k1 := if y0 < 0x1000 then 4 else 0;
    var y1 := Up(y0, k1);
    UpIs(y0, k1);
    Borrows(y1, 0x4000, 2);
    var k2 := if y1 < 0x4000 then 2 else 0;
    var y2 := Up(y1, k2);
    UpIs(y1, k2);
    k := 14 - (n0 + k1 + k2) + y2 / 0x8000;
    Pow2Values();
  }

  // A shift by none, 2, 4 or 8 bits that loses nothing.
  function Up(x: nat, n: nat): nat {
    if n == 8 then 256 * x else if n == 4 then 16 * x else if n == 2 then 4 * x else x
  }

  lemma UpIs(x: nat, n: nat)
    requires (n == 8 && x < 0x100) || (n == 4 && x < 0x1000) || (n == 2 && x < 0x4000) || (n == 0 && x < 0x1_0000)
    ensures Shl(x, n) == Up(x, n) < 0x1_0000
  {
    Pow2Values();
  }

  lemma Doubles(n: nat)
    ensures Pow2(n + 1) == 2 * Pow2(n)
  {
  }

  lemma NextMinSize(i: nat)
    ensures MinSize(i) + Pow2(i / 2 + 7) == MinSize(i + 1)
  {
    hide Pow2;
    Doubles(i / 2 + 7);
    Doubles(i / 2 + 8);
    if i % 2 == 0 {
      assert (i + 1) / 2 == i / 2;
    } else {
      assert (i + 1) / 2 == i / 2 + 1;
    }
  }

  // The bin of a size whose leading bit is bit k + 8.
  lemma MiddleIndex(s: nat) returns (k: nat)
    requires MIN_LARGE <= s && s / 256 <= 0xFFFF
    ensures k <= 15 && Pow2(k + 8) <= s < Pow2(k + 9)
    ensures TreeIndex(s) == 2 * k + if s < Pow2(k + 8) + Pow2(k + 7) then 0 else 1
  {
    k := LeadingBit(s / 256);
    ScaledUp(s / 256, s, k);
    SecondBit(s, k);
  }

  lemma MiddleRange(k: nat, b: nat)
    requires b < 2
    ensures MinSize(2 * k + b) == Pow2(k + 8) + b * Pow2(k + 7)
    ensures MinSize(2 * k + b + 1) == Pow2(k + 8) + (b + 1) * Pow2(k + 7)
  {
    hide Pow2;
    assert (2 * k + b) / 2 == k && (2 * k + b) % 2 == b;
    NextMinSize(2 * k + b);
  }

  /** Every large size is in the range of the bin it is given. */
  lemma TreeIndexRange(s: nat)
    requires MIN_LARGE <= s < WORD
    ensures TreeIndex(s) < NTREEBINS && MinSize(TreeIndex(s)) <= s
    ensures TreeIndex(s) < NTREEBINS - 1 ==> s < MinSize(TreeIndex(s) + 1)
  {
    hide Pow2, BorrowBit, Shl;
    if s / 256 > 0xFFFF {
      LastMinSize();
    } else {
      var k := MiddleIndex(s);
      Doubles(k + 7);
      Doubles(k + 8);
      MiddleRange(k, if s < Pow2(k + 8) + Pow2(k + 7) then 0 else 1);
    }
  }

  lemma LastMinSize()
    ensures MinSize(31) == 0xC0_0000
  {
    Pow2Values();
  }

  lemma ScaledUp(x: nat, s: nat, k: nat)
    requires x == s / 256 && Pow2(k) <= x < Pow2(k + 1)
    ensures Pow2(k + 8) <= s < Pow2(k + 9)
  {
    Pow2Values();
    Pow2Add(k, 8);
    Pow2Add(k + 1, 8);
  }

  // The bit below the leading one says which half of the range s is in.
  lemma SecondBit(s: nat, k: nat)
    requires Pow2(k + 8) <= s < Pow2(k + 9)
    ensures (s / Pow2(k + 7)) % 2 == if s < Pow2(k + 8) + Pow2(k + 7) then 0 else 1
  {
    var p := Pow2(k + 7);
    assert Pow2(k + 8) == 2 * p && Pow2(k + 9) == 4 * p;
    Quotient(s, if s < 3 * p then 2 else 3, p);
  }

  lemma Quotient(s: nat, q: nat, p: nat)
    requires p > 0 && q * p <= s < (q + 1) * p
    ensures s / p == q
  {
    var d := s / p;
    if d < q {
      TimesUp(d + 1, q, p);
    } else if d > q {
      TimesUp(q + 1, d, p);
    }
  }

  lemma TimesUp(a: nat, b: nat, p: nat)
    requires a <= b
    ensures a * p <= b * p
  {
  }
  lemma {:induction false} MinSizeGrows(i: nat, j: nat)
    requires i <= j
    ensures MinSize(i) <= MinSize(j)
    decreases j
  {
    if i < j {
      MinSizeGrows(i, j - 1);
      NextMinSize(j - 1);
    }
  }

  /** A higher bin holds larger sizes. */
  lemma BinsOrdered(s: nat, t: nat)
    requires MIN_LARGE <= s < WORD && MIN_LARGE <= t < WORD && TreeIndex(s) < TreeIndex(t)
    ensures s < t
  {
    TreeIndexRange(s);
    TreeIndexRange(t);
    MinSizeGrows(TreeIndex(s) + 1, TreeIndex(t));
  }

  // ----- the bits that tell the sizes of one bin apart

  // The sizes from low on that differ from it in k low bits only.
  predicate Spans(low: nat, k: nat, s: nat) {
    low <= s < low + Pow2(k)
  }

  lemma RootSpan(s: nat)
    requires MIN_LARGE <= s < WORD
    ensures TreeIndex(s) < NTREEBINS && Spans(RootLow(TreeIndex(s)), RootBits(TreeIndex(s)), s)
  {
    hide Pow2, TreeIndex;
    TreeIndexRange(s);
    Pow2Values();
    if TreeIndex(s) < NTREEBINS - 1 { NextMinSize(TreeIndex(s)); }
  }

  // The low k bits r of a size, shifted to the top of a word.
  function Shifted(r: nat, k: nat): nat
    requires k <= 32
  {
    r * Pow2(32 - k)
  }

  lemma TimesLess(a: nat, b: nat, p: nat)
    requires a < b && p > 0
    ensures a * p < b * p
  {
  }

  lemma ShiftedFits(r: nat, k: nat)
    requires k <= 32 && r < Pow2(k)
    ensures Shifted(r, k) < WORD
  {
    Pow2Add(k, 32 - k);
    Pow2Values();
    TimesLess(r, Pow2(k), Pow2(32 - k));
  }

  // size << leftshift_for_tree_index
  lemma SizeBits(s: nat, i: nat)
    requires i < NTREEBINS && Spans(RootLow(i), RootBits(i), s)
    ensures Shl(s, LeftShift(i)) == Shifted(s - RootLow(i), RootBits(i))
  {
    hide Pow2, MinSize;
    var k, r := RootBits(i), s - RootLow(i);
    Pow2Values();
    ShiftedFits(r, k);
    if i < NTREEBINS - 1 {
      var p := Pow2(32 - k);
      LowBitsGone(i);
      assert s * p == r * p + RootLow(i) * p;
      Remainder(r * p, 2 + i % 2, WORD);
    }
  }

  lemma LowBitsGone(i: nat)
    requires i < NTREEBINS - 1
    ensures RootLow(i) * Pow2(32 - RootBits(i)) == (2 + i % 2) * WORD
  {
    hide Pow2;
    var h := i / 2 + 7;
    Pow2Values();
    Doubles(h);
    TwoHalves(2, i % 2, Pow2(h));
    Pow2Add(h, 32 - h);
    Regroup(2 + i % 2, Pow2(h), Pow2(32 - h));
  }

  lemma TwoHalves(a: nat, b: nat, p: nat)
    ensures a * p + b * p == (a + b) * p
  {
  }

  lemma Regroup(a: nat, b: nat, c: nat)
    ensures a * b * c == a * (b * c)
  {
  }

  lemma Remainder(x: nat, q: nat, m: nat)
    requires x < m
    ensures (x + q * m) % m == x
  {
    Quotient(x + q * m, q, m);
  }

  lemma LowHalf(r: nat, h: nat, p: nat)
    requires h * p == 0x8000_0000 && r < h
    ensures r * p / 0x8000_0000 == 0 && 2 * (r * p) % WORD == r * (2 * p)
  {
    hide *;
    BelowHalf(r, h, p);
    Twice(r, p);
    SmallHalf(r * p);
  }

  lemma BelowHalf(r: nat, h: nat, p: nat)
    requires h * p == 0x8000_0000 && r < h
    ensures r * p < 0x8000_0000
  {
    if p > 0 { TimesLess(r, h, p); }
  }

  lemma Twice(r: nat, p: nat)
    ensures 2 * (r * p) == r * (2 * p)
  {
  }

  lemma SmallHalf(x: nat)
    requires x < 0x8000_0000
    ensures x / 0x8000_0000 == 0 && 2 * x % WORD == 2 * x
  {
  }

  lemma HighHalf(r: nat, h: nat, p: nat)
    requires h * p == 0x8000_0000 && h <= r < 2 * h
    ensures r * p / 0x8000_0000 == 1 && 2 * (r * p) % WORD == (r - h) * (2 * p)
  {
    LowHalf(r - h, h, p);
    assert r * p == (r - h) * p + 0x8000_0000;
  }

  /** The top bit says which half of the span a size is in; shifted out, it leaves the bits for that half. */
  lemma Branch(r: nat, k: nat)
    requires 0 < k <= 32 && r < Pow2(k)
    ensures Shifted(r, k) / 0x8000_0000 == if r < Pow2(k - 1) then 0 else 1
    ensures 2 * Shifted(r, k) % WORD == Shifted(if r < Pow2(k - 1) then r else r - Pow2(k - 1), k - 1)
  {
    hide Pow2;
    Pow2Values();
    Pow2Add(k - 1, 32 - k);
    Doubles(k - 1);
    Doubles(32 - k);
    if r < Pow2(k - 1) {
      LowHalf(r, Pow2(k - 1), Pow2(32 - k));
    } else {
      HighHalf(r, Pow2(k - 1), Pow2(32 - k));
    }
  }
}
