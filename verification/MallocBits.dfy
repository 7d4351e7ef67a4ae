/** Bin maps: one bit for each bin, set when the bin is not empty. */
module MallocBits {

  // idx2bit
  function Bit(i: nat): bv32
    requires i < 32
  {
    if i == 0 then 0x1 else if i == 1 then 0x2 else if i == 2 then 0x4 else if i == 3 then 0x8
    else if i == 4 then 0x10 else if i == 5 then 0x20 else if i == 6 then 0x40 else if i == 7 then 0x80
    else if i == 8 then 0x100 else if i == 9 then 0x200 else if i == 10 then 0x400 else if i == 11 then 0x800
    else if i == 12 then 0x1000 else if i == 13 then 0x2000 else if i == 14 then 0x4000 else if i == 15 then 0x8000
    else if i == 16 then 0x1_0000 else if i == 17 then 0x2_0000 else if i == 18 then 0x4_0000 else if i == 19 then 0x8_0000
    else if i == 20 then 0x10_0000 else if i == 21 then 0x20_0000 else if i == 22 then 0x40_0000 else if i == 23 then 0x80_0000
    else if i == 24 then 0x100_0000 else if i == 25 then 0x200_0000 else if i == 26 then 0x400_0000 else if i == 27 then 0x800_0000
    else if i == 28 then 0x1000_0000 else if i == 29 then 0x2000_0000 else if i == 30 then 0x4000_0000 else 0x8000_0000
  }

  predicate Marked(m: bv32, i: nat)
    requires i < 32
  {
    m & Bit(i) != 0
  }

  function Mark(m: bv32, i: nat): bv32
    requires i < 32
  {
    m | Bit(i)
  }

  function Clear(m: bv32, i: nat): bv32
    requires i < 32
  {
    m & !Bit(i)
  }

  predicate Single(x: bv32) {
    x != 0 && x & (x - 1) == 0
  }

  lemma BitSingle(i: nat)
    requires i < 32
    ensures Single(Bit(i))
  {
  }

  lemma Own(m: bv32, b: bv32)
    requires b != 0
    ensures (m | b) & b != 0 && (m & !b) & b == 0
  {
  }

  lemma MarkAdds(m: bv32, i: nat, j: nat)
    requires i < 32 && j < 32 && i != j && m & Bit(j) == 0
    ensures (m | Bit(i)) & Bit(j) == 0
  {
    if i < 16 { MarkLow(m, i, j); } else { MarkHigh(m, i, j); }
  }

  lemma MarkLow(m: bv32, i: nat, j: nat)
    requires i < 16 && j < 32 && i != j && m & Bit(j) == 0
    ensures (m | Bit(i)) & Bit(j) == 0
  {
  }

  lemma MarkHigh(m: bv32, i: nat, j: nat)
    requires 16 <= i < 32 && j < 32 && i != j && m & Bit(j) == 0
    ensures (m | Bit(i)) & Bit(j) == 0
  {
  }

  lemma ClearKeeps(m: bv32, i: nat, j: nat)
    requires i < 32 && j < 32 && i != j && Marked(m, j)
    ensures Marked(Clear(m, i), j)
  {
  }

  lemma MarkSelf(m: bv32, i: nat)
    requires i < 32
    ensures Marked(Mark(m, i), i) && !Marked(Clear(m, i), i)
  {
    hide Bit;
    BitSingle(i);
    Own(m, Bit(i));
  }

  lemma MarkOnly(m: bv32, i: nat, j: nat)
    requires i < 32 && j < 32
    ensures Marked(m, j) ==> Marked(Mark(m, i), j)
    ensures !Marked(m, j) ==> !Marked(Clear(m, i), j)
  {
    hide Bit;
  }

  /** Marking and clearing a bin does just that. */
  lemma MarkOne(m: bv32, i: nat, j: nat)
    requires i < 32 && j < 32
    ensures Marked(Mark(m, i), j) <==> j == i || Marked(m, j)
    ensures Marked(Clear(m, i), j) <==> j != i && Marked(m, j)
  {
    hide Bit;
    MarkSelf(m, i);
    MarkOnly(m, i, j);
    if i != j {
      if Marked(m, j) { ClearKeeps(m, i, j); } else { MarkAdds(m, i, j); }
    }
  }

  // least_bit
  function LeastBit(x: bv32): bv32 {
    x & (0 - x)
  }

  // left_bits
  function LeftBits(x: bv32): bv32 {
    (x << 1) | (0 - (x << 1))
  }

  // compute_bit2idx
  function BitIndex(x: bv32): bv32 {
    var y := x - 1;
    var k := (y >> 12) & 16;
    var n := k;
    var y := y >> k;
    var k := (y >> 5) & 8;
    var n := n + k;
    var y := y >> k;
    var k := (y >> 2) & 4;
    var n := n + k;
    var y := y >> k;
    var k := (y >> 1) & 2;
    var n := n + k;
    var y := y >> k;
    var k := y & 1;
    var n := n + k;
    var y := y >> k;
    n + y
  }

  lemma LeastSingle(x: bv32)
    requires x != 0
    ensures Single(LeastBit(x)) && x & LeastBit(x) != 0
  {
  }

  lemma SingleBit(y: bv32) returns (i: nat)
    requires Single(y)
    ensures i < 32 && y == Bit(i)
  {
    i := 0;
    while i < 31 && Bit(i) != y
      invariant i < 32 && forall j :: 0 <= j < i ==> Bit(j) != y
    {
      i := i + 1;
    }
    if Bit(i) != y {
      AllBits(y);
      assert false;
    }
  }

  lemma AllBits(y: bv32)
    requires forall j :: 0 <= j < 32 ==> Bit(j) != y
    ensures !Single(y)
  {
    assert Bit(0) != y && Bit(1) != y && Bit(2) != y && Bit(3) != y && Bit(4) != y && Bit(5) != y && Bit(6) != y
      && Bit(7) != y;
    assert Bit(8) != y && Bit(9) != y && Bit(10) != y && Bit(11) != y && Bit(12) != y && Bit(13) != y && Bit(14) != y
      && Bit(15) != y;
    assert Bit(16) != y && Bit(17) != y && Bit(18) != y && Bit(19) != y && Bit(20) != y && Bit(21) != y
      && Bit(22) != y && Bit(23) != y;
    assert Bit(24) != y && Bit(25) != y && Bit(26) != y && Bit(27) != y && Bit(28) != y && Bit(29) != y
      && Bit(30) != y && Bit(31) != y;
  }

  lemma IndexOfBit(i: nat)
    requires i < 32
    ensures BitIndex(Bit(i)) as nat == i
  {
  }

  /** The least bit of a map is the first marked bin. */
  lemma FirstMarked(x: bv32) returns (i: nat)
    requires x != 0
    ensures i < 32 && BitIndex(LeastBit(x)) as nat == i
    ensures Marked(x, i) && forall j: nat :: j < i ==> !Marked(x, j)
  {
    hide Bit, BitIndex, LeastBit, Single, Marked;
    LeastSingle(x);
    i := SingleBit(LeastBit(x));
    IndexOfBit(i);
    HasBit(x, i);
    forall j: nat | j < i
      ensures !Marked(x, j)
    {
      NoBit(x, i, j);
    }
  }

  lemma HasBit(x: bv32, i: nat)
    requires x != 0 && i < 32 && LeastBit(x) == Bit(i)
    ensures Marked(x, i)
  {
    hide Bit, LeastBit;
    LeastSingle(x);
  }

  lemma NoBit(x: bv32, i: nat, j: nat)
    requires x != 0 && j < i < 32 && LeastBit(x) == Bit(i)
    ensures !Marked(x, j)
  {
  }

  function Both(x: bv32, y: bv32): bv32 {
    x & y
  }

  lemma LeftFirst()
    ensures LeftBits(Bit(0)) == Clear(0xFFFF_FFFF, 0)
  {
  }

  lemma BothOnes(m: bv32)
    ensures Both(0xFFFF_FFFF, m) == m
  {
  }

  lemma LeftNext(i: nat)
    requires i < 31
    ensures LeftBits(Bit(i + 1)) == Clear(LeftBits(Bit(i)), i + 1)
  {
  }

  lemma ClearBoth(x: bv32, m: bv32, i: nat)
    requires i < 32
    ensures Both(Clear(x, i), m) == Clear(Both(x, m), i)
  {
  }

  /** The bits to the left of that of a bin are those of the bins behind it. */
  lemma {:induction false} LeftMarked(m: bv32, i: nat, j: nat)
    requires i < 32 && j < 32
    ensures Marked(Both(LeftBits(Bit(i)), m), j) <==> i < j && Marked(m, j)
    decreases i
  {
    hide Bit, LeftBits, Marked, Clear, Both;
    if i == 0 {
      LeftFirst();
      ClearBoth(0xFFFF_FFFF, m, 0);
      BothOnes(m);
      MarkOne(m, 0, j);
    } else {
      LeftMarked(m, i - 1, j);
      LeftNext(i - 1);
      ClearBoth(LeftBits(Bit(i - 1)), m, i);
      MarkOne(Both(LeftBits(Bit(i - 1)), m), i, j);
    }
  }

  // ----- shifts by a bin index

  // m >> i
  function Shr(m: bv32, i: nat): bv32
    decreases i
  {
    if i == 0 then m else Shr(m >> 1, i - 1)
  }

  // m << i
  function Shl32(m: bv32, i: nat): bv32
    decreases i
  {
    if i == 0 then m else Shl32(m << 1, i - 1)
  }

  lemma HalfMarked(m: bv32, i: nat)
    requires i < 31
    ensures Marked(m >> 1, i) <==> Marked(m, i + 1)
  {
    if i < 16 { HalfLow(m, i); } else { HalfHigh(m, i); }
  }

  lemma HalfLow(m: bv32, i: nat)
    requires i < 16
    ensures Marked(m >> 1, i) <==> Marked(m, i + 1)
  {
  }

  lemma HalfHigh(m: bv32, i: nat)
    requires 16 <= i < 31
    ensures Marked(m >> 1, i) <==> Marked(m, i + 1)
  {
  }

  lemma HalfLast(m: bv32)
    ensures !Marked(m >> 1, 31)
  {
  }

  lemma DoubleMarked(m: bv32, i: nat)
    requires 0 < i < 32
    ensures Marked(m << 1, i) <==> Marked(m, i - 1)
  {
    if i < 16 { DoubleLow(m, i); } else { DoubleHigh(m, i); }
  }

  lemma DoubleLow(m: bv32, i: nat)
    requires 0 < i < 16
    ensures Marked(m << 1, i) <==> Marked(m, i - 1)
  {
  }

  lemma DoubleHigh(m: bv32, i: nat)
    requires 16 <= i < 32
    ensures Marked(m << 1, i) <==> Marked(m, i - 1)
  {
  }

  lemma DoubleFirst(m: bv32)
    ensures !Marked(m << 1, 0)
  {
  }

  lemma {:induction false} ShrMarked(m: bv32, i: nat, j: nat)
    requires j < 32
    ensures Marked(Shr(m, i), j) <==> i + j < 32 && Marked(m, i + j)
    decreases i
  {
    hide Marked;
    if i > 0 {
      ShrMarked(m >> 1, i - 1, j);
      if i + j - 1 < 31 { HalfMarked(m, i + j - 1); } else if i + j - 1 == 31 { HalfLast(m); }
    }
  }

  lemma {:induction false} ShlMarked(m: bv32, i: nat, j: nat)
    requires j < 32
    ensures Marked(Shl32(m, i), j) <==> i <= j && Marked(m, j - i)
    decreases i
  {
    hide Marked;
    if i > 0 {
      ShlMarked(m << 1, i - 1, j);
      if j >= i { DoubleMarked(m, j - i + 1); } else if j == i - 1 { DoubleFirst(m); }
    }
  }

  /** The two low bits of a shifted map are those of bin i and the next one. */
  lemma TwoBins(m: bv32, i: nat)
    requires i < 32
    ensures Shr(m, i) & 3 != 0 <==> Marked(m, i) || (i < 31 && Marked(m, i + 1))
    ensures !Shr(m, i) & 1 == if Marked(m, i) then 0 else 1
  {
    hide Shr;
    ShrMarked(m, i, 0);
    ShrMarked(m, i, 1);
    LowBits(Shr(m, i));
  }

  lemma LowBits(x: bv32)
    ensures x & 3 != 0 <==> Marked(x, 0) || Marked(x, 1)
    ensures !x & 1 == if Marked(x, 0) then 0 else 1
  {
  }

  /** Shifted back and cut off, the map has the bins behind i. */
  lemma BehindMarked(m: bv32, i: nat, j: nat)
    requires i < 32 && j < 32
    ensures Marked(Both(LeftBits(Bit(i)), Shl32(Shr(m, i), i)), j) <==> i < j && Marked(m, j)
  {
    hide Shr, Shl32, Marked, LeftBits, Bit, Both;
    LeftMarked(Shl32(Shr(m, i), i), i, j);
    ShlMarked(Shr(m, i), i, j);
    if j >= i { ShrMarked(m, i, j - i); }
  }

  /** A map is 0 when no bin is marked. */
  lemma NoneMarked(m: bv32)
    ensures m == 0 <==> forall j: nat :: j < 32 ==> !Marked(m, j)
  {
    hide Marked;
    if m == 0 {
      forall j: nat | j < 32
        ensures !Marked(m, j)
      {
        ZeroMap(j);
      }
    } else {
      var i := FirstMarked(m);
    }
  }

  lemma ZeroMap(j: nat)
    requires j < 32
    ensures !Marked(0, j)
  {
  }
}
