/** The CRC of XMODEM blocks: the loop over a 32-bit word, polynomial division, and the errors it detects. */
module XmodemCrc {

  // ----- the register, one bit of the message at a time

  const POLY: bv16 := 0x1021

  function Xor(c: bv16, d: bv16): bv16 {
    c ^ d
  }

  function Twice(c: bv16): bv16 {
    c << 1
  }

  predicate Msb(c: bv16) {
    c & 0x8000 != 0
  }

  function Shifted(c: bv16): bv16 {
    if Msb(c) then Xor(Twice(c), POLY) else Twice(c)
  }

  function Top(b: bool): bv16 {
    if b then 0x8000 else 0
  }

  function Fed(c: bv16, b: bool): bv16 {
    Shifted(Xor(c, Top(b)))
  }

  function Feed(c: bv16, bits: seq<bool>): bv16
    decreases |bits|
  {
    if bits == [] then c else Feed(Fed(c, bits[0]), bits[1..])
  }

  lemma {:induction false} FeedMore(c: bv16, a: seq<bool>, b: seq<bool>)
    ensures Feed(c, a + b) == Feed(Feed(c, a), b)
    decreases |a|
  {
    hide Fed;
    if a == [] {
      assert a + b == b;
    } else {
      assert (a + b)[0] == a[0] && (a + b)[1..] == a[1..] + b;
      FeedMore(Fed(c, a[0]), a[1..], b);
    }
  }

  function MaskOf(i: nat): bv8 {
    if i == 0 then 0x80 else if i == 1 then 0x40 else if i == 2 then 0x20 else if i == 3 then 0x10
    else if i == 4 then 8 else if i == 5 then 4 else if i == 6 then 2 else 1
  }

  predicate HasBit(x: bv8, m: bv8) {
    x & m != 0
  }

  predicate BitAt(x: bv8, i: nat) {
    HasBit(x, MaskOf(i))
  }

  // The bits of a byte, the highest first.
  function BitsOf(x: bv8): (bits: seq<bool>)
    ensures |bits| == 8
  {
    seq(8, i requires 0 <= i < 8 => BitAt(x, i))
  }

  function Bits(p: seq<bv8>): seq<bool> {
    if p == [] then [] else Bits(p[..|p| - 1]) + BitsOf(p[|p| - 1])
  }

  /** The CRC of a payload. */
  function Crc(p: seq<bv8>): bv16 {
    Feed(0, Bits(p))
  }

  // ----- the division

  function Unit(b: bool): bv16 {
    if b then 1 else 0
  }

  // One step of long division by x^16 + x^12 + x^5 + 1: the next coefficient comes in below,
  // and when one of x^16 goes out above, the divisor is subtracted.
  function Divided(r: bv16, b: bool): bv16 {
    var t := Xor(Twice(r), Unit(b));
    if Msb(r) then Xor(t, POLY) else t
  }

  /** The remainder of a polynomial, given by its coefficients, behind those of r. */
  function Remainder(r: bv16, bits: seq<bool>): bv16
    decreases |bits|
  {
    if bits == [] then r else Remainder(Divided(r, bits[0]), bits[1..])
  }

  function Zeros(n: nat): seq<bool> {
    seq(n, _ => false)
  }

  function Ahead(c: bv16, n: nat): bv16
    decreases n
  {
    if n == 0 then c else Ahead(Shifted(c), n - 1)
  }

  lemma XorAssoc(a: bv16, b: bv16, c: bv16)
    ensures Xor(Xor(a, b), c) == Xor(a, Xor(b, c))
  {
  }

  lemma XorComm(a: bv16, b: bv16)
    ensures Xor(a, b) == Xor(b, a)
  {
  }

  lemma XorNone(a: bv16)
    ensures Xor(a, 0) == a && Xor(a, a) == 0
  {
  }

  lemma XorLaws(a: bv16, b: bv16, c: bv16)
    ensures Xor(Xor(a, b), c) == Xor(Xor(a, c), b) && Xor(Xor(a, b), c) == Xor(a, Xor(b, c))
    ensures Xor(Xor(a, c), Xor(b, c)) == Xor(a, b)
    ensures Xor(a, 0) == a
  {
    hide Xor;
    XorAssoc(a, b, c);
    XorAssoc(a, c, b);
    XorComm(b, c);
    XorAssoc(a, c, Xor(b, c));
    XorAssoc(c, c, b);
    XorNone(c);
    XorComm(0, b);
    XorNone(b);
    XorNone(a);
  }

  lemma TwiceXor(c: bv16, d: bv16)
    ensures Twice(Xor(c, d)) == Xor(Twice(c), Twice(d))
  {
  }

  lemma MsbXor(c: bv16, d: bv16)
    ensures Msb(Xor(c, d)) <==> Msb(c) != Msb(d)
  {
  }

  lemma ShiftedXor(c: bv16, d: bv16)
    ensures Shifted(Xor(c, d)) == Xor(Shifted(c), Shifted(d))
  {
    hide Xor, Twice, Msb;
    TwiceXor(c, d);
    MsbXor(c, d);
    XorLaws(Twice(c), Twice(d), POLY);
  }

  lemma {:induction false} AheadXor(c: bv16, d: bv16, n: nat)
    ensures Ahead(Xor(c, d), n) == Xor(Ahead(c, n), Ahead(d, n))
    decreases n
  {
    hide Shifted, Xor;
    if n > 0 {
      ShiftedXor(c, d);
      AheadXor(Shifted(c), Shifted(d), n - 1);
    }
  }

  lemma DividedIs(r: bv16, b: bool)
    ensures Divided(r, b) == Xor(Shifted(r), Unit(b))
  {
    hide Xor, Twice, Msb, Unit;
    XorLaws(Twice(r), Unit(b), POLY);
  }

  lemma {:induction false} AheadSteps(c: bv16, m: nat, n: nat)
    ensures Ahead(c, m + n) == Ahead(Ahead(c, m), n)
    decreases m
  {
    hide Shifted;
    if m > 0 { AheadSteps(Shifted(c), m - 1, n); }
  }

  lemma AheadOne(c: bv16)
    ensures Ahead(c, 1) == Shifted(c)
  {
    hide Shifted;
    assert Ahead(Shifted(c), 0) == Shifted(c);
  }

  lemma Doubling()
    ensures Shifted(1) == 2 && Shifted(2) == 4 && Shifted(4) == 8 && Shifted(8) == 0x10 && Shifted(0x10) == 0x20
    ensures Shifted(0x20) == 0x40 && Shifted(0x40) == 0x80 && Shifted(0x80) == 0x100 && Shifted(0x100) == 0x200
    ensures Shifted(0x200) == 0x400
    ensures Shifted(0x400) == 0x800 && Shifted(0x800) == 0x1000 && Shifted(0x1000) == 0x2000
    ensures Shifted(0x2000) == 0x4000
    ensures Shifted(0x4000) == 0x8000 && Shifted(0) == 0
  {
  }

  lemma FiveAhead(c: bv16, c1: bv16, c2: bv16, c3: bv16, c4: bv16, c5: bv16)
    requires Shifted(c) == c1 && Shifted(c1) == c2 && Shifted(c2) == c3 && Shifted(c3) == c4 && Shifted(c4) == c5
    ensures Ahead(c, 5) == c5
  {
    hide Shifted;
    assert Ahead(c5, 0) == c5;
    assert Ahead(c4, 1) == c5;
    assert Ahead(c3, 2) == c5;
    assert Ahead(c2, 3) == c5;
    assert Ahead(c1, 4) == c5;
  }

  // A single coefficient gets to the top in 15 steps.
  lemma One()
    ensures Ahead(1, 15) == 0x8000
  {
    hide Shifted, Ahead;
    Doubling();
    FiveAhead(1, 2, 4, 8, 0x10, 0x20);
    FiveAhead(0x20, 0x40, 0x80, 0x100, 0x200, 0x400);
    FiveAhead(0x400, 0x800, 0x1000, 0x2000, 0x4000, 0x8000);
    AheadSteps(1, 5, 10);
    AheadSteps(0x20, 5, 5);
  }

  lemma {:induction false} ZeroAhead(n: nat)
    ensures Ahead(0, n) == 0
  {
    hide Shifted;
    Doubling();
    if n > 0 { ZeroAhead(n - 1); }
  }

  lemma NoBit(c: bv16)
    ensures Xor(c, Unit(false)) == c && Xor(c, Top(false)) == c
  {
  }

  lemma {:induction false} RemainderZeros(r: bv16, n: nat)
    ensures Remainder(r, Zeros(n)) == Ahead(r, n)
    decreases n
  {
    hide Shifted, Divided, Xor, Unit;
    if n > 0 {
      DividedIs(r, false);
      NoBit(Shifted(r));
      assert Zeros(n)[1..] == Zeros(n - 1);
      RemainderZeros(Shifted(r), n - 1);
    }
  }

  lemma UnitTop(b: bool)
    ensures Ahead(Unit(b), 16) == Shifted(Top(b))
  {
    hide Shifted, Ahead;
    if b {
      One();
      AheadSteps(1, 15, 1);
      AheadOne(0x8000);
    } else {
      ZeroAhead(16);
      Doubling();
    }
  }

  // A coefficient fed in at the top, or divided in below.
  lemma FedAhead(r: bv16, b: bool)
    ensures Fed(Ahead(r, 16), b) == Ahead(Divided(r, b), 16)
  {
    hide Shifted, Divided, Xor, Ahead, Unit, Top;
    DividedIs(r, b);
    AheadXor(Shifted(r), Unit(b), 16);
    UnitTop(b);
    ShiftedXor(Ahead(r, 16), Top(b));
    AheadSteps(r, 16, 1);
    AheadSteps(r, 1, 16);
    AheadOne(Ahead(r, 16));
    AheadOne(r);
  }

  lemma {:induction false} Division(r: bv16, bits: seq<bool>)
    ensures Remainder(r, bits + Zeros(16)) == Feed(Ahead(r, 16), bits)
    decreases |bits|
  {
    hide Fed, Divided, Ahead;
    if bits == [] {
      assert bits + Zeros(16) == Zeros(16);
      RemainderZeros(r, 16);
    } else {
      assert (bits + Zeros(16))[0] == bits[0] && (bits + Zeros(16))[1..] == bits[1..] + Zeros(16);
      FedAhead(r, bits[0]);
      Division(Divided(r, bits[0]), bits[1..]);
    }
  }

  /** The CRC is the remainder of the message times x^16 divided by x^16 + x^12 + x^5 + 1. */
  lemma CrcDivides(p: seq<bv8>)
    ensures Crc(p) == Remainder(0, Bits(p) + Zeros(16))
  {
    hide Feed, Remainder;
    ZeroAhead(16);
    Division(0, Bits(p));
  }

  // ----- linearity

  function XorBits(a: seq<bool>, b: seq<bool>): seq<bool>
    requires |a| == |b|
  {
    seq(|a|, i requires 0 <= i < |a| => a[i] != b[i])
  }

  function XorBytes(p: seq<bv8>, q: seq<bv8>): seq<bv8>
    requires |p| == |q|
  {
    seq(|p|, i requires 0 <= i < |p| => XorByte(p[i], q[i]))
  }

  function XorByte(x: bv8, y: bv8): bv8 {
    x ^ y
  }

  lemma TopXor(c: bv16, d: bv16, x: bool, y: bool)
    ensures Xor(Xor(c, d), Top(x != y)) == Xor(Xor(c, Top(x)), Xor(d, Top(y)))
  {
    hide Xor;
    XorLaws(c, d, Top(x));
    XorLaws(c, d, Top(y));
    XorLaws(c, 0, 0);
    XorLaws(d, 0, 0);
    XorLaws(Xor(c, d), 0, 0);
  }

  lemma FedXor(c: bv16, d: bv16, x: bool, y: bool)
    ensures Fed(Xor(c, d), x != y) == Xor(Fed(c, x), Fed(d, y))
  {
    hide Shifted, Xor, Top;
    TopXor(c, d, x, y);
    ShiftedXor(Xor(c, Top(x)), Xor(d, Top(y)));
  }

  lemma {:induction false} FeedXor(c: bv16, d: bv16, a: seq<bool>, b: seq<bool>)
    requires |a| == |b|
    ensures Feed(Xor(c, d), XorBits(a, b)) == Xor(Feed(c, a), Feed(d, b))
    decreases |a|
  {
    hide Fed, Xor;
    if a != [] {
      FedXor(c, d, a[0], b[0]);
      FeedXor(Fed(c, a[0]), Fed(d, b[0]), a[1..], b[1..]);
      assert XorBits(a, b)[1..] == XorBits(a[1..], b[1..]);
    }
  }

  lemma {:induction false} BitsLength(p: seq<bv8>)
    ensures |Bits(p)| == 8 * |p|
    decreases |p|
  {
    hide BitsOf;
    if p != [] {
      BitsLength(p[..|p| - 1]);
    }
  }

  lemma MaskXor(x: bv8, y: bv8, m: bv8)
    requires m == 0x80 || m == 0x40 || m == 0x20 || m == 0x10 || m == 8 || m == 4 || m == 2 || m == 1
    ensures HasBit(XorByte(x, y), m) <==> HasBit(x, m) != HasBit(y, m)
  {
  }

  lemma BitXor(x: bv8, y: bv8, i: nat)
    ensures BitAt(XorByte(x, y), i) <==> BitAt(x, i) != BitAt(y, i)
  {
    hide XorByte, HasBit;
    MaskXor(x, y, MaskOf(i));
  }

  lemma ByteXor(x: bv8, y: bv8)
    ensures BitsOf(XorByte(x, y)) == XorBits(BitsOf(x), BitsOf(y))
  {
    hide XorByte, BitAt;
    forall i | 0 <= i < 8
      ensures BitsOf(XorByte(x, y))[i] == XorBits(BitsOf(x), BitsOf(y))[i]
    {
      BitXor(x, y, i);
    }
  }

  lemma XorAppend(a: seq<bool>, b: seq<bool>, c: seq<bool>, d: seq<bool>)
    requires |a| == |b| && |c| == |d|
    ensures XorBits(a + c, b + d) == XorBits(a, b) + XorBits(c, d)
  {
  }

  lemma {:induction false} BitsXor(p: seq<bv8>, q: seq<bv8>)
    requires |p| == |q|
    ensures |Bits(p)| == |Bits(q)| && Bits(XorBytes(p, q)) == XorBits(Bits(p), Bits(q))
    decreases |p|
  {
    hide BitsOf, XorByte;
    BitsLength(p);
    BitsLength(q);
    if p != [] {
      var n := |p| - 1;
      BitsXor(p[..n], q[..n]);
      ByteXor(p[n], q[n]);
      assert XorBytes(p, q)[..n] == XorBytes(p[..n], q[..n]);
      XorAppend(Bits(p[..n]), Bits(q[..n]), BitsOf(p[n]), BitsOf(q[n]));
    }
  }

  lemma XorZero()
    ensures Xor(0, 0) == 0
  {
  }

  /** The CRC is linear. */
  lemma CrcXor(p: seq<bv8>, q: seq<bv8>)
    requires |p| == |q|
    ensures Crc(XorBytes(p, q)) == Xor(Crc(p), Crc(q))
  {
    hide Feed, Xor, Bits;
    BitsXor(p, q);
    FeedXor(0, 0, Bits(p), Bits(q));
    XorZero();
  }

  // ----- bursts of errors

  predicate Disjoint(c: bv16, m: bv16) {
    c & m == 0
  }

  // The low 16 - k bits of the register.
  function Mask(k: nat): bv16
    requires k <= 15
  {
    if k == 0 then 0xFFFF else Half(Mask(k - 1))
  }

  function Half(m: bv16): bv16 {
    m >> 1
  }

  predicate Odd(m: bv16) {
    m & 1 != 0
  }

  lemma Masks()
    ensures Half(0xFFFF) == 0x7FFF && Half(0x7FFF) == 0x3FFF && Half(0x3FFF) == 0x1FFF && Half(0x1FFF) == 0xFFF
    ensures Half(0xFFF) == 0x7FF && Half(0x7FF) == 0x3FF && Half(0x3FF) == 0x1FF && Half(0x1FF) == 0xFF
    ensures Half(0xFF) == 0x7F && Half(0x7F) == 0x3F && Half(0x3F) == 0x1F && Half(0x1F) == 0xF
    ensures Half(0xF) == 7 && Half(7) == 3 && Half(3) == 1
  {
  }

  lemma OddMasks()
    ensures Odd(0xFFFF) && Odd(0x7FFF) && Odd(0x3FFF) && Odd(0x1FFF) && Odd(0xFFF) && Odd(0x7FF) && Odd(0x3FF)
    ensures Odd(0x1FF)
    ensures Odd(0xFF) && Odd(0x7F) && Odd(0x3F) && Odd(0x1F) && Odd(0xF) && Odd(7) && Odd(3) && Odd(1)
  {
  }

  lemma MaskOdd(k: nat)
    requires k <= 15
    ensures Odd(Mask(k))
  {
    hide Odd, Half;
    Masks();
    OddMasks();
    assert Mask(0) == 0xFFFF && Mask(1) == 0x7FFF && Mask(2) == 0x3FFF && Mask(3) == 0x1FFF;
    assert Mask(4) == 0xFFF && Mask(5) == 0x7FF && Mask(6) == 0x3FF && Mask(7) == 0x1FF;
    assert Mask(8) == 0xFF && Mask(9) == 0x7F && Mask(10) == 0x3F && Mask(11) == 0x1F;
    assert Mask(12) == 0xF && Mask(13) == 7 && Mask(14) == 3 && Mask(15) == 1;
  }

  // The divisor is odd: low zeros were zeros one place below.
  lemma BackStep(c: bv16, b: bool, m: bv16)
    requires Odd(m) && Disjoint(Fed(c, b), m)
    ensures Disjoint(c, Half(m))
  {
  }

  lemma {:induction false} FeedBack(c: bv16, bits: seq<bool>, k: nat)
    requires k + |bits| <= 15 && Disjoint(Feed(c, bits), Mask(k))
    ensures Disjoint(c, Mask(k + |bits|))
    decreases |bits|
  {
    hide Fed, Odd, Disjoint, Half;
    if bits != [] {
      var n := |bits| - 1;
      assert bits == bits[..n] + [bits[n]];
      FeedMore(c, bits[..n], [bits[n]]);
      var d := Feed(c, bits[..n]);
      assert Feed(Fed(d, bits[n]), [bits[n]][1..]) == Fed(d, bits[n]);
      MaskOdd(k);
      BackStep(d, bits[n], Mask(k));
      FeedBack(c, bits[..n], k + 1);
    }
  }

  lemma FirstError()
    ensures Fed(0, true) == POLY && Fed(0, false) == 0 && POLY != 0
  {
  }

  lemma ZeroDisjoint(m: bv16)
    ensures Disjoint(0, m)
  {
  }

  lemma PolyOdd(m: bv16)
    requires Odd(m)
    ensures !Disjoint(POLY, m)
  {
  }

  // A wrong bit and up to 15 bits behind it do not cancel out.
  lemma BurstLeaves(bits: seq<bool>)
    requires |bits| <= 15
    ensures Feed(POLY, bits) != 0
  {
    hide Mask, Disjoint, Odd, Feed;
    if Feed(POLY, bits) == 0 {
      ZeroDisjoint(Mask(0));
      FeedBack(POLY, bits, 0);
      MaskOdd(|bits|);
      PolyOdd(Mask(|bits|));
    }
  }

  lemma NotLost(c: bv16)
    requires c != 0
    ensures Fed(c, false) != 0
  {
  }

  lemma {:induction false} ZerosKeep(c: bv16, bits: seq<bool>)
    requires forall i :: 0 <= i < |bits| ==> !bits[i]
    ensures c == 0 <==> Feed(c, bits) == 0
    decreases |bits|
  {
    hide Fed;
    if bits != [] {
      FirstError();
      if c != 0 { NotLost(c); }
      ZerosKeep(Fed(c, false), bits[1..]);
    }
  }

  /** Wrong bits, all among 16 in a row, always leave something in the register. */
  lemma BurstSeen(d: seq<bool>, f: nat)
    requires f < |d| && d[f] && forall i :: 0 <= i < |d| && d[i] ==> f <= i < f + 16
    ensures Feed(0, d) != 0
  {
    hide Fed;
    var e := if f + 16 < |d| then f + 16 else |d|;
    assert d == d[..f] + ([true] + (d[f + 1..e] + d[e..]));
    FeedMore(0, d[..f], [true] + (d[f + 1..e] + d[e..]));
    ZerosKeep(0, d[..f]);
    FirstError();
    FeedMore(0, [true], d[f + 1..e] + d[e..]);
    assert Feed(0, [true]) == Feed(Fed(0, true), [true][1..]) == POLY;
    FeedMore(POLY, d[f + 1..e], d[e..]);
    BurstLeaves(d[f + 1..e]);
    ZerosKeep(Feed(POLY, d[f + 1..e]), d[e..]);
  }

  // The payloads differ, and only within 16 bits from bit s on.
  predicate Burst(p: seq<bv8>, q: seq<bv8>, s: nat) {
    |Bits(p)| == |Bits(q)| && Bits(p) != Bits(q) && forall i :: 0 <= i < |Bits(p)| && Bits(p)[i] != Bits(q)[i] ==> s <= i < s + 16
  }

  lemma FirstDifference(a: seq<bool>, b: seq<bool>) returns (f: nat)
    requires |a| == |b| && a != b
    ensures f < |a| && a[f] != b[f] && forall i :: 0 <= i < f ==> a[i] == b[i]
  {
    f := 0;
    while f < |a| && a[f] == b[f]
      invariant f <= |a| && forall i :: 0 <= i < f ==> a[i] == b[i]
    {
      f := f + 1;
    }
  }

  /** Payloads that differ only within 16 bits in a row never have the same CRC. */
  lemma BurstDetected(p: seq<bv8>, q: seq<bv8>, s: nat)
    requires |p| == |q| && Burst(p, q, s)
    ensures Crc(p) != Crc(q)
  {
    hide Feed, Xor, Bits;
    BitsXor(p, q);
    CrcXor(p, q);
    var f := FirstDifference(Bits(p), Bits(q));
    BurstSeen(XorBits(Bits(p), Bits(q)), f);
    XorSelf(Crc(p), Crc(q));
  }

  lemma XorSelf(a: bv16, b: bv16)
    ensures Xor(a, b) == 0 <==> a == b
  {
  }

  // ----- whole bytes at a time

  function High(x: bv8): bv16 {
    (x as bv16) << 8
  }

  function Dbl(x: bv8): bv8 {
    x << 1
  }

  function DblN(x: bv8, n: nat): bv8
    decreases n
  {
    if n == 0 then x else DblN(Dbl(x), n - 1)
  }

  function FeedByte(c: bv16, x: bv8, n: nat): bv16
    decreases n
  {
    if n == 0 then c else FeedByte(Fed(c, HasBit(x, 0x80)), Dbl(x), n - 1)
  }

  lemma HighTop(x: bv8)
    ensures Shifted(High(x)) == Xor(Shifted(Top(HasBit(x, 0x80))), High(Dbl(x)))
  {
  }

  lemma HighStep(c: bv16, x: bv8)
    ensures Shifted(Xor(c, High(x))) == Xor(Fed(c, HasBit(x, 0x80)), High(Dbl(x)))
  {
    hide Shifted, Xor, Top, HasBit, High, Dbl;
    HighTop(x);
    ShiftedXor(c, High(x));
    ShiftedXor(c, Top(HasBit(x, 0x80)));
    XorAssoc(Shifted(c), Shifted(Top(HasBit(x, 0x80))), High(Dbl(x)));
  }

  lemma {:induction false} ByteAhead(c: bv16, x: bv8, n: nat)
    ensures Ahead(Xor(c, High(x)), n) == Xor(FeedByte(c, x, n), High(DblN(x, n)))
    decreases n
  {
    hide Shifted, Xor, HasBit, High, Dbl, Fed;
    if n > 0 {
      HighStep(c, x);
      ByteAhead(Fed(c, HasBit(x, 0x80)), Dbl(x), n - 1);
    }
  }

  lemma DblBits(x: bv8, i: nat)
    requires i < 7
    ensures BitAt(Dbl(x), i) == BitAt(x, i + 1)
  {
  }

  lemma {:induction false} ByteBits(c: bv16, x: bv8, n: nat)
    requires n <= 8
    ensures FeedByte(c, x, n) == Feed(c, BitsOf(x)[..n])
    decreases n
  {
    hide Fed, BitAt, Dbl;
    if n > 0 {
      FirstBit(x);
      ByteBits(Fed(c, HasBit(x, 0x80)), Dbl(x), n - 1);
      forall i | 0 <= i < n - 1
        ensures BitsOf(Dbl(x))[i] == BitsOf(x)[i + 1]
      {
        DblBits(x, i);
      }
      assert BitsOf(x)[..n][1..] == BitsOf(Dbl(x))[..n - 1];
    }
  }

  lemma FirstBit(x: bv8)
    ensures BitAt(x, 0) == HasBit(x, 0x80)
  {
  }

  lemma NothingLeft(x: bv8)
    ensures Dbl(Dbl(Dbl(Dbl(Dbl(Dbl(Dbl(Dbl(x)))))))) == 0 && High(0) == 0
  {
  }

  lemma DblEight(x: bv8)
    ensures DblN(x, 8) == Dbl(Dbl(Dbl(Dbl(Dbl(Dbl(Dbl(Dbl(x))))))))
  {
    hide Dbl;
    var x1 := Dbl(x);
    var x2 := Dbl(x1);
    var x3 := Dbl(x2);
    var x4 := Dbl(x3);
    var x5 := Dbl(x4);
    var x6 := Dbl(x5);
    var x7 := Dbl(x6);
    assert DblN(x7, 1) == DblN(Dbl(x7), 0);
    assert DblN(x6, 2) == DblN(x7, 1);
    assert DblN(x5, 3) == DblN(x6, 2);
    assert DblN(x4, 4) == DblN(x5, 3);
    assert DblN(x3, 5) == DblN(x4, 4);
    assert DblN(x2, 6) == DblN(x3, 5);
    assert DblN(x1, 7) == DblN(x2, 6);
  }

  /** A byte put in above and shifted through has the effect of its bits one by one. */
  lemma ByteFed(c: bv16, x: bv8)
    ensures Ahead(Xor(c, High(x)), 8) == Feed(c, BitsOf(x))
  {
    hide Ahead, Xor, High, Dbl, DblN, Feed, FeedByte, BitsOf;
    ByteAhead(c, x, 8);
    DblEight(x);
    NothingLeft(x);
    XorNone(FeedByte(c, x, 8));
    ByteBits(c, x, 8);
    assert BitsOf(x)[..8] == BitsOf(x);
  }

  // ----- a message with its CRC behind it

  function Low(x: bv8): bv16 {
    x as bv16
  }

  function Up(x: bv8, k: nat): bv16
    requires k <= 8
  {
    Low(x) << k
  }

  lemma UpStep(x: bv8)
    ensures Shifted(Up(x, 0)) == Up(x, 1) && Shifted(Up(x, 1)) == Up(x, 2) && Shifted(Up(x, 2)) == Up(x, 3)
    ensures Shifted(Up(x, 3)) == Up(x, 4) && Shifted(Up(x, 4)) == Up(x, 5) && Shifted(Up(x, 5)) == Up(x, 6)
    ensures Shifted(Up(x, 6)) == Up(x, 7) && Shifted(Up(x, 7)) == Up(x, 8) && Up(x, 8) == High(x) && Up(x, 0) == Low(x)
  {
  }

  lemma {:induction false} UpAhead(x: bv8, k: nat)
    requires k <= 8
    ensures Ahead(Up(x, 8 - k), k) == High(x)
    decreases k
  {
    hide Shifted, Up, Low, High;
    UpStep(x);
    if k > 0 {
      assert Shifted(Up(x, 8 - k)) == Up(x, 8 - (k - 1));
      UpAhead(x, k - 1);
    }
  }

  /** A message with its CRC behind it, the high byte first, has the CRC 0. */
  lemma CrcBehind(p: seq<bv8>, h: bv8, l: bv8)
    requires Crc(p) == Xor(High(h), Low(l))
    ensures Crc(p + [h, l]) == 0
  {
    hide Xor, High, Low, Feed, Ahead, BitsOf, Shifted;
    var c := Crc(p);
    assert (p + [h, l])[..|p| + 1] == p + [h] && (p + [h])[..|p|] == p;
    FeedMore(0, Bits(p + [h]), BitsOf(l));
    FeedMore(0, Bits(p), BitsOf(h));
    ByteFed(c, h);
    XorLaws(High(h), Low(l), High(h));
    XorNone(High(h));
    XorComm(0, Low(l));
    XorNone(Low(l));
    UpStep(l);
    UpAhead(l, 8);
    ByteFed(High(l), l);
    XorNone(High(l));
    ZeroAhead(8);
  }

  lemma {:induction false} BitsAppend(p: seq<bv8>, q: seq<bv8>)
    ensures Bits(p + q) == Bits(p) + Bits(q)
    decreases |q|
  {
    hide BitsOf;
    if q == [] {
      assert p + q == p;
    } else {
      var n := |q| - 1;
      assert (p + q)[..|p| + n] == p + q[..n];
      BitsAppend(p, q[..n]);
    }
  }

  // ----- the loop of xmodem_get_record

  function Low16(chk: bv32): bv16 {
    (chk & 0xFFFF) as bv16
  }

  function Twice32(chk: bv32): bv32 {
    chk << 1
  }

  predicate Msb32(chk: bv32) {
    chk & 0x8000 != 0
  }

  function Poly32(chk: bv32): bv32 {
    chk ^ 0x1021
  }

  function Step32(chk: bv32): bv32 {
    if Msb32(chk) then Poly32(Twice32(chk)) else Twice32(chk)
  }

  function In32(chk: bv32, x: bv8): bv32 {
    chk ^ ((x as bv32) << 8)
  }

  lemma TwiceLow(chk: bv32)
    ensures Low16(Twice32(chk)) == Twice(Low16(chk)) && (Msb32(chk) <==> Msb(Low16(chk)))
  {
  }

  lemma PolyLow(chk: bv32)
    ensures Low16(Poly32(chk)) == Low16(chk) ^ POLY
  {
  }

  lemma StepLow(chk: bv32)
    ensures Low16(Step32(chk)) == Shifted(Low16(chk))
  {
    hide Low16, Twice32, Msb32, Poly32, Twice, Msb;
    TwiceLow(chk);
    PolyLow(Twice32(chk));
  }

  lemma InLow(chk: bv32, x: bv8)
    ensures Low16(In32(chk, x)) == Xor(Low16(chk), High(x))
  {
  }

  lemma {:induction false} AheadLast(c: bv16, n: nat)
    ensures Ahead(c, n + 1) == Shifted(Ahead(c, n))
    decreases n
  {
    hide Shifted;
    if n > 0 { AheadLast(Shifted(c), n - 1); }
  }

  /** The loop over the payload leaves the CRC in the low half of the word. */
  method Check(p: seq<bv8>) returns (chk: bv32)
    ensures Low16(chk) == Crc(p)
  {
    hide Step32, In32, Low16, Shifted, Ahead, Feed, Xor, High, BitsOf;
    chk := 0;
    ZeroLow();
    var size := 0;
    while size < |p|
      invariant size <= |p| && Low16(chk) == Feed(0, Bits(p[..size]))
    {
      ghost var c := Low16(chk);
      InLow(chk, p[size]);
      chk := In32(chk, p[size]);
      ghost var c1 := Low16(chk);
      var j := 0;
      AheadNone(c1);
      while j < 8
        invariant 0 <= j <= 8 && Low16(chk) == Ahead(c1, j)
      {
        StepLow(chk);
        AheadLast(c1, j);
        chk := Step32(chk);
        j := j + 1;
      }
      ByteFed(c, p[size]);
      FeedMore(0, Bits(p[..size]), BitsOf(p[size]));
      assert p[..size + 1][..size] == p[..size];
      size := size + 1;
    }
    assert p[..|p|] == p;
  }

  lemma AheadNone(c: bv16)
    ensures Ahead(c, 0) == c
  {
  }

  lemma ZeroLow()
    ensures Low16(0) == 0 && Feed(0, Bits([])) == 0
  {
  }
}
