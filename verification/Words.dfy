/** Machine words as numbers: powers of two, and the bits of a number. */
module Words {

  type Byte = b: int | 0 <= b < 256

  function Pow2(n: nat): (p: nat)
    ensures p >= 1
  {
    if n == 0 then 1 else 2 * Pow2(n - 1)
  }

  lemma {:induction false} Pow2Add(m: nat, n: nat)
    ensures Pow2(m + n) == Pow2(m) * Pow2(n)
  {
    if m == 0 {
      assert Pow2(0 + n) == 1 * Pow2(n);
    } else {
      Pow2Add(m - 1, n);
      assert Pow2(m + n) == 2 * Pow2((m - 1) + n);
      assert 2 * (Pow2(m - 1) * Pow2(n)) == (2 * Pow2(m - 1)) * Pow2(n);
    }
  }

  lemma {:induction false} Pow2Less(m: nat, n: nat)
    requires m < n
    ensures 2 * Pow2(m) <= Pow2(n)
    decreases n
  {
    if m < n - 1 { Pow2Less(m, n - 1); }
  }

  lemma Pow2Values()
    ensures Pow2(0) == 1 && Pow2(1) == 2 && Pow2(2) == 4 && Pow2(3) == 8 && Pow2(4) == 16 && Pow2(5) == 32
    ensures Pow2(6) == 64 && Pow2(7) == 128 && Pow2(8) == 256 && Pow2(9) == 512 && Pow2(10) == 1024 && Pow2(11) == 2048
    ensures Pow2(12) == 4096 && Pow2(13) == 8192 && Pow2(14) == 16384 && Pow2(15) == 0x8000 && Pow2(16) == 0x1_0000
    ensures Pow2(17) == 0x2_0000 && Pow2(18) == 0x4_0000 && Pow2(19) == 0x8_0000 && Pow2(20) == 0x10_0000
    ensures Pow2(21) == 0x20_0000 && Pow2(22) == 0x40_0000 && Pow2(23) == 0x80_0000 && Pow2(24) == 0x100_0000
    ensures Pow2(31) == 0x8000_0000 && Pow2(32) == 0x1_0000_0000
  {
    assert Pow2(8) == 256 by { assert Pow2(4) == 16; Pow2Add(4, 4); }
    assert Pow2(16) == 0x1_0000 by { Pow2Add(8, 8); }
    assert Pow2(12) == 4096 by { assert Pow2(4) == 16; Pow2Add(8, 4); }
    assert Pow2(20) == 0x10_0000 by { assert Pow2(4) == 16; Pow2Add(16, 4); }
    assert Pow2(24) == 0x100_0000 by { Pow2Add(16, 8); }
    assert Pow2(28) == 0x1000_0000 by { assert Pow2(4) == 16; Pow2Add(24, 4); }
  }

  // x & y
  function BitAnd(x: nat, y: nat): nat
    decreases x
  {
    if x == 0 then 0 else x % 2 * (y % 2) + 2 * BitAnd(x / 2, y / 2)
  }

  lemma {:induction false} AllOnes(x: nat, n: nat)
    requires x < Pow2(n)
    ensures BitAnd(x, Pow2(n) - 1) == x
    decreases n
  {
    if x > 0 {
      var p := Pow2(n - 1);
      assert Pow2(n) == 2 * p;
      assert (2 * p - 1) % 2 == 1 && (2 * p - 1) / 2 == p - 1;
      AllOnes(x / 2, n - 1);
    }
  }

  /** A mask of ones above bit k rounds down. */
  lemma {:induction false} MaskBits(x: nat, k: nat, n: nat)
    requires k <= n && x < Pow2(n)
    ensures Pow2(k) <= Pow2(n) && BitAnd(x, Pow2(n) - Pow2(k)) == x - x % Pow2(k)
    decreases n
  {
    if k == 0 {
      AllOnes(x, n);
    } else {
      MaskBits(x / 2, k - 1, n - 1);
      HalfRemainder(x, Pow2(k - 1));
    }
  }

  /** A mask of ones below bit k is the remainder. */
  lemma {:induction false} LowMask(x: nat, k: nat)
    ensures BitAnd(x, Pow2(k) - 1) == x % Pow2(k)
    decreases k
  {
    hide BitAnd;
    if k == 0 {
      NoBits(x);
    } else {
      LowMask(x / 2, k - 1);
      HalfRemainder(x, Pow2(k - 1));
      BitAndOdd(x, Pow2(k - 1) - 1);
      DoubledPow(k);
    }
  }

  lemma DoubledPow(k: nat)
    requires k > 0
    ensures Pow2(k) == 2 * Pow2(k - 1)
  {
  }

  lemma BitAndOdd(x: nat, y: nat)
    ensures BitAnd(x, 2 * y + 1) == x % 2 + 2 * BitAnd(x / 2, y)
  {
    assert (2 * y + 1) % 2 == 1 && (2 * y + 1) / 2 == y;
  }

  lemma {:induction false} NoBits(x: nat)
    ensures BitAnd(x, 0) == 0
    decreases x
  {
    if x > 0 { NoBits(x / 2); }
  }

  lemma HalfRemainder(x: nat, b: nat)
    requires b > 0
    ensures x % (2 * b) == x % 2 + 2 * (x / 2 % b)
  {
    var q, r := x / 2 / b, x / 2 % b;
    assert x / 2 == b * q + r;
    assert x == 2 * (x / 2) + x % 2;
    assert (2 * b) * q == 2 * (b * q);
    Remaining(x, q, 2 * b, x % 2 + 2 * r);
  }

  lemma Divided(x: nat, k: nat) returns (q: nat, r: nat)
    requires k > 0
    ensures x == k * q + r && r < k && q == x / k && r == x % k
  {
    q, r := x / k, x % k;
  }

  lemma Distribute(k: int, a: int, b: int)
    ensures k * (a + b) == k * a + k * b
  {
  }

  lemma Remaining(x: nat, q: nat, k: nat, r: nat)
    requires k > 0 && r < k && x == k * q + r
    ensures x / k == q && x % k == r
  {
    var q', r' := x / k, x % k;
    assert x == k * q' + r';
    if q < q' { Larger(k, q, q'); }
    if q' < q { Larger(k, q', q); }
  }

  lemma Larger(k: nat, q: nat, q': nat)
    requires q < q'
    ensures k * q + k <= k * q'
  {
    var d := q' - q - 1;
    assert q' == q + 1 + d;
    Distribute(k, q + 1, d);
    Distribute(k, q, 1);
    NotNegative(k, d);
  }

  lemma NotNegative(k: nat, d: nat)
    ensures k * d >= 0
  {
  }
}
