/** The file allocation table as bytes: how entries of 12, 16 and 32 bits are packed. */
module FatTable {
  import opened Words

  datatype FsType = FAT12 | FAT16 | FAT32

  // Entries are stored in so many values; the top four bits of a FAT32 entry are not its own.
  function Range(t: FsType): int {
    match t
    case FAT12 => 0x1000
    case FAT16 => 0x10000
    case FAT32 => 0x1000_0000
  }

  // Where the bytes of entry c begin, and how many there are.
  function Offset(t: FsType, c: nat): nat {
    match t
    case FAT12 => c + c / 2
    case FAT16 => 2 * c
    case FAT32 => 4 * c
  }

  function Width(t: FsType): nat {
    match t
    case FAT12 => 2
    case FAT16 => 2
    case FAT32 => 4
  }

  predicate Holds(t: FsType, fat: seq<Byte>, c: nat) {
    Offset(t, c) + Width(t) <= |fat|
  }

  function At(fat: seq<Byte>, i: nat): int
    requires i < |fat|
  {
    fat[i]
  }

  /** The value of entry c. */
  function Entry(t: FsType, fat: seq<Byte>, c: nat): (v: nat)
    requires Holds(t, fat, c)
  {
    var o := Offset(t, c);
    match t
    case FAT12 =>
      var w := At(fat, o) + 256 * At(fat, o + 1);
      if c % 2 == 1 then w / 16 else w % 0x1000
    case FAT16 => At(fat, o) + 256 * At(fat, o + 1)
    case FAT32 => (At(fat, o) + 0x100 * At(fat, o + 1) + 0x1_0000 * At(fat, o + 2) + 0x100_0000 * At(fat, o + 3)) % 0x1000_0000
  }

  // The byte of the packed entry at distance d, was being the byte stored there.
  function PackedByte(t: FsType, c: nat, v: nat, d: nat, was: Byte): Byte
    requires d < Width(t)
  {
    match t
    case FAT12 =>
      if d == 0 then (if c % 2 == 1 then was % 16 + (v % 16) * 16 else v % 256)
      else (if c % 2 == 1 then (v / 16) % 256 else (was / 16) * 16 + (v / 256) % 16)
    case FAT16 => if d == 0 then v % 256 else (v / 256) % 256
    case FAT32 =>
      if d == 0 then v % 256 else if d == 1 then (v / 0x100) % 256
      else if d == 2 then (v / 0x1_0000) % 256 else (v / 0x100_0000) % 256
  }

  /** The table with v stored in entry c. */
  function PutEntry(t: FsType, fat: seq<Byte>, c: nat, v: nat): (r: seq<Byte>)
    requires Holds(t, fat, c)
    ensures |r| == |fat|
  {
    var o := Offset(t, c);
    var r := fat[o := PackedByte(t, c, v, 0, fat[o])][o + 1 := PackedByte(t, c, v, 1, fat[o + 1])];
    if t == FAT32 then
      r[o + 2 := PackedByte(t, c, v, 2, fat[o + 2])][o + 3 := PackedByte(t, c, v, 3, fat[o + 3])]
    else r
  }

  /** What is put is what is got, up to the bits an entry has. */
  lemma PutGet(t: FsType, fat: seq<Byte>, c: nat, v: nat)
    requires Holds(t, fat, c)
    ensures Entry(t, PutEntry(t, fat, c, v), c) == v % Range(t)
  {
    var o := Offset(t, c);
    var r := PutEntry(t, fat, c, v);
    match t
    case FAT12 =>
      if c % 2 == 1 { Pack12Odd(fat[o], v); } else { Pack12Even(fat[o + 1], v); }
    case FAT16 => Pack16(v);
    case FAT32 => Pack32(v);
  }

  lemma Pack12Odd(a: Byte, v: nat)
    ensures (a % 16 + (v % 16) * 16 + 256 * ((v / 16) % 256)) / 16 == v % 0x1000
  {
    hide *;
  }

  lemma Pack12Even(b: Byte, v: nat)
    ensures (v % 256 + 256 * ((b / 16) * 16 + (v / 256) % 16)) % 0x1000 == v % 0x1000
  {
    hide *;
    var h := v / 256;
    assert v == 0x1000 * (h / 16) + (256 * (h % 16) + v % 256);
    var low := 256 * (h % 16) + v % 256;
    assert (0x1000 * (h / 16) + low) % 0x1000 == low;
    assert (0x1000 * (b / 16) + low) % 0x1000 == low;
  }

  lemma Pack16(v: nat)
    ensures v % 256 + 256 * ((v / 256) % 256) == v % 0x10000
  {
    hide *;
    var h := v / 256;
    assert v == 0x10000 * (h / 256) + (256 * (h % 256) + v % 256);
  }

  lemma Bytes(v: nat)
    ensures v / 0x1_0000 == v / 0x100 / 0x100 && v / 0x100_0000 == v / 0x1_0000 / 0x100
  {
  }

  lemma HighBits(low: int, k: int)
    ensures (low + 0x1_0000_0000 * k) % 0x1000_0000 == low % 0x1000_0000
  {
    hide *;
    var q, r := low / 0x1000_0000, low % 0x1000_0000;
    assert low + 0x1_0000_0000 * k == 0x1000_0000 * (q + 16 * k) + r;
  }

  lemma Pack32(v: nat)
    ensures (v % 256 + 0x100 * ((v / 0x100) % 256) + 0x1_0000 * ((v / 0x1_0000) % 256) + 0x100_0000 * ((v / 0x100_0000) % 256)) % 0x1000_0000
      == v % 0x1000_0000
  {
    Bytes(v);
    var v1, v2, v3, v4 := v / 0x100, v / 0x1_0000, v / 0x100_0000, v / 0x100_0000 / 0x100;
    assert v == v % 256 + 0x100 * v1;
    assert v1 == v1 % 256 + 0x100 * v2;
    assert v2 == v2 % 256 + 0x100 * v3;
    assert v3 == v3 % 256 + 0x100 * v4;
    HighBits(v % 256 + 0x100 * (v1 % 256) + 0x1_0000 * (v2 % 256) + 0x100_0000 * (v3 % 256), v4);
  }

  /** No other entry changes, although neighbouring 12-bit entries share a byte. */
  lemma PutOther(t: FsType, fat: seq<Byte>, c: nat, v: nat, d: nat)
    requires Holds(t, fat, c) && Holds(t, fat, d) && c != d
    ensures Entry(t, PutEntry(t, fat, c, v), d) == Entry(t, fat, d)
  {
    var o, p := Offset(t, c), Offset(t, d);
    var r := PutEntry(t, fat, c, v);
    if t == FAT12 {
      if d == c + 1 && c % 2 == 0 {
        // d's low nibble is in the high half of c's second byte
        assert p == o + 1;
        LowNibble(fat[o + 1], v, fat[p + 1]);
      } else if c == d + 1 && d % 2 == 0 {
        // d's high nibble is in the low half of c's first byte
        assert o == p + 1;
        HighNibble(fat[p], fat[o], v);
      }
    }
  }

  lemma LowNibble(b: Byte, v: nat, e: Byte)
    ensures ((b / 16) * 16 + (v / 256) % 16 + 256 * e) / 16 == (b + 256 * e) / 16
  {
  }

  lemma HighNibble(e: Byte, b: Byte, v: nat)
    ensures (e + 256 * (b % 16 + (v % 16) * 16)) % 0x1000 == (e + 256 * b) % 0x1000
  {
  }

  // ----- the layout of the table

  // Bit j of a number.
  function Bit(x: nat, j: nat): nat
    decreases j
  {
    if j == 0 then x % 2 else Bit(x / 2, j - 1)
  }

  lemma {:induction false} BitOfSum(a: nat, b: nat, k: nat, j: nat)
    requires a < Pow2(k)
    ensures Bit(a + Pow2(k) * b, j) == if j < k then Bit(a, j) else Bit(b, j - k)
    decreases k, j
  {
    if k > 0 {
      var p, x := Pow2(k - 1), a + Pow2(k) * b;
      assert Pow2(k) * b == 2 * (p * b) by { assert (2 * p) * b == 2 * (p * b); }
      assert x / 2 == a / 2 + p * b && x % 2 == a % 2;
      if j > 0 { BitOfSum(a / 2, b, k - 1, j - 1); }
    }
  }

  lemma BitOfWord(a: nat, b: nat, j: nat)
    requires a < 256
    ensures Bit(a + 256 * b, j) == if j < 8 then Bit(a, j) else Bit(b, j - 8)
  {
    Pow2Values();
    BitOfSum(a, b, 8, j);
  }

  lemma LowBits(w: nat, k: nat, j: nat)
    requires j < k
    ensures Bit(w % Pow2(k), j) == Bit(w, j)
  {
    hide Pow2, Bit;
    var q, r := Divided(w, Pow2(k));
    BitOfSum(r, q, k, j);
  }

  lemma HighBitsOf(w: nat, j: nat)
    ensures Bit(w / 16, j) == Bit(w, j + 4)
  {
    Pow2Values();
    BitOfSum(w % 16, w / 16, 4, j + 4);
  }

  lemma EntryBits12(fat: seq<Byte>, c: nat, j: nat)
    requires Holds(FAT12, fat, c) && j < 12
    ensures (12 * c + j) / 8 < |fat| && Bit(Entry(FAT12, fat, c), j) == Bit(fat[(12 * c + j) / 8], (12 * c + j) % 8)
  {
    hide Bit;
    var o, h := c + c / 2, c / 2;
    var a: nat, b: nat := fat[o], fat[o + 1];
    var w := a + 256 * b;
    Pow2Values();
    if c % 2 == 1 {
      HighBitsOf(w, j);
      BitOfWord(a, b, j + 4);
      assert 12 * c + j == 8 * (3 * h + 1) + (j + 4) && o == 3 * h + 1;
    } else {
      LowBits(w, 12, j);
      BitOfWord(a, b, j);
      assert 12 * c + j == 8 * (3 * h) + j && o == 3 * h;
    }
  }

  lemma EntryBits16(fat: seq<Byte>, c: nat, j: nat)
    requires Holds(FAT16, fat, c) && j < 16
    ensures (16 * c + j) / 8 < |fat| && Bit(Entry(FAT16, fat, c), j) == Bit(fat[(16 * c + j) / 8], (16 * c + j) % 8)
  {
    hide Bit;
    BitOfWord(fat[2 * c], fat[2 * c + 1], j);
    assert 16 * c + j == 8 * (2 * c) + j;
  }

  lemma EntryBits32(fat: seq<Byte>, c: nat, j: nat)
    requires Holds(FAT32, fat, c) && j < 28
    ensures (32 * c + j) / 8 < |fat| && Bit(Entry(FAT32, fat, c), j) == Bit(fat[(32 * c + j) / 8], (32 * c + j) % 8)
  {
    hide Bit, Pow2;
    var o := 4 * c;
    var a: nat, b: nat, d: nat, e: nat := fat[o], fat[o + 1], fat[o + 2], fat[o + 3];
    var h := d + 256 * e;
    var w := a + 256 * (b + 256 * h);
    assert Pow2(28) == 0x1000_0000 by { Pow2Values(); assert Pow2(4) == 16; Pow2Add(24, 4); }
    LowBits(w, 28, j);
    BitOfWord(a, b + 256 * h, j);
    if j >= 8 { BitOfWord(b, h, j - 8); }
    if j >= 16 { BitOfWord(d, e, j - 16); }
    assert 32 * c + j == 8 * o + j;
  }

  /** Entry c is made of the 12, 16 or 28 bits of the table from bit 12c, 16c or 32c on, the low bits of each byte
      first. */
  lemma EntryBits(t: FsType, fat: seq<Byte>, c: nat, j: nat)
    requires Holds(t, fat, c) && j < (match t case FAT12 => 12 case FAT16 => 16 case FAT32 => 28)
    ensures var i := (match t case FAT12 => 12 * c case FAT16 => 16 * c case FAT32 => 32 * c) + j;
      i / 8 < |fat| && Bit(Entry(t, fat, c), j) == Bit(fat[i / 8], i % 8)
    ensures Entry(t, fat, c) < match t case FAT12 => 0x1000 case FAT16 => 0x1_0000 case FAT32 => 0x1000_0000
  {
    hide Bit;
    match t
    case FAT12 => EntryBits12(fat, c, j);
    case FAT16 => EntryBits16(fat, c, j);
    case FAT32 => EntryBits32(fat, c, j);
  }

  /** The table as numbers, entries 0 and 1 aside. */
  function Links(t: FsType, fat: seq<Byte>, n: nat): (l: seq<int>)
    requires n == 0 || Holds(t, fat, n - 1)
    ensures |l| == n
    ensures forall c :: 2 <= c < n ==> l[c] == Entry(t, fat, c)
  {
    seq(n, c requires 0 <= c < n => if c < 2 then 1 else Entry(t, fat, c))
  }

  lemma PutLinks(t: FsType, fat: seq<Byte>, n: nat, c: nat, v: nat)
    requires 2 <= c < n && Holds(t, fat, n - 1)
    ensures Links(t, PutEntry(t, fat, c, v), n) == Links(t, fat, n)[c := v % Range(t)]
  {
    PutGet(t, fat, c, v);
    var l, l' := Links(t, fat, n), Links(t, PutEntry(t, fat, c, v), n);
    forall d | 0 <= d < n
      ensures l'[d] == l[c := v % Range(t)][d]
    {
      if d >= 2 && d != c { PutOther(t, fat, c, v, d); }
    }
  }
}
