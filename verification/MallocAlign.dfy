/** Aligned blocks: cutting an aligned chunk out of a larger one and giving back what is left. */
module MallocAlign {
  import opened Words
  import opened MallocSizes
  import opened MallocHeap
  import opened MallocGrow
  import opened MallocChoice

  // x & (x - 1) == 0, for x > 0
  predicate PowerOfTwo(x: nat) {
    x == 1 || (x > 1 && x % 2 == 0 && PowerOfTwo(x / 2))
  }

  lemma {:induction false} PowerIs(x: nat) returns (k: nat)
    requires PowerOfTwo(x)
    ensures x == Pow2(k)
  {
    if x == 1 {
      k := 0;
    } else {
      k := PowerIs(x / 2);
      k := k + 1;
    }
  }

  lemma {:induction false} IsPower(k: nat)
    ensures PowerOfTwo(Pow2(k))
  {
    if k > 0 {
      IsPower(k - 1);
      assert Pow2(k) / 2 == Pow2(k - 1);
    }
  }

  /** The rounding loop from 16 never gets to an alignment above 2^31: the word wraps to 0 first. */
  lemma {:induction false} NeverRounded(alignment: nat, k: nat)
    requires 0x8000_0000 < alignment < WORD
    ensures Shl(16, k) < alignment
  {
    Pow2Values();
    assert 16 == Pow2(4);
    Pow2Add(4, k);
    if k < 28 {
      Pow2Less(4 + k, 32);
      assert Pow2(4 + k) < WORD;
    } else {
      Pow2Add(32, k - 28);
      assert 32 + (k - 28) == 4 + k;
      Multiple(Pow2(k - 28));
    }
  }

  lemma Multiple(q: nat)
    ensures WORD * q % WORD == 0
  {
    Remainder(0, q, WORD);
  }

  // The rounding loop, from a on.
  function RoundFrom(a: nat, alignment: nat): nat
    requires a > 0
    decreases alignment - a
  {
    if a >= alignment then a else RoundFrom(2 * a, alignment)
  }

  // The alignment that is used: a power of two, not less than a minimal chunk.
  function RoundUp(alignment: nat): nat {
    var a := if alignment < MIN_CHUNK then MIN_CHUNK else alignment;
    if PowerOfTwo(a) then a else RoundFrom(MIN_CHUNK, a)
  }

  lemma {:induction false} RoundFromIs(k: nat, alignment: nat) returns (j: nat)
    requires 4 <= k <= 31 && alignment <= Pow2(31) && (k == 4 || Pow2(k - 1) < alignment)
    ensures k <= j <= 31 && RoundFrom(Pow2(k), alignment) == Pow2(j) >= alignment && (j == 4 || Pow2(j - 1) < alignment)
    decreases 31 - k
  {
    if Pow2(k) >= alignment {
      j := k;
    } else {
      j := RoundFromIs(k + 1, alignment);
    }
  }

  lemma RoundUpPower(alignment: nat) returns (j: nat)
    requires 8 < alignment <= 0x8000_0000
    ensures 4 <= j <= 31 && RoundUp(alignment) == Pow2(j) >= alignment && (j == 4 || Pow2(j - 1) < alignment)
  {
    hide Pow2, PowerOfTwo, RoundFrom;
    Pow2Values();
    var a := if alignment < MIN_CHUNK then MIN_CHUNK else alignment;
    IsPower(4);
    if PowerOfTwo(a) {
      j := PowerIs(a);
      if j < 4 { Pow2Less(j, 4); }
      if j > 4 {
        Pow2Less(4, j);
        Pow2Less(j - 1, j);
      }
      if j > 31 { Pow2Less(31, j); }
    } else {
      j := RoundFromIs(4, a);
    }
  }

  /** The alignment used is the least power of two that is large enough. */
  lemma RoundUpLeast(alignment: nat, k: nat)
    requires 8 < alignment <= 0x8000_0000
    ensures PowerOfTwo(RoundUp(alignment)) && MIN_CHUNK <= RoundUp(alignment) <= 0x8000_0000
    ensures RoundUp(alignment) % 8 == 0
    ensures alignment <= RoundUp(alignment) && (k >= 4 && Pow2(k) >= alignment ==> RoundUp(alignment) <= Pow2(k))
  {
    hide Pow2, PowerOfTwo, RoundUp;
    Pow2Values();
    var j := RoundUpPower(alignment);
    IsPower(j);
    if j < k { Pow2Less(j, k); }
    if k < j - 1 { Pow2Less(k, j - 1); }
    Pow2Add(3, j - 3);
    Remainder8(Pow2(j - 3));
    if j < 31 { Pow2Less(j, 31); }
    if 4 < j { Pow2Less(4, j); }
  }

  lemma Remainder8(q: nat)
    ensures 8 * q % 8 == 0
  {
  }

  // x & -alignment
  function RoundDown(x: nat, alignment: nat): nat
    requires alignment > 0
  {
    x / alignment * alignment
  }

  // How far behind chunk p the aligned chunk begins.
  function LeadSize(p: nat, alignment: nat): nat
    requires alignment >= 8
  {
    if (p + 8) % alignment == 0 then 0
    else
      var br := RoundDown(p + 8 + alignment - 1, alignment) - 8;
      if br >= p + MIN_CHUNK then br - p else if br + alignment >= p then br + alignment - p else 0
  }

  lemma NextMultiple(x: nat, a: nat)
    requires a > 0 && x % a != 0
    ensures var y := RoundDown(x + a - 1, a); y % a == 0 && x < y < x + a
  {
    var q, r := x / a, x % a;
    assert x == q * a + r;
    var y := RoundDown(x + a - 1, a);
    assert (q + 1) * a == q * a + a;
    Quotient(x + a - 1, q + 1, a);
    assert y == (q + 1) * a;
    Remainder(0, q + 1, a);
  }

  lemma NextAgain(y: nat, a: nat)
    requires a > 0 && y % a == 0
    ensures (y + a) % a == 0
  {
    var q := y / a;
    assert y == q * a;
    assert (q + 1) * a == q * a + a;
    Remainder(0, q + 1, a);
  }

  lemma EightDivides(y: nat, a: nat)
    requires a > 0 && a % 8 == 0 && y % a == 0
    ensures y % 8 == 0
  {
    var b, q := a / 8, y / a;
    assert y == q * a;
    assert q * a == (q * b) * 8;
  }

  predicate OnMultiple(x: nat, alignment: nat)
    requires alignment > 0
  {
    x % alignment == 0
  }

  /** The leading space makes a chunk of its own, and is not too large. */
  lemma LeadFits(p: nat, alignment: nat)
    requires p % 8 == 0 && alignment % 8 == 0 && alignment >= MIN_CHUNK
    ensures OnMultiple(p + LeadSize(p, alignment) + 8, alignment)
    ensures (LeadSize(p, alignment) == 0 <==> OnMultiple(p + 8, alignment))
    ensures LeadSize(p, alignment) % 8 == 0 && LeadSize(p, alignment) <= alignment + 8
    ensures LeadSize(p, alignment) == 0 || LeadSize(p, alignment) >= MIN_CHUNK
  {
    hide OnMultiple, LeadSize, RoundDown;
    LeadCases(p, alignment);
    if !OnMultiple(p + 8, alignment) {
      var y := RoundDown(p + 8 + alignment - 1, alignment);
      NextSpot(p, alignment, y);
      LeadBounds(p, alignment, y, LeadSize(p, alignment));
    }
  }

  lemma LeadCases(p: nat, alignment: nat)
    requires alignment >= MIN_CHUNK
    ensures OnMultiple(p + 8, alignment) ==> LeadSize(p, alignment) == 0
    ensures var y := RoundDown(p + 8 + alignment - 1, alignment);
      !OnMultiple(p + 8, alignment) && y > p + 8 ==> LeadSize(p, alignment) == if y >= p + 8 + MIN_CHUNK then y - 8 - p else y - 8 - p + alignment
  {
    hide RoundDown;
  }

  // The next aligned place, and the one after that.
  lemma NextSpot(p: nat, alignment: nat, y: nat)
    requires alignment % 8 == 0 && alignment >= MIN_CHUNK && !OnMultiple(p + 8, alignment)
    requires y == RoundDown(p + 8 + alignment - 1, alignment)
    ensures OnMultiple(y, alignment) && OnMultiple(y + alignment, alignment) && p + 8 < y < p + 8 + alignment
    ensures y % 8 == 0
  {
    hide RoundDown;
    NextMultiple(p + 8, alignment);
    NextAgain(y, alignment);
    EightDivides(y, alignment);
  }

  lemma LeadBounds(p: nat, alignment: nat, y: nat, lead: nat)
    requires p % 8 == 0 && alignment % 8 == 0 && alignment >= MIN_CHUNK && p + 8 < y < p + 8 + alignment && y % 8 == 0
    requires lead == if y >= p + 8 + MIN_CHUNK then y - 8 - p else y - 8 - p + alignment
    ensures lead % 8 == 0 && MIN_CHUNK <= lead <= alignment + 8 && (p + lead + 8 == y || p + lead + 8 == y + alignment)
  {
  }

  // The leading space as internal_memalign computes it.
  lemma LeadCode(p: nat, alignment: nat)
    requires p % 8 == 0 && alignment % 8 == 0 && alignment >= MIN_CHUNK
    ensures OnMultiple(p + 8, alignment) <==> LeadSize(p, alignment) == 0
    ensures var y := RoundDown(p + 8 + alignment - 1, alignment);
      !OnMultiple(p + 8, alignment) ==> y > p + 8 && LeadSize(p, alignment) == if y - 8 - p >= MIN_CHUNK then y - 8 - p else y - 8 + alignment - p
  {
    hide RoundDown, LeadSize, OnMultiple;
    LeadFits(p, alignment);
    LeadCases(p, alignment);
    if !OnMultiple(p + 8, alignment) { NextSpot(p, alignment, RoundDown(p + 8 + alignment - 1, alignment)); }
  }

  // The chunk at q is cut to nb when what is left over makes a chunk, and more.
  function Trimmed(h: Heap, q: nat, nb: nat): Heap {
    if q in h.heads && Next(h, q) in h.heads && Size(h, q) > nb + MIN_CHUNK then Cut(h, q, nb) else h
  }

  /** internal_memalign after the malloc: leader, block and trailer are cut apart, leader and trailer are given back. */
  function Aligned(h: Heap, p: nat, lead: nat, nb: nat): Heap {
    var h1 := if p in h.heads && Next(h, p) in h.heads && 0 < lead < Size(h, p) then Cut(h, p, lead) else h;
    var q := p + lead;
    var h2 := Trimmed(h1, q, nb);
    var h3 := if lead > 0 then Freed(h2, p) else h2;
    if Size(h1, q) > nb + MIN_CHUNK then Freed(h3, q + nb) else h3
  }

  // Chunk p is large enough for an aligned chunk behind a leader.
  ghost predicate Aligns(h: Heap, p: nat, lead: nat, nb: nat) {
    && Sound(h) && p in Live(h) && Request(nb) && lead % 8 == 0 && (lead == 0 || lead >= MIN_CHUNK)
    && lead + nb + 8 <= Live(h)[p]
  }

  lemma InUseThere(h: Heap, p: nat)
    requires Sound(h) && p in Live(h)
    ensures p in h.at && Cinuse(h, p) && p in h.heads && Next(h, p) in h.heads && Live(h)[p] == Size(h, p)
    ensures Size(h, p) % 8 == 0
    ensures p % 8 == 0 && p > 0 && p + Size(h, p) < WORD && Size(h, p) >= MIN_CHUNK
  {
    hide Apart, Segmented;
    PlacesOf(h);
    ChunkAt(h, p);
  }

  // After the leader has been cut off.
  lemma LeaderOff(h: Heap, p: nat, lead: nat, nb: nat)
    requires Aligns(h, p, lead, nb) && lead > 0
    ensures p in h.heads && Next(h, p) in h.heads && 0 < lead < Size(h, p)
    ensures var h1 := Cut(h, p, lead);
      Sound(h1) && Live(h1) == Live(h)[p := lead][p + lead := Live(h)[p] - lead] && p + lead !in Live(h)
  {
    hide Sound, ChunkOK, Cut;
    InUseThere(h, p);
    CutSound(h, p, lead);
    NotInside(h, p, lead);
  }

  lemma NotInside(h: Heap, p: nat, d: nat)
    requires Sound(h) && p in Live(h) && 0 < d < Live(h)[p]
    ensures p + d !in Live(h) && p + d != p
  {
    Inside(h, p, p + d);
  }

  // The aligned chunk keeps nb bytes, or all it has.
  lemma TrimmedSound(h: Heap, q: nat, nb: nat)
    requires Sound(h) && q in Live(h) && Request(nb) && nb <= Live(h)[q]
    ensures Sound(Trimmed(h, q, nb)) && q in h.heads && Next(h, q) in h.heads && Size(h, q) == Live(h)[q]
    ensures Live(h)[q] % 8 == 0
    ensures Size(h, q) > nb + MIN_CHUNK ==>
      Live(Trimmed(h, q, nb)) == Live(h)[q := nb][q + nb := Live(h)[q] - nb] && q + nb !in Live(h)
    ensures Size(h, q) <= nb + MIN_CHUNK ==> Trimmed(h, q, nb) == h
  {
    hide Sound, ChunkOK, Cut;
    InUseThere(h, q);
    if Size(h, q) > nb + MIN_CHUNK {
      CutSound(h, q, nb);
      NotInside(h, q, nb);
    }
  }

  // Of the block at p, only the one at q is left, with nb bytes or a few more.
  ghost predicate AlignedBlock(h: Heap, h': Heap, p: nat, q: nat, nb: nat) {
    && Sound(h') && q in Live(h') && nb <= Live(h')[q] <= nb + MIN_CHUNK
    && Live(h') == (Live(h) - {p})[q := Live(h')[q]]
    && (q == p || q !in Live(h))
  }

  /** Exactly the aligned block stays of the chunk; nobody else notices. */
  lemma AlignedSound(h: Heap, p: nat, lead: nat, nb: nat)
    requires Aligns(h, p, lead, nb)
    ensures AlignedBlock(h, Aligned(h, p, lead, nb), p, p + lead, nb)
  {
    hide Sound, ChunkOK, Cut, Freed, Live, Trimmed;
    InUseThere(h, p);
    var q := p + lead;
    var h1 := if lead > 0 then Cut(h, p, lead) else h;
    if lead > 0 { LeaderOff(h, p, lead, nb); }
    var z := Live(h)[p] - lead;
    assert q in Live(h1) && Live(h1)[q] == z && Sound(h1);
    TrimmedSound(h1, q, nb);
    var h2 := Trimmed(h1, q, nb);
    var y := if z > nb + MIN_CHUNK then nb else z;
    assert Live(h2)[q] == y && q in Live(h2) && (lead > 0 ==> p in Live(h2))
      && (z > nb + MIN_CHUNK ==> q + nb in Live(h2));
    if lead > 0 { FreedSound(h2, p); }
    var h3 := if lead > 0 then Freed(h2, p) else h2;
    if z > nb + MIN_CHUNK { FreedSound(h3, q + nb); }
    var h4 := Aligned(h, p, lead, nb);
    assert Live(h4) == (Live(h) - {p})[q := y];
  }

  // The steps of internal_memalign, one by one.
  ghost predicate Steps(h: Heap, p: nat, lead: nat, nb: nat) {
    var q := p + lead;
    && p in h.heads && Next(h, p) in h.heads && Size(h, p) > lead
    && var h1 := if lead > 0 then Cut(h, p, lead) else h;
      && q in h1.heads && Next(h1, q) in h1.heads && nb <= Size(h1, q) && Size(h1, q) > 0
      && var h2 := if Size(h1, q) > nb + MIN_CHUNK then Cut(h1, q, nb) else h1;
        && (lead > 0 ==> p in Live(h2)) && Sound(h2)
        && var h3 := if lead > 0 then Freed(h2, p) else h2;
          && (Size(h1, q) > nb + MIN_CHUNK ==> q + nb in Live(h3)) && Sound(h3)
          && Aligned(h, p, lead, nb) == if Size(h1, q) > nb + MIN_CHUNK then Freed(h3, q + nb) else h3
  }

  lemma AlignedSteps(h: Heap, p: nat, lead: nat, nb: nat)
    requires Aligns(h, p, lead, nb)
    ensures Steps(h, p, lead, nb)
  {
    hide Sound, ChunkOK, Cut, Freed, Live;
    InUseThere(h, p);
    var q := p + lead;
    var h1 := if lead > 0 then Cut(h, p, lead) else h;
    if lead > 0 { LeaderOff(h, p, lead, nb); }
    assert q in Live(h1) && Live(h1)[q] == Live(h)[p] - lead && Sound(h1);
    TrimmedSound(h1, q, nb);
    var h2 := Trimmed(h1, q, nb);
    assert lead > 0 ==> p in Live(h2);
    assert Size(h1, q) > nb + MIN_CHUNK ==> q + nb in Live(h2);
    if lead > 0 { FreedSound(h2, p); }
  }

  // mem is the aligned block cut out of the block m1 of the heap h1.
  ghost predicate AlignedFrom(h1: Heap, m1: nat, h': Heap, alignment: nat, nb: nat, mem: nat) {
    && m1 >= 8 && RoundUp(alignment) >= MIN_CHUNK
    && h' == Aligned(h1, m1 - 8, LeadSize(m1 - 8, RoundUp(alignment)), nb)
    && mem == m1 + LeadSize(m1 - 8, RoundUp(alignment))
  }
}
