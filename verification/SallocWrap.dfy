/** Sizes so large that rounding them up wraps around. */
module SallocWrap {
  import opened SallocBlocks
  import opened SallocZones

  /** Sizes near 2^32 become 0 or 8, and no others do, but for 0. */
  lemma WrapsTo(size: nat)
    requires size < WORD
    ensures Need(size) == 0 <==> WORD - 15 <= size <= WORD - 8
    ensures Need(size) == 8 <==> WORD - 8 < size || size == 0
  {
    var s := size + HEADER;
    if s < WORD {
      assert s % WORD == s;
      if s > WORD - 8 { assert (s / 8 + 1) * 8 == WORD; }
    } else {
      assert s % WORD == s - WORD;
    }
  }

  /** For sizes that become 0, every free block is large enough. */
  lemma AllFit(l: seq<Block>, size: nat, i: int)
    requires Tiled(l) && WORD - 15 <= size <= WORD - 8
    ensures Fits(l, Need(size), i) <==> 0 < i < |l| - 1 && !l[i].taken
  {
    WrapsTo(size);
    if 0 < i < |l| - 1 { assert Placed(l, i); }
  }

  // What s_get_free_block writes when it takes the block at p and splits off what is behind need bytes,
  // up to where s_compact_free marks the rest.
  function SplitOff(m: Mem, p: nat, need: nat): Mem
    requires p + need < WORD
  {
    var temp := p + need;
    var m1 := m[p := WithFlag(At(m, p), true)];
    var next := Next(m1, p);
    var m2 := m1[temp + 4 := WithLink(At(m1, temp + 4), p)];
    var m3 := m2[temp := WithLink(At(m2, temp), next)];
    var m4 := m3[next + 4 := WithLink(At(m3, next + 4), temp)];
    var m5 := m4[p := WithLink(At(m4, p), temp)];
    m5[temp := WithFlag(At(m5, temp), false)]
  }

  // n rounds of the loop of s_compact_free that looks for a taken block before.
  function Walked(m: Mem, p: nat, n: nat): nat
    decreases n
  {
    if n == 0 || Taken(m, p) then p else Walked(m, Prev(m, p), n - 1)
  }

  /** Such a block of 16 bytes or more becomes its own neighbour: the loop never leaves it, and smalloc does
      not return. */
  lemma {:induction false} NeverReturns(m: Mem, p: nat, size: nat, n: nat)
    requires 0 < p < WORD && p % 8 == 0 && Next(m, p) != p && WORD - 15 <= size <= WORD - 8
    ensures var m' := SplitOff(m, p, Need(size));
      Walked(m', p, n) == p && !Taken(m', p)
    decreases n
  {
    WrapsTo(size);
    OwnNeighbour(m, p);
    if n > 0 { NeverReturns(m, p, size, n - 1); }
  }

  lemma OwnNeighbour(m: Mem, p: nat)
    requires 0 < p < WORD && p % 8 == 0 && Next(m, p) != p
    ensures Prev(SplitOff(m, p, 0), p) == p && !Taken(SplitOff(m, p, 0), p)
  {
    hide WithLink, WithFlag, Link, Flag;
    var m1 := m[p := WithFlag(At(m, p), true)];
    Packed(At(m, p), 0, true);
    Packed(At(m1, p + 4), p, true);
    var next := Next(m1, p);
    Multiple(At(m1, p));
    var m2 := m1[p + 4 := WithLink(At(m1, p + 4), p)];
    var m3 := m2[p := WithLink(At(m2, p), next)];
    var m4 := m3[next + 4 := WithLink(At(m3, next + 4), p)];
    var m5 := m4[p := WithLink(At(m4, p), p)];
    Packed(At(m5, p), 0, false);
  }

  lemma Multiple(w: Word)
    ensures Link(w) % 8 == 0 && Link(w) < WORD
  {
  }

  /** For the sizes behind those, smalloc gives away a block that is far too small. */
  lemma TinyGiven(l: seq<Block>, size: nat, i: nat)
    requires Tiled(l) && Compacted(l) && WORD - 8 < size < WORD && Fits(l, Need(size), i)
    ensures i + 1 < |Given(l, Need(size), i)| && Size(Given(l, Need(size), i), i) < 32 < size
  {
    WrapsTo(size);
    GivenTiled(l, 8, i);
  }
}
