/** Which chunk a request gets, and where free chunks are filed. */
module MallocChoice {
  import opened MallocSizes
  import opened MallocHeap
  import opened MallocGrow
  import opened MallocSegment
  import S = MallocSmall
  import T = MallocTrie
  import F = MallocForest
  import B = MallocFit

  // ----- where free chunks are filed

  /** The chunks in bins are exactly the free ones, each in the bin of its size. */
  ghost predicate Filed(free: map<nat, nat>, s: S.Smalls, f: F.Forest) {
    && S.Valid(s) && F.Valid(f)
    && (forall a: nat, z: nat :: S.Holds(s, a, z) <==> InBins(free, a, z) && z < MIN_LARGE)
    && (forall a: nat, z: nat :: F.Holds(f, a, z) <==> InBins(free, a, z) && z >= MIN_LARGE)
  }

  ghost predicate InBins(free: map<nat, nat>, a: nat, z: nat) {
    a in free && free[a] == z
  }

  lemma FiledValid(free: map<nat, nat>, s: S.Smalls, f: F.Forest)
    requires Filed(free, s, f)
    ensures S.Valid(s) && F.Valid(f)
  {
  }

  lemma SmallHeld(s: S.Smalls, a: nat) returns (z: nat)
    requires S.Valid(s) && S.IsMember(s, a)
    ensures S.Holds(s, a, z)
  {
    var i :| 0 <= i < |s.lists| && a in s.lists[i];
    z := 8 * i;
  }

  lemma LargeHeld(f: F.Forest, a: nat) returns (z: nat)
    requires F.IsMember(f, a)
    ensures F.Holds(f, a, z)
  {
    var i :| 0 <= i < |f.shapes| && a in T.Members(f.shapes[i]);
    z := T.MemberHas(f.shapes[i], a);
  }

  lemma NotFiled(free: map<nat, nat>, s: S.Smalls, f: F.Forest, a: nat)
    requires Filed(free, s, f) && a !in free
    ensures !S.IsMember(s, a) && !F.IsMember(f, a)
  {
    if S.IsMember(s, a) { var z := SmallHeld(s, a); }
    if F.IsMember(f, a) { var z := LargeHeld(f, a); }
  }

  lemma FiledMore(free: map<nat, nat>, s: S.Smalls, f: F.Forest, free': map<nat, nat>, s': S.Smalls, f': F.Forest,
          p: nat, z: nat)
    requires Filed(free, s, f) && p !in free && free' == free[p := z] && S.Valid(s') && F.Valid(f')
    requires forall a: nat, y: nat :: S.Holds(s', a, y) <==> S.Holds(s, a, y) || (z < MIN_LARGE && a == p && y == z)
    requires forall a: nat, y: nat :: F.Holds(f', a, y) <==> F.Holds(f, a, y) || (z >= MIN_LARGE && a == p && y == z)
    ensures Filed(free', s', f')
  {
    hide S.Valid, F.Valid, S.Holds, F.Holds;
  }

  lemma FiledLess(free: map<nat, nat>, s: S.Smalls, f: F.Forest, free': map<nat, nat>, s': S.Smalls, f': F.Forest,
          p: nat)
    requires Filed(free, s, f) && p in free && free' == free - {p} && S.Valid(s') && F.Valid(f')
    requires if free[p] < MIN_LARGE then f' == f && forall a: nat, y: nat :: S.Holds(s', a, y) <==> S.Holds(s, a, y) && a != p
             else s' == s && forall a: nat, y: nat :: F.Holds(f', a, y) <==> F.Holds(f, a, y) && a != p
    ensures Filed(free', s', f')
  {
    hide S.Valid, F.Valid, S.Holds, F.Holds;
  }

  // ----- which chunk a request gets

  // A chunk in a bin that is preferred to dv: for small requests one in a small bin without a remainder, for
  // large ones a better fit.
  ghost predicate Preferred(h: Heap, nb: nat, a: nat) {
    && a in h.free && nb <= h.free[a]
    && (h.dvsize < nb || if nb < MIN_LARGE then h.free[a] <= nb + 8 && h.free[a] < MIN_LARGE else h.free[a] < h.dvsize)
  }

  // No chunk in a bin is a better fit.
  ghost predicate Tightest(h: Heap, nb: nat, p: nat) {
    && p in h.free && nb <= h.free[p] && (forall a :: a in h.free && nb <= h.free[a] ==> h.free[p] <= h.free[a])
  }

  /** The strategy: the best fit in the bins if it is preferred, then dv, then top; 0 when there is no room for nb. */
  ghost predicate Chosen(h: Heap, nb: nat, p: nat) {
    if exists a :: Preferred(h, nb, a) then Tightest(h, nb, p)
    else if nb <= h.dvsize then p == h.dv
    else if nb < h.topsize then p == h.top
    else p == 0
  }

  // What is left over is split off when it makes a chunk.
  function Carved(h: Heap, p: nat, nb: nat, toDv: bool): Heap {
    if p !in h.heads || Next(h, p) !in h.heads then h
    else if Size(h, p) < nb + MIN_CHUNK then Taken(h, p)
    else Split(h, p, nb, toDv)
  }

  /** The heap when chunk p is given away for nb. */
  function Given(h: Heap, nb: nat, p: nat): Heap {
    if p == h.top && nb < h.topsize then SplitTop(h, nb)
    else Carved(h, p, nb, p == h.dv || nb < MIN_LARGE)
  }

  ghost predicate Request(nb: nat) {
    nb % 8 == 0 && MIN_CHUNK <= nb < WORD
  }

  // A free chunk in a bin.
  lemma InBin(h: Heap, p: nat)
    requires Sound(h) && p in h.free
    ensures p in h.at && !Cinuse(h, p) && p != h.dv && p != h.top && Size(h, p) == h.free[p] && Next(h, p) in h.heads
    ensures p in h.heads
    ensures h.free[p] >= MIN_CHUNK && h.free[p] % 8 == 0 && p > 0 && p % 8 == 0 && p + h.free[p] < WORD
  {
    hide Apart, Segmented;
    PlacesOf(h);
    ChunkAt(h, p);
  }

  lemma DvThere(h: Heap)
    requires Sound(h) && h.dv != 0
    ensures h.dv in h.at && h.dv in h.heads && !Cinuse(h, h.dv) && h.dv != h.top && Size(h, h.dv) == h.dvsize
    ensures Next(h, h.dv) in h.heads
    ensures h.dvsize >= MIN_CHUNK && h.dvsize % 8 == 0 && h.dv !in h.free && h.dv % 8 == 0 && h.dv + h.dvsize < WORD
  {
    hide Apart, Segmented;
    PlacesOf(h);
    ChunkAt(h, h.dv);
  }

  // The new block: nb bytes or a little more, at a chunk that was free.
  ghost predicate Gives(h: Heap, h': Heap, nb: nat, p: nat) {
    && Sound(h') && p in h.at && !Cinuse(h, p) && p % 8 == 0 && p > 0
    && p in Live(h') && nb <= Live(h')[p] < nb + MIN_CHUNK && Live(h') == Live(h)[p := Live(h')[p]]
  }

  lemma CarvedGives(h: Heap, nb: nat, p: nat, toDv: bool)
    requires Sound(h) && Request(nb) && p in h.at && !Cinuse(h, p) && p != h.top && nb <= Size(h, p)
    requires (p == h.dv ==> toDv)
    ensures Gives(h, Carved(h, p, nb, toDv), nb, p)
  {
    hide Taken, Split, Sound;
    NotTop(h, p);
    TakenSound(h, p);
    assert Size(h, p) % 8 == 0 by { ChunkAt(h, p); }
    if Size(h, p) >= nb + MIN_CHUNK { SplitSound(h, p, nb, toDv); }
  }

  lemma TopGives(h: Heap, nb: nat)
    requires Sound(h) && Request(nb) && nb < h.topsize
    ensures Gives(h, SplitTop(h, nb), nb, h.top)
  {
    hide ChunkOK, Apart, Segmented;
    PlacesOf(h);
    TopThere(h);
    TopSplitSound(h, nb);
  }

  /** Whatever chunk is chosen, giving it away keeps the invariant and adds exactly one block that is large enough. */
  lemma GivenSound(h: Heap, nb: nat, p: nat)
    requires Sound(h) && Request(nb) && Chosen(h, nb, p) && p != 0
    ensures Gives(h, Given(h, nb, p), nb, p)
  {
    hide Gives, Sound, ChunkOK;
    PlacesOf(h);
    if exists a :: Preferred(h, nb, a) {
      InBin(h, p);
      CarvedGives(h, nb, p, nb < MIN_LARGE);
    } else if nb <= h.dvsize {
      DvThere(h);
      CarvedGives(h, nb, p, true);
    } else {
      TopGives(h, nb);
    }
  }

  /** A free chunk that fits is always found. */
  lemma RoomFound(h: Heap, nb: nat, p: nat)
    requires Sound(h) && Request(nb) && Chosen(h, nb, p)
    ensures p == 0 <==> (forall a :: a in h.free ==> h.free[a] < nb) && h.dvsize < nb && h.topsize <= nb
  {
    hide Sound, ChunkOK;
    PlacesOf(h);
    if p == 0 {
      forall a | a in h.free
        ensures h.free[a] < nb
      {
        assert !Preferred(h, nb, a);
      }
    } else if exists a :: Preferred(h, nb, a) {
      assert p in h.free && h.free[p] >= nb;
    }
  }

  /** Which chunk is given away: for at least 256 bytes the smallest that fits, dv when it is no larger than the
      others; for fewer, first one that leaves no remainder, then dv, then the smallest that fits; top comes last. */
  lemma StrategyExactly(h: Heap, nb: nat, p: nat)
    requires Sound(h) && Request(nb) && Chosen(h, nb, p) && p != 0
    ensures p == h.top <==> h.dvsize < nb && forall a :: a in h.free ==> h.free[a] < nb
    ensures p != h.top ==> p in h.heads && nb <= Size(h, p)
    ensures nb >= 256 && p != h.top ==> forall a :: a in h.free && nb <= h.free[a] ==> Size(h, p) <= h.free[a]
    ensures nb >= 256 && p != h.top && nb <= h.dvsize ==> Size(h, p) <= h.dvsize && (Size(h, p) == h.dvsize ==> p == h.dv)
    ensures nb < 256 && p != h.top ==>
      if exists a :: a in h.free && nb <= h.free[a] <= nb + 8 && h.free[a] < 256 then
        p in h.free && forall a :: a in h.free && nb <= h.free[a] ==> h.free[p] <= h.free[a]
      else if nb <= h.dvsize then p == h.dv
      else p in h.free && forall a :: a in h.free && nb <= h.free[a] ==> h.free[p] <= h.free[a]
  {
    hide Sound, ChunkOK;
    PlacesOf(h);
    if exists a :: Preferred(h, nb, a) {
      InBin(h, p);
    } else {
      forall a | a in h.free && nb <= h.free[a]
        ensures nb <= h.dvsize && if nb < 256 then h.free[a] > nb + 8 || h.free[a] >= 256 else h.dvsize <= h.free[a]
      {
        assert !Preferred(h, nb, a);
      }
      if nb <= h.dvsize { DvThere(h); }
    }
    if exists a :: a in h.free && nb <= h.free[a] <= nb + 8 && h.free[a] < 256 {
      var a :| a in h.free && nb <= h.free[a] <= nb + 8 && h.free[a] < 256;
      assert nb < 256 ==> Preferred(h, nb, a);
    }
  }

  /** What is left of the chunk, if it is enough for one, is the new dv for fewer than 256 bytes and when dv was split,
      else it goes to a bin. */
  lemma RestKept(h: Heap, nb: nat, p: nat)
    requires Sound(h) && Request(nb) && Chosen(h, nb, p) && p != 0 && p != h.top
    ensures p in h.heads
    ensures var h', r := Given(h, nb, p), p + nb;
      if Size(h, p) < nb + MIN_CHUNK then h'.dv == (if p == h.dv then 0 else h.dv)
      else if nb < 256 || p == h.dv then h'.dv == r && h'.dvsize == Size(h, p) - nb
      else r in h'.free && h'.free[r] == Size(h, p) - nb && h'.dv == h.dv && h'.dvsize == h.dvsize
  {
    hide Sound, ChunkOK;
    PlacesOf(h);
    if exists a :: Preferred(h, nb, a) {
      InBin(h, p);
    } else if nb <= h.dvsize {
      DvThere(h);
    }
  }

  // ----- new memory

  // The segment that fresh memory comes before, if any.
  ghost predicate Continues(h: Heap, g: Segment, i: nat) {
    i < |h.segs| && h.segs[i].base == g.base + g.size
  }

  ghost predicate Behind(h: Heap, g: Segment) {
    h.segs != [] && g.base == h.segs[0].base + h.segs[0].size
  }

  datatype Offer = None | Some(seg: Segment)

  /** Memory that nobody has, enough for a segment unless it is put behind top, and enough for nb
      when it is put before another segment. */
  ghost predicate Offered(h: Heap, nb: nat, offer: Offer) {
    offer.Some? ==>
      if h.top != 0 && Behind(h, offer.seg) then Unused(h, offer.seg.base, offer.seg.size)
      else
        && Fresh(h, offer.seg.base, offer.seg.size)
        && forall i: nat :: Continues(h, offer.seg, i) ==> nb + MIN_CHUNK <= offer.seg.size
  }

  /** The heap with new memory in top. */
  function Extended(h: Heap, g: Segment): Heap {
    if h.top != 0 && h.segs != [] && g.base == h.segs[0].base + h.segs[0].size then Appended(h, g.size)
    else if g.size <= TOP_FOOT then h
    else if h.top == 0 then Started(h, g.base, g.size)
    else Added(h, g.base, g.size)
  }

  lemma EmptyBefore(h: Heap)
    requires Sound(h) && h.top == 0
    ensures h.free == map[] && h.segs == [] && h.dv == 0 && Live(h) == map[] && h.topsize == 0
  {
    assert forall p :: p !in h.free;
  }

  lemma ExtendedSound(h: Heap, g: Segment)
    requires Sound(h) && if h.top != 0 && Behind(h, g) then Unused(h, g.base, g.size) else Fresh(h, g.base, g.size)
    ensures Sound(Extended(h, g)) && Live(Extended(h, g)) == Live(h)
  {
    hide Sound, ChunkOK, Started, Appended, Added, Apart, Places, Live, Unused;
    if h.top == 0 {
      EmptyBefore(h);
      StartedSound(h, g.base, g.size);
    } else {
      TopThere(h);
      if g.base == h.segs[0].base + h.segs[0].size { AppendSound(h, g.size); } else { AddedSound(h, g.base, g.size); }
    }
  }

  /** The heap when fresh memory before a segment is used up to nb. */
  function Fronted(h: Heap, g: Segment, nb: nat, i: nat): Heap
    requires i < |h.segs| && nb < g.size && g.base + g.size in h.heads
  {
    Freed(Cut(Prepended(h, g.base, g.size, i), g.base, nb), g.base + nb)
  }

  lemma FrontedGives(h: Heap, g: Segment, nb: nat, i: nat)
    requires Sound(h) && Fresh(h, g.base, g.size) && Continues(h, g, i) && Request(nb) && nb + MIN_CHUNK <= g.size
    ensures g.base + g.size in h.heads && Sound(Fronted(h, g, nb, i))
    ensures Live(Fronted(h, g, nb, i)) == Live(h)[g.base := nb]
    ensures g.base !in Live(h)
  {
    hide Sound, ChunkOK, Apart, Places, Segmented, Prepended, Cut, Freed;
    FirstChunk(h, i);
    PrependSound(h, g.base, g.size, i);
    var h1 := Prepended(h, g.base, g.size, i);
    PrependedHead(h, g, i);
    CutSound(h1, g.base, nb);
    var h2 := Cut(h1, g.base, nb);
    FreedSound(h2, g.base + nb);
    FreshNotLive(h, g.base, g.size, g.base + nb);
    FreshNotLive(h, g.base, g.size, g.base);
    assert Live(h)[g.base := g.size][g.base := nb][g.base + nb := g.size - nb] - {g.base + nb} == Live(h)[g.base := nb];
  }

  lemma PrependedHead(h: Heap, g: Segment, i: nat)
    requires i < |h.segs|
    ensures Prepended(h, g.base, g.size, i).heads == h.heads[g.base := Head(g.size, true, true)]
  {
  }

  lemma FreshNotLive(h: Heap, base: nat, size: nat, a: nat)
    requires Sound(h) && Fresh(h, base, size) && base <= a < base + size
    ensures a !in Live(h)
  {
    hide ChunkOK, Apart, Places, Segmented;
    FreshApart(h, base, size);
    if a in h.at { NextApart(h, a); }
  }

  /** What sys_alloc does with memory from the system. */
  ghost predicate SystemAnswer(h: Heap, h': Heap, nb: nat, offer: Offer, mem: nat) {
    if offer.None? then mem == 0 && h' == h
    else if h.top != 0 && !Behind(h, offer.seg) && exists i: nat :: Continues(h, offer.seg, i) then
      mem == offer.seg.base + 8 && exists i: nat :: Continues(h, offer.seg, i) && Fronts(h, h', offer.seg, nb, i)
    else if nb < Extended(h, offer.seg).topsize then
      mem == Extended(h, offer.seg).top + 8 && h' == SplitTop(Extended(h, offer.seg), nb)
    else mem == 0 && h' == Extended(h, offer.seg)
  }

  ghost predicate Fronts(h: Heap, h': Heap, g: Segment, nb: nat, i: nat) {
    i < |h.segs| && nb < g.size && g.base + g.size in h.heads && h' == Fronted(h, g, nb, i)
  }

  /** What dlmalloc does: memory of the system is used only when there is no room. */
  ghost predicate Answered(h: Heap, h': Heap, nb: nat, offer: Offer, mem: nat) {
    if Chosen(h, nb, 0) then SystemAnswer(h, h', nb, offer, mem)
    else mem >= 8 && Chosen(h, nb, mem - 8) && h' == Given(h, nb, mem - 8)
  }

  // mem is a new block of at least nb bytes with its head, apart from all others.
  ghost predicate NewBlock(h: Heap, h': Heap, nb: nat, mem: nat) {
    && mem > 8 && mem % 8 == 0 && mem - 8 !in Live(h) && mem - 8 in Live(h')
    && nb <= Live(h')[mem - 8] < nb + MIN_CHUNK && Live(h') == Live(h)[mem - 8 := Live(h')[mem - 8]]
  }

  lemma NewFrom(h: Heap, h': Heap, nb: nat, p: nat)
    requires Gives(h, h', nb, p)
    ensures NewBlock(h, h', nb, p + 8)
  {
  }

  lemma SystemSound(h: Heap, h': Heap, nb: nat, offer: Offer, mem: nat)
    requires Sound(h) && (Request(nb) || nb == WORD - 1) && Offered(h, nb, offer) && SystemAnswer(h, h', nb, offer, mem)
    ensures Sound(h') && if mem == 0 then Live(h') == Live(h) else NewBlock(h, h', nb, mem)
  {
    hide Sound, Extended, ChunkOK, Fronted, Live, Gives;
    if offer.Some? {
      var g := offer.seg;
      if h.top != 0 && !Behind(h, g) && exists i: nat :: Continues(h, g, i) {
        var i: nat :| Continues(h, g, i) && Fronts(h, h', g, nb, i);
        FrontedGives(h, g, nb, i);
      } else {
        ExtendedSound(h, g);
        var e := Extended(h, g);
        TopBelow(e);
        if nb < e.topsize {
          TopGives(e, nb);
          NewFrom(e, h', nb, e.top);
          TopGivesSound(e, nb);
        }
      }
    }
  }

  lemma TopGivesSound(h: Heap, nb: nat)
    requires nb < h.topsize && Gives(h, SplitTop(h, nb), nb, h.top)
    ensures Sound(SplitTop(h, nb))
  {
  }

  lemma TopBelow(h: Heap)
    requires Sound(h)
    ensures h.topsize < WORD && h.topsize % 8 == 0
  {
    hide Apart;
    PlacesOf(h);
    if h.top != 0 {
      TopThere(h);
      ChunkAt(h, h.top);
    }
  }

  // Nothing is large enough for a request that is too big.
  lemma TooBig(h: Heap)
    requires Sound(h)
    ensures Chosen(h, WORD - 1, 0)
  {
    hide Sound;
    DvSize(h);
    TopBelow(h);
    forall a | a in h.free
      ensures h.free[a] < WORD - 1
    {
      InBin(h, a);
    }
  }

  lemma DvSize(h: Heap)
    requires Sound(h)
    ensures h.dvsize < WORD - 1 && (h.dvsize != 0 ==> h.dv != 0 && h.dv !in h.free && h.dvsize % 8 == 0)
  {
    hide ChunkOK;
    PlacesOf(h);
    if h.dv != 0 { DvThere(h); }
  }

  /** Whatever dlmalloc does keeps the invariant, and adds exactly the block it returns. */
  lemma AnsweredSound(h: Heap, h': Heap, nb: nat, offer: Offer, mem: nat)
    requires Sound(h) && (Request(nb) || nb == WORD - 1) && (Chosen(h, nb, 0) ==> Offered(h, nb, offer))
    requires Answered(h, h', nb, offer, mem)
    ensures Sound(h') && if mem == 0 then Live(h') == Live(h) else NewBlock(h, h', nb, mem)
    ensures nb == WORD - 1 ==> mem == 0
    ensures mem == 0 && offer.None? ==>
      (forall a :: a in h.free ==> h.free[a] < nb) && h.dvsize < nb && h.topsize <= nb && h' == h
  {
    hide Sound, Given, Chosen, Gives, SystemAnswer, Live, NewBlock;
    TooBig(h);
    if Chosen(h, nb, 0) {
      if Request(nb) { RoomFound(h, nb, 0); }
      TopBelow(h);
      SystemSound(h, h', nb, offer, mem);
      TooBigNot(h, h', nb, offer, mem);
    } else {
      var p := mem - 8;
      ChosenNot(h, nb, p);
      GivenSound(h, nb, p);
      NewFrom(h, h', nb, p);
      GivesSound(h, h', nb, p);
    }
  }

  lemma GivesSound(h: Heap, h': Heap, nb: nat, p: nat)
    requires Gives(h, h', nb, p)
    ensures Sound(h')
  {
  }

  lemma ChosenNot(h: Heap, nb: nat, p: nat)
    requires Chosen(h, nb, p) && !Chosen(h, nb, 0)
    ensures p != 0
  {
  }

  lemma TooBigNot(h: Heap, h': Heap, nb: nat, offer: Offer, mem: nat)
    requires Sound(h) && Offered(h, nb, offer) && SystemAnswer(h, h', nb, offer, mem)
    ensures nb == WORD - 1 ==> mem == 0
    ensures offer.None? ==> h' == h
    ensures offer.None? && nb == WORD - 1 ==>
      (forall a :: a in h.free ==> h.free[a] < nb) && h.dvsize < nb && h.topsize <= nb
  {
    hide Sound, Extended, ChunkOK, Fronted, Live;
    if offer.Some? {
      ExtendedSound(h, offer.seg);
      TopBelow(Extended(h, offer.seg));
    }
    TopBelow(h);
    DvSize(h);
    forall a | a in h.free
      ensures h.free[a] < WORD - 1
    {
      InBin(h, a);
    }
  }
}
