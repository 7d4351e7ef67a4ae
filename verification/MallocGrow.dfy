/** Changes to chunks in use, and new memory from the system. */
module MallocGrow {
  import opened MallocSizes
  import opened MallocHeap

  // ----- cutting a chunk in use in two

  // set_inuse of the front of p and of its rest.
  function Cut(h: Heap, p: nat, nb: nat): Heap
    requires p in h.heads && nb < Size(h, p) && Next(h, p) in h.heads
  {
    var r, n := p + nb, Next(h, p);
    h.(heads := h.heads[p := Head(nb, Pinuse(h, p), true)][r := Head(n - r, true, true)][n := h.heads[n].(pinuse := true)],
       at := h.at + {r})
  }

  ghost predicate Cuts(h: Heap, p: nat, nb: nat) {
    && Sound(h) && p in Live(h) && nb % 8 == 0 && nb >= MIN_CHUNK && nb + MIN_CHUNK <= Size(h, p)
  }

  // The two parts, ...
  lemma CutFirst(h: Heap, p: nat, nb: nat)
    requires Cuts(h, p, nb)
    ensures p in h.heads && Next(h, p) in h.heads && ChunkOK(Cut(h, p, nb), p)
  {
    hide Apart, Segmented, Owned, Sound, Places;
    ChunkAt(h, p);
    NotTopInUse(h, p);
    NextApart(h, p);
    Inside(h, p, p + nb);
    OwnedPart(h.segs, p, Next(h, p) + 8, p, p + nb + 8);
    PlacesOf(h);
    if !Pinuse(h, p) { Before(h, p); }
  }

  lemma CutSecond(h: Heap, p: nat, nb: nat)
    requires Cuts(h, p, nb)
    ensures p in h.heads && Next(h, p) in h.heads && ChunkOK(Cut(h, p, nb), p + nb)
  {
    hide Apart, Segmented, Owned, Sound, Places;
    ChunkAt(h, p);
    NotTopInUse(h, p);
    NextApart(h, p);
    Inside(h, p, p + nb);
    OwnedPart(h.segs, p, Next(h, p) + 8, p + nb, Next(h, p) + 8);
    PlacesOf(h);
  }

  // ... and the others.
  lemma CutOther(h: Heap, p: nat, nb: nat, q: nat)
    requires Cuts(h, p, nb) && p in h.heads && Next(h, p) in h.heads && q in h.at && q != p
    ensures ChunkOK(Cut(h, p, nb), q)
  {
    hide Apart, Segmented, Owned, Sound, Places, ChunkOK, Cut;
    var h' := Cut(h, p, nb);
    CutAt(h, p, nb);
    NotTopInUse(h, p);
    Inside(h, p, p + nb);
    CutHead(h, p, nb, q);
    if q == h.top {
      TopThere(h);
      CutHead(h, p, nb, Next(h, q));
      CutTop(h, p, nb);
    } else {
      ChunkNext(h, q);
      CutHead(h, p, nb, Next(h, q));
      if !Pinuse(h, q) {
        Before(h, q);
        CutHead(h, p, nb, q - Foot(h, q));
      }
      ChunkAlike(h, h', q);
    }
  }

  // A head word other than that of the rest.
  lemma CutHead(h: Heap, p: nat, nb: nat, x: nat)
    requires Cuts(h, p, nb) && p in h.heads && Next(h, p) in h.heads && x != p + nb
    ensures var h' := Cut(h, p, nb);
      && (x in h'.heads <==> x in h.heads) && Pinuse(h', x) == Pinuse(h, x) && Cinuse(h', x) == Cinuse(h, x)
      && (x != p ==> Size(h', x) == Size(h, x))
  {
    hide Apart, Segmented, Places, Owned;
    ChunkAt(h, p);
  }

  lemma CutTop(h: Heap, p: nat, nb: nat)
    requires Cuts(h, p, nb) && p in h.heads && Next(h, p) in h.heads && h.top in h.at && h.top != p
    requires var h' := Cut(h, p, nb);
      && h.top in h'.heads && Size(h', h.top) == Size(h, h.top) && Cinuse(h', h.top) == Cinuse(h, h.top)
      && Pinuse(h', h.top) == Pinuse(h, h.top) && Next(h, h.top) in h'.heads
      && Pinuse(h', Next(h, h.top)) == Pinuse(h, Next(h, h.top))
    requires Pinuse(h, h.top) && !Cinuse(h, h.top)
    ensures ChunkOK(Cut(h, p, nb), h.top)
  {
    hide Apart, Segmented, Places, Owned, Cut, Sound;
    CutAt(h, p, nb);
    ChunkAt(h, h.top);
  }

  /** A chunk in use becomes two. */
  lemma CutSound(h: Heap, p: nat, nb: nat)
    requires Cuts(h, p, nb)
    ensures p in h.heads && Next(h, p) in h.heads && Sound(Cut(h, p, nb))
    ensures Live(Cut(h, p, nb)) == Live(h)[p := nb][p + nb := Size(h, p) - nb]
  {
    hide ChunkOK, Sound, Apart, Segmented, Places, Owned;
    CutFirst(h, p, nb);
    CutSecond(h, p, nb);
    var h' := Cut(h, p, nb);
    forall q | q in h'.at
      ensures ChunkOK(h', q)
    {
      if q != p && q != p + nb { CutOther(h, p, nb, q); }
    }
    CutRest(h, p, nb);
    FreedAll(h');
  }

  // The other chunks.
  lemma CutOthers(h: Heap, p: nat, nb: nat)
    requires Cuts(h, p, nb) && p in h.heads && Next(h, p) in h.heads
    ensures var h' := Cut(h, p, nb);
      && p in h.at && p + nb !in h.at && p + nb !in h.stops && Cinuse(h', p) && Cinuse(h', p + nb) && Size(h', p) == nb
      && Next(h', p + nb) == Next(h, p)
      && forall q :: q in h.at && q != p ==> Size(h', q) == Size(h, q) && (Cinuse(h', q) <==> Cinuse(h, q))
  {
    hide Sound;
    Inside(h, p, p + nb);
    NextApart(h, p);
  }

  lemma CutApart(h: Heap, p: nat, nb: nat)
    requires Cuts(h, p, nb) && p in h.heads && Next(h, p) in h.heads
    ensures Apart(Cut(h, p, nb))
  {
    hide ChunkOK, Places, Segmented, Cut;
    CutOthers(h, p, nb);
    Inside(h, p, p + nb);
    assert Cut(h, p, nb).at == h.at + {p + nb} && Cut(h, p, nb).stops == h.stops by { CutAt(h, p, nb); }
  }

  lemma CutAt(h: Heap, p: nat, nb: nat)
    requires p in h.heads && nb < Size(h, p) && Next(h, p) in h.heads
    ensures var h' := Cut(h, p, nb);
      h'.at == h.at + {p + nb} && h'.stops == h.stops && h'.segs == h.segs && h'.recs == h.recs && h'.free == h.free
      && h'.dv == h.dv && h'.dvsize == h.dvsize && h'.top == h.top && h'.topsize == h.topsize && h'.foots == h.foots
  {
  }

  lemma CutRest(h: Heap, p: nat, nb: nat)
    requires Cuts(h, p, nb) && p in h.heads && Next(h, p) in h.heads
    ensures var h' := Cut(h, p, nb);
      Apart(h') && Places(h') && Segmented(h') && Live(h') == Live(h)[p := nb][p + nb := Size(h, p) - nb]
  {
    hide ChunkOK, Cut, Apart, Segmented, Sound;
    var h' := Cut(h, p, nb);
    CutOthers(h, p, nb);
    CutAt(h, p, nb);
    CutApart(h, p, nb);
    PlacesOf(h);
    NotTopInUse(h, p);
    SegmentsOf(h);
    assert TopLast(h') by {
      SegmentsParts(h);
      if |h.segs| > 0 && h.segs[0].base <= p + nb < h.segs[0].base + h.segs[0].size { PartBeforeTop(h, p, p + nb); }
    }
    SegmentsParts(h);
    SegmentedStays(h, h');
  }

  lemma SegmentsParts(h: Heap)
    requires Segmented(h)
    ensures TopLast(h) && (forall i :: 0 <= i < |h.segs| ==> h.segs[i].base in h.at && h.segs[i].size > TOP_FOOT)
    ensures (h.top != 0 ==> |h.segs| > 0 && h.segs[0].base <= h.top)
    ensures forall p :: p in h.recs ==> p in h.at && Cinuse(h, p)
  {
  }

  lemma NotTopInUse(h: Heap, p: nat)
    requires Sound(h) && p in h.at && Cinuse(h, p)
    ensures p != h.top && p != h.dv && p !in h.free && h.top != 0 && h.top in h.at
  {
    assert ChunkOK(h, p);
  }

  // ----- growing into top

  function GrowTop(h: Heap, p: nat, nb: nat): Heap
    requires p in h.heads && nb < Size(h, p) + h.topsize
  {
    var t, z := p + nb, Size(h, p) + h.topsize - nb;
    h.(heads := h.heads[p := Head(nb, Pinuse(h, p), true)][t := Head(z, true, false)],
       at := h.at - {h.top} + {t}, top := t, topsize := z)
  }

  ghost predicate Grows(h: Heap, p: nat, nb: nat) {
    && Sound(h) && p in Live(h) && Next(h, p) == h.top && nb % 8 == 0 && Size(h, p) <= nb < Size(h, p) + h.topsize
  }

  // The grown chunk and the new top.
  lemma GrowFront(h: Heap, p: nat, nb: nat)
    requires Grows(h, p, nb)
    ensures p in h.heads && ChunkOK(GrowTop(h, p, nb), p)
  {
    hide Apart, Segmented, Owned, Sound;
    GrowPlace(h, p, nb);
    GrowOthers(h, p, nb);
    if !Pinuse(h, p) { Before(h, p); }
  }

  lemma GrowRestTop(h: Heap, p: nat, nb: nat)
    requires Grows(h, p, nb)
    ensures p in h.heads && ChunkOK(GrowTop(h, p, nb), p + nb)
  {
    hide Apart, Segmented, Owned, Sound;
    GrowPlace(h, p, nb);
    GrowOthers(h, p, nb);
    TopThere(h);
    ChunkAt(h, h.top);
  }

  lemma GrowPlace(h: Heap, p: nat, nb: nat)
    requires Grows(h, p, nb)
    ensures p in h.heads && ChunkOK(h, p) && p != h.top && p != h.dv && h.top != 0
    ensures Owned(h.segs, p, p + nb + 8) && Owned(h.segs, p + nb, Next(h, h.top) + 8) && p + nb < Next(h, h.top) < WORD
  {
    hide Apart, Segmented, Owned, Sound;
    NotTopInUse(h, p);
    ChunkAt(h, p);
    ChunkAt(h, h.top);
    SegmentsOf(h);
    TopThere(h);
    OwnedTwice(h, p, h.top, Next(h, h.top));
    OwnedPart(h.segs, p, Next(h, h.top) + 8, p, p + nb + 8);
    OwnedPart(h.segs, p, Next(h, h.top) + 8, p + nb, Next(h, h.top) + 8);
  }

  lemma GrowChunk(h: Heap, p: nat, nb: nat, q: nat)
    requires Grows(h, p, nb) && q in h.at && q != h.top && q != p && p in h.heads
    ensures ChunkOK(GrowTop(h, p, nb), q)
  {
    hide Apart, Segmented, Owned, Sound;
    PlacesOf(h);
    NotTopInUse(h, p);
    GrowOthers(h, p, nb);
    ChunkAt(h, q);
    NextApart(h, q);
    GrowNext(h, p, nb, q);
    if !Pinuse(h, q) { Before(h, q); }
  }

  // Where another chunk leads to.
  lemma GrowNext(h: Heap, p: nat, nb: nat, q: nat)
    requires Grows(h, p, nb) && q in h.at && q != h.top && q != p && p in h.heads
    ensures Next(h, q) != h.top && Next(h, q) != p + nb && q != p + nb
    ensures Next(h, q) in h.heads ==> Pinuse(GrowTop(h, p, nb), Next(h, q)) == Pinuse(h, Next(h, q))
  {
    hide Apart, Segmented, Owned, Sound;
    PlacesOf(h);
    NotTopInUse(h, p);
    GrowOthers(h, p, nb);
    ChunkAt(h, q);
    Distinct(h, p, q);
  }

  /** A chunk in use before top takes some of it. */
  lemma GrowSound(h: Heap, p: nat, nb: nat)
    requires Grows(h, p, nb)
    ensures p in h.heads && Sound(GrowTop(h, p, nb)) && Live(GrowTop(h, p, nb)) == Live(h)[p := nb]
  {
    hide ChunkOK, Sound, Apart, Segmented, Places, Owned;
    GrowFront(h, p, nb);
    GrowRestTop(h, p, nb);
    var h' := GrowTop(h, p, nb);
    forall q | q in h'.at
      ensures ChunkOK(h', q)
    {
      if q != p && q != p + nb { GrowChunk(h, p, nb, q); }
    }
    GrowRest(h, p, nb);
    FreedAll(h');
  }

  lemma GrowOthers(h: Heap, p: nat, nb: nat)
    requires Grows(h, p, nb) && p in h.heads
    ensures var h' := GrowTop(h, p, nb);
      && p in h.at && Cinuse(h', p) && !Cinuse(h', p + nb) && Size(h', p) == nb && Next(h', p + nb) == Next(h, h.top)
      && (forall q :: q in h.at && q != p && q != h.top ==>
        (Next(h, q) <= p || q >= Next(h, h.top)) && Size(h', q) == Size(h, q) && (Cinuse(h', q) <==> Cinuse(h, q)))
      && (forall s :: s in h.stops ==> s <= p || s >= Next(h, h.top))
      && h.top in h.at && p < h.top < Next(h, h.top) && p + nb !in h.stops
  {
    hide ChunkOK, Segmented;
    PlacesOf(h);
    NotTopInUse(h, p);
    TopThere(h);
    NextApart(h, p);
    NextApart(h, h.top);
    forall q | q in h.at && q != p && q != h.top
      ensures Next(h, q) <= p || q >= Next(h, h.top)
    {
    }
  }

  lemma GrowRest(h: Heap, p: nat, nb: nat)
    requires Grows(h, p, nb) && p in h.heads
    ensures var h' := GrowTop(h, p, nb);
      Apart(h') && Places(h') && Segmented(h') && Live(h') == Live(h)[p := nb]
  {
    hide ChunkOK, Segmented, Apart, Sound;
    var h' := GrowTop(h, p, nb);
    PlacesOf(h);
    GrowOthers(h, p, nb);
    GrowApart(h, p, nb);
    NotTopInUse(h, p);
    SegmentsOf(h);
    SegmentsParts(h);
    InTopSegmentToo(h, p);
    forall i | 0 <= i < |h.segs|
      ensures h.segs[i].base in h'.at
    {
      NotBase(h, p, i);
    }
    GrowTopLast(h, p, nb);
    SegmentedStays(h, h');
  }

  lemma GrowApart(h: Heap, p: nat, nb: nat)
    requires Grows(h, p, nb) && p in h.heads
    ensures Apart(GrowTop(h, p, nb))
  {
    hide ChunkOK, Segmented, Places;
    GrowOthers(h, p, nb);
  }

  lemma GrowTopLast(h: Heap, p: nat, nb: nat)
    requires Grows(h, p, nb) && p in h.heads
    ensures TopLast(GrowTop(h, p, nb))
  {
    hide ChunkOK, Places, Apart;
    GrowOthers(h, p, nb);
    SegmentsParts(h);
  }

  lemma InTopSegmentToo(h: Heap, p: nat)
    requires Sound(h) && p in h.at && Next(h, p) == h.top && h.top in h.at
    ensures |h.segs| > 0 && h.segs[0].base <= p
  {
    assert ChunkOK(h, p);
    TopThere(h);
    var i :| 0 <= i < |h.segs| && h.segs[i].base <= p && Next(h, p) + 8 <= h.segs[i].base + h.segs[i].size;
    SegmentsApart(h, 0, i);
  }

  // ----- memory from the system

  /** Memory that nobody has. */
  ghost predicate Unused(h: Heap, base: nat, size: nat) {
    && base > 0 && base % 8 == 0 && size % 8 == 0 && base + size < WORD
    && forall i :: 0 <= i < |h.segs| ==> h.segs[i].base + h.segs[i].size <= base || base + size <= h.segs[i].base
  }

  /** Enough of it for a segment. */
  ghost predicate Fresh(h: Heap, base: nat, size: nat) {
    Unused(h, base, size) && size > TOP_FOOT
  }

  // No chunk or end of one is in fresh memory.
  lemma FreshApart(h: Heap, base: nat, size: nat)
    requires Sound(h) && Unused(h, base, size)
    ensures forall p :: p in h.at ==> Next(h, p) + 8 <= base || base + size <= p
    ensures forall s :: s in h.stops ==> s + 8 <= base || base + size <= s
  {
    forall p | p in h.at
      ensures Next(h, p) + 8 <= base || base + size <= p
    {
      ChunkAt(h, p);
    }
  }

  // init_top for the first segment.
  function Started(h: Heap, base: nat, size: nat): Heap
    requires size > TOP_FOOT
  {
    var z := size - TOP_FOOT;
    h.(heads := h.heads[base := Head(z, true, false)][base + z := Head(TOP_FOOT, false, false)],
       at := {base}, stops := {base + z}, top := base, topsize := z, segs := [Segment(base, size)], recs := {})
  }

  lemma StartedSound(h: Heap, base: nat, size: nat)
    requires Sound(h) && h.top == 0 && h.free == map[] && Fresh(h, base, size)
    ensures Sound(Started(h, base, size)) && Live(Started(h, base, size)) == map[] && Live(h) == map[]
  {
    var h' := Started(h, base, size);
    assert h'.segs[0] == Segment(base, size);
    assert ChunkOK(h', base);
    assert h.dv == 0;
  }

  // Fresh memory behind top.
  function Appended(h: Heap, size: nat): Heap
    requires h.segs != []
  {
    var z := h.topsize + size;
    h.(heads := h.heads[h.top := Head(z, true, false)][h.top + z := Head(TOP_FOOT, false, false)],
       stops := h.stops - {h.top + h.topsize} + {h.top + z}, topsize := z,
       segs := h.segs[0 := Segment(h.segs[0].base, h.segs[0].size + size)])
  }

  ghost predicate Appends(h: Heap, size: nat) {
    Sound(h) && h.top != 0 && h.segs != [] && Unused(h, h.segs[0].base + h.segs[0].size, size)
  }

  lemma OwnedAppended(h: Heap, size: nat, lo: nat, hi: nat)
    requires h.segs != [] && Owned(h.segs, lo, hi)
    ensures Owned(Appended(h, size).segs, lo, hi)
  {
    var i :| 0 <= i < |h.segs| && h.segs[i].base <= lo && hi <= h.segs[i].base + h.segs[i].size;
    assert Appended(h, size).segs[i].base <= lo;
  }

  lemma AppendTop(h: Heap, size: nat)
    requires Appends(h, size)
    ensures h.top in h.at && ChunkOK(Appended(h, size), h.top)
  {
    hide Apart, Owned, Sound, Segmented;
    AppendOthers(h, size);
    TopThere(h);
    ChunkAt(h, h.top);
    TopOwned(Appended(h, size), h.top);
  }

  lemma AppendOther(h: Heap, size: nat, q: nat)
    requires Appends(h, size) && q in h.at && q != h.top
    ensures ChunkOK(Appended(h, size), q)
  {
    hide Apart, Owned, Sound, Places, Segmented, ChunkOK, Appended;
    var h' := Appended(h, size);
    AppendedAs(h, size);
    AppendOthers(h, size);
    NextApart(h, q);
    Distinct(h, q, h.top);
    TopThere(h);
    ChunkNext(h, q);
    OwnedAppended(h, size, q, Next(h, q) + 8);
    AppendHead(h, size, q);
    AppendHead(h, size, Next(h, q));
    if !Pinuse(h, q) {
      Before(h, q);
      AppendHead(h, size, q - Foot(h, q));
    }
    ChunkAlike(h, h', q);
  }

  lemma AppendedAs(h: Heap, size: nat)
    requires h.segs != []
    ensures var h' := Appended(h, size);
      && h'.at == h.at && h'.stops == h.stops - {h.top + h.topsize} + {h.top + h.topsize + size}
      && h'.top == h.top && h'.dv == h.dv && h'.dvsize == h.dvsize && h'.free == h.free && h'.foots == h.foots
  {
  }

  // A head word other than that behind top.
  lemma AppendHead(h: Heap, size: nat, x: nat)
    requires h.segs != [] && h.top in h.heads && Pinuse(h, h.top) && !Cinuse(h, h.top) && x != h.top + h.topsize + size
    ensures var h' := Appended(h, size);
      && (x in h'.heads <==> x in h.heads) && Pinuse(h', x) == Pinuse(h, x) && Cinuse(h', x) == Cinuse(h, x)
      && (x != h.top ==> Size(h', x) == Size(h, x))
  {
  }

  lemma TopOwned(h: Heap, q: nat)
    requires |h.segs| > 0 && h.segs[0].base <= q && Next(h, q) + 8 <= h.segs[0].base + h.segs[0].size
    ensures Owned(h.segs, q, Next(h, q) + 8)
  {
  }

  /** The top segment gets longer. */
  lemma AppendSound(h: Heap, size: nat)
    requires Appends(h, size)
    ensures Sound(Appended(h, size)) && Live(Appended(h, size)) == Live(h)
  {
    hide ChunkOK, Apart, Places, Segmented, Sound;
    var h' := Appended(h, size);
    forall q | q in h'.at
      ensures ChunkOK(h', q)
    {
      if q == h.top { AppendTop(h, size); } else { AppendOther(h, size, q); }
    }
    AppendApart(h, size);
    AppendSegments(h, size);
    FreedAll(h');
  }

  lemma AppendOthers(h: Heap, size: nat)
    requires Appends(h, size)
    ensures var h' := Appended(h, size);
      && h.top in h.at && h.topsize > 0 && h.top + h.topsize + TOP_FOOT == h.segs[0].base + h.segs[0].size
      && (forall q :: q in h.at && q != h.top ==> Size(h', q) == Size(h, q) && (Cinuse(h', q) <==> Cinuse(h, q)))
      && (forall q :: q in h.at ==> q <= h.top || q >= h.segs[0].base + h.segs[0].size + size)
      && (forall s :: s in h.stops ==> s <= h.top + h.topsize || s >= h.segs[0].base + h.segs[0].size + size)
      && !Cinuse(h', h.top) && Size(h', h.top) == h.topsize + size
      && h.top + h.topsize + size !in h.at
  {
    hide ChunkOK, Apart;
    PlacesOf(h);
    SegmentsOf(h);
    TopThere(h);
    FreshApart(h, h.segs[0].base + h.segs[0].size, size);
    forall q | q in h.at
      ensures q <= h.top || q >= h.segs[0].base + h.segs[0].size + size
    {
    }
  }

  lemma AppendApart(h: Heap, size: nat)
    requires Appends(h, size)
    ensures Apart(Appended(h, size)) && Places(Appended(h, size)) && Live(Appended(h, size)) == Live(h)
  {
    hide ChunkOK, Segmented;
    AppendOthers(h, size);
    PlacesOf(h);
    TopThere(h);
    RecordsInUse(h);
  }

  lemma RecordsInUse(h: Heap)
    requires Sound(h)
    ensures forall p :: p in h.recs ==> p in h.at && Cinuse(h, p)
  {
  }

  lemma AppendStops(h: Heap, size: nat)
    requires Appends(h, size)
    ensures var h' := Appended(h, size); forall s :: s in h'.stops ==> Owned(h'.segs, s, s + 8)
  {
    hide ChunkOK, Apart, Places, Owned;
    AppendOthers(h, size);
    var h' := Appended(h, size);
    forall s | s in h'.stops
      ensures Owned(h'.segs, s, s + 8)
    {
      if s == h'.top + h'.topsize { WithinFirst(h'.segs, s, s + 8); } else { OwnedAppended(h, size, s, s + 8); }
    }
  }

  lemma AppendSegments(h: Heap, size: nat)
    requires Appends(h, size)
    ensures Segmented(Appended(h, size))
  {
    hide ChunkOK, Apart, Places, Owned;
    AppendOthers(h, size);
    var h' := Appended(h, size);
    AppendStops(h, size);
    SegmentsOf(h);
    assert forall i :: 0 <= i < |h.segs| ==> h'.segs[i].base == h.segs[i].base;
    forall i, j | 0 <= i < |h'.segs| && 0 <= j < |h'.segs| && i != j
      ensures h'.segs[i].base + h'.segs[i].size <= h'.segs[j].base || h'.segs[j].base + h'.segs[j].size <= h'.segs[i].base
    {
      SegmentsApart(h, i, j);
    }
    RecordsInUse(h);
    SegmentsParts(h);
    TopThere(h);
    assert TopLast(h') && StopLast(h');
  }

  lemma WithinFirst(segs: seq<Segment>, lo: nat, hi: nat)
    requires |segs| > 0 && segs[0].base <= lo && hi <= segs[0].base + segs[0].size
    ensures Owned(segs, lo, hi)
  {
  }

  // ----- a segment that grows downwards

  // Fresh memory before segment i, as one chunk in use.
  function Prepended(h: Heap, base: nat, size: nat, i: nat): Heap
    requires i < |h.segs|
  {
    h.(heads := h.heads[base := Head(size, true, true)], at := h.at + {base},
       segs := h.segs[i := Segment(base, h.segs[i].size + size)])
  }

  ghost predicate Prepends(h: Heap, base: nat, size: nat, i: nat) {
    Sound(h) && Fresh(h, base, size) && i < |h.segs| && h.segs[i].base == base + size
  }

  lemma OwnedPrepended(h: Heap, base: nat, size: nat, i: nat, lo: nat, hi: nat)
    requires i < |h.segs| && h.segs[i].base == base + size && Owned(h.segs, lo, hi)
    ensures Owned(Prepended(h, base, size, i).segs, lo, hi)
  {
    var j :| 0 <= j < |h.segs| && h.segs[j].base <= lo && hi <= h.segs[j].base + h.segs[j].size;
    assert Prepended(h, base, size, i).segs[j].base <= lo;
  }

  lemma FirstChunk(h: Heap, i: nat)
    requires Sound(h) && i < |h.segs|
    ensures h.segs[i].base in h.at && h.segs[i].base in h.heads && Pinuse(h, h.segs[i].base)
    ensures h.segs[i].size > TOP_FOOT
  {
    hide Apart, Places, Segmented, Sound;
    SegmentsOf(h);
    SegmentsParts(h);
    var b := h.segs[i].base;
    ChunkAt(h, b);
    if !Pinuse(h, b) {
      Before(h, b);
      NotBase(h, b - Foot(h, b), i);
      assert false;
    }
  }

  lemma PrependChunk(h: Heap, base: nat, size: nat, i: nat, q: nat)
    requires Prepends(h, base, size, i) && (q in h.at || q == base)
    ensures ChunkOK(Prepended(h, base, size, i), q)
  {
    hide Apart, Owned, Sound, Segmented;
    PlacesOf(h);
    SegmentsOf(h);
    FreshApart(h, base, size);
    FirstChunk(h, i);
    var h' := Prepended(h, base, size, i);
    if q == base {
      OwnedAt(h'.segs, i, base, base + size + 8);
      NotTopFresh(h, base, size);
    } else {
      ChunkAt(h, q);
      OwnedPrepended(h, base, size, i, q, Next(h, q) + 8);
      if !Pinuse(h, q) { Before(h, q); }
    }
  }

  lemma OwnedAt(segs: seq<Segment>, i: nat, lo: nat, hi: nat)
    requires i < |segs| && segs[i].base <= lo && hi <= segs[i].base + segs[i].size
    ensures Owned(segs, lo, hi)
  {
  }

  lemma NotTopFresh(h: Heap, base: nat, size: nat)
    requires Sound(h) && Fresh(h, base, size) && h.segs != []
    ensures base !in h.at && base !in h.stops && base != h.top && base != h.dv && base !in h.free && h.top != 0
    ensures h.top in h.at
  {
    hide ChunkOK, Apart, Owned;
    FreshApart(h, base, size);
    PlacesOf(h);
  }

  lemma PrependSound(h: Heap, base: nat, size: nat, i: nat)
    requires Prepends(h, base, size, i)
    ensures Sound(Prepended(h, base, size, i)) && Live(Prepended(h, base, size, i)) == Live(h)[base := size]
  {
    hide ChunkOK, Apart, Places, Segmented, Sound;
    var h' := Prepended(h, base, size, i);
    forall q | q in h'.at
      ensures ChunkOK(h', q)
    {
      PrependChunk(h, base, size, i, q);
    }
    PrependApart(h, base, size, i);
    PrependSegments(h, base, size, i);
    FreedAll(h');
  }

  lemma PrependApart(h: Heap, base: nat, size: nat, i: nat)
    requires Prepends(h, base, size, i)
    ensures var h' := Prepended(h, base, size, i);
      Apart(h') && Places(h') && Live(h') == Live(h)[base := size]
  {
    hide ChunkOK, Segmented, Owned, StopLast, Unused, TopLast;
    FreshApart(h, base, size);
    NotTopFresh(h, base, size);
    RecordsInUse(h);
    var h' := Prepended(h, base, size, i);
    assert forall q :: q in h.at ==> Size(h', q) == Size(h, q) && (Cinuse(h', q) <==> Cinuse(h, q));
  }

  lemma PrependSegments(h: Heap, base: nat, size: nat, i: nat)
    requires Prepends(h, base, size, i)
    ensures Segmented(Prepended(h, base, size, i))
  {
    hide ChunkOK, Apart, Places, Owned;
    var h' := Prepended(h, base, size, i);
    SegmentsOf(h);
    SegmentsParts(h);
    FreshApart(h, base, size);
    NotTopFresh(h, base, size);
    TopThere(h);
    FirstChunk(h, i);
    forall s | s in h'.stops
      ensures Owned(h'.segs, s, s + 8)
    {
      OwnedPrepended(h, base, size, i, s, s + 8);
    }
    forall j, k | 0 <= j < |h'.segs| && 0 <= k < |h'.segs| && j != k
      ensures h'.segs[j].base + h'.segs[j].size <= h'.segs[k].base || h'.segs[k].base + h'.segs[k].size <= h'.segs[j].base
    {
      SegmentsApart(h, j, k);
      FirstChunk(h, j);
      FirstChunk(h, k);
    }
    RecordsInUse(h);
    assert forall p :: p in h.recs ==> Cinuse(h', p);
    assert TopLast(h') && StopLast(h');
  }
}
