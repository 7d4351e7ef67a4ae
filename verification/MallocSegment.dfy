/** A new segment apart from the others: the old top becomes an ordinary chunk and a segment record. */
module MallocSegment {
  import opened MallocSizes
  import opened MallocHeap
  import opened MallocGrow

  const RECORD := 24

  const FENCE := Head(4, true, true)

  // The trailing fenceposts, a word apart.
  function Fences(heads: map<nat, Head>, p: nat, end: nat): (r: map<nat, Head>)
    ensures p in r && r[p] == FENCE
    ensures forall a :: a in heads && (a < p || (a > p && a >= end)) ==> a in r && r[a] == heads[a]
    decreases end - p
  {
    if p + 8 < end then
      var r := Fences(heads[p := FENCE], p + 4, end);
      r
    else heads[p := FENCE]
  }

  // Where the record of the old segment goes.
  function RecordAt(h: Heap): nat {
    if h.topsize < MIN_CHUNK then h.top else h.top + h.topsize
  }

  // The new top and the record of the old segment, with its fences.
  function Recorded(h: Heap, base: nat, size: nat): Heap
    requires size > TOP_FOOT
  {
    var z, sp, end := size - TOP_FOOT, RecordAt(h), h.top + h.topsize + TOP_FOOT;
    var heads := h.heads[base := Head(z, true, false)][base + z := Head(TOP_FOOT, false, false)][sp := Head(RECORD, true, true)];
    h.(heads := Fences(heads, sp + RECORD, end), at := h.at + {base, sp}, stops := h.stops - {h.top + h.topsize} + {sp + RECORD, base + z},
       top := base, topsize := z, segs := [Segment(base, size)] + h.segs, recs := h.recs + {sp})
  }

  /** add_segment: what is left of the old top is free. */
  function Added(h: Heap, base: nat, size: nat): Heap
    requires size > TOP_FOOT
  {
    var h', t, sp := Recorded(h, base, size), h.top, RecordAt(h);
    if sp == t then h'
    else h'.(heads := h'.heads[sp := Head(RECORD, false, true)][t := Head(h.topsize, true, false)],
             foots := h.foots[sp := h.topsize], free := h.free[t := h.topsize])
  }

  ghost predicate Adds(h: Heap, base: nat, size: nat) {
    Sound(h) && h.top != 0 && Fresh(h, base, size)
  }

  // Where the other chunks and ends are.
  lemma AroundTop(h: Heap)
    requires Sound(h) && h.top != 0
    ensures h.segs != [] && h.top + h.topsize + TOP_FOOT == h.segs[0].base + h.segs[0].size && h.segs[0].base <= h.top
    ensures h.top in h.at && h.topsize > 0 && h.topsize % 8 == 0 && h.top % 8 == 0 && h.topsize == Size(h, h.top)
    ensures forall q :: q in h.at && q != h.top ==> Next(h, q) <= h.top || q >= h.top + h.topsize + TOP_FOOT
    ensures forall s :: s in h.stops && s != h.top + h.topsize ==> s < h.top || s >= h.top + h.topsize + TOP_FOOT
    ensures h.top + h.topsize in h.stops && h.top + h.topsize + TOP_FOOT < WORD
  {
    hide ChunkOK;
    TopThere(h);
    SegmentsOf(h);
    SegmentsParts(h);
    forall q | q in h.at && q != h.top
      ensures Next(h, q) <= h.top || q >= h.top + h.topsize + TOP_FOOT
    {
    }
    forall s | s in h.stops && s != h.top + h.topsize
      ensures s < h.top || s >= h.top + h.topsize + TOP_FOOT
    {
    }
  }

  // The heads after the fences are set.
  ghost predicate HeadsAdded(h: Heap, h': Heap, base: nat, size: nat) {
    var sp, end := RecordAt(h), h.top + h.topsize + TOP_FOOT;
    && sp % 8 == 0 && h.top <= sp && sp + RECORD + 8 <= end && size > TOP_FOOT
    && sp in h'.heads && h'.heads[sp] == Head(RECORD, sp == h.top, true)
    && sp + RECORD in h'.heads && h'.heads[sp + RECORD] == FENCE
    && base in h'.heads && h'.heads[base] == Head(size - TOP_FOOT, true, false)
    && base + size - TOP_FOOT in h'.heads && !h'.heads[base + size - TOP_FOOT].pinuse
    && (sp != h.top ==> h.top in h'.heads && h'.heads[h.top] == Head(h.topsize, true, false))
    && forall a :: a in h.heads && (a < h.top || a >= end) && !(base <= a < base + size) ==> a in h'.heads && h'.heads[a] == h.heads[a]
  }

  lemma AddedHeads(h: Heap, base: nat, size: nat)
    requires Adds(h, base, size)
    ensures HeadsAdded(h, Added(h, base, size), base, size)
  {
    hide ChunkOK, Apart, Places, Segmented;
    AroundTop(h);
    assert h.segs[0].base + h.segs[0].size <= base || base + size <= h.segs[0].base;
  }

  lemma OwnedAdded(h: Heap, base: nat, size: nat, lo: nat, hi: nat)
    requires Owned(h.segs, lo, hi)
    ensures Owned([Segment(base, size)] + h.segs, lo, hi)
  {
    var i :| 0 <= i < |h.segs| && h.segs[i].base <= lo && hi <= h.segs[i].base + h.segs[i].size;
    assert ([Segment(base, size)] + h.segs)[i + 1] == h.segs[i];
  }

  // The new top, the record, and what is left of the old top.
  lemma AddedTop(h: Heap, base: nat, size: nat)
    requires Adds(h, base, size)
    ensures ChunkOK(Added(h, base, size), base)
  {
    hide Apart, Segmented, Sound, Owned, Fences, Added, Places;
    AddedHeads(h, base, size);
    AddedAt(h, base, size);
    WithinFirst([Segment(base, size)] + h.segs, base, base + size - TOP_FOOT + 8);
  }

  lemma AddedRecord(h: Heap, base: nat, size: nat)
    requires Adds(h, base, size)
    ensures var h', sp := Added(h, base, size), RecordAt(h);
      ChunkOK(h', sp) && (sp != h.top ==> ChunkOK(h', h.top))
  {
    hide Apart, Segmented, Sound, Owned, Fences, Added, Fresh;
    AroundTop(h);
    AddedHeads(h, base, size);
    AddedAt(h, base, size);
    PlacesOf(h);
    NotTopFresh(h, base, size);
    var sp, segs' := RecordAt(h), [Segment(base, size)] + h.segs;
    WithinFirst(h.segs, h.top, h.top + h.topsize + TOP_FOOT);
    OwnedAdded(h, base, size, h.top, h.top + h.topsize + TOP_FOOT);
    OwnedPart(segs', h.top, h.top + h.topsize + TOP_FOOT, sp, sp + RECORD + 8);
    OwnedPart(segs', h.top, h.top + h.topsize + TOP_FOOT, h.top, h.top + h.topsize + 8);
  }

  lemma AddedOther(h: Heap, base: nat, size: nat, q: nat)
    requires Adds(h, base, size) && q in h.at && q != h.top
    ensures ChunkOK(Added(h, base, size), q)
  {
    hide Apart, Segmented, Sound, Owned, Fences, Added, Places, ChunkOK, HeadsAdded;
    AddedAt(h, base, size);
    AroundTop(h);
    NotTopFresh(h, base, size);
    ChunkNext(h, q);
    OwnedAdded(h, base, size, q, Next(h, q) + 8);
    AddedHead(h, base, size, q);
    AddedNext(h, base, size, q);
    if !Cinuse(h, q) { AddedFree(h, base, size, q); }
    if !Pinuse(h, q) { AddedBefore(h, base, size, q); }
    ChunkAlike(h, Added(h, base, size), q);
  }

  // The head words of another chunk and behind it.
  lemma AddedHead(h: Heap, base: nat, size: nat, q: nat)
    requires Adds(h, base, size) && q in h.at && q != h.top
    ensures AlikeHead(h, Added(h, base, size), q) && q != base
  {
    hide Apart, Segmented, Sound, Owned, Fences, Added, Places;
    AroundTop(h);
    AddedHeads(h, base, size);
    AddedAt(h, base, size);
    FreshApart(h, base, size);
    NotTopFresh(h, base, size);
    ChunkAt(h, q);
  }

  lemma AddedNext(h: Heap, base: nat, size: nat, q: nat)
    requires Adds(h, base, size) && q in h.at && q != h.top
    ensures var h', n := Added(h, base, size), Next(h, q);
      n in h'.heads && Pinuse(h', n) == Pinuse(h, n) && (n in h'.at || n in h'.stops) && (n in h'.stops ==> Cinuse(h', n))
  {
    hide Apart, Segmented, Sound, Owned, Fences, Added, Places, ChunkOK;
    AroundTop(h);
    AddedHeads(h, base, size);
    AddedAt(h, base, size);
    FreshApart(h, base, size);
    ChunkNext(h, q);
    TopThere(h);
    Distinct(h, h.top, q);
  }

  lemma AddedFree(h: Heap, base: nat, size: nat, q: nat)
    requires Adds(h, base, size) && q in h.at && q != h.top && q != base && !Cinuse(h, q)
    ensures AlikeFree(h, Added(h, base, size), q)
  {
    hide Apart, Segmented, Sound, Owned, Fences, Added, ChunkOK;
    AroundTop(h);
    AddedAt(h, base, size);
    ChunkNext(h, q);
    PlacesOf(h);
    NotTopFresh(h, base, size);
  }

  // What is before another chunk stays as it is.
  lemma AddedBefore(h: Heap, base: nat, size: nat, q: nat)
    requires Adds(h, base, size) && q in h.at && q != h.top && !Pinuse(h, q)
    ensures var h', y := Added(h, base, size), q - Foot(h, q);
      Foot(h', q) == Foot(h, q) && q in h'.foots && Foot(h, q) <= q && y in h'.at && Size(h', y) == Foot(h, q)
  {
    hide Apart, Segmented, Owned, Fences, Added, ChunkOK, Places;
    Before(h, q);
    ChunkBefore(h, q);
    AddedAt(h, base, size);
    AddedOthers(h, base, size);
    RecordApart(h);
  }

  lemma ChunkBefore(h: Heap, q: nat)
    requires Sound(h) && q in h.at && !Pinuse(h, q)
    ensures q in h.foots && Foot(h, q) <= q && q - Foot(h, q) in h.at && Size(h, q - Foot(h, q)) == Foot(h, q)
  {
    assert ChunkOK(h, q);
  }

  /** The chunks of the old segment stay, what is left of its top is free, and the record is nobody's chunk. */
  lemma AddedSound(h: Heap, base: nat, size: nat)
    requires Adds(h, base, size)
    ensures Sound(Added(h, base, size)) && Live(Added(h, base, size)) == Live(h)
  {
    hide ChunkOK, Apart, Places, Segmented, Sound, Added;
    var h' := Added(h, base, size);
    AddedAt(h, base, size);
    AddedTop(h, base, size);
    AddedRecord(h, base, size);
    forall q | q in h'.at
      ensures ChunkOK(h', q)
    {
      if q in h.at && q != h.top { AddedOther(h, base, size, q); }
      if q == h.top && RecordAt(h) != h.top { assert ChunkOK(h', h.top); }
    }
    AddedApart(h, base, size);
    AddedPlaces(h, base, size);
    AddedSegments(h, base, size);
    FreedAll(h');
  }

  lemma AddedAt(h: Heap, base: nat, size: nat)
    requires size > TOP_FOOT
    ensures var h', sp := Added(h, base, size), RecordAt(h);
      && h'.at == h.at + {base, sp} && h'.stops == h.stops - {h.top + h.topsize} + {sp + RECORD, base + size - TOP_FOOT}
      && h'.segs == [Segment(base, size)] + h.segs && h'.recs == h.recs + {sp} && h'.top == base
      && h'.topsize == size - TOP_FOOT
      && (h'.foots == if sp == h.top then h.foots else h.foots[sp := h.topsize])
      && h'.dv == h.dv && h'.dvsize == h.dvsize && h'.free == if sp == h.top then h.free else h.free[h.top := h.topsize]
  {
  }

  // Sizes and bits of the other chunks.
  lemma AddedOthers(h: Heap, base: nat, size: nat)
    requires Adds(h, base, size)
    ensures var h' := Added(h, base, size);
      forall q :: q in h.at && q != h.top ==> Size(h', q) == Size(h, q) && (Cinuse(h', q) <==> Cinuse(h, q))
  {
    hide Apart, Segmented, Sound, Owned, Fences, Added;
    AroundTop(h);
    AddedHeads(h, base, size);
    FreshApart(h, base, size);
    forall q | q in h.at && q != h.top
      ensures Size(Added(h, base, size), q) == Size(h, q) && (Cinuse(Added(h, base, size), q) <==> Cinuse(h, q))
    {
      ChunkAt(h, q);
    }
  }

  lemma AddedApart(h: Heap, base: nat, size: nat)
    requires Adds(h, base, size)
    ensures Apart(Added(h, base, size))
  {
    hide Added, Adds;
    AddedChunksApart(h, base, size);
    AddedStopsApart(h, base, size);
  }

  lemma AddedChunksApart(h: Heap, base: nat, size: nat)
    requires Adds(h, base, size)
    ensures var h' := Added(h, base, size);
      forall p, q :: p in h'.at && q in h'.at && p < q ==> Next(h', p) <= q
  {
    hide ChunkOK, Segmented, Places, Added;
    AroundTop(h);
    AddedAt(h, base, size);
    AddedHeads(h, base, size);
    AddedOthers(h, base, size);
    FreshApart(h, base, size);
    FirstApart(h, base, size);
    NotTopFresh(h, base, size);
  }

  lemma AddedStopsApart(h: Heap, base: nat, size: nat)
    requires Adds(h, base, size)
    ensures var h' := Added(h, base, size);
      h'.at !! h'.stops && forall p, s :: p in h'.at && s in h'.stops && p < s ==> Next(h', p) <= s
  {
    hide ChunkOK, Segmented, Places, Added;
    AroundTop(h);
    AddedAt(h, base, size);
    AddedHeads(h, base, size);
    AddedOthers(h, base, size);
    FreshApart(h, base, size);
    FirstApart(h, base, size);
    NotTopFresh(h, base, size);
  }

  lemma FirstApart(h: Heap, base: nat, size: nat)
    requires Adds(h, base, size)
    ensures base + size <= h.top || h.top + h.topsize + TOP_FOOT <= base
  {
    AroundTop(h);
    FreshApart(h, base, size);
    assert h.segs[0].base + h.segs[0].size <= base || base + size <= h.segs[0].base;
  }

  lemma AddedPlaces(h: Heap, base: nat, size: nat)
    requires Adds(h, base, size)
    ensures Places(Added(h, base, size)) && Live(Added(h, base, size)) == Live(h)
  {
    hide ChunkOK, Segmented, Apart, Added;
    AroundTop(h);
    AddedAt(h, base, size);
    AddedHeads(h, base, size);
    AddedOthers(h, base, size);
    FirstApart(h, base, size);
    NotTopFresh(h, base, size);
    PlacesOf(h);
    RecordsInUse(h);
    RecordApart(h);
  }

  lemma RecordApart(h: Heap)
    requires Sound(h) && h.top != 0
    ensures RecordAt(h) != h.top ==> RecordAt(h) !in h.at
    ensures RecordAt(h) !in h.recs && RecordAt(h) > 0
  {
    hide ChunkOK, Segmented;
    AroundTop(h);
    PlacesOf(h);
    RecordsInUse(h);
    TopThere(h);
  }

  lemma AddedSegments(h: Heap, base: nat, size: nat)
    requires Adds(h, base, size)
    ensures Segmented(Added(h, base, size))
  {
    hide ChunkOK, Apart, Places, Owned, Added, Fences, Sound, TopLast, StopLast;
    AddedHeads(h, base, size);
    AddedAt(h, base, size);
    AddedList(h, base, size);
    AddedLast(h, base, size);
    AddedStops(h, base, size);
    AddedOthers(h, base, size);
    SegmentsOf(h);
    AroundTop(h);
    RecordsInUse(h);
    TopThere(h);
  }

  // The segments are apart.
  lemma AddedList(h: Heap, base: nat, size: nat)
    requires Adds(h, base, size)
    ensures var segs' := [Segment(base, size)] + h.segs;
      forall i, j :: 0 <= i < |segs'| && 0 <= j < |segs'| && i != j ==>
        segs'[i].base + segs'[i].size <= segs'[j].base || segs'[j].base + segs'[j].size <= segs'[i].base
  {
    hide ChunkOK, Apart, Places, Owned, TopLast, StopLast;
    SegmentsOf(h);
    var segs' := [Segment(base, size)] + h.segs;
    forall i, j | 0 <= i < |segs'| && 0 <= j < |segs'| && i != j
      ensures segs'[i].base + segs'[i].size <= segs'[j].base || segs'[j].base + segs'[j].size <= segs'[i].base
    {
      if i > 0 && j > 0 { SegmentsApart(h, i - 1, j - 1); }
    }
  }

  lemma AddedStops(h: Heap, base: nat, size: nat)
    requires Adds(h, base, size)
    ensures forall s :: s in Added(h, base, size).stops ==> Owned([Segment(base, size)] + h.segs, s, s + 8)
  {
    hide ChunkOK, Apart, Places, Owned, Added, Fences, TopLast, StopLast;
    var sp, segs' := RecordAt(h), [Segment(base, size)] + h.segs;
    AroundTop(h);
    AddedAt(h, base, size);
    WithinFirst(segs', base + size - TOP_FOOT, base + size - TOP_FOOT + 8);
    WithinFirst(h.segs, h.top, h.top + h.topsize + TOP_FOOT);
    OwnedAdded(h, base, size, h.top, h.top + h.topsize + TOP_FOOT);
    OwnedPart(segs', h.top, h.top + h.topsize + TOP_FOOT, sp + RECORD, sp + RECORD + 8);
    forall s | s in h.stops
      ensures Owned(segs', s, s + 8)
    {
      OwnedAdded(h, base, size, s, s + 8);
    }
  }

  // Nothing of the new segment begins behind its top.
  lemma AddedLast(h: Heap, base: nat, size: nat)
    requires Adds(h, base, size)
    ensures TopLast(Added(h, base, size)) && StopLast(Added(h, base, size))
  {
    hide ChunkOK, Places, Owned, Added, Fences, Segmented, Apart, Sound;
    AroundTop(h);
    AddedAt(h, base, size);
    FirstApart(h, base, size);
    FreshApart(h, base, size);
    forall p | p in h.at
      ensures p < base || p >= base + size
    {
      NextApart(h, p);
    }
  }
}
