/** Whole runs of the allocator. */
module MallocRuns {
  import opened MallocSizes
  import opened MallocHeap
  import opened MallocGrow
  import opened MallocChoice
  import opened MallocSystem
  import opened MallocAlign

  // One step on the heap: a request is answered, a block is freed, or a block is cut or grows in its place.
  ghost predicate Step(h: Heap, h': Heap) {
    Gets(h, h') || Frees(h, h') || IsCut(h, h') || IsGrown(h, h')
  }

  ghost predicate Gets(h: Heap, h': Heap) {
    exists nb, contiguous, a, mem :: Got(h, h', nb, contiguous, a, mem)
  }

  ghost predicate Got(h: Heap, h': Heap, nb: nat, contiguous: bool, a: Answers, mem: nat) {
    && (Request(nb) || nb == WORD - 1) && Served(h, nb, contiguous, a)
    && Answered(h, h', nb, Acquired(h, nb, contiguous, a), mem)
  }

  ghost predicate Frees(h: Heap, h': Heap) {
    exists p :: p in Live(h) && h' == Freed(h, p)
  }

  ghost predicate IsCut(h: Heap, h': Heap) {
    exists p, nb :: CutTo(h, h', p, nb)
  }

  ghost predicate CutTo(h: Heap, h': Heap, p: nat, nb: nat) {
    Cuts(h, p, nb) && p in h.heads && nb < Size(h, p) && Next(h, p) in h.heads && h' == Cut(h, p, nb)
  }

  ghost predicate IsGrown(h: Heap, h': Heap) {
    exists p, nb :: GrownTo(h, h', p, nb)
  }

  ghost predicate GrownTo(h: Heap, h': Heap, p: nat, nb: nat) {
    Grows(h, p, nb) && p in h.heads && h' == GrowTop(h, p, nb)
  }

  // What callers rely on: every block lies in one segment, blocks have room behind their head, and no two overlap.
  ghost predicate BlocksApart(h: Heap) {
    && (forall p :: p in Live(h) ==> p % 8 == 0 && p > 0 && Live(h)[p] >= MIN_CHUNK && Owned(h.segs, p, p + Live(h)[p]))
    && (forall p, q :: p in Live(h) && q in Live(h) && p < q ==> p + Live(h)[p] <= q)
  }

  lemma SoundApart(h: Heap)
    requires Sound(h)
    ensures BlocksApart(h)
  {
    hide Places, Segmented, Owned, Sound;
    forall p | p in Live(h)
      ensures p % 8 == 0 && p > 0 && Live(h)[p] >= MIN_CHUNK && Owned(h.segs, p, p + Live(h)[p])
    {
      BlockOwned(h, p);
    }
    forall p, q | p in Live(h) && q in Live(h) && p < q
      ensures p + Live(h)[p] <= q
    {
      NextApart(h, p);
    }
  }

  lemma BlockOwned(h: Heap, p: nat)
    requires Sound(h) && p in Live(h)
    ensures p % 8 == 0 && p > 0 && Live(h)[p] >= MIN_CHUNK && Owned(h.segs, p, p + Live(h)[p])
  {
    hide Apart, Segmented, Owned;
    PlacesOf(h);
    ChunkAt(h, p);
    OwnedPart(h.segs, p, Next(h, p) + 8, p, Next(h, p));
  }

  lemma StepSound(h: Heap, h': Heap)
    requires Sound(h) && Step(h, h')
    ensures Sound(h')
  {
    hide Sound, Answered, Served, Chosen, Acquired, Freed, Cut, GrowTop, Live, Cuts, Grows;
    if Gets(h, h') {
      var nb, contiguous, a, mem :| Got(h, h', nb, contiguous, a, mem);
      ServedOffered(h, nb, contiguous, a);
      AnsweredSound(h, h', nb, Acquired(h, nb, contiguous, a), mem);
    } else if Frees(h, h') {
      var p :| p in Live(h) && h' == Freed(h, p);
      FreedSound(h, p);
    } else if IsCut(h, h') {
      var p, nb :| CutTo(h, h', p, nb);
      CutSound(h, p, nb);
    } else {
      var p, nb :| GrownTo(h, h', p, nb);
      GrowSound(h, p, nb);
    }
  }

  /** Every run keeps the invariant of the whole heap, and its blocks apart. */
  lemma {:induction false} RunSound(run: seq<Heap>)
    requires run != [] && Sound(run[0]) && forall i :: 0 <= i < |run| - 1 ==> Step(run[i], run[i + 1])
    ensures forall i :: 0 <= i < |run| ==> Sound(run[i]) && BlocksApart(run[i])
    decreases |run|
  {
    hide Sound, Step, BlocksApart;
    if |run| == 1 {
      SoundApart(run[0]);
    } else {
      var n := |run| - 1;
      RunSound(run[..n]);
      assert run[..n][n - 1] == run[n - 1];
      assert Step(run[n - 1], run[n - 1 + 1]);
      StepSound(run[n - 1], run[n]);
      SoundApart(run[n]);
      forall i | 0 <= i < |run|
        ensures Sound(run[i]) && BlocksApart(run[i])
      {
        if i < n { assert run[..n][i] == run[i]; }
      }
    }
  }

  // ----- what one call of the allocator amounts to

  ghost predicate IsRun(run: seq<Heap>, h: Heap, h': Heap) {
    run != [] && run[0] == h && run[|run| - 1] == h' && forall i :: 0 <= i < |run| - 1 ==> Step(run[i], run[i + 1])
  }

  /** Some steps, maybe none, lead from h to h'. */
  ghost predicate Reaches(h: Heap, h': Heap) {
    exists run :: IsRun(run, h, h')
  }

  lemma ReachesSame(h: Heap)
    ensures Reaches(h, h)
  {
    assert IsRun([h], h, h);
  }

  lemma ReachesMore(h: Heap, h1: Heap, h2: Heap)
    requires Reaches(h, h1) && Step(h1, h2)
    ensures Reaches(h, h2)
  {
    hide Step;
    var run :| IsRun(run, h, h1);
    var more := run + [h2];
    forall i | 0 <= i < |more| - 1
      ensures Step(more[i], more[i + 1])
    {
      if i < |run| - 1 { assert Step(run[i], run[i + 1]); }
    }
    assert IsRun(more, h, h2);
  }

  lemma ReachesSound(h: Heap, h': Heap)
    requires Sound(h) && Reaches(h, h')
    ensures Sound(h') && BlocksApart(h')
  {
    hide Sound, Step, BlocksApart;
    var run :| IsRun(run, h, h');
    RunSound(run);
  }

  lemma GetStep(h: Heap, h': Heap, nb: nat, contiguous: bool, a: Answers, mem: nat)
    requires Got(h, h', nb, contiguous, a, mem)
    ensures Step(h, h')
  {
  }

  lemma FreeStep(h: Heap, p: nat)
    requires p in Live(h)
    ensures Step(h, Freed(h, p))
  {
    hide Freed;
  }

  lemma CutStep(h: Heap, p: nat, nb: nat)
    requires Cuts(h, p, nb)
    ensures p in h.heads && nb < Size(h, p) && Next(h, p) in h.heads && Step(h, Cut(h, p, nb))
  {
    hide Sound, Cut;
    InUseThere(h, p);
    assert CutTo(h, Cut(h, p, nb), p, nb);
  }

  lemma GrowStep(h: Heap, p: nat, nb: nat)
    requires Grows(h, p, nb)
    ensures p in h.heads && Step(h, GrowTop(h, p, nb))
  {
    hide Sound, GrowTop;
    InUseThere(h, p);
    assert GrownTo(h, GrowTop(h, p, nb), p, nb);
  }

  /** What internal_memalign does behind the malloc is cutting and freeing. */
  lemma AlignedReaches(h0: Heap, h: Heap, p: nat, lead: nat, nb: nat)
    requires Reaches(h0, h) && Aligns(h, p, lead, nb)
    ensures Reaches(h0, Aligned(h, p, lead, nb))
  {
    hide Sound, ChunkOK, Cut, Freed, Live, Step, Reaches, Aligned;
    AlignedSteps(h, p, lead, nb);
    InUseThere(h, p);
    var q := p + lead;
    var h1 := if lead > 0 then Cut(h, p, lead) else h;
    if lead > 0 {
      CutStep(h, p, lead);
      ReachesMore(h0, h, h1);
      LeaderOff(h, p, lead, nb);
    }
    assert q in Live(h1) && Sound(h1);
    TrimmedSound(h1, q, nb);
    var h2 := if Size(h1, q) > nb + MIN_CHUNK then Cut(h1, q, nb) else h1;
    if Size(h1, q) > nb + MIN_CHUNK {
      CutStep(h1, q, nb);
      ReachesMore(h0, h1, h2);
    }
    var h3 := if lead > 0 then Freed(h2, p) else h2;
    if lead > 0 {
      FreeStep(h2, p);
      ReachesMore(h0, h2, h3);
    }
    if Size(h1, q) > nb + MIN_CHUNK {
      FreeStep(h3, q + nb);
      ReachesMore(h0, h3, Freed(h3, q + nb));
    }
  }
}
