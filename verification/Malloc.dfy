/** The allocator: malloc, free, realloc and memalign over boundary tags and bins. */
module Malloc {
  import opened MallocSizes
  import opened MallocBits
  import opened MallocHeap
  import opened MallocGrow
  import opened MallocSegment
  import opened MallocRequest
  import opened MallocChoice
  import opened MallocAlign
  import opened MallocSystem
  import opened MallocRuns
  import S = MallocSmall
  import F = MallocForest
  import B = MallocFit
  import opened MallocTreeBins

  // set_inuse
  function Inuse(heads: map<nat, Head>, p: nat, s: nat): map<nat, Head> {
    SetPinuse(heads[p := Head(s, p in heads && heads[p].pinuse, true)], p + s)
  }

  // set_inuse_and_pinuse
  function InuseAndPinuse(heads: map<nat, Head>, p: nat, s: nat): map<nat, Head> {
    SetPinuse(heads[p := Head(s, true, true)], p + s)
  }

  // The pinuse bit of a head word, which becomes one when it was none.
  function SetPinuse(heads: map<nat, Head>, n: nat): map<nat, Head> {
    if n in heads then heads[n := heads[n].(pinuse := true)] else heads[n := Head(0, true, false)]
  }

  function ClearPinuse(heads: map<nat, Head>, n: nat): map<nat, Head> {
    if n in heads then heads[n := heads[n].(pinuse := false)] else heads
  }

  // malloc_state
  class State {
    var heads: map<nat, Head>
    var foots: map<nat, nat>
    var dv: nat
    var dvsize: nat
    var top: nat
    var topsize: nat
    var segs: seq<Segment>
    var contiguous: bool
    const smalls: S.SmallBins
    const trees: TreeBins
    ghost var at: set<nat>
    ghost var stops: set<nat>
    ghost var free: map<nat, nat>
    ghost var recs: set<nat>

    ghost function H(): Heap
      reads this
    {
      Heap(heads, foots, at, stops, free, dv, dvsize, top, topsize, segs, recs)
    }

    ghost predicate Binned()
      reads this, smalls, trees
    {
      Filed(free, smalls.S(), trees.F())
    }

    /** What do_check_malloc_state checks, and more. */
    ghost predicate Good()
      reads this, smalls, trees
    {
      Sound(H()) && Binned()
    }

    constructor ()
      ensures Good() && Live(H()) == map[] && fresh(smalls) && fresh(trees)
    {
      heads, foots, segs := map[], map[], [];
      dv, dvsize, top, topsize, contiguous := 0, 0, 0, 0, true;
      at, stops, free, recs := {}, {}, map[], {};
      smalls := new S.SmallBins();
      trees := new TreeBins();
    }

    // ----- bins

    /** insert_chunk */
    method InsertChunk(p: nat, s: nat)
      requires Binned() && p !in free && p != 0 && s % 8 == 0 && s < WORD
      modifies `free, smalls, trees
      ensures Binned() && free == old(free)[p := s]
    {
      hide S.Valid, F.Valid, S.Holds, F.Holds, S.IsMember, F.IsMember;
      ghost var s0, f0 := smalls.S(), trees.F();
      NotFiled(free, s0, f0, p);
      if s < MIN_LARGE {
        smalls.Insert(p, s);
      } else {
        trees.Insert(p, s);
      }
      free := free[p := s];
      FiledMore(old(free), s0, f0, free, smalls.S(), trees.F(), p, s);
    }

    /** unlink_chunk */
    method UnlinkChunk(p: nat, s: nat)
      requires Binned() && InBins(free, p, s)
      modifies `free, smalls, trees
      ensures Binned() && free == old(free) - {p}
    {
      hide S.Valid, F.Valid, S.Holds, F.Holds;
      ghost var s0, f0 := smalls.S(), trees.F();
      if s < MIN_LARGE {
        smalls.Unlink(p, s);
      } else {
        trees.Unlink(p, s);
      }
      free := free - {p};
      FiledLess(old(free), s0, f0, free, smalls.S(), trees.F(), p);
    }

    /** replace_dv, for a dv that is small */
    method ReplaceDv(p: nat, s: nat)
      requires Binned() && (dvsize != 0 ==> dv != 0 && dv !in free && dvsize % 8 == 0 && dvsize < MIN_LARGE)
      modifies `free, `dv, `dvsize, smalls, trees
      ensures Binned() && dv == p && dvsize == s && free == if old(dvsize) != 0 then old(free)[old(dv) := old(dvsize)] else old(free)
    {
      if dvsize != 0 {
        InsertChunk(dv, dvsize);
      }
      dvsize := s;
      dv := p;
    }

    // ----- head and foot words

    // set_size_and_pinuse_of_free_chunk
    method SetFree(p: nat, s: nat)
      modifies `heads, `foots
      ensures heads == old(heads)[p := Head(s, true, false)] && foots == old(foots)[p + s := s]
    {
      heads := heads[p := Head(s, true, false)];
      foots := foots[p + s := s];
    }

    // set_free_with_pinuse
    method SetFreeWithPinuse(p: nat, s: nat, n: nat)
      modifies `heads, `foots
      ensures heads == ClearPinuse(old(heads), n)[p := Head(s, true, false)] && foots == old(foots)[p + s := s]
    {
      heads := ClearPinuse(heads, n);
      SetFree(p, s);
    }

    // ----- free

    // The freed chunk becomes part of top.
    method MergeTop(p: nat, psize: nat, ghost h: Heap, ghost p0: nat)
      requires Sound(h) && p0 in Live(h) && Binned() && p == Back(h, p0) && p + psize == Next(h, p0) == h.top
      requires H() == h.(free := FreeBack(h, p0), at := h.at - Gone(h, p0))
      modifies `heads, `top, `topsize, `dv, `dvsize
      ensures Binned() && H() == Freed(h, p0)
    {
      hide Sound, Filed, Freed, Gone, Back, Forth, Region, Live;
      FreeFacts(h, p0);
      FreedToTop(h, p0);
      topsize := topsize + psize;
      top := p;
      heads := heads[p := Head(topsize, true, false)];
      if p == dv {
        dv := 0;
        dvsize := 0;
      }
    }

    // The freed chunk becomes part of dv.
    method MergeDv(p: nat, psize: nat, ghost h: Heap, ghost p0: nat)
      requires Sound(h) && p0 in Live(h) && Binned() && p == Back(h, p0) && p + psize == Next(h, p0) == h.dv
      requires !Cinuse(h, h.dv) && h.dv != h.top && H() == h.(free := FreeBack(h, p0), at := h.at - Gone(h, p0))
      modifies `heads, `foots, `dv, `dvsize
      ensures Binned() && H() == Freed(h, p0)
    {
      hide Sound, Filed, Freed, Gone, Back, Forth, Region, Live;
      FreeFacts(h, p0);
      FreedToDv(h, p0);
      dvsize := dvsize + psize;
      dv := p;
      SetFree(p, dvsize);
    }

    // The freed chunk takes in the binned one behind it.
    method MergeFree(p: nat, size: nat, next: nat, ghost h: Heap, ghost p0: nat)
      requires Sound(h) && p0 in Live(h) && Binned() && p == Back(h, p0) && p + size == next == Next(h, p0)
      requires H() == h.(free := FreeBack(h, p0), at := h.at - Gone(h, p0))
      requires next in h.heads && !Cinuse(h, next) && next != h.top && next != h.dv
      modifies `heads, `foots, `free, `dvsize, smalls, trees
      ensures Binned() && H() == Freed(h, p0)
    {
      hide Sound, Filed, ChunkOK, Apart, Places, Segmented, Freed, Gone, Back, Forth, ClearPinuse, Region, Live;
      FreeFacts(h, p0);
      var nsize := heads[next].size;
      var psize := size + nsize;
      UnlinkChunk(next, nsize);
      SetFree(p, psize);
      FreedToFree(h, p0);
      if p == dv {
        dvsize := psize;
        return;
      }
      InsertChunk(p, psize);
    }

    // The part of dlfree that looks at the chunk behind, after p0 has been merged with what is before it.
    method FreeForward(p: nat, psize: nat, next: nat, ghost h: Heap, ghost p0: nat)
      requires Sound(h) && p0 in Live(h) && Binned() && p == Back(h, p0) && next == Next(h, p0) && p + psize == next
      requires H() == h.(free := FreeBack(h, p0), at := h.at - Gone(h, p0)) && (p == h.dv ==> !Cinuse(h, next))
      modifies this, smalls, trees
      ensures contiguous == old(contiguous)
      ensures Binned() && H() == Freed(h, p0) && contiguous == old(contiguous)
    {
      hide Sound, Filed, ChunkOK, Apart, Places, Segmented, Freed, Gone, Back, Forth, ClearPinuse, Region, Live;
      FreeFacts(h, p0);
      if !heads[next].cinuse {
        if next == top {
          MergeTop(p, psize, h, p0);
          return;
        } else if next == dv {
          MergeDv(p, psize, h, p0);
          return;
        } else {
          MergeFree(p, psize, next, h, p0);
          return;
        }
      } else {
        SetFreeWithPinuse(p, psize, next);
        FreedAlone(h, p0);
      }
      InsertChunk(p, psize);
    }

    /** dlfree */
    method Free(mem: nat)
      requires Good() && (mem == 0 || (mem >= 8 && mem - 8 in Live(H())))
      modifies this, smalls, trees
      ensures contiguous == old(contiguous)
      ensures contiguous == old(contiguous)
      ensures Good()
      ensures mem == 0 ==> H() == old(H())
      ensures mem != 0 ==> H() == Freed(old(H()), mem - 8) && Live(H()) == Live(old(H())) - {mem - 8}
    {
      hide Sound, Filed, ChunkOK, Apart, Places, Segmented, Freed, Gone, Back, Forth, ClearPinuse, Region, Live;
      if mem == 0 { return; }
      ghost var h, p0: nat := H(), mem - 8;
      FreedSound(h, p0);
      FreeFacts(h, p0);
      var p: nat := mem - 8;
      var psize := heads[p].size;
      var next := p + psize;
      at := at - Gone(h, p0);
      if !heads[p].pinuse {
        var prevsize := foots[p];
        p := p - prevsize;
        psize := psize + prevsize;
        if p != dv {
          UnlinkChunk(p, prevsize);
        } else if heads[next].pinuse && heads[next].cinuse {
          dvsize := psize;
          SetFreeWithPinuse(p, psize, next);
          FreedAlone(h, p0);
          return;
        }
      }
      FreeForward(p, psize, next, h, p0);
    }

    // ----- malloc

    // Chunk p, taken out of its bin, is given away for nb; a new dv comes from what is left over.
    method SplitToDv(p: nat, nb: nat, rsize: nat)
      requires Binned() && (dvsize != 0 ==> dv != 0 && dv !in free && dvsize % 8 == 0 && dvsize < MIN_LARGE)
      modifies `heads, `foots, `free, `dv, `dvsize, smalls, trees
      ensures Binned() && dv == p + nb && dvsize == rsize
      ensures heads == old(heads)[p := Head(nb, true, true)][p + nb := Head(rsize, true, false)]
      ensures foots == old(foots)[p + nb + rsize := rsize]
      ensures free == if old(dvsize) != 0 then old(free)[old(dv) := old(dvsize)] else old(free)
    {
      heads := heads[p := Head(nb, true, true)];
      var r := p + nb;
      SetFree(r, rsize);
      ReplaceDv(r, rsize);
    }

    // The best fit is taken out of the bins, and its rest goes back where it is large enough.
    method CarveLarge(v: nat, nb: nat, rsize: nat)
      requires Binned() && CarvedFacts(H(), nb, v, rsize, false)
      modifies `heads, `foots, `free, `at, smalls, trees
      ensures Binned() && H() == Carved(old(H()), v, nb, false)
    {
      hide Filed, Carved;
      var r := v + nb;
      UnlinkChunk(v, rsize + nb);
      if rsize < MIN_CHUNK {
        heads := InuseAndPinuse(heads, v, rsize + nb);
      } else {
        heads := heads[v := Head(nb, true, true)];
        SetFree(r, rsize);
        at := at + {r};
        InsertChunk(r, rsize);
      }
    }

    /** tmalloc_large: the best fit in the tree bins unless dv fits as well. */
    method TmallocLarge(nb: nat) returns (mem: nat)
      requires Good() && Request(nb) && MIN_LARGE <= nb
      modifies this, smalls, trees
      ensures contiguous == old(contiguous)
      ensures contiguous == old(contiguous)
      ensures Binned()
      ensures mem == 0 ==> H() == old(H()) && forall a :: !Preferred(H(), nb, a)
      ensures mem != 0 ==> mem >= 8 && Tightest(old(H()), nb, mem - 8) && Preferred(old(H()), nb, mem - 8)
      ensures mem != 0 ==> H() == Carved(old(H()), mem - 8, nb, false)
    {
      hide Sound, Filed, Tightest, Preferred, Carved, CarvedFacts;
      ghost var h := H();
      FiledValid(free, smalls.S(), trees.F());
      var v, rsize := trees.BestFit(nb);
      BestLarge(h, smalls.S(), trees.F(), nb, v, rsize);
      if v != 0 && rsize < (dvsize - nb) % WORD {
        CarveLarge(v, nb, rsize);
        return v + 8;
      }
      return 0;
    }

    /** tmalloc_small: the smallest chunk in the tree bins, its rest becoming dv. */
    method TmallocSmall(nb: nat) returns (mem: nat)
      requires Good() && Request(nb) && nb < MIN_LARGE && trees.marks != 0 && dvsize < nb
      requires forall a :: a in free && nb <= free[a] ==> free[a] >= MIN_LARGE
      modifies this, smalls, trees
      ensures contiguous == old(contiguous)
      ensures contiguous == old(contiguous)
      ensures Binned() && mem >= 8 && Tightest(old(H()), nb, mem - 8) && Preferred(old(H()), nb, mem - 8)
      ensures H() == Carved(old(H()), mem - 8, nb, true)
    {
      hide Sound, Filed, Tightest, Preferred, Carved, Request;
      ghost var h := H();
      FiledValid(free, smalls.S(), trees.F());
      var v, rsize := trees.SmallestFit(nb);
      BestSmall(h, smalls.S(), trees.F(), nb, v, rsize);
      UnlinkChunk(v, rsize + nb);
      if rsize < MIN_CHUNK {
        heads := InuseAndPinuse(heads, v, rsize + nb);
      } else {
        at := at + {v + nb};
        SplitToDv(v, nb, rsize);
      }
      return v + 8;
    }

    /** unlink_first_small_chunk */
    method UnlinkFirst(p: nat, i: nat)
      requires Binned() && i < S.NSMALLBINS && Marked(smalls.marks, i) && InBins(free, p, 8 * i) && 8 * i < MIN_LARGE
      requires S.Head(i) in smalls.fd && smalls.fd[S.Head(i)] == S.Chunk(p)
      modifies `free, smalls
      ensures Binned() && free == old(free) - {p}
    {
      hide S.Valid, F.Valid, S.Holds, F.Holds, Marked;
      ghost var s0 := smalls.S();
      smalls.UnlinkFirst(p, i);
      free := free - {p};
      FiledLess(old(free), s0, trees.F(), free, smalls.S(), trees.F(), p);
    }

    // A chunk of small bin i without a remainder.
    method TakeExact(nb: nat, i: nat) returns (mem: nat)
      requires Good() && Request(nb) && i < S.NSMALLBINS && Marked(smalls.marks, i)
      requires i == nb / 8 || (i == nb / 8 + 1 && !Marked(smalls.marks, nb / 8))
      modifies this, smalls
      ensures contiguous == old(contiguous)
      ensures contiguous == old(contiguous)
      ensures Binned() && mem >= 8 && Tightest(old(H()), nb, mem - 8) && Preferred(old(H()), nb, mem - 8)
      ensures H() == Carved(old(H()), mem - 8, nb, true)
    {
      hide Sound, Filed, Tightest, Preferred, Carved, S.Valid, S.Holds, F.Valid, Marked;
      FiledValid(free, smalls.S(), trees.F());
      var p := smalls.First(i);
      ExactSmall(H(), smalls.S(), trees.F(), nb, i, p);
      UnlinkFirst(p, i);
      heads := InuseAndPinuse(heads, p, 8 * i);
      return p + 8;
    }

    // A chunk of small bin i is cut, and the rest becomes dv.
    method CarveNext(p: nat, nb: nat, i: nat)
      requires Binned() && nb + MIN_CHUNK <= 8 * i < MIN_LARGE && CarvedFacts(H(), nb, p, 8 * i - nb, true)
      requires i < S.NSMALLBINS && Marked(smalls.marks, i) && InBins(free, p, 8 * i)
      requires S.Head(i) in smalls.fd && smalls.fd[S.Head(i)] == S.Chunk(p)
      requires dvsize != 0 ==> dv != 0 && dv !in free && dvsize % 8 == 0 && dvsize < MIN_LARGE
      modifies `heads, `foots, `free, `at, `dv, `dvsize, smalls, trees
      ensures Binned() && H() == Carved(old(H()), p, nb, true)
    {
      hide Filed, Carved, Marked;
      UnlinkFirst(p, i);
      at := at + {p + nb};
      SplitToDv(p, nb, 8 * i - nb);
    }

    // A chunk of the next small bin in use, its rest becoming dv.
    method TakeNext(nb: nat) returns (mem: nat)
      requires Good() && Request(nb) && nb < MIN_LARGE && dvsize < nb && Shr(smalls.marks, nb / 8) != 0
      requires !Marked(smalls.marks, nb / 8) && (nb / 8 < 31 ==> !Marked(smalls.marks, nb / 8 + 1))
      modifies this, smalls, trees
      ensures contiguous == old(contiguous)
      ensures contiguous == old(contiguous)
      ensures Binned() && mem >= 8 && Tightest(old(H()), nb, mem - 8) && Preferred(old(H()), nb, mem - 8)
      ensures H() == Carved(old(H()), mem - 8, nb, true)
    {
      hide Sound, Filed, Tightest, Preferred, Carved, CarvedFacts, S.Valid, S.Holds, F.Valid, Marked, Shr, Shl32, LeftBits,
        LeastBit, BitIndex, Both, Bit;
      FiledValid(free, smalls.S(), trees.F());
      var idx := nb / 8;
      var leftbits := Both(LeftBits(Bit(idx)), Shl32(Shr(smalls.marks, idx), idx));
      ghost var j := NextSmallBin(smalls.marks, idx);
      var i := BitIndex(LeastBit(leftbits)) as nat;
      var p := smalls.First(i);
      NextSmall(H(), smalls.S(), trees.F(), nb, i, p);
      CarveNext(p, nb, i);
      return p + 8;
    }

    // The part of dlmalloc for small requests that looks into the bins.
    method TakeSmall(nb: nat) returns (mem: nat)
      requires Good() && Request(nb) && nb < MIN_LARGE
      modifies this, smalls, trees
      ensures contiguous == old(contiguous)
      ensures contiguous == old(contiguous)
      ensures Binned()
      ensures mem == 0 ==> H() == old(H()) && forall a :: !Preferred(H(), nb, a)
      ensures mem != 0 ==> mem >= 8 && Tightest(old(H()), nb, mem - 8) && Preferred(old(H()), nb, mem - 8)
      ensures mem != 0 ==> H() == Carved(old(H()), mem - 8, nb, true)
    {
      hide Sound, Filed, Tightest, Preferred, Carved, Marked, Shr;
      var idx := nb / 8;
      var smallbits := Shr(smalls.marks, idx);
      TwoBins(smalls.marks, idx);
      if smallbits & 3 != 0 {
        mem := TakeExact(nb, if !smallbits & 1 == 0 then idx else idx + 1);
        return;
      } else if nb > dvsize {
        if smallbits != 0 {
          mem := TakeNext(nb);
          return;
        }
        NoSmall(H(), smalls.S(), trees.F(), nb);
        if trees.marks != 0 {
          mem := TmallocSmall(nb);
          return;
        }
        NoLarge(H(), smalls.S(), trees.F(), nb);
      } else {
        NoExact(H(), smalls.S(), trees.F(), nb);
      }
      return 0;
    }

    // ----- memory from the system

    // init_top
    method InitTop(p: nat, psize: nat)
      modifies `heads, `top, `topsize
      ensures heads == old(heads)[p := Head(psize, true, false)][p + psize := Head(TOP_FOOT, false, false)]
      ensures top == p && topsize == psize
    {
      top := p;
      topsize := psize;
      heads := heads[p := Head(psize, true, false)];
      heads := heads[p + psize := Head(TOP_FOOT, false, false)];
    }

    // The rest of the new memory up to the chunk n is freed, with n where that is free.
    method FreeFront(q: nat, s: nat, n: nat, ghost e: nat)
      requires Binned() && n in heads && q !in free && q > 0 && q + s == n && q < e < WORD && (e - q) % 8 == 0
      requires if heads[n].cinuse then e == n else e == n + heads[n].size && InBins(free, n, heads[n].size)
      modifies `heads, `foots, `free, smalls, trees
      ensures Binned() && foots == old(foots)[e := e - q]
      ensures heads == ClearPinuse(old(heads), e)[q := Head(e - q, true, false)]
      ensures free == (if old(heads)[n].cinuse then old(free) else old(free) - {n})[q := e - q]
    {
      hide ClearPinuse, InBins;
      var oldfirst, qsize := n, s;
      if !heads[oldfirst].cinuse {
        var nsize := heads[oldfirst].size;
        UnlinkChunk(oldfirst, nsize);
        oldfirst := oldfirst + nsize;
        qsize := qsize + nsize;
      }
      SetFreeWithPinuse(q, qsize, oldfirst);
      InsertChunk(q, qsize);
    }

    // What is left of the memory in front joins what follows it.
    method JoinFront(q: nat, qsize: nat, oldfirst: nat, ghost g: Segment, ghost nb: nat, ghost h: Heap, ghost i: nat, ghost e: nat)
      requires Sound(h) && Binned() && i < |h.segs| && nb < g.size && q == g.base + nb && qsize == g.size - nb
      requires oldfirst == g.base + g.size && oldfirst in h.heads && 0 < q < e < WORD && (e - q) % 8 == 0
      requires FrontCases(h, g, nb, i, e) && q !in h.free && q != h.dv && q != oldfirst
      requires H() == h.(heads := h.heads[g.base := Head(nb, true, true)], at := Fronted(h, g, nb, i).at,
        segs := h.segs[i := Segment(g.base, h.segs[i].size + g.size)])
      modifies `heads, `foots, `free, `top, `topsize, `dv, `dvsize, smalls, trees
      ensures Binned() && Fronts(h, H(), g, nb, i)
    {
      hide Sound, Filed, ChunkOK, ClearPinuse, Fronted, FrontCases, Fronts;
      FrontAt(h, g, nb, i, e);
      if oldfirst == top {
        topsize := topsize + qsize;
        top := q;
        heads := heads[q := Head(topsize, true, false)];
      } else if oldfirst == dv {
        dvsize := dvsize + qsize;
        dv := q;
        SetFree(q, dvsize);
      } else {
        FreeFront(q, qsize, oldfirst, e);
      }
    }

    /** prepend_alloc, for the segment i that g has been put before */
    method PrependAlloc(g: Segment, oldbase: nat, nb: nat, ghost h: Heap, ghost i: nat) returns (mem: nat)
      requires Sound(h) && Binned() && Fresh(h, g.base, g.size) && Continues(h, g, i) && Request(nb)
      requires nb + MIN_CHUNK <= g.size
      requires oldbase == g.base + g.size && H() == h.(segs := h.segs[i := Segment(g.base, h.segs[i].size + g.size)])
      modifies this, smalls, trees
      ensures contiguous == old(contiguous)
      ensures Binned() && mem == g.base + 8 && Fronts(h, H(), g, nb, i)
    {
      hide Sound, Filed, ChunkOK, Apart, Places, Segmented, Freed, Gone, Back, Forth, ClearPinuse, Region, Live,
        FreeMerged, Fresh, Cut, Prepended, Fronted, FrontCases, Fronts;
      ghost var e := FrontFacts(h, g, nb, i);
      var p := g.base;
      var oldfirst := oldbase;
      var psize := oldfirst - p;
      var q := p + nb;
      var qsize := psize - nb;
      heads := heads[p := Head(nb, true, true)];
      at := Fronted(h, g, nb, i).at;
      JoinFront(q, qsize, oldfirst, g, nb, h, i, e);
      return p + 8;
    }

    // segment_holding
    method SegmentHolding(addr: nat) returns (i: nat)
      requires exists j :: 0 <= j < |segs| && HoldsAddr(segs[j], addr)
      ensures i < |segs| && HoldsAddr(segs[i], addr)
    {
      i := 0;
      while !HoldsAddr(segs[i], addr)
        invariant i < |segs| && forall j :: 0 <= j < i ==> !HoldsAddr(segs[j], addr)
        decreases |segs| - i
      {
        i := i + 1;
      }
    }

    // The trailing fenceposts.
    method SetFences(p0: nat, oldEnd: nat)
      modifies `heads
      ensures heads == Fences(old(heads), p0, oldEnd)
    {
      var p := p0;
      heads := heads[p := FENCE];
      while p + 8 < oldEnd
        invariant heads == heads[p := FENCE] && Fences(heads, p, oldEnd) == Fences(old(heads), p0, oldEnd)
        decreases oldEnd - p
      {
        p := p + 4;
        heads := heads[p := FENCE];
      }
    }

    // The new top, and the segment record with its fences.
    method PutRecord(tbase: nat, tsize: nat, sp: nat, oldEnd: nat)
      requires tsize > TOP_FOOT && sp == RecordAt(H()) && oldEnd == top + topsize + TOP_FOOT
      modifies `heads, `top, `topsize, `segs, `at, `stops, `recs
      ensures H() == Recorded(old(H()), tbase, tsize)
    {
      hide Fences;
      at, stops, recs := at + {tbase, sp}, stops - {top + topsize} + {sp + RECORD, tbase + tsize - TOP_FOOT}, recs + {sp};
      InitTop(tbase, tsize - TOP_FOOT);
      heads := heads[sp := Head(RECORD, true, true)];
      segs := [Segment(tbase, tsize)] + segs;
      SetFences(sp + RECORD, oldEnd);
    }

    /** add_segment */
    method AddSegment(tbase: nat, tsize: nat)
      requires Good() && top != 0 && Fresh(H(), tbase, tsize)
      modifies this, smalls, trees
      ensures contiguous == old(contiguous)
      ensures Binned() && H() == Added(old(H()), tbase, tsize)
    {
      hide Sound, Filed, ChunkOK, Apart, Places, Fresh, Added, Recorded, ClearPinuse;
      ghost var h := H();
      FreshSize(h, tbase, tsize);
      AddedIs(h, tbase, tsize);
      FirstSegment(h);
      AddFacts(h);
      var oldTop := top;
      var j := SegmentHolding(oldTop);
      OneSegment(h, j, oldTop);
      var oldEnd := segs[j].base + segs[j].size;
      RecordPlace(oldEnd);
      var rawsp := oldEnd - (Padded(16) + 16 + 7);
      var offset := (8 - (rawsp + 8) % 8) % 8;
      var asp := rawsp + offset;
      var sp: nat := if asp < oldTop + MIN_CHUNK then oldTop else asp;
      PutRecord(tbase, tsize, sp, oldEnd);
      if sp != oldTop {
        SetFreeWithPinuse(oldTop, sp - oldTop, sp);
        InsertChunk(oldTop, sp - oldTop);
      }
    }

    // The first segment of a new heap.
    method StartTop(g: Segment)
      requires Good() && top == 0 && TOP_FOOT < g.size
      modifies `heads, `top, `topsize, `segs, `at, `stops, `recs
      ensures Binned() && H() == Started(old(H()), g.base, g.size) && old(H()).segs == []
    {
      hide Sound, Filed, Started;
      EmptyBefore(H());
      StartedIs(H(), g);
      segs := [g];
      InitTop(g.base, g.size - TOP_FOOT);
      at, stops, recs := {g.base}, {g.base + g.size - TOP_FOOT}, {};
    }

    // The first segment and its top grow.
    method GrowFirst(size: nat)
      requires Binned() && segs != []
      modifies `heads, `top, `topsize, `segs, `stops
      ensures Binned() && H() == Appended(old(H()), size)
    {
      hide Filed;
      segs := segs[0 := Segment(segs[0].base, segs[0].size + size)];
      stops := stops - {top + topsize} + {top + topsize + size};
      InitTop(top, topsize + size);
    }

    // The part of sys_alloc behind the calls of the system.
    method UseMemory(nb: nat, offer: Offer) returns (mem: nat)
      requires Good() && (Request(nb) || nb == WORD - 1) && Offered(H(), nb, offer)
      modifies this, smalls, trees
      ensures contiguous == old(contiguous)
      ensures Binned() && SystemAnswer(old(H()), H(), nb, offer, mem)
    {
      hide Sound, Filed, ChunkOK, Apart, Places, Added, Started, Appended, Extended, Fresh, Unused, Fronts, SplitTop,
        SystemAnswer, InFront, Offered;
      ghost var h := H();
      if offer == None {
        AnswerNone(h, nb);
        return 0;
      }
      var g := offer.seg;
      OfferFacts(h, nb, offer);
      if top == 0 {
        StartTop(g);
        ExtendedIs(h, g);
        NotInFront(h, g);
      } else {
        FirstSegment(h);
        AddFacts(h);
        var i := 0;
        while i < |segs| && g.base != segs[i].base + segs[i].size
          invariant i <= |segs| && forall j :: 0 <= j < i ==> g.base != segs[j].base + segs[j].size
        {
          i := i + 1;
        }
        if i < |segs| && HoldsAddr(segs[i], top) {
          OneSegment(h, i, top);
          GrowFirst(g.size);
          ExtendedIs(h, g);
          NotInFront(h, g);
        } else {
          EndsOnce(h, i, g);
          i := 0;
          while i < |segs| && segs[i].base != g.base + g.size
            invariant i <= |segs| && forall j :: 0 <= j < i ==> segs[j].base != g.base + g.size
          {
            i := i + 1;
          }
          if i < |segs| {
            var oldbase := segs[i].base;
            segs := segs[i := Segment(g.base, segs[i].size + g.size)];
            OfferFront(h, nb, offer, i);
            mem := PrependAlloc(g, oldbase, nb, h, i);
            AnswerFront(h, H(), nb, g, mem, i);
            return;
          } else {
            AddSegment(g.base, g.size);
            ExtendedIs(h, g);
            NotInFront(h, g);
          }
        }
      }
      if nb < topsize {
        var p := top;
        mem := p + 8;
        TakeTop(nb);
      } else {
        mem := 0;
      }
      AnswerExtended(h, H(), nb, g, mem);
    }

    // The calls of the system in sys_alloc: first for contiguous memory, then for any.
    method Acquire(nb: nat, a: Answers) returns (offer: Offer)
      requires nb < WORD && (top != 0 ==> segs != [] && HoldsAddr(segs[0], top)) && (top == 0 ==> topsize == 0)
      requires top != 0 ==> forall i :: 0 < i < |segs| ==> !HoldsAddr(segs[i], top)
      modifies `contiguous
      ensures offer == Acquired(H(), nb, old(contiguous), a)
      ensures contiguous == (old(contiguous) && FirstWay(H(), nb, a).Some?)
    {
      hide Granular, PageRest, Wanted;
      offer := None;
      if contiguous {
        var br, asize: nat := -1, 0;
        if top == 0 {
          var base := a.brk;
          if base >= 0 {
            asize := Granular(Wanted(nb));
            asize := (asize + PageRest(base)) % WORD;
            if asize < HALF_MAX {
              br := a.br;
              if br == base {
                offer := Some(Segment(br, asize));
              }
            }
          }
        } else {
          var i := SegmentHolding(top);
          asize := Asked(nb, topsize);
          if asize < HALF_MAX {
            br := a.br;
            if br == segs[i].base + segs[i].size {
              offer := Some(Segment(br, asize));
            }
          }
        }
        if offer == None {
          if br >= 0 && asize < HALF_MAX && asize < Wanted(nb) {
            var esize := Granular((Wanted(nb) - asize) % WORD);
            if esize < HALF_MAX {
              if a.more >= 0 {
                asize := (asize + esize) % WORD;
              } else {
                br := -1;
              }
            }
          }
          if br >= 0 {
            offer := Some(Segment(br, asize));
          } else {
            contiguous := false;
          }
        }
      }
      if offer == None {
        var asize := Granular(Wanted(nb));
        if asize < HALF_MAX {
          var br := a.again;
          var end := a.end;
          if br >= 0 && end >= 0 && br < end {
            var ssize := end - br;
            if ssize > (nb + TOP_FOOT) % WORD {
              offer := Some(Segment(br, ssize));
            }
          }
        }
      }
    }

    /** sys_alloc */
    method SysAlloc(nb: nat, a: Answers) returns (mem: nat)
      requires Good() && (Request(nb) || nb == WORD - 1) && topsize <= nb && Supplied(H(), nb, contiguous, a)
      modifies this, smalls, trees
      ensures Binned() && SystemAnswer(old(H()), H(), nb, Acquired(old(H()), nb, old(contiguous), a), mem)
      ensures Request(nb) && nb + 552 < WORD ==> contiguous == FirstGives(old(H()), nb, old(contiguous), a)
      ensures Request(nb) && nb + 552 < WORD && old(topsize) + 256 < HALF_MAX ==>
        Supplies(old(H()), H(), nb, old(contiguous), a, mem)
    {
      hide Sound, Filed, Supplied, Acquired, SystemAnswer, Supplies, FirstGives, FirstWay, Honest;
      ghost var h, c := H(), contiguous;
      SuppliedOffered(h, nb, c, a);
      SuppliedHonest(h, nb, c, a);
      OnlyFirst(h);
      var offer := Acquire(nb, a);
      mem := UseMemory(nb, offer);
      if Request(nb) && nb + 552 < WORD {
        AcquiredExactly(h, nb, c, a);
        if h.topsize + 256 < HALF_MAX { SystemSupplies(h, H(), nb, c, a, mem); }
      }
    }

    // The front of top is given away.
    method TakeTop(nb: nat)
      requires nb < topsize
      modifies `heads, `top, `topsize, `at
      ensures H() == SplitTop(old(H()), nb)
    {
      topsize := topsize - nb;
      var p := top;
      top := p + nb;
      heads := heads[top := Head(topsize, true, false)];
      heads := heads[p := Head(nb, true, true)];
      at := at + {top};
    }

    // dv is split, or used up.
    method TakeDv(nb: nat)
      requires Sound(H()) && Binned() && Request(nb) && nb <= dvsize
      modifies `heads, `foots, `dv, `dvsize, `at
      ensures H() == Carved(old(H()), old(dv), nb, true)
    {
      hide Sound, Filed, Carved;
      DvCarved(H(), nb);
      var rsize := dvsize - nb;
      var p := dv;
      if rsize >= MIN_CHUNK {
        var r := p + nb;
        dv := r;
        dvsize := rsize;
        SetFree(r, rsize);
        heads := heads[p := Head(nb, true, true)];
        at := at + {r};
      } else {
        var dvs := dvsize;
        dvsize := 0;
        dv := 0;
        heads := InuseAndPinuse(heads, p, dvs);
      }
    }

    /** dlmalloc */
    method Malloc(bytes: nat, a: Answers) returns (mem: nat)
      requires Good() && bytes < WORD && Served(H(), ChunkFor(bytes), contiguous, a)
      modifies this, smalls, trees
      ensures Good()
      ensures Answered(old(H()), H(), ChunkFor(bytes), Acquired(old(H()), ChunkFor(bytes), old(contiguous), a), mem)
      ensures if mem == 0 then Live(H()) == Live(old(H())) else NewBlock(old(H()), H(), ChunkFor(bytes), mem)
      ensures var nb := ChunkFor(bytes);
        if Chosen(old(H()), nb, 0) then nb + 552 < WORD ==>
          && contiguous == FirstGives(old(H()), nb, old(contiguous), a)
          && (old(topsize) + 256 < HALF_MAX ==> Supplies(old(H()), H(), nb, old(contiguous), a, mem))
        else mem != 0 && contiguous == old(contiguous)
    {
      hide FirstGives, Supplies, Sound, Filed, Carved, Tightest, Preferred, Answered, NewBlock, Offered, Live, SystemAnswer, Served,
        Acquired;
      ghost var h, offer := H(), Acquired(H(), ChunkFor(bytes), contiguous, a);
      ForRequest(bytes);
      ServedOffered(h, ChunkFor(bytes), contiguous, a);
      var nb: nat;
      if bytes <= MAX_SMALL_REQUEST {
        nb := if bytes < MIN_REQUEST then MIN_CHUNK else Padded(bytes);
        mem := TakeSmall(nb);
        if mem != 0 {
          BinAnswered(h, H(), nb, offer, mem - 8);
          AnsweredSound(h, H(), nb, offer, mem);
          return;
        }
      } else if bytes >= MAX_REQUEST {
        nb := WORD - 1;
        NonePreferred(h, nb);
      } else {
        nb := Padded(bytes);
        if trees.marks != 0 {
          mem := TmallocLarge(nb);
          if mem != 0 {
            BinAnswered(h, H(), nb, offer, mem - 8);
            AnsweredSound(h, H(), nb, offer, mem);
            return;
          }
        } else {
          NoLarge(h, smalls.S(), trees.F(), nb);
        }
      }
      if nb <= dvsize {
        mem := dv + 8;
        TakeDv(nb);
        DvAnswered(h, H(), nb, offer);
      } else if nb < topsize {
        mem := top + 8;
        TakeTop(nb);
        TopAnswered(h, H(), nb, offer);
      } else {
        NoRoom(h, nb, contiguous, a);
        mem := SysAlloc(nb, a);
        NewAnswered(h, H(), nb, offer, mem);
      }
      AnsweredSound(h, H(), nb, offer, mem);
    }

    // ----- realloc

    // A chunk in use is cut in two, front first.
    method CutInuse(p: nat, nb: nat, z: nat)
      requires p in heads && heads[p].size == z && 0 < nb < z && p + z in heads
      modifies `heads, `at
      ensures H() == Cut(old(H()), p, nb)
    {
      ghost var was := heads;
      heads := Inuse(heads, p, nb);
      heads := Inuse(heads, p + nb, z - nb);
      at := at + {p + nb};
      assert heads == was[p := Head(nb, was[p].pinuse, true)][p + nb := Head(z - nb, true, true)][p + z := was[p + z].(pinuse := true)];
    }

    // A chunk in use before top takes nb bytes of both.
    method GrowIntoTop(p: nat, nb: nat, z: nat)
      requires p in heads && heads[p].size == z && 0 < z <= nb < z + topsize && top == p + z
      modifies `heads, `top, `topsize, `at
      ensures H() == GrowTop(old(H()), p, nb)
    {
      ghost var was := heads;
      var newsize := z + topsize;
      var newtopsize := newsize - nb;
      var newtop := p + nb;
      heads := Inuse(heads, p, nb);
      heads := heads[newtop := Head(newtopsize, true, false)];
      at := at - {top} + {newtop};
      top := newtop;
      topsize := newtopsize;
      assert heads == was[p := Head(nb, was[p].pinuse, true)][newtop := Head(newtopsize, true, false)];
    }

    /** internal_realloc: the new address, 0 when there is no room, and how many bytes are copied: all the old
        block holds. */
    method InternalRealloc(mem: nat, bytes: nat, a: Answers) returns (newmem: nat, copied: nat)
      requires Good() && mem >= 8 && mem - 8 in Live(H()) && 0 < bytes < WORD
      requires Moves(H(), mem, bytes) ==> Served(H(), ChunkFor(bytes), contiguous, a)
      modifies this, smalls, trees
      ensures Good() && Reaches(old(H()), H())
      ensures newmem == 0 ==> Live(H()) == Live(old(H()))
      ensures newmem != 0 ==> bytes < MAX_REQUEST && Resized(old(H()), H(), mem, newmem, bytes)
      ensures newmem != 0 && newmem != mem ==> copied == Live(old(H()))[mem - 8] - 4 < bytes
      ensures newmem == 0 || newmem == mem ==> copied == 0
      ensures Outcome(old(H()), H(), mem, bytes, old(contiguous), a, newmem)
      ensures bytes < MAX_REQUEST ==> Fitted(old(H()), H(), mem, newmem, bytes)
    {
      hide Reaches, Step, Got, Sound, Filed, Live, Answered, NewBlock, Served, Acquired, ChunkOK, Freed, Cut, GrowTop;
      ghost var h := H();
      newmem, copied := 0, 0;
      ReachesSame(h);
      if bytes >= MAX_REQUEST { return; }
      ForRequest(bytes);
      RequestFits(bytes);
      var p: nat := mem - 8;
      InUseThere(h, p);
      var oldsize := heads[p].size;
      var next := p + oldsize;
      var nb := RequestSize(bytes);
      TopBelow(h);
      if oldsize >= nb {
        var rsize := oldsize - nb;
        if rsize >= MIN_CHUNK {
          CutSound(h, p, nb);
          CutStep(h, p, nb);
          CutInuse(p, nb, oldsize);
          ghost var h1 := H();
          ReachesMore(h, h, h1);
          Free(p + nb + 8);
          FreeStep(h1, p + nb);
          ReachesMore(h, h1, H());
          ShrunkLive(h, H(), p, nb, oldsize);
        }
        return mem, 0;
      } else if next == top && oldsize + topsize > nb {
        GrowSound(h, p, nb);
        GrowStep(h, p, nb);
        GrowIntoTop(p, nb, oldsize);
        ReachesMore(h, h, H());
        return mem, 0;
      }
      ghost var c := contiguous;
      newmem := Malloc(bytes, a);
      ghost var h1 := H();
      MallocStep(h, h1, nb, c, a, newmem);
      ReachesMore(h, h, h1);
      assert newmem == 0 ==> MovedBy(h, h1, h1, nb, Acquired(h, nb, c, a), mem, newmem);
      if newmem != 0 {
        MovedLive(h, H(), p, nb, newmem);
        var oc := oldsize - 4;
        copied := Min(oc, bytes);
        Free(mem);
        FreeStep(h1, p);
        ReachesMore(h, h1, H());
        assert MovedBy(h, h1, H(), nb, Acquired(h, nb, c, a), mem, newmem);
      }
    }

    /** dlrealloc */
    method Realloc(mem: nat, bytes: nat, a: Answers) returns (newmem: nat, copied: nat)
      requires Good() && (mem == 0 || (mem >= 8 && mem - 8 in Live(H()))) && bytes < WORD
      requires mem == 0 || Moves(H(), mem, bytes) ==> Served(H(), ChunkFor(bytes), contiguous, a)
      modifies this, smalls, trees
      ensures Good() && Reaches(old(H()), H())
      ensures mem == 0 ==>
        Answered(old(H()), H(), ChunkFor(bytes), Acquired(old(H()), ChunkFor(bytes), old(contiguous), a), newmem)
      ensures mem != 0 && bytes == 0 ==> newmem == 0 && Live(H()) == Live(old(H())) - {mem - 8}
      ensures mem != 0 && bytes > 0 ==>
        if newmem == 0 then Live(H()) == Live(old(H())) else bytes < MAX_REQUEST && Resized(old(H()), H(), mem, newmem, bytes)
      ensures mem != 0 && newmem != 0 && newmem != mem ==> copied == Live(old(H()))[mem - 8] - 4 < bytes
      ensures mem != 0 && bytes == 0 ==> H() == Freed(old(H()), mem - 8)
      ensures mem != 0 && bytes > 0 ==> Outcome(old(H()), H(), mem, bytes, old(contiguous), a, newmem)
      ensures mem != 0 && 0 < bytes < MAX_REQUEST ==> Fitted(old(H()), H(), mem, newmem, bytes)
    {
      hide Fitted, Reaches, Step, Got, Sound, Filed, Live, Answered, NewBlock, Served, Acquired, Resized, Outcome, Moves, Freed;
      ghost var h, c := H(), contiguous;
      copied := 0;
      ReachesSame(h);
      if mem == 0 {
        newmem := Malloc(bytes, a);
        ForRequest(bytes);
        MallocStep(h, H(), ChunkFor(bytes), c, a, newmem);
        ReachesMore(h, h, H());
      } else if bytes == 0 {
        Free(mem);
        FreeStep(h, mem - 8);
        ReachesMore(h, h, H());
        newmem := 0;
      } else {
        newmem, copied := InternalRealloc(mem, bytes, a);
      }
    }

    // ----- memalign

    // The rounding loop.
    method RoundAlignment(alignment: nat) returns (a: nat)
      requires 8 < alignment <= 0x8000_0000
      ensures a == RoundUp(alignment)
    {
      a := alignment;
      if a < MIN_CHUNK {
        a := MIN_CHUNK;
      }
      if !PowerOfTwo(a) {
        var b := a;
        a := 16;
        while a < b
          invariant 0 < a && RoundFrom(a, b) == RoundFrom(16, b)
          decreases b - a
        {
          assert Shl(a, 1) == 2 * a;
          a := Shl(a, 1);
        }
      }
    }

    // A chunk in use is cut in two, rest first.
    method CutBack(p: nat, lead: nat, z: nat)
      requires p in heads && heads[p].size == z && 0 < lead < z && p + z in heads
      modifies `heads, `at
      ensures H() == Cut(old(H()), p, lead)
    {
      ghost var was := heads;
      heads := Inuse(heads, p + lead, z - lead);
      heads := Inuse(heads, p, lead);
      at := at + {p + lead};
      assert heads == was[p := Head(lead, was[p].pinuse, true)][p + lead := Head(z - lead, true, true)][p + z := was[p + z].(pinuse := true)];
    }

    /** internal_memalign; h1 is the heap after the malloc of m1 */
    method Memalign(alignment: nat, bytes: nat, ans: Answers) returns (mem: nat, ghost h1: Heap, ghost m1: nat)
      requires Good() && alignment <= 0x8000_0000 && bytes < WORD
      requires alignment <= 8 ==> Served(H(), ChunkFor(bytes), contiguous, ans)
      requires alignment > 8 && bytes < MAX_REQUEST - RoundUp(alignment) ==>
        Served(H(), ChunkFor(AlignRequest(alignment, bytes)), contiguous, ans)
      modifies this, smalls, trees
      ensures Good() && Reaches(old(H()), H())
      ensures alignment <= 8 ==>
        Answered(old(H()), H(), ChunkFor(bytes), Acquired(old(H()), ChunkFor(bytes), old(contiguous), ans), mem)
      ensures mem == 0 ==> Live(H()) == Live(old(H()))
      ensures mem != 0 && alignment > 8 ==> bytes < MAX_REQUEST
      ensures alignment > 8 && bytes >= MAX_REQUEST - RoundUp(alignment) ==> mem == 0 && H() == old(H())
      ensures alignment > 8 && bytes < MAX_REQUEST - RoundUp(alignment) ==>
        && (mem == 0 <==> m1 == 0) && (m1 == 0 ==> H() == h1)
        && var nb := ChunkFor(AlignRequest(alignment, bytes));
           Answered(old(H()), h1, nb, Acquired(old(H()), nb, old(contiguous), ans), m1)
      ensures mem != 0 && alignment > 8 ==>
        && AlignedFrom(h1, m1, H(), alignment, RequestSize(bytes), mem)
        && AlignedNew(old(H()), H(), alignment, RequestSize(bytes), mem)
    {
      hide Reaches, Step, Got, Sound, Filed, Live, Answered, NewBlock, Served, Acquired, ChunkOK, Freed, Cut,
        RoundDown, Aligned, AlignedNew, AlignedBlock, RoundUp, RequestSize;
      ghost var h := H();
      mem, h1, m1 := 0, h, 0;
      ghost var c := contiguous;
      ReachesSame(h);
      if alignment <= 8 {
        mem := Malloc(bytes, ans);
        ForRequest(bytes);
        MallocStep(h, H(), ChunkFor(bytes), c, ans, mem);
        ReachesMore(h, h, H());
        return;
      }
      var a := RoundAlignment(alignment);
      RoundUpLeast(alignment, 4);
      if bytes >= MAX_REQUEST - a {
        return;
      }
      RequestFits(bytes);
      var nb := RequestSize(bytes);
      var req := nb + a + MIN_CHUNK - 4;
      mem := Malloc(req, ans);
      m1 := mem;
      h1 := H();
      ForRequest(req);
      MallocStep(h, h1, ChunkFor(req), c, ans, mem);
      ReachesMore(h, h, h1);
      if mem != 0 {
        RoomToAlign(h, h1, alignment, bytes, mem);
        LeadFits(mem - 8, a);
        ghost var lead := LeadSize(mem - 8, a);
        AlignedSound(h1, mem - 8, lead, nb);
        AlignedIsNew(h, h1, alignment, nb, m1);
        AlignedReaches(h, h1, mem - 8, lead, nb);
        mem := CutAligned(mem, a, nb);
      }
    }

    // The part of internal_memalign behind the malloc.
    method CutAligned(m1: nat, a: nat, nb: nat) returns (mem: nat)
      requires Good() && m1 >= 8 && a % 8 == 0 && a >= MIN_CHUNK && Aligns(H(), m1 - 8, LeadSize(m1 - 8, a), nb)
      modifies this, smalls, trees
      ensures contiguous == old(contiguous)
      ensures Good() && H() == Aligned(old(H()), m1 - 8, LeadSize(m1 - 8, a), nb) && mem == m1 + LeadSize(m1 - 8, a)
    {
      hide Sound, Filed, Live, ChunkOK, Freed, Cut, RoundDown, Aligned, LeadSize;
      ghost var h1 := H();
      var p: nat := m1 - 8;
      ghost var lead := LeadSize(p, a);
      InUseThere(h1, p);
      LeadCode(p, a);
      AlignedSteps(h1, p, lead, nb);
      AlignedSound(h1, p, lead, nb);
      var leader, trailer := 0, 0;
      if !OnMultiple(m1, a) {
        var br: nat := RoundDown(m1 + a - 1, a) - 8;
        var pos := if br - p >= MIN_CHUNK then br else br + a;
        var leadsize: nat := pos - p;
        CutBack(p, leadsize, heads[p].size);
        leader := p + 8;
        p := pos;
      }
      var size := heads[p].size;
      if size > nb + MIN_CHUNK {
        CutInuse(p, nb, size);
        trailer := p + nb + 8;
      }
      if leader != 0 {
        Free(leader);
      }
      if trailer != 0 {
        Free(trailer);
      }
      return p + 8;
    }
  }

  // What internal_memalign asks dlmalloc for.
  function AlignRequest(alignment: nat, bytes: nat): nat {
    RequestSize(bytes) + RoundUp(alignment) + MIN_CHUNK - 4
  }

  /** Less than the alignment and 32 bytes more than what the caller wants. */
  lemma AlignRequestSmall(alignment: nat, bytes: nat)
    requires bytes < MAX_REQUEST
    ensures bytes + RoundUp(alignment) + 16 <= AlignRequest(alignment, bytes) < bytes + RoundUp(alignment) + 32
  {
    hide RoundUp;
    RequestFits(bytes);
  }

  // mem is a new aligned block of at least nb bytes with its head, apart from all others.
  ghost predicate AlignedNew(h: Heap, h': Heap, alignment: nat, nb: nat, mem: nat) {
    && alignment > 8 && RoundUp(alignment) >= MIN_CHUNK && OnMultiple(mem, RoundUp(alignment))
    && mem > 8 && mem - 8 !in Live(h) && mem - 8 in Live(h')
    && nb <= Live(h')[mem - 8] <= nb + MIN_CHUNK && Live(h') == Live(h)[mem - 8 := Live(h')[mem - 8]]
  }

  function Min(a: nat, b: nat): nat {
    if a < b then a else b
  }

  // The chunk p can keep its place for nb bytes.
  ghost predicate Stays(h: Heap, p: nat, nb: nat) {
    nb <= Size(h, p) || (Next(h, p) == h.top && nb < Size(h, p) + h.topsize)
  }

  /** The block at mem has become the one at newmem, large enough for the bytes; the others are as they were. */
  ghost predicate Resized(h: Heap, h': Heap, mem: nat, newmem: nat, bytes: nat) {
    && mem >= 8 && newmem >= 8 && newmem - 8 in Live(h') && bytes + 4 <= Live(h')[newmem - 8]
    && Live(h') == (Live(h) - {mem - 8})[newmem - 8 := Live(h')[newmem - 8]]
    && (newmem == mem || newmem - 8 !in Live(h))
  }

  /** The block keeps its place exactly when it is large enough or top behind it is; what it does not need is given
      back unless it is too small for a chunk, and top gives no more than is needed. A block with a new place wastes
      less than a minimal chunk, too. */
  ghost predicate Fitted(h: Heap, h': Heap, mem: nat, newmem: nat, bytes: nat) {
    var nb := RequestSize(bytes);
    && mem >= 8 && mem - 8 in Live(h)
    && var z := Live(h)[mem - 8];
    && (newmem == mem <==> nb <= z || (mem - 8 + z == h.top && nb < z + h.topsize))
    && (newmem != 0 ==> newmem >= 8 && newmem - 8 in Live(h') && nb <= Live(h')[newmem - 8] < nb + MIN_CHUNK)
    && (newmem == mem ==> Live(h')[mem - 8] == if nb <= z < nb + MIN_CHUNK then z else nb)
  }

  // realloc has to find another place.
  ghost predicate Moves(h: Heap, mem: nat, bytes: nat) {
    0 < bytes < MAX_REQUEST && mem >= 8 && !Stays(h, mem - 8, RequestSize(bytes))
  }

  /** The heap when the chunk p stays where it is: cut, with what is left freed, or grown into top. */
  function Stayed(h: Heap, p: nat, nb: nat): Heap {
    if p !in h.heads || Next(h, p) !in h.heads then h
    else if nb <= Size(h, p) then if Size(h, p) - nb >= MIN_CHUNK then Freed(Cut(h, p, nb), p + nb) else h
    else if nb < Size(h, p) + h.topsize then GrowTop(h, p, nb)
    else h
  }

  // The new place comes from malloc, then the old one is freed.
  ghost predicate MovedBy(h: Heap, h1: Heap, h': Heap, nb: nat, offer: Offer, mem: nat, newmem: nat) {
    Answered(h, h1, nb, offer, newmem) && mem >= 8 && h' == if newmem == 0 then h1 else Freed(h1, mem - 8)
  }

  /** What realloc comes to: nothing for a request that is too big; the same place where the chunk or top has
      the room; otherwise another place, 0 only when malloc finds none. */
  ghost predicate Outcome(h: Heap, h': Heap, mem: nat, bytes: nat, contiguous: bool, a: Answers, newmem: nat) {
    var nb := RequestSize(bytes);
    if bytes >= MAX_REQUEST then newmem == 0 && h' == h
    else if mem >= 8 && Stays(h, mem - 8, nb) then newmem == mem && h' == Stayed(h, mem - 8, nb)
    else newmem != mem && exists h1 :: MovedBy(h, h1, h', nb, Acquired(h, nb, contiguous, a), mem, newmem)
  }

  // The size of chunk asked for; the largest word when the request is too big.
  function ChunkFor(bytes: nat): nat {
    if bytes >= MAX_REQUEST then WORD - 1 else RequestSize(bytes)
  }

  lemma ForRequest(bytes: nat)
    requires bytes < WORD
    ensures bytes < MAX_REQUEST ==>
      Request(ChunkFor(bytes)) && (ChunkFor(bytes) < MIN_LARGE <==> bytes <= MAX_SMALL_REQUEST)
    ensures bytes >= MAX_REQUEST ==> ChunkFor(bytes) == WORD - 1
  {
    if bytes < MAX_REQUEST { RequestFits(bytes); }
  }

  lemma NonePreferred(h: Heap, nb: nat)
    requires Sound(h) && nb == WORD - 1
    ensures forall a :: !Preferred(h, nb, a)
    ensures h.dvsize < nb && h.topsize < nb
  {
    hide Sound;
    DvSize(h);
    TopBelow(h);
    forall a | a in h.free
      ensures h.free[a] < WORD - 1
    {
      InBin(h, a);
    }
  }

  // What giving nb bytes of dv away changes, part by part.
  ghost predicate DvFacts(h: Heap, nb: nat) {
    var r, rsize, h' := h.dv + nb, h.dvsize - nb, Carved(h, h.dv, nb, true);
    && nb <= h.dvsize
    && (rsize >= MIN_CHUNK ==>
      (h' == h.(heads := h.heads[r := Head(rsize, true, false)][h.dv := Head(nb, true, true)], foots := h.foots[r + rsize := rsize],
                at := h.at + {r}, dv := r, dvsize := rsize)))
    && (rsize < MIN_CHUNK ==> h' == h.(heads := InuseAndPinuse(h.heads, h.dv, h.dvsize), dv := 0, dvsize := 0))
  }

  lemma DvCarved(h: Heap, nb: nat)
    requires Sound(h) && Request(nb) && nb <= h.dvsize
    ensures DvFacts(h, nb)
  {
    hide Sound;
    DvSize(h);
    DvThere(h);
    var r, rsize := h.dv + nb, h.dvsize - nb;
    assert h.heads[r := Head(rsize, true, false)][h.dv := Head(nb, true, true)] == h.heads[h.dv := Head(nb, true, true)][r := Head(rsize, true, false)];
    assert h.free - {h.dv} == h.free;
  }

  lemma BinAnswered(h: Heap, h': Heap, nb: nat, offer: Offer, p: nat)
    requires Sound(h) && Request(nb) && Tightest(h, nb, p) && Preferred(h, nb, p)
    requires h' == Carved(h, p, nb, nb < MIN_LARGE)
    ensures Answered(h, h', nb, offer, p + 8) && !Chosen(h, nb, 0)
  {
    hide Sound;
    InBin(h, p);
    assert !Tightest(h, nb, 0) by { if 0 in h.free { InBin(h, 0); } }
  }

  lemma DvAnswered(h: Heap, h': Heap, nb: nat, offer: Offer)
    requires Sound(h) && Request(nb) && nb <= h.dvsize && (forall a :: !Preferred(h, nb, a))
    requires h' == Carved(h, h.dv, nb, true)
    ensures Answered(h, h', nb, offer, h.dv + 8) && !Chosen(h, nb, 0)
  {
    hide Sound, Preferred;
    DvSize(h);
    DvThere(h);
  }

  lemma TopAnswered(h: Heap, h': Heap, nb: nat, offer: Offer)
    requires Sound(h) && Request(nb) && h.dvsize < nb < h.topsize && (forall a :: !Preferred(h, nb, a))
    requires h' == SplitTop(h, nb)
    ensures Answered(h, h', nb, offer, h.top + 8) && !Chosen(h, nb, 0)
  {
    hide ChunkOK, Apart, Segmented, Preferred;
    PlacesOf(h);
  }

  // Nothing fits: the system is needed.
  lemma NoRoom(h: Heap, nb: nat, contiguous: bool, a: Answers)
    requires h.dvsize < nb && h.topsize <= nb && (forall a :: !Preferred(h, nb, a)) && Served(h, nb, contiguous, a)
    ensures Supplied(h, nb, contiguous, a)
  {
    hide Preferred, Supplied;
  }

  lemma NewAnswered(h: Heap, h': Heap, nb: nat, offer: Offer, mem: nat)
    requires h.dvsize < nb && h.topsize <= nb && (forall a :: !Preferred(h, nb, a))
    requires SystemAnswer(h, h', nb, offer, mem)
    ensures Answered(h, h', nb, offer, mem)
  {
    hide Preferred, SystemAnswer;
  }

  // segment_holds
  predicate HoldsAddr(g: Segment, addr: nat) {
    g.base <= addr < g.base + g.size
  }

  lemma FirstSegment(h: Heap)
    requires Sound(h) && h.top != 0
    ensures h.segs != [] && HoldsAddr(h.segs[0], h.top)
  {
    AroundTop(h);
  }

  // No two segments hold one address.
  lemma OneSegment(h: Heap, i: nat, addr: nat)
    requires Sound(h) && i < |h.segs| && HoldsAddr(h.segs[i], addr) && HoldsAddr(h.segs[0], addr)
    ensures i == 0
  {
    SegmentsApart(h, 0, i);
  }

  // Only one segment ends where the new memory begins.
  lemma EndsOnce(h: Heap, i: nat, g: Segment)
    requires Sound(h) && h.top != 0 && i <= |h.segs| && forall j :: 0 <= j < i ==>
      g.base != h.segs[j].base + h.segs[j].size
    requires i < |h.segs| ==> g.base == h.segs[i].base + h.segs[i].size && !HoldsAddr(h.segs[i], h.top)
    ensures !Behind(h, g)
  {
    FirstSegment(h);
  }

  lemma AddFacts(h: Heap)
    requires Sound(h) && h.top != 0
    ensures h.segs != [] && h.segs[0].base + h.segs[0].size == h.top + h.topsize + TOP_FOOT < WORD
    ensures h.top % 8 == 0 && h.topsize % 8 == 0 && h.topsize > 0 && h.top !in h.free
  {
    hide ChunkOK, Segmented, Apart;
    AroundTop(h);
    PlacesOf(h);
  }

  lemma RecordPlace(end: nat)
    requires end % 8 == 0 && end >= 47
    ensures Padded(16) == RECORD && end - 47 + (8 - (end - 47 + 8) % 8) % 8 == end - TOP_FOOT
  {
  }

  lemma AddedIs(h: Heap, base: nat, size: nat)
    requires Adds(h, base, size) && size > TOP_FOOT
    ensures var t, sp, h' := h.top, RecordAt(h), Recorded(h, base, size);
      && (sp == t ==> Added(h, base, size) == h')
      && (sp != t ==> sp == t + h.topsize)
      && (sp != t ==> Added(h, base, size) == h'.(heads := ClearPinuse(h'.heads, sp)[t := Head(h.topsize, true, false)],
                                                 foots := h'.foots[sp := h.topsize], free := h'.free[t := h.topsize]))
      && h'.free == h.free
  {
    hide Fences, Fresh, Sound;
  }

  lemma FreshSize(h: Heap, base: nat, size: nat)
    requires Fresh(h, base, size)
    ensures size > TOP_FOOT
  {
  }

  lemma OfferFacts(h: Heap, nb: nat, offer: Offer)
    requires Offered(h, nb, offer) && offer.Some?
    ensures h.top != 0 && Behind(h, offer.seg) ==> Unused(h, offer.seg.base, offer.seg.size) && offer.seg.size < WORD
    ensures !(h.top != 0 && Behind(h, offer.seg)) ==>
      Fresh(h, offer.seg.base, offer.seg.size) && TOP_FOOT < offer.seg.size < WORD
  {
  }

  // The top chunk is in the first segment, and in no other one.
  lemma OnlyFirst(h: Heap)
    requires Sound(h)
    ensures h.top == 0 ==> h.topsize == 0
    ensures h.top != 0 ==> h.segs != [] && HoldsAddr(h.segs[0], h.top) && forall i :: 0 < i < |h.segs| ==> !HoldsAddr(h.segs[i], h.top)
  {
    hide ChunkOK, Apart;
    TopOrNothing(h);
    if h.top != 0 {
      FirstSegment(h);
      forall i | 0 < i < |h.segs|
        ensures !HoldsAddr(h.segs[i], h.top)
      {
        if HoldsAddr(h.segs[i], h.top) { OneSegment(h, i, h.top); }
      }
    }
  }

  lemma AnswerNone(h: Heap, nb: nat)
    ensures SystemAnswer(h, h, nb, None, 0)
  {
  }

  // Which way new memory is taken.
  lemma ExtendedIs(h: Heap, g: Segment)
    ensures h.top != 0 && Behind(h, g) ==> Extended(h, g) == Appended(h, g.size)
    ensures h.top == 0 && g.size > TOP_FOOT ==> Extended(h, g) == Started(h, g.base, g.size)
    ensures h.top != 0 && !Behind(h, g) && g.size > TOP_FOOT ==> Extended(h, g) == Added(h, g.base, g.size)
  {
    hide Appended, Started, Added;
  }

  lemma NotInFront(h: Heap, g: Segment)
    requires h.segs == [] || (h.top != 0 && Behind(h, g)) || forall j :: 0 <= j < |h.segs| ==>
      h.segs[j].base != g.base + g.size
    ensures !InFront(h, g)
  {
  }

  lemma OfferFront(h: Heap, nb: nat, offer: Offer, i: nat)
    requires Offered(h, nb, offer) && offer.Some? && (Request(nb) || nb == WORD - 1)
    requires !(h.top != 0 && Behind(h, offer.seg)) && Continues(h, offer.seg, i)
    ensures Request(nb) && nb + MIN_CHUNK <= offer.seg.size
  {
    hide Apart;
    assert offer.seg.size < WORD;
  }

  lemma AnswerFront(h: Heap, h': Heap, nb: nat, g: Segment, mem: nat, i: nat)
    requires h.top != 0 && !Behind(h, g) && Continues(h, g, i) && mem == g.base + 8 && Fronts(h, h', g, nb, i)
    ensures SystemAnswer(h, h', nb, Some(g), mem)
  {
    hide Behind, Fronts, Extended, SplitTop;
  }

  lemma AnswerExtended(h: Heap, h': Heap, nb: nat, g: Segment, mem: nat)
    requires !InFront(h, g)
    requires if nb < Extended(h, g).topsize then mem == Extended(h, g).top + 8 && h' == SplitTop(Extended(h, g), nb)
             else mem == 0 && h' == Extended(h, g)
    ensures SystemAnswer(h, h', nb, Some(g), mem)
  {
    hide Fronts, Extended, SplitTop;
  }

  lemma StartedIs(h: Heap, g: Segment)
    requires g.size > TOP_FOOT
    ensures var z: nat := g.size - TOP_FOOT;
      Started(h, g.base, g.size) ==
        h.(heads := h.heads[g.base := Head(z, true, false)][g.base + z := Head(TOP_FOOT, false, false)],
           at := {g.base}, stops := {g.base + z}, top := g.base, topsize := z, segs := [Segment(g.base, g.size)], recs := {})
  {
  }

  // The heap when memory before a segment has been used up to nb, and the rest up to e is free.
  ghost function FrontFree(h: Heap, g: Segment, nb: nat, i: nat, e: nat): Heap
    requires i < |h.segs| && nb < g.size && g.base + g.size in h.heads && g.base + nb <= e
  {
    var q := g.base + nb;
    h.(heads := h.heads[g.base := Head(nb, true, true)][q := Head(e - q, true, false)], foots := h.foots[e := e - q],
       at := Fronted(h, g, nb, i).at, segs := h.segs[i := Segment(g.base, h.segs[i].size + g.size)])
  }

  ghost predicate FrontCases(h: Heap, g: Segment, nb: nat, i: nat, e: nat)
    requires i < |h.segs| && nb < g.size && g.base + g.size in h.heads && g.base + nb <= e
  {
    var p, q, n, f: nat, h', r := g.base, g.base + nb, g.base + g.size, e - (g.base + nb), FrontFree(h, g, nb, i, e), Fronted(h, g, nb, i);
    if n == h.top then e == n + h.topsize && r == h'.(foots := h.foots, top := q, topsize := f)
    else if n == h.dv then e == n + h.dvsize && r == h'.(dv := q, dvsize := f)
    else
      && r == h'.(heads := ClearPinuse(h.heads[p := Head(nb, true, true)], e)[q := Head(f, true, false)],
                  free := (if Cinuse(h, n) then h.free else h.free - {n})[q := f])
      && if Cinuse(h, n) then e == n else e == n + Size(h, n) && InBins(h.free, n, Size(h, n))
  }

  // What FrontCases says of each case.
  lemma FrontAt(h: Heap, g: Segment, nb: nat, i: nat, e: nat)
    requires i < |h.segs| && nb < g.size && g.base + g.size in h.heads && g.base + nb <= e && FrontCases(h, g, nb, i, e)
    ensures var p, q, n, f: nat, h' := g.base, g.base + nb, g.base + g.size, e - (g.base + nb), FrontFree(h, g, nb, i, e);
      && (n == h.top ==> e == n + h.topsize && Fronts(h, h'.(foots := h.foots, top := q, topsize := f), g, nb, i))
      && (n != h.top && n == h.dv ==> e == n + h.dvsize && Fronts(h, h'.(dv := q, dvsize := f), g, nb, i))
      && (n != h.top && n != h.dv ==>
           Fronts(h, h'.(heads := ClearPinuse(h.heads[p := Head(nb, true, true)], e)[q := Head(f, true, false)],
                         free := (if Cinuse(h, n) then h.free else h.free - {n})[q := f]), g, nb, i))
      && (n != h.top && n != h.dv ==> if Cinuse(h, n) then e == n else e == n + Size(h, n) && InBins(h.free, n, Size(h, n)))
  {
    hide Fronted, ClearPinuse;
  }

  // What is freed when memory before a segment is cut in two.
  lemma FrontFacts(h: Heap, g: Segment, nb: nat, i: nat) returns (e: nat)
    requires Sound(h) && Fresh(h, g.base, g.size) && Continues(h, g, i) && Request(nb) && nb + MIN_CHUNK <= g.size
    ensures g.base + g.size in h.heads && g.base + nb < e < WORD && (e - (g.base + nb)) % 8 == 0
    ensures FrontCases(h, g, nb, i, e)
    ensures g.base + nb !in h.free && g.base + nb != h.dv && g.base + nb != g.base + g.size
  {
    hide Sound, ChunkOK, Apart, Places, Segmented, Freed, Fresh, Gone, Forth, Back, Cut, Prepended, Live, ClearPinuse,
      EndAlone, EndTop, EndDv, EndFree, Region;
    FirstChunk(h, i);
    var h2 := FrontCut(h, g, nb, i);
    var q, n := g.base + nb, g.base + g.size;
    FreeFacts(h2, q);
    e := Forth(h2, q);
    FrontHeads(h, h2, g, nb, i, e);
    if Cinuse(h2, n) {
      NotTopInUse(h, n);
      if n == h.dv { DvThere(h); }
      FreedAlone(h2, q);
      EndAloneIs(h2, q);
    } else if n == h2.top {
      FreedToTop(h2, q);
      EndTopIs(h2, q);
    } else if n == h2.dv {
      FreedToDv(h2, q);
      EndDvIs(h2, q);
    } else {
      FreedToFree(h2, q);
      EndFreeIs(h2, q);
      AlreadyClear(h2.heads, e);
    }
  }

  lemma AlreadyClear(heads: map<nat, Head>, n: nat)
    requires n in heads && !heads[n].pinuse
    ensures ClearPinuse(heads, n) == heads
  {
  }

  // The chunk in front, cut in two.
  lemma FrontCut(h: Heap, g: Segment, nb: nat, i: nat) returns (h2: Heap)
    requires Sound(h) && Fresh(h, g.base, g.size) && Continues(h, g, i) && Request(nb) && nb + MIN_CHUNK <= g.size
    ensures g.base + g.size in h.heads && Sound(h2) && g.base + nb in Live(h2)
    ensures Fronted(h, g, nb, i) == Freed(h2, g.base + nb)
    ensures var n := g.base + g.size;
      && h2 == h.(heads := h2.heads, at := h2.at, segs := h.segs[i := Segment(g.base, h.segs[i].size + g.size)])
      && h2.heads == h.heads[g.base := Head(nb, true, true)][g.base + nb := Head(g.size - nb, true, true)]
      && Next(h2, g.base + nb) == n && Back(h2, g.base + nb) == g.base + nb && Cinuse(h2, n) == Cinuse(h, n)
      && Size(h2, n) == Size(h, n)
  {
    hide Sound, ChunkOK, Apart, Places, Segmented, Freed, Live, Fresh;
    FirstChunk(h, i);
    PrependSound(h, g.base, g.size, i);
    var h1 := Prepended(h, g.base, g.size, i);
    CutSound(h1, g.base, nb);
    h2 := Cut(h1, g.base, nb);
    CutHeads(h.heads, g.base, nb, g.size);
    assert g.base + nb in Live(h)[g.base := g.size][g.base := nb][g.base + nb := g.size - nb];
  }

  lemma CutHeads(heads: map<nat, Head>, p: nat, nb: nat, z: nat)
    requires 0 < nb < z && p + z in heads && heads[p + z].pinuse
    ensures var heads' := heads[p := Head(z, true, true)];
      heads'[p := Head(nb, true, true)][p + nb := Head(z - nb, true, true)][p + z := heads'[p + z].(pinuse := true)]
      == heads[p := Head(nb, true, true)][p + nb := Head(z - nb, true, true)]
  {
  }

  lemma FrontHeads(h: Heap, h2: Heap, g: Segment, nb: nat, i: nat, e: nat)
    requires g.base + nb < e && nb < g.size
    requires h2.heads == h.heads[g.base := Head(nb, true, true)][g.base + nb := Head(g.size - nb, true, true)]
    ensures var q, f: nat := g.base + nb, e - (g.base + nb);
      && h2.heads[q := Head(f, true, false)] == h.heads[g.base := Head(nb, true, true)][q := Head(f, true, false)]
      && ClearPinuse(h2.heads, e)[q := Head(f, true, false)] == ClearPinuse(h.heads[g.base := Head(nb, true, true)], e)[q := Head(f, true, false)]
  {
  }

  lemma EndAloneIs(h: Heap, q: nat)
    requires Back(h, q) == q && q != h.dv
    ensures EndAlone(h, q) == FreeMerged(h, q).(heads := ClearPinuse(h.heads, Next(h, q))[q := Head(FreeSize(h, q), true, false)], free := h.free[q := FreeSize(h, q)])
  {
    hide Forth, Gone;
  }

  lemma EndTopIs(h: Heap, q: nat)
    requires Back(h, q) == q && q != h.dv
    ensures EndTop(h, q) == FreeMerged(h, q).(foots := h.foots, top := q, topsize := FreeSize(h, q))
  {
    hide Forth, Gone;
  }

  lemma EndDvIs(h: Heap, q: nat)
    requires Back(h, q) == q
    ensures EndDv(h, q) == FreeMerged(h, q).(dv := q, dvsize := FreeSize(h, q))
  {
    hide Forth, Gone;
  }

  lemma EndFreeIs(h: Heap, q: nat)
    requires Back(h, q) == q && q != h.dv
    ensures EndFree(h, q) == FreeMerged(h, q).(free := (h.free - {Next(h, q)})[q := FreeSize(h, q)])
  {
    hide Forth, Gone;
  }

  lemma SmallBin(h: Heap, s: S.Smalls, f: F.Forest, i: nat, a: nat)
    requires Filed(h.free, s, f) && i < 32 && a in h.free && h.free[a] == 8 * i && i < 32
    ensures Marked(s.marks, i)
  {
    assert InBins(h.free, a, 8 * i);
    assert S.Holds(s, a, 8 * i);
    S.Known(s, i);
  }

  // The first chunk of the exact bin or of the next one.
  lemma ExactSmall(h: Heap, s: S.Smalls, f: F.Forest, nb: nat, i: nat, p: nat)
    requires Sound(h) && Filed(h.free, s, f) && Request(nb) && i < 32 && S.Holds(s, p, 8 * i)
    requires i == nb / 8 || (i == nb / 8 + 1 && !Marked(s.marks, nb / 8))
    ensures Tightest(h, nb, p) && Preferred(h, nb, p) && CarvedFacts(h, nb, p, 8 * i - nb, true)
    ensures 8 * i < nb + MIN_CHUNK && InBins(h.free, p, 8 * i)
  {
    hide Sound, S.Valid, S.Holds, F.Valid, Marked, CarvedFacts;
    assert InBins(h.free, p, 8 * i);
    CarvedIs(h, nb, p, 8 * i - nb, true);
    forall a | a in h.free && nb <= h.free[a]
      ensures 8 * i <= h.free[a]
    {
      InBin(h, a);
      if h.free[a] == nb { SmallBin(h, s, f, nb / 8, a); }
    }
  }

  // The first bin in use behind the two that were looked at.
  lemma NextSmallBin(marks: bv32, idx: nat) returns (j: nat)
    requires 0 < idx < 32 && Shr(marks, idx) != 0 && !Marked(marks, idx) && (idx < 31 ==> !Marked(marks, idx + 1))
    ensures var left := Both(LeftBits(Bit(idx)), Shl32(Shr(marks, idx), idx));
      left != 0 && BitIndex(LeastBit(left)) as nat == j < 32
    ensures Marked(marks, j) && j >= idx + 2 && forall k: nat :: idx <= k < j ==> !Marked(marks, k)
  {
    hide Shr, Marked, Both, LeftBits, Bit, BitIndex, LeastBit, Shl32;
    var left := Both(LeftBits(Bit(idx)), Shl32(Shr(marks, idx), idx));
    var k := FirstMarked(Shr(marks, idx));
    ShrMarked(marks, idx, k);
    BehindMarked(marks, idx, idx + k);
    NoneMarked(left);
    j := FirstMarked(left);
    BehindMarked(marks, idx, j);
    forall k: nat | idx < k < j
      ensures !Marked(marks, k)
    {
      BehindMarked(marks, idx, k);
    }
  }

  lemma NextSmall(h: Heap, s: S.Smalls, f: F.Forest, nb: nat, i: nat, p: nat)
    requires Sound(h) && Filed(h.free, s, f) && Request(nb) && nb < MIN_LARGE && h.dvsize < nb && nb / 8 + 2 <= i < 32
    requires S.Holds(s, p, 8 * i) && forall k: nat :: nb / 8 <= k < i ==> !Marked(s.marks, k)
    ensures Tightest(h, nb, p) && Preferred(h, nb, p) && CarvedFacts(h, nb, p, 8 * i - nb, true)
    ensures 8 * i >= nb + MIN_CHUNK && InBins(h.free, p, 8 * i)
    ensures h.dvsize != 0 ==> h.dv != 0 && h.dv !in h.free && h.dvsize % 8 == 0
  {
    hide Sound, S.Valid, S.Holds, F.Valid, Marked, CarvedFacts;
    DvSize(h);
    assert InBins(h.free, p, 8 * i);
    CarvedIs(h, nb, p, 8 * i - nb, true);
    forall a | a in h.free && nb <= h.free[a]
      ensures 8 * i <= h.free[a]
    {
      InBin(h, a);
      if h.free[a] < 8 * i { SmallBin(h, s, f, h.free[a] / 8, a); }
    }
  }

  lemma NoSmall(h: Heap, s: S.Smalls, f: F.Forest, nb: nat)
    requires Sound(h) && Filed(h.free, s, f) && Request(nb) && nb < MIN_LARGE && Shr(s.marks, nb / 8) == 0
    ensures forall a :: a in h.free && nb <= h.free[a] ==> h.free[a] >= MIN_LARGE
  {
    hide Sound, S.Valid, S.Holds, F.Valid, Marked, Shr;
    forall a | a in h.free && nb <= h.free[a]
      ensures h.free[a] >= MIN_LARGE
    {
      InBin(h, a);
      if h.free[a] < MIN_LARGE {
        SmallBin(h, s, f, h.free[a] / 8, a);
        ShrMarked(s.marks, nb / 8, h.free[a] / 8 - nb / 8);
        ZeroMap(h.free[a] / 8 - nb / 8);
      }
    }
  }

  lemma NoLarge(h: Heap, s: S.Smalls, f: F.Forest, nb: nat)
    requires Filed(h.free, s, f) && f.marks == 0 && forall a :: a in h.free && nb <= h.free[a] ==>
      h.free[a] >= MIN_LARGE
    ensures forall a :: !Preferred(h, nb, a)
  {
    hide S.Valid, S.Holds, Marked;
    forall a | a in h.free
      ensures h.free[a] < MIN_LARGE
    {
      assert InBins(h.free, a, h.free[a]);
      if F.Holds(f, a, h.free[a]) {
        F.HeldInBin(f, a, h.free[a]);
        ZeroMap(TreeIndex(h.free[a]));
        EmptyBin(f, TreeIndex(h.free[a]), a, h.free[a]);
      }
    }
  }

  lemma NoExact(h: Heap, s: S.Smalls, f: F.Forest, nb: nat)
    requires Sound(h) && Filed(h.free, s, f) && Request(nb) && nb < MIN_LARGE && nb <= h.dvsize
    requires !Marked(s.marks, nb / 8) && (nb / 8 < 31 ==> !Marked(s.marks, nb / 8 + 1))
    ensures forall a :: !Preferred(h, nb, a)
  {
    hide Sound, S.Valid, S.Holds, F.Valid, Marked;
    forall a
      ensures !Preferred(h, nb, a)
    {
      if Preferred(h, nb, a) {
        InBin(h, a);
        SmallBin(h, s, f, h.free[a] / 8, a);
      }
    }
  }

  // The outcome of the search for a large request, with its wrapping difference.
  lemma BestLarge(h: Heap, s: S.Smalls, f: F.Forest, nb: nat, v: nat, rsize: nat)
    requires Sound(h) && Filed(h.free, s, f) && Request(nb) && MIN_LARGE <= nb && B.Best(f, nb, v, rsize)
    ensures v != 0 && rsize < (h.dvsize - nb) % WORD ==>
      Tightest(h, nb, v) && Preferred(h, nb, v) && CarvedFacts(h, nb, v, rsize, false)
    ensures !(v != 0 && rsize < (h.dvsize - nb) % WORD) ==> forall a :: !Preferred(h, nb, a)
  {
    hide Sound, S.Valid, F.Valid, F.Holds, S.Holds;
    DvSize(h);
    forall a | a in h.free && nb <= h.free[a]
      ensures v != 0 && nb + rsize <= h.free[a] && h.free[a] < WORD
    {
      InBin(h, a);
      assert InBins(h.free, a, h.free[a]);
      assert F.Holds(f, a, h.free[a]);
    }
    if v != 0 {
      assert F.Holds(f, v, nb + rsize);
      assert InBins(h.free, v, nb + rsize);
      CarvedIs(h, nb, v, rsize, false);
      Wrapped(h.dvsize, nb, rsize);
    }
  }

  lemma Wrapped(d: nat, nb: nat, rsize: nat)
    requires d < WORD && nb + rsize < WORD
    ensures rsize < (d - nb) % WORD <==> d < nb || nb + rsize < d
  {
    if d < nb { assert (d - nb) % WORD == d - nb + WORD; } else { assert (d - nb) % WORD == d - nb; }
  }

  lemma BestSmall(h: Heap, s: S.Smalls, f: F.Forest, nb: nat, v: nat, rsize: nat)
    requires Sound(h) && Filed(h.free, s, f) && Request(nb) && nb < MIN_LARGE && h.dvsize < nb
    requires B.Best(f, nb, v, rsize) && v != 0
    requires forall a :: a in h.free && nb <= h.free[a] ==> h.free[a] >= MIN_LARGE
    ensures Tightest(h, nb, v) && Preferred(h, nb, v) && CarvedFacts(h, nb, v, rsize, true)
    ensures h.dvsize != 0 ==> h.dv != 0 && h.dv !in h.free && h.dvsize % 8 == 0
  {
    hide Sound, S.Valid, F.Valid, F.Holds, S.Holds;
    DvSize(h);
    forall a | a in h.free && nb <= h.free[a]
      ensures nb + rsize <= h.free[a]
    {
      InBin(h, a);
      assert InBins(h.free, a, h.free[a]);
      assert F.Holds(f, a, h.free[a]);
    }
    assert F.Holds(f, v, nb + rsize);
    assert InBins(h.free, v, nb + rsize);
    CarvedIs(h, nb, v, rsize, true);
  }

  // What carving nb bytes out of the chunk v in a bin changes, part by part.
  ghost predicate CarvedFacts(h: Heap, nb: nat, v: nat, rsize: nat, toDv: bool) {
    var r, h' := v + nb, Carved(h, v, nb, toDv);
    && InBins(h.free, v, nb + rsize) && v != 0 && v in h.at
    && (rsize >= MIN_CHUNK ==> r !in h.at && r !in h.free) && r + rsize < WORD && rsize % 8 == 0 && r != 0
    && (rsize < MIN_CHUNK ==> h' == h.(heads := InuseAndPinuse(h.heads, v, rsize + nb), free := h.free - {v}))
    && (rsize >= MIN_CHUNK ==>
      h' == h.(heads := h.heads[v := Head(nb, true, true)][r := Head(rsize, true, false)], foots := h.foots[r + rsize := rsize], at := h.at + {r},
               free := h'.free, dv := if toDv then r else h.dv, dvsize := if toDv then rsize else h.dvsize))
    && (rsize >= MIN_CHUNK ==>
      h'.free == if !toDv then (h.free - {v})[r := rsize] else if h.dvsize != 0 then (h.free - {v})[h.dv := h.dvsize] else h.free - {v})
  }

  lemma CarvedIs(h: Heap, nb: nat, v: nat, rsize: nat, toDv: bool)
    requires Sound(h) && Request(nb) && InBins(h.free, v, nb + rsize)
    ensures CarvedFacts(h, nb, v, rsize, toDv)
  {
    hide ChunkOK, Apart, Segmented, Sound;
    InBin(h, v);
    PlacesOf(h);
    if rsize > 0 { Inside(h, v, v + nb); }
  }

  // The bins after a free chunk before p has been taken out.
  function FreeBack(h: Heap, p: nat): map<nat, nat> {
    if Back(h, p) != p && Back(h, p) != h.dv then h.free - {Back(h, p)} else h.free
  }

  function FreeSize(h: Heap, p: nat): nat {
    if Forth(h, p) < Back(h, p) then 0 else Forth(h, p) - Back(h, p)
  }

  // The freed chunk with its head and foot, before it is filed.
  function FreeMerged(h: Heap, p: nat): Heap {
    var q, z := Back(h, p), FreeSize(h, p);
    h.(heads := h.heads[q := Head(z, true, false)], foots := h.foots[Forth(h, p) := z], at := h.at - Gone(h, p), free := FreeBack(h, p))
  }

  // The ways dlfree ends: before a chunk in use, ...
  function EndAlone(h: Heap, p: nat): Heap {
    var q, z, h1 := Back(h, p), FreeSize(h, p), FreeMerged(h, p);
    h1.(heads := ClearPinuse(h.heads, Next(h, p))[q := Head(z, true, false)],
        free := if q == h.dv then h1.free else h1.free[q := z], dvsize := if q == h.dv then z else h.dvsize)
  }

  lemma FreedAlone(h: Heap, p: nat)
    requires Sound(h) && p in Live(h) && Cinuse(h, Next(h, p))
    ensures Freed(h, p) == EndAlone(h, p)
  {
    hide ChunkOK, Apart, Segmented, Places, Sound, Back, Forth, Gone;
    FreeFacts(h, p);
    BackRole(h, p);
    DvUnfiled(h);
  }

  // ... before top, ...
  function EndTop(h: Heap, p: nat): Heap {
    var q := Back(h, p);
    FreeMerged(h, p).(foots := h.foots, top := q, topsize := FreeSize(h, p),
                      dv := if q == h.dv then 0 else h.dv, dvsize := if q == h.dv then 0 else h.dvsize)
  }

  lemma FreedToTop(h: Heap, p: nat)
    requires Sound(h) && p in Live(h) && Next(h, p) == h.top
    ensures Freed(h, p) == EndTop(h, p)
  {
    hide ChunkOK, Apart, Segmented, Places, Sound, Back, Forth, Gone;
    FreeFacts(h, p);
    DvUnfiled(h);
  }

  // ... before dv, ...
  function EndDv(h: Heap, p: nat): Heap {
    FreeMerged(h, p).(dv := Back(h, p), dvsize := FreeSize(h, p))
  }

  lemma FreedToDv(h: Heap, p: nat)
    requires Sound(h) && p in Live(h) && !Cinuse(h, Next(h, p)) && Next(h, p) != h.top && Next(h, p) == h.dv
    ensures Freed(h, p) == EndDv(h, p)
  {
    hide ChunkOK, Apart, Segmented, Places, Sound, Back, Forth, Gone;
    FreeFacts(h, p);
    BackRole(h, p);
  }

  // ... and before another free chunk.
  function EndFree(h: Heap, p: nat): Heap {
    var q, n, z, h1 := Back(h, p), Next(h, p), FreeSize(h, p), FreeMerged(h, p);
    h1.(free := if q == h.dv then h1.free - {n} else (h1.free - {n})[q := z], dvsize := if q == h.dv then z else h.dvsize)
  }

  lemma FreedToFree(h: Heap, p: nat)
    requires Sound(h) && p in Live(h) && !Cinuse(h, Next(h, p)) && Next(h, p) != h.top && Next(h, p) != h.dv
    ensures Freed(h, p) == EndFree(h, p)
  {
    hide ChunkOK, Apart, Segmented, Places, Sound, Back, Forth, Gone;
    FreeFacts(h, p);
    BackRole(h, p);
    DvUnfiled(h);
  }

  lemma DvUnfiled(h: Heap)
    requires Sound(h)
    ensures h.dv !in h.free
  {
  }

  // What dlfree reads of the chunk and its neighbours.
  lemma FreeFacts(h: Heap, p: nat)
    requires Sound(h) && p in Live(h)
    ensures p in h.heads && Next(h, p) in h.heads && (!Pinuse(h, p) ==> p in h.foots)
    ensures var q, n, e := Back(h, p), Next(h, p), Forth(h, p);
      && Pinuse(h, n) && Region(h, p, q, n, e)
      && (!Pinuse(h, p) ==> q == p - h.foots[p] && q != p && (q != h.dv ==> InBins(h.free, q, h.foots[p])) && (q == h.dv ==> h.dvsize == h.foots[p] && q !in h.free))
      && (Pinuse(h, p) ==> q == p && p !in h.free && p != h.dv)
      && (Cinuse(h, n) <==> e == n) && (Cinuse(h, n) ==> n !in h.free)
      && (!Cinuse(h, n) && n != h.top ==> e == Next(h, n) && e in h.heads && !Pinuse(h, e) && n in h.at)
      && (!Cinuse(h, n) && n != h.top && n == h.dv ==> h.dvsize == Size(h, n) && n !in h.free)
      && (!Cinuse(h, n) && n != h.top && n != h.dv ==> InBins(h.free, n, Size(h, n)))
      && (n == h.top ==> n in h.at && e == n + h.topsize && !Cinuse(h, n))
      && e < WORD && (e - q) % 8 == 0 && q != 0
  {
    hide Apart, Segmented;
    RegionOf(h, p);
    PlacesOf(h);
    ChunkAt(h, p);
    NotTopInUse(h, p);
    TopThere(h);
    BackRole(h, p);
    if !Pinuse(h, p) {
      Before(h, p);
      ChunkAt(h, Back(h, p));
    }
    if Next(h, p) in h.at { ChunkAt(h, Next(h, p)); }
    if Forth(h, p) in h.at { ChunkAt(h, Forth(h, p)); }
  }

  // A chunk shrinks: the rest is cut off and freed.
  lemma ShrunkLive(h: Heap, h': Heap, p: nat, nb: nat, z: nat)
    requires Sound(h) && p in Live(h) && z == Live(h)[p] && 0 < nb < z && p > 0
    requires Live(h') == Live(h)[p := nb][p + nb := z - nb] - {p + nb}
    ensures Live(h') == Live(h)[p := nb]
  {
    hide Sound, Live;
    NotInside(h, p, nb);
  }

  // A new block has been found for the one at p.
  lemma MovedLive(h: Heap, h': Heap, p: nat, nb: nat, newmem: nat)
    requires Sound(h) && p in Live(h) && NewBlock(h, h', nb, newmem)
    ensures p in Live(h') && newmem > 8 && newmem - 8 in Live(h') && newmem - 8 != p && nb <= Live(h')[newmem - 8] < nb + MIN_CHUNK
    ensures newmem - 8 !in Live(h)
    ensures Live(h') - {p} == (Live(h) - {p})[newmem - 8 := Live(h')[newmem - 8]]
  {
    hide Sound, Live;
  }

  // The chunk got for an aligned request has room for a leader.
  lemma RoomToAlign(h: Heap, h1: Heap, alignment: nat, bytes: nat, mem: nat)
    requires Sound(h1) && 8 < alignment <= 0x8000_0000 && bytes < MAX_REQUEST
    requires NewBlock(h, h1, ChunkFor(AlignRequest(alignment, bytes)), mem)
    ensures mem > 8 && RoundUp(alignment) >= MIN_CHUNK
    ensures Aligns(h1, mem - 8, LeadSize(mem - 8, RoundUp(alignment)), RequestSize(bytes))
    ensures (mem - 8) % 8 == 0 && mem - 8 !in Live(h) && mem - 8 in Live(h1)
    ensures Live(h1) == Live(h)[mem - 8 := Live(h1)[mem - 8]]
  {
    hide Sound, Live, RoundUp, LeadSize;
    RoundUpLeast(alignment, 4);
    RequestFits(bytes);
    InUseThere(h1, mem - 8);
    LeadFits(mem - 8, RoundUp(alignment));
    var req := AlignRequest(alignment, bytes);
    if req < MAX_REQUEST { RequestFits(req); }
  }

  lemma AlignedIsNew(h: Heap, h1: Heap, alignment: nat, nb: nat, m1: nat)
    requires m1 > 8 && 8 < alignment && RoundUp(alignment) >= MIN_CHUNK
    requires var lead := LeadSize(m1 - 8, RoundUp(alignment));
      && AlignedBlock(h1, Aligned(h1, m1 - 8, lead, nb), m1 - 8, m1 - 8 + lead, nb)
      && OnMultiple(m1 + lead, RoundUp(alignment))
    requires m1 - 8 !in Live(h) && m1 - 8 in Live(h1) && Live(h1) == Live(h)[m1 - 8 := Live(h1)[m1 - 8]]
    ensures var lead := LeadSize(m1 - 8, RoundUp(alignment));
      && Sound(Aligned(h1, m1 - 8, lead, nb)) && AlignedNew(h, Aligned(h1, m1 - 8, lead, nb), alignment, nb, m1 + lead)
  {
    hide Sound, Live, Aligned, LeadSize, RoundUp;
  }

  lemma MallocStep(h: Heap, h': Heap, nb: nat, contiguous: bool, a: Answers, mem: nat)
    requires (Request(nb) || nb == WORD - 1) && Served(h, nb, contiguous, a)
    requires Answered(h, h', nb, Acquired(h, nb, contiguous, a), mem)
    ensures Step(h, h')
  {
    hide Served, Answered, Acquired;
    GetStep(h, h', nb, contiguous, a, mem);
  }
}
