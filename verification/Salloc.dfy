/** The simple allocator, word by word. */
module Salloc {
  import opened SallocBlocks
  import opened SallocZones
  import opened SallocLive

  class Allocator {
    const zones: seq<Zone>
    var mem: Mem
    var initialized: bool
    ghost var lists: seq<seq<Block>>

    /** The blocks of every zone, as they are or as s_init will make them. */
    ghost function L(): seq<seq<Block>>
      requires Platform(zones)
      reads this
    {
      if initialized then lists else seq(|zones|, k requires 0 <= k < |zones| => Initial(zones[k]))
    }

    ghost predicate Good()
      reads this
    {
      Platform(zones) && (initialized ==> AllOK(mem, zones, lists))
    }

    constructor (ram: seq<Zone>)
      requires Platform(ram)
      ensures Good() && !initialized && zones == ram
    {
      zones, mem, initialized, lists := ram, map[], false, [];
    }

    // ----- header words

    // s_set_next_block
    method SetNext(p: nat, n: nat)
      requires n < WORD
      modifies `mem
      ensures mem == old(mem)[p := WithLink(At(old(mem), p), n)]
    {
      mem := mem[p := WithLink(At(mem, p), n)];
    }

    // s_set_prev_block
    method SetPrev(p: nat, n: nat)
      requires n < WORD
      modifies `mem
      ensures mem == old(mem)[p + 4 := WithLink(At(old(mem), p + 4), n)]
    {
      mem := mem[p + 4 := WithLink(At(mem, p + 4), n)];
    }

    // s_create_new_block
    method CreateBlock(p: nat, n: nat, b: nat)
      requires n < WORD && b < WORD
      modifies `mem
      ensures mem == old(mem)[p := n / 8][p + 4 := b / 8]
    {
      mem := mem[p := n / 8];
      mem := mem[p + 4 := b / 8];
    }

    // memset to zero.
    method Wipe(p: nat, n: nat)
      modifies `mem
      ensures forall a: nat :: At(mem, a) == if p <= a < p + n then 0 else At(old(mem), a)
    {
      mem := mem - set a | a in mem && p <= a < p + n;
    }

    /** s_compact_free: block i is freed and merged with its free neighbours. */
    method CompactFree(ptr: nat, ghost l: seq<Block>, ghost i: nat)
      requires Tiled(l) && CompactedBut(l, i) && Linked(mem, l) && i < |l| && l[i].at == ptr
      modifies `mem
      ensures Linked(mem, Merged(l, i)) && SameBut(old(mem), mem, l)
    {
      hide Linked, Tiled, CompactedBut, Merged, SameBut, IsHeader;
      ghost var l1 := l[i := Block(ptr, false)];
      Marked(mem, l, i);
      mem := mem[ptr := WithFlag(At(mem, ptr), false)];
      ghost var lo, hi := Lo(l1, i), Hi(l1, i);
      MergedLinked(mem, l1, i);
      ghost var m1 := mem;
      var temp1, temp2 := ptr, ptr;
      ghost var a, b := i, i;
      NodeAt(mem, l1, a);
      while !Taken(mem, temp1)
        invariant mem == m1 && Linked(mem, l1) && lo - 1 <= a <= i && 0 <= a < |l1| && temp1 == l1[a].at
        invariant NodeOK(mem, l1, a)
        decreases a
      {
        Around(l1, i, a);
        temp1 := Prev(mem, temp1);
        a := a - 1;
        NodeAt(mem, l1, a);
      }
      Around(l1, i, a);
      temp1 := Next(mem, temp1);
      NodeAt(mem, l1, b);
      while !Taken(mem, temp2)
        invariant mem == m1 && Linked(mem, l1) && i <= b <= hi && b < |l1| && temp2 == l1[b].at && NodeOK(mem, l1, b)
        decreases |l1| - b
      {
        Around(l1, i, b);
        temp2 := Next(mem, temp2);
        b := b + 1;
        NodeAt(mem, l1, b);
      }
      Around(l1, i, b);
      assert a + 1 == lo && b == hi;
      if temp1 != ptr || Prev(mem, temp2) != ptr {
        Distinct(l1, lo, i);
        SetNext(temp1, temp2);
        SetPrev(temp2, temp1);
        assert mem == Joined(m1, temp1, temp2);
      }
      Distinct(l1, hi - 1, i);
      Distinct(l1, lo, i);
      CompactFrame(old(mem), m1, mem, l, i, lo, hi);
    }

    // ----- allocating

    // A new free block behind size bytes of block i, before it is merged.
    method InsertRest(pblock: nat, size: nat, ghost l: seq<Block>, ghost i: nat)
      requires Tiled(l) && Linked(mem, l) && 0 < i < |l| - 1 && l[i].at == pblock && size % 8 == 0
      requires 0 < size < Size(l, i)
      modifies `mem
      ensures Linked(mem, Cut(l, i, size, Taken(old(mem), pblock + size)))
      ensures SameBut(old(mem), mem, Cut(l, i, size, Taken(old(mem), pblock + size)))
    {
      hide Linked, Cut, SameBut, IsHeader, Link;
      ghost var m := mem;
      NodeAt(mem, l, i);
      InsertedLinked(mem, l, i, size);
      InsertedFrame(mem, l, i, size, Taken(mem, pblock + size));
      var temp := pblock + size;
      var next := Next(mem, pblock);
      SetPrev(temp, pblock);
      SetNext(temp, next);
      SetPrev(next, temp);
      SetNext(pblock, temp);
      assert mem == Inserted(m, pblock, temp, next);
    }

    /** s_get_free_block: the best fit in zone k, at block i of its list */
    method GetFreeBlock(size: nat, k: nat) returns (r: nat, ghost i: nat)
      requires Good() && initialized && k < |zones| && size + HEADER <= WORD - 8
      modifies `mem, `lists
      ensures Good()
      ensures r == 0 ==>
        mem == old(mem) && lists == old(lists) && (size == 0 || forall j :: !Fits(lists[k], Need(size), j))
      ensures r != 0 ==>
        size > 0 && Granted(old(lists)[k], lists[k], Need(size), i, r) && lists == old(lists)[k := lists[k]]
      ensures r != 0 ==> AllKept(old(mem), mem, old(lists))
    {
      hide AllOK, AllKept, Tiled, Linked, Compacted, Merged, Cut, SameBut, SameOutside, KeepsPayloads, BestFit, Given,
        Link;
      r, i := 0, 0;
      if size == 0 { return; }
      NeedEnough(size);
      ghost var l := ListOf(mem, zones, lists, k);
      var need := Need(size);
      var g1 := zones[k].first;
      i := 1;
      NodeAt(mem, l, 0);
      NodeAt(mem, l, 1);
      var temp := Next(mem, g1);
      var pblock := 0;
      var minsize := WORD - 1;
      ghost var best := 0;
      while temp != 0
        invariant mem == old(mem) && lists == old(lists) && i <= |l| && temp == (if i < |l| then l[i].at else 0)
        invariant i > 0 && (pblock == 0 ==> minsize == WORD - 1)
        invariant (pblock != 0 ==> 0 < best < |l| - 1 && pblock == l[best].at && minsize == Size(l, best))
        invariant BestSoFar(l, need, i, best, pblock != 0) && (i < |l| ==> l[i].at > 0)
        decreases |l| - i
      {
        NodeAt(mem, l, i);
        ghost var b0, f0 := best, pblock != 0;
        if !Taken(mem, temp) {
          LastTaken(l, i);
          NodeAt(mem, l, i + 1);
          var next := Next(mem, temp);
          var bsize := next - temp;
          if need <= bsize && bsize < minsize {
            minsize := bsize;
            pblock := temp;
            best := i;
          }
        }
        FitNext(l, need, i, b0, f0, best, pblock != 0);
        temp := Next(mem, temp);
        i := i + 1;
        if i < |l| { NodeAt(mem, l, i); }
      }
      if pblock == 0 {
        NoneFits(l, need, best);
        return;
      }
      i := best;
      FoundFit(l, need, best);
      r := pblock + HEADER;
      Give(pblock, need, minsize, k, l, i);
    }

    // Block i is taken, and its rest split off.
    method Give(pblock: nat, need: nat, minsize: nat, ghost k: nat, ghost l: seq<Block>, ghost i: nat)
      requires Good() && initialized && k < |zones| && |lists| == |zones| && l == lists[k] && ZoneOK(mem, zones[k], l)
      requires Fits(l, need, i) && pblock == l[i].at && minsize == Size(l, i) && need % 8 == 0 && need >= 16
      modifies `mem, `lists
      ensures Good() && lists == old(lists)[k := Given(l, need, i)] && AllKept(old(mem), mem, old(lists))
    {
      hide AllOK, AllKept, Linked, Compacted, Merged, Cut, SameBut, Link, CompactedBut, IsHeader, Tiled;
      ghost var m := mem;
      GivenTiled(l, need, i);
      MarkLinked(mem, l, i, true);
      MarkTiled(l, i);
      mem := mem[pblock := WithFlag(At(mem, pblock), true)];
      ghost var l1, m1 := l[i := Block(pblock, true)], mem;
      MarkSame(m, l, i, WithFlag(At(m, pblock), true));
      if minsize > need && minsize - need >= MIN_SPLIT {
        InsertRest(pblock, need, l1, i);
        ghost var taken := Taken(m1, pblock + need);
        ghost var c, m2 := Cut(l1, i, need, taken), mem;
        CutTiled(l1, i, need, taken);
        CutBut(l1, i, need, taken);
        CutAt(l1, i, need, taken, i + 1);
        CompactFree(pblock + need, c, i + 1);
        CutMerged(l, i, need, taken);
        SameTwice(m1, m2, mem, c);
        GivenKept(m, m1, mem, zones[k], l, i, need, taken);
      } else {
        HeadersOnly(m, mem, l);
        OutsideZone(m, mem, zones[k], l);
      }
      ZoneDone(m, mem, zones, lists, k, Given(l, need, i));
      lists := lists[k := Given(l, need, i)];
    }

    // Zone k becomes one free block between its guards.
    method InitZone(k: nat)
      requires Platform(zones) && k < |zones|
      modifies `mem
      ensures ZoneOK(mem, zones[k], Initial(zones[k])) && SameOutside(old(mem), mem, zones[k])
    {
      hide ZoneOK, SameOutside, Link, Flag, WithFlag, Platform;
      ghost var m := mem;
      ZonePlace(zones, k);
      var pstart := zones[k].first;
      var memspace := zones[k].last - pstart;
      Wipe(pstart, memspace);
      var g1 := pstart;
      var crt := g1 + 8;
      var g2 := g1 + memspace - 8;
      CreateBlock(g1, crt, 0);
      CreateBlock(crt, g2, g1);
      CreateBlock(g2, 0, crt);
      mem := mem[g1 := WithFlag(At(mem, g1), true)];
      mem := mem[g2 := WithFlag(At(mem, g2), true)];
      mem := mem[crt := WithFlag(At(mem, crt), false)];
      InitialOK(m, mem, zones[k]);
    }

    /** s_init */
    method Init()
      requires Platform(zones) && !initialized
      modifies this
      ensures Good() && initialized && lists == old(L())
    {
      hide ZoneOK, SameOutside;
      lists := L();
      for i := 0 to |zones|
        invariant !initialized && lists == old(L()) && forall k :: 0 <= k < i ==> ZoneOK(mem, zones[k], lists[k])
      {
        ghost var m := mem;
        InitZone(i);
        forall k | 0 <= k < i
          ensures ZoneOK(mem, zones[k], lists[k])
        {
          OutsideFrame(m, mem, zones, k, i, lists[k]);
        }
      }
      initialized := true;
    }

    /** smalloc: the first zone that has a block, and its best fit */
    method Smalloc(size: nat) returns (ptr: nat, ghost k: nat, ghost i: nat)
      requires Good() && size + HEADER <= WORD - 8
      modifies this
      ensures Good() && initialized && AllKept(old(mem), mem, old(L()))
      ensures (ptr == 0 && old(initialized) ==> mem == old(mem))
      ensures ptr == 0 ==>
        L() == old(L()) && (size == 0 || forall z, j :: 0 <= z < |zones| ==> !Fits(L()[z], Need(size), j))
      ensures ptr != 0 ==> size > 0 && k < |zones| && forall z, j :: 0 <= z < k ==> !Fits(old(L())[z], Need(size), j)
      ensures ptr != 0 ==> Granted(old(L())[k], L()[k], Need(size), i, ptr) && L() == old(L())[k := L()[k]]
    {
      hide AllOK, ZoneOK, Granted, Fits, AllKept, Platform;
      if !initialized {
        FreshKept(mem, mem, zones);
        Init();
        FreshKept(old(mem), mem, zones);
      } else {
        KeptSame(mem, lists);
      }
      ghost var m, l := mem, lists;
      SameLength(mem, zones, lists);
      ptr, k, i := 0, 0, 0;
      var n := 0;
      while n < |zones|
        invariant n <= |zones| && Good() && initialized && mem == m && lists == l && |l| == |zones|
        invariant size == 0 || forall z, j :: 0 <= z < n ==> !Fits(l[z], Need(size), j)
      {
        ptr, i := GetFreeBlock(size, n);
        k := n;
        if ptr != 0 {
          if old(initialized) { } else { FreshKept(old(mem), mem, zones); }
          return;
        }
        n := n + 1;
      }
    }

    /** sfree of a block in use; k and i say which one it was */
    method Sfree(ptr: nat) returns (ghost k: nat, ghost i: nat)
      requires Good() && (ptr != 0 && initialized ==> exists k, i :: InUse(lists, k, i, ptr))
      modifies `mem, `lists
      ensures Good()
      ensures ptr == 0 || !initialized ==> mem == old(mem) && lists == old(lists)
      ensures ptr != 0 && initialized ==> InUse(old(lists), k, i, ptr) && i + 2 <= |old(lists)[k]|
      ensures ptr != 0 && initialized ==>
        lists == old(lists)[k := Merged(old(lists)[k], i)] && AllKept(old(mem), mem, old(lists))
    {
      hide AllOK, AllKept, Linked, Tiled, Compacted, CompactedBut, Merged, SameBut;
      k, i := 0, 0;
      if ptr == 0 || !initialized { return; }
      k, i :| InUse(lists, k, i, ptr);
      SameLength(mem, zones, lists);
      ghost var l := ListOf(mem, zones, lists, k);
      UsedBut(l, i);
      CompactFree(ptr - HEADER, l, i);
      MergedTiled(l, i);
      HeadersOnly(old(mem), mem, l);
      OutsideZone(old(mem), mem, zones[k], l);
      ZoneDone(old(mem), mem, zones, lists, k, Merged(l, i));
      lists := lists[k := Merged(l, i)];
    }

    /** s_shrink_block */
    method ShrinkBlock(ptr: nat, size: nat, ghost k: nat, ghost i: nat)
      requires Good() && initialized && InUse(lists, k, i, ptr) && 0 < size && size + HEADER <= WORD - 8
      modifies `mem, `lists
      ensures Good() && i + 1 < |old(lists)[k]| && lists == old(lists)[k := Shrunk(old(lists)[k], Need(size), i)]
      ensures OthersKept(old(mem), mem, old(lists), k, i)
      ensures (Size(old(lists)[k], i) < Need(size) + MIN_SPLIT ==> mem == old(mem))
      ensures forall a: nat :: ptr <= a < ptr - HEADER + Need(size) && PayloadWord(old(lists)[k], i, a) ==>
        At(mem, a) == At(old(mem), a)
    {
      hide AllOK, AllKept, Linked, Tiled, Compacted, CompactedBut, Merged, SameBut, Cut, KeepsPayloads, Link,
        OthersKept;
      NeedEnough(size);
      SameLength(mem, zones, lists);
      ghost var l := ListOf(mem, zones, lists, k);
      var pblock := ptr - HEADER;
      var need := Need(size);
      UsedBut(l, i);
      NodeAt(mem, l, i);
      NodeAt(mem, l, i + 1);
      var next := Next(mem, pblock);
      if need >= next - pblock || next - pblock - need < MIN_SPLIT {
        KeptSame(mem, lists);
        AllOthers(mem, mem, lists, k, i);
        return;
      }
      ghost var m := mem;
      InsertRest(pblock, need, l, i);
      ghost var taken := Taken(m, pblock + need);
      ghost var c, m2 := Cut(l, i, need, taken), mem;
      CutTiled(l, i, need, taken);
      CutBut(l, i, need, taken);
      CutAt(l, i, need, taken, i + 1);
      CompactFree(pblock + need, c, i + 1);
      MergedSame(l, i, need, taken);
      SameTwice(m, m2, mem, c);
      MergedTiled(c, i + 1);
      ShrunkKept(m, mem, zones, lists, k, i, need, taken);
      lists := lists[k := Shrunk(l, need, i)];
    }

    // memmove of whole words between places that do not overlap
    method MemMove(dst: nat, src: nat, n: nat)
      requires n % 4 == 0 && (dst + n <= src || src + n <= dst)
      modifies `mem
      ensures Copied(old(mem), mem, dst, src, n)
    {
      var j := 0;
      while j < n
        invariant j <= n && j % 4 == 0
        invariant forall a: nat :: a < j && a % 4 == 0 ==> At(mem, dst + a) == At(old(mem), src + a)
        invariant forall b: nat :: !(dst <= b < dst + j && (b - dst) % 4 == 0) ==> At(mem, b) == At(old(mem), b)
      {
        mem := mem[dst + j := At(mem, src + j)];
        j := j + 4;
      }
    }

    // The contents of the block at ptr get into the new one, and the old one is given back.
    method MoveTo(ptr: nat, bsize: nat, newptr: nat, ghost z: nat, ghost size: nat, ghost m: Mem, ghost ls: seq<seq<Block>>)
      requires Good() && initialized && ptr >= HEADER && newptr >= HEADER && ptr != newptr
      requires newptr % 8 == 0 && HEADER <= bsize <= z && (bsize - HEADER) % 4 == 0
      requires ptr - HEADER + bsize <= newptr - HEADER || newptr - HEADER + z <= ptr - HEADER
      requires LiveIn(ls, ptr - HEADER, bsize) && LiveIn(lists, ptr - HEADER, bsize) && LiveIn(lists, newptr - HEADER, z)
      requires size + HEADER <= z < Need(size) + MIN_SPLIT && MoreBy(ls, lists, newptr - HEADER, z) && AllKept(m, mem, ls)
      modifies `mem, `lists
      ensures Good() && Reallocated(m, mem, ls, lists, ptr, newptr, size)
    {
      hide AllOK, ZoneOK, LiveIn, MoreBy, LessBy, AllKept, Platform, Merged, At, Reallocated, Need, InUse, Copied, Behind;
      ghost var m1, ls1 := mem, lists;
      MemMove(newptr, ptr, bsize - HEADER);
      ghost var m2 := mem;
      CopiedInside(m1, m2, newptr, ptr, bsize - HEADER, z);
      ContentsFrame(m1, m2, zones, ls1, newptr - HEADER, z);
      ghost var k, i := LiveUsed(ls1, ptr - HEADER, bsize);
      k, i := Sfree(ptr);
      FreedLess(m2, zones, ls1, k, i, ptr);
      ReallocMoved(m, m1, m2, mem, ls, ls1, lists, ptr, bsize, newptr, z, size, zones);
    }

    // The block k, i is too small: its contents move to a new one.
    method Relocate(ptr: nat, size: nat, bsize: nat, ghost k: nat, ghost i: nat) returns (newptr: nat)
      requires Good() && initialized && 0 < size && size + HEADER <= WORD - 8 && InUse(lists, k, i, ptr)
      requires bsize == Size(lists[k], i) && bsize % 8 == 0 && HEADER <= bsize <= size + HEADER
      modifies this
      ensures Good() && initialized
      ensures newptr == 0 ==> L() == old(L()) && mem == old(mem)
      ensures newptr != 0 ==> Reallocated(old(mem), mem, old(L()), L(), ptr, newptr, size)
      ensures newptr == 0 <==> NoZoneFits(old(L()), Need(size))
    {
      hide AllOK, ZoneOK, LiveIn, MoreBy, AllKept, Granted, Platform, Reallocated, Need, Size, InUse;
      ghost var m, ls := mem, lists;
      SameLength(mem, zones, lists);
      ghost var k1, i1;
      newptr, k1, i1 := Smalloc(size);
      if newptr == 0 { return; }
      GrantedFits(ls, lists, Need(size), k1, i1, newptr);
      ghost var z := GrantedObtained(m, zones, ls, lists, k1, i1, newptr, size);
      RoomToMove(mem, zones, ls, lists, k, i, ptr, newptr, z, bsize);
      PayloadAligned(bsize);
      MoveTo(ptr, bsize, newptr, z, size, m, ls);
    }

    /** srealloc */
    method Srealloc(ptr: nat, size: nat) returns (newptr: nat)
      requires Good() && (size == 0 || size + HEADER <= WORD - 8)
      requires ptr != 0 ==> initialized && exists k, i :: InUse(lists, k, i, ptr)
      modifies this
      ensures Good() && initialized
      ensures ptr == 0 ==> (newptr == 0 <==> size == 0 || NoZoneFits(old(L()), Need(size)))
      ensures ptr == 0 ==> AllKept(old(mem), mem, old(L()))
      ensures ptr == 0 && newptr == 0 ==> L() == old(L())
      ensures ptr == 0 && newptr != 0 ==> size > 0 && Obtained(old(L()), L(), newptr, size)
      ensures ptr != 0 && size == 0 ==> newptr == 0 && ptr >= HEADER && LessBy(old(L()), L(), ptr - HEADER)
      ensures ptr != 0 && size == 0 ==> AllKept(old(mem), mem, old(L()))
      ensures ptr != 0 && size > 0 ==>
        if TooSmall(old(L()), ptr, size) then newptr == 0 <==> NoZoneFits(old(L()), Need(size)) else newptr == ptr
      ensures ptr != 0 && size > 0 && newptr == 0 ==> L() == old(L()) && mem == old(mem)
      ensures ptr != 0 && size > 0 && newptr != 0 ==> Reallocated(old(mem), mem, old(L()), L(), ptr, newptr, size)
    {
      hide AllOK, ZoneOK, LiveIn, MoreBy, LessBy, KeptBut, AllKept, Granted, Platform, OthersKept, Merged, Shrunk,
        Given, Link, Linked;
      newptr := 0;
      if !initialized {
        Init();
      }
      ghost var m, ls := mem, lists;
      SameLength(mem, zones, lists);
      if ptr == 0 {
        ghost var k, i;
        newptr, k, i := Smalloc(size);
        if newptr != 0 {
          var z := GrantedObtained(m, zones, ls, lists, k, i, newptr, size);
          GrantedFits(ls, lists, Need(size), k, i, newptr);
        }
        if !old(initialized) { FreshKept(old(mem), mem, zones); }
        return;
      }
      ghost var k, i :| InUse(lists, k, i, ptr);
      if size == 0 {
        ghost var k2, i2 := Sfree(ptr);
        FreedLess(m, zones, ls, k2, i2, ptr);
        return;
      }
      BlockAt(mem, zones, lists, k, i);
      SizeKnown(mem, zones, lists, k, i, ptr, size);
      var bsize := Next(mem, ptr - HEADER) - (ptr - HEADER);
      var actual := bsize - HEADER;
      if actual == size {
        ReallocSame(m, zones, ls, k, i, ptr, size);
        return ptr;
      } else if size < actual {
        ShrinkBlock(ptr, size, k, i);
        ReallocShrunk(m, mem, zones, ls, k, i, ptr, size);
        return ptr;
      }
      newptr := Relocate(ptr, size, bsize, k, i);
    }
  }
}
