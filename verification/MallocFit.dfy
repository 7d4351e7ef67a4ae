/** Why one or two ways down the tree bins find the best fit. */
module MallocFit {
  import opened Words
  import opened MallocSizes
  import opened MallocBits
  import opened MallocTrie
  import opened MallocTree
  import opened MallocForest

  lemma {:induction false} SpanInside(path: seq<Crumb>, low: nat, k: nat, s: nat)
    requires |path| <= k && Spans(LowAt(path, low, k), k - |path|, s)
    ensures Spans(low, k, s)
    decreases |path|
  {
    if path != [] {
      Doubles(k - 1);
      SpanInside(path[1..], if path[0].right then low + Pow2(k - 1) else low, k - 1, s);
    }
  }

  /** A size that the way down leads to is below its end or nowhere. */
  lemma {:induction false} OnlyBelow(path: seq<Crumb>, u: Trie, low: nat, k: nat, s: nat, a: nat)
    requires Ordered(Plug(path, u), low, k) && |path| <= k && Spans(LowAt(path, low, k), k - |path|, s)
    requires !OnPath(path, s)
    ensures Has(Plug(path, u), a, s) <==> Has(u, a, s)
    decreases |path|
  {
    if path != [] {
      var c := path[0];
      var low' := if c.right then low + Pow2(k - 1) else low;
      OnlyBelow(path[1..], u, low', k - 1, s, a);
      SpanInside(path[1..], low', k - 1, s);
      if Has(c.other, a, s) {
        HasMember(c.other, a, s);
        SizeInSpan(c.other, if c.right then low else low + Pow2(k - 1), k - 1, s);
      }
    }
  }

  // ----- the search in the bin of the size asked for

  // The subtrie t lies behind the span of the search.
  ghost predicate Behind(t: Trie, top: nat) {
    forall z: nat :: HasSize(t, z) ==> z >= top
  }

  // What is large enough is on the way down, below its end, or not smaller than the least in rest.
  ghost predicate Covered(whole: Trie, nb: nat, path: seq<Crumb>, u: Trie, rest: Trie) {
    forall z: nat :: HasSize(whole, z) && z >= nb ==>
      OnPath(path, z) || HasSize(u, z) || (rest != Nil && LeftmostSize(rest) <= z)
  }

  lemma {:induction false} CoveredDown(whole: Trie, nb: nat, path: seq<Crumb>, u: Trie, rest: Trie, low: nat, k: nat,
          right: bool)
    requires Covered(whole, nb, path, u, rest) && u.Tree? && k > 0 && Ordered(u, low, k) && Spans(low, k, nb)
    requires right <==> nb >= low + Pow2(k - 1)
    requires rest != Nil ==> Ordered2(rest) && Behind(rest, low + Pow2(k))
    ensures var c := Crumb(u.ring, u.size, right, if right then u.left else u.right);
      var rest' := if !right && u.right != Nil then u.right else rest;
      && Covered(whole, nb, path + [c], if right then u.right else u.left, rest')
      && (rest' != Nil ==> Ordered2(rest') && Behind(rest', if right then low + Pow2(k) else low + Pow2(k - 1)))
  {
    var c := Crumb(u.ring, u.size, right, if right then u.left else u.right);
    var rest' := if !right && u.right != Nil then u.right else rest;
    Doubles(k - 1);
    if !right && u.right != Nil {
      LeftmostLeast(u.right, low + Pow2(k - 1), k - 1);
      SizeInSpan(u.right, low + Pow2(k - 1), k - 1, LeftmostSize(u.right));
      forall z: nat | HasSize(u.right, z)
        ensures z >= low + Pow2(k - 1)
      {
        SizeInSpan(u.right, low + Pow2(k - 1), k - 1, z);
      }
    }
    forall z: nat | HasSize(whole, z) && z >= nb
      ensures OnPath(path + [c], z) || HasSize(if right then u.right else u.left, z) || (rest' != Nil && LeftmostSize(rest') <= z)
    {
      OnPathDown(path, c, z);
      if rest != Nil { assert HasSize(rest, LeftmostSize(rest)) && LeftmostSize(rest) >= low + Pow2(k); }
      if right && HasSize(u.left, z) { SizeInSpan(u.left, low, k - 1, z); }
      assert OnPath(path, z) || HasSize(u, z) || (rest != Nil && LeftmostSize(rest) <= z);
      if HasSize(u, z) {
        assert z == u.size || HasSize(u.left, z) || HasSize(u.right, z);
        assert z == u.size ==> OnPath(path + [c], z);
        assert right ==> !HasSize(u.left, z);
        assert !right && HasSize(u.right, z) ==> rest' == u.right && LeftmostSize(rest') <= z;
      } else if !OnPath(path, z) {
        assert rest' != Nil && LeftmostSize(rest') <= z;
      }
    }
  }

  // The leftmost size of the trie is its least one.
  ghost predicate Ordered2(t: Trie) {
    t != Nil && HasSize(t, LeftmostSize(t)) && forall z: nat :: HasSize(t, z) ==> LeftmostSize(t) <= z
  }

  // ----- the candidate so far

  // v fits with rsize to spare, or there is none yet and rsize is what -nb wraps to.
  ghost predicate Candidate(f: Forest, nb: nat, v: nat, rsize: nat) {
    && (v == 0 ==> rsize == WORD - nb)
    && (v != 0 ==> Holds(f, v, nb + rsize) && nb + rsize < WORD)
  }

  // The nodes from p on are the trie u, all of it in the forest.
  ghost predicate Part(f: Forest, p: nat, par: Parent, u: Trie, i: nat) {
    && Rep(f.nodes, p, par, u, i)
    && (forall a: nat, z: nat :: Has(u, a, z) ==> Holds(f, a, z))
    && (forall z: nat :: HasSize(u, z) ==> z < WORD)
  }

  lemma PartNode(f: Forest, p: nat, par: Parent, u: Trie, i: nat)
    requires Part(f, p, par, u, i)
    ensures p == 0 <==> u == Nil
    ensures p != 0 ==>
      p in f.nodes && f.nodes[p].size == u.size && Holds(f, p, u.size) && HasSize(u, u.size) && u.size < WORD
    ensures p != 0 ==> Part(f, f.nodes[p].left, Below(p), u.left, i) && Part(f, f.nodes[p].right, Below(p), u.right, i)
  {
    if u.Tree? {
      assert InRing(f.nodes, u.ring, 0, u.size, i);
      assert u.ring[0] in u.ring;
      assert Has(u, p, u.size) && HasSize(u, u.size);
      forall a: nat, z: nat | Has(u.left, a, z) || Has(u.right, a, z)
        ensures Holds(f, a, z)
      {
        assert Has(u, a, z);
      }
      forall z: nat | HasSize(u.left, z) || HasSize(u.right, z)
        ensures z < WORD
      {
        assert HasSize(u, z);
      }
    }
  }

  // One more node is looked at: the difference is taken modulo 2^32.
  lemma Compared(f: Forest, nb: nat, v: nat, rsize: nat, t: nat, z: nat)
    requires Candidate(f, nb, v, rsize) && Holds(f, t, z) && z < WORD && 0 < nb < WORD && t != 0
    ensures var trem := (z - nb) % WORD;
      && (trem < rsize ==> z >= nb && trem == z - nb && Candidate(f, nb, t, trem))
      && (trem >= rsize && z >= nb ==> nb + rsize <= z)
  {
    var trem := (z - nb) % WORD;
    if z < nb { assert trem == z - nb + WORD; } else { assert trem == z - nb; }
  }

  lemma LeftmostNext(u: Trie)
    requires u != Nil
    ensures LeftmostChild(u) == Nil ==> LeftmostSize(u) == u.size
    ensures LeftmostChild(u) != Nil ==> LeftmostSize(u) == u.size || LeftmostSize(u) == LeftmostSize(LeftmostChild(u))
    ensures forall z: nat :: HasSize(LeftmostChild(u), z) ==> HasSize(u, z)
  {
  }

  // The search for the best fit in bin i has come to the node t.
  ghost predicate Hunting(f: Forest, i: nat, nb: nat, path: seq<Crumb>, u: Trie, t: nat, bits: nat, rst: nat,
          rest: Trie, par: Parent, v: nat, rsize: nat)
    requires |f.bins| == NTREEBINS && |f.shapes| == NTREEBINS && i < NTREEBINS
  {
    && Seeking(f, i, nb, path, u, t, bits) && Covered(f.shapes[i], nb, path, u, rest)
    && Part(f, rst, par, rest, i) && (rst == 0 <==> rest == Nil)
    && (rest != Nil ==> Ordered2(rest) && Behind(rest, LowAt(path, RootLow(i), RootBits(i)) + Pow2(RootBits(i) - |path|)))
    && (forall a: nat, z: nat :: Has(rest, a, z) ==> Has(f.shapes[i], a, z))
    && Candidate(f, nb, v, rsize) && (v != 0 ==> Has(f.shapes[i], v, nb + rsize))
    && (forall z: nat :: OnPath(path, z) && z >= nb ==> nb + rsize <= z)
  }

  lemma HuntStart(f: Forest, i: nat, nb: nat)
    requires Valid(f) && MIN_LARGE <= nb < WORD && i == TreeIndex(nb) < NTREEBINS
    ensures Hunting(f, i, nb, [], f.shapes[i], f.bins[i], Shl(nb, LeftShift(i)), 0, Nil, OfBin, 0, WORD - nb)
  {
    hide TreeIndex, Pow2, LowAt, Seeking, BinOK, Shl, Ordered;
    RootSpan(nb);
    SeekRoot(f, i, nb);
    NilHasNone();
  }

  lemma NilHasNone()
    ensures forall a: nat, z: nat :: !Has(Nil, a, z)
    ensures forall z: nat :: !HasSize(Nil, z)
  {
  }

  // Chunks of one bin are in the forest.
  lemma BinPart(f: Forest, i: nat)
    requires Valid(f) && i < NTREEBINS
    ensures Part(f, f.bins[i], OfBin, f.shapes[i], i)
  {
    assert BinOK(f, i);
  }

  lemma {:induction false} PlugPart(path: seq<Crumb>, u: Trie)
    ensures forall a: nat, z: nat :: Has(u, a, z) ==> Has(Plug(path, u), a, z)
    decreases |path|
  {
    if path != [] { PlugPart(path[1..], u); }
  }

  // What the hunt knows about the node it has come to.
  lemma HuntNode(f: Forest, i: nat, nb: nat, path: seq<Crumb>, u: Trie, t: nat, bits: nat)
    requires Valid(f) && i < NTREEBINS && Seeking(f, i, nb, path, u, t, bits)
    ensures t == 0 <==> u == Nil
    ensures t != 0 ==>
      t in f.nodes && f.nodes[t].size == u.size && u.size < WORD && Has(f.shapes[i], t, u.size) && Holds(f, t, u.size)
    ensures t != 0 && u.right != Nil ==>
      Part(f, f.nodes[t].right, Below(t), u.right, i) && f.nodes[t].right != f.nodes[t].left && f.nodes[t].right != 0
    ensures t != 0 && u.right == Nil ==> f.nodes[t].right == 0
    ensures t != 0 ==> forall a: nat, z: nat :: Has(u.right, a, z) ==> Has(f.shapes[i], a, z)
    ensures |f.bins| == NTREEBINS && |f.shapes| == NTREEBINS && |path| <= RootBits(i)
    ensures forall a: nat, z: nat :: Has(u, a, z) ==> Has(f.shapes[i], a, z)
  {
    hide Ordered, Pow2, LowAt, TreeIndex, Marked, Plug, OnPath;
    assert BinOK(f, i);
    SeparateAt(path, u);
    PlugPart(path, u);
    if u.Tree? {
      assert InRing(f.nodes, u.ring, 0, u.size, i);
      assert u.ring[0] in u.ring;
      assert Has(u, t, u.size) && Has(f.shapes[i], t, u.size);
      HasMember(f.shapes[i], t, u.size);
      RootMember(f.nodes, f.nodes[t].left, Below(t), u.left, i);
      RootMember(f.nodes, f.nodes[t].right, Below(t), u.right, i);
      forall a: nat, z: nat | Has(u.right, a, z)
        ensures Holds(f, a, z)
      {
        assert Has(u, a, z) && Has(f.shapes[i], a, z);
      }
      forall z: nat | HasSize(u.right, z)
        ensures z < WORD
      {
        var a := SizeHad(u.right, z);
        assert Has(u, a, z) && Has(f.shapes[i], a, z);
        HasMember(f.shapes[i], a, z);
      }
    }
  }

  // Every size of a trie is that of a chunk in it.
  lemma {:induction false} SizeHad(t: Trie, z: nat) returns (a: nat)
    requires Separate(t) && HasSize(t, z)
    ensures Has(t, a, z)
    decreases t
  {
    if z == t.size {
      a := t.ring[0];
      assert a in t.ring;
    } else if HasSize(t.left, z) {
      a := SizeHad(t.left, z);
    } else {
      a := SizeHad(t.right, z);
    }
  }

  // One node further down.
  lemma HuntOn(f: Forest, i: nat, nb: nat, path: seq<Crumb>, u: Trie, t: nat, bits: nat, rst: nat, rest: Trie, par: Parent,
      v: nat, rsize: nat, v': nat, rsize': nat) returns (path': seq<Crumb>, u': Trie, rest': Trie, par': Parent)
    requires Valid(f) && MIN_LARGE <= nb < WORD && i == TreeIndex(nb) < NTREEBINS && t != 0
    requires Hunting(f, i, nb, path, u, t, bits, rst, rest, par, v, rsize)
    requires t in f.nodes && u.Tree? && rsize' != 0
    requires if (u.size - nb) % WORD < rsize then v' == t && rsize' == (u.size - nb) % WORD else v' == v && rsize' == rsize
    ensures bits / 0x8000_0000 <= 1
    ensures var rt := f.nodes[t].right;
      var t' := Child(f.nodes[t], bits / 0x8000_0000 == 1);
      Hunting(f, i, nb, path', u', t', 2 * bits % WORD, if rt != 0 && rt != t' then rt else rst, rest', par', v', rsize')
    ensures |path'| == |path| + 1 <= RootBits(i)
  {
    hide TreeIndex, Rep, Shifted, Marked, Part, Shl, Seeking, Covered, Plug, Ordered, Ordered2, Behind, Valid,
      Candidate, Has, OnPath, LowAt, Pow2;
    HuntNode(f, i, nb, path, u, t, bits);
    var low, k := LowAt(path, RootLow(i), RootBits(i)), RootBits(i) - |path|;
    HuntHere(f, i, nb, path, u, t, bits, v, rsize, v', rsize');
    path', u' := SeekDown(f, i, nb, path, u, t, bits);
    var right := bits / 0x8000_0000 == 1;
    var c := Crumb(u.ring, u.size, right, if right then u.left else u.right);
    HuntSide(f, i, nb, path, u, t, bits);
    SeekSpans(f, i, nb, path, u, t, bits);
    OneSize(low, k, nb, u.size);
    CoveredDown(f.shapes[i], nb, path, u, rest, low, k, right);
    LowDown(path, c, RootLow(i), RootBits(i));
    Doubles(k - 1);
    rest' := if !right && u.right != Nil then u.right else rest;
    par' := if !right && u.right != Nil then Below(t) else par;
    forall a: nat, z: nat | Has(rest', a, z)
      ensures Has(f.shapes[i], a, z)
    {
    }
    forall z: nat | OnPath(path', z) && z >= nb
      ensures nb + rsize' <= z
    {
      OnPathDown(path, c, z);
    }
  }

  // The node reached is compared with the candidate.
  lemma HuntHere(f: Forest, i: nat, nb: nat, path: seq<Crumb>, u: Trie, t: nat, bits: nat, v: nat, rsize: nat,
          v': nat, rsize': nat)
    requires Valid(f) && 0 < nb < WORD && i < NTREEBINS && t != 0 && t in f.nodes && u.Tree? && rsize' != 0
    requires Seeking(f, i, nb, path, u, t, bits) && Candidate(f, nb, v, rsize)
    requires (v != 0 ==> Has(f.shapes[i], v, nb + rsize))
    requires if (u.size - nb) % WORD < rsize then v' == t && rsize' == (u.size - nb) % WORD else v' == v && rsize' == rsize
    ensures u.size != nb && rsize' <= rsize && (u.size >= nb ==> nb + rsize' <= u.size)
    ensures Candidate(f, nb, v', rsize') && (v' != 0 ==> Has(f.shapes[i], v', nb + rsize'))
  {
    hide TreeIndex, Rep, Shifted, Marked, Seeking, Ordered;
    HuntNode(f, i, nb, path, u, t, bits);
    Compared(f, nb, v, rsize, t, u.size);
  }

  lemma SeekSpans(f: Forest, i: nat, nb: nat, path: seq<Crumb>, u: Trie, t: nat, bits: nat)
    requires |f.bins| == NTREEBINS && |f.shapes| == NTREEBINS && i < NTREEBINS && Seeking(f, i, nb, path, u, t, bits)
    requires u.Tree?
    ensures |path| <= RootBits(i) && Ordered(u, LowAt(path, RootLow(i), RootBits(i)), RootBits(i) - |path|)
    ensures Spans(LowAt(path, RootLow(i), RootBits(i)), RootBits(i) - |path|, nb)
    ensures Spans(LowAt(path, RootLow(i), RootBits(i)), RootBits(i) - |path|, u.size)
  {
  }

  // The next bit tells on which side of the middle the size is.
  lemma HuntSide(f: Forest, i: nat, nb: nat, path: seq<Crumb>, u: Trie, t: nat, bits: nat)
    requires Valid(f) && i < NTREEBINS && Seeking(f, i, nb, path, u, t, bits) && |path| < RootBits(i)
    ensures bits / 0x8000_0000 == 1 <==> nb >= LowAt(path, RootLow(i), RootBits(i)) + Pow2(RootBits(i) - |path| - 1)
  {
    hide TreeIndex, Rep, Marked, Valid, Ordered, Plug, OnPath;
    Branch(nb - LowAt(path, RootLow(i), RootBits(i)), RootBits(i) - |path|);
  }
  // What the way down bin i has left to look at: the trie rest at t, and nothing once the fit is exact.
  ghost predicate HuntEnd(f: Forest, i: nat, nb: nat, t: nat, rest: Trie, par: Parent, v: nat, rsize: nat)
    requires |f.shapes| == NTREEBINS && i < NTREEBINS
  {
    && Candidate(f, nb, v, rsize) && (v != 0 ==> Has(f.shapes[i], v, nb + rsize))
    && Part(f, t, par, rest, i) && (forall a: nat, z: nat :: Has(rest, a, z) ==> Has(f.shapes[i], a, z))
    && (rsize != 0 ==>
      (forall z: nat :: HasSize(rest, z) ==> z >= nb) && (rest != Nil ==> Ordered2(rest))
      && (forall z: nat :: HasSize(f.shapes[i], z) && z >= nb ==> nb + rsize <= z || (rest != Nil && LeftmostSize(rest) <= z)))
  }

  lemma HuntEmpty(f: Forest, i: nat, nb: nat)
    requires Valid(f) && i < NTREEBINS && f.bins[i] == 0 && 0 < nb < WORD
    ensures HuntEnd(f, i, nb, 0, Nil, OfBin, 0, WORD - nb)
  {
    assert BinOK(f, i);
    assert forall a: nat, z: nat :: !Has(Nil, a, z) && !HasSize(Nil, z);
  }

  // The way down ends at a missing child: what is left is the deepest right subtree not taken.
  lemma HuntOut(f: Forest, i: nat, nb: nat, path: seq<Crumb>, bits: nat, rst: nat, rest: Trie, par: Parent, v: nat,
          rsize: nat)
    requires Valid(f) && i < NTREEBINS && Hunting(f, i, nb, path, Nil, 0, bits, rst, rest, par, v, rsize)
    ensures HuntEnd(f, i, nb, rst, rest, par, v, rsize)
  {
    hide Part, Ordered, Rep, Pow2, TreeIndex, Marked, Plug;
    assert forall z: nat :: !HasSize(Nil, z);
  }

  // The fit is exact.
  lemma HuntExact(f: Forest, i: nat, nb: nat, path: seq<Crumb>, u: Trie, t: nat, bits: nat)
    requires Valid(f) && i < NTREEBINS && Seeking(f, i, nb, path, u, t, bits) && t != 0 && t in f.nodes
    requires f.nodes[t].size == nb
    ensures exists par :: HuntEnd(f, i, nb, t, u, par, t, 0)
  {
    hide Ordered, Pow2, TreeIndex, Marked, Plug, LowAt, OnPath;
    HuntNode(f, i, nb, path, u, t, bits);
    assert BinOK(f, i);
    forall a: nat, z: nat | Has(u, a, z)
      ensures Holds(f, a, z)
    {
      assert Has(f.shapes[i], a, z);
    }
    SeparateAt(path, u);
    forall z: nat | HasSize(u, z)
      ensures z < WORD
    {
      var a := SizeHad(u, z);
      HasMember(f.shapes[i], a, z);
    }
    assert HuntEnd(f, i, nb, t, u, ParentAt(path, OfBin), t, 0);
  }

  /** The best fit of all: no chunk that is large enough is smaller, and v is 0 only when none is. */
  ghost predicate Best(f: Forest, nb: nat, v: nat, rsize: nat) {
    && Candidate(f, nb, v, rsize)
    && forall a: nat, z: nat :: Holds(f, a, z) && z >= nb ==> v != 0 && nb + rsize <= z
  }

  // Bin i holds the best fit.
  lemma BestHere(f: Forest, i: nat, nb: nat, t: nat, rest: Trie, par: Parent, v: nat, rsize: nat, v': nat, rsize': nat)
    requires Valid(f) && MIN_LARGE <= nb < WORD && i == TreeIndex(nb) < NTREEBINS
    requires HuntEnd(f, i, nb, t, rest, par, v, rsize)
    requires !(t == 0 && v == 0)
    requires Candidate(f, nb, v', rsize') && rsize' <= rsize && (rsize == 0 ==> v' == v)
    requires rest != Nil && rsize != 0 ==> nb + rsize' <= LeftmostSize(rest)
    requires (v' == v && rsize' == rsize) || Has(rest, v', nb + rsize')
    ensures Best(f, nb, v', rsize')
  {
    hide TreeIndex, Rep, Ordered, Separate, Marked;
    FoundHere(f, i, nb, t, rest, par, v, rsize, v', rsize');
    forall a: nat, z: nat | Holds(f, a, z) && z >= nb
      ensures nb + rsize' <= z
    {
      HeldInBin(f, a, z);
      if TreeIndex(z) < i { BinsOrdered(z, nb); }
      if TreeIndex(z) == i { HasMember(f.shapes[i], a, z); }
      if TreeIndex(z) > i {
        HeldSize(f, i, v', nb + rsize');
        BinsOrdered(nb + rsize', z);
      }
    }
  }

  lemma HeldSize(f: Forest, i: nat, a: nat, z: nat)
    requires Valid(f) && i < NTREEBINS && Has(f.shapes[i], a, z)
    ensures MIN_LARGE <= z < WORD && TreeIndex(z) == i
  {
    assert BinOK(f, i);
    HasMember(f.shapes[i], a, z);
  }

  lemma FoundHere(f: Forest, i: nat, nb: nat, t: nat, rest: Trie, par: Parent, v: nat, rsize: nat, v': nat, rsize': nat)
    requires Valid(f) && 0 < nb < WORD && i < NTREEBINS && HuntEnd(f, i, nb, t, rest, par, v, rsize)
    requires !(t == 0 && v == 0)
    requires Candidate(f, nb, v', rsize') && rsize' <= rsize && (rsize == 0 ==> v' == v)
    requires rest != Nil && rsize != 0 ==> nb + rsize' <= LeftmostSize(rest)
    requires (v' == v && rsize' == rsize) || Has(rest, v', nb + rsize')
    ensures v' != 0 && Has(f.shapes[i], v', nb + rsize')
  {
    hide TreeIndex, Rep, Ordered, Separate, Marked;
    if v' == v && rsize' == rsize {
      if v == 0 { RoomLeft(f, i, nb, t, rest, par, v, rsize); }
    } else {
      assert v' != 0;
    }
  }

  // A trie that is left over has sizes below 2^32.
  lemma RoomLeft(f: Forest, i: nat, nb: nat, t: nat, rest: Trie, par: Parent, v: nat, rsize: nat)
    requires |f.shapes| == NTREEBINS && i < NTREEBINS && 0 < nb < WORD && HuntEnd(f, i, nb, t, rest, par, v, rsize)
    requires v == 0 && t != 0
    ensures rest != Nil && rsize != 0 && LeftmostSize(rest) < nb + rsize
  {
    PartNode(f, t, par, rest, i);
    assert HasSize(rest, LeftmostSize(rest));
  }

  // No bin up to i holds a fit: the least chunk of the next bin in use is the best one.
  lemma BestNext(f: Forest, i: nat, j: nat, nb: nat, v: nat, rsize: nat, par: Parent)
    requires Valid(f) && MIN_LARGE <= nb < WORD && i == TreeIndex(nb) < j < NTREEBINS
    requires HuntEnd(f, i, nb, 0, Nil, par, 0, WORD - nb)
    requires f.bins[j] != 0 && forall k :: i < k < j ==> f.bins[k] == 0
    requires f.shapes[j] != Nil && Candidate(f, nb, v, rsize) && nb + rsize <= LeftmostSize(f.shapes[j])
    ensures Best(f, nb, v, rsize)
  {
    hide TreeIndex, Rep, Separate, Marked, Pow2;
    assert BinOK(f, j);
    LeftmostLeast(f.shapes[j], RootLow(j), RootBits(j));
    var m := LeftmostSize(f.shapes[j]);
    forall a: nat, z: nat | Holds(f, a, z) && z >= nb
      ensures nb + rsize <= z
    {
      HeldInBin(f, a, z);
      NotBefore(f, i, j, nb, par, a, z);
      HasMember(f.shapes[TreeIndex(z)], a, z);
      if TreeIndex(z) > j { BinsOrdered(m, z); }
    }
    BigEnough(f, j, nb);
  }

  // The sizes of a higher bin are all large enough.
  lemma BigEnough(f: Forest, j: nat, nb: nat)
    requires Valid(f) && MIN_LARGE <= nb < WORD && TreeIndex(nb) < j < NTREEBINS
    ensures forall z: nat :: HasSize(f.shapes[j], z) ==> z >= nb && z < WORD
  {
    hide TreeIndex, Rep, Separate, Marked, Ordered;
    assert BinOK(f, j);
    forall z: nat | HasSize(f.shapes[j], z)
      ensures z >= nb
    {
      BinsOrdered(nb, z);
    }
  }

  lemma NotBefore(f: Forest, i: nat, j: nat, nb: nat, par: Parent, a: nat, z: nat)
    requires Valid(f) && MIN_LARGE <= nb < WORD && i == TreeIndex(nb) < j < NTREEBINS
    requires HuntEnd(f, i, nb, 0, Nil, par, 0, WORD - nb)
    requires forall k :: i < k < j ==> f.bins[k] == 0
    requires MIN_LARGE <= z < WORD && z >= nb && TreeIndex(z) < NTREEBINS && Has(f.shapes[TreeIndex(z)], a, z)
    ensures TreeIndex(z) >= j
  {
    hide TreeIndex, Ordered, Separate, Marked;
    assert BinOK(f, TreeIndex(z));
    if TreeIndex(z) < i { BinsOrdered(z, nb); }
    if TreeIndex(z) == i { HasMember(f.shapes[i], a, z); }
  }

  // No bin is in use behind i.
  lemma BestNone(f: Forest, i: nat, nb: nat, par: Parent)
    requires Valid(f) && MIN_LARGE <= nb < WORD && i == TreeIndex(nb) < NTREEBINS
    requires HuntEnd(f, i, nb, 0, Nil, par, 0, WORD - nb)
    requires forall k :: i < k < NTREEBINS ==> f.bins[k] == 0
    ensures Best(f, nb, 0, WORD - nb)
  {
    forall a: nat, z: nat | Holds(f, a, z)
      ensures z < nb
    {
      TooSmall(f, i, nb, par, a, z);
    }
  }

  lemma TooSmall(f: Forest, i: nat, nb: nat, par: Parent, a: nat, z: nat)
    requires Valid(f) && MIN_LARGE <= nb < WORD && i == TreeIndex(nb) < NTREEBINS
    requires HuntEnd(f, i, nb, 0, Nil, par, 0, WORD - nb)
    requires forall k :: i < k < NTREEBINS ==> f.bins[k] == 0
    requires Holds(f, a, z)
    ensures z < nb
  {
    hide TreeIndex, Ordered, Separate, Marked;
    HeldInBin(f, a, z);
    assert BinOK(f, TreeIndex(z));
    if TreeIndex(z) < i { BinsOrdered(z, nb); }
    if TreeIndex(z) == i { HasMember(f.shapes[i], a, z); }
  }
}
