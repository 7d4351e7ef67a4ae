/** The tree bins together, and what inserting, removing and searching do to them. */
module MallocForest {
  import opened Words
  import opened MallocSizes
  import opened MallocBits
  import opened MallocTrie
  import opened MallocTree

  datatype Forest = Forest(nodes: map<nat, Node>, bins: seq<nat>, marks: bv32, shapes: seq<Trie>)

  // The sizes of a trie all belong in bin i.
  ghost predicate InBin(t: Trie, i: nat) {
    forall z: nat :: HasSize(t, z) ==> MIN_LARGE <= z < WORD && TreeIndex(z) == i
  }

  // Bin i, as do_check_treebin checks it, and more.
  ghost predicate BinOK(f: Forest, i: nat)
    requires |f.bins| == NTREEBINS && |f.shapes| == NTREEBINS && i < NTREEBINS
  {
    && Rep(f.nodes, f.bins[i], OfBin, f.shapes[i], i)
    && Ordered(f.shapes[i], RootLow(i), RootBits(i)) && Separate(f.shapes[i]) && InBin(f.shapes[i], i)
    && (Marked(f.marks, i) <==> f.bins[i] != 0)
  }

  ghost predicate Valid(f: Forest) {
    && |f.bins| == NTREEBINS && |f.shapes| == NTREEBINS
    && (forall i :: 0 <= i < NTREEBINS ==> BinOK(f, i))
    && (forall i, j :: 0 <= i < j < NTREEBINS ==> Members(f.shapes[i]) !! Members(f.shapes[j]))
  }

  /** Chunk a of size z is in a tree bin. */
  ghost predicate Holds(f: Forest, a: nat, z: nat) {
    exists i :: 0 <= i < |f.shapes| && Has(f.shapes[i], a, z)
  }

  ghost predicate IsMember(f: Forest, a: nat) {
    exists i :: 0 <= i < |f.shapes| && a in Members(f.shapes[i])
  }

  // A chunk is in the bin of its size only.
  lemma HeldInBin(f: Forest, a: nat, z: nat)
    requires Valid(f) && Holds(f, a, z)
    ensures MIN_LARGE <= z < WORD && TreeIndex(z) < NTREEBINS && Has(f.shapes[TreeIndex(z)], a, z)
  {
    var i :| 0 <= i < |f.shapes| && Has(f.shapes[i], a, z);
    assert BinOK(f, i);
    HasMember(f.shapes[i], a, z);
  }

  // ----- one bin changes

  // f' is f with the trie t' in bin i; nodes of other bins are as they were.
  ghost predicate Changed(f: Forest, f': Forest, i: nat, t': Trie)
    requires |f.bins| == NTREEBINS && |f.shapes| == NTREEBINS && i < NTREEBINS
  {
    && f'.shapes == f.shapes[i := t'] && |f'.bins| == NTREEBINS
    && (forall j :: 0 <= j < NTREEBINS && j != i ==> f'.bins[j] == f.bins[j])
    && (forall j :: 0 <= j < NTREEBINS && j != i ==> (Marked(f'.marks, j) <==> Marked(f.marks, j)))
    && (forall j :: 0 <= j < NTREEBINS && j != i ==> Agree(f.nodes, f'.nodes, Members(f.shapes[j])))
    && (forall j :: 0 <= j < NTREEBINS && j != i ==> Members(f.shapes[j]) !! Members(t'))
  }

  lemma ChangedValid(f: Forest, f': Forest, i: nat, t': Trie)
    requires Valid(f) && i < NTREEBINS && Changed(f, f', i, t') && BinOK(f', i)
    ensures Valid(f')
  {
    forall j | 0 <= j < NTREEBINS
      ensures BinOK(f', j)
    {
      if j != i {
        assert BinOK(f, j);
        RepFrame(f.nodes, f'.nodes, f.bins[j], OfBin, f.shapes[j], j);
      }
    }
  }

  lemma ChangedHolds(f: Forest, f': Forest, i: nat, t': Trie, a: nat, z: nat)
    requires Valid(f) && i < NTREEBINS && Changed(f, f', i, t')
    ensures Holds(f', a, z) <==> Has(t', a, z) || (Holds(f, a, z) && !Has(f.shapes[i], a, z))
  {
    if Holds(f', a, z) {
      var j :| 0 <= j < NTREEBINS && Has(f'.shapes[j], a, z);
      if j != i {
        assert Has(f.shapes[j], a, z);
        HasMember(f.shapes[j], a, z);
        if Has(f.shapes[i], a, z) { HasMember(f.shapes[i], a, z); }
      }
    }
    if Has(t', a, z) { assert Has(f'.shapes[i], a, z); }
    if Holds(f, a, z) && !Has(f.shapes[i], a, z) {
      var j :| 0 <= j < NTREEBINS && Has(f.shapes[j], a, z);
      assert Has(f'.shapes[j], a, z);
    }
  }

  // ----- the way down to a size

  /** The search for size s has come to node p, where the subtrie u hangs; k holds the bits still to come. */
  ghost predicate Seeking(f: Forest, i: nat, s: nat, path: seq<Crumb>, u: Trie, p: nat, bits: nat)
    requires |f.bins| == NTREEBINS && |f.shapes| == NTREEBINS && i < NTREEBINS
  {
    && Plug(path, u) == f.shapes[i] && (path != [] ==> Last(path).ring != [])
    && Rep(f.nodes, p, ParentAt(path, OfBin), u, i)
    && |path| <= RootBits(i) && !OnPath(path, s)
    && Spans(LowAt(path, RootLow(i), RootBits(i)), RootBits(i) - |path|, s)
    && bits == Shifted(s - LowAt(path, RootLow(i), RootBits(i)), RootBits(i) - |path|)
    && (path != [] ==> Holder(path) in f.nodes && p == Child(f.nodes[Holder(path)], Last(path).right))
    && (path == [] ==> p == f.bins[i])
    && (u != Nil ==> Ordered(u, LowAt(path, RootLow(i), RootBits(i)), RootBits(i) - |path|))
  }

  lemma SeekRoot(f: Forest, i: nat, s: nat)
    requires Valid(f) && i < NTREEBINS && Spans(RootLow(i), RootBits(i), s)
    ensures Seeking(f, i, s, [], f.shapes[i], f.bins[i], Shl(s, LeftShift(i)))
  {
    hide Rep, Separate, Ordered, Shl, Shifted, Pow2, TreeIndex, Marked, Spans, Members;
    assert BinOK(f, i);
    SizeBits(s, i);
    assert Plug([], f.shapes[i]) == f.shapes[i];
  }

  // The child on the side of the next bit.
  lemma SeekDown(f: Forest, i: nat, s: nat, path: seq<Crumb>, u: Trie, p: nat, bits: nat)
    returns (path': seq<Crumb>, u': Trie)
    requires Valid(f) && i < NTREEBINS && Seeking(f, i, s, path, u, p, bits) && u != Nil && u.size != s
    ensures |path| < RootBits(i) && p in f.nodes && f.nodes[p].size == u.size && bits / 0x8000_0000 <= 1
    ensures u' == (if bits / 0x8000_0000 == 1 then u.right else u.left)
    ensures path' == path + [Crumb(u.ring, u.size, bits / 0x8000_0000 == 1, if bits / 0x8000_0000 == 1 then u.left else u.right)]
    ensures Seeking(f, i, s, path', u', Child(f.nodes[p], bits / 0x8000_0000 == 1), 2 * bits % WORD)
  {
    hide Valid, Separate, TreeIndex, Marked, Shl, Pow2, LowAt, OnPath, Plug;
    var low, k := LowAt(path, RootLow(i), RootBits(i)), RootBits(i) - |path|;
    assert InRing(f.nodes, u.ring, 0, u.size, i);
    OneSize(low, k, s, u.size);
    Branch(s - low, k);
    Doubles(k - 1);
    var right := bits / 0x8000_0000 == 1;
    var c := Crumb(u.ring, u.size, right, if right then u.left else u.right);
    u' := if right then u.right else u.left;
    path' := path + [c];
    PlugDown(path, c, u');
    LowDown(path, c, RootLow(i), RootBits(i));
    OnPathDown(path, c, s);
  }

  // A span of no bits has one size in it.
  lemma OneSize(low: nat, k: nat, s: nat, z: nat)
    requires Spans(low, k, s) && Spans(low, k, z) && s != z
    ensures k > 0
  {
  }

  // ----- another subtrie at the end of a path

  // u' fits where u was.
  ghost predicate Fits(f: Forest, i: nat, path: seq<Crumb>, u: Trie, u': Trie)
    requires |f.shapes| == NTREEBINS && i < NTREEBINS
  {
    && Plug(path, u) == f.shapes[i] && |path| <= RootBits(i)
    && Ordered(u', LowAt(path, RootLow(i), RootBits(i)), RootBits(i) - |path|)
    && Separate(u') && PathMembers(path) !! Members(u') && InBin(u', i)
    && forall z: nat :: HasSize(u', z) ==> !OnPath(path, z)
  }

  lemma FitsValid(f: Forest, f': Forest, i: nat, path: seq<Crumb>, u: Trie, u': Trie)
    requires Valid(f) && i < NTREEBINS && Fits(f, i, path, u, u') && Changed(f, f', i, Plug(path, u'))
    requires Rep(f'.nodes, f'.bins[i], OfBin, Plug(path, u'), i) && (Marked(f'.marks, i) <==> f'.bins[i] != 0)
    ensures Valid(f')
  {
    hide Rep, Marked, TreeIndex;
    assert BinOK(f, i);
    SeparatePlug(path, u, u');
    OrderedPlug(path, u, u', RootLow(i), RootBits(i));
    InBinPlug(path, u, u', i);
    ChangedValid(f, f', i, Plug(path, u'));
  }

  // ----- inserting

  // The forest with a new ring or a longer one at the end of a path.
  ghost predicate Gains(f: Forest, f': Forest, x: nat, s: nat) {
    Valid(f') && forall a, z :: Holds(f', a, z) <==> Holds(f, a, z) || (a == x && z == s)
  }

  lemma LeafFits(f: Forest, i: nat, s: nat, path: seq<Crumb>, p: nat, bits: nat, x: nat)
    requires Valid(f) && i < NTREEBINS && Seeking(f, i, s, path, Nil, p, bits)
    requires MIN_LARGE <= s < WORD && TreeIndex(s) == i && x != 0 && !IsMember(f, x)
    ensures Fits(f, i, path, Nil, Tree([x], s, Nil, Nil))
    ensures PathMembers(path) == Members(f.shapes[i]) && Members(Tree([x], s, Nil, Nil)) == {x}
  {
    hide Rep, Shifted, TreeIndex, LowAt, OnPath;
    assert BinOK(f, i);
    assert x !in Members(f.shapes[i]);
    PlugMembers(path, Nil);
    var u' := Tree([x], s, Nil, Nil);
    assert RingSet([x]) == {x} && Members(u') == {x};
    assert Members(Plug(path, Nil)) == PathMembers(path);
    assert Separate(u');
    forall z: nat | HasSize(u', z)
      ensures z == s
    {
      assert !HasSize(u'.left, z) && !HasSize(u'.right, z);
    }
    assert InBin(u', i);
    assert PathMembers(path) !! Members(u');
    assert forall z: nat :: HasSize(u', z) ==> !OnPath(path, z);
    assert Plug(path, Nil) == f.shapes[i] && |path| <= RootBits(i);
    assert Ordered(u', LowAt(path, RootLow(i), RootBits(i)), RootBits(i) - |path|);
  }

  /** X at an empty place below the end of the path. */
  lemma InsertLeaf(f: Forest, f': Forest, i: nat, s: nat, path: seq<Crumb>, p: nat, bits: nat, x: nat)
    requires Valid(f) && i < NTREEBINS && Seeking(f, i, s, path, Nil, p, bits) && path != []
    requires MIN_LARGE <= s < WORD && TreeIndex(s) == i && x != 0 && !IsMember(f, x)
    requires f'.bins == f.bins && f'.marks == f.marks && f'.shapes == f.shapes[i := Plug(path, Tree([x], s, Nil, Nil))]
    requires f'.nodes == f.nodes[x := Node(s, i, 0, 0, Below(Holder(path)), x, x)][Holder(path) := WithChild(f.nodes[Holder(path)], Last(path).right, x)]
    ensures Gains(f, f', x, s)
  {
    hide Ordered, Separate, TreeIndex, Marked, Shifted, OnPath, Spans, Fits;
    var u' := Tree([x], s, Nil, Nil);
    assert BinOK(f, i);
    LeafFits(f, i, s, path, p, bits, x);
    var q := RepAt(f.nodes, f.bins[i], OfBin, path, Nil, i);
    assert x !in Members(f.shapes[i]);
    assert Ring(f'.nodes, [x], s, i);
    RepPlug(f.nodes, f'.nodes, f.bins[i], OfBin, path, Nil, u', x, i);
    PlugMembers(path, u');
    OthersUntouched(f, f', i, x, Plug(path, u'));
    FitsValid(f, f', i, path, Nil, u');
    GainedAll(f, f', i, path, Nil, u', x, s);
  }

  lemma GainedAll(f: Forest, f': Forest, i: nat, path: seq<Crumb>, u: Trie, u': Trie, x: nat, s: nat)
    requires Valid(f) && Valid(f') && i < NTREEBINS && Plug(path, u) == f.shapes[i] && Changed(f, f', i, Plug(path, u'))
    requires forall a, z :: Has(u', a, z) <==> Has(u, a, z) || (a == x && z == s)
    ensures Gains(f, f', x, s)
  {
    forall a, z
      ensures Holds(f', a, z) <==> Holds(f, a, z) || (a == x && z == s)
    {
      Gained(f, f', i, path, u, u', x, s, a, z);
    }
  }

  // The first chunk of its bin.
  lemma InsertFirst(f: Forest, f': Forest, i: nat, s: nat, x: nat)
    requires Valid(f) && MIN_LARGE <= s < WORD && i == TreeIndex(s) < NTREEBINS && x != 0 && !IsMember(f, x)
    requires f.bins[i] == 0
    requires f' == Forest(f.nodes[x := Node(s, i, 0, 0, OfBin, x, x)], f.bins[i := x], Mark(f.marks, i), f.shapes[i := Tree([x], s, Nil, Nil)])
    ensures Gains(f, f', x, s)
  {
    hide Ordered, Separate, Mark, Marked, Shifted, OnPath, Spans, Fits, Shl, TreeIndex;
    var u' := Tree([x], s, Nil, Nil);
    RootSpan(s);
    assert BinOK(f, i) && f.shapes[i] == Nil;
    SeekRoot(f, i, s);
    LeafFits(f, i, s, [], 0, Shl(s, LeftShift(i)), x);
    assert Ring(f'.nodes, [x], s, i);
    assert Plug([], u') == u';
    forall j | 0 <= j < NTREEBINS
      ensures Marked(f'.marks, j) <==> j == i || Marked(f.marks, j)
    {
      MarkOne(f.marks, i, j);
    }
    assert x !in Members(f.shapes[i]);
    OthersUntouched(f, f', i, x, u');
    FitsValid(f, f', i, [], Nil, u');
    GainedAll(f, f', i, [], Nil, u', x, s);
  }

  // One more chunk of a size there is.
  lemma InsertChain(f: Forest, f': Forest, i: nat, s: nat, path: seq<Crumb>, u: Trie, p: nat, bits: nat, x: nat)
    requires Valid(f) && i < NTREEBINS && Seeking(f, i, s, path, u, p, bits) && u != Nil && u.size == s
    requires x != 0 && !IsMember(f, x) && u.ring != [] && u.ring[0] in f.nodes
    requires f'.bins == f.bins && f'.marks == f.marks
    requires f'.shapes == f.shapes[i := Plug(path, Tree(WithSecond(u.ring, x), s, u.left, u.right))]
    requires Linked(f.nodes, f'.nodes, u.ring, x, s, i)
    ensures Gains(f, f', x, s)
  {
    hide Ordered, Separate, Marked, Shifted, OnPath, Spans, Fits, TreeIndex, LowAt;
    var u' := Tree(WithSecond(u.ring, x), s, u.left, u.right);
    assert BinOK(f, i);
    ChainFits(f, i, s, path, u, p, bits, x);
    assert x !in Members(f.shapes[i]);
    ChainRep(f, f', i, s, path, u, p, bits, x);
    RepSame(f.nodes, f'.nodes, f.bins[i], path, u, u', p, i);
    assert InRing(f.nodes, u.ring, 0, s, i);
    assert u.ring[0] in u.ring && u.ring[Turn(u.ring, 0)] in u.ring;
    PlugMembers(path, u);
    PlugMembers(path, u');
    OthersUntouched(f, f', i, x, Plug(path, u'));
    FitsValid(f, f', i, path, u, u');
    assert forall a :: a in WithSecond(u.ring, x) <==> a in u.ring || a == x;
    GainedAll(f, f', i, path, u, u', x, s);
  }

  lemma ChainRep(f: Forest, f': Forest, i: nat, s: nat, path: seq<Crumb>, u: Trie, p: nat, bits: nat, x: nat)
    requires Valid(f) && i < NTREEBINS && Seeking(f, i, s, path, u, p, bits) && u != Nil && u.size == s
    requires x != 0 && !IsMember(f, x) && u.ring != [] && u.ring[0] in f.nodes
    requires Linked(f.nodes, f'.nodes, u.ring, x, s, i)
    ensures Rep(f'.nodes, p, ParentAt(path, OfBin), Tree(WithSecond(u.ring, x), s, u.left, u.right), i)
    ensures Agree(f.nodes, f'.nodes, PathMembers(path))
  {
    hide Ordered, Shifted, OnPath, Spans, TreeIndex, LowAt, Marked, Pow2;
    assert BinOK(f, i);
    SeparateAt(path, u);
    PlugMembers(path, u);
    assert x !in Members(f.shapes[i]);
    assert RingSet(u.ring) <= Members(u);
    assert InRing(f.nodes, u.ring, 0, s, i);
    assert u.ring[0] in u.ring && u.ring[Turn(u.ring, 0)] in u.ring;
    RingGrows(f.nodes, f'.nodes, u.ring, x, s, i);
    RepFrame(f.nodes, f'.nodes, f.nodes[p].left, Below(p), u.left, i);
    RepFrame(f.nodes, f'.nodes, f.nodes[p].right, Below(p), u.right, i);
  }

  lemma ChainFits(f: Forest, i: nat, s: nat, path: seq<Crumb>, u: Trie, p: nat, bits: nat, x: nat)
    requires Valid(f) && i < NTREEBINS && Seeking(f, i, s, path, u, p, bits) && u != Nil && u.size == s
    requires x != 0 && !IsMember(f, x) && u.ring != []
    ensures Fits(f, i, path, u, Tree(WithSecond(u.ring, x), s, u.left, u.right))
    ensures Members(Tree(WithSecond(u.ring, x), s, u.left, u.right)) == Members(u) + {x}
    ensures Separate(f.shapes[i])
  {
    hide Rep, Shifted, TreeIndex, Marked, LowAt, Plug, PathMembers, Pow2, Shl, Separate, Members, Ordered, HasSize,
      OnPath, Spans, WithSecond;
    var u' := Tree(WithSecond(u.ring, x), s, u.left, u.right);
    assert BinOK(f, i);
    SeparateAt(path, u);
    PlugMembers(path, u);
    assert x !in Members(f.shapes[i]);
    SecondSeparate(u, x);
    OrderedAt(path, u, RootLow(i), RootBits(i));
    SecondOrdered(u, u', LowAt(path, RootLow(i), RootBits(i)), RootBits(i) - |path|);
    SameSizes(u, u');
    PlugSizes(path, u);
  }

  lemma SecondSeparate(u: Trie, x: nat)
    requires u.Tree? && Separate(u) && x != 0 && x !in Members(u)
    ensures var u' := Tree(WithSecond(u.ring, x), u.size, u.left, u.right);
      Separate(u') && Members(u') == Members(u) + {x}
  {
    assert RingSet(WithSecond(u.ring, x)) == RingSet(u.ring) + {x};
    SecondNoDup(u.ring, x);
  }

  lemma SecondOrdered(u: Trie, u': Trie, low: nat, k: nat)
    requires u.Tree? && u'.Tree? && u'.size == u.size && u'.left == u.left && u'.right == u.right && Ordered(u, low, k)
    ensures Ordered(u', low, k)
  {
  }

  lemma SecondNoDup(ring: seq<nat>, x: nat)
    requires ring != [] && NoDup(ring) && x !in ring
    ensures NoDup(WithSecond(ring, x))
  {
  }

  lemma SameSizes(u: Trie, u': Trie)
    requires u.Tree? && u'.Tree? && u'.size == u.size && u'.left == u.left && u'.right == u.right
    ensures forall z: nat :: HasSize(u', z) <==> HasSize(u, z)
  {
  }

  // Other bins keep their chunks, marks and roots.
  lemma OthersUntouched(f: Forest, f': Forest, i: nat, x: nat, t': Trie)
    requires Valid(f) && i < NTREEBINS && !IsMember(f, x)
    requires |f'.bins| == NTREEBINS && forall j :: 0 <= j < NTREEBINS && j != i ==> f'.bins[j] == f.bins[j]
    requires forall j :: 0 <= j < NTREEBINS && j != i ==> (Marked(f'.marks, j) <==> Marked(f.marks, j))
    requires f'.shapes == f.shapes[i := t'] && Members(t') <= Members(f.shapes[i]) + {x}
    requires forall a :: a in f.nodes && a !in Members(f.shapes[i]) && a != x ==>
      a in f'.nodes && f'.nodes[a] == f.nodes[a]
    ensures Changed(f, f', i, t')
  {
    forall j | 0 <= j < NTREEBINS && j != i
      ensures Members(f.shapes[j]) !! Members(f.shapes[i]) && x !in Members(f.shapes[j])
    {
      if j < i { assert Members(f.shapes[j]) !! Members(f.shapes[i]); } else { assert Members(f.shapes[i]) !! Members(f.shapes[j]); }
    }
  }

  lemma InBinPlug(path: seq<Crumb>, t: Trie, t': Trie, i: nat)
    requires InBin(Plug(path, t), i) && InBin(t', i)
    ensures InBin(Plug(path, t'), i)
  {
    forall z: nat | HasSize(Plug(path, t'), z)
      ensures MIN_LARGE <= z < WORD && TreeIndex(z) == i
    {
      PlugSize(path, t, t', z);
    }
  }

  lemma Gained(f: Forest, f': Forest, i: nat, path: seq<Crumb>, u: Trie, u': Trie, x: nat, s: nat, a: nat, z: nat)
    requires Valid(f) && i < NTREEBINS && Plug(path, u) == f.shapes[i] && Changed(f, f', i, Plug(path, u'))
    requires forall a, z :: Has(u', a, z) <==> Has(u, a, z) || (a == x && z == s)
    ensures Holds(f', a, z) <==> Holds(f, a, z) || (a == x && z == s)
  {
    ChangedHolds(f, f', i, Plug(path, u'), a, z);
    if a == x && z == s {
      PlugGains(path, u', a, z);
    } else {
      PlugHas(path, u, u', a, z);
      if Has(f.shapes[i], a, z) { assert Holds(f, a, z); }
    }
  }
  // ----- removing

  // The forest without x.
  ghost predicate Loses(f: Forest, f': Forest, x: nat) {
    Valid(f') && forall a, z :: Holds(f', a, z) <==> Holds(f, a, z) && a != x
  }

  // The ring u at node p, at the end of a path in bin i.
  ghost predicate Located(f: Forest, i: nat, path: seq<Crumb>, u: Trie, p: nat)
    requires |f.bins| == NTREEBINS && |f.shapes| == NTREEBINS && i < NTREEBINS
  {
    && Plug(path, u) == f.shapes[i] && u.Tree? && (path != [] ==> Last(path).ring != [])
    && Rep(f.nodes, p, ParentAt(path, OfBin), u, i)
    && |path| <= RootBits(i) && Ordered(u, LowAt(path, RootLow(i), RootBits(i)), RootBits(i) - |path|)
    && (forall z: nat :: HasSize(u, z) ==> !OnPath(path, z))
    && Separate(u) && PathMembers(path) !! Members(u) && InBin(u, i)
    && (path == [] ==> p == f.bins[i])
    && (path != [] ==> Holder(path) in f.nodes && Holder(path) in PathMembers(path) && p == Child(f.nodes[Holder(path)], Last(path).right))
  }

  lemma Locate(f: Forest, x: nat, z: nat) returns (path: seq<Crumb>, u: Trie, p: nat, j: nat)
    requires Valid(f) && Holds(f, x, z)
    ensures MIN_LARGE <= z < WORD && TreeIndex(z) < NTREEBINS && Located(f, TreeIndex(z), path, u, p)
    ensures u.size == z && j < |u.ring| && u.ring[j] == x && x != 0
    ensures InRing(f.nodes, u.ring, j, z, TreeIndex(z)) && (j > 0 ==> Hangs(f.nodes, x))
  {
    hide TreeIndex, Marked, LowAt, Spans;
    HeldInBin(f, x, z);
    var i := TreeIndex(z);
    assert BinOK(f, i);
    HasMember(f.shapes[i], x, z);
    path, u := PathTo(f.shapes[i], x);
    SeparateAt(path, u);
    OrderedAt(path, u, RootLow(i), RootBits(i));
    PlugSizes(path, u);
    p := RepAt(f.nodes, f.bins[i], OfBin, path, u, i);
    j :| 0 <= j < |u.ring| && u.ring[j] == x;
    assert InRing(f.nodes, u.ring, j, u.size, i);
    OneSizeOnly(f.shapes[i], path, u, x, z);
  }

  // A chunk is on the ring of its size.
  lemma OneSizeOnly(t: Trie, path: seq<Crumb>, u: Trie, x: nat, z: nat)
    requires Separate(t) && Plug(path, u) == t && u.Tree? && x in u.ring && Has(t, x, z)
    ensures u.size == z
  {
    PlugGains(path, u, x, u.size);
    HasOne(t, x, z, u.size);
  }

  lemma {:induction false} HasOne(t: Trie, x: nat, y: nat, z: nat)
    requires Separate(t) && Has(t, x, y) && Has(t, x, z)
    ensures y == z
  {
    if x in t.ring {
      if Has(t.left, x, y) { HasMember(t.left, x, y); }
      if Has(t.right, x, y) { HasMember(t.right, x, y); }
      if Has(t.left, x, z) { HasMember(t.left, x, z); }
      if Has(t.right, x, z) { HasMember(t.right, x, z); }
    } else if x in Members(t.left) {
      if Has(t.right, x, y) { HasMember(t.right, x, y); }
      if Has(t.right, x, z) { HasMember(t.right, x, z); }
      HasOne(t.left, x, y, z);
    } else {
      if Has(t.left, x, y) { HasMember(t.left, x, y); }
      if Has(t.left, x, z) { HasMember(t.left, x, z); }
      HasOne(t.right, x, y, z);
    }
  }

  lemma Lost(f: Forest, f': Forest, i: nat, path: seq<Crumb>, u: Trie, u': Trie, x: nat, a: nat, z: nat)
    requires Valid(f) && i < NTREEBINS && Plug(path, u) == f.shapes[i] && Changed(f, f', i, Plug(path, u'))
    requires Has(u', a, z) <==> Has(u, a, z) && a != x
    requires x in Members(u) && x !in Members(u') && x !in PathMembers(path)
    ensures Holds(f', a, z) <==> Holds(f, a, z) && a != x
  {
    ChangedHolds(f, f', i, Plug(path, u'), a, z);
    PlugMembers(path, u);
    PlugMembers(path, u');
    if a == x {
      if Has(Plug(path, u'), x, z) { HasMember(Plug(path, u'), x, z); }
      if Holds(f, x, z) { HeldHere(f, i, x, z); }
    } else {
      PlugHas(path, u, u', a, z);
      if Has(f.shapes[i], a, z) { assert Holds(f, a, z); }
    }
  }

  lemma HeldHere(f: Forest, i: nat, x: nat, z: nat)
    requires Valid(f) && Holds(f, x, z) && i < NTREEBINS && x in Members(f.shapes[i])
    ensures Has(f.shapes[i], x, z)
  {
    var j :| 0 <= j < |f.shapes| && Has(f.shapes[j], x, z);
    HasMember(f.shapes[j], x, z);
  }

  ghost predicate HoldsChild(n: map<nat, Node>, n': map<nat, Node>, h: nat, right: bool, c: nat) {
    h in n && h in n' && n'[h] == WithChild(n[h], right, c)
  }

  // The nodes off the path and the subtrie are untouched, and the link to the subtrie leads to q'.
  ghost predicate Relinked(f: Forest, f': Forest, i: nat, path: seq<Crumb>, u: Trie, q': nat)
    requires |f.bins| == NTREEBINS && i < NTREEBINS && (path != [] ==> Last(path).ring != [])
  {
    && (path == [] ==> f'.bins == f.bins[i := q'] && f'.marks == if q' == 0 then Clear(f.marks, i) else f.marks)
    && (path != [] ==> f'.bins == f.bins && f'.marks == f.marks && HoldsChild(f.nodes, f'.nodes, Holder(path), Last(path).right, q'))
    && (forall a :: a in f.nodes && a !in Members(u) && (path != [] ==> a != Holder(path)) ==> a in f'.nodes && f'.nodes[a] == f.nodes[a])
  }

  lemma RemoveAt(f: Forest, f': Forest, i: nat, path: seq<Crumb>, u: Trie, u': Trie, p: nat, q': nat, x: nat)
    requires Valid(f) && i < NTREEBINS && Located(f, i, path, u, p) && Fits(f, i, path, u, u')
    requires Relinked(f, f', i, path, u, q') && Rep(f'.nodes, q', ParentAt(path, OfBin), u', i)
    requires f'.shapes == f.shapes[i := Plug(path, u')]
    requires x in Members(u) && x !in Members(u') && Members(u') <= Members(u)
    requires forall a, z :: Has(u', a, z) <==> Has(u, a, z) && a != x
    ensures Loses(f, f', x)
  {
    hide Ordered, Spans, LowAt, OnPath, TreeIndex, Marked, Fits, InBin, Clear;
    assert BinOK(f, i);
    PlugMembers(path, u);
    PlugMembers(path, u');
    MarksFollow(f, f', i, path, u, q');
    RootMember(f'.nodes, q', ParentAt(path, OfBin), u', i);
    RootMember(f.nodes, p, ParentAt(path, OfBin), u, i);
    if path == [] {
      assert Plug(path, u') == u';
    } else {
      RepPlug(f.nodes, f'.nodes, f.bins[i], OfBin, path, u, u', q', i);
      RootMember(f.nodes, f.bins[i], OfBin, f.shapes[i], i);
    }
    RelinkedOthers(f, f', i, path, u, u', q');
    FitsValid(f, f', i, path, u, u');
    forall a, z
      ensures Holds(f', a, z) <==> Holds(f, a, z) && a != x
    {
      Lost(f, f', i, path, u, u', x, a, z);
    }
  }

  lemma MarksFollow(f: Forest, f': Forest, i: nat, path: seq<Crumb>, u: Trie, q': nat)
    requires Valid(f) && i < NTREEBINS && (path != [] ==> Last(path).ring != []) && Relinked(f, f', i, path, u, q')
    requires f.bins[i] != 0
    ensures forall j :: 0 <= j < NTREEBINS && j != i ==> (Marked(f'.marks, j) <==> Marked(f.marks, j))
    ensures Marked(f'.marks, i) <==> f'.bins[i] != 0
  {
    hide Marked, Clear, Mark;
    assert BinOK(f, i);
    forall j | 0 <= j < NTREEBINS
      ensures Marked(Clear(f.marks, i), j) <==> j != i && Marked(f.marks, j)
    {
      MarkOne(f.marks, i, j);
    }
  }

  lemma RelinkedOthers(f: Forest, f': Forest, i: nat, path: seq<Crumb>, u: Trie, u': Trie, q': nat)
    requires Valid(f) && i < NTREEBINS && (path != [] ==> Last(path).ring != []) && Relinked(f, f', i, path, u, q')
    requires Plug(path, u) == f.shapes[i] && f'.shapes == f.shapes[i := Plug(path, u')]
    requires path != [] ==> Holder(path) in PathMembers(path)
    requires Members(u') <= Members(u)
    requires forall j :: 0 <= j < NTREEBINS && j != i ==> (Marked(f'.marks, j) <==> Marked(f.marks, j))
    ensures Changed(f, f', i, Plug(path, u'))
  {
    hide Marked, Clear, Mark;
    PlugMembers(path, u);
    PlugMembers(path, u');
    forall j | 0 <= j < NTREEBINS && j != i
      ensures Members(f.shapes[j]) !! Members(f.shapes[i])
    {
      if j < i { assert Members(f.shapes[j]) !! Members(f.shapes[i]); } else { assert Members(f.shapes[i]) !! Members(f.shapes[j]); }
    }
  }
  // ----- the four ways to remove a chunk

  // X hangs on a ring.
  lemma RemoveHanging(f: Forest, f': Forest, i: nat, path: seq<Crumb>, u: Trie, p: nat, j: nat)
    requires Valid(f) && i < NTREEBINS && Located(f, i, path, u, p) && 0 < j < |u.ring| && u.ring[j] in f.nodes
    requires Unlinked(f.nodes, f'.nodes, u.ring[j]) && f'.bins == f.bins && f'.marks == f.marks
    requires f'.shapes == f.shapes[i := Plug(path, Tree(Without(u.ring, j), u.size, u.left, u.right))]
    ensures Loses(f, f', u.ring[j])
  {
    hide Ordered, Spans, LowAt, OnPath, TreeIndex, Marked, InBin, Clear;
    var x := u.ring[j];
    var u' := Tree(Without(u.ring, j), u.size, u.left, u.right);
    WithoutSet(u.ring, j);
    RingInside(f.nodes, u, j, i);
    ShrunkFits(f, i, path, u, p, j);
    RingShrinks(f.nodes, f'.nodes, u.ring, j, u.size, i);
    assert u'.ring[0] == p;
    RepFrame(f.nodes, f'.nodes, f.nodes[p].left, Below(p), u.left, i);
    RepFrame(f.nodes, f'.nodes, f.nodes[p].right, Below(p), u.right, i);
    assert p in u.ring;
    SameLink(f, f', i, path, u, p);
    RemoveAt(f, f', i, path, u, u', p, p, x);
  }

  // The link stays when only nodes of the subtrie change.
  lemma SameLink(f: Forest, f': Forest, i: nat, path: seq<Crumb>, u: Trie, p: nat)
    requires Valid(f) && i < NTREEBINS && Located(f, i, path, u, p) && p != 0
    requires f'.bins == f.bins && f'.marks == f.marks
    requires forall a :: a in f.nodes && a !in Members(u) ==> a in f'.nodes && f'.nodes[a] == f.nodes[a]
    ensures Relinked(f, f', i, path, u, p)
  {
  }

  // The neighbours of a chunk on its ring.
  lemma RingInside(n: map<nat, Node>, u: Trie, j: nat, i: nat)
    requires u.Tree? && j < |u.ring| && Ring(n, u.ring, u.size, i)
    ensures u.ring[j] in n && n[u.ring[j]].fd in u.ring && n[u.ring[j]].bk in u.ring
    ensures n[u.ring[j]].bk == if j == 0 then u.ring[|u.ring| - 1] else u.ring[j - 1]
  {
    assert InRing(n, u.ring, j, u.size, i);
    assert InRing(n, u.ring, if j == 0 then |u.ring| - 1 else j - 1, u.size, i);
  }

  lemma WithoutSet(ring: seq<nat>, j: nat)
    requires j < |ring| && |ring| > 1 && NoDup(ring)
    ensures Without(ring, j) != [] && NoDup(Without(ring, j)) && RingSet(Without(ring, j)) == RingSet(ring) - {ring[j]}
    ensures forall a :: a in Without(ring, j) <==> a in ring && a != ring[j]
  {
    var w := Without(ring, j);
    forall a | a in ring && a != ring[j]
      ensures a in w
    {
      var o :| 0 <= o < |ring| && ring[o] == a;
      var k := if j == 0 then (if o == |ring| - 1 then 0 else o) else (if o < j then o else o - 1);
      assert w[k] == a;
    }
  }

  lemma ShrunkFits(f: Forest, i: nat, path: seq<Crumb>, u: Trie, p: nat, j: nat)
    requires Valid(f) && i < NTREEBINS && Located(f, i, path, u, p) && j < |u.ring| && |u.ring| > 1
    ensures Fits(f, i, path, u, Tree(Without(u.ring, j), u.size, u.left, u.right))
    ensures var u' := Tree(Without(u.ring, j), u.size, u.left, u.right);
      Members(u') == Members(u) - {u.ring[j]} && forall a, z :: Has(u', a, z) <==> Has(u, a, z) && a != u.ring[j]
  {
    hide Rep, TreeIndex, Marked, LowAt, OnPath, Pow2, Spans, Separate, Members, Ordered, Without, HasSize, NoDup;
    var u' := Tree(Without(u.ring, j), u.size, u.left, u.right);
    ShrunkSet(u, j);
    SameSizes(u, u');
    SecondOrdered(u, u', LowAt(path, RootLow(i), RootBits(i)), RootBits(i) - |path|);
  }

  lemma ShrunkSet(u: Trie, j: nat)
    requires u.Tree? && Separate(u) && j < |u.ring| && |u.ring| > 1
    ensures var u' := Tree(Without(u.ring, j), u.size, u.left, u.right);
      Separate(u') && Members(u') == Members(u) - {u.ring[j]} && forall a, z :: Has(u', a, z) <==> Has(u, a, z) && a != u.ring[j]
  {
    hide Without, NoDup;
    var u' := Tree(Without(u.ring, j), u.size, u.left, u.right);
    WithoutSet(u.ring, j);
    assert u.ring[j] in RingSet(u.ring);
    forall a, z
      ensures Has(u', a, z) <==> Has(u, a, z) && a != u.ring[j]
    {
      if Has(u.left, a, z) { HasMember(u.left, a, z); }
      if Has(u.right, a, z) { HasMember(u.right, a, z); }
    }
  }

  // X is the head of a ring of more than one; its neighbour bk takes its place.
  lemma RemoveHead(f: Forest, f': Forest, n: map<nat, Node>, i: nat, path: seq<Crumb>, u: Trie, p: nat, c0: nat,
          c1: nat)
    requires Valid(f) && i < NTREEBINS && Located(f, i, path, u, p) && |u.ring| > 1 && p in f.nodes
    requires Unlinked(f.nodes, n, p) && c0 == f.nodes[p].left && c1 == f.nodes[p].right
    requires Moved(n, f'.nodes, u.ring[|u.ring| - 1], ParentAt(path, OfBin), c0, c1, Members(u) - {p})
    requires Relinked(f, f', i, path, u, u.ring[|u.ring| - 1])
    requires f'.shapes == f.shapes[i := Plug(path, Tree(Without(u.ring, 0), u.size, u.left, u.right))]
    ensures Loses(f, f', p)
  {
    hide Ordered, Spans, LowAt, OnPath, TreeIndex, Marked, InBin, Clear;
    var r := u.ring[|u.ring| - 1];
    var u' := Tree(Without(u.ring, 0), u.size, u.left, u.right);
    WithoutSet(u.ring, 0);
    RingInside(f.nodes, u, 0, i);
    ShrunkFits(f, i, path, u, p, 0);
    RingShrinks(f.nodes, n, u.ring, 0, u.size, i);
    RepFrame(f.nodes, n, c0, Below(p), u.left, i);
    RepFrame(f.nodes, n, c1, Below(p), u.right, i);
    assert p in u.ring;
    Rerooted(n, f'.nodes, p, r, ParentAt(path, OfBin), u', c0, c1, i);
    RemoveAt(f, f', i, path, u, u', p, r, p);
  }

  // r has taken a place with the children c0 and c1; of the nodes s no others have changed.
  ghost predicate Moved(n: map<nat, Node>, n': map<nat, Node>, r: nat, par: Parent, c0: nat, c1: nat, s: set<nat>) {
    && r in n && r in n' && n'[r] == n[r].(parent := par, left := c0, right := c1)
    && (c0 != 0 ==> c0 in n && c0 in n' && n'[c0] == n[c0].(parent := Below(r)))
    && (c1 != 0 ==> c1 in n && c1 in n' && n'[c1] == n[c1].(parent := Below(r)))
    && (forall a :: a in s && a in n && a != r && (c0 == 0 || a != c0) && (c1 == 0 || a != c1) ==> a in n' && n'[a] == n[a])
  }

  // X is alone on its ring and has no children.
  lemma RemoveLone(f: Forest, f': Forest, i: nat, path: seq<Crumb>, u: Trie, p: nat)
    requires Valid(f) && i < NTREEBINS && Located(f, i, path, u, p) && u.ring == [p] && u.left == Nil && u.right == Nil
    requires Relinked(f, f', i, path, u, 0) && f'.shapes == f.shapes[i := Plug(path, Nil)]
    ensures Loses(f, f', p)
  {
    hide Ordered, Spans, LowAt, OnPath, TreeIndex, Marked, Clear;
    assert Fits(f, i, path, u, Nil) by { assert Ordered(Nil, LowAt(path, RootLow(i), RootBits(i)), RootBits(i) - |path|) by { NilOrdered(LowAt(path, RootLow(i), RootBits(i)), RootBits(i) - |path|); } }
    assert RingSet([p]) == {p};
    RemoveAt(f, f', i, path, u, Nil, p, 0, p);
  }

  lemma NilOrdered(low: nat, k: nat)
    ensures Ordered(Nil, low, k)
  {
  }
  // On the way down from u to a leaf, the node r is reached.
  ghost predicate Sinking(n: map<nat, Node>, u: Trie, sub: seq<Crumb>, leaf: Trie, r: nat, i: nat) {
    && sub != [] && Plug(sub, leaf) == u && leaf.Tree? && Last(sub).ring != []
    && Holder(sub) in n && r == Child(n[Holder(sub)], Last(sub).right) && r != 0
    && Rep(n, r, Below(Holder(sub)), leaf, i)
  }

  lemma SinkFrom(n: map<nat, Node>, u: Trie, p: nat, par: Parent, right: bool, i: nat) returns (sub: seq<Crumb>)
    requires Rep(n, p, par, u, i) && u.Tree? && p in n && Child(n[p], right) != 0
    ensures Sinking(n, u, sub, if right then u.right else u.left, Child(n[p], right), i)
    ensures Holder(sub) == p && Last(sub).right == right
  {
    var c := Crumb(u.ring, u.size, right, if right then u.left else u.right);
    sub := [c];
    PlugOne(sub, if right then u.right else u.left);
  }

  lemma SinkOn(n: map<nat, Node>, u: Trie, sub: seq<Crumb>, leaf: Trie, r: nat, right: bool, i: nat)
    returns (sub': seq<Crumb>)
    requires Sinking(n, u, sub, leaf, r, i) && r in n && Child(n[r], right) != 0
    ensures Sinking(n, u, sub', if right then leaf.right else leaf.left, Child(n[r], right), i)
    ensures Holder(sub') == r && Last(sub').right == right
  {
    var c := Crumb(leaf.ring, leaf.size, right, if right then leaf.left else leaf.right);
    sub' := sub + [c];
    RootMember(n, Child(n[r], right), Below(r), if right then leaf.right else leaf.left, i);
    PlugDown(sub, c, if right then leaf.right else leaf.left);
  }

  // The leaf in the place of the root of u.
  function Replaced(u: Trie, sub: seq<Crumb>, leaf: Trie): Trie
    requires leaf.Tree? && sub != []
  {
    var v := Plug(sub, Nil);
    Tree(leaf.ring, leaf.size, v.left, v.right)
  }

  lemma ReplacedFits(f: Forest, i: nat, path: seq<Crumb>, u: Trie, p: nat, sub: seq<Crumb>, leaf: Trie)
    requires Valid(f) && i < NTREEBINS && Located(f, i, path, u, p) && u.ring == [p]
    requires sub != [] && Plug(sub, leaf) == u && leaf.Tree? && leaf.left == Nil && leaf.right == Nil
    ensures Fits(f, i, path, u, Replaced(u, sub, leaf))
    ensures var u' := Replaced(u, sub, leaf);
      Members(u') == Members(u) - {p} && forall a, z :: Has(u', a, z) <==> Has(u, a, z) && a != p
  {
    hide Rep, TreeIndex, Marked, Pow2;
    var low, k := LowAt(path, RootLow(i), RootBits(i)), RootBits(i) - |path|;
    var v := Plug(sub, Nil);
    var u' := Replaced(u, sub, leaf);
    OrderedAt(sub, leaf, low, k);
    PlugSizes(sub, leaf);
    SizeInSpan(u, low, k, leaf.size);
    NilOrdered(LowAt(sub, low, k), k - |sub|);
    OrderedPlug(sub, leaf, Nil, low, k);
    LeafAlone(sub, leaf.ring, leaf.size, low, k);
    PlugNil(sub, leaf);
    ReplacedMembers(u, p, sub, leaf);
    assert forall z: nat :: HasSize(u', z) ==> HasSize(v, z) || z == leaf.size;
  }

  lemma ReplacedMembers(u: Trie, p: nat, sub: seq<Crumb>, leaf: Trie)
    requires sub != [] && Plug(sub, leaf) == u && leaf.Tree? && leaf.left == Nil && leaf.right == Nil
    requires Separate(u) && u.ring == [p]
    ensures var u' := Replaced(u, sub, leaf);
      Separate(u') && Members(u') == Members(u) - {p} && forall a, z :: Has(u', a, z) <==> Has(u, a, z) && a != p
  {
    var v := Plug(sub, Nil);
    var u' := Replaced(u, sub, leaf);
    SeparateAt(sub, leaf);
    SeparatePlug(sub, leaf, Nil);
    PlugMembers(sub, leaf);
    PlugMembers(sub, Nil);
    PlugNil(sub, leaf);
    assert v.ring == [p] && RingSet([p]) == {p};
    assert Members(v) == {p} + Members(v.left) + Members(v.right);
    forall a, z
      ensures Has(u', a, z) <==> Has(u, a, z) && a != p
    {
      if Has(v.left, a, z) { HasMember(v.left, a, z); }
      if Has(v.right, a, z) { HasMember(v.right, a, z); }
      if Has(leaf, a, z) { HasMember(leaf, a, z); }
    }
  }

  // X is alone on its ring; a leaf below it takes its place.
  lemma RemoveByLeaf(f: Forest, f': Forest, n: map<nat, Node>, i: nat, path: seq<Crumb>, u: Trie, p: nat,
      sub: seq<Crumb>, leaf: Trie, r: nat, c0: nat, c1: nat)
    requires Valid(f) && i < NTREEBINS && Located(f, i, path, u, p) && u.ring == [p]
    requires Sinking(f.nodes, u, sub, leaf, r, i) && leaf.left == Nil && leaf.right == Nil
    requires HoldsChild(f.nodes, n, Holder(sub), Last(sub).right, 0) && Agree(f.nodes, n, f.nodes.Keys - {Holder(sub)})
    requires p in n && c0 == n[p].left && c1 == n[p].right
    requires Moved(n, f'.nodes, r, ParentAt(path, OfBin), c0, c1, Members(u) - {p})
    requires Relinked(f, f', i, path, u, r)
    requires f'.shapes == f.shapes[i := Plug(path, Replaced(u, sub, leaf))]
    ensures Loses(f, f', p)
  {
    hide Ordered, Spans, LowAt, OnPath, TreeIndex, Marked, InBin, Clear;
    var u' := Replaced(u, sub, leaf);
    var v := Plug(sub, Nil);
    ReplacedFits(f, i, path, u, p, sub, leaf);
    SeparateAt(sub, leaf);
    PlugMembers(sub, leaf);
    HolderBelow(f.nodes, p, ParentAt(path, OfBin), sub, leaf, i);
    RepPlug(f.nodes, n, p, ParentAt(path, OfBin), sub, leaf, Nil, 0, i);
    RingFrame(f.nodes, n, leaf.ring, leaf.size, i);
    assert v.ring == u.ring;
    Rerooted(n, f'.nodes, p, r, ParentAt(path, OfBin), u', c0, c1, i);
    assert p in RingSet(u.ring);
    RemoveAt(f, f', i, path, u, u', p, r, p);
  }
}
