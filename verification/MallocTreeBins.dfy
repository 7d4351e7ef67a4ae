/** The tree bins of the allocator: inserting, unlinking and finding chunks in place. */
module MallocTreeBins {
  import opened Words
  import opened MallocSizes
  import opened MallocBits
  import opened MallocTrie
  import opened MallocTree
  import opened MallocForest
  import opened MallocFit

  class TreeBins {
    var nodes: map<nat, Node>
    var bins: seq<nat>
    var marks: bv32
    ghost var shapes: seq<Trie>

    ghost function F(): Forest
      reads this
    {
      Forest(nodes, bins, marks, shapes)
    }

    constructor ()
      ensures Valid(F()) && forall a, z :: !Holds(F(), a, z)
    {
      nodes, marks := map[], 0;
      bins := seq(NTREEBINS, _ => 0);
      shapes := seq(NTREEBINS, _ => Nil);
      new;
      forall i | 0 <= i < NTREEBINS
        ensures BinOK(F(), i)
      {
        NilOrdered(RootLow(i), RootBits(i));
        assert forall z: nat :: !HasSize(Nil, z);
      }
    }

    /** insert_large_chunk */
    method Insert(x: nat, s: nat)
      requires Valid(F()) && x != 0 && !IsMember(F(), x) && MIN_LARGE <= s < WORD
      modifies this
      ensures Gains(old(F()), F(), x, s)
    {
      hide Valid, Gains, Seeking, Rep, Ordered, Separate, TreeIndex, Spans, Shifted, Marked, Mark, LeftShift;
      ghost var f := F();
      RootSpan(s);
      RootOf(f, TreeIndex(s));
      var i := TreeIndex(s);
      nodes := nodes[x := Node(s, i, 0, 0, Chained, x, x)];
      if !Marked(marks, i) {
        marks := Mark(marks, i);
        bins := bins[i := x];
        nodes := nodes[x := nodes[x].(parent := OfBin, fd := x, bk := x)];
        shapes := shapes[i := Tree([x], s, Nil, Nil)];
        InsertFirst(f, F(), i, s, x);
      } else {
        InsertBelow(x, s, i, f);
      }
    }

    method InsertBelow(x: nat, s: nat, i: nat, ghost f: Forest)
      requires Valid(f) && x != 0 && !IsMember(f, x) && MIN_LARGE <= s < WORD && i == TreeIndex(s) < NTREEBINS
      requires f.bins[i] != 0 && F() == f.(nodes := f.nodes[x := Node(s, i, 0, 0, Chained, x, x)])
      modifies this
      ensures Gains(f, F(), x, s)
    {
      hide Valid, Gains, Rep, Ordered, Separate, TreeIndex, Spans, Shifted, Marked, Mark, LeftShift, Seeking;
      RootSpan(s);
      RootOf(f, i);
      SeekRoot(f, i, s);
      var t: nat := bins[i];
      var k: nat := Shl(s, LeftShift(i));
      ghost var path: seq<Crumb>, u := [], f.shapes[i];
      SeekFacts(f, i, s, path, u, t, k, x);
      while nodes[t].size != s
        invariant F() == f.(nodes := f.nodes[x := Node(s, i, 0, 0, Chained, x, x)])
        invariant Seeking(f, i, s, path, u, t, k) && t != 0 && u.Tree?
        invariant t in f.nodes && t != x && f.nodes[t].size == u.size && k < WORD && u.ring != [] && u.ring[0] == t
        decreases RootBits(i) - |path|
      {
        var right := k / 0x8000_0000 == 1;
        var c: nat := Child(nodes[t], right);
        ghost var path', u' := SeekDown(f, i, s, path, u, t, k);
        k := 2 * k % WORD;
        SeekFacts(f, i, s, path', u', c, k, x);
        if c != 0 {
          t := c;
          path, u := path', u';
        } else {
          nodes := nodes[t := WithChild(nodes[t], right, x)];
          nodes := nodes[x := nodes[x].(parent := Below(t), fd := x, bk := x)];
          shapes := shapes[i := Plug(path', Tree([x], s, Nil, Nil))];
          assert Holder(path') == t && Last(path').right == right;
          InsertLeaf(f, F(), i, s, path', 0, k, x);
          return;
        }
      }
      var fwd: nat := nodes[t].fd;
      ghost var r := u.ring;
      ChainFacts(f, i, s, path, u, t, k, x);
      nodes := nodes[t := nodes[t].(fd := x)];
      nodes := nodes[fwd := nodes[fwd].(bk := x)];
      nodes := nodes[x := nodes[x].(fd := fwd, bk := t, parent := Chained)];
      shapes := shapes[i := Plug(path, Tree(WithSecond(r, x), s, u.left, u.right))];
      InsertChain(f, F(), i, s, path, u, t, k, x);
    }

    /** unlink_large_chunk */
    method Unlink(x: nat, ghost z: nat)
      requires Valid(F()) && Holds(F(), x, z)
      modifies this
      ensures Loses(old(F()), F(), x)
    {
      hide Valid, Rep, Ring, Ordered, Separate, TreeIndex, Located, Marked, Clear, Loses, InRing, Hangs, Relinked,
        Moved, Unlinked;
      ghost var f := F();
      ghost var path, u, p, j := Locate(f, x, z);
      ghost var i := TreeIndex(z);
      LocatedFacts(f, i, path, u, p, j, x);
      var xp := nodes[x].parent;
      if nodes[x].bk != x {
        var r: nat := nodes[x].bk;
        UnlinkRing(x);
        if xp == Chained {
          shapes := shapes[i := Plug(path, Tree(Without(u.ring, j), u.size, u.left, u.right))];
          RemoveHanging(f, F(), i, path, u, p, j);
        } else {
          assert j == 0 && p == x;
          ghost var n := nodes;
          AfterRing(f, n, i, path, u, p);
          shapes := shapes[i := Plug(path, Tree(Without(u.ring, 0), u.size, u.left, u.right))];
          Relink(x, r, f, i, path, u);
          RemoveHead(f, F(), n, i, path, u, p, n[x].left, n[x].right);
        }
      } else {
        LoneHead(f, i, path, u, p, j, x);
        var r;
        ghost var sub, leaf;
        r, sub, leaf := TakeLeaf(x, u, ParentAt(path, OfBin), i);
        ghost var n := nodes;
        AfterLeaf(f, n, i, path, u, p, r, sub, leaf);
        shapes := shapes[i := Plug(path, if r == 0 then Nil else Replaced(u, sub, leaf))];
        Relink(x, r, f, i, path, u);
        if r == 0 {
          RemoveLone(f, F(), i, path, u, p);
        } else {
          RemoveByLeaf(f, F(), n, i, path, u, p, sub, leaf, r, n[x].left, n[x].right);
        }
      }
    }

    // F->bk = R; R->fd = F
    method UnlinkRing(x: nat)
      requires x in nodes && nodes[x].fd in nodes && nodes[x].bk in nodes && nodes[x].fd != x && nodes[x].bk != x
      modifies `nodes
      ensures Unlinked(old(nodes), nodes, x) && nodes.Keys == old(nodes).Keys
    {
      var f := nodes[x].fd;
      var r := nodes[x].bk;
      nodes := nodes[f := nodes[f].(bk := r)];
      nodes := nodes[r := nodes[r].(fd := f)];
    }

    // The rightmost leaf below x is taken off its place; 0 when x has no children.
    method TakeLeaf(x: nat, ghost u: Trie, ghost par: Parent, ghost i: nat)
      returns (r: nat, ghost sub: seq<Crumb>, ghost leaf: Trie)
      requires x in nodes && Rep(nodes, x, par, u, i) && u.Tree? && Separate(u)
      modifies `nodes
      ensures r == 0 ==> u.left == Nil && u.right == Nil && nodes == old(nodes)
      ensures r != 0 ==> Sinking(old(nodes), u, sub, leaf, r, i) && leaf.left == Nil && leaf.right == Nil
      ensures r != 0 ==> nodes == old(nodes)[Holder(sub) := WithChild(old(nodes)[Holder(sub)], Last(sub).right, 0)]
    {
      hide Ring, Separate;
      var holder, right := x, true;
      r := nodes[x].right;
      if r == 0 {
        right := false;
        r := nodes[x].left;
      }
      sub, leaf := [], Nil;
      if r != 0 {
        sub := SinkFrom(nodes, u, x, par, right, i);
        leaf := if right then u.right else u.left;
        ReachedNode(nodes, u, sub, leaf, r, i);
        while nodes[r].right != 0 || nodes[r].left != 0
          invariant nodes == old(nodes) && Sinking(nodes, u, sub, leaf, r, i) && r in nodes
          invariant Holder(sub) == holder && Last(sub).right == right
          decreases leaf
        {
          var side := nodes[r].right != 0;
          sub := SinkOn(nodes, u, sub, leaf, r, side, i);
          leaf := if side then leaf.right else leaf.left;
          holder, right, r := r, side, Child(nodes[r], side);
          ReachedNode(nodes, u, sub, leaf, r, i);
        }
        BottomNode(nodes, u, sub, leaf, r, i);
        nodes := nodes[holder := WithChild(nodes[holder], right, 0)];
      } else {
        NoChildren(nodes, x, par, u, i);
      }
    }

    // R takes the place of X: the link to X, and the links between R and the children of X.
    method Relink(x: nat, r: nat, ghost f: Forest, ghost i: nat, ghost path: seq<Crumb>, ghost u: Trie)
      requires |bins| == NTREEBINS && i < NTREEBINS && f.bins == bins && f.marks == marks
      requires Ready(f, nodes, i, path, u, x, r)
      modifies `nodes, `bins, `marks
      ensures Relinked(f, F(), i, path, u, r)
      ensures r != 0 ==>
        Moved(old(nodes), nodes, r, ParentAt(path, OfBin), old(nodes)[x].left, old(nodes)[x].right, Members(u) - {x})
    {
      hide Clear, Marked, Members, PathMembers, WithChild, Moved;
      var xp := nodes[x].parent;
      var h := nodes[x].index;
      if x == bins[h] {
        bins := bins[h := r];
        if r == 0 {
          marks := Clear(marks, h);
        }
      } else {
        var q := xp.node;
        nodes := nodes[q := WithChild(nodes[q], nodes[q].left != x, r)];
      }
      ghost var m := nodes;
      if r != 0 {
        Adopt(x, r, xp, u);
        MovedSince(old(nodes), m, nodes, x, r, ParentAt(path, OfBin), Members(u));
      }
    }

    // R takes over the parent and the children of X.
    method Adopt(x: nat, r: nat, xp: Parent, ghost u: Trie)
      requires x in nodes && r in nodes && r != x && r != 0 && nodes[r].left == 0 && nodes[r].right == 0
      requires InPlace(nodes, nodes[x].left, u, x, r) && InPlace(nodes, nodes[x].right, u, x, r)
      requires nodes[x].left == nodes[x].right ==> nodes[x].left == 0
      modifies `nodes
      ensures Moved(old(nodes), nodes, r, xp, old(nodes)[x].left, old(nodes)[x].right, old(nodes).Keys)
    {
      nodes := nodes[r := nodes[r].(parent := xp)];
      var c0 := nodes[x].left;
      if c0 != 0 {
        nodes := nodes[r := nodes[r].(left := c0)];
        nodes := nodes[c0 := nodes[c0].(parent := Below(r))];
      }
      var c1 := nodes[x].right;
      if c1 != 0 {
        nodes := nodes[r := nodes[r].(right := c1)];
        nodes := nodes[c1 := nodes[c1].(parent := Below(r))];
      }
    }

    // ----- searching

    /** bin_find: whether the chunk x, whose size is s, is in the tree bins. */
    method Find(x: nat, s: nat) returns (found: bool)
      requires Valid(F()) && MIN_LARGE <= s < WORD
      ensures found <==> Holds(F(), x, s)
    {
      hide Valid, Rep, Ordered, Separate, TreeIndex, Spans, Shifted, Marked, LeftShift, Seeking, Holds, Ring;
      ghost var f := F();
      RootSpan(s);
      var i := TreeIndex(s);
      RootOf(f, i);
      found := false;
      if Marked(marks, i) {
        SeekRoot(f, i, s);
        var t: nat := bins[i];
        var k: nat := Shl(s, LeftShift(i));
        ghost var path: seq<Crumb>, u := [], f.shapes[i];
        SeekNode(f, i, s, path, u, t, k);
        while t != 0 && nodes[t].size != s
          invariant Seeking(f, i, s, path, u, t, k) && (t == 0 <==> u == Nil)
          invariant (t != 0 ==> t in nodes && nodes[t].size == u.size)
          decreases RootBits(i) - |path|
        {
          var right := k / 0x8000_0000 == 1;
          ghost var path', u' := SeekDown(f, i, s, path, u, t, k);
          t := Child(nodes[t], right);
          k := 2 * k % WORD;
          path, u := path', u';
          SeekNode(f, i, s, path, u, t, k);
        }
        SeekOnly(f, i, s, path, u, t, k, x);
        if t != 0 {
          SeekRing(f, i, s, path, u, t, k);
          found := OnRing(x, t, u.ring, s, i);
        }
      } else {
        EmptyBin(f, i, x, s);
      }
    }

    // Once round the ring of t.
    method OnRing(x: nat, t: nat, ghost ring: seq<nat>, ghost s: nat, ghost i: nat) returns (found: bool)
      requires ring != [] && ring[0] == t && Ring(nodes, ring, s, i) && NoDup(ring)
      ensures found <==> x in ring
    {
      var v := t;
      ghost var m := 0;
      while v != x
        invariant m < |ring| && ring[m] == v && forall q :: 0 <= q < m ==> ring[q] != x
        decreases |ring| - m
      {
        assert InRing(nodes, ring, m, s, i);
        v := nodes[v].fd;
        if v == t {
          return false;
        }
        m := m + 1;
      }
      found := true;
    }

    // Down the leftmost children of t, keeping the closest fit.
    method LeftmostFit(t0: nat, v0: nat, r0: nat, nb: nat, ghost par0: Parent, ghost u0: Trie, ghost i: nat)
      returns (v: nat, rsize: nat)
      requires Part(F(), t0, par0, u0, i) && Candidate(F(), nb, v0, r0) && 0 < nb < WORD
      requires r0 == 0 || forall z: nat :: HasSize(u0, z) ==> z >= nb
      ensures Candidate(F(), nb, v, rsize) && rsize <= r0 && (r0 == 0 ==> v == v0)
      ensures u0 != Nil && r0 != 0 ==> nb + rsize <= LeftmostSize(u0)
      ensures (v == v0 && rsize == r0) || Has(u0, v, nb + rsize)
    {
      hide Candidate, Part;
      ghost var f, par, u := F(), par0, u0;
      v, rsize := v0, r0;
      var t: nat := t0;
      PartNode(f, t, par, u, i);
      while t != 0
        invariant Part(f, t, par, u, i) && Candidate(f, nb, v, rsize) && rsize <= r0 && (r0 == 0 ==> v == v0)
        invariant t == 0 <==> u == Nil
        invariant t != 0 ==> t in nodes && nodes[t].size == u.size && HasSize(u, u.size)
        invariant forall z: nat :: HasSize(u, z) ==> HasSize(u0, z)
        invariant forall a: nat, z: nat :: Has(u, a, z) ==> Has(u0, a, z)
        invariant (v == v0 && rsize == r0) || Has(u0, v, nb + rsize)
        invariant u0 != Nil && r0 != 0 ==> nb + rsize <= LeftmostSize(u0) || (u != Nil && LeftmostSize(u) <= LeftmostSize(u0))
        decreases u
      {
        PartNode(f, t, par, u, i);
        HeadThere(f, t, par, u, i);
        Compared(f, nb, v, rsize, t, u.size);
        LeftmostNext(u);
        var trem: nat := (nodes[t].size - nb) % WORD;
        if trem < rsize {
          rsize := trem;
          v := t;
        }
        par := Below(t);
        var next := if nodes[t].left != 0 then nodes[t].left else nodes[t].right;
        ChildrenThere(f, t, u, i);
        t := next;
        u := LeftmostChild(u);
        PartNode(f, t, par, u, i);
      }
    }

    // Down the bin of the size asked for: what is left to look at, and the best fit on the way.
    method HuntBin(i: nat, nb: nat) returns (t: nat, v: nat, rsize: nat, ghost rest: Trie, ghost par: Parent)
      requires Valid(F()) && MIN_LARGE <= nb < WORD && i == TreeIndex(nb) < NTREEBINS
      ensures HuntEnd(F(), i, nb, t, rest, par, v, rsize)
    {
      hide Valid, Rep, TreeIndex, Hunting, HuntEnd, LeftShift, Ordered, Candidate, Part, Seeking, Pow2, Has;
      ghost var f := F();
      RootOf(f, i);
      v := 0;
      rsize := (0 - nb) % WORD;
      t := bins[i];
      rest, par := Nil, OfBin;
      if t == 0 {
        HuntEmpty(f, i, nb);
        return;
      }
      var sizebits: nat := Shl(nb, LeftShift(i));
      var rst: nat := 0;
      ghost var path: seq<Crumb>, u := [], f.shapes[i];
      HuntStart(f, i, nb);
      HuntSeeks(f, i, nb, path, u, t, sizebits, rst, rest, par, v, rsize);
      while true
        invariant Hunting(f, i, nb, path, u, t, sizebits, rst, rest, par, v, rsize)
        invariant t != 0 && t in nodes && u.Tree? && nodes[t].size == u.size && rsize != 0
        decreases RootBits(i) - |path|
      {
        ghost var v0, r0 := v, rsize;
        var trem: nat := (nodes[t].size - nb) % WORD;
        if trem < rsize {
          v := t;
          rsize := trem;
          if rsize == 0 {
            HuntFit(f, i, nb, path, u, t, sizebits, rst, rest, par, v0, r0);
            rest := u;
            par :| HuntEnd(f, i, nb, t, u, par, t, 0);
            return;
          }
        }
        HuntNonzero(f, i, nb, path, u, t, sizebits, rst, rest, par, v0, r0);
        ghost var path', u', rest', par' := HuntOn(f, i, nb, path, u, t, sizebits, rst, rest, par, v0, r0, v, rsize);
        var rt: nat := nodes[t].right;
        t := Child(nodes[t], sizebits / 0x8000_0000 == 1);
        if rt != 0 && rt != t {
          rst := rt;
        }
        sizebits := 2 * sizebits % WORD;
        path, u, rest, par := path', u', rest', par';
        HuntSeeks(f, i, nb, path, u, t, sizebits, rst, rest, par, v, rsize);
        if t == 0 {
          HuntOut(f, i, nb, path, sizebits, rst, rest, par, v, rsize);
          t := rst;
          return;
        }
      }
    }

    /** The search of tmalloc_large: the best fit over all tree bins. */
    method BestFit(nb: nat) returns (v: nat, rsize: nat)
      requires Valid(F()) && MIN_LARGE <= nb < WORD
      ensures Best(F(), nb, v, rsize)
    {
      hide Valid, Rep, TreeIndex, HuntEnd, Ordered, Part, Best, LeftBits, Both, LeastBit, BitIndex, Bit, Candidate,
        Marked;
      ghost var f := F();
      RootSpan(nb);
      var i := TreeIndex(nb);
      RootOf(f, i);
      var t;
      ghost var rest, par;
      t, v, rsize, rest, par := HuntBin(i, nb);
      HuntLeft(f, i, nb, t, rest, par, v, rsize);
      if t == 0 && v == 0 {
        var leftbits := Both(LeftBits(Bit(i)), marks);
        if leftbits != 0 {
          ghost var j := FirstMarked(leftbits);
          var b := BitIndex(LeastBit(leftbits)) as nat;
          NextBin(f, i, b, leftbits);
          t := bins[b];
          BinPart(f, b);
          BigEnough(f, b, nb);
          v, rsize := LeftmostFit(t, v, rsize, nb, OfBin, f.shapes[b], b);
          BestNext(f, i, b, nb, v, rsize, par);
        } else {
          NoBin(f, i);
          BestNone(f, i, nb, par);
        }
      } else {
        ghost var v0, r0 := v, rsize;
        v, rsize := LeftmostFit(t, v, rsize, nb, par, rest, i);
        BestHere(f, i, nb, t, rest, par, v0, r0, v, rsize);
      }
    }

    /** The search of tmalloc_small: the smallest chunk of all. */
    method SmallestFit(nb: nat) returns (v: nat, rsize: nat)
      requires Valid(F()) && 0 < nb < MIN_LARGE && marks != 0
      ensures Best(F(), nb, v, rsize) && v != 0
    {
      hide Valid, Rep, TreeIndex, Ordered, Part, Best, LeastBit, BitIndex, Bit, Candidate, Marked;
      ghost var f := F();
      ghost var j := FirstMarked(marks);
      var i := BitIndex(LeastBit(marks)) as nat;
      FirstBin(f, i);
      BinPart(f, i);
      PartNode(f, bins[i], OfBin, f.shapes[i], i);
      var t: nat := bins[i];
      ghost var u := f.shapes[i];
      RootFit(f, i, t, nb);
      v := t;
      rsize := nodes[t].size - nb;
      var next := if nodes[t].left != 0 then nodes[t].left else nodes[t].right;
      ChildrenThere(f, t, u, i);
      LeftmostNext(u);
      v, rsize := LeftmostFit(next, v, rsize, nb, Below(t), LeftmostChild(u), i);
      CandidateThere(f, nb, v, rsize);
      BestFirst(f, i, nb, v, rsize);
    }
  }

  // Only a node off the subtrie changed before.
  lemma MovedSince(n: map<nat, Node>, m: map<nat, Node>, n': map<nat, Node>, x: nat, r: nat, par: Parent, s: set<nat>)
    requires x in n && x in m && m[x] == n[x] && r in s
    requires n[x].left != 0 ==> n[x].left in s
    requires n[x].right != 0 ==> n[x].right in s
    requires n.Keys <= m.Keys && forall a :: a in s && a in n ==> m[a] == n[a]
    requires r in n && (n[x].left != 0 ==> n[x].left in n) && (n[x].right != 0 ==> n[x].right in n)
    requires Moved(m, n', r, par, n[x].left, n[x].right, m.Keys)
    ensures Moved(n, n', r, par, n[x].left, n[x].right, s - {x})
  {
  }

  // The nodes n, when r is about to take the place of x at the end of the path.
  ghost predicate Ready(f: Forest, n: map<nat, Node>, i: nat, path: seq<Crumb>, u: Trie, x: nat, r: nat)
    requires |f.bins| == NTREEBINS && i < NTREEBINS
  {
    && x in n && x in Members(u) && n[x].index == i && (path != [] ==> Last(path).ring != [])
    && n[x].parent == ParentAt(path, OfBin)
    && (forall a :: a in f.nodes && a !in Members(u) ==> a in n && n[a] == f.nodes[a])
    && (path == [] <==> x == f.bins[i])
    && (path != [] ==>
      && Holder(path) in f.nodes && Holder(path) !in Members(u)
      && Child(f.nodes[Holder(path)], Last(path).right) == x && Child(f.nodes[Holder(path)], !Last(path).right) != x)
    && (r != 0 ==>
      && r in n && r in Members(u) && r != x && n[r].left == 0 && n[r].right == 0
      && InPlace(n, n[x].left, u, x, r) && InPlace(n, n[x].right, u, x, r)
      && (n[x].left == n[x].right ==> n[x].left == 0))
  }

  ghost predicate InPlace(n: map<nat, Node>, c: nat, u: Trie, x: nat, r: nat) {
    c != 0 ==> c in n && c in Members(u) && c != x && c != r
  }

  lemma RootOf(f: Forest, i: nat)
    requires Valid(f) && i < NTREEBINS
    ensures |f.bins| == NTREEBINS && |f.shapes| == NTREEBINS
    ensures Marked(f.marks, i) <==> f.bins[i] != 0
  {
    assert BinOK(f, i);
  }

  lemma BitsFit(f: Forest, i: nat, s: nat, path: seq<Crumb>, u: Trie, p: nat, bits: nat)
    requires Valid(f) && i < NTREEBINS && Seeking(f, i, s, path, u, p, bits)
    ensures bits < WORD && |path| <= RootBits(i)
  {
    hide Valid, OnPath, LowAt, Marked, TreeIndex;
    ShiftedFits(s - LowAt(path, RootLow(i), RootBits(i)), RootBits(i) - |path|);
  }

  // What the search knows of the node it has come to.
  lemma SeekFacts(f: Forest, i: nat, s: nat, path: seq<Crumb>, u: Trie, p: nat, bits: nat, x: nat)
    requires Valid(f) && i < NTREEBINS && Seeking(f, i, s, path, u, p, bits) && !IsMember(f, x)
    ensures p == 0 <==> u == Nil
    ensures p != 0 ==> p in f.nodes && p != x && f.nodes[p].size == u.size && u.ring != [] && u.ring[0] == p
    ensures path != [] ==> Last(path).ring != [] && Holder(path) in f.nodes && Holder(path) != x
    ensures bits < WORD && |path| <= RootBits(i)
  {
    hide Ordered, Separate, TreeIndex, Marked, LowAt, OnPath, RootLow, RootBits;
    assert BinOK(f, i);
    PlugMembers(path, u);
    assert x !in Members(f.shapes[i]);
    BitsFit(f, i, s, path, u, p, bits);
    if u.Tree? {
      assert u.ring[0] in RingSet(u.ring);
      assert InRing(f.nodes, u.ring, 0, u.size, i);
    }
    if path != [] { HolderBelow(f.nodes, f.bins[i], OfBin, path, u, i); }
  }

  lemma ChainFacts(f: Forest, i: nat, s: nat, path: seq<Crumb>, u: Trie, p: nat, bits: nat, x: nat)
    requires Valid(f) && i < NTREEBINS && Seeking(f, i, s, path, u, p, bits) && u.Tree? && !IsMember(f, x)
    ensures u.ring != [] && u.ring[0] == p && p in f.nodes && f.nodes[p].fd in f.nodes && f.nodes[p].fd != x && p != x
  {
    hide Ordered, Separate, TreeIndex, Marked, LowAt, OnPath;
    assert BinOK(f, i);
    PlugMembers(path, u);
    assert x !in Members(f.shapes[i]);
    assert u.ring[0] in RingSet(u.ring);
    assert InRing(f.nodes, u.ring, 0, u.size, i);
    assert u.ring[Turn(u.ring, 0)] in RingSet(u.ring);
  }

  lemma LocatedFacts(f: Forest, i: nat, path: seq<Crumb>, u: Trie, p: nat, j: nat, x: nat)
    requires Valid(f) && i < NTREEBINS && Located(f, i, path, u, p) && j < |u.ring| && u.ring[j] == x
    ensures u.Tree? && u.ring != [] && u.ring[0] == p && x in f.nodes && f.nodes[x].fd in f.nodes
    ensures f.nodes[x].bk in f.nodes
    ensures f.nodes[x].bk != x <==> |u.ring| > 1
    ensures f.nodes[x].bk != x ==> f.nodes[x].fd != x
    ensures f.nodes[x].parent == Chained <==> j > 0
    ensures j == 0 ==> f.nodes[x].bk == u.ring[|u.ring| - 1]
    ensures |f.bins| == NTREEBINS && |f.shapes| == NTREEBINS && (path != [] ==> Last(path).ring != [])
  {
    assert InRing(f.nodes, u.ring, j, u.size, i);
    assert InRing(f.nodes, u.ring, if j == 0 then |u.ring| - 1 else j - 1, u.size, i);
    if j > 0 { assert Hangs(f.nodes, u.ring[j]); }
  }

  lemma LoneHead(f: Forest, i: nat, path: seq<Crumb>, u: Trie, p: nat, j: nat, x: nat)
    requires i < NTREEBINS && |f.bins| == NTREEBINS && |f.shapes| == NTREEBINS && Located(f, i, path, u, p)
    requires j < |u.ring| && u.ring[j] == x && |u.ring| == 1
    ensures p == x && u.ring == [p] && j == 0 && Rep(f.nodes, x, ParentAt(path, OfBin), u, i) && Separate(u)
  {
  }

  lemma ReachedNode(n: map<nat, Node>, u: Trie, sub: seq<Crumb>, leaf: Trie, r: nat, i: nat)
    requires Sinking(n, u, sub, leaf, r, i)
    ensures r in n
  {
  }

  lemma BottomNode(n: map<nat, Node>, u: Trie, sub: seq<Crumb>, leaf: Trie, r: nat, i: nat)
    requires Sinking(n, u, sub, leaf, r, i) && r in n && n[r].left == 0 && n[r].right == 0
    ensures leaf.left == Nil && leaf.right == Nil
  {
    RootMember(n, 0, Below(r), leaf.left, i);
    RootMember(n, 0, Below(r), leaf.right, i);
  }

  lemma NoChildren(n: map<nat, Node>, x: nat, par: Parent, u: Trie, i: nat)
    requires x in n && Rep(n, x, par, u, i) && u.Tree? && n[x].left == 0 && n[x].right == 0
    ensures u.left == Nil && u.right == Nil
  {
    RootMember(n, 0, Below(x), u.left, i);
    RootMember(n, 0, Below(x), u.right, i);
  }

  // The link to the subtrie, and what is on the other side of it.
  lemma LinkFacts(f: Forest, i: nat, path: seq<Crumb>, u: Trie, p: nat)
    requires Valid(f) && i < NTREEBINS && Located(f, i, path, u, p)
    ensures path == [] <==> p == f.bins[i]
    ensures path != [] ==> Last(path).ring != [] && Holder(path) in f.nodes && Holder(path) !in Members(u)
    ensures path != [] ==>
      Child(f.nodes[Holder(path)], Last(path).right) == p && Child(f.nodes[Holder(path)], !Last(path).right) != p
  {
    hide Ordered, TreeIndex, Marked, LowAt, OnPath;
    assert BinOK(f, i);
    RootMember(f.nodes, p, ParentAt(path, OfBin), u, i);
    if path != [] {
      RootInPath(f.nodes, f.bins[i], path, u, i);
      OtherSide(f.nodes, f.bins[i], OfBin, path, u, i);
    }
  }

  lemma RootInPath(n: map<nat, Node>, p: nat, path: seq<Crumb>, u: Trie, i: nat)
    requires Rep(n, p, OfBin, Plug(path, u), i) && path != []
    ensures p in PathMembers(path)
  {
    assert p in RingSet(path[0].ring);
  }

  lemma {:induction false} OtherSide(n: map<nat, Node>, p: nat, par: Parent, path: seq<Crumb>, u: Trie, i: nat)
    requires Rep(n, p, par, Plug(path, u), i) && path != []
    ensures Last(path).ring != [] && Holder(path) in n
    ensures Child(n[Holder(path)], !Last(path).right) == 0 || Child(n[Holder(path)], !Last(path).right) in PathMembers(path)
    decreases |path|
  {
    var c := path[0];
    if |path| == 1 {
      PlugOne(path, u);
      RootMember(n, Child(n[p], !c.right), Below(p), c.other, i);
    } else {
      assert Last(path[1..]) == Last(path);
      OtherSide(n, Child(n[p], c.right), Below(p), path[1..], u, i);
    }
  }

  lemma AfterRing(f: Forest, n: map<nat, Node>, i: nat, path: seq<Crumb>, u: Trie, p: nat)
    requires Valid(f) && i < NTREEBINS && Located(f, i, path, u, p) && |u.ring| > 1 && p in f.nodes
    requires Unlinked(f.nodes, n, p) && n.Keys == f.nodes.Keys
    ensures u.ring[|u.ring| - 1] != 0
    ensures Ready(f, n, i, path, u, p, u.ring[|u.ring| - 1]) && n[p].left == f.nodes[p].left
    ensures n[p].right == f.nodes[p].right
  {
    hide Ordered, TreeIndex, Marked, LowAt, OnPath, Plug, PathMembers;
    LinkFacts(f, i, path, u, p);
    RingInside(f.nodes, u, 0, i);
    assert u.ring[0] in RingSet(u.ring) && u.ring[|u.ring| - 1] in RingSet(u.ring);
    assert InRing(f.nodes, u.ring, 0, u.size, i) && Hangs(f.nodes, u.ring[|u.ring| - 1]);
    RootMember(f.nodes, f.nodes[p].left, Below(p), u.left, i);
    RootMember(f.nodes, f.nodes[p].right, Below(p), u.right, i);
  }

  lemma AfterLeaf(f: Forest, n: map<nat, Node>, i: nat, path: seq<Crumb>, u: Trie, p: nat, r: nat, sub: seq<Crumb>,
          leaf: Trie)
    requires Valid(f) && i < NTREEBINS && Located(f, i, path, u, p) && u.ring == [p] && p in f.nodes
    requires r == 0 ==> n == f.nodes
    requires r != 0 ==> Sinking(f.nodes, u, sub, leaf, r, i) && leaf.left == Nil && leaf.right == Nil
    requires r != 0 ==> n == f.nodes[Holder(sub) := WithChild(f.nodes[Holder(sub)], Last(sub).right, 0)]
    ensures Ready(f, n, i, path, u, p, r)
  {
    hide Ordered, TreeIndex, Marked, LowAt, OnPath;
    LinkFacts(f, i, path, u, p);
    assert u.ring[0] in RingSet(u.ring);
    assert InRing(f.nodes, u.ring, 0, u.size, i);
    if r != 0 {
      LeafPlace(f.nodes, n, u, p, ParentAt(path, OfBin), sub, leaf, r, i);
    }
  }

  lemma LeafPlace(f: map<nat, Node>, n: map<nat, Node>, u: Trie, p: nat, par: Parent, sub: seq<Crumb>, leaf: Trie,
          r: nat, i: nat)
    requires Rep(f, p, par, u, i) && u.Tree? && Separate(u) && u.ring == [p]
    requires Sinking(f, u, sub, leaf, r, i) && leaf.left == Nil && leaf.right == Nil
    requires n == f[Holder(sub) := WithChild(f[Holder(sub)], Last(sub).right, 0)]
    ensures p in n && p in f && r in n && r in Members(u) && r != p && n[r].left == 0 && n[r].right == 0
    ensures n[p].parent == f[p].parent && n[p].index == f[p].index && Holder(sub) in Members(u)
    ensures InPlace(n, n[p].left, u, p, r) && InPlace(n, n[p].right, u, p, r)
    ensures (n[p].left == n[p].right ==> n[p].left == 0)
  {
    var v := Plug(sub, Nil);
    SeparateAt(sub, leaf);
    SeparatePlug(sub, leaf, Nil);
    PlugMembers(sub, leaf);
    PlugMembers(sub, Nil);
    HolderBelow(f, p, par, sub, leaf, i);
    RootMember(f, r, Below(Holder(sub)), leaf, i);
    RootMember(f, f[r].left, Below(r), leaf.left, i);
    RootMember(f, f[r].right, Below(r), leaf.right, i);
    RepPlug(f, n, p, par, sub, leaf, Nil, 0, i);
    assert p in RingSet(v.ring);
    RootMember(n, n[p].left, Below(p), v.left, i);
    RootMember(n, n[p].right, Below(p), v.right, i);
  }
  lemma SeekNode(f: Forest, i: nat, s: nat, path: seq<Crumb>, u: Trie, p: nat, bits: nat)
    requires Valid(f) && i < NTREEBINS && Seeking(f, i, s, path, u, p, bits)
    ensures p == 0 <==> u == Nil
    ensures p != 0 ==> p in f.nodes && f.nodes[p].size == u.size
  {
    if u.Tree? { assert InRing(f.nodes, u.ring, 0, u.size, i); }
  }

  // The search has come to where chunks of the size would be.
  lemma SeekOnly(f: Forest, i: nat, s: nat, path: seq<Crumb>, u: Trie, p: nat, bits: nat, x: nat)
    requires Valid(f) && MIN_LARGE <= s < WORD && i == TreeIndex(s) < NTREEBINS && Seeking(f, i, s, path, u, p, bits)
    requires p == 0 || (p in f.nodes && f.nodes[p].size == s)
    ensures Holds(f, x, s) <==> u.Tree? && x in u.ring
  {
    hide TreeIndex, Marked, LowAt, Rep, Pow2;
    assert BinOK(f, i);
    SeekNode(f, i, s, path, u, p, bits);
    OnlyBelow(path, u, RootLow(i), RootBits(i), s, x);
    if Holds(f, x, s) { HeldInBin(f, x, s); }
    if Has(f.shapes[i], x, s) { assert Holds(f, x, s); }
    if u.Tree? {
      if Has(u.left, x, s) { HasMember(u.left, x, s); }
      if Has(u.right, x, s) { HasMember(u.right, x, s); }
    }
  }

  lemma SeekRing(f: Forest, i: nat, s: nat, path: seq<Crumb>, u: Trie, p: nat, bits: nat)
    requires Valid(f) && i < NTREEBINS && Seeking(f, i, s, path, u, p, bits) && u.Tree?
    ensures u.ring != [] && u.ring[0] == p && Ring(f.nodes, u.ring, u.size, i) && NoDup(u.ring)
  {
    assert BinOK(f, i);
    SeparateAt(path, u);
  }

  lemma EmptyBin(f: Forest, i: nat, x: nat, s: nat)
    requires Valid(f) && i < NTREEBINS && !Marked(f.marks, i) && TreeIndex(s) == i
    ensures !Holds(f, x, s)
  {
    assert BinOK(f, i);
    if Holds(f, x, s) { HeldInBin(f, x, s); }
  }

  lemma HeadThere(f: Forest, p: nat, par: Parent, u: Trie, i: nat)
    requires Part(f, p, par, u, i) && p != 0
    ensures u.Tree? && Has(u, p, u.size)
  {
    assert u.ring[0] in u.ring;
  }

  lemma ChildrenThere(f: Forest, p: nat, u: Trie, i: nat)
    requires p in f.nodes && u.Tree?
    requires Part(f, f.nodes[p].left, Below(p), u.left, i) && Part(f, f.nodes[p].right, Below(p), u.right, i)
    ensures Part(f, if f.nodes[p].left != 0 then f.nodes[p].left else f.nodes[p].right, Below(p), LeftmostChild(u), i)
    ensures forall a: nat, z: nat :: Has(LeftmostChild(u), a, z) ==> Has(u, a, z)
  {
  }
  lemma HuntSeeks(f: Forest, i: nat, nb: nat, path: seq<Crumb>, u: Trie, t: nat, bits: nat, rst: nat, rest: Trie,
          par: Parent, v: nat, rsize: nat)
    requires Valid(f) && i < NTREEBINS && Hunting(f, i, nb, path, u, t, bits, rst, rest, par, v, rsize)
    ensures t == 0 <==> u == Nil
    ensures t != 0 ==> t in f.nodes && f.nodes[t].size == u.size
  {
    SeekNode(f, i, nb, path, u, t, bits);
  }

  lemma HuntFit(f: Forest, i: nat, nb: nat, path: seq<Crumb>, u: Trie, t: nat, bits: nat, rst: nat, rest: Trie,
          par: Parent, v: nat, rsize: nat)
    requires Valid(f) && 0 < nb < WORD && i < NTREEBINS && Hunting(f, i, nb, path, u, t, bits, rst, rest, par, v, rsize)
    requires t != 0 && t in f.nodes && (f.nodes[t].size - nb) % WORD == 0 < rsize
    ensures exists par :: HuntEnd(f, i, nb, t, u, par, t, 0)
  {
    hide HuntEnd, Covered, Ordered, Part, TreeIndex, Marked, LowAt;
    HuntNode(f, i, nb, path, u, t, bits);
    Compared(f, nb, v, rsize, t, u.size);
    HuntExact(f, i, nb, path, u, t, bits);
  }

  lemma HuntNonzero(f: Forest, i: nat, nb: nat, path: seq<Crumb>, u: Trie, t: nat, bits: nat, rst: nat, rest: Trie,
          par: Parent, v: nat, rsize: nat)
    requires i < NTREEBINS && |f.bins| == NTREEBINS && |f.shapes| == NTREEBINS
    requires Hunting(f, i, nb, path, u, t, bits, rst, rest, par, v, rsize)
    ensures Candidate(f, nb, v, rsize)
  {
  }

  lemma HuntLeft(f: Forest, i: nat, nb: nat, t: nat, rest: Trie, par: Parent, v: nat, rsize: nat)
    requires |f.shapes| == NTREEBINS && i < NTREEBINS && HuntEnd(f, i, nb, t, rest, par, v, rsize)
    ensures Part(f, t, par, rest, i) && Candidate(f, nb, v, rsize)
    ensures (rsize == 0 || forall z: nat :: HasSize(rest, z) ==> z >= nb)
    ensures t == 0 <==> rest == Nil
    ensures v == 0 ==> rsize == WORD - nb
  {
  }

  // The next bin in use.
  lemma NextBin(f: Forest, i: nat, j: nat, left: bv32)
    requires Valid(f) && i < NTREEBINS && j < NTREEBINS && left == Both(LeftBits(Bit(i)), f.marks) && Marked(left, j)
    requires forall k: nat :: k < j ==> !Marked(left, k)
    ensures i < j && f.bins[j] != 0 && f.shapes[j] != Nil && forall k :: i < k < j ==> f.bins[k] == 0
  {
    hide Marked, LeftBits, Bit, Both, Ordered, Separate, TreeIndex;
    LeftMarked(f.marks, i, j);
    assert BinOK(f, j);
    forall k | i < k < j
      ensures f.bins[k] == 0
    {
      LeftMarked(f.marks, i, k);
      assert !Marked(left, k);
      assert BinOK(f, k);
    }
  }

  lemma NoBin(f: Forest, i: nat)
    requires Valid(f) && i < NTREEBINS && Both(LeftBits(Bit(i)), f.marks) == 0
    ensures forall k :: i < k < NTREEBINS ==> f.bins[k] == 0
  {
    hide LeftBits, Both, Bit, Marked, Ordered, Separate, TreeIndex, Rep;
    forall k | i < k < NTREEBINS
      ensures f.bins[k] == 0
    {
      LeftMarked(f.marks, i, k);
      ZeroMap(k);
      assert BinOK(f, k);
    }
  }
  // The first bin in use.
  lemma FirstBin(f: Forest, i: nat)
    requires Valid(f) && i < NTREEBINS && Marked(f.marks, i) && forall k: nat :: k < i ==> !Marked(f.marks, k)
    ensures |f.bins| == NTREEBINS && |f.shapes| == NTREEBINS
    ensures f.bins[i] != 0 && f.shapes[i] != Nil && forall k :: 0 <= k < i ==> f.bins[k] == 0
  {
    hide Marked, Ordered, Separate, TreeIndex;
    assert BinOK(f, i);
    forall k | 0 <= k < i
      ensures f.bins[k] == 0
    {
      assert !Marked(f.marks, k);
      assert BinOK(f, k);
    }
  }

  lemma RootFit(f: Forest, i: nat, t: nat, nb: nat)
    requires Valid(f) && i < NTREEBINS && t == f.bins[i] && t != 0 && 0 < nb < MIN_LARGE && f.shapes[i].Tree?
    ensures t in f.nodes && f.nodes[t].size == f.shapes[i].size && nb < f.shapes[i].size < WORD
    ensures Candidate(f, nb, t, f.shapes[i].size - nb) && forall z: nat :: HasSize(f.shapes[i], z) ==> z >= nb
  {
    assert BinOK(f, i);
    BinPart(f, i);
    PartNode(f, t, OfBin, f.shapes[i], i);
  }

  lemma CandidateThere(f: Forest, nb: nat, v: nat, rsize: nat)
    requires Candidate(f, nb, v, rsize) && nb + rsize < WORD
    ensures v != 0
  {
  }

  lemma BestFirst(f: Forest, i: nat, nb: nat, v: nat, rsize: nat)
    requires Valid(f) && i < NTREEBINS && f.shapes[i] != Nil && 0 < nb < MIN_LARGE
    requires forall k :: 0 <= k < i ==> f.bins[k] == 0
    requires Candidate(f, nb, v, rsize) && v != 0 && nb + rsize <= LeftmostSize(f.shapes[i])
    ensures Best(f, nb, v, rsize)
  {
    hide Marked, TreeIndex, Separate;
    assert BinOK(f, i);
    LeftmostLeast(f.shapes[i], RootLow(i), RootBits(i));
    var m := LeftmostSize(f.shapes[i]);
    forall a: nat, z: nat | Holds(f, a, z) && z >= nb
      ensures nb + rsize <= z
    {
      HeldInBin(f, a, z);
      var k := TreeIndex(z);
      assert BinOK(f, k);
      HasMember(f.shapes[k], a, z);
      if k > i { BinsOrdered(m, z); }
    }
  }
}
