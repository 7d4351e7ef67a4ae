/** Tree chunks as linked nodes, and the tries they form. */
module MallocTree {
  import opened MallocTrie

  // The parent field: null in a chunk that only hangs on a ring, or the bin, or another node.
  datatype Parent = Chained | OfBin | Below(node: nat)

  /** A free chunk of a tree bin. */
  datatype Node = Node(size: nat, index: nat, left: nat, right: nat, parent: Parent, fd: nat, bk: nat)

  function Child(v: Node, right: bool): nat {
    if right then v.right else v.left
  }

  function WithChild(v: Node, right: bool, c: nat): Node {
    if right then v.(right := c) else v.(left := c)
  }

  function Turn<T>(ring: seq<T>, i: nat): nat {
    if i + 1 == |ring| then 0 else i + 1
  }

  // Element i of a ring and its link to the next one.
  ghost predicate InRing(n: map<nat, Node>, ring: seq<nat>, i: nat, s: nat, idx: nat)
    requires i < |ring|
  {
    && ring[i] in n && n[ring[i]].size == s && n[ring[i]].index == idx
    && ring[Turn(ring, i)] in n && n[ring[i]].fd == ring[Turn(ring, i)] && n[ring[Turn(ring, i)]].bk == ring[i]
  }

  // A chunk that only hangs on a ring.
  ghost predicate Hangs(n: map<nat, Node>, a: nat) {
    a in n && n[a].parent == Chained && n[a].left == 0 && n[a].right == 0
  }

  ghost predicate Ring(n: map<nat, Node>, ring: seq<nat>, s: nat, idx: nat) {
    && (forall i :: 0 <= i < |ring| ==> InRing(n, ring, i, s, idx))
    && (forall i :: 1 <= i < |ring| ==> Hangs(n, ring[i]))
  }

  /** The nodes from p on are the trie t. */
  ghost predicate Rep(n: map<nat, Node>, p: nat, par: Parent, t: Trie, idx: nat)
    decreases t
  {
    match t
    case Nil => p == 0
    case Tree(ring, s, l, r) =>
      && ring != [] && p == ring[0] && p != 0 && Ring(n, ring, s, idx)
      && p in n && n[p].parent == par
      && Rep(n, n[p].left, Below(p), l, idx) && Rep(n, n[p].right, Below(p), r, idx)
  }

  ghost predicate Agree(n: map<nat, Node>, n': map<nat, Node>, s: set<nat>) {
    forall a :: a in s && a in n ==> a in n' && n'[a] == n[a]
  }

  lemma RingFrame(n: map<nat, Node>, n': map<nat, Node>, ring: seq<nat>, s: nat, idx: nat)
    requires Ring(n, ring, s, idx) && Agree(n, n', RingSet(ring))
    ensures Ring(n', ring, s, idx)
  {
    forall i | 0 <= i < |ring|
      ensures InRing(n', ring, i, s, idx)
    {
      assert InRing(n, ring, i, s, idx);
      assert ring[i] in RingSet(ring) && ring[Turn(ring, i)] in RingSet(ring);
    }
    forall i | 1 <= i < |ring|
      ensures Hangs(n', ring[i])
    {
      assert Hangs(n, ring[i]) && ring[i] in RingSet(ring);
    }
  }

  lemma {:induction false} RepFrame(n: map<nat, Node>, n': map<nat, Node>, p: nat, par: Parent, t: Trie, idx: nat)
    requires Rep(n, p, par, t, idx) && Agree(n, n', Members(t))
    ensures Rep(n', p, par, t, idx)
    decreases t
  {
    if t.Tree? {
      assert p in RingSet(t.ring);
      RingFrame(n, n', t.ring, t.size, idx);
      RepFrame(n, n', n[p].left, Below(p), t.left, idx);
      RepFrame(n, n', n[p].right, Below(p), t.right, idx);
    }
  }

  // ... except that only the links of the ring's head to its children change.
  lemma RingHead(n: map<nat, Node>, n': map<nat, Node>, ring: seq<nat>, s: nat, idx: nat, v: Node)
    requires ring != [] && NoDup(ring) && Ring(n, ring, s, idx) && Agree(n, n', RingSet(ring) - {ring[0]})
    requires ring[0] in n && ring[0] in n' && n'[ring[0]] == v
    requires v == n[ring[0]].(left := v.left, right := v.right, parent := v.parent)
    ensures Ring(n', ring, s, idx)
  {
    forall i | 0 <= i < |ring|
      ensures InRing(n', ring, i, s, idx)
    {
      assert InRing(n, ring, i, s, idx);
      assert ring[i] in RingSet(ring) && ring[Turn(ring, i)] in RingSet(ring);
    }
    forall i | 1 <= i < |ring|
      ensures Hangs(n', ring[i])
    {
      assert Hangs(n, ring[i]) && ring[i] in RingSet(ring) && ring[i] != ring[0];
    }
  }

  // The same trie under another parent.
  lemma Reparent(n: map<nat, Node>, n': map<nat, Node>, p: nat, par: Parent, par': Parent, t: Trie, idx: nat)
    requires Rep(n, p, par, t, idx) && Separate(t)
    requires p != 0 ==> p in n && p in n' && n'[p] == n[p].(parent := par') && Agree(n, n', Members(t) - {p})
    ensures Rep(n', p, par', t, idx)
  {
    if t.Tree? {
      assert p in RingSet(t.ring);
      RingHead(n, n', t.ring, t.size, idx, n'[p]);
      RepFrame(n, n', n[p].left, Below(p), t.left, idx);
      RepFrame(n, n', n[p].right, Below(p), t.right, idx);
    }
  }

  // ----- along a path

  // The node that the end of the path hangs on.
  function Last(path: seq<Crumb>): Crumb
    requires path != []
  {
    path[|path| - 1]
  }

  function Holder(path: seq<Crumb>): nat
    requires path != [] && Last(path).ring != []
  {
    Last(path).ring[0]
  }

  function ParentAt(path: seq<Crumb>, par: Parent): Parent
    requires path != [] ==> Last(path).ring != []
  {
    if path == [] then par else Below(Holder(path))
  }

  /** The nodes at the end of a path are the subtrie there. */
  lemma {:induction false} RepAt(n: map<nat, Node>, p: nat, par: Parent, path: seq<Crumb>, t: Trie, idx: nat)
    returns (q: nat)
    requires Rep(n, p, par, Plug(path, t), idx)
    ensures path == [] ==> q == p
    ensures path != [] ==> Last(path).ring != [] && Holder(path) in n && q == Child(n[Holder(path)], Last(path).right)
    ensures path != [] ==> Holder(path) in PathMembers(path)
    ensures Rep(n, q, ParentAt(path, par), t, idx)
    decreases |path|
  {
    if path == [] {
      q := p;
    } else {
      var c := path[0];
      assert c.ring[0] in RingSet(c.ring);
      q := RepAt(n, Child(n[p], c.right), Below(p), path[1..], t, idx);
      if |path| > 1 { assert Last(path[1..]) == Last(path); }
    }
  }

  /** Another subtrie at the end of a path, and the link to it. */
  lemma {:induction false} RepPlug(n: map<nat, Node>, n': map<nat, Node>, p: nat, par: Parent, path: seq<Crumb>,
          t: Trie, t': Trie, q': nat, idx: nat)
    requires Rep(n, p, par, Plug(path, t), idx) && Separate(Plug(path, t)) && path != []
    requires Last(path).ring != [] && Holder(path) in n && Holder(path) in n'
    requires n'[Holder(path)] == WithChild(n[Holder(path)], Last(path).right, q')
    requires Agree(n, n', PathMembers(path) - {Holder(path)})
    requires Rep(n', q', Below(Holder(path)), t', idx)
    ensures Rep(n', p, par, Plug(path, t'), idx)
    decreases |path|
  {
    var c := path[0];
    var whole := Plug(path, t);
    assert p == c.ring[0] && p in RingSet(c.ring);
    if |path| == 1 {
      assert Holder(path) == p;
      PlugOne(path, t);
      PlugOne(path, t');
      RingHead(n, n', c.ring, c.size, idx, n'[p]);
      SiblingFrame(n, n', p, c, t, idx);
    } else {
      var rest := path[1..];
      assert Last(rest) == Last(path);
      HolderBelow(n, Child(n[p], c.right), Below(p), rest, t, idx);
      PlugMembers(rest, t);
      assert Holder(path) !in RingSet(c.ring) && Holder(path) !in Members(c.other);
      RingFrame(n, n', c.ring, c.size, idx);
      RepPlug(n, n', Child(n[p], c.right), Below(p), rest, t, t', q', idx);
      RepFrame(n, n', Child(n[p], !c.right), Below(p), c.other, idx);
    }
  }

  lemma PlugOne(path: seq<Crumb>, t: Trie)
    requires |path| == 1
    ensures Plug(path, t) == Graft(path[0], t) && PathMembers(path) == RingSet(path[0].ring) + Members(path[0].other)
  {
    assert path[1..] == [];
    assert Plug(path[1..], t) == t;
  }

  lemma SiblingFrame(n: map<nat, Node>, n': map<nat, Node>, p: nat, c: Crumb, t: Trie, idx: nat)
    requires c.ring != [] && p == c.ring[0] && p in n && Separate(Graft(c, t))
    requires Rep(n, Child(n[p], !c.right), Below(p), c.other, idx)
    requires Agree(n, n', RingSet(c.ring) + Members(c.other) - {p})
    ensures Rep(n', Child(n[p], !c.right), Below(p), c.other, idx)
  {
    assert p in RingSet(c.ring);
    RepFrame(n, n', Child(n[p], !c.right), Below(p), c.other, idx);
  }

  lemma HolderBelow(n: map<nat, Node>, p: nat, par: Parent, path: seq<Crumb>, t: Trie, idx: nat)
    requires Rep(n, p, par, Plug(path, t), idx) && path != []
    ensures Last(path).ring != [] && Holder(path) in PathMembers(path)
  {
    var q := RepAt(n, p, par, path, t, idx);
  }
  /** Another subtrie at the end of a path, under the same link. */
  lemma RepSame(n: map<nat, Node>, n': map<nat, Node>, p: nat, path: seq<Crumb>, t: Trie, t': Trie, q: nat, idx: nat)
    requires Rep(n, p, OfBin, Plug(path, t), idx) && Separate(Plug(path, t))
    requires path == [] ==> q == p
    requires path != [] ==> Last(path).ring != [] && Holder(path) in n && q == Child(n[Holder(path)], Last(path).right)
    requires Agree(n, n', PathMembers(path)) && Rep(n', q, ParentAt(path, OfBin), t', idx)
    ensures Rep(n', p, OfBin, Plug(path, t'), idx)
  {
    if path != [] {
      HolderBelow(n, p, OfBin, path, t, idx);
      RepPlug(n, n', p, OfBin, path, t, t', q, idx);
    }
  }

  // ----- rings

  // X linked in behind the head of a ring.
  ghost predicate Linked(n: map<nat, Node>, n': map<nat, Node>, ring: seq<nat>, x: nat, s: nat, idx: nat)
    requires ring != [] && ring[0] in n
  {
    var t, f := ring[0], n[ring[0]].fd;
    && t in n' && x in n' && f in n && f in n'
    && n'[x] == Node(s, idx, 0, 0, Chained, f, t)
    && n'[t] == (if f == t then n[t].(fd := x, bk := x) else n[t].(fd := x))
    && (f != t ==> n'[f] == n[f].(bk := x))
    && Agree(n, n', n.Keys - {x, t, f})
  }

  function WithSecond(ring: seq<nat>, x: nat): seq<nat>
    requires ring != []
  {
    [ring[0], x] + ring[1..]
  }

  lemma RingGrows(n: map<nat, Node>, n': map<nat, Node>, ring: seq<nat>, x: nat, s: nat, idx: nat)
    requires ring != [] && NoDup(ring) && x !in ring && Ring(n, ring, s, idx) && ring[0] in n
    requires Linked(n, n', ring, x, s, idx)
    ensures Ring(n', WithSecond(ring, x), s, idx)
  {
    var r' := WithSecond(ring, x);
    assert InRing(n, ring, 0, s, idx);
    forall i | 0 <= i < |r'|
      ensures InRing(n', r', i, s, idx)
    {
      if i > 0 { assert InRing(n, ring, i - 1, s, idx); }
      if i > 1 { assert Hangs(n, ring[i - 1]); }
    }
    forall i | 1 <= i < |r'|
      ensures Hangs(n', r'[i])
    {
      if i > 1 { assert Hangs(n, ring[i - 1]); }
    }
  }

  // X linked out of its ring.
  ghost predicate Unlinked(n: map<nat, Node>, n': map<nat, Node>, x: nat)
    requires x in n
  {
    var f, r := n[x].fd, n[x].bk;
    && f in n && r in n && f in n' && r in n'
    && n'[f].bk == r && n'[r].fd == f
    && n'[f] == (if f == r then n[f].(bk := r, fd := f) else n[f].(bk := r))
    && (f != r ==> n'[r] == n[r].(fd := f))
    && Agree(n, n', n.Keys - {f, r})
  }

  // A ring without its element j; when the head goes the last element takes its place.
  function Without(ring: seq<nat>, j: nat): seq<nat>
    requires j < |ring| && |ring| > 1
  {
    if j == 0 then [ring[|ring| - 1]] + ring[1..|ring| - 1] else ring[..j] + ring[j + 1..]
  }

  ghost predicate Cycle(n: map<nat, Node>, ring: seq<nat>, s: nat, idx: nat) {
    forall i :: 0 <= i < |ring| ==> InRing(n, ring, i, s, idx)
  }

  lemma RingShrinks(n: map<nat, Node>, n': map<nat, Node>, ring: seq<nat>, j: nat, s: nat, idx: nat)
    requires |ring| > 1 && NoDup(ring) && j < |ring| && Ring(n, ring, s, idx) && ring[j] in n
    requires Unlinked(n, n', ring[j])
    ensures Cycle(n', Without(ring, j), s, idx)
    ensures forall i :: 1 <= i < |Without(ring, j)| ==> Hangs(n', Without(ring, j)[i])
  {
    var r' := Without(ring, j);
    var m := |ring| - 1;
    assert InRing(n, ring, j, s, idx);
    assert InRing(n, ring, if j == 0 then m else j - 1, s, idx);
    forall i | 0 <= i < |r'|
      ensures InRing(n', r', i, s, idx)
    {
      var o := Origin(|ring|, j, i);
      assert r'[i] == ring[o] && InRing(n, ring, o, s, idx);
      if o + 1 < |ring| { assert InRing(n, ring, o + 1, s, idx); } else { assert InRing(n, ring, 0, s, idx); }
      ShrunkLink(n, n', ring, j, s, idx, i, o);
    }
    forall i | 1 <= i < |r'|
      ensures Hangs(n', r'[i])
    {
      var o := if j == 0 then i else (if i < j then i else i + 1);
      assert r'[i] == ring[o] && Hangs(n, ring[o]) && InRing(n, ring, o, s, idx);
    }
  }

  // Where element i of the ring without j comes from.
  function Origin(m: nat, j: nat, i: nat): nat
    requires m > 1
  {
    if j == 0 then (if i == 0 then m - 1 else i) else (if i < j then i else i + 1)
  }

  lemma WithoutAt(ring: seq<nat>, j: nat, i: nat)
    requires |ring| > 1 && j < |ring| && i < |ring| - 1
    ensures |Without(ring, j)| == |ring| - 1 && Origin(|ring|, j, i) < |ring| && Origin(|ring|, j, i) != j
    ensures Without(ring, j)[i] == ring[Origin(|ring|, j, i)]
  {
  }

  lemma TurnOrigin(ring: seq<nat>, j: nat, i: nat)
    requires |ring| > 1 && j < |ring| && i < |ring| - 1 && |Without(ring, j)| == |ring| - 1
    ensures var o, i1 := Origin(|ring|, j, i), Turn(Without(ring, j), i);
      Origin(|ring|, j, i1) == if Turn(ring, o) == j then Turn(ring, j) else Turn(ring, o)
  {
    hide Without;
  }

  lemma ShrunkLink(n: map<nat, Node>, n': map<nat, Node>, ring: seq<nat>, j: nat, s: nat, idx: nat, i: nat, o: nat)
    requires |ring| > 1 && NoDup(ring) && j < |ring| && Ring(n, ring, s, idx) && ring[j] in n
    requires Unlinked(n, n', ring[j])
    requires i < |ring| - 1 && o == Origin(|ring|, j, i)
    ensures InRing(n', Without(ring, j), i, s, idx)
  {
    hide Ring, Without, Origin, NoDup;
    WithoutAt(ring, j, i);
    TurnOrigin(ring, j, i);
    var r' := Without(ring, j);
    var i1 := Turn(r', i);
    WithoutAt(ring, j, i1);
    var o1 := Origin(|ring|, j, i1);
    InRingAt(n, ring, o, s, idx);
    InRingAt(n, ring, o1, s, idx);
    InRingAt(n, ring, j, s, idx);
    RingApart(n, ring, j, o, s, idx);
    RingApart(n, ring, j, o1, s, idx);
  }

  lemma InRingAt(n: map<nat, Node>, ring: seq<nat>, i: nat, s: nat, idx: nat)
    requires Ring(n, ring, s, idx) && i < |ring|
    ensures InRing(n, ring, i, s, idx)
  {
  }

  // Only the neighbours of element j are linked to it.
  lemma RingApart(n: map<nat, Node>, ring: seq<nat>, j: nat, o: nat, s: nat, idx: nat)
    requires Ring(n, ring, s, idx) && NoDup(ring) && j < |ring| && o < |ring| && o != j
    ensures ring[j] in n && ring[o] in n && ring[o] != ring[j]
    ensures n[ring[j]].bk == ring[o] <==> Turn(ring, o) == j
    ensures n[ring[j]].fd == ring[o] <==> Turn(ring, j) == o
  {
    assert InRing(n, ring, j, s, idx) && InRing(n, ring, o, s, idx);
    var b := if j == 0 then |ring| - 1 else j - 1;
    assert InRing(n, ring, b, s, idx) && Turn(ring, b) == j;
  }

  /** A ring takes the place of x above the children of x. */
  lemma Rerooted(n: map<nat, Node>, n': map<nat, Node>, x: nat, r: nat, par: Parent, t: Trie, c0: nat, c1: nat,
          idx: nat)
    requires t.Tree? && t.ring != [] && t.ring[0] == r && Separate(t)
    requires Cycle(n, t.ring, t.size, idx) && forall i :: 1 <= i < |t.ring| ==> Hangs(n, t.ring[i])
    requires Rep(n, c0, Below(x), t.left, idx) && Rep(n, c1, Below(x), t.right, idx)
    requires r in n && r in n' && n'[r] == n[r].(parent := par, left := c0, right := c1)
    requires c0 != 0 ==> c0 in n && c0 in n' && n'[c0] == n[c0].(parent := Below(r))
    requires c1 != 0 ==> c1 in n && c1 in n' && n'[c1] == n[c1].(parent := Below(r))
    requires Agree(n, n', Members(t) - {r, c0, c1})
    ensures Rep(n', r, par, t, idx)
  {
    assert r in RingSet(t.ring);
    RootMember(n, c0, Below(x), t.left, idx);
    RootMember(n, c1, Below(x), t.right, idx);
    NoZero(t);
    assert Agree(n, n', Members(t.left) - {c0}) && Agree(n, n', Members(t.right) - {c1});
    assert Ring(n, t.ring, t.size, idx);
    RingHead(n, n', t.ring, t.size, idx, n'[r]);
    Reparent(n, n', c0, Below(x), Below(r), t.left, idx);
    Reparent(n, n', c1, Below(x), Below(r), t.right, idx);
  }

  lemma {:induction false} NoZero(t: Trie)
    requires Separate(t)
    ensures 0 !in Members(t)
  {
    if t.Tree? {
      NoZero(t.left);
      NoZero(t.right);
    }
  }

  lemma RootMember(n: map<nat, Node>, p: nat, par: Parent, t: Trie, idx: nat)
    requires Rep(n, p, par, t, idx)
    ensures if t == Nil then p == 0 else p != 0 && p in Members(t) && p in n && n[p].parent == par
  {
    if t.Tree? { assert p in RingSet(t.ring); }
  }
}
