/** The shape of a tree bin: a bitwise trie of rings of chunks of one size. */
module MallocTrie {
  import opened Words
  import opened MallocSizes

  // A ring of chunks of one size, and the tries for the two halves of the span of sizes.
  datatype Trie = Nil | Tree(ring: seq<nat>, size: nat, left: Trie, right: Trie)

  function RingSet(ring: seq<nat>): set<nat> {
    set a | a in ring
  }

  function Members(t: Trie): set<nat> {
    match t
    case Nil => {}
    case Tree(ring, _, l, r) => RingSet(ring) + Members(l) + Members(r)
  }

  /** Chunk a of size z is in the trie. */
  predicate Has(t: Trie, a: nat, z: nat) {
    match t
    case Nil => false
    case Tree(ring, s, l, r) => (a in ring && z == s) || Has(l, a, z) || Has(r, a, z)
  }

  predicate HasSize(t: Trie, z: nat) {
    match t
    case Nil => false
    case Tree(_, s, l, r) => z == s || HasSize(l, z) || HasSize(r, z)
  }

  predicate NoDup(s: seq<nat>) {
    forall i, j :: 0 <= i < j < |s| ==> s[i] != s[j]
  }

  // No chunk occurs twice.
  ghost predicate Separate(t: Trie) {
    match t
    case Nil => true
    case Tree(ring, _, l, r) =>
      && ring != [] && NoDup(ring) && 0 !in ring && Separate(l) && Separate(r)
      && RingSet(ring) !! Members(l) && RingSet(ring) !! Members(r) && Members(l) !! Members(r)
  }

  /** Every size is in the span of its path, and there is one ring for each size. */
  ghost predicate Ordered(t: Trie, low: nat, k: nat)
    decreases k
  {
    match t
    case Nil => true
    case Tree(_, s, l, r) =>
      && Spans(low, k, s) && !HasSize(l, s) && !HasSize(r, s)
      && (if k == 0 then l == Nil && r == Nil
          else Ordered(l, low, k - 1) && Ordered(r, low + Pow2(k - 1), k - 1))
  }

  lemma {:induction false} HasMember(t: Trie, a: nat, z: nat)
    requires Has(t, a, z)
    ensures a in Members(t) && HasSize(t, z)
  {
    if !(a in t.ring && z == t.size) {
      if Has(t.left, a, z) { HasMember(t.left, a, z); } else { HasMember(t.right, a, z); }
    }
  }

  lemma {:induction false} MemberHas(t: Trie, a: nat) returns (z: nat)
    requires a in Members(t)
    ensures Has(t, a, z)
  {
    if a in t.ring {
      z := t.size;
    } else if a in Members(t.left) {
      z := MemberHas(t.left, a);
    } else {
      z := MemberHas(t.right, a);
    }
  }

  lemma {:induction false} SizeInSpan(t: Trie, low: nat, k: nat, z: nat)
    requires Ordered(t, low, k) && HasSize(t, z)
    ensures Spans(low, k, z)
    decreases k
  {
    if k > 0 && z != t.size {
      Doubles(k - 1);
      if HasSize(t.left, z) { SizeInSpan(t.left, low, k - 1, z); } else { SizeInSpan(t.right, low + Pow2(k - 1), k - 1, z); }
    }
  }

  // ----- places in a trie

  // A step down from a node: to which side, and what is on the other side.
  datatype Crumb = Crumb(ring: seq<nat>, size: nat, right: bool, other: Trie)

  function Graft(c: Crumb, t: Trie): Trie {
    if c.right then Tree(c.ring, c.size, c.other, t) else Tree(c.ring, c.size, t, c.other)
  }

  /** The trie that has t at the end of the path. */
  function Plug(path: seq<Crumb>, t: Trie): Trie {
    if path == [] then t else Graft(path[0], Plug(path[1..], t))
  }

  lemma {:induction false} PlugDown(path: seq<Crumb>, c: Crumb, t: Trie)
    ensures Plug(path + [c], t) == Plug(path, Graft(c, t))
    decreases |path|
  {
    if path == [] {
      assert [] + [c] == [c] && [c][1..] == [];
      assert Plug([c], t) == Graft(c, Plug([], t));
    } else {
      assert (path + [c])[1..] == path[1..] + [c];
      PlugDown(path[1..], c, t);
    }
  }

  // Where the span of the subtrie begins.
  function LowAt(path: seq<Crumb>, low: nat, k: nat): nat
    requires |path| <= k
    decreases |path|
  {
    if path == [] then low
    else LowAt(path[1..], if path[0].right then low + Pow2(k - 1) else low, k - 1)
  }

  predicate OnPath(path: seq<Crumb>, z: nat)
    decreases |path|
  {
    path != [] && (path[0].size == z || OnPath(path[1..], z))
  }

  lemma {:induction false} LowDown(path: seq<Crumb>, c: Crumb, low: nat, k: nat)
    requires |path| < k
    ensures LowAt(path + [c], low, k) == LowAt(path, low, k) + if c.right then Pow2(k - |path| - 1) else 0
    decreases |path|
  {
    if path == [] {
      assert [] + [c] == [c] && [c][1..] == [];
      assert LowAt([c], low, k) == LowAt([], if c.right then low + Pow2(k - 1) else low, k - 1);
    } else {
      assert (path + [c])[1..] == path[1..] + [c];
      LowDown(path[1..], c, if path[0].right then low + Pow2(k - 1) else low, k - 1);
    }
  }

  lemma {:induction false} OnPathDown(path: seq<Crumb>, c: Crumb, z: nat)
    ensures OnPath(path + [c], z) <==> OnPath(path, z) || c.size == z
    decreases |path|
  {
    if path == [] {
      assert [] + [c] == [c] && [c][1..] == [];
      assert OnPath([c], z) <==> c.size == z || OnPath([], z);
    } else {
      assert (path + [c])[1..] == path[1..] + [c];
      OnPathDown(path[1..], c, z);
    }
  }

  // What is ordered is ordered at the end of every path.
  lemma {:induction false} OrderedAt(path: seq<Crumb>, t: Trie, low: nat, k: nat)
    requires Ordered(Plug(path, t), low, k) && t != Nil
    ensures |path| <= k && Ordered(t, LowAt(path, low, k), k - |path|)
    ensures forall z :: OnPath(path, z) ==> !HasSize(t, z)
    decreases |path|
  {
    if path != [] {
      PlugNotNil(path[1..], t);
      var low' := if path[0].right then low + Pow2(k - 1) else low;
      OrderedAt(path[1..], t, low', k - 1);
      PlugSizes(path[1..], t);
    }
  }

  lemma {:induction false} PlugNotNil(path: seq<Crumb>, t: Trie)
    requires t != Nil
    ensures Plug(path, t) != Nil
  {
  }

  lemma {:induction false} PlugSizes(path: seq<Crumb>, t: Trie)
    ensures forall z :: HasSize(t, z) ==> HasSize(Plug(path, t), z)
    decreases |path|
  {
    if path != [] { PlugSizes(path[1..], t); }
  }

  lemma {:induction false} PlugSize(path: seq<Crumb>, t: Trie, t': Trie, z: nat)
    requires HasSize(Plug(path, t'), z)
    ensures HasSize(Plug(path, t), z) || HasSize(t', z)
    decreases |path|
  {
    if path != [] && HasSize(Plug(path[1..], t'), z) {
      PlugSize(path[1..], t, t', z);
    }
  }

  /** Any ordered subtrie whose sizes are not on the path can take the place of another. */
  lemma {:induction false} OrderedPlug(path: seq<Crumb>, t: Trie, t': Trie, low: nat, k: nat)
    requires Ordered(Plug(path, t), low, k) && |path| <= k
    requires Ordered(t', LowAt(path, low, k), k - |path|)
    requires forall z :: HasSize(t', z) ==> !OnPath(path, z)
    ensures Ordered(Plug(path, t'), low, k)
    decreases |path|
  {
    if path != [] {
      var low' := if path[0].right then low + Pow2(k - 1) else low;
      forall z | HasSize(t', z)
        ensures !OnPath(path[1..], z) && z != path[0].size
      {
        assert !OnPath(path, z);
      }
      OrderedPlug(path[1..], t, t', low', k - 1);
      if HasSize(Plug(path[1..], t'), path[0].size) { PlugSize(path[1..], t, t', path[0].size); }
    }
  }

  function PathMembers(path: seq<Crumb>): set<nat>
    decreases |path|
  {
    if path == [] then {} else RingSet(path[0].ring) + Members(path[0].other) + PathMembers(path[1..])
  }

  lemma {:induction false} PlugMembers(path: seq<Crumb>, t: Trie)
    ensures Members(Plug(path, t)) == PathMembers(path) + Members(t)
    decreases |path|
  {
    if path != [] { PlugMembers(path[1..], t); }
  }

  lemma {:induction false} SeparateAt(path: seq<Crumb>, t: Trie)
    requires Separate(Plug(path, t))
    ensures Separate(t) && PathMembers(path) !! Members(t)
    decreases |path|
  {
    if path != [] {
      SeparateAt(path[1..], t);
      PlugMembers(path[1..], t);
    }
  }

  lemma {:induction false} SeparatePlug(path: seq<Crumb>, t: Trie, t': Trie)
    requires Separate(Plug(path, t)) && Separate(t') && PathMembers(path) !! Members(t')
    ensures Separate(Plug(path, t'))
    decreases |path|
  {
    if path != [] {
      SeparatePlug(path[1..], t, t');
      PlugMembers(path[1..], t);
      PlugMembers(path[1..], t');
    }
  }

  // What is in the trie is on the path or at its end.
  lemma {:induction false} PlugHas(path: seq<Crumb>, t: Trie, t': Trie, a: nat, z: nat)
    requires Has(t, a, z) == Has(t', a, z)
    ensures Has(Plug(path, t), a, z) == Has(Plug(path, t'), a, z)
    decreases |path|
  {
    if path != [] { PlugHas(path[1..], t, t', a, z); }
  }

  lemma {:induction false} PlugGains(path: seq<Crumb>, t: Trie, a: nat, z: nat)
    requires Has(t, a, z)
    ensures Has(Plug(path, t), a, z)
    decreases |path|
  {
    if path != [] { PlugGains(path[1..], t, a, z); }
  }

  // A chunk that is in the trie is in the ring at the end of some path.
  lemma {:induction false} PathTo(t: Trie, a: nat) returns (path: seq<Crumb>, u: Trie)
    requires a in Members(t)
    ensures Plug(path, u) == t && u.Tree? && a in u.ring
  {
    if a in t.ring {
      path, u := [], t;
    } else {
      var right := a !in Members(t.left);
      var rest;
      rest, u := PathTo(if right then t.right else t.left, a);
      path := [Crumb(t.ring, t.size, right, if right then t.left else t.right)] + rest;
      assert path[1..] == rest;
    }
  }

  // ----- taking a leaf away

  // The size of a leaf is nowhere else in the trie.
  lemma {:induction false} LeafAlone(path: seq<Crumb>, ring: seq<nat>, s: nat, low: nat, k: nat)
    requires Ordered(Plug(path, Tree(ring, s, Nil, Nil)), low, k)
    ensures !HasSize(Plug(path, Nil), s)
    decreases |path|
  {
    var leaf := Tree(ring, s, Nil, Nil);
    if path != [] {
      PlugNotNil(path[1..], leaf);
      var low' := if path[0].right then low + Pow2(k - 1) else low;
      LeafAlone(path[1..], ring, s, low', k - 1);
      PlugSizes(path[1..], leaf);
      assert HasSize(leaf, s);
      SizeInSpan(Plug(path[1..], leaf), low', k - 1, s);
      if HasSize(path[0].other, s) {
        SizeInSpan(path[0].other, if path[0].right then low else low + Pow2(k - 1), k - 1, s);
      }
    }
  }

  lemma {:induction false} PlugNil(path: seq<Crumb>, t: Trie)
    ensures forall z: nat :: HasSize(Plug(path, Nil), z) ==> HasSize(Plug(path, t), z)
    ensures forall a: nat, z: nat :: Has(Plug(path, t), a, z) <==> Has(Plug(path, Nil), a, z) || Has(t, a, z)
    decreases |path|
  {
    if path != [] { PlugNil(path[1..], t); }
  }

  // ----- the smallest size

  // child[0] when there is one, else child[1]
  function LeftmostChild(t: Trie): Trie {
    if t.Nil? then Nil else if t.left != Nil then t.left else t.right
  }

  /** The smallest size of a trie is on the way down its leftmost children. */
  function LeftmostSize(t: Trie): nat
    requires t != Nil
  {
    if LeftmostChild(t) == Nil then t.size
    else var m := LeftmostSize(LeftmostChild(t)); if t.size < m then t.size else m
  }

  lemma {:induction false} LeftmostLeast(t: Trie, low: nat, k: nat)
    requires t != Nil && Ordered(t, low, k)
    ensures HasSize(t, LeftmostSize(t)) && forall z :: HasSize(t, z) ==> LeftmostSize(t) <= z
    decreases k
  {
    if k > 0 && LeftmostChild(t) != Nil {
      if t.left != Nil {
        LeftmostLeast(t.left, low, k - 1);
        SizeInSpan(t.left, low, k - 1, LeftmostSize(t.left));
        forall z | HasSize(t.right, z)
          ensures LeftmostSize(t.left) <= z
        {
          SizeInSpan(t.right, low + Pow2(k - 1), k - 1, z);
        }
      } else {
        LeftmostLeast(t.right, low + Pow2(k - 1), k - 1);
      }
    }
  }
}
