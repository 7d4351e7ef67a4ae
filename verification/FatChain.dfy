/** Cluster chains: the table as a set of disjoint acyclic lists of clusters. */
module FatChain {

  predicate InRange(l: seq<int>, c: int) {
    2 <= c < |l|
  }

  predicate Distinct(p: seq<int>) {
    forall i, j :: 0 <= i < j < |p| ==> p[i] != p[j]
  }

  /** A chain: each cluster leads to the next one, the last to an end mark. */
  ghost predicate IsChain(l: seq<int>, p: seq<int>) {
    && |p| > 0 && Distinct(p)
    && (forall i :: 0 <= i < |p| ==> InRange(l, p[i]))
    && (forall i :: 0 <= i < |p| - 1 ==> l[p[i]] == p[i + 1])
    && l[p[|p| - 1]] >= |l|
  }

  // Every one of cs is a chain.
  ghost predicate AllChains(l: seq<int>, cs: set<seq<int>>) {
    forall p :: p in cs ==> IsChain(l, p)
  }

  // No cluster is in two of them.
  ghost predicate Apart(cs: set<seq<int>>) {
    forall p, q, c :: p in cs && q in cs && c in p && c in q ==> p == q
  }

  predicate InSome(cs: set<seq<int>>, c: int) {
    exists p :: p in cs && c in p
  }

  // Every cluster in use is in one.
  ghost predicate Covers(l: seq<int>, cs: set<seq<int>>) {
    forall c :: InRange(l, c) && l[c] != 0 ==> InSome(cs, c)
  }

  /** The chains cs are disjoint and hold every cluster in use. */
  ghost predicate Partition(l: seq<int>, cs: set<seq<int>>) {
    AllChains(l, cs) && Apart(cs) && Covers(l, cs)
  }

  lemma ChainInUse(l: seq<int>, p: seq<int>, c: int)
    requires IsChain(l, p) && c in p
    ensures InRange(l, c) && l[c] >= 2
  {
    var i :| 0 <= i < |p| && p[i] == c;
    if i < |p| - 1 { assert l[p[i]] == p[i + 1] && InRange(l, p[i + 1]); }
  }

  // A free cluster becomes a chain of its own.
  lemma NewChain(l: seq<int>, cs: set<seq<int>>, n: int, e: int)
    requires Partition(l, cs) && InRange(l, n) && l[n] == 0 && e >= |l|
    ensures Partition(l[n := e], cs + {[n]})
    ensures forall p :: p in cs ==> n !in p
  {
    var l' := l[n := e];
    forall p | p in cs
      ensures n !in p && IsChain(l', p)
    {
      if n in p { ChainInUse(l, p, n); }
    }
    assert IsChain(l', [n]);
    forall c | InRange(l', c) && l'[c] != 0
      ensures exists p :: p in cs + {[n]} && c in p
    {
      if c == n { assert c in [n]; } else {
        var p :| p in cs && c in p;
        assert p in cs + {[n]};
      }
    }
  }

  /** ... or the new end of a chain. */
  lemma ExtendChain(l: seq<int>, cs: set<seq<int>>, p: seq<int>, n: int, e: int)
    requires Partition(l, cs) && p in cs && InRange(l, n) && l[n] == 0 && e >= |l|
    ensures |p| > 0 && Partition(l[n := e][p[|p| - 1] := n], cs - {p} + {p + [n]})
  {
    hide IsChain, Apart, Covers, AllChains, InSome;
    NotInChains(l, cs, n);
    ExtendedChains(l, cs, p, n, e);
    ExtendedDisjoint(cs, p, n);
    ExtendedCovers(l, cs, p, n, e);
  }

  lemma NotInChains(l: seq<int>, cs: set<seq<int>>, n: int)
    requires AllChains(l, cs) && InRange(l, n) && l[n] == 0
    ensures forall p :: p in cs ==> n !in p
  {
    forall p | p in cs
      ensures n !in p
    {
      if n in p { ChainInUse(l, p, n); }
    }
  }

  lemma ExtendedCovers(l: seq<int>, cs: set<seq<int>>, p: seq<int>, n: int, e: int)
    requires Partition(l, cs) && p in cs && InRange(l, n) && |p| > 0 && InRange(l, p[|p| - 1])
    ensures Covers(l[n := e][p[|p| - 1] := n], cs - {p} + {p + [n]})
  {
    hide IsChain, Apart, InSome;
    var l', cs' := l[n := e][p[|p| - 1] := n], cs - {p} + {p + [n]};
    ChainInUse(l, p, p[|p| - 1]);
    forall c | InRange(l', c) && l'[c] != 0
      ensures InSome(cs', c)
    {
      InSomeChain(l, cs, p, n, c);
    }
  }

  lemma InSomeChain(l: seq<int>, cs: set<seq<int>>, p: seq<int>, n: int, c: int)
    requires Partition(l, cs) && p in cs && InRange(l, c) && (l[c] != 0 || c == n)
    ensures InSome(cs - {p} + {p + [n]}, c)
  {
    if c == n || c in p {
      assert c in p + [n] && p + [n] in cs - {p} + {p + [n]};
    } else {
      var q :| q in cs && c in q;
      assert q in cs - {p} + {p + [n]};
    }
  }

  lemma ChainElsewhere(l: seq<int>, l': seq<int>, q: seq<int>)
    requires IsChain(l, q) && |l'| == |l| && forall c :: c in q ==> l'[c] == l[c]
    ensures IsChain(l', q)
  {
    assert forall i :: 0 <= i < |q| ==> q[i] in q;
  }

  lemma DistinctMore(p: seq<int>, n: int)
    requires Distinct(p) && n !in p
    ensures Distinct(p + [n])
  {
  }

  lemma LongerChain(l: seq<int>, p: seq<int>, n: int, e: int)
    requires IsChain(l, p) && n !in p && InRange(l, n) && e >= |l|
    ensures IsChain(l[n := e][p[|p| - 1] := n], p + [n])
  {
    var k := |p| - 1;
    var l' := l[n := e][p[k] := n];
    var p' := p + [n];
    DistinctMore(p, n);
    assert p[k] in p;
    forall i | 0 <= i < |p'| - 1
      ensures l'[p'[i]] == p'[i + 1]
    {
      if i < k { assert p[i] != p[k] && p[i] in p && l[p[i]] == p[i + 1]; }
    }
  }

  lemma ExtendedChains(l: seq<int>, cs: set<seq<int>>, p: seq<int>, n: int, e: int)
    requires Partition(l, cs) && p in cs && InRange(l, n) && e >= |l| && forall q :: q in cs ==> n !in q
    ensures |p| > 0 && InRange(l, p[|p| - 1]) && AllChains(l[n := e][p[|p| - 1] := n], cs - {p} + {p + [n]})
  {
    hide Covers;
    var last := p[|p| - 1];
    assert last in p;
    LongerChain(l, p, n, e);
    forall q | q in cs && q != p
      ensures IsChain(l[n := e][last := n], q)
    {
      assert last !in q && n !in q;
      ChainElsewhere(l, l[n := e][last := n], q);
    }
  }

  lemma ExtendedDisjoint(cs: set<seq<int>>, p: seq<int>, n: int)
    requires p in cs && Apart(cs) && forall q :: q in cs ==> n !in q
    ensures Apart(cs - {p} + {p + [n]})
  {
    assert forall c :: c in p + [n] ==> c in p || c == n;
  }

  // ----- freeing

  function Used(l: seq<int>): nat {
    if |l| <= 2 then 0 else Used(l[..|l| - 1]) + if l[|l| - 1] != 0 then 1 else 0
  }

  function CountFree(l: seq<int>): nat {
    if |l| <= 2 then 0 else CountFree(l[..|l| - 1]) + if l[|l| - 1] == 0 then 1 else 0
  }

  lemma {:induction false} CountBound(l: seq<int>)
    ensures CountFree(l) <= |l|
    decreases |l|
  {
    if |l| > 2 { CountBound(l[..|l| - 1]); }
  }

  function IfZero(b: bool): int {
    if b then 1 else 0
  }

  lemma {:induction false} CountUpdate(l: seq<int>, c: int, v: int)
    requires InRange(l, c)
    ensures CountFree(l[c := v]) == CountFree(l) - IfZero(l[c] == 0) + IfZero(v == 0)
    ensures Used(l[c := v]) == Used(l) - IfZero(l[c] != 0) + IfZero(v != 0)
  {
    var n := |l| - 1;
    if c == n {
      assert l[c := v][..n] == l[..n];
    } else {
      assert l[c := v][..n] == l[..n][c := v];
      CountUpdate(l[..n], c, v);
    }
  }

  /** remove_chain: frees what it walks over; false when it meets an invalid entry. */
  function FreeFrom(l: seq<int>, c: int): (seq<int>, bool)
    requires 2 <= c && forall d :: InRange(l, d) ==> l[d] >= 0
    decreases Used(l)
  {
    if c >= |l| || l[c] == 0 then (l, true)
    else if l[c] == 1 then (l, false)
    else
      var l1 := l[c := 0];
      CountUpdate(l, c, 0);
      assert forall d :: InRange(l1, d) ==> InRange(l, d);
      FreeFrom(l1, l[c])
  }

  function Cleared(l: seq<int>, p: seq<int>): (r: seq<int>)
    ensures |r| == |l|
    ensures forall c :: 0 <= c < |l| ==> r[c] == if c in p then 0 else l[c]
  {
    seq(|l|, c requires 0 <= c < |l| => if c in p then 0 else l[c])
  }

  /** From the head of a chain it frees exactly that chain. */
  lemma {:induction false} FreeChain(l: seq<int>, p: seq<int>)
    requires IsChain(l, p) && forall d :: InRange(l, d) ==> l[d] >= 0
    ensures FreeFrom(l, p[0]) == (Cleared(l, p), true)
    decreases |p|
  {
    var l1 := l[p[0] := 0];
    CountUpdate(l, p[0], 0);
    assert forall d :: InRange(l1, d) ==> InRange(l, d);
    if |p| == 1 {
      assert Cleared(l, p) == l1;
      assert l[p[0]] >= |l|;
    } else {
      assert l[p[0]] == p[1];
      assert IsChain(l1, p[1..]);
      FreeChain(l1, p[1..]);
      assert p == [p[0]] + p[1..];
      assert Cleared(l, p) == Cleared(l1, p[1..]);
    }
  }

  lemma ClearChain(l: seq<int>, cs: set<seq<int>>, p: seq<int>)
    requires Partition(l, cs) && p in cs
    ensures Partition(Cleared(l, p), cs - {p})
    ensures forall c :: c in p ==> InRange(l, c) && l[c] != 0
  {
    var l' := Cleared(l, p);
    forall c | c in p
      ensures InRange(l, c) && l[c] != 0
    {
      ChainInUse(l, p, c);
    }
    forall q | q in cs - {p}
      ensures IsChain(l', q)
    {
      assert forall c :: c in q ==> c !in p;
      assert forall i :: 0 <= i < |q| ==> q[i] in q;
      ChainElsewhere(l, l', q);
    }
    forall c | InRange(l', c) && l'[c] != 0
      ensures exists q :: q in cs - {p} && c in q
    {
      var q :| q in cs && c in q;
      assert q in cs - {p};
    }
  }

  // How many clusters that gives back.
  lemma {:induction false} CountCleared(l: seq<int>, p: seq<int>)
    requires Distinct(p) && forall c :: c in p ==> InRange(l, c) && l[c] != 0
    ensures CountFree(Cleared(l, p)) == CountFree(l) + |p|
    decreases |p|
  {
    if p == [] {
      assert Cleared(l, p) == l;
    } else {
      var q := p[1..];
      assert p[0] in p;
      var l1 := l[p[0] := 0];
      CountUpdate(l, p[0], 0);
      forall c | c in q
        ensures c in p && c != p[0] && InRange(l1, c) && l1[c] != 0
      {
        var i :| 0 <= i < |q| && q[i] == c;
        assert c == p[i + 1];
      }
      CountCleared(l1, q);
      assert p == [p[0]] + q;
      assert Cleared(l, p) == Cleared(l1, q);
    }
  }

  // ----- the search for a free cluster

  // The clusters looked at before n when the search starts behind s.
  predicate Passed(s: int, n: int, c: int) {
    if s < n then s < c < n else s < c || c < n
  }
}
