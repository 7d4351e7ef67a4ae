/** The small bins: doubly linked lists of chunks of one size each, headed by the bin itself. */
module MallocSmall {
  import opened MallocSizes
  import opened MallocBits

  const NSMALLBINS := 32

  // A place on a list: the header of a bin, or a chunk.
  datatype Spot = Head(i: nat) | Chunk(a: nat)

  datatype Smalls = Smalls(fd: map<Spot, Spot>, bk: map<Spot, Spot>, marks: bv32, lists: seq<seq<nat>>)

  function Turn(ring: seq<Spot>, j: nat): nat {
    if j + 1 == |ring| then 0 else j + 1
  }

  // The list of bin i, the header in front.
  function Ring(i: nat, list: seq<nat>): (r: seq<Spot>)
    ensures |r| == |list| + 1 && r[0] == Head(i) && forall j :: 0 <= j < |list| ==> r[j + 1] == Chunk(list[j])
  {
    seq(|list| + 1, j requires 0 <= j < |list| + 1 => if j == 0 then Head(i) else Chunk(list[j - 1]))
  }

  ghost predicate Step(fd: map<Spot, Spot>, bk: map<Spot, Spot>, ring: seq<Spot>, j: nat)
    requires j < |ring|
  {
    && ring[j] in fd && ring[Turn(ring, j)] in bk
    && fd[ring[j]] == ring[Turn(ring, j)] && bk[ring[Turn(ring, j)]] == ring[j]
  }

  ghost predicate Cycle(fd: map<Spot, Spot>, bk: map<Spot, Spot>, ring: seq<Spot>) {
    forall j :: 0 <= j < |ring| ==> Step(fd, bk, ring, j)
  }

  predicate NoDup<T(==)>(s: seq<T>) {
    forall i, j :: 0 <= i < j < |s| ==> s[i] != s[j]
  }

  // The links of an empty bin may be stale.
  ghost predicate BinOK(s: Smalls, i: nat)
    requires |s.lists| == NSMALLBINS && i < NSMALLBINS
  {
    && (Marked(s.marks, i) <==> s.lists[i] != []) && NoDup(s.lists[i])
    && (s.lists[i] != [] ==> Cycle(s.fd, s.bk, Ring(i, s.lists[i])))
  }

  ghost predicate Valid(s: Smalls) {
    && |s.lists| == NSMALLBINS && (forall i :: 0 <= i < NSMALLBINS ==> BinOK(s, i))
    && (forall i, j, a :: 0 <= i < j < NSMALLBINS && a in s.lists[i] ==> a !in s.lists[j])
  }

  /** Chunk a of size z is in a small bin. */
  ghost predicate Holds(s: Smalls, a: nat, z: nat) {
    |s.lists| == NSMALLBINS && z < MIN_LARGE && z % 8 == 0 && a in s.lists[z / 8]
  }

  ghost predicate IsMember(s: Smalls, a: nat) {
    exists i :: 0 <= i < |s.lists| && a in s.lists[i]
  }

  // Bin i has the list l, links of other bins are as they were.
  ghost predicate Changed(s: Smalls, s': Smalls, i: nat, l: seq<nat>)
    requires |s.lists| == NSMALLBINS && i < NSMALLBINS
  {
    && s'.lists == s.lists[i := l]
    && (forall j :: 0 <= j < NSMALLBINS ==> (Marked(s'.marks, j) <==> if j == i then l != [] else Marked(s.marks, j)))
    && (forall p :: p in s.fd && p != Head(i) && !(p.Chunk? && (p.a in s.lists[i] || p.a in l)) ==> p in s'.fd && s'.fd[p] == s.fd[p])
    && (forall p :: p in s.bk && p != Head(i) && !(p.Chunk? && (p.a in s.lists[i] || p.a in l)) ==> p in s'.bk && s'.bk[p] == s.bk[p])
  }

  lemma CycleFrame(s: Smalls, s': Smalls, i: nat, l: seq<nat>, j: nat)
    requires Valid(s) && i < NSMALLBINS && j < NSMALLBINS && j != i && Changed(s, s', i, l) && s.lists[j] != []
    requires forall a :: a in l ==> a !in s.lists[j]
    ensures Cycle(s'.fd, s'.bk, Ring(j, s.lists[j]))
  {
    var ring := Ring(j, s.lists[j]);
    assert BinOK(s, j);
    forall m | 0 <= m < |ring|
      ensures Step(s'.fd, s'.bk, ring, m)
    {
      assert Step(s.fd, s.bk, ring, m);
      Elsewhere(s, i, j, ring, m);
      Elsewhere(s, i, j, ring, Turn(ring, m));
    }
  }

  lemma Elsewhere(s: Smalls, i: nat, j: nat, ring: seq<Spot>, m: nat)
    requires Valid(s) && i < NSMALLBINS && j < NSMALLBINS && j != i && ring == Ring(j, s.lists[j]) && m < |ring|
    ensures ring[m] != Head(i) && (ring[m].Chunk? ==> ring[m].a in s.lists[j] && ring[m].a !in s.lists[i])
  {
    if m > 0 {
      assert ring[m - 1 + 1] == Chunk(s.lists[j][m - 1]);
    }
  }

  lemma ChangedValid(s: Smalls, s': Smalls, i: nat, l: seq<nat>)
    requires Valid(s) && i < NSMALLBINS && Changed(s, s', i, l) && NoDup(l)
    requires l != [] ==> Cycle(s'.fd, s'.bk, Ring(i, l))
    requires forall j, a :: 0 <= j < NSMALLBINS && j != i && a in l ==> a !in s.lists[j]
    ensures Valid(s')
  {
    hide Marked, Step;
    forall j | 0 <= j < NSMALLBINS
      ensures BinOK(s', j)
    {
      assert BinOK(s, j);
      if j != i && s.lists[j] != [] { CycleFrame(s, s', i, l, j); }
    }
  }

  // ----- linking in and out

  lemma LinkedIn(fd: map<Spot, Spot>, bk: map<Spot, Spot>, i: nat, list: seq<nat>, x: nat)
    requires x !in list && NoDup(list) && (list != [] ==> Cycle(fd, bk, Ring(i, list)))
    ensures var f := if list == [] then Head(i) else Chunk(list[0]);
      Cycle(fd[Head(i) := Chunk(x)][Chunk(x) := f], bk[f := Chunk(x)][Chunk(x) := Head(i)], Ring(i, [x] + list))
  {
    var f := if list == [] then Head(i) else Chunk(list[0]);
    var fd', bk' := fd[Head(i) := Chunk(x)][Chunk(x) := f], bk[f := Chunk(x)][Chunk(x) := Head(i)];
    var ring, ring' := Ring(i, list), Ring(i, [x] + list);
    forall j | 0 <= j < |ring'|
      ensures Step(fd', bk', ring', j)
    {
      RingAt(i, [x] + list, j);
      RingAt(i, [x] + list, Turn(ring', j));
      if j >= 2 {
        RingAt(i, list, j - 1);
        RingAt(i, list, Turn(ring, j - 1));
        assert Step(fd, bk, ring, j - 1);
      }
    }
  }

  lemma RingAt(i: nat, list: seq<nat>, j: nat)
    requires j <= |list|
    ensures Ring(i, list)[j] == if j == 0 then Head(i) else Chunk(list[j - 1])
  {
  }

  lemma LinkedOut(fd: map<Spot, Spot>, bk: map<Spot, Spot>, i: nat, list: seq<nat>, m: nat)
    requires m < |list| && NoDup(list) && Cycle(fd, bk, Ring(i, list)) && |list| > 1
    ensures Chunk(list[m]) in fd && Chunk(list[m]) in bk
    ensures var x := Chunk(list[m]);
      Cycle(fd[bk[x] := fd[x]], bk[fd[x] := bk[x]], Ring(i, list[..m] + list[m + 1..]))
  {
    var ring := Ring(i, list);
    assert Step(fd, bk, ring, m + 1) && Step(fd, bk, ring, m);
    var x := Chunk(list[m]);
    RingAt(i, list, m);
    RingAt(i, list, m + 1);
    RingAt(i, list, Turn(ring, m + 1));
    var list' := list[..m] + list[m + 1..];
    var ring' := Ring(i, list');
    var fd', bk' := fd[bk[x] := fd[x]], bk[fd[x] := bk[x]];
    forall j | 0 <= j < |ring'|
      ensures Step(fd', bk', ring', j)
    {
      var o := if j <= m then j else j + 1;
      var j1 := Turn(ring', j);
      var o1 := if j1 <= m then j1 else j1 + 1;
      RingAt(i, list', j);
      RingAt(i, list', j1);
      RingAt(i, list, o);
      RingAt(i, list, o1);
      assert ring'[j] == ring[o] && ring'[j1] == ring[o1];
      assert Step(fd, bk, ring, o);
      RingNoDup(i, list, o, m);
      RingNoDup(i, list, o1, Turn(ring, m + 1));
    }
  }

  lemma RingNoDup(i: nat, list: seq<nat>, j: nat, k: nat)
    requires NoDup(list) && j <= |list| && k <= |list|
    ensures Ring(i, list)[j] == Ring(i, list)[k] <==> j == k
  {
    RingAt(i, list, j);
    RingAt(i, list, k);
  }

  // When the neighbours of a chunk are the same, it is alone on its list.
  lemma Alone(fd: map<Spot, Spot>, bk: map<Spot, Spot>, i: nat, list: seq<nat>, m: nat)
    requires m < |list| && NoDup(list) && Cycle(fd, bk, Ring(i, list))
    ensures Chunk(list[m]) in fd && Chunk(list[m]) in bk
    ensures fd[Chunk(list[m])] == bk[Chunk(list[m])] <==> |list| == 1
  {
    var ring := Ring(i, list);
    assert Step(fd, bk, ring, m + 1) && Step(fd, bk, ring, m);
    RingAt(i, list, m);
    RingAt(i, list, m + 1);
    RingNoDup(i, list, m, Turn(ring, m + 1));
  }

  class SmallBins {
    var fd: map<Spot, Spot>
    var bk: map<Spot, Spot>
    var marks: bv32
    ghost var lists: seq<seq<nat>>

    ghost function S(): Smalls
      reads this
    {
      Smalls(fd, bk, marks, lists)
    }

    /** init_bins */
    constructor ()
      ensures Valid(S()) && forall a, z :: !Holds(S(), a, z)
    {
      fd, bk, marks := map i: nat | i < NSMALLBINS :: Head(i) := Head(i), map i: nat | i < NSMALLBINS :: Head(i) := Head(i), 0;
      lists := seq(NSMALLBINS, _ => []);
    }

    /** insert_small_chunk */
    method Insert(x: nat, s: nat)
      requires Valid(S()) && !IsMember(S(), x) && s < MIN_LARGE && s % 8 == 0
      modifies this
      ensures Valid(S()) && forall a, z :: Holds(S(), a, z) <==> Holds(old(S()), a, z) || (a == x && z == s)
      ensures s / 8 < |old(lists)| && lists == old(lists)[s / 8 := [x] + old(lists)[s / 8]]
    {
      hide Valid, Marked, Mark, Cycle, NoDup, Holds, IsMember;
      ghost var was := S();
      var i := s / 8;
      Known(was, i);
      var f := Head(i);
      if !Marked(marks, i) {
        marks := Mark(marks, i);
      } else {
        f := fd[Head(i)];
      }
      fd := fd[Head(i) := Chunk(x)];
      bk := bk[f := Chunk(x)];
      fd := fd[Chunk(x) := f];
      bk := bk[Chunk(x) := Head(i)];
      lists := lists[i := [x] + lists[i]];
      Inserted(was, S(), i, x);
      InsertedHolds(was, S(), i, x);
    }

    /** unlink_small_chunk */
    method Unlink(x: nat, s: nat)
      requires Valid(S()) && Holds(S(), x, s)
      modifies this
      ensures Valid(S()) && forall a, z :: Holds(S(), a, z) <==> Holds(old(S()), a, z) && a != x
      ensures s / 8 < |old(lists)| && exists m :: TakenOut(old(lists)[s / 8], x, m, lists, old(lists), s / 8)
    {
      hide Valid, Marked, Clear, Cycle, NoDup;
      ghost var was := S();
      ghost var i := s / 8;
      ghost var list := lists[i];
      ghost var m :| 0 <= m < |list| && list[m] == x;
      Known(was, i);
      Neighbours(was, i, m);
      hide Holds;
      var f := fd[Chunk(x)];
      var b := bk[Chunk(x)];
      if f == b {
        marks := Clear(marks, s / 8);
      } else {
        bk := bk[f := b];
        fd := fd[b := f];
      }
      lists := lists[i := list[..m] + list[m + 1..]];
      Removed(was, S(), i, m);
      assert TakenOut(list, x, m, lists, was.lists, i);
    }

    // The first chunk of bin i.
    method First(i: nat) returns (p: nat)
      requires Valid(S()) && i < NSMALLBINS && Marked(marks, i)
      ensures Holds(S(), p, 8 * i) && Head(i) in fd && fd[Head(i)] == Chunk(p)
    {
      hide Marked, Cycle;
      Known(S(), i);
      p := fd[Head(i)].a;
    }

    /** unlink_first_small_chunk of bin i, which begins with p */
    method UnlinkFirst(p: nat, i: nat)
      requires Valid(S()) && i < NSMALLBINS && Marked(marks, i) && Head(i) in fd && fd[Head(i)] == Chunk(p)
      modifies this
      ensures Valid(S()) && forall a, z :: Holds(S(), a, z) <==> Holds(old(S()), a, z) && a != p
      ensures i < |old(lists)| && old(lists)[i] != [] && old(lists)[i][0] == p && lists == old(lists)[i := old(lists)[i][1..]]
    {
      hide Valid, Marked, Clear, Cycle, NoDup, Holds;
      ghost var was := S();
      Known(was, i);
      ghost var list := lists[i];
      Neighbours(was, i, 0);
      Alone(was.fd, was.bk, i, list, 0);
      var f := fd[Chunk(p)];
      if f == Head(i) {
        marks := Clear(marks, i);
      } else {
        fd := fd[Head(i) := f];
        bk := bk[f := Head(i)];
      }
      lists := lists[i := list[..0] + list[1..]];
      Removed(was, S(), i, 0);
      assert list[..0] + list[1..] == list[1..];
    }
  }

  // Element m of list i is x, and all others have stayed.
  predicate TakenOut(list: seq<nat>, x: nat, m: nat, lists': seq<seq<nat>>, lists: seq<seq<nat>>, i: nat) {
    m < |list| && list[m] == x && i < |lists| && lists' == lists[i := list[..m] + list[m + 1..]]
  }

  // A chunk at the front of the list of bin i.
  lemma Inserted(s: Smalls, s': Smalls, i: nat, x: nat)
    requires Valid(s) && i < NSMALLBINS && !IsMember(s, x)
    requires var f := if s.lists[i] == [] then Head(i) else Chunk(s.lists[i][0]);
      && s'.fd == s.fd[Head(i) := Chunk(x)][Chunk(x) := f] && s'.bk == s.bk[f := Chunk(x)][Chunk(x) := Head(i)]
      && s'.marks == (if Marked(s.marks, i) then s.marks else Mark(s.marks, i))
      && s'.lists == s.lists[i := [x] + s.lists[i]]
    ensures Valid(s')
  {
    hide Marked, Mark, Cycle;
    Known(s, i);
    LinkedIn(s.fd, s.bk, i, s.lists[i], x);
    forall j | 0 <= j < NSMALLBINS
      ensures Marked(Mark(s.marks, i), j) <==> j == i || Marked(s.marks, j)
    {
      MarkOne(s.marks, i, j);
    }
    assert forall j :: 0 <= j < NSMALLBINS ==> x !in s.lists[j];
    ChangedValid(s, s', i, [x] + s.lists[i]);
  }

  lemma InsertedHolds(s: Smalls, s': Smalls, i: nat, x: nat)
    requires Valid(s) && i < NSMALLBINS && s'.lists == s.lists[i := [x] + s.lists[i]]
    ensures forall a: nat, z: nat :: Holds(s', a, z) <==> Holds(s, a, z) || (a == x && z == 8 * i)
  {
    hide BinOK;
  }

  // Element m of the list of bin i taken out.
  ghost predicate Removes(s: Smalls, s': Smalls, i: nat, m: nat)
    requires i < |s.lists| == NSMALLBINS && m < |s.lists[i]| && Chunk(s.lists[i][m]) in s.fd
    requires Chunk(s.lists[i][m]) in s.bk
  {
    var list := s.lists[i];
    var f, b := s.fd[Chunk(list[m])], s.bk[Chunk(list[m])];
    && s'.lists == s.lists[i := list[..m] + list[m + 1..]]
    && (if f == b then s'.fd == s.fd && s'.bk == s.bk && s'.marks == Clear(s.marks, i)
        else s'.fd == s.fd[b := f] && s'.bk == s.bk[f := b] && s'.marks == s.marks)
  }

  lemma Removed(s: Smalls, s': Smalls, i: nat, m: nat)
    requires Valid(s) && i < NSMALLBINS && m < |s.lists[i]| && Chunk(s.lists[i][m]) in s.fd
    requires Chunk(s.lists[i][m]) in s.bk
    requires Removes(s, s', i, m)
    ensures Valid(s') && forall a: nat, z: nat :: Holds(s', a, z) <==> Holds(s, a, z) && a != s.lists[i][m]
  {
    hide Marked, Clear, Cycle, BinOK;
    var list := s.lists[i];
    RemovedValid(s, s', i, m);
    forall a: nat, z: nat
      ensures Holds(s', a, z) <==> Holds(s, a, z) && a != list[m]
    {
      Known(s, i);
      OutOfList(list, m, a);
    }
  }

  lemma RemovedValid(s: Smalls, s': Smalls, i: nat, m: nat)
    requires Valid(s) && i < NSMALLBINS && m < |s.lists[i]| && Chunk(s.lists[i][m]) in s.fd
    requires Chunk(s.lists[i][m]) in s.bk
    requires Removes(s, s', i, m)
    ensures Valid(s')
  {
    hide Marked, Clear, Cycle;
    var list := s.lists[i];
    Known(s, i);
    Alone(s.fd, s.bk, i, list, m);
    if |list| > 1 { LinkedOut(s.fd, s.bk, i, list, m); }
    forall j | 0 <= j < NSMALLBINS
      ensures Marked(Clear(s.marks, i), j) <==> j != i && Marked(s.marks, j)
    {
      MarkOne(s.marks, i, j);
    }
    Neighbours(s, i, m);
    ChangedValid(s, s', i, list[..m] + list[m + 1..]);
  }

  lemma Known(s: Smalls, i: nat)
    requires Valid(s) && i < NSMALLBINS
    ensures |s.lists| == NSMALLBINS && (Marked(s.marks, i) <==> s.lists[i] != []) && NoDup(s.lists[i])
    ensures s.lists[i] != [] ==>
      Cycle(s.fd, s.bk, Ring(i, s.lists[i])) && Head(i) in s.fd && s.fd[Head(i)] == Chunk(s.lists[i][0])
    ensures s.lists[i] != [] ==>
      Head(i) in s.bk && Chunk(s.lists[i][0]) in s.bk && s.bk[Chunk(s.lists[i][0])] == Head(i)
  {
    assert BinOK(s, i);
    if s.lists[i] != [] {
      assert Step(s.fd, s.bk, Ring(i, s.lists[i]), 0);
      assert Step(s.fd, s.bk, Ring(i, s.lists[i]), |s.lists[i]|);
      RingAt(i, s.lists[i], 1);
    }
  }

  // The neighbours of a chunk are on its list.
  lemma Neighbours(s: Smalls, i: nat, m: nat)
    requires Valid(s) && i < NSMALLBINS && m < |s.lists[i]|
    ensures var x := Chunk(s.lists[i][m]);
      && x in s.fd && x in s.bk
      && (s.fd[x] == Head(i) || (s.fd[x].Chunk? && s.fd[x].a in s.lists[i]))
      && (s.bk[x] == Head(i) || (s.bk[x].Chunk? && s.bk[x].a in s.lists[i]))
  {
    var list := s.lists[i];
    assert BinOK(s, i);
    var ring := Ring(i, list);
    assert Step(s.fd, s.bk, ring, m + 1) && Step(s.fd, s.bk, ring, m);
    RingAt(i, list, m);
    RingAt(i, list, m + 1);
    RingAt(i, list, Turn(ring, m + 1));
  }

  lemma OutOfList(list: seq<nat>, m: nat, a: nat)
    requires m < |list| && NoDup(list)
    ensures a in list[..m] + list[m + 1..] <==> a in list && a != list[m]
  {
    if a in list && a != list[m] {
      var o :| 0 <= o < |list| && list[o] == a;
      assert (list[..m] + list[m + 1..])[if o < m then o else o - 1] == a;
    }
  }
}
