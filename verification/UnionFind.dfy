/** Union-find with union by rank and path compression. */
module UnionFind {
  import opened Basics

  // ---- The forest as a value ----

  ghost function MaxRank(ranks: seq<nat>): (m: nat)
    ensures forall i :: 0 <= i < |ranks| ==> ranks[i] <= m
  {
    if ranks == [] then 0
    else
      var k := |ranks| - 1;
      var m := MaxRank(ranks[..k]);
      assert forall i :: 0 <= i < k ==> ranks[i] == ranks[..k][i];
      if ranks[k] > m then ranks[k] else m
  }

  /** Ranks strictly increase along every parent link. */
  ghost predicate Forest(ids: seq<nat>, ranks: seq<nat>) {
    && |ids| == |ranks|
    && (forall i :: 0 <= i < |ids| ==> ids[i] < |ids|)
    && (forall i :: 0 <= i < |ids| && ids[i] != i ==> ranks[i] < ranks[ids[i]])
  }

  ghost function Root(ids: seq<nat>, ranks: seq<nat>, x: nat): (r: nat)
    requires Forest(ids, ranks) && x < |ids|
    ensures r < |ids| && ids[r] == r && (x == r || ranks[x] < ranks[r])
    decreases MaxRank(ranks) - ranks[x]
  {
    if ids[x] == x then x else Root(ids, ranks, ids[x])
  }

  ghost function Roots(ids: seq<nat>, ranks: seq<nat>): (R: seq<nat>)
    requires Forest(ids, ranks)
    ensures |R| == |ids|
    ensures forall i {:trigger R[i]} :: 0 <= i < |ids| ==> R[i] == Root(ids, ranks, i)
  {
    seq(|ids|, i requires 0 <= i < |ids| => Root(ids, ranks, i))
  }

  /** Representatives represent themselves. */
  lemma RootsOfRoots(ids: seq<nat>, ranks: seq<nat>)
    requires Forest(ids, ranks)
    ensures forall i: nat :: i < |ids| ==>
      Roots(ids, ranks)[i] < |ids| && Roots(ids, ranks)[Roots(ids, ranks)[i]] == Roots(ids, ranks)[i]
  {
    forall i: nat | i < |ids|
      ensures Roots(ids, ranks)[i] < |ids| && Roots(ids, ranks)[Roots(ids, ranks)[i]] == Roots(ids, ranks)[i]
    {
      var r := Roots(ids, ranks)[i];
      assert ids[r] == r;
    }
  }

  /** The representatives R after the classes a and b have become the class of w. */
  ghost function Joined(R: seq<nat>, a: nat, b: nat, w: nat): seq<nat> {
    seq(|R|, i requires 0 <= i < |R| => if R[i] == a || R[i] == b then w else R[i])
  }

  lemma JoinedAt(R: seq<nat>, a: nat, b: nat, w: nat)
    requires a < |R| && R[a] == a && (w == a || w == b)
    ensures |Joined(R, a, b, w)| == |R| && Joined(R, a, b, w)[a] == w
  {
  }

  lemma {:induction false} CompressRoot(ids: seq<nat>, ranks: seq<nat>, x: nat, y: nat)
    requires Forest(ids, ranks) && x < |ids| && y < |ids|
    ensures Forest(ids[x := Root(ids, ranks, x)], ranks)
    ensures Root(ids[x := Root(ids, ranks, x)], ranks, y) == Root(ids, ranks, y)
    decreases MaxRank(ranks) - ranks[y]
  {
    if y != x && ids[y] != y {
      CompressRoot(ids, ranks, x, ids[y]);
    }
  }

  /** Pointing a node at its root changes no representative. */
  lemma CompressKeepsRoots(ids: seq<nat>, ranks: seq<nat>, x: nat)
    requires Forest(ids, ranks) && x < |ids|
    ensures Forest(ids[x := Root(ids, ranks, x)], ranks)
    ensures Roots(ids[x := Root(ids, ranks, x)], ranks) == Roots(ids, ranks)
  {
    CompressRoot(ids, ranks, x, x);
    forall y: nat | y < |ids|
      ensures Root(ids[x := Root(ids, ranks, x)], ranks, y) == Root(ids, ranks, y)
    {
      CompressRoot(ids, ranks, x, y);
    }
  }

  lemma {:induction false} LinkRoot(ids: seq<nat>, ranks: seq<nat>, a: nat, b: nat, ranks': seq<nat>, y: nat)
    requires Forest(ids, ranks) && a < |ids| && b < |ids| && ids[a] == a && ids[b] == b && y < |ids|
    requires Forest(ids[a := b], ranks')
    ensures Root(ids[a := b], ranks', y) == if Root(ids, ranks, y) == a then b else Root(ids, ranks, y)
    decreases MaxRank(ranks) - ranks[y]
  {
    if ids[y] != y {
      LinkRoot(ids, ranks, a, b, ranks', ids[y]);
    }
  }

  /** Hanging root a under root b joins exactly their two classes. */
  lemma LinkJoins(ids: seq<nat>, ranks: seq<nat>, a: nat, b: nat, ranks': seq<nat>)
    requires Forest(ids, ranks) && a < |ids| && b < |ids| && ids[a] == a && ids[b] == b
    requires Forest(ids[a := b], ranks')
    ensures Roots(ids[a := b], ranks') == Joined(Roots(ids, ranks), a, b, b)
  {
    forall y: nat | y < |ids|
      ensures Root(ids[a := b], ranks', y) == if Root(ids, ranks, y) == a then b else Root(ids, ranks, y)
    {
      LinkRoot(ids, ranks, a, b, ranks', y);
    }
  }

  lemma LinkForest(ids: seq<nat>, ranks: seq<nat>, a: nat, b: nat, ranks': seq<nat>)
    requires Forest(ids, ranks) && a < |ids| && b < |ids| && ids[b] == b && |ranks'| == |ranks|
    requires (forall i :: 0 <= i < |ranks| && i != b ==> ranks'[i] == ranks[i]) && ranks'[b] >= ranks[b]
    requires a == b || ranks[a] < ranks'[b]
    ensures Forest(ids[a := b], ranks')
  {
  }

  lemma RootsAreRoots(ids: seq<nat>, ranks: seq<nat>, x: nat)
    requires Forest(ids, ranks) && x < |ids|
    ensures Roots(ids, ranks)[x] < |ids| == |ranks| && ids[Roots(ids, ranks)[x]] == Roots(ids, ranks)[x]
  {
  }

  lemma JoinedSwapped(R: seq<nat>, a: nat, b: nat, w: nat)
    ensures Joined(R, a, b, w) == Joined(R, b, a, w)
  {
  }

  lemma {:induction false} AddRoot(ids: seq<nat>, ranks: seq<nat>, y: nat)
    requires Forest(ids, ranks) && y < |ids| && Forest(ids + [|ids|], ranks + [0])
    ensures Root(ids + [|ids|], ranks + [0], y) == Root(ids, ranks, y)
    decreases MaxRank(ranks) - ranks[y]
  {
    if ids[y] != y {
      AddRoot(ids, ranks, ids[y]);
    }
  }

  // ---- Renumbering ----

  /** A permutation of the ids below |p|. */
  predicate Permutes(p: seq<nat>) {
    && (forall i :: 0 <= i < |p| ==> p[i] < |p|)
    && (forall i, j :: 0 <= i < j < |p| ==> p[i] != p[j])
  }

  function Image(p: seq<nat>, n: nat): set<nat>
    requires n <= |p|
  {
    if n == 0 then {} else Image(p, n - 1) + {p[n - 1]}
  }

  lemma {:induction false} ImageMeans(p: seq<nat>, n: nat, k: nat)
    requires n <= |p|
    ensures k in Image(p, n) <==> exists i :: 0 <= i < n && p[i] == k
  {
    if n > 0 {
      ImageMeans(p, n - 1, k);
      if k == p[n - 1] {
        assert 0 <= n - 1 < n && p[n - 1] == k;
      }
    }
  }

  lemma {:induction false} ImageSize(p: seq<nat>, n: nat)
    requires n <= |p| && Permutes(p)
    ensures |Image(p, n)| == n
  {
    if n > 0 {
      ImageSize(p, n - 1);
      ImageMeans(p, n - 1, p[n - 1]);
    }
  }

  /** A permutation reaches every id. */
  lemma Reaches(p: seq<nat>, k: nat) returns (i: nat)
    requires Permutes(p) && k < |p|
    ensures i < |p| && p[i] == k
  {
    hide Image;
    var ids := Image(p, |p|);
    assert ids <= UpTo(|p|) by {
      forall x | x in ids ensures x < |p| { ImageMeans(p, |p|, x); }
    }
    UpToSize(|p|);
    ImageSize(p, |p|);
    SubsetOfSameSize(ids, UpTo(|p|));
    ImageMeans(p, |p|, k);
    i :| 0 <= i < |p| && p[i] == k;
  }

  lemma SubsetOfSameSize(a: set<nat>, b: set<nat>)
    requires a <= b && |a| == |b|
    ensures a == b
  {
    assert b == a + (b - a) && |b| == |a| + |b - a|;
  }

  /** The forest (ids', ranks') is the forest (ids, ranks) under other names. */
  ghost predicate Renamed(ids: seq<nat>, ranks: seq<nat>, p: seq<nat>, ids': seq<nat>, ranks': seq<nat>) {
    && |p| == |ids| == |ranks| == |ids'| == |ranks'| && Permutes(p)
    && (forall i :: 0 <= i < |ids| ==> ids[i] < |ids|)
    && (forall i :: 0 <= i < |ids| ==> ids'[p[i]] == p[ids[i]] && ranks'[p[i]] == ranks[i])
  }

  lemma RenamedForest(ids: seq<nat>, ranks: seq<nat>, p: seq<nat>, ids': seq<nat>, ranks': seq<nat>)
    requires Forest(ids, ranks) && Renamed(ids, ranks, p, ids', ranks')
    ensures Forest(ids', ranks')
  {
    forall k | 0 <= k < |ids'| ensures ids'[k] < |ids'| && (ids'[k] != k ==> ranks'[k] < ranks'[ids'[k]]) {
      var i := Reaches(p, k);
      assert ids'[p[i]] == p[ids[i]] && ranks'[p[ids[i]]] == ranks[ids[i]];
    }
  }

  lemma {:induction false} RenamedRoot(ids: seq<nat>, ranks: seq<nat>, p: seq<nat>, ids': seq<nat>, ranks': seq<nat>,
                                       x: nat)
    requires Forest(ids, ranks) && Renamed(ids, ranks, p, ids', ranks') && Forest(ids', ranks') && x < |ids|
    ensures Root(ids', ranks', p[x]) == p[Root(ids, ranks, x)]
    decreases MaxRank(ranks) - ranks[x]
  {
    assert ids'[p[x]] == p[ids[x]];
    if ids[x] != x {
      assert p[ids[x]] != p[x];
      RenamedRoot(ids, ranks, p, ids', ranks', ids[x]);
    }
  }

  /** find' o p == p o find. */
  ghost predicate Commutes(R: seq<nat>, p: seq<nat>, R': seq<nat>) {
    && |R| == |p| == |R'| && Permutes(p)
    && (forall x :: 0 <= x < |R| ==> R[x] < |R|)
    && (forall x {:trigger R'[p[x]]} {:trigger R[x]} :: 0 <= x < |R| ==> R'[p[x]] == p[R[x]])
  }

  // ---- Class sizes ----

  ghost function Class(R: seq<nat>, r: nat): (s: set<nat>) {
    set i: nat | i < |R| && R[i] == r
  }

  /** A root of rank k has at least 2^k nodes in its class. */
  ghost predicate RankBound(R: seq<nat>, ranks: seq<nat>) {
    && |R| == |ranks|
    && forall r: nat :: r < |R| && R[r] == r ==> Pow2(ranks[r]) <= |Class(R, r)|
  }

  lemma JoinedClasses(R: seq<nat>, a: nat, b: nat, w: nat, r: nat)
    requires a != b && (w == a || w == b)
    ensures r == w ==> |Class(Joined(R, a, b, w), r)| == |Class(R, a)| + |Class(R, b)|
    ensures r != a && r != b ==> Class(Joined(R, a, b, w), r) == Class(R, r)
  {
    if r == w {
      assert Class(Joined(R, a, b, w), r) == Class(R, a) + Class(R, b);
      assert Class(R, a) !! Class(R, b);
    }
  }

  /** The root that represents the joined classes of the roots a and b. */
  function Winner(ranks: seq<nat>, a: nat, b: nat): nat
    requires a < |ranks| && b < |ranks|
  {
    if ranks[a] < ranks[b] then b else a
  }

  function MergedRanks(ranks: seq<nat>, a: nat, b: nat): seq<nat>
    requires a < |ranks| && b < |ranks|
  {
    if ranks[a] == ranks[b] then ranks[a := ranks[a] + 1] else ranks
  }

  /** The class of the root of higher rank takes in the other, a's on a tie; only a tie raises a rank, a's by one. */
  lemma MergedMeans(R: seq<nat>, ranks: seq<nat>, a: nat, b: nat)
    requires |R| == |ranks| && a < |R| && b < |R|
    ensures var R', ranks' := Joined(R, a, b, Winner(ranks, a, b)), MergedRanks(ranks, a, b);
            && |R'| == |ranks'| == |R|
            && (forall i :: 0 <= i < |R| ==>
                  R'[i] == if R[i] !in {a, b} then R[i] else if ranks[a] < ranks[b] then b else a)
            && forall i :: 0 <= i < |R| ==> ranks'[i] == ranks[i] + if i == a && ranks[a] == ranks[b] then 1 else 0
  {
  }

  /**
   * Merging keeps the size bound exactly when the two roots differ, or the class still has room
   * for the rank that a merge of a class with itself adds.
   */
  lemma RankBoundAfterMerge(R: seq<nat>, ranks: seq<nat>, a: nat, b: nat)
    requires RankBound(R, ranks) && a < |R| && b < |R| && R[a] == a && R[b] == b
    ensures RankBound(Joined(R, a, b, Winner(ranks, a, b)), MergedRanks(ranks, a, b))
            <==> a != b || Pow2(ranks[a] + 1) <= |Class(R, a)|
  {
    var w, ranks' := Winner(ranks, a, b), MergedRanks(ranks, a, b);
    var R' := Joined(R, a, b, w);
    if a == b {
      assert R' == R;
    } else {
      forall r: nat | r < |R'| && R'[r] == r ensures Pow2(ranks'[r]) <= |Class(R', r)| {
        JoinedClasses(R, a, b, w, r);
      }
    }
  }

  /** A new class of one keeps the size bound. */
  lemma RankBoundGrow(R: seq<nat>, ranks: seq<nat>)
    requires RankBound(R, ranks) && forall i :: 0 <= i < |R| ==> R[i] < |R|
    ensures RankBound(R + [|R|], ranks + [0])
  {
    forall r: nat | r < |R| + 1 && (R + [|R|])[r] == r ensures Pow2((ranks + [0])[r]) <= |Class(R + [|R|], r)| {
      if r < |R| {
        assert Class(R + [|R|], r) == Class(R, r);
      } else {
        assert r in Class(R + [|R|], r);
      }
    }
  }

  /** A class of one node merged with itself breaks the size bound. */
  lemma SelfMergeBreaksRankBound()
    ensures RankBound([0], [0]) && !RankBound(Joined([0], 0, 0, Winner([0], 0, 0)), MergedRanks([0], 0, 0))
  {
    assert Class([0], 0) == {0};
    RankBoundAfterMerge([0], [0], 0, 0);
    assert Pow2(1) == 2;
  }

  // ---- The structure ----

  class UnionFind {
    var ids: seq<nat>
    var ranks: seq<nat>

    ghost predicate Valid()
      reads this
    {
      Forest(ids, ranks)
    }

    /** The representative of every id. */
    ghost function Reps(): (R: seq<nat>)
      reads this
      requires Valid()
      ensures |R| == |ids|
    {
      Roots(ids, ranks)
    }

    constructor (size: nat)
      ensures Valid() && Reps() == seq(size, i requires 0 <= i < size => i) && forall i :: 0 <= i < size ==>
          ranks[i] == 0
      ensures RankBound(Reps(), ranks)
    {
      ids := seq(size, i requires 0 <= i < size => i);
      ranks := seq(size, i => 0);
      new;
      forall r: nat | r < size ensures Pow2(ranks[r]) <= |Class(Reps(), r)| {
        assert r in Class(Reps(), r);
      }
    }

    method Add() returns (id: nat)
      requires Valid()
      modifies this
      ensures Valid() && id == |old(ids)|
      ensures Reps() == old(Reps()) + [id]
      ensures ranks == old(ranks) + [0]
    {
      id := |ids|;
      forall y: nat | y < |ids| && Forest(ids + [|ids|], ranks + [0])
        ensures Root(ids + [|ids|], ranks + [0], y) == Root(ids, ranks, y)
      {
        AddRoot(ids, ranks, y);
      }
      ids, ranks := ids + [|ids|], ranks + [0];
    }

    method Find(idx: nat) returns (r: nat)
      requires Valid() && idx < |ids|
      modifies `ids
      ensures Valid() && |ids| == |old(ids)| && Reps() == old(Reps())
      ensures r == Reps()[idx] == ids[idx]
      decreases MaxRank(ranks) - ranks[idx]
    {
      if ids[idx] != idx {
        ghost var before := Reps();
        assert before[ids[idx]] == before[idx];
        var root := Find(ids[idx]);
        assert root == Root(ids, ranks, idx);
        CompressKeepsRoots(ids, ranks, idx);
        ids := ids[idx := root];
      }
      r := ids[idx];
    }

    /** Joins the two classes; the root of higher rank, or rhs's on a tie, represents both. */
    method Merge(rhs: nat, lhs: nat)
      requires Valid() && rhs < |ids| && lhs < |ids|
      modifies this
      ensures Valid() && |ids| == |old(ids)|
      ensures var a, b := old(Reps())[rhs], old(Reps())[lhs];
              && Reps() == Joined(old(Reps()), a, b, Winner(old(ranks), a, b))
              && ranks == MergedRanks(old(ranks), a, b)
    {
      hide Forest, Joined, Root;
      var rhsRoot := Find(rhs);
      var lhsRoot := Find(lhs);
      ghost var R := Reps();
      RootsAreRoots(ids, ranks, rhs);
      RootsAreRoots(ids, ranks, lhs);
      if ranks[rhsRoot] < ranks[lhsRoot] {
        LinkForest(ids, ranks, rhsRoot, lhsRoot, ranks);
        LinkJoins(ids, ranks, rhsRoot, lhsRoot, ranks);
        ids := ids[rhsRoot := lhsRoot];
      } else if ranks[lhsRoot] < ranks[rhsRoot] {
        LinkForest(ids, ranks, lhsRoot, rhsRoot, ranks);
        LinkJoins(ids, ranks, lhsRoot, rhsRoot, ranks);
        JoinedSwapped(R, lhsRoot, rhsRoot, rhsRoot);
        ids := ids[lhsRoot := rhsRoot];
      } else {
        LinkForest(ids, ranks, lhsRoot, rhsRoot, ranks[rhsRoot := ranks[rhsRoot] + 1]);
        LinkJoins(ids, ranks, lhsRoot, rhsRoot, ranks[rhsRoot := ranks[rhsRoot] + 1]);
        JoinedSwapped(R, lhsRoot, rhsRoot, rhsRoot);
        ids := ids[lhsRoot := rhsRoot];
        ranks := ranks[rhsRoot := ranks[rhsRoot] + 1];
      }
    }

    /** Renumbers every id; afterwards find(p[x]) is p[find(x)]. */
    method Remap(p: seq<nat>)
      requires Valid() && |p| == |ids| && Permutes(p)
      modifies this
      ensures Valid() && |ids| == |old(ids)|
      ensures Commutes(old(Reps()), p, Reps())
      ensures forall i :: 0 <= i < |p| ==> ranks[p[i]] == old(ranks)[i]
    {
      var newRanks: seq<nat> := seq(|ids|, i => 0);
      var newIds: seq<nat> := seq(|ids|, i => 0);
      for i := 0 to |ids|
        invariant |newRanks| == |newIds| == |ids|
        invariant forall j :: 0 <= j < i ==> newIds[p[j]] == p[ids[j]] && newRanks[p[j]] == ranks[j]
      {
        newIds := newIds[p[i] := p[ids[i]]];
        newRanks := newRanks[p[i] := ranks[i]];
      }
      RenamedForest(ids, ranks, p, newIds, newRanks);
      forall x: nat | x < |ids| ensures Root(newIds, newRanks, p[x]) == p[Root(ids, ranks, x)] {
        RenamedRoot(ids, ranks, p, newIds, newRanks, x);
      }
      ranks, ids := newRanks, newIds;
    }
  }
}
