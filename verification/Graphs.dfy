/** Finite graphs whose edges run from a node to its predecessors. */
module Graphs {

  type Graph = map<nat, set<nat>>

  ghost predicate Closed(g: Graph) {
    forall v, w :: v in g && w in g[v] ==> w in g
  }

  /** y is reached from x by exactly n pred edges. */
  ghost predicate ReachIn(g: Graph, x: nat, y: nat, n: nat)
    decreases n
  {
    x in g && (if n == 0 then x == y else exists z :: z in g[x] && ReachIn(g, z, y, n - 1))
  }

  ghost predicate Reach(g: Graph, x: nat, y: nat) {
    exists n: nat :: ReachIn(g, x, y, n)
  }

  /** x and y lie on a common cycle, or are equal. */
  ghost predicate Mutual(g: Graph, x: nat, y: nat) {
    Reach(g, x, y) && Reach(g, y, x)
  }

  /** No cycle, except that a node may be its own predecessor. */
  ghost predicate Acyclic(g: Graph) {
    forall x, y :: Mutual(g, x, y) ==> x == y
  }

  lemma ReachSelf(g: Graph, x: nat)
    requires x in g
    ensures Reach(g, x, x)
  {
    assert ReachIn(g, x, x, 0);
  }

  lemma ReachStep(g: Graph, x: nat, z: nat, y: nat)
    requires x in g && z in g[x] && Reach(g, z, y)
    ensures Reach(g, x, y)
  {
    var n: nat :| ReachIn(g, z, y, n);
    assert ReachIn(g, x, y, n + 1);
  }

  lemma ReachEdge(g: Graph, x: nat, z: nat)
    requires Closed(g) && x in g && z in g[x]
    ensures Reach(g, x, z)
  {
    ReachSelf(g, z);
    ReachStep(g, x, z, z);
  }

  lemma {:induction false} ReachInTrans(g: Graph, x: nat, y: nat, z: nat, n: nat)
    requires ReachIn(g, x, y, n) && Reach(g, y, z)
    ensures Reach(g, x, z)
    decreases n
  {
    if n > 0 {
      var w :| w in g[x] && ReachIn(g, w, y, n - 1);
      ReachInTrans(g, w, y, z, n - 1);
      ReachStep(g, x, w, z);
    }
  }

  lemma ReachTrans(g: Graph, x: nat, y: nat, z: nat)
    requires Reach(g, x, y) && Reach(g, y, z)
    ensures Reach(g, x, z)
  {
    var n: nat :| ReachIn(g, x, y, n);
    ReachInTrans(g, x, y, z, n);
  }

  lemma {:induction false} ReachEnds(g: Graph, x: nat, y: nat, n: nat)
    requires ReachIn(g, x, y, n)
    ensures x in g && y in g
    decreases n
  {
    if n > 0 {
      var w :| w in g[x] && ReachIn(g, w, y, n - 1);
      ReachEnds(g, w, y, n - 1);
    }
  }

  lemma ReachInGraph(g: Graph, x: nat, y: nat)
    requires Reach(g, x, y)
    ensures x in g && y in g
  {
    var n: nat :| ReachIn(g, x, y, n);
    ReachEnds(g, x, y, n);
  }

  /** A path that leaves S crosses an edge out of S. */
  lemma {:induction false} ExitEdge(g: Graph, S: set<nat>, x: nat, y: nat, n: nat) returns (u: nat, w: nat)
    requires ReachIn(g, x, y, n) && x in S && y !in S
    ensures u in S && w !in S && u in g && w in g[u] && Reach(g, x, u) && Reach(g, w, y)
    decreases n
  {
    var z :| z in g[x] && ReachIn(g, z, y, n - 1);
    if z in S {
      u, w := ExitEdge(g, S, z, y, n - 1);
      ReachStep(g, x, z, u);
    } else {
      u, w := x, z;
      ReachSelf(g, x);
    }
  }

  /** From each node to one of its predecessors. */
  ghost predicate IsWalk(g: Graph, w: seq<nat>) {
    w != [] && (forall k :: 0 <= k < |w| ==> w[k] in g) && forall k :: 0 < k < |w| ==> w[k] in g[w[k - 1]]
  }

  lemma {:induction false} ReachInWalk(g: Graph, x: nat, y: nat, n: nat) returns (w: seq<nat>)
    requires ReachIn(g, x, y, n)
    ensures IsWalk(g, w) && w[0] == x && w[|w| - 1] == y
    decreases n
  {
    if n == 0 {
      w := [x];
    } else {
      var z :| z in g[x] && ReachIn(g, z, y, n - 1);
      var v := ReachInWalk(g, z, y, n - 1);
      w := [x] + v;
    }
  }

  /** What is reached is the end of a walk. */
  lemma ReachHasWalk(g: Graph, x: nat, y: nat) returns (w: seq<nat>)
    requires Reach(g, x, y)
    ensures IsWalk(g, w) && w[0] == x && w[|w| - 1] == y
  {
    var n: nat :| ReachIn(g, x, y, n);
    w := ReachInWalk(g, x, y, n);
  }

  lemma {:induction false} WalkReaches(g: Graph, w: seq<nat>)
    requires IsWalk(g, w)
    ensures Reach(g, w[0], w[|w| - 1])
    decreases |w|
  {
    if |w| == 1 {
      ReachSelf(g, w[0]);
    } else {
      WalkReaches(g, w[1..]);
      ReachStep(g, w[0], w[1], w[|w| - 1]);
    }
  }

  ghost predicate ClosedSet(g: Graph, S: set<nat>) {
    forall v, w :: v in S && v in g && w in g[v] ==> w in S
  }

  lemma ReachStaysInside(g: Graph, S: set<nat>, x: nat, y: nat)
    requires ClosedSet(g, S) && x in S && Reach(g, x, y)
    ensures y in S
  {
    if y !in S {
      var n: nat :| ReachIn(g, x, y, n);
      var u, w := ExitEdge(g, S, x, y, n);
    }
  }

  lemma MutualTrans(g: Graph, x: nat, y: nat, z: nat)
    requires Mutual(g, x, y) && Mutual(g, y, z)
    ensures Mutual(g, x, z)
  {
    ReachTrans(g, x, y, z);
    ReachTrans(g, z, y, x);
  }

  /** Everything reachable from x, x included. */
  ghost function Below(g: Graph, x: nat): (s: set<nat>)
    ensures forall y :: y in s <==> y in g && Reach(g, x, y)
  {
    set y | y in g && Reach(g, x, y)
  }

  /** In an acyclic graph a proper pred edge makes the reachable set strictly smaller. */
  lemma BelowShrinks(g: Graph, x: nat, z: nat)
    requires Closed(g) && Acyclic(g) && x in g && z in g[x] && z != x
    ensures Below(g, z) < Below(g, x)
  {
    forall y | y in Below(g, z) ensures y in Below(g, x) { ReachStep(g, x, z, y); }
    ReachSelf(g, x);
    ReachEdge(g, x, z);
    assert Reach(g, z, x) ==> Mutual(g, x, z);
    assert x !in Below(g, z) && x in Below(g, x);
  }
}
