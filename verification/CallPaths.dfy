/** Call paths: from the main node, frame by frame, to a call site. */
module CallPaths {
  import opened Graphs

  function Last(p: seq<nat>): nat
    requires p != []
  {
    p[|p| - 1]
  }

  /** Each frame is a predecessor of the next, and no frame follows itself. */
  ghost predicate CallPath(g: Graph, main: nat, p: seq<nat>) {
    && p != [] && Last(p) in g
    && if |p| == 1 then p[0] == main
       else p[|p| - 2] in g[Last(p)] && p[|p| - 2] != Last(p) && CallPath(g, main, p[..|p| - 1])
  }

  ghost predicate PathTo(g: Graph, main: nat, p: seq<nat>, n: nat) {
    CallPath(g, main, p) && Last(p) == n
  }

  lemma {:induction false} PathFrames(g: Graph, main: nat, p: seq<nat>, i: nat)
    requires CallPath(g, main, p) && i < |p|
    ensures p[i] in g && CallPath(g, main, p[..i + 1]) && p[0] == main
  {
    if i + 1 < |p| {
      PathFrames(g, main, p[..|p| - 1], i);
      assert p[..|p| - 1][..i + 1] == p[..i + 1];
    } else {
      assert p[..i + 1] == p;
      if |p| > 1 {
        PathFrames(g, main, p[..|p| - 1], 0);
      }
    }
  }

  /** A call path is a list of nodes from main on, each a predecessor of the next and different from it. */
  lemma {:induction false} CallPathMeans(g: Graph, main: nat, p: seq<nat>)
    ensures CallPath(g, main, p) <==>
              && p != [] && p[0] == main && (forall k :: 0 <= k < |p| ==> p[k] in g)
              && forall k :: 0 < k < |p| ==> p[k - 1] in g[p[k]] && p[k - 1] != p[k]
  {
    if |p| > 1 {
      var q := p[..|p| - 1];
      CallPathMeans(g, main, q);
      if CallPath(g, main, p) {
        PathFrames(g, main, p, |p| - 2);
        assert forall k :: 0 <= k < |q| ==> p[k] == q[k];
      } else if CallPath(g, main, q) && p[|p| - 1] in g {
        assert p[|p| - 1 - 1] !in g[p[|p| - 1]] || p[|p| - 1 - 1] == p[|p| - 1];
      } else if p[|p| - 1] in g {
        assert forall k :: 0 <= k < |q| ==> q[k] == p[k];
      }
    }
  }

  /** A later frame reaches every earlier one. */
  lemma {:induction false} PathReach(g: Graph, main: nat, p: seq<nat>, i: nat, j: nat)
    requires CallPath(g, main, p) && i <= j < |p|
    ensures p[i] in g && Reach(g, p[j], p[i])
    decreases |p|
  {
    PathFrames(g, main, p, i);
    if i == j {
      ReachSelf(g, p[i]);
    } else if j + 1 < |p| {
      PathReach(g, main, p[..|p| - 1], i, j);
    } else {
      PathReach(g, main, p[..|p| - 1], i, j - 1);
      ReachStep(g, p[j], p[j - 1], p[i]);
    }
  }

  /** On an acyclic graph no frame occurs twice. */
  lemma PathDistinct(g: Graph, main: nat, p: seq<nat>, i: nat, j: nat)
    requires Closed(g) && Acyclic(g) && CallPath(g, main, p) && i < j < |p|
    ensures p[i] != p[j]
  {
    PathFrames(g, main, p, j);
    var q := p[..j + 1];
    assert q[j - 1] == p[j - 1] && q[j - 1] in g[q[j]] && q[j - 1] != q[j];
    if p[i] == p[j] {
      PathReach(g, main, p, i, j - 1);
      ReachEdge(g, p[j], p[j - 1]);
      assert Mutual(g, p[j], p[j - 1]);
    }
  }

  ghost function Frames(p: seq<nat>): set<nat> {
    set f | f in p
  }

  lemma FramesOfPrefix(g: Graph, main: nat, p: seq<nat>)
    requires Closed(g) && Acyclic(g) && CallPath(g, main, p) && |p| > 1
    ensures Frames(p[..|p| - 1]) == Frames(p) - {Last(p)}
  {
    forall k | 0 <= k < |p| - 1 ensures p[k] != Last(p) { PathDistinct(g, main, p, k, |p| - 1); }
    assert p == p[..|p| - 1] + [Last(p)];
  }

  /** The last frames agree: each is a frame of the other path. */
  lemma SameLast(g: Graph, main: nat, p: seq<nat>, q: seq<nat>)
    requires Acyclic(g) && CallPath(g, main, p) && CallPath(g, main, q) && Frames(p) == Frames(q)
    ensures Last(p) == Last(q)
  {
    assert Last(p) in Frames(q) && Last(q) in Frames(p);
    var i :| 0 <= i < |q| && q[i] == Last(p);
    var j :| 0 <= j < |p| && p[j] == Last(q);
    PathReach(g, main, q, i, |q| - 1);
    PathReach(g, main, p, j, |p| - 1);
    assert Mutual(g, Last(p), Last(q));
  }

  /** On an acyclic graph a call path is determined by its set of frames. */
  lemma {:induction false} SameFramesSamePath(g: Graph, main: nat, p: seq<nat>, q: seq<nat>)
    requires Closed(g) && Acyclic(g) && CallPath(g, main, p) && CallPath(g, main, q) && Frames(p) == Frames(q)
    ensures p == q
    decreases |p|
  {
    SameLast(g, main, p, q);
    if |p| > 1 && |q| > 1 {
      FramesOfPrefix(g, main, p);
      FramesOfPrefix(g, main, q);
      SameFramesSamePath(g, main, p[..|p| - 1], q[..|q| - 1]);
      assert p == p[..|p| - 1] + [Last(p)] && q == q[..|q| - 1] + [Last(q)];
    } else if |p| > 1 {
      assert p[0] in Frames(p);
      PathDistinct(g, main, p, 0, |p| - 1);
    } else if |q| > 1 {
      assert q[0] in Frames(q);
      PathDistinct(g, main, q, 0, |q| - 1);
    }
  }

  /** Only one path leads to the main node. */
  lemma PathsToMain(g: Graph, main: nat, p: seq<nat>)
    requires Closed(g) && Acyclic(g) && main in g
    ensures PathTo(g, main, p, main) <==> p == [main]
  {
    if PathTo(g, main, p, main) && |p| > 1 {
      PathFrames(g, main, p, 0);
      PathDistinct(g, main, p, 0, |p| - 1);
    }
  }

  lemma ExtendPath(g: Graph, main: nat, p: seq<nat>, n: nat)
    requires CallPath(g, main, p) && n in g && Last(p) in g[n] && Last(p) != n
    ensures PathTo(g, main, p + [n], n)
  {
    assert (p + [n])[..|p|] == p;
  }

  lemma {:induction false} ReachHasPath(g: Graph, main: nat, n: nat, k: nat) returns (p: seq<nat>)
    requires Closed(g) && ReachIn(g, n, main, k)
    ensures PathTo(g, main, p, n)
    decreases k
  {
    if k == 0 {
      p := [main];
    } else {
      var z :| z in g[n] && ReachIn(g, z, main, k - 1);
      p := ReachHasPath(g, main, z, k - 1);
      if z != n {
        ExtendPath(g, main, p, n);
        p := p + [n];
      }
    }
  }

  /** A call path leads to exactly the call sites that reach main backwards. */
  lemma PathExists(g: Graph, main: nat, n: nat)
    requires Closed(g)
    ensures (exists p :: PathTo(g, main, p, n)) <==> Reach(g, n, main)
  {
    if Reach(g, n, main) {
      var k: nat :| ReachIn(g, n, main, k);
      var p := ReachHasPath(g, main, n, k);
    }
    if p :| PathTo(g, main, p, n) {
      PathFrames(g, main, p, 0);
      PathReach(g, main, p, 0, |p| - 1);
    }
  }

  // ---- Lists of paths ----

  type Paths = seq<seq<nat>>

  /** Read as a set, paths is all call paths to n. */
  ghost predicate Exactly(g: Graph, main: nat, paths: Paths, n: nat) {
    forall p :: p in paths <==> PathTo(g, main, p, n)
  }

  /** The call paths to n whose second-last frame is in L. */
  ghost predicate PathVia(g: Graph, main: nat, p: seq<nat>, n: nat, L: seq<nat>) {
    |p| > 1 && PathTo(g, main, p, n) && p[|p| - 2] in L
  }

  function Extended(vecs: Paths, n: nat): (r: Paths)
    ensures |r| == |vecs|
    ensures forall i :: 0 <= i < |vecs| ==> r[i] == vecs[i] + [n]
  {
    seq(|vecs|, i requires 0 <= i < |vecs| => vecs[i] + [n])
  }
}
