/** Depth-first post-order over the representatives of a sparse evaluation graph. */
module SegTopo {
  import opened Basics
  import opened Graphs
  import opened Seals
  import opened Condensation
  import opened Seg

  // ---- What a traversal has done so far ----

  /** Every node comes after all its predecessors other than itself. */
  ghost predicate PredsFirst(g: Graph, s: seq<nat>) {
    forall i, w :: 0 <= i < |s| && s[i] in g && w in g[s[i]] && w != s[i] ==> w in s[..i]
  }

  /** post: the nodes finished so far; gray: the marked nodes still being visited. */
  ghost predicate TopoInv(g: Graph, mark: set<nat>, post: seq<nat>, gray: set<nat>) {
    forall k {:trigger Unfold(TopoSeal, k)} :: Unfold(TopoSeal, k) ==>
    && mark <= g.Keys && gray <= mark
    && Distinct(post) && (forall v :: v in post <==> v in mark && v !in gray)
    && (forall v, w :: v in post && v in g && w in g[v] ==> w in mark)
    && (Acyclic(g) ==> PredsFirst(g, post))
  }

  /** v's predecessors have all been visited: v is finished. */
  lemma FinishInv(g: Graph, mark: set<nat>, post: seq<nat>, gray: set<nat>, v: nat)
    requires Closed(g) && TopoInv(g, mark, post, gray + {v}) && v in g && v !in gray
    requires forall w :: w in g[v] ==> w in mark
    requires forall x :: x in gray ==> Reach(g, x, v)
    ensures TopoInv(g, mark, post + [v], gray)
  {
    assert Unfold(TopoSeal, 0);
    var post' := post + [v];
    assert forall x :: x in post' <==> x in post || x == v;
    if Acyclic(g) {
      forall i, w | 0 <= i < |post'| && post'[i] in g && w in g[post'[i]] && w != post'[i] ensures w in post'[..i] {
        if i < |post| {
          assert post'[..i] == post[..i];
        } else {
          assert post'[..i] == post;
          ReachEdge(g, v, w);
          assert w in gray ==> Mutual(g, v, w);
        }
      }
    }
  }

  lemma MarkInv(g: Graph, mark: set<nat>, post: seq<nat>, gray: set<nat>, v: nat)
    requires TopoInv(g, mark, post, gray) && v in g && v !in mark
    ensures TopoInv(g, mark + {v}, post, gray + {v}) && v !in gray && mark <= g.Keys
  {
    assert Unfold(TopoSeal, 0);
  }

  lemma MarksInside(g: Graph, mark: set<nat>, post: seq<nat>, gray: set<nat>)
    requires TopoInv(g, mark, post, gray)
    ensures mark <= g.Keys
  {
    assert Unfold(TopoSeal, 0);
  }

  /** g is the graph over representatives of a graph with these lists. */
  ghost predicate GraphOf(g: Graph, R: seq<int>, P: seq<seq<nat>>) {
    forall k {:trigger Unfold(GraphSeal, k)} :: Unfold(GraphSeal, k) ==>
    RepsOK(R) && PredsOK(R, P) && g == ClassGraph(R, P)
  }

  /** A traversal starts with nothing marked. */
  lemma TopoStart(R: seq<int>, P: seq<seq<nat>>)
    requires RepsOK(R) && PredsOK(R, P)
    ensures GraphOf(ClassGraph(R, P), R, P) && TopoInv(ClassGraph(R, P), {}, [], {})
  {
  }

  lemma GraphPreds(g: Graph, R: seq<int>, P: seq<seq<nat>>, v: nat)
    requires GraphOf(g, R, P) && v in g
    ensures Closed(g) && v < |R| == |P| && R[v] == v
    ensures forall k :: 0 <= k < |P[v]| ==> P[v][k] < |R| && (R[P[v][k]] == -1 || R[P[v][k]] in g[v])
    ensures forall w :: w in g[v] ==> exists k :: 0 <= k < |P[v]| && P[v][k] < |R| && R[P[v][k]] == w
  {
    assert Unfold(GraphSeal, 0);
    forall k | 0 <= k < |P[v]| ensures P[v][k] < |R| && (R[P[v][k]] == -1 || R[P[v][k]] in g[v]) {
      assert P[v][k] in P[v];
    }
  }

  lemma GraphNodes(g: Graph, R: seq<int>, P: seq<seq<nat>>)
    requires GraphOf(g, R, P)
    ensures forall v :: v in g ==> v < |R|
    ensures forall v: nat :: v < |R| && R[v] == v ==> v in g
    ensures forall v: nat :: v < |R| && R[v] != -1 ==> R[v] in g
  {
    assert Unfold(GraphSeal, 0);
  }

  lemma GraphReps(g: Graph, R: seq<int>, P: seq<seq<nat>>)
    requires GraphOf(g, R, P)
    ensures forall v :: v in g ==> v < |R| && R[v] == v
  {
    assert Unfold(GraphSeal, 0);
  }

  function Reversed(s: seq<nat>): (r: seq<nat>)
    ensures |r| == |s|
  {
    if s == [] then [] else [s[|s| - 1]] + Reversed(s[..|s| - 1])
  }

  lemma {:induction false} ReversedAt(s: seq<nat>, k: nat)
    requires k < |s|
    ensures Reversed(s)[k] == s[|s| - 1 - k]
  {
    if k > 0 {
      ReversedAt(s[..|s| - 1], k - 1);
    }
  }

  /** L lists S once each and, on an acyclic graph, predecessors first (last when reversed). */
  ghost predicate TopoOrder(g: Graph, S: set<nat>, L: seq<nat>, reverse: bool) {
    && Distinct(L) && (forall v :: v in L <==> v in S)
    && (Acyclic(g) ==>
          forall i, j :: 0 <= i < |L| && 0 <= j < |L| && i != j && L[i] in g && L[j] in g[L[i]] ==>
            if reverse then i < j else j < i)
  }

  lemma PostIsTopoOrder(g: Graph, mark: set<nat>, post: seq<nat>)
    requires TopoInv(g, mark, post, {})
    ensures TopoOrder(g, mark, post, false)
  {
    assert Unfold(TopoSeal, 0);
    if Acyclic(g) {
      forall i, j | 0 <= i < |post| && 0 <= j < |post| && i != j && post[i] in g && post[j] in g[post[i]]
        ensures j < i
      {
        var k :| 0 <= k < i && post[..i][k] == post[j];
        assert post[k] == post[j];
      }
    }
  }

  lemma ReversedIsTopoOrder(g: Graph, S: set<nat>, L: seq<nat>)
    requires TopoOrder(g, S, L, false)
    ensures TopoOrder(g, S, Reversed(L), true)
  {
    var r := Reversed(L);
    var n := |L|;
    forall k | 0 <= k < n ensures r[k] == L[n - 1 - k] { ReversedAt(L, k); }
    forall v ensures v in r <==> v in L {
      if v in L {
        var k :| 0 <= k < n && L[k] == v;
        assert r[n - 1 - k] == v;
      }
    }
  }

  /** What has been visited from start and is closed under predecessors is what start reaches. */
  lemma VisitedIsBelow(g: Graph, mark: set<nat>, post: seq<nat>, v: nat)
    requires TopoInv(g, mark, post, {}) && v in mark && mark <= Below(g, v)
    ensures mark == Below(g, v)
  {
    assert Unfold(TopoSeal, 0);
    forall y | y in Below(g, v) ensures y in mark {
      assert ClosedSet(g, mark) by {
        forall a, b | a in mark && a in g && b in g[a] ensures b in mark { assert a in post; }
      }
      ReachStaysInside(g, mark, v, y);
    }
  }

  class TopoIterator {
    const graph: SEG
    var mark: set<nat>
    var L: seq<nat>
    /** The nodes in the order in which they were finished. */
    ghost var post: seq<nat>

    ghost predicate Valid(g: Graph, gray: set<nat>, reverse: bool)
      reads this, graph
    {
      && graph.Valid() && GraphOf(g, graph.Reps(), graph.Content().preds)
      && TopoInv(g, mark, post, gray)
      && L == if reverse then Reversed(post) else post
    }

    /** topo_iterator over the whole graph. */
    constructor All(G: SEG, reverse: bool)
      requires G.Valid() && RepsOK(G.Reps()) && PredsOK(G.Reps(), G.Content().preds)
      ensures var g := ClassGraph(G.Reps(), G.Content().preds); TopoOrder(g, g.Keys, L, reverse)
    {
      hide GraphOf, TopoInv, TopoOrder;
      graph, mark, L, post := G, {}, [], [];
      new;
      ghost var g := ClassGraph(G.Reps(), G.Content().preds);
      TopoStart(G.Reps(), G.Content().preds);
      VisitAll(reverse, g);
      PostIsTopoOrder(g, mark, post);
      ReversedIsTopoOrder(g, mark, post);
    }

    /** The loop over all nodes. */
    method VisitAll(reverse: bool, ghost g: Graph)
      requires Valid(g, {}, reverse)
      modifies `mark, `L, `post
      ensures Valid(g, {}, reverse) && mark == g.Keys
    {
      hide GraphOf, TopoInv;
      GraphNodes(g, graph.Reps(), graph.Content().preds);
      GraphReps(g, graph.Reps(), graph.Content().preds);
      for id := 0 to |graph.nodes|
        invariant Valid(g, {}, reverse)
        invariant forall v :: v in g && v < id ==> v in mark
      {
        RepSeqOK(graph.nodes, graph.rank);
        if graph.nodes[id].Live? && graph.nodes[id].rep == id {
          Visit(id, reverse, g, {});
        }
      }
      MarksInside(g, mark, post, {});
      assert mark == g.Keys;
    }

    /** topo_iterator from one node. */
    constructor From(G: SEG, start: nat, reverse: bool)
      requires G.Valid() && RepsOK(G.Reps()) && PredsOK(G.Reps(), G.Content().preds)
      requires start < |G.nodes| && G.Reps()[start] != -1
      ensures var g := ClassGraph(G.Reps(), G.Content().preds);
              G.Reps()[start] in g && TopoOrder(g, Below(g, G.Reps()[start]), L, reverse)
    {
      hide GraphOf, TopoInv, TopoOrder;
      graph, mark, L, post := G, {}, [], [];
      new;
      ghost var g := ClassGraph(G.Reps(), G.Content().preds);
      TopoStart(G.Reps(), G.Content().preds);
      GraphNodes(g, G.Reps(), G.Content().preds);
      var node := G.RepConst(start);
      Visit(node, reverse, g, {});
      VisitedIsBelow(g, mark, post, node);
      PostIsTopoOrder(g, mark, post);
      ReversedIsTopoOrder(g, mark, post);
    }

    method Visit(v: nat, reverse: bool, ghost g: Graph, ghost gray: set<nat>)
      requires Valid(g, gray, reverse) && v in g
      requires forall x :: x in gray ==> Reach(g, x, v)
      modifies `mark, `L, `post
      ensures Valid(g, gray, reverse) && v in mark && old(mark) <= mark
      ensures mark <= old(mark) + Below(g, v)
      decreases g.Keys - mark, 1
    {
      hide GraphOf, TopoInv;
      ReachSelf(g, v);
      if v !in mark {
        MarkInv(g, mark, post, gray, v);
        mark := mark + {v};
        GraphPreds(g, graph.Reps(), graph.Content().preds, v);
        VisitPreds(v, reverse, g, gray);
        FinishInv(g, mark, post, gray, v);
        post := post + [v];
        L := if reverse then [v] + L else L + [v];
      }
    }

    /** The loop over v's predecessors. */
    method VisitPreds(v: nat, reverse: bool, ghost g: Graph, ghost gray: set<nat>)
      requires Valid(g, gray + {v}, reverse) && v in g && v in mark && Closed(g)
      requires forall x :: x in gray ==> Reach(g, x, v)
      modifies `mark, `L, `post
      ensures Valid(g, gray + {v}, reverse) && old(mark) <= mark
      ensures mark <= old(mark) + Below(g, v) && g[v] <= mark
      decreases g.Keys - mark, 2
    {
      hide GraphOf, TopoInv, Chains, Reach, RepOf;
      ghost var R := graph.Reps();
      GraphPreds(g, R, graph.Content().preds, v);
      RepIsLive(graph.nodes, graph.rank, v);
      IdsAt(graph.nodes, v);
      var preds := graph.nodes[v].preds;
      for i := 0 to |preds|
        invariant Valid(g, gray + {v}, reverse) && old(mark) <= mark
        invariant mark <= old(mark) + Below(g, v)
        invariant forall k :: 0 <= k < i && R[preds[k]] != -1 ==> R[preds[k]] in mark
      {
        var pnode := graph.RepConst(preds[i]);
        if pnode != -1 {
          Descend(g, gray, v, pnode);
          Visit(pnode, reverse, g, gray + {v});
        }
      }
    }
  }

  lemma Descend(g: Graph, gray: set<nat>, v: nat, p: nat)
    requires Closed(g) && v in g && p in g[v] && forall x :: x in gray ==> Reach(g, x, v)
    ensures p in g && Below(g, p) <= Below(g, v) && forall x :: x in gray + {v} ==> Reach(g, x, p)
  {
    ReachEdge(g, v, p);
    forall x | x in gray ensures Reach(g, x, p) { ReachTrans(g, x, v, p); }
    forall y | y in Below(g, p) ensures y in Below(g, v) { ReachStep(g, v, p, y); }
  }
}
