/** Tarjan's algorithm over the optimization graph, merging each component as it is completed. */
module RunTarjans {
  import opened Graphs
  import opened Seals
  import opened TarjanCore
  import opened TarjanSearch
  import opened Condensation
  import opened CgOpt
  import UF = UnionFind

  /** A graph the search may be run on: predecessor ids exist and all data sits on representatives.  A node
      merged away earlier keeps its flag, which merging has given to its class. */
  ghost predicate Start(R0: seq<int>, nodes0: seq<OptNode>) {
    && |nodes0| == |R0| && PredsOK(R0, PredLists(nodes0)) && RepsOK(R0)
    && (forall i :: 0 <= i < |R0| ==> R0[i] != -1)
    && (forall i :: 0 <= i < |R0| && R0[i] != i ==> nodes0[i].Empty())
    && FlagsPassed(R0, nodes0)
  }

  ghost predicate StartOf(g: Graph, R0: seq<int>, nodes0: seq<OptNode>) {
    forall k {:trigger Unfold(StartSeal, k)} :: Unfold(StartSeal, k) ==>
    Start(R0, nodes0) && g == ClassGraph(R0, PredLists(nodes0))
  }

  /** A node whose component is still open has its own predecessor ids. */
  lemma OpenPreds(g: Graph, s: State, R0: seq<int>, nodes0: seq<OptNode>, R: seq<int>, nodes: seq<OptNode>, v: nat,
                  p: nat)
    requires StartOf(g, R0, nodes0) && RepInv(g, s, R0, R) && |nodes| == |nodes0| == |R0| && Gathered(R, nodes0, nodes)
    requires v in g && !s.Done(v)
    ensures v < |nodes| && (p in nodes[v].preds <==> p in nodes0[v].preds)
  {
    assert Unfold(StartSeal, 0);
    assert Unfold(RepSeal, 0);
    assert Unfold(GatherSeal, 0);
    assert R[v] == v;
    assert p in PredSets(nodes)[v] <==> Given(R, PredSets(nodes0), v, p);
    if u :| 0 <= u < |R| && R[u] == v && p in PredSets(nodes0)[u] {
      assert R0[u] == u;
    }
    if p in nodes0[v].preds {
      assert p in PredSets(nodes0)[v];
    }
  }

  /** An open node's predecessor ids stand for exactly its predecessors in g. */
  lemma PredListClasses(g: Graph, s: State, R0: seq<int>, nodes0: seq<OptNode>, R: seq<int>, nodes: seq<OptNode>,
                        v: nat, L: seq<nat>)
    requires StartOf(g, R0, nodes0) && RepInv(g, s, R0, R) && |nodes| == |nodes0| == |R0| && Gathered(R, nodes0, nodes)
    requires v in g && !s.Done(v) && v < |nodes| && L == nodes[v].preds
    ensures forall k :: 0 <= k < |L| ==> L[k] < |R0| && R0[L[k]] in g[v] && R0[L[k]] in g
    ensures forall w :: w in g[v] ==> exists k :: 0 <= k < |L| && L[k] < |R0| && R0[L[k]] == w
  {
    var P0 := PredLists(nodes0);
    assert Start(R0, nodes0) && g == ClassGraph(R0, P0) by { assert Unfold(StartSeal, 0); }
    forall k | 0 <= k < |L| ensures L[k] < |R0| && R0[L[k]] in g[v] {
      OpenPreds(g, s, R0, nodes0, R, nodes, v, L[k]);
      assert L[k] in P0[v];
    }
    forall w | w in g[v] ensures exists k :: 0 <= k < |L| && L[k] < |R0| && R0[L[k]] == w {
      var p :| p in P0[v] && R0[p] == w;
      OpenPreds(g, s, R0, nodes0, R, nodes, v, p);
      var k :| 0 <= k < |L| && L[k] == p;
    }
  }

  lemma GatheredAtStart(R0: seq<int>, nodes0: seq<OptNode>)
    requires Start(R0, nodes0)
    ensures Gathered(R0, nodes0, nodes0)
  {
    GatheredFirst(R0, nodes0);
  }

  lemma BeforeRun(g: Graph, R0: seq<int>, nodes0: seq<OptNode>)
    requires Start(R0, nodes0) && g == ClassGraph(R0, PredLists(nodes0))
    ensures |R0| == |nodes0| && (forall v :: v in g ==> v < |R0|)
    ensures StartOf(g, R0, nodes0) && Gathered(R0, nodes0, nodes0) && Inv(g, State(map[], {}, 0), {})
    ensures SearchInv(g, R0, Search(State(map[], {}, 0), R0,
                                    seq(|nodes0|, i => TarjanData(INDEX_INVALID, INDEX_INVALID, false)), [], 0, []))
  {
    hide Gathered, Inv, SearchInv, ClassGraph;
    NothingYet(g, R0, |R0|);
    GatheredAtStart(R0, nodes0);
  }

  lemma AfterRun(g: Graph, R0: seq<int>, nodes0: seq<OptNode>, x: Search, nodes: seq<OptNode>)
    requires StartOf(g, R0, nodes0) && |nodes| == |nodes0| == |R0| == |x.R| && Gathered(x.R, nodes0, nodes)
    requires SearchInv(g, R0, x) && Inv(g, x.s, {}) && g.Keys <= x.s.index.Keys && RepsOK(x.R)
    ensures Condensed(g, R0, x.R) && LogComplete(g, x.log) && Start(x.R, nodes)
  {
    hide Gathered, Inv, SearchInv, ClassGraph, LogComplete;
    AllDone(g, R0, x);
    assert Start(R0, nodes0) by { assert Unfold(StartSeal, 0); }
    StartsAgain(R0, nodes0, x.R, nodes);
  }

  class DoRunTarjans {
    const graph: OptGraph
    var nextIndex: nat
    var nodeStack: seq<nat>
    var nodeData: seq<TarjanData>
    /** The node ids scc_visit_ has been called with. */
    var sccVisits: seq<nat>

    ghost const g: Graph
    ghost const R0: seq<int>
    ghost const nodes0: seq<OptNode>
    ghost var s: State

    /**
     * Runs the search from every representative: afterwards two ids share a representative exactly
     * when they reached each other, the representatives hold all the data, and scc_visit_ has been
     * called once per component, predecessors first.
     */
    constructor (G: OptGraph)
      requires G.Valid() && Start(G.Reps(), G.nodes)
      modifies G, G.reps
      ensures graph == G && G.Valid() && |G.nodes| == |old(G.nodes)|
      ensures var g0 := old(ClassGraph(G.Reps(), PredLists(G.nodes)));
              && Condensed(g0, old(G.Reps()), G.Reps())
              && LogComplete(g0, sccVisits)
      ensures Gathered(G.Reps(), old(G.nodes), G.nodes) && Start(G.Reps(), G.nodes)
    {
      graph := G;
      nextIndex, nodeStack, sccVisits := 0, [], [];
      nodeData := seq(|G.nodes|, i => TarjanData(INDEX_INVALID, INDEX_INVALID, false));
      g := ClassGraph(G.Reps(), PredLists(G.nodes));
      R0, nodes0, s := G.Reps(), G.nodes, State(map[], {}, 0);
      new;
      hide Gathered, StartOf, Start, Inv, SearchInv, Condensed, LogComplete;
      BeforeRun(g, R0, nodes0);
      Run();
      RootsOK();
      AfterRun(g, R0, nodes0, Now(), graph.nodes);
    }

    method Run()
      requires Valid() && Inv(g, s, {})
      modifies this, graph, graph.reps
      ensures Valid() && Inv(g, s, {}) && g.Keys <= s.index.Keys
    {
      hide Gathered, StartOf, Inv, SearchInv;
      for id := 0 to |graph.nodes|
        invariant |graph.nodes| == |R0|
        invariant Valid() && Inv(g, s, {})
        invariant forall v :: v in g && v < id ==> v in s.index
      {
        if id in g {
          MergedIsVisited(g, R0, Now(), id);
          Record(g, R0, Now(), id);
        }
        var rep := graph.GetRep(id);
        if rep != id {
          continue;
        }
        StillRep(g, R0, Now(), id);
        if nodeData[id].index == INDEX_INVALID {
          ghost var s0 := s;
          Visit(id, {});
          PostShape(g, s0, s, {}, id, nodeData[id].lowlink);
        }
      }
    }

    ghost function Now(): Search
      reads this, graph, graph.reps
      requires graph.Valid()
    {
      Search(s, graph.Reps(), nodeData, nodeStack, nextIndex, sccVisits)
    }

    ghost predicate Shape()
      reads this, graph, graph.reps
    {
      && graph.Valid() && |nodeData| == |graph.nodes| == |R0| == |nodes0|
      && (forall v :: v in g ==> v < |R0|)
      && StartOf(g, R0, nodes0) && Gathered(graph.Reps(), nodes0, graph.nodes)
    }

    ghost predicate Valid()
      reads this, graph, graph.reps
    {
      Shape() && SearchInv(g, R0, Now())
    }

    /** Pops v's segment of the stack and merges its nodes into one. */
    method MergeComponent(v: nat) returns (ghost m: nat)
      requires Valid() && v in s.on && v in g && v in s.index
      modifies `nodeStack, `nodeData, `s, graph, graph.reps
      ensures Shape() && DataInv(g, s, nodeData, nodeStack, nextIndex)
      ensures s == old(s).(on := old(s).on - Segment(old(s), v))
      ensures m in Segment(old(s), v)
      ensures graph.Reps() == Redirect(old(graph.Reps()), Segment(old(s), v), m)
      ensures LowsKept(g.Keys, old(nodeData), nodeData)
    {
      hide Gathered, StartOf, DataInv, SearchInv;
      ghost var sP, RP := s, graph.Reps();
      SearchParts(g, R0, Now());
      ghost var S := Segment(s, v);
      ghost var M := {v};
      m := v;
      assert Redirect(RP, {v}, v) == RP;
      while true
        invariant Shape() && DataInv(g, s, nodeData, nodeStack, nextIndex)
        invariant s == sP.(on := sP.on - (M - {v})) && v in M && M <= S && m in M
        invariant graph.Reps() == Redirect(RP, M, m)
        invariant LowsKept(g.Keys, old(nodeData), nodeData)
        decreases |nodeStack|
      {
        ghost var sT := s;
        var mergeId := PopTop(v);
        if mergeId == v {
          SegmentAll(sP, sT, M, v);
          break;
        }
        SegmentMore(sP, sT, M, v, mergeId);
        OpenReps(g, sP, R0, RP, M, m, v, mergeId);
        var rep := MergeInto(mergeId, v, m);
        RedirectMore(RP, M, m, mergeId, rep);
        m, M := rep, M + {mergeId};
      }
    }

    /** graph_.merge, for a node that has just left the stack and so represents itself. */
    method MergeInto(mergeId: nat, v: nat, ghost m: nat) returns (rep: nat)
      requires Shape() && mergeId < |R0| && v < |R0| && mergeId != m
      requires graph.Reps()[mergeId] == mergeId && graph.Reps()[v] == m
      modifies graph, graph.reps
      ensures Shape() && (rep == mergeId || rep == m)
      ensures graph.Reps() == Redirect(old(graph.Reps()), {m, mergeId}, rep)
    {
      hide Gathered, StartOf, SearchInv;
      ghost var R, nodes := graph.Reps(), graph.nodes;
      RootsOK();
      rep := graph.Merge(mergeId, v);
      assert {mergeId, m} == {m, mergeId};
      GatheredMerge(R, nodes0, nodes, rep, if rep == mergeId then m else mergeId);
      assert {rep, if rep == mergeId then m else mergeId} == {m, mergeId};
    }

    lemma RootsOK()
      requires graph.Valid()
      ensures RepsOK(graph.Reps())
    {
      UF.RootsOfRoots(graph.reps.ids, graph.reps.ranks);
    }

    /** Takes the newest node off the stack. */
    method PopTop(ghost v: nat) returns (mergeId: nat)
      requires Shape() && DataInv(g, s, nodeData, nodeStack, nextIndex) && v in s.on
      modifies `nodeStack, `nodeData, `s
      ensures Shape() && DataInv(g, s, nodeData, nodeStack, nextIndex)
      ensures |nodeStack| < |old(nodeStack)|
      ensures mergeId in g && mergeId in old(s).on && s == old(s).(on := old(s).on - {mergeId})
      ensures forall x :: x in old(s).on && x != mergeId ==>
                x in s.index && mergeId in s.index && s.index[x] < s.index[mergeId]
      ensures LowsKept(g.Keys, old(nodeData), nodeData)
    {
      hide Gathered, StartOf, DataInv, SearchInv;
      TopOfStack(g, s, nodeData, nodeStack, nextIndex, v);
      mergeId := nodeStack[|nodeStack| - 1];
      DataPop(g, s, nodeData, nodeStack, nextIndex, mergeId);
      nodeStack := nodeStack[..|nodeStack| - 1];
      nodeData := nodeData[mergeId := nodeData[mergeId].(onStack := false)];
      s := s.(on := s.on - {mergeId});
    }

    /** v's lowlink is its index: v's component is complete. */
    method Complete(v: nat, ghost gray: set<nat>, ghost s0: State)
      requires Valid() && v in s.on && v in s.index && v in g
      requires LoopInv(g, s0, s, gray, v, s.index[v], g[v]) && Inv(g, s0, gray)
      modifies `nodeStack, `nodeData, `s, `sccVisits, graph, graph.reps
      ensures Valid() && Post(g, s0, s, gray, v, old(s).index[v])
      ensures sccVisits == old(sccVisits) + [v]
      ensures LowsKept(g.Keys, old(nodeData), nodeData)
    {
      hide Gathered, StartOf, Inv, LoopInv, Post, SearchInv;
      ghost var x := Now();
      ghost var m := MergeComponent(v);
      sccVisits := sccVisits + [v];
      CompleteInv(g, R0, x, s0, gray, v, m, Now());
    }

    /** tarjan_visit */
    method Visit(v: nat, ghost gray: set<nat>)
      requires Valid() && Inv(g, s, gray) && v in g && v !in s.index
      requires forall x :: x in gray ==> Reach(g, x, v)
      modifies this, graph, graph.reps
      ensures Valid() && v in s.index && old(s).index.Keys <= s.index.Keys && nodeData[v].lowlink >= 0
      ensures Post(g, old(s), s, gray, v, nodeData[v].lowlink)
      ensures LowsKept(old(s).index.Keys, old(nodeData), nodeData)
      decreases White(g, s), 0
    {
      hide Gathered, StartOf, Inv, LoopInv, Post, SearchInv;
      ghost var s0, x0 := s, Now();
      OpenInv(g, R0, x0, gray, v);
      nodeData := nodeData[v := TarjanData(nextIndex, nextIndex, true)];
      nodeStack := nodeStack + [v];
      nextIndex := nextIndex + 1;
      s := Enter(s, v);
      assert Now() == Opened(x0, v);

      var predList := graph.nodes[v].preds;
      SearchParts(g, R0, Now());
      PredListClasses(g, s, R0, nodes0, graph.Reps(), graph.nodes, v, predList);
      ghost var seen := {};
      for i := 0 to |predList|
        invariant Valid() && v in s.index && s0.index.Keys < s.index.Keys && nodeData[v].lowlink >= 0
        invariant LoopInv(g, s0, s, gray, v, nodeData[v].lowlink, seen)
        invariant LowsKept(s0.index.Keys, old(nodeData), nodeData)
        invariant forall k :: 0 <= k < i ==> R0[predList[k]] in seen
      {
        VisitPred(v, predList[i], gray, s0, seen);
        seen := seen + {R0[predList[i]] as nat};
      }
      assert g[v] <= seen;
      LoopShape(g, s0, s, gray, v, nodeData[v].lowlink, seen, g[v]);
      Close(v, gray, s0);
    }

    /** The end of tarjan_visit, after the loop. */
    method Close(v: nat, ghost gray: set<nat>, ghost s0: State)
      requires Valid() && v in s.on && v in s.index && v in g && nodeData[v].lowlink >= 0
      requires nodeData[v].lowlink <= s.index[v] && Inv(g, s0, gray)
      requires LoopInv(g, s0, s, gray, v, nodeData[v].lowlink, g[v])
      modifies `nodeStack, `nodeData, `s, `sccVisits, graph, graph.reps
      ensures Valid() && v in s.index && s0.index.Keys <= s.index.Keys && nodeData[v].lowlink >= 0
      ensures Post(g, s0, s, gray, v, nodeData[v].lowlink)
      ensures LowsKept(g.Keys, old(nodeData), nodeData)
    {
      hide Gathered, StartOf, Inv, LoopInv, Post, SearchInv;
      Record(g, R0, Now(), v);
      if nodeData[v].lowlink == nodeData[v].index {
        Complete(v, gray, s0);
      } else {
        KeepPost(g, s0, s, gray, v, nodeData[v].lowlink);
      }
      PostShape(g, s0, s, gray, v, nodeData[v].lowlink);
    }

    /** The body of the loop over v's predecessors. */
    method VisitPred(v: nat, predId: nat, ghost gray: set<nat>, ghost s0: State, ghost seen: set<nat>)
      requires Valid() && v in s.index && v in g && nodeData[v].lowlink >= 0
      requires LoopInv(g, s0, s, gray, v, nodeData[v].lowlink, seen)
      requires predId < |R0| && R0[predId] in g[v] && R0[predId] in g
      modifies this, graph, graph.reps
      ensures Valid() && old(s).index.Keys <= s.index.Keys && nodeData[v].lowlink >= 0
      ensures LoopInv(g, s0, s, gray, v, nodeData[v].lowlink, seen + {R0[predId]})
      ensures LowsKept(s0.index.Keys, old(nodeData), nodeData)
      decreases White(g, s), 1
    {
      hide Gathered, StartOf, LoopInv, SearchInv;
      ghost var p: nat := R0[predId];
      ghost var s1, low := s, nodeData[v].lowlink;
      PredRep(g, R0, Now(), predId);
      LoopShape(g, s0, s, gray, v, low, seen, seen);
      var predRep := graph.GetRep(predId);
      Record(g, R0, Now(), predRep);
      if nodeData[predRep].index == INDEX_INVALID {
        CallInv(g, s0, s, gray, v, low, seen, p);
        Visit(predRep, gray + {v});
        ReturnInv(g, s0, s1, s, gray, v, low, seen, p, nodeData[p].lowlink);
        SetLow(v, Min(nodeData[predRep].lowlink, nodeData[v].lowlink));
      } else if nodeData[predRep].onStack {
        StackedInv(g, s0, s, gray, v, low, seen, p);
        SetLow(v, Min(nodeData[predRep].index, nodeData[v].lowlink));
      } else {
        SkipInv(g, s0, s, gray, v, low, seen, p);
      }
    }

    method SetLow(v: nat, low: nat)
      requires Valid() && v in g
      modifies `nodeData
      ensures Valid() && nodeData == old(nodeData)[v := old(nodeData)[v].(lowlink := low)]
    {
      hide Gathered, StartOf, SearchInv;
      LowInv(g, R0, Now(), v, low);
      nodeData := nodeData[v := nodeData[v].(lowlink := low)];
    }
  }

  lemma GatheredPreds(R0: seq<int>, nodes0: seq<OptNode>, R: seq<int>, nodes: seq<OptNode>, i: nat, p: nat)
    requires |nodes0| == |R| == |nodes| && Gathered(R, nodes0, nodes) && i < |R|
    ensures p in nodes[i].preds <==> exists u :: 0 <= u < |R| && R[u] == i && p in nodes0[u].preds
  {
    assert Unfold(GatherSeal, 0);
    assert p in PredSets(nodes)[i] <==> Given(R, PredSets(nodes0), i, p);
    if u :| 0 <= u < |R| && R[u] == i && p in nodes0[u].preds {
      assert p in PredSets(nodes0)[u];
    }
  }

  /** The predecessor lists that a run leaves keep exactly the edges between classes. */
  lemma GatheredEdges(R0: seq<int>, nodes0: seq<OptNode>, R: seq<int>, nodes: seq<OptNode>)
    requires Start(R0, nodes0) && |R| == |R0| == |nodes| && Gathered(R, nodes0, nodes)
    ensures EdgesKept(R0, PredLists(nodes0), R, PredLists(nodes))
  {
    var P0, P := PredLists(nodes0), PredLists(nodes);
    forall i, p | 0 <= i < |R| && p in P[i] ensures p < |R| {
      GatheredPreds(R0, nodes0, R, nodes, i, p);
      var u :| 0 <= u < |R| && R[u] == i && p in nodes0[u].preds;
      assert p in P0[u];
    }
    forall x, z | 0 <= x < |R| && R[x] == x ensures Lists(R, P, x, z) <==> WasGiven(R, R0, P0, x, z) {
      if Lists(R, P, x, z) {
        var y :| y in P[x] && R[y] == z;
        GatheredPreds(R0, nodes0, R, nodes, x, y);
        var u :| 0 <= u < |R| && R[u] == x && y in nodes0[u].preds;
        assert y in P0[u] && R0[u] == u;
      }
      if WasGiven(R, R0, P0, x, z) {
        var u, p :| 0 <= u < |R| && R0[u] == u && R[u] == x && p in P0[u] && R[p] == z;
        GatheredPreds(R0, nodes0, R, nodes, x, p);
        assert p in P[x];
      }
    }
  }

  /** What a run leaves is a graph the search may be run on. */
  lemma StartsAgain(R0: seq<int>, nodes0: seq<OptNode>, R: seq<int>, nodes: seq<OptNode>)
    requires Start(R0, nodes0) && |R| == |R0| == |nodes| && Gathered(R, nodes0, nodes)
    requires RepsOK(R) && forall i :: 0 <= i < |R| ==> R[i] != -1
    ensures Start(R, nodes)
  {
    GatheredEdges(R0, nodes0, R, nodes);
    forall i: nat | i < |R| && R[i] != i ensures nodes[i].Empty() {
      NothingOnLoser(R, nodes0, nodes, i);
    }
    assert FlagsPassed(R, nodes) by { assert Unfold(GatherSeal, 0); }
  }

  /** A second run over what the first one left merges nothing. */
  lemma SecondRunMergesNothing(R0: seq<int>, nodes0: seq<OptNode>, R: seq<int>, nodes: seq<OptNode>, R': seq<int>)
    requires Start(R0, nodes0) && |R| == |R0| == |nodes| && Gathered(R, nodes0, nodes) && Start(R, nodes)
    requires Condensed(ClassGraph(R0, PredLists(nodes0)), R0, R)
    requires Condensed(ClassGraph(R, PredLists(nodes)), R, R')
    ensures R' == R
  {
    var g := ClassGraph(R, PredLists(nodes));
    GatheredEdges(R0, nodes0, R, nodes);
    MergedGraph(R0, PredLists(nodes0), R, PredLists(nodes));
    forall i | 0 <= i < |R| ensures R'[i] == R[i] {
      assert Mutual(g, R[i], R'[R[i]]);
    }
  }
}
