/** Tarjan's algorithm over the sparse evaluation graph, uniting each component as it is completed. */
module SegTarjans {
  import opened Graphs
  import opened Seals
  import opened TarjanCore
  import opened TarjanSearch
  import opened Condensation
  import opened Seg

  // ---- What uniting keeps ----

  /** Between classes exactly the edges given in c0 are left in c, and each representative holds
      exactly the instructions of its class. */
  ghost predicate Kept(R0: seq<int>, c0: Content, R: seq<int>, c: Content) {
    forall k {:trigger Unfold(KeptSeal, k)} :: Unfold(KeptSeal, k) ==>
    && RepsOK(R)
    && EdgesKept(R0, c0.preds, R, c.preds) && EdgesKept(R0, c0.succs, R, c.succs)
    && Collected(R, c0.insts, c.insts)
  }

  lemma RetargetedRenames(R: seq<int>, L: seq<nat>, me: nat, n: nat)
    requires RepsOK(R) && me < |R|
    requires forall i :: 0 <= i < |R| ==> R[i] >= -1
    requires forall k :: 0 <= k < |L| ==> L[k] < |R|
    ensures Renames(R, L, Retargeted(R, L, me), me, n)
  {
    var X := Retargeted(R, L, me);
    forall z | z != me && z != n && z != -1 ensures Names(R, X, z) <==> Names(R, L, z) {
      if z >= 0 {
        RetargetedNames(R, L, me, z);
      }
      if Names(R, L, z) {
        var p :| p in L && p < |R| && R[p] == z;
        assert z in X && R[z] == z;
      }
      if Names(R, X, z) {
        var y :| y in X && y < |R| && R[y] == z;
        RetargetedNames(R, L, me, y);
        var p :| p in L && p < |R| && R[p] == y;
        assert R[y] == y;
      }
    }
    forall y | y in X ensures y < |R| {
      RetargetedNames(R, L, me, y);
    }
  }

  lemma AppendRenames(R: seq<int>, L: seq<nat>, X: seq<nat>, me: nat, n: nat)
    requires Renames(R, L, X, me, n) && forall k :: 0 <= k < |L| ==> L[k] < |R|
    ensures Renames(R, L, L + X, me, n)
  {
    forall z | z != me && z != n && z != -1 ensures Names(R, L + X, z) <==> Names(R, L, z) {
      NamesAppend(R, L, X, z);
      assert Names(R, X, z) <==> Names(R, L, z);
    }
    forall y | y in L + X ensures y < |R| {
      assert y in L || y in X;
    }
  }

  lemma KeptUnite(R0: seq<int>, c0: Content, R: seq<int>, c: Content, me: nat, n: nat)
    requires Kept(R0, c0, R, c) && me < |R| && n < |R| && me != n && R[me] == me && R[n] == n
    requires |c.preds| == |c.succs| == |c.insts| == |R| && IdsIn(c.preds) && IdsIn(c.succs)
    requires forall i :: 0 <= i < |R| ==> R[i] >= -1
    ensures Kept(R0, c0, Redirect(R, {me, n}, me), UnitedContent(c, R, me, n))
  {
    var c' := UnitedContent(c, R, me, n);
    assert RepsOK(R) && EdgesKept(R0, c0.preds, R, c.preds) && EdgesKept(R0, c0.succs, R, c.succs)
           && Collected(R, c0.insts, c.insts) by { assert Unfold(KeptSeal, 0); }
    assert EdgesKept(R0, c0.preds, Redirect(R, {me, n}, me), c'.preds) by {
      RetargetedRenames(R, c.preds[n], me, n);
      MovedEdges(R0, c0.preds, R, c.preds, me, n, Retargeted(R, c.preds[n], me));
    }
    assert EdgesKept(R0, c0.succs, Redirect(R, {me, n}, me), c'.succs) by {
      RetargetedRenames(R, c.succs[n], me, n);
      AppendRenames(R, c.succs[n], Retargeted(R, c.succs[n], me), me, n);
      MovedEdges(R0, c0.succs, R, c.succs, me, n, c.succs[n] + Retargeted(R, c.succs[n], me));
    }
    assert Collected(Redirect(R, {me, n}, me), c0.insts, c'.insts) by {
      CollectedMerge(R, c0.insts, c.insts, c'.insts, me, n);
    }
    assert RepsOK(Redirect(R, {me, n}, me));
  }

  /** Nodes whose component is still open, skip aside, have the predecessor lists they started with. */
  ghost predicate Intact(g: Graph, s: State, skip: set<nat>, c0: Content, c: Content) {
    && |c.preds| == |c0.preds|
    && forall v :: v in g && v < |c.preds| && !s.Done(v) && v !in skip ==> c.preds[v] == c0.preds[v]
  }

  // ---- The search ----

  /** A graph the search may be run on: only representatives have instructions. */
  ghost predicate Start(R0: seq<int>, c0: Content) {
    && |c0.preds| == |c0.succs| == |c0.insts| == |R0| && RepsOK(R0)
    && PredsOK(R0, c0.preds) && PredsOK(R0, c0.succs)
    && (forall i :: 0 <= i < |R0| && R0[i] != i ==> c0.insts[i] == {})
  }

  ghost predicate StartOf(g: Graph, R0: seq<int>, c0: Content) {
    forall k {:trigger Unfold(StartSeal, k)} :: Unfold(StartSeal, k) ==>
    Start(R0, c0) && g == ClassGraph(R0, c0.preds)
  }

  /** The classes of the first i predecessors have been seen. */
  ghost predicate SeenUpTo(g: Graph, R0: seq<int>, c0: Content, v: nat, L: seq<nat>, i: nat, seen: set<nat>) {
    && StartOf(g, R0, c0) && v in g && v < |c0.preds| && L == c0.preds[v] && i <= |L|
    && forall k :: 0 <= k < i ==> L[k] < |R0| && (R0[L[k]] == -1 || R0[L[k]] in seen)
  }

  lemma SeenNone(g: Graph, R0: seq<int>, c0: Content, v: nat, L: seq<nat>)
    requires StartOf(g, R0, c0) && v in g && v < |c0.preds| && L == c0.preds[v]
    ensures SeenUpTo(g, R0, c0, v, L, 0, {})
  {
  }

  lemma SeenNext(g: Graph, R0: seq<int>, c0: Content, v: nat, L: seq<nat>, i: nat, seen: set<nat>)
    requires SeenUpTo(g, R0, c0, v, L, i, seen) && i < |L|
    ensures L[i] < |R0| && (R0[L[i]] == -1 || (R0[L[i]] in g[v] && R0[L[i]] in g))
    ensures SeenUpTo(g, R0, c0, v, L, i + 1, Seen(seen, R0[L[i]]))
  {
    assert Start(R0, c0) && g == ClassGraph(R0, c0.preds) by { assert Unfold(StartSeal, 0); }
    assert L[i] in c0.preds[v];
  }

  lemma SeenAll(g: Graph, R0: seq<int>, c0: Content, v: nat, L: seq<nat>, seen: set<nat>)
    requires SeenUpTo(g, R0, c0, v, L, |L|, seen)
    ensures v in g && g[v] <= seen
  {
    assert Start(R0, c0) && g == ClassGraph(R0, c0.preds) by { assert Unfold(StartSeal, 0); }
    forall w | w in g[v] ensures w in seen {
      var p :| p in c0.preds[v] && R0[p] == w;
      var k :| 0 <= k < |L| && L[k] == p;
    }
  }

  lemma BeforeRun(g: Graph, R0: seq<int>, c0: Content)
    requires Start(R0, c0) && g == ClassGraph(R0, c0.preds)
    ensures |R0| == |c0.preds| && (forall v :: v in g ==> v < |R0|)
    ensures StartOf(g, R0, c0) && Kept(R0, c0, R0, c0) && Inv(g, State(map[], {}, 0), {})
    ensures SearchInv(g, R0, Search(State(map[], {}, 0), R0,
                                    seq(|R0|, i => TarjanData(INDEX_INVALID, INDEX_INVALID, false)), [], 0, []))
  {
    hide Kept, Inv, SearchInv, ClassGraph;
    NothingYet(g, R0, |R0|);
    KeptAtStart(R0, c0);
  }

  class RunTarjans {
    const seg: SEG
    var nextIndex: nat
    var nodeStack: seq<nat>
    var nodeData: seq<TarjanData>
    /** The node ids scc_visit_ has been called with. */
    var sccVisits: seq<nat>

    ghost const g: Graph
    ghost const R0: seq<int>
    ghost const c0: Content
    ghost var s: State

    /**
     * Runs the search from every representative: afterwards two ids share a representative exactly
     * when they reached each other, edges between classes and instructions are kept, and scc_visit_
     * has been called once per component, predecessors first.
     */
    constructor (G: SEG)
      requires G.Valid() && Start(G.Reps(), G.Content())
      modifies G
      ensures seg == G && G.Valid() && |G.nodes| == |old(G.nodes)|
      ensures var g0 := old(ClassGraph(G.Reps(), G.Content().preds));
              && Condensed(g0, old(G.Reps()), G.Reps())
              && LogComplete(g0, sccVisits)
      ensures Kept(old(G.Reps()), old(G.Content()), G.Reps(), G.Content())
    {
      seg := G;
      nextIndex, nodeStack, sccVisits := 0, [], [];
      nodeData := seq(|G.nodes|, i => TarjanData(INDEX_INVALID, INDEX_INVALID, false));
      g := ClassGraph(G.Reps(), G.Content().preds);
      R0, c0, s := G.Reps(), G.Content(), State(map[], {}, 0);
      new;
      hide Kept, StartOf, Start, Inv, SearchInv, Condensed, LogComplete;
      BeforeRun(g, R0, c0);
      Run();
      AllDone(g, R0, Now());
    }

    ghost function Now(): Search
      reads this, seg
      requires seg.Valid()
    {
      Search(s, seg.Reps(), nodeData, nodeStack, nextIndex, sccVisits)
    }

    ghost predicate Shape(skip: set<nat>)
      reads this, seg
    {
      && seg.Valid() && |nodeData| == |seg.nodes| == |R0| == |c0.preds|
      && (forall v :: v in g ==> v < |R0|)
      && StartOf(g, R0, c0) && Kept(R0, c0, seg.Reps(), seg.Content())
      && Intact(g, s, skip, c0, seg.Content())
    }

    ghost predicate Valid()
      reads this, seg
    {
      Shape({}) && SearchInv(g, R0, Now())
    }

    method Run()
      requires Valid() && Inv(g, s, {})
      modifies this, seg
      ensures Valid() && Inv(g, s, {}) && g.Keys <= s.index.Keys
    {
      hide Kept, StartOf, Inv, SearchInv, Chains, Reach, RepOf;
      for id := 0 to |seg.nodes|
        invariant |seg.nodes| == |R0|
        invariant Valid() && Inv(g, s, {})
        invariant forall v :: v in g && v < id ==> v in s.index
      {
        if id in g {
          MergedIsVisited(g, R0, Now(), id);
          Record(g, R0, Now(), id);
        }
        RepSeqOK(seg.nodes, seg.rank);
        if seg.nodes[id].Removed? || seg.nodes[id].rep != id {
          continue;
        }
        StillRep(g, R0, Now(), id);
        if nodeData[id].index == INDEX_INVALID {
          ghost var s0 := s;
          Visit(id, {});
          PostShape(g, s0, s, {}, id, nodeData[id].lowlink);
        }
      }
    }

    /** Numbers v and pushes it on the stack. */
    method Open(v: nat, ghost gray: set<nat>)
      requires Valid() && Inv(g, s, gray) && v in g && v !in s.index
      requires forall x :: x in gray ==> Reach(g, x, v)
      modifies `nextIndex, `nodeStack, `nodeData, `s
      ensures Valid() && s == Enter(old(s), v) && old(s).index.Keys <= g.Keys
      ensures seg.nodes[v].Live? && seg.nodes[v].preds == c0.preds[v] && nodeData[v].lowlink >= 0
      ensures LoopInv(g, old(s), s, gray, v, nodeData[v].lowlink, {})
      ensures LowsKept(old(s).index.Keys, old(nodeData), nodeData)
    {
      hide Kept, StartOf, Inv, LoopInv, SearchInv;
      ghost var x0 := Now();
      OpenInv(g, R0, x0, gray, v);
      nodeData := nodeData[v := TarjanData(nextIndex, nextIndex, true)];
      nodeStack := nodeStack + [v];
      nextIndex := nextIndex + 1;
      s := Enter(s, v);
      assert Now() == Opened(x0, v);
      OpenIsRep(g, R0, Now(), v);
      RepIsLive(seg.nodes, seg.rank, v);
      IdsAt(seg.nodes, v);
    }

    /** tarjan_visit */
    method Visit(v: nat, ghost gray: set<nat>)
      requires Valid() && Inv(g, s, gray) && v in g && v !in s.index
      requires forall x :: x in gray ==> Reach(g, x, v)
      modifies this, seg
      ensures Valid() && v in s.index && old(s).index.Keys <= s.index.Keys && nodeData[v].lowlink >= 0
      ensures Post(g, old(s), s, gray, v, nodeData[v].lowlink)
      ensures LowsKept(old(s).index.Keys, old(nodeData), nodeData)
      decreases White(g, s), 0
    {
      hide Kept, StartOf, Inv, LoopInv, Post, SearchInv, Chains, Reach, RepOf, IdsOK, ClosedSet, SeenUpTo;
      ghost var s0 := s;
      Open(v, gray);
      var predList := seg.nodes[v].preds;
      ghost var seen := {};
      assert SeenUpTo(g, R0, c0, v, predList, 0, seen) by { SeenNone(g, R0, c0, v, predList); }
      for i := 0 to |predList|
        invariant Valid() && v in s.index && s0.index.Keys < s.index.Keys && nodeData[v].lowlink >= 0
        invariant LoopInv(g, s0, s, gray, v, nodeData[v].lowlink, seen)
        invariant LowsKept(s0.index.Keys, old(nodeData), nodeData)
        invariant SeenUpTo(g, R0, c0, v, predList, i, seen)
      {
        SeenNext(g, R0, c0, v, predList, i, seen);
        VisitPred(v, predList[i], gray, s0, seen);
        seen := Seen(seen, R0[predList[i]]);
      }
      SeenAll(g, R0, c0, v, predList, seen);
      LoopShape(g, s0, s, gray, v, nodeData[v].lowlink, seen, g[v]);
      Close(v, gray, s0);
    }

    /** The end of tarjan_visit, after the loop. */
    method Close(v: nat, ghost gray: set<nat>, ghost s0: State)
      requires Valid() && v in s.on && v in s.index && v in g && nodeData[v].lowlink >= 0
      requires nodeData[v].lowlink <= s.index[v] && Inv(g, s0, gray)
      requires LoopInv(g, s0, s, gray, v, nodeData[v].lowlink, g[v])
      modifies `nodeStack, `nodeData, `s, `sccVisits, seg
      ensures Valid() && v in s.index && s0.index.Keys <= s.index.Keys && nodeData[v].lowlink >= 0
      ensures Post(g, s0, s, gray, v, nodeData[v].lowlink)
      ensures LowsKept(g.Keys, old(nodeData), nodeData)
    {
      hide Kept, StartOf, Inv, LoopInv, Post, SearchInv;
      Record(g, R0, Now(), v);
      if nodeData[v].lowlink == nodeData[v].index {
        Complete(v, gray, s0);
      } else {
        KeepPost(g, s0, s, gray, v, nodeData[v].lowlink);
      }
      PostShape(g, s0, s, gray, v, nodeData[v].lowlink);
    }

    /** The body of the loop over v's predecessors. */
    method VisitPred(v: nat, predId: nat, ghost gray: set<nat>, ghost s0: State, ghost seen: set<nat>)
      requires Valid() && v in s.index && v in g && nodeData[v].lowlink >= 0
      requires LoopInv(g, s0, s, gray, v, nodeData[v].lowlink, seen)
      requires predId < |R0| && (R0[predId] == -1 || (R0[predId] in g[v] && R0[predId] in g))
      modifies this, seg
      ensures Valid() && old(s).index.Keys <= s.index.Keys && nodeData[v].lowlink >= 0
      ensures LoopInv(g, s0, s, gray, v, nodeData[v].lowlink, Seen(seen, R0[predId]))
      ensures LowsKept(s0.index.Keys, old(nodeData), nodeData)
      decreases White(g, s), 1
    {
      hide Kept, StartOf, LoopInv, SearchInv, Chains, Reach, RepOf;
      ghost var s1, low := s, nodeData[v].lowlink;
      LoopShape(g, s0, s, gray, v, low, seen, seen);
      RemovedRep(g, R0, Now(), predId);
      var predRep := seg.GetRep(predId);
      if predRep == -1 {
        return;
      }
      ghost var p: nat := R0[predId];
      PredRep(g, R0, Now(), predId);
      Record(g, R0, Now(), predRep);
      if nodeData[predRep].index == INDEX_INVALID {
        CallInv(g, s0, s, gray, v, low, seen, p);
        Visit(predRep, gray + {v});
        ReturnInv(g, s0, s1, s, gray, v, low, seen, p, nodeData[p].lowlink);
        SetLow(v, Min(nodeData[predRep].lowlink, nodeData[v].lowlink));
      } else if nodeData[predRep].onStack {
        StackedInv(g, s0, s, gray, v, low, seen, p);
        SetLow(v, Min(nodeData[predRep].index, nodeData[v].lowlink));
      } else {
        SkipInv(g, s0, s, gray, v, low, seen, p);
      }
    }

    method SetLow(v: nat, low: nat)
      requires Valid() && v in g
      modifies `nodeData
      ensures Valid() && nodeData == old(nodeData)[v := old(nodeData)[v].(lowlink := low)]
    {
      hide Kept, StartOf, SearchInv;
      LowInv(g, R0, Now(), v, low);
      nodeData := nodeData[v := nodeData[v].(lowlink := low)];
    }

    /** v's lowlink is its index: v's component is complete. */
    method Complete(v: nat, ghost gray: set<nat>, ghost s0: State)
      requires Valid() && v in s.on && v in s.index && v in g
      requires LoopInv(g, s0, s, gray, v, s.index[v], g[v]) && Inv(g, s0, gray)
      modifies `nodeStack, `nodeData, `s, `sccVisits, seg
      ensures Valid() && Post(g, s0, s, gray, v, old(s).index[v])
      ensures sccVisits == old(sccVisits) + [v]
      ensures LowsKept(g.Keys, old(nodeData), nodeData)
    {
      hide Kept, StartOf, Inv, LoopInv, Post, SearchInv;
      ghost var x := Now();
      MergeComponent(v);
      sccVisits := sccVisits + [v];
      CompleteInv(g, R0, x, s0, gray, v, v, Now());
    }

    /** Pops v's segment of the stack and unites its nodes into v. */
    method MergeComponent(v: nat)
      requires Valid() && v in s.on && v in g && v in s.index
      modifies `nodeStack, `nodeData, `s, seg
      ensures Shape({}) && DataInv(g, s, nodeData, nodeStack, nextIndex)
      ensures s == old(s).(on := old(s).on - Segment(old(s), v)) && v in Segment(old(s), v)
      ensures seg.Reps() == Redirect(old(seg.Reps()), Segment(old(s), v), v)
      ensures LowsKept(g.Keys, old(nodeData), nodeData)
    {
      hide Kept, StartOf, DataInv, SearchInv;
      ghost var sP, RP := s, seg.Reps();
      SearchParts(g, R0, Now());
      ghost var M := {v};
      assert Redirect(RP, {v}, v) == RP;
      while true
        invariant Shape({v}) && DataInv(g, s, nodeData, nodeStack, nextIndex)
        invariant s == sP.(on := sP.on - (M - {v})) && v in M && M <= Segment(sP, v)
        invariant seg.Reps() == Redirect(RP, M, v)
        invariant LowsKept(g.Keys, old(nodeData), nodeData)
        decreases |nodeStack|
      {
        ghost var sT := s;
        var mergeId := PopTop(v);
        if mergeId == v {
          SegmentAll(sP, sT, M, v);
          break;
        }
        SegmentMore(sP, sT, M, v, mergeId);
        StackedRep(g, sP, R0, RP, M, v, mergeId);
        UniteInto(v, mergeId);
        RedirectMore(RP, M, v, mergeId, v);
        M := M + {mergeId};
      }
    }

    /** Takes the newest node off the stack. */
    method PopTop(ghost v: nat) returns (mergeId: nat)
      requires Shape({v}) && DataInv(g, s, nodeData, nodeStack, nextIndex) && v in s.on
      modifies `nodeStack, `nodeData, `s
      ensures Shape({v}) && DataInv(g, s, nodeData, nodeStack, nextIndex)
      ensures |nodeStack| < |old(nodeStack)|
      ensures mergeId in g && mergeId in old(s).on && s == old(s).(on := old(s).on - {mergeId})
      ensures forall x :: x in old(s).on && x != mergeId ==>
                x in s.index && mergeId in s.index && s.index[x] < s.index[mergeId]
      ensures LowsKept(g.Keys, old(nodeData), nodeData)
    {
      hide Kept, StartOf, DataInv, SearchInv;
      TopOfStack(g, s, nodeData, nodeStack, nextIndex, v);
      mergeId := nodeStack[|nodeStack| - 1];
      DataPop(g, s, nodeData, nodeStack, nextIndex, mergeId);
      nodeStack := nodeStack[..|nodeStack| - 1];
      nodeData := nodeData[mergeId := nodeData[mergeId].(onStack := false)];
      s := s.(on := s.on - {mergeId});
    }

    /** node.unite, for a node that has just left the stack. */
    method UniteInto(v: nat, n: nat)
      requires Shape({v}) && v in g && n in g && v != n && s.Done(n)
      requires seg.Reps()[v] == v && seg.Reps()[n] == n
      modifies seg
      ensures Shape({v}) && seg.Reps() == Redirect(old(seg.Reps()), {v, n}, v)
    {
      hide Kept, StartOf, SearchInv;
      var mergeNode := seg.GetRep(n);
      RepsAtLeast(seg.nodes, seg.rank);
      KeptUnite(R0, c0, seg.Reps(), seg.Content(), v, n);
      seg.Unite(v, mergeNode);
    }
  }

  ghost function Seen(seen: set<nat>, p: int): (r: set<nat>)
    ensures seen <= r && (p >= 0 ==> p in r)
  {
    if p < 0 then seen else seen + {p as nat}
  }

  lemma KeptAtStart(R0: seq<int>, c0: Content)
    requires Start(R0, c0)
    ensures Kept(R0, c0, R0, c0)
  {
    CollectedAtStart(R0, c0.insts);
    EdgesKeptAtStart(R0, c0.preds);
    EdgesKeptAtStart(R0, c0.succs);
  }

  lemma EdgesKeptAtStart(R0: seq<int>, P0: seq<seq<nat>>)
    requires RepsOK(R0) && PredsOK(R0, P0)
    ensures EdgesKept(R0, P0, R0, P0)
  {
    forall x, z | 0 <= x < |R0| && R0[x] == x && z != x && z != -1
      ensures Lists(R0, P0, x, z) <==> WasGiven(R0, R0, P0, x, z)
    {
    }
  }

  /** Among the nodes still on the stack only v may stand for others. */
  lemma StackedRep(g: Graph, s: State, R0: seq<int>, R: seq<int>, M: set<nat>, v: nat, x: nat)
    requires RepInv(g, s, R0, R) && v in g && x in g && v in s.on && x in s.on && v in M && (x == v || x !in M)
    ensures |R| == |R0| && v < |R| && x < |R|
    ensures Redirect(R, M, v)[x] == x && Redirect(R, M, v)[v] == v
  {
    assert Unfold(RepSeal, 0);
  }
}
