/** The call-site graph: condensation of the call graph and enumeration of call paths from main. */
module CsCfg {
  import opened Basics
  import opened Graphs
  import opened Seals
  import TarjanSearch
  import opened Condensation
  import opened Seg
  import opened SegTopo
  import SegTarjans
  import opened CallPaths
  import opened PathCounts

  /** Entries are only added; only main's own entry may grow. */
  ghost predicate TableGrows(main: nat, t0: map<nat, Paths>, t: map<nat, Paths>) {
    t0.Keys <= t.Keys && forall n :: n in t0 && n != main ==> t[n] == t0[n]
  }

  lemma SortedIsFresh(L: seq<nat>, i: nat)
    requires StrictlySorted(L) && i < |L|
    ensures L[i] !in L[..i]
  {
  }

  class PathTable {
    var entries: map<nat, Paths>
    ghost var order: seq<nat>  // the sites that have asked for main's paths, in turn
    constructor ()
      ensures entries == map[] && order == []
    {
      entries, order := map[], [];
    }
  }

  /** The last part of runOnModule: merge the components of G, then remove duplicate edges. */
  method Condense(G: SEG, ghost main: nat) returns (ghost h: Graph)
    requires G.Valid() && SegTarjans.Start(G.Reps(), G.Content())
    requires main < |G.nodes| && G.Reps()[main] == main && G.Content().preds[main] == []
    modifies G
    ensures G.Valid() && |G.nodes| == |old(G.nodes)|
    ensures ReadyOf(h, G.Reps(), G.Content().preds, main)
    ensures Condenses(old(G.Reps()), old(G.Content().preds), G.Reps(), h)
  {
    hide Condenses, ReadyOf, SegTarjans.Kept, SegTarjans.StartOf, GraphOf, TopoInv, TarjanSearch.SearchInv;
    ghost var R0, c0 := G.Reps(), G.Content();
    var X := new SegTarjans.RunTarjans(G);
    ghost var c := G.Content();
    G.CleanGraph();
    ghost var R, P := G.Reps(), G.Content().preds;
    assert P == CleanedLists(R, c.preds, |R|);
    CondensedReady(R0, c0, R, c, main, P);
    h := ClassGraph(R, P);
  }

  class CsCFG {
    const csGraph: SEG
    const mainNode: nat
    var pathCache: map<nat, Paths>
    ghost const g: Graph

    constructor (G: SEG, main: nat)
      requires G.Valid() && SegTarjans.Start(G.Reps(), G.Content())
      requires main < |G.nodes| && G.Reps()[main] == main && G.Content().preds[main] == []
      modifies G
      ensures Valid() && csGraph == G && mainNode == main && pathCache == map[] && |G.nodes| == |old(G.nodes)|
      ensures Condenses(old(G.Reps()), old(G.Content().preds), G.Reps(), g)
    {
      hide Condenses, ReadyOf, SegTarjans.Kept, SegTarjans.StartOf, GraphOf, TopoInv, TarjanSearch.SearchInv;
      csGraph, mainNode, pathCache := G, main, map[];
      ghost var h := Condense(G, main);
      g := h;
    }

    /** The graph is condensed and cleaned: acyclic up to self edges, with duplicate-free lists of
        representatives, and main represents itself. */
    ghost predicate Ready()
      reads this, csGraph
    {
      csGraph.Valid() && ReadyOf(g, csGraph.Reps(), csGraph.Content().preds, mainNode)
    }

    ghost predicate Valid()
      reads this, csGraph
    {
      Ready() && CacheInv(g, csGraph.Reps(), csGraph.Content().preds, mainNode, pathCache)
    }

    /** The entry of every node but main lists each path to it as often as the turn of its first site;
        main's own entry repeats [main] once for each visit. */
    method FindPath(node: nat, end: nat, cache: PathTable)
      requires Ready() && node in g && end == mainNode && Tallied(g, end, cache.entries, cache.order)
      requires MainCopies(end, cache.entries, |cache.order|) && Settled(g, cache.entries, cache.order, node)
      modifies cache
      ensures Tallied(g, end, cache.entries, cache.order) && node in cache.entries
      ensures MainCopies(end, cache.entries, |cache.order| + if node == end then 1 else 0)
      ensures forall n :: n in cache.entries ==> Exactly(g, end, cache.entries[n], n)
      ensures OrderGrows(g, end, cache.entries, old(cache.order), cache.order, node, {})
      ensures TableGrows(end, old(cache.entries), cache.entries)
      ensures cache.entries.Keys <= old(cache.entries).Keys + Below(g, node)
      ensures cache.entries
              == Visit(g, csGraph.Reps(), csGraph.Content().preds, mainNode, node, old(cache.entries))
      decreases Below(g, node), 1
    {
      hide ReadyOf, Visit, VisitPreds, Tallied, Exactly, CountsVia, SegTarjans.Kept, SegTarjans.StartOf, GraphOf,
           TopoInv, TarjanSearch.SearchInv;
      ghost var R, P, t0 := csGraph.Reps(), csGraph.Content().preds, cache.entries;
      ReachSelf(g, node);
      if node == end {
        TalliedMain(g, end, cache.entries, cache.order, |cache.order|);
        VisitMain(g, R, P, end, t0);
        cache.entries := cache.entries[node := (if node in cache.entries then cache.entries[node] else []) + [[end]]];
      } else {
        if node in cache.entries {
          TalliedExact(g, end, cache.entries, cache.order, |cache.order|);
          VisitKnown(g, R, P, end, node, t0);
          return;
        }
        var preds, rets := FindPredPaths(node, end, cache);
        VisitNew(g, R, P, end, node, t0);
        TalliedEntry(g, end, cache.entries, cache.order, node, rets, preds);
        cache.entries := cache.entries[node := rets];
      }
      TalliedExact(g, end, cache.entries, cache.order, |cache.order| + if node == end then 1 else 0);
    }

    /** The loop of findPath over node's predecessors. */
    method FindPredPaths(node: nat, end: nat, cache: PathTable) returns (preds: seq<nat>, rets: Paths)
      requires Ready() && node in g && end == mainNode && node != end && node !in cache.entries
      requires Tallied(g, end, cache.entries, cache.order)
      requires MainCopies(end, cache.entries, |cache.order|) && Settled(g, cache.entries, cache.order, node)
      modifies cache
      ensures Tallied(g, end, cache.entries, cache.order) && node !in cache.entries
      ensures MainCopies(end, cache.entries, |cache.order|) && Arrived(g, end, cache.order, node)
      ensures OrderGrows(g, end, cache.entries, old(cache.order), cache.order, node, {node})
      ensures TableGrows(end, old(cache.entries), cache.entries)
      ensures cache.entries.Keys <= old(cache.entries).Keys + Below(g, node)
      ensures forall w :: w in g[node] ==> w in preds
      ensures CountsVia(g, end, cache.order, rets, node, preds)
      ensures var R, P := csGraph.Reps(), csGraph.Content().preds;
              node < |P| && (cache.entries, rets) == VisitPreds(g, R, P, mainNode, node, old(cache.entries), |P[node]|)
      decreases Below(g, node), 0
    {
      hide ReadyOf, Visit, VisitPreds, Tallied, CountsVia, MainCopies, OrderGrows, Settled, Collecting, Arrived,
           GraphOf, TopoInv, SegTarjans.Kept, SegTarjans.StartOf, TarjanSearch.SearchInv;
      ghost var R, P, t0, before := csGraph.Reps(), csGraph.Content().preds, cache.entries, cache.order;
      ReadyList(g, R, P, mainNode, node);
      RepIsLive(csGraph.nodes, csGraph.rank, node);
      IdsAt(csGraph.nodes, node);
      preds, rets := csGraph.nodes[node].preds, [];
      var dedup: set<nat> := {};
      CollectingStart(g, end, t0, before, node);
      PredsStart(g, R, P, end, node, t0);
      for i := 0 to |preds|
        invariant Collecting(g, end, t0, before, cache.entries, cache.order, node, rets, preds[..i])
        invariant TableGrows(end, old(cache.entries), cache.entries)
        invariant cache.entries.Keys <= old(cache.entries).Keys + Below(g, node)
        invariant forall d :: d in dedup ==> d in preds[..i]
        invariant (cache.entries, rets) == VisitPreds(g, R, P, end, node, t0, i)
      {
        PredsStep(g, R, P, end, node, t0, i);
        assert preds[..i + 1] == preds[..i] + [preds[i]];
        var predNode := csGraph.RepConst(preds[i]);
        if predNode == node {
          CollectingSelf(g, end, t0, before, cache.entries, cache.order, node, rets, preds[..i]);
          continue;
        }
        SortedIsFresh(preds, i);
        assert predNode !in dedup;
        dedup := dedup + {predNode};
        rets := AddPred(node, predNode, end, cache, t0, before, rets, preds[..i]);
      }
      assert preds[..|preds|] == preds;
      CollectingEnd(g, end, t0, before, cache.entries, cache.order, node, rets, preds);
    }

    /** One round of that loop, for a predecessor other than node. */
    method AddPred(node: nat, predNode: nat, end: nat, cache: PathTable, ghost t0: map<nat, Paths>,
                   ghost before: seq<nat>, rets: Paths, ghost done: seq<nat>) returns (r: Paths)
      requires Ready() && node in g && end == mainNode && node != end
      requires predNode in g[node] && predNode != node && predNode !in done
      requires Collecting(g, end, t0, before, cache.entries, cache.order, node, rets, done)
      modifies cache
      ensures Collecting(g, end, t0, before, cache.entries, cache.order, node, r, done + [predNode])
      ensures TableGrows(end, old(cache.entries), cache.entries)
      ensures cache.entries.Keys <= old(cache.entries).Keys + Below(g, node)
      ensures predNode in g
      ensures cache.entries
              == Visit(g, csGraph.Reps(), csGraph.Content().preds, mainNode, predNode, old(cache.entries))
      ensures predNode in cache.entries && r == rets + Extended(cache.entries[predNode], node)
      decreases Below(g, node), 0, 0
    {
      hide ReadyOf, Visit, VisitPreds, Tallied, CountsVia, SegTarjans.Kept, SegTarjans.StartOf, GraphOf, TopoInv,
           TarjanSearch.SearchInv;
      ghost var t, order := cache.entries, cache.order;
      ReadyFacts(g, csGraph.Reps(), csGraph.Content().preds, mainNode);
      StepDown(g, csGraph.Reps(), csGraph.Content().preds, mainNode, node, predNode);
      SettledDown(g, end, t0, before, t, order, node, predNode);
      FindPath(predNode, end, cache);
      var predVec := cache.entries[predNode];
      Visited(g, end, t0, before, t, order, cache.entries, cache.order, node, predNode, done, rets);
      if predNode == end {
        cache.order := cache.order + [node];
      }
      r := CopyAll(rets, predVec, node);
    }

    /** The innermost loop of findPath. */
    method CopyAll(rets: Paths, vecs: Paths, node: nat) returns (r: Paths)
      ensures r == rets + Extended(vecs, node)
    {
      r := rets;
      for i := 0 to |vecs|
        invariant r == rets + Extended(vecs[..i], node)
      {
        assert Extended(vecs[..i + 1], node) == Extended(vecs[..i], node) + [vecs[i] + [node]];
        r := r + [vecs[i] + [node]];
      }
      assert vecs[..|vecs|] == vecs;
    }

    /** Every call path from main to end's class, and nothing else.  None is listed twice exactly when at most
        one of the sites on such paths is entered from main. */
    method FindPathsFromMain(end: nat) returns (paths: Paths)
      requires Valid() && end < |csGraph.nodes| && csGraph.Reps()[end] != -1
      modifies this`pathCache
      ensures Valid() && end in pathCache && paths == pathCache[end]
      ensures forall k :: k in old(pathCache) ==> k in pathCache && pathCache[k] == old(pathCache)[k]
      ensures csGraph.Reps()[end] >= 0
      ensures var n := csGraph.Reps()[end];
              && n in g && paths == Fresh(g, csGraph.Reps(), csGraph.Content().preds, mainNode, n)
              && Listed(g, mainNode, paths, n) && Exactly(g, mainNode, paths, n)
              && (Distinct(paths) <==> AtMostOne(EntrySites(g, mainNode, n)))
    {
      hide ReadyOf, Visit, VisitPreds, Tallied, Listed, Exactly, EntrySites, SegTarjans.Kept, SegTarjans.StartOf,
           GraphOf, TopoInv;
      ReadyFacts(g, csGraph.Reps(), csGraph.Content().preds, mainNode);
      GraphNodes(g, csGraph.Reps(), csGraph.Content().preds);
      if end in pathCache {
        ListedMeans(g, mainNode, pathCache[end], csGraph.Reps()[end]);
        return pathCache[end];
      }
      var resultCache := new PathTable();
      TalliedStart(g, mainNode);
      var endNode := csGraph.RepConst(end);
      FindPath(endNode, mainNode, resultCache);
      paths := resultCache.entries[endNode];
      ListedAtEnd(g, mainNode, resultCache.entries, resultCache.order, endNode);
      ListedMeans(g, mainNode, paths, endNode);
      pathCache := pathCache[end := paths];
    }
  }

  ghost predicate CleanList(g: Graph, L: seq<nat>, v: nat)
    requires v in g
  {
    StrictlySorted(L) && forall k :: 0 <= k < |L| ==> L[k] in g[v]
  }

  ghost predicate ReadyOf(g: Graph, R: seq<int>, P: seq<seq<nat>>, main: nat) {
    forall k {:trigger Unfold(ReadySeal, k)} :: Unfold(ReadySeal, k) ==>
    && RepsOK(R) && PredsOK(R, P) && g == ClassGraph(R, P)
    && Acyclic(g) && main in g && CleanLists(g, P)
  }

  lemma ReadyFacts(g: Graph, R: seq<int>, P: seq<seq<nat>>, main: nat)
    requires ReadyOf(g, R, P, main)
    ensures GraphOf(g, R, P) && Closed(g) && Acyclic(g) && main in g
  {
    assert Unfold(ReadySeal, 0);
  }

  /** The predecessor list of a condensed and cleaned node. */
  lemma ReadyList(g: Graph, R: seq<int>, P: seq<seq<nat>>, main: nat, v: nat)
    requires ReadyOf(g, R, P, main) && v in g
    ensures v < |R| == |P| && R[v] == v && StrictlySorted(P[v])
    ensures forall k :: 0 <= k < |P[v]| ==> P[v][k] in g[v] && P[v][k] < |R| && R[P[v][k]] == P[v][k]
    ensures forall w :: w in g[v] ==> w in P[v]
  {
    assert GraphOf(g, R, P) && CleanList(g, P[v], v) by { assert Unfold(ReadySeal, 0); }
    ReadyEdges(g, R, P, v);
  }

  lemma ReadyEdges(g: Graph, R: seq<int>, P: seq<seq<nat>>, v: nat)
    requires GraphOf(g, R, P) && v in g && v < |P| && CleanList(g, P[v], v)
    ensures v < |R| == |P| && R[v] == v
    ensures forall k :: 0 <= k < |P[v]| ==> P[v][k] < |R| && R[P[v][k]] == P[v][k]
    ensures forall w :: w in g[v] ==> w in P[v]
  {
    GraphPreds(g, R, P, v);
    GraphReps(g, R, P);
    forall k | 0 <= k < |P[v]| ensures P[v][k] < |R| && R[P[v][k]] == P[v][k] {
      assert P[v][k] in g[v] && P[v][k] in g;
    }
    var L := P[v];
    forall w | w in g[v] ensures w in L {
      var k :| 0 <= k < |L| && L[k] < |R| && R[L[k]] == w;
      assert L[k] in g[v] && L[k] in g;
    }
  }

  lemma StepDown(g: Graph, R: seq<int>, P: seq<seq<nat>>, main: nat, v: nat, w: nat)
    requires ReadyOf(g, R, P, main) && v in g && w in g[v] && w != v
    ensures w in g && Below(g, w) < Below(g, v) && v !in Below(g, w)
  {
    ReadyFacts(g, R, P, main);
    BelowShrinks(g, v, w);
    ReachEdge(g, v, w);
    assert Reach(g, w, v) ==> Mutual(g, v, w);
  }

  ghost predicate CleanLists(g: Graph, P: seq<seq<nat>>) {
    forall v :: v in g ==> v < |P| && CleanList(g, P[v], v)
  }

  // ---- The enumeration as a function ----

  /** The table after findPath for v. */
  ghost function Visit(g: Graph, R: seq<int>, P: seq<seq<nat>>, main: nat, v: nat, t: map<nat, Paths>)
    : (t': map<nat, Paths>)
    requires ReadyOf(g, R, P, main) && v in g
    ensures t.Keys <= t'.Keys && v in t'
    decreases Below(g, v), 1
  {
    if v == main then t[v := (if v in t then t[v] else []) + [[v]]]
    else if v in t then t
    else
      ReadyList(g, R, P, main, v);
      var d := VisitPreds(g, R, P, main, v, t, |P[v]|);
      d.0[v := d.1]
  }

  /** The table and the paths after the first i predecessors of v. */
  ghost function VisitPreds(g: Graph, R: seq<int>, P: seq<seq<nat>>, main: nat, v: nat, t: map<nat, Paths>, i: nat)
    : (d: (map<nat, Paths>, Paths))
    requires ReadyOf(g, R, P, main) && v in g && v < |P| && i <= |P[v]|
    ensures t.Keys <= d.0.Keys
    decreases Below(g, v), 0, i
  {
    if i == 0 then (t, [])
    else
      ReadyList(g, R, P, main, v);
      var q, d := P[v][i - 1], VisitPreds(g, R, P, main, v, t, i - 1);
      if q == v then d
      else
        ReadyFacts(g, R, P, main);
        StepDown(g, R, P, main, v, q);
        var t' := Visit(g, R, P, main, q, d.0);
        (t', d.1 + Extended(t'[q], v))
  }

  lemma VisitMain(g: Graph, R: seq<int>, P: seq<seq<nat>>, main: nat, t: map<nat, Paths>)
    requires ReadyOf(g, R, P, main) && main in g
    ensures Visit(g, R, P, main, main, t) == t[main := (if main in t then t[main] else []) + [[main]]]
  {
  }

  lemma VisitKnown(g: Graph, R: seq<int>, P: seq<seq<nat>>, main: nat, v: nat, t: map<nat, Paths>)
    requires ReadyOf(g, R, P, main) && v in g && v != main && v in t
    ensures Visit(g, R, P, main, v, t) == t
  {
  }

  lemma VisitNew(g: Graph, R: seq<int>, P: seq<seq<nat>>, main: nat, v: nat, t: map<nat, Paths>)
    requires ReadyOf(g, R, P, main) && v in g && v != main && v !in t && v < |P|
    ensures var d := VisitPreds(g, R, P, main, v, t, |P[v]|); Visit(g, R, P, main, v, t) == d.0[v := d.1]
  {
  }

  lemma PredsStart(g: Graph, R: seq<int>, P: seq<seq<nat>>, main: nat, v: nat, t: map<nat, Paths>)
    requires ReadyOf(g, R, P, main) && v in g && v < |P|
    ensures VisitPreds(g, R, P, main, v, t, 0) == (t, [])
  {
  }

  lemma PredsStep(g: Graph, R: seq<int>, P: seq<seq<nat>>, main: nat, v: nat, t: map<nat, Paths>, i: nat)
    requires ReadyOf(g, R, P, main) && v in g && v < |P| && i < |P[v]|
    ensures var q, d := P[v][i], VisitPreds(g, R, P, main, v, t, i);
            && q in g
            && VisitPreds(g, R, P, main, v, t, i + 1)
               == if q == v then d
                  else var t' := Visit(g, R, P, main, q, d.0); (t', d.1 + Extended(t'[q], v))
  {
    ReadyList(g, R, P, main, v);
    ReadyFacts(g, R, P, main);
  }

  /** What the enumeration lists for v when it starts from an empty table. */
  ghost function Fresh(g: Graph, R: seq<int>, P: seq<seq<nat>>, main: nat, v: nat): Paths
    requires ReadyOf(g, R, P, main) && v in g
  {
    Visit(g, R, P, main, v, map[])[v]
  }

  /** The persistent cache agrees with a fresh computation. */
  ghost predicate CacheInv(g: Graph, R: seq<int>, P: seq<seq<nat>>, main: nat, t: map<nat, Paths>)
    requires ReadyOf(g, R, P, main)
  {
    forall k :: k in t ==> k < |R| && R[k] >= 0 && Remembered(g, R, P, main, t[k], R[k])
  }

  ghost predicate Remembered(g: Graph, R: seq<int>, P: seq<seq<nat>>, main: nat, paths: Paths, v: nat)
    requires ReadyOf(g, R, P, main)
  {
    v in g && paths == Fresh(g, R, P, main, v) && Listed(g, main, paths, v)
  }

  /** h is the condensation of the graph with representatives R0 and lists P0: classes are the
      strongly connected components, and edges between classes are kept. */
  ghost predicate Condenses(R0: seq<int>, P0: seq<seq<nat>>, R: seq<int>, h: Graph) {
    forall k {:trigger Unfold(CondenseSeal, k)} :: Unfold(CondenseSeal, k) ==>
    && RepsOK(R0) && PredsOK(R0, P0)
    && TarjanSearch.Condensed(ClassGraph(R0, P0), R0, R) && Quotient(ClassGraph(R0, P0), R, h)
  }

  /** What condensing and cleaning give: an acyclic graph with clean lists, in which a node without
      predecessors still represents itself. */
  lemma CondensedReady(R0: seq<int>, c0: Content, R: seq<int>, c: Content, main: nat, P: seq<seq<nat>>)
    requires SegTarjans.Start(R0, c0) && SegTarjans.Kept(R0, c0, R, c)
    requires TarjanSearch.Condensed(ClassGraph(R0, c0.preds), R0, R)
    requires IdsIn(c.preds) && |c.preds| == |R| && forall i :: 0 <= i < |R| ==> R[i] >= -1
    requires main < |R0| && R0[main] == main && c0.preds[main] == []
    requires P == CleanedLists(R, c.preds, |R|)
    ensures RepsOK(R) && PredsOK(R, P) && Condenses(R0, c0.preds, R, ClassGraph(R, P))
    ensures ReadyOf(ClassGraph(R, P), R, P, main)
  {
    assert RepsOK(R) && EdgesKept(R0, c0.preds, R, c.preds) by { assert Unfold(KeptSeal, 0); }
    MergedGraph(R0, c0.preds, R, c.preds);
    CleanedClassGraph(R, c.preds);
    SourceIsRep(R0, c0.preds, R, main);
    CleanListsOf(R, c.preds);
  }

  /** A node without predecessors is alone in its class. */
  lemma SourceIsRep(R0: seq<int>, P0: seq<seq<nat>>, R: seq<int>, main: nat)
    requires RepsOK(R0) && PredsOK(R0, P0) && TarjanSearch.Condensed(ClassGraph(R0, P0), R0, R)
    requires main < |R0| && R0[main] == main && P0[main] == []
    ensures R[main] == main
  {
    var g := ClassGraph(R0, P0);
    assert main in g && g[main] == {};
    assert Mutual(g, main, R[main]);
    ReachStaysInside(g, {main}, main, R[main]);
  }

  lemma CleanListsOf(R: seq<int>, P: seq<seq<nat>>)
    requires RepsOK(R) && |P| == |R| && IdsIn(P) && forall i :: 0 <= i < |R| ==> R[i] >= -1
    requires PredsOK(R, CleanedLists(R, P, |R|))
    ensures CleanLists(ClassGraph(R, CleanedLists(R, P, |R|)), CleanedLists(R, P, |R|))
  {
    var P' := CleanedLists(R, P, |R|);
    var g := ClassGraph(R, P');
    forall v | v in g ensures CleanList(g, P'[v], v) {
      CleanedIds(R, P[v]);
      forall k | 0 <= k < |P'[v]| ensures P'[v][k] in g[v] {
        assert P'[v][k] in P'[v];
      }
    }
  }
}
