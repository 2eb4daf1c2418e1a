/** The context-sensitive function graph: backward queries through candidate functions, and copying one graph into
    another. */
module CsFcnCFGs {
  import opened Basics
  import opened Graphs
  import opened Worklists
  import opened Seals

  datatype FcnNode = FcnNode(preds: set<nat>, fcn: nat, ci: seq<nat>)

  predicate Inside(nodes: seq<FcnNode>) {
    forall i, p :: 0 <= i < |nodes| && p in nodes[i].preds ==> p < |nodes|
  }

  function Candidates(nodes: seq<FcnNode>, fcns: set<nat>): (s: set<nat>)
    ensures forall i: nat {:trigger i in s} :: i in s <==> i < |nodes| && nodes[i].fcn in fcns
  {
    set i: nat | i in UpTo(|nodes|) && nodes[i].fcn in fcns
  }

  /** From each node to those of its predecessors whose function is a candidate. */
  function CandidatePreds(nodes: seq<FcnNode>, fcns: set<nat>): (g: Graph)
    requires Inside(nodes)
    ensures Closed(g) && g.Keys == UpTo(|nodes|)
    ensures forall i: nat, p {:trigger p in g[i]} :: i < |nodes| ==>
        (p in g[i] <==> p in nodes[i].preds && nodes[p].fcn in fcns)
  {
    map i: nat | i in UpTo(|nodes|) :: set p | p in nodes[i].preds && nodes[p].fcn in fcns
  }

  function Roots(nodes: seq<FcnNode>, fcns: set<nat>, start: nat): set<nat>
    requires start < |nodes|
  {
    if nodes[start].fcn in fcns then {start} else {}
  }

  /** id is reached backward from start through candidates only, both ends being candidates. */
  ghost predicate Backward(nodes: seq<FcnNode>, fcns: set<nat>, start: nat, id: nat)
    requires Inside(nodes) && start < |nodes|
  {
    FromRoots(CandidatePreds(nodes, fcns), Roots(nodes, fcns, start), id)
  }

  /** From start back to id along predecessors, every node's function being a candidate. */
  ghost predicate CandidateWalk(nodes: seq<FcnNode>, fcns: set<nat>, w: seq<nat>, start: nat, id: nat) {
    && w != [] && w[0] == start && w[|w| - 1] == id
    && (forall k :: 0 <= k < |w| ==> w[k] < |nodes| && nodes[w[k]].fcn in fcns)
    && forall k :: 0 < k < |w| ==> w[k] in nodes[w[k - 1]].preds
  }

  /** What is reached backward is the end of such a walk. */
  lemma BackwardMeans(nodes: seq<FcnNode>, fcns: set<nat>, start: nat, id: nat)
    requires Inside(nodes) && start < |nodes|
    ensures Backward(nodes, fcns, start, id) <==> exists w :: CandidateWalk(nodes, fcns, w, start, id)
  {
    var g := CandidatePreds(nodes, fcns);
    if Backward(nodes, fcns, start, id) {
      var w := ReachHasWalk(g, start, id);
      forall k | 0 <= k < |w|
        ensures w[k] < |nodes| && nodes[w[k]].fcn in fcns && (k > 0 ==> w[k] in nodes[w[k - 1]].preds)
      {
        assert w[k] in g && (k > 0 ==> w[k - 1] in g && w[k] in g[w[k - 1]]);
      }
      assert CandidateWalk(nodes, fcns, w, start, id);
    }
    if w :| CandidateWalk(nodes, fcns, w, start, id) {
      forall k | 0 < k < |w| ensures w[k] in g[w[k - 1]] {
        assert w[k] < |nodes| && nodes[w[k]].fcn in fcns;
      }
      WalkReaches(g, w);
      assert nodes[w[0]].fcn in fcns && start in Roots(nodes, fcns, start);
    }
  }

  // ---- The query ----

  ghost predicate Query(nodes: seq<FcnNode>, fcns: set<nat>, start: nat, V: set<nat>, W: multiset<nat>)
    requires Inside(nodes) && start < |nodes|
  {
    && Searching(CandidatePreds(nodes, fcns), Roots(nodes, fcns, start), Candidates(nodes, fcns), V, W)
    && forall v :: v in W ==> v < |nodes|
  }

  lemma QueryStart(nodes: seq<FcnNode>, fcns: set<nat>, start: nat)
    requires Inside(nodes) && start < |nodes|
    ensures Query(nodes, fcns, start, {}, multiset{start})
  {
    SearchStart(CandidatePreds(nodes, fcns), Roots(nodes, fcns, start), Candidates(nodes, fcns), multiset{start});
  }

  lemma QueryDrop(nodes: seq<FcnNode>, fcns: set<nat>, start: nat, V: set<nat>, W: multiset<nat>, id: nat,
                  W': multiset<nat>)
    requires Inside(nodes) && start < |nodes| && Query(nodes, fcns, start, V, W) && W == W' + multiset{id}
    requires id in V || (id < |nodes| && nodes[id].fcn !in fcns)
    ensures Query(nodes, fcns, start, V, W')
  {
    SearchDrop(CandidatePreds(nodes, fcns), Roots(nodes, fcns, start), Candidates(nodes, fcns), V, W, id, W');
    assert forall v :: v in W' ==> v in W;
  }

  lemma QueryVisit(nodes: seq<FcnNode>, fcns: set<nat>, start: nat, V: set<nat>, W: multiset<nat>, id: nat,
                   W': multiset<nat>)
    requires Inside(nodes) && start < |nodes| && Query(nodes, fcns, start, V, W) && W == W' + multiset{id}
    requires id < |nodes| && nodes[id].fcn in fcns
    ensures Query(nodes, fcns, start, V + {id}, W' + multiset(nodes[id].preds))
  {
    var more := multiset(nodes[id].preds);
    SearchVisit(CandidatePreds(nodes, fcns), Roots(nodes, fcns, start), Candidates(nodes, fcns), V, W, id, W', more);
    assert forall v :: v in W' ==> v in W;
    assert forall v :: v in W' + more ==> v in W' || v in more;
  }

  lemma QueryInside(nodes: seq<FcnNode>, fcns: set<nat>, start: nat, V: set<nat>, W: multiset<nat>)
    requires Inside(nodes) && start < |nodes| && Query(nodes, fcns, start, V, W)
    ensures V <= UpTo(|nodes|) && forall v :: v in W ==> v < |nodes|
  {
    SearchBounded(CandidatePreds(nodes, fcns), Roots(nodes, fcns, start), Candidates(nodes, fcns), V, W);
  }

  lemma QueryDone(nodes: seq<FcnNode>, fcns: set<nat>, start: nat, V: set<nat>)
    requires Inside(nodes) && start < |nodes| && Query(nodes, fcns, start, V, multiset{})
    ensures forall id :: id in V <==> Backward(nodes, fcns, start, id)
  {
    SearchDone(CandidatePreds(nodes, fcns), Roots(nodes, fcns, start), Candidates(nodes, fcns), V);
  }

  /** The visited nodes that have id as a predecessor. */
  function Into(nodes: seq<FcnNode>, V: set<nat>, id: nat): set<nat> {
    set v | v in V && v < |nodes| && id in nodes[v].preds
  }

  /** How often id reaches the worklist: once if it is the start, and once for each visited node it precedes. */
  function Arrivals(nodes: seq<FcnNode>, V: set<nat>, start: nat, id: nat): nat {
    (if id == start then 1 else 0) + |Into(nodes, V, id)|
  }

  /** Emissions and waiting items of each candidate add up to its arrivals. */
  ghost predicate Tally(nodes: seq<FcnNode>, fcns: set<nat>, start: nat, V: set<nat>, W: multiset<nat>,
                        ret: seq<(nat, nat)>) {
    forall k {:trigger Unfold(TallySeal, k)} :: Unfold(TallySeal, k) ==>
      && (forall e :: e in ret ==> e.1 in V && e.1 < |nodes| && nodes[e.1].fcn == e.0)
      && (forall id :: 0 <= id < |nodes| && nodes[id].fcn in fcns ==>
            multiset(ret)[(nodes[id].fcn, id)] + W[id] == Arrivals(nodes, V, start, id))
      && (forall id :: id in V ==> id < |nodes| && (nodes[id].fcn, id) in ret)
  }

  lemma TallyDrop(nodes: seq<FcnNode>, fcns: set<nat>, start: nat, V: set<nat>, W: multiset<nat>,
                  ret: seq<(nat, nat)>, id: nat, W': multiset<nat>)
    requires Tally(nodes, fcns, start, V, W, ret) && W == W' + multiset{id} && id < |nodes| && nodes[id].fcn !in fcns
    ensures Tally(nodes, fcns, start, V, W', ret)
  {
    assert Unfold(TallySeal, 0);
  }

  lemma TallyAgain(nodes: seq<FcnNode>, fcns: set<nat>, start: nat, V: set<nat>, W: multiset<nat>,
                   ret: seq<(nat, nat)>, id: nat, W': multiset<nat>)
    requires Tally(nodes, fcns, start, V, W, ret) && W == W' + multiset{id}
    requires id < |nodes| && nodes[id].fcn in fcns && id in V
    ensures Tally(nodes, fcns, start, V, W', ret + [(nodes[id].fcn, id)])
  {
    assert Unfold(TallySeal, 0);
  }

  lemma TallyFirst(nodes: seq<FcnNode>, fcns: set<nat>, start: nat, V: set<nat>, W: multiset<nat>,
                   ret: seq<(nat, nat)>, id: nat, W': multiset<nat>)
    requires Tally(nodes, fcns, start, V, W, ret) && W == W' + multiset{id}
    requires id < |nodes| && nodes[id].fcn in fcns && id !in V
    ensures Tally(nodes, fcns, start, V + {id}, W' + multiset(nodes[id].preds), ret + [(nodes[id].fcn, id)])
  {
    assert Unfold(TallySeal, 0);
    var ret' := ret + [(nodes[id].fcn, id)];
    forall x | 0 <= x < |nodes| && nodes[x].fcn in fcns
      ensures multiset(ret')[(nodes[x].fcn, x)] + (W' + multiset(nodes[id].preds))[x]
          == Arrivals(nodes, V + {id}, start, x)
    {
      IntoGrows(nodes, V, id, x);
      assert multiset(ret)[(nodes[x].fcn, x)] + W[x] == Arrivals(nodes, V, start, x);
    }
    forall x | x in V + {id} ensures x < |nodes| && (nodes[x].fcn, x) in ret' {
    }
  }

  /** Nothing is reported twice exactly when the start precedes no visited node and every other visited
      node precedes only one. */
  lemma NoRepeats(nodes: seq<FcnNode>, start: nat, V: set<nat>, ret: seq<(nat, nat)>)
    requires forall e :: e in ret ==> e.1 in V && e.1 < |nodes| && nodes[e.1].fcn == e.0
    requires forall id :: id in V ==>
               id < |nodes| && multiset(ret)[(nodes[id].fcn, id)] == Arrivals(nodes, V, start, id)
    ensures Distinct(ret) <==> forall id :: id in V ==> |Into(nodes, V, id)| <= if id == start then 0 else 1
  {
    DistinctCount(ret);
    if forall id :: id in V ==> |Into(nodes, V, id)| <= if id == start then 0 else 1 {
      forall e: (nat, nat) ensures multiset(ret)[e] <= 1 {
        if e in ret {
          assert e == (nodes[e.1].fcn, e.1);
          assert multiset(ret)[e] == Arrivals(nodes, V, start, e.1);
        }
      }
    } else {
      var id :| id in V && !(|Into(nodes, V, id)| <= if id == start then 0 else 1);
      assert multiset(ret)[(nodes[id].fcn, id)] > 1;
    }
  }

  /** A node that precedes itself is reported twice. */
  lemma SelfCallRepeats(ret: seq<(nat, nat)>)
    requires forall id :: id in {0} ==>
               multiset(ret)[(7, id)] == Arrivals([FcnNode({0}, 7, [])], {0}, 0, id)
    ensures Backward([FcnNode({0}, 7, [])], {7}, 0, 0) && multiset(ret)[(7, 0)] == 2
  {
    var nodes := [FcnNode({0}, 7, [])];
    assert Into(nodes, {0}, 0) == {0};
    ReachSelf(CandidatePreds(nodes, {7}), 0);
    assert 0 in {0} && 0 in Roots(nodes, {7}, 0);
  }

  lemma IntoGrows(nodes: seq<FcnNode>, V: set<nat>, id: nat, x: nat)
    requires id < |nodes| && id !in V
    ensures |Into(nodes, V + {id}, x)| == |Into(nodes, V, x)| + (if x in nodes[id].preds then 1 else 0)
  {
    assert Into(nodes, V + {id}, x) == Into(nodes, V, x) + (if x in nodes[id].preds then {id} else {});
  }

  /** A query in progress. */
  ghost predicate Asking(nodes: seq<FcnNode>, fcns: set<nat>, start: nat, V: set<nat>, W: multiset<nat>,
                         ret: seq<(nat, nat)>) {
    forall k {:trigger Unfold(AskSeal, k)} :: Unfold(AskSeal, k) ==>
      Inside(nodes) && start < |nodes| && Query(nodes, fcns, start, V, W) && Tally(nodes, fcns, start, V, W, ret)
  }

  lemma AskStart(nodes: seq<FcnNode>, fcns: set<nat>, start: nat)
    requires Inside(nodes) && start < |nodes|
    ensures Asking(nodes, fcns, start, {}, multiset{start}, [])
  {
    QueryStart(nodes, fcns, start);
    assert forall id :: Into(nodes, {}, id) == {};
  }

  lemma AskInside(nodes: seq<FcnNode>, fcns: set<nat>, start: nat, V: set<nat>, W: multiset<nat>,
                  ret: seq<(nat, nat)>, id: nat)
    requires Asking(nodes, fcns, start, V, W, ret) && id in W
    ensures id < |nodes| && V <= UpTo(|nodes|)
  {
    assert Unfold(AskSeal, 0);
    QueryInside(nodes, fcns, start, V, W);
  }

  /** One item of the worklist, with the waiting items and the result after it. */
  lemma AskStep(nodes: seq<FcnNode>, fcns: set<nat>, start: nat, V: set<nat>, W: multiset<nat>, ret: seq<(nat, nat)>,
                id: nat, W': multiset<nat>)
    requires Asking(nodes, fcns, start, V, W, ret) && W == W' + multiset{id} && id < |nodes|
    ensures nodes[id].fcn !in fcns ==> Asking(nodes, fcns, start, V, W', ret)
    ensures nodes[id].fcn in fcns && id in V ==> Asking(nodes, fcns, start, V, W', ret + [(nodes[id].fcn, id)])
    ensures nodes[id].fcn in fcns && id !in V ==>
              Asking(nodes, fcns, start, V + {id}, W' + multiset(nodes[id].preds), ret + [(nodes[id].fcn, id)])
  {
    assert Unfold(AskSeal, 0);
    if nodes[id].fcn !in fcns {
      TallyDrop(nodes, fcns, start, V, W, ret, id, W');
      QueryDrop(nodes, fcns, start, V, W, id, W');
    } else if id in V {
      TallyAgain(nodes, fcns, start, V, W, ret, id, W');
      QueryDrop(nodes, fcns, start, V, W, id, W');
    } else {
      TallyFirst(nodes, fcns, start, V, W, ret, id, W');
      QueryVisit(nodes, fcns, start, V, W, id, W');
    }
  }

  class CsFcnCFG {
    var nodes: seq<FcnNode>

    predicate Valid()
      reads this
    {
      Inside(nodes)
    }

    constructor ()
      ensures Valid() && nodes == []
    {
      nodes := [];
    }

    method AddNode(fcn: nat, ci: seq<nat>) returns (id: nat)
      requires Valid()
      modifies this
      ensures Valid() && id == |old(nodes)| && nodes == old(nodes) + [FcnNode({}, fcn, ci)]
    {
      id := |nodes|;
      nodes := nodes + [FcnNode({}, fcn, ci)];
    }

    /** Copies every node of another graph to new ids at the end. */
    method CopyNodes(callee: CsFcnCFG, ciRemap: seq<nat>) returns (ret: seq<nat>)
      requires Valid() && callee.Valid() && callee != this && CiInside(callee.nodes, |ciRemap|)
      modifies this
      ensures Valid() && Appended(old(nodes), callee.nodes, ciRemap, nodes)
      ensures |ret| == |callee.nodes| && |nodes| == |old(nodes)| + |ret| && nodes[..|old(nodes)|] == old(nodes)
      ensures forall i :: 0 <= i < |ret| ==>
                ret[i] == |old(nodes)| + i && IsCopy(nodes[ret[i]], callee.nodes[i], ret, ciRemap)
    {
      ret := CopyAll(callee, ciRemap);
      AppendedMeans(old(nodes), callee.nodes, ciRemap, nodes, ret);
    }

    /** The loops of CopyNodes: all the nodes first, then their predecessors. */
    method CopyAll(callee: CsFcnCFG, ciRemap: seq<nat>) returns (ret: seq<nat>)
      requires Valid() && callee.Valid() && callee != this && CiInside(callee.nodes, |ciRemap|)
      modifies this
      ensures Valid() && Appended(old(nodes), callee.nodes, ciRemap, nodes)
      ensures |ret| == |callee.nodes| && forall i :: 0 <= i < |ret| ==> ret[i] == |old(nodes)| + i
    {
      ghost var base := |nodes|;
      ret := seq(|callee.nodes|, i => 0);
      for remapId := 0 to |callee.nodes|
        invariant Valid() && |nodes| == base + remapId && |ret| == |callee.nodes|
        invariant forall i :: 0 <= i < base ==> nodes[i] == old(nodes)[i]
        invariant forall i :: 0 <= i < remapId ==>
                    ret[i] == base + i && nodes[base + i] == FcnNode({}, callee.nodes[i].fcn, callee.nodes[i].ci)
      {
        var node := callee.nodes[remapId];
        var id := AddNode(node.fcn, node.ci);
        ret := ret[remapId := id];
      }
      for i := 0 to |callee.nodes|
        invariant |nodes| == base + |callee.nodes|
        invariant forall j :: 0 <= j < base ==> nodes[j] == old(nodes)[j]
        invariant forall j :: 0 <= j < i ==> nodes[base + j] == Copied(callee.nodes[j], base, ciRemap)
        invariant forall j :: i <= j < |callee.nodes| ==>
                    nodes[base + j] == FcnNode({}, callee.nodes[j].fcn, callee.nodes[j].ci)
      {
        var node := nodes[ret[i]];
        var preds := set p | p in callee.nodes[i].preds :: ret[p];
        assert preds == set p | p in callee.nodes[i].preds :: base + p;
        nodes := nodes[ret[i] := FcnNode(node.preds + preds, node.fcn, Remapped(node.ci, ciRemap))];
      }
      AppendedInside(old(nodes), callee.nodes, ciRemap, nodes);
    }

    /** Pairs of function and node: exactly the nodes reached backward through candidates, each as often as it
        arrived. */
    method FindDirectPreds(start: nat, fcns: set<nat>) returns (ret: seq<(nat, nat)>, ghost V: set<nat>)
      requires Valid() && start < |nodes|
      ensures forall id :: id in V <==> Backward(nodes, fcns, start, id)
      ensures forall e :: e in ret <==> Backward(nodes, fcns, start, e.1) && e.1 < |nodes| && nodes[e.1].fcn == e.0
      ensures forall id :: id in V ==>
                id < |nodes| && multiset(ret)[(nodes[id].fcn, id)] == Arrivals(nodes, V, start, id)
      ensures Distinct(ret) <==> forall id :: id in V ==> |Into(nodes, V, id)| <= if id == start then 0 else 1
    {
      ret, V := Search(start, fcns);
      assert Unfold(AskSeal, 0);
      QueryDone(nodes, fcns, start, V);
      assert Unfold(TallySeal, 0);
      CandidatesOnly(nodes, fcns, start, V);
      NoRepeats(nodes, start, V, ret);
    }

    method Search(start: nat, fcns: set<nat>) returns (ret: seq<(nat, nat)>, ghost V: set<nat>)
      requires Valid() && start < |nodes|
      ensures Asking(nodes, fcns, start, V, multiset{}, ret)
    {
      hide Asking, Inside;
      var visited: set<nat> := {};
      ret := [];
      var wl := new Worklist<nat>([]);
      wl.Push([start]);
      assert wl.Items() == multiset{start};
      AskStart(nodes, fcns, start);
      while !wl.Empty()
        invariant fresh(wl) && Asking(nodes, fcns, start, visited, wl.Items(), ret)
        decreases UpTo(|nodes|) - visited, |wl.Items()|
      {
        ghost var before := wl.Items();
        var id: nat := wl.Pop();
        assert id in before;
        AskInside(nodes, fcns, start, visited, before, ret, id);
        AskStep(nodes, fcns, start, visited, before, ret, id, wl.Items());
        var fcn := nodes[id].fcn;
        if fcn in fcns {
          ret := ret + [(fcn, id)];
          if id in visited {
            assert Asking(nodes, fcns, start, visited, wl.Items(), ret);
            continue;
          }
          visited := visited + {id};
          var preds := Elements(nodes[id].preds);
          ghost var after := wl.Items();
          wl.Push(preds);
          assert wl.Items() == after + multiset(nodes[id].preds);
          assert Asking(nodes, fcns, start, visited, wl.Items(), ret);
        }
      }
      V := visited;
      assert wl.Items() == multiset{};
    }
  }

  // ---- Copies ----

  /** What is in a list of call-info ids after renumbering. */
  function Remapped(ci: seq<nat>, remap: seq<nat>): (r: seq<nat>)
    requires forall k :: 0 <= k < |ci| ==> ci[k] < |remap|
    ensures |r| == |ci| && forall k :: 0 <= k < |ci| ==> r[k] == remap[ci[k]]
  {
    seq(|ci|, k requires 0 <= k < |ci| => remap[ci[k]])
  }

  predicate CiInside(nodes: seq<FcnNode>, n: nat) {
    forall i, k :: 0 <= i < |nodes| && 0 <= k < |nodes[i].ci| ==> nodes[i].ci[k] < n
  }

  /** Node i copied into a graph where the copies start at base. */
  function Copied(node: FcnNode, base: nat, remap: seq<nat>): FcnNode
    requires forall k :: 0 <= k < |node.ci| ==> node.ci[k] < |remap|
  {
    FcnNode(set p | p in node.preds :: base + p, node.fcn, Remapped(node.ci, remap))
  }

  /** nodes' is nodes followed by a copy of every node of callee. */
  ghost predicate Appended(nodes: seq<FcnNode>, callee: seq<FcnNode>, remap: seq<nat>, nodes': seq<FcnNode>)
    requires CiInside(callee, |remap|)
  {
    && |nodes'| == |nodes| + |callee|
    && (forall i :: 0 <= i < |nodes| ==> nodes'[i] == nodes[i])
    && (forall i :: 0 <= i < |callee| ==> nodes'[|nodes| + i] == Copied(callee[i], |nodes|, remap))
  }

  /** The same function, the predecessors at their new ids, and every call-info id renumbered. */
  ghost predicate IsCopy(copy: FcnNode, node: FcnNode, ids: seq<nat>, remap: seq<nat>) {
    && copy.fcn == node.fcn
    && (forall p :: p in node.preds ==> p < |ids| && ids[p] in copy.preds)
    && (forall q :: q in copy.preds ==> exists p :: p in node.preds && p < |ids| && ids[p] == q)
    && |copy.ci| == |node.ci|
    && forall k :: 0 <= k < |node.ci| ==> node.ci[k] < |remap| && copy.ci[k] == remap[node.ci[k]]
  }

  lemma AppendedMeans(nodes: seq<FcnNode>, callee: seq<FcnNode>, remap: seq<nat>, nodes': seq<FcnNode>, ids: seq<nat>)
    requires Inside(callee) && CiInside(callee, |remap|) && Appended(nodes, callee, remap, nodes')
    requires |ids| == |callee| && forall i :: 0 <= i < |ids| ==> ids[i] == |nodes| + i
    ensures nodes'[..|nodes|] == nodes
    ensures forall i :: 0 <= i < |ids| ==> ids[i] < |nodes'| && IsCopy(nodes'[ids[i]], callee[i], ids, remap)
  {
    forall i | 0 <= i < |ids| ensures IsCopy(nodes'[ids[i]], callee[i], ids, remap) {
      CopiedIsCopy(callee[i], |nodes|, ids, remap);
      assert nodes'[|nodes| + i] == Copied(callee[i], |nodes|, remap);
    }
  }

  lemma CopiedIsCopy(node: FcnNode, base: nat, ids: seq<nat>, remap: seq<nat>)
    requires forall k :: 0 <= k < |node.ci| ==> node.ci[k] < |remap|
    requires (forall p :: p in node.preds ==> p < |ids|) && forall i :: 0 <= i < |ids| ==> ids[i] == base + i
    ensures IsCopy(Copied(node, base, remap), node, ids, remap)
  {
    forall p | p in node.preds ensures ids[p] in Copied(node, base, remap).preds {
      CopiedAt(node.preds, base, ids, ids[p]);
    }
    forall q | q in Copied(node, base, remap).preds ensures exists p :: p in node.preds && p < |ids| && ids[p] == q {
      CopiedAt(node.preds, base, ids, q);
    }
  }

  lemma CopiedAt(preds: set<nat>, base: nat, ids: seq<nat>, q: nat)
    requires (forall p :: p in preds ==> p < |ids|) && forall i :: 0 <= i < |ids| ==> ids[i] == base + i
    ensures q in (set p | p in preds :: base + p) <==> exists p :: p in preds && p < |ids| && ids[p] == q
  {
    if p :| p in preds && p < |ids| && ids[p] == q {
      assert base + p == q;
    }
    if q in (set p | p in preds :: base + p) {
      var p :| p in preds && base + p == q;
      assert ids[p] == q;
    }
  }

  lemma AppendedInside(nodes: seq<FcnNode>, callee: seq<FcnNode>, remap: seq<nat>, nodes': seq<FcnNode>)
    requires Inside(nodes) && Inside(callee) && CiInside(callee, |remap|) && Appended(nodes, callee, remap, nodes')
    ensures Inside(nodes')
  {
    forall i, p | 0 <= i < |nodes'| && p in nodes'[i].preds ensures p < |nodes'| {
      if i >= |nodes| { assert nodes'[|nodes| + (i - |nodes|)] == Copied(callee[i - |nodes|], |nodes|, remap); }
    }
  }

  /** g' looks, from base on, like g. */
  ghost predicate Embedded(g: Graph, g': Graph, base: nat) {
    forall x: nat, y: nat :: x in g ==> Mirrors(g, g', base, x, y)
  }

  predicate Mirrors(g: Graph, g': Graph, base: nat, x: nat, y: nat) {
    x in g && base + x in g' && (y in g'[base + x] <==> y >= base && y - base in g[x])
  }

  lemma {:induction false} EmbeddedReach(g: Graph, g': Graph, base: nat, x: nat, y: nat, n: nat)
    requires Embedded(g, g', base) && Closed(g) && x in g
    ensures ReachIn(g', base + x, y, n) <==> y >= base && ReachIn(g, x, y - base, n)
    decreases n
  {
    assert Mirrors(g, g', base, x, y);
    if n > 0 {
      if ReachIn(g', base + x, y, n) {
        var z: nat :| z in g'[base + x] && ReachIn(g', z, y, n - 1);
        assert Mirrors(g, g', base, x, z);
        EmbeddedReach(g, g', base, z - base, y, n - 1);
      }
      if y >= base && ReachIn(g, x, y - base, n) {
        var z: nat :| z in g[x] && ReachIn(g, z, y - base, n - 1);
        EmbeddedReach(g, g', base, z, y, n - 1);
        assert Mirrors(g, g', base, x, base + z);
      }
    }
  }

  lemma EmbeddedBackward(g: Graph, g': Graph, base: nat, x: nat, y: nat)
    requires Embedded(g, g', base) && Closed(g) && x in g
    ensures Reach(g', base + x, y) <==> y >= base && Reach(g, x, y - base)
  {
    if Reach(g', base + x, y) {
      var n: nat :| ReachIn(g', base + x, y, n);
      EmbeddedReach(g, g', base, x, y, n);
    }
    if y >= base && Reach(g, x, y - base) {
      var n: nat :| ReachIn(g, x, y - base, n);
      EmbeddedReach(g, g', base, x, y, n);
    }
  }

  /** Asking the copy gives the copy of the answer. */
  lemma CopyCommutes(nodes: seq<FcnNode>, callee: seq<FcnNode>, remap: seq<nat>, nodes': seq<FcnNode>,
                     fcns: set<nat>, start: nat, y: nat)
    requires Inside(nodes) && Inside(callee) && CiInside(callee, |remap|) && Appended(nodes, callee, remap, nodes')
    requires start < |callee|
    ensures Inside(nodes')
    ensures Backward(nodes', fcns, |nodes| + start, y) <==> y >= |nodes| && Backward(callee, fcns, start, y - |nodes|)
  {
    AppendedInside(nodes, callee, remap, nodes');
    CopyEmbedded(nodes, callee, remap, nodes', fcns);
    assert nodes'[|nodes| + start].fcn == callee[start].fcn;
    SameAnswer(callee, nodes', |nodes|, fcns, start, y);
  }

  function Shifted(s: set<nat>, base: nat): set<nat> {
    set v | v in s :: base + v
  }

  lemma ShiftedMeans(s: set<nat>, base: nat, y: nat)
    ensures y in Shifted(s, base) <==> y >= base && y - base in s
  {
    if y >= base && y - base in s {
      var v: nat := y - base;
      assert base + v in Shifted(s, base);
    }
  }

  lemma {:induction false} ShiftedSize(s: set<nat>, base: nat)
    ensures |Shifted(s, base)| == |s|
  {
    if s == {} {
      assert Shifted(s, base) == {};
    } else {
      var v :| v in s;
      ShiftedSize(s - {v}, base);
      ShiftedMeans(s - {v}, base, base + v);
      forall y: nat ensures y in Shifted(s, base) <==> y in Shifted(s - {v}, base) + {base + v} {
        ShiftedMeans(s, base, y);
        ShiftedMeans(s - {v}, base, y);
      }
      assert Shifted(s, base) == Shifted(s - {v}, base) + {base + v};
    }
  }

  /** The visited nodes of the copy that precede nodes of the copy are copies of those of the original. */
  lemma CopyInto(nodes: seq<FcnNode>, callee: seq<FcnNode>, remap: seq<nat>, nodes': seq<FcnNode>,
                 V: set<nat>, V': set<nat>, y: nat)
    requires CiInside(callee, |remap|) && Appended(nodes, callee, remap, nodes')
    requires V <= UpTo(|callee|) && V' == Shifted(V, |nodes|)
    ensures Into(nodes', V', |nodes| + y) == Shifted(Into(callee, V, y), |nodes|)
  {
    hide Shifted, Appended, CiInside, Into;
    forall x: nat ensures x in Into(nodes', V', |nodes| + y) <==> x in Shifted(Into(callee, V, y), |nodes|) {
      CopyIntoAt(nodes, callee, remap, nodes', V, V', y, x);
    }
  }

  lemma CopyIntoAt(nodes: seq<FcnNode>, callee: seq<FcnNode>, remap: seq<nat>, nodes': seq<FcnNode>,
                   V: set<nat>, V': set<nat>, y: nat, x: nat)
    requires CiInside(callee, |remap|) && Appended(nodes, callee, remap, nodes')
    requires V <= UpTo(|callee|) && V' == Shifted(V, |nodes|)
    ensures x in Into(nodes', V', |nodes| + y) <==> x in Shifted(Into(callee, V, y), |nodes|)
  {
    hide Shifted, Appended, CiInside;
    ShiftedMeans(V, |nodes|, x);
    ShiftedMeans(Into(callee, V, y), |nodes|, x);
    if x >= |nodes| && x - |nodes| in V { CopiedPreds(nodes, callee, remap, nodes', x - |nodes|, y); }
  }

  lemma CopiedPreds(nodes: seq<FcnNode>, callee: seq<FcnNode>, remap: seq<nat>, nodes': seq<FcnNode>, v: nat, y: nat)
    requires CiInside(callee, |remap|) && Appended(nodes, callee, remap, nodes') && v < |callee|
    ensures |nodes| + v < |nodes'| && (|nodes| + y in nodes'[|nodes| + v].preds <==> y in callee[v].preds)
  {
    assert nodes'[|nodes| + v] == Copied(callee[v], |nodes|, remap);
  }

  /** What a query answers: the visited nodes, and each of them as often as it arrived. */
  ghost predicate Answers(nodes: seq<FcnNode>, fcns: set<nat>, start: nat, V: set<nat>, ret: seq<(nat, nat)>)
    requires Inside(nodes) && start < |nodes|
  {
    && (forall id :: id in V <==> Backward(nodes, fcns, start, id))
    && (forall e :: e in ret ==> e.1 in V && e.1 < |nodes| && nodes[e.1].fcn == e.0)
    && forall id :: id in V ==>
         id < |nodes| && multiset(ret)[(nodes[id].fcn, id)] == Arrivals(nodes, V, start, id)
  }

  /** A query of the copy reports the copy of every pair as often as a query of the original reports the pair, and
      nothing else. */
  lemma CopyAnswers(nodes: seq<FcnNode>, callee: seq<FcnNode>, remap: seq<nat>, nodes': seq<FcnNode>,
                    fcns: set<nat>, start: nat, V: set<nat>, ret: seq<(nat, nat)>, V': set<nat>,
                    ret': seq<(nat, nat)>, fcn: nat, y: nat)
    requires Inside(nodes) && Inside(callee) && CiInside(callee, |remap|) && Appended(nodes, callee, remap, nodes')
    requires start < |callee| && Inside(nodes')
    requires Answers(callee, fcns, start, V, ret) && Answers(nodes', fcns, |nodes| + start, V', ret')
    ensures V' == Shifted(V, |nodes|)
    ensures Arrivals(nodes', V', |nodes| + start, |nodes| + y) == Arrivals(callee, V, start, y)
    ensures multiset(ret')[(fcn, |nodes| + y)] == multiset(ret)[(fcn, y)]
    ensures y < |nodes| ==> (fcn, y) !in ret'
  {
    hide Backward, Shifted, Into;
    var base := |nodes|;
    forall v: nat ensures v in V' <==> v >= base && v - base in V {
      CopyCommutes(nodes, callee, remap, nodes', fcns, start, v);
    }
    forall v: nat ensures v in V' <==> v in Shifted(V, base) { ShiftedMeans(V, base, v); }
    CopyInto(nodes, callee, remap, nodes', V, V', y);
    ShiftedSize(Into(callee, V, y), base);
    if y in V {
      assert nodes'[base + y].fcn == callee[y].fcn;
      if fcn != callee[y].fcn {
        assert (fcn, y) !in ret && (fcn, base + y) !in ret';
      }
    } else {
      assert (fcn, y) !in ret && (fcn, base + y) !in ret';
    }
  }

  /** The old nodes answer as before. */
  lemma OldAnswers(nodes: seq<FcnNode>, nodes': seq<FcnNode>, fcns: set<nat>, start: nat, y: nat)
    requires Inside(nodes') && Inside(nodes) && |nodes| <= |nodes'|
    requires forall i :: 0 <= i < |nodes| ==> nodes'[i] == nodes[i]
    requires start < |nodes|
    ensures Backward(nodes', fcns, start, y) <==> Backward(nodes, fcns, start, y)
  {
    OldEmbedded(nodes, nodes', fcns);
    SameAnswer(nodes, nodes', 0, fcns, start, y);
  }

  /** So a query of an old node reports the same pairs, each as often. */
  lemma OldAnswersAsOften(nodes: seq<FcnNode>, nodes': seq<FcnNode>, fcns: set<nat>, start: nat,
                          V: set<nat>, ret: seq<(nat, nat)>, V': set<nat>, ret': seq<(nat, nat)>)
    requires Inside(nodes') && Inside(nodes) && |nodes| <= |nodes'| && start < |nodes|
    requires forall i :: 0 <= i < |nodes| ==> nodes'[i] == nodes[i]
    requires Answers(nodes, fcns, start, V, ret) && Answers(nodes', fcns, start, V', ret')
    ensures V' == V && multiset(ret') == multiset(ret)
  {
    hide Backward;
    forall v: nat ensures v in V' <==> v in V { OldAnswers(nodes, nodes', fcns, start, v); }
    assert V' == V;
    forall e: (nat, nat) ensures multiset(ret')[e] == multiset(ret)[e] {
      if e.1 in V {
        assert Into(nodes', V, e.1) == Into(nodes, V, e.1);
        if e.0 != nodes[e.1].fcn { assert e !in ret && e !in ret'; }
      } else {
        assert e !in ret && e !in ret';
      }
    }
  }

  lemma SameAnswer(nodes: seq<FcnNode>, nodes': seq<FcnNode>, base: nat, fcns: set<nat>, start: nat, y: nat)
    requires Inside(nodes) && Inside(nodes') && start < |nodes| && base + start < |nodes'|
    requires Embedded(CandidatePreds(nodes, fcns), CandidatePreds(nodes', fcns), base)
        && nodes'[base + start].fcn == nodes[start].fcn
    ensures Backward(nodes', fcns, base + start, y) <==> y >= base && Backward(nodes, fcns, start, y - base)
  {
    EmbeddedBackward(CandidatePreds(nodes, fcns), CandidatePreds(nodes', fcns), base, start, y);
  }

  lemma CopyEmbedded(nodes: seq<FcnNode>, callee: seq<FcnNode>, remap: seq<nat>, nodes': seq<FcnNode>, fcns: set<nat>)
    requires Inside(nodes') && Inside(callee) && CiInside(callee, |remap|) && Appended(nodes, callee, remap, nodes')
    ensures Embedded(CandidatePreds(callee, fcns), CandidatePreds(nodes', fcns), |nodes|)
  {
    var g, g' := CandidatePreds(callee, fcns), CandidatePreds(nodes', fcns);
    forall x: nat, y: nat | x in g ensures Mirrors(g, g', |nodes|, x, y) {
      assert nodes'[|nodes| + x] == Copied(callee[x], |nodes|, remap);
      if y >= |nodes| && y - |nodes| < |callee| {
        assert nodes'[|nodes| + (y - |nodes|)].fcn == callee[y - |nodes|].fcn;
      }
    }
  }

  lemma OldEmbedded(nodes: seq<FcnNode>, nodes': seq<FcnNode>, fcns: set<nat>)
    requires Inside(nodes') && Inside(nodes) && |nodes| <= |nodes'|
    requires forall i :: 0 <= i < |nodes| ==> nodes'[i] == nodes[i]
    ensures Embedded(CandidatePreds(nodes, fcns), CandidatePreds(nodes', fcns), 0)
  {
  }

  /** The members of a set, each once. */
  method Elements(s: set<nat>) returns (xs: seq<nat>)
    ensures multiset(xs) == multiset(s)
  {
    xs := [];
    var left := s;
    while left != {}
      invariant left <= s && multiset(xs) + multiset(left) == multiset(s)
    {
      var x :| x in left;
      xs := xs + [x];
      left := left - {x};
    }
  }

  lemma CandidatesOnly(nodes: seq<FcnNode>, fcns: set<nat>, start: nat, V: set<nat>)
    requires Inside(nodes) && start < |nodes| && Query(nodes, fcns, start, V, multiset{})
    ensures forall id :: id in V ==> id < |nodes| && nodes[id].fcn in fcns
  {
    SearchBounded(CandidatePreds(nodes, fcns), Roots(nodes, fcns, start), Candidates(nodes, fcns), V, multiset{});
  }
}
