/** The optimization graph: predecessor lists and label sets on union-find representatives. */
module CgOpt {
  import opened Seals
  import opened Condensation
  import UF = UnionFind

  datatype OptNode = OptNode(preds: seq<nat>, indirect: bool, ref: bool, ptsto: set<int>, implEdges: set<nat>) {
    /** What is left of the receiver after rhs's data has been moved into it. */
    function Unite(rhs: OptNode): OptNode {
      OptNode(preds + rhs.preds, indirect || rhs.indirect, ref, ptsto + rhs.ptsto, implEdges + rhs.implEdges)
    }
    /** What is left of a node that has been moved out of. */
    function Emptied(): OptNode {
      OptNode([], indirect, ref, {}, {})
    }
    predicate Empty() {
      preds == [] && ptsto == {} && implEdges == {}
    }
  }

  function PredLists(nodes: seq<OptNode>): (P: seq<seq<nat>>)
    ensures |P| == |nodes|
  {
    seq(|nodes|, i requires 0 <= i < |nodes| => nodes[i].preds)
  }

  function Elems(xs: seq<nat>): set<nat> {
    set p | p in xs
  }

  function PredSets(nodes: seq<OptNode>): (P: seq<set<nat>>)
    ensures |P| == |nodes|
  {
    seq(|nodes|, i requires 0 <= i < |nodes| => Elems(nodes[i].preds))
  }

  function PtstoSets(nodes: seq<OptNode>): (P: seq<set<int>>)
    ensures |P| == |nodes|
  {
    seq(|nodes|, i requires 0 <= i < |nodes| => nodes[i].ptsto)
  }

  function ImplEdgeSets(nodes: seq<OptNode>): (P: seq<set<nat>>)
    ensures |P| == |nodes|
  {
    seq(|nodes|, i requires 0 <= i < |nodes| => nodes[i].implEdges)
  }

  /** nodes after everything in gone has moved to kept. */
  function United(nodes: seq<OptNode>, kept: nat, gone: nat): seq<OptNode>
    requires kept < |nodes| && gone < |nodes|
  {
    nodes[kept := nodes[kept].Unite(nodes[gone])][gone := nodes[gone].Emptied()]
  }

  /** What kept has and what gone has left, field by field; the mark ref does not move. */
  lemma UnitedFields(nodes: seq<OptNode>, kept: nat, gone: nat)
    requires kept < |nodes| && gone < |nodes| && kept != gone
    ensures var nodes' := United(nodes, kept, gone);
            && |nodes'| == |nodes|
            && (forall i :: 0 <= i < |nodes| && i != kept && i != gone ==> nodes'[i] == nodes[i])
            && nodes'[gone] == nodes[gone].(preds := [], ptsto := {}, implEdges := {})
            && nodes'[kept].preds == nodes[kept].preds + nodes[gone].preds
            && nodes'[kept].ptsto == nodes[kept].ptsto + nodes[gone].ptsto
            && nodes'[kept].implEdges == nodes[kept].implEdges + nodes[gone].implEdges
            && (nodes'[kept].indirect <==> nodes[kept].indirect || nodes[gone].indirect)
            && (nodes'[kept].ref <==> nodes[kept].ref)
  {
  }

  /** All data sits on the representatives, each holding what its members were given in nodes0.  A node
      that represents nothing may keep its flag, which its class then has too.  The marks ref have not moved. */
  ghost predicate Gathered(R: seq<int>, nodes0: seq<OptNode>, nodes: seq<OptNode>) {
    forall k {:trigger Unfold(GatherSeal, k)} :: Unfold(GatherSeal, k) ==>
    && Collected(R, PredSets(nodes0), PredSets(nodes))
    && Collected(R, PtstoSets(nodes0), PtstoSets(nodes))
    && Collected(R, ImplEdgeSets(nodes0), ImplEdgeSets(nodes))
    && (forall i :: 0 <= i < |R| && R[i] == i ==> (nodes[i].indirect <==> GivenIndirect(R, nodes0, i)))
    && FlagsPassed(R, nodes)
    && forall i :: 0 <= i < |R| ==> (nodes[i].ref <==> nodes0[i].ref)
  }

  /** A node's flag has been given to its class. */
  ghost predicate FlagsPassed(R: seq<int>, nodes: seq<OptNode>)
    requires |nodes| == |R|
  {
    forall i :: 0 <= i < |R| && 0 <= R[i] < |R| && nodes[i].indirect ==> nodes[R[i]].indirect
  }

  ghost predicate GivenIndirect(R: seq<int>, nodes0: seq<OptNode>, i: int)
    requires |nodes0| == |R|
  {
    exists u :: 0 <= u < |R| && R[u] == i && nodes0[u].indirect
  }

  lemma GatheredMerge(R: seq<int>, nodes0: seq<OptNode>, nodes: seq<OptNode>, kept: nat, gone: nat)
    requires |nodes0| == |R| == |nodes| && Gathered(R, nodes0, nodes) && kept < |R| && gone < |R| && kept != gone
    requires R[kept] == kept && R[gone] == gone
    ensures Gathered(Redirect(R, {kept, gone}, kept), nodes0, United(nodes, kept, gone))
  {
    assert Unfold(GatherSeal, 0);
    var nodes' := United(nodes, kept, gone);
    var R' := Redirect(R, {kept, gone}, kept);
    assert Elems(nodes[kept].preds + nodes[gone].preds) == Elems(nodes[kept].preds) + Elems(nodes[gone].preds);
    assert Elems([]) == {};
    assert PredSets(nodes') == PredSets(nodes)[kept := PredSets(nodes)[kept] + PredSets(nodes)[gone]][gone := {}];
    CollectedMerge(R, PredSets(nodes0), PredSets(nodes), PredSets(nodes'), kept, gone);
    assert PtstoSets(nodes') == PtstoSets(nodes)[kept := PtstoSets(nodes)[kept] + PtstoSets(nodes)[gone]][gone := {}];
    CollectedMerge(R, PtstoSets(nodes0), PtstoSets(nodes), PtstoSets(nodes'), kept, gone);
    var I := ImplEdgeSets(nodes);
    assert ImplEdgeSets(nodes') == I[kept := I[kept] + I[gone]][gone := {}];
    CollectedMerge(R, ImplEdgeSets(nodes0), ImplEdgeSets(nodes), ImplEdgeSets(nodes'), kept, gone);
    GatheredIndirect(R, nodes0, nodes, kept, gone);
  }

  lemma GatheredIndirect(R: seq<int>, nodes0: seq<OptNode>, nodes: seq<OptNode>, kept: nat, gone: nat)
    requires |nodes0| == |R| && |nodes| == |R| && kept < |R| && gone < |R| && kept != gone
    requires R[kept] == kept && R[gone] == gone
    requires forall i :: 0 <= i < |R| && R[i] == i ==> (nodes[i].indirect <==> GivenIndirect(R, nodes0, i))
    ensures var R' := Redirect(R, {kept, gone}, kept);
            forall i :: 0 <= i < |R| && R'[i] == i ==>
              (United(nodes, kept, gone)[i].indirect <==> GivenIndirect(R', nodes0, i))
  {
    var R' := Redirect(R, {kept, gone}, kept);
    forall i | 0 <= i < |R| && R'[i] == i
      ensures United(nodes, kept, gone)[i].indirect <==> GivenIndirect(R', nodes0, i)
    {
      if i == kept {
        assert GivenIndirect(R', nodes0, kept) <==> GivenIndirect(R, nodes0, kept) || GivenIndirect(R, nodes0, gone);
      } else {
        assert GivenIndirect(R', nodes0, i) <==> GivenIndirect(R, nodes0, i);
      }
    }
  }

  lemma JoinedIsRedirect(R: seq<nat>, a: nat, b: nat, w: nat)
    ensures UF.Joined(R, a, b, w) == Redirect(R, {a, b}, w)
  {
  }

  /** The node a merge leaves the data on: the new representative is compared with lhs itself. */
  function Keeper(lhs: nat, lhsRep: nat, rhsRep: nat, rep: nat): nat {
    if rep == lhs then lhsRep else rhsRep
  }

  class OptGraph {
    var nodes: seq<OptNode>
    const reps: UF.UnionFind

    ghost predicate Valid()
      reads this, reps
    {
      reps.Valid() && |nodes| == |reps.ids|
    }

    ghost function Reps(): (R: seq<int>)
      reads this, reps
      requires Valid()
      ensures |R| == |nodes|
    {
      reps.Reps()
    }

    constructor ()
      ensures Valid() && nodes == [] && fresh(reps)
    {
      nodes := [];
      reps := new UF.UnionFind(0);
    }

    method AddNode() returns (id: nat)
      requires Valid()
      modifies this, reps
      ensures Valid() && id == |old(nodes)|
      ensures nodes == old(nodes) + [OptNode([], false, false, {}, {})]
      ensures Reps() == old(Reps()) + [id]
    {
      id := |nodes|;
      nodes := nodes + [OptNode([], false, false, {}, {})];
      var repId := reps.Add();
      assert repId == id;
    }

    method GetRep(id: nat) returns (r: nat)
      requires Valid() && id < |nodes|
      modifies reps`ids
      ensures Valid() && Reps() == old(Reps()) && r == Reps()[id]
    {
      r := reps.Find(id);
    }

    method Merge(lhs: nat, rhs: nat) returns (rep: nat)
      requires Valid() && lhs < |nodes| && rhs < |nodes|
      modifies this, reps
      ensures Valid() && |nodes| == |old(nodes)|
      ensures old(Reps()[lhs] == Reps()[rhs]) ==>
                rep == old(Reps())[lhs] && nodes == old(nodes) && Reps() == old(Reps())
      ensures old(Reps()[lhs] != Reps()[rhs]) ==>
                var a, b := old(reps.Reps())[lhs], old(reps.Reps())[rhs];
                && rep == UF.Winner(old(reps.ranks), a, b)
                && Reps() == Redirect(old(Reps()), {a, b}, rep)
                && nodes == if rep == lhs then United(old(nodes), a, b) else United(old(nodes), b, a)
    {
      var lhsRep := GetRep(lhs);
      var rhsRep := GetRep(rhs);
      if lhsRep == rhsRep {
        return lhsRep;
      }
      reps.Merge(lhsRep, rhsRep);
      rep := GetRep(lhsRep);
      JoinedIsRedirect(old(reps.Reps()), lhsRep, rhsRep, UF.Winner(old(reps.ranks), lhsRep, rhsRep));
      if rep == lhs {
        nodes := United(nodes, lhsRep, rhsRep);
      } else {
        nodes := United(nodes, rhsRep, lhsRep);
      }
    }
  }

  /** With the data on the losing node, its class is not empty-handed only if there was nothing to lose. */
  lemma GatheredOnLoser(R: seq<int>, nodes0: seq<OptNode>, nodes: seq<OptNode>, w: nat, l: nat)
    requires |nodes0| == |R| == |nodes| && Gathered(R, nodes0, nodes) && w < |R| && l < |R| && w != l
    requires R[w] == w && R[l] == l
    ensures Gathered(Redirect(R, {w, l}, w), nodes0, United(nodes, l, w))
            <==> nodes[w].Empty() && nodes[l].Empty() && (nodes[l].indirect ==> nodes[w].indirect)
  {
    var R', nodes' := Redirect(R, {w, l}, w), United(nodes, l, w);
    if Gathered(R', nodes0, nodes') {
      NothingOnLoser(R', nodes0, nodes', l);
      assert nodes[w].Empty() && nodes[l].Empty();
      assert Unfold(GatherSeal, 0);
      assert R'[l] == w;
    }
    if nodes[w].Empty() && nodes[l].Empty() && (nodes[l].indirect ==> nodes[w].indirect) {
      GatheredMerge(R, nodes0, nodes, w, l);
      SameGathered(R', nodes0, United(nodes, w, l), nodes', l);
    }
  }

  lemma NothingOnLoser(R: seq<int>, nodes0: seq<OptNode>, nodes: seq<OptNode>, l: nat)
    requires |nodes0| == |R| == |nodes| && Gathered(R, nodes0, nodes) && l < |R|
    requires forall i :: 0 <= i < |R| ==> R[i] != l
    ensures nodes[l].Empty()
  {
    assert Unfold(GatherSeal, 0);
    NothingGiven(R, PredSets(nodes0), PredSets(nodes), l);
    NothingGiven(R, PtstoSets(nodes0), PtstoSets(nodes), l);
    NothingGiven(R, ImplEdgeSets(nodes0), ImplEdgeSets(nodes), l);
    assert PredSets(nodes)[l] == Elems(nodes[l].preds);
    NoElems(nodes[l].preds);
  }

  lemma NoElems(xs: seq<nat>)
    ensures Elems(xs) == {} <==> xs == []
  {
    if xs != [] { assert xs[0] in Elems(xs); }
  }

  /** Only the flag of a node that represents nothing may differ. */
  lemma SameGathered(R: seq<int>, nodes0: seq<OptNode>, nodes: seq<OptNode>, nodes': seq<OptNode>, l: nat)
    requires |nodes0| == |R| == |nodes| == |nodes'| && Gathered(R, nodes0, nodes) && l < |R|
    requires forall i :: 0 <= i < |R| ==> R[i] != l
    requires forall i :: 0 <= i < |R| && i != l ==> nodes'[i] == nodes[i]
    requires nodes[l].Empty() && nodes'[l].Empty() && nodes'[l].ref == nodes[l].ref
    requires 0 <= R[l] < |R| && (nodes'[l].indirect ==> nodes'[R[l]].indirect)
    ensures Gathered(R, nodes0, nodes')
  {
    assert Unfold(GatherSeal, 0);
    assert PredSets(nodes') == PredSets(nodes);
    assert PtstoSets(nodes') == PtstoSets(nodes);
    assert ImplEdgeSets(nodes') == ImplEdgeSets(nodes);
  }

  /**
   * After merging two classes with representatives a and b, lhs in the first: the representatives
   * still hold the data of their classes exactly when lhs is itself a representative, the second
   * class has the higher rank, or there was nothing to move but a flag that the winner has.
   */
  lemma MergeKeepsDataOnRep(R: seq<nat>, ranks: seq<nat>, nodes0: seq<OptNode>, nodes: seq<OptNode>,
                            lhs: nat, a: nat, b: nat)
    requires |nodes0| == |R| == |nodes| == |ranks| && Gathered(R, nodes0, nodes) && lhs < |R|
    requires a < |R| && b < |R| && a != b && R[a] == a && R[b] == b && R[lhs] == a
    ensures var w := UF.Winner(ranks, a, b);
            var l := if w == a then b else a;
            Gathered(Redirect(R, {a, b}, w), nodes0, United(nodes, Keeper(lhs, a, b, w), Keeper(lhs, b, a, w)))
            <==> lhs == a || ranks[a] < ranks[b]
                 || (nodes[a].Empty() && nodes[b].Empty() && (nodes[l].indirect ==> nodes[w].indirect))
  {
    var w := UF.Winner(ranks, a, b);
    var l := if w == a then b else a;
    assert {w, l} == {a, b};
    if lhs == a || ranks[a] < ranks[b] {
      GatheredMerge(R, nodes0, nodes, w, l);
    } else {
      GatheredOnLoser(R, nodes0, nodes, w, l);
    }
  }

  lemma GatheredFirst(R: seq<int>, nodes: seq<OptNode>)
    requires RepsOK(R) && |nodes| == |R| && FlagsPassed(R, nodes)
    requires forall i :: 0 <= i < |R| ==> R[i] != -1 && (R[i] != i ==> nodes[i].Empty())
    ensures Gathered(R, nodes, nodes)
  {
    NoElems([]);
    CollectedAtStart(R, PredSets(nodes));
    CollectedAtStart(R, PtstoSets(nodes));
    CollectedAtStart(R, ImplEdgeSets(nodes));
  }

  /** Id 1 stands for class 0, which points to 7.  Merging it with 2 keeps 0 as the representative and takes its
      data away. */
  lemma RepLosesData()
    ensures var nodes := [OptNode([], false, false, {7}, {}), OptNode([], false, false, {}, {}),
                          OptNode([], false, false, {}, {})];
            var w := UF.Winner([1, 0, 0], 0, 2);
            var nodes' := United(nodes, Keeper(1, 0, 2, w), Keeper(1, 2, 0, w));
            && Gathered([0, 0, 2], nodes, nodes)
            && w == 0 && nodes'[w].ptsto == {} && nodes'[2].ptsto == {7}
            && !Gathered(Redirect([0, 0, 2], {0, 2}, w), nodes, nodes')
  {
    hide Gathered;
    var nodes := [OptNode([], false, false, {7}, {}), OptNode([], false, false, {}, {}),
                  OptNode([], false, false, {}, {})];
    var R: seq<nat> := [0, 0, 2];
    assert Gathered(R, nodes, nodes) by { GatheredFirst(R, nodes); }
    assert 7 in nodes[0].ptsto;
    MergeKeepsDataOnRep(R, [1, 0, 0], nodes, nodes, 1, 0, 2);
  }
}
