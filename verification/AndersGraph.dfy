/** The Andersen constraint graph: nodes with points-to sets and edges, on union-find representatives. */
module AndersGraphs {
  import opened Basics
  import opened AndersFacts
  import opened AndersRuns
  import opened ConstraintKinds
  import opened Deliveries
  import opened Seals
  import UF = UnionFind

  class AndersNode {
    const id: nat
    var constraints: seq<Constraint>
    var copySuccs: set<nat>
    var gepSuccs: seq<(nat, int)>
    var indirCalls: seq<IndirCall>
    var ptsto: set<nat>
    var oldPtsto: set<nat>
    ghost var delivered: seq<set<nat>>  // what getUpdateSet returned since oldPtsto was last cleared

    ghost predicate Valid()
      reads this
    {
      oldPtsto <= ptsto && OnceEach(delivered, oldPtsto)
    }

    /** The part that merging moves. */
    function Data(): Data
      reads this
    {
      AndersFacts.Data(ptsto, copySuccs, gepSuccs, constraints)
    }

    constructor (id: nat)
      ensures Valid() && this.id == id && Data() == NO_DATA && indirCalls == [] && delivered == []
    {
      this.id := id;
      constraints, copySuccs, gepSuccs, indirCalls, ptsto, oldPtsto := [], {}, [], [], {}, {};
      delivered := [];
    }

    method ClearOldPtsto()
      requires Valid()
      modifies `oldPtsto, `delivered
      ensures Valid() && delivered == []
    {
      oldPtsto, delivered := {}, [];
    }

    /** Everything in the points-to set that has not been returned since oldPtsto was cleared. */
    method GetUpdateSet() returns (ret: set<nat>)
      requires Valid()
      modifies `oldPtsto, `delivered
      ensures Valid() && ret == ptsto - Sent(old(delivered))
      ensures delivered == old(delivered) + [ret] && OnceEach(delivered, ptsto)
    {
      hide OnceEach, OfRun;
      OnceEachSent(delivered, oldPtsto);
      DeliverNew(delivered, oldPtsto, ptsto);
      if oldPtsto == ptsto {
        ret := {};
      } else {
        ret := ptsto - oldPtsto;
        oldPtsto := ptsto;
      }
      assert ret == ptsto - old(oldPtsto);
      delivered := delivered + [ret];
    }

    method AddCopyEdge(dest: nat) returns (ret: bool)
      modifies `copySuccs
      ensures var ok := id > 1 && dest > 1 && id != dest;
              && copySuccs == (if ok then old(copySuccs) + {dest} else old(copySuccs))
              && (ret <==> copySuccs != old(copySuccs))
    {
      ret := false;
      if id != INT_VALUE && dest != INT_VALUE && id != NULL_VALUE && dest != NULL_VALUE && id != dest {
        ret := dest !in copySuccs;
        copySuccs := copySuccs + {dest};
      }
    }

    /** Edges to a whole points-to set, given in ascending order. Unlike AddCopyEdge it looks at the targets only. */
    method AddCopyEdges(pts: seq<nat>) returns (ret: bool)
      requires forall j, k :: 0 <= j < k < |pts| ==> pts[j] < pts[k]
      modifies `copySuccs
      ensures copySuccs == old(copySuccs) + Targets(pts)
      ensures forall t :: t in copySuccs <==> t in old(copySuccs) || (t in pts && t > 1)
      ensures ret <==> copySuccs != old(copySuccs)
    {
      var begin := 0;
      while begin != |pts| && pts[begin] < 2
        invariant begin <= |pts| && forall k :: 0 <= k < begin ==> pts[k] < 2
      {
        begin := begin + 1;
      }
      assert forall k :: begin <= k < |pts| ==> pts[k] >= 2;
      var added := set x | x in pts[begin..];
      assert added == Targets(pts);
      ret := !(added <= copySuccs);
      copySuccs := copySuccs + added;
    }

    method AddCons(c: Constraint)
      modifies `constraints
      ensures constraints == old(constraints) + [c]
    {
      constraints := constraints + [c];
    }

    method AddSucc(obj: nat, offs: int) returns (ret: bool)
      modifies `copySuccs, `gepSuccs
      ensures Data() == Told(old(Data()), if offs == 0 then Succ(obj) else Gep((obj, offs)))
      ensures ret <==> offs != 0 || obj !in old(copySuccs)
    {
      if offs == 0 {
        ret := obj !in copySuccs;
        copySuccs := copySuccs + {obj};
      } else {
        gepSuccs := gepSuccs + [(obj, offs)];
        ret := true;
      }
    }

    /** The switch over the kind of constraint. */
    method AddConstraint(c: Constraint)
      requires Valid()
      modifies `constraints, `ptsto, `copySuccs, `gepSuccs
      ensures Valid() && Data() == Told(old(Data()), EventOf(c).fact)
    {
      hide OnceEach, OfRun;
      match c.ctype {
        case Load => AddCons(c);
        case Store => AddCons(c);
        case AddressOf => ptsto := ptsto + {c.src};
        case Copy => var _ := AddSucc(c.dest, c.offs);
      }
    }

    method AddIndirCall(call: IndirCall)
      modifies `indirCalls
      ensures indirCalls == old(indirCalls) + [call]
    {
      indirCalls := indirCalls + [call];
    }

    /** Takes over everything but the indirect calls, and will deliver the whole points-to set anew. */
    method Merge(rhs: AndersNode)
      requires rhs != this && Valid() && rhs.Valid()
      modifies this, rhs
      ensures Valid() && rhs.Valid()
      ensures Data() == Merged(old(Data()), old(rhs.Data())) && rhs.Data() == NO_DATA
      ensures ptsto == old(ptsto) + old(rhs.ptsto) && copySuccs == old(copySuccs) + old(rhs.copySuccs)
      ensures gepSuccs == old(gepSuccs) + old(rhs.gepSuccs) && constraints == old(constraints) + old(rhs.constraints)
      ensures delivered == [] && rhs.delivered == []
      ensures indirCalls == old(indirCalls) && rhs.indirCalls == old(rhs.indirCalls)
    {
      constraints := constraints + rhs.constraints;
      rhs.constraints := [];
      copySuccs := copySuccs + rhs.copySuccs;
      gepSuccs := gepSuccs + rhs.gepSuccs;
      ptsto := ptsto + rhs.ptsto;
      oldPtsto := {};
      rhs.ptsto, rhs.oldPtsto, rhs.copySuccs, rhs.gepSuccs := {}, {}, {}, [];
      delivered, rhs.delivered := [], [];
    }
  }

  // ---- The run so far ----

  /** w is the outcome of the steps ss. */
  ghost predicate OfRun(w: World, ss: seq<Step>) {
    forall k {:trigger Unfold(TraceSeal, k)} :: Unfold(TraceSeal, k) ==>
      Possible(0, ss) && Ran(ss) == w
  }

  lemma OfRunShape(w: World, ss: seq<Step>)
    requires OfRun(w, ss)
    ensures Shaped(w)
  {
    assert Unfold(TraceSeal, 0);
  }

  lemma OfRunStep(w: World, ss: seq<Step>, s: Step)
    requires OfRun(w, ss) && Shaped(w) && Allowed(|w.R|, s)
    ensures OfRun(Next(w, s), ss + [s])
  {
    assert Possible(0, ss) && Ran(ss) == w by { assert Unfold(TraceSeal, 0); }
    RunMore(ss, s);
  }

  lemma OfRunEmpty(w: World)
    requires |w.R| == |w.ranks| == |w.N| == |w.log| == |w.C| == |w.D| == 0
    ensures OfRun(w, [])
  {
    RunNone();
    assert w == World([], [], [], [], [], []);
  }

  lemma OfRunStart(n: nat)
    ensures OfRun(World(Ids(0, n), Zeros(n), Blank(n), [], NoCalls(n), NoDeliveries(n)), GrowSteps(n))
  {
    RunNone();
    GrowsRun([], n);
    assert [] + GrowSteps(n) == GrowSteps(n);
    assert [] + Ids(0, n) == Ids(0, n) && [] + Zeros(n) == Zeros(n) && [] + Blank(n) == Blank(n);
    assert [] + NoCalls(n) == NoCalls(n) && [] + NoDeliveries(n) == NoDeliveries(n);
  }

  // ---- The graph ----

  class AndersGraph {
    var nodes: seq<AndersNode>
    var reps: UF.UnionFind
    var prevCons: nat
    var prevIndirCons: nat
    ghost var log: seq<Event>   // everything the nodes were told, by the id it was told to
    ghost var steps: seq<Step>  // the run so far

    ghost predicate Shape()
      reads `reps, `nodes, reps, nodes
    {
      && reps.Valid() && |nodes| == |reps.ids|
      && (forall i :: 0 <= i < |nodes| ==> nodes[i].id == i && nodes[i].Valid())
    }

    ghost predicate Valid()
      reads `reps, `nodes, `log, `steps, reps, nodes
    {
      Shape() && OfRun(Now(), steps)
    }

    ghost function Now(): World
      requires Shape()
      reads `reps, `nodes, `log, reps, nodes
    {
      World(reps.Reps(), reps.ranks, Datas(), log, IndirCalls(), Delivered())
    }

    ghost function Reps(): (R: seq<nat>)
      requires Shape()
      reads `reps, `nodes, reps, nodes
      ensures |R| == |nodes|
    {
      reps.Reps()
    }

    ghost function Datas(): (D: seq<Data>)
      reads `nodes, nodes
      ensures |D| == |nodes| && forall i {:trigger D[i]} :: 0 <= i < |nodes| ==> D[i] == nodes[i].Data()
    {
      var ns := nodes;
      seq(|ns|, i requires 0 <= i < |ns| reads ns => ns[i].Data())
    }

    ghost function IndirCalls(): (C: seq<seq<IndirCall>>)
      reads `nodes, nodes
      ensures |C| == |nodes| && forall i {:trigger C[i]} :: 0 <= i < |nodes| ==> C[i] == nodes[i].indirCalls
    {
      var ns := nodes;
      seq(|ns|, i requires 0 <= i < |ns| reads ns => ns[i].indirCalls)
    }

    /** What each node has delivered since it last started anew. */
    ghost function Delivered(): (D: seq<seq<set<nat>>>)
      reads `nodes, nodes
      ensures |D| == |nodes| && forall i {:trigger D[i]} :: 0 <= i < |nodes| ==> D[i] == nodes[i].delivered
    {
      var ns := nodes;
      seq(|ns|, i requires 0 <= i < |ns| reads ns => ns[i].delivered)
    }

    constructor ()
      ensures Valid() && nodes == [] && prevCons == 0 && prevIndirCons == 0 && log == [] && steps == [] && fresh(reps)
    {
      nodes, prevCons, prevIndirCons, log, steps := [], 0, 0, [], [];
      reps := new UF.UnionFind(0);
      new;
      hide OnceEach, OfRun, UF.Forest;
      assert |nodes| == 0 && |reps.ids| == 0 && |reps.ranks| == 0;
      EmptyValid();
    }

    lemma EmptyValid()
      requires Shape() && nodes == [] && |reps.ranks| == 0 && log == [] && steps == []
      ensures Valid()
    {
      hide OnceEach, OfRun, UF.Forest;
      OfRunEmpty(Now());
    }

    method GetNode(id: nat) returns (node: AndersNode)
      requires Shape() && id < |nodes|
      modifies reps`ids
      ensures Shape() && Now() == old(Now())
      ensures Reps()[id] < |nodes| && node == nodes[Reps()[id]]
    {
      hide OnceEach, OfRun;
      var rep := reps.Find(id);
      node := nodes[rep];
      assert Datas() == old(Datas()) && IndirCalls() == old(IndirCalls()) && Delivered() == old(Delivered());
    }

    /** Adds the fact that a constraint states to the representative of its owner; None for an ignored constraint. */
    method AddConstraint(c: Constraint) returns (ret: Option<nat>)
      requires Valid() && c.src < |nodes| && c.dest < |nodes|
      modifies reps`ids, nodes, `log, `steps
      ensures Valid() && Reps() == old(Reps()) && IndirCalls() == old(IndirCalls())
      ensures steps == old(steps) + [Add(c)] && Now() == Next(old(Now()), Add(c))
      ensures log == old(log) + (if Ignored(c) then [] else [EventOf(c)])
      ensures c.dest == 0 || (c.src == 0 && c.ctype != Copy) ==> ret == None
      ensures !(c.dest == 0 || (c.src == 0 && c.ctype != Copy)) ==>
                ret == Some(old(Reps())[if c.ctype in {Copy, Load} then c.src else c.dest])
      ensures Inside(Reps(), |nodes|) && Datas() == ToldOne(Reps(), old(Datas()), c)
      ensures Delivered() == old(Delivered())
    {
      hide OnceEach, OfRun, Next, Shaped, UF.Forest, ToldOne;
      ghost var w := Now();
      OfRunShape(w, steps);
      assert Inside(w.R, |nodes|) by { ShapedInside(w); }
      OfRunStep(w, steps, Add(c));
      AddRun(w, c);
      ret := TellUnlessIgnored(c);
      log, steps := Next(w, Add(c)).log, steps + [Add(c)];
      assert Now() == Next(w, Add(c));
    }

    /** The work of AddConstraint. */
    method TellUnlessIgnored(c: Constraint) returns (ret: Option<nat>)
      requires Shape() && c.src < |nodes| && c.dest < |nodes| && Inside(Reps(), |nodes|)
      modifies reps`ids, nodes
      ensures Shape() && Reps() == old(Reps()) && reps.ranks == old(reps.ranks)
      ensures IndirCalls() == old(IndirCalls()) && Delivered() == old(Delivered())
      ensures ret == if Ignored(c) then None else Some(old(Reps())[EventOf(c).owner])
      ensures Datas() == ToldOne(Reps(), old(Datas()), c)
    {
      hide OnceEach, OfRun, UF.Forest, Told;
      if c.ctype != Copy && (c.src == NULL_VALUE || c.dest == NULL_VALUE) {
        return None;
      }
      if c.ctype == Copy && c.dest == NULL_VALUE {
        return None;
      }
      var id := Tell(c);
      ret := Some(id);
    }

    method Tell(c: Constraint) returns (id: nat)
      requires Shape() && EventOf(c).owner < |nodes|
      modifies reps`ids, nodes
      ensures Shape() && Reps() == old(Reps()) && reps.ranks == old(reps.ranks)
      ensures id == Reps()[EventOf(c).owner] < |nodes|
      ensures Datas() == old(Datas())[id := Told(old(Datas())[id], EventOf(c).fact)]
      ensures IndirCalls() == old(IndirCalls()) && Delivered() == old(Delivered())
    {
      hide OnceEach, OfRun, UF.Forest, Told;
      ghost var N, C, D := Datas(), IndirCalls(), Delivered();
      var node := GetNode(if c.ctype == Store || c.ctype == AddressOf then c.dest else c.src);
      id := node.id;
      node.AddConstraint(c);
      assert Datas() == N[id := node.Data()] && IndirCalls() == C && Delivered() == D;
    }

    method AddConstraints(cs: seq<Constraint>) returns (ret: seq<nat>)
      requires Valid() && Mention(cs, |nodes|)
      modifies reps`ids, nodes, `log, `steps
      ensures Valid() && Reps() == old(Reps()) && IndirCalls() == old(IndirCalls()) && Inside(Reps(), |nodes|)
      ensures log == old(log) + EventsOf(cs) && steps == old(steps) + AddSteps(cs)
      ensures ret == Touched(Reps(), cs)
      ensures Datas() == Built(Reps(), old(Datas()), cs) && Delivered() == old(Delivered())
    {
      hide OnceEach, OfRun, UF.Forest, Next, ToldOne, Built, Touched, EventsOf, AddSteps;
      ghost var R, N, C, D, before, start := Reps(), Datas(), IndirCalls(), Delivered(), log, steps;
      ret := [];
      OfRunShape(Now(), steps);
      PrefixNone(R, N, cs, before, start);
      for k := 0 to |cs|
        invariant Valid() && Reps() == R && IndirCalls() == C && Delivered() == D
        invariant log == before + EventsOf(cs[..k]) && ret == Touched(R, cs[..k])
        invariant steps == start + AddSteps(cs[..k])
        invariant Datas() == Built(R, N, cs[..k])
      {
        PrefixStep(R, N, cs, k);
        var id := AddConstraint(cs[k]);
        if id != None {
          ret := ret + [id.value];
        }
      }
      assert cs[..|cs|] == cs;
    }

    /** getNode(id).addCopyEdge(dest) */
    method AddCopyEdge(id: nat, dest: nat) returns (ret: bool)
      requires Valid() && id < |nodes|
      modifies reps`ids, nodes, `log, `steps
      ensures Valid() && Reps() == old(Reps()) && IndirCalls() == old(IndirCalls())
      ensures steps == old(steps) + [Edge(id, dest)] && Now() == Next(old(Now()), Edge(id, dest))
      ensures Delivered() == old(Delivered())
      ensures ret <==> Datas() != old(Datas())
    {
      hide OnceEach, OfRun, Next, Says, UF.Forest, Told, EdgeAllowed;
      ghost var w := Now();
      OfRunShape(w, steps);
      OfRunStep(w, steps, Edge(id, dest));
      EdgeRun(w, id, dest);
      ret := LinkOne(id, dest);
      log, steps := Next(w, Edge(id, dest)).log, steps + [Edge(id, dest)];
      SameParts(w, Edge(id, dest), Now());
    }

    /** getNode(id).addCopyEdges(pts) */
    method AddCopyEdges(id: nat, pts: seq<nat>) returns (ret: bool)
      requires Valid() && id < |nodes| && StrictlySorted(pts)
      modifies reps`ids, nodes, `log, `steps
      ensures Valid() && Reps() == old(Reps()) && IndirCalls() == old(IndirCalls())
      ensures steps == old(steps) + [Edges(id, pts)] && Now() == Next(old(Now()), Edges(id, pts))
      ensures Delivered() == old(Delivered())
      ensures ret <==> Datas() != old(Datas())
    {
      hide OnceEach, OfRun, Next, Says, Targets, UF.Forest, Linked;
      ghost var w := Now();
      OfRunShape(w, steps);
      OfRunStep(w, steps, Edges(id, pts));
      EdgesRun(w, id, pts);
      ret := LinkAll(id, pts);
      log, steps := Next(w, Edges(id, pts)).log, steps + [Edges(id, pts)];
      SameParts(w, Edges(id, pts), Now());
    }

    method LinkOne(id: nat, dest: nat) returns (ret: bool)
      requires Shape() && id < |nodes|
      modifies reps`ids, nodes
      ensures Shape() && Reps() == old(Reps()) && reps.ranks == old(reps.ranks)
      ensures IndirCalls() == old(IndirCalls()) && Delivered() == old(Delivered())
      ensures Reps()[id] < |nodes|
      ensures var r, N := Reps()[id], old(Datas());
              Datas() == if EdgeAllowed(r, dest) then N[r := Told(N[r], Succ(dest))] else N
      ensures ret <==> Datas() != old(Datas())
    {
      hide OnceEach, OfRun;
      ghost var N := Datas();
      var node := GetNode(id);
      ret := node.AddCopyEdge(dest);
      assert Datas() == N[node.id := node.Data()];
      assert IndirCalls() == old(IndirCalls()) && Delivered() == old(Delivered());
    }

    method LinkAll(id: nat, pts: seq<nat>) returns (ret: bool)
      requires Shape() && id < |nodes| && StrictlySorted(pts)
      modifies reps`ids, nodes
      ensures Shape() && Reps() == old(Reps()) && reps.ranks == old(reps.ranks)
      ensures IndirCalls() == old(IndirCalls()) && Delivered() == old(Delivered())
      ensures Reps()[id] < |nodes|
      ensures var r, N := Reps()[id], old(Datas()); Datas() == N[r := Linked(N[r], Targets(pts))]
      ensures ret <==> Datas() != old(Datas())
    {
      hide OnceEach, OfRun, Targets;
      ghost var N := Datas();
      var node := GetNode(id);
      ret := node.AddCopyEdges(pts);
      assert Datas() == N[node.id := node.Data()];
      assert IndirCalls() == old(IndirCalls()) && Delivered() == old(Delivered());
    }

    method AddIndirConstraint(call: IndirCall)
      requires Valid() && call.id < |nodes|
      modifies reps`ids, nodes, `steps
      ensures Valid() && Reps() == old(Reps()) && Datas() == old(Datas()) && Delivered() == old(Delivered())
      ensures steps == old(steps) + [Call(call)] && Now() == Next(old(Now()), Call(call))
      ensures Reps()[call.id] < |nodes|
      ensures var r := Reps()[call.id]; IndirCalls() == old(IndirCalls())[r := old(IndirCalls())[r] + [call]]
    {
      hide OnceEach, OfRun, UF.Forest;
      ghost var w := Now();
      OfRunShape(w, steps);
      OfRunStep(w, steps, Call(call));
      var node := GetNode(call.id);
      node.AddIndirCall(call);
      assert Datas() == w.N && Delivered() == w.D && IndirCalls() == w.C[node.id := w.C[node.id] + [call]];
      steps := steps + [Call(call)];
    }

    method AddIndirConstraints(calls: seq<IndirCall>)
      requires Valid() && CallsWithin(calls, |nodes|)
      modifies reps`ids, nodes, `steps
      ensures Valid() && Reps() == old(Reps()) && Datas() == old(Datas()) && Delivered() == old(Delivered())
      ensures Inside(Reps(), |nodes|) && steps == old(steps) + CallSteps(calls)
      ensures IndirCalls() == Called(Reps(), old(IndirCalls()), calls)
    {
      hide OnceEach, OfRun, Next, UF.Forest, Called, CallSteps;
      ghost var R, N, C, D, start := Reps(), Datas(), IndirCalls(), Delivered(), steps;
      OfRunShape(Now(), steps);
      PrefixNoCalls(R, C, calls, start);
      for k := 0 to |calls|
        invariant Valid() && Reps() == R && Datas() == N && Delivered() == D
        invariant steps == start + CallSteps(calls[..k])
        invariant IndirCalls() == Called(R, C, calls[..k])
      {
        PrefixCall(R, C, calls, k);
        AddIndirConstraint(calls[k]);
      }
      assert calls[..|calls|] == calls;
    }

    /** First the constraints, then the indirect calls. */
    method AddBoth(cs: seq<Constraint>, calls: seq<IndirCall>) returns (ret: seq<nat>)
      requires Valid() && Mention(cs, |nodes|) && CallsWithin(calls, |nodes|)
      modifies reps`ids, nodes, `log, `steps
      ensures Valid() && Reps() == old(Reps()) && Inside(Reps(), |nodes|)
      ensures log == old(log) + EventsOf(cs) && steps == old(steps) + AddSteps(cs) + CallSteps(calls)
      ensures ret == Touched(Reps(), cs)
      ensures Datas() == Built(Reps(), old(Datas()), cs) && Delivered() == old(Delivered())
      ensures IndirCalls() == Called(Reps(), old(IndirCalls()), calls)
    {
      hide OnceEach, OfRun;
      ret := AddConstraints(cs);
      AddIndirConstraints(calls);
    }

    /** The loop that creates the first nodes. */
    method NewNodes(n: nat)
      requires nodes == []
      modifies `nodes
      ensures |nodes| == n && forall i :: 0 <= i < n ==> fresh(nodes[i]) && nodes[i].id == i && nodes[i].Valid()
      ensures forall i :: 0 <= i < n ==> nodes[i].Data() == NO_DATA
      ensures forall i :: 0 <= i < n ==> nodes[i].indirCalls == [] && nodes[i].delivered == []
    {
      hide OnceEach, OfRun;
      while |nodes| < n
        invariant |nodes| <= n
        invariant forall i :: 0 <= i < |nodes| ==> fresh(nodes[i]) && nodes[i].id == i && nodes[i].Valid()
        invariant forall i :: 0 <= i < |nodes| ==> nodes[i].Data() == NO_DATA
        invariant forall i :: 0 <= i < |nodes| ==> nodes[i].indirCalls == [] && nodes[i].delivered == []
      {
        var node := new AndersNode(|nodes|);
        nodes := nodes + [node];
      }
    }

    /** The first nodes, each its own representative. */
    method InitNodes(n: nat)
      requires nodes == [] && log == [] && steps == []
      modifies this
      ensures Valid() && |nodes| == n && log == [] && steps == GrowSteps(n)
      ensures Reps() == Ids(0, n) && Datas() == Blank(n) && IndirCalls() == NoCalls(n) && Delivered() == NoDeliveries(n)
      ensures fresh(reps) && forall i :: 0 <= i < n ==> fresh(nodes[i])
      ensures prevCons == old(prevCons) && prevIndirCons == old(prevIndirCons)
    {
      hide OnceEach, OfRun;
      NewNodes(n);
      reps := new UF.UnionFind(n);
      steps := GrowSteps(n);
      assert reps.Reps() == Ids(0, n) && reps.ranks == Zeros(n);
      assert Datas() == Blank(n) && IndirCalls() == NoCalls(n) && Delivered() == NoDeliveries(n);
      OfRunStart(n);
    }

    /** Builds the graph for all constraints at once. */
    method Fill(cons: seq<Constraint>, calls: seq<IndirCall>)
      requires nodes == [] && log == [] && steps == []
      requires CallsWithin(calls, MaxId(0, cons) + 1)
      modifies this
      ensures Valid() && |nodes| == MaxId(0, cons) + 1 && Reps() == Ids(0, |nodes|)
      ensures log == EventsOf(cons) && steps == FillSteps(|nodes|, cons, calls)
      ensures Datas() == Built(Reps(), Blank(|nodes|), cons)
      ensures forall x: nat :: x < |nodes| ==> FilledNode(cons, x, Datas()[x])
      ensures IndirCalls() == Called(Reps(), NoCalls(|nodes|), calls) && Delivered() == NoDeliveries(|nodes|)
      ensures prevCons == |cons| && prevIndirCons == |calls|
      ensures fresh(reps) && forall i :: 0 <= i < |nodes| ==> fresh(nodes[i])
    {
      hide OnceEach, OfRun, Built, Called, Touched, EventsOf, MaxId, Ids, Blank, NoCalls, NoDeliveries, GrowSteps,
           AddSteps, CallSteps, FilledNode;
      var n := MaxId(0, cons) + 1;
      InitNodes(n);
      var _ := AddBoth(cons, calls);
      assert [] + EventsOf(cons) == EventsOf(cons);
      FilledNodes(cons, calls);
      prevCons, prevIndirCons := |cons|, |calls|;
    }

    lemma FilledNodes(cons: seq<Constraint>, calls: seq<IndirCall>)
      requires Valid() && steps == FillSteps(|nodes|, cons, calls)
      requires Mention(cons, |nodes|) && CallsWithin(calls, |nodes|)
      ensures forall x: nat :: x < |nodes| ==> FilledNode(cons, x, Datas()[x])
    {
      hide OnceEach, UF.Forest, FilledNode, FillSteps, Ran, Possible;
      forall x: nat | x < |nodes| ensures FilledNode(cons, x, Datas()[x]) {
        FillLeaves(|nodes|, cons, calls, x);
        assert Now() == Ran(steps) by { assert Unfold(TraceSeal, 0); }
      }
    }

    /** What the class of x holds, from the constraints and edges of the whole run. */
    lemma ClassHolds(x: nat, e: nat, t: nat, g: (nat, int), c: Constraint)
      requires Valid() && x < |nodes|
      ensures Possible(0, steps) && Reps()[x] < |nodes|
      ensures var R, r, cs := Reps(), Reps()[x], Added(steps);
              var d := Datas()[r];
              && (e in d.ptsto <==> PointsBy(R, cs, r, e))
              && (t in d.copySuccs <==>
                    CopiesBy(R, cs, r, t) || exists o :: 0 <= o < |R| && R[o] == r && EdgeBy(steps, o, t))
              && multiset(d.gepSuccs)[g] == (if g.0 == 0 || g.1 == 0 then 0 else GepsBy(R, multiset(cs), r, g, |R|))
              && multiset(d.constraints)[c] == KeptBy(R, multiset(cs), r, c)
    {
      hide OnceEach, UF.Forest, PointsBy, CopiesBy, KeptBy, EdgeBy, GepsBy, Added, Ran, Possible, Grown;
      assert Possible(0, steps) && Now() == Ran(steps) by { assert Unfold(TraceSeal, 0); }
      InsideRun(steps);
      RunPoints(steps, x, e);
      RunCopies(steps, x, t);
      RunGeps(steps, x, g);
      RunKeeps(steps, x, c);
    }

    /** New nodes at the end, each its own representative. */
    method AddNodes(n: nat)
      requires Valid() && |nodes| <= n
      modifies this, reps
      ensures Valid() && reps == old(reps) && log == old(log) && steps == old(steps) + GrowSteps(n - |old(nodes)|)
      ensures |nodes| == n && nodes[..|old(nodes)|] == old(nodes)
      ensures forall i :: |old(nodes)| <= i < n ==> fresh(nodes[i])
      ensures var m := n - |old(nodes)|;
              && Reps() == old(Reps()) + Ids(|old(nodes)|, m)
              && Datas() == old(Datas()) + Blank(m)
              && IndirCalls() == old(IndirCalls()) + NoCalls(m) && Delivered() == old(Delivered()) + NoDeliveries(m)
      ensures prevCons == old(prevCons) && prevIndirCons == old(prevIndirCons)
    {
      hide OnceEach, OfRun, Next;
      ghost var start := |nodes|;
      ghost var R, N, C, D, ss := Reps(), Datas(), IndirCalls(), Delivered(), steps;
      while |nodes| < n
        invariant start <= |nodes| <= n && nodes[..start] == old(nodes)
        invariant Valid() && reps == old(reps) && log == old(log) && steps == ss + GrowSteps(|nodes| - start)
        invariant forall i :: start <= i < |nodes| ==> fresh(nodes[i])
        invariant Reps() == R + Ids(start, |nodes| - start)
        invariant Datas() == N + Blank(|nodes| - start)
        invariant IndirCalls() == C + NoCalls(|nodes| - start) && Delivered() == D + NoDeliveries(|nodes| - start)
        invariant prevCons == old(prevCons) && prevIndirCons == old(prevIndirCons)
      {
        AddNode();
      }
    }

    method AddNode()
      requires Valid()
      modifies this, reps
      ensures Valid() && reps == old(reps) && log == old(log)
      ensures steps == old(steps) + [Grow] && Now() == Next(old(Now()), Grow)
      ensures |nodes| == |old(nodes)| + 1 && nodes[..|old(nodes)|] == old(nodes) && fresh(nodes[|old(nodes)|])
      ensures Reps() == old(Reps()) + [|old(nodes)|]
      ensures Datas() == old(Datas()) + [NO_DATA] && IndirCalls() == old(IndirCalls()) + [[]]
      ensures Delivered() == old(Delivered()) + [[]]
      ensures prevCons == old(prevCons) && prevIndirCons == old(prevIndirCons)
    {
      hide OnceEach, OfRun;
      OfRunShape(Now(), steps);
      OfRunStep(Now(), steps, Grow);
      var node := new AndersNode(|nodes|);
      nodes := nodes + [node];
      var repId := reps.Add();
      assert repId == node.id;
      steps := steps + [Grow];
      assert Datas() == old(Datas()) + [NO_DATA] && IndirCalls() == old(IndirCalls()) + [[]];
      assert Delivered() == old(Delivered()) + [[]];
    }

    /** Adds what has been appended to the constraints and indirect calls since the last time. */
    method UpdateGraphForCons(cons: seq<Constraint>, calls: seq<IndirCall>, args: seq<int>) returns (ret: seq<nat>)
      requires Valid() && prevCons <= |cons| && prevIndirCons <= |calls|
      requires forall k :: prevIndirCons <= k < |calls| ==>
                 calls[k].id <= MaxArg(MaxId(|nodes| - 1, cons[prevCons..]), args)
      modifies this, reps, nodes
      ensures Valid() && |nodes| == MaxArg(MaxId(|old(nodes)| - 1, cons[old(prevCons)..]), args) + 1
      ensures Reps() == old(Reps()) + Ids(|old(nodes)|, |nodes| - |old(nodes)|)
      ensures log == old(log) + EventsOf(cons[old(prevCons)..])
      ensures steps == old(steps) + FillSteps(|nodes| - |old(nodes)|, cons[old(prevCons)..],
                                              calls[old(prevIndirCons)..])
      ensures Added(steps) == old(Added(steps)) + cons[old(prevCons)..]
      ensures Delivered() == old(Delivered()) + NoDeliveries(|nodes| - |old(nodes)|)
      ensures Datas() == Built(Reps(), old(Datas()) + Blank(|nodes| - |old(nodes)|), cons[old(prevCons)..])
      ensures IndirCalls()
              == Called(Reps(), old(IndirCalls()) + NoCalls(|nodes| - |old(nodes)|), calls[old(prevIndirCons)..])
      ensures ret == Touched(Reps(), cons[old(prevCons)..])
      ensures prevCons == |cons| && prevIndirCons == |calls|
    {
      hide OnceEach, OfRun, Built, Called, Touched, EventsOf, MaxId, MaxArg, Ids, Blank, NoCalls, NoDeliveries,
           GrowSteps, AddSteps, CallSteps, Added, FilledNode;
      var n := MaxArg(MaxId(|nodes| - 1, cons[prevCons..]), args) + 1;
      var newCons, newCalls := cons[prevCons..], calls[prevIndirCons..];
      AddNodes(n);
      ghost var R, N, C, D := Reps(), Datas(), IndirCalls(), Delivered();
      ret := AddBoth(newCons, newCalls);
      AddedFill(old(steps), n - |old(nodes)|, newCons, newCalls);
      assert Reps() == R && Datas() == Built(R, N, newCons) && IndirCalls() == Called(R, C, newCalls);
      assert Delivered() == D && Delivered() == old(Delivered()) + NoDeliveries(|nodes| - |old(nodes)|);
      prevCons, prevIndirCons := |cons|, |calls|;
    }

    /** Joins the classes of two representatives. */
    method Merge(n1: AndersNode, n2: AndersNode)
      requires Valid() && n1.id < |nodes| && n2.id < |nodes| && nodes[n1.id] == n1 && nodes[n2.id] == n2
      requires Reps()[n1.id] == n1.id && Reps()[n2.id] == n2.id && n1.id != n2.id
      modifies reps, nodes, `steps
      ensures Valid()
      ensures steps == old(steps) + [Join(n1.id, n2.id)] && Now() == Next(old(Now()), Join(n1.id, n2.id))
      ensures var w := UF.Winner(old(reps.ranks), n1.id, n2.id);
              var l := if w == n1.id then n2.id else n1.id;
              && Reps() == UF.Joined(old(Reps()), n1.id, n2.id, w)
              && Datas() == old(Datas())[w := Merged(old(Datas())[w], old(Datas())[l])][l := NO_DATA]
              && Delivered() == old(Delivered())[w := []][l := []]
      ensures IndirCalls() == old(IndirCalls())
    {
      hide OnceEach, OfRun, Merged, Next, Shaped;
      ghost var w := Now();
      OfRunShape(w, steps);
      OfRunStep(w, steps, Join(n1.id, n2.id));
      JoinRun(w, n1.id, n2.id);
      JoinNodes(n1, n2);
      steps := steps + [Join(n1.id, n2.id)];
      assert Now() == Next(w, Join(n1.id, n2.id));
    }

    /** The work of Merge. */
    method JoinNodes(n1: AndersNode, n2: AndersNode)
      requires Shape() && n1.id < |nodes| && n2.id < |nodes| && nodes[n1.id] == n1 && nodes[n2.id] == n2
      requires Reps()[n1.id] == n1.id && Reps()[n2.id] == n2.id && n1.id != n2.id
      modifies reps, nodes
      ensures Shape() && IndirCalls() == old(IndirCalls())
      ensures reps.ranks == UF.MergedRanks(old(reps.ranks), n1.id, n2.id)
      ensures var w, N := UF.Winner(old(reps.ranks), n1.id, n2.id), old(Datas());
              var l := if w == n1.id then n2.id else n1.id;
              && Reps() == UF.Joined(old(Reps()), n1.id, n2.id, w)
              && Datas() == N[w := Merged(N[w], N[l])][l := NO_DATA]
              && Delivered() == old(Delivered())[w := []][l := []]
    {
      hide OnceEach, Merged, UF.Joined;
      ghost var N, C, D := Datas(), IndirCalls(), Delivered();
      reps.Merge(n1.id, n2.id);
      var repId := reps.Find(n1.id);
      UF.JoinedAt(old(Reps()), n1.id, n2.id, UF.Winner(old(reps.ranks), n1.id, n2.id));
      assert Datas() == N && IndirCalls() == C && Delivered() == D;
      if repId == n1.id {
        MoveData(n1, n2);
      } else {
        MoveData(n2, n1);
      }
    }

    method MoveData(kept: AndersNode, gone: AndersNode)
      requires Shape() && kept.id < |nodes| && gone.id < |nodes| && nodes[kept.id] == kept && nodes[gone.id] == gone
      requires kept.id != gone.id
      modifies kept, gone
      ensures Shape() && IndirCalls() == old(IndirCalls())
      ensures var N := old(Datas());
              Datas() == N[kept.id := Merged(N[kept.id], N[gone.id])][gone.id := NO_DATA]
      ensures Delivered() == old(Delivered())[kept.id := []][gone.id := []]
    {
      hide OnceEach, Merged;
      ghost var N, C, D := Datas(), IndirCalls(), Delivered();
      kept.Merge(gone);
      assert Datas() == N[kept.id := Merged(N[kept.id], N[gone.id])][gone.id := NO_DATA];
      assert IndirCalls() == C && Delivered() == D[kept.id := []][gone.id := []];
    }

    /** getNode(id).getUpdateSet() */
    method UpdateSetOf(id: nat) returns (ret: set<nat>)
      requires Valid() && id < |nodes|
      modifies reps`ids, nodes, `steps
      ensures Valid() && Reps() == old(Reps()) && Datas() == old(Datas()) && IndirCalls() == old(IndirCalls())
      ensures steps == old(steps) + [Deliver(id)] && Now() == Next(old(Now()), Deliver(id))
      ensures Reps()[id] < |nodes|
      ensures var r, D := Reps()[id], old(Delivered());
              && ret == Datas()[r].ptsto - Sent(D[r])
              && Delivered() == D[r := D[r] + [ret]] && OnceEach(Delivered()[r], Datas()[r].ptsto)
    {
      hide OnceEach, OfRun, Sent, UF.Forest, Possible, Grown;
      ghost var w := Now();
      OfRunShape(w, steps);
      OfRunStep(w, steps, Deliver(id));
      var node := GetNode(id);
      ret := node.GetUpdateSet();
      assert Datas() == w.N && IndirCalls() == w.C && Delivered() == w.D[node.id := w.D[node.id] + [ret]];
      steps := steps + [Deliver(id)];
    }

    /** getNode(id).clearOldPtsto() */
    method Redeliver(id: nat)
      requires Valid() && id < |nodes|
      modifies reps`ids, nodes, `steps
      ensures Valid() && Reps() == old(Reps()) && Datas() == old(Datas()) && IndirCalls() == old(IndirCalls())
      ensures steps == old(steps) + [Reset(id)] && Now() == Next(old(Now()), Reset(id))
      ensures Reps()[id] < |nodes| && Delivered() == old(Delivered())[Reps()[id] := []]
    {
      hide OnceEach, OfRun;
      ghost var w := Now();
      OfRunShape(w, steps);
      OfRunStep(w, steps, Reset(id));
      var node := GetNode(id);
      node.ClearOldPtsto();
      assert Datas() == w.N && IndirCalls() == w.C && Delivered() == w.D[node.id := []];
      steps := steps + [Reset(id)];
    }
  }

  lemma PrefixNone(R: seq<nat>, N: seq<Data>, cs: seq<Constraint>, log: seq<Event>, steps: seq<Step>)
    requires Inside(R, |N|) && Mention(cs, |N|)
    ensures log + EventsOf(cs[..0]) == log && Touched(R, cs[..0]) == [] && Built(R, N, cs[..0]) == N
    ensures steps + AddSteps(cs[..0]) == steps
  {
  }

  /** One more constraint in the functions that describe a list of them. */
  lemma PrefixStep(R: seq<nat>, N: seq<Data>, cs: seq<Constraint>, k: nat)
    requires Inside(R, |N|) && Mention(cs, |N|) && k < |cs|
    ensures EventsOf(cs[..k + 1]) == EventsOf(cs[..k]) + if Ignored(cs[k]) then [] else [EventOf(cs[k])]
    ensures Touched(R, cs[..k + 1]) == Touched(R, cs[..k]) + if Ignored(cs[k]) then [] else [R[EventOf(cs[k]).owner]]
    ensures Built(R, N, cs[..k + 1]) == ToldOne(R, Built(R, N, cs[..k]), cs[k])
    ensures AddSteps(cs[..k + 1]) == AddSteps(cs[..k]) + [Add(cs[k])]
  {
    assert cs[..k + 1][..k] == cs[..k];
  }

  lemma PrefixNoCalls(R: seq<nat>, C: seq<seq<IndirCall>>, calls: seq<IndirCall>, steps: seq<Step>)
    requires Inside(R, |C|) && CallsWithin(calls, |R|)
    ensures Called(R, C, calls[..0]) == C && steps + CallSteps(calls[..0]) == steps
  {
  }

  /** One more call. */
  lemma PrefixCall(R: seq<nat>, C: seq<seq<IndirCall>>, calls: seq<IndirCall>, k: nat)
    requires Inside(R, |C|) && CallsWithin(calls, |R|) && k < |calls|
    ensures var c, D := calls[k], Called(R, C, calls[..k]);
            Called(R, C, calls[..k + 1]) == D[R[c.id] := D[R[c.id]] + [c]]
    ensures CallSteps(calls[..k + 1]) == CallSteps(calls[..k]) + [Call(calls[k])]
  {
    assert calls[..k + 1][..k] == calls[..k];
  }

  /** An edge step changes nodes and log only. */
  lemma SameParts(w: World, s: Step, w': World)
    requires Shaped(w) && Allowed(|w.R|, s) && (s.Edge? || s.Edges?)
    requires w'.R == w.R && w'.ranks == w.ranks && w'.N == Next(w, s).N && w'.log == Next(w, s).log
    requires w'.C == w.C && w'.D == w.D
    ensures w' == Next(w, s)
  {
  }
}
