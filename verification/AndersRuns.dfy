/** Runs of the constraint graph as values: nodes are added, told facts and merged, in any order. */
module AndersRuns {
  import opened AndersFacts
  import opened Deliveries
  import opened Seals
  import UF = UnionFind

  /** The representatives with their ranks, the nodes, everything they were told, their indirect calls, and what
      each has delivered since it last started anew. */
  datatype World = World(R: seq<nat>, ranks: seq<nat>, N: seq<Data>, log: seq<Event>,
                         C: seq<seq<IndirCall>>, D: seq<seq<set<nat>>>)

  /** Join(x, y) looks both representatives up and merges them unless they are the same; the other steps look up
      the representative of the id they name. Deliver is getUpdateSet, Reset is clearOldPtsto. */
  datatype Step =
    | Grow
    | Add(cons: Constraint)
    | Edge(from: nat, dest: nat)
    | Edges(from: nat, dests: seq<nat>)
    | Call(call: IndirCall)
    | Join(x: nat, y: nat)
    | Deliver(id: nat)
    | Reset(id: nat)

  // ---- One step ----

  /** addCopyEdge of node r: no edge from or to a special value or to itself. */
  predicate EdgeAllowed(r: nat, dest: nat) {
    INT_VALUE !in {r, dest} && NULL_VALUE !in {r, dest} && r != dest
  }

  /** addCopyEdges: no edge to a special value. */
  function EdgeEvents(from: nat, dests: seq<nat>): (es: seq<Event>)
    ensures forall k :: 0 <= k < |es| ==> es[k].owner == from
  {
    if dests == [] then []
    else
      var k := |dests| - 1;
      EdgeEvents(from, dests[..k])
      + (if dests[k] == NULL_VALUE || dests[k] == INT_VALUE then [] else [Event(from, Succ(dests[k]))])
  }

  /** Only ids below n are mentioned. */
  predicate Allowed(n: nat, s: Step) {
    match s
    case Grow => true
    case Add(c) => c.src < n && c.dest < n
    case Edge(from, _) => from < n
    case Edges(from, _) => from < n
    case Call(c) => c.id < n
    case Join(x, y) => x < n && y < n
    case Deliver(id) => id < n
    case Reset(id) => id < n
  }

  /** What the nodes are told. */
  function Says(R: seq<nat>, s: Step): (es: seq<Event>)
    requires Allowed(|R|, s)
    ensures Within(es, |R|)
  {
    match s
    case Grow => []
    case Add(c) => if Ignored(c) then [] else [EventOf(c)]
    case Edge(from, dest) => if EdgeAllowed(R[from], dest) then [Event(from, Succ(dest))] else []
    case Edges(from, dests) => EdgeEvents(from, dests)
    case _ => []
  }

  function TellAll(R: seq<nat>, N: seq<Data>, es: seq<Event>): (N': seq<Data>)
    requires Inside(R, |N|) && Within(es, |N|)
    ensures |N'| == |N|
  {
    if es == [] then N
    else
      var k := |es| - 1;
      var M := TellAll(R, N, es[..k]);
      var r := R[es[k].owner];
      M[r := Told(M[r], es[k].fact)]
  }

  ghost predicate Shaped(w: World) {
    Inside(w.R, |w.N|) && |w.ranks| == |w.C| == |w.D| == |w.R|
  }

  /** The two classes become one; the node that loses hands over its data. */
  ghost function Joins(w: World, a: nat, b: nat): (w': World)
    requires Shaped(w) && a < |w.R| && b < |w.R|
    ensures Shaped(w') && |w'.R| == |w.R|
  {
    var v := UF.Winner(w.ranks, a, b);
    var l := if v == a then b else a;
    World(UF.Joined(w.R, a, b, v), UF.MergedRanks(w.ranks, a, b),
          w.N[v := Merged(w.N[v], w.N[l])][l := NO_DATA], w.log, w.C, w.D[v := []][l := []])
  }

  /** What a delivery of node r returns: the elements not delivered yet. */
  function Answer(w: World, r: nat): set<nat>
    requires r < |w.N| && r < |w.D|
  {
    w.N[r].ptsto - Sent(w.D[r])
  }

  ghost function Next(w: World, s: Step): (w': World)
    requires Shaped(w) && Allowed(|w.R|, s)
    ensures Shaped(w') && |w'.R| == |w.R| + if s.Grow? then 1 else 0
  {
    match s
    case Grow => World(w.R + [|w.R|], w.ranks + [0], w.N + [NO_DATA], w.log, w.C + [[]], w.D + [[]])
    case Join(x, y) => if w.R[x] == w.R[y] then w else Joins(w, w.R[x], w.R[y])
    case Call(c) =>
      var r := w.R[c.id];
      w.(C := w.C[r := w.C[r] + [c]])
    case Deliver(id) =>
      var r := w.R[id];
      w.(D := w.D[r := w.D[r] + [Answer(w, r)]])
    case Reset(id) => w.(D := w.D[w.R[id] := []])
    case _ => w.(N := TellAll(w.R, w.N, Says(w.R, s)), log := w.log + Says(w.R, s))
  }

  lemma ShapedInside(w: World)
    requires Shaped(w)
    ensures Inside(w.R, |w.N|)
  {
  }

  /** Merging two representatives. */
  lemma JoinRun(w: World, a: nat, b: nat)
    requires Shaped(w) && a < |w.R| && b < |w.R| && a != b && w.R[a] == a && w.R[b] == b
    ensures |w.N| == |w.ranks| == |w.D| == |w.R|
    ensures var v := UF.Winner(w.ranks, a, b);
            var l := if v == a then b else a;
            Next(w, Join(a, b)) == World(UF.Joined(w.R, a, b, v), UF.MergedRanks(w.ranks, a, b),
                                         w.N[v := Merged(w.N[v], w.N[l])][l := NO_DATA], w.log,
                                         w.C, w.D[v := []][l := []])
  {
  }

  /** What addCopyEdge does to the representative. */
  lemma EdgeRun(w: World, from: nat, dest: nat)
    requires Shaped(w) && from < |w.R|
    ensures var r := w.R[from];
            && r < |w.N|
            && Next(w, Edge(from, dest)).N
               == if EdgeAllowed(r, dest) then w.N[r := Told(w.N[r], Succ(dest))] else w.N
  {
    var es := Says(w.R, Edge(from, dest));
    if es != [] { assert es == [Event(from, Succ(dest))] && es[..0] == [] && TellAll(w.R, w.N, []) == w.N; }
  }

  /** What addCopyEdges does to the representative. */
  lemma EdgesRun(w: World, from: nat, dests: seq<nat>)
    requires Shaped(w) && from < |w.R|
    ensures var r := w.R[from];
            && r < |w.N|
            && Next(w, Edges(from, dests)).N == w.N[r := Linked(w.N[r], Targets(dests))]
  {
    EdgesTold(w.R, w.N, from, dests);
  }

  /** The targets without the two special values. */
  function Targets(dests: seq<nat>): set<nat> {
    set x | x in dests && x != NULL_VALUE && x != INT_VALUE
  }

  function Linked(d: Data, targets: set<nat>): Data {
    d.(copySuccs := d.copySuccs + targets)
  }

  lemma {:induction false} EdgesTold(R: seq<nat>, N: seq<Data>, from: nat, dests: seq<nat>)
    requires Inside(R, |N|) && from < |R|
    ensures R[from] < |N|
    ensures TellAll(R, N, EdgeEvents(from, dests)) == N[R[from] := Linked(N[R[from]], Targets(dests))]
  {
    var r := R[from];
    if dests == [] {
      assert Targets(dests) == {};
      assert Linked(N[r], {}) == N[r] by { assert N[r].copySuccs + {} == N[r].copySuccs; }
    } else {
      var k := |dests| - 1;
      EdgesTold(R, N, from, dests[..k]);
      EdgeTold(R, N, from, dests[..k], dests[k]);
      assert dests == dests[..k] + [dests[k]];
    }
  }

  lemma EdgeTold(R: seq<nat>, N: seq<Data>, from: nat, dests: seq<nat>, d: nat)
    requires Inside(R, |N|) && from < |R| && R[from] < |N|
    requires TellAll(R, N, EdgeEvents(from, dests)) == N[R[from] := Linked(N[R[from]], Targets(dests))]
    ensures TellAll(R, N, EdgeEvents(from, dests + [d])) == N[R[from] := Linked(N[R[from]], Targets(dests + [d]))]
  {
    hide TellAll, Targets, EdgeEvents, Linked;
    var es := EdgeEvents(from, dests);
    OneMoreTarget(from, dests, d);
    if d != NULL_VALUE && d != INT_VALUE {
      TellMore(R, N, es, Event(from, Succ(d)));
      LinkedMore(N[R[from]], Targets(dests), d);
    }
  }

  lemma OneMoreTarget(from: nat, dests: seq<nat>, d: nat)
    ensures if d == NULL_VALUE || d == INT_VALUE
            then EdgeEvents(from, dests + [d]) == EdgeEvents(from, dests) && Targets(dests + [d]) == Targets(dests)
            else EdgeEvents(from, dests + [d]) == EdgeEvents(from, dests) + [Event(from, Succ(d))]
                 && Targets(dests + [d]) == Targets(dests) + {d}
  {
    assert (dests + [d])[..|dests|] == dests;
  }

  lemma TellMore(R: seq<nat>, N: seq<Data>, es: seq<Event>, e: Event)
    requires Inside(R, |N|) && Within(es, |N|) && e.owner < |N|
    ensures var M := TellAll(R, N, es);
            TellAll(R, N, es + [e]) == M[R[e.owner] := Told(M[R[e.owner]], e.fact)]
  {
    assert (es + [e])[..|es|] == es;
  }

  lemma LinkedMore(d: Data, targets: set<nat>, x: nat)
    ensures Told(Linked(d, targets), Succ(x)) == Linked(d, targets + {x})
  {
    assert d.copySuccs + targets + {x} == d.copySuccs + (targets + {x});
  }

  // ---- Whole runs ----

  /** How many nodes the steps add. */
  function Grown(ss: seq<Step>): nat {
    if ss == [] then 0 else Grown(ss[..|ss| - 1]) + if ss[|ss| - 1].Grow? then 1 else 0
  }

  /** The steps can be taken with n nodes. */
  predicate Possible(n: nat, ss: seq<Step>) {
    ss == [] || (Possible(n, ss[..|ss| - 1]) && Allowed(n + Grown(ss[..|ss| - 1]), ss[|ss| - 1]))
  }

  /** The graph after a run that starts with no node. */
  ghost function Ran(ss: seq<Step>): (w: World)
    requires Possible(0, ss)
    ensures Shaped(w) && |w.R| == Grown(ss)
  {
    if ss == [] then World([], [], [], [], [], []) else Next(Ran(ss[..|ss| - 1]), ss[|ss| - 1])
  }

  // ---- What every run keeps ----

  /** Nodes hold exactly what their class is owed, and a root of rank k represents at least 2^k nodes. */
  ghost predicate RunInv(w: World) {
    forall k {:trigger Unfold(RunSeal, k)} :: Unfold(RunSeal, k) ==>
      && Summed(w.R, w.N, w.log) && UF.RankBound(w.R, w.ranks)
      && forall i :: 0 <= i < |w.R| ==> w.R[w.R[i]] == w.R[i]
  }

  lemma {:induction false} SummedTold(R: seq<nat>, N: seq<Data>, log: seq<Event>, es: seq<Event>)
    requires Summed(R, N, log) && Within(es, |N|)
    ensures Summed(R, TellAll(R, N, es), log + es)
  {
    if es == [] {
      assert log + es == log;
    } else {
      var k := |es| - 1;
      SummedTold(R, N, log, es[..k]);
      SummedStep(R, TellAll(R, N, es[..k]), log + es[..k], es[k]);
      assert log + es[..k] + [es[k]] == log + es;
    }
  }

  lemma RunJoin(w: World, a: nat, b: nat)
    requires RunInv(w) && Shaped(w) && a < |w.R| && b < |w.R| && a != b && w.R[a] == a && w.R[b] == b
    ensures RunInv(Joins(w, a, b))
  {
    hide Summed, UF.RankBound;
    assert Unfold(RunSeal, 0);
    var v := UF.Winner(w.ranks, a, b);
    SummedMerge(w.R, w.N, w.log, a, b, v, UF.Joined(w.R, a, b, v));
    UF.RankBoundAfterMerge(w.R, w.ranks, a, b);
  }

  lemma RunGrow(w: World)
    requires RunInv(w) && Shaped(w)
    ensures RunInv(Next(w, Grow))
  {
    hide Summed;
    assert Unfold(RunSeal, 0);
    SummedGrow(w.R, w.N, w.log, 1);
    assert Ids(|w.R|, 1) == [|w.R|] && Blank(1) == [NO_DATA];
    UF.RankBoundGrow(w.R, w.ranks);
  }

  lemma RunTold(w: World, es: seq<Event>)
    requires RunInv(w) && Shaped(w) && Within(es, |w.N|)
    ensures RunInv(w.(N := TellAll(w.R, w.N, es), log := w.log + es))
  {
    hide Summed, UF.RankBound, TellAll;
    assert Unfold(RunSeal, 0);
    SummedTold(w.R, w.N, w.log, es);
  }

  /** Indirect calls and deliveries do not matter to it. */
  lemma RunSame(w: World, w': World)
    requires RunInv(w) && w'.R == w.R && w'.ranks == w.ranks && w'.N == w.N && w'.log == w.log
    ensures RunInv(w')
  {
    assert Unfold(RunSeal, 0);
  }

  lemma RunStep(w: World, s: Step)
    requires RunInv(w) && Shaped(w) && Allowed(|w.R|, s)
    ensures RunInv(Next(w, s))
  {
    hide RunInv, TellAll, Joins;
    match s {
      case Grow => RunGrow(w);
      case Call(_) => RunSame(w, Next(w, s));
      case Deliver(_) => RunSame(w, Next(w, s));
      case Reset(_) => RunSame(w, Next(w, s));
      case Join(x, y) =>
        assert w.R[w.R[x]] == w.R[x] && w.R[w.R[y]] == w.R[y] by { RepsOfReps(w); }
        if w.R[x] != w.R[y] { RunJoin(w, w.R[x], w.R[y]); }
      case _ => RunTold(w, Says(w.R, s));
    }
  }

  lemma RepsOfReps(w: World)
    requires RunInv(w) && Shaped(w)
    ensures forall i :: 0 <= i < |w.R| ==> w.R[w.R[i]] == w.R[i]
  {
    assert Unfold(RunSeal, 0);
  }

  /** Every run keeps the invariant. */
  lemma {:induction false} RanInv(ss: seq<Step>)
    requires Possible(0, ss)
    ensures RunInv(Ran(ss))
  {
    if ss == [] {
      SumNone();
    } else {
      RanInv(ss[..|ss| - 1]);
      RunStep(Ran(ss[..|ss| - 1]), ss[|ss| - 1]);
    }
  }

  /** At any time: a node that represents no class is empty, a representative has exactly what its members were told. */
  lemma RunMeans(ss: seq<Step>, r: nat)
    requires Possible(0, ss) && r < Grown(ss)
    ensures var w := Ran(ss);
            && Within(w.log, |w.R|) && SumOf(w.N[r], Owed(w.R, w.log, r))
            && (w.R[r] != r ==> w.N[r] == NO_DATA)
  {
    var w := Ran(ss);
    RanInv(ss);
    assert Unfold(RunSeal, 0);
    if w.R[r] != r {
      OwedNone(w.R, w.log, r);
      SumOfNone(w.N[r]);
    }
  }

  lemma SumOfNone(d: Data)
    requires SumOf(d, multiset{})
    ensures d == NO_DATA
  {
    assert Unfold(SumSeal, 0);
    assert d.ptsto == {} && d.copySuccs == {};
    NoneCounted(d.gepSuccs);
    NoneCounted(d.constraints);
  }

  lemma NoneCounted<T>(s: seq<T>)
    ensures (forall x :: multiset(s)[x] == 0) ==> s == []
  {
    if s != [] { assert multiset(s)[s[0]] > 0; }
  }

  lemma {:induction false} OwedNone(R: seq<nat>, log: seq<Event>, r: nat)
    requires Within(log, |R|) && forall i :: 0 <= i < |R| ==> R[i] != r
    ensures Owed(R, log, r) == multiset{}
  {
    if log != [] { OwedNone(R, log[..|log| - 1], r); }
  }

  // ---- The order of steps ----

  function Pairs(ss: seq<Step>): set<(nat, nat)> {
    set s | s in ss && s.Join? :: (s.x, s.y)
  }

  lemma PairsMore(ss: seq<Step>)
    requires ss != []
    ensures var s := ss[|ss| - 1];
            Pairs(ss) == Pairs(ss[..|ss| - 1]) + if s.Join? then {(s.x, s.y)} else {}
  {
    assert ss == ss[..|ss| - 1] + [ss[|ss| - 1]];
  }

  /** Joined ids share a representative ever after. */
  lemma {:induction false} PairsJoined(ss: seq<Step>, p: (nat, nat))
    requires Possible(0, ss) && p in Pairs(ss)
    ensures p.0 < Grown(ss) && p.1 < Grown(ss) && Ran(ss).R[p.0] == Ran(ss).R[p.1]
  {
    PairsMore(ss);
    var ss' := ss[..|ss| - 1];
    if p in Pairs(ss') { PairsJoined(ss', p); }
  }

  /** Ids share a representative only if the joins so far force it. */
  lemma {:induction false} PairsForce(ss: seq<Step>, S: seq<nat>, x: nat, y: nat)
    requires Possible(0, ss) && x < Grown(ss) && y < Grown(ss) <= |S| && Ran(ss).R[x] == Ran(ss).R[y]
    requires forall p :: p in Pairs(ss) ==> p.0 < |S| && p.1 < |S| && S[p.0] == S[p.1]
    ensures S[x] == S[y]
  {
    hide Next, Joins;
    if x != y {
      PairsMore(ss);
      var ss', s := ss[..|ss| - 1], ss[|ss| - 1];
      var R := Ran(ss').R;
      StepForce(Ran(ss'), s, x, y);
      if R[x] == R[y] {
        PairsForce(ss', S, x, y);
      } else {
        assert (s.x, s.y) in Pairs(ss);
        if R[x] == R[s.x] {
          PairsForce(ss', S, x, s.x);
          PairsForce(ss', S, s.y, y);
        } else {
          PairsForce(ss', S, x, s.y);
          PairsForce(ss', S, s.x, y);
        }
      }
    }
  }

  /** Only a join makes ids share a representative. */
  lemma StepForce(w: World, s: Step, x: nat, y: nat)
    requires Shaped(w) && Allowed(|w.R|, s) && x != y
    requires var R' := Next(w, s).R; x < |R'| && y < |R'| && R'[x] == R'[y]
    ensures x < |w.R| && y < |w.R|
    ensures var R := w.R;
            || R[x] == R[y]
            || (s.Join? && ((R[x] == R[s.x] && R[y] == R[s.y]) || (R[x] == R[s.y] && R[y] == R[s.x])))
  {
  }

  /** The classes depend only on the set of pairs joined. */
  lemma SamePairsSameClasses(ss: seq<Step>, ss': seq<Step>)
    requires Possible(0, ss) && Possible(0, ss') && Grown(ss) == Grown(ss') && Pairs(ss) == Pairs(ss')
    ensures SameClasses(Ran(ss).R, Ran(ss').R)
  {
    forall p | p in Pairs(ss)
      ensures p.0 < Grown(ss) && p.1 < Grown(ss) && Ran(ss).R[p.0] == Ran(ss).R[p.1]
          && Ran(ss').R[p.0] == Ran(ss').R[p.1]
    {
      PairsJoined(ss, p);
      PairsJoined(ss', p);
    }
    var R, R' := Ran(ss).R, Ran(ss').R;
    forall x, y | 0 <= x < |R| && 0 <= y < |R| ensures R[x] == R[y] <==> R'[x] == R'[y] {
      if R[x] == R[y] { PairsForce(ss, R', x, y); }
      if R'[x] == R'[y] { PairsForce(ss', R, x, y); }
    }
  }

  /**
   * Two runs that add as many nodes, join the same pairs and tell the same facts, in whatever order
   * and with whatever representatives, agree on the class of every id up to order.
   */
  lemma RunsAgree(ss: seq<Step>, ss': seq<Step>, x: nat)
    requires Possible(0, ss) && Possible(0, ss') && Grown(ss) == Grown(ss') && Pairs(ss) == Pairs(ss')
    requires multiset(Ran(ss).log) == multiset(Ran(ss').log) && x < Grown(ss)
    ensures var w, w' := Ran(ss), Ran(ss'); Alike(w.N[w.R[x]], w'.N[w'.R[x]])
  {
    var w, w' := Ran(ss), Ran(ss');
    SamePairsSameClasses(ss, ss');
    RanInv(ss);
    RanInv(ss');
    assert Unfold(RunSeal, 0);
    SameFactsAlike(w.R, w.N, w.log, w'.R, w'.N, w'.log, x);
  }

  // ---- Filling, merging, updating ----

  function GrowSteps(n: nat): (ss: seq<Step>)
    ensures |ss| == n
  {
    seq(n, i => Grow)
  }

  function AddSteps(cs: seq<Constraint>): (ss: seq<Step>)
    ensures |ss| == |cs|
  {
    seq(|cs|, i requires 0 <= i < |cs| => Add(cs[i]))
  }

  function CallSteps(calls: seq<IndirCall>): (ss: seq<Step>)
    ensures |ss| == |calls|
  {
    seq(|calls|, i requires 0 <= i < |calls| => Call(calls[i]))
  }

  /** Merges, deliveries and resets: nobody is told anything. */
  predicate Silent(js: seq<Step>) {
    forall j :: j in js ==> j.Join? || j.Deliver? || j.Reset?
  }

  lemma {:induction false} RunParts(n: nat, ss: seq<Step>, tt: seq<Step>)
    ensures Grown(ss + tt) == Grown(ss) + Grown(tt)
    ensures Possible(n, ss + tt) <==> Possible(n, ss) && Possible(n + Grown(ss), tt)
    decreases |tt|
  {
    if tt == [] {
      assert ss + tt == ss;
    } else {
      var k := |tt| - 1;
      RunParts(n, ss, tt[..k]);
      assert (ss + tt)[..|ss| + k] == ss + tt[..k];
    }
  }

  lemma RunNone()
    ensures Possible(0, []) && Grown([]) == 0 && Ran([]) == World([], [], [], [], [], [])
  {
  }

  /** One more step. */
  lemma RunMore(ss: seq<Step>, s: Step)
    requires Possible(0, ss) && Allowed(Grown(ss), s)
    ensures Possible(0, ss + [s]) && Grown(ss + [s]) == Grown(ss) + if s.Grow? then 1 else 0
    ensures Ran(ss + [s]) == Next(Ran(ss), s)
  {
    assert (ss + [s])[..|ss|] == ss;
  }

  lemma {:induction false} GrowsRun(ss: seq<Step>, n: nat)
    requires Possible(0, ss)
    ensures Possible(0, ss + GrowSteps(n)) && Grown(ss + GrowSteps(n)) == Grown(ss) + n
    ensures Ran(ss + GrowSteps(n)) == Extended(Ran(ss), n)
  {
    hide Possible, Grown, Ran;
    var w := Ran(ss);
    if n == 0 {
      assert ss + GrowSteps(0) == ss;
      ExtendedNone(w);
    } else {
      GrowsRun(ss, n - 1);
      RunMore(ss + GrowSteps(n - 1), Grow);
      assert ss + GrowSteps(n) == ss + GrowSteps(n - 1) + [Grow];
      ExtendedMore(w, n - 1);
    }
  }

  /** w with n more nodes. */
  function Extended(w: World, n: nat): World {
    World(w.R + Ids(|w.R|, n), w.ranks + Zeros(n), w.N + Blank(n), w.log, w.C + NoCalls(n), w.D + NoDeliveries(n))
  }

  lemma ExtendedNone(w: World)
    ensures Extended(w, 0) == w
  {
    assert w.R + Ids(|w.R|, 0) == w.R && w.ranks + Zeros(0) == w.ranks && w.N + Blank(0) == w.N;
    assert w.C + NoCalls(0) == w.C && w.D + NoDeliveries(0) == w.D;
  }

  lemma ExtendedMore(w: World, n: nat)
    requires Shaped(w) && Shaped(Extended(w, n))
    ensures Next(Extended(w, n), Grow) == Extended(w, n + 1)
  {
    assert w.R + Ids(|w.R|, n + 1) == w.R + Ids(|w.R|, n) + [|w.R| + n];
    assert w.ranks + Zeros(n + 1) == w.ranks + Zeros(n) + [0];
    assert w.N + Blank(n + 1) == w.N + Blank(n) + [NO_DATA];
    assert w.C + NoCalls(n + 1) == w.C + NoCalls(n) + [[]];
    assert w.D + NoDeliveries(n + 1) == w.D + NoDeliveries(n) + [[]];
  }

  function NoDeliveries(n: nat): (D: seq<seq<set<nat>>>)
    ensures |D| == n
  {
    seq(n, i => [])
  }

  function Zeros(n: nat): (s: seq<nat>)
    ensures |s| == n
  {
    seq(n, i => 0)
  }

  lemma {:induction false} AddsRun(ss: seq<Step>, cs: seq<Constraint>)
    requires Possible(0, ss) && Mention(cs, Grown(ss))
    ensures Possible(0, ss + AddSteps(cs)) && Grown(ss + AddSteps(cs)) == Grown(ss)
    ensures var w := Ran(ss);
            Ran(ss + AddSteps(cs)) == w.(N := Built(w.R, w.N, cs), log := w.log + EventsOf(cs))
  {
    hide Possible, Grown, Ran;
    var w := Ran(ss);
    if cs == [] {
      assert ss + AddSteps(cs) == ss && w.log + [] == w.log;
    } else {
      var k := |cs| - 1;
      AddsRun(ss, cs[..k]);
      RunMore(ss + AddSteps(cs[..k]), Add(cs[k]));
      assert ss + AddSteps(cs) == ss + AddSteps(cs[..k]) + [Add(cs[k])];
      AddRun(Ran(ss + AddSteps(cs[..k])), cs[k]);
      assert EventsOf(cs) == EventsOf(cs[..k]) + if Ignored(cs[k]) then [] else [EventOf(cs[k])];
      assert w.log + EventsOf(cs) == w.log + EventsOf(cs[..k]) + if Ignored(cs[k]) then [] else [EventOf(cs[k])];
    }
  }

  lemma AddRun(w: World, c: Constraint)
    requires Shaped(w) && c.src < |w.R| && c.dest < |w.R|
    ensures Next(w, Add(c)) == w.(N := ToldOne(w.R, w.N, c), log := w.log + if Ignored(c) then [] else [EventOf(c)])
  {
    var es := Says(w.R, Add(c));
    if es == [] {
      assert w.log + es == w.log;
    } else {
      assert es == [EventOf(c)] && es[..0] == [] && TellAll(w.R, w.N, []) == w.N;
      assert TellAll(w.R, w.N, es) == ToldOne(w.R, w.N, c);
    }
  }

  lemma {:induction false} JoinsRun(ss: seq<Step>, js: seq<Step>)
    requires Possible(0, ss) && Possible(0, ss + js) && Silent(js)
    ensures Grown(ss + js) == Grown(ss) && Ran(ss + js).log == Ran(ss).log && Ran(ss + js).C == Ran(ss).C
    decreases |js|
  {
    hide Possible, Grown, Ran;
    if js == [] {
      assert ss + js == ss;
    } else {
      var k := |js| - 1;
      assert js[k] in js;
      assert ss + js == (ss + js[..k]) + [js[k]];
      assert Possible(0, ss + js[..k]) && Allowed(Grown(ss + js[..k]), js[k]) by { PossibleLess(ss + js[..k], js[k]); }
      JoinsRun(ss, js[..k]);
      RunMore(ss + js[..k], js[k]);
    }
  }

  lemma PossibleLess(ss: seq<Step>, s: Step)
    requires Possible(0, ss + [s])
    ensures Possible(0, ss) && Allowed(Grown(ss), s)
  {
    assert (ss + [s])[..|ss|] == ss;
  }

  lemma {:induction false} JoinsPossible(n: nat, m: nat, js: seq<Step>)
    requires Possible(n, js) && Silent(js) && n <= m
    ensures Possible(m, js) && Grown(js) == 0
  {
    if js != [] {
      assert js[|js| - 1] in js;
      JoinsPossible(n, m, js[..|js| - 1]);
    }
  }

  lemma {:induction false} CallsRun(ss: seq<Step>, calls: seq<IndirCall>)
    requires Possible(0, ss) && CallsWithin(calls, Grown(ss))
    ensures Possible(0, ss + CallSteps(calls)) && Grown(ss + CallSteps(calls)) == Grown(ss)
    ensures var w := Ran(ss); Ran(ss + CallSteps(calls)) == w.(C := Called(w.R, w.C, calls))
  {
    hide Possible, Grown, Ran;
    if calls == [] {
      assert ss + CallSteps(calls) == ss;
    } else {
      var k := |calls| - 1;
      CallsRun(ss, calls[..k]);
      RunMore(ss + CallSteps(calls[..k]), Call(calls[k]));
      assert ss + CallSteps(calls) == ss + CallSteps(calls[..k]) + [Call(calls[k])];
    }
  }

  lemma OnlyJoinsPair(ss: seq<Step>, js: seq<Step>, n: nat, cs: seq<Constraint>, calls: seq<IndirCall>)
    ensures Pairs(ss + js) == Pairs(ss) + Pairs(js)
    ensures Pairs(GrowSteps(n)) == {} && Pairs(AddSteps(cs)) == {} && Pairs(CallSteps(calls)) == {}
  {
  }

  /** The steps of filling the graph. */
  function FillSteps(n: nat, cs: seq<Constraint>, calls: seq<IndirCall>): seq<Step> {
    GrowSteps(n) + AddSteps(cs) + CallSteps(calls)
  }

  /**
   * Filling the graph for a and ca, merging, and updating it for b and cb gives, class by class, the
   * data that filling it for a + b and ca + cb and merging then gives.  The nodes have the same
   * indirect calls exactly when every new call's value still represents itself.
   */
  lemma MergesBetween(a: seq<Constraint>, b: seq<Constraint>, ca: seq<IndirCall>, cb: seq<IndirCall>,
                      js: seq<Step>, n: nat, m: nat, x: nat)
    requires n <= m && Mention(a, n) && Mention(b, m) && Silent(js) && Possible(n, js) && x < m
    requires CallsWithin(ca, n) && CallsWithin(cb, m)
    ensures var ss := FillSteps(n, a, ca) + js + FillSteps(m - n, b, cb);
            var ss' := FillSteps(m, a + b, ca + cb) + js;
            && Possible(0, ss) && Possible(0, ss') && Grown(ss) == Grown(ss') == m
            && Ran(ss).log == Ran(ss').log == EventsOf(a + b)
            && SameClasses(Ran(ss).R, Ran(ss').R)
            && Alike(Ran(ss).N[Ran(ss).R[x]], Ran(ss').N[Ran(ss').R[x]])
            && (Ran(ss).C == Ran(ss').C <==> forall k :: 0 <= k < |cb| ==> Ran(ss).R[cb[k].id] == cb[k].id)
  {
    hide Ran, Possible, Grown, Pairs, EventsOf, SameClasses, Alike, Called, FillSteps;
    var filled := FirstRun(a, ca, n);
    var joined := JoinedRun(filled, js, n);
    var ss := FilledRun(joined, b, cb, m - n);
    var all := FirstRun(a + b, ca + cb, m);
    var ss' := JoinedRun(all, js, n);
    EventsJoin(a, b);
    InsideRun(ss);
    SamePairsSameClasses(ss, ss');
    RunsAgree(ss, ss', x);
    CallsBetween(ca, cb, n, m, Ran(ss).R);
  }

  lemma InsideRun(ss: seq<Step>)
    requires Possible(0, ss)
    ensures Inside(Ran(ss).R, Grown(ss))
  {
  }

  /** Filling a new graph. */
  lemma FirstRun(cs: seq<Constraint>, calls: seq<IndirCall>, n: nat) returns (tt: seq<Step>)
    requires Mention(cs, n) && CallsWithin(calls, n)
    ensures tt == FillSteps(n, cs, calls) && Possible(0, tt) && Grown(tt) == n
    ensures Ran(tt).log == EventsOf(cs) && Pairs(tt) == {}
    ensures Ran(tt).R == Ids(0, n) && Ran(tt).C == Called(Ids(0, n), NoCalls(n), calls)
  {
    hide Possible, Grown, Ran, EventsOf, Called, FillSteps;
    RunNone();
    tt := FilledRun([], cs, calls, n);
    assert [] + FillSteps(n, cs, calls) == FillSteps(n, cs, calls) && [] + EventsOf(cs) == EventsOf(cs);
    assert [] + Ids(0, n) == Ids(0, n) && [] + NoCalls(n) == NoCalls(n);
  }

  /** Filling for more constraints and calls after the run ss. */
  lemma FilledRun(ss: seq<Step>, cs: seq<Constraint>, calls: seq<IndirCall>, n: nat) returns (tt: seq<Step>)
    requires Possible(0, ss) && Mention(cs, Grown(ss) + n) && CallsWithin(calls, Grown(ss) + n)
    ensures tt == ss + FillSteps(n, cs, calls) && Possible(0, tt) && Grown(tt) == Grown(ss) + n
    ensures Ran(tt).log == Ran(ss).log + EventsOf(cs) && Pairs(tt) == Pairs(ss)
    ensures Ran(tt).R == Ran(ss).R + Ids(Grown(ss), n)
    ensures Ran(tt).C == Called(Ran(tt).R, Ran(ss).C + NoCalls(n), calls)
  {
    hide Possible, Grown, Ran, Pairs, Built, EventsOf, Called;
    GrowsRun(ss, n);
    AddsRun(ss + GrowSteps(n), cs);
    CallsRun(ss + GrowSteps(n) + AddSteps(cs), calls);
    tt := ss + GrowSteps(n) + AddSteps(cs) + CallSteps(calls);
    assert tt == ss + FillSteps(n, cs, calls);
    OnlyJoinsPair(ss, GrowSteps(n), n, cs, calls);
    OnlyJoinsPair(ss + GrowSteps(n), AddSteps(cs), n, cs, calls);
    OnlyJoinsPair(ss + GrowSteps(n) + AddSteps(cs), CallSteps(calls), n, cs, calls);
  }

  lemma JoinedRun(ss: seq<Step>, js: seq<Step>, n: nat) returns (tt: seq<Step>)
    requires Possible(0, ss) && n <= Grown(ss) && Possible(n, js) && Silent(js)
    ensures tt == ss + js && Possible(0, tt) && Grown(tt) == Grown(ss)
    ensures Ran(tt).log == Ran(ss).log && Ran(tt).C == Ran(ss).C && Pairs(tt) == Pairs(ss) + Pairs(js)
  {
    JoinsPossible(n, Grown(ss), js);
    RunParts(0, ss, js);
    tt := ss + js;
    JoinsRun(ss, js);
    OnlyJoinsPair(ss, js, 0, [], []);
  }

  /** Calls added in two goes, the second with representatives R, and all at once before any merge. */
  lemma CallsBetween(ca: seq<IndirCall>, cb: seq<IndirCall>, n: nat, m: nat, R: seq<nat>)
    requires n <= m && CallsWithin(ca, n) && CallsWithin(cb, m) && Inside(R, m)
    ensures Called(R, Called(Ids(0, n), NoCalls(n), ca) + NoCalls(m - n), cb) == Called(Ids(0, m), NoCalls(m), ca + cb)
            <==> forall k :: 0 <= k < |cb| ==> R[cb[k].id] == cb[k].id
  {
    hide Called;
    TwoGoesCalls(ca, cb, n, m);
    CalledSame(R, Called(Ids(0, n), NoCalls(n), ca) + NoCalls(m - n), cb);
  }

  /** Of two merged values called later, batch building leaves each call on its own node. */
  lemma CallsDiffer(c: IndirCall, d: IndirCall)
    requires c.id == 0 && d.id == 1
    ensures var ss := FillSteps(2, [], []) + [Join(0, 1)] + FillSteps(0, [], [c, d]);
            var ss' := FillSteps(2, [], [c, d]) + [Join(0, 1)];
            Possible(0, ss) && Possible(0, ss') && Ran(ss).C != Ran(ss').C
  {
    assert Possible(2, [Join(0, 1)]);
    hide Ran, FillSteps, Possible, Grown, SameClasses, Alike, EventsOf;
    MergesBetween([], [], [], [c, d], [Join(0, 1)], 2, 2, 0);
    var none: seq<Constraint> := [];
    assert [] + [c, d] == [c, d] && none + none == none;
    var ss := FillSteps(2, [], []) + [Join(0, 1)] + FillSteps(0, [], [c, d]);
    assert Join(0, 1) in ss;
    PairsJoined(ss, (0, 1));
    assert [c, d][0].id == 0 && [c, d][1].id == 1;
  }

  // ---- Indirect calls under merging ----

  /** Each node has exactly the given indirect calls whose called value it represents. */
  ghost predicate CallsHeld(R: seq<nat>, C: seq<seq<IndirCall>>, given: set<IndirCall>) {
    forall r, c :: 0 <= r < |C| ==> (c in C[r] <==> c in given && c.id < |R| && R[c.id] == r)
  }

  /** A merge leaves the indirect calls where they are, so it keeps this exactly when the loser had none. */
  lemma MergeLosesCalls(R: seq<nat>, C: seq<seq<IndirCall>>, given: set<IndirCall>, a: nat, b: nat, w: nat)
    requires |R| == |C| && a < |R| && b < |R| && a != b && (w == a || w == b) && CallsHeld(R, C, given)
    ensures CallsHeld(UF.Joined(R, a, b, w), C, given) <==> C[if w == a then b else a] == []
  {
    var l := if w == a then b else a;
    var R' := UF.Joined(R, a, b, w);
    if C[l] != [] {
      var c := C[l][0];
      assert c in C[l];
      assert R'[c.id] == w;
    }
  }

  /** A call through value 1 stays on node 1 when 0 comes to represent both. */
  lemma CallLeftBehind()
    ensures var call := IndirCall(1, 0, 0);
            var C := Called(Ids(0, 2), NoCalls(2), [call]);
            var R' := UF.Joined(Ids(0, 2), 0, 1, UF.Winner([0, 0], 0, 1));
            && CallsHeld(Ids(0, 2), C, {call}) && !CallsHeld(R', C, {call})
            && R' == [0, 0] && C == [[], [call]]
  {
    var call := IndirCall(1, 0, 0);
    var C := Called(Ids(0, 2), NoCalls(2), [call]);
    assert [call][..0] == [] && Called(Ids(0, 2), NoCalls(2), []) == NoCalls(2) == [[], []];
    assert [] + [call] == [call] && C == NoCalls(2)[1 := [call]];
    assert C == [[], [call]];
    MergeLosesCalls(Ids(0, 2), C, {call}, 0, 1, 0);
  }
}
