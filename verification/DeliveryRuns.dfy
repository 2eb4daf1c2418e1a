/** Difference propagation over whole runs: what the deliveries of a class add up to, whatever happens in between. */
module DeliveryRuns {
  import opened AndersFacts
  import opened AndersRuns
  import opened Deliveries
  import opened Seals
  import UF = UnionFind

  // ---- What every step keeps ----

  /** Each node has delivered parts of its points-to set, no element twice. */
  ghost predicate Delivering(w: World) {
    forall k {:trigger Unfold(RunSeal, k)} :: Unfold(RunSeal, k) ==>
      |w.D| == |w.N| && forall i :: 0 <= i < |w.D| ==> Partly(w.D[i], w.N[i])
  }

  ghost predicate Partly(deliveries: seq<set<nat>>, d: Data) {
    OnceEach(deliveries, Sent(deliveries)) && Sent(deliveries) <= d.ptsto
  }

  /** Telling takes nothing out of a points-to set. */
  lemma {:induction false} TellGrows(R: seq<nat>, N: seq<Data>, es: seq<Event>, i: nat)
    requires Inside(R, |N|) && Within(es, |N|) && i < |N|
    ensures N[i].ptsto <= TellAll(R, N, es)[i].ptsto
  {
    if es != [] { TellGrows(R, N, es[..|es| - 1], i); }
  }

  lemma DeliveringTold(w: World, es: seq<Event>)
    requires Delivering(w) && Shaped(w) && Within(es, |w.N|)
    ensures Delivering(w.(N := TellAll(w.R, w.N, es), log := w.log + es))
  {
    hide TellAll, OnceEach, Sent;
    assert Unfold(RunSeal, 0);
    forall i: nat | i < |w.N| ensures Partly(w.D[i], TellAll(w.R, w.N, es)[i]) { TellGrows(w.R, w.N, es, i); }
  }

  /** A delivery completes the points-to set of the node. */
  lemma DeliveryCompletes(w: World, r: nat)
    requires Delivering(w) && r < |w.N|
    ensures r < |w.D| && Sent(w.D[r]) <= w.N[r].ptsto
    ensures var ds := w.D[r] + [Answer(w, r)];
            OnceEach(ds, w.N[r].ptsto) && Sent(ds) == w.N[r].ptsto && Partly(ds, w.N[r])
  {
    assert Unfold(RunSeal, 0);
    DeliverNew(w.D[r], Sent(w.D[r]), w.N[r].ptsto);
    OnceEachSent(w.D[r] + [Answer(w, r)], w.N[r].ptsto);
  }

  lemma DeliveringMore(w: World, id: nat)
    requires Delivering(w) && Shaped(w) && id < |w.R|
    ensures Delivering(Next(w, Deliver(id)))
  {
    hide OnceEach, Sent;
    DeliveryCompletes(w, w.R[id]);
    assert Unfold(RunSeal, 0);
  }

  lemma DeliveringJoins(w: World, a: nat, b: nat)
    requires Delivering(w) && Shaped(w) && a < |w.R| && b < |w.R|
    ensures Delivering(Joins(w, a, b))
  {
    hide OnceEach, Sent;
    NothingSent();
    assert Unfold(RunSeal, 0);
  }

  lemma DeliveringStep(w: World, s: Step)
    requires Delivering(w) && Shaped(w) && Allowed(|w.R|, s)
    ensures Delivering(Next(w, s))
  {
    hide TellAll, Joins, OnceEach, Sent;
    match s {
      case Deliver(id) => DeliveringMore(w, id);
      case Join(x, y) => if w.R[x] != w.R[y] { DeliveringJoins(w, w.R[x], w.R[y]); }
      case Grow =>
        NothingSent();
        assert Unfold(RunSeal, 0);
      case Reset(_) =>
        NothingSent();
        assert Unfold(RunSeal, 0);
      case Call(_) => assert Unfold(RunSeal, 0);
      case _ =>
        hide Delivering;
        DeliveringTold(w, Says(w.R, s));
    }
  }

  lemma {:induction false} RanDelivering(ss: seq<Step>)
    requires Possible(0, ss)
    ensures Delivering(Ran(ss))
  {
    if ss != [] {
      hide Delivering;
      RanDelivering(ss[..|ss| - 1]);
      DeliveringStep(Ran(ss[..|ss| - 1]), ss[|ss| - 1]);
    }
  }

  // ---- Answers since a node started anew ----

  /** Node r is created, reset or merged: it will deliver its whole points-to set again. */
  ghost predicate StartsAnew(w: World, s: Step, r: nat)
    requires Shaped(w) && Allowed(|w.R|, s)
  {
    match s
    case Grow => r == |w.R|
    case Join(x, y) => w.R[x] != w.R[y] && (r == w.R[x] || r == w.R[y])
    case Reset(id) => w.R[id] == r
    case _ => false
  }

  ghost predicate StartedAt(ss: seq<Step>, i: nat, r: nat)
    requires Possible(0, ss)
  {
    i < |ss| && Upto(ss, i) && StartsAnew(Ran(ss[..i]), ss[i], r)
  }

  /** The first i steps can be taken, and the next one after them. */
  ghost predicate Upto(ss: seq<Step>, i: nat)
    requires i < |ss|
  {
    Possible(0, ss[..i]) && Allowed(Grown(ss[..i]), ss[i])
  }

  /** What the deliveries of node r returned from step i on. */
  ghost function Answers(ss: seq<Step>, i: nat, r: nat): seq<set<nat>>
    requires Possible(0, ss)
  {
    if |ss| <= i then []
    else
      var w, s := Ran(ss[..|ss| - 1]), ss[|ss| - 1];
      Answers(ss[..|ss| - 1], i, r) + if s.Deliver? && w.R[s.id] == r then [Answer(w, r)] else []
  }

  /** Node r does not start anew from step i on. */
  ghost predicate Undisturbed(ss: seq<Step>, i: nat, r: nat)
    requires Possible(0, ss)
  {
    |ss| <= i
    || (Undisturbed(ss[..|ss| - 1], i, r) && !StartsAnew(Ran(ss[..|ss| - 1]), ss[|ss| - 1], r))
  }

  /** One step of node r's deliveries. */
  lemma StepDeliveries(w: World, s: Step, r: nat)
    requires Shaped(w) && Allowed(|w.R|, s) && r < |w.R| + if s.Grow? then 1 else 0
    ensures var D := Next(w, s).D;
            && r < |D|
            && (StartsAnew(w, s, r) ==> D[r] == [])
            && (!StartsAnew(w, s, r) ==>
                  && r < |w.D|
                  && D[r] == w.D[r] + if s.Deliver? && w.R[s.id] == r then [Answer(w, r)] else [])
  {
    assert r < |w.D| ==> w.D[r] + [] == w.D[r];
  }

  /** A node keeps exactly what its deliveries returned since it last started anew. */
  lemma {:induction false} AnswersSince(ss: seq<Step>, i: nat, r: nat)
    requires Possible(0, ss) && r < Grown(ss) && StartedAt(ss, i, r) && Undisturbed(ss, i + 1, r)
    ensures r < |Ran(ss).D| && Ran(ss).D[r] == Answers(ss, i + 1, r)
  {
    var ss', s := ss[..|ss| - 1], ss[|ss| - 1];
    StepDeliveries(Ran(ss'), s, r);
    if i < |ss| - 1 {
      assert ss'[..i] == ss[..i] && ss'[i] == ss[i];
      AnswersSince(ss', i, r);
    }
  }

  /** Every node started anew at some step, its creation at the latest. */
  lemma {:induction false} LastStart(ss: seq<Step>, r: nat) returns (i: nat)
    requires Possible(0, ss) && r < Grown(ss)
    ensures StartedAt(ss, i, r) && Undisturbed(ss, i + 1, r)
  {
    var ss', s := ss[..|ss| - 1], ss[|ss| - 1];
    if StartsAnew(Ran(ss'), s, r) {
      i := |ss| - 1;
    } else {
      i := LastStart(ss', r);
      assert ss'[..i] == ss[..i] && ss'[i] == ss[i];
    }
  }

  /** At any time, the answers of a node since it last started anew are disjoint parts of its points-to set. */
  lemma AnswersDisjoint(ss: seq<Step>, i: nat, r: nat)
    requires Possible(0, ss) && r < Grown(ss) && StartedAt(ss, i, r) && Undisturbed(ss, i + 1, r)
    ensures r < |Ran(ss).N| && Partly(Answers(ss, i + 1, r), Ran(ss).N[r])
  {
    AnswersSince(ss, i, r);
    RanDelivering(ss);
    assert Unfold(RunSeal, 0);
  }

  /**
   * Right after a delivery of the class of x, whatever was told and merged before: the answers since
   * its representative last started anew contain each element of the points-to set exactly once, and
   * these elements are exactly what members of the class were ever told to point to.
   */
  lemma DeliveredSinceStart(ss: seq<Step>, x: nat, i: nat, e: nat)
    requires Possible(0, ss + [Deliver(x)])
    requires var tt := ss + [Deliver(x)];
             && x < Grown(tt) && StartedAt(tt, i, Ran(tt).R[x]) && Undisturbed(tt, i + 1, Ran(tt).R[x])
    ensures var tt := ss + [Deliver(x)];
            var w := Ran(tt);
            var answers := Answers(tt, i + 1, w.R[x]);
            && w.R[x] < |w.N| && OnceEach(answers, w.N[w.R[x]].ptsto)
            && (e in w.N[w.R[x]].ptsto <==> exists k :: InOnly(answers, k, e))
            && (e in w.N[w.R[x]].ptsto
                <==> exists o :: 0 <= o < |w.R| && w.R[o] == w.R[x] && Event(o, Pts(e)) in w.log)
  {
    hide OnceEach, Possible, Grown, Undisturbed, StartedAt, Ran, Answers;
    PossibleLess(ss, Deliver(x));
    RunMore(ss, Deliver(x));
    var tt, w := ss + [Deliver(x)], Ran(ss);
    var r := w.R[x];
    RanDelivering(ss);
    DeliveryCompletes(w, r);
    AnswersSince(tt, i, r);
    DeliveredOnce(Answers(tt, i + 1, r), w.N[r].ptsto, e);
    RunMeans(ss, r);
    assert e in w.N[r].ptsto <==> Pts(e) in Owed(w.R, w.log, r) by { assert Unfold(SumSeal, 0); }
    OwedMeans(w.R, w.log, r, Pts(e));
  }

  /** The first delivery after a merge is everything the two classes pointed to. */
  lemma MergeDeliversAgain(ss: seq<Step>, x: nat, y: nat, z: nat)
    requires Possible(0, ss) && x < Grown(ss) && y < Grown(ss) && z < Grown(ss)
    requires var R := Ran(ss).R; R[x] != R[y] && R[z] in {R[x], R[y]}
    ensures var w, w' := Ran(ss), Next(Ran(ss), Join(x, y));
            && w.R[x] < |w.N| && w.R[y] < |w.N| && w'.R[z] < |w'.N| == |w'.D|
            && Answer(w', w'.R[z]) == w.N[w.R[x]].ptsto + w.N[w.R[y]].ptsto
  {
    var w := Ran(ss);
    RanInv(ss);
    RepsOfReps(w);
    NothingSent();
  }
}
