/** What each kind of constraint leaves behind, in a list of constraints and in a whole run. */
module ConstraintKinds {
  import opened AndersFacts
  import opened AndersRuns
  import opened Seals

  // ---- One list of constraints ----

  /** A single constraint, by its kind. Null is 0. */
  lemma OneConstraint(R: seq<nat>, N: seq<Data>, c: Constraint)
    requires Inside(R, |N|) && c.src < |N| && c.dest < |N|
    ensures var s, d, N' := R[c.src], R[c.dest], ToldOne(R, N, c);
            match c.ctype
            case AddressOf =>
              N' == if c.src == 0 || c.dest == 0 then N else N[d := N[d].(ptsto := N[d].ptsto + {c.src})]
            case Load =>
              N' == if c.src == 0 || c.dest == 0 then N else N[s := N[s].(constraints := N[s].constraints + [c])]
            case Store =>
              N' == if c.src == 0 || c.dest == 0 then N else N[d := N[d].(constraints := N[d].constraints + [c])]
            case Copy =>
              N' == if c.dest == 0 then N
                    else if c.offs == 0 then N[s := N[s].(copySuccs := N[s].copySuccs + {c.dest})]
                    else N[s := N[s].(gepSuccs := N[s].gepSuccs + [(c.dest, c.offs)])]
  {
  }

  /** e is added to the points-to set of r by an address-of constraint in cs. */
  ghost predicate PointsBy(R: seq<nat>, cs: seq<Constraint>, r: nat, e: nat) {
    exists o: nat, k: int :: Constraint(AddressOf, e, o, k) in cs && e != 0 && o != 0 && o < |R| && R[o] == r
  }

  ghost predicate CopiesBy(R: seq<nat>, cs: seq<Constraint>, r: nat, t: nat) {
    exists o: nat :: Constraint(Copy, o, t, 0) in cs && t != 0 && o < |R| && R[o] == r
  }

  /** How often a copy with this offset to this target comes from a member of r's class, of those below n. */
  function GepsBy(R: seq<nat>, cs: multiset<Constraint>, r: nat, g: (nat, int), n: nat): nat
    requires n <= |R|
  {
    if n == 0 then 0
    else GepsBy(R, cs, r, g, n - 1) + if R[n - 1] == r then cs[Constraint(Copy, n - 1, g.0, g.1)] else 0
  }

  /** How often a load or store is to be kept by r. */
  function KeptBy(R: seq<nat>, cs: multiset<Constraint>, r: nat, c: Constraint): nat {
    if c.src == 0 || c.dest == 0 then 0
    else if c.ctype == Load && c.src < |R| && R[c.src] == r then cs[c]
    else if c.ctype == Store && c.dest < |R| && R[c.dest] == r then cs[c]
    else 0
  }

  /** The facts that constraints state, counted. */
  lemma {:induction false} PtsEvents(cs: seq<Constraint>, o: nat, e: nat)
    ensures Event(o, Pts(e)) in EventsOf(cs) <==> exists k :: Constraint(AddressOf, e, o, k) in cs && e != 0 && o != 0
  {
    if cs != [] {
      var c := cs[|cs| - 1];
      PtsEvents(cs[..|cs| - 1], o, e);
      assert cs == cs[..|cs| - 1] + [c];
      assert c.ctype == AddressOf ==> c == Constraint(AddressOf, c.src, c.dest, c.offs);
    }
  }

  lemma {:induction false} SuccEvents(cs: seq<Constraint>, o: nat, t: nat)
    ensures Event(o, Succ(t)) in EventsOf(cs) <==> Constraint(Copy, o, t, 0) in cs && t != 0
  {
    if cs != [] {
      var c := cs[|cs| - 1];
      SuccEvents(cs[..|cs| - 1], o, t);
      assert cs == cs[..|cs| - 1] + [c];
    }
  }

  lemma NoEvents()
    ensures EventsOf([]) == []
  {
  }

  lemma CountMore<T>(s: seq<T>, x: T)
    requires s != []
    ensures multiset(s)[x] == multiset(s[..|s| - 1])[x] + if s[|s| - 1] == x then 1 else 0
  {
    assert s == s[..|s| - 1] + [s[|s| - 1]];
  }

  lemma EventsMore(cs: seq<Constraint>, e: Event)
    requires cs != []
    ensures var c := cs[|cs| - 1];
            multiset(EventsOf(cs))[e]
            == multiset(EventsOf(cs[..|cs| - 1]))[e] + if !Ignored(c) && EventOf(c) == e then 1 else 0
  {
  }

  lemma {:induction false} GepEvents(cs: seq<Constraint>, o: nat, g: (nat, int))
    ensures multiset(EventsOf(cs))[Event(o, Gep(g))]
            == if g.0 != 0 && g.1 != 0 then multiset(cs)[Constraint(Copy, o, g.0, g.1)] else 0
  {
    hide EventsOf;
    if cs == [] {
      assert EventsOf(cs) == [] by { NoEvents(); }
    } else {
      var c := cs[|cs| - 1];
      GepEvents(cs[..|cs| - 1], o, g);
      EventsMore(cs, Event(o, Gep(g)));
      CountMore(cs, Constraint(Copy, o, g.0, g.1));
    }
  }

  lemma {:induction false} KeptEvents(cs: seq<Constraint>, o: nat, c: Constraint)
    ensures multiset(EventsOf(cs))[Event(o, Kept(c))]
            == if c.src != 0 && c.dest != 0 && ((c.ctype == Load && c.src == o) || (c.ctype == Store && c.dest == o))
               then multiset(cs)[c] else 0
  {
    hide EventsOf;
    if cs == [] {
      assert EventsOf(cs) == [] by { NoEvents(); }
    } else {
      KeptEvents(cs[..|cs| - 1], o, c);
      EventsMore(cs, Event(o, Kept(c)));
      CountMore(cs, c);
    }
  }

  // ---- Whole runs ----

  /** The constraints that were added, in order. */
  function Added(ss: seq<Step>): seq<Constraint> {
    if ss == [] then []
    else
      var s := ss[|ss| - 1];
      Added(ss[..|ss| - 1]) + if s.Add? then [s.cons] else []
  }

  /** Some step that adds copy edges from o added one to t; 0 and 1 are the two special values. */
  ghost predicate EdgeBy(ss: seq<Step>, o: nat, t: nat)
    requires Possible(0, ss)
  {
    ss != []
    && (|| EdgeBy(ss[..|ss| - 1], o, t)
        || match ss[|ss| - 1]
           case Edge(from, dest) =>
             from == o && dest == t && t > 1 && var q := Ran(ss[..|ss| - 1]).R[o]; q > 1 && q != t
           case Edges(from, dests) => from == o && t in dests && t > 1
           case _ => false)
  }

  lemma {:induction false} EdgeEventsMean(from: nat, dests: seq<nat>, e: Event)
    ensures e in EdgeEvents(from, dests) <==>
            e.owner == from && e.fact.Succ? && e.fact.dest in dests && e.fact.dest > 1
    ensures !e.fact.Succ? ==> multiset(EdgeEvents(from, dests))[e] == 0
  {
    if dests != [] {
      var k := |dests| - 1;
      EdgeEventsMean(from, dests[..k], e);
      assert dests == dests[..k] + [dests[k]];
    }
  }

  lemma AddedMore(ss: seq<Step>)
    requires ss != []
    ensures var ss', s := ss[..|ss| - 1], ss[|ss| - 1];
            EventsOf(Added(ss)) == EventsOf(Added(ss'))
                                   + if s.Add? && !Ignored(s.cons) then [EventOf(s.cons)] else []
  {
    var ss', s := ss[..|ss| - 1], ss[|ss| - 1];
    if s.Add? {
      assert (Added(ss') + [s.cons])[..|Added(ss')|] == Added(ss');
    } else {
      assert Added(ss) == Added(ss');
    }
  }

  lemma LogMore(ss: seq<Step>)
    requires Possible(0, ss) && ss != []
    ensures var ss', s := ss[..|ss| - 1], ss[|ss| - 1];
            Ran(ss).log == Ran(ss').log + Says(Ran(ss').R, s)
  {
    var w := Ran(ss[..|ss| - 1]);
    assert w.log + [] == w.log;
  }

  /** Facts other than copy edges come from added constraints alone. */
  lemma {:induction false} LogAdded(ss: seq<Step>, e: Event)
    requires Possible(0, ss) && !e.fact.Succ?
    ensures multiset(Ran(ss).log)[e] == multiset(EventsOf(Added(ss)))[e]
  {
    hide Ran;
    if ss == [] {
      assert Ran(ss).log == [] by { RunNone(); }
    } else {
      var ss', s := ss[..|ss| - 1], ss[|ss| - 1];
      LogAdded(ss', e);
      AddedMore(ss);
      LogMore(ss);
      if s.Edges? { EdgeEventsMean(s.from, s.dests, e); }
    }
  }

  lemma {:induction false} LogLinks(ss: seq<Step>, o: nat, t: nat)
    requires Possible(0, ss)
    ensures Event(o, Succ(t)) in Ran(ss).log <==> Event(o, Succ(t)) in EventsOf(Added(ss)) || EdgeBy(ss, o, t)
  {
    hide Ran;
    if ss == [] {
      assert Ran(ss).log == [] by { RunNone(); }
    } else {
      var ss', s := ss[..|ss| - 1], ss[|ss| - 1];
      LogLinks(ss', o, t);
      AddedMore(ss);
      LogMore(ss);
      if s.Edges? { EdgeEventsMean(s.from, s.dests, Event(o, Succ(t))); }
    }
  }

  lemma {:induction false} TimesGeps(R: seq<nat>, es: multiset<Event>, cs: multiset<Constraint>, r: nat, g: (nat, int),
                                     n: nat)
    requires n <= |R| && forall o: nat :: es[Event(o, Gep(g))] == cs[Constraint(Copy, o, g.0, g.1)]
    ensures Times(R, es, r, Gep(g), n) == GepsBy(R, cs, r, g, n)
  {
    if n > 0 { TimesGeps(R, es, cs, r, g, n - 1); }
  }

  /** A fact that only o was told. */
  lemma {:induction false} TimesOnly(R: seq<nat>, es: multiset<Event>, r: nat, f: Fact, o: nat, n: nat)
    requires n <= |R| && forall p: nat :: p != o ==> es[Event(p, f)] == 0
    ensures Times(R, es, r, f, n) == if o < n && R[o] == r then es[Event(o, f)] else 0
  {
    if n > 0 { TimesOnly(R, es, r, f, o, n - 1); }
  }

  /**
   * After any run, the class of x points to exactly the sources of the address-of constraints that were
   * added with their destination in the class, both ends not null.
   */
  lemma RunPoints(ss: seq<Step>, x: nat, e: nat)
    requires Possible(0, ss) && x < Grown(ss)
    ensures var w := Ran(ss);
            w.R[x] < |w.N| && (e in w.N[w.R[x]].ptsto <==> PointsBy(w.R, Added(ss), w.R[x], e))
  {
    hide Ran, Possible, Grown, Owed, EventsOf, Added;
    var w := Ran(ss);
    RunMeans(ss, w.R[x]);
    assert e in w.N[w.R[x]].ptsto <==> Pts(e) in Owed(w.R, w.log, w.R[x]) by { assert Unfold(SumSeal, 0); }
    OwedMeans(w.R, w.log, w.R[x], Pts(e));
    forall o: nat
      ensures Event(o, Pts(e)) in w.log <==> exists k :: Constraint(AddressOf, e, o, k) in Added(ss) && e != 0 && o != 0
    {
      LogAdded(ss, Event(o, Pts(e)));
      PtsEvents(Added(ss), o, e);
    }
  }

  /**
   * It has exactly the copy edges of the copies without an offset whose source is in the class and whose
   * destination is not null, and those of the steps that add edges.
   */
  lemma RunCopies(ss: seq<Step>, x: nat, t: nat)
    requires Possible(0, ss) && x < Grown(ss)
    ensures var w := Ran(ss);
            && w.R[x] < |w.N|
            && (t in w.N[w.R[x]].copySuccs
                <==> CopiesBy(w.R, Added(ss), w.R[x], t)
                     || exists o :: 0 <= o < |w.R| && w.R[o] == w.R[x] && EdgeBy(ss, o, t))
  {
    hide Ran, Possible, Grown, Owed, EventsOf, Added, EdgeBy;
    var w := Ran(ss);
    RunMeans(ss, w.R[x]);
    assert t in w.N[w.R[x]].copySuccs <==> Succ(t) in Owed(w.R, w.log, w.R[x]) by { assert Unfold(SumSeal, 0); }
    OwedMeans(w.R, w.log, w.R[x], Succ(t));
    forall o: nat
      ensures Event(o, Succ(t)) in w.log <==> (Constraint(Copy, o, t, 0) in Added(ss) && t != 0) || EdgeBy(ss, o, t)
    {
      LogLinks(ss, o, t);
      SuccEvents(Added(ss), o, t);
    }
  }

  /** It has the gep edge to g.0 at offset g.1 as often as copies with this offset came from the class. */
  lemma RunGeps(ss: seq<Step>, x: nat, g: (nat, int))
    requires Possible(0, ss) && x < Grown(ss)
    ensures var w := Ran(ss);
            && w.R[x] < |w.N|
            && multiset(w.N[w.R[x]].gepSuccs)[g]
               == if g.0 == 0 || g.1 == 0 then 0 else GepsBy(w.R, multiset(Added(ss)), w.R[x], g, |w.R|)
  {
    hide Ran, Possible, Grown, Owed, EventsOf, Added, Times;
    var w := Ran(ss);
    var r := w.R[x];
    RunMeans(ss, r);
    assert multiset(w.N[r].gepSuccs)[g] == Owed(w.R, w.log, r)[Gep(g)] by { assert Unfold(SumSeal, 0); }
    OwedCount(w.R, w.log, r, Gep(g), |w.R|);
    forall o: nat
      ensures multiset(w.log)[Event(o, Gep(g))]
              == if g.0 != 0 && g.1 != 0 then multiset(Added(ss))[Constraint(Copy, o, g.0, g.1)] else 0
    {
      LogAdded(ss, Event(o, Gep(g)));
      GepEvents(Added(ss), o, g);
    }
    if g.0 == 0 || g.1 == 0 {
      TimesOnly(w.R, multiset(w.log), r, Gep(g), 0, |w.R|);
    } else {
      TimesGeps(w.R, multiset(w.log), multiset(Added(ss)), r, g, |w.R|);
    }
  }

  /** It keeps each load of which it is the source and each store of which it is the destination, as often as it
      was added, unless an end is null. */
  lemma RunKeeps(ss: seq<Step>, x: nat, c: Constraint)
    requires Possible(0, ss) && x < Grown(ss)
    ensures var w := Ran(ss);
            && w.R[x] < |w.N|
            && multiset(w.N[w.R[x]].constraints)[c] == KeptBy(w.R, multiset(Added(ss)), w.R[x], c)
  {
    hide Ran, Possible, Grown, Owed, EventsOf, Added, Times;
    var w := Ran(ss);
    var r := w.R[x];
    RunMeans(ss, r);
    assert multiset(w.N[r].constraints)[c] == Owed(w.R, w.log, r)[Kept(c)] by { assert Unfold(SumSeal, 0); }
    OwedCount(w.R, w.log, r, Kept(c), |w.R|);
    var o := if c.ctype == Load then c.src else c.dest;
    forall p: nat
      ensures multiset(w.log)[Event(p, Kept(c))]
              == if c.src != 0 && c.dest != 0 && ((c.ctype == Load && c.src == p) || (c.ctype == Store && c.dest == p))
                 then multiset(Added(ss))[c] else 0
    {
      LogAdded(ss, Event(p, Kept(c)));
      KeptEvents(Added(ss), p, c);
    }
    TimesOnly(w.R, multiset(w.log), r, Kept(c), o, |w.R|);
  }

  // ---- Filling a graph ----

  lemma {:induction false} AddedJoin(ss: seq<Step>, tt: seq<Step>)
    ensures Added(ss + tt) == Added(ss) + Added(tt)
  {
    if tt == [] {
      assert ss + tt == ss;
    } else {
      var k := |tt| - 1;
      AddedJoin(ss, tt[..k]);
      assert (ss + tt)[..|ss| + k] == ss + tt[..k];
    }
  }

  lemma {:induction false} AddedNone(ss: seq<Step>)
    requires forall k :: 0 <= k < |ss| ==> !ss[k].Add?
    ensures Added(ss) == []
  {
    if ss != [] { AddedNone(ss[..|ss| - 1]); }
  }

  lemma {:induction false} AddedAll(cs: seq<Constraint>)
    ensures Added(AddSteps(cs)) == cs
  {
    if cs != [] {
      var k := |cs| - 1;
      AddedAll(cs[..k]);
      assert AddSteps(cs)[..k] == AddSteps(cs[..k]);
    }
  }

  /** Filling adds exactly the given constraints. */
  lemma AddedFill(ss: seq<Step>, n: nat, cs: seq<Constraint>, calls: seq<IndirCall>)
    ensures Added(ss + FillSteps(n, cs, calls)) == Added(ss) + cs
  {
    hide Added;
    AddedJoin(ss, FillSteps(n, cs, calls));
    AddedJoin(GrowSteps(n) + AddSteps(cs), CallSteps(calls));
    AddedJoin(GrowSteps(n), AddSteps(cs));
    AddedNone(GrowSteps(n));
    AddedNone(CallSteps(calls));
    AddedAll(cs);
  }

  lemma {:induction false} NoEdges(ss: seq<Step>, o: nat, t: nat)
    requires Possible(0, ss) && forall k :: 0 <= k < |ss| ==> !ss[k].Edge? && !ss[k].Edges?
    ensures !EdgeBy(ss, o, t)
  {
    if ss != [] { NoEdges(ss[..|ss| - 1], o, t); }
  }

  lemma {:induction false} GepsAlone(R: seq<nat>, cs: multiset<Constraint>, r: nat, g: (nat, int), n: nat)
    requires n <= |R| && R == Ids(0, |R|)
    ensures GepsBy(R, cs, r, g, n) == if r < n then cs[Constraint(Copy, r, g.0, g.1)] else 0
  {
    if n > 0 { GepsAlone(R, cs, r, g, n - 1); }
  }

  /** What a node that only represents itself holds after the constraints cs. Null is 0. */
  ghost predicate FilledNode(cs: seq<Constraint>, x: nat, d: Data) {
    && (forall e :: e in d.ptsto <==> exists k :: Constraint(AddressOf, e, x, k) in cs && e != 0 && x != 0)
    && (forall t :: t in d.copySuccs <==> Constraint(Copy, x, t, 0) in cs && t != 0)
    && (forall t, o :: multiset(d.gepSuccs)[(t, o)]
                       == if t != 0 && o != 0 then multiset(cs)[Constraint(Copy, x, t, o)] else 0)
    && forall c :: multiset(d.constraints)[c]
                   == if c.src == 0 || c.dest == 0 then 0
                      else if (c.ctype == Load && c.src == x) || (c.ctype == Store && c.dest == x) then multiset(cs)[c]
                      else 0
  }

  /** Filling a new graph with cs, node by node. */
  lemma FillLeaves(n: nat, cs: seq<Constraint>, calls: seq<IndirCall>, x: nat)
    requires Mention(cs, n) && CallsWithin(calls, n) && x < n
    ensures var ss := FillSteps(n, cs, calls);
            Possible(0, ss) && |Ran(ss).N| == n && FilledNode(cs, x, Ran(ss).N[x])
  {
    hide Ran, Possible, Grown, Added, FillSteps, EdgeBy, GepsBy, Pairs, EventsOf, Called;
    var ss := FirstRun(cs, calls, n);
    InsideRun(ss);
    AddedFill([], n, cs, calls);
    assert [] + ss == ss && Added([]) + cs == cs by { AddedNone([]); }
    var R, d := Ran(ss).R, Ran(ss).N[x];
    assert R[x] == x;
    forall e ensures e in d.ptsto <==> exists k :: Constraint(AddressOf, e, x, k) in cs && e != 0 && x != 0 {
      RunPoints(ss, x, e);
    }
    forall t ensures t in d.copySuccs <==> Constraint(Copy, x, t, 0) in cs && t != 0 {
      RunCopies(ss, x, t);
      FillHasNoEdges(n, cs, calls, t);
    }
    forall t, o
      ensures multiset(d.gepSuccs)[(t, o)] == if t != 0 && o != 0 then multiset(cs)[Constraint(Copy, x, t, o)] else 0
    {
      RunGeps(ss, x, (t, o));
      GepsAlone(R, multiset(cs), x, (t, o), n);
    }
    forall c { RunKeeps(ss, x, c); }
  }

  lemma FillHasNoEdges(n: nat, cs: seq<Constraint>, calls: seq<IndirCall>, t: nat)
    requires Possible(0, FillSteps(n, cs, calls))
    ensures forall o :: !EdgeBy(FillSteps(n, cs, calls), o, t)
  {
    forall o ensures !EdgeBy(FillSteps(n, cs, calls), o, t) { NoEdges(FillSteps(n, cs, calls), o, t); }
  }
}
