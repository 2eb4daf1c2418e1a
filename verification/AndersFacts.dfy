/** What the constraint graph is told, as values: the facts each constraint adds, and what a class is owed. */
module AndersFacts {
  import opened Seals

  const NULL_VALUE: nat := 0
  const INT_VALUE: nat := 1

  datatype ConstraintType = Copy | Load | Store | AddressOf
  datatype Constraint = Constraint(ctype: ConstraintType, src: nat, dest: nat, offs: int)

  /** One thing a node can be told. */
  datatype Fact = Pts(obj: nat) | Succ(dest: nat) | Gep(gep: (nat, int)) | Kept(cons: Constraint)
  datatype Event = Event(owner: nat, fact: Fact)

  /** The part of a node that merging moves. */
  datatype Data = Data(ptsto: set<nat>, copySuccs: set<nat>, gepSuccs: seq<(nat, int)>, constraints: seq<Constraint>)

  const NO_DATA: Data := Data({}, {}, [], [])

  // ---- Constraints ----

  /** Constraints on the null value are dropped, except copies out of it. */
  predicate Ignored(c: Constraint) {
    if c.ctype == Copy then c.dest == NULL_VALUE else c.src == NULL_VALUE || c.dest == NULL_VALUE
  }

  /** The node a constraint is added to, and what it is told. */
  function EventOf(c: Constraint): Event {
    match c.ctype
    case Load => Event(c.src, Kept(c))
    case Store => Event(c.dest, Kept(c))
    case AddressOf => Event(c.dest, Pts(c.src))
    case Copy => Event(c.src, if c.offs == 0 then Succ(c.dest) else Gep((c.dest, c.offs)))
  }

  function EventsOf(cs: seq<Constraint>): seq<Event> {
    if cs == [] then []
    else
      var k := |cs| - 1;
      EventsOf(cs[..k]) + (if Ignored(cs[k]) then [] else [EventOf(cs[k])])
  }

  lemma {:induction false} EventsJoin(a: seq<Constraint>, b: seq<Constraint>)
    ensures EventsOf(a + b) == EventsOf(a) + EventsOf(b)
  {
    hide Ignored, EventOf;
    if b == [] {
      assert a + b == a;
    } else {
      var k := |b| - 1;
      EventsJoin(a, b[..k]);
      assert (a + b)[..|a| + k] == a + b[..k];
    }
  }

  /** The largest id mentioned, or top. */
  function MaxId(top: int, cs: seq<Constraint>): (m: int)
    ensures top <= m && forall k :: 0 <= k < |cs| ==> cs[k].src <= m && cs[k].dest <= m
  {
    if cs == [] then top
    else
      var k := |cs| - 1;
      var m := MaxId(top, cs[..k]);
      assert forall i :: 0 <= i < k ==> cs[i] == cs[..k][i];
      var d := if cs[k].dest > m then cs[k].dest else m;
      if cs[k].src > d then cs[k].src else d
  }

  lemma MaxIdNone(top: int)
    ensures MaxId(top, []) == top
  {
  }

  lemma MaxIdMore(top: int, cs: seq<Constraint>, c: Constraint)
    ensures var m := MaxId(top, cs);
            var d := if c.dest > m then c.dest else m;
            MaxId(top, cs + [c]) == if c.src > d then c.src else d
  {
    assert (cs + [c])[..|cs|] == cs;
  }

  lemma {:induction false} MaxIdJoin(top: int, a: seq<Constraint>, b: seq<Constraint>)
    ensures MaxId(top, a + b) == MaxId(MaxId(top, a), b)
  {
    hide MaxId;
    if b == [] {
      assert a + b == a;
      MaxIdNone(MaxId(top, a));
    } else {
      var k := |b| - 1;
      MaxIdJoin(top, a, b[..k]);
      MaxIdMore(top, a + b[..k], b[k]);
      MaxIdMore(MaxId(top, a), b[..k], b[k]);
      assert a + b == a + b[..k] + [b[k]] && b == b[..k] + [b[k]];
    }
  }

  /** It is no larger than it needs to be. */
  lemma {:induction false} MaxIdMeans(top: int, cs: seq<Constraint>)
    ensures MaxId(top, cs) == top
            || exists k :: 0 <= k < |cs| && (cs[k].src == MaxId(top, cs) || cs[k].dest == MaxId(top, cs))
  {
    if cs != [] {
      var k := |cs| - 1;
      MaxIdMeans(top, cs[..k]);
      assert forall j :: 0 <= j < k ==> cs[..k][j] == cs[j];
    }
  }

  function MaxArg(top: int, args: seq<int>): (m: int)
    ensures top <= m && forall k :: 0 <= k < |args| ==> args[k] <= m
  {
    if args == [] then top
    else
      var k := |args| - 1;
      var m := MaxArg(top, args[..k]);
      assert forall i :: 0 <= i < k ==> args[i] == args[..k][i];
      if args[k] > m then args[k] else m
  }

  lemma {:induction false} MaxArgMeans(top: int, args: seq<int>)
    ensures MaxArg(top, args) == top || MaxArg(top, args) in args
  {
    if args != [] {
      var k := |args| - 1;
      MaxArgMeans(top, args[..k]);
      assert args == args[..k] + [args[k]];
    }
  }

  /** Every event concerns one of the first n nodes. */
  predicate Within(es: seq<Event>, n: nat) {
    forall k :: 0 <= k < |es| ==> es[k].owner < n
  }

  predicate Mention(cs: seq<Constraint>, n: nat) {
    forall k :: 0 <= k < |cs| ==> cs[k].src < n && cs[k].dest < n
  }

  // ---- Telling nodes, in order ----

  function Told(d: Data, f: Fact): Data {
    match f
    case Pts(x) => d.(ptsto := d.ptsto + {x})
    case Succ(x) => d.(copySuccs := d.copySuccs + {x})
    case Gep(g) => d.(gepSuccs := d.gepSuccs + [g])
    case Kept(c) => d.(constraints := d.constraints + [c])
  }

  ghost predicate Inside(R: seq<nat>, n: nat) {
    |R| == n && forall i :: 0 <= i < n ==> R[i] < n
  }

  /** The nodes after a single constraint: it reaches the representative of its owner, unless it is ignored. */
  function ToldOne(R: seq<nat>, N: seq<Data>, c: Constraint): (N': seq<Data>)
    requires Inside(R, |N|) && EventOf(c).owner < |N|
    ensures |N'| == |N|
  {
    if Ignored(c) then N
    else
      var r := R[EventOf(c).owner];
      N[r := Told(N[r], EventOf(c).fact)]
  }

  /** The nodes after a list of constraints. */
  function Built(R: seq<nat>, N: seq<Data>, cs: seq<Constraint>): (N': seq<Data>)
    requires Inside(R, |N|) && Mention(cs, |N|)
    ensures |N'| == |N|
  {
    if cs == [] then N else ToldOne(R, Built(R, N, cs[..|cs| - 1]), cs[|cs| - 1])
  }

  lemma {:induction false} BuiltJoin(R: seq<nat>, N: seq<Data>, a: seq<Constraint>, b: seq<Constraint>)
    requires Inside(R, |N|) && Mention(a, |N|) && Mention(b, |N|)
    ensures Built(R, N, a + b) == Built(R, Built(R, N, a), b)
  {
    if b == [] {
      assert a + b == a;
    } else {
      var k := |b| - 1;
      BuiltJoin(R, N, a, b[..k]);
      assert (a + b)[..|a| + k] == a + b[..k];
    }
  }

  /** Nodes added later do not matter to earlier constraints. */
  lemma {:induction false} BuiltGrow(R: seq<nat>, N: seq<Data>, R': seq<nat>, N': seq<Data>, cs: seq<Constraint>)
    requires Inside(R, |N|) && Mention(cs, |N|) && Inside(R + R', |N + N'|)
    ensures Built(R + R', N + N', cs) == Built(R, N, cs) + N'
  {
    if cs != [] { BuiltGrow(R, N, R', N', cs[..|cs| - 1]); }
  }

  function Ids(from: nat, n: nat): (s: seq<nat>)
    ensures |s| == n && forall i :: 0 <= i < n ==> s[i] == from + i
  {
    seq(n, i => from + i)
  }

  function Blank(n: nat): (s: seq<Data>)
    ensures |s| == n
  {
    seq(n, i => NO_DATA)
  }

  // ---- Indirect calls ----

  /** A call through a pointer: the called value, and the call information kept with it. */
  datatype IndirCall = IndirCall(id: nat, info: nat, site: nat)

  predicate CallsWithin(calls: seq<IndirCall>, n: nat) {
    forall k :: 0 <= k < |calls| ==> calls[k].id < n
  }

  function NoCalls(n: nat): (C: seq<seq<IndirCall>>)
    ensures |C| == n
  {
    seq(n, i => [])
  }

  /** The lists of indirect calls after calls: each goes to the representative of the called value. */
  function Called(R: seq<nat>, C: seq<seq<IndirCall>>, calls: seq<IndirCall>): (C': seq<seq<IndirCall>>)
    requires Inside(R, |C|) && CallsWithin(calls, |R|)
    ensures |C'| == |C|
  {
    if calls == [] then C
    else
      var k := |calls| - 1;
      var D := Called(R, C, calls[..k]);
      var r := R[calls[k].id];
      D[r := D[r] + [calls[k]]]
  }

  lemma {:induction false} CalledJoin(R: seq<nat>, C: seq<seq<IndirCall>>, a: seq<IndirCall>, b: seq<IndirCall>)
    requires Inside(R, |C|) && CallsWithin(a, |R|) && CallsWithin(b, |R|)
    ensures Called(R, C, a + b) == Called(R, Called(R, C, a), b)
  {
    if b == [] {
      assert a + b == a;
    } else {
      var k := |b| - 1;
      CalledJoin(R, C, a, b[..k]);
      assert (a + b)[..|a| + k] == a + b[..k];
    }
  }

  lemma {:induction false} CalledGrow(R: seq<nat>, C: seq<seq<IndirCall>>, R': seq<nat>, C': seq<seq<IndirCall>>,
                                      calls: seq<IndirCall>)
    requires Inside(R, |C|) && CallsWithin(calls, |R|) && Inside(R + R', |C + C'|)
    ensures Called(R + R', C + C', calls) == Called(R, C, calls) + C'
  {
    if calls != [] { CalledGrow(R, C, R', C', calls[..|calls| - 1]); }
  }

  /** The calls that representatives R place on node x, in order. */
  function Placed(R: seq<nat>, calls: seq<IndirCall>, x: nat): seq<IndirCall>
    requires CallsWithin(calls, |R|)
  {
    if calls == [] then []
    else
      var k := |calls| - 1;
      Placed(R, calls[..k], x) + (if R[calls[k].id] == x then [calls[k]] else [])
  }

  lemma {:induction false} PlacedMeans(R: seq<nat>, calls: seq<IndirCall>, x: nat, c: IndirCall)
    requires CallsWithin(calls, |R|)
    ensures c in Placed(R, calls, x) <==> c in calls && c.id < |R| && R[c.id] == x
  {
    if calls != [] {
      var k := |calls| - 1;
      PlacedMeans(R, calls[..k], x, c);
      assert calls == calls[..k] + [calls[k]];
    }
  }

  lemma {:induction false} CalledAt(R: seq<nat>, C: seq<seq<IndirCall>>, calls: seq<IndirCall>, x: nat)
    requires Inside(R, |C|) && CallsWithin(calls, |R|) && x < |C|
    ensures Called(R, C, calls)[x] == C[x] + Placed(R, calls, x)
  {
    if calls == [] {
      assert C[x] + [] == C[x];
    } else {
      CalledAt(R, C, calls[..|calls| - 1], x);
    }
  }

  /** Representatives place calls as identity does exactly when every called value represents itself. */
  lemma CalledSame(R: seq<nat>, C: seq<seq<IndirCall>>, calls: seq<IndirCall>)
    requires Inside(R, |C|) && CallsWithin(calls, |R|)
    ensures Called(R, C, calls) == Called(Ids(0, |R|), C, calls)
            <==> forall k :: 0 <= k < |calls| ==> R[calls[k].id] == calls[k].id
  {
    hide Called;
    if forall k :: 0 <= k < |calls| ==> R[calls[k].id] == calls[k].id {
      CalledAlike(R, Ids(0, |R|), C, calls);
    } else {
      var k :| 0 <= k < |calls| && R[calls[k].id] != calls[k].id;
      CalledApart(R, C, calls, k);
    }
  }

  lemma CalledApart(R: seq<nat>, C: seq<seq<IndirCall>>, calls: seq<IndirCall>, k: nat)
    requires Inside(R, |C|) && CallsWithin(calls, |R|) && k < |calls| && R[calls[k].id] != calls[k].id
    ensures Called(R, C, calls) != Called(Ids(0, |R|), C, calls)
  {
    hide Called, Placed;
    var c := calls[k];
    var here, there := Placed(R, calls, c.id), Placed(Ids(0, |R|), calls, c.id);
    CalledAt(R, C, calls, c.id);
    CalledAt(Ids(0, |R|), C, calls, c.id);
    PlacedMeans(R, calls, c.id, c);
    PlacedMeans(Ids(0, |R|), calls, c.id, c);
    assert c in there && c !in here;
    SameAfter(C[c.id], here, there);
  }

  lemma SameAfter<T>(a: seq<T>, b: seq<T>, c: seq<T>)
    ensures a + b == a + c <==> b == c
  {
    assert (a + b)[|a|..] == b && (a + c)[|a|..] == c;
  }

  lemma {:induction false} CalledAlike(R: seq<nat>, R': seq<nat>, C: seq<seq<IndirCall>>, calls: seq<IndirCall>)
    requires Inside(R, |C|) && Inside(R', |C|) && CallsWithin(calls, |R|)
    requires forall k :: 0 <= k < |calls| ==> R[calls[k].id] == R'[calls[k].id]
    ensures Called(R, C, calls) == Called(R', C, calls)
  {
    if calls != [] { CalledAlike(R, R', C, calls[..|calls| - 1]); }
  }

  // ---- Building at once and in two goes ----

  /** The nodes that fill builds. */
  function Filled(cs: seq<Constraint>): (N: seq<Data>)
    ensures |N| == MaxId(0, cs) + 1
  {
    var n := MaxId(0, cs) + 1;
    Built(Ids(0, n), Blank(n), cs)
  }

  function FilledCalls(cs: seq<Constraint>, calls: seq<IndirCall>): (C: seq<seq<IndirCall>>)
    requires CallsWithin(calls, MaxId(0, cs) + 1)
    ensures |C| == MaxId(0, cs) + 1
  {
    var n := MaxId(0, cs) + 1;
    Called(Ids(0, n), NoCalls(n), calls)
  }

  /** How many nodes an update brings n nodes to. */
  function Extent(n: nat, cs: seq<Constraint>, args: seq<int>): (m: nat)
    ensures n <= m && Mention(cs, m)
  {
    MaxArg(MaxId(n - 1, cs), args) + 1
  }

  /** What an update makes of nodes that are their own representatives. */
  function Updated(N: seq<Data>, cs: seq<Constraint>, args: seq<int>): (N': seq<Data>)
    ensures |N'| == Extent(|N|, cs, args)
  {
    var m := Extent(|N|, cs, args);
    Built(Ids(0, m), N + Blank(m - |N|), cs)
  }

  function UpdatedCalls(C: seq<seq<IndirCall>>, cs: seq<Constraint>, calls: seq<IndirCall>, args: seq<int>)
    : (C': seq<seq<IndirCall>>)
    requires CallsWithin(calls, Extent(|C|, cs, args))
    ensures |C'| == Extent(|C|, cs, args)
  {
    var m := Extent(|C|, cs, args);
    Called(Ids(0, m), C + NoCalls(m - |C|), calls)
  }

  /**
   * Filling for constraints a and calls ca and then updating for b and cb gives the nodes of filling
   * for a + b and ca + cb, followed by the empty nodes of the ids that only the arguments args of new
   * calls mention.
   */
  lemma BatchIsIncremental(a: seq<Constraint>, b: seq<Constraint>, ca: seq<IndirCall>, cb: seq<IndirCall>,
                           args: seq<int>) returns (more: nat)
    requires CallsWithin(ca, MaxId(0, a) + 1) && CallsWithin(cb, MaxId(0, a + b) + 1)
    ensures args == [] ==> more == 0
    ensures Updated(Filled(a), b, args) == Filled(a + b) + Blank(more)
    ensures CallsWithin(ca + cb, MaxId(0, a + b) + 1) && CallsWithin(cb, Extent(MaxId(0, a) + 1, b, args))
    ensures UpdatedCalls(FilledCalls(a, ca), b, cb, args) == FilledCalls(a + b, ca + cb) + NoCalls(more)
  {
    hide Built, Called, MaxId, MaxArg;
    ExtentJoin(a, b, args);
    FilledThenUpdated(a, b, args);
    FilledThenUpdatedCalls(a, b, ca, cb, args);
    more := Extent(MaxId(0, a) + 1, b, args) - MaxId(0, a + b) - 1;
  }

  lemma ExtentJoin(a: seq<Constraint>, b: seq<Constraint>, args: seq<int>)
    ensures MaxId(0, a) <= MaxId(0, a + b) < Extent(MaxId(0, a) + 1, b, args)
    ensures args == [] ==> Extent(MaxId(0, a) + 1, b, args) == MaxId(0, a + b) + 1
  {
    MaxIdJoin(0, a, b);
  }

  lemma FilledThenUpdated(a: seq<Constraint>, b: seq<Constraint>, args: seq<int>)
    requires MaxId(0, a) <= MaxId(0, a + b) < Extent(MaxId(0, a) + 1, b, args)
    ensures Updated(Filled(a), b, args)
            == Filled(a + b) + Blank(Extent(MaxId(0, a) + 1, b, args) - MaxId(0, a + b) - 1)
  {
    hide Built, MaxId, MaxArg;
    var n, all := MaxId(0, a) + 1, MaxId(0, a + b) + 1;
    var m := Extent(n, b, args);
    TwoGoes(a, b, n, m);
    OneGo(a + b, all, m);
  }

  lemma FilledThenUpdatedCalls(a: seq<Constraint>, b: seq<Constraint>, ca: seq<IndirCall>, cb: seq<IndirCall>,
                               args: seq<int>)
    requires CallsWithin(ca, MaxId(0, a) + 1) && CallsWithin(cb, MaxId(0, a + b) + 1)
    requires MaxId(0, a) <= MaxId(0, a + b) < Extent(MaxId(0, a) + 1, b, args)
    ensures UpdatedCalls(FilledCalls(a, ca), b, cb, args)
            == FilledCalls(a + b, ca + cb) + NoCalls(Extent(MaxId(0, a) + 1, b, args) - MaxId(0, a + b) - 1)
  {
    hide Called, MaxId, MaxArg;
    var n, all := MaxId(0, a) + 1, MaxId(0, a + b) + 1;
    var m := Extent(n, b, args);
    TwoGoesCalls(ca, cb, n, m);
    OneGoCalls(ca + cb, all, m);
  }

  lemma TwoGoes(a: seq<Constraint>, b: seq<Constraint>, n: nat, m: nat)
    requires n <= m && Mention(a, n) && Mention(b, m)
    ensures Built(Ids(0, m), Built(Ids(0, n), Blank(n), a) + Blank(m - n), b) == Built(Ids(0, m), Blank(m), a + b)
  {
    hide Built;
    BuiltJoin(Ids(0, m), Blank(m), a, b);
    OneGo(a, n, m);
  }

  lemma OneGo(a: seq<Constraint>, n: nat, m: nat)
    requires n <= m && Mention(a, n)
    ensures Built(Ids(0, m), Blank(m), a) == Built(Ids(0, n), Blank(n), a) + Blank(m - n)
  {
    hide Built;
    assert Ids(0, m) == Ids(0, n) + Ids(n, m - n);
    assert Blank(m) == Blank(n) + Blank(m - n);
    BuiltGrow(Ids(0, n), Blank(n), Ids(n, m - n), Blank(m - n), a);
  }

  lemma TwoGoesCalls(a: seq<IndirCall>, b: seq<IndirCall>, n: nat, m: nat)
    requires n <= m && CallsWithin(a, n) && CallsWithin(b, m)
    ensures Called(Ids(0, m), Called(Ids(0, n), NoCalls(n), a) + NoCalls(m - n), b)
            == Called(Ids(0, m), NoCalls(m), a + b)
  {
    hide Called;
    CalledJoin(Ids(0, m), NoCalls(m), a, b);
    OneGoCalls(a, n, m);
  }

  lemma OneGoCalls(a: seq<IndirCall>, n: nat, m: nat)
    requires n <= m && CallsWithin(a, n)
    ensures Called(Ids(0, m), NoCalls(m), a) == Called(Ids(0, n), NoCalls(n), a) + NoCalls(m - n)
  {
    hide Called;
    assert Ids(0, m) == Ids(0, n) + Ids(n, m - n);
    assert NoCalls(m) == NoCalls(n) + NoCalls(m - n);
    CalledGrow(Ids(0, n), NoCalls(n), Ids(n, m - n), NoCalls(m - n), a);
  }

  // ---- The nodes an update reports ----

  /** The representatives that constraints were added to, in order. */
  function Touched(R: seq<nat>, cs: seq<Constraint>): seq<nat>
    requires Mention(cs, |R|)
  {
    if cs == [] then []
    else
      var c := cs[|cs| - 1];
      Touched(R, cs[..|cs| - 1]) + (if Ignored(c) then [] else [R[EventOf(c).owner]])
  }

  /** The constraint reaches r: copies and loads go to their source, the others to their destination; null is 0. */
  predicate Adds(R: seq<nat>, c: Constraint, r: nat) {
    match c.ctype
    case Copy => c.dest != 0 && c.src < |R| && R[c.src] == r
    case Load => c.src != 0 && c.dest != 0 && c.src < |R| && R[c.src] == r
    case _ => c.src != 0 && c.dest != 0 && c.dest < |R| && R[c.dest] == r
  }

  /** Exactly the representatives of the owners of constraints that are not ignored; no other node changed. */
  lemma TouchedMeans(R: seq<nat>, N: seq<Data>, cs: seq<Constraint>, r: nat)
    requires Inside(R, |N|) && Mention(cs, |N|) && r < |N|
    ensures r in Touched(R, cs) <==> exists k :: 0 <= k < |cs| && Adds(R, cs[k], r)
    ensures r !in Touched(R, cs) ==> Built(R, N, cs)[r] == N[r]
  {
    TouchedIds(R, cs, r);
    if r !in Touched(R, cs) { TouchedOnly(R, N, cs, r); }
  }

  lemma {:induction false} TouchedIds(R: seq<nat>, cs: seq<Constraint>, r: nat)
    requires Mention(cs, |R|)
    ensures r in Touched(R, cs) <==> exists k :: 0 <= k < |cs| && Adds(R, cs[k], r)
  {
    hide Adds, Ignored, EventOf;
    if cs != [] {
      var k := |cs| - 1;
      TouchedIds(R, cs[..k], r);
      AddsMeans(R, cs[k], r);
      assert forall j :: 0 <= j < k ==> cs[..k][j] == cs[j];
    }
  }

  lemma AddsMeans(R: seq<nat>, c: Constraint, r: nat)
    requires c.src < |R| && c.dest < |R|
    ensures Adds(R, c, r) <==> !Ignored(c) && R[EventOf(c).owner] == r
  {
  }

  lemma {:induction false} TouchedOnly(R: seq<nat>, N: seq<Data>, cs: seq<Constraint>, r: nat)
    requires Inside(R, |N|) && Mention(cs, |N|) && r < |N| && r !in Touched(R, cs)
    ensures Built(R, N, cs)[r] == N[r]
  {
    if cs != [] { TouchedOnly(R, N, cs[..|cs| - 1], r); }
  }

  // ---- What a class is owed, in any order ----

  /** The facts told to members of r's class. */
  function Owed(R: seq<nat>, es: seq<Event>, r: nat): multiset<Fact>
    requires Within(es, |R|)
  {
    if es == [] then multiset{}
    else
      var k := |es| - 1;
      Owed(R, es[..k], r) + (if R[es[k].owner] == r then multiset{es[k].fact} else multiset{})
  }

  lemma {:induction false} OwedMeans(R: seq<nat>, log: seq<Event>, r: nat, f: Fact)
    requires Within(log, |R|)
    ensures f in Owed(R, log, r) <==> exists o :: 0 <= o < |R| && R[o] == r && Event(o, f) in log
  {
    if log != [] {
      var k := |log| - 1;
      OwedMeans(R, log[..k], r, f);
      assert log == log[..k] + [log[k]];
      assert log[k] == Event(log[k].owner, log[k].fact);
    }
  }

  /** The data is what those facts add up to. */
  ghost predicate SumOf(d: Data, fs: multiset<Fact>) {
    forall k {:trigger Unfold(SumSeal, k)} :: Unfold(SumSeal, k) ==>
      && (forall x :: x in d.ptsto <==> Pts(x) in fs)
      && (forall x :: x in d.copySuccs <==> Succ(x) in fs)
      && (forall g :: multiset(d.gepSuccs)[g] == fs[Gep(g)])
      && (forall c :: multiset(d.constraints)[c] == fs[Kept(c)])
  }

  /** Equal up to the order of the two lists. */
  predicate Alike(d: Data, e: Data) {
    && d.ptsto == e.ptsto && d.copySuccs == e.copySuccs
    && multiset(d.gepSuccs) == multiset(e.gepSuccs) && multiset(d.constraints) == multiset(e.constraints)
  }

  lemma SumsAlike(d: Data, e: Data, fs: multiset<Fact>)
    requires SumOf(d, fs) && SumOf(e, fs)
    ensures Alike(d, e)
  {
    assert Unfold(SumSeal, 0);
    forall x ensures x in d.ptsto <==> x in e.ptsto {
      assert x in d.ptsto <==> Pts(x) in fs;
    }
    forall x ensures x in d.copySuccs <==> x in e.copySuccs {
      assert x in d.copySuccs <==> Succ(x) in fs;
    }
    forall g ensures multiset(d.gepSuccs)[g] == multiset(e.gepSuccs)[g] {
      assert multiset(d.gepSuccs)[g] == fs[Gep(g)];
    }
    forall c ensures multiset(d.constraints)[c] == multiset(e.constraints)[c] {
      assert multiset(d.constraints)[c] == fs[Kept(c)];
    }
  }

  lemma SumNone()
    ensures SumOf(NO_DATA, multiset{})
  {
  }

  lemma SumTold(d: Data, fs: multiset<Fact>, f: Fact)
    requires SumOf(d, fs)
    ensures SumOf(Told(d, f), fs + multiset{f})
  {
    assert Unfold(SumSeal, 0);
  }

  /** The receiver of a merge and what it takes over. */
  function Merged(d: Data, e: Data): Data {
    Data(d.ptsto + e.ptsto, d.copySuccs + e.copySuccs, d.gepSuccs + e.gepSuccs, d.constraints + e.constraints)
  }

  lemma SumMerged(d: Data, fs: multiset<Fact>, e: Data, gs: multiset<Fact>)
    requires SumOf(d, fs) && SumOf(e, gs)
    ensures SumOf(Merged(d, e), fs + gs)
  {
    assert Unfold(SumSeal, 0);
  }

  /** Every node holds exactly what its class is owed, so nothing if it represents no class. */
  ghost predicate Summed(R: seq<nat>, N: seq<Data>, es: seq<Event>) {
    && |R| == |N| && (forall i :: 0 <= i < |R| ==> R[i] < |R|) && Within(es, |R|)
    && forall r: nat :: r < |N| ==> SumOf(N[r], Owed(R, es, r))
  }

  lemma SummedStep(R: seq<nat>, N: seq<Data>, log: seq<Event>, e: Event)
    requires Summed(R, N, log) && e.owner < |R|
    ensures var o := R[e.owner]; Summed(R, N[o := Told(N[o], e.fact)], log + [e])
  {
    var o, log' := R[e.owner], log + [e];
    assert log'[..|log|] == log;
    SumTold(N[o], Owed(R, log, o), e.fact);
    var N' := N[o := Told(N[o], e.fact)];
    forall r: nat | r < |N| ensures SumOf(N'[r], Owed(R, log', r)) {
    }
  }

  lemma {:induction false} OwedJoined(R: seq<nat>, es: seq<Event>, a: nat, b: nat, w: nat, R': seq<nat>)
    requires Within(es, |R|) && a != b && (w == a || w == b) && |R'| == |R|
    requires forall i :: 0 <= i < |R| ==> R'[i] == if R[i] == a || R[i] == b then w else R[i]
    ensures Owed(R', es, w) == Owed(R, es, a) + Owed(R, es, b)
    ensures Owed(R', es, if w == a then b else a) == multiset{}
  {
    if es != [] { OwedJoined(R, es[..|es| - 1], a, b, w, R'); }
  }

  lemma {:induction false} OwedElsewhere(R: seq<nat>, es: seq<Event>, a: nat, b: nat, w: nat, R': seq<nat>, r: nat)
    requires Within(es, |R|) && (w == a || w == b) && |R'| == |R| && r != a && r != b
    requires forall i :: 0 <= i < |R| ==> R'[i] == if R[i] == a || R[i] == b then w else R[i]
    ensures Owed(R', es, r) == Owed(R, es, r)
  {
    if es != [] { OwedElsewhere(R, es[..|es| - 1], a, b, w, R', r); }
  }

  /** Merging the loser's data into the winner's keeps the sums. */
  lemma SummedMerge(R: seq<nat>, N: seq<Data>, log: seq<Event>, a: nat, b: nat, w: nat, R': seq<nat>)
    requires Summed(R, N, log) && a < |R| && b < |R| && a != b && (w == a || w == b) && |R'| == |R|
    requires forall i :: 0 <= i < |R| ==> R'[i] == if R[i] == a || R[i] == b then w else R[i]
    ensures var l := if w == a then b else a; Summed(R', N[w := Merged(N[w], N[l])][l := NO_DATA], log)
  {
    hide SumOf, Owed, Merged;
    var l := if w == a then b else a;
    OwedJoined(R, log, a, b, w, R');
    SumNone();
    SumMerged(N[w], Owed(R, log, w), N[l], Owed(R, log, l));
    assert Owed(R', log, w) == Owed(R, log, w) + Owed(R, log, l);
    var N' := N[w := Merged(N[w], N[l])][l := NO_DATA];
    forall r: nat | r < |N'| ensures SumOf(N'[r], Owed(R', log, r)) {
      if r != a && r != b { OwedElsewhere(R, log, a, b, w, R', r); }
    }
  }

  lemma {:induction false} OwedGrow(R: seq<nat>, R': seq<nat>, es: seq<Event>, r: nat)
    requires Within(es, |R|) && (forall i :: 0 <= i < |R| ==> R[i] < |R|)
    ensures Owed(R + R', es, r) == if r < |R| then Owed(R, es, r) else multiset{}
  {
    if es != [] { OwedGrow(R, R', es[..|es| - 1], r); }
  }

  lemma SummedGrow(R: seq<nat>, N: seq<Data>, log: seq<Event>, n: nat)
    requires Summed(R, N, log)
    ensures Summed(R + Ids(|R|, n), N + Blank(n), log)
  {
    SumNone();
    var R', N' := R + Ids(|R|, n), N + Blank(n);
    forall r: nat | r < |N'| ensures SumOf(N'[r], Owed(R', log, r)) {
      OwedGrow(R, Ids(|R|, n), log, r);
    }
  }

  ghost predicate SameClasses(R: seq<nat>, R': seq<nat>) {
    |R| == |R'| && forall x, y :: 0 <= x < |R| && 0 <= y < |R| ==> (R[x] == R[y] <==> R'[x] == R'[y])
  }

  /** Which member represents a class does not matter to what the class is owed. */
  lemma {:induction false} OwedSameClass(R: seq<nat>, R': seq<nat>, es: seq<Event>, x: nat)
    requires SameClasses(R, R') && Within(es, |R|) && x < |R|
    ensures Owed(R, es, R[x]) == Owed(R', es, R'[x])
  {
    if es != [] { OwedSameClass(R, R', es[..|es| - 1], x); }
  }

  lemma OwedPermuted(R: seq<nat>, log: seq<Event>, log': seq<Event>, r: nat)
    requires Within(log, |R|) && Within(log', |R|) && multiset(log) == multiset(log')
    ensures Owed(R, log, r) == Owed(R, log', r)
  {
    forall f: Fact ensures Owed(R, log, r)[f] == Owed(R, log', r)[f] {
      OwedCount(R, log, r, f, |R|);
      OwedCount(R, log', r, f, |R|);
    }
  }

  /** However the same facts arrived, and whichever members represent the same classes: the class of any id
      has the same data up to order. */
  lemma SameFactsAlike(R: seq<nat>, N: seq<Data>, log: seq<Event>, R': seq<nat>, N': seq<Data>, log': seq<Event>,
                       x: nat)
    requires Summed(R, N, log) && Summed(R', N', log') && SameClasses(R, R') && x < |R|
    requires multiset(log) == multiset(log')
    ensures R[x] < |N| && R'[x] < |N'| && Alike(N[R[x]], N'[R'[x]])
  {
    OwedSameClass(R, R', log, x);
    OwedPermuted(R', log, log', R'[x]);
    SumsAlike(N[R[x]], N'[R'[x]], Owed(R, log, R[x]));
  }

  /** How often a fact is owed: over the members of the class, how often it was told them. */
  function Times(R: seq<nat>, es: multiset<Event>, r: nat, f: Fact, n: nat): nat
    requires n <= |R|
  {
    if n == 0 then 0
    else Times(R, es, r, f, n - 1) + (if R[n - 1] == r then es[Event(n - 1, f)] else 0)
  }

  lemma {:induction false} TimesPlus(R: seq<nat>, es: multiset<Event>, e: Event, r: nat, f: Fact, n: nat)
    requires n <= |R|
    ensures Times(R, es + multiset{e}, r, f, n)
            == Times(R, es, r, f, n) + (if e.owner < n && R[e.owner] == r && e.fact == f then 1 else 0)
  {
    if n > 0 { TimesPlus(R, es, e, r, f, n - 1); }
  }

  lemma {:induction false} OwedCount(R: seq<nat>, es: seq<Event>, r: nat, f: Fact, n: nat)
    requires Within(es, |R|) && n == |R|
    ensures Owed(R, es, r)[f] == Times(R, multiset(es), r, f, n)
    decreases |es|, n
  {
    if es == [] {
      TimesNone(R, r, f, n);
    } else {
      var k := |es| - 1;
      OwedCount(R, es[..k], r, f, n);
      TimesPlus(R, multiset(es[..k]), es[k], r, f, n);
      assert es == es[..k] + [es[k]];
    }
  }

  lemma {:induction false} TimesNone(R: seq<nat>, r: nat, f: Fact, n: nat)
    requires n <= |R|
    ensures Times(R, multiset{}, r, f, n) == 0
  {
    if n > 0 { TimesNone(R, r, f, n - 1); }
  }
}
