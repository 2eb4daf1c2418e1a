/**
 * Representatives of merged nodes during and after a run of Tarjan's algorithm, and the
 * condensed graph they leave.  R[i] is the representative of id i, or -1 for a removed node.
 */
module Condensation {
  import opened Graphs
  import opened Seals
  import opened TarjanCore

  /** Representatives of representatives are themselves. */
  ghost predicate RepsOK(R: seq<int>) {
    forall i :: 0 <= i < |R| && R[i] != -1 ==> 0 <= R[i] < |R| && R[R[i]] == R[i]
  }

  ghost predicate PredsOK(R: seq<int>, P: seq<seq<nat>>) {
    |P| == |R| && forall i, p :: 0 <= i < |P| && p in P[i] ==> p < |R|
  }

  /** The graph over representatives in which pred ids stand for their representatives. */
  ghost function ClassGraph(R: seq<int>, P: seq<seq<nat>>): (g: Graph)
    requires RepsOK(R) && PredsOK(R, P)
    ensures Closed(g)
    ensures forall v: nat :: v in g <==> v < |R| && R[v] == v
    ensures forall v, p :: v in g && p in P[v] && R[p] != -1 ==> R[p] in g[v]
    ensures forall v, w :: v in g && w in g[v] ==> exists p :: p in P[v] && R[p] == w
  {
    var g := map v: nat | v < |R| && R[v] == v :: (set p | p in P[v] && R[p] != -1 :: R[p] as nat);
    assert forall v, w :: v in g && w in g[v] ==> exists p :: p in P[v] && R[p] == w;
    g
  }

  lemma ClassGraphEdge(R: seq<int>, P: seq<seq<nat>>, v: nat, w: nat)
    requires RepsOK(R) && PredsOK(R, P) && v in ClassGraph(R, P)
    ensures w in ClassGraph(R, P)[v] <==> Names(R, P[v], w)
  {
  }

  ghost predicate RepsIn(g: Graph, R: seq<int>)
  {
    && (forall v :: v in g ==> v < |R|)
    && (forall v {:trigger R[v]} :: v in g ==> R[v] in g)
  }

  /** R refines the starting representatives R0, whose own nodes are g's. */
  ghost predicate Refines(g: Graph, R0: seq<int>, R: seq<int>) {
    && |R| == |R0| && RepsOK(R0) && RepsOK(R)
    && (forall i {:trigger R0[i]} :: 0 <= i < |R| ==> (R0[i] == -1 <==> R[i] == -1))
    && (forall i {:trigger R0[i]} :: 0 <= i < |R| && R0[i] != -1 ==> R[i] == R[R0[i]])
    && (forall v: nat :: v in g <==> v < |R0| && R0[v] == v)
    && RepsIn(g, R)
  }

  /** Exactly the members of completed components have been merged. */
  ghost predicate MergedDone(g: Graph, s: State, R: seq<int>) {
    && (forall v :: v in g ==> v < |R|)
    && (forall v {:trigger R[v]} :: v in g && !s.Done(v) ==> R[v] == v)
    && (forall u, v :: u in g && v in g && s.Done(u) && R[u] == v ==> s.Done(v))
    && (forall u, v {:trigger Mutual(g, u, v)} :: u in g && v in g && s.Done(u) && s.Done(v) ==>
        (R[u] == R[v] <==> Mutual(g, u, v)))
  }

  /** Representatives during a run that started with R0. */
  ghost predicate RepInv(g: Graph, s: State, R0: seq<int>, R: seq<int>) {
    forall k {:trigger Unfold(RepSeal, k)} :: Unfold(RepSeal, k) ==>
    Refines(g, R0, R) && MergedDone(g, s, R)
  }

  /** R after the classes in S have become the class of m. */
  ghost function Redirect(R: seq<int>, S: set<nat>, m: nat): (R': seq<int>)
    ensures |R'| == |R|
    ensures forall i {:trigger R'[i]} :: 0 <= i < |R| ==> R'[i] == if R[i] in S then m else R[i]
  {
    seq(|R|, i requires 0 <= i < |R| => if R[i] in S then m else R[i])
  }

  lemma RedirectMore(R: seq<int>, S: set<nat>, m: nat, x: nat, m': nat)
    requires m in S && (m' == m || m' == x)
    ensures Redirect(R, S + {x}, m') == Redirect(Redirect(R, S, m), {m, x}, m')
  {
  }

  /** s1 is s after the component S of v has been completed. */
  ghost predicate Completes(g: Graph, s: State, s1: State, S: set<nat>, v: nat) {
    && v in S
    && (forall u :: u in S <==> Mutual(g, v, u))
    && (forall u :: u in S ==> u in g && !s.Done(u))
    && (forall u :: u in g ==> (s1.Done(u) <==> s.Done(u) || u in S))
  }

  lemma PopCompletes(g: Graph, s0: State, s: State, gray: set<nat>, v: nat)
    requires v in g && v in s.index && LoopInv(g, s0, s, gray, v, s.index[v], g[v])
    ensures Completes(g, s, s.(on := s.on - Segment(s, v)), Segment(s, v), v)
  {
    assert Unfold(InvSeal, 0); assert Unfold(LoopSeal, 0);
    forall u ensures u in Segment(s, v) <==> Mutual(g, v, u) {
      SegmentIsComponent(g, s0, s, gray, v, u);
    }
  }

  lemma RedirectRefines(g: Graph, R0: seq<int>, R: seq<int>, S: set<nat>, m: nat)
    requires Refines(g, R0, R) && m in S && m in g && R[m] == m
    ensures Refines(g, R0, Redirect(R, S, m))
  {
  }

  lemma ClassOfDone(g: Graph, s: State, R: seq<int>, S: set<nat>, u: nat)
    requires MergedDone(g, s, R) && u in g && R[u] in g && forall x :: x in S ==> !s.Done(x)
    ensures R[u] in S <==> u in S
  {
  }

  lemma CompletedPair(g: Graph, s: State, s1: State, S: set<nat>, v: nat, R: seq<int>, m: nat, u: nat, w: nat)
    requires Completes(g, s, s1, S, v) && MergedDone(g, s, R) && m in S
    requires u in g && w in g && s1.Done(u) && s1.Done(w)
    requires R[u] in g && R[w] in g
    ensures Redirect(R, S, m)[u] == Redirect(R, S, m)[w] <==> Mutual(g, u, w)
  {
    ClassOfDone(g, s, R, S, u);
    ClassOfDone(g, s, R, S, w);
    if u in S && w in S {
      MutualTrans(g, u, v, w);
    } else if u in S && Mutual(g, u, w) {
      MutualTrans(g, v, u, w);
    } else if w in S && Mutual(g, u, w) {
      MutualTrans(g, v, w, u);
    }
  }

  lemma CompleteMerged(g: Graph, s: State, s1: State, S: set<nat>, v: nat, R: seq<int>, m: nat)
    requires Completes(g, s, s1, S, v) && MergedDone(g, s, R) && m in S
    requires RepsIn(g, R)
    ensures MergedDone(g, s1, Redirect(R, S, m))
  {
    var R' := Redirect(R, S, m);
    forall u | u in g ensures R[u] in S <==> u in S { ClassOfDone(g, s, R, S, u); }
    forall u, w | u in g && w in g && s1.Done(u) && s1.Done(w)
      ensures R'[u] == R'[w] <==> Mutual(g, u, w)
    {
      CompletedPair(g, s, s1, S, v, R, m, u, w);
    }
  }

  /** Merging a component when the search completes it. */
  lemma CompleteReps(g: Graph, s: State, s1: State, S: set<nat>, v: nat, R0: seq<int>, R: seq<int>, m: nat)
    requires Completes(g, s, s1, S, v) && RepInv(g, s, R0, R) && m in S
    ensures RepInv(g, s1, R0, Redirect(R, S, m))
  {
    assert Unfold(RepSeal, 0);
    assert Refines(g, R0, Redirect(R, S, m)) by {
      assert m in g && R[m] == m;
      RedirectRefines(g, R0, R, S, m);
    }
    assert MergedDone(g, s1, Redirect(R, S, m)) by {
      CompleteMerged(g, s, s1, S, v, R, m);
    }
  }

  // ---- The order in which components are completed ----

  ghost predicate Logged(g: Graph, log: seq<nat>, v: nat) {
    exists i :: 0 <= i < |log| && Mutual(g, v, log[i])
  }

  /** log: the node each completed component was entered by, in order of completion.  A component
      follows everything it can reach. */
  ghost predicate LogInv(g: Graph, s: State, log: seq<nat>) {
    forall k {:trigger Unfold(LogSeal, k)} :: Unfold(LogSeal, k) ==>
    && (forall i :: 0 <= i < |log| ==> log[i] in g && s.Done(log[i]))
    && (forall i, j :: 0 <= i < j < |log| ==> !Reach(g, log[i], log[j]))
    && (forall v {:trigger Logged(g, log, v)} :: v in g && s.Done(v) ==> Logged(g, log, v))
  }

  lemma DoneStaysDone(g: Graph, s: State, gray: set<nat>, x: nat, y: nat)
    requires EdgeInv(g, s, gray) && s.Done(x) && Reach(g, x, y)
    ensures s.Done(y)
  {
    var done := set u | u in s.index && s.Done(u);
    assert ClosedSet(g, done) by {
      forall a, b | a in done && a in g && b in g[a] ensures b in done { assert s.Done(b); }
    }
    ReachStaysInside(g, done, x, y);
  }

  lemma OldEntriesDoNotReach(g: Graph, s: State, gray: set<nat>, v: nat, log: seq<nat>)
    requires Inv(g, s, gray) && LogInv(g, s, log) && !s.Done(v)
    ensures forall i :: 0 <= i < |log| ==> !Reach(g, log[i], v)
  {
    forall i | 0 <= i < |log| ensures !Reach(g, log[i], v) {
      if Reach(g, log[i], v) {
        assert s.Done(log[i]) && EdgeInv(g, s, gray) by { assert Unfold(InvSeal, 0); assert Unfold(LogSeal, 0); }
        DoneStaysDone(g, s, gray, log[i], v);
      }
    }
  }

  lemma CompleteLog(g: Graph, s: State, s1: State, gray: set<nat>, S: set<nat>, v: nat, log: seq<nat>)
    requires Inv(g, s, gray) && Completes(g, s, s1, S, v) && LogInv(g, s, log)
    ensures LogInv(g, s1, log + [v])
  {
    OldEntriesDoNotReach(g, s, gray, v, log);
    CompleteLogEntries(g, s, s1, S, v, log);
  }

  lemma CompleteLogEntries(g: Graph, s: State, s1: State, S: set<nat>, v: nat, log: seq<nat>)
    requires Completes(g, s, s1, S, v) && LogInv(g, s, log)
    requires forall i :: 0 <= i < |log| ==> !Reach(g, log[i], v)
    ensures LogInv(g, s1, log + [v])
  {
    assert Unfold(LogSeal, 0);
    var log' := log + [v];
    forall u | u in g && s1.Done(u) ensures Logged(g, log', u) {
      if u in S {
        assert Mutual(g, u, log'[|log|]);
      } else {
        assert Logged(g, log, u);
        var i :| 0 <= i < |log| && Mutual(g, u, log[i]);
        assert log'[i] == log[i];
      }
    }
  }

  /** Only the set of completed nodes matters to representatives and to the log. */
  lemma SameDone(g: Graph, s: State, s1: State, R0: seq<int>, R: seq<int>, log: seq<nat>)
    requires forall u :: s1.Done(u) <==> s.Done(u)
    requires RepInv(g, s, R0, R) && LogInv(g, s, log)
    ensures RepInv(g, s1, R0, R) && LogInv(g, s1, log)
  {
    assert Unfold(RepSeal, 0); assert Unfold(LogSeal, 0);
  }

  // ---- Data gathered by representatives ----

  /** Every representative holds exactly what its members were given, and nobody else holds anything. */
  ghost predicate Collected<T(!new)>(R: seq<int>, A0: seq<set<T>>, A: seq<set<T>>) {
    && |A0| == |R| && |A| == |R|
    && forall i, x :: 0 <= i < |R| ==> (x in A[i] <==> Given(R, A0, i, x))
  }

  ghost predicate Given<T>(R: seq<int>, A0: seq<set<T>>, i: int, x: T)
    requires |A0| == |R|
  {
    exists u :: 0 <= u < |R| && R[u] == i && x in A0[u]
  }

  lemma CollectedAtStart<T(!new)>(R: seq<int>, A: seq<set<T>>)
    requires RepsOK(R) && |A| == |R|
    requires forall i :: 0 <= i < |R| && R[i] != i ==> A[i] == {}
    ensures Collected(R, A, A)
  {
    forall i, x | 0 <= i < |R| ensures x in A[i] <==> Given(R, A, i, x) {}
  }

  lemma NothingGiven<T(!new)>(R: seq<int>, A0: seq<set<T>>, A: seq<set<T>>, i: nat)
    requires Collected(R, A0, A) && i < |R| && forall u :: 0 <= u < |R| ==> R[u] != i
    ensures A[i] == {}
  {
    forall x ensures x !in A[i] { assert x in A[i] <==> Given(R, A0, i, x); }
  }

  /** Moving everything from gone to kept when their classes are joined. */
  lemma CollectedMerge<T(!new)>(R: seq<int>, A0: seq<set<T>>, A: seq<set<T>>, A': seq<set<T>>, kept: nat, gone: nat)
    requires Collected(R, A0, A) && kept < |R| && gone < |R| && kept != gone
    requires A' == A[kept := A[kept] + A[gone]][gone := {}]
    ensures Collected(Redirect(R, {kept, gone}, kept), A0, A')
  {
    var R' := Redirect(R, {kept, gone}, kept);
    forall i, x | 0 <= i < |R| ensures x in A'[i] <==> Given(R', A0, i, x) {
      if i == kept {
        if x in A'[i] {
          assert Given(R, A0, kept, x) || Given(R, A0, gone, x);
          var u :| 0 <= u < |R| && (R[u] == kept || R[u] == gone) && x in A0[u];
          assert R'[u] == kept;
        } else {
          assert !Given(R, A0, kept, x) && !Given(R, A0, gone, x);
        }
      } else if i == gone {
      } else {
        assert Given(R, A0, i, x) <==> Given(R', A0, i, x);
      }
    }
  }

  // ---- The condensed graph ----

  /** h has g's representatives as nodes and, self edges aside, exactly g's edges between classes. */
  ghost predicate Quotient(g: Graph, R: seq<int>, h: Graph) {
    && RepsIn(g, R)
    && (forall x :: x in h ==> x in g && R[x] == x)
    && (forall u :: u in g ==> R[u] in h)
    && (forall u, w :: u in g && w in g[u] && w in g && R[u] != R[w] ==> R[u] in h && R[w] in h[R[u] as nat])
    && (forall x, z :: x in h && z in h[x] && z != x ==> ClassEdge(g, R, x, z))
  }

  ghost predicate ClassEdge(g: Graph, R: seq<int>, x: nat, z: nat)
    requires RepsIn(g, R)
  {
    exists u, w :: u in g && w in g[u] && w in g && R[u] == x && R[w] == z
  }

  /** Two nodes have one representative exactly when each reaches the other. */
  ghost predicate ByMutual(g: Graph, R: seq<int>)
    requires RepsIn(g, R)
  {
    forall u, v {:trigger Mutual(g, u, v)} :: u in g && v in g ==> (R[u] == R[v] <==> Mutual(g, u, v))
  }

  lemma SameClassReach(g: Graph, R: seq<int>, u: nat, v: nat)
    requires RepsIn(g, R) && ByMutual(g, R) && u in g && v in g && R[u] == R[v]
    ensures Reach(g, u, v)
  {
    assert Mutual(g, u, v);
  }

  lemma ClassEdgeReach(g: Graph, R: seq<int>, x: nat, y: nat)
    requires RepsIn(g, R) && ByMutual(g, R) && ClassEdge(g, R, x, y)
    requires x in g && y in g && R[x] == x && R[y] == y
    ensures Reach(g, x, y)
  {
    var u, w :| u in g && w in g[u] && w in g && R[u] == x && R[w] == y;
    SameClassReach(g, R, x, u);
    SameClassReach(g, R, w, y);
    ReachStep(g, u, w, y);
    ReachTrans(g, x, u, y);
  }

  lemma {:induction false} QuotientReachUp(g: Graph, R: seq<int>, h: Graph, x: nat, z: nat, n: nat)
    requires Quotient(g, R, h) && ByMutual(g, R) && ReachIn(h, x, z, n)
    ensures Reach(g, x, z)
    decreases n
  {
    hide Quotient, ByMutual, ClassEdge, RepsIn, Reach;
    if n == 0 {
      QuotientNode(g, R, h, x);
      ReachSelf(g, x);
    } else {
      var y :| y in h[x] && ReachIn(h, y, z, n - 1);
      QuotientReachUp(g, R, h, y, z, n - 1);
      if y != x {
        ReachEnds(h, y, z, n - 1);
        QuotientEdge(g, R, h, x, y);
        ClassEdgeReach(g, R, x, y);
        ReachTrans(g, x, y, z);
      }
    }
  }

  lemma QuotientNode(g: Graph, R: seq<int>, h: Graph, x: nat)
    requires Quotient(g, R, h) && x in h
    ensures x in g && RepsIn(g, R) && R[x] == x
  {
  }

  lemma QuotientEdge(g: Graph, R: seq<int>, h: Graph, x: nat, y: nat)
    requires Quotient(g, R, h) && x in h && y in h[x] && y in h && y != x
    ensures x in g && y in g && RepsIn(g, R) && R[x] == x && R[y] == y && ClassEdge(g, R, x, y)
  {
  }

  lemma {:induction false} QuotientReachDown(g: Graph, R: seq<int>, h: Graph, u: nat, w: nat, n: nat)
    requires Closed(g) && Quotient(g, R, h) && ReachIn(g, u, w, n) && w in g
    ensures R[u] in h && Reach(h, R[u], R[w])
    decreases n
  {
    if n == 0 {
      ReachSelf(h, R[u]);
    } else {
      var y :| y in g[u] && ReachIn(g, y, w, n - 1);
      QuotientReachDown(g, R, h, y, w, n - 1);
      if R[u] != R[y] {
        ReachStep(h, R[u], R[y], R[w]);
      }
    }
  }

  /** Reachability between classes is reachability in the starting graph. */
  lemma QuotientReach(g: Graph, R: seq<int>, h: Graph, u: nat, w: nat)
    requires Closed(g) && Quotient(g, R, h) && ByMutual(g, R) && u in g && w in g
    ensures Reach(h, R[u], R[w]) <==> Reach(g, u, w)
  {
    if Reach(g, u, w) {
      var n: nat :| ReachIn(g, u, w, n);
      QuotientReachDown(g, R, h, u, w, n);
    }
    if Reach(h, R[u], R[w]) {
      var n: nat :| ReachIn(h, R[u], R[w], n);
      QuotientReachUp(g, R, h, R[u], R[w], n);
      SameClassReach(g, R, u, R[u]);
      SameClassReach(g, R, R[w], w);
      ReachTrans(g, u, R[u], R[w]);
      ReachTrans(g, u, R[w], w);
    }
  }

  /** The condensed graph has no cycle except self edges. */
  lemma QuotientAcyclic(g: Graph, R: seq<int>, h: Graph)
    requires Closed(g) && Quotient(g, R, h) && ByMutual(g, R)
    ensures Acyclic(h)
  {
    forall x, y | Mutual(h, x, y) ensures x == y {
      ReachInGraph(h, x, y);
      QuotientReach(g, R, h, x, y);
      QuotientReach(g, R, h, y, x);
      assert Mutual(g, x, y);
    }
  }

  // ---- Predecessor lists of merged nodes ----

  /** Representative x lists an id of class z. */
  ghost predicate Lists(R: seq<int>, P: seq<seq<nat>>, x: int, z: int)
    requires PredsOK(R, P) && 0 <= x < |R|
  {
    Names(R, P[x], z)
  }

  ghost predicate Names(R: seq<int>, L: seq<nat>, z: int) {
    exists y :: y in L && y < |R| && R[y] == z
  }

  /** A member of class x started with a predecessor of class z. */
  ghost predicate WasGiven(R: seq<int>, R0: seq<int>, P0: seq<seq<nat>>, x: int, z: int)
    requires PredsOK(R, P0) && |R0| == |R|
  {
    exists u, p :: 0 <= u < |R| && R0[u] == u && R[u] == x && p in P0[u] && R[p] == z
  }

  /** Between different classes, the lists of the representatives keep exactly the edges given. */
  ghost predicate EdgesKept(R0: seq<int>, P0: seq<seq<nat>>, R: seq<int>, P: seq<seq<nat>>) {
    && |R| == |R0| && PredsOK(R, P0) && PredsOK(R, P)
    && forall x, z :: 0 <= x < |R| && R[x] == x && z != x && z != -1 ==>
         (Lists(R, P, x, z) <==> WasGiven(R, R0, P0, x, z))
  }

  lemma KeptEdgeDown(R0: seq<int>, P0: seq<seq<nat>>, R: seq<int>, P: seq<seq<nat>>, u: nat, w: nat)
    requires RepsOK(R0) && RepsOK(R) && EdgesKept(R0, P0, R, P) && Refines(ClassGraph(R0, P0), R0, R)
    requires var g := ClassGraph(R0, P0); u in g && w in g[u] && w in g && R[u] != R[w]
    ensures var h := ClassGraph(R, P); R[u] in h && R[w] in h[R[u] as nat]
  {
    var p :| p in P0[u] && R0[p] == w;
    assert R[p] == R[w] && WasGiven(R, R0, P0, R[u], R[w]);
    assert Lists(R, P, R[u], R[w]);
  }

  lemma KeptEdgeUp(R0: seq<int>, P0: seq<seq<nat>>, R: seq<int>, P: seq<seq<nat>>, x: nat, z: nat)
    requires RepsOK(R0) && RepsOK(R) && EdgesKept(R0, P0, R, P) && Refines(ClassGraph(R0, P0), R0, R)
    requires var h := ClassGraph(R, P); x in h && z in h[x] && z != x
    ensures ClassEdge(ClassGraph(R0, P0), R, x, z)
  {
    var g := ClassGraph(R0, P0);
    assert Lists(R, P, x, z);
    assert WasGiven(R, R0, P0, x, z);
    var u, p :| 0 <= u < |R| && R0[u] == u && R[u] == x && p in P0[u] && R[p] == z;
    assert R0[p] != -1 && R[R0[p]] == z;
    assert R0[p] in g[u];
  }

  /**
   * What a finished run leaves: the merged graph is acyclic up to self edges and has exactly the
   * reachability of the graph the run started from.
   */
  lemma MergedGraph(R0: seq<int>, P0: seq<seq<nat>>, R: seq<int>, P: seq<seq<nat>>)
    requires RepsOK(R0) && RepsOK(R) && EdgesKept(R0, P0, R, P)
    requires Refines(ClassGraph(R0, P0), R0, R) && ByMutual(ClassGraph(R0, P0), R)
    ensures Quotient(ClassGraph(R0, P0), R, ClassGraph(R, P))
    ensures Acyclic(ClassGraph(R, P))
    ensures forall u, w :: u in ClassGraph(R0, P0) && w in ClassGraph(R0, P0) ==>
              (Reach(ClassGraph(R, P), R[u], R[w]) <==> Reach(ClassGraph(R0, P0), u, w))
  {
    var g, h := ClassGraph(R0, P0), ClassGraph(R, P);
    MergedQuotient(R0, P0, R, P);
    QuotientAcyclic(g, R, h);
    forall u, w | u in g && w in g ensures Reach(h, R[u], R[w]) <==> Reach(g, u, w) {
      QuotientReach(g, R, h, u, w);
    }
  }

  lemma KeptEdgesDown(R0: seq<int>, P0: seq<seq<nat>>, R: seq<int>, P: seq<seq<nat>>, g: Graph, h: Graph)
    requires RepsOK(R0) && RepsOK(R) && EdgesKept(R0, P0, R, P) && Refines(ClassGraph(R0, P0), R0, R)
    requires g == ClassGraph(R0, P0) && h == ClassGraph(R, P)
    ensures forall u, w :: u in g && w in g[u] && w in g && R[u] != R[w] ==> R[u] in h && R[w] in h[R[u] as nat]
  {
    forall u, w | u in g && w in g[u] && w in g && R[u] != R[w] ensures R[u] in h && R[w] in h[R[u] as nat] {
      KeptEdgeDown(R0, P0, R, P, u, w);
    }
  }

  lemma KeptEdgesUp(R0: seq<int>, P0: seq<seq<nat>>, R: seq<int>, P: seq<seq<nat>>, g: Graph, h: Graph)
    requires RepsOK(R0) && RepsOK(R) && EdgesKept(R0, P0, R, P) && Refines(ClassGraph(R0, P0), R0, R)
    requires g == ClassGraph(R0, P0) && h == ClassGraph(R, P)
    ensures forall x, z :: x in h && z in h[x] && z != x ==> ClassEdge(g, R, x, z)
  {
    forall x, z | x in h && z in h[x] && z != x ensures ClassEdge(g, R, x, z) {
      KeptEdgeUp(R0, P0, R, P, x, z);
    }
  }

  lemma KeptNodes(R0: seq<int>, P0: seq<seq<nat>>, R: seq<int>, P: seq<seq<nat>>, g: Graph, h: Graph)
    requires RepsOK(R0) && RepsOK(R) && PredsOK(R0, P0) && PredsOK(R, P) && Refines(ClassGraph(R0, P0), R0, R)
    requires g == ClassGraph(R0, P0) && h == ClassGraph(R, P)
    ensures (forall x :: x in h ==> x in g && R[x] == x) && (forall u :: u in g ==> R[u] in h)
  {
    hide ClassGraph;
    forall x | x in h ensures x in g {
      assert R[x] == R[R0[x]];
    }
  }

  lemma MergedQuotient(R0: seq<int>, P0: seq<seq<nat>>, R: seq<int>, P: seq<seq<nat>>)
    requires RepsOK(R0) && RepsOK(R) && EdgesKept(R0, P0, R, P) && Refines(ClassGraph(R0, P0), R0, R)
    ensures Quotient(ClassGraph(R0, P0), R, ClassGraph(R, P))
  {
    var g, h := ClassGraph(R0, P0), ClassGraph(R, P);
    KeptNodes(R0, P0, R, P, g, h);
    KeptEdgesDown(R0, P0, R, P, g, h);
    KeptEdgesUp(R0, P0, R, P, g, h);
  }
}
