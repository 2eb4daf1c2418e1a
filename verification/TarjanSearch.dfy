/**
 * The records that both Tarjan searches keep (node data, node stack, visit counter, calls of
 * scc_visit_) together with the current representatives, and how each step changes them.
 */
module TarjanSearch {
  import opened Graphs
  import opened Seals
  import opened TarjanCore
  import opened Condensation

  datatype TarjanData = TarjanData(index: int, lowlink: int, onStack: bool)

  const INDEX_INVALID := -1

  function Min(a: int, b: int): int {
    if a < b then a else b
  }

  /** s is the abstract state that data, stack and next stand for. */
  datatype Search = Search(s: State, R: seq<int>, data: seq<TarjanData>, stack: seq<nat>, next: nat, log: seq<nat>)

  ghost predicate DataInv(g: Graph, s: State, data: seq<TarjanData>, stack: seq<nat>, next: nat) {
    forall k {:trigger Unfold(DataSeal, k)} :: Unfold(DataSeal, k) ==>
    && next == s.next
    && IndexInv(g, s)
    && (forall v :: v in g ==> v < |data|)
    && (forall v :: v in g ==> data[v].index == if v in s.index then s.index[v] else INDEX_INVALID)
    && (forall v :: v in g ==> (data[v].onStack <==> v in s.on))
    && (forall v :: v in g && v in s.index ==> data[v].lowlink >= 0)
    && (forall v :: v in stack <==> v in s.on)
    && (forall i, j :: 0 <= i < j < |stack| ==>
          stack[i] in s.index && stack[j] in s.index && s.index[stack[i]] < s.index[stack[j]])
  }

  /** What every moment of a search satisfies outside the merging of a component. */
  ghost predicate SearchInv(g: Graph, R0: seq<int>, x: Search) {
    forall k {:trigger Unfold(SearchSeal, k)} :: Unfold(SearchSeal, k) ==>
    DataInv(g, x.s, x.data, x.stack, x.next) && RepInv(g, x.s, R0, x.R) && LogInv(g, x.s, x.log)
  }

  /** The lowlinks of the nodes in S are the same in both. */
  ghost predicate LowsKept(S: set<nat>, data0: seq<TarjanData>, data: seq<TarjanData>) {
    |data| == |data0| && forall u :: u in S && u < |data| ==> data[u].lowlink == data0[u].lowlink
  }

  // ---- Opening a node ----

  ghost function Opened(x: Search, v: nat): Search
    requires v < |x.data|
  {
    Search(Enter(x.s, v), x.R, x.data[v := TarjanData(x.next, x.next, true)], x.stack + [v], x.next + 1, x.log)
  }

  lemma DataEnter(g: Graph, s: State, data: seq<TarjanData>, stack: seq<nat>, next: nat, v: nat)
    requires DataInv(g, s, data, stack, next) && v in g && v !in s.index && v < |data|
    ensures DataInv(g, Enter(s, v), data[v := TarjanData(next, next, true)], stack + [v], next + 1)
    ensures next == s.next
  {
    assert Unfold(DataSeal, 0);
    assert forall u :: u in stack + [v] <==> u in Enter(s, v).on;
  }

  lemma OpenInv(g: Graph, R0: seq<int>, x: Search, gray: set<nat>, v: nat)
    requires SearchInv(g, R0, x) && Inv(g, x.s, gray) && v in g && v !in x.s.index && v < |x.data|
    requires forall y :: y in gray ==> Reach(g, y, v)
    ensures SearchInv(g, R0, Opened(x, v))
    ensures LoopInv(g, x.s, Enter(x.s, v), gray, v, x.next, {})
    ensures x.s.index.Keys <= g.Keys
  {
    assert Unfold(SearchSeal, 0);
    assert IndexInv(g, x.s) by { assert Unfold(InvSeal, 0); }
    DataEnter(g, x.s, x.data, x.stack, x.next, v);
    EnterInv(g, x.s, gray, v);
    assert forall u :: Enter(x.s, v).Done(u) <==> x.s.Done(u);
    SameDone(g, x.s, Enter(x.s, v), R0, x.R, x.log);
  }

  // ---- Handling a predecessor ----

  lemma LowInv(g: Graph, R0: seq<int>, x: Search, v: nat, low: nat)
    requires SearchInv(g, R0, x) && v in g && v < |x.data|
    ensures SearchInv(g, R0, x.(data := x.data[v := x.data[v].(lowlink := low)]))
  {
    assert Unfold(SearchSeal, 0);
    var data' := x.data[v := x.data[v].(lowlink := low)];
    assert DataInv(g, x.s, data', x.stack, x.next) by { assert Unfold(DataSeal, 0); }
  }

  /** What the record of a node says about it. */
  lemma Record(g: Graph, R0: seq<int>, x: Search, v: nat)
    requires SearchInv(g, R0, x) && v in g
    ensures v < |x.data|
    ensures x.data[v].index == if v in x.s.index then x.s.index[v] else INDEX_INVALID
    ensures x.data[v].onStack <==> v in x.s.on
    ensures v in x.s.index ==> x.data[v].lowlink >= 0
    ensures v in x.s.on ==> v in x.s.index
  {
    assert Unfold(SearchSeal, 0);
    assert Unfold(DataSeal, 0);
  }

  /** Where the id of a predecessor leads: itself while its component is open, and otherwise
      the representative of its completed component. */
  lemma PredRep(g: Graph, R0: seq<int>, x: Search, id: nat)
    requires SearchInv(g, R0, x) && id < |R0| && R0[id] in g
    ensures |x.R| == |R0|
    ensures x.R[id] in g && (if x.s.Done(R0[id]) then x.s.Done(x.R[id]) else x.R[id] == R0[id])
  {
    assert Unfold(SearchSeal, 0);
    assert Unfold(RepSeal, 0);
    assert x.R[id] == x.R[R0[id]];
  }

  lemma OpenIsRep(g: Graph, R0: seq<int>, x: Search, v: nat)
    requires SearchInv(g, R0, x) && v in g && !x.s.Done(v)
    ensures v < |x.R| && x.R[v] == v
  {
    assert Unfold(SearchSeal, 0);
    assert Unfold(RepSeal, 0);
  }

  lemma RemovedRep(g: Graph, R0: seq<int>, x: Search, id: nat)
    requires SearchInv(g, R0, x) && id < |R0|
    ensures |x.R| == |R0| && (x.R[id] == -1 <==> R0[id] == -1)
  {
    assert Unfold(SearchSeal, 0);
    assert Unfold(RepSeal, 0);
    assert R0[id] == R0[id];
  }

  // ---- Completing a component ----

  /** The newest stacked node is the one with the highest index. */
  lemma TopOfStack(g: Graph, s: State, data: seq<TarjanData>, stack: seq<nat>, next: nat, v: nat)
    requires DataInv(g, s, data, stack, next) && v in s.on
    ensures |stack| > 0 && v in s.index
    ensures var top := stack[|stack| - 1];
            && top in g && top in s.on && top < |data|
            && forall x :: x in s.on && x != top ==> x in s.index && top in s.index && s.index[x] < s.index[top]
  {
    assert Unfold(DataSeal, 0);
    var top := stack[|stack| - 1];
    forall x | x in s.on && x != top ensures s.index[x] < s.index[top] {
      var i :| 0 <= i < |stack| && stack[i] == x;
    }
  }

  lemma DataPop(g: Graph, s: State, data: seq<TarjanData>, stack: seq<nat>, next: nat, top: nat)
    requires DataInv(g, s, data, stack, next) && |stack| > 0 && top == stack[|stack| - 1] && top < |data|
    ensures DataInv(g, s.(on := s.on - {top}), data[top := data[top].(onStack := false)], stack[..|stack| - 1], next)
  {
    assert Unfold(DataSeal, 0);
    StackFront(stack, s.on, top);
  }

  lemma StackFront(stack: seq<nat>, on: set<nat>, top: nat)
    requires |stack| > 0 && top == stack[|stack| - 1] && (forall u :: u in stack <==> u in on)
    requires forall i, j :: 0 <= i < j < |stack| ==> stack[i] != stack[j]
    ensures forall x :: x in stack[..|stack| - 1] <==> x in on - {top}
  {
    var k := |stack| - 1;
    assert stack == stack[..k] + [top];
    forall x ensures x in stack[..k] <==> x in on - {top} {
      if x in stack[..k] {
        var i :| 0 <= i < k && stack[..k][i] == x;
        assert stack[i] == x;
      }
    }
  }

  lemma SearchParts(g: Graph, R0: seq<int>, x: Search)
    requires SearchInv(g, R0, x)
    ensures DataInv(g, x.s, x.data, x.stack, x.next) && RepInv(g, x.s, R0, x.R)
  {
    assert Unfold(SearchSeal, 0);
  }

  /** The search after v's component, merged into m, has left the stack. */
  lemma CompleteInv(g: Graph, R0: seq<int>, x: Search, s0: State, gray: set<nat>, v: nat, m: nat, x': Search)
    requires SearchInv(g, R0, x) && v in g && v in x.s.index
    requires LoopInv(g, s0, x.s, gray, v, x.s.index[v], g[v]) && Inv(g, s0, gray)
    requires m in Segment(x.s, v) && x'.s == x.s.(on := x.s.on - Segment(x.s, v))
    requires x'.R == Redirect(x.R, Segment(x.s, v), m) && x'.log == x.log + [v]
    requires DataInv(g, x'.s, x'.data, x'.stack, x'.next)
    ensures SearchInv(g, R0, x') && Post(g, s0, x'.s, gray, v, x.s.index[v])
  {
    PopPost(g, s0, x.s, gray, v);
    PopCompletes(g, s0, x.s, gray, v);
    LoopShape(g, s0, x.s, gray, v, x.s.index[v], g[v], g[v]);
    assert RepInv(g, x.s, R0, x.R) && LogInv(g, x.s, x.log) by { assert Unfold(SearchSeal, 0); }
    CompleteReps(g, x.s, x'.s, Segment(x.s, v), v, R0, x.R, m);
    CompleteLog(g, x.s, x'.s, gray + {v}, Segment(x.s, v), v, x.log);
  }

  /** Before its component is complete a node represents itself. */
  lemma OpenReps(g: Graph, s: State, R0: seq<int>, R: seq<int>, M: set<nat>, m: nat, v: nat, x: nat)
    requires RepInv(g, s, R0, R) && v in g && x in g && v in s.on && x in s.on && v in M && x !in M
    ensures |R| == |R0| && v < |R| && x < |R|
    ensures Redirect(R, M, m)[x] == x && Redirect(R, M, m)[v] == m
  {
    assert Unfold(RepSeal, 0);
  }

  /** One more node of v's segment leaves the stack; M holds those that have, and v. */
  lemma SegmentMore(sP: State, s: State, M: set<nat>, v: nat, x: nat)
    requires v in sP.index && v in M && M <= Segment(sP, v) && s == sP.(on := sP.on - (M - {v}))
    requires x in s.on && x != v && x in s.index && s.index[v] < s.index[x]
    ensures x in sP.on && x !in M && M + {x} <= Segment(sP, v)
    ensures s.(on := s.on - {x}) == sP.(on := sP.on - (M + {x} - {v}))
  {
  }

  lemma SegmentAll(sP: State, s: State, M: set<nat>, v: nat)
    requires v in sP.index && v in M && M <= Segment(sP, v) && s == sP.(on := sP.on - (M - {v}))
    requires forall x :: x in s.on && x != v ==> x in s.index && s.index[x] < s.index[v]
    ensures M == Segment(sP, v) && s.(on := s.on - {v}) == sP.(on := sP.on - Segment(sP, v))
  {
  }

  // ---- The end of the search ----

  /** Two ids have one representative exactly when their starting representatives reach each other. */
  ghost predicate Condensed(g: Graph, R0: seq<int>, R: seq<int>) {
    && Refines(g, R0, R) && ByMutual(g, R)
  }

  /** log names each component once, after every component it can reach. */
  ghost predicate LogComplete(g: Graph, log: seq<nat>) {
    && (forall i :: 0 <= i < |log| ==> log[i] in g)
    && (forall i, j :: 0 <= i < j < |log| ==> !Reach(g, log[i], log[j]))
    && (forall v {:trigger Logged(g, log, v)} :: v in g ==> Logged(g, log, v))
  }

  lemma NothingYet(g: Graph, R0: seq<int>, n: nat)
    requires n == |R0| && RepsOK(R0) && Closed(g) && forall v: nat :: v in g <==> v < n && R0[v] == v
    ensures var s := State(map[], {}, 0);
            && Inv(g, s, {})
            && SearchInv(g, R0, Search(s, R0, seq(n, i => TarjanData(INDEX_INVALID, INDEX_INVALID, false)), [], 0, []))
  {
  }

  lemma AllDone(g: Graph, R0: seq<int>, x: Search)
    requires SearchInv(g, R0, x) && Inv(g, x.s, {}) && g.Keys <= x.s.index.Keys
    ensures Condensed(g, R0, x.R) && LogComplete(g, x.log)
  {
    assert x.s.on == {} by { assert Unfold(InvSeal, 0); }
    assert forall v :: v in g ==> x.s.Done(v);
    assert RepInv(g, x.s, R0, x.R) && LogInv(g, x.s, x.log) by { assert Unfold(SearchSeal, 0); }
    assert Condensed(g, R0, x.R) by { assert Unfold(RepSeal, 0); }
    assert LogComplete(g, x.log) by { assert Unfold(LogSeal, 0); }
  }

  /** A starting representative that has been merged away has been visited. */
  lemma MergedIsVisited(g: Graph, R0: seq<int>, x: Search, id: nat)
    requires SearchInv(g, R0, x) && id in g
    ensures id < |x.R| && (x.R[id] != id ==> id in x.s.index)
  {
    assert Unfold(SearchSeal, 0);
    assert Unfold(RepSeal, 0);
  }

  lemma StillRep(g: Graph, R0: seq<int>, x: Search, id: nat)
    requires SearchInv(g, R0, x) && id < |x.R| && x.R[id] == id
    ensures id in g
  {
    assert Unfold(SearchSeal, 0);
    assert Unfold(RepSeal, 0);
  }

  /** Each component is visited exactly once. */
  lemma {:induction false} LoggedOnce(g: Graph, log: seq<nat>, v: nat, i: nat, j: nat)
    requires LogComplete(g, log) && i < |log| && j < |log| && Mutual(g, v, log[i]) && Mutual(g, v, log[j])
    ensures i == j
  {
    ReachTrans(g, log[i], v, log[j]);
    ReachTrans(g, log[j], v, log[i]);
  }

  /** The components a component depends on are visited before it. */
  lemma LoggedInOrder(g: Graph, log: seq<nat>, u: nat, w: nat, i: nat, j: nat)
    requires LogComplete(g, log) && i < |log| && j < |log|
    requires Mutual(g, u, log[i]) && Mutual(g, w, log[j]) && Reach(g, u, w)
    ensures j <= i
  {
    ReachTrans(g, log[i], u, w);
    ReachTrans(g, log[i], w, log[j]);
  }
}
