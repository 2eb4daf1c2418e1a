/** The sparse evaluation graph: nodes with representative pointers and predecessor and successor lists. */
module Seg {
  import opened Basics
  import opened Graphs
  import opened Condensation
  import UF = UnionFind

  /** An entry of nodes_: a null pointer, or a node.  insts is the reps_ set of a call-site node. */
  datatype Slot = Removed | Live(rep: int, preds: seq<nat>, succs: seq<nat>, insts: set<nat>)

  // ---- Representative chains ----

  /** Representative pointers stay in range and never cycle: rank increases along each of them. */
  ghost predicate Chains(nodes: seq<Slot>, rank: seq<nat>) {
    && |rank| == |nodes|
    && (forall i :: 0 <= i < |nodes| && nodes[i].Live? ==> -1 <= nodes[i].rep < |nodes|)
    && (forall i :: 0 <= i < |nodes| && nodes[i].Live? && nodes[i].rep != i && nodes[i].rep != -1 ==>
          rank[i] < rank[nodes[i].rep])
  }

  /** getRep as a value: -1 when the chain ends at a removed node. */
  function RepOf(nodes: seq<Slot>, ghost rank: seq<nat>, i: nat): (r: int)
    requires Chains(nodes, rank) && i < |nodes|
    ensures r == -1 || (0 <= r < |nodes| && nodes[r].Live? && nodes[r].rep == r && (r == i || rank[i] < rank[r]))
    decreases UF.MaxRank(rank) - rank[i]
  {
    if nodes[i].Removed? || nodes[i].rep == -1 then -1
    else if nodes[i].rep == i then i
    else RepOf(nodes, rank, nodes[i].rep)
  }

  ghost function RepSeq(nodes: seq<Slot>, rank: seq<nat>): (R: seq<int>)
    requires Chains(nodes, rank)
    ensures |R| == |nodes|
    ensures forall i {:trigger R[i]} :: 0 <= i < |nodes| ==> R[i] == RepOf(nodes, rank, i)
  {
    seq(|nodes|, i requires 0 <= i < |nodes| => RepOf(nodes, rank, i))
  }

  lemma RepSeqOK(nodes: seq<Slot>, rank: seq<nat>)
    requires Chains(nodes, rank)
    ensures RepsOK(RepSeq(nodes, rank))
    ensures forall i :: 0 <= i < |nodes| ==> (RepSeq(nodes, rank)[i] == i <==> nodes[i].Live? && nodes[i].rep == i)
  {
  }

  lemma {:induction false} CompressRep(nodes: seq<Slot>, rank: seq<nat>, x: nat, y: nat)
    requires Chains(nodes, rank) && x < |nodes| && y < |nodes| && nodes[x].Live?
    ensures var nodes' := nodes[x := nodes[x].(rep := RepOf(nodes, rank, x))];
            Chains(nodes', rank) && RepOf(nodes', rank, y) == RepOf(nodes, rank, y)
    decreases UF.MaxRank(rank) - rank[y]
  {
    if nodes[y].Live? && nodes[y].rep != y && nodes[y].rep != -1 && y != x {
      CompressRep(nodes, rank, x, nodes[y].rep);
    }
  }

  lemma CompressKeepsReps(nodes: seq<Slot>, rank: seq<nat>, x: nat)
    requires Chains(nodes, rank) && x < |nodes| && nodes[x].Live?
    ensures var nodes' := nodes[x := nodes[x].(rep := RepOf(nodes, rank, x))];
            Chains(nodes', rank) && RepSeq(nodes', rank) == RepSeq(nodes, rank)
  {
    CompressRep(nodes, rank, x, x);
    forall y: nat | y < |nodes|
      ensures RepOf(nodes[x := nodes[x].(rep := RepOf(nodes, rank, x))], rank, y) == RepOf(nodes, rank, y)
    {
      CompressRep(nodes, rank, x, y);
    }
  }

  lemma {:induction false} LinkRep(nodes: seq<Slot>, rank: seq<nat>, n: nat, me: nat, nodes': seq<Slot>,
                                   rank': seq<nat>, y: nat)
    requires Chains(nodes, rank) && n < |nodes| && me < |nodes| && n != me && y < |nodes|
    requires nodes[n].Live? && nodes[n].rep == n && nodes[me].Live? && nodes[me].rep == me
    requires Chains(nodes', rank') && |nodes'| == |nodes|
    requires nodes'[n].Live? && nodes'[n].rep == me
    requires forall i :: 0 <= i < |nodes| && i != n ==>
               (nodes'[i].Live? <==> nodes[i].Live?) && (nodes[i].Live? ==> nodes'[i].rep == nodes[i].rep)
    ensures RepOf(nodes', rank', y) == if RepOf(nodes, rank, y) == n then me else RepOf(nodes, rank, y)
    decreases UF.MaxRank(rank) - rank[y]
  {
    if nodes[y].Live? && nodes[y].rep != y && nodes[y].rep != -1 {
      LinkRep(nodes, rank, n, me, nodes', rank', nodes[y].rep);
    }
  }

  // ---- The lists of the nodes ----

  function PredsOf(slot: Slot): seq<nat> {
    if slot.Live? then slot.preds else []
  }

  function SuccsOf(slot: Slot): seq<nat> {
    if slot.Live? then slot.succs else []
  }

  function InstsOf(slot: Slot): set<nat> {
    if slot.Live? then slot.insts else {}
  }

  function PredLists(nodes: seq<Slot>): (P: seq<seq<nat>>)
    ensures |P| == |nodes|
  {
    seq(|nodes|, i requires 0 <= i < |nodes| => PredsOf(nodes[i]))
  }

  function SuccLists(nodes: seq<Slot>): (P: seq<seq<nat>>)
    ensures |P| == |nodes|
  {
    seq(|nodes|, i requires 0 <= i < |nodes| => SuccsOf(nodes[i]))
  }

  function InstSets(nodes: seq<Slot>): (P: seq<set<nat>>)
    ensures |P| == |nodes|
  {
    seq(|nodes|, i requires 0 <= i < |nodes| => InstsOf(nodes[i]))
  }

  ghost predicate IdsIn(P: seq<seq<nat>>) {
    forall i, k :: 0 <= i < |P| && 0 <= k < |P[i]| ==> P[i][k] < |P|
  }

  ghost predicate IdsOK(nodes: seq<Slot>) {
    IdsIn(PredLists(nodes)) && IdsIn(SuccLists(nodes))
  }

  /** The representatives of L, in order, without drop and without removed nodes. */
  ghost function Retargeted(R: seq<int>, L: seq<nat>, drop: int): (r: seq<nat>)
    requires forall i :: 0 <= i < |R| ==> R[i] >= -1
    requires forall k :: 0 <= k < |L| ==> L[k] < |R|
  {
    if L == [] then []
    else
      var k := |L| - 1;
      var r := Retargeted(R, L[..k], drop);
      if R[L[k]] != drop && R[L[k]] != -1 then r + [R[L[k]]] else r
  }

  lemma {:induction false} RetargetedNames(R: seq<int>, L: seq<nat>, drop: int, z: nat)
    requires forall i :: 0 <= i < |R| ==> R[i] >= -1
    requires forall k :: 0 <= k < |L| ==> L[k] < |R|
    ensures z in Retargeted(R, L, drop) <==> z != drop && Names(R, L, z)
  {
    if L != [] {
      var k := |L| - 1;
      RetargetedNames(R, L[..k], drop, z);
      NamesAppend(R, L[..k], [L[k]], z);
      assert L == L[..k] + [L[k]];
      assert Names(R, [L[k]], z) <==> R[L[k]] == z by { assert L[k] in [L[k]]; }
    }
  }

  lemma RetargetStep(R: seq<int>, L: seq<nat>, j: nat, drop: int)
    requires j < |L| && forall i :: 0 <= i < |R| ==> R[i] >= -1
    requires forall k :: 0 <= k < |L| ==> L[k] < |R|
    ensures R[L[j]] == drop || R[L[j]] == -1 ==> Retargeted(R, L[..j + 1], drop) == Retargeted(R, L[..j], drop)
    ensures R[L[j]] != drop && R[L[j]] != -1 ==>
              Retargeted(R, L[..j + 1], drop) == Retargeted(R, L[..j], drop) + [R[L[j]]]
  {
    assert L[..j + 1][..j] == L[..j];
  }

  // ---- Moving one node's edges to another ----

  /** The lists P after n's entries, retargeted into X, have moved to me. */
  ghost function Moved(P: seq<seq<nat>>, me: nat, n: nat, X: seq<nat>): seq<seq<nat>>
    requires me < |P| && n < |P|
  {
    P[me := P[me] + X][n := []]
  }

  /** Of the classes other than me's and n's, X names exactly those that L names. */
  ghost predicate Renames(R: seq<int>, L: seq<nat>, X: seq<nat>, me: nat, n: nat) {
    && (forall y :: y in X ==> y < |R|)
    && (forall z {:trigger Names(R, X, z)} {:trigger Names(R, L, z)} :: z != me && z != n && z != -1 ==>
          (Names(R, X, z) <==> Names(R, L, z)))
  }

  lemma NamesAppend(R: seq<int>, L: seq<nat>, X: seq<nat>, z: int)
    ensures Names(R, L + X, z) <==> Names(R, L, z) || Names(R, X, z)
  {
    assert forall y :: y in L + X <==> y in L || y in X;
  }

  lemma NamesRedirect(R: seq<int>, L: seq<nat>, me: nat, n: nat, z: int)
    ensures Names(Redirect(R, {me, n}, me), L, z) <==>
              if z == me then Names(R, L, me) || Names(R, L, n) else z != n && Names(R, L, z)
  {
    var R' := Redirect(R, {me, n}, me);
    assert forall y: nat :: y < |R| ==>
             (R'[y] == z <==> if z == me then R[y] == me || R[y] == n else z != n && R[y] == z);
  }

  lemma MovedLists(R: seq<int>, P: seq<seq<nat>>, me: nat, n: nat, X: seq<nat>, x: nat, z: int)
    requires PredsOK(R, P) && me < |R| && n < |R| && me != n && R[me] == me && R[n] == n
    requires Renames(R, P[n], X, me, n) && PredsOK(R, Moved(P, me, n, X))
    requires x < |R| && x != n && z != x && z != -1
    ensures Lists(Redirect(R, {me, n}, me), Moved(P, me, n, X), x, z) <==>
              z != n && (Lists(R, P, x, z) || (x == me && Lists(R, P, n, z)) || (z == me && Lists(R, P, x, n)))
  {
    NamesRedirect(R, Moved(P, me, n, X)[x], me, n, z);
    if x == me {
      NamesAppend(R, P[me], X, z);
    }
  }

  lemma MovedGiven(R: seq<int>, R0: seq<int>, P0: seq<seq<nat>>, me: nat, n: nat, x: nat, z: int)
    requires PredsOK(R, P0) && |R0| == |R| && me < |R| && n < |R| && me != n
    requires x < |R| && x != n && z != x && z != -1
    ensures WasGiven(Redirect(R, {me, n}, me), R0, P0, x, z) <==>
              z != n && (WasGiven(R, R0, P0, x, z) || (x == me && WasGiven(R, R0, P0, n, z)) ||
                         (z == me && WasGiven(R, R0, P0, x, n)))
  {
    var R' := Redirect(R, {me, n}, me);
    if WasGiven(R', R0, P0, x, z) {
      var u, p :| 0 <= u < |R| && R0[u] == u && R'[u] == x && p in P0[u] && R'[p] == z;
      assert WasGiven(R, R0, P0, R[u], R[p]);
    }
    if z != n && WasGiven(R, R0, P0, x, z) {
      var u, p :| 0 <= u < |R| && R0[u] == u && R[u] == x && p in P0[u] && R[p] == z;
      assert R'[u] == x && R'[p] == z;
    }
    if z != n && x == me && WasGiven(R, R0, P0, n, z) {
      var u, p :| 0 <= u < |R| && R0[u] == u && R[u] == n && p in P0[u] && R[p] == z;
      assert R'[u] == x && R'[p] == z;
    }
    if z == me && WasGiven(R, R0, P0, x, n) {
      var u, p :| 0 <= u < |R| && R0[u] == u && R[u] == x && p in P0[u] && R[p] == n;
      assert R'[u] == x && R'[p] == z;
    }
  }

  /** Uniting n into me loses and invents no edge between classes. */
  lemma MovedEdges(R0: seq<int>, P0: seq<seq<nat>>, R: seq<int>, P: seq<seq<nat>>, me: nat, n: nat, X: seq<nat>)
    requires EdgesKept(R0, P0, R, P) && me < |R| && n < |R| && me != n && R[me] == me && R[n] == n
    requires Renames(R, P[n], X, me, n)
    ensures EdgesKept(R0, P0, Redirect(R, {me, n}, me), Moved(P, me, n, X))
  {
    var R', P' := Redirect(R, {me, n}, me), Moved(P, me, n, X);
    forall i, p | 0 <= i < |P'| && p in P'[i] ensures p < |R'| {}
    forall x, z | 0 <= x < |R'| && R'[x] == x && z != x && z != -1
      ensures Lists(R', P', x, z) <==> WasGiven(R', R0, P0, x, z)
    {
      assert x != n && R[x] == x;
      MovedLists(R, P, me, n, X, x, z);
      MovedGiven(R, R0, P0, me, n, x, z);
    }
  }

  // ---- Sorting without duplicates ----

  lemma SortedTail(s: seq<nat>)
    requires StrictlySorted(s) && s != []
    ensures StrictlySorted(s[1..]) && forall y :: y in s[1..] ==> s[0] < y
    ensures forall y :: y in s <==> y == s[0] || y in s[1..]
  {
    assert s == [s[0]] + s[1..];
  }

  lemma SortedCons(h: nat, r: seq<nat>)
    requires StrictlySorted(r) && forall y :: y in r ==> h < y
    ensures StrictlySorted([h] + r) && forall y :: y in [h] + r <==> y == h || y in r
  {
    forall k | 0 <= k < |r| ensures h < r[k] { assert r[k] in r; }
  }

  function InsertUnique(s: seq<nat>, x: nat): (r: seq<nat>)
    requires StrictlySorted(s)
    ensures StrictlySorted(r) && forall y :: y in r <==> y in s || y == x
  {
    if s == [] then [x]
    else if s[0] == x then s
    else if x < s[0] then [x] + s
    else
      SortedTail(s);
      var r := InsertUnique(s[1..], x);
      SortedCons(s[0], r);
      [s[0]] + r
  }

  /** std::sort followed by std::unique and erase. */
  function SortUnique(s: seq<nat>): (r: seq<nat>)
    ensures StrictlySorted(r) && forall y :: y in r <==> y in s
  {
    if s == [] then []
    else
      assert forall y :: y in s <==> y in s[..|s| - 1] || y == s[|s| - 1];
      InsertUnique(SortUnique(s[..|s| - 1]), s[|s| - 1])
  }

  // ---- The graph ----

  lemma ListsDoNotMatter(nodes: seq<Slot>, nodes': seq<Slot>, rank: seq<nat>)
    requires Chains(nodes, rank) && |nodes'| == |nodes|
    requires forall i :: 0 <= i < |nodes| ==>
               (nodes'[i].Live? <==> nodes[i].Live?) && (nodes[i].Live? ==> nodes'[i].rep == nodes[i].rep)
    ensures Chains(nodes', rank) && RepSeq(nodes', rank) == RepSeq(nodes, rank)
  {
    forall y: nat | y < |nodes| && Chains(nodes', rank) ensures RepOf(nodes', rank, y) == RepOf(nodes, rank, y) {
      SameRep(nodes, nodes', rank, y);
    }
  }

  lemma {:induction false} SameRep(nodes: seq<Slot>, nodes': seq<Slot>, rank: seq<nat>, y: nat)
    requires Chains(nodes, rank) && Chains(nodes', rank) && y < |nodes| == |nodes'|
    requires forall i :: 0 <= i < |nodes| ==>
               (nodes'[i].Live? <==> nodes[i].Live?) && (nodes[i].Live? ==> nodes'[i].rep == nodes[i].rep)
    ensures RepOf(nodes', rank, y) == RepOf(nodes, rank, y)
    decreases UF.MaxRank(rank) - rank[y]
  {
    if nodes[y].Live? && nodes[y].rep != y && nodes[y].rep != -1 {
      SameRep(nodes, nodes', rank, nodes[y].rep);
    }
  }

  /** Everything about the nodes except their representative pointers. */
  datatype Content = Content(alive: seq<bool>, preds: seq<seq<nat>>, succs: seq<seq<nat>>, insts: seq<set<nat>>)

  function ContentOf(nodes: seq<Slot>): Content {
    Content(seq(|nodes|, i requires 0 <= i < |nodes| => nodes[i].Live?),
            PredLists(nodes), SuccLists(nodes), InstSets(nodes))
  }

  lemma AliveIs(nodes: seq<Slot>, c: Content, i: nat)
    requires c == ContentOf(nodes) && i < |nodes|
    ensures |c.alive| == |nodes| && c.alive[i] == nodes[i].Live?
  {
  }

  lemma {:induction false} AddedRep(nodes: seq<Slot>, rank: seq<nat>, inst: nat, y: nat)
    requires Chains(nodes, rank) && y < |nodes|
    requires Chains(nodes + [Live(|nodes|, [], [], {inst})], rank + [0])
    ensures RepOf(nodes + [Live(|nodes|, [], [], {inst})], rank + [0], y) == RepOf(nodes, rank, y)
    decreases UF.MaxRank(rank) - rank[y]
  {
    if nodes[y].Live? && nodes[y].rep != y && nodes[y].rep != -1 {
      AddedRep(nodes, rank, inst, nodes[y].rep);
    }
  }

  lemma AddedNode(nodes: seq<Slot>, rank: seq<nat>, inst: nat)
    requires Chains(nodes, rank) && IdsOK(nodes)
    ensures var nodes' := nodes + [Live(|nodes|, [], [], {inst})];
            && Chains(nodes', rank + [0]) && IdsOK(nodes')
            && RepSeq(nodes', rank + [0]) == RepSeq(nodes, rank) + [|nodes|]
  {
    var nodes' := nodes + [Live(|nodes|, [], [], {inst})];
    assert PredLists(nodes') == PredLists(nodes) + [[]];
    assert SuccLists(nodes') == SuccLists(nodes) + [[]];
    forall y: nat | y < |nodes| ensures RepOf(nodes', rank + [0], y) == RepOf(nodes, rank, y) {
      AddedRep(nodes, rank, inst, y);
    }
  }

  ghost function Grown(P: seq<seq<nat>>, me: nat, X: seq<nat>): seq<seq<nat>>
    requires me < |P|
  {
    P[me := P[me] + X]
  }

  lemma GrownTwice(P: seq<seq<nat>>, me: nat, X: seq<nat>, Y: seq<nat>)
    requires me < |P|
    ensures Grown(Grown(P, me, X), me, Y) == Grown(P, me, X + Y)
  {
    assert P[me] + X + Y == P[me] + (X + Y);
  }

  /** The lists after n has been united into me, before n's are cleared. */
  ghost function MovedContent(c: Content, R: seq<int>, me: nat, n: nat): Content
    requires me < |c.preds| == |c.succs| == |c.insts| == |R| && n < |R|
    requires forall i :: 0 <= i < |R| ==> R[i] >= -1
    requires IdsIn(c.preds) && IdsIn(c.succs)
  {
    c.(preds := Grown(c.preds, me, Retargeted(R, c.preds[n], me)),
       succs := Grown(c.succs, me, c.succs[n] + Retargeted(R, c.succs[n], me)),
       insts := c.insts[me := c.insts[me] + c.insts[n]][n := {}])
  }

  /** The lists after n has been united into me. */
  ghost function UnitedContent(c: Content, R: seq<int>, me: nat, n: nat): Content
    requires me < |c.preds| == |c.succs| == |c.insts| == |R| && n < |R|
    requires forall i :: 0 <= i < |R| ==> R[i] >= -1
    requires IdsIn(c.preds) && IdsIn(c.succs)
  {
    c.(preds := Moved(c.preds, me, n, Retargeted(R, c.preds[n], me)),
       succs := Moved(c.succs, me, n, c.succs[n] + Retargeted(R, c.succs[n], me)),
       insts := c.insts[me := c.insts[me] + c.insts[n]][n := {}])
  }

  /** The receiver keeps its edges and gets those of n to other representatives, its successors also as they are;
      the instructions move too, and nothing is left on n. */
  lemma UnitedMeans(c: Content, R: seq<int>, me: nat, n: nat, p: nat)
    requires me < |c.preds| == |c.succs| == |c.insts| == |R| && n < |R| && me != n
    requires forall i :: 0 <= i < |R| ==> R[i] >= -1
    requires IdsIn(c.preds) && IdsIn(c.succs)
    ensures var c' := UnitedContent(c, R, me, n);
            && |c'.preds| == |c'.succs| == |c'.insts| == |R|
            && (p in c'.preds[me] <==>
                  p in c.preds[me] || (p != me && exists y :: y in c.preds[n] && y < |R| && R[y] == p))
            && (p in c'.succs[me] <==>
                  p in c.succs[me] || p in c.succs[n]
                  || (p != me && exists y :: y in c.succs[n] && y < |R| && R[y] == p))
            && c'.preds[n] == [] && c'.succs[n] == []
            && c'.insts[me] == c.insts[me] + c.insts[n] && c'.insts[n] == {}
            && forall i :: 0 <= i < |R| && i != me && i != n ==>
                 c'.preds[i] == c.preds[i] && c'.succs[i] == c.succs[i] && c'.insts[i] == c.insts[i]
  {
    RetargetedNames(R, c.preds[n], me, p);
    RetargetedNames(R, c.succs[n], me, p);
  }

  lemma RankLength(nodes: seq<Slot>, rank: seq<nat>)
    requires Chains(nodes, rank)
    ensures |rank| == |nodes|
  {
  }

  lemma RepsAtLeast(nodes: seq<Slot>, rank: seq<nat>)
    requires Chains(nodes, rank)
    ensures forall i :: 0 <= i < |nodes| ==> RepSeq(nodes, rank)[i] >= -1
  {
  }

  lemma RepIsLive(nodes: seq<Slot>, rank: seq<nat>, i: nat)
    requires Chains(nodes, rank) && i < |nodes| && RepSeq(nodes, rank)[i] == i
    ensures nodes[i].Live? && nodes[i].rep == i
  {
    assert RepSeq(nodes, rank)[i] == RepOf(nodes, rank, i);
  }

  lemma IdsAt(nodes: seq<Slot>, i: nat)
    requires IdsOK(nodes) && i < |nodes| && nodes[i].Live?
    ensures nodes[i].preds == ContentOf(nodes).preds[i] && nodes[i].succs == ContentOf(nodes).succs[i]
    ensures forall k :: 0 <= k < |nodes[i].preds| ==> nodes[i].preds[k] < |nodes|
    ensures forall k :: 0 <= k < |nodes[i].succs| ==> nodes[i].succs[k] < |nodes|
  {
    assert nodes[i].preds == PredLists(nodes)[i] && nodes[i].succs == SuccLists(nodes)[i];
  }

  lemma PushPred(nodes: seq<Slot>, rank: seq<nat>, me: nat, y: nat)
    requires Chains(nodes, rank) && IdsOK(nodes) && me < |nodes| && nodes[me].Live? && y < |nodes|
    ensures var nodes' := nodes[me := nodes[me].(preds := nodes[me].preds + [y])];
            && Chains(nodes', rank) && IdsOK(nodes') && RepSeq(nodes', rank) == RepSeq(nodes, rank)
            && ContentOf(nodes') == ContentOf(nodes).(preds := Grown(ContentOf(nodes).preds, me, [y]))
  {
    var nodes' := nodes[me := nodes[me].(preds := nodes[me].preds + [y])];
    ListsDoNotMatter(nodes, nodes', rank);
    assert PredLists(nodes') == Grown(PredLists(nodes), me, [y]);
    assert ContentOf(nodes') == ContentOf(nodes).(preds := Grown(ContentOf(nodes).preds, me, [y]));
  }

  lemma PushSuccs(nodes: seq<Slot>, rank: seq<nat>, me: nat, Y: seq<nat>)
    requires Chains(nodes, rank) && IdsOK(nodes) && me < |nodes| && nodes[me].Live?
    requires forall k :: 0 <= k < |Y| ==> Y[k] < |nodes|
    ensures var nodes' := nodes[me := nodes[me].(succs := nodes[me].succs + Y)];
            && Chains(nodes', rank) && IdsOK(nodes') && RepSeq(nodes', rank) == RepSeq(nodes, rank)
            && ContentOf(nodes') == ContentOf(nodes).(succs := Grown(ContentOf(nodes).succs, me, Y))
  {
    var nodes' := nodes[me := nodes[me].(succs := nodes[me].succs + Y)];
    ListsDoNotMatter(nodes, nodes', rank);
    assert SuccLists(nodes') == Grown(SuccLists(nodes), me, Y);
    assert ContentOf(nodes') == ContentOf(nodes).(succs := Grown(ContentOf(nodes).succs, me, Y));
  }

  lemma MoveInsts(nodes: seq<Slot>, rank: seq<nat>, me: nat, n: nat)
    requires Chains(nodes, rank) && IdsOK(nodes) && me < |nodes| && n < |nodes| && me != n
    requires nodes[me].Live? && nodes[n].Live?
    ensures var all := nodes[me].insts + nodes[n].insts;
            var nodes' := nodes[me := nodes[me].(insts := all)][n := nodes[n].(insts := {})];
            && Chains(nodes', rank) && IdsOK(nodes') && RepSeq(nodes', rank) == RepSeq(nodes, rank)
            && ContentOf(nodes') == var c := ContentOf(nodes);
                 c.(insts := c.insts[me := c.insts[me] + c.insts[n]][n := {}])
  {
    var nodes' := nodes[me := nodes[me].(insts := nodes[me].insts + nodes[n].insts)][n := nodes[n].(insts := {})];
    ListsDoNotMatter(nodes, nodes', rank);
    assert PredLists(nodes') == PredLists(nodes) && SuccLists(nodes') == SuccLists(nodes);
  }

  /** The last step of unite: n points at me and its lists are cleared. */
  lemma Absorb(nodes: seq<Slot>, rank: seq<nat>, me: nat, n: nat)
    requires Chains(nodes, rank) && IdsOK(nodes) && me < |nodes| && n < |nodes| && me != n
    requires nodes[me].Live? && nodes[n].Live? && nodes[me].rep == me && nodes[n].rep == n
    ensures var nodes' := nodes[n := Live(me, [], [], nodes[n].insts)];
            var rank' := rank[me := if rank[n] < rank[me] then rank[me] else rank[n] + 1];
            && Chains(nodes', rank') && IdsOK(nodes')
            && RepSeq(nodes', rank') == Redirect(RepSeq(nodes, rank), {me, n}, me)
            && ContentOf(nodes') == var c := ContentOf(nodes); c.(preds := c.preds[n := []], succs := c.succs[n := []])
  {
    var nodes' := nodes[n := Live(me, [], [], nodes[n].insts)];
    var rank' := rank[me := if rank[n] < rank[me] then rank[me] else rank[n] + 1];
    assert PredLists(nodes') == PredLists(nodes)[n := []];
    assert SuccLists(nodes') == SuccLists(nodes)[n := []];
    assert InstSets(nodes') == InstSets(nodes);
    forall y: nat | y < |nodes|
      ensures RepOf(nodes', rank', y) == if RepOf(nodes, rank, y) == n then me else RepOf(nodes, rank, y)
    {
      LinkRep(nodes, rank, n, me, nodes', rank', y);
    }
  }

  // ---- Cleaning ----

  /** EdgeSet::unique */
  ghost function Cleaned(R: seq<int>, L: seq<nat>): seq<nat>
    requires forall i :: 0 <= i < |R| ==> R[i] >= -1
    requires forall k :: 0 <= k < |L| ==> L[k] < |R|
  {
    SortUnique(Retargeted(R, L, -1))
  }

  ghost function CleanedLists(R: seq<int>, P: seq<seq<nat>>, n: nat): seq<seq<nat>>
    requires |P| == |R| && IdsIn(P) && n <= |P|
    requires forall i :: 0 <= i < |R| ==> R[i] >= -1
  {
    seq(|P|, i requires 0 <= i < |P| => if i < n && R[i] == i then Cleaned(R, P[i]) else P[i])
  }

  /** Cleaning the lists of all representatives. */
  ghost function CleanedContent(c: Content, R: seq<int>, n: nat): Content
    requires |c.preds| == |c.succs| == |R| && IdsIn(c.preds) && IdsIn(c.succs) && n <= |R|
    requires forall i :: 0 <= i < |R| ==> R[i] >= -1
  {
    c.(preds := CleanedLists(R, c.preds, n), succs := CleanedLists(R, c.succs, n))
  }

  lemma CleanStep(c: Content, R: seq<int>, i: nat)
    requires |c.preds| == |c.succs| == |R| && IdsIn(c.preds) && IdsIn(c.succs) && i < |R|
    requires forall i :: 0 <= i < |R| ==> R[i] >= -1
    ensures var c1 := CleanedContent(c, R, i);
            && |c1.preds| == |c1.succs| == |R| && c1.preds[i] == c.preds[i] && c1.succs[i] == c.succs[i]
            && CleanedContent(c, R, i + 1) ==
                 if R[i] == i then
                   c1.(preds := c1.preds[i := Cleaned(R, c.preds[i])], succs := c1.succs[i := Cleaned(R, c.succs[i])])
                 else c1
  {
    var c1, c2 := CleanedContent(c, R, i), CleanedContent(c, R, i + 1);
    if R[i] == i {
      assert c2.preds == c1.preds[i := Cleaned(R, c.preds[i])];
      assert c2.succs == c1.succs[i := Cleaned(R, c.succs[i])];
    } else {
      assert c2.preds == c1.preds && c2.succs == c1.succs;
    }
  }

  lemma CleanedIds(R: seq<int>, L: seq<nat>)
    requires RepsOK(R) && forall i :: 0 <= i < |R| ==> R[i] >= -1
    requires forall k :: 0 <= k < |L| ==> L[k] < |R|
    ensures StrictlySorted(Cleaned(R, L))
    ensures forall y :: y in Cleaned(R, L) ==> y < |R| && R[y] == y && Names(R, L, y)
    ensures forall z: nat :: Names(R, L, z) ==> z in Cleaned(R, L)
  {
    forall z: nat ensures z in Cleaned(R, L) <==> Names(R, L, z) {
      RetargetedNames(R, L, -1, z);
    }
    forall y | y in Cleaned(R, L) ensures y < |R| && R[y] == y {
      assert Names(R, L, y);
    }
  }

  /** Replacing the lists of node i. */
  lemma SetLists(nodes: seq<Slot>, rank: seq<nat>, i: nat, preds: seq<nat>, succs: seq<nat>)
    requires Chains(nodes, rank) && IdsOK(nodes) && i < |nodes| && nodes[i].Live?
    requires (forall k :: 0 <= k < |preds| ==> preds[k] < |nodes|)
        && (forall k :: 0 <= k < |succs| ==> succs[k] < |nodes|)
    ensures var nodes' := nodes[i := nodes[i].(preds := preds, succs := succs)];
            && Chains(nodes', rank) && IdsOK(nodes') && RepSeq(nodes', rank) == RepSeq(nodes, rank)
            && ContentOf(nodes') == var c := ContentOf(nodes);
                 c.(preds := c.preds[i := preds], succs := c.succs[i := succs])
  {
    var nodes' := nodes[i := nodes[i].(preds := preds, succs := succs)];
    ListsDoNotMatter(nodes, nodes', rank);
    assert PredLists(nodes') == PredLists(nodes)[i := preds];
    assert SuccLists(nodes') == SuccLists(nodes)[i := succs];
    assert InstSets(nodes') == InstSets(nodes);
  }

  /** Cleaning makes the lists of a representative the strictly sorted lists of the representatives they name. */
  lemma CleanedMeans(c: Content, R: seq<int>, i: nat, z: nat)
    requires |c.preds| == |c.succs| == |R| && IdsIn(c.preds) && IdsIn(c.succs) && RepsOK(R) && i < |R|
    requires forall j :: 0 <= j < |R| ==> R[j] >= -1
    ensures var c' := CleanedContent(c, R, |R|);
            && |c'.preds| == |c'.succs| == |R| && c'.insts == c.insts
            && if R[i] != i then c'.preds[i] == c.preds[i] && c'.succs[i] == c.succs[i]
               else
                 && StrictlySorted(c'.preds[i]) && StrictlySorted(c'.succs[i])
                 && (z in c'.preds[i] <==> exists y :: y in c.preds[i] && y < |R| && R[y] == z)
                 && (z in c'.succs[i] <==> exists y :: y in c.succs[i] && y < |R| && R[y] == z)
  {
    if R[i] == i {
      CleanedIds(R, c.preds[i]);
      CleanedIds(R, c.succs[i]);
    }
  }

  lemma CleanedIdsIn(R: seq<int>, P: seq<seq<nat>>)
    requires RepsOK(R) && |P| == |R| && IdsIn(P) && forall i :: 0 <= i < |R| ==> R[i] >= -1
    ensures PredsOK(R, P) && PredsOK(R, CleanedLists(R, P, |P|))
  {
    var P' := CleanedLists(R, P, |P|);
    forall i, p | 0 <= i < |P'| && p in P'[i] ensures p < |R| {
      CleanedIds(R, P[i]);
    }
  }

  lemma CleanedNames(R: seq<int>, L: seq<nat>, w: nat)
    requires RepsOK(R) && forall i :: 0 <= i < |R| ==> R[i] >= -1
    requires forall k :: 0 <= k < |L| ==> L[k] < |R|
    ensures Names(R, Cleaned(R, L), w) <==> Names(R, L, w)
  {
    CleanedIds(R, L);
    if Names(R, L, w) {
      assert w in Cleaned(R, L);
    }
  }

  lemma CleanedEdge(R: seq<int>, P: seq<seq<nat>>, v: nat, w: nat)
    requires RepsOK(R) && |P| == |R| && IdsIn(P) && forall i :: 0 <= i < |R| ==> R[i] >= -1
    requires PredsOK(R, P) && PredsOK(R, CleanedLists(R, P, |P|)) && v < |R| && R[v] == v
    ensures v in ClassGraph(R, P) && v in ClassGraph(R, CleanedLists(R, P, |P|))
    ensures w in ClassGraph(R, CleanedLists(R, P, |P|))[v] <==> w in ClassGraph(R, P)[v]
  {
    ClassGraphEdge(R, P, v, w);
    ClassGraphEdge(R, CleanedLists(R, P, |P|), v, w);
    CleanedNames(R, P[v], w);
  }

  /** Cleaning leaves the graph over representatives as it was. */
  lemma CleanedClassGraph(R: seq<int>, P: seq<seq<nat>>)
    requires RepsOK(R) && |P| == |R| && IdsIn(P) && forall i :: 0 <= i < |R| ==> R[i] >= -1
    ensures PredsOK(R, P) && PredsOK(R, CleanedLists(R, P, |P|))
    ensures ClassGraph(R, CleanedLists(R, P, |P|)) == ClassGraph(R, P)
  {
    CleanedIdsIn(R, P);
    var g, h := ClassGraph(R, P), ClassGraph(R, CleanedLists(R, P, |P|));
    SameGraph(g, h) by {
      forall v, w | v in g && v in h ensures w in h[v] <==> w in g[v] {
        CleanedEdge(R, P, v, w);
      }
    }
  }

  lemma SameGraph(g: Graph, h: Graph)
    requires h.Keys == g.Keys && forall v, w :: v in g && v in h ==> (w in h[v] <==> w in g[v])
    ensures h == g
  {
    forall v | v in g ensures v in h && h[v] == g[v] {
      assert v in h.Keys;
    }
  }

  class SEG {
    var nodes: seq<Slot>
    ghost var rank: seq<nat>

    ghost predicate Valid()
      reads this
    {
      Chains(nodes, rank) && IdsOK(nodes)
    }

    ghost function Reps(): (R: seq<int>)
      reads this
      requires Valid()
      ensures |R| == |nodes|
    {
      RepSeq(nodes, rank)
    }

    ghost function Content(): Content
      reads this
    {
      ContentOf(nodes)
    }

    constructor ()
      ensures Valid() && nodes == []
    {
      nodes, rank := [], [];
    }

    method AddNode(inst: nat) returns (id: nat)
      requires Valid()
      modifies this
      ensures Valid() && id == |old(nodes)| && nodes == old(nodes) + [Live(id, [], [], {inst})]
      ensures Reps() == old(Reps()) + [id]
    {
      id := |nodes|;
      AddedNode(nodes, rank, inst);
      nodes, rank := nodes + [Live(id, [], [], {inst})], rank + [0];
    }

    /** getRep on a const graph: no pointer is changed. */
    function RepConst(id: nat): (r: int)
      reads this
      requires Valid() && id < |nodes|
      ensures r == Reps()[id]
    {
      RepOf(nodes, rank, id)
    }

    method GetRep(id: nat) returns (r: int)
      requires Valid() && id < |nodes|
      modifies `nodes
      ensures Valid() && |nodes| == |old(nodes)| && Reps() == old(Reps()) && Content() == old(Content())
      ensures r == Reps()[id] && (nodes[id].Live? ==> nodes[id].rep == r)
      decreases UF.MaxRank(rank) - rank[id]
    {
      r := id;
      if nodes[id].Removed? {
        return -1;
      }
      if nodes[id].rep == -1 {
        return -1;
      }
      if nodes[id].rep != id {
        ghost var R := Reps();
        assert R[nodes[id].rep] == R[id];
        ghost var c := Content();
        AliveIs(nodes, c, id);
        r := GetRep(nodes[id].rep);
        AliveIs(nodes, c, id);
        ghost var nodes0 := nodes;
        assert r == RepOf(nodes, rank, id);
        CompressKeepsReps(nodes, rank, id);
        nodes := nodes[id := nodes[id].(rep := r)];
        assert Content() == ContentOf(nodes0);
      }
    }

    method InsertPred(me: nat, y: nat)
      requires Valid() && me < |nodes| && nodes[me].Live? && y < |nodes|
      modifies `nodes
      ensures Valid() && |nodes| == |old(nodes)| && Reps() == old(Reps())
      ensures Content() == var c := old(Content()); c.(preds := Grown(c.preds, me, [y]))
    {
      PushPred(nodes, rank, me, y);
      nodes := nodes[me := nodes[me].(preds := nodes[me].preds + [y])];
    }

    method InsertSuccs(me: nat, Y: seq<nat>)
      requires Valid() && me < |nodes| && nodes[me].Live? && forall k :: 0 <= k < |Y| ==> Y[k] < |nodes|
      modifies `nodes
      ensures Valid() && |nodes| == |old(nodes)| && Reps() == old(Reps())
      ensures Content() == var c := old(Content()); c.(succs := Grown(c.succs, me, Y))
    {
      PushSuccs(nodes, rank, me, Y);
      nodes := nodes[me := nodes[me].(succs := nodes[me].succs + Y)];
    }

    /** A loop of unite: the ids in L, as representatives, join me's predecessors. */
    method TakePreds(me: nat, L: seq<nat>)
      requires Valid() && me < |nodes| && Reps()[me] == me && forall k :: 0 <= k < |L| ==> L[k] < |nodes|
      modifies `nodes
      ensures Valid() && Reps() == old(Reps())
      ensures Content() == var c := old(Content()); c.(preds := Grown(c.preds, me, Retargeted(Reps(), L, me)))
    {
      hide Chains, IdsOK, RepOf;
      ghost var R, c := Reps(), Content();
      RepsAtLeast(nodes, rank);
      assert c.preds[me] + [] == c.preds[me];
      for j := 0 to |L|
        invariant Valid() && Reps() == R
        invariant Content() == c.(preds := Grown(c.preds, me, Retargeted(R, L[..j], me)))
      {
        RetargetStep(R, L, j, me);
        var destId := GetRep(L[j]);
        RepIsLive(nodes, rank, me);
        if destId != me && destId != -1 {
          InsertPred(me, destId);
          GrownTwice(c.preds, me, Retargeted(R, L[..j], me), [destId]);
        }
      }
      assert L[..|L|] == L;
    }

    method TakeSuccs(me: nat, L: seq<nat>)
      requires Valid() && me < |nodes| && Reps()[me] == me && forall k :: 0 <= k < |L| ==> L[k] < |nodes|
      modifies `nodes
      ensures Valid() && Reps() == old(Reps())
      ensures Content() == var c := old(Content()); c.(succs := Grown(c.succs, me, Retargeted(Reps(), L, me)))
    {
      hide Chains, IdsOK, RepOf;
      ghost var R, c := Reps(), Content();
      RepsAtLeast(nodes, rank);
      assert c.succs[me] + [] == c.succs[me];
      for j := 0 to |L|
        invariant Valid() && Reps() == R
        invariant Content() == c.(succs := Grown(c.succs, me, Retargeted(R, L[..j], me)))
      {
        RetargetStep(R, L, j, me);
        var destId := GetRep(L[j]);
        RepIsLive(nodes, rank, me);
        if destId != me && destId != -1 {
          InsertSuccs(me, [destId]);
          GrownTwice(c.succs, me, Retargeted(R, L[..j], me), [destId]);
        }
      }
      assert L[..|L|] == L;
    }

    method TakeAllSuccs(me: nat, n: nat)
      requires Valid() && me < |nodes| && n < |nodes| && me != n && Reps()[me] == me && Reps()[n] == n
      requires forall i :: 0 <= i < |nodes| ==> Reps()[i] >= -1
      modifies `nodes
      ensures Valid() && Reps() == old(Reps())
      ensures Content() == var c := old(Content());
                c.(succs := Grown(c.succs, me, c.succs[n] + Retargeted(Reps(), c.succs[n], me)))
    {
      ghost var c := Content();
      RepIsLive(nodes, rank, me);
      RepIsLive(nodes, rank, n);
      IdsAt(nodes, n);
      InsertSuccs(me, nodes[n].succs);
      RepIsLive(nodes, rank, n);
      IdsAt(nodes, n);
      TakeSuccs(me, nodes[n].succs);
      GrownTwice(c.succs, me, c.succs[n], Retargeted(Reps(), c.succs[n], me));
    }

    /** Merges node n into node me. */
    method Unite(me: nat, n: nat)
      requires Valid() && me < |nodes| && n < |nodes| && me != n && Reps()[me] == me && Reps()[n] == n
      requires forall i :: 0 <= i < |nodes| ==> Reps()[i] >= -1
      modifies this
      ensures Valid() && |nodes| == |old(nodes)| && Reps() == Redirect(old(Reps()), {me, n}, me)
      ensures Content() == UnitedContent(old(Content()), old(Reps()), me, n)
    {
      hide RepOf, IdsOK, Chains;
      MoveAll(me, n);
      ClearLists(me, n);
    }

    /** Instructions and edges of n, on to me. */
    method MoveAll(me: nat, n: nat)
      requires Valid() && me < |nodes| && n < |nodes| && me != n && Reps()[me] == me && Reps()[n] == n
      requires forall i :: 0 <= i < |nodes| ==> Reps()[i] >= -1
      modifies `nodes
      ensures Valid() && Reps() == old(Reps())
      ensures Content() == MovedContent(old(Content()), old(Reps()), me, n)
    {
      hide RepOf, IdsOK, Chains;
      RepIsLive(nodes, rank, me);
      RepIsLive(nodes, rank, n);
      MoveInsts(nodes, rank, me, n);
      nodes := nodes[me := nodes[me].(insts := nodes[me].insts + nodes[n].insts)][n := nodes[n].(insts := {})];
      IdsAt(nodes, n);
      TakePreds(me, nodes[n].preds);
      TakeAllSuccs(me, n);
    }

    /** The end of unite: me represents n, whose lists are cleared. */
    method ClearLists(me: nat, n: nat)
      requires Valid() && me < |nodes| && n < |nodes| && me != n && Reps()[me] == me && Reps()[n] == n
      modifies this
      ensures Valid() && |nodes| == |old(nodes)| && Reps() == Redirect(old(Reps()), {me, n}, me)
      ensures Content() == var c := old(Content()); c.(preds := c.preds[n := []], succs := c.succs[n := []])
    {
      hide RepOf, IdsOK, Chains;
      RepIsLive(nodes, rank, me);
      RepIsLive(nodes, rank, n);
      RankLength(nodes, rank);
      Absorb(nodes, rank, me, n);
      nodes := nodes[n := Live(me, [], [], nodes[n].insts)];
      rank := rank[me := if rank[n] < rank[me] then rank[me] else rank[n] + 1];
    }

    /** The loop of unique: the ids of L as representatives, removed nodes left out. */
    method MapIds(L: seq<nat>) returns (newNodes: seq<nat>)
      requires Valid() && forall k :: 0 <= k < |L| ==> L[k] < |nodes|
      requires forall i :: 0 <= i < |nodes| ==> Reps()[i] >= -1
      modifies `nodes
      ensures Valid() && Reps() == old(Reps()) && Content() == old(Content())
      ensures newNodes == Retargeted(Reps(), L, -1)
    {
      ghost var R := Reps();
      newNodes := [];
      for j := 0 to |L|
        invariant Valid() && Reps() == R && Content() == old(Content())
        invariant newNodes == Retargeted(R, L[..j], -1)
      {
        RetargetStep(R, L, j, -1);
        var id := GetRep(L[j]);
        if id == -1 {
          continue;
        }
        newNodes := newNodes + [id];
      }
      assert L[..|L|] == L;
    }

    /** Node::unique */
    method Unique(i: nat)
      requires Valid() && i < |nodes| && Reps()[i] == i
      requires forall j :: 0 <= j < |nodes| ==> Reps()[j] >= -1
      modifies `nodes
      ensures Valid() && Reps() == old(Reps())
      ensures Content() == var c := old(Content());
                c.(preds := c.preds[i := Cleaned(Reps(), c.preds[i])],
                   succs := c.succs[i := Cleaned(Reps(), c.succs[i])])
    {
      RepSeqOK(nodes, rank);
      RepIsLive(nodes, rank, i);
      IdsAt(nodes, i);
      CleanedIds(Reps(), nodes[i].preds);
      CleanedIds(Reps(), nodes[i].succs);
      var preds := MapIds(nodes[i].preds);
      RepIsLive(nodes, rank, i);
      IdsAt(nodes, i);
      var succs := MapIds(nodes[i].succs);
      RepIsLive(nodes, rank, i);
      preds, succs := SortUnique(preds), SortUnique(succs);
      assert forall k :: 0 <= k < |preds| ==> preds[k] in preds;
      assert forall k :: 0 <= k < |succs| ==> succs[k] in succs;
      SetLists(nodes, rank, i, preds, succs);
      nodes := nodes[i := nodes[i].(preds := preds, succs := succs)];
    }

    method CleanGraph()
      requires Valid()
      modifies `nodes
      ensures Valid() && |nodes| == |old(nodes)| && Reps() == old(Reps())
      ensures forall i :: 0 <= i < |nodes| ==> Reps()[i] >= -1
      ensures Content() == CleanedContent(old(Content()), Reps(), |nodes|)
    {
      ghost var R, c := Reps(), Content();
      RepsAtLeast(nodes, rank);
      for i := 0 to |nodes|
        invariant Valid() && |nodes| == |R| && Reps() == R
        invariant Content() == CleanedContent(c, R, i)
      {
        RepSeqOK(nodes, rank);
        CleanStep(c, R, i);
        if nodes[i].Live? && nodes[i].rep == i {
          Unique(i);
        }
      }
    }
  }
}
