/**
 * What a run of Tarjan's algorithm knows at any moment, as a value, with its invariant and one
 * lemma for each kind of step.  The two searches of the program (over a union-find graph and
 * over SEG nodes) keep this invariant and call these lemmas.
 */
module TarjanCore {
  import opened Graphs
  import opened Seals

  /** index: visit numbers of the visited nodes; on: the nodes of nodeStack_; next: nextIndex_. */
  datatype State = State(index: map<nat, nat>, on: set<nat>, next: nat) {
    /** v's component is complete. */
    ghost predicate Done(v: nat) {
      v in index && v !in on
    }
  }

  ghost function Enter(s: State, v: nat): State {
    State(s.index[v := s.next], s.on + {v}, s.next + 1)
  }

  ghost function White(g: Graph, s: State): set<nat> {
    g.Keys - s.index.Keys
  }

  // ---- Invariant ----

  ghost predicate IndexInv(g: Graph, s: State) {
    && s.index.Keys <= g.Keys
    && s.on <= s.index.Keys
    && (forall v :: v in s.index ==> s.index[v] < s.next)
    && (forall v, w :: v in s.index && w in s.index && s.index[v] == s.index[w] ==> v == w)
  }

  /** Complete components are closed, and a finished node still on the stack has no unvisited
      predecessor. */
  ghost predicate EdgeInv(g: Graph, s: State, gray: set<nat>) {
    && (forall v, w :: v in g && s.Done(v) && w in g[v] ==> s.Done(w))
    && (forall v, w :: v in g && v in s.on && v !in gray && w in g[v] ==> w in s.index)
  }

  ghost predicate Anchored(g: Graph, s: State, gray: set<nat>, v: nat)
    requires v in s.index
  {
    exists x :: x in gray && x in s.index && s.index[x] <= s.index[v] && Reach(g, v, x)
  }

  /** Open nodes reach everything pushed after them, and every stacked node reaches an open node
      pushed no later than itself. */
  ghost predicate ReachInv(g: Graph, s: State, gray: set<nat>)
    requires IndexInv(g, s)
  {
    && gray <= s.on
    && (forall x, y :: x in gray && y in s.on && s.index[x] <= s.index[y] ==> Reach(g, x, y))
    && (forall v :: v in s.on && v !in gray ==> Anchored(g, s, gray, v))
  }

  ghost predicate Inv(g: Graph, s: State, gray: set<nat>) {
    forall k {:trigger Unfold(InvSeal, k)} :: Unfold(InvSeal, k) ==>
      Closed(g) && IndexInv(g, s) && EdgeInv(g, s, gray) && ReachInv(g, s, gray)
  }

  /** What a search started in s0 may not disturb. */
  ghost predicate Extends(s0: State, s: State) {
    && s0.next <= s.next
    && s0.on <= s.on
    && (forall u :: u in s0.index ==> u in s.index && s.index[u] == s0.index[u])
    && (forall u :: u in s.index && u !in s0.index ==> s0.next <= s.index[u])
    && (forall u :: u in s.on && u in s0.index ==> u in s0.on)
  }

  /** low is the index of a stacked node that v reaches. */
  ghost predicate LowWitness(g: Graph, s: State, v: nat, low: nat) {
    exists y :: y in s.on && y in s.index && s.index[y] == low && Reach(g, v, y)
  }

  /** Edges from nodes numbered from or later to stacked nodes numbered before t end at low or later. */
  ghost predicate LowBound(g: Graph, s: State, from: nat, t: nat, low: nat) {
    forall x, y | x in s.on && x in g && y in g[x] && y in s.on && x in s.index && y in s.index ::
      from <= s.index[x] && s.index[y] < t ==> low <= s.index[y]
  }

  /** Handled predecessors that were stacked before the search are numbered low or later. */
  ghost predicate SeenBound(s0: State, s: State, low: nat, seen: set<nat>) {
    forall y :: y in seen && y in s.on && y in s.index && s.index[y] < s0.next ==> low <= s.index[y]
  }

  /** Result of a search from v started in s0, where low is v's final lowlink. */
  ghost predicate Post(g: Graph, s0: State, s: State, gray: set<nat>, v: nat, low: nat) {
    forall k {:trigger Unfold(PostSeal, k)} :: Unfold(PostSeal, k) ==>
    && Inv(g, s, gray) && Extends(s0, s)
    && v in s.index && v !in s0.index
    && low <= s.index[v]
    && (v in s.on ==> LowWitness(g, s0, v, low) && LowBound(g, s, s0.next, s0.next, low))
    && (v !in s.on ==> s.on == s0.on && low == s.index[v])
  }

  /** Invariant of the loop over v's predecessors, of which those in seen have been handled. */
  ghost predicate LoopInv(g: Graph, s0: State, s: State, gray: set<nat>, v: nat, low: nat, seen: set<nat>) {
    forall k {:trigger Unfold(LoopSeal, k)} :: Unfold(LoopSeal, k) ==>
    && IndexInv(g, s0) && gray <= s0.on
    && v in g && v !in s0.index && v in s.on && v in s.index && s.index[v] == s0.next
    && Inv(g, s, gray + {v}) && Extends(s0, s)
    && low <= s.index[v] && LowWitness(g, s, v, low)
    && LowBound(g, s, s0.next + 1, s0.next, low)
    && SeenBound(s0, s, low, seen)
    && seen <= s.index.Keys
  }

  // ---- The large definitions, one level at a time ----

  lemma InvOpen(g: Graph, s: State, gray: set<nat>)
    requires Inv(g, s, gray)
    ensures Closed(g) && IndexInv(g, s) && EdgeInv(g, s, gray) && ReachInv(g, s, gray)
  {
    hide IndexInv, EdgeInv, ReachInv, Closed;
    assert Unfold(InvSeal, 0);
  }

  lemma InvClose(g: Graph, s: State, gray: set<nat>)
    requires Closed(g) && IndexInv(g, s) && EdgeInv(g, s, gray) && ReachInv(g, s, gray)
    ensures Inv(g, s, gray)
  {
    hide IndexInv, EdgeInv, ReachInv, Closed;
  }

  lemma InvStacked(g: Graph, s: State, gray: set<nat>)
    requires IndexInv(g, s) && ReachInv(g, s, gray)
    ensures s.on <= s.index.Keys && gray <= s.on
  {
  }

  lemma LoopOpen(g: Graph, s0: State, s: State, gray: set<nat>, v: nat, low: nat, seen: set<nat>)
    requires LoopInv(g, s0, s, gray, v, low, seen)
    ensures IndexInv(g, s0) && gray <= s0.on
    ensures v in g && v !in s0.index && v in s.on && v in s.index && s.index[v] == s0.next
    ensures Inv(g, s, gray + {v}) && Extends(s0, s)
    ensures low <= s.index[v] && LowWitness(g, s, v, low) && LowBound(g, s, s0.next + 1, s0.next, low)
    ensures SeenBound(s0, s, low, seen) && seen <= s.index.Keys
  {
    hide Inv, IndexInv, Extends, LowWitness, LowBound, SeenBound;
    assert Unfold(LoopSeal, 0);
  }

  lemma LoopClose(g: Graph, s0: State, s: State, gray: set<nat>, v: nat, low: nat, seen: set<nat>)
    requires IndexInv(g, s0) && gray <= s0.on
    requires v in g && v !in s0.index && v in s.on && v in s.index && s.index[v] == s0.next
    requires Inv(g, s, gray + {v}) && Extends(s0, s)
    requires low <= s.index[v] && LowWitness(g, s, v, low) && LowBound(g, s, s0.next + 1, s0.next, low)
    requires SeenBound(s0, s, low, seen) && seen <= s.index.Keys
    ensures LoopInv(g, s0, s, gray, v, low, seen)
  {
    hide Inv, IndexInv, Extends, LowWitness, LowBound, SeenBound;
  }

  lemma PostOpen(g: Graph, s0: State, s: State, gray: set<nat>, v: nat, low: nat)
    requires Post(g, s0, s, gray, v, low)
    ensures Inv(g, s, gray) && Extends(s0, s) && v in s.index && v !in s0.index && low <= s.index[v]
    ensures v in s.on ==> LowWitness(g, s0, v, low) && LowBound(g, s, s0.next, s0.next, low)
    ensures v !in s.on ==> s.on == s0.on && low == s.index[v]
  {
    hide Inv, Extends, LowWitness, LowBound;
    assert Unfold(PostSeal, 0);
  }

  lemma PostClose(g: Graph, s0: State, s: State, gray: set<nat>, v: nat, low: nat)
    requires Inv(g, s, gray) && Extends(s0, s) && v in s.index && v !in s0.index && low <= s.index[v]
    requires v in s.on ==> LowWitness(g, s0, v, low) && LowBound(g, s, s0.next, s0.next, low)
    requires v !in s.on ==> s.on == s0.on && low == s.index[v]
    ensures Post(g, s0, s, gray, v, low)
  {
    hide Inv, Extends, LowWitness, LowBound;
  }

  // ---- Steps ----

  lemma EnterReachInv(g: Graph, s: State, gray: set<nat>, v: nat)
    requires Inv(g, s, gray) && v in g && v !in s.index
    requires forall x :: x in gray ==> Reach(g, x, v)
    ensures IndexInv(g, Enter(s, v)) && ReachInv(g, Enter(s, v), gray + {v})
  {
    hide Inv, EdgeInv, Reach;
    InvOpen(g, s, gray);
    var s1 := Enter(s, v);
    ReachSelf(g, v);
    forall u | u in s.on && u !in gray ensures Anchored(g, s1, gray + {v}, u) {
      var x :| x in gray && x in s.index && s.index[x] <= s.index[u] && Reach(g, u, x);
    }
  }

  lemma EnterParts(g: Graph, s: State, v: nat)
    requires IndexInv(g, s) && v in g && v !in s.index
    ensures IndexInv(g, Enter(s, v)) && Extends(s, Enter(s, v))
  {
  }

  lemma EnterEdges(g: Graph, s: State, gray: set<nat>, v: nat)
    requires EdgeInv(g, s, gray) && v !in s.index && s.on <= s.index.Keys
    ensures EdgeInv(g, Enter(s, v), gray + {v})
  {
    assert forall u :: Enter(s, v).Done(u) <==> s.Done(u);
  }

  lemma EnterInv(g: Graph, s: State, gray: set<nat>, v: nat)
    requires Inv(g, s, gray) && v in g && v !in s.index
    requires forall x :: x in gray ==> Reach(g, x, v)
    ensures LoopInv(g, s, Enter(s, v), gray, v, s.next, {})
  {
    hide Inv, IndexInv, EdgeInv, ReachInv, Extends, LoopInv;
    InvOpen(g, s, gray);
    EnterParts(g, s, v);
    assert s.on <= s.index.Keys && gray <= s.on by { InvStacked(g, s, gray); }
    EnterEdges(g, s, gray, v);
    EnterReachInv(g, s, gray, v);
    InvClose(g, Enter(s, v), gray + {v});
    ReachSelf(g, v);
    LoopClose(g, s, Enter(s, v), gray, v, s.next, {});
  }

  /** A predecessor whose component is complete changes nothing. */
  lemma SkipInv(g: Graph, s0: State, s: State, gray: set<nat>, v: nat, low: nat, seen: set<nat>, p: nat)
    requires v in g && LoopInv(g, s0, s, gray, v, low, seen) && p in g[v] && s.Done(p)
    ensures LoopInv(g, s0, s, gray, v, low, seen + {p})
  {
    assert Unfold(InvSeal, 0); assert Unfold(LoopSeal, 0);
  }

  /** A stacked predecessor may lower the lowlink. */
  lemma StackedInv(g: Graph, s0: State, s: State, gray: set<nat>, v: nat, low: nat, seen: set<nat>, p: nat)
    requires v in g && LoopInv(g, s0, s, gray, v, low, seen) && p in g[v] && p in s.on && p in s.index
    ensures LoopInv(g, s0, s, gray, v, if s.index[p] < low then s.index[p] else low, seen + {p})
  {
    assert Unfold(InvSeal, 0); assert Unfold(LoopSeal, 0);
    ReachEdge(g, v, p);
  }

  /** The search from an unvisited predecessor may start. */
  lemma CallInv(g: Graph, s0: State, s: State, gray: set<nat>, v: nat, low: nat, seen: set<nat>, p: nat)
    requires v in g && LoopInv(g, s0, s, gray, v, low, seen) && p in g[v]
    ensures forall x :: x in gray + {v} ==> Reach(g, x, p)
  {
    assert Unfold(InvSeal, 0); assert Unfold(LoopSeal, 0);
    ReachEdge(g, v, p);
    forall x | x in gray ensures Reach(g, x, p) {
      assert s.index[x] <= s.index[v];
      ReachTrans(g, x, v, p);
    }
  }

  lemma ExtendsTrans(s0: State, s: State, s': State)
    requires Extends(s0, s) && Extends(s, s')
    ensures Extends(s0, s')
  {
  }

  lemma LowBoundReturn(g: Graph, s0: State, s: State, s': State, low: nat, p: nat, plow: nat)
    requires Extends(s0, s) && Extends(s, s') && s.on <= s.index.Keys
    requires LowBound(g, s, s0.next + 1, s0.next, low)
    requires if p in s'.on then LowBound(g, s', s.next, s.next, plow) else s'.on == s.on
    ensures LowBound(g, s', s0.next + 1, s0.next, if plow < low then plow else low)
  {
  }

  lemma SeenBoundReturn(g: Graph, s0: State, s: State, s': State, low: nat, seen: set<nat>, p: nat, plow: nat)
    requires Extends(s0, s) && Extends(s, s') && SeenBound(s0, s, low, seen) && seen <= s.index.Keys
    requires p in s'.index && plow <= s'.index[p]
    ensures SeenBound(s0, s', if plow < low then plow else low, seen + {p}) && seen + {p} <= s'.index.Keys
  {
  }

  lemma ReturnWitness(g: Graph, s: State, s': State, v: nat, low: nat, p: nat, plow: nat)
    requires Closed(g) && v in g && p in g[v] && s.on <= s'.on
    requires forall u :: u in s.index ==> u in s'.index && s'.index[u] == s.index[u]
    requires LowWitness(g, s, v, low) && (plow < low ==> LowWitness(g, s, p, plow))
    ensures LowWitness(g, s', v, if plow < low then plow else low)
  {
    if plow < low {
      var y :| y in s.on && y in s.index && s.index[y] == plow && Reach(g, p, y);
      ReachEdge(g, v, p);
      ReachTrans(g, v, p, y);
    }
  }

  /** ... and its result folded into v's lowlink. */
  lemma ReturnInv(g: Graph, s0: State, s: State, s': State, gray: set<nat>, v: nat, low: nat, seen: set<nat>,
                  p: nat, plow: nat)
    requires v in g && LoopInv(g, s0, s, gray, v, low, seen) && p in g[v]
    requires Post(g, s, s', gray + {v}, p, plow)
    ensures LoopInv(g, s0, s', gray, v, if plow < low then plow else low, seen + {p})
  {
    hide Inv, IndexInv, EdgeInv, ReachInv, LoopInv, Post, LowWitness, LowBound, SeenBound;
    LoopOpen(g, s0, s, gray, v, low, seen);
    PostOpen(g, s, s', gray + {v}, p, plow);
    InvOpen(g, s, gray + {v});
    InvStacked(g, s, gray + {v});
    ExtendsTrans(s0, s, s');
    LowBoundReturn(g, s0, s, s', low, p, plow);
    SeenBoundReturn(g, s0, s, s', low, seen, p, plow);
    assert plow < low ==> p in s'.on;
    ReturnWitness(g, s, s', v, low, p, plow);
    LoopClose(g, s0, s', gray, v, if plow < low then plow else low, seen + {p});
  }

  lemma LoopShape(g: Graph, s0: State, s: State, gray: set<nat>, v: nat, low: nat, seen: set<nat>, all: set<nat>)
    requires LoopInv(g, s0, s, gray, v, low, seen) && all <= seen
    ensures LoopInv(g, s0, s, gray, v, low, all) && Inv(g, s, gray + {v})
    ensures v in s.on && v in s.index && v !in s0.index && s0.index.Keys <= s.index.Keys && low <= s.index[v]
  {
    assert Unfold(InvSeal, 0); assert Unfold(LoopSeal, 0);
  }

  lemma PostShape(g: Graph, s0: State, s: State, gray: set<nat>, v: nat, low: nat)
    requires Post(g, s0, s, gray, v, low)
    ensures v in s.index && s0.index.Keys <= s.index.Keys && Inv(g, s, gray)
  {
    assert Unfold(InvSeal, 0); assert Unfold(PostSeal, 0);
  }

  // ---- Leaving a node whose predecessors have all been handled ----

  /** The nodes that v's search put on the stack and that are still there, v included. */
  ghost function Segment(s: State, v: nat): set<nat>
    requires v in s.index
  {
    set x | x in s.on && x in s.index && s.index[v] <= s.index[x]
  }

  /** A node that keeps a lowlink below its index reaches an older open node. */
  lemma KeepAnchored(g: Graph, s0: State, s: State, gray: set<nat>, v: nat, low: nat)
    requires v in g && v in s.index && low < s.index[v] && Inv(g, s0, gray)
    requires s.index[v] == s0.next && Extends(s0, s) && LowWitness(g, s, v, low)
    ensures LowWitness(g, s0, v, low) && Anchored(g, s, gray, v)
  {
    assert Unfold(InvSeal, 0);
    var y :| y in s.on && y in s.index && s.index[y] == low && Reach(g, v, y);
    assert y in s0.on;
    if y !in gray {
      var x :| x in gray && x in s0.index && s0.index[x] <= s0.index[y] && Reach(g, y, x);
      ReachTrans(g, v, y, x);
    }
  }

  lemma KeepReachInv(g: Graph, s: State, gray: set<nat>, v: nat)
    requires IndexInv(g, s) && ReachInv(g, s, gray + {v}) && v in s.index && Anchored(g, s, gray, v)
    ensures ReachInv(g, s, gray)
  {
    var a :| a in gray && a in s.index && s.index[a] <= s.index[v] && Reach(g, v, a);
    forall u | u in s.on && u !in gray ensures Anchored(g, s, gray, u) {
      if u != v {
        var x :| x in gray + {v} && x in s.index && s.index[x] <= s.index[u] && Reach(g, u, x);
        if x == v {
          ReachTrans(g, u, v, a);
        }
      }
    }
  }

  /** With v's own edges handled, the bound on the edges of later nodes holds from v on. */
  lemma LowBoundKeep(g: Graph, s0: State, s: State, v: nat, low: nat)
    requires IndexInv(g, s) && v in g && v in s.index && s.index[v] == s0.next
    requires LowBound(g, s, s0.next + 1, s0.next, low) && SeenBound(s0, s, low, g[v])
    ensures LowBound(g, s, s0.next, s0.next, low)
  {
  }

  lemma EdgesKeep(g: Graph, s: State, gray: set<nat>, v: nat)
    requires EdgeInv(g, s, gray + {v}) && v in g && g[v] <= s.index.Keys
    ensures EdgeInv(g, s, gray)
  {
  }

  /** The lowlink is below the index: v stays on the stack. */
  lemma KeepPost(g: Graph, s0: State, s: State, gray: set<nat>, v: nat, low: nat)
    requires v in g && v in s.index && low < s.index[v]
    requires LoopInv(g, s0, s, gray, v, low, g[v]) && Inv(g, s0, gray)
    ensures Post(g, s0, s, gray, v, low)
  {
    hide Inv, IndexInv, EdgeInv, ReachInv, LoopInv, Post, Extends, LowWitness, LowBound, SeenBound, Anchored;
    LoopOpen(g, s0, s, gray, v, low, g[v]);
    InvOpen(g, s, gray + {v});
    KeepAnchored(g, s0, s, gray, v, low);
    KeepReachInv(g, s, gray, v);
    EdgesKeep(g, s, gray, v);
    LowBoundKeep(g, s0, s, v, low);
    InvClose(g, s, gray);
    PostClose(g, s0, s, gray, v, low);
  }

  /** The lowlink equals the index: nothing in v's segment has an edge to an older stacked node. */
  lemma SegmentEdges(g: Graph, s0: State, s: State, gray: set<nat>, v: nat, x: nat, y: nat)
    requires v in g && v in s.index && LoopInv(g, s0, s, gray, v, s.index[v], g[v]) && x in Segment(s, v) && x in g
        && y in g[x]
    ensures y in Segment(s, v) || s.Done(y)
  {
    assert Unfold(InvSeal, 0); assert Unfold(LoopSeal, 0);
    assert y in s.index;
  }

  /** ... so nothing leads from the segment to an older stacked node. */
  lemma SegmentCloses(g: Graph, s0: State, s: State, gray: set<nat>, v: nat, done: set<nat>)
    requires v in g && v in s.index && LoopInv(g, s0, s, gray, v, s.index[v], g[v])
    requires forall u :: u in done <==> s.Done(u)
    ensures ClosedSet(g, done) && ClosedSet(g, Segment(s, v) + done)
  {
    hide LoopInv, Inv, IndexInv, ReachInv, Extends, LowWitness, LowBound, SeenBound, Segment;
    LoopOpen(g, s0, s, gray, v, s.index[v], g[v]);
    InvOpen(g, s, gray + {v});
    forall a, b | a in done && a in g && b in g[a] ensures b in done { assert s.Done(a); assert s.Done(b); }
    forall a, b | a in Segment(s, v) && a in g && b in g[a] ensures b in Segment(s, v) + done {
      SegmentEdges(g, s0, s, gray, v, a, b);
    }
  }

  lemma SegmentReaches(g: Graph, s0: State, s: State, gray: set<nat>, v: nat, x: nat, done: set<nat>)
    requires v in g && v in s.index && LoopInv(g, s0, s, gray, v, s.index[v], g[v]) && x in Segment(s, v)
    requires (forall u :: u in done <==> s.Done(u)) && ClosedSet(g, Segment(s, v) + done)
    ensures Mutual(g, v, x)
  {
    hide LoopInv, Inv, EdgeInv, LowWitness, LowBound, SeenBound, Reach, ClosedSet;
    LoopOpen(g, s0, s, gray, v, s.index[v], g[v]);
    InvOpen(g, s, gray + {v});
    ReachSelf(g, v);
    assert Reach(g, v, x);
    if x != v {
      assert x !in gray;
      var a :| a in gray + {v} && a in s.index && s.index[a] <= s.index[x] && Reach(g, x, a);
      ReachStaysInside(g, Segment(s, v) + done, x, a);
    }
  }

  /** ... and the segment is exactly v's component. */
  lemma SegmentIsComponent(g: Graph, s0: State, s: State, gray: set<nat>, v: nat, x: nat)
    requires v in g && v in s.index && LoopInv(g, s0, s, gray, v, s.index[v], g[v])
    ensures x in Segment(s, v) <==> Mutual(g, v, x)
  {
    hide LoopInv, ClosedSet, Reach;
    var done := set u | u in s.index && u !in s.on;
    SegmentCloses(g, s0, s, gray, v, done);
    if x in Segment(s, v) {
      SegmentReaches(g, s0, s, gray, v, x, done);
    }
    if Mutual(g, v, x) {
      assert v in s.on by { LoopOpen(g, s0, s, gray, v, s.index[v], g[v]); }
      ReachStaysInside(g, Segment(s, v) + done, v, x);
      if x in done {
        ReachStaysInside(g, done, x, v);
      }
    }
  }

  lemma PoppedStack(g: Graph, s0: State, s: State, v: nat)
    requires IndexInv(g, s) && IndexInv(g, s0) && Extends(s0, s) && v in s.index && s.index[v] == s0.next
    ensures s.on - Segment(s, v) == s0.on
  {
  }

  lemma PoppedParts(g: Graph, s0: State, s: State)
    requires IndexInv(g, s) && Extends(s0, s)
    ensures IndexInv(g, s.(on := s0.on)) && Extends(s0, s.(on := s0.on))
  {
  }

  lemma PoppedEdges(g: Graph, s0: State, s: State, gray: set<nat>, v: nat)
    requires v in g && v in s.index && LoopInv(g, s0, s, gray, v, s.index[v], g[v])
    requires EdgeInv(g, s, gray + {v}) && v !in s0.on && s.on - Segment(s, v) == s0.on
    ensures EdgeInv(g, s.(on := s0.on), gray)
  {
    hide LoopInv;
    var s1 := s.(on := s0.on);
    forall a, b | a in g && s1.Done(a) && b in g[a] ensures s1.Done(b) {
      if s.Done(a) { assert s.Done(b); } else { SegmentEdges(g, s0, s, gray, v, a, b); }
    }
  }

  lemma PoppedReach(g: Graph, s0: State, s: State, gray: set<nat>)
    requires IndexInv(g, s0) && IndexInv(g, s.(on := s0.on)) && ReachInv(g, s0, gray) && Extends(s0, s)
    ensures ReachInv(g, s.(on := s0.on), gray)
  {
    var s1 := s.(on := s0.on);
    forall u | u in s1.on && u !in gray ensures Anchored(g, s1, gray, u) {
      var x :| x in gray && x in s0.index && s0.index[x] <= s0.index[u] && Reach(g, u, x);
    }
  }

  /** Taking the segment off the stack completes v's component. */
  lemma PopPost(g: Graph, s0: State, s: State, gray: set<nat>, v: nat)
    requires v in g && v in s.index && LoopInv(g, s0, s, gray, v, s.index[v], g[v]) && Inv(g, s0, gray)
    ensures Post(g, s0, s.(on := s.on - Segment(s, v)), gray, v, s.index[v])
    ensures s.on - Segment(s, v) == s0.on
  {
    hide Inv, IndexInv, EdgeInv, ReachInv, LoopInv, Post, Extends, LowWitness, LowBound, SeenBound, Segment;
    LoopOpen(g, s0, s, gray, v, s.index[v], g[v]);
    InvOpen(g, s, gray + {v});
    InvOpen(g, s0, gray);
    InvStacked(g, s0, gray);
    PoppedStack(g, s0, s, v);
    PoppedParts(g, s0, s);
    PoppedEdges(g, s0, s, gray, v);
    PoppedReach(g, s0, s, gray);
    var s1 := s.(on := s0.on);
    InvClose(g, s1, gray);
    PostClose(g, s0, s1, gray, v, s.index[v]);
  }
}
