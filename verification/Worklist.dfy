/** The two-vector worklist, and what a backward search driven by a worklist has found. */
module Worklists {
  import opened Graphs
  import opened Seals

  class Worklist<T(==)> {
    var work: seq<T>
    var workNext: seq<T>

    function Items(): multiset<T>
      reads this
    {
      multiset(work) + multiset(workNext)
    }

    constructor (initial: seq<T>)
      ensures work == initial && workNext == []
    {
      work, workNext := initial, [];
    }

    method Push(vals: seq<T>)
      modifies this
      ensures work == old(work) && workNext == old(workNext) + vals
    {
      workNext := workNext + vals;
    }

    predicate Empty()
      reads this
    {
      work == [] && workNext == []
    }

    /** Swaps in what was pushed meanwhile once the current vector is used up. */
    method Peek() returns (r: T)
      requires !Empty()
      modifies this
      ensures Items() == old(Items()) && work != [] && r == work[|work| - 1]
      ensures if old(work) != [] then work == old(work) && workNext == old(workNext)
              else work == old(workNext) && workNext == []
    {
      if work == [] {
        work, workNext := workNext, work;
      }
      r := work[|work| - 1];
    }

    /** The last item of the current vector; no item is lost or repeated. */
    method Pop() returns (r: T)
      requires !Empty()
      modifies this
      ensures old(Items()) == Items() + multiset{r}
      ensures var from := if old(work) != [] then old(work) else old(workNext);
              from == work + [r] && workNext == if old(work) != [] then old(workNext) else []
    {
      r := Peek();
      assert work == work[..|work| - 1] + [work[|work| - 1]];
      work := work[..|work| - 1];
    }
  }

  // ---- Backward search ----

  /** v is reached from one of the roots. */
  ghost predicate FromRoots(g: Graph, roots: set<nat>, v: nat) {
    exists r :: r in roots && Reach(g, r, v)
  }

  /** A search in progress: V is visited, W waits; only members of ok are edges' targets or roots. */
  ghost predicate Searching(g: Graph, roots: set<nat>, ok: set<nat>, V: set<nat>, W: multiset<nat>) {
    forall k {:trigger Unfold(WorkSeal, k)} :: Unfold(WorkSeal, k) ==>
      && Closed(g) && ok <= g.Keys && roots <= ok && V <= ok
      && (forall v, w :: v in g && w in g[v] ==> w in ok)
      && (forall r :: r in roots ==> r in V || r in W)
      && (forall v, w :: v in V && w in g[v] ==> w in V || w in W)
      && (forall v :: v in V ==> FromRoots(g, roots, v))
      && (forall v :: v in W && v in ok ==> FromRoots(g, roots, v))
  }

  lemma SearchStart(g: Graph, roots: set<nat>, ok: set<nat>, W: multiset<nat>)
    requires Closed(g) && ok <= g.Keys && roots <= ok && forall v, w :: v in g && w in g[v] ==> w in ok
    requires forall v :: v in ok ==> (v in W <==> v in roots)
    ensures Searching(g, roots, ok, {}, W)
  {
    forall v | v in roots ensures FromRoots(g, roots, v) {
      ReachSelf(g, v);
    }
  }

  /** x is taken from the worklist and not visited: it is no node of the search, or was visited before. */
  lemma SearchDrop(g: Graph, roots: set<nat>, ok: set<nat>, V: set<nat>, W: multiset<nat>, x: nat, W': multiset<nat>)
    requires Searching(g, roots, ok, V, W) && W == W' + multiset{x} && (x !in ok || x in V)
    ensures Searching(g, roots, ok, V, W')
  {
    assert Unfold(WorkSeal, 0);
    assert forall v :: v in W <==> v in W' || v == x;
  }

  /** x is visited; more holds at least those predecessors of x that are not waiting or visited yet. */
  lemma SearchVisit(g: Graph, roots: set<nat>, ok: set<nat>, V: set<nat>, W: multiset<nat>, x: nat,
                    W': multiset<nat>, more: multiset<nat>)
    requires Searching(g, roots, ok, V, W) && W == W' + multiset{x} && x in ok && x in g
    requires g[x] <= roots || forall w :: w in g[x] ==> w in more
    requires forall w :: w in more && w in ok ==> w in g[x]
    ensures Searching(g, roots, ok, V + {x}, W' + more)
  {
    assert Unfold(WorkSeal, 0);
    assert forall v :: v in W <==> v in W' || v == x;
    assert forall v :: v in W' + more <==> v in W' || v in more;
    var r :| r in roots && Reach(g, r, x);
    forall w | w in g[x] ensures FromRoots(g, roots, w) {
      ReachEdge(g, x, w);
      ReachTrans(g, r, x, w);
    }
  }

  /** With nothing left, exactly what the roots reach has been visited. */
  lemma SearchDone(g: Graph, roots: set<nat>, ok: set<nat>, V: set<nat>)
    requires Searching(g, roots, ok, V, multiset{})
    ensures forall v :: v in V <==> FromRoots(g, roots, v)
  {
    assert Unfold(WorkSeal, 0);
    forall v | FromRoots(g, roots, v) ensures v in V {
      var r :| r in roots && Reach(g, r, v);
      ReachStaysInside(g, V, r, v);
    }
  }

  lemma SearchBounded(g: Graph, roots: set<nat>, ok: set<nat>, V: set<nat>, W: multiset<nat>)
    requires Searching(g, roots, ok, V, W)
    ensures V <= ok
  {
    assert Unfold(WorkSeal, 0);
  }
}
