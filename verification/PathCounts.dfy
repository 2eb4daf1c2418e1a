/** How often the enumeration lists each call path: as often as its first site's turn says. */
module PathCounts {
  import opened Basics
  import opened Graphs
  import opened Seals
  import opened CallPaths

  // ---- Turns ----

  /** s's place in order, counted from 1; 0 if it has none. */
  function Turn(order: seq<nat>, s: nat): nat {
    if order == [] then 0
    else if order[|order| - 1] == s then |order|
    else Turn(order[..|order| - 1], s)
  }

  lemma {:induction false} TurnMeans(order: seq<nat>, s: nat)
    ensures Turn(order, s) <= |order|
    ensures if s in order then Turn(order, s) > 0 && order[Turn(order, s) - 1] == s else Turn(order, s) == 0
  {
    if order != [] && order[|order| - 1] != s { TurnMeans(order[..|order| - 1], s); }
  }

  /** A turn, once taken, stays. */
  lemma TurnStays(order: seq<nat>, order': seq<nat>, s: nat)
    requires order <= order' && Distinct(order') && s in order
    ensures Turn(order', s) == Turn(order, s)
  {
    TurnMeans(order, s);
    TurnMeans(order', s);
  }

  // ---- The sites that are entered from main ----

  /** The sites with main among their predecessors, of those a path to n can pass. */
  ghost function EntrySites(g: Graph, main: nat, n: nat): set<nat> {
    set s | s in Below(g, n) && s != main && main in g[s]
  }

  lemma PathEntry(g: Graph, main: nat, p: seq<nat>, n: nat)
    requires PathTo(g, main, p, n) && |p| > 1
    ensures p[1] in EntrySites(g, main, n)
  {
    PathFrames(g, main, p, 1);
    assert p[..2][..1] == p[..1] && Last(p[..2]) == p[1];
    PathReach(g, main, p, 1, |p| - 1);
  }

  lemma {:induction false} EntryPath(g: Graph, main: nat, s: nat, n: nat, k: nat) returns (p: seq<nat>)
    requires Closed(g) && main in g && s in g && s != main && main in g[s] && ReachIn(g, n, s, k)
    ensures PathTo(g, main, p, n) && |p| > 1 && p[1] == s
    decreases k
  {
    if k == 0 {
      assert CallPath(g, main, [main]);
      ExtendPath(g, main, [main], s);
      p := [main] + [s];
    } else {
      var z :| z in g[n] && ReachIn(g, z, s, k - 1);
      p := EntryPath(g, main, s, z, k - 1);
      if z != n {
        ExtendPath(g, main, p, n);
        p := p + [n];
      }
    }
  }

  /** Every one of them is the first site of some path. */
  lemma EntryHasPath(g: Graph, main: nat, s: nat, n: nat) returns (p: seq<nat>)
    requires Closed(g) && main in g && s in EntrySites(g, main, n)
    ensures PathTo(g, main, p, n) && |p| > 1 && p[1] == s
  {
    var k: nat :| ReachIn(g, n, s, k);
    p := EntryPath(g, main, s, n, k);
  }

  lemma NoEntryAtMain(g: Graph, main: nat)
    requires Closed(g) && Acyclic(g)
    ensures EntrySites(g, main, main) == {}
  {
    forall s | s in Below(g, main) && s != main ensures main !in g[s] {
      if main in g[s] {
        ReachEdge(g, s, main);
        assert Mutual(g, s, main);
      }
    }
  }

  lemma EntryBelow(g: Graph, main: nat, v: nat, w: nat)
    requires Closed(g) && v in g && w in g[v]
    ensures EntrySites(g, main, w) <= EntrySites(g, main, v)
  {
    forall s | s in EntrySites(g, main, w) ensures s in Below(g, v) { ReachStep(g, v, w, s); }
  }

  /** Those of v are v itself, if it qualifies, and those of its predecessors. */
  lemma EntryCover(g: Graph, main: nat, v: nat, s: nat)
    requires Closed(g) && v in g && s in EntrySites(g, main, v) && s != v
    ensures exists w :: w in g[v] && w != v && s in EntrySites(g, main, w)
  {
    var k: nat :| ReachIn(g, v, s, k);
    EntryStep(g, main, v, s, k);
  }

  lemma {:induction false} EntryStep(g: Graph, main: nat, v: nat, s: nat, k: nat)
    requires ReachIn(g, v, s, k) && s != v && s in g && s != main && main in g[s]
    ensures exists w :: w in g[v] && w != v && s in EntrySites(g, main, w)
    decreases k
  {
    var z :| z in g[v] && ReachIn(g, z, s, k - 1);
    if z == v {
      EntryStep(g, main, v, s, k - 1);
    } else {
      assert Reach(g, z, s);
      assert s in EntrySites(g, main, z);
    }
  }

  // ---- Counting paths ----

  /** How often a path is listed when order says whose turn it was to arrive at main. */
  function Copies(order: seq<nat>, p: seq<nat>): nat {
    if |p| < 2 then 1 else Turn(order, p[1])
  }

  /** paths lists each call path to n that often, and nothing else. */
  ghost predicate Counts(g: Graph, main: nat, order: seq<nat>, paths: Paths, n: nat) {
    forall p :: multiset(paths)[p] == if PathTo(g, main, p, n) then Copies(order, p) else 0
  }

  lemma {:induction false} ExtendedCount(vecs: Paths, n: nat, p: seq<nat>)
    ensures multiset(Extended(vecs, n))[p]
            == if p != [] && Last(p) == n then multiset(vecs)[p[..|p| - 1]] else 0
  {
    if vecs != [] {
      var k := |vecs| - 1;
      ExtendedCount(vecs[..k], n, p);
      assert vecs == vecs[..k] + [vecs[k]];
      assert Extended(vecs, n) == Extended(vecs[..k], n) + [vecs[k] + [n]];
      assert vecs[k] + [n] == p <==> p != [] && Last(p) == n && vecs[k] == p[..|p| - 1] by {
        if p != [] { assert p == p[..|p| - 1] + [Last(p)]; }
      }
    }
  }

  ghost predicate AtMostOne(S: set<nat>) {
    forall s, t :: s in S && t in S ==> s == t
  }

  /** No path is listed twice exactly when at most one site that a path to n can pass is entered from main. */
  lemma DistinctMeans(g: Graph, main: nat, order: seq<nat>, paths: Paths, n: nat)
    requires Closed(g) && Acyclic(g) && main in g && n in g
    requires Distinct(order) && (forall s :: s in order <==> s in EntrySites(g, main, n))
    requires Counts(g, main, order, paths, n)
    ensures Distinct(paths) <==> AtMostOne(EntrySites(g, main, n))
  {
    DistinctCount(paths);
    if AtMostOne(EntrySites(g, main, n)) {
      forall p ensures multiset(paths)[p] <= 1 {
        if |p| > 1 {
          TurnMeans(order, p[1]);
          if p[1] in order { assert order[0] in order; }
        }
      }
    } else {
      var s, t :| s in EntrySites(g, main, n) && t in EntrySites(g, main, n) && s != t;
      assert s in order && t in order;
      TurnMeans(order, s);
      TurnMeans(order, t);
      var u := if Turn(order, s) > 1 then s else t;
      var p := EntryHasPath(g, main, u, n);
      assert multiset(paths)[p] == Turn(order, u) > 1;
    }
  }

  // ---- The table ----

  ghost predicate Arrived(g: Graph, main: nat, order: seq<nat>, n: nat) {
    forall s :: s in EntrySites(g, main, n) ==> s in order
  }

  /** Every entry but main's lists each call path to its node as often as its turn says; order has the
      sites that have arrived at main. */
  ghost predicate Tallied(g: Graph, main: nat, t: map<nat, Paths>, order: seq<nat>) {
    forall k {:trigger Unfold(CountSeal, k)} :: Unfold(CountSeal, k) ==>
      && Closed(g) && Acyclic(g) && main in g && t.Keys <= g.Keys && Distinct(order)
      && forall n :: n in t && n != main ==> Counts(g, main, order, t[n], n) && Arrived(g, main, order, n)
  }

  /** main's entry repeats its one path k times. */
  ghost predicate MainCopies(main: nat, t: map<nat, Paths>, k: nat) {
    (main in t <==> k > 0) && (main in t ==> |t[main]| == k && forall i :: 0 <= i < k ==> t[main][i] == [main])
  }

  /** No site below node is still waiting for its entry. */
  ghost predicate Settled(g: Graph, t: map<nat, Paths>, order: seq<nat>, node: nat) {
    forall s :: s in order && s in Below(g, node) ==> s in t
  }

  /** Of the sites below node, those in open aside, the ones that have arrived have their entries. */
  ghost predicate OrderGrows(g: Graph, main: nat, t: map<nat, Paths>, before: seq<nat>, order: seq<nat>, node: nat,
                             open: set<nat>) {
    before <= order
    && forall s :: s in order ==> s in before || (s in EntrySites(g, main, node) && (s in t || s in open))
  }

  lemma CountsStay(g: Graph, main: nat, order: seq<nat>, order': seq<nat>, paths: Paths, n: nat)
    requires Counts(g, main, order, paths, n) && Arrived(g, main, order, n) && order <= order' && Distinct(order')
    ensures Counts(g, main, order', paths, n) && Arrived(g, main, order', n)
  {
    forall p ensures multiset(paths)[p] == if PathTo(g, main, p, n) then Copies(order', p) else 0 {
      if PathTo(g, main, p, n) && |p| > 1 {
        PathEntry(g, main, p, n);
        TurnStays(order, order', p[1]);
      }
    }
  }

  /** Another site arrives at main. */
  lemma TalliedArrive(g: Graph, main: nat, t: map<nat, Paths>, order: seq<nat>, v: nat)
    requires Tallied(g, main, t, order) && v !in order
    ensures Tallied(g, main, t, order + [v])
  {
    assert Unfold(CountSeal, 0);
    forall n | n in t && n != main
      ensures Counts(g, main, order + [v], t[n], n) && Arrived(g, main, order + [v], n)
    {
      CountsStay(g, main, order, order + [v], t[n], n);
    }
  }

  lemma TalliedMain(g: Graph, main: nat, t: map<nat, Paths>, order: seq<nat>, k: nat)
    requires Tallied(g, main, t, order) && MainCopies(main, t, k)
    ensures var t' := t[main := (if main in t then t[main] else []) + [[main]]];
            Tallied(g, main, t', order) && MainCopies(main, t', k + 1)
  {
    assert Unfold(CountSeal, 0);
  }

  // ---- One predecessor after the other ----

  /** rets lists each call path to n through L as often as its turn says. */
  ghost predicate CountsVia(g: Graph, main: nat, order: seq<nat>, rets: Paths, n: nat, L: seq<nat>) {
    forall p ::
      if PathVia(g, main, p, n, L) then p[1] in order && multiset(rets)[p] == Turn(order, p[1])
      else multiset(rets)[p] == 0
  }

  lemma ViaStays(g: Graph, main: nat, order: seq<nat>, order': seq<nat>, rets: Paths, n: nat, L: seq<nat>)
    requires CountsVia(g, main, order, rets, n, L) && order <= order' && Distinct(order')
    ensures CountsVia(g, main, order', rets, n, L)
  {
    forall p ensures if PathVia(g, main, p, n, L) then p[1] in order' && multiset(rets)[p] == Turn(order', p[1])
                     else multiset(rets)[p] == 0
    {
      if PathVia(g, main, p, n, L) { TurnStays(order, order', p[1]); }
    }
  }

  lemma ViaSelf(g: Graph, main: nat, order: seq<nat>, rets: Paths, n: nat, L: seq<nat>)
    requires CountsVia(g, main, order, rets, n, L)
    ensures CountsVia(g, main, order, rets, n, L + [n])
  {
    forall p ensures PathVia(g, main, p, n, L + [n]) <==> PathVia(g, main, p, n, L) {
    }
  }

  lemma ViaOne(g: Graph, main: nat, p: seq<nat>, n: nat, q: nat)
    requires n in g && q in g[n] && q != n
    ensures PathVia(g, main, p, n, [q]) <==> p != [] && Last(p) == n && PathTo(g, main, p[..|p| - 1], q)
  {
  }

  /** Going through q adds the paths of its entry, extended by n. */
  lemma ViaMore(g: Graph, main: nat, order: seq<nat>, rets: Paths, n: nat, L: seq<nat>, q: nat, paths: Paths)
    requires CountsVia(g, main, order, rets, n, L) && n in g && q in g[n] && q != n && q !in L
    requires CountsVia(g, main, order, Extended(paths, n), n, [q])
    ensures CountsVia(g, main, order, rets + Extended(paths, n), n, L + [q])
  {
    forall p ensures PathVia(g, main, p, n, L + [q]) <==> PathVia(g, main, p, n, L) || PathVia(g, main, p, n, [q]) {
    }
    forall p ensures !(PathVia(g, main, p, n, L) && PathVia(g, main, p, n, [q])) {
    }
    forall p ensures multiset(rets + Extended(paths, n))[p] == multiset(rets)[p] + multiset(Extended(paths, n))[p] {
    }
  }

  lemma ViaEntry(g: Graph, main: nat, order: seq<nat>, paths: Paths, n: nat, q: nat)
    requires n in g && q in g[n] && q != n && q != main
    requires Counts(g, main, order, paths, q) && Arrived(g, main, order, q)
    ensures CountsVia(g, main, order, Extended(paths, n), n, [q])
  {
    forall p ensures if PathVia(g, main, p, n, [q])
                     then p[1] in order && multiset(Extended(paths, n))[p] == Turn(order, p[1])
                     else multiset(Extended(paths, n))[p] == 0
    {
      ExtendedCount(paths, n, p);
      ViaOne(g, main, p, n, q);
      if PathVia(g, main, p, n, [q]) {
        var r := p[..|p| - 1];
        assert |r| > 1;
        PathEntry(g, main, r, q);
        assert r[1] == p[1];
      }
    }
  }

  /** n has arrived at main, whose entry then has as many copies as n's turn says. */
  lemma ViaMain(g: Graph, main: nat, order: seq<nat>, copies: Paths, n: nat)
    requires Closed(g) && Acyclic(g) && main in g && n in g && main in g[n] && main != n && n !in order
    requires |copies| == |order| + 1 && forall i :: 0 <= i < |copies| ==> copies[i] == [main]
    ensures CountsVia(g, main, order + [n], Extended(copies, n), n, [main])
  {
    forall p ensures if PathVia(g, main, p, n, [main])
                     then p[1] in order + [n] && multiset(Extended(copies, n))[p] == Turn(order + [n], p[1])
                     else multiset(Extended(copies, n))[p] == 0
    {
      ExtendedCount(copies, n, p);
      ViaOne(g, main, p, n, main);
      if p != [] && Last(p) == n {
        var r := p[..|p| - 1];
        SameCount(copies, [main], r);
        PathsToMain(g, main, r);
        if r == [main] { assert p == [main, n]; }
      }
    }
  }

  lemma {:induction false} SameCount<T>(s: seq<T>, x: T, y: T)
    requires forall i :: 0 <= i < |s| ==> s[i] == x
    ensures multiset(s)[y] == if x == y then |s| else 0
  {
    if s != [] {
      SameCount(s[..|s| - 1], x, y);
      assert s == s[..|s| - 1] + [x];
    }
  }

  /** All predecessors have been handled. */
  lemma TalliedEntry(g: Graph, main: nat, t: map<nat, Paths>, order: seq<nat>, n: nat, rets: Paths, L: seq<nat>)
    requires Tallied(g, main, t, order) && n in g && n != main && CountsVia(g, main, order, rets, n, L)
    requires (forall w :: w in g[n] ==> w in L) && Arrived(g, main, order, n)
    ensures Tallied(g, main, t[n := rets], order)
  {
    assert Unfold(CountSeal, 0);
    assert Counts(g, main, order, rets, n) by {
      forall p ensures PathTo(g, main, p, n) <==> PathVia(g, main, p, n, L) {
      }
    }
  }

  /** The predecessor q has been handled: q is node itself, or has its entry, or is main, and node has arrived. */
  ghost predicate Handled(main: nat, t: map<nat, Paths>, order: seq<nat>, node: nat, q: nat) {
    q == node || (if q == main then node in order else q in t)
  }

  lemma AllHandled(g: Graph, main: nat, t: map<nat, Paths>, order: seq<nat>, n: nat, L: seq<nat>)
    requires Tallied(g, main, t, order) && n in g && (forall w :: w in g[n] ==> w in L)
    requires forall k :: 0 <= k < |L| ==> Handled(main, t, order, n, L[k])
    ensures Arrived(g, main, order, n)
  {
    assert Unfold(CountSeal, 0);
    NoEntryAtMain(g, main);
    forall s | s in EntrySites(g, main, n) ensures s in order {
      if s == n {
        assert main in L;
      } else {
        EntryCover(g, main, n, s);
        var w :| w in g[n] && w != n && s in EntrySites(g, main, w);
        assert w in L;
      }
    }
  }

  // ---- Which sites have arrived ----

  /** A predecessor q of node may be visited: nothing below it is waiting. */
  lemma SettledDown(g: Graph, main: nat, t0: map<nat, Paths>, before: seq<nat>, t: map<nat, Paths>, order: seq<nat>,
                    node: nat, q: nat)
    requires Closed(g) && node in g && q in g[node] && node !in Below(g, q)
    requires Settled(g, t0, before, node) && t0.Keys <= t.Keys && OrderGrows(g, main, t, before, order, node, {node})
    ensures Settled(g, t, order, q)
  {
    forall s | s in order && s in Below(g, q) ensures s in t { ReachStep(g, node, q, s); }
  }

  lemma OrderGrowsOn(g: Graph, main: nat, before: seq<nat>, t: map<nat, Paths>, order: seq<nat>,
                     t': map<nat, Paths>, order': seq<nat>, node: nat, q: nat)
    requires Closed(g) && node in g && q in g[node] && t.Keys <= t'.Keys
    requires OrderGrows(g, main, t, before, order, node, {node}) && OrderGrows(g, main, t', order, order', q, {})
    ensures OrderGrows(g, main, t', before, order', node, {node})
  {
    EntryBelow(g, main, node, q);
  }

  lemma OrderArrives(g: Graph, main: nat, before: seq<nat>, t: map<nat, Paths>, order: seq<nat>, node: nat)
    requires node in g && main in g[node] && node != main
    requires OrderGrows(g, main, t, before, order, node, {node})
    ensures OrderGrows(g, main, t, before, order + [node], node, {node})
  {
    ReachSelf(g, node);
  }

  /** Visiting main itself lets nobody arrive. */
  lemma OrderAtMain(g: Graph, main: nat, t: map<nat, Paths>, before: seq<nat>, order: seq<nat>)
    requires Closed(g) && Acyclic(g) && OrderGrows(g, main, t, before, order, main, {})
    ensures forall s :: s in order ==> s in before
  {
    NoEntryAtMain(g, main);
  }

  /** While node handles its predecessors, those in L so far.  t0 and before are the table and the order of
      arrivals when it started. */
  ghost predicate Collecting(g: Graph, main: nat, t0: map<nat, Paths>, before: seq<nat>,
                             t: map<nat, Paths>, order: seq<nat>, node: nat, rets: Paths, L: seq<nat>) {
    && Tallied(g, main, t, order) && MainCopies(main, t, |order|) && node !in t
    && Settled(g, t0, before, node) && t0.Keys <= t.Keys
    && OrderGrows(g, main, t, before, order, node, {node})
    && CountsVia(g, main, order, rets, node, L) && (node in order ==> main in L)
    && forall k :: 0 <= k < |L| ==> Handled(main, t, order, node, L[k])
  }

  lemma CollectingStart(g: Graph, main: nat, t: map<nat, Paths>, order: seq<nat>, node: nat)
    requires Tallied(g, main, t, order) && MainCopies(main, t, |order|) && node in g && node !in t
    requires Settled(g, t, order, node)
    ensures Collecting(g, main, t, order, t, order, node, [], [])
  {
    ReachSelf(g, node);
  }

  lemma CollectingSelf(g: Graph, main: nat, t0: map<nat, Paths>, before: seq<nat>,
                       t: map<nat, Paths>, order: seq<nat>, node: nat, rets: Paths, L: seq<nat>)
    requires Collecting(g, main, t0, before, t, order, node, rets, L)
    ensures Collecting(g, main, t0, before, t, order, node, rets, L + [node])
  {
    ViaSelf(g, main, order, rets, node, L);
  }

  lemma CollectingEnd(g: Graph, main: nat, t0: map<nat, Paths>, before: seq<nat>,
                      t: map<nat, Paths>, order: seq<nat>, node: nat, rets: Paths, L: seq<nat>)
    requires Collecting(g, main, t0, before, t, order, node, rets, L)
    requires node in g && forall w :: w in g[node] ==> w in L
    ensures Tallied(g, main, t, order) && MainCopies(main, t, |order|) && node !in t
    ensures Arrived(g, main, order, node) && OrderGrows(g, main, t, before, order, node, {node})
    ensures CountsVia(g, main, order, rets, node, L)
  {
    AllHandled(g, main, t, order, node, L);
  }

  /** What handling the predecessor q of node adds, once q has been visited. */
  lemma Visited(g: Graph, main: nat, t0: map<nat, Paths>, before: seq<nat>, t: map<nat, Paths>, order: seq<nat>,
                t': map<nat, Paths>, order': seq<nat>, node: nat, q: nat, done: seq<nat>, rets: Paths)
    requires Collecting(g, main, t0, before, t, order, node, rets, done)
    requires Tallied(g, main, t', order') && node in g && node != main && q in g[node] && q != node && q !in done
    requires q in t' && t.Keys <= t'.Keys && node !in t' && node !in Below(g, q)
    requires OrderGrows(g, main, t', order, order', q, {})
    requires MainCopies(main, t', |order'| + if q == main then 1 else 0)
    ensures Collecting(g, main, t0, before, t', if q == main then order' + [node] else order', node,
                       rets + Extended(t'[q], node), done + [q])
  {
    hide CountsVia, EntrySites, Extended;
    assert Closed(g) && Acyclic(g) && main in g && Distinct(order')
           && (q != main ==> Counts(g, main, order', t'[q], q) && Arrived(g, main, order', q))
      by { assert Unfold(CountSeal, 0); }
    OrderGrowsOn(g, main, before, t, order, t', order', node, q);
    assert node !in order ==> node !in order' by { NotEntered(g, main, node, q); }
    if q == main {
      OrderArrives(g, main, before, t', order', node);
      TalliedArrive(g, main, t', order', node);
      ViaStays(g, main, order, order' + [node], rets, node, done);
      ViaMain(g, main, order', t'[q], node);
      ViaMore(g, main, order' + [node], rets, node, done, q, t'[q]);
    } else {
      ViaStays(g, main, order, order', rets, node, done);
      ViaEntry(g, main, order', t'[q], node, q);
      ViaMore(g, main, order', rets, node, done, q, t'[q]);
    }
  }

  lemma NotEntered(g: Graph, main: nat, node: nat, q: nat)
    requires node !in Below(g, q)
    ensures node !in EntrySites(g, main, q)
  {
  }

  lemma TalliedStart(g: Graph, main: nat)
    requires Closed(g) && Acyclic(g) && main in g
    ensures Tallied(g, main, map[], []) && MainCopies(main, map[], 0)
    ensures forall n :: Settled(g, map[], [], n)
  {
  }

  // ---- The answer ----

  /** paths lists each call path to n as often as the turn of its first site, in some order of the sites
      entered from main. */
  ghost predicate Listed(g: Graph, main: nat, paths: Paths, n: nat) {
    exists order :: InTurn(g, main, order, n) && Counts(g, main, order, paths, n)
  }

  ghost predicate InTurn(g: Graph, main: nat, order: seq<nat>, n: nat) {
    Distinct(order) && forall s :: s in order <==> s in EntrySites(g, main, n)
  }

  lemma CountsExact(g: Graph, main: nat, order: seq<nat>, paths: Paths, n: nat)
    requires Counts(g, main, order, paths, n) && Arrived(g, main, order, n)
    ensures Exactly(g, main, paths, n)
  {
    forall p ensures p in paths <==> PathTo(g, main, p, n) {
      assert p in paths <==> multiset(paths)[p] > 0;
      if PathTo(g, main, p, n) && |p| > 1 {
        PathEntry(g, main, p, n);
        TurnMeans(order, p[1]);
      }
    }
  }

  lemma MainExact(g: Graph, main: nat, paths: Paths)
    requires Closed(g) && Acyclic(g) && main in g && paths != [] && forall i :: 0 <= i < |paths| ==> paths[i] == [main]
    ensures Exactly(g, main, paths, main)
  {
    forall p ensures p in paths <==> PathTo(g, main, p, main) {
      PathsToMain(g, main, p);
      if p == [main] { assert paths[0] in paths; }
    }
  }

  /** Read as sets, all entries are exact. */
  lemma TalliedExact(g: Graph, main: nat, t: map<nat, Paths>, order: seq<nat>, k: nat)
    requires Tallied(g, main, t, order) && MainCopies(main, t, k)
    ensures forall n :: n in t ==> Exactly(g, main, t[n], n)
  {
    assert Unfold(CountSeal, 0);
    forall n | n in t ensures Exactly(g, main, t[n], n) {
      if n == main {
        MainExact(g, main, t[n]);
      } else {
        CountsExact(g, main, order, t[n], n);
      }
    }
  }

  lemma NoMembers<T>(s: seq<T>)
    ensures (forall x :: x !in s) ==> s == []
  {
    if s != [] { assert s[0] in s; }
  }

  /** What the table has when the enumeration that started from an empty one has ended. */
  lemma ListedAtEnd(g: Graph, main: nat, t: map<nat, Paths>, order: seq<nat>, n: nat)
    requires Tallied(g, main, t, order) && n in t && OrderGrows(g, main, t, [], order, n, {})
    requires n == main ==> MainCopies(main, t, |order| + 1)
    ensures Listed(g, main, t[n], n)
  {
    assert Unfold(CountSeal, 0);
    if n == main {
      OrderAtMain(g, main, t, [], order);
      NoMembers(order);
      NoEntryAtMain(g, main);
      assert t[main] == [[main]];
      forall p ensures multiset(t[main])[p] == if PathTo(g, main, p, main) then Copies(order, p) else 0 {
        PathsToMain(g, main, p);
      }
    }
    assert InTurn(g, main, order, n) && Counts(g, main, order, t[n], n);
  }

  /** An answer has every path, and none twice exactly when at most one site on the way is entered from main. */
  lemma ListedMeans(g: Graph, main: nat, paths: Paths, n: nat)
    requires Closed(g) && Acyclic(g) && main in g && n in g && Listed(g, main, paths, n)
    ensures Exactly(g, main, paths, n)
    ensures Distinct(paths) <==> AtMostOne(EntrySites(g, main, n))
  {
    var order :| InTurn(g, main, order, n) && Counts(g, main, order, paths, n);
    CountsExact(g, main, order, paths, n);
    DistinctMeans(g, main, order, paths, n);
  }

  // ---- The smallest graph with a repeated path ----

  /** Main 0 is followed by 1 and 2, and both are followed by 3. */
  const DIAMOND: Graph := map[0 := {}, 1 := {0}, 2 := {0}, 3 := {1, 2}]

  lemma {:induction false} DescendingReach(g: Graph, x: nat, y: nat, n: nat)
    requires (forall v, w :: v in g && w in g[v] ==> w < v) && ReachIn(g, x, y, n)
    ensures y <= x
    decreases n
  {
    if n > 0 {
      var z :| z in g[x] && ReachIn(g, z, y, n - 1);
      DescendingReach(g, z, y, n - 1);
    }
  }

  lemma DescendingAcyclic(g: Graph)
    requires forall v, w :: v in g && w in g[v] ==> w < v
    ensures Acyclic(g)
  {
    forall x, y | Mutual(g, x, y) ensures x == y {
      var n: nat :| ReachIn(g, x, y, n);
      var m: nat :| ReachIn(g, y, x, m);
      DescendingReach(g, x, y, n);
      DescendingReach(g, y, x, m);
    }
  }

  /** Of the two paths to 3 one is listed once and the other twice. */
  lemma DiamondListsTwice(paths: Paths)
    requires Listed(DIAMOND, 0, paths, 3)
    ensures Closed(DIAMOND) && Acyclic(DIAMOND)
    ensures !Distinct(paths) && {multiset(paths)[[0, 1, 3]], multiset(paths)[[0, 2, 3]]} == {1, 2}
  {
    hide EntrySites, Counts, PathTo, Turn;
    DescendingAcyclic(DIAMOND);
    DiamondSites();
    DiamondPaths();
    var order :| InTurn(DIAMOND, 0, order, 3) && Counts(DIAMOND, 0, order, paths, 3);
    CountAt(DIAMOND, 0, order, paths, 3, [0, 1, 3]);
    CountAt(DIAMOND, 0, order, paths, 3, [0, 2, 3]);
    TurnMeans(order, 1);
    TurnMeans(order, 2);
    DistinctSize(order);
    assert Frames(order) == {1, 2};
    ListedMeans(DIAMOND, 0, paths, 3);
  }

  lemma CountAt(g: Graph, main: nat, order: seq<nat>, paths: Paths, n: nat, p: seq<nat>)
    requires Counts(g, main, order, paths, n) && PathTo(g, main, p, n)
    ensures multiset(paths)[p] == Copies(order, p)
  {
  }

  lemma {:induction false} DistinctSize(s: seq<nat>)
    requires Distinct(s)
    ensures |Frames(s)| == |s|
  {
    if s == [] {
      assert Frames(s) == {};
    } else {
      var k := |s| - 1;
      DistinctSize(s[..k]);
      var a := Frames(s[..k]);
      assert s[k] !in a && Frames(s) == a + {s[k]} by { assert s == s[..k] + [s[k]]; }
    }
  }

  lemma DiamondSites()
    ensures EntrySites(DIAMOND, 0, 3) == {1, 2}
  {
    ReachEdge(DIAMOND, 3, 1);
    ReachEdge(DIAMOND, 3, 2);
  }

  lemma DiamondPaths()
    ensures PathTo(DIAMOND, 0, [0, 1, 3], 3) && PathTo(DIAMOND, 0, [0, 2, 3], 3)
  {
    assert CallPath(DIAMOND, 0, [0]);
    ExtendPath(DIAMOND, 0, [0], 1);
    ExtendPath(DIAMOND, 0, [0], 2);
    ExtendPath(DIAMOND, 0, [0] + [1], 3);
    ExtendPath(DIAMOND, 0, [0] + [2], 3);
    assert [0] + [1] + [3] == [0, 1, 3] && [0] + [2] + [3] == [0, 2, 3];
  }
}
