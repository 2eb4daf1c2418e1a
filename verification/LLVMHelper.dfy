/** All instructions that may run before a given one, inside its function. */
module LLVMHelpers {
  import opened Basics
  import opened Graphs
  import opened Seals
  import opened Worklists

  /** An instruction: its block, and its place in the block. */
  datatype Inst = Inst(bb: nat, idx: nat)

  /** A function body: the length of every block, and its predecessor blocks as the iterator lists them. */
  datatype Body = Body(lens: seq<nat>, preds: seq<seq<nat>>) {
    predicate Valid() {
      |lens| == |preds| && forall b :: 0 <= b < |preds| ==> forall k :: 0 <= k < |preds[b]| ==> preds[b][k] < |preds|
    }

    predicate Has(i: Inst) {
      i.bb < |lens| && i.idx < lens[i.bb]
    }
  }

  /** The blocks a search may enter: all of them, or the ones a profile has seen. */
  datatype DynInfo = NoInfo | Used(blocks: set<nat>)

  predicate IsUsed(info: DynInfo, b: nat) {
    info.NoInfo? || b in info.blocks
  }

  function UsedBlocks(f: Body, info: DynInfo): (s: set<nat>)
    ensures forall b: nat {:trigger b in s} :: b in s <==> b < |f.lens| && IsUsed(info, b)
  {
    set b | b in UpTo(|f.lens|) && IsUsed(info, b)
  }

  /** From each block to the used blocks among its predecessors. */
  function UsedPreds(f: Body, info: DynInfo): (g: Graph)
    requires f.Valid()
    ensures Closed(g) && g.Keys == UpTo(|f.lens|)
    ensures forall b, p :: b in g ==> (p in g[b] <==> p in f.preds[b] && IsUsed(info, p))
  {
    map b | b in UpTo(|f.lens|) :: set p | p in f.preds[b] && IsUsed(info, p)
  }

  /** b can run before the start block is entered: it leads to it along used blocks. */
  ghost predicate LeadsTo(f: Body, info: DynInfo, b: nat, start: nat)
    requires f.Valid() && start < |f.lens|
  {
    FromRoots(UsedPreds(f, info), UsedPreds(f, info)[start], b)
  }

  /** The instructions of a block from place lo up to place hi. */
  method Range(bb: nat, lo: nat, hi: nat, wanted: Inst -> bool, ret0: seq<Inst>) returns (ret: seq<Inst>)
    requires lo <= hi
    ensures Listed(ret0, bb, lo, hi, wanted, ret)
  {
    ret := ret0;
    for k := lo to hi
      invariant forall i :: i in ret <==> i in ret0 || (i.bb == bb && lo <= i.idx < k && wanted(i))
      invariant Distinct(ret0) && (forall j {:trigger Inst(bb, j)} :: lo <= j < hi ==> Inst(bb, j) !in ret0) ==>
          Distinct(ret)
    {
      if wanted(Inst(bb, k)) {
        ret := ret + [Inst(bb, k)];
      }
    }
  }

  /** ret is ret0 and the wanted ones among the instructions lo to hi of a block, which are new. */
  ghost predicate Listed(ret0: seq<Inst>, bb: nat, lo: nat, hi: nat, wanted: Inst -> bool, ret: seq<Inst>) {
    && (forall i :: i in ret <==> i in ret0 || (i.bb == bb && lo <= i.idx < hi && wanted(i)))
    && (Distinct(ret0) && (forall j {:trigger Inst(bb, j)} :: lo <= j < hi ==> Inst(bb, j) !in ret0) ==> Distinct(ret))
  }

  // ---- The search over blocks ----

  ghost predicate BlockSearch(f: Body, info: DynInfo, start: nat, V: set<nat>, W: multiset<nat>)
    requires f.Valid() && start < |f.lens|
  {
    var g := UsedPreds(f, info);
    Searching(g, g[start], UsedBlocks(f, info), V, W) && forall b :: b in W ==> b < |f.lens|
  }

  lemma BlockStart(f: Body, info: DynInfo, start: nat)
    requires f.Valid() && start < |f.lens|
    ensures BlockSearch(f, info, start, {}, multiset(f.preds[start]))
  {
    var g := UsedPreds(f, info);
    SearchStart(g, g[start], UsedBlocks(f, info), multiset(f.preds[start]));
  }

  lemma BlockDrop(f: Body, info: DynInfo, start: nat, V: set<nat>, W: multiset<nat>, bb: nat, W': multiset<nat>)
    requires f.Valid() && start < |f.lens| && BlockSearch(f, info, start, V, W) && W == W' + multiset{bb}
    requires bb < |f.lens| && (!IsUsed(info, bb) || bb in V)
    ensures BlockSearch(f, info, start, V, W')
  {
    var g := UsedPreds(f, info);
    SearchDrop(g, g[start], UsedBlocks(f, info), V, W, bb, W');
    assert forall b :: b in W' ==> b in W;
  }

  /** The predecessors of the start block have been on the worklist from the beginning, so it adds none. */
  lemma BlockVisit(f: Body, info: DynInfo, start: nat, V: set<nat>, W: multiset<nat>, bb: nat, W': multiset<nat>)
    requires f.Valid() && start < |f.lens| && BlockSearch(f, info, start, V, W) && W == W' + multiset{bb}
    requires IsUsed(info, bb) && bb < |f.lens|
    ensures BlockSearch(f, info, start, V + {bb}, if bb == start then W' else W' + multiset(f.preds[bb]))
  {
    var g := UsedPreds(f, info);
    var more := if bb == start then multiset{} else multiset(f.preds[bb]);
    SearchVisit(g, g[start], UsedBlocks(f, info), V, W, bb, W', more);
    assert bb == start ==> W' + more == W';
    assert forall b :: b in W' ==> b in W;
    assert forall b :: b in W' + more ==> b in W' || b in more;
  }

  lemma BlockDone(f: Body, info: DynInfo, start: nat, V: set<nat>)
    requires f.Valid() && start < |f.lens| && BlockSearch(f, info, start, V, multiset{})
    ensures forall b :: b in V <==> LeadsTo(f, info, b, start)
  {
    var g := UsedPreds(f, info);
    SearchDone(g, g[start], UsedBlocks(f, info), V);
  }

  lemma BlocksInside(f: Body, info: DynInfo, start: nat, V: set<nat>, W: multiset<nat>)
    requires f.Valid() && start < |f.lens| && BlockSearch(f, info, start, V, W)
    ensures V <= UpTo(|f.lens|) && forall b :: b in W ==> b < |f.lens|
  {
    var g := UsedPreds(f, info);
    SearchBounded(g, g[start], UsedBlocks(f, info), V, W);
  }

  /** The instructions found so far: the start of the start block, and what belongs to each visited block. */
  ghost predicate Found(f: Body, start: Inst, wanted: Inst -> bool, V: set<nat>, ret: seq<Inst>) {
    forall k {:trigger Unfold(FoundSeal, k)} :: Unfold(FoundSeal, k) ==>
      && Distinct(ret)
      && forall i :: i in ret <==> f.Has(i) && wanted(i) && ((i.bb == start.bb && i.idx <= start.idx) || i.bb in V)
  }

  lemma FoundStart(f: Body, start: Inst, wanted: Inst -> bool, ret: seq<Inst>)
    requires f.Has(start) && Listed([], start.bb, 0, start.idx + 1, wanted, ret)
    ensures Found(f, start, wanted, {}, ret)
  {
  }

  lemma FoundBlock(f: Body, start: Inst, wanted: Inst -> bool, V: set<nat>, ret: seq<Inst>, bb: nat, lo: nat,
                   ret': seq<Inst>)
    requires f.Has(start) && bb < |f.lens| && bb !in V && Found(f, start, wanted, V, ret)
    requires lo == if bb == start.bb then start.idx + 1 else 0
    requires Listed(ret, bb, lo, f.lens[bb], wanted, ret')
    ensures Found(f, start, wanted, V + {bb}, ret')
  {
    assert Unfold(FoundSeal, 0);
  }

  /** The wanted ones among the start, what comes before it in its block, and all blocks that lead to it. */
  method FindAllPreds(f: Body, start: Inst, info: DynInfo, wanted: Inst -> bool) returns (ret: seq<Inst>)
    requires f.Valid() && f.Has(start)
    ensures Distinct(ret)
    ensures forall i :: i in ret <==>
              && wanted(i) && i.bb < |f.lens| && i.idx < f.lens[i.bb]
              && ((i.bb == start.bb && i.idx <= start.idx) || LeadsTo(f, info, i.bb, start.bb))
  {
    ghost var visitedGhost: set<nat>;
    ret, visitedGhost := Search(f, start, info, wanted);
    BlockDone(f, info, start.bb, visitedGhost);
    assert Unfold(FoundSeal, 0);
  }

  method Search(f: Body, start: Inst, info: DynInfo, wanted: Inst -> bool) returns (ret: seq<Inst>, ghost V: set<nat>)
    requires f.Valid() && f.Has(start)
    ensures BlockSearch(f, info, start.bb, V, multiset{}) && Found(f, start, wanted, V, ret)
  {
    hide BlockSearch, Found, Listed, Distinct, Reach, UsedPreds, UsedBlocks, LeadsTo;
    var visited: set<nat> := {};
    var worklist := new Worklist<nat>(f.preds[start.bb]);
    ret := Range(start.bb, 0, start.idx + 1, wanted, []);
    BlockStart(f, info, start.bb);
    assert worklist.Items() == multiset(f.preds[start.bb]);
    FoundStart(f, start, wanted, ret);
    while !worklist.Empty()
      invariant fresh(worklist)
      invariant BlockSearch(f, info, start.bb, visited, worklist.Items())
      invariant Found(f, start, wanted, visited, ret)
      decreases UpTo(|f.lens|) - visited, |worklist.Items()|
    {
      ghost var before := worklist.Items();
      var bb: nat := worklist.Pop();
      ghost var after := worklist.Items();
      assert bb in before && bb < |f.lens| && visited <= UpTo(|f.lens|) by {
        BlocksInside(f, info, start.bb, visited, before);
      }
      if !IsUsed(info, bb) || bb in visited {
        BlockDrop(f, info, start.bb, visited, before, bb, after);
        assert BlockSearch(f, info, start.bb, visited, worklist.Items());
        continue;
      }
      BlockVisit(f, info, start.bb, visited, before, bb, after);
      ghost var found, V0 := ret, visited;
      visited := visited + {bb};
      if bb == start.bb {
        ret := Range(bb, start.idx + 1, f.lens[bb], wanted, ret);
        FoundBlock(f, start, wanted, V0, found, bb, start.idx + 1, ret);
        assert BlockSearch(f, info, start.bb, visited, worklist.Items());
      } else {
        ret := Range(bb, 0, f.lens[bb], wanted, ret);
        FoundBlock(f, start, wanted, V0, found, bb, 0, ret);
        worklist.Push(f.preds[bb]);
        assert worklist.Items() == after + multiset(f.preds[bb]);
        assert BlockSearch(f, info, start.bb, visited, worklist.Items());
      }
    }
    V := visited;
    assert worklist.Items() == multiset{};
  }

  // ---- Walks ----

  /** At least one step against the edges, from start to b. */
  ghost predicate StepsBack(f: Body, w: seq<nat>, start: nat, b: nat)
    requires f.Valid()
  {
    && |w| > 1 && w[0] == start && w[|w| - 1] == b && (forall k :: 0 <= k < |w| ==> w[k] < |f.preds|)
    && forall k :: 0 < k < |w| ==> w[k] in f.preds[w[k - 1]]
  }

  /** The same, each block but the first being used. */
  ghost predicate WalkTo(f: Body, info: DynInfo, w: seq<nat>, start: nat, b: nat)
    requires f.Valid()
  {
    StepsBack(f, w, start, b) && forall k :: 0 < k < |w| ==> IsUsed(info, w[k])
  }

  /** The blocks that lead to start are the ends of walks from it. */
  lemma LeadsToWalk(f: Body, info: DynInfo, b: nat, start: nat)
    requires f.Valid() && start < |f.lens|
    ensures LeadsTo(f, info, b, start) <==> exists w :: WalkTo(f, info, w, start, b)
  {
    hide LeadsTo, WalkTo;
    if LeadsTo(f, info, b, start) {
      var w := LeadsHasWalk(f, info, b, start);
    }
    if w :| WalkTo(f, info, w, start, b) {
      WalkLeads(f, info, w, start, b);
    }
  }

  lemma LeadsHasWalk(f: Body, info: DynInfo, b: nat, start: nat) returns (w: seq<nat>)
    requires f.Valid() && start < |f.lens| && LeadsTo(f, info, b, start)
    ensures WalkTo(f, info, w, start, b)
  {
    var g := UsedPreds(f, info);
    var p :| p in g[start] && Reach(g, p, b);
    var v := ReachHasWalk(g, p, b);
    w := [start] + v;
    forall k | 0 < k < |w| ensures w[k] < |f.preds| && w[k] in f.preds[w[k - 1]] && IsUsed(info, w[k]) {
      assert w[k - 1] == (if k == 1 then start else v[k - 2]) && w[k] == v[k - 1];
      assert w[k - 1] in g && w[k] in g && w[k] in g[w[k - 1]];
    }
  }

  lemma WalkLeads(f: Body, info: DynInfo, w: seq<nat>, start: nat, b: nat)
    requires f.Valid() && start < |f.lens| && WalkTo(f, info, w, start, b)
    ensures LeadsTo(f, info, b, start)
  {
    var g := UsedPreds(f, info);
    forall k | 0 < k < |w| ensures w[k] in g[w[k - 1]] { assert w[k] < |f.preds| && w[k - 1] < |f.preds|; }
    var v := w[1..];
    assert forall k :: 0 < k < |v| ==> v[k] == w[k + 1] && v[k - 1] == w[k];
    WalkReaches(g, v);
    assert w[1] in g[start];
  }

  /** Without a profile every block may be entered. */
  lemma LeadsFreely(f: Body, b: nat, start: nat)
    requires f.Valid() && start < |f.lens|
    ensures LeadsTo(f, NoInfo, b, start) <==> exists w :: StepsBack(f, w, start, b)
  {
    LeadsToWalk(f, NoInfo, b, start);
    forall w ensures WalkTo(f, NoInfo, w, start, b) <==> StepsBack(f, w, start, b) {
    }
  }

  /** With one, only the blocks it has seen. */
  lemma LeadsAlongUsed(f: Body, bs: set<nat>, b: nat, start: nat)
    requires f.Valid() && start < |f.lens|
    ensures LeadsTo(f, Used(bs), b, start)
            <==> exists w :: StepsBack(f, w, start, b) && forall k :: 0 < k < |w| ==> w[k] in bs
  {
    LeadsToWalk(f, Used(bs), b, start);
    forall w
      ensures WalkTo(f, Used(bs), w, start, b) <==> StepsBack(f, w, start, b) && forall k :: 0 < k < |w| ==> w[k] in bs
    {
    }
  }

  /** The rest of the start block is returned exactly when a walk along used blocks leads from that block back to it. */
  lemma TailNeedsCycle(f: Body, info: DynInfo, wanted: Inst -> bool, start: Inst, ret: seq<Inst>, i: Inst)
    requires f.Valid() && f.Has(start) && f.Has(i) && i.bb == start.bb && i.idx > start.idx && wanted(i)
    requires forall j :: j in ret <==>
               && wanted(j) && j.bb < |f.lens| && j.idx < f.lens[j.bb]
               && ((j.bb == start.bb && j.idx <= start.idx) || LeadsTo(f, info, j.bb, start.bb))
    ensures i in ret <==> exists w :: WalkTo(f, info, w, start.bb, start.bb)
  {
    LeadsToWalk(f, info, start.bb, start.bb);
  }
}
