/** Interning of call stacks: a stack is identified by the set of its frames. */
module ContextStacks {
  import opened Basics
  import opened Graphs
  import opened CallPaths

  const NON_CONS: nat := 0

  /** parent is the memoized parent id, -1 until it is first asked for. */
  datatype StackInfo = StackInfo(stack: seq<nat>, id: nat, parent: int)

  function WithoutLast(p: seq<nat>): seq<nat> {
    if p == [] then [] else p[..|p| - 1]
  }

  /** The interned stacks and the ids given to frame sets describe each other. */
  ghost predicate CacheInv(cache: map<set<nat>, nat>, stacks: map<nat, StackInfo>, size: nat) {
    && size >= 1
    && (forall i :: i in stacks <==> 1 <= i < size)
    && (forall f :: f in cache ==> cache[f] in stacks && Frames(stacks[cache[f]].stack) == f)
    && (forall i :: i in stacks ==>
          Frames(stacks[i].stack) in cache && cache[Frames(stacks[i].stack)] == i && stacks[i].id == i)
    && (forall i :: i in stacks && stacks[i].parent != -1 ==> ParentIs(cache, stacks[i], stacks[i].parent))
  }

  /** p is the id of the stack without its last frame; the empty stack is its own parent. */
  ghost predicate ParentIs(cache: map<set<nat>, nat>, info: StackInfo, p: int) {
    if info.stack == [] then p == info.id
    else Frames(WithoutLast(info.stack)) in cache && p == cache[Frames(WithoutLast(info.stack))]
  }

  /** Every interned stack is empty or a call path. */
  ghost predicate PathStacks(g: Graph, main: nat, stacks: map<nat, StackInfo>) {
    forall i :: i in stacks ==> stacks[i].stack == [] || CallPath(g, main, stacks[i].stack)
  }

  ghost predicate Stack(g: Graph, main: nat, p: seq<nat>) {
    p == [] || CallPath(g, main, p)
  }

  /** Ids distinguish exactly the frame sets. */
  lemma SameIdSameFrames(cache: map<set<nat>, nat>, stacks: map<nat, StackInfo>, size: nat, p: seq<nat>, q: seq<nat>)
    requires CacheInv(cache, stacks, size) && Frames(p) in cache && Frames(q) in cache
    ensures cache[Frames(p)] == cache[Frames(q)] <==> Frames(p) == Frames(q)
  {
  }

  lemma StacksByFrames(g: Graph, main: nat, p: seq<nat>, q: seq<nat>)
    requires Closed(g) && Acyclic(g) && Stack(g, main, p) && Stack(g, main, q)
    ensures Frames(p) == Frames(q) <==> p == q
  {
    if Frames(p) == Frames(q) {
      if p != [] { assert p[0] in Frames(p); }
      if q != [] { assert q[0] in Frames(q); }
      if p != [] && q != [] {
        SameFramesSamePath(g, main, p, q);
      }
    }
  }

  /** On call paths of an acyclic graph two stacks get one id exactly when they are the same path. */
  lemma SameIdSamePath(cache: map<set<nat>, nat>, stacks: map<nat, StackInfo>, size: nat,
                       g: Graph, main: nat, p: seq<nat>, q: seq<nat>)
    requires CacheInv(cache, stacks, size) && Frames(p) in cache && Frames(q) in cache
    requires Closed(g) && Acyclic(g) && Stack(g, main, p) && Stack(g, main, q)
    ensures cache[Frames(p)] == cache[Frames(q)] <==> p == q
  {
    SameIdSameFrames(cache, stacks, size, p, q);
    StacksByFrames(g, main, p, q);
  }

  /** The stack an id was first given to is the path itself, for every path with that id. */
  lemma StoredStack(cache: map<set<nat>, nat>, stacks: map<nat, StackInfo>, size: nat,
                    g: Graph, main: nat, p: seq<nat>)
    requires CacheInv(cache, stacks, size) && Frames(p) in cache
    requires Closed(g) && Acyclic(g) && PathStacks(g, main, stacks) && Stack(g, main, p)
    ensures cache[Frames(p)] in stacks && stacks[cache[Frames(p)]].stack == p
  {
    StacksByFrames(g, main, p, stacks[cache[Frames(p)]].stack);
  }

  /** The frame set loses the order of frames, so other stacks may share an id. */
  lemma OrderIsLost(a: nat, b: nat)
    requires a != b
    ensures Frames([a, b]) == Frames([b, a]) && [a, b] != [b, a]
  {
    assert [a, b][0] == a && [b, a][0] == b;
    assert Frames([a, b]) == {a, b} && Frames([b, a]) == {a, b};
  }

  lemma PrefixIsStack(g: Graph, main: nat, p: seq<nat>)
    requires Stack(g, main, p)
    ensures Stack(g, main, WithoutLast(p))
  {
  }

  lemma ParentMeans(cache: map<set<nat>, nat>, info: StackInfo, p: int)
    requires ParentIs(cache, info, p)
    ensures if info.stack == [] then p == info.id
            else Frames(info.stack[..|info.stack| - 1]) in cache
                 && p == cache[Frames(info.stack[..|info.stack| - 1])]
  {
  }

  // ---- How the tables change ----

  lemma CacheId(cache: map<set<nat>, nat>, stacks: map<nat, StackInfo>, size: nat, f: set<nat>)
    requires CacheInv(cache, stacks, size) && f in cache
    ensures cache[f] != NON_CONS && cache[f] in stacks
  {
  }

  lemma CacheAdd(cache: map<set<nat>, nat>, stacks: map<nat, StackInfo>, size: nat, stack: seq<nat>)
    requires CacheInv(cache, stacks, size) && Frames(stack) !in cache
    ensures CacheInv(cache[Frames(stack) := size], stacks[size := StackInfo(stack, size, -1)], size + 1)
    ensures size !in stacks && size != NON_CONS
  {
  }

  lemma CacheParent(cache: map<set<nat>, nat>, stacks: map<nat, StackInfo>, size: nat, id: nat, p: nat)
    requires CacheInv(cache, stacks, size) && id in stacks && ParentIs(cache, stacks[id], p)
    ensures CacheInv(cache, stacks[id := stacks[id].(parent := p)], size) && p != NON_CONS
  {
  }

  /** A memoized parent is the id of the shorter stack. */
  lemma CacheMemo(cache: map<set<nat>, nat>, stacks: map<nat, StackInfo>, size: nat, id: nat)
    requires CacheInv(cache, stacks, size) && id in stacks && stacks[id].parent != -1
    ensures ParentIs(cache, stacks[id], stacks[id].parent) && stacks[id].parent > 0
  {
  }

  lemma CacheOwnId(cache: map<set<nat>, nat>, stacks: map<nat, StackInfo>, size: nat, id: nat)
    requires CacheInv(cache, stacks, size) && id in stacks
    ensures stacks[id].id == id
  {
  }

  lemma PathsAdd(stacks: map<nat, StackInfo>, n: nat, stack: seq<nat>)
    requires n !in stacks
    ensures forall g, main :: PathStacks(g, main, stacks) && Stack(g, main, stack) ==>
              PathStacks(g, main, stacks[n := StackInfo(stack, n, -1)])
  {
  }

  lemma PathsParent(stacks: map<nat, StackInfo>, id: nat, p: nat)
    requires id in stacks
    ensures forall g, main :: PathStacks(g, main, stacks) ==>
              PathStacks(g, main, stacks[id := stacks[id].(parent := p)])
  {
    forall g, main | PathStacks(g, main, stacks)
      ensures PathStacks(g, main, stacks[id := stacks[id].(parent := p)])
    {
    }
  }

  class StackCache {
    var cache: map<set<nat>, nat>
    var stackSize: nat
    var stacks: map<nat, StackInfo>

    ghost predicate Valid()
      reads this
    {
      CacheInv(cache, stacks, stackSize)
    }

    constructor ()
      ensures Valid() && cache == map[] && stacks == map[] && stackSize == 1
    {
      cache, stackSize, stacks := map[], 1, map[];
    }

    /** The id of a stack; ids once given never change, and 0 is never given. */
    method Find(stack: seq<nat>) returns (id: nat)
      requires Valid()
      modifies this
      ensures Valid() && Frames(stack) in cache && id == cache[Frames(stack)] && id != NON_CONS
      ensures forall f :: f in old(cache) ==> f in cache && cache[f] == old(cache)[f]
      ensures forall i :: i in old(stacks) ==> i in stacks && stacks[i] == old(stacks)[i]
      ensures Frames(stack) in old(cache) ==> cache == old(cache) && stacks == old(stacks)
      ensures Frames(stack) !in old(cache) ==>
                && cache == old(cache)[Frames(stack) := old(stackSize)]
                && stacks == old(stacks)[old(stackSize) := StackInfo(stack, old(stackSize), -1)]
                && stackSize == old(stackSize) + 1
      ensures forall g, main :: PathStacks(g, main, old(stacks)) && Stack(g, main, stack) ==>
          PathStacks(g, main, stacks)
    {
      hide CacheInv, PathStacks;
      var s: set<nat> := {};
      for i := 0 to |stack|
        invariant s == Frames(stack[..i])
      {
        assert stack[..i + 1] == stack[..i] + [stack[i]];
        s := s + {stack[i]};
      }
      assert stack[..|stack|] == stack;
      if s !in cache {
        CacheAdd(cache, stacks, stackSize, stack);
        PathsAdd(stacks, stackSize, stack);
        cache := cache[s := stackSize];
        stacks := stacks[stackSize := StackInfo(stack, stackSize, -1)];
        stackSize := stackSize + 1;
      }
      id := cache[s];
      CacheId(cache, stacks, stackSize, s);
    }

    /** StackInfo::parentId, memoized in the stack's record. */
    method ParentId(id: nat) returns (parent: nat)
      requires Valid() && id in stacks
      modifies this
      ensures Valid() && id in stacks && stacks[id].stack == old(stacks)[id].stack && stacks[id].parent == parent
      ensures parent != NON_CONS && ParentIs(cache, stacks[id], parent)
      ensures var s := stacks[id].stack;
              if s == [] then parent == id
              else Frames(s[..|s| - 1]) in cache && parent == cache[Frames(s[..|s| - 1])]
      ensures forall f :: f in old(cache) ==> f in cache && cache[f] == old(cache)[f]
      ensures forall i :: i in old(stacks) ==> i in stacks && stacks[i].stack == old(stacks)[i].stack
      ensures forall g, main :: PathStacks(g, main, old(stacks)) ==> PathStacks(g, main, stacks)
    {
      hide CacheInv, PathStacks, ParentIs;
      if stacks[id].parent == -1 {
        var p := ParentStackId(id);
        CacheParent(cache, stacks, stackSize, id, p);
        PathsParent(stacks, id, p);
        stacks := stacks[id := stacks[id].(parent := p)];
      }
      CacheMemo(cache, stacks, stackSize, id);
      parent := stacks[id].parent;
      CacheOwnId(cache, stacks, stackSize, id);
      ParentMeans(cache, stacks[id], parent);
    }

    /** The id of the stack without its last frame; the empty stack's is its own. */
    method ParentStackId(id: nat) returns (p: nat)
      requires Valid() && id in stacks
      modifies this
      ensures Valid() && id in stacks && ParentIs(cache, stacks[id], p)
      ensures forall f :: f in old(cache) ==> f in cache && cache[f] == old(cache)[f]
      ensures forall i :: i in old(stacks) ==> i in stacks && stacks[i] == old(stacks)[i]
      ensures forall g, main :: PathStacks(g, main, old(stacks)) ==> PathStacks(g, main, stacks)
    {
      hide CacheInv;
      CacheOwnId(cache, stacks, stackSize, id);
      var parentStack := stacks[id].stack;
      ghost var info := stacks[id];
      if |parentStack| > 0 {
        parentStack := parentStack[..|parentStack| - 1];
        forall g, main | PathStacks(g, main, stacks) ensures Stack(g, main, parentStack) {
          PrefixIsStack(g, main, info.stack);
        }
        p := Find(parentStack);
      } else {
        p := id;
      }
    }

    /** The stack part of stackPush: None when the frame repeats the top or is dynamically invalid. */
    method Push(id: nat, frame: nat, isValid: seq<nat> -> bool) returns (r: Option<nat>)
      requires Valid() && (id == NON_CONS || (id in stacks && stacks[id].stack != []))
      modifies this
      ensures Valid()
      ensures id == NON_CONS ==> r == Some(NON_CONS) && cache == old(cache) && stacks == old(stacks)
      ensures id != NON_CONS ==>
                var s := old(stacks)[id].stack;
                if Last(s) == frame || !isValid(s + [frame]) then
                  r == None && cache == old(cache) && stacks == old(stacks)
                else
                  Frames(s + [frame]) in cache && r == Some(cache[Frames(s + [frame])])
      ensures forall f :: f in old(cache) ==> f in cache && cache[f] == old(cache)[f]
      ensures forall i :: i in old(stacks) ==> i in stacks && stacks[i] == old(stacks)[i]
      ensures forall g, main ::
                && PathStacks(g, main, old(stacks))
                && (id != NON_CONS ==> frame in g && Last(old(stacks)[id].stack) in g[frame])
                ==> PathStacks(g, main, stacks)
    {
      if id == NON_CONS {
        return Some(id);
      }
      var stackVec := stacks[id].stack;
      if Last(stackVec) == frame {
        return None;
      }
      forall g, main | PathStacks(g, main, stacks) && frame in g && Last(stackVec) in g[frame]
        ensures Stack(g, main, stackVec + [frame])
      {
        ExtendPath(g, main, stackVec, frame);
      }
      stackVec := stackVec + [frame];
      if !isValid(stackVec) {
        return None;
      }
      var newId := Find(stackVec);
      r := Some(newId);
    }
  }

  /** On call paths, parentId of a path's id is the id of the path without its last frame. */
  lemma ParentOfPath(cache: map<set<nat>, nat>, stacks: map<nat, StackInfo>, size: nat,
                     g: Graph, main: nat, p: seq<nat>, parent: int)
    requires CacheInv(cache, stacks, size) && Frames(p) in cache && p != []
    requires Closed(g) && Acyclic(g) && PathStacks(g, main, stacks) && Stack(g, main, p)
    requires ParentIs(cache, stacks[cache[Frames(p)]], parent)
    ensures Frames(WithoutLast(p)) in cache && parent == cache[Frames(WithoutLast(p))]
  {
    StoredStack(cache, stacks, size, g, main, p);
  }

  /** Popping undoes pushing: the parent of s extended by a frame is s again. */
  lemma PopUndoesPush(cache: map<set<nat>, nat>, stacks: map<nat, StackInfo>, size: nat,
                      g: Graph, main: nat, id: nat, frame: nat, parent: int)
    requires CacheInv(cache, stacks, size) && Closed(g) && Acyclic(g) && PathStacks(g, main, stacks)
    requires id in stacks && stacks[id].stack != [] && Last(stacks[id].stack) != frame
    requires frame in g && Last(stacks[id].stack) in g[frame]
    requires Frames(stacks[id].stack + [frame]) in cache
    requires ParentIs(cache, stacks[cache[Frames(stacks[id].stack + [frame])]], parent)
    ensures parent == id
  {
    var s := stacks[id].stack;
    ExtendPath(g, main, s, frame);
    ParentOfPath(cache, stacks, size, g, main, s + [frame], parent);
    assert WithoutLast(s + [frame]) == s;
  }
}
