/** Helpers of the solver: an order on bitmaps, and the worklist of two heaps. */
module SolveHelpers {
  import opened Basics
  import opened BitmapNodes
  import opened BitmapLists
  import opened BitmapIterators
  import opened Seals
  import SparseBitmaps

  // ---- The order on bitmaps ----

  /** Element by element; of two lists where one continues the other, the longer is less. */
  predicate Less(a: seq<nat>, b: seq<nat>) {
    if a == [] then false
    else if b == [] then true
    else if a[0] != b[0] then a[0] < b[0]
    else Less(a[1..], b[1..])
  }

  /** A list is less than its proper prefixes. */
  lemma {:induction false} LessThanPrefix(a: seq<nat>, b: seq<nat>)
    requires |b| < |a| && a[..|b|] == b
    ensures Less(a, b) && !Less(b, a)
  {
    if b != [] {
      assert a[..|b|][0] == a[0] && a[..|b|][1..] == a[1..][..|b| - 1];
      LessThanPrefix(a[1..], b[1..]);
    }
  }

  /** Otherwise the first difference decides. */
  lemma {:induction false} LessAtFirst(a: seq<nat>, b: seq<nat>, k: nat)
    requires k < |a| && k < |b| && a[..k] == b[..k] && a[k] < b[k]
    ensures Less(a, b) && !Less(b, a)
  {
    if k > 0 {
      assert a[..k][0] == a[0] && b[..k][0] == b[0];
      assert a[..k][1..] == a[1..][..k - 1] && b[..k][1..] == b[1..][..k - 1];
      LessAtFirst(a[1..], b[1..], k - 1);
    }
  }

  lemma {:induction false} LessTrans(a: seq<nat>, b: seq<nat>, c: seq<nat>)
    requires Less(a, b) && Less(b, c)
    ensures Less(a, c)
  {
    if c != [] && a[0] == b[0] && b[0] == c[0] { LessTrans(a[1..], b[1..], c[1..]); }
  }

  /** Exactly one of less, greater and equal. */
  lemma {:induction false} LessTotal(a: seq<nat>, b: seq<nat>)
    ensures !(Less(a, b) && Less(b, a))
    ensures !Less(a, b) && !Less(b, a) <==> a == b
  {
    if a != [] && b != [] {
      LessTotal(a[1..], b[1..]);
      assert a == [a[0]] + a[1..] && b == [b[0]] + b[1..];
    }
  }

  /** On canonical bitmaps it is a strict total order: incomparable means equal. */
  lemma BitmapOrder(a: seq<BitmapNode>, b: seq<BitmapNode>, c: seq<BitmapNode>)
    requires Canon(a) && Canon(b) && Canon(c)
    ensures !Less(Members(a), Members(a))
    ensures Less(Members(a), Members(b)) && Less(Members(b), Members(c)) ==> Less(Members(a), Members(c))
    ensures !Less(Members(a), Members(b)) && !Less(Members(b), Members(a)) <==> a == b
    ensures !(Less(Members(a), Members(b)) && Less(Members(b), Members(a)))
  {
    LessTotal(Members(a), Members(a));
    LessTotal(Members(a), Members(b));
    if Less(Members(a), Members(b)) && Less(Members(b), Members(c)) {
      LessTrans(Members(a), Members(b), Members(c));
    }
    if Members(a) == Members(b) {
      var _ := MembersAscending(a, 0);
      var _ := MembersAscending(b, 0);
      SameMembers(a, b);
    }
  }

  /** BitmapLT: both iterators in step. */
  method BitmapLT(b1: SparseBitmaps.SparseBitmap, b2: SparseBitmaps.SparseBitmap) returns (r: bool)
    requires b1.Valid() && b2.Valid()
    ensures r == Less(Members(b1.elms), Members(b2.elms))
  {
    hide Balanced, Ordered;
    var it1 := new BitmapIterator(b1.elms, false);
    var it2 := new BitmapIterator(b2.elms, false);
    ghost var goal := Less(Members(b1.elms), Members(b2.elms));
    while !it1.end && !it2.end
      invariant fresh(it1) && fresh(it2) && it1 != it2 && it1.Valid() && it2.Valid()
      invariant goal == Less(Left(it1), Left(it2))
      decreases |Left(it1)|
    {
      if it1.Current() < it2.Current() {
        return true;
      } else if it1.Current() > it2.Current() {
        return false;
      }
      ghost var l1, l2 := Left(it1), Left(it2);
      it1.AdvanceBit();
      it2.AdvanceBit();
      assert Left(it1) == l1[1..] && Left(it2) == l2[1..];
    }
    return !it1.end;
  }

  /** What an iterator has still to give, the current id first. */
  ghost function Left(it: BitmapIterator): seq<nat>
    requires it.Valid()
    reads it
  {
    if it.end then [] else [it.Current()] + it.Rest()
  }

  // ---- The worklist of two heaps ----

  /** A node and its priority, an unsigned 32-bit number. */
  datatype HeapEntry = HeapEntry(node: int, prio: nat) {
    /** prio() returns a signed 32-bit number. */
    function Signed(): int {
      if prio < 0x8000_0000 then prio else prio - 0x1_0000_0000
    }

    /** operator<, by which the heaps put the greatest entry first. */
    predicate Below(rhs: HeapEntry) {
      if Signed() == rhs.Signed() then node < rhs.node else Signed() > rhs.Signed()
    }
  }

  /** An entry with nothing above it. */
  ghost predicate IsFront(h: multiset<HeapEntry>, e: HeapEntry) {
    e in h && forall f :: f in h ==> !e.Below(f)
  }

  /** An entry taken from the heap, or put into it, in some generation of the worklist. */
  datatype Stamped = Stamped(entry: HeapEntry, gen: nat)

  /** How often an entry bears this stamp. */
  function Bag(s: seq<Stamped>, gen: nat): multiset<HeapEntry> {
    if s == [] then multiset{}
    else Bag(s[..|s| - 1], gen) + (if s[|s| - 1].gen == gen then multiset{s[|s| - 1].entry} else multiset{})
  }

  function Entries(s: seq<Stamped>): multiset<HeapEntry> {
    if s == [] then multiset{} else Entries(s[..|s| - 1]) + multiset{s[|s| - 1].entry}
  }

  /** What waits for generation g while gen is being drained. */
  function Waiting(heap: multiset<HeapEntry>, next: multiset<HeapEntry>, gen: nat, g: nat): multiset<HeapEntry> {
    if g == gen then heap else if g == gen + 1 then next else multiset{}
  }

  /** Nothing is lost or repeated, generation by generation and in all. */
  ghost predicate Balanced(heap: multiset<HeapEntry>, next: multiset<HeapEntry>, gen: nat, ins: seq<Stamped>,
                           outs: seq<Stamped>) {
    forall k {:trigger Unfold(BalanceSeal, k)} :: Unfold(BalanceSeal, k) ==>
      && Entries(ins) == Entries(outs) + heap + next
      && (forall g: nat :: Bag(ins, g) == Bag(outs, g) + Waiting(heap, next, gen, g))
  }

  /** What was popped came in order, and nothing left in the heap should have come earlier. */
  ghost predicate Ordered(heap: multiset<HeapEntry>, gen: nat, outs: seq<Stamped>) {
    forall k {:trigger Unfold(OrderSeal, k)} :: Unfold(OrderSeal, k) ==>
      && InOrder(outs)
      && (forall i, f :: 0 <= i < |outs| && f in heap && outs[i].gen == gen ==> !outs[i].entry.Below(f))
      && (forall i :: 0 <= i < |outs| ==> outs[i].gen <= gen)
  }

  /** What every run keeps: generation gen is being drained; entries pushed meanwhile wait for gen + 1. */
  ghost predicate RunInv(heap: multiset<HeapEntry>, next: multiset<HeapEntry>, gen: nat, ins: seq<Stamped>,
                         outs: seq<Stamped>) {
    Balanced(heap, next, gen, ins, outs) && Ordered(heap, gen, outs)
  }

  /** Generation by generation, and within one never below a later entry. */
  ghost predicate InOrder(outs: seq<Stamped>) {
    forall i, j :: 0 <= i < j < |outs| ==>
      outs[i].gen <= outs[j].gen && (outs[i].gen == outs[j].gen ==> !outs[i].entry.Below(outs[j].entry))
  }

  lemma {:induction false} BagLast(s: seq<Stamped>, e: HeapEntry, gen: nat, g: nat)
    ensures Bag(s + [Stamped(e, gen)], g) == Bag(s, g) + (if g == gen then multiset{e} else multiset{})
    ensures Entries(s + [Stamped(e, gen)]) == Entries(s) + multiset{e}
  {
    assert (s + [Stamped(e, gen)])[..|s|] == s;
  }

  lemma RunPush(heap: multiset<HeapEntry>, next: multiset<HeapEntry>, gen: nat, ins: seq<Stamped>,
                outs: seq<Stamped>, e: HeapEntry)
    requires RunInv(heap, next, gen, ins, outs)
    ensures RunInv(heap, next + multiset{e}, gen, ins + [Stamped(e, gen + 1)], outs)
  {
    PushBalanced(heap, next, gen, ins, outs, e, next + multiset{e});
  }

  lemma PushBalanced(heap: multiset<HeapEntry>, next: multiset<HeapEntry>, gen: nat, ins: seq<Stamped>,
                     outs: seq<Stamped>, e: HeapEntry, next': multiset<HeapEntry>)
    requires Balanced(heap, next, gen, ins, outs) && next' == next + multiset{e}
    ensures Balanced(heap, next', gen, ins + [Stamped(e, gen + 1)], outs)
  {
    var ins' := ins + [Stamped(e, gen + 1)];
    forall g: nat ensures Bag(ins', g) == Bag(outs, g) + Waiting(heap, next', gen, g) {
      PushBag(heap, next, gen, ins, outs, e, next', g);
    }
    PushAll(heap, next, gen, ins, outs, e, next');
  }

  lemma PushBag(heap: multiset<HeapEntry>, next: multiset<HeapEntry>, gen: nat, ins: seq<Stamped>,
                outs: seq<Stamped>, e: HeapEntry, next': multiset<HeapEntry>, g: nat)
    requires Balanced(heap, next, gen, ins, outs) && next' == next + multiset{e}
    ensures Bag(ins + [Stamped(e, gen + 1)], g) == Bag(outs, g) + Waiting(heap, next', gen, g)
  {
    assert Bag(ins, g) == Bag(outs, g) + Waiting(heap, next, gen, g) by { assert Unfold(BalanceSeal, 0); }
    BagLast(ins, e, gen + 1, g);
    if g == gen + 1 {
      Regroup(Bag(outs, g), next, multiset{e});
    }
  }

  lemma PushAll(heap: multiset<HeapEntry>, next: multiset<HeapEntry>, gen: nat, ins: seq<Stamped>,
                outs: seq<Stamped>, e: HeapEntry, next': multiset<HeapEntry>)
    requires Balanced(heap, next, gen, ins, outs) && next' == next + multiset{e}
    ensures Entries(ins + [Stamped(e, gen + 1)]) == Entries(outs) + heap + next'
  {
    assert Entries(ins) == Entries(outs) + heap + next by { assert Unfold(BalanceSeal, 0); }
    BagLast(ins, e, gen + 1, gen);
    Regroup(Entries(outs) + heap, next, multiset{e});
  }

  lemma Regroup(a: multiset<HeapEntry>, b: multiset<HeapEntry>, c: multiset<HeapEntry>)
    ensures (a + b) + c == a + (b + c)
  {
  }

  lemma RunSwap(next: multiset<HeapEntry>, gen: nat, ins: seq<Stamped>, outs: seq<Stamped>)
    requires RunInv(multiset{}, next, gen, ins, outs)
    ensures RunInv(next, multiset{}, gen + 1, ins, outs)
  {
    assert Unfold(OrderSeal, 0);
    assert Unfold(BalanceSeal, 0);
    forall g: nat ensures Bag(ins, g) == Bag(outs, g) + Waiting(next, multiset{}, gen + 1, g) {
      assert Bag(ins, g) == Bag(outs, g) + Waiting(multiset{}, next, gen, g);
    }
  }

  lemma RunPop(heap: multiset<HeapEntry>, next: multiset<HeapEntry>, gen: nat, ins: seq<Stamped>, outs: seq<Stamped>,
               e: HeapEntry)
    requires RunInv(heap, next, gen, ins, outs) && IsFront(heap, e)
    ensures RunInv(heap - multiset{e}, next, gen, ins, outs + [Stamped(e, gen)])
  {
    PopBalanced(heap, next, gen, ins, outs, e);
    PopOrdered(heap, gen, outs, e);
  }

  lemma PopBalanced(heap: multiset<HeapEntry>, next: multiset<HeapEntry>, gen: nat, ins: seq<Stamped>,
                    outs: seq<Stamped>, e: HeapEntry)
    requires Balanced(heap, next, gen, ins, outs) && e in heap
    ensures Balanced(heap - multiset{e}, next, gen, ins, outs + [Stamped(e, gen)])
  {
    var outs', heap' := outs + [Stamped(e, gen)], heap - multiset{e};
    forall g: nat ensures Bag(ins, g) == Bag(outs', g) + Waiting(heap', next, gen, g) {
      PopBag(heap, next, gen, ins, outs, e, heap', g);
    }
    PopAll(heap, next, gen, ins, outs, e, heap');
  }

  lemma PopBag(heap: multiset<HeapEntry>, next: multiset<HeapEntry>, gen: nat, ins: seq<Stamped>, outs: seq<Stamped>,
               e: HeapEntry, heap': multiset<HeapEntry>, g: nat)
    requires Balanced(heap, next, gen, ins, outs) && heap == multiset{e} + heap'
    ensures Bag(ins, g) == Bag(outs + [Stamped(e, gen)], g) + Waiting(heap', next, gen, g)
  {
    assert Bag(ins, g) == Bag(outs, g) + Waiting(heap, next, gen, g) by { assert Unfold(BalanceSeal, 0); }
    BagLast(outs, e, gen, g);
    if g == gen {
      Regroup(Bag(outs, g), multiset{e}, heap');
    }
  }

  lemma PopAll(heap: multiset<HeapEntry>, next: multiset<HeapEntry>, gen: nat, ins: seq<Stamped>, outs: seq<Stamped>,
               e: HeapEntry, heap': multiset<HeapEntry>)
    requires Balanced(heap, next, gen, ins, outs) && heap == multiset{e} + heap'
    ensures Entries(ins) == Entries(outs + [Stamped(e, gen)]) + heap' + next
  {
    assert Entries(ins) == Entries(outs) + heap + next by { assert Unfold(BalanceSeal, 0); }
    BagLast(outs, e, gen, gen);
    Regroup(Entries(outs), multiset{e}, heap');
  }

  lemma PopOrdered(heap: multiset<HeapEntry>, gen: nat, outs: seq<Stamped>, e: HeapEntry)
    requires Ordered(heap, gen, outs) && IsFront(heap, e)
    ensures Ordered(heap - multiset{e}, gen, outs + [Stamped(e, gen)])
  {
    assert Unfold(OrderSeal, 0);
    var outs' := outs + [Stamped(e, gen)];
    forall i, f | 0 <= i < |outs'| && f in heap - multiset{e} && outs'[i].gen == gen ensures !outs'[i].entry.Below(f) {
      assert f in heap;
    }
  }

  /** The order that is meant: lower priority first, ties by larger node first. */
  predicate Sooner(a: HeapEntry, b: HeapEntry) {
    a.prio < b.prio || (a.prio == b.prio && a.node >= b.node)
  }

  predicate Is32Bit(e: HeapEntry) {
    e.prio < 0x1_0000_0000
  }

  predicate SameHalf(a: HeapEntry, b: HeapEntry) {
    a.prio < 0x8000_0000 <==> b.prio < 0x8000_0000
  }

  /** The order of the heaps is the one that is meant exactly for priorities in the same half of the 32-bit range. */
  lemma OrderMeans(a: HeapEntry, b: HeapEntry)
    requires Is32Bit(a) && Is32Bit(b)
    ensures (!a.Below(b) <==> Sooner(a, b)) <==> SameHalf(a, b)
  {
  }

  /** So a generation whose priorities lie in one half is popped in that order. */
  lemma PopsMeant(outs: seq<Stamped>, i: nat, j: nat)
    requires InOrder(outs) && i < j < |outs| && outs[i].gen == outs[j].gen
    requires Is32Bit(outs[i].entry) && Is32Bit(outs[j].entry)
    ensures var a, b := outs[i].entry, outs[j].entry;
            if a.prio < 0x8000_0000 <==> b.prio < 0x8000_0000
            then a.prio < b.prio || (a.prio == b.prio && a.node >= b.node)
            else a.prio > b.prio
  {
    OrderMeans(outs[i].entry, outs[j].entry);
  }

  /** Priority 2^31 comes before priority 1. */
  lemma HighPriorityFirst(node: int)
    ensures IsFront(multiset{HeapEntry(node, 1), HeapEntry(node, 0x8000_0000)}, HeapEntry(node, 0x8000_0000))
    ensures Sooner(HeapEntry(node, 1), HeapEntry(node, 0x8000_0000))
  {
    assert HeapEntry(node, 0x8000_0000).Signed() == -0x8000_0000;
  }

  class Worklist {
    var heap: multiset<HeapEntry>
    var nextHeap: multiset<HeapEntry>
    ghost var gen: nat
    ghost var ins: seq<Stamped>    // pushed entries, with the generation they wait for
    ghost var outs: seq<Stamped>   // popped entries, with the generation being drained

    ghost predicate Valid()
      reads this
    {
      RunInv(heap, nextHeap, gen, ins, outs)
    }

    constructor ()
      ensures Valid() && Empty() && ins == [] && outs == [] && gen == 0
    {
      heap, nextHeap := multiset{}, multiset{};
      gen, ins, outs := 0, [], [];
    }

    predicate Empty()
      reads this
    {
      heap == multiset{} && nextHeap == multiset{}
    }

    method Push(node: int, prio: nat)
      requires Valid()
      modifies this
      ensures Valid() && heap == old(heap) && nextHeap == old(nextHeap) + multiset{HeapEntry(node, prio)}
      ensures gen == old(gen) && outs == old(outs) && ins == old(ins) + [Stamped(HeapEntry(node, prio), gen + 1)]
    {
      hide Balanced, Ordered;
      RunPush(heap, nextHeap, gen, ins, outs, HeapEntry(node, prio));
      nextHeap := nextHeap + multiset{HeapEntry(node, prio)};
      ins := ins + [Stamped(HeapEntry(node, prio), gen + 1)];
    }

    /** The front of the current heap; the next heap takes its place once it is empty. */
    method Pop() returns (r: Option<HeapEntry>)
      requires Valid()
      modifies this
      ensures Valid() && ins == old(ins)
      ensures r.None? <==> old(Empty())
      ensures r.None? ==> Empty() && outs == old(outs)
      ensures r.Some? ==>
                && IsFront(if old(heap) != multiset{} then old(heap) else old(nextHeap), r.value)
                && gen == (if old(heap) != multiset{} then old(gen) else old(gen) + 1)
                && outs == old(outs) + [Stamped(r.value, gen)]
    {
      hide Balanced, Ordered;
      if heap == multiset{} && nextHeap != multiset{} {
        SwapHeaps();
      }
      if heap == multiset{} {
        return None;
      }
      var entry := PopHeap();
      return Some(entry);
    }

    method SwapHeaps()
      requires Valid() && heap == multiset{}
      modifies this
      ensures Valid() && heap == old(nextHeap) && nextHeap == multiset{}
      ensures gen == old(gen) + 1 && ins == old(ins) && outs == old(outs)
    {
      hide Balanced, Ordered;
      RunSwap(nextHeap, gen, ins, outs);
      heap, nextHeap := nextHeap, heap;
      gen := gen + 1;
    }

    method PopHeap() returns (entry: HeapEntry)
      requires Valid() && heap != multiset{}
      modifies this
      ensures Valid() && IsFront(old(heap), entry) && heap == old(heap) - multiset{entry} && nextHeap == old(nextHeap)
      ensures gen == old(gen) && ins == old(ins) && outs == old(outs) + [Stamped(entry, gen)]
    {
      hide Balanced, Ordered;
      entry := Front(heap);
      RunPop(heap, nextHeap, gen, ins, outs, entry);
      heap := heap - multiset{entry};
      outs := outs + [Stamped(entry, gen)];
    }
  }

  /** The first entry of a heap. */
  method Front(h: multiset<HeapEntry>) returns (e: HeapEntry)
    requires h != multiset{}
    ensures IsFront(h, e)
  {
    hide NoneAbove;
    e :| e in h;
    var left := h - multiset{e};
    NoneAboveStart(h, e);
    while left != multiset{}
      invariant e in h && left <= h && NoneAbove(h, left, e)
      decreases |left|
    {
      var f :| f in left;
      NoneAboveStep(h, left, e, f);
      if e.Below(f) {
        e := f;
      }
      left := left - multiset{f};
    }
    NoneAboveDone(h, e);
  }

  /** Whatever is not left is not above e. */
  ghost predicate NoneAbove(h: multiset<HeapEntry>, left: multiset<HeapEntry>, e: HeapEntry) {
    forall f :: f in h ==> f in left || !e.Below(f)
  }

  lemma NoneAboveStart(h: multiset<HeapEntry>, e: HeapEntry)
    requires e in h
    ensures NoneAbove(h, h - multiset{e}, e)
  {
  }

  lemma NoneAboveStep(h: multiset<HeapEntry>, left: multiset<HeapEntry>, e: HeapEntry, f: HeapEntry)
    requires NoneAbove(h, left, e) && f in left
    ensures NoneAbove(h, left - multiset{f}, if e.Below(f) then f else e)
  {
    forall x | x in h && x !in left - multiset{f} ensures !(if e.Below(f) then f else e).Below(x) {
      assert x == f || x !in left;
    }
  }

  lemma NoneAboveDone(h: multiset<HeapEntry>, e: HeapEntry)
    requires NoneAbove(h, multiset{}, e) && e in h
    ensures IsFront(h, e)
  {
  }

  /** Once a generation is over, exactly what was pushed for it has been popped in it, and in order. */
  lemma GenerationDone(heap: multiset<HeapEntry>, next: multiset<HeapEntry>, gen: nat, ins: seq<Stamped>,
                       outs: seq<Stamped>, g: nat)
    requires RunInv(heap, next, gen, ins, outs)
    ensures g < gen || (heap == multiset{} && g == gen) ==> Bag(ins, g) == Bag(outs, g)
    ensures Bag(outs, g) <= Bag(ins, g)
    ensures Entries(ins) == Entries(outs) + heap + next
    ensures InOrder(outs)
  {
    assert Unfold(BalanceSeal, 0);
    assert Unfold(OrderSeal, 0);
    assert Bag(ins, g) == Bag(outs, g) + Waiting(heap, next, gen, g);
  }
}
