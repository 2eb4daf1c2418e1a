/** A set of ids as a sorted list of bit blocks, with a search cursor that moves with every lookup. */
module SparseBitmaps {
  import opened Basics
  import opened BitmapNodes
  import opened BitmapLists
  import opened BitmapMerges

  lemma NeighboursAscend(s: seq<BitmapNode>, i: nat)
    requires Canon(s) && i < |s|
    ensures i + 1 < |s| ==> s[i].index < s[i + 1].index
    ensures i > 0 ==> s[i - 1].index < s[i].index
  {
  }

  // ---- addSorted in progress ----

  /** s is A with the ids of seen added; ch tells whether one of them was new. */
  ghost predicate Adding(A: seq<BitmapNode>, s: seq<BitmapNode>, seen: seq<nat>, ch: bool) {
    && Canon(s) && (forall x: nat :: Has(s, x) <==> x in seen || Has(A, x))
    && (ch <==> exists x: nat :: x in seen && !Has(A, x))
  }

  lemma AddingStart(A: seq<BitmapNode>)
    requires Canon(A)
    ensures Adding(A, A, [], false)
  {
  }

  lemma AddingInsert(A: seq<BitmapNode>, s: seq<BitmapNode>, seen: seq<nat>, ch: bool, i: nat, id: nat,
                     t: seq<BitmapNode>)
    requires Adding(A, s, seen, ch) && i <= |s|
    requires i > 0 ==> s[i - 1].index < id / BITS_PER_FIELD
    requires i < |s| ==> id / BITS_PER_FIELD < s[i].index
    requires t == s[..i] + [EmptyNode(id / BITS_PER_FIELD).Put(id % BITS_PER_FIELD, true)] + s[i..]
    ensures Adding(A, t, seen + [id], true)
  {
    hide Canon;
    InsertBit(s, i, id, t);
    assert id in seen + [id] && !Has(A, id);
  }

  lemma AddingPut(A: seq<BitmapNode>, s: seq<BitmapNode>, seen: seq<nat>, ch: bool, i: nat, id: nat)
    requires Adding(A, s, seen, ch) && i < |s| && s[i].index == id / BITS_PER_FIELD
    ensures s[i].WF()
    ensures Adding(A, s[i := s[i].Put(id % BITS_PER_FIELD, true)], seen + [id], ch || !s[i].Test(id % BITS_PER_FIELD))
  {
    HasOnly(s, i, id);
    PutBit(s, i, id, s[i := s[i].Put(id % BITS_PER_FIELD, true)]);
    if !s[i].Test(id % BITS_PER_FIELD) { assert id in seen + [id] && !Has(A, id); }
  }

  lemma AddingDone(A: seq<BitmapNode>, s: seq<BitmapNode>, ids: seq<nat>, ch: bool)
    requires Adding(A, s, ids, ch)
    ensures Canon(s) && forall x: nat :: Has(s, x) <==> x in ids || Has(A, x)
    ensures ch <==> exists x: nat :: x in ids && !Has(A, x)
  {
  }

  class SparseBitmap {
    var elms: seq<BitmapNode>
    var curElm: nat   // position in elms, |elms| being the end; meaningless while elms is empty

    predicate Valid()
      reads this
    {
      Canon(elms) && (elms != [] ==> curElm <= |elms|)
    }

    predicate Contains(id: nat)
      reads this
    {
      Has(elms, id)
    }

    constructor ()
      ensures Valid() && elms == [] && curElm == 0
    {
      elms, curElm := [], 0;
    }

    constructor Copy(s: SparseBitmap)
      requires s.Valid()
      ensures Valid() && elms == s.elms
    {
      elms, curElm := s.elms, 0;
    }

    /** clear() leaves the cursor where it was. */
    method Clear()
      modifies this
      ensures Valid() && curElm == old(curElm) && forall id: nat :: !Contains(id)
    {
      elms := [];
    }

    // ---- Lookups ----

    /** The block of idx, or one of the two blocks between which it belongs, or the end. */
    method FindClosest(idx: nat) returns (it: nat)
      requires Valid()
      modifies this`curElm
      ensures Valid() && it <= |elms|
      ensures elms != [] ==> curElm == it
      ensures it == |elms| > 0 ==> elms[it - 1].index < idx
      ensures it + 1 < |elms| && elms[it].index < idx ==> idx < elms[it + 1].index
      ensures 0 < it < |elms| && idx < elms[it].index ==> elms[it - 1].index < idx
    {
      hide Canon, Sorted;
      if elms == [] {
        return |elms|;
      }
      if curElm == |elms| {
        curElm := curElm - 1;
      }
      it := curElm;
      NeighboursAscend(elms, it);
      if elms[it].index == idx {
        return;
      } else if elms[it].index > idx {
        while it != 0 && elms[it].index > idx
          modifies {}
          invariant it < |elms|
          invariant it + 1 < |elms| ==> idx < elms[it + 1].index
        {
          it := it - 1;
        }
      } else {
        while it != |elms| && elms[it].index < idx
          modifies {}
          invariant it <= |elms|
          invariant it > 0 ==> elms[it - 1].index < idx
        {
          it := it + 1;
        }
      }
      curElm := it;
    }

    method Test(id: nat) returns (r: bool)
      requires Valid()
      modifies this`curElm
      ensures Valid()
      ensures r == Contains(id)
    {
      var idx := id / BITS_PER_FIELD;
      var it := FindClosest(idx);
      if it == |elms| {
        HasNone(elms, it, id);
        return false;
      }
      if elms[it].index != idx {
        HasNone(elms, if elms[it].index < idx then it + 1 else it, id);
        return false;
      }
      HasOnly(elms, it, id);
      return elms[it].Test(id % BITS_PER_FIELD);
    }

    // ---- One id ----

    method Reset(id: nat)
      requires Valid()
      modifies this
      ensures Valid()
      ensures forall x: nat :: Contains(x) <==> x != id && old(Contains(x))
    {
      var idx := id / BITS_PER_FIELD;
      var it := FindClosest(idx);
      if it == |elms| || elms[it].index != idx {
        HasNone(elms, if it < |elms| && elms[it].index < idx then it + 1 else it, id);
        return;
      }
      ghost var was := elms;
      elms := elms[it := elms[it].Put(id % BITS_PER_FIELD, false)];
      ghost var b := elms[it];
      assert was[it := b] == elms;
      if elms[it].None() {
        assert elms[..it] + elms[it + 1..] == was[..it] + was[it + 1..];
        curElm := curElm + 1;
        elms := elms[..it] + elms[it + 1..];
        curElm := curElm - 1;  // the blocks after the erased one move up, and the cursor with its block
      }
      ClearBit(was, it, id, b, elms);
    }

    /** The place where set and test_and_set write: the block of id, created when it is missing. */
    method BlockFor(id: nat) returns (it: nat, ghost added: bool)
      requires Valid()
      modifies this
      ensures curElm == it < |elms| && elms[it].index == id / BITS_PER_FIELD && elms[it].WF()
      ensures !added ==> elms == old(elms)
      ensures added ==> it <= |old(elms)|
      ensures added ==> elms == old(elms)[..it] + [EmptyNode(id / BITS_PER_FIELD)] + old(elms)[it..]
      ensures added ==> (it > 0 ==> old(elms)[it - 1].index < id / BITS_PER_FIELD)
      ensures added ==> (it < |old(elms)| ==> id / BITS_PER_FIELD < old(elms)[it].index)
    {
      var idx := id / BITS_PER_FIELD;
      it := FindClosest(idx);
      added := false;
      if it == |elms| {
        elms := elms[..it] + [EmptyNode(idx)] + elms[it..];
        added := true;
      } else if elms[it].index != idx {
        if elms[it].index < idx {
          it := it + 1;
        }
        elms := elms[..it] + [EmptyNode(idx)] + elms[it..];
        added := true;
      }
      curElm := it;
    }

    method Set(id: nat)
      requires Valid()
      modifies this
      ensures Valid()
      ensures forall x: nat :: Contains(x) <==> x == id || old(Contains(x))
    {
      var it, added := BlockFor(id);
      elms := elms[it := elms[it].Put(id % BITS_PER_FIELD, true)];
      Wrote(old(elms), it, id, added, elms);
    }

    method TestAndSet(id: nat) returns (r: bool)
      requires Valid()
      modifies this
      ensures Valid()
      ensures forall x: nat :: Contains(x) <==> x == id || old(Contains(x))
      ensures r <==> !old(Contains(id))
    {
      var it, added := BlockFor(id);
      r := !elms[it].Test(id % BITS_PER_FIELD);
      if !added { HasOnly(elms, it, id); }
      elms := elms[it := elms[it].Put(id % BITS_PER_FIELD, true)];
      Wrote(old(elms), it, id, added, elms);
    }

    // ---- Merges: one pass over both lists ----

    /** operator|=. */
    method OrAssign(rhs: SparseBitmap) returns (ch: bool)
      requires Valid() && rhs.Valid()
      modifies this
      ensures Valid()
      ensures forall x: nat :: Contains(x) <==> old(Contains(x)) || old(rhs.Contains(x))
      ensures ch <==> exists x: nat :: Has(old(rhs.elms), x) && !Has(old(elms), x)
    {
      if rhs.elms == [] {
        return false;
      }
      ghost var A, B := elms, rhs.elms;
      MergeStart(A, B);
      var it1;
      ghost var p: nat;
      ch, it1, p := OrUnites(rhs);
      MergeDone(A, B, elms, it1, p, ch);
      curElm := 0;
    }

    /** The loop of operator|=. The receiver may be the operand: then no block of it changes. */
    method OrUnites(rhs: SparseBitmap) returns (ch: bool, it1: nat, ghost p: nat)
      requires Merging(elms, rhs.elms, elms, 0, 0, 0, false)
      modifies this`elms
      ensures it1 <= |elms| && p <= |old(elms)| && Merging(old(elms), old(rhs.elms), elms, it1, p, |old(rhs.elms)|, ch)
    {
      hide Merging;
      ghost var A, B := elms, rhs.elms;
      var it2 := 0;
      ch, it1, p := false, 0, 0;
      while it2 < |rhs.elms|
        invariant rhs.elms == B && (rhs == this ==> it1 == it2 && elms == A)
        invariant it1 <= |elms| && it2 <= |B| && p <= |A| && Merging(A, B, elms, it1, p, it2, ch)
        decreases |A| - p, |B| - it2
      {
        var next;
        it1, next, ch, p := OrBlock(rhs.elms[it2], it1, ch, A, B, p, it2);
        if next {
          it2 := it2 + 1;
        }
      }
    }

    /** One comparison of the merge: x goes in here, or into the block here, or further on. */
    method OrBlock(x: BitmapNode, it1: nat, ch1: bool, ghost A: seq<BitmapNode>, ghost B: seq<BitmapNode>,
                   ghost p: nat, ghost j: nat)
      returns (it: nat, next: bool, ch: bool, ghost q: nat)
      requires it1 <= |elms| && p <= |A| && j < |B| && x == B[j] && Merging(A, B, elms, it1, p, j, ch1)
      modifies this`elms
      ensures it == it1 + 1 <= |elms| && p <= q <= |A|
      ensures next ==> Merging(A, B, elms, it, q, j + 1, ch)
      ensures !next ==> q == p + 1 && Merging(A, B, elms, it, q, j, ch)
      ensures it1 < |old(elms)| && old(elms)[it1] == x ==> elms == old(elms) && next
    {
      hide Merging;
      if it1 == |elms| || elms[it1].index > x.index {
        MergeInsert(A, B, elms, it1, p, j, ch1);
        elms := elms[..it1] + [x] + elms[it1..];
        it, next, ch, q := it1 + 1, true, true, p;
      } else if elms[it1].index == x.index {
        MergeBoth(A, B, elms, it1, p, j, ch1);
        OrSelf(x);
        var b, c := BitmapNodes.OrAssign(elms[it1], x);
        elms := elms[it1 := b];
        it, next, ch, q := it1 + 1, true, ch1 || c, p + 1;
      } else {
        MergeSkip(A, B, elms, it1, p, j, ch1);
        it, next, ch, q := it1 + 1, false, ch1, p + 1;
      }
    }

    method OrWithIntersect(rhs: SparseBitmap, intersect: SparseBitmap?) returns (ch: bool)
      requires Valid() && rhs.Valid() && (intersect != null ==> intersect.Valid())
      modifies this
      ensures Valid()
      ensures intersect == null ==> forall x: nat :: Contains(x) <==> old(Contains(x)) || old(rhs.Contains(x))
      ensures intersect == null ==> (ch <==> exists x: nat :: Has(old(rhs.elms), x) && !Has(old(elms), x))
      ensures intersect != null ==>
                forall x: nat :: Contains(x) <==>
                  old(Contains(x)) || (old(rhs.Contains(x)) && old(intersect.Contains(x)))
      ensures intersect != null ==>
                (ch <==> exists x: nat :: Has(old(rhs.elms), x) && Has(old(intersect.elms), x) && !Has(old(elms), x))
    {
      if intersect == null {
        ch := OrAssign(rhs);
      } else {
        ch := OrWithIntersection(rhs, intersect);
      }
    }

    /** The inner loop: over the blocks that lie before the one looked for. */
    method SkipBelow(idx: nat, from: nat, ghost i: nat, ghost R: seq<BitmapNode>, ghost j: nat,
                     ghost B: seq<BitmapNode>, ghost m: nat)
      returns (it: nat)
      requires j < |R| && idx == R[j].index && from <= |elms| && m <= |B|
      requires Meeting(R, elms, j, from, B, m)
      ensures it <= |elms| && Meeting(R, elms, j, it, B, m)
      ensures it < |elms| ==> idx <= elms[it].index
      ensures Trails(R, elms, i, j, from) ==> i <= it
    {
      hide Meeting;
      it := from;
      while it < |elms| && idx > elms[it].index
        invariant it <= |elms| && Meeting(R, elms, j, it, B, m)
        invariant Trails(R, elms, i, j, from) ==> Trails(R, elms, i, j, it)
      {
        MeetStep(R, elms, j, it, B, m);
        it := it + 1;
      }
    }

    /** One comparison of the merge: newNode, the meet of x and y, goes in here or further on. */
    method OrNode(newNode: BitmapNode, x: BitmapNode, y: BitmapNode, it1: nat, ch1: bool,
                  ghost A: seq<BitmapNode>, ghost B: seq<BitmapNode>, ghost p: nat, ghost m: nat)
      returns (it: nat, next: bool, ch: bool, ghost q: nat)
      requires it1 <= |elms| && p <= |A| && m < |B| && Merging(A, B, elms, it1, p, m, ch1)
      requires x.WF() && y.WF() && x.index == y.index && newNode == AndNode(x, y) == B[m]
      modifies this`elms
      ensures next ==> it <= |elms| && p <= q <= |A| && Merging(A, B, elms, it, q, m + 1, ch)
      ensures !next ==> it <= |elms| && q == p + 1 <= |A| && Merging(A, B, elms, it, q, m, ch)
      ensures it == it1 + 1
      ensures it1 < |old(elms)| && old(elms)[it1].index < x.index ==> elms == old(elms) && !next
      ensures it1 < |old(elms)| && old(elms)[it1] in {x, y} ==> elms == old(elms) && next
    {
      hide Merging;
      if it1 == |elms| || elms[it1].index > x.index {
        MergeInsert(A, B, elms, it1, p, m, ch1);
        elms := elms[..it1] + [newNode] + elms[it1..];
        it, next, ch, q := it1 + 1, true, true, p;
      } else if elms[it1].index == x.index {
        MergeBoth(A, B, elms, it1, p, m, ch1);
        OrAbsorbs(elms[it1], x, y);
        var b, c := BitmapNodes.OrWithIntersect(elms[it1], x, y);
        elms := elms[it1 := b];
        it, next, ch, q := it1 + 1, true, ch1 || c, p + 1;
      } else {
        MergeSkip(A, B, elms, it1, p, m, ch1);
        it, next, ch, q := it1 + 1, false, ch1, p + 1;
      }
    }

    method OrWithIntersection(rhs: SparseBitmap, intersect: SparseBitmap) returns (ch: bool)
      requires Valid() && rhs.Valid() && intersect.Valid()
      modifies this
      ensures Valid()
      ensures forall x: nat :: Contains(x) <==>
                old(Contains(x)) || (old(rhs.Contains(x)) && old(intersect.Contains(x)))
      ensures ch <==> exists x: nat :: Has(old(rhs.elms), x) && Has(old(intersect.elms), x) && !Has(old(elms), x)
    {
      if rhs.elms == [] {
        return false;
      }
      ghost var A, R, I := elms, rhs.elms, intersect.elms;
      ghost var B := Meet(R, I);
      MeetChange(R, I);
      MergeStart(A, B);
      MeetStart(R, I);
      ghost var i: nat, p: nat;
      ch, i, p := OrMeets(rhs, intersect, B);
      MergeDone(A, B, elms, i, p, ch);
      curElm := 0;
    }

    /** The meet of a block of rhs and the block of the intersecting list at or after its index, unless it is empty. */
    static method MeetBlocks(x: BitmapNode, y: BitmapNode) returns (meets: bool, newNode: BitmapNode)
      requires x.WF() && y.WF() && x.index <= y.index
      ensures meets <==> x.index == y.index && !AndNode(x, y).None()
      ensures meets ==> newNode == AndNode(x, y)
    {
      if y.index > x.index {
        return false, x;
      }
      var changed;
      newNode, changed := BitmapNodes.AndAssign(x, y);
      meets := !newNode.None();
    }

    /** The outer loop. The receiver may be either operand: then no block of it changes. */
    method OrMeets(rhs: SparseBitmap, intersect: SparseBitmap, ghost B: seq<BitmapNode>)
      returns (ch: bool, ghost i: nat, ghost p: nat)
      requires Merging(elms, B, elms, 0, 0, 0, false) && Meeting(rhs.elms, intersect.elms, 0, 0, B, 0)
      modifies this`elms
      ensures i <= |elms| && p <= |old(elms)| && Merging(old(elms), B, elms, i, p, |B|, ch)
    {
      hide Meeting, Merging;
      ghost var A, R, I, m: nat := elms, rhs.elms, intersect.elms, 0;
      var it1, it2, itInt := 0, 0, 0;
      ch, p := false, 0;
      while it2 < |rhs.elms|
        invariant rhs.elms == R && intersect.elms == I
        invariant it1 <= |elms| && it2 <= |R| && itInt <= |I| && p <= |A| && m <= |B|
        invariant Merging(A, B, elms, it1, p, m, ch) && Meeting(R, I, it2, itInt, B, m)
        invariant rhs == this ==> elms == A && it1 <= it2
        invariant intersect == this ==> elms == A && Trails(R, I, it1, it2, itInt)
        decreases |R| - it2, |A| - p
      {
        itInt := intersect.SkipBelow(rhs.elms[it2].index, itInt, it1, R, it2, B, m);
        if itInt == |intersect.elms| {
          break;
        }
        MeetStep(R, I, it2, itInt, B, m);
        var meets, newNode := MeetBlocks(rhs.elms[it2], intersect.elms[itInt]);
        if !meets {
          it2 := it2 + 1;
          assert Meeting(R, I, it2, itInt, B, m);
          continue;
        }
        MeetOrder(R, I, it2, itInt, B, m, it1);
        var next;
        it1, next, ch, p := OrNode(newNode, rhs.elms[it2], intersect.elms[itInt], it1, ch, A, B, p, m);
        if next {
          it2, m := it2 + 1, m + 1;
          assert Meeting(R, I, it2, itInt, B, m);
        }
      }
      MeetEnd(R, I, it2, itInt, B, m);
      i := it1;
    }

    /** operator&=. Its result is not a change flag: see AndFlag. */
    method AndAssign(rhs: SparseBitmap) returns (ch: bool)
      requires Valid() && rhs.Valid()
      modifies this
      ensures Valid()
      ensures forall x: nat :: Contains(x) <==> old(Contains(x)) && old(rhs.Contains(x))
      ensures ch <==> AndFlag(old(elms), old(rhs.elms))
    {
      if elms == [] && rhs.elms == [] {
        return false;
      }
      ghost var A, B := elms, rhs.elms;
      CutStart(A, B);
      var it1, it2;
      ghost var p: nat;
      ch, it1, it2, p := AndKeeps(rhs);
      CutDone(A, B, elms, it1, p, it2, ch);
      MeetChange(A, B);
      if it2 < |rhs.elms| {
        assert elms[..it1] == elms;
        curElm := 0;
        return;
      }
      ch := ch || it1 == |elms|;
      elms := elms[..it1];
      curElm := 0;
    }

    /** Two blocks of one index: the receiver's keeps the shared bits, and goes when it has none. */
    method AndBlock(x: BitmapNode, it1: nat, ghost A: seq<BitmapNode>, ghost B: seq<BitmapNode>, ghost p: nat,
                    ghost j: nat, ghost before: bool)
      returns (it: nat, ch: bool)
      requires it1 < |elms| && p <= |A| && j < |B| && Cutting(A, B, elms, it1, p, j, before)
      requires x == B[j] && elms[it1].index == x.index
      modifies this`elms
      ensures it <= |elms| && p < |A| && Cutting(A, B, elms, it, p + 1, j + 1, ch)
      ensures old(elms)[it1] == x ==> elms == old(elms) && it == it1 + 1
    {
      hide Cutting;
      CutBoth(A, B, elms, it1, p, j, before);
      OrSelf(x);
      it := it1;
      var b;
      b, ch := BitmapNodes.AndAssign(elms[it], x);
      EraseWritten(elms, it, b);
      elms := elms[it := b];
      if elms[it].None() {
        elms := elms[..it] + elms[it + 1..];
      } else {
        it := it + 1;
      }
    }

    /** The loop of operator&=: it ends at the end of either list. */
    method AndKeeps(rhs: SparseBitmap) returns (ch: bool, it1: nat, it2: nat, ghost p: nat)
      requires Cutting(elms, rhs.elms, elms, 0, 0, 0, false)
      modifies this`elms
      ensures rhs.elms == old(rhs.elms)
      ensures it1 <= |elms| && it2 <= |rhs.elms| && p <= |old(elms)| && (it1 == |elms| || it2 == |rhs.elms|)
      ensures Cutting(old(elms), rhs.elms, elms, it1, p, it2, ch)
    {
      hide Cutting;
      ghost var A, B := elms, rhs.elms;
      ch, it1, it2, p := false, 0, 0, 0;
      while it2 < |rhs.elms|
        invariant rhs.elms == B && (rhs == this ==> it1 == it2 && elms == A)
        invariant it1 <= |elms| && it2 <= |B| && p <= |A| && Cutting(A, B, elms, it1, p, it2, ch)
        decreases |A| - p, |B| - it2
      {
        if it1 == |elms| {
          return;
        }
        var first, second;
        it1, first, second, ch, p := AndStep(rhs.elms[it2], it1, ch, A, B, p, it2);
        if second {
          it2 := it2 + 1;
        }
      }
    }

    /** One comparison: the smaller of the two blocks is passed over, a block of the receiver being erased; equal
        ones meet. */
    method AndStep(x: BitmapNode, it1: nat, ch1: bool, ghost A: seq<BitmapNode>, ghost B: seq<BitmapNode>,
                   ghost p: nat, ghost j: nat)
      returns (it: nat, first: bool, second: bool, ch: bool, ghost q: nat)
      requires it1 < |elms| && p <= |A| && j < |B| && x == B[j] && Cutting(A, B, elms, it1, p, j, ch1)
      modifies this`elms
      ensures it <= |elms| && q <= |A| && q == (if first then p + 1 else p) && (first || second)
      ensures Cutting(A, B, elms, it, q, if second then j + 1 else j, ch)
      ensures old(elms)[it1] == x ==> elms == old(elms) && it == it1 + 1 && first && second
    {
      hide Cutting;
      if elms[it1].index > x.index {
        CutAbove(A, B, elms, it1, p, j, ch1);
        it, first, second, ch, q := it1, false, true, ch1, p;
      } else if elms[it1].index == x.index {
        it, ch := AndBlock(x, it1, A, B, p, j, ch1);
        first, second, q := true, true, p + 1;
      } else {
        CutBelow(A, B, elms, it1, p, j, ch1);
        elms := elms[..it1] + elms[it1 + 1..];
        it, first, second, ch, q := it1, true, false, ch1, p + 1;
      }
    }

    /** operator-, or None where it goes on to read the block past the end of rhs. */
    method Minus(rhs: SparseBitmap) returns (ret: Option<SparseBitmap>)
      requires Valid() && rhs.Valid()
      ensures ret.Some? <==> rhs.elms == [] || elms == [] || elms[|elms| - 1].index <= rhs.elms[|rhs.elms| - 1].index
      ensures ret.Some? ==> fresh(ret.value) && Sorted(ret.value.elms)
      ensures ret.Some? ==> forall x: nat :: Has(ret.value.elms, x) <==> Contains(x) && !rhs.Contains(x)
      ensures ret.Some? ==> (ret.value.Valid() <==> forall k :: 0 <= k < |elms| ==> Keeps(elms[k], rhs.elms))
    {
      var ok, out := MinusList(rhs);
      var r := new SparseBitmap();
      r.elms := out;
      MinusMeans(elms, rhs.elms);
      return if ok then Some(r) else None;
    }

    method MinusList(rhs: SparseBitmap) returns (ok: bool, out: seq<BitmapNode>)
      requires Canon(elms) && Canon(rhs.elms)
      ensures ok <==> rhs.elms == [] || elms == [] || elms[|elms| - 1].index <= rhs.elms[|rhs.elms| - 1].index
      ensures ok ==> out == BitmapLists.Minus(elms, rhs.elms)
    {
      if rhs.elms == [] {
        return true, elms;
      }
      var it1, it2;
      it1, it2, out := SubtractLoop(rhs);
      SubtractDone(elms, rhs.elms, it1, it2, out);
      ok := it1 == |elms|;
    }

    /** The loop of operator-: it stops early where the source would read past the end of rhs. */
    method SubtractLoop(rhs: SparseBitmap) returns (it1: nat, it2: nat, out: seq<BitmapNode>)
      requires Canon(elms) && Canon(rhs.elms) && rhs.elms != []
      ensures it1 <= |elms| && it2 <= |rhs.elms| && Subtracting(elms, rhs.elms, it1, it2, out)
      ensures it1 < |elms| ==> it2 == |rhs.elms|
    {
      hide Subtracting;
      SubtractStart(elms, rhs.elms);
      it1, it2, out := 0, 0, [];
      while it1 < |elms|
        invariant it1 <= |elms| && it2 <= |rhs.elms| && Subtracting(elms, rhs.elms, it1, it2, out)
      {
        it2 := rhs.SkipMinus(elms[it1].index, it2, elms, it1, out);
        if it2 == |rhs.elms| {
          return;
        }
        SubtractStep(elms, rhs.elms, it1, it2, out);
        if elms[it1].index == rhs.elms[it2].index {
          out := out + [MinusNode(elms[it1], rhs.elms[it2])];
        } else {
          out := out + [elms[it1]];
        }
        it1 := it1 + 1;
      }
    }

    method SkipMinus(idx: nat, from: nat, ghost A: seq<BitmapNode>, ghost i: nat, ghost r: seq<BitmapNode>)
        returns (it: nat)
      requires i < |A| && idx == A[i].index && from <= |elms| && Subtracting(A, elms, i, from, r)
      ensures it <= |elms| && Subtracting(A, elms, i, it, r)
      ensures it < |elms| ==> idx <= elms[it].index
    {
      hide Subtracting;
      it := from;
      while it != |elms| && elms[it].index < idx
        invariant it <= |elms| && Subtracting(A, elms, i, it, r)
      {
        SubtractSkip(A, elms, i, it, r);
        it := it + 1;
      }
    }

    /** Adds ids given in ascending order, walking the list once. */
    method AddSorted(ids: seq<nat>) returns (ch: bool)
      requires Valid()
      requires forall j, k :: 0 <= j < k < |ids| ==> ids[j] <= ids[k]
      modifies this
      ensures Valid()
      ensures forall x: nat :: Contains(x) <==> x in ids || old(Contains(x))
      ensures ch <==> exists x: nat :: x in ids && !Has(old(elms), x)
    {
      hide Adding, Canon;
      ghost var A := elms;
      var it1, it2 := 0, 0;
      ch := false;
      AddingStart(A);
      assert ids[..0] == [];
      while it2 < |ids|
        invariant it1 <= |elms| && it2 <= |ids| && Adding(A, elms, ids[..it2], ch)
        invariant it2 < |ids| && it1 > 0 ==> elms[it1 - 1].index < ids[it2] / BITS_PER_FIELD
        decreases |ids| - it2, |elms| - it1
      {
        var id := ids[it2];
        ghost var was, seen := elms, ids[..it2];
        assert ids[..it2 + 1] == seen + [id];
        assert it2 + 1 < |ids| ==> id / BITS_PER_FIELD <= ids[it2 + 1] / BITS_PER_FIELD;
        if it1 == |elms| || elms[it1].index > id / BITS_PER_FIELD {
          elms := elms[..it1] + [EmptyNode(id / BITS_PER_FIELD).Put(id % BITS_PER_FIELD, true)] + elms[it1..];
          AddingInsert(A, was, seen, ch, it1, id, elms);
          it2 := it2 + 1;
          ch := true;
        } else if elms[it1].index == id / BITS_PER_FIELD {
          AddingPut(A, was, seen, ch, it1, id);
          ch := ch || !elms[it1].Test(id % BITS_PER_FIELD);
          elms := elms[it1 := elms[it1].Put(id % BITS_PER_FIELD, true)];
          it2 := it2 + 1;
        } else {
          it1 := it1 + 1;
        }
      }
      assert ids[..|ids|] == ids;
      AddingDone(A, elms, ids, ch);
      curElm := 0;
    }

    /** operator==. */
    method Equals(rhs: SparseBitmap) returns (r: bool)
      requires Valid() && rhs.Valid()
      ensures r <==> forall x: nat :: Has(elms, x) <==> Has(rhs.elms, x)
    {
      if forall x: nat :: Has(elms, x) <==> Has(rhs.elms, x) {
        SameMembers(elms, rhs.elms);
      }
      var i := 0;
      while i != |elms| && i != |rhs.elms|
        invariant i <= |elms| && i <= |rhs.elms| && elms[..i] == rhs.elms[..i]
      {
        if elms[i].index != rhs.elms[i].index {
          return false;
        }
        if elms[i].words != rhs.elms[i].words {
          return false;
        }
        i := i + 1;
      }
      return i == |elms| && i == |rhs.elms|;
    }
  }

  // ---- Hashing ----

  function HashNode(b: BitmapNode, h: Word -> bv64): bv64
    requires b.WF()
  {
    var index := (b.index % 0x1_0000_0000_0000_0000) as bv64;
    var r0 := (index << 11) ^ index;
    var r1 := (r0 ^ (r0 << 11)) ^ h(b.words[0]);
    (r1 ^ (r1 << 11)) ^ h(b.words[1])
  }

  function HashOf(s: seq<BitmapNode>, h: Word -> bv64): bv64
    requires Sorted(s)
  {
    if s == [] then 0 else HashOf(s[..|s| - 1], h) ^ HashNode(s[|s| - 1], h)
  }

  /** Bitmaps with the same ids hash alike, whatever the hash of a word is. */
  lemma SameMembersSameHash(a: seq<BitmapNode>, b: seq<BitmapNode>, h: Word -> bv64)
    requires Canon(a) && Canon(b) && forall x: nat :: Has(a, x) <==> Has(b, x)
    ensures HashOf(a, h) == HashOf(b, h)
  {
    SameMembers(a, b);
  }
}
