/** Iteration over a sparse bitmap: find the first set bit of a word, shift it out, go on to the next word or block. */
module BitmapIterators {
  import opened BitmapNodes
  import opened BitmapLists
  import opened Seals
  import SparseBitmaps

  // ---- The ids of a word, a block and a list, in order ----

  /** The set bits of w from position i on, bit k standing for the id base + k. */
  function BitsFrom(w: seq<bool>, i: nat, base: nat): seq<nat>
    requires i <= |w|
    decreases |w| - i
  {
    if i == |w| then [] else (if w[i] then [base + i] else []) + BitsFrom(w, i + 1, base)
  }

  function Bits(w: seq<bool>, base: nat): seq<nat> {
    BitsFrom(w, 0, base)
  }

  function WordsFrom(b: BitmapNode, k: nat): seq<nat>
    requires b.WF() && k <= NUM_BITSETS
    decreases NUM_BITSETS - k
  {
    if k == NUM_BITSETS then [] else Bits(b.words[k], WordBase(b, k)) + WordsFrom(b, k + 1)
  }

  function WordBase(b: BitmapNode, k: nat): nat {
    k * BITS_PER_SET + b.index * BITS_PER_FIELD
  }

  function Members(s: seq<BitmapNode>): seq<nat>
    requires Sorted(s)
  {
    if s == [] then [] else WordsFrom(s[0], 0) + Members(s[1..])
  }

  /** Strictly increasing, from lo up to but not including hi. */
  predicate Ascending(ids: seq<nat>, lo: nat, hi: nat) {
    && (forall k :: 0 <= k < |ids| ==> lo <= ids[k] < hi)
    && (forall j, k :: 0 <= j < k < |ids| ==> ids[j] < ids[k])
  }

  lemma AscendingJoin(a: seq<nat>, b: seq<nat>, lo: nat, mid: nat, hi: nat)
    requires lo <= mid <= hi && Ascending(a, lo, mid) && Ascending(b, mid, hi)
    ensures Ascending(a + b, lo, hi)
  {
  }

  lemma {:induction false} BitsAscending(w: seq<bool>, i: nat, base: nat)
    requires i <= |w|
    ensures Ascending(BitsFrom(w, i, base), base + i, base + |w|)
    ensures forall x :: x in BitsFrom(w, i, base) <==> base + i <= x < base + |w| && w[x - base]
    decreases |w| - i
  {
    if i < |w| {
      BitsAscending(w, i + 1, base);
      AscendingJoin(if w[i] then [base + i] else [], BitsFrom(w, i + 1, base), base + i, base + i + 1, base + |w|);
    }
  }

  lemma BlockAscending(b: BitmapNode)
    requires b.WF()
    ensures Ascending(WordsFrom(b, 0), b.index * BITS_PER_FIELD, (b.index + 1) * BITS_PER_FIELD)
    ensures forall x: nat :: x in WordsFrom(b, 0) <==> Holds(b, x)
  {
    hide BitsFrom, Ascending;
    var lo, mid, hi := WordBase(b, 0), WordBase(b, 1), (b.index + 1) * BITS_PER_FIELD;
    var u, v := Bits(b.words[0], lo), Bits(b.words[1], mid);
    BitsAscending(b.words[0], 0, lo);
    BitsAscending(b.words[1], 0, mid);
    AscendingJoin(u, v, lo, mid, hi);
    assert WordsFrom(b, 1) == v + WordsFrom(b, 2) == v;
    assert WordsFrom(b, 0) == u + v;
    forall x: nat ensures x in WordsFrom(b, 0) <==> Holds(b, x) {
      if lo <= x < mid {
        WordPosition(b.index, 0, x - lo);
      } else if mid <= x < hi {
        WordPosition(b.index, 1, x - mid);
      } else {
        assert x / 128 != b.index;
      }
    }
  }

  /** Members lists exactly the ids of the bitmap, in strictly increasing order, so each once. */
  lemma {:induction false} MembersAscending(s: seq<BitmapNode>, n: nat) returns (hi: nat)
    requires Sorted(s) && AllFrom(s, n)
    ensures n * BITS_PER_FIELD <= hi && Ascending(Members(s), n * BITS_PER_FIELD, hi)
    ensures forall x: nat :: x in Members(s) <==> Has(s, x)
  {
    if s == [] {
      hi := n * BITS_PER_FIELD;
    } else {
      CanonTail(s);
      var m := s[0].index + 1;
      hi := MembersAscending(s[1..], m);
      BlockAscending(s[0]);
      AscendingJoin(WordsFrom(s[0], 0), Members(s[1..]), n * BITS_PER_FIELD, m * BITS_PER_FIELD, hi);
      forall x: nat ensures x in Members(s) <==> Has(s, x) {
        HasSplit(s, x);
      }
    }
  }

  // ---- Machine words ----

  /** One plus the position of the first set bit at or after i, or zero. */
  function FirstFrom(w: seq<bool>, i: nat): (n: nat)
    requires i <= |w|
    ensures n <= |w| && (n == 0 || n > i)
    decreases |w| - i
  {
    if i == |w| then 0 else if w[i] then i + 1 else FirstFrom(w, i + 1)
  }

  /** __builtin_ffsl: one plus the position of the least set bit, or zero. */
  function FirstSet(w: seq<bool>): (n: nat)
    ensures n <= |w|
  {
    FirstFrom(w, 0)
  }

  lemma {:induction false} FirstMeans(w: seq<bool>, i: nat)
    requires i <= |w|
    ensures var n := FirstFrom(w, i);
            if n == 0 then forall k :: i <= k < |w| ==> !w[k] else w[n - 1] && forall k :: i <= k < n - 1 ==> !w[k]
    decreases |w| - i
  {
    if i < |w| && !w[i] { FirstMeans(w, i + 1); }
  }

  function Zeros(n: nat): seq<bool> {
    seq(n, i => false)
  }

  function ShiftRight(w: Word, n: nat): Word
    requires n < BITS_PER_SET
  {
    w[n..] + Zeros(n)
  }

  /** v is w shifted right by f: its bits are those of w from f on. */
  lemma {:induction false} BitsShifted(w: seq<bool>, v: seq<bool>, f: nat, i: nat, base: nat)
    requires |v| == |w| && f <= |w| && i <= |v|
    requires forall k {:trigger v[k]} :: 0 <= k < |v| ==> v[k] == (f + k < |w| && w[f + k])
    ensures BitsFrom(v, i, base + f) == if f + i <= |w| then BitsFrom(w, f + i, base) else []
    decreases |v| - i
  {
    if i < |v| {
      BitsShifted(w, v, f, i + 1, base);
      if v[i] {
        assert BitsFrom(v, i, base + f) == [base + f + i] + BitsFrom(v, i + 1, base + f);
      } else {
        assert BitsFrom(v, i, base + f) == BitsFrom(v, i + 1, base + f);
      }
    }
  }

  /** Taking the first set bit out of a word. */
  lemma {:induction false} BitsFirst(w: seq<bool>, i: nat, base: nat)
    requires i <= |w|
    ensures FirstFrom(w, i) == 0 ==> BitsFrom(w, i, base) == []
    ensures FirstFrom(w, i) > 0 ==>
              BitsFrom(w, i, base) == [base + FirstFrom(w, i) - 1] + BitsFrom(w, FirstFrom(w, i), base)
    decreases |w| - i
  {
    if i < |w| && !w[i] {
      BitsFirst(w, i + 1, base);
      assert BitsFrom(w, i, base) == BitsFrom(w, i + 1, base);
    }
  }

  /** The word that is left when the bits up to the first set one are shifted out. */
  function ShiftedOut(w: Word): Word {
    if FirstSet(w) == BITS_PER_SET then Zeros(BITS_PER_SET) else ShiftRight(w, FirstSet(w))
  }

  lemma BitsTake(w: Word, base: nat)
    ensures var f := FirstSet(w);
            Bits(w, base) == if f == 0 then [] else [base + f - 1] + Bits(ShiftedOut(w), base + f)
  {
    hide BitsFrom, FirstFrom, ShiftedOut;
    BitsFirst(w, 0, base);
    if FirstSet(w) > 0 {
      BitsLeft(w, base);
    }
  }

  lemma BitsLeft(w: Word, base: nat)
    requires FirstSet(w) > 0
    ensures Bits(ShiftedOut(w), base + FirstSet(w)) == BitsFrom(w, FirstSet(w), base)
  {
    hide BitsFrom, FirstFrom;
    BitsShifted(w, ShiftedOut(w), FirstSet(w), 0, base);
  }

  // ---- What is left of an iteration ----

  /** The ids still to come when val is what is left of word shift of block it, pos bits of it being gone. */
  ghost function RestOf(bl: seq<BitmapNode>, it: nat, shift: nat, pos: nat, val: Word): seq<nat>
    requires Sorted(bl) && it < |bl| && shift < NUM_BITSETS
  {
    Bits(val, pos + WordBase(bl[it], shift)) + WordsFrom(bl[it], shift + 1) + Members(bl[it + 1..])
  }

  lemma RestStart(bl: seq<BitmapNode>)
    requires Sorted(bl) && bl != []
    ensures RestOf(bl, 0, 0, 0, bl[0].words[0]) == Members(bl)
  {
    assert bl[0 + 1..] == bl[1..];
    assert WordsFrom(bl[0], 0) == Bits(bl[0].words[0], WordBase(bl[0], 0)) + WordsFrom(bl[0], 1);
  }

  lemma RestNextWord(bl: seq<BitmapNode>, it: nat, pos: nat, val: Word)
    requires Sorted(bl) && it < |bl| && FirstSet(val) == 0
    ensures RestOf(bl, it, 0, pos, val) == RestOf(bl, it, 1, 0, bl[it].words[1])
  {
    BitsTake(val, pos + WordBase(bl[it], 0));
    assert WordsFrom(bl[it], 1) == Bits(bl[it].words[1], WordBase(bl[it], 1)) + WordsFrom(bl[it], 2);
  }

  lemma RestNextBlock(bl: seq<BitmapNode>, it: nat, pos: nat, val: Word)
    requires Sorted(bl) && it < |bl| && FirstSet(val) == 0
    ensures it + 1 < |bl| ==> RestOf(bl, it, 1, pos, val) == RestOf(bl, it + 1, 0, 0, bl[it + 1].words[0])
    ensures it + 1 == |bl| ==> RestOf(bl, it, 1, pos, val) == []
  {
    hide Bits, Members;
    BitsTake(val, pos + WordBase(bl[it], 1));
    assert WordsFrom(bl[it], 2) == [];
    var rest := bl[it + 1..];
    assert RestOf(bl, it, 1, pos, val) == [] + [] + Members(rest) == Members(rest);
    if it + 1 < |bl| {
      RestStart(rest);
      assert rest[0] == bl[it + 1] && rest[1..] == bl[it + 2..];
    } else {
      NoMembers();
    }
  }

  lemma NoMembers()
    ensures Members([]) == []
  {
  }

  lemma RestTake(bl: seq<BitmapNode>, it: nat, shift: nat, pos: nat, val: Word)
    requires Sorted(bl) && it < |bl| && shift < NUM_BITSETS && FirstSet(val) != 0
    ensures var f := FirstSet(val);
            RestOf(bl, it, shift, pos, val) == [pos + f - 1 + WordBase(bl[it], shift)]
                + RestOf(bl, it, shift, pos + f, ShiftedOut(val))
  {
    hide Bits, WordsFrom, Members, FirstSet, ShiftedOut;
    var f := FirstSet(val);
    var b := pos + WordBase(bl[it], shift);
    BitsTake(val, b);
    Rotate(b + f - 1, Bits(ShiftedOut(val), b + f), WordsFrom(bl[it], shift + 1), Members(bl[it + 1..]));
  }

  lemma Rotate<T>(x: T, a: seq<T>, b: seq<T>, c: seq<T>)
    ensures ([x] + a) + b + c == [x] + (a + b + c)
  {
  }

  ghost predicate Left(bl: seq<BitmapNode>, it: nat, shift: nat, pos: nat, val: Word, r: seq<nat>) {
    forall k {:trigger Unfold(LeftSeal, k)} :: Unfold(LeftSeal, k) ==>
      Sorted(bl) && it < |bl| && shift < NUM_BITSETS && RestOf(bl, it, shift, pos, val) == r
  }

  lemma LeftStart(bl: seq<BitmapNode>, it: nat, shift: nat, pos: nat, val: Word)
    requires Sorted(bl) && it < |bl| && shift < NUM_BITSETS
    ensures Left(bl, it, shift, pos, val, RestOf(bl, it, shift, pos, val))
  {
  }

  lemma LeftDone(bl: seq<BitmapNode>, it: nat, shift: nat, pos: nat, val: Word, r: seq<nat>)
    requires Sorted(bl) && it < |bl| && shift < NUM_BITSETS && Left(bl, it, shift, pos, val, r)
    ensures RestOf(bl, it, shift, pos, val) == r
  {
    assert Unfold(LeftSeal, 0);
  }

  /** Past a word that is zero. */
  lemma LeftNext(bl: seq<BitmapNode>, it: nat, shift: nat, pos: nat, val: Word, r: seq<nat>)
    requires it < |bl| && shift < NUM_BITSETS && FirstSet(val) == 0 && Left(bl, it, shift, pos, val, r)
    ensures bl[it].WF() && (it + 1 < |bl| ==> bl[it + 1].WF())
    ensures shift == 0 ==> Left(bl, it, 1, 0, bl[it].words[1], r)
    ensures shift == 1 && it + 1 < |bl| ==> Left(bl, it + 1, 0, 0, bl[it + 1].words[0], r)
    ensures shift == 1 && it + 1 == |bl| ==> r == []
  {
    assert Unfold(LeftSeal, 0);
    if shift == 0 { RestNextWord(bl, it, pos, val); } else { RestNextBlock(bl, it, pos, val); }
  }
  // ---- The iterator ----

  class BitmapIterator {
    const bl: seq<BitmapNode>
    var it: nat
    var end: bool
    var bsPos: nat
    var bsVal: Word
    var bsShift: nat

    predicate Valid()
      reads this
    {
      Canon(bl) && if end then bsPos == 0 else it < |bl| && bsShift < NUM_BITSETS && bsPos > 0
    }

    /** operator== */
    predicate Equal(other: BitmapIterator)
      reads this, other
    {
      end == other.end || (it == other.it && bsPos == other.bsPos && bsShift == other.bsShift)
    }

    /** Both have ended or both stand at the same id. */
    ghost predicate SamePlace(other: BitmapIterator)
      requires Valid() && other.Valid()
      reads this, other
    {
      end == other.end && (!end ==> Current() == other.Current())
    }

    /** The comparison tells only whether both have ended: it is right exactly when one of them has, or when
        they stand at the same id. */
    lemma EqualMeans(other: BitmapIterator)
      requires Valid() && other.Valid() && bl == other.bl
      ensures Equal(other) <==> end == other.end
      ensures (Equal(other) <==> SamePlace(other)) <==> end || other.end || Current() == other.Current()
    {
    }

    /** operator*: positions count from one. */
    function Current(): nat
      requires Valid() && !end
      reads this
    {
      bsPos - 1 + bsShift * BITS_PER_SET + bl[it].index * BITS_PER_FIELD
    }

    /** The ids still to come. */
    ghost function Rest(): seq<nat>
      requires Sorted(bl) && it < |bl| && bsShift < NUM_BITSETS
      reads this
    {
      RestOf(bl, it, bsShift, bsPos, bsVal)
    }

    constructor (bl: seq<BitmapNode>, end: bool)
      requires Canon(bl)
      ensures Valid() && this.bl == bl && (this.end <==> end || bl == [])
      ensures !this.end ==> [Current()] + Rest() == Members(bl)
    {
      this.bl, it, this.end, bsPos, bsShift := bl, 0, end, 0, 0;
      bsVal := Zeros(BITS_PER_SET);
      new;
      GetFirstBit();
    }

    method GetFirstBit()
      requires Canon(bl) && bsShift == 0 && bsPos == 0
      modifies this
      ensures Valid() && (end <==> old(end) || bl == [])
      ensures !end ==> [Current()] + Rest() == Members(bl)
    {
      hide RestOf, Members;
      if end {
        return;
      }
      if bl == [] {
        end := true;
        return;
      }
      it := 0;
      bsPos := 0;
      bsVal := bl[it].words[bsShift];
      RestStart(bl);
      FirstWords(bl[0]);
      while FirstSet(bsVal) == 0
        invariant it == 0 && !end && bsPos == 0 && bsShift < NUM_BITSETS && bsVal == bl[0].words[bsShift]
        invariant bsShift == 0 || FirstSet(bl[0].words[0]) == 0
        invariant Rest() == Members(bl)
        decreases NUM_BITSETS - bsShift
      {
        RestNextWord(bl, it, bsPos, bsVal);
        bsShift := bsShift + 1;
        bsVal := bl[it].words[bsShift];
      }
      bsPos := 0;
      NextBsPos();
    }

    method NextBsPos()
      requires Sorted(bl) && it < |bl| && bsShift < NUM_BITSETS && FirstSet(bsVal) != 0
      modifies this`bsVal, this`bsPos
      ensures bsPos > 0
      ensures [bsPos - 1 + WordBase(bl[it], bsShift)] + Rest() == old(Rest())
    {
      var val := FirstSet(bsVal);
      RestTake(bl, it, bsShift, bsPos, bsVal);
      if val == BITS_PER_SET {
        bsVal := Zeros(BITS_PER_SET);
      } else {
        bsVal := ShiftRight(bsVal, val);
      }
      bsPos := bsPos + val;
    }

    /** operator++. */
    method AdvanceBit()
      requires Valid()
      modifies this
      ensures Valid()
      ensures old(end) ==> end
      ensures !old(end) ==> (end <==> old(Rest()) == [])
      ensures !old(end) && !end ==> [Current()] + Rest() == old(Rest())
    {
      hide RestOf, Sorted;
      if end {
        return;
      }
      NextWord();
      if end {
        return;
      }
      NextBsPos();
    }

    /** On to the next word that is not zero, past the end of a block if need be. */
    method NextWord()
      requires Sorted(bl) && !end && it < |bl| && bsShift < NUM_BITSETS
      modifies this
      ensures it <= |bl| && bsShift < NUM_BITSETS
      ensures end ==> old(Rest()) == [] && bsPos == 0
      ensures !end ==> it < |bl| && FirstSet(bsVal) != 0 && Rest() == old(Rest())
    {
      LeftStart(bl, it, bsShift, bsPos, bsVal);
      NextNonZero(Rest());
      if !end {
        LeftDone(bl, it, bsShift, bsPos, bsVal, old(Rest()));
      }
    }

    method NextNonZero(ghost r: seq<nat>)
      requires !end && it < |bl| && bsShift < NUM_BITSETS && Left(bl, it, bsShift, bsPos, bsVal, r)
      modifies this
      ensures it <= |bl| && bsShift < NUM_BITSETS && (end ==> r == [] && bsPos == 0)
      ensures !end ==> it < |bl| && FirstSet(bsVal) != 0 && Left(bl, it, bsShift, bsPos, bsVal, r)
    {
      hide Left;
      while FirstSet(bsVal) == 0
        invariant !end && it < |bl| && bsShift < NUM_BITSETS && Left(bl, it, bsShift, bsPos, bsVal, r)
        decreases |bl| - it, NUM_BITSETS - bsShift
      {
        LeftNext(bl, it, bsShift, bsPos, bsVal, r);
        bsPos := 0;
        if bsShift == NUM_BITSETS - 1 {
          it := it + 1;
          if it == |bl| {
            end := true;
            return;
          }
          bsShift := 0;
          bsVal := bl[it].words[bsShift];
          assert Left(bl, it, bsShift, bsPos, bsVal, r);
        } else {
          bsShift := bsShift + 1;
          bsVal := bl[it].words[bsShift];
          assert Left(bl, it, bsShift, bsPos, bsVal, r);
        }
      }
    }
  }

  /** A block with a bit has a word that is not zero. */
  lemma FirstWords(b: BitmapNode)
    requires b.WF() && !b.None()
    ensures FirstSet(b.words[0]) != 0 || FirstSet(b.words[1]) != 0
  {
    FirstMeans(b.words[0], 0);
    FirstMeans(b.words[1], 0);
  }

  /** A full traversal. */
  method Iterate(s: SparseBitmaps.SparseBitmap) returns (out: seq<nat>)
    requires s.Valid()
    ensures out == Members(s.elms)
  {
    hide RestOf, Sorted;
    var i := new BitmapIterator(s.elms, false);
    out := [];
    while !i.end
      invariant fresh(i) && i.Valid()
      invariant i.end ==> out == Members(s.elms)
      invariant !i.end ==> out + ([i.Current()] + i.Rest()) == Members(s.elms)
      decreases !i.end, if i.end then 0 else |i.Rest()|
    {
      ghost var r := i.Rest();
      assert out + ([i.Current()] + r) == (out + [i.Current()]) + r;
      out := out + [i.Current()];
      i.AdvanceBit();
      assert i.end ==> out + [] == out;
    }
  }

  /** Adding what an iteration yields to an empty bitmap gives back the same bitmap. */
  method Rebuild(s: SparseBitmaps.SparseBitmap) returns (t: SparseBitmaps.SparseBitmap)
    requires s.Valid()
    ensures t.Valid() && t.elms == s.elms
  {
    var ids := Iterate(s);
    ghost var _ := MembersAscending(s.elms, 0);
    t := new SparseBitmaps.SparseBitmap();
    var _ := t.AddSorted(ids);
    SameMembers(t.elms, s.elms);
  }

  lemma TwoMembers(s: seq<BitmapNode>)
    requires Canon(s) && |Members(s)| >= 2
    ensures s != [] && Members(s)[0] != Members(s)[1]
  {
    var _ := MembersAscending(s, 0);
  }

  /** In any bitmap with two ids, begin() and its successor stand at different ids and compare equal. */
  method EqualTooSoon(s: SparseBitmaps.SparseBitmap) returns (i: BitmapIterator, j: BitmapIterator)
    requires s.Valid() && |Members(s.elms)| >= 2
    ensures i.Valid() && j.Valid() && !i.end && !j.end && i.bl == j.bl == s.elms
    ensures i.Current() == Members(s.elms)[0] && j.Current() == Members(s.elms)[1]
    ensures i.Current() != j.Current() && i.Equal(j)
  {
    hide RestOf, Members;
    TwoMembers(s.elms);
    i := new BitmapIterator(s.elms, false);
    j := new BitmapIterator(s.elms, false);
    ghost var r := j.Rest();
    j.AdvanceBit();
    assert Members(s.elms) == [i.Current()] + r;
    assert r[0] == ([i.Current()] + r)[1];
  }
}
