/** One block of a sparse bitmap: an index and an array of machine words. */
module BitmapNodes {

  const BITS_PER_SET: nat := 64
  const NUM_BITSETS: nat := 2
  const BITS_PER_FIELD: nat := 128

  /** A machine word, least significant bit first. */
  type Word = w: seq<bool> | |w| == BITS_PER_SET witness seq(BITS_PER_SET, i => false)

  // ---- Words ----

  function CountOf(w: seq<bool>): (n: nat)
    ensures n <= |w|
  {
    if w == [] then 0 else (if w[|w| - 1] then 1 else 0) + CountOf(w[..|w| - 1])
  }

  function OrWord(a: Word, b: Word): Word {
    seq(BITS_PER_SET, i requires 0 <= i < BITS_PER_SET => a[i] || b[i])
  }

  function AndWord(a: Word, b: Word): Word {
    seq(BITS_PER_SET, i requires 0 <= i < BITS_PER_SET => a[i] && b[i])
  }

  function MinusWord(a: Word, b: Word): Word {
    seq(BITS_PER_SET, i requires 0 <= i < BITS_PER_SET => a[i] && !b[i])
  }

  predicate NoneWord(a: Word) {
    forall i :: 0 <= i < BITS_PER_SET ==> !a[i]
  }

  /** Dropping bits lowers the count unless nothing was dropped. */
  lemma {:induction false} CountDrops(a: seq<bool>, b: seq<bool>)
    requires |a| == |b| && forall i :: 0 <= i < |a| && b[i] ==> a[i]
    ensures CountOf(b) <= CountOf(a) && (CountOf(b) == CountOf(a) <==> b == a)
  {
    if a != [] {
      var k := |a| - 1;
      CountDrops(a[..k], b[..k]);
      assert a == a[..k] + [a[k]] && b == b[..k] + [b[k]];
    }
  }

  // ---- Blocks ----

  datatype BitmapNode = BitmapNode(index: nat, words: seq<Word>) {
    predicate WF() {
      |words| == NUM_BITSETS
    }

    predicate Test(offs: nat)
      requires WF() && offs < BITS_PER_FIELD
    {
      words[offs / BITS_PER_SET][offs % BITS_PER_SET]
    }

    function Put(offs: nat, bit: bool): BitmapNode
      requires WF() && offs < BITS_PER_FIELD
    {
      BitmapNode(index, words[offs / BITS_PER_SET := words[offs / BITS_PER_SET][offs % BITS_PER_SET := bit]])
    }

    predicate None()
      requires WF()
    {
      forall k :: 0 <= k < NUM_BITSETS ==> NoneWord(words[k])
    }
  }

  function EmptyNode(index: nat): (b: BitmapNode)
    ensures b.WF()
  {
    BitmapNode(index, seq(NUM_BITSETS, k => seq(BITS_PER_SET, i => false)))
  }

  /** What a block says about an id of the whole bitmap. */
  predicate Holds(b: BitmapNode, id: nat) {
    b.WF() && b.index == id / BITS_PER_FIELD && b.Test(id % BITS_PER_FIELD)
  }

  lemma PutHolds(b: BitmapNode, id: nat, bit: bool, x: nat)
    requires b.WF() && b.index == id / BITS_PER_FIELD
    ensures b.Put(id % BITS_PER_FIELD, bit).WF() && b.Put(id % BITS_PER_FIELD, bit).index == b.index
    ensures Holds(b.Put(id % BITS_PER_FIELD, bit), x) <==> if x == id then bit else Holds(b, x)
  {
    var o, p := id % BITS_PER_FIELD, x % BITS_PER_FIELD;
    if x / BITS_PER_FIELD == id / BITS_PER_FIELD && x != id {
      assert o != p;
      assert o / BITS_PER_SET != p / BITS_PER_SET || o % BITS_PER_SET != p % BITS_PER_SET;
    }
  }

  lemma NoneHolds(b: BitmapNode)
    requires b.WF()
    ensures b.None() <==> forall x :: !Holds(b, x)
  {
    forall k, i | 0 <= k < NUM_BITSETS && 0 <= i < BITS_PER_SET && b.words[k][i]
      ensures Holds(b, b.index * BITS_PER_FIELD + k * BITS_PER_SET + i)
    {
      WordPosition(b.index, k, i);
    }
  }

  /** Where bit i of word k of block index sits in the bitmap. */
  lemma WordPosition(index: nat, k: nat, i: nat)
    requires k < NUM_BITSETS && i < BITS_PER_SET
    ensures var id := index * BITS_PER_FIELD + k * BITS_PER_SET + i;
            && id / BITS_PER_FIELD == index && (id % BITS_PER_FIELD) / BITS_PER_SET == k
                && (id % BITS_PER_FIELD) % BITS_PER_SET == i
  {
    var id := index * BITS_PER_FIELD + k * BITS_PER_SET + i;
    var o := k * BITS_PER_SET + i;
    assert id / 128 == index && id % 128 == o;
    assert o / 64 == k && o % 64 == i;
  }

  function OrNode(a: BitmapNode, b: BitmapNode): (r: BitmapNode)
    requires a.WF() && b.WF()
    ensures r.WF()
  {
    BitmapNode(a.index, seq(NUM_BITSETS, k requires 0 <= k < NUM_BITSETS => OrWord(a.words[k], b.words[k])))
  }

  function AndNode(a: BitmapNode, b: BitmapNode): (r: BitmapNode)
    requires a.WF() && b.WF()
    ensures r.WF()
  {
    BitmapNode(a.index, seq(NUM_BITSETS, k requires 0 <= k < NUM_BITSETS => AndWord(a.words[k], b.words[k])))
  }

  function MinusNode(a: BitmapNode, b: BitmapNode): (r: BitmapNode)
    requires a.WF() && b.WF()
    ensures r.WF()
  {
    BitmapNode(a.index, seq(NUM_BITSETS, k requires 0 <= k < NUM_BITSETS => MinusWord(a.words[k], b.words[k])))
  }

  lemma NodeOps(a: BitmapNode, b: BitmapNode, x: nat)
    requires a.WF() && b.WF() && a.index == b.index
    ensures Holds(OrNode(a, b), x) <==> Holds(a, x) || Holds(b, x)
    ensures Holds(AndNode(a, b), x) <==> Holds(a, x) && Holds(b, x)
    ensures Holds(MinusNode(a, b), x) <==> Holds(a, x) && !Holds(b, x)
  {
  }

  lemma OrSelf(a: BitmapNode)
    requires a.WF()
    ensures OrNode(a, a) == a && AndNode(a, a) == a
  {
    forall k | 0 <= k < NUM_BITSETS
      ensures OrWord(a.words[k], a.words[k]) == a.words[k] == AndWord(a.words[k], a.words[k])
    {
    }
    assert OrNode(a, a).words == a.words == AndNode(a, a).words;
  }

  lemma OrAbsorbs(a: BitmapNode, b: BitmapNode, c: BitmapNode)
    requires a.WF() && b.WF() && c.WF()
    ensures a == b || a == c ==> OrNode(a, AndNode(b, c)) == a
  {
    if a == b || a == c {
      forall k | 0 <= k < NUM_BITSETS ensures OrWord(a.words[k], AndWord(b.words[k], c.words[k])) == a.words[k] {
      }
      assert OrNode(a, AndNode(b, c)).words == a.words;
    }
  }

  /** Blocks of one index that hold the same ids are equal. */
  lemma SameBits(a: BitmapNode, b: BitmapNode)
    requires a.WF() && b.WF() && a.index == b.index && forall x :: Holds(a, x) <==> Holds(b, x)
    ensures a == b
  {
    forall k, i | 0 <= k < NUM_BITSETS && 0 <= i < BITS_PER_SET ensures a.words[k][i] == b.words[k][i] {
      WordPosition(a.index, k, i);
      var id := a.index * BITS_PER_FIELD + k * BITS_PER_SET + i;
      assert Holds(a, id) <==> Holds(b, id);
    }
    assert a.words[0] == b.words[0] && a.words[1] == b.words[1];
    assert a.words == b.words;
  }

  /** operator|= on blocks: the flag says whether the receiver changed. */
  method OrAssign(a: BitmapNode, b: BitmapNode) returns (r: BitmapNode, ch: bool)
    requires a.WF() && b.WF() && a.index == b.index
    ensures r == OrNode(a, b) && ch == (r != a)
  {
    r, ch := a, false;
    for k := 0 to NUM_BITSETS
      invariant r.WF() && r.index == a.index
      invariant forall m :: 0 <= m < NUM_BITSETS ==>
                  r.words[m] == if m < k then OrWord(a.words[m], b.words[m]) else a.words[m]
      invariant ch <==> exists m :: 0 <= m < k && OrWord(a.words[m], b.words[m]) != a.words[m]
    {
      var c1 := r.words[k];
      r := r.(words := r.words[k := OrWord(c1, b.words[k])]);
      ch := ch || c1 != r.words[k];
    }
    assert r.words == OrNode(a, b).words;
  }

  /** operator&= on blocks detects a change by counting bits. */
  method AndAssign(a: BitmapNode, b: BitmapNode) returns (r: BitmapNode, ch: bool)
    requires a.WF() && b.WF()
    ensures a.index != b.index ==> r == a && !ch
    ensures a.index == b.index ==> r == AndNode(a, b) && ch == (r != a)
  {
    r, ch := a, false;
    if b.index != a.index {
      return;
    }
    for k := 0 to NUM_BITSETS
      invariant r.WF() && r.index == a.index
      invariant forall m :: 0 <= m < NUM_BITSETS ==>
                  r.words[m] == if m < k then AndWord(a.words[m], b.words[m]) else a.words[m]
      invariant ch <==> exists m :: 0 <= m < k && AndWord(a.words[m], b.words[m]) != a.words[m]
    {
      var c1 := CountOf(r.words[k]);
      CountDrops(a.words[k], AndWord(a.words[k], b.words[k]));
      r := r.(words := r.words[k := AndWord(r.words[k], b.words[k])]);
      ch := ch || c1 != CountOf(r.words[k]);
    }
    assert r.words == AndNode(a, b).words;
  }

  /** orWithIntersect on blocks. */
  method OrWithIntersect(a: BitmapNode, b: BitmapNode, c: BitmapNode) returns (r: BitmapNode, ch: bool)
    requires a.WF() && b.WF() && c.WF() && a.index == b.index == c.index
    ensures r == OrNode(a, AndNode(b, c)) && ch == (r != a)
  {
    r, ch := a, false;
    for k := 0 to NUM_BITSETS
      invariant r.WF() && r.index == a.index
      invariant forall m :: 0 <= m < NUM_BITSETS ==>
                  r.words[m] == if m < k then OrWord(a.words[m], AndWord(b.words[m], c.words[m])) else a.words[m]
      invariant ch <==> exists m :: 0 <= m < k && OrWord(a.words[m], AndWord(b.words[m], c.words[m])) != a.words[m]
    {
      var c1 := r.words[k];
      r := r.(words := r.words[k := OrWord(c1, AndWord(b.words[k], c.words[k]))]);
      ch := ch || c1 != r.words[k];
    }
    assert r.words == OrNode(a, AndNode(b, c)).words;
  }
}
