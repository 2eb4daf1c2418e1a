/** Block lists of a sparse bitmap as values: which ids they hold, and the merges by recursion. */
module BitmapLists {
  import opened BitmapNodes

  /** Strictly increasing indexes and no block without a bit. */
  predicate Sorted(s: seq<BitmapNode>) {
    && (forall k :: 0 <= k < |s| ==> s[k].WF())
    && (forall j, k :: 0 <= j < k < |s| ==> s[j].index < s[k].index)
  }

  predicate Canon(s: seq<BitmapNode>) {
    Sorted(s) && forall k {:trigger s[k].None()} :: 0 <= k < |s| ==> !s[k].None()
  }

  predicate Has(s: seq<BitmapNode>, id: nat) {
    exists k :: 0 <= k < |s| && Holds(s[k], id)
  }

  predicate AllFrom(s: seq<BitmapNode>, n: int) {
    forall k :: 0 <= k < |s| ==> n <= s[k].index
  }

  lemma CanonCons(b: BitmapNode, s: seq<BitmapNode>, n: int)
    requires b.WF() && Sorted(s) && n <= b.index && AllFrom(s, b.index + 1)
    ensures Sorted([b] + s) && AllFrom([b] + s, n)
    ensures Canon(s) && !b.None() ==> Canon([b] + s)
  {
    var t := [b] + s;
    assert forall k :: 0 < k < |t| ==> t[k] == s[k - 1];
  }

  lemma CanonTail(s: seq<BitmapNode>)
    requires Sorted(s) && s != []
    ensures Sorted(s[1..]) && AllFrom(s[1..], s[0].index + 1)
    ensures Canon(s) ==> Canon(s[1..]) && !s[0].None()
  {
  }

  lemma CanonAt(s: seq<BitmapNode>, i: nat, b: BitmapNode)
    requires Canon(s) && i < |s| && b.WF() && !b.None() && s[i].index == b.index
    ensures Canon(s[i := b])
  {
  }

  lemma CanonInsert(s: seq<BitmapNode>, i: nat, b: BitmapNode)
    requires Canon(s) && i <= |s| && b.WF() && !b.None()
    requires i > 0 ==> s[i - 1].index < b.index
    requires i < |s| ==> b.index < s[i].index
    ensures Canon(s[..i] + [b] + s[i..])
  {
    var t := s[..i] + [b] + s[i..];
    assert forall k :: 0 <= k < i ==> t[k] == s[k];
    assert forall k {:trigger t[k]} :: i < k < |t| ==> t[k] == s[k - 1];
    forall j, k | 0 <= j < k < |t| ensures t[j].index < t[k].index {
      if j == i { assert t[k].index == s[k - 1].index >= s[i].index; }
      if k == i { assert t[j].index == s[j].index <= s[i - 1].index; }
    }
  }

  lemma CanonErase(s: seq<BitmapNode>, i: nat)
    requires Canon(s) && i < |s|
    ensures Canon(s[..i] + s[i + 1..])
  {
    var t := s[..i] + s[i + 1..];
    assert forall k {:trigger t[k]} :: 0 <= k < |t| ==> t[k] == if k < i then s[k] else s[k + 1];
  }

  lemma HasCons(b: BitmapNode, s: seq<BitmapNode>, id: nat)
    ensures Has([b] + s, id) <==> Holds(b, id) || Has(s, id)
  {
    var t := [b] + s;
    assert forall k :: 0 <= k < |s| ==> t[k + 1] == s[k];
    if Holds(b, id) { assert Holds(t[0], id); }
    if Has(s, id) {
      var k :| 0 <= k < |s| && Holds(s[k], id);
      assert Holds(t[k + 1], id);
    }
    if Has(t, id) {
      var k :| 0 <= k < |t| && Holds(t[k], id);
      if k > 0 { assert Holds(s[k - 1], id); }
    }
  }

  lemma HasSplit(s: seq<BitmapNode>, id: nat)
    requires s != []
    ensures Has(s, id) <==> Holds(s[0], id) || Has(s[1..], id)
  {
    HasCons(s[0], s[1..], id);
    assert s == [s[0]] + s[1..];
  }

  lemma HasAt(s: seq<BitmapNode>, i: nat, b: BitmapNode, id: nat)
    requires i < |s|
    ensures Has(s[i := b], id) <==> Holds(b, id) || Has(s[..i], id) || Has(s[i + 1..], id)
    ensures Has(s, id) <==> Holds(s[i], id) || Has(s[..i], id) || Has(s[i + 1..], id)
    ensures Has(s[..i] + s[i + 1..], id) <==> Has(s[..i], id) || Has(s[i + 1..], id)
  {
    HasJoin(s[..i] + [b], s[i + 1..], id);
    HasJoin(s[..i], [b], id);
    HasJoin(s[..i], s[i..], id);
    HasJoin(s[..i], s[i + 1..], id);
    HasSplit(s[i..], id);
    HasCons(b, [], id);
    assert s[i := b] == s[..i] + [b] + s[i + 1..];
    assert s == s[..i] + s[i..];
    assert s[i..][1..] == s[i + 1..];
    assert [b] + [] == [b];
  }

  lemma HasInsert(s: seq<BitmapNode>, i: nat, b: BitmapNode, id: nat)
    requires i <= |s|
    ensures Has(s[..i] + [b] + s[i..], id) <==> Holds(b, id) || Has(s, id)
  {
    HasJoin(s[..i] + [b], s[i..], id);
    HasJoin(s[..i], [b], id);
    HasJoin(s[..i], s[i..], id);
    HasCons(b, [], id);
    assert [b] + [] == [b] && s[..i] + s[i..] == s;
  }

  lemma {:induction false} HasJoin(s: seq<BitmapNode>, t: seq<BitmapNode>, id: nat)
    ensures Has(s + t, id) <==> Has(s, id) || Has(t, id)
  {
    if s == [] {
      assert s + t == t;
    } else {
      HasJoin(s[1..], t, id);
      assert s + t == [s[0]] + (s[1..] + t);
      HasCons(s[0], s[1..] + t, id);
      HasSplit(s, id);
    }
  }

  /** Within a sorted list only the block of an id's index can hold it. */
  lemma HasOnly(s: seq<BitmapNode>, i: nat, id: nat)
    requires Sorted(s) && i < |s| && s[i].index == id / BITS_PER_FIELD
    ensures Has(s, id) <==> Holds(s[i], id)
  {
  }

  lemma HasNone(s: seq<BitmapNode>, i: nat, id: nat)
    requires Sorted(s) && i <= |s|
    requires i > 0 ==> s[i - 1].index < id / BITS_PER_FIELD
    requires i < |s| ==> id / BITS_PER_FIELD < s[i].index
    ensures !Has(s, id)
  {
  }

  /** A canonical list is determined by the ids it holds. */
  lemma {:induction false} SameMembers(a: seq<BitmapNode>, b: seq<BitmapNode>)
    requires Canon(a) && Canon(b)
    requires forall id: nat :: Has(a, id) <==> Has(b, id)
    ensures a == b
  {
    if a == [] && b == [] {
    } else if a == [] {
      var _ := Witness(b);
    } else if b == [] {
      var _ := Witness(a);
    } else {
      var x := Witness(a);
      var y := Witness(b);
      assert Has(b, x) && Has(a, y);
      assert a[0].index == b[0].index;
      forall id: nat ensures Holds(a[0], id) <==> Holds(b[0], id) {
        if id / BITS_PER_FIELD == a[0].index {
          HasOnly(a, 0, id);
          HasOnly(b, 0, id);
        }
      }
      SameBits(a[0], b[0]);
      forall id: nat ensures Has(a[1..], id) <==> Has(b[1..], id) {
        HasSplit(a, id);
        HasSplit(b, id);
        if Holds(a[0], id) {
          assert !Has(a[1..], id) && !Has(b[1..], id);
        }
      }
      SameMembers(a[1..], b[1..]);
      assert a == [a[0]] + a[1..] && b == [b[0]] + b[1..];
    }
  }

  /** The first block of a canonical list holds some id. */
  lemma Witness(s: seq<BitmapNode>) returns (id: nat)
    requires Canon(s) && s != []
    ensures Holds(s[0], id) && Has(s, id) && id / BITS_PER_FIELD == s[0].index
  {
    NoneHolds(s[0]);
    id :| Holds(s[0], id);
  }

  // ---- One block added or changed ----

  /** Writing a bit into the block of its index. */
  lemma PutBit(s: seq<BitmapNode>, i: nat, id: nat, t: seq<BitmapNode>)
    requires Canon(s) && i < |s| && s[i].index == id / BITS_PER_FIELD
    requires t == s[i := s[i].Put(id % BITS_PER_FIELD, true)]
    ensures Canon(t) && forall x: nat :: Has(t, x) <==> x == id || Has(s, x)
  {
    PutHolds(s[i], id, true, id);
    NoneHolds(t[i]);
    CanonAt(s, i, t[i]);
    forall x: nat ensures Has(t, x) <==> x == id || Has(s, x) {
      PutHolds(s[i], id, true, x);
      HasAt(s, i, t[i], x);
    }
  }

  /** Inserting a fresh block that holds a single id. */
  lemma InsertBit(s: seq<BitmapNode>, i: nat, id: nat, t: seq<BitmapNode>)
    requires Canon(s) && i <= |s|
    requires i > 0 ==> s[i - 1].index < id / BITS_PER_FIELD
    requires i < |s| ==> id / BITS_PER_FIELD < s[i].index
    requires t == s[..i] + [EmptyNode(id / BITS_PER_FIELD).Put(id % BITS_PER_FIELD, true)] + s[i..]
    ensures Canon(t) && (forall x: nat :: Has(t, x) <==> x == id || Has(s, x)) && !Has(s, id)
  {
    var b := t[i];
    forall x: nat ensures Holds(b, x) <==> x == id {
      FreshHolds(id, x);
    }
    assert Holds(b, id);
    NoneHolds(b);
    CanonInsert(s, i, b);
    HasNone(s, i, id);
    forall x: nat ensures Has(t, x) <==> x == id || Has(s, x) {
      HasInsert(s, i, b, x);
    }
  }

  lemma FreshHolds(id: nat, x: nat)
    ensures Holds(EmptyNode(id / BITS_PER_FIELD).Put(id % BITS_PER_FIELD, true), x) <==> x == id
  {
    PutHolds(EmptyNode(id / BITS_PER_FIELD), id, true, x);
  }

  /** Clearing a bit; a block left without bits goes away. */
  lemma ClearBit(s: seq<BitmapNode>, i: nat, id: nat, b: BitmapNode, t: seq<BitmapNode>)
    requires Canon(s) && i < |s| && s[i].index == id / BITS_PER_FIELD
    requires b == s[i].Put(id % BITS_PER_FIELD, false)
    requires t == if b.None() then s[..i] + s[i + 1..] else s[i := b]
    ensures Canon(t) && forall x: nat :: Has(t, x) <==> x != id && Has(s, x)
  {
    PutHolds(s[i], id, false, id);
    NoneHolds(b);
    if b.None() { CanonErase(s, i); } else { CanonAt(s, i, b); }
    forall x: nat ensures Has(t, x) <==> x != id && Has(s, x) {
      PutHolds(s[i], id, false, x);
      HasAt(s, i, b, x);
      HasOnly(s, i, id);
    }
  }

  // ---- Union ----

  function Union(a: seq<BitmapNode>, b: seq<BitmapNode>): seq<BitmapNode>
    requires Sorted(a) && Sorted(b)
  {
    if b == [] then a
    else if a == [] || a[0].index > b[0].index then [b[0]] + Union(a, b[1..])
    else if a[0].index == b[0].index then [OrNode(a[0], b[0])] + Union(a[1..], b[1..])
    else [a[0]] + Union(a[1..], b)
  }

  lemma {:induction false} UnionCanon(a: seq<BitmapNode>, b: seq<BitmapNode>, n: int)
    requires Canon(a) && Canon(b) && AllFrom(a, n) && AllFrom(b, n)
    ensures Canon(Union(a, b)) && AllFrom(Union(a, b), n)
  {
    if b == [] {
    } else if a == [] || a[0].index > b[0].index {
      CanonTail(b);
      UnionCanon(a, b[1..], b[0].index + 1);
      CanonCons(b[0], Union(a, b[1..]), n);
    } else if a[0].index == b[0].index {
      CanonTail(a);
      CanonTail(b);
      UnionCanon(a[1..], b[1..], a[0].index + 1);
      OrNone(a[0], b[0]);
      CanonCons(OrNode(a[0], b[0]), Union(a[1..], b[1..]), n);
    } else {
      CanonTail(a);
      UnionCanon(a[1..], b, a[0].index + 1);
      CanonCons(a[0], Union(a[1..], b), n);
    }
  }

  lemma OrNone(a: BitmapNode, b: BitmapNode)
    requires a.WF() && b.WF() && a.index == b.index && !a.None()
    ensures !OrNode(a, b).None()
  {
    NoneHolds(a);
    NoneHolds(OrNode(a, b));
    var x: nat :| Holds(a, x);
    NodeOps(a, b, x);
  }

  lemma {:induction false} UnionHas(a: seq<BitmapNode>, b: seq<BitmapNode>, id: nat)
    requires Sorted(a) && Sorted(b)
    ensures Has(Union(a, b), id) <==> Has(a, id) || Has(b, id)
  {
    if b == [] {
    } else if a == [] || a[0].index > b[0].index {
      UnionHas(a, b[1..], id);
      HasSplit(b, id);
      HasCons(b[0], Union(a, b[1..]), id);
    } else if a[0].index == b[0].index {
      UnionHas(a[1..], b[1..], id);
      NodeOps(a[0], b[0], id);
      HasSplit(a, id);
      HasSplit(b, id);
      HasCons(OrNode(a[0], b[0]), Union(a[1..], b[1..]), id);
    } else {
      UnionHas(a[1..], b, id);
      HasSplit(a, id);
      HasCons(a[0], Union(a[1..], b), id);
    }
  }

  /** The union is the left list exactly when it adds no id. */
  lemma UnionChange(a: seq<BitmapNode>, b: seq<BitmapNode>)
    requires Canon(a) && Canon(b)
    ensures Canon(Union(a, b)) && forall id: nat :: Has(Union(a, b), id) <==> Has(a, id) || Has(b, id)
    ensures Union(a, b) == a <==> forall id: nat :: Has(b, id) ==> Has(a, id)
  {
    UnionCanon(a, b, 0);
    forall id: nat ensures Has(Union(a, b), id) <==> Has(a, id) || Has(b, id) {
      UnionHas(a, b, id);
    }
    if forall id: nat :: Has(b, id) ==> Has(a, id) {
      SameMembers(Union(a, b), a);
    }
  }

  // ---- Intersection ----

  function Meet(a: seq<BitmapNode>, b: seq<BitmapNode>): seq<BitmapNode>
    requires Sorted(a) && Sorted(b)
  {
    if a == [] || b == [] then []
    else if a[0].index > b[0].index then Meet(a, b[1..])
    else if a[0].index < b[0].index then Meet(a[1..], b)
    else
      var n := AndNode(a[0], b[0]);
      if n.None() then Meet(a[1..], b[1..]) else [n] + Meet(a[1..], b[1..])
  }

  lemma {:induction false} MeetCanon(a: seq<BitmapNode>, b: seq<BitmapNode>, n: int)
    requires Sorted(a) && Sorted(b) && AllFrom(a, n)
    ensures Canon(Meet(a, b)) && AllFrom(Meet(a, b), n)
  {
    if a == [] || b == [] {
    } else if a[0].index > b[0].index {
      MeetCanon(a, b[1..], n);
    } else if a[0].index < b[0].index {
      MeetCanon(a[1..], b, n);
    } else {
      CanonTail(a);
      CanonTail(b);
      MeetCanon(a[1..], b[1..], a[0].index + 1);
      if !AndNode(a[0], b[0]).None() {
        CanonCons(AndNode(a[0], b[0]), Meet(a[1..], b[1..]), n);
      }
    }
  }

  lemma {:induction false} MeetHas(a: seq<BitmapNode>, b: seq<BitmapNode>, id: nat)
    requires Sorted(a) && Sorted(b)
    ensures Has(Meet(a, b), id) <==> Has(a, id) && Has(b, id)
  {
    if a == [] || b == [] {
    } else if a[0].index > b[0].index {
      MeetHas(a, b[1..], id);
      HasSplit(b, id);
      if Holds(b[0], id) { assert !Has(a, id); }
    } else if a[0].index < b[0].index {
      MeetHas(a[1..], b, id);
      HasSplit(a, id);
      if Holds(a[0], id) { assert !Has(b, id); }
    } else {
      MeetHas(a[1..], b[1..], id);
      var n := AndNode(a[0], b[0]);
      NodeOps(a[0], b[0], id);
      NoneHolds(n);
      HasSplit(a, id);
      HasSplit(b, id);
      HasCons(n, Meet(a[1..], b[1..]), id);
      if id / BITS_PER_FIELD == a[0].index {
        HasOnly(a, 0, id);
        HasOnly(b, 0, id);
        assert !Has(Meet(a[1..], b[1..]), id);
      }
    }
  }

  // ---- Difference ----

  /** Every block of a, less the bits of b; a block may be left without bits. */
  function Minus(a: seq<BitmapNode>, b: seq<BitmapNode>): seq<BitmapNode>
    requires Sorted(a) && Sorted(b)
  {
    if a == [] || b == [] then a
    else if b[0].index < a[0].index then Minus(a, b[1..])
    else if b[0].index == a[0].index then [MinusNode(a[0], b[0])] + Minus(a[1..], b)
    else [a[0]] + Minus(a[1..], b)
  }

  lemma {:induction false} MinusIndexes(a: seq<BitmapNode>, b: seq<BitmapNode>, n: int)
    requires Sorted(a) && Sorted(b) && AllFrom(a, n)
    ensures Sorted(Minus(a, b)) && AllFrom(Minus(a, b), n) && |Minus(a, b)| == |a|
    decreases |a| + |b|
  {
    if a == [] || b == [] {
    } else if b[0].index < a[0].index {
      MinusIndexes(a, b[1..], n);
    } else {
      CanonTail(a);
      MinusIndexes(a[1..], b, a[0].index + 1);
      CanonCons(Minus(a, b)[0], Minus(a[1..], b), n);
    }
  }

  lemma {:induction false} MinusHas(a: seq<BitmapNode>, b: seq<BitmapNode>, id: nat)
    requires Sorted(a) && Sorted(b)
    ensures Has(Minus(a, b), id) <==> Has(a, id) && !Has(b, id)
    decreases |a| + |b|
  {
    if a == [] || b == [] {
    } else if b[0].index < a[0].index {
      MinusHas(a, b[1..], id);
      HasSplit(b, id);
      if Holds(b[0], id) { assert !Has(a, id); }
    } else {
      MinusHas(a[1..], b, id);
      HasSplit(a, id);
      HasCons(Minus(a, b)[0], Minus(a[1..], b), id);
      if b[0].index == a[0].index {
        NodeOps(a[0], b[0], id);
        if id / BITS_PER_FIELD == a[0].index { HasOnly(b, 0, id); }
      } else if id / BITS_PER_FIELD == a[0].index {
        HasNone(b, 0, id);
      }
    }
  }

  /** Block k of the difference. */
  lemma {:induction false} MinusBlock(a: seq<BitmapNode>, b: seq<BitmapNode>, k: nat, id: nat)
    requires Sorted(a) && Sorted(b) && k < |a|
    ensures |Minus(a, b)| == |a| && Minus(a, b)[k].WF()
    ensures Holds(Minus(a, b)[k], id) <==> Holds(a[k], id) && !Has(b, id)
    decreases |a| + |b|
  {
    if b == [] {
    } else if b[0].index < a[0].index {
      MinusBlock(a, b[1..], k, id);
      HasSplit(b, id);
      if Holds(b[0], id) { assert !Holds(a[k], id); }
    } else {
      if |a| > 1 { MinusBlock(a[1..], b, if k > 0 then k - 1 else 0, id); }
      if b[0].index == a[0].index {
        NodeOps(a[0], b[0], id);
        if id / BITS_PER_FIELD == a[0].index { HasOnly(b, 0, id); }
      } else if id / BITS_PER_FIELD == a[0].index {
        HasNone(b, 0, id);
      }
    }
  }

  /** Does the block hold an id that the list does not? */
  ghost predicate Keeps(b: BitmapNode, s: seq<BitmapNode>) {
    exists id: nat :: Holds(b, id) && !Has(s, id)
  }

  /** The difference is canonical exactly when every block keeps an id. */
  lemma MinusMeans(a: seq<BitmapNode>, b: seq<BitmapNode>)
    requires Canon(a) && Canon(b)
    ensures Sorted(Minus(a, b)) && forall id: nat :: Has(Minus(a, b), id) <==> Has(a, id) && !Has(b, id)
    ensures Canon(Minus(a, b)) <==> forall k :: 0 <= k < |a| ==> Keeps(a[k], b)
  {
    MinusIndexes(a, b, 0);
    forall id: nat ensures Has(Minus(a, b), id) <==> Has(a, id) && !Has(b, id) {
      MinusHas(a, b, id);
    }
    forall k | 0 <= k < |a| ensures !Minus(a, b)[k].None() <==> Keeps(a[k], b) {
      forall id: nat ensures Holds(Minus(a, b)[k], id) <==> Holds(a[k], id) && !Has(b, id) {
        MinusBlock(a, b, k, id);
      }
      NoneHolds(Minus(a, b)[k]);
    }
  }

  // ---- What the flag of operator&= reports ----

  /** Do both lists end in a block of the same index? */
  predicate SameEnd(a: seq<BitmapNode>, b: seq<BitmapNode>) {
    a != [] && b != [] && a[|a| - 1].index == b[|b| - 1].index
  }

  /** Does the block of a at the greatest index both lists share lose a bit to the one of b? */
  predicate DropsLast(a: seq<BitmapNode>, b: seq<BitmapNode>)
    requires Sorted(a) && Sorted(b)
    decreases |a| + |b|
  {
    if a == [] || b == [] then false
    else
      var x, y := a[|a| - 1], b[|b| - 1];
      if x.index == y.index then AndNode(x, y) != x
      else if x.index > y.index then DropsLast(a[..|a| - 1], b)
      else DropsLast(a, b[..|b| - 1])
  }

  /** Blocks beyond the end of the other list do not matter. */
  lemma {:induction false} DropsLastTail(a: seq<BitmapNode>, b: seq<BitmapNode>, p: nat, j: nat)
    requires Sorted(a) && Sorted(b) && p <= |a| && j <= |b|
    requires p == |a| || j == |b|
    requires p > 0 && j < |b| ==> a[p - 1].index < b[j].index
    requires j > 0 && p < |a| ==> b[j - 1].index < a[p].index
    ensures DropsLast(a, b) == DropsLast(a[..p], b[..j])
    decreases |a| + |b|
  {
    if p < |a| {
      var c := a[..|a| - 1];
      DropsLastTail(c, b, p, j);
      assert c[..p] == a[..p] && b[..j] == b;
    } else if j < |b| {
      var d := b[..|b| - 1];
      DropsLastTail(a, d, p, j);
      assert d[..j] == b[..j] && a[..p] == a;
    } else {
      assert a[..p] == a && b[..j] == b;
    }
  }

  /** The intersection is canonical, has the shared ids, and is a exactly when a loses none. */
  lemma MeetChange(a: seq<BitmapNode>, b: seq<BitmapNode>)
    requires Canon(a) && Sorted(b)
    ensures Canon(Meet(a, b)) && forall id: nat :: Has(Meet(a, b), id) <==> Has(a, id) && Has(b, id)
    ensures Meet(a, b) == a <==> forall id: nat :: Has(a, id) ==> Has(b, id)
  {
    MeetCanon(a, b, 0);
    forall id: nat ensures Has(Meet(a, b), id) <==> Has(a, id) && Has(b, id) {
      MeetHas(a, b, id);
    }
    if forall id: nat :: Has(a, id) ==> Has(b, id) {
      SameMembers(Meet(a, b), a);
    }
  }

  /** If nothing is lost overall, no block loses a bit. */
  lemma {:induction false} DropsLastMeans(a: seq<BitmapNode>, b: seq<BitmapNode>)
    requires Sorted(a) && Sorted(b) && DropsLast(a, b)
    ensures exists id: nat :: Has(a, id) && !Has(b, id)
    decreases |a| + |b|
  {
    var p, j := |a| - 1, |b| - 1;
    var x, y := a[p], b[j];
    if x.index == y.index {
      if forall id: nat :: Holds(x, id) ==> Holds(y, id) {
        forall id: nat ensures Holds(AndNode(x, y), id) <==> Holds(x, id) {
          NodeOps(x, y, id);
        }
        SameBits(AndNode(x, y), x);
      }
      var id: nat :| Holds(x, id) && !Holds(y, id);
      HasOnly(b, j, id);
      assert Has(a, id) && !Has(b, id);
    } else if x.index > y.index {
      DropsLastMeans(a[..p], b);
      var id: nat :| Has(a[..p], id) && !Has(b, id);
      HasAt(a, p, x, id);
      assert Has(a, id);
    } else {
      DropsLastMeans(a, b[..j]);
      var id: nat :| Has(a, id) && !Has(b[..j], id);
      HasAt(b, j, y, id);
      assert b[j + 1..] == [];
      assert Has(b, id) ==> Holds(y, id);
    }
  }
}
