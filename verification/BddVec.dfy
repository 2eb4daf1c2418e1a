/** From decision diagrams to sorted vectors: expanding ternary cubes, and the cache with its clock. */
module BddVecs {
  import opened Basics
  import opened Seals

  // ---- Bits ----

  /** ((x >> k) & 1) != 0, which is the same as (x & (1 << k)) != 0. */
  predicate Bit(x: nat, k: nat) {
    if k == 0 then x % 2 == 1 else Bit(x / 2, k - 1)
  }

  /** The bits of a number below 2^n with or without the bit 2^n on top. */
  lemma {:induction false} BitOfSum(y: nat, n: nat, top: bool, k: nat)
    requires y < Pow2(n) && k <= n
    ensures Bit(if top then y + Pow2(n) else y, k) <==> if k < n then Bit(y, k) else top
    decreases n
  {
    if n > 0 {
      var h := Pow2(n - 1);
      assert Pow2(n) == 2 * h;
      Halves(y, h);
      if k > 0 { BitOfSum(y / 2, n - 1, top, k - 1); }
    }
  }

  lemma Halves(y: nat, h: nat)
    ensures (y + 2 * h) / 2 == y / 2 + h && (y + 2 * h) % 2 == y % 2
    ensures y < 2 * h ==> y / 2 < h
  {
  }

  // ---- Ternary cubes ----

  datatype Tern = Zero | One | Any

  /** x, written with one bit per digit, agrees with every fixed digit of the cube. */
  ghost predicate Matches(t: seq<Tern>, x: nat) {
    x < Pow2(|t|) && forall k :: 0 <= k < |t| ==> (t[k] == One ==> Bit(x, k)) && (t[k] == Zero ==> !Bit(x, k))
  }

  /** The sum of the bits that are one. */
  function Base(t: seq<Tern>): nat {
    if t == [] then 0
    else var k := |t| - 1; Base(t[..k]) + (if t[k] == One then Pow2(k) else 0)
  }

  /** The masks of the free bits, lowest first. */
  function DontCare(t: seq<Tern>): seq<nat> {
    if t == [] then []
    else var k := |t| - 1; DontCare(t[..k]) + (if t[k] == Any then [Pow2(k)] else [])
  }

  /** The masks that the bits of i select. */
  function Picked(dc: seq<nat>, i: nat): nat {
    if dc == [] then 0
    else var k := |dc| - 1; Picked(dc[..k], i) + (if Bit(i, k) then dc[k] else 0)
  }

  function Value(t: seq<Tern>, i: nat): nat {
    Base(t) + Picked(DontCare(t), i)
  }

  /** Which choice of the free bits gives x. */
  ghost function Choice(t: seq<Tern>, x: nat): nat {
    if t == [] then 0
    else
      var k := |t| - 1;
      var m := Pow2(k);
      var y := if x >= m then x - m else x;
      Choice(t[..k], y) + (if t[k] == Any && x >= m then Pow2(|DontCare(t[..k])|) else 0)
  }

  /** The low bits of i decide the lower masks. */
  lemma {:induction false} PickedLow(dc: seq<nat>, i: nat, n: nat, top: bool)
    requires i < Pow2(n) && |dc| <= n
    ensures Picked(dc, if top then i + Pow2(n) else i) == Picked(dc, i)
  {
    if dc != [] {
      PickedLow(dc[..|dc| - 1], i, n, top);
      BitOfSum(i, n, top, |dc| - 1);
    }
  }

  /** Value and Choice are inverse: the choices below 2^free give exactly the matching numbers, each once. */
  lemma {:induction false} ValueMatches(t: seq<Tern>, i: nat)
    requires i < Pow2(|DontCare(t)|)
    ensures Matches(t, Value(t, i)) && Choice(t, Value(t, i)) == i
  {
    hide Matches, Choice, Value, Base, Picked, Bit;
    if t == [] {
      ValueNone(i);
    } else {
      var k := |t| - 1;
      var front := t[..k];
      var n := |DontCare(front)|;
      var top := t[k] == Any && i >= Pow2(n);
      var j := if top then i - Pow2(n) else i;
      ValueMatches(front, j);
      var y := Value(front, j);
      ValueTop(t, i, j, top);
      MatchTop(front, t[k], y, t[k] == One || top);
      ChoiceTop(t, y, j, top);
      assert front + [t[k]] == t;
    }
  }

  lemma ValueNone(i: nat)
    requires i < Pow2(|DontCare([])|)
    ensures Matches([], Value([], i)) && Choice([], Value([], i)) == i
  {
  }

  /** The choice for a number from the choice for its lower digits. */
  lemma ChoiceTop(t: seq<Tern>, y: nat, j: nat, top: bool)
    requires t != [] && Matches(t[..|t| - 1], y) && Choice(t[..|t| - 1], y) == j && (top ==> t[|t| - 1] == Any)
    ensures var x := y + (if t[|t| - 1] == One || top then Pow2(|t| - 1) else 0);
            Choice(t, x) == j + if top then Pow2(|DontCare(t[..|t| - 1])|) else 0
  {
  }

  /** The value of a cube from the value of its lower digits. */
  lemma ValueTop(t: seq<Tern>, i: nat, j: nat, top: bool)
    requires t != [] && j < Pow2(|DontCare(t[..|t| - 1])|)
    requires top ==> t[|t| - 1] == Any
    requires i == if top then j + Pow2(|DontCare(t[..|t| - 1])|) else j
    ensures Value(t, i) == Value(t[..|t| - 1], j) + (if t[|t| - 1] == One || top then Pow2(|t| - 1) else 0)
  {
    var k := |t| - 1;
    var dc := DontCare(t[..k]);
    var n := |dc|;
    PickedLow(dc, j, n, top);
    if t[k] == Any {
      assert DontCare(t)[..n] == dc;
      BitOfSum(j, n, top, n);
    } else {
      assert DontCare(t) == dc;
    }
  }

  lemma MatchTop(front: seq<Tern>, d: Tern, y: nat, top: bool)
    requires Matches(front, y) && (d == One ==> top) && (d == Zero ==> !top)
    ensures Matches(front + [d], if top then y + Pow2(|front|) else y)
  {
    hide Bit;
    var t, x := front + [d], if top then y + Pow2(|front|) else y;
    forall k | 0 <= k < |t| ensures (t[k] == One ==> Bit(x, k)) && (t[k] == Zero ==> !Bit(x, k)) {
      BitOfSum(y, |front|, top, k);
      assert k < |front| ==> t[k] == front[k];
    }
  }

  lemma {:induction false} MatchIsValue(t: seq<Tern>, x: nat)
    requires Matches(t, x)
    ensures Choice(t, x) < Pow2(|DontCare(t)|) && Value(t, Choice(t, x)) == x
  {
    if t != [] {
      var k := |t| - 1;
      var front := t[..k];
      var n := |DontCare(front)|;
      var top := x >= Pow2(k);
      var y := if top then x - Pow2(k) else x;
      MatchFront(t, x);
      MatchIsValue(front, y);
      var j := Choice(front, y);
      ValueTop(t, Choice(t, x), j, top && t[k] == Any);
    }
  }

  lemma MatchFront(t: seq<Tern>, x: nat)
    requires t != [] && Matches(t, x)
    ensures var k := |t| - 1;
            var top := x >= Pow2(k);
            var y := if top then x - Pow2(k) else x;
            Matches(t[..k], y) && (t[k] == One ==> top) && (t[k] == Zero ==> !top)
  {
    var k := |t| - 1;
    var top := x >= Pow2(k);
    var y := if top then x - Pow2(k) else x;
    BitOfSum(y, k, top, k);
    forall j | 0 <= j < k ensures (t[j] == One ==> Bit(y, j)) && (t[j] == Zero ==> !Bit(y, j)) {
      BitOfSum(y, k, top, j);
    }
  }

  // ---- Expansion ----

  /** vec lists the numbers that match the cube, each once. */
  ghost predicate Expansion(t: seq<Tern>, vec: seq<nat>) {
    Distinct(vec) && forall x :: x in vec <==> Matches(t, x)
  }

  /** vec lists the values of all choices, in the order p. */
  ghost predicate Enumerates(t: seq<Tern>, vec: seq<nat>, p: seq<nat>) {
    && |p| == |vec| && Distinct(p)
    && (forall k :: 0 <= k < |p| ==> p[k] < Pow2(|DontCare(t)|) && vec[k] == Value(t, p[k]))
    && (forall i: nat :: i < Pow2(|DontCare(t)|) ==> i in p)
  }

  lemma EnumerationExpands(t: seq<Tern>, vec: seq<nat>, p: seq<nat>)
    requires Enumerates(t, vec, p)
    ensures Expansion(t, vec)
  {
    forall j, k | 0 <= j < k < |vec| ensures vec[j] != vec[k] {
      ValueMatches(t, p[j]);
      ValueMatches(t, p[k]);
    }
    forall x | x in vec ensures Matches(t, x) {
      var k :| 0 <= k < |vec| && vec[k] == x;
      ValueMatches(t, p[k]);
    }
    forall x | Matches(t, x) ensures x in vec {
      MatchIsValue(t, x);
      assert Choice(t, x) in p;
      var k :| 0 <= k < |p| && p[k] == Choice(t, x);
      assert vec[k] == x;
    }
  }

  /** The digits of domain 0 in an assignment: every other variable, where -1 is free and 1 is set. */
  function Digits(varset: seq<int>, n: nat): (t: seq<Tern>)
    requires 2 * n <= |varset| + 1
    ensures |t| == n
  {
    if n == 0 then []
    else Digits(varset, n - 1) + [match varset[2 * (n - 1)] case -1 => Any case 1 => One case _ => Zero]
  }

  /** x has one bit for each variable of domain 0, set where the assignment has 1 and clear where it has neither 1
      nor -1. */
  ghost predicate Satisfies(varset: seq<int>, bits: nat, x: nat)
    requires 2 * bits <= |varset| + 1
  {
    x < Pow2(bits) && forall k :: 0 <= k < bits ==>
      (varset[2 * k] == 1 ==> Bit(x, k)) && (varset[2 * k] != 1 && varset[2 * k] != -1 ==> !Bit(x, k))
  }

  lemma {:induction false} DigitAt(varset: seq<int>, n: nat, k: nat)
    requires 2 * n <= |varset| + 1 && k < n
    ensures Digits(varset, n)[k] == if varset[2 * k] == -1 then Any else if varset[2 * k] == 1 then One else Zero
  {
    if k < n - 1 { DigitAt(varset, n - 1, k); }
  }

  /** The digits say no more and no less. */
  lemma DigitsMean(varset: seq<int>, bits: nat, x: nat)
    requires 2 * bits <= |varset| + 1
    ensures Matches(Digits(varset, bits), x) <==> Satisfies(varset, bits, x)
  {
    hide Digits, Bit;
    forall k | 0 <= k < bits
      ensures Digits(varset, bits)[k]
              == if varset[2 * k] == -1 then Any else if varset[2 * k] == 1 then One else Zero
    {
      DigitAt(varset, bits, k);
    }
  }

  lemma PickedFew(dc: seq<nat>)
    ensures |dc| == 0 ==> Picked(dc, 0) == 0
    ensures |dc| == 1 ==> Picked(dc, 0) == 0 && Picked(dc, 1) == dc[0]
    ensures |dc| == 2 ==>
              && Picked(dc, 0) == 0 && Picked(dc, 1) == dc[0]
              && Picked(dc, 2) == dc[1] && Picked(dc, 3) == dc[0] + dc[1]
  {
    if |dc| == 2 {
      var one := dc[..1];
      assert forall i: nat :: Picked(dc, i) == Picked(one, i) + (if Bit(i, 1) then dc[1] else 0);
      assert forall i: nat :: Picked(one, i) == (if Bit(i, 0) then one[0] else 0);
      assert Bit(1, 0) && !Bit(1, 1) && !Bit(2, 0) && Bit(2, 1) && Bit(3, 0) && Bit(3, 1);
    }
  }

  /** The fast paths for none, one and two free bits. */
  lemma FreeNone(t: seq<Tern>)
    requires |DontCare(t)| == 0
    ensures Expansion(t, [Base(t)])
  {
    PickedFew(DontCare(t));
    EnumerationExpands(t, [Base(t)], [0]);
  }

  lemma FreeOne(t: seq<Tern>)
    requires |DontCare(t)| == 1
    ensures Expansion(t, [Base(t) + DontCare(t)[0], Base(t)])
  {
    PickedFew(DontCare(t));
    assert Pow2(1) == 2;
    EnumerationExpands(t, [Base(t) + DontCare(t)[0], Base(t)], [1, 0]);
  }

  lemma FreeTwo(t: seq<Tern>)
    requires |DontCare(t)| == 2
    ensures var b, d0, d1 := Base(t), DontCare(t)[0], DontCare(t)[1];
            Expansion(t, [b + d1, b + d1 + d0, b + d0, b])
  {
    var b, d0, d1 := Base(t), DontCare(t)[0], DontCare(t)[1];
    var vec, p: seq<nat> := [b + d1, b + d1 + d0, b + d0, b], [2, 3, 1, 0];
    assert Value(t, 0) == b && Value(t, 1) == b + d0 && Value(t, 2) == b + d1 && Value(t, 3) == b + d0 + d1 by {
      PickedFew(DontCare(t));
    }
    assert Pow2(2) == 4 by { assert Pow2(1) == 2; }
    forall i: nat | i < 4 ensures i in p {
      assert p[0] == 2 && p[1] == 3 && p[2] == 1 && p[3] == 0;
    }
    EnumerationExpands(t, vec, p);
  }

  /** bddToVector: the numbers that match one assignment, appended to vec. Adding a mask of unset bits is or-ing it
      in. */
  method BddToVector(varset: seq<int>, bits: nat, vec: seq<nat>) returns (r: seq<nat>)
    requires 2 * bits <= |varset| + 1 && bits <= 32
    ensures |vec| <= |r| && r[..|vec|] == vec && Distinct(r[|vec|..])
    ensures forall x: nat :: x in r[|vec|..] <==> Satisfies(varset, bits, x)
  {
    r := Expand(varset, bits, vec);
    forall x: nat ensures x in r[|vec|..] <==> Satisfies(varset, bits, x) { DigitsMean(varset, bits, x); }
  }

  /** The same in terms of the digits. */
  method Expand(varset: seq<int>, bits: nat, vec: seq<nat>) returns (r: seq<nat>)
    requires 2 * bits <= |varset| + 1 && bits <= 32
    ensures |vec| <= |r| && r[..|vec|] == vec && Expansion(Digits(varset, bits), r[|vec|..])
  {
    hide Expansion, Digits, Base, DontCare;
    ghost var t := Digits(varset, bits);
    var base, dontCare := Masks(varset, bits);
    match |dontCare| {
      case 2 =>
        var x := base + dontCare[1];
        r := vec + [x];
        r := r + [x + dontCare[0]];
        r := r + [base + dontCare[0]];
        r := r + [base];
        FreeTwo(t);
        assert r[|vec|..] == [x, x + dontCare[0], base + dontCare[0], base];
      case 1 =>
        r := vec + [base + dontCare[0]];
        r := r + [base];
        FreeOne(t);
        assert r[|vec|..] == [base + dontCare[0], base];
      case 0 =>
        r := vec + [base];
        FreeNone(t);
        assert r[|vec|..] == [base];
      case _ =>
        r := General(base, dontCare, vec, t);
    }
  }

  method Masks(varset: seq<int>, bits: nat) returns (base: nat, dontCare: seq<nat>)
    requires 2 * bits <= |varset| + 1
    ensures base == Base(Digits(varset, bits)) && dontCare == DontCare(Digits(varset, bits))
  {
    base, dontCare := 0, [];
    var m := 1;
    for k := 0 to bits
      invariant m == Pow2(k) && base == Base(Digits(varset, k)) && dontCare == DontCare(Digits(varset, k))
    {
      assert Digits(varset, k + 1)[..k] == Digits(varset, k);
      match varset[2 * k] {
        case -1 => dontCare := dontCare + [m];
        case 1 => base := base + m;
        case _ =>
      }
      m := m * 2;
    }
  }

  /** The loop for any number of free bits. */
  method General(base: nat, dontCare: seq<nat>, vec: seq<nat>, ghost t: seq<Tern>) returns (r: seq<nat>)
    requires base == Base(t) && dontCare == DontCare(t)
    ensures |vec| <= |r| && r[..|vec|] == vec && Expansion(t, r[|vec|..])
  {
    r := vec;
    var ie := Shifted(|dontCare|);
    for i := 0 to ie
      invariant |r| == |vec| + i && r[..|vec|] == vec
      invariant forall k :: 0 <= k < i ==> r[|vec|..][k] == Value(t, k)
    {
      var x := base;
      for j := 0 to |dontCare|
        invariant x == base + Picked(dontCare[..j], i)
      {
        assert dontCare[..j + 1][..j] == dontCare[..j];
        if Bit(i, j) {
          x := x + dontCare[j];
        }
      }
      assert dontCare[..|dontCare|] == dontCare;
      ghost var before := r[|vec|..];
      r := r + [x];
      assert r[|vec|..] == before + [x];
    }
    ghost var p: seq<nat> := seq(ie, k => k);
    forall i: nat | i < ie ensures i in p {
      assert p[i] == i;
    }
    EnumerationExpands(t, r[|vec|..], p);
  }

  /** 1 << n. */
  method Shifted(n: nat) returns (m: nat)
    ensures m == Pow2(n)
  {
    m := 1;
    for k := 0 to n
      invariant m == Pow2(k)
    {
      m := m * 2;
    }
  }

  // ---- The vector of a diagram ----

  /** How many of the assignments x matches. */
  ghost function Matching(sats: seq<seq<int>>, bits: nat, x: nat): nat
    requires forall k :: 0 <= k < |sats| ==> 2 * bits <= |sats[k]| + 1
  {
    if sats == [] then 0
    else
      var k := |sats| - 1;
      Matching(sats[..k], bits, x) + (if Satisfies(sats[k], bits, x) then 1 else 0)
  }

  predicate Wide(sats: seq<seq<int>>, bits: nat) {
    forall k :: 0 <= k < |sats| ==> 2 * bits <= |sats[k]| + 1
  }

  predicate NonDecreasing(s: seq<nat>) {
    forall j, k :: 0 <= j < k < |s| ==> s[j] <= s[k]
  }

  /** vec is sorted and has each number once for every assignment it matches. */
  ghost predicate IsVec(sats: seq<seq<int>>, bits: nat, vec: seq<nat>) {
    forall k {:trigger Unfold(VecSeal, k)} :: Unfold(VecSeal, k) ==>
      Wide(sats, bits) && NonDecreasing(vec) && forall x: nat :: multiset(vec)[x] == Matching(sats, bits, x)
  }

  /** The vector has exactly the matching numbers, and is strictly ascending exactly over disjoint assignments. */
  lemma StrictIffDisjoint(sats: seq<seq<int>>, bits: nat, vec: seq<nat>)
    requires IsVec(sats, bits, vec)
    ensures Wide(sats, bits)
    ensures StrictlySorted(vec) <==> forall x: nat :: Matching(sats, bits, x) <= 1
    ensures forall x: nat :: x in vec <==> exists k :: 0 <= k < |sats| && Satisfies(sats[k], bits, x)
  {
    hide Satisfies;
    assert Unfold(VecSeal, 0);
    forall x: nat ensures x in vec <==> exists k :: 0 <= k < |sats| && Satisfies(sats[k], bits, x) {
      assert x in vec <==> multiset(vec)[x] > 0;
      MatchingSome(sats, bits, x);
    }
    if StrictlySorted(vec) {
      forall x: nat ensures Matching(sats, bits, x) <= 1 {
        AtMostOnce(vec, x);
        assert multiset(vec)[x] == Matching(sats, bits, x);
      }
    } else {
      var j, k :| 0 <= j < k < |vec| && vec[j] >= vec[k];
      Twice(vec, j, k);
      assert multiset(vec)[vec[j]] == Matching(sats, bits, vec[j]);
    }
  }

  ghost function Satisfied(sats: seq<seq<int>>, bits: nat, x: nat): set<nat>
    requires Wide(sats, bits)
  {
    set k: nat | k < |sats| && Satisfies(sats[k], bits, x)
  }

  /** How often x is in the vector: once for every assignment that it satisfies. */
  lemma {:induction false} MatchingCounts(sats: seq<seq<int>>, bits: nat, x: nat)
    requires Wide(sats, bits)
    ensures Matching(sats, bits, x) == |Satisfied(sats, bits, x)|
  {
    hide Satisfies;
    if sats == [] {
      assert Satisfied(sats, bits, x) == {};
    } else {
      var n: nat := |sats| - 1;
      MatchingCounts(sats[..n], bits, x);
      assert forall k: nat :: k < n ==> sats[..n][k] == sats[k];
      assert Satisfied(sats, bits, x)
          == Satisfied(sats[..n], bits, x) + if Satisfies(sats[n], bits, x) then {n} else {};
    }
  }

  lemma {:induction false} MatchingSome(sats: seq<seq<int>>, bits: nat, x: nat)
    requires Wide(sats, bits)
    ensures Matching(sats, bits, x) > 0 <==> exists k :: 0 <= k < |sats| && Satisfies(sats[k], bits, x)
  {
    if sats != [] {
      var n := |sats| - 1;
      MatchingSome(sats[..n], bits, x);
      assert forall k :: 0 <= k < n ==> sats[..n][k] == sats[k];
    }
  }

  lemma Twice(s: seq<nat>, j: nat, k: nat)
    requires j < k < |s| && s[j] == s[k]
    ensures multiset(s)[s[j]] >= 2
  {
    assert s == s[..k] + s[k..] && s[j] in s[..k] && s[k] in s[k..]
        by { assert s[..k][j] == s[j] && s[k..][0] == s[k]; }
    assert multiset(s) == multiset(s[..k]) + multiset(s[k..]);
    assert s[j] in multiset(s[..k]) && s[k] in multiset(s[k..]);
  }

  lemma {:induction false} AtMostOnce(s: seq<nat>, x: nat)
    requires StrictlySorted(s)
    ensures multiset(s)[x] <= 1
  {
    if s != [] {
      var k := |s| - 1;
      AtMostOnce(s[..k], x);
      assert s == s[..k] + [s[k]];
      if s[k] == x && x in s[..k] {
        assert false;
      }
    }
  }

  lemma {:induction false} DistinctCounts(s: seq<nat>, x: nat)
    requires Distinct(s)
    ensures multiset(s)[x] == if x in s then 1 else 0
  {
    if s != [] {
      var k := |s| - 1;
      DistinctCounts(s[..k], x);
      assert s == s[..k] + [s[k]];
    }
  }

  /** bdd_allsat hands each satisfying assignment to bddToVector; the vector is sorted at the end. */
  method FillVector(sats: seq<seq<int>>, bits: nat) returns (vec: seq<nat>)
    requires Wide(sats, bits) && bits <= 32
    ensures IsVec(sats, bits, vec)
  {
    var ugly: seq<nat> := [];
    for k := 0 to |sats|
      invariant forall x: nat :: multiset(ugly)[x] == Matching(sats[..k], bits, x)
    {
      ghost var before := ugly;
      ugly := BddToVector(sats[k], bits, ugly);
      ghost var added := ugly[|before|..];
      assert ugly == before + added;
      forall x: nat ensures multiset(ugly)[x] == Matching(sats[..k + 1], bits, x) {
        assert sats[..k + 1][..k] == sats[..k];
        DistinctCounts(added, x);
        assert multiset(ugly) == multiset(before) + multiset(added);
      }
    }
    assert sats[..|sats|] == sats;
    vec := Sorted(ugly);
  }

  /** std::sort. */
  method Sorted(s: seq<nat>) returns (r: seq<nat>)
    ensures NonDecreasing(r) && multiset(r) == multiset(s)
  {
    hide NonDecreasing;
    r := [];
    NonDecreasingNone();
    for i := 0 to |s|
      invariant NonDecreasing(r) && multiset(r) == multiset(s[..i])
    {
      var k := 0;
      while k < |r| && r[k] <= s[i]
        invariant k <= |r| && forall j :: 0 <= j < k ==> r[j] <= s[i]
      {
        k := k + 1;
      }
      InsertAt(r, k, s[i]);
      assert s[..i + 1] == s[..i] + [s[i]];
      r := r[..k] + [s[i]] + r[k..];
    }
    assert s[..|s|] == s;
  }

  lemma NonDecreasingNone()
    ensures NonDecreasing([])
  {
  }

  lemma InsertAt(r: seq<nat>, k: nat, x: nat)
    requires NonDecreasing(r) && k <= |r| && (forall j :: 0 <= j < k ==> r[j] <= x) && (k < |r| ==> x < r[k])
    ensures NonDecreasing(r[..k] + [x] + r[k..])
    ensures multiset(r[..k] + [x] + r[k..]) == multiset(r) + multiset{x}
  {
    var t := r[..k] + [x] + r[k..];
    forall i, j | 0 <= i < j < |t| ensures t[i] <= t[j] {
      assert t[i] == if i < k then r[i] else if i == k then x else r[i - 1];
      assert t[j] == if j < k then r[j] else if j == k then x else r[j - 1];
    }
    InsertBag(r, k, x);
  }

  lemma InsertBag(r: seq<nat>, k: nat, x: nat)
    requires k <= |r|
    ensures multiset(r[..k] + [x] + r[k..]) == multiset(r) + multiset{x}
  {
    assert r == r[..k] + r[k..];
  }

  // ---- The cache ----

  /** One vector, under the id of its diagram, with the mark that the clock clears. */
  datatype Entry = Entry(id: nat, used: bool, vec: seq<nat>)

  function Cleared(es: seq<Entry>): (r: seq<Entry>)
    ensures |r| == |es| && forall k :: 0 <= k < |es| ==> r[k] == es[k].(used := false)
  {
    seq(|es|, k requires 0 <= k < |es| => es[k].(used := false))
  }

  function FirstClear(es: seq<Entry>): (k: nat)
    ensures k <= |es| && (forall j :: 0 <= j < k ==> es[j].used) && (k < |es| ==> !es[k].used)
  {
    if es == [] || !es[0].used then 0 else 1 + FirstClear(es[1..])
  }

  /** The clock: the first unmarked entry goes, and the marks before it; if all are marked, all marks and the first
      entry. */
  function Evicted(es: seq<Entry>): seq<Entry>
    requires es != []
  {
    var k := FirstClear(es);
    if k < |es| then Cleared(es[..k]) + es[k + 1..] else Cleared(es)[1..]
  }

  /** The entries left when there is room for one more. */
  function Room(es: seq<Entry>, maxSize: nat): seq<Entry>
    requires maxSize > 0
  {
    if |es| < maxSize then es else Evicted(es)
  }

  /** r is es without entry k and without the marks before it; with all entries marked, that is k == |es|, without
      the first entry and without any mark. */
  predicate LeftAt(es: seq<Entry>, k: nat, r: seq<Entry>)
    requires es != []
  {
    && |r| == |es| - 1
    && forall i :: 0 <= i < |r| ==>
         r[i] == if k == |es| then es[i + 1].(used := false)
                 else if i < k then es[i].(used := false) else es[i + 1]
  }

  predicate FirstUnmarked(es: seq<Entry>, k: nat) {
    k <= |es| && (forall i :: 0 <= i < k ==> es[i].used) && (k < |es| ==> !es[k].used)
  }

  /** The clock went round es and left r: the first unmarked entry is gone, or the first of all if all were marked. */
  ghost predicate ClockTurned(es: seq<Entry>, r: seq<Entry>)
    requires es != []
  {
    |r| == |es| - 1 && forall k: nat :: FirstUnmarked(es, k) ==> LeftAt(es, k, r)
  }

  lemma EvictedMeans(es: seq<Entry>)
    requires es != []
    ensures ClockTurned(es, Evicted(es))
  {
    hide LeftAt, Evicted;
    EvictedAt(es, FirstClear(es));
    forall k: nat | FirstUnmarked(es, k) ensures LeftAt(es, k, Evicted(es)) {
      FirstClearIs(es, k);
      EvictedAt(es, k);
    }
  }

  lemma EvictedAt(es: seq<Entry>, k: nat)
    requires es != [] && k == FirstClear(es)
    ensures |Evicted(es)| == |es| - 1 && LeftAt(es, k, Evicted(es))
  {
    hide FirstClear;
    if k < |es| {
      EvictedLength(es[..k], es[k + 1..]);
      forall i | 0 <= i < |es| - 1 ensures Evicted(es)[i] == if i < k then es[i].(used := false) else es[i + 1] {
        assert Evicted(es)[i] == if i < k then Cleared(es[..k])[i] else es[k + 1..][i - k];
      }
    }
  }

  lemma EvictedLength(a: seq<Entry>, b: seq<Entry>)
    ensures |Cleared(a) + b| == |a| + |b|
  {
  }

  /** An entry of es has this id and this vector. */
  ghost predicate KeptFrom(es: seq<Entry>, e: Entry) {
    exists k :: 0 <= k < |es| && es[k].id == e.id && es[k].vec == e.vec
  }

  lemma EvictedKeeps(es: seq<Entry>)
    requires es != []
    ensures |Evicted(es)| == |es| - 1
    ensures forall e :: e in Evicted(es) ==> KeptFrom(es, e)
    ensures Ascending(es) ==> Ascending(Evicted(es))
  {
    var k := FirstClear(es);
    var r := Evicted(es);
    forall j | 0 <= j < |r|
      ensures r[j].id == es[if k < |es| && j < k then j else j + 1].id
          && r[j].vec == es[if k < |es| && j < k then j else j + 1].vec
    {
    }
  }

  predicate Ascending(es: seq<Entry>) {
    forall j, k :: 0 <= j < k < |es| ==> es[j].id < es[k].id
  }

  lemma InsertKeeps(es: seq<Entry>, it: nat, e: Entry, es': seq<Entry>)
    requires Ascending(es) && it <= |es| && (forall k :: 0 <= k < it ==> es[k].id < e.id)
    requires (forall k :: it <= k < |es| ==> es[k].id > e.id) && es' == es[..it] + [e] + es[it..]
    ensures Ascending(es') && forall f :: f in es' <==> f == e || f in es
  {
    assert forall j :: 0 <= j < |es'| ==> es'[j] == if j < it then es[j] else if j == it then e else es[j - 1];
    assert es'[it] == e;
    forall f | f in es ensures f in es' {
      var k :| 0 <= k < |es| && es[k] == f;
      assert es'[if k < it then k else k + 1] == f;
    }
  }

  lemma {:induction false} FirstClearIs(es: seq<Entry>, k: nat)
    requires k <= |es| && (forall j :: 0 <= j < k ==> es[j].used) && (k < |es| ==> !es[k].used)
    ensures FirstClear(es) == k
  {
    if k > 0 { FirstClearIs(es[1..], k - 1); }
  }

  lemma NoVec(bits: nat)
    ensures IsVec([], bits, [])
  {
  }

  lemma VecMeans(sats: seq<seq<int>>, bits: nat, vec: seq<nat>)
    requires IsVec(sats, bits, vec)
    ensures Wide(sats, bits) && NonDecreasing(vec)
    ensures forall x: nat :: x in vec <==> exists k :: 0 <= k < |sats| && Satisfies(sats[k], bits, x)
  {
    StrictIffDisjoint(sats, bits, vec);
    assert Unfold(VecSeal, 0);
  }

  const FALSE_ID: nat := 0

  class VecCache {
    const maxSize: nat                      // MaxVecCacheSize
    const bits: nat                         // variables of domain 0
    const sats: map<nat, seq<seq<int>>>     // what bdd_allsat yields for each diagram, by its id
    var vecCache: seq<Entry>                // in the order of ids

    ghost predicate Valid()
      reads this
    {
      && maxSize > 0 && bits <= 32 && (forall id :: id in sats ==> Wide(sats[id], bits))
      && FALSE_ID in sats && sats[FALSE_ID] == []
      && |vecCache| <= maxSize && Ascending(vecCache)
      && forall e :: e in vecCache ==> e.id in sats && IsVec(sats[e.id], bits, e.vec)
    }

    constructor (maxSize: nat, bits: nat, sats: map<nat, seq<seq<int>>>)
      requires maxSize > 0 && bits <= 32 && forall id :: id in sats ==> Wide(sats[id], bits)
      requires FALSE_ID in sats && sats[FALSE_ID] == []
      ensures Valid() && vecCache == []
    {
      hide IsVec;
      this.maxSize, this.bits, this.sats, vecCache := maxSize, bits, sats, [];
    }

    /** Makes room for one more entry. */
    method Evict()
      requires 0 < maxSize && |vecCache| <= maxSize
      modifies this
      ensures |vecCache| < maxSize
      ensures vecCache == Room(old(vecCache), maxSize)
      ensures if |old(vecCache)| < maxSize then vecCache == old(vecCache) else ClockTurned(old(vecCache), vecCache)
    {
      ghost var es := vecCache;
      if |es| == maxSize { EvictedMeans(es); }
      while |vecCache| >= maxSize
        invariant |vecCache| <= maxSize
        invariant |vecCache| < maxSize ==> vecCache == if |es| < maxSize then es else Evicted(es)
        invariant |vecCache| == maxSize ==> vecCache == es || (FirstClear(es) == |es| && vecCache == Cleared(es))
        decreases |vecCache|, if FirstClear(vecCache) == |vecCache| then 1 else 0
      {
        Sweep();
      }
    }

    /** One turn of the clock: marks are cleared up to the first unmarked entry, which is erased. */
    method Sweep()
      requires vecCache != []
      modifies this
      ensures var es, k := old(vecCache), FirstClear(old(vecCache));
              vecCache == if k < |es| then Cleared(es[..k]) + es[k + 1..] else Cleared(es)
    {
      ghost var start := vecCache;
      var remove := |vecCache|;
      var it := 0;
      while it < |vecCache|
        invariant it <= |vecCache| == |start| && remove == |start|
        invariant forall j :: 0 <= j < |start| ==> vecCache[j] == if j < it then start[j].(used := false) else start[j]
        invariant forall j :: 0 <= j < it ==> start[j].used
      {
        if !vecCache[it].used {
          remove := it;
          break;
        }
        vecCache := vecCache[it := vecCache[it].(used := false)];
        it := it + 1;
      }
      FirstClearIs(start, it);
      if remove != |vecCache| {
        assert vecCache[..remove] == Cleared(start[..remove]) && vecCache[remove + 1..] == start[remove + 1..];
        vecCache := vecCache[..remove] + vecCache[remove + 1..];
      } else {
        assert vecCache == Cleared(start);
      }
    }

    /** The vector of a diagram, from the cache when it is there. */
    method GetBddVec(id: nat) returns (vec: seq<nat>)
      requires Valid() && id in sats
      modifies this
      ensures Valid() && IsVec(sats[id], bits, vec) && NonDecreasing(vec)
      ensures forall x: nat :: x in vec <==> exists k :: 0 <= k < |sats[id]| && Satisfies(sats[id][k], bits, x)
      ensures forall e :: e in vecCache && e.id != id ==> KeptFrom(old(vecCache), e)
      ensures id == FALSE_ID ==> vecCache == old(vecCache)
      ensures id != FALSE_ID ==>
                if exists k :: 0 <= k < |old(vecCache)| && old(vecCache)[k].id == id then
                  |vecCache| == |old(vecCache)| && forall k :: 0 <= k < |vecCache| ==>
                    vecCache[k] == if old(vecCache)[k].id == id then Entry(id, true, vec) else old(vecCache)[k]
                else
                  forall e :: e in vecCache <==> e == Entry(id, true, vec) || e in Room(old(vecCache), maxSize)
    {
      hide IsVec, Satisfies, Matching;
      if id == FALSE_ID {
        vec := [];
        NoVec(bits);
        VecMeans(sats[id], bits, vec);
        return;
      }
      var it := Lookup(id);
      if it < |vecCache| && vecCache[it].id == id {
        assert vecCache[it] in vecCache;
        vec := Hit(it);
        assert vecCache[it] == Entry(id, true, vec);
      } else {
        vec := Miss(id);
      }
      VecMeans(sats[id], bits, vec);
    }

    method Hit(it: nat) returns (vec: seq<nat>)
      requires Valid() && it < |vecCache|
      modifies this
      ensures Valid() && vecCache == old(vecCache)[it := Entry(old(vecCache)[it].id, true, vec)]
          && vec == old(vecCache)[it].vec
      ensures forall e :: e in vecCache ==> KeptFrom(old(vecCache), e)
    {
      hide IsVec;
      ghost var es := vecCache;
      assert es[it] in es;
      vec := vecCache[it].vec;
      vecCache := vecCache[it := vecCache[it].(used := true)];
      forall e | e in vecCache ensures KeptFrom(es, e) && e.id in sats && IsVec(sats[e.id], bits, e.vec) {
        var k :| 0 <= k < |vecCache| && vecCache[k] == e;
        assert es[k] in es && es[k].id == e.id && es[k].vec == e.vec;
      }
    }

    method Miss(id: nat) returns (vec: seq<nat>)
      requires Valid() && id in sats && forall k :: 0 <= k < |vecCache| ==> vecCache[k].id != id
      modifies this
      ensures Valid() && IsVec(sats[id], bits, vec)
      ensures forall e :: e in vecCache <==> e == Entry(id, true, vec) || e in Room(old(vecCache), maxSize)
      ensures forall e :: e in vecCache && e.id != id ==> KeptFrom(old(vecCache), e)
    {
      hide IsVec;
      MakeRoom();
      vec := FillVector(sats[id], bits);
      assert forall f :: f in vecCache ==> f.id != id;
      Insert(Entry(id, true, vec));
    }

    method MakeRoom()
      requires Valid()
      modifies this
      ensures Valid() && |vecCache| < maxSize
      ensures vecCache == Room(old(vecCache), maxSize)
      ensures forall e :: e in vecCache ==> KeptFrom(old(vecCache), e)
    {
      hide IsVec;
      ghost var es := vecCache;
      if es != [] { EvictedKeeps(es); }
      Evict();
      forall e | e in vecCache ensures KeptFrom(es, e) && e.id in sats && IsVec(sats[e.id], bits, e.vec) {
        if |es| < maxSize { assert e in es; }
        assert KeptFrom(es, e);
      }
    }

    method Insert(e: Entry)
      requires Valid() && |vecCache| < maxSize && e.id in sats && IsVec(sats[e.id], bits, e.vec)
      requires forall f :: f in vecCache ==> f.id != e.id
      modifies this
      ensures Valid() && forall f :: f in vecCache <==> f == e || f in old(vecCache)
    {
      hide IsVec;
      var it := Lookup(e.id);
      ghost var es := vecCache;
      vecCache := vecCache[..it] + [e] + vecCache[it..];
      InsertKeeps(es, it, e, vecCache);
    }

    /** lower_bound in the map. */
    method Lookup(id: nat) returns (it: nat)
      requires Ascending(vecCache)
      ensures it <= |vecCache| && (forall k :: 0 <= k < it ==> vecCache[k].id < id)
      ensures forall k :: it <= k < |vecCache| ==> vecCache[k].id >= id
    {
      it := 0;
      while it < |vecCache| && vecCache[it].id < id
        invariant it <= |vecCache| && forall k :: 0 <= k < it ==> vecCache[k].id < id
      {
        it := it + 1;
      }
    }
  }
}
