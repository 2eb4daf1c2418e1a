/** The one-pass merges of two block lists, step by step: each predicate relates a half-finished
    pass to the recursive function that it computes, each lemma is one comparison of the pass. */
module BitmapMerges {
  import opened BitmapNodes
  import opened BitmapLists
  import opened Seals

  // ---- One bit ----

  /** The list after a bit was written into the block found or created for it. */
  lemma Wrote(s: seq<BitmapNode>, it: nat, id: nat, added: bool, t: seq<BitmapNode>)
    requires Canon(s) && it <= |s|
    requires !added ==> it < |s| && s[it].index == id / BITS_PER_FIELD
    requires !added ==> t == s[it := s[it].Put(id % BITS_PER_FIELD, true)]
    requires added && it > 0 ==> s[it - 1].index < id / BITS_PER_FIELD
    requires added && it < |s| ==> id / BITS_PER_FIELD < s[it].index
    requires added ==> var e := EmptyNode(id / BITS_PER_FIELD);
                       t == (s[..it] + [e] + s[it..])[it := e.Put(id % BITS_PER_FIELD, true)]
    ensures Canon(t) && forall x: nat :: Has(t, x) <==> x == id || Has(s, x)
    ensures added ==> !Has(s, id)
  {
    if added {
      var e := EmptyNode(id / BITS_PER_FIELD);
      assert t == s[..it] + [e.Put(id % BITS_PER_FIELD, true)] + s[it..];
      InsertBit(s, it, id, t);
    } else {
      PutBit(s, it, id, t);
    }
  }

  // ---- A merge in progress ----

  ghost function Rest(A: seq<BitmapNode>, B: seq<BitmapNode>, p: nat, j: nat): seq<BitmapNode>
    requires Canon(A) && Canon(B) && p <= |A| && j <= |B|
  {
    Union(A[p..], B[j..])
  }

  lemma RestStep(A: seq<BitmapNode>, B: seq<BitmapNode>, p: nat, j: nat)
    requires Canon(A) && Canon(B) && p <= |A| && j < |B|
    ensures if p == |A| || A[p].index > B[j].index then Rest(A, B, p, j) == [B[j]] + Rest(A, B, p, j + 1)
            else if A[p].index == B[j].index then Rest(A, B, p, j) == [OrNode(A[p], B[j])] + Rest(A, B, p + 1, j + 1)
            else Rest(A, B, p, j) == [A[p]] + Rest(A, B, p + 1, j)
  {
    assert B[j..][1..] == B[j + 1..];
    if p < |A| { assert A[p..][1..] == A[p + 1..]; }
  }

  /** The list under merge is a finished prefix followed by what is left of A. */
  ghost predicate Merging(A: seq<BitmapNode>, B: seq<BitmapNode>, s: seq<BitmapNode>, i: nat, p: nat, j: nat,
                          ch: bool) {
    forall k {:trigger Unfold(MergeSeal, k)} :: Unfold(MergeSeal, k) ==>
      && Canon(A) && Canon(B) && i <= |s| && p <= |A| && j <= |B|
      && s[i..] == A[p..]
      && s[..i] + Rest(A, B, p, j) == Union(A, B)
      && (!ch ==> s == A)
      && (ch ==> Union(A, B) != A)
  }

  lemma MergeStart(A: seq<BitmapNode>, B: seq<BitmapNode>)
    requires Canon(A) && Canon(B)
    ensures Merging(A, B, A, 0, 0, 0, false)
  {
    assert A[0..] == A && B[0..] == B && A[..0] == [];
  }

  lemma MergeInsert(A: seq<BitmapNode>, B: seq<BitmapNode>, s: seq<BitmapNode>, i: nat, p: nat, j: nat, ch: bool)
    requires p <= |A| && j < |B| && i <= |s| && (i < |s| ==> s[i].index > B[j].index)
    requires Merging(A, B, s, i, p, j, ch)
    ensures Merging(A, B, s[..i] + [B[j]] + s[i..], i + 1, p, j + 1, true)
  {
    assert Unfold(MergeSeal, 0);
    if i < |s| { SuffixHead(s, i, A, p); }
    RestStep(A, B, p, j);
    Splice(s, i, B[j], Rest(A, B, p, j + 1));
  }

  lemma MergeBoth(A: seq<BitmapNode>, B: seq<BitmapNode>, s: seq<BitmapNode>, i: nat, p: nat, j: nat, ch: bool)
    requires p <= |A| && j < |B| && i < |s| && Merging(A, B, s, i, p, j, ch) && s[i].index == B[j].index
    ensures p < |A| && s[i] == A[p] && s[i].WF() && B[j].WF()
    ensures var b := OrNode(s[i], B[j]); Merging(A, B, s[i := b], i + 1, p + 1, j + 1, ch || b != s[i])
  {
    assert Unfold(MergeSeal, 0);
    SuffixHead(s, i, A, p);
    RestStep(A, B, p, j);
    Overwrite(s, i, OrNode(s[i], B[j]), Rest(A, B, p + 1, j + 1));
  }

  lemma MergeSkip(A: seq<BitmapNode>, B: seq<BitmapNode>, s: seq<BitmapNode>, i: nat, p: nat, j: nat, ch: bool)
    requires p <= |A| && j < |B| && i < |s| && Merging(A, B, s, i, p, j, ch) && s[i].index < B[j].index
    ensures p < |A| && Merging(A, B, s, i + 1, p + 1, j, ch)
  {
    assert Unfold(MergeSeal, 0);
    SuffixHead(s, i, A, p);
    RestStep(A, B, p, j);
    Overwrite(s, i, s[i], Rest(A, B, p + 1, j));
    assert s[i := s[i]] == s;
  }

  lemma MergeDone(A: seq<BitmapNode>, B: seq<BitmapNode>, s: seq<BitmapNode>, i: nat, p: nat, ch: bool)
    requires Merging(A, B, s, i, p, |B|, ch)
    ensures Canon(s)
    ensures forall x: nat :: Has(s, x) <==> Has(A, x) || Has(B, x)
    ensures ch <==> exists x: nat :: Has(B, x) && !Has(A, x)
  {
    assert Unfold(MergeSeal, 0);
    UnionChange(A, B);
    assert B[|B|..] == [];
    assert s == s[..i] + s[i..];
  }

  // ---- An intersection in progress ----

  /** What is left of both lists meets in what is left of B. */
  ghost predicate Meeting(R: seq<BitmapNode>, I: seq<BitmapNode>, j: nat, k: nat, B: seq<BitmapNode>, m: nat) {
    forall u {:trigger Unfold(MeetSeal, u)} :: Unfold(MeetSeal, u) ==>
      && Canon(R) && Canon(I) && j <= |R| && k <= |I| && m <= |B|
      && B[m..] == Meet(R[j..], I[k..])
  }

  /** When the receiver is the intersecting list: its position is at most one block past it. */
  ghost predicate Trails(R: seq<BitmapNode>, I: seq<BitmapNode>, i: nat, j: nat, k: nat) {
    i <= k || (i == k + 1 <= |I| && (j < |R| ==> R[j].index > I[k].index))
  }

  lemma MeetStart(R: seq<BitmapNode>, I: seq<BitmapNode>)
    requires Canon(R) && Canon(I)
    ensures Meeting(R, I, 0, 0, Meet(R, I), 0)
  {
    assert R[0..] == R && I[0..] == I && Meet(R, I)[0..] == Meet(R, I);
  }

  lemma MeetStep(R: seq<BitmapNode>, I: seq<BitmapNode>, j: nat, k: nat, B: seq<BitmapNode>, m: nat)
    requires j < |R| && k < |I| && m <= |B|
    requires Meeting(R, I, j, k, B, m)
    ensures R[j].WF() && I[k].WF()
    ensures R[j].index > I[k].index ==> Meeting(R, I, j, k + 1, B, m)
    ensures R[j].index < I[k].index ==> Meeting(R, I, j + 1, k, B, m)
    ensures R[j].index == I[k].index ==>
              if AndNode(R[j], I[k]).None() then Meeting(R, I, j + 1, k, B, m)
              else m < |B| && B[m] == AndNode(R[j], I[k]) && Meeting(R, I, j + 1, k, B, m + 1)
  {
    assert Unfold(MeetSeal, 0);
    var r, i := R[j..], I[k..];
    assert r[1..] == R[j + 1..] && i[1..] == I[k + 1..];
    if R[j].index == I[k].index {
      assert Meet(r[1..], i) == Meet(r[1..], i[1..]);
      if !AndNode(R[j], I[k]).None() {
        assert |B[m..]| > 0 && B[m] == B[m..][0] && B[m + 1..] == B[m..][1..];
      }
    }
  }

  lemma MeetOrder(R: seq<BitmapNode>, I: seq<BitmapNode>, j: nat, k: nat, B: seq<BitmapNode>, m: nat, i: nat)
    requires j < |R| && k < |I| && m <= |B| && Meeting(R, I, j, k, B, m)
    ensures i < j ==> R[i].index < R[j].index
    ensures i < k ==> I[i].index < I[k].index
    ensures j + 1 < |R| ==> R[j].index < R[j + 1].index
  {
    assert Unfold(MeetSeal, 0);
  }

  lemma MeetEnd(R: seq<BitmapNode>, I: seq<BitmapNode>, j: nat, k: nat, B: seq<BitmapNode>, m: nat)
    requires Meeting(R, I, j, k, B, m) && m <= |B| && (j == |R| || k == |I|)
    ensures m == |B|
  {
    assert Unfold(MeetSeal, 0);
    assert |B[m..]| == 0;
  }

  lemma SuffixHead<T>(s: seq<T>, i: nat, a: seq<T>, p: nat)
    requires i < |s| && p <= |a| && s[i..] == a[p..]
    ensures p < |a| && s[i] == a[p] && s[i + 1..] == a[p + 1..]
  {
    assert |s[i..]| == |a[p..]| && s[i] == s[i..][0] == a[p..][0];
    assert s[i..][1..] == s[i + 1..] && a[p..][1..] == a[p + 1..];
  }

  lemma Splice<T>(s: seq<T>, i: nat, n: T, rest: seq<T>)
    requires i <= |s|
    ensures var t, u := s[..i] + [n] + s[i..], s[..i] + ([n] + rest);
            t[..i + 1] + rest == u && t[i + 1..] == s[i..] && u[i] == n
  {
    var t, u := s[..i] + [n] + s[i..], s[..i] + ([n] + rest);
    assert t[..i + 1] == s[..i] + [n];
  }

  lemma Overwrite<T>(s: seq<T>, i: nat, n: T, rest: seq<T>)
    requires i < |s|
    ensures var t, u := s[i := n], s[..i] + ([n] + rest);
            t[..i + 1] + rest == u && t[i + 1..] == s[i + 1..] && u[i] == n
  {
    var t, u := s[i := n], s[..i] + ([n] + rest);
    assert t[..i + 1] == s[..i] + [n];
  }

  // ---- operator&= in progress ----

  /** What operator&= returns. */
  predicate AndFlag(a: seq<BitmapNode>, b: seq<BitmapNode>)
    requires Canon(a) && Canon(b)
  {
    SameEnd(a, b) || DropsLast(a, b)
  }

  /** operator&= is wrong about a change in exactly two ways: it reports one that did not happen when nothing is
      lost and both bitmaps end in the same block, and it misses one when they do not and the last block they
      share, if any, keeps all its bits. */
  lemma AndFlagExact(a: seq<BitmapNode>, b: seq<BitmapNode>)
    requires Canon(a) && Canon(b)
    ensures AndFlag(a, b) && Meet(a, b) == a <==> SameEnd(a, b) && forall x: nat :: Has(a, x) ==> Has(b, x)
    ensures !AndFlag(a, b) && Meet(a, b) != a <==>
              !SameEnd(a, b) && !DropsLast(a, b) && !forall x: nat :: Has(a, x) ==> Has(b, x)
  {
    MeetChange(a, b);
    if DropsLast(a, b) { DropsLastMeans(a, b); }
  }

  /** Both errors occur: {0} &= {0} is reported as a change, {0, 128} &= {0} is not. */
  lemma AndFlagWrong()
    ensures exists a, b :: Canon(a) && Canon(b) && Meet(a, b) == a && AndFlag(a, b)
    ensures exists a, b :: Canon(a) && Canon(b) && Meet(a, b) != a && !AndFlag(a, b)
  {
    var x, y := EmptyNode(0).Put(0, true), EmptyNode(1).Put(0, true);
    FreshHolds(0, 0);
    FreshHolds(128, 128);
    assert x.words[0][0] && y.words[0][0];
    var a, c := [x], [x, y];
    assert Canon(a) && Canon(c);
    OrSelf(x);
    assert a[1..] == [];
    assert Meet(a, a) == [AndNode(x, x)] + Meet([], []) == a;
    assert SameEnd(a, a) && AndFlag(a, a);
    assert c[1..] == [y];
    assert Meet(c, a) == [AndNode(x, x)] + Meet([y], []) == a;
    assert c[..1] == a && !DropsLast(a, a) && DropsLast(c, a) == DropsLast(a, a);
    assert a != c && !AndFlag(c, a);
  }

  /** {0, 128} - {0} reads past the end of {0}, and {0} - {0} is a block without ids. */
  lemma MinusWrong()
    ensures var x, y := EmptyNode(0).Put(0, true), EmptyNode(1).Put(0, true);
            && Canon([x]) && Canon([x, y]) && [x][0].index < [x, y][1].index
            && |Minus([x], [x])| == 1 && !Canon(Minus([x], [x]))
            && forall id: nat :: !Has(Minus([x], [x]), id)
  {
    var x, y := EmptyNode(0).Put(0, true), EmptyNode(1).Put(0, true);
    FreshHolds(0, 0);
    FreshHolds(128, 128);
    assert x.words[0][0] && y.words[0][0];
    assert Canon([x]) && Canon([x, y]);
    MinusMeans([x], [x]);
    assert [x][1..] == [] && Minus([x], [x]) == [MinusNode(x, x)] + Minus([], [x]);
    NoneHolds(MinusNode(x, x));
    forall id: nat ensures !Holds(MinusNode(x, x), id) { NodeOps(x, x, id); }
  }

  ghost function RestMeet(A: seq<BitmapNode>, B: seq<BitmapNode>, p: nat, j: nat): seq<BitmapNode>
    requires Canon(A) && Canon(B) && p <= |A| && j <= |B|
  {
    Meet(A[p..], B[j..])
  }

  lemma RestMeetStep(A: seq<BitmapNode>, B: seq<BitmapNode>, p: nat, j: nat)
    requires Canon(A) && Canon(B) && p < |A| && j < |B|
    ensures A[p].WF() && B[j].WF() && !A[p].None()
    ensures if A[p].index > B[j].index then RestMeet(A, B, p, j) == RestMeet(A, B, p, j + 1)
            else if A[p].index < B[j].index then RestMeet(A, B, p, j) == RestMeet(A, B, p + 1, j)
            else var b := AndNode(A[p], B[j]);
                 RestMeet(A, B, p, j) == if b.None() then RestMeet(A, B, p + 1, j + 1)
                     else [b] + RestMeet(A, B, p + 1, j + 1)
  {
    assert A[p..][1..] == A[p + 1..] && B[j..][1..] == B[j + 1..];
  }

  /** Neither list has gone past the other. */
  predicate Abreast(A: seq<BitmapNode>, B: seq<BitmapNode>, p: nat, j: nat)
    requires p <= |A| && j <= |B|
  {
    && (p > 0 && j < |B| ==> A[p - 1].index < B[j].index)
    && (j > 0 && p < |A| ==> B[j - 1].index < A[p].index)
    && (p == |A| && j == |B| ==> SameEnd(A, B))
  }

  ghost predicate Cutting(A: seq<BitmapNode>, B: seq<BitmapNode>, s: seq<BitmapNode>, i: nat, p: nat, j: nat,
                          ch: bool) {
    forall k {:trigger Unfold(CutSeal, k)} :: Unfold(CutSeal, k) ==>
      && Canon(A) && Canon(B) && i <= |s| && p <= |A| && j <= |B|
      && s[i..] == A[p..]
      && s[..i] + RestMeet(A, B, p, j) == Meet(A, B)
      && Abreast(A, B, p, j) && ch == DropsLast(A[..p], B[..j])
  }

  lemma CutStart(A: seq<BitmapNode>, B: seq<BitmapNode>)
    requires Canon(A) && Canon(B) && !(A == [] && B == [])
    ensures Cutting(A, B, A, 0, 0, 0, false)
  {
    assert A[0..] == A && B[0..] == B && A[..0] == [] && B[..0] == [];
  }

  lemma CutAbove(A: seq<BitmapNode>, B: seq<BitmapNode>, s: seq<BitmapNode>, i: nat, p: nat, j: nat, ch: bool)
    requires i < |s| && p <= |A| && j < |B| && Cutting(A, B, s, i, p, j, ch) && s[i].index > B[j].index
    ensures Cutting(A, B, s, i, p, j + 1, ch)
  {
    assert Unfold(CutSeal, 0);
    SuffixHead(s, i, A, p);
    RestMeetStep(A, B, p, j);
    PassFlag(A, B, p, j);
  }

  lemma CutBelow(A: seq<BitmapNode>, B: seq<BitmapNode>, s: seq<BitmapNode>, i: nat, p: nat, j: nat, ch: bool)
    requires i < |s| && p <= |A| && j < |B| && Cutting(A, B, s, i, p, j, ch) && s[i].index < B[j].index
    ensures p < |A| && Cutting(A, B, s[..i] + s[i + 1..], i, p + 1, j, ch)
  {
    assert Unfold(CutSeal, 0);
    SuffixHead(s, i, A, p);
    RestMeetStep(A, B, p, j);
    Erased(s, i);
    PassFlag(A, B, p, j);
  }

  lemma CutBoth(A: seq<BitmapNode>, B: seq<BitmapNode>, s: seq<BitmapNode>, i: nat, p: nat, j: nat, ch: bool)
    requires i < |s| && p <= |A| && j < |B| && Cutting(A, B, s, i, p, j, ch) && s[i].index == B[j].index
    ensures p < |A| && s[i] == A[p] && s[i].WF() && B[j].WF() && !s[i].None()
    ensures var b := AndNode(s[i], B[j]);
            if b.None() then Cutting(A, B, s[..i] + s[i + 1..], i, p + 1, j + 1, b != s[i])
            else Cutting(A, B, s[i := b], i + 1, p + 1, j + 1, b != s[i])
  {
    hide Canon, Meet, DropsLast, RestMeet, AndNode, Abreast;
    assert Unfold(CutSeal, 0);
    SuffixHead(s, i, A, p);
    RestMeetStep(A, B, p, j);
    var b := AndNode(s[i], B[j]);
    CutFlag(A, B, p, j);
    if b.None() {
      Erased(s, i);
    } else {
      Overwrite(s, i, b, RestMeet(A, B, p + 1, j + 1));
    }
  }

  /** Passing over the smaller block leaves the flag as it is. */
  lemma PassFlag(A: seq<BitmapNode>, B: seq<BitmapNode>, p: nat, j: nat)
    requires Canon(A) && Canon(B) && p < |A| && j < |B| && Abreast(A, B, p, j)
    ensures A[p].index > B[j].index ==>
              Abreast(A, B, p, j + 1) && DropsLast(A[..p], B[..j + 1]) == DropsLast(A[..p], B[..j])
    ensures A[p].index < B[j].index ==>
              Abreast(A, B, p + 1, j) && DropsLast(A[..p + 1], B[..j]) == DropsLast(A[..p], B[..j])
  {
    if A[p].index > B[j].index {
      DropsLastTail(A[..p], B[..j + 1], p, j);
      assert B[..j + 1][..j] == B[..j] && A[..p][..p] == A[..p];
    }
    if A[p].index < B[j].index {
      DropsLastTail(A[..p + 1], B[..j], p, j);
      assert A[..p + 1][..p] == A[..p] && B[..j][..j] == B[..j];
    }
  }

  lemma CutFlag(A: seq<BitmapNode>, B: seq<BitmapNode>, p: nat, j: nat)
    requires Canon(A) && Canon(B) && p < |A| && j < |B| && A[p].index == B[j].index
    ensures DropsLast(A[..p + 1], B[..j + 1]) == (AndNode(A[p], B[j]) != A[p])
    ensures Abreast(A, B, p + 1, j + 1)
  {
  }

  lemma CutDone(A: seq<BitmapNode>, B: seq<BitmapNode>, s: seq<BitmapNode>, i: nat, p: nat, j: nat, ch: bool)
    requires i <= |s| && p <= |A| && j <= |B| && Cutting(A, B, s, i, p, j, ch)
    requires j == |B| || i == |s|
    ensures Canon(A) && Canon(B) && s[..i] == Meet(A, B)
    ensures AndFlag(A, B) <==> ch || (i == |s| && j == |B|)
  {
    assert Unfold(CutSeal, 0);
    assert |s[i..]| == |A[p..]|;
    DropsLastTail(A, B, p, j);
  }

  lemma EraseWritten<T>(s: seq<T>, i: nat, b: T)
    requires i < |s|
    ensures var t := s[i := b]; t[..i] + t[i + 1..] == s[..i] + s[i + 1..]
  {
  }

  lemma Erased<T>(s: seq<T>, i: nat)
    requires i < |s|
    ensures var t := s[..i] + s[i + 1..]; t[..i] == s[..i] && t[i..] == s[i + 1..]
  {
  }

  // ---- operator- in progress ----

  ghost predicate Subtracting(A: seq<BitmapNode>, B: seq<BitmapNode>, i: nat, j: nat, r: seq<BitmapNode>) {
    forall k {:trigger Unfold(SubtractSeal, k)} :: Unfold(SubtractSeal, k) ==>
      && Canon(A) && Canon(B) && i <= |A| && j <= |B|
      && r + Minus(A[i..], B[j..]) == Minus(A, B)
      && (j == |B| > 0 ==> i < |A| && B[j - 1].index < A[i].index)
      && (i > 0 && j < |B| ==> exists k :: 0 <= k < |B| && A[i - 1].index <= B[k].index)
  }

  lemma SubtractStart(A: seq<BitmapNode>, B: seq<BitmapNode>)
    requires Canon(A) && Canon(B) && B != []
    ensures Subtracting(A, B, 0, 0, [])
  {
    assert A[0..] == A && B[0..] == B;
  }

  lemma SubtractSkip(A: seq<BitmapNode>, B: seq<BitmapNode>, i: nat, j: nat, r: seq<BitmapNode>)
    requires i < |A| && j < |B| && B[j].index < A[i].index && Subtracting(A, B, i, j, r)
    ensures Subtracting(A, B, i, j + 1, r)
  {
    assert Unfold(SubtractSeal, 0);
    assert B[j..][1..] == B[j + 1..];
  }

  lemma SubtractStep(A: seq<BitmapNode>, B: seq<BitmapNode>, i: nat, j: nat, r: seq<BitmapNode>)
    requires i < |A| && j < |B| && A[i].index <= B[j].index && Subtracting(A, B, i, j, r)
    ensures A[i].WF() && B[j].WF()
    ensures A[i].index == B[j].index ==> Subtracting(A, B, i + 1, j, r + [MinusNode(A[i], B[j])])
    ensures A[i].index != B[j].index ==> Subtracting(A, B, i + 1, j, r + [A[i]])
  {
    assert Canon(A) && Canon(B) by { assert Unfold(SubtractSeal, 0); }
    var n := if A[i].index == B[j].index then MinusNode(A[i], B[j]) else A[i];
    assert Minus(A[i..], B[j..]) == [n] + Minus(A[i + 1..], B[j..]) by { assert A[i..][1..] == A[i + 1..]; }
    SubtractOne(A, B, i, j, r, n);
  }

  lemma SubtractOne(A: seq<BitmapNode>, B: seq<BitmapNode>, i: nat, j: nat, r: seq<BitmapNode>, n: BitmapNode)
    requires Canon(A) && Canon(B) && i < |A| && j < |B| && A[i].index <= B[j].index && Subtracting(A, B, i, j, r)
    requires Minus(A[i..], B[j..]) == [n] + Minus(A[i + 1..], B[j..])
    ensures Subtracting(A, B, i + 1, j, r + [n])
  {
    hide Minus;
    assert Unfold(SubtractSeal, 0);
    assert r + [n] + Minus(A[i + 1..], B[j..]) == r + ([n] + Minus(A[i + 1..], B[j..]));
  }

  lemma SubtractDone(A: seq<BitmapNode>, B: seq<BitmapNode>, i: nat, j: nat, r: seq<BitmapNode>)
    requires Canon(A) && Canon(B) && B != [] && i <= |A| && j <= |B| && Subtracting(A, B, i, j, r)
    requires i < |A| ==> j == |B|
    ensures i == |A| <==> A == [] || A[|A| - 1].index <= B[|B| - 1].index
    ensures i == |A| ==> r == Minus(A, B)
  {
    SubtractEnds(A, B, i, j, r);
    if i == |A| {
      assert r + Minus(A[i..], B[j..]) == Minus(A, B) by { assert Unfold(SubtractSeal, 0); }
      assert A[i..] == [] && r + [] == r;
    }
  }

  lemma SubtractEnds(A: seq<BitmapNode>, B: seq<BitmapNode>, i: nat, j: nat, r: seq<BitmapNode>)
    requires Canon(A) && Canon(B) && B != [] && i <= |A| && j <= |B| && Subtracting(A, B, i, j, r)
    requires i < |A| ==> j == |B|
    ensures i == |A| <==> A == [] || A[|A| - 1].index <= B[|B| - 1].index
  {
    hide Minus;
    assert (j == |B| > 0 ==> i < |A| && B[j - 1].index < A[i].index)
           && (i > 0 && j < |B| ==> exists k :: 0 <= k < |B| && A[i - 1].index <= B[k].index)
      by { assert Unfold(SubtractSeal, 0); }
    if i < |A| {
      assert A[i].index <= A[|A| - 1].index;
    } else if i > 0 {
      var k :| 0 <= k < |B| && A[i - 1].index <= B[k].index;
      assert B[k].index <= B[|B| - 1].index;
    }
  }
}
