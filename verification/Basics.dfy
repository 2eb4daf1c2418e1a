/** Notions shared by the modules. */
module Basics {

  datatype Option<T> = None | Some(value: T)

  ghost predicate Distinct<T>(s: seq<T>) {
    forall j, k :: 0 <= j < k < |s| ==> s[j] != s[k]
  }

  lemma {:induction false} DistinctCount<T>(s: seq<T>)
    ensures Distinct(s) <==> forall x :: multiset(s)[x] <= 1
  {
    if s != [] {
      var k := |s| - 1;
      DistinctCount(s[..k]);
      assert s == s[..k] + [s[k]];
      if Distinct(s) {
        assert s[k] !in s[..k];
      } else if Distinct(s[..k]) {
        var i :| 0 <= i < k && s[i] == s[k];
        assert s[..k][i] == s[k] && multiset(s)[s[k]] >= 2;
      } else {
        var x :| multiset(s[..k])[x] > 1;
        assert multiset(s)[x] > 1;
      }
    }
  }

  predicate StrictlySorted(s: seq<nat>) {
    forall j, k :: 0 <= j < k < |s| ==> s[j] < s[k]
  }

  /** The numbers below n. */
  function UpTo(n: nat): (s: set<nat>)
    ensures forall i: nat {:trigger i in s} :: i in s <==> i < n
  {
    if n == 0 then {} else UpTo(n - 1) + {n - 1}
  }

  lemma {:induction false} UpToSize(n: nat)
    ensures |UpTo(n)| == n
  {
    if n > 0 { UpToSize(n - 1); }
  }

  function Pow2(n: nat): (p: nat)
    ensures p > 0
  {
    if n == 0 then 1 else 2 * Pow2(n - 1)
  }
}
