/** Difference propagation: what a node has handed out since it last started anew. */
module Deliveries {
  import opened Seals

  /** The deliveries are disjoint and together make up all. */
  ghost predicate OnceEach(deliveries: seq<set<nat>>, all: set<nat>) {
    forall u {:trigger Unfold(DeliverySeal, u)} :: Unfold(DeliverySeal, u) ==>
      && (forall x :: x in all <==> exists k :: 0 <= k < |deliveries| && x in deliveries[k])
      && (forall j, k :: 0 <= j < k < |deliveries| ==> deliveries[j] !! deliveries[k])
  }

  /** Everything delivered. */
  function Sent(deliveries: seq<set<nat>>): set<nat> {
    if deliveries == [] then {} else Sent(deliveries[..|deliveries| - 1]) + deliveries[|deliveries| - 1]
  }

  lemma {:induction false} SentMeans(deliveries: seq<set<nat>>, x: nat)
    ensures x in Sent(deliveries) <==> exists k :: 0 <= k < |deliveries| && x in deliveries[k]
  {
    if deliveries != [] {
      var n := |deliveries| - 1;
      SentMeans(deliveries[..n], x);
      assert forall k :: 0 <= k < n ==> deliveries[..n][k] == deliveries[k];
    }
  }

  /** What deliveries make up is what was sent. */
  lemma OnceEachSent(deliveries: seq<set<nat>>, all: set<nat>)
    requires OnceEach(deliveries, all)
    ensures all == Sent(deliveries)
  {
    assert Unfold(DeliverySeal, 0);
    forall x ensures x in all <==> x in Sent(deliveries) { SentMeans(deliveries, x); }
  }

  lemma NothingSent()
    ensures OnceEach([], {}) && Sent([]) == {}
  {
  }

  lemma DeliverNew(deliveries: seq<set<nat>>, before: set<nat>, all: set<nat>)
    requires OnceEach(deliveries, before) && before <= all
    ensures OnceEach(deliveries + [all - before], all)
  {
    assert Unfold(DeliverySeal, 0);
    var ds := deliveries + [all - before];
    forall x ensures x in all <==> exists k :: 0 <= k < |ds| && x in ds[k] {
      if x in before {
        var k :| 0 <= k < |deliveries| && x in deliveries[k];
        assert x in ds[k];
      } else if x in all {
        assert x in ds[|deliveries|];
      }
    }
    forall j, k | 0 <= j < k < |ds| ensures ds[j] !! ds[k] {
      if k == |deliveries| {
        forall x | x in ds[j] ensures x !in ds[k] {
          assert x in deliveries[j];
        }
      }
    }
  }

  predicate InOnly(deliveries: seq<set<nat>>, k: int, x: nat) {
    0 <= k < |deliveries| && x in deliveries[k] && forall j :: 0 <= j < |deliveries| && j != k ==> x !in deliveries[j]
  }

  /** Each delivered element came in exactly one of the deliveries. */
  lemma DeliveredOnce(deliveries: seq<set<nat>>, all: set<nat>, x: nat)
    requires OnceEach(deliveries, all)
    ensures x in all <==> exists k :: InOnly(deliveries, k, x)
  {
    assert Unfold(DeliverySeal, 0);
    if x in all {
      var k :| 0 <= k < |deliveries| && x in deliveries[k];
      assert InOnly(deliveries, k, x);
    }
  }

  /** The first delivery after a reset is the whole set. */
  lemma DeliveredAgain(ret: set<nat>, all: set<nat>)
    requires OnceEach([] + [ret], all)
    ensures ret == all
  {
    assert Unfold(DeliverySeal, 0);
    assert ([] + [ret])[0] == ret;
  }
}
