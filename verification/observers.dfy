/**
 * What an IntersectionObserver hands to its callback: one entry per observed element
 * whose visibility changed, with the browser's verdict on whether it now intersects.
 * Elements are named by number.
 */
module Observers {

  datatype Entry = Entry(target: nat, isIntersecting: bool)

  /** The targets of the entries that report an intersection. */
  function IntersectingTargets(entries: seq<Entry>): (r: set<nat>)
    ensures forall k | 0 <= k < |entries| && entries[k].isIntersecting :: entries[k].target in r
    ensures forall t | t in r :: exists k | 0 <= k < |entries| :: entries[k].isIntersecting && entries[k].target == t
  {
    if entries == [] then {}
    else
      var last := entries[|entries| - 1];
      IntersectingTargets(entries[..|entries| - 1]) + (if last.isIntersecting then {last.target} else {})
  }

  /** Two batches of entries report the targets of either batch. */
  lemma IntersectingTargetsAppend(a: seq<Entry>, b: seq<Entry>)
    ensures IntersectingTargets(a + b) == IntersectingTargets(a) + IntersectingTargets(b)
  {
    var ab := a + b;
    forall t | t in IntersectingTargets(ab)
      ensures t in IntersectingTargets(a) + IntersectingTargets(b)
    {
      var k :| 0 <= k < |ab| && ab[k].isIntersecting && ab[k].target == t;
      if k >= |a| {
        assert b[k - |a|] == ab[k];
      }
    }
    forall t | t in IntersectingTargets(a) ensures t in IntersectingTargets(ab) {
      var k :| 0 <= k < |a| && a[k].isIntersecting && a[k].target == t;
      assert ab[k] == a[k];
    }
    forall t | t in IntersectingTargets(b) ensures t in IntersectingTargets(ab) {
      var k :| 0 <= k < |b| && b[k].isIntersecting && b[k].target == t;
      assert ab[|a| + k] == b[k];
    }
  }
}
