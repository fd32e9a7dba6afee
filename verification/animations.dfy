/**
 * ScrollAnimations in script.js: the elements to animate are marked
 * `animate-element` and observed; the observer callback adds `animate-in` to every
 * entry that intersects, and never removes it.
 */
module ScrollAnimations {
  import opened Observers

  /** The elements carrying `animate-in` after one callback. */
  function Revealed(animateIn: set<nat>, entries: seq<Entry>): set<nat> {
    animateIn + IntersectingTargets(entries)
  }

  /** Revealing is one-way: nothing that was revealed stops being revealed. */
  lemma RevealedMonotone(animateIn: set<nat>, entries: seq<Entry>)
    ensures animateIn <= Revealed(animateIn, entries)
  {
  }

  /** An element leaving the viewport keeps its `animate-in`. */
  lemma LeavingKeepsRevealed(animateIn: set<nat>, entries: seq<Entry>)
    requires forall k | 0 <= k < |entries| :: !entries[k].isIntersecting
    ensures Revealed(animateIn, entries) == animateIn
  {
  }

  /** A repeated intersection changes nothing. */
  lemma RevealedIdempotent(animateIn: set<nat>, entries: seq<Entry>)
    ensures Revealed(Revealed(animateIn, entries), entries) == Revealed(animateIn, entries)
  {
  }

  /** Two callbacks in turn reveal what one callback with both batches would. */
  lemma RevealedInTurn(animateIn: set<nat>, a: seq<Entry>, b: seq<Entry>)
    ensures Revealed(Revealed(animateIn, a), b) == Revealed(animateIn, a + b)
  {
    IntersectingTargetsAppend(a, b);
  }

  class ScrollAnimations {
    /** Elements marked `animate-element` and handed to the observer. */
    var observed: set<nat>
    /** Elements carrying `animate-in`. */
    var animateIn: set<nat>

    ghost predicate Valid()
      reads this
    {
      animateIn <= observed
    }

    /** init: create the observer, then observe the elements to animate. */
    constructor (elements: seq<nat>)
      ensures Valid() && animateIn == {}
      ensures observed == set k | 0 <= k < |elements| :: elements[k]
    {
      observed := {};
      animateIn := {};
      new;
      ObserveElements(elements);
    }

    /** observeElements: mark each element `animate-element` and observe it. */
    method ObserveElements(elements: seq<nat>)
      requires Valid()
      modifies this
      ensures Valid() && animateIn == old(animateIn)
      ensures observed == old(observed) + set k | 0 <= k < |elements| :: elements[k]
    {
      var i := 0;
      while i < |elements|
        invariant 0 <= i <= |elements|
        invariant animateIn == old(animateIn) && Valid()
        invariant observed == old(observed) + set k | 0 <= k < i :: elements[k]
      {
        observed := observed + {elements[i]};
        i := i + 1;
      }
    }

    /** The observer callback. The browser reports only observed elements. */
    method OnIntersection(entries: seq<Entry>)
      requires Valid()
      requires forall k | 0 <= k < |entries| :: entries[k].target in observed
      modifies this
      ensures Valid() && observed == old(observed)
      ensures animateIn == Revealed(old(animateIn), entries)
    {
      var i := 0;
      while i < |entries|
        invariant 0 <= i <= |entries|
        invariant observed == old(observed) && Valid()
        invariant animateIn == Revealed(old(animateIn), entries[..i])
      {
        var entry := entries[i];
        if entry.isIntersecting {
          animateIn := animateIn + {entry.target};
        }
        assert entries[..i + 1][..i] == entries[..i];
        i := i + 1;
      }
      assert entries[..i] == entries;
    }
  }
}
