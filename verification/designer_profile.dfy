/** A designer's profile: up to six featured works, shown on small screens
    as a carousel with previous/next arrows and one dot per work. */
module DesignerProfile {
  import opened Base

  /** One featured work. */
  datatype Work = Work(id: int, image: string, alt: string, link: string)

  /** The works shown: the first six featured works, in order. */
  function ShownWorks(featured: seq<Work>): (works: seq<Work>)
    ensures |works| == if |featured| < 6 then |featured| else 6
    ensures works <= featured
  {
    Take(featured, 6)
  }

  /** `handleNext`'s update: the last index goes back to 0, any other
      index moves up by one. */
  function NextIndex(current: int, n: int): (next: int)
  {
    if current == n - 1 then 0 else current + 1
  }

  /** `handlePrev`'s update: index 0 goes to the last index, any other
      index moves down by one. */
  function PrevIndex(current: int, n: int): (prev: int)
  {
    if current == 0 then n - 1 else current - 1
  }

  /** On a non-empty carousel, next and previous are steps of one modulo
      the number of works, so they stay in range. */
  lemma StepsAreModular(current: int, n: int)
    requires 0 <= current < n
    ensures NextIndex(current, n) == (current + 1) % n
    ensures PrevIndex(current, n) == (current - 1 + n) % n
    ensures 0 <= NextIndex(current, n) < n && 0 <= PrevIndex(current, n) < n
  {
    if current == n - 1 {
      assert (current + 1) % n == n % n == 0;
    } else {
      assert (current + 1) % n == current + 1;
    }
    if current == 0 {
      assert (current - 1 + n) % n == n - 1;
    } else {
      assert (current - 1 + n) % n == ((current - 1) + n) % n == current - 1;
    }
  }

  /** Previous undoes next, and next undoes previous. */
  lemma PrevUndoesNext(current: int, n: int)
    requires 0 <= current < n
    ensures PrevIndex(NextIndex(current, n), n) == current
    ensures NextIndex(PrevIndex(current, n), n) == current
  {
  }

  /** The index after `k` presses of next. */
  function NextTimes(current: int, n: int, k: nat): int
  {
    if k == 0 then current else NextIndex(NextTimes(current, n, k - 1), n)
  }

  /** Up to `n` presses of next move `k` places forward, wrapping past the
      last work. */
  lemma {:induction false} NextTimesWraps(current: int, n: int, k: nat)
    requires 0 <= current < n && k <= n
    ensures NextTimes(current, n, k) == if current + k < n then current + k else current + k - n
  {
    if k > 0 {
      NextTimesWraps(current, n, k - 1);
    }
  }

  /** As many presses of next as there are works come back to the start. */
  lemma NextFullCycle(current: int, n: int)
    requires 0 <= current < n
    ensures NextTimes(current, n, n) == current
  {
    NextTimesWraps(current, n, n);
  }

  /** The mobile carousel of one profile. */
  class Carousel {
    const works: seq<Work>
    var current: int

    /** The carousel shows a work, and the index is one of the dots. */
    predicate Valid()
      reads this
    {
      0 <= current < |works|
    }

    /** The carousel starts at the first of the shown works. */
    constructor(featured: seq<Work>)
      ensures works == ShownWorks(featured) && current == 0
      ensures |featured| > 0 ==> Valid()
    {
      works := ShownWorks(featured);
      current := 0;
    }

    /** The work on display. */
    function Shown(): (w: Work)
      requires Valid()
      reads this
      ensures w in works
    {
      works[current]
    }

    /** The "Next" arrow. */
    method Next()
      modifies this
      ensures current == NextIndex(old(current), |works|)
      ensures old(Valid()) ==> Valid()
    {
      if Valid() {
        StepsAreModular(current, |works|);
      }
      current := NextIndex(current, |works|);
    }

    /** The "Previous" arrow. */
    method Prev()
      modifies this
      ensures current == PrevIndex(old(current), |works|)
      ensures old(Valid()) ==> Valid()
    {
      if Valid() {
        StepsAreModular(current, |works|);
      }
      current := PrevIndex(current, |works|);
    }

    /** The dot of work `i`; there is one dot per shown work. */
    method SelectDot(i: int)
      requires 0 <= i < |works|
      modifies this
      ensures current == i && Valid()
    {
      current := i;
    }
  }
}
