/** Moving between the elements of a course in CourseContentScreen.tsx
    (`handleNext` and `handleBack`): one element is shown at a time, and
    the buttons step within the list without wrapping. */
module CourseViewer {
  /** The element shown after `handleNext`. */
  function NextIndex(i: nat, count: nat): (r: nat)
    requires i < count
    ensures r < count
    ensures i < count - 1 ==> r == i + 1
    ensures i == count - 1 ==> r == i
  {
    if i < count - 1 then i + 1 else i
  }

  /** The element shown after `handleBack`. */
  function BackIndex(i: nat): (r: nat)
    ensures i > 0 ==> r == i - 1
    ensures i == 0 ==> r == 0
  {
    if i > 0 then i - 1 else i
  }

  /** Back undoes a step forward, and forward undoes a step back. */
  lemma StepsUndo(i: nat, count: nat)
    requires i < count
    ensures i < count - 1 ==> BackIndex(NextIndex(i, count)) == i
    ensures 0 < i ==> NextIndex(BackIndex(i), count) == i
  {
  }

  /** Forward `count` times from anywhere reaches the last element and
      stays there. */
  lemma {:induction false} ForwardReachesEnd(i: nat, count: nat, steps: nat)
    requires i < count && count - 1 - i <= steps
    ensures Forward(i, count, steps) == count - 1
    decreases steps
  {
    if steps > 0 {
      ForwardReachesEnd(NextIndex(i, count), count, steps - 1);
    }
  }

  /** `handleNext` pressed `steps` times. */
  function Forward(i: nat, count: nat, steps: nat): (r: nat)
    requires i < count
    ensures i <= r < count
    decreases steps
  {
    if steps == 0 then i else Forward(NextIndex(i, count), count, steps - 1)
  }

  class ElementPager {
    /** `course.elements.length`. */
    const count: nat
    /** `currentIndex`. */
    var index: nat

    ghost predicate Valid()
      reads this
    {
      index < count
    }

    /** The screen opens on the first element; an empty course has no
        element to render. */
    constructor(count: nat)
      requires 0 < count
      ensures Valid() && this.count == count && index == 0
    {
      this.count := count;
      index := 0;
    }

    /** `handleNext`. */
    method Next()
      requires Valid()
      modifies this
      ensures Valid() && index == NextIndex(old(index), count)
    {
      if index < count - 1 {
        index := index + 1;
      }
    }

    /** `handleBack`. */
    method Back()
      requires Valid()
      modifies this
      ensures Valid() && index == BackIndex(old(index))
    {
      if index > 0 {
        index := index - 1;
      }
    }
  }
}
