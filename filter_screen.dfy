/** The diner's view of the menu narrowed to one course, or to all of them. */
module FilterScreen {
  import opened Sequences
  import opened MenuContext

  /** The picker's value: `'All'` or one course. */
  datatype CourseFilter = All | Only(course: Course)

  /** The screen opens showing every course. */
  const InitialFilter: CourseFilter := All

  /** `filtered`: the whole list for `All`, otherwise the items of the chosen course. */
  function Filtered(menuItems: seq<MenuItem>, filter: CourseFilter): (r: seq<MenuItem>)
    ensures filter.All? ==> r == menuItems
    ensures forall x :: x in r <==> x in menuItems && (filter.All? || x.course == filter.course)
  {
    match filter
    case All => menuItems
    case Only(c) => OfCourse(menuItems, c)
  }

  /** Before the diner picks anything, the whole menu is shown. */
  lemma InitialShowsAll(menuItems: seq<MenuItem>)
    ensures Filtered(menuItems, InitialFilter) == menuItems
  {
  }

  /**
   * With a course chosen, the result holds exactly the input's items of that
   * course, each as often as in the input, in their original relative order.
   */
  lemma FilteredByCourse(menuItems: seq<MenuItem>, c: Course)
    ensures forall x :: x in Filtered(menuItems, Only(c)) <==> x in menuItems && x.course == c
    ensures forall i :: 0 <= i < |Filtered(menuItems, Only(c))| ==> Filtered(menuItems, Only(c))[i].course == c
    ensures forall x :: multiset(Filtered(menuItems, Only(c)))[x] == if x.course == c then multiset(menuItems)[x] else 0
    ensures IsSubsequence(Filtered(menuItems, Only(c)), menuItems)
  {
    var r := Filtered(menuItems, Only(c));
    assert forall i :: 0 <= i < |r| ==> r[i] in r;
    forall x ensures multiset(r)[x] == if x.course == c then multiset(menuItems)[x] else 0 {
      OfCourseMultiplicity(menuItems, c, x);
    }
    OfCourseSubsequence(menuItems, c);
  }

  /** Filtering never lengthens the list. */
  lemma FilteredNoLonger(menuItems: seq<MenuItem>, filter: CourseFilter)
    ensures |Filtered(menuItems, filter)| <= |menuItems|
    ensures filter.All? ==> Filtered(menuItems, filter) == menuItems
  {
    if filter.Only? {
      OfCourseSubsequence(menuItems, filter.course);
      SubsequenceLength(Filtered(menuItems, filter), menuItems);
    }
  }

  /** Filtering the result again with the same selection changes nothing. */
  lemma FilteredIdempotent(menuItems: seq<MenuItem>, filter: CourseFilter)
    ensures Filtered(Filtered(menuItems, filter), filter) == Filtered(menuItems, filter)
  {
    if filter.Only? {
      var r := Filtered(menuItems, filter);
      assert forall i :: 0 <= i < |r| ==> r[i] in r;
      OfCourseOfUniform(r, filter.course);
    }
  }
}
