/**
 * The Courses list view (`useCoursesFilter`): text search over code, name,
 * faculty and schedule, a status filter, a five-key sort in either
 * direction, and the total and filtered counts.
 *
 * `String.prototype.localeCompare` is the parameter `collate`; the facts
 * about the order need only that it is a consistent comparator.
 */
module CoursesFilter {
  import opened Text
  import opened Seqs
  import opened Ordering
  import opened ViewConfig
  import opened AppStore

  datatype CoursesView = CoursesView(filteredCourses: seq<CourseData>, totalCount: nat, filteredCount: nat)

  /**
   * The course matches an already lower-cased query: the query occurs in the
   * lower-cased code, name, faculty or schedule.
   */
  function MatchesQuery(course: CourseData, query: string): (b: bool)
    ensures b <==> exists k: nat ::
      || OccursAt(ToLower(course.code), query, k)
      || OccursAt(ToLower(course.name), query, k)
      || OccursAt(ToLower(course.faculty), query, k)
      || OccursAt(ToLower(course.schedule), query, k)
  {
    || Includes(ToLower(course.code), query)
    || Includes(ToLower(course.name), query)
    || Includes(ToLower(course.faculty), query)
    || Includes(ToLower(course.schedule), query)
  }

  /**
   * The search stage: skipped when the trimmed query is empty, otherwise
   * matched with the untrimmed lower-cased query. It keeps, in order, exactly
   * the courses that match, or all of them when the query is blank.
   */
  function SearchCourses(courses: seq<CourseData>, searchQuery: string): (r: seq<CourseData>)
    ensures r == Filter(courses, course => IsBlank(searchQuery) || MatchesQuery(course, ToLower(searchQuery)))
  {
    var query := ToLower(searchQuery);
    TrimEmptyIffBlank(searchQuery);
    FilterWhenIsFilter(Trim(searchQuery) != [], courses, course => MatchesQuery(course, query));
    FilterExtensional(courses, When(Trim(searchQuery) != [], course => MatchesQuery(course, query)),
                      course => IsBlank(searchQuery) || MatchesQuery(course, ToLower(searchQuery)));
    FilterWhen(Trim(searchQuery) != [], courses, course => MatchesQuery(course, query))
  }

  /** The status stage: keeps, in order, the courses with the selected status, or all of them for `'all'`. */
  function FilterByStatus(courses: seq<CourseData>, selected: Choice<CourseStatus>): (r: seq<CourseData>)
    ensures r == Filter(courses, (course: CourseData) => Admits(selected, course.status))
  {
    var keep := (course: CourseData) => selected.Only? && course.status == selected.value;
    FilterWhenIsFilter(selected.Only?, courses, keep);
    FilterExtensional(courses, When(selected.Only?, keep), (course: CourseData) => Admits(selected, course.status));
    FilterWhen(selected.Only?, courses, keep)
  }

  /** The two filter stages, in the order the hook applies them: together one filter by `Passes`. */
  function FilterCourses(courses: seq<CourseData>, filter: CoursesFilterState): (r: seq<CourseData>)
    ensures r == Selected(courses, filter)
  {
    var q := filter.searchQuery;
    var sel := filter.selectedStatus;
    FilterTwice(courses, course => IsBlank(q) || MatchesQuery(course, ToLower(q)),
                (course: CourseData) => Admits(sel, course.status), course => Passes(filter, course));
    FilterByStatus(SearchCourses(courses, q), sel)
  }

  /** The text a string-valued sort key selects. */
  function SortText(key: CourseSortKey, course: CourseData): string
    requires key != Progress
  {
    match key
    case Code => course.code
    case Name => course.name
    case Faculty => course.faculty
    case Schedule => course.schedule
  }

  /**
   * The hook's comparator: progress numerically, every other key by
   * collation; the sign flips for `'desc'`. It is negative exactly when `a`
   * goes first in the chosen direction, and zero exactly on a tie.
   */
  function CompareCourses(collate: (string, string) -> int, key: CourseSortKey, order: SortOrder,
                          a: CourseData, b: CourseData): (r: int)
    ensures key == Progress ==> (r == 0 <==> a.progress == b.progress)
    ensures key == Progress ==>
              (r < 0 <==> if order == Asc then a.progress < b.progress else a.progress > b.progress)
    ensures key != Progress ==> (r == 0 <==> collate(SortText(key, a), SortText(key, b)) == 0)
    ensures key != Progress ==>
              (r < 0 <==> if order == Asc then collate(SortText(key, a), SortText(key, b)) < 0
                          else collate(SortText(key, a), SortText(key, b)) > 0)
  {
    if key == Progress then
      (if order == Asc then a.progress - b.progress else b.progress - a.progress)
    else
      Directed(order, collate(SortText(key, a), SortText(key, b)))
  }

  function CoursesComparator(collate: (string, string) -> int, key: CourseSortKey, order: SortOrder)
    : (CourseData, CourseData) -> int
  {
    (a, b) => CompareCourses(collate, key, order, a, b)
  }

  /** `useCoursesFilter`: filter, sort a copy, count. */
  function UseCoursesFilter(coursesData: seq<CourseData>, filter: CoursesFilterState,
                            collate: (string, string) -> int): (view: CoursesView)
    ensures view.totalCount == |coursesData|
    ensures view.filteredCount == |view.filteredCourses| <= view.totalCount
  {
    var sorted := Sort(CoursesComparator(collate, filter.sortBy, filter.sortOrder),
                       FilterCourses(coursesData, filter));
    CoursesView(sorted, |coursesData|, |sorted|)
  }

  // ----- Specification -----

  /** A course passes the view's filter: the search (unless blank) and the status filter. */
  predicate Passes(filter: CoursesFilterState, course: CourseData)
  {
    && (IsBlank(filter.searchQuery) || MatchesQuery(course, ToLower(filter.searchQuery)))
    && Admits(filter.selectedStatus, course.status)
  }

  /** The courses that pass, in their original order: what the view shows before sorting. */
  function Selected(coursesData: seq<CourseData>, filter: CoursesFilterState): (r: seq<CourseData>)
    ensures IsSubsequence(r, coursesData)
  {
    Filter(coursesData, course => Passes(filter, course))
  }

  /** "a may be shown before b" in the selected key and direction. */
  ghost predicate NotAfter(collate: (string, string) -> int, key: CourseSortKey, order: SortOrder,
                           a: CourseData, b: CourseData)
  {
    if key == Progress then
      (if order == Asc then a.progress <= b.progress else a.progress >= b.progress)
    else
      (if order == Asc then collate(SortText(key, a), SortText(key, b)) <= 0
       else collate(SortText(key, a), SortText(key, b)) >= 0)
  }

  /** A course is shown iff it is in the data and passes the search and the status filter. */
  lemma CoursesMembership(coursesData: seq<CourseData>, filter: CoursesFilterState,
                          collate: (string, string) -> int, course: CourseData)
    ensures course in UseCoursesFilter(coursesData, filter, collate).filteredCourses
        <==> course in coursesData && Passes(filter, course)
  {
    var selected := Selected(coursesData, filter);
    var shown := UseCoursesFilter(coursesData, filter, collate).filteredCourses;
    assert multiset(shown) == multiset(selected);
    assert course in shown <==> course in multiset(shown);
    assert course in selected <==> course in multiset(selected);
  }

  /** The view is a permutation of the passing courses, which are a subsequence of the data. */
  lemma CoursesPermutation(coursesData: seq<CourseData>, filter: CoursesFilterState,
                           collate: (string, string) -> int)
    ensures multiset(UseCoursesFilter(coursesData, filter, collate).filteredCourses)
         == multiset(Selected(coursesData, filter))
    ensures IsSubsequence(Selected(coursesData, filter), coursesData)
  {
  }

  /** With a blank query and every status the view shows every course, each as often as the data holds it. */
  lemma CoursesUnfiltered(coursesData: seq<CourseData>, filter: CoursesFilterState,
                          collate: (string, string) -> int)
    requires IsBlank(filter.searchQuery) && filter.selectedStatus == All
    ensures multiset(UseCoursesFilter(coursesData, filter, collate).filteredCourses) == multiset(coursesData)
    ensures UseCoursesFilter(coursesData, filter, collate).filteredCount == |coursesData|
    ensures UseCoursesFilter(coursesData, filter, collate).filteredCourses
         == Sort(CoursesComparator(collate, filter.sortBy, filter.sortOrder), coursesData)
  {
    FilterKeepsAll(coursesData, course => Passes(filter, course));
  }

  lemma CoursesComparatorConsistent(collate: (string, string) -> int, key: CourseSortKey, order: SortOrder)
    requires Consistent(collate)
    ensures Consistent(CoursesComparator(collate, key, order))
  {
    var cmp := CoursesComparator(collate, key, order);
    if key != Progress {
      forall a, b, c | cmp(a, b) <= 0 && cmp(b, c) <= 0 ensures cmp(a, c) <= 0 {
        var x, y, z := SortText(key, a), SortText(key, b), SortText(key, c);
        if order == Asc {
          assert collate(x, y) <= 0 && collate(y, z) <= 0;
        } else {
          assert collate(y, x) <= 0 && collate(z, y) <= 0;
        }
      }
    }
  }

  /** `'desc'` compares every pair with the opposite sign of `'asc'`. */
  lemma DescNegatesAsc(collate: (string, string) -> int, key: CourseSortKey, a: CourseData, b: CourseData)
    ensures CompareCourses(collate, key, Desc, a, b) == -CompareCourses(collate, key, Asc, a, b)
  {
  }

  /** Sorted: non-decreasing in the key for `'asc'`, non-increasing for `'desc'`. */
  lemma CoursesSorted(coursesData: seq<CourseData>, filter: CoursesFilterState,
                      collate: (string, string) -> int)
    requires Consistent(collate)
    ensures var shown := UseCoursesFilter(coursesData, filter, collate).filteredCourses;
            forall i, j :: 0 <= i < j < |shown| ==> NotAfter(collate, filter.sortBy, filter.sortOrder, shown[i], shown[j])
  {
    var cmp := CoursesComparator(collate, filter.sortBy, filter.sortOrder);
    var shown := Sort(cmp, FilterCourses(coursesData, filter));
    assert UseCoursesFilter(coursesData, filter, collate).filteredCourses == shown;
    CoursesComparatorConsistent(collate, filter.sortBy, filter.sortOrder);
    SortSorted(cmp, FilterCourses(coursesData, filter));
    forall i, j | 0 <= i < j < |shown|
      ensures NotAfter(collate, filter.sortBy, filter.sortOrder, shown[i], shown[j])
    {
      assert cmp(shown[i], shown[j]) <= 0;
    }
  }

  /**
   * Stability in both directions: courses tied with `x` under the selected
   * key keep the relative order they have among the passing courses.
   */
  lemma CoursesStable(coursesData: seq<CourseData>, filter: CoursesFilterState,
                      collate: (string, string) -> int, x: CourseData)
    requires Consistent(collate)
    ensures Tied(CoursesComparator(collate, filter.sortBy, Asc), x,
                 UseCoursesFilter(coursesData, filter, collate).filteredCourses)
         == Tied(CoursesComparator(collate, filter.sortBy, Asc), x, Selected(coursesData, filter))
  {
    var ties := CoursesComparator(collate, filter.sortBy, Asc);
    var cmp := CoursesComparator(collate, filter.sortBy, filter.sortOrder);
    var selected := FilterCourses(coursesData, filter);
    assert UseCoursesFilter(coursesData, filter, collate).filteredCourses == Sort(cmp, selected);
    CoursesComparatorConsistent(collate, filter.sortBy, filter.sortOrder);
    SortStable(cmp, x, selected);
    CoursesTiesAgree(collate, filter.sortBy, filter.sortOrder);
    TiedSameTies(ties, cmp, x, Sort(cmp, selected));
    TiedSameTies(ties, cmp, x, selected);
  }

  /** Both directions tie exactly the same pairs. */
  lemma CoursesTiesAgree(collate: (string, string) -> int, key: CourseSortKey, order: SortOrder)
    ensures forall a, b :: CoursesComparator(collate, key, Asc)(a, b) == 0
                       <==> CoursesComparator(collate, key, order)(a, b) == 0
  {
  }

  /**
   * Reversal: if `a` comes strictly before `b` in the key, the ascending
   * view shows `a` before `b` and the descending view shows `b` before `a`.
   */
  lemma CoursesOrderFlips(coursesData: seq<CourseData>, filter: CoursesFilterState,
                          collate: (string, string) -> int, a: CourseData, b: CourseData)
    requires Consistent(collate)
    requires CompareCourses(collate, filter.sortBy, Asc, a, b) < 0
    ensures var up := UseCoursesFilter(coursesData, filter.(sortOrder := Asc), collate).filteredCourses;
            forall i, j :: 0 <= i < |up| && 0 <= j < |up| && up[i] == a && up[j] == b ==> i < j
    ensures var down := UseCoursesFilter(coursesData, filter.(sortOrder := Desc), collate).filteredCourses;
            forall i, j :: 0 <= i < |down| && 0 <= j < |down| && down[i] == b && down[j] == a ==> i < j
  {
    var asc := CoursesComparator(collate, filter.sortBy, Asc);
    var desc := CoursesComparator(collate, filter.sortBy, Desc);
    CoursesComparatorConsistent(collate, filter.sortBy, Asc);
    CoursesComparatorConsistent(collate, filter.sortBy, Desc);
    assert asc(a, b) < 0;
    assert asc(b, a) > 0;
    DescNegatesAsc(collate, filter.sortBy, b, a);
    assert desc(b, a) < 0;
    var up := filter.(sortOrder := Asc);
    var down := filter.(sortOrder := Desc);
    assert UseCoursesFilter(coursesData, up, collate).filteredCourses == Sort(asc, FilterCourses(coursesData, up));
    assert UseCoursesFilter(coursesData, down, collate).filteredCourses == Sort(desc, FilterCourses(coursesData, down));
    SortPlacesBefore(asc, FilterCourses(coursesData, up), a, b);
    SortPlacesBefore(desc, FilterCourses(coursesData, down), b, a);
  }

  /** Sorting an already sorted array changes nothing, so the view is a fixed point of itself. */
  lemma CoursesViewIdempotent(coursesData: seq<CourseData>, filter: CoursesFilterState,
                              collate: (string, string) -> int)
    requires Consistent(collate)
    ensures var shown := UseCoursesFilter(coursesData, filter, collate).filteredCourses;
            UseCoursesFilter(shown, filter, collate).filteredCourses == shown
  {
    var shown := UseCoursesFilter(coursesData, filter, collate).filteredCourses;
    var cmp := CoursesComparator(collate, filter.sortBy, filter.sortOrder);
    forall i | 0 <= i < |shown| ensures Passes(filter, shown[i]) {
      CoursesMembership(coursesData, filter, collate, shown[i]);
    }
    FilterKeepsAll(shown, course => Passes(filter, course));
    CoursesSorted(coursesData, filter, collate);
    CoursesComparatorConsistent(collate, filter.sortBy, filter.sortOrder);
    SortSorted(cmp, FilterCourses(coursesData, filter));
    SortOfSorted(cmp, shown);
  }
}
