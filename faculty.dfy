/**
 * The Faculty list view (`useFacultyFilter`): text search over name,
 * department, email and the titles of the current courses, department and
 * status filters, a three-key sort in either direction, the counts, and the
 * sorted list of distinct departments offered as filter options.
 *
 * The faculty record and filter types are not declared in the store; they
 * are taken from the fields the hook and the faculty table read and from the
 * option lists of the faculty filter panel.
 */
module FacultyFilter {
  import opened Text
  import opened Seqs
  import opened Ordering
  import opened ViewConfig

  datatype FacultyStatus = Active | OnLeave | Emeritus

  datatype FacultyData = FacultyData(
    id: string, name: string, department: string, email: string, phone: string,
    office: string, status: FacultyStatus, currentCourses: seq<string>)

  datatype FacultySortKey = Name | Department | Courses

  datatype FacultyFilterState = FacultyFilterState(
    searchQuery: string,
    selectedDepartment: Choice<string>,
    selectedStatus: Choice<FacultyStatus>,
    sortBy: FacultySortKey,
    sortOrder: SortOrder)

  datatype FacultyView = FacultyView(
    filteredFaculty: seq<FacultyData>, totalCount: nat, filteredCount: nat, departments: seq<string>)

  /** One of the member's current courses, lower-cased, contains the query (`currentCourses.some(...)`). */
  function TeachesMatching(member: FacultyData, query: string): (b: bool)
    ensures b <==> exists i: nat, k: nat :: i < |member.currentCourses| && OccursAt(ToLower(member.currentCourses[i]), query, k)
  {
    exists i :: 0 <= i < |member.currentCourses| && Includes(ToLower(member.currentCourses[i]), query)
  }

  /**
   * The member matches an already lower-cased query: the query occurs in the
   * lower-cased name, department or email, or in one of the course titles.
   */
  function MatchesQuery(member: FacultyData, query: string): (b: bool)
    ensures b <==> || (exists k: nat :: OccursAt(ToLower(member.name), query, k))
                   || (exists k: nat :: OccursAt(ToLower(member.department), query, k))
                   || (exists k: nat :: OccursAt(ToLower(member.email), query, k))
                   || (exists i: nat, k: nat :: i < |member.currentCourses|
                                           && OccursAt(ToLower(member.currentCourses[i]), query, k))
  {
    || Includes(ToLower(member.name), query)
    || Includes(ToLower(member.department), query)
    || Includes(ToLower(member.email), query)
    || TeachesMatching(member, query)
  }

  /** The three filter stages, in the order the hook applies them: together one filter by `Passes`. */
  function FilterFaculty(facultyData: seq<FacultyData>, filter: FacultyFilterState): (r: seq<FacultyData>)
    ensures r == Selected(facultyData, filter)
  {
    var q := filter.searchQuery;
    var query := ToLower(q);
    var dept := filter.selectedDepartment;
    var status := filter.selectedStatus;
    TrimEmptyIffBlank(q);
    FilterWhenThrice(facultyData,
      Trim(q) != [], (member: FacultyData) => MatchesQuery(member, query),
      dept.Only?, (member: FacultyData) => dept.Only? && member.department == dept.value,
      status.Only?, (member: FacultyData) => status.Only? && member.status == status.value,
      member => Passes(filter, member));
    var searched := FilterWhen(Trim(q) != [], facultyData,
                               (member: FacultyData) => MatchesQuery(member, query));
    var inDepartment := FilterWhen(dept.Only?, searched,
                                   (member: FacultyData) => dept.Only? && member.department == dept.value);
    FilterWhen(status.Only?, inDepartment,
               (member: FacultyData) => status.Only? && member.status == status.value)
  }

  /** The text a string-valued sort key selects. */
  function SortText(key: FacultySortKey, member: FacultyData): string
    requires key != Courses
  {
    match key
    case Name => member.name
    case Department => member.department
  }

  /**
   * The hook's comparator: course count numerically, name and department by
   * collation; the sign flips for `'desc'`. It is negative exactly when `a`
   * goes first in the chosen direction, and zero exactly on a tie.
   */
  function CompareFaculty(collate: (string, string) -> int, key: FacultySortKey, order: SortOrder,
                          a: FacultyData, b: FacultyData): (r: int)
    ensures key == Courses ==> (r == 0 <==> |a.currentCourses| == |b.currentCourses|)
    ensures key == Courses ==>
              (r < 0 <==> if order == Asc then |a.currentCourses| < |b.currentCourses|
                          else |a.currentCourses| > |b.currentCourses|)
    ensures key != Courses ==> (r == 0 <==> collate(SortText(key, a), SortText(key, b)) == 0)
    ensures key != Courses ==>
              (r < 0 <==> if order == Asc then collate(SortText(key, a), SortText(key, b)) < 0
                          else collate(SortText(key, a), SortText(key, b)) > 0)
  {
    if key == Courses then
      (if order == Asc then |a.currentCourses| - |b.currentCourses|
       else |b.currentCourses| - |a.currentCourses|)
    else
      Directed(order, collate(SortText(key, a), SortText(key, b)))
  }

  function FacultyComparator(collate: (string, string) -> int, key: FacultySortKey, order: SortOrder)
    : (FacultyData, FacultyData) -> int
  {
    (a, b) => CompareFaculty(collate, key, order, a, b)
  }

  function DepartmentsOf(facultyData: seq<FacultyData>): (r: seq<string>)
    ensures |r| == |facultyData|
    ensures forall i :: 0 <= i < |r| ==> r[i] == facultyData[i].department
  {
    seq(|facultyData|, i requires 0 <= i < |facultyData| => facultyData[i].department)
  }

  /**
   * `Array.from(new Set(departments)).sort()`: every department of the data
   * exactly once, in strictly increasing default string order.
   */
  function Departments(facultyData: seq<FacultyData>): (r: seq<string>)
    ensures forall d :: d in r <==> exists i :: 0 <= i < |facultyData| && facultyData[i].department == d
    ensures Distinct(r)
    ensures forall i, j :: 0 <= i < j < |r| ==> CodeUnitCompare(r[i], r[j]) < 0
  {
    var unique := Dedup(DepartmentsOf(facultyData));
    var sorted := Sort(CodeUnitCompare, unique);
    DepartmentsSorted(unique);
    sorted
  }

  lemma DepartmentsSorted(unique: seq<string>)
    requires Distinct(unique)
    ensures var r := Sort(CodeUnitCompare, unique);
            && Distinct(r)
            && (forall d :: d in r <==> d in unique)
            && (forall i, j :: 0 <= i < j < |r| ==> CodeUnitCompare(r[i], r[j]) < 0)
  {
    var r := Sort(CodeUnitCompare, unique);
    CodeUnitCompareConsistent();
    SortSorted(CodeUnitCompare, unique);
    PermutationDistinct(unique, r);
    forall d ensures d in r <==> d in unique {
      assert d in r <==> d in multiset(r);
    }
    forall i, j | 0 <= i < j < |r| ensures CodeUnitCompare(r[i], r[j]) < 0 {
      assert CodeUnitCompare(r[i], r[j]) <= 0;
      assert r[i] != r[j];
    }
  }

  /** `useFacultyFilter`: filter, sort a copy, count, and list the departments. */
  function UseFacultyFilter(facultyData: seq<FacultyData>, filter: FacultyFilterState,
                            collate: (string, string) -> int): (view: FacultyView)
    ensures view.totalCount == |facultyData|
    ensures view.filteredCount == |view.filteredFaculty| <= view.totalCount
  {
    var sorted := Sort(FacultyComparator(collate, filter.sortBy, filter.sortOrder),
                       FilterFaculty(facultyData, filter));
    FacultyView(sorted, |facultyData|, |sorted|, Departments(facultyData))
  }

  // ----- Specification -----

  /** A member passes the view's filter: the search (unless blank), the department and the status filter. */
  predicate Passes(filter: FacultyFilterState, member: FacultyData)
  {
    && (IsBlank(filter.searchQuery) || MatchesQuery(member, ToLower(filter.searchQuery)))
    && Admits(filter.selectedDepartment, member.department)
    && Admits(filter.selectedStatus, member.status)
  }

  /** The members that pass, in their original order. */
  function Selected(facultyData: seq<FacultyData>, filter: FacultyFilterState): (r: seq<FacultyData>)
    ensures IsSubsequence(r, facultyData)
  {
    Filter(facultyData, member => Passes(filter, member))
  }

  /** "a may be shown before b" in the selected key and direction. */
  ghost predicate NotAfter(collate: (string, string) -> int, key: FacultySortKey, order: SortOrder,
                           a: FacultyData, b: FacultyData)
  {
    if key == Courses then
      (if order == Asc then |a.currentCourses| <= |b.currentCourses|
       else |a.currentCourses| >= |b.currentCourses|)
    else
      (if order == Asc then collate(SortText(key, a), SortText(key, b)) <= 0
       else collate(SortText(key, a), SortText(key, b)) >= 0)
  }

  /** A member is shown iff it is in the data and passes the search, department and status filters. */
  lemma FacultyMembership(facultyData: seq<FacultyData>, filter: FacultyFilterState,
                          collate: (string, string) -> int, member: FacultyData)
    ensures member in UseFacultyFilter(facultyData, filter, collate).filteredFaculty
        <==> member in facultyData && Passes(filter, member)
  {
    var selected := Selected(facultyData, filter);
    var shown := UseFacultyFilter(facultyData, filter, collate).filteredFaculty;
    assert multiset(shown) == multiset(selected);
    assert member in shown <==> member in multiset(shown);
    assert member in selected <==> member in multiset(selected);
  }

  /** The view is a permutation of the passing members, which are a subsequence of the data. */
  lemma FacultyPermutation(facultyData: seq<FacultyData>, filter: FacultyFilterState,
                           collate: (string, string) -> int)
    ensures multiset(UseFacultyFilter(facultyData, filter, collate).filteredFaculty)
         == multiset(Selected(facultyData, filter))
    ensures IsSubsequence(Selected(facultyData, filter), facultyData)
  {
  }

  /** With a blank query and both filters at `'all'` the view shows every member, sorted. */
  lemma FacultyUnfiltered(facultyData: seq<FacultyData>, filter: FacultyFilterState,
                          collate: (string, string) -> int)
    requires IsBlank(filter.searchQuery) && filter.selectedDepartment == All && filter.selectedStatus == All
    ensures multiset(UseFacultyFilter(facultyData, filter, collate).filteredFaculty) == multiset(facultyData)
    ensures UseFacultyFilter(facultyData, filter, collate).filteredCount
         == UseFacultyFilter(facultyData, filter, collate).totalCount
    ensures UseFacultyFilter(facultyData, filter, collate).filteredFaculty
         == Sort(FacultyComparator(collate, filter.sortBy, filter.sortOrder), facultyData)
  {
    FilterKeepsAll(facultyData, member => Passes(filter, member));
  }

  lemma FacultyComparatorConsistent(collate: (string, string) -> int, key: FacultySortKey, order: SortOrder)
    requires Consistent(collate)
    ensures Consistent(FacultyComparator(collate, key, order))
  {
    var cmp := FacultyComparator(collate, key, order);
    if key != Courses {
      forall a, b, c | cmp(a, b) <= 0 && cmp(b, c) <= 0 ensures cmp(a, c) <= 0 {
        var x, y, z := SortText(key, a), SortText(key, b), SortText(key, c);
        if order == Asc {
          assert collate(x, y) <= 0 && collate(y, z) <= 0;
        } else {
          assert collate(y, x) <= 0 && collate(z, y) <= 0;
        }
      }
    }
  }

  /** Sorted: non-decreasing in the key for `'asc'`, non-increasing for `'desc'`. */
  lemma FacultySorted(facultyData: seq<FacultyData>, filter: FacultyFilterState,
                      collate: (string, string) -> int)
    requires Consistent(collate)
    ensures var shown := UseFacultyFilter(facultyData, filter, collate).filteredFaculty;
            forall i, j :: 0 <= i < j < |shown| ==> NotAfter(collate, filter.sortBy, filter.sortOrder, shown[i], shown[j])
  {
    var cmp := FacultyComparator(collate, filter.sortBy, filter.sortOrder);
    var shown := Sort(cmp, FilterFaculty(facultyData, filter));
    assert UseFacultyFilter(facultyData, filter, collate).filteredFaculty == shown;
    FacultyComparatorConsistent(collate, filter.sortBy, filter.sortOrder);
    SortSorted(cmp, FilterFaculty(facultyData, filter));
    forall i, j | 0 <= i < j < |shown|
      ensures NotAfter(collate, filter.sortBy, filter.sortOrder, shown[i], shown[j])
    {
      assert cmp(shown[i], shown[j]) <= 0;
    }
  }

  /** Both directions tie exactly the same pairs. */
  lemma FacultyTiesAgree(collate: (string, string) -> int, key: FacultySortKey, order: SortOrder)
    ensures forall a, b :: FacultyComparator(collate, key, Asc)(a, b) == 0
                       <==> FacultyComparator(collate, key, order)(a, b) == 0
  {
  }

  /** Stability in both directions: members tied with `x` keep their relative order. */
  lemma FacultyStable(facultyData: seq<FacultyData>, filter: FacultyFilterState,
                      collate: (string, string) -> int, x: FacultyData)
    requires Consistent(collate)
    ensures Tied(FacultyComparator(collate, filter.sortBy, Asc), x,
                 UseFacultyFilter(facultyData, filter, collate).filteredFaculty)
         == Tied(FacultyComparator(collate, filter.sortBy, Asc), x, Selected(facultyData, filter))
  {
    var ties := FacultyComparator(collate, filter.sortBy, Asc);
    var cmp := FacultyComparator(collate, filter.sortBy, filter.sortOrder);
    var selected := FilterFaculty(facultyData, filter);
    assert UseFacultyFilter(facultyData, filter, collate).filteredFaculty == Sort(cmp, selected);
    FacultyComparatorConsistent(collate, filter.sortBy, filter.sortOrder);
    SortStable(cmp, x, selected);
    FacultyTiesAgree(collate, filter.sortBy, filter.sortOrder);
    TiedSameTies(ties, cmp, x, Sort(cmp, selected));
    TiedSameTies(ties, cmp, x, selected);
  }

  /** The `'desc'` comparator is the `'asc'` one with its sign negated. */
  lemma DescNegatesAsc(collate: (string, string) -> int, key: FacultySortKey, a: FacultyData, b: FacultyData)
    ensures CompareFaculty(collate, key, Desc, a, b) == -CompareFaculty(collate, key, Asc, a, b)
  {
  }

  /** Members that do not tie are shown in one order for `'asc'` and in the other for `'desc'`. */
  lemma FacultyOrderFlips(facultyData: seq<FacultyData>, filter: FacultyFilterState,
                          collate: (string, string) -> int, a: FacultyData, b: FacultyData)
    requires Consistent(collate)
    requires CompareFaculty(collate, filter.sortBy, Asc, a, b) < 0
    ensures var up := UseFacultyFilter(facultyData, filter.(sortOrder := Asc), collate).filteredFaculty;
            forall i, j :: 0 <= i < |up| && 0 <= j < |up| && up[i] == a && up[j] == b ==> i < j
    ensures var down := UseFacultyFilter(facultyData, filter.(sortOrder := Desc), collate).filteredFaculty;
            forall i, j :: 0 <= i < |down| && 0 <= j < |down| && down[i] == b && down[j] == a ==> i < j
  {
    var asc := FacultyComparator(collate, filter.sortBy, Asc);
    var desc := FacultyComparator(collate, filter.sortBy, Desc);
    FacultyComparatorConsistent(collate, filter.sortBy, Asc);
    FacultyComparatorConsistent(collate, filter.sortBy, Desc);
    assert asc(a, b) < 0;
    DescNegatesAsc(collate, filter.sortBy, b, a);
    assert desc(b, a) < 0;
    var up := filter.(sortOrder := Asc);
    var down := filter.(sortOrder := Desc);
    assert UseFacultyFilter(facultyData, up, collate).filteredFaculty == Sort(asc, FilterFaculty(facultyData, up));
    assert UseFacultyFilter(facultyData, down, collate).filteredFaculty == Sort(desc, FilterFaculty(facultyData, down));
    SortPlacesBefore(asc, FilterFaculty(facultyData, up), a, b);
    SortPlacesBefore(desc, FilterFaculty(facultyData, down), b, a);
  }

  /** Running the hook on its own output with the same filter state gives the same list back. */
  lemma FacultyViewIdempotent(facultyData: seq<FacultyData>, filter: FacultyFilterState,
                              collate: (string, string) -> int)
    requires Consistent(collate)
    ensures var shown := UseFacultyFilter(facultyData, filter, collate).filteredFaculty;
            UseFacultyFilter(shown, filter, collate).filteredFaculty == shown
  {
    var shown := UseFacultyFilter(facultyData, filter, collate).filteredFaculty;
    var cmp := FacultyComparator(collate, filter.sortBy, filter.sortOrder);
    forall i | 0 <= i < |shown| ensures Passes(filter, shown[i]) {
      FacultyMembership(facultyData, filter, collate, shown[i]);
    }
    FilterKeepsAll(shown, member => Passes(filter, member));
    FacultyComparatorConsistent(collate, filter.sortBy, filter.sortOrder);
    SortSorted(cmp, FilterFaculty(facultyData, filter));
    SortOfSorted(cmp, shown);
  }

  /** The department options depend on the data alone, never on the filter or the collation. */
  lemma DepartmentsIgnoreFilter(facultyData: seq<FacultyData>,
                                filter: FacultyFilterState, collate: (string, string) -> int,
                                other: FacultyFilterState, otherCollate: (string, string) -> int)
    ensures UseFacultyFilter(facultyData, filter, collate).departments
         == UseFacultyFilter(facultyData, other, otherCollate).departments
         == Departments(facultyData)
  {
  }
}
