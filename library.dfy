/**
 * The Library log view (`useLibraryFilter`): text search over title,
 * author, student name and ISBN, transaction-type and status filters, a
 * three-key sort in either direction, and the active, overdue and returned
 * counts, which are taken over the whole log and not over the filtered view.
 *
 * The log-entry and filter types are not declared in the store; they are
 * taken from the fields the hook and the log-entry card read, from the option
 * lists of the library filter panel, and from the three statuses the card
 * colours.
 */
module LibraryFilter {
  import opened Text
  import opened Seqs
  import opened Ordering
  import opened ViewConfig

  datatype EntryType = Issue | Return

  datatype LoanStatus = Active | Overdue | Returned

  datatype LibraryItem = LibraryItem(title: string, author: string, isbn: string, category: string)

  datatype LibraryLogEntry = LibraryLogEntry(
    id: string, item: LibraryItem, studentName: string, entryType: EntryType, status: LoanStatus,
    issuedDate: string, dueDate: string, returnedDate: Option<string>)

  /** `'date'` sorts by the issue date, `'dueDate'` by the due date, `'studentName'` by the student. */
  datatype LibrarySortKey = Date | DueDate | StudentName

  datatype LibraryFilterState = LibraryFilterState(
    searchQuery: string,
    selectedType: Choice<EntryType>,
    selectedStatus: Choice<LoanStatus>,
    sortBy: LibrarySortKey,
    sortOrder: SortOrder)

  datatype LibraryView = LibraryView(
    filteredEntries: seq<LibraryLogEntry>, totalCount: nat, filteredCount: nat,
    activeCount: nat, overdueCount: nat, returnedCount: nat)

  /**
   * The entry matches an already lower-cased query: the query occurs in the
   * lower-cased title, author, student name or ISBN.
   */
  function MatchesQuery(entry: LibraryLogEntry, query: string): (b: bool)
    ensures b <==> exists k: nat ::
      || OccursAt(ToLower(entry.item.title), query, k)
      || OccursAt(ToLower(entry.item.author), query, k)
      || OccursAt(ToLower(entry.studentName), query, k)
      || OccursAt(ToLower(entry.item.isbn), query, k)
  {
    || Includes(ToLower(entry.item.title), query)
    || Includes(ToLower(entry.item.author), query)
    || Includes(ToLower(entry.studentName), query)
    || Includes(ToLower(entry.item.isbn), query)
  }

  /** The three filter stages, in the order the hook applies them: together one filter by `Passes`. */
  function FilterLibrary(libraryData: seq<LibraryLogEntry>, filter: LibraryFilterState): (r: seq<LibraryLogEntry>)
    ensures r == Selected(libraryData, filter)
  {
    var q := filter.searchQuery;
    var query := ToLower(q);
    var kind := filter.selectedType;
    var status := filter.selectedStatus;
    TrimEmptyIffBlank(q);
    FilterWhenThrice(libraryData,
      Trim(q) != [], (entry: LibraryLogEntry) => MatchesQuery(entry, query),
      kind.Only?, (entry: LibraryLogEntry) => kind.Only? && entry.entryType == kind.value,
      status.Only?, (entry: LibraryLogEntry) => status.Only? && entry.status == status.value,
      entry => Passes(filter, entry));
    var searched := FilterWhen(Trim(q) != [], libraryData,
                               (entry: LibraryLogEntry) => MatchesQuery(entry, query));
    var ofType := FilterWhen(kind.Only?, searched,
                             (entry: LibraryLogEntry) => kind.Only? && entry.entryType == kind.value);
    FilterWhen(status.Only?, ofType,
               (entry: LibraryLogEntry) => status.Only? && entry.status == status.value)
  }

  /** Every library sort key selects a string: the dates are compared as text. */
  function SortText(key: LibrarySortKey, entry: LibraryLogEntry): string
  {
    match key
    case Date => entry.issuedDate
    case DueDate => entry.dueDate
    case StudentName => entry.studentName
  }

  /**
   * The hook's comparator: collation of the selected text; the sign flips
   * for `'desc'`. It is negative exactly when `a` goes first in the chosen
   * direction, and zero exactly on a tie.
   */
  function CompareEntries(collate: (string, string) -> int, key: LibrarySortKey, order: SortOrder,
                          a: LibraryLogEntry, b: LibraryLogEntry): (r: int)
    ensures r == 0 <==> collate(SortText(key, a), SortText(key, b)) == 0
    ensures r < 0 <==> if order == Asc then collate(SortText(key, a), SortText(key, b)) < 0
                       else collate(SortText(key, a), SortText(key, b)) > 0
  {
    Directed(order, collate(SortText(key, a), SortText(key, b)))
  }

  function LibraryComparator(collate: (string, string) -> int, key: LibrarySortKey, order: SortOrder)
    : (LibraryLogEntry, LibraryLogEntry) -> int
  {
    (a, b) => CompareEntries(collate, key, order, a, b)
  }

  function HasStatus(status: LoanStatus): LibraryLogEntry -> bool
  {
    (entry: LibraryLogEntry) => entry.status == status
  }

  /** `libraryData.filter(e => e.status === status).length`. */
  function StatusCount(libraryData: seq<LibraryLogEntry>, status: LoanStatus): (n: nat)
    ensures n <= |libraryData|
  {
    |Filter(libraryData, HasStatus(status))|
  }

  /** `useLibraryFilter`: filter, sort a copy, and count over the whole log. */
  function UseLibraryFilter(libraryData: seq<LibraryLogEntry>, filter: LibraryFilterState,
                            collate: (string, string) -> int): (view: LibraryView)
    ensures view.totalCount == |libraryData|
    ensures view.filteredCount == |view.filteredEntries| <= view.totalCount
  {
    var sorted := Sort(LibraryComparator(collate, filter.sortBy, filter.sortOrder),
                       FilterLibrary(libraryData, filter));
    LibraryView(sorted, |libraryData|, |sorted|,
                StatusCount(libraryData, Active),
                StatusCount(libraryData, Overdue),
                StatusCount(libraryData, Returned))
  }

  // ----- Specification -----

  /** An entry passes the view's filter: the search (unless blank), the type and the status filter. */
  predicate Passes(filter: LibraryFilterState, entry: LibraryLogEntry)
  {
    && (IsBlank(filter.searchQuery) || MatchesQuery(entry, ToLower(filter.searchQuery)))
    && Admits(filter.selectedType, entry.entryType)
    && Admits(filter.selectedStatus, entry.status)
  }

  /** The entries that pass, in their original order. */
  function Selected(libraryData: seq<LibraryLogEntry>, filter: LibraryFilterState): (r: seq<LibraryLogEntry>)
    ensures IsSubsequence(r, libraryData)
  {
    Filter(libraryData, entry => Passes(filter, entry))
  }

  /** "a may be shown before b": the selected text is collated up for `'asc'`, down for `'desc'`. */
  ghost predicate NotAfter(collate: (string, string) -> int, key: LibrarySortKey, order: SortOrder,
                           a: LibraryLogEntry, b: LibraryLogEntry)
  {
    if order == Asc then collate(SortText(key, a), SortText(key, b)) <= 0
    else collate(SortText(key, a), SortText(key, b)) >= 0
  }

  /** An entry is shown iff it is in the log and passes the search, type and status filters. */
  lemma LibraryMembership(libraryData: seq<LibraryLogEntry>, filter: LibraryFilterState,
                          collate: (string, string) -> int, entry: LibraryLogEntry)
    ensures entry in UseLibraryFilter(libraryData, filter, collate).filteredEntries
        <==> entry in libraryData && Passes(filter, entry)
  {
    var selected := Selected(libraryData, filter);
    var shown := UseLibraryFilter(libraryData, filter, collate).filteredEntries;
    assert multiset(shown) == multiset(selected);
    assert entry in shown <==> entry in multiset(shown);
    assert entry in selected <==> entry in multiset(selected);
  }

  /** The view is a permutation of the passing entries, which are a subsequence of the log. */
  lemma LibraryPermutation(libraryData: seq<LibraryLogEntry>, filter: LibraryFilterState,
                           collate: (string, string) -> int)
    ensures multiset(UseLibraryFilter(libraryData, filter, collate).filteredEntries)
         == multiset(Selected(libraryData, filter))
    ensures IsSubsequence(Selected(libraryData, filter), libraryData)
  {
  }

  /** With a blank query and both filters at `'all'` the view shows the whole log, reordered. */
  lemma LibraryUnfiltered(libraryData: seq<LibraryLogEntry>, filter: LibraryFilterState,
                          collate: (string, string) -> int)
    requires IsBlank(filter.searchQuery) && filter.selectedType == All && filter.selectedStatus == All
    ensures multiset(UseLibraryFilter(libraryData, filter, collate).filteredEntries) == multiset(libraryData)
    ensures UseLibraryFilter(libraryData, filter, collate).filteredCount
         == UseLibraryFilter(libraryData, filter, collate).totalCount
    ensures UseLibraryFilter(libraryData, filter, collate).filteredEntries
         == Sort(LibraryComparator(collate, filter.sortBy, filter.sortOrder), libraryData)
  {
    FilterKeepsAll(libraryData, entry => Passes(filter, entry));
  }

  lemma LibraryComparatorConsistent(collate: (string, string) -> int, key: LibrarySortKey, order: SortOrder)
    requires Consistent(collate)
    ensures Consistent(LibraryComparator(collate, key, order))
  {
    var cmp := LibraryComparator(collate, key, order);
    forall a, b, c | cmp(a, b) <= 0 && cmp(b, c) <= 0 ensures cmp(a, c) <= 0 {
      var x, y, z := SortText(key, a), SortText(key, b), SortText(key, c);
      if order == Asc {
        assert collate(x, y) <= 0 && collate(y, z) <= 0;
      } else {
        assert collate(y, x) <= 0 && collate(z, y) <= 0;
      }
    }
  }

  /** Sorted: the selected text never collates down (`'asc'`) or up (`'desc'`) along the view. */
  lemma LibrarySorted(libraryData: seq<LibraryLogEntry>, filter: LibraryFilterState,
                      collate: (string, string) -> int)
    requires Consistent(collate)
    ensures var shown := UseLibraryFilter(libraryData, filter, collate).filteredEntries;
            forall i, j :: 0 <= i < j < |shown| ==> NotAfter(collate, filter.sortBy, filter.sortOrder, shown[i], shown[j])
  {
    var cmp := LibraryComparator(collate, filter.sortBy, filter.sortOrder);
    var shown := Sort(cmp, FilterLibrary(libraryData, filter));
    assert UseLibraryFilter(libraryData, filter, collate).filteredEntries == shown;
    LibraryComparatorConsistent(collate, filter.sortBy, filter.sortOrder);
    SortSorted(cmp, FilterLibrary(libraryData, filter));
    forall i, j | 0 <= i < j < |shown|
      ensures NotAfter(collate, filter.sortBy, filter.sortOrder, shown[i], shown[j])
    {
      assert cmp(shown[i], shown[j]) <= 0;
    }
  }

  /** Both directions tie exactly the same pairs. */
  lemma LibraryTiesAgree(collate: (string, string) -> int, key: LibrarySortKey, order: SortOrder)
    ensures forall a, b :: LibraryComparator(collate, key, Asc)(a, b) == 0
                       <==> LibraryComparator(collate, key, order)(a, b) == 0
  {
  }

  /** Stability in both directions: entries tied with `x` keep their relative order. */
  lemma LibraryStable(libraryData: seq<LibraryLogEntry>, filter: LibraryFilterState,
                      collate: (string, string) -> int, x: LibraryLogEntry)
    requires Consistent(collate)
    ensures Tied(LibraryComparator(collate, filter.sortBy, Asc), x,
                 UseLibraryFilter(libraryData, filter, collate).filteredEntries)
         == Tied(LibraryComparator(collate, filter.sortBy, Asc), x, Selected(libraryData, filter))
  {
    var ties := LibraryComparator(collate, filter.sortBy, Asc);
    var cmp := LibraryComparator(collate, filter.sortBy, filter.sortOrder);
    var selected := FilterLibrary(libraryData, filter);
    assert UseLibraryFilter(libraryData, filter, collate).filteredEntries == Sort(cmp, selected);
    LibraryComparatorConsistent(collate, filter.sortBy, filter.sortOrder);
    SortStable(cmp, x, selected);
    LibraryTiesAgree(collate, filter.sortBy, filter.sortOrder);
    TiedSameTies(ties, cmp, x, Sort(cmp, selected));
    TiedSameTies(ties, cmp, x, selected);
  }

  /** The `'desc'` comparator is the `'asc'` one with its sign negated. */
  lemma DescNegatesAsc(collate: (string, string) -> int, key: LibrarySortKey, a: LibraryLogEntry, b: LibraryLogEntry)
    ensures CompareEntries(collate, key, Desc, a, b) == -CompareEntries(collate, key, Asc, a, b)
  {
  }

  /** Entries that do not tie are shown in one order for `'asc'` and in the other for `'desc'`. */
  lemma LibraryOrderFlips(libraryData: seq<LibraryLogEntry>, filter: LibraryFilterState,
                          collate: (string, string) -> int, a: LibraryLogEntry, b: LibraryLogEntry)
    requires Consistent(collate)
    requires CompareEntries(collate, filter.sortBy, Asc, a, b) < 0
    ensures var up := UseLibraryFilter(libraryData, filter.(sortOrder := Asc), collate).filteredEntries;
            forall i, j :: 0 <= i < |up| && 0 <= j < |up| && up[i] == a && up[j] == b ==> i < j
    ensures var down := UseLibraryFilter(libraryData, filter.(sortOrder := Desc), collate).filteredEntries;
            forall i, j :: 0 <= i < |down| && 0 <= j < |down| && down[i] == b && down[j] == a ==> i < j
  {
    var asc := LibraryComparator(collate, filter.sortBy, Asc);
    var desc := LibraryComparator(collate, filter.sortBy, Desc);
    LibraryComparatorConsistent(collate, filter.sortBy, Asc);
    LibraryComparatorConsistent(collate, filter.sortBy, Desc);
    assert asc(a, b) < 0;
    DescNegatesAsc(collate, filter.sortBy, b, a);
    assert desc(b, a) < 0;
    var up := filter.(sortOrder := Asc);
    var down := filter.(sortOrder := Desc);
    assert UseLibraryFilter(libraryData, up, collate).filteredEntries == Sort(asc, FilterLibrary(libraryData, up));
    assert UseLibraryFilter(libraryData, down, collate).filteredEntries == Sort(desc, FilterLibrary(libraryData, down));
    SortPlacesBefore(asc, FilterLibrary(libraryData, up), a, b);
    SortPlacesBefore(desc, FilterLibrary(libraryData, down), b, a);
  }

  /** Running the hook on its own output with the same filter state gives the same list back. */
  lemma LibraryViewIdempotent(libraryData: seq<LibraryLogEntry>, filter: LibraryFilterState,
                              collate: (string, string) -> int)
    requires Consistent(collate)
    ensures var shown := UseLibraryFilter(libraryData, filter, collate).filteredEntries;
            UseLibraryFilter(shown, filter, collate).filteredEntries == shown
  {
    var shown := UseLibraryFilter(libraryData, filter, collate).filteredEntries;
    var cmp := LibraryComparator(collate, filter.sortBy, filter.sortOrder);
    forall i | 0 <= i < |shown| ensures Passes(filter, shown[i]) {
      LibraryMembership(libraryData, filter, collate, shown[i]);
    }
    FilterKeepsAll(shown, entry => Passes(filter, entry));
    LibraryComparatorConsistent(collate, filter.sortBy, filter.sortOrder);
    SortSorted(cmp, FilterLibrary(libraryData, filter));
    SortOfSorted(cmp, shown);
  }

  /** The three status counts split the whole log: every entry is active, overdue or returned. */
  lemma {:induction false} StatusCountsPartition(libraryData: seq<LibraryLogEntry>)
    ensures StatusCount(libraryData, Active) + StatusCount(libraryData, Overdue)
          + StatusCount(libraryData, Returned) == |libraryData|
  {
    if libraryData != [] {
      StatusCountsPartition(libraryData[1..]);
    }
  }

  /** The badges count the whole log: they sum to the total, whatever the filter shows. */
  lemma LibraryCounts(libraryData: seq<LibraryLogEntry>, filter: LibraryFilterState,
                      collate: (string, string) -> int)
    ensures var view := UseLibraryFilter(libraryData, filter, collate);
            view.activeCount + view.overdueCount + view.returnedCount == view.totalCount
  {
    StatusCountsPartition(libraryData);
  }

  /** Changing the query, the filters, the sort or the collation leaves the three counts as they were. */
  lemma CountsIgnoreFilter(libraryData: seq<LibraryLogEntry>,
                           filter: LibraryFilterState, collate: (string, string) -> int,
                           other: LibraryFilterState, otherCollate: (string, string) -> int)
    ensures var view := UseLibraryFilter(libraryData, filter, collate);
            var changed := UseLibraryFilter(libraryData, other, otherCollate);
            && view.activeCount == changed.activeCount
            && view.overdueCount == changed.overdueCount
            && view.returnedCount == changed.returnedCount
  {
  }

  /** Filtering on one status shows at most the entries that have it. */
  lemma FilteredWithinStatusCount(libraryData: seq<LibraryLogEntry>, filter: LibraryFilterState,
                                  collate: (string, string) -> int)
    requires filter.selectedStatus.Only?
    ensures UseLibraryFilter(libraryData, filter, collate).filteredCount
         <= StatusCount(libraryData, filter.selectedStatus.value)
  {
    FilterMonotonic(libraryData, entry => Passes(filter, entry), HasStatus(filter.selectedStatus.value));
  }
}
