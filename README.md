# Campus dashboard list views and store, in Dafny

This project models the logic behind three list views of a campus dashboard (Courses, Faculty, Library) and the application store they read from.

Each view is produced by a hook (`useCoursesFilter`, `useFacultyFilter`, `useLibraryFilter`) that builds its result the same way:

- **Search.** A case-insensitive substring search runs over several fields. It applies only when the trimmed query is non-empty. It matches with the lower-cased, untrimmed query.
- **Categorical filters.** Each filter has an `'all'` value that imposes nothing.
- **Sort.** The view is sorted on a copy, by a key-selected comparator whose sign flips for `'desc'`.
- **Counts.** Each hook reports the total and filtered counts. The Library view also counts active, overdue and returned entries over the whole log.

The Faculty view also lists each department once, in default string order.

The store is a small state machine:

- every setter replaces one field;
- each of the two toggles negates its own flag;
- `setCoursesSort` keeps the previous direction when it is given none.

How the model is built:

- **Hooks.** The hooks are pure, so they are functions over sequences. `Array.prototype.filter` is `Seqs.Filter`. `Array.prototype.sort` is `Ordering.Sort`, a stable insertion sort, as ECMAScript requires since ES2019. The `Set` idiom that drops repeats is `Seqs.Dedup`.
- **String operations.** `trim`, `toLowerCase`, `includes` and the default sort order are in `Text`.
- **Collation.** `localeCompare` is a parameter `collate`. Every ordering property holds for any collation that is a consistent comparator in ECMAScript's sense.
- **Store.** The store is a class, `AppStore.Store`. Each action's `modifies` clause names the one field it replaces.

Files:

- `text.dfy`: trim, lower case, `includes`, the default sort order.
- `sequences.dfy`: filter, conditional filter stages, dedup.
- `ordering.dfy`: the stable sort and its properties.
- `viewconfig.dfy`: the `'all'` sentinel and the sort direction.
- `store.dfy`: the store.
- `courses.dfy`: the Courses view.
- `faculty.dfy`: the Faculty view.
- `library.dfy`: the Library view.

## Model

| member | source | states |
|---|---|---|
| CoursesFilter.UseCoursesFilter | src/hooks/useCoursesFilter.ts:68-72 | `totalCount` is the number of courses; `filteredCount` is the number shown and never exceeds it |
| CoursesFilter.MatchesQuery | src/hooks/useCoursesFilter.ts:13-18 | a course matches iff the lower-cased query occurs at some index of its lower-cased code, name, faculty or schedule |
| CoursesFilter.SearchCourses | src/hooks/useCoursesFilter.ts:11-19 | the search stage keeps, in input order, exactly the matching courses, and every course when the query is blank (its `trim()` is empty) |
| CoursesFilter.FilterByStatus | src/hooks/useCoursesFilter.ts:22-24 | the status stage keeps, in input order, exactly the courses with the selected status, and every course for `'all'` |
| CoursesFilter.FilterCourses | src/hooks/useCoursesFilter.ts:10-24 | the two stages together equal the single-pass filter `Selected`: the courses passing both filters, in input order |
| CoursesFilter.CompareCourses | src/hooks/useCoursesFilter.ts:27-63 | the comparison is zero exactly on a tie (equal progress, or a zero collation of the selected text) and negative exactly when `a` goes first: smaller progress or lower collation for `'asc'`, larger or higher for `'desc'` |
| CoursesFilter.Selected | src/hooks/useCoursesFilter.ts:10-24 | the courses that pass the search and status filter form a subsequence of the data |
| CoursesFilter.CoursesMembership | src/hooks/useCoursesFilter.ts:11-24 | a course is shown iff it is in the data, matches the lower-cased query in code, name, faculty or schedule (or the query is blank), and has the selected status (or the filter is `'all'`) |
| CoursesFilter.CoursesPermutation | src/hooks/useCoursesFilter.ts:27 | the view is a permutation of the passing courses, which are a subsequence of the data |
| CoursesFilter.CoursesUnfiltered | src/hooks/useCoursesFilter.ts:11-27 | a blank query with status `'all'` shows every course, each as often as the data holds it, so filtered count equals total count; the view is the whole data sorted by the comparator |
| CoursesFilter.CoursesComparatorConsistent | src/hooks/useCoursesFilter.ts:57-62 | the comparator is consistent in both directions whenever the collation is |
| CoursesFilter.DescNegatesAsc | src/hooks/useCoursesFilter.ts:57-62 | for every key, the `'desc'` comparator is the `'asc'` one negated (numeric `b - a` for progress, `-comparison` otherwise) |
| CoursesFilter.CoursesSorted | src/hooks/useCoursesFilter.ts:27-63 | along the view, progress never decreases (`'asc'`) or increases (`'desc'`) numerically, and text keys never collate down (`'asc'`) or up (`'desc'`) |
| CoursesFilter.CoursesStable | src/hooks/useCoursesFilter.ts:27-63 | courses tied under the key keep their input order in either direction |
| CoursesFilter.CoursesTiesAgree | src/hooks/useCoursesFilter.ts:57-62 | both directions tie exactly the same pairs of courses |
| CoursesFilter.CoursesOrderFlips | src/hooks/useCoursesFilter.ts:57-62 | two courses that do not tie appear in one order under `'asc'` and in the opposite order under `'desc'` |
| CoursesFilter.CoursesViewIdempotent | src/hooks/useCoursesFilter.ts:27 | running the hook on its own output with the same filter state gives the same list back |
| FacultyFilter.UseFacultyFilter | src/hooks/useFacultyFilter.ts:71-76 | `totalCount` is the number of members; `filteredCount` is the number shown and never exceeds it |
| FacultyFilter.TeachesMatching | src/hooks/useFacultyFilter.ts:17 | some current course title, lower-cased, contains the query at some index |
| FacultyFilter.MatchesQuery | src/hooks/useFacultyFilter.ts:13-18 | a member matches iff the lower-cased query occurs in the lower-cased name, department or email, or in some lower-cased course title |
| FacultyFilter.FilterFaculty | src/hooks/useFacultyFilter.ts:10-29 | the three stages (search unless the trimmed query is empty, department unless `'all'`, status unless `'all'`) equal the single-pass filter `Selected`, in input order |
| FacultyFilter.CompareFaculty | src/hooks/useFacultyFilter.ts:32-60 | the comparison is zero exactly on a tie (equal course counts, or a zero collation of name or department) and negative exactly when `a` goes first in the chosen direction |
| FacultyFilter.FacultyUnfiltered | src/hooks/useFacultyFilter.ts:11-32 | a blank query with both filters `'all'` shows every member, so filtered count equals total count; the view is the whole data sorted by the comparator |
| FacultyFilter.FacultyViewIdempotent | src/hooks/useFacultyFilter.ts:32 | running the hook on its own output with the same filter state gives the same list back |
| FacultyFilter.Selected | src/hooks/useFacultyFilter.ts:10-29 | the members that pass the three filters form a subsequence of the data |
| FacultyFilter.FacultyMembership | src/hooks/useFacultyFilter.ts:11-29 | a member is shown iff they are in the data, match the query in name, department, email or some current course (or the query is blank), and have the selected department and status (or `'all'`) |
| FacultyFilter.FacultyPermutation | src/hooks/useFacultyFilter.ts:32 | the view is a permutation of the passing members, a subsequence of the data |
| FacultyFilter.FacultyComparatorConsistent | src/hooks/useFacultyFilter.ts:54-59 | the comparator is consistent in both directions whenever the collation is |
| FacultyFilter.DescNegatesAsc | src/hooks/useFacultyFilter.ts:54-59 | for every key, the `'desc'` comparator is the `'asc'` one negated |
| FacultyFilter.FacultySorted | src/hooks/useFacultyFilter.ts:32-60 | along the view, the course count is monotone numerically, and name and department are monotone by collation, in the chosen direction |
| FacultyFilter.FacultyTiesAgree | src/hooks/useFacultyFilter.ts:54-59 | both directions tie exactly the same pairs of members |
| FacultyFilter.FacultyStable | src/hooks/useFacultyFilter.ts:32-60 | members tied under the key keep their input order in either direction |
| FacultyFilter.FacultyOrderFlips | src/hooks/useFacultyFilter.ts:54-59 | two members that do not tie appear in opposite orders under `'asc'` and `'desc'` |
| FacultyFilter.Departments | src/hooks/useFacultyFilter.ts:66-69 | a string is listed iff some member has that department; no department is listed twice; the list is strictly increasing in default sort order |
| FacultyFilter.DepartmentsSorted | src/hooks/useFacultyFilter.ts:68 | sorting a repeat-free list by the default order keeps it repeat-free, keeps its elements, and makes it strictly increasing |
| FacultyFilter.DepartmentsIgnoreFilter | src/hooks/useFacultyFilter.ts:66-69 | the department list is the same for every filter state and collation |
| LibraryFilter.StatusCount | src/hooks/useLibraryFilter.ts:58-60 | a status count never exceeds the size of the log |
| LibraryFilter.UseLibraryFilter | src/hooks/useLibraryFilter.ts:62-78 | `totalCount` is the number of entries; `filteredCount` is the number shown and never exceeds it |
| LibraryFilter.MatchesQuery | src/hooks/useLibraryFilter.ts:12-17 | an entry matches iff the lower-cased query occurs at some index of its lower-cased title, author, student name or ISBN |
| LibraryFilter.FilterLibrary | src/hooks/useLibraryFilter.ts:10-26 | the three stages (search unless the trimmed query is empty, type unless `'all'`, status unless `'all'`) equal the single-pass filter `Selected`, in input order |
| LibraryFilter.CompareEntries | src/hooks/useLibraryFilter.ts:28-56 | the comparison is zero exactly when the selected text collates equal, and negative exactly when `a`'s text collates lower (`'asc'`) or higher (`'desc'`) |
| LibraryFilter.LibraryViewIdempotent | src/hooks/useLibraryFilter.ts:28 | running the hook on its own output with the same filter state gives the same list back |
| LibraryFilter.Selected | src/hooks/useLibraryFilter.ts:10-26 | the entries that pass the three filters form a subsequence of the log |
| LibraryFilter.LibraryMembership | src/hooks/useLibraryFilter.ts:10-26 | an entry is shown iff it is in the log, matches the query in title, author, student name or ISBN (or the query is blank), and has the selected type and status (or `'all'`) |
| LibraryFilter.LibraryPermutation | src/hooks/useLibraryFilter.ts:28 | the view is a permutation of the passing entries, a subsequence of the log |
| LibraryFilter.LibraryUnfiltered | src/hooks/useLibraryFilter.ts:8-28 | a blank query with both filters `'all'` shows the whole log, so filtered count equals total count; the view is the whole log sorted by the comparator |
| LibraryFilter.LibraryComparatorConsistent | src/hooks/useLibraryFilter.ts:50-55 | the comparator is consistent in both directions whenever the collation is |
| LibraryFilter.DescNegatesAsc | src/hooks/useLibraryFilter.ts:50-55 | the `'desc'` comparator is the `'asc'` one negated |
| LibraryFilter.LibrarySorted | src/hooks/useLibraryFilter.ts:28-56 | along the view, the issue date, due date or student name is monotone by collation in the chosen direction |
| LibraryFilter.LibraryTiesAgree | src/hooks/useLibraryFilter.ts:50-55 | both directions tie exactly the same pairs of entries |
| LibraryFilter.LibraryStable | src/hooks/useLibraryFilter.ts:28-56 | entries tied under the key keep their input order in either direction |
| LibraryFilter.LibraryOrderFlips | src/hooks/useLibraryFilter.ts:50-55 | two entries that do not tie appear in opposite orders under `'asc'` and `'desc'` |
| LibraryFilter.StatusCountsPartition | src/hooks/useLibraryFilter.ts:58-60 | the active, overdue and returned counts add up to the size of the log |
| LibraryFilter.LibraryCounts | src/hooks/useLibraryFilter.ts:58-67 | in the view, active + overdue + returned equals the total count |
| LibraryFilter.CountsIgnoreFilter | src/hooks/useLibraryFilter.ts:58-60 | the three status counts are the same for every filter state and collation |
| LibraryFilter.FilteredWithinStatusCount | src/hooks/useLibraryFilter.ts:24-26 | filtering on one status shows at most as many entries as that status count |
| Ordering.Sort | src/hooks/useCoursesFilter.ts:27 | the sorted copy has the same length and the same elements with the same multiplicities |
| Ordering.SortSorted | src/hooks/useCoursesFilter.ts:27 | with a consistent comparator, no element of the result compares after a later one |
| Ordering.SortStable | src/hooks/useCoursesFilter.ts:27 | elements tied with any given value keep their input order |
| Ordering.SortOfSorted | src/hooks/useCoursesFilter.ts:27 | sorting an already ordered array returns it unchanged |
| Ordering.SortPlacesBefore | src/hooks/useCoursesFilter.ts:27 | an element that compares strictly before another is placed before every occurrence of it |
| Ordering.Insert | src/hooks/useCoursesFilter.ts:27 | one insertion step of the sort adds exactly the given element: one longer, same multiset plus it |
| Seqs.Filter | src/hooks/useCoursesFilter.ts:13 | every accepted element is kept as often as the input holds it and every rejected one is dropped; the result is a subsequence of the input |
| Seqs.FilterWhenIsFilter | src/hooks/useCoursesFilter.ts:22-24 | a stage `if (active) filtered = filtered.filter(keep)` is one filter that accepts everything when the stage is off |
| Seqs.FilterWhenThrice | src/hooks/useFacultyFilter.ts:10-29 | three conditional filter stages equal one filter by the conjunction of the active stages |
| Seqs.Dedup | src/hooks/useFacultyFilter.ts:67 | every value of the input appears in the result, once, and nothing else does |
| Text.TrimStart | src/hooks/useCoursesFilter.ts:11 | exactly the leading white space is removed: the result is a suffix of the input, the removed prefix is blank, and the result is empty or starts with a non-space |
| Text.TrimEnd | src/hooks/useCoursesFilter.ts:11 | exactly the trailing white space is removed: the result is a prefix of the input, the removed suffix is blank, and the result is empty or ends with a non-space |
| Text.Trim | src/hooks/useCoursesFilter.ts:11 | the trimmed string is the input with a blank prefix and a blank suffix cut off, and neither starts nor ends with white space |
| Text.TrimEmptyIffBlank | src/hooks/useCoursesFilter.ts:11 | the trimmed query is empty iff every character of the query is white space |
| Text.ToLowerIdempotent | src/hooks/useCoursesFilter.ts:12-17 | lower-casing twice is lower-casing once, and leaves no upper-case ASCII letter |
| Text.Includes | src/hooks/useCoursesFilter.ts:14-17 | `includes` holds iff the part occurs at some start index, as ECMAScript defines it |
| Text.CodeUnitCompare | src/hooks/useFacultyFilter.ts:68 | the default order answers -1, 0 or 1 |
| Text.CodeUnitCompareConsistent | src/hooks/useFacultyFilter.ts:68 | the default order is a consistent comparator that ties only equal strings |
| ViewConfig.Flip | src/components/CoursesToolbar.tsx:104 | the toggled direction differs from the current one |
| ViewConfig.Directed | src/hooks/useCoursesFilter.ts:61 | a comparison is zero in the chosen direction iff it is zero `'asc'` |
| AppStore.Store.constructor | src/state/appStore.ts:232-244 | the initial state: page dashboard, light theme, drawer closed, sidebar expanded, the mock data, and no search, all statuses, by code, ascending |
| AppStore.Store.SetSelectedPage | src/state/appStore.ts:245 | sets the page and modifies no other field |
| AppStore.Store.SetThemeMode | src/state/appStore.ts:246 | sets the theme and modifies no other field |
| AppStore.Store.ToggleNotificationDrawer | src/state/appStore.ts:247-249 | negates the drawer flag and modifies no other field |
| AppStore.Store.SetNotificationDrawerOpen | src/state/appStore.ts:250-252 | sets the drawer flag and modifies no other field |
| AppStore.Store.ToggleSidebar | src/state/appStore.ts:253-255 | negates the sidebar flag and modifies no other field |
| AppStore.Store.SetCoursesSearchQuery | src/state/appStore.ts:256-258 | replaces the search query; status, key and direction stay; no other field is modified |
| AppStore.Store.SetCoursesStatusFilter | src/state/appStore.ts:259-261 | replaces the status filter; query, key and direction stay |
| AppStore.Store.SetCoursesSort | src/state/appStore.ts:262-264 | sets the key, and the direction when one is given; otherwise the previous direction stays; query and status stay |
| AppStore.ToggleCoursesSortOrder | src/components/CoursesToolbar.tsx:104 | the order button keeps the key, query and status and flips the direction |
| AppStore.ToggleCoursesSortOrderTwice | src/components/CoursesToolbar.tsx:104 | pressing the order button twice restores the filter state |
| AppStore.ToggleFlagsTwice | src/state/appStore.ts:247-255 | toggling the drawer twice and the sidebar twice restores both flags |
| AppStore.SettersIdempotent | src/state/appStore.ts:245-252 | repeating a plain setter gives the state the first call gave; other fields are unchanged |
| AppStore.ActionsKeepData | src/state/appStore.ts:232-265 | no action changes the dashboard or course data |

## Left out

- `useMemo` caching is not modelled. Each hook is a plain function of the data, the filter state and the collation.
- The courses store has no persistence: src/state/appStore.ts creates it with plain `create`. The separate theme-preferences store in src/state/theme.ts persists to `localStorage` and queries `matchMedia`. That is I/O and environment, so it is not part of this model.
- Rendering, animation, timers and charts are not modelled.
- `localeCompare` is the parameter `collate`. The ordering lemmas assume only that it is a consistent comparator in the ECMAScript sense; locale and ICU collation rules are not modelled.
- Text.ToLower: lower-cases ASCII letters only. Unicode case mapping, including the mappings that change length, is not modelled.
- Text.CodeUnitCompare: compares Dafny characters (Unicode scalar values), not UTF-16 code units. The two orders differ only for characters outside the Basic Multilingual Plane.
- CoursesFilter.CompareCourses models `progress` as an integer. The source field is a JavaScript number, so fractional progress values and floating-point subtraction are not modelled.
- The `default:` branches of the three comparator switches cannot be reached: the sort key is a closed enumeration. They are left out.
- The store file does not declare the faculty and library records, their filter states, their data fields or their setters, although the hooks read them. `FacultyData`, `FacultyFilterState`, `LibraryLogEntry` and `LibraryFilterState` are declared here instead. They are built from the fields the hooks read and the options in src/components/FacultyFilters.tsx:14-33 and src/components/LibraryFilters.tsx:14-31. The status keys come from src/components/LibraryLogEntry.tsx:13-23. The store class therefore holds only the fields and actions the store file declares.
- The library entry field `type` is called `entryType`, because `type` is a Dafny keyword.
- The library status is one of active, overdue and returned, the three keys the log-entry card colours. For that reason `LibraryFilter.StatusCountsPartition` proves the counts sum to the total exactly, not merely at most the total.
- The dates in the library log are strings compared by collation, as the hook does. Date parsing and the days-until-due figure depend on the clock and are not modelled.
- The numeric-comparison branch of the library comparator cannot be reached, because every library sort key selects a string. It is left out.
