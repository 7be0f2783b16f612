/**
 * The application store: which page is shown, the theme, the drawer and
 * sidebar flags, the dashboard and course data, and the Courses view's
 * filter state. Each action replaces one field and leaves the rest alone;
 * no action writes the dashboard or course data.
 */
module AppStore {
  import opened ViewConfig

  datatype ThemeMode = Light | Dark

  datatype NavigationPage =
    | DashboardPage | CoursesPage | FacultyPage | StudentsPage
    | LibraryPage | AdminPage | NotificationsPage | SettingsPage

  datatype Trend = Up | Down | Stable
  datatype GPAData = GPAData(currentGPA: real, targetGPA: real, trend: Trend)

  datatype AttendanceStatus = Excellent | Good | Fair | Warning
  datatype AttendanceData = AttendanceData(
    percentage: real, classesAttended: int, totalClasses: int, status: AttendanceStatus)

  datatype ActiveCourse = ActiveCourse(id: string, name: string, progress: real)
  datatype ActiveCoursesData = ActiveCoursesData(count: int, courses: seq<ActiveCourse>)

  datatype AnnouncementType = Academic | Administrative | Event
  datatype AnnouncementData = AnnouncementData(id: string, title: string, date: string, kind: AnnouncementType)

  datatype DashboardState = DashboardState(
    gpaData: GPAData,
    attendanceData: AttendanceData,
    activeCoursesData: ActiveCoursesData,
    announcementsData: seq<AnnouncementData>)

  datatype CourseStatus = Active | Completed | Upcoming

  datatype CourseData = CourseData(
    id: string, code: string, name: string, faculty: string, schedule: string,
    credits: int, progress: int, status: CourseStatus, room: string, days: seq<string>)

  datatype CourseSortKey = Code | Name | Faculty | Schedule | Progress

  datatype CoursesFilterState = CoursesFilterState(
    searchQuery: string,
    selectedStatus: Choice<CourseStatus>,
    sortBy: CourseSortKey,
    sortOrder: SortOrder)

  /** The Courses view's filter before the user touches it: no search, every status, by code ascending. */
  const InitialCoursesFilter := CoursesFilterState("", All, Code, Asc)

  const MockDashboardData := DashboardState(
    GPAData(3.72, 3.8, Up),
    AttendanceData(94.0, 47, 50, Excellent),
    ActiveCoursesData(5, [
      ActiveCourse("1", "Advanced Algorithms", 85.0),
      ActiveCourse("2", "Database Systems", 78.0),
      ActiveCourse("3", "Web Development", 92.0),
      ActiveCourse("4", "Machine Learning", 68.0),
      ActiveCourse("5", "Software Engineering", 88.0)]),
    [
      AnnouncementData("1", "Final Exams Schedule Released", "2 hours ago", Academic),
      AnnouncementData("2", "Campus Closure Notice", "1 day ago", Administrative),
      AnnouncementData("3", "Tech Conference Registration Open", "2 days ago", Event)
    ])

  const MockCoursesData: seq<CourseData> := [
    CourseData("1", "CS401", "Advanced Algorithms", "Dr. Sarah Johnson", "Mon/Wed 10:00-11:30",
               4, 85, Active, "Tech Hall 301", ["Mon", "Wed"]),
    CourseData("2", "CS350", "Database Systems", "Prof. Michael Chen", "Tue/Thu 14:00-15:30",
               3, 78, Active, "Science Building 205", ["Tue", "Thu"]),
    CourseData("3", "CS420", "Machine Learning", "Dr. Emily Rodriguez", "Mon/Wed/Fri 13:00-14:00",
               4, 68, Active, "Tech Hall 402", ["Mon", "Wed", "Fri"]),
    CourseData("4", "CS380", "Software Engineering", "Prof. David Kim", "Tue/Thu 09:00-10:30",
               3, 88, Active, "Engineering Lab 150", ["Tue", "Thu"]),
    CourseData("5", "CS390", "Web Development", "Dr. Lisa Wang", "Mon/Wed 15:00-16:30",
               3, 92, Active, "Tech Hall 201", ["Mon", "Wed"]),
    CourseData("6", "CS310", "Computer Networks", "Prof. James Miller", "Tue/Thu 11:00-12:30",
               3, 45, Active, "Science Building 308", ["Tue", "Thu"]),
    CourseData("7", "CS460", "Artificial Intelligence", "Dr. Robert Taylor", "Mon/Wed/Fri 10:00-11:00",
               4, 0, Upcoming, "Tech Hall 501", ["Mon", "Wed", "Fri"]),
    CourseData("8", "CS220", "Data Structures", "Prof. Jennifer Lee", "Tue/Thu 14:00-15:30",
               3, 100, Completed, "Science Building 102", ["Tue", "Thu"])
  ]

  /**
   * The store. Every action names in its `modifies` clause the one field it
   * replaces, so every other field is unchanged by construction.
   */
  class Store {
    var selectedPage: NavigationPage
    var themeMode: ThemeMode
    var isNotificationDrawerOpen: bool
    var isSidebarCollapsed: bool
    var dashboardData: DashboardState
    var coursesData: seq<CourseData>
    var coursesFilter: CoursesFilterState

    /** The state the store is created with. */
    constructor ()
      ensures selectedPage == DashboardPage && themeMode == Light
      ensures !isNotificationDrawerOpen && !isSidebarCollapsed
      ensures dashboardData == MockDashboardData && coursesData == MockCoursesData
      ensures coursesFilter == InitialCoursesFilter
      ensures coursesFilter.searchQuery == "" && coursesFilter.selectedStatus == All
      ensures coursesFilter.sortBy == Code && coursesFilter.sortOrder == Asc
    {
      selectedPage := DashboardPage;
      themeMode := Light;
      isNotificationDrawerOpen := false;
      isSidebarCollapsed := false;
      dashboardData := MockDashboardData;
      coursesData := MockCoursesData;
      coursesFilter := InitialCoursesFilter;
    }

    method SetSelectedPage(page: NavigationPage)
      modifies this`selectedPage
      ensures selectedPage == page
    {
      selectedPage := page;
    }

    method SetThemeMode(mode: ThemeMode)
      modifies this`themeMode
      ensures themeMode == mode
    {
      themeMode := mode;
    }

    method ToggleNotificationDrawer()
      modifies this`isNotificationDrawerOpen
      ensures isNotificationDrawerOpen == !old(isNotificationDrawerOpen)
    {
      isNotificationDrawerOpen := !isNotificationDrawerOpen;
    }

    method SetNotificationDrawerOpen(isOpen: bool)
      modifies this`isNotificationDrawerOpen
      ensures isNotificationDrawerOpen == isOpen
    {
      isNotificationDrawerOpen := isOpen;
    }

    method ToggleSidebar()
      modifies this`isSidebarCollapsed
      ensures isSidebarCollapsed == !old(isSidebarCollapsed)
    {
      isSidebarCollapsed := !isSidebarCollapsed;
    }

    /** Replaces the search query; status, sort key and order stay. */
    method SetCoursesSearchQuery(query: string)
      modifies this`coursesFilter
      ensures coursesFilter.searchQuery == query
      ensures coursesFilter.selectedStatus == old(coursesFilter.selectedStatus)
      ensures coursesFilter.sortBy == old(coursesFilter.sortBy)
      ensures coursesFilter.sortOrder == old(coursesFilter.sortOrder)
    {
      coursesFilter := coursesFilter.(searchQuery := query);
    }

    /** Replaces the status filter; query, sort key and order stay. */
    method SetCoursesStatusFilter(status: Choice<CourseStatus>)
      modifies this`coursesFilter
      ensures coursesFilter.selectedStatus == status
      ensures coursesFilter.searchQuery == old(coursesFilter.searchQuery)
      ensures coursesFilter.sortBy == old(coursesFilter.sortBy)
      ensures coursesFilter.sortOrder == old(coursesFilter.sortOrder)
    {
      coursesFilter := coursesFilter.(selectedStatus := status);
    }

    /**
     * Replaces the sort key, and the order when one is given; without an
     * order the previous order is kept (`sortOrder || state.coursesFilter.sortOrder`).
     */
    method SetCoursesSort(sortBy: CourseSortKey, sortOrder: Option<SortOrder>)
      modifies this`coursesFilter
      ensures coursesFilter.sortBy == sortBy
      ensures coursesFilter.sortOrder == if sortOrder.Some? then sortOrder.value else old(coursesFilter.sortOrder)
      ensures coursesFilter.searchQuery == old(coursesFilter.searchQuery)
      ensures coursesFilter.selectedStatus == old(coursesFilter.selectedStatus)
    {
      var order := if sortOrder.Some? then sortOrder.value else coursesFilter.sortOrder;
      coursesFilter := coursesFilter.(sortBy := sortBy, sortOrder := order);
    }
  }

  /** The Courses toolbar's order button: the same key with the other direction. */
  method ToggleCoursesSortOrder(store: Store)
    modifies store`coursesFilter
    ensures store.coursesFilter == old(store.coursesFilter).(sortOrder := Flip(old(store.coursesFilter.sortOrder)))
  {
    store.SetCoursesSort(store.coursesFilter.sortBy, Some(Flip(store.coursesFilter.sortOrder)));
  }

  /** Pressing the order button twice gives back the filter it started from. */
  method ToggleCoursesSortOrderTwice(store: Store)
    modifies store`coursesFilter
    ensures store.coursesFilter == old(store.coursesFilter)
  {
    ToggleCoursesSortOrder(store);
    ToggleCoursesSortOrder(store);
  }

  /** Each toggle is its own inverse and leaves every other field alone. */
  method ToggleFlagsTwice(store: Store)
    modifies store`isNotificationDrawerOpen, store`isSidebarCollapsed
    ensures store.isNotificationDrawerOpen == old(store.isNotificationDrawerOpen)
    ensures store.isSidebarCollapsed == old(store.isSidebarCollapsed)
  {
    store.ToggleNotificationDrawer();
    store.ToggleNotificationDrawer();
    store.ToggleSidebar();
    store.ToggleSidebar();
  }

  /**
   * The plain setters are idempotent: a repeated call leaves the state as the
   * first call left it, and none of them touches another field.
   */
  method SettersIdempotent(store: Store, page: NavigationPage, mode: ThemeMode, isOpen: bool)
    modifies store`selectedPage, store`themeMode, store`isNotificationDrawerOpen
    ensures store.selectedPage == page && store.themeMode == mode
    ensures store.isNotificationDrawerOpen == isOpen
    ensures store.isSidebarCollapsed == old(store.isSidebarCollapsed)
    ensures store.coursesFilter == old(store.coursesFilter)
  {
    store.SetSelectedPage(page);
    store.SetSelectedPage(page);
    store.SetThemeMode(mode);
    store.SetThemeMode(mode);
    store.SetNotificationDrawerOpen(isOpen);
    store.SetNotificationDrawerOpen(isOpen);
  }

  /**
   * A run of every action leaves the dashboard and course data as they were.
   * The guarantee for any sequence of actions comes from the frames: no
   * action's `modifies` clause names `dashboardData` or `coursesData`.
   */
  method ActionsKeepData(store: Store, page: NavigationPage, mode: ThemeMode, query: string,
                         status: Choice<CourseStatus>, sortBy: CourseSortKey, sortOrder: Option<SortOrder>)
    modifies store`selectedPage, store`themeMode, store`isNotificationDrawerOpen,
             store`isSidebarCollapsed, store`coursesFilter
    ensures store.dashboardData == old(store.dashboardData)
    ensures store.coursesData == old(store.coursesData)
    ensures store.coursesFilter.searchQuery == query && store.coursesFilter.selectedStatus == status
    ensures store.coursesFilter.sortBy == sortBy
  {
    store.SetSelectedPage(page);
    store.SetThemeMode(mode);
    store.ToggleNotificationDrawer();
    store.SetNotificationDrawerOpen(false);
    store.ToggleSidebar();
    store.SetCoursesSearchQuery(query);
    store.SetCoursesStatusFilter(status);
    store.SetCoursesSort(sortBy, sortOrder);
  }
}
