/**
 * The home shell: the section being shown, the back button that climbs to the section's
 * parent, the menu entry highlighted for a section, the screen a section opens, and the
 * user's name in the header.
 */
module Navigation {
  import opened Common
  import opened Text
  import opened Records
  import FieldServiceReports

  // ---------------------------------------------------------------- sections

  const DASHBOARD := "dashboard"
  const PUBLISHERS := "publishers-category"
  const MEETINGS := "meetings-category"
  const CONGREGATION := "congregation-category"
  const SETTINGS := "settings-category"
  const REPORTS := "field-service-reports"

  /** The four categories, which the menu lists after the dashboard. */
  const CATEGORIES := [PUBLISHERS, MEETINGS, CONGREGATION, SETTINGS]

  /** The desktop menu's entries, and the mobile bar's (the dashboard left out). */
  const MENU_ITEMS := [DASHBOARD] + CATEGORIES
  const MOBILE_MENU_ITEMS := CATEGORIES

  /** A publisher's reports are shown at this prefix followed by the publisher's id. */
  const PUBLISHER_ROUTE := "field_service_reports/"

  /** `get_parent_section` in the home view: pages climb to their category, categories to the
      dashboard, a publisher's reports to the reports list, the dashboard nowhere, and any
      other section to the dashboard. */
  function ParentSection(s: string): (r: Option<string>)
    ensures r.None? <==> s == DASHBOARD
    ensures r.Some? ==> r.value == DASHBOARD || r.value == REPORTS || r.value in CATEGORIES
  {
    if s in ["users", "field-service-reports", "roles", "field-service-groups"] then Some(PUBLISHERS)
    else if s in ["weekday-meeting", "weekend-meeting", "field-service-meetings", "meeting-attendance"] then
      Some(MEETINGS)
    else if s in ["special-events", "absences", "cleaning", "maintenance", "attendant", "audio-video", "territory"] then
      Some(CONGREGATION)
    else if s in ["user-settings", "congregation-settings"] then Some(SETTINGS)
    else if s in CATEGORIES then Some(DASHBOARD)
    else if s == DASHBOARD then None
    else if StartsWith(s, PUBLISHER_ROUTE) then Some(REPORTS)
    else Some(DASHBOARD)
  }

  /** The pages the menu lists below a category; any other name lists none. */
  function MenuPages(category: string): seq<string> {
    match category
    case "publishers-category" => ["users", "field-service-reports", "roles", "field-service-groups"]
    case "meetings-category" => ["weekday-meeting", "weekend-meeting", "field-service-meetings", "meeting-attendance"]
    case "congregation-category" =>
      ["special-events", "absences", "cleaning", "maintenance", "attendant", "audio-video", "territory"]
    case "settings-category" => ["user-settings", "congregation-settings"]
    case _ => []
  }

  /** `is_in_category` in the menu: a section belongs to the category it is, and to the one whose
      pages list names it. */
  predicate IsInCategory(section: string, category: string) {
    section == category || section in MenuPages(category)
  }

  /** The back button: to the parent when there is one, otherwise nowhere. */
  function Back(s: string): (r: string)
    ensures s == DASHBOARD ==> r == s
    ensures s != DASHBOARD ==> Some(r) == ParentSection(s)
  {
    match ParentSection(s)
    case Some(p) => p
    case None => s
  }

  /** The navigation header appears on every section but the dashboard, and there its back
      button is always offered. */
  function HeaderShowsBack(s: string): (r: Option<bool>)
    ensures r.None? <==> s == DASHBOARD
    ensures r.Some? ==> r.value
  {
    if s != DASHBOARD then Some(ParentSection(s).Some?) else None
  }

  /** Where back leads from the sections back itself leads to. */
  lemma BackFromParents()
    ensures Back(REPORTS) == PUBLISHERS && Back(DASHBOARD) == DASHBOARD
    ensures forall c :: c in CATEGORIES ==> Back(c) == DASHBOARD
  {
    forall c | c in CATEGORIES ensures Back(c) == DASHBOARD {
      ParentOfCategory(c);
    }
    ParentOfDashboardAndReports();
  }

  /** A category's parent is the dashboard. */
  lemma ParentOfCategory(c: string)
    requires c in CATEGORIES
    ensures ParentSection(c) == Some(DASHBOARD)
  {
  }

  lemma ParentOfDashboardAndReports()
    ensures ParentSection(DASHBOARD).None? && ParentSection(REPORTS) == Some(PUBLISHERS)
  {
  }

  /** Three presses of back reach the dashboard from anywhere. */
  lemma BackReachesDashboard(s: string)
    ensures Back(Back(Back(s))) == DASHBOARD
  {
    BackFromParents();
    var p := Back(s);
    assert p == DASHBOARD || p == REPORTS || p in CATEGORIES by {
      if s != DASHBOARD {
        assert Some(p) == ParentSection(s);
      }
    }
  }

  /** Every page the menu lists below a category climbs back to that category. */
  lemma MenuPagesClimbBack(c: string, p: string)
    requires p in MenuPages(c)
    ensures c in CATEGORIES && ParentSection(p) == Some(c)
  {
    if c == PUBLISHERS {
      PublisherPagesClimbBack();
    } else if c == MEETINGS {
      MeetingPagesClimbBack();
    } else if c == CONGREGATION {
      CongregationPagesClimbBack();
    } else {
      assert c == SETTINGS;
      SettingsPagesClimbBack();
    }
  }

  lemma PublisherPagesClimbBack()
    ensures forall p :: p in MenuPages(PUBLISHERS) ==> ParentSection(p) == Some(PUBLISHERS)
  {
  }

  lemma MeetingPagesClimbBack()
    ensures forall p :: p in MenuPages(MEETINGS) ==> ParentSection(p) == Some(MEETINGS)
  {
  }

  lemma CongregationPagesClimbBack()
    ensures forall p :: p in MenuPages(CONGREGATION) ==> ParentSection(p) == Some(CONGREGATION)
  {
  }

  lemma SettingsPagesClimbBack()
    ensures forall p :: p in MenuPages(SETTINGS) ==> ParentSection(p) == Some(SETTINGS)
  {
  }

  /** The two lists of a category's pages agree: below a category, the menu highlights that
      category exactly when back leads to it. */
  lemma MenuAgreesWithBack(s: string, c: string)
    requires c in CATEGORIES && s != c
    ensures IsInCategory(s, c) <==> ParentSection(s) == Some(c)
  {
    if s in MenuPages(c) {
      MenuPagesClimbBack(c, s);
    }
  }

  /** At most one menu entry is highlighted, whatever the section. */
  lemma HighlightUnique(s: string, c: string, d: string)
    requires c in MENU_ITEMS && d in MENU_ITEMS
    requires IsInCategory(s, c) && IsInCategory(s, d)
    ensures c == d
  {
    BackFromParents();
    if s in MenuPages(c) {
      MenuPagesClimbBack(c, s);
    }
    if s in MenuPages(d) {
      MenuPagesClimbBack(d, s);
    }
  }

  /** A publisher's reports page highlights no menu entry. */
  lemma PublisherPageHighlightsNothing(s: string, c: string)
    requires StartsWith(s, PUBLISHER_ROUTE) && c in MENU_ITEMS
    ensures !IsInCategory(s, c)
  {
    PublisherRouteIsNotNamed(s);
    ParentOfDashboardAndReports();
    if c in CATEGORIES {
      ParentOfCategory(c);
    }
    if s in MenuPages(c) {
      MenuPagesClimbBack(c, s);
    }
  }

  // ---------------------------------------------------------------- screens

  datatype Screen =
    | DashboardScreen
    | CategoryScreen(category: string)
    | CongregationSettingsScreen
    | UserSettingsScreen
    | UsersScreen
    | GroupsScreen
    | ReportsScreen
    | PublisherScreen(publisherId: string)
    | UnderConstruction(title: string)

  /** `render_section_content`'s titles for the sections without a screen of their own. */
  function SectionTitle(s: string): (t: string)
    ensures t == "Unknown" <==> s !in TITLED
  {
    match s
    case "users" => "Users"
    case "field-service-reports" => "Field Service Reports"
    case "roles" => "Privileges"
    case "field-service-groups" => "Field Service Groups"
    case "weekday-meeting" => "Weekday Meeting"
    case "weekend-meeting" => "Weekend Meeting"
    case "field-service-meetings" => "Field Service Meetings"
    case "meeting-attendance" => "Meeting Attendance"
    case "special-events" => "Special Events"
    case "absences" => "Absences"
    case "cleaning" => "Cleaning Schedule"
    case "maintenance" => "Maintenance"
    case "attendant" => "Attendant Schedule"
    case "audio-video" => "Audio & Video"
    case "territory" => "Territory"
    case "user-settings" => "User Settings"
    case "dashboard" => "Dashboard"
    case _ => "Unknown"
  }

  /** The sections `SectionTitle` names. */
  const TITLED := ["users", "field-service-reports", "roles", "field-service-groups", "weekday-meeting",
    "weekend-meeting", "field-service-meetings", "meeting-attendance", "special-events", "absences",
    "cleaning", "maintenance", "attendant", "audio-video", "territory", "user-settings", "dashboard"]

  /** What the main area shows for a section. */
  function ScreenOf(s: string): (v: Screen)
    ensures s in CATEGORIES <==> v == CategoryScreen(s)
    ensures v.PublisherScreen? <==> StartsWith(s, PUBLISHER_ROUTE)
    ensures v.PublisherScreen? ==> s == PUBLISHER_ROUTE + v.publisherId
  {
    if s in CATEGORIES then CategoryScreen(s)
    else if s == "congregation-settings" then CongregationSettingsScreen
    else if s == "user-settings" then UserSettingsScreen
    else if s == "users" then UsersScreen
    else if s == "field-service-groups" then GroupsScreen
    else if s == REPORTS then ReportsScreen
    else if StartsWith(s, PUBLISHER_ROUTE) then
      assert s == PUBLISHER_ROUTE + s[|PUBLISHER_ROUTE|..];
      PublisherScreen(s[|PUBLISHER_ROUTE|..])
    else if s == DASHBOARD then DashboardScreen
    else UnderConstruction(SectionTitle(s))
  }

  /** Every page a category lists opens a screen or a titled placeholder, never "Unknown". */
  lemma CategoryPagesAreTitled(s: string)
    requires ParentSection(s).Some? && ParentSection(s).value in CATEGORIES
    ensures ScreenOf(s) != UnderConstruction("Unknown")
  {
  }

  /** A publisher's route is none of the named sections: it is the only kind spelled with '_'
      at its sixth character. */
  lemma PublisherRouteIsNotNamed(s: string)
    requires StartsWith(s, PUBLISHER_ROUTE)
    ensures ParentSection(s) == Some(REPORTS)
    ensures ScreenOf(s) == PublisherScreen(s[|PUBLISHER_ROUTE|..])
  {
    assert s[5] == '_';
    assert s !in CATEGORIES && s != DASHBOARD && s != REPORTS;
    assert s !in ["users", "field-service-reports", "roles", "field-service-groups"];
    assert s !in ["weekday-meeting", "weekend-meeting", "field-service-meetings", "meeting-attendance"];
    assert s !in ["special-events", "absences", "cleaning", "maintenance", "attendant", "audio-video", "territory"];
    assert s !in ["user-settings", "congregation-settings"];
  }

  /** Clicking a publisher in the reports list opens that publisher's reports, and back returns
      to the list. */
  lemma ReportRowOpensPublisher(u: User)
    ensures ScreenOf(FieldServiceReports.RowTarget(u)) == PublisherScreen(FieldServiceReports.RowKey(u))
    ensures Back(FieldServiceReports.RowTarget(u)) == REPORTS
  {
    PublisherRouteIsNotNamed(FieldServiceReports.RowTarget(u));
  }

  // ---------------------------------------------------------------- header name

  /** The header's user name: "User" until both the congregation and the user have loaded, then
      the name in the congregation's order. */
  function HeaderName(cong: Option<Congregation>, user: Option<User>): (r: string)
    ensures cong.None? || user.None? ==> r == "User"
  {
    match (cong, user)
    case (Some(c), Some(u)) =>
      (match c.nameOrder
       case FirstnameLastname => u.firstname + " " + u.lastname
       case LastnameFirstname => u.lastname + ", " + u.firstname)
    case _ => "User"
  }

  /** Once loaded, the header renders the name as the lists do. */
  lemma HeaderNameAsLists(c: Congregation, u: User)
    ensures HeaderName(Some(c), Some(u)) == DisplayName(u, OrderOf(Some(c)))
  {
  }
}
