/**
 * The field-service reports view: the previous calendar month's window, each publisher's totals
 * and "preached" flag over that window, the badge a row shows, the name / type / group filters
 * and the name order of the list, and the group column.
 *
 * The current date, the report fetch and the group fetch are parameters; a failed report fetch
 * is `Err`. A row identifies its publisher by the trailing id of the user's reference, and the
 * aggregation compares that with the bare local id of each report's publisher reference.
 */
module FieldServiceReports {
  import opened Common
  import opened Text
  import opened Numbers
  import opened Dates
  import opened Records
  import opened Seqs
  import opened Paging

  // ---------------------------------------------------------------- the previous month

  /** `get_previous_month_start`: the first day of the month before today's. */
  function PreviousMonthStart(today: Date): (r: Date)
    requires Valid(today)
    ensures Valid(r) && r.day == 1
    ensures today.month == 1 ==> r.year == today.year - 1 && r.month == 12
    ensures today.month > 1 ==> r.year == today.year && r.month == today.month - 1
  {
    if today.month == 1 then Date(today.year - 1, 12, 1) else Date(today.year, today.month - 1, 1)
  }

  /** `get_previous_month_end`: the day before the first of today's month. */
  function PreviousMonthEnd(today: Date): (r: Date)
    requires Valid(today)
    ensures Valid(r)
  {
    Pred(Date(today.year, today.month, 1))
  }

  /** Start and end fall in the same month, the start on its first day and the end on its
      last. */
  lemma PreviousMonthBounds(today: Date)
    requires Valid(today)
    ensures var s, e := PreviousMonthStart(today), PreviousMonthEnd(today);
      Le(s, e) && s.year == e.year && s.month == e.month && e.day == DaysInMonth(e.year, e.month)
  {
  }

  /** The window is exactly the previous calendar month: a valid date lies between its start and
      its end if and only if it has that month and year. */
  lemma PreviousMonthWindow(today: Date, d: Date)
    requires Valid(today) && Valid(d)
    ensures InRange(d, PreviousMonthStart(today), PreviousMonthEnd(today)) <==>
      d.year == PreviousMonthStart(today).year && d.month == PreviousMonthStart(today).month
  {
    var e := PreviousMonthEnd(today);
    if today.month == 1 {
      assert e == Date(today.year - 1, 12, 31);
    } else {
      assert e == Date(today.year, today.month - 1, DaysInMonth(today.year, today.month - 1));
    }
  }

  // ---------------------------------------------------------------- totals and "preached"

  /** A report counts for the publisher `userId` in the window `[start, end]`. */
  predicate Counts(r: Report, userId: string, start: Date, end: Date) {
    r.publisher.Some? && KeyText(r.publisher.value.local) == userId && InRange(r.date, start, end)
  }

  datatype Measure = Hours | Credits

  /** `hours.unwrap_or(0)` / `credits.unwrap_or(0)`. */
  function Amount(r: Report, m: Measure): int {
    match m
    case Hours => r.hours.GetOr(0)
    case Credits => r.credits.GetOr(0)
  }

  /** The sum of one measure over the reports that count. */
  function Total(rs: seq<Report>, userId: string, start: Date, end: Date, m: Measure): int {
    if |rs| == 0 then 0
    else
      var last := rs[|rs| - 1];
      Total(rs[..|rs| - 1], userId, start, end, m) + (if Counts(last, userId, start, end) then Amount(last, m) else 0)
  }

  /** Totals add up over concatenation. */
  lemma {:induction false} TotalAppend(a: seq<Report>, b: seq<Report>, userId: string, start: Date, end: Date, m: Measure)
    ensures Total(a + b, userId, start, end, m) == Total(a, userId, start, end, m) + Total(b, userId, start, end, m)
    decreases |b|
  {
    if |b| > 0 {
      assert (a + b)[..|a + b| - 1] == a + b[..|b| - 1];
      TotalAppend(a, b[..|b| - 1], userId, start, end, m);
    } else {
      assert a + b == a;
    }
  }

  /** Reports of other publishers or outside the window do not change a total. */
  lemma {:induction false} TotalIgnoresOthers(rs: seq<Report>, userId: string, start: Date, end: Date, m: Measure)
    requires forall i :: 0 <= i < |rs| ==> !Counts(rs[i], userId, start, end)
    ensures Total(rs, userId, start, end, m) == 0
  {
    if |rs| > 0 {
      TotalIgnoresOthers(rs[..|rs| - 1], userId, start, end, m);
    }
  }

  /** With no negative amounts, a total is positive exactly when some counted report has a
      positive amount. */
  lemma {:induction false} TotalPositive(rs: seq<Report>, userId: string, start: Date, end: Date, m: Measure)
    requires forall i :: 0 <= i < |rs| ==> Amount(rs[i], m) >= 0
    ensures Total(rs, userId, start, end, m) >= 0
    ensures Total(rs, userId, start, end, m) > 0 <==>
      exists i :: 0 <= i < |rs| && Counts(rs[i], userId, start, end) && Amount(rs[i], m) > 0
  {
    if |rs| > 0 {
      var init := rs[..|rs| - 1];
      TotalPositive(init, userId, start, end, m);
      assert forall i :: 0 <= i < |init| ==> init[i] == rs[i];
    }
  }

  /** `get_previous_month_totals`: hours and credits of the publisher over the previous month;
      (0, 0) when the reports cannot be fetched. */
  method PreviousMonthTotals(fetched: Result<seq<Report>>, userId: string, today: Date) returns (hours: int, credits: int)
    requires Valid(today)
    ensures fetched.Err? ==> hours == 0 && credits == 0
    ensures fetched.Ok? ==>
      hours == Total(fetched.value, userId, PreviousMonthStart(today), PreviousMonthEnd(today), Hours) &&
      credits == Total(fetched.value, userId, PreviousMonthStart(today), PreviousMonthEnd(today), Credits)
  {
    var start := PreviousMonthStart(today);
    var end := PreviousMonthEnd(today);
    hours, credits := 0, 0;
    if fetched.Err? {
      return;
    }
    var rs := fetched.value;
    var i := 0;
    while i < |rs|
      invariant 0 <= i <= |rs|
      invariant hours == Total(rs[..i], userId, start, end, Hours)
      invariant credits == Total(rs[..i], userId, start, end, Credits)
    {
      assert rs[..i + 1][..i] == rs[..i];
      var r := rs[i];
      if r.publisher.Some? {
        if KeyText(r.publisher.value.local) == userId && Le(start, r.date) && Le(r.date, end) {
          hours := hours + r.hours.GetOr(0);
          credits := credits + r.credits.GetOr(0);
        }
      }
      i := i + 1;
    }
    assert rs[..i] == rs;
  }

  /** Some report in the window for the publisher is marked preached. */
  predicate PreachedIn(rs: seq<Report>, userId: string, start: Date, end: Date) {
    exists i :: 0 <= i < |rs| && Counts(rs[i], userId, start, end) && rs[i].preached
  }

  /** `did_preach_previous_month`: whether any report of the publisher in the previous month is
      marked preached; false when the reports cannot be fetched. */
  method DidPreachPreviousMonth(fetched: Result<seq<Report>>, userId: string, today: Date) returns (b: bool)
    requires Valid(today)
    ensures fetched.Err? ==> !b
    ensures fetched.Ok? ==> (b <==> PreachedIn(fetched.value, userId, PreviousMonthStart(today), PreviousMonthEnd(today)))
  {
    var start := PreviousMonthStart(today);
    var end := PreviousMonthEnd(today);
    if fetched.Err? {
      return false;
    }
    var rs := fetched.value;
    b := false;
    var i := 0;
    while i < |rs| && !b
      invariant 0 <= i <= |rs|
      invariant !b ==> forall k :: 0 <= k < i ==> !(Counts(rs[k], userId, start, end) && rs[k].preached)
      invariant b ==> PreachedIn(rs, userId, start, end)
    {
      var r := rs[i];
      if r.publisher.Some? && KeyText(r.publisher.value.local) == userId && Le(start, r.date) && Le(r.date, end) && r.preached {
        b := true;
      }
      i := i + 1;
    }
  }

  // ---------------------------------------------------------------- the row

  /** The pill in the "Previous Month" column. */
  datatype Badge = Badge(text: string, success: bool)

  const PREACHED := "Preached"
  const NOT_PREACHED := "Not preached"

  /** Pioneers see "<hours + credits> hours", green when positive; everybody else sees whether
      they preached. */
  function PreviousMonthBadge(pioneer: bool, hours: int, credits: int, preached: bool): (b: Badge)
    ensures pioneer ==> b.text == IntToDecimal(hours + credits) + " hours"
    ensures !pioneer ==> b.text == (if preached then PREACHED else NOT_PREACHED)
  {
    if pioneer then Badge(IntToDecimal(hours + credits) + " hours", hours + credits > 0)
    else if preached then Badge(PREACHED, true)
    else Badge(NOT_PREACHED, false)
  }

  /** What the green pill means, in terms of the reports: for a pioneer (with no negative hours
      or credits), some previous-month report with hours or credits; for anybody else, some
      previous-month report marked preached. */
  lemma BadgeMeaning(rs: seq<Report>, user: User, userId: string, today: Date)
    requires Valid(today)
    requires forall i :: 0 <= i < |rs| ==> Amount(rs[i], Hours) >= 0 && Amount(rs[i], Credits) >= 0
    ensures var start, end := PreviousMonthStart(today), PreviousMonthEnd(today);
      var b := PreviousMonthBadge(IsPioneer(user.publisherType),
        Total(rs, userId, start, end, Hours), Total(rs, userId, start, end, Credits), PreachedIn(rs, userId, start, end));
      b.success <==>
        if IsPioneer(user.publisherType) then
          exists i :: 0 <= i < |rs| && Counts(rs[i], userId, start, end) &&
            (Amount(rs[i], Hours) > 0 || Amount(rs[i], Credits) > 0)
        else PreachedIn(rs, userId, start, end)
  {
    var start, end := PreviousMonthStart(today), PreviousMonthEnd(today);
    TotalPositive(rs, userId, start, end, Hours);
    TotalPositive(rs, userId, start, end, Credits);
  }

  /** `get_type_label`. */
  function TypeLabel(t: UserType): string {
    match t
    case BaptizedPublisher => "Publisher"
    case UnbaptizedPublisher => "Unbaptized"
    case RegularPioneer => "Regular Pioneer"
    case SpecialPioneer => "Special Pioneer"
    case ContinuousAuxiliaryPioneer => "Auxiliary Pioneer"
    case Student => "Student"
  }

  /** Different types get different labels. */
  lemma TypeLabelsDistinct(a: UserType, b: UserType)
    ensures TypeLabel(a) == TypeLabel(b) <==> a == b
  {
  }

  // ---------------------------------------------------------------- filters and order

  /** The view lists publishers only: users with a publisher type. */
  function Publishers(all: seq<User>): (r: seq<User>)
    ensures forall u :: u in r <==> u in all && u.publisherType.Some?
    ensures forall u :: multiset(r)[u] == if u.publisherType.Some? then multiset(all)[u] else 0
  {
    Filter(all, (u: User) => u.publisherType.Some?)
  }

  /** The user is supervisor, auxiliary or member of `g`, all compared by trailing id. */
  predicate BelongsTo(g: Group, uid: string) {
    (g.supervisor.Some? && TrailingId(g.supervisor.value) == uid)
    || (g.auxiliary.Some? && TrailingId(g.auxiliary.value) == uid)
    || exists j :: 0 <= j < |g.members| && TrailingId(g.members[j]) == uid
  }

  /** The group filter: some group whose trailing id is the filter's trailing segment has the
      user; a user without an id never passes. */
  predicate InGroup(u: User, groups: seq<Group>, filter: string) {
    u.id.Some? &&
    exists i :: 0 <= i < |groups| && groups[i].id.Some? &&
      TrailingId(groups[i].id.value) == TrailingSegment(filter) && BelongsTo(groups[i], TrailingId(u.id.value))
  }

  /** The filters the view combines. */
  datatype Filters = Filters(search: string, userType: Option<UserType>, group: Option<string>)

  const NO_FILTERS := Filters("", None, None)

  predicate Passes(u: User, groups: seq<Group>, f: Filters) {
    (f.search == [] || Contains(ToLower(FullName(u)), ToLower(f.search)))
    && (f.userType.None? || u.publisherType == f.userType)
    && (f.group.None? || InGroup(u, groups, f.group.value))
  }

  /** The text the list is sorted by: lower-cased "first last" or "last first". */
  function SortName(u: User, order: NameOrder): string {
    match order
    case FirstnameLastname => ToLower(u.firstname + " " + u.lastname)
    case LastnameFirstname => ToLower(u.lastname + " " + u.firstname)
  }

  predicate UserLe(order: NameOrder, a: User, b: User) {
    StrLe(SortName(a, order), SortName(b, order))
  }

  lemma UserLeTotal(s: seq<User>, order: NameOrder)
    ensures TotalOn(s, (a, b) => UserLe(order, a, b))
  {
    forall i, j | 0 <= i < |s| && 0 <= j < |s|
      ensures UserLe(order, s[i], s[j]) || UserLe(order, s[j], s[i])
    {
      StrLeTotal(SortName(s[i], order), SortName(s[j], order));
    }
  }

  /** `apply_filters`: the users that pass every filter, each as often as it was loaded, sorted
      by the congregation's name order when a congregation is loaded. */
  function ApplyFilters(users: seq<User>, groups: seq<Group>, f: Filters, order: Option<NameOrder>): (r: seq<User>)
    ensures forall u :: u in r <==> u in users && Passes(u, groups, f)
    ensures forall u :: multiset(r)[u] == if Passes(u, groups, f) then multiset(users)[u] else 0
    ensures order.Some? ==> SortedBy(r, (a, b) => UserLe(order.value, a, b))
  {
    var kept := Filter(users, u => Passes(u, groups, f));
    if order.Some? then SortUsers(kept, order.value) else kept
  }

  /** The users in the congregation's name order, none added or lost. */
  function SortUsers(users: seq<User>, order: NameOrder): (r: seq<User>)
    ensures multiset(r) == multiset(users)
    ensures forall u :: u in r <==> u in users
    ensures SortedBy(r, (a, b) => UserLe(order, a, b))
  {
    UserLeTotal(users, order);
    var r := SortBy(users, (a, b) => UserLe(order, a, b));
    assert forall u :: u in r <==> u in multiset(r);
    assert forall u :: u in users <==> u in multiset(users);
    r
  }

  /** "Clear Filters" lists every loaded user again. */
  lemma ClearedFiltersListEveryone(users: seq<User>, groups: seq<Group>, order: Option<NameOrder>)
    ensures multiset(ApplyFilters(users, groups, NO_FILTERS, order)) == multiset(users)
  {
    var r := ApplyFilters(users, groups, NO_FILTERS, order);
    assert forall u :: multiset(r)[u] == multiset(users)[u];
  }

  /** Adding a filter can only shorten the list. */
  lemma MoreFiltersFewerUsers(users: seq<User>, groups: seq<Group>, f: Filters, g: Filters, order: Option<NameOrder>)
    requires forall u :: Passes(u, groups, g) ==> Passes(u, groups, f)
    ensures multiset(ApplyFilters(users, groups, g, order)) <= multiset(ApplyFilters(users, groups, f, order))
  {
  }

  /** Choosing a group in the filter (whose option value is the group's full reference) lists its
      supervisor, whoever else it has. */
  lemma GroupFilterListsSupervisor(users: seq<User>, groups: seq<Group>, g: Group, u: User, order: Option<NameOrder>)
    requires g in groups && g.id.Some? && g.supervisor.Some?
    requires u in users && u.id.Some? && TrailingId(u.id.value) == TrailingId(g.supervisor.value)
    ensures u in ApplyFilters(users, groups, Filters("", None, Some(ThingString(g.id.value))), order)
  {
    var i :| 0 <= i < |groups| && groups[i] == g;
    assert BelongsTo(groups[i], TrailingId(u.id.value));
    assert InGroup(u, groups, ThingString(g.id.value));
    assert Passes(u, groups, Filters("", None, Some(ThingString(g.id.value))));
  }

  /** The group filter may hold the full reference or the printed key alone: for a key without
      ':' both select the same users. */
  lemma GroupFilterFormsAgree(u: User, groups: seq<Group>, id: Ref)
    requires ':' !in id.local
    ensures InGroup(u, groups, ThingString(id)) <==> InGroup(u, groups, KeyText(id.local))
  {
    TrailingIdOfPlainLocal(id);
    TrailingSegmentAfterColon([], KeyText(id.local));
  }

  /** The type select: "all" clears the type filter, a type's value sets it, anything else
      leaves it as it was. */
  function ChooseType(current: Option<UserType>, value: string): (r: Option<UserType>)
    ensures value == "all" ==> r.None?
    ensures value == "baptized" ==> r == Some(BaptizedPublisher)
    ensures value == "unbaptized" ==> r == Some(UnbaptizedPublisher)
    ensures value == "regular_pioneer" ==> r == Some(RegularPioneer)
    ensures value == "special_pioneer" ==> r == Some(SpecialPioneer)
    ensures value == "aux_pioneer" ==> r == Some(ContinuousAuxiliaryPioneer)
    ensures value !in {"all", "baptized", "unbaptized", "regular_pioneer", "special_pioneer", "aux_pioneer"} ==> r == current
  {
    match value
    case "all" => None
    case "baptized" => Some(BaptizedPublisher)
    case "unbaptized" => Some(UnbaptizedPublisher)
    case "regular_pioneer" => Some(RegularPioneer)
    case "special_pioneer" => Some(SpecialPioneer)
    case "aux_pioneer" => Some(ContinuousAuxiliaryPioneer)
    case _ => current
  }

  /** Every type the select offers is a publisher type (never `Student`), and each is reached by
      exactly one value. */
  lemma ChooseTypeOffers(current: Option<UserType>, value: string)
    ensures ChooseType(current, value) != Some(Student) || current == Some(Student)
    ensures ChooseType(current, value) != current ==>
      value in {"all", "baptized", "unbaptized", "regular_pioneer", "special_pioneer", "aux_pioneer"}
  {
  }

  /** The type select's options: a value for each publisher type, none for students. */
  function TypeOptionValue(t: UserType): Option<string> {
    match t
    case BaptizedPublisher => Some("baptized")
    case UnbaptizedPublisher => Some("unbaptized")
    case RegularPioneer => Some("regular_pioneer")
    case SpecialPioneer => Some("special_pioneer")
    case ContinuousAuxiliaryPioneer => Some("aux_pioneer")
    case Student => None
  }

  /** Every offered option selects its own type, whatever was selected before, and only
      students go without an option. */
  lemma TypeSelectRoundTrip(current: Option<UserType>, t: UserType)
    ensures TypeOptionValue(t).Some? ==> ChooseType(current, TypeOptionValue(t).value) == Some(t)
    ensures TypeOptionValue(t).None? <==> t == Student
  {
  }

  /** The group select: "all" clears the group filter, any other value becomes the filter. */
  function ChooseGroup(value: string): (r: Option<string>)
    ensures r.None? <==> value == "all"
    ensures r.Some? ==> r.value == value
  {
    if value == "all" then None else Some(value)
  }

  /** A group's option value is never "all", so picking a group always sets the filter, and the
      filter then selects that group's people. */
  lemma PickingGroupSetsFilter(id: Ref)
    ensures ChooseGroup(ThingString(id)) == Some(ThingString(id))
  {
    var t := ThingString(id);
    assert t[|id.table|] == ':';
    if t == "all" {
      assert false;
    }
  }

  /** The group select: groups with an id, labelled by name and valued by their full reference,
      in case-insensitive name order. */
  datatype GroupOption = GroupOption(value: string, caption: string)

  predicate GroupLe(a: Group, b: Group) {
    StrLe(ToLower(a.name), ToLower(b.name))
  }

  function GroupOptionOf(g: Group): Option<GroupOption> {
    match g.id
    case Some(id) => Some(GroupOption(ThingString(id), g.name))
    case None => None
  }

  predicate HasId(g: Group) {
    g.id.Some?
  }

  /** The options' order: their captions compared lower-cased. */
  predicate OptionLe(a: GroupOption, b: GroupOption) {
    StrLe(ToLower(a.caption), ToLower(b.caption))
  }

  /** Options taken from groups sorted by lower-cased name are sorted by lower-cased caption. */
  lemma SortedGroupsGiveSortedOptions(sorted: seq<Group>)
    requires SortedBy(sorted, GroupLe)
    ensures SortedBy(FilterMap(sorted, GroupOptionOf), OptionLe)
  {
    forall a, b, c | GroupLe(a, b) && GroupLe(b, c) ensures GroupLe(a, c) {
      StrLeTrans(ToLower(a.name), ToLower(b.name), ToLower(c.name));
    }
    forall i, j | 0 <= i < j < |sorted| ensures GroupLe(sorted[i], sorted[j]) {
      SortedChain(sorted, GroupLe, i, j);
    }
    FilterMapSorted(sorted, GroupOptionOf, OptionLe);
  }

  function GroupFilterOptions(groups: seq<Group>): (r: seq<GroupOption>)
    ensures |r| == |Filter(groups, HasId)|
    ensures SortedBy(r, OptionLe)
    ensures forall g :: g in groups && g.id.Some? ==> GroupOption(ThingString(g.id.value), g.name) in r
    ensures forall o :: o in r ==> exists g :: g in groups && g.id.Some? && o == GroupOption(ThingString(g.id.value), g.name)
  {
    assert TotalOn(groups, GroupLe) by {
      forall i, j | 0 <= i < |groups| && 0 <= j < |groups| ensures GroupLe(groups[i], groups[j]) || GroupLe(groups[j], groups[i]) {
        StrLeTotal(ToLower(groups[i].name), ToLower(groups[j].name));
      }
    }
    var sorted := SortBy(groups, GroupLe);
    SortBySameElements(groups, GroupLe);
    var r := FilterMap(sorted, GroupOptionOf);
    OptionsOfSortedGroups(groups, sorted, r);
    r
  }

  /** The facts `GroupFilterOptions` promises, for the options of any rearrangement of the groups
      sorted by lower-cased name. */
  lemma OptionsOfSortedGroups(groups: seq<Group>, sorted: seq<Group>, r: seq<GroupOption>)
    requires multiset(sorted) == multiset(groups) && SortedBy(sorted, GroupLe)
    requires forall g :: g in sorted <==> g in groups
    requires r == FilterMap(sorted, GroupOptionOf)
    ensures |r| == |Filter(groups, HasId)|
    ensures SortedBy(r, OptionLe)
    ensures forall g :: g in groups && g.id.Some? ==> GroupOption(ThingString(g.id.value), g.name) in r
    ensures forall o :: o in r ==> exists g :: g in groups && g.id.Some? && o == GroupOption(ThingString(g.id.value), g.name)
  {
    FilterMapCount(sorted, GroupOptionOf, HasId);
    FilterCountPermutation(sorted, groups, HasId);
    SortedGroupsGiveSortedOptions(sorted);
    forall g | g in groups && g.id.Some? ensures GroupOption(ThingString(g.id.value), g.name) in r {
      var i :| 0 <= i < |sorted| && sorted[i] == g;
      assert GroupOptionOf(sorted[i]).Some?;
    }
    forall o | o in r ensures exists g :: g in groups && g.id.Some? && o == GroupOption(ThingString(g.id.value), g.name) {
      assert ImageOf(sorted, GroupOptionOf, o);
      var i :| 0 <= i < |sorted| && GroupOptionOf(sorted[i]) == Some(o);
      assert sorted[i] in groups;
    }
  }

  /** Picking a group's option in the select lists exactly that group's people (supervisor,
      auxiliary and members, by trailing id), provided no other group shares its trailing id. */
  lemma PickedOptionListsItsGroup(users: seq<User>, groups: seq<Group>, g: Group, u: User, order: Option<NameOrder>)
    requires g in groups && g.id.Some?
    requires forall i :: 0 <= i < |groups| && groups[i].id.Some? && TrailingId(groups[i].id.value) == TrailingId(g.id.value) ==> groups[i] == g
    ensures GroupOption(ThingString(g.id.value), g.name) in GroupFilterOptions(groups)
    ensures u in ApplyFilters(users, groups, Filters("", None, ChooseGroup(ThingString(g.id.value))), order) <==>
      u in users && u.id.Some? && BelongsTo(g, TrailingId(u.id.value))
  {
    var v := ThingString(g.id.value);
    PickingGroupSetsFilter(g.id.value);
    assert TrailingSegment(v) == TrailingId(g.id.value);
    if u.id.Some? && BelongsTo(g, TrailingId(u.id.value)) {
      var i :| 0 <= i < |groups| && groups[i] == g;
      assert InGroup(u, groups, v);
    }
  }

  // ---------------------------------------------------------------- pages and rows

  const PER_PAGE: nat := 20

  /** The rows on page `page` of the filtered list. */
  function ShownRows(filtered: seq<User>, page: nat): (r: seq<User>)
    ensures |r| == PageLength(|filtered|, page, PER_PAGE)
    ensures |r| <= PER_PAGE
    ensures forall i :: 0 <= i < |r| ==> page * PER_PAGE + i < |filtered| && r[i] == filtered[page * PER_PAGE + i]
  {
    Page(filtered, page, PER_PAGE)
  }

  /** Paging through the filtered list shows each row once, in order. */
  lemma PagesShowEveryRow(filtered: seq<User>)
    ensures PagesFrom(filtered, 0, PER_PAGE) == filtered
  {
    PagesCoverList(filtered, PER_PAGE);
  }

  /** The row's key: the user's trailing id, empty when the user has no id. */
  function RowKey(u: User): (r: string)
    ensures u.id.Some? && ':' !in u.id.value.local ==> r == KeyText(u.id.value.local)
    ensures u.id.None? ==> r == []
  {
    match u.id
    case Some(id) =>
      var k := TrailingId(id);
      assert ':' !in id.local ==> k == KeyText(id.local) by {
        if ':' !in id.local { TrailingIdOfPlainLocal(id); }
      }
      k
    case None => []
  }

  const ROW_ROUTE_PREFIX := "field_service_reports/"

  /** Clicking a row opens that publisher's reports. */
  function RowTarget(u: User): (r: string)
    ensures StartsWith(r, ROW_ROUTE_PREFIX) && r[|ROW_ROUTE_PREFIX|..] == RowKey(u)
  {
    ROW_ROUTE_PREFIX + RowKey(u)
  }

  // ---------------------------------------------------------------- the group column

  const NO_GROUP_LABEL := "—"

  /** `get_group_name` as written: it compares each group's full reference text
      ("table:key") with the printed key alone of the user's group reference. */
  function GroupNameAsWritten(u: User, groups: seq<Group>): string {
    match u.preachingGroup
    case None => NO_GROUP_LABEL
    case Some(ref) =>
      var matching := Filter(groups, (g: Group) => g.id.Some? && ThingString(g.id.value) == KeyText(ref.local));
      if |matching| > 0 then matching[0].name else NO_GROUP_LABEL
  }

  /** As written, the column never finds a group whose id has no ':' in its local part: a
      "table:local" text is never equal to a text without ':'. */
  lemma GroupNameAsWrittenNeverFinds(u: User, groups: seq<Group>)
    requires u.preachingGroup.Some? && ':' !in u.preachingGroup.value.local
    ensures GroupNameAsWritten(u, groups) == NO_GROUP_LABEL
  {
    var ref := u.preachingGroup.value;
    var matching := Filter(groups, (g: Group) => g.id.Some? && ThingString(g.id.value) == KeyText(ref.local));
    KeyTextColon(ref.local);
    forall id: Ref ensures ThingString(id) != KeyText(ref.local) {
      assert ThingString(id)[|id.table|] == ':';
    }
  }

  /** The user's group and a group with that very id: the column still shows the placeholder. */
  lemma GroupNameAsWrittenExample()
    ensures var g := Group(Some(Ref("field_service_group", "g1")), "Group 1", None, None, []);
      var u := User(Some(Ref("user", "u1")), "Ana", "Silva", false, false, None, None, None, None, None, None,
        None, None, None, None, Some(BaptizedPublisher), None, Some(Ref("field_service_group", "g1")), []);
      GroupNameAsWritten(u, [g]) == NO_GROUP_LABEL
  {
    var u := User(Some(Ref("user", "u1")), "Ana", "Silva", false, false, None, None, None, None, None, None,
      None, None, None, None, Some(BaptizedPublisher), None, Some(Ref("field_service_group", "g1")), []);
    GroupNameAsWrittenNeverFinds(u, [Group(Some(Ref("field_service_group", "g1")), "Group 1", None, None, [])]);
  }

  /** `groups[i]` is the first group whose id is `ref`. */
  predicate FirstGroupAt(groups: seq<Group>, ref: Ref, i: int) {
    0 <= i < |groups| && groups[i].id == Some(ref) && forall j :: 0 <= j < i ==> groups[j].id != Some(ref)
  }

  /** The group column as intended: the name of the first group whose id is the user's group
      reference, the placeholder when there is none. */
  function GroupName(u: User, groups: seq<Group>): (r: string)
    ensures u.preachingGroup.None? ==> r == NO_GROUP_LABEL
    ensures u.preachingGroup.Some? ==>
      forall i :: FirstGroupAt(groups, u.preachingGroup.value, i) ==> r == groups[i].name
    ensures u.preachingGroup.Some? && (forall g :: g in groups ==> g.id != u.preachingGroup) ==> r == NO_GROUP_LABEL
  {
    match u.preachingGroup
    case None => NO_GROUP_LABEL
    case Some(ref) => FirstGroupNamed(groups, ref)
  }

  function FirstGroupNamed(groups: seq<Group>, ref: Ref): (r: string)
    ensures forall i :: FirstGroupAt(groups, ref, i) ==> r == groups[i].name
    ensures (forall g :: g in groups ==> g.id != Some(ref)) ==> r == NO_GROUP_LABEL
  {
    if |groups| == 0 then NO_GROUP_LABEL
    else if groups[0].id == Some(ref) then groups[0].name
    else
      var r := FirstGroupNamed(groups[1..], ref);
      assert forall i :: FirstGroupAt(groups, ref, i) ==> FirstGroupAt(groups[1..], ref, i - 1);
      r
  }

  /** The intended column finds the user's group. */
  lemma GroupNameFindsGroup(u: User, groups: seq<Group>, i: nat)
    requires u.preachingGroup.Some? && i < |groups| && groups[i].id == u.preachingGroup
    requires forall j :: 0 <= j < i ==> groups[j].id != u.preachingGroup
    ensures GroupName(u, groups) == groups[i].name
  {
  }
}
