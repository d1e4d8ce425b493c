/**
 * The users view: the conjunctive name / gender / appointment / type filters, the name shown
 * on a card, pages of twelve, the selection checkboxes and "Select All", and the user form's
 * save (name check, empty text as no value, date inputs, the selects).
 *
 * The store calls (load, create, update, delete) are left out; a save is described by the
 * record it would write.
 */
module UsersView {
  import opened Common
  import opened Text
  import opened Dates
  import opened Records
  import opened Seqs
  import opened Paging

  // ---------------------------------------------------------------- filters

  datatype UserFilters = UserFilters(
    search: string,
    gender: Option<bool>,
    appointment: Option<Appointment>,
    userType: Option<UserType>)

  const NO_FILTERS := UserFilters("", None, None, None)

  /** Name: an empty query accepts everybody, otherwise the lower-cased "first last" must
      contain the lower-cased query. */
  predicate NameMatches(u: User, search: string) {
    ToLower(search) == [] || Contains(ToLower(FullName(u)), ToLower(search))
  }

  /** A set gender, appointment or type filter needs that exact value; a user with no
      appointment or type never matches a set filter. */
  predicate Passes(u: User, f: UserFilters) {
    NameMatches(u, f.search)
    && (f.gender.None? || u.gender == f.gender.value)
    && (f.appointment.None? || u.appointment == f.appointment)
    && (f.userType.None? || u.publisherType == f.userType)
  }

  /** `apply_filters`: the users passing every filter, in load order. */
  function FilterUsers(users: seq<User>, f: UserFilters): (r: seq<User>)
    ensures forall u :: u in r <==> u in users && Passes(u, f)
    ensures forall u :: multiset(r)[u] == if Passes(u, f) then multiset(users)[u] else 0
    ensures |r| <= |users|
  {
    Filter(users, (u: User) => Passes(u, f))
  }

  /** With every filter cleared the list is the loaded list. */
  lemma ClearedFiltersKeepAll(users: seq<User>)
    ensures FilterUsers(users, NO_FILTERS) == users
  {
    assert forall u :: Passes(u, NO_FILTERS);
  }

  /** The name filter ignores case in the query. */
  lemma SearchIgnoresQueryCase(u: User, q: string)
    ensures NameMatches(u, q) <==> NameMatches(u, ToLower(q))
  {
    ToLowerFacts(q);
  }

  /** Users without an appointment are hidden by any appointment filter, and users without a
      type by any type filter. */
  lemma UnsetValuesNeverMatch(u: User, f: UserFilters)
    requires (u.appointment.None? && f.appointment.Some?) || (u.publisherType.None? && f.userType.Some?)
    ensures !Passes(u, f)
  {
  }

  /** The gender select: "male" / "female" set the filter, "all" clears it, other values keep
      it. */
  function ChooseGender(current: Option<bool>, value: string): (r: Option<bool>)
    ensures value == "all" ==> r.None?
    ensures value == "male" ==> r == Some(true)
    ensures value == "female" ==> r == Some(false)
    ensures value !in {"all", "male", "female"} ==> r == current
  {
    match value
    case "all" => None
    case "male" => Some(true)
    case "female" => Some(false)
    case _ => current
  }

  /** The appointment values of the selects. */
  function AppointmentValue(a: Appointment): string {
    match a
    case Elder => "elder"
    case MinisterialServant => "ms"
  }

  /** The form's appointment select: an appointment's value chooses it, anything else means no
      appointment. */
  function AppointmentOf(value: string): (r: Option<Appointment>)
    ensures value != "elder" && value != "ms" ==> r.None?
  {
    match value
    case "elder" => Some(Elder)
    case "ms" => Some(MinisterialServant)
    case _ => None
  }

  lemma AppointmentSelectRoundTrip(a: Appointment)
    ensures AppointmentOf(AppointmentValue(a)) == Some(a)
  {
  }

  /** The appointment filter: "all" clears it, an appointment's value sets it, anything else
      keeps it. */
  function ChooseAppointment(current: Option<Appointment>, value: string): (r: Option<Appointment>)
    ensures value == "all" ==> r.None?
    ensures forall a :: value == AppointmentValue(a) ==> r == Some(a)
    ensures value != "all" && AppointmentOf(value).None? ==> r == current
  {
    if value == "all" then None
    else match AppointmentOf(value)
      case Some(a) => Some(a)
      case None => current
  }

  /** The type values of the selects. */
  function TypeValue(t: UserType): string {
    match t
    case Student => "student"
    case UnbaptizedPublisher => "unbaptized"
    case BaptizedPublisher => "baptized"
    case RegularPioneer => "regular_pioneer"
    case SpecialPioneer => "special_pioneer"
    case ContinuousAuxiliaryPioneer => "aux_pioneer"
  }

  /** The form's type select: a type's value chooses it, anything else ("Select type") means
      no type. */
  function TypeOf(value: string): (r: Option<UserType>)
    ensures r.Some? ==> TypeValue(r.value) == value
  {
    match value
    case "student" => Some(Student)
    case "unbaptized" => Some(UnbaptizedPublisher)
    case "baptized" => Some(BaptizedPublisher)
    case "regular_pioneer" => Some(RegularPioneer)
    case "special_pioneer" => Some(SpecialPioneer)
    case "aux_pioneer" => Some(ContinuousAuxiliaryPioneer)
    case _ => None
  }

  lemma TypeSelectRoundTrip(t: UserType)
    ensures TypeOf(TypeValue(t)) == Some(t)
  {
  }

  /** The type filter: "all" clears it, a type's value sets it, anything else keeps it. */
  function ChooseType(current: Option<UserType>, value: string): (r: Option<UserType>)
    ensures value == "all" ==> r.None?
    ensures forall t :: value == TypeValue(t) ==> r == Some(t)
    ensures value != "all" && TypeOf(value).None? ==> r == current
  {
    if value == "all" then None
    else match TypeOf(value)
      case Some(t) => Some(t)
      case None => current
  }

  // ---------------------------------------------------------------- the list

  /** What the list shows: the filtered users, the page, the ticked user ids. */
  datatype ListState = ListState(filtered: seq<User>, page: nat, selected: seq<string>)

  /** Re-filtering goes back to the first page and keeps the ticked ids. */
  function Refilter(s: ListState, users: seq<User>, f: UserFilters): (t: ListState)
    ensures t.page == 0 && t.selected == s.selected
    ensures forall u :: u in t.filtered <==> u in users && Passes(u, f)
  {
    ListState(FilterUsers(users, f), 0, s.selected)
  }

  const PER_PAGE: nat := 12

  /** The cards on the current page. */
  function ShownUsers(s: ListState): (r: seq<User>)
    ensures |r| == PageLength(|s.filtered|, s.page, PER_PAGE)
    ensures |r| <= PER_PAGE
    ensures forall i :: 0 <= i < |r| ==> s.page * PER_PAGE + i < |s.filtered| && r[i] == s.filtered[s.page * PER_PAGE + i]
  {
    Page(s.filtered, s.page, PER_PAGE)
  }

  /** After a new filter the cards are the first matching users, up to a page's worth, in
      load order: no earlier page position survives the change. */
  lemma RefilterShowsFirstMatches(s: ListState, users: seq<User>, f: UserFilters)
    ensures var t := Refilter(s, users, f);
      ShownUsers(t) == t.filtered[..if |t.filtered| < PER_PAGE then |t.filtered| else PER_PAGE]
    ensures var t := Refilter(s, users, f);
      forall u :: u in ShownUsers(t) ==> u in users && Passes(u, f)
  {
    var t := Refilter(s, users, f);
    var n := if |t.filtered| < PER_PAGE then |t.filtered| else PER_PAGE;
    assert |ShownUsers(t)| == n;
    assert forall i :: 0 <= i < n ==> ShownUsers(t)[i] == t.filtered[i];
  }

  /** Paging through the list shows each user once, in order. */
  lemma PagesShowEveryUser(filtered: seq<User>)
    ensures PagesFrom(filtered, 0, PER_PAGE) == filtered
  {
    PagesCoverList(filtered, PER_PAGE);
  }

  /** The card's name shows both names, in either order. */
  lemma DisplayNameShowsBothNames(u: User, order: Option<NameOrder>)
    ensures Contains(DisplayName(u, order), u.firstname) && Contains(DisplayName(u, order), u.lastname)
  {
    var r := DisplayName(u, order);
    if order == Some(LastnameFirstname) {
      assert OccursAt(r, u.lastname, 0);
      assert r[|u.lastname| + 2..] == u.firstname;
      assert OccursAt(r, u.firstname, |u.lastname| + 2);
    } else {
      assert OccursAt(r, u.firstname, 0);
      assert r[|u.firstname| + 1..] == u.lastname;
      assert OccursAt(r, u.lastname, |u.firstname| + 1);
    }
  }

  // ---------------------------------------------------------------- selection

  /** The id the list keys and ticks a user by: the full "user:local" text (the users the view
      loads always have an id). */
  function IdText(u: User): (r: string)
    ensures u.id.Some? ==> r == ThingString(u.id.value)
  {
    match u.id
    case Some(id) => ThingString(id)
    case None => []
  }

  function Ids(users: seq<User>): (r: seq<string>)
    ensures |r| == |users| && forall i :: 0 <= i < |users| ==> r[i] == IdText(users[i])
  {
    if |users| == 0 then [] else [IdText(users[0])] + Ids(users[1..])
  }

  /** The header button as written: it unticks everything when as many ids are ticked as users
      are listed, and otherwise ticks exactly the listed users. */
  function SelectAllAsWritten(selected: seq<string>, filtered: seq<User>): (r: seq<string>)
    ensures |selected| == |filtered| ==> r == []
    ensures |selected| != |filtered| ==> r == Ids(filtered)
  {
    if |selected| == |Ids(filtered)| then [] else Ids(filtered)
  }

  /** Ticks survive re-filtering, so the count can match while none of the listed users is
      ticked: then "Unselect All" is offered and pressing it unticks everything instead of
      ticking the listed users. */
  lemma SelectAllAsWrittenMissesListedUsers()
    ensures var shown := [UserWithId("c"), UserWithId("d")];
      var selected := ["user:a", "user:b"];
      (forall u :: u in shown ==> IdText(u) !in selected)
      && SelectAllAsWritten(selected, shown) == []
  {
    var shown := [UserWithId("c"), UserWithId("d")];
    assert IdText(shown[0]) == "user:c" && IdText(shown[1]) == "user:d";
  }

  /** A user with the given local id and nothing else filled in. */
  function UserWithId(local: string): (u: User)
    ensures u.id == Some(Ref("user", local))
  {
    User(Some(Ref("user", local)), "", "", true, false, None, None, None, None, None, None,
      None, None, None, None, None, None, None, [])
  }

  /** Every listed user is ticked. */
  predicate AllListedSelected(selected: seq<string>, filtered: seq<User>) {
    forall i :: 0 <= i < |filtered| ==> IdText(filtered[i]) in selected
  }

  /** The header button as intended: untick everything when every listed user is ticked,
      otherwise tick exactly the listed users. */
  function SelectAll(selected: seq<string>, filtered: seq<User>): (r: seq<string>)
    ensures AllListedSelected(selected, filtered) ==> r == []
    ensures !AllListedSelected(selected, filtered) ==> r == Ids(filtered) && AllListedSelected(r, filtered)
  {
    if AllListedSelected(selected, filtered) then [] else Ids(filtered)
  }

  /** Pressing the intended button twice on a list that was not fully ticked ticks it and then
      clears it. */
  lemma SelectAllToggles(selected: seq<string>, filtered: seq<User>)
    requires !AllListedSelected(selected, filtered)
    ensures AllListedSelected(SelectAll(selected, filtered), filtered)
    ensures SelectAll(SelectAll(selected, filtered), filtered) == []
  {
  }

  /** When the ticked ids are exactly the listed ones, both buttons untick everything. */
  lemma SelectAllAgreesOnExactSelection(filtered: seq<User>)
    ensures SelectAllAsWritten(Ids(filtered), filtered) == SelectAll(Ids(filtered), filtered)
  {
    assert AllListedSelected(Ids(filtered), filtered) by {
      forall i | 0 <= i < |filtered| ensures IdText(filtered[i]) in Ids(filtered) {
        assert Ids(filtered)[i] == IdText(filtered[i]);
      }
    }
  }

  // ---------------------------------------------------------------- the user form

  datatype Mode = Create | Edit

  /** The form's fields as the inputs hold them. */
  datatype UserForm = UserForm(
    firstname: string,
    lastname: string,
    gender: bool,
    familyHead: bool,
    email: string,
    phone: string,
    address: string,
    city: string,
    country: string,
    zipcode: string,
    birthday: string,
    baptismDate: string,
    anointed: bool,
    publisherType: Option<UserType>,
    appointment: Option<Appointment>,
    password: string,
    emergencyContacts: seq<EmergencyContact>)

  function TextOr(s: Option<string>): string {
    s.GetOr([])
  }

  function DateText(d: Option<Date>): (r: string)
    ensures d.None? ==> r == []
  {
    match d
    case Some(x) => if Valid(x) then IsoDate(x) else []
    case None => []
  }

  /** The form as it opens: empty for a new user (gender male), the user's values when
      editing; the password field always starts empty. */
  function LoadUserForm(existing: Option<User>): (f: UserForm)
    ensures f.password == []
    ensures existing.None? ==> f.firstname == [] && f.lastname == [] && f.gender && !f.familyHead
    ensures existing.Some? ==> f.firstname == existing.value.firstname && f.lastname == existing.value.lastname
  {
    match existing
    case None => UserForm([], [], true, false, [], [], [], [], [], [], [], [], false, None, None, [], [])
    case Some(u) => UserForm(
      u.firstname, u.lastname, u.gender, u.familyHead,
      TextOr(u.email), TextOr(u.phone), TextOr(u.address), TextOr(u.city), TextOr(u.country), TextOr(u.zipcode),
      DateText(u.birthday), DateText(u.baptismDate),
      u.anointed.GetOr(false), u.publisherType, u.appointment, [], u.emergencyContacts)
  }

  /** An input's text as an optional value: empty text is no value. */
  function OptText(s: string): (r: Option<string>)
    ensures r.None? <==> s == []
    ensures r.Some? ==> r.value == s
  {
    if s == [] then None else Some(s)
  }

  /** A date input: empty is no date, text that is not a date is no date either. */
  function OptDate(s: string): (r: Option<Date>)
    ensures s == [] ==> r.None?
    ensures r.Some? ==> Valid(r.value)
  {
    if s == [] then None else ParseIsoDate(s)
  }

  /** What a save does with the store. */
  datatype UserSave = Rejected(message: string) | CreateUser(user: User) | UpdateUser(user: User)

  const NAMES_REQUIRED := "First name and last name are required"
  const SAVE_FAILED := "Failed to save user"
  const TEMP_ID := Ref("user", "temp")

  /** The record the form describes, under the given id. */
  function UserOf(f: UserForm, id: Option<Ref>): (u: User)
    ensures u.id == id && u.firstname == f.firstname && u.lastname == f.lastname
    ensures u.preachingGroup.None? && u.anointed == Some(f.anointed)
    ensures (u.email.None? <==> f.email == []) && (u.password.None? <==> f.password == [])
  {
    User(id, f.firstname, f.lastname, f.gender, f.familyHead,
      OptText(f.email), OptText(f.password), OptDate(f.birthday),
      OptText(f.phone), OptText(f.address), OptText(f.city), OptText(f.country), OptText(f.zipcode),
      OptDate(f.baptismDate), Some(f.anointed), f.publisherType, f.appointment, None, f.emergencyContacts)
  }

  /** `handle_save`: a blank first or last name (after trimming) is refused; the names are
      stored as typed, untrimmed. A new user gets the placeholder id `user:temp`; an edit keeps
      the edited user's id; an edit with no user to edit fails. */
  function SaveUser(mode: Mode, f: UserForm, existing: Option<User>): (s: UserSave)
    ensures s.Rejected? <==> IsBlank(f.firstname) || IsBlank(f.lastname) || (mode == Edit && existing.None?)
    ensures (IsBlank(f.firstname) || IsBlank(f.lastname)) ==> s == Rejected(NAMES_REQUIRED)
    ensures s.CreateUser? ==> mode == Create && s.user.id == Some(TEMP_ID)
    ensures s.UpdateUser? ==> mode == Edit && existing.Some? && s.user.id == existing.value.id
  {
    if IsBlank(f.firstname) || IsBlank(f.lastname) then Rejected(NAMES_REQUIRED)
    else match mode
      case Create => CreateUser(UserOf(f, Some(TEMP_ID)))
      case Edit =>
        match existing
        case Some(u) => UpdateUser(UserOf(f, u.id))
        case None => Rejected(SAVE_FAILED)
  }

  /** A user the form can show without loss. */
  predicate Editable(u: User) {
    u.email != Some([]) && u.phone != Some([]) && u.address != Some([]) && u.city != Some([])
    && u.country != Some([]) && u.zipcode != Some([])
    && (u.birthday.Some? ==> Valid(u.birthday.value) && 0 <= u.birthday.value.year <= 9999)
    && (u.baptismDate.Some? ==> Valid(u.baptismDate.value) && 0 <= u.baptismDate.value.year <= 9999)
    && u.anointed.Some? && u.preachingGroup.None? && u.password.None?
  }

  /** Opening a user and saving without changes writes the same user back. */
  lemma EditUserRoundTrip(u: User)
    requires Editable(u) && !IsBlank(u.firstname) && !IsBlank(u.lastname)
    ensures SaveUser(Edit, LoadUserForm(Some(u)), Some(u)) == UpdateUser(u)
  {
    var f := LoadUserForm(Some(u));
    TextRoundTrip(u.email);
    TextRoundTrip(u.phone);
    TextRoundTrip(u.address);
    TextRoundTrip(u.city);
    TextRoundTrip(u.country);
    TextRoundTrip(u.zipcode);
    DateRoundTrip(u.birthday);
    DateRoundTrip(u.baptismDate);
    assert UserOf(f, u.id) == u;
  }

  /** An optional text field shows as its text and reads back, unless it held empty text. */
  lemma TextRoundTrip(o: Option<string>)
    requires o != Some([])
    ensures OptText(TextOr(o)) == o
  {
  }

  /** An optional date shows as "YYYY-MM-DD" and reads back. */
  lemma DateRoundTrip(d: Option<Date>)
    requires d.Some? ==> Valid(d.value) && 0 <= d.value.year <= 9999
    ensures OptDate(DateText(d)) == d
  {
    if d.Some? {
      IsoDateRoundTrip(d.value);
    }
  }

  /** An edit always stores no preaching group, and stores no password unless one is typed:
      the form has no group field and opens with an empty password. */
  lemma EditDropsGroupAndPassword(u: User)
    requires !IsBlank(u.firstname) && !IsBlank(u.lastname)
    ensures var s := SaveUser(Edit, LoadUserForm(Some(u)), Some(u));
      s.UpdateUser? && s.user.preachingGroup.None? && s.user.password.None?
  {
  }
}
