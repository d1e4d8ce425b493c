/**
 * The record shapes the views read and write. Where the store's model files disagree with the
 * views, these follow the views: a group carries `members`, ids are optional, a report has no
 * status, commitments are `Fifteen` / `Thirty`, a congregation's meetings are always present.
 */
module Records {
  import opened Common
  import opened Text
  import opened Dates

  /** A record reference `table:local` (surrealdb's `Thing`). */
  datatype Ref = Ref(table: string, local: string)

  /** A character surrealdb prints bare in a record key. */
  predicate IsIdChar(c: char) {
    'a' <= c <= 'z' || 'A' <= c <= 'Z' || '0' <= c <= '9' || c == '_'
  }

  /** A key surrealdb writes without brackets: one or more id characters. */
  predicate IsPlainId(k: string) {
    |k| > 0 && forall i :: 0 <= i < |k| ==> IsIdChar(k[i])
  }

  /** How a key is printed: bare when it is a plain identifier, otherwise between ⟨ and ⟩. */
  function KeyText(k: string): string {
    if IsPlainId(k) then k else ['⟨'] + k + ['⟩']
  }

  /** A plain identifier prints as itself; any other key prints between brackets, so it never
      reads as a plain identifier. */
  lemma KeyTextShape(k: string)
    ensures IsPlainId(k) ==> KeyText(k) == k
    ensures !IsPlainId(k) ==> var t := KeyText(k);
      |t| >= 2 && t[0] == '⟨' && t[|t| - 1] == '⟩' && !IsPlainId(t)
    ensures |KeyText(k)| >= |k|
  {
    if !IsPlainId(k) {
      assert !IsIdChar(KeyText(k)[0]);
    }
  }

  /** A printed key holds ':' exactly when the key does. */
  lemma KeyTextColon(k: string)
    ensures ':' in KeyText(k) <==> ':' in k
  {
  }

  /** `Thing::to_string()`: "table:key", with the key printed by `KeyText`. */
  function ThingString(r: Ref): string {
    r.table + ":" + KeyText(r.local)
  }

  /** `⟨key⟩` with a non-empty key holding no closing bracket and no escape. */
  predicate IsBracketedKey(t: string) {
    |t| >= 3 && t[0] == '⟨' && t[|t| - 1] == '⟩' && '⟩' !in t[1..|t| - 1] && '\\' !in t[1..|t| - 1]
  }

  /** A key the parser reads: a plain identifier as itself, or a non-empty bracketed key with
      no escapes in it. */
  function ParseKey(t: string): (r: Option<string>)
    ensures IsPlainId(t) ==> r == Some(t)
    ensures r.Some? && !IsPlainId(t) ==> t == ['⟨'] + r.value + ['⟩']
    ensures r.Some? ==> |r.value| > 0 && '⟩' !in r.value && '\\' !in r.value
    ensures r.Some? <==> IsPlainId(t) || IsBracketedKey(t)
  {
    if IsPlainId(t) then
      assert forall i :: 0 <= i < |t| ==> IsIdChar(t[i]) && t[i] != '⟩' && t[i] != '\\';
      Some(t)
    else if IsBracketedKey(t) then
      assert t == [t[0]] + t[1..|t| - 1] + [t[|t| - 1]];
      Some(t[1..|t| - 1])
    else None
  }

  /** A key the form can carry through a round trip: printable and parseable again, and
      free of ':' so its trailing segment is the whole key text. */
  predicate IsFormKey(k: string) {
    |k| > 0 && ':' !in k && '⟩' !in k && '\\' !in k
  }

  /** Printing a key and parsing it back gives the key. */
  lemma KeyRoundTrip(k: string)
    requires |k| > 0 && '⟩' !in k && '\\' !in k
    ensures ParseKey(KeyText(k)) == Some(k)
  {
    if !IsPlainId(k) {
      var t := KeyText(k);
      assert t == ['⟨'] + k + ['⟩'];
      assert t[1..|t| - 1] == k;
    }
  }

  /** Text written the way surrealdb prints the key it parses to; text that does not parse
      qualifies trivially. */
  predicate IsPrintedKey(t: string) {
    ParseKey(t).Some? ==> KeyText(ParseKey(t).value) == t
  }

  /** Every printed key is written as printed. */
  lemma KeyTextIsPrinted(k: string)
    requires |k| > 0 && '⟩' !in k && '\\' !in k
    ensures IsPrintedKey(KeyText(k))
  {
    KeyRoundTrip(k);
  }

  /** The only parseable texts not written as printed are plain identifiers in brackets. */
  lemma PrintedKeyShape(t: string)
    requires ParseKey(t).Some?
    ensures !IsPrintedKey(t) <==> IsBracketedKey(t) && IsPlainId(ParseKey(t).value)
  {
  }

  /** `thing.to_string().split(':').last()`: the trailing id the group views compare. */
  function TrailingId(r: Ref): string {
    TrailingSegment(ThingString(r))
  }

  /** For a local key without ':' the trailing id is the printed key, whatever the table. */
  lemma TrailingIdOfPlainLocal(r: Ref)
    requires ':' !in r.local
    ensures TrailingId(r) == KeyText(r.local)
    ensures IsPlainId(r.local) ==> TrailingId(r) == r.local
  {
    KeyTextColon(r.local);
    TrailingSegmentAfterColon(r.table, KeyText(r.local));
  }

  datatype UserType =
    | Student
    | UnbaptizedPublisher
    | BaptizedPublisher
    | RegularPioneer
    | SpecialPioneer
    | ContinuousAuxiliaryPioneer

  datatype Appointment = Elder | MinisterialServant

  datatype NameOrder = FirstnameLastname | LastnameFirstname

  datatype FirstWeekday = Sunday | Monday

  datatype Weekday = Mon | Tue | Wed | Thu | Fri | Sat | Sun

  /** chrono's `Debug` rendering of a weekday, which the day selects use as option values. */
  function DayAbbrev(d: Weekday): string {
    match d
    case Mon => "Mon"
    case Tue => "Tue"
    case Wed => "Wed"
    case Thu => "Thu"
    case Fri => "Fri"
    case Sat => "Sat"
    case Sun => "Sun"
  }

  /** Reads an abbreviation back; `None` for anything else. */
  function ParseDay(value: string): (r: Option<Weekday>)
    ensures r.None? ==> forall d :: DayAbbrev(d) != value
    ensures r.Some? ==> DayAbbrev(r.value) == value
  {
    match value
    case "Mon" => Some(Mon)
    case "Tue" => Some(Tue)
    case "Wed" => Some(Wed)
    case "Thu" => Some(Thu)
    case "Fri" => Some(Fri)
    case "Sat" => Some(Sat)
    case "Sun" => Some(Sun)
    case _ => None
  }

  /** chrono's `NaiveTime` at whole-second precision. */
  datatype Time = Time(hour: nat, minute: nat, second: nat)

  datatype MeetingTime = MeetingTime(day: Weekday, time: Time)

  datatype Congregation = Congregation(
    id: Ref,
    name: string,
    jwCode: Option<string>,
    nameOrder: NameOrder,
    firstWeekday: FirstWeekday,
    weekdayMeeting: MeetingTime,
    weekendMeeting: MeetingTime)

  datatype EmergencyContact = EmergencyContact(
    firstname: string,
    lastname: Option<string>,
    email: Option<string>,
    phone: Option<string>,
    address: Option<string>,
    notes: Option<string>)

  datatype User = User(
    id: Option<Ref>,
    firstname: string,
    lastname: string,
    gender: bool,
    familyHead: bool,
    email: Option<string>,
    password: Option<string>,
    birthday: Option<Date>,
    phone: Option<string>,
    address: Option<string>,
    city: Option<string>,
    country: Option<string>,
    zipcode: Option<string>,
    baptismDate: Option<Date>,
    anointed: Option<bool>,
    publisherType: Option<UserType>,
    appointment: Option<Appointment>,
    preachingGroup: Option<Ref>,
    emergencyContacts: seq<EmergencyContact>)

  datatype Group = Group(
    id: Option<Ref>,
    name: string,
    supervisor: Option<Ref>,
    auxiliary: Option<Ref>,
    members: seq<Ref>)

  datatype Commitment = Fifteen | Thirty

  datatype Report = Report(
    id: Option<Ref>,
    date: Date,
    publisher: Option<Ref>,
    preached: bool,
    hours: Option<int>,
    credits: Option<int>,
    commitment: Option<Commitment>,
    notes: Option<string>)

  /** The three pioneer classifications. */
  predicate IsPioneer(t: Option<UserType>) {
    t == Some(RegularPioneer) || t == Some(SpecialPioneer) || t == Some(ContinuousAuxiliaryPioneer)
  }

  /** `format!("{} {}", first, last)`: the plain full name used for search. */
  function FullName(u: User): string {
    u.firstname + " " + u.lastname
  }

  /** The display name under the congregation's name order; "first last" when none is loaded. */
  function DisplayName(u: User, order: Option<NameOrder>): (r: string)
    ensures order == Some(LastnameFirstname) ==> r == u.lastname + ", " + u.firstname
    ensures order != Some(LastnameFirstname) ==> r == FullName(u)
  {
    match order
    case Some(LastnameFirstname) => u.lastname + ", " + u.firstname
    case _ => FullName(u)
  }

  /** The name order of the loaded congregation, if any. */
  function OrderOf(c: Option<Congregation>): Option<NameOrder> {
    match c
    case Some(cong) => Some(cong.nameOrder)
    case None => None
  }

  /** The user has an id, and the text after its last ':' is `key`. */
  predicate HasTrailingId(u: User, key: string) {
    u.id.Some? && TrailingId(u.id.value) == key
  }

  /** `users[i]` is the first user whose trailing id is `key`. */
  predicate FirstMatchAt(users: seq<User>, key: string, i: int) {
    0 <= i < |users| && HasTrailingId(users[i], key) && forall j :: 0 <= j < i ==> !HasTrailingId(users[j], key)
  }

  lemma FirstMatchUnique(users: seq<User>, key: string, i: int, k: int)
    requires FirstMatchAt(users, key, i) && FirstMatchAt(users, key, k)
    ensures i == k
  {
  }

  /** The first user whose trailing id equals `key` (the views' `iter().find`). */
  function FindByTrailingId(users: seq<User>, key: string): (r: Option<User>)
    ensures r.Some? ==> exists i :: FirstMatchAt(users, key, i) && users[i] == r.value
    ensures r.None? <==> forall u :: u in users ==> !HasTrailingId(u, key)
  {
    if |users| == 0 then None
    else if HasTrailingId(users[0], key) then
      assert FirstMatchAt(users, key, 0);
      Some(users[0])
    else
      var r := FindByTrailingId(users[1..], key);
      assert r.Some? ==> exists i :: FirstMatchAt(users, key, i) && users[i] == r.value by {
        if r.Some? {
          var i :| FirstMatchAt(users[1..], key, i) && users[1..][i] == r.value;
          forall j | 0 <= j < i + 1 ensures !HasTrailingId(users[j], key) {
            if j > 0 { assert users[j] == users[1..][j - 1]; }
          }
          assert FirstMatchAt(users, key, i + 1);
        }
      }
      r
  }
}
