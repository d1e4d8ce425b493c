/**
 * The congregation settings page: the form loaded from the stored congregation, the meeting
 * times as `%H:%M` text, the save that rebuilds the record with fallback times, and the
 * tables the danger zone wipes and exports.
 */
module CongregationSettings {
  import opened Common
  import opened Text
  import opened Numbers
  import opened Records
  import opened Seqs

  // ---------------------------------------------------------------- time of day as text

  /** A time chrono can hold. */
  predicate TimeOfDay(t: Time) {
    t.hour < 24 && t.minute < 60 && t.second < 60
  }

  /** `time.format("%H:%M")`: two-digit hour and minute; the seconds are not shown. */
  function FormatHM(t: Time): (s: string)
    requires TimeOfDay(t)
    ensures |s| == 5 && s[2] == ':'
    ensures AllDigits(s[..2]) && Value(s[..2]) == t.hour
    ensures AllDigits(s[3..]) && Value(s[3..]) == t.minute
  {
    var s := Pad2(t.hour) + ":" + Pad2(t.minute);
    assert s[..2] == Pad2(t.hour) && s[3..] == Pad2(t.minute);
    s
  }

  /** The length of the run of ASCII digits that starts `s`, read greedily up to two (chrono
      reads `%H` and `%M` as one or two digits). */
  function DigitRun(s: string): (k: nat)
    ensures k <= 2 && k <= |s| && AllDigits(s[..k])
    ensures k < 2 && k < |s| ==> !IsAsciiDigit(s[k])
  {
    if |s| == 0 || !IsAsciiDigit(s[0]) then 0
    else if |s| == 1 || !IsAsciiDigit(s[1]) then 1
    else 2
  }

  /** `s` is `k` digits of hour, ':', and digits of minute that denote `t`. */
  predicate HMAt(s: string, k: int, t: Time) {
    1 <= k <= 2 && k < |s| && s[k] == ':' && AllDigits(s[..k]) && AllDigits(s[k + 1..])
    && Value(s[..k]) == t.hour && Value(s[k + 1..]) == t.minute
  }

  /** `NaiveTime::parse_from_str(s, "%H:%M")`: one or two digits of hour, ':', one or two digits
      of minute and nothing after them; the hour below 24 and the minute below 60. */
  function ParseHM(s: string): (r: Option<Time>)
    ensures r.Some? ==> TimeOfDay(r.value) && r.value.second == 0
    ensures r.Some? ==> exists k :: HMAt(s, k, r.value)
  {
    var k := DigitRun(s);
    if k == 0 || k == |s| || s[k] != ':' then None
    else
      var rest := s[k + 1..];
      if DigitRun(rest) == 0 || DigitRun(rest) != |rest| then None
      else
        assert rest[..|rest|] == rest;
        var hour := Value(s[..k]);
        var minute := Value(rest);
        if hour < 24 && minute < 60 then
          assert HMAt(s, k, Time(hour, minute, 0));
          Some(Time(hour, minute, 0))
        else None
  }

  /** Conversely, every text of that shape naming a time of day is read. */
  lemma ParseHMAccepts(s: string, k: int, t: Time)
    requires HMAt(s, k, t) && 1 <= |s| - k - 1 <= 2
    requires t.hour < 24 && t.minute < 60
    ensures ParseHM(s) == Some(Time(t.hour, t.minute, 0))
  {
    assert DigitRun(s) == k by {
      assert forall i :: 0 <= i < k ==> s[..k][i] == s[i];
    }
    var rest := s[k + 1..];
    assert DigitRun(rest) == |rest| by {
      assert rest[..|rest|] == rest;
    }
  }

  /** Reading back what the page shows gives the time again, the seconds set to zero. */
  lemma FormatHMRoundTrip(t: Time)
    requires TimeOfDay(t)
    ensures ParseHM(FormatHM(t)) == Some(Time(t.hour, t.minute, 0))
  {
    var s := FormatHM(t);
    assert DigitRun(s) == 2;
    var rest := s[3..];
    assert DigitRun(rest) == 2;
  }

  // ---------------------------------------------------------------- the selects

  /** Name order select: "LastnameFirstname", anything else first name first. */
  function NameOrderOf(value: string): (o: NameOrder)
    ensures o == LastnameFirstname <==> value == "LastnameFirstname"
  {
    if value == "LastnameFirstname" then LastnameFirstname else FirstnameLastname
  }

  function NameOrderValue(o: NameOrder): string {
    match o
    case FirstnameLastname => "FirstnameLastname"
    case LastnameFirstname => "LastnameFirstname"
  }

  /** First weekday select: "Monday", anything else Sunday. */
  function FirstWeekdayOf(value: string): (d: FirstWeekday)
    ensures d == Monday <==> value == "Monday"
  {
    if value == "Monday" then Monday else Sunday
  }

  function FirstWeekdayValue(d: FirstWeekday): string {
    match d
    case Sunday => "Sunday"
    case Monday => "Monday"
  }

  /** The weekday meeting's day select: every day is offered, an unknown value is Thursday. */
  function WeekdayMeetingDayOf(value: string): (d: Weekday)
    ensures ParseDay(value).None? ==> d == Thu
    ensures ParseDay(value).Some? ==> DayAbbrev(d) == value
  {
    ParseDay(value).GetOr(Thu)
  }

  /** The weekend meeting's day select: every day is offered, an unknown value is Sunday. */
  function WeekendMeetingDayOf(value: string): (d: Weekday)
    ensures ParseDay(value).None? ==> d == Sun
    ensures ParseDay(value).Some? ==> DayAbbrev(d) == value
  {
    ParseDay(value).GetOr(Sun)
  }

  /** Every select gives back the value its option shows. */
  lemma SelectsRoundTrip(o: NameOrder, f: FirstWeekday, d: Weekday)
    ensures NameOrderOf(NameOrderValue(o)) == o
    ensures FirstWeekdayOf(FirstWeekdayValue(f)) == f
    ensures WeekdayMeetingDayOf(DayAbbrev(d)) == d && WeekendMeetingDayOf(DayAbbrev(d)) == d
  {
  }

  // ---------------------------------------------------------------- the form

  datatype SettingsForm = SettingsForm(
    name: string,
    jwCode: string,
    nameOrder: NameOrder,
    firstWeekday: FirstWeekday,
    weekdayDay: Weekday,
    weekdayTime: string,
    weekendDay: Weekday,
    weekendTime: string)

  /** The form before the congregation has loaded. */
  const INITIAL_FORM := SettingsForm("", "", FirstnameLastname, Sunday, Thu, "19:00", Sun, "10:00")

  /** The times a save falls back to when the text does not read as a time. */
  const WEEKDAY_FALLBACK := Time(19, 0, 0)
  const WEEKEND_FALLBACK := Time(10, 0, 0)

  /** Filling the form from the stored congregation: the code shown empty when absent, the times
      as `%H:%M`. */
  function LoadSettings(c: Congregation): (f: SettingsForm)
    requires TimeOfDay(c.weekdayMeeting.time) && TimeOfDay(c.weekendMeeting.time)
    ensures f.name == c.name && f.nameOrder == c.nameOrder && f.firstWeekday == c.firstWeekday
    ensures c.jwCode.None? ==> f.jwCode == []
    ensures c.jwCode.Some? ==> f.jwCode == c.jwCode.value
    ensures f.weekdayDay == c.weekdayMeeting.day && f.weekendDay == c.weekendMeeting.day
    ensures ParseHM(f.weekdayTime) == Some(Time(c.weekdayMeeting.time.hour, c.weekdayMeeting.time.minute, 0))
    ensures ParseHM(f.weekendTime) == Some(Time(c.weekendMeeting.time.hour, c.weekendMeeting.time.minute, 0))
  {
    FormatHMRoundTrip(c.weekdayMeeting.time);
    FormatHMRoundTrip(c.weekendMeeting.time);
    SettingsForm(c.name, c.jwCode.GetOr(""), c.nameOrder, c.firstWeekday,
      c.weekdayMeeting.day, FormatHM(c.weekdayMeeting.time),
      c.weekendMeeting.day, FormatHM(c.weekendMeeting.time))
  }

  /** `handle_save`: nothing when no congregation has loaded; otherwise the stored record's id
      with the trimmed name, the trimmed code or none, the chosen settings, and each time as
      read or its fallback. */
  function Save(loaded: Option<Congregation>, f: SettingsForm): (r: Option<Congregation>)
    ensures r.Some? <==> loaded.Some?
    ensures r.Some? ==> r.value.id == loaded.value.id && r.value.name == Trim(f.name)
    ensures r.Some? ==> r.value.jwCode == TrimmedOrNone(f.jwCode)
    ensures r.Some? ==> r.value.nameOrder == f.nameOrder && r.value.firstWeekday == f.firstWeekday
    ensures r.Some? ==> r.value.weekdayMeeting.day == f.weekdayDay && r.value.weekendMeeting.day == f.weekendDay
    ensures r.Some? ==> r.value.weekdayMeeting.time == ParseHM(f.weekdayTime).GetOr(WEEKDAY_FALLBACK)
    ensures r.Some? ==> r.value.weekendMeeting.time == ParseHM(f.weekendTime).GetOr(WEEKEND_FALLBACK)
  {
    match loaded
    case None => None
    case Some(c) =>
      Some(Congregation(c.id, Trim(f.name), TrimmedOrNone(f.jwCode), f.nameOrder, f.firstWeekday,
        MeetingTime(f.weekdayDay, ParseHM(f.weekdayTime).GetOr(WEEKDAY_FALLBACK)),
        MeetingTime(f.weekendDay, ParseHM(f.weekendTime).GetOr(WEEKEND_FALLBACK))))
  }

  /** A record the page writes: name trimmed, code trimmed and not blank, times of day at
      whole minutes. */
  predicate Normalised(c: Congregation) {
    Trim(c.name) == c.name && TrimmedOrNone(c.jwCode.GetOr("")) == c.jwCode
    && TimeOfDay(c.weekdayMeeting.time) && TimeOfDay(c.weekendMeeting.time)
  }

  /** The congregation with its meetings' seconds dropped, as `%H:%M` shows it. */
  function AtWholeMinutes(c: Congregation): (d: Congregation)
    ensures d.weekdayMeeting.time.second == 0 && d.weekendMeeting.time.second == 0
    ensures d.(weekdayMeeting := c.weekdayMeeting, weekendMeeting := c.weekendMeeting) == c
  {
    var wd := c.weekdayMeeting.time;
    var we := c.weekendMeeting.time;
    c.(weekdayMeeting := c.weekdayMeeting.(time := Time(wd.hour, wd.minute, 0)),
       weekendMeeting := c.weekendMeeting.(time := Time(we.hour, we.minute, 0)))
  }

  /** Saving the form as loaded keeps a normalised congregation, except that the seconds of its
      meeting times are lost. */
  lemma SaveAfterLoad(c: Congregation)
    requires Normalised(c)
    ensures Save(Some(c), LoadSettings(c)) == Some(AtWholeMinutes(c))
  {
  }

  /** Whatever the form holds, the page writes a normalised record at whole minutes. */
  lemma SavedIsNormalised(c: Congregation, f: SettingsForm)
    ensures Normalised(Save(Some(c), f).value)
    ensures AtWholeMinutes(Save(Some(c), f).value) == Save(Some(c), f).value
  {
    TrimIdempotent(f.name);
    TrimmedOrNoneIdempotent(f.jwCode);
  }

  /** Saving, reloading and saving again writes the same record. */
  lemma SaveIsStable(c: Congregation, f: SettingsForm)
    ensures var saved := Save(Some(c), f).value;
      Save(Some(saved), LoadSettings(saved)) == Some(saved)
  {
    SavedIsNormalised(c, f);
    SaveAfterLoad(Save(Some(c), f).value);
  }

  // ---------------------------------------------------------------- danger zone

  /** The tables "Delete all data" empties, in its order. */
  const DELETED_TABLES := ["user", "congregation", "role", "field_service_group", "field_service_meeting",
    "field_service_report", "meeting_attendance", "absence", "special_event", "privilege"]

  /** The tables the export writes, in its order. */
  const EXPORTED_TABLES := ["congregation", "user", "role", "field_service_group", "field_service_meeting",
    "field_service_report", "meeting_attendance", "absence", "special_event", "privilege"]

  /** The backup holds every table the deletion empties, each once. */
  lemma ExportCoversDeletion()
    ensures NoDuplicates(DELETED_TABLES) && NoDuplicates(EXPORTED_TABLES)
    ensures forall t :: t in DELETED_TABLES <==> t in EXPORTED_TABLES
  {
  }
}
