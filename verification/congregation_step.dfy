/**
 * The onboarding step that sets up the congregation: the form's defaults, the selects'
 * decoders, the meeting-time checks and the congregation record the step hands on.
 */
module CongregationStep {
  import opened Common
  import opened Text
  import opened Numbers
  import opened Records

  /** The step's inputs: text for name, code, hours and minutes, decoded values for the
      selects. */
  datatype StepForm = StepForm(
    name: string,
    jwCode: string,
    nameOrder: NameOrder,
    firstWeekday: FirstWeekday,
    weekdayDay: Weekday,
    weekdayHour: string,
    weekdayMinute: string,
    weekendDay: Weekday,
    weekendHour: string,
    weekendMinute: string)

  /** The form as it opens. */
  const DEFAULT_FORM := StepForm("", "", FirstnameLastname, Sunday, Mon, "19", "00", Sat, "10", "00")

  // ---------------------------------------------------------------- the selects

  /** Name order select: "lastname" is last name first, anything else first name first. */
  function NameOrderOf(value: string): (o: NameOrder)
    ensures o == LastnameFirstname <==> value == "lastname"
  {
    if value == "lastname" then LastnameFirstname else FirstnameLastname
  }

  function NameOrderValue(o: NameOrder): string {
    match o
    case FirstnameLastname => "firstname"
    case LastnameFirstname => "lastname"
  }

  /** First weekday select: "monday" is Monday, anything else Sunday. */
  function FirstWeekdayOf(value: string): (d: FirstWeekday)
    ensures d == Monday <==> value == "monday"
  {
    if value == "monday" then Monday else Sunday
  }

  function FirstWeekdayValue(d: FirstWeekday): string {
    match d
    case Sunday => "sunday"
    case Monday => "monday"
  }

  /** The weekday-meeting day select offers Monday to Friday; anything else is Monday. */
  function WeekdayMeetingDayOf(value: string): (d: Weekday)
    ensures d in {Mon, Tue, Wed, Thu, Fri}
    ensures value !in {"Mon", "Tue", "Wed", "Thu", "Fri"} ==> d == Mon
  {
    match value
    case "Mon" => Mon
    case "Tue" => Tue
    case "Wed" => Wed
    case "Thu" => Thu
    case "Fri" => Fri
    case _ => Mon
  }

  /** The weekend-meeting day select offers Saturday and Sunday; anything else is Saturday. */
  function WeekendMeetingDayOf(value: string): (d: Weekday)
    ensures d == Sat || d == Sun
    ensures value != "Sun" ==> d == Sat
  {
    if value == "Sun" then Sun else Sat
  }

  /** Each select gives back the value its option shows. */
  lemma SelectsRoundTrip(o: NameOrder, f: FirstWeekday, d: Weekday)
    ensures NameOrderOf(NameOrderValue(o)) == o
    ensures FirstWeekdayOf(FirstWeekdayValue(f)) == f
    ensures d in {Mon, Tue, Wed, Thu, Fri} ==> WeekdayMeetingDayOf(DayAbbrev(d)) == d
    ensures d in {Sat, Sun} ==> WeekendMeetingDayOf(DayAbbrev(d)) == d
  {
  }

  // ---------------------------------------------------------------- meeting times

  /** chrono's `NaiveTime::from_hms_opt` (no leap seconds). */
  function FromHms(h: int, m: int, s: int): (r: Option<Time>)
    ensures r.Some? <==> 0 <= h < 24 && 0 <= m < 60 && 0 <= s < 60
    ensures r.Some? ==> r.value == Time(h, m, s)
  {
    if 0 <= h < 24 && 0 <= m < 60 && 0 <= s < 60 then Some(Time(h, m, s)) else None
  }

  /** Hour and minute both read as `u32` and name a time of day. */
  predicate TimeFits(hour: string, minute: string) {
    ParseU32(hour).Some? && ParseU32(minute).Some? && ParseU32(hour).value < 24 && ParseU32(minute).value < 60
  }

  /** The message for a meeting time that does not read as a time of day. */
  function FormatError(which: string): string {
    "Invalid " + which + " meeting time format"
  }

  /** One meeting: hour and minute must parse as `u32` and be below 24 and 60; `which` names
      the meeting in the messages. */
  function Meeting(day: Weekday, hour: string, minute: string, which: string): (r: Result<MeetingTime>)
    ensures r.Ok? <==> TimeFits(hour, minute)
    ensures r.Ok? ==> r.value.day == day && r.value.time.second == 0
    ensures r.Ok? ==> Some(r.value.time.hour) == ParseU32(hour) && Some(r.value.time.minute) == ParseU32(minute)
    ensures r.Err? ==> r.message == FormatError(which)
  {
    match (ParseU32(hour), ParseU32(minute))
    case (Some(h), Some(m)) =>
      if h < 24 && m < 60 then
        match FromHms(h, m, 0)
        case Some(t) => Ok(MeetingTime(day, t))
        case None => Err("Invalid " + which + " meeting time")
      else Err(FormatError(which))
    case _ => Err(FormatError(which))
  }

  const NAME_REQUIRED := "Congregation name is required"
  const TEMP_ID := Ref("congregation", "temp")

  /** Both meetings, the weekday one checked first. */
  function Meetings(f: StepForm): (r: Result<(MeetingTime, MeetingTime)>)
    ensures !TimeFits(f.weekdayHour, f.weekdayMinute) ==> r == Err(FormatError("weekday"))
    ensures TimeFits(f.weekdayHour, f.weekdayMinute) && !TimeFits(f.weekendHour, f.weekendMinute) ==>
              r == Err(FormatError("weekend"))
    ensures r.Ok? <==> TimeFits(f.weekdayHour, f.weekdayMinute) && TimeFits(f.weekendHour, f.weekendMinute)
    ensures r.Ok? ==> r.value.0.day == f.weekdayDay && r.value.1.day == f.weekendDay
    ensures r.Ok? ==> Meeting(f.weekdayDay, f.weekdayHour, f.weekdayMinute, "weekday") == Ok(r.value.0)
    ensures r.Ok? ==> Meeting(f.weekendDay, f.weekendHour, f.weekendMinute, "weekend") == Ok(r.value.1)
  {
    var weekday := Meeting(f.weekdayDay, f.weekdayHour, f.weekdayMinute, "weekday");
    var weekend := Meeting(f.weekendDay, f.weekendHour, f.weekendMinute, "weekend");
    if weekday.Err? then Err(weekday.message)
    else if weekend.Err? then Err(weekend.message)
    else Ok((weekday.value, weekend.value))
  }

  /** `handle_submit`: a blank name is refused first, then the meetings' times; otherwise the
      congregation with trimmed name, optional trimmed code and the chosen settings. */
  function Submit(f: StepForm): (r: Result<Congregation>)
    ensures IsBlank(f.name) ==> r == Err(NAME_REQUIRED)
    ensures !IsBlank(f.name) && Meetings(f).Err? ==> r == Err(Meetings(f).message)
    ensures r.Ok? <==> !IsBlank(f.name) && TimeFits(f.weekdayHour, f.weekdayMinute) && TimeFits(f.weekendHour, f.weekendMinute)
    ensures r.Ok? ==> r.value.id == TEMP_ID && r.value.name == Trim(f.name) && r.value.jwCode == TrimmedOrNone(f.jwCode)
    ensures r.Ok? ==> r.value.nameOrder == f.nameOrder && r.value.firstWeekday == f.firstWeekday
    ensures r.Ok? ==> r.value.weekdayMeeting == Meetings(f).value.0 && r.value.weekendMeeting == Meetings(f).value.1
  {
    if IsBlank(f.name) then Err(NAME_REQUIRED)
    else
      match Meetings(f)
      case Err(e) => Err(e)
      case Ok((weekday, weekend)) =>
        Ok(Congregation(TEMP_ID, Trim(f.name), TrimmedOrNone(f.jwCode), f.nameOrder, f.firstWeekday, weekday, weekend))
  }

  /** Filling in only the name is enough: the defaults give a Monday meeting at 19:00 and a
      Saturday meeting at 10:00. */
  lemma DefaultsAccepted(name: string)
    requires !IsBlank(name)
    ensures var r := Submit(DEFAULT_FORM.(name := name));
      r.Ok? && r.value.weekdayMeeting == MeetingTime(Mon, Time(19, 0, 0))
      && r.value.weekendMeeting == MeetingTime(Sat, Time(10, 0, 0))
      && r.value.nameOrder == FirstnameLastname && r.value.firstWeekday == Sunday
  {
    var f := DEFAULT_FORM.(name := name);
    DefaultTimesParse();
    MeetingAt(Mon, "19", "00", "weekday", 19, 0);
    MeetingAt(Sat, "10", "00", "weekend", 10, 0);
    assert Meetings(f) == Ok((MeetingTime(Mon, Time(19, 0, 0)), MeetingTime(Sat, Time(10, 0, 0))));
  }

  /** The default hour and minute texts read as 19, 10 and 0. */
  lemma DefaultTimesParse()
    ensures ParseU32("19") == Some(19) && ParseU32("10") == Some(10) && ParseU32("00") == Some(0)
  {
    ParseIntToDecimal(19, 0, U32_MAX, false);
    ParseIntToDecimal(10, 0, U32_MAX, false);
    assert ParseU32("00") == Some(0) by {
      assert "00"[1..] == "0";
      assert Value("00") == 10 * Value("0") + 0 by { assert "00"[..1] == "0"; }
    }
    assert NatToDecimal(19) == "19" && NatToDecimal(10) == "10";
  }

  /** Texts that read as a time of day give the meeting at that time. */
  lemma MeetingAt(day: Weekday, hour: string, minute: string, which: string, h: int, m: int)
    requires ParseU32(hour) == Some(h) && ParseU32(minute) == Some(m) && 0 <= h < 24 && 0 <= m < 60
    ensures Meeting(day, hour, minute, which) == Ok(MeetingTime(day, Time(h, m, 0)))
  {
  }
}
