/**
 * One publisher's reports page: which reports belong to the publisher, their newest-first
 * order and pages of ten, the month heading, the report form (month and year pickers,
 * commitment select, hours / credits / notes text) and the report a save writes, including
 * the derived `preached` flag.
 *
 * The page's publisher id is the text after "field_service_reports/" in the route. The loaded
 * publisher (or its absence) and the editing report are parameters; the store calls are not
 * modelled.
 */
module PublisherReports {
  import opened Common
  import opened Text
  import opened Numbers
  import opened Dates
  import opened Records
  import opened Seqs
  import opened Paging

  // ---------------------------------------------------------------- which reports

  /** `pub_ref.id.to_string()`, the publisher's printed key, is `publisherId` or ends in ":"
      followed by it. */
  predicate BelongsTo(r: Report, publisherId: string) {
    r.publisher.Some? &&
    (KeyText(r.publisher.value.local) == publisherId || EndsWith(KeyText(r.publisher.value.local), ":" + publisherId))
  }

  /** The reports of the publisher, in load order. */
  function ReportsOf(all: seq<Report>, publisherId: string): (r: seq<Report>)
    ensures forall x :: x in r <==> x in all && BelongsTo(x, publisherId)
    ensures forall x :: multiset(r)[x] == if BelongsTo(x, publisherId) then multiset(all)[x] else 0
  {
    Filter(all, (x: Report) => BelongsTo(x, publisherId))
  }

  /** For local keys without ':' the suffix test adds nothing: a report belongs to the publisher
      exactly when its publisher's printed key is the page's id, the test the reports overview
      uses for its totals. */
  lemma BelongsToPlainLocal(r: Report, publisherId: string)
    requires r.publisher.Some? && ':' !in r.publisher.value.local
    ensures BelongsTo(r, publisherId) <==> KeyText(r.publisher.value.local) == publisherId
  {
    var key, tail := KeyText(r.publisher.value.local), ":" + publisherId;
    KeyTextColon(r.publisher.value.local);
    if |tail| <= |key| {
      assert key[|key| - |tail|..][0] == key[|key| - |tail|];
    }
  }

  /** For a page id that is a plain identifier the suffix test never fires either, whatever the
      publisher's key: the report belongs exactly when its publisher's key is that id. */
  lemma BelongsToPlainId(r: Report, publisherId: string)
    requires r.publisher.Some? && IsPlainId(publisherId)
    ensures BelongsTo(r, publisherId) <==> r.publisher.value.local == publisherId
  {
    var local := r.publisher.value.local;
    var key, tail := KeyText(local), ":" + publisherId;
    KeyTextShape(local);
    if IsPlainId(local) {
      BelongsToPlainLocal(r, publisherId);
    } else {
      assert key[0] == '⟨' && !IsIdChar(key[0]);
      assert key != publisherId;
      if EndsWith(key, tail) {
        assert false;
      }
      assert local != publisherId;
    }
  }

  // ---------------------------------------------------------------- order and pages

  predicate NewerOrSame(a: Report, b: Report) {
    Le(b.date, a.date)
  }

  /** `sort_by(|a, b| b.date.cmp(&a.date))`: the same reports, most recent first. */
  function NewestFirst(rs: seq<Report>): (r: seq<Report>)
    ensures multiset(r) == multiset(rs)
    ensures forall i, j :: 0 <= i < j < |r| ==> Le(r[j].date, r[i].date)
  {
    assert TotalOn(rs, NewerOrSame) by {
      forall i, j | 0 <= i < |rs| && 0 <= j < |rs| ensures NewerOrSame(rs[i], rs[j]) || NewerOrSame(rs[j], rs[i]) {
        LeTotal(rs[i].date, rs[j].date);
      }
    }
    var r := SortBy(rs, NewerOrSame);
    SortedDescending(r);
    r
  }

  /** Adjacent order extends to any two positions, dates being ordered transitively. */
  lemma {:induction false} SortedDescending(r: seq<Report>)
    requires SortedBy(r, NewerOrSame)
    ensures forall i, j :: 0 <= i < j < |r| ==> Le(r[j].date, r[i].date)
  {
    if |r| > 1 {
      var init := r[..|r| - 1];
      assert SortedBy(init, NewerOrSame);
      SortedDescending(init);
      forall i, j | 0 <= i < j < |r| ensures Le(r[j].date, r[i].date) {
        if j < |r| - 1 {
          assert r[i] == init[i] && r[j] == init[j];
        } else if i < j - 1 {
          assert r[i] == init[i] && r[j - 1] == init[j - 1];
          assert Le(r[j - 1].date, r[i].date);
        }
      }
    }
  }

  /** The newest report comes first. */
  lemma NewestComesFirst(rs: seq<Report>, x: Report)
    requires x in rs
    ensures Le(x.date, NewestFirst(rs)[0].date)
  {
    var r := NewestFirst(rs);
    assert x in multiset(rs);
    assert x in r;
    var k :| 0 <= k < |r| && r[k] == x;
    if k > 0 {
      assert Le(r[k].date, r[0].date);
    }
  }

  const PER_PAGE: nat := 10

  /** The reports on page `page`. */
  function ShownReports(sorted: seq<Report>, page: nat): (r: seq<Report>)
    ensures |r| == PageLength(|sorted|, page, PER_PAGE)
    ensures |r| <= PER_PAGE
    ensures forall i :: 0 <= i < |r| ==> page * PER_PAGE + i < |sorted| && r[i] == sorted[page * PER_PAGE + i]
  {
    Page(sorted, page, PER_PAGE)
  }

  /** Paging through the reports shows each once, in order. */
  lemma PagesShowEveryReport(sorted: seq<Report>)
    ensures PagesFrom(sorted, 0, PER_PAGE) == sorted
  {
    PagesCoverList(sorted, PER_PAGE);
  }

  // ---------------------------------------------------------------- the month heading

  /** English month names; "" outside 1..12. */
  function MonthName(m: int): (r: string)
    ensures 1 <= m <= 12 <==> |r| > 0
    ensures ' ' !in r
  {
    match m
    case 1 => "January"
    case 2 => "February"
    case 3 => "March"
    case 4 => "April"
    case 5 => "May"
    case 6 => "June"
    case 7 => "July"
    case 8 => "August"
    case 9 => "September"
    case 10 => "October"
    case 11 => "November"
    case 12 => "December"
    case _ => ""
  }

  /** The month a name denotes, the inverse of `MonthName`. */
  function MonthNumber(name: string): (m: Option<int>)
    ensures m.Some? ==> 1 <= m.value <= 12 && MonthName(m.value) == name
  {
    match name
    case "January" => Some(1)
    case "February" => Some(2)
    case "March" => Some(3)
    case "April" => Some(4)
    case "May" => Some(5)
    case "June" => Some(6)
    case "July" => Some(7)
    case "August" => Some(8)
    case "September" => Some(9)
    case "October" => Some(10)
    case "November" => Some(11)
    case "December" => Some(12)
    case _ => None
  }

  lemma MonthNumberOfName(m: int)
    requires 1 <= m <= 12
    ensures MonthNumber(MonthName(m)) == Some(m)
  {
  }

  /** `format_month_year`: "<Month> <year>". */
  function FormatMonthYear(d: Date): (r: string)
    requires Valid(d)
    ensures StartsWith(r, MonthName(d.month) + " ")
  {
    MonthName(d.month) + " " + IntToDecimal(d.year)
  }

  /** Position of the first ' ' (the length when there is none). */
  function FirstSpace(s: string): (k: nat)
    ensures k <= |s|
    ensures k < |s| ==> s[k] == ' '
    ensures forall i :: 0 <= i < k ==> s[i] != ' '
  {
    if |s| == 0 then 0
    else if s[0] == ' ' then 0
    else
      var k := FirstSpace(s[1..]);
      assert forall i :: 1 <= i < 1 + k ==> s[i] == s[1..][i - 1];
      1 + k
  }

  /** Reads a heading back: the month name before the first space, the year after it. */
  function ParseMonthYear(s: string): (r: Option<(int, int)>)
    ensures r.Some? ==> 1 <= r.value.1 <= 12
  {
    var k := FirstSpace(s);
    if k == |s| then None
    else
      match (MonthNumber(s[..k]), ParseI32(s[k + 1..]))
      case (Some(m), Some(y)) => Some((y, m))
      case _ => None
  }

  /** The heading names the month and the year of the date: reading it back gives them. */
  lemma MonthYearRoundTrip(d: Date)
    requires Valid(d) && I32_MIN <= d.year <= I32_MAX
    ensures ParseMonthYear(FormatMonthYear(d)) == Some((d.year, d.month))
  {
    var name := MonthName(d.month);
    var s := FormatMonthYear(d);
    assert s == name + " " + IntToDecimal(d.year);
    assert s[|name|] == ' ';
    assert forall i :: 0 <= i < |name| ==> s[i] == name[i];
    assert FirstSpace(s) == |name|;
    assert s[..|name|] == name;
    assert s[|name| + 1..] == IntToDecimal(d.year);
    MonthNumberOfName(d.month);
    ParseIntToDecimal(d.year, I32_MIN, I32_MAX, true);
  }

  /** Different months (or years) get different headings. */
  lemma MonthYearHeadingsDistinct(a: Date, b: Date)
    requires Valid(a) && Valid(b) && I32_MIN <= a.year <= I32_MAX && I32_MIN <= b.year <= I32_MAX
    requires FormatMonthYear(a) == FormatMonthYear(b)
    ensures a.year == b.year && a.month == b.month
  {
    MonthYearRoundTrip(a);
    MonthYearRoundTrip(b);
  }

  // ---------------------------------------------------------------- the form

  /** The report form: the date and the raw text of its inputs. */
  datatype ReportForm = ReportForm(
    date: Date,
    preached: bool,
    hours: string,
    credits: string,
    commitment: Option<Commitment>,
    notes: string)

  /** "New Report": today, nothing else filled in. */
  function NewForm(today: Date): (f: ReportForm)
    ensures f.date == today && !f.preached && f.commitment.None?
    ensures f.hours == [] && f.credits == [] && f.notes == []
  {
    ReportForm(today, false, [], [], None, [])
  }

  /** `handle_edit`: the report's values, numbers as decimal text, missing values as "". */
  function EditForm(r: Report): (f: ReportForm)
    ensures f.date == r.date && f.preached == r.preached && f.commitment == r.commitment
    ensures r.hours.None? <==> f.hours == []
    ensures r.credits.None? <==> f.credits == []
  {
    ReportForm(
      r.date,
      r.preached,
      match r.hours case Some(h) => IntToDecimal(h) case None => [],
      match r.credits case Some(c) => IntToDecimal(c) case None => [],
      r.commitment,
      r.notes.GetOr([]))
  }

  /** The month select: a month number moves the date to the first of that month; anything
      that is not a month leaves the date alone. */
  function ChangeMonth(d: Date, value: string): (r: Date)
    requires Valid(d)
    ensures Valid(r)
    ensures r == d || (r.day == 1 && r.year == d.year)
    ensures ParseU32(value).None? ==> r == d
    ensures ParseU32(value).Some? && !(1 <= ParseU32(value).value <= 12) ==> r == d
    ensures ParseU32(value).Some? && 1 <= ParseU32(value).value <= 12 && InYearRange(d.year) ==>
      r == Date(d.year, ParseU32(value).value, 1)
  {
    match ParseU32(value)
    case Some(m) => FromYmd(d.year, m, 1).GetOr(d)
    case None => d
  }

  /** The year input: a year moves the date to the first of its month in that year; text that is
      not a 32-bit integer leaves the date alone. */
  function ChangeYear(d: Date, value: string): (r: Date)
    requires Valid(d)
    ensures Valid(r)
    ensures r == d || (r.day == 1 && r.month == d.month)
    ensures ParseI32(value).None? ==> r == d
    ensures ParseI32(value).Some? && !InYearRange(ParseI32(value).value) ==> r == d
    ensures ParseI32(value).Some? && InYearRange(ParseI32(value).value) ==> r == Date(ParseI32(value).value, d.month, 1)
  {
    match ParseI32(value)
    case Some(y) => FromYmd(y, d.month, 1).GetOr(d)
    case None => d
  }

  /** Picking an option of the month select, or typing a year chrono can hold, lands on the
      first of the chosen month; a 32-bit year beyond chrono's range leaves the date alone. */
  lemma MonthAndYearPickers(d: Date, m: int, y: int)
    requires Valid(d) && InYearRange(d.year) && 1 <= m <= 12 && I32_MIN <= y <= I32_MAX
    ensures ChangeMonth(d, IntToDecimal(m)) == Date(d.year, m, 1)
    ensures InYearRange(y) ==> ChangeYear(d, IntToDecimal(y)) == Date(y, d.month, 1)
    ensures !InYearRange(y) ==> ChangeYear(d, IntToDecimal(y)) == d
  {
    ParseIntToDecimal(m, 0, U32_MAX, false);
    ParseIntToDecimal(y, I32_MIN, I32_MAX, true);
  }

  /** The commitment select's values. */
  function CommitmentValue(c: Option<Commitment>): string {
    match c
    case Some(Fifteen) => "fifteen"
    case Some(Thirty) => "thirty"
    case None => "none"
  }

  /** Reading the select: "fifteen" and "thirty" choose a commitment, anything else none. */
  function CommitmentOf(value: string): (c: Option<Commitment>)
    ensures value != "fifteen" && value != "thirty" ==> c.None?
  {
    match value
    case "fifteen" => Some(Fifteen)
    case "thirty" => Some(Thirty)
    case _ => None
  }

  lemma CommitmentSelectRoundTrip(c: Option<Commitment>)
    ensures CommitmentOf(CommitmentValue(c)) == c
  {
  }

  /** The commitment column. */
  function CommitmentLabel(c: Commitment): string {
    match c
    case Fifteen => "15 hrs"
    case Thirty => "30 hrs"
  }

  // ---------------------------------------------------------------- saving

  /** `preached` as saved: pioneers preached when hours plus credits is positive; baptized and
      unbaptized publishers with a commitment when their hours are positive; everybody else
      (students, no type, or no publisher loaded) as ticked. */
  function DerivePreached(publisher: Option<User>, hours: Option<int>, credits: Option<int>,
                          commitment: Option<Commitment>, ticked: bool): (b: bool)
    ensures publisher.Some? && IsPioneer(publisher.value.publisherType) ==> (b <==> hours.GetOr(0) + credits.GetOr(0) > 0)
  {
    match publisher
    case None => ticked
    case Some(u) =>
      match u.publisherType
      case Some(RegularPioneer) => hours.GetOr(0) + credits.GetOr(0) > 0
      case Some(SpecialPioneer) => hours.GetOr(0) + credits.GetOr(0) > 0
      case Some(ContinuousAuxiliaryPioneer) => hours.GetOr(0) + credits.GetOr(0) > 0
      case Some(BaptizedPublisher) => if commitment.Some? then hours.GetOr(0) > 0 else ticked
      case Some(UnbaptizedPublisher) => if commitment.Some? then hours.GetOr(0) > 0 else ticked
      case _ => ticked
  }

  /** The flag is computed, not ticked, exactly for pioneers and for publishers with a
      commitment. */
  predicate Computed(publisher: Option<User>, commitment: Option<Commitment>) {
    publisher.Some? &&
    (IsPioneer(publisher.value.publisherType) ||
     ((publisher.value.publisherType == Some(BaptizedPublisher) || publisher.value.publisherType == Some(UnbaptizedPublisher))
      && commitment.Some?))
  }

  /** The checkbox decides the flag exactly when the flag is not computed. */
  lemma TickedFlagDecidesIffNotComputed(publisher: Option<User>, hours: Option<int>, credits: Option<int>, commitment: Option<Commitment>)
    ensures DerivePreached(publisher, hours, credits, commitment, true) != DerivePreached(publisher, hours, credits, commitment, false)
      <==> !Computed(publisher, commitment)
    ensures !Computed(publisher, commitment) ==> forall t :: DerivePreached(publisher, hours, credits, commitment, t) == t
  {
  }

  /** A publisher with a commitment: only hours count, credits never. */
  lemma PublisherCreditsIgnored(u: User, hours: Option<int>, c1: Option<int>, c2: Option<int>, commitment: Commitment, ticked: bool)
    requires u.publisherType == Some(BaptizedPublisher) || u.publisherType == Some(UnbaptizedPublisher)
    ensures DerivePreached(Some(u), hours, c1, Some(commitment), ticked) == DerivePreached(Some(u), hours, c2, Some(commitment), ticked)
    ensures DerivePreached(Some(u), hours, c1, Some(commitment), ticked) <==> hours.GetOr(0) > 0
  {
  }

  /** What a save does with the store. */
  datatype Save = Create(report: Report) | Update(id: Ref, report: Report) | NoSave

  /** `handle_save`: numbers that are not 16-bit integers are dropped, empty notes are dropped,
      the publisher is `user:<publisherId>`, and an edited report keeps its id; editing a report
      without an id saves nothing. */
  function SaveReport(f: ReportForm, publisherId: string, publisher: Option<User>, editing: Option<Report>): (s: Save)
    ensures editing.None? ==> s.Create?
    ensures editing.Some? ==> (s.NoSave? <==> editing.value.id.None?)
    ensures s.Update? ==> s.id == editing.value.id.value && s.report.id == Some(s.id)
    ensures !s.NoSave? ==>
      s.report.date == f.date && s.report.publisher == Some(Ref("user", publisherId)) &&
      s.report.hours == ParseI16(f.hours) && s.report.credits == ParseI16(f.credits) &&
      s.report.commitment == f.commitment &&
      (s.report.notes.None? <==> f.notes == [])
  {
    var hours := ParseI16(f.hours);
    var credits := ParseI16(f.credits);
    var report := Report(
      match editing case Some(e) => e.id case None => None,
      f.date,
      Some(Ref("user", publisherId)),
      DerivePreached(publisher, hours, credits, f.commitment, f.preached),
      hours,
      credits,
      f.commitment,
      if f.notes == [] then None else Some(f.notes));
    match editing
    case None => Create(report)
    case Some(e) =>
      match e.id
      case Some(id) => Update(id, report)
      case None => NoSave
  }

  /** A saved pioneer report is marked preached exactly when its total column is positive. */
  lemma PioneerPreachedIffTotal(f: ReportForm, publisherId: string, u: User, editing: Option<Report>)
    requires IsPioneer(u.publisherType)
    requires !SaveReport(f, publisherId, Some(u), editing).NoSave?
    ensures var r := SaveReport(f, publisherId, Some(u), editing).report;
      r.preached <==> PioneerTotal(r) > 0
  {
  }

  /** The total column of a pioneer's report. */
  function PioneerTotal(r: Report): int {
    r.hours.GetOr(0) + r.credits.GetOr(0)
  }

  /** A report the form can hold: 16-bit numbers, no empty note, the page's publisher. */
  predicate Editable(r: Report, publisherId: string) {
    (r.hours.Some? ==> I16_MIN <= r.hours.value <= I16_MAX)
    && (r.credits.Some? ==> I16_MIN <= r.credits.value <= I16_MAX)
    && r.notes != Some([])
    && r.publisher == Some(Ref("user", publisherId))
  }

  /** Opening a report and saving it unchanged writes the same report back, as long as its
      `preached` flag is the one the save would derive. */
  lemma EditRoundTrip(r: Report, publisherId: string, publisher: Option<User>)
    requires Editable(r, publisherId) && r.id.Some?
    requires DerivePreached(publisher, r.hours, r.credits, r.commitment, r.preached) == r.preached
    ensures SaveReport(EditForm(r), publisherId, publisher, Some(r)) == Update(r.id.value, r)
  {
    var f := EditForm(r);
    if r.hours.Some? {
      ParseIntToDecimal(r.hours.value, I16_MIN, I16_MAX, true);
    }
    if r.credits.Some? {
      ParseIntToDecimal(r.credits.value, I16_MIN, I16_MAX, true);
    }
    assert ParseI16(f.hours) == r.hours;
    assert ParseI16(f.credits) == r.credits;
  }
}
