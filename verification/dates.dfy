/** Calendar dates as chrono's `NaiveDate` treats them: proleptic Gregorian (y, m, d),
    ordered chronologically, which for valid dates is the lexicographic order. */
module Dates {
  import opened Common
  import opened Numbers

  datatype Date = Date(year: int, month: int, day: int)

  predicate IsLeapYear(y: int) {
    (y % 4 == 0 && y % 100 != 0) || y % 400 == 0
  }

  function DaysInMonth(y: int, m: int): (n: int)
    requires 1 <= m <= 12
    ensures 28 <= n <= 31
  {
    if m == 2 then (if IsLeapYear(y) then 29 else 28)
    else if m == 4 || m == 6 || m == 9 || m == 11 then 30
    else 31
  }

  predicate Valid(d: Date) {
    1 <= d.month <= 12 && 1 <= d.day <= DaysInMonth(d.year, d.month)
  }

  /** The years chrono's `NaiveDate` can hold: its year is stored in the upper 19 bits of an i32. */
  const MIN_YEAR := -262144
  const MAX_YEAR := 262143

  predicate InYearRange(y: int) {
    MIN_YEAR <= y <= MAX_YEAR
  }

  /** chrono's `NaiveDate::from_ymd_opt`: a date when the year is one chrono holds and the month
      and day exist in it. */
  function FromYmd(y: int, m: int, d: int): (r: Option<Date>)
    ensures r.Some? <==> InYearRange(y) && 1 <= m <= 12 && 1 <= d <= DaysInMonth(y, m)
    ensures r.Some? ==> r.value == Date(y, m, d)
  {
    if InYearRange(y) && Valid(Date(y, m, d)) then Some(Date(y, m, d)) else None
  }

  /** `a <= b` on dates. */
  predicate Le(a: Date, b: Date) {
    a.year < b.year || (a.year == b.year && (a.month < b.month || (a.month == b.month && a.day <= b.day)))
  }

  predicate Lt(a: Date, b: Date) {
    Le(a, b) && a != b
  }

  /** `a <= d <= b`. */
  predicate InRange(d: Date, a: Date, b: Date) {
    Le(a, d) && Le(d, b)
  }

  lemma LeTotal(a: Date, b: Date)
    ensures Le(a, b) || Le(b, a)
    ensures Le(a, b) && Le(b, a) ==> a == b
  {
  }

  /** chrono's `pred_opt`: the day before. */
  function Pred(d: Date): (r: Date)
    requires Valid(d)
    ensures Valid(r) && Lt(r, d)
    ensures forall x :: Valid(x) && Lt(r, x) ==> Le(d, x)
  {
    if d.day > 1 then Date(d.year, d.month, d.day - 1)
    else if d.month > 1 then Date(d.year, d.month - 1, DaysInMonth(d.year, d.month - 1))
    else Date(d.year - 1, 12, 31)
  }

  /** chrono's `NaiveDate::to_string()`: "YYYY-MM-DD" for years 0 to 9999; other years carry
      a sign and at least four digits. */
  function IsoDate(d: Date): (s: string)
    requires Valid(d)
    ensures 0 <= d.year <= 9999 ==> |s| == 10 && s[4] == '-' && s[7] == '-'
  {
    var y := if 0 <= d.year <= 9999 then PadZeros(d.year, 4)
      else if d.year < 0 then "-" + PadZeros(-d.year, 4)
      else "+" + PadZeros(d.year, 4);
    assert 0 <= d.year <= 9999 ==> |y| == 4 by {
      if 0 <= d.year <= 9999 {
        ValueBound(NatToDecimal(d.year));
        DecimalLength(d.year, 4);
      }
    }
    y + "-" + Pad2(d.month) + "-" + Pad2(d.day)
  }

  /** `NaiveDate::parse_from_str(s, "%Y-%m-%d")` on the text a date input gives: four-digit
      year, two-digit month and day, a valid date. */
  function ParseIsoDate(s: string): (r: Option<Date>)
    ensures r.Some? ==> Valid(r.value) && 0 <= r.value.year <= 9999
  {
    if |s| != 10 || s[4] != '-' || s[7] != '-' then None
    else
      var y, m, d := s[..4], s[5..7], s[8..];
      if !(AllDigits(y) && AllDigits(m) && AllDigits(d)) then None
      else
        ValueBound(y);
        FromYmd(Value(y), Value(m), Value(d))
  }

  /** A date input shows the stored date, and reading the input back gives that date. */
  lemma IsoDateRoundTrip(d: Date)
    requires Valid(d) && 0 <= d.year <= 9999
    ensures ParseIsoDate(IsoDate(d)) == Some(d)
  {
    var s := IsoDate(d);
    ValueBound(NatToDecimal(d.year));
    DecimalLength(d.year, 4);
    var y := PadZeros(d.year, 4);
    assert s == y + "-" + Pad2(d.month) + "-" + Pad2(d.day);
    assert s[..4] == y;
    assert s[5..7] == Pad2(d.month);
    assert s[8..] == Pad2(d.day);
  }
}
