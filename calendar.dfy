// The proleptic Gregorian calendar and the part of JavaScript's `Date` the application uses:
// construction from (year, month index, day) numbers, field access and time comparison.
// All dates are local dates; time zones and daylight-saving transitions are outside the model.

module Calendar {
  import opened Text

  /** A day written as year, month (1-12) and day of the month. */
  datatype Civil = Civil(year: int, month: int, day: int)

  predicate IsLeapYear(y: int) {
    (y % 4 == 0 && y % 100 != 0) || y % 400 == 0
  }

  function DaysInMonth(y: int, m: int): (n: int)
    requires 1 <= m <= 12
    ensures 28 <= n <= 31
    ensures n == 29 <==> m == 2 && IsLeapYear(y)
  {
    if m == 2 then (if IsLeapYear(y) then 29 else 28)
    else if m == 4 || m == 6 || m == 9 || m == 11 then 30
    else 31
  }

  /** The day exists: its month is 1-12 and its day lies within that month. */
  predicate IsValid(c: Civil) {
    1 <= c.month <= 12 && 1 <= c.day <= DaysInMonth(c.year, c.month)
  }

  type Date = c: Civil | IsValid(c) witness Civil(1970, 1, 1)

  const MsPerDay: int := 86400000

  type TimeOfDay = t: int | 0 <= t < 86400000

  /** A JavaScript `Date`: the invalid date (time value NaN), or a day and the milliseconds
      elapsed since its local midnight. */
  datatype JsDate = Invalid | At(date: Date, time: TimeOfDay)

  /** Carries a day number outside month `m` of year `y` into the neighbouring months, as the
      `Date` constructor does. */
  function NormalizeDay(y: int, m: int, d: int): (r: Date)
    requires 1 <= m <= 12
    ensures IsValid(Civil(y, m, d)) ==> r == Civil(y, m, d)
    decreases (if d < 1 then 1 - d else 0), (if d < 1 then 0 else d)
  {
    if d < 1 then
      var py := if m == 1 then y - 1 else y;
      var pm := if m == 1 then 12 else m - 1;
      NormalizeDay(py, pm, d + DaysInMonth(py, pm))
    else if d > DaysInMonth(y, m) then
      var ny := if m == 12 then y + 1 else y;
      var nm := if m == 12 then 1 else m + 1;
      NormalizeDay(ny, nm, d - DaysInMonth(y, m))
    else
      Civil(y, m, d)
  }

  /** The day that (year, month index, day) denotes: month index 0 is January of `y`, and
      months and days outside their range carry into the neighbouring years and months. */
  function MakeDay(y: int, monthIndex: int, d: int): Date {
    NormalizeDay(y + monthIndex / 12, monthIndex % 12 + 1, d)
  }

  /** `new Date(year, monthIndex, day)`: local midnight of that day. A NaN argument gives the
      invalid date, and a year from 0 to 99 stands for 1900 + year. */
  function NewDate(year: Num, monthIndex: Num, day: Num): JsDate {
    if year.NaN? || monthIndex.NaN? || day.NaN? then Invalid
    else
      var y := if 0 <= year.v <= 99 then 1900 + year.v else year.v;
      At(MakeDay(y, monthIndex.v, day.v), 0)
  }

  /** For a month in range and a year outside 0-99, the constructor normalises the day within
      that month, which reproduces the day exactly when it exists. */
  lemma NewDateRoundTrip(c: Civil)
    requires 1 <= c.month <= 12 && !(0 <= c.year <= 99)
    ensures NewDate(Int(c.year), Int(c.month - 1), Int(c.day)) == At(NormalizeDay(c.year, c.month, c.day), 0)
    ensures NormalizeDay(c.year, c.month, c.day) == c <==> IsValid(c)
  {
    assert (c.month - 1) / 12 == 0 && (c.month - 1) % 12 + 1 == c.month;
  }

  /** The constructor reproduces every existing day outside the years 0-99 exactly. */
  lemma NewDateOfValid(c: Civil)
    requires IsValid(c) && !(0 <= c.year <= 99)
    ensures NewDate(Int(c.year), Int(c.month - 1), Int(c.day)) == At(c, 0)
  {
    assert (c.month - 1) / 12 == 0 && (c.month - 1) % 12 + 1 == c.month;
  }

  /** A day the month does not have never comes back unchanged: the constructor rolls it over. */
  lemma NewDateRollsOver(y: int, m: int, d: int)
    requires 1 <= m <= 12 && !(0 <= y <= 99) && !IsValid(Civil(y, m, d))
    ensures NewDate(Int(y), Int(m - 1), Int(d)).At?
    ensures NewDate(Int(y), Int(m - 1), Int(d)).date != Civil(y, m, d)
  {
  }

  /** Day 1 of month index m - 1 is the first day of month m. */
  lemma FirstDayOfMonth(y: int, m: int)
    requires 1 <= m <= 12
    ensures MakeDay(y, m - 1, 1) == Civil(y, m, 1)
  {
    assert (m - 1) / 12 == 0 && (m - 1) % 12 + 1 == m;
  }

  /** Day 0 of the following month index is the last day of month m, February of a leap year
      included. */
  lemma LastDayOfMonth(y: int, m: int)
    requires 1 <= m <= 12
    ensures MakeDay(y, m, 0) == Civil(y, m, DaysInMonth(y, m))
  {
    if m == 12 {
      assert 12 / 12 == 1 && 12 % 12 + 1 == 1;
      assert NormalizeDay(y + 1, 1, 0) == NormalizeDay(y, 12, DaysInMonth(y, 12));
    } else {
      assert m / 12 == 0 && m % 12 + 1 == m + 1;
      assert NormalizeDay(y, m + 1, 0) == NormalizeDay(y, m, DaysInMonth(y, m));
    }
  }

  /** Lexicographic order on (year, month, day), which is the order of the days in time. */
  predicate DayBefore(a: Civil, b: Civil) {
    a.year < b.year
    || (a.year == b.year && (a.month < b.month || (a.month == b.month && a.day < b.day)))
  }

  /** `a < b` on two `Date` values: false when either is invalid (a NaN comparison). */
  predicate Earlier(a: JsDate, b: JsDate) {
    a.At? && b.At? && (DayBefore(a.date, b.date) || (a.date == b.date && a.time < b.time))
  }

  /** `a <= b` on two `Date` values: false when either is invalid. */
  predicate NotLater(a: JsDate, b: JsDate) {
    a.At? && b.At? && !Earlier(b, a)
  }

  /** On valid dates `Earlier` is a strict total order. */
  lemma EarlierTrichotomy(a: JsDate, b: JsDate)
    requires a.At? && b.At?
    ensures Earlier(a, b) || a == b || Earlier(b, a)
    ensures !(Earlier(a, b) && Earlier(b, a))
  {
  }

  lemma EarlierTransitive(a: JsDate, b: JsDate, c: JsDate)
    requires Earlier(a, b) && Earlier(b, c)
    ensures Earlier(a, c)
  {
  }

  /** `<=` on the time value is transitive. */
  lemma NotLaterTransitive(a: JsDate, b: JsDate, c: JsDate)
    requires NotLater(a, b) && NotLater(b, c)
    ensures NotLater(a, c)
  {
    EarlierTrichotomy(a, b);
    EarlierTrichotomy(b, c);
    EarlierTrichotomy(a, c);
    if Earlier(a, b) && Earlier(b, c) {
      EarlierTransitive(a, b, c);
    }
  }
}
