// The DD/MM/YYYY date helpers shared by the whole front end (the static `DateUtils` class).

module DateUtils {
  import opened Wrappers
  import opened Text
  import opened Calendar

  /** What the helpers accept: null or undefined, a string, or a `Date` object. */
  datatype DateInput = Nothing | Str(s: string) | Obj(d: JsDate)

  /** The host's `new Date(string)` parser. Its treatment of free-form strings is left to the
      JavaScript engine, so every operation that falls back on it takes it as a parameter. */
  type HostParser = string -> JsDate

  /** `s` matches `^\d{2}\/\d{2}\/\d{4}$`. */
  predicate IsCanonical(s: string) {
    |s| == 10 && s[2] == '/' && s[5] == '/'
    && AllDigits(s[..2]) && AllDigits(s[3..5]) && AllDigits(s[6..])
  }

  /** The (year, month, day) a DD/MM/YYYY string spells, field by field. */
  function Spelled(s: string): Civil
    requires IsCanonical(s)
  {
    Civil(DigitsValue(s[6..]), DigitsValue(s[3..5]), DigitsValue(s[..2]))
  }

  /** DD/MM/YYYY as `dateToString` writes a day: zero-padded day and month, then the year. */
  /** A real day of a four-digit year is written in canonical form and reads back as itself. */
  function FormatDay(c: Civil): (r: string)
    ensures IsValid(c) && 1000 <= c.year <= 9999 ==> IsCanonical(r) && Spelled(r) == c
  {
    var d := PadStart2(IntToString(c.day));
    var m := PadStart2(IntToString(c.month));
    var y := IntToString(c.year);
    var r := d + "/" + m + "/" + y;
    if IsValid(c) && 1000 <= c.year <= 9999 then
      PadNat(c.day);
      PadNat(c.month);
      FourDigitString(c.year);
      assert r[..2] == d && r[3..5] == m && r[6..] == y;
      r
    else r
  }

  /** Element `i` of a destructured array; a missing element is `undefined`, which is NaN as a number. */
  function NumberAt(parts: seq<string>, i: nat): Num {
    if i < |parts| then ToNumber(parts[i]) else NaN
  }

  /** The guard of the day/month/year branch of `parseStringToDate`. */
  predicate Accepted(day: Num, month: Num, year: Num) {
    day.Truthy() && month.Truthy() && year.Truthy()
    && day.v <= 31 && month.v <= 12 && year.v > 1900
  }

  /** `DateUtils.parseStringToDate`. */
  function ParseStringToDate(input: DateInput, host: HostParser): (r: Option<JsDate>)
    ensures input.Nothing? || input == Str("") ==> r.None?
    ensures input.Obj? ==> r == Some(input.d)
    ensures input.Str? && r.Some? ==> r.value.At?
  {
    match input
    case Nothing => None
    case Obj(d) => Some(d)
    case Str(s) =>
      if s == "" then None
      else
        var parts := Split(s, '/');
        var day := NumberAt(parts, 0);
        var month := NumberAt(parts, 1);
        var year := NumberAt(parts, 2);
        if |parts| == 3 && Accepted(day, month, year) then
          Some(NewDate(year, month.Plus(-1), day))
        else
          var d := host(s);
          if d.Invalid? then None else Some(d)
  }

  /** A `Date` as `dateToString` writes it: the empty string for an invalid date. */
  function FormatValid(d: JsDate): string {
    if d.Invalid? then "" else FormatDay(d.date)
  }

  /** `DateUtils.dateToString`. */
  function DateToString(input: DateInput, host: HostParser): (r: string)
    ensures input.Nothing? || input == Str("") ==> r == ""
    ensures input.Str? && IsCanonical(input.s) ==> r == input.s
  {
    match input
    case Nothing => ""
    case Str(s) =>
      if s == "" then ""
      else if IsCanonical(s) then s
      else FormatValid(host(s))
    case Obj(d) => FormatValid(d)
  }

  /** `DateUtils.isValidDateString`. */
  function IsValidDateString(s: string): (r: bool)
    ensures r ==> IsCanonical(s)
  {
    if s == "" || !IsCanonical(s) then false
    else
      var parts := Split(s, '/');
      var day := NumberAt(parts, 0);
      var month := NumberAt(parts, 1);
      var year := NumberAt(parts, 2);
      if day.Below(1) || day.Above(31) || month.Below(1) || month.Above(12) || year.Below(1900) then
        false
      else
        var d := NewDate(year, month.Plus(-1), day);
        d.At? && Int(d.date.day) == day && Int(d.date.month - 1) == month.Plus(-1)
        && Int(d.date.year) == year
  }

  /** `DateUtils.getTodayString`, with the clock passed in. */
  function GetTodayString(now: JsDate): (r: string)
    requires now.At?
    ensures 1000 <= now.date.year <= 9999 ==> IsCanonical(r) && Spelled(r) == now.date
  {
    DateToString(Obj(now), _ => Invalid)
  }

  /** `DateUtils.compareDates`: -1, 0 or 1, or None (null) when a side does not parse. */
  function CompareDates(a: DateInput, b: DateInput, host: HostParser): (r: Option<int>)
    ensures r.Some? ==> -1 <= r.value <= 1
    ensures r.None? <==> ParseStringToDate(a, host).None? || ParseStringToDate(b, host).None?
  {
    var d1 := ParseStringToDate(a, host);
    var d2 := ParseStringToDate(b, host);
    if d1.None? || d2.None? then None
    else if Earlier(d1.value, d2.value) then Some(-1)
    else if Earlier(d2.value, d1.value) then Some(1)
    else Some(0)
  }

  /** `DateUtils.isSameDay`. */
  /** `isSameDay` holds exactly when both sides parse to valid dates on the same day; the time
      of day plays no part. */
  function IsSameDay(a: DateInput, b: DateInput, host: HostParser): (r: bool)
    ensures r <==>
      ParseStringToDate(a, host).Some? && ParseStringToDate(b, host).Some?
      && ParseStringToDate(a, host).value.At? && ParseStringToDate(b, host).value.At?
      && ParseStringToDate(a, host).value.date == ParseStringToDate(b, host).value.date
  {
    var d1 := ParseStringToDate(a, host);
    var d2 := ParseStringToDate(b, host);
    if d1.None? || d2.None? then false
    else
      d1.value.At? && d2.value.At?
      && d1.value.date.day == d2.value.date.day
      && d1.value.date.month == d2.value.date.month
      && d1.value.date.year == d2.value.date.year
  }

  // ----- The three fields of a DD/MM/YYYY string -----

  lemma CanonicalParts(s: string)
    requires IsCanonical(s)
    ensures Split(s, '/') == [s[..2], s[3..5], s[6..]]
    ensures NumberAt(Split(s, '/'), 0) == Int(Spelled(s).day)
    ensures NumberAt(Split(s, '/'), 1) == Int(Spelled(s).month)
    ensures NumberAt(Split(s, '/'), 2) == Int(Spelled(s).year)
  {
    var dd, mm, yy := s[..2], s[3..5], s[6..];
    DigitsExclude(dd, '/');
    DigitsExclude(mm, '/');
    DigitsExclude(yy, '/');
    assert s == dd + ['/'] + (mm + ['/'] + yy);
    SplitAtSep(dd, mm + ['/'] + yy, '/');
    SplitAtSep(mm, yy, '/');
    SplitNoSep(yy, '/');
  }

  lemma PadTwoDigits(t: string)
    requires |t| == 2 && AllDigits(t)
    ensures PadStart2(IntToString(DigitsValue(t))) == t
  {
    TwoDigitsValue(t);
    if t[0] == '0' {
      assert DigitsValue(t) == DigitValue(t[1]);
      assert DigitChar(DigitValue(t[1])) == t[1];
      assert t == "0" + [t[1]];
    } else {
      NatToStringOfDigits(t);
    }
  }

  lemma PadNat(n: nat)
    requires n < 100
    ensures |PadStart2(IntToString(n))| == 2 && AllDigits(PadStart2(IntToString(n)))
    ensures DigitsValue(PadStart2(IntToString(n))) == n
  {
    var r := NatToString(n);
    if n < 10 {
      TwoDigitsValue("0" + r);
    } else {
      assert r == NatToString(n / 10) + [DigitChar(n % 10)];
    }
  }

  /** Writing the day a canonical string spells gives the string back, for four-digit years. */
  lemma FormatSpelled(s: string)
    requires IsCanonical(s) && Spelled(s).year >= 1000
    ensures FormatDay(Spelled(s)) == s
  {
    PadTwoDigits(s[..2]);
    PadTwoDigits(s[3..5]);
    var yy := s[6..];
    FourDigitsValue(yy);
    if yy[0] == '0' {
      assert false;
    }
    NatToStringOfDigits(yy);
    assert s == s[..2] + "/" + s[3..5] + "/" + yy;
  }

  // ----- Properties -----

  /** `isValidDateString` accepts exactly the canonical strings that spell an existing day of
      1900 or later: the round trip through `new Date` rejects days the month lacks. */
  lemma IsValidDateStringIff(s: string)
    ensures IsValidDateString(s) <==>
      IsCanonical(s) && IsValid(Spelled(s)) && Spelled(s).year >= 1900
  {
    if IsCanonical(s) {
      CanonicalParts(s);
      var c := Spelled(s);
      if 1 <= c.day <= 31 && 1 <= c.month <= 12 && c.year >= 1900 {
        NewDateRoundTrip(c);
        var n := NormalizeDay(c.year, c.month, c.day);
        assert IsValidDateString(s) == (n.day == c.day && n.month == c.month && n.year == c.year);
      }
    }
  }

  /** The day/month/year branch of `parseStringToDate`: a three-part string whose fields pass
      the guard becomes that day at midnight, a nonexistent day rolled over into the next month. */
  lemma ParseThreeParts(s: string, host: HostParser, y: int, m: int, d: int)
    requires s != "" && |Split(s, '/')| == 3
    requires NumberAt(Split(s, '/'), 0) == Int(d)
    requires NumberAt(Split(s, '/'), 1) == Int(m)
    requires NumberAt(Split(s, '/'), 2) == Int(y)
    requires 1 <= d <= 31 && 1 <= m <= 12 && y > 1900
    ensures IsValid(Civil(y, m, d)) ==> ParseStringToDate(Str(s), host) == Some(At(Civil(y, m, d), 0))
    ensures !IsValid(Civil(y, m, d)) ==>
      (ParseStringToDate(Str(s), host).Some? && ParseStringToDate(Str(s), host).value.date != Civil(y, m, d))
  {
    if IsValid(Civil(y, m, d)) {
      NewDateOfValid(Civil(y, m, d));
    } else {
      NewDateRollsOver(y, m, d);
    }
  }

  /** The year guard of `parseStringToDate` is strict: 1900 and earlier go to the host parser. */
  lemma ParseEarlyYearGoesToHost(s: string, host: HostParser)
    requires IsCanonical(s) && Spelled(s).year <= 1900
    ensures ParseStringToDate(Str(s), host) == (if host(s).Invalid? then None else Some(host(s)))
  {
    CanonicalParts(s);
  }

  /** Every valid date string of a year after 1900 parses to the day it spells. */
  lemma ParseValidString(s: string, host: HostParser)
    requires IsValidDateString(s) && Spelled(s).year > 1900
    ensures ParseStringToDate(Str(s), host).Some? && ParseStringToDate(Str(s), host).value.At?
    ensures ParseStringToDate(Str(s), host).value.date == Spelled(s)
    ensures ParseStringToDate(Str(s), host).value.time == 0
  {
    IsValidDateStringIff(s);
    CanonicalParts(s);
    var c := Spelled(s);
    ParseThreeParts(s, host, c.year, c.month, c.day);
  }

  /** Round trip: formatting the parse of a valid date string after 1900 gives the string back. */
  lemma ParseThenFormat(s: string, host: HostParser)
    requires IsValidDateString(s) && Spelled(s).year > 1900
    ensures ParseStringToDate(Str(s), host).Some?
    ensures DateToString(Obj(ParseStringToDate(Str(s), host).value), host) == s
  {
    ParseValidString(s, host);
    FormatSpelled(s);
  }

  /** Round trip the other way: a day of a four-digit year from 1901 on is written as a valid
      date string that parses back to that day. */
  lemma FormatThenParse(c: Civil, t: TimeOfDay, host: HostParser)
    requires IsValid(c) && 1900 < c.year <= 9999
    ensures IsValidDateString(DateToString(Obj(At(c, t)), host))
    ensures ParseStringToDate(Str(DateToString(Obj(At(c, t)), host)), host) == Some(At(c, 0))
  {
    var s := FormatDay(c);
    IsValidDateStringIff(s);
    ParseValidString(s, host);
  }

  /** A written date is written the same way again: `dateToString` is idempotent on the days of
      four-digit years. */
  lemma DateToStringIdempotent(d: JsDate, host: HostParser)
    requires d.At? && 1000 <= d.date.year <= 9999
    ensures DateToString(Str(DateToString(Obj(d), host)), host) == DateToString(Obj(d), host)
  {
  }

  /** Swapping the arguments of `compareDates` negates the result, and None stays None. */
  lemma CompareDatesAntisymmetric(a: DateInput, b: DateInput, host: HostParser)
    ensures CompareDates(a, b, host).None? <==> CompareDates(b, a, host).None?
    ensures CompareDates(a, b, host).Some? ==>
      CompareDates(b, a, host) == Some(-CompareDates(a, b, host).value)
  {
    var d1 := ParseStringToDate(a, host);
    var d2 := ParseStringToDate(b, host);
    if d1.Some? && d2.Some? && d1.value.At? && d2.value.At? {
      EarlierTrichotomy(d1.value, d2.value);
    }
  }

  /** On valid date strings after 1900 `compareDates` is the chronological order of the days. */
  lemma CompareDatesChronological(s1: string, s2: string, host: HostParser)
    requires IsValidDateString(s1) && Spelled(s1).year > 1900
    requires IsValidDateString(s2) && Spelled(s2).year > 1900
    ensures CompareDates(Str(s1), Str(s2), host) == Some(-1) <==> DayBefore(Spelled(s1), Spelled(s2))
    ensures CompareDates(Str(s1), Str(s2), host) == Some(0) <==> Spelled(s1) == Spelled(s2)
    ensures CompareDates(Str(s1), Str(s2), host) == Some(1) <==> DayBefore(Spelled(s2), Spelled(s1))
  {
    ParseValidString(s1, host);
    ParseValidString(s2, host);
  }

  /** An invalid `Date` object parses (objects are truthy) but compares equal to everything. */
  lemma CompareWithInvalidDate(b: DateInput, host: HostParser)
    requires ParseStringToDate(b, host).Some?
    ensures CompareDates(Obj(Invalid), b, host) == Some(0)
  {
  }

  /** Two moments of one day are the same day even though `compareDates` orders them. */
  lemma SameDayDifferentTimes(c: Date, t1: TimeOfDay, t2: TimeOfDay, host: HostParser)
    requires t1 < t2
    ensures IsSameDay(Obj(At(c, t1)), Obj(At(c, t2)), host)
    ensures CompareDates(Obj(At(c, t1)), Obj(At(c, t2)), host) == Some(-1)
  {
  }
}
