/** Calendar dates and times as integer tuples, with the few `datetime`
  * operations the bots use: `strftime`/`strptime` with numeric day-month-year
  * formats, `weekday()`, date differences in days and adding hours. */
module Dates {
  import opened Wrappers
  import opened Strings

  datatype Date = Date(day: int, month: int, year: int)

  datatype DateTime = DateTime(date: Date, hour: int, minute: int)

  predicate IsLeapYear(y: int)
  {
    y % 4 == 0 && (y % 100 != 0 || y % 400 == 0)
  }

  function DaysInMonth(month: int, year: int): int
  {
    if month == 2 then (if IsLeapYear(year) then 29 else 28)
    else if month == 4 || month == 6 || month == 9 || month == 11 then 30
    else 31
  }

  /** A date `datetime.date` accepts. */
  predicate ValidDate(d: Date)
  {
    1 <= d.year <= 9999 && 1 <= d.month <= 12 && 1 <= d.day <= DaysInMonth(d.month, d.year)
  }

  predicate ValidDateTime(t: DateTime)
  {
    ValidDate(t.date) && 0 <= t.hour < 24 && 0 <= t.minute < 60
  }

  /** Days in the months of `year` before `month`. */
  function DaysBeforeMonth(month: int, year: int): int
    requires 1 <= month <= 12
  {
    [0, 31, 59, 90, 120, 151, 181, 212, 243, 273, 304, 334][month - 1]
      + (if month > 2 && IsLeapYear(year) then 1 else 0)
  }

  /** `date.toordinal()`: 1 for 0001-01-01. */
  function Ordinal(d: Date): int
    requires ValidDate(d)
  {
    var y := d.year - 1;
    365 * y + y / 4 - y / 100 + y / 400 + DaysBeforeMonth(d.month, d.year) + d.day
  }

  /** `date.weekday()`: 0 for Monday up to 6 for Sunday. */
  function Weekday(d: Date): (w: int)
    requires ValidDate(d)
    ensures 0 <= w < 7
  {
    (Ordinal(d) + 6) % 7
  }

  /** The following calendar day (within year 9999). */
  function NextDay(d: Date): Date
    requires ValidDate(d)
  {
    if d.day < DaysInMonth(d.month, d.year) then d.(day := d.day + 1)
    else if d.month < 12 then Date(1, d.month + 1, d.year)
    else Date(1, 1, d.year + 1)
  }

  lemma LeapDays(y: int)
    requires 0 <= y
    ensures (y + 1) / 4 - (y + 1) / 100 + (y + 1) / 400 - (y / 4 - y / 100 + y / 400)
         == if IsLeapYear(y + 1) then 1 else 0
  {
    QuarterStep(y);
    CenturyStep(y);
    QuadCenturyStep(y);
    QuadCenturyIsCentury(y + 1);
    CenturyIsQuarter(y + 1);
  }

  /** A multiple of 400 is a multiple of 100. */
  lemma QuadCenturyIsCentury(z: int)
    ensures z % 400 == 0 ==> z % 100 == 0
  {
    if z % 400 == 0 {
      assert z == 100 * (4 * (z / 400));
    }
  }

  /** A multiple of 100 is a multiple of 4. */
  lemma CenturyIsQuarter(z: int)
    ensures z % 100 == 0 ==> z % 4 == 0
  {
    if z % 100 == 0 {
      assert z == 4 * (25 * (z / 100));
    }
  }

  /** One more year adds a leap-day candidate exactly at a multiple of 4. */
  lemma QuarterStep(y: int)
    requires 0 <= y
    ensures (y + 1) / 4 == y / 4 + (if (y + 1) % 4 == 0 then 1 else 0)
  {
  }

  /** ... and removes one at a multiple of 100. */
  lemma CenturyStep(y: int)
    requires 0 <= y
    ensures (y + 1) / 100 == y / 100 + (if (y + 1) % 100 == 0 then 1 else 0)
  {
  }

  /** ... and restores it at a multiple of 400. */
  lemma QuadCenturyStep(y: int)
    requires 0 <= y
    ensures (y + 1) / 400 == y / 400 + (if (y + 1) % 400 == 0 then 1 else 0)
  {
  }

  /** Consecutive days have consecutive ordinals, so `weekday()` advances by one. */
  lemma NextDayOrdinal(d: Date)
    requires ValidDate(d) && d != Date(31, 12, 9999)
    ensures ValidDate(NextDay(d))
    ensures Ordinal(NextDay(d)) == Ordinal(d) + 1
    ensures Weekday(NextDay(d)) == (Weekday(d) + 1) % 7
  {
    NextDayCounts(d);
    NextWeekday(Ordinal(d) + 6);
  }

  lemma NextWeekday(o: int)
    ensures (o + 1) % 7 == (o % 7 + 1) % 7
  {
  }

  /** The next day is a valid date one ordinal later. */
  lemma NextDayCounts(d: Date)
    requires ValidDate(d) && d != Date(31, 12, 9999)
    ensures ValidDate(NextDay(d)) && Ordinal(NextDay(d)) == Ordinal(d) + 1
  {
    if d.day < DaysInMonth(d.month, d.year) {
    } else if d.month < 12 {
      MonthLengths(d.month, d.year);
    } else {
      YearEndCounts(d.year);
    }
  }

  /** New Year's Day follows the last day of the year by one ordinal. */
  lemma YearEndCounts(year: int)
    requires 1 <= year < 9999
    ensures ValidDate(Date(31, 12, year)) && ValidDate(Date(1, 1, year + 1))
    ensures Ordinal(Date(1, 1, year + 1)) == Ordinal(Date(31, 12, year)) + 1
  {
    LeapDays(year - 1);
    assert DaysBeforeMonth(12, year) == 334 + (if IsLeapYear(year) then 1 else 0);
  }

  /** The days before the next month are those before this one and this
    * month's own. */
  lemma MonthLengths(month: int, year: int)
    requires 1 <= month < 12
    ensures DaysBeforeMonth(month + 1, year) == DaysBeforeMonth(month, year) + DaysInMonth(month, year)
  {
  }

  /** `datetime + timedelta(hours=h)`, rolling over midnight at most once. */
  function AddHours(t: DateTime, h: nat): (r: DateTime)
    requires ValidDateTime(t) && t.date != Date(31, 12, 9999) && h < 24
    ensures ValidDateTime(r) && r.minute == t.minute
    ensures r.date == t.date || r.date == NextDay(t.date)
    ensures (Ordinal(r.date) - Ordinal(t.date)) * 24 + r.hour == t.hour + h
  {
    NextDayOrdinal(t.date);
    if t.hour + h < 24 then t.(hour := t.hour + h)
    else DateTime(NextDay(t.date), t.hour + h - 24, t.minute)
  }

  /** `datetime + timedelta(hours=h)` for any valid time: past the last
    * representable day it is an OverflowError. */
  function AddHoursChecked(t: DateTime, h: nat): (r: Result<DateTime>)
    requires ValidDateTime(t) && h < 24
    ensures r.Ok? ==> ValidDateTime(r.value) && r.value.minute == t.minute
    ensures r.Ok? ==> (Ordinal(r.value.date) - Ordinal(t.date)) * 24 + r.value.hour == t.hour + h
    ensures r.Fail? <==> t.date == Date(31, 12, 9999) && t.hour + h >= 24
  {
    if t.date != Date(31, 12, 9999) then Ok(AddHours(t, h))
    else if t.hour + h < 24 then Ok(t.(hour := t.hour + h))
    else Fail(OverflowError)
  }

  /** The order of the numeric fields in a date format. */
  datatype FieldOrder = DayFirst | YearFirst

  /** `strftime` with `%d{sep}%m{sep}%Y` or `%Y{sep}%m{sep}%d`. */
  function FormatDate(d: Date, order: FieldOrder, sep: char): string
    requires ValidDate(d)
  {
    var dd, mm, yyyy := ZeroPad(d.day, 2), ZeroPad(d.month, 2), ZeroPad(d.year, 4);
    if order == DayFirst then dd + [sep] + mm + [sep] + yyyy else yyyy + [sep] + mm + [sep] + dd
  }

  /** `strptime` with the same formats: one or two digits for day and month,
    * four for the year, nothing else around them, and a real calendar date;
    * anything else is a ValueError (None here). */
  function ParseDate(s: string, order: FieldOrder, sep: char): (r: Option<Date>)
    requires !IsDigit(sep)
    ensures r.Some? ==> ValidDate(r.value)
  {
    var parts := Split(s, [sep]);
    if |parts| != 3 then None
    else
      var dp := if order == DayFirst then parts[0] else parts[2];
      var mp := parts[1];
      var yp := if order == DayFirst then parts[2] else parts[0];
      if 1 <= |dp| <= 2 && AllDigits(dp) && 1 <= |mp| <= 2 && AllDigits(mp) && |yp| == 4 && AllDigits(yp) then
        var d := Date(DigitsValue(dp), DigitsValue(mp), DigitsValue(yp));
        if ValidDate(d) then Some(d) else None
      else None
  }

  /** The three fields of a formatted date, in the format's order. */
  function DateFields(d: Date, order: FieldOrder): seq<string>
    requires ValidDate(d)
  {
    var dd, mm, yyyy := ZeroPad(d.day, 2), ZeroPad(d.month, 2), ZeroPad(d.year, 4);
    if order == DayFirst then [dd, mm, yyyy] else [yyyy, mm, dd]
  }

  /** Splitting a formatted date on its separator gives its fields. */
  lemma SplitFormatted(d: Date, order: FieldOrder, sep: char)
    requires ValidDate(d) && !IsDigit(sep)
    ensures Split(FormatDate(d, order, sep), [sep]) == DateFields(d, order)
  {
    var parts := DateFields(d, order);
    forall k | 0 <= k < 3 ensures sep !in parts[k] {
      if sep in parts[k] {
        var i :| 0 <= i < |parts[k]| && parts[k][i] == sep;
      }
    }
    JoinCons(parts[0], parts[1..], [sep]);
    JoinCons(parts[1], parts[2..], [sep]);
    assert Join(parts, [sep]) == FormatDate(d, order, sep);
    SplitJoin(parts, sep);
  }

  /** Reading back a formatted date gives the date (years 1000 to 9999). */
  lemma FormatParseRoundTrip(d: Date, order: FieldOrder, sep: char)
    requires ValidDate(d) && d.year >= 1000
    requires !IsDigit(sep)
    ensures ParseDate(FormatDate(d, order, sep), order, sep) == Some(d)
  {
    ZeroPadTwo(d.day);
    ZeroPadTwo(d.month);
    NatToStringLength(d.year, 4);
    ZeroPadValue(d.day, 2);
    ZeroPadValue(d.month, 2);
    ZeroPadValue(d.year, 4);
    SplitFormatted(d, order, sep);
  }

  /** The regular expression `[0-9]{2}<sep>[0-9]{2}<sep>[0-9]{4}` matches at `i`. */
  predicate DatePatternAt(s: string, i: int, sep: char)
  {
    0 <= i && i + 10 <= |s|
    && IsDigit(s[i]) && IsDigit(s[i + 1]) && s[i + 2] == sep
    && IsDigit(s[i + 3]) && IsDigit(s[i + 4]) && s[i + 5] == sep
    && IsDigit(s[i + 6]) && IsDigit(s[i + 7]) && IsDigit(s[i + 8]) && IsDigit(s[i + 9])
  }

  /** `re.search` for that pattern from `from`: the leftmost match, or -1. */
  function FindDatePattern(s: string, sep: char, from: nat): (r: int)
    ensures r == -1 || (from <= r && DatePatternAt(s, r, sep))
    ensures r == -1 ==> forall j :: from <= j ==> !DatePatternAt(s, j, sep)
    ensures r >= 0 ==> forall j :: from <= j < r ==> !DatePatternAt(s, j, sep)
    decreases |s| - from
  {
    if from + 10 > |s| then -1
    else if DatePatternAt(s, from, sep) then from
    else FindDatePattern(s, sep, from + 1)
  }

  /** `re.findall` for that pattern: the starts of the non-overlapping
    * matches, left to right. */
  function FindAllDatePatterns(s: string, sep: char, from: nat): (r: seq<nat>)
    ensures forall k :: 0 <= k < |r| ==> from <= r[k] && DatePatternAt(s, r[k], sep)
    ensures |r| == 0 <==> FindDatePattern(s, sep, from) == -1
    ensures |r| > 0 ==> r[0] == FindDatePattern(s, sep, from)
    decreases |s| - from
  {
    var i := FindDatePattern(s, sep, from);
    if i < 0 then [] else [i] + FindAllDatePatterns(s, sep, i + 10)
  }

  /** A formatted date matches the pattern where it stands, and nothing
    * before it matches when no digit precedes it. */
  lemma FormattedDateFound(prefix: string, d: Date, sep: char, rest: string)
    requires ValidDate(d) && d.year >= 1000 && !IsDigit(sep)
    requires forall i :: 0 <= i < |prefix| ==> !IsDigit(prefix[i])
    ensures var s := prefix + FormatDate(d, DayFirst, sep) + rest;
      FindDatePattern(s, sep, 0) == |prefix|
      && s[|prefix|..|prefix| + 10] == FormatDate(d, DayFirst, sep)
  {
    var f := FormatDate(d, DayFirst, sep);
    var s := prefix + f + rest;
    ZeroPadTwo(d.day);
    ZeroPadTwo(d.month);
    NatToStringLength(d.year, 4);
    assert |f| == 10;
    assert s[|prefix|..|prefix| + 10] == f;
    assert DatePatternAt(s, |prefix|, sep);
    forall j | 0 <= j < |prefix| ensures !DatePatternAt(s, j, sep) {
      assert s[j] == prefix[j];
    }
  }
}
