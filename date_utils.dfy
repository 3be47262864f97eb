/**
 * The date helpers: `YYYY-MM-DD` formatting and parsing, ISO 8601 week
 * numbers and the Monday-to-Sunday range of a week. A `Date` is its day
 * number (0 is 1970-01-01) in the proleptic Gregorian calendar of
 * ECMAScript; the time of day and the time zone are not modelled.
 */
module DateUtils {
  import opened Optional
  import opened Text
  import opened Calendar

  // ----- Decimal digits -----

  predicate IsDigit(c: char)
  {
    '0' <= c <= '9'
  }

  predicate AllDigits(s: string)
  {
    forall i :: 0 <= i < |s| ==> IsDigit(s[i])
  }

  function DigitValue(c: char): int
    requires IsDigit(c)
  {
    c as int - '0' as int
  }

  function DigitChar(d: int): (c: char)
    requires 0 <= d < 10
    ensures IsDigit(c) && DigitValue(c) == d
  {
    ('0' as int + d) as char
  }

  /** The value of a string of decimal digits, most significant first; `None` when another character appears. */
  function DecimalValue(s: string): Option<nat>
  {
    if s == [] then Some(0)
    else
      var init := DecimalValue(s[..|s| - 1]);
      if init.None? || !IsDigit(s[|s| - 1]) then None
      else Some(init.value * 10 + DigitValue(s[|s| - 1]))
  }

  /** The number of decimal digits `String(n)` writes. */
  function DigitCount(n: nat): nat
  {
    if n < 10 then 1 else 1 + DigitCount(n / 10)
  }

  /** `String(n)` for a non-negative integer: its decimal digits, without leading zeros. */
  function NatToString(n: nat): (s: string)
    ensures AllDigits(s) && |s| == DigitCount(n)
    ensures DecimalValue(s) == Some(n)
    ensures (s[0] == '0') == (n == 0)
  {
    if n < 10 then [DigitChar(n)]
    else
      var s := NatToString(n / 10) + [DigitChar(n % 10)];
      assert s[..|s| - 1] == NatToString(n / 10);
      s
  }

  /** `String(n)` for any integer. */
  function IntToString(n: int): string
  {
    if n < 0 then "-" + NatToString(-n) else NatToString(n)
  }

  /** `padStart(2, '0')`. */
  function Pad2(s: string): (r: string)
    ensures |s| <= 2 ==> |r| == 2
    ensures |s| >= 2 ==> r == s
  {
    if |s| >= 2 then s else if |s| == 1 then "0" + s else "00"
  }

  lemma {:induction false} LeadingZero(s: string)
    ensures DecimalValue("0" + s) == DecimalValue(s)
  {
    if s != [] {
      var t := "0" + s;
      assert t[..|t| - 1] == "0" + s[..|s| - 1];
      LeadingZero(s[..|s| - 1]);
    }
  }

  /** Two-digit padding keeps the value of a one- or two-digit number. */
  lemma PaddedValue(n: nat)
    requires n < 100
    ensures AllDigits(Pad2(NatToString(n))) && |Pad2(NatToString(n))| == 2
    ensures DecimalValue(Pad2(NatToString(n))) == Some(n)
  {
    if n < 10 {
      LeadingZero(NatToString(n));
    }
  }

  // ----- formatDate -----

  /** The text `formatDate` writes for a calendar date: the year unpadded, month and day padded to two digits. */
  function CivilText(c: Civil): string
    requires Valid(c)
  {
    IntToString(c.year) + "-" + Pad2(NatToString(c.month)) + "-" + Pad2(NatToString(c.day))
  }

  /** `formatDate(date)`: for a year from 0 on, the text splits at its dashes into the year, month and day. */
  function FormatDate(z: int): (s: string)
    ensures var c := CivilFromDays(z);
      c.year >= 0 ==> ReadFields(Split(s, '-')) == Some((c.year, c.month, c.day))
  {
    var c := CivilFromDays(z);
    TextFields(c);
    CivilText(c)
  }

  lemma TextFields(c: Civil)
    requires Valid(c)
    ensures c.year >= 0 ==> ReadFields(Split(CivilText(c), '-')) == Some((c.year, c.month, c.day))
  {
    if c.year >= 0 {
      ReadCivilText(c);
    }
  }

  /** For a four-digit year the text is `YYYY-MM-DD`: ten characters, dashes at 4 and 7, the fields the digits of the year, month and day. */
  lemma FormatShape(z: int)
    requires 1000 <= CivilFromDays(z).year <= 9999
    ensures var s := FormatDate(z); var c := CivilFromDays(z);
      |s| == 10 && s[4] == '-' && s[7] == '-'
      && s[..4] == NatToString(c.year) && s[5..7] == Pad2(NatToString(c.month)) && s[8..] == Pad2(NatToString(c.day))
  {
    TextShape(CivilFromDays(z));
  }

  lemma TextShape(c: Civil)
    requires Valid(c) && 1000 <= c.year <= 9999
    ensures var s := CivilText(c);
      |s| == 10 && s[4] == '-' && s[7] == '-'
      && s[..4] == NatToString(c.year) && s[5..7] == Pad2(NatToString(c.month)) && s[8..] == Pad2(NatToString(c.day))
  {
    CivilTextFields(c);
    FourDigits(c.year);
    PaddedValue(c.month);
    PaddedValue(c.day);
    FieldsShape(NatToString(c.year), Pad2(NatToString(c.month)), Pad2(NatToString(c.day)));
  }

  lemma CivilTextFields(c: Civil)
    requires Valid(c) && c.year >= 0
    ensures CivilText(c) == NatToString(c.year) + "-" + Pad2(NatToString(c.month)) + "-" + Pad2(NatToString(c.day))
  {
  }

  lemma FourDigits(n: nat)
    requires 1000 <= n <= 9999
    ensures DigitCount(n) == 4
  {
    assert DigitCount(n / 10 / 10 / 10) == 1;
    assert DigitCount(n / 10 / 10) == 2;
    assert DigitCount(n / 10) == 3;
  }

  lemma FieldsShape(y: string, m: string, d: string)
    requires |y| == 4 && |m| == 2 && |d| == 2
    ensures var s := y + "-" + m + "-" + d;
      |s| == 10 && s[4] == '-' && s[7] == '-' && s[..4] == y && s[5..7] == m && s[8..] == d
  {
  }

  // ----- parseDate -----

  /**
   * `Number(s)`: white space around the digits is ignored, an empty or blank
   * string is 0, digits (optionally after `+`) give their value; anything else
   * is NaN, `None` here.
   */
  function ToNumber(s: string): (r: Option<int>)
    ensures s != [] && AllDigits(s) ==> r == DecimalValue(s)
    ensures Trim(s) == [] ==> r == Some(0)
  {
    DigitsTrimmed(s);
    var t := Trim(s);
    if t == [] then Some(0)
    else if t[0] == '+' then (if |t| > 1 then DecimalValue(t[1..]) else None)
    else DecimalValue(t)
  }

  lemma DigitsTrimmed(s: string)
    ensures s != [] && AllDigits(s) ==> IsTrimmed(s)
  {
    if s != [] && AllDigits(s) {
      assert IsDigit(s[0]) && IsDigit(s[|s| - 1]);
    }
  }

  /** Day numbers a `Date` can hold: 8.64e15 milliseconds either side of the epoch. */
  const MaxDays := 100000000

  /** The full year `new Date` and `Date.UTC` read from a year argument: 0 to 99 stand for 1900 to 1999. */
  function FullYear(year: int): int
  {
    if 0 <= year <= 99 then 1900 + year else year
  }

  /** `Date.UTC(year, monthIndex, day)` as a day number: months and days out of range roll over. */
  function UtcDay(year: int, monthIndex: int, day: int): int
  {
    MakeDay(FullYear(year), monthIndex, day)
  }

  /** For a month index from 0 to 11, `MakeDay` is the day number of that day of that month. */
  lemma MonthDay(year: int, monthIndex: int, day: int)
    ensures 0 <= monthIndex < 12 ==> MakeDay(year, monthIndex, day) == DaysFromCivil(year, monthIndex + 1, day)
  {
    if 0 <= monthIndex < 12 {
      MakeDayInMonth(year, monthIndex + 1, day);
      DaysLinear(year, monthIndex + 1, day);
    }
  }

  /**
   * `new Date(year, monthIndex, day)`: the day of that month of the full year;
   * out-of-range months and days roll over; beyond the time range the date is
   * invalid.
   */
  function NewDate(year: int, monthIndex: int, day: int): (r: Option<int>)
    ensures r.Some? ==> -MaxDays <= r.value <= MaxDays
    ensures 0 <= monthIndex < 12 ==>
      var z := DaysFromCivil(FullYear(year), monthIndex + 1, day);
      (r.Some? <==> -MaxDays <= z <= MaxDays) && (r.Some? ==> r.value == z)
  {
    var z := UtcDay(year, monthIndex, day);
    MonthDay(FullYear(year), monthIndex, day);
    if -MaxDays <= z <= MaxDays then Some(z) else None
  }

  /** The numbers of the first three fields, when there are three and each reads as a number. */
  function ReadFields(parts: seq<string>): Option<(int, int, int)>
  {
    if |parts| < 3 then None
    else
      var year := ToNumber(parts[0]);
      var month := ToNumber(parts[1]);
      var day := ToNumber(parts[2]);
      if year.None? || month.None? || day.None? then None
      else Some((year.value, month.value, day.value))
  }

  /** `parseDate(dateStr)`: `None` stands for an Invalid Date, which is what fewer than three fields give. */
  function ParseDate(s: string): (r: Option<int>)
    ensures |Split(s, '-')| < 3 ==> r.None?
    ensures r.Some? ==> -MaxDays <= r.value <= MaxDays
  {
    DateOfFields(ReadFields(Split(s, '-')))
  }

  function DateOfFields(fields: Option<(int, int, int)>): Option<int>
  {
    if fields.None? then None
    else NewDate(fields.value.0, fields.value.1 - 1, fields.value.2)
  }

  lemma NoDashInDigits(s: string)
    requires AllDigits(s)
    ensures '-' !in s
  {
  }

  lemma DashJoin(a: string, b: string, tail: string)
    ensures a + "-" + b + "-" + tail == a + ['-'] + (b + ['-'] + tail)
  {
  }

  lemma SplitDashes(a: string, b: string, tail: string)
    requires '-' !in a && '-' !in b
    ensures Split(a + ['-'] + (b + ['-'] + tail), '-') == [a, b] + Split(tail, '-')
  {
    SplitFirst(b, '-', tail);
    SplitFirst(a, '-', b + ['-'] + tail);
  }

  /** Two dash-free fields in front of a text split off as its first two fields. */
  lemma SplitTwo(a: string, b: string, tail: string)
    requires '-' !in a && '-' !in b
    ensures Split(a + "-" + b + "-" + tail, '-') == [a, b] + Split(tail, '-')
  {
    DashJoin(a, b, tail);
    SplitDashes(a, b, tail);
  }

  /** The text of a valid date with a non-negative year reads back as its year, month and day. */
  lemma ReadCivilText(c: Civil)
    requires Valid(c) && c.year >= 0
    ensures ReadFields(Split(CivilText(c), '-')) == Some((c.year, c.month, c.day))
  {
    var y, m, d := NatToString(c.year), Pad2(NatToString(c.month)), Pad2(NatToString(c.day));
    PaddedValue(c.month);
    PaddedValue(c.day);
    NoDashInDigits(y);
    NoDashInDigits(m);
    NoDashInDigits(d);
    SplitThree(y, m, d);
    ReadThree(y, m, d, c.year, c.month, c.day);
  }

  lemma ReadThree(a: string, b: string, c: string, y: int, m: int, d: int)
    requires ToNumber(a) == Some(y) && ToNumber(b) == Some(m) && ToNumber(c) == Some(d)
    ensures ReadFields([a, b, c]) == Some((y, m, d))
  {
  }

  /** Reading back the text of a valid date (year 100 or later, within range) gives that date. */
  lemma ParseCivilText(c: Civil)
    requires Valid(c) && c.year >= 100
    requires -MaxDays <= DaysFromCivil(c.year, c.month, c.day) <= MaxDays
    ensures ParseDate(CivilText(c)) == Some(DaysFromCivil(c.year, c.month, c.day))
  {
    ReadCivilText(c);
    LaterYearDate(c.year, c.month, c.day);
  }

  /** From the year 100 on, `new Date(y, m - 1, d)` within the time range is that day of that year. */
  lemma LaterYearDate(y: int, m: int, d: int)
    requires y >= 100 && 1 <= m <= 12
    requires -MaxDays <= DaysFromCivil(y, m, d) <= MaxDays
    ensures DateOfFields(Some((y, m, d))) == Some(DaysFromCivil(y, m, d))
  {
    assert FullYear(y) == y;
  }

  /** `parseDate(formatDate(d))` is `d` again for years from 100 on. */
  lemma ParseFormat(z: int)
    requires CivilFromDays(z).year >= 100 && -MaxDays <= z <= MaxDays
    ensures ParseDate(FormatDate(z)) == Some(z)
  {
    var c := CivilFromDays(z);
    DaysOfCivil(z);
    ParseCivilText(c);
  }

  /** A canonical date text read back and formatted again is the same text. */
  lemma FormatParse(c: Civil)
    requires Valid(c) && c.year >= 100
    requires -MaxDays <= DaysFromCivil(c.year, c.month, c.day) <= MaxDays
    ensures ParseDate(CivilText(c)).Some?
    ensures FormatDate(ParseDate(CivilText(c)).value) == CivilText(c)
  {
    ParseCivilText(c);
    CivilOfDays(c);
  }

  lemma SplitThree(a: string, b: string, c: string)
    requires '-' !in a && '-' !in b && '-' !in c
    ensures Split(a + "-" + b + "-" + c, '-') == [a, b, c]
  {
    SplitTwo(a, b, c);
    assert Split(c, '-') == [c];
  }

  lemma SplitMore(a: string, b: string, c: string, rest: string)
    requires '-' !in a && '-' !in b && '-' !in c
    ensures Split(a + "-" + b + "-" + c + "-" + rest, '-') == [a, b, c] + Split(rest, '-')
  {
    DashJoin(a, b, c + "-" + rest);
    DashFour(a, b, c, rest);
    SplitDashes(a, b, c + ['-'] + rest);
    SplitFirst(c, '-', rest);
  }

  lemma DashFour(a: string, b: string, c: string, rest: string)
    ensures a + "-" + b + "-" + c + "-" + rest == a + "-" + b + "-" + (c + ['-'] + rest)
  {
  }

  /** Only the first three fields count: anything after a third dash is ignored. */
  lemma ExtraFieldsIgnored(a: string, b: string, c: string, rest: string)
    requires '-' !in a && '-' !in b && '-' !in c
    ensures ParseDate(a + "-" + b + "-" + c + "-" + rest) == ParseDate(a + "-" + b + "-" + c)
  {
    var long, short := a + "-" + b + "-" + c + "-" + rest, a + "-" + b + "-" + c;
    SplitMore(a, b, c, rest);
    SplitThree(a, b, c);
    ReadPrefix([a, b, c], Split(rest, '-'));
    SameFields(long, short);
  }

  lemma SameFields(s: string, t: string)
    requires ReadFields(Split(s, '-')) == ReadFields(Split(t, '-'))
    ensures ParseDate(s) == ParseDate(t)
  {
  }

  lemma ReadPrefix(p: seq<string>, q: seq<string>)
    requires |p| == 3
    ensures ReadFields(p + q) == ReadFields(p)
  {
    assert (p + q)[0] == p[0] && (p + q)[1] == p[1] && (p + q)[2] == p[2];
  }

  /** Fewer than three dash-separated fields is an Invalid Date. */
  lemma TooFewFields(a: string, b: string)
    requires '-' !in a && '-' !in b
    ensures ParseDate(a) == None && ParseDate(a + "-" + b) == None
  {
    SplitFirst(a, '-', b);
    assert a + "-" + b == a + ['-'] + b;
  }

  // ----- Weeks -----

  /** `getUTCDay() || 7`: 1 for Monday to 7 for Sunday. */
  function IsoWeekday(z: int): (w: int)
    ensures 1 <= w <= 7 && w % 7 == Weekday(z)
  {
    if Weekday(z) == 0 then 7 else Weekday(z)
  }

  /** The Monday of the Monday-to-Sunday week holding day `z`. */
  function MondayOf(z: int): (m: int)
    ensures m <= z <= m + 6
    ensures Weekday(m) == 1
  {
    var m := z - IsoWeekday(z) + 1;
    MondayIsMonday(z, m);
    m
  }

  lemma MondayIsMonday(z: int, m: int)
    requires m == z - IsoWeekday(z) + 1
    ensures Weekday(m) == 1
  {
    var k := (z + 4) / 7;
    assert z + 4 == 7 * k + Weekday(z);
    if Weekday(z) == 0 {
      assert m + 4 == 7 * (k - 1) + 1;
    } else {
      assert m + 4 == 7 * k + 1;
    }
  }

  /** Two days less than a week apart fall on the same weekday only when they are the same day. */
  lemma SameWeekday(a: int, b: int)
    requires Weekday(a) == Weekday(b) && a - 7 < b < a + 7
    ensures a == b
  {
    var p, q := (a + 4) / 7, (b + 4) / 7;
    assert a - b == 7 * (p - q);
  }

  /** A Monday on or at most six days before `z` is `MondayOf(z)`. */
  lemma MondayUnique(z: int, m: int)
    requires Weekday(m) == 1 && m <= z <= m + 6
    ensures MondayOf(z) == m
  {
    SameWeekday(MondayOf(z), m);
  }

  /** The Sunday six days after a Monday. */
  lemma SundayAfter(m: int)
    requires Weekday(m) == 1
    ensures Weekday(m + 6) == 0
  {
    var k := (m + 4) / 7;
    assert m + 6 + 4 == 7 * (k + 1);
  }

  /** The Thursday of the Monday-to-Sunday week holding `z`. */
  function ThursdayOf(z: int): int
  {
    MondayOf(z) + 3
  }

  /** An ISO 8601 week: the year of its Thursday and its number within that year. */
  datatype Week = Week(year: int, number: int)

  /**
   * The ISO 8601 week of day `z`: weeks run Monday to Sunday and belong to the
   * year of their Thursday; week 1 is the one holding that year's first
   * Thursday, and each week after it counts one more.
   */
  function IsoWeek(z: int): Week
  {
    ThursdayWeek(ThursdayOf(z))
  }

  /** The week of a Thursday: its year, and one more than the whole weeks since the first of January. */
  function ThursdayWeek(thursday: int): Week
  {
    var year := CivilFromDays(thursday).year;
    Week(year, (thursday - DaysFromCivil(year, 1, 1)) / 7 + 1)
  }

  /** The text `getWeekNumber` returns: the year, `-W` and the week number padded to two digits. */
  function WeekLabel(w: Week): string
  {
    IntToString(w.year) + "-W" + Pad2(IntToString(w.number))
  }

  /** `Math.ceil(a / b)` for a positive divisor. */
  function CeilDiv(a: int, b: int): (q: int)
    requires b > 0
    ensures b * (q - 1) < a <= b * q
  {
    (a + b - 1) / b
  }

  lemma WeekCount(k: int)
    requires k >= 0
    ensures CeilDiv(k + 1, 7) == k / 7 + 1
  {
    var q := CeilDiv(k + 1, 7);
    assert 7 * (k / 7) <= k < 7 * (k / 7) + 7;
    assert 7 * (q - 1) < k + 1 <= 7 * q;
  }

  /** The source's count for a Thursday: `ceil((days since the first of January + 1) / 7)`, as its week. */
  lemma ThursdayCount(t: int)
    ensures var year := CivilFromDays(t).year;
      ThursdayWeek(t) == Week(year, CeilDiv(t - MakeDay(year, 0, 1) + 1, 7))
  {
    var year := CivilFromDays(t).year;
    MakeDayInMonth(year, 1, 1);
    DayOfYearBound(t);
    WeekCount(t - DaysFromCivil(year, 1, 1));
  }

  /** `d.setUTCDate(d.getUTCDate() + 4 - dayNum)` lands on the Thursday. */
  lemma MoveToThursday(date: int, dayNum: int)
    requires dayNum == IsoWeekday(date)
    ensures SetDate(date, CivilFromDays(date).day + 4 - dayNum) == ThursdayOf(date)
  {
  }

  /** `new Date(Date.UTC(date.getFullYear(), date.getMonth(), date.getDate()))`: the same calendar day, with a year from 0 to 99 read as 1900 to 1999. */
  function UtcCopy(date: int): int
  {
    var c := CivilFromDays(date);
    UtcDay(c.year, c.month - 1, c.day)
  }

  /**
   * The week `getWeekNumber` reports for a date: the count of the Thursday of
   * the Monday-to-Sunday week of the date's `Date.UTC` copy.
   */
  function ReportedWeek(date: int): Week
  {
    UtcCount(ThursdayOf(UtcCopy(date)))
  }

  /** A day's year, and its ordinal week counted from the first of January of that year as `Date.UTC` builds it. */
  function UtcCount(t: int): Week
  {
    var year := CivilFromDays(t).year;
    Week(year, CeilDiv(t - UtcDay(year, 0, 1) + 1, 7))
  }

  /**
   * `getWeekNumber(date)`: copies the date with `Date.UTC` and moves the copy
   * to the Thursday of its week, then counts whole weeks from the first of
   * January of that Thursday's year.
   */
  method GetWeekNumber(date: int) returns (weekText: string)
    ensures weekText == WeekLabel(ReportedWeek(date))
  {
    var d := UtcThursday(date);
    var year := CivilFromDays(d).year;
    var yearStart := UtcDay(year, 0, 1);
    var weekNo := CeilDiv(d - yearStart + 1, 7);
    WeekNumberSteps(date, d, year, weekNo);
    weekText := IntToString(year) + "-W" + Pad2(IntToString(weekNo));
  }

  /** The year and count `getWeekNumber` computes from the Thursday are the reported week. */
  lemma WeekNumberSteps(date: int, d: int, year: int, weekNo: int)
    requires d == ThursdayOf(UtcCopy(date))
    requires year == CivilFromDays(d).year
    requires weekNo == CeilDiv(d - UtcDay(year, 0, 1) + 1, 7)
    ensures ReportedWeek(date) == Week(year, weekNo)
  {
    ReportedOfThursday(date, d);
  }

  /**
   * The first three lines of `getWeekNumber`: the `Date.UTC` copy of the date,
   * its weekday from 1 for Monday to 7 for Sunday, and `setUTCDate` to the
   * Thursday of its week.
   */
  method UtcThursday(date: int) returns (d: int)
    ensures d == ThursdayOf(UtcCopy(date))
  {
    d := UtcCopy(date);
    var dayNum := Weekday(d);
    if dayNum == 0 {
      dayNum := 7;
    }
    MoveToThursday(d, dayNum);
    d := SetDate(d, CivilFromDays(d).day + 4 - dayNum);
  }

  /** Outside the years 0 to 99, for the date and for its Thursday, the reported week is the ISO 8601 week. */
  lemma ReportedIsIso(date: int)
    requires !(0 <= CivilFromDays(date).year <= 99)
    requires !(0 <= CivilFromDays(ThursdayOf(date)).year <= 99)
    ensures ReportedWeek(date) == IsoWeek(date)
  {
    CopyOfLaterYear(date);
    CountFromJanuary(ThursdayOf(date));
  }

  /** In the years 0 to 99 the reported week is the ISO 8601 week of the same day 1900 years later. */
  lemma ReportedTwoDigitYear(date: int)
    requires 0 <= CivilFromDays(date).year <= 99
    ensures var c := CivilFromDays(date);
      ReportedWeek(date) == IsoWeek(DaysFromCivil(1900 + c.year, c.month, c.day))
  {
    var c := CivilFromDays(date);
    var m := DaysFromCivil(1900 + c.year, c.month, c.day);
    CopyOfTwoDigitYear(date);
    LateDay(1900 + c.year, c.month, c.day);
    FarFromTwoDigitYears(ThursdayOf(m));
    CountFromJanuary(ThursdayOf(m));
  }

  lemma CopyOfLaterYear(date: int)
    requires !(0 <= CivilFromDays(date).year <= 99)
    ensures UtcCopy(date) == date
  {
    var c := CivilFromDays(date);
    DaysOfCivil(date);
    MonthDay(c.year, c.month - 1, c.day);
  }

  lemma CopyOfTwoDigitYear(date: int)
    requires 0 <= CivilFromDays(date).year <= 99
    ensures var c := CivilFromDays(date); UtcCopy(date) == DaysFromCivil(1900 + c.year, c.month, c.day)
  {
    var c := CivilFromDays(date);
    TwoDigitUtcDay(c.year, c.month, c.day);
  }

  /** `Date.UTC` of a year from 0 to 99 names the same month and day of 1900 plus that year. */
  lemma TwoDigitUtcDay(year: int, month: int, day: int)
    requires 0 <= year <= 99 && 1 <= month <= 12
    ensures UtcDay(year, month - 1, day) == DaysFromCivil(1900 + year, month, day)
  {
    MonthDay(1900 + year, month - 1, day);
  }

  /** For a Thursday outside the years 0 to 99, `Date.UTC` finds the first of January the ISO count starts from. */
  lemma CountFromJanuary(t: int)
    requires !(0 <= CivilFromDays(t).year <= 99)
    ensures ThursdayWeek(t) == UtcCount(t)
  {
    MonthDay(CivilFromDays(t).year, 0, 1);
    ThursdayCount(t);
  }

  /** A day of a month of 1900 or later is well past the years 0 to 99. */
  lemma LateDay(y: int, m: int, d: int)
    requires y >= 1900 && 1 <= m <= 12 && d >= 1
    ensures DaysFromCivil(y, m, d) > -600000
  {
  }

  /** A day more than 600000 days before 1970 is needed to fall in the years 0 to 99. */
  lemma FarFromTwoDigitYears(t: int)
    requires t >= -600003
    ensures !(0 <= CivilFromDays(t).year <= 99)
  {
    DayOfYearBound(t);
  }

  /** 4 January of the year 50 is reported in the first week of 1950, while its ISO 8601 week is the first of the year 50. */
  lemma YearFiftyWeek()
    ensures ReportedWeek(DaysFromCivil(50, 1, 4)) == Week(1950, 1)
    ensures IsoWeek(DaysFromCivil(50, 1, 4)) == Week(50, 1)
  {
    CivilOfDays(Civil(50, 1, 4));
    ReportedTwoDigitYear(DaysFromCivil(50, 1, 4));
    FourthOfJanuary(1950);
    FourthOfJanuary(50);
  }

  /**
   * 1 January 100 is a Friday, in the last week of the year 99; its count
   * starts from 1 January 1999, so the reported week number is negative.
   */
  lemma CenturyStartWeek()
    ensures ReportedWeek(DaysFromCivil(100, 1, 1)).year == 99
    ensures ReportedWeek(DaysFromCivil(100, 1, 1)).number < 0
  {
    var z := DaysFromCivil(100, 1, 1);
    CopyOfLaterYear100(z);
    FridayBefore(z);
    ReportedOfThursday(z, z - 1);
    LastDayOf99(z - 1);
  }

  lemma ReportedOfThursday(date: int, t: int)
    requires t == ThursdayOf(UtcCopy(date))
    ensures ReportedWeek(date) == UtcCount(t)
  {
  }

  /** 31 December 99 is counted from 1 January 1999: a negative week of the year 99. */
  lemma LastDayOf99(t: int)
    requires t == DaysFromCivil(99, 12, 31)
    ensures UtcCount(t).year == 99 && UtcCount(t).number < 0
  {
    CivilAt(Civil(99, 12, 31), t);
    MonthDay(1999, 0, 1);
    LateDay(1999, 1, 1);
    EarlyDay(99, 12, 31);
  }

  /** A day of the years 0 to 99 lies more than 600000 days before 1970. */
  lemma EarlyDay(y: int, m: int, d: int)
    requires 0 <= y <= 99 && 1 <= m <= 12 && 1 <= d <= 31
    ensures DaysFromCivil(y, m, d) < -600010
  {
  }

  lemma CopyOfLaterYear100(z: int)
    requires z == DaysFromCivil(100, 1, 1)
    ensures UtcCopy(z) == z
  {
    CivilAt(Civil(100, 1, 1), z);
    CopyOfLaterYear(z);
  }

  /** 1 January 100 is a Friday: its Thursday is the day before. */
  lemma FridayBefore(z: int)
    requires z == DaysFromCivil(100, 1, 1)
    ensures ThursdayOf(z) == z - 1 && z - 1 == DaysFromCivil(99, 12, 31)
  {
    assert z == -683003;
    assert DaysFromCivil(99, 12, 31) == -683004;
    assert Weekday(z) == 5;
    MondayUnique(z, z - 4);
  }

  /** Week numbers run from 1 to 53. */
  lemma WeekNumberRange(z: int)
    ensures 1 <= IsoWeek(z).number <= 53
  {
    ThursdayWeekRange(ThursdayOf(z));
  }

  lemma ThursdayWeekRange(t: int)
    ensures 1 <= ThursdayWeek(t).number <= 53
  {
    DayOfYearBound(t);
  }

  lemma SameThursday(a: int, b: int)
    requires ThursdayOf(a) == ThursdayOf(b)
    ensures IsoWeek(a) == IsoWeek(b)
  {
  }

  lemma ThursdayInWeek(z: int, i: int)
    requires 0 <= i < 7
    ensures ThursdayOf(MondayOf(z) + i) == ThursdayOf(z)
  {
    MondayUnique(MondayOf(z) + i, MondayOf(z));
  }

  /** All seven days from a Monday to the Sunday after it have the same week. */
  lemma SameWeek(z: int, i: int)
    requires 0 <= i < 7
    ensures IsoWeek(MondayOf(z) + i) == IsoWeek(z)
  {
    ThursdayInWeek(z, i);
    SameThursday(MondayOf(z) + i, z);
  }

  lemma ThursdayShift(z: int)
    ensures ThursdayOf(z + 7) == ThursdayOf(z) + 7
  {
    WeekdayShift(MondayOf(z), 1);
    MondayUnique(z + 7, MondayOf(z) + 7);
  }

  lemma ThursdayWeekNext(t: int)
    requires ThursdayWeek(t + 7).year == ThursdayWeek(t).year
    ensures ThursdayWeek(t + 7).number == ThursdayWeek(t).number + 1
  {
    var j := DaysFromCivil(ThursdayWeek(t).year, 1, 1);
    assert (t + 7 - j) / 7 == (t - j) / 7 + 1;
  }

  /** A week later, within the same year, the week number is one more. */
  lemma NextWeek(z: int)
    requires IsoWeek(z + 7).year == IsoWeek(z).year
    ensures IsoWeek(z + 7).number == IsoWeek(z).number + 1
  {
    ThursdayShift(z);
    ThursdayWeekNext(ThursdayOf(z));
  }

  /** A Thursday in the first seven days of January is in week 1 of that year. */
  lemma EarlyThursday(y: int, t: int)
    requires DaysFromCivil(y, 1, 1) <= t < DaysFromCivil(y, 1, 1) + 7
    ensures ThursdayWeek(t) == Week(y, 1)
  {
    EarlyJanuary(y, t - DaysFromCivil(y, 1, 1), t);
  }

  lemma EarlyJanuary(y: int, k: int, t: int)
    requires 0 <= k < 7 && t == DaysFromCivil(y, 1, 1) + k
    ensures CivilFromDays(t).year == y
  {
    DaysShift(y, 1, 1, k);
    CivilAt(Civil(y, 1, 1 + k), t);
  }

  /** The fourth of January is always in week 1 of its own year. */
  lemma FourthOfJanuary(y: int)
    ensures IsoWeek(DaysFromCivil(y, 1, 4)) == Week(y, 1)
  {
    DaysLinear(y, 1, 4);
    EarlyThursday(y, ThursdayOf(DaysFromCivil(y, 1, 4)));
  }

  // ----- getWeekRange -----

  /** A week as its first and last day. */
  datatype Range = Range(start: int, end: int)

  /** The Monday-to-Sunday week holding `z`. */
  function WeekRange(z: int): Range
  {
    Range(MondayOf(z), MondayOf(z) + 6)
  }

  /** The range starts on a Monday, ends on the Sunday six days later and holds `z`. */
  lemma WeekRangeHolds(z: int)
    ensures var r := WeekRange(z);
      Weekday(r.start) == 1 && Weekday(r.end) == 0 && r.end == r.start + 6 && r.start <= z <= r.end
  {
    SundayAfter(MondayOf(z));
  }

  /** Its first and last day are in the ISO week of `z`. */
  lemma WeekRangeIsIsoWeek(z: int)
    ensures IsoWeek(WeekRange(z).start) == IsoWeek(z) && IsoWeek(WeekRange(z).end) == IsoWeek(z)
  {
    StartWeek(z);
    EndWeek(z);
  }

  lemma StartWeek(z: int)
    ensures IsoWeek(WeekRange(z).start) == IsoWeek(z)
  {
    var m := MondayOf(z);
    MondayUnique(m, m);
    SameThursday(m, z);
  }

  lemma EndWeek(z: int)
    ensures IsoWeek(WeekRange(z).end) == IsoWeek(z)
  {
    SameWeek(z, 6);
  }

  /** `diff` in `getWeekRange`: the Monday's day counted in the date's own month. */
  function MondayDiff(z: int): int
  {
    var day := Weekday(z);
    CivilFromDays(z).day - day + (if day == 0 then -6 else 1)
  }

  lemma MondayDiffMeans(z: int)
    ensures MondayDiff(z) == CivilFromDays(z).day - (z - MondayOf(z))
    ensures SetDate(z, MondayDiff(z)) == MondayOf(z)
  {
  }

  /**
   * The range as `getWeekRange` computes it. The end is set with
   * `setDate(diff + 6)` on the date already moved to the Monday, so it is day
   * `diff + 6` of the Monday's month: the Sunday when the Monday is in the
   * date's own month (`diff >= 1`), an early day of the Monday's month
   * otherwise.
   */
  function WeekRangeAsWritten(z: int): Range
  {
    var m := MondayOf(z);
    var diff := CivilFromDays(z).day - (z - m);
    if diff >= 1 then Range(m, m + 6) else Range(m, DayInMonthOf(m, diff + 6))
  }

  /** Day `k` of the month holding day `z`. */
  function DayInMonthOf(z: int, k: int): int
  {
    var c := CivilFromDays(z);
    DaysFromCivil(c.year, c.month, k)
  }

  /** Going back fewer days than the day of the month stays in the same month. */
  lemma BackInMonth(z: int, w: int)
    requires w <= z && z - w < CivilFromDays(z).day
    ensures CivilFromDays(w).day == CivilFromDays(z).day - (z - w)
  {
    DaysOfCivil(z);
    ShiftInCivilMonth(CivilFromDays(z), w - z, w);
  }

  /** Going forward from `m` while the day of the month stays at most 28 stays in the same month. */
  lemma ForwardInMonth(m: int, z: int)
    requires m <= z && CivilFromDays(m).day + (z - m) <= 28
    ensures CivilFromDays(z).day == CivilFromDays(m).day + (z - m)
  {
    DaysOfCivil(m);
    ShiftInCivilMonth(CivilFromDays(m), z - m, z);
  }

  lemma ShiftInCivilMonth(c: Civil, k: int, z: int)
    requires Valid(c) && 1 <= c.day + k <= DaysInMonth(c.year, c.month) && z == DaysFromCivil(c.year, c.month, c.day) + k
    ensures CivilFromDays(z) == Civil(c.year, c.month, c.day + k)
  {
    DaysShift(c.year, c.month, c.day, k);
    CivilAt(Civil(c.year, c.month, c.day + k), z);
  }

  /** `setDate(date)` counts `date - 1` days on from the first of the month, whatever the range of `date`. */
  lemma SetDateDays(z: int, date: int)
    ensures var c := CivilFromDays(z); SetDate(z, date) == DaysFromCivil(c.year, c.month, date)
  {
    var c := CivilFromDays(z);
    DaysOfCivil(z);
    DaysLinear(c.year, c.month, c.day);
    DaysLinear(c.year, c.month, date);
  }

  /** The second `setDate(diff + 6)`, on the Monday, gives the source's end. */
  lemma AsWrittenEnd(z: int)
    ensures SetDate(MondayOf(z), MondayDiff(z) + 6) == WeekRangeAsWritten(z).end
  {
    if MondayDiff(z) >= 1 {
      SameMonthEnd(z);
    } else {
      OtherMonthEnd(z);
    }
  }

  lemma SameMonthEnd(z: int)
    requires MondayDiff(z) >= 1
    ensures SetDate(MondayOf(z), MondayDiff(z) + 6) == MondayOf(z) + 6
    ensures WeekRangeAsWritten(z).end == MondayOf(z) + 6
  {
    MondayDiffMeans(z);
    BackInMonth(z, MondayOf(z));
  }

  lemma OtherMonthEnd(z: int)
    requires MondayDiff(z) < 1
    ensures SetDate(MondayOf(z), MondayDiff(z) + 6) == WeekRangeAsWritten(z).end
  {
    MondayDiffMeans(z);
    SetDateDays(MondayOf(z), MondayDiff(z) + 6);
  }

  /** Setting the day of the month to the current day plus `k` moves `k` days on. */
  lemma SetDateOn(z: int, k: int)
    ensures SetDate(z, CivilFromDays(z).day + k) == z + k
  {
  }

  /** The days `getWeekRange` as written moves to: the Monday, then day `diff + 6` of the Monday's month. */
  lemma AsWrittenSteps(date: int, monday: int, sunday: int)
    requires monday == SetDate(date, MondayDiff(date))
    requires sunday == SetDate(monday, MondayDiff(date) + 6)
    ensures monday == WeekRangeAsWritten(date).start && sunday == WeekRangeAsWritten(date).end
  {
    MondayDiffMeans(date);
    AsWrittenEnd(date);
  }

  /**
   * `getWeekRange(date)` as written: `d.setDate(diff)` moves `d` to the
   * Monday, and `d.setDate(diff + 6)` then counts from the Monday's month.
   */
  method GetWeekRangeAsWritten(date: int) returns (start: string, end: string)
    ensures start == FormatDate(WeekRangeAsWritten(date).start)
    ensures end == FormatDate(WeekRangeAsWritten(date).end)
  {
    var d := date;
    var diff := MondayDiff(d);
    d := SetDate(d, diff);
    var monday := d;
    d := SetDate(d, diff + 6);
    var sunday := d;
    AsWrittenSteps(date, monday, sunday);
    start := FormatDate(monday);
    end := FormatDate(sunday);
  }

  /** The days the corrected `getWeekRange` moves to: the Monday, then six days on. */
  lemma CorrectedSteps(date: int, monday: int, sunday: int)
    requires monday == SetDate(date, MondayDiff(date))
    requires sunday == SetDate(monday, CivilFromDays(monday).day + 6)
    ensures monday == WeekRange(date).start && sunday == WeekRange(date).end
  {
    MondayDiffMeans(date);
    SetDateOn(monday, 6);
  }

  /**
   * `getWeekRange(date)` with the end taken six days on from the Monday
   * (`d.setDate(d.getDate() + 6)`), which is the Sunday in every month.
   */
  method GetWeekRange(date: int) returns (start: string, end: string)
    ensures start == FormatDate(WeekRange(date).start)
    ensures end == FormatDate(WeekRange(date).end)
  {
    var d := date;
    var diff := MondayDiff(d);
    d := SetDate(d, diff);
    var monday := d;
    d := SetDate(d, CivilFromDays(d).day + 6);
    var sunday := d;
    CorrectedSteps(date, monday, sunday);
    start := FormatDate(monday);
    end := FormatDate(sunday);
  }

  /** When the Monday is in the date's own month, the source's range is the week. */
  lemma AsWrittenInMonth(z: int)
    requires CivilFromDays(z).day > z - MondayOf(z)
    ensures WeekRangeAsWritten(z) == WeekRange(z)
  {
  }

  /** Otherwise the end is day `diff + 6`, between 1 and 6, of the Monday's month. */
  lemma AsWrittenAcrossMonths(z: int)
    requires CivilFromDays(z).day <= z - MondayOf(z)
    ensures var cm := CivilFromDays(MondayOf(z)); var c := CivilFromDays(WeekRangeAsWritten(z).end);
      c.year == cm.year && c.month == cm.month && c.day == CivilFromDays(z).day - (z - MondayOf(z)) + 6
      && 1 <= c.day <= 6
  {
    var m := MondayOf(z);
    EarlyInMonth(m, CivilFromDays(z).day - (z - m) + 6);
  }

  /** And then the end the source computes comes before the Monday it starts from. */
  lemma AsWrittenEndBeforeStart(z: int)
    requires CivilFromDays(z).day <= z - MondayOf(z)
    ensures WeekRangeAsWritten(z).end < WeekRangeAsWritten(z).start
  {
    var m := MondayOf(z);
    if CivilFromDays(m).day <= 6 {
      ForwardInMonth(m, z);
      assert false;
    }
    SetDateDays(m, CivilFromDays(z).day - (z - m) + 6);
  }

  lemma EarlyInMonth(m: int, k: int)
    requires 1 <= k <= 6
    ensures var cm := CivilFromDays(m); var c := CivilFromDays(DayInMonthOf(m, k));
      c.year == cm.year && c.month == cm.month && c.day == k
  {
    var cm := CivilFromDays(m);
    CivilOfDays(Civil(cm.year, cm.month, k));
  }

  /**
   * 2024-05-01, a Wednesday: the source gives the range 2024-04-29 to
   * 2024-04-05, whose end is before its start.
   */
  lemma WeekRangeEndBeforeDate(z: int)
    requires z == 19844
    ensures CivilFromDays(z) == Civil(2024, 5, 1)
    ensures var r := WeekRangeAsWritten(z);
      CivilFromDays(r.start) == Civil(2024, 4, 29) && r.end == DaysFromCivil(2024, 4, 5) && r.end < r.start
  {
    MayFirst();
    StartOfMayFirst(z);
    EndOfMayFirst(z);
    OrderOfMayFirst(z);
  }

  lemma StartOfMayFirst(z: int)
    requires z == 19844
    ensures CivilFromDays(WeekRangeAsWritten(z).start) == Civil(2024, 4, 29)
  {
    MayFirstMonday(z);
    AprilTwentyNinth();
  }

  lemma EndOfMayFirst(z: int)
    requires z == 19844
    ensures WeekRangeAsWritten(z).end == DaysFromCivil(2024, 4, 5)
  {
    AsWrittenEndOfMayFirst(z);
    AprilFifth(MondayOf(z));
  }

  lemma OrderOfMayFirst(z: int)
    requires z == 19844
    ensures WeekRangeAsWritten(z).end < WeekRangeAsWritten(z).start
  {
    MayFirstMonday(z);
    AsWrittenEndBeforeStart(z);
  }

  lemma MayFirst()
    ensures CivilFromDays(19844) == Civil(2024, 5, 1)
  {
    CivilAt(Civil(2024, 5, 1), 19844);
  }

  lemma AprilTwentyNinth()
    ensures CivilFromDays(19842) == Civil(2024, 4, 29)
  {
    CivilAt(Civil(2024, 4, 29), 19842);
  }

  lemma MondayIs19842(m: int)
    requires m == 19842
    ensures Weekday(m) == 1
  {
  }

  lemma MayFirstMonday(z: int)
    requires z == 19844
    ensures MondayOf(z) == 19842 && CivilFromDays(z).day == 1
  {
    MayFirst();
    MondayIs19842(z - 2);
    MondayUnique(z, z - 2);
  }

  lemma AsWrittenEndOfMayFirst(z: int)
    requires z == 19844
    ensures MondayOf(z) == 19842 && WeekRangeAsWritten(z).end == DayInMonthOf(MondayOf(z), 5)
  {
    MayFirstMonday(z);
  }

  lemma AprilFifth(m: int)
    requires m == 19842
    ensures DayInMonthOf(m, 5) == DaysFromCivil(2024, 4, 5)
  {
    AprilTwentyNinth();
  }
}
