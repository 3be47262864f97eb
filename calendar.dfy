/**
 * The proleptic Gregorian calendar of ECMAScript's `Date`: calendar dates and
 * day numbers (0 is 1970-01-01) in both directions, the day of the week, and
 * the `MakeDay` and `setDate` arithmetic the date helpers rely on.
 */
module Calendar {
  datatype Civil = Civil(year: int, month: int, day: int)

  predicate IsLeapYear(y: int)
  {
    y % 4 == 0 && (y % 100 != 0 || y % 400 == 0)
  }

  function DaysInMonth(y: int, m: int): int
    requires 1 <= m <= 12
  {
    if m == 2 then (if IsLeapYear(y) then 29 else 28)
    else if m == 4 || m == 6 || m == 9 || m == 11 then 30
    else 31
  }

  predicate Valid(c: Civil)
  {
    1 <= c.month <= 12 && 1 <= c.day <= DaysInMonth(c.year, c.month)
  }

  function MarchYearStart(yoe: int): int
  {
    365 * yoe + yoe / 4 - yoe / 100
  }

  function MonthStart(mp: int): int
  {
    (153 * mp + 2) / 5
  }

  function YearLength(yoe: int): int
  {
    if IsLeapYear(yoe + 1) then 366 else 365
  }

  function DaysFromCivil(y: int, m: int, d: int): int
    requires 1 <= m <= 12
  {
    var y' := if m <= 2 then y - 1 else y;
    var era := y' / 400;
    var yoe := y' - era * 400;
    var mp := if m > 2 then m - 3 else m + 9;
    era * 146097 + MarchYearStart(yoe) + MonthStart(mp) + d - 1 - 719468
  }

  datatype MarchPos = MarchPos(era: int, yoe: int, doy: int)

  /** The last century of an era and the last year of a four-year cycle are one day longer. */
  function Capped(n: int): int
  {
    if n < 3 then n else 3
  }

  /** A day of a 400-year era split into the year of the era and the day of that (March-based) year. */
  function YearOfEraDay(doe: int): (p: MarchPos)
    requires 0 <= doe < 146097
    ensures p.era == 0 && 0 <= p.yoe < 400 && 0 <= p.doy < YearLength(p.yoe)
    ensures doe == MarchYearStart(p.yoe) + p.doy
  {
    var c := Capped(doe / 36524);
    var r := doe - 36524 * c;
    var q := r / 1461;
    var s := r - 1461 * q;
    var t := Capped(s / 365);
    var yoe := 100 * c + 4 * q + t;
    assert yoe / 4 == 25 * c + q;
    assert yoe / 100 == c;
    assert yoe % 4 == t && yoe % 100 == 4 * q + t;
    MarchPos(0, yoe, s - 365 * t)
  }

  function EraPos(z: int): (p: MarchPos)
    ensures 0 <= p.yoe < 400 && 0 <= p.doy < YearLength(p.yoe)
    ensures z == p.era * 146097 + MarchYearStart(p.yoe) + p.doy - 719468
  {
    var z' := z + 719468;
    var era := z' / 146097;
    var inEra := YearOfEraDay(z' - era * 146097);
    MarchPos(era, inEra.yoe, inEra.doy)
  }

  /** The decomposition of a day of the era into century, four-year cycle and year. */
  lemma EraSplit(yoe: int)
    requires 0 <= yoe < 400
    ensures MarchYearStart(yoe) == 36524 * (yoe / 100) + 1461 * (yoe % 100 / 4) + 365 * (yoe % 4)
  {
  }

  /** Within an era, a day of the March-based year splits back into century, four-year cycle and year. */
  lemma YearOfEraDayUnique(yoe: int, doy: int)
    requires 0 <= yoe < 400 && 0 <= doy < YearLength(yoe)
    ensures 0 <= MarchYearStart(yoe) + doy < 146097
    ensures YearOfEraDay(MarchYearStart(yoe) + doy) == MarchPos(0, yoe, doy)
  {
    EraSplit(yoe);
    CenturyUnique(yoe, doy);
    CycleUnique(yoe, doy);
  }

  lemma CenturyUnique(yoe: int, doy: int)
    requires 0 <= yoe < 400 && 0 <= doy < YearLength(yoe)
    ensures Capped((MarchYearStart(yoe) + doy) / 36524) == yoe / 100
  {
    var c, q, t := yoe / 100, yoe % 100 / 4, yoe % 4;
    EraSplit(yoe);
    assert c < 3 && q == 24 && t == 3 ==> doy < 365;
  }

  lemma CycleUnique(yoe: int, doy: int)
    requires 0 <= yoe < 400 && 0 <= doy < YearLength(yoe)
    ensures (1461 * (yoe % 100 / 4) + 365 * (yoe % 4) + doy) / 1461 == yoe % 100 / 4
    ensures Capped((365 * (yoe % 4) + doy) / 365) == yoe % 4
  {
    assert doy == 365 ==> yoe % 4 == 3;
  }

  lemma EraPosUnique(z: int, era: int, yoe: int, doy: int)
    requires 0 <= yoe < 400 && 0 <= doy < YearLength(yoe)
    requires z == era * 146097 + MarchYearStart(yoe) + doy - 719468
    ensures EraPos(z) == MarchPos(era, yoe, doy)
  {
    YearOfEraDayUnique(yoe, doy);
    EraOfDay(z + 719468, era, MarchYearStart(yoe) + doy);
  }

  lemma EraOfDay(a: int, era: int, x: int)
    requires 0 <= x < 146097 && a == era * 146097 + x
    ensures a / 146097 == era && a - era * 146097 == x
  {
  }

  function MonthOf(doy: int): (mp: int)
    requires 0 <= doy < 366
    ensures 0 <= mp < 12 && MonthStart(mp) <= doy
    ensures mp < 11 ==> doy < MonthStart(mp + 1)
  {
    (5 * doy + 2) / 153
  }

  lemma MonthStartBelow(a: int, b: int)
    requires a < b
    ensures MonthStart(a) < MonthStart(b)
  {
  }

  lemma MonthOfUnique(mp: int, doy: int)
    requires 0 <= mp < 12 && MonthStart(mp) <= doy < 366
    requires mp < 11 ==> doy < MonthStart(mp + 1)
    ensures MonthOf(doy) == mp
  {
    var m := MonthOf(doy);
    if m < mp {
      MonthStartBelow(m, mp);
      if m + 1 < mp { MonthStartBelow(m + 1, mp); }
    } else if mp < m {
      MonthStartBelow(mp, m);
      if mp + 1 < m { MonthStartBelow(mp + 1, m); }
    }
  }

  /** March-based month `mp` (0 for March) as a calendar month, 1 to 12. */
  function CalendarMonth(mp: int): int
  {
    if mp < 10 then mp + 3 else mp - 9
  }

  /** The length of March-based month `mp` of the March-based year `yoe`. */
  lemma MonthLength(mp: int, yoe: int, year: int)
    requires 0 <= mp < 12 && 0 <= yoe < 400
    requires CalendarMonth(mp) == 2 ==> IsLeapYear(year) == IsLeapYear(yoe + 1)
    ensures (if mp < 11 then MonthStart(mp + 1) else YearLength(yoe)) - MonthStart(mp)
         == DaysInMonth(year, CalendarMonth(mp))
  {
    if mp == 0 {} else if mp == 1 {} else if mp == 2 {} else if mp == 3 {}
    else if mp == 4 {} else if mp == 5 {} else if mp == 6 {} else if mp == 7 {}
    else if mp == 8 {} else if mp == 9 {} else if mp == 10 {} else {}
  }

  lemma LeapPeriodic(y: int, era: int)
    ensures IsLeapYear(y + era * 400) == IsLeapYear(y)
  {
    ModShift(y, era * 100, 4);
    ModShift(y, era * 4, 100);
    ModShift(y, era, 400);
  }

  lemma ModShift(y: int, k: int, n: int)
    requires n == 4 || n == 100 || n == 400
    ensures (y + k * n) % n == y % n
  {
    if n == 4 {
      RemainderOf(y + k * 4, 4, y / 4 + k, y % 4);
    } else if n == 100 {
      RemainderOf(y + k * 100, 100, y / 100 + k, y % 100);
    } else {
      RemainderOf(y + k * 400, 400, y / 400 + k, y % 400);
    }
  }

  /** A remainder in range, with its quotient, is the one `%` gives. */
  lemma RemainderOf(x: int, n: int, q: int, r: int)
    requires n > 0 && x == n * q + r && 0 <= r < n
    ensures x % n == r
  {
    var d := x / n - q;
    assert n * d == r - x % n;
    MultipleBounds(n, d);
  }

  /** A nonzero multiple of a positive `n` is at least `n` away from 0. */
  lemma MultipleBounds(n: int, d: int)
    requires n > 0
    ensures d >= 1 ==> n * d >= n
    ensures d <= -1 ==> n * d <= -n
  {
  }

  /** The calendar date at a position of the March-based era. */
  function CivilOf(p: MarchPos): (c: Civil)
    requires 0 <= p.yoe < 400 && 0 <= p.doy < YearLength(p.yoe)
    ensures Valid(c)
  {
    var mp := MonthOf(p.doy);
    var m := CalendarMonth(mp);
    var year := p.yoe + p.era * 400 + (if m <= 2 then 1 else 0);
    YearOfMonth(p.yoe, p.era, mp);
    MonthLength(mp, p.yoe, year);
    Civil(year, m, p.doy - MonthStart(mp) + 1)
  }

  /** January and February belong to the calendar year after the March-based year; either way the leap rule is that of `yoe + 1`. */
  lemma YearOfMonth(yoe: int, era: int, mp: int)
    requires 0 <= mp < 12
    ensures CalendarMonth(mp) == 2 ==>
      IsLeapYear(yoe + era * 400 + (if CalendarMonth(mp) <= 2 then 1 else 0)) == IsLeapYear(yoe + 1)
  {
    LeapPeriodic(yoe + 1, era);
  }

  /** The calendar date of day number `z` (0 is 1970-01-01), proleptic Gregorian as ECMAScript's Date. */
  function CivilFromDays(z: int): (c: Civil)
    ensures Valid(c)
  {
    CivilOf(EraPos(z))
  }

  lemma YearOfEra(yoe: int, era: int)
    requires 0 <= yoe < 400
    ensures (yoe + era * 400) / 400 == era
  {
  }

  /** Every day number is the day number of its calendar date. */
  lemma DaysOfCivil(z: int)
    ensures var c := CivilFromDays(z); DaysFromCivil(c.year, c.month, c.day) == z
  {
    DaysOfPosition(EraPos(z));
  }

  lemma DaysOfPosition(p: MarchPos)
    requires 0 <= p.yoe < 400 && 0 <= p.doy < YearLength(p.yoe)
    ensures var c := CivilOf(p); DaysFromCivil(c.year, c.month, c.day) == p.era * 146097 + MarchYearStart(p.yoe) + p.doy - 719468
  {
    var mp := MonthOf(p.doy);
    var c := CivilOf(p);
    assert (if c.month <= 2 then c.year - 1 else c.year) == p.yoe + p.era * 400;
    YearOfEra(p.yoe, p.era);
    assert (if c.month > 2 then c.month - 3 else c.month + 9) == mp;
  }

  /** Every valid calendar date is the calendar date of its day number. */
  lemma CivilOfDays(c: Civil)
    requires Valid(c)
    ensures CivilFromDays(DaysFromCivil(c.year, c.month, c.day)) == c
  {
    var y' := if c.month <= 2 then c.year - 1 else c.year;
    var era := y' / 400;
    var yoe := y' - era * 400;
    var mp := if c.month > 2 then c.month - 3 else c.month + 9;
    var doy := MonthStart(mp) + c.day - 1;
    assert CalendarMonth(mp) == c.month;
    YearOfMonth(yoe, era, mp);
    MonthLength(mp, yoe, c.year);
    assert doy < YearLength(yoe) by {
      if mp < 10 { MonthStartBelow(mp + 1, 11); }
    }
    EraPosUnique(DaysFromCivil(c.year, c.month, c.day), era, yoe, doy);
    MonthOfUnique(mp, doy);
  }

  /** `getDay`: 0 for Sunday to 6 for Saturday; day 0, 1970-01-01, was a Thursday. */
  function Weekday(z: int): (w: int)
    ensures 0 <= w < 7
  {
    (z + 4) % 7
  }

  lemma WeekdayShift(z: int, k: int)
    ensures Weekday(z + 7 * k) == Weekday(z)
  {
    assert z + 4 + 7 * k == 7 * ((z + 4) / 7 + k) + (z + 4) % 7;
  }

  /**
   * ECMAScript's MakeDay: day `date` of the month `monthIndex` (0 for January;
   * larger or negative values count on into other years) of `year`. A `date`
   * beyond the month's length runs on into the following months.
   */
  function MakeDay(year: int, monthIndex: int, date: int): int
  {
    DaysFromCivil(year + monthIndex / 12, monthIndex % 12 + 1, 1) + date - 1
  }

  /** `setDate(date)`: the day `date` of the same month, found by moving `date` minus the current day of the month. */
  function SetDate(z: int, date: int): int
  {
    z + (date - CivilFromDays(z).day)
  }

  /** This is ECMAScript's `setDate`: `MakeDay` of the same year and month with the new day, whatever its range. */
  lemma SetDateIsMakeDay(z: int, date: int)
    ensures var c := CivilFromDays(z); SetDate(z, date) == MakeDay(c.year, c.month - 1, date)
  {
    var c := CivilFromDays(z);
    DaysOfCivil(z);
    MakeDayInMonth(c.year, c.month, date);
    DaysLinear(c.year, c.month, c.day);
  }

  lemma MakeDayInMonth(y: int, m: int, date: int)
    requires 1 <= m <= 12
    ensures MakeDay(y, m - 1, date) == DaysFromCivil(y, m, 1) + date - 1
  {
    assert (m - 1) / 12 == 0 && (m - 1) % 12 + 1 == m;
  }

  lemma DaysLinear(y: int, m: int, d: int)
    requires 1 <= m <= 12
    ensures DaysFromCivil(y, m, d) == DaysFromCivil(y, m, 1) + d - 1
  {
  }

  /** Moving `k` days within a month's numbering moves the day number by `k`. */
  lemma DaysShift(y: int, m: int, d: int, k: int)
    requires 1 <= m <= 12
    ensures DaysFromCivil(y, m, d) + k == DaysFromCivil(y, m, d + k)
  {
    DaysLinear(y, m, d);
    DaysLinear(y, m, d + k);
  }

  /** The day number of a valid date gives back that date. */
  lemma CivilAt(c: Civil, z: int)
    requires Valid(c) && z == DaysFromCivil(c.year, c.month, c.day)
    ensures CivilFromDays(z) == c
  {
    CivilOfDays(c);
  }

  lemma JanuaryFirst(era: int, yoe: int)
    requires 0 <= yoe < 400
    ensures DaysFromCivil(yoe + era * 400 + 1, 1, 1) == era * 146097 + MarchYearStart(yoe) + 306 - 719468
  {
    YearOfEra(yoe, era);
  }

  lemma LeapStep(yoe: int)
    requires 1 <= yoe < 400
    ensures MarchYearStart(yoe) - MarchYearStart(yoe - 1) == YearLength(yoe - 1)
  {
  }

  /** A day lies 0 to 365 days after the first of January of its year. */
  lemma DayOfYearBound(z: int)
    ensures 0 <= z - DaysFromCivil(CivilFromDays(z).year, 1, 1) <= 365
  {
    var p := EraPos(z);
    PositionDayOfYear(p);
  }

  /** The offset from the first of January, stated on a March-based position. */
  lemma PositionDayOfYear(p: MarchPos)
    requires 0 <= p.yoe < 400 && 0 <= p.doy < YearLength(p.yoe)
    ensures var z := p.era * 146097 + MarchYearStart(p.yoe) + p.doy - 719468;
      0 <= z - DaysFromCivil(CivilOf(p).year, 1, 1) <= 365
  {
    YearOfPosition(p);
    var year := CivilOf(p).year;
    if MonthOf(p.doy) >= 10 {
      JanuaryFirst(p.era, p.yoe);
    } else if p.yoe > 0 {
      JanuaryBefore(p.era, p.yoe);
    } else {
      JanuaryFirst(p.era - 1, 399);
      assert year == 399 + (p.era - 1) * 400 + 1;
    }
  }

  /** The first of January inside the March-based year before `yoe`. */
  lemma JanuaryBefore(era: int, yoe: int)
    requires 1 <= yoe < 400
    ensures DaysFromCivil(yoe + era * 400, 1, 1) == era * 146097 + MarchYearStart(yoe) - YearLength(yoe - 1) + 306 - 719468
  {
    JanuaryFirst(era, yoe - 1);
    LeapStep(yoe);
  }

  lemma YearOfPosition(p: MarchPos)
    requires 0 <= p.yoe < 400 && 0 <= p.doy < YearLength(p.yoe)
    ensures CivilOf(p).year == p.yoe + p.era * 400 + (if MonthOf(p.doy) >= 10 then 1 else 0)
    ensures MonthOf(p.doy) >= 10 ==> p.doy >= 306
    ensures MonthOf(p.doy) < 10 ==> p.doy < 306
  {
    if MonthOf(p.doy) < 9 {
      MonthStartBelow(MonthOf(p.doy) + 1, 10);
    }
  }
}
