/** UTC date arithmetic as in section 21.4.1 of ECMA-262: a time value is a count of milliseconds,
    and days, months and years are read off the proleptic Gregorian calendar. */
module Calendar {

  function Day(t: int): int {
    t / 86_400_000
  }

  function TimeWithinDay(t: int): int {
    t % 86_400_000
  }

  function WeekDay(t: int): int {
    (Day(t) + 4) % 7
  }

  function MakeDate(day: int, time: int): int {
    86_400_000 * day + time
  }

  function HourTime(hour: int): int {
    3_600_000 * hour
  }

  predicate Leap(y: int) {
    y % 4 == 0 && (y % 100 != 0 || y % 400 == 0)
  }

  function DaysInYear(y: int): int {
    if Leap(y) then 366 else 365
  }

  function DayFromYear(y: int): int {
    365 * (y - 1970) + (y - 1969) / 4 - (y - 1901) / 100 + (y - 1601) / 400
  }

  lemma YearLength(y: int)
    ensures DayFromYear(y + 1) == DayFromYear(y) + DaysInYear(y)
  {
    Step4(y - 1969, y);
    Step100(y - 1901, y);
    Step400(y - 1601, y);
    LeapCases(y);
  }

  lemma LeapCases(y: int)
    ensures y % 100 == 0 ==> y % 4 == 0
    ensures y % 400 == 0 ==> y % 100 == 0
  {
  }

  lemma Step4(x: int, y: int)
    requires x == y - 1969
    ensures (x + 1) / 4 - x / 4 == if y % 4 == 0 then 1 else 0
  {
  }

  lemma Step100(x: int, y: int)
    requires x == y - 1901
    ensures (x + 1) / 100 - x / 100 == if y % 100 == 0 then 1 else 0
  {
  }

  lemma Step400(x: int, y: int)
    requires x == y - 1601
    ensures (x + 1) / 400 - x / 400 == if y % 400 == 0 then 1 else 0
  {
  }

  lemma {:induction false} YearsOrdered(y: int, z: int)
    requires y < z
    ensures DayFromYear(y) + 365 <= DayFromYear(z)
    decreases z - y
  {
    YearLength(z - 1);
    if y < z - 1 { YearsOrdered(y, z - 1); }
  }

  /** Scan forward from a year that has started by `day`. */
  function YearFrom(day: int, y: int): (r: int)
    requires DayFromYear(y) <= day
    ensures DayFromYear(r) <= day < DayFromYear(r + 1)
    decreases day - DayFromYear(y)
  {
    YearLength(y);
    if day < DayFromYear(y + 1) then y else YearFrom(day, y + 1)
  }

  /** A year that has started by `day`. */
  function EarlyYear(day: int): (y: int)
    ensures DayFromYear(y) <= day
  {
    if day >= 0 then 1970 + day / 366 - 1 else 1970 + day / 365 - 1
  }

  /** The largest year that has started by `day`. */
  function YearOfDay(day: int): (y: int)
    ensures DayFromYear(y) <= day < DayFromYear(y + 1)
  {
    YearFrom(day, EarlyYear(day))
  }

  lemma YearIsUnique(day: int, y: int)
    requires DayFromYear(y) <= day < DayFromYear(y + 1)
    ensures YearOfDay(day) == y
  {
    hide DayFromYear, YearOfDay;
    var z := YearOfDay(day);
    if z < y {
      if z + 1 < y { YearsOrdered(z + 1, y); }
    } else if y < z {
      if y + 1 < z { YearsOrdered(y + 1, z); }
    }
  }

  /** Days of the year before month mn (0 is January). */
  function MonthOffset(mn: int, leap: bool): int
    requires 0 <= mn <= 12
  {
    [0, 31, 59, 90, 120, 151, 181, 212, 243, 273, 304, 334, 365][mn] + if leap && mn >= 2 then 1 else 0
  }

  /** Months are numbered from January of year 0; MonthStart is the first day of a month. */
  function MonthStart(m: int): int {
    DayFromYear(m / 12) + MonthOffset(m % 12, Leap(m / 12))
  }

  /** The usual lengths of the months, 0 for January. */
  function DaysInMonth(mn: int, leap: bool): (days: int)
    ensures 28 <= days <= 31
  {
    if mn == 1 then if leap then 29 else 28
    else if mn in {3, 5, 8, 10} then 30
    else 31
  }

  lemma MonthLength(m: int)
    ensures MonthStart(m + 1) - MonthStart(m) == DaysInMonth(m % 12, Leap(m / 12))
  {
    var y, mn := m / 12, m % 12;
    if mn < 11 {
      assert (m + 1) / 12 == y && (m + 1) % 12 == mn + 1;
    } else {
      assert (m + 1) / 12 == y + 1 && (m + 1) % 12 == 0;
      YearLength(y);
    }
  }

  lemma {:induction false} MonthsOrdered(m: int, n: int)
    requires m < n
    ensures MonthStart(m) + 28 <= MonthStart(n)
    decreases n - m
  {
    hide MonthStart;
    MonthLength(n - 1);
    if m < n - 1 { MonthsOrdered(m, n - 1); }
  }

  /** The last month of the year to have started, scanning down from mn. */
  function MonthInYear(dayInYear: int, leap: bool, mn: int): (r: int)
    requires 0 <= mn <= 11 && 0 <= dayInYear < MonthOffset(mn + 1, leap)
    ensures 0 <= r <= 11 && MonthOffset(r, leap) <= dayInYear < MonthOffset(r + 1, leap)
  {
    if MonthOffset(mn, leap) <= dayInYear then mn else MonthInYear(dayInYear, leap, mn - 1)
  }

  function MonthOfYear(day: int, y: int): (mn: int)
    requires DayFromYear(y) <= day < DayFromYear(y + 1)
    ensures 0 <= mn <= 11
    ensures MonthOffset(mn, Leap(y)) <= day - DayFromYear(y) < MonthOffset(mn + 1, Leap(y))
  {
    YearLength(y);
    MonthInYear(day - DayFromYear(y), Leap(y), 11)
  }

  /** The month a day falls in. */
  function MonthOfDay(day: int): (m: int)
    ensures MonthStart(m) <= day < MonthStart(m + 1)
  {
    hide MonthStart, DayFromYear, Leap, MonthOffset;
    var y := YearOfDay(day);
    var mn := MonthOfYear(day, y);
    MonthBounds(y, mn);
    12 * y + mn
  }

  lemma MonthBounds(y: int, mn: int)
    requires 0 <= mn <= 11
    ensures MonthStart(12 * y + mn) == DayFromYear(y) + MonthOffset(mn, Leap(y))
    ensures MonthStart(12 * y + mn + 1) == DayFromYear(y) + MonthOffset(mn + 1, Leap(y))
  {
    hide DayFromYear, Leap;
    SplitMonth(12 * y + mn, y, mn);
    if mn < 11 {
      SplitMonth(12 * y + mn + 1, y, mn + 1);
    } else {
      SplitMonth(12 * y + mn + 1, y + 1, 0);
      YearLength(y);
    }
  }

  lemma SplitMonth(m: int, y: int, mn: int)
    requires m == 12 * y + mn && 0 <= mn <= 11
    ensures m / 12 == y && m % 12 == mn
  {
  }

  lemma MonthIsUnique(day: int, m: int)
    requires MonthStart(m) <= day < MonthStart(m + 1)
    ensures MonthOfDay(day) == m
  {
    hide MonthStart, MonthOfDay;
    var n := MonthOfDay(day);
    if n < m {
      if n + 1 < m { MonthsOrdered(n + 1, m); }
    } else if m < n {
      if m + 1 < n { MonthsOrdered(m + 1, n); }
    }
  }

  function YearFromTime(t: int): int {
    YearOfDay(Day(t))
  }

  function MonthFromTime(t: int): int {
    MonthOfDay(Day(t)) - 12 * YearFromTime(t)
  }

  function DateFromTime(t: int): int {
    Day(t) - MonthStart(MonthOfDay(Day(t))) + 1
  }

  /** The day numbered `date` of month `month` of `year`; month and date may overflow either way. */
  function MakeDay(year: int, month: int, date: int): int {
    MonthStart(12 * (year + month / 12) + month % 12) + date - 1
  }

  /** Year, month and date determine the day, and months run from 0 to 11. */
  lemma DateRoundTrip(t: int)
    ensures MakeDay(YearFromTime(t), MonthFromTime(t), DateFromTime(t)) == Day(t)
    ensures 0 <= MonthFromTime(t) <= 11
    ensures MakeDate(Day(t), TimeWithinDay(t)) == t
  {
    hide MonthStart, DayFromYear, YearOfDay, MonthOfYear;
    var y := YearFromTime(t);
    assert MonthFromTime(t) == MonthOfYear(Day(t), y);
    MakeDayOverflow(y, MonthFromTime(t), DateFromTime(t));
  }

  lemma MakeDayOverflow(year: int, month: int, date: int)
    ensures MakeDay(year, month, date) == MonthStart(12 * year + month) + date - 1
  {
    assert 12 * (year + month / 12) + month % 12 == 12 * year + month;
  }

  lemma DayOfMakeDate(day: int, time: int)
    requires 0 <= time < 86_400_000
    ensures Day(MakeDate(day, time)) == day && TimeWithinDay(MakeDate(day, time)) == time
  {
  }

  // ----- Against the calendar counted day by day -----

  /** Days from 1 January 1970 to 1 January of year y, adding up year lengths one by one. */
  ghost function CountYears(y: int): int
    decreases if y >= 1970 then y - 1970 else 1970 - y
  {
    if y == 1970 then 0
    else if y > 1970 then
      CountYears(y - 1) + if ((y - 1) % 4 == 0 && (y - 1) % 100 != 0) || (y - 1) % 400 == 0 then 366 else 365
    else
      CountYears(y + 1) - if (y % 4 == 0 && y % 100 != 0) || y % 400 == 0 then 366 else 365
  }

  /** The closed formula of the year starts counts the days since 1 January 1970. */
  lemma {:induction false} YearStartsCounted(y: int)
    ensures DayFromYear(y) == CountYears(y)
    decreases if y >= 1970 then y - 1970 else 1970 - y
  {
    if y > 1970 {
      YearStartsCounted(y - 1);
      YearLength(y - 1);
      LeapCases(y - 1);
      hide DayFromYear;
    } else if y < 1970 {
      YearStartsCounted(y + 1);
      YearLength(y);
      LeapCases(y);
      hide DayFromYear;
    }
  }

  /** The length of a month, counted from January of year 0. */
  ghost function MonthDays(m: int): int {
    match m % 12
    case 1 => if (m / 12 % 4 == 0 && m / 12 % 100 != 0) || m / 12 % 400 == 0 then 29 else 28
    case 3 => 30
    case 5 => 30
    case 8 => 30
    case 10 => 30
    case _ => 31
  }

  /** Days from 1 January 1970 to the first of month m, adding up month lengths one by one. */
  ghost function CountMonths(m: int): int
    decreases if m >= 12 * 1970 then m - 12 * 1970 else 12 * 1970 - m
  {
    if m == 12 * 1970 then 0
    else if m > 12 * 1970 then CountMonths(m - 1) + MonthDays(m - 1)
    else CountMonths(m + 1) - MonthDays(m)
  }

  lemma MonthLengthCounted(m: int)
    ensures MonthStart(m + 1) - MonthStart(m) == MonthDays(m)
  {
    MonthLength(m);
    LeapCases(m / 12);
    hide MonthStart;
  }

  lemma FirstMonth()
    ensures MonthStart(12 * 1970) == 0
  {
    assert 12 * 1970 / 12 == 1970 && 12 * 1970 % 12 == 0;
  }

  /** The month starts count the days since 1 January 1970, month by month. */
  lemma {:induction false} MonthStartsCounted(m: int)
    ensures MonthStart(m) == CountMonths(m)
    decreases if m >= 12 * 1970 then m - 12 * 1970 else 12 * 1970 - m
  {
    hide MonthStart, MonthDays;
    if m > 12 * 1970 {
      MonthStartsCounted(m - 1);
      MonthLengthCounted(m - 1);
    } else if m < 12 * 1970 {
      MonthStartsCounted(m + 1);
      MonthLengthCounted(m);
    } else {
      FirstMonth();
    }
  }

  /** An instant is a number of whole days of 24 hours since 1970 and a time within the last one. */
  lemma InstantParts(t: int)
    ensures t == 24 * 60 * 60 * 1_000 * Day(t) + TimeWithinDay(t)
    ensures 0 <= TimeWithinDay(t) < 24 * 60 * 60 * 1_000
  {
  }

  /** Day 0 was a Thursday (4, counting from Sunday), and each day moves the weekday on by one. */
  lemma WeekDaysAdvance(t: int)
    ensures WeekDay(0) == 4 && 0 <= WeekDay(t) < 7
    ensures WeekDay(t + 24 * 60 * 60 * 1_000) == (WeekDay(t) + 1) % 7
    ensures forall u :: Day(u) == Day(t) ==> WeekDay(u) == WeekDay(t)
  {
    assert Day(t + 86_400_000) == Day(t) + 1;
  }
}
