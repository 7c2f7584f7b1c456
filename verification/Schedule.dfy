/** Next-run computation for payment schedules. */
module Schedule {
  import opened Types
  import opened Calendar

  const MAX_TIME: int := 8_640_000_000_000_000

  /** A time value, or an invalid date. */
  type TimeValue = Option<int>

  predicate InRange(t: int) {
    -MAX_TIME <= t <= MAX_TIME
  }

  function TimeClip(t: int): TimeValue {
    if InRange(t) then Some(t) else None
  }

  /** A JavaScript Date, changed in place by its setters. */
  class UtcDate {
    var time: TimeValue

    constructor (t: TimeValue)
      ensures time == t
    {
      time := t;
    }

    /** Same month and time of day; `date` may overflow the month. */
    method SetUTCDate(date: int)
      modifies this
      ensures time == WithDate(old(time), date)
    {
      if time.Some? {
        var t := time.value;
        time := TimeClip(MakeDate(MakeDay(YearFromTime(t), MonthFromTime(t), date), TimeWithinDay(t)));
      }
    }

    /** Same date of month and time of day; `month` may overflow the year. */
    method SetUTCMonth(month: int)
      modifies this
      ensures time == WithMonth(old(time), month)
    {
      if time.Some? {
        var t := time.value;
        time := TimeClip(MakeDate(MakeDay(YearFromTime(t), month, DateFromTime(t)), TimeWithinDay(t)));
      }
    }

    /** Same day, at the given hour exactly. */
    method SetUTCHours(hour: int)
      modifies this
      ensures time == WithHour(old(time), hour)
    {
      if time.Some? { time := TimeClip(MakeDate(Day(time.value), HourTime(hour))); }
    }
  }

  function WithDate(t: TimeValue, date: int): TimeValue {
    if t.None? then None
    else TimeClip(MakeDate(MakeDay(YearFromTime(t.value), MonthFromTime(t.value), date), TimeWithinDay(t.value)))
  }

  function WithMonth(t: TimeValue, month: int): TimeValue {
    if t.None? then None
    else TimeClip(MakeDate(MakeDay(YearFromTime(t.value), month, DateFromTime(t.value)), TimeWithinDay(t.value)))
  }

  function WithHour(t: TimeValue, hour: int): TimeValue {
    if t.None? then None else TimeClip(MakeDate(Day(t.value), HourTime(hour)))
  }

  // ----- What a schedule asks for -----

  predicate AtHour(t: int, hour: int) {
    TimeWithinDay(t) == HourTime(hour)
  }

  /** A monthly slot: the requested date of some month, at the hour. */
  predicate MonthlySlot(t: int, dom: int, hour: int) {
    DateFromTime(t) == dom && AtHour(t, hour)
  }

  /** A weekly slot: the requested weekday, at the hour. */
  predicate WeeklySlot(t: int, dow: int, hour: int) {
    WeekDay(t) == dow && AtHour(t, hour)
  }

  /** An interval slot: a whole number of intervals from the anchor's day, at the hour. */
  predicate IntervalSlot(t: int, anchor: int, interval: int, hour: int)
    requires interval >= 1
  {
    (Day(t) - Day(anchor)) % interval == 0 && AtHour(t, hour)
  }

  function Clamp(day: int): (r: int)
    ensures 1 <= r <= 28
  {
    if day < 1 then 1 else if day > 28 then 28 else day
  }

  /** The result is the first slot strictly after `now`. */
  ghost predicate FirstAfter(slot: int -> bool, now: int, r: int) {
    slot(r) && now < r && forall t :: now < t < r ==> !slot(t)
  }

  /** Clamping takes a day outside 1 to 28 to the nearer end, and keeps the others. */
  lemma ClampIsNearest(day: int)
    ensures 1 <= day <= 28 ==> Clamp(day) == day
    ensures day < 1 ==> Clamp(day) == 1
    ensures day > 28 ==> Clamp(day) == 28
  {
  }

  // ----- Monthly -----

  /** The slot of month m. */
  function MonthlyAt(m: int, dom: int, hour: int): int {
    MakeDate(MonthStart(m) + dom - 1, HourTime(hour))
  }

  lemma MonthlyAtIsSlot(m: int, dom: int, hour: int)
    requires 1 <= dom <= 28 && 0 <= hour <= 23
    ensures MonthlySlot(MonthlyAt(m, dom, hour), dom, hour)
    ensures MonthOfDay(Day(MonthlyAt(m, dom, hour))) == m
  {
    hide MonthStart, MonthOfDay;
    MonthLength(m);
    DayOfMakeDate(MonthStart(m) + dom - 1, HourTime(hour));
    MonthIsUnique(MonthStart(m) + dom - 1, m);
  }

  lemma SlotIsMonthlyAt(t: int, dom: int, hour: int)
    requires MonthlySlot(t, dom, hour)
    ensures t == MonthlyAt(MonthOfDay(Day(t)), dom, hour)
  {
    hide MonthStart, MonthOfDay;
  }

  /** The monthly slots, with days counted month by month from 1 January 1970. */
  lemma MonthlySlotIff(t: int, dom: int, hour: int)
    requires 1 <= dom <= 28 && 0 <= hour <= 23
    ensures MonthlySlot(t, dom, hour) <==> exists m :: t == 60 * 60 * 1_000 * (24 * (CountMonths(m) + dom - 1) + hour)
  {
    hide MonthStart, MonthOfDay, MonthlySlot;
    if MonthlySlot(t, dom, hour) {
      var m := MonthOfDay(Day(t));
      SlotIsMonthlyAt(t, dom, hour);
      MonthStartsCounted(m);
      assert t == 60 * 60 * 1_000 * (24 * (CountMonths(m) + dom - 1) + hour);
    }
    forall m | t == 60 * 60 * 1_000 * (24 * (CountMonths(m) + dom - 1) + hour) ensures MonthlySlot(t, dom, hour) {
      MonthStartsCounted(m);
      MonthlyAtIsSlot(m, dom, hour);
    }
  }

  lemma MonthlyAtOrdered(m: int, n: int, dom: int, hour: int)
    requires m < n
    ensures MonthlyAt(m, dom, hour) + 28 * 86_400_000 <= MonthlyAt(n, dom, hour)
  {
    hide MonthStart;
    MonthsOrdered(m, n);
  }

  /** Two consecutive monthly slots have none between them, so the first of them after `now` is the
      first of all. */
  lemma MonthlyFirstAfter(now: int, m: int, dom: int, hour: int)
    requires 1 <= dom <= 28 && 0 <= hour <= 23
    requires MonthlyAt(m - 1, dom, hour) <= now < MonthlyAt(m, dom, hour)
    ensures FirstAfter(t => MonthlySlot(t, dom, hour), now, MonthlyAt(m, dom, hour))
  {
    hide MonthStart, MonthOfDay, MonthlyAt;
    MonthlyAtIsSlot(m, dom, hour);
    forall t | now < t < MonthlyAt(m, dom, hour) ensures !MonthlySlot(t, dom, hour) {
      if MonthlySlot(t, dom, hour) {
        var k := MonthOfDay(Day(t));
        SlotIsMonthlyAt(t, dom, hour);
        if k < m - 1 { MonthlyAtOrdered(k, m - 1, dom, hour); }
        if m < k { MonthlyAtOrdered(m, k, dom, hour); }
      }
    }
  }

  lemma WithDateValue(t: int, dom: int)
    ensures WithDate(Some(t), dom) == TimeClip(MakeDate(MonthStart(MonthOfDay(Day(t))) + dom - 1, TimeWithinDay(t)))
  {
    hide MonthStart, MonthOfDay, YearOfDay, MakeDay, TimeClip, MakeDate, TimeWithinDay;
    MakeDayOverflow(YearFromTime(t), MonthFromTime(t), dom);
  }

  /** Set to the requested date and hour, a valid result is the slot of the month it started in. */
  lemma ThisMonth(t: int, dom: int, hour: int)
    requires 1 <= dom <= 28 && 0 <= hour <= 23
    ensures var c := WithHour(WithDate(Some(t), dom), hour);
      && (c.Some? ==> c.value == MonthlyAt(MonthOfDay(Day(t)), dom, hour))
      && (-MAX_TIME + 40 * 86_400_000 <= t <= MAX_TIME - 40 * 86_400_000 ==> c.Some?)
  {
    hide MonthStart, MonthOfDay, WithDate, DaysInMonth;
    WithDateValue(t, dom);
    MonthLength(MonthOfDay(Day(t)));
    DayOfMakeDate(MonthStart(MonthOfDay(Day(t))) + dom - 1, TimeWithinDay(t));
  }

  /** Moving a slot of month m one month on and setting its date again gives the slot of month m + 1. */
  lemma NextMonth(m: int, dom: int, hour: int)
    requires 1 <= dom <= 28 && 0 <= hour <= 23
    ensures var t := MonthlyAt(m, dom, hour);
      var c := WithHour(WithDate(WithMonth(Some(t), MonthFromTime(t) + 1), dom), hour);
      && (c.Some? ==> c.value == MonthlyAt(m + 1, dom, hour))
      && (-MAX_TIME + 80 * 86_400_000 <= t <= MAX_TIME - 80 * 86_400_000 ==> c.Some?)
  {
    hide MonthStart, MonthOfDay, MonthlyAt, WithDate, WithMonth, WithHour, MonthFromTime;
    var t, u := MonthlyAt(m, dom, hour), MonthlyAt(m + 1, dom, hour);
    WithMonthValue(m, dom, hour);
    MonthlyAtIsSlot(m + 1, dom, hour);
    MonthlyAtClose(m, dom, hour);
    if WithMonth(Some(t), MonthFromTime(t) + 1).Some? {
      ThisMonth(u, dom, hour);
    } else {
      NoDateStays(dom, hour);
    }
  }

  lemma WithMonthValue(m: int, dom: int, hour: int)
    requires 1 <= dom <= 28 && 0 <= hour <= 23
    ensures var t := MonthlyAt(m, dom, hour);
      WithMonth(Some(t), MonthFromTime(t) + 1) == TimeClip(MonthlyAt(m + 1, dom, hour))
  {
    hide MonthlyAt, MonthOfDay, MakeDay, YearFromTime, MonthFromTime, DateFromTime, TimeClip, Day, MakeDate, TimeWithinDay,
         HourTime, MonthStart;
    var t := MonthlyAt(m, dom, hour);
    MonthlyAtIsSlot(m, dom, hour);
    MonthNumber(t);
    DayOfMonth(YearFromTime(t), MonthFromTime(t) + 1, dom, m + 1);
    MonthlyAtValue(m + 1, dom, hour);
  }

  lemma MonthNumber(t: int)
    ensures 12 * YearFromTime(t) + MonthFromTime(t) == MonthOfDay(Day(t))
  {
  }

  lemma MonthlyAtValue(m: int, dom: int, hour: int)
    ensures MonthlyAt(m, dom, hour) == MakeDate(MonthStart(m) + dom - 1, HourTime(hour))
  {
  }

  lemma DayOfMonth(year: int, month: int, date: int, m: int)
    requires 12 * year + month == m
    ensures MakeDay(year, month, date) == MonthStart(m) + date - 1
  {
    MakeDayOverflow(year, month, date);
  }

  lemma MonthlyAtClose(m: int, dom: int, hour: int)
    ensures MonthlyAt(m, dom, hour) < MonthlyAt(m + 1, dom, hour) <= MonthlyAt(m, dom, hour) + 31 * 86_400_000
  {
    hide MonthStart;
    MonthLength(m);
  }

  /** What the program computes: this month's slot, or next month's if that is not after `now`. */
  function MonthlyResult(now: TimeValue, dayOfMonth: int, hour: int): TimeValue {
    var dom := Clamp(dayOfMonth);
    var candidate := WithHour(WithDate(now, dom), hour);
    if candidate.Some? && now.Some? && candidate.value <= now.value
    then WithHour(WithDate(WithMonth(candidate, MonthFromTime(candidate.value) + 1), dom), hour)
    else candidate
  }

  /** A valid result is the first instant after `now` with the requested (clamped) date of month at
      the requested hour, at most 31 days away; away from the ends of the representable range the
      result is valid. */
  lemma MonthlyResultIsFirst(now: TimeValue, dayOfMonth: int, hour: int)
    requires 0 <= hour <= 23
    ensures var r := MonthlyResult(now, dayOfMonth, hour);
      && (r.Some? ==> now.Some? && r.value <= now.value + 31 * 86_400_000
                      && FirstAfter(t => MonthlySlot(t, Clamp(dayOfMonth), hour), now.value, r.value))
      && (now.Some? && -MAX_TIME + 120 * 86_400_000 <= now.value <= MAX_TIME - 120 * 86_400_000 ==> r.Some?)
  {
    hide WithDate, WithMonth, WithHour, FirstAfter, MonthFromTime, Clamp;
    var dom := Clamp(dayOfMonth);
    NoDateStays(dom, hour);
    if now.Some? {
      ThisMonthCase(now.value, dom, hour);
      NextMonthCase(now.value, dom, hour);
    } else {
      assert WithDate(now, dom) == WithDate(None, dom);
    }
  }

  method NextMonthly(now: UtcDate, dayOfMonth: int, hourOfDay: int) returns (r: TimeValue)
    requires 0 <= hourOfDay <= 23
    ensures r == MonthlyResult(now.time, dayOfMonth, hourOfDay)
    ensures r.Some? ==> now.time.Some? && FirstAfter(t => MonthlySlot(t, Clamp(dayOfMonth), hourOfDay), now.time.value, r.value)
    ensures now.time.Some? && -MAX_TIME + 120 * 86_400_000 <= now.time.value <= MAX_TIME - 120 * 86_400_000 ==> r.Some?
  {
    hide FirstAfter, WithMonth, WithDate, WithHour, MonthFromTime, Clamp;
    var dom := Clamp(dayOfMonth);
    var candidate := new UtcDate(now.time);
    candidate.SetUTCDate(dom);
    candidate.SetUTCHours(hourOfDay);
    if candidate.time.Some? && now.time.Some? && candidate.time.value <= now.time.value {
      candidate.SetUTCMonth(MonthFromTime(candidate.time.value) + 1);
      candidate.SetUTCDate(dom);
      candidate.SetUTCHours(hourOfDay);
    }
    r := candidate.time;
    MonthlyResultIsFirst(now.time, dayOfMonth, hourOfDay);
  }

  lemma NoDateStays(date: int, hour: int)
    ensures WithHour(WithDate(None, date), hour) == None
  {
  }

  /** The first candidate, when it answers. */
  lemma ThisMonthCase(now: int, dom: int, hour: int)
    requires 1 <= dom <= 28 && 0 <= hour <= 23
    ensures var c := WithHour(WithDate(Some(now), dom), hour);
      && (c.Some? && c.value > now ==> c.value <= now + 31 * 86_400_000
                                       && FirstAfter(t => MonthlySlot(t, dom, hour), now, c.value))
      && (-MAX_TIME + 120 * 86_400_000 <= now <= MAX_TIME - 120 * 86_400_000 ==> c.Some?)
  {
    hide MonthStart, MonthOfDay, MonthlyAt, WithDate, WithMonth, WithHour, FirstAfter;
    var m := MonthOfDay(Day(now));
    ThisMonth(now, dom, hour);
    NearSlot(now, dom, hour);
    if MonthlyAt(m, dom, hour) > now { MonthlyFirstAfter(now, m, dom, hour); }
  }

  /** The second candidate, when the first does not answer. */
  lemma NextMonthCase(now: int, dom: int, hour: int)
    requires 1 <= dom <= 28 && 0 <= hour <= 23
    ensures var c := WithHour(WithDate(Some(now), dom), hour);
      c.Some? && c.value <= now ==>
        var d := WithHour(WithDate(WithMonth(c, MonthFromTime(c.value) + 1), dom), hour);
        && (d.Some? ==> d.value <= now + 31 * 86_400_000 && FirstAfter(t => MonthlySlot(t, dom, hour), now, d.value))
        && (-MAX_TIME + 120 * 86_400_000 <= now <= MAX_TIME - 120 * 86_400_000 ==> d.Some?)
  {
    hide MonthStart, MonthOfDay, MonthlyAt, WithDate, WithMonth, WithHour, FirstAfter, MonthFromTime;
    var m := MonthOfDay(Day(now));
    ThisMonth(now, dom, hour);
    NearSlot(now, dom, hour);
    MonthlyAtClose(m, dom, hour);
    if MonthlyAt(m, dom, hour) <= now {
      NextMonth(m, dom, hour);
      MonthlyFirstAfter(now, m + 1, dom, hour);
    }
  }

  /** `now` lies between the slots of the months around its own, and near its own month's slot. */
  lemma NearSlot(t: int, dom: int, hour: int)
    requires 1 <= dom <= 28 && 0 <= hour <= 23
    ensures var m := MonthOfDay(Day(t));
      && MonthlyAt(m - 1, dom, hour) <= t < MonthlyAt(m + 1, dom, hour)
      && t - 31 * 86_400_000 <= MonthlyAt(m, dom, hour) <= t + 31 * 86_400_000
  {
    hide MonthStart, MonthOfDay;
    var m := MonthOfDay(Day(t));
    MonthLength(m);
    MonthLength(m - 1);
  }

  // ----- Weekly -----

  /** JavaScript's remainder, which takes the sign of the dividend. */
  function JsRem(x: int, y: int): int
    requires y > 0
  {
    if x >= 0 then x % y else -((-x) % y)
  }

  lemma DowIsModulo(d: int)
    ensures JsRem(JsRem(d, 7) + 7, 7) == d % 7
  {
  }

  lemma AddDaysValue(t: int, days: int)
    ensures WithDate(Some(t), DateFromTime(t) + days) == TimeClip(t + 86_400_000 * days)
  {
    hide MonthStart, MonthOfDay;
    WithDateValue(t, DateFromTime(t) + days);
  }

  /** A slot and the same weekday seven days earlier have no slot of that weekday between them. */
  lemma WeeklyFirstAfter(now: int, r: int, dow: int, hour: int)
    requires WeeklySlot(r, dow, hour) && r - 7 * 86_400_000 <= now < r
    ensures FirstAfter(t => WeeklySlot(t, dow, hour), now, r)
  {
    forall t | now < t < r ensures !WeeklySlot(t, dow, hour) {
      assert AtHour(t, hour) ==> t - r == 86_400_000 * (Day(t) - Day(r)) && -7 < Day(t) - Day(r) < 0;
    }
  }

  /** The weekly slots: whole weeks from the weekday (0 for Sunday) of the week of Thursday 1 January 1970. */
  lemma WeeklySlotIff(t: int, dow: int, hour: int)
    requires 0 <= dow < 7 && 0 <= hour <= 23
    ensures WeeklySlot(t, dow, hour) <==> (t - 60 * 60 * 1_000 * (24 * (dow - 4) + hour)) % (7 * 24 * 60 * 60 * 1_000) == 0
  {
    if WeeklySlot(t, dow, hour) {
      assert t == 86_400_000 * Day(t) + 3_600_000 * hour;
      var w := (Day(t) + 4) / 7;
      assert Day(t) == 7 * w + dow - 4;
      assert t - 3_600_000 * (24 * (dow - 4) + hour) == 604_800_000 * w;
    }
    if (t - 3_600_000 * (24 * (dow - 4) + hour)) % 604_800_000 == 0 {
      var w := (t - 3_600_000 * (24 * (dow - 4) + hour)) / 604_800_000;
      assert t == 86_400_000 * (7 * w + dow - 4) + 3_600_000 * hour;
      DayOfMakeDate(7 * w + dow - 4, HourTime(hour));
    }
  }

  lemma WeekdayGap(x: int, dow: int)
    requires 0 <= dow < 7
    ensures var days := JsRem(dow - x % 7 + 7, 7);
      0 <= days <= 6 && (x + days) % 7 == dow && (x + days + 7) % 7 == dow
  {
  }

  lemma WeeklyDay(t: int, dow: int, hour: int)
    requires 0 <= dow < 7 && 0 <= hour <= 23
    ensures var days := JsRem(dow - WeekDay(t) + 7, 7);
      var c := MakeDate(Day(t) + days, HourTime(hour));
      && 0 <= days <= 6
      && Day(t + 86_400_000 * days) == Day(t) + days
      && WeeklySlot(c, dow, hour) && c - 7 * 86_400_000 <= t < c + 7 * 86_400_000
      && WeeklySlot(c + 7 * 86_400_000, dow, hour)
  {
    var days := JsRem(dow - WeekDay(t) + 7, 7);
    WeekdayGap(Day(t) + 4, dow);
    DayOfMakeDate(Day(t) + days, HourTime(hour));
    DayOfMakeDate(Day(t) + days + 7, HourTime(hour));
  }

  /** What the program computes: the weekday within the next seven days, or a week later if that is
      not after `now`. */
  function WeeklyResult(now: TimeValue, dayOfWeek: int, hour: int): TimeValue {
    if now.None? then None
    else
      var dow := JsRem(JsRem(dayOfWeek, 7) + 7, 7);
      var candidate := WithHour(AddDays(now, JsRem(dow - WeekDay(now.value) + 7, 7)), hour);
      if candidate.Some? && candidate.value <= now.value then WithHour(AddDays(candidate, 7), hour) else candidate
  }

  /** A valid result is the first instant after `now` on the requested weekday (taken modulo 7) at
      the requested hour, at most seven days away; away from the ends of the representable range the
      result is valid. */
  lemma WeeklyResultIsFirst(now: TimeValue, dayOfWeek: int, hour: int)
    requires 0 <= hour <= 23
    ensures var r := WeeklyResult(now, dayOfWeek, hour);
      && (r.Some? ==> now.Some? && r.value <= now.value + 7 * 86_400_000
                      && FirstAfter(t => WeeklySlot(t, dayOfWeek % 7, hour), now.value, r.value))
      && (now.Some? && -MAX_TIME + 20 * 86_400_000 <= now.value <= MAX_TIME - 20 * 86_400_000 ==> r.Some?)
  {
    hide WithHour, AddDays, FirstAfter, WeekDay;
    DowIsModulo(dayOfWeek);
    if now.Some? { WeeklyCases(now.value, dayOfWeek % 7, hour); }
  }

  method NextWeekly(now: UtcDate, dayOfWeek: int, hourOfDay: int) returns (r: TimeValue)
    requires 0 <= hourOfDay <= 23
    ensures r == WeeklyResult(now.time, dayOfWeek, hourOfDay)
    ensures r.Some? ==> now.time.Some? && FirstAfter(t => WeeklySlot(t, dayOfWeek % 7, hourOfDay), now.time.value, r.value)
    ensures now.time.Some? && -MAX_TIME + 20 * 86_400_000 <= now.time.value <= MAX_TIME - 20 * 86_400_000 ==> r.Some?
  {
    hide DateFromTime, FirstAfter, WithDate, WithHour, WeekDay, JsRem;
    var dow := JsRem(JsRem(dayOfWeek, 7) + 7, 7);
    WeeklyResultIsFirst(now.time, dayOfWeek, hourOfDay);
    if now.time.None? { return None; }
    var daysUntil := JsRem(dow - WeekDay(now.time.value) + 7, 7);
    var candidate := new UtcDate(now.time);
    candidate.SetUTCDate(DateFromTime(now.time.value) + daysUntil);
    candidate.SetUTCHours(hourOfDay);
    if candidate.time.Some? && candidate.time.value <= now.time.value {
      candidate.SetUTCDate(DateFromTime(candidate.time.value) + 7);
      candidate.SetUTCHours(hourOfDay);
    }
    r := candidate.time;
  }

  function AddDays(t: TimeValue, days: int): TimeValue {
    if t.None? then None else WithDate(t, DateFromTime(t.value) + days)
  }

  lemma AddDaysAtHour(t: int, days: int, hour: int)
    requires 0 <= hour <= 23
    ensures var c := WithHour(AddDays(Some(t), days), hour);
      && (c.Some? ==> c.value == MakeDate(Day(t) + days, HourTime(hour)))
      && (InRange(t + 86_400_000 * days) && InRange(MakeDate(Day(t) + days, HourTime(hour))) ==> c.Some?)
  {
    hide MonthStart, MonthOfDay, DateFromTime, WithDate;
    AddDaysValue(t, days);
    assert Day(t + 86_400_000 * days) == Day(t) + days;
  }

  /** The two candidates of nextWeekly, and which of them answers. */
  lemma WeeklyCases(t: int, dow: int, hour: int)
    requires 0 <= dow < 7 && 0 <= hour <= 23
    ensures var days := JsRem(dow - WeekDay(t) + 7, 7);
      var c := WithHour(AddDays(Some(t), days), hour);
      && (c.Some? && c.value > t ==> c.value <= t + 7 * 86_400_000 && FirstAfter(u => WeeklySlot(u, dow, hour), t, c.value))
      && (-MAX_TIME + 20 * 86_400_000 <= t <= MAX_TIME - 20 * 86_400_000 ==> c.Some?)
      && (c.Some? && c.value <= t ==>
            var d := WithHour(AddDays(c, 7), hour);
            && (d.Some? ==> d.value <= t + 7 * 86_400_000 && FirstAfter(u => WeeklySlot(u, dow, hour), t, d.value))
            && (-MAX_TIME + 20 * 86_400_000 <= t <= MAX_TIME - 20 * 86_400_000 ==> d.Some?))
  {
    hide MonthStart, MonthOfDay, DateFromTime, WithDate, WithHour, AddDays, FirstAfter, WeekDay;
    var days := JsRem(dow - WeekDay(t) + 7, 7);
    WeeklyDay(t, dow, hour);
    AddDaysAtHour(t, days, hour);
    var c := WithHour(AddDays(Some(t), days), hour);
    if c.Some? {
      if c.value > t {
        WeeklyFirstAfter(t, c.value, dow, hour);
      } else {
        AddDaysAtHour(c.value, 7, hour);
        DayOfMakeDate(Day(t) + days, HourTime(hour));
        WeeklyFirstAfter(t, c.value + 7 * 86_400_000, dow, hour);
      }
    }
  }

  // ----- Interval -----

  /** The slot m intervals after the anchor's day. */
  function IntervalAt(anchor: int, m: int, interval: int, hour: int): int {
    MakeDate(Day(anchor) + m * interval, HourTime(hour))
  }

  /** The index of the first slot on a day after `now`'s day. */
  function NextCycle(now: int, anchor: int, interval: int): int
    requires interval >= 1
  {
    (Day(now) - Day(anchor)) / interval + 1
  }

  /** The interval slots: whole intervals from the hour on the anchor's day. */
  lemma IntervalSlotIff(t: int, anchor: int, interval: int, hour: int)
    requires interval >= 1 && 0 <= hour <= 23
    ensures IntervalSlot(t, anchor, interval, hour) <==>
            exists m :: t == anchor - TimeWithinDay(anchor) + 60 * 60 * 1_000 * hour + IntervalMs(m, interval)
  {
    if IntervalSlot(t, anchor, interval, hour) {
      var m := (Day(t) - Day(anchor)) / interval;
      assert m * interval == Day(t) - Day(anchor);
      assert t == anchor - TimeWithinDay(anchor) + 3_600_000 * hour + IntervalMs(m, interval);
    }
    forall m | t == anchor - TimeWithinDay(anchor) + 60 * 60 * 1_000 * hour + IntervalMs(m, interval)
      ensures IntervalSlot(t, anchor, interval, hour)
    {
      assert t == MakeDate(Day(anchor) + m * interval, HourTime(hour));
      DayOfMakeDate(Day(anchor) + m * interval, HourTime(hour));
      MultipleOf(m, interval);
    }
  }

  /** m intervals of 24-hour days. */
  ghost function IntervalMs(m: int, interval: int): int {
    24 * 60 * 60 * 1_000 * (m * interval)
  }

  lemma CycleBounds(d: int, interval: int)
    requires interval >= 1
    ensures (d / interval) * interval <= d < (d / interval + 1) * interval
  {
  }

  lemma ScaleOrder(x: int, y: int, k: int)
    requires k >= 1 && x <= y
    ensures x * k <= y * k
  {
  }

  /** The next slot is on a later day than `now`, and every earlier slot is not; so it is after `now`. */
  lemma IntervalFirst(now: int, anchor: int, interval: int, hour: int)
    requires interval >= 1 && 0 <= hour <= 23
    ensures var r := IntervalAt(anchor, NextCycle(now, anchor, interval), interval, hour);
      && IntervalSlot(r, anchor, interval, hour)
      && Day(r) > Day(now) && r > now
      && Day(r) - Day(now) <= interval
      && forall t :: IntervalSlot(t, anchor, interval, hour) && t < r ==> Day(t) <= Day(now)
  {
    var d := Day(now) - Day(anchor);
    var m := NextCycle(now, anchor, interval);
    var r := IntervalAt(anchor, m, interval, hour);
    CycleBounds(d, interval);
    DayOfMakeDate(Day(anchor) + m * interval, HourTime(hour));
    MultipleOf(m, interval);
    forall t | IntervalSlot(t, anchor, interval, hour) && t < r ensures Day(t) <= Day(now) {
      EarlierSlot(Day(t) - Day(anchor), m, interval);
    }
  }

  lemma MultipleOf(m: int, k: int)
    requires k >= 1
    ensures (m * k) % k == 0
  {
    assert m * k == k * m + 0;
    UniqueQuotient(m * k, m, 0, k);
  }

  lemma UniqueQuotient(x: int, q: int, rest: int, k: int)
    requires k >= 1 && x == q * k + rest && 0 <= rest < k
    ensures x / k == q && x % k == rest
  {
    var p := x / k;
    CycleBounds(x, k);
    if p < q { ScaleOrder(p + 1, q, k); }
    if q < p { ScaleOrder(q + 1, p, k); }
  }

  /** A multiple of k below m * k is at most (m - 1) * k. */
  lemma EarlierSlot(x: int, m: int, k: int)
    requires k >= 1 && x % k == 0 && x < m * k
    ensures x <= (m - 1) * k
  {
    var q := x / k;
    assert x == q * k;
    if q >= m { ScaleOrder(m, q, k); }
    ScaleOrder(q, m - 1, k);
  }

  /** Exactly when the interval slot is also the first slot after `now`: unless `now` is on a slot day
      before the hour, in which case the slot later that day is skipped. */
  lemma IntervalIsFirstIff(now: int, anchor: int, interval: int, hour: int)
    requires interval >= 1 && 0 <= hour <= 23
    ensures var r := IntervalAt(anchor, NextCycle(now, anchor, interval), interval, hour);
      FirstAfter(t => IntervalSlot(t, anchor, interval, hour), now, r)
      <==> !((Day(now) - Day(anchor)) % interval == 0 && TimeWithinDay(now) < HourTime(hour))
  {
    hide NextCycle, IntervalAt;
    var r := IntervalAt(anchor, NextCycle(now, anchor, interval), interval, hour);
    IntervalFirst(now, anchor, interval, hour);
    var today := MakeDate(Day(now), HourTime(hour));
    DayOfMakeDate(Day(now), HourTime(hour));
    if (Day(now) - Day(anchor)) % interval == 0 && TimeWithinDay(now) < HourTime(hour) {
      var slot := t => IntervalSlot(t, anchor, interval, hour);
      assert slot(today) && now < today < r;
    } else {
      forall t | now < t < r ensures !IntervalSlot(t, anchor, interval, hour) {
        assert IntervalSlot(t, anchor, interval, hour) ==> Day(t) == Day(now);
      }
    }
  }

  /** From one slot, the next one is exactly one interval of days later. */
  lemma IntervalSteps(anchor: int, m: int, interval: int, hour: int)
    requires interval >= 1 && 0 <= hour <= 23
    ensures var r := IntervalAt(anchor, m, interval, hour);
      IntervalAt(anchor, NextCycle(r, anchor, interval), interval, hour) == r + 86_400_000 * interval
  {
    DayOfMakeDate(Day(anchor) + m * interval, HourTime(hour));
    UniqueQuotient(m * interval, m, 0, interval);
    assert (m + 1) * interval == m * interval + interval;
  }

  lemma IntervalCandidate(now: int, anchor: int, interval: int, hour: int)
    requires interval >= 1 && 0 <= hour <= 23
    ensures var midnight := MakeDate(Day(anchor), 0);
      var elapsed := (now - midnight) / 86_400_000;
      var c := WithHour(AddDays(Some(midnight), (elapsed / interval + 1) * interval), hour);
      && (c.Some? ==> c.value == IntervalAt(anchor, NextCycle(now, anchor, interval), interval, hour))
      && (InRange(now) && InRange(now + 86_400_000 * (interval + 1)) ==> c.Some?)
  {
    hide WithHour, AddDays;
    var midnight := MakeDate(Day(anchor), 0);
    DayOfMakeDate(Day(anchor), 0);
    assert (now - midnight) / 86_400_000 == Day(now) - Day(anchor);
    IntervalFirst(now, anchor, interval, hour);
    AddDaysAtHour(midnight, NextCycle(now, anchor, interval) * interval, hour);
    DayOfMakeDate(Day(anchor) + NextCycle(now, anchor, interval) * interval, HourTime(hour));
  }

  /** Both dates are valid and the answer cannot fall beyond the representable range. */
  predicate Representable(now: TimeValue, anchor: TimeValue, interval: int) {
    && now.Some? && InRange(now.value) && InRange(now.value + 86_400_000 * (interval + 1))
    && anchor.Some? && InRange(MakeDate(Day(anchor.value), 0))
  }

  /** What the program computes, second-cycle branch included; arithmetic on an invalid date is NaN. */
  function IntervalResult(now: TimeValue, anchorDate: TimeValue, interval: int, hour: int): TimeValue
    requires interval >= 1
  {
    var anchor := WithHour(anchorDate, 0);
    if now.None? || anchor.None? then None
    else
      var cyclesPassed := (now.value - anchor.value) / 86_400_000 / interval;
      var candidate := WithHour(AddDays(anchor, (cyclesPassed + 1) * interval), hour);
      if candidate.Some? && candidate.value <= now.value
      then WithHour(AddDays(anchor, (cyclesPassed + 2) * interval), hour)
      else candidate
  }

  /** A valid result is the first slot on a day after `now`'s (UTC) day, also when `now` is before the
      anchor; so the branch for a second cycle is never taken. */
  lemma IntervalResultIsNext(now: TimeValue, anchorDate: TimeValue, interval: int, hour: int)
    requires interval >= 1 && 0 <= hour <= 23
    ensures var r := IntervalResult(now, anchorDate, interval, hour);
      && (r.Some? ==> now.Some? && anchorDate.Some? && r.value > now.value
                      && r.value == IntervalAt(anchorDate.value, NextCycle(now.value, anchorDate.value, interval), interval, hour))
      && (Representable(now, anchorDate, interval) ==> r.Some?)
  {
    hide MonthStart, MonthOfDay, MakeDay, DateFromTime, WithDate, AddDays, IntervalAt, NextCycle, IntervalSlot;
    if now.Some? && anchorDate.Some? {
      IntervalCandidate(now.value, anchorDate.value, interval, hour);
      IntervalFirst(now.value, anchorDate.value, interval, hour);
    }
  }

  method NextInterval(now: UtcDate, anchorDate: UtcDate, intervalDays: int, hourOfDay: int) returns (r: TimeValue)
    requires intervalDays >= 1 && 0 <= hourOfDay <= 23
    ensures r == IntervalResult(now.time, anchorDate.time, intervalDays, hourOfDay)
    ensures r.Some? ==> now.time.Some? && anchorDate.time.Some? && r.value > now.time.value
    ensures r.Some? ==>
              var anchor, at := anchorDate.time.value, now.time.value;
              r.value == IntervalAt(anchor, NextCycle(at, anchor, intervalDays), intervalDays, hourOfDay)
    ensures Representable(now.time, anchorDate.time, intervalDays) ==> r.Some?
  {
    hide WithHour, WithDate, DateFromTime, IntervalAt, NextCycle;
    IntervalResultIsNext(now.time, anchorDate.time, intervalDays, hourOfDay);
    hide Representable;
    r := IntervalCandidates(now, anchorDate, intervalDays, hourOfDay);
  }

  /** The computation itself. */
  method IntervalCandidates(now: UtcDate, anchorDate: UtcDate, intervalDays: int, hourOfDay: int) returns (r: TimeValue)
    requires intervalDays >= 1
    ensures r == IntervalResult(now.time, anchorDate.time, intervalDays, hourOfDay)
  {
    hide WithHour, WithDate, DateFromTime;
    var anchor := new UtcDate(anchorDate.time);
    anchor.SetUTCHours(0);
    if now.time.None? || anchor.time.None? { return None; }
    var elapsed := (now.time.value - anchor.time.value) / 86_400_000;
    var cyclesPassed := elapsed / intervalDays;
    var candidate := new UtcDate(anchor.time);
    candidate.SetUTCDate(DateFromTime(anchor.time.value) + (cyclesPassed + 1) * intervalDays);
    candidate.SetUTCHours(hourOfDay);
    if candidate.time.Some? && candidate.time.value <= now.time.value {
      candidate := new UtcDate(anchor.time);
      candidate.SetUTCDate(DateFromTime(anchor.time.value) + (cyclesPassed + 2) * intervalDays);
      candidate.SetUTCHours(hourOfDay);
    }
    r := candidate.time;
  }

  // ----- Dispatch -----

  datatype Rule = Monthly(dayOfMonth: int) | Weekly(dayOfWeek: int) | Every(anchor: TimeValue, intervalDays: int) {
    predicate Valid() {
      Every? ==> intervalDays >= 1
    }
  }

  /** The instants a rule names, whatever the present time is. */
  predicate Occurs(rule: Rule, hour: int, t: int)
    requires rule.Valid()
  {
    match rule
    case Monthly(day) => MonthlySlot(t, Clamp(day), hour)
    case Weekly(day) => WeeklySlot(t, day % 7, hour)
    case Every(anchor, interval) => anchor.Some? && IntervalSlot(t, anchor.value, interval, hour)
  }

  /** An occurrence still to come: after `now`, or for an interval rule on a later day. */
  predicate Comes(rule: Rule, hour: int, now: int, t: int)
    requires rule.Valid()
  {
    Occurs(rule, hour, t) && if rule.Every? then Day(t) > Day(now) else t > now
  }

  /** The first occurrence to come. */
  ghost predicate IsNext(rule: Rule, hour: int, now: int, r: int)
    requires rule.Valid()
  {
    Comes(rule, hour, now, r) && forall t :: Comes(rule, hour, now, t) ==> r <= t
  }

  function NextRun(rule: Rule, hour: int, now: TimeValue): TimeValue
    requires rule.Valid()
  {
    match rule
    case Monthly(day) => MonthlyResult(now, day, hour)
    case Weekly(day) => WeeklyResult(now, day, hour)
    case Every(anchor, interval) => IntervalResult(now, anchor, interval, hour)
  }

  /** No rule waits longer than this for its next occurrence. */
  function Reach(rule: Rule): int
    requires rule.Valid()
    ensures Reach(rule) > 0
  {
    86_400_000 * match rule case Monthly(_) => 31 case Weekly(_) => 7 case Every(_, interval) => interval + 1
  }

  /** `now` is a date, far enough from the ends of the representable range for the rule to answer. */
  predicate WellInside(rule: Rule, now: TimeValue)
    requires rule.Valid()
  {
    && now.Some? && -MAX_TIME + 120 * 86_400_000 <= now.value && now.value + Reach(rule) <= MAX_TIME - 120 * 86_400_000
    && (rule.Every? ==> rule.anchor.Some? && InRange(MakeDate(Day(rule.anchor.value), 0)))
  }

  /** Whatever the rule, a valid answer is the first occurrence to come, and away from the ends of the
      representable range the answer is valid. */
  lemma NextRunIsNext(rule: Rule, hour: int, now: TimeValue)
    requires rule.Valid() && 0 <= hour <= 23
    ensures var r := NextRun(rule, hour, now);
      && (r.Some? ==> now.Some? && now.value < r.value <= now.value + Reach(rule) && IsNext(rule, hour, now.value, r.value))
      && (WellInside(rule, now) ==> r.Some?)
  {
    hide MonthlyResult, WeeklyResult, IntervalResult, MonthlySlot, WeeklySlot, Clamp;
    match rule
    case Monthly(day) =>
      MonthlyResultIsFirst(now, day, hour);
      var r := MonthlyResult(now, day, hour);
      if r.Some? { FirstAfterIsNext(rule, hour, t => MonthlySlot(t, Clamp(day), hour), now.value, r.value); }
    case Weekly(day) =>
      WeeklyResultIsFirst(now, day, hour);
      var r := WeeklyResult(now, day, hour);
      if r.Some? { FirstAfterIsNext(rule, hour, t => WeeklySlot(t, day % 7, hour), now.value, r.value); }
    case Every(anchor, interval) => IntervalIsNext(now, anchor, interval, hour);
  }

  lemma FirstAfterIsNext(rule: Rule, hour: int, slot: int -> bool, now: int, r: int)
    requires rule.Valid() && !rule.Every? && (forall t :: slot(t) <==> Occurs(rule, hour, t)) && FirstAfter(slot, now, r)
    ensures IsNext(rule, hour, now, r)
  {
    hide Occurs;
    forall t | Comes(rule, hour, now, t) ensures r <= t { assert slot(t); }
  }

  lemma IntervalIsNext(now: TimeValue, anchor: TimeValue, interval: int, hour: int)
    requires interval >= 1 && 0 <= hour <= 23
    ensures var rule, r := Every(anchor, interval), IntervalResult(now, anchor, interval, hour);
      && (r.Some? ==> now.Some? && now.value < r.value <= now.value + Reach(rule) && IsNext(rule, hour, now.value, r.value))
      && (WellInside(rule, now) ==> r.Some?)
  {
    hide IntervalResult, IntervalSlot, IntervalAt, NextCycle;
    IntervalResultIsNext(now, anchor, interval, hour);
    if now.Some? && anchor.Some? { IntervalFirst(now.value, anchor.value, interval, hour); }
  }

  /** A schedule row: its type string and the fields that may be null. */
  datatype Plan = Plan(kind: string, dayOfMonth: int, dayOfWeek: int, hourOfDay: Option<int>,
                       anchorDate: Option<TimeValue>, intervalDays: Option<int>)

  function Or<T>(o: Option<T>, default: T): (r: T)
    ensures o == Some(r) || (o.None? && r == default)
  {
    if o.Some? then o.value else default
  }

  /** The rule of a row, if its type is known; `now` stands in for a missing anchor. */
  function RuleOf(plan: Plan, now: TimeValue): Option<Rule> {
    if plan.kind == "monthly" then Some(Monthly(plan.dayOfMonth))
    else if plan.kind == "weekly" then Some(Weekly(plan.dayOfWeek))
    else if plan.kind == "biweekly" then Some(Every(Or(plan.anchorDate, now), 14))
    else if plan.kind == "custom" then Some(Every(Or(plan.anchorDate, now), Or(plan.intervalDays, 1)))
    else None
  }

  /** A valid answer is the first occurrence to come of the row's rule; exactly an unknown type throws. */
  method ComputeNextRun(plan: Plan, now: UtcDate) returns (r: TimeValue, thrown: bool)
    requires plan.hourOfDay.Some? ==> 0 <= plan.hourOfDay.value <= 23
    requires plan.intervalDays.Some? ==> plan.intervalDays.value >= 1
    ensures thrown <==> RuleOf(plan, now.time).None?
    ensures thrown ==> r == None
    ensures plan.kind !in ["monthly", "weekly", "biweekly", "custom"] <==> thrown
    ensures plan.kind == "monthly" ==> r == NextRun(Monthly(plan.dayOfMonth), Or(plan.hourOfDay, 0), now.time)
    ensures plan.kind == "weekly" ==> r == NextRun(Weekly(plan.dayOfWeek), Or(plan.hourOfDay, 0), now.time)
    ensures plan.kind == "biweekly" ==>
              r == NextRun(Every(Or(plan.anchorDate, now.time), 14), Or(plan.hourOfDay, 0), now.time)
    ensures plan.kind == "custom" ==>
              var interval := Or(plan.intervalDays, 1);
              interval >= 1 && r == NextRun(Every(Or(plan.anchorDate, now.time), interval), Or(plan.hourOfDay, 0), now.time)
    ensures !thrown ==>
              var rule, hour := RuleOf(plan, now.time).value, Or(plan.hourOfDay, 0);
              && rule.Valid() && r == NextRun(rule, hour, now.time)
              && (r.Some? ==> now.time.Some? && IsNext(rule, hour, now.time.value, r.value))
              && (WellInside(rule, now.time) ==> r.Some?)
  {
    hide MonthlyResult, WeeklyResult, IntervalResult, IsNext, WellInside, FirstAfter, Representable;
    var hour := Or(plan.hourOfDay, 0);
    thrown, r := false, None;
    if plan.kind == "monthly" {
      r := NextMonthly(now, plan.dayOfMonth, hour);
    } else if plan.kind == "weekly" {
      r := NextWeekly(now, plan.dayOfWeek, hour);
    } else if plan.kind == "biweekly" {
      var anchor := new UtcDate(Or(plan.anchorDate, now.time));
      r := NextInterval(now, anchor, 14, hour);
    } else if plan.kind == "custom" {
      var anchor := new UtcDate(Or(plan.anchorDate, now.time));
      r := NextInterval(now, anchor, Or(plan.intervalDays, 1), hour);
    } else {
      thrown := true;
    }
    if !thrown { NextRunIsNext(RuleOf(plan, now.time).value, hour, now.time); }
  }

  // ----- Iterating -----

  function Last(start: int, rs: seq<int>): int {
    if rs == [] then start else rs[|rs| - 1]
  }

  /** Up to n runs, each computed from the one before it, until an answer is invalid. */
  function Iterate(rule: Rule, hour: int, start: int, n: nat): seq<int>
    requires rule.Valid()
  {
    if n == 0 then []
    else
      var front := Iterate(rule, hour, start, n - 1);
      var next := NextRun(rule, hour, Some(Last(start, front)));
      if |front| < n - 1 || next.None? then front else front + [next.value]
  }

  /** From an occurrence on, what is still to come is what is later. */
  lemma ComesAfterOccurrence(rule: Rule, hour: int, start: int, last: int, t: int)
    requires rule.Valid() && 0 <= hour <= 23 && start <= last
    requires last == start || Comes(rule, hour, start, last)
    ensures Comes(rule, hour, last, t) <==> Comes(rule, hour, start, t) && (last == start || t > last)
  {
    hide MonthlySlot, WeeklySlot;
    if rule.Every? && last != start && Occurs(rule, hour, t) {
      assert AtHour(t, hour) && AtHour(last, hour);
      assert t - last == 86_400_000 * (Day(t) - Day(last));
    }
  }

  /** Iterating a rule visits every occurrence to come, in order, each exactly once, and nothing else;
      and it goes on for n runs unless it gets near the ends of the representable range. */
  lemma {:induction false} VisitsEveryOccurrence(rule: Rule, hour: int, start: int, n: nat)
    requires rule.Valid() && 0 <= hour <= 23
    ensures var rs := Iterate(rule, hour, start, n);
      && |rs| <= n && start <= Last(start, rs)
      && (forall i, j :: 0 <= i < j < |rs| ==> rs[i] < rs[j])
      && (forall t :: t in rs <==> Comes(rule, hour, start, t) && t <= Last(start, rs))
      && (start < Last(start, rs) <==> rs != [])
  {
    hide NextRun, Comes, Reach, WellInside;
    if n > 0 {
      var front := Iterate(rule, hour, start, n - 1);
      var last := Last(start, front);
      VisitsEveryOccurrence(rule, hour, start, n - 1);
      NextRunIsNext(rule, hour, Some(last));
      var next := NextRun(rule, hour, Some(last));
      if |front| == n - 1 && next.Some? {
        if front != [] { assert last in front; }
        Extends(rule, hour, start, front, next.value);
      }
    } else {
      NothingYet(rule, hour, start);
    }
  }

  lemma NothingYet(rule: Rule, hour: int, start: int)
    requires rule.Valid()
    ensures forall t :: Comes(rule, hour, start, t) ==> t > start
  {
    hide Occurs;
  }

  /** One more run keeps the listing complete and in order. */
  lemma Extends(rule: Rule, hour: int, start: int, front: seq<int>, next: int)
    requires rule.Valid() && 0 <= hour <= 23 && start <= Last(start, front)
    requires start < Last(start, front) <==> front != []
    requires forall i, j :: 0 <= i < j < |front| ==> front[i] < front[j]
    requires forall t :: t in front <==> Comes(rule, hour, start, t) && t <= Last(start, front)
    requires IsNext(rule, hour, Last(start, front), next) && next > Last(start, front)
    ensures var rs := front + [next];
      && (forall i, j :: 0 <= i < j < |rs| ==> rs[i] < rs[j])
      && (forall t :: t in rs <==> Comes(rule, hour, start, t) && t <= next)
  {
    hide Comes;
    var last := Last(start, front);
    if front != [] { assert last in front; }
    NothingYet(rule, hour, start);
    forall t ensures t in front + [next] <==> Comes(rule, hour, start, t) && t <= next {
      ComesAfterOccurrence(rule, hour, start, last, t);
      ComesAfterOccurrence(rule, hour, start, last, next);
    }
    forall i | 0 <= i < |front| ensures front[i] < next { assert front[i] in front; }
  }

  /** The iteration has all its n runs if it stays away from the ends of the representable range. */
  lemma {:induction false} IterationContinues(rule: Rule, hour: int, start: int, n: nat)
    requires rule.Valid() && 0 <= hour <= 23
    requires -MAX_TIME + 120 * 86_400_000 <= start && start + n * Reach(rule) <= MAX_TIME - 120 * 86_400_000
    requires rule.Every? ==> rule.anchor.Some? && InRange(MakeDate(Day(rule.anchor.value), 0))
    ensures var rs := Iterate(rule, hour, start, n);
      |rs| == n && start <= Last(start, rs) <= start + n * Reach(rule)
  {
    hide NextRun, IsNext, Reach;
    if n > 0 {
      OneMoreReach(rule, n);
      IterationContinues(rule, hour, start, n - 1);
      NextRunIsNext(rule, hour, Some(Last(start, Iterate(rule, hour, start, n - 1))));
    }
  }

  lemma OneMoreReach(rule: Rule, n: nat)
    requires rule.Valid() && n > 0
    ensures n * Reach(rule) == (n - 1) * Reach(rule) + Reach(rule) >= Reach(rule)
  {
    hide Reach;
    assert (n - 1) * Reach(rule) >= 0;
  }

  /** With a fixed anchor, consecutive runs are exactly one interval of days apart. */
  lemma {:induction false} IterationAdvances(anchor: TimeValue, interval: int, hour: int, start: int, n: nat)
    requires interval >= 1 && 0 <= hour <= 23
    ensures var rs := Iterate(Every(anchor, interval), hour, start, n);
      forall i :: 0 < i < |rs| ==> rs[i] == rs[i - 1] + 86_400_000 * interval
  {
    hide IntervalResult, IntervalSlot, IntervalAt, NextCycle;
    if n > 0 {
      var rule := Every(anchor, interval);
      var front := Iterate(rule, hour, start, n - 1);
      IterationAdvances(anchor, interval, hour, start, n - 1);
      VisitsEveryOccurrence(rule, hour, start, n - 1);
      var next := IntervalResult(Some(Last(start, front)), anchor, interval, hour);
      if front != [] && next.Some? {
        var last := Last(start, front);
        assert last in front && Occurs(rule, hour, last);
        IntervalResultIsNext(Some(last), anchor, interval, hour);
        StepFromSlot(anchor.value, last, interval, hour);
      }
    }
  }

  lemma StepFromSlot(anchor: int, t: int, interval: int, hour: int)
    requires interval >= 1 && 0 <= hour <= 23 && IntervalSlot(t, anchor, interval, hour)
    ensures IntervalAt(anchor, NextCycle(t, anchor, interval), interval, hour) == t + 86_400_000 * interval
  {
    var m := (Day(t) - Day(anchor)) / interval;
    assert t == IntervalAt(anchor, m, interval, hour) by { assert m * interval == Day(t) - Day(anchor); }
    hide IntervalAt, NextCycle, IntervalSlot;
    IntervalSteps(anchor, m, interval, hour);
  }
}
