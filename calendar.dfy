/**
 * The time-value arithmetic of ECMA-262 5.1, section 15.9.1, that a JavaScript
 * Date performs under its UTC getters and setters, and a Date object whose one
 * field is its time value.
 *
 * Day numbers and time values are unbounded integers; Dafny's `/` and `%` with a
 * positive divisor are the floor division and the non-negative modulo that the
 * standard writes as floor(x / y) and "x modulo y".
 *
 * Months are numbered consecutively across years: month index `k` is month
 * `k % 12` (0 is January) of year `k / 12`, so 12 * year + month is the month
 * that MakeDay (section 15.9.1.12) lands in after normalising `month`.
 */
module Calendar {

  const MsPerSecond: int := 1000
  const MsPerMinute: int := 60_000
  const MsPerHour: int := 3_600_000
  const MsPerDay: int := 86_400_000
  /** Largest magnitude of a time value (section 15.9.1.1): 100,000,000 days. */
  const MaxTimeValue: int := 8_640_000_000_000_000
  /** Month index of January 1970, the month that starts on day 0. */
  const Epoch: int := 12 * 1970

  /** A JavaScript Number as the Date code sees it: an integer or NaN. */
  datatype Num = Num(value: int) | NaN

  predicate InTimeRange(t: int) { -MaxTimeValue <= t <= MaxTimeValue }

  /** TimeClip (15.9.1.14): a time value out of range becomes NaN. */
  function TimeClip(t: int): Num { if InTimeRange(t) then Num(t) else NaN }

  // ---- 15.9.1.2: days and time within the day ----

  function Day(t: int): int { t / MsPerDay }

  function TimeWithinDay(t: int): int { t % MsPerDay }

  // ---- 15.9.1.3: years ----

  function DaysInYear(y: int): int {
    if y % 4 > 0 then 365
    else if y % 100 > 0 then 366
    else if y % 400 > 0 then 365
    else 366
  }

  predicate IsLeapYear(y: int) { DaysInYear(y) == 366 }

  /** The day number of the first day of year `y`, counted year by year from 1970. */
  function DayFromYear(y: int): int
    decreases if y < 1970 then 1970 - y else y - 1970
  {
    if y == 1970 then 0
    else if y > 1970 then DayFromYear(y - 1) + DaysInYear(y - 1)
    else DayFromYear(y + 1) - DaysInYear(y)
  }

  lemma {:induction false} NextYear(y: int)
    ensures DayFromYear(y + 1) == DayFromYear(y) + DaysInYear(y)
  {
  }

  /** DayFromYear as section 15.9.1.3 writes it, with its leap-day counts. */
  function StandardDayFromYear(y: int): int {
    365 * (y - 1970) + (y - 1969) / 4 - (y - 1901) / 100 + (y - 1601) / 400
  }

  /** Counting year by year agrees with the standard's formula. */
  lemma DayFromYearIsStandard(y: int)
    ensures DayFromYear(y) == StandardDayFromYear(y)
  {
    if y >= 1970 {
      StandardForward(y);
    } else {
      StandardBackward(y);
    }
  }

  lemma {:induction false} StandardForward(y: int)
    requires y >= 1970
    ensures DayFromYear(y) == StandardDayFromYear(y)
    decreases y - 1970
  {
    if y > 1970 {
      StandardForward(y - 1);
      StandardNextYear(y - 1);
    }
  }

  lemma {:induction false} StandardBackward(y: int)
    requires y <= 1970
    ensures DayFromYear(y) == StandardDayFromYear(y)
    decreases 1970 - y
  {
    if y < 1970 {
      StandardBackward(y + 1);
      StandardNextYear(y);
    }
  }

  /** The formula also steps by the length of the year. */
  lemma {:induction false} StandardNextYear(y: int)
    ensures StandardDayFromYear(y + 1) == StandardDayFromYear(y) + DaysInYear(y)
  {
    FourYearCount(y);
    CenturyCount(y);
    QuadricentennialCount(y);
    if y % 400 == 0 {
      MultipleOf400(y);
    }
    if y % 100 == 0 {
      MultipleOf100(y);
    }
  }

  /** A multiple of 400 is a multiple of 100. */
  lemma {:induction false} MultipleOf400(y: int)
    requires y % 400 == 0
    ensures y % 100 == 0
  {
    var c := y / 400;
    assert y == 100 * (4 * c) + 0;
  }

  /** A multiple of 100 is a multiple of 4. */
  lemma {:induction false} MultipleOf100(y: int)
    requires y % 100 == 0
    ensures y % 4 == 0
  {
    var c := y / 100;
    assert y == 4 * (25 * c) + 0;
  }

  // Each count in the formula grows by one at a year that is a multiple of its divisor.

  lemma {:induction false} FourYearCount(y: int)
    ensures (y - 1968) / 4 == (y - 1969) / 4 + (if y % 4 == 0 then 1 else 0)
  {
  }

  lemma {:induction false} CenturyCount(y: int)
    ensures (y - 1900) / 100 == (y - 1901) / 100 + (if y % 100 == 0 then 1 else 0)
  {
  }

  lemma {:induction false} QuadricentennialCount(y: int)
    ensures (y - 1600) / 400 == (y - 1601) / 400 + (if y % 400 == 0 then 1 else 0)
  {
  }

  // ---- 15.9.1.4 and 15.9.1.5: months and dates ----

  /**
   * Days of a year before month `m` (0 is January; 12 stands for the end of the
   * year): 0, 31, 59, 90, 120, 151, 181, 212, 243, 273, 304, 334, 365, plus one
   * from March on in a leap year. These are the bounds of MonthFromTime's table.
   */
  function MonthStart(m: int, leap: bool): int
    requires 0 <= m <= 12
  {
    var days :=
      if m < 6 then
        if m < 3 then (if m < 1 then 0 else if m < 2 then 31 else 59)
        else (if m < 4 then 90 else if m < 5 then 120 else 151)
      else
        if m < 9 then (if m < 7 then 181 else if m < 8 then 212 else 243)
        else (if m < 10 then 273 else if m < 11 then 304 else if m < 12 then 334 else 365);
    days + (if leap && m >= 2 then 1 else 0)
  }

  /** The month table stays within the year: from 0 up to the year's length. */
  lemma {:induction false} MonthStartWithinYear(y: int, m: int)
    requires 0 <= m <= 12
    ensures 0 <= MonthStart(m, IsLeapYear(y)) <= MonthStart(12, IsLeapYear(y)) == DaysInYear(y)
  {
  }

  /** The length of month `k`: 28 days in February, 29 in a leap year, and 30 or 31 in the others. */
  function DaysInMonth(k: int): int {
    var m := k % 12;
    if m == 1 then (if IsLeapYear(k / 12) then 29 else 28)
    else if m == 3 || m == 5 || m == 8 || m == 10 then 30
    else 31
  }

  lemma {:induction false} DaysInMonthRange(k: int)
    ensures 28 <= DaysInMonth(k) <= 31
  {
  }

  /** A month's length is the step between its row of the month table and the next. */
  lemma {:induction false} DaysInMonthIsTableStep(k: int)
    ensures DaysInMonth(k) == MonthStart(k % 12 + 1, IsLeapYear(k / 12)) - MonthStart(k % 12, IsLeapYear(k / 12))
  {
  }

  /** The day number of the first day of month `k`, counted month by month from January 1970. */
  function FirstDayOfMonth(k: int): int
    decreases if k < Epoch then Epoch - k else k - Epoch
  {
    if k == Epoch then 0
    else if k > Epoch then FirstDayOfMonth(k - 1) + DaysInMonth(k - 1)
    else FirstDayOfMonth(k + 1) - DaysInMonth(k)
  }

  lemma {:induction false} NextMonth(k: int)
    ensures FirstDayOfMonth(k + 1) == FirstDayOfMonth(k) + DaysInMonth(k)
  {
  }

  /** A month lasts from 28 to 31 days. */
  lemma {:induction false} MonthLength(k: int)
    ensures FirstDayOfMonth(k) + 28 <= FirstDayOfMonth(k + 1) <= FirstDayOfMonth(k) + 31
  {
    NextMonth(k);
    DaysInMonthRange(k);
  }

  /** Every month has at least 28 days, so first days of months strictly ascend. */
  lemma {:induction false} MonthsAscend(j: int, k: int)
    requires j <= k
    ensures FirstDayOfMonth(j) + 28 * (k - j) <= FirstDayOfMonth(k)
    decreases k - j
  {
    if j < k {
      MonthsAscend(j, k - 1);
      MonthLength(k - 1);
    }
  }

  // ---- the closed form the standard gives ----

  /**
   * The first day of month `k` as sections 15.9.1.3 to 15.9.1.5 state it: the
   * first day of year k / 12 plus the days of that year before month k % 12.
   */
  function ClosedFormFirstDay(k: int): int {
    DayFromYear(k / 12) + MonthStart(k % 12, IsLeapYear(k / 12))
  }

  /** The closed form also steps by a month's length, across the end of a year as well. */
  lemma {:induction false} ClosedFormNextMonth(k: int)
    ensures ClosedFormFirstDay(k + 1) == ClosedFormFirstDay(k) + DaysInMonth(k)
  {
    DaysInMonthIsTableStep(k);
    if k % 12 == 11 {
      assert (k + 1) / 12 == k / 12 + 1 && (k + 1) % 12 == 0;
      NextYear(k / 12);
    } else {
      assert (k + 1) / 12 == k / 12 && (k + 1) % 12 == k % 12 + 1;
    }
  }

  /** Counting month by month from January 1970 agrees with the closed form. */
  lemma {:induction false} FirstDayIsClosedForm(k: int)
    ensures FirstDayOfMonth(k) == ClosedFormFirstDay(k)
  {
    if k >= Epoch {
      ClosedFormForward(k);
    } else {
      ClosedFormBackward(k);
    }
  }

  lemma {:induction false} ClosedFormForward(k: int)
    requires k >= Epoch
    ensures FirstDayOfMonth(k) == ClosedFormFirstDay(k)
    decreases k - Epoch
  {
    if k == Epoch {
      ClosedFormAtEpoch();
    } else {
      ClosedFormForward(k - 1);
      ClosedFormNextMonth(k - 1);
    }
  }

  /** January 1970 starts on day 0 in the closed form too. */
  lemma ClosedFormAtEpoch()
    ensures ClosedFormFirstDay(Epoch) == 0
  {
    assert Epoch / 12 == 1970 && Epoch % 12 == 0;
  }

  lemma {:induction false} ClosedFormBackward(k: int)
    requires k <= Epoch
    ensures FirstDayOfMonth(k) == ClosedFormFirstDay(k)
    decreases Epoch - k
  {
    if k == Epoch {
      ClosedFormAtEpoch();
    } else {
      ClosedFormBackward(k + 1);
      ClosedFormNextMonth(k);
    }
  }

  /** Month `k` runs from its closed-form first day to the end of its row of the month table. */
  lemma {:induction false} MonthBounds(k: int)
    ensures FirstDayOfMonth(k) == DayFromYear(k / 12) + MonthStart(k % 12, IsLeapYear(k / 12))
    ensures FirstDayOfMonth(k + 1) == DayFromYear(k / 12) + MonthStart(k % 12 + 1, IsLeapYear(k / 12))
  {
    FirstDayIsClosedForm(k);
    NextMonth(k);
  }

  // ---- finding the month of a day ----

  /** The month index of the month that day `d` falls in, stepping from January 1970. */
  function MonthIndexFromDay(d: int): (k: int)
    ensures FirstDayOfMonth(k) <= d < FirstDayOfMonth(k + 1)
  {
    NextMonth(Epoch - 1);
    if 0 <= d then MonthSearchUp(d, Epoch) else MonthSearchDown(d, Epoch - 1)
  }

  function MonthSearchUp(d: int, k: int): (r: int)
    requires FirstDayOfMonth(k) <= d
    ensures FirstDayOfMonth(r) <= d < FirstDayOfMonth(r + 1)
    decreases d - FirstDayOfMonth(k)
  {
    MonthLength(k);
    if d < FirstDayOfMonth(k + 1) then k else MonthSearchUp(d, k + 1)
  }

  function MonthSearchDown(d: int, k: int): (r: int)
    requires d < FirstDayOfMonth(k + 1)
    ensures FirstDayOfMonth(r) <= d < FirstDayOfMonth(r + 1)
    decreases FirstDayOfMonth(k + 1) - d
  {
    MonthLength(k);
    if FirstDayOfMonth(k) <= d then k else MonthSearchDown(d, k - 1)
  }

  /** A day cannot lie in a month that starts after the month containing it ends. */
  lemma {:induction false} MonthOrder(d: int, j: int, k: int)
    requires FirstDayOfMonth(k) <= d < FirstDayOfMonth(j + 1)
    ensures k <= j
  {
    if j < k {
      MonthsAscend(j + 1, k);
    }
  }

  /** Only one month contains a given day. */
  lemma {:induction false} MonthIndexUnique(d: int, k: int)
    requires FirstDayOfMonth(k) <= d < FirstDayOfMonth(k + 1)
    ensures MonthIndexFromDay(d) == k
  {
    var k' := MonthIndexFromDay(d);
    MonthOrder(d, k, k');
    MonthOrder(d, k', k);
  }

  // ---- the getters' arithmetic (15.9.1.3 to 15.9.1.10) ----

  function YearFromTime(t: int): int { MonthIndexFromDay(Day(t)) / 12 }

  function MonthFromTime(t: int): int { MonthIndexFromDay(Day(t)) % 12 }

  function DateFromTime(t: int): int { Day(t) - FirstDayOfMonth(MonthIndexFromDay(Day(t))) + 1 }

  function HourFromTime(t: int): int { (t / MsPerHour) % 24 }

  function MinFromTime(t: int): int { (t / MsPerMinute) % 60 }

  function SecFromTime(t: int): int { (t / MsPerSecond) % 60 }

  function MsFromTime(t: int): int { t % MsPerSecond }

  /**
   * YearFromTime is the standard's: the year whose days include Day(t), so the
   * largest year that starts no later.
   */
  lemma {:induction false} YearFromTimeIsYear(t: int)
    ensures DayFromYear(YearFromTime(t)) <= Day(t) < DayFromYear(YearFromTime(t) + 1)
  {
    var k := MonthIndexFromDay(Day(t));
    MonthBounds(k);
    MonthStartWithinYear(k / 12, k % 12);
    MonthStartWithinYear(k / 12, k % 12 + 1);
    NextYear(k / 12);
  }

  /**
   * MonthFromTime and DateFromTime are the standard's: the month is the row of
   * the month table that the day within the year falls in, and the date counts
   * from that row's first day.
   */
  lemma {:induction false} MonthAndDateAreStandard(t: int)
    ensures var dayInYear := Day(t) - DayFromYear(YearFromTime(t));
            var leap := IsLeapYear(YearFromTime(t));
            0 <= MonthFromTime(t) < 12 &&
            MonthStart(MonthFromTime(t), leap) <= dayInYear < MonthStart(MonthFromTime(t) + 1, leap) &&
            DateFromTime(t) == dayInYear - MonthStart(MonthFromTime(t), leap) + 1
  {
    MonthBounds(MonthIndexFromDay(Day(t)));
  }

  /** No year after YearFromTime(t) starts on or before Day(t). */
  lemma {:induction false} YearFromTimeIsLargest(t: int, y: int)
    requires DayFromYear(y) <= Day(t)
    ensures y <= YearFromTime(t)
  {
    YearFromTimeIsYear(t);
    if y > YearFromTime(t) {
      YearsAscend(YearFromTime(t) + 1, y);
    }
  }

  lemma {:induction false} YearsAscend(x: int, y: int)
    requires x <= y
    ensures DayFromYear(x) <= DayFromYear(y)
    decreases y - x
  {
    if x < y {
      YearsAscend(x, y - 1);
      NextYear(y - 1);
    }
  }

  /** The year and month of a time value name the month its day falls in. */
  lemma {:induction false} MonthIndexOfFields(t: int)
    ensures 12 * YearFromTime(t) + MonthFromTime(t) == MonthIndexFromDay(Day(t))
  {
  }

  /** The date of a time value is a day of its month. */
  lemma {:induction false} DateInMonth(t: int)
    ensures 1 <= DateFromTime(t) <= DaysInMonth(MonthIndexFromDay(Day(t)))
  {
    NextMonth(MonthIndexFromDay(Day(t)));
  }

  /** The hour, minute, second and millisecond fields determine the time within the day. */
  lemma {:induction false} TimeFromFields(t: int)
    ensures TimeWithinDay(t) == MakeTime(HourFromTime(t), MinFromTime(t), SecFromTime(t), MsFromTime(t))
  {
    var s := t / MsPerSecond;
    var m := s / 60;
    var h := m / 60;
    assert t / MsPerMinute == m;
    assert t / MsPerHour == h;
    assert t / MsPerDay == h / 24;
  }

  /** A day number and a time within the day give back both parts. */
  lemma {:induction false} DateParts(day: int, time: int)
    requires 0 <= time < MsPerDay
    ensures Day(MakeDate(day, time)) == day && TimeWithinDay(MakeDate(day, time)) == time
  {
  }

  // ---- 15.9.1.11 to 15.9.1.13 ----

  function MakeTime(hour: int, min: int, sec: int, ms: int): int {
    hour * MsPerHour + min * MsPerMinute + sec * MsPerSecond + ms
  }

  /** MakeDay: `date - 1` days after the first day of month `month` of year `year`, both normalised. */
  function MakeDay(year: int, month: int, date: int): int {
    FirstDayOfMonth(12 * year + month) + date - 1
  }

  function MakeDate(day: int, time: int): int { day * MsPerDay + time }

  /**
   * MakeDay as 15.9.1.12 states it: the first day of the month is the day whose
   * year is year + floor(month / 12), whose month is month modulo 12 and whose
   * date is 1.
   */
  lemma {:induction false} MakeDayFindsFirstOfMonth(year: int, month: int)
    ensures YearFromTime(MakeDate(MakeDay(year, month, 1), 0)) == year + month / 12
    ensures MonthFromTime(MakeDate(MakeDay(year, month, 1), 0)) == month % 12
    ensures DateFromTime(MakeDate(MakeDay(year, month, 1), 0)) == 1
  {
    var k := 12 * year + month;
    DateParts(MakeDay(year, month, 1), 0);
    MonthLength(k);
    MonthIndexUnique(FirstDayOfMonth(k), k);
    assert k / 12 == year + month / 12 && k % 12 == month % 12;
  }

  // ---- the UTC getters and setters (15.9.5), with NaN propagation ----

  function UTCFullYear(t: Num): Num { if t.NaN? then NaN else Num(YearFromTime(t.value)) }

  function UTCMonth(t: Num): Num { if t.NaN? then NaN else Num(MonthFromTime(t.value)) }

  function UTCDate(t: Num): Num { if t.NaN? then NaN else Num(DateFromTime(t.value)) }

  function UTCHours(t: Num): Num { if t.NaN? then NaN else Num(HourFromTime(t.value)) }

  function UTCMinutes(t: Num): Num { if t.NaN? then NaN else Num(MinFromTime(t.value)) }

  function UTCSeconds(t: Num): Num { if t.NaN? then NaN else Num(SecFromTime(t.value)) }

  /** setUTCFullYear (15.9.5.41) with one argument; an invalid date counts as time +0. */
  function WithUTCFullYear(t: Num, year: Num): Num {
    var t0 := if t.NaN? then 0 else t.value;
    if year.NaN? then NaN
    else TimeClip(MakeDate(MakeDay(year.value, MonthFromTime(t0), DateFromTime(t0)), TimeWithinDay(t0)))
  }

  /** setUTCMonth (15.9.5.39) with one argument. */
  function WithUTCMonth(t: Num, month: Num): Num {
    if t.NaN? || month.NaN? then NaN
    else TimeClip(MakeDate(MakeDay(YearFromTime(t.value), month.value, DateFromTime(t.value)), TimeWithinDay(t.value)))
  }

  /** setUTCDate (15.9.5.37). */
  function WithUTCDate(t: Num, date: Num): Num {
    if t.NaN? || date.NaN? then NaN
    else TimeClip(MakeDate(MakeDay(YearFromTime(t.value), MonthFromTime(t.value), date.value), TimeWithinDay(t.value)))
  }

  /** setUTCHours (15.9.5.35) with one argument. */
  function WithUTCHours(t: Num, hour: Num): Num {
    if t.NaN? || hour.NaN? then NaN
    else TimeClip(MakeDate(Day(t.value), MakeTime(hour.value, MinFromTime(t.value), SecFromTime(t.value), MsFromTime(t.value))))
  }

  /** setUTCMinutes (15.9.5.33) with one argument. */
  function WithUTCMinutes(t: Num, min: Num): Num {
    if t.NaN? || min.NaN? then NaN
    else TimeClip(MakeDate(Day(t.value), MakeTime(HourFromTime(t.value), min.value, SecFromTime(t.value), MsFromTime(t.value))))
  }

  /** setUTCSeconds (15.9.5.31) with one argument. */
  function WithUTCSeconds(t: Num, sec: Num): Num {
    if t.NaN? || sec.NaN? then NaN
    else TimeClip(MakeDate(Day(t.value), MakeTime(HourFromTime(t.value), MinFromTime(t.value), sec.value, MsFromTime(t.value))))
  }

  // ---- what the setters do when a field is lowered by an amount ----

  /**
   * The time value `j` months before `t` by calendar: same day of month (letting
   * it overflow into the next month) and same time of day, before clipping.
   */
  function MonthsEarlier(t: int, j: int): int {
    MakeDate(FirstDayOfMonth(MonthIndexFromDay(Day(t)) - j) + DateFromTime(t) - 1, TimeWithinDay(t))
  }

  /** MakeDay from a month index's year and month, moved by whole years and months. */
  lemma {:induction false} MakeDayMoved(y: int, m: int, k: int, yearsBack: int, monthsBack: int, date: int)
    requires 12 * y + m == k
    ensures MakeDay(y - yearsBack, m - monthsBack, date) == FirstDayOfMonth(k - 12 * yearsBack - monthsBack) + date - 1
  {
    assert 12 * (y - yearsBack) + (m - monthsBack) == k - 12 * yearsBack - monthsBack;
  }

  lemma {:induction false} YearSetterShift(t: int, n: int)
    ensures WithUTCFullYear(Num(t), Num(YearFromTime(t) - n)) == TimeClip(MonthsEarlier(t, 12 * n))
  {
    MonthIndexOfFields(t);
    MakeDayMoved(YearFromTime(t), MonthFromTime(t), MonthIndexFromDay(Day(t)), n, 0, DateFromTime(t));
  }

  lemma {:induction false} MonthSetterShift(t: int, n: int)
    ensures WithUTCMonth(Num(t), Num(MonthFromTime(t) - n)) == TimeClip(MonthsEarlier(t, n))
  {
    MonthIndexOfFields(t);
    MakeDayMoved(YearFromTime(t), MonthFromTime(t), MonthIndexFromDay(Day(t)), 0, n, DateFromTime(t));
  }

  /** MakeDay on a time value's own year and month counts from the first day of its month. */
  lemma {:induction false} MakeDayOfFields(t: int, date: int)
    ensures MakeDay(YearFromTime(t), MonthFromTime(t), date) == FirstDayOfMonth(MonthIndexFromDay(Day(t))) + date - 1
  {
    MonthIndexOfFields(t);
  }

  /** Whole days taken off a time value's day number come off its time value. */
  lemma {:induction false} DaysEarlier(t: int, n: int)
    ensures MakeDate(Day(t) - n, TimeWithinDay(t)) == t - n * MsPerDay
  {
  }

  lemma {:induction false} DateSetterShift(t: int, n: int)
    ensures WithUTCDate(Num(t), Num(DateFromTime(t) - n)) == TimeClip(t - n * MsPerDay)
  {
    MakeDayOfFields(t, DateFromTime(t) - n);
    DaysEarlier(t, n);
  }

  lemma {:induction false} HourSetterShift(t: int, n: int)
    ensures WithUTCHours(Num(t), Num(HourFromTime(t) - n)) == TimeClip(t - n * MsPerHour)
  {
    TimeFromFields(t);
  }

  lemma {:induction false} MinuteSetterShift(t: int, n: int)
    ensures WithUTCMinutes(Num(t), Num(MinFromTime(t) - n)) == TimeClip(t - n * MsPerMinute)
  {
    TimeFromFields(t);
  }

  lemma {:induction false} SecondSetterShift(t: int, n: int)
    ensures WithUTCSeconds(Num(t), Num(SecFromTime(t) - n)) == TimeClip(t - n * MsPerSecond)
  {
    TimeFromFields(t);
  }

  /** Going back by months keeps the time of day. */
  lemma {:induction false} MonthsEarlierTimeOfDay(t: int, j: int)
    ensures TimeWithinDay(MonthsEarlier(t, j)) == TimeWithinDay(t)
  {
    DateParts(FirstDayOfMonth(MonthIndexFromDay(Day(t)) - j) + DateFromTime(t) - 1, TimeWithinDay(t));
  }

  /** A moment of a day of month `k` has month index `k`, and its date counts from the month's first day. */
  lemma {:induction false} MomentOfDay(k: int, day: int, time: int)
    requires FirstDayOfMonth(k) <= day < FirstDayOfMonth(k + 1) && 0 <= time < MsPerDay
    ensures MonthIndexFromDay(Day(MakeDate(day, time))) == k
    ensures DateFromTime(MakeDate(day, time)) == day - FirstDayOfMonth(k) + 1
  {
    DateParts(day, time);
    MonthIndexUnique(day, k);
  }

  /** A moment of day `dt` of month `k` falls in month `k` on date `dt`. */
  lemma {:induction false} MomentInMonth(k: int, dt: int, time: int)
    requires 1 <= dt <= DaysInMonth(k) && 0 <= time < MsPerDay
    ensures MonthIndexFromDay(Day(MakeDate(FirstDayOfMonth(k) + dt - 1, time))) == k
    ensures DateFromTime(MakeDate(FirstDayOfMonth(k) + dt - 1, time)) == dt
  {
    NextMonth(k);
    MomentOfDay(k, FirstDayOfMonth(k) + dt - 1, time);
  }

  /** A moment of day `dt` counted from month `k`, past its end, falls in month `k + 1`. */
  lemma {:induction false} MomentPastMonth(k: int, dt: int, time: int)
    requires DaysInMonth(k) < dt <= 31 && 0 <= time < MsPerDay
    ensures MonthIndexFromDay(Day(MakeDate(FirstDayOfMonth(k) + dt - 1, time))) == k + 1
    ensures DateFromTime(MakeDate(FirstDayOfMonth(k) + dt - 1, time)) == dt - DaysInMonth(k)
  {
    NextMonth(k);
    MonthLength(k + 1);
    MomentOfDay(k + 1, FirstDayOfMonth(k) + dt - 1, time);
  }

  /** Going back `j` months keeps the date when the month `j` months back is long enough. */
  lemma {:induction false} MonthsEarlierSameDate(t: int, j: int)
    requires DateFromTime(t) <= DaysInMonth(MonthIndexFromDay(Day(t)) - j)
    ensures MonthIndexFromDay(Day(MonthsEarlier(t, j))) == MonthIndexFromDay(Day(t)) - j
    ensures DateFromTime(MonthsEarlier(t, j)) == DateFromTime(t)
  {
    DateInMonth(t);
    MomentInMonth(MonthIndexFromDay(Day(t)) - j, DateFromTime(t), TimeWithinDay(t));
  }

  /**
   * When the month `j` months back is too short for the date, the surplus days
   * run into the month after it (31 March less one month is 3 March, or 2 March
   * in a leap year).
   */
  lemma {:induction false} MonthsEarlierOverflow(t: int, j: int)
    requires DateFromTime(t) > DaysInMonth(MonthIndexFromDay(Day(t)) - j)
    ensures MonthIndexFromDay(Day(MonthsEarlier(t, j))) == MonthIndexFromDay(Day(t)) - j + 1
    ensures DateFromTime(MonthsEarlier(t, j)) == DateFromTime(t) - DaysInMonth(MonthIndexFromDay(Day(t)) - j)
  {
    DateInMonth(t);
    DaysInMonthRange(MonthIndexFromDay(Day(t)));
    MomentPastMonth(MonthIndexFromDay(Day(t)) - j, DateFromTime(t), TimeWithinDay(t));
  }

  /** Going back a non-negative number of months never moves a time value later. */
  lemma {:induction false} MonthsEarlierNotLater(t: int, j: int)
    requires j >= 0
    ensures MonthsEarlier(t, j) <= t
    ensures j > 0 ==> MonthsEarlier(t, j) < t
  {
    var k := MonthIndexFromDay(Day(t));
    DateInMonth(t);
    MonthsAscend(k - j, k);
  }

  /** A JavaScript Date object: its one piece of state is its time value. */
  class Date {
    var time: Num

    /** `new Date()` at the instant `now`. */
    constructor (now: int)
      requires InTimeRange(now)
      ensures time == Num(now)
    {
      time := Num(now);
    }

    /** The year whose days include the day of the time value. */
    function GetUTCFullYear(): (y: Num)
      reads this
      ensures y == UTCFullYear(time)
      ensures y.Num? ==> DayFromYear(y.value) <= Day(time.value) < DayFromYear(y.value + 1)
    {
      if time.Num? then YearFromTimeIsYear(time.value); UTCFullYear(time) else NaN
    }

    /** The month, 0 for January: with the year it names the month the day falls in. */
    function GetUTCMonth(): (m: Num)
      reads this
      ensures m.NaN? <==> time.NaN?
      ensures m.Num? ==> 0 <= m.value < 12 && 12 * YearFromTime(time.value) + m.value == MonthIndexFromDay(Day(time.value))
    {
      UTCMonth(time)
    }

    /** The day of the month, from 1 to the length of that month. */
    function GetUTCDate(): (d: Num)
      reads this
      ensures d == UTCDate(time)
      ensures d.Num? ==> 1 <= d.value <= DaysInMonth(MonthIndexFromDay(Day(time.value)))
    {
      if time.Num? then DateInMonth(time.value); UTCDate(time) else NaN
    }

    function GetUTCHours(): (h: Num)
      reads this
      ensures h.NaN? <==> time.NaN?
      ensures h.Num? ==> 0 <= h.value < 24
    {
      UTCHours(time)
    }

    function GetUTCMinutes(): (m: Num)
      reads this
      ensures m.NaN? <==> time.NaN?
      ensures m.Num? ==> 0 <= m.value < 60
    {
      UTCMinutes(time)
    }

    function GetUTCSeconds(): (s: Num)
      reads this
      ensures s.NaN? <==> time.NaN?
      ensures s.Num? ==> 0 <= s.value < 60
    {
      UTCSeconds(time)
    }

    method SetUTCFullYear(year: Num)
      modifies this
      ensures time == WithUTCFullYear(old(time), year)
    {
      time := WithUTCFullYear(time, year);
    }

    method SetUTCMonth(month: Num)
      modifies this
      ensures time == WithUTCMonth(old(time), month)
    {
      time := WithUTCMonth(time, month);
    }

    method SetUTCDate(date: Num)
      modifies this
      ensures time == WithUTCDate(old(time), date)
    {
      time := WithUTCDate(time, date);
    }

    method SetUTCHours(hour: Num)
      modifies this
      ensures time == WithUTCHours(old(time), hour)
    {
      time := WithUTCHours(time, hour);
    }

    method SetUTCMinutes(min: Num)
      modifies this
      ensures time == WithUTCMinutes(old(time), min)
    {
      time := WithUTCMinutes(time, min);
    }

    method SetUTCSeconds(sec: Num)
      modifies this
      ensures time == WithUTCSeconds(old(time), sec)
    {
      time := WithUTCSeconds(time, sec);
    }
  }
}
