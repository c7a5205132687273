/** Calendar time in UTC on the proleptic Gregorian calendar: the month step that
    core/control/model.go takes through AddDate(0, 1, 0). */
module CivilTime {
  /** Nanoseconds since 0000-01-01T00:00:00Z. */
  type Time = int

  const DAY: int := 86_400_000_000_000

  datatype Date = Date(year: int, month: int, day: int)

  predicate IsLeap(y: int) {
    y % 4 == 0 && (y % 100 != 0 || y % 400 == 0)
  }

  function YearLength(y: int): int {
    if IsLeap(y) then 366 else 365
  }

  function MonthLength(y: int, m: int): int {
    if m == 2 then (if IsLeap(y) then 29 else 28)
    else if m == 4 || m == 6 || m == 9 || m == 11 then 30
    else 31
  }

  /** Days from 0000-01-01 to the first day of year y. */
  function DaysBeforeYear(y: int): int {
    365 * y + (y + 3) / 4 - (y + 99) / 100 + (y + 399) / 400
  }

  /** Days from the first day of year y to the first day of month m. */
  function DaysBeforeMonth(y: int, m: int): int
    requires 1 <= m <= 13
  {
    if m == 1 then 0 else DaysBeforeMonth(y, m - 1) + MonthLength(y, m - 1)
  }

  predicate ValidDate(d: Date) {
    1 <= d.month <= 12 && 1 <= d.day <= MonthLength(d.year, d.month)
  }

  /** The day number of a date whose month may be 13 and whose day may overflow its month: both
      are carried over, as time.Date does. */
  function DayNumber(y: int, m: int, d: int): int
    requires 1 <= m <= 13
  {
    if m == 13 then DaysBeforeYear(y + 1) + d - 1
    else DaysBeforeYear(y) + DaysBeforeMonth(y, m) + d - 1
  }

  predicate HasNumber(d: Date, n: int) {
    ValidDate(d) && DayNumber(d.year, d.month, d.day) == n
  }

  lemma YearStep(y: int)
    ensures DaysBeforeYear(y + 1) == DaysBeforeYear(y) + YearLength(y)
  {
    Every4(y);
    Every100(y);
    Every400(y);
  }

  lemma Every4(y: int)
    ensures (y + 4) / 4 == (y + 3) / 4 + if y % 4 == 0 then 1 else 0
  {}

  lemma Every100(y: int)
    ensures (y + 100) / 100 == (y + 99) / 100 + if y % 100 == 0 then 1 else 0
    ensures y % 100 == 0 ==> y % 4 == 0
  {
    var q, r := y / 100, y % 100;
    Divide100(q + 1, r);
    Divide100(if r == 0 then q else q + 1, if r == 0 then 99 else r - 1);
  }

  lemma Every400(y: int)
    ensures (y + 400) / 400 == (y + 399) / 400 + if y % 400 == 0 then 1 else 0
    ensures y % 400 == 0 ==> y % 100 == 0
  {
    var q, r := y / 400, y % 400;
    Divide400(q + 1, r);
    Divide400(if r == 0 then q else q + 1, if r == 0 then 399 else r - 1);
    if r == 0 {
      Divide100(4 * q, 0);
    }
  }

  lemma Divide100(q: int, r: int)
    requires 0 <= r < 100
    ensures (100 * q + r) / 100 == q && (100 * q + r) % 100 == r
  {}

  lemma Divide400(q: int, r: int)
    requires 0 <= r < 400
    ensures (400 * q + r) / 400 == q && (400 * q + r) % 400 == r
  {}

  lemma MonthsFillYear(y: int)
    ensures DaysBeforeMonth(y, 13) == YearLength(y)
  {
    assert DaysBeforeMonth(y, 2) == 31;
    assert DaysBeforeMonth(y, 3) == 31 + MonthLength(y, 2);
    assert DaysBeforeMonth(y, 5) == DaysBeforeMonth(y, 3) + 61;
    assert DaysBeforeMonth(y, 7) == DaysBeforeMonth(y, 5) + 61;
    assert DaysBeforeMonth(y, 9) == DaysBeforeMonth(y, 7) + 62;
    assert DaysBeforeMonth(y, 11) == DaysBeforeMonth(y, 9) + 61;
  }

  // ---- from day numbers back to dates ------------------------------------------------------

  /** The year a day falls in, searching upwards from y. */
  function FindYear(y: int, n: int): (r: int)
    requires DaysBeforeYear(y) <= n
    ensures DaysBeforeYear(r) <= n < DaysBeforeYear(r + 1)
    decreases n - DaysBeforeYear(y)
  {
    YearStep(y);
    if n < DaysBeforeYear(y + 1) then y else FindYear(y + 1, n)
  }

  function FindMonth(y: int, m: int, r: int): (k: int)
    requires 1 <= m <= 12 && DaysBeforeMonth(y, m) <= r < DaysBeforeMonth(y, 13)
    ensures 1 <= k <= 12 && DaysBeforeMonth(y, k) <= r < DaysBeforeMonth(y, k + 1)
    decreases 12 - m
  {
    if r < DaysBeforeMonth(y, m + 1) then m else FindMonth(y, m + 1, r)
  }

  lemma CycleStart(n: int)
    ensures DaysBeforeYear(400 * (n / 146097)) <= n
  {
    var k := n / 146097;
    assert DaysBeforeYear(400 * k) == 146097 * k by {
      assert (400 * k + 3) / 4 == 100 * k;
      assert (400 * k + 99) / 100 == 4 * k;
      assert (400 * k + 399) / 400 == k;
    }
  }

  /** Every day number is that of some date: years repeat every 400. */
  lemma DateExists(n: int)
    ensures exists d: Date :: HasNumber(d, n)
  {
    CycleStart(n);
    var y := FindYear(400 * (n / 146097), n);
    YearStep(y);
    MonthsFillYear(y);
    var r := n - DaysBeforeYear(y);
    var m := FindMonth(y, 1, r);
    assert HasNumber(Date(y, m, r - DaysBeforeMonth(y, m) + 1), n);
  }

  lemma {:induction false} YearsIncrease(a: int, b: int)
    requires a <= b
    ensures DaysBeforeYear(a) <= DaysBeforeYear(b)
    decreases b - a
  {
    if a < b {
      YearStep(a);
      YearsIncrease(a + 1, b);
    }
  }

  lemma {:induction false} MonthsIncrease(y: int, a: int, b: int)
    requires 1 <= a <= b <= 13
    ensures DaysBeforeMonth(y, a) <= DaysBeforeMonth(y, b)
    decreases b - a
  {
    if a < b {
      MonthsIncrease(y, a, b - 1);
    }
  }

  lemma DayWithinYear(d: Date)
    requires ValidDate(d)
    ensures DaysBeforeYear(d.year) <= DayNumber(d.year, d.month, d.day) < DaysBeforeYear(d.year + 1)
    ensures var r := DayNumber(d.year, d.month, d.day) - DaysBeforeYear(d.year);
            && DaysBeforeMonth(d.year, d.month) <= r < DaysBeforeMonth(d.year, d.month + 1)
            && d.day == r - DaysBeforeMonth(d.year, d.month) + 1
  {
    hide DaysBeforeYear;
    YearStep(d.year);
    MonthsFillYear(d.year);
    MonthsIncrease(d.year, d.month + 1, 13);
    MonthsIncrease(d.year, 1, d.month);
  }

  lemma SameNumber(d: Date, e: Date)
    requires ValidDate(d) && HasNumber(e, DayNumber(d.year, d.month, d.day))
    ensures d == e
  {
    DayWithinYear(d);
    DayWithinYear(e);
    hide *;
    if d.year < e.year {
      YearsIncrease(d.year + 1, e.year);
    } else if e.year < d.year {
      YearsIncrease(e.year + 1, d.year);
    } else if d.month < e.month {
      MonthsIncrease(d.year, d.month + 1, e.month);
    } else if e.month < d.month {
      MonthsIncrease(d.year, e.month + 1, d.month);
    }
  }

  lemma OneDate(n: int)
    ensures forall d: Date, e: Date :: HasNumber(d, n) && HasNumber(e, n) ==> d == e
  {
    forall d: Date, e: Date | HasNumber(d, n) && HasNumber(e, n) ensures d == e {
      SameNumber(d, e);
    }
  }

  /** The calendar date of a day number. */
  function CivilDate(n: int): (d: Date)
    ensures HasNumber(d, n)
  {
    DateExists(n);
    OneDate(n);
    var d: Date :| HasNumber(d, n);
    d
  }

  /** Every day number has exactly one calendar date. */
  lemma DateUnique(d: Date)
    requires ValidDate(d)
    ensures CivilDate(DayNumber(d.year, d.month, d.day)) == d
  {
    SameNumber(d, CivilDate(DayNumber(d.year, d.month, d.day)));
  }

  // ---- the month step ----------------------------------------------------------------------

  /** AddDate(0, 1, 0): one month later on the same day and time of day, days past the end of
      that month carried into the following one. */
  function AddMonth(t: Time): Time {
    var d := CivilDate(t / DAY);
    DayNumber(d.year, d.month + 1, d.day) * DAY + t % DAY
  }

  /** The step has the length of the month it starts in: 28 to 31 days. */
  lemma AddMonthLength(t: Time)
    ensures var d := CivilDate(t / DAY);
            AddMonth(t) == t + MonthLength(d.year, d.month) * DAY
    ensures t + 28 * DAY <= AddMonth(t) <= t + 31 * DAY
  {
    var d := CivilDate(t / DAY);
    YearStep(d.year);
    MonthsFillYear(d.year);
    var n := t / DAY;
    assert DayNumber(d.year, d.month + 1, d.day) == n + MonthLength(d.year, d.month);
    assert t == n * DAY + t % DAY;
  }

  /** The date one month later, with days past the end of the month carried over. */
  function MonthLater(d: Date): Date
    requires ValidDate(d)
  {
    var y, m := if d.month == 12 then d.year + 1 else d.year, if d.month == 12 then 1 else d.month + 1;
    if d.day <= MonthLength(y, m) then Date(y, m, d.day) else Date(y, m + 1, d.day - MonthLength(y, m))
  }

  /** Where the step lands on the calendar. */
  lemma AddMonthLands(t: Time)
    ensures AddMonth(t) % DAY == t % DAY && CivilDate(AddMonth(t) / DAY) == MonthLater(CivilDate(t / DAY))
  {
    var d := CivilDate(t / DAY);
    SplitDay(DayNumber(d.year, d.month + 1, d.day), t % DAY);
    hide CivilDate, DayNumber, MonthLater;
    MonthLaterNumber(d);
    DateUnique(MonthLater(d));
  }

  lemma MonthLaterNumber(d: Date)
    requires ValidDate(d)
    ensures ValidDate(MonthLater(d))
    ensures var e := MonthLater(d); DayNumber(e.year, e.month, e.day) == DayNumber(d.year, d.month + 1, d.day)
  {
    hide DaysBeforeYear;
  }

  lemma SplitDay(n: int, r: int)
    requires 0 <= r < DAY
    ensures (n * DAY + r) / DAY == n && (n * DAY + r) % DAY == r
  {}

  // ---- the calendar, independently ---------------------------------------------------------

  /** The days before a month in closed form: 367/12 days a month, less the days February lacks. */
  lemma DaysBeforeMonthClosed(y: int, m: int)
    requires 1 <= m <= 13
    ensures DaysBeforeMonth(y, m) == (367 * m - 362) / 12 - (if m <= 2 then 0 else if IsLeap(y) then 1 else 2)
  {
    hide IsLeap;
    if m > 1 {
      DaysBeforeMonthClosed(y, m - 1);
    }
  }

  /** The length of a month in closed form. */
  lemma MonthLengthClosed(y: int, m: int)
    requires 1 <= m <= 12
    ensures m != 2 ==> MonthLength(y, m) == 30 + (m + m / 8) % 2
    ensures MonthLength(y, 2) == if y % 400 == 0 || (y % 4 == 0 && y % 100 != 0) then 29 else 28
  {}

  /** Unix time begins 719528 days after the year 0; 2000 is a leap year and 2100 is not. */
  lemma KnownDates()
    ensures DayNumber(1970, 1, 1) == 719_528 && DayNumber(2000, 3, 1) == 730_545 && DayNumber(2100, 3, 1) == 767_069
  {}

  /** A month from the 15th or the 31st, in a common year. */
  lemma KnownSteps()
    ensures AddMonth(DayNumber(2023, 6, 15) * DAY) == DayNumber(2023, 7, 15) * DAY
    ensures AddMonth(DayNumber(2023, 1, 31) * DAY) == DayNumber(2023, 3, 3) * DAY
  {
    hide AddMonth;
    KnownStep(Date(2023, 6, 15));
    KnownStep(Date(2023, 1, 31));
  }

  lemma KnownStep(d: Date)
    requires ValidDate(d)
    ensures AddMonth(DayNumber(d.year, d.month, d.day) * DAY) == DayNumber(d.year, d.month + 1, d.day) * DAY
  {
    hide CivilDate, DayNumber;
    DateUnique(d);
    SplitDay(DayNumber(d.year, d.month, d.day), 0);
  }
}
