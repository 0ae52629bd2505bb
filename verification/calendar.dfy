/** The proleptic Gregorian calendar, counted in days from 1970-01-01. */
module Calendar {
  import Arithmetic

  datatype Date = Date(year: int, month: int, day: int)

  predicate Leap(y: int) {
    y % 4 == 0 && (y % 100 != 0 || y % 400 == 0)
  }

  function DaysIn(y: int, m: int): (n: nat)
    ensures 28 <= n <= 31
  {
    if m == 2 then (if Leap(y) then 29 else 28)
    else if m == 4 || m == 6 || m == 9 || m == 11 then 30
    else 31
  }

  predicate Valid(d: Date) {
    1 <= d.month <= 12 && 1 <= d.day <= DaysIn(d.year, d.month)
  }

  function Next(d: Date): (r: Date)
  {
    if d.day < DaysIn(d.year, d.month) then Date(d.year, d.month, d.day + 1)
    else if d.month < 12 then Date(d.year, d.month + 1, 1)
    else Date(d.year + 1, 1, 1)
  }

  function Prev(d: Date): (r: Date)
  {
    if d.day > 1 then Date(d.year, d.month, d.day - 1)
    else if d.month > 1 then Date(d.year, d.month - 1, DaysIn(d.year, d.month - 1))
    else Date(d.year - 1, 12, 31)
  }

  const EPOCH: Date := Date(1970, 1, 1)

  /** The date `n` days after 1970-01-01 (before it, when negative). */
  function DateOf(n: int): (d: Date)
    ensures Valid(d)
    decreases if n < 0 then -n else n
  {
    if n == 0 then EPOCH else if n > 0 then Next(DateOf(n - 1)) else Prev(DateOf(n + 1))
  }

  /** Days from Sunday: 1970-01-01 was a Thursday. */
  function Weekday(n: int): (w: nat)
    ensures w < 7
  {
    (n + 4) % 7
  }

  // ---- counting days without stepping ----------------------------------------

  function DaysBeforeYear(y: int): (n: int)
  {
    365 * (y - 1) + (y - 1) / 4 - (y - 1) / 100 + (y - 1) / 400
  }

  function DaysBeforeMonth(y: int, m: int): (n: nat)
    requires 1 <= m <= 13
  {
    if m == 1 then 0 else DaysBeforeMonth(y, m - 1) + DaysIn(y, m - 1)
  }

  function DayNumber(d: Date): (n: int)
    requires Valid(d)
  {
    DaysBeforeYear(d.year) - 719162 + DaysBeforeMonth(d.year, d.month) + d.day - 1
  }

  /** Counting weeks from 1 January of year 1, a Monday. */
  function WeekdayOf(d: Date): (w: nat)
    requires Valid(d)
  {
    (DaysBeforeYear(d.year) + DaysBeforeMonth(d.year, d.month) + d.day) % 7
  }

  /** The weekday counted from 1970 is the calendar's; 1 January 2024 was a Monday, and weekdays go round in order. */
  lemma WeekdayIs(d: Date)
    requires Valid(d)
    ensures Weekday(DayNumber(d)) == WeekdayOf(d)
    ensures WeekdayOf(Date(2024, 1, 1)) == 1
    ensures WeekdayOf(Next(d)) == if WeekdayOf(d) == 6 then 0 else WeekdayOf(d) + 1
  {
    NextCounts(d);
    WeekdayCounts(d);
    WeekdayCounts(Next(d));
    var monday := Date(2024, 1, 1);
    assert Valid(monday) && WeekdayOf(monday) == 1 by { assert DaysBeforeYear(2024) == 738885; }
    hide WeekdayOf, Next, DayNumber, Valid;
    NextOfSeven(DayNumber(d) + 719163);
    SevenMore(DayNumber(d) + 719163, -102737);
  }

  lemma WeekdayCounts(d: Date)
    requires Valid(d)
    ensures WeekdayOf(d) == (DayNumber(d) + 719163) % 7
  {
  }

  lemma NextOfSeven(n: int)
    ensures (n + 1) % 7 == if n % 7 == 6 then 0 else n % 7 + 1
  {
  }

  lemma SevenMore(n: int, k: int)
    ensures (n + 7 * k) % 7 == n % 7
  {
    Arithmetic.ModUnique(n + 7 * k, 7, n / 7 + k, n % 7);
  }

  function YearLength(y: int): (n: nat)
  {
    if Leap(y) then 366 else 365
  }

  lemma YearStep(y: int)
    ensures DaysBeforeYear(y + 1) == DaysBeforeYear(y) + YearLength(y)
  {
    assert y / 4 == (y - 1) / 4 + (if y % 4 == 0 then 1 else 0);
    assert y / 100 == (y - 1) / 100 + (if y % 100 == 0 then 1 else 0);
    assert y / 400 == (y - 1) / 400 + (if y % 400 == 0 then 1 else 0);
    LeapRule(y);
  }

  lemma MultipleOf(y: int, m: int, k: int)
    requires m > 0 && y == k * m
    ensures y % m == 0
  {
    Arithmetic.ModUnique(y, m, k, 0);
  }

  lemma LeapRule(y: int)
    ensures (if Leap(y) then 1 else 0)
         == (if y % 4 == 0 then 1 else 0) - (if y % 100 == 0 then 1 else 0) + (if y % 400 == 0 then 1 else 0)
  {
    if y % 400 == 0 { MultipleOf(y, 100, 4 * (y / 400)); }
    if y % 100 == 0 { MultipleOf(y, 4, 25 * (y / 100)); }
  }

  lemma MonthsOfYear(y: int)
    ensures DaysBeforeMonth(y, 12) == 306 + DaysIn(y, 2) && DaysBeforeMonth(y, 13) == YearLength(y)
  {
    var f := DaysIn(y, 2);
    assert DaysBeforeMonth(y, 2) == 31;
    assert DaysBeforeMonth(y, 3) == 31 + f;
    assert DaysBeforeMonth(y, 4) == 62 + f;
    assert DaysBeforeMonth(y, 5) == 92 + f;
    assert DaysBeforeMonth(y, 6) == 123 + f;
    assert DaysBeforeMonth(y, 7) == 153 + f;
    assert DaysBeforeMonth(y, 8) == 184 + f;
    assert DaysBeforeMonth(y, 9) == 215 + f;
    assert DaysBeforeMonth(y, 10) == 245 + f;
    assert DaysBeforeMonth(y, 11) == 276 + f;
    assert DaysBeforeMonth(y, 12) == 306 + f;
  }

  lemma NextCounts(d: Date)
    requires Valid(d)
    ensures Valid(Next(d)) && DayNumber(Next(d)) == DayNumber(d) + 1
  {
    if d.day == DaysIn(d.year, d.month) && d.month == 12 {
      YearStep(d.year);
      MonthsOfYear(d.year);
    }
  }

  lemma PrevCounts(d: Date)
    requires Valid(d)
    ensures Valid(Prev(d)) && DayNumber(Prev(d)) == DayNumber(d) - 1
  {
    if d.day == 1 && d.month == 1 {
      YearStep(d.year - 1);
      MonthsOfYear(d.year - 1);
    }
  }

  lemma {:induction false} DayNumberOfDate(n: int)
    ensures DayNumber(DateOf(n)) == n
    decreases if n < 0 then -n else n
  {
    hide DayNumber, Next, Prev, Valid;
    if n == 0 {
      EpochCounts();
    } else if n > 0 {
      DayNumberOfDate(n - 1);
      NextCounts(DateOf(n - 1));
    } else {
      DayNumberOfDate(n + 1);
      PrevCounts(DateOf(n + 1));
    }
  }

  lemma EpochCounts()
    ensures Valid(EPOCH) && DayNumber(EPOCH) == 0
  {
  }

  lemma {:induction false} MonthsCount(y: int, m: int, m': int)
    requires 1 <= m <= m' <= 13
    ensures DaysBeforeMonth(y, m) <= DaysBeforeMonth(y, m')
    ensures m < m' ==> DaysBeforeMonth(y, m) + DaysIn(y, m) <= DaysBeforeMonth(y, m')
    decreases m' - m
  {
    if m < m' { MonthsCount(y, m, m' - 1); }
  }

  lemma DayWithinYear(d: Date)
    requires Valid(d)
    ensures DaysBeforeYear(d.year) <= DayNumber(d) + 719162 < DaysBeforeYear(d.year + 1)
  {
    MonthsCount(d.year, d.month, 13);
    MonthsOfYear(d.year);
    YearStep(d.year);
  }

  lemma {:induction false} YearsCount(y: int, y': int)
    requires y <= y'
    ensures DaysBeforeYear(y) <= DaysBeforeYear(y')
    decreases y' - y
  {
    if y < y' {
      YearStep(y' - 1);
      YearsCount(y, y' - 1);
    }
  }

  /** A later day is never in an earlier year. */
  lemma YearsAscend(c: Date, d: Date)
    requires Valid(c) && Valid(d) && DayNumber(c) <= DayNumber(d)
    ensures c.year <= d.year
  {
    DayWithinYear(c);
    DayWithinYear(d);
    if d.year < c.year { YearsCount(d.year + 1, c.year); }
  }

  lemma DayNumberInjective(c: Date, d: Date)
    requires Valid(c) && Valid(d) && DayNumber(c) == DayNumber(d)
    ensures c == d
  {
    YearsAscend(c, d);
    YearsAscend(d, c);
    if c.month < d.month {
      MonthsCount(c.year, c.month, d.month);
    } else if d.month < c.month {
      MonthsCount(c.year, d.month, c.month);
    }
  }

  /** Counting and stepping agree: the date of a date's day number is that date. */
  lemma DateOfDayNumber(d: Date)
    requires Valid(d)
    ensures DateOf(DayNumber(d)) == d
  {
    DayNumberOfDate(DayNumber(d));
    DayNumberInjective(DateOf(DayNumber(d)), d);
  }

  // ---- dates recur -----------------------------------------------------------

  predicate EveryYear(m: int, d: int) {
    1 <= m <= 12 && 1 <= d <= DaysIn(2001, m)
  }

  /** The day number of month `m`, day `d` in year `y`. */
  function In(y: int, m: int, d: int): (n: int)
    requires EveryYear(m, d)
  {
    DayNumber(Date(y, m, d))
  }

  lemma InStep(y: int, m: int, d: int)
    requires EveryYear(m, d)
    ensures 365 <= In(y + 1, m, d) - In(y, m, d) <= 366
  {
    YearStep(y);
    YearStep(y + 1);
    MonthStart(y, m);
    MonthStart(y + 1, m);
  }

  lemma {:induction false} MonthStart(y: int, m: int)
    requires 1 <= m <= 13
    ensures DaysBeforeMonth(y, m) == DaysBeforeMonth(2001, m) + (if m > 2 && Leap(y) then 1 else 0)
    decreases m
  {
    if m > 1 { MonthStart(y, m - 1); }
  }

  /** Any date other than February 29 falls within any 366 consecutive days. */
  lemma Recurs(m: int, d: int, after: int) returns (n: int)
    requires EveryYear(m, d)
    ensures after < n <= after + 366 && DateOf(n).month == m && DateOf(n).day == d
  {
    DayNumberOfDate(after);
    var y := DateOf(after).year;
    DayWithinYear(DateOf(after));
    DayWithinYear(Date(y, m, d));
    DayWithinYear(Date(y + 1, m, d));
    InStep(y, m, d);
    InStep(y - 1, m, d);
    DayWithinYear(Date(y - 1, m, d));
    n := if In(y, m, d) > after then In(y, m, d) else In(y + 1, m, d);
    DateOfDayNumber(Date(y, m, d));
    DateOfDayNumber(Date(y + 1, m, d));
  }
}
