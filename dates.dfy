/**
  Proleptic Gregorian dates as Python's `datetime.date` has them: years 1..9999,
  the ordinal of a date counted from 0001-01-01 (ordinal 1, a Monday), the
  weekday Monday = 0 .. Sunday = 6, and stepping by one day.
 */
module Dates {

  datatype Date = Date(year: int, month: int, day: int)

  const MIN_YEAR: int := 1
  const MAX_YEAR: int := 9999

  predicate IsLeapYear(y: int) {
    y % 4 == 0 && (y % 100 != 0 || y % 400 == 0)
  }

  function DaysInYear(y: int): int {
    if IsLeapYear(y) then 366 else 365
  }

  function DaysInMonth(y: int, m: int): int
    requires 1 <= m <= 12
  {
    if m == 2 then (if IsLeapYear(y) then 29 else 28)
    else if m == 4 || m == 6 || m == 9 || m == 11 then 30
    else 31
  }

  /** A date `datetime.date` accepts. */
  predicate ValidDate(d: Date) {
    MIN_YEAR <= d.year <= MAX_YEAR && 1 <= d.month <= 12 && 1 <= d.day <= DaysInMonth(d.year, d.month)
  }

  /** Days of the year `y` before the first of month `m`. */
  function DaysBeforeMonth(y: int, m: int): int
    requires 1 <= m <= 12
  {
    if m == 1 then 0 else DaysBeforeMonth(y, m - 1) + DaysInMonth(y, m - 1)
  }

  /** Days before January 1st of year `y`, counted from 0001-01-01. */
  function DaysBeforeYear(y: int): int
    requires y >= 1
  {
    var p := y - 1;
    365 * p + p / 4 - p / 100 + p / 400
  }

  /** `date.toordinal()`: 0001-01-01 has ordinal 1. */
  function Ordinal(d: Date): int
    requires ValidDate(d)
  {
    DaysBeforeYear(d.year) + DaysBeforeMonth(d.year, d.month) + d.day
  }

  /** `date.weekday()`: Monday is 0 and Sunday is 6. */
  function Weekday(d: Date): (w: int)
    requires ValidDate(d)
    ensures 0 <= w < 7
    ensures w == (Ordinal(d) - 1) % 7
  {
    (Ordinal(d) + 6) % 7
  }

  /** Chronological order of dates: by year, then month, then day. */
  predicate Before(a: Date, b: Date) {
    a.year < b.year
    || (a.year == b.year && (a.month < b.month || (a.month == b.month && a.day < b.day)))
  }

  /** Consecutive years are exactly `DaysInYear` ordinals apart. */
  lemma YearStep(y: int)
    requires y >= 1
    ensures DaysBeforeYear(y + 1) == DaysBeforeYear(y) + DaysInYear(y)
  {
    DivStep4(y);
    DivStep100(y);
    DivStep400(y);
    LeapDivisors(y);
  }

  /** A multiple of 400 is one of 100, and a multiple of 100 is one of 4. */
  lemma LeapDivisors(y: int)
    ensures y % 400 == 0 ==> y % 100 == 0
    ensures y % 100 == 0 ==> y % 4 == 0
  {
    if y % 400 == 0 {
      MultipleOf100(y, 4 * (y / 400));
    }
    if y % 100 == 0 {
      MultipleOf4(y, 25 * (y / 100));
    }
  }

  lemma MultipleOf100(y: int, t: int)
    requires y == 100 * t
    ensures y % 100 == 0
  {
  }

  lemma MultipleOf4(y: int, t: int)
    requires y == 4 * t
    ensures y % 4 == 0
  {
  }

  /** The multiples of 4 up to `y` are those up to `y - 1`, and `y` itself when it is one. */
  lemma DivStep4(y: int)
    ensures y / 4 == (y - 1) / 4 + (if y % 4 == 0 then 1 else 0)
  {
  }

  lemma DivStep100(y: int)
    ensures y / 100 == (y - 1) / 100 + (if y % 100 == 0 then 1 else 0)
  {
  }

  lemma DivStep400(y: int)
    ensures y / 400 == (y - 1) / 400 + (if y % 400 == 0 then 1 else 0)
  {
  }

  /** The months of a year tile it: each month starts where the previous one ends. */
  lemma MonthStep(y: int, m: int)
    requires 1 <= m <= 12
    ensures m < 12 ==> DaysBeforeMonth(y, m + 1) == DaysBeforeMonth(y, m) + DaysInMonth(y, m)
    ensures m == 12 ==> DaysBeforeMonth(y, m) + DaysInMonth(y, m) == DaysInYear(y)
  {
    if m == 12 {
      DaysBeforeMonthTable(y);
    }
  }

  /** The month starts agree with the familiar table 0, 31, 59, ..., 334, shifted by the leap day after February. */
  lemma DaysBeforeMonthTable(y: int)
    ensures var leap := if IsLeapYear(y) then 1 else 0;
      && DaysBeforeMonth(y, 1) == 0 && DaysBeforeMonth(y, 2) == 31
      && DaysBeforeMonth(y, 3) == 59 + leap && DaysBeforeMonth(y, 4) == 90 + leap
      && DaysBeforeMonth(y, 5) == 120 + leap && DaysBeforeMonth(y, 6) == 151 + leap
      && DaysBeforeMonth(y, 7) == 181 + leap && DaysBeforeMonth(y, 8) == 212 + leap
      && DaysBeforeMonth(y, 9) == 243 + leap && DaysBeforeMonth(y, 10) == 273 + leap
      && DaysBeforeMonth(y, 11) == 304 + leap && DaysBeforeMonth(y, 12) == 334 + leap
  {
    var leap := if IsLeapYear(y) then 1 else 0;
    assert DaysBeforeMonth(y, 2) == 31;
    assert DaysBeforeMonth(y, 3) == 59 + leap;
    assert DaysBeforeMonth(y, 4) == 90 + leap;
    assert DaysBeforeMonth(y, 5) == 120 + leap;
    assert DaysBeforeMonth(y, 6) == 151 + leap;
    assert DaysBeforeMonth(y, 7) == 181 + leap;
    assert DaysBeforeMonth(y, 8) == 212 + leap;
    assert DaysBeforeMonth(y, 9) == 243 + leap;
    assert DaysBeforeMonth(y, 10) == 273 + leap;
    assert DaysBeforeMonth(y, 11) == 304 + leap;
  }

  /** The last date `datetime.date` has: 9999-12-31. */
  const LAST_DATE: Date := Date(MAX_YEAR, 12, 31)

  /** `date + timedelta(1)`, for every date but the last one `datetime` has. */
  function NextDay(d: Date): (n: Date)
    requires ValidDate(d) && d != LAST_DATE
    ensures ValidDate(n)
  {
    if d.day < DaysInMonth(d.year, d.month) then Date(d.year, d.month, d.day + 1)
    else if d.month < 12 then Date(d.year, d.month + 1, 1)
    else Date(d.year + 1, 1, 1)
  }

  /** The day after `d` has the next ordinal. */
  lemma NextDayOrdinal(d: Date)
    requires ValidDate(d) && d != LAST_DATE
    ensures Ordinal(NextDay(d)) == Ordinal(d) + 1
  {
    MonthStep(d.year, d.month);
    if d.month == 12 && d.day == 31 {
      YearStep(d.year);
    }
  }

  /** The day after `d` is the next date: later than `d`, and no valid date lies between. */
  lemma NextDayIsSuccessor(d: Date)
    requires ValidDate(d) && d != LAST_DATE
    ensures Before(d, NextDay(d))
    ensures forall e :: ValidDate(e) && Before(d, e) ==> e == NextDay(d) || Before(NextDay(d), e)
  {
  }

  /** Weekdays advance by one, wrapping from Sunday to Monday. */
  lemma WeekdayStep(d: Date)
    requires ValidDate(d) && d != LAST_DATE
    ensures Weekday(NextDay(d)) == (Weekday(d) + 1) % 7
  {
    var o, o' := Ordinal(d), Ordinal(NextDay(d));
    NextDayOrdinal(d);
    assert o' + 6 == (o + 6) + 1;
    assert Weekday(NextDay(d)) == (o' + 6) % 7 && Weekday(d) == (o + 6) % 7;
    ModSuccessor(o + 6);
  }

  /** Remainders by 7 advance by one and wrap from 6 to 0. */
  lemma ModSuccessor(a: int)
    ensures (a + 1) % 7 == (a % 7 + 1) % 7
  {
    var q, r := a / 7, a % 7;
    assert a == 7 * q + r && 0 <= r < 7;
    if r < 6 {
      assert a + 1 == 7 * q + (r + 1);
    } else {
      assert a + 1 == 7 * (q + 1) + 0;
    }
  }

  /** Months of a year start in order, each after the previous month has ended. */
  lemma {:induction false} MonthsInOrder(y: int, m1: int, m2: int)
    requires 1 <= m1 < m2 <= 12
    ensures DaysBeforeMonth(y, m1) + DaysInMonth(y, m1) <= DaysBeforeMonth(y, m2)
    decreases m2 - m1
  {
    if m1 + 1 < m2 {
      MonthsInOrder(y, m1, m2 - 1);
    }
  }

  /** A day's position in its year lies in 1 .. DaysInYear. */
  lemma DayOfYearBounds(d: Date)
    requires ValidDate(d)
    ensures 1 <= DaysBeforeMonth(d.year, d.month) + d.day <= DaysInYear(d.year)
  {
    DaysBeforeMonthTable(d.year);
    if d.month < 12 {
      MonthsInOrder(d.year, d.month, 12);
    }
    MonthStep(d.year, 12);
  }

  /** Every year between `y1` and `y2` takes at least its own length. */
  lemma {:induction false} YearsInOrder(y1: int, y2: int)
    requires 1 <= y1 < y2
    ensures DaysBeforeYear(y1) + DaysInYear(y1) <= DaysBeforeYear(y2)
    decreases y2 - y1
  {
    YearStep(y1);
    if y1 + 1 < y2 {
      YearsInOrder(y1 + 1, y2);
    }
  }

  /** Chronological order of valid dates is the order of their ordinals. */
  lemma OrdinalOrder(a: Date, b: Date)
    requires ValidDate(a) && ValidDate(b)
    ensures Before(a, b) <==> Ordinal(a) < Ordinal(b)
    ensures a == b <==> Ordinal(a) == Ordinal(b)
  {
    DayOfYearBounds(a);
    DayOfYearBounds(b);
    if a.year < b.year {
      YearsInOrder(a.year, b.year);
    } else if b.year < a.year {
      YearsInOrder(b.year, a.year);
    } else if a.month < b.month {
      MonthsInOrder(a.year, a.month, b.month);
    } else if b.month < a.month {
      MonthsInOrder(a.year, b.month, a.month);
    }
  }

  /** Every year before the last one ends, with its following January 1st, no later than the last date. */
  lemma YearFits(year: int)
    requires MIN_YEAR <= year < MAX_YEAR
    ensures Ordinal(Date(year, 1, 1)) + DaysInYear(year) <= Ordinal(LAST_DATE)
    ensures Ordinal(Date(year + 1, 1, 1)) == Ordinal(Date(year, 1, 1)) + DaysInYear(year)
  {
    YearStep(year);
    if year + 1 < MAX_YEAR {
      YearsInOrder(year + 1, MAX_YEAR);
    }
  }

  /** `d + timedelta(n)`: the date `n` days after `d`. */
  function Advance(d: Date, n: nat): (r: Date)
    requires ValidDate(d) && Ordinal(d) + n <= Ordinal(LAST_DATE)
    ensures ValidDate(r)
    decreases n, 0
  {
    if n == 0 then d
    else
      var p := Advance(d, n - 1);
      AdvanceOrdinal(d, n - 1);
      assert p != LAST_DATE;
      NextDay(p)
  }

  /** Advancing by `n` days adds `n` to the ordinal. */
  lemma {:induction false} AdvanceOrdinal(d: Date, n: nat)
    requires ValidDate(d) && Ordinal(d) + n <= Ordinal(LAST_DATE)
    ensures Ordinal(Advance(d, n)) == Ordinal(d) + n
    decreases n, 1
  {
    if n > 0 {
      AdvanceOrdinal(d, n - 1);
      NextDayOrdinal(Advance(d, n - 1));
    }
  }

  /**
    Counting days from January 1st of `year`: the first `DaysInYear(year)`
    steps stay in the year, and the step after the last one is January 1st of
    the next year.
   */
  lemma AdvanceWithinYear(year: int, n: nat)
    requires MIN_YEAR <= year < MAX_YEAR && n <= DaysInYear(year)
    ensures Ordinal(Date(year, 1, 1)) + n <= Ordinal(LAST_DATE)
    ensures var r := Advance(Date(year, 1, 1), n);
      && (n < DaysInYear(year) <==> r.year == year)
      && (n == DaysInYear(year) ==> r == Date(year + 1, 1, 1))
  {
    YearFits(year);
    var r := Advance(Date(year, 1, 1), n);
    AdvanceOrdinal(Date(year, 1, 1), n);
    OrdinalOrder(r, Date(year + 1, 1, 1));
    OrdinalOrder(Date(year, 1, 1), r);
  }

  /** The first `n` dates of `year`, in the order they are stepped through. */
  function YearDates(year: int, n: nat): (ds: seq<Date>)
    requires MIN_YEAR <= year < MAX_YEAR && n <= DaysInYear(year)
    ensures |ds| == n
    ensures forall k :: 0 <= k < n ==> ValidDate(ds[k])
  {
    YearFits(year);
    if n == 0 then [] else YearDates(year, n - 1) + [Advance(Date(year, 1, 1), n - 1)]
  }

  /** The `k`-th date of the year is January 1st advanced by `k` days. */
  lemma {:induction false} YearDatesAt(year: int, n: nat)
    requires MIN_YEAR <= year < MAX_YEAR && n <= DaysInYear(year)
    ensures Ordinal(Date(year, 1, 1)) + n <= Ordinal(LAST_DATE)
    ensures forall k :: 0 <= k < n ==> YearDates(year, n)[k] == Advance(Date(year, 1, 1), k)
  {
    YearFits(year);
    if n > 0 {
      YearDatesAt(year, n - 1);
    }
  }

  /** The `i`-th date of the year is in the year, and the day after it is the next one (or next January 1st). */
  lemma YearDateStep(year: int, i: nat)
    requires MIN_YEAR <= year < MAX_YEAR && i < DaysInYear(year)
    ensures var ds := YearDates(year, DaysInYear(year));
      && ds[0] == Date(year, 1, 1)
      && ds[i].year == year && ds[i] != LAST_DATE
      && (i + 1 < DaysInYear(year) ==> ds[i + 1].year == year)
      && NextDay(ds[i]) == if i + 1 < DaysInYear(year) then ds[i + 1] else Date(year + 1, 1, 1)
  {
    YearDatesAt(year, DaysInYear(year));
    AdvanceWithinYear(year, i);
    AdvanceWithinYear(year, i + 1);
  }

  /** The `k`-th date of the year lies in the year, `k` days after January 1st. */
  lemma YearDateOrdinal(year: int, k: nat)
    requires MIN_YEAR <= year < MAX_YEAR && k < DaysInYear(year)
    ensures var ds := YearDates(year, DaysInYear(year));
      ds[k].year == year && Ordinal(ds[k]) == Ordinal(Date(year, 1, 1)) + k
  {
    YearDatesAt(year, DaysInYear(year));
    AdvanceOrdinal(Date(year, 1, 1), k);
    AdvanceWithinYear(year, k);
  }

  /**
    Stepping from January 1st through the whole year meets every date of the
    year exactly once, in chronological order, and no other date.
   */
  lemma YearDatesComplete(year: int)
    requires MIN_YEAR <= year < MAX_YEAR
    ensures var ds := YearDates(year, DaysInYear(year));
      && (forall k :: 0 <= k < |ds| ==> ValidDate(ds[k]) && ds[k].year == year)
      && (forall i, j :: 0 <= i < j < |ds| ==> Before(ds[i], ds[j]))
      && (forall d :: ValidDate(d) && d.year == year ==> d in ds)
  {
    var jan1 := Date(year, 1, 1);
    var ds := YearDates(year, DaysInYear(year));
    forall k | 0 <= k < |ds|
      ensures ds[k].year == year
    {
      YearDateOrdinal(year, k);
    }
    forall i, j | 0 <= i < j < |ds|
      ensures Before(ds[i], ds[j])
    {
      YearDateOrdinal(year, i);
      YearDateOrdinal(year, j);
      OrdinalOrder(ds[i], ds[j]);
    }
    forall d | ValidDate(d) && d.year == year
      ensures d in ds
    {
      YearFits(year);
      OrdinalOrder(jan1, d);
      OrdinalOrder(d, Date(year + 1, 1, 1));
      var k := Ordinal(d) - Ordinal(jan1);
      YearDateOrdinal(year, k);
      OrdinalOrder(d, ds[k]);
    }
  }

}
