/** Proleptic Gregorian calendar days, as Go's `time` package counts them:
    a day is a (year, month, day) triple, `PrevDay` is `AddDate(0, 0, -1)`
    on a midnight, and `Ordinal` numbers days consecutively with
    0001-01-01 (the day of Go's zero `time.Time`) as day 0. */
module Calendar {

  datatype Date = Date(year: int, month: int, day: int)

  /** A timestamp at second granularity (time zone and nanoseconds are not modelled). */
  datatype Timestamp = Timestamp(date: Date, hour: int, minute: int, second: int)

  predicate IsLeapYear(y: int) {
    y % 4 == 0 && (y % 100 != 0 || y % 400 == 0)
  }

  function DaysInMonth(y: int, m: int): (n: int)
    requires 1 <= m <= 12
    ensures 28 <= n <= 31
    ensures m == 2 ==> (n == 29 <==> IsLeapYear(y))
  {
    if m == 2 then (if IsLeapYear(y) then 29 else 28)
    else if m == 4 || m == 6 || m == 9 || m == 11 then 30
    else 31
  }

  predicate ValidDate(d: Date) {
    1 <= d.month <= 12 && 1 <= d.day <= DaysInMonth(d.year, d.month)
  }

  predicate ValidTimestamp(t: Timestamp) {
    ValidDate(t.date) && 0 <= t.hour < 24 && 0 <= t.minute < 60 && 0 <= t.second < 60
  }

  /** Midnight at the start of a day. */
  function Midnight(d: Date): Timestamp {
    Timestamp(d, 0, 0, 0)
  }

  /** Go's zero `time.Time`: 0001-01-01 00:00:00 UTC. */
  const ZeroTime: Timestamp := Midnight(Date(1, 1, 1))

  /** The day after `d`. */
  function NextDay(d: Date): (n: Date)
    requires ValidDate(d)
    ensures ValidDate(n)
  {
    if d.day < DaysInMonth(d.year, d.month) then Date(d.year, d.month, d.day + 1)
    else if d.month < 12 then Date(d.year, d.month + 1, 1)
    else Date(d.year + 1, 1, 1)
  }

  /** The day before `d`, rolling back over month, year and leap-day boundaries. */
  function PrevDay(d: Date): (p: Date)
    requires ValidDate(d)
    ensures ValidDate(p)
    ensures NextDay(p) == d
  {
    if d.day > 1 then Date(d.year, d.month, d.day - 1)
    else if d.month > 1 then Date(d.year, d.month - 1, DaysInMonth(d.year, d.month - 1))
    else Date(d.year - 1, 12, 31)
  }

  /** `d` stepped back `k` days. */
  function StepBack(d: Date, k: nat): (e: Date)
    requires ValidDate(d)
    ensures ValidDate(e)
    decreases k
  {
    if k == 0 then d else StepBack(PrevDay(d), k - 1)
  }

  function DaysInYear(y: int): int {
    if IsLeapYear(y) then 366 else 365
  }

  /** Days from 0001-01-01 to January 1st of year `y` (negative before year 1). */
  function DaysBeforeYear(y: int): int
    decreases if y >= 1 then y - 1 else 1 - y
  {
    if y == 1 then 0
    else if y > 1 then DaysBeforeYear(y - 1) + DaysInYear(y - 1)
    else DaysBeforeYear(y + 1) - DaysInYear(y)
  }

  /** Days in year `y` before the first of month `m` (`m == 13` means the whole year). */
  function DaysBeforeMonth(y: int, m: int): (n: int)
    requires 1 <= m <= 13
    ensures 28 * (m - 1) <= n <= 31 * (m - 1)
  {
    if m == 1 then 0 else DaysBeforeMonth(y, m - 1) + DaysInMonth(y, m - 1)
  }

  /** The day number of `d`: days elapsed since 0001-01-01. */
  function Ordinal(d: Date): int
    requires ValidDate(d)
  {
    DaysBeforeYear(d.year) + DaysBeforeMonth(d.year, d.month) + d.day - 1
  }

  /** Strict chronological order on days, stated on the triples. */
  predicate Before(a: Date, b: Date) {
    a.year < b.year
    || (a.year == b.year && a.month < b.month)
    || (a.year == b.year && a.month == b.month && a.day < b.day)
  }

  lemma YearStep(y: int)
    ensures DaysBeforeYear(y + 1) == DaysBeforeYear(y) + DaysInYear(y)
  {
  }

  lemma WholeYear(y: int)
    ensures DaysBeforeMonth(y, 13) == DaysInYear(y)
  {
    assert DaysBeforeMonth(y, 2) == 31;
    assert DaysBeforeMonth(y, 4) == DaysBeforeMonth(y, 3) + 31;
    assert DaysBeforeMonth(y, 6) == DaysBeforeMonth(y, 5) + 31;
    assert DaysBeforeMonth(y, 8) == DaysBeforeMonth(y, 7) + 31;
    assert DaysBeforeMonth(y, 10) == DaysBeforeMonth(y, 9) + 30;
    assert DaysBeforeMonth(y, 12) == DaysBeforeMonth(y, 11) + 30;
  }

  lemma {:induction false} DaysBeforeYearIncreasing(a: int, b: int)
    requires a < b
    ensures DaysBeforeYear(a) + DaysInYear(a) <= DaysBeforeYear(b)
    decreases b - a
  {
    YearStep(a);
    if a + 1 < b {
      DaysBeforeYearIncreasing(a + 1, b);
    }
  }

  lemma {:induction false} DaysBeforeMonthIncreasing(y: int, a: int, b: int)
    requires 1 <= a < b <= 13
    ensures DaysBeforeMonth(y, a) + DaysInMonth(y, a) <= DaysBeforeMonth(y, b)
    decreases b - a
  {
    if a + 1 < b {
      DaysBeforeMonthIncreasing(y, a + 1, b);
    }
  }

  /** Every day of year `y` has an ordinal inside that year's range. */
  lemma OrdinalWithinYear(d: Date)
    requires ValidDate(d)
    ensures DaysBeforeYear(d.year) <= Ordinal(d) < DaysBeforeYear(d.year) + DaysInYear(d.year)
  {
    WholeYear(d.year);
    DaysBeforeMonthIncreasing(d.year, d.month, 13);
  }

  /** Day numbers respect chronological order. */
  lemma OrdinalMonotone(a: Date, b: Date)
    requires ValidDate(a) && ValidDate(b) && Before(a, b)
    ensures Ordinal(a) < Ordinal(b)
  {
    if a.year < b.year {
      OrdinalWithinYear(a);
      OrdinalWithinYear(b);
      DaysBeforeYearIncreasing(a.year, b.year);
    } else if a.month < b.month {
      DaysBeforeMonthIncreasing(a.year, a.month, b.month);
    }
  }

  /** Distinct valid days have distinct day numbers. */
  lemma OrdinalInjective(a: Date, b: Date)
    requires ValidDate(a) && ValidDate(b) && Ordinal(a) == Ordinal(b)
    ensures a == b
  {
    if Before(a, b) {
      OrdinalMonotone(a, b);
    } else if Before(b, a) {
      OrdinalMonotone(b, a);
    }
  }

  /** `PrevDay` is exactly one day earlier: it never skips or repeats a day,
      across month ends, year ends and February 29th. */
  lemma PrevDayIsOneDayEarlier(d: Date)
    requires ValidDate(d)
    ensures Ordinal(PrevDay(d)) == Ordinal(d) - 1
    ensures Before(PrevDay(d), d)
  {
    if d.day == 1 && d.month == 1 {
      YearStep(d.year - 1);
      WholeYear(d.year - 1);
    }
  }

  /** Stepping back `k` days lowers the day number by exactly `k`. */
  lemma {:induction false} StepBackOrdinal(d: Date, k: nat)
    requires ValidDate(d)
    ensures Ordinal(StepBack(d, k)) == Ordinal(d) - k
    decreases k
  {
    if k > 0 {
      PrevDayIsOneDayEarlier(d);
      StepBackOrdinal(PrevDay(d), k - 1);
    }
  }

  /** Every valid day at most `k` days before `d` is reached by stepping back. */
  lemma StepBackReaches(d: Date, e: Date)
    requires ValidDate(d) && ValidDate(e) && Ordinal(e) <= Ordinal(d)
    ensures StepBack(d, Ordinal(d) - Ordinal(e)) == e
  {
    var k := Ordinal(d) - Ordinal(e);
    StepBackOrdinal(d, k);
    OrdinalInjective(StepBack(d, k), e);
  }
}
