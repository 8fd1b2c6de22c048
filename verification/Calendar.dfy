/** The proleptic Gregorian calendar the summary periods are cut from; years are unbounded here. */
module Calendar {
  datatype Date = Date(year: int, month: int, day: int)

  predicate IsLeap(y: int) {
    y % 4 == 0 && (y % 100 != 0 || y % 400 == 0)
  }

  function DaysIn(y: int, m: int): int {
    if m == 2 then (if IsLeap(y) then 29 else 28)
    else if m == 4 || m == 6 || m == 9 || m == 11 then 30
    else 31
  }

  predicate Valid(d: Date) {
    1 <= d.month <= 12 && 1 <= d.day <= DaysIn(d.year, d.month)
  }

  function Next(d: Date): Date {
    if d.day < DaysIn(d.year, d.month) then d.(day := d.day + 1)
    else if d.month < 12 then Date(d.year, d.month + 1, 1)
    else Date(d.year + 1, 1, 1)
  }

  function Previous(d: Date): Date {
    if d.day > 1 then d.(day := d.day - 1)
    else if d.month > 1 then Date(d.year, d.month - 1, DaysIn(d.year, d.month - 1))
    else Date(d.year - 1, 12, 31)
  }

  function MinusDays(d: Date, k: nat): Date
    decreases k
  {
    if k == 0 then d else MinusDays(Previous(d), k - 1)
  }

  function PlusDays(d: Date, k: nat): Date
    decreases k
  {
    if k == 0 then d else PlusDays(Next(d), k - 1)
  }

  function DaysBeforeMonth(y: int, m: int): int
    requires 1 <= m <= 12
    decreases m
  {
    if m == 1 then 0 else DaysBeforeMonth(y, m - 1) + DaysIn(y, m - 1)
  }

  /** Days from 0001-01-01 to the start of year `y`; division rounds down. */
  function DaysBeforeYear(y: int): int {
    365 * (y - 1) + (y - 1) / 4 - (y - 1) / 100 + (y - 1) / 400
  }

  /** Days since 1970-01-01. */
  function DayNumber(d: Date): int
    requires Valid(d)
  {
    DaysBeforeYear(d.year) + DaysBeforeMonth(d.year, d.month) + d.day - 1 - 719162
  }

  /** 0 is Monday; 1970-01-01 was a Thursday. */
  function Weekday(d: Date): (w: int)
    requires Valid(d)
    ensures 0 <= w < 7
  {
    (DayNumber(d) + 3) % 7
  }

  /** Calendar order. */
  predicate Before(a: Date, b: Date) {
    a.year < b.year || (a.year == b.year && (a.month < b.month || (a.month == b.month && a.day < b.day)))
  }

  lemma YearLength(y: int)
    ensures DaysBeforeYear(y + 1) - DaysBeforeYear(y) == if IsLeap(y) then 366 else 365
  {
    FloorStep(y, 4);
    FloorStep(y, 100);
    FloorStep(y, 400);
  }

  lemma FloorStep(y: int, k: int)
    requires k == 4 || k == 100 || k == 400
    ensures y / k - (y - 1) / k == if y % k == 0 then 1 else 0
  {
  }

  lemma MonthsOfYear(y: int)
    ensures DaysBeforeMonth(y, 12) + 31 == if IsLeap(y) then 366 else 365
  {
    var d := DaysBeforeMonth(y, 6);
    assert d == DaysBeforeMonth(y, 3) + 31 + 30 + 31;
    assert DaysBeforeMonth(y, 9) == d + 30 + 31 + 31;
    assert DaysBeforeMonth(y, 12) == DaysBeforeMonth(y, 9) + 30 + 31 + 30;
  }

  lemma YearCarries(y: int)
    ensures DayNumber(Date(y + 1, 1, 1)) == DayNumber(Date(y, 12, 31)) + 1
  {
    YearLength(y);
    MonthsOfYear(y);
  }

  /** Stepping forward and back are inverse, and each moves the day number by one. */
  lemma NextDay(d: Date)
    requires Valid(d)
    ensures Valid(Next(d)) && Previous(Next(d)) == d && DayNumber(Next(d)) == DayNumber(d) + 1
  {
    if d.month == 12 {
      YearCarries(d.year);
    }
  }

  lemma PreviousDay(d: Date)
    requires Valid(d)
    ensures Valid(Previous(d)) && Next(Previous(d)) == d && DayNumber(Previous(d)) == DayNumber(d) - 1
  {
    NextDay(Previous(d));
  }

  lemma {:induction false} MinusDaysCounts(d: Date, k: nat)
    requires Valid(d)
    ensures Valid(MinusDays(d, k)) && DayNumber(MinusDays(d, k)) == DayNumber(d) - k
    decreases k
  {
    if k > 0 {
      PreviousDay(d);
      MinusDaysCounts(Previous(d), k - 1);
    }
  }

  lemma {:induction false} PlusDaysCounts(d: Date, k: nat)
    requires Valid(d)
    ensures Valid(PlusDays(d, k)) && DayNumber(PlusDays(d, k)) == DayNumber(d) + k
    decreases k
  {
    if k > 0 {
      NextDay(d);
      PlusDaysCounts(Next(d), k - 1);
    }
  }

  lemma {:induction false} MonthsAscend(y: int, m: int, n: int)
    requires 1 <= m < n <= 12
    ensures DaysBeforeMonth(y, m) + DaysIn(y, m) <= DaysBeforeMonth(y, n)
    decreases n
  {
    if m < n - 1 {
      MonthsAscend(y, m, n - 1);
    }
  }

  lemma YearsAscend(y: int, z: int)
    requires y < z
    ensures DaysBeforeYear(y + 1) <= DaysBeforeYear(z)
    decreases z - y
  {
    if y + 1 < z {
      YearLength(z - 1);
      YearsAscend(y, z - 1);
    }
  }

  lemma WithinYear(d: Date)
    requires Valid(d)
    ensures DaysBeforeYear(d.year) <= DayNumber(d) + 719162 < DaysBeforeYear(d.year + 1)
  {
    YearLength(d.year);
    MonthsOfYear(d.year);
    if d.month < 12 {
      MonthsAscend(d.year, d.month, 12);
    }
    if d.month > 1 {
      MonthsAscend(d.year, 1, d.month);
    }
  }

  /** The day number is an order isomorphism: it is the calendar order, and no two dates share one. */
  lemma DayNumbersOrder(a: Date, b: Date)
    requires Valid(a) && Valid(b)
    ensures Before(a, b) <==> DayNumber(a) < DayNumber(b)
    ensures a == b <==> DayNumber(a) == DayNumber(b)
  {
    BeforeIsSmaller(a, b);
    BeforeIsSmaller(b, a);
  }

  lemma BeforeIsSmaller(a: Date, b: Date)
    requires Valid(a) && Valid(b)
    ensures Before(a, b) ==> DayNumber(a) < DayNumber(b)
  {
    if a.year < b.year {
      WithinYear(a);
      WithinYear(b);
      YearsAscend(a.year, b.year);
    } else if a.year == b.year && a.month < b.month {
      MonthsAscend(a.year, a.month, b.month);
    }
  }

  // ---- against the calendar on the wall ---------------------------------------------------------

  /** The months that have 31 days alternate, twice over, and February has its own rule. */
  lemma MonthLengths(y: int, m: int)
    requires 1 <= m <= 12
    ensures m != 2 ==> DaysIn(y, m) == 30 + (m + m / 8) % 2
    ensures DaysIn(y, 2) == if y % 400 == 0 || (y % 4 == 0 && y % 100 != 0) then 29 else 28
  {
  }

  lemma EpochIsDayZero()
    ensures DayNumber(Date(1970, 1, 1)) == 0
  {
    assert 1969 / 4 == 492 && 1969 / 100 == 19 && 1969 / 400 == 4;
    assert DaysBeforeYear(1970) == 719162;
  }

  /** 1970-01-01 was a Thursday, the fourth day of a week that starts with Monday. */
  lemma WeekdayAnchor()
    ensures Weekday(Date(1970, 1, 1)) == 3
  {
    EpochIsDayZero();
  }

  lemma FirstMonday()
    ensures DayNumber(MONDAY) == 4
  {
    EpochIsDayZero();
  }

  /** And each day is the weekday after that of the day before. */
  lemma WeekdaySteps(d: Date)
    requires Valid(d)
    ensures Valid(Next(d)) && Weekday(Next(d)) == (Weekday(d) + 1) % 7
  {
    NextDay(d);
    SevenSteps(DayNumber(d) + 3);
  }

  lemma SevenSteps(n: int)
    ensures (n + 1) % 7 == (n % 7 + 1) % 7
  {
  }

  /** The first Monday of 1970. */
  const MONDAY := Date(1970, 1, 5)

  /** Whole weeks before or after that one, day by day. */
  predicate WeeksFromMonday(d: Date, weeks: nat) {
    d == PlusDays(MONDAY, 7 * weeks) || d == MinusDays(MONDAY, 7 * weeks)
  }

  lemma MultipleOfSeven(j: int)
    ensures (7 * j) % 7 == 0
  {
  }

  lemma MondaysAreWeeksApart(d: Date, weeks: nat)
    requires WeeksFromMonday(d, weeks)
    ensures Valid(d) && Weekday(d) == 0
  {
    PlusDaysCounts(MONDAY, 7 * weeks);
    MinusDaysCounts(MONDAY, 7 * weeks);
    FirstMonday();
    MultipleOfSeven(1 + weeks);
    MultipleOfSeven(1 - weeks);
  }

  lemma MondayAhead(d: Date, weeks: nat)
    requires Valid(d) && DayNumber(d) == 4 + 7 * weeks
    ensures d == PlusDays(MONDAY, 7 * weeks)
  {
    PlusDaysCounts(MONDAY, 7 * weeks);
    FirstMonday();
    DayNumbersOrder(d, PlusDays(MONDAY, 7 * weeks));
  }

  lemma MondayBehind(d: Date, weeks: nat)
    requires Valid(d) && DayNumber(d) == 4 - 7 * weeks
    ensures d == MinusDays(MONDAY, 7 * weeks)
  {
    MinusDaysCounts(MONDAY, 7 * weeks);
    FirstMonday();
    DayNumbersOrder(d, MinusDays(MONDAY, 7 * weeks));
  }

  lemma WeeksToMonday(n: int) returns (weeks: int)
    requires (n + 3) % 7 == 0
    ensures n == 4 + 7 * weeks
  {
    weeks := (n + 3) / 7 - 1;
  }

  /** A day is a Monday exactly if it is whole weeks away from that Monday. */
  lemma MondayExactly(d: Date)
    requires Valid(d)
    ensures Weekday(d) == 0 <==> exists weeks: nat :: WeeksFromMonday(d, weeks)
  {
    if weeks: nat :| WeeksFromMonday(d, weeks) {
      MondaysAreWeeksApart(d, weeks);
    }
    if Weekday(d) == 0 {
      var weeks := WeeksToMonday(DayNumber(d));
      if weeks >= 0 {
        MondayAhead(d, weeks);
        assert WeeksFromMonday(d, weeks);
      } else {
        MondayBehind(d, -weeks);
        assert WeeksFromMonday(d, -weeks);
      }
    }
  }

  /** A month begins as many weekdays after the one before it as that has days. */
  lemma NextMonthStarts(y: int, m: int)
    requires 1 <= m < 12
    ensures Weekday(Date(y, m + 1, 1)) == (Weekday(Date(y, m, 1)) + DaysIn(y, m)) % 7
  {
    StepsAdd(DayNumber(Date(y, m, 1)) + 3, DaysIn(y, m));
  }

  lemma StepsAdd(n: int, k: int)
    ensures (n + k) % 7 == (n % 7 + k) % 7
  {
    var q := n / 7;
    assert n + k == 7 * q + (n % 7 + k);
    ShiftByWeeks(n % 7 + k, q);
  }

  lemma ShiftByWeeks(n: int, q: int)
    ensures (7 * q + n) % 7 == n % 7
  {
  }

  lemma NewYear2024()
    ensures Weekday(Date(2024, 1, 1)) == 0
  {
    assert 2023 / 4 == 505 && 2023 / 100 == 20 && 2023 / 400 == 5;
    assert DaysBeforeYear(2024) == 738885;
  }

  /** The first of month `m` of 2024 is weekday `w`. */
  predicate Begins2024(m: int, w: int)
    requires 1 <= m <= 12
  {
    Weekday(Date(2024, m, 1)) == w
  }

  lemma NextBegins(m: int, w: int, days: int)
    requires 1 <= m < 12 && Begins2024(m, w) && days == DaysIn(2024, m)
    ensures Begins2024(m + 1, (w + days) % 7)
  {
    NextMonthStarts(2024, m);
  }

  lemma HalfOf2024()
    ensures Begins2024(1, 0) && Begins2024(2, 3) && Begins2024(3, 4)
    ensures Begins2024(4, 0) && Begins2024(5, 2) && Begins2024(6, 5)
  {
    NewYear2024();
    NextBegins(1, 0, 31);
    NextBegins(2, 3, 29);
    NextBegins(3, 4, 31);
    NextBegins(4, 0, 30);
    NextBegins(5, 2, 31);
  }

  /** The weekdays on which the months of 2024 began. */
  lemma MonthsOf2024()
    ensures Begins2024(1, 0) && Begins2024(2, 3) && Begins2024(3, 4)
    ensures Begins2024(4, 0) && Begins2024(5, 2) && Begins2024(6, 5)
    ensures Begins2024(7, 0) && Begins2024(8, 3) && Begins2024(9, 6)
    ensures Begins2024(10, 1) && Begins2024(11, 4) && Begins2024(12, 6)
  {
    HalfOf2024();
    NextBegins(6, 5, 30);
    NextBegins(7, 0, 31);
    NextBegins(8, 3, 31);
    NextBegins(9, 6, 30);
    NextBegins(10, 1, 31);
    NextBegins(11, 4, 30);
  }
}
