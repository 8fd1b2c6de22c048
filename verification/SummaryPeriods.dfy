/** Which period a summary covers (summary_poster.rs, orchestrator.rs). */
module SummaryPeriods {
  import opened Calendar

  datatype Cadence = Daily | Weekly | Monthly

  /** The period's date, its first day and its last day. */
  function LastClosed(c: Cadence, today: Date): (Date, Date, Date)
    requires Valid(today)
  {
    match c
    case Daily =>
      var d := MinusDays(today, 1);
      (d, d, d)
    case Weekly =>
      var thisMonday := MinusDays(today, Weekday(today));
      var lastMonday := MinusDays(thisMonday, 7);
      (lastMonday, lastMonday, PlusDays(lastMonday, 6))
    case Monthly =>
      var lastDayPrevious := MinusDays(Date(today.year, today.month, 1), 1);
      var first := Date(lastDayPrevious.year, lastDayPrevious.month, 1);
      (first, first, lastDayPrevious)
  }

  /** The range a user asking for the last complete period is shown. */
  function PeriodWindow(c: Cadence, today: Date): (Date, Date)
    requires Valid(today)
  {
    match c
    case Daily =>
      var d := MinusDays(today, 1);
      (d, d)
    case Weekly =>
      var thisMonday := MinusDays(today, Weekday(today));
      var lastMonday := MinusDays(thisMonday, 7);
      (lastMonday, PlusDays(lastMonday, 6))
    case Monthly =>
      var lastDayPrevious := MinusDays(Date(today.year, today.month, 1), 1);
      (Date(lastDayPrevious.year, lastDayPrevious.month, 1), lastDayPrevious)
  }

  /** A day, a Monday-to-Sunday week, or a calendar month. */
  predicate Whole(c: Cadence, first: Date, last: Date) {
    && Valid(first) && Valid(last)
    && match c
       case Daily => first == last
       case Weekly => Weekday(first) == 0 && DayNumber(last) == DayNumber(first) + 6
       case Monthly => first.day == 1 && last == first.(day := DaysIn(first.year, first.month))
  }

  predicate Within(d: Date, first: Date, last: Date) {
    Valid(d) && Valid(first) && Valid(last) && DayNumber(first) <= DayNumber(d) <= DayNumber(last)
  }

  /** The whole period a day lies in. */
  function Current(c: Cadence, today: Date): (Date, Date)
    requires Valid(today)
  {
    match c
    case Daily => (today, today)
    case Weekly =>
      var monday := MinusDays(today, Weekday(today));
      (monday, PlusDays(monday, 6))
    case Monthly => (today.(day := 1), today.(day := DaysIn(today.year, today.month)))
  }

  function Length(c: Cadence, today: Date): int
    requires Valid(today)
  {
    match c
    case Daily => 1
    case Weekly => 7
    case Monthly => DaysIn(today.year, today.month)
  }

  lemma MondayBack(n: int)
    ensures (n - (n + 3) % 7 + 3) % 7 == 0
  {
    var w := (n + 3) % 7;
    assert n + 3 - w == 7 * ((n + 3) / 7);
  }

  lemma WeekApart(a: int, b: int)
    requires (a + 3) % 7 == 0 && (b + 3) % 7 == 0 && -7 < a - b < 7
    ensures a == b
  {
  }

  lemma ThisMonday(today: Date)
    requires Valid(today)
    ensures var monday := MinusDays(today, Weekday(today));
      Valid(monday) && Weekday(monday) == 0 && DayNumber(monday) == DayNumber(today) - Weekday(today)
  {
    MinusDaysCounts(today, Weekday(today));
    MondayBack(DayNumber(today));
  }

  lemma WeekIsWhole(monday: Date)
    requires Valid(monday) && Weekday(monday) == 0
    ensures Whole(Weekly, monday, PlusDays(monday, 6))
    ensures DayNumber(PlusDays(monday, 6)) == DayNumber(monday) + 6
  {
    PlusDaysCounts(monday, 6);
  }

  lemma WeekBefore(monday: Date)
    requires Valid(monday) && Weekday(monday) == 0
    ensures Valid(MinusDays(monday, 7)) && Weekday(MinusDays(monday, 7)) == 0
    ensures DayNumber(MinusDays(monday, 7)) == DayNumber(monday) - 7
  {
    MinusDaysCounts(monday, 7);
    SevenLess(DayNumber(monday));
  }

  lemma SevenLess(n: int)
    ensures (n - 7 + 3) % 7 == (n + 3) % 7
  {
  }

  lemma CurrentIsWhole(c: Cadence, today: Date)
    requires Valid(today)
    ensures var (first, last) := Current(c, today);
      Whole(c, first, last) && Within(today, first, last) && DayNumber(last) - DayNumber(first) + 1 == Length(c, today)
  {
    if c.Weekly? {
      ThisMonday(today);
      WeekIsWhole(MinusDays(today, Weekday(today)));
    }
  }

  /** No two whole periods of one cadence overlap. */
  lemma WholePeriodsAreDisjoint(c: Cadence, d: Date, first: Date, last: Date, first': Date, last': Date)
    requires Whole(c, first, last) && Within(d, first, last)
    requires Whole(c, first', last') && Within(d, first', last')
    ensures first == first' && last == last'
  {
    match c
    case Daily =>
      DayNumbersOrder(d, first);
      DayNumbersOrder(d, first');
    case Weekly =>
      WeekApart(DayNumber(first), DayNumber(first'));
      DayNumbersOrder(first, first');
      DayNumbersOrder(last, last');
    case Monthly =>
      MonthHolds(d, first, last);
      MonthHolds(d, first', last');
  }

  lemma MonthHolds(d: Date, first: Date, last: Date)
    requires Whole(Monthly, first, last) && Within(d, first, last)
    ensures d.year == first.year && d.month == first.month
  {
    DayNumbersOrder(d, first);
    DayNumbersOrder(last, d);
  }

  lemma LastDay(today: Date)
    requires Valid(today)
    ensures Valid(MinusDays(today, 1)) && Next(MinusDays(today, 1)) == today
  {
    PreviousDay(today);
    assert MinusDays(today, 1) == MinusDays(Previous(today), 0);
  }

  lemma LastWeek(today: Date)
    requires Valid(today)
    ensures var monday := MinusDays(today, Weekday(today));
      var first := MinusDays(monday, 7);
      Whole(Weekly, first, PlusDays(first, 6)) && Next(PlusDays(first, 6)) == monday
  {
    var monday := MinusDays(today, Weekday(today));
    ThisMonday(today);
    WeekBefore(monday);
    var first := MinusDays(monday, 7);
    WeekIsWhole(first);
    NextDay(PlusDays(first, 6));
    DayNumbersOrder(Next(PlusDays(first, 6)), monday);
  }

  lemma LastMonth(today: Date)
    requires Valid(today)
    ensures var last := MinusDays(today.(day := 1), 1);
      Whole(Monthly, last.(day := 1), last) && Next(last) == today.(day := 1)
  {
    LastDay(today.(day := 1));
  }

  /** The last closed period is whole, and the day after it starts the period that `today` lies in. */
  lemma LastClosedIsWhole(c: Cadence, today: Date)
    requires Valid(today)
    ensures var (date, first, last) := LastClosed(c, today);
      date == first && Whole(c, first, last) && Next(last) == Current(c, today).0
    ensures PeriodWindow(c, today) == (LastClosed(c, today).1, LastClosed(c, today).2)
  {
    match c
    case Daily => LastDay(today);
    case Weekly => LastWeek(today);
    case Monthly => LastMonth(today);
  }

  /**
    The last closed period is the whole period that ended the day before the one `today` lies in
    began, and no other.
  */
  lemma LastClosedExactly(c: Cadence, today: Date, first: Date, last: Date)
    requires Valid(today) && Whole(c, first, last)
    ensures LastClosed(c, today) == (first, first, last) <==> Next(last) == Current(c, today).0
  {
    LastClosedIsWhole(c, today);
    if Next(last) == Current(c, today).0 {
      var (_, f, l) := LastClosed(c, today);
      NextDay(l);
      NextDay(last);
      WholeEndsOnce(c, first, last, f, l);
    }
  }

  lemma WholeEndsOnce(c: Cadence, first: Date, last: Date, first': Date, last': Date)
    requires Whole(c, first, last) && Whole(c, first', last') && DayNumber(last) == DayNumber(last')
    ensures first == first' && last == last'
  {
    DayNumbersOrder(last, last');
    WholePeriodsAreDisjoint(c, last, first, last, first', last');
  }

  /**
    Periods tile time: overnight the last closed period either stays or becomes the one that begins
    on the day after it ended. It has always ended before today.
  */
  lemma PeriodsTile(c: Cadence, today: Date)
    requires Valid(today)
    ensures Valid(Next(today))
    ensures var (_, first, last) := LastClosed(c, today);
      && Whole(c, first, last) && DayNumber(last) < DayNumber(today)
      && (LastClosed(c, Next(today)) == LastClosed(c, today) || LastClosed(c, Next(today)).1 == Next(last))
  {
    var tomorrow := Next(today);
    NextDay(today);
    CurrentIsWhole(c, today);
    CurrentIsWhole(c, tomorrow);
    LastClosedIsWhole(c, today);
    LastClosedIsWhole(c, tomorrow);
    var (first, last) := Current(c, today);
    var (first', last') := Current(c, tomorrow);
    var (_, f, l) := LastClosed(c, today);
    var (_, f', l') := LastClosed(c, tomorrow);
    NextDay(l);
    NextDay(l');
    if DayNumber(tomorrow) <= DayNumber(last) {
      WholePeriodsAreDisjoint(c, tomorrow, first, last, first', last');
      LastClosedExactly(c, tomorrow, f, l);
    } else {
      if DayNumber(first') <= DayNumber(today) {
        WholePeriodsAreDisjoint(c, today, first, last, first', last');
        assert false;
      }
      WholeEndsOnce(c, f', l', first, last);
    }
  }

  /** A later day never has an earlier last closed period, and equal period dates mean the same period. */
  lemma LastClosedAscends(c: Cadence, today: Date, later: Date)
    requires Valid(today) && Valid(later) && DayNumber(today) <= DayNumber(later)
    ensures Valid(LastClosed(c, today).0) && Valid(LastClosed(c, later).0)
    ensures DayNumber(LastClosed(c, today).0) <= DayNumber(LastClosed(c, later).0)
    decreases DayNumber(later) - DayNumber(today)
  {
    DayNumbersOrder(today, later);
    PeriodsTile(c, today);
    LastClosedIsWhole(c, today);
    LastClosedIsWhole(c, later);
    if DayNumber(today) < DayNumber(later) {
      NextDay(today);
      LastClosedAscends(c, Next(today), later);
      var (_, first, last) := LastClosed(c, today);
      NextDay(last);
      WholeSpans(c, first, last);
      LastClosedIsWhole(c, Next(today));
    }
  }

  lemma WholeSpans(c: Cadence, first: Date, last: Date)
    requires Whole(c, first, last)
    ensures DayNumber(first) <= DayNumber(last)
  {
  }

  /** A whole week starts whole weeks away from the first Monday of 1970 and ends six days later. */
  lemma WholeWeekExactly(first: Date, last: Date)
    requires Valid(first) && Valid(last)
    ensures Whole(Weekly, first, last)
      <==> (exists weeks: nat :: WeeksFromMonday(first, weeks)) && last == PlusDays(first, 6)
  {
    MondayExactly(first);
    PlusDaysCounts(first, 6);
    DayNumbersOrder(last, PlusDays(first, 6));
  }

  /** On Wednesday 2024-06-05 the last closed week is that from Monday, May 27 to Sunday, June 2. */
  lemma WeekBeforeJune5()
    ensures LastClosed(Weekly, Date(2024, 6, 5)) == (Date(2024, 5, 27), Date(2024, 5, 27), Date(2024, 6, 2))
  {
    var today, first, last, monday := Date(2024, 6, 5), Date(2024, 5, 27), Date(2024, 6, 2), Date(2024, 6, 3);
    DaysOfJune();
    ThisMonday(today);
    DayNumbersOrder(MinusDays(today, Weekday(today)), monday);
    LastClosedExactly(Weekly, today, first, last);
  }

  lemma DaysOfJune()
    ensures Weekday(Date(2024, 5, 27)) == 0 && Weekday(Date(2024, 6, 5)) == 2
    ensures DayNumber(Date(2024, 6, 2)) == DayNumber(Date(2024, 5, 27)) + 6
    ensures DayNumber(Date(2024, 6, 3)) == DayNumber(Date(2024, 6, 5)) - 2
  {
    HalfOf2024();
    LaterInMonth(2024, 5, 27);
    LaterInMonth(2024, 6, 5);
    assert DaysBeforeMonth(2024, 6) == DaysBeforeMonth(2024, 5) + 31;
  }

  lemma LaterInMonth(y: int, m: int, day: int)
    requires 1 <= m <= 12 && 1 <= day <= DaysIn(y, m)
    ensures Weekday(Date(y, m, day)) == (Weekday(Date(y, m, 1)) + day - 1) % 7
  {
    StepsAdd(DayNumber(Date(y, m, 1)) + 3, day - 1);
  }

  /** The month before is May, and the day before the first of March of a leap year is February 29. */
  lemma MonthBeforeJune()
    ensures LastClosed(Monthly, Date(2024, 6, 5)) == (Date(2024, 5, 1), Date(2024, 5, 1), Date(2024, 5, 31))
    ensures LastClosed(Daily, Date(2024, 3, 1)) == (Date(2024, 2, 29), Date(2024, 2, 29), Date(2024, 2, 29))
  {
    assert MinusDays(Date(2024, 5, 31), 0) == Date(2024, 5, 31) && Previous(Date(2024, 6, 1)) == Date(2024, 5, 31);
    assert MinusDays(Date(2024, 2, 29), 0) == Date(2024, 2, 29) && Previous(Date(2024, 3, 1)) == Date(2024, 2, 29);
  }
}
