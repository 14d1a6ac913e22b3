/**
 The proleptic Gregorian calendar that `datetime` uses, the calendar helpers, and the
 named periods. Times are UTC; a moment is a date and the microseconds since midnight.
 */
module Calendar {
  import opened Options

  const DAY_MICROS: int := 86_400_000_000

  predicate Leap(y: int) {
    y % 4 == 0 && (y % 100 != 0 || y % 400 == 0)
  }

  function DaysInYear(y: int): int {
    if Leap(y) then 366 else 365
  }

  function DaysInMonth(y: int, m: int): int {
    if m == 2 then (if Leap(y) then 29 else 28)
    else if m == 4 || m == 6 || m == 9 || m == 11 then 30
    else 31
  }

  datatype Date = Date(year: int, month: int, day: int) {
    predicate Valid() {
      1 <= year && 1 <= month <= 12 && 1 <= day <= DaysInMonth(year, month)
    }

    /** Dates compare field by field. */
    predicate Before(d: Date) {
      year < d.year || (year == d.year && (month < d.month || (month == d.month && day < d.day)))
    }
  }

  datatype Moment = Moment(date: Date, micros: int) {
    predicate Valid() {
      date.Valid() && 0 <= micros < DAY_MICROS
    }

    predicate Before(t: Moment) {
      date.Before(t.date) || (date == t.date && micros < t.micros)
    }
  }

  // ---------------------------------------------------------------- counting days

  function DaysBeforeYear(y: int): int {
    (y - 1) * 365 + (y - 1) / 4 - (y - 1) / 100 + (y - 1) / 400
  }

  function DaysBeforeMonth(y: int, m: int): int
    requires 1 <= m <= 12
    decreases m
  {
    if m == 1 then 0 else DaysBeforeMonth(y, m - 1) + DaysInMonth(y, m - 1)
  }

  /** The number of a day; the first of January of year 1, a Monday, is day 1. */
  function Ordinal(d: Date): int
    requires d.Valid()
  {
    DaysBeforeYear(d.year) + DaysBeforeMonth(d.year, d.month) + d.day
  }

  /** Microseconds since the first midnight. */
  function Stamp(t: Moment): int
    requires t.Valid()
  {
    (Ordinal(t.date) - 1) * DAY_MICROS + t.micros
  }

  function Weekday(d: Date): int
    requires d.Valid()
  {
    (Ordinal(d) + 6) % 7
  }

  lemma QuotientStep(n: int, k: int)
    requires k > 1
    ensures n / k - (n - 1) / k == if n % k == 0 then 1 else 0
  {
    if n % k == 0 {
      Quotient(n - 1, k, n / k - 1, k - 1);
    } else {
      Quotient(n - 1, k, n / k, n % k - 1);
    }
  }

  lemma Quotient(n: int, k: int, q: int, r: int)
    requires k > 0 && 0 <= r < k && n == k * q + r
    ensures n / k == q && n % k == r
  {
    var x := n / k - q;
    assert k * x == r - n % k;
    Multiple(k, x);
  }

  lemma Multiple(k: int, x: int)
    requires k > 0
    ensures x >= 1 ==> k * x >= k
    ensures x <= -1 ==> k * x <= -k
  {
  }

  lemma LeapDivisors(y: int)
    ensures y % 400 == 0 ==> y % 100 == 0
    ensures y % 100 == 0 ==> y % 4 == 0
  {
  }

  /** Consecutive years are a year's length apart. */
  lemma YearStep(y: int)
    ensures DaysBeforeYear(y + 1) == DaysBeforeYear(y) + DaysInYear(y)
  {
    QuotientStep(y, 4);
    QuotientStep(y, 100);
    QuotientStep(y, 400);
    LeapDivisors(y);
  }

  lemma {:induction false} YearsGrow(y: int, z: int)
    requires y < z
    ensures DaysBeforeYear(y) + DaysInYear(y) <= DaysBeforeYear(z)
    decreases z - y
  {
    hide DaysBeforeYear;
    YearStep(z - 1);
    if y < z - 1 {
      YearsGrow(y, z - 1);
    }
  }

  lemma {:induction false} MonthsGrow(y: int, m: int, n: int)
    requires 1 <= m < n <= 12
    ensures DaysBeforeMonth(y, m) + DaysInMonth(y, m) <= DaysBeforeMonth(y, n)
    decreases n - m
  {
    if m < n - 1 {
      MonthsGrow(y, m, n - 1);
    }
  }

  /** The twelve months make up the year. */
  lemma MonthsFillYear(y: int)
    ensures DaysBeforeMonth(y, 12) + 31 == DaysInYear(y)
  {
    assert DaysBeforeMonth(y, 3) == DaysInYear(y) - 306;
    assert DaysBeforeMonth(y, 6) == DaysInYear(y) - 214;
    assert DaysBeforeMonth(y, 9) == DaysInYear(y) - 122;
  }

  /** The days before a month, without the table of its lengths: the lengths are those of the Gregorian calendar. */
  lemma MonthsClosedForm(y: int, m: int)
    requires 1 <= m <= 12
    ensures DaysBeforeMonth(y, m) == (367 * m - 362) / 12 - (if m <= 2 then 0 else if Leap(y) then 1 else 2)
    ensures DaysInMonth(y, 12) == 31
  {
    if m > 1 {
      MonthsClosedForm(y, m - 1);
    }
  }

  /** The day of the Unix epoch, a Thursday, and a leap day, a Thursday as well. */
  lemma KnownDays()
    ensures var epoch := Date(1970, 1, 1); epoch.Valid() && Ordinal(epoch) == 719163 && Weekday(epoch) == 3
    ensures var leapDay := Date(2024, 2, 29); leapDay.Valid() && Ordinal(leapDay) == 738945 && Weekday(leapDay) == 3
  {
    MonthsClosedForm(1970, 1);
    MonthsClosedForm(2024, 2);
  }

  lemma DayInYear(d: Date)
    requires d.Valid()
    ensures 1 <= DaysBeforeMonth(d.year, d.month) + d.day <= DaysInYear(d.year)
  {
    MonthsFillYear(d.year);
    if d.month < 12 {
      MonthsGrow(d.year, d.month, 12);
    }
    if d.month > 1 {
      MonthsGrow(d.year, 1, d.month);
    }
  }

  /** Comparing dates field by field is comparing day numbers. */
  lemma OrdinalOrder(d: Date, e: Date)
    requires d.Valid() && e.Valid()
    ensures d.Before(e) <==> Ordinal(d) < Ordinal(e)
    ensures d == e <==> Ordinal(d) == Ordinal(e)
  {
    if d.Before(e) {
      OrdinalLess(d, e);
    } else if e.Before(d) {
      OrdinalLess(e, d);
    }
  }

  lemma OrdinalLess(d: Date, e: Date)
    requires d.Valid() && e.Valid() && d.Before(e)
    ensures Ordinal(d) < Ordinal(e)
  {
    hide DaysBeforeYear;
    if d.year < e.year {
      YearsGrow(d.year, e.year);
      DayInYear(d);
      DayInYear(e);
    } else if d.month < e.month {
      MonthsGrow(d.year, d.month, e.month);
    }
  }

  lemma OrdinalPositive(d: Date)
    requires d.Valid()
    ensures Ordinal(d) >= 1
    ensures d.year >= 2 ==> Ordinal(d) >= 366
  {
    DayInYear(d);
    hide DaysBeforeMonth;
    assert DaysBeforeYear(1) == 0 && DaysBeforeYear(2) == 365;
    if d.year >= 2 {
      if d.year > 2 {
        YearsGrow(2, d.year);
      }
    }
  }

  /** Comparing moments field by field is comparing stamps. */
  lemma StampOrder(s: Moment, t: Moment)
    requires s.Valid() && t.Valid()
    ensures s.Before(t) <==> Stamp(s) < Stamp(t)
    ensures s == t <==> Stamp(s) == Stamp(t)
  {
    OrdinalOrder(s.date, t.date);
    hide Ordinal;
  }

  // ---------------------------------------------------------------- date arithmetic

  /** The day before. */
  function PrevDay(d: Date): Date {
    if d.day > 1 then Date(d.year, d.month, d.day - 1)
    else if d.month > 1 then Date(d.year, d.month - 1, DaysInMonth(d.year, d.month - 1))
    else Date(d.year - 1, 12, 31)
  }

  lemma PrevDayOrdinal(d: Date)
    requires d.Valid() && (d.year > 1 || d.month > 1 || d.day > 1)
    ensures PrevDay(d).Valid() && Ordinal(PrevDay(d)) == Ordinal(d) - 1
  {
    if d.day == 1 && d.month == 1 {
      YearStep(d.year - 1);
      MonthsFillYear(d.year - 1);
      hide DaysBeforeYear;
    }
  }

  lemma NotTheFirst(d: Date)
    requires d.Valid() && Ordinal(d) > 1
    ensures d.year > 1 || d.month > 1 || d.day > 1
  {
  }

  lemma PrevDayStep(d: Date)
    requires d.Valid() && Ordinal(d) > 1
    ensures PrevDay(d).Valid() && Ordinal(PrevDay(d)) == Ordinal(d) - 1
  {
    NotTheFirst(d);
    PrevDayOrdinal(d);
  }

  /** A date minus a number of days, as `timedelta` subtraction gives it. */
  function MinusDays(d: Date, n: nat): Date
    requires d.Valid() && n < Ordinal(d)
    decreases n
  {
    if n == 0 then d
    else
      PrevDayStep(d);
      MinusDays(PrevDay(d), n - 1)
  }

  lemma {:induction false} MinusDaysOrdinal(d: Date, n: nat)
    requires d.Valid() && n < Ordinal(d)
    ensures MinusDays(d, n).Valid() && Ordinal(MinusDays(d, n)) == Ordinal(d) - n
    decreases n
  {
    hide Ordinal;
    if n > 0 {
      PrevDayStep(d);
      MinusDaysOrdinal(PrevDay(d), n - 1);
    }
  }

  // ---------------------------------------------------------------- the starts of days, weeks, months and years

  function StartOfDay(t: Moment): Moment {
    Moment(t.date, 0)
  }

  lemma WeekdayFacts(n: int)
    requires n >= 1
    ensures (n + 6) % 7 == (n - 1) % 7 && 0 <= (n + 6) % 7 < n
    ensures n - (n + 6) % 7 - 1 == 7 * ((n - 1) / 7)
  {
  }

  function StartOfWeek(t: Moment): Moment
    requires t.Valid()
  {
    OrdinalPositive(t.date);
    WeekdayFacts(Ordinal(t.date));
    Moment(MinusDays(t.date, Weekday(t.date)), 0)
  }

  /** The start of the week is the Monday on or before. */
  lemma WeekStartIsMonday(t: Moment)
    requires t.Valid()
    ensures StartOfWeek(t).Valid() && StartOfWeek(t).micros == 0
    ensures Ordinal(StartOfWeek(t).date) - 1 == 7 * ((Ordinal(t.date) - 1) / 7)
    ensures t.date.year >= 2 ==> Ordinal(StartOfWeek(t).date) > 7
  {
    hide Ordinal, MinusDays;
    OrdinalPositive(t.date);
    var n := Ordinal(t.date);
    WeekdayFacts(n);
    MinusDaysOrdinal(t.date, (n + 6) % 7);
    hide Weekday, StartOfWeek;
    StartOfWeekIs(t);
  }

  lemma StartOfWeekIs(t: Moment)
    requires t.Valid()
    ensures 0 <= (Ordinal(t.date) + 6) % 7 < Ordinal(t.date)
    ensures StartOfWeek(t) == Moment(MinusDays(t.date, (Ordinal(t.date) + 6) % 7), 0)
  {
    hide Ordinal, MinusDays;
    OrdinalPositive(t.date);
    WeekdayFacts(Ordinal(t.date));
  }

  function StartOfMonth(t: Moment): Moment {
    StartOfDay(t).(date := Date(t.date.year, t.date.month, 1))
  }

  function StartOfYear(t: Moment): Moment {
    StartOfDay(t).(date := Date(t.date.year, 1, 1))
  }

  function PreviousMonthStart(t: Moment): Moment
    requires t.Valid() && t.date.year >= 2
  {
    var first := StartOfMonth(t).date;
    OrdinalPositive(first);
    StartOfMonth(Moment(MinusDays(first, 1), 0))
  }

  function PreviousYearStart(t: Moment): Moment {
    StartOfYear(t).(date := Date(t.date.year - 1, 1, 1))
  }

  datatype Period = Today | Yesterday | ThisWeek | LastWeek | ThisMonth | LastMonth | ThisYear | LastYear

  /** The names a user may type. */
  function PeriodOf(name: string): Option<Period> {
    if name == "today" then Some(Today)
    else if name == "yesterday" then Some(Yesterday)
    else if name == "this-week" then Some(ThisWeek)
    else if name == "last-week" then Some(LastWeek)
    else if name == "this-month" then Some(ThisMonth)
    else if name == "last-month" then Some(LastMonth)
    else if name == "this-year" then Some(ThisYear)
    else if name == "last-year" then Some(LastYear)
    else None
  }

  /** The window of a period, start inclusive and end exclusive. */
  function Window(p: Period, now: Moment): (Moment, Moment)
    requires now.Valid() && now.date.year >= 2
  {
    OrdinalPositive(now.date);
    match p
    case Today => (StartOfDay(now), now)
    case Yesterday =>
      var today := StartOfDay(now);
      (Moment(MinusDays(today.date, 1), 0), today)
    case ThisWeek => (StartOfWeek(now), now)
    case LastWeek =>
      var thisWeek := StartOfWeek(now);
      WeekStartIsMonday(now);
      (Moment(MinusDays(thisWeek.date, 7), 0), thisWeek)
    case ThisMonth => (StartOfMonth(now), now)
    case LastMonth => (PreviousMonthStart(now), StartOfMonth(now))
    case ThisYear => (StartOfYear(now), now)
    case LastYear => (PreviousYearStart(now), StartOfYear(now))
  }

  /** None stands for the parse error of an unknown name. */
  function ResolveNamedPeriod(name: string, now: Moment): Option<(Moment, Moment)>
    requires now.Valid() && now.date.year >= 2
  {
    match PeriodOf(name)
    case None => None
    case Some(p) => Some(Window(p, now))
  }

  // ---------------------------------------------------------------- what the windows mean

  /** The four clocks a period is one tick of. */
  datatype Unit = Day | Week | Month | Year

  /** Days and Monday-based weeks are counted from day 1, months and years by their fields. */
  function Index(u: Unit, t: Moment): int
    requires t.Valid()
  {
    match u
    case Day => Ordinal(t.date)
    case Week => (Ordinal(t.date) - 1) / 7
    case Month => t.date.year * 12 + t.date.month - 1
    case Year => t.date.year
  }

  function UnitOf(p: Period): Unit {
    match p
    case Today => Day
    case Yesterday => Day
    case ThisWeek => Week
    case LastWeek => Week
    case ThisMonth => Month
    case LastMonth => Month
    case ThisYear => Year
    case LastYear => Year
  }

  predicate IsLast(p: Period) {
    p.Yesterday? || p.LastWeek? || p.LastMonth? || p.LastYear?
  }

  /** The running period of the same unit as a closed one. */
  function Running(p: Period): Period {
    match UnitOf(p)
    case Day => Today
    case Week => ThisWeek
    case Month => ThisMonth
    case Year => ThisYear
  }

  /** The start of a unit: the first moment with its index. */
  ghost predicate Starts(u: Unit, start: Moment, index: int) {
    && start.Valid()
    && forall x: Moment | x.Valid() :: !x.Before(start) <==> Index(u, x) >= index
  }

  lemma DayStarts(d: Date)
    requires d.Valid()
    ensures Starts(Day, Moment(d, 0), Ordinal(d))
  {
    forall x: Moment | x.Valid()
      ensures !x.Before(Moment(d, 0)) <==> Ordinal(x.date) >= Ordinal(d)
    {
      OrdinalOrder(x.date, d);
      hide Ordinal;
    }
  }

  lemma WeekFloor(a: int, q: int)
    ensures a >= 7 * q <==> a / 7 >= q
  {
  }

  /** A Monday starts the week it is in. */
  lemma MondayStarts(d: Date, q: int)
    requires d.Valid() && Ordinal(d) - 1 == 7 * q
    ensures Starts(Week, Moment(d, 0), q)
  {
    DayStarts(d);
    forall x: Moment | x.Valid()
      ensures !x.Before(Moment(d, 0)) <==> Index(Week, x) >= q
    {
      WeekFloor(Ordinal(x.date) - 1, q);
      assert !x.Before(Moment(d, 0)) <==> Index(Day, x) >= Ordinal(d);
      hide Ordinal;
    }
  }

  lemma MonthStarts(y: int, m: int)
    requires 1 <= y && 1 <= m <= 12
    ensures Starts(Month, Moment(Date(y, m, 1), 0), y * 12 + m - 1)
  {
  }

  lemma YearStarts(y: int)
    requires 1 <= y
    ensures Starts(Year, Moment(Date(y, 1, 1), 0), y)
  {
  }

  /** One day before the first of a month lies in the month before. */
  lemma PreviousMonthIndex(t: Moment)
    requires t.Valid() && t.date.year >= 2
    ensures
      var p := PreviousMonthStart(t);
      p.Valid() && p.micros == 0 && p.date.day == 1 && Index(Month, p) == Index(Month, t) - 1
  {
  }

  /** The end and the start of a window are starts of its unit, or now. */
  ghost predicate EdgesRight(p: Period, now: Moment)
    requires now.Valid() && now.date.year >= 2
  {
    var w := Window(p, now);
    var u := UnitOf(p);
    if IsLast(p)
    then Starts(u, w.0, Index(u, now) - 1) && Starts(u, w.1, Index(u, now))
    else Starts(u, w.0, Index(u, now)) && w.1 == now
  }

  lemma DayEdges(now: Moment)
    requires now.Valid() && now.date.year >= 2
    ensures EdgesRight(Today, now) && EdgesRight(Yesterday, now)
  {
    hide Starts, Ordinal, MinusDays;
    OrdinalPositive(now.date);
    DayStarts(now.date);
    MinusDaysOrdinal(now.date, 1);
    DayStarts(MinusDays(now.date, 1));
  }

  lemma WeekEdges(now: Moment)
    requires now.Valid() && now.date.year >= 2
    ensures EdgesRight(ThisWeek, now) && EdgesRight(LastWeek, now)
  {
    hide Starts, Ordinal, MinusDays, StartOfWeek;
    WeekStartIsMonday(now);
    var monday := StartOfWeek(now).date;
    MondayStarts(monday, Index(Week, now));
    MinusDaysOrdinal(monday, 7);
    MondayStarts(MinusDays(monday, 7), Index(Week, now) - 1);
  }

  lemma MonthEdges(now: Moment)
    requires now.Valid() && now.date.year >= 2
    ensures EdgesRight(ThisMonth, now) && EdgesRight(LastMonth, now)
  {
    hide Starts, Ordinal, MinusDays, PreviousMonthStart;
    MonthStarts(now.date.year, now.date.month);
    PreviousMonthIndex(now);
    var first := PreviousMonthStart(now).date;
    MonthStarts(first.year, first.month);
  }

  lemma YearEdges(now: Moment)
    requires now.Valid() && now.date.year >= 2
    ensures EdgesRight(ThisYear, now) && EdgesRight(LastYear, now)
  {
    hide Starts, Ordinal, MinusDays;
    YearStarts(now.date.year);
    YearStarts(now.date.year - 1);
  }

  lemma WindowEdges(p: Period, now: Moment)
    requires now.Valid() && now.date.year >= 2
    ensures EdgesRight(p, now)
  {
    hide EdgesRight;
    match UnitOf(p)
    case Day => DayEdges(now);
    case Week => WeekEdges(now);
    case Month => MonthEdges(now);
    case Year => YearEdges(now);
  }

  predicate InWindow(x: Moment, w: (Moment, Moment)) {
    !x.Before(w.0) && x.Before(w.1)
  }

  /**
   A closed period is exactly the moments whose day, week, month or year index is one less
   than that of now; a running one is those of the current index that lie before now.
   */
  lemma PeriodIsOneTick(p: Period, now: Moment, x: Moment)
    requires now.Valid() && now.date.year >= 2 && x.Valid()
    ensures InWindow(x, Window(p, now)) <==>
            if IsLast(p) then Index(UnitOf(p), x) == Index(UnitOf(p), now) - 1
            else Index(UnitOf(p), x) == Index(UnitOf(p), now) && x.Before(now)
  {
    WindowEdges(p, now);
    if x.Before(now) {
      IndexMonotone(UnitOf(p), x, now);
    }
    hide Window, Index;
  }

  /** Indices follow time. */
  lemma IndexMonotone(u: Unit, x: Moment, t: Moment)
    requires x.Valid() && t.Valid() && x.Before(t)
    ensures Index(u, x) <= Index(u, t)
  {
    OrdinalOrder(x.date, t.date);
    QuotientMonotone(Ordinal(x.date) - 1, Ordinal(t.date) - 1);
    hide Ordinal;
  }

  lemma QuotientMonotone(a: int, b: int)
    ensures a <= b ==> a / 7 <= b / 7
  {
  }

  /** The day's number counted from a Monday, in whole weeks. */
  function MondayWeek(d: Date): int
    requires d.Valid()
  {
    (Ordinal(d) - 1) / 7
  }

  lemma NamedPeriod(name: string, p: Period, now: Moment, x: Moment)
    requires now.Valid() && now.date.year >= 2 && x.Valid() && PeriodOf(name) == Some(p)
    ensures In(name, now, x,
               if IsLast(p) then Index(UnitOf(p), x) == Index(UnitOf(p), now) - 1
               else Index(UnitOf(p), x) == Index(UnitOf(p), now) && x.Before(now))
  {
    PeriodIsOneTick(p, now, x);
    hide PeriodOf, Window, Ordinal, InWindow, Index;
  }

  /** What the names of days and weeks stand for. */
  lemma NamedDaysMean(now: Moment, x: Moment)
    requires now.Valid() && now.date.year >= 2 && x.Valid()
    ensures
      var (day, today) := (Ordinal(x.date), Ordinal(now.date));
      var (week, thisWeek) := (MondayWeek(x.date), MondayWeek(now.date));
      && In("today", now, x, day == today && x.Before(now))
      && In("yesterday", now, x, day == today - 1)
      && In("this-week", now, x, week == thisWeek && x.Before(now))
      && In("last-week", now, x, week == thisWeek - 1)
  {
    hide In, Ordinal;
    NamedPeriod("today", Today, now, x);
    NamedPeriod("yesterday", Yesterday, now, x);
    NamedPeriod("this-week", ThisWeek, now, x);
    NamedPeriod("last-week", LastWeek, now, x);
  }

  /** What the names of months and years stand for. */
  lemma NamedMonthsMean(now: Moment, x: Moment)
    requires now.Valid() && now.date.year >= 2 && x.Valid()
    ensures
      var (month, thisMonth) := (12 * x.date.year + x.date.month, 12 * now.date.year + now.date.month);
      && In("this-month", now, x, month == thisMonth && x.Before(now))
      && In("last-month", now, x, month == thisMonth - 1)
      && In("this-year", now, x, x.date.year == now.date.year && x.Before(now))
      && In("last-year", now, x, x.date.year == now.date.year - 1)
  {
    hide In, Ordinal;
    NamedPeriod("this-month", ThisMonth, now, x);
    NamedPeriod("last-month", LastMonth, now, x);
    NamedPeriod("this-year", ThisYear, now, x);
    NamedPeriod("last-year", LastYear, now, x);
  }

  /** The name is known, and its window holds the moment if and only if the condition holds. */
  ghost predicate In(name: string, now: Moment, x: Moment, condition: bool)
    requires now.Valid() && now.date.year >= 2
  {
    var w := ResolveNamedPeriod(name, now);
    w.Some? && (InWindow(x, w.value) <==> condition)
  }

  /** Any other name is a parse error. */
  lemma UnknownPeriod(name: string, now: Moment)
    requires now.Valid() && now.date.year >= 2
    ensures ResolveNamedPeriod(name, now) == None <==>
            name !in ["today", "yesterday", "this-week", "last-week", "this-month", "last-month", "this-year",
                      "last-year"]
  {
    hide Window;
  }

  /** A running window starts where the closed one of the same unit ends. */
  lemma WindowsMeet(p: Period, now: Moment)
    requires now.Valid() && now.date.year >= 2 && IsLast(p)
    ensures Window(Running(p), now).0 == Window(p, now).1
  {
  }

  /** A window is never reversed, and never reaches past now. */
  lemma WindowOrder(p: Period, now: Moment)
    requires now.Valid() && now.date.year >= 2
    ensures
      var w := Window(p, now);
      w.0.Valid() && w.1.Valid() && !w.1.Before(w.0) && !now.Before(w.1)
  {
    WindowEdges(p, now);
    var (start, end) := Window(p, now);
    hide Window, Index, Ordinal;
    assert start.Valid() && end.Valid();
    assert !end.Before(end) && !now.Before(now);
  }
}
