/** Day numbers and civil dates: sections 21.4.1.3 to 21.4.1.12 of ECMA-262, in days since 1970-01-01. */
module CalendarDays {
  type Day = int

  predicate IsLeap(y: int) {
    y % 4 == 0 && (y % 100 != 0 || y % 400 == 0)
  }

  function LeapDay(y: int): (n: nat)
    ensures n <= 1
  {
    if IsLeap(y) then 1 else 0
  }

  function DaysInYear(y: int): (n: nat)
    ensures 365 <= n <= 366
  {
    365 + LeapDay(y)
  }

  /** The number of the first day of a year. */
  function DayFromYear(y: int): Day {
    365 * (y - 1970) + (y - 1969) / 4 - (y - 1901) / 100 + (y - 1601) / 400
  }

  lemma Quarter(y: int)
    ensures (y - 1968) / 4 - (y - 1969) / 4 == if y % 4 == 0 then 1 else 0
  {
  }

  lemma Century(y: int)
    ensures (y - 1900) / 100 - (y - 1901) / 100 == if y % 100 == 0 then 1 else 0
  {
  }

  lemma FourCenturies(y: int)
    ensures (y - 1600) / 400 - (y - 1601) / 400 == if y % 400 == 0 then 1 else 0
  {
  }

  lemma Divisibility(y: int)
    ensures y % 400 == 0 ==> y % 100 == 0
    ensures y % 100 == 0 ==> y % 4 == 0
  {
    if y % 400 == 0 {
      MultipleOf100(y, 4 * (y / 400));
    }
    if y % 100 == 0 {
      MultipleOf4(y, 25 * (y / 100));
    }
  }

  lemma MultipleOf100(y: int, q: int)
    requires y == 100 * q
    ensures y % 100 == 0
  {
  }

  lemma MultipleOf4(y: int, q: int)
    requires y == 4 * q
    ensures y % 4 == 0
  {
  }

  /** A year begins as many days after the one before as that one has. */
  lemma YearLength(y: int)
    ensures DayFromYear(y + 1) == DayFromYear(y) + DaysInYear(y)
  {
    Quarter(y);
    Century(y);
    FourCenturies(y);
    Divisibility(y);
  }

  lemma {:induction false} YearsAscend(a: int, b: int)
    requires a < b
    ensures DayFromYear(a) + 365 * (b - a) <= DayFromYear(b)
    decreases b - a
  {
    hide DayFromYear;
    YearLength(b - 1);
    if a < b - 1 {
      YearsAscend(a, b - 1);
    }
  }

  /** The year a day is in: the largest year that begins on or before it, searched from `y`. */
  function SearchYear(d: Day, y: int): (r: int)
    ensures DayFromYear(r) <= d < DayFromYear(r + 1)
    decreases if DayFromYear(y) > d then 1 else 0, if DayFromYear(y) > d then DayFromYear(y) - d else d - DayFromYear(y)
  {
    hide DayFromYear;
    YearLength(y);
    YearLength(y - 1);
    if DayFromYear(y) > d then SearchYear(d, y - 1)
    else if DayFromYear(y + 1) <= d then SearchYear(d, y + 1)
    else y
  }

  function YearOf(d: Day): int {
    SearchYear(d, 1970)
  }

  lemma YearIs(d: Day, y: int)
    requires DayFromYear(y) <= d < DayFromYear(y + 1)
    ensures YearOf(d) == y
  {
    hide DayFromYear;
    var r := YearOf(d);
    if r < y {
      if r + 1 < y { YearsAscend(r + 1, y); }
    }
    if y < r {
      if y + 1 < r { YearsAscend(y + 1, r); }
    }
  }

  // ---------------------------------------------------------------------------
  // Months, counted from zero
  // ---------------------------------------------------------------------------

  /** Days of a year before a month. */
  function MonthStart(m: nat, leap: nat): nat
    requires m <= 12 && leap <= 1
  {
    if m == 0 then 0 else if m == 1 then 31
    else leap + if m == 2 then 59 else if m == 3 then 90 else if m == 4 then 120 else if m == 5 then 151
                else if m == 6 then 181 else if m == 7 then 212 else if m == 8 then 243 else if m == 9 then 273
                else if m == 10 then 304 else if m == 11 then 334 else 365
  }

  function DaysInMonth(m: nat, leap: nat): (n: nat)
    requires m < 12 && leap <= 1
    ensures 28 <= n <= 31
  {
    MonthStart(m + 1, leap) - MonthStart(m, leap)
  }

  /** The month of the n-th day of a year. */
  function MonthOf(n: nat, leap: nat): (m: nat)
    requires leap <= 1 && n < 365 + leap
    ensures m < 12 && MonthStart(m, leap) <= n < MonthStart(m + 1, leap)
  {
    if n < 31 then 0 else if n < 59 + leap then 1 else if n < 90 + leap then 2 else if n < 120 + leap then 3
    else if n < 151 + leap then 4 else if n < 181 + leap then 5 else if n < 212 + leap then 6
    else if n < 243 + leap then 7 else if n < 273 + leap then 8 else if n < 304 + leap then 9
    else if n < 334 + leap then 10 else 11
  }

  lemma MonthsAscend(a: nat, b: nat, leap: nat)
    requires a < b <= 12 && leap <= 1
    ensures MonthStart(a, leap) + 28 <= MonthStart(b, leap)
  {
  }

  // ---------------------------------------------------------------------------
  // Civil dates
  // ---------------------------------------------------------------------------

  datatype Date = Date(year: int, month: nat, date: int)

  predicate IsCivil(f: Date) {
    f.month < 12 && 1 <= f.date <= DaysInMonth(f.month, LeapDay(f.year))
  }

  /** The day of a year, month and day of the month; a day past the end of the month runs into the next. */
  function MakeDay(year: int, month: nat, date: int): Day
    requires month < 12
  {
    DayFromYear(year) + MonthStart(month, LeapDay(year)) + date - 1
  }

  function DayOf(f: Date): Day
    requires IsCivil(f)
  {
    MakeDay(f.year, f.month, f.date)
  }

  lemma DayInItsYear(d: Day)
    ensures 0 <= d - DayFromYear(YearOf(d)) < 365 + LeapDay(YearOf(d))
  {
    hide DayFromYear;
    YearLength(YearOf(d));
  }

  function DateOf(d: Day): (f: Date)
    ensures IsCivil(f) && DayOf(f) == d
  {
    var y := YearOf(d);
    DayInItsYear(d);
    hide DayFromYear, MonthStart, IsLeap, YearOf;
    var n := d - DayFromYear(y);
    var m := MonthOf(n, LeapDay(y));
    Date(y, m, n - MonthStart(m, LeapDay(y)) + 1)
  }

  lemma DayInYear(f: Date)
    requires IsCivil(f)
    ensures DayFromYear(f.year) <= DayOf(f) < DayFromYear(f.year + 1)
    ensures YearOf(DayOf(f)) == f.year
  {
    hide DayFromYear, MonthStart;
    YearLength(f.year);
    MonthBound(f.month, LeapDay(f.year));
    YearIs(DayOf(f), f.year);
  }

  lemma MonthBound(m: nat, leap: nat)
    requires m < 12 && leap <= 1
    ensures MonthStart(m + 1, leap) <= 365 + leap == MonthStart(12, leap)
  {
  }

  predicate Before(f: Date, g: Date) {
    f.year < g.year || (f.year == g.year && (f.month < g.month || (f.month == g.month && f.date < g.date)))
  }

  /** Dates and days correspond one to one, and in order. */
  lemma DaysAreOrdered(f: Date, g: Date)
    requires IsCivil(f) && IsCivil(g)
    ensures DayOf(f) < DayOf(g) <==> Before(f, g)
    ensures DayOf(f) == DayOf(g) <==> f == g
  {
    if f.year == g.year {
      SameYearOrder(f, g);
    } else if f.year < g.year {
      EarlierYear(f, g);
    } else {
      EarlierYear(g, f);
    }
  }

  lemma EarlierYear(f: Date, g: Date)
    requires IsCivil(f) && IsCivil(g) && f.year < g.year
    ensures DayOf(f) < DayOf(g)
  {
    hide DayFromYear, DayOf, IsCivil;
    DayInYear(f);
    DayInYear(g);
    if f.year + 1 < g.year {
      YearsAscend(f.year + 1, g.year);
    }
  }

  lemma SameYearOrder(f: Date, g: Date)
    requires IsCivil(f) && IsCivil(g) && f.year == g.year
    ensures DayOf(f) < DayOf(g) <==> Before(f, g)
    ensures DayOf(f) == DayOf(g) <==> f == g
  {
    var leap := LeapDay(f.year);
    MonthOrder(f.month, f.date, g.month, g.date, leap);
    hide DayFromYear, MonthStart, LeapDay;
  }

  lemma MonthOrder(m: nat, d: int, n: nat, e: int, leap: nat)
    requires m < 12 && n < 12 && leap <= 1 && 1 <= d <= DaysInMonth(m, leap) && 1 <= e <= DaysInMonth(n, leap)
    ensures MonthStart(m, leap) + d < MonthStart(n, leap) + e <==> m < n || (m == n && d < e)
  {
    if m < n {
      NextMonth(m, n, leap);
    } else if n < m {
      NextMonth(n, m, leap);
    }
    hide MonthStart;
  }

  lemma NextMonth(m: nat, n: nat, leap: nat)
    requires m < n < 12 && leap <= 1
    ensures MonthStart(m + 1, leap) <= MonthStart(n, leap)
  {
    if m + 1 < n {
      MonthsAscend(m + 1, n, leap);
    }
  }

  lemma DateRoundTrip(f: Date)
    requires IsCivil(f)
    ensures DateOf(DayOf(f)) == f
  {
    hide DayOf, IsCivil, DateOf;
    DaysAreOrdered(DateOf(DayOf(f)), f);
  }

  // ---------------------------------------------------------------------------
  // The calendar, day by day
  // ---------------------------------------------------------------------------

  /** The length of a month counted from zero: thirty days hath September, April, June and November. */
  function MonthLength(y: int, m: nat): nat {
    if m == 3 || m == 5 || m == 8 || m == 10 then 30
    else if m != 1 then 31
    else if (y % 4 == 0 && y % 100 != 0) || y % 400 == 0 then 29
    else 28
  }

  lemma LeapExactly(y: int)
    ensures LeapDay(y) == if (y % 4 == 0 && y % 100 != 0) || y % 400 == 0 then 1 else 0
  {
    Divisibility(y);
  }

  lemma LengthExactly(y: int, m: nat)
    requires m < 12
    ensures DaysInMonth(m, LeapDay(y)) == MonthLength(y, m)
  {
    LeapExactly(y);
    hide LeapDay;
  }

  /** A date is civil exactly when its day is a day of its month. */
  lemma CivilExactly(f: Date)
    ensures IsCivil(f) <==> f.month < 12 && 1 <= f.date <= MonthLength(f.year, f.month)
  {
    if f.month < 12 {
      LengthExactly(f.year, f.month);
    }
    hide MonthLength, DaysInMonth, LeapDay;
  }

  /** The day after: the next of the month, or the first of the next month, or the first of the next year. */
  function Next(f: Date): Date {
    if f.date < MonthLength(f.year, f.month) then Date(f.year, f.month, f.date + 1)
    else if f.month < 11 then Date(f.year, f.month + 1, 1)
    else Date(f.year + 1, 0, 1)
  }

  lemma NextIsCivil(f: Date)
    requires IsCivil(f)
    ensures IsCivil(Next(f)) && DayOf(Next(f)) == DayOf(f) + 1
  {
    LengthExactly(f.year, f.month);
    if f.date < MonthLength(f.year, f.month) {
      hide MonthLength, DayFromYear, MonthStart, LeapDay;
    } else if f.month < 11 {
      hide MonthLength, DayFromYear, LeapDay;
    } else {
      YearLength(f.year);
      hide MonthLength, DayFromYear, IsLeap;
    }
  }

  /** Day numbers count the calendar: day 0 is the first of January 1970, and every day is followed by the next. */
  lemma DaysCountTheCalendar(d: Day)
    ensures DateOf(0) == Date(1970, 0, 1)
    ensures DateOf(d + 1) == Next(DateOf(d))
  {
    EpochIsZero();
    hide DayOf, IsCivil, Next, DateOf;
    DayIsOf(0, Date(1970, 0, 1));
    NextIsCivil(DateOf(d));
    DayIsOf(d + 1, Next(DateOf(d)));
  }

  lemma DayIsOf(d: Day, f: Date)
    requires IsCivil(f) && DayOf(f) == d
    ensures DateOf(d) == f
  {
    hide DayOf, IsCivil, DateOf;
    DateRoundTrip(f);
  }

  lemma EpochIsZero()
    ensures IsCivil(Date(1970, 0, 1)) && DayOf(Date(1970, 0, 1)) == 0
  {
  }
}
