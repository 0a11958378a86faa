/** Calendar dates as strings of the form YYYY-MM-DD, and the day arithmetic done on them.

    A Date at midnight UTC is its day number. Where the source throws, the functions here answer None. */
module Calendar {
  import opened Wrappers
  import opened DecimalDigits
  import opened CalendarDays
  import Renewal

  /** The first and last day with a four-digit year, and the range of Date (section 21.4.1.1 of ECMA-262). */
  const FIRST: Day := -719528
  const LAST: Day := 2932896
  const MAX_DAY: Day := 100000000

  // ---------------------------------------------------------------------------
  // Printing and parsing
  // ---------------------------------------------------------------------------

  /** The year as toISOString prints it: four digits, or a sign and six (section 21.4.1.32.1 of ECMA-262). */
  function YearText(y: int): (s: string)
    ensures |s| >= 4
  {
    if 0 <= y <= 9999 then Padded(y, 4)
    else if y > 9999 then "+" + Padded(y, 6)
    else "-" + Padded(-y, 6)
  }

  function DateText(f: Date): (s: string)
    requires IsCivil(f)
    ensures |s| >= 10
  {
    YearText(f.year) + "-" + Padded(f.month + 1, 2) + "-" + Padded(f.date, 2)
  }

  /** The first ten characters of toISOString. */
  function Sliced(d: Day): (s: string)
    ensures |s| == 10
  {
    (DateText(DateOf(d)) + "T00:00:00.000Z")[..10]
  }

  predicate Shaped(v: string) {
    |v| == 10 && AllDigits(v[..4]) && v[4] == '-' && AllDigits(v[5..7]) && v[7] == '-' && AllDigits(v[8..])
  }

  /** Shape first; then month and day in range, where a day past the end of its month runs into the next; and
      the result must print back as given. */
  function Parse(v: string): Option<Day> {
    if !Shaped(v) then None
    else
      var y, m, d := Value(v[..4]), Value(v[5..7]), Value(v[8..]);
      if !(1 <= m <= 12 && 1 <= d <= 31) then None
      else if Sliced(MakeDay(y, m - 1, d)) != v then None
      else Some(MakeDay(y, m - 1, d))
  }

  lemma BoundsAreYears()
    ensures DayFromYear(0) == FIRST && DayFromYear(10000) == LAST + 1
  {
  }

  /** A day is before, within or after the four-digit years as its year is. */
  lemma YearRange(d: Day)
    ensures d < FIRST <==> DateOf(d).year < 0
    ensures d > LAST <==> DateOf(d).year > 9999
  {
    hide DayFromYear, DateOf, IsCivil, DayOf;
    BoundsAreYears();
    var y := DateOf(d).year;
    DayInYear(DateOf(d));
    YearsAscendWeakly(y + 1, 0);
    YearsAscendWeakly(0, y);
    YearsAscendWeakly(y + 1, 10000);
    YearsAscendWeakly(10000, y);
  }

  lemma YearsAscendWeakly(a: int, b: int)
    ensures a <= b ==> DayFromYear(a) <= DayFromYear(b)
  {
    hide DayFromYear;
    if a < b {
      YearsAscend(a, b);
    }
  }

  lemma DateBounds(f: Date)
    requires IsCivil(f)
    ensures f.month + 1 < 100 && 1 <= f.date < 100
  {
    hide MonthStart, LeapDay;
  }

  lemma SmallPowers()
    ensures Pow10(2) == 100 && Pow10(4) == 10000
  {
  }

  /** A day with a four-digit year prints as its date, in the shape that parses. */
  lemma FourDigitText(d: Day)
    requires FIRST <= d <= LAST
    ensures
      var f := DateOf(d);
      && 0 <= f.year <= 9999
      && Sliced(d) == Padded(f.year, 4) + "-" + Padded(f.month + 1, 2) + "-" + Padded(f.date, 2)
  {
    YearRange(d);
    hide DateOf, IsCivil, Padded;
    var text := DateText(DateOf(d));
    assert |text| == 10;
    assert (text + "T00:00:00.000Z")[..10] == text;
  }

  lemma ShapeOf(y: string, m: string, d: string)
    requires |y| == 4 && |m| == 2 && |d| == 2 && AllDigits(y) && AllDigits(m) && AllDigits(d)
    ensures
      var v := y + "-" + m + "-" + d;
      Shaped(v) && v[..4] == y && v[5..7] == m && v[8..] == d
  {
    var v := y + "-" + m + "-" + d;
    assert v[..4] == y && v[5..7] == m && v[8..] == d;
  }

  lemma TextFields(d: Day)
    requires FIRST <= d <= LAST
    ensures
      var f, v := DateOf(d), Sliced(d);
      && Shaped(v)
      && Value(v[..4]) == f.year && Value(v[5..7]) == f.month + 1 && Value(v[8..]) == f.date
  {
    var f := DateOf(d);
    FourDigitText(d);
    DateBounds(f);
    SmallPowers();
    hide Shaped, DateOf, IsCivil, Padded, Pow10, Sliced;
    ShapeOf(Padded(f.year, 4), Padded(f.month + 1, 2), Padded(f.date, 2));
    PaddedValue(f.year, 4);
    PaddedValue(f.month + 1, 2);
    PaddedValue(f.date, 2);
  }

  /** A day number with a longer year prints with a sign and does not parse. */
  lemma SignedText(d: Day)
    requires !(FIRST <= d <= LAST)
    ensures !IsDigit(Sliced(d)[0]) && !Shaped(Sliced(d)) && Parse(Sliced(d)) == None
    ensures d > LAST ==> Sliced(d)[0] == '+'
  {
    YearRange(d);
    YearSign(d);
    hide DateOf, IsCivil, Padded, DateText, Sliced;
    assert Sliced(d)[..4][0] == Sliced(d)[0];
  }

  lemma YearSign(d: Day)
    ensures !(0 <= DateOf(d).year <= 9999) ==> !IsDigit(Sliced(d)[0])
    ensures DateOf(d).year > 9999 ==> Sliced(d)[0] == '+'
  {
    hide Padded;
    assert Sliced(d)[0] == YearText(DateOf(d).year)[0];
  }

  lemma ParsedDayYear(y: nat, m: nat, d: nat)
    requires y <= 9999 && m < 12 && 1 <= d <= 31
    ensures FIRST <= MakeDay(y, m, d) <= LAST
  {
    hide DayFromYear, MonthStart, IsLeap;
    BoundsAreYears();
    MonthAndDay(m, d, LeapDay(y));
    YearLength(y);
    YearsAscendWeakly(0, y);
    YearsAscendWeakly(y + 1, 10000);
  }

  lemma MonthAndDay(m: nat, d: nat, leap: nat)
    requires m < 12 && 1 <= d <= 31 && leap <= 1
    ensures MonthStart(m, leap) + d <= 365 + leap
  {
  }

  /** Parsing accepts exactly the printed four-digit dates, and is inverse to printing. */
  lemma ParseExactly(v: string, d: Day)
    ensures Parse(v) == Some(d) <==> FIRST <= d <= LAST && v == Sliced(d)
  {
    hide Parse, Sliced;
    if Parse(v) == Some(d) {
      ParsedIsPrinted(v, d);
    }
    if FIRST <= d <= LAST && v == Sliced(d) {
      PrintedParses(d);
    }
  }

  lemma ParsedIsPrinted(v: string, d: Day)
    requires Parse(v) == Some(d)
    ensures FIRST <= d <= LAST && v == Sliced(d)
  {
    hide Sliced, MakeDay, Padded, Pow10, Value;
    ValuePadded(v[..4]);
    SmallPowers();
    ParsedDayYear(Value(v[..4]), Value(v[5..7]) - 1, Value(v[8..]));
  }

  lemma PrintedParses(d: Day)
    requires FIRST <= d <= LAST
    ensures Parse(Sliced(d)) == Some(d)
  {
    hide Sliced, Shaped, MakeDay, DateOf, Value;
    TextFields(d);
    DatePart(d);
  }

  lemma DatePart(d: Day)
    ensures
      var f := DateOf(d);
      f.month < 12 && 1 <= f.date <= 31 && MakeDay(f.year, f.month, f.date) == d
  {
    hide MakeDay;
  }

  // ---------------------------------------------------------------------------
  // Arithmetic
  // ---------------------------------------------------------------------------

  /** setUTCDate: the month's `date`-th day, wherever that falls; None is an invalid Date. */
  function SetUtcDate(d: Day, date: int): Option<Day> {
    var f := DateOf(d);
    var t := MakeDay(f.year, f.month, date);
    if -MAX_DAY <= t <= MAX_DAY then Some(t) else None
  }

  lemma SetUtcDateAdds(d: Day, n: int)
    ensures SetUtcDate(d, DateOf(d).date + n) == if -MAX_DAY <= d + n <= MAX_DAY then Some(d + n) else None
  {
    DatePart(d);
    hide DateOf, IsCivil, DayFromYear, MonthStart, LeapDay;
  }

  function AddCalendarDays(start: string, durationDays: int): Option<string> {
    var d := Parse(start);
    if d.None? || !Renewal.ValidDuration(durationDays) then None
    else
      var t := SetUtcDate(d.value, DateOf(d.value).date + durationDays);
      if t.None? then None else Some(Sliced(t.value))
  }

  function SubtractCalendarDays(start: string, days: int): Option<string> {
    if days < 0 then None
    else
      var d := Parse(start);
      if d.None? then None
      else
        var t := SetUtcDate(d.value, DateOf(d.value).date - days);
        if t.None? then None else Some(Sliced(t.value))
  }

  function CalendarDaysUntil(from: string, exclusiveEnd: string): Option<int> {
    var a, b := Parse(from), Parse(exclusiveEnd);
    if a.None? || b.None? then None else Some(b.value - a.value)
  }

  /** The days whose year has four digits. Their printed forms are exactly the strings that parse (see
      ParseExactly), so a statement about Sliced(d) for all of them is one about every date string. */
  predicate InRange(d: Day) {
    FIRST <= d <= LAST
  }

  lemma DateParses(d: Day)
    requires InRange(d)
    ensures Parse(Sliced(d)) == Some(d)
  {
    hide Parse, Sliced;
    ParseExactly(Sliced(d), d);
  }

  lemma OnlyDatesParse(d: Day)
    ensures Parse(Sliced(d)) == if InRange(d) then Some(d) else None
  {
    hide Parse, Sliced;
    if InRange(d) {
      DateParses(d);
    } else {
      SignedText(d);
    }
  }

  /** Adding days to a date always answers, and answers a date exactly when its year has four digits. */
  lemma AddIsExact(d: Day, n: int)
    requires InRange(d) && Renewal.ValidDuration(n)
    ensures AddCalendarDays(Sliced(d), n) == Some(Sliced(d + n))
    ensures Parse(Sliced(d + n)) == if d + n <= LAST then Some(d + n) else None
  {
    hide SetUtcDate, DateOf, Sliced, Parse;
    DateParses(d);
    SetUtcDateAdds(d, n);
    OnlyDatesParse(d + n);
  }

  /** Subtracting answers as long as Date reaches, and answers a date exactly from year 0 on. */
  lemma SubtractIsExact(d: Day, n: int)
    requires InRange(d) && n >= 0
    ensures SubtractCalendarDays(Sliced(d), n) == if d - n >= -MAX_DAY then Some(Sliced(d - n)) else None
    ensures Parse(Sliced(d - n)) == if d - n >= FIRST then Some(d - n) else None
  {
    hide SetUtcDate, DateOf, Sliced, Parse;
    DateParses(d);
    SetUtcDateAdds(d, -n);
    OnlyDatesParse(d - n);
  }

  /** Days-until inverts add-days, exactly while the sum has a four-digit year; past it the sum is no date. */
  lemma DaysUntilInvertsAdd(d: Day, n: int)
    requires InRange(d) && Renewal.ValidDuration(n)
    ensures
      var sum := AddCalendarDays(Sliced(d), n);
      sum.Some? && CalendarDaysUntil(Sliced(d), sum.value) == if d + n <= LAST then Some(n) else None
  {
    hide AddCalendarDays, Sliced, Parse;
    DateParses(d);
    AddIsExact(d, n);
  }

  /** Additions compose; the second one is refused exactly when the first already left the four-digit years. */
  lemma AddsCompose(d: Day, m: int, n: int)
    requires InRange(d) && Renewal.ValidDuration(m) && Renewal.ValidDuration(n)
    ensures
      var first := AddCalendarDays(Sliced(d), m);
      && first.Some?
      && AddCalendarDays(first.value, n) == (if d + m <= LAST then Some(Sliced(d + m + n)) else None)
      && (Renewal.ValidDuration(m + n) && d + m <= LAST ==>
            AddCalendarDays(first.value, n) == AddCalendarDays(Sliced(d), m + n))
  {
    hide AddCalendarDays, Sliced, Parse;
    AddIsExact(d, m);
    if d + m <= LAST {
      AddIsExact(d + m, n);
      if Renewal.ValidDuration(m + n) {
        AddIsExact(d, m + n);
      }
    } else {
      AddToNoDate(Sliced(d + m), n);
    }
  }

  lemma AddToNoDate(v: string, n: int)
    ensures Parse(v) == None ==> AddCalendarDays(v, n) == None
  {
    hide Parse, SetUtcDate, Sliced;
  }

  /** Adding answers exactly for a date and a duration from 1 to 36500 days, with the date that many days later. */
  lemma AddAnswersExactly(v: string, n: int)
    ensures AddCalendarDays(v, n) ==
            if Parse(v).Some? && 1 <= n <= 36500 then Some(Sliced(Parse(v).value + n)) else None
  {
    hide SetUtcDate, DateOf, Sliced, Parse;
    if Parse(v).Some? && 1 <= n <= 36500 {
      var d := Parse(v).value;
      SetUtcDateAdds(d, n);
      ParseExactlyRange(v, d);
    }
  }

  lemma ParseExactlyRange(v: string, d: Day)
    requires Parse(v) == Some(d)
    ensures -719528 <= d <= 2932896 && v == Sliced(d)
  {
    hide Parse, Sliced;
    ParseExactly(v, d);
  }

  /** Subtracting answers exactly for a date and no negative number of days, down to the first day there is. */
  lemma SubtractAnswersExactly(v: string, n: int)
    ensures SubtractCalendarDays(v, n) ==
            if Parse(v).Some? && n >= 0 && Parse(v).value - n >= -100000000 then Some(Sliced(Parse(v).value - n))
            else None
  {
    hide SetUtcDate, DateOf, Sliced, Parse;
    if Parse(v).Some? && n >= 0 {
      var d := Parse(v).value;
      SetUtcDateAdds(d, -n);
      ParseExactlyRange(v, d);
    }
  }

  /** Subtraction undoes addition, and addition subtraction, within the four-digit years. */
  lemma SubtractUndoesAdd(d: Day, n: int)
    requires InRange(d) && Renewal.ValidDuration(n)
    ensures
      var sum, difference := AddCalendarDays(Sliced(d), n), SubtractCalendarDays(Sliced(d), n);
      && sum.Some? && (d + n <= LAST ==> SubtractCalendarDays(sum.value, n) == Some(Sliced(d)))
      && difference.Some? && (d - n >= FIRST ==> AddCalendarDays(difference.value, n) == Some(Sliced(d)))
  {
    hide AddCalendarDays, SubtractCalendarDays, Sliced, Parse;
    AddIsExact(d, n);
    SubtractIsExact(d, n);
    if d + n <= LAST {
      SubtractIsExact(d + n, n);
    }
    if d - n >= FIRST {
      AddIsExact(d - n, n);
    }
  }

  // ---------------------------------------------------------------------------
  // Order
  // ---------------------------------------------------------------------------

  /** Comparison of strings, character by character. */
  predicate Less(a: string, b: string) {
    if b == "" then false
    else if a == "" then true
    else a[0] < b[0] || (a[0] == b[0] && Less(a[1..], b[1..]))
  }

  lemma {:induction false} LessAppend(a: string, b: string, c: string, d: string)
    requires |a| == |b|
    ensures Less(a + c, b + d) <==> Less(a, b) || (a == b && Less(c, d))
    decreases |a|
  {
    if a == "" {
      assert a + c == c && b + d == d;
    } else {
      assert (a + c)[1..] == a[1..] + c && (b + d)[1..] == b[1..] + d;
      LessAppend(a[1..], b[1..], c, d);
      assert a == [a[0]] + a[1..] && b == [b[0]] + b[1..];
    }
  }

  lemma LessDigit(x: char, y: char)
    ensures Less([x], [y]) <==> x < y
  {
    assert [x][1..] == "" && [y][1..] == "";
  }

  lemma {:induction false} LessIsValue(a: string, b: string)
    requires |a| == |b| && AllDigits(a) && AllDigits(b)
    ensures Less(a, b) <==> Value(a) < Value(b)
    ensures a == b <==> Value(a) == Value(b)
    decreases |a|
  {
    if a != "" {
      var n := |a| - 1;
      LessIsValue(a[..n], b[..n]);
      LessAppend(a[..n], b[..n], [a[n]], [b[n]]);
      LessDigit(a[n], b[n]);
      assert a == a[..n] + [a[n]] && b == b[..n] + [b[n]];
      hide Less;
    }
  }

  lemma FieldsOrder(y: string, m: string, d: string, y': string, m': string, d': string)
    requires |y| == |y'| && |m| == |m'|
    ensures Less(y + "-" + m + "-" + d, y' + "-" + m' + "-" + d')
       <==> Less(y, y') || (y == y' && (Less(m, m') || (m == m' && Less(d, d'))))
  {
    assert y + "-" + m + "-" + d == y + ("-" + (m + ("-" + d)));
    assert y' + "-" + m' + "-" + d' == y' + ("-" + (m' + ("-" + d')));
    LessAppend(y, y', "-" + (m + ("-" + d)), "-" + (m' + ("-" + d')));
    LessAppend("-", "-", m + ("-" + d), m' + ("-" + d'));
    LessAppend(m, m', "-" + d, "-" + d');
    LessAppend("-", "-", d, d');
    assert !Less("-", "-") by { LessDigit('-', '-'); }
    hide Less;
  }

  /** Comparing date strings is comparing days (section 5.1 of RFC 3339). */
  lemma StringOrderIsDayOrder(v: string, w: string)
    ensures Parse(v).Some? && Parse(w).Some? ==>
              && (Less(v, w) <==> Parse(v).value < Parse(w).value)
              && (v == w <==> Parse(v).value == Parse(w).value)
  {
    hide Parse, Sliced, Less;
    if Parse(v).Some? && Parse(w).Some? {
      ParseExactly(v, Parse(v).value);
      ParseExactly(w, Parse(w).value);
      TextOrder(Parse(v).value, Parse(w).value);
    }
  }

  predicate PrintedBefore(f: Date, g: Date)
    requires f.year >= 0 && g.year >= 0 && f.date >= 0 && g.date >= 0
  {
    Less(Padded(f.year, 4) + "-" + Padded(f.month + 1, 2) + "-" + Padded(f.date, 2),
         Padded(g.year, 4) + "-" + Padded(g.month + 1, 2) + "-" + Padded(g.date, 2))
  }

  lemma TextOrder(s: Day, t: Day)
    requires InRange(s) && InRange(t)
    ensures Less(Sliced(s), Sliced(t)) <==> s < t
    ensures Sliced(s) == Sliced(t) <==> s == t
  {
    FourDigitText(s);
    FourDigitText(t);
    hide Sliced, DateOf, IsCivil, Less, Padded, DayOf, Parse;
    var f, g := DateOf(s), DateOf(t);
    DateBounds(f);
    DateBounds(g);
    PrintedOrder(f, g);
    DaysAreOrdered(f, g);
    DateParses(s);
    DateParses(t);
  }

  lemma PrintedOrder(f: Date, g: Date)
    requires 0 <= f.year <= 9999 && f.month < 12 && 0 <= f.date < 100
    requires 0 <= g.year <= 9999 && g.month < 12 && 0 <= g.date < 100
    ensures PrintedBefore(f, g) <==> Before(f, g)
  {
    hide Less, Padded, Pow10;
    FieldsOrder(Padded(f.year, 4), Padded(f.month + 1, 2), Padded(f.date, 2),
                Padded(g.year, 4), Padded(g.month + 1, 2), Padded(g.date, 2));
    SmallPowers();
    PaddedOrder(f.year, g.year, 4);
    PaddedOrder(f.month + 1, g.month + 1, 2);
    PaddedOrder(f.date, g.date, 2);
  }

  lemma PaddedOrder(a: nat, b: nat, width: nat)
    requires a < Pow10(width) && b < Pow10(width)
    ensures Less(Padded(a, width), Padded(b, width)) <==> a < b
    ensures Padded(a, width) == Padded(b, width) <==> a == b
  {
    hide Padded, Pow10, Value, Less;
    PaddedValue(a, width);
    PaddedValue(b, width);
    LessIsValue(Padded(a, width), Padded(b, width));
  }

  // ---------------------------------------------------------------------------
  // Lifecycle and grant dates on strings
  // ---------------------------------------------------------------------------

  datatype EntitlementDates = EntitlementDates(
    startsOn: string, endsOn: string, supersededOn: Option<string>, revoked: bool)

  /** The lifecycle as the source computes it, by comparing strings; only today's date is parsed. */
  function DeriveEntitlementLifecycle(e: EntitlementDates, today: string): Option<Renewal.Lifecycle> {
    if Parse(today).None? then None
    else if e.revoked then Some(Renewal.Revoked)
    else if e.supersededOn.Some? && e.supersededOn.value != "" && !Less(today, e.supersededOn.value) then
      Some(Renewal.Superseded)
    else if Less(today, e.startsOn) then Some(Renewal.Scheduled)
    else if !Less(today, e.endsOn) then Some(Renewal.Expired)
    else Some(Renewal.Active)
  }

  function DatesOf(g: Renewal.Grant): EntitlementDates {
    EntitlementDates(Sliced(g.start), Sliced(g.end),
                     if g.supersededOn.Some? then Some(Sliced(g.supersededOn.value)) else None, g.revoked)
  }

  /** On dates, the string lifecycle is the lifecycle on day numbers that the renewal chain is about. */
  lemma LifecycleIsOnDays(g: Renewal.Grant, today: Day)
    requires InRange(g.start) && InRange(g.end) && InRange(today)
    requires g.supersededOn.Some? ==> InRange(g.supersededOn.value)
    ensures DeriveEntitlementLifecycle(DatesOf(g), Sliced(today)) == Some(Renewal.DeriveLifecycle(g, today))
  {
    hide Parse, Less, Sliced;
    DateParses(today);
    TextOrder(today, g.start);
    TextOrder(today, g.end);
    if g.supersededOn.Some? {
      TextOrder(today, g.supersededOn.value);
    }
  }

  /** The date part of the grant validator, which compares the end with two sums as strings. */
  predicate GrantDatesAccepted(startsOn: string, endsOn: string, duration: int) {
    var earliest := AddCalendarDays(startsOn, duration);
    var latest := AddCalendarDays(startsOn, duration + Renewal.RENEWAL_WINDOW_DAYS);
    && Renewal.ValidDuration(duration) && Parse(endsOn).Some?
    && earliest.Some? && latest.Some?
    && !Less(endsOn, earliest.value) && !Less(latest.value, endsOn)
  }

  lemma PlusIsBelowDates(e: Day, d: Day)
    requires InRange(e) && d > LAST
    ensures Less(Sliced(d), Sliced(e))
  {
    SignedText(d);
    TextFields(e);
    hide Sliced, Less, DateOf;
    var v := Sliced(e);
    assert IsDigit(v[..4][0]) && v[..4][0] == v[0];
    LessFirst(Sliced(d), v);
  }

  lemma LessFirst(a: string, b: string)
    requires a != "" && b != "" && a[0] < b[0]
    ensures Less(a, b)
  {
  }

  /** The string validator is the day validator of the renewal chain, except that it also rejects every grant
      whose window ends after 9999-12-31, because there the latest end is not a date but a signed year. */
  lemma ValidatorIsOnDays(s: Day, e: Day, duration: int)
    requires InRange(s) && InRange(e)
    ensures GrantDatesAccepted(Sliced(s), Sliced(e), duration)
       <==> Renewal.ValidGrantDates(s, e, duration) && s + duration + Renewal.RENEWAL_WINDOW_DAYS <= LAST
  {
    hide AddCalendarDays, Parse, Less, Sliced;
    var w := Renewal.RENEWAL_WINDOW_DAYS;
    DateParses(e);
    if Renewal.ValidDuration(duration) && Renewal.ValidDuration(duration + w) {
      AddIsExact(s, duration);
      AddIsExact(s, duration + w);
      if s + duration + w > LAST {
        PlusIsBelowDates(e, s + duration + w);
      } else {
        TextOrder(e, s + duration);
        TextOrder(s + duration + w, e);
      }
    } else {
      AddNeedsDuration(Sliced(s), duration);
      AddNeedsDuration(Sliced(s), duration + w);
    }
  }

  lemma AddNeedsDuration(v: string, n: int)
    ensures AddCalendarDays(v, n).Some? ==> Renewal.ValidDuration(n)
  {
    hide Parse, SetUtcDate, Sliced;
  }

  // ---------------------------------------------------------------------------
  // Enumeration
  // ---------------------------------------------------------------------------

  /** None exactly when a bound is no date; otherwise the dates from the first bound to the last, in order,
      which are all the dates between them and none when they are the wrong way round. */
  method EnumerateFestivalDates(startDate: string, endDate: string) returns (r: Option<seq<string>>)
    ensures r.None? <==> Parse(startDate).None? || Parse(endDate).None?
    ensures r.Some? ==>
      var a, b := Parse(startDate).value, Parse(endDate).value;
      && |r.value| == (if b < a then 0 else b - a + 1)
      && forall k :: 0 <= k < |r.value| ==> Parse(r.value[k]) == Some(a + k)
  {
    hide Parse, Sliced, SetUtcDate, DateOf;
    var start, end := Parse(startDate), Parse(endDate);
    if start.None? || end.None? {
      return None;
    }
    ParseExactly(startDate, start.value);
    ParseExactly(endDate, end.value);
    if end.value < start.value {
      return Some([]);
    }
    var current := start.value;
    var dates: seq<string> := [];
    while current <= end.value
      invariant start.value <= current <= end.value + 1
      invariant |dates| == current - start.value
      invariant forall k :: 0 <= k < |dates| ==> Parse(dates[k]) == Some(start.value + k)
    {
      ParseExactly(Sliced(current), current);
      dates := dates + [Sliced(current)];
      SetUtcDateAdds(current, 1);
      current := SetUtcDate(current, DateOf(current).date + 1).value;
    }
    return Some(dates);
  }

  /** What the enumeration's contract amounts to: a string is listed exactly when it is a date in between, and
      the list is in ascending order both as days and as strings. */
  lemma ListedExactlyBetween(a: Day, b: Day, dates: seq<string>, v: string)
    requires |dates| == if b < a then 0 else b - a + 1
    requires forall k :: 0 <= k < |dates| ==> Parse(dates[k]) == Some(a + k)
    ensures v in dates <==> Parse(v).Some? && a <= Parse(v).value <= b
    ensures forall j, k :: 0 <= j < k < |dates| ==> Less(dates[j], dates[k])
  {
    hide Parse, Less;
    if Parse(v).Some? && a <= Parse(v).value <= b {
      var k := Parse(v).value - a;
      StringOrderIsDayOrder(v, dates[k]);
    }
    forall j, k | 0 <= j < k < |dates| ensures Less(dates[j], dates[k]) {
      StringOrderIsDayOrder(dates[j], dates[k]);
    }
  }
}
