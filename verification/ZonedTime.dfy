/** Resolving a wall time in a time zone to an instant, and the registration window between two of them.

    A zone is any function giving the offset, in milliseconds, that holds at an instant: the wall time of an
    instant is the instant plus its offset. */
module ZonedTime {
  import opened Wrappers
  import opened CalendarDays

  /** Milliseconds since 1970-01-01T00:00Z. */
  type Instant = int

  type Zone = Instant -> int

  const MS_PER_DAY: nat := 86400000

  datatype Components = Components(
    year: nat, month: nat, day: nat, hour: nat, minute: nat, second: nat, millisecond: nat)

  // ---------------------------------------------------------------------------
  // Components
  // ---------------------------------------------------------------------------

  /** Date.UTC takes a year from 0 to 99 for one of the twentieth century (section 21.4.3.4 of ECMA-262). */
  function UtcDay(year: nat, month: nat, day: nat): Day
    requires 1 <= month <= 12
  {
    MakeDay(if year <= 99 then 1900 + year else year, month - 1, day)
  }

  /** The date read back from the day must be the one given. */
  predicate IsValidCalendarComponents(year: nat, month: nat, day: nat) {
    1 <= month <= 12 && 1 <= day <= 31 && DateOf(UtcDay(year, month, day)) == Date(year, month - 1, day)
  }

  /** Valid components are the civil dates from year 100 on: no date of the years 0 to 99 is accepted. */
  lemma ValidComponentsExactly(year: nat, month: nat, day: nat)
    ensures IsValidCalendarComponents(year, month, day)
       <==> year >= 100 && 1 <= month <= 12 && IsCivil(Date(year, month - 1, day))
  {
    hide DateOf, DayFromYear, MonthStart, IsLeap;
    if 1 <= month <= 12 && IsCivil(Date(year, month - 1, day)) && year >= 100 {
      DateRoundTrip(Date(year, month - 1, day));
    }
    if IsValidCalendarComponents(year, month, day) && year <= 99 {
      TwentiethCentury(year, month, day);
    }
  }

  lemma TwentiethCentury(year: nat, month: nat, day: nat)
    requires year <= 99 && 1 <= month <= 12 && 1 <= day
    ensures DateOf(UtcDay(year, month, day)).year != year
  {
    hide DateOf, DayFromYear, MonthStart, IsLeap;
    DayInYear(DateOf(UtcDay(year, month, day)));
    YearsAscend(year + 1, 1900 + year);
  }

  predicate IsValidTime(c: Components) {
    c.hour <= 23 && c.minute <= 59 && c.second <= 59
  }

  predicate IsWallTime(c: Components) {
    IsValidCalendarComponents(c.year, c.month, c.day) && IsValidTime(c)
  }

  /** The wall time as if it were UTC. */
  function Target(c: Components): Instant
    requires IsWallTime(c)
  {
    UtcDay(c.year, c.month, c.day) * MS_PER_DAY + ((c.hour * 60 + c.minute) * 60 + c.second) * 1000 + c.millisecond
  }

  /** The wall times that resolve: a day of the calendar from year 100 on and a time of day. */
  lemma WallTimeExactly(c: Components)
    ensures IsWallTime(c) <==>
              && c.year >= 100 && 1 <= c.month <= 12 && 1 <= c.day <= MonthLength(c.year, c.month - 1)
              && c.hour <= 23 && c.minute <= 59 && c.second <= 59
  {
    ValidComponentsExactly(c.year, c.month, c.day);
    if 1 <= c.month <= 12 {
      CivilExactly(Date(c.year, c.month - 1, c.day));
    }
    hide IsValidCalendarComponents, MonthLength, IsCivil;
  }

  /** The milliseconds of a wall time read as UTC. */
  lemma TargetExactly(c: Components)
    requires IsWallTime(c)
    ensures c.year >= 100 && 1 <= c.month && IsCivil(Date(c.year, c.month - 1, c.day))
    ensures Target(c) == 86400000 * DayOf(Date(c.year, c.month - 1, c.day))
                         + 3600000 * c.hour + 60000 * c.minute + 1000 * c.second + c.millisecond
  {
    ValidComponentsExactly(c.year, c.month, c.day);
    hide IsValidCalendarComponents, IsCivil, DayFromYear, MonthStart, LeapDay;
  }

  // ---------------------------------------------------------------------------
  // The bounded search
  // ---------------------------------------------------------------------------

  function WallTime(zone: Zone, u: Instant): Instant {
    u + zone(u)
  }

  /** The guess after k corrections. */
  function Guess(zone: Zone, target: Instant, k: nat): Instant {
    if k == 0 then target else target - zone(Guess(zone, target, k - 1))
  }

  lemma {:induction false} SettledStays(zone: Zone, target: Instant, j: nat, k: nat)
    requires j <= k && WallTime(zone, Guess(zone, target, j)) == target
    ensures Guess(zone, target, k) == Guess(zone, target, j)
    decreases k - j
  {
    if j < k {
      SettledStays(zone, target, j, k - 1);
    }
  }

  /** At most four corrections of the guess, none once it is right; whatever comes out must have the wall time
      asked for. The answer is sound for every zone. */
  method ResolveTimezoneDate(c: Components, zone: Zone) returns (r: Option<Instant>)
    ensures r == if IsWallTime(c) then Resolved(zone, Target(c)) else None
    ensures r.Some? ==> IsWallTime(c) && WallTime(zone, r.value) == Target(c)
  {
    hide IsValidCalendarComponents, Target;
    if !IsValidCalendarComponents(c.year, c.month, c.day) {
      return None;
    }
    if c.hour > 23 || c.minute > 59 || c.second > 59 {
      return None;
    }
    var target := Target(c);
    var guess := target;
    var i := 0;
    while i < 4
      invariant 0 <= i <= 4
      invariant guess == Guess(zone, target, i)
      decreases 4 - i
    {
      var diff := WallTime(zone, guess) - target;
      if diff == 0 {
        SettledStays(zone, target, i, 4);
        break;
      }
      guess := guess - diff;
      i := i + 1;
    }
    assert guess == Guess(zone, target, 4);
    r := if WallTime(zone, guess) == target then Some(guess) else None;
  }

  function Resolved(zone: Zone, target: Instant): Option<Instant> {
    var g := Guess(zone, target, 4);
    if WallTime(zone, g) == target then Some(g) else None
  }

  // ---------------------------------------------------------------------------
  // Soundness, completeness and choice
  // ---------------------------------------------------------------------------

  /** Offsets never exceed `bound`; and within that distance of the target the offset changes at most once:
      from `a` to `b` at `x`. (Where it does not change, a == b.) */
  ghost predicate OneTransition(zone: Zone, target: Instant, bound: int, a: int, b: int, x: Instant) {
    && -bound <= a <= bound && -bound <= b <= bound
    && (forall u :: -bound <= zone(u) <= bound)
    && forall u :: target - bound <= u <= target + bound ==> zone(u) == if u < x then a else b
  }

  ghost predicate HasInstant(zone: Zone, target: Instant) {
    exists u :: WallTime(zone, u) == target
  }

  /** The wall times skipped when the clock goes forward. */
  predicate InGap(target: Instant, a: int, b: int, x: Instant) {
    x + a <= target < x + b
  }

  /** The wall times that occur twice when the clock goes back. */
  predicate InOverlap(target: Instant, a: int, b: int, x: Instant) {
    x + b <= target < x + a
  }

  /** The instants with the wall time: one for each side of the transition, if it lies on that side. */
  lemma InstantsAre(zone: Zone, target: Instant, bound: int, a: int, b: int, x: Instant, u: Instant)
    requires OneTransition(zone, target, bound, a, b, x)
    ensures WallTime(zone, u) == target <==> (u == target - a && u < x) || (u == target - b && u >= x)
  {
    assert -bound <= zone(u) <= bound;
  }

  /** There is an instant with the wall time exactly outside the gap. */
  lemma InstantExactlyOutsideGap(zone: Zone, target: Instant, bound: int, a: int, b: int, x: Instant)
    requires OneTransition(zone, target, bound, a, b, x)
    ensures HasInstant(zone, target) <==> !InGap(target, a, b, x)
  {
    hide OneTransition, WallTime;
    InstantsAre(zone, target, bound, a, b, x, target - a);
    InstantsAre(zone, target, bound, a, b, x, target - b);
    if HasInstant(zone, target) {
      var u :| WallTime(zone, u) == target;
      InstantsAre(zone, target, bound, a, b, x, u);
    }
  }

  lemma Guesses(zone: Zone, target: Instant, bound: int, a: int, b: int, x: Instant)
    requires OneTransition(zone, target, bound, a, b, x)
    ensures Guess(zone, target, 1) == target - if target < x then a else b
    ensures forall k :: k >= 0 ==> Guess(zone, target, k + 1) == target - if Guess(zone, target, k) < x then a else b
  {
    assert target - bound <= target <= target + bound;
    forall k: nat ensures Guess(zone, target, k + 1) == target - if Guess(zone, target, k) < x then a else b {
      GuessNear(zone, target, bound, a, b, x, k);
    }
    assert Guess(zone, target, 0 + 1) == target - if Guess(zone, target, 0) < x then a else b;
  }

  lemma GuessNear(zone: Zone, target: Instant, bound: int, a: int, b: int, x: Instant, k: nat)
    requires OneTransition(zone, target, bound, a, b, x)
    ensures target - bound <= Guess(zone, target, k) <= target + bound
  {
    if k > 0 {
      assert -bound <= zone(Guess(zone, target, k - 1)) <= bound;
    }
  }

  /** Two corrections are enough: whenever some instant has the wall time, the second guess already has it, and
      the third and fourth change nothing. */
  lemma TwoCorrectionsSuffice(zone: Zone, target: Instant, bound: int, a: int, b: int, x: Instant)
    requires OneTransition(zone, target, bound, a, b, x)
    ensures HasInstant(zone, target) <==> WallTime(zone, Guess(zone, target, 2)) == target
    ensures HasInstant(zone, target) ==> Guess(zone, target, 4) == Guess(zone, target, 2)
  {
    hide OneTransition, WallTime, Guess, HasInstant;
    InstantExactlyOutsideGap(zone, target, bound, a, b, x);
    Guesses(zone, target, bound, a, b, x);
    assert Guess(zone, target, 1 + 1) == target - if Guess(zone, target, 1) < x then a else b;
    InstantsAre(zone, target, bound, a, b, x, Guess(zone, target, 2));
    if HasInstant(zone, target) {
      SettledStays(zone, target, 2, 4);
    }
  }

  /** Main result: the search finds an instant exactly when one exists, and answers nothing exactly for a wall
      time inside the gap. */
  lemma ResolvesExactlyOutsideGap(zone: Zone, target: Instant, bound: int, a: int, b: int, x: Instant)
    requires OneTransition(zone, target, bound, a, b, x)
    ensures Resolved(zone, target).Some? <==> HasInstant(zone, target)
    ensures Resolved(zone, target).None? <==> InGap(target, a, b, x)
    ensures Resolved(zone, target).Some? ==> WallTime(zone, Resolved(zone, target).value) == target
  {
    hide OneTransition, WallTime, Guess, HasInstant;
    InstantExactlyOutsideGap(zone, target, bound, a, b, x);
    TwoCorrectionsSuffice(zone, target, bound, a, b, x);
    assert WallTime(zone, Guess(zone, target, 4)) == target ==> HasInstant(zone, target) by {
      Witness(zone, target, Guess(zone, target, 4));
    }
  }

  lemma Witness(zone: Zone, target: Instant, u: Instant)
    ensures WallTime(zone, u) == target ==> HasInstant(zone, target)
  {
  }

  /** Of the two instants of an ambiguous wall time the search takes the earlier when the target, read as UTC,
      is before the transition, and the later otherwise: east of Greenwich and west of it differ. */
  lemma OverlapChoice(zone: Zone, target: Instant, bound: int, a: int, b: int, x: Instant)
    requires OneTransition(zone, target, bound, a, b, x) && InOverlap(target, a, b, x)
    ensures WallTime(zone, target - a) == target && WallTime(zone, target - b) == target && target - a < target - b
    ensures Resolved(zone, target) == Some(if target < x then target - a else target - b)
  {
    hide OneTransition, WallTime, Guess, HasInstant;
    InstantsAre(zone, target, bound, a, b, x, target - a);
    InstantsAre(zone, target, bound, a, b, x, target - b);
    Guesses(zone, target, bound, a, b, x);
    SettledStays(zone, target, 1, 4);
  }

  /** One correction is not enough: an hour east of UTC, with the clock going forward an hour at 0, the wall
      time half an hour after midnight UTC is still before the change. */
  lemma OneCorrectionIsNotEnough()
    ensures
      var zone: Zone := u => if u < 0 then 3600000 else 7200000;
      && OneTransition(zone, 1800000, 7200000, 3600000, 7200000, 0)
      && WallTime(zone, Guess(zone, 1800000, 1)) != 1800000
      && Resolved(zone, 1800000) == Some(-1800000)
  {
    var zone: Zone := u => if u < 0 then 3600000 else 7200000;
    assert Guess(zone, 1800000, 1) == -5400000;
    assert Guess(zone, 1800000, 2) == -1800000;
    SettledStays(zone, 1800000, 2, 4);
  }

  // ---------------------------------------------------------------------------
  // The registration window
  // ---------------------------------------------------------------------------

  /** Open from the first bound, included, to the second, excluded; never without both, or the wrong way round. */
  predicate IsRegistrationOpen(opensAt: Option<Instant>, closesAt: Option<Instant>, now: Instant) {
    if opensAt.None? || closesAt.None? || opensAt.value > closesAt.value then false
    else opensAt.value <= now && now < closesAt.value
  }

  /** Registration is open exactly when both bounds are there and the instant is from the first on and before the
      second. */
  lemma OpenExactly(opensAt: Option<Instant>, closesAt: Option<Instant>, now: Instant)
    ensures IsRegistrationOpen(opensAt, closesAt, now) <==>
              exists a, b :: opensAt == Some(a) && closesAt == Some(b) && a <= now < b
  {
    if opensAt.Some? && closesAt.Some? {
      assert opensAt == Some(opensAt.value) && closesAt == Some(closesAt.value);
    }
  }

  function BoundaryOfDate(year: nat, month: nat, day: nat, isClose: bool): Components {
    if isClose then Components(year, month, day, 23, 59, 59, 999) else Components(year, month, day, 0, 0, 0, 0)
  }

  /** As OneTransition, but within three times the bound: far enough that an instant beyond it is on the same
      side of the target by its wall time as by itself. */
  ghost predicate OneTransitionAround(zone: Zone, target: Instant, bound: int, a: int, b: int, x: Instant) {
    && -bound <= a <= bound && -bound <= b <= bound
    && (forall u :: -bound <= zone(u) <= bound)
    && forall u :: target - 3 * bound <= u <= target + 3 * bound ==> zone(u) == if u < x then a else b
  }

  /** The wall time occurs exactly once. */
  predicate Plain(target: Instant, a: int, b: int, x: Instant) {
    !InGap(target, a, b, x) && !InOverlap(target, a, b, x)
  }

  lemma AroundIsNear(zone: Zone, target: Instant, bound: int, a: int, b: int, x: Instant)
    requires OneTransitionAround(zone, target, bound, a, b, x)
    ensures OneTransition(zone, target, bound, a, b, x)
  {
  }

  /** A plain bound divides the instants as it divides the wall times, whatever the clock does elsewhere: the
      instants from the resolved one on are those whose wall time is not before the bound. */
  lemma WallOrder(zone: Zone, target: Instant, bound: int, a: int, b: int, x: Instant, u: Instant)
    requires OneTransitionAround(zone, target, bound, a, b, x) && Plain(target, a, b, x)
    ensures Resolved(zone, target).Some?
    ensures Resolved(zone, target).value <= u <==> target <= WallTime(zone, u)
  {
    AroundIsNear(zone, target, bound, a, b, x);
    ResolvesExactlyOutsideGap(zone, target, bound, a, b, x);
    var r := Resolved(zone, target).value;
    InstantsAre(zone, target, bound, a, b, x, r);
    hide Resolved, OneTransition;
    assert -bound <= zone(u) <= bound;
    assert target - 3 * bound <= u <= target + 3 * bound ==> zone(u) == if u < x then a else b;
  }

  /** Bounds given as dates, in a zone whose clock changes at most once near each of them, neither bound being a
      wall time that is skipped or occurs twice: registration is open exactly on the local days from the first to
      the last, except in the very last millisecond of the last day. */
  lemma DateWindowIsLocalDays(zone: Zone, bound: int, from: Date, to: Date, now: Instant,
                              a: int, b: int, x: Instant, c: int, d: int, y: Instant)
    requires 100 <= from.year && IsCivil(from) && 100 <= to.year && IsCivil(to)
    requires OneTransitionAround(zone, DayOf(from) * MS_PER_DAY, bound, a, b, x)
    requires OneTransitionAround(zone, (DayOf(to) + 1) * MS_PER_DAY - 1, bound, c, d, y)
    requires Plain(DayOf(from) * MS_PER_DAY, a, b, x) && Plain((DayOf(to) + 1) * MS_PER_DAY - 1, c, d, y)
    ensures
      var opening := BoundaryOfDate(from.year, from.month + 1, from.date, false);
      var closing := BoundaryOfDate(to.year, to.month + 1, to.date, true);
      && IsWallTime(opening) && IsWallTime(closing)
      && var local, last := WallTime(zone, now), DayOf(to);
         IsRegistrationOpen(Resolved(zone, Target(opening)), Resolved(zone, Target(closing)), now)
         <==> (DayOf(from) <= local / MS_PER_DAY <= last && local != (last + 1) * MS_PER_DAY - 1)
  {
    BoundaryTargets(from, to);
    hide *;
    var first, end := DayOf(from) * MS_PER_DAY, (DayOf(to) + 1) * MS_PER_DAY - 1;
    WindowIsWallInterval(zone, bound, first, end, now, a, b, x, c, d, y);
    DaysOfInterval(WallTime(zone, now), DayOf(from), DayOf(to));
  }

  /** Between two plain bounds registration is open exactly while the wall time is between them. */
  lemma WindowIsWallInterval(zone: Zone, bound: int, first: Instant, end: Instant, now: Instant,
                             a: int, b: int, x: Instant, c: int, d: int, y: Instant)
    requires OneTransitionAround(zone, first, bound, a, b, x) && Plain(first, a, b, x)
    requires OneTransitionAround(zone, end, bound, c, d, y) && Plain(end, c, d, y)
    ensures IsRegistrationOpen(Resolved(zone, first), Resolved(zone, end), now)
       <==> first <= WallTime(zone, now) < end
  {
    WallOrder(zone, first, bound, a, b, x, now);
    WallOrder(zone, end, bound, c, d, y, now);
    hide OneTransitionAround, Plain, Resolved, WallTime;
  }

  lemma DaysOfInterval(t: Instant, first: Day, last: Day)
    ensures first * MS_PER_DAY <= t < (last + 1) * MS_PER_DAY - 1
       <==> first <= t / MS_PER_DAY <= last && t != (last + 1) * MS_PER_DAY - 1
  {
    DayOfInstant(t, first);
    DayOfInstant(t, last + 1);
  }

  lemma BoundaryTargets(from: Date, to: Date)
    requires 100 <= from.year && IsCivil(from) && 100 <= to.year && IsCivil(to)
    ensures
      var opening := BoundaryOfDate(from.year, from.month + 1, from.date, false);
      var closing := BoundaryOfDate(to.year, to.month + 1, to.date, true);
      && IsWallTime(opening) && Target(opening) == DayOf(from) * MS_PER_DAY
      && IsWallTime(closing) && Target(closing) == (DayOf(to) + 1) * MS_PER_DAY - 1
  {
    hide DateOf, DayFromYear, MonthStart, IsLeap;
    ValidComponentsExactly(from.year, from.month + 1, from.date);
    ValidComponentsExactly(to.year, to.month + 1, to.date);
    hide IsValidCalendarComponents;
  }

  lemma DayOfInstant(t: Instant, d: Day)
    ensures d <= t / MS_PER_DAY <==> d * MS_PER_DAY <= t
  {
  }
}
