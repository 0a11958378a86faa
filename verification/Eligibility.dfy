/** Purchase eligibility: the line-by-line check of a cart, its advisory variant for candidate lines, and
    what the verdict means for the cart as a whole. */
module Eligibility {
  import opened Wrappers

  type Id = string

  datatype EntitlementStatus = Confirmed | Waitlisted | Cancelled | Revoked

  datatype Entitlement = Entitlement(org: Id, festival: Id, festivalClass: Id, child: Id, status: EntitlementStatus)

  /** An absent capacity is None. */
  datatype ClassConfig = ClassConfig(
    id: Id, org: Id, festival: Id, subtype: Id, division: Id, minimumAge: int, maximumAge: int,
    capacity: Option<int>, isActive: bool)

  datatype Subtype = Subtype(id: Id, displayName: string, requiredSubtype: Option<string>)

  /** A cart line.  Teacher, accompanist and pieces do not take part in the check. */
  datatype Line = Line(id: Option<string>, child: Id, festivalClass: Id, isCandidate: bool)

  datatype Reason =
    | Available
    | AlreadyRegistered
    | MissingPrerequisite
    | RegistrationClosed
    | ClassNotAvailable
    | SoldOut

  /** What satisfied a prerequisite: an entitlement, or the line with this class and id. */
  datatype Satisfier = ByEntitlement | ByLine(festivalClass: Id, line: Option<string>)

  datatype Verdict = Verdict(child: Id, festivalClass: Id, reason: Reason, satisfied: seq<Satisfier>) {
    predicate IsEligible() { reason.Available? }
  }

  datatype Context = Context(
    org: Id, festival: Id, isOpen: bool, classes: map<Id, ClassConfig>, subtypes: map<Id, Subtype>,
    entitlements: seq<Entitlement>, lines: seq<Line>)

  // ---------------------------------------------------------------------------
  // Normalizing the inputs
  // ---------------------------------------------------------------------------

  /** A list of classes becomes a map by id; of two with one id the later wins. */
  function ById(classes: seq<ClassConfig>): map<Id, ClassConfig> {
    if classes == [] then map[]
    else ById(classes[..|classes| - 1])[classes[|classes| - 1].id := classes[|classes| - 1]]
  }

  method NormalizeClasses(classes: seq<ClassConfig>) returns (m: map<Id, ClassConfig>)
    ensures m == ById(classes)
    ensures forall k :: k in m ==> m[k] in classes && m[k].id == k
    ensures forall c :: c in classes ==> c.id in m
  {
    m := map[];
    var i := 0;
    while i < |classes|
      invariant 0 <= i <= |classes|
      invariant m == ById(classes[..i])
      invariant forall k :: k in m ==> m[k].id == k && exists j :: 0 <= j < i && classes[j] == m[k]
      invariant forall j :: 0 <= j < i ==> classes[j].id in m
    {
      m := m[classes[i].id := classes[i]];
      assert classes[..i + 1][..i] == classes[..i];
      i := i + 1;
    }
    assert classes[..i] == classes;
  }

  // ---------------------------------------------------------------------------
  // Candidate markers
  // ---------------------------------------------------------------------------

  predicate HasMarker(id: string) {
    "candidate:" <= id || "candidate_" <= id || "candidate-" <= id
  }

  predicate IsCandidate(line: Line) {
    line.isCandidate || (line.id.Some? && HasMarker(line.id.value))
  }

  /** One marker is taken off the front of the id; an id that was nothing else disappears. */
  function StripMarker(line: Line): Line {
    var id :=
      if line.id.Some? && HasMarker(line.id.value) then
        (if line.id.value[10..] == "" then None else Some(line.id.value[10..]))
      else line.id;
    Line(id, line.child, line.festivalClass, false)
  }

  function StripAll(lines: seq<Line>): (r: seq<Line>)
    ensures |r| == |lines| && forall i :: 0 <= i < |lines| ==> r[i] == StripMarker(lines[i])
  {
    seq(|lines|, i requires 0 <= i < |lines| => StripMarker(lines[i]))
  }

  // ---------------------------------------------------------------------------
  // One line
  // ---------------------------------------------------------------------------

  predicate Valid(c: ClassConfig, ctx: Context) {
    c.isActive && c.org == ctx.org && c.festival == ctx.festival
  }

  function ClassOf(ctx: Context, id: Id): Option<ClassConfig> {
    if id in ctx.classes then Some(ctx.classes[id]) else None
  }

  predicate IsAvailableClass(ctx: Context, id: Id) {
    ClassOf(ctx, id).Some? && Valid(ClassOf(ctx, id).value, ctx)
  }

  predicate Registered(ctx: Context, child: Id, festivalClass: Id) {
    exists i :: 0 <= i < |ctx.entitlements| &&
      var e := ctx.entitlements[i];
      e.child == child && e.festivalClass == festivalClass && !e.status.Cancelled? && !e.status.Revoked?
  }

  predicate SameSeat(a: Line, b: Line) {
    a.child == b.child && a.festivalClass == b.festivalClass
  }

  predicate Duplicated(ctx: Context, line: Line, index: nat)
    requires index <= |ctx.lines|
  {
    exists j :: 0 <= j < index && SameSeat(ctx.lines[j], line)
  }

  /** Confirmed entitlements of a class. */
  function Placed(entitlements: seq<Entitlement>, festivalClass: Id): nat {
    if entitlements == [] then 0
    else
      (if entitlements[0].festivalClass == festivalClass && entitlements[0].status.Confirmed? then 1 else 0)
      + Placed(entitlements[1..], festivalClass)
  }

  /** Lines of a class among the given ones. */
  function LinesOf(lines: seq<Line>, festivalClass: Id): nat {
    if lines == [] then 0
    else LinesOf(lines[..|lines| - 1], festivalClass)
         + if lines[|lines| - 1].festivalClass == festivalClass then 1 else 0
  }

  predicate Full(ctx: Context, c: ClassConfig, ahead: nat) {
    c.capacity.Some? && (c.capacity.value <= 0 || Placed(ctx.entitlements, c.id) + ahead >= c.capacity.value)
  }

  const WHITESPACE := " \t\n\r"

  function TrimStart(s: string): string {
    if s != "" && s[0] in WHITESPACE then TrimStart(s[1..]) else s
  }

  function TrimEnd(s: string): string {
    if s != "" && s[|s| - 1] in WHITESPACE then TrimEnd(s[..|s| - 1]) else s
  }

  /** The trimmed prerequisite subtype of a class; a blank one is no prerequisite. */
  function Required(ctx: Context, c: ClassConfig): Option<string> {
    if c.subtype !in ctx.subtypes || ctx.subtypes[c.subtype].requiredSubtype.None? then None
    else
      var required := TrimEnd(TrimStart(ctx.subtypes[c.subtype].requiredSubtype.value));
      if required == "" then None else Some(required)
  }

  /** `c` is of the required subtype, division and age group for `target`. */
  predicate Satisfies(c: ClassConfig, target: ClassConfig, required: string) {
    && c.subtype == required && c.division == target.division
    && c.minimumAge == target.minimumAge && c.maximumAge == target.maximumAge
  }

  predicate EntitlementSatisfies(ctx: Context, target: ClassConfig, required: string, child: Id) {
    exists i :: 0 <= i < |ctx.entitlements| &&
      var e := ctx.entitlements[i];
      && e.org == ctx.org && e.festival == ctx.festival && e.child == child && e.status.Confirmed?
      && ClassOf(ctx, e.festivalClass).Some?
      && Satisfies(ClassOf(ctx, e.festivalClass).value, target, required)
  }

  predicate LineSatisfies(ctx: Context, other: Line, target: ClassConfig, required: string, child: Id) {
    && other.child == child
    && IsAvailableClass(ctx, other.festivalClass)
    && Satisfies(ClassOf(ctx, other.festivalClass).value, target, required)
  }

  predicate OtherLineSatisfies(ctx: Context, target: ClassConfig, required: string, child: Id, index: nat) {
    exists j :: 0 <= j < |ctx.lines| && j != index && LineSatisfies(ctx, ctx.lines[j], target, required, child)
  }

  /** Every other line that satisfies the prerequisite, in cart order, up to (not including) line n. */
  function SatisfyingLines(ctx: Context, target: ClassConfig, required: string, child: Id,
                           index: nat, n: nat): seq<Satisfier>
    requires n <= |ctx.lines|
  {
    if n == 0 then []
    else
      var other := ctx.lines[n - 1];
      SatisfyingLines(ctx, target, required, child, index, n - 1)
      + if n - 1 != index && LineSatisfies(ctx, other, target, required, child)
        then [ByLine(other.festivalClass, other.id)] else []
  }

  function Satisfiers(ctx: Context, target: ClassConfig, required: string, child: Id, index: nat): seq<Satisfier> {
    (if EntitlementSatisfies(ctx, target, required, child) then [ByEntitlement] else [])
    + SatisfyingLines(ctx, target, required, child, index, |ctx.lines|)
  }

  predicate PrerequisiteMet(ctx: Context, target: ClassConfig, child: Id, index: nat) {
    var required := Required(ctx, target);
    required.Some? ==>
      || EntitlementSatisfies(ctx, target, required.value, child)
      || OtherLineSatisfies(ctx, target, required.value, child, index)
  }

  function ReasonFor(ctx: Context, line: Line, index: nat): Reason
    requires index <= |ctx.lines|
  {
    if !ctx.isOpen then RegistrationClosed
    else if !IsAvailableClass(ctx, line.festivalClass) then ClassNotAvailable
    else
      var target := ctx.classes[line.festivalClass];
      if Registered(ctx, line.child, line.festivalClass) || Duplicated(ctx, line, index) then AlreadyRegistered
      else if !PrerequisiteMet(ctx, target, line.child, index) then MissingPrerequisite
      else if Full(ctx, target, LinesOf(ctx.lines[..index], target.id)) then SoldOut
      else Available
  }

  function Evaluate(ctx: Context, line: Line, index: nat): Verdict
    requires index <= |ctx.lines|
  {
    var reason := ReasonFor(ctx, line, index);
    var satisfied :=
      if reason.Available? && Required(ctx, ctx.classes[line.festivalClass]).Some? then
        Satisfiers(ctx, ctx.classes[line.festivalClass],
                   Required(ctx, ctx.classes[line.festivalClass]).value, line.child, index)
      else [];
    Verdict(line.child, line.festivalClass, reason, satisfied)
  }

  /** The body of the check, with the loop that lists what satisfied the prerequisite. */
  method EvaluateItemEligibility(ctx: Context, line: Line, index: nat) returns (v: Verdict)
    requires index <= |ctx.lines|
    ensures v == Evaluate(ctx, line, index)
    ensures v.reason.Available? && Required(ctx, ctx.classes[line.festivalClass]).Some? ==> v.satisfied != []
  {
    hide Registered, Duplicated, EntitlementSatisfies, Full, Required, LineSatisfies, Valid;
    if !ctx.isOpen {
      return Verdict(line.child, line.festivalClass, RegistrationClosed, []);
    }
    if !IsAvailableClass(ctx, line.festivalClass) {
      return Verdict(line.child, line.festivalClass, ClassNotAvailable, []);
    }
    var target := ctx.classes[line.festivalClass];
    if Registered(ctx, line.child, line.festivalClass) || Duplicated(ctx, line, index) {
      return Verdict(line.child, line.festivalClass, AlreadyRegistered, []);
    }
    var satisfied := [];
    var required := Required(ctx, target);
    if required.Some? {
      var byEntitlement := EntitlementSatisfies(ctx, target, required.value, line.child);
      var byLine := OtherLineSatisfies(ctx, target, required.value, line.child, index);
      if !byEntitlement && !byLine {
        return Verdict(line.child, line.festivalClass, MissingPrerequisite, []);
      }
      if byEntitlement {
        satisfied := [ByEntitlement];
      }
      ghost var before := satisfied;
      if byLine {
        var j := 0;
        while j < |ctx.lines|
          invariant 0 <= j <= |ctx.lines|
          invariant satisfied == before + SatisfyingLines(ctx, target, required.value, line.child, index, j)
        {
          var other := ctx.lines[j];
          if j != index && LineSatisfies(ctx, other, target, required.value, line.child) {
            satisfied := satisfied + [ByLine(other.festivalClass, other.id)];
          }
          j := j + 1;
        }
      }
      SatisfyingLinesExist(ctx, target, required.value, line.child, index, |ctx.lines|);
      assert satisfied == Satisfiers(ctx, target, required.value, line.child, index);
    }
    if Full(ctx, target, LinesOf(ctx.lines[..index], target.id)) {
      return Verdict(line.child, line.festivalClass, SoldOut, []);
    }
    return Verdict(line.child, line.festivalClass, Available, satisfied);
  }

  lemma {:induction false} SatisfyingLinesExist(ctx: Context, target: ClassConfig, required: string, child: Id,
                                                index: nat, n: nat)
    requires n <= |ctx.lines|
    ensures SatisfyingLines(ctx, target, required, child, index, n) != []
       <==> exists j :: 0 <= j < n && j != index && LineSatisfies(ctx, ctx.lines[j], target, required, child)
    decreases n
  {
    hide LineSatisfies;
    if n > 0 {
      SatisfyingLinesExist(ctx, target, required, child, index, n - 1);
    }
  }

  // ---------------------------------------------------------------------------
  // Cart mode
  // ---------------------------------------------------------------------------

  function EvaluateAll(ctx: Context): (r: seq<Verdict>)
    ensures |r| == |ctx.lines| && forall i :: 0 <= i < |r| ==> r[i] == Evaluate(ctx, ctx.lines[i], i)
  {
    seq(|ctx.lines|, i requires 0 <= i < |ctx.lines| => Evaluate(ctx, ctx.lines[i], i))
  }

  function CartContext(ctx: Context): Context {
    ctx.(lines := StripAll(ctx.lines))
  }

  function CartResults(ctx: Context): seq<Verdict> {
    EvaluateAll(CartContext(ctx))
  }

  predicate CartEligible(ctx: Context) {
    ctx.isOpen && forall i :: 0 <= i < |CartResults(ctx)| ==> CartResults(ctx)[i].IsEligible()
  }

  // ---------------------------------------------------------------------------
  // What the cart verdict means
  // ---------------------------------------------------------------------------

  /** A seat: one child in one class. */
  datatype Seat = Seat(child: Id, festivalClass: Id)

  function SeatOf(line: Line): Seat {
    Seat(line.child, line.festivalClass)
  }

  function Seats(lines: seq<Line>): (r: seq<Seat>)
    ensures |r| == |lines| && forall i :: 0 <= i < |lines| ==> r[i] == SeatOf(lines[i])
  {
    seq(|lines|, i requires 0 <= i < |lines| => SeatOf(lines[i]))
  }

  /** The prerequisite of a seat is met by an entitlement or by another seat of the cart. */
  ghost predicate SeatMet(ctx: Context, seats: set<Seat>, p: Seat)
    requires p.festivalClass in ctx.classes
  {
    var target := ctx.classes[p.festivalClass];
    var required := Required(ctx, target);
    required.Some? ==>
      || EntitlementSatisfies(ctx, target, required.value, p.child)
      || exists q :: q in seats && q != p && LineSatisfies(ctx, Line(None, q.child, q.festivalClass, false),
                                                           target, required.value, p.child)
  }

  ghost function SeatsOfClass(seats: set<Seat>, c: Id): set<Seat> {
    set q | q in seats && q.festivalClass == c
  }

  ghost predicate DistinctSeats(lines: seq<Line>) {
    forall i, j :: 0 <= i < j < |lines| ==> !SameSeat(lines[i], lines[j])
  }

  ghost function SeatSet(lines: seq<Line>): set<Seat> {
    set i | 0 <= i < |lines| :: SeatOf(lines[i])
  }

  /** The classes the lines name are filed under their own id. */
  ghost predicate WellKeyed(ctx: Context) {
    forall i :: 0 <= i < |ctx.lines| && ctx.lines[i].festivalClass in ctx.classes ==>
      ctx.classes[ctx.lines[i].festivalClass].id == ctx.lines[i].festivalClass
  }

  // ---------------------------------------------------------------------------
  // Counting lines and seats
  // ---------------------------------------------------------------------------

  lemma {:induction false} LinesOfGrows(lines: seq<Line>, i: nat, j: nat, c: Id)
    requires i < j <= |lines|
    ensures LinesOf(lines[..i], c) + (if lines[i].festivalClass == c then 1 else 0) <= LinesOf(lines[..j], c)
    decreases j
  {
    assert lines[..j][..j - 1] == lines[..j - 1];
    if i < j - 1 {
      LinesOfGrows(lines, i, j - 1, c);
    }
  }

  /** The last line of a class has all the others of that class ahead of it. */
  lemma {:induction false} LastOfClass(lines: seq<Line>, n: nat, c: Id) returns (i: nat)
    requires n <= |lines| && LinesOf(lines[..n], c) > 0
    ensures i < n && lines[i].festivalClass == c && LinesOf(lines[..i], c) + 1 == LinesOf(lines[..n], c)
    decreases n
  {
    assert lines[..n][..n - 1] == lines[..n - 1];
    if lines[n - 1].festivalClass == c {
      i := n - 1;
    } else {
      i := LastOfClass(lines, n - 1, c);
    }
  }

  lemma SeatSetAppend(lines: seq<Line>, n: nat)
    requires n < |lines|
    ensures SeatSet(lines[..n + 1]) == SeatSet(lines[..n]) + {SeatOf(lines[n])}
  {
    var a, b := SeatSet(lines[..n + 1]), SeatSet(lines[..n]) + {SeatOf(lines[n])};
    forall p | p in b ensures p in a {
      if p == SeatOf(lines[n]) {
        assert lines[..n + 1][n] == lines[n];
      } else {
        var i :| 0 <= i < n && SeatOf(lines[..n][i]) == p;
        assert lines[..n + 1][i] == lines[..n][i];
      }
    }
    forall p | p in a ensures p in b {
      var i :| 0 <= i < n + 1 && SeatOf(lines[..n + 1][i]) == p;
      if i < n {
        assert lines[..n][i] == lines[..n + 1][i];
      }
    }
  }

  /** Lines with distinct seats are counted by their seats. */
  lemma {:induction false} LinesAreSeats(lines: seq<Line>, n: nat, c: Id)
    requires DistinctSeats(lines) && n <= |lines|
    ensures LinesOf(lines[..n], c) == |SeatsOfClass(SeatSet(lines[..n]), c)|
    decreases n
  {
    if n > 0 {
      var m := n - 1;
      assert lines[..n][..m] == lines[..m];
      LinesAreSeats(lines, m, c);
      SeatSetAppend(lines, m);
      NewSeat(lines, m);
      var p := SeatOf(lines[m]);
      assert SeatsOfClass(SeatSet(lines[..n]), c)
          == SeatsOfClass(SeatSet(lines[..m]), c) + if p.festivalClass == c then {p} else {};
    }
  }

  lemma NewSeat(lines: seq<Line>, n: nat)
    requires DistinctSeats(lines) && n < |lines|
    ensures SeatOf(lines[n]) !in SeatSet(lines[..n])
  {
  }

  /** Seats are distinct exactly when there are as many as lines. */
  lemma {:induction false} DistinctWhenCounted(lines: seq<Line>, n: nat)
    requires n <= |lines|
    ensures |SeatSet(lines[..n])| <= n
    ensures DistinctSeats(lines[..n]) <==> |SeatSet(lines[..n])| == n
    decreases n
  {
    if n > 0 {
      var m := n - 1;
      DistinctWhenCounted(lines, m);
      SeatSetAppend(lines, m);
      DistinctAppend(lines, m);
    }
  }

  lemma DistinctAppend(lines: seq<Line>, n: nat)
    requires n < |lines|
    ensures DistinctSeats(lines[..n + 1])
       <==> DistinctSeats(lines[..n]) && SeatOf(lines[n]) !in SeatSet(lines[..n])
  {
    var a, b := lines[..n + 1], lines[..n];
    if DistinctSeats(a) {
      assert forall i :: 0 <= i < n ==> b[i] == a[i];
      assert a[n] == lines[n];
    }
    if DistinctSeats(b) && SeatOf(lines[n]) !in SeatSet(b) {
      forall i, j | 0 <= i < j < |a| ensures !SameSeat(a[i], a[j]) {
        assert a[i] == b[i];
        if j < n {
          assert a[j] == b[j];
        } else {
          assert SeatOf(b[i]) in SeatSet(b);
        }
      }
    }
  }

  // ---------------------------------------------------------------------------
  // The verdict of a line depends on seats only
  // ---------------------------------------------------------------------------

  ghost predicate SameSeats(a: seq<Line>, b: seq<Line>) {
    |a| == |b| && forall i :: 0 <= i < |a| ==> SameSeat(a[i], b[i])
  }

  lemma {:induction false} LinesOfSeats(a: seq<Line>, b: seq<Line>, c: Id)
    requires SameSeats(a, b)
    ensures LinesOf(a, c) == LinesOf(b, c)
    decreases |a|
  {
    if a != [] {
      LinesOfSeats(a[..|a| - 1], b[..|b| - 1], c);
    }
  }

  lemma PrerequisiteOfSeats(a: Context, b: Context, target: ClassConfig, child: Id, index: nat)
    requires b == a.(lines := b.lines) && SameSeats(a.lines, b.lines)
    ensures PrerequisiteMet(a, target, child, index) == PrerequisiteMet(b, target, child, index)
  {
    var required := Required(a, target);
    if required.Some? {
      assert EntitlementSatisfies(a, target, required.value, child)
          == EntitlementSatisfies(b, target, required.value, child);
      forall j | 0 <= j < |a.lines|
        ensures LineSatisfies(a, a.lines[j], target, required.value, child)
             == LineSatisfies(b, b.lines[j], target, required.value, child)
      {
        assert SameSeat(a.lines[j], b.lines[j]);
      }
      hide LineSatisfies, EntitlementSatisfies;
    }
  }

  lemma DuplicatedOfSeats(a: Context, b: Context, x: Line, y: Line, index: nat)
    requires b == a.(lines := b.lines) && SameSeats(a.lines, b.lines) && index <= |a.lines| && SameSeat(x, y)
    ensures Duplicated(a, x, index) == Duplicated(b, y, index)
  {
    forall j | 0 <= j < index ensures SameSeat(a.lines[j], x) == SameSeat(b.lines[j], y) {
      assert SameSeat(a.lines[j], b.lines[j]);
    }
  }

  lemma ReasonOfSeats(a: Context, b: Context, x: Line, y: Line, index: nat)
    requires b == a.(lines := b.lines) && SameSeats(a.lines, b.lines) && index <= |a.lines| && SameSeat(x, y)
    ensures ReasonFor(a, x, index) == ReasonFor(b, y, index)
  {
    LinesOfSeats(a.lines[..index], b.lines[..index],
                 if x.festivalClass in a.classes then a.classes[x.festivalClass].id else "");
    DuplicatedOfSeats(a, b, x, y, index);
    hide PrerequisiteMet, Duplicated, SameSeats;
    if x.festivalClass in a.classes {
      PrerequisiteOfSeats(a, b, a.classes[x.festivalClass], x.child, index);
    }
  }

  lemma StripKeepsSeats(lines: seq<Line>)
    ensures SameSeats(StripAll(lines), lines)
  {
  }

  // ---------------------------------------------------------------------------
  // Characterization of the cart verdict
  // ---------------------------------------------------------------------------

  /** Every line is available at its place in the cart. */
  ghost predicate AllAvailable(ctx: Context) {
    ctx.isOpen && forall i :: 0 <= i < |ctx.lines| ==> ReasonFor(ctx, ctx.lines[i], i).Available?
  }

  lemma CartIsAllAvailable(ctx: Context)
    ensures CartEligible(ctx) <==> AllAvailable(ctx)
  {
    hide ReasonFor, StripMarker;
    StripKeepsSeats(ctx.lines);
    var cart := CartContext(ctx);
    forall i | 0 <= i < |ctx.lines|
      ensures CartResults(ctx)[i].reason == ReasonFor(ctx, ctx.lines[i], i)
    {
      ReasonOfSeats(ctx, cart, ctx.lines[i], cart.lines[i], i);
    }
  }

  lemma PrerequisiteIsSeatMet(ctx: Context, i: nat)
    requires DistinctSeats(ctx.lines) && i < |ctx.lines| && ctx.lines[i].festivalClass in ctx.classes
    ensures PrerequisiteMet(ctx, ctx.classes[ctx.lines[i].festivalClass], ctx.lines[i].child, i)
       <==> SeatMet(ctx, SeatSet(ctx.lines), SeatOf(ctx.lines[i]))
  {
    var x := ctx.lines[i];
    var target := ctx.classes[x.festivalClass];
    var required := Required(ctx, target);
    hide Required, EntitlementSatisfies;
    if required.Some? {
      if OtherLineSatisfies(ctx, target, required.value, x.child, i) {
        var j :| 0 <= j < |ctx.lines| && j != i && LineSatisfies(ctx, ctx.lines[j], target, required.value, x.child);
        var q := SeatOf(ctx.lines[j]);
        assert q in SeatSet(ctx.lines) && q != SeatOf(x);
        assert LineSatisfies(ctx, Line(None, q.child, q.festivalClass, false), target, required.value, x.child);
      }
      forall q | q in SeatSet(ctx.lines) && q != SeatOf(x)
                 && LineSatisfies(ctx, Line(None, q.child, q.festivalClass, false), target, required.value, x.child)
        ensures OtherLineSatisfies(ctx, target, required.value, x.child, i)
      {
        var j :| 0 <= j < |ctx.lines| && SeatOf(ctx.lines[j]) == q;
        assert j != i && LineSatisfies(ctx, ctx.lines[j], target, required.value, x.child);
      }
    }
  }

  /** No class is asked for more often than it has places left. */
  ghost predicate WithinCapacity(ctx: Context) {
    forall i :: 0 <= i < |ctx.lines| && ctx.lines[i].festivalClass in ctx.classes ==>
      var c := ctx.classes[ctx.lines[i].festivalClass];
      c.capacity.Some? ==> Placed(ctx.entitlements, c.id) + LinesOf(ctx.lines, c.id) <= c.capacity.value
  }

  /** No line's class is full with the lines ahead of it. */
  ghost predicate RoomAhead(ctx: Context) {
    forall i :: 0 <= i < |ctx.lines| && ctx.lines[i].festivalClass in ctx.classes ==>
      var c := ctx.classes[ctx.lines[i].festivalClass]; !Full(ctx, c, LinesOf(ctx.lines[..i], c.id))
  }

  /** Checking each line against the lines ahead of it is checking the whole cart. */
  lemma CapacityIsCounted(ctx: Context)
    requires WellKeyed(ctx)
    ensures WithinCapacity(ctx) <==> RoomAhead(ctx)
  {
    assert ctx.lines[..|ctx.lines|] == ctx.lines;
    hide Placed, LinesOf;
    forall i | 0 <= i < |ctx.lines| && ctx.lines[i].festivalClass in ctx.classes
      ensures
        var c := ctx.classes[ctx.lines[i].festivalClass];
        LinesOf(ctx.lines[..i], c.id) + 1 <= LinesOf(ctx.lines, c.id)
    {
      LinesOfGrows(ctx.lines, i, |ctx.lines|, ctx.classes[ctx.lines[i].festivalClass].id);
    }
    if RoomAhead(ctx) {
      forall i | 0 <= i < |ctx.lines| && ctx.lines[i].festivalClass in ctx.classes
        ensures
          var c := ctx.classes[ctx.lines[i].festivalClass];
          c.capacity.Some? ==> Placed(ctx.entitlements, c.id) + LinesOf(ctx.lines, c.id) <= c.capacity.value
      {
        var c := ctx.classes[ctx.lines[i].festivalClass];
        var k := LastOfClass(ctx.lines, |ctx.lines|, c.id);
        assert ctx.lines[k].festivalClass == c.id && !Full(ctx, c, LinesOf(ctx.lines[..k], c.id));
      }
    }
  }

  lemma DuplicatesAreIndexed(ctx: Context)
    ensures DistinctSeats(ctx.lines) <==> forall i :: 0 <= i < |ctx.lines| ==> !Duplicated(ctx, ctx.lines[i], i)
  {
    if forall i :: 0 <= i < |ctx.lines| ==> !Duplicated(ctx, ctx.lines[i], i) {
      forall i, j | 0 <= i < j < |ctx.lines| ensures !SameSeat(ctx.lines[i], ctx.lines[j]) {
        assert !Duplicated(ctx, ctx.lines[j], j);
      }
    }
  }

  /** The check of one line, with its positional parts set apart. */
  lemma AvailableParts(ctx: Context, i: nat)
    requires i < |ctx.lines|
    ensures
      var x := ctx.lines[i];
      ReasonFor(ctx, x, i).Available? <==>
        && ctx.isOpen && IsAvailableClass(ctx, x.festivalClass)
        && !Registered(ctx, x.child, x.festivalClass) && !Duplicated(ctx, x, i)
        && PrerequisiteMet(ctx, ctx.classes[x.festivalClass], x.child, i)
        && !Full(ctx, ctx.classes[x.festivalClass], LinesOf(ctx.lines[..i], ctx.classes[x.festivalClass].id))
  {
    hide Registered, Duplicated, PrerequisiteMet, Full, LinesOf, Valid;
  }

  /** What one seat must satisfy, apart from capacity. */
  ghost predicate SeatOk(ctx: Context, seats: set<Seat>, p: Seat) {
    && IsAvailableClass(ctx, p.festivalClass)
    && !Registered(ctx, p.child, p.festivalClass)
    && SeatMet(ctx, seats, p)
  }

  ghost predicate SeatFits(ctx: Context, seats: set<Seat>, p: Seat)
    requires p.festivalClass in ctx.classes
  {
    var c := ctx.classes[p.festivalClass];
    c.capacity.Some? ==> Placed(ctx.entitlements, c.id) + |SeatsOfClass(seats, c.id)| <= c.capacity.value
  }

  /** Whatever the class map files under whatever key: apart from the room ahead of each line, the check of a
      cart is one of its set of seats. */
  lemma AvailableByPosition(ctx: Context)
    requires DistinctSeats(ctx.lines)
    ensures AllAvailable(ctx) <==>
              && ctx.isOpen
              && (forall i :: 0 <= i < |ctx.lines| ==> SeatOk(ctx, SeatSet(ctx.lines), SeatOf(ctx.lines[i])))
              && RoomAhead(ctx)
  {
    DuplicatesAreIndexed(ctx);
    hide DistinctSeats, Registered, Duplicated, PrerequisiteMet, SeatMet, Full, LinesOf, Valid;
    hide ReasonFor, SeatSet;
    forall i | 0 <= i < |ctx.lines|
      ensures ReasonFor(ctx, ctx.lines[i], i).Available? <==>
        && ctx.isOpen && SeatOk(ctx, SeatSet(ctx.lines), SeatOf(ctx.lines[i]))
        && !Full(ctx, ctx.classes[ctx.lines[i].festivalClass],
                 LinesOf(ctx.lines[..i], ctx.classes[ctx.lines[i].festivalClass].id))
    {
      AvailableParts(ctx, i);
      if ctx.lines[i].festivalClass in ctx.classes {
        PrerequisiteIsSeatMet(ctx, i);
      }
    }
  }

  lemma AvailableLineByLine(ctx: Context)
    requires WellKeyed(ctx) && DistinctSeats(ctx.lines)
    ensures AllAvailable(ctx) <==>
              && ctx.isOpen
              && (forall i :: 0 <= i < |ctx.lines| ==> SeatOk(ctx, SeatSet(ctx.lines), SeatOf(ctx.lines[i])))
              && WithinCapacity(ctx)
  {
    AvailableByPosition(ctx);
    CapacityIsCounted(ctx);
    hide DistinctSeats, WellKeyed, WithinCapacity, SeatOk, SeatSet, AllAvailable;
  }

  lemma CapacityOfSeats(ctx: Context)
    requires WellKeyed(ctx) && DistinctSeats(ctx.lines)
    requires forall i :: 0 <= i < |ctx.lines| ==> ctx.lines[i].festivalClass in ctx.classes
    ensures WithinCapacity(ctx)
       <==> forall i :: 0 <= i < |ctx.lines| ==> SeatFits(ctx, SeatSet(ctx.lines), SeatOf(ctx.lines[i]))
  {
    assert ctx.lines[..|ctx.lines|] == ctx.lines;
    forall c ensures LinesOf(ctx.lines, c) == |SeatsOfClass(SeatSet(ctx.lines), c)| {
      LinesAreSeats(ctx.lines, |ctx.lines|, c);
    }
    hide LinesOf, SeatsOfClass, SeatSet, Placed, DistinctSeats;
  }

  ghost predicate AdmissibleSeats(ctx: Context, seats: set<Seat>) {
    ctx.isOpen && forall p :: p in seats ==> SeatOk(ctx, seats, p) && SeatFits(ctx, seats, p)
  }

  /** Main result: a cart is eligible exactly when registration is open, no seat is asked for twice, and
      every seat is in an available class, not registered yet, has its prerequisite met by an
      entitlement or another seat, and fits: confirmed plus requested places do not exceed the capacity of
      its class.  Nothing in this depends on the order of the lines or on candidate markers. */
  lemma CartVerdict(ctx: Context)
    requires WellKeyed(ctx)
    ensures CartEligible(ctx)
       <==> DistinctSeats(ctx.lines) && AdmissibleSeats(ctx, SeatSet(ctx.lines))
  {
    CartIsAllAvailable(ctx);
    hide CartEligible;
    if DistinctSeats(ctx.lines) {
      AvailableLineByLine(ctx);
      hide AllAvailable, WithinCapacity, SeatFits, WellKeyed, Registered, SeatMet, Valid;
      if forall i :: 0 <= i < |ctx.lines| ==> ctx.lines[i].festivalClass in ctx.classes {
        CapacityOfSeats(ctx);
      }
      SeatsEverywhere(ctx.lines);
      hide DistinctSeats, SeatSet;
    } else {
      DuplicateNotAvailable(ctx);
    }
  }

  /** The verdict for any class map, whatever it files under whatever key: only the room ahead of each line then
      depends on the order of the lines. */
  lemma CartVerdictByPosition(ctx: Context)
    ensures CartEligible(ctx) <==>
              && DistinctSeats(ctx.lines) && ctx.isOpen
              && (forall i :: 0 <= i < |ctx.lines| ==> SeatOk(ctx, SeatSet(ctx.lines), SeatOf(ctx.lines[i])))
              && RoomAhead(ctx)
  {
    CartIsAllAvailable(ctx);
    hide CartEligible, AllAvailable, RoomAhead, SeatOk, SeatSet;
    if DistinctSeats(ctx.lines) {
      AvailableByPosition(ctx);
    } else {
      DuplicateNotAvailable(ctx);
    }
  }

  lemma SeatsEverywhere(lines: seq<Line>)
    ensures forall i :: 0 <= i < |lines| ==> SeatOf(lines[i]) in SeatSet(lines)
    ensures forall p :: p in SeatSet(lines) ==> exists i :: 0 <= i < |lines| && SeatOf(lines[i]) == p
  {
  }

  lemma DuplicateNotAvailable(ctx: Context)
    requires !DistinctSeats(ctx.lines)
    ensures !AllAvailable(ctx)
  {
    DuplicatesAreIndexed(ctx);
    var i :| 0 <= i < |ctx.lines| && Duplicated(ctx, ctx.lines[i], i);
    AvailableParts(ctx, i);
  }

  /** A map made from a list of classes, as the evaluation and its callers make it, files every class under its
      own id, whatever the list. */
  lemma NormalizedIsWellKeyed(ctx: Context, classes: seq<ClassConfig>)
    requires ctx.classes == ById(classes)
    ensures WellKeyed(ctx)
  {
    KeysAreIds(classes);
  }

  lemma {:induction false} KeysAreIds(classes: seq<ClassConfig>)
    ensures forall k :: k in ById(classes) ==> ById(classes)[k].id == k
    decreases |classes|
  {
    if classes != [] {
      KeysAreIds(classes[..|classes| - 1]);
    }
  }

  /** Permuting the cart, or changing ids and candidate markers, never changes the verdict. */
  lemma VerdictIsOfTheMultiset(a: Context, b: Context)
    requires WellKeyed(a) && b == a.(lines := b.lines)
    requires multiset(Seats(a.lines)) == multiset(Seats(b.lines))
    ensures CartEligible(a) == CartEligible(b)
  {
    SeatSetOfMultiset(a.lines);
    SeatSetOfMultiset(b.lines);
    WellKeyedElsewhere(a, b);
    CartVerdict(a);
    CartVerdict(b);
    SameSize(Seats(a.lines), Seats(b.lines));
    assert SeatSet(a.lines) == SeatSet(b.lines);
    assert a.lines[..|a.lines|] == a.lines && b.lines[..|b.lines|] == b.lines;
    DistinctWhenCounted(a.lines, |a.lines|);
    DistinctWhenCounted(b.lines, |b.lines|);
    hide CartEligible, DistinctSeats;
    AdmissibleElsewhere(a, b, SeatSet(a.lines));
  }

  lemma WellKeyedElsewhere(a: Context, b: Context)
    requires WellKeyed(a) && b == a.(lines := b.lines)
    requires forall p :: p in SeatSet(b.lines) ==> p in SeatSet(a.lines)
    ensures WellKeyed(b)
  {
    forall i | 0 <= i < |b.lines| && b.lines[i].festivalClass in b.classes
      ensures b.classes[b.lines[i].festivalClass].id == b.lines[i].festivalClass
    {
      assert SeatOf(b.lines[i]) in SeatSet(b.lines);
      var j :| 0 <= j < |a.lines| && SeatOf(a.lines[j]) == SeatOf(b.lines[i]);
    }
  }

  lemma SeatSetOfMultiset(lines: seq<Line>)
    ensures forall p :: p in SeatSet(lines) <==> p in multiset(Seats(lines))
  {
    forall p ensures p in SeatSet(lines) <==> p in multiset(Seats(lines)) {
      if p in SeatSet(lines) {
        var i :| 0 <= i < |lines| && SeatOf(lines[i]) == p;
        assert Seats(lines)[i] == p;
      }
      if p in Seats(lines) {
        var i :| 0 <= i < |Seats(lines)| && Seats(lines)[i] == p;
      }
    }
  }

  lemma SameSize(a: seq<Seat>, b: seq<Seat>)
    requires multiset(a) == multiset(b)
    ensures |a| == |b|
  {
    assert |multiset(a)| == |a| && |multiset(b)| == |b|;
  }

  lemma AdmissibleElsewhere(a: Context, b: Context, seats: set<Seat>)
    requires b == a.(lines := b.lines)
    ensures AdmissibleSeats(a, seats) == AdmissibleSeats(b, seats)
  {
    forall p ensures SeatOk(a, seats, p) == SeatOk(b, seats, p) {
      SeatOkElsewhere(a, b, seats, p);
    }
  }

  lemma SeatOkElsewhere(a: Context, b: Context, seats: set<Seat>, p: Seat)
    requires b == a.(lines := b.lines)
    ensures SeatOk(a, seats, p) == SeatOk(b, seats, p)
  {
  }
}
