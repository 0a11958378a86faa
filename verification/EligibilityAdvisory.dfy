/** Advisory mode: lines marked as candidates are each judged against the real cart lines, alone. */
module EligibilityAdvisory {
  import opened Eligibility
  import opened Wrappers

  function NonCandidates(lines: seq<Line>): seq<Line> {
    if lines == [] then []
    else NonCandidates(lines[..|lines| - 1])
         + if IsCandidate(lines[|lines| - 1]) then [] else [lines[|lines| - 1]]
  }

  predicate AnyCandidate(lines: seq<Line>) {
    exists i :: 0 <= i < |lines| && IsCandidate(lines[i])
  }

  /** A candidate is judged at the end of the cart lines; a cart line at its own place among them. */
  function AdvisoryVerdict(ctx: Context, i: nat): Verdict
    requires i < |ctx.lines|
  {
    var cart := NonCandidates(ctx.lines);
    var line := ctx.lines[i];
    if IsCandidate(line) then Evaluate(ctx.(lines := cart + [line]), line, |cart|)
    else
      RankIsIndex(ctx.lines, i);
      Evaluate(ctx.(lines := cart), line, |NonCandidates(ctx.lines[..i])|)
  }

  function AdvisoryResults(ctx: Context): (r: seq<Verdict>)
    ensures |r| == |ctx.lines|
  {
    if !AnyCandidate(ctx.lines) then EvaluateAll(ctx)
    else seq(|ctx.lines|, i requires 0 <= i < |ctx.lines| => AdvisoryVerdict(ctx, i))
  }

  /** The overall answer is about the cart lines; only a list of nothing but candidates is about those. */
  predicate AdvisoryEligible(ctx: Context) {
    && ctx.isOpen
    && forall i :: 0 <= i < |ctx.lines| && (NonCandidates(ctx.lines) != [] ==> !IsCandidate(ctx.lines[i])) ==>
         AdvisoryResults(ctx)[i].IsEligible()
  }

  // ---------------------------------------------------------------------------
  // Cart lines among all lines
  // ---------------------------------------------------------------------------

  lemma {:induction false} RankIsIndex(lines: seq<Line>, i: nat)
    requires i < |lines| && !IsCandidate(lines[i])
    ensures |NonCandidates(lines[..i])| < |NonCandidates(lines)|
    ensures NonCandidates(lines)[|NonCandidates(lines[..i])|] == lines[i]
    decreases |lines|
  {
    var n := |lines| - 1;
    if i < n {
      RankIsIndex(lines[..n], i);
      assert lines[..n][..i] == lines[..i];
    }
  }

  lemma {:induction false} EveryRankIsALine(lines: seq<Line>, k: nat) returns (i: nat)
    requires k < |NonCandidates(lines)|
    ensures i < |lines| && !IsCandidate(lines[i]) && |NonCandidates(lines[..i])| == k
    decreases |lines|
  {
    var n := |lines| - 1;
    if k < |NonCandidates(lines[..n])| {
      i := EveryRankIsALine(lines[..n], k);
      assert lines[..n][..i] == lines[..i];
    } else {
      i := n;
    }
  }

  lemma {:induction false} NoCandidatesIsAll(lines: seq<Line>)
    requires !AnyCandidate(lines)
    ensures NonCandidates(lines) == lines
    decreases |lines|
  {
    if lines != [] {
      assert forall i :: 0 <= i < |lines| - 1 ==> lines[..|lines| - 1][i] == lines[i];
      NoCandidatesIsAll(lines[..|lines| - 1]);
    }
  }

  // ---------------------------------------------------------------------------
  // Non-interference
  // ---------------------------------------------------------------------------

  /** Cart lines are judged as if no candidate were there: the results of the cart lines, in order, are
      those of evaluating the cart lines alone. */
  lemma CartLinesIgnoreCandidates(ctx: Context, i: nat)
    requires i < |ctx.lines| && !IsCandidate(ctx.lines[i])
    ensures |NonCandidates(ctx.lines[..i])| < |NonCandidates(ctx.lines)|
    ensures AdvisoryResults(ctx)[i]
         == EvaluateAll(ctx.(lines := NonCandidates(ctx.lines)))[|NonCandidates(ctx.lines[..i])|]
  {
    hide Evaluate;
    RankIsIndex(ctx.lines, i);
    if !AnyCandidate(ctx.lines) {
      NoCandidatesIsAll(ctx.lines);
      assert forall j :: 0 <= j < i ==> ctx.lines[..i][j] == ctx.lines[j];
      NoCandidatesIsAll(ctx.lines[..i]);
    }
  }

  /** A candidate is judged by the cart lines and itself alone: two requests with the same cart lines give
      it the same result, whatever other candidates they hold. */
  lemma CandidatesIgnoreEachOther(a: Context, b: Context, i: nat, j: nat)
    requires b == a.(lines := b.lines) && NonCandidates(a.lines) == NonCandidates(b.lines)
    requires i < |a.lines| && j < |b.lines| && a.lines[i] == b.lines[j] && IsCandidate(a.lines[i])
    ensures AdvisoryResults(a)[i] == AdvisoryResults(b)[j]
  {
    hide Evaluate;
    var cart := NonCandidates(a.lines);
    assert a.(lines := cart + [a.lines[i]]) == b.(lines := cart + [b.lines[j]]);
  }

  lemma PrerequisiteOfNext(cart: Context, all: Context, line: Line, target: ClassConfig)
    requires all == cart.(lines := cart.lines + [line])
    ensures PrerequisiteMet(all, target, line.child, |cart.lines|)
         == PrerequisiteMet(cart, target, line.child, |cart.lines|)
  {
    var n, required := |cart.lines|, Required(cart, target);
    if required.Some? {
      assert EntitlementSatisfies(all, target, required.value, line.child)
          == EntitlementSatisfies(cart, target, required.value, line.child);
      forall j | 0 <= j < n
        ensures LineSatisfies(all, all.lines[j], target, required.value, line.child)
             == LineSatisfies(cart, cart.lines[j], target, required.value, line.child)
      {
      }
      hide LineSatisfies, EntitlementSatisfies, Required;
    }
  }

  lemma ReasonOfNext(cart: Context, all: Context, line: Line)
    requires all == cart.(lines := cart.lines + [line])
    ensures ReasonFor(all, line, |cart.lines|) == ReasonFor(cart, line, |cart.lines|)
  {
    var n := |cart.lines|;
    assert all.lines[..n] == cart.lines == cart.lines[..n];
    assert Duplicated(all, line, n) == Duplicated(cart, line, n) by {
      assert forall j :: 0 <= j < n ==> all.lines[j] == cart.lines[j];
    }
    if line.festivalClass in cart.classes {
      PrerequisiteOfNext(cart, all, line, cart.classes[line.festivalClass]);
    }
    hide Duplicated, PrerequisiteMet, LinesOf, Placed;
  }

  /** A candidate is given the reason it would get as the next line of the cart. */
  lemma CandidateIsNextLine(ctx: Context, i: nat)
    requires i < |ctx.lines| && IsCandidate(ctx.lines[i])
    ensures
      var cart := ctx.(lines := NonCandidates(ctx.lines));
      && AdvisoryResults(ctx)[i].reason == ReasonFor(cart, ctx.lines[i], |cart.lines|)
      && AdvisoryResults(ctx)[i].child == ctx.lines[i].child
      && AdvisoryResults(ctx)[i].festivalClass == ctx.lines[i].festivalClass
  {
    var cart := ctx.(lines := NonCandidates(ctx.lines));
    ReasonOfNext(cart, cart.(lines := cart.lines + [ctx.lines[i]]), ctx.lines[i]);
    hide ReasonFor, IsCandidate;
  }

  // ---------------------------------------------------------------------------
  // Agreement with checkout
  // ---------------------------------------------------------------------------

  lemma AdvisoryCartIsAvailable(ctx: Context)
    requires NonCandidates(ctx.lines) != []
    ensures AdvisoryEligible(ctx) <==> AllAvailable(ctx.(lines := NonCandidates(ctx.lines)))
  {
    hide ReasonFor, AdvisoryResults, IsCandidate;
    var cart := ctx.(lines := NonCandidates(ctx.lines));
    if AdvisoryEligible(ctx) {
      forall k | 0 <= k < |cart.lines| ensures ReasonFor(cart, cart.lines[k], k).Available? {
        var i := EveryRankIsALine(ctx.lines, k);
        CartLinesIgnoreCandidates(ctx, i);
        assert AdvisoryResults(ctx)[i].IsEligible();
      }
    }
    if AllAvailable(cart) {
      forall i | 0 <= i < |ctx.lines| && !IsCandidate(ctx.lines[i]) ensures AdvisoryResults(ctx)[i].IsEligible() {
        CartLinesIgnoreCandidates(ctx, i);
      }
    }
  }

  /** The advisory answer is the checkout answer for the cart lines; for a request of nothing but candidates, it
      says whether each of them could be bought alone. */
  lemma AdvisoryAgreesWithCart(ctx: Context)
    ensures AdvisoryEligible(ctx) <==>
              if NonCandidates(ctx.lines) != [] then CartEligible(ctx.(lines := NonCandidates(ctx.lines)))
              else ctx.isOpen && forall i :: 0 <= i < |ctx.lines| ==> CartEligible(ctx.(lines := [ctx.lines[i]]))
  {
    hide AllAvailable, AdvisoryEligible, CartEligible;
    if NonCandidates(ctx.lines) != [] {
      AdvisoryCartIsAvailable(ctx);
      CartIsAllAvailable(ctx.(lines := NonCandidates(ctx.lines)));
    } else {
      AdvisoryAloneIsAvailable(ctx);
    }
  }

  lemma AdvisoryAloneIsAvailable(ctx: Context)
    requires NonCandidates(ctx.lines) == []
    ensures AdvisoryEligible(ctx)
       <==> ctx.isOpen && forall i :: 0 <= i < |ctx.lines| ==> CartEligible(ctx.(lines := [ctx.lines[i]]))
  {
    hide Evaluate, ReasonFor, CartEligible, AdvisoryResults;
    forall i | 0 <= i < |ctx.lines|
      ensures AdvisoryResults(ctx)[i].IsEligible() <==> CartEligible(ctx.(lines := [ctx.lines[i]]))
    {
      LoneCandidate(ctx, i);
    }
  }

  lemma LoneCandidate(ctx: Context, i: nat)
    requires NonCandidates(ctx.lines) == [] && i < |ctx.lines|
    ensures AdvisoryResults(ctx)[i].IsEligible() <==> CartEligible(ctx.(lines := [ctx.lines[i]]))
  {
    var line := ctx.lines[i];
    var alone := ctx.(lines := [line]);
    if !IsCandidate(line) {
      RankIsIndex(ctx.lines, i);
    }
    assert [] + [line] == [line];
    assert AdvisoryResults(ctx)[i] == Evaluate(alone, line, 0);
    CartIsAllAvailable(alone);
    hide ReasonFor, CartEligible, AdvisoryResults;
    assert alone.lines[0] == line;
  }

  /** A line before the last one stays available when a line is added at the end of the cart. */
  lemma EarlierLineUnaffected(ctx: Context, last: Line, i: nat)
    requires i < |ctx.lines| && ReasonFor(ctx, ctx.lines[i], i).Available?
    ensures ReasonFor(ctx.(lines := ctx.lines + [last]), ctx.lines[i], i).Available?
  {
    var more := ctx.(lines := ctx.lines + [last]);
    assert more.lines[..i] == ctx.lines[..i];
    var x := ctx.lines[i];
    assert Duplicated(more, x, i) == Duplicated(ctx, x, i) by {
      assert forall j :: 0 <= j < i ==> more.lines[j] == ctx.lines[j];
    }
    if x.festivalClass in ctx.classes {
      PrerequisiteMonotone(ctx, more, ctx.classes[x.festivalClass], x.child, i);
    }
    hide PrerequisiteMet, Duplicated;
  }

  lemma PrerequisiteMonotone(a: Context, b: Context, target: ClassConfig, child: Id, index: nat)
    requires b == a.(lines := b.lines) && a.lines <= b.lines
    ensures PrerequisiteMet(a, target, child, index) ==> PrerequisiteMet(b, target, child, index)
  {
    var required := Required(a, target);
    if PrerequisiteMet(a, target, child, index) && required.Some? {
      if OtherLineSatisfies(a, target, required.value, child, index) {
        var j :| 0 <= j < |a.lines| && j != index && LineSatisfies(a, a.lines[j], target, required.value, child);
        assert LineSatisfies(b, b.lines[j], target, required.value, child);
      } else {
        assert EntitlementSatisfies(b, target, required.value, child)
            == EntitlementSatisfies(a, target, required.value, child);
      }
    }
  }

  /** Main result: an eligible cart together with a candidate reported available is eligible when the two
      are submitted together; and a candidate that could be submitted with the cart is reported
      available. */
  lemma AvailableCandidateCanBeBought(ctx: Context, i: nat)
    requires i < |ctx.lines| && IsCandidate(ctx.lines[i])
    ensures
      var cart := NonCandidates(ctx.lines);
      var both := ctx.(lines := cart + [ctx.lines[i]]);
      && (CartEligible(ctx.(lines := cart)) && AdvisoryResults(ctx)[i].IsEligible() ==> CartEligible(both))
      && (CartEligible(both) ==> AdvisoryResults(ctx)[i].IsEligible())
  {
    var cart := ctx.(lines := NonCandidates(ctx.lines));
    var last := ctx.lines[i];
    var both := ctx.(lines := cart.lines + [last]);
    assert AdvisoryResults(ctx)[i] == Evaluate(both, last, |cart.lines|);
    hide ReasonFor, AdvisoryResults, CartEligible, AllAvailable;
    CartIsAllAvailable(cart);
    CartIsAllAvailable(both);
    OneMoreLine(cart, last);
  }

  lemma OneMoreLine(cart: Context, last: Line)
    ensures
      var both := cart.(lines := cart.lines + [last]);
      && (AllAvailable(cart) && ReasonFor(both, last, |cart.lines|).Available? ==> AllAvailable(both))
      && (AllAvailable(both) ==> ReasonFor(both, last, |cart.lines|).Available?)
  {
    hide ReasonFor;
    var n := |cart.lines|;
    var both := cart.(lines := cart.lines + [last]);
    assert both.lines[n] == last;
    if AllAvailable(cart) && ReasonFor(both, last, n).Available? {
      forall k | 0 <= k < |both.lines| ensures ReasonFor(both, both.lines[k], k).Available? {
        if k < n {
          EarlierLineUnaffected(cart, last, k);
        }
      }
    }
    if AllAvailable(both) {
      assert ReasonFor(both, both.lines[n], n).Available?;
    }
  }

  // ---------------------------------------------------------------------------
  // Candidates together
  // ---------------------------------------------------------------------------

  lemma SeatsGrow(small: seq<Line>, big: seq<Line>)
    requires forall i :: 0 <= i < |small| ==> small[i] in big
    ensures SeatSet(small) <= SeatSet(big)
  {
    forall p | p in SeatSet(small) ensures p in SeatSet(big) {
      var i :| 0 <= i < |small| && SeatOf(small[i]) == p;
      var j :| 0 <= j < |big| && big[j] == small[i];
    }
  }

  /** A seat that is admissible among some seats is so among more, capacity aside. */
  lemma SeatOkGrows(a: Context, b: Context, few: set<Seat>, many: set<Seat>, p: Seat)
    requires b == a.(lines := b.lines) && few <= many && SeatOk(a, few, p)
    ensures SeatOk(b, many, p)
  {
    var target := a.classes[p.festivalClass];
    var required := Required(a, target);
    assert Registered(b, p.child, p.festivalClass) == Registered(a, p.child, p.festivalClass);
    assert Required(b, target) == required;
    if required.Some? {
      if EntitlementSatisfies(a, target, required.value, p.child) {
        assert EntitlementSatisfies(b, target, required.value, p.child);
      } else {
        var q :| q in few && q != p && LineSatisfies(a, Line(None, q.child, q.festivalClass, false),
                                                     target, required.value, p.child);
        assert q in many && LineSatisfies(b, Line(None, q.child, q.festivalClass, false),
                                          target, required.value, p.child);
      }
    }
  }

  /** Every line of an eligible cart is admissible in a larger one. */
  lemma EligibleLinesStayOk(a: Context, b: Context, i: nat)
    requires WellKeyed(a) && CartEligible(a) && b == a.(lines := b.lines) && SeatSet(a.lines) <= SeatSet(b.lines)
    requires i < |a.lines|
    ensures a.isOpen && DistinctSeats(a.lines) && SeatOk(b, SeatSet(b.lines), SeatOf(a.lines[i]))
  {
    CartVerdict(a);
    SeatsEverywhere(a.lines);
    hide CartEligible, SeatOk, DistinctSeats, WellKeyed, SeatSet;
    SeatOkGrows(a, b, SeatSet(a.lines), SeatSet(b.lines), SeatOf(a.lines[i]));
  }

  /** Lines added one at a time to an eligible cart, each eligible with it alone, are eligible all together
      exactly when no two of them ask for the same seat and every class has room for all. */
  lemma CandidatesTogether(ctx: Context, cart: seq<Line>, cs: seq<Line>)
    requires ctx.lines == cart + cs && WellKeyed(ctx)
    requires CartEligible(ctx.(lines := cart))
    requires forall k :: 0 <= k < |cs| ==> CartEligible(ctx.(lines := cart + [cs[k]]))
    ensures CartEligible(ctx) <==> DistinctSeats(cs) && WithinCapacity(ctx)
  {
    hide CartEligible, WellKeyed, WithinCapacity, AllAvailable, SeatSet;
    CartIsAllAvailable(ctx);
    TogetherOk(ctx, cart, cs);
    TogetherDistinct(ctx, cart, cs);
    if DistinctSeats(ctx.lines) {
      hide SeatOk, DistinctSeats;
      AvailableLineByLine(ctx);
    } else {
      DuplicateNotAvailable(ctx);
    }
  }

  lemma PartIsWellKeyed(ctx: Context, part: seq<Line>)
    requires WellKeyed(ctx) && forall i :: 0 <= i < |part| ==> part[i] in ctx.lines
    ensures WellKeyed(ctx.(lines := part))
  {
  }

  lemma TogetherOk(ctx: Context, cart: seq<Line>, cs: seq<Line>)
    requires ctx.lines == cart + cs && WellKeyed(ctx)
    requires CartEligible(ctx.(lines := cart))
    requires forall k :: 0 <= k < |cs| ==> CartEligible(ctx.(lines := cart + [cs[k]]))
    ensures ctx.isOpen
    ensures forall i :: 0 <= i < |ctx.lines| ==> SeatOk(ctx, SeatSet(ctx.lines), SeatOf(ctx.lines[i]))
  {
    hide CartEligible, WellKeyed, SeatOk, SeatSet, DistinctSeats;
    CartIsOpen(ctx.(lines := cart));
    forall i | 0 <= i < |ctx.lines| ensures SeatOk(ctx, SeatSet(ctx.lines), SeatOf(ctx.lines[i])) {
      var n := |cart|;
      if i < n {
        PartIsWellKeyed(ctx, cart);
        SeatsGrow(cart, ctx.lines);
        EligibleLinesStayOk(ctx.(lines := cart), ctx, i);
      } else {
        var part := cart + [cs[i - n]];
        assert part[n] == ctx.lines[i];
        PartIsWellKeyed(ctx, part);
        SeatsGrow(part, ctx.lines);
        EligibleLinesStayOk(ctx.(lines := part), ctx, n);
      }
    }
  }

  lemma CartIsOpen(ctx: Context)
    requires CartEligible(ctx)
    ensures ctx.isOpen
  {
  }

  lemma TogetherDistinct(ctx: Context, cart: seq<Line>, cs: seq<Line>)
    requires ctx.lines == cart + cs && WellKeyed(ctx)
    requires CartEligible(ctx.(lines := cart))
    requires forall k :: 0 <= k < |cs| ==> CartEligible(ctx.(lines := cart + [cs[k]]))
    ensures DistinctSeats(ctx.lines) <==> DistinctSeats(cs)
  {
    var n := |cart|;
    hide CartEligible, WellKeyed, DistinctSeats;
    PartIsWellKeyed(ctx, cart);
    EligibleIsDistinct(ctx.(lines := cart));
    forall k | 0 <= k < |cs| ensures DistinctSeats(cart + [cs[k]]) {
      PartIsWellKeyed(ctx, cart + [cs[k]]);
      EligibleIsDistinct(ctx.(lines := cart + [cs[k]]));
    }
    DistinctInParts(cart, cs);
  }

  lemma EligibleIsDistinct(ctx: Context)
    requires WellKeyed(ctx) && CartEligible(ctx)
    ensures DistinctSeats(ctx.lines)
  {
    CartVerdict(ctx);
  }

  lemma DistinctInParts(cart: seq<Line>, cs: seq<Line>)
    requires DistinctSeats(cart) && forall k :: 0 <= k < |cs| ==> DistinctSeats(cart + [cs[k]])
    ensures DistinctSeats(cart + cs) <==> DistinctSeats(cs)
  {
    hide SameSeat;
    var n, all := |cart|, cart + cs;
    if DistinctSeats(cs) {
      forall i, j | 0 <= i < j < |all| ensures !SameSeat(all[i], all[j]) {
        if i < n <= j {
          var part := cart + [cs[j - n]];
          assert part[i] == all[i] && part[n] == all[j];
        }
      }
    }
    if DistinctSeats(all) {
      forall i, j | 0 <= i < j < |cs| ensures !SameSeat(cs[i], cs[j]) {
        assert cs[i] == all[n + i] && cs[j] == all[n + j];
      }
    }
  }

  function Candidates(lines: seq<Line>): seq<Line> {
    if lines == [] then []
    else Candidates(lines[..|lines| - 1])
         + if IsCandidate(lines[|lines| - 1]) then [lines[|lines| - 1]] else []
  }

  lemma {:induction false} EveryCandidateIsALine(lines: seq<Line>, k: nat) returns (i: nat)
    requires k < |Candidates(lines)|
    ensures i < |lines| && IsCandidate(lines[i]) && lines[i] == Candidates(lines)[k]
    decreases |lines|
  {
    var n := |lines| - 1;
    if k < |Candidates(lines[..n])| {
      i := EveryCandidateIsALine(lines[..n], k);
    } else {
      i := n;
    }
  }

  lemma {:induction false} PartsAreLines(lines: seq<Line>, x: Line)
    ensures x in NonCandidates(lines) || x in Candidates(lines) ==> x in lines
    decreases |lines|
  {
    if lines != [] {
      PartsAreLines(lines[..|lines| - 1], x);
    }
  }

  /** Main result: when the cart lines of a request are eligible and each candidate is reported available, the
      cart with all of the candidates is eligible exactly when no two candidates ask for the same seat and every
      class has room for all the lines. */
  lemma AvailableCandidatesTogether(ctx: Context)
    requires WellKeyed(ctx) && CartEligible(ctx.(lines := NonCandidates(ctx.lines)))
    requires forall i :: 0 <= i < |ctx.lines| && IsCandidate(ctx.lines[i]) ==> AdvisoryResults(ctx)[i].IsEligible()
    ensures
      var all := ctx.(lines := NonCandidates(ctx.lines) + Candidates(ctx.lines));
      CartEligible(all) <==> DistinctSeats(Candidates(ctx.lines)) && WithinCapacity(all)
  {
    hide CartEligible, WellKeyed, WithinCapacity, AdvisoryResults, IsCandidate, DistinctSeats;
    var cart, cs := NonCandidates(ctx.lines), Candidates(ctx.lines);
    forall k | 0 <= k < |cs| ensures CartEligible(ctx.(lines := cart + [cs[k]])) {
      var i := EveryCandidateIsALine(ctx.lines, k);
      AvailableCandidateCanBeBought(ctx, i);
    }
    forall i | 0 <= i < |cart + cs| ensures (cart + cs)[i] in ctx.lines {
      PartsAreLines(ctx.lines, (cart + cs)[i]);
    }
    PartIsWellKeyed(ctx, cart + cs);
    var all := ctx.(lines := cart + cs);
    assert all.(lines := cart) == ctx.(lines := cart);
    forall k | 0 <= k < |cs| ensures CartEligible(all.(lines := cart + [cs[k]])) {
      assert all.(lines := cart + [cs[k]]) == ctx.(lines := cart + [cs[k]]);
    }
    CandidatesTogether(all, cart, cs);
  }

  /** The condition can fail: with one place left, each of two children is told the class is
      available, and the cart of both is not eligible. */
  lemma CandidatesMayExcludeEachOther()
    ensures
      var c := ClassConfig("piano", "org", "festival", "solo", "junior", 8, 10, Some(1), true);
      var ann, bob := Line(Some("candidate:1"), "ann", "piano", true), Line(Some("candidate:2"), "bob", "piano", true);
      var ctx := Context("org", "festival", true, map["piano" := c], map[], [], [ann, bob]);
      && AdvisoryResults(ctx)[0].IsEligible() && AdvisoryResults(ctx)[1].IsEligible()
      && !CartEligible(ctx)
  {
    var c := ClassConfig("piano", "org", "festival", "solo", "junior", 8, 10, Some(1), true);
    var ann, bob := Line(Some("candidate:1"), "ann", "piano", true), Line(Some("candidate:2"), "bob", "piano", true);
    var ctx := Context("org", "festival", true, map["piano" := c], map[], [], [ann, bob]);
    assert NonCandidates(ctx.lines) == [] by { OnlyCandidates(ann, bob); }
    AloneIsAvailable(ctx.(lines := [ann]), c, ann);
    AloneIsAvailable(ctx.(lines := [bob]), c, bob);
    assert [] + [ann] == [ann] && [] + [bob] == [bob];
    SecondIsSoldOut(ctx, c, ann, bob);
    hide ReasonFor;
    CartIsAllAvailable(ctx);
  }

  lemma SecondIsSoldOut(ctx: Context, c: ClassConfig, a: Line, b: Line)
    requires ctx.lines == [a, b] && a.festivalClass == b.festivalClass == c.id
    requires b.festivalClass in ctx.classes && ctx.classes[b.festivalClass] == c && c.capacity == Some(1)
    ensures !ReasonFor(ctx, ctx.lines[1], 1).Available?
  {
    assert ctx.lines[..1] == [a];
    assert LinesOf([a], c.id) == 1 by { assert [a][..0] == []; }
    assert Full(ctx, c, 1);
  }

  lemma OnlyCandidates(a: Line, b: Line)
    requires a.isCandidate && b.isCandidate
    ensures NonCandidates([a, b]) == []
  {
    assert IsCandidate(a) && IsCandidate(b);
    assert [a, b][..1] == [a] && [a][..0] == [];
    assert NonCandidates([a]) == [];
  }

  lemma AloneIsAvailable(ctx: Context, c: ClassConfig, line: Line)
    requires ctx.isOpen && ctx.entitlements == [] && ctx.subtypes == map[] && ctx.lines == [line]
    requires ctx.classes == map[line.festivalClass := c] && c.id == line.festivalClass && c.capacity == Some(1)
    requires Valid(c, ctx)
    ensures ReasonFor(ctx, line, 0).Available?
  {
    assert ctx.lines[..0] == [];
    assert Placed(ctx.entitlements, c.id) == 0 && LinesOf([], c.id) == 0;
    assert !Registered(ctx, line.child, line.festivalClass) && !Duplicated(ctx, line, 0);
  }

  // ---------------------------------------------------------------------------
  // Markers
  // ---------------------------------------------------------------------------

  /** Stripping takes off one marker only: the result is still a candidate exactly when what followed the
      marker begins with a marker again. */
  lemma StripTakesOneMarker(line: Line)
    ensures IsCandidate(StripMarker(line))
       <==> line.id.Some? && HasMarker(line.id.value) && HasMarker(line.id.value[10..])
  {
  }
}
