/** The teacher-membership renewal chain of one customer and entitlement class.

    A grant covers the days from its start up to (not including) its end, cut short by the day a
    renewal superseded it.  Days are day numbers (module Calendar relates them to date strings). */
module Renewal {
  import opened Wrappers

  type Day = int

  const RENEWAL_WINDOW_DAYS: nat := 30
  const MAX_DURATION_DAYS: nat := 36500

  datatype Grant = Grant(start: Day, end: Day, duration: int, supersededOn: Option<Day>, revoked: bool)

  datatype Lifecycle = Scheduled | Active | Superseded | Expired | Revoked

  function DeriveLifecycle(g: Grant, today: Day): Lifecycle {
    if g.revoked then Revoked
    else if g.supersededOn.Some? && today >= g.supersededOn.value then Superseded
    else if today < g.start then Scheduled
    else if today >= g.end then Expired
    else Active
  }

  /** The lifecycle of a grant on a day: active from its start to the day before its end or its superseding,
      whichever is first, and nothing once revoked. */
  lemma LifecycleExactly(g: Grant, today: Day)
    ensures
      var l := DeriveLifecycle(g, today);
      var cut := g.supersededOn.Some? && today >= g.supersededOn.value;
      && (l == Revoked <==> g.revoked)
      && (l == Superseded <==> !g.revoked && cut)
      && (l == Scheduled <==> !g.revoked && !cut && today < g.start)
      && (l == Expired <==> !g.revoked && !cut && g.start <= today && g.end <= today)
      && (l == Active <==> !g.revoked && !cut && g.start <= today < g.end)
  {
  }

  // ---------------------------------------------------------------------------
  // The repository's half: the rows the renewal transaction locks and changes
  // ---------------------------------------------------------------------------

  /** The WHERE clause of the renewal query. */
  predicate Current(g: Grant, paidOn: Day) {
    !g.revoked && g.supersededOn.None? && g.end > paidOn
  }

  predicate Blocks(g: Grant, paidOn: Day) {
    Current(g, paidOn) && (g.start > paidOn || g.end > paidOn + RENEWAL_WINDOW_DAYS)
  }

  predicate RepositoryRejects(gs: seq<Grant>, paidOn: Day) {
    exists i :: 0 <= i < |gs| && Blocks(gs[i], paidOn)
  }

  /** A purchase goes to review exactly when some grant, neither revoked nor superseded, has not ended on the paid
      day and starts after it or ends more than thirty days after it. */
  lemma RejectsExactly(gs: seq<Grant>, paidOn: Day)
    ensures RepositoryRejects(gs, paidOn) <==>
              exists g :: g in gs && !g.revoked && g.supersededOn == None
                && g.end > paidOn && (g.start > paidOn || g.end > paidOn + 30)
  {
    if g :| g in gs && !g.revoked && g.supersededOn == None
            && g.end > paidOn && (g.start > paidOn || g.end > paidOn + 30) {
      var i :| 0 <= i < |gs| && gs[i] == g;
      assert Blocks(gs[i], paidOn);
    }
    if RepositoryRejects(gs, paidOn) {
      var i :| 0 <= i < |gs| && Blocks(gs[i], paidOn);
      assert gs[i] in gs;
    }
  }

  /** The first row of the renewal query: a current grant with the least start. */
  function FirstRow(gs: seq<Grant>, paidOn: Day): (r: Option<nat>)
    ensures r.Some? ==> r.value < |gs| && Current(gs[r.value], paidOn)
    ensures r.None? ==> forall i :: 0 <= i < |gs| ==> !Current(gs[i], paidOn)
    ensures r.Some? ==>
              forall i :: 0 <= i < |gs| && Current(gs[i], paidOn) ==> gs[r.value].start <= gs[i].start
  {
    if gs == [] then None
    else
      var n := |gs| - 1;
      var before := FirstRow(gs[..n], paidOn);
      if Current(gs[n], paidOn) && (before.None? || gs[n].start < gs[before.value].start) then Some(n)
      else before
  }

  function Max(a: int, b: int): int { if a > b then a else b }

  function RepositoryEnd(gs: seq<Grant>, paidOn: Day, duration: int, serviceEnd: Day): Day {
    var row := FirstRow(gs, paidOn);
    if row.Some? then Max(gs[row.value].end, paidOn) + duration else serviceEnd
  }

  function Supersede(gs: seq<Grant>, paidOn: Day): (r: seq<Grant>)
    ensures |r| == |gs|
  {
    var row := FirstRow(gs, paidOn);
    if row.Some? then gs[row.value := gs[row.value].(supersededOn := Some(paidOn))] else gs
  }

  /** The rows after one purchase: unchanged when it is sent to review as a duplicate. */
  function RepositoryStep(gs: seq<Grant>, paidOn: Day, duration: int, serviceEnd: Day): seq<Grant> {
    if RepositoryRejects(gs, paidOn) then gs
    else Supersede(gs, paidOn)
         + [Grant(paidOn, RepositoryEnd(gs, paidOn, duration, serviceEnd), duration, None, false)]
  }

  /** Neither revoked nor superseded, and not ended on the paid day. */
  ghost predicate Runs(g: Grant, paidOn: Day) {
    !g.revoked && g.supersededOn == None && g.end > paidOn
  }

  ghost predicate Blocking(g: Grant, paidOn: Day) {
    Runs(g, paidOn) && (g.start > paidOn || g.end > paidOn + 30)
  }

  /** Row i, one with the least start of those that run, is superseded and its end carried forward. */
  ghost predicate Supersedes(gs: seq<Grant>, paidOn: Day, duration: int, i: nat, after: seq<Grant>) {
    && i < |gs| && Runs(gs[i], paidOn)
    && (forall g :: g in gs && Runs(g, paidOn) ==> gs[i].start <= g.start)
    && after == gs[i := Grant(gs[i].start, gs[i].end, gs[i].duration, Some(paidOn), false)]
                + [Grant(paidOn, gs[i].end + duration, duration, None, false)]
  }

  lemma RowExactly(gs: seq<Grant>, paidOn: Day)
    ensures
      var row := FirstRow(gs, paidOn);
      && (row.None? <==> forall g :: g in gs ==> !Runs(g, paidOn))
      && (row.Some? ==> row.value < |gs| && Runs(gs[row.value], paidOn)
                        && forall g :: g in gs && Runs(g, paidOn) ==> gs[row.value].start <= g.start)
  {
    var row := FirstRow(gs, paidOn);
    forall g | g in gs && Runs(g, paidOn) ensures row.Some? && gs[row.value].start <= g.start {
      var i :| 0 <= i < |gs| && gs[i] == g;
      assert Current(gs[i], paidOn);
    }
    if row.Some? {
      assert gs[row.value] in gs && Current(gs[row.value], paidOn);
    }
  }

  /** What the transaction does to any rows: to review without a change, or a new row from the paid day. If a row
      runs on that day, one with the least start is superseded and its end carried forward; if none does, the end
      is the one proposed. */
  lemma TransactionExactly(gs: seq<Grant>, paidOn: Day, duration: int, serviceEnd: Day)
    ensures
      var after := RepositoryStep(gs, paidOn, duration, serviceEnd);
      && ((exists g :: g in gs && Blocking(g, paidOn)) ==> after == gs)
      && ((forall g :: g in gs ==> !Runs(g, paidOn)) ==>
            after == gs + [Grant(paidOn, serviceEnd, duration, None, false)])
      && ((forall g :: g in gs ==> !Blocking(g, paidOn)) && (exists g :: g in gs && Runs(g, paidOn)) ==>
            exists i: nat :: Supersedes(gs, paidOn, duration, i, after))
  {
    RejectsExactly(gs, paidOn);
    RowExactly(gs, paidOn);
    assert RepositoryRejects(gs, paidOn) <==> exists g :: g in gs && Blocking(g, paidOn);
    var row := FirstRow(gs, paidOn);
    hide RepositoryRejects, FirstRow, Runs, Blocking;
    if row.Some? && !RepositoryRejects(gs, paidOn) {
      SupersedesRow(gs, paidOn, duration, serviceEnd, row.value);
      assert Supersedes(gs, paidOn, duration, row.value, RepositoryStep(gs, paidOn, duration, serviceEnd));
    }
    BlockingRuns(gs, paidOn);
  }

  lemma BlockingRuns(gs: seq<Grant>, paidOn: Day)
    ensures (forall g :: g in gs ==> !Runs(g, paidOn)) ==> forall g :: g in gs ==> !Blocking(g, paidOn)
  {
  }

  lemma SupersedesRow(gs: seq<Grant>, paidOn: Day, duration: int, serviceEnd: Day, i: nat)
    requires FirstRow(gs, paidOn) == Some(i) && !RepositoryRejects(gs, paidOn)
    ensures i < |gs| && RepositoryStep(gs, paidOn, duration, serviceEnd)
         == gs[i := Grant(gs[i].start, gs[i].end, gs[i].duration, Some(paidOn), false)]
            + [Grant(paidOn, gs[i].end + duration, duration, None, false)]
  {
    hide RepositoryRejects, FirstRow;
    assert Current(gs[i], paidOn);
    assert gs[i].(supersededOn := Some(paidOn))
        == Grant(gs[i].start, gs[i].end, gs[i].duration, Some(paidOn), false);
  }

  datatype DecisionStatus = Approved | NeedsReview

  /** The rows of membership_entitlements for one customer and class. */
  class EntitlementRows {
    var rows: seq<Grant>

    constructor ()
      ensures rows == []
    {
      rows := [];
    }

    method FinalizeDecision(paidOn: Day, duration: int, serviceEnd: Day) returns (status: DecisionStatus)
      modifies this
      ensures rows == RepositoryStep(old(rows), paidOn, duration, serviceEnd)
      ensures status.NeedsReview? <==>
                exists g :: g in old(rows) && !g.revoked && g.supersededOn == None
                  && g.end > paidOn && (g.start > paidOn || g.end > paidOn + 30)
    {
      RejectsExactly(rows, paidOn);
      status := Approved;
      var grantEnd := Some(serviceEnd);
      var supersededEntitlement: Option<nat> := None;
      if RepositoryRejects(rows, paidOn) {
        status := NeedsReview;
        grantEnd := None;
      } else {
        var first := FirstRow(rows, paidOn);
        if first.Some? {
          supersededEntitlement := first;
          var effectiveStart := if rows[first.value].end > paidOn then rows[first.value].end else paidOn;
          grantEnd := Some(effectiveStart + duration);
        }
      }
      if grantEnd.Some? && supersededEntitlement.Some? {
        var i := supersededEntitlement.value;
        rows := rows[i := rows[i].(supersededOn := Some(paidOn))];
      }
      if grantEnd.Some? {
        rows := rows + [Grant(paidOn, grantEnd.value, duration, None, false)];
      }
    }
  }

  // ---------------------------------------------------------------------------
  // The service's half: the duplicate check and the end date it proposes
  // ---------------------------------------------------------------------------

  predicate ScheduledAfter(g: Grant, paidOn: Day) {
    !g.revoked && g.supersededOn.None? && g.start > paidOn
  }

  predicate ServiceRejects(gs: seq<Grant>, paidOn: Day) {
    || (exists i :: 0 <= i < |gs| && ScheduledAfter(gs[i], paidOn))
    || (exists i :: 0 <= i < |gs| && DeriveLifecycle(gs[i], paidOn).Active?
                    && gs[i].end - paidOn > RENEWAL_WINDOW_DAYS)
  }

  predicate Renewable(g: Grant, paidOn: Day) {
    DeriveLifecycle(g, paidOn).Active? && g.end - paidOn <= RENEWAL_WINDOW_DAYS
  }

  /** The first grant, in list order, that is active on the paid day inside the renewal window. */
  function PreviousActive(gs: seq<Grant>, paidOn: Day): (r: Option<Grant>)
    ensures r.Some? ==> r.value in gs && Renewable(r.value, paidOn)
    ensures r.None? ==> forall i :: 0 <= i < |gs| ==> !Renewable(gs[i], paidOn)
  {
    if gs == [] then None
    else if Renewable(gs[0], paidOn) then Some(gs[0])
    else PreviousActive(gs[1..], paidOn)
  }

  function ServiceEnd(gs: seq<Grant>, paidOn: Day, duration: int): Day {
    var previous := PreviousActive(gs, paidOn);
    (if previous.Some? && previous.value.end > paidOn then previous.value.end else paidOn) + duration
  }

  /** Active on the paid day, from its start to the day before its end or its superseding. */
  ghost predicate ActiveOn(g: Grant, paidOn: Day) {
    !g.revoked && g.start <= paidOn < g.end && (g.supersededOn.Some? ==> paidOn < g.supersededOn.value)
  }

  ghost predicate Refusing(g: Grant, paidOn: Day) {
    || (!g.revoked && g.supersededOn == None && g.start > paidOn)
    || (ActiveOn(g, paidOn) && g.end > paidOn + 30)
  }

  /** The service refuses a paid day exactly when a grant is still to start, or one is active that ends more than
      thirty days later; and it proposes an end counted from that of a grant active and ending by then, or else
      from the paid day. */
  lemma ServiceExactly(gs: seq<Grant>, paidOn: Day, duration: int)
    ensures ServiceRejects(gs, paidOn) <==>
              exists g :: g in gs && Refusing(g, paidOn)
    ensures (forall g :: g in gs ==> !(ActiveOn(g, paidOn) && g.end <= paidOn + 30)) ==>
              ServiceEnd(gs, paidOn, duration) == paidOn + duration
    ensures (exists g :: g in gs && ActiveOn(g, paidOn) && g.end <= paidOn + 30) ==>
              exists g :: g in gs && ActiveOn(g, paidOn) && g.end <= paidOn + 30
                && ServiceEnd(gs, paidOn, duration) == g.end + duration
  {
    forall g ensures DeriveLifecycle(g, paidOn).Active? <==> ActiveOn(g, paidOn) {
    }
    ServiceRefuses(gs, paidOn);
    hide DeriveLifecycle, ActiveOn;
    var previous := PreviousActive(gs, paidOn);
    hide PreviousActive;
    if g :| g in gs && ActiveOn(g, paidOn) && g.end <= paidOn + 30 {
      var i :| 0 <= i < |gs| && gs[i] == g;
      assert Renewable(gs[i], paidOn);
      assert previous.Some? && previous.value in gs && ActiveOn(previous.value, paidOn);
      EndsLater(previous.value, paidOn);
    }
  }

  lemma EndsLater(g: Grant, paidOn: Day)
    requires ActiveOn(g, paidOn)
    ensures g.end > paidOn
  {
  }

  lemma ServiceRefuses(gs: seq<Grant>, paidOn: Day)
    ensures ServiceRejects(gs, paidOn) <==> exists g :: g in gs && Refusing(g, paidOn)
  {
    if ServiceRejects(gs, paidOn) {
      var i :| 0 <= i < |gs|
        && (ScheduledAfter(gs[i], paidOn)
            || (DeriveLifecycle(gs[i], paidOn).Active? && gs[i].end - paidOn > RENEWAL_WINDOW_DAYS));
      LifecycleExactly(gs[i], paidOn);
      assert gs[i] in gs && Refusing(gs[i], paidOn);
    }
    if g :| g in gs && Refusing(g, paidOn) {
      var i :| 0 <= i < |gs| && gs[i] == g;
      LifecycleExactly(g, paidOn);
      assert ScheduledAfter(gs[i], paidOn)
          || (DeriveLifecycle(gs[i], paidOn).Active? && gs[i].end - paidOn > RENEWAL_WINDOW_DAYS);
    }
  }

  predicate ValidDuration(duration: int) {
    0 < duration <= MAX_DURATION_DAYS
  }

  /** The date part of the grant validator: the end lies between the duration and the duration plus
      the renewal window after the start. The latest end is computed with the function that adds a valid
      duration to a date, so the duration plus the window must itself be a valid duration. */
  predicate ValidGrantDates(start: Day, end: Day, duration: int) {
    && ValidDuration(duration) && ValidDuration(duration + RENEWAL_WINDOW_DAYS)
    && start + duration <= end <= start + duration + RENEWAL_WINDOW_DAYS
  }

  /** A duration that leaves room for the window below the maximum. */
  predicate Grantable(duration: int) {
    duration + RENEWAL_WINDOW_DAYS <= MAX_DURATION_DAYS
  }

  predicate Approved(gs: seq<Grant>, paidOn: Day, duration: int) {
    !RepositoryRejects(gs, paidOn) && Grantable(duration)
  }

  // ---------------------------------------------------------------------------
  // Runs
  // ---------------------------------------------------------------------------

  datatype Event = Purchased(paidOn: Day, duration: int) | RevokedAt(index: nat)

  function Purchase(gs: seq<Grant>, paidOn: Day, duration: int): seq<Grant> {
    if ServiceRejects(gs, paidOn) then gs
    else if !ValidGrantDates(paidOn, ServiceEnd(gs, paidOn, duration), duration) then gs
    else RepositoryStep(gs, paidOn, duration, ServiceEnd(gs, paidOn, duration))
  }

  function Revoke(gs: seq<Grant>, i: nat): seq<Grant> {
    if i < |gs| then gs[i := gs[i].(revoked := true)] else gs
  }

  function Step(gs: seq<Grant>, e: Event): seq<Grant> {
    match e
    case Purchased(paidOn, duration) => Purchase(gs, paidOn, duration)
    case RevokedAt(i) => Revoke(gs, i)
  }

  function Run(gs: seq<Grant>, es: seq<Event>): seq<Grant>
    decreases |es|
  {
    if es == [] then gs else Run(Step(gs, es[0]), es[1..])
  }

  /** A purchase whose latest grant was revoked must not be paid before that grant's start.  Without
      revocations this says nothing: paid days may come in any order. */
  predicate Orderly(gs: seq<Grant>, e: Event) {
    match e
    case Purchased(paidOn, duration) =>
      ValidDuration(duration) && (gs != [] && gs[|gs| - 1].revoked ==> gs[|gs| - 1].start <= paidOn)
    case RevokedAt(_) => true
  }

  predicate OrderlyRun(gs: seq<Grant>, es: seq<Event>)
    decreases |es|
  {
    es == [] || (Orderly(gs, es[0]) && OrderlyRun(Step(gs, es[0]), es[1..]))
  }

  predicate PurchasesOnly(es: seq<Event>) {
    forall i :: 0 <= i < |es| ==> es[i].Purchased? && ValidDuration(es[i].duration)
  }

  // ---------------------------------------------------------------------------
  // The invariant
  // ---------------------------------------------------------------------------

  /** The day after a grant's last active day. */
  function Cut(g: Grant): Day {
    if g.revoked then g.start
    else if g.supersededOn.Some? then g.supersededOn.value
    else g.end
  }

  /** Grants lie one after the other in list order, and the latest is never superseded. */
  ghost predicate Chain(gs: seq<Grant>) {
    && (forall i :: 0 <= i < |gs| ==> gs[i].start <= Cut(gs[i]) <= gs[i].end)
    && (forall i, j :: 0 <= i < j < |gs| ==> Cut(gs[i]) <= gs[j].start)
    && (gs != [] ==> gs[|gs| - 1].supersededOn.None?)
  }

  lemma ActiveIsInterval(g: Grant, d: Day)
    requires Cut(g) <= g.end
    ensures DeriveLifecycle(g, d).Active? <==> g.start <= d < Cut(g)
  {
  }

  /** On a chain only the latest grant can be current for a paid day not before its start. */
  lemma OnlyLatestIsCurrent(gs: seq<Grant>, paidOn: Day, i: nat)
    requires Chain(gs) && i < |gs| && Current(gs[i], paidOn) && gs[|gs| - 1].start <= paidOn
    ensures i == |gs| - 1
  {
  }

  /** An accepted purchase is never paid before the start of the latest grant. */
  lemma AcceptedAfterLatestStart(gs: seq<Grant>, paidOn: Day)
    requires Chain(gs) && gs != [] && !RepositoryRejects(gs, paidOn)
    requires gs[|gs| - 1].revoked ==> gs[|gs| - 1].start <= paidOn
    ensures gs[|gs| - 1].start <= paidOn
  {
    var n := |gs| - 1;
    if !gs[n].revoked && paidOn < gs[n].start {
      assert gs[n].start <= Cut(gs[n]);
      assert Blocks(gs[n], paidOn);
    }
  }

  /** What an accepted purchase does to a chain: it supersedes the latest grant on the paid day when
      that grant has not ended, and appends the new one. */
  lemma AcceptedShape(gs: seq<Grant>, paidOn: Day)
    requires Chain(gs) && !RepositoryRejects(gs, paidOn)
    requires gs != [] && gs[|gs| - 1].revoked ==> gs[|gs| - 1].start <= paidOn
    ensures FirstRow(gs, paidOn) ==
            if gs != [] && Current(gs[|gs| - 1], paidOn) then Some(|gs| - 1) else None
    ensures gs != [] ==> gs[|gs| - 1].start <= paidOn
  {
    if gs != [] {
      AcceptedAfterLatestStart(gs, paidOn);
      var row := FirstRow(gs, paidOn);
      if row.Some? {
        OnlyLatestIsCurrent(gs, paidOn, row.value);
      }
    }
  }

  /** A grant that is active on a paid day not before the latest start is the latest grant itself. */
  lemma ActiveIsLatest(gs: seq<Grant>, paidOn: Day, i: nat)
    requires Chain(gs) && i < |gs| && gs[|gs| - 1].start <= paidOn
    requires DeriveLifecycle(gs[i], paidOn).Active?
    ensures i == |gs| - 1 && Current(gs[i], paidOn)
  {
    ActiveIsInterval(gs[i], paidOn);
  }

  /** The two halves accept the same paid days, for any order of payment. */
  lemma RejectionsAgree(gs: seq<Grant>, paidOn: Day)
    requires Chain(gs)
    requires gs != [] && gs[|gs| - 1].revoked ==> gs[|gs| - 1].start <= paidOn
    ensures ServiceRejects(gs, paidOn) <==> RepositoryRejects(gs, paidOn)
  {
    if RepositoryRejects(gs, paidOn) {
      var i :| 0 <= i < |gs| && Blocks(gs[i], paidOn);
      if gs[i].start > paidOn {
        assert ScheduledAfter(gs[i], paidOn);
      } else {
        assert DeriveLifecycle(gs[i], paidOn).Active?;
      }
    } else if gs != [] {
      AcceptedAfterLatestStart(gs, paidOn);
      var n := |gs| - 1;
      forall i | 0 <= i < |gs|
        ensures !ScheduledAfter(gs[i], paidOn)
        ensures !(DeriveLifecycle(gs[i], paidOn).Active? && gs[i].end - paidOn > RENEWAL_WINDOW_DAYS)
      {
        if i < n {
          assert gs[i].start <= Cut(gs[i]) <= gs[n].start;
        }
        if DeriveLifecycle(gs[i], paidOn).Active? {
          ActiveIsLatest(gs, paidOn, i);
          assert !Blocks(gs[i], paidOn);
        }
      }
    }
  }

  /** For an accepted paid day both halves compute the same end date, and the validator accepts the
      dates the service proposes unless the duration is within the window of the maximum. */
  lemma EndDatesAgree(gs: seq<Grant>, paidOn: Day, duration: int)
    requires Chain(gs) && !RepositoryRejects(gs, paidOn) && ValidDuration(duration)
    requires gs != [] && gs[|gs| - 1].revoked ==> gs[|gs| - 1].start <= paidOn
    ensures RepositoryEnd(gs, paidOn, duration, ServiceEnd(gs, paidOn, duration))
         == ServiceEnd(gs, paidOn, duration)
    ensures ValidGrantDates(paidOn, ServiceEnd(gs, paidOn, duration), duration)
       <==> Grantable(duration)
    ensures ServiceEnd(gs, paidOn, duration) ==
            (if gs != [] && Current(gs[|gs| - 1], paidOn) then gs[|gs| - 1].end else paidOn) + duration
  {
    AcceptedShape(gs, paidOn);
    var previous := PreviousActive(gs, paidOn);
    if gs != [] {
      assert !Blocks(gs[|gs| - 1], paidOn);
    }
    if previous.Some? {
      var i :| 0 <= i < |gs| && gs[i] == previous.value;
      ActiveIsLatest(gs, paidOn, i);
    } else if gs != [] {
      assert !Renewable(gs[|gs| - 1], paidOn);
    }
  }

  /** The chain after one accepted purchase, spelled out. */
  function Extended(gs: seq<Grant>, paidOn: Day, duration: int): seq<Grant> {
    if gs != [] && Current(gs[|gs| - 1], paidOn) then
      var n := |gs| - 1;
      gs[n := gs[n].(supersededOn := Some(paidOn))]
      + [Grant(paidOn, gs[n].end + duration, duration, None, false)]
    else
      gs + [Grant(paidOn, paidOn + duration, duration, None, false)]
  }

  lemma PurchaseShape(gs: seq<Grant>, paidOn: Day, duration: int)
    requires Chain(gs) && Orderly(gs, Purchased(paidOn, duration))
    ensures Purchase(gs, paidOn, duration)
         == if Approved(gs, paidOn, duration) then Extended(gs, paidOn, duration) else gs
  {
    hide ServiceRejects, RepositoryRejects, FirstRow, ServiceEnd, Chain;
    RejectionsAgree(gs, paidOn);
    if !RepositoryRejects(gs, paidOn) {
      AcceptedShape(gs, paidOn);
      EndDatesAgree(gs, paidOn, duration);
    }
  }

  /** Main result: what a purchase does to a chain, in days. It is refused when the latest grant, unless revoked,
      starts after the paid day or ends more than 30 days after it, or when the duration exceeds 36470 days.
      Otherwise the new grant starts on the paid day; a latest grant that has not ended is superseded on that day,
      and its remaining days are added to the new one. */
  lemma PurchaseExactly(gs: seq<Grant>, paidOn: Day, duration: int)
    requires Chain(gs) && 0 < duration <= 36500
    requires gs != [] && gs[|gs| - 1].revoked ==> gs[|gs| - 1].start <= paidOn
    ensures
      var n, after := |gs| - 1, Purchase(gs, paidOn, duration);
      if (gs != [] && !gs[n].revoked && (gs[n].start > paidOn || gs[n].end > paidOn + 30)) || duration > 36470 then
        after == gs
      else if gs != [] && !gs[n].revoked && gs[n].end > paidOn then
        after == gs[..n] + [Grant(gs[n].start, gs[n].end, gs[n].duration, Some(paidOn), false),
                            Grant(paidOn, gs[n].end + duration, duration, None, false)]
      else
        after == gs + [Grant(paidOn, paidOn + duration, duration, None, false)]
  {
    PurchaseShape(gs, paidOn, duration);
    LatestDecides(gs, paidOn);
    assert gs != [] ==> gs[|gs| - 1].supersededOn.None?;
    hide Purchase, RepositoryRejects, Chain;
    if gs != [] && Current(gs[|gs| - 1], paidOn) {
      ExtendedOver(gs, paidOn, duration);
    }
  }

  lemma ExtendedOver(gs: seq<Grant>, paidOn: Day, duration: int)
    requires gs != [] && Current(gs[|gs| - 1], paidOn)
    ensures
      var n := |gs| - 1;
      Extended(gs, paidOn, duration)
      == gs[..n] + [Grant(gs[n].start, gs[n].end, gs[n].duration, Some(paidOn), false),
                    Grant(paidOn, gs[n].end + duration, duration, None, false)]
  {
    var n := |gs| - 1;
    assert gs[n].(supersededOn := Some(paidOn))
        == Grant(gs[n].start, gs[n].end, gs[n].duration, Some(paidOn), false);
  }

  lemma LatestDecides(gs: seq<Grant>, paidOn: Day)
    requires Chain(gs)
    requires gs != [] && gs[|gs| - 1].revoked ==> gs[|gs| - 1].start <= paidOn
    ensures RepositoryRejects(gs, paidOn) <==>
              gs != [] && !gs[|gs| - 1].revoked
              && (gs[|gs| - 1].start > paidOn || gs[|gs| - 1].end > paidOn + 30)
  {
    if gs != [] {
      var n := |gs| - 1;
      assert gs[n].start <= Cut(gs[n]) <= gs[n].end;
      if gs[n].start <= paidOn {
        forall i | 0 <= i < |gs| && Current(gs[i], paidOn) ensures i == n {
          OnlyLatestIsCurrent(gs, paidOn, i);
        }
        assert RepositoryRejects(gs, paidOn) <==> Blocks(gs[n], paidOn);
      } else {
        assert Blocks(gs[n], paidOn);
      }
    }
  }

  lemma ExtendedKeepsChain(gs: seq<Grant>, paidOn: Day, duration: int)
    requires Chain(gs) && Orderly(gs, Purchased(paidOn, duration)) && !RepositoryRejects(gs, paidOn)
    ensures Chain(Extended(gs, paidOn, duration))
  {
    hide RepositoryRejects, FirstRow;
    AcceptedShape(gs, paidOn);
    var r := Extended(gs, paidOn, duration);
    if gs != [] {
      var n := |gs| - 1;
      forall i | 0 <= i <= n
        ensures r[i].start <= Cut(r[i]) <= r[i].end && Cut(r[i]) <= paidOn
      {
        if i < n {
          assert r[i] == gs[i] && Cut(gs[i]) <= gs[n].start;
        }
      }
    }
  }

  lemma StepKeepsChain(gs: seq<Grant>, e: Event)
    requires Chain(gs) && Orderly(gs, e)
    ensures Chain(Step(gs, e))
  {
    if e.Purchased? {
      hide Purchase, Extended, RepositoryRejects;
      PurchaseShape(gs, e.paidOn, e.duration);
      if Approved(gs, e.paidOn, e.duration) {
        ExtendedKeepsChain(gs, e.paidOn, e.duration);
      }
    }
  }

  lemma {:induction false} RunKeepsChain(gs: seq<Grant>, es: seq<Event>)
    requires Chain(gs) && OrderlyRun(gs, es)
    ensures Chain(Run(gs, es))
    decreases |es|
  {
    hide Chain, Step, Orderly;
    if es != [] {
      StepKeepsChain(gs, es[0]);
      RunKeepsChain(Step(gs, es[0]), es[1..]);
    }
  }

  // ---------------------------------------------------------------------------
  // Days served
  // ---------------------------------------------------------------------------

  function Days(a: Day, b: Day): (days: set<Day>)
    ensures forall d :: d in days <==> a <= d < b
    decreases b - a
  {
    if a < b then Days(a, b - 1) + {b - 1} else {}
  }

  lemma {:induction false} DaysCount(a: Day, b: Day)
    requires a <= b
    ensures |Days(a, b)| == b - a
    decreases b - a
  {
    if a < b {
      DaysCount(a, b - 1);
    }
  }

  /** The days on which some grant is active. */
  function ServedDays(gs: seq<Grant>): set<Day> {
    if gs == [] then {} else ServedDays(gs[..|gs| - 1]) + Days(gs[|gs| - 1].start, Cut(gs[|gs| - 1]))
  }

  function LengthSum(gs: seq<Grant>): int {
    if gs == [] then 0 else LengthSum(gs[..|gs| - 1]) + Cut(gs[|gs| - 1]) - gs[|gs| - 1].start
  }

  function DurationSum(gs: seq<Grant>): int {
    if gs == [] then 0 else DurationSum(gs[..|gs| - 1]) + gs[|gs| - 1].duration
  }

  /** `ServedDays` is what its name says, by the lifecycle rule itself. */
  lemma {:induction false} ServedDaysAreActive(gs: seq<Grant>, d: Day)
    requires Chain(gs)
    ensures d in ServedDays(gs) <==> exists i :: 0 <= i < |gs| && DeriveLifecycle(gs[i], d).Active?
    decreases |gs|
  {
    if gs != [] {
      var n := |gs| - 1;
      var before := gs[..n];
      forall i | 0 <= i < |gs|
        ensures DeriveLifecycle(gs[i], d).Active? <==> gs[i].start <= d < Cut(gs[i])
      {
        ActiveIsInterval(gs[i], d);
      }
      ServedDaysAreIntervals(gs, d);
    }
  }

  lemma {:induction false} ServedDaysAreIntervals(gs: seq<Grant>, d: Day)
    ensures d in ServedDays(gs) <==> exists i :: 0 <= i < |gs| && gs[i].start <= d < Cut(gs[i])
    decreases |gs|
  {
    if gs != [] {
      var n := |gs| - 1;
      ServedDaysAreIntervals(gs[..n], d);
      if d in ServedDays(gs[..n]) {
        var i :| 0 <= i < n && gs[..n][i].start <= d < Cut(gs[..n][i]);
        assert gs[i].start <= d < Cut(gs[i]);
      }
      forall i | 0 <= i < n && gs[i].start <= d < Cut(gs[i])
        ensures d in ServedDays(gs[..n])
      {
        assert gs[..n][i] == gs[i];
      }
    }
  }

  lemma ChainPrefix(gs: seq<Grant>)
    requires gs != [] && (forall i :: 0 <= i < |gs| ==> gs[i].start <= Cut(gs[i]) <= gs[i].end)
    requires forall i, j :: 0 <= i < j < |gs| ==> Cut(gs[i]) <= gs[j].start
    ensures Days(gs[|gs| - 1].start, Cut(gs[|gs| - 1])) !! ServedDays(gs[..|gs| - 1])
  {
    var n := |gs| - 1;
    forall d | d in ServedDays(gs[..n]) ensures d < gs[n].start {
      ServedDaysAreIntervals(gs[..n], d);
    }
  }

  lemma {:induction false} ServedCount(gs: seq<Grant>)
    requires forall i :: 0 <= i < |gs| ==> gs[i].start <= Cut(gs[i]) <= gs[i].end
    requires forall i, j :: 0 <= i < j < |gs| ==> Cut(gs[i]) <= gs[j].start
    ensures |ServedDays(gs)| == LengthSum(gs)
    decreases |gs|
  {
    if gs != [] {
      var n := |gs| - 1;
      ServedCount(gs[..n]);
      ChainPrefix(gs);
      DaysCount(gs[n].start, Cut(gs[n]));
    }
  }

  lemma ExtendedSums(gs: seq<Grant>, paidOn: Day, duration: int)
    requires gs != [] ==> !gs[|gs| - 1].revoked && gs[|gs| - 1].supersededOn.None?
    ensures LengthSum(Extended(gs, paidOn, duration)) == LengthSum(gs) + duration
    ensures DurationSum(Extended(gs, paidOn, duration)) == DurationSum(gs) + duration
  {
    var r := Extended(gs, paidOn, duration);
    var n := |gs|;
    if n > 0 && Current(gs[n - 1], paidOn) {
      assert r[..n][..n - 1] == gs[..n - 1];
    } else {
      assert r[..n] == gs;
    }
  }

  /** Every grant is unrevoked and the lengths add up to the durations bought. */
  ghost predicate Balanced(gs: seq<Grant>) {
    && (forall i :: 0 <= i < |gs| ==> !gs[i].revoked)
    && LengthSum(gs) == DurationSum(gs)
  }

  lemma PurchaseKeepsBalance(gs: seq<Grant>, paidOn: Day, duration: int)
    requires Chain(gs) && Balanced(gs) && ValidDuration(duration)
    ensures Balanced(Purchase(gs, paidOn, duration)) && Chain(Purchase(gs, paidOn, duration))
    ensures DurationSum(Purchase(gs, paidOn, duration))
         == DurationSum(gs) + if Approved(gs, paidOn, duration) then duration else 0
  {
    hide Purchase, RepositoryRejects, LengthSum, DurationSum;
    PurchaseShape(gs, paidOn, duration);
    if Approved(gs, paidOn, duration) {
      ExtendedKeepsChain(gs, paidOn, duration);
      ExtendedSums(gs, paidOn, duration);
    }
  }

  /** The durations of the purchases a run approves. */
  function ApprovedDays(gs: seq<Grant>, es: seq<Event>): int
    decreases |es|
  {
    if es == [] then 0
    else (if es[0].Purchased? && Approved(gs, es[0].paidOn, es[0].duration) then es[0].duration else 0)
         + ApprovedDays(Step(gs, es[0]), es[1..])
  }

  lemma {:induction false} RunKeepsBalance(gs: seq<Grant>, es: seq<Event>)
    requires Chain(gs) && Balanced(gs) && PurchasesOnly(es)
    ensures Chain(Run(gs, es)) && Balanced(Run(gs, es))
    ensures DurationSum(Run(gs, es)) == DurationSum(gs) + ApprovedDays(gs, es)
    decreases |es|
  {
    hide Chain, Balanced, Purchase, RepositoryRejects, DurationSum;
    if es != [] {
      PurchaseKeepsBalance(gs, es[0].paidOn, es[0].duration);
      assert PurchasesOnly(es[1..]);
      RunKeepsBalance(Step(gs, es[0]), es[1..]);
    }
  }

  ghost predicate AtMostOneActive(gs: seq<Grant>) {
    forall i, j, d ::
      0 <= i < j < |gs| && DeriveLifecycle(gs[i], d).Active? ==> !DeriveLifecycle(gs[j], d).Active?
  }

  lemma ChainIsDisjoint(gs: seq<Grant>)
    requires Chain(gs)
    ensures AtMostOneActive(gs)
  {
    forall i, j, d | 0 <= i < j < |gs| && DeriveLifecycle(gs[i], d).Active?
      ensures !DeriveLifecycle(gs[j], d).Active?
    {
      ActiveIsInterval(gs[i], d);
      ActiveIsInterval(gs[j], d);
    }
  }

  /** Main result: over any run of purchases, paid on any days in any order, at most one grant is
      active on each day, and the number of days with an active grant is exactly the sum of the
      durations approved: superseding neither loses nor double-serves a paid day. */
  lemma PaidDaysAreServedOnce(es: seq<Event>)
    requires PurchasesOnly(es)
    ensures AtMostOneActive(Run([], es))
    ensures |ServedDays(Run([], es))| == ApprovedDays([], es)
  {
    hide RepositoryRejects, Step, ApprovedDays;
    RunKeepsBalance([], es);
    var gs := Run([], es);
    ChainIsDisjoint(gs);
    ServedCount(gs);
  }

  /** On every history of purchases the service and the repository accept the same paid days and compute
      the same end date for them. The grant validator accepts these dates exactly for durations of at most
      36470 days: a longer one, though valid, makes it throw whatever the dates. */
  lemma RenewalComputationsAgree(es: seq<Event>, paidOn: Day, duration: int)
    requires PurchasesOnly(es) && ValidDuration(duration)
    ensures
      var gs := Run([], es);
      && (ServiceRejects(gs, paidOn) <==> RepositoryRejects(gs, paidOn))
      && (!ServiceRejects(gs, paidOn) ==>
            && RepositoryEnd(gs, paidOn, duration, ServiceEnd(gs, paidOn, duration))
               == ServiceEnd(gs, paidOn, duration)
            && (ValidGrantDates(paidOn, ServiceEnd(gs, paidOn, duration), duration)
                <==> Grantable(duration)))
  {
    hide ServiceRejects, RepositoryRejects, RepositoryEnd, ServiceEnd, Step;
    RunKeepsBalance([], es);
    var gs := Run([], es);
    RejectionsAgree(gs, paidOn);
    if !RepositoryRejects(gs, paidOn) {
      EndDatesAgree(gs, paidOn, duration);
    }
  }
}
