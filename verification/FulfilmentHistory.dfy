/** Replays and redeliveries at any later time: what a finalization or a webhook meets when it comes again after
    any run of other calls. */
module FulfilmentHistory {
  import opened Wrappers
  import opened Fulfilment
  import opened FulfilmentRollback
  import opened FulfilmentRuns
  import opened FulfilmentReplay

  // ---------------------------------------------------------------------------
  // A final decision stays final
  // ---------------------------------------------------------------------------

  lemma RecordedTerminal(s: Store, t: Store, record: Decision, input: Input, o: Outcome, k: Key)
    requires RecordedOver(s, t, record, input, o) && IsTerminal(s, k)
    requires k == input.decision.OrderKey() ==> !record.status.PendingValidation?
    ensures IsTerminal(o.after, k)
  {
  }

  /** A call that writes over a final decision approves: a call without entitlements would be a replay. */
  lemma WriteOverFinalApproves(s: Store, input: Input, env: Env, t: Store)
    requires IsTerminal(s, input.decision.OrderKey()) && !IsReplay(s, input) && WroteOver(s, input, env, t)
    ensures input.decision.status.Approved?
  {
    hide Write, RecordedOver, SameCore, CreateFrom, Project;
  }

  lemma InternalKeepsTerminal(s: Store, input: Input, env: Env, k: Key)
    requires IsTerminal(s, k) && Internal(s, input, env).Returned?
    ensures IsTerminal(Internal(s, input, env).after, k)
  {
    hide Internal, Malformed, ReplayConflicts, Write, Competing, RecordedOver, CreateFrom, Project, IsReplay, WroteOver;
    var path := InternalPath(s, input, env);
    if path.Wrote? {
      var t := WriteShape(s, input, env);
      RecordIsOfInput(s, input, env);
      if k == input.decision.OrderKey() {
        WriteOverFinalApproves(s, input, env, t);
      }
      WroteIsRecorded(s, input, env, t);
      RecordedTerminal(s, t, NewDecision(s, input.decision, env), input, Write(s, input, env), k);
    } else {
      CoreDecisions(s, Internal(s, input, env).after);
    }
  }

  lemma WroteIsRecorded(s: Store, input: Input, env: Env, t: Store)
    requires WroteOver(s, input, env, t)
    ensures RecordedOver(s, t, NewDecision(s, input.decision, env), input, Write(s, input, env))
  {
    hide Write, RecordedOver, CreateFrom, Project, NewDecision;
  }

  lemma CallKeepsTerminal(s: Store, input: Input, env: Env, k: Key)
    requires Inv(s) && FreshIds(s, input.Classes(), env) && IsTerminal(s, k)
    ensures IsTerminal(Call(s, input, env).after, k)
  {
    hide Internal, Restore, FreshIds, IndexExact, DistinctIds, Owned, DecisionsIndexed, IntentIndexExact;
    hide GrantOutlivesRollback;
    if Internal(s, input, env).Threw? {
      FailedCallChangesNothing(s, input, env);
    } else {
      InternalKeepsTerminal(s, input, env, k);
    }
  }

  lemma StepKeepsTerminal(s: Store, e: Event, k: Key)
    requires Inv(s) && Allowed(s, e) && IsTerminal(s, k)
    ensures IsTerminal(Step(s, e), k)
  {
    hide Inv, Call, SetStatus, InsertMetadata, RecordDelivery, ClaimDelivery, MarkFailed, MarkProcessed, SameCore;
    match e
    case Finalized(input, env) => CallKeepsTerminal(s, input, env, k);
    case StatusSet(org, entitlement, status, now) => SetStatusElsewhere(s, org, entitlement, status, now);
    case MetadataInserted(record) => InsertMetadataKeepsRest(s, record);
    case PendingRecorded(org, order, now, freshId) =>
    case DeliveryRecorded(org, webhook, order, payload, freshId) =>
      ReceiptKeepsCore(s, org, webhook, order, payload, freshId);
      CoreDecisions(s, Step(s, e));
    case DeliveryClaimed(delivery, now) =>
      ClaimKeepsCore(s, delivery, now);
      CoreDecisions(s, Step(s, e));
    case DeliveryFailed(delivery, failure) =>
      FailureKeepsCore(s, delivery, failure);
      CoreDecisions(s, Step(s, e));
    case DeliveryProcessed(delivery, now) =>
      ProcessedKeepsCore(s, delivery, now);
      CoreDecisions(s, Step(s, e));
  }

  /** A decision with a final status never goes back to pending. */
  lemma {:induction false} FinalStaysFinal(s: Store, es: seq<Event>, k: Key)
    requires Inv(s) && AllowedRun(s, es) && IsTerminal(s, k)
    ensures IsTerminal(Run(s, es), k)
    decreases |es|
  {
    hide Inv, Step, Allowed, IsTerminal;
    if es != [] {
      StepKeepsInv(s, es[0]);
      StepKeepsTerminal(s, es[0], k);
      FinalStaysFinal(Step(s, es[0]), es[1..], k);
    }
  }

  // ---------------------------------------------------------------------------
  // Replay at any later time
  // ---------------------------------------------------------------------------

  /** Every line of the input still has the status the input gives it. */
  ghost predicate StatusesStand(u: Store, cs: seq<CreateInput>) {
    forall i :: 0 <= i < |cs| ==>
      && Indexed(u, cs[i].facts.LineKey()).Some?
      && Indexed(u, cs[i].facts.LineKey()).value.facts.status == cs[i].facts.status
  }

  /** The entitlements the lines of the input lead to now. */
  function Present(u: Store, cs: seq<CreateInput>): seq<ClassEntitlement>
    requires forall i :: 0 <= i < |cs| ==> Indexed(u, cs[i].facts.LineKey()).Some?
  {
    seq(|cs|, i requires 0 <= i < |cs| => Indexed(u, cs[i].facts.LineKey()).value)
  }

  lemma StillThere(t: Store, u: Store, c: CreateInput, e: ClassEntitlement)
    requires IndexExact(t) && IndexExact(u) && LinesKept(t, u)
    requires Indexed(t, c.facts.LineKey()) == Some(e) && e.facts == c.facts
    ensures
      var now := Indexed(u, c.facts.LineKey());
      now.Some? && now.value.id == e.id && SameButStatus(c.facts, now.value.facts)
  {
    hide SameButStatus;
    var k := c.facts.LineKey();
    assert k in t.entitlementsByLine && k in u.entitlementsByLine;
  }

  lemma AllStillThere(t: Store, u: Store, input: Input, made: seq<ClassEntitlement>)
    requires IndexExact(t) && IndexExact(u) && LinesKept(t, u) && Settled(t, input, made)
    ensures forall i :: 0 <= i < |made| ==>
              var now := Indexed(u, input.Classes()[i].facts.LineKey());
              now.Some? && now.value.id == made[i].id && SameButStatus(input.Classes()[i].facts, now.value.facts)
  {
    hide IndexExact, LinesKept, Malformed, SameButStatus, Indexed;
    forall i | 0 <= i < |made|
      ensures
        var now := Indexed(u, input.Classes()[i].facts.LineKey());
        now.Some? && now.value.id == made[i].id && SameButStatus(input.Classes()[i].facts, now.value.facts)
    {
      StillThere(t, u, input.Classes()[i], made[i]);
    }
  }

  lemma ChangedStatusConflicts(u: Store, input: Input, i: nat)
    requires Consistent(input) && IsTerminal(u, input.decision.OrderKey()) && i < |input.Classes()|
    requires Indexed(u, input.Classes()[i].facts.LineKey()).Some?
    requires SameButStatus(input.Classes()[i].facts, Indexed(u, input.Classes()[i].facts.LineKey()).value.facts)
    requires Indexed(u, input.Classes()[i].facts.LineKey()).value.facts.status != input.Classes()[i].facts.status
    ensures ReplayConflicts(u, input)
  {
    var c := input.Classes()[i];
    FoundIsIndexed(u, input.decision.org, c.facts.orderLine);
    assert Conflicts(u, input.decision.org, c);
    hide IsTerminal, Conflicts;
  }

  /** A conflicting replay throws before it writes. */
  lemma ConflictThrows(u: Store, input: Input, env: Env)
    requires IndexExact(u) && DistinctIds(u.metadata) && ReplayConflicts(u, input)
    ensures Call(u, input, env) == Threw(u)
  {
    hide Malformed, IsReplay, Competing, Write, AnswerWith, Conclude, Restore, Take, IndexExact, ReplayConflicts;
    hide Disturbed, DistinctIds;
    assert Internal(u, input, env) == Threw(u);
    hide Internal;
    NothingDisturbed(u, input);
    RestoreUndoes(u, u, input, env);
  }

  lemma StandingReplays(u: Store, input: Input, env: Env)
    requires !Malformed(input) && Consistent(input) && !env.resolveFails && IsTerminal(u, input.decision.OrderKey())
    requires forall i :: 0 <= i < |input.Classes()| ==>
               && Indexed(u, input.Classes()[i].facts.LineKey()).Some?
               && SameButStatus(input.Classes()[i].facts, Indexed(u, input.Classes()[i].facts.LineKey()).value.facts)
    requires StatusesStand(u, input.Classes())
    ensures
      var again := Call(u, input, env);
      && again.Returned? && again.result.existing
      && again.result.classEntitlements == Present(u, input.Classes())
      && SameFulfilment(u, again.after)
  {
    hide Malformed, Consistent, Indexed, Internal, SameFulfilment;
    DecidedReplays(u, input, env, Present(u, input.Classes()));
    ReturnedCall(u, input, env);
  }

  /** Every line of the input leads to the entitlement made for it, with its facts but perhaps not its status. */
  ghost predicate LinesFound(u: Store, cs: seq<CreateInput>, made: seq<ClassEntitlement>) {
    && |made| == |cs|
    && forall i :: 0 <= i < |cs| ==>
         && Indexed(u, cs[i].facts.LineKey()).Some?
         && Indexed(u, cs[i].facts.LineKey()).value.id == made[i].id
         && SameButStatus(cs[i].facts, Indexed(u, cs[i].facts.LineKey()).value.facts)
  }

  /** What replaying the input does now. */
  ghost predicate ReplayAnswers(u: Store, input: Input, env: Env)
    requires forall i :: 0 <= i < |input.Classes()| ==> Indexed(u, input.Classes()[i].facts.LineKey()).Some?
  {
    var second := Call(u, input, env);
    if StatusesStand(u, input.Classes()) then
      && second.Returned? && second.result.existing
      && second.result.classEntitlements == Present(u, input.Classes())
      && SameFulfilment(u, second.after)
    else second == Threw(u)
  }

  lemma FoundLinesReplay(u: Store, input: Input, made: seq<ClassEntitlement>, env: Env)
    requires Inv(u) && Consistent(input) && !Malformed(input) && !env.resolveFails
    requires IsTerminal(u, input.decision.OrderKey()) && LinesFound(u, input.Classes(), made)
    ensures ReplayAnswers(u, input, env)
  {
    hide Call, Consistent, SameFulfilment, Indexed, SameButStatus, Malformed, IsTerminal;
    hide IndexExact, IntentIndexExact, DecisionsIndexed, Owned, DistinctIds;
    var cs := input.Classes();
    if StatusesStand(u, cs) {
      StandingReplays(u, input, env);
    } else {
      var i :| 0 <= i < |cs| && Indexed(u, cs[i].facts.LineKey()).value.facts.status != cs[i].facts.status;
      ChangedStatusConflicts(u, input, i);
      ConflictThrows(u, input, env);
    }
  }

  /** Main result: a finalization with a final status that has written, replayed after any run of other calls,
      finds its lines under the same entitlement ids. If every line still has the status it was finalized with,
      the replay answers with those entitlements as existing and writes no map of fulfilment; and if the status
      of some line has been changed, it throws and changes nothing. */
  lemma LaterReplay(s: Store, input: Input, env: Env, es: seq<Event>, again: Env)
    requires Inv(s) && Consistent(input) && FreshIds(s, input.Classes(), env)
    requires !input.decision.status.PendingValidation? && !again.resolveFails
    requires Call(s, input, env).Returned? && !Call(s, input, env).result.existing
    requires AllowedRun(Call(s, input, env).after, es)
    ensures
      var u := Run(Call(s, input, env).after, es);
      && LinesFound(u, input.Classes(), Call(s, input, env).result.classEntitlements)
      && ReplayAnswers(u, input, again)
  {
    var t := Call(s, input, env).after;
    var made := Call(s, input, env).result.classEntitlements;
    WrittenSettles(s, input, env);
    CallKeepsInv(s, input, env);
    hide Call, FreshIds, Consistent, Indexed, SameButStatus, LinesKept, Malformed, IsTerminal, ReplayAnswers;
    hide IndexExact, IntentIndexExact, DecisionsIndexed, Owned, DistinctIds, Run, AllowedRun;
    RunKeepsInv(t, es);
    RunKeepsLines(t, es);
    FinalStaysFinal(t, es, input.decision.OrderKey());
    AllStillThere(t, Run(t, es), input, made);
    FoundLinesReplay(Run(t, es), input, made, again);
  }

  // ---------------------------------------------------------------------------
  // Webhooks
  // ---------------------------------------------------------------------------

  /** The webhook leads to a delivery with this payload. */
  ghost predicate Known(s: Store, webhook: Key, delivery: Id, payload: string) {
    && webhook in s.deliveriesByWebhook && s.deliveriesByWebhook[webhook] == delivery
    && delivery in s.deliveries && s.deliveries[delivery].payload == payload
  }

  lemma CallKeepsKnown(s: Store, input: Input, env: Env, webhook: Key, delivery: Id, payload: string)
    requires Inv(s) && FreshIds(s, input.Classes(), env) && Known(s, webhook, delivery, payload)
    ensures Known(Call(s, input, env).after, webhook, delivery, payload)
  {
    hide Internal, Restore, FreshIds, IndexExact, DistinctIds, Owned, DecisionsIndexed, IntentIndexExact;
    hide GrantOutlivesRollback;
    if Internal(s, input, env).Threw? {
      FailedCallChangesNothing(s, input, env);
    } else {
      InternalProcesses(s, input, env);
    }
  }

  lemma StepKeepsKnown(s: Store, e: Event, webhook: Key, delivery: Id, payload: string)
    requires Inv(s) && Allowed(s, e) && Known(s, webhook, delivery, payload)
    ensures Known(Step(s, e), webhook, delivery, payload)
  {
    hide Inv, Call, SetStatus, InsertMetadata, RecordPending;
    match e
    case Finalized(input, env) => CallKeepsKnown(s, input, env, webhook, delivery, payload);
    case StatusSet(org, entitlement, status, now) => SetStatusElsewhere(s, org, entitlement, status, now);
    case MetadataInserted(record) => InsertMetadataKeepsRest(s, record);
    case PendingRecorded(org, order, now, freshId) => PendingKeepsRest(s, org, order, now, freshId);
    case _ =>
  }

  /** The webhook index never loses a key, and the payload of a delivery never changes. */
  lemma {:induction false} RunKeepsKnown(s: Store, es: seq<Event>, webhook: Key, delivery: Id, payload: string)
    requires Inv(s) && AllowedRun(s, es) && Known(s, webhook, delivery, payload)
    ensures Known(Run(s, es), webhook, delivery, payload)
    decreases |es|
  {
    hide Inv, Step, Allowed, Known;
    if es != [] {
      StepKeepsInv(s, es[0]);
      StepKeepsKnown(s, es[0], webhook, delivery, payload);
      RunKeepsKnown(Step(s, es[0]), es[1..], webhook, delivery, payload);
    }
  }

  lemma ReceiptIsKnown(s: Store, org: Id, webhook: Id, order: Id, payload: string, first: Id)
    requires Inv(s) && first !in s.deliveries && Key(org, webhook) !in s.deliveriesByWebhook
    ensures
      var (t, r) := RecordDelivery(s, org, webhook, order, payload, first);
      r.Accepted? && Inv(t) && Known(t, Key(org, webhook), first, payload)
  {
    hide Inv;
    StepKeepsInv(s, DeliveryRecorded(org, webhook, order, payload, first));
  }

  /** A webhook received again, after any run of other calls, is recognized: same payload, same delivery as it
      then is; other payload, conflict; and either way nothing is stored. */
  lemma RedeliveryIsRecognized(s: Store, org: Id, webhook: Id, order: Id, payload: string, first: Id,
                               es: seq<Event>, order': Id, payload': string, second: Id)
    requires Inv(s) && first !in s.deliveries && Key(org, webhook) !in s.deliveriesByWebhook
    requires AllowedRun(RecordDelivery(s, org, webhook, order, payload, first).0, es)
    ensures
      var u := Run(RecordDelivery(s, org, webhook, order, payload, first).0, es);
      var (v, q) := RecordDelivery(u, org, webhook, order', payload', second);
      && v == u && first in u.deliveries
      && q == if payload' == payload then Duplicate(u.deliveries[first]) else Conflict
  {
    ReceiptIsKnown(s, org, webhook, order, payload, first);
    var t := RecordDelivery(s, org, webhook, order, payload, first).0;
    hide Inv, Run, AllowedRun;
    RunKeepsKnown(t, es, Key(org, webhook), first, payload);
  }
}
