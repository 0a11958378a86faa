/** The life of a webhook delivery: what each call does to it, the invariant its status and timestamps keep over
    every run, and that its attempts are the claims that took it. */
module FulfilmentDeliveries {
  import opened Fulfilment
  import opened FulfilmentRollback
  import opened FulfilmentRuns
  import opened FulfilmentReplay
  import opened FulfilmentLines
  import opened FulfilmentEffects
  import opened Wrappers

  /** The fields a delivery is recorded with, which no call changes. */
  ghost predicate SameRequest(m: Delivery, n: Delivery) {
    && n.id == m.id && n.org == m.org && n.webhook == m.webhook && n.order == m.order && n.payload == m.payload
  }

  ghost predicate Starts(m: Delivery, n: Delivery, now: Instant) {
    && SameRequest(m, n) && n.status == Processing && n.attempts == m.attempts + 1
    && n.startedAt == Some(now) && n.failure == None && n.processedAt == m.processedAt
  }

  ghost predicate Fails(m: Delivery, n: Delivery, failure: string) {
    && SameRequest(m, n) && n.status == Failed && n.attempts == m.attempts
    && n.startedAt == None && n.failure == Some(failure) && n.processedAt == m.processedAt
  }

  ghost predicate Finishes(m: Delivery, n: Delivery, now: Instant) {
    && SameRequest(m, n) && n.status == Processed && n.attempts == m.attempts
    && n.startedAt == None && n.failure == None && n.processedAt == Some(now)
  }

  /** What a call does to a delivery there is. Only a received or a failed one can be claimed; a finalization
      finishes the one it names if it returns, and touches none if it throws. */
  ghost predicate Moves(s: Store, e: Event, id: Id, m: Delivery, n: Delivery) {
    match e
    case DeliveryClaimed(delivery, now) =>
      if delivery == id && (m.status == Received || m.status == Failed) then Starts(m, n, now) else n == m
    case DeliveryFailed(delivery, failure) => if delivery == id then Fails(m, n, failure) else n == m
    case DeliveryProcessed(delivery, now) => if delivery == id then Finishes(m, n, now) else n == m
    case Finalized(input, env) =>
      if input.delivery == id && Call(s, input, env).Returned? then Finishes(m, n, env.now) else n == m
    case _ => n == m
  }

  lemma FinalizedDeliveries(s: Store, input: Input, env: Env)
    requires Inv(s) && FreshIds(s, input.Classes(), env)
    ensures
      var o := Call(s, input, env);
      if o.Returned? then DeliveryFinished(s.deliveries, o.after.deliveries, input.delivery, env.now)
      else o.after.deliveries == s.deliveries
  {
    var cs := input.Classes();
    assert AreLines(input, cs);
    InvParts(s);
    hide AreLines, Call, FreshIds, Inv, DeliveryFinished, IndexExact, DistinctIds;
    var o := Call(s, input, env);
    if o.Threw? {
      FailedCallChangesNothing(s, input, env);
    } else if o.result.existing {
      hide AnsweredWith, AlreadyDone, Unrivalled, IntentFinished;
      AnsweredExactly(s, input, env, cs);
    } else {
      hide WellFormed, IntentFinished, IsDecisionOf, DecisionIndexed, ProjectionRecorded, Gives, CreationLeft;
      FirstFinalization(s, input, env, cs);
    }
  }

  lemma InvParts(s: Store)
    requires Inv(s)
    ensures IndexExact(s) && DistinctIds(s.metadata)
  {
  }

  lemma FinishedMoves(s: Store, t: Store, input: Input, env: Env, id: Id)
    requires DeliveryFinished(s.deliveries, t.deliveries, input.delivery, env.now) && id in s.deliveries
    ensures id in t.deliveries
    ensures if input.delivery == id then Finishes(s.deliveries[id], t.deliveries[id], env.now)
            else t.deliveries[id] == s.deliveries[id]
  {
  }

  /** One delivery replaced. */
  function Replaced(m: map<Id, Delivery>, delivery: Id, d: Delivery): map<Id, Delivery> {
    m[delivery := d]
  }

  lemma ReplacedAt(m: map<Id, Delivery>, delivery: Id, d: Delivery, id: Id)
    requires id in m
    ensures id in Replaced(m, delivery, d)
    ensures Replaced(m, delivery, d)[id] == if delivery == id then d else m[id]
  {
  }

  lemma ClaimMoves(s: Store, delivery: Id, now: Instant, id: Id)
    requires id in s.deliveries
    ensures
      var t := ClaimDelivery(s, delivery, now);
      && id in t.deliveries
      && if delivery == id && (s.deliveries[id].status == Received || s.deliveries[id].status == Failed)
         then Starts(s.deliveries[id], t.deliveries[id], now)
         else t.deliveries[id] == s.deliveries[id]
  {
    if delivery in s.deliveries {
      var d := s.deliveries[delivery];
      var n := Delivery(d.id, d.org, d.webhook, d.order, d.payload, Processing, d.attempts + 1, None, Some(now),
                        d.processedAt);
      assert Starts(d, n, now);
      hide Starts, Replaced;
      ReplacedAt(s.deliveries, delivery, n, id);
      ClaimReplaces(s, delivery, now, n);
    }
  }

  lemma ClaimReplaces(s: Store, delivery: Id, now: Instant, n: Delivery)
    requires delivery in s.deliveries
    requires n == s.deliveries[delivery].(status := Processing, attempts := s.deliveries[delivery].attempts + 1,
                                          failure := None, startedAt := Some(now))
    ensures ClaimDelivery(s, delivery, now).deliveries ==
            if s.deliveries[delivery].status == Received || s.deliveries[delivery].status == Failed
            then Replaced(s.deliveries, delivery, n) else s.deliveries
  {
  }

  lemma FailureMoves(s: Store, delivery: Id, failure: string, id: Id)
    requires id in s.deliveries
    ensures
      var t := MarkFailed(s, delivery, failure);
      && id in t.deliveries
      && if delivery == id then Fails(s.deliveries[id], t.deliveries[id], failure)
         else t.deliveries[id] == s.deliveries[id]
  {
    if delivery in s.deliveries {
      var d := s.deliveries[delivery];
      var n := Delivery(d.id, d.org, d.webhook, d.order, d.payload, Failed, d.attempts, Some(failure), None,
                        d.processedAt);
      assert Fails(d, n, failure);
      hide Fails, Replaced;
      ReplacedAt(s.deliveries, delivery, n, id);
      FailureReplaces(s, delivery, failure, n);
    }
  }

  lemma FailureReplaces(s: Store, delivery: Id, failure: string, n: Delivery)
    requires delivery in s.deliveries
    requires n == s.deliveries[delivery].(status := Failed, failure := Some(failure), startedAt := None)
    ensures MarkFailed(s, delivery, failure).deliveries == Replaced(s.deliveries, delivery, n)
  {
  }

  lemma ProcessingMoves(s: Store, delivery: Id, now: Instant, id: Id)
    requires id in s.deliveries
    ensures
      var t := MarkProcessed(s, delivery, now);
      && id in t.deliveries
      && if delivery == id then Finishes(s.deliveries[id], t.deliveries[id], now)
         else t.deliveries[id] == s.deliveries[id]
  {
    DeliveryIs(s, delivery, now);
    hide MarkProcessed;
  }

  lemma ReceiptKeeps(s: Store, org: Id, webhook: Id, order: Id, payload: string, freshId: Id, id: Id)
    requires id in s.deliveries && freshId !in s.deliveries
    ensures Get(RecordDelivery(s, org, webhook, order, payload, freshId).0.deliveries, id) == Some(s.deliveries[id])
  {
    ReceivesExactly(s, org, webhook, order, payload, freshId);
    hide RecordDelivery;
  }

  /** The calls that are about something else. */
  lemma OthersKeep(s: Store, e: Event)
    requires e.StatusSet? || e.MetadataInserted? || e.PendingRecorded?
    ensures Step(s, e).deliveries == s.deliveries
  {
    hide Call;
    match e
    case StatusSet(org, entitlement, status, now) =>
      hide SetStatus;
      SetStatusElsewhere(s, org, entitlement, status, now);
    case MetadataInserted(record) => hide MetadataTaken;
    case PendingRecorded(_, _, _, _) =>
  }

  lemma StepMoves(s: Store, e: Event, id: Id)
    requires Inv(s) && Allowed(s, e) && id in s.deliveries
    ensures id in Step(s, e).deliveries && Moves(s, e, id, s.deliveries[id], Step(s, e).deliveries[id])
  {
    hide Inv, Call, FreshIds, Consistent, DeliveryFinished, Finishes, Starts, Fails;
    hide ClaimDelivery, MarkFailed, MarkProcessed, RecordDelivery, SetStatus, InsertMetadata, RecordPending;
    match e
    case Finalized(input, env) =>
      FinalizedDeliveries(s, input, env);
      if Call(s, input, env).Returned? {
        FinishedMoves(s, Call(s, input, env).after, input, env, id);
      }
    case DeliveryClaimed(delivery, now) => ClaimMoves(s, delivery, now, id);
    case DeliveryFailed(delivery, failure) => FailureMoves(s, delivery, failure, id);
    case DeliveryProcessed(delivery, now) => ProcessingMoves(s, delivery, now, id);
    case DeliveryRecorded(org, webhook, order, payload, freshId) =>
      ReceiptKeeps(s, org, webhook, order, payload, freshId, id);
    case _ =>
      hide Step;
      OthersKeep(s, e);
  }

  /** A webhook not seen before gets a new delivery, not yet attempted; one seen before gets none, and conflicts if
      its payload is another. */
  lemma ReceivesExactly(s: Store, org: Id, webhook: Id, order: Id, payload: string, freshId: Id)
    requires freshId !in s.deliveries
    ensures
      var (t, r) := RecordDelivery(s, org, webhook, order, payload, freshId);
      var key := Key(org, webhook);
      if key !in s.deliveriesByWebhook then
        var d := Delivery(freshId, org, webhook, order, payload, Received, 0, None, None, None);
        && r == Recorded.Accepted(d)
        && t.deliveries == s.deliveries[freshId := d]
        && t.deliveriesByWebhook == s.deliveriesByWebhook[key := freshId]
        && t == s.(deliveries := t.deliveries, deliveriesByWebhook := t.deliveriesByWebhook)
      else
        && t == s
        && (s.deliveriesByWebhook[key] in s.deliveries ==>
              var d := s.deliveries[s.deliveriesByWebhook[key]];
              r == if d.payload == payload then Recorded.Duplicate(d) else Recorded.Conflict)
  {
  }

  // ---------------------------------------------------------------------------
  // Over runs
  // ---------------------------------------------------------------------------

  /** A delivery is started exactly while it is being processed and has a failure exactly when it has failed; once
      processed it says when, while received it has not been attempted, and to be processed it must have been. */
  ghost predicate Sound(d: Delivery) {
    && (d.startedAt != None <==> d.status == Processing)
    && (d.failure != None <==> d.status == Failed)
    && (d.status == Processed ==> d.processedAt != None)
    && (d.status == Received ==> d.attempts == 0)
    && (d.status == Processing ==> d.attempts > 0)
  }

  ghost predicate AllSound(s: Store) {
    forall id :: id in s.deliveries ==> Sound(s.deliveries[id])
  }

  lemma MovesSoundly(s: Store, e: Event, id: Id, m: Delivery, n: Delivery)
    requires Sound(m) && Moves(s, e, id, m, n)
    ensures Sound(n)
  {
    hide Call;
  }

  lemma NewDeliveries(s: Store, e: Event, id: Id)
    requires Inv(s) && Allowed(s, e) && id !in s.deliveries && id in Step(s, e).deliveries
    ensures Sound(Step(s, e).deliveries[id])
  {
    hide Inv, Call, FreshIds, Consistent, SetStatus, MetadataTaken;
    match e
    case Finalized(input, env) =>
      FinalizedDeliveries(s, input, env);
      assert false;
    case StatusSet(org, entitlement, status, now) =>
      SetStatusElsewhere(s, org, entitlement, status, now);
      assert false;
    case _ =>
  }

  lemma StepKeepsSound(s: Store, e: Event)
    requires Inv(s) && Allowed(s, e) && AllSound(s)
    ensures AllSound(Step(s, e))
  {
    hide Inv, Allowed, Step, Sound, Moves;
    var t := Step(s, e);
    forall id | id in t.deliveries ensures Sound(t.deliveries[id]) {
      if id in s.deliveries {
        StepMoves(s, e, id);
        MovesSoundly(s, e, id, s.deliveries[id], t.deliveries[id]);
      } else {
        NewDeliveries(s, e, id);
      }
    }
  }

  lemma {:induction false} RunKeepsSound(s: Store, es: seq<Event>)
    requires Inv(s) && AllowedRun(s, es) && AllSound(s)
    ensures AllSound(Run(s, es))
    decreases |es|
  {
    hide Inv, Allowed, Step, AllSound;
    if es != [] {
      StepKeepsSound(s, es[0]);
      StepKeepsInv(s, es[0]);
      RunKeepsSound(Step(s, es[0]), es[1..]);
    }
  }

  /** The claims of a run that found the delivery received or failed. */
  ghost function ClaimsTaken(s: Store, es: seq<Event>, id: Id): nat
    decreases |es|
  {
    if es == [] then 0
    else
      (match es[0]
       case DeliveryClaimed(delivery, _) =>
         if delivery == id && id in s.deliveries
            && (s.deliveries[id].status == Received || s.deliveries[id].status == Failed) then 1 else 0
       case _ => 0)
      + ClaimsTaken(Step(s, es[0]), es[1..], id)
  }

  /** Main result: over every run, a delivery's attempts grow by exactly the claims that took it; and what it was
      recorded with never changes. */
  lemma {:induction false} AttemptsAreClaims(s: Store, es: seq<Event>, id: Id)
    requires Inv(s) && AllowedRun(s, es) && id in s.deliveries
    ensures id in Run(s, es).deliveries
    ensures Run(s, es).deliveries[id].attempts == s.deliveries[id].attempts + ClaimsTaken(s, es, id)
    ensures SameRequest(s.deliveries[id], Run(s, es).deliveries[id])
    decreases |es|
  {
    hide Inv, Allowed, Step, Call;
    if es != [] {
      StepMoves(s, es[0], id);
      StepKeepsInv(s, es[0]);
      AttemptsAreClaims(Step(s, es[0]), es[1..], id);
    }
  }
}
