/** The in-memory membership-commerce repository: maps updated in place, step by step, by
    finalizeDecision, with a snapshot taken first and a hand-written rollback when a step throws.
    Each method is proved to perform exactly the step of module Fulfilment that bears its name. */
module CommerceRepository {
  import opened Fulfilment
  import opened FulfilmentRollback
  import opened Wrappers

  /** The records of the checkout repository that fulfilment reads and writes. */
  class CheckoutRecords {
    var metadata: seq<Metadata>
    var intentStatus: map<Id, DecisionStatus>

    constructor ()
      ensures metadata == [] && intentStatus == map[]
    {
      metadata, intentStatus := [], map[];
    }

    method LinkRegistrationMetadata(c: CreateInput, entitlement: Id)
      modifies this`metadata
      ensures metadata == Link(old(metadata), c, entitlement)
    {
      var i := 0;
      while i < |metadata|
        invariant 0 <= i <= |metadata| && metadata == old(metadata)
        invariant forall j :: 0 <= j < i ==> !Links(metadata[j], c)
      {
        if Links(metadata[i], c) {
          LinkAt(metadata, c, entitlement, i);
          metadata := metadata[i := metadata[i].(entitlement := Some(entitlement))];
          return;
        }
        i := i + 1;
      }
      LinkNone(metadata, c, entitlement);
    }

    method RestoreLinkSnapshot(links: map<Id, Option<Id>>)
      modifies this`metadata
      ensures metadata == RestoreLinks(old(metadata), links)
    {
      var i := 0;
      ghost var target := RestoreLinks(metadata, links);
      hide RestoreLinks;
      while i < |metadata|
        invariant 0 <= i <= |metadata| == |old(metadata)| == |target|
        invariant forall j :: 0 <= j < i ==> metadata[j] == target[j]
        invariant forall j :: i <= j < |metadata| ==> metadata[j] == old(metadata)[j]
      {
        if metadata[i].id in links {
          metadata := metadata[i := metadata[i].(entitlement := links[metadata[i].id])];
        }
        i := i + 1;
      }
    }
  }

  lemma {:induction false} LinkAt(ms: seq<Metadata>, c: CreateInput, e: Id, i: nat)
    requires i < |ms| && Links(ms[i], c) && forall j :: 0 <= j < i ==> !Links(ms[j], c)
    ensures Link(ms, c, e) == ms[i := ms[i].(entitlement := Some(e))]
    decreases i
  {
    hide Links;
    if i > 0 {
      LinkAt(ms[1..], c, e, i - 1);
      assert ms[i := ms[i].(entitlement := Some(e))]
          == [ms[0]] + ms[1..][i - 1 := ms[i].(entitlement := Some(e))];
    } else {
      assert ms[0 := ms[0].(entitlement := Some(e))] == [ms[0].(entitlement := Some(e))] + ms[1..];
    }
  }

  lemma {:induction false} LinkNone(ms: seq<Metadata>, c: CreateInput, e: Id)
    requires forall j :: 0 <= j < |ms| ==> !Links(ms[j], c)
    ensures Link(ms, c, e) == ms
    decreases |ms|
  {
    hide Links;
    if ms != [] {
      LinkNone(ms[1..], c, e);
    }
  }

  /** Membership grants live in another repository, out of reach of the rollback. */
  class GrantRecords {
    var grants: seq<GrantInput>

    constructor ()
      ensures grants == []
    {
      grants := [];
    }
  }

  datatype Attempt = Thrown | Completed(result: Result)

  predicate Performs(a: Attempt, o: Outcome) {
    match o
    case Threw(_) => a.Thrown?
    case Returned(_, r) => a == Completed(r)
  }

  class MembershipCommerceRepository {
    const checkout: CheckoutRecords
    const organizations: GrantRecords
    const hasCheckout: bool
    var deliveries: map<Id, Delivery>
    var deliveriesByWebhook: map<Key, Id>
    var projections: map<Key, Projection>
    var decisions: map<Key, Decision>
    var decisionsByLine: map<Key, Key>
    var decisionsByCheckoutIntent: map<Key, Key>
    var classEntitlements: map<Id, ClassEntitlement>
    var classEntitlementsByLine: map<Key, Id>
    var classEntitlementsByIntent: map<Key, Id>

    function View(): Store
      reads this, checkout, organizations
    {
      Store(deliveries, deliveriesByWebhook, projections, decisions, decisionsByCheckoutIntent, decisionsByLine,
            classEntitlements, classEntitlementsByLine, classEntitlementsByIntent,
            checkout.metadata, checkout.intentStatus, organizations.grants)
    }

    constructor (checkout: CheckoutRecords, organizations: GrantRecords, hasCheckout: bool)
      ensures this.checkout == checkout && this.organizations == organizations && this.hasCheckout == hasCheckout
      ensures View() == Store(map[], map[], map[], map[], map[], map[], map[], map[], map[],
                              checkout.metadata, checkout.intentStatus, organizations.grants)
    {
      this.checkout, this.organizations, this.hasCheckout := checkout, organizations, hasCheckout;
      deliveries, deliveriesByWebhook, projections := map[], map[], map[];
      decisions, decisionsByLine, decisionsByCheckoutIntent := map[], map[], map[];
      classEntitlements, classEntitlementsByLine, classEntitlementsByIntent := map[], map[], map[];
    }

    // -------------------------------------------------------------------------
    // Deliveries and pending decisions
    // -------------------------------------------------------------------------

    method ReceiveDelivery(org: Id, webhook: Id, order: Id, payload: string, freshId: Id) returns (r: Recorded)
      modifies this
      ensures (View(), r) == RecordDelivery(old(View()), org, webhook, order, payload, freshId)
      ensures r.Accepted? <==> Key(org, webhook) !in old(deliveriesByWebhook)
      ensures r.Accepted? ==>
                && freshId in deliveries && deliveries[freshId] == r.delivery && r.delivery.payload == payload
                && Key(org, webhook) in deliveriesByWebhook && deliveriesByWebhook[Key(org, webhook)] == freshId
      ensures r.Duplicate? ==> r.delivery in deliveries.Values && r.delivery.payload == payload
      ensures !r.Accepted? ==> View() == old(View())
    {
      var key := Key(org, webhook);
      if key in deliveriesByWebhook {
        var existingId := deliveriesByWebhook[key];
        if existingId !in deliveries {
          return IndexBroken;
        }
        if deliveries[existingId].payload != payload {
          return Conflict;
        }
        return Duplicate(deliveries[existingId]);
      }
      var delivery := Delivery(freshId, org, webhook, order, payload, Received, 0, None, None, None);
      deliveries := deliveries[freshId := delivery];
      deliveriesByWebhook := deliveriesByWebhook[key := freshId];
      return Accepted(delivery);
    }

    method Claim(deliveryId: Id, now: Instant) returns (claimed: Option<Delivery>)
      modifies this
      ensures View() == ClaimDelivery(old(View()), deliveryId, now)
      ensures claimed == if Claimable(old(View()), deliveryId) then Some(deliveries[deliveryId]) else None
    {
      if deliveryId !in deliveries
         || !(deliveries[deliveryId].status.Received? || deliveries[deliveryId].status.Failed?) {
        return None;
      }
      var delivery := deliveries[deliveryId];
      delivery := delivery.(status := Processing, attempts := delivery.attempts + 1, failure := None,
                            startedAt := Some(now));
      deliveries := deliveries[deliveryId := delivery];
      return Some(delivery);
    }

    method MarkDeliveryFailed(deliveryId: Id, failure: string)
      modifies this
      ensures View() == MarkFailed(old(View()), deliveryId, failure)
    {
      if deliveryId in deliveries {
        deliveries := deliveries[deliveryId :=
          deliveries[deliveryId].(status := Failed, failure := Some(failure), startedAt := None)];
      }
    }

    method MarkDeliveryProcessed(deliveryId: Id, now: Instant)
      modifies this`deliveries
      ensures View() == MarkProcessed(old(View()), deliveryId, now)
    {
      if deliveryId in deliveries {
        deliveries := deliveries[deliveryId :=
          deliveries[deliveryId].(status := Processed, processedAt := Some(now), failure := None, startedAt := None)];
      }
    }

    method RecordPendingDecision(org: Id, order: Id, now: Instant, freshId: Id) returns (decision: Decision)
      modifies this
      ensures View() == RecordPending(old(View()), org, order, now, freshId)
      ensures Key(org, order) in decisions && decision == decisions[Key(org, order)]
    {
      var key := Key(org, order);
      if key in decisions {
        return decisions[key];
      }
      decision := Decision(freshId, org, None, None, order, None, PendingValidation, None, now, now);
      decisions := decisions[key := decision];
    }

    method UpdateClassEntitlementStatus(org: Id, id: Id, status: EntitlementStatus, now: Instant)
      modifies this
      ensures View() == SetStatus(old(View()), org, id, status, now)
    {
      if id in classEntitlements && classEntitlements[id].facts.org == org {
        var record := classEntitlements[id];
        record := record.(facts := record.facts.(status := status), updatedAt := now);
        classEntitlements := classEntitlements[id := record];
      }
    }

    // -------------------------------------------------------------------------
    // Finalization
    // -------------------------------------------------------------------------

    method ResolveTerminalIntent(d: Decision, env: Env) returns (ok: bool)
      requires env.hasCheckout == hasCheckout
      modifies checkout`intentStatus
      ensures ok == !(Resolves(d, env) && env.resolveFails)
      ensures View() == if ok then ResolveIntent(old(View()), d, env) else old(View())
    {
      if !hasCheckout || d.intent.None? || d.intent.value == "" || d.status.PendingValidation? {
        return true;
      }
      if env.resolveFails {
        return false;
      }
      if d.intent.value in checkout.intentStatus {
        checkout.intentStatus := checkout.intentStatus[d.intent.value := d.status];
      }
      return true;
    }

    method ConcludeWith(d: Decision, delivery: Id, env: Env, r: Result) returns (a: Attempt)
      requires env.hasCheckout == hasCheckout
      modifies this`deliveries, checkout`intentStatus
      ensures View() == Conclude(old(View()), d, delivery, env, r).after
      ensures Performs(a, Conclude(old(View()), d, delivery, env, r))
    {
      hide ResolveIntent, MarkProcessed, Resolves;
      var ok := ResolveTerminalIntent(d, env);
      if !ok {
        return Thrown;
      }
      MarkDeliveryProcessed(delivery, env.now);
      return Completed(r);
    }

    method UpsertOrderProjection(p: ProjectionInput)
      modifies this`projections
      ensures View() == UpsertProjection(old(View()), p)
    {
      var key := Key(p.org, p.order);
      var createdAt := if key in projections then projections[key].createdAt else p.updatedAt;
      projections := projections[key :=
        Projection(p.org, p.order, p.customer, p.correlation, p.paidAt, p.currency, createdAt, p.updatedAt)];
    }

    method CreateClassEntitlementUnlocked(c: CreateInput, id: Id, now: Instant)
      returns (created: Option<ClassEntitlement>)
      modifies this`classEntitlements, this`classEntitlementsByLine, this`classEntitlementsByIntent
      ensures created.Some? <==> CreateOne(old(View()), c, id, now).Some?
      ensures created.None? ==> View() == old(View())
      ensures created.Some? ==> (View(), created.value) == CreateOne(old(View()), c, id, now).value
    {
      var lineKey := c.facts.LineKey();
      if lineKey in classEntitlementsByLine && classEntitlementsByLine[lineKey] in classEntitlements {
        var existing := classEntitlements[classEntitlementsByLine[lineKey]];
        if existing.facts != c.facts {
          return None;
        }
        return Some(existing);
      }
      var record := NewEntitlement(c, id, now);
      classEntitlements := classEntitlements[id := record];
      classEntitlementsByLine := classEntitlementsByLine[lineKey := id];
      classEntitlementsByIntent := classEntitlementsByIntent[c.facts.IntentKey() := id];
      return Some(record);
    }

    static ghost function After(made: seq<ClassEntitlement>, rest: Created): Created {
      if rest.CreateThrew? then rest else CreatedAll(rest.after, made + rest.made)
    }

    method CreateClassEntitlements(cs: seq<CreateInput>, env: Env)
      returns (ok: bool, made: seq<ClassEntitlement>)
      requires env.hasCheckout == hasCheckout
      modifies this`classEntitlements, this`classEntitlementsByLine, this`classEntitlementsByIntent, checkout`metadata
      ensures View() == CreateFrom(old(View()), cs, 0, env).after
      ensures ok ==> CreateFrom(old(View()), cs, 0, env) == CreatedAll(View(), made)
      ensures !ok ==> CreateFrom(old(View()), cs, 0, env).CreateThrew?
    {
      hide CreateOne, Link, IdFor;
      made := [];
      var k := 0;
      while k < |cs|
        invariant 0 <= k <= |cs|
        invariant After(made, CreateFrom(View(), cs, k, env)) == CreateFrom(old(View()), cs, 0, env)
        modifies this`classEntitlements, this`classEntitlementsByLine, this`classEntitlementsByIntent,
                 checkout`metadata
      {
        ghost var before := View();
        var created := CreateClassEntitlementUnlocked(cs[k], IdFor(cs[k], k, env), env.now);
        if created.None? {
          return false, made;
        }
        if hasCheckout {
          if k in env.linkFails {
            return false, made;
          }
          checkout.LinkRegistrationMetadata(cs[k], created.value.id);
        }
        AfterOne(made, created.value, CreateFrom(View(), cs, k + 1, env));
        made := made + [created.value];
        k := k + 1;
      }
      ok := true;
    }

    static lemma AfterOne(made: seq<ClassEntitlement>, e: ClassEntitlement, rest: Created)
      ensures After(made + [e], rest)
           == After(made, if rest.CreateThrew? then rest else CreatedAll(rest.after, [e] + rest.made))
    {
      if rest.CreatedAll? {
        assert made + [e] + rest.made == made + ([e] + rest.made);
      }
    }

    method RecordFinalDecision(record: Decision, input: Input, env: Env, made: seq<ClassEntitlement>)
      returns (a: Attempt)
      requires env.hasCheckout == hasCheckout
      modifies this, checkout`intentStatus
      ensures View() == Record(old(View()), record, input, env, made).after
      ensures Performs(a, Record(old(View()), record, input, env, made))
    {
      hide Conclude;
      var d := input.decision;
      decisions := decisions[d.OrderKey() := record];
      if d.IntentKey().Some? {
        decisionsByCheckoutIntent := decisionsByCheckoutIntent[d.IntentKey().value := d.OrderKey()];
      }
      if d.LineKey().Some? {
        decisionsByLine := decisionsByLine[d.LineKey().value := d.OrderKey()];
      }
      assert View() == WriteDecision(old(View()), d, record);
      a := ConcludeWith(record, input.delivery, env, Result(record, made, false));
    }

    /** The projection, then the grant or the entitlements, then the decision. */
    method WriteFinalization(input: Input, env: Env) returns (a: Attempt)
      requires env.hasCheckout == hasCheckout
      modifies this, checkout, organizations
      ensures View() == Write(old(View()), input, env).after
      ensures Performs(a, Write(old(View()), input, env))
    {
      hide UpsertProjection, CreateFrom, Record, NewDecision;
      var cs := input.Classes();
      if !ProjectionMatches(input) {
        return Thrown;
      }
      var record := NewDecision(View(), input.decision, env);
      if input.projection.Some? {
        UpsertOrderProjection(input.projection.value);
      }
      var made := [];
      if input.decision.status.Approved? {
        if input.grant.Some? && |cs| > 0 {
          return Thrown;
        }
        if input.grant.None? && |cs| == 0 {
          return Thrown;
        }
        if input.grant.Some? {
          if !input.grant.value.valid || env.grantFails {
            return Thrown;
          }
          organizations.grants := organizations.grants + [input.grant.value];
        }
        if |cs| > 0 {
          var ok;
          ok, made := CreateClassEntitlements(cs, env);
          if !ok {
            return Thrown;
          }
        }
      } else if input.grant.Some? || |cs| > 0 {
        return Thrown;
      }
      a := RecordFinalDecision(record, input, env, made);
    }

    method FindExistingClasses(org: Id, cs: seq<CreateInput>)
      returns (conflict: bool, complete: bool, found: seq<ClassEntitlement>)
      ensures conflict <==> exists i :: 0 <= i < |cs| && Conflicts(View(), org, cs[i])
      ensures complete <==> forall i :: 0 <= i < |cs| ==> Found(View(), org, cs[i])
      ensures found == FoundAll(View(), org, cs)
    {
      hide FindByOrderLine;
      conflict, complete, found := false, true, [];
      var i := 0;
      while i < |cs|
        invariant 0 <= i <= |cs|
        invariant conflict <==> exists j :: 0 <= j < i && Conflicts(View(), org, cs[j])
        invariant complete <==> forall j :: 0 <= j < i ==> Found(View(), org, cs[j])
        invariant found + FoundAll(View(), org, cs[i..]) == FoundAll(View(), org, cs)
      {
        var existing := FindByOrderLine(View(), org, cs[i].facts.orderLine);
        assert cs[i..][1..] == cs[i + 1..];
        ghost var rest := FoundAll(View(), org, cs[i + 1..]);
        if existing.Some? {
          assert Found(View(), org, cs[i]);
          if existing.value.facts != cs[i].facts {
            conflict := true;
          }
          assert found + ([existing.value] + rest) == found + [existing.value] + rest;
          found := found + [existing.value];
        } else {
          complete := false;
          assert found + ([] + rest) == found + rest;
        }
        i := i + 1;
      }
    }

    method ValidateInput(input: Input) returns (ok: bool)
      ensures ok == !Malformed(input)
    {
      if input.classEntitlement.Some? && input.classEntitlements.Some? {
        return false;
      }
      var cs := input.Classes();
      var i := 0;
      while i < |cs|
        invariant 0 <= i <= |cs|
        invariant forall j :: 0 <= j < i ==> ValidFacts(cs[j].facts)
      {
        if !ValidFacts(cs[i].facts) {
          return false;
        }
        i := i + 1;
      }
      return true;
    }

    method AnswerWithDecision(input: Input, env: Env, order: Key) returns (a: Attempt)
      requires env.hasCheckout == hasCheckout
      modifies this`deliveries, checkout`intentStatus
      ensures View() == AnswerWith(old(View()), input, env, order).after
      ensures Performs(a, AnswerWith(old(View()), input, env, order))
    {
      hide Conclude, FindByOrderLine;
      if order !in decisions {
        return Thrown;
      }
      var line := input.decision.LineKey();
      var found := if line.Some? then FindByOrderLine(View(), line.value.org, line.value.id) else None;
      a := ConcludeWith(decisions[order], input.delivery, env,
                        Result(decisions[order], if found.Some? then [found.value] else [], true));
    }

    method FinalizeDecisionInternal(input: Input, env: Env) returns (a: Attempt)
      requires env.hasCheckout == hasCheckout
      modifies this, checkout, organizations
      ensures View() == Internal(old(View()), input, env).after
      ensures Performs(a, Internal(old(View()), input, env))
    {
      hide Malformed, Conclude, AnswerWith, Write, Found, Conflicts, FoundAll;
      var d := input.decision;
      var wellFormed := ValidateInput(input);
      if !wellFormed {
        return Thrown;
      }
      if d.OrderKey() in decisions && !decisions[d.OrderKey()].status.PendingValidation? {
        var conflict, complete, found := FindExistingClasses(d.org, input.Classes());
        if conflict {
          return Thrown;
        }
        if complete {
          var existing := decisions[d.OrderKey()];
          a := ConcludeWith(existing, input.delivery, env, Result(existing, found, true));
          return;
        }
      }
      var rival := Competing(decisionsByCheckoutIntent, d.IntentKey(), d.OrderKey());
      if rival.Some? {
        a := AnswerWithDecision(input, env, rival.value);
        return;
      }
      var rivalLine := Competing(decisionsByLine, d.LineKey(), d.OrderKey());
      if rivalLine.Some? {
        a := AnswerWithDecision(input, env, rivalLine.value);
        return;
      }
      a := WriteFinalization(input, env);
    }

    // -------------------------------------------------------------------------
    // Rollback
    // -------------------------------------------------------------------------

    method RestoreClassLines(lines: seq<(Key, Option<Id>)>)
      modifies this`classEntitlements, this`classEntitlementsByLine
      ensures View() == RestoreLines(old(View()), lines)
    {
      var i := 0;
      while i < |lines|
        invariant 0 <= i <= |lines|
        invariant RestoreLines(View(), lines[i..]) == RestoreLines(old(View()), lines)
        modifies this`classEntitlements, this`classEntitlementsByLine
      {
        var line := lines[i];
        ghost var before := View();
        assert lines[i..][1..] == lines[i + 1..];
        if line.1.None? {
          if line.0 in classEntitlementsByLine {
            classEntitlements := classEntitlements - {classEntitlementsByLine[line.0]};
          }
        }
        if line.1.Some? {
          classEntitlementsByLine := classEntitlementsByLine[line.0 := line.1.value];
        } else {
          classEntitlementsByLine := classEntitlementsByLine - {line.0};
        }
        assert View() == RestoreLine(before, line);
        i := i + 1;
      }
    }

    method RestoreClassIntents(intents: seq<(Key, Option<Id>)>)
      modifies this`classEntitlementsByIntent
      ensures classEntitlementsByIntent == RestoreIntents(old(classEntitlementsByIntent), intents)
    {
      var i := 0;
      while i < |intents|
        invariant 0 <= i <= |intents|
        invariant RestoreIntents(classEntitlementsByIntent, intents[i..])
               == RestoreIntents(old(classEntitlementsByIntent), intents)
        modifies this`classEntitlementsByIntent
      {
        assert intents[i..][1..] == intents[i + 1..];
        if intents[i].1.Some? {
          classEntitlementsByIntent := classEntitlementsByIntent[intents[i].0 := intents[i].1.value];
        } else {
          classEntitlementsByIntent := classEntitlementsByIntent - {intents[i].0};
        }
        i := i + 1;
      }
    }

    method RestoreDecisionMaps(snapshot: Snapshot, d: DecisionInput)
      modifies this`projections, this`decisions
      ensures projections == Put(old(projections), d.OrderKey(), snapshot.projection)
      ensures decisions == Put(old(decisions), d.OrderKey(), snapshot.decision)
    {
      var key := d.OrderKey();
      if snapshot.projection.Some? {
        projections := projections[key := snapshot.projection.value];
      } else {
        projections := projections - {key};
      }
      if snapshot.decision.Some? {
        decisions := decisions[key := snapshot.decision.value];
      } else {
        decisions := decisions - {key};
      }
    }

    method RestoreDecisionIndexes(snapshot: Snapshot, ik: Option<Key>, lk: Option<Key>)
      modifies this`decisionsByCheckoutIntent, this`decisionsByLine
      ensures decisionsByCheckoutIntent ==
              if ik.Some? then Put(old(decisionsByCheckoutIntent), ik.value, snapshot.intentDecision)
              else old(decisionsByCheckoutIntent)
      ensures decisionsByLine ==
              if lk.Some? then Put(old(decisionsByLine), lk.value, snapshot.lineDecision) else old(decisionsByLine)
    {
      if ik.Some? {
        if snapshot.intentDecision.Some? {
          decisionsByCheckoutIntent := decisionsByCheckoutIntent[ik.value := snapshot.intentDecision.value];
        } else {
          decisionsByCheckoutIntent := decisionsByCheckoutIntent - {ik.value};
        }
      }
      if lk.Some? {
        if snapshot.lineDecision.Some? {
          decisionsByLine := decisionsByLine[lk.value := snapshot.lineDecision.value];
        } else {
          decisionsByLine := decisionsByLine - {lk.value};
        }
      }
    }

    method RollbackEntitlements(snapshot: Snapshot)
      modifies this`classEntitlements, this`classEntitlementsByLine, this`classEntitlementsByIntent, checkout`metadata
      ensures View() == RestoreEntitlements(old(View()), snapshot)
    {
      hide RestoreLines, RestoreIntents, RestoreLinks;
      RestoreLinesReach(View(), snapshot.lines);
      RestoreClassLines(snapshot.lines);
      RestoreClassIntents(snapshot.intents);
      checkout.RestoreLinkSnapshot(snapshot.links);
    }

    method RollbackDecisions(snapshot: Snapshot, input: Input)
      modifies this
      ensures View() == RestoreDecisions(old(View()), snapshot, input)
    {
      hide Put, DecisionInput.OrderKey, DecisionInput.IntentKey, DecisionInput.LineKey;
      RestoreDecisionMaps(snapshot, input.decision);
      RestoreDecisionIndexes(snapshot, input.decision.IntentKey(), input.decision.LineKey());
      if snapshot.delivery.Some? {
        deliveries := deliveries[input.delivery := snapshot.delivery.value];
      }
    }

    method Rollback(snapshot: Snapshot, input: Input)
      modifies this, checkout`metadata
      ensures View() == Restore(old(View()), snapshot, input)
    {
      hide RestoreEntitlements, RestoreDecisions;
      RollbackEntitlements(snapshot);
      RollbackDecisions(snapshot, input);
    }

    /** One finalization: on any throw, roll back and rethrow.  What the caller sees is the atomic step
        `Call`; and when it throws, from a store whose line index is exact and with fresh ids, every field
        is what it was before the call. */
    method FinalizeDecisionAtomically(input: Input, env: Env) returns (a: Attempt)
      requires env.hasCheckout == hasCheckout
      modifies this, checkout, organizations
      ensures View() == Call(old(View()), input, env).after
      ensures Performs(a, Call(old(View()), input, env))
      ensures a.Thrown? && IndexExact(old(View())) && DistinctIds(old(View()).metadata)
              && FreshIds(old(View()), input.Classes(), env) ==>
                View() == old(View()).(grants := organizations.grants)
    {
      hide Internal, Restore, Take, IndexExact, DistinctIds, FreshIds, GrantOutlivesRollback;
      ghost var before := View();
      var snapshot := Take(View(), input, env);
      a := FinalizeDecisionInternal(input, env);
      if a.Thrown? {
        Rollback(snapshot, input);
        if IndexExact(before) && DistinctIds(before.metadata) && FreshIds(before, input.Classes(), env) {
          FailedCallChangesNothing(before, input, env);
        }
      }
    }
  }

  lemma {:induction false} RestoreLinesReach(s: Store, lines: seq<(Key, Option<Id>)>)
    ensures
      var r := RestoreLines(s, lines);
      r == s.(entitlements := r.entitlements, entitlementsByLine := r.entitlementsByLine)
    decreases |lines|
  {
    hide RestoreLine;
    if lines != [] {
      RestoreLineReach(s, lines[0]);
      RestoreLinesReach(RestoreLine(s, lines[0]), lines[1..]);
    }
  }
}
