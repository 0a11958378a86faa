/** Replays: an immediate replay adds nothing, approval is final, and an order line keeps the entitlement it
    was first given. Module FulfilmentHistory is about replays at any later time. */
module FulfilmentReplay {
  import opened Fulfilment
  import opened FulfilmentRollback
  import opened FulfilmentRuns
  import opened Wrappers

  // ---------------------------------------------------------------------------
  // The result of a completed write
  // ---------------------------------------------------------------------------

  /** The three decision maps after recording, and everything the last two steps leave alone. */
  ghost predicate RecordedOver(s: Store, t: Store, record: Decision, input: Input, o: Outcome) {
    && o.Returned?
    && SameCore(WriteDecision(t, input.decision, record), o.after)
    && o.after.projections == t.projections
    && t.decisions == s.decisions && t.decisionsByIntent == s.decisionsByIntent
    && t.decisionsByLine == s.decisionsByLine
    && t.projections == Project(s, input).projections
    && o.result.decision == record && !o.result.existing
  }

  lemma RecordShape(s: Store, t: Store, record: Decision, input: Input, env: Env, made: seq<ClassEntitlement>)
    requires Record(t, record, input, env, made).Returned?
    requires t.decisions == s.decisions && t.decisionsByIntent == s.decisionsByIntent
    requires t.decisionsByLine == s.decisionsByLine && t.projections == Project(s, input).projections
    ensures RecordedOver(s, t, record, input, Record(t, record, input, env, made))
    ensures Record(t, record, input, env, made).result.classEntitlements == made
  {
    hide SameCore, Conclude, Project, WriteDecision;
    var u := WriteDecision(t, input.decision, record);
    ConcludeKeepsCore(u, record, input.delivery, env, Result(record, made, false));
    WriteDecisionKeepsRest(t, input.decision, record);
  }

  /** A completed write records over the projected store, with or without created entitlements. */
  ghost predicate WroteOver(s: Store, input: Input, env: Env, t: Store) {
    var o := Write(s, input, env);
    && RecordedOver(s, t, NewDecision(s, input.decision, env), input, o)
    && (if input.Classes() == [] then
          && SameCore(s, t)
          && o.result.classEntitlements == []
        else
          var r := CreateFrom(Project(s, input), input.Classes(), 0, env);
          && input.decision.status.Approved?
          && r.CreatedAll? && t == r.after && o.result.classEntitlements == r.made)
  }

  lemma {:induction false} CreateFromKeepsDecisions(s: Store, cs: seq<CreateInput>, k: nat, env: Env)
    requires k <= |cs|
    ensures SameElsewhere(s, CreateFrom(s, cs, k, env).after)
    decreases |cs| - k
  {
    hide CreateOne, IdFor, Link;
    if k < |cs| {
      var one := CreateOne(s, cs[k], IdFor(cs[k], k, env), env.now);
      CreateOneElsewhere(s, cs[k], IdFor(cs[k], k, env), env.now);
      if one.Some? && !(env.hasCheckout && k in env.linkFails) {
        var t := one.value.0;
        CreateFromKeepsDecisions(
          if env.hasCheckout then t.(metadata := Link(t.metadata, cs[k], one.value.1.id)) else t, cs, k + 1, env);
      }
    }
  }

  lemma CreateOneElsewhere(s: Store, c: CreateInput, id: Id, now: Instant)
    ensures CreateOne(s, c, id, now).Some? ==> SameElsewhere(s, CreateOne(s, c, id, now).value.0)
  {
  }

  lemma WriteShape(s: Store, input: Input, env: Env) returns (t: Store)
    requires Write(s, input, env).Returned?
    ensures WroteOver(s, input, env, t)
  {
    hide Project, NewDecision, CreateFrom, Record, SameCore, RecordedOver;
    var p := Project(s, input);
    var record := NewDecision(s, input.decision, env);
    ProjectKeepsCore(s, input);
    assert p.decisions == s.decisions && p.decisionsByIntent == s.decisionsByIntent
        && p.decisionsByLine == s.decisionsByLine by { CoreDecisions(s, p); }
    if input.decision.status.Approved? && input.grant.Some? {
      t := p.(grants := p.grants + [input.grant.value]);
      SameCoreGrants(s, p, t);
      RecordShape(s, t, record, input, env, []);
    } else if input.decision.status.Approved? {
      var r := CreateFrom(p, input.Classes(), 0, env);
      t := r.after;
      CreateFromKeepsDecisions(p, input.Classes(), 0, env);
      RecordShape(s, t, record, input, env, r.made);
    } else {
      t := p;
      RecordShape(s, t, record, input, env, []);
    }
  }

  lemma CoreDecisions(s: Store, t: Store)
    requires SameCore(s, t)
    ensures t.decisions == s.decisions && t.decisionsByIntent == s.decisionsByIntent
    ensures t.decisionsByLine == s.decisionsByLine
  {
  }

  /** How a call that returns got there. */
  datatype Path = Replayed | Answered | Wrote

  lemma InternalPath(s: Store, input: Input, env: Env) returns (path: Path)
    requires Internal(s, input, env).Returned?
    ensures !Malformed(input) && !ReplayConflicts(s, input)
    ensures path == (if IsReplay(s, input) then Replayed
                     else if Competing(s.decisionsByIntent, input.decision.IntentKey(), input.decision.OrderKey()).Some?
                       || Competing(s.decisionsByLine, input.decision.LineKey(), input.decision.OrderKey()).Some?
                     then Answered else Wrote)
    ensures path.Replayed? || path.Answered? ==> SameCore(s, Internal(s, input, env).after)
    ensures path.Replayed? || path.Answered? ==> Internal(s, input, env).after.projections == s.projections
    ensures path.Replayed? || path.Answered? ==> Internal(s, input, env).result.existing
    ensures path.Wrote? ==> Internal(s, input, env) == Write(s, input, env)
  {
    hide Malformed, ReplayConflicts, Competing, Write, SameCore, Conclude, FoundAll, AnswerWith;
    var d := input.decision;
    if IsReplay(s, input) {
      path := Replayed;
      var existing := s.decisions[d.OrderKey()];
      ConcludeKeepsCore(s, existing, input.delivery, env, Result(existing, FoundAll(s, d.org, input.Classes()), true));
    } else if Competing(s.decisionsByIntent, d.IntentKey(), d.OrderKey()).Some?
           || Competing(s.decisionsByLine, d.LineKey(), d.OrderKey()).Some? {
      path := Answered;
      AnswerShape(s, input, env);
    } else {
      path := Wrote;
    }
  }

  lemma AnswerShape(s: Store, input: Input, env: Env)
    ensures forall order :: AnswerWith(s, input, env, order).Returned? ==>
              && SameCore(s, AnswerWith(s, input, env, order).after)
              && AnswerWith(s, input, env, order).after.projections == s.projections
              && AnswerWith(s, input, env, order).result.existing
  {
    forall order | AnswerWith(s, input, env, order).Returned?
      ensures SameCore(s, AnswerWith(s, input, env, order).after)
      ensures AnswerWith(s, input, env, order).after.projections == s.projections
      ensures AnswerWith(s, input, env, order).result.existing
    {
      hide SameCore, Conclude, FindByOrderLine;
      var line := input.decision.LineKey();
      var found := if line.Some? then FindByOrderLine(s, line.value.org, line.value.id) else None;
      ConcludeKeepsCore(s, s.decisions[order], input.delivery, env,
                        Result(s.decisions[order], if found.Some? then [found.value] else [], true));
    }
  }

  // ---------------------------------------------------------------------------
  // Approval is final
  // ---------------------------------------------------------------------------

  ghost predicate ApprovedIn(s: Store, k: Key) {
    k in s.decisions && s.decisions[k].status.Approved?
  }

  lemma RecordedApproval(s: Store, t: Store, record: Decision, input: Input, o: Outcome, k: Key)
    requires RecordedOver(s, t, record, input, o) && ApprovedIn(s, k)
    requires k == input.decision.OrderKey() ==> record.status.Approved?
    ensures ApprovedIn(o.after, k)
  {
  }

  lemma InternalKeepsApproval(s: Store, input: Input, env: Env, k: Key)
    requires ApprovedIn(s, k) && Internal(s, input, env).Returned?
    ensures ApprovedIn(Internal(s, input, env).after, k)
  {
    hide Internal, Malformed, ReplayConflicts, Write, Competing, RecordedOver, CreateFrom, Project;
    var path := InternalPath(s, input, env);
    if path.Wrote? {
      var t := WriteShape(s, input, env);
      RecordIsOfInput(s, input, env);
      RecordedApproval(s, t, NewDecision(s, input.decision, env), input, Write(s, input, env), k);
    }
  }

  /** An approved decision stays approved, whatever is called next. */
  lemma ApprovalIsFinal(s: Store, e: Event, k: Key)
    requires Inv(s) && Allowed(s, e) && ApprovedIn(s, k)
    ensures ApprovedIn(Step(s, e), k)
  {
    hide Inv, Call, SetStatus, InsertMetadata, RecordDelivery, ClaimDelivery, MarkFailed, MarkProcessed, SameCore;
    match e
    case Finalized(input, env) => CallKeepsApproval(s, input, env, k);
    case StatusSet(org, entitlement, status, now) => SetStatusElsewhere(s, org, entitlement, status, now);
    case MetadataInserted(record) => InsertMetadataKeepsRest(s, record);
    case PendingRecorded(org, order, now, freshId) =>
    case DeliveryRecorded(org, webhook, order, payload, freshId) =>
      ReceiptKeepsCore(s, org, webhook, order, payload, freshId);
      CoreDecisions(s, Step(s, e));
    case DeliveryClaimed(delivery, now) =>
      ClaimKeepsCore(s, delivery, now);
      CoreDecisions(s, Step(s, e));
    case DeliveryFailed(delivery, failure) =>
      FailureKeepsCore(s, delivery, failure);
      CoreDecisions(s, Step(s, e));
    case DeliveryProcessed(delivery, now) =>
      ProcessedKeepsCore(s, delivery, now);
      CoreDecisions(s, Step(s, e));
  }

  lemma CallKeepsApproval(s: Store, input: Input, env: Env, k: Key)
    requires Inv(s) && FreshIds(s, input.Classes(), env) && ApprovedIn(s, k)
    ensures ApprovedIn(Call(s, input, env).after, k)
  {
    hide Internal, Restore, FreshIds, IndexExact, DistinctIds, Owned, DecisionsIndexed, IntentIndexExact;
    hide GrantOutlivesRollback;
    if Internal(s, input, env).Threw? {
      FailedCallChangesNothing(s, input, env);
    } else {
      InternalKeepsApproval(s, input, env, k);
    }
  }

  // ---------------------------------------------------------------------------
  // A line keeps its entitlement
  // ---------------------------------------------------------------------------

  /** Same facts, up to the status an administrator may set. */
  ghost predicate SameButStatus(f: Facts, g: Facts) {
    g == f.(status := g.status)
  }

  ghost predicate LinesKept(s: Store, t: Store) {
    && Extends(s.entitlementsByLine, t.entitlementsByLine)
    && forall id :: id in s.entitlements ==>
         id in t.entitlements && SameButStatus(s.entitlements[id].facts, t.entitlements[id].facts)
  }

  lemma SameLinesKept(s: Store, t: Store)
    requires t.entitlements == s.entitlements && t.entitlementsByLine == s.entitlementsByLine
    ensures LinesKept(s, t)
  {
  }

  lemma GrownLinesKept(s: Store, t: Store)
    requires Extends(s.entitlements, t.entitlements) && Extends(s.entitlementsByLine, t.entitlementsByLine)
    ensures LinesKept(s, t)
  {
  }

  lemma ReplaceKeepsLines(s: Store, id: Id, e: ClassEntitlement)
    requires id in s.entitlements && SameButStatus(s.entitlements[id].facts, e.facts)
    ensures LinesKept(s, s.(entitlements := s.entitlements[id := e]))
  {
    assert forall x :: x in s.entitlements ==> SameButStatus(s.entitlements[x].facts, s.entitlements[x].facts);
    hide SameButStatus;
  }

  lemma SetStatusKeepsLines(s: Store, org: Id, id: Id, status: EntitlementStatus, now: Instant)
    ensures LinesKept(s, SetStatus(s, org, id, status, now))
  {
    hide LinesKept;
    SameLinesKept(s, s);
    if id in s.entitlements {
      var e := s.entitlements[id];
      ReplaceKeepsLines(s, id, e.(facts := e.facts.(status := status), updatedAt := now));
    }
  }

  lemma WriteKeepsLines(s: Store, input: Input, env: Env)
    requires IndexExact(s) && FreshIds(s, input.Classes(), env) && Write(s, input, env).Returned?
    ensures LinesKept(s, Write(s, input, env).after)
  {
    hide Write, CreateFrom, NewDecision, IndexExact, FreshIds, LinesKept, Project;
    var t := WriteShape(s, input, env);
    var cs := input.Classes();
    var u := Write(s, input, env).after;
    assert u.entitlements == t.entitlements && u.entitlementsByLine == t.entitlementsByLine by {
      WriteDecisionKeepsRest(t, input.decision, NewDecision(s, input.decision, env));
    }
    if cs == [] {
      SameLinesKept(s, u);
    } else {
      var p := Project(s, input);
      ProjectKeepsCore(s, input);
      CreatedFromProject(s, p, cs, env);
      GrownLinesKept(s, u);
    }
  }

  /** Creating from a store with the same core. */
  lemma CreatedFromProject(s: Store, p: Store, cs: seq<CreateInput>, env: Env)
    requires SameCore(s, p) && IndexExact(s) && FreshIds(s, cs, env) && CreateFrom(p, cs, 0, env).CreatedAll?
    ensures
      var r := CreateFrom(p, cs, 0, env);
      && Extends(s.entitlements, r.after.entitlements)
      && Extends(s.entitlementsByLine, r.after.entitlementsByLine)
      && |r.made| == |cs|
      && (forall i :: 0 <= i < |cs| ==>
            Indexed(r.after, cs[i].facts.LineKey()) == Some(r.made[i]) && r.made[i].facts == cs[i].facts)
  {
    assert IndexExact(p) && FreshIds(p, cs, env);
    hide IndexExact, FreshIds, CreateFrom, Extends, OnlyFirst, LinksMoved, NewFactsOf, Indexed;
    GrewRefl(p, cs, env);
    CreateFromMakesAll(p, p, cs, 0, env);
  }

  lemma CallKeepsLines(s: Store, input: Input, env: Env)
    requires Inv(s) && FreshIds(s, input.Classes(), env)
    ensures LinesKept(s, Call(s, input, env).after)
  {
    hide Internal, Restore, FreshIds, IndexExact, DistinctIds, Owned, DecisionsIndexed, IntentIndexExact, LinesKept;
    hide Malformed, ReplayConflicts, IsReplay, Competing, Write, GrantOutlivesRollback;
    var t := Call(s, input, env).after;
    if Internal(s, input, env).Threw? {
      FailedCallChangesNothing(s, input, env);
      SameLinesKept(s, t);
    } else {
      var path := InternalPath(s, input, env);
      if path.Wrote? {
        WriteKeepsLines(s, input, env);
      } else {
        SameLinesKept(s, t);
      }
    }
  }

  lemma CoreLinesKept(s: Store, t: Store)
    requires SameCore(s, t)
    ensures LinesKept(s, t)
  {
  }

  lemma StepKeepsLines(s: Store, e: Event)
    requires Inv(s) && Allowed(s, e)
    ensures LinesKept(s, Step(s, e))
  {
    hide Inv, Call, SetStatus, InsertMetadata, RecordPending, SameCore, FreshIds, Consistent, LinesKept;
    hide RecordDelivery, ClaimDelivery, MarkFailed, MarkProcessed;
    var t := Step(s, e);
    match e
    case PendingRecorded(org, order, now, freshId) =>
      PendingKeepsRest(s, org, order, now, freshId);
      SameLinesKept(s, t);
    case StatusSet(org, entitlement, status, now) => SetStatusKeepsLines(s, org, entitlement, status, now);
    case MetadataInserted(record) =>
      InsertMetadataKeepsRest(s, record);
      SameLinesKept(s, t);
    case Finalized(input, env) => CallKeepsLines(s, input, env);
    case DeliveryRecorded(org, webhook, order, payload, freshId) =>
      ReceiptKeepsCore(s, org, webhook, order, payload, freshId);
      CoreLinesKept(s, t);
    case DeliveryClaimed(delivery, now) =>
      ClaimKeepsCore(s, delivery, now);
      CoreLinesKept(s, t);
    case DeliveryFailed(delivery, failure) =>
      FailureKeepsCore(s, delivery, failure);
      CoreLinesKept(s, t);
    case DeliveryProcessed(delivery, now) =>
      ProcessedKeepsCore(s, delivery, now);
      CoreLinesKept(s, t);
  }

  /** Over any run, a paid line keeps the entitlement id it was first given, and that entitlement its
      facts; only the status may change. */
  lemma {:induction false} RunKeepsLines(s: Store, es: seq<Event>)
    requires Inv(s) && AllowedRun(s, es)
    ensures LinesKept(s, Run(s, es))
    decreases |es|
  {
    hide Inv, Step, Allowed, LinesKept;
    if es == [] {
      SameLinesKept(s, s);
    } else {
      var t := Step(s, es[0]);
      StepKeepsInv(s, es[0]);
      StepKeepsLines(s, es[0]);
      RunKeepsLines(t, es[1..]);
      LinesKeptTrans(s, t, Run(t, es[1..]));
    }
  }

  lemma LinesKeptTrans(s: Store, t: Store, u: Store)
    requires LinesKept(s, t) && LinesKept(t, u)
    ensures LinesKept(s, u)
  {
  }

  // ---------------------------------------------------------------------------
  // Immediate replay
  // ---------------------------------------------------------------------------

  lemma FoundIsIndexed(s: Store, org: Id, orderLine: Id)
    ensures Indexed(s, Key(org, orderLine)).Some? && Indexed(s, Key(org, orderLine)).value.facts.org == org ==>
              FindByOrderLine(s, org, orderLine) == Indexed(s, Key(org, orderLine))
  {
  }

  lemma {:induction false} FoundAllIs(s: Store, org: Id, cs: seq<CreateInput>, made: seq<ClassEntitlement>)
    requires |made| == |cs|
    requires forall i :: 0 <= i < |cs| ==> FindByOrderLine(s, org, cs[i].facts.orderLine) == Some(made[i])
    ensures FoundAll(s, org, cs) == made
    decreases |cs|
  {
    hide FindByOrderLine;
    if cs != [] {
      FoundAllIs(s, org, cs[1..], made[1..]);
    }
  }

  /** Every input's line has its entitlement, as a replay will find it. */
  lemma MadeIsFound(s: Store, input: Input, made: seq<ClassEntitlement>)
    requires Consistent(input) && |made| == |input.Classes()|
    requires forall i :: 0 <= i < |made| ==>
               && Indexed(s, input.Classes()[i].facts.LineKey()) == Some(made[i])
               && made[i].facts == input.Classes()[i].facts
    ensures forall i :: 0 <= i < |made| ==>
              && Found(s, input.decision.org, input.Classes()[i])
              && !Conflicts(s, input.decision.org, input.Classes()[i])
    ensures FoundAll(s, input.decision.org, input.Classes()) == made
  {
    var cs, org := input.Classes(), input.decision.org;
    forall i | 0 <= i < |cs|
      ensures FindByOrderLine(s, org, cs[i].facts.orderLine) == Some(made[i])
    {
      FoundIsIndexed(s, org, cs[i].facts.orderLine);
    }
    hide FindByOrderLine;
    FoundAllIs(s, org, cs, made);
  }

  /** The parts of the store that fulfilment is about: everything but delivery and intent statuses. */
  ghost predicate SameFulfilment(s: Store, t: Store) {
    SameCore(s, t) && t.projections == s.projections
  }

  /** A decided order whose lines are all in place is a replay, and answers with those entitlements. */
  lemma DecidedReplays(u: Store, input: Input, env: Env, made: seq<ClassEntitlement>)
    requires !Malformed(input) && Consistent(input) && !env.resolveFails
    requires input.decision.OrderKey() in u.decisions
    requires !u.decisions[input.decision.OrderKey()].status.PendingValidation?
    requires |made| == |input.Classes()|
    requires forall i :: 0 <= i < |made| ==>
               && Indexed(u, input.Classes()[i].facts.LineKey()) == Some(made[i])
               && made[i].facts == input.Classes()[i].facts
    ensures
      var o := Internal(u, input, env);
      o.Returned? && o.result.existing && o.result.classEntitlements == made && SameFulfilment(u, o.after)
  {
    hide Malformed, Indexed, Found, Conflicts, FoundAll, Consistent, Conclude, SameCore, Write, Competing;
    MadeIsFound(u, input, made);
    var existing := u.decisions[input.decision.OrderKey()];
    ConcludeKeepsCore(u, existing, input.delivery, env,
                      Result(existing, FoundAll(u, input.decision.org, input.Classes()), true));
  }

  lemma RecordedDecision(s: Store, t: Store, record: Decision, input: Input, o: Outcome)
    requires RecordedOver(s, t, record, input, o)
    ensures input.decision.OrderKey() in o.after.decisions
    ensures o.after.decisions[input.decision.OrderKey()] == record
    ensures o.after.entitlements == t.entitlements && o.after.entitlementsByLine == t.entitlementsByLine
  {
  }

  /** What a finalization with a final status leaves when it has just written: a final decision, and every line
      leading to the entitlement made for it. */
  ghost predicate Settled(u: Store, input: Input, made: seq<ClassEntitlement>) {
    && !Malformed(input)
    && IsTerminal(u, input.decision.OrderKey())
    && |made| == |input.Classes()|
    && forall i :: 0 <= i < |made| ==>
         && Indexed(u, input.Classes()[i].facts.LineKey()) == Some(made[i])
         && made[i].facts == input.Classes()[i].facts
  }

  lemma WrittenSettles(s: Store, input: Input, env: Env)
    requires Inv(s) && Consistent(input) && FreshIds(s, input.Classes(), env)
    requires !input.decision.status.PendingValidation?
    requires Call(s, input, env).Returned? && !Call(s, input, env).result.existing
    ensures Settled(Call(s, input, env).after, input, Call(s, input, env).result.classEntitlements)
  {
    hide Malformed, ReplayConflicts, IsReplay, Competing, Write, CreateFrom, NewDecision, Project, Restore;
    hide SameFulfilment, RecordedOver, FreshIds, Consistent, IntentIndexExact, Owned, DecisionsIndexed, DistinctIds;
    hide IndexExact, Indexed, SameCore, Internal;
    var path := InternalPath(s, input, env);
    var t := WriteShape(s, input, env);
    var o := Write(s, input, env);
    var record := NewDecision(s, input.decision, env);
    RecordIsOfInput(s, input, env);
    RecordedDecision(s, t, record, input, o);
    var cs := input.Classes();
    if cs != [] {
      ProjectKeepsCore(s, input);
      CreatedFromProject(s, Project(s, input), cs, env);
      forall i | 0 <= i < |cs| ensures Indexed(o.after, cs[i].facts.LineKey()) == Indexed(t, cs[i].facts.LineKey()) {
        IndexedByMaps(t, o.after, cs[i].facts.LineKey());
      }
    }
  }

  /** Main result: when a finalization with a final status has just written, replaying it finds the
      decision, returns the very entitlements the first call made, and changes no projection, decision,
      index, entitlement or metadata link. */
  lemma ReplayAddsNothing(s: Store, input: Input, env: Env, again: Env)
    requires Inv(s) && Consistent(input) && FreshIds(s, input.Classes(), env)
    requires !input.decision.status.PendingValidation? && !again.resolveFails
    requires Call(s, input, env).Returned? && !Call(s, input, env).result.existing
    ensures
      var first := Call(s, input, env);
      var second := Call(first.after, input, again);
      && second.Returned? && second.result.existing
      && second.result.classEntitlements == first.result.classEntitlements
      && SameFulfilment(first.after, second.after)
  {
    WrittenSettles(s, input, env);
    var first := Call(s, input, env);
    hide Call, Inv, FreshIds, Consistent, Internal, SameFulfilment, Malformed, Indexed;
    DecidedReplays(first.after, input, again, first.result.classEntitlements);
    ReturnedCall(first.after, input, again);
  }

  lemma ReturnedCall(s: Store, input: Input, env: Env)
    requires Internal(s, input, env).Returned?
    ensures Call(s, input, env) == Internal(s, input, env)
  {
    hide Internal;
  }

  lemma IndexedByMaps(t: Store, u: Store, k: Key)
    requires u.entitlements == t.entitlements && u.entitlementsByLine == t.entitlementsByLine
    ensures Indexed(u, k) == Indexed(t, k)
  {
  }

  /** What the last two steps of a call leave. */
  function Concluded(s: Store, d: Decision, delivery: Id, env: Env): Store {
    MarkProcessed(ResolveIntent(s, d, env), delivery, env.now)
  }

  lemma AnsweredConcludes(s: Store, input: Input, env: Env)
    requires Internal(s, input, env).Returned?
    requires IsReplay(s, input)
          || Competing(s.decisionsByIntent, input.decision.IntentKey(), input.decision.OrderKey()).Some?
          || Competing(s.decisionsByLine, input.decision.LineKey(), input.decision.OrderKey()).Some?
    ensures Internal(s, input, env).after == Concluded(s, Internal(s, input, env).result.decision, input.delivery, env)
  {
    hide Malformed, ReplayConflicts, Competing, Write, FoundAll, FindByOrderLine;
    hide MarkProcessed, ResolveIntent, Resolves;
  }

  lemma MarkProcessedIs(s: Store, delivery: Id, now: Instant)
    ensures MarkProcessed(s, delivery, now) == s.(deliveries := MarkProcessed(s, delivery, now).deliveries)
    ensures MarkProcessed(s, delivery, now).deliveries == ProcessedIn(s.deliveries, delivery, now)
  {
  }

  function ProcessedIn(m: map<Id, Delivery>, delivery: Id, now: Instant): map<Id, Delivery> {
    if delivery in m then
      m[delivery := m[delivery].(status := Processed, processedAt := Some(now), failure := None, startedAt := None)]
    else m
  }

  lemma ResolveIntentIs(s: Store, d: Decision, env: Env)
    ensures ResolveIntent(s, d, env) == s.(intentStatus := ResolvedIn(s.intentStatus, d, env))
  {
    hide Resolves;
  }

  function ResolvedIn(m: map<Id, DecisionStatus>, d: Decision, env: Env): map<Id, DecisionStatus> {
    if Resolves(d, env) && d.intent.value in m then m[d.intent.value := d.status] else m
  }

  /** Only the delivery named, and only the intent of the decision, are given a new status. */
  ghost predicate OnlyConcluded(s: Store, t: Store, d: Decision, delivery: Id, env: Env) {
    && t == s.(deliveries := t.deliveries, intentStatus := t.intentStatus)
    && t.deliveries.Keys == s.deliveries.Keys
    && (forall id :: id in s.deliveries ==>
          if id == delivery then t.deliveries[id].status.Processed? else t.deliveries[id] == s.deliveries[id])
    && t.intentStatus.Keys == s.intentStatus.Keys
    && (forall i :: i in s.intentStatus ==>
          t.intentStatus[i] == if Resolves(d, env) && d.intent == Some(i) then d.status else s.intentStatus[i])
  }

  lemma ConcludedWrites(s: Store, d: Decision, delivery: Id, env: Env)
    ensures OnlyConcluded(s, Concluded(s, d, delivery, env), d, delivery, env)
  {
    ResolveIntentIs(s, d, env);
    MarkProcessedIs(ResolveIntent(s, d, env), delivery, env.now);
    hide MarkProcessed, ResolveIntent;
    var t := Concluded(s, d, delivery, env);
    assert t.deliveries == ProcessedIn(s.deliveries, delivery, env.now);
    assert t.intentStatus == ResolvedIn(s.intentStatus, d, env);
    assert t == s.(deliveries := t.deliveries, intentStatus := t.intentStatus);
    DeliveriesConcluded(s.deliveries, delivery, env.now);
    IntentsConcluded(s.intentStatus, d, env);
    hide ProcessedIn, ResolvedIn, Concluded, Resolves;
  }

  lemma DeliveriesConcluded(m: map<Id, Delivery>, delivery: Id, now: Instant)
    ensures
      var n := ProcessedIn(m, delivery, now);
      && n.Keys == m.Keys
      && (forall id :: id in m ==> if id == delivery then n[id].status.Processed? else n[id] == m[id])
      && (forall id :: id in m ==> n[id].payload == m[id].payload)
  {
  }

  lemma IntentsConcluded(m: map<Id, DecisionStatus>, d: Decision, env: Env)
    ensures
      var n := ResolvedIn(m, d, env);
      && n.Keys == m.Keys
      && (forall i :: i in m ==> n[i] == if Resolves(d, env) && d.intent == Some(i) then d.status else m[i])
  {
  }

  /** A call answered by an earlier decision, its own or a competing one, writes no map of fulfilment and no
      grant: it marks its delivery processed, gives the intent of the answering decision that decision's status,
      and touches nothing else. */
  lemma AnsweredCallOnlyConcludes(s: Store, input: Input, env: Env)
    requires Call(s, input, env).Returned? && Call(s, input, env).result.existing
    ensures OnlyConcluded(s, Call(s, input, env).after, Call(s, input, env).result.decision, input.delivery, env)
    ensures SameFulfilment(s, Call(s, input, env).after)
  {
    hide Malformed, ReplayConflicts, IsReplay, Competing, Write, Restore, Internal, RecordedOver, Concluded, Resolves;
    hide OnlyConcluded, SameCore;
    var path := InternalPath(s, input, env);
    if path.Wrote? {
      var t := WriteShape(s, input, env);
      NotExisting(s, t, NewDecision(s, input.decision, env), input, Write(s, input, env));
    } else {
      AnsweredConcludes(s, input, env);
      ConcludedWrites(s, Call(s, input, env).result.decision, input.delivery, env);
    }
  }

  lemma NotExisting(s: Store, t: Store, record: Decision, input: Input, o: Outcome)
    requires RecordedOver(s, t, record, input, o)
    ensures !o.result.existing
  {
  }

  // ---------------------------------------------------------------------------
  // Deliveries
  // ---------------------------------------------------------------------------

  /** No delivery is lost or changed, except that some are marked processed, payload kept; and webhooks lead
      to the same deliveries. */
  ghost predicate OnlyProcessed(s: Store, t: Store) {
    && t.deliveriesByWebhook == s.deliveriesByWebhook
    && forall id :: id in s.deliveries ==>
         && id in t.deliveries && t.deliveries[id].payload == s.deliveries[id].payload
         && (t.deliveries[id] == s.deliveries[id] || t.deliveries[id].status.Processed?)
  }

  lemma ConcludeProcesses(s: Store, d: Decision, delivery: Id, env: Env, r: Result)
    ensures OnlyProcessed(s, Conclude(s, d, delivery, env, r).after)
  {
    hide Resolves, ResolveIntent, MarkProcessed, OnlyProcessed;
    NothingProcessed(s);
    ResolveIntentIs(s, d, env);
    MarkProcesses(ResolveIntent(s, d, env), delivery, env.now);
    SameDeliveries(s, ResolveIntent(s, d, env), MarkProcessed(ResolveIntent(s, d, env), delivery, env.now));
  }

  lemma MarkProcesses(s: Store, delivery: Id, now: Instant)
    ensures OnlyProcessed(s, MarkProcessed(s, delivery, now))
  {
    MarkProcessedIs(s, delivery, now);
    DeliveriesConcluded(s.deliveries, delivery, now);
    hide MarkProcessed, ProcessedIn;
  }

  lemma RecordProcesses(s: Store, record: Decision, input: Input, env: Env, made: seq<ClassEntitlement>)
    ensures OnlyProcessed(s, Record(s, record, input, env, made).after)
  {
    hide Conclude, WriteDecision, OnlyProcessed;
    var t := WriteDecision(s, input.decision, record);
    WriteDecisionKeepsRest(s, input.decision, record);
    ConcludeProcesses(t, record, input.delivery, env, Result(record, made, false));
    SameDeliveries(s, t, Record(s, record, input, env, made).after);
  }

  lemma NothingProcessed(s: Store)
    ensures OnlyProcessed(s, s)
  {
  }

  lemma SameDeliveries(s: Store, t: Store, u: Store)
    requires t.deliveries == s.deliveries && t.deliveriesByWebhook == s.deliveriesByWebhook && OnlyProcessed(t, u)
    ensures OnlyProcessed(s, u)
  {
  }

  lemma DecideProcesses(s: Store, record: Decision, input: Input, env: Env)
    ensures OnlyProcessed(s, Decide(s, record, input, env).after)
  {
    hide CreateFrom, Record, OnlyProcessed;
    NothingProcessed(s);
    if input.decision.status.Approved? && input.grant.Some? {
      var t := s.(grants := s.grants + [input.grant.value]);
      RecordProcesses(t, record, input, env, []);
      SameDeliveries(s, t, Record(t, record, input, env, []).after);
    } else if input.decision.status.Approved? {
      var r := CreateFrom(s, input.Classes(), 0, env);
      var made := if r.CreatedAll? then r.made else [];
      CreateFromKeepsDecisions(s, input.Classes(), 0, env);
      NothingProcessed(r.after);
      SameDeliveries(s, r.after, r.after);
      RecordProcesses(r.after, record, input, env, made);
      SameDeliveries(s, r.after, Record(r.after, record, input, env, made).after);
    } else {
      RecordProcesses(s, record, input, env, []);
    }
  }

  lemma WriteProcesses(s: Store, input: Input, env: Env)
    ensures OnlyProcessed(s, Write(s, input, env).after)
  {
    hide Decide, NewDecision, OnlyProcessed;
    NothingProcessed(s);
    var p := Project(s, input);
    DecideProcesses(p, NewDecision(s, input.decision, env), input, env);
    SameDeliveries(s, p, Decide(p, NewDecision(s, input.decision, env), input, env).after);
  }

  lemma AnswerProcesses(s: Store, input: Input, env: Env)
    ensures forall order :: OnlyProcessed(s, AnswerWith(s, input, env, order).after)
  {
    forall order ensures OnlyProcessed(s, AnswerWith(s, input, env, order).after) {
      hide OnlyProcessed, Conclude, FindByOrderLine;
      NothingProcessed(s);
      if order in s.decisions {
        var line := input.decision.LineKey();
        var found := if line.Some? then FindByOrderLine(s, line.value.org, line.value.id) else None;
        ConcludeProcesses(s, s.decisions[order], input.delivery, env,
                          Result(s.decisions[order], if found.Some? then [found.value] else [], true));
      }
    }
  }

  lemma InternalProcesses(s: Store, input: Input, env: Env)
    ensures OnlyProcessed(s, Internal(s, input, env).after)
  {
    hide Malformed, ReplayConflicts, Competing, Write, Conclude, FoundAll, AnswerWith, OnlyProcessed;
    NothingProcessed(s);
    WriteProcesses(s, input, env);
    AnswerProcesses(s, input, env);
    if IsReplay(s, input) {
      var existing := s.decisions[input.decision.OrderKey()];
      ConcludeProcesses(s, existing, input.delivery, env,
                        Result(existing, FoundAll(s, input.decision.org, input.Classes()), true));
    }
  }

  ghost predicate Held(s: Store, delivery: Id) {
    delivery in s.deliveries && !Claimable(s, delivery)
  }

  lemma CallKeepsHeld(s: Store, input: Input, env: Env, delivery: Id)
    requires Inv(s) && FreshIds(s, input.Classes(), env) && Held(s, delivery)
    ensures Held(Call(s, input, env).after, delivery)
  {
    hide Internal, Restore, FreshIds, IndexExact, DistinctIds, Owned, DecisionsIndexed, IntentIndexExact;
    hide GrantOutlivesRollback;
    if Internal(s, input, env).Threw? {
      FailedCallChangesNothing(s, input, env);
    } else {
      InternalProcesses(s, input, env);
    }
  }

  /** A delivery that is being processed, or has been, is never handed out again by any call, unless it
      is marked failed first: at most one worker holds a claim on it. */
  lemma ClaimIsExclusive(s: Store, e: Event, delivery: Id)
    requires Inv(s) && Allowed(s, e) && Held(s, delivery)
    requires e.DeliveryFailed? ==> e.delivery != delivery
    ensures Held(Step(s, e), delivery)
  {
    hide Inv, Call, SetStatus, InsertMetadata, RecordPending;
    match e
    case Finalized(input, env) => CallKeepsHeld(s, input, env, delivery);
    case StatusSet(org, entitlement, status, now) => SetStatusElsewhere(s, org, entitlement, status, now);
    case MetadataInserted(record) => InsertMetadataKeepsRest(s, record);
    case PendingRecorded(org, order, now, freshId) => PendingKeepsRest(s, org, order, now, freshId);
    case _ =>
  }

  lemma SetStatusElsewhere(s: Store, org: Id, id: Id, status: EntitlementStatus, now: Instant)
    ensures SetStatus(s, org, id, status, now)
         == s.(entitlements := SetStatus(s, org, id, status, now).entitlements)
  {
  }
}
