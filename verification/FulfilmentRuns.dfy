/** Fulfilment over whole runs of deliveries, finalizations, replays and status changes: no paid line
    is ever entitled twice, one checkout intent never pays two orders, and approval is final. */
module FulfilmentRuns {
  import opened Fulfilment
  import opened FulfilmentRollback
  import opened Wrappers

  datatype Event =
    | DeliveryRecorded(org: Id, webhook: Id, order: Id, payload: string, freshId: Id)
    | DeliveryClaimed(delivery: Id, now: Instant)
    | DeliveryFailed(delivery: Id, failure: string)
    | DeliveryProcessed(delivery: Id, now: Instant)
    | PendingRecorded(org: Id, order: Id, now: Instant, freshId: Id)
    | StatusSet(org: Id, entitlement: Id, status: EntitlementStatus, now: Instant)
    | MetadataInserted(record: Metadata)
    | Finalized(input: Input, env: Env)

  function Step(s: Store, e: Event): Store {
    match e
    case DeliveryRecorded(org, webhook, order, payload, freshId) =>
      RecordDelivery(s, org, webhook, order, payload, freshId).0
    case DeliveryClaimed(delivery, now) => ClaimDelivery(s, delivery, now)
    case DeliveryFailed(delivery, failure) => MarkFailed(s, delivery, failure)
    case DeliveryProcessed(delivery, now) => MarkProcessed(s, delivery, now)
    case PendingRecorded(org, order, now, freshId) => RecordPending(s, org, order, now, freshId)
    case StatusSet(org, entitlement, status, now) => SetStatus(s, org, entitlement, status, now)
    case MetadataInserted(record) => InsertMetadata(s, record)
    case Finalized(input, env) => Call(s, input, env).after
  }

  /** Class entitlements carry the organization, intent and order of their decision. */
  ghost predicate Consistent(input: Input) {
    forall i :: 0 <= i < |input.Classes()| ==>
      var f := input.Classes()[i].facts;
      f.org == input.decision.org && input.decision.intent == Some(f.intent) && f.order == input.decision.order
  }

  ghost predicate Allowed(s: Store, e: Event) {
    match e
    case DeliveryRecorded(_, _, _, _, freshId) => freshId !in s.deliveries
    case Finalized(input, env) => Consistent(input) && FreshIds(s, input.Classes(), env)
    case _ => true
  }

  function Run(s: Store, es: seq<Event>): Store
    decreases |es|
  {
    if es == [] then s else Run(Step(s, es[0]), es[1..])
  }

  ghost predicate AllowedRun(s: Store, es: seq<Event>)
    decreases |es|
  {
    es == [] || (Allowed(s, es[0]) && AllowedRun(Step(s, es[0]), es[1..]))
  }

  const Empty: Store := Store(map[], map[], map[], map[], map[], map[], map[], map[], map[], [], map[], [])

  // ---------------------------------------------------------------------------
  // Invariant
  // ---------------------------------------------------------------------------

  ghost predicate IntentIndexExact(s: Store) {
    && (forall k :: k in s.entitlementsByIntent ==>
          && s.entitlementsByIntent[k] in s.entitlements
          && s.entitlements[s.entitlementsByIntent[k]].facts.IntentKey() == k)
    && (forall id :: id in s.entitlements ==> s.entitlements[id].facts.IntentKey() in s.entitlementsByIntent)
  }

  ghost predicate DecisionsIndexed(s: Store) {
    && (forall k :: k in s.decisions ==> Key(s.decisions[k].org, s.decisions[k].order) == k)
    && (forall k :: k in s.decisionsByIntent ==> s.decisionsByIntent[k] in s.decisions)
    && (forall k :: k in s.decisionsByLine ==> s.decisionsByLine[k] in s.decisions)
  }

  /** The decision maps assign the order of `f` to its intent, and that order is approved. */
  ghost predicate OwnedBy(s: Store, f: Facts) {
    && f.IntentKey() in s.decisionsByIntent
    && s.decisionsByIntent[f.IntentKey()] == f.OrderKey()
    && f.OrderKey() in s.decisions
    && s.decisions[f.OrderKey()].status.Approved?
  }

  ghost predicate Owned(s: Store) {
    forall id :: id in s.entitlements ==> OwnedBy(s, s.entitlements[id].facts)
  }

  ghost predicate Inv(s: Store) {
    && IndexExact(s)
    && IntentIndexExact(s)
    && DecisionsIndexed(s)
    && Owned(s)
    && DistinctIds(s.metadata)
  }

  /** The parts of the store that the invariant reads. */
  ghost predicate SameCore(s: Store, t: Store) {
    && t.decisions == s.decisions
    && t.decisionsByIntent == s.decisionsByIntent
    && t.decisionsByLine == s.decisionsByLine
    && t.entitlements == s.entitlements
    && t.entitlementsByLine == s.entitlementsByLine
    && t.entitlementsByIntent == s.entitlementsByIntent
    && t.metadata == s.metadata
  }

  lemma SameCoreInv(s: Store, t: Store)
    requires Inv(s) && SameCore(s, t)
    ensures Inv(t)
  {
  }

  lemma ConcludeKeepsCore(s: Store, d: Decision, delivery: Id, env: Env, r: Result)
    ensures SameCore(s, Conclude(s, d, delivery, env, r).after)
    ensures Conclude(s, d, delivery, env, r).after.projections == s.projections
    ensures Conclude(s, d, delivery, env, r).Returned? ==> Conclude(s, d, delivery, env, r).result == r
    ensures !env.resolveFails ==> Conclude(s, d, delivery, env, r).Returned?
  {
  }

  // ---------------------------------------------------------------------------
  // Creating entitlements
  // ---------------------------------------------------------------------------

  ghost predicate NewFactsOf(s: Store, t: Store, cs: seq<CreateInput>) {
    forall id :: id in t.entitlements && id !in s.entitlements ==>
      exists i :: 0 <= i < |cs| && cs[i].facts == t.entitlements[id].facts
  }

  lemma AddRecordKeepsIntents(s: Store, c: CreateInput, id: Id, now: Instant)
    requires id !in s.entitlements && IntentIndexExact(s)
    ensures IntentIndexExact(AddRecord(s, c, id, now))
  {
  }

  lemma AddRecordHasFacts(s0: Store, s: Store, cs: seq<CreateInput>, k: nat, id: Id, now: Instant)
    requires k < |cs| && NewFactsOf(s0, s, cs)
    ensures NewFactsOf(s0, AddRecord(s, cs[k], id, now), cs)
  {
    var t := AddRecord(s, cs[k], id, now);
    forall x | x in t.entitlements && x !in s0.entitlements
      ensures exists i :: 0 <= i < |cs| && cs[i].facts == t.entitlements[x].facts
    {
      if x == id {
        assert cs[k].facts == t.entitlements[x].facts;
      } else {
        assert t.entitlements[x] == s.entitlements[x];
      }
    }
  }

  lemma CreateOneKeepsIntents(s0: Store, s: Store, cs: seq<CreateInput>, k: nat, env: Env)
    requires k < |cs| && FreshIds(s0, cs, env) && OnlyFirst(s0, s, cs, k, env)
    requires IntentIndexExact(s) && NewFactsOf(s0, s, cs)
    requires CreateOne(s, cs[k], IdFor(cs[k], k, env), env.now).Some?
    ensures
      var t := CreateOne(s, cs[k], IdFor(cs[k], k, env), env.now).value.0;
      IntentIndexExact(t) && NewFactsOf(s0, t, cs)
  {
    hide IntentIndexExact, NewFactsOf, FreshIds, OnlyFirst, IdFor, NewEntitlement, Indexed;
    if Indexed(s, cs[k].facts.LineKey()).None? {
      IdStillFresh(s0, s, cs, k, env);
      AddRecordKeepsIntents(s, cs[k], IdFor(cs[k], k, env), env.now);
      AddRecordHasFacts(s0, s, cs, k, IdFor(cs[k], k, env), env.now);
    }
  }

  ghost predicate LineHas(s: Store, c: CreateInput) {
    Indexed(s, c.facts.LineKey()).Some? && Indexed(s, c.facts.LineKey()).value.facts == c.facts
  }

  lemma CreateOneMakes(s: Store, c: CreateInput, id: Id, now: Instant)
    requires CreateOne(s, c, id, now).Some?
    ensures
      var (t, e) := CreateOne(s, c, id, now).value;
      LineHas(t, c) && Indexed(t, c.facts.LineKey()) == Some(e)
  {
  }

  lemma IndexedStays(s: Store, t: Store, k: Key)
    requires Extends(s.entitlements, t.entitlements) && Extends(s.entitlementsByLine, t.entitlementsByLine)
    requires Indexed(s, k).Some?
    ensures Indexed(t, k) == Indexed(s, k)
  {
  }

  lemma ExtendsTrans<K(!new), V>(m: map<K, V>, n: map<K, V>, p: map<K, V>)
    requires Extends(m, n) && Extends(n, p)
    ensures Extends(m, p)
  {
  }

  /** Creating keeps what is there and keeps the intent index exact. */
  lemma {:induction false} CreateFromOwns(s0: Store, s: Store, cs: seq<CreateInput>, k: nat, env: Env)
    requires k <= |cs| && FreshIds(s0, cs, env)
    requires EntitlementsGrew(s0, s, cs) && OnlyFirst(s0, s, cs, k, env)
    requires IntentIndexExact(s) && NewFactsOf(s0, s, cs)
    ensures
      var t := CreateFrom(s, cs, k, env).after;
      IntentIndexExact(t) && NewFactsOf(s0, t, cs)
    decreases |cs| - k
  {
    hide IntentIndexExact, NewFactsOf, FreshIds, OnlyFirst, IdFor, CreateOne, EntitlementsGrew, Link;
    if k < |cs| {
      var one := CreateOne(s, cs[k], IdFor(cs[k], k, env), env.now);
      if one.Some? {
        CreateOneGrows(s0, s, cs, k, env);
        CreateOneKeepsIntents(s0, s, cs, k, env);
        if !(env.hasCheckout && k in env.linkFails) {
          var t := one.value.0;
          var linked := if env.hasCheckout then t.(metadata := Link(t.metadata, cs[k], one.value.1.id)) else t;
          SameEntitlements(s0, t, linked, cs, k + 1, env);
          SameIntents(s0, t, linked, cs);
          CreateFromOwns(s0, linked, cs, k + 1, env);
        }
      }
    }
  }

  lemma SameIntents(s0: Store, t: Store, u: Store, cs: seq<CreateInput>)
    requires IntentIndexExact(t) && NewFactsOf(s0, t, cs) && u == t.(metadata := u.metadata)
    ensures IntentIndexExact(u) && NewFactsOf(s0, u, cs)
  {
  }

  /** A completed creation leaves every line with the entitlement it returned for it. */
  lemma {:induction false} CreateFromMakesAll(s0: Store, s: Store, cs: seq<CreateInput>, k: nat, env: Env)
    requires k <= |cs| && FreshIds(s0, cs, env)
    requires EntitlementsGrew(s0, s, cs) && OnlyFirst(s0, s, cs, k, env) && LinksMoved(s0.metadata, s.metadata, cs)
    requires CreateFrom(s, cs, k, env).CreatedAll?
    ensures
      var r := CreateFrom(s, cs, k, env);
      && Extends(s.entitlements, r.after.entitlements)
      && Extends(s.entitlementsByLine, r.after.entitlementsByLine)
      && |r.made| == |cs| - k
      && (forall i :: k <= i < |cs| ==>
            Indexed(r.after, cs[i].facts.LineKey()) == Some(r.made[i - k]) && r.made[i - k].facts == cs[i].facts)
    decreases |cs| - k
  {
    hide FreshIds, OnlyFirst, IdFor, CreateOne, EntitlementsGrew, Link, Extends, LinksMoved, Indexed;
    if k < |cs| {
      var one := CreateOne(s, cs[k], IdFor(cs[k], k, env), env.now);
      CreateOneGrows(s0, s, cs, k, env);
      CreateOneMakes(s, cs[k], IdFor(cs[k], k, env), env.now);
      CreateOneExtends(s0, s, cs, k, env);
      var t := one.value.0;
      var linked := if env.hasCheckout then t.(metadata := Link(t.metadata, cs[k], one.value.1.id)) else t;
      LinkMoves(s0.metadata, t.metadata, cs, k, one.value.1.id);
      SameEntitlements(s0, t, linked, cs, k + 1, env);
      CreateFromMakesAll(s0, linked, cs, k + 1, env);
      var r := CreateFrom(linked, cs, k + 1, env).after;
      assert Indexed(linked, cs[k].facts.LineKey()) == Indexed(t, cs[k].facts.LineKey()) by {
        SameIndexed(t, linked, cs[k].facts.LineKey());
      }
      IndexedStays(linked, r, cs[k].facts.LineKey());
      ExtendsTrans(s.entitlements, linked.entitlements, r.entitlements);
      ExtendsTrans(s.entitlementsByLine, linked.entitlementsByLine, r.entitlementsByLine);
    } else {
      ExtendsRefl(s.entitlements);
      ExtendsRefl(s.entitlementsByLine);
    }
  }

  lemma ExtendsRefl<K(!new), V>(m: map<K, V>)
    ensures Extends(m, m)
  {
  }

  lemma SameIndexed(t: Store, u: Store, k: Key)
    requires u == t.(metadata := u.metadata)
    ensures Indexed(u, k) == Indexed(t, k)
  {
  }

  lemma CreateOneExtends(s0: Store, s: Store, cs: seq<CreateInput>, k: nat, env: Env)
    requires k < |cs| && FreshIds(s0, cs, env) && OnlyFirst(s0, s, cs, k, env) && EntitlementsGrew(s0, s, cs)
    requires CreateOne(s, cs[k], IdFor(cs[k], k, env), env.now).Some?
    ensures
      var t := CreateOne(s, cs[k], IdFor(cs[k], k, env), env.now).value.0;
      && Extends(s.entitlements, t.entitlements)
      && Extends(s.entitlementsByLine, t.entitlementsByLine)
  {
    hide FreshIds, OnlyFirst, IdFor, NewEntitlement, Indexed, Extends, IndexExact, NewLinesOf, SameOffIntents;
    var c, id := cs[k], IdFor(cs[k], k, env);
    ExtendsRefl(s.entitlements);
    ExtendsRefl(s.entitlementsByLine);
    if Indexed(s, c.facts.LineKey()).None? {
      IdStillFresh(s0, s, cs, k, env);
      AddRecordExact(s, c, id, env.now);
      ExtendsAdd(s.entitlements, s.entitlements, id, NewEntitlement(c, id, env.now));
      ExtendsAdd(s.entitlementsByLine, s.entitlementsByLine, c.facts.LineKey(), id);
    }
  }

  // ---------------------------------------------------------------------------
  // One finalization
  // ---------------------------------------------------------------------------

  /** What has been written when the decision itself is about to be recorded: entitlements of this
      decision only, and only if it approves. */
  ghost predicate ReadyToRecord(s: Store, t: Store, input: Input) {
    && IndexExact(t) && IntentIndexExact(t) && DistinctIds(t.metadata)
    && t.decisions == s.decisions
    && t.decisionsByIntent == s.decisionsByIntent
    && t.decisionsByLine == s.decisionsByLine
    && Extends(s.entitlements, t.entitlements)
    && (forall id :: id in t.entitlements && id !in s.entitlements ==>
          && input.decision.status.Approved?
          && input.decision.IntentKey() == Some(t.entitlements[id].facts.IntentKey())
          && input.decision.OrderKey() == t.entitlements[id].facts.OrderKey())
  }

  /** The order has no rival for its intent or line, and is not approved unless it is so again. */
  ghost predicate MayRecord(s: Store, input: Input) {
    var d := input.decision;
    && Competing(s.decisionsByIntent, d.IntentKey(), d.OrderKey()).None?
    && (d.OrderKey() in s.decisions && s.decisions[d.OrderKey()].status.Approved? ==> d.status.Approved?)
  }

  lemma WriteDecisionIndexed(s: Store, d: DecisionInput, record: Decision)
    requires DecisionsIndexed(s) && Key(record.org, record.order) == d.OrderKey()
    ensures DecisionsIndexed(WriteDecision(s, d, record))
  {
  }

  lemma WriteDecisionOwnedAt(s: Store, t: Store, input: Input, record: Decision, f: Facts)
    requires t.decisions == s.decisions && t.decisionsByIntent == s.decisionsByIntent && MayRecord(s, input)
    requires record.status == input.decision.status
    requires OwnedBy(s, f)
          || (input.decision.status.Approved? && input.decision.IntentKey() == Some(f.IntentKey())
              && input.decision.OrderKey() == f.OrderKey())
    ensures OwnedBy(WriteDecision(t, input.decision, record), f)
  {
  }

  lemma WriteDecisionOwned(s: Store, t: Store, input: Input, record: Decision)
    requires Owned(s) && ReadyToRecord(s, t, input) && MayRecord(s, input)
    requires record.status == input.decision.status
    ensures Owned(WriteDecision(t, input.decision, record))
  {
    var u := WriteDecision(t, input.decision, record);
    forall id | id in u.entitlements ensures OwnedBy(u, u.entitlements[id].facts) {
      hide IndexExact, IntentIndexExact, DistinctIds, MayRecord;
      if id in s.entitlements {
        assert t.entitlements[id] == s.entitlements[id];
      }
      hide OwnedBy;
      WriteDecisionOwnedAt(s, t, input, record, t.entitlements[id].facts);
    }
  }

  lemma WriteDecisionKeepsInv(s: Store, t: Store, input: Input, record: Decision)
    requires Inv(s) && ReadyToRecord(s, t, input) && MayRecord(s, input)
    requires Key(record.org, record.order) == input.decision.OrderKey() && record.status == input.decision.status
    ensures Inv(WriteDecision(t, input.decision, record))
  {
    var u := WriteDecision(t, input.decision, record);
    WriteDecisionKeepsRest(t, input.decision, record);
    ReadyIsIndexed(s, t, input);
    WriteDecisionOwned(s, t, input, record);
    hide Owned, MayRecord, IndexExact, IntentIndexExact, DistinctIds, DecisionsIndexed, ReadyToRecord, WriteDecision;
    WriteDecisionIndexed(t, input.decision, record);
    SameIndexes(t, u);
  }

  lemma ReadyIsIndexed(s: Store, t: Store, input: Input)
    requires DecisionsIndexed(s) && ReadyToRecord(s, t, input)
    ensures DecisionsIndexed(t) && IndexExact(t) && IntentIndexExact(t) && DistinctIds(t.metadata)
  {
  }

  lemma WriteDecisionKeepsRest(t: Store, d: DecisionInput, record: Decision)
    ensures
      var u := WriteDecision(t, d, record);
      u == t.(decisions := u.decisions, decisionsByIntent := u.decisionsByIntent, decisionsByLine := u.decisionsByLine)
  {
  }

  lemma SameIndexes(t: Store, u: Store)
    requires IndexExact(t) && IntentIndexExact(t)
    requires u.entitlements == t.entitlements && u.entitlementsByLine == t.entitlementsByLine
    requires u.entitlementsByIntent == t.entitlementsByIntent
    ensures IndexExact(u) && IntentIndexExact(u)
  {
  }

  lemma NothingCreated(s: Store, t: Store, input: Input)
    requires Inv(s) && SameCore(s, t)
    ensures ReadyToRecord(s, t, input)
  {
    SameCoreInv(s, t);
  }

  /** A record of another sort belongs to some input, and so to this decision. */
  lemma CreatedForDecision(s: Store, t: Store, input: Input)
    requires Consistent(input) && NewFactsOf(s, t, input.Classes())
    requires forall i :: 0 <= i < |input.Classes()| ==> input.Classes()[i].facts.intent != ""
    ensures forall id :: id in t.entitlements && id !in s.entitlements ==>
              && input.decision.IntentKey() == Some(t.entitlements[id].facts.IntentKey())
              && input.decision.OrderKey() == t.entitlements[id].facts.OrderKey()
  {
    forall id | id in t.entitlements && id !in s.entitlements
      ensures input.decision.IntentKey() == Some(t.entitlements[id].facts.IntentKey())
      ensures input.decision.OrderKey() == t.entitlements[id].facts.OrderKey()
    {
      var i :| 0 <= i < |input.Classes()| && input.Classes()[i].facts == t.entitlements[id].facts;
    }
  }

  lemma WellFormedIntents(input: Input)
    requires !Malformed(input)
    ensures forall i :: 0 <= i < |input.Classes()| ==> input.Classes()[i].facts.intent != ""
  {
    forall i | 0 <= i < |input.Classes()| ensures input.Classes()[i].facts.intent != "" {
      assert ValidFacts(input.Classes()[i].facts);
    }
  }

  lemma GrewRefl(s: Store, cs: seq<CreateInput>, env: Env)
    requires IndexExact(s)
    ensures EntitlementsGrew(s, s, cs) && OnlyFirst(s, s, cs, 0, env) && LinksMoved(s.metadata, s.metadata, cs)
    ensures NewFactsOf(s, s, cs)
  {
  }

  lemma MovedDistinct(ms: seq<Metadata>, ns: seq<Metadata>, cs: seq<CreateInput>)
    requires DistinctIds(ms) && LinksMoved(ms, ns, cs)
    ensures DistinctIds(ns)
  {
    hide Touched;
    assert forall i :: 0 <= i < |ns| ==> ns[i].id == ms[i].id;
  }

  lemma CreationReady(s: Store, t: Store, input: Input, env: Env)
    requires Inv(s) && SameCore(s, t) && Consistent(input) && !Malformed(input)
    requires input.decision.status.Approved? && FreshIds(s, input.Classes(), env)
    ensures ReadyToRecord(s, CreateFrom(t, input.Classes(), 0, env).after, input)
  {
    var cs := input.Classes();
    SameCoreInv(s, t);
    assert FreshIds(t, cs, env);
    hide IndexExact, IntentIndexExact, DistinctIds, Consistent, Malformed, CreateFrom, FreshIds;
    hide NewFactsOf, LinksMoved, OnlyFirst, Owned, DecisionsIndexed, Extends, NewLinesOf, SameOffIntents;
    GrewRefl(t, cs, env);
    CreateFromGrows(t, t, cs, 0, env);
    CreateFromOwns(t, t, cs, 0, env);
    var u := CreateFrom(t, cs, 0, env).after;
    MovedDistinct(t.metadata, u.metadata, cs);
    WellFormedIntents(input);
    CreatedForDecision(t, u, input);
  }

  lemma ProjectKeepsCore(s: Store, input: Input)
    ensures SameCore(s, Project(s, input))
  {
    if input.projection.Some? {
      UpsertKeepsCore(s, input.projection.value);
    }
  }

  lemma UpsertKeepsCore(s: Store, p: ProjectionInput)
    ensures SameCore(s, UpsertProjection(s, p))
  {
  }

  lemma RecordKeepsInv(s: Store, t: Store, record: Decision, input: Input, env: Env, made: seq<ClassEntitlement>)
    requires Inv(s) && ReadyToRecord(s, t, input) && MayRecord(s, input)
    requires Key(record.org, record.order) == input.decision.OrderKey() && record.status == input.decision.status
    ensures Inv(Record(t, record, input, env, made).after)
  {
    hide Inv, ReadyToRecord, MayRecord, WriteDecision, Conclude, SameCore;
    WriteDecisionKeepsInv(s, t, input, record);
    var u := WriteDecision(t, input.decision, record);
    ConcludeKeepsCore(u, record, input.delivery, env, Result(record, made, false));
    SameCoreInv(u, Record(t, record, input, env, made).after);
  }

  lemma WriteKeepsInv(s: Store, input: Input, env: Env)
    requires Inv(s) && Consistent(input) && !Malformed(input) && FreshIds(s, input.Classes(), env)
    requires MayRecord(s, input) || input.Classes() != []
    requires Competing(s.decisionsByIntent, input.decision.IntentKey(), input.decision.OrderKey()).None?
    requires Write(s, input, env).Returned?
    ensures Inv(Write(s, input, env).after)
  {
    hide Inv, Consistent, Malformed, FreshIds, ReadyToRecord, CreateFrom, Record, SameCore, Project;
    var t := Project(s, input);
    var record := NewDecision(s, input.decision, env);
    ProjectKeepsCore(s, input);
    NothingCreated(s, t, input);
    if input.decision.status.Approved? {
      assert MayRecord(s, input);
      if input.grant.Some? {
        var u := t.(grants := t.grants + [input.grant.value]);
        SameCoreGrants(s, t, u);
        NothingCreated(s, u, input);
        RecordKeepsInv(s, u, record, input, env, []);
      } else {
        CreationReady(s, t, input, env);
        var r := CreateFrom(t, input.Classes(), 0, env);
        RecordKeepsInv(s, r.after, record, input, env, r.made);
      }
    } else {
      RecordKeepsInv(s, t, record, input, env, []);
    }
  }

  lemma SameCoreGrants(s: Store, t: Store, u: Store)
    requires SameCore(s, t) && u == t.(grants := u.grants)
    ensures SameCore(s, u)
  {
  }

  /** A decided order whose entitlements are incomplete has class inputs. */
  lemma IncompleteHasClasses(s: Store, input: Input)
    requires !IsReplay(s, input)
    requires Competing(s.decisionsByIntent, input.decision.IntentKey(), input.decision.OrderKey()).None?
    ensures MayRecord(s, input) || input.Classes() != []
  {
  }

  lemma InternalKeepsInv(s: Store, input: Input, env: Env)
    requires Inv(s) && Consistent(input) && FreshIds(s, input.Classes(), env)
    requires Internal(s, input, env).Returned?
    ensures Inv(Internal(s, input, env).after)
  {
    hide Inv, Consistent, FreshIds, Malformed, ReplayConflicts, Write, Conclude, SameCore, MayRecord;
    hide FoundAll, FindByOrderLine, DecisionInput.IntentKey, DecisionInput.LineKey;
    var d := input.decision;
    if IsReplay(s, input) {
      var existing := s.decisions[d.OrderKey()];
      var r := Result(existing, FoundAll(s, d.org, input.Classes()), true);
      ConcludeKeepsCore(s, existing, input.delivery, env, r);
      SameCoreInv(s, Conclude(s, existing, input.delivery, env, r).after);
    } else {
      hide IsReplay, AnswerWith;
      AnswerKeepsInv(s, input, env);
      if Competing(s.decisionsByIntent, d.IntentKey(), d.OrderKey()).None?
         && Competing(s.decisionsByLine, d.LineKey(), d.OrderKey()).None? {
        IncompleteHasClasses(s, input);
        WriteKeepsInv(s, input, env);
      }
    }
  }

  lemma AnswerKeepsInv(s: Store, input: Input, env: Env)
    requires Inv(s)
    ensures forall order :: Inv(AnswerWith(s, input, env, order).after)
    ensures forall order :: SameCore(s, AnswerWith(s, input, env, order).after)
  {
    forall order
      ensures Inv(AnswerWith(s, input, env, order).after)
      ensures SameCore(s, AnswerWith(s, input, env, order).after)
    {
      hide Inv, Conclude, FindByOrderLine;
      if order in s.decisions {
        var line := input.decision.LineKey();
        var found := if line.Some? then FindByOrderLine(s, line.value.org, line.value.id) else None;
        ConcludeKeepsCore(s, s.decisions[order], input.delivery, env,
                          Result(s.decisions[order], if found.Some? then [found.value] else [], true));
      }
      SameCoreInv(s, AnswerWith(s, input, env, order).after);
    }
  }

  lemma CallKeepsInv(s: Store, input: Input, env: Env)
    requires Inv(s) && Consistent(input) && FreshIds(s, input.Classes(), env)
    ensures Inv(Call(s, input, env).after)
  {
    if Internal(s, input, env).Threw? {
      hide Internal, Restore, IndexExact, DistinctIds, FreshIds, Consistent, GrantOutlivesRollback;
      FailedCallChangesNothing(s, input, env);
      SameCoreInv(s, Call(s, input, env).after);
    } else {
      hide Internal, Restore, Inv, FreshIds, Consistent;
      InternalKeepsInv(s, input, env);
    }
  }

  // ---------------------------------------------------------------------------
  // Runs
  // ---------------------------------------------------------------------------

  lemma RecordPendingKeepsInv(s: Store, org: Id, order: Id, now: Instant, freshId: Id)
    requires Inv(s)
    ensures Inv(RecordPending(s, org, order, now, freshId))
  {
    hide IndexExact, IntentIndexExact, DistinctIds, Owned, DecisionsIndexed, RecordPending;
    PendingKeepsOwned(s, org, order, now, freshId);
    PendingKeepsIndexed(s, org, order, now, freshId);
    PendingKeepsRest(s, org, order, now, freshId);
    SameIndexes(s, RecordPending(s, org, order, now, freshId));
  }

  lemma PendingKeepsRest(s: Store, org: Id, order: Id, now: Instant, freshId: Id)
    ensures RecordPending(s, org, order, now, freshId)
         == s.(decisions := RecordPending(s, org, order, now, freshId).decisions)
  {
  }

  lemma PendingKeepsOwned(s: Store, org: Id, order: Id, now: Instant, freshId: Id)
    requires Owned(s)
    ensures Owned(RecordPending(s, org, order, now, freshId))
  {
  }

  lemma PendingKeepsIndexed(s: Store, org: Id, order: Id, now: Instant, freshId: Id)
    requires DecisionsIndexed(s)
    ensures DecisionsIndexed(RecordPending(s, org, order, now, freshId))
  {
  }

  ghost predicate SameKeyed(d: ClassEntitlement, e: ClassEntitlement) {
    && e.id == d.id
    && e.facts.LineKey() == d.facts.LineKey()
    && e.facts.IntentKey() == d.facts.IntentKey()
    && e.facts.OrderKey() == d.facts.OrderKey()
  }

  /** The same records by id, with the same line, intent and order keys. */
  ghost predicate SameKeys(s: Store, t: Store) {
    && t.entitlementsByLine == s.entitlementsByLine
    && t.entitlementsByIntent == s.entitlementsByIntent
    && (forall x :: x in s.entitlements <==> x in t.entitlements)
    && (forall x :: x in s.entitlements ==> SameKeyed(s.entitlements[x], t.entitlements[x]))
  }

  lemma SetStatusKeepsKeys(s: Store, org: Id, id: Id, status: EntitlementStatus, now: Instant)
    ensures SameKeys(s, SetStatus(s, org, id, status, now))
  {
    if id in s.entitlements {
      var e := s.entitlements[id];
      var g := e.(facts := e.facts.(status := status), updatedAt := now);
      assert SameKeyed(e, g);
      hide SameKeyed, SameKeys;
      ReplaceKeepsKeys(s, id, g);
    }
    SameKeysRefl(s);
  }

  lemma SameKeysRefl(s: Store)
    ensures SameKeys(s, s)
  {
  }

  lemma ReplaceKeepsKeys(s: Store, id: Id, e: ClassEntitlement)
    requires id in s.entitlements && SameKeyed(s.entitlements[id], e)
    ensures SameKeys(s, s.(entitlements := s.entitlements[id := e]))
  {
    hide Facts.LineKey, Facts.IntentKey, Facts.OrderKey;
  }

  lemma SameKeysExact(s: Store, t: Store)
    requires IndexExact(s) && SameKeys(s, t)
    ensures IndexExact(t)
  {
    hide Facts.LineKey, Facts.IntentKey, Facts.OrderKey;
  }

  lemma SameKeysIntentExact(s: Store, t: Store)
    requires IntentIndexExact(s) && SameKeys(s, t)
    ensures IntentIndexExact(t)
  {
    hide Facts.LineKey, Facts.IntentKey, Facts.OrderKey;
  }

  lemma SetStatusKeepsIndexes(s: Store, org: Id, id: Id, status: EntitlementStatus, now: Instant)
    requires IndexExact(s) && IntentIndexExact(s)
    ensures IndexExact(SetStatus(s, org, id, status, now)) && IntentIndexExact(SetStatus(s, org, id, status, now))
  {
    hide IndexExact, IntentIndexExact, SameKeys, SetStatus;
    var t := SetStatus(s, org, id, status, now);
    SetStatusKeepsKeys(s, org, id, status, now);
    SameKeysExact(s, t);
    SameKeysIntentExact(s, t);
  }

  lemma SetStatusKeepsOwned(s: Store, org: Id, id: Id, status: EntitlementStatus, now: Instant)
    requires Owned(s)
    ensures Owned(SetStatus(s, org, id, status, now))
  {
  }

  lemma SetStatusKeepsInv(s: Store, org: Id, id: Id, status: EntitlementStatus, now: Instant)
    requires Inv(s)
    ensures Inv(SetStatus(s, org, id, status, now))
  {
    hide Owned, IndexExact, IntentIndexExact;
    SetStatusKeepsIndexes(s, org, id, status, now);
    SetStatusKeepsOwned(s, org, id, status, now);
  }

  lemma InsertMetadataKeepsInv(s: Store, m: Metadata)
    requires Inv(s)
    ensures Inv(InsertMetadata(s, m))
  {
    hide IndexExact, IntentIndexExact;
    InsertMetadataKeepsRest(s, m);
    hide InsertMetadata;
    SameIndexes(s, InsertMetadata(s, m));
    InsertMetadataDistinct(s, m);
  }

  lemma InsertMetadataKeepsRest(s: Store, m: Metadata)
    ensures InsertMetadata(s, m) == s.(metadata := InsertMetadata(s, m).metadata)
  {
    hide MetadataTaken;
    if !MetadataTaken(s, m) {
      var records := s.metadata + [m.(entitlement := None)];
      assert InsertMetadata(s, m) == s.(metadata := records);
    }
  }

  lemma InsertMetadataDistinct(s: Store, m: Metadata)
    requires DistinctIds(s.metadata)
    ensures DistinctIds(InsertMetadata(s, m).metadata)
  {
    if !MetadataTaken(s, m) {
      assert forall i :: 0 <= i < |s.metadata| ==> s.metadata[i].id != m.id;
    }
  }

  lemma ReceiptKeepsCore(s: Store, org: Id, webhook: Id, order: Id, payload: string, freshId: Id)
    ensures SameCore(s, RecordDelivery(s, org, webhook, order, payload, freshId).0)
  {
  }

  lemma ClaimKeepsCore(s: Store, delivery: Id, now: Instant)
    ensures SameCore(s, ClaimDelivery(s, delivery, now))
  {
  }

  lemma FailureKeepsCore(s: Store, delivery: Id, failure: string)
    ensures SameCore(s, MarkFailed(s, delivery, failure))
  {
  }

  lemma ProcessedKeepsCore(s: Store, delivery: Id, now: Instant)
    ensures SameCore(s, MarkProcessed(s, delivery, now))
  {
  }

  lemma StepKeepsInv(s: Store, e: Event)
    requires Inv(s) && Allowed(s, e)
    ensures Inv(Step(s, e))
  {
    hide Inv, Call, SetStatus, InsertMetadata, RecordPending, SameCore, FreshIds, Consistent;
    hide RecordDelivery, ClaimDelivery, MarkFailed, MarkProcessed;
    match e
    case PendingRecorded(org, order, now, freshId) => RecordPendingKeepsInv(s, org, order, now, freshId);
    case StatusSet(org, entitlement, status, now) => SetStatusKeepsInv(s, org, entitlement, status, now);
    case MetadataInserted(record) => InsertMetadataKeepsInv(s, record);
    case Finalized(input, env) => CallKeepsInv(s, input, env);
    case DeliveryRecorded(org, webhook, order, payload, freshId) =>
      ReceiptKeepsCore(s, org, webhook, order, payload, freshId);
      SameCoreInv(s, Step(s, e));
    case DeliveryClaimed(delivery, now) =>
      ClaimKeepsCore(s, delivery, now);
      SameCoreInv(s, Step(s, e));
    case DeliveryFailed(delivery, failure) =>
      FailureKeepsCore(s, delivery, failure);
      SameCoreInv(s, Step(s, e));
    case DeliveryProcessed(delivery, now) =>
      ProcessedKeepsCore(s, delivery, now);
      SameCoreInv(s, Step(s, e));
  }

  lemma {:induction false} RunKeepsInv(s: Store, es: seq<Event>)
    requires Inv(s) && AllowedRun(s, es)
    ensures Inv(Run(s, es))
    decreases |es|
  {
    hide Inv, Step, Allowed;
    if es != [] {
      StepKeepsInv(s, es[0]);
      RunKeepsInv(Step(s, es[0]), es[1..]);
    }
  }

  /** Main result: in every reachable store, for every pair of entitlements: different entitlements
      are for different paid lines; entitlements of one checkout intent belong to one order; and every
      entitlement belongs to an approved decision.  The order-line index is exact both ways. */
  lemma FulfilledExactlyOnce(es: seq<Event>, a: Id, b: Id)
    requires AllowedRun(Empty, es)
    ensures
      var s := Run(Empty, es);
      IndexExact(s)
      && (a in s.entitlements && b in s.entitlements ==>
            var f, g := s.entitlements[a].facts, s.entitlements[b].facts;
            && (a != b ==> f.LineKey() != g.LineKey())
            && (f.IntentKey() == g.IntentKey() ==> f.OrderKey() == g.OrderKey())
            && f.OrderKey() in s.decisions && s.decisions[f.OrderKey()].status.Approved?)
  {
    hide Run, AllowedRun, IntentIndexExact, DecisionsIndexed, DistinctIds;
    EmptyInv();
    RunKeepsInv(Empty, es);
  }

  lemma EmptyInv()
    ensures Inv(Empty)
  {
  }
}
