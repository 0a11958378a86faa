/** Decision finalization: what the membership-commerce repository stores, and what one call of
    finalizeDecision does to it.

    `Internal` follows the steps of the finalization in order and says at which of them it throws and
    what it has already written by then.  `Take` and `Restore` are the hand-written rollback.
    `Call` is the call as its callers see it.  The class that performs these steps in place is in
    module CommerceRepository. */
module Fulfilment {
  import opened Wrappers

  type Id = string
  type Instant = int

  /** An organization id paired with the id of an order, an order line or a checkout intent. */
  datatype Key = Key(org: Id, id: Id)

  datatype EntitlementStatus = Confirmed | Waitlisted | Cancelled | Revoked

  /** What a paid line is entitled to.  A replay must agree with every one of these. */
  datatype Facts = Facts(
    org: Id,
    festival: Id,
    festivalClass: Id,
    parent: Id,
    child: Id,
    intent: Id,
    intentLine: Option<Id>,
    order: Id,
    orderLine: Id,
    paidCents: int,
    currency: string,
    status: EntitlementStatus)
  {
    function LineKey(): Key { Key(org, orderLine) }
    function IntentKey(): Key { Key(org, intent) }
    function OrderKey(): Key { Key(org, order) }
  }

  /** What admission recorded beside the facts. */
  datatype Allocation = Allocation(cart: Option<Id>, capacity: Option<int>, placedBefore: Option<int>)

  datatype ClassEntitlement = ClassEntitlement(
    id: Id, facts: Facts, allocation: Allocation, createdAt: Instant, updatedAt: Instant)

  datatype CreateInput = CreateInput(
    id: Option<Id>, facts: Facts, allocation: Allocation, createdAt: Option<Instant>, updatedAt: Option<Instant>)

  datatype DecisionStatus = PendingValidation | Approved | Rejected | NeedsReview

  datatype Decision = Decision(
    id: Id, org: Id, customer: Option<Id>, intent: Option<Id>, order: Id, line: Option<Id>,
    status: DecisionStatus, reason: Option<string>, createdAt: Instant, updatedAt: Instant)

  datatype DecisionInput = DecisionInput(
    org: Id, customer: Option<Id>, intent: Option<Id>, order: Id, line: Option<Id>,
    status: DecisionStatus, reason: Option<string>, updatedAt: Instant)
  {
    function OrderKey(): Key { Key(org, order) }

    /** An absent or empty intent id has no key. */
    function IntentKey(): Option<Key> {
      if intent.Some? && intent.value != "" then Some(Key(org, intent.value)) else None
    }

    function LineKey(): Option<Key> {
      if line.Some? && line.value != "" then Some(Key(org, line.value)) else None
    }
  }

  datatype Projection = Projection(
    org: Id, order: Id, customer: Option<Id>, correlation: Option<Id>, paidAt: Option<Instant>,
    currency: Option<string>, createdAt: Instant, updatedAt: Instant)

  datatype ProjectionInput = ProjectionInput(
    org: Id, order: Id, customer: Option<Id>, correlation: Option<Id>, paidAt: Option<Instant>,
    currency: Option<string>, updatedAt: Instant)

  datatype DeliveryStatus = Received | Processing | Processed | Failed

  datatype Delivery = Delivery(
    id: Id, org: Id, webhook: Id, order: Id, payload: string, status: DeliveryStatus, attempts: nat,
    failure: Option<string>, startedAt: Option<Instant>, processedAt: Option<Instant>)

  /** The part of a registration-metadata record that fulfilment touches. */
  datatype Metadata = Metadata(id: Id, intent: Id, line: Option<Id>, entitlement: Option<Id>)

  /** A membership grant, written to another repository. */
  datatype GrantInput = GrantInput(valid: bool, facts: string)

  datatype Store = Store(
    deliveries: map<Id, Delivery>,
    deliveriesByWebhook: map<Key, Id>,
    projections: map<Key, Projection>,
    decisions: map<Key, Decision>,
    decisionsByIntent: map<Key, Key>,
    decisionsByLine: map<Key, Key>,
    entitlements: map<Id, ClassEntitlement>,
    entitlementsByLine: map<Key, Id>,
    entitlementsByIntent: map<Key, Id>,
    metadata: seq<Metadata>,
    intentStatus: map<Id, DecisionStatus>,
    grants: seq<GrantInput>)

  datatype Input = Input(
    delivery: Id,
    decision: DecisionInput,
    projection: Option<ProjectionInput>,
    grant: Option<GrantInput>,
    classEntitlement: Option<CreateInput>,
    classEntitlements: Option<seq<CreateInput>>)
  {
    function Classes(): seq<CreateInput> {
      if classEntitlements.Some? then classEntitlements.value
      else if classEntitlement.Some? then [classEntitlement.value]
      else []
    }
  }

  /** What the call takes from outside: fresh ids, the clock, whether a checkout repository is
      attached, and which calls into other repositories throw. */
  datatype Env = Env(
    decisionId: Id,
    entitlementIds: nat -> Id,
    now: Instant,
    hasCheckout: bool,
    grantFails: bool,
    linkFails: set<nat>,
    resolveFails: bool)

  datatype Result = Result(decision: Decision, classEntitlements: seq<ClassEntitlement>, existing: bool)

  /** `Threw` carries what had been written when the exception left the step. */
  datatype Outcome = Threw(after: Store) | Returned(after: Store, result: Result)

  // ---------------------------------------------------------------------------
  // Validation of one class entitlement
  // ---------------------------------------------------------------------------

  predicate IsBlank(s: string) {
    forall i :: 0 <= i < |s| ==> s[i] in " \t\n\r"
  }

  predicate IsCurrencyCode(s: string) {
    |s| == 3 && forall i :: 0 <= i < 3 ==> 'A' <= s[i] <= 'Z'
  }

  predicate ValidFacts(f: Facts) {
    && !IsBlank(f.org) && !IsBlank(f.festival) && !IsBlank(f.festivalClass) && !IsBlank(f.parent)
    && !IsBlank(f.child) && !IsBlank(f.intent) && !IsBlank(f.order) && !IsBlank(f.orderLine)
    && f.paidCents >= 0
    && IsCurrencyCode(f.currency)
  }

  // ---------------------------------------------------------------------------
  // Steps of the finalization
  // ---------------------------------------------------------------------------

  function Get<K, V>(m: map<K, V>, k: K): Option<V> {
    if k in m then Some(m[k]) else None
  }

  /** The entitlement of an order line, if the record belongs to the organization asked about. */
  function FindByOrderLine(s: Store, org: Id, orderLine: Id): Option<ClassEntitlement> {
    var id := Get(s.entitlementsByLine, Key(org, orderLine));
    if id.None? || id.value !in s.entitlements || s.entitlements[id.value].facts.org != org then None
    else Some(s.entitlements[id.value])
  }

  predicate Found(s: Store, org: Id, c: CreateInput) {
    FindByOrderLine(s, org, c.facts.orderLine).Some?
  }

  predicate Conflicts(s: Store, org: Id, c: CreateInput) {
    Found(s, org, c) && FindByOrderLine(s, org, c.facts.orderLine).value.facts != c.facts
  }

  /** The entitlements already recorded for the given inputs. */
  function FoundAll(s: Store, org: Id, cs: seq<CreateInput>): seq<ClassEntitlement> {
    if cs == [] then []
    else
      var found := FindByOrderLine(s, org, cs[0].facts.orderLine);
      (if found.Some? then [found.value] else []) + FoundAll(s, org, cs[1..])
  }

  function MarkProcessed(s: Store, delivery: Id, now: Instant): Store {
    if delivery in s.deliveries then
      var d := s.deliveries[delivery];
      s.(deliveries := s.deliveries[delivery :=
           d.(status := Processed, processedAt := Some(now), failure := None, startedAt := None)])
    else s
  }

  /** Whether a decision is passed on to the checkout repository. */
  predicate Resolves(d: Decision, env: Env) {
    env.hasCheckout && d.intent.Some? && d.intent.value != "" && !d.status.PendingValidation?
  }

  function ResolveIntent(s: Store, d: Decision, env: Env): Store {
    if Resolves(d, env) && d.intent.value in s.intentStatus then
      s.(intentStatus := s.intentStatus[d.intent.value := d.status])
    else s
  }

  /** The last two steps of every path: resolve the checkout intent, mark the delivery processed. */
  function Conclude(s: Store, d: Decision, delivery: Id, env: Env, r: Result): Outcome {
    if Resolves(d, env) && env.resolveFails then Threw(s)
    else Returned(MarkProcessed(ResolveIntent(s, d, env), delivery, env.now), r)
  }

  function UpsertProjection(s: Store, p: ProjectionInput): Store {
    var key := Key(p.org, p.order);
    var createdAt := if key in s.projections then s.projections[key].createdAt else p.updatedAt;
    s.(projections := s.projections[key :=
         Projection(p.org, p.order, p.customer, p.correlation, p.paidAt, p.currency, createdAt, p.updatedAt)])
  }

  function IdFor(c: CreateInput, k: nat, env: Env): Id {
    if c.id.Some? then c.id.value else env.entitlementIds(k)
  }

  function NewEntitlement(c: CreateInput, id: Id, now: Instant): ClassEntitlement {
    ClassEntitlement(id, c.facts, c.allocation,
                     if c.createdAt.Some? then c.createdAt.value else now,
                     if c.updatedAt.Some? then c.updatedAt.value else now)
  }

  /** The entitlement the line index leads to, whoever it belongs to. */
  function Indexed(s: Store, key: Key): Option<ClassEntitlement> {
    var id := Get(s.entitlementsByLine, key);
    if id.Some? then Get(s.entitlements, id.value) else None
  }

  /** The record of a line that has none, in the three entitlement maps. */
  function AddRecord(s: Store, c: CreateInput, id: Id, now: Instant): Store {
    s.(entitlements := s.entitlements[id := NewEntitlement(c, id, now)],
       entitlementsByLine := s.entitlementsByLine[c.facts.LineKey() := id],
       entitlementsByIntent := s.entitlementsByIntent[c.facts.IntentKey() := id])
  }

  /** Create the entitlement of one paid line, or find the one it already has.  Conflicting facts throw. */
  function CreateOne(s: Store, c: CreateInput, id: Id, now: Instant): Option<(Store, ClassEntitlement)> {
    var existing := Indexed(s, c.facts.LineKey());
    if existing.Some? then
      if existing.value.facts == c.facts then Some((s, existing.value)) else None
    else Some((AddRecord(s, c, id, now), NewEntitlement(c, id, now)))
  }

  /** A given line id selects by line, otherwise the intent id selects. */
  predicate Links(m: Metadata, c: CreateInput) {
    if c.facts.intentLine.Some? && c.facts.intentLine.value != "" then m.line == c.facts.intentLine
    else m.intent == c.facts.intent
  }

  /** Link the first matching metadata record to an entitlement. */
  function Link(ms: seq<Metadata>, c: CreateInput, entitlement: Id): (r: seq<Metadata>)
    ensures |r| == |ms|
  {
    if ms == [] then []
    else if Links(ms[0], c) then [ms[0].(entitlement := Some(entitlement))] + ms[1..]
    else [ms[0]] + Link(ms[1..], c, entitlement)
  }

  datatype Created = CreateThrew(after: Store) | CreatedAll(after: Store, made: seq<ClassEntitlement>)

  /** Create the entitlements of lines k and later, in order, linking each to its metadata. */
  function CreateFrom(s: Store, cs: seq<CreateInput>, k: nat, env: Env): Created
    requires k <= |cs|
    decreases |cs| - k
  {
    if k == |cs| then CreatedAll(s, [])
    else
      var one := CreateOne(s, cs[k], IdFor(cs[k], k, env), env.now);
      if one.None? then CreateThrew(s)
      else if env.hasCheckout && k in env.linkFails then CreateThrew(one.value.0)
      else
        var linked := if env.hasCheckout
                      then one.value.0.(metadata := Link(one.value.0.metadata, cs[k], one.value.1.id))
                      else one.value.0;
        var rest := CreateFrom(linked, cs, k + 1, env);
        if rest.CreateThrew? then rest else CreatedAll(rest.after, [one.value.1] + rest.made)
  }

  function NewDecision(s: Store, d: DecisionInput, env: Env): Decision {
    var existing := Get(s.decisions, d.OrderKey());
    Decision(if existing.Some? then existing.value.id else env.decisionId,
             d.org, d.customer, d.intent, d.order, d.line, d.status, d.reason,
             if existing.Some? then existing.value.createdAt else d.updatedAt, d.updatedAt)
  }

  function WriteDecision(s: Store, d: DecisionInput, record: Decision): Store {
    var ik, lk := d.IntentKey(), d.LineKey();
    s.(decisions := s.decisions[d.OrderKey() := record],
       decisionsByIntent := if ik.Some? then s.decisionsByIntent[ik.value := d.OrderKey()] else s.decisionsByIntent,
       decisionsByLine := if lk.Some? then s.decisionsByLine[lk.value := d.OrderKey()] else s.decisionsByLine)
  }

  function Project(s: Store, input: Input): Store {
    if input.projection.Some? then UpsertProjection(s, input.projection.value) else s
  }

  /** Record the decision in the three decision maps and conclude. */
  function Record(s: Store, record: Decision, input: Input, env: Env, made: seq<ClassEntitlement>): Outcome {
    Conclude(WriteDecision(s, input.decision, record), record, input.delivery, env, Result(record, made, false))
  }

  function ApproveGrant(s: Store, record: Decision, input: Input, g: GrantInput, env: Env): Outcome {
    if !g.valid || env.grantFails then Threw(s)
    else Record(s.(grants := s.grants + [g]), record, input, env, [])
  }

  function ApproveClasses(s: Store, record: Decision, input: Input, env: Env): Outcome {
    match CreateFrom(s, input.Classes(), 0, env)
    case CreateThrew(t) => Threw(t)
    case CreatedAll(t, made) => Record(t, record, input, env, made)
  }

  /** Grant or entitlements, if the decision approves; neither, if it does not. */
  function Decide(s: Store, record: Decision, input: Input, env: Env): Outcome {
    if input.decision.status.Approved? then
      if input.grant.Some? == (input.Classes() != []) then Threw(s)
      else if input.grant.Some? then ApproveGrant(s, record, input, input.grant.value, env)
      else ApproveClasses(s, record, input, env)
    else if input.grant.Some? || input.Classes() != [] then Threw(s)
    else Record(s, record, input, env, [])
  }

  predicate ProjectionMatches(input: Input) {
    input.projection.Some? ==>
      Key(input.projection.value.org, input.projection.value.order) == input.decision.OrderKey()
  }

  function Write(s: Store, input: Input, env: Env): Outcome {
    if !ProjectionMatches(input) then Threw(s)
    else Decide(Project(s, input), NewDecision(s, input.decision, env), input, env)
  }

  /** The order that an index already assigns to a key, when it is another order than this one. */
  function Competing(index: map<Key, Key>, key: Option<Key>, order: Key): Option<Key> {
    if key.Some? && key.value in index && index[key.value] != order then Some(index[key.value]) else None
  }

  /** An earlier decision answers the call. */
  function AnswerWith(s: Store, input: Input, env: Env, order: Key): Outcome {
    if order !in s.decisions then Threw(s)
    else
      var line := input.decision.LineKey();
      var found := if line.Some? then FindByOrderLine(s, line.value.org, line.value.id) else None;
      Conclude(s, s.decisions[order], input.delivery, env,
               Result(s.decisions[order], if found.Some? then [found.value] else [], true))
  }

  predicate IsTerminal(s: Store, order: Key) {
    order in s.decisions && !s.decisions[order].status.PendingValidation?
  }

  /** Every class entitlement of a decided order is already there. */
  predicate IsReplay(s: Store, input: Input) {
    IsTerminal(s, input.decision.OrderKey())
    && forall i :: 0 <= i < |input.Classes()| ==> Found(s, input.decision.org, input.Classes()[i])
  }

  predicate ReplayConflicts(s: Store, input: Input) {
    IsTerminal(s, input.decision.OrderKey())
    && exists i :: 0 <= i < |input.Classes()| && Conflicts(s, input.decision.org, input.Classes()[i])
  }

  predicate Malformed(input: Input) {
    || (input.classEntitlement.Some? && input.classEntitlements.Some?)
    || exists i :: 0 <= i < |input.Classes()| && !ValidFacts(input.Classes()[i].facts)
  }

  function Internal(s: Store, input: Input, env: Env): Outcome {
    var d := input.decision;
    if Malformed(input) then Threw(s)
    else if ReplayConflicts(s, input) then Threw(s)
    else if IsReplay(s, input) then
      var existing := s.decisions[d.OrderKey()];
      Conclude(s, existing, input.delivery, env, Result(existing, FoundAll(s, d.org, input.Classes()), true))
    else
      var rival := Competing(s.decisionsByIntent, d.IntentKey(), d.OrderKey());
      if rival.Some? then AnswerWith(s, input, env, rival.value)
      else
        var rivalLine := Competing(s.decisionsByLine, d.LineKey(), d.OrderKey());
        if rivalLine.Some? then AnswerWith(s, input, env, rivalLine.value)
        else Write(s, input, env)
  }

  // ---------------------------------------------------------------------------
  // Snapshot and rollback
  // ---------------------------------------------------------------------------

  datatype Snapshot = Snapshot(
    lines: seq<(Key, Option<Id>)>,
    intents: seq<(Key, Option<Id>)>,
    links: map<Id, Option<Id>>,
    projection: Option<Projection>,
    decision: Option<Decision>,
    intentDecision: Option<Key>,
    lineDecision: Option<Key>,
    delivery: Option<Delivery>)

  function LineSnapshots(s: Store, cs: seq<CreateInput>): (r: seq<(Key, Option<Id>)>)
    ensures |r| == |cs|
    ensures forall i :: 0 <= i < |cs| ==>
              r[i] == (cs[i].facts.LineKey(), Get(s.entitlementsByLine, cs[i].facts.LineKey()))
  {
    if cs == [] then []
    else [(cs[0].facts.LineKey(), Get(s.entitlementsByLine, cs[0].facts.LineKey()))] + LineSnapshots(s, cs[1..])
  }

  function IntentSnapshots(s: Store, cs: seq<CreateInput>): (r: seq<(Key, Option<Id>)>)
    ensures |r| == |cs|
    ensures forall i :: 0 <= i < |cs| ==>
              r[i] == (cs[i].facts.IntentKey(), Get(s.entitlementsByIntent, cs[i].facts.IntentKey()))
  {
    if cs == [] then []
    else [(cs[0].facts.IntentKey(), Get(s.entitlementsByIntent, cs[0].facts.IntentKey()))]
         + IntentSnapshots(s, cs[1..])
  }

  /** Metadata records of one of the intents or one of the intent lines. */
  predicate Touched(m: Metadata, cs: seq<CreateInput>) {
    exists i :: 0 <= i < |cs| &&
      (m.intent == cs[i].facts.intent || (m.line.Some? && m.line.value != "" && m.line == cs[i].facts.intentLine))
  }

  function LinkSnapshot(ms: seq<Metadata>, cs: seq<CreateInput>): map<Id, Option<Id>> {
    if ms == [] then map[]
    else
      var before := LinkSnapshot(ms[..|ms| - 1], cs);
      var m := ms[|ms| - 1];
      if Touched(m, cs) then before[m.id := m.entitlement] else before
  }

  function Take(s: Store, input: Input, env: Env): Snapshot {
    var cs, d := input.Classes(), input.decision;
    Snapshot(
      LineSnapshots(s, cs),
      IntentSnapshots(s, cs),
      if env.hasCheckout then LinkSnapshot(s.metadata, cs) else map[],
      Get(s.projections, d.OrderKey()),
      Get(s.decisions, d.OrderKey()),
      if d.IntentKey().Some? then Get(s.decisionsByIntent, d.IntentKey().value) else None,
      if d.LineKey().Some? then Get(s.decisionsByLine, d.LineKey().value) else None,
      Get(s.deliveries, input.delivery))
  }

  function Put<K, V>(m: map<K, V>, k: K, v: Option<V>): map<K, V> {
    if v.Some? then m[k := v.value] else m - {k}
  }

  /** Undo one line: a key that had no value loses the record created for it; then the key gets its
      old value back, or none. */
  function RestoreLine(s: Store, line: (Key, Option<Id>)): Store {
    var made := if line.1.None? then Get(s.entitlementsByLine, line.0) else None;
    s.(entitlements := if made.Some? then s.entitlements - {made.value} else s.entitlements,
       entitlementsByLine := Put(s.entitlementsByLine, line.0, line.1))
  }

  function RestoreLines(s: Store, lines: seq<(Key, Option<Id>)>): Store
    decreases |lines|
  {
    if lines == [] then s else RestoreLines(RestoreLine(s, lines[0]), lines[1..])
  }

  function RestoreIntents(m: map<Key, Id>, intents: seq<(Key, Option<Id>)>): map<Key, Id>
    decreases |intents|
  {
    if intents == [] then m else RestoreIntents(Put(m, intents[0].0, intents[0].1), intents[1..])
  }

  function RestoreLinks(ms: seq<Metadata>, links: map<Id, Option<Id>>): (r: seq<Metadata>)
    ensures |r| == |ms|
    ensures forall i :: 0 <= i < |ms| ==>
              r[i] == if ms[i].id in links then ms[i].(entitlement := links[ms[i].id]) else ms[i]
  {
    if ms == [] then []
    else [if ms[0].id in links then ms[0].(entitlement := links[ms[0].id]) else ms[0]]
         + RestoreLinks(ms[1..], links)
  }

  function RestoreEntitlements(s: Store, snap: Snapshot): Store {
    var t := RestoreLines(s, snap.lines);
    t.(entitlementsByIntent := RestoreIntents(t.entitlementsByIntent, snap.intents),
       metadata := RestoreLinks(t.metadata, snap.links))
  }

  function RestoreDecisions(s: Store, snap: Snapshot, input: Input): Store {
    var d := input.decision;
    s.(projections := Put(s.projections, d.OrderKey(), snap.projection),
       decisions := Put(s.decisions, d.OrderKey(), snap.decision),
       decisionsByIntent :=
         if d.IntentKey().Some? then Put(s.decisionsByIntent, d.IntentKey().value, snap.intentDecision)
         else s.decisionsByIntent,
       decisionsByLine :=
         if d.LineKey().Some? then Put(s.decisionsByLine, d.LineKey().value, snap.lineDecision)
         else s.decisionsByLine,
       deliveries :=
         if snap.delivery.Some? then s.deliveries[input.delivery := snap.delivery.value] else s.deliveries)
  }

  function Restore(s: Store, snap: Snapshot, input: Input): Store {
    RestoreDecisions(RestoreEntitlements(s, snap), snap, input)
  }

  /** One call: commit what `Internal` returned, or roll back what it had written and rethrow. */
  function Call(s: Store, input: Input, env: Env): Outcome {
    match Internal(s, input, env)
    case Returned(after, r) => Returned(after, r)
    case Threw(after) => Threw(Restore(after, Take(s, input, env), input))
  }

  // ---------------------------------------------------------------------------
  // The other calls
  // ---------------------------------------------------------------------------

  datatype Recorded = Accepted(delivery: Delivery) | Duplicate(delivery: Delivery) | Conflict | IndexBroken

  function RecordDelivery(s: Store, org: Id, webhook: Id, order: Id, payload: string, freshId: Id): (Store, Recorded) {
    var known := Get(s.deliveriesByWebhook, Key(org, webhook));
    if known.Some? then
      if known.value !in s.deliveries then (s, IndexBroken)
      else if s.deliveries[known.value].payload != payload then (s, Conflict)
      else (s, Duplicate(s.deliveries[known.value]))
    else
      var delivery := Delivery(freshId, org, webhook, order, payload, Received, 0, None, None, None);
      (s.(deliveries := s.deliveries[freshId := delivery],
          deliveriesByWebhook := s.deliveriesByWebhook[Key(org, webhook) := freshId]),
       Accepted(delivery))
  }

  predicate Claimable(s: Store, id: Id) {
    id in s.deliveries && (s.deliveries[id].status.Received? || s.deliveries[id].status.Failed?)
  }

  function ClaimDelivery(s: Store, id: Id, now: Instant): Store {
    if Claimable(s, id) then
      var d := s.deliveries[id];
      s.(deliveries := s.deliveries[id :=
           d.(status := Processing, attempts := d.attempts + 1, failure := None, startedAt := Some(now))])
    else s
  }

  function MarkFailed(s: Store, id: Id, failure: string): Store {
    if id in s.deliveries then
      s.(deliveries := s.deliveries[id :=
           s.deliveries[id].(status := Failed, failure := Some(failure), startedAt := None)])
    else s
  }

  function RecordPending(s: Store, org: Id, order: Id, now: Instant, freshId: Id): Store {
    if Key(org, order) in s.decisions then s
    else s.(decisions := s.decisions[Key(org, order) :=
              Decision(freshId, org, None, None, order, None, PendingValidation, None, now, now)])
  }

  function SetStatus(s: Store, org: Id, id: Id, status: EntitlementStatus, now: Instant): Store {
    if id in s.entitlements && s.entitlements[id].facts.org == org then
      var e := s.entitlements[id];
      s.(entitlements := s.entitlements[id := e.(facts := e.facts.(status := status), updatedAt := now)])
    else s
  }

  predicate MetadataTaken(s: Store, m: Metadata) {
    exists i :: 0 <= i < |s.metadata| &&
      (s.metadata[i].id == m.id || (m.line.Some? && s.metadata[i].line == m.line))
  }

  function InsertMetadata(s: Store, m: Metadata): Store {
    if MetadataTaken(s, m) then s else s.(metadata := s.metadata + [m.(entitlement := None)])
  }
}
