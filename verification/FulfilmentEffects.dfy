/** What a finalization leaves, map by map and field by field: the delivery and the checkout intent it concludes, the
    decision and projection it records, the grant or the entitlements it gives; when a first finalization succeeds;
    and which earlier decision answers a repeated one. */
module FulfilmentEffects {
  import opened Fulfilment
  import opened FulfilmentRollback
  import opened FulfilmentRuns
  import opened FulfilmentReplay
  import opened FulfilmentLines
  import opened Wrappers

  // ---------------------------------------------------------------------------
  // Concluding
  // ---------------------------------------------------------------------------

  /** The named delivery, if there is one, is processed at `now`, no longer started and without a failure; the
      others are as they were. */
  ghost predicate DeliveryFinished(m: map<Id, Delivery>, n: map<Id, Delivery>, delivery: Id, now: Instant) {
    && n.Keys == m.Keys
    && (delivery in m ==>
          && n[delivery].status == Processed && n[delivery].processedAt == Some(now)
          && n[delivery].startedAt == None && n[delivery].failure == None
          && n[delivery].attempts == m[delivery].attempts && n[delivery].payload == m[delivery].payload
          && n[delivery].id == m[delivery].id && n[delivery].org == m[delivery].org
          && n[delivery].webhook == m[delivery].webhook && n[delivery].order == m[delivery].order)
    && forall id :: id in m && id != delivery ==> n[id] == m[id]
  }

  /** With a checkout attached and a status that is final, the decision's intent, if known, has that status; the
      others are as they were. */
  ghost predicate IntentFinished(m: map<Id, DecisionStatus>, n: map<Id, DecisionStatus>, intent: Option<Id>,
                                 status: DecisionStatus, hasCheckout: bool)
  {
    && n.Keys == m.Keys
    && forall i :: i in m ==>
         n[i] == if hasCheckout && status != PendingValidation && intent == Some(i) && i != "" then status else m[i]
  }

  lemma ConcludeFinishes(s: Store, d: Decision, delivery: Id, env: Env, r: Result)
    requires Conclude(s, d, delivery, env, r).Returned?
    ensures
      var o := Conclude(s, d, delivery, env, r);
      && o.result == r
      && o.after == s.(deliveries := o.after.deliveries, intentStatus := o.after.intentStatus)
      && DeliveryFinished(s.deliveries, o.after.deliveries, delivery, env.now)
      && IntentFinished(s.intentStatus, o.after.intentStatus, d.intent, d.status, env.hasCheckout)
  {
    var t := ResolveIntent(s, d, env);
    IntentIs(s, d, env);
    DeliveryIs(t, delivery, env.now);
    hide MarkProcessed, ResolveIntent, Resolves, DeliveryFinished, IntentFinished;
  }

  lemma IntentIs(s: Store, d: Decision, env: Env)
    ensures
      var t := ResolveIntent(s, d, env);
      && t == s.(intentStatus := t.intentStatus)
      && IntentFinished(s.intentStatus, t.intentStatus, d.intent, d.status, env.hasCheckout)
  {
    ResolveIntentIs(s, d, env);
    IntentSet(s.intentStatus, d, env);
    hide ResolveIntent, ResolvedIn, IntentFinished;
  }

  lemma IntentSet(m: map<Id, DecisionStatus>, d: Decision, env: Env)
    ensures IntentFinished(m, ResolvedIn(m, d, env), d.intent, d.status, env.hasCheckout)
  {
    IntentsConcluded(m, d, env);
    hide ResolvedIn;
  }

  lemma DeliveryIs(s: Store, delivery: Id, now: Instant)
    ensures
      var t := MarkProcessed(s, delivery, now);
      t == s.(deliveries := t.deliveries) && DeliveryFinished(s.deliveries, t.deliveries, delivery, now)
  {
    MarkProcessedIs(s, delivery, now);
    hide MarkProcessed;
  }

  // ---------------------------------------------------------------------------
  // Recording
  // ---------------------------------------------------------------------------

  /** The stored decision carries the input's fields; an earlier record of the order keeps its id and creation. */
  ghost predicate IsDecisionOf(s: Store, d: DecisionInput, env: Env, r: Decision) {
    var key := Key(d.org, d.order);
    && r.org == d.org && r.order == d.order && r.customer == d.customer && r.intent == d.intent && r.line == d.line
    && r.status == d.status && r.reason == d.reason && r.updatedAt == d.updatedAt
    && (key in s.decisions ==> r.id == s.decisions[key].id && r.createdAt == s.decisions[key].createdAt)
    && (key !in s.decisions ==> r.id == env.decisionId && r.createdAt == d.updatedAt)
  }

  /** The order leads to the decision, and the decision's intent and line, if it has them, to the order. */
  ghost predicate DecisionIndexed(s: Store, t: Store, d: DecisionInput, r: Decision) {
    var key := Key(d.org, d.order);
    && t.decisions == s.decisions[key := r]
    && (if d.intent == None || d.intent == Some("") then t.decisionsByIntent == s.decisionsByIntent
        else t.decisionsByIntent == s.decisionsByIntent[Key(d.org, d.intent.value) := key])
    && (if d.line == None || d.line == Some("") then t.decisionsByLine == s.decisionsByLine
        else t.decisionsByLine == s.decisionsByLine[Key(d.org, d.line.value) := key])
  }

  /** A projection, if given, is stored under its order with the input's fields; one stored before keeps its
      creation. */
  ghost predicate ProjectionRecorded(s: Store, t: Store, input: Input) {
    match input.projection
    case None => t.projections == s.projections
    case Some(p) =>
      var key := Key(p.org, p.order);
      var created := if key in s.projections then s.projections[key].createdAt else p.updatedAt;
      t.projections == s.projections[key := Projection(p.org, p.order, p.customer, p.correlation, p.paidAt,
                                                       p.currency, created, p.updatedAt)]
  }

  lemma DecisionIs(s: Store, d: DecisionInput, env: Env)
    ensures IsDecisionOf(s, d, env, NewDecision(s, d, env))
  {
  }

  lemma ProjectionIs(s: Store, input: Input)
    ensures
      var t := Project(s, input);
      t == s.(projections := t.projections) && ProjectionRecorded(s, t, input)
  {
  }

  lemma WriteIs(s: Store, d: DecisionInput, r: Decision)
    ensures
      var t := WriteDecision(s, d, r);
      && t == s.(decisions := t.decisions, decisionsByIntent := t.decisionsByIntent,
                 decisionsByLine := t.decisionsByLine)
      && DecisionIndexed(s, t, d, r)
  {
  }

  /** From the store `t` in which the decision is recorded to the store the call leaves. */
  ghost predicate RecordLeft(t: Store, u: Store, input: Input, env: Env, r: Decision) {
    && u == t.(decisions := u.decisions, decisionsByIntent := u.decisionsByIntent,
               decisionsByLine := u.decisionsByLine, deliveries := u.deliveries, intentStatus := u.intentStatus)
    && DecisionIndexed(t, u, input.decision, r)
    && DeliveryFinished(t.deliveries, u.deliveries, input.delivery, env.now)
    && IntentFinished(t.intentStatus, u.intentStatus, r.intent, r.status, env.hasCheckout)
  }

  lemma RecordLeaves(t: Store, r: Decision, input: Input, env: Env, made: seq<ClassEntitlement>)
    requires Record(t, r, input, env, made).Returned?
    ensures
      var o := Record(t, r, input, env, made);
      && o.result.decision == r && o.result.classEntitlements == made && !o.result.existing
      && RecordLeft(t, o.after, input, env, r)
  {
    hide WriteDecision, Conclude, DeliveryFinished, IntentFinished;
    var v := WriteDecision(t, input.decision, r);
    WriteIs(t, input.decision, r);
    ConcludeFinishes(v, r, input.delivery, env, Result(r, made, false));
  }

  /** How a write that returns got to recording its decision. */
  lemma WriteStages(s: Store, input: Input, env: Env) returns (t: Store, made: seq<ClassEntitlement>)
    requires Write(s, input, env).Returned?
    ensures Write(s, input, env) == Record(t, NewDecision(s, input.decision, env), input, env, made)
    ensures
      var p, cs := Project(s, input), input.Classes();
      if input.decision.status == Approved && input.grant != None then
        && input.grant.value.valid && !env.grantFails
        && t == p.(grants := p.grants + [input.grant.value]) && made == [] && cs == []
      else if input.decision.status == Approved then
        CreateFrom(p, cs, 0, env) == CreatedAll(t, made) && cs != [] && input.grant == None
      else
        t == p && made == [] && cs == [] && input.grant == None
  {
    hide Project, NewDecision, CreateFrom, Record;
    var p := Project(s, input);
    if input.decision.status.Approved? && input.grant.Some? {
      t, made := p.(grants := p.grants + [input.grant.value]), [];
    } else if input.decision.status.Approved? {
      var r := CreateFrom(p, input.Classes(), 0, env);
      t, made := r.after, r.made;
    } else {
      t, made := p, [];
    }
  }

  // ---------------------------------------------------------------------------
  // The entitlements
  // ---------------------------------------------------------------------------

  /** Every line has the record returned for it; a line recorded before has its old one; no record is lost or
      changed, and the new ones are those made for new lines. */
  ghost predicate EntitlementsLeft(s: Store, u: Store, cs: seq<CreateInput>, made: seq<ClassEntitlement>) {
    && |made| == |cs|
    && (forall i: nat :: i < |cs| ==>
          && made[i].facts == cs[i].facts
          && Get(u.entitlementsByLine, LineOf(cs[i])) == Some(made[i].id)
          && Get(u.entitlements, made[i].id) == Some(made[i])
          && (LineOf(cs[i]) in s.entitlementsByLine ==> Get(s.entitlements, made[i].id) == Some(made[i])))
    && (forall id :: id in s.entitlements ==> Get(u.entitlements, id) == Some(s.entitlements[id]))
    && (forall id :: id in u.entitlements && id !in s.entitlements ==>
          exists i: nat :: i < |made| && NewAt(s, cs, 0, i) && made[i].id == id)
  }

  lemma {:induction false} FirstNew(s: Store, cs: seq<CreateInput>, key: Key, n: nat) returns (i: nat)
    requires n < |cs| && LineOf(cs[n]) == key && key !in s.entitlementsByLine
    ensures NewAt(s, cs, 0, i) && LineOf(cs[i]) == key
    decreases n
  {
    if j :| 0 <= j < n && LineOf(cs[j]) == key {
      i := FirstNew(s, cs, key, j);
    } else {
      i := n;
    }
  }

  lemma IndexedMeans(t: Store, key: Key, e: ClassEntitlement)
    requires IndexExact(t) && Indexed(t, key) == Some(e)
    ensures Get(t.entitlementsByLine, key) == Some(e.id) && Get(t.entitlements, e.id) == Some(e)
    ensures e.facts.LineKey() == key
  {
  }

  lemma EntitlementsAre(s: Store, p: Store, cs: seq<CreateInput>, env: Env)
    requires SameCore(s, p) && IndexExact(s) && FreshIds(s, cs, env) && CreateFrom(p, cs, 0, env).CreatedAll?
    requires IndexExact(CreateFrom(p, cs, 0, env).after)
    ensures EntitlementsLeft(s, CreateFrom(p, cs, 0, env).after, cs, CreateFrom(p, cs, 0, env).made)
  {
    hide CreateFrom, IndexExact, Indexed, FreshIds, NewAt;
    CreatedFromProject(s, p, cs, env);
    var r := CreateFrom(p, cs, 0, env);
    forall i: nat | i < |cs|
      ensures Get(r.after.entitlementsByLine, LineOf(cs[i])) == Some(r.made[i].id)
      ensures Get(r.after.entitlements, r.made[i].id) == Some(r.made[i])
      ensures LineOf(cs[i]) in s.entitlementsByLine ==> Get(s.entitlements, r.made[i].id) == Some(r.made[i])
    {
      IndexedMeans(r.after, LineOf(cs[i]), r.made[i]);
      if LineOf(cs[i]) in s.entitlementsByLine {
        OldIsSame(s, r.after, LineOf(cs[i]), r.made[i]);
      }
    }
    forall id | id in r.after.entitlements && id !in s.entitlements
      ensures exists i: nat :: i < |r.made| && NewAt(s, cs, 0, i) && r.made[i].id == id
    {
      var i := NewIsMade(s, p, cs, env, id);
    }
  }

  lemma OldIsSame(s: Store, t: Store, key: Key, e: ClassEntitlement)
    requires IndexExact(s) && Extends(s.entitlements, t.entitlements)
    requires Extends(s.entitlementsByLine, t.entitlementsByLine)
    requires key in s.entitlementsByLine && Get(t.entitlementsByLine, key) == Some(e.id)
    requires Get(t.entitlements, e.id) == Some(e)
    ensures Get(s.entitlements, e.id) == Some(e)
  {
  }

  lemma NewIsMade(s: Store, p: Store, cs: seq<CreateInput>, env: Env, id: Id) returns (i: nat)
    requires SameCore(s, p) && IndexExact(s) && FreshIds(s, cs, env) && CreateFrom(p, cs, 0, env).CreatedAll?
    requires IndexExact(CreateFrom(p, cs, 0, env).after)
    requires id in CreateFrom(p, cs, 0, env).after.entitlements && id !in s.entitlements
    ensures NewAt(s, cs, 0, i) && i < |CreateFrom(p, cs, 0, env).made| && CreateFrom(p, cs, 0, env).made[i].id == id
  {
    hide CreateFrom, FreshIds, NewAt, Indexed;
    CreatedFromProject(s, p, cs, env);
    CreateGrew(s, p, cs, env);
    var r := CreateFrom(p, cs, 0, env);
    NewRecordHasNewKey(s, r.after, cs, id);
    var key := r.after.entitlements[id].facts.LineKey();
    var n :| 0 <= n < |cs| && cs[n].facts.LineKey() == key;
    i := FirstNew(s, cs, key, n);
    NewInRange(s, cs, 0, i);
    IndexedMeans(r.after, key, r.made[i]);
  }

  lemma CreateGrew(s: Store, p: Store, cs: seq<CreateInput>, env: Env)
    requires SameCore(s, p) && IndexExact(s) && FreshIds(s, cs, env)
    ensures Going(p, p, cs, 0, env) && EntitlementsGrew(s, CreateFrom(p, cs, 0, env).after, cs)
  {
    assert IndexExact(p) && FreshIds(p, cs, env);
    hide IndexExact, FreshIds, CreateFrom, OnlyFirst, LinksMoved;
    GrewRefl(p, cs, env);
    CreateFromGrows(p, p, cs, 0, env);
  }

  // ---------------------------------------------------------------------------
  // A first finalization
  // ---------------------------------------------------------------------------

  /** The class lines of a call: the list if it has one, or else the single one, or none. */
  ghost predicate AreLines(input: Input, cs: seq<CreateInput>) {
    match (input.classEntitlements, input.classEntitlement)
    case (Some(all), _) => cs == all
    case (None, Some(one)) => cs == [one]
    case (None, None) => cs == []
  }

  lemma LinesAreClasses(input: Input, cs: seq<CreateInput>)
    requires AreLines(input, cs)
    ensures input.Classes() == cs
  {
  }

  /** What the call gives: a grant or entitlements when it approves, and otherwise neither. */
  ghost predicate Gives(s: Store, t: Store, input: Input, cs: seq<CreateInput>) {
    if input.decision.status == Approved then
      && (input.grant != None <==> cs == [])
      && (input.grant != None ==> input.grant.value.valid && t.grants == s.grants + [input.grant.value])
      && (input.grant == None ==> t.grants == s.grants)
    else
      t.grants == s.grants && input.grant == None && cs == []
  }

  ghost predicate CreationLeft(s: Store, t: Store, cs: seq<CreateInput>, env: Env, made: seq<ClassEntitlement>) {
    && EntitlementsLeft(s, t, cs, made) && RecordsMade(s, cs, 0, env, made)
    && LinesIndexed(s, t, cs, 0, made) && IntentsIndexed(s, t, cs, 0, made)
    && MetadataLeft(s, t, cs, 0, env, made)
  }

  /** From the store before the call to the one in which its decision is recorded. */
  ghost predicate GaveOver(s: Store, t: Store, input: Input, env: Env, cs: seq<CreateInput>,
                           made: seq<ClassEntitlement>)
  {
    && s == t.(projections := s.projections, grants := s.grants, entitlements := s.entitlements,
               entitlementsByLine := s.entitlementsByLine, entitlementsByIntent := s.entitlementsByIntent,
               metadata := s.metadata)
    && ProjectionRecorded(s, t, input) && Gives(s, t, input, cs) && CreationLeft(s, t, cs, env, made)
  }

  lemma NothingCreated(s: Store, t: Store, env: Env)
    requires t.entitlements == s.entitlements && t.entitlementsByLine == s.entitlementsByLine
    requires t.entitlementsByIntent == s.entitlementsByIntent && t.metadata == s.metadata
    ensures CreationLeft(s, t, [], env, [])
  {
  }

  lemma ClassesCreated(s: Store, p: Store, cs: seq<CreateInput>, env: Env)
    requires SameCore(s, p) && IndexExact(s) && FreshIds(s, cs, env) && CreateFrom(p, cs, 0, env).CreatedAll?
    ensures CreationLeft(s, CreateFrom(p, cs, 0, env).after, cs, env, CreateFrom(p, cs, 0, env).made)
    ensures SameElsewhere(p, CreateFrom(p, cs, 0, env).after)
  {
    hide CreateFrom, FreshIds, EntitlementsLeft, RecordsMade, LinesIndexed, IntentsIndexed, MetadataLeft;
    hide OnlyFirst, LinksMoved, NewLinesOf, SameOffIntents;
    CreateGrew(s, p, cs, env);
    EntitlementsAre(s, p, cs, env);
    CreationLeaves(p, p, cs, 0, env);
    CreateFromKeepsDecisions(p, cs, 0, env);
    var r := CreateFrom(p, cs, 0, env);
    SameStart(s, p, r.after, cs, env, r.made);
  }

  lemma SameStart(s: Store, p: Store, u: Store, cs: seq<CreateInput>, env: Env, made: seq<ClassEntitlement>)
    requires SameCore(s, p)
    requires RecordsMade(p, cs, 0, env, made) && LinesIndexed(p, u, cs, 0, made)
    requires IntentsIndexed(p, u, cs, 0, made) && MetadataLeft(p, u, cs, 0, env, made)
    ensures RecordsMade(s, cs, 0, env, made) && LinesIndexed(s, u, cs, 0, made)
    ensures IntentsIndexed(s, u, cs, 0, made) && MetadataLeft(s, u, cs, 0, env, made)
  {
    forall i: nat ensures NewAt(s, cs, 0, i) <==> NewAt(p, cs, 0, i) {
    }
    hide NewAt, MadeFor, LinksLeft;
    assert forall key :: NoneOfLine(s, cs, 0, key) <==> NoneOfLine(p, cs, 0, key);
    assert forall key :: NoneOfIntent(s, cs, 0, key) <==> NoneOfIntent(p, cs, 0, key);
    assert forall i: nat :: LastOfIntent(s, cs, 0, i) <==> LastOfIntent(p, cs, 0, i);
  }

  ghost predicate HasText(s: string) {
    exists i :: 0 <= i < |s| && s[i] != ' ' && s[i] != '\t' && s[i] != '\n' && s[i] != '\r'
  }

  ghost predicate IsCapital(c: char) {
    'A' <= c <= 'Z'
  }

  /** Every name has text, the amount is not negative, and the currency is three capital letters. */
  ghost predicate FactsFine(f: Facts) {
    && HasText(f.org) && HasText(f.festival) && HasText(f.festivalClass) && HasText(f.parent)
    && HasText(f.child) && HasText(f.intent) && HasText(f.order) && HasText(f.orderLine)
    && f.paidCents >= 0
    && |f.currency| == 3 && IsCapital(f.currency[0]) && IsCapital(f.currency[1]) && IsCapital(f.currency[2])
  }

  lemma TextExactly(s: string)
    ensures HasText(s) <==> !IsBlank(s)
  {
    var blank := " \t\n\r";
    assert blank[0] == ' ' && blank[1] == '\t' && blank[2] == '\n' && blank[3] == '\r' && |blank| == 4;
    assert forall c :: c in blank <==> c == ' ' || c == '\t' || c == '\n' || c == '\r';
  }

  lemma FineExactly(f: Facts)
    ensures FactsFine(f) <==> ValidFacts(f)
  {
    TextExactly(f.org);
    TextExactly(f.festival);
    TextExactly(f.festivalClass);
    TextExactly(f.parent);
    TextExactly(f.child);
    TextExactly(f.intent);
    TextExactly(f.order);
    TextExactly(f.orderLine);
    hide HasText, IsBlank;
  }

  ghost predicate WellFormed(input: Input, cs: seq<CreateInput>) {
    && !(input.classEntitlement.Some? && input.classEntitlements.Some?)
    && forall i :: 0 <= i < |cs| ==> FactsFine(cs[i].facts)
  }

  lemma WellFormedExactly(input: Input, cs: seq<CreateInput>)
    requires AreLines(input, cs)
    ensures WellFormed(input, cs) <==> !Malformed(input)
  {
    LinesAreClasses(input, cs);
    hide FactsFine, ValidFacts;
    forall i | 0 <= i < |cs| ensures FactsFine(cs[i].facts) <==> ValidFacts(cs[i].facts) {
      FineExactly(cs[i].facts);
    }
  }

  lemma GrantGiven(s: Store, p: Store, t: Store, input: Input, env: Env, cs: seq<CreateInput>)
    requires p == s.(projections := p.projections) && ProjectionRecorded(s, p, input)
    requires input.decision.status == Approved && input.grant != None && input.grant.value.valid && cs == []
    requires t == p.(grants := p.grants + [input.grant.value])
    ensures GaveOver(s, t, input, env, cs, [])
  {
    hide CreationLeft;
    NothingCreated(s, t, env);
  }

  lemma NothingGiven(s: Store, p: Store, input: Input, env: Env, cs: seq<CreateInput>)
    requires p == s.(projections := p.projections) && ProjectionRecorded(s, p, input)
    requires input.decision.status != Approved && input.grant == None && cs == []
    ensures GaveOver(s, p, input, env, cs, [])
  {
    hide CreationLeft;
    NothingCreated(s, p, env);
  }

  lemma ClassesGiven(s: Store, p: Store, input: Input, env: Env, cs: seq<CreateInput>)
    requires p == s.(projections := p.projections) && ProjectionRecorded(s, p, input)
    requires input.decision.status == Approved && input.grant == None && cs != []
    requires IndexExact(s) && FreshIds(s, cs, env) && CreateFrom(p, cs, 0, env).CreatedAll?
    ensures GaveOver(s, CreateFrom(p, cs, 0, env).after, input, env, cs, CreateFrom(p, cs, 0, env).made)
  {
    hide CreationLeft, CreateFrom, IndexExact, FreshIds;
    ClassesCreated(s, p, cs, env);
  }

  /** The stages of a write that returns. */
  lemma WriteLeaves(s: Store, input: Input, env: Env, cs: seq<CreateInput>) returns (t: Store)
    requires IndexExact(s) && AreLines(input, cs) && FreshIds(s, cs, env) && Write(s, input, env).Returned?
    ensures
      var o := Write(s, input, env);
      && !o.result.existing
      && GaveOver(s, t, input, env, cs, o.result.classEntitlements)
      && IsDecisionOf(s, input.decision, env, o.result.decision)
      && RecordLeft(t, o.after, input, env, o.result.decision)
  {
    hide Write, Record, CreateFrom, NewDecision, Project, IndexExact, FreshIds, GaveOver, RecordLeft, IsDecisionOf;
    hide ProjectionRecorded;
    LinesAreClasses(input, cs);
    ProjectionIs(s, input);
    DecisionIs(s, input.decision, env);
    var made;
    t, made := WriteStages(s, input, env);
    var p := Project(s, input);
    RecordLeaves(t, NewDecision(s, input.decision, env), input, env, made);
    if input.decision.status == Approved && input.grant != None {
      GrantGiven(s, p, t, input, env, cs);
    } else if input.decision.status == Approved {
      ClassesGiven(s, p, input, env, cs);
    } else {
      NothingGiven(s, p, input, env, cs);
    }
  }

  /** Main result: what a first finalization that returns leaves. The delivery and the intent are concluded; the
      decision and the projection carry the input's fields; an approval gives a grant or the entitlements of its
      lines, and nothing else does; each line has its record, with the facts and allocation given for it, under its
      order line; each registration record is linked to the last entitlement it is the first to answer to. */
  lemma FirstFinalization(s: Store, input: Input, env: Env, cs: seq<CreateInput>)
    requires Inv(s) && AreLines(input, cs) && FreshIds(s, cs, env)
    requires Call(s, input, env).Returned? && !Call(s, input, env).result.existing
    ensures
      var u, r, d := Call(s, input, env).after, Call(s, input, env).result, input.decision;
      && WellFormed(input, cs)
      && DeliveryFinished(s.deliveries, u.deliveries, input.delivery, env.now)
      && u.deliveriesByWebhook == s.deliveriesByWebhook
      && IntentFinished(s.intentStatus, u.intentStatus, d.intent, d.status, env.hasCheckout)
      && IsDecisionOf(s, d, env, r.decision) && DecisionIndexed(s, u, d, r.decision)
      && ProjectionRecorded(s, u, input)
      && Gives(s, u, input, cs) && CreationLeft(s, u, cs, env, r.classEntitlements)
  {
    hide Inv, Write, Internal, FreshIds, GaveOver, RecordLeft, Malformed, WellFormed, AreLines, IsDecisionOf;
    hide DeliveryFinished, IntentFinished, DecisionIndexed, ProjectionRecorded, Gives, CreationLeft;
    ReturnedIsInternal(s, input, env);
    var path := WroteIt(s, input, env);
    WellFormedExactly(input, cs);
    InvIsExact(s);
    var t := WriteLeaves(s, input, env, cs);
    LeftAltogether(s, t, Write(s, input, env).after, input, env, cs, Write(s, input, env).result);
  }

  lemma InvIsExact(s: Store)
    requires Inv(s)
    ensures IndexExact(s)
  {
  }

  lemma ReturnedIsInternal(s: Store, input: Input, env: Env)
    requires Call(s, input, env).Returned?
    ensures Internal(s, input, env) == Call(s, input, env)
  {
    hide Internal, Restore;
  }

  lemma WroteIt(s: Store, input: Input, env: Env) returns (path: Path)
    requires Internal(s, input, env).Returned? && !Internal(s, input, env).result.existing
    ensures Internal(s, input, env) == Write(s, input, env) && !Malformed(input)
  {
    hide Internal, Write, Malformed, ReplayConflicts, IsReplay, Competing, SameCore;
    path := InternalPath(s, input, env);
  }

  lemma LeftAltogether(s: Store, t: Store, u: Store, input: Input, env: Env, cs: seq<CreateInput>, r: Result)
    requires GaveOver(s, t, input, env, cs, r.classEntitlements)
    requires IsDecisionOf(s, input.decision, env, r.decision) && RecordLeft(t, u, input, env, r.decision)
    ensures
      var d := input.decision;
      && DeliveryFinished(s.deliveries, u.deliveries, input.delivery, env.now)
      && u.deliveriesByWebhook == s.deliveriesByWebhook
      && IntentFinished(s.intentStatus, u.intentStatus, d.intent, d.status, env.hasCheckout)
      && DecisionIndexed(s, u, d, r.decision)
      && ProjectionRecorded(s, u, input)
      && Gives(s, u, input, cs) && CreationLeft(s, u, cs, env, r.classEntitlements)
  {
    hide DeliveryFinished, IntentFinished, NewAt, MadeFor, LinksLeft;
  }

  // ---------------------------------------------------------------------------
  // When a first finalization succeeds
  // ---------------------------------------------------------------------------

  ghost predicate Undecided(s: Store, d: DecisionInput) {
    Key(d.org, d.order) in s.decisions ==> s.decisions[Key(d.org, d.order)].status == PendingValidation
  }

  /** The order, other than this one, that an index already gives to an id of the decision. */
  ghost predicate LeadsElsewhere(index: map<Key, Key>, d: DecisionInput, id: Option<Id>) {
    id.Some? && id.value != "" && Key(d.org, id.value) in index
    && index[Key(d.org, id.value)] != Key(d.org, d.order)
  }

  ghost predicate Unrivalled(s: Store, d: DecisionInput) {
    !LeadsElsewhere(s.decisionsByIntent, d, d.intent) && !LeadsElsewhere(s.decisionsByLine, d, d.line)
  }

  ghost predicate MayGive(input: Input, env: Env, cs: seq<CreateInput>) {
    if input.decision.status == Approved then
      && (input.grant != None <==> cs == [])
      && (input.grant != None ==> input.grant.value.valid && !env.grantFails)
    else
      input.grant == None && cs == []
  }

  /** The checkout repository is called for the decision. */
  ghost predicate CallsCheckout(d: DecisionInput, env: Env) {
    env.hasCheckout && d.status != PendingValidation && d.intent != None && d.intent != Some("")
  }

  ghost predicate MayFinalize(s: Store, input: Input, env: Env, cs: seq<CreateInput>)
    requires IndexExact(s)
  {
    && WellFormed(input, cs) && MayGive(input, env, cs)
    && (input.projection.Some? ==>
          input.projection.value.org == input.decision.org && input.projection.value.order == input.decision.order)
    && AllAgree(s, cs, 0) && LinksWork(cs, 0, env)
    && !(CallsCheckout(input.decision, env) && env.resolveFails)
  }

  lemma RecordsExactly(t: Store, s: Store, input: Input, env: Env, made: seq<ClassEntitlement>)
    ensures Record(t, NewDecision(s, input.decision, env), input, env, made).Returned?
       <==> !(CallsCheckout(input.decision, env) && env.resolveFails)
  {
    hide MarkProcessed, ResolveIntent, WriteDecision;
  }

  lemma CreatesAllExactly(s: Store, p: Store, cs: seq<CreateInput>, env: Env)
    requires SameCore(s, p) && IndexExact(s) && FreshIds(s, cs, env)
    ensures CreateFrom(p, cs, 0, env).CreatedAll? <==> AllAgree(s, cs, 0) && LinksWork(cs, 0, env)
  {
    assert IndexExact(p) by { SameCoreExact(s, p); }
    hide CreateFrom, FreshIds, OnlyFirst, LinksMoved, EntitlementsGrew;
    CreateGrew(s, p, cs, env);
    CreationCompletesExactly(p, p, cs, 0, env);
    hide IndexExact;
    assert forall i: nat :: i < |cs| ==> (Agrees(s, cs, 0, i) <==> Agrees(p, cs, 0, i));
    hide Agrees;
    assert AllAgree(s, cs, 0) <==> AllAgree(p, cs, 0);
  }

  lemma SameCoreExact(s: Store, p: Store)
    requires SameCore(s, p) && IndexExact(s)
    ensures IndexExact(p)
  {
  }

  lemma NoLinesAgree(s: Store, env: Env)
    requires IndexExact(s)
    ensures AllAgree(s, [], 0) && LinksWork([], 0, env)
  {
  }

  lemma WritesExactly(s: Store, input: Input, env: Env, cs: seq<CreateInput>)
    requires IndexExact(s) && AreLines(input, cs) && FreshIds(s, cs, env) && WellFormed(input, cs)
    ensures Write(s, input, env).Returned? <==> MayFinalize(s, input, env, cs)
  {
    hide CreateFrom, NewDecision, Project, IndexExact, FreshIds, Record, AllAgree, LinksWork, CallsCheckout, WellFormed;
    hide SameCore;
    LinesAreClasses(input, cs);
    ProjectKeepsCore(s, input);
    var p := Project(s, input);
    CreatesAllExactly(s, p, cs, env);
    if cs == [] {
      NoLinesAgree(s, env);
    }
    RecordsExactly(p, s, input, env, []);
    if input.grant.Some? {
      RecordsExactly(p.(grants := p.grants + [input.grant.value]), s, input, env, []);
    }
    var r := CreateFrom(p, cs, 0, env);
    if r.CreatedAll? {
      RecordsExactly(r.after, s, input, env, r.made);
    }
  }

  lemma GoesToWrite(s: Store, input: Input, env: Env)
    requires Undecided(s, input.decision) && Unrivalled(s, input.decision) && !Malformed(input)
    ensures Internal(s, input, env) == Write(s, input, env)
  {
    hide Malformed, Write, Found, Conflicts, FoundAll, Conclude, AnswerWith;
  }

  /** For an order that is not decided and has no rival, a call succeeds exactly when its input is well-formed, it
      gives what its decision calls for, its projection is of the order, its lines agree with what is recorded for
      them, and no repository it calls fails; it is then a first finalization. */
  lemma FinalizesExactly(s: Store, input: Input, env: Env, cs: seq<CreateInput>)
    requires Inv(s) && AreLines(input, cs) && FreshIds(s, cs, env)
    requires Undecided(s, input.decision) && Unrivalled(s, input.decision)
    ensures IndexExact(s)
    ensures Call(s, input, env).Returned? <==> MayFinalize(s, input, env, cs)
    ensures Call(s, input, env).Returned? ==> !Call(s, input, env).result.existing
  {
    hide Inv, AreLines, FreshIds, IndexExact, Undecided, Unrivalled, Write, Internal, WellFormed, Malformed, Restore;
    InvIsExact(s);
    WellFormedExactly(input, cs);
    if Malformed(input) {
      MalformedThrows(s, input, env);
    } else {
      GoesToWrite(s, input, env);
      WritesExactly(s, input, env, cs);
      if Write(s, input, env).Returned? {
        var t := WriteLeaves(s, input, env, cs);
      }
    }
  }

  lemma MalformedThrows(s: Store, input: Input, env: Env)
    requires Malformed(input)
    ensures Internal(s, input, env).Threw?
  {
    hide Malformed;
  }

  // ---------------------------------------------------------------------------
  // Which decision answers a repeated call
  // ---------------------------------------------------------------------------

  /** The order is decided and each line of the call has its record. */
  ghost predicate AlreadyDone(s: Store, d: DecisionInput, cs: seq<CreateInput>) {
    && !Undecided(s, d)
    && forall i :: 0 <= i < |cs| ==> Key(d.org, cs[i].facts.orderLine) in s.entitlementsByLine
  }

  ghost predicate RecordedAt(s: Store, key: Key, e: ClassEntitlement) {
    key in s.entitlementsByLine && Get(s.entitlements, s.entitlementsByLine[key]) == Some(e)
  }

  /** An earlier decision answers with its decision and with what is recorded for the lines: first that of the
      order itself, then that of the order its intent leads to, then that of the order its line leads to. */
  ghost predicate AnsweredWith(s: Store, d: DecisionInput, cs: seq<CreateInput>, r: Result) {
    if AlreadyDone(s, d, cs) then
      && Key(d.org, d.order) in s.decisions && r.decision == s.decisions[Key(d.org, d.order)]
      && |r.classEntitlements| == |cs|
      && forall i :: 0 <= i < |cs| ==>
           && RecordedAt(s, Key(d.org, cs[i].facts.orderLine), r.classEntitlements[i])
           && r.classEntitlements[i].facts == cs[i].facts
    else
      && (if LeadsElsewhere(s.decisionsByIntent, d, d.intent) then
            Get(s.decisions, s.decisionsByIntent[Key(d.org, d.intent.value)]) == Some(r.decision)
          else
            && LeadsElsewhere(s.decisionsByLine, d, d.line)
            && Get(s.decisions, s.decisionsByLine[Key(d.org, d.line.value)]) == Some(r.decision))
      && (if d.line != None && d.line != Some("") && Key(d.org, d.line.value) in s.entitlementsByLine then
            |r.classEntitlements| == 1 && RecordedAt(s, Key(d.org, d.line.value), r.classEntitlements[0])
          else r.classEntitlements == [])
  }

  lemma FoundExactly(s: Store, org: Id, line: Id)
    requires IndexExact(s)
    ensures
      var key := Key(org, line);
      FindByOrderLine(s, org, line) ==
      if key in s.entitlementsByLine then Some(s.entitlements[s.entitlementsByLine[key]]) else None
    ensures FindByOrderLine(s, org, line).Some? ==> RecordedAt(s, Key(org, line), FindByOrderLine(s, org, line).value)
  {
  }

  lemma {:induction false} FoundAllAre(s: Store, org: Id, cs: seq<CreateInput>)
    requires forall i :: 0 <= i < |cs| ==> FindByOrderLine(s, org, cs[i].facts.orderLine).Some?
    ensures |FoundAll(s, org, cs)| == |cs|
    ensures forall i :: 0 <= i < |cs| ==>
              FoundAll(s, org, cs)[i] == FindByOrderLine(s, org, cs[i].facts.orderLine).value
    decreases |cs|
  {
    hide FindByOrderLine;
    if cs != [] {
      FoundAllAre(s, org, cs[1..]);
    }
  }

  lemma AllFoundExactly(s: Store, input: Input, cs: seq<CreateInput>)
    requires IndexExact(s) && AreLines(input, cs)
    ensures IsReplay(s, input) <==> AlreadyDone(s, input.decision, cs)
  {
    hide IndexExact, FindByOrderLine;
    LinesAreClasses(input, cs);
    forall i | 0 <= i < |cs|
      ensures Found(s, input.decision.org, cs[i]) <==>
              Key(input.decision.org, cs[i].facts.orderLine) in s.entitlementsByLine
    {
      FoundExactly(s, input.decision.org, cs[i].facts.orderLine);
    }
    hide Found;
  }

  lemma ReplayRecords(s: Store, input: Input, cs: seq<CreateInput>)
    requires IndexExact(s) && cs == input.Classes() && IsReplay(s, input) && !ReplayConflicts(s, input)
    ensures
      var org := input.decision.org;
      var all := FoundAll(s, org, cs);
      && |all| == |cs|
      && forall i :: 0 <= i < |cs| ==>
           RecordedAt(s, Key(org, cs[i].facts.orderLine), all[i]) && all[i].facts == cs[i].facts
  {
    hide IndexExact, FindByOrderLine, RecordedAt;
    var org := input.decision.org;
    forall i | 0 <= i < |cs|
      ensures FindByOrderLine(s, org, cs[i].facts.orderLine).Some?
      ensures FindByOrderLine(s, org, cs[i].facts.orderLine).value.facts == cs[i].facts
      ensures RecordedAt(s, Key(org, cs[i].facts.orderLine), FindByOrderLine(s, org, cs[i].facts.orderLine).value)
    {
      FoundExactly(s, org, cs[i].facts.orderLine);
      assert Found(s, org, cs[i]);
      assert !Conflicts(s, org, cs[i]);
    }
    FoundAllAre(s, org, cs);
  }

  lemma ReplayConcludes(s: Store, input: Input, env: Env)
    requires IsReplay(s, input) && Internal(s, input, env).Returned?
    ensures !ReplayConflicts(s, input) && input.decision.OrderKey() in s.decisions
    ensures
      var o := Internal(s, input, env);
      && o.result == Result(s.decisions[input.decision.OrderKey()],
                            FoundAll(s, input.decision.org, input.Classes()), true)
      && Concludes(s, input, env, o)
  {
    ReplayIsDecided(s, input);
    hide IsReplay, FoundAll, Malformed, Conclude, ReplayConflicts, DeliveryFinished, IntentFinished;
    var e := s.decisions[input.decision.OrderKey()];
    ConcludeFinishes(s, e, input.delivery, env, Result(e, FoundAll(s, input.decision.org, input.Classes()), true));
  }

  lemma ReplayAnswers(s: Store, input: Input, env: Env, cs: seq<CreateInput>)
    requires IndexExact(s) && AreLines(input, cs) && IsReplay(s, input) && Internal(s, input, env).Returned?
    ensures AlreadyDone(s, input.decision, cs)
    ensures AnsweredWith(s, input.decision, cs, Internal(s, input, env).result)
    ensures Concludes(s, input, env, Internal(s, input, env))
  {
    AllFoundExactly(s, input, cs);
    LinesAreClasses(input, cs);
    ReplayConcludes(s, input, env);
    ReplayRecords(s, input, cs);
    hide IndexExact, FoundAll, Internal, AlreadyDone, RecordedAt, IsReplay, ReplayConflicts, Concludes;
  }

  /** Nothing but the delivery and the intent of the answering decision changes. */
  ghost predicate Concludes(s: Store, input: Input, env: Env, o: Outcome) {
    && o.Returned? && o.result.existing
    && o.after == s.(deliveries := o.after.deliveries, intentStatus := o.after.intentStatus)
    && DeliveryFinished(s.deliveries, o.after.deliveries, input.delivery, env.now)
    && IntentFinished(s.intentStatus, o.after.intentStatus, o.result.decision.intent, o.result.decision.status,
                      env.hasCheckout)
  }

  lemma RivalAnswers(s: Store, input: Input, env: Env, order: Key)
    requires IndexExact(s) && AnswerWith(s, input, env, order).Returned?
    ensures
      var d, o := input.decision, AnswerWith(s, input, env, order);
      && Concludes(s, input, env, o)
      && Get(s.decisions, order) == Some(o.result.decision)
      && if d.line != None && d.line != Some("") && Key(d.org, d.line.value) in s.entitlementsByLine then
           |o.result.classEntitlements| == 1
           && RecordedAt(s, Key(d.org, d.line.value), o.result.classEntitlements[0])
         else o.result.classEntitlements == []
  {
    var d := input.decision;
    if d.line.Some? {
      FoundExactly(s, d.org, d.line.value);
    }
    hide IndexExact, FindByOrderLine, Conclude, RecordedAt;
    var line := d.LineKey();
    var found := if line.Some? then FindByOrderLine(s, line.value.org, line.value.id) else None;
    ConcludeFinishes(s, s.decisions[order], input.delivery, env,
                     Result(s.decisions[order], if found.Some? then [found.value] else [], true));
  }

  lemma CompetingExactly(index: map<Key, Key>, d: DecisionInput)
    ensures Competing(index, d.IntentKey(), d.OrderKey()) ==
            if LeadsElsewhere(index, d, d.intent) then Some(index[Key(d.org, d.intent.value)]) else None
    ensures Competing(index, d.LineKey(), d.OrderKey()) ==
            if LeadsElsewhere(index, d, d.line) then Some(index[Key(d.org, d.line.value)]) else None
  {
  }

  ghost predicate IsRival(s: Store, d: DecisionInput, order: Key) {
    if LeadsElsewhere(s.decisionsByIntent, d, d.intent) then
      order == s.decisionsByIntent[Key(d.org, d.intent.value)]
    else LeadsElsewhere(s.decisionsByLine, d, d.line) && order == s.decisionsByLine[Key(d.org, d.line.value)]
  }

  lemma RivalAnswered(s: Store, input: Input, env: Env, cs: seq<CreateInput>, order: Key)
    requires IndexExact(s) && !AlreadyDone(s, input.decision, cs) && IsRival(s, input.decision, order)
    requires AnswerWith(s, input, env, order).Returned?
    ensures AnsweredWith(s, input.decision, cs, AnswerWith(s, input, env, order).result)
    ensures Concludes(s, input, env, AnswerWith(s, input, env, order))
  {
    RivalAnswers(s, input, env, order);
    hide AnswerWith, AlreadyDone, Concludes, RecordedAt, IndexExact;
  }

  lemma InternalAnswers(s: Store, input: Input, env: Env)
    requires Internal(s, input, env).Returned? && !IsReplay(s, input)
    ensures
      var d := input.decision;
      && (forall order :: IsRival(s, d, order) ==> Internal(s, input, env) == AnswerWith(s, input, env, order))
      && (Unrivalled(s, d) ==> Internal(s, input, env) == Write(s, input, env))
      && (!Unrivalled(s, d) ==> exists order :: IsRival(s, d, order))
  {
    var d := input.decision;
    CompetingExactly(s.decisionsByIntent, d);
    CompetingExactly(s.decisionsByLine, d);
    hide Malformed, ReplayConflicts, IsReplay, Write, AnswerWith, Competing;
    if LeadsElsewhere(s.decisionsByIntent, d, d.intent) {
      assert IsRival(s, d, s.decisionsByIntent[Key(d.org, d.intent.value)]);
    } else if LeadsElsewhere(s.decisionsByLine, d, d.line) {
      assert IsRival(s, d, s.decisionsByLine[Key(d.org, d.line.value)]);
    }
  }

  /** Main result: a call that returns is answered by an earlier decision exactly when its order is decided and each
      of its lines recorded, or its intent or line belongs to another order; which decision answers, and with
      which records; and nothing but the delivery and that decision's intent then changes. */
  lemma AnsweredExactly(s: Store, input: Input, env: Env, cs: seq<CreateInput>)
    requires Inv(s) && AreLines(input, cs) && FreshIds(s, cs, env) && Call(s, input, env).Returned?
    ensures
      var d, o := input.decision, Call(s, input, env);
      && (o.result.existing <==> AlreadyDone(s, d, cs) || !Unrivalled(s, d))
      && (o.result.existing ==> AnsweredWith(s, d, cs, o.result) && Concludes(s, input, env, o))
  {
    InvIsExact(s);
    ReturnedIsInternal(s, input, env);
    AllFoundExactly(s, input, cs);
    hide Inv, FreshIds, IndexExact, Write, AreLines, AnsweredWith, AlreadyDone, IsReplay, Internal, AnswerWith, IsRival;
    hide Call, Unrivalled;
    var d := input.decision;
    if IsReplay(s, input) {
      ReplayAnswers(s, input, env, cs);
    } else {
      InternalAnswers(s, input, env);
      if Unrivalled(s, d) {
        var t := WriteLeaves(s, input, env, cs);
      } else {
        var order :| IsRival(s, d, order);
        RivalAnswered(s, input, env, cs, order);
      }
    }
  }

  // ---------------------------------------------------------------------------
  // The administrative calls
  // ---------------------------------------------------------------------------

  /** Setting a status changes it, and when the record was last changed, on an entitlement of the organization, and
      nothing else of it or of any other. */
  lemma StatusIsSet(s: Store, org: Id, id: Id, status: EntitlementStatus, now: Instant)
    ensures
      var t := SetStatus(s, org, id, status, now);
      && t == s.(entitlements := t.entitlements) && t.entitlements.Keys == s.entitlements.Keys
      && (forall x :: x in s.entitlements && (x != id || s.entitlements[x].facts.org != org) ==>
            t.entitlements[x] == s.entitlements[x])
      && (id in s.entitlements && s.entitlements[id].facts.org == org ==>
            && t.entitlements[id].facts.status == status && t.entitlements[id].updatedAt == now
            && s.entitlements[id].facts == t.entitlements[id].facts.(status := s.entitlements[id].facts.status)
            && t.entitlements[id].id == s.entitlements[id].id
            && t.entitlements[id].allocation == s.entitlements[id].allocation
            && t.entitlements[id].createdAt == s.entitlements[id].createdAt)
  {
    SetStatusElsewhere(s, org, id, status, now);
    if id in s.entitlements && s.entitlements[id].facts.org == org {
      var e := s.entitlements[id];
      var n := ClassEntitlement(e.id, e.facts.(status := status), e.allocation, e.createdAt, now);
      assert SetStatus(s, org, id, status, now).entitlements == s.entitlements[id := n];
    }
    hide SetStatus;
  }

  ghost predicate IsNewRecord(ms: seq<Metadata>, m: Metadata) {
    forall i :: 0 <= i < |ms| ==> ms[i].id != m.id && (m.line == None || ms[i].line != m.line)
  }

  lemma NewRecordExactly(s: Store, m: Metadata)
    ensures IsNewRecord(s.metadata, m) <==> !MetadataTaken(s, m)
  {
    forall i | 0 <= i < |s.metadata|
      ensures (s.metadata[i].id != m.id && (m.line == None || s.metadata[i].line != m.line)) <==>
              !(s.metadata[i].id == m.id || (m.line.Some? && s.metadata[i].line == m.line))
    {
    }
  }

  /** A registration record is added, unlinked, exactly when its id is new and so is its line if it has one. */
  lemma MetadataIsInserted(s: Store, m: Metadata)
    ensures IsNewRecord(s.metadata, m) ==>
              InsertMetadata(s, m) == s.(metadata := s.metadata + [Metadata(m.id, m.intent, m.line, None)])
    ensures !IsNewRecord(s.metadata, m) ==> InsertMetadata(s, m) == s
  {
    NewRecordExactly(s, m);
    hide MetadataTaken, IsNewRecord;
    assert m.(entitlement := None) == Metadata(m.id, m.intent, m.line, None);
  }

  /** An order without a decision gets a pending one; a decision there is stays. */
  lemma PendingIsRecorded(s: Store, org: Id, order: Id, now: Instant, freshId: Id)
    ensures
      var t := RecordPending(s, org, order, now, freshId);
      && t == s.(decisions := t.decisions)
      && t.decisions == if Key(org, order) in s.decisions then s.decisions
                        else s.decisions[Key(org, order) := Decision(freshId, org, None, None, order, None,
                                                                     PendingValidation, None, now, now)]
  {
  }
}
