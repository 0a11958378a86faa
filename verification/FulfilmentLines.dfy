/** What creating the entitlements of the paid lines leaves: the record of each line, the two indexes, and which
    registration-metadata record each entitlement is linked to; and when creation completes. */
module FulfilmentLines {
  import opened Fulfilment
  import opened FulfilmentRollback
  import opened FulfilmentRuns
  import opened FulfilmentReplay
  import opened Wrappers

  // ---------------------------------------------------------------------------
  // Records and indexes
  // ---------------------------------------------------------------------------

  function LineOf(c: CreateInput): Key {
    Key(c.facts.org, c.facts.orderLine)
  }

  function IntentOf(c: CreateInput): Key {
    Key(c.facts.org, c.facts.intent)
  }

  /** The line at i, among those from k on, has no record yet and is not named again by an earlier one of them. */
  ghost predicate NewAt(s: Store, cs: seq<CreateInput>, k: nat, i: nat) {
    && k <= i < |cs|
    && LineOf(cs[i]) !in s.entitlementsByLine
    && forall j :: k <= j < i ==> LineOf(cs[j]) != LineOf(cs[i])
  }

  /** The record made for a new line: facts and allocation as given, the id and the two instants as given or else
      drawn and read from the clock. */
  ghost predicate MadeFor(c: CreateInput, k: nat, env: Env, e: ClassEntitlement) {
    && e.facts == c.facts && e.allocation == c.allocation
    && (if c.id.Some? then e.id == c.id.value else e.id == env.entitlementIds(k))
    && (if c.createdAt.Some? then e.createdAt == c.createdAt.value else e.createdAt == env.now)
    && (if c.updatedAt.Some? then e.updatedAt == c.updatedAt.value else e.updatedAt == env.now)
  }

  ghost predicate RecordsMade(s: Store, cs: seq<CreateInput>, k: nat, env: Env, made: seq<ClassEntitlement>) {
    && k <= |cs| && |made| == |cs| - k
    && forall i: nat :: NewAt(s, cs, k, i) ==> MadeFor(cs[i], i, env, made[i - k])
  }

  ghost predicate NoneOfLine(s: Store, cs: seq<CreateInput>, k: nat, key: Key) {
    forall i: nat :: NewAt(s, cs, k, i) ==> LineOf(cs[i]) != key
  }

  /** A line key leads to the record made for it if it was new, and to where it led before otherwise. */
  ghost predicate LinesIndexed(s: Store, t: Store, cs: seq<CreateInput>, k: nat, made: seq<ClassEntitlement>) {
    && k <= |cs| && |made| == |cs| - k
    && (forall i: nat :: NewAt(s, cs, k, i) ==>
          Get(t.entitlementsByLine, LineOf(cs[i])) == Some(made[i - k].id))
    && forall key :: NoneOfLine(s, cs, k, key) ==> Get(t.entitlementsByLine, key) == Get(s.entitlementsByLine, key)
  }

  ghost predicate NoneOfIntent(s: Store, cs: seq<CreateInput>, k: nat, key: Key) {
    forall i: nat :: NewAt(s, cs, k, i) ==> IntentOf(cs[i]) != key
  }

  ghost predicate LastOfIntent(s: Store, cs: seq<CreateInput>, k: nat, i: nat) {
    NewAt(s, cs, k, i) && forall j: nat :: i < j && NewAt(s, cs, k, j) ==> IntentOf(cs[j]) != IntentOf(cs[i])
  }

  /** An intent key leads to the last record made for it, and to where it led before if none was. */
  ghost predicate IntentsIndexed(s: Store, t: Store, cs: seq<CreateInput>, k: nat, made: seq<ClassEntitlement>) {
    && k <= |cs| && |made| == |cs| - k
    && (forall i: nat :: LastOfIntent(s, cs, k, i) ==>
          Get(t.entitlementsByIntent, IntentOf(cs[i])) == Some(made[i - k].id))
    && forall key :: NoneOfIntent(s, cs, k, key) ==>
         Get(t.entitlementsByIntent, key) == Get(s.entitlementsByIntent, key)
  }

  /** The store after line k, before its successors. */
  ghost predicate OneCreated(s: Store, t: Store, cs: seq<CreateInput>, k: nat, env: Env, e: ClassEntitlement)
    requires k < |cs|
  {
    var line, intent := LineOf(cs[k]), IntentOf(cs[k]);
    && (line !in s.entitlementsByLine ==>
          && MadeFor(cs[k], k, env, e)
          && t.entitlementsByLine == s.entitlementsByLine[line := e.id]
          && t.entitlementsByIntent == s.entitlementsByIntent[intent := e.id])
    && (line in s.entitlementsByLine ==>
          && t.entitlementsByLine == s.entitlementsByLine
          && t.entitlementsByIntent == s.entitlementsByIntent)
  }

  lemma CreatesOne(s: Store, cs: seq<CreateInput>, k: nat, env: Env)
    requires k < |cs| && IndexExact(s) && CreateOne(s, cs[k], IdFor(cs[k], k, env), env.now).Some?
    ensures
      var (t, e) := CreateOne(s, cs[k], IdFor(cs[k], k, env), env.now).value;
      OneCreated(s, t, cs, k, env, e) && t.metadata == s.metadata
  {
    var c, id := cs[k], IdFor(cs[k], k, env);
    IndexedExactly(s, LineOf(c));
    hide IndexExact, Indexed, CreateOne;
    if LineOf(c) in s.entitlementsByLine {
      FindsOld(s, c, id, env.now);
    } else {
      CreatesNew(s, c, id, env.now);
    }
  }

  lemma CreatesNew(s: Store, c: CreateInput, id: Id, now: Instant)
    requires Indexed(s, LineOf(c)).None?
    ensures CreateOne(s, c, id, now).Some?
    ensures
      var (t, e) := CreateOne(s, c, id, now).value;
      && t.entitlementsByLine == s.entitlementsByLine[LineOf(c) := id]
      && t.entitlementsByIntent == s.entitlementsByIntent[IntentOf(c) := id]
      && t.metadata == s.metadata
      && e.id == id && e.facts == c.facts && e.allocation == c.allocation
      && e.createdAt == (if c.createdAt.Some? then c.createdAt.value else now)
      && e.updatedAt == (if c.updatedAt.Some? then c.updatedAt.value else now)
  {
    hide Indexed;
  }

  lemma FindsOld(s: Store, c: CreateInput, id: Id, now: Instant)
    requires Indexed(s, LineOf(c)).Some? && CreateOne(s, c, id, now).Some?
    ensures CreateOne(s, c, id, now).value.0 == s
  {
    hide Indexed;
  }

  lemma IndexedExactly(s: Store, key: Key)
    requires IndexExact(s)
    ensures Indexed(s, key) ==
            if key in s.entitlementsByLine then Some(s.entitlements[s.entitlementsByLine[key]]) else None
  {
  }

  lemma NewLater(s: Store, t: Store, cs: seq<CreateInput>, k: nat, env: Env, e: ClassEntitlement, i: nat)
    requires k < |cs| && OneCreated(s, t, cs, k, env, e)
    ensures NewAt(t, cs, k + 1, i) <==> i > k && NewAt(s, cs, k, i)
    ensures NewAt(s, cs, k, k) <==> LineOf(cs[k]) !in s.entitlementsByLine
  {
    hide MadeFor;
    if i > k && NewAt(s, cs, k, i) {
      assert LineOf(cs[k]) != LineOf(cs[i]);
    }
    if NewAt(t, cs, k + 1, i) {
      assert forall j :: k <= j < i ==> j == k || LineOf(cs[j]) != LineOf(cs[i]);
    }
  }

  lemma NewLaterAll(s: Store, t: Store, cs: seq<CreateInput>, k: nat, env: Env, e: ClassEntitlement)
    requires k < |cs| && OneCreated(s, t, cs, k, env, e)
    ensures forall i: nat :: NewAt(t, cs, k + 1, i) <==> i > k && NewAt(s, cs, k, i)
    ensures NewAt(s, cs, k, k) <==> LineOf(cs[k]) !in s.entitlementsByLine
  {
    hide NewAt, OneCreated;
    forall i: nat ensures NewAt(t, cs, k + 1, i) <==> i > k && NewAt(s, cs, k, i) {
      NewLater(s, t, cs, k, env, e, i);
    }
    NewLater(s, t, cs, k, env, e, k);
  }

  lemma RecordsStep(s: Store, t: Store, cs: seq<CreateInput>, k: nat, env: Env, e: ClassEntitlement,
                    rest: seq<ClassEntitlement>)
    requires k < |cs| && OneCreated(s, t, cs, k, env, e) && RecordsMade(t, cs, k + 1, env, rest)
    ensures RecordsMade(s, cs, k, env, [e] + rest)
  {
    NewLaterAll(s, t, cs, k, env, e);
    var made := [e] + rest;
    hide NewAt, MadeFor;
    forall i: nat | NewAt(s, cs, k, i) ensures k <= i < |cs| && MadeFor(cs[i], i, env, made[i - k]) {
      NewInRange(s, cs, k, i);
      if i > k {
        assert made[i - k] == rest[i - (k + 1)];
      }
    }
  }

  lemma NewInRange(s: Store, cs: seq<CreateInput>, k: nat, i: nat)
    requires NewAt(s, cs, k, i)
    ensures k <= i < |cs| && LineOf(cs[i]) !in s.entitlementsByLine
  {
  }

  lemma LinesStep(s: Store, t: Store, u: Store, cs: seq<CreateInput>, k: nat, env: Env, e: ClassEntitlement,
                  rest: seq<ClassEntitlement>)
    requires k < |cs| && OneCreated(s, t, cs, k, env, e) && LinesIndexed(t, u, cs, k + 1, rest)
    ensures LinesIndexed(s, u, cs, k, [e] + rest)
  {
    NewLaterAll(s, t, cs, k, env, e);
    var made := [e] + rest;
    hide MadeFor;
    forall i: nat | NewAt(s, cs, k, i) ensures Get(u.entitlementsByLine, LineOf(cs[i])) == Some(made[i - k].id) {
      if i > k {
        assert made[i - k] == rest[i - (k + 1)];
      } else {
        FirstOfItsLine(t, cs, k);
      }
    }
    hide NewAt;
    forall key | NoneOfLine(s, cs, k, key)
      ensures Get(u.entitlementsByLine, key) == Get(s.entitlementsByLine, key)
    {
      assert NoneOfLine(t, cs, k + 1, key);
    }
  }

  lemma FirstOfItsLine(t: Store, cs: seq<CreateInput>, k: nat)
    requires k < |cs| && LineOf(cs[k]) in t.entitlementsByLine
    ensures NoneOfLine(t, cs, k + 1, LineOf(cs[k]))
  {
  }

  lemma IntentsStep(s: Store, t: Store, u: Store, cs: seq<CreateInput>, k: nat, env: Env, e: ClassEntitlement,
                    rest: seq<ClassEntitlement>)
    requires k < |cs| && OneCreated(s, t, cs, k, env, e) && IntentsIndexed(t, u, cs, k + 1, rest)
    ensures IntentsIndexed(s, u, cs, k, [e] + rest)
  {
    NewLaterAll(s, t, cs, k, env, e);
    var made := [e] + rest;
    hide MadeFor, NewAt;
    forall i: nat | LastOfIntent(s, cs, k, i)
      ensures k <= i < |cs| && Get(u.entitlementsByIntent, IntentOf(cs[i])) == Some(made[i - k].id)
    {
      NewInRange(s, cs, k, i);
      if i > k {
        assert LastOfIntent(t, cs, k + 1, i);
        assert made[i - k] == rest[i - (k + 1)];
      } else {
        assert NoneOfIntent(t, cs, k + 1, IntentOf(cs[k]));
      }
    }
    forall key | NoneOfIntent(s, cs, k, key)
      ensures Get(u.entitlementsByIntent, key) == Get(s.entitlementsByIntent, key)
    {
      assert NoneOfIntent(t, cs, k + 1, key);
    }
  }

  // ---------------------------------------------------------------------------
  // Links
  // ---------------------------------------------------------------------------

  /** A metadata record answers to a line by its intent-line id if the line has one, and else by its intent. */
  ghost predicate AnswersTo(m: Metadata, c: CreateInput) {
    if c.facts.intentLine.Some? && c.facts.intentLine.value != "" then m.line == c.facts.intentLine
    else m.intent == c.facts.intent
  }

  /** Position p holds the first metadata record that answers to the line. */
  ghost predicate FirstAt(ms: seq<Metadata>, c: CreateInput, p: nat) {
    p < |ms| && AnswersTo(ms[p], c) && forall q :: 0 <= q < p ==> !AnswersTo(ms[q], c)
  }

  lemma {:induction false} LinkedAt(ms: seq<Metadata>, c: CreateInput, e: Id, p: nat)
    requires p < |ms|
    ensures Link(ms, c, e)[p] == if FirstAt(ms, c, p) then ms[p].(entitlement := Some(e)) else ms[p]
    decreases |ms|
  {
    if !Links(ms[0], c) && p > 0 {
      LinkedAt(ms[1..], c, e, p - 1);
      FirstInTail(ms, c, p);
    }
  }

  lemma FirstInTail(ms: seq<Metadata>, c: CreateInput, p: nat)
    requires 0 < p < |ms| && !AnswersTo(ms[0], c)
    ensures FirstAt(ms[1..], c, p - 1) <==> FirstAt(ms, c, p)
  {
    hide AnswersTo;
    var rest := ms[1..];
    assert forall q :: 0 <= q < |rest| ==> rest[q] == ms[q + 1];
    assert forall q :: 0 < q < |ms| ==> ms[q] == rest[q - 1];
  }

  /** Only the entitlement of a record changes. */
  ghost predicate SameRecords(ms: seq<Metadata>, ns: seq<Metadata>) {
    |ns| == |ms| && forall p :: 0 <= p < |ms| ==> ns[p] == ms[p].(entitlement := ns[p].entitlement)
  }

  lemma FirstStays(ms: seq<Metadata>, ns: seq<Metadata>, c: CreateInput, p: nat)
    requires SameRecords(ms, ns)
    ensures FirstAt(ns, c, p) <==> FirstAt(ms, c, p)
  {
    assert forall q :: 0 <= q < |ms| ==> (AnswersTo(ns[q], c) <==> AnswersTo(ms[q], c));
    hide AnswersTo;
  }

  ghost predicate LastAt(ms: seq<Metadata>, cs: seq<CreateInput>, k: nat, i: nat, p: nat) {
    && k <= i < |cs| && FirstAt(ms, cs[i], p)
    && forall j :: i < j < |cs| ==> !FirstAt(ms, cs[j], p)
  }

  ghost predicate NoneAt(ms: seq<Metadata>, cs: seq<CreateInput>, k: nat, p: nat) {
    forall i :: k <= i < |cs| ==> !FirstAt(ms, cs[i], p)
  }

  /** Each metadata record is linked to the entitlement of the last line for which it is the first to answer; one
      that is not the first to answer to any line stays as it is. */
  ghost predicate LinksLeft(ms: seq<Metadata>, ns: seq<Metadata>, cs: seq<CreateInput>, k: nat,
                            made: seq<ClassEntitlement>)
  {
    && k <= |cs| && |made| == |cs| - k && SameRecords(ms, ns)
    && forall p: nat :: p < |ms| ==>
         && (forall i: nat :: LastAt(ms, cs, k, i, p) ==> ns[p].entitlement == Some(made[i - k].id))
         && (NoneAt(ms, cs, k, p) ==> ns[p].entitlement == ms[p].entitlement)
  }

  lemma LinkIs(ms: seq<Metadata>, c: CreateInput, e: Id)
    ensures
      var ns := Link(ms, c, e);
      && SameRecords(ms, ns)
      && forall p: nat :: p < |ms| ==> ns[p].entitlement == if FirstAt(ms, c, p) then Some(e) else ms[p].entitlement
  {
    hide FirstAt, Links;
    forall p: nat | p < |ms|
      ensures Link(ms, c, e)[p] == if FirstAt(ms, c, p) then ms[p].(entitlement := Some(e)) else ms[p]
    {
      LinkedAt(ms, c, e, p);
    }
  }

  lemma LinksStep(ms: seq<Metadata>, ns: seq<Metadata>, os: seq<Metadata>, cs: seq<CreateInput>, k: nat,
                  e: ClassEntitlement, rest: seq<ClassEntitlement>)
    requires k < |cs| && ns == Link(ms, cs[k], e.id) && LinksLeft(ns, os, cs, k + 1, rest)
    ensures LinksLeft(ms, os, cs, k, [e] + rest)
  {
    LinkIs(ms, cs[k], e.id);
    var made := [e] + rest;
    hide Link, FirstAt;
    forall p: nat | p < |ms|
      ensures forall i: nat :: LastAt(ms, cs, k, i, p) ==> os[p].entitlement == Some(made[i - k].id)
      ensures NoneAt(ms, cs, k, p) ==> os[p].entitlement == ms[p].entitlement
    {
      FirstsStay(ms, ns, cs, p);
      assert NoneAt(ms, cs, k + 1, p) <==> NoneAt(ns, cs, k + 1, p);
      forall i: nat | LastAt(ms, cs, k, i, p) ensures os[p].entitlement == Some(made[i - k].id) {
        if i > k {
          assert LastAt(ns, cs, k + 1, i, p);
          assert made[i - k] == rest[i - (k + 1)];
        } else {
          assert NoneAt(ms, cs, k + 1, p);
        }
      }
    }
  }

  lemma FirstsStay(ms: seq<Metadata>, ns: seq<Metadata>, cs: seq<CreateInput>, p: nat)
    requires SameRecords(ms, ns)
    ensures forall i :: 0 <= i < |cs| ==> (FirstAt(ns, cs[i], p) <==> FirstAt(ms, cs[i], p))
  {
    hide FirstAt, SameRecords;
    forall i | 0 <= i < |cs| ensures FirstAt(ns, cs[i], p) <==> FirstAt(ms, cs[i], p) {
      FirstStays(ms, ns, cs[i], p);
    }
  }

  // ---------------------------------------------------------------------------
  // All lines
  // ---------------------------------------------------------------------------

  /** The store in which line k + 1 starts. */
  function After(s: Store, cs: seq<CreateInput>, k: nat, env: Env): Store
    requires k < |cs| && CreateOne(s, cs[k], IdFor(cs[k], k, env), env.now).Some?
  {
    var (t, e) := CreateOne(s, cs[k], IdFor(cs[k], k, env), env.now).value;
    if env.hasCheckout then t.(metadata := Link(t.metadata, cs[k], e.id)) else t
  }

  ghost predicate Going(s0: Store, s: Store, cs: seq<CreateInput>, k: nat, env: Env) {
    && k <= |cs| && FreshIds(s0, cs, env)
    && EntitlementsGrew(s0, s, cs) && OnlyFirst(s0, s, cs, k, env) && LinksMoved(s0.metadata, s.metadata, cs)
  }

  lemma Goes(s0: Store, s: Store, cs: seq<CreateInput>, k: nat, env: Env)
    requires k < |cs| && Going(s0, s, cs, k, env)
    requires CreateOne(s, cs[k], IdFor(cs[k], k, env), env.now).Some?
    ensures Going(s0, After(s, cs, k, env), cs, k + 1, env)
  {
    hide FreshIds, OnlyFirst, IdFor, CreateOne, EntitlementsGrew, Link, LinksMoved;
    var one := CreateOne(s, cs[k], IdFor(cs[k], k, env), env.now);
    CreateOneGrows(s0, s, cs, k, env);
    var t := one.value.0;
    LinkMoves(s0.metadata, t.metadata, cs, k, one.value.1.id);
    SameEntitlements(s0, t, After(s, cs, k, env), cs, k + 1, env);
  }

  lemma GoingIsExact(s0: Store, s: Store, cs: seq<CreateInput>, k: nat, env: Env)
    requires Going(s0, s, cs, k, env)
    ensures IndexExact(s)
  {
  }

  lemma AfterOne(s: Store, cs: seq<CreateInput>, k: nat, env: Env)
    requires k < |cs| && IndexExact(s) && CreateOne(s, cs[k], IdFor(cs[k], k, env), env.now).Some?
    ensures
      var e := CreateOne(s, cs[k], IdFor(cs[k], k, env), env.now).value.1;
      && OneCreated(s, After(s, cs, k, env), cs, k, env, e)
      && After(s, cs, k, env).metadata == if env.hasCheckout then Link(s.metadata, cs[k], e.id) else s.metadata
  {
    hide IndexExact, CreateOne, IdFor, Link, MadeFor;
    CreatesOne(s, cs, k, env);
  }

  ghost predicate MetadataLeft(s: Store, t: Store, cs: seq<CreateInput>, k: nat, env: Env,
                               made: seq<ClassEntitlement>)
  {
    if env.hasCheckout then LinksLeft(s.metadata, t.metadata, cs, k, made) else t.metadata == s.metadata
  }

  lemma MetadataStep(s: Store, t: Store, u: Store, cs: seq<CreateInput>, k: nat, env: Env, e: ClassEntitlement,
                     rest: seq<ClassEntitlement>)
    requires k < |cs| && t.metadata == (if env.hasCheckout then Link(s.metadata, cs[k], e.id) else s.metadata)
    requires MetadataLeft(t, u, cs, k + 1, env, rest)
    ensures MetadataLeft(s, u, cs, k, env, [e] + rest)
  {
    hide LinksLeft, Link;
    if env.hasCheckout {
      LinksStep(s.metadata, t.metadata, u.metadata, cs, k, e, rest);
    }
  }

  lemma NothingLeft(s: Store, cs: seq<CreateInput>, env: Env)
    ensures RecordsMade(s, cs, |cs|, env, []) && LinesIndexed(s, s, cs, |cs|, [])
    ensures IntentsIndexed(s, s, cs, |cs|, []) && MetadataLeft(s, s, cs, |cs|, env, [])
  {
  }

  /** What a completed creation leaves of the records made, the two indexes and the links. */
  lemma {:induction false} CreationLeaves(s0: Store, s: Store, cs: seq<CreateInput>, k: nat, env: Env)
    requires Going(s0, s, cs, k, env) && CreateFrom(s, cs, k, env).CreatedAll?
    ensures
      var r := CreateFrom(s, cs, k, env);
      && RecordsMade(s, cs, k, env, r.made)
      && LinesIndexed(s, r.after, cs, k, r.made) && IntentsIndexed(s, r.after, cs, k, r.made)
      && MetadataLeft(s, r.after, cs, k, env, r.made)
    decreases |cs| - k
  {
    hide CreateOne, IdFor, Link, RecordsMade, LinesIndexed, IntentsIndexed, MetadataLeft, OneCreated, IndexExact;
    hide FreshIds, EntitlementsGrew, OnlyFirst, LinksMoved;
    if k < |cs| {
      var e := CreateOne(s, cs[k], IdFor(cs[k], k, env), env.now).value.1;
      var t := After(s, cs, k, env);
      Goes(s0, s, cs, k, env);
      GoingIsExact(s0, s, cs, k, env);
      AfterOne(s, cs, k, env);
      CreationLeaves(s0, t, cs, k + 1, env);
      var rest := CreateFrom(t, cs, k + 1, env);
      RecordsStep(s, t, cs, k, env, e, rest.made);
      LinesStep(s, t, rest.after, cs, k, env, e, rest.made);
      IntentsStep(s, t, rest.after, cs, k, env, e, rest.made);
      MetadataStep(s, t, rest.after, cs, k, env, e, rest.made);
    } else {
      NothingLeft(s, cs, env);
    }
  }

  // ---------------------------------------------------------------------------
  // When creation completes
  // ---------------------------------------------------------------------------

  /** The line at i agrees with what its order line is already recorded for, before the call or by an earlier line. */
  ghost predicate Agrees(s: Store, cs: seq<CreateInput>, k: nat, i: nat)
    requires IndexExact(s) && k <= i < |cs|
  {
    && (LineOf(cs[i]) in s.entitlementsByLine ==>
          s.entitlements[s.entitlementsByLine[LineOf(cs[i])]].facts == cs[i].facts)
    && forall j :: k <= j < i && LineOf(cs[j]) == LineOf(cs[i]) ==> cs[j].facts == cs[i].facts
  }

  ghost predicate AllAgree(s: Store, cs: seq<CreateInput>, k: nat)
    requires IndexExact(s)
  {
    forall i: nat :: k <= i < |cs| ==> Agrees(s, cs, k, i)
  }

  ghost predicate LinksWork(cs: seq<CreateInput>, k: nat, env: Env) {
    env.hasCheckout ==> forall i: nat :: k <= i < |cs| ==> i !in env.linkFails
  }

  function FactsAt(s: Store, key: Key): Option<Facts>
    requires IndexExact(s)
  {
    if key in s.entitlementsByLine then Some(s.entitlements[s.entitlementsByLine[key]].facts) else None
  }

  lemma CreatesExactly(s: Store, c: CreateInput, id: Id, now: Instant)
    requires IndexExact(s) && id !in s.entitlements
    ensures CreateOne(s, c, id, now).Some? <==> FactsAt(s, LineOf(c)) == None || FactsAt(s, LineOf(c)) == Some(c.facts)
    ensures CreateOne(s, c, id, now).Some? ==>
              var t := CreateOne(s, c, id, now).value.0;
              && IndexExact(t) && FactsAt(t, LineOf(c)) == Some(c.facts)
              && forall key :: key != LineOf(c) ==> FactsAt(t, key) == FactsAt(s, key)
  {
    IndexedExactly(s, LineOf(c));
    if Indexed(s, c.facts.LineKey()).None? {
      AddRecordExact(s, c, id, now);
    }
  }

  lemma AgreesLater(s: Store, t: Store, cs: seq<CreateInput>, k: nat, i: nat)
    requires IndexExact(s) && IndexExact(t) && k < i < |cs|
    requires FactsAt(s, LineOf(cs[k])) == None || FactsAt(s, LineOf(cs[k])) == Some(cs[k].facts)
    requires FactsAt(t, LineOf(cs[k])) == Some(cs[k].facts)
    requires forall key :: key != LineOf(cs[k]) ==> FactsAt(t, key) == FactsAt(s, key)
    ensures Agrees(s, cs, k, i) <==> Agrees(t, cs, k + 1, i)
  {
    hide IndexExact;
    assert FactsAt(t, LineOf(cs[i])) == if LineOf(cs[i]) == LineOf(cs[k]) then Some(cs[k].facts)
                                        else FactsAt(s, LineOf(cs[i]));
  }

  lemma AllAgreeStep(s: Store, t: Store, cs: seq<CreateInput>, k: nat, next: nat)
    requires IndexExact(s) && IndexExact(t) && k < |cs| && next == k + 1 && Agrees(s, cs, k, k)
    requires forall i: nat :: next <= i < |cs| ==> (Agrees(s, cs, k, i) <==> Agrees(t, cs, next, i))
    ensures AllAgree(s, cs, k) <==> AllAgree(t, cs, next)
  {
    hide Agrees, IndexExact;
  }

  /** Creation completes exactly when every line agrees with what its order line is already recorded for, before
      the call or by an earlier line, and no link to metadata fails. */
  lemma {:induction false} CreationCompletesExactly(s0: Store, s: Store, cs: seq<CreateInput>, k: nat, env: Env)
    requires Going(s0, s, cs, k, env) && IndexExact(s)
    ensures CreateFrom(s, cs, k, env).CreatedAll? <==> AllAgree(s, cs, k) && LinksWork(cs, k, env)
    decreases |cs| - k
  {
    hide CreateOne, IdFor, Link, IndexExact, FactsAt, Agrees;
    hide FreshIds, EntitlementsGrew, OnlyFirst, LinksMoved;
    if k < |cs| {
      IdStillFresh(s0, s, cs, k, env);
      CreatesExactly(s, cs[k], IdFor(cs[k], k, env), env.now);
      FirstAgrees(s, cs, k);
      var one := CreateOne(s, cs[k], IdFor(cs[k], k, env), env.now);
      if one.Some? && !(env.hasCheckout && k in env.linkFails) {
        var t := After(s, cs, k, env);
        Goes(s0, s, cs, k, env);
        GoingIsExact(s0, t, cs, k + 1, env);
        SameFactsAt(one.value.0, t);
        var next := k + 1;
        forall i: nat | next <= i < |cs| ensures Agrees(s, cs, k, i) <==> Agrees(t, cs, next, i) {
          AgreesLater(s, t, cs, k, i);
        }
        AllAgreeStep(s, t, cs, k, next);
        CreationCompletesExactly(s0, t, cs, k + 1, env);
      }
    }
  }

  lemma FirstAgrees(s: Store, cs: seq<CreateInput>, k: nat)
    requires IndexExact(s) && k < |cs|
    ensures Agrees(s, cs, k, k) <==>
              FactsAt(s, LineOf(cs[k])) == None || FactsAt(s, LineOf(cs[k])) == Some(cs[k].facts)
  {
    hide IndexExact;
  }

  lemma SameFactsAt(s: Store, t: Store)
    requires IndexExact(s) && t == s.(metadata := t.metadata)
    ensures IndexExact(t) && forall key :: FactsAt(t, key) == FactsAt(s, key)
  {
  }
}
