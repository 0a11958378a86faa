/** finalizeDecision is all-or-nothing: whatever step throws, the rollback gives back every map and
    every metadata link of the state before the call. */
module FulfilmentRollback {
  import opened Fulfilment
  import opened Wrappers

  /** The order-line index is the exact inverse of the entitlements. */
  ghost predicate IndexExact(s: Store) {
    && (forall id :: id in s.entitlements ==>
          && s.entitlements[id].id == id
          && s.entitlements[id].facts.LineKey() in s.entitlementsByLine
          && s.entitlementsByLine[s.entitlements[id].facts.LineKey()] == id)
    && (forall k :: k in s.entitlementsByLine ==>
          && s.entitlementsByLine[k] in s.entitlements
          && s.entitlements[s.entitlementsByLine[k]].facts.LineKey() == k)
  }

  ghost predicate DistinctIds(ms: seq<Metadata>) {
    forall i, j :: 0 <= i < j < |ms| ==> ms[i].id != ms[j].id
  }

  /** Ids given to new entitlements are new, and differ from each other. */
  ghost predicate FreshIds(s: Store, cs: seq<CreateInput>, env: Env) {
    && (forall k: nat :: k < |cs| ==> IdFor(cs[k], k, env) !in s.entitlements)
    && (forall j: nat, k: nat :: j < k < |cs| ==> IdFor(cs[j], j, env) != IdFor(cs[k], k, env))
  }

  ghost predicate IsLineOf(k: Key, cs: seq<CreateInput>) {
    exists i :: 0 <= i < |cs| && cs[i].facts.LineKey() == k
  }

  ghost predicate IsIntentOf(k: Key, cs: seq<CreateInput>) {
    exists i :: 0 <= i < |cs| && cs[i].facts.IntentKey() == k
  }

  ghost predicate SameOff<K(!new), V>(m: map<K, V>, n: map<K, V>, k: K) {
    forall x :: x != k ==> Get(m, x) == Get(n, x)
  }

  ghost predicate Extends<K(!new), V>(m: map<K, V>, n: map<K, V>) {
    forall k :: k in m ==> k in n && n[k] == m[k]
  }

  ghost predicate NewLinesOf(m: map<Key, Id>, n: map<Key, Id>, cs: seq<CreateInput>) {
    forall k :: k in n && k !in m ==> IsLineOf(k, cs)
  }

  ghost predicate SameOffIntents(m: map<Key, Id>, n: map<Key, Id>, cs: seq<CreateInput>) {
    forall k :: !IsIntentOf(k, cs) ==> Get(n, k) == Get(m, k)
  }

  ghost predicate EntitlementsGrew(s: Store, t: Store, cs: seq<CreateInput>) {
    && IndexExact(t)
    && Extends(s.entitlements, t.entitlements)
    && Extends(s.entitlementsByLine, t.entitlementsByLine)
    && NewLinesOf(s.entitlementsByLine, t.entitlementsByLine, cs)
    && SameOffIntents(s.entitlementsByIntent, t.entitlementsByIntent, cs)
  }

  ghost predicate LinksMoved(ms: seq<Metadata>, ns: seq<Metadata>, cs: seq<CreateInput>) {
    && |ms| == |ns|
    && (forall i :: 0 <= i < |ms| ==>
          ns[i] == ms[i] || (Touched(ms[i], cs) && ns[i] == ms[i].(entitlement := ns[i].entitlement)))
  }

  /** What a step that throws may have written. */
  ghost predicate Disturbed(s: Store, t: Store, input: Input) {
    var d := input.decision;
    && EntitlementsGrew(s, t, input.Classes())
    && LinksMoved(s.metadata, t.metadata, input.Classes())
    && SameOff(s.projections, t.projections, d.OrderKey())
    && SameOff(s.decisions, t.decisions, d.OrderKey())
    && (if d.IntentKey().Some? then SameOff(s.decisionsByIntent, t.decisionsByIntent, d.IntentKey().value)
        else t.decisionsByIntent == s.decisionsByIntent)
    && (if d.LineKey().Some? then SameOff(s.decisionsByLine, t.decisionsByLine, d.LineKey().value)
        else t.decisionsByLine == s.decisionsByLine)
    && t.deliveries == s.deliveries
    && t.deliveriesByWebhook == s.deliveriesByWebhook
    && t.intentStatus == s.intentStatus
  }

  // ---------------------------------------------------------------------------
  // How far the steps reach
  // ---------------------------------------------------------------------------

  /** The ids present are old ones or those of the first k inputs. */
  ghost predicate OnlyFirst(s0: Store, s: Store, cs: seq<CreateInput>, k: nat, env: Env)
    requires k <= |cs|
  {
    forall id :: id in s.entitlements && id !in s0.entitlements ==>
      exists j: nat :: j < k && id == IdFor(cs[j], j, env)
  }

  lemma AddRecordExact(s: Store, c: CreateInput, id: Id, now: Instant)
    requires IndexExact(s) && id !in s.entitlements && Indexed(s, c.facts.LineKey()).None?
    ensures c.facts.LineKey() !in s.entitlementsByLine
    ensures IndexExact(AddRecord(s, c, id, now))
  {
  }

  lemma AddRecordGrows(s0: Store, s: Store, cs: seq<CreateInput>, k: nat, id: Id, now: Instant)
    requires k < |cs| && EntitlementsGrew(s0, s, cs)
    requires id !in s.entitlements && Indexed(s, cs[k].facts.LineKey()).None?
    ensures EntitlementsGrew(s0, AddRecord(s, cs[k], id, now), cs)
  {
    var c := cs[k];
    AddRecordExact(s, c, id, now);
    hide IndexExact, Indexed, NewEntitlement, Extends, NewLinesOf, SameOffIntents;
    ExtendsAdd(s0.entitlements, s.entitlements, id, NewEntitlement(c, id, now));
    ExtendsAdd(s0.entitlementsByLine, s.entitlementsByLine, c.facts.LineKey(), id);
    NewKeysAdd(s0.entitlementsByLine, s.entitlementsByLine, s0.entitlementsByIntent, s.entitlementsByIntent, cs, k, id);
  }

  lemma ExtendsAdd<K(!new), V>(m: map<K, V>, n: map<K, V>, k: K, v: V)
    requires Extends(m, n) && k !in n
    ensures Extends(m, n[k := v])
  {
  }

  lemma NewKeysAdd(m: map<Key, Id>, n: map<Key, Id>, p: map<Key, Id>, q: map<Key, Id>,
                   cs: seq<CreateInput>, k: nat, id: Id)
    requires k < |cs| && NewLinesOf(m, n, cs) && SameOffIntents(p, q, cs)
    ensures NewLinesOf(m, n[cs[k].facts.LineKey() := id], cs)
    ensures SameOffIntents(p, q[cs[k].facts.IntentKey() := id], cs)
  {
  }

  lemma AddRecordOnlyFirst(s0: Store, s: Store, cs: seq<CreateInput>, k: nat, env: Env, now: Instant)
    requires k < |cs| && OnlyFirst(s0, s, cs, k, env)
    ensures OnlyFirst(s0, AddRecord(s, cs[k], IdFor(cs[k], k, env), now), cs, k + 1, env)
  {
    var id := IdFor(cs[k], k, env);
    var t := AddRecord(s, cs[k], id, now);
    forall x | x in t.entitlements && x !in s0.entitlements
      ensures exists j: nat :: j < k + 1 && x == IdFor(cs[j], j, env)
    {
      if x == id {
        assert x == IdFor(cs[k], k, env);
      } else {
        assert x in s.entitlements;
        var j: nat :| j < k && x == IdFor(cs[j], j, env);
      }
    }
  }

  lemma IdStillFresh(s0: Store, s: Store, cs: seq<CreateInput>, k: nat, env: Env)
    requires k < |cs| && FreshIds(s0, cs, env) && OnlyFirst(s0, s, cs, k, env)
    ensures IdFor(cs[k], k, env) !in s.entitlements
  {
  }

  lemma CreateOneGrows(s0: Store, s: Store, cs: seq<CreateInput>, k: nat, env: Env)
    requires k < |cs| && FreshIds(s0, cs, env)
    requires EntitlementsGrew(s0, s, cs) && OnlyFirst(s0, s, cs, k, env)
    requires CreateOne(s, cs[k], IdFor(cs[k], k, env), env.now).Some?
    ensures
      var t := CreateOne(s, cs[k], IdFor(cs[k], k, env), env.now).value.0;
      EntitlementsGrew(s0, t, cs) && OnlyFirst(s0, t, cs, k + 1, env)
      && SameElsewhere(s, t) && t.metadata == s.metadata
  {
    hide EntitlementsGrew, FreshIds, Indexed, IdFor, NewEntitlement;
    if Indexed(s, cs[k].facts.LineKey()).None? {
      hide OnlyFirst;
      IdStillFresh(s0, s, cs, k, env);
      AddRecordGrows(s0, s, cs, k, IdFor(cs[k], k, env), env.now);
      AddRecordOnlyFirst(s0, s, cs, k, env, env.now);
    }
  }

  lemma {:induction false} LinkMoves(ms: seq<Metadata>, ns: seq<Metadata>, cs: seq<CreateInput>, k: nat, e: Id)
    requires k < |cs| && LinksMoved(ms, ns, cs)
    ensures LinksMoved(ms, Link(ns, cs[k], e), cs)
    decreases |ns|
  {
    if ns != [] {
      if Links(ns[0], cs[k]) {
        assert Touched(ms[0], cs);
      } else {
        LinkMoves(ms[1..], ns[1..], cs, k, e);
      }
    }
  }

  /** Only these four parts of the store are written while entitlements are created. */
  ghost predicate SameElsewhere(s: Store, t: Store) {
    t == s.(entitlements := t.entitlements, entitlementsByLine := t.entitlementsByLine,
            entitlementsByIntent := t.entitlementsByIntent, metadata := t.metadata)
  }

  lemma {:induction false} CreateFromGrows(s0: Store, s: Store, cs: seq<CreateInput>, k: nat, env: Env)
    requires k <= |cs| && FreshIds(s0, cs, env)
    requires EntitlementsGrew(s0, s, cs) && OnlyFirst(s0, s, cs, k, env)
    requires LinksMoved(s0.metadata, s.metadata, cs)
    ensures
      var t := CreateFrom(s, cs, k, env).after;
      EntitlementsGrew(s0, t, cs) && LinksMoved(s0.metadata, t.metadata, cs) && SameElsewhere(s, t)
    decreases |cs| - k
  {
    hide EntitlementsGrew, LinksMoved, FreshIds, Link, OnlyFirst, CreateOne, IdFor;
    if k < |cs| {
      var one := CreateOne(s, cs[k], IdFor(cs[k], k, env), env.now);
      if one.Some? {
        CreateOneGrows(s0, s, cs, k, env);
        var t := one.value.0;
        if !(env.hasCheckout && k in env.linkFails) {
          var linked := if env.hasCheckout then t.(metadata := Link(t.metadata, cs[k], one.value.1.id)) else t;
          LinkMoves(s0.metadata, t.metadata, cs, k, one.value.1.id);
          SameEntitlements(s0, t, linked, cs, k + 1, env);
          CreateFromGrows(s0, linked, cs, k + 1, env);
        }
      }
    }
  }

  lemma SameEntitlements(s0: Store, t: Store, u: Store, cs: seq<CreateInput>, k: nat, env: Env)
    requires k <= |cs| && EntitlementsGrew(s0, t, cs) && OnlyFirst(s0, t, cs, k, env)
    requires u == t.(metadata := u.metadata)
    ensures EntitlementsGrew(s0, u, cs) && OnlyFirst(s0, u, cs, k, env)
  {
  }

  lemma WriteDecisionDisturbs(s: Store, t: Store, input: Input, record: Decision)
    requires Disturbed(s, t, input)
    ensures Disturbed(s, WriteDecision(t, input.decision, record), input)
  {
  }

  lemma GrantDisturbs(s: Store, t: Store, input: Input, grants: seq<GrantInput>)
    requires Disturbed(s, t, input)
    ensures Disturbed(s, t.(grants := grants), input)
  {
  }

  lemma NothingDisturbed(s: Store, input: Input)
    requires IndexExact(s)
    ensures Disturbed(s, s, input)
  {
  }

  lemma ProjectionDisturbs(s: Store, input: Input, p: ProjectionInput)
    requires IndexExact(s) && Key(p.org, p.order) == input.decision.OrderKey()
    ensures Disturbed(s, UpsertProjection(s, p), input)
  {
  }

  lemma CreationDisturbs(s: Store, s1: Store, input: Input, env: Env)
    requires Disturbed(s, s1, input) && FreshIds(s, input.Classes(), env)
    requires SameElsewhere(s, s1.(projections := s.projections)) && s1.entitlements == s.entitlements
    ensures Disturbed(s, CreateFrom(s1, input.Classes(), 0, env).after, input)
  {
    hide EntitlementsGrew, LinksMoved, FreshIds, CreateFrom;
    CreateFromGrows(s, s1, input.Classes(), 0, env);
  }

  /** Concluding throws without having written anything. */
  lemma ConcludeThrowsEarly(s: Store, d: Decision, delivery: Id, env: Env, r: Result)
    ensures Conclude(s, d, delivery, env, r).Threw? ==> Conclude(s, d, delivery, env, r).after == s
    ensures Conclude(s, d, delivery, env, r).after.metadata == s.metadata
    ensures Conclude(s, d, delivery, env, r).after.grants == s.grants
  {
  }

  lemma RecordDisturbs(s: Store, t: Store, record: Decision, input: Input, env: Env, made: seq<ClassEntitlement>)
    requires Disturbed(s, t, input)
    ensures Record(t, record, input, env, made).Threw? ==>
              Disturbed(s, Record(t, record, input, env, made).after, input)
  {
    hide Disturbed, Conclude, WriteDecision;
    WriteDecisionDisturbs(s, t, input, record);
    ConcludeThrowsEarly(WriteDecision(t, input.decision, record), record, input.delivery, env,
                        Result(record, made, false));
  }

  lemma DecideDisturbs(s: Store, t: Store, record: Decision, input: Input, env: Env)
    requires Disturbed(s, t, input) && FreshIds(s, input.Classes(), env)
    requires SameElsewhere(s, t.(projections := s.projections)) && t.entitlements == s.entitlements
    requires Decide(t, record, input, env).Threw?
    ensures Disturbed(s, Decide(t, record, input, env).after, input)
  {
    hide Disturbed, FreshIds, CreateFrom, Record;
    if input.decision.status.Approved? && input.grant.Some? {
      var u := t.(grants := t.grants + [input.grant.value]);
      GrantDisturbs(s, t, input, u.grants);
      RecordDisturbs(s, u, record, input, env, []);
    } else if input.decision.status.Approved? {
      CreationDisturbs(s, t, input, env);
      match CreateFrom(t, input.Classes(), 0, env)
      case CreateThrew(u) =>
      case CreatedAll(u, made) => RecordDisturbs(s, u, record, input, env, made);
    } else {
      RecordDisturbs(s, t, record, input, env, []);
    }
  }

  lemma ProjectDisturbs(s: Store, input: Input)
    requires IndexExact(s) && ProjectionMatches(input)
    ensures Disturbed(s, Project(s, input), input)
    ensures SameElsewhere(s, Project(s, input).(projections := s.projections))
    ensures Project(s, input).entitlements == s.entitlements
  {
    if input.projection.Some? {
      ProjectionDisturbs(s, input, input.projection.value);
    }
  }

  lemma WriteDisturbs(s: Store, input: Input, env: Env)
    requires IndexExact(s) && FreshIds(s, input.Classes(), env) && Write(s, input, env).Threw?
    ensures Disturbed(s, Write(s, input, env).after, input)
  {
    hide Disturbed, IndexExact, FreshIds, Decide, Project, NewDecision, SameElsewhere, ProjectionMatches;
    NothingDisturbed(s, input);
    if ProjectionMatches(input) {
      ProjectDisturbs(s, input);
      DecideDisturbs(s, Project(s, input), NewDecision(s, input.decision, env), input, env);
    }
  }

  lemma ReplayIsDecided(s: Store, input: Input)
    requires IsReplay(s, input)
    ensures input.decision.OrderKey() in s.decisions
  {
  }

  lemma AnswerThrowsEarly(s: Store, input: Input, env: Env)
    ensures forall order ::
              && (AnswerWith(s, input, env, order).Threw? ==> AnswerWith(s, input, env, order).after == s)
              && AnswerWith(s, input, env, order).after.metadata == s.metadata
              && AnswerWith(s, input, env, order).after.grants == s.grants
  {
    forall order
      ensures
        && (AnswerWith(s, input, env, order).Threw? ==> AnswerWith(s, input, env, order).after == s)
        && AnswerWith(s, input, env, order).after.metadata == s.metadata
        && AnswerWith(s, input, env, order).after.grants == s.grants
    {
      hide Conclude, FindByOrderLine;
      if order in s.decisions {
        var line := input.decision.LineKey();
        var found := if line.Some? then FindByOrderLine(s, line.value.org, line.value.id) else None;
        ConcludeThrowsEarly(s, s.decisions[order], input.delivery, env,
                            Result(s.decisions[order], if found.Some? then [found.value] else [], true));
      }
    }
  }

  lemma ThrowDisturbs(s: Store, input: Input, env: Env)
    requires IndexExact(s) && FreshIds(s, input.Classes(), env) && Internal(s, input, env).Threw?
    ensures Disturbed(s, Internal(s, input, env).after, input)
  {
    hide Disturbed, IndexExact, FreshIds, Write, Malformed, ReplayConflicts, IsReplay, Competing;
    hide Conclude, AnswerWith, FoundAll;
    var d := input.decision;
    NothingDisturbed(s, input);
    if Write(s, input, env).Threw? {
      WriteDisturbs(s, input, env);
    }
    AnswerThrowsEarly(s, input, env);
    if IsReplay(s, input) {
      assert d.OrderKey() in s.decisions by { ReplayIsDecided(s, input); }
      var existing := s.decisions[d.OrderKey()];
      ConcludeThrowsEarly(s, existing, input.delivery, env,
                          Result(existing, FoundAll(s, d.org, input.Classes()), true));
    }
  }

  // ---------------------------------------------------------------------------
  // How far the rollback reaches
  // ---------------------------------------------------------------------------

  lemma PutGetBack<K(!new), V>(m: map<K, V>, n: map<K, V>, k: K)
    requires SameOff(m, n, k)
    ensures Put(n, k, Get(m, k)) == m
  {
    var r := Put(n, k, Get(m, k));
    forall x ensures Get(r, x) == Get(m, x) {
      if x != k { assert Get(n, x) == Get(m, x) && Get(r, x) == Get(n, x); }
    }
    SameMap(r, m);
  }

  lemma SameMap<K(!new), V>(m: map<K, V>, n: map<K, V>)
    requires forall x :: Get(m, x) == Get(n, x)
    ensures m == n
  {
    forall x | x in m ensures x in n && m[x] == n[x] { assert Get(m, x) == Get(n, x); }
    forall x | x in n ensures x in m { assert Get(m, x) == Get(n, x); }
  }

  /** Half-way through the rollback of the lines: keys of the first i inputs are as in s, the others
      as in t, and the records made for those first keys are gone. */
  ghost predicate KeysUndone(s: Store, t: Store, u: Store, done: seq<CreateInput>) {
    forall k :: Get(u.entitlementsByLine, k)
             == Get(if IsLineOf(k, done) then s.entitlementsByLine else t.entitlementsByLine, k)
  }

  /** A record of t, unless it is new and belongs to one of the lines already undone. */
  ghost function Surviving(s: Store, t: Store, done: seq<CreateInput>, id: Id): Option<ClassEntitlement> {
    if id in t.entitlements && id !in s.entitlements && IsLineOf(t.entitlements[id].facts.LineKey(), done) then None
    else Get(t.entitlements, id)
  }

  ghost predicate RecordsUndone(s: Store, t: Store, u: Store, done: seq<CreateInput>) {
    forall id :: Get(u.entitlements, id) == Surviving(s, t, done, id)
  }

  ghost predicate LinesUndone(s: Store, t: Store, u: Store, cs: seq<CreateInput>, i: nat)
    requires i <= |cs|
  {
    KeysUndone(s, t, u, cs[..i]) && RecordsUndone(s, t, u, cs[..i])
  }

  lemma OneKeyUndone(s: Store, t: Store, u: Store, done: seq<CreateInput>, c: CreateInput)
    requires KeysUndone(s, t, u, done)
    ensures KeysUndone(s, t, RestoreLine(u, (c.facts.LineKey(), Get(s.entitlementsByLine, c.facts.LineKey()))),
                       done + [c])
  {
    hide IsLineOf;
    LineOfAppend(done, c);
  }

  lemma OneRecordUndone(s: Store, t: Store, u: Store, cs: seq<CreateInput>, done: seq<CreateInput>, c: CreateInput)
    requires IndexExact(s) && EntitlementsGrew(s, t, cs)
    requires KeysUndone(s, t, u, done) && RecordsUndone(s, t, u, done)
    ensures RecordsUndone(s, t, RestoreLine(u, (c.facts.LineKey(), Get(s.entitlementsByLine, c.facts.LineKey()))),
                          done + [c])
  {
    var key := c.facts.LineKey();
    var v := RestoreLine(u, (key, Get(s.entitlementsByLine, key)));
    assert Get(u.entitlementsByLine, key)
        == Get(if IsLineOf(key, done) then s.entitlementsByLine else t.entitlementsByLine, key);
    forall id ensures Get(v.entitlements, id) == Surviving(s, t, done + [c], id) {
      assert Get(u.entitlements, id) == Surviving(s, t, done, id);
      RecordUndoneAt(s, t, u, cs, done, c, id);
    }
  }

  lemma RecordUndoneAt(s: Store, t: Store, u: Store, cs: seq<CreateInput>, done: seq<CreateInput>, c: CreateInput,
                       id: Id)
    requires IndexExact(s) && EntitlementsGrew(s, t, cs)
    requires Get(u.entitlementsByLine, c.facts.LineKey())
          == Get(if IsLineOf(c.facts.LineKey(), done) then s.entitlementsByLine else t.entitlementsByLine,
                 c.facts.LineKey())
    requires Get(u.entitlements, id) == Surviving(s, t, done, id)
    ensures Get(RestoreLine(u, (c.facts.LineKey(), Get(s.entitlementsByLine, c.facts.LineKey()))).entitlements, id)
         == Surviving(s, t, done + [c], id)
  {
    hide IsLineOf, IndexExact, EntitlementsGrew;
    LineOfAppend(done, c);
    NewRecordHasNewKey(s, t, cs, id);
    KeyLeadsToRecord(s, t, cs, c.facts.LineKey(), id);
  }

  /** In t, a key leads to a record exactly when it is that record's key. */
  lemma KeyLeadsToRecord(s: Store, t: Store, cs: seq<CreateInput>, key: Key, id: Id)
    requires EntitlementsGrew(s, t, cs)
    ensures Get(t.entitlementsByLine, key) == Some(id)
       <==> id in t.entitlements && t.entitlements[id].facts.LineKey() == key
  {
  }

  lemma OneLineUndone(s: Store, t: Store, u: Store, cs: seq<CreateInput>, i: nat)
    requires i < |cs| && IndexExact(s) && EntitlementsGrew(s, t, cs) && LinesUndone(s, t, u, cs, i)
    ensures LinesUndone(s, t, RestoreLine(u, LineSnapshots(s, cs)[i]), cs, i + 1)
  {
    hide IndexExact, EntitlementsGrew, KeysUndone, RecordsUndone, RestoreLine;
    assert cs[..i + 1] == cs[..i] + [cs[i]];
    OneKeyUndone(s, t, u, cs[..i], cs[i]);
    OneRecordUndone(s, t, u, cs, cs[..i], cs[i]);
  }

  lemma LineOfAppend(cs: seq<CreateInput>, c: CreateInput)
    ensures forall k :: IsLineOf(k, cs + [c]) <==> IsLineOf(k, cs) || k == c.facts.LineKey()
  {
    forall k ensures IsLineOf(k, cs + [c]) <==> IsLineOf(k, cs) || k == c.facts.LineKey() {
      if IsLineOf(k, cs) {
        var i :| 0 <= i < |cs| && cs[i].facts.LineKey() == k;
        assert (cs + [c])[i] == cs[i];
      }
      assert (cs + [c])[|cs|] == c;
    }
  }

  lemma NewRecordHasNewKey(s: Store, t: Store, cs: seq<CreateInput>, id: Id)
    requires IndexExact(s) && EntitlementsGrew(s, t, cs)
    ensures id in t.entitlements ==>
              (id !in s.entitlements <==> t.entitlements[id].facts.LineKey() !in s.entitlementsByLine)
    ensures id in t.entitlements && id !in s.entitlements ==> IsLineOf(t.entitlements[id].facts.LineKey(), cs)
  {
  }

  lemma {:induction false} LinesRestored(s: Store, t: Store, u: Store, cs: seq<CreateInput>, i: nat)
    requires i <= |cs| && IndexExact(s) && EntitlementsGrew(s, t, cs) && LinesUndone(s, t, u, cs, i)
    ensures
      var r := RestoreLines(u, LineSnapshots(s, cs)[i..]);
      && r.entitlements == s.entitlements
      && r.entitlementsByLine == s.entitlementsByLine
      && r == u.(entitlements := r.entitlements, entitlementsByLine := r.entitlementsByLine)
    decreases |cs| - i
  {
    hide IndexExact, EntitlementsGrew, LinesUndone, LineSnapshots, RestoreLine;
    var lines := LineSnapshots(s, cs);
    if i < |cs| {
      OneLineUndone(s, t, u, cs, i);
      assert lines[i..][1..] == lines[i + 1..];
      var v := RestoreLine(u, lines[i]);
      RestoreLineReach(u, lines[i]);
      LinesRestored(s, t, v, cs, i + 1);
    } else {
      AllLinesUndone(s, t, u, cs);
    }
  }

  lemma RestoreLineReach(u: Store, line: (Key, Option<Id>))
    ensures
      var v := RestoreLine(u, line);
      v == u.(entitlements := v.entitlements, entitlementsByLine := v.entitlementsByLine)
  {
  }

  lemma AllLinesUndone(s: Store, t: Store, u: Store, cs: seq<CreateInput>)
    requires IndexExact(s) && EntitlementsGrew(s, t, cs) && LinesUndone(s, t, u, cs, |cs|)
    ensures u.entitlements == s.entitlements && u.entitlementsByLine == s.entitlementsByLine
  {
    assert cs[..|cs|] == cs;
    forall id ensures Get(u.entitlements, id) == Get(s.entitlements, id) {
      NewRecordHasNewKey(s, t, cs, id);
    }
    forall k ensures Get(u.entitlementsByLine, k) == Get(s.entitlementsByLine, k) {
      assert Get(u.entitlementsByLine, k)
          == Get(if IsLineOf(k, cs) then s.entitlementsByLine else t.entitlementsByLine, k);
    }
    SameMap(u.entitlements, s.entitlements);
    SameMap(u.entitlementsByLine, s.entitlementsByLine);
  }

  lemma {:induction false} IntentsRestored(m: map<Key, Id>, n: map<Key, Id>, intents: seq<(Key, Option<Id>)>)
    requires forall i :: 0 <= i < |intents| ==> intents[i].1 == Get(m, intents[i].0)
    requires forall k :: Get(n, k) == Get(m, k) || exists i :: 0 <= i < |intents| && intents[i].0 == k
    ensures RestoreIntents(n, intents) == m
    decreases |intents|
  {
    if intents == [] {
      SameMap(n, m);
    } else {
      var p := Put(n, intents[0].0, intents[0].1);
      forall k ensures Get(p, k) == Get(m, k) || exists i :: 0 <= i < |intents[1..]| && intents[1..][i].0 == k {
        if k != intents[0].0 && Get(n, k) != Get(m, k) {
          var i :| 0 <= i < |intents| && intents[i].0 == k;
          assert intents[1..][i - 1].0 == k;
        }
      }
      IntentsRestored(m, p, intents[1..]);
    }
  }

  lemma {:induction false} LinkSnapshotIds(ms: seq<Metadata>, cs: seq<CreateInput>, id: Id)
    requires forall i :: 0 <= i < |ms| ==> ms[i].id != id
    ensures id !in LinkSnapshot(ms, cs)
    decreases |ms|
  {
    hide Touched;
    if ms != [] {
      LinkSnapshotIds(ms[..|ms| - 1], cs, id);
    }
  }

  lemma {:induction false} LinkSnapshotAt(ms: seq<Metadata>, cs: seq<CreateInput>, i: nat)
    requires i < |ms| && DistinctIds(ms)
    ensures Get(LinkSnapshot(ms, cs), ms[i].id) == if Touched(ms[i], cs) then Some(ms[i].entitlement) else None
    decreases |ms|
  {
    hide Touched;
    var n := |ms| - 1;
    if i < n {
      assert ms[..n][i] == ms[i];
      LinkSnapshotAt(ms[..n], cs, i);
    } else {
      LinkSnapshotIds(ms[..n], cs, ms[n].id);
    }
  }

  lemma LinksRestored(ms: seq<Metadata>, ns: seq<Metadata>, cs: seq<CreateInput>)
    requires DistinctIds(ms) && LinksMoved(ms, ns, cs)
    ensures RestoreLinks(ns, LinkSnapshot(ms, cs)) == ms
  {
    hide Touched, LinkSnapshot, RestoreLinks;
    var r := RestoreLinks(ns, LinkSnapshot(ms, cs));
    forall i | 0 <= i < |ms| ensures r[i] == ms[i] {
      LinkSnapshotAt(ms, cs, i);
      assert ns[i].id == ms[i].id;
    }
  }

  /** Without a checkout repository no link is written, and none is restored. */
  ghost predicate LinksCovered(s: Store, t: Store, env: Env) {
    !env.hasCheckout ==> t.metadata == s.metadata
  }

  lemma IntentsCovered(s: Store, t: Store, cs: seq<CreateInput>)
    requires EntitlementsGrew(s, t, cs)
    ensures RestoreIntents(t.entitlementsByIntent, IntentSnapshots(s, cs)) == s.entitlementsByIntent
  {
    hide IndexExact;
    var intents := IntentSnapshots(s, cs);
    forall k
      ensures Get(t.entitlementsByIntent, k) == Get(s.entitlementsByIntent, k)
           || exists i :: 0 <= i < |intents| && intents[i].0 == k
    {
      if IsIntentOf(k, cs) {
        var i :| 0 <= i < |cs| && cs[i].facts.IntentKey() == k;
        assert intents[i].0 == k;
      }
    }
    IntentsRestored(s.entitlementsByIntent, t.entitlementsByIntent, intents);
  }

  lemma LinesCovered(s: Store, t: Store, cs: seq<CreateInput>)
    requires IndexExact(s) && EntitlementsGrew(s, t, cs)
    ensures
      var r := RestoreLines(t, LineSnapshots(s, cs));
      && r.entitlements == s.entitlements
      && r.entitlementsByLine == s.entitlementsByLine
      && r == t.(entitlements := r.entitlements, entitlementsByLine := r.entitlementsByLine)
  {
    hide IndexExact, EntitlementsGrew;
    assert LineSnapshots(s, cs)[0..] == LineSnapshots(s, cs);
    assert LinesUndone(s, t, t, cs, 0);
    LinesRestored(s, t, t, cs, 0);
  }

  lemma IndexesCovered(s: Store, t: Store, input: Input)
    requires Disturbed(s, t, input)
    ensures
      var d := input.decision;
      && Put(t.projections, d.OrderKey(), Get(s.projections, d.OrderKey())) == s.projections
      && Put(t.decisions, d.OrderKey(), Get(s.decisions, d.OrderKey())) == s.decisions
      && (d.IntentKey().Some? ==>
            Put(t.decisionsByIntent, d.IntentKey().value, Get(s.decisionsByIntent, d.IntentKey().value))
            == s.decisionsByIntent)
      && (d.LineKey().Some? ==>
            Put(t.decisionsByLine, d.LineKey().value, Get(s.decisionsByLine, d.LineKey().value))
            == s.decisionsByLine)
  {
    hide SameOff, Put, EntitlementsGrew, LinksMoved;
    var d := input.decision;
    PutGetBack(s.projections, t.projections, d.OrderKey());
    PutGetBack(s.decisions, t.decisions, d.OrderKey());
    if d.IntentKey().Some? {
      PutGetBack(s.decisionsByIntent, t.decisionsByIntent, d.IntentKey().value);
    }
    if d.LineKey().Some? {
      PutGetBack(s.decisionsByLine, t.decisionsByLine, d.LineKey().value);
    }
  }

  lemma DeliveryCovered(m: map<Id, Delivery>, id: Id)
    ensures (if Get(m, id).Some? then m[id := Get(m, id).value] else m) == m
  {
  }

  /** The rollback undoes any disturbance. */
  lemma RestoreUndoes(s: Store, t: Store, input: Input, env: Env)
    requires IndexExact(s) && DistinctIds(s.metadata) && Disturbed(s, t, input) && LinksCovered(s, t, env)
    ensures Restore(t, Take(s, input, env), input) == s.(grants := t.grants)
  {
    hide IndexExact, DistinctIds, EntitlementsGrew, RestoreLines, RestoreIntents, RestoreLinks, LinkSnapshot;
    hide LineSnapshots, IntentSnapshots, Put, Get, SameOff;
    var cs := input.Classes();
    LinesCovered(s, t, cs);
    IntentsCovered(s, t, cs);
    IndexesCovered(s, t, input);
    DeliveryCovered(s.deliveries, input.delivery);
    if env.hasCheckout {
      LinksRestored(s.metadata, t.metadata, cs);
    } else {
      assert RestoreLinks(t.metadata, map[]) == s.metadata by { NoLinksRestored(t.metadata); }
    }
  }

  lemma NoLinksRestored(ms: seq<Metadata>)
    ensures RestoreLinks(ms, map[]) == ms
  {
    var r := RestoreLinks(ms, map[]);
    assert forall i :: 0 <= i < |ms| ==> r[i] == ms[i];
  }

  lemma {:induction false} CreateFromCovers(s: Store, cs: seq<CreateInput>, k: nat, env: Env)
    requires k <= |cs|
    ensures !env.hasCheckout ==> CreateFrom(s, cs, k, env).after.metadata == s.metadata
    ensures CreateFrom(s, cs, k, env).after.grants == s.grants
    decreases |cs| - k
  {
    hide CreateOne, IdFor, Link;
    if k < |cs| {
      var one := CreateOne(s, cs[k], IdFor(cs[k], k, env), env.now);
      CreateOneCovers(s, cs[k], IdFor(cs[k], k, env), env.now);
      if one.Some? && !(env.hasCheckout && k in env.linkFails) {
        var t := one.value.0;
        CreateFromCovers(if env.hasCheckout then t.(metadata := Link(t.metadata, cs[k], one.value.1.id)) else t,
                         cs, k + 1, env);
      }
    }
  }

  lemma CreateOneCovers(s: Store, c: CreateInput, id: Id, now: Instant)
    ensures CreateOne(s, c, id, now).Some? ==>
              var t := CreateOne(s, c, id, now).value.0;
              t.metadata == s.metadata && t.grants == s.grants
  {
  }

  lemma RecordCovers(s: Store, record: Decision, input: Input, env: Env, made: seq<ClassEntitlement>)
    ensures
      var o := Record(s, record, input, env, made);
      && o.after.metadata == s.metadata && o.after.grants == s.grants
      && (o.Threw? <==> Resolves(record, env) && env.resolveFails)
  {
    hide MarkProcessed, ResolveIntent;
    var t := WriteDecision(s, input.decision, record);
    ConcludeThrowsEarly(t, record, input.delivery, env, Result(record, made, false));
  }

  /** Whether deciding hands a grant to the other repository and then fails to resolve the intent. */
  predicate GrantsThenThrows(record: Decision, input: Input, env: Env) {
    && input.decision.status.Approved? && input.Classes() == []
    && input.grant.Some? && input.grant.value.valid && !env.grantFails
    && Resolves(record, env) && env.resolveFails
  }

  lemma DecideCovers(s: Store, record: Decision, input: Input, env: Env)
    ensures LinksCovered(s, Decide(s, record, input, env).after, env)
    ensures Decide(s, record, input, env).Threw? ==>
              Decide(s, record, input, env).after.grants
              == s.grants + if GrantsThenThrows(record, input, env) then [input.grant.value] else []
  {
    hide CreateFrom, Record, Resolves;
    if input.decision.status.Approved? && input.grant.Some? {
      RecordCovers(s.(grants := s.grants + [input.grant.value]), record, input, env, []);
    } else if input.decision.status.Approved? {
      CreateFromCovers(s, input.Classes(), 0, env);
      match CreateFrom(s, input.Classes(), 0, env)
      case CreateThrew(t) =>
      case CreatedAll(t, made) => RecordCovers(t, record, input, env, made);
    } else {
      RecordCovers(s, record, input, env, []);
    }
  }

  lemma ProjectCovers(s: Store, input: Input)
    ensures Project(s, input).metadata == s.metadata && Project(s, input).grants == s.grants
  {
  }

  lemma WriteCovers(s: Store, input: Input, env: Env)
    ensures LinksCovered(s, Write(s, input, env).after, env)
  {
    hide Decide, NewDecision, Project;
    ProjectCovers(s, input);
    DecideCovers(Project(s, input), NewDecision(s, input.decision, env), input, env);
  }

  lemma InternalCovers(s: Store, input: Input, env: Env)
    ensures LinksCovered(s, Internal(s, input, env).after, env)
  {
    hide Write, Malformed, ReplayConflicts, IsReplay, Competing, FoundAll, FindByOrderLine, Conclude, AnswerWith;
    WriteCovers(s, input, env);
    AnswerThrowsEarly(s, input, env);
    if IsReplay(s, input) {
      ReplayIsDecided(s, input);
      var existing := s.decisions[input.decision.OrderKey()];
      ConcludeThrowsEarly(s, existing, input.delivery, env,
                          Result(existing, FoundAll(s, input.decision.org, input.Classes()), true));
    }
  }

  /** The one thing a failed call can leave behind: a membership grant, already written to the other
      repository when resolving the checkout intent throws. */
  predicate GrantOutlivesRollback(s: Store, input: Input, env: Env) {
    var d := input.decision;
    && !Malformed(input) && !ReplayConflicts(s, input) && !IsReplay(s, input)
    && Competing(s.decisionsByIntent, d.IntentKey(), d.OrderKey()).None?
    && Competing(s.decisionsByLine, d.LineKey(), d.OrderKey()).None?
    && ProjectionMatches(input)
    && d.status.Approved? && input.Classes() == []
    && input.grant.Some? && input.grant.value.valid && !env.grantFails
    && env.hasCheckout && d.IntentKey().Some? && env.resolveFails
  }

  lemma GrantsAfterWrite(s: Store, input: Input, env: Env)
    requires !Malformed(input) && !ReplayConflicts(s, input) && !IsReplay(s, input)
    requires Competing(s.decisionsByIntent, input.decision.IntentKey(), input.decision.OrderKey()).None?
    requires Competing(s.decisionsByLine, input.decision.LineKey(), input.decision.OrderKey()).None?
    requires Write(s, input, env).Threw?
    ensures Write(s, input, env).after.grants
         == s.grants + if GrantOutlivesRollback(s, input, env) then [input.grant.value] else []
  {
    hide Decide, NewDecision, Project, Malformed, ReplayConflicts, IsReplay, Competing;
    ProjectCovers(s, input);
    DecideCovers(Project(s, input), NewDecision(s, input.decision, env), input, env);
    RecordIsOfInput(s, input, env);
  }

  lemma RecordIsOfInput(s: Store, input: Input, env: Env)
    ensures NewDecision(s, input.decision, env).intent == input.decision.intent
    ensures NewDecision(s, input.decision, env).status == input.decision.status
  {
  }

  lemma GrantsAfterThrow(s: Store, input: Input, env: Env)
    requires Internal(s, input, env).Threw?
    ensures Internal(s, input, env).after.grants
         == s.grants + if GrantOutlivesRollback(s, input, env) then [input.grant.value] else []
  {
    hide Write, Malformed, ReplayConflicts, IsReplay, Competing, AnswerWith, Conclude, FoundAll;
    var d := input.decision;
    AnswerThrowsEarly(s, input, env);
    if IsReplay(s, input) {
      ReplayIsDecided(s, input);
      var existing := s.decisions[d.OrderKey()];
      ConcludeThrowsEarly(s, existing, input.delivery, env,
                          Result(existing, FoundAll(s, d.org, input.Classes()), true));
    }
    if !Malformed(input) && !ReplayConflicts(s, input) && !IsReplay(s, input)
       && Competing(s.decisionsByIntent, d.IntentKey(), d.OrderKey()).None?
       && Competing(s.decisionsByLine, d.LineKey(), d.OrderKey()).None?
    {
      GrantsAfterWrite(s, input, env);
    }
  }

  /** Main result.  For every store whose line index is exact, every input and every step that may
      throw: a call that throws leaves the whole store as it was, every map, both decision indexes,
      both entitlement indexes, the delivery and every metadata link, with one exception that is
      characterized exactly: the membership grant of `GrantOutlivesRollback`. */
  lemma FailedCallChangesNothing(s: Store, input: Input, env: Env)
    requires IndexExact(s) && DistinctIds(s.metadata) && FreshIds(s, input.Classes(), env)
    requires Call(s, input, env).Threw?
    ensures Call(s, input, env).after
         == s.(grants := s.grants + if GrantOutlivesRollback(s, input, env) then [input.grant.value] else [])
  {
    hide Internal, Restore, Take, Disturbed, IndexExact, DistinctIds, FreshIds, LinksCovered;
    hide GrantOutlivesRollback;
    ThrowDisturbs(s, input, env);
    InternalCovers(s, input, env);
    RestoreUndoes(s, Internal(s, input, env).after, input, env);
    GrantsAfterThrow(s, input, env);
  }

  /** Such calls exist: already on the empty store, an approved membership whose intent cannot be resolved. */
  lemma GrantCanOutliveRollback(s: Store, input: Input, env: Env)
    requires s.decisions == map[] && s.decisionsByIntent == map[] && s.decisionsByLine == map[]
    requires input.decision.status.Approved? && input.decision.intent == Some("intent") && input.projection.None?
    requires input.grant.Some? && input.grant.value.valid
    requires input.classEntitlement.None? && input.classEntitlements.None?
    requires env.hasCheckout && env.resolveFails && !env.grantFails
    ensures GrantOutlivesRollback(s, input, env)
    ensures Call(s, input, env).Threw? && Call(s, input, env).after.grants == s.grants + [input.grant.value]
  {
    assert input.Classes() == [];
    assert Internal(s, input, env).Threw?;
    GrantsAfterThrow(s, input, env);
  }
}
