/** The cache over whole runs: recency, bounds, refinement and counting in every reachable state. */
module AsyncCacheRuns {
  import opened Wrappers
  import opened AsyncCache
  import opened AsyncCacheSteps

  function Run(lim: Limits, s: State, es: seq<Event>): State
    requires Possible(lim, s, es)
    decreases |es|
  {
    if es == [] then s else Run(lim, Step(lim, s, es[0]), es[1..])
  }

  predicate Possible(lim: Limits, s: State, es: seq<Event>)
    decreases |es|
  {
    es == [] || (Enabled(s, es[0]) && Possible(lim, Step(lim, s, es[0]), es[1..]))
  }

  // ---------------------------------------------------------------------------
  // Recency
  // ---------------------------------------------------------------------------

  /** Slots are listed in the order in which their keys were last used. */
  ghost predicate Recent(items: seq<Item>, lastUse: map<Key, nat>, uses: nat) {
    && (forall i :: 0 <= i < |items| ==> items[i].key in lastUse && lastUse[items[i].key] < uses)
    && (forall i, j :: 0 <= i < j < |items| ==> lastUse[items[i].key] < lastUse[items[j].key])
  }

  lemma {:induction false} KeptRecent(items: seq<Item>, p: Item -> bool, lastUse: map<Key, nat>, uses: nat)
    requires Recent(items, lastUse, uses)
    ensures Recent(Kept(items, p), lastUse, uses)
    decreases |items|
  {
    if items != [] {
      KeptRecent(items[1..], p, lastUse, uses);
      KeptMembers(items[1..], p);
      var rest := Kept(items[1..], p);
      forall i | 0 <= i < |rest| ensures lastUse[items[0].key] < lastUse[rest[i].key] {
        assert rest[i] in items[1..];
      }
      hide Kept;
      ConsRecent(items[0], rest, lastUse, uses);
    }
  }

  lemma ConsRecent(x: Item, rest: seq<Item>, lastUse: map<Key, nat>, uses: nat)
    requires Recent(rest, lastUse, uses) && x.key in lastUse && lastUse[x.key] < uses
    requires forall i :: 0 <= i < |rest| ==> lastUse[x.key] < lastUse[rest[i].key]
    ensures Recent([x] + rest, lastUse, uses)
  {
  }

  lemma WithoutRecent(items: seq<Item>, i: nat, lastUse: map<Key, nat>, uses: nat)
    requires i < |items| && Recent(items, lastUse, uses)
    ensures Recent(Without(items, i), lastUse, uses)
  {
  }

  lemma UseRecent(items: seq<Item>, x: Item, lastUse: map<Key, nat>, uses: nat)
    requires Recent(items, lastUse, uses) && !Holds(items, x.key)
    ensures Recent(items + [x], lastUse[x.key := uses], uses + 1)
  {
    assert forall i :: 0 <= i < |items| ==> items[i] in items && items[i].key != x.key;
  }

  lemma RemoveRecent(s: State, key: Key, reason: Reason)
    requires Recent(s.entries, s.lastUse, s.uses)
    ensures Recent(Remove(s, key, reason).entries, s.lastUse, s.uses)
  {
    var i := IndexOf(s.entries, key);
    if i.Some? {
      WithoutRecent(s.entries, i.value, s.lastUse, s.uses);
    }
  }

  lemma SetRecent(lim: Limits, s: State, key: Key, value: Value, ttl: int, bytes: int, now: Instant, stamp: Instant)
    requires lim.Valid() && Inv(lim, s) && Recent(s.entries, s.lastUse, s.uses)
    ensures
      var t := Set(lim, s, key, value, ttl, bytes, now, stamp);
      Recent(t.entries, t.lastUse, t.uses)
  {
    if !Rejects(lim, ttl, bytes) {
      RoomRecent(lim, s, key, bytes, now);
      hide Recent, Expire, Remove, EvictFor, ListOk, Complete;
      RoomShrinks(lim, s, key, bytes, now);
      UseRecent(Room(lim, s, key, bytes, now).entries, Item(key, Entry(value, stamp + ttl, bytes)), s.lastUse, s.uses);
      RoomKeepsUses(lim, s, key, bytes, now);
    }
  }

  lemma RoomKeepsUses(lim: Limits, s: State, key: Key, bytes: int, now: Instant)
    requires lim.Valid() && Inv(lim, s)
    ensures Room(lim, s, key, bytes, now).lastUse == s.lastUse && Room(lim, s, key, bytes, now).uses == s.uses
  {
    hide Expire, Remove, EvictFor, ListOk, Complete, SingleFlight, EvictCount;
    ExpireKeepsUses(s, now);
    var e := Expire(s, now);
    RemoveKeepsUses(e, key);
    ExpireShrinks(s, now);
    ShrunkOk(s, e);
    RemoveShrinks(e, key, Unspecified);
    EvictForms(lim, Remove(e, key, Unspecified), bytes);
  }

  lemma ExpireKeepsUses(s: State, now: Instant)
    ensures Expire(s, now).lastUse == s.lastUse && Expire(s, now).uses == s.uses
  {
  }

  lemma RoomRecent(lim: Limits, s: State, key: Key, bytes: int, now: Instant)
    requires lim.Valid() && Inv(lim, s) && Recent(s.entries, s.lastUse, s.uses)
    ensures Recent(Room(lim, s, key, bytes, now).entries, s.lastUse, s.uses)
  {
    hide Recent, Remove, EvictFor, EvictCount, ListOk, Complete, SingleFlight;
    KeptRecent(s.entries, Live(now), s.lastUse, s.uses);
    ExpireKeepsUses(s, now);
    var e := Expire(s, now);
    hide Expire;
    RemoveRecent(e, key, Unspecified);
    ExpireShrinks(s, now);
    ShrunkOk(s, e);
    RemoveShrinks(e, key, Unspecified);
    var r := Remove(e, key, Unspecified);
    EvictForms(lim, r, bytes);
    SuffixRecent(r.entries, EvictCount(lim, r.entries, bytes), s.lastUse, s.uses);
  }

  lemma SuffixRecent(items: seq<Item>, n: nat, lastUse: map<Key, nat>, uses: nat)
    requires n <= |items| && Recent(items, lastUse, uses)
    ensures Recent(items[n..], lastUse, uses)
  {
  }

  lemma GetRecent(lim: Limits, s: State, key: Key, now: Instant)
    requires Inv(lim, s) && Recent(s.entries, s.lastUse, s.uses)
    ensures
      var t := Get(s, key, now).0;
      Recent(t.entries, t.lastUse, t.uses)
  {
    var i := IndexOf(s.entries, key);
    if i.Some? {
      WithoutRecent(s.entries, i.value, s.lastUse, s.uses);
      WithoutMembers(s.entries, i.value);
      hide Recent;
      assert !Holds(Without(s.entries, i.value), key);
      UseRecent(Without(s.entries, i.value), s.entries[i.value], s.lastUse, s.uses);
    }
  }

  lemma StepKeepsRecent(lim: Limits, s: State, e: Event)
    requires lim.Valid() && Inv(lim, s) && Enabled(s, e) && Recent(s.entries, s.lastUse, s.uses)
    ensures
      var t := Step(lim, s, e);
      Recent(t.entries, t.lastUse, t.uses)
  {
    hide Recent, Inv, Get, Set, Kept, Remove;
    match e
    case Got(key, now) => GetRecent(lim, s, key, now);
    case SetTo(key, value, ttl, bytes, now, stamp) => SetRecent(lim, s, key, value, ttl, bytes, now, stamp);
    case DeletedWhere(p) => KeptRecent(s.entries, (item: Item) => !p(item.key), s.lastUse, s.uses);
    case Requested(key, force, now, load) =>
      RemoveRecent(s, key, Unspecified);
      RemoveKeepsUses(s, key);
      GetRecent(lim, s, key, now);
    case Settled(load, loaded, now, stamp) =>
      if loaded.Loaded? {
        SetRecent(lim, s, s.inFlight[load], loaded.value, loaded.ttl, loaded.bytes, now, stamp);
      }
    case Measured(now) => KeptRecent(s.entries, Live(now), s.lastUse, s.uses);
  }

  lemma RemoveKeepsUses(s: State, key: Key)
    ensures Remove(s, key, Unspecified).lastUse == s.lastUse && Remove(s, key, Unspecified).uses == s.uses
  {
  }

  // ---------------------------------------------------------------------------
  // Main results
  // ---------------------------------------------------------------------------

  lemma {:induction false} RunKeepsInv(lim: Limits, s: State, es: seq<Event>)
    requires lim.Valid() && Inv(lim, s) && Recent(s.entries, s.lastUse, s.uses) && Possible(lim, s, es)
    ensures
      var t := Run(lim, s, es);
      Inv(lim, t) && Recent(t.entries, t.lastUse, t.uses)
    decreases |es|
  {
    hide Inv, Step, Enabled, Recent;
    if es != [] {
      StepKeepsInv(lim, s, es[0]);
      StepKeepsRecent(lim, s, es[0]);
      RunKeepsInv(lim, Step(lim, s, es[0]), es[1..]);
    }
  }

  lemma EmptyInv(lim: Limits)
    requires lim.Valid()
    ensures Inv(lim, Empty) && Recent(Empty.entries, Empty.lastUse, Empty.uses)
  {
    hide Inv, Recent;
    FreshInv(lim, Empty);
  }

  lemma FreshInv(lim: Limits, s: State)
    requires lim.Valid() && |s.entries| == 0 && |s.evicted| == 0 && s.retainedBytes == 0 && s.sets == 0
    requires s.pending == map[] && s.inFlight == map[] && s.reference == map[]
    requires s.misses == s.plainMisses == s.coalesced == s.loadsStarted == 0
    ensures Inv(lim, s) && Recent(s.entries, s.lastUse, s.uses)
  {
  }

  /** In every reachable state: both bounds hold and the retained bytes are exact; slots are in order of
      last use; every set is still held or was handed to onEvict; misses are lookups, joins or loads; and
      two loads in flight are never for the same key. */
  lemma ReachableCache(lim: Limits, es: seq<Event>)
    requires lim.Valid() && Possible(lim, Empty, es)
    ensures
      var s := Run(lim, Empty, es);
      && Inv(lim, s)
      && |s.entries| <= lim.maxEntries
      && s.retainedBytes == Bytes(s.entries) <= lim.maxTotalBytes
      && Recent(s.entries, s.lastUse, s.uses)
      && s.sets == |s.entries| + |s.evicted|
      && s.misses == s.plainMisses + s.coalesced + s.loadsStarted
      && (forall l, m :: l in s.inFlight && m in s.inFlight && s.inFlight[l] == s.inFlight[m] ==> l == m)
  {
    hide Run, Possible, Inv, Recent;
    EmptyInv(lim);
    RunKeepsInv(lim, Empty, es);
    InvSays(lim, Run(lim, Empty, es));
  }

  lemma InvSays(lim: Limits, s: State)
    requires Inv(lim, s)
    ensures |s.entries| <= lim.maxEntries && s.retainedBytes == Bytes(s.entries) <= lim.maxTotalBytes
    ensures s.sets == |s.entries| + |s.evicted| && s.misses == s.plainMisses + s.coalesced + s.loadsStarted
    ensures forall l, m :: l in s.inFlight && m in s.inFlight && s.inFlight[l] == s.inFlight[m] ==> l == m
  {
  }

  /** Refinement: in every reachable state, at any later instant, a lookup returns only what the
      unbounded timestamped map would return; and it returns all of it as long as nothing has been evicted
      for room. */
  lemma CacheRefinesTimestampedMap(lim: Limits, es: seq<Event>, key: Key, now: Instant)
    requires lim.Valid() && Possible(lim, Empty, es) && Run(lim, Empty, es).clock <= now
    ensures
      var s := Run(lim, Empty, es);
      var v := Get(s, key, now).1;
      var live := key in s.reference && s.reference[key].expiresAt > now;
      && (v.Some? ==> live && s.reference[key].value == v.value)
      && (s.evictions == 0 ==> (v.Some? <==> live))
  {
    hide Run, Possible, Inv, Get;
    EmptyInv(lim);
    RunKeepsInv(lim, Empty, es);
    GetAgreesWithReference(lim, Run(lim, Empty, es), key, now);
  }

  /** An accepted set stores the new value behind the longest most-recently-used suffix of the unexpired
      other slots that leaves room for it, and counts one eviction for each slot before that suffix. */
  lemma SetKeepsLongestSuffix(lim: Limits, s: State, key: Key, value: Value, ttl: int, bytes: int,
                              now: Instant, stamp: Instant)
    requires lim.Valid() && Inv(lim, s) && !Rejects(lim, ttl, bytes)
    ensures
      var others := Remove(Expire(s, now), key, Unspecified).entries;
      var n := EvictCount(lim, others, bytes);
      && (forall x :: x in others <==> x in s.entries && x.entry.expiresAt > now && x.key != key)
      && Set(lim, s, key, value, ttl, bytes, now, stamp).entries
         == others[n..] + [Item(key, Entry(value, stamp + ttl, bytes))]
      && Fits(lim, others[n..], bytes)
      && (forall i :: 0 <= i < n ==> !Fits(lim, others[i..], bytes))
      && Set(lim, s, key, value, ttl, bytes, now, stamp).evictions == s.evictions + n
  {
    hide Expire, Remove, EvictFor, EvictCount, Fits, ListOk;
    ExpireShrinks(s, now);
    ShrunkOk(s, Expire(s, now));
    RemoveShrinks(Expire(s, now), key, Unspecified);
    var r := Remove(Expire(s, now), key, Unspecified);
    EvictForms(lim, r, bytes);
    EvictKeepsLongestSuffix(lim, r.entries, bytes);
  }

  /** Every getOrLoad is exactly one of: a hit, a join of the load in flight for its key, or the start of
      a load for a key that has none; and only the last two count a miss. */
  lemma EveryRequestIsOneOfThree(s: State, key: Key, force: bool, now: Instant, load: LoadId)
    ensures
      var (t, r) := GetOrLoad(s, key, force, now, load);
      && t.hits == s.hits + (if r.Hit? then 1 else 0)
      && t.coalesced == s.coalesced + (if r.Coalesced? then 1 else 0)
      && t.loadsStarted == s.loadsStarted + (if r.LoadStarted? then 1 else 0)
      && t.misses == s.misses + (if r.Hit? then 0 else 1)
      && (r.Hit? ==> !force)
      && (r.Coalesced? ==> key in s.pending && r.load == s.pending[key])
      && (r.LoadStarted? ==> key !in s.pending && t.inFlight == s.inFlight[load := key])
  {
    hide Without, IndexOf, JoinOrStart, Get, Forget;
    GetCounts(s, key, now);
    ForgetCounts(s, key);
    if force {
      JoinCounts(Forget(s, key).(misses := Forget(s, key).misses + 1), key, load);
    } else {
      JoinCounts(Get(s, key, now).0, key, load);
    }
  }

  /** Neither lookups nor removals touch the loads or their counters. */
  ghost predicate SameLoads(s: State, t: State) {
    && t.pending == s.pending && t.inFlight == s.inFlight
    && t.coalesced == s.coalesced && t.loadsStarted == s.loadsStarted
  }

  lemma GetCounts(s: State, key: Key, now: Instant)
    ensures
      var (t, v) := Get(s, key, now);
      && SameLoads(s, t)
      && t.hits == s.hits + (if v.Some? then 1 else 0)
      && t.misses == s.misses + (if v.Some? then 0 else 1)
  {
    hide Without, IndexOf;
  }

  lemma ForgetCounts(s: State, key: Key)
    ensures SameLoads(s, Forget(s, key)) && Forget(s, key).hits == s.hits && Forget(s, key).misses == s.misses
  {
    hide Without, IndexOf;
  }

  lemma JoinCounts(s: State, key: Key, load: LoadId)
    ensures
      var (t, r) := JoinOrStart(s, key, load);
      && t.hits == s.hits && t.misses == s.misses && !r.Hit?
      && t.coalesced == s.coalesced + (if r.Coalesced? then 1 else 0)
      && t.loadsStarted == s.loadsStarted + (if r.LoadStarted? then 1 else 0)
      && (r.Coalesced? ==> key in s.pending && r.load == s.pending[key])
      && (r.LoadStarted? ==> key !in s.pending && t.inFlight == s.inFlight[load := key])
  {
  }
}
