/** What each call of the cache leaves in the slots, the timestamped map, the loads and the counters, written out;
    and that a value stored by a load is found by every later lookup until it expires. */
module AsyncCacheEffects {
  import opened Wrappers
  import opened AsyncCache
  import opened AsyncCacheSteps
  import opened AsyncCacheRuns

  // ---------------------------------------------------------------------------
  // Storing
  // ---------------------------------------------------------------------------

  /** What storing an accepted value leaves: it is the last slot and the key's entry in the map, the other slots
      are unexpired ones of other keys, and loads, lookups and errors are as before. */
  ghost predicate Stores(s: State, r: State, key: Key, entry: Entry, now: Instant) {
    && r.entries != [] && r.entries[|r.entries| - 1] == Item(key, entry)
    && (forall i :: 0 <= i < |r.entries| - 1 ==>
          r.entries[i] in s.entries && r.entries[i].key != key && r.entries[i].entry.expiresAt > now)
    && r.reference == s.reference[key := entry]
    && r.hits == s.hits && r.misses == s.misses && r.coalesced == s.coalesced && r.errors == s.errors
    && r.loadsStarted == s.loadsStarted && r.sets == s.sets + 1
  }

  lemma SetStores(lim: Limits, s: State, key: Key, value: Value, ttl: int, bytes: int, now: Instant, stamp: Instant)
    requires lim.Valid() && Inv(lim, s) && s.clock <= now <= stamp
    ensures
      var r := Set(lim, s, key, value, ttl, bytes, now, stamp);
      if 0 < ttl && 0 <= bytes <= lim.maxEntryBytes && bytes <= lim.maxTotalBytes then
        && Stores(s, r, key, Entry(value, stamp + ttl, bytes), now)
        && r.pending == s.pending && r.inFlight == s.inFlight && r.clock == stamp
      else r == s
  {
    hide Expire, Remove, EvictFor, ListOk, Complete, EvictCount, Fits, SingleFlight;
    if !Rejects(lim, ttl, bytes) {
      SetKeepsLongestSuffix(lim, s, key, value, ttl, bytes, now, stamp);
      SetKeepsFlights(lim, s, key, value, ttl, bytes, now, stamp);
      RoomShrinks(lim, s, key, bytes, now);
      var others := Remove(Expire(s, now), key, Unspecified).entries;
      var n := EvictCount(lim, others, bytes);
      assert forall x :: x in others[n..] ==> x in others;
      var r := Set(lim, s, key, value, ttl, bytes, now, stamp);
      assert forall i :: 0 <= i < |r.entries| - 1 ==> r.entries[i] in others[n..];
    }
  }

  /** A load that settles with a value the cache accepts stores it under its key; the key's load is over. */
  lemma SettledLoadIsStored(lim: Limits, s: State, load: LoadId, value: Value, ttl: int, bytes: int,
                            now: Instant, stamp: Instant)
    requires lim.Valid() && Inv(lim, s) && load in s.inFlight && s.clock <= now <= stamp
    requires 0 < ttl && 0 <= bytes <= lim.maxEntryBytes && bytes <= lim.maxTotalBytes
    ensures
      var key := s.inFlight[load];
      var r := Step(lim, s, Settled(load, Loaded(value, ttl, bytes), now, stamp));
      && Stores(s, r, key, Entry(value, stamp + ttl, bytes), now)
      && r.pending == s.pending - {key} && r.inFlight == s.inFlight - {load} && r.clock == stamp
  {
    hide Set, Inv;
    SetStores(lim, s, s.inFlight[load], value, ttl, bytes, now, stamp);
  }

  /** A load that fails, or settles with a value the cache refuses, leaves slots and map alone, counts one error,
      and is over as well. */
  lemma FailedLoadStoresNothing(lim: Limits, s: State, load: LoadId, loaded: Loaded, now: Instant, stamp: Instant)
    requires lim.Valid() && Inv(lim, s) && load in s.inFlight && s.clock <= now <= stamp
    requires loaded.Loaded? ==>
               loaded.ttl <= 0 || loaded.bytes < 0
               || loaded.bytes > lim.maxEntryBytes || loaded.bytes > lim.maxTotalBytes
    ensures Step(lim, s, Settled(load, loaded, now, stamp))
         == s.(errors := s.errors + 1, pending := s.pending - {s.inFlight[load]}, inFlight := s.inFlight - {load})
  {
    hide Inv;
  }

  // ---------------------------------------------------------------------------
  // Lookups
  // ---------------------------------------------------------------------------

  /** A lookup of a key with a slot: unexpired, it returns the value and makes the slot the last one; expired, it
      returns nothing and the slot is gone. */
  lemma SlotLookup(lim: Limits, s: State, i: nat, now: Instant)
    requires Inv(lim, s) && i < |s.entries|
    ensures
      var x := s.entries[i];
      var (t, v) := PlainGet(s, x.key, now);
      && t.reference == s.reference && t.pending == s.pending && t.inFlight == s.inFlight
      && t.coalesced == s.coalesced && t.loadsStarted == s.loadsStarted && t.evictions == s.evictions
      && t.errors == s.errors && t.sets == s.sets && t.clock == now
      && if x.entry.expiresAt > now then
           && v == Some(x.entry.value)
           && t.entries == s.entries[..i] + s.entries[i + 1..] + [x]
           && t.hits == s.hits + 1 && t.misses == s.misses && t.expirations == s.expirations
           && t.evicted == s.evicted && t.retainedBytes == s.retainedBytes
         else
           && v == None
           && t.entries == s.entries[..i] + s.entries[i + 1..]
           && t.hits == s.hits && t.misses == s.misses + 1 && t.expirations == s.expirations + 1
           && t.evicted == s.evicted + [x.entry.value]
           && t.retainedBytes == s.retainedBytes - x.entry.bytes
  {
    SlotIsFound(s.entries, i);
  }

  lemma SlotIsFound(items: seq<Item>, i: nat)
    requires DistinctKeys(items) && i < |items|
    ensures IndexOf(items, items[i].key) == Some(i)
  {
    var j := IndexOf(items, items[i].key);
    assert j.Some?;
    assert j.value == i;
  }

  lemma AbsentLookup(s: State, key: Key, now: Instant)
    requires forall i :: 0 <= i < |s.entries| ==> s.entries[i].key != key
    ensures PlainGet(s, key, now)
         == (s.(misses := s.misses + 1, plainMisses := s.plainMisses + 1, clock := now), None)
  {
  }

  /** A lookup of any key leaves an unexpired slot in place, or moves it. */
  lemma LookupKeepsSlot(lim: Limits, s: State, x: Item, key: Key, now: Instant)
    requires Inv(lim, s) && x in s.entries && x.entry.expiresAt > now
    ensures x in PlainGet(s, key, now).0.entries
  {
    if i :| 0 <= i < |s.entries| && s.entries[i].key == key {
      SlotLookup(lim, s, i, now);
      var j :| 0 <= j < |s.entries| && s.entries[j] == x;
      hide *;
      assert s.entries == s.entries[..i] + [s.entries[i]] + s.entries[i + 1..];
    } else {
      AbsentLookup(s, key, now);
    }
  }

  predicate Lookups(es: seq<Event>, before: Instant) {
    forall i :: 0 <= i < |es| ==> es[i].Got? && es[i].now < before
  }

  lemma {:induction false} LookupsKeepSlot(lim: Limits, s: State, x: Item, es: seq<Event>)
    requires lim.Valid() && Inv(lim, s) && x in s.entries && s.clock < x.entry.expiresAt
    requires Possible(lim, s, es) && Lookups(es, x.entry.expiresAt)
    ensures
      var t := Run(lim, s, es);
      Inv(lim, t) && x in t.entries && s.clock <= t.clock < x.entry.expiresAt
    decreases |es|
  {
    hide Inv, Lookups;
    if es != [] {
      FirstLookup(es, x.entry.expiresAt);
      hide PlainGet;
      StepKeepsInv(lim, s, es[0]);
      LookupKeepsSlot(lim, s, x, es[0].key, es[0].now);
      PlainGetClock(s, es[0].key, es[0].now);
      LookupsKeepSlot(lim, Step(lim, s, es[0]), x, es[1..]);
    }
  }

  lemma FirstLookup(es: seq<Event>, before: Instant)
    requires es != [] && Lookups(es, before)
    ensures es[0].Got? && es[0].now < before && Lookups(es[1..], before)
  {
  }

  lemma PlainGetClock(s: State, key: Key, now: Instant)
    ensures PlainGet(s, key, now).0.clock == now
  {
    hide Without;
  }

  lemma HeldIsFound(lim: Limits, s: State, x: Item, now: Instant)
    requires Inv(lim, s) && x in s.entries
    ensures PlainGet(s, x.key, now).1 == if x.entry.expiresAt > now then Some(x.entry.value) else None
  {
    var i :| 0 <= i < |s.entries| && s.entries[i] == x;
    SlotLookup(lim, s, i, now);
  }

  /** Main result: once a load has stored a value, then through any run of lookups, of this key or of others,
      every lookup of its key returns that value for as long as it lives and none returns it after. */
  lemma StoredValueIsServed(lim: Limits, s: State, load: LoadId, value: Value, ttl: int, bytes: int,
                            now: Instant, stamp: Instant, es: seq<Event>, at: Instant)
    requires lim.Valid() && Inv(lim, s) && load in s.inFlight && s.clock <= now <= stamp
    requires 0 < ttl && 0 <= bytes <= lim.maxEntryBytes && bytes <= lim.maxTotalBytes
    requires
      var r := Step(lim, s, Settled(load, Loaded(value, ttl, bytes), now, stamp));
      Possible(lim, r, es) && Lookups(es, stamp + ttl) && Run(lim, r, es).clock <= at
    ensures
      var r := Step(lim, s, Settled(load, Loaded(value, ttl, bytes), now, stamp));
      PlainGet(Run(lim, r, es), s.inFlight[load], at).1 == if at < stamp + ttl then Some(value) else None
  {
    hide Inv, Lookups, Possible, Run, PlainGet, Settle;
    var e := Settled(load, Loaded(value, ttl, bytes), now, stamp);
    var x := Item(s.inFlight[load], Entry(value, stamp + ttl, bytes));
    SettledLoadIsStored(lim, s, load, value, ttl, bytes, now, stamp);
    StepKeepsInv(lim, s, e);
    var r := Step(lim, s, e);
    assert x in r.entries;
    LookupsKeepSlot(lim, r, x, es);
    HeldIsFound(lim, Run(lim, r, es), x, at);
  }

  // ---------------------------------------------------------------------------
  // Requests
  // ---------------------------------------------------------------------------

  /** What a request that finds no value does about the loads: it joins the one in flight for its key, or puts its
      own in flight. */
  ghost predicate JoinsOrStarts(s: State, t: State, r: Lookup, key: Key, load: LoadId) {
    if key in s.pending then
      && r == Coalesced(s.pending[key])
      && t.pending == s.pending && t.inFlight == s.inFlight
      && t.coalesced == s.coalesced + 1 && t.loadsStarted == s.loadsStarted
    else
      && r == LoadStarted(load)
      && t.pending == s.pending[key := load] && t.inFlight == s.inFlight[load := key]
      && t.coalesced == s.coalesced && t.loadsStarted == s.loadsStarted + 1
  }

  /** A request that is not forced is answered with the value of an unexpired slot of its key, without a load;
      otherwise it counts a miss and loads. */
  lemma PlainRequest(lim: Limits, s: State, key: Key, now: Instant, load: LoadId)
    requires Inv(lim, s)
    ensures
      var (t, r) := GetOrLoad(s, key, false, now, load);
      && t.reference == s.reference
      && (forall x :: x in s.entries && x.key == key && x.entry.expiresAt > now ==>
            && r == Hit(x.entry.value) && t.hits == s.hits + 1 && t.misses == s.misses
            && t.pending == s.pending && t.inFlight == s.inFlight && t.loadsStarted == s.loadsStarted
            && t.coalesced == s.coalesced)
      && ((forall x :: x in s.entries && x.key == key ==> x.entry.expiresAt <= now) ==>
            t.misses == s.misses + 1 && t.hits == s.hits && JoinsOrStarts(s, t, r, key, load))
  {
    hide PlainGet;
    if i :| 0 <= i < |s.entries| && s.entries[i].key == key {
      SlotIsFound(s.entries, i);
      hide IndexOf;
      assert s.entries[i] in s.entries;
    }
  }

  /** A forced request never answers from the cache: it removes the key's slot and its entry in the map, counts a
      miss and loads. */
  lemma ForcedRequest(lim: Limits, s: State, key: Key, now: Instant, load: LoadId)
    requires Inv(lim, s)
    ensures
      var (t, r) := GetOrLoad(s, key, true, now, load);
      && t.reference == s.reference - {key}
      && (forall x :: x in t.entries <==> x in s.entries && x.key != key)
      && t.misses == s.misses + 1 && t.hits == s.hits && JoinsOrStarts(s, t, r, key, load)
      && t.expirations == s.expirations && t.evictions == s.evictions && t.errors == s.errors
  {
    hide Remove, ListOk, Complete, SingleFlight;
    RemoveShrinks(s, key, Unspecified);
    RemovalCounts(s, key);
  }

  lemma RemovalCounts(s: State, key: Key)
    ensures
      var t := Remove(s, key, Unspecified);
      t.expirations == s.expirations && t.evictions == s.evictions && t.errors == s.errors
  {
    hide Without, IndexOf;
  }

  // ---------------------------------------------------------------------------
  // Removal by key and by age
  // ---------------------------------------------------------------------------

  ghost predicate Before(items: seq<Item>, x: Item, y: Item) {
    exists a, b :: 0 <= a < b < |items| && items[a] == x && items[b] == y
  }

  /** Slots later in `r` are later in `s`. */
  ghost predicate KeepsOrder(s: seq<Item>, r: seq<Item>) {
    forall i, j :: 0 <= i < j < |r| ==> Before(s, r[i], r[j])
  }

  lemma BeforeLater(x: Item, rest: seq<Item>, y: Item, z: Item)
    ensures Before(rest, y, z) ==> Before([x] + rest, y, z)
    ensures z in rest ==> Before([x] + rest, x, z)
  {
    var items := [x] + rest;
    if Before(rest, y, z) {
      var a, b :| 0 <= a < b < |rest| && rest[a] == y && rest[b] == z;
      assert items[a + 1] == y && items[b + 1] == z;
    }
    if z in rest {
      var b :| 0 <= b < |rest| && rest[b] == z;
      assert items[0] == x && items[b + 1] == z;
    }
  }

  lemma OrderAfter(x: Item, rest: seq<Item>, kept: seq<Item>)
    requires KeepsOrder(rest, kept) && forall y :: y in kept ==> y in rest
    ensures KeepsOrder([x] + rest, kept) && KeepsOrder([x] + rest, [x] + kept)
  {
    hide Before;
    forall i, j | 0 <= i < j < |kept| ensures Before([x] + rest, kept[i], kept[j]) {
      BeforeLater(x, rest, kept[i], kept[j]);
    }
    var r := [x] + kept;
    forall i, j | 0 <= i < j < |r| ensures Before([x] + rest, r[i], r[j]) {
      assert r[j] == kept[j - 1];
      BeforeLater(x, rest, r[i], r[j]);
      if i > 0 {
        assert Before(rest, kept[i - 1], kept[j - 1]);
      }
    }
  }

  lemma {:induction false} KeptKeepsOrder(items: seq<Item>, p: Item -> bool)
    ensures KeepsOrder(items, Kept(items, p))
    decreases |items|
  {
    if items != [] {
      KeptKeepsOrder(items[1..], p);
      KeptMembers(items[1..], p);
      OrderAfter(items[0], items[1..], Kept(items[1..], p));
      hide KeepsOrder;
      assert items == [items[0]] + items[1..];
      assert [] + Kept(items[1..], p) == Kept(items[1..], p);
    }
  }

  /** Deleting by key takes out exactly the matching slots and map entries, hands their values to onEvict, and
      keeps the order of the rest; it counts neither as eviction nor as expiration and touches no load. */
  lemma DeletesExactly(lim: Limits, s: State, p: Key -> bool)
    requires lim.Valid() && Inv(lim, s)
    ensures
      var r := Step(lim, s, DeletedWhere(p));
      && (forall x :: x in r.entries <==> x in s.entries && !p(x.key))
      && KeepsOrder(s.entries, r.entries)
      && (forall k :: k in r.reference <==> k in s.reference && !p(k))
      && (forall k :: k in r.reference ==> r.reference[k] == s.reference[k])
      && s.evicted <= r.evicted && |r.evicted| - |s.evicted| == |s.entries| - |r.entries|
      && r.retainedBytes == Bytes(r.entries)
      && r == s.(entries := r.entries, reference := r.reference, evicted := r.evicted,
                 retainedBytes := r.retainedBytes)
  {
    var keep := (item: Item) => !p(item.key);
    hide Inv, KeepsOrder;
    DeleteWhereKeepsInv(lim, s, p);
    KeptMembers(s.entries, keep);
    KeptSplits(s.entries, keep);
    KeptKeepsOrder(s.entries, keep);
    InvSays(lim, s);
    InvSays(lim, DeleteWhere(s, p));
  }

  /** Measuring takes out exactly the expired slots, counts each as an expiration, and keeps the order of the
      rest; the map still names what expired. */
  lemma ExpiresExactly(lim: Limits, s: State, now: Instant)
    requires lim.Valid() && Inv(lim, s) && s.clock <= now
    ensures
      var r := Step(lim, s, Measured(now));
      && (forall x :: x in r.entries <==> x in s.entries && x.entry.expiresAt > now)
      && KeepsOrder(s.entries, r.entries)
      && s.evicted <= r.evicted && |r.evicted| - |s.evicted| == |s.entries| - |r.entries|
      && r.expirations == s.expirations + |s.entries| - |r.entries|
      && r.retainedBytes == Bytes(r.entries)
      && r == s.(entries := r.entries, evicted := r.evicted, expirations := r.expirations,
                 retainedBytes := r.retainedBytes, clock := now)
  {
    hide Inv, KeepsOrder;
    MeasureKeepsInv(lim, s, now);
    KeptMembers(s.entries, Live(now));
    KeptSplits(s.entries, Live(now));
    KeptKeepsOrder(s.entries, Live(now));
    InvSays(lim, s);
    InvSays(lim, Expire(s, now));
  }
}
