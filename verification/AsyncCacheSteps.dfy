/** Each call of the cache keeps its invariant, and what a call does in terms of the timestamped map. */
module AsyncCacheSteps {
  import opened Wrappers
  import opened AsyncCache

  // ---------------------------------------------------------------------------
  // Each call
  // ---------------------------------------------------------------------------

  /** What removing, expiring and evicting have in common. */
  ghost predicate Shrunk(s: State, t: State) {
    && |t.entries| + |t.evicted| == |s.entries| + |s.evicted|
    && |t.entries| <= |s.entries|
    && t.retainedBytes == Bytes(t.entries) <= Bytes(s.entries)
    && (forall x :: x in t.entries ==> x in s.entries)
    && DistinctKeys(t.entries)
    && t.pending == s.pending && t.inFlight == s.inFlight && t.reference == s.reference
    && t.hits == s.hits && t.misses == s.misses && t.plainMisses == s.plainMisses
    && t.coalesced == s.coalesced && t.loadsStarted == s.loadsStarted && t.sets == s.sets
    && t.errors == s.errors
  }

  lemma RemoveShrinks(s: State, key: Key, reason: Reason)
    requires ListOk(s.entries, s.reference) && s.retainedBytes == Bytes(s.entries)
    ensures
      var t := Remove(s, key, reason);
      && Shrunk(s, t)
      && t.clock == s.clock
      && t.evictions == s.evictions + (if reason.Eviction? && Holds(s.entries, key) then 1 else 0)
      && (forall x :: x in t.entries <==> x in s.entries && x.key != key)
  {
    var i := IndexOf(s.entries, key);
    if i.Some? {
      assert s.entries[i.value] in s.entries;
      BytesWithout(s.entries, i.value);
      WithoutMembers(s.entries, i.value);
    }
  }

  lemma ExpireShrinks(s: State, now: Instant)
    requires ListOk(s.entries, s.reference) && s.retainedBytes == Bytes(s.entries)
    ensures
      var t := Expire(s, now);
      && Shrunk(s, t)
      && t.clock == now && t.evictions == s.evictions
      && (forall x :: x in t.entries <==> x in s.entries && x.entry.expiresAt > now)
  {
    KeptOk(s.entries, Live(now), s.reference);
    KeptSplits(s.entries, Live(now));
    KeptMembers(s.entries, Live(now));
  }

  /** How many slots have to go before one of the given size fits. */
  function EvictCount(lim: Limits, items: seq<Item>, bytes: int): (n: nat)
    ensures n <= |items|
  {
    if items == [] || Fits(lim, items, bytes) then 0 else 1 + EvictCount(lim, items[1..], bytes)
  }

  /** Eviction keeps the longest most-recently-used suffix that leaves room. */
  lemma {:induction false} EvictKeepsLongestSuffix(lim: Limits, items: seq<Item>, bytes: int)
    requires lim.Valid() && 0 <= bytes <= lim.maxTotalBytes
    ensures
      var n := EvictCount(lim, items, bytes);
      Fits(lim, items[n..], bytes) && forall i :: 0 <= i < n ==> !Fits(lim, items[i..], bytes)
    decreases |items|
  {
    var n := EvictCount(lim, items, bytes);
    assert items[0..] == items;
    if n > 0 {
      EvictKeepsLongestSuffix(lim, items[1..], bytes);
      assert items[1..][n - 1..] == items[n..];
      forall i | 0 < i < n ensures !Fits(lim, items[i..], bytes) {
        assert items[1..][i - 1..] == items[i..];
      }
    }
  }

  /** The first n slots evicted: their values handed to onEvict, oldest first. */
  function EvictFirst(s: State, n: nat): State
    requires n <= |s.entries|
  {
    s.(entries := s.entries[n..], retainedBytes := s.retainedBytes - Bytes(s.entries[..n]),
       evicted := s.evicted + Values(s.entries[..n]), evictions := s.evictions + n)
  }

  lemma EvictFirstAgain(s: State, n: nat)
    requires 0 < n <= |s.entries|
    ensures RemoveAt(s, 0, Eviction).entries == s.entries[1..]
    ensures EvictFirst(RemoveAt(s, 0, Eviction), n - 1) == EvictFirst(s, n)
  {
    var u := RemoveAt(s, 0, Eviction);
    assert u.entries == s.entries[1..];
    assert s.entries[1..][n - 1..] == s.entries[n..];
    assert s.entries[..n][1..] == s.entries[1..][..n - 1];
    assert s.evicted + ([s.entries[0].entry.value] + Values(s.entries[1..][..n - 1]))
        == s.evicted + [s.entries[0].entry.value] + Values(s.entries[1..][..n - 1]);
  }

  lemma EvictNone(s: State)
    ensures EvictFirst(s, 0) == s
  {
    assert s.entries[0..] == s.entries && s.entries[..0] == [];
  }

  lemma {:induction false} EvictForms(lim: Limits, s: State, bytes: int)
    requires s.retainedBytes == Bytes(s.entries)
    ensures EvictFor(lim, s, bytes) == EvictFirst(s, EvictCount(lim, s.entries, bytes))
    decreases |s.entries|
  {
    hide EvictFirst, RemoveAt;
    var n := EvictCount(lim, s.entries, bytes);
    EvictNone(s);
    if n > 0 {
      EvictFirstAgain(s, n);
      RemovedBytes(s);
      EvictForms(lim, RemoveAt(s, 0, Eviction), bytes);
    }
  }

  lemma RemovedBytes(s: State)
    requires s.entries != [] && s.retainedBytes == Bytes(s.entries)
    ensures RemoveAt(s, 0, Eviction).retainedBytes == Bytes(s.entries[1..])
  {
  }

  lemma EvictShrinks(lim: Limits, s: State, bytes: int)
    requires lim.Valid() && 0 <= bytes <= lim.maxTotalBytes
    requires ListOk(s.entries, s.reference) && s.retainedBytes == Bytes(s.entries)
    ensures Shrunk(s, EvictFor(lim, s, bytes)) && Fits(lim, EvictFor(lim, s, bytes).entries, bytes)
    ensures EvictFor(lim, s, bytes).clock == s.clock
    ensures EvictFor(lim, s, bytes).evictions >= s.evictions
    ensures EvictFor(lim, s, bytes).evictions == s.evictions ==> EvictFor(lim, s, bytes).entries == s.entries
  {
    hide EvictFor, Fits, EvictCount;
    var j := EvictCount(lim, s.entries, bytes);
    EvictForms(lim, s, bytes);
    EvictKeepsLongestSuffix(lim, s.entries, bytes);
    assert s.entries == s.entries[..j] + s.entries[j..];
    BytesAppend(s.entries[..j], s.entries[j..]);
    forall x | x in s.entries[..j] ensures x.entry.bytes >= 0 {
      assert x in s.entries && Good(x, s.reference);
    }
    BytesNonNegative(s.entries[..j]);
  }

  lemma ShrunkTrans(s: State, t: State, u: State)
    requires Shrunk(s, t) && Shrunk(t, u)
    ensures Shrunk(s, u)
  {
  }

  lemma ShrunkOk(s: State, t: State)
    requires ListOk(s.entries, s.reference) && Shrunk(s, t)
    ensures ListOk(t.entries, t.reference) && t.retainedBytes == Bytes(t.entries)
  {
  }

  lemma RoomShrinks(lim: Limits, s: State, key: Key, bytes: int, now: Instant)
    requires lim.Valid() && 0 <= bytes <= lim.maxTotalBytes
    requires ListOk(s.entries, s.reference) && s.retainedBytes == Bytes(s.entries)
    ensures
      var t := Room(lim, s, key, bytes, now);
      && Shrunk(s, t) && Fits(lim, t.entries, bytes) && !Holds(t.entries, key)
      && t.evictions >= s.evictions
      && (t.evictions == s.evictions ==>
            forall x :: x in t.entries <==> x in s.entries && x.entry.expiresAt > now && x.key != key)
  {
    hide Expire, Remove, EvictFor, Shrunk, ListOk;
    ExpireShrinks(s, now);
    var t := Expire(s, now);
    ShrunkOk(s, t);
    RemoveShrinks(t, key, Unspecified);
    var u := Remove(t, key, Unspecified);
    ShrunkOk(t, u);
    EvictShrinks(lim, u, bytes);
    var v := EvictFor(lim, u, bytes);
    ShrunkTrans(s, t, u);
    ShrunkTrans(s, u, v);
    ShrunkSubset(u, v);
  }

  lemma ShrunkSubset(s: State, t: State)
    requires Shrunk(s, t)
    ensures forall x :: x in t.entries ==> x in s.entries
  {
  }

  lemma RoomForNew(s: State, t: State, key: Key, entry: Entry)
    requires ListOk(s.entries, s.reference) && Shrunk(s, t) && !Holds(t.entries, key) && entry.bytes >= 0
    ensures ListOk(t.entries + [Item(key, entry)], s.reference[key := entry])
    ensures Bytes(t.entries + [Item(key, entry)]) == Bytes(t.entries) + entry.bytes
  {
    var reference := s.reference[key := entry];
    forall x | x in t.entries ensures Good(x, reference) {
      assert x.key != key;
    }
    AppendOk(t.entries, Item(key, entry), reference);
    BytesAppend(t.entries, [Item(key, entry)]);
  }

  lemma StillComplete(s: State, t: State, key: Key, entry: Entry, now: Instant, stamp: Instant)
    requires ListOk(s.entries, s.reference) && Complete(s.entries, s.reference, s.clock) && s.clock <= now <= stamp
    requires forall x :: x in t.entries <==> x in s.entries && x.entry.expiresAt > now && x.key != key
    ensures Complete(t.entries + [Item(key, entry)], s.reference[key := entry], stamp)
  {
    var items, reference := t.entries + [Item(key, entry)], s.reference[key := entry];
    forall k | k in reference && reference[k].expiresAt > stamp ensures Holds(items, k) {
      if k == key {
        assert items[|t.entries|] in items;
      } else {
        assert Holds(s.entries, k);
        var x :| x in s.entries && x.key == k;
        assert Good(x, s.reference);
        assert x in t.entries;
        assert x in items;
      }
    }
  }

  lemma SetKeepsInv(lim: Limits, s: State, key: Key, value: Value, ttl: int, bytes: int, now: Instant, stamp: Instant)
    requires lim.Valid() && Inv(lim, s) && s.clock <= now <= stamp
    ensures Inv(lim, Set(lim, s, key, value, ttl, bytes, now, stamp))
  {
    hide Expire, Remove, EvictFor, ListOk, Complete, Live;
    if !Rejects(lim, ttl, bytes) {
      var t := Room(lim, s, key, bytes, now);
      RoomShrinks(lim, s, key, bytes, now);
      var entry := Entry(value, stamp + ttl, bytes);
      RoomForNew(s, t, key, entry);
      if t.evictions == 0 {
        StillComplete(s, t, key, entry, now, stamp);
      }
    }
  }

  /** What a lookup returns is the latest unremoved set of the key, and has not expired; and unless
      entries were evicted for room, every unexpired set is found. */
  lemma GetAgreesWithReference(lim: Limits, s: State, key: Key, now: Instant)
    requires Inv(lim, s) && s.clock <= now
    ensures
      var v := Get(s, key, now).1;
      && (v.Some? ==> key in s.reference && s.reference[key].value == v.value && s.reference[key].expiresAt > now)
      && (s.evictions == 0 && key in s.reference && s.reference[key].expiresAt > now ==>
            v == Some(s.reference[key].value))
  {
    var i := IndexOf(s.entries, key);
    if i.Some? {
      assert s.entries[i.value] in s.entries;
      assert Good(s.entries[i.value], s.reference);
    } else {
      hide Good;
      assert !Holds(s.entries, key);
    }
  }

  lemma CompleteLater(s: State, items: seq<Item>, now: Instant)
    requires Complete(s.entries, s.reference, s.clock) && s.clock <= now && ListOk(s.entries, s.reference)
    requires forall x :: x in s.entries && x.entry.expiresAt > now ==> x in items
    ensures Complete(items, s.reference, now)
  {
    forall k | k in s.reference && s.reference[k].expiresAt > now ensures Holds(items, k) {
      var x :| x in s.entries && x.key == k;
      assert Good(x, s.reference);
    }
  }

  /** A lookup keeps everything but the misses counter in step, which its callers account for. */
  ghost predicate InvButMisses(lim: Limits, s: State) {
    && ListOk(s.entries, s.reference)
    && Bounded(lim, s)
    && SingleFlight(s)
    && s.sets == |s.entries| + |s.evicted|
    && (s.evictions == 0 ==> Complete(s.entries, s.reference, s.clock))
  }

  lemma RefreshOk(s: State, i: nat)
    requires i < |s.entries| && ListOk(s.entries, s.reference)
    ensures
      var r := Without(s.entries, i) + [s.entries[i]];
      && ListOk(r, s.reference) && Bytes(r) == Bytes(s.entries) && |r| == |s.entries|
      && (forall x :: x in s.entries ==> x in r)
  {
    WithoutMembers(s.entries, i);
    BytesWithout(s.entries, i);
    BytesAppend(Without(s.entries, i), [s.entries[i]]);
    assert s.entries[i] in s.entries;
    AppendOk(Without(s.entries, i), s.entries[i], s.reference);
    var r := Without(s.entries, i) + [s.entries[i]];
    forall x | x in s.entries ensures x in r {
      if x.key == s.entries[i].key {
        assert r[|r| - 1] == s.entries[i];
        SameKeySameItem(s.entries, x, s.entries[i]);
      } else {
        assert x in Without(s.entries, i);
      }
    }
  }

  lemma SameKeySameItem(items: seq<Item>, x: Item, y: Item)
    requires DistinctKeys(items) && x in items && y in items && x.key == y.key
    ensures x == y
  {
  }

  lemma GetKeepsInv(lim: Limits, s: State, key: Key, now: Instant)
    requires Inv(lim, s) && s.clock <= now
    ensures
      var (t, v) := Get(s, key, now);
      && InvButMisses(lim, t)
      && t.misses == s.misses + (if v.None? then 1 else 0)
      && t.plainMisses == s.plainMisses && t.coalesced == s.coalesced && t.loadsStarted == s.loadsStarted
      && t.pending == s.pending && t.inFlight == s.inFlight
      && t.hits == s.hits + (if v.Some? then 1 else 0)
  {
    var i := IndexOf(s.entries, key);
    if i.None? {
      if s.evictions == 0 { CompleteLater(s, s.entries, now); }
    } else if s.entries[i.value].entry.expiresAt <= now {
      ExpiredLookup(lim, s, i.value, now);
    } else {
      RefreshOk(s, i.value);
      if s.evictions == 0 { CompleteLater(s, Without(s.entries, i.value) + [s.entries[i.value]], now); }
    }
  }

  lemma PlainGetKeepsInv(lim: Limits, s: State, key: Key, now: Instant)
    requires Inv(lim, s) && s.clock <= now
    ensures Inv(lim, PlainGet(s, key, now).0)
  {
    hide Get, ListOk, Complete;
    GetKeepsInv(lim, s, key, now);
  }

  lemma ExpiredLookup(lim: Limits, s: State, i: nat, now: Instant)
    requires Inv(lim, s) && s.clock <= now && i < |s.entries| && s.entries[i].entry.expiresAt <= now
    ensures InvButMisses(lim, RemoveAt(s.(clock := now), i, Expiration))
  {
    var r := Without(s.entries, i);
    WithoutMembers(s.entries, i);
    BytesWithout(s.entries, i);
    assert s.entries[i] in s.entries;
    assert Good(s.entries[i], s.reference);
    if s.evictions == 0 {
      forall x | x in s.entries && x.entry.expiresAt > now ensures x in r {
        assert Good(x, s.reference);
      }
      CompleteLater(s, r, now);
    }
  }

  lemma ForgetKeepsInv(lim: Limits, s: State, key: Key)
    requires Inv(lim, s)
    ensures Inv(lim, Forget(s, key))
    ensures Forget(s, key).pending == s.pending && Forget(s, key).inFlight == s.inFlight
    ensures Forget(s, key).clock == s.clock
  {
    hide Remove, Complete;
    RemoveShrinks(s, key, Unspecified);
    var t := Remove(s, key, Unspecified);
    if s.evictions == 0 {
      ForgottenComplete(s, t.entries, key);
    }
  }

  lemma ForgottenComplete(s: State, items: seq<Item>, key: Key)
    requires Complete(s.entries, s.reference, s.clock)
    requires forall x :: x in s.entries && x.key != key ==> x in items
    ensures Complete(items, s.reference - {key}, s.clock)
  {
    forall k | k in s.reference - {key} && s.reference[k].expiresAt > s.clock ensures Holds(items, k) {
      var x :| x in s.entries && x.key == k;
    }
  }

  lemma DeleteWhereKeepsInv(lim: Limits, s: State, p: Key -> bool)
    requires Inv(lim, s)
    ensures Inv(lim, DeleteWhere(s, p))
  {
    var keep := (item: Item) => !p(item.key);
    KeptOk(s.entries, keep, s.reference);
    KeptSplits(s.entries, keep);
    KeptMembers(s.entries, keep);
    var t := DeleteWhere(s, p);
    assert ListOk(t.entries, t.reference);
    if s.evictions == 0 {
      forall k | k in t.reference && t.reference[k].expiresAt > s.clock ensures Holds(t.entries, k) {
        assert Holds(s.entries, k);
        var x :| x in s.entries && x.key == k;
        assert x in t.entries;
      }
    }
  }

  /** Joining or starting a load: at most one load per key is ever in flight. */
  lemma JoinKeepsSingleFlight(s: State, key: Key, load: LoadId)
    requires SingleFlight(s) && load !in s.inFlight
    ensures SingleFlight(JoinOrStart(s, key, load).0)
    ensures key in s.pending <==> JoinOrStart(s, key, load).1.Coalesced?
    ensures key in s.pending ==> JoinOrStart(s, key, load).0.inFlight == s.inFlight
  {
  }

  lemma JoinKeepsInv(lim: Limits, s: State, key: Key, load: LoadId)
    requires InvButMisses(lim, s) && load !in s.inFlight
    requires s.misses == s.plainMisses + s.coalesced + s.loadsStarted + 1
    ensures Inv(lim, JoinOrStart(s, key, load).0)
  {
    hide SingleFlight, ListOk, Complete;
    JoinKeepsSingleFlight(s, key, load);
  }

  lemma GetOrLoadKeepsInv(lim: Limits, s: State, key: Key, force: bool, now: Instant, load: LoadId)
    requires Inv(lim, s) && s.clock <= now && load !in s.inFlight
    ensures Inv(lim, GetOrLoad(s, key, force, now, load).0)
  {
    hide ListOk, Complete, Forget, Get, JoinOrStart;
    if force {
      ForgetKeepsInv(lim, s, key);
      var t := Forget(s, key);
      JoinKeepsInv(lim, t.(misses := t.misses + 1), key, load);
    } else {
      GetKeepsInv(lim, s, key, now);
      var (t, v) := Get(s, key, now);
      if v.None? {
        JoinKeepsInv(lim, t, key, load);
      }
    }
  }

  lemma SettleKeepsInv(lim: Limits, s: State, load: LoadId, loaded: Loaded, now: Instant, stamp: Instant)
    requires lim.Valid() && Inv(lim, s) && load in s.inFlight && s.clock <= now <= stamp
    ensures Inv(lim, Settle(lim, s, load, loaded, now, stamp))
    ensures s.inFlight[load] !in Settle(lim, s, load, loaded, now, stamp).pending
  {
    hide ListOk, Complete, Set;
    var key := s.inFlight[load];
    if loaded.Loaded? && !Rejects(lim, loaded.ttl, loaded.bytes) {
      SetKeepsInv(lim, s, key, loaded.value, loaded.ttl, loaded.bytes, now, stamp);
      SetKeepsFlights(lim, s, key, loaded.value, loaded.ttl, loaded.bytes, now, stamp);
    }
  }

  lemma SetKeepsFlights(lim: Limits, s: State, key: Key, value: Value, ttl: int, bytes: int,
                        now: Instant, stamp: Instant)
    requires lim.Valid() && Inv(lim, s)
    ensures
      var t := Set(lim, s, key, value, ttl, bytes, now, stamp);
      t.pending == s.pending && t.inFlight == s.inFlight
  {
    hide Expire, Remove, EvictFor, ListOk, Complete, SingleFlight;
    if !Rejects(lim, ttl, bytes) {
      RoomShrinks(lim, s, key, bytes, now);
    }
  }

  lemma MeasureKeepsInv(lim: Limits, s: State, now: Instant)
    requires Inv(lim, s) && s.clock <= now
    ensures Inv(lim, Expire(s, now))
  {
    hide Expire, Complete;
    ExpireShrinks(s, now);
    ShrunkOk(s, Expire(s, now));
    if s.evictions == 0 {
      CompleteLater(s, Expire(s, now).entries, now);
    }
  }

  lemma StepKeepsInv(lim: Limits, s: State, e: Event)
    requires lim.Valid() && Inv(lim, s) && Enabled(s, e)
    ensures Inv(lim, Step(lim, s, e))
  {
    hide ListOk, Complete, Bounded, SingleFlight, PlainGet, Set, GetOrLoad, Settle, DeleteWhere, Expire;
    match e
    case Got(key, now) => PlainGetKeepsInv(lim, s, key, now);
    case SetTo(key, value, ttl, bytes, now, stamp) => SetKeepsInv(lim, s, key, value, ttl, bytes, now, stamp);
    case DeletedWhere(p) => DeleteWhereKeepsInv(lim, s, p);
    case Requested(key, force, now, load) => GetOrLoadKeepsInv(lim, s, key, force, now, load);
    case Settled(load, loaded, now, stamp) => SettleKeepsInv(lim, s, load, loaded, now, stamp);
    case Measured(now) => MeasureKeepsInv(lim, s, now);
  }
}
