/** The cache as a class: an insertion-ordered map of entries, a map of pending loads, counters and a byte
    total, changed in place.  Each method performs exactly the call of module AsyncCache it names. */
module AsyncCacheClass {
  import opened AsyncCache
  import opened Wrappers

  datatype Metrics = Metrics(hits: nat, misses: nat, coalesced: nat, evictions: nat, expirations: nat, errors: nat,
                             entries: nat, retainedBytes: int)

  class BoundedAsyncCache {
    const limits: Limits
    var entries: seq<Item>
    var pending: map<Key, LoadId>
    var hits: nat
    var misses: nat
    var coalesced: nat
    var evictions: nat
    var expirations: nat
    var errors: nat
    var retainedBytes: int
    var evicted: seq<Value>
    ghost var reference: map<Key, Entry>
    ghost var inFlight: map<LoadId, Key>
    ghost var loadsStarted: nat
    ghost var plainMisses: nat
    ghost var sets: nat
    ghost var lastUse: map<Key, nat>
    ghost var uses: nat
    ghost var clock: Instant

    ghost function View(): State
      reads this
    {
      State(entries, pending, hits, misses, coalesced, evictions, expirations, errors, retainedBytes, evicted,
            reference, inFlight, loadsStarted, plainMisses, sets, lastUse, uses, clock)
    }

    constructor (limits: Limits)
      requires limits.Valid()
      ensures this.limits == limits && View() == Empty
    {
      this.limits := limits;
      entries, pending, evicted, retainedBytes := [], map[], [], 0;
      hits, misses, coalesced, evictions, expirations, errors := 0, 0, 0, 0, 0, 0;
      reference, inFlight, lastUse := map[], map[], map[];
      loadsStarted, plainMisses, sets, uses, clock := 0, 0, 0, 0, 0;
    }

    /** Bounds that are not positive are refused. */
    static method Create(limits: Limits) returns (cache: BoundedAsyncCache?)
      ensures cache == null <==> !limits.Valid()
      ensures cache != null ==> fresh(cache) && cache.limits == limits && cache.View() == Empty
    {
      if limits.maxEntries <= 0 || limits.maxEntryBytes <= 0 || limits.maxTotalBytes <= 0 {
        return null;
      }
      cache := new BoundedAsyncCache(limits);
    }

    method RemoveSlot(i: nat, reason: Reason)
      requires i < |entries|
      modifies this`entries, this`retainedBytes, this`evicted, this`evictions, this`expirations
      ensures View() == RemoveAt(old(View()), i, reason)
    {
      var entry := entries[i].entry;
      entries := entries[..i] + entries[i + 1..];
      retainedBytes := retainedBytes - entry.bytes;
      evicted := evicted + [entry.value];
      if reason.Eviction? {
        evictions := evictions + 1;
      }
      if reason.Expiration? {
        expirations := expirations + 1;
      }
    }

    method RemoveKey(key: Key, reason: Reason)
      modifies this`entries, this`retainedBytes, this`evicted, this`evictions, this`expirations
      ensures View() == Remove(old(View()), key, reason)
    {
      hide RemoveAt;
      var i := IndexOf(entries, key);
      if i.Some? {
        RemoveSlot(i.value, reason);
      }
    }

    /** Walk the slots once, removing those that do not satisfy `keep`. */
    method Sweep(keep: Item -> bool, reason: Reason)
      modifies this`entries, this`retainedBytes, this`evicted, this`evictions, this`expirations
      requires !reason.Eviction?
      ensures entries == Kept(old(entries), keep)
      ensures retainedBytes == old(retainedBytes) - Bytes(Dropped(old(entries), keep))
      ensures evicted == old(evicted) + Values(Dropped(old(entries), keep))
      ensures evictions == old(evictions)
      ensures expirations == old(expirations) + if reason.Expiration? then |Dropped(old(entries), keep)| else 0
    {
      var i := 0;
      while i < |entries|
        invariant 0 <= i <= |entries|
        invariant entries[..i] + Kept(entries[i..], keep) == Kept(old(entries), keep)
        invariant retainedBytes - Bytes(Dropped(entries[i..], keep))
               == old(retainedBytes) - Bytes(Dropped(old(entries), keep))
        invariant evicted + Values(Dropped(entries[i..], keep))
               == old(evicted) + Values(Dropped(old(entries), keep))
        invariant evictions == old(evictions)
        invariant expirations + (if reason.Expiration? then |Dropped(entries[i..], keep)| else 0)
               == old(expirations) + if reason.Expiration? then |Dropped(old(entries), keep)| else 0
        decreases |entries| - i
        modifies this`entries, this`retainedBytes, this`evicted, this`evictions, this`expirations
      {
        ghost var rest := entries[i..];
        if keep(entries[i]) {
          KeepHead(entries, i, keep);
          i := i + 1;
        } else {
          DropHead(entries, i, keep, evicted);
          RemoveSlot(i, reason);
        }
      }
      assert entries[..i] == entries;
    }

    static lemma KeepHead(items: seq<Item>, i: nat, keep: Item -> bool)
      requires i < |items| && keep(items[i])
      ensures items[..i] + Kept(items[i..], keep) == items[..i + 1] + Kept(items[i + 1..], keep)
      ensures Dropped(items[i..], keep) == Dropped(items[i + 1..], keep)
    {
      assert items[i..][1..] == items[i + 1..];
      assert items[..i + 1] == items[..i] + [items[i]];
    }

    static lemma DropHead(items: seq<Item>, i: nat, keep: Item -> bool, log: seq<Value>)
      requires i < |items| && !keep(items[i])
      ensures
        var left := Without(items, i);
        && left[..i] == items[..i] && left[i..] == items[i + 1..]
        && Kept(items[i..], keep) == Kept(left[i..], keep)
        && Bytes(Dropped(items[i..], keep)) == items[i].entry.bytes + Bytes(Dropped(left[i..], keep))
        && |Dropped(items[i..], keep)| == 1 + |Dropped(left[i..], keep)|
        && log + Values(Dropped(items[i..], keep)) == log + [items[i].entry.value] + Values(Dropped(left[i..], keep))
    {
      assert items[i..][1..] == items[i + 1..];
      var gone := Dropped(items[i + 1..], keep);
      assert Dropped(items[i..], keep) == [items[i]] + gone;
      assert ([items[i]] + gone)[1..] == gone;
      assert log + ([items[i].entry.value] + Values(gone)) == log + [items[i].entry.value] + Values(gone);
    }

    method ExpireEntries(now: Instant)
      modifies this
      ensures View() == Expire(old(View()), now)
    {
      Sweep(Live(now), Expiration);
      clock := now;
    }

    method DeleteEntriesWhere(p: Key -> bool)
      modifies this
      ensures View() == DeleteWhere(old(View()), p)
    {
      Sweep((item: Item) => !p(item.key), Unspecified);
      reference := map k | k in reference && !p(k) :: reference[k];
    }

    ghost method NoteUse(key: Key)
      modifies this`lastUse, this`uses
      ensures View() == Use(old(View()), key)
    {
      lastUse, uses := lastUse[key := uses], uses + 1;
    }

    method GetEntry(key: Key, now: Instant) returns (v: Option<Value>)
      modifies this
      ensures (View(), v) == Get(old(View()), key, now)
    {
      hide Use;
      clock := now;
      var i := IndexOf(entries, key);
      if i.None? {
        misses := misses + 1;
        return None;
      }
      var item := entries[i.value];
      if item.entry.expiresAt <= now {
        RemoveSlot(i.value, Expiration);
        misses := misses + 1;
        return None;
      }
      entries := entries[..i.value] + entries[i.value + 1..];
      entries := entries + [item];
      hits := hits + 1;
      NoteUse(key);
      return Some(item.entry.value);
    }

    method EvictUntilRoom(bytes: int)
      modifies this`entries, this`retainedBytes, this`evicted, this`evictions, this`expirations
      ensures View() == EvictFor(limits, old(View()), bytes)
    {
      while |entries| >= limits.maxEntries || retainedBytes + bytes > limits.maxTotalBytes
        invariant EvictFor(limits, View(), bytes) == EvictFor(limits, old(View()), bytes)
        decreases |entries|
        modifies this`entries, this`retainedBytes, this`evicted, this`evictions, this`expirations
      {
        if |entries| == 0 {
          break;
        }
        RemoveSlot(0, Eviction);
      }
    }

    method SetEntry(key: Key, value: Value, ttl: int, bytes: int, now: Instant, stamp: Instant) returns (ok: bool)
      modifies this
      ensures View() == Set(limits, old(View()), key, value, ttl, bytes, now, stamp)
      ensures ok == !Rejects(limits, ttl, bytes)
    {
      hide Expire, Remove, EvictFor, Insert;
      if Rejects(limits, ttl, bytes) {
        return false;
      }
      ExpireEntries(now);
      RemoveKey(key, Unspecified);
      EvictUntilRoom(bytes);
      InsertEntry(key, Entry(value, stamp + ttl, bytes), stamp);
      return true;
    }

    method InsertEntry(key: Key, entry: Entry, stamp: Instant)
      modifies this
      ensures View() == Insert(old(View()), key, entry, stamp)
    {
      hide Use;
      NoteUse(key);
      entries := entries + [Item(key, entry)];
      retainedBytes := retainedBytes + entry.bytes;
      reference, sets, clock := reference[key := entry], sets + 1, stamp;
    }

    method Join(key: Key, load: LoadId) returns (r: Lookup)
      modifies this
      ensures (View(), r) == JoinOrStart(old(View()), key, load)
    {
      if key in pending {
        coalesced := coalesced + 1;
        return Coalesced(pending[key]);
      }
      inFlight, loadsStarted := inFlight[load := key], loadsStarted + 1;
      pending := pending[key := load];
      return LoadStarted(load);
    }

    /** The synchronous part of getOrLoad: `load` names the promise a new loader would return. */
    method RequestLoad(key: Key, force: bool, now: Instant, load: LoadId) returns (r: Lookup)
      modifies this
      ensures (View(), r) == GetOrLoad(old(View()), key, force, now, load)
    {
      hide Get, Remove, JoinOrStart;
      if !force {
        var cached := GetEntry(key, now);
        if cached.Some? {
          return Hit(cached.value);
        }
      } else {
        ghost var kept := reference - {key};
        RemoveKey(key, Unspecified);
        reference := kept;
        misses := misses + 1;
      }
      r := Join(key, load);
    }

    method KeepLoaded(key: Key, loaded: Loaded, now: Instant, stamp: Instant)
      modifies this
      ensures View() == Keep(limits, old(View()), key, loaded, now, stamp)
    {
      hide Set;
      if loaded.LoadFailed? || Rejects(limits, loaded.ttl, loaded.bytes) {
        errors := errors + 1;
      } else {
        var ok := SetEntry(key, loaded.value, loaded.ttl, loaded.bytes, now, stamp);
      }
    }

    /** The continuation of a loader's promise. */
    method LoadSettled(load: LoadId, key: Key, loaded: Loaded, now: Instant, stamp: Instant)
      requires load in inFlight && inFlight[load] == key
      modifies this
      ensures View() == Settle(limits, old(View()), load, loaded, now, stamp)
    {
      hide Keep;
      KeepLoaded(key, loaded, now, stamp);
      pending := pending - {key};
      inFlight := inFlight - {load};
    }

    method CurrentMetrics(now: Instant) returns (m: Metrics)
      modifies this
      ensures View() == Expire(old(View()), now)
      ensures m == Metrics(hits, misses, coalesced, evictions, expirations, errors, |entries|, retainedBytes)
    {
      ExpireEntries(now);
      m := Metrics(hits, misses, coalesced, evictions, expirations, errors, |entries|, retainedBytes);
    }
  }
}
