/** The bounded asynchronous LRU/TTL cache.

    `State` carries, beside the cache's own fields, the unbounded timestamped map it stands in for
    (`reference`: the latest set of each key that has not been removed), the log of evicted values, the
    loads in flight, and when each key was last used.  The functions over it specify one call each;
    class `BoundedAsyncCache` performs those calls in place. */
module AsyncCache {
  import opened Wrappers

  type Key(==, !new)
  type Value(!new)
  type LoadId = nat
  type Instant = int

  datatype Entry = Entry(value: Value, expiresAt: Instant, bytes: int)

  /** One slot of the insertion-ordered map; the first slot is the least recently used. */
  datatype Item = Item(key: Key, entry: Entry)

  datatype Limits = Limits(maxEntries: int, maxEntryBytes: int, maxTotalBytes: int) {
    predicate Valid() {
      maxEntries > 0 && maxEntryBytes > 0 && maxTotalBytes > 0
    }
  }

  datatype State = State(
    entries: seq<Item>,
    pending: map<Key, LoadId>,
    hits: nat,
    misses: nat,
    coalesced: nat,
    evictions: nat,
    expirations: nat,
    errors: nat,
    retainedBytes: int,
    evicted: seq<Value>,
    reference: map<Key, Entry>,
    inFlight: map<LoadId, Key>,
    loadsStarted: nat,
    plainMisses: nat,
    sets: nat,
    lastUse: map<Key, nat>,
    uses: nat,
    clock: Instant)

  // ---------------------------------------------------------------------------
  // Lists of slots
  // ---------------------------------------------------------------------------

  function Bytes(items: seq<Item>): int {
    if items == [] then 0 else items[0].entry.bytes + Bytes(items[1..])
  }

  function Values(items: seq<Item>): (r: seq<Value>)
    ensures |r| == |items|
  {
    if items == [] then [] else [items[0].entry.value] + Values(items[1..])
  }

  function Kept(items: seq<Item>, p: Item -> bool): seq<Item> {
    if items == [] then []
    else (if p(items[0]) then [items[0]] else []) + Kept(items[1..], p)
  }

  function Dropped(items: seq<Item>, p: Item -> bool): seq<Item> {
    if items == [] then []
    else (if p(items[0]) then [] else [items[0]]) + Dropped(items[1..], p)
  }

  function IndexOf(items: seq<Item>, key: Key): (r: Option<nat>)
    ensures r.Some? ==> r.value < |items| && items[r.value].key == key
    ensures r.None? ==> forall i :: 0 <= i < |items| ==> items[i].key != key
  {
    if items == [] then None
    else if items[0].key == key then Some(0)
    else
      var rest := IndexOf(items[1..], key);
      if rest.Some? then Some(rest.value + 1) else None
  }

  function Without(items: seq<Item>, i: nat): seq<Item>
    requires i < |items|
  {
    items[..i] + items[i + 1..]
  }

  // ---------------------------------------------------------------------------
  // Calls
  // ---------------------------------------------------------------------------

  datatype Reason = Unspecified | Eviction | Expiration

  /** Take slot i out: the value goes to onEvict and its bytes are released. */
  function RemoveAt(s: State, i: nat, reason: Reason): State
    requires i < |s.entries|
  {
    s.(entries := Without(s.entries, i),
       retainedBytes := s.retainedBytes - s.entries[i].entry.bytes,
       evicted := s.evicted + [s.entries[i].entry.value],
       evictions := if reason.Eviction? then s.evictions + 1 else s.evictions,
       expirations := if reason.Expiration? then s.expirations + 1 else s.expirations)
  }

  function Remove(s: State, key: Key, reason: Reason): State {
    var i := IndexOf(s.entries, key);
    if i.Some? then RemoveAt(s, i.value, reason) else s
  }

  /** Removing a key on purpose removes it from the reference map too. */
  function Forget(s: State, key: Key): State {
    Remove(s, key, Unspecified).(reference := s.reference - {key})
  }

  function Live(now: Instant): Item -> bool {
    (item: Item) => item.entry.expiresAt > now
  }

  function Expire(s: State, now: Instant): State {
    var dead := Dropped(s.entries, Live(now));
    s.(entries := Kept(s.entries, Live(now)),
       retainedBytes := s.retainedBytes - Bytes(dead),
       evicted := s.evicted + Values(dead),
       expirations := s.expirations + |dead|,
       clock := now)
  }

  function Use(s: State, key: Key): State {
    s.(lastUse := s.lastUse[key := s.uses], uses := s.uses + 1)
  }

  function Get(s: State, key: Key, now: Instant): (State, Option<Value>) {
    var i := IndexOf(s.entries, key);
    var t := s.(clock := now);
    if i.None? then (t.(misses := s.misses + 1), None)
    else if s.entries[i.value].entry.expiresAt <= now then
      (RemoveAt(t, i.value, Expiration).(misses := s.misses + 1), None)
    else
      (Use(t.(entries := Without(s.entries, i.value) + [s.entries[i.value]], hits := s.hits + 1), key),
       Some(s.entries[i.value].entry.value))
  }

  /** A lookup made by a caller itself, not by a load. */
  function PlainGet(s: State, key: Key, now: Instant): (State, Option<Value>) {
    var (t, v) := Get(s, key, now);
    (if v.None? then t.(plainMisses := t.plainMisses + 1) else t, v)
  }

  predicate Fits(lim: Limits, items: seq<Item>, bytes: int) {
    |items| < lim.maxEntries && Bytes(items) + bytes <= lim.maxTotalBytes
  }

  /** Evict from the front until one more entry of the given size fits, or nothing is left. */
  function EvictFor(lim: Limits, s: State, bytes: int): State
    decreases |s.entries|
  {
    if (|s.entries| >= lim.maxEntries || s.retainedBytes + bytes > lim.maxTotalBytes) && s.entries != [] then
      EvictFor(lim, RemoveAt(s, 0, Eviction), bytes)
    else s
  }

  predicate Rejects(lim: Limits, ttl: int, bytes: int) {
    ttl <= 0 || bytes < 0 || bytes > lim.maxEntryBytes || bytes > lim.maxTotalBytes
  }

  function Insert(s: State, key: Key, entry: Entry, stamp: Instant): State {
    Use(s, key).(entries := s.entries + [Item(key, entry)],
                 retainedBytes := s.retainedBytes + entry.bytes,
                 reference := s.reference[key := entry],
                 sets := s.sets + 1,
                 clock := stamp)
  }

  /** The slots left when a new value is about to be stored: unexpired, not of this key, and a suffix of
      those if anything had to be evicted. */
  function Room(lim: Limits, s: State, key: Key, bytes: int, now: Instant): State {
    EvictFor(lim, Remove(Expire(s, now), key, Unspecified), bytes)
  }

  /** The clock is read twice: for expiring old entries and for stamping the new one. */
  function Set(lim: Limits, s: State, key: Key, value: Value, ttl: int, bytes: int,
               now: Instant, stamp: Instant): State {
    if Rejects(lim, ttl, bytes) then s
    else Insert(Room(lim, s, key, bytes, now), key, Entry(value, stamp + ttl, bytes), stamp)
  }

  function DeleteWhere(s: State, p: Key -> bool): State {
    var keep := (item: Item) => !p(item.key);
    var gone := Dropped(s.entries, keep);
    s.(entries := Kept(s.entries, keep),
       retainedBytes := s.retainedBytes - Bytes(gone),
       evicted := s.evicted + Values(gone),
       reference := map k | k in s.reference && !p(k) :: s.reference[k])
  }

  datatype Lookup = Hit(value: Value) | Coalesced(load: LoadId) | LoadStarted(load: LoadId)

  /** Join the load in flight for a key, or start one. */
  function JoinOrStart(s: State, key: Key, load: LoadId): (State, Lookup) {
    if key in s.pending then (s.(coalesced := s.coalesced + 1), Coalesced(s.pending[key]))
    else
      (s.(pending := s.pending[key := load], inFlight := s.inFlight[load := key], loadsStarted := s.loadsStarted + 1),
       LoadStarted(load))
  }

  function GetOrLoad(s: State, key: Key, force: bool, now: Instant, load: LoadId): (State, Lookup) {
    if force then
      var t := Forget(s, key);
      JoinOrStart(t.(misses := t.misses + 1), key, load)
    else
      var (t, v) := Get(s, key, now);
      if v.Some? then (t, Hit(v.value)) else JoinOrStart(t, key, load)
  }

  datatype Loaded = Loaded(value: Value, ttl: int, bytes: int) | LoadFailed

  /** What a settled loader leaves: the stored value, or a counted error of the loader or of the store. */
  function Keep(lim: Limits, s: State, key: Key, loaded: Loaded, now: Instant, stamp: Instant): State {
    if loaded.LoadFailed? || Rejects(lim, loaded.ttl, loaded.bytes) then s.(errors := s.errors + 1)
    else Set(lim, s, key, loaded.value, loaded.ttl, loaded.bytes, now, stamp)
  }

  /** The continuation of a loader: keep its result, and in every case clear the slot. */
  function Settle(lim: Limits, s: State, load: LoadId, loaded: Loaded, now: Instant, stamp: Instant): State
    requires load in s.inFlight
  {
    var key := s.inFlight[load];
    var t := Keep(lim, s, key, loaded, now, stamp);
    t.(pending := t.pending - {key}, inFlight := t.inFlight - {load})
  }

  datatype Event =
    | Got(key: Key, now: Instant)
    | SetTo(key: Key, value: Value, ttl: int, bytes: int, now: Instant, stamp: Instant)
    | DeletedWhere(p: Key -> bool)
    | Requested(key: Key, force: bool, now: Instant, load: LoadId)
    | Settled(load: LoadId, loaded: Loaded, now: Instant, stamp: Instant)
    | Measured(now: Instant)

  /** The clock never runs backwards, a load id is used once, and only loads in flight settle. */
  predicate Enabled(s: State, e: Event) {
    match e
    case Got(_, now) => s.clock <= now
    case SetTo(_, _, _, _, now, stamp) => s.clock <= now <= stamp
    case DeletedWhere(_) => true
    case Requested(_, _, now, load) => s.clock <= now && load !in s.inFlight
    case Settled(load, _, now, stamp) => s.clock <= now <= stamp && load in s.inFlight
    case Measured(now) => s.clock <= now
  }

  function Step(lim: Limits, s: State, e: Event): State
    requires Enabled(s, e)
  {
    match e
    case Got(key, now) => PlainGet(s, key, now).0
    case SetTo(key, value, ttl, bytes, now, stamp) => Set(lim, s, key, value, ttl, bytes, now, stamp)
    case DeletedWhere(p) => DeleteWhere(s, p)
    case Requested(key, force, now, load) => GetOrLoad(s, key, force, now, load).0
    case Settled(load, loaded, now, stamp) => Settle(lim, s, load, loaded, now, stamp)
    case Measured(now) => Expire(s, now)
  }

  const Empty: State :=
    State([], map[], 0, 0, 0, 0, 0, 0, 0, [], map[], map[], 0, 0, 0, map[], 0, 0)

  // ---------------------------------------------------------------------------
  // Invariant
  // ---------------------------------------------------------------------------

  ghost predicate DistinctKeys(items: seq<Item>) {
    forall i, j :: 0 <= i < j < |items| ==> items[i].key != items[j].key
  }

  /** The slot holds the latest unremoved set of its key. */
  ghost predicate Good(x: Item, reference: map<Key, Entry>) {
    x.key in reference && reference[x.key] == x.entry && x.entry.bytes >= 0
  }

  ghost predicate ListOk(items: seq<Item>, reference: map<Key, Entry>) {
    DistinctKeys(items) && forall x :: x in items ==> Good(x, reference)
  }

  ghost predicate Holds(items: seq<Item>, key: Key) {
    exists x :: x in items && x.key == key
  }

  /** Nothing unexpired is missing. */
  ghost predicate Complete(items: seq<Item>, reference: map<Key, Entry>, now: Instant) {
    forall k :: k in reference && reference[k].expiresAt > now ==> Holds(items, k)
  }

  /** Loads in flight and pending slots are in one-to-one correspondence. */
  ghost predicate SingleFlight(s: State) {
    && (forall k :: k in s.pending ==> s.pending[k] in s.inFlight && s.inFlight[s.pending[k]] == k)
    && (forall l :: l in s.inFlight ==> s.inFlight[l] in s.pending && s.pending[s.inFlight[l]] == l)
  }

  ghost predicate Counted(s: State) {
    && s.misses == s.plainMisses + s.coalesced + s.loadsStarted
    && s.sets == |s.entries| + |s.evicted|
  }

  ghost predicate Bounded(lim: Limits, s: State) {
    s.retainedBytes == Bytes(s.entries) <= lim.maxTotalBytes && |s.entries| <= lim.maxEntries
  }

  ghost predicate Inv(lim: Limits, s: State) {
    && ListOk(s.entries, s.reference)
    && Bounded(lim, s)
    && SingleFlight(s)
    && Counted(s)
    && (s.evictions == 0 ==> Complete(s.entries, s.reference, s.clock))
  }

  // ---------------------------------------------------------------------------
  // Lists of slots: lemmas
  // ---------------------------------------------------------------------------

  lemma {:induction false} BytesAppend(a: seq<Item>, b: seq<Item>)
    ensures Bytes(a + b) == Bytes(a) + Bytes(b)
    decreases |a|
  {
    if a == [] {
      assert a + b == b;
    } else {
      assert (a + b)[1..] == a[1..] + b;
      BytesAppend(a[1..], b);
    }
  }

  lemma {:induction false} BytesWithout(items: seq<Item>, i: nat)
    requires i < |items|
    ensures Bytes(Without(items, i)) == Bytes(items) - items[i].entry.bytes
    decreases i
  {
    if i == 0 {
      assert Without(items, 0) == items[1..];
    } else {
      var rest := Without(items[1..], i - 1);
      assert Without(items, i) == [items[0]] + rest;
      assert ([items[0]] + rest)[1..] == rest;
      BytesWithout(items[1..], i - 1);
    }
  }

  lemma {:induction false} BytesNonNegative(items: seq<Item>)
    requires forall x :: x in items ==> x.entry.bytes >= 0
    ensures Bytes(items) >= 0
    decreases |items|
  {
    if items != [] {
      assert items[0] in items;
      BytesNonNegative(items[1..]);
    }
  }

  /** Keeping the slots that satisfy p splits the bytes and the slots into kept and dropped ones, and
      the kept ones keep their order. */
  lemma {:induction false} KeptSplits(items: seq<Item>, p: Item -> bool)
    ensures Bytes(Kept(items, p)) + Bytes(Dropped(items, p)) == Bytes(items)
    ensures |Kept(items, p)| + |Dropped(items, p)| == |items|
    decreases |items|
  {
    if items != [] {
      KeptSplits(items[1..], p);
      BytesAppend(if p(items[0]) then [items[0]] else [], Kept(items[1..], p));
      BytesAppend(if p(items[0]) then [] else [items[0]], Dropped(items[1..], p));
    }
  }

  lemma {:induction false} KeptMembers(items: seq<Item>, p: Item -> bool)
    ensures forall x :: x in Kept(items, p) <==> x in items && p(x)
    decreases |items|
  {
    if items != [] {
      KeptMembers(items[1..], p);
    }
  }

  lemma {:induction false} KeptDistinct(items: seq<Item>, p: Item -> bool)
    requires DistinctKeys(items)
    ensures DistinctKeys(Kept(items, p))
    decreases |items|
  {
    if items != [] {
      KeptDistinct(items[1..], p);
      KeptMembers(items[1..], p);
      var rest := Kept(items[1..], p);
      forall i | 0 <= i < |rest| ensures rest[i].key != items[0].key {
        assert rest[i] in items[1..];
      }
    }
  }

  lemma KeptOk(items: seq<Item>, p: Item -> bool, reference: map<Key, Entry>)
    requires ListOk(items, reference)
    ensures ListOk(Kept(items, p), reference)
    ensures 0 <= Bytes(Kept(items, p)) <= Bytes(items)
  {
    KeptDistinct(items, p);
    KeptMembers(items, p);
    KeptSplits(items, p);
    DroppedMembers(items, p);
    BytesNonNegative(Kept(items, p));
    BytesNonNegative(Dropped(items, p));
  }

  lemma {:induction false} DroppedMembers(items: seq<Item>, p: Item -> bool)
    ensures forall x :: x in Dropped(items, p) ==> x in items
    decreases |items|
  {
    if items != [] {
      DroppedMembers(items[1..], p);
    }
  }

  lemma WithoutMembers(items: seq<Item>, i: nat)
    requires i < |items| && DistinctKeys(items)
    ensures DistinctKeys(Without(items, i))
    ensures forall x :: x in Without(items, i) <==> x in items && x.key != items[i].key
  {
    var r := Without(items, i);
    forall x | x in items && x.key != items[i].key ensures x in r {
      var j :| 0 <= j < |items| && items[j] == x;
      assert r[if j < i then j else j - 1] == x;
    }
    forall x | x in r ensures x in items && x.key != items[i].key {
      var j :| 0 <= j < |r| && r[j] == x;
      assert x == items[if j < i then j else j + 1];
    }
  }

  lemma AppendOk(items: seq<Item>, x: Item, reference: map<Key, Entry>)
    requires ListOk(items, reference) && Good(x, reference) && !Holds(items, x.key)
    ensures ListOk(items + [x], reference)
  {
    forall i | 0 <= i < |items| ensures items[i].key != x.key {
      assert items[i] in items;
    }
  }
}
