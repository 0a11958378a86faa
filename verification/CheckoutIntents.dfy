/** Checkout intents and their carts: one intent a customer at a time, one intent a key, one cart an intent.

    The state is what the in-memory checkout repository keeps; a step is one call of it, with the clock and the
    random ids it reads given by the event. */
module CheckoutIntents {
  import opened Wrappers

  type Id = string

  /** Points in time, ordered as their timestamps are. */
  type Instant = int

  datatype Owner = Owner(organizationId: Id, customerId: Id)

  datatype Key = Key(owner: Owner, sessionId: Id, idempotencyKey: string)

  datatype Status = Creating | Ready | Started | Failed | Approved | Rejected | NeedsReview | Expired | Superseded

  datatype CartStatus = CartReady | CartStarted | CartExpired | CartSuperseded

  datatype Intent = Intent(key: Key, status: Status, cart: Option<Id>, expires: Instant, created: Instant)

  datatype Cart = Cart(owner: Owner, status: CartStatus, expires: Instant, created: Instant)

  /** `order` lists the intents as they were inserted, which is the order they are searched in. */
  datatype State = State(order: seq<Id>, intents: map<Id, Intent>, carts: map<Id, Cart>)

  datatype Outcome = Created(id: Id) | InProgress | ReadyToBuy(id: Id, cart: Id) | ExpiredOutcome | FailedOutcome

  datatype Event =
    | Create(key: Key, expires: Instant, id: Id)
    | Attach(intent: Id, owner: Owner, cartExpires: Instant, reference: Id, capacityFails: bool)
    | Start(intent: Id)
    | Fail(intent: Id)
    | Resolve(intent: Id, resolution: Status)

  const Empty := State([], map[], map[])

  // ---------------------------------------------------------------------------
  // Queries
  // ---------------------------------------------------------------------------

  predicate IsOpen(s: Status) {
    s == Creating || s == Ready || s == Started
  }

  predicate IsLive(i: Intent, now: Instant) {
    IsOpen(i.status) && i.expires > now
  }

  predicate HasProcessing(s: State, owner: Owner, now: Instant) {
    exists id :: id in s.intents && s.intents[id].key.owner == owner && IsLive(s.intents[id], now)
  }

  /** The first intent with the key. */
  function FindKey(order: seq<Id>, intents: map<Id, Intent>, key: Key): (r: Option<Id>)
    requires forall id :: id in order ==> id in intents
    ensures r.Some? ==> r.value in order && intents[r.value].key == key
    ensures r.None? ==> forall id :: id in order ==> intents[id].key != key
  {
    if order == [] then None
    else if intents[order[0]].key == key then Some(order[0])
    else FindKey(order[1..], intents, key)
  }

  function OutcomeFor(s: State, id: Id, now: Instant): Outcome
    requires id in s.intents
  {
    var i := s.intents[id];
    if i.expires <= now then ExpiredOutcome
    else if i.status == Creating then InProgress
    else if i.status == Failed then FailedOutcome
    else if i.cart.Some? && i.cart.value in s.carts then
      var c := s.carts[i.cart.value];
      if (i.status == Ready || i.status == Started)
         && c.expires > now && c.status != CartExpired && c.status != CartSuperseded
      then ReadyToBuy(id, i.cart.value) else FailedOutcome
    else FailedOutcome
  }

  predicate Listed(s: State) {
    && (forall id :: id in s.order ==> id in s.intents)
    && (forall id :: id in s.intents ==> id in s.order)
    && forall i, j :: 0 <= i < j < |s.order| ==> s.order[i] != s.order[j]
  }

  function GetOutcome(s: State, key: Key, now: Instant): Option<Outcome>
    requires Listed(s)
  {
    var id := FindKey(s.order, s.intents, key);
    if id.Some? then Some(OutcomeFor(s, id.value, now)) else None
  }

  // ---------------------------------------------------------------------------
  // Steps
  // ---------------------------------------------------------------------------

  function CreateOutcome(s: State, key: Key, id: Id, now: Instant): Outcome
    requires Listed(s)
  {
    var existing := FindKey(s.order, s.intents, key);
    if existing.Some? then OutcomeFor(s, existing.value, now)
    else if HasProcessing(s, key.owner, now) then InProgress
    else Created(id)
  }

  function Add(s: State, key: Key, expires: Instant, id: Id, now: Instant): State {
    State(s.order + [id], s.intents[id := Intent(key, Creating, None, expires, now)], s.carts)
  }

  function SetIntent(s: State, id: Id, i: Intent): State {
    s.(intents := s.intents[id := i])
  }

  function SetCart(s: State, r: Id, c: Cart): State {
    s.(carts := s.carts[r := c])
  }

  predicate CanAttach(s: State, id: Id, owner: Owner) {
    && id in s.intents
    && s.intents[id].key.owner.organizationId == owner.organizationId
    && s.intents[id].status == Creating
  }

  predicate CanStart(s: State, id: Id) {
    id in s.intents && (s.intents[id].status == Ready || s.intents[id].status == Started)
  }

  function CartOf(s: State, id: Id): Option<Id>
    requires id in s.intents
  {
    var r := s.intents[id].cart;
    if r.Some? && r.value in s.carts then r else None
  }

  function WithCartStatus(s: State, r: Option<Id>, status: CartStatus): State
    requires r.Some? ==> r.value in s.carts
  {
    if r.Some? then SetCart(s, r.value, s.carts[r.value].(status := status)) else s
  }

  /** One call. A call that throws changes nothing. */
  function Step(s: State, e: Event, now: Instant): State
    requires Listed(s)
  {
    match e
    case Create(key, expires, id) =>
      if CreateOutcome(s, key, id, now).Created? then Add(s, key, expires, id, now) else s
    case Attach(id, owner, cartExpires, r, capacityFails) =>
      if capacityFails || !CanAttach(s, id, owner) then s
      else SetIntent(SetCart(s, r, Cart(owner, CartReady, cartExpires, now)), id,
                     s.intents[id].(cart := Some(r), status := Ready))
    case Start(id) =>
      if !CanStart(s, id) then s
      else WithCartStatus(SetIntent(s, id, s.intents[id].(status := Started)), CartOf(s, id), CartStarted)
    case Fail(id) =>
      if id !in s.intents then s
      else WithCartStatus(SetIntent(s, id, s.intents[id].(status := Failed)), CartOf(s, id), CartSuperseded)
    case Resolve(id, resolution) =>
      if id !in s.intents then s else SetIntent(s, id, s.intents[id].(status := resolution))
  }

  /** Random ids are new, and a resolution is one of the three decisions. */
  predicate Admissible(s: State, e: Event) {
    match e
    case Create(_, _, id) => id !in s.intents
    case Attach(_, _, _, r, _) => r !in s.carts
    case Resolve(_, resolution) => resolution == Approved || resolution == Rejected || resolution == NeedsReview
    case _ => true
  }

  // ---------------------------------------------------------------------------
  // What every step keeps
  // ---------------------------------------------------------------------------

  predicate KeysUnique(s: State) {
    forall a, b :: a in s.intents && b in s.intents && s.intents[a].key == s.intents[b].key ==> a == b
  }

  predicate OneLive(s: State, now: Instant) {
    forall a, b :: a in s.intents && b in s.intents && s.intents[a].key.owner == s.intents[b].key.owner ==>
      IsLive(s.intents[a], now) && IsLive(s.intents[b], now) ==> a == b
  }

  /** The cart an intent of this status has. */
  predicate CartFits(i: Intent, carts: map<Id, Cart>) {
    && (i.cart.Some? ==> i.cart.value in carts)
    && match i.status
       case Creating => i.cart.None?
       case Ready => i.cart.Some? && carts[i.cart.value].status == CartReady
       case Started => i.cart.Some? && carts[i.cart.value].status == CartStarted
       case Failed => i.cart.Some? ==> carts[i.cart.value].status == CartSuperseded
       case _ => true
  }

  predicate CartsFit(s: State) {
    forall a :: a in s.intents ==> CartFits(s.intents[a], s.carts)
  }

  predicate CartsDistinct(s: State) {
    forall a, b :: a in s.intents && b in s.intents && s.intents[a].cart.Some? ==>
      s.intents[a].cart == s.intents[b].cart ==> a == b
  }

  predicate CartsOwned(s: State) {
    forall r :: r in s.carts ==> exists a :: a in s.intents && s.intents[a].cart == Some(r)
  }

  predicate Inv(s: State, now: Instant) {
    Listed(s) && KeysUnique(s) && OneLive(s, now) && CartsFit(s) && CartsDistinct(s) && CartsOwned(s)
  }

  lemma LaterInv(s: State, now: Instant, later: Instant)
    requires Inv(s, now) && now <= later
    ensures Inv(s, later)
  {
  }

  /** An intent keeps its key, owner and expiry; it opens only once, at its creation. */
  predicate Evolves(i: Intent, j: Intent) {
    && j.key == i.key && j.expires == i.expires && j.created == i.created
    && (IsOpen(j.status) ==> IsOpen(i.status))
    && (i.cart.Some? ==> j.cart == i.cart)
  }

  lemma SetIntentKeeps(s: State, id: Id, j: Intent, now: Instant)
    requires id in s.intents && Evolves(s.intents[id], j)
    requires Listed(s) && KeysUnique(s) && OneLive(s, now)
    ensures Listed(SetIntent(s, id, j)) && KeysUnique(SetIntent(s, id, j)) && OneLive(SetIntent(s, id, j), now)
  {
    SetIntentKeepsKeys(s, id, j);
    SetIntentKeepsLive(s, id, j, now);
    hide KeysUnique, OneLive;
  }

  lemma SetIntentKeepsKeys(s: State, id: Id, j: Intent)
    requires id in s.intents && j.key == s.intents[id].key && KeysUnique(s)
    ensures KeysUnique(SetIntent(s, id, j))
  {
    var t := SetIntent(s, id, j);
    assert forall a :: a in t.intents ==> a in s.intents && t.intents[a].key == s.intents[a].key;
  }

  lemma SetIntentKeepsLive(s: State, id: Id, j: Intent, now: Instant)
    requires id in s.intents && Evolves(s.intents[id], j) && OneLive(s, now)
    ensures OneLive(SetIntent(s, id, j), now)
  {
    var t := SetIntent(s, id, j);
    assert j.key == s.intents[id].key && (IsLive(j, now) ==> IsLive(s.intents[id], now));
    hide IsLive, Evolves;
    assert forall a :: a in t.intents ==> a in s.intents && t.intents[a].key.owner == s.intents[a].key.owner
                                          && (IsLive(t.intents[a], now) ==> IsLive(s.intents[a], now));
  }

  lemma AddKeepsKeys(s: State, key: Key, expires: Instant, id: Id, now: Instant)
    requires Listed(s) && KeysUnique(s) && OneLive(s, now) && id !in s.intents
    requires CreateOutcome(s, key, id, now).Created?
    ensures
      var t := Add(s, key, expires, id, now);
      Listed(t) && KeysUnique(t) && OneLive(t, now)
  {
    NewKey(s, key, id, now);
    AddKeepsUnique(s, key, expires, id, now);
    AddKeepsLive(s, key, expires, id, now);
    hide KeysUnique, OneLive, CreateOutcome;
  }

  lemma NewKey(s: State, key: Key, id: Id, now: Instant)
    requires Listed(s) && CreateOutcome(s, key, id, now).Created?
    ensures forall a :: a in s.intents ==> s.intents[a].key != key
    ensures !HasProcessing(s, key.owner, now)
  {
    hide FindKey, HasProcessing;
    assert forall a :: a in s.order ==> s.intents[a].key != key;
  }

  lemma AddKeepsUnique(s: State, key: Key, expires: Instant, id: Id, now: Instant)
    requires KeysUnique(s) && id !in s.intents && forall a :: a in s.intents ==> s.intents[a].key != key
    ensures KeysUnique(Add(s, key, expires, id, now))
  {
    var t := Add(s, key, expires, id, now);
    assert forall a :: a in t.intents && a != id ==> a in s.intents && t.intents[a].key == s.intents[a].key;
  }

  lemma AddKeepsLive(s: State, key: Key, expires: Instant, id: Id, now: Instant)
    requires OneLive(s, now) && id !in s.intents && !HasProcessing(s, key.owner, now)
    ensures OneLive(Add(s, key, expires, id, now), now)
  {
    hide IsLive;
    var t := Add(s, key, expires, id, now);
    assert forall a :: a in t.intents && a != id ==> a in s.intents && t.intents[a] == s.intents[a];
  }

  lemma AddKeepsCarts(s: State, key: Key, expires: Instant, id: Id, now: Instant)
    requires CartsFit(s) && CartsDistinct(s) && CartsOwned(s) && id !in s.intents
    ensures
      var t := Add(s, key, expires, id, now);
      CartsFit(t) && CartsDistinct(t) && CartsOwned(t)
  {
    var t := Add(s, key, expires, id, now);
    hide CartFits;
    assert forall a :: a in t.intents && a != id ==> a in s.intents && t.intents[a] == s.intents[a];
    assert CartFits(t.intents[id], t.carts) by { NewFits(t.intents[id], t.carts); }
    forall r | r in t.carts ensures exists a :: a in t.intents && t.intents[a].cart == Some(r) {
      var a :| a in s.intents && s.intents[a].cart == Some(r);
      assert a in t.intents;
    }
  }

  lemma NewFits(i: Intent, carts: map<Id, Cart>)
    requires i.status == Creating && i.cart.None?
    ensures CartFits(i, carts)
  {
  }

  /** A change of one intent and of the cart that is its own, which may be new. */
  predicate OwnCartChange(s: State, id: Id, j: Intent, carts: map<Id, Cart>) {
    && id in s.intents
    && (forall r :: r in s.carts ==> r in carts)
    && (forall r :: r in carts && Some(r) != j.cart ==> r in s.carts && carts[r] == s.carts[r])
    && (s.intents[id].cart.Some? ==> j.cart == s.intents[id].cart)
    && (j.cart.Some? ==> s.intents[id].cart == j.cart || j.cart.value !in s.carts)
  }

  lemma OthersHaveOtherCarts(s: State, id: Id, j: Intent, carts: map<Id, Cart>, a: Id)
    requires CartsFit(s) && CartsDistinct(s) && OwnCartChange(s, id, j, carts)
    requires a in s.intents && a != id
    ensures CartFits(s.intents[a], carts)
    ensures s.intents[a].cart.Some? ==> s.intents[a].cart != j.cart
  {
    assert CartFits(s.intents[a], s.carts);
    assert s.intents[a].cart.Some? ==> s.intents[a].cart != s.intents[id].cart;
  }

  /** The carts of the other intents still fit, and every cart still has one owner. */
  lemma OwnCartKeeps(s: State, id: Id, j: Intent, carts: map<Id, Cart>)
    requires CartsFit(s) && CartsDistinct(s) && CartsOwned(s) && OwnCartChange(s, id, j, carts)
    requires CartFits(j, carts)
    ensures
      var t := s.(intents := s.intents[id := j], carts := carts);
      CartsFit(t) && CartsDistinct(t) && CartsOwned(t)
  {
    var t := s.(intents := s.intents[id := j], carts := carts);
    OwnCartKeepsOwned(s, id, j, carts);
    hide CartFits, CartsOwned;
    forall a | a in t.intents && a != id
      ensures a in s.intents && t.intents[a] == s.intents[a] && CartFits(t.intents[a], t.carts)
      ensures t.intents[a].cart.Some? ==> t.intents[a].cart != j.cart
    {
      OthersHaveOtherCarts(s, id, j, carts, a);
    }
  }

  lemma OwnCartKeepsOwned(s: State, id: Id, j: Intent, carts: map<Id, Cart>)
    requires CartsOwned(s) && OwnCartChange(s, id, j, carts)
    ensures CartsOwned(s.(intents := s.intents[id := j], carts := carts))
  {
    var t := s.(intents := s.intents[id := j], carts := carts);
    forall r | r in t.carts ensures exists a :: a in t.intents && t.intents[a].cart == Some(r) {
      assert t.intents[id].cart == j.cart;
      if Some(r) != j.cart {
        var a :| a in s.intents && s.intents[a].cart == Some(r);
        assert a != id && t.intents[a].cart == Some(r);
      }
    }
  }

  lemma IntentFits(s: State, id: Id)
    requires CartsFit(s) && id in s.intents
    ensures CartFits(s.intents[id], s.carts)
  {
  }

  lemma SameIntents(s: State, carts: map<Id, Cart>, now: Instant)
    requires Listed(s) && KeysUnique(s) && OneLive(s, now)
    ensures Listed(s.(carts := carts)) && KeysUnique(s.(carts := carts)) && OneLive(s.(carts := carts), now)
  {
  }

  lemma ChangeKeepsInv(s: State, id: Id, j: Intent, carts: map<Id, Cart>, now: Instant)
    requires Inv(s, now) && OwnCartChange(s, id, j, carts) && Evolves(s.intents[id], j) && CartFits(j, carts)
    ensures Inv(s.(intents := s.intents[id := j], carts := carts), now)
  {
    hide KeysUnique, OneLive, CartsFit, CartsDistinct, CartsOwned, Listed, CartFits, Evolves;
    SetIntentKeeps(s, id, j, now);
    OwnCartKeeps(s, id, j, carts);
    SameIntents(SetIntent(s, id, j), carts, now);
  }

  lemma AttachChange(s: State, id: Id, owner: Owner, cartExpires: Instant, r: Id, now: Instant)
    requires id in s.intents && s.intents[id].status == Creating && s.intents[id].cart.None? && r !in s.carts
    ensures
      var j := s.intents[id].(cart := Some(r), status := Ready);
      var carts := s.carts[r := Cart(owner, CartReady, cartExpires, now)];
      OwnCartChange(s, id, j, carts) && Evolves(s.intents[id], j) && CartFits(j, carts)
  {
  }

  lemma AttachKeepsInv(s: State, id: Id, owner: Owner, cartExpires: Instant, r: Id, now: Instant)
    requires Inv(s, now) && CanAttach(s, id, owner) && r !in s.carts
    ensures Inv(Step(s, Attach(id, owner, cartExpires, r, false), now), now)
  {
    IntentFits(s, id);
    hide Inv;
    AttachChange(s, id, owner, cartExpires, r, now);
    hide OwnCartChange, Evolves, CartFits;
    ChangeKeepsInv(s, id, s.intents[id].(cart := Some(r), status := Ready),
                   s.carts[r := Cart(owner, CartReady, cartExpires, now)], now);
  }

  /** A change of status of an intent and of the cart it has. */
  lemma StatusKeepsInv(s: State, id: Id, status: Status, cartStatus: CartStatus, now: Instant)
    requires Inv(s, now) && id in s.intents
    requires (status == Started && cartStatus == CartStarted && CanStart(s, id))
          || (status == Failed && cartStatus == CartSuperseded)
    ensures Inv(WithCartStatus(SetIntent(s, id, s.intents[id].(status := status)), CartOf(s, id), cartStatus), now)
  {
    IntentFits(s, id);
    hide Inv;
    var j := s.intents[id].(status := status);
    var carts := if j.cart.Some? then s.carts[j.cart.value := s.carts[j.cart.value].(status := cartStatus)]
                 else s.carts;
    ChangeKeepsInv(s, id, j, carts, now);
  }

  lemma ResolveKeepsInv(s: State, id: Id, resolution: Status, now: Instant)
    requires Inv(s, now) && id in s.intents && Admissible(s, Resolve(id, resolution))
    ensures Inv(SetIntent(s, id, s.intents[id].(status := resolution)), now)
  {
    IntentFits(s, id);
    hide Inv;
    ChangeKeepsInv(s, id, s.intents[id].(status := resolution), s.carts, now);
  }

  /** Every call keeps, at the time of the call and so at every later time: keys are unique; a customer has at
      most one unexpired open intent; ready and started intents have a cart of the same status, and a failed
      one's cart is superseded; every cart is the cart of exactly one intent. */
  lemma StepKeepsInv(s: State, e: Event, now: Instant)
    requires Inv(s, now) && Admissible(s, e)
    ensures Inv(Step(s, e, now), now)
  {
    hide KeysUnique, OneLive, CartsFit, CartsDistinct, CartsOwned, Listed;
    match e
    case Create(key, expires, id) =>
      if CreateOutcome(s, key, id, now).Created? {
        AddKeepsKeys(s, key, expires, id, now);
        AddKeepsCarts(s, key, expires, id, now);
      }
    case Attach(id, owner, cartExpires, r, capacityFails) =>
      if !capacityFails && CanAttach(s, id, owner) {
        AttachKeepsInv(s, id, owner, cartExpires, r, now);
      }
    case Start(id) =>
      if CanStart(s, id) {
        StatusKeepsInv(s, id, Started, CartStarted, now);
      }
    case Fail(id) =>
      if id in s.intents {
        StatusKeepsInv(s, id, Failed, CartSuperseded, now);
      }
    case Resolve(id, resolution) =>
      if id in s.intents {
        ResolveKeepsInv(s, id, resolution, now);
      }
  }

  // ---------------------------------------------------------------------------
  // Runs
  // ---------------------------------------------------------------------------

  datatype Call = Call(e: Event, now: Instant)

  /** A run from `s` at time `now`: the clock never goes back, and drawn ids are new. */
  ghost predicate IsRun(s: State, now: Instant, calls: seq<Call>)
    requires Inv(s, now)
    decreases |calls|
  {
    if calls == [] then true
    else if calls[0].now < now || !Admissible(s, calls[0].e) then false
    else
      RunStep(s, now, calls[0]);
      IsRun(Step(s, calls[0].e, calls[0].now), calls[0].now, calls[1..])
  }

  lemma RunStep(s: State, now: Instant, c: Call)
    requires Inv(s, now) && c.now >= now && Admissible(s, c.e)
    ensures Inv(Step(s, c.e, c.now), c.now)
  {
    LaterInv(s, now, c.now);
    StepKeepsInv(s, c.e, c.now);
  }

  function EndTime(now: Instant, calls: seq<Call>): Instant {
    if calls == [] then now else calls[|calls| - 1].now
  }

  ghost function Run(s: State, now: Instant, calls: seq<Call>): State
    requires Inv(s, now) && IsRun(s, now, calls)
    decreases |calls|
  {
    if calls == [] then s
    else
      RunStep(s, now, calls[0]);
      Run(Step(s, calls[0].e, calls[0].now), calls[0].now, calls[1..])
  }

  /** Main result: the invariant holds in every reachable state, at the time of its last call. */
  lemma {:induction false} ReachableInv(s: State, now: Instant, calls: seq<Call>)
    requires Inv(s, now) && IsRun(s, now, calls)
    ensures Inv(Run(s, now, calls), EndTime(now, calls))
    decreases |calls|
  {
    hide KeysUnique, OneLive, CartsFit, CartsDistinct, CartsOwned, Listed, Step;
    if calls != [] {
      RunStep(s, now, calls[0]);
      ReachableInv(Step(s, calls[0].e, calls[0].now), calls[0].now, calls[1..]);
    }
  }

  lemma EmptyInv(now: Instant)
    ensures Inv(Empty, now)
  {
  }

  /** Nothing is forgotten by a call: intents stay and evolve, and a superseded cart stays superseded. */
  predicate Follows(s: State, t: State) {
    && (forall id :: id in s.intents ==> id in t.intents && Evolves(s.intents[id], t.intents[id]))
    && forall r :: r in s.carts && s.carts[r].status == CartSuperseded ==>
         r in t.carts && t.carts[r].status == CartSuperseded
  }

  lemma StepFollows(s: State, e: Event, now: Instant)
    requires Inv(s, now) && Admissible(s, e)
    ensures Follows(s, Step(s, e, now))
  {
    hide KeysUnique, OneLive, CartsDistinct, CartsOwned, CreateOutcome, Listed;
    match e
    case Start(id) =>
      if CanStart(s, id) {
        IntentFits(s, id);
      }
    case Attach(id, owner, cartExpires, r, capacityFails) =>
      if CanAttach(s, id, owner) {
        IntentFits(s, id);
      }
    case _ =>
  }

  lemma FollowsTrans(s: State, t: State, u: State)
    requires Follows(s, t) && Follows(t, u)
    ensures Follows(s, u)
  {
    forall id | id in s.intents ensures id in u.intents && Evolves(s.intents[id], u.intents[id]) {
      assert Evolves(s.intents[id], t.intents[id]);
    }
  }

  lemma {:induction false} RunFollows(s: State, now: Instant, calls: seq<Call>)
    requires Inv(s, now) && IsRun(s, now, calls)
    ensures Follows(s, Run(s, now, calls))
    decreases |calls|
  {
    hide KeysUnique, OneLive, CartsFit, CartsDistinct, CartsOwned, Listed, Step, Follows;
    if calls == [] {
      FollowsSelf(s);
    } else {
      var t := Step(s, calls[0].e, calls[0].now);
      RunStep(s, now, calls[0]);
      LaterInv(s, now, calls[0].now);
      StepFollows(s, calls[0].e, calls[0].now);
      RunFollows(t, calls[0].now, calls[1..]);
      FollowsTrans(s, t, Run(t, calls[0].now, calls[1..]));
    }
  }

  lemma FollowsSelf(s: State)
    ensures Follows(s, s)
  {
  }

  /** Main result: an intent that failed, was resolved or expired is never live again in any run. */
  lemma ClosedStaysClosed(s: State, now: Instant, calls: seq<Call>, id: Id)
    requires Inv(s, now) && IsRun(s, now, calls)
    requires id in s.intents && !IsLive(s.intents[id], now)
    ensures id in Run(s, now, calls).intents && !IsLive(Run(s, now, calls).intents[id], EndTime(now, calls))
  {
    hide Inv, IsRun, Run;
    RunFollows(s, now, calls);
    assert Evolves(s.intents[id], Run(s, now, calls).intents[id]);
    ClockRuns(s, now, calls);
  }

  lemma {:induction false} ClockRuns(s: State, now: Instant, calls: seq<Call>)
    requires Inv(s, now) && IsRun(s, now, calls)
    ensures now <= EndTime(now, calls)
    decreases |calls|
  {
    hide KeysUnique, OneLive, CartsFit, CartsDistinct, CartsOwned, Listed, Step;
    if calls != [] {
      RunStep(s, now, calls[0]);
      ClockRuns(Step(s, calls[0].e, calls[0].now), calls[0].now, calls[1..]);
    }
  }

  /** A customer whose unexpired intent is still open cannot begin another: whatever the run, a later creation
      under another key is answered "in progress" and changes nothing. */
  lemma OpenIntentBlocks(s: State, now: Instant, id: Id, key: Key, expires: Instant, drawn: Id)
    requires Inv(s, now) && id in s.intents && IsLive(s.intents[id], now) && s.intents[id].key.owner == key.owner
    requires drawn !in s.intents
    ensures Step(s, Create(key, expires, drawn), now) == s
    ensures (forall a :: a in s.intents ==> s.intents[a].key != key) ==> CreateOutcome(s, key, drawn, now) == InProgress
  {
    hide FindKey;
    assert HasProcessing(s, key.owner, now);
  }

  /** A key is used once: after it has created an intent, creating under it again, at any later point of any
      run, changes nothing and is answered as a status request for that intent. */
  lemma RetryCreatesNothing(s: State, now: Instant, calls: seq<Call>, id: Id, expires: Instant, drawn: Id,
                            later: Instant)
    requires Inv(s, now) && IsRun(s, now, calls) && id in s.intents && later >= EndTime(now, calls)
    ensures
      var t := Run(s, now, calls);
      var key := s.intents[id].key;
      && Inv(t, later) && id in t.intents
      && Step(t, Create(key, expires, drawn), later) == t
      && CreateOutcome(t, key, drawn, later) == OutcomeFor(t, id, later)
      && GetOutcome(t, key, later) == Some(OutcomeFor(t, id, later))
  {
    hide IsRun, Run, OutcomeFor, FindKey, OneLive, CartsFit, CartsDistinct, CartsOwned;
    ReachableInv(s, now, calls);
    RunFollows(s, now, calls);
    var t := Run(s, now, calls);
    LaterInv(t, EndTime(now, calls), later);
    assert Evolves(s.intents[id], t.intents[id]);
    FoundByKey(t, id);
    NotCreated(t, id, later);
  }

  lemma NotCreated(s: State, id: Id, now: Instant)
    requires id in s.intents
    ensures !OutcomeFor(s, id, now).Created?
  {
  }

  lemma FoundByKey(s: State, id: Id)
    requires Listed(s) && KeysUnique(s) && id in s.intents
    ensures FindKey(s.order, s.intents, s.intents[id].key) == Some(id)
  {
    hide FindKey;
    assert id in s.order;
  }

  /** The answer to a status request in terms of the intent and the expiry of its cart: expired when its time has
      passed; otherwise in progress while it is being created; ready, with its cart, when it is open, created and
      the cart's time has not passed; and failed in every other case. */
  predicate OutcomeMeans(i: Intent, carts: map<Id, Cart>, id: Id, now: Instant, o: Outcome) {
    && (o == ExpiredOutcome <==> i.expires <= now)
    && (o == InProgress <==> IsLive(i, now) && i.status == Creating)
    && (o.ReadyToBuy? <==> IsLive(i, now) && i.status != Creating && i.cart.Some? && i.cart.value in carts
                           && carts[i.cart.value].expires > now)
    && (o.ReadyToBuy? ==> o == ReadyToBuy(id, i.cart.value))
    && !o.Created?
  }

  /** What a status request answers, in a state the repository can reach: the cart's own status plays no part,
      because it always agrees with the intent's. */
  lemma OutcomeMeansStatus(s: State, now: Instant, id: Id)
    requires Inv(s, now) && id in s.intents
    ensures OutcomeMeans(s.intents[id], s.carts, id, now, OutcomeFor(s, id, now))
  {
    IntentFits(s, id);
  }

  lemma CreatesWhenFree(s: State, key: Key, expires: Instant, id: Id, now: Instant)
    requires Listed(s) && (forall a :: a in s.intents ==> s.intents[a].key != key) && !HasProcessing(s, key.owner, now)
    ensures Step(s, Create(key, expires, id), now) == Add(s, key, expires, id, now)
  {
    hide FindKey, HasProcessing;
    assert forall a :: a in s.order ==> a in s.intents;
  }

  /** A clock that goes back lets a customer have two live intents: the assumption on the clock is needed. */
  lemma ClockMustNotGoBack()
    ensures
      var ann := Owner("org", "ann");
      var s := Step(Empty, Create(Key(ann, "s", "k1"), 10, "a"), 0);
      && Inv(Empty, 0) && Inv(s, 11)
      && var t := Step(s, Create(Key(ann, "s", "k2"), 20, "b"), 11);
      && Inv(t, 11) && !OneLive(t, 5)
  {
    var ann := Owner("org", "ann");
    var k1, k2 := Key(ann, "s", "k1"), Key(ann, "s", "k2");
    EmptyInv(0);
    CreatesWhenFree(Empty, k1, 10, "a", 0);
    StepKeepsInv(Empty, Create(k1, 10, "a"), 0);
    hide Step, CartsFit, CartsDistinct, CartsOwned, KeysUnique;
    var s := Add(Empty, k1, 10, "a", 0);
    LaterInv(s, 0, 11);
    CreatesWhenFree(s, k2, 20, "b", 11);
    StepKeepsInv(s, Create(k2, 20, "b"), 11);
    TwoLive(Add(s, k2, 20, "b", 11), "a", "b", 5);
  }

  lemma TwoLive(t: State, a: Id, b: Id, now: Instant)
    requires a in t.intents && b in t.intents && a != b && t.intents[a].key.owner == t.intents[b].key.owner
    requires IsLive(t.intents[a], now) && IsLive(t.intents[b], now)
    ensures !OneLive(t, now)
  {
  }
}
