/** What each checkout call leaves of intents and carts, field by field, and which outcome an intent has. */
module CheckoutEffects {
  import opened CheckoutIntents
  import opened Wrappers

  ghost predicate KeyTaken(s: State, key: Key) {
    exists a :: a in s.intents && s.intents[a].key == key
  }

  /** The customer has an unexpired intent that is being created, is ready or has started. */
  ghost predicate CustomerBusy(s: State, owner: Owner, now: Instant) {
    exists a :: a in s.intents && s.intents[a].key.owner == owner && s.intents[a].expires > now
      && (s.intents[a].status == Creating || s.intents[a].status == Ready || s.intents[a].status == Started)
  }

  /** The outcome of an intent: expired once its time is over; then in progress while it is being created, ready to
      buy while it is ready or started with a cart that is neither expired nor superseded, and failed otherwise. */
  ghost predicate HasOutcome(s: State, a: Id, now: Instant, o: Outcome)
    requires a in s.intents
  {
    var i := s.intents[a];
    var open := (i.status == Ready || i.status == Started) && i.cart.Some? && i.cart.value in s.carts
                && s.carts[i.cart.value].expires > now
                && (s.carts[i.cart.value].status == CartReady || s.carts[i.cart.value].status == CartStarted);
    && (i.expires <= now ==> o == ExpiredOutcome)
    && (i.expires > now && i.status == Creating ==> o == InProgress)
    && (i.expires > now && open ==> o == ReadyToBuy(a, i.cart.value))
    && (i.expires > now && i.status != Creating && !open ==> o == FailedOutcome)
  }

  lemma OutcomeExactly(s: State, a: Id, now: Instant)
    requires a in s.intents
    ensures HasOutcome(s, a, now, OutcomeFor(s, a, now))
  {
  }

  lemma TakenExactly(s: State, key: Key)
    requires Listed(s)
    ensures KeyTaken(s, key) <==> FindKey(s.order, s.intents, key).Some?
  {
  }

  lemma BusyExactly(s: State, owner: Owner, now: Instant)
    ensures CustomerBusy(s, owner, now) <==> HasProcessing(s, owner, now)
  {
  }

  /** A request creates an intent exactly when its key is new and its customer is not busy; with a key taken it gets
      that intent's outcome, and otherwise it is told that one is in progress. */
  lemma CreatesExactly(s: State, key: Key, expires: Instant, id: Id, now: Instant)
    requires Inv(s, now) && id !in s.intents
    ensures
      var t, o := Step(s, Create(key, expires, id), now), CreateOutcome(s, key, id, now);
      if !KeyTaken(s, key) && !CustomerBusy(s, key.owner, now) then
        && o == Created(id)
        && t.order == s.order + [id] && t.carts == s.carts
        && t.intents == s.intents[id := Intent(key, Creating, None, expires, now)]
      else
        && t == s
        && (!KeyTaken(s, key) ==> o == InProgress)
        && forall a :: a in s.intents && s.intents[a].key == key ==> HasOutcome(s, a, now, o)
  {
    TakenExactly(s, key);
    BusyExactly(s, key.owner, now);
    hide KeyTaken, CustomerBusy, HasProcessing, OneLive, CartsFit, CartsDistinct, CartsOwned, HasOutcome;
    var existing := FindKey(s.order, s.intents, key);
    if existing.Some? {
      OutcomeExactly(s, existing.value, now);
      hide OutcomeFor;
      forall a | a in s.intents && s.intents[a].key == key
        ensures HasOutcome(s, a, now, CreateOutcome(s, key, id, now))
      {
        assert a == existing.value;
      }
    }
  }

  /** Only intent `a` differs, and of it only its status and its cart. */
  ghost predicate Updates(s: State, t: State, a: Id, status: Status, cart: Option<Id>) {
    && t.order == s.order && t.intents.Keys == s.intents.Keys && a in s.intents
    && t.intents[a].status == status && t.intents[a].cart == cart
    && t.intents[a].key == s.intents[a].key && t.intents[a].expires == s.intents[a].expires
    && t.intents[a].created == s.intents[a].created
    && forall b :: b in s.intents && b != a ==> t.intents[b] == s.intents[b]
  }

  /** Only the cart of intent `a` differs, if it is stored, and of it only its status. */
  ghost predicate Marks(s: State, t: State, a: Id, status: CartStatus)
    requires a in s.intents
  {
    && t.carts.Keys == s.carts.Keys
    && forall r :: r in s.carts ==>
         && t.carts[r].owner == s.carts[r].owner && t.carts[r].expires == s.carts[r].expires
         && t.carts[r].created == s.carts[r].created
         && t.carts[r].status == if s.intents[a].cart == Some(r) then status else s.carts[r].status
  }

  /** A cart is attached exactly to an intent of the organization that is being created, unless capacity has run out:
      the intent is then ready with that cart, and the cart carries the owner, the expiry and the clock. */
  lemma AttachesExactly(s: State, a: Id, owner: Owner, cartExpires: Instant, r: Id, capacityFails: bool, now: Instant)
    requires Inv(s, now) && r !in s.carts
    ensures
      var t := Step(s, Attach(a, owner, cartExpires, r, capacityFails), now);
      if !capacityFails && a in s.intents && s.intents[a].key.owner.organizationId == owner.organizationId
         && s.intents[a].status == Creating then
        && Updates(s, t, a, Ready, Some(r))
        && t.carts == s.carts[r := Cart(owner, CartReady, cartExpires, now)]
      else t == s
  {
    hide Inv;
  }

  /** A checkout starts exactly when its intent is ready or has started; intent and cart are then started. */
  lemma StartsExactly(s: State, a: Id, now: Instant)
    requires Inv(s, now)
    ensures
      var t := Step(s, Start(a), now);
      if a in s.intents && (s.intents[a].status == Ready || s.intents[a].status == Started) then
        Updates(s, t, a, Started, s.intents[a].cart) && Marks(s, t, a, CartStarted)
      else t == s
  {
    hide Inv;
  }

  /** A known intent fails, and its cart is superseded. */
  lemma FailsExactly(s: State, a: Id, now: Instant)
    requires Inv(s, now)
    ensures
      var t := Step(s, Fail(a), now);
      if a in s.intents then
        Updates(s, t, a, Failed, s.intents[a].cart) && Marks(s, t, a, CartSuperseded)
      else t == s
  {
    hide Inv;
  }

  /** A known intent takes the status of its resolution; carts stay as they are. */
  lemma ResolvesExactly(s: State, a: Id, resolution: Status, now: Instant)
    requires Inv(s, now)
    ensures
      var t := Step(s, Resolve(a, resolution), now);
      if a in s.intents then Updates(s, t, a, resolution, s.intents[a].cart) && t.carts == s.carts
      else t == s
  {
    hide Inv;
  }

  /** Asking by key answers with the outcome of the intent that has it, and with nothing if none has. */
  lemma AnswersByKey(s: State, key: Key, now: Instant)
    requires Inv(s, now)
    ensures GetOutcome(s, key, now).Some? <==> KeyTaken(s, key)
    ensures forall a :: a in s.intents && s.intents[a].key == key ==>
              GetOutcome(s, key, now).Some? && HasOutcome(s, a, now, GetOutcome(s, key, now).value)
  {
    TakenExactly(s, key);
    hide KeyTaken, OneLive, CartsFit, CartsDistinct, CartsOwned, HasOutcome;
    var existing := FindKey(s.order, s.intents, key);
    if existing.Some? {
      OutcomeExactly(s, existing.value, now);
      hide OutcomeFor;
      forall a | a in s.intents && s.intents[a].key == key
        ensures GetOutcome(s, key, now).Some? && HasOutcome(s, a, now, GetOutcome(s, key, now).value)
      {
        assert a == existing.value;
      }
    }
  }
}
