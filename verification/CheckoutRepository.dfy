/** The in-memory checkout repository: each method is one step of module CheckoutIntents. The clock reading and
    the random id a call uses are its parameters. */
module CheckoutRepository {
  import opened Wrappers
  import opened CheckoutIntents

  lemma KeepsInv(s: State, e: Event, now: Instant)
    requires Listed(s)
    ensures Inv(s, now) && Admissible(s, e) ==> Inv(Step(s, e, now), now)
  {
    hide Inv, Step, Admissible;
    if Inv(s, now) && Admissible(s, e) {
      StepKeepsInv(s, e, now);
    }
  }

  class InMemoryCheckoutRepository {
    var order: seq<Id>
    var intents: map<Id, Intent>
    var carts: map<Id, Cart>

    ghost function View(): State
      reads this
    {
      State(order, intents, carts)
    }

    constructor ()
      ensures View() == Empty
    {
      order, intents, carts := [], map[], map[];
    }

    method FindByKey(key: Key) returns (found: Option<Id>)
      requires Listed(View())
      ensures found == FindKey(order, intents, key)
    {
      var i := 0;
      assert order[0..] == order;
      while i < |order|
        invariant 0 <= i <= |order|
        invariant FindKey(order, intents, key) == FindKey(order[i..], intents, key)
      {
        if intents[order[i]].key == key {
          return Some(order[i]);
        }
        assert order[i..][1..] == order[i + 1..];
        i := i + 1;
      }
      return None;
    }

    method OutcomeOf(id: Id, now: Instant) returns (o: Outcome)
      requires id in intents
      ensures o == OutcomeFor(View(), id, now)
      ensures Inv(View(), now) ==> OutcomeMeans(intents[id], carts, id, now, o)
    {
      if Inv(View(), now) {
        OutcomeMeansStatus(View(), now, id);
      }
      var intent := intents[id];
      if intent.expires <= now {
        return ExpiredOutcome;
      }
      if intent.status == Creating {
        return InProgress;
      }
      if intent.status == Failed {
        return FailedOutcome;
      }
      if intent.cart.Some? && intent.cart.value in carts {
        var cart := carts[intent.cart.value];
        if (intent.status == Ready || intent.status == Started)
           && cart.expires > now && cart.status != CartExpired && cart.status != CartSuperseded {
          return ReadyToBuy(id, intent.cart.value);
        }
      }
      return FailedOutcome;
    }

    method OutcomeByKey(key: Key, now: Instant) returns (o: Option<Outcome>)
      requires Listed(View())
      ensures o == GetOutcome(View(), key, now)
      ensures Inv(View(), now) ==>
                if o.Some? then exists id :: id in intents && intents[id].key == key
                                             && OutcomeMeans(intents[id], carts, id, now, o.value)
                else forall id :: id in intents ==> intents[id].key != key
    {
      hide OutcomeMeans, OutcomeFor;
      var found := FindByKey(key);
      if found.None? {
        return None;
      }
      var outcome := OutcomeOf(found.value, now);
      return Some(outcome);
    }

    method HasProcessingIntent(owner: Owner, now: Instant) returns (b: bool)
      requires Listed(View())
      ensures b <==> HasProcessing(View(), owner, now)
    {
      hide IsLive;
      var i := 0;
      while i < |order|
        invariant 0 <= i <= |order|
        invariant forall k :: 0 <= k < i ==> intents[order[k]].key.owner != owner || !IsLive(intents[order[k]], now)
      {
        if intents[order[i]].key.owner == owner && IsLive(intents[order[i]], now) {
          return true;
        }
        i := i + 1;
      }
      return false;
    }

    /** Creates under a new key when the customer has nothing in progress, and otherwise says what there is. */
    method CreateIntent(key: Key, expires: Instant, drawn: Id, now: Instant) returns (o: Outcome)
      requires Listed(View()) && drawn !in intents
      modifies this
      ensures o == old(CreateOutcome(View(), key, drawn, now))
      ensures View() == old(Step(View(), Create(key, expires, drawn), now))
      ensures old(Inv(View(), now)) ==> Inv(View(), now)
    {
      ghost var was := View();
      KeepsInv(was, Create(key, expires, drawn), now);
      hide FindKey, HasProcessing, Inv;
      var found := FindByKey(key);
      if found.Some? {
        NotCreated(View(), found.value, now);
        o := OutcomeOf(found.value, now);
        return;
      }
      var busy := HasProcessingIntent(key.owner, now);
      if busy {
        return InProgress;
      }
      intents := intents[drawn := Intent(key, Creating, None, expires, now)];
      order := order + [drawn];
      return Created(drawn);
    }

    /** Throws (answers None) when the capacity check fails or the intent is not one being created for this
        organization; otherwise stores the cart and makes the intent ready. */
    method AttachCart(id: Id, owner: Owner, cartExpires: Instant, drawn: Id, capacityFails: bool, now: Instant)
      returns (cart: Option<Id>)
      requires Listed(View()) && drawn !in carts
      modifies this
      ensures cart == if capacityFails || !old(CanAttach(View(), id, owner)) then None else Some(drawn)
      ensures View() == old(Step(View(), Attach(id, owner, cartExpires, drawn, capacityFails), now))
      ensures cart.Some? ==>
                && id in intents && intents[id].status == Ready && intents[id].cart == Some(drawn)
                && drawn in carts && carts[drawn].status == CartReady && carts[drawn].owner == owner
      ensures cart.None? ==> View() == old(View())
      ensures old(Inv(View(), now)) ==> Inv(View(), now)
    {
      KeepsInv(View(), Attach(id, owner, cartExpires, drawn, capacityFails), now);
      hide Inv;
      if capacityFails {
        return None;
      }
      if id !in intents || intents[id].key.owner.organizationId != owner.organizationId
         || intents[id].status != Creating {
        return None;
      }
      carts := carts[drawn := Cart(owner, CartReady, cartExpires, now)];
      intents := intents[id := intents[id].(cart := Some(drawn))];
      intents := intents[id := intents[id].(status := Ready)];
      return Some(drawn);
    }

    /** Throws (answers false) unless the intent is ready or already started. */
    method MarkCheckoutStarted(id: Id, now: Instant) returns (ok: bool)
      requires Listed(View())
      modifies this
      ensures ok == old(CanStart(View(), id))
      ensures View() == old(Step(View(), Start(id), now))
      ensures ok ==> id in intents && intents[id].status == Started
      ensures !ok ==> View() == old(View())
      ensures old(Inv(View(), now)) ==> Inv(View(), now)
    {
      KeepsInv(View(), Start(id), now);
      hide Inv;
      if id !in intents || (intents[id].status != Ready && intents[id].status != Started) {
        return false;
      }
      intents := intents[id := intents[id].(status := Started)];
      var r := intents[id].cart;
      if r.Some? && r.value in carts {
        carts := carts[r.value := carts[r.value].(status := CartStarted)];
      }
      return true;
    }

    method MarkFailed(id: Id, now: Instant)
      requires Listed(View())
      modifies this
      ensures View() == old(Step(View(), Fail(id), now))
      ensures id in intents ==>
                && intents[id].status == Failed && !IsLive(intents[id], now)
                && (intents[id].cart.Some? && intents[id].cart.value in carts ==>
                      carts[intents[id].cart.value].status == CartSuperseded)
      ensures id !in intents ==> View() == old(View())
      ensures old(Inv(View(), now)) ==> Inv(View(), now)
    {
      KeepsInv(View(), Fail(id), now);
      hide Inv;
      if id !in intents {
        return;
      }
      intents := intents[id := intents[id].(status := Failed)];
      var r := intents[id].cart;
      if r.Some? && r.value in carts {
        carts := carts[r.value := carts[r.value].(status := CartSuperseded)];
      }
    }

    method ResolveIntent(id: Id, resolution: Status, now: Instant)
      requires Listed(View())
      modifies this
      ensures View() == old(Step(View(), Resolve(id, resolution), now))
      ensures old(Inv(View(), now)) && Admissible(View(), Resolve(id, resolution)) ==> Inv(View(), now)
    {
      KeepsInv(View(), Resolve(id, resolution), now);
      hide Inv;
      if id in intents {
        intents := intents[id := intents[id].(status := resolution)];
      }
    }
  }
}
