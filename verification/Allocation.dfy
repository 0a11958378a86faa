/** Allocation of places and money when a paid order of several class lines is finalized, and the last
    capacity check a checkout makes after its cart exists. */
module Allocation {
  import opened Wrappers
  import opened LineIdentity
  import opened Money

  datatype Reason = PaymentMismatch | OfferingMismatch | UpstreamInvalid | CorrelationInvalid

  datatype ClassConfig = ClassConfig(id: string, productGid: string, variantGid: string, capacity: int)

  datatype ActiveClass = ActiveClass(config: ClassConfig, festivalId: string)

  /** The active classes of the organization by id, and how many confirmed entitlements each has. */
  datatype World = World(active: map<string, ActiveClass>, confirmed: map<string, nat>)

  /** `attached`: a cart was attached before payment, so its places were admitted at checkout. */
  datatype Purchase = Purchase(
    amount: string, currency: string, festivalClassId: Option<string>, childId: Option<string>, attached: bool)

  datatype EnrichedLine = EnrichedLine(pair: Pair, config: ClassConfig, festivalId: string, placedBefore: nat)

  datatype Outcome = Rejected(reason: Reason) | Accepted(lines: seq<EnrichedLine>)

  datatype EntitlementInput = EntitlementInput(
    festivalId: string, festivalClassId: string, childId: string, intentLineId: string, orderLineId: string,
    paidCents: nat, paidCurrency: string, capacityAtAllocation: int, placedBefore: nat)

  predicate WellKeyed(w: World) {
    forall id :: id in w.active ==> w.active[id].config.id == id
  }

  function Confirmed(w: World, id: string): nat {
    if id in w.confirmed then w.confirmed[id] else 0
  }

  // ---------------------------------------------------------------------------
  // Payment
  // ---------------------------------------------------------------------------

  predicate PaidIn(o: OrderLine, currency: string) {
    o.paidCurrency == currency && MoneyInMinorUnits(o.paidAmount).Some?
  }

  predicate AllPaidIn(order: seq<OrderLine>, currency: string) {
    forall k :: 0 <= k < |order| ==> PaidIn(order[k], currency)
  }

  function PaidTotal(order: seq<OrderLine>, currency: string): nat
    requires AllPaidIn(order, currency)
  {
    if order == [] then 0
    else PaidTotal(order[..|order| - 1], currency) + MoneyInMinorUnits(order[|order| - 1].paidAmount).value
  }

  /** One currency throughout, and the lines add up to the amount of the intent. */
  predicate PaymentMatches(intent: Purchase, orderCurrency: string, order: seq<OrderLine>) {
    && orderCurrency == intent.currency
    && AllPaidIn(order, intent.currency)
    && MoneyInMinorUnits(intent.amount) == Some(PaidTotal(order, intent.currency))
  }

  method ValidateMultiLinePayment(intent: Purchase, orderCurrency: string, order: seq<OrderLine>) returns (ok: bool)
    ensures ok <==> PaymentMatches(intent, orderCurrency, order)
  {
    hide MoneyInMinorUnits;
    if orderCurrency != intent.currency {
      return false;
    }
    var total := 0;
    var k := 0;
    while k < |order|
      invariant 0 <= k <= |order| && AllPaidIn(order[..k], intent.currency)
      invariant total == PaidTotal(order[..k], intent.currency)
    {
      if order[k].paidCurrency != intent.currency {
        return false;
      }
      var minor := MoneyInMinorUnits(order[k].paidAmount);
      if minor.None? {
        return false;
      }
      assert order[..k + 1][..k] == order[..k];
      total := total + minor.value;
      k := k + 1;
    }
    assert order[..k] == order;
    var expected := MoneyInMinorUnits(intent.amount);
    ok := expected.Some? && total == expected.value;
  }

  // ---------------------------------------------------------------------------
  // Offerings and places
  // ---------------------------------------------------------------------------

  /** The class a line is for: its own, or else the intent's; an empty id is none. */
  function TargetClass(intent: Purchase, line: IntentLine): Option<string> {
    var t := if line.festivalClassId.Some? then line.festivalClassId else intent.festivalClassId;
    if t == Some("") then None else t
  }

  predicate SameOffering(w: World, id: string, line: IntentLine) {
    && id in w.active
    && w.active[id].festivalId != ""
    && w.active[id].config.productGid == line.productGid
    && w.active[id].config.variantGid == line.variantGid
  }

  /** What is wrong with a line apart from capacity. */
  function OfferingFault(w: World, intent: Purchase, p: Pair): Option<Reason> {
    var o, line := p.orderLine, p.intentLine;
    if o.quantity != 1 || o.productGid != line.productGid || o.variantGid != line.variantGid then Some(OfferingMismatch)
    else if TargetClass(intent, line).None? then Some(UpstreamInvalid)
    else if !SameOffering(w, TargetClass(intent, line).value, line) then Some(OfferingMismatch)
    else None
  }

  predicate IsOf(intent: Purchase, p: Pair, id: string) {
    TargetClass(intent, p.intentLine) == Some(id)
  }

  /** How many of the lines are for a class. */
  function LinesOf(intent: Purchase, pairs: seq<Pair>, id: string): nat {
    if pairs == [] then 0
    else LinesOf(intent, pairs[..|pairs| - 1], id) + if IsOf(intent, pairs[|pairs| - 1], id) then 1 else 0
  }

  /** Places taken in a class before line `k`: the confirmed ones and those of the earlier lines. */
  function PlacedBefore(w: World, intent: Purchase, pairs: seq<Pair>, k: nat, id: string): nat
    requires k <= |pairs|
  {
    Confirmed(w, id) + LinesOf(intent, pairs[..k], id)
  }

  function Fault(w: World, intent: Purchase, pairs: seq<Pair>, k: nat): Option<Reason>
    requires k < |pairs|
  {
    var f := OfferingFault(w, intent, pairs[k]);
    if f.Some? then f
    else
      var id := TargetClass(intent, pairs[k].intentLine).value;
      if !intent.attached && PlacedBefore(w, intent, pairs, k, id) >= w.active[id].config.capacity
      then Some(CorrelationInvalid) else None
  }

  predicate Faultless(w: World, intent: Purchase, pairs: seq<Pair>, n: nat)
    requires n <= |pairs|
  {
    forall k :: 0 <= k < n ==> Fault(w, intent, pairs, k).None?
  }

  predicate FirstFaultAt(w: World, intent: Purchase, pairs: seq<Pair>, k: nat, reason: Reason) {
    k < |pairs| && Faultless(w, intent, pairs, k) && Fault(w, intent, pairs, k) == Some(reason)
  }

  /** Line `k` as allocated: its class, and the places taken before it. */
  predicate AllocatedLine(w: World, intent: Purchase, pairs: seq<Pair>, k: nat, e: EnrichedLine)
    requires k < |pairs|
  {
    && e.pair == pairs[k]
    && IsOf(intent, pairs[k], e.config.id)
    && e.config.id in w.active
    && w.active[e.config.id] == ActiveClass(e.config, e.festivalId)
    && e.placedBefore == PlacedBefore(w, intent, pairs, k, e.config.id)
  }

  predicate Allocated(w: World, intent: Purchase, pairs: seq<Pair>, lines: seq<EnrichedLine>) {
    && |lines| == |pairs|
    && forall k :: 0 <= k < |pairs| ==> AllocatedLine(w, intent, pairs, k, lines[k])
  }

  /** The cache of counts after `k` lines. */
  ghost predicate CacheAt(w: World, intent: Purchase, pairs: seq<Pair>, k: nat, cache: map<string, nat>)
    requires k <= |pairs|
  {
    forall id :: if id in cache then cache[id] == PlacedBefore(w, intent, pairs, k, id)
                 else LinesOf(intent, pairs[..k], id) == 0
  }

  lemma CacheStep(w: World, intent: Purchase, pairs: seq<Pair>, k: nat, cache: map<string, nat>, id: string)
    requires k < |pairs| && CacheAt(w, intent, pairs, k, cache) && IsOf(intent, pairs[k], id)
    ensures CacheAt(w, intent, pairs, k + 1, cache[id := PlacedBefore(w, intent, pairs, k, id) + 1])
  {
    hide Confirmed, TargetClass;
    assert pairs[..k + 1][..k] == pairs[..k];
  }

  /** Payment first, then the lines in order; the first line at fault decides the reason. Accepted lines carry
      the number of places taken before each. */
  method ValidateMultiLineClassPurchase(w: World, intent: Purchase, orderCurrency: string, order: seq<OrderLine>,
                                        pairs: seq<Pair>)
    returns (r: Outcome)
    requires WellKeyed(w)
    ensures !PaymentMatches(intent, orderCurrency, order) ==> r == Rejected(PaymentMismatch)
    ensures r.Accepted? <==>
              PaymentMatches(intent, orderCurrency, order) && |pairs| > 0 && Faultless(w, intent, pairs, |pairs|)
    ensures r.Rejected? && PaymentMatches(intent, orderCurrency, order) ==>
              if |pairs| == 0 then r.reason == UpstreamInvalid
              else exists k :: FirstFaultAt(w, intent, pairs, k, r.reason)
    ensures r.Accepted? ==> Allocated(w, intent, pairs, r.lines)
  {
    hide PaymentMatches, CacheAt, LinesOf, TargetClass, Confirmed, MoneyInMinorUnits;
    var paid := ValidateMultiLinePayment(intent, orderCurrency, order);
    if !paid {
      return Rejected(PaymentMismatch);
    }
    var placedCountCache: map<string, nat> := map[];
    var enriched: seq<EnrichedLine> := [];
    var k := 0;
    EmptyCache(w, intent, pairs);
    while k < |pairs|
      invariant 0 <= k <= |pairs| == |pairs| && |enriched| == k
      invariant Faultless(w, intent, pairs, k)
      invariant CacheAt(w, intent, pairs, k, placedCountCache)
      invariant forall j :: 0 <= j < k ==> AllocatedLine(w, intent, pairs, j, enriched[j])
    {
      var line, orderLine := pairs[k].intentLine, pairs[k].orderLine;
      if orderLine.quantity != 1 || orderLine.productGid != line.productGid || orderLine.variantGid != line.variantGid {
        assert FirstFaultAt(w, intent, pairs, k, OfferingMismatch);
        return Rejected(OfferingMismatch);
      }
      var target := TargetClass(intent, line);
      if target.None? {
        assert FirstFaultAt(w, intent, pairs, k, UpstreamInvalid);
        return Rejected(UpstreamInvalid);
      }
      if !SameOffering(w, target.value, line) {
        assert FirstFaultAt(w, intent, pairs, k, OfferingMismatch);
        return Rejected(OfferingMismatch);
      }
      var config, festivalId := w.active[target.value].config, w.active[target.value].festivalId;
      var placed := if config.id in placedCountCache then placedCountCache[config.id] else Confirmed(w, config.id);
      CacheTells(w, intent, pairs, k, placedCountCache, config.id);
      if placed >= config.capacity && !intent.attached {
        assert FirstFaultAt(w, intent, pairs, k, CorrelationInvalid);
        return Rejected(CorrelationInvalid);
      }
      CacheStep(w, intent, pairs, k, placedCountCache, config.id);
      placedCountCache := placedCountCache[config.id := placed + 1];
      enriched := enriched + [EnrichedLine(pairs[k], config, festivalId, placed)];
      k := k + 1;
    }
    if |enriched| == 0 {
      return Rejected(UpstreamInvalid);
    }
    return Accepted(enriched);
  }

  lemma EmptyCache(w: World, intent: Purchase, pairs: seq<Pair>)
    ensures CacheAt(w, intent, pairs, 0, map[])
  {
  }

  lemma CacheTells(w: World, intent: Purchase, pairs: seq<Pair>, k: nat, cache: map<string, nat>, id: string)
    requires k <= |pairs| && CacheAt(w, intent, pairs, k, cache)
    ensures PlacedBefore(w, intent, pairs, k, id) == if id in cache then cache[id] else Confirmed(w, id)
  {
    hide LinesOf, Confirmed;
  }

  // ---------------------------------------------------------------------------
  // Capacity
  // ---------------------------------------------------------------------------

  lemma {:induction false} CountGrows(intent: Purchase, pairs: seq<Pair>, j: nat, k: nat, id: string)
    requires j <= k <= |pairs|
    ensures LinesOf(intent, pairs[..j], id) <= LinesOf(intent, pairs[..k], id)
    ensures j < k && IsOf(intent, pairs[j], id) ==> LinesOf(intent, pairs[..j], id) < LinesOf(intent, pairs[..k], id)
    decreases k
  {
    hide IsOf;
    if j < k {
      CountGrows(intent, pairs, j, k - 1, id);
      assert pairs[..k][..k - 1] == pairs[..k - 1];
    }
  }

  /** The line with exactly `j` lines of its class before it. */
  lemma {:induction false} NthLine(intent: Purchase, pairs: seq<Pair>, id: string, j: nat) returns (k: nat)
    requires j < LinesOf(intent, pairs, id)
    ensures k < |pairs| && IsOf(intent, pairs[k], id) && LinesOf(intent, pairs[..k], id) == j
    decreases |pairs|
  {
    hide IsOf;
    var n := |pairs| - 1;
    if j < LinesOf(intent, pairs[..n], id) {
      k := NthLine(intent, pairs[..n], id, j);
      assert pairs[..n][..k] == pairs[..k];
    } else {
      k := n;
    }
  }

  /** In every class a line is for, the confirmed places and the lines of the order fit. */
  predicate Fits(w: World, intent: Purchase, pairs: seq<Pair>) {
    forall id :: id in w.active && LinesOf(intent, pairs, id) > 0 ==>
      Confirmed(w, id) + LinesOf(intent, pairs, id) <= w.active[id].config.capacity
  }

  /** Without an attached cart, an order of well-formed lines is accepted exactly when every class has room
      for all of its lines: the line-by-line count refuses nothing that fits and lets nothing pass that does not. */
  lemma AcceptedExactlyWithinCapacity(w: World, intent: Purchase, pairs: seq<Pair>)
    requires !intent.attached
    requires forall k :: 0 <= k < |pairs| ==> OfferingFault(w, intent, pairs[k]).None?
    ensures Faultless(w, intent, pairs, |pairs|) <==> Fits(w, intent, pairs)
  {
    if Faultless(w, intent, pairs, |pairs|) {
      forall id | id in w.active && LinesOf(intent, pairs, id) > 0
        ensures Confirmed(w, id) + LinesOf(intent, pairs, id) <= w.active[id].config.capacity
      {
        hide LinesOf, OfferingFault;
        var k := NthLine(intent, pairs, id, LinesOf(intent, pairs, id) - 1);
        assert Fault(w, intent, pairs, k).None?;
      }
    }
    if Fits(w, intent, pairs) {
      forall k | 0 <= k < |pairs| ensures Fault(w, intent, pairs, k).None? {
        hide LinesOf;
        var id := TargetClass(intent, pairs[k].intentLine).value;
        assert OfferingFault(w, intent, pairs[k]).None?;
        CountGrows(intent, pairs, k, |pairs|, id);
        assert pairs[..|pairs|] == pairs;
      }
    }
  }

  /** With an attached cart capacity plays no part. */
  lemma AttachedIgnoresCapacity(w: World, intent: Purchase, pairs: seq<Pair>)
    requires intent.attached
    ensures Faultless(w, intent, pairs, |pairs|)
       <==> forall k :: 0 <= k < |pairs| ==> OfferingFault(w, intent, pairs[k]).None?
  {
    hide OfferingFault;
    assert forall k :: 0 <= k < |pairs| ==> Fault(w, intent, pairs, k) == OfferingFault(w, intent, pairs[k]);
  }

  /** The recorded counts of a class are consecutive from its confirmed count: each of the numbers
      confirmed, confirmed + 1, … is recorded on exactly one of its lines, and no other is. */
  lemma PlacedCountsAreConsecutive(w: World, intent: Purchase, pairs: seq<Pair>, lines: seq<EnrichedLine>,
                                   id: string, n: nat)
    requires Allocated(w, intent, pairs, lines)
    ensures (exists k :: 0 <= k < |lines| && lines[k].config.id == id && lines[k].placedBefore == n)
       <==> Confirmed(w, id) <= n < Confirmed(w, id) + LinesOf(intent, pairs, id)
    ensures forall j, k :: 0 <= j < k < |lines| && lines[j].config.id == lines[k].config.id ==>
              lines[j].placedBefore < lines[k].placedBefore
  {
    hide LinesOf, Confirmed, TargetClass;
    assert pairs[..|pairs|] == pairs;
    if Confirmed(w, id) <= n < Confirmed(w, id) + LinesOf(intent, pairs, id) {
      var k := NthLine(intent, pairs, id, n - Confirmed(w, id));
      assert AllocatedLine(w, intent, pairs, k, lines[k]);
    }
    forall k | 0 <= k < |lines| && lines[k].config.id == id && lines[k].placedBefore == n
      ensures Confirmed(w, id) <= n < Confirmed(w, id) + LinesOf(intent, pairs, id)
    {
      assert AllocatedLine(w, intent, pairs, k, lines[k]);
      CountGrows(intent, pairs, k, |pairs|, id);
    }
    forall j, k | 0 <= j < k < |lines| && lines[j].config.id == lines[k].config.id
      ensures lines[j].placedBefore < lines[k].placedBefore
    {
      assert AllocatedLine(w, intent, pairs, j, lines[j]) && AllocatedLine(w, intent, pairs, k, lines[k]);
      CountGrows(intent, pairs, j, k, lines[j].config.id);
    }
  }

  // ---------------------------------------------------------------------------
  // What is handed to finalization
  // ---------------------------------------------------------------------------

  function EntitlementInputOf(intent: Purchase, e: EnrichedLine): EntitlementInput {
    var line, o := e.pair.intentLine, e.pair.orderLine;
    var minor := MoneyInMinorUnits(o.paidAmount);
    EntitlementInput(
      e.festivalId,
      if line.festivalClassId.Some? then line.festivalClassId.value else e.config.id,
      if line.childId.Some? then line.childId.value else if intent.childId.Some? then intent.childId.value else "",
      line.id, o.id,
      if minor.Some? then minor.value else 0,
      o.paidCurrency, e.config.capacity, e.placedBefore)
  }

  function EntitlementInputs(intent: Purchase, lines: seq<EnrichedLine>): seq<EntitlementInput> {
    seq(|lines|, k requires 0 <= k < |lines| => EntitlementInputOf(intent, lines[k]))
  }

  function CentsOf(es: seq<EntitlementInput>): nat {
    if es == [] then 0 else CentsOf(es[..|es| - 1]) + es[|es| - 1].paidCents
  }

  lemma {:induction false} CentsArePaid(intent: Purchase, lines: seq<EnrichedLine>, order: seq<OrderLine>,
                                        currency: string)
    requires |lines| == |order| && AllPaidIn(order, currency)
    requires forall k :: 0 <= k < |order| ==> lines[k].pair.orderLine == order[k]
    ensures CentsOf(EntitlementInputs(intent, lines)) == PaidTotal(order, currency)
    decreases |order|
  {
    hide MoneyInMinorUnits;
    if order != [] {
      var n := |order| - 1;
      CentsArePaid(intent, lines[..n], order[..n], currency);
      assert EntitlementInputs(intent, lines)[..n] == EntitlementInputs(intent, lines[..n]);
    }
  }

  /** Money is conserved from checkout to entitlement: when the intent's amount is the total printed for its
      prices, the paid cents of the entitlements of an accepted order add up to the sum of the prices. */
  lemma EntitlementCentsAreThePrices(w: World, intent: Purchase, orderCurrency: string, order: seq<OrderLine>,
                                     stored: seq<IntentLine>, pairs: seq<Pair>, lines: seq<EnrichedLine>,
                                     prices: seq<string>)
    requires forall i :: 0 <= i < |prices| ==> Cents(prices[i]).Some?
    requires intent.amount == PrintCents(Total(prices))
    requires PaymentMatches(intent, orderCurrency, order)
    requires Paired(stored, order, pairs) && Allocated(w, intent, pairs, lines)
    ensures CentsOf(EntitlementInputs(intent, lines)) == Total(prices)
  {
    hide MoneyInMinorUnits, PrintCents, EntitlementInputs, IdentityOf;
    PrintedParses(Total(prices));
    forall k | 0 <= k < |order| ensures lines[k].pair.orderLine == order[k] {
      assert AllocatedLine(w, intent, pairs, k, lines[k]);
    }
    CentsArePaid(intent, lines, order, intent.currency);
  }

  /** One entitlement for every line of the intent: each line id is on exactly one of them, and each is for the
      class its line names. */
  lemma OneEntitlementPerLine(w: World, intent: Purchase, stored: seq<IntentLine>, order: seq<OrderLine>,
                              pairs: seq<Pair>, lines: seq<EnrichedLine>, i: nat)
    requires Correlates(stored, order) && Paired(stored, order, pairs) && Allocated(w, intent, pairs, lines)
    requires i < |stored|
    ensures
      var es := EntitlementInputs(intent, lines);
      && (exists k :: 0 <= k < |es| && es[k].intentLineId == stored[i].id)
      && (forall j, k :: 0 <= j < k < |es| ==> es[j].intentLineId != es[k].intentLineId)
      && (forall k :: 0 <= k < |es| ==> TargetClass(intent, pairs[k].intentLine) == Some(es[k].festivalClassId))
  {
    hide IdentityOf, MoneyInMinorUnits, WellNamed, Names;
    CorrelationIsOneToOne(stored, order);
    var es := EntitlementInputs(intent, lines);
    forall k | 0 <= k < |es|
      ensures IdentityOf(order[k]) == Some(es[k].intentLineId)
      ensures TargetClass(intent, pairs[k].intentLine) == Some(es[k].festivalClassId)
    {
      assert AllocatedLine(w, intent, pairs, k, lines[k]);
    }
    var k :| 0 <= k < |order| && IdentityOf(order[k]) == Some(stored[i].id);
    assert es[k].intentLineId == stored[i].id;
  }
}
