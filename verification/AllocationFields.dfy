/** What each entitlement of an accepted order says, field by field, against the stored lines, the paid order and the
    active classes; and, joined with the identity of lines, for which child and class of the cart it is. */
module AllocationFields {
  import opened Wrappers
  import opened LineIdentity
  import opened Money
  import opened Allocation

  // ---------------------------------------------------------------------------
  // What is accepted
  // ---------------------------------------------------------------------------

  /** The class a line is for: its own, or the intent's if it has none. The empty id is no class. */
  ghost predicate IsForClass(intent: Purchase, line: IntentLine, id: string) {
    && id != ""
    && (line.festivalClassId == Some(id) || (line.festivalClassId == None && intent.festivalClassId == Some(id)))
  }

  lemma ClassOfLine(intent: Purchase, line: IntentLine, id: string)
    ensures TargetClass(intent, line) == Some(id) <==> IsForClass(intent, line, id)
  {
  }

  /** The offering of an order line is right: one piece of the line's own product and variant, which are those of
      the class the line is for, active in a festival. */
  ghost predicate OfferingRight(w: World, intent: Purchase, line: IntentLine, o: OrderLine) {
    && o.quantity == 1 && o.productGid == line.productGid && o.variantGid == line.variantGid
    && exists id ::
         && id in w.active && IsForClass(intent, line, id) && w.active[id].festivalId != ""
         && w.active[id].config.productGid == line.productGid && w.active[id].config.variantGid == line.variantGid
  }

  /** A line with another offering is a mismatch, except that a line for no class at all is invalid. */
  lemma OfferingFaultExactly(w: World, intent: Purchase, p: Pair)
    ensures OfferingFault(w, intent, p).None? <==> OfferingRight(w, intent, p.intentLine, p.orderLine)
    ensures OfferingFault(w, intent, p) == Some(UpstreamInvalid) <==>
              && p.orderLine.quantity == 1
              && p.orderLine.productGid == p.intentLine.productGid
              && p.orderLine.variantGid == p.intentLine.variantGid
              && forall id :: !IsForClass(intent, p.intentLine, id)
    ensures OfferingFault(w, intent, p).Some? ==>
              || OfferingFault(w, intent, p).value == UpstreamInvalid
              || OfferingFault(w, intent, p).value == OfferingMismatch
  {
    var t := TargetClass(intent, p.intentLine);
    if t.Some? {
      ClassOfLine(intent, p.intentLine, t.value);
    }
    forall id | IsForClass(intent, p.intentLine, id) ensures t == Some(id) {
      ClassOfLine(intent, p.intentLine, id);
    }
  }

  ghost predicate Adds(o: OrderLine, before: nat, after: nat) {
    var cents := MoneyInMinorUnits(o.paidAmount);
    cents.Some? && after == before + cents.value
  }

  /** The payment matches when order, lines and intent are in one currency and the cents of the lines, added up one
      by one, reach the cents of the intent's amount. */
  ghost predicate AddsUp(order: seq<OrderLine>, sums: seq<nat>) {
    && |sums| == |order| + 1 && sums[0] == 0
    && forall k :: 0 <= k < |order| ==> Adds(order[k], sums[k], sums[k + 1])
  }

  lemma {:induction false} AddsUpToTotal(order: seq<OrderLine>, currency: string, sums: seq<nat>)
    requires AddsUp(order, sums) && AllPaidIn(order, currency)
    ensures sums[|order|] == PaidTotal(order, currency)
    decreases |order|
  {
    hide MoneyInMinorUnits;
    if order != [] {
      var n := |order| - 1;
      assert AddsUp(order[..n], sums[..n + 1]);
      AddsUpToTotal(order[..n], currency, sums[..n + 1]);
    }
  }

  lemma {:induction false} SumsOf(order: seq<OrderLine>, currency: string) returns (sums: seq<nat>)
    requires AllPaidIn(order, currency)
    ensures AddsUp(order, sums)
    decreases |order|
  {
    hide MoneyInMinorUnits;
    if order == [] {
      sums := [0];
    } else {
      var n := |order| - 1;
      var before := SumsOf(order[..n], currency);
      sums := before + [before[n] + MoneyInMinorUnits(order[n].paidAmount).value];
      forall k | 0 <= k < |order| ensures Adds(order[k], sums[k], sums[k + 1]) {
        if k < n {
          assert order[..n][k] == order[k] && Adds(order[..n][k], before[k], before[k + 1]);
        }
      }
    }
  }

  lemma PaymentMatchesExactly(intent: Purchase, orderCurrency: string, order: seq<OrderLine>)
    ensures PaymentMatches(intent, orderCurrency, order) <==>
              && orderCurrency == intent.currency
              && (forall k :: 0 <= k < |order| ==> order[k].paidCurrency == intent.currency)
              && exists sums :: AddsUp(order, sums) && MoneyInMinorUnits(intent.amount) == Some(sums[|order|])
  {
    hide MoneyInMinorUnits;
    if PaymentMatches(intent, orderCurrency, order) {
      var sums := SumsOf(order, intent.currency);
      AddsUpToTotal(order, intent.currency, sums);
    }
    if
      && (forall k :: 0 <= k < |order| ==> order[k].paidCurrency == intent.currency)
      && exists sums :: AddsUp(order, sums) && MoneyInMinorUnits(intent.amount) == Some(sums[|order|])
    {
      var sums :| AddsUp(order, sums) && MoneyInMinorUnits(intent.amount) == Some(sums[|order|]);
      forall k | 0 <= k < |order| ensures PaidIn(order[k], intent.currency) {
        assert Adds(order[k], sums[k], sums[k + 1]);
      }
      AddsUpToTotal(order, intent.currency, sums);
    }
  }

  // ---------------------------------------------------------------------------
  // The fields of an entitlement
  // ---------------------------------------------------------------------------

  /** The entitlement is for the child of its stored line, or else for the intent's. */
  ghost predicate ForChildOf(e: EntitlementInput, line: IntentLine, intent: Purchase) {
    match line.childId
    case Some(child) => e.childId == child
    case None => if intent.childId.Some? then e.childId == intent.childId.value else e.childId == ""
  }

  /** The entitlement is in the active class its stored line is for, with that class's festival and capacity. */
  ghost predicate InClassOf(e: EntitlementInput, line: IntentLine, intent: Purchase, w: World) {
    && IsForClass(intent, line, e.festivalClassId)
    && e.festivalClassId in w.active
    && e.festivalId == w.active[e.festivalClassId].festivalId
    && e.capacityAtAllocation == w.active[e.festivalClassId].config.capacity
  }

  /** The entitlement names the order line it was paid by, with its currency and its amount in cents. */
  ghost predicate PaidBy(e: EntitlementInput, o: OrderLine) {
    && e.orderLineId == o.id && e.paidCurrency == o.paidCurrency
    && MoneyInMinorUnits(o.paidAmount) == Some(e.paidCents)
  }

  function Earlier(es: seq<EntitlementInput>, k: nat): set<nat>
    requires k < |es|
  {
    set j: nat | j < k && es[j].festivalClassId == es[k].festivalClassId
  }

  function Positions(intent: Purchase, pairs: seq<Pair>, id: string, n: nat): set<nat>
    requires n <= |pairs|
  {
    set j: nat | j < n && IsOf(intent, pairs[j], id)
  }

  lemma PositionsStep(intent: Purchase, pairs: seq<Pair>, id: string, n: nat)
    requires n < |pairs|
    ensures |Positions(intent, pairs, id, n + 1)|
         == |Positions(intent, pairs, id, n)| + if IsOf(intent, pairs[n], id) then 1 else 0
  {
    hide IsOf;
    var fewer := Positions(intent, pairs, id, n);
    assert n !in fewer;
    if IsOf(intent, pairs[n], id) {
      assert Positions(intent, pairs, id, n + 1) == fewer + {n};
    } else {
      assert Positions(intent, pairs, id, n + 1) == fewer;
    }
  }

  lemma LinesOfStep(intent: Purchase, pairs: seq<Pair>, id: string, n: nat)
    requires n < |pairs|
    ensures LinesOf(intent, pairs[..n + 1], id)
         == LinesOf(intent, pairs[..n], id) + if IsOf(intent, pairs[n], id) then 1 else 0
  {
    hide IsOf;
    assert pairs[..n + 1][..n] == pairs[..n];
  }

  lemma {:induction false} LinesCounted(intent: Purchase, pairs: seq<Pair>, id: string, n: nat)
    requires n <= |pairs|
    ensures LinesOf(intent, pairs[..n], id) == |Positions(intent, pairs, id, n)|
    decreases n
  {
    if n == 0 {
      assert Positions(intent, pairs, id, n) == {};
    } else {
      hide LinesOf, Positions, IsOf;
      LinesCounted(intent, pairs, id, n - 1);
      LinesOfStep(intent, pairs, id, n - 1);
      PositionsStep(intent, pairs, id, n - 1);
    }
  }

  /** The earlier lines that are for a class. */
  ghost function EarlierFor(intent: Purchase, pairs: seq<Pair>, id: string, k: nat): set<nat>
    requires k <= |pairs|
  {
    set j: nat | j < k && IsForClass(intent, pairs[j].intentLine, id)
  }

  lemma EarlierAreCounted(intent: Purchase, pairs: seq<Pair>, id: string, k: nat)
    requires k <= |pairs|
    ensures LinesOf(intent, pairs[..k], id) == |EarlierFor(intent, pairs, id, k)|
  {
    LinesCounted(intent, pairs, id, k);
    forall j: nat | j < k ensures IsOf(intent, pairs[j], id) <==> IsForClass(intent, pairs[j].intentLine, id) {
      ClassOfLine(intent, pairs[j].intentLine, id);
    }
    hide IsOf, IsForClass, LinesOf;
    assert EarlierFor(intent, pairs, id, k) == Positions(intent, pairs, id, k);
  }

  /** A class has a place for line k: the confirmed places and the earlier lines for it do not fill it. */
  ghost predicate PlaceLeft(w: World, intent: Purchase, pairs: seq<Pair>, k: nat, id: string)
    requires k <= |pairs|
  {
    && id in w.active
    && (if id in w.confirmed then w.confirmed[id] else 0) + |EarlierFor(intent, pairs, id, k)|
       < w.active[id].config.capacity
  }

  /** A line of the right offering is at fault exactly when no cart was attached and its class has no place left. */
  lemma CapacityFaultExactly(w: World, intent: Purchase, pairs: seq<Pair>, k: nat, id: string)
    requires k < |pairs| && OfferingRight(w, intent, pairs[k].intentLine, pairs[k].orderLine)
    requires IsForClass(intent, pairs[k].intentLine, id)
    ensures Fault(w, intent, pairs, k) ==
            if intent.attached || PlaceLeft(w, intent, pairs, k, id) then None else Some(CorrelationInvalid)
  {
    OfferingFaultExactly(w, intent, pairs[k]);
    ClassOfLine(intent, pairs[k].intentLine, id);
    EarlierAreCounted(intent, pairs, id, k);
    RightIsActive(w, intent, pairs[k], id);
    hide OfferingRight, OfferingFault, LinesOf, TargetClass, IsForClass, EarlierFor;
  }

  lemma RightIsActive(w: World, intent: Purchase, p: Pair, id: string)
    requires OfferingRight(w, intent, p.intentLine, p.orderLine) && IsForClass(intent, p.intentLine, id)
    ensures id in w.active
  {
  }

  lemma LineFields(w: World, intent: Purchase, orderCurrency: string, order: seq<OrderLine>,
                   stored: seq<IntentLine>, pairs: seq<Pair>, lines: seq<EnrichedLine>, k: nat)
    requires PaymentMatches(intent, orderCurrency, order)
    requires Paired(stored, order, pairs) && Allocated(w, intent, pairs, lines) && k < |order|
    ensures
      var es := EntitlementInputs(intent, lines);
      && |es| == |order| == |pairs|
      && es[k].intentLineId == pairs[k].intentLine.id
      && ForChildOf(es[k], pairs[k].intentLine, intent)
      && InClassOf(es[k], pairs[k].intentLine, intent, w)
      && PaidBy(es[k], order[k]) && es[k].paidCurrency == intent.currency
      && es[k].placedBefore == PlacedBefore(w, intent, pairs, k, es[k].festivalClassId)
  {
    hide MoneyInMinorUnits, IdentityOf, PlacedBefore, TargetClass;
    var e := lines[k];
    assert AllocatedLine(w, intent, pairs, k, e);
    ClassOfLine(intent, pairs[k].intentLine, e.config.id);
    assert PaidIn(order[k], intent.currency);
  }

  /** The number of places taken that an entitlement records: the confirmed ones of its class and one for each
      earlier entitlement of the order in that class. */
  lemma PlacesCounted(w: World, intent: Purchase, orderCurrency: string, order: seq<OrderLine>,
                      stored: seq<IntentLine>, pairs: seq<Pair>, lines: seq<EnrichedLine>, k: nat)
    requires PaymentMatches(intent, orderCurrency, order)
    requires Paired(stored, order, pairs) && Allocated(w, intent, pairs, lines) && k < |order|
    ensures
      var es := EntitlementInputs(intent, lines);
      var id := es[k].festivalClassId;
      es[k].placedBefore == (if id in w.confirmed then w.confirmed[id] else 0) + |Earlier(es, k)|
  {
    hide MoneyInMinorUnits, IdentityOf, TargetClass, PaymentMatches, EntitlementInputs, Paired, Allocated, LinesOf;
    LineFields(w, intent, orderCurrency, order, stored, pairs, lines, k);
    var es := EntitlementInputs(intent, lines);
    var id := es[k].festivalClassId;
    LinesCounted(intent, pairs, id, k);
    forall j: nat | j < k ensures IsOf(intent, pairs[j], id) <==> es[j].festivalClassId == id {
      LineFields(w, intent, orderCurrency, order, stored, pairs, lines, j);
      ClassOfLine(intent, pairs[j].intentLine, es[j].festivalClassId);
    }
    assert Earlier(es, k) == Positions(intent, pairs, id, k);
  }

  /** Main result: every entitlement of an accepted order, field by field. It carries the id of exactly one stored
      line, and child, class, festival and capacity are that line's; id, currency and cents are those of the order
      line at its position. */
  lemma EntitlementFields(w: World, intent: Purchase, orderCurrency: string, order: seq<OrderLine>,
                          stored: seq<IntentLine>, pairs: seq<Pair>, lines: seq<EnrichedLine>, k: nat)
    requires PaymentMatches(intent, orderCurrency, order) && Correlates(stored, order)
    requires Paired(stored, order, pairs) && Allocated(w, intent, pairs, lines) && k < |order|
    ensures |EntitlementInputs(intent, lines)| == |order| == |stored|
    ensures
      var e := EntitlementInputs(intent, lines)[k];
      && PaidBy(e, order[k]) && e.paidCurrency == intent.currency == orderCurrency
      && (exists line :: line in stored && line.id == e.intentLineId)
      && (forall line :: line in stored && line.id == e.intentLineId ==>
            && IdentityOf(order[k]) == Some(line.id)
            && ForChildOf(e, line, intent) && InClassOf(e, line, intent, w))
  {
    hide MoneyInMinorUnits, IdentityOf, TargetClass, EntitlementInputs, Allocated, PlacedBefore;
    LineFields(w, intent, orderCurrency, order, stored, pairs, lines, k);
    forall line | line in stored && line.id == pairs[k].intentLine.id ensures line == pairs[k].intentLine {
      SameIdSameLine(stored, line, pairs[k].intentLine);
    }
  }

  // ---------------------------------------------------------------------------
  // From the cart to the entitlements
  // ---------------------------------------------------------------------------

  /** The records built for a class checkout, field by field. */
  lemma BuiltFields(intent: Intent, expected: seq<ExpectedLine>, drawn: seq<string>, k: nat)
    requires |drawn| == |expected| && k < |expected|
    ensures |ClassLineInputs(expected)| == |expected|
    ensures
      var built := BuildIntentLineRecords(intent, ClassLineInputs(expected), drawn);
      && |built| == |expected|
      && built[k] == IntentLine(drawn[k], intent.id, k, ClassEntry,
                                Some(expected[k].festivalClassId), Some(expected[k].childId),
                                expected[k].productGid, expected[k].variantGid,
                                expected[k].amount, expected[k].currency)
  {
  }

  /** Main result: a cart's lines, stored in any order, paid in any order q and accepted, give at position k the
      entitlement of the cart line q[k] that was paid there: for that line's child, in that line's class, under the
      id drawn for it. So no child receives another's place. */
  lemma EntitlementsAreForTheCart(w: World, intent: Purchase, orderCurrency: string, order: seq<OrderLine>,
                                  built: Intent, expected: seq<ExpectedLine>, drawn: seq<string>,
                                  stored: seq<IntentLine>, p: seq<nat>, restored: seq<IntentLine>, q: seq<nat>,
                                  pairs: seq<Pair>, lines: seq<EnrichedLine>, k: nat)
    requires Journey(built, expected, drawn, stored, p, restored, order, q)
    requires PaymentMatches(intent, orderCurrency, order)
    requires Paired(stored, order, pairs) && Allocated(w, intent, pairs, lines) && k < |order|
    ensures |EntitlementInputs(intent, lines)| == |order| == |expected| == |drawn|
    ensures |q| == |order| && q[k] < |expected|
    ensures
      var e := EntitlementInputs(intent, lines)[k];
      && e.childId == expected[q[k]].childId
      && e.festivalClassId == expected[q[k]].festivalClassId
      && e.intentLineId == drawn[q[k]]
      && e.orderLineId == order[k].id
      && order[k].variantGid == expected[q[k]].variantGid
  {
    hide *;
    EmittedIdentity(built, expected, drawn, stored, p, restored, order, q, k);
    JourneyMaps(built, expected, drawn, stored, p, restored, order, q);
    PairedWithEmitter(stored, order, pairs, k, restored[q[k]], built.id, expected);
    BuiltFields(built, expected, drawn, q[k]);
    LineFields(w, intent, orderCurrency, order, stored, pairs, lines, k);
    FieldsOfLine(w, intent, EntitlementInputs(intent, lines)[k], order[k], restored[q[k]]);
  }

  lemma FieldsOfLine(w: World, intent: Purchase, e: EntitlementInput, o: OrderLine, line: IntentLine)
    requires ForChildOf(e, line, intent) && InClassOf(e, line, intent, w) && PaidBy(e, o)
    requires line.childId.Some? && line.festivalClassId.Some?
    ensures e.childId == line.childId.value && e.festivalClassId == line.festivalClassId.value
    ensures e.orderLineId == o.id
  {
  }
}
