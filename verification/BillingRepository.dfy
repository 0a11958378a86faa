/** The in-memory billing repository; its one mutating call is a step of module CreditLedger. */
module BillingRepository {
  import opened Wrappers
  import opened CreditLedger

  class InMemoryBillingRepository {
    var adjustments: seq<Adjustment>
    var ledgerEntries: seq<Entry>
    var creditBalances: map<string, Balance>

    ghost function View(): State
      reads this
    {
      State(adjustments, ledgerEntries, creditBalances)
    }

    constructor ()
      ensures View() == Empty
    {
      adjustments, ledgerEntries, creditBalances := [], [], map[];
    }

    /** The first adjustment of the organization with the reference id, of the given type if one is given. */
    method FindAdjustmentByReference(organizationId: string, referenceType: Option<string>, referenceId: string)
      returns (found: Option<Adjustment>)
      ensures found.None? <==>
                forall i :: 0 <= i < |adjustments| ==>
                  !HasReference(adjustments[i], organizationId, referenceType, referenceId)
      ensures found.Some? ==> exists i ::
                && 0 <= i < |adjustments| && adjustments[i] == found.value
                && HasReference(adjustments[i], organizationId, referenceType, referenceId)
                && forall j :: 0 <= j < i ==> !HasReference(adjustments[j], organizationId, referenceType, referenceId)
    {
      hide HasReference;
      var i := 0;
      while i < |adjustments|
        invariant 0 <= i <= |adjustments|
        invariant forall j :: 0 <= j < i ==> !HasReference(adjustments[j], organizationId, referenceType, referenceId)
      {
        if HasReference(adjustments[i], organizationId, referenceType, referenceId) {
          return Some(adjustments[i]);
        }
        i := i + 1;
      }
      return None;
    }

    /** Refuses a repeated reference, then a negative balance; otherwise records adjustment, entry and balance. */
    method CreateAdjustmentWithLedger(c: Call) returns (answer: Answer)
      modifies this
      ensures answer == old(AnswerOf(View(), c))
      ensures View() == old(Step(View(), c))
      ensures answer.Done? ==>
                && answer.balance.cents == answer.entry.balanceAfter
                && creditBalances == old(creditBalances)[c.organizationId + ":" + c.customerId := answer.balance]
                && ledgerEntries == old(ledgerEntries) + [answer.entry]
                && adjustments == old(adjustments) + [answer.adjustment]
      ensures
        var k := c.organizationId + ":" + c.customerId;
        var before := if k in old(creditBalances) then old(creditBalances)[k].cents else 0;
        answer.Done? ==>
          match c.direction
          case Some(Inflow) => answer.entry.direction == Inflow && answer.balance.cents == before + c.amount
          case Some(Outflow) => answer.entry.direction == Outflow && answer.balance.cents == before - c.amount
          case None =>
            if c.adjustmentType == CreditIssue || c.adjustmentType == Refund then
              answer.entry.direction == Inflow && answer.balance.cents == before + c.amount
            else
              answer.entry.direction == Outflow && answer.balance.cents == before - c.amount
      ensures answer.Done? ==>
                answer.entry.entryType ==
                if c.entryType.Some? then c.entryType.value
                else if c.adjustmentType == CreditIssue then Credit
                else if c.adjustmentType == CreditApply then Debit
                else if answer.entry.direction == Inflow then Credit
                else AdjustmentEntry
    {
      hide HasReference;
      if c.referenceId.Some? && c.referenceId.value != "" {
        var existing := FindAdjustmentByReference(c.organizationId, c.referenceType, c.referenceId.value);
        if existing.Some? {
          assert IsDuplicate(View(), c);
          return Duplicate;
        }
      }
      assert !IsDuplicate(View(), c);
      hide IsDuplicate;
      var balanceKey := BalanceKey(c.organizationId, c.customerId);
      assert balanceKey == c.organizationId + ":" + c.customerId;
      hide BalanceKey;
      var fallback := if c.currency.Some? then c.currency.value else "USD";
      var current := if balanceKey in creditBalances then creditBalances[balanceKey]
                     else Balance(c.organizationId, c.customerId, 0, fallback);
      var direction := ResolveDirection(c.adjustmentType, c.direction);
      var entryType := ResolveEntryType(c.adjustmentType, direction, c.entryType);
      var newBalance := current.cents + Signed(c.amount, direction);
      if newBalance < 0 {
        return Insufficient;
      }
      var currency := if c.currency.Some? then c.currency.value else current.currency;
      var adjustment := Adjustment(c.adjustmentId, c.organizationId, c.customerId, c.adjustmentType, c.amount,
                                   currency, c.referenceType, c.referenceId);
      adjustments := adjustments + [adjustment];
      var entry := Entry(c.entryId, c.organizationId, c.customerId, entryType, c.amount, direction,
                         newBalance, currency, c.adjustmentId);
      ledgerEntries := ledgerEntries + [entry];
      var balance := Balance(c.organizationId, c.customerId, newBalance, currency);
      creditBalances := creditBalances[balanceKey := balance];
      return Done(adjustment, entry, balance);
    }
  }
}
