/** Which way each adjustment moves a balance, by its type and the direction asked for, when it is refused, and
    what the movements add up to over every run. */
module CreditDirections {
  import opened Wrappers
  import opened CreditLedger

  /** The balance stored for an account: nothing stored counts as zero. */
  function StoredCents(s: State, o: string, c: string): int {
    var k := o + ":" + c;
    if k in s.balances then s.balances[k].cents else 0
  }

  /** A direction asked for decides; without one, credit issues and refunds raise a balance, and credit applies,
      manual charges and write-offs lower it. */
  ghost predicate Raises(c: Call) {
    c.direction == Some(Inflow)
    || (c.direction == None && (c.adjustmentType == CreditIssue || c.adjustmentType == Refund))
  }

  ghost predicate Lowers(c: Call) {
    c.direction == Some(Outflow)
    || (c.direction == None
        && (c.adjustmentType == CreditApply || c.adjustmentType == ManualCharge || c.adjustmentType == WriteOff))
  }

  /** An adjustment of the organization carries the call's reference id, under the call's type if it has one. */
  ghost predicate ReferenceTaken(s: State, c: Call) {
    exists a :: a in s.adjustments
      && a.organizationId == c.organizationId && a.referenceId == c.referenceId
      && a.referenceId != None && a.referenceId != Some("")
      && (c.referenceType == None || a.referenceType == c.referenceType)
  }

  lemma DuplicateMeansTaken(s: State, c: Call)
    ensures IsDuplicate(s, c) <==> ReferenceTaken(s, c)
  {
    if IsDuplicate(s, c) {
      var i :| 0 <= i < |s.adjustments|
        && HasReference(s.adjustments[i], c.organizationId, c.referenceType, c.referenceId.value);
      assert s.adjustments[i] in s.adjustments;
    }
    if ReferenceTaken(s, c) {
      var a :| a in s.adjustments
        && a.organizationId == c.organizationId && a.referenceId == c.referenceId
        && a.referenceId != None && a.referenceId != Some("")
        && (c.referenceType == None || a.referenceType == c.referenceType);
      var i :| 0 <= i < |s.adjustments| && s.adjustments[i] == a;
      assert HasReference(s.adjustments[i], c.organizationId, c.referenceType, c.referenceId.value);
    }
  }

  lemma OneOrTheOther(c: Call)
    ensures Raises(c) <==> !Lowers(c)
  {
    match c.adjustmentType
    case CreditIssue | Refund =>
      assert c.direction.None? || c.direction.value == Inflow || c.direction.value == Outflow;
    case CreditApply | ManualCharge | WriteOff =>
      assert c.direction.None? || c.direction.value == Inflow || c.direction.value == Outflow;
  }

  /** Every call is refused exactly for its reference or for too low a balance: a raising call of a non-negative
      amount only for its reference, a lowering call when it asks for more than is there. */
  lemma RefusedByType(s: State, c: Call)
    requires Inv(s)
    ensures AnswerOf(s, c) == Duplicate <==> ReferenceTaken(s, c)
    ensures Raises(c) && c.amount >= 0 ==> (Step(s, c) == s <==> ReferenceTaken(s, c))
    ensures Raises(c) ==>
              (AnswerOf(s, c) == Insufficient <==>
                 !ReferenceTaken(s, c) && StoredCents(s, c.organizationId, c.customerId) + c.amount < 0)
    ensures Lowers(c) ==>
              (AnswerOf(s, c) == Insufficient <==>
                 !ReferenceTaken(s, c) && StoredCents(s, c.organizationId, c.customerId) < c.amount)
    ensures StoredCents(s, c.organizationId, c.customerId) >= 0
  {
    BalanceIsSum(s.entries, s.balances, BalanceKey(c.organizationId, c.customerId), |s.entries|);
    assert s.entries[..|s.entries|] == s.entries;
    DuplicateMeansTaken(s, c);
    RefusedExactly(s, c);
    hide Inv, IsDuplicate, ReferenceTaken, KeySum;
  }

  /** What an accepted call records: a raising call adds exactly its amount to the account's balance, a lowering
      one takes exactly its amount away, and no other balance moves. */
  lemma AcceptedMovesBalance(s: State, c: Call)
    requires AnswerOf(s, c).Done?
    ensures
      var t := Step(s, c);
      var k := c.organizationId + ":" + c.customerId;
      var before := StoredCents(s, c.organizationId, c.customerId);
      && k in t.balances
      && (Raises(c) ==> t.balances[k].cents == before + c.amount)
      && (Lowers(c) ==> t.balances[k].cents == before - c.amount)
      && t.balances == s.balances[k := t.balances[k]]
      && t.balances[k].organizationId == c.organizationId && t.balances[k].customerId == c.customerId
      && t.balances[k].cents >= 0
  {
    hide IsDuplicate;
  }

  /** The currency recorded: the call's, else the stored balance's, else dollars. */
  ghost predicate IsCurrency(s: State, c: Call, currency: string) {
    var k := c.organizationId + ":" + c.customerId;
    && (c.currency.Some? ==> currency == c.currency.value)
    && (c.currency.None? && k in s.balances ==> currency == s.balances[k].currency)
    && (c.currency.None? && k !in s.balances ==> currency == "USD")
  }

  /** Adjustment and entry carry what the call asked for, the direction the balance moved in and the balance
      reached; without an entry type asked for, credit issues are credits, credit applies debits, and the others
      credits or adjustments as the balance rises or falls. */
  lemma AcceptedRecords(s: State, c: Call)
    requires AnswerOf(s, c).Done?
    ensures
      var t := Step(s, c);
      var e, a := t.entries[|t.entries| - 1], t.adjustments[|t.adjustments| - 1];
      && t.entries == s.entries + [e] && t.adjustments == s.adjustments + [a]
      && e.id == c.entryId && e.adjustmentId == a.id == c.adjustmentId
      && a.organizationId == e.organizationId == c.organizationId
      && a.customerId == e.customerId == c.customerId
      && a.amount == e.amount == c.amount && a.adjustmentType == c.adjustmentType
      && a.referenceType == c.referenceType && a.referenceId == c.referenceId
      && IsCurrency(s, c, e.currency) && a.currency == e.currency
      && t.balances[c.organizationId + ":" + c.customerId].currency == e.currency
      && t.balances[c.organizationId + ":" + c.customerId].cents == e.balanceAfter
      && (e.direction == Inflow <==> Raises(c))
      && (c.entryType.Some? ==> e.entryType == c.entryType.value)
      && (c.entryType.None? && c.adjustmentType == CreditIssue ==> e.entryType == Credit)
      && (c.entryType.None? && c.adjustmentType == CreditApply ==> e.entryType == Debit)
      && (c.entryType.None? && c.adjustmentType != CreditIssue && c.adjustmentType != CreditApply ==>
            (Raises(c) ==> e.entryType == Credit) && (Lowers(c) ==> e.entryType == AdjustmentEntry))
  {
    hide IsDuplicate;
  }

  // ---------------------------------------------------------------------------
  // Over runs
  // ---------------------------------------------------------------------------

  /** The amounts of the accepted raising calls for an account less those of the accepted lowering ones. */
  ghost function Moved(s: State, calls: seq<Call>, o: string, c: string): int
    decreases |calls|
  {
    if calls == [] then 0
    else
      var call := calls[0];
      (if !AnswerOf(s, call).Done? || call.organizationId + ":" + call.customerId != o + ":" + c then 0
       else if Raises(call) then call.amount else -call.amount)
      + Moved(Step(s, call), calls[1..], o, c)
  }

  /** Main result: over every run a stored balance changes by what was issued and refunded less what was applied,
      charged and written off, each call counted once and by its own type and direction. */
  lemma {:induction false} RunMovesBalance(s: State, calls: seq<Call>, o: string, c: string)
    ensures StoredCents(Run(s, calls), o, c) == StoredCents(s, o, c) + Moved(s, calls, o, c)
    decreases |calls|
  {
    hide AnswerOf, Raises, Lowers;
    if calls != [] {
      var call := calls[0];
      if AnswerOf(s, call).Done? {
        AcceptedMovesBalance(s, call);
        OneOrTheOther(call);
      }
      RunMovesBalance(Step(s, call), calls[1..], o, c);
    }
  }
}
