/** Credit adjustments, their ledger entries and the balances stored beside them.

    A balance is stored under the text `organization:customer`. What the ledger guarantees for each such text is
    proved for every run; what it guarantees for each account depends on whether two accounts can share a text,
    and that is decided exactly. */
module CreditLedger {
  import opened Wrappers

  datatype AdjustmentType = CreditIssue | CreditApply | Refund | ManualCharge | WriteOff

  datatype Direction = Inflow | Outflow

  datatype EntryType = Credit | Debit | AdjustmentEntry | OtherEntry(name: string)

  datatype Adjustment = Adjustment(
    id: string, organizationId: string, customerId: string, adjustmentType: AdjustmentType,
    amount: int, currency: string, referenceType: Option<string>, referenceId: Option<string>)

  datatype Entry = Entry(
    id: string, organizationId: string, customerId: string, entryType: EntryType,
    amount: int, direction: Direction, balanceAfter: int, currency: string, adjustmentId: string)

  datatype Balance = Balance(organizationId: string, customerId: string, cents: int, currency: string)

  datatype State = State(adjustments: seq<Adjustment>, entries: seq<Entry>, balances: map<string, Balance>)

  /** A call: what the caller asks, and the two ids drawn for it. */
  datatype Call = Call(
    organizationId: string, customerId: string, adjustmentType: AdjustmentType, amount: int,
    currency: Option<string>, referenceType: Option<string>, referenceId: Option<string>,
    direction: Option<Direction>, entryType: Option<EntryType>, adjustmentId: string, entryId: string)

  datatype Answer = Done(adjustment: Adjustment, entry: Entry, balance: Balance) | Duplicate | Insufficient

  const Empty := State([], [], map[])

  // ---------------------------------------------------------------------------
  // One call
  // ---------------------------------------------------------------------------

  function BalanceKey(organizationId: string, customerId: string): string {
    organizationId + ":" + customerId
  }

  function KeyOf(e: Entry): string {
    BalanceKey(e.organizationId, e.customerId)
  }

  function ResolveDirection(t: AdjustmentType, explicit: Option<Direction>): Direction {
    if explicit.Some? then explicit.value
    else match t
      case CreditIssue => Inflow
      case Refund => Inflow
      case _ => Outflow
  }

  function ResolveEntryType(t: AdjustmentType, d: Direction, explicit: Option<EntryType>): EntryType {
    if explicit.Some? then explicit.value
    else if t == CreditIssue then Credit
    else if t == CreditApply then Debit
    else if d == Inflow then Credit else AdjustmentEntry
  }

  function Signed(amount: int, d: Direction): int {
    if d == Inflow then amount else -amount
  }

  function Delta(c: Call): int {
    Signed(c.amount, ResolveDirection(c.adjustmentType, c.direction))
  }

  /** A reference without a type matches the id under any type. */
  predicate HasReference(a: Adjustment, organizationId: string, referenceType: Option<string>, referenceId: string) {
    && a.organizationId == organizationId
    && a.referenceId == Some(referenceId)
    && (referenceType.None? || a.referenceType == referenceType)
  }

  predicate IsDuplicate(s: State, c: Call) {
    && c.referenceId.Some? && c.referenceId.value != ""
    && exists i :: 0 <= i < |s.adjustments|
         && HasReference(s.adjustments[i], c.organizationId, c.referenceType, c.referenceId.value)
  }

  function Current(s: State, c: Call): Balance {
    var k := BalanceKey(c.organizationId, c.customerId);
    if k in s.balances then s.balances[k]
    else Balance(c.organizationId, c.customerId, 0, if c.currency.Some? then c.currency.value else "USD")
  }

  function AnswerOf(s: State, c: Call): Answer {
    var current := Current(s, c);
    var after := current.cents + Delta(c);
    if IsDuplicate(s, c) then Duplicate
    else if after < 0 then Insufficient
    else
      var d := ResolveDirection(c.adjustmentType, c.direction);
      var currency := if c.currency.Some? then c.currency.value else current.currency;
      Done(Adjustment(c.adjustmentId, c.organizationId, c.customerId, c.adjustmentType, c.amount, currency,
                      c.referenceType, c.referenceId),
           Entry(c.entryId, c.organizationId, c.customerId, ResolveEntryType(c.adjustmentType, d, c.entryType),
                 c.amount, d, after, currency, c.adjustmentId),
           Balance(c.organizationId, c.customerId, after, currency))
  }

  /** A call that is refused changes nothing. */
  function Step(s: State, c: Call): State {
    var a := AnswerOf(s, c);
    if a.Done? then
      State(s.adjustments + [a.adjustment], s.entries + [a.entry],
            s.balances[BalanceKey(c.organizationId, c.customerId) := a.balance])
    else s
  }

  // ---------------------------------------------------------------------------
  // What every call keeps, balance text by balance text
  // ---------------------------------------------------------------------------

  /** The signed sum of the entries under a balance text. */
  function KeySum(entries: seq<Entry>, k: string): int {
    if entries == [] then 0
    else
      var e := entries[|entries| - 1];
      KeySum(entries[..|entries| - 1], k) + if KeyOf(e) == k then Signed(e.amount, e.direction) else 0
  }

  function LastOf(entries: seq<Entry>, k: string): Option<Entry> {
    if entries == [] then None
    else
      var e := entries[|entries| - 1];
      if KeyOf(e) == k then Some(e) else LastOf(entries[..|entries| - 1], k)
  }

  /** Balances are those of the last entries: absent when there is none. */
  ghost predicate BalancesAreLast(entries: seq<Entry>, balances: map<string, Balance>) {
    forall k ::
      if k in balances then
        LastOf(entries, k).Some?
        && var e := LastOf(entries, k).value;
           balances[k] == Balance(e.organizationId, e.customerId, e.balanceAfter, e.currency)
      else LastOf(entries, k).None?
  }

  /** Each entry records the signed sum up to and including itself, which is not negative. */
  predicate BalancesRun(entries: seq<Entry>) {
    forall i :: 0 <= i < |entries| ==>
      entries[i].balanceAfter >= 0 && entries[i].balanceAfter == KeySum(entries[..i + 1], KeyOf(entries[i]))
  }

  predicate Pairs(a: Adjustment, e: Entry) {
    && e.adjustmentId == a.id
    && e.organizationId == a.organizationId && e.customerId == a.customerId
    && e.amount == a.amount && e.currency == a.currency
  }

  predicate Paired(s: State) {
    && |s.adjustments| == |s.entries|
    && (forall i :: 0 <= i < |s.entries| ==> Pairs(s.adjustments[i], s.entries[i]))
    && forall i, j :: 0 <= i < j < |s.adjustments| ==> s.adjustments[i].id != s.adjustments[j].id
  }

  /** A non-empty reference id is used again only under another type, and never without one. */
  predicate Compatible(a: Adjustment, b: Adjustment) {
    b.referenceId.Some? && b.referenceId.value != ""
    && a.organizationId == b.organizationId && a.referenceId == b.referenceId ==>
      b.referenceType.Some? && a.referenceType != b.referenceType
  }

  predicate ReferencesOnce(s: State) {
    forall i, j :: 0 <= i < j < |s.adjustments| ==> Compatible(s.adjustments[i], s.adjustments[j])
  }

  ghost predicate Inv(s: State) {
    BalancesAreLast(s.entries, s.balances) && BalancesRun(s.entries) && Paired(s) && ReferencesOnce(s)
  }

  predicate Admissible(s: State, c: Call) {
    forall i :: 0 <= i < |s.adjustments| ==> s.adjustments[i].id != c.adjustmentId
  }

  lemma {:induction false} LastBalanceIsSum(entries: seq<Entry>, n: nat, k: string)
    requires BalancesRun(entries) && n <= |entries|
    ensures LastOf(entries[..n], k).Some? ==> LastOf(entries[..n], k).value.balanceAfter == KeySum(entries[..n], k)
    ensures LastOf(entries[..n], k).None? ==> KeySum(entries[..n], k) == 0
    ensures KeySum(entries[..n], k) >= 0
    decreases n
  {
    if n > 0 {
      hide KeyOf;
      assert entries[..n][..n - 1] == entries[..n - 1];
      LastBalanceIsSum(entries, n - 1, k);
      assert entries[..n][n - 1] == entries[n - 1];
    }
  }

  /** The stored balance is the signed sum of the entries under its text, and no prefix of them is negative. */
  lemma BalanceIsSum(entries: seq<Entry>, balances: map<string, Balance>, k: string, n: nat)
    requires BalancesAreLast(entries, balances) && BalancesRun(entries) && n <= |entries|
    ensures (if k in balances then balances[k].cents else 0) == KeySum(entries, k)
    ensures KeySum(entries[..n], k) >= 0
  {
    hide LastOf, KeySum, KeyOf;
    assert entries[..|entries|] == entries;
    LastBalanceIsSum(entries, |entries|, k);
    LastBalanceIsSum(entries, n, k);
  }

  lemma StepKeepsBalances(s: State, c: Call)
    requires BalancesAreLast(s.entries, s.balances) && BalancesRun(s.entries) && AnswerOf(s, c).Done?
    ensures BalancesAreLast(Step(s, c).entries, Step(s, c).balances) && BalancesRun(Step(s, c).entries)
  {
    var e := AnswerOf(s, c).entry;
    var k := BalanceKey(c.organizationId, c.customerId);
    BalanceIsSum(s.entries, s.balances, k, 0);
    DoneEntry(s, c);
    hide AnswerOf, BalanceKey, IsDuplicate;
    EntryAdded(s.entries, s.balances, e, k, AnswerOf(s, c).balance);
    RunAdded(s.entries, e);
  }

  lemma DoneEntry(s: State, c: Call)
    requires AnswerOf(s, c).Done?
    ensures
      var a := AnswerOf(s, c);
      && KeyOf(a.entry) == BalanceKey(c.organizationId, c.customerId)
      && a.entry.balanceAfter >= 0
      && a.entry.balanceAfter == Current(s, c).cents + Signed(a.entry.amount, a.entry.direction)
      && a.balance == Balance(a.entry.organizationId, a.entry.customerId, a.entry.balanceAfter, a.entry.currency)
  {
    hide IsDuplicate, BalanceKey;
  }

  lemma EntryAdded(entries: seq<Entry>, balances: map<string, Balance>, e: Entry, k: string, b: Balance)
    requires BalancesAreLast(entries, balances) && KeyOf(e) == k
    requires b == Balance(e.organizationId, e.customerId, e.balanceAfter, e.currency)
    ensures BalancesAreLast(entries + [e], balances[k := b])
  {
    hide KeyOf;
    assert (entries + [e])[..|entries|] == entries;
  }

  lemma RunAdded(entries: seq<Entry>, e: Entry)
    requires BalancesRun(entries)
    requires e.balanceAfter >= 0 && e.balanceAfter == KeySum(entries, KeyOf(e)) + Signed(e.amount, e.direction)
    ensures BalancesRun(entries + [e])
  {
    hide KeyOf;
    var es := entries + [e];
    forall i | 0 <= i < |es|
      ensures es[i].balanceAfter >= 0 && es[i].balanceAfter == KeySum(es[..i + 1], KeyOf(es[i]))
    {
      if i < |entries| {
        assert es[..i + 1] == entries[..i + 1];
      } else {
        assert es[..i + 1] == es && es[..i] == entries;
      }
    }
  }

  lemma StepKeepsPairs(s: State, c: Call)
    requires Paired(s) && Admissible(s, c) && AnswerOf(s, c).Done?
    ensures Paired(Step(s, c))
  {
    hide IsDuplicate;
    var t, n := Step(s, c), |s.entries|;
    assert Pairs(t.adjustments[n], t.entries[n]);
    assert forall i :: 0 <= i < n ==> t.adjustments[i] == s.adjustments[i] && t.entries[i] == s.entries[i];
  }

  lemma StepKeepsReferences(s: State, c: Call)
    requires ReferencesOnce(s) && AnswerOf(s, c).Done?
    ensures ReferencesOnce(Step(s, c))
  {
    var t, n := Step(s, c), |s.adjustments|;
    forall i | 0 <= i < n ensures Compatible(t.adjustments[i], t.adjustments[n]) {
      assert !IsDuplicate(s, c);
      assert c.referenceId.Some? && c.referenceId.value != "" ==>
          !HasReference(s.adjustments[i], c.organizationId, c.referenceType, c.referenceId.value);
    }
    hide Compatible;
    assert forall i :: 0 <= i < n ==> t.adjustments[i] == s.adjustments[i];
  }

  /** Every call keeps the ledger: balances are the last entries', entries carry the running sum, adjustments
      and entries pair one to one, and references do not repeat. */
  lemma StepKeepsInv(s: State, c: Call)
    requires Inv(s) && Admissible(s, c)
    ensures Inv(Step(s, c))
  {
    hide BalancesAreLast, BalancesRun, Paired, ReferencesOnce, AnswerOf;
    if AnswerOf(s, c).Done? {
      StepKeepsBalances(s, c);
      StepKeepsPairs(s, c);
      StepKeepsReferences(s, c);
    }
  }

  /** When a call is refused, and what then changes: nothing. */
  lemma RefusedExactly(s: State, c: Call)
    requires Inv(s)
    ensures !AnswerOf(s, c).Done? <==>
              IsDuplicate(s, c) || KeySum(s.entries, BalanceKey(c.organizationId, c.customerId)) + Delta(c) < 0
    ensures Step(s, c) == s <==> !AnswerOf(s, c).Done?
  {
    hide BalancesAreLast, BalancesRun, Paired, ReferencesOnce, BalanceKey, KeySum, IsDuplicate;
    BalanceIsSum(s.entries, s.balances, BalanceKey(c.organizationId, c.customerId), 0);
    assert |Step(s, c).entries| == |s.entries| + if AnswerOf(s, c).Done? then 1 else 0;
  }

  // ---------------------------------------------------------------------------
  // Runs
  // ---------------------------------------------------------------------------

  predicate IsRun(s: State, calls: seq<Call>)
    decreases |calls|
  {
    calls == [] || (Admissible(s, calls[0]) && IsRun(Step(s, calls[0]), calls[1..]))
  }

  function Run(s: State, calls: seq<Call>): State
    decreases |calls|
  {
    if calls == [] then s else Run(Step(s, calls[0]), calls[1..])
  }

  /** Main result: the ledger is right in every reachable state. */
  lemma {:induction false} ReachableInv(s: State, calls: seq<Call>)
    requires Inv(s) && IsRun(s, calls)
    ensures Inv(Run(s, calls))
    decreases |calls|
  {
    hide Inv, Step, Admissible;
    if calls != [] {
      StepKeepsInv(s, calls[0]);
      ReachableInv(Step(s, calls[0]), calls[1..]);
    }
  }

  lemma EmptyInv()
    ensures Inv(Empty)
  {
  }

  /** Every reference of an organization names one adjustment for good: while it stays in the ledger, which is
      always, a second call with the same type and id is a duplicate. */
  lemma {:induction false} ReferenceIsSpent(s: State, calls: seq<Call>, i: nat, c: Call)
    requires i < |s.adjustments|
    requires c.referenceId.Some? && c.referenceId.value != ""
    requires HasReference(s.adjustments[i], c.organizationId, c.referenceType, c.referenceId.value)
    ensures AnswerOf(Run(s, calls), c) == Duplicate && Step(Run(s, calls), c) == Run(s, calls)
    decreases |calls|
  {
    hide HasReference;
    if calls == [] {
      assert IsDuplicate(s, c);
    } else {
      KeepsAdjustments(s, calls[0]);
      ReferenceIsSpent(Step(s, calls[0]), calls[1..], i, c);
    }
  }

  lemma KeepsAdjustments(s: State, c: Call)
    ensures s.adjustments <= Step(s, c).adjustments && s.entries <= Step(s, c).entries
  {
    hide AnswerOf;
  }

  // ---------------------------------------------------------------------------
  // Accounts
  // ---------------------------------------------------------------------------

  predicate IsOf(e: Entry, organizationId: string, customerId: string) {
    e.organizationId == organizationId && e.customerId == customerId
  }

  /** The entries listed for an account. */
  function AccountEntries(entries: seq<Entry>, organizationId: string, customerId: string): seq<Entry> {
    if entries == [] then []
    else
      var e := entries[|entries| - 1];
      AccountEntries(entries[..|entries| - 1], organizationId, customerId)
      + if IsOf(e, organizationId, customerId) then [e] else []
  }

  function SignedSum(es: seq<Entry>): int {
    if es == [] then 0
    else SignedSum(es[..|es| - 1]) + Signed(es[|es| - 1].amount, es[|es| - 1].direction)
  }

  function CreditBalance(s: State, organizationId: string, customerId: string): Option<Balance> {
    var k := BalanceKey(organizationId, customerId);
    if k in s.balances then Some(s.balances[k]) else None
  }

  /** What an account's owner is promised: the balance is there when there are entries, is the account's own,
      equals the signed sum of the entries listed for it and the last of their balances after; and each of
      them records the running sum, never negative. */
  predicate AccountIsRight(s: State, o: string, c: string) {
    var es, b := AccountEntries(s.entries, o, c), CreditBalance(s, o, c);
    && (b.None? <==> es == [])
    && (b.Some? ==> b.value.organizationId == o && b.value.customerId == c && b.value.cents == SignedSum(es))
    && (b.Some? && es != [] ==> b.value.cents == es[|es| - 1].balanceAfter && b.value.currency == es[|es| - 1].currency)
    && RunningSum(es)
  }

  predicate RunningSum(es: seq<Entry>) {
    forall n :: 0 <= n < |es| ==> es[n].balanceAfter == SignedSum(es[..n + 1]) && es[n].balanceAfter >= 0
  }

  /** Only the account itself writes under its text. */
  predicate KeyIsOwn(entries: seq<Entry>, o: string, c: string) {
    forall i :: 0 <= i < |entries| && KeyOf(entries[i]) == BalanceKey(o, c) ==> IsOf(entries[i], o, c)
  }

  /** The entries of an account are those under its text. */
  predicate AccountAgrees(entries: seq<Entry>, o: string, c: string) {
    var es, k := AccountEntries(entries, o, c), BalanceKey(o, c);
    && SignedSum(es) == KeySum(entries, k)
    && RunningSum(es)
    && LastOf(entries, k) == if es == [] then None else Some(es[|es| - 1])
  }

  lemma {:induction false} AccountIsKey(entries: seq<Entry>, o: string, c: string)
    requires KeyIsOwn(entries, o, c) && BalancesRun(entries)
    ensures AccountAgrees(entries, o, c)
    decreases |entries|
  {
    if entries != [] {
      var n := |entries| - 1;
      PrefixRuns(entries, n);
      assert KeyIsOwn(entries[..n], o, c) by { hide KeyOf, BalanceKey, IsOf; }
      AccountIsKey(entries[..n], o, c);
      assert IsOf(entries[n], o, c) <==> KeyOf(entries[n]) == BalanceKey(o, c);
      hide KeyOf, BalanceKey, IsOf, AccountAgrees, KeyIsOwn, KeySum;
      assert entries[..n + 1] == entries;
      assert entries == entries[..n] + [entries[n]];
      AgreesStep(entries[..n], entries[n], o, c);
    }
  }

  lemma AgreesStep(entries: seq<Entry>, e: Entry, o: string, c: string)
    requires AccountAgrees(entries, o, c)
    requires IsOf(e, o, c) <==> KeyOf(e) == BalanceKey(o, c)
    requires e.balanceAfter >= 0 && e.balanceAfter == KeySum(entries + [e], KeyOf(e))
    ensures AccountAgrees(entries + [e], o, c)
  {
    hide KeyOf, BalanceKey, IsOf, RunningSum;
    assert (entries + [e])[..|entries|] == entries;
    var es := AccountEntries(entries, o, c);
    if IsOf(e, o, c) {
      RunningSumStep(es, e);
    } else {
      assert es + [] == es;
    }
  }

  lemma RunningSumStep(es: seq<Entry>, e: Entry)
    requires RunningSum(es) && e.balanceAfter >= 0
    requires e.balanceAfter == SignedSum(es) + Signed(e.amount, e.direction)
    ensures RunningSum(es + [e]) && SignedSum(es + [e]) == e.balanceAfter
  {
    var fs := es + [e];
    assert fs[..|es|] == es && fs[..|fs|] == fs;
    forall n | 0 <= n < |fs| ensures fs[n].balanceAfter == SignedSum(fs[..n + 1]) && fs[n].balanceAfter >= 0 {
      if n < |es| {
        assert fs[..n + 1] == es[..n + 1];
      }
    }
  }

  lemma PrefixRuns(entries: seq<Entry>, n: nat)
    requires BalancesRun(entries) && n <= |entries|
    ensures BalancesRun(entries[..n])
  {
    hide KeyOf, KeySum;
    var es := entries[..n];
    forall i | 0 <= i < n ensures es[i].balanceAfter >= 0 && es[i].balanceAfter == KeySum(es[..i + 1], KeyOf(es[i])) {
      assert es[..i + 1] == entries[..i + 1];
    }
  }

  lemma OwnKeyIsRight(s: State, o: string, c: string)
    requires Inv(s) && KeyIsOwn(s.entries, o, c)
    ensures AccountIsRight(s, o, c)
  {
    hide BalanceKey, KeySum, RunningSum, Paired, ReferencesOnce, BalancesRun;
    var k := BalanceKey(o, c);
    AccountIsKey(s.entries, o, c);
    BalanceIsSum(s.entries, s.balances, k, 0);
    LastIsOwn(s.entries, k);
    assert LastOf(s.entries, k).Some? ==> IsOf(LastOf(s.entries, k).value, o, c);
  }

  lemma {:induction false} LastIsOwn(entries: seq<Entry>, k: string)
    ensures LastOf(entries, k).Some? ==> KeyOf(LastOf(entries, k).value) == k && LastOf(entries, k).value in entries
    decreases |entries|
  {
    hide KeyOf;
    if entries != [] {
      LastIsOwn(entries[..|entries| - 1], k);
    }
  }

  // ---------------------------------------------------------------------------
  // When accounts share a balance text
  // ---------------------------------------------------------------------------

  /** Two organizations can share a balance text exactly when one id continues the other with a colon. */
  predicate Collide(a: string, b: string) {
    a != b && (a + ":" <= b || b + ":" <= a)
  }

  lemma SharedKey(a: string, x: string, b: string, y: string)
    requires BalanceKey(a, x) == BalanceKey(b, y) && |a| <= |b|
    ensures (a == b && x == y) || (a != b && a + ":" <= b)
  {
    var k := BalanceKey(a, x);
    assert k[..|a|] == a && k[|a|] == ':' && k[|a| + 1..] == x;
    assert k[..|b|] == b && k[|b|] == ':' && k[|b| + 1..] == y;
    if |a| < |b| {
      assert b[..|a|] == a && b[|a|] == ':';
      assert b == (a + ":") + b[|a| + 1..];
    }
  }

  lemma CollidingCustomers(a: string, b: string, y: string) returns (x: string)
    requires a + ":" <= b
    ensures BalanceKey(a, x) == BalanceKey(b, y)
  {
    x := b[|a| + 1..] + ":" + y;
    assert b == (a + ":") + b[|a| + 1..];
  }

  ghost predicate CanShareKey(a: string, b: string) {
    exists x, y :: BalanceKey(a, x) == BalanceKey(b, y)
  }

  lemma KeysCollideExactly(a: string, b: string)
    requires a != b
    ensures CanShareKey(a, b) <==> Collide(a, b)
  {
    hide BalanceKey;
    if CanShareKey(a, b) {
      var x, y :| BalanceKey(a, x) == BalanceKey(b, y);
      if |a| <= |b| { SharedKey(a, x, b, y); } else { SharedKey(b, y, a, x); }
    }
    if a + ":" <= b {
      var x := CollidingCustomers(a, b, "");
    } else if b + ":" <= a {
      var y := CollidingCustomers(b, a, "");
    }
  }

  predicate Separable(organizations: set<string>) {
    forall a, b :: a in organizations && b in organizations ==> !Collide(a, b)
  }

  predicate CallsIn(calls: seq<Call>, organizations: set<string>) {
    forall i :: 0 <= i < |calls| ==> calls[i].organizationId in organizations
  }

  predicate EntriesIn(entries: seq<Entry>, organizations: set<string>) {
    forall i :: 0 <= i < |entries| ==> entries[i].organizationId in organizations
  }

  lemma {:induction false} RunStaysIn(s: State, calls: seq<Call>, organizations: set<string>)
    requires EntriesIn(s.entries, organizations) && CallsIn(calls, organizations)
    ensures EntriesIn(Run(s, calls).entries, organizations)
    decreases |calls|
  {
    if calls != [] {
      hide IsDuplicate, Current;
      assert AnswerOf(s, calls[0]).Done? ==> AnswerOf(s, calls[0]).entry.organizationId == calls[0].organizationId;
      hide AnswerOf;
      RunStaysIn(Step(s, calls[0]), calls[1..], organizations);
    }
  }

  lemma SeparableIsOwn(entries: seq<Entry>, organizations: set<string>, o: string, c: string)
    requires Separable(organizations) && EntriesIn(entries, organizations) && o in organizations
    ensures KeyIsOwn(entries, o, c)
  {
    forall i | 0 <= i < |entries| && KeyOf(entries[i]) == BalanceKey(o, c) ensures IsOf(entries[i], o, c) {
      var e := entries[i];
      assert !Collide(o, e.organizationId);
      if |o| <= |e.organizationId| {
        SharedKey(o, c, e.organizationId, e.customerId);
      } else {
        SharedKey(e.organizationId, e.customerId, o, c);
      }
    }
  }

  /** For every account of these organizations, after every run of calls for them. */
  ghost predicate AccountsAlwaysRight(organizations: set<string>) {
    forall calls, o, c :: IsRun(Empty, calls) && CallsIn(calls, organizations) && o in organizations ==>
      AccountIsRight(Run(Empty, calls), o, c)
  }

  lemma CreditElsewhere(o: string, c: string, call: Call)
    requires call.referenceId.None? && call.amount == 100 && call.direction == Some(Inflow)
    requires call.organizationId != o && BalanceKey(call.organizationId, call.customerId) == BalanceKey(o, c)
    ensures !AccountIsRight(Step(Empty, call), o, c)
  {
    var t := Step(Empty, call);
    assert t.entries == [AnswerOf(Empty, call).entry];
    assert t.entries[..0] == [];
    hide BalanceKey;
    assert AccountEntries(t.entries, o, c) == [];
    assert CreditBalance(t, o, c).Some?;
  }

  /** Main result: every account of a set of organizations is always right exactly when no organization id of
      the set is another's followed by a colon and more. */
  lemma AccountsRightExactly(organizations: set<string>)
    ensures AccountsAlwaysRight(organizations) <==> Separable(organizations)
  {
    hide Step, AccountIsRight, Inv, BalanceKey;
    if Separable(organizations) {
      forall calls, o, c | IsRun(Empty, calls) && CallsIn(calls, organizations) && o in organizations
        ensures AccountIsRight(Run(Empty, calls), o, c)
      {
        EmptyInv();
        ReachableInv(Empty, calls);
        RunStaysIn(Empty, calls, organizations);
        SeparableIsOwn(Run(Empty, calls).entries, organizations, o, c);
        OwnKeyIsRight(Run(Empty, calls), o, c);
      }
    } else {
      var a, b :| a in organizations && b in organizations && Collide(a, b);
      if a + ":" <= b { SomeAccountWrong(organizations, a, b); } else { SomeAccountWrong(organizations, b, a); }
    }
  }

  lemma SomeAccountWrong(organizations: set<string>, a: string, b: string)
    requires a in organizations && b in organizations && a != b && a + ":" <= b
    ensures !AccountsAlwaysRight(organizations)
  {
    hide Step, AccountIsRight, BalanceKey;
    var x := CollidingCustomers(a, b, "");
    var call := Call(b, "", CreditIssue, 100, None, None, None, Some(Inflow), None, "adjustment", "entry");
    CreditElsewhere(a, x, call);
    var calls := [call];
    assert calls[1..] == [];
    assert IsRun(Empty, calls) && Run(Empty, calls) == Step(Empty, call);
  }

  /** Ids without colons never collide. */
  lemma NoColonsNoCollision(organizations: set<string>)
    requires forall o :: o in organizations ==> ':' !in o
    ensures Separable(organizations)
  {
    forall a, b | a in organizations && b in organizations ensures !Collide(a, b) {
      PrefixHasColon(a, b);
      PrefixHasColon(b, a);
    }
  }

  lemma PrefixHasColon(a: string, b: string)
    ensures a + ":" <= b ==> ':' in b
  {
    if a + ":" <= b {
      assert b[|a|] == (a + ":")[|a|] == ':';
    }
  }
}
