/** Renewal with revocations: exactly which purchases keep every day served by at most one grant.

    Once a grant has been revoked an order paid earlier than it began can still be accepted, beside grants
    that were superseded later than that order was paid. */
module RenewalRevocations {
  import opened Wrappers
  import opened Renewal

  // ---------------------------------------------------------------------------
  // One purchase
  // ---------------------------------------------------------------------------

  /** A grant is cut between its start and its end. */
  predicate Shaped(gs: seq<Grant>) {
    forall i :: 0 <= i < |gs| ==> gs[i].start <= Cut(gs[i]) <= gs[i].end
  }

  /** The purchase passes the service's duplicate check, the grant validator and the repository's rows. */
  predicate Accepted(gs: seq<Grant>, paidOn: Day, duration: int) {
    && !ServiceRejects(gs, paidOn)
    && ValidGrantDates(paidOn, ServiceEnd(gs, paidOn, duration), duration)
    && !RepositoryRejects(gs, paidOn)
  }

  function NewEnd(gs: seq<Grant>, paidOn: Day, duration: int): Day {
    RepositoryEnd(gs, paidOn, duration, ServiceEnd(gs, paidOn, duration))
  }

  /** The stretch of a grant ends by the paid day, or begins after the new grant ends, or is empty. */
  predicate Apart(g: Grant, paidOn: Day, end: Day) {
    g.start < Cut(g) ==> Cut(g) <= paidOn || end <= g.start
  }

  /** Every grant but the row that the purchase supersedes is apart from the new grant. */
  predicate Clear(gs: seq<Grant>, paidOn: Day, duration: int) {
    forall i :: 0 <= i < |gs| && FirstRow(gs, paidOn) != Some(i) ==> Apart(gs[i], paidOn, NewEnd(gs, paidOn, duration))
  }

  lemma AcceptedRows(gs: seq<Grant>, paidOn: Day, duration: int)
    requires Accepted(gs, paidOn, duration)
    ensures Purchase(gs, paidOn, duration)
         == Supersede(gs, paidOn) + [Grant(paidOn, NewEnd(gs, paidOn, duration), duration, None, false)]
    ensures paidOn < NewEnd(gs, paidOn, duration)
    ensures FirstRow(gs, paidOn).Some? ==> gs[FirstRow(gs, paidOn).value].start <= paidOn
  {
    var row := FirstRow(gs, paidOn);
    hide ServiceRejects, ServiceEnd, FirstRow;
    if row.Some? {
      assert !Blocks(gs[row.value], paidOn);
    }
  }

  lemma RefusedRows(gs: seq<Grant>, paidOn: Day, duration: int)
    requires !Accepted(gs, paidOn, duration)
    ensures Purchase(gs, paidOn, duration) == gs
  {
    hide ServiceRejects, RepositoryRejects, ServiceEnd, RepositoryEnd, ValidGrantDates, Supersede;
  }

  /** The rows before the new grant: one is cut at the paid day, the others stay. */
  lemma SupersededRow(gs: seq<Grant>, paidOn: Day, i: nat)
    requires Shaped(gs) && i < |gs|
    requires FirstRow(gs, paidOn).Some? ==> gs[FirstRow(gs, paidOn).value].start <= paidOn
    ensures
      var g := Supersede(gs, paidOn)[i];
      && g.start == gs[i].start && g.start <= Cut(g) <= g.end && Cut(g) <= Cut(gs[i])
      && (if FirstRow(gs, paidOn) == Some(i) then Cut(g) == paidOn else g == gs[i])
  {
    hide FirstRow;
  }

  lemma PurchaseKeepsShape(gs: seq<Grant>, paidOn: Day, duration: int)
    requires Shaped(gs)
    ensures Shaped(Purchase(gs, paidOn, duration))
  {
    hide Purchase, Accepted, Supersede, FirstRow, NewEnd;
    if Accepted(gs, paidOn, duration) {
      AcceptedRows(gs, paidOn, duration);
      forall i | 0 <= i < |gs|
        ensures Supersede(gs, paidOn)[i].start <= Cut(Supersede(gs, paidOn)[i]) <= Supersede(gs, paidOn)[i].end
      {
        SupersededRow(gs, paidOn, i);
      }
    } else {
      RefusedRows(gs, paidOn, duration);
    }
  }

  ghost predicate NeverTogether(g: Grant, h: Grant) {
    forall d :: DeriveLifecycle(g, d).Active? ==> !DeriveLifecycle(h, d).Active?
  }

  /** Two grants are never active together exactly when their stretches do not meet. */
  lemma ApartMeansDisjoint(g: Grant, h: Grant)
    requires g.start <= Cut(g) <= g.end && h.start < Cut(h) <= h.end
    ensures NeverTogether(g, h) <==> Apart(g, h.start, Cut(h))
  {
    hide DeriveLifecycle, Cut;
    forall d ensures DeriveLifecycle(g, d).Active? <==> g.start <= d < Cut(g) {
      ActiveIsInterval(g, d);
    }
    forall d ensures DeriveLifecycle(h, d).Active? <==> h.start <= d < Cut(h) {
      ActiveIsInterval(h, d);
    }
    if !Apart(g, h.start, Cut(h)) {
      var d := Max(g.start, h.start);
      assert DeriveLifecycle(g, d).Active? && DeriveLifecycle(h, d).Active?;
    }
  }

  lemma AtMostOneIsPairwise(gs: seq<Grant>)
    ensures AtMostOneActive(gs) <==> forall i, j :: 0 <= i < j < |gs| ==> NeverTogether(gs[i], gs[j])
  {
    hide DeriveLifecycle;
    if AtMostOneActive(gs) {
      forall i, j | 0 <= i < j < |gs| ensures NeverTogether(gs[i], gs[j]) {
      }
    }
    if forall i, j :: 0 <= i < j < |gs| ==> NeverTogether(gs[i], gs[j]) {
      forall i, j, d | 0 <= i < j < |gs| && DeriveLifecycle(gs[i], d).Active?
        ensures !DeriveLifecycle(gs[j], d).Active?
      {
        assert NeverTogether(gs[i], gs[j]);
      }
    }
  }

  /** Cutting a grant short makes it active on no new day. */
  lemma ShorterNeverTogether(g: Grant, h: Grant, g': Grant, h': Grant)
    requires NeverTogether(g, h)
    requires g'.start == g.start && Cut(g') <= Cut(g) && Cut(g) <= g.end && Cut(g') <= g'.end
    requires h'.start == h.start && Cut(h') <= Cut(h) && Cut(h) <= h.end && Cut(h') <= h'.end
    ensures NeverTogether(g', h')
  {
    hide DeriveLifecycle, Cut;
    forall d | DeriveLifecycle(g', d).Active? ensures !DeriveLifecycle(h', d).Active? {
      ActiveIsInterval(g', d);
      ActiveIsInterval(g, d);
      ActiveIsInterval(h', d);
      ActiveIsInterval(h, d);
    }
  }

  lemma OldPairsStayDisjoint(gs: seq<Grant>, paidOn: Day, i: nat, j: nat)
    requires Shaped(gs) && AtMostOneActive(gs) && i < j < |gs|
    requires FirstRow(gs, paidOn).Some? ==> gs[FirstRow(gs, paidOn).value].start <= paidOn
    ensures NeverTogether(Supersede(gs, paidOn)[i], Supersede(gs, paidOn)[j])
  {
    AtMostOneIsPairwise(gs);
    SupersededRow(gs, paidOn, i);
    SupersededRow(gs, paidOn, j);
    hide AtMostOneActive, Supersede, FirstRow, NeverTogether;
    ShorterNeverTogether(gs[i], gs[j], Supersede(gs, paidOn)[i], Supersede(gs, paidOn)[j]);
  }

  lemma NewPairIsApart(gs: seq<Grant>, paidOn: Day, end: Day, duration: int, i: nat)
    requires Shaped(gs) && i < |gs| && paidOn < end
    requires FirstRow(gs, paidOn).Some? ==> gs[FirstRow(gs, paidOn).value].start <= paidOn
    ensures NeverTogether(Supersede(gs, paidOn)[i], Grant(paidOn, end, duration, None, false))
       <==> FirstRow(gs, paidOn) == Some(i) || Apart(gs[i], paidOn, end)
  {
    SupersededRow(gs, paidOn, i);
    hide Supersede, FirstRow, DeriveLifecycle;
    ApartMeansDisjoint(Supersede(gs, paidOn)[i], Grant(paidOn, end, duration, None, false));
  }

  /** Main result for one purchase: an accepted purchase keeps every day served by at most one grant exactly
      when every grant it does not supersede is apart from the new one. */
  lemma PurchaseDisjointExactly(gs: seq<Grant>, paidOn: Day, duration: int)
    requires Shaped(gs) && AtMostOneActive(gs) && Accepted(gs, paidOn, duration)
    ensures AtMostOneActive(Purchase(gs, paidOn, duration)) <==> Clear(gs, paidOn, duration)
  {
    AcceptedRows(gs, paidOn, duration);
    var n, end := |gs|, NewEnd(gs, paidOn, duration);
    var before, rows := Supersede(gs, paidOn), Purchase(gs, paidOn, duration);
    AtMostOneIsPairwise(rows);
    hide Accepted, AtMostOneActive, NewEnd, Supersede, FirstRow, Purchase, NeverTogether, Apart;
    assert rows[n] == Grant(paidOn, end, duration, None, false);
    forall i | 0 <= i < n
      ensures rows[i] == before[i]
      ensures NeverTogether(rows[i], rows[n]) <==> FirstRow(gs, paidOn) == Some(i) || Apart(gs[i], paidOn, end)
    {
      NewPairIsApart(gs, paidOn, end, duration, i);
    }
    forall i, j | 0 <= i < j < n ensures NeverTogether(rows[i], rows[j]) {
      OldPairsStayDisjoint(gs, paidOn, i, j);
    }
  }

  // ---------------------------------------------------------------------------
  // Runs
  // ---------------------------------------------------------------------------

  lemma RevokeKeeps(gs: seq<Grant>, k: nat)
    requires Shaped(gs) && AtMostOneActive(gs)
    ensures Shaped(Revoke(gs, k)) && AtMostOneActive(Revoke(gs, k))
  {
    var t := Revoke(gs, k);
    forall i, j, d | 0 <= i < j < |t| && DeriveLifecycle(t[i], d).Active? ensures !DeriveLifecycle(t[j], d).Active? {
      assert DeriveLifecycle(gs[i], d).Active?;
    }
  }

  /** No day is ever served twice, at the start and after each event. */
  ghost predicate AlwaysDisjoint(gs: seq<Grant>, es: seq<Event>)
    decreases |es|
  {
    AtMostOneActive(gs) && (es != [] ==> AlwaysDisjoint(Step(gs, es[0]), es[1..]))
  }

  predicate ClearEvent(gs: seq<Grant>, e: Event) {
    e.Purchased? && Accepted(gs, e.paidOn, e.duration) ==> Clear(gs, e.paidOn, e.duration)
  }

  /** Every purchase of the run that is accepted is clear when it is. */
  predicate ClearRun(gs: seq<Grant>, es: seq<Event>)
    decreases |es|
  {
    es == [] || (ClearEvent(gs, es[0]) && ClearRun(Step(gs, es[0]), es[1..]))
  }

  lemma StepDisjointExactly(gs: seq<Grant>, e: Event)
    requires Shaped(gs) && AtMostOneActive(gs)
    ensures Shaped(Step(gs, e))
    ensures AtMostOneActive(Step(gs, e)) <==> ClearEvent(gs, e)
  {
    hide Accepted, Clear, Purchase, AtMostOneActive, Shaped, Revoke;
    match e
    case Purchased(paidOn, duration) =>
      PurchaseKeepsShape(gs, paidOn, duration);
      if Accepted(gs, paidOn, duration) {
        PurchaseDisjointExactly(gs, paidOn, duration);
      } else {
        RefusedRows(gs, paidOn, duration);
      }
    case RevokedAt(k) =>
      RevokeKeeps(gs, k);
  }

  /** Main result: over any run of purchases and revocations, paid and revoked in any order, no day is ever
      served twice exactly when every accepted purchase is clear. Revoking never breaks it. */
  lemma {:induction false} DisjointExactlyWhenClear(gs: seq<Grant>, es: seq<Event>)
    requires Shaped(gs) && AtMostOneActive(gs)
    ensures AlwaysDisjoint(gs, es) <==> ClearRun(gs, es)
    decreases |es|
  {
    hide Shaped, AtMostOneActive, Step, ClearEvent;
    if es != [] {
      StepDisjointExactly(gs, es[0]);
      if ClearEvent(gs, es[0]) {
        DisjointExactlyWhenClear(Step(gs, es[0]), es[1..]);
      }
    }
  }

  /** Orderly runs are clear: no purchase after a revocation is paid before the revoked grant began. */
  lemma RevocationsStayDisjoint(es: seq<Event>)
    requires OrderlyRun([], es)
    ensures AlwaysDisjoint([], es) && ClearRun([], es) && AtMostOneActive(Run([], es))
  {
    OrderlyIsDisjoint([], es);
    DisjointExactlyWhenClear([], es);
  }

  lemma {:induction false} OrderlyIsDisjoint(gs: seq<Grant>, es: seq<Event>)
    requires Chain(gs) && OrderlyRun(gs, es)
    ensures AlwaysDisjoint(gs, es) && AtMostOneActive(Run(gs, es))
    decreases |es|
  {
    hide Chain, AtMostOneActive, Step, Orderly;
    ChainIsDisjoint(gs);
    if es != [] {
      StepKeepsChain(gs, es[0]);
      OrderlyIsDisjoint(Step(gs, es[0]), es[1..]);
    }
  }

  // ---------------------------------------------------------------------------
  // Late orders
  // ---------------------------------------------------------------------------

  /** A late order that is clear: with one grant, bought on day 350 and revoked since, an order paid on day 340
      is not orderly, is accepted, and leaves no day served twice. */
  lemma LateOrderMayBeClear()
    ensures
      var gs := [Grant(350, 715, 365, None, true)];
      && !Orderly(gs, Purchased(340, 365)) && Accepted(gs, 340, 365) && Clear(gs, 340, 365)
      && AtMostOneActive(Purchase(gs, 340, 365))
  {
    var gs := [Grant(350, 715, 365, None, true)];
    assert gs[1..] == [] && gs[..0] == [];
    assert PreviousActive(gs, 340) == None;
    PurchaseDisjointExactly(gs, 340, 365);
  }

  lemma FirstPurchase(g: Grant)
    requires g == Grant(0, 365, 365, None, false)
    ensures Purchase([], 0, 365) == [g]
  {
    PurchaseShape([], 0, 365);
  }

  lemma Renew(g: Grant)
    requires g == Grant(0, 365, 365, None, false)
    ensures Purchase([g], 350, 365) == [g.(supersededOn := Some(350)), Grant(350, 730, 365, None, false)]
  {
    PurchaseShape([g], 350, 365);
  }

  lemma LateOrder(gs: seq<Grant>)
    requires gs == [Grant(0, 365, 365, Some(350), false), Grant(350, 730, 365, None, true)]
    ensures Purchase(gs, 340, 365) == gs + [Grant(340, 730, 365, None, false)]
  {
    assert Renewable(gs[0], 340);
    assert !ServiceRejects(gs, 340) && ServiceEnd(gs, 340, 365) == 730;
    assert !RepositoryRejects(gs, 340) && FirstRow(gs, 340) == None;
  }

  /** A late order that is not clear: buy on day 0, renew on day 350, revoke the renewal, then process an
      order paid on day 340.  It is approved, and on days 340 to 349 both
      the first grant and the new one are active. */
  lemma LateOrderAfterRevocationOverlaps()
    ensures !AtMostOneActive(
              Run([], [Purchased(0, 365), Purchased(350, 365), RevokedAt(1), Purchased(340, 365)]))
  {
    var es := [Purchased(0, 365), Purchased(350, 365), RevokedAt(1), Purchased(340, 365)];
    var first := Grant(0, 365, 365, None, false);
    var g1 := [first];
    var g2 := [first.(supersededOn := Some(350)), Grant(350, 730, 365, None, false)];
    var g3 := [first.(supersededOn := Some(350)), Grant(350, 730, 365, None, true)];
    var g4 := g3 + [Grant(340, 730, 365, None, false)];
    FirstPurchase(first);
    Renew(first);
    LateOrder(g3);
    hide Purchase;
    RunFour(es, g1, g2, g3, g4);
    assert DeriveLifecycle(g4[0], 345).Active? && DeriveLifecycle(g4[2], 345).Active?;
  }

  lemma RunFour(es: seq<Event>, g1: seq<Grant>, g2: seq<Grant>, g3: seq<Grant>, g4: seq<Grant>)
    requires |es| == 4
    requires Step([], es[0]) == g1 && Step(g1, es[1]) == g2 && Step(g2, es[2]) == g3 && Step(g3, es[3]) == g4
    ensures Run([], es) == g4
  {
    hide Step;
    assert es[1..][0] == es[1] && es[1..][1..] == es[2..];
    assert es[2..][0] == es[2] && es[2..][1..] == es[3..];
    assert es[3..][0] == es[3] && es[3..][1..] == [];
    assert Run(g3, es[3..]) == Run(g4, []);
    assert Run(g2, es[2..]) == Run(g3, es[3..]);
    assert Run(g1, es[1..]) == Run(g2, es[2..]);
  }
}
