/** What each event of the worker queue leaves, written out field by field, and what the counters add up to over
    whole runs.  A request to drain is answered at once exactly when nothing is active, queued or retained, and
    otherwise with the finish that empties the queue. */
module WorkerOutcomes {
  import opened Wrappers
  import opened WorkerQueue

  // ---------------------------------------------------------------------------
  // Dispatching only starts work
  // ---------------------------------------------------------------------------

  /** Dispatching adds to the active ids, and what it adds was queued or retained. */
  ghost predicate OnlyStarts(s: State, r: State) {
    && s.active <= r.active
    && (forall id :: id in r.active ==> id in s.active || id in s.queue || id in s.recovery)
    && (forall id :: id in r.queue || id in r.recovery ==> id in s.queue || id in s.recovery)
    && (forall id :: id in s.queue || id in s.recovery ==> id in r.active || id in r.queue || id in r.recovery)
    && r.rejected == s.rejected && r.overflow == s.overflow
    && r.completed == s.completed && r.failed == s.failed
  }

  lemma PromoteOnlyStarts(lim: Limits, s: State)
    requires Distinct(s) && Bounded(lim, s)
    ensures OnlyStarts(s, Promote(lim, s))
  {
    hide Promote, Distinct;
    PromoteMovesPrefix(lim, s);
    var r := Promote(lim, s);
    var k := |s.recovery| - |r.recovery|;
    assert s.recovery == s.recovery[..k] + s.recovery[k..];
  }

  lemma StartOnlyStarts(s: State)
    requires s.queue != []
    ensures OnlyStarts(s, StartNext(s))
  {
    assert s.queue == [s.queue[0]] + s.queue[1..];
  }

  lemma StartsCompose(s: State, t: State, r: State)
    requires OnlyStarts(s, t) && OnlyStarts(t, r)
    ensures OnlyStarts(s, r)
  {
  }

  lemma {:induction false} LoopOnlyStarts(lim: Limits, s: State)
    requires lim.Valid() && Distinct(s) && Bounded(lim, s)
    ensures OnlyStarts(s, DispatchLoop(lim, s))
    decreases |s.queue| + |s.recovery|
  {
    hide Promote, Distinct, OnlyStarts, State.Log, State.Pending;
    if |s.active| < lim.concurrency && s.queue != [] {
      var t := StartNext(s);
      StartNextKeeps(s);
      StartOnlyStarts(s);
      PromoteKeeps(lim, t);
      PromoteOnlyStarts(lim, t);
      LoopOnlyStarts(lim, Promote(lim, t));
      StartsCompose(s, t, Promote(lim, t));
      StartsCompose(s, Promote(lim, t), DispatchLoop(lim, s));
    } else {
      NothingStarts(s);
    }
  }

  lemma NothingStarts(s: State)
    ensures OnlyStarts(s, s)
  {
  }

  lemma DispatchOnlyStarts(lim: Limits, s: State)
    requires lim.Valid() && Distinct(s) && Bounded(lim, s)
    ensures OnlyStarts(s, Dispatch(lim, s))
  {
    hide Promote, Distinct, OnlyStarts, DispatchLoop, State.Log, State.Pending;
    PromoteKeeps(lim, s);
    PromoteOnlyStarts(lim, s);
    LoopOnlyStarts(lim, Promote(lim, s));
    StartsCompose(s, Promote(lim, s), Dispatch(lim, s));
  }

  // ---------------------------------------------------------------------------
  // One event
  // ---------------------------------------------------------------------------

  /** An id enqueued while there is room joins the end of everything admitted and of what is pending, and nothing
      else is counted. */
  lemma EnqueuedWithRoom(lim: Limits, s: State, id: Id, retain: bool)
    requires lim.Valid() && Inv(lim, s) && id !in s.active && id !in s.queue
    requires id != "" && |s.queue| < lim.maxBacklog
    ensures
      var r := Step(lim, s, Enqueued(id, retain));
      && r.starts + r.queue + r.recovery == s.starts + s.queue + s.recovery + [id]
      && |r.active| + |r.queue| + |r.recovery| == |s.active| + |s.queue| + |s.recovery| + 1
      && (forall x :: x in s.active ==> x in r.active)
      && (id in r.active || id in r.queue)
      && r.rejected == s.rejected && r.overflow == s.overflow
      && r.completed == s.completed && r.failed == s.failed
      && r.waiting == s.waiting && r.resolved == s.resolved
  {
    hide Dispatch;
    EnqueueDispatches(lim, s, id, retain);
    assert s.recovery == [];
    var t := s.(recovery := Remove(s.recovery, id), queue := s.queue + [id]);
    assert t.queue + t.recovery == s.queue + [id] && s.queue + s.recovery == s.queue;
    assert Distinct(t);
    DispatchOnlyStarts(lim, t);
    DispatchRecoveryStaysEmpty(lim, t);
    assert t.queue[|s.queue|] == id;
  }

  lemma DispatchRecoveryStaysEmpty(lim: Limits, s: State)
    requires lim.Valid() && Distinct(s) && Bounded(lim, s) && s.recovery == []
    ensures Dispatch(lim, s).recovery == []
  {
    hide Distinct, DispatchLoop;
    LoopRecoveryStaysEmpty(lim, s);
  }

  lemma {:induction false} LoopRecoveryStaysEmpty(lim: Limits, s: State)
    requires s.recovery == []
    ensures DispatchLoop(lim, s).recovery == []
    decreases |s.queue|
  {
    if |s.active| < lim.concurrency && s.queue != [] {
      LoopRecoveryStaysEmpty(lim, StartNext(s));
    }
  }

  /** An id enqueued without room is rejected and counted; it is retained exactly when that was asked for, it is
      new to the recovery set and that set has room, and an id turned away from a full set is counted as
      overflow. The empty id changes nothing. */
  lemma EnqueuedWithoutRoom(lim: Limits, s: State, id: Id, retain: bool)
    requires lim.Valid() && Inv(lim, s) && id !in s.active && id !in s.queue
    requires id == "" || |s.queue| == lim.maxBacklog
    ensures
      Step(lim, s, Enqueued(id, retain)) ==
      if id == "" then s
      else if retain && id !in s.recovery && |s.recovery| < lim.maxPendingRecovery then
        s.(rejected := s.rejected + 1, recovery := s.recovery + [id])
      else if retain && id !in s.recovery then
        s.(rejected := s.rejected + 1, overflow := s.overflow + 1)
      else
        s.(rejected := s.rejected + 1)
    ensures !Accepts(lim, s, id)
  {
    hide Dispatch, Inv;
  }

  /** A finish takes the id out, counts it as completed or as failed, leaves the other active ids active and the
      admitted ids in their order. */
  lemma FinishedOnce(lim: Limits, s: State, id: Id, ok: bool)
    requires lim.Valid() && Inv(lim, s) && id in s.active
    ensures
      var r := Step(lim, s, Finished(id, ok));
      && r.completed == s.completed + (if ok then 1 else 0)
      && r.failed == s.failed + (if ok then 0 else 1)
      && r.rejected == s.rejected && r.overflow == s.overflow
      && id !in r.active && id !in r.queue && id !in r.recovery
      && (forall x :: x in s.active && x != id ==> x in r.active)
      && r.starts + r.queue + r.recovery == s.starts + s.queue + s.recovery
  {
    var u := Retire(s, id, ok);
    RetireKeepsDistinct(s, id, ok);
    NotPending(s, id);
    FinishStep(lim, s, id, ok);
    hide Dispatch, State.Log, Distinct, NoDuplicates, Settled;
    DispatchOnlyStarts(lim, u);
    LogIsAll(s);
    LogIsAll(Step(lim, s, Finished(id, ok)));
  }

  lemma LogIsAll(s: State)
    ensures s.Log() == s.starts + s.queue + s.recovery
  {
  }

  lemma NotPending(s: State, id: Id)
    requires Distinct(s) && id in s.active
    ensures id !in s.queue && id !in s.recovery
  {
    var b := s.queue + s.recovery;
    assert forall i :: 0 <= i < |s.queue| ==> s.queue[i] == b[i];
    assert forall i :: 0 <= i < |s.recovery| ==> s.recovery[i] == b[|s.queue| + i];
  }

  /** Reclaiming ends with every id queued or active, unless it met an empty id or a full backlog; that one
      attempt is then counted as a rejection. Ids already queued or active cost nothing, and what was active
      stays active. */
  ghost predicate AllTaken(lim: Limits, s: State, r: State, ids: seq<Id>) {
    && (forall x :: x in s.active || x in s.queue ==> x in r.active || x in r.queue)
    && r.overflow == s.overflow && r.completed == s.completed && r.failed == s.failed
    && (r.rejected == s.rejected || r.rejected == s.rejected + 1)
    && (r.rejected == s.rejected + 1 ==> |r.queue| == lim.maxBacklog)
    && (r.rejected == s.rejected && "" !in ids ==> forall x :: x in ids ==> x in r.active || x in r.queue)
  }

  lemma {:induction false} ReclaimTakesAll(lim: Limits, s: State, ids: seq<Id>)
    requires lim.Valid() && Inv(lim, s)
    ensures AllTaken(lim, s, Step(lim, s, ReclaimedAll(ids)), ids)
    decreases |ids|
  {
    hide Enqueue, Inv, OnlyStarts;
    if ids != [] {
      var id, rest := ids[0], ids[1..];
      assert ids == [id] + rest;
      if s.IsQueuedOrActive(id) {
        ReclaimTakesAll(lim, s, rest);
      } else if Accepts(lim, s, id) {
        var t := Enqueue(lim, s, id, false);
        EnqueueStep(lim, s, id, false);
        EnqueuedWithRoom(lim, s, id, false);
        EnqueuedKeepsPending(lim, s, id);
        ReclaimTakesAll(lim, t, rest);
      } else {
        BacklogBound(lim, s);
        EnqueuedWithoutRoom(lim, s, id, false);
      }
    }
  }

  lemma BacklogBound(lim: Limits, s: State)
    requires Inv(lim, s)
    ensures |s.queue| <= lim.maxBacklog
  {
  }

  lemma EnqueuedKeepsPending(lim: Limits, s: State, id: Id)
    requires lim.Valid() && Inv(lim, s) && id !in s.active && id !in s.queue
    requires id != "" && |s.queue| < lim.maxBacklog
    ensures
      var r := Enqueue(lim, s, id, false);
      forall x :: x in s.active || x in s.queue ==> x in r.active || x in r.queue
  {
    hide Dispatch;
    assert s.recovery == [];
    var t := s.(recovery := Remove(s.recovery, id), queue := s.queue + [id]);
    assert t.queue + t.recovery == s.queue + [id] && s.queue + s.recovery == s.queue;
    assert Distinct(t);
    DispatchOnlyStarts(lim, t);
    DispatchRecoveryStaysEmpty(lim, t);
  }

  // ---------------------------------------------------------------------------
  // Drains
  // ---------------------------------------------------------------------------

  /** A drain is answered at once exactly when nothing is active, queued or retained; nothing else changes. */
  lemma DrainRequested(lim: Limits, s: State)
    ensures
      var t := Step(lim, s, Drained);
      var idle := |s.active| + |s.queue| + |s.recovery| == 0;
      && t.resolved == s.resolved + (if idle then 1 else 0)
      && t.waiting == s.waiting + (if idle then 0 else 1)
      && t == s.(resolved := t.resolved, waiting := t.waiting)
  {
  }

  /** Main result: a drain requested with p ids active, queued or retained is answered at once when p is 0; else
      it waits, with those waiting before it, through every shorter run of finishes, and the run of p finishes
      answers all of them. */
  lemma RequestedDrainResolvesExactly(lim: Limits, s: State, es: seq<Event>)
    requires lim.Valid() && Inv(lim, s)
    requires Possible(lim, Step(lim, s, Drained), es)
    requires forall e :: e in es ==> e.Finished?
    ensures
      var p := |s.active| + |s.queue| + |s.recovery|;
      var t := Step(lim, s, Drained);
      var r := Run(lim, t, es);
      && |es| <= p
      && (p == 0 ==> t.resolved == s.resolved + 1 && t.waiting == s.waiting == 0 && r == t)
      && (|es| < p ==> r.resolved == s.resolved && r.waiting == s.waiting + 1)
      && (0 < p == |es| ==> r.resolved == s.resolved + s.waiting + 1 && r.waiting == 0)
  {
    hide Possible, Run, Distinct, Bounded, Settled;
    var t := Step(lim, s, Drained);
    DrainRequested(lim, s);
    StepKeepsInv(lim, s, Drained);
    DrainResolvesExactly(lim, t, es);
    if |es| == 0 {
      EmptyRun(lim, t, es);
    }
  }

  lemma EmptyRun(lim: Limits, s: State, es: seq<Event>)
    requires es == []
    ensures Run(lim, s, es) == s
  {
  }

  // ---------------------------------------------------------------------------
  // Counters over runs
  // ---------------------------------------------------------------------------

  function DrainsIn(es: seq<Event>): nat
    decreases |es|
  {
    if es == [] then 0 else (if es[0].Drained? then 1 else 0) + DrainsIn(es[1..])
  }

  function FinishesIn(es: seq<Event>, ok: bool): nat
    decreases |es|
  {
    if es == [] then 0
    else (if es[0].Finished? && es[0].ok == ok then 1 else 0) + FinishesIn(es[1..], ok)
  }

  lemma StepCounts(lim: Limits, s: State, e: Event)
    requires lim.Valid() && Inv(lim, s) && Enabled(s, e)
    ensures
      var r := Step(lim, s, e);
      && r.resolved + r.waiting == s.resolved + s.waiting + (if e.Drained? then 1 else 0)
      && r.completed == s.completed + (if e.Finished? && e.ok then 1 else 0)
      && r.failed == s.failed + (if e.Finished? && !e.ok then 1 else 0)
  {
    hide Inv, Dispatch, Enqueue, Reclaim, Finish, State.Log, State.Pending;
    match e
    case Enqueued(id, retain) =>
      EnqueueStep(lim, s, id, retain);
      if id != "" && |s.queue| < lim.maxBacklog {
        EnqueuedWithRoom(lim, s, id, retain);
      } else {
        BacklogBound(lim, s);
        EnqueuedWithoutRoom(lim, s, id, retain);
      }
    case Finished(id, ok) =>
      FinishStep(lim, s, id, ok);
      FinishedOnce(lim, s, id, ok);
    case ReclaimedAll(ids) =>
      ReclaimStep(lim, s, ids);
      ReclaimTakesAll(lim, s, ids);
    case Drained =>
      DrainRequested(lim, s);
  }

  /** Over every run: each drain requested is answered or waiting, and the completed and failed counts are the
      numbers of workers that settled that way. */
  lemma {:induction false} RunCounts(lim: Limits, s: State, es: seq<Event>)
    requires lim.Valid() && Inv(lim, s) && Possible(lim, s, es)
    ensures
      var r := Run(lim, s, es);
      && r.resolved + r.waiting == s.resolved + s.waiting + DrainsIn(es)
      && r.completed == s.completed + FinishesIn(es, true)
      && r.failed == s.failed + FinishesIn(es, false)
    decreases |es|
  {
    hide Inv, Step, Enabled;
    if es != [] {
      StepKeepsInv(lim, s, es[0]);
      StepCounts(lim, s, es[0]);
      RunCounts(lim, Step(lim, s, es[0]), es[1..]);
    }
  }
}
