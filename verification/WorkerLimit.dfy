/** The worker limit of the webhook queue: exactly when enqueueing an id that is already queued or active can
    make more workers run than the limit allows. */
module WorkerLimit {
  import opened Wrappers
  import opened WorkerQueue

  /** What the environment may do when nobody checks the ids it enqueues. A worker may finish whose id is not
      active any more, when another worker for the same id has finished before it. */
  predicate Unchecked(s: State, e: Event) {
    e.Finished? ==> e.id in s.active || s.workers > |s.active|
  }

  predicate UncheckedRun(lim: Limits, s: State, es: seq<Event>)
    decreases |es|
  {
    es == [] || (Unchecked(s, es[0]) && UncheckedRun(lim, Step(lim, s, es[0]), es[1..]))
  }

  lemma {:induction false} PossibleIsUnchecked(lim: Limits, s: State, es: seq<Event>)
    requires Possible(lim, s, es)
    ensures UncheckedRun(lim, s, es)
    decreases |es|
  {
    hide Step;
    if es != [] {
      PossibleIsUnchecked(lim, Step(lim, s, es[0]), es[1..]);
    }
  }

  // ---------------------------------------------------------------------------
  // A limit of one
  // ---------------------------------------------------------------------------

  ghost predicate OneAtMost(s: State) {
    s.workers == |s.active| <= 1
  }

  lemma {:induction false} PromoteKeepsWorkers(lim: Limits, s: State)
    ensures Promote(lim, s).active == s.active && Promote(lim, s).workers == s.workers
    decreases |s.recovery|
  {
    if |s.queue| < lim.maxBacklog && s.recovery != [] {
      var next := s.recovery[0];
      var t := s.(recovery := s.recovery[1..]);
      if t.IsQueuedOrActive(next) {
        PromoteKeepsWorkers(lim, t);
      } else {
        PromoteKeepsWorkers(lim, t.(queue := t.queue + [next], recovered := t.recovered + 1));
      }
    }
  }

  lemma {:induction false} DispatchLoopKeepsOne(lim: Limits, s: State)
    requires lim.concurrency == 1 && OneAtMost(s)
    ensures OneAtMost(DispatchLoop(lim, s))
    decreases |s.queue| + |s.recovery|
  {
    hide Promote;
    if |s.active| < lim.concurrency && s.queue != [] {
      var t := StartNext(s);
      assert s.active == {} && t.active == {s.queue[0]};
      PromoteKeepsWorkers(lim, t);
      DispatchLoopKeepsOne(lim, Promote(lim, t));
    }
  }

  lemma DispatchKeepsOne(lim: Limits, s: State)
    requires lim.concurrency == 1 && OneAtMost(s)
    ensures OneAtMost(Dispatch(lim, s))
  {
    hide DispatchLoop, Promote;
    PromoteKeepsWorkers(lim, s);
    DispatchLoopKeepsOne(lim, Promote(lim, s));
  }

  lemma EnqueueKeepsOne(lim: Limits, s: State, id: Id, retain: bool)
    requires lim.concurrency == 1 && OneAtMost(s)
    ensures OneAtMost(Enqueue(lim, s, id, retain))
  {
    hide Dispatch;
    DispatchKeepsOne(lim, s.(recovery := Remove(s.recovery, id), queue := s.queue + [id]));
  }

  lemma {:induction false} ReclaimKeepsOne(lim: Limits, s: State, ids: seq<Id>)
    requires lim.concurrency == 1 && OneAtMost(s)
    ensures OneAtMost(Reclaim(lim, s, ids))
    decreases |ids|
  {
    hide Enqueue, OneAtMost;
    if ids != [] {
      if s.IsQueuedOrActive(ids[0]) {
        ReclaimKeepsOne(lim, s, ids[1..]);
      } else {
        EnqueueKeepsOne(lim, s, ids[0], false);
        ReclaimKeepsOne(lim, Enqueue(lim, s, ids[0], false), ids[1..]);
      }
    }
  }

  lemma StepKeepsOne(lim: Limits, s: State, e: Event)
    requires lim.concurrency == 1 && OneAtMost(s) && Unchecked(s, e)
    ensures OneAtMost(Step(lim, s, e))
  {
    match e
    case Enqueued(id, retain) => EnqueueKeepsOne(lim, s, id, retain);
    case Finished(id, ok) =>
      hide Dispatch;
      assert OneAtMost(Retire(s, id, ok));
      DispatchKeepsOne(lim, Retire(s, id, ok));
    case ReclaimedAll(ids) => ReclaimKeepsOne(lim, s, ids);
    case Drained =>
  }

  /** Under a limit of one the limit holds along every run, whatever ids are enqueued. */
  lemma {:induction false} LimitOfOneHolds(lim: Limits, s: State, es: seq<Event>)
    requires lim.concurrency == 1 && OneAtMost(s) && UncheckedRun(lim, s, es)
    ensures OneAtMost(Run(lim, s, es))
    decreases |es|
  {
    hide Step, OneAtMost, Unchecked;
    if es != [] {
      StepKeepsOne(lim, s, es[0]);
      LimitOfOneHolds(lim, Step(lim, s, es[0]), es[1..]);
    }
  }

  // ---------------------------------------------------------------------------
  // A limit of two or more
  // ---------------------------------------------------------------------------

  lemma {:induction false} LengthBound(ids: set<Id>) returns (n: nat)
    ensures forall x :: x in ids ==> |x| < n
    decreases |ids|
  {
    n := 1;
    if x :| x in ids {
      var m := LengthBound(ids - {x});
      n := if |x| < m then m else |x| + 1;
      assert forall y :: y in ids ==> y == x || y in ids - {x};
    }
  }

  lemma NewId(ids: set<Id>) returns (x: Id)
    ensures x !in ids && x != ""
  {
    var n := LengthBound(ids);
    x := seq(n + 1, _ => 'a');
  }

  lemma OneMore(lim: Limits, s: State, e: Event, es: seq<Event>)
    requires Enabled(s, e) && Possible(lim, Step(lim, s, e), es)
    ensures Possible(lim, s, [e] + es) && Run(lim, s, [e] + es) == Run(lim, Step(lim, s, e), es)
  {
    hide Step, Enabled;
    assert ([e] + es)[1..] == es;
  }

  /** Two workers share an active entry: new ids fill the free slots, and one worker too many runs. */
  lemma {:induction false} FillUp(lim: Limits, s: State) returns (es: seq<Event>)
    requires lim.Valid() && s.queue == [] && s.recovery == []
    requires s.workers == |s.active| + 1 && |s.active| < lim.concurrency
    ensures Possible(lim, s, es) && Run(lim, s, es).workers > lim.concurrency
    decreases lim.concurrency - |s.active|
  {
    var x := NewId(s.active);
    StartsAtOnce(lim, s, x);
    var e := Enqueued(x, true);
    var t := Step(lim, s, e);
    hide Step, Enqueue;
    if |t.active| < lim.concurrency {
      es := FillUp(lim, t);
    } else {
      es := [];
    }
    OneMore(lim, s, e, es);
    es := [e] + es;
  }

  /** All slots busy, and a repeated id last in the backlog. */
  ghost predicate Repeated(lim: Limits, s: State, id: Id) {
    && s.recovery == [] && s.queue != [] && |s.active| == s.workers == lim.concurrency
    && var rest := s.queue[..|s.queue| - 1];
       && s.queue[|s.queue| - 1] == id && (id in s.active || id in rest)
       && NoDuplicates(rest) && Apart(rest, s.active)
  }

  lemma FinishStartsHead(lim: Limits, s: State, x: Id)
    requires lim.Valid() && s.recovery == [] && s.queue != [] && |s.active| == lim.concurrency && x in s.active
    requires |s.active - {x}| == lim.concurrency - 1
    requires s.queue[0] !in s.active || |s.queue| == 1
    ensures
      var u := Finish(lim, s, x, true);
      && u.queue == s.queue[1..] && u.recovery == [] && u.active == s.active - {x} + {s.queue[0]}
      && u.workers == s.workers
  {
    var r := Retire(s, x, true);
    assert Promote(lim, r) == r;
    var u := StartNext(r);
    assert Promote(lim, u) == u;
    assert DispatchLoop(lim, u) == u by {
      if s.queue[0] !in s.active {
        assert |u.active| == lim.concurrency;
      } else {
        assert u.queue == [];
      }
    }
    assert Dispatch(lim, r) == u;
    assert s.queue[0] in u.active;
  }

  lemma {:induction false} RunDown(lim: Limits, s: State, id: Id) returns (es: seq<Event>)
    requires lim.Valid() && lim.concurrency >= 2 && Repeated(lim, s, id)
    ensures Possible(lim, s, es) && Run(lim, s, es).workers > lim.concurrency
    decreases |s.queue|
  {
    var x := AnotherThan(s.active, id);
    var n, h := |s.queue| - 1, s.queue[0];
    assert n > 0 ==> h == s.queue[..n][0];
    FinishStartsHead(lim, s, x);
    var e := Finished(x, true);
    var t := Step(lim, s, e);
    assert Enabled(s, e);
    RunDownStep(lim, s, id, x, t);
    hide Step, Repeated, Finish;
    if n == 0 {
      es := FillUp(lim, t);
    } else {
      es := RunDown(lim, t, id);
    }
    OneMore(lim, s, e, es);
    es := [e] + es;
  }

  lemma AnotherThan(ids: set<Id>, id: Id) returns (x: Id)
    requires |ids| >= 2
    ensures x in ids && x != id && |ids - {x}| == |ids| - 1
  {
    if forall y :: y in ids ==> y == id {
      assert ids <= {id};
      SubsetSize(ids, {id});
    }
    x :| x in ids && x != id;
  }

  lemma {:induction false} SubsetSize(a: set<Id>, b: set<Id>)
    requires a <= b
    ensures |a| <= |b|
    decreases |a|
  {
    if x :| x in a {
      SubsetSize(a - {x}, b - {x});
    }
  }

  lemma RunDownStep(lim: Limits, s: State, id: Id, x: Id, t: State)
    requires Repeated(lim, s, id) && x in s.active && x != id && |s.active - {x}| == lim.concurrency - 1
    requires t.queue == s.queue[1..] && t.recovery == [] && t.active == s.active - {x} + {s.queue[0]}
    requires t.workers == s.workers
    ensures |s.queue| == 1 ==> t.queue == [] && t.workers == |t.active| + 1 && |t.active| < lim.concurrency
    ensures |s.queue| > 1 ==> Repeated(lim, t, id)
  {
    var n, h := |s.queue| - 1, s.queue[0];
    if n == 0 {
      assert id in s.active && h == id;
      assert t.active == s.active - {x};
    } else {
      var rest, after := s.queue[..n], t.queue[..n - 1];
      assert h == rest[0] && h !in s.active;
      assert |t.active| == lim.concurrency;
      forall i | 0 <= i < |after| ensures after[i] == rest[i + 1] && after[i] !in t.active {
        assert after[i] == s.queue[i + 1];
      }
      forall i, j | 0 <= i < j < |after| ensures after[i] != after[j] {
        assert after[i] == rest[i + 1] && after[j] == rest[j + 1];
      }
      if id !in t.active {
        var i :| 0 <= i < |rest| && rest[i] == id;
        assert after[i - 1] == id;
      }
    }
  }

  /** Enqueueing an accepted id that is queued or active already: with two slots or more, the environment can go
      on, enqueueing only new ids and finishing active ones, until too many workers run. */
  lemma RepeatedIdCanExceed(lim: Limits, s: State, id: Id, retain: bool) returns (es: seq<Event>)
    requires lim.Valid() && Inv(lim, s) && Accepts(lim, s, id) && s.IsQueuedOrActive(id) && lim.concurrency >= 2
    ensures Possible(lim, Enqueue(lim, s, id, retain), es)
    ensures Run(lim, Enqueue(lim, s, id, retain), es).workers > lim.concurrency
  {
    var t := Enqueue(lim, s, id, retain);
    if |s.active| == lim.concurrency {
      BusyRepeats(lim, s, id, retain);
      hide Enqueue, Repeated, Inv;
      es := RunDown(lim, t, id);
    } else {
      RepeatedIdStarts(lim, s, id, retain);
      hide Enqueue, Inv;
      es := FillUp(lim, t);
    }
  }

  lemma BusyRepeats(lim: Limits, s: State, id: Id, retain: bool)
    requires lim.Valid() && Inv(lim, s) && Accepts(lim, s, id) && s.IsQueuedOrActive(id)
    requires |s.active| == lim.concurrency
    ensures Repeated(lim, Enqueue(lim, s, id, retain), id)
  {
    var t := s.(recovery := Remove(s.recovery, id), queue := s.queue + [id]);
    assert s.recovery == [] && s.queue + s.recovery == s.queue;
    assert Dispatch(lim, t) == t;
    assert t.queue[..|t.queue| - 1] == s.queue;
  }

  // ---------------------------------------------------------------------------
  // Main results
  // ---------------------------------------------------------------------------

  /** Some continuation with new ids and finishing active workers runs more workers than the limit. */
  ghost predicate CanExceed(lim: Limits, s: State) {
    exists es :: Possible(lim, s, es) && Run(lim, s, es).workers > lim.concurrency
  }

  /** Main result: in any state the queue keeps, enqueueing an id makes it possible to exceed the worker limit
      exactly when the id is accepted, is queued or active already, and the limit is two or more. */
  lemma ExceedsExactly(lim: Limits, s: State, id: Id, retain: bool)
    requires lim.Valid() && Inv(lim, s)
    ensures CanExceed(lim, Enqueue(lim, s, id, retain))
       <==> Accepts(lim, s, id) && s.IsQueuedOrActive(id) && lim.concurrency >= 2
  {
    var t := Enqueue(lim, s, id, retain);
    if Accepts(lim, s, id) && s.IsQueuedOrActive(id) && lim.concurrency >= 2 {
      var es := RepeatedIdCanExceed(lim, s, id, retain);
    } else if Accepts(lim, s, id) && s.IsQueuedOrActive(id) {
      EnqueueKeepsOne(lim, s, id, retain);
      hide Enqueue, Inv;
      forall es | Possible(lim, t, es) ensures Run(lim, t, es).workers <= lim.concurrency {
        PossibleIsUnchecked(lim, t, es);
        LimitOfOneHolds(lim, t, es);
      }
    } else {
      EnqueueIsSafeExactly(lim, s, id, retain);
      hide Enqueue;
      forall es | Possible(lim, t, es) ensures Run(lim, t, es).workers <= lim.concurrency {
        RunIsFifo(lim, t, es);
      }
    }
  }

  ghost predicate AlwaysWithinLimit(lim: Limits) {
    forall es :: UncheckedRun(lim, Empty, es) ==> Run(lim, Empty, es).workers <= lim.concurrency
  }

  /** Main result: without any check of the enqueued ids, the limit holds along every run exactly when it is
      one. */
  lemma LimitHoldsUncheckedExactly(lim: Limits)
    requires lim.Valid()
    ensures AlwaysWithinLimit(lim) <==> lim.concurrency == 1
  {
    hide Enqueue, Step, Inv;
    if lim.concurrency == 1 {
      forall es | UncheckedRun(lim, Empty, es) ensures Run(lim, Empty, es).workers <= lim.concurrency {
        LimitOfOneHolds(lim, Empty, es);
      }
    } else {
      var es := TwiceExceeds(lim);
    }
  }

  lemma TwiceExceeds(lim: Limits) returns (es: seq<Event>)
    requires lim.Valid() && lim.concurrency >= 2
    ensures UncheckedRun(lim, Empty, es) && Run(lim, Empty, es).workers > lim.concurrency
  {
    hide Enqueue, Inv, Accepts, Step, Unchecked;
    EmptyInv(lim);
    var s := Enqueue(lim, Empty, "a", true);
    StartedIsActive(lim, Empty, "a");
    hide State.IsQueuedOrActive;
    var rest := RepeatedIdCanExceed(lim, s, "a", true);
    PossibleIsUnchecked(lim, Enqueue(lim, s, "a", true), rest);
    EnqueuedFirst(lim, s, "a", rest);
    EnqueuedFirst(lim, Empty, "a", [Enqueued("a", true)] + rest);
    es := [Enqueued("a", true)] + ([Enqueued("a", true)] + rest);
  }

  lemma StartedIsActive(lim: Limits, s: State, id: Id)
    requires lim.Valid() && Inv(lim, s) && id != "" && !s.IsQueuedOrActive(id)
    requires s.queue == [] && s.recovery == [] && |s.active| < lim.concurrency
    ensures
      var t := Enqueue(lim, s, id, true);
      Inv(lim, t) && Accepts(lim, t, id) && t.IsQueuedOrActive(id)
  {
    EnqueueStep(lim, s, id, true);
    StartsAtOnce(lim, s, id);
    hide Enqueue, Inv;
  }

  lemma EnqueuedFirst(lim: Limits, s: State, id: Id, es: seq<Event>)
    requires UncheckedRun(lim, Enqueue(lim, s, id, true), es)
    ensures UncheckedRun(lim, s, [Enqueued(id, true)] + es)
    ensures Run(lim, s, [Enqueued(id, true)] + es) == Run(lim, Enqueue(lim, s, id, true), es)
  {
    hide Enqueue;
    assert ([Enqueued(id, true)] + es)[1..] == es;
  }

  /** The least instance: with two slots free, enqueueing one id twice runs two workers that share one active
      entry, so another id starts as well and three workers run under a limit of two. */
  lemma DuplicatesExceedConcurrency()
    ensures
      var lim := Limits(2, 10, 40);
      var s := Run(lim, Empty, [Enqueued("a", true), Enqueued("a", true), Enqueued("b", true)]);
      s.workers == 3 && |s.active| == 2
  {
    var lim := Limits(2, 10, 40);
    StartsAtOnce(lim, Empty, "a");
    var s1 := Enqueue(lim, Empty, "a", true);
    StartsAtOnce(lim, s1, "a");
    var s2 := Enqueue(lim, s1, "a", true);
    assert s2.active == {"a"};
    StartsAtOnce(lim, s2, "b");
    var s3 := Enqueue(lim, s2, "b", true);
    assert s3.active == {"a", "b"};
    var es := [Enqueued("a", true), Enqueued("a", true), Enqueued("b", true)];
    assert es[1..] == [Enqueued("a", true), Enqueued("b", true)] && es[1..][1..] == [Enqueued("b", true)];
    assert es[1..][1..][1..] == [];
    assert Run(lim, Empty, es) == Run(lim, s1, es[1..]) == Run(lim, s2, es[1..][1..]) == s3;
  }
}
