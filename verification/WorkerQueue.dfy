/** The bounded webhook worker queue: a FIFO backlog, a bounded recovery set, a set of
    active ids under a concurrency limit, and promises waiting for the queue to drain.

    `State` and the functions over it specify one synchronous turn of the queue each;
    `WebhookWorkerQueue` is the class itself and is proved to perform exactly those turns. */
module WorkerQueue {
  import opened Wrappers

  type Id = string

  datatype Limits = Limits(concurrency: nat, maxBacklog: nat, maxPendingRecovery: nat) {
    ghost predicate Valid() {
      concurrency >= 1 && maxBacklog >= 1 && maxPendingRecovery >= 1
    }
  }

  /** `recovery` lists the recovery set in insertion order.  `starts` and `workers` are history:
      the ids handed to a worker so far, and the number of workers that have not finished yet. */
  datatype State = State(
    queue: seq<Id>,
    active: set<Id>,
    recovery: seq<Id>,
    completed: nat,
    failed: nat,
    rejected: nat,
    recovered: nat,
    overflow: nat,
    waiting: nat,
    resolved: nat,
    starts: seq<Id>,
    workers: int)
  {
    predicate IsQueuedOrActive(id: Id) {
      id in active || id in queue
    }

    predicate Idle() {
      queue == [] && active == {} && recovery == []
    }

    /** Everything ever admitted, in the order in which it starts. */
    function Log(): seq<Id> {
      starts + queue + recovery
    }

    function Pending(): nat {
      |active| + |queue| + |recovery|
    }
  }

  const Empty: State := State([], {}, [], 0, 0, 0, 0, 0, 0, 0, [], 0)

  // ---------------------------------------------------------------------------
  // Turns of the queue
  // ---------------------------------------------------------------------------

  function Promote(lim: Limits, s: State): (r: State)
    ensures |r.queue| + |r.recovery| <= |s.queue| + |s.recovery|
    decreases |s.recovery|
  {
    if |s.queue| < lim.maxBacklog && s.recovery != [] then
      var next := s.recovery[0];
      var t := s.(recovery := s.recovery[1..]);
      if t.IsQueuedOrActive(next) then
        Promote(lim, t)
      else
        Promote(lim, t.(queue := t.queue + [next], recovered := t.recovered + 1))
    else s
  }

  function StartNext(s: State): State
    requires s.queue != []
  {
    var next := s.queue[0];
    s.(queue := s.queue[1..], active := s.active + {next},
       starts := s.starts + [next], workers := s.workers + 1)
  }

  function DispatchLoop(lim: Limits, s: State): State
    decreases |s.queue| + |s.recovery|
  {
    if |s.active| < lim.concurrency && s.queue != [] then
      DispatchLoop(lim, Promote(lim, StartNext(s)))
    else s
  }

  function Dispatch(lim: Limits, s: State): State {
    DispatchLoop(lim, Promote(lim, s))
  }

  function Remove(xs: seq<Id>, x: Id): (r: seq<Id>)
    ensures x !in xs ==> r == xs
    ensures |r| <= |xs|
  {
    if xs == [] then []
    else if xs[0] == x then Remove(xs[1..], x)
    else [xs[0]] + Remove(xs[1..], x)
  }

  predicate Accepts(lim: Limits, s: State, id: Id) {
    id != "" && |s.queue| < lim.maxBacklog
  }

  function Enqueue(lim: Limits, s: State, id: Id, retain: bool): State {
    if id == "" then s
    else if |s.queue| >= lim.maxBacklog then
      var t := s.(rejected := s.rejected + 1);
      if !retain || s.IsQueuedOrActive(id) || id in s.recovery then t
      else if |s.recovery| < lim.maxPendingRecovery then t.(recovery := t.recovery + [id])
      else t.(overflow := t.overflow + 1)
    else
      Dispatch(lim, s.(recovery := Remove(s.recovery, id), queue := s.queue + [id]))
  }

  function CheckDrain(s: State): State {
    if s.Idle() && s.waiting > 0 then s.(resolved := s.resolved + s.waiting, waiting := 0) else s
  }

  function Retire(s: State, id: Id, ok: bool): State {
    s.(completed := if ok then s.completed + 1 else s.completed,
       failed := if ok then s.failed else s.failed + 1,
       active := s.active - {id},
       workers := s.workers - 1)
  }

  function Finish(lim: Limits, s: State, id: Id, ok: bool): State {
    CheckDrain(Dispatch(lim, Retire(s, id, ok)))
  }

  function Drain(s: State): State {
    if s.Idle() then s.(resolved := s.resolved + 1) else s.(waiting := s.waiting + 1)
  }

  function Reclaim(lim: Limits, s: State, ids: seq<Id>): State
    decreases |ids|
  {
    if ids == [] then s
    else if s.IsQueuedOrActive(ids[0]) then Reclaim(lim, s, ids[1..])
    else
      var t := Enqueue(lim, s, ids[0], false);
      if Accepts(lim, s, ids[0]) then Reclaim(lim, t, ids[1..]) else t
  }

  function Reclaimed(lim: Limits, s: State, ids: seq<Id>): nat
    decreases |ids|
  {
    if ids == [] then 0
    else if s.IsQueuedOrActive(ids[0]) then Reclaimed(lim, s, ids[1..])
    else if Accepts(lim, s, ids[0]) then 1 + Reclaimed(lim, Enqueue(lim, s, ids[0], false), ids[1..])
    else 0
  }

  datatype Event =
    | Enqueued(id: Id, retain: bool)
    | Finished(id: Id, ok: bool)
    | ReclaimedAll(ids: seq<Id>)
    | Drained

  function Step(lim: Limits, s: State, e: Event): State {
    match e
    case Enqueued(id, retain) => Enqueue(lim, s, id, retain)
    case Finished(id, ok) => Finish(lim, s, id, ok)
    case ReclaimedAll(ids) => Reclaim(lim, s, ids)
    case Drained => Drain(s)
  }

  /** What the environment may do next: finish an active worker, or enqueue an id that is neither
      queued nor active (reclaiming makes that test itself). */
  predicate Enabled(s: State, e: Event) {
    match e
    case Enqueued(id, _) => !s.IsQueuedOrActive(id)
    case Finished(id, _) => id in s.active
    case ReclaimedAll(_) => true
    case Drained => true
  }

  function Run(lim: Limits, s: State, es: seq<Event>): State
    decreases |es|
  {
    if es == [] then s else Run(lim, Step(lim, s, es[0]), es[1..])
  }

  predicate Possible(lim: Limits, s: State, es: seq<Event>)
    decreases |es|
  {
    es == [] || (Enabled(s, es[0]) && Possible(lim, Step(lim, s, es[0]), es[1..]))
  }

  // ---------------------------------------------------------------------------
  // Invariant
  // ---------------------------------------------------------------------------

  ghost predicate NoDuplicates(xs: seq<Id>) {
    forall i, j :: 0 <= i < j < |xs| ==> xs[i] != xs[j]
  }

  ghost predicate Apart(xs: seq<Id>, ids: set<Id>) {
    forall i :: 0 <= i < |xs| ==> xs[i] !in ids
  }

  /** The three places an id can be in are disjoint and free of repetitions. */
  ghost predicate Distinct(s: State) {
    && NoDuplicates(s.queue + s.recovery)
    && Apart(s.queue + s.recovery, s.active)
    && s.workers == |s.active|
    && |s.starts| == s.completed + s.failed + s.workers
  }

  ghost predicate Bounded(lim: Limits, s: State) {
    && |s.active| <= lim.concurrency
    && |s.queue| <= lim.maxBacklog
    && |s.recovery| <= lim.maxPendingRecovery
  }

  /** A backlog means every worker slot is busy; a recovery set means the backlog is full. */
  ghost predicate Settled(lim: Limits, s: State) {
    && (s.queue != [] ==> |s.active| == lim.concurrency)
    && (s.recovery != [] ==> |s.queue| == lim.maxBacklog)
  }

  ghost predicate Inv(lim: Limits, s: State) {
    && Distinct(s)
    && Bounded(lim, s)
    && Settled(lim, s)
    && (s.waiting > 0 ==> s.active != {})
  }

  /** The oldest id of the recovery set is neither queued nor active, and moving it to the backlog
      keeps the state distinct. */
  lemma OldestIsNew(s: State)
    requires Distinct(s) && s.recovery != []
    ensures !s.IsQueuedOrActive(s.recovery[0])
    ensures Distinct(s.(queue := s.queue + [s.recovery[0]], recovery := s.recovery[1..],
                        recovered := s.recovered + 1))
  {
    var next := s.recovery[0];
    var b := s.queue + s.recovery;
    assert (s.queue + [next]) + s.recovery[1..] == b;
    assert b[|s.queue|] == next;
    forall i | 0 <= i < |s.queue| ensures s.queue[i] != next {
      assert b[i] == s.queue[i];
    }
  }

  /** Promotion under `Distinct` moves a prefix of the recovery set to the end of the backlog and
      counts each id: the branch that skips an id already queued or active is never taken. */
  lemma {:induction false} PromoteMovesPrefix(lim: Limits, s: State)
    requires Distinct(s) && |s.queue| <= lim.maxBacklog
    ensures
      var room := lim.maxBacklog - |s.queue|;
      var k := if room < |s.recovery| then room else |s.recovery|;
      Promote(lim, s) == s.(queue := s.queue + s.recovery[..k], recovery := s.recovery[k..],
                            recovered := s.recovered + k)
    decreases |s.recovery|
  {
    hide Distinct;
    var room := lim.maxBacklog - |s.queue|;
    var k := if room < |s.recovery| then room else |s.recovery|;
    if k > 0 {
      var next := s.recovery[0];
      OldestIsNew(s);
      var u := s.(queue := s.queue + [next], recovery := s.recovery[1..], recovered := s.recovered + 1);
      PromoteMovesPrefix(lim, u);
      assert s.queue + s.recovery[..k] == u.queue + u.recovery[..k - 1];
      assert s.recovery[k..] == u.recovery[k - 1..];
    } else {
      assert s.recovery[..k] == [] && s.recovery[k..] == s.recovery && s.queue + [] == s.queue;
    }
  }

  /** Dispatching moves ids along without changing the log, the pending total or the outcomes. */
  ghost predicate Kept(s: State, r: State) {
    && r.Log() == s.Log()
    && r.Pending() == s.Pending()
    && r.waiting == s.waiting && r.resolved == s.resolved
    && r.completed == s.completed && r.failed == s.failed
  }

  lemma PromoteKeeps(lim: Limits, s: State)
    requires Distinct(s) && Bounded(lim, s)
    ensures
      var r := Promote(lim, s);
      && Distinct(r) && Bounded(lim, r) && Kept(s, r)
      && r.active == s.active
      && (r.recovery != [] ==> |r.queue| == lim.maxBacklog)
  {
    hide Promote;
    PromoteMovesPrefix(lim, s);
    var r := Promote(lim, s);
    assert r.queue + r.recovery == s.queue + s.recovery;
    assert r.Log() == r.starts + (r.queue + r.recovery);
    assert s.Log() == s.starts + (s.queue + s.recovery);
  }

  lemma StartNextKeeps(s: State)
    requires Distinct(s) && s.queue != []
    ensures Distinct(StartNext(s)) && Kept(s, StartNext(s))
    ensures |StartNext(s).active| == |s.active| + 1
  {
    var next := s.queue[0];
    var b := s.queue + s.recovery;
    var t := StartNext(s);
    assert t.queue + t.recovery == b[1..];
    assert b[0] == next;
    forall i | 0 <= i < |b[1..]| ensures b[1..][i] !in t.active {
      assert b[0] != b[i + 1] == b[1..][i];
    }
    assert s.starts + s.queue == (s.starts + [next]) + s.queue[1..];
  }

  lemma {:induction false} DispatchLoopSettles(lim: Limits, s: State)
    requires Distinct(s) && Bounded(lim, s) && lim.Valid()
    requires s.recovery != [] ==> |s.queue| == lim.maxBacklog
    ensures
      var r := DispatchLoop(lim, s);
      Distinct(r) && Bounded(lim, r) && Settled(lim, r) && Kept(s, r)
    decreases |s.queue| + |s.recovery|
  {
    hide Promote, Distinct, State.Log, State.Pending;
    if |s.active| < lim.concurrency && s.queue != [] {
      var t := StartNext(s);
      StartNextKeeps(s);
      PromoteKeeps(lim, t);
      DispatchLoopSettles(lim, Promote(lim, t));
    }
  }

  lemma DispatchSettles(lim: Limits, s: State)
    requires Distinct(s) && Bounded(lim, s) && lim.Valid()
    ensures
      var r := Dispatch(lim, s);
      Distinct(r) && Bounded(lim, r) && Settled(lim, r) && Kept(s, r)
  {
    hide Promote, Distinct, State.Log, State.Pending, DispatchLoop;
    PromoteKeeps(lim, s);
    DispatchLoopSettles(lim, Promote(lim, s));
  }

  /** What one enqueue adds to the end of the log. */
  function Admitted(lim: Limits, s: State, id: Id, retain: bool): seq<Id> {
    if id == "" then []
    else if |s.queue| < lim.maxBacklog then [id]
    else if retain && !s.IsQueuedOrActive(id) && id !in s.recovery && |s.recovery| < lim.maxPendingRecovery then [id]
    else []
  }

  lemma EnqueueStep(lim: Limits, s: State, id: Id, retain: bool)
    requires lim.Valid() && Inv(lim, s) && !s.IsQueuedOrActive(id)
    ensures
      var r := Enqueue(lim, s, id, retain);
      && Inv(lim, r)
      && r.Log() == s.Log() + Admitted(lim, s, id, retain)
      && r.Pending() == s.Pending() + |Admitted(lim, s, id, retain)|
      && r.waiting == s.waiting && r.resolved == s.resolved
  {
    hide Dispatch;
    if id == "" {
    } else if |s.queue| < lim.maxBacklog {
      EnqueueDispatches(lim, s, id, retain);
    } else if Admitted(lim, s, id, retain) == [id] {
      var r := Enqueue(lim, s, id, retain);
      assert r.queue + r.recovery == (s.queue + s.recovery) + [id];
      assert r.Log() == s.Log() + [id];
    }
  }

  lemma EnqueueDispatches(lim: Limits, s: State, id: Id, retain: bool)
    requires lim.Valid() && Inv(lim, s) && !s.IsQueuedOrActive(id) && Accepts(lim, s, id)
    ensures
      var r := Enqueue(lim, s, id, retain);
      && Inv(lim, r)
      && r.Log() == s.Log() + [id]
      && r.Pending() == s.Pending() + 1
      && r.waiting == s.waiting && r.resolved == s.resolved
  {
    hide Dispatch;
    assert s.recovery == [];
    var t := s.(recovery := Remove(s.recovery, id), queue := s.queue + [id]);
    assert t.queue + t.recovery == s.queue + [id] && s.queue + s.recovery == s.queue;
    DispatchSettles(lim, t);
    assert t.Log() == s.Log() + [id];
    PendingNeedsWorker(lim, Dispatch(lim, t));
  }

  /** What enqueue demands of its caller, exactly: an accepted id keeps the invariant if and only if it is not
      queued or active already; a refused one always does. */
  lemma EnqueueIsSafeExactly(lim: Limits, s: State, id: Id, retain: bool)
    requires lim.Valid() && Inv(lim, s)
    ensures Inv(lim, Enqueue(lim, s, id, retain)) <==> !Accepts(lim, s, id) || !s.IsQueuedOrActive(id)
  {
    if !s.IsQueuedOrActive(id) {
      EnqueueStep(lim, s, id, retain);
    } else if Accepts(lim, s, id) {
      if |s.active| == lim.concurrency {
        RepeatedIdWaits(lim, s, id, retain);
      } else {
        RepeatedIdStarts(lim, s, id, retain);
      }
    }
  }

  lemma RepeatedIdWaits(lim: Limits, s: State, id: Id, retain: bool)
    requires lim.Valid() && Inv(lim, s) && Accepts(lim, s, id) && s.IsQueuedOrActive(id)
    requires |s.active| == lim.concurrency
    ensures !Distinct(Enqueue(lim, s, id, retain))
  {
    var t := s.(recovery := Remove(s.recovery, id), queue := s.queue + [id]);
    assert s.recovery == [];
    assert Dispatch(lim, t) == t;
    var n := |s.queue|;
    var all := t.queue + t.recovery;
    assert all[n] == id;
    if id in s.queue {
      var i :| 0 <= i < n && s.queue[i] == id;
      assert all[i] == all[n];
    }
  }

  lemma RepeatedIdStarts(lim: Limits, s: State, id: Id, retain: bool)
    requires lim.Valid() && Inv(lim, s) && Accepts(lim, s, id) && s.IsQueuedOrActive(id) && |s.active| < lim.concurrency
    ensures
      var t := Enqueue(lim, s, id, retain);
      t.queue == [] && t.recovery == [] && t.active == s.active && t.workers == |t.active| + 1
  {
    var t := s.(recovery := Remove(s.recovery, id), queue := s.queue + [id]);
    assert s.recovery == [] && s.queue == [] && s.queue + [id] == [id];
    assert s.active + {id} == s.active;
    var u := StartNext(t);
    assert u.active == s.active && u.queue == [] && Promote(lim, u) == u;
    assert DispatchLoop(lim, t) == DispatchLoop(lim, u) == u;
  }

  /** No lost wake-up: whenever anything is left to do, some worker is active. */
  lemma PendingNeedsWorker(lim: Limits, s: State)
    requires lim.Valid() && Settled(lim, s) && s.Pending() > 0
    ensures s.active != {}
  {
    if s.recovery != [] { assert |s.queue| > 0; }
    if s.queue != [] { assert |s.active| > 0; }
  }

  lemma RetireKeepsDistinct(s: State, id: Id, ok: bool)
    requires Distinct(s) && id in s.active
    ensures Distinct(Retire(s, id, ok))
    ensures |Retire(s, id, ok).active| == |s.active| - 1
  {
    var u := Retire(s, id, ok);
    assert u.active + {id} == s.active;
    assert u.queue + u.recovery == s.queue + s.recovery;
  }

  lemma FinishStep(lim: Limits, s: State, id: Id, ok: bool)
    requires lim.Valid() && Inv(lim, s) && id in s.active
    ensures
      var r := Finish(lim, s, id, ok);
      && Inv(lim, r)
      && r.Log() == s.Log()
      && r.Pending() == s.Pending() - 1
      && r.waiting == (if r.Pending() == 0 then 0 else s.waiting)
      && r.resolved == (if r.Pending() == 0 then s.resolved + s.waiting else s.resolved)
  {
    hide Dispatch;
    var u := Retire(s, id, ok);
    RetireKeepsDistinct(s, id, ok);
    DispatchSettles(lim, u);
    var v := Dispatch(lim, u);
    if v.Pending() > 0 { PendingNeedsWorker(lim, v); }
  }

  function AdmittedAll(lim: Limits, s: State, ids: seq<Id>): seq<Id>
    decreases |ids|
  {
    if ids == [] then []
    else if s.IsQueuedOrActive(ids[0]) then AdmittedAll(lim, s, ids[1..])
    else if Accepts(lim, s, ids[0]) then
      [ids[0]] + AdmittedAll(lim, Enqueue(lim, s, ids[0], false), ids[1..])
    else []
  }

  lemma {:induction false} ReclaimStep(lim: Limits, s: State, ids: seq<Id>)
    requires lim.Valid() && Inv(lim, s)
    ensures
      var r := Reclaim(lim, s, ids);
      && Inv(lim, r)
      && r.Log() == s.Log() + AdmittedAll(lim, s, ids)
      && |AdmittedAll(lim, s, ids)| == Reclaimed(lim, s, ids)
      && r.Pending() == s.Pending() + Reclaimed(lim, s, ids)
      && r.waiting == s.waiting && r.resolved == s.resolved
    decreases |ids|
  {
    hide Enqueue, Inv, State.Log, State.Pending;
    if ids != [] {
      if s.IsQueuedOrActive(ids[0]) {
        ReclaimStep(lim, s, ids[1..]);
      } else {
        EnqueueStep(lim, s, ids[0], false);
        if Accepts(lim, s, ids[0]) {
          var t := Enqueue(lim, s, ids[0], false);
          ReclaimStep(lim, t, ids[1..]);
          assert s.Log() + [ids[0]] + AdmittedAll(lim, t, ids[1..])
              == s.Log() + ([ids[0]] + AdmittedAll(lim, t, ids[1..]));
        }
      }
    }
  }

  function AdmittedBy(lim: Limits, s: State, e: Event): seq<Id> {
    match e
    case Enqueued(id, retain) => Admitted(lim, s, id, retain)
    case ReclaimedAll(ids) => AdmittedAll(lim, s, ids)
    case _ => []
  }

  /** Every turn keeps the invariant and changes the log only by appending what it admits. */
  lemma StepKeepsInv(lim: Limits, s: State, e: Event)
    requires lim.Valid() && Inv(lim, s) && Enabled(s, e)
    ensures Inv(lim, Step(lim, s, e))
    ensures Step(lim, s, e).Log() == s.Log() + AdmittedBy(lim, s, e)
  {
    match e
    case Enqueued(id, retain) => EnqueueStep(lim, s, id, retain);
    case Finished(id, ok) => FinishStep(lim, s, id, ok);
    case ReclaimedAll(ids) => ReclaimStep(lim, s, ids);
    case Drained => if s.Pending() > 0 { PendingNeedsWorker(lim, s); }
  }

  function AdmittedInRun(lim: Limits, s: State, es: seq<Event>): seq<Id>
    decreases |es|
  {
    if es == [] then []
    else AdmittedBy(lim, s, es[0]) + AdmittedInRun(lim, Step(lim, s, es[0]), es[1..])
  }

  /** FIFO over whole runs: the ids started so far, then the backlog, then the recovery set, are
      together exactly what was admitted, in the order of admission.  So no retained id is ever
      overtaken, and none is lost or run twice. */
  lemma {:induction false} RunIsFifo(lim: Limits, s: State, es: seq<Event>)
    requires lim.Valid() && Inv(lim, s) && Possible(lim, s, es)
    ensures Inv(lim, Run(lim, s, es))
    ensures Run(lim, s, es).Log() == s.Log() + AdmittedInRun(lim, s, es)
    decreases |es|
  {
    hide Step, Inv, AdmittedBy, Enabled, State.Log;
    if es != [] {
      StepKeepsInv(lim, s, es[0]);
      var t := Step(lim, s, es[0]);
      RunIsFifo(lim, t, es[1..]);
      assert s.Log() + AdmittedBy(lim, s, es[0]) + AdmittedInRun(lim, t, es[1..])
          == s.Log() + (AdmittedBy(lim, s, es[0]) + AdmittedInRun(lim, t, es[1..]));
    }
  }

  /** What was admitted is completed, failed, active, queued or awaiting recovery; the ids started
      are the first ones admitted; there is one running worker for each active id, never more than the
      concurrency limit; and while a drain waits some worker is active. */
  ghost predicate Conserved(lim: Limits, s: State, admitted: seq<Id>) {
    && |admitted| == s.completed + s.failed + |s.active| + |s.queue| + |s.recovery|
    && s.starts <= admitted
    && s.workers == |s.active| <= lim.concurrency
    && (s.waiting > 0 ==> s.active != {})
  }

  lemma InvConserves(lim: Limits, s: State)
    requires Inv(lim, s)
    ensures Conserved(lim, s, s.Log())
  {
  }

  lemma EmptyInv(lim: Limits)
    ensures Inv(lim, Empty) && Empty.Log() == []
  {
    assert Empty.queue + Empty.recovery == [];
  }

  /** Conservation in every state a run reaches from the empty queue. */
  lemma ReachableConserves(lim: Limits, es: seq<Event>)
    requires lim.Valid() && Possible(lim, Empty, es)
    ensures Conserved(lim, Run(lim, Empty, es), AdmittedInRun(lim, Empty, es))
  {
    hide *;
    EmptyInv(lim);
    RunIsFifo(lim, Empty, es);
    InvConserves(lim, Run(lim, Empty, es));
    assert [] + AdmittedInRun(lim, Empty, es) == AdmittedInRun(lim, Empty, es);
  }

  predicate OnlyFinishes(es: seq<Event>) {
    forall e :: e in es ==> e.Finished?
  }

  /** Drain: with nothing more enqueued, a run of worker finishes can never be longer than what is
      pending; it leaves every waiting drain waiting until the last one, and that one resolves them
      all.  And while anything is pending another finish is possible. */
  lemma {:induction false} DrainResolvesExactly(lim: Limits, s: State, es: seq<Event>)
    requires lim.Valid() && Inv(lim, s) && Possible(lim, s, es) && OnlyFinishes(es)
    ensures |es| <= s.Pending()
    ensures
      var r := Run(lim, s, es);
      && r.Pending() == s.Pending() - |es|
      && (|es| < s.Pending() ==>
            && r.waiting == s.waiting && r.resolved == s.resolved
            && exists id :: Enabled(r, Finished(id, true)))
      && (0 < |es| == s.Pending() ==> r.waiting == 0 && r.resolved == s.resolved + s.waiting)
    decreases |es|
  {
    if es == [] {
      if s.Pending() > 0 {
        PendingNeedsWorker(lim, s);
        var id :| id in s.active;
        assert Enabled(s, Finished(id, true));
      }
    } else {
      assert es[0] in es;
      FinishStep(lim, s, es[0].id, es[0].ok);
      var t := Step(lim, s, es[0]);
      assert OnlyFinishes(es[1..]);
      DrainResolvesExactly(lim, t, es[1..]);
    }
  }

  lemma StartsAtOnce(lim: Limits, s: State, id: Id)
    requires lim.Valid() && id != "" && s.queue == [] && s.recovery == [] && |s.active| < lim.concurrency
    ensures Enqueue(lim, s, id, true)
         == s.(active := s.active + {id}, starts := s.starts + [id], workers := s.workers + 1)
  {
    var t := s.(recovery := Remove(s.recovery, id), queue := s.queue + [id]);
    assert t.queue == [id] && t.recovery == [];
    var u := StartNext(t);
    assert u.queue == [] && Promote(lim, u) == u && DispatchLoop(lim, u) == u;
  }

  // ---------------------------------------------------------------------------
  // The class
  // ---------------------------------------------------------------------------

  const DEFAULT_CONCURRENCY: nat := 5
  const DEFAULT_MAX_BACKLOG: nat := 5000

  /** An absent option (or one that is not finite) takes the fallback. */
  function ClampPositiveInt(value: Option<real>, fallback: nat): (r: nat)
    requires fallback >= 1
    ensures r >= 1
    ensures value.Some? && value.value >= 1.0 ==> r as real <= value.value < r as real + 1.0
    ensures value.Some? && value.value < 1.0 ==> r == 1
    ensures value.None? ==> r == fallback
  {
    if value.None? then fallback
    else if value.value < 1.0 then 1
    else value.value.Floor
  }

  class WebhookWorkerQueue {
    const limits: Limits
    var queue: seq<Id>
    var activeIds: set<Id>
    var pendingRecoveryIds: seq<Id>
    var completed: nat
    var failed: nat
    var rejectedCount: nat
    var recoveredCount: nat
    var recoveryOverflowCount: nat
    var drainResolvers: nat
    var resolvedDrains: nat
    ghost var starts: seq<Id>
    ghost var workers: int

    ghost function View(): State
      reads this
    {
      State(queue, activeIds, pendingRecoveryIds, completed, failed, rejectedCount, recoveredCount,
            recoveryOverflowCount, drainResolvers, resolvedDrains, starts, workers)
    }

    constructor (concurrency: Option<real>, maxBacklog: Option<real>, maxPendingRecovery: Option<real>)
      ensures limits.Valid()
      ensures concurrency.None? ==> limits.concurrency == 5
      ensures maxBacklog.None? ==> limits.maxBacklog == 5000
      ensures maxPendingRecovery.None? ==> limits.maxPendingRecovery == 4 * limits.maxBacklog
      ensures View() == Empty && Inv(limits, View())
    {
      var backlog := ClampPositiveInt(maxBacklog, DEFAULT_MAX_BACKLOG);
      limits := Limits(ClampPositiveInt(concurrency, DEFAULT_CONCURRENCY), backlog,
                       ClampPositiveInt(maxPendingRecovery, backlog * 4));
      queue, activeIds, pendingRecoveryIds := [], {}, [];
      completed, failed, rejectedCount, recoveredCount, recoveryOverflowCount := 0, 0, 0, 0, 0;
      drainResolvers, resolvedDrains := 0, 0;
      starts, workers := [], 0;
    }

    predicate IsQueuedOrActive(id: Id)
      reads this
    {
      id in activeIds || id in queue
    }

    method PromotePendingRecoveries()
      modifies this
      ensures View() == Promote(limits, old(View()))
    {
      while |queue| < limits.maxBacklog && |pendingRecoveryIds| > 0
        invariant Promote(limits, View()) == Promote(limits, old(View()))
        decreases |pendingRecoveryIds|
      {
        var nextRecovery := pendingRecoveryIds[0];
        pendingRecoveryIds := pendingRecoveryIds[1..];
        if !IsQueuedOrActive(nextRecovery) {
          queue := queue + [nextRecovery];
          recoveredCount := recoveredCount + 1;
        }
      }
    }

    method RunDispatch()
      modifies this
      ensures View() == Dispatch(limits, old(View()))
    {
      hide Promote;
      PromotePendingRecoveries();
      while |activeIds| < limits.concurrency && |queue| > 0
        invariant DispatchLoop(limits, View()) == Dispatch(limits, old(View()))
        decreases |queue| + |pendingRecoveryIds|
      {
        var nextId := queue[0];
        queue := queue[1..];
        activeIds := activeIds + {nextId};
        starts, workers := starts + [nextId], workers + 1;
        PromotePendingRecoveries();
      }
    }

    method EnqueueDelivery(deliveryId: Id, retainForRecovery: bool) returns (accepted: bool)
      modifies this
      ensures View() == Enqueue(limits, old(View()), deliveryId, retainForRecovery)
      ensures accepted == Accepts(limits, old(View()), deliveryId)
    {
      if deliveryId == "" {
        return false;
      }
      if |queue| >= limits.maxBacklog {
        rejectedCount := rejectedCount + 1;
        if retainForRecovery && !IsQueuedOrActive(deliveryId) {
          if deliveryId in pendingRecoveryIds {
          } else if |pendingRecoveryIds| < limits.maxPendingRecovery {
            pendingRecoveryIds := pendingRecoveryIds + [deliveryId];
          } else {
            recoveryOverflowCount := recoveryOverflowCount + 1;
          }
        }
        return false;
      }
      pendingRecoveryIds := Remove(pendingRecoveryIds, deliveryId);
      queue := queue + [deliveryId];
      RunDispatch();
      return true;
    }

    method ReclaimPending(pendingIds: seq<Id>) returns (reclaimed: nat)
      modifies this
      ensures View() == Reclaim(limits, old(View()), pendingIds)
      ensures reclaimed == Reclaimed(limits, old(View()), pendingIds)
    {
      reclaimed := 0;
      var i := 0;
      while i < |pendingIds|
        invariant 0 <= i <= |pendingIds|
        invariant Reclaim(limits, View(), pendingIds[i..]) == Reclaim(limits, old(View()), pendingIds)
        invariant reclaimed + Reclaimed(limits, View(), pendingIds[i..]) == Reclaimed(limits, old(View()), pendingIds)
      {
        var id := pendingIds[i];
        assert pendingIds[i..][1..] == pendingIds[i + 1..];
        if !IsQueuedOrActive(id) {
          var accepted := EnqueueDelivery(id, false);
          if !accepted {
            return;
          }
          reclaimed := reclaimed + 1;
        }
        i := i + 1;
      }
    }

    method RequestDrain()
      modifies this
      ensures View() == Drain(old(View()))
    {
      if |queue| == 0 && activeIds == {} && |pendingRecoveryIds| == 0 {
        resolvedDrains := resolvedDrains + 1;
      } else {
        drainResolvers := drainResolvers + 1;
      }
    }

    method CheckDrainResolvers()
      modifies this
      ensures View() == CheckDrain(old(View()))
    {
      if |queue| == 0 && activeIds == {} && |pendingRecoveryIds| == 0 && drainResolvers > 0 {
        var resolvers := drainResolvers;
        drainResolvers := 0;
        resolvedDrains := resolvedDrains + resolvers;
      }
    }

    /** The continuation of a worker once its handler has settled. */
    method WorkerSettled(deliveryId: Id, ok: bool)
      requires deliveryId in activeIds
      modifies this
      ensures View() == Finish(limits, old(View()), deliveryId, ok)
    {
      if ok {
        completed := completed + 1;
      } else {
        failed := failed + 1;
      }
      activeIds := activeIds - {deliveryId};
      workers := workers - 1;
      RunDispatch();
      CheckDrainResolvers();
    }
  }
}
