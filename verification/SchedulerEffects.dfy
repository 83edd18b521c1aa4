/** What each step of the scheduler does to tasks, timers, waiters and fibers, and what that means over
    runs: who takes a pinned task, and when a worker leaves. */
module SchedulerEffects {
  import opened Options
  import opened Schedulers
  import opened SchedulerProofs

  // ---- who takes a task ---------------------------------------------------------------------------

  // A worker may take a task that is not pinned to another, unless its fiber is executing.
  predicate MayTake(task: Task, w: nat, fibers: seq<Fiber>) {
    !PinnedElsewhere(task, w) && !Executing(task, fibers)
  }

  ghost predicate TakesFirst(s: State, t: State, w: nat, k: nat)
    requires w < |t.workers|
  {
    && k < |s.queue| && t.workers[w].phase == Took(s.queue[k]) && t.queue == s.queue[..k] + s.queue[k + 1..]
    && MayTake(s.queue[k], w, s.fibers) && forall i :: 0 <= i < k ==> !MayTake(s.queue[i], w, s.fibers)
  }

  // A dequeue takes the first task that the worker may take and leaves the others in their order; it
  // takes none exactly if there is none.
  lemma DequeueTakesFirst(s: State, w: nat)
    requires Enabled(s, Dequeue(w))
    ensures var t := Apply(s, Dequeue(w));
            if exists k :: 0 <= k < |s.queue| && MayTake(s.queue[k], w, s.fibers)
            then exists k :: TakesFirst(s, t, w, k)
            else t.queue == s.queue && !t.workers[w].phase.Took?
  {
    forall i | 0 <= i < |s.queue| ensures Eligible(s.queue[i], s.fibers, w) <==> MayTake(s.queue[i], w, s.fibers) {}
    var k := FirstEligible(s.queue, s.fibers, w);
    hide FirstEligible, Eligible, MayTake;
    if k < |s.queue| { assert TakesFirst(s, Apply(s, Dequeue(w)), w, k); }
  }

  // A worker has no task in hand that is pinned to another.
  ghost predicate OwnTasks(s: State) {
    forall w: nat :: w < |s.workers| && s.workers[w].phase.Took? ==> !PinnedElsewhere(s.workers[w].phase.task, w)
  }

  lemma OwnTasksKept(s: State, a: Action)
    requires OwnTasks(s) && Enabled(s, a)
    ensures OwnTasks(Apply(s, a))
  {
    hide FirstEligible, EnqueueAll, Recurring, Callbacks, DequeueStep, SwapInStep, EndStep, ScheduleAgainStep, OwnTasks;
    match a
    case Dequeue(w) => DequeueOwn(s, w);
    case SwapIn(w) => HandEmpties(s, a, w);
    case End(w, _) => HandEmpties(s, a, w);
    case ScheduleAgain(w) => HandEmpties(s, a, w);
    case StopTest(w) => HandEmpties(s, a, w);
    case Collect(w, _) => HandEmpties(s, a, w);
    case IdleTurnEnds(w) => HandEmpties(s, a, w);
    case Deliver(w) =>
      EnqueueAllKeeps(SetPhase(s, w, Dispatching), s.workers[w].phase.cbs);
      OneHand(s, Apply(s, a), w);
    case _ => SameHands(s, Apply(s, a));
  }

  lemma SameHands(s: State, t: State)
    requires OwnTasks(s) && t.workers == s.workers
    ensures OwnTasks(t)
  {
  }

  lemma OneHand(s: State, t: State, w: nat)
    requires OwnTasks(s) && w < |s.workers| == |t.workers| && t.workers == s.workers[w := t.workers[w]]
    requires t.workers[w].phase.Took? ==> !PinnedElsewhere(t.workers[w].phase.task, w)
    ensures OwnTasks(t)
  {
  }

  lemma DequeueOwn(s: State, w: nat)
    requires OwnTasks(s) && Enabled(s, Dequeue(w))
    ensures OwnTasks(Apply(s, Dequeue(w)))
  {
    var t := Apply(s, Dequeue(w));
    DequeueTakesFirst(s, w);
    DequeueMoves(s, w);
    hide OwnTasks, DequeueStep;
    if k: nat :| TakesFirst(s, t, w, k) { assert MayTake(s.queue[k], w, s.fibers); }
    OneHand(s, t, w);
  }

  lemma DequeueMoves(s: State, w: nat)
    requires Enabled(s, Dequeue(w))
    ensures var t := DequeueStep(s, w); |t.workers| == |s.workers| && t.workers == s.workers[w := t.workers[w]]
  {
    hide FirstEligible;
  }

  lemma HandEmpties(s: State, a: Action, w: nat)
    requires Enabled(s, a) && OwnTasks(s)
    requires a == SwapIn(w) || (a.End? && a.w == w) || a == ScheduleAgain(w) || a == StopTest(w)
             || (a.Collect? && a.w == w) || a == IdleTurnEnds(w)
    ensures OwnTasks(Apply(s, a))
  {
    hide Recurring, Callbacks, OwnTasks;
    OneHand(s, Apply(s, a), w);
  }

  // Over every run, whatever the clients do: a pinned task is taken by its own thread only.
  lemma PinRespected(n: nat, actions: seq<Action>, s: State, w: nat)
    requires RunOf(Init(n), actions, s) && w < |s.workers| && s.workers[w].phase.Took?
    ensures s.workers[w].phase.task.pin == Anywhere || s.workers[w].phase.task.pin == Only(w)
  {
    OwnTasksRun(Init(n), actions, s);
  }

  lemma {:induction false} OwnTasksRun(s: State, actions: seq<Action>, t: State)
    requires OwnTasks(s) && RunOf(s, actions, t)
    ensures OwnTasks(t)
    decreases |actions|
  {
    hide Apply, Enabled, OwnTasks;
    if |actions| > 0 {
      OwnTasksKept(s, actions[0]);
      OwnTasksRun(Apply(s, actions[0]), actions[1..], t);
    }
  }

  // ---- when a worker leaves -----------------------------------------------------------------------

  lemma {:induction false} NoneActive(ws: seq<Worker>)
    ensures ActiveCount(ws) == 0 <==> forall w :: 0 <= w < |ws| ==> !ws[w].phase.Took? && !ws[w].phase.Running?
  {
    if |ws| > 0 {
      NoneActive(ws[1..]);
      assert forall w :: 1 <= w < |ws| ==> ws[w] == ws[1..][w - 1];
    }
  }

  lemma {:induction false} StopCalled(s: State, actions: seq<Action>, t: State)
    requires RunOf(s, actions, t)
    ensures t.autoStop <==> s.autoStop || Stop in actions
    ensures t.stopping <==> s.stopping || Stop in actions
    decreases |actions|
  {
    hide Apply, Enabled;
    if |actions| > 0 {
      StopStep(s, actions[0]);
      StopCalled(Apply(s, actions[0]), actions[1..], t);
      assert Stop in actions <==> actions[0].Stop? || Stop in actions[1..] by {
        assert actions == [actions[0]] + actions[1..];
      }
    }
  }

  lemma StopStep(s: State, a: Action)
    requires Enabled(s, a)
    ensures Apply(s, a).autoStop == (s.autoStop || a.Stop?) && Apply(s, a).stopping == (s.stopping || a.Stop?)
  {
    hide FirstEligible, EnqueueAll, Recurring, Callbacks;
    if a.Deliver? { EnqueueAllKeeps(SetPhase(s, a.w, Dispatching), s.workers[a.w].phase.cbs); }
  }

  // Over every run: an idle worker leaves its loop exactly when stop has been called, no timer, no
  // registered event and no queued task is left, and no worker has a task in hand or runs one.
  lemma LeavesExactly(n: nat, actions: seq<Action>, s: State, w: nat)
    requires RunOf(Init(n), actions, s) && Enabled(s, StopTest(w))
    ensures Apply(s, StopTest(w)).workers[w].idleOver && Apply(s, StopTest(w)).workers[w].phase.Head? <==>
              && Stop in actions && s.timers == [] && s.waiters == [] && s.queue == []
              && forall v :: 0 <= v < |s.workers| ==> !s.workers[v].phase.Took? && !s.workers[v].phase.Running?
  {
    InitInv(n);
    LedgerKept(Init(n), actions, s);
    StopCalled(Init(n), actions, s);
    NoneActive(s.workers);
  }

  // ---- what the steps do to tasks, timers and waiters ---------------------------------------------

  predicate Without<T(==)>(s: seq<T>, i: nat, t: seq<T>) { i < |s| && t == s[..i] + s[i + 1..] }

  // Everything that a step queues, in order, with the tokens counted on.
  ghost predicate Queues(s: State, t: State, works: seq<Work>, pin: Pin) {
    && t.accepted == s.accepted + |works| && |t.queue| == |s.queue| + |works| && s.queue <= t.queue
    && forall j :: 0 <= j < |works| ==> t.queue[|s.queue| + j] == Task(works[j], pin, s.accepted + j)
  }

  predicate SameLists(s: State, t: State) { t.timers == s.timers && t.waiters == s.waiters }

  // Submitted, fired and cancelled work is queued, deleted work is not. Firing a recurring timer leaves
  // it in the set and takes any other out of it; callbacks are queued in the order in which they came.
  ghost predicate Effect(s: State, a: Action, t: State)
    requires Enabled(s, a) && (a.Collect? ==> a.w < |t.workers|)
  {
    match a
    case Submit(_, work, pin) => Queues(s, t, [work], pin) && SameLists(s, t)
    case SubmitNew(_, pin) =>
      Queues(s, t, [RunFiber(|s.fibers|)], pin) && SameLists(s, t) && |t.fibers| == |s.fibers| + 1
    case ScheduleAgain(w) =>
      && t.queue == s.queue + [Task(RunFiber(s.workers[w].phase.fid), Anywhere, s.workers[w].phase.token)]
      && t.accepted == s.accepted && SameLists(s, t)
    case Fire(_, i) =>
      Queues(s, t, [s.waiters[i]], Anywhere) && t.timers == s.timers && Without(s.waiters, i, t.waiters)
    case CancelEvent(_, i) =>
      Queues(s, t, [s.waiters[i]], Anywhere) && t.timers == s.timers && Without(s.waiters, i, t.waiters)
    case DelEvent(_, i) =>
      Queues(s, t, [], Anywhere) && t.timers == s.timers && Without(s.waiters, i, t.waiters)
    case AwaitFiber(w) =>
      && Queues(s, t, [], Anywhere) && t.timers == s.timers
      && t.waiters == s.waiters + [RunFiber(s.workers[w].phase.fid)]
    case AwaitCallback(_, cb) =>
      Queues(s, t, [], Anywhere) && t.timers == s.timers && t.waiters == s.waiters + [RunCallback(cb)]
    case AddTimer(_, timer) =>
      Queues(s, t, [], Anywhere) && t.timers == s.timers + [timer] && t.waiters == s.waiters
    case CancelTimer(_, i) =>
      Queues(s, t, [], Anywhere) && Without(s.timers, i, t.timers) && t.waiters == s.waiters
    case Collect(w, k) =>
      && Queues(s, t, [], Anywhere) && t.waiters == s.waiters
      && t.workers[w].phase.Collected? && Fired(s.timers, k, t.workers[w].phase.cbs, t.timers)
    case Deliver(w) => Queues(s, t, Works(s.workers[w].phase.cbs), Anywhere) && SameLists(s, t)
    case _ => Queues(s, t, [], Anywhere) && SameLists(s, t)
  }

  lemma Effects(s: State, a: Action)
    requires Enabled(s, a) && !a.Dequeue?
    ensures (a.Collect? ==> a.w < |Apply(s, a).workers|) && Effect(s, a, Apply(s, a))
  {
    hide Apply, Effect;
    match a
    case Fire(_, _) => WaiterEffect(s, a);
    case CancelEvent(_, _) => WaiterEffect(s, a);
    case DelEvent(_, _) => WaiterEffect(s, a);
    case AwaitFiber(_) => WaiterEffect(s, a);
    case AwaitCallback(_, _) => WaiterEffect(s, a);
    case Submit(_, _, _) => TaskEffect(s, a);
    case SubmitNew(_, _) => TaskEffect(s, a);
    case ScheduleAgain(_) => TaskEffect(s, a);
    case Deliver(_) => TaskEffect(s, a);
    case _ => OtherEffect(s, a);
  }

  lemma WaiterEffect(s: State, a: Action)
    requires Enabled(s, a) && (a.Fire? || a.CancelEvent? || a.DelEvent? || a.AwaitFiber? || a.AwaitCallback?)
    ensures Effect(s, a, Apply(s, a))
  {
  }

  lemma TaskEffect(s: State, a: Action)
    requires Enabled(s, a) && (a.Submit? || a.SubmitNew? || a.ScheduleAgain? || a.Deliver?)
    ensures Effect(s, a, Apply(s, a))
  {
    hide EnqueueAll, Works;
    if a.Deliver? { DeliverQueues(SetPhase(s, a.w, Dispatching), s.workers[a.w].phase.cbs); }
  }

  lemma OtherEffect(s: State, a: Action)
    requires Enabled(s, a)
    requires a.SwapIn? || a.End? || a.StopTest? || a.Collect? || a.IdleTurnEnds? || a.AddTimer?
             || a.CancelTimer? || a.Stop?
    ensures (a.Collect? ==> a.w < |Apply(s, a).workers|) && Effect(s, a, Apply(s, a))
  {
    hide Recurring, Callbacks, Fired;
    if a.Collect? { CollectFires(s.timers, a.k); }
  }

  function Works(cbs: seq<nat>): seq<Work> { seq(|cbs|, j requires 0 <= j < |cbs| => RunCallback(cbs[j])) }

  // The first k timers fired: their callbacks in order, and the set keeps those of them that recur.
  ghost predicate Fired(before: seq<Timer>, k: nat, cbs: seq<nat>, after: seq<Timer>) {
    && k <= |before| && |cbs| == k && (forall j :: 0 <= j < k ==> cbs[j] == before[j].cb)
    && forall x: Timer :: x in before || x in after ==>
         multiset(after)[x] == multiset(before[k..])[x] + if x.recurring then multiset(before[..k])[x] else 0
  }

  lemma CollectFires(ts: seq<Timer>, k: nat)
    requires k <= |ts|
    ensures Fired(ts, k, Callbacks(ts[..k]), ts[k..] + Recurring(ts[..k]))
  {
    forall x: Timer ensures multiset(Recurring(ts[..k]))[x] == if x.recurring then multiset(ts[..k])[x] else 0 {
      RecurringExactly(ts[..k], x);
    }
  }

  lemma {:induction false} RecurringExactly(ts: seq<Timer>, x: Timer)
    ensures multiset(Recurring(ts))[x] == if x.recurring then multiset(ts)[x] else 0
  {
    if |ts| > 0 {
      RecurringExactly(ts[1..], x);
      assert ts == [ts[0]] + ts[1..];
    }
  }

  lemma {:induction false} DeliverQueues(s: State, cbs: seq<nat>)
    ensures Queues(s, EnqueueAll(s, cbs), Works(cbs), Anywhere) && SameLists(s, EnqueueAll(s, cbs))
    decreases |cbs|
  {
    if |cbs| > 0 {
      var u := Enqueue(s, RunCallback(cbs[0]), Anywhere);
      DeliverQueues(u, cbs[1..]);
      var t := EnqueueAll(u, cbs[1..]);
      forall j | 0 <= j < |cbs| ensures t.queue[|s.queue| + j] == Task(Works(cbs)[j], Anywhere, s.accepted + j) {
        if j > 0 {
          assert t.queue[|u.queue| + (j - 1)] == Task(Works(cbs[1..])[j - 1], Anywhere, u.accepted + (j - 1));
        } else {
          assert t.queue[|s.queue|] == u.queue[|s.queue|];
        }
      }
    }
  }

  // ---- where the steps take the workers -----------------------------------------------------------

  // A step takes its own worker on by one place in the loop and leaves the others where they are; what
  // clients and stop do moves none. Only the stopping test ends the idle fiber of a worker.
  lemma WorkerMoves(s: State, a: Action)
    requires Enabled(s, a)
    ensures |Apply(s, a).workers| == |s.workers|
    ensures forall v :: 0 <= v < |s.workers| && !(Steps(a) && a.w == v) ==> Apply(s, a).workers[v] == s.workers[v]
    ensures Steps(a) ==> Moves(a, s.workers[a.w], Apply(s, a).workers[a.w])
    ensures a.Fire? ==> s.workers[a.w].phase.Dispatching?
  {
    hide FirstEligible, EnqueueAll, Recurring, Callbacks, Moves;
    if Steps(a) { OwnMove(s, a); }
    if a.Deliver? { EnqueueAllKeeps(SetPhase(s, a.w, Dispatching), s.workers[a.w].phase.cbs); }
  }

  // How a step takes its worker from x to y.
  predicate Moves(a: Action, x: Worker, y: Worker) {
    && (!a.StopTest? ==> y.idleOver == x.idleOver)
    && match a
       case Dequeue(_) => x.phase.Head? && (y.phase.Took? || y.phase == if x.idleOver then Exited else Idle)
       case SwapIn(_) => x.phase.Took? && y.phase.Running?
       case End(_, how) => x.phase.Running? && if how.ToReady? then y.phase.Returning? else y.phase.Head?
       case ScheduleAgain(_) => x.phase.Returning? && y == x.(phase := Head)
       case StopTest(_) =>
         x.phase.Idle? && (y == x.(phase := Polling) || y == x.(phase := Head, idleOver := true))
       case Collect(_, _) => x.phase.Polling? && y.phase.Collected? && y == x.(phase := y.phase)
       case Deliver(_) => x.phase.Collected? && y == x.(phase := Dispatching)
       case IdleTurnEnds(_) => x.phase.Dispatching? && y == x.(phase := Head)
       case _ => true
  }

  lemma OwnMove(s: State, a: Action)
    requires Enabled(s, a) && Steps(a)
    ensures |Apply(s, a).workers| == |s.workers| && Moves(a, s.workers[a.w], Apply(s, a).workers[a.w])
  {
    hide Moves;
    match a
    case Dequeue(_) => DequeueMove(s, a);
    case SwapIn(_) => FiberMove(s, a);
    case End(_, _) => FiberMove(s, a);
    case _ => LoopMove(s, a);
  }

  lemma DequeueMove(s: State, a: Action)
    requires Enabled(s, a) && a.Dequeue?
    ensures |Apply(s, a).workers| == |s.workers| && Moves(a, s.workers[a.w], Apply(s, a).workers[a.w])
  {
    hide FirstEligible;
  }

  lemma FiberMove(s: State, a: Action)
    requires Enabled(s, a) && (a.SwapIn? || a.End?)
    ensures |Apply(s, a).workers| == |s.workers| && Moves(a, s.workers[a.w], Apply(s, a).workers[a.w])
  {
  }

  lemma LoopMove(s: State, a: Action)
    requires Enabled(s, a)
    requires a.ScheduleAgain? || a.StopTest? || a.Collect? || a.Deliver? || a.IdleTurnEnds?
    ensures |Apply(s, a).workers| == |s.workers| && Moves(a, s.workers[a.w], Apply(s, a).workers[a.w])
  {
    hide EnqueueAll, Recurring, Callbacks;
    if a.Deliver? { EnqueueAllKeeps(SetPhase(s, a.w, Dispatching), s.workers[a.w].phase.cbs); }
  }

  predicate Steps(a: Action) {
    a.Dequeue? || a.SwapIn? || a.End? || a.ScheduleAgain? || a.StopTest? || a.Collect? || a.Deliver? || a.IdleTurnEnds?
  }

  // ---- what the steps do to fibers ----------------------------------------------------------------

  // Swapping in makes exactly the task's fiber EXEC: the one scheduled, or for a callback the one that
  // the worker keeps, or a new one. The end of the segment leaves it as it says, READY on its way back
  // to the queue; what ran a callback to its end is INIT again and kept.
  lemma FiberEffects(s: State, a: Action)
    requires Separate(s) && Enabled(s, a) && (a.SwapIn? || a.End?)
    ensures var t, me := Apply(s, a), s.workers[a.w];
            var now := t.workers[a.w];
            if a.SwapIn? then
              && now.phase.Running? && now.phase.token == me.phase.task.token
              && now.phase.called == me.phase.task.work.RunCallback?
              && now.phase.fid == (match me.phase.task.work
                                   case RunFiber(f) => f
                                   case RunCallback(_) => match me.cbFiber case Some(f) => f case None => |s.fibers|)
              && OnlyState(s, t, now.phase.fid, EXEC)
              && now.cbFiber == (if now.phase.called then Some(now.phase.fid) else me.cbFiber)
            else
              && OnlyState(s, t, me.phase.fid, match a.how
                                               case ToReady => READY
                                               case ToHold => HOLD
                                               case ToTerm => if me.phase.called then INIT else TERM)
              && (a.how.ToReady? <==> now.phase == Returning(me.phase.fid, me.phase.token))
              && (!a.how.ToReady? <==> now.phase.Head?)
              && now.cbFiber == (if !me.phase.called || a.how.ToTerm? then me.cbFiber else None)
              && t.held == s.held + (if a.how.ToHold? then [me.phase.token] else [])
              && t.finished == s.finished + (if a.how.ToTerm? then [me.phase.token] else [])
  {
    assert WorkerOk(s, a.w);
  }

  // One fiber is in the state, and the others are as they were.
  ghost predicate OnlyState(s: State, t: State, f: nat, state: FiberState) {
    && f < |t.fibers| && t.fibers[f].state == state && |s.fibers| <= |t.fibers|
    && forall g :: 0 <= g < |s.fibers| && g != f ==> t.fibers[g] == s.fibers[g]
  }
}
