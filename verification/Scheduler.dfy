/** Scheduler::run as a protocol: workers, the task queue, fiber states and the stopping test, one
    step for each mutex-protected section and for each fiber segment up to the next such section. */
module Schedulers {
  import opened Options

  // Fiber::State
  datatype FiberState = INIT | HOLD | EXEC | TERM | READY

  datatype Work = RunFiber(fid: nat) | RunCallback(cb: nat)

  datatype Pin = Anywhere | Only(thread: nat)

  // FiberAndThread; the token tells one accepted task from another.
  datatype Task = Task(work: Work, pin: Pin, token: nat)

  // Where a fiber is referred to from, and what holds it, beside its state: bookkeeping of the model
  // that no step depends on.
  datatype Ref = Nowhere | InQueue | AtEvent | Taken(worker: nat)
  datatype Holder = Nobody | Runs(worker: nat) | Spare(worker: nat) | Leaves(worker: nat)

  datatype Fiber = Fiber(state: FiberState, ref: Ref, holder: Holder)
  {
    ghost predicate Ok() {
      && (holder.Runs? <==> state == EXEC)
      && (holder.Spare? ==> state == INIT && ref.Nowhere?)
      && (holder.Leaves? ==> state == READY && ref.Nowhere?)
      && (ref.Taken? ==> holder.Nobody?)
      && (state == TERM ==> ref.Nowhere? && holder.Nobody?)
    }
  }

  // Where a worker thread is in Scheduler::run and, for the last five, in IOManager::idle.
  datatype Phase =
    | Head                                         // before the locked scan of the queue
    | Took(task: Task)                             // dequeued, not yet swapped in
    | Running(fid: nat, token: nat, called: bool)  // inside a fiber, of a callback if `called`
    | Returning(fid: nat, token: nat)              // fiber came back READY, not yet scheduled again
    | Idle                                         // before the stopping test
    | Polling                                      // in epoll_wait
    | Collected(cbs: seq<nat>)                     // expired callbacks taken, not yet scheduled
    | Dispatching                                  // going through the reported events
    | Exited

  datatype Worker = Worker(phase: Phase, cbFiber: Option<nat>, idleOver: bool)

  datatype Timer = Timer(cb: nat, recurring: bool)

  datatype State = State(
    workers: seq<Worker>,
    queue: seq<Task>,
    fibers: seq<Fiber>,
    active: nat,             // m_activeThreadCount
    idlers: nat,             // m_idleThreadCount
    timers: seq<Timer>,      // the timer set
    waiters: seq<Work>,      // registered events
    autoStop: bool,
    stopping: bool,
    accepted: nat,           // tokens handed out
    held: seq<nat>,          // tokens whose segment ended on HOLD
    finished: seq<nat>)      // tokens whose segment ended on TERM
  {
    // IOManager::stopping as one snapshot.
    predicate Stopping() {
      |timers| == 0 && |waiters| == 0 && autoStop && stopping && |queue| == 0 && active == 0
    }
  }

  // ---- the scan of the queue --------------------------------------------------------------------

  predicate Eligible(task: Task, fibers: seq<Fiber>, thread: nat) {
    && (task.pin.Only? ==> task.pin.thread == thread)
    && !(task.work.RunFiber? && task.work.fid < |fibers| && fibers[task.work.fid].state == EXEC)
  }

  predicate PinnedElsewhere(task: Task, thread: nat) { task.pin.Only? && task.pin.thread != thread }

  predicate Executing(task: Task, fibers: seq<Fiber>) {
    task.work.RunFiber? && task.work.fid < |fibers| && fibers[task.work.fid].state == EXEC
  }

  function FirstEligible(queue: seq<Task>, fibers: seq<Fiber>, thread: nat): (k: nat)
    ensures k <= |queue|
    ensures k < |queue| ==> Eligible(queue[k], fibers, thread)
    ensures forall i :: 0 <= i < k ==> !Eligible(queue[i], fibers, thread)
    ensures k < |queue| ==> !PinnedElsewhere(queue[k], thread) && !Executing(queue[k], fibers)
    ensures forall i :: 0 <= i < k ==> PinnedElsewhere(queue[i], thread) || Executing(queue[i], fibers)
  {
    if |queue| == 0 || Eligible(queue[0], fibers, thread) then 0
    else
      var k := FirstEligible(queue[1..], fibers, thread);
      assert forall i :: 1 <= i < |queue| ==> queue[i] == queue[1..][i - 1];
      k + 1
  }

  // The loop of run: it stops at the first task that is neither another thread's nor one of an executing
  // fiber, and asks for a tickle when it passes over another thread's.
  method Scan(queue: seq<Task>, fibers: seq<Fiber>, thread: nat) returns (k: nat, tickle: bool)
    ensures k == FirstEligible(queue, fibers, thread) <= |queue|
    ensures k < |queue| ==> !PinnedElsewhere(queue[k], thread) && !Executing(queue[k], fibers)
    ensures forall i :: 0 <= i < k ==> PinnedElsewhere(queue[i], thread) || Executing(queue[i], fibers)
    ensures tickle <==> exists i :: 0 <= i < k && queue[i].pin.Only? && queue[i].pin.thread != thread
  {
    k, tickle := 0, false;
    while k < |queue|
      invariant k <= |queue|
      invariant forall i :: 0 <= i < k ==> !Eligible(queue[i], fibers, thread)
      invariant tickle <==> exists i :: 0 <= i < k && queue[i].pin.Only? && queue[i].pin.thread != thread
    {
      if queue[k].pin.Only? && queue[k].pin.thread != thread {
        k := k + 1;
        tickle := true;
        continue;
      }
      if queue[k].work.RunFiber? && queue[k].work.fid < |fibers| && fibers[queue[k].work.fid].state == EXEC {
        k := k + 1;
        continue;
      }
      break;
    }
  }

  // ---- steps ------------------------------------------------------------------------------------

  datatype Ending = ToReady | ToHold | ToTerm

  // `who` is the worker whose running fiber makes the call, or None for a thread outside.
  datatype Action =
    | Dequeue(w: nat)
    | SwapIn(w: nat)
    | End(w: nat, how: Ending)
    | ScheduleAgain(w: nat)
    | StopTest(w: nat)
    | Collect(w: nat, k: nat)
    | Deliver(w: nat)
    | Fire(w: nat, i: nat)
    | IdleTurnEnds(w: nat)
    | Submit(who: Option<nat>, work: Work, pin: Pin)
    | SubmitNew(who: Option<nat>, pin: Pin)
    | AddTimer(who: Option<nat>, timer: Timer)
    | CancelTimer(who: Option<nat>, i: nat)
    | AwaitFiber(w: nat)
    | AwaitCallback(who: Option<nat>, cb: nat)
    | DelEvent(who: Option<nat>, i: nat)
    | CancelEvent(who: Option<nat>, i: nat)
    | Stop

  predicate Outside(a: Action) {
    a.Stop? || ((a.Submit? || a.SubmitNew? || a.AddTimer? || a.CancelTimer? || a.AwaitCallback?
                 || a.DelEvent? || a.CancelEvent?) && a.who.None?)
  }

  // The caller is outside, or inside a running fiber.
  predicate Caller(s: State, who: Option<nat>) {
    who.Some? ==> who.value < |s.workers| && s.workers[who.value].phase.Running?
  }

  predicate Enabled(s: State, a: Action) {
    match a
    case Dequeue(w) => w < |s.workers| && s.workers[w].phase.Head?
    case SwapIn(w) => w < |s.workers| && s.workers[w].phase.Took?
    case End(w, how) => w < |s.workers| && s.workers[w].phase.Running?
    case ScheduleAgain(w) => w < |s.workers| && s.workers[w].phase.Returning?
    case StopTest(w) => w < |s.workers| && s.workers[w].phase.Idle?
    case Collect(w, k) => w < |s.workers| && s.workers[w].phase.Polling? && k <= |s.timers|
    case Deliver(w) => w < |s.workers| && s.workers[w].phase.Collected?
    case Fire(w, i) => w < |s.workers| && s.workers[w].phase.Dispatching? && i < |s.waiters|
    case IdleTurnEnds(w) => w < |s.workers| && s.workers[w].phase.Dispatching?
    case Submit(who, work, pin) => Caller(s, who) && (work.RunFiber? ==> work.fid < |s.fibers|)
    case SubmitNew(who, pin) => Caller(s, who)
    case AddTimer(who, timer) => Caller(s, who)
    case CancelTimer(who, i) => Caller(s, who) && i < |s.timers|
    case AwaitFiber(w) =>
      w < |s.workers| && s.workers[w].phase.Running? && s.workers[w].phase.fid < |s.fibers|
    case AwaitCallback(who, cb) => Caller(s, who)
    case DelEvent(who, i) => Caller(s, who) && i < |s.waiters|
    case CancelEvent(who, i) => Caller(s, who) && i < |s.waiters|
    case Stop => true
  }

  // A fiber that nothing refers to and that has not ended. It may be parked, or still running and
  // about to park.
  predicate Wakeable(s: State, f: nat) {
    f < |s.fibers| && s.fibers[f].ref.Nowhere? && s.fibers[f].state != TERM
    && !s.fibers[f].holder.Spare? && !s.fibers[f].holder.Leaves?
  }

  // The rule for clients, which the code does not check: only a wakeable fiber is scheduled, a fiber
  // waits at one place at a time, and one that is referred to parks when its segment ends.
  predicate Proper(s: State, a: Action)
    requires Enabled(s, a)
  {
    match a
    case Submit(_, RunFiber(f), _) => Wakeable(s, f)
    case AwaitFiber(w) => s.fibers[s.workers[w].phase.fid].ref.Nowhere?
    case End(w, how) =>
      var f := s.workers[w].phase.fid;
      f < |s.fibers| && !s.fibers[f].ref.Nowhere? ==> how.ToHold?
    case _ => true
  }

  // ---- what the steps do ------------------------------------------------------------------------

  function SetPhase(s: State, w: nat, p: Phase): State
    requires w < |s.workers|
  {
    s.(workers := s.workers[w := s.workers[w].(phase := p)])
  }

  function SetFiber(s: State, f: nat, fiber: Fiber): State {
    if f < |s.fibers| then s.(fibers := s.fibers[f := fiber]) else s
  }

  // scheduleNoLock of a task that is not held by anyone yet.
  function Enqueue(s: State, work: Work, pin: Pin): State {
    var t := s.(queue := s.queue + [Task(work, pin, s.accepted)], accepted := s.accepted + 1);
    if work.RunFiber? && work.fid < |s.fibers|
    then SetFiber(t, work.fid, s.fibers[work.fid].(ref := InQueue)) else t
  }

  function EnqueueAll(s: State, cbs: seq<nat>): State
    decreases |cbs|
  {
    if |cbs| == 0 then s else EnqueueAll(Enqueue(s, RunCallback(cbs[0]), Anywhere), cbs[1..])
  }

  function Remove<T>(s: seq<T>, i: nat): seq<T>
    requires i < |s|
  {
    s[..i] + s[i + 1..]
  }

  function Recurring(ts: seq<Timer>): seq<Timer> {
    if |ts| == 0 then [] else (if ts[0].recurring then [ts[0]] else []) + Recurring(ts[1..])
  }

  function Callbacks(ts: seq<Timer>): seq<nat> { seq(|ts|, i requires 0 <= i < |ts| => ts[i].cb) }

  // The locked scan, and what follows when it finds nothing.
  function DequeueStep(s: State, w: nat): State
    requires w < |s.workers|
  {
    var k := FirstEligible(s.queue, s.fibers, w);
    if k < |s.queue| then
      var task := s.queue[k];
      var t := SetPhase(s, w, Took(task)).(queue := Remove(s.queue, k), active := s.active + 1);
      if task.work.RunFiber? && task.work.fid < |s.fibers|
      then SetFiber(t, task.work.fid, s.fibers[task.work.fid].(ref := Taken(w))) else t
    else if s.workers[w].idleOver then SetPhase(s, w, Exited)
    else SetPhase(s, w, Idle).(idlers := s.idlers + 1)
  }

  // The fiber a callback runs in: the worker's spare one after a reset, or a new one.
  function CallFiber(s: State, w: nat): nat
    requires w < |s.workers|
  {
    match s.workers[w].cbFiber
    case Some(f) => f
    case None => |s.fibers|
  }

  function SwapInStep(s: State, w: nat): State
    requires w < |s.workers| && s.workers[w].phase.Took?
  {
    var task := s.workers[w].phase.task;
    match task.work
    case RunFiber(f) =>
      SetFiber(SetPhase(s, w, Running(f, task.token, false)), f, Fiber(EXEC, Nowhere, Runs(w)))
    case RunCallback(_) =>
      var f := CallFiber(s, w);
      var ran := Fiber(EXEC, Nowhere, Runs(w));
      var workers := s.workers[w := Worker(Running(f, task.token, true), Some(f), s.workers[w].idleOver)];
      s.(workers := workers, fibers := if f < |s.fibers| then s.fibers[f := ran] else s.fibers + [ran])
  }

  // A segment ends, the active count goes down and the state the fiber left decides.
  function EndStep(s: State, w: nat, how: Ending): State
    requires w < |s.workers| && s.workers[w].phase.Running?
  {
    var Running(f, token, called) := s.workers[w].phase;
    var ref := if f < |s.fibers| then s.fibers[f].ref else Nowhere;
    var idleOver := s.workers[w].idleOver;
    var spare := if called then None else s.workers[w].cbFiber;
    var t := s.(active := if s.active > 0 then s.active - 1 else 0);
    match how
    case ToReady =>
      SetFiber(t.(workers := s.workers[w := Worker(Returning(f, token), spare, idleOver)]),
               f, Fiber(READY, ref, Leaves(w)))
    case ToHold =>
      SetFiber(t.(workers := s.workers[w := Worker(Head, spare, idleOver)], held := s.held + [token]),
               f, Fiber(HOLD, ref, Nobody))
    case ToTerm =>
      // a callback's fiber is reset at once and kept
      var kept := if called then Some(f) else s.workers[w].cbFiber;
      SetFiber(t.(workers := s.workers[w := Worker(Head, kept, idleOver)], finished := s.finished + [token]),
               f, if called then Fiber(INIT, ref, Spare(w)) else Fiber(TERM, ref, Nobody))
  }

  function ScheduleAgainStep(s: State, w: nat): State
    requires w < |s.workers| && s.workers[w].phase.Returning?
  {
    var Returning(f, token) := s.workers[w].phase;
    SetFiber(SetPhase(s, w, Head).(queue := s.queue + [Task(RunFiber(f), Anywhere, token)]),
             f, Fiber(READY, InQueue, Nobody))
  }

  // A waiter leaves the event table, into the queue or for good.
  function FireStep(s: State, i: nat): State
    requires i < |s.waiters|
  {
    Enqueue(s.(waiters := Remove(s.waiters, i)), s.waiters[i], Anywhere)
  }

  function ForgetStep(s: State, i: nat): State
    requires i < |s.waiters|
  {
    var t := s.(waiters := Remove(s.waiters, i));
    var work := s.waiters[i];
    if work.RunFiber? && work.fid < |s.fibers|
    then SetFiber(t, work.fid, s.fibers[work.fid].(ref := Nowhere)) else t
  }

  function Apply(s: State, a: Action): State
    requires Enabled(s, a)
  {
    match a
    case Dequeue(w) => DequeueStep(s, w)
    case SwapIn(w) => SwapInStep(s, w)
    case End(w, how) => EndStep(s, w, how)
    case ScheduleAgain(w) => ScheduleAgainStep(s, w)
    case StopTest(w) =>
      if s.Stopping() then
        s.(workers := s.workers[w := Worker(Head, s.workers[w].cbFiber, true)],
           idlers := if s.idlers > 0 then s.idlers - 1 else 0)
      else SetPhase(s, w, Polling)
    case Collect(w, k) =>
      SetPhase(s, w, Collected(Callbacks(s.timers[..k]))).(timers := s.timers[k..] + Recurring(s.timers[..k]))
    case Deliver(w) => EnqueueAll(SetPhase(s, w, Dispatching), s.workers[w].phase.cbs)
    case Fire(w, i) => FireStep(s, i)
    case IdleTurnEnds(w) => SetPhase(s, w, Head).(idlers := if s.idlers > 0 then s.idlers - 1 else 0)
    case Submit(who, work, pin) => Enqueue(s, work, pin)
    case SubmitNew(who, pin) =>
      Enqueue(s.(fibers := s.fibers + [Fiber(INIT, Nowhere, Nobody)]), RunFiber(|s.fibers|), pin)
    case AddTimer(who, timer) => s.(timers := s.timers + [timer])
    case CancelTimer(who, i) => s.(timers := Remove(s.timers, i))
    case AwaitFiber(w) =>
      var f := s.workers[w].phase.fid;
      SetFiber(s.(waiters := s.waiters + [RunFiber(f)]), f, s.fibers[f].(ref := AtEvent))
    case AwaitCallback(who, cb) => s.(waiters := s.waiters + [RunCallback(cb)])
    case DelEvent(who, i) => ForgetStep(s, i)
    case CancelEvent(who, i) => FireStep(s, i)
    case Stop => s.(autoStop := true, stopping := true)
  }

  // The assertions a step runs into: those of Fiber::reset and Fiber::swapIn, and the one behind the
  // last switch in Fiber::MainFunc, which a fiber that has ended reaches when it is run again.
  predicate AssertsHold(s: State, a: Action)
    requires Enabled(s, a)
  {
    a.SwapIn? ==>
      match s.workers[a.w].phase.task.work
      case RunFiber(f) => f < |s.fibers| && s.fibers[f].state != EXEC && s.fibers[f].state != TERM
      case RunCallback(_) =>
        var f := s.workers[a.w].cbFiber;
        f.Some? ==> f.value < |s.fibers| && (s.fibers[f.value].state == TERM || s.fibers[f.value].state == INIT)
  }
}
