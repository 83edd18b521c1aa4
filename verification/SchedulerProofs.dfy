/** What every step of the scheduler protocol keeps, and what follows for whole runs. */
module SchedulerProofs {
  import opened Options
  import opened Schedulers

  // ---- the counters -----------------------------------------------------------------------------

  // Between dequeue and return, inside the idle fiber, and with a task in hand.
  function Active(p: Phase): nat { if p.Took? || p.Running? then 1 else 0 }

  function Idling(p: Phase): nat { if p.Idle? || p.Polling? || p.Collected? || p.Dispatching? then 1 else 0 }

  function Holding(p: Phase): nat { if p.Took? || p.Running? || p.Returning? then 1 else 0 }

  function HandCount(ws: seq<Worker>): nat {
    if |ws| == 0 then 0 else Holding(ws[0].phase) + HandCount(ws[1..])
  }

  function ActiveCount(ws: seq<Worker>): nat {
    if |ws| == 0 then 0 else Active(ws[0].phase) + ActiveCount(ws[1..])
  }

  function IdleCount(ws: seq<Worker>): nat {
    if |ws| == 0 then 0 else Idling(ws[0].phase) + IdleCount(ws[1..])
  }

  lemma {:induction false} CountUpdate(ws: seq<Worker>, w: nat, x: Worker)
    requires w < |ws|
    ensures ActiveCount(ws[w := x]) + Active(ws[w].phase) == ActiveCount(ws) + Active(x.phase)
    ensures IdleCount(ws[w := x]) + Idling(ws[w].phase) == IdleCount(ws) + Idling(x.phase)
    ensures HandCount(ws[w := x]) + Holding(ws[w].phase) == HandCount(ws) + Holding(x.phase)
  {
    if w == 0 {
      assert ws[0 := x][1..] == ws[1..];
    } else {
      assert ws[w := x][1..] == ws[1..][w - 1 := x];
      CountUpdate(ws[1..], w - 1, x);
    }
  }

  lemma {:induction false} CountAtLeast(ws: seq<Worker>, w: nat)
    requires w < |ws|
    ensures Active(ws[w].phase) <= ActiveCount(ws) && Idling(ws[w].phase) <= IdleCount(ws)
  {
    if w > 0 { CountAtLeast(ws[1..], w - 1); }
  }

  // m_activeThreadCount and m_idleThreadCount count what they say, and
  // accepted = queued + in a worker's hand + held + finished.
  predicate Counted(s: State) {
    && s.active == ActiveCount(s.workers) && s.idlers == IdleCount(s.workers)
    && s.accepted == |s.queue| + HandCount(s.workers) + |s.held| + |s.finished|
  }

  // Queueing touches neither the workers nor the counters.
  lemma {:induction false} EnqueueAllKeeps(s: State, cbs: seq<nat>)
    ensures var t := EnqueueAll(s, cbs);
            && t.workers == s.workers && t.active == s.active && t.idlers == s.idlers
            && t.fibers == s.fibers && t.timers == s.timers && t.waiters == s.waiters
            && t.autoStop == s.autoStop && t.stopping == s.stopping
            && t.held == s.held && t.finished == s.finished
            && |t.queue| == |s.queue| + |cbs| && t.accepted == s.accepted + |cbs|
    decreases |cbs|
  {
    if |cbs| > 0 {
      EnqueueAllKeeps(Enqueue(s, RunCallback(cbs[0]), Anywhere), cbs[1..]);
    }
  }

  // One worker moves; the counters move with it.
  lemma CountedMove(s: State, t: State, w: nat)
    requires Counted(s) && w < |s.workers| == |t.workers| && t.workers == s.workers[w := t.workers[w]]
    requires s.active >= Active(s.workers[w].phase) ==>
               t.active == s.active - Active(s.workers[w].phase) + Active(t.workers[w].phase)
    requires s.idlers >= Idling(s.workers[w].phase) ==>
               t.idlers == s.idlers - Idling(s.workers[w].phase) + Idling(t.workers[w].phase)
    requires t.accepted - |t.queue| - |t.held| - |t.finished| - Holding(t.workers[w].phase) ==
             s.accepted - |s.queue| - |s.held| - |s.finished| - Holding(s.workers[w].phase)
    ensures Counted(t)
  {
    CountAtLeast(s.workers, w);
    CountUpdate(s.workers, w, t.workers[w]);
  }

  lemma CountedEnd(s: State, w: nat, how: Ending)
    requires Counted(s) && Enabled(s, End(w, how))
    ensures Counted(EndStep(s, w, how))
  {
    hide Counted;
    CountedMove(s, EndStep(s, w, how), w);
  }

  lemma CountedDequeue(s: State, w: nat)
    requires Counted(s) && Enabled(s, Dequeue(w))
    ensures Counted(DequeueStep(s, w))
  {
    hide Counted, FirstEligible;
    CountedMove(s, DequeueStep(s, w), w);
  }

  lemma CountedCall(s: State, a: Action)
    requires Counted(s) && Enabled(s, a)
    requires a.Fire? || a.Submit? || a.SubmitNew? || a.AddTimer? || a.CancelTimer? || a.AwaitFiber?
             || a.AwaitCallback? || a.DelEvent? || a.CancelEvent? || a.Stop?
    ensures Counted(Apply(s, a))
  {
    hide ActiveCount, IdleCount, HandCount, EnqueueAll, Recurring, Callbacks, EndStep, DequeueStep;
  }

  lemma CountedMoves(s: State, a: Action)
    requires Counted(s) && Enabled(s, a)
    requires a.SwapIn? || a.ScheduleAgain? || a.StopTest? || a.Collect? || a.IdleTurnEnds? || a.Deliver?
    ensures Counted(Apply(s, a))
  {
    hide Counted, EnqueueAll, Recurring, Callbacks, EndStep, DequeueStep, FireStep, ForgetStep, Enqueue;
    if a.Deliver? {
      EnqueueAllKeeps(SetPhase(s, a.w, Dispatching), s.workers[a.w].phase.cbs);
    }
    CountedMove(s, Apply(s, a), a.w);
  }

  lemma CountedKept(s: State, a: Action)
    requires Counted(s) && Enabled(s, a)
    ensures Counted(Apply(s, a))
  {
    hide Counted;
    match a
    case Dequeue(w) => CountedDequeue(s, w);
    case End(w, how) => CountedEnd(s, w, how);
    case SwapIn(_) => CountedMoves(s, a);
    case ScheduleAgain(_) => CountedMoves(s, a);
    case StopTest(_) => CountedMoves(s, a);
    case Collect(_, _) => CountedMoves(s, a);
    case IdleTurnEnds(_) => CountedMoves(s, a);
    case Deliver(_) => CountedMoves(s, a);
    case _ => CountedCall(s, a);
  }

  // ---- the tasks --------------------------------------------------------------------------------

  function HandTimes(p: Phase, t: nat): nat {
    match p
    case Took(task) => if task.token == t then 1 else 0
    case Running(_, token, _) => if token == t then 1 else 0
    case Returning(_, token) => if token == t then 1 else 0
    case _ => 0
  }

  function InHands(ws: seq<Worker>, t: nat): nat {
    if |ws| == 0 then 0 else HandTimes(ws[0].phase, t) + InHands(ws[1..], t)
  }

  function Queued(q: seq<Task>, t: nat): nat {
    if |q| == 0 then 0 else (if q[0].token == t then 1 else 0) + Queued(q[1..], t)
  }

  function Listed(l: seq<nat>, t: nat): nat {
    if |l| == 0 then 0 else (if l[|l| - 1] == t then 1 else 0) + Listed(l[..|l| - 1], t)
  }

  // How often a task is in the queue, in a worker's hand, held, or finished.
  function Places(s: State, t: nat): nat {
    Queued(s.queue, t) + InHands(s.workers, t) + Listed(s.held, t) + Listed(s.finished, t)
  }

  // Every accepted task is in exactly one place, and nothing else is anywhere.
  ghost predicate Conserved(s: State) {
    forall t: nat :: Places(s, t) == if t < s.accepted then 1 else 0
  }

  lemma {:induction false} HandUpdate(ws: seq<Worker>, w: nat, x: Worker, t: nat)
    requires w < |ws|
    ensures InHands(ws[w := x], t) + HandTimes(ws[w].phase, t) == InHands(ws, t) + HandTimes(x.phase, t)
  {
    if w == 0 {
      assert ws[0 := x][1..] == ws[1..];
    } else {
      assert ws[w := x][1..] == ws[1..][w - 1 := x];
      HandUpdate(ws[1..], w - 1, x, t);
    }
  }

  lemma {:induction false} QueuedAppend(q: seq<Task>, task: Task, t: nat)
    ensures Queued(q + [task], t) == Queued(q, t) + if task.token == t then 1 else 0
  {
    if |q| > 0 {
      assert (q + [task])[1..] == q[1..] + [task];
      QueuedAppend(q[1..], task, t);
    } else {
      assert (q + [task])[1..] == [];
    }
  }

  lemma {:induction false} QueuedRemove(q: seq<Task>, k: nat, t: nat)
    requires k < |q|
    ensures Queued(Remove(q, k), t) + (if q[k].token == t then 1 else 0) == Queued(q, t)
  {
    if k == 0 {
      assert Remove(q, 0) == q[1..];
    } else {
      assert Remove(q, k) == [q[0]] + Remove(q[1..], k - 1);
      assert Remove(q, k)[1..] == Remove(q[1..], k - 1);
      QueuedRemove(q[1..], k - 1, t);
    }
  }

  lemma ListedAppend(l: seq<nat>, x: nat, t: nat)
    ensures Listed(l + [x], t) == Listed(l, t) + if x == t then 1 else 0
  {
    assert (l + [x])[..|l|] == l;
  }

  // One worker moves; a token changes its place with it.
  lemma PlacesMove(s: State, t: State, w: nat, x: nat)
    requires w < |s.workers| == |t.workers| && t.workers == s.workers[w := t.workers[w]]
    ensures Places(t, x) - Places(s, x) ==
            HandTimes(t.workers[w].phase, x) - HandTimes(s.workers[w].phase, x)
            + Queued(t.queue, x) - Queued(s.queue, x)
            + Listed(t.held, x) - Listed(s.held, x) + Listed(t.finished, x) - Listed(s.finished, x)
  {
    HandUpdate(s.workers, w, t.workers[w], x);
  }

  lemma PlacesDequeue(s: State, w: nat, t: nat)
    requires Enabled(s, Dequeue(w))
    ensures Places(DequeueStep(s, w), t) == Places(s, t)
  {
    hide FirstEligible, Places, Queued, Listed;
    var k := FirstEligible(s.queue, s.fibers, w);
    PlacesMove(s, DequeueStep(s, w), w, t);
    if k < |s.queue| { QueuedRemove(s.queue, k, t); }
  }

  lemma PlacesEnd(s: State, w: nat, how: Ending, t: nat)
    requires Enabled(s, End(w, how))
    ensures Places(EndStep(s, w, how), t) == Places(s, t)
  {
    hide Places, Queued, Listed;
    PlacesMove(s, EndStep(s, w, how), w, t);
    ListedAppend(s.held, s.workers[w].phase.token, t);
    ListedAppend(s.finished, s.workers[w].phase.token, t);
  }

  // Only the queue, the workers and the two lists are places.
  lemma PlacesSame(s: State, t: State, x: nat)
    requires t.queue == s.queue && t.workers == s.workers && t.held == s.held && t.finished == s.finished
    ensures Places(t, x) == Places(s, x)
  {
  }

  lemma PlacesEnqueue(s: State, work: Work, pin: Pin, t: nat)
    ensures Places(Enqueue(s, work, pin), t) == Places(s, t) + if t == s.accepted then 1 else 0
  {
    QueuedAppend(s.queue, Task(work, pin, s.accepted), t);
  }

  predicate OneStepPlaces(s: State, after: State, t: nat) {
    && after.accepted >= s.accepted
    && Places(after, t) == Places(s, t) + if s.accepted <= t < after.accepted then 1 else 0
  }

  lemma PlacesMoves(s: State, a: Action, t: nat)
    requires Enabled(s, a)
    requires a.SwapIn? || a.ScheduleAgain? || a.StopTest? || a.Collect? || a.IdleTurnEnds?
    ensures OneStepPlaces(s, Apply(s, a), t)
  {
    hide Places, Queued, Listed, EnqueueAll, Recurring, Callbacks, EndStep, DequeueStep, FireStep, ForgetStep, Enqueue;
    PlacesMove(s, Apply(s, a), a.w, t);
    if a.ScheduleAgain? {
      var p := s.workers[a.w].phase;
      QueuedAppend(s.queue, Task(RunFiber(p.fid), Anywhere, p.token), t);
    }
  }

  lemma PlacesCall(s: State, a: Action, t: nat)
    requires Enabled(s, a)
    requires a.Fire? || a.Submit? || a.SubmitNew? || a.AddTimer? || a.CancelTimer? || a.AwaitFiber?
             || a.AwaitCallback? || a.DelEvent? || a.CancelEvent? || a.Stop?
    ensures OneStepPlaces(s, Apply(s, a), t)
  {
    hide Places, Queued, Listed, EnqueueAll, Recurring, Callbacks, EndStep, DequeueStep, FireStep;
    var next := Apply(s, a);
    match a
    case Fire(w, i) => PlacesFire(s, i, t);
    case CancelEvent(who, i) => PlacesFire(s, i, t);
    case Submit(who, work, pin) => PlacesEnqueue(s, work, pin, t);
    case SubmitNew(who, pin) =>
      var more := s.(fibers := s.fibers + [Fiber(INIT, Nowhere, Nobody)]);
      PlacesSame(s, more, t);
      PlacesEnqueue(more, RunFiber(|s.fibers|), pin, t);
    case _ => PlacesSame(s, next, t);
  }

  lemma PlacesFire(s: State, i: nat, t: nat)
    requires i < |s.waiters|
    ensures OneStepPlaces(s, FireStep(s, i), t)
  {
    hide Places;
    PlacesSame(s, s.(waiters := Remove(s.waiters, i)), t);
    PlacesEnqueue(s.(waiters := Remove(s.waiters, i)), s.waiters[i], Anywhere, t);
  }

  // What a step does to the places of one task: only a new token appears, and only once.
  lemma PlacesKept(s: State, a: Action, t: nat)
    requires Enabled(s, a)
    ensures OneStepPlaces(s, Apply(s, a), t)
  {
    hide Places;
    match a
    case Dequeue(w) =>
      PlacesDequeue(s, w, t);
      AcceptsNothing(s, w, ToHold);
    case End(w, how) =>
      PlacesEnd(s, w, how, t);
      AcceptsNothing(s, w, how);
    case Deliver(w) => DeliverPlaces(s, w, t);
    case SwapIn(_) => PlacesMoves(s, a, t);
    case ScheduleAgain(_) => PlacesMoves(s, a, t);
    case StopTest(_) => PlacesMoves(s, a, t);
    case Collect(_, _) => PlacesMoves(s, a, t);
    case IdleTurnEnds(_) => PlacesMoves(s, a, t);
    case _ => PlacesCall(s, a, t);
  }

  lemma AcceptsNothing(s: State, w: nat, how: Ending)
    ensures Enabled(s, Dequeue(w)) ==> DequeueStep(s, w).accepted == s.accepted
    ensures Enabled(s, End(w, how)) ==> EndStep(s, w, how).accepted == s.accepted
  {
    hide FirstEligible;
  }

  lemma {:induction false} EnqueueAllPlaces(s: State, cbs: seq<nat>, t: nat)
    ensures var after := EnqueueAll(s, cbs);
            && after.accepted == s.accepted + |cbs|
            && Places(after, t) == Places(s, t) + if s.accepted <= t < after.accepted then 1 else 0
    decreases |cbs|
  {
    if |cbs| > 0 {
      hide InHands, Queued, Listed;
      QueuedAppend(s.queue, Task(RunCallback(cbs[0]), Anywhere, s.accepted), t);
      EnqueueAllPlaces(Enqueue(s, RunCallback(cbs[0]), Anywhere), cbs[1..], t);
    }
  }

  lemma ConservedKept(s: State, a: Action)
    requires Conserved(s) && Enabled(s, a)
    ensures Conserved(Apply(s, a))
  {
    hide Places, Apply, EnqueueAll;
    forall t: nat ensures Places(Apply(s, a), t) == if t < Apply(s, a).accepted then 1 else 0 {
      PlacesKept(s, a, t);
      assert Places(s, t) == if t < s.accepted then 1 else 0;
    }
  }

  lemma DeliverPlaces(s: State, w: nat, t: nat)
    requires Enabled(s, Deliver(w))
    ensures OneStepPlaces(s, Apply(s, Deliver(w)), t)
  {
    hide InHands, Queued, Listed, EnqueueAll;
    HandUpdate(s.workers, w, SetPhase(s, w, Dispatching).workers[w], t);
    EnqueueAllPlaces(SetPhase(s, w, Dispatching), s.workers[w].phase.cbs, t);
  }

  // ---- the fibers -------------------------------------------------------------------------------

  ghost predicate QueueOk(s: State) {
    && (forall i :: 0 <= i < |s.queue| && s.queue[i].work.RunFiber? ==>
         s.queue[i].work.fid < |s.fibers| && s.fibers[s.queue[i].work.fid].ref == InQueue)
    && (forall i, j :: 0 <= i < j < |s.queue| && s.queue[i].work.RunFiber? ==> s.queue[i].work != s.queue[j].work)
  }

  ghost predicate WaitersOk(s: State) {
    && (forall i :: 0 <= i < |s.waiters| && s.waiters[i].RunFiber? ==>
         s.waiters[i].fid < |s.fibers| && s.fibers[s.waiters[i].fid].ref == AtEvent)
    && (forall i, j :: 0 <= i < j < |s.waiters| && s.waiters[i].RunFiber? ==> s.waiters[i] != s.waiters[j])
  }

  // What a worker's place in the loop says about the fibers it holds. At the head of the loop
  // cb_fiber is null or an INIT fiber that nothing else refers to.
  ghost predicate WorkerOk(s: State, w: nat)
    requires w < |s.workers|
  {
    var me := s.workers[w];
    && (me.phase.Took? && me.phase.task.work.RunFiber? ==>
         me.phase.task.work.fid < |s.fibers| && s.fibers[me.phase.task.work.fid].ref == Taken(w))
    && (me.phase.Running? ==> me.phase.fid < |s.fibers| && s.fibers[me.phase.fid].holder == Runs(w))
    && (me.phase.Running? && me.phase.called ==> me.cbFiber == Some(me.phase.fid))
    && (me.phase.Returning? ==> me.phase.fid < |s.fibers| && s.fibers[me.phase.fid].holder == Leaves(w))
    && (me.cbFiber.Some? && !(me.phase.Running? && me.phase.called) ==>
         me.cbFiber.value < |s.fibers| && s.fibers[me.cbFiber.value].holder == Spare(w))
  }

  ghost predicate FiberOk(s: State, f: nat)
    requires f < |s.fibers|
  {
    && s.fibers[f].Ok()
    && (s.fibers[f].holder.Runs? ==>
         var w := s.fibers[f].holder.worker;
         w < |s.workers| && s.workers[w].phase.Running? && s.workers[w].phase.fid == f)
  }

  ghost predicate Separate(s: State) {
    && QueueOk(s) && WaitersOk(s)
    && (forall w: nat :: w < |s.workers| ==> WorkerOk(s, w))
    && (forall f: nat :: f < |s.fibers| ==> FiberOk(s, f))
  }

  // No assertion in reset or swapIn fails.
  lemma AssertionsHold(s: State, a: Action)
    requires Separate(s) && Enabled(s, a)
    ensures AssertsHold(s, a)
  {
    if a.SwapIn? {
      assert WorkerOk(s, a.w);
      match s.workers[a.w].phase.task.work
      case RunFiber(f) => assert FiberOk(s, f);
      case RunCallback(_) =>
        if s.workers[a.w].cbFiber.Some? { assert FiberOk(s, s.workers[a.w].cbFiber.value); }
    }
  }

  // A fiber executes on at most one worker, and exactly while its state says so.
  lemma OneWorkerPerFiber(s: State, f: nat, v: nat, w: nat)
    requires Separate(s) && f < |s.fibers| && v < |s.workers| && w < |s.workers|
    requires s.workers[v].phase.Running? && s.workers[v].phase.fid == f
    ensures s.fibers[f].state == EXEC
    ensures s.workers[w].phase.Running? && s.workers[w].phase.fid == f ==> v == w
  {
    assert WorkerOk(s, v) && WorkerOk(s, w) && FiberOk(s, f);
  }

  lemma ExecutingHasWorker(s: State, f: nat)
    requires Separate(s) && f < |s.fibers| && s.fibers[f].state == EXEC
    ensures exists w :: 0 <= w < |s.workers| && s.workers[w].phase.Running? && s.workers[w].phase.fid == f
  {
    assert FiberOk(s, f);
  }

  lemma EnqueueSeparate(s: State, work: Work, pin: Pin)
    requires Separate(s)
    requires work.RunFiber? ==> work.fid < |s.fibers| && s.fibers[work.fid].ref.Nowhere?
                                && !s.fibers[work.fid].holder.Spare? && !s.fibers[work.fid].holder.Leaves?
                                && s.fibers[work.fid].state != TERM
    ensures Separate(Enqueue(s, work, pin))
  {
    var t := Enqueue(s, work, pin);
    forall w: nat | w < |t.workers| ensures WorkerOk(t, w) { assert WorkerOk(s, w); }
    forall g: nat | g < |t.fibers| ensures FiberOk(t, g) { assert FiberOk(s, g); }
  }

  lemma {:induction false} EnqueueAllSeparate(s: State, cbs: seq<nat>)
    requires Separate(s)
    ensures Separate(EnqueueAll(s, cbs))
    decreases |cbs|
  {
    if |cbs| > 0 {
      EnqueueSeparate(s, RunCallback(cbs[0]), Anywhere);
      EnqueueAllSeparate(Enqueue(s, RunCallback(cbs[0]), Anywhere), cbs[1..]);
    }
  }

  // A step of worker w that changes fiber f, which no other worker holds, concerns no one else.
  lemma OthersOk(s: State, t: State, w: nat, f: nat)
    requires Separate(s) && w < |s.workers| == |t.workers| && |s.fibers| <= |t.fibers|
    requires forall v :: 0 <= v < |s.workers| && v != w ==> t.workers[v] == s.workers[v]
    requires forall g :: 0 <= g < |s.fibers| && g != f ==> t.fibers[g] == s.fibers[g]
    requires f < |s.fibers| ==> Mine(s.fibers[f], w)
    requires s.workers[w].phase.Running? ==> s.workers[w].phase.fid == f
    ensures forall v: nat :: v < |t.workers| && v != w ==> WorkerOk(t, v)
    ensures forall g: nat :: g < |s.fibers| && g != f ==> FiberOk(t, g)
  {
    forall v: nat | v < |t.workers| && v != w ensures WorkerOk(t, v) { assert WorkerOk(s, v); }
    forall g: nat | g < |s.fibers| && g != f ensures FiberOk(t, g) { assert FiberOk(s, g); }
  }

  predicate Mine(x: Fiber, w: nat) {
    (x.holder.Nobody? || x.holder.worker == w) && (x.ref.Taken? ==> x.ref.worker == w)
  }

  // Queue and event table, when one fiber changes that neither names.
  lemma NamesOk(s: State, t: State, f: nat)
    requires QueueOk(s) && WaitersOk(s) && t.queue == s.queue && t.waiters == s.waiters
    requires |s.fibers| <= |t.fibers|
    requires forall g :: 0 <= g < |s.fibers| && g != f ==> t.fibers[g] == s.fibers[g]
    requires f < |s.fibers| ==> (s.fibers[f].ref == InQueue || s.fibers[f].ref == AtEvent ==>
                                   t.fibers[f].ref == s.fibers[f].ref)
    ensures QueueOk(t) && WaitersOk(t)
  {
  }

  lemma TakeNames(s: State, t: State, k: nat)
    requires QueueOk(s) && WaitersOk(s) && k < |s.queue| && t.waiters == s.waiters
    requires t.queue == Remove(s.queue, k) && |t.fibers| == |s.fibers|
    requires forall g :: 0 <= g < |s.fibers| && RunFiber(g) != s.queue[k].work ==> t.fibers[g] == s.fibers[g]
    ensures QueueOk(t) && WaitersOk(t)
  {
    forall i | 0 <= i < |t.queue| ensures t.queue[i] == s.queue[if i < k then i else i + 1] {}
  }

  lemma DequeueSeparate(s: State, w: nat)
    requires Separate(s) && Enabled(s, Dequeue(w))
    ensures Separate(DequeueStep(s, w))
  {
    hide FirstEligible;
    var k := FirstEligible(s.queue, s.fibers, w);
    if k < |s.queue| {
      TakeSeparate(s, w, k, DequeueStep(s, w));
    } else {
      var x := DequeueStep(s, w).workers[w];
      PhaseSeparate(s, w, x);
      SameFibers(s.(workers := s.workers[w := x]), DequeueStep(s, w));
    }
  }

  lemma TakeSeparate(s: State, w: nat, k: nat, t: State)
    requires Separate(s) && Enabled(s, Dequeue(w)) && k < |s.queue|
             && (s.queue[k].work.RunFiber? && s.queue[k].work.fid < |s.fibers| ==>
                   s.fibers[s.queue[k].work.fid].state != EXEC)
    requires t.workers == s.workers[w := s.workers[w].(phase := Took(s.queue[k]))]
    requires t.queue == Remove(s.queue, k) && t.waiters == s.waiters
    requires var task := s.queue[k];
             t.fibers == if task.work.RunFiber? && task.work.fid < |s.fibers|
                         then s.fibers[task.work.fid := s.fibers[task.work.fid].(ref := Taken(w))] else s.fibers
    ensures Separate(t)
  {
    var f := if s.queue[k].work.RunFiber? then s.queue[k].work.fid else |s.fibers|;
    assert WorkerOk(s, w);
    if f < |s.fibers| { assert FiberOk(s, f); }
    OthersOk(s, t, w, f);
    TakeNames(s, t, k);
  }

  lemma SwapInSeparate(s: State, w: nat)
    requires Separate(s) && Enabled(s, SwapIn(w))
    ensures Separate(SwapInStep(s, w))
  {
    var t := SwapInStep(s, w);
    assert WorkerOk(s, w);
    var f := t.workers[w].phase.fid;
    if f < |s.fibers| { assert FiberOk(s, f); }
    OthersOk(s, t, w, f);
    NamesOk(s, t, f);
  }

  lemma EndSeparate(s: State, w: nat, how: Ending)
    requires Separate(s) && Enabled(s, End(w, how)) && Proper(s, End(w, how))
    ensures Separate(EndStep(s, w, how))
  {
    var t := EndStep(s, w, how);
    var f := s.workers[w].phase.fid;
    assert WorkerOk(s, w) && FiberOk(s, f);
    OthersOk(s, t, w, f);
    NamesOk(s, t, f);
  }

  lemma ScheduleAgainSeparate(s: State, w: nat)
    requires Separate(s) && Enabled(s, ScheduleAgain(w))
    ensures Separate(ScheduleAgainStep(s, w))
  {
    var t := ScheduleAgainStep(s, w);
    var f := s.workers[w].phase.fid;
    assert WorkerOk(s, w) && FiberOk(s, f);
    OthersOk(s, t, w, f);
  }

  // A worker moves without touching a fiber it holds.
  lemma PhaseSeparate(s: State, w: nat, x: Worker)
    requires Separate(s) && w < |s.workers| && x.cbFiber == s.workers[w].cbFiber
    requires !x.phase.Took? && !x.phase.Running? && !x.phase.Returning?
    requires !s.workers[w].phase.Took? && !s.workers[w].phase.Running? && !s.workers[w].phase.Returning?
    ensures Separate(s.(workers := s.workers[w := x]))
  {
    var t := s.(workers := s.workers[w := x]);
    forall v: nat | v < |t.workers| ensures WorkerOk(t, v) { assert WorkerOk(s, v); }
    forall g: nat | g < |t.fibers| ensures FiberOk(t, g) { assert FiberOk(s, g); }
  }

  lemma ForgetSeparate(s: State, i: nat)
    requires Separate(s) && i < |s.waiters|
    ensures Separate(ForgetStep(s, i))
    ensures var f := s.waiters[i];
            f.RunFiber? ==> f.fid < |s.fibers| && ForgetStep(s, i).fibers[f.fid].ref.Nowhere?
                            && s.fibers[f.fid].state != TERM
                            && !s.fibers[f.fid].holder.Spare? && !s.fibers[f.fid].holder.Leaves?
  {
    var t := ForgetStep(s, i);
    if s.waiters[i].RunFiber? { assert FiberOk(s, s.waiters[i].fid); }
    forall w: nat | w < |t.workers| ensures WorkerOk(t, w) { assert WorkerOk(s, w); }
    forall g: nat | g < |t.fibers| ensures FiberOk(t, g) { assert FiberOk(s, g); }
  }

  lemma FireSeparate(s: State, i: nat)
    requires Separate(s) && i < |s.waiters|
    ensures Separate(FireStep(s, i))
  {
    ForgetSeparate(s, i);
    EnqueueSeparate(ForgetStep(s, i), s.waiters[i], Anywhere);
    var f := s.waiters[i];
    if f.RunFiber? && f.fid < |s.fibers| {
      assert ForgetStep(s, i).fibers[f.fid := s.fibers[f.fid].(ref := InQueue)]
          == s.fibers[f.fid := s.fibers[f.fid].(ref := InQueue)];
    }
  }

  lemma AwaitSeparate(s: State, w: nat)
    requires Separate(s) && Enabled(s, AwaitFiber(w)) && Proper(s, AwaitFiber(w))
    ensures Separate(Apply(s, AwaitFiber(w)))
  {
    var t := Apply(s, AwaitFiber(w));
    assert WorkerOk(s, w);
    forall v: nat | v < |t.workers| ensures WorkerOk(t, v) { assert WorkerOk(s, v); }
    forall g: nat | g < |t.fibers| ensures FiberOk(t, g) { assert FiberOk(s, g); }
  }

  lemma NewFiberSeparate(s: State)
    requires Separate(s)
    ensures Separate(s.(fibers := s.fibers + [Fiber(INIT, Nowhere, Nobody)]))
  {
    var t := s.(fibers := s.fibers + [Fiber(INIT, Nowhere, Nobody)]);
    forall v: nat | v < |t.workers| ensures WorkerOk(t, v) { assert WorkerOk(s, v); }
    forall g: nat | g < |t.fibers| ensures FiberOk(t, g) { if g < |s.fibers| { assert FiberOk(s, g); } }
  }

  // Nothing about fibers depends on timers, flags, counters or tokens.
  lemma SameFibers(s: State, t: State)
    requires Separate(s)
    requires t.workers == s.workers && t.fibers == s.fibers && t.queue == s.queue && t.waiters == s.waiters
    ensures Separate(t)
  {
    forall v: nat | v < |t.workers| ensures WorkerOk(t, v) { assert WorkerOk(s, v); }
    forall g: nat | g < |t.fibers| ensures FiberOk(t, g) { assert FiberOk(s, g); }
  }

  lemma AwaitCallbackSeparate(s: State, cb: nat)
    requires Separate(s)
    ensures Separate(s.(waiters := s.waiters + [RunCallback(cb)]))
  {
    var t := s.(waiters := s.waiters + [RunCallback(cb)]);
    forall v: nat | v < |t.workers| ensures WorkerOk(t, v) { assert WorkerOk(s, v); }
    forall g: nat | g < |t.fibers| ensures FiberOk(t, g) { assert FiberOk(s, g); }
  }

  lemma SeparateKept(s: State, a: Action)
    requires Separate(s) && Enabled(s, a) && Proper(s, a)
    ensures Separate(Apply(s, a))
  {
    hide Separate, FirstEligible, EnqueueAll, Recurring, Callbacks;
    match a
    case Dequeue(w) => DequeueSeparate(s, w);
    case SwapIn(w) => SwapInSeparate(s, w);
    case End(w, how) => EndSeparate(s, w, how);
    case ScheduleAgain(w) => ScheduleAgainSeparate(s, w);
    case StopTest(w) =>
      var x := Apply(s, a).workers[w];
      PhaseSeparate(s, w, x);
      SameFibers(s.(workers := s.workers[w := x]), Apply(s, a));
    case Collect(w, k) =>
      var x := Apply(s, a).workers[w];
      PhaseSeparate(s, w, x);
      SameFibers(s.(workers := s.workers[w := x]), Apply(s, a));
    case Deliver(w) =>
      PhaseSeparate(s, w, s.workers[w].(phase := Dispatching));
      EnqueueAllSeparate(SetPhase(s, w, Dispatching), s.workers[w].phase.cbs);
    case Fire(w, i) => FireSeparate(s, i);
    case IdleTurnEnds(w) =>
      var x := Apply(s, a).workers[w];
      PhaseSeparate(s, w, x);
      SameFibers(s.(workers := s.workers[w := x]), Apply(s, a));
    case Submit(who, work, pin) => EnqueueSeparate(s, work, pin);
    case SubmitNew(who, pin) =>
      NewFiberSeparate(s);
      EnqueueSeparate(s.(fibers := s.fibers + [Fiber(INIT, Nowhere, Nobody)]), RunFiber(|s.fibers|), pin);
    case AddTimer(who, timer) => SameFibers(s, Apply(s, a));
    case CancelTimer(who, i) => SameFibers(s, Apply(s, a));
    case AwaitFiber(w) => AwaitSeparate(s, w);
    case AwaitCallback(who, cb) => AwaitCallbackSeparate(s, cb);
    case DelEvent(who, i) => ForgetSeparate(s, i);
    case CancelEvent(who, i) => FireSeparate(s, i);
    case Stop => SameFibers(s, Apply(s, a));
  }

  // ---- quiescence -------------------------------------------------------------------------------

  // A worker with work in its hand that IOManager::stopping does not see: a fiber that came back
  // READY is no longer counted and not yet queued, and expired callbacks have left the timer set
  // but are not yet queued.
  predicate Unseen(p: Phase) { p.Returning? || (p.Collected? && |p.cbs| > 0) }

  ghost predicate NothingUnseen(s: State) {
    forall w: nat :: w < |s.workers| ==> !Unseen(s.workers[w].phase)
  }

  ghost predicate Inv(s: State) { Counted(s) && Conserved(s) && Separate(s) }

  lemma InvKept(s: State, a: Action)
    requires Inv(s) && Enabled(s, a) && Proper(s, a)
    ensures Inv(Apply(s, a)) && AssertsHold(s, a)
  {
    hide Counted, Conserved, Separate, Apply, Enabled, Proper;
    CountedKept(s, a);
    ConservedKept(s, a);
    SeparateKept(s, a);
    AssertionsHold(s, a);
  }

  // At a moment at which the stopping test holds nothing runs ...
  lemma StoppingMeansIdle(s: State, w: nat)
    requires Inv(s) && s.Stopping() && w < |s.workers|
    ensures !s.workers[w].phase.Took? && !s.workers[w].phase.Running?
  {
    CountAtLeast(s.workers, w);
  }

  // ... and no step but a call from outside can bring work, if nothing is in an unseen place;
  lemma QuietStep(s: State, a: Action)
    requires Inv(s) && s.Stopping() && NothingUnseen(s)
    requires Enabled(s, a) && !Outside(a)
    ensures Apply(s, a).Stopping() && NothingUnseen(Apply(s, a))
    ensures Apply(s, a).accepted == s.accepted
  {
    if a.Submit? || a.SubmitNew? || a.AddTimer? || a.CancelTimer? || a.AwaitCallback? || a.DelEvent? || a.CancelEvent? {
      StoppingMeansIdle(s, a.who.value);
    } else {
      StoppingMeansIdle(s, a.w);
      assert !Unseen(s.workers[a.w].phase);
      var t := Apply(s, a);
      if a.Deliver? {
        EnqueueAllKeeps(SetPhase(s, a.w, Dispatching), s.workers[a.w].phase.cbs);
      }
      assert t.workers == s.workers[a.w := t.workers[a.w]];
    }
  }

  lemma QuietProper(s: State, a: Action)
    requires Inv(s) && s.Stopping() && Enabled(s, a) && !Outside(a)
    ensures Proper(s, a)
  {
    if a.Submit? && a.work.RunFiber? {
      StoppingMeansIdle(s, a.who.value);
    } else if a.AwaitFiber? || a.End? {
      StoppingMeansIdle(s, a.w);
    }
  }

  // but if something is, the worker that has it brings it at its next step.
  lemma UnseenStep(s: State, w: nat)
    requires Inv(s) && s.Stopping() && w < |s.workers| && Unseen(s.workers[w].phase)
    ensures exists a :: Enabled(s, a) && !Outside(a) && !Apply(s, a).Stopping()
  {
    if s.workers[w].phase.Returning? {
      var a := ScheduleAgain(w);
      assert Enabled(s, a) && !Outside(a) && !Apply(s, a).Stopping();
    } else {
      var a := Deliver(w);
      EnqueueAllKeeps(SetPhase(s, w, Dispatching), s.workers[w].phase.cbs);
      assert Enabled(s, a) && !Outside(a) && !Apply(s, a).Stopping();
    }
  }

  // The stopping test is stable exactly when no worker has work in an unseen place.
  lemma StoppingStable(s: State)
    requires Inv(s) && s.Stopping()
    ensures (forall a :: Enabled(s, a) && !Outside(a) ==> Apply(s, a).Stopping()) <==> NothingUnseen(s)
  {
    hide Inv, Apply, Enabled, Outside;
    if NothingUnseen(s) {
      forall a | Enabled(s, a) && !Outside(a) ensures Apply(s, a).Stopping() { QuietStep(s, a); }
    } else {
      var w: nat :| w < |s.workers| && Unseen(s.workers[w].phase);
      UnseenStep(s, w);
    }
  }

  // ---- whole runs -------------------------------------------------------------------------------

  // n workers at the head of their loops; start() has cleared the stopping flag.
  function Init(n: nat): State {
    State(seq(n, i => Worker(Head, None, false)), [], [], 0, 0, [], [], false, false, 0, [], [])
  }

  ghost predicate RunOf(s: State, actions: seq<Action>, t: State)
    decreases |actions|
  {
    if |actions| == 0 then t == s
    else Enabled(s, actions[0]) && RunOf(Apply(s, actions[0]), actions[1..], t)
  }

  lemma InitInv(n: nat)
    ensures Inv(Init(n))
  {
    InitCounts(n);
    forall t: nat ensures Places(Init(n), t) == 0 { InitHands(n, t); }
  }

  lemma {:induction false} InitCounts(n: nat)
    ensures Counted(Init(n))
  {
    if n > 0 {
      InitCounts(n - 1);
      assert Init(n).workers[1..] == Init(n - 1).workers;
    }
  }

  lemma {:induction false} InitHands(n: nat, t: nat)
    ensures InHands(Init(n).workers, t) == 0
  {
    if n > 0 {
      InitHands(n - 1, t);
      assert Init(n).workers[1..] == Init(n - 1).workers;
    }
  }

  // No step of a run runs into a failing assertion.
  ghost predicate AssertsAlong(s: State, actions: seq<Action>)
    decreases |actions|
  {
    |actions| > 0 ==>
      && (Enabled(s, actions[0]) ==> AssertsHold(s, actions[0]) && AssertsAlong(Apply(s, actions[0]), actions[1..]))
  }

  // Every step of a run keeps to the rule for clients.
  ghost predicate ProperRun(s: State, actions: seq<Action>)
    decreases |actions|
  {
    |actions| > 0 ==>
      && (Enabled(s, actions[0]) ==> Proper(s, actions[0]) && ProperRun(Apply(s, actions[0]), actions[1..]))
  }

  lemma {:induction false} RunKeeps(s: State, actions: seq<Action>, t: State)
    requires Inv(s) && RunOf(s, actions, t) && ProperRun(s, actions)
    ensures Inv(t) && AssertsAlong(s, actions)
    decreases |actions|
  {
    hide Inv, Apply, Enabled, Proper;
    if |actions| > 0 {
      InvKept(s, actions[0]);
      RunKeeps(Apply(s, actions[0]), actions[1..], t);
    }
  }

  // After every proper run from the start the counters are right, every accepted task is in exactly
  // one place, no fiber is on two workers; and along the run no assertion failed.
  lemma RunInv(n: nat, actions: seq<Action>, t: State)
    requires RunOf(Init(n), actions, t) && ProperRun(Init(n), actions)
    ensures Inv(t) && AssertsAlong(Init(n), actions)
  {
    InitInv(n);
    RunKeeps(Init(n), actions, t);
  }

  // The counters and the places of tasks are right whatever the clients do.
  lemma {:induction false} LedgerKept(s: State, actions: seq<Action>, t: State)
    requires Counted(s) && Conserved(s) && RunOf(s, actions, t)
    ensures Counted(t) && Conserved(t)
    decreases |actions|
  {
    hide Counted, Conserved, Apply, Enabled;
    if |actions| > 0 {
      CountedKept(s, actions[0]);
      ConservedKept(s, actions[0]);
      LedgerKept(Apply(s, actions[0]), actions[1..], t);
    }
  }

  // Once quiet, quiet until called from outside: nothing is accepted in any number of steps.
  lemma {:induction false} QuietRun(s: State, actions: seq<Action>, t: State)
    requires Inv(s) && s.Stopping() && NothingUnseen(s) && RunOf(s, actions, t)
    requires forall a :: a in actions ==> !Outside(a)
    ensures t.Stopping() && NothingUnseen(t) && t.accepted == s.accepted
    decreases |actions|
  {
    hide Inv, Apply, Enabled, Proper, Outside, NothingUnseen;
    if |actions| > 0 {
      QuietProper(s, actions[0]);
      InvKept(s, actions[0]);
      QuietStep(s, actions[0]);
      QuietRun(Apply(s, actions[0]), actions[1..], t);
    }
  }

  // A fiber scheduled from outside, running.
  const ONE_RUNNING := State(
    [Worker(Running(0, 0, false), None, false), Worker(Head, None, false)], [], [Fiber(EXEC, Nowhere, Runs(0))],
    1, 0, [], [], false, false, 1, [], [])

  lemma TakenAlone(s: State) returns (t: State)
    requires s == State([Worker(Head, None, false), Worker(Head, None, false)], [Task(RunFiber(0), Anywhere, 0)],
                        [Fiber(INIT, InQueue, Nobody)], 0, 0, [], [], false, false, 1, [], [])
    ensures Enabled(s, Dequeue(0)) && t == Apply(s, Dequeue(0))
    ensures Enabled(t, SwapIn(0)) && Apply(t, SwapIn(0)) == ONE_RUNNING
  {
    t := Apply(s, Dequeue(0));
    assert t.workers == [Worker(Took(Task(RunFiber(0), Anywhere, 0)), None, false), Worker(Head, None, false)];
    assert t.queue == [] && t.fibers == [Fiber(INIT, Taken(0), Nobody)];
  }

  lemma RunningAlone() returns (start: seq<Action>)
    ensures RunOf(Init(2), start, ONE_RUNNING)
  {
    var s1 := Apply(Init(2), SubmitNew(None, Anywhere));
    assert s1.queue == [Task(RunFiber(0), Anywhere, 0)] && s1.fibers == [Fiber(INIT, InQueue, Nobody)];
    assert s1.workers == [Worker(Head, None, false), Worker(Head, None, false)];
    var s2 := TakenAlone(s1);
    hide Apply, Enabled, Init;
    start := RunBefore(s2, SwapIn(0), [], ONE_RUNNING);
    start := RunBefore(s1, Dequeue(0), start, ONE_RUNNING);
    start := RunBefore(Init(2), SubmitNew(None, Anywhere), start, ONE_RUNNING);
  }

  // Both unseen places are reachable with the stopping test true: a fiber that yields READY after
  // stop() ...
  lemma ReturningWindow()
    ensures exists actions, t :: RunOf(Init(2), actions, t) && t.Stopping() && !NothingUnseen(t)
  {
    var start := RunningAlone();
    var s4 := Apply(ONE_RUNNING, Stop);
    var s5 := Apply(s4, End(0, ToReady));
    assert Unseen(s5.workers[0].phase) && s5.Stopping();
    hide Apply, Enabled, Init;
    var run := RunBefore(s4, End(0, ToReady), [], s5);
    run := RunBefore(ONE_RUNNING, Stop, run, s5);
    RunJoin(Init(2), start, ONE_RUNNING, run, s5);
  }

  // ... and the last timer's callback between the timer set and the queue.
  lemma CollectedWindow()
    ensures exists actions, t :: RunOf(Init(2), actions, t) && t.Stopping() && !NothingUnseen(t)
  {
    var timer := AddTimer(None, Timer(7, false));
    var s1 := Apply(Init(2), timer);
    var s2 := Apply(s1, Stop);
    var s3 := Apply(s2, Dequeue(0));
    var s4 := Apply(s3, StopTest(0));
    var s5 := Apply(s4, Collect(0, 1));
    assert s4.timers[..1] == [Timer(7, false)] && s4.timers[1..] == [];
    assert Recurring([Timer(7, false)]) == [];
    hide Apply, Enabled, Init;
    var run := [Collect(0, 1)];
    assert RunOf(s4, run, s5);
    run := RunBefore(s3, StopTest(0), run, s5);
    run := RunBefore(s2, Dequeue(0), run, s5);
    run := RunBefore(s1, Stop, run, s5);
    run := RunBefore(Init(2), timer, run, s5);
    assert Unseen(s5.workers[0].phase);
  }

  lemma RunBefore(s: State, a: Action, rest: seq<Action>, t: State) returns (run: seq<Action>)
    requires Enabled(s, a) && RunOf(Apply(s, a), rest, t)
    ensures RunOf(s, run, t)
  {
    run := [a] + rest;
    assert run[1..] == rest;
  }

  lemma {:induction false} RunJoin(s: State, first: seq<Action>, t: State, second: seq<Action>, u: State)
    requires RunOf(s, first, t) && RunOf(t, second, u)
    ensures RunOf(s, first + second, u)
    decreases |first|
  {
    hide Apply, Enabled;
    if |first| == 0 {
      assert first + second == second;
    } else {
      RunJoin(Apply(s, first[0]), first[1..], t, second, u);
      assert (first + second)[1..] == first[1..] + second;
    }
  }

  // ---- single steps -----------------------------------------------------------------------------

  // At the head of the loop cb_fiber is null or an INIT fiber nothing else refers to.
  lemma SpareAtHead(s: State, w: nat)
    requires Separate(s) && w < |s.workers| && s.workers[w].phase.Head? && s.workers[w].cbFiber.Some?
    ensures var f := s.workers[w].cbFiber.value;
            f < |s.fibers| && s.fibers[f] == Fiber(INIT, Nowhere, Spare(w))
  {
    assert WorkerOk(s, w) && FiberOk(s, s.workers[w].cbFiber.value);
  }

  // A callback that yields keeps its fiber, parked or READY, and the next callback gets a new one;
  // a callback that ends leaves its fiber, reset, to the next.
  lemma CallbackFiber(s: State, w: nat, how: Ending)
    requires Separate(s) && Enabled(s, End(w, how)) && s.workers[w].phase.called
    ensures var t, f := Apply(s, End(w, how)), s.workers[w].phase.fid;
            && f < |s.fibers| == |t.fibers|
            && CallFiber(t, w) == (if how.ToTerm? then f else |t.fibers|)
            && t.fibers[f].state == match how case ToReady => READY case ToHold => HOLD case ToTerm => INIT
  {
    assert WorkerOk(s, w);
  }

  // A fiber that no callback is running in and that is not kept for one.
  ghost predicate OutOfUse(s: State, f: nat) {
    f < |s.fibers| && forall w: nat :: w < |s.workers| ==> Unused(s.workers[w], f)
  }

  lemma OutOfUseKept(s: State, a: Action, f: nat)
    requires Enabled(s, a) && OutOfUse(s, f)
    ensures OutOfUse(Apply(s, a), f)
  {
    hide FirstEligible, EnqueueAll, Recurring, Callbacks, OutOfUse, DequeueStep, SwapInStep, EndStep;
    match a
    case Dequeue(w) => DequeueUnused(s, w, f);
    case SwapIn(w) => SwapInUnused(s, w, f);
    case End(w, how) => EndUnused(s, w, how, f);
    case ScheduleAgain(w) => OneMoved(s, Apply(s, a), w, f);
    case StopTest(w) => OneMoved(s, Apply(s, a), w, f);
    case Collect(w, _) => OneMoved(s, Apply(s, a), w, f);
    case Deliver(w) =>
      EnqueueAllKeeps(SetPhase(s, w, Dispatching), s.workers[w].phase.cbs);
      OneMoved(s, Apply(s, a), w, f);
    case IdleTurnEnds(w) => OneMoved(s, Apply(s, a), w, f);
    case _ => NoneMoved(s, Apply(s, a), f);
  }

  lemma DequeueUnused(s: State, w: nat, f: nat)
    requires Enabled(s, Dequeue(w)) && OutOfUse(s, f)
    ensures OutOfUse(DequeueStep(s, w), f)
  {
    hide FirstEligible, OutOfUse;
    OneMoved(s, DequeueStep(s, w), w, f);
  }

  lemma SwapInUnused(s: State, w: nat, f: nat)
    requires Enabled(s, SwapIn(w)) && OutOfUse(s, f)
    ensures OutOfUse(SwapInStep(s, w), f)
  {
    assert f < |s.fibers|;
    hide OutOfUse;
    OneMoved(s, SwapInStep(s, w), w, f);
  }

  lemma EndUnused(s: State, w: nat, how: Ending, f: nat)
    requires Enabled(s, End(w, how)) && OutOfUse(s, f)
    ensures OutOfUse(EndStep(s, w, how), f)
  {
    hide OutOfUse;
    OneMoved(s, EndStep(s, w, how), w, f);
  }

  ghost predicate Unused(x: Worker, f: nat) {
    x.cbFiber != Some(f) && !(x.phase.Running? && x.phase.called && x.phase.fid == f)
  }

  lemma OneMoved(s: State, t: State, w: nat, f: nat)
    requires OutOfUse(s, f) && w < |s.workers| == |t.workers| && t.workers == s.workers[w := t.workers[w]]
    requires |s.fibers| <= |t.fibers|
    requires f < |s.fibers| && Unused(s.workers[w], f) ==> Unused(t.workers[w], f)
    ensures OutOfUse(t, f)
  {
  }

  lemma NoneMoved(s: State, t: State, f: nat)
    requires OutOfUse(s, f) && t.workers == s.workers && |s.fibers| <= |t.fibers|
    ensures OutOfUse(t, f)
  {
  }

  // Once a callback has yielded, its fiber is its own: the worker's next callback gets a new one, and in
  // no run afterwards, whatever the clients do, is it given to another callback.
  lemma {:induction false} CallbackKeepsFiber(s: State, w: nat, how: Ending, actions: seq<Action>, t: State)
    requires Separate(s) && Enabled(s, End(w, how)) && s.workers[w].phase.called && !how.ToTerm?
    requires RunOf(Apply(s, End(w, how)), actions, t)
    ensures var f := s.workers[w].phase.fid;
            && OutOfUse(t, f)
            && CallFiber(Apply(s, End(w, how)), w) == |s.fibers|
            && forall v: nat :: v < |t.workers| ==> CallFiber(t, v) != f
  {
    CallbackFiber(s, w, how);
    YieldFrees(s, w, how);
    hide Apply, Enabled;
    OutOfUseRun(Apply(s, End(w, how)), actions, t, s.workers[w].phase.fid);
  }

  lemma YieldFrees(s: State, w: nat, how: Ending)
    requires Separate(s) && Enabled(s, End(w, how)) && s.workers[w].phase.called && !how.ToTerm?
    ensures OutOfUse(EndStep(s, w, how), s.workers[w].phase.fid)
  {
    var t, f := EndStep(s, w, how), s.workers[w].phase.fid;
    assert WorkerOk(s, w);
    forall v: nat | v < |t.workers| ensures Unused(t.workers[v], f) { assert WorkerOk(s, v); }
  }

  lemma {:induction false} OutOfUseRun(s: State, actions: seq<Action>, t: State, f: nat)
    requires OutOfUse(s, f) && RunOf(s, actions, t)
    ensures OutOfUse(t, f)
    decreases |actions|
  {
    hide Apply, Enabled, OutOfUse;
    if |actions| > 0 {
      OutOfUseKept(s, actions[0], f);
      OutOfUseRun(Apply(s, actions[0]), actions[1..], t, f);
    }
  }

  // The last worker to leave leaves no task that any thread may run.
  lemma LastExit(s: State, w: nat)
    requires Separate(s) && Enabled(s, Dequeue(w)) && Apply(s, Dequeue(w)).workers[w].phase.Exited?
    requires forall v :: 0 <= v < |s.workers| && v != w ==> s.workers[v].phase.Exited?
    ensures forall i :: 0 <= i < |s.queue| ==> s.queue[i].pin.Only? && s.queue[i].pin.thread != w
  {
    forall i | 0 <= i < |s.queue| ensures s.queue[i].pin.Only? && s.queue[i].pin.thread != w {
      assert !Eligible(s.queue[i], s.fibers, w);
      var work := s.queue[i].work;
      if work.RunFiber? && s.fibers[work.fid].state == EXEC { ExecutingHasWorker(s, work.fid); }
    }
  }
}
