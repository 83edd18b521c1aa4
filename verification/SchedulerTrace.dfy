/** The bookkeeping of references in the scheduler protocol is exact: what it names is there. */
module SchedulerTrace {
  import opened Options
  import opened Schedulers
  import opened SchedulerProofs

  ghost predicate QueuedFiber(q: seq<Task>, f: nat) { exists i :: 0 <= i < |q| && q[i].work == RunFiber(f) }

  // A fiber is where its reference says, and with the worker that its holder says.
  ghost predicate Found(s: State, f: nat, ref: Ref) {
    match ref
    case Nowhere => true
    case InQueue => QueuedFiber(s.queue, f)
    case AtEvent => RunFiber(f) in s.waiters
    case Taken(w) => w < |s.workers| && s.workers[w].phase.Took? && s.workers[w].phase.task.work == RunFiber(f)
  }

  ghost predicate Held(s: State, f: nat, holder: Holder) {
    match holder
    case Nobody => true
    case Runs(w) => true
    case Spare(w) => w < |s.workers| && s.workers[w].cbFiber == Some(f)
    case Leaves(w) => w < |s.workers| && s.workers[w].phase.Returning? && s.workers[w].phase.fid == f
  }

  ghost predicate Traced(s: State) {
    forall f: nat :: f < |s.fibers| ==> Found(s, f, s.fibers[f].ref) && Held(s, f, s.fibers[f].holder)
  }

  lemma QueueGrows(q: seq<Task>, more: seq<Task>, f: nat)
    requires QueuedFiber(q, f)
    ensures QueuedFiber(q + more, f)
  {
    var i :| 0 <= i < |q| && q[i].work == RunFiber(f);
    assert (q + more)[i].work == RunFiber(f);
  }

  lemma LastQueued(q: seq<Task>, task: Task, f: nat)
    requires task.work == RunFiber(f)
    ensures QueuedFiber(q + [task], f)
  {
    assert (q + [task])[|q|].work == RunFiber(f);
  }

  lemma QueueShrinks(q: seq<Task>, k: nat, f: nat)
    requires QueuedFiber(q, f) && k < |q| && q[k].work != RunFiber(f)
    ensures QueuedFiber(Remove(q, k), f)
  {
    var i :| 0 <= i < |q| && q[i].work == RunFiber(f);
    assert Remove(q, k)[if i < k then i else i - 1] == q[i];
  }

  lemma WaitersShrink(ws: seq<Work>, k: nat, f: nat)
    requires RunFiber(f) in ws && k < |ws| && ws[k] != RunFiber(f)
    ensures RunFiber(f) in Remove(ws, k)
  {
    var i :| 0 <= i < |ws| && ws[i] == RunFiber(f);
    assert Remove(ws, k)[if i < k then i else i - 1] == ws[i];
  }

  lemma DequeueTraced(s: State, w: nat)
    requires Separate(s) && Traced(s) && Enabled(s, Dequeue(w))
    ensures Traced(DequeueStep(s, w))
  {
    hide FirstEligible, Separate;
    var k, t := FirstEligible(s.queue, s.fibers, w), DequeueStep(s, w);
    forall f: nat | f < |t.fibers| ensures Found(t, f, t.fibers[f].ref) && Held(t, f, t.fibers[f].holder) {
      assert Found(s, f, s.fibers[f].ref) && Held(s, f, s.fibers[f].holder);
      if k < |s.queue| && s.queue[k].work != RunFiber(f) && QueuedFiber(s.queue, f) { QueueShrinks(s.queue, k, f); }
    }
  }

  lemma SwapInTraced(s: State, w: nat)
    requires Separate(s) && Traced(s) && Enabled(s, SwapIn(w))
    ensures Traced(SwapInStep(s, w))
  {
    var t := SwapInStep(s, w);
    assert WorkerOk(s, w);
    hide Separate, WorkerOk;
    forall f: nat | f < |t.fibers| ensures Found(t, f, t.fibers[f].ref) && Held(t, f, t.fibers[f].holder) {
      if f < |s.fibers| { assert Found(s, f, s.fibers[f].ref) && Held(s, f, s.fibers[f].holder); }
    }
  }

  lemma EndTraced(s: State, w: nat, how: Ending)
    requires Separate(s) && Traced(s) && Enabled(s, End(w, how))
    ensures Traced(EndStep(s, w, how))
  {
    var t, f0 := EndStep(s, w, how), s.workers[w].phase.fid;
    assert WorkerOk(s, w) && FiberOk(s, f0);
    hide Separate, WorkerOk, FiberOk;
    forall f: nat | f < |t.fibers| ensures Found(t, f, t.fibers[f].ref) && Held(t, f, t.fibers[f].holder) {
      assert Found(s, f, s.fibers[f].ref) && Held(s, f, s.fibers[f].holder);
    }
  }

  lemma ScheduleAgainTraced(s: State, w: nat)
    requires Separate(s) && Traced(s) && Enabled(s, ScheduleAgain(w))
    ensures Traced(ScheduleAgainStep(s, w))
  {
    var t, f0 := ScheduleAgainStep(s, w), s.workers[w].phase.fid;
    assert WorkerOk(s, w);
    hide Separate, WorkerOk;
    LastQueued(s.queue, t.queue[|s.queue|], f0);
    forall f: nat | f < |t.fibers| ensures Found(t, f, t.fibers[f].ref) && Held(t, f, t.fibers[f].holder) {
      assert Found(s, f, s.fibers[f].ref) && Held(s, f, s.fibers[f].holder);
      if QueuedFiber(s.queue, f) { QueueGrows(s.queue, t.queue[|s.queue|..], f); }
    }
  }

  // A worker that has no fiber in hand moves, and the queue may grow.
  lemma PhaseTraced(s: State, t: State, w: nat)
    requires Traced(s) && w < |s.workers| == |t.workers| && t.workers == s.workers[w := t.workers[w]]
    requires !s.workers[w].phase.Took? && !s.workers[w].phase.Running? && !s.workers[w].phase.Returning?
    requires t.workers[w].cbFiber == s.workers[w].cbFiber && t.fibers == s.fibers
    requires s.queue <= t.queue && t.waiters == s.waiters
    ensures Traced(t)
  {
    forall f: nat | f < |t.fibers| ensures Found(t, f, t.fibers[f].ref) && Held(t, f, t.fibers[f].holder) {
      assert Found(s, f, s.fibers[f].ref) && Held(s, f, s.fibers[f].holder);
      if QueuedFiber(s.queue, f) {
        QueueGrows(s.queue, t.queue[|s.queue|..], f);
        assert t.queue == s.queue + t.queue[|s.queue|..];
      }
    }
  }

  lemma {:induction false} EnqueueAllGrows(s: State, cbs: seq<nat>)
    ensures s.queue <= EnqueueAll(s, cbs).queue
    decreases |cbs|
  {
    if |cbs| > 0 { EnqueueAllGrows(Enqueue(s, RunCallback(cbs[0]), Anywhere), cbs[1..]); }
  }

  lemma EnqueueTraced(s: State, work: Work, pin: Pin)
    requires Traced(s)
    ensures Traced(Enqueue(s, work, pin))
  {
    var t := Enqueue(s, work, pin);
    forall f: nat | f < |t.fibers| ensures Found(t, f, t.fibers[f].ref) && Held(t, f, t.fibers[f].holder) {
      assert Found(s, f, s.fibers[f].ref) && Held(s, f, s.fibers[f].holder);
      if work == RunFiber(f) { LastQueued(s.queue, Task(work, pin, s.accepted), f); }
      if QueuedFiber(s.queue, f) { QueueGrows(s.queue, [Task(work, pin, s.accepted)], f); }
    }
  }

  lemma ForgetTraced(s: State, i: nat)
    requires Traced(s) && i < |s.waiters|
    ensures Traced(ForgetStep(s, i))
  {
    var t := ForgetStep(s, i);
    forall f: nat | f < |t.fibers| ensures Found(t, f, t.fibers[f].ref) && Held(t, f, t.fibers[f].holder) {
      assert Found(s, f, s.fibers[f].ref) && Held(s, f, s.fibers[f].holder);
      if s.waiters[i] != RunFiber(f) && RunFiber(f) in s.waiters { WaitersShrink(s.waiters, i, f); }
    }
  }

  lemma FireTraced(s: State, i: nat)
    requires Traced(s) && i < |s.waiters|
    ensures Traced(FireStep(s, i))
  {
    ForgetTraced(s, i);
    EnqueueTraced(ForgetStep(s, i), s.waiters[i], Anywhere);
    var f := s.waiters[i];
    if f.RunFiber? && f.fid < |s.fibers| {
      assert ForgetStep(s, i).fibers[f.fid := s.fibers[f.fid].(ref := InQueue)]
          == s.fibers[f.fid := s.fibers[f.fid].(ref := InQueue)];
    }
  }

  // Nothing about names depends on timers, flags, counters or tokens; new fibers have none.
  lemma SameTraced(s: State, t: State)
    requires Traced(s) && t.workers == s.workers && t.queue == s.queue && s.waiters <= t.waiters
    requires |s.fibers| <= |t.fibers|
    requires forall f :: 0 <= f < |t.fibers| ==>
               if f < |s.fibers| then t.fibers[f] == s.fibers[f] || t.fibers[f] == s.fibers[f].(ref := AtEvent)
               else t.fibers[f] == Fiber(INIT, Nowhere, Nobody)
    requires forall f :: 0 <= f < |s.fibers| && t.fibers[f] != s.fibers[f] ==> RunFiber(f) in t.waiters
    ensures Traced(t)
  {
    forall f: nat | f < |t.fibers| ensures Found(t, f, t.fibers[f].ref) && Held(t, f, t.fibers[f].holder) {
      if f < |s.fibers| { assert Found(s, f, s.fibers[f].ref) && Held(s, f, s.fibers[f].holder); }
    }
  }

  lemma TracedKept(s: State, a: Action)
    requires Separate(s) && Traced(s) && Enabled(s, a)
    ensures Traced(Apply(s, a))
  {
    hide Traced, Separate, FirstEligible, EnqueueAll, Recurring, Callbacks;
    hide DequeueStep, SwapInStep, EndStep, ScheduleAgainStep, FireStep, ForgetStep, Enqueue;
    match a
    case Dequeue(w) => DequeueTraced(s, w);
    case SwapIn(w) => SwapInTraced(s, w);
    case End(w, how) => EndTraced(s, w, how);
    case ScheduleAgain(w) => ScheduleAgainTraced(s, w);
    case StopTest(w) => PhaseTraced(s, Apply(s, a), w);
    case Collect(w, k) => PhaseTraced(s, Apply(s, a), w);
    case Deliver(w) =>
      EnqueueAllKeeps(SetPhase(s, w, Dispatching), s.workers[w].phase.cbs);
      EnqueueAllGrows(SetPhase(s, w, Dispatching), s.workers[w].phase.cbs);
      PhaseTraced(s, Apply(s, a), w);
    case Fire(w, i) => FireTraced(s, i);
    case IdleTurnEnds(w) => PhaseTraced(s, Apply(s, a), w);
    case Submit(who, work, pin) => EnqueueTraced(s, work, pin);
    case SubmitNew(who, pin) =>
      var more := s.(fibers := s.fibers + [Fiber(INIT, Nowhere, Nobody)]);
      SameTraced(s, more);
      EnqueueTraced(more, RunFiber(|s.fibers|), pin);
    case AddTimer(who, timer) => SameTraced(s, Apply(s, a));
    case CancelTimer(who, i) => SameTraced(s, Apply(s, a));
    case AwaitFiber(w) =>
      var t, f := Apply(s, a), s.workers[w].phase.fid;
      assert t.waiters[|s.waiters|] == RunFiber(f);
      SameTraced(s, t);
    case AwaitCallback(who, cb) => SameTraced(s, Apply(s, a));
    case DelEvent(who, i) => ForgetTraced(s, i);
    case CancelEvent(who, i) => FireTraced(s, i);
    case Stop => SameTraced(s, Apply(s, a));
  }

  lemma InvSeparate(s: State)
    requires Inv(s)
    ensures Separate(s)
  {
  }
}
