/** The rule for clients of the scheduler is exact: whoever breaks it can be driven into an assertion of
    the code by steps that keep it, those of the workers and callbacks from outside; whoever keeps it
    cannot. */
module SchedulerMisuse {
  import opened Options
  import opened Schedulers
  import opened SchedulerProofs
  import opened SchedulerTrace

  // Steps that keep the rule in every state: those of workers, with segments that end by parking,
  // and scheduling a callback, also from outside.
  predicate Plain(a: Action) {
    match a
    case Dequeue(_) => true
    case SwapIn(_) => true
    case End(_, how) => how.ToHold?
    case ScheduleAgain(_) => true
    case StopTest(_) => true
    case Collect(_, _) => true
    case Deliver(_) => true
    case Fire(_, _) => true
    case IdleTurnEnds(_) => true
    case Submit(_, work, _) => work.RunCallback?
    case _ => false
  }

  predicate AllPlain(actions: seq<Action>) { forall a :: a in actions ==> Plain(a) }

  // Plain steps can run into a failing assertion.
  ghost predicate CanFail(s: State) {
    exists rest, t :: RunOf(s, rest, t) && AllPlain(rest) && !AssertsAlong(s, rest)
  }

  lemma FailsNow(s: State, w: nat)
    requires Enabled(s, SwapIn(w)) && !AssertsHold(s, SwapIn(w))
    ensures CanFail(s)
  {
    hide Apply, Enabled, AssertsHold;
    var rest := [SwapIn(w)];
    assert rest[1..] == [];
    assert RunOf(s, rest, Apply(s, SwapIn(w))) && AllPlain(rest) && !AssertsAlong(s, rest);
  }

  lemma FailsAfter(s: State, a: Action)
    requires Enabled(s, a) && Plain(a) && CanFail(Apply(s, a))
    ensures CanFail(s)
  {
    hide Apply, Enabled, AssertsHold;
    var rest, t :| RunOf(Apply(s, a), rest, t) && AllPlain(rest) && !AssertsAlong(Apply(s, a), rest);
    var run := [a] + rest;
    assert run[1..] == rest && run[0] == a;
    assert RunOf(s, run, t) && AllPlain(run) && !AssertsAlong(s, run);
  }

  // ---- driving one worker -------------------------------------------------------------------------

  function Of(q: seq<Task>, f: nat): nat {
    if |q| == 0 then 0 else (if q[0].work == RunFiber(f) then 1 else 0) + Of(q[1..], f)
  }

  lemma {:induction false} OfAppend(q: seq<Task>, task: Task, f: nat)
    ensures Of(q + [task], f) == Of(q, f) + if task.work == RunFiber(f) then 1 else 0
  {
    if |q| > 0 {
      assert (q + [task])[1..] == q[1..] + [task];
      OfAppend(q[1..], task, f);
    }
  }

  lemma {:induction false} OfRemove(q: seq<Task>, k: nat, f: nat)
    requires k < |q|
    ensures Of(Remove(q, k), f) + (if q[k].work == RunFiber(f) then 1 else 0) == Of(q, f)
  {
    if k > 0 {
      assert Remove(q, k)[1..] == Remove(q[1..], k - 1) && Remove(q, k)[0] == q[0];
      OfRemove(q[1..], k - 1, f);
    } else {
      assert Remove(q, 0) == q[1..];
    }
  }

  lemma {:induction false} OfSome(q: seq<Task>, f: nat) returns (i: nat)
    requires Of(q, f) > 0
    ensures i < |q| && q[i].work == RunFiber(f)
  {
    if q[0].work == RunFiber(f) {
      i := 0;
    } else {
      i := OfSome(q[1..], f);
      i := i + 1;
    }
  }

  lemma {:induction false} SomeOf(q: seq<Task>, f: nat, i: nat)
    requires i < |q| && q[i].work == RunFiber(f)
    ensures Of(q, f) > 0
  {
    if i > 0 { SomeOf(q[1..], f, i - 1); }
  }

  // The tasks of a fiber are pinned to nothing but what is in `ok`.
  predicate Within(q: seq<Task>, f: nat, ok: set<Pin>) {
    forall i :: 0 <= i < |q| && q[i].work == RunFiber(f) ==> q[i].pin in ok
  }

  predicate Unpinned(q: seq<Task>, f: nat) { Within(q, f, {Anywhere}) }

  // A worker may take any task of the fiber.
  predicate Admits(q: seq<Task>, f: nat, w: nat) { Within(q, f, {Anywhere, Only(w)}) }

  predicate Live(w: Worker) { !w.phase.Exited? && !w.idleOver }

  // No worker runs f.
  ghost predicate Calm(s: State, f: nat) {
    && f < |s.fibers| && s.fibers[f].state != EXEC
    && (forall w: nat :: w < |s.workers| ==> Still(s.workers[w], f))
  }

  predicate Still(w: Worker, f: nat) {
    !(w.phase.Running? && w.phase.fid == f) && !(w.phase.Returning? && w.phase.fid == f)
  }

  // Two workers that are not leaving.
  ghost predicate TwoLive(s: State) {
    exists v: nat, w: nat :: v < |s.workers| && w < |s.workers| && v != w && Live(s.workers[v]) && Live(s.workers[w])
  }

  predicate InHand(p: Phase, f: nat) { p.Took? && p.task.work == RunFiber(f) }

  // The next step of a worker whose segments park at once.
  function Move(p: Phase, w: nat): Action {
    match p
    case Head => Dequeue(w)
    case Took(_) => SwapIn(w)
    case Running(_, _, _) => End(w, ToHold)
    case Returning(_, _) => ScheduleAgain(w)
    case Idle => StopTest(w)
    case Polling => Collect(w, 0)
    case Collected(_) => Deliver(w)
    case Dispatching => IdleTurnEnds(w)
    case Exited => Stop
  }

  // What a move of worker w leaves of fiber f, which it does not run.
  ghost predicate Aside(s: State, t: State, w: nat, f: nat) {
    && Calm(t, f) && |t.workers| == |s.workers| && w < |s.workers|
    && t.workers == s.workers[w := t.workers[w]] && t.waiters == s.waiters
    && |s.fibers| <= |t.fibers| && f < |s.fibers| && t.fibers[f].state == s.fibers[f].state
    && Of(t.queue, f) == Of(s.queue, f) - (if InHand(t.workers[w].phase, f) then 1 else 0)
    && (s.workers[w].cbFiber != Some(f) ==> t.workers[w].cbFiber != Some(f))
    && (KeepsSpare(s.workers[w], f) ==> KeepsSpare(t.workers[w], f))
    && Live(t.workers[w]) && PinsKept(s.queue, t.queue, f)
  }

  // The tasks of f in the one queue are pinned no more than those in the other.
  ghost predicate PinsKept(q: seq<Task>, r: seq<Task>, f: nat) {
    forall ok: set<Pin> :: Anywhere in ok && Within(q, f, ok) ==> Within(r, f, ok)
  }

  // f is kept for the next callback of the worker, which runs none.
  predicate KeepsSpare(w: Worker, f: nat) { w.cbFiber == Some(f) && !(w.phase.Running? && w.phase.called) }

  // The worker may move: it does not hold f, and would not run a callback in it.
  ghost predicate Moves(s: State, w: nat, f: nat) {
    && Calm(s, f) && w < |s.workers| && Live(s.workers[w]) && !InHand(s.workers[w].phase, f)
    && (s.workers[w].phase.Took? && s.workers[w].phase.task.work.RunCallback? ==> s.workers[w].cbFiber != Some(f))
    && (|s.queue| > 0 || |s.waiters| > 0)
  }

  lemma DequeueAside(s: State, w: nat, f: nat)
    requires Moves(s, w, f) && s.workers[w].phase.Head?
    ensures Aside(s, DequeueStep(s, w), w, f)
  {
    hide FirstEligible, Of, PinsKept;
    var k, t := FirstEligible(s.queue, s.fibers, w), DequeueStep(s, w);
    assert Still(s.workers[w], f);
    PinsSame(s.queue, f);
    if k < |s.queue| {
      OfRemove(s.queue, k, f);
      PinsRemove(s.queue, k, f);
    }
    assert Still(t.workers[w], f);
  }

  lemma PinsRemove(q: seq<Task>, k: nat, f: nat)
    requires k < |q|
    ensures PinsKept(q, Remove(q, k), f)
  {
    forall i | 0 <= i < |q| - 1 ensures Remove(q, k)[i] == q[if i < k then i else i + 1] {}
  }

  lemma PinsSame(q: seq<Task>, f: nat)
    ensures PinsKept(q, q, f)
  {
  }

  lemma PinsAppend(q: seq<Task>, task: Task, f: nat)
    requires task.pin.Anywhere?
    ensures PinsKept(q, q + [task], f)
  {
  }

  lemma PinsTwice(q: seq<Task>, r: seq<Task>, u: seq<Task>, f: nat)
    requires PinsKept(q, r, f) && PinsKept(r, u, f)
    ensures PinsKept(q, u, f)
  {
  }

  // So whoever may take them all may still do so.
  lemma PinsMean(q: seq<Task>, r: seq<Task>, f: nat, w: nat)
    requires PinsKept(q, r, f)
    ensures Unpinned(q, f) ==> Unpinned(r, f)
    ensures Admits(q, f, w) ==> Admits(r, f, w)
    ensures Unpinned(q, f) ==> Admits(q, f, w)
  {
  }

  lemma SwapInAside(s: State, w: nat, f: nat)
    requires Moves(s, w, f) && s.workers[w].phase.Took?
    ensures Aside(s, SwapInStep(s, w), w, f)
  {
    hide Of, PinsKept;
    PinsSame(s.queue, f);
    assert Still(s.workers[w], f);
    var t := SwapInStep(s, w);
    assert Still(t.workers[w], f);
  }

  lemma EndAside(s: State, w: nat, f: nat)
    requires Moves(s, w, f) && s.workers[w].phase.Running?
    ensures Aside(s, EndStep(s, w, ToHold), w, f)
  {
    hide Of, PinsKept;
    PinsSame(s.queue, f);
    assert Still(s.workers[w], f);
  }

  lemma AgainAside(s: State, w: nat, f: nat)
    requires Moves(s, w, f) && s.workers[w].phase.Returning?
    ensures Aside(s, ScheduleAgainStep(s, w), w, f)
  {
    hide Of, PinsKept;
    assert Still(s.workers[w], f);
    OfAppend(s.queue, ScheduleAgainStep(s, w).queue[|s.queue|], f);
    PinsAppend(s.queue, ScheduleAgainStep(s, w).queue[|s.queue|], f);
  }

  lemma {:induction false} EnqueueAllOf(s: State, cbs: seq<nat>, f: nat)
    ensures Of(EnqueueAll(s, cbs).queue, f) == Of(s.queue, f)
    ensures PinsKept(s.queue, EnqueueAll(s, cbs).queue, f)
    decreases |cbs|
  {
    hide Of;
    if |cbs| > 0 {
      var u := Enqueue(s, RunCallback(cbs[0]), Anywhere);
      OfAppend(s.queue, u.queue[|s.queue|], f);
      PinsAppend(s.queue, u.queue[|s.queue|], f);
      EnqueueAllOf(u, cbs[1..], f);
      hide PinsKept;
      PinsTwice(s.queue, u.queue, EnqueueAll(s, cbs).queue, f);
    }
  }

  lemma IdleAside(s: State, w: nat, f: nat)
    requires Moves(s, w, f)
    requires var p := s.workers[w].phase; p.Idle? || p.Polling? || p.Collected? || p.Dispatching?
    ensures Enabled(s, Move(s.workers[w].phase, w))
    ensures Aside(s, Apply(s, Move(s.workers[w].phase, w)), w, f)
  {
    hide Of, PinsKept, EnqueueAll, Recurring, Callbacks;
    assert Still(s.workers[w], f);
    PinsSame(s.queue, f);
    if s.workers[w].phase.Collected? {
      var t := SetPhase(s, w, Dispatching);
      EnqueueAllKeeps(t, s.workers[w].phase.cbs);
      EnqueueAllOf(t, s.workers[w].phase.cbs, f);
    }
  }

  lemma MoveAside(s: State, w: nat, f: nat)
    requires Moves(s, w, f)
    ensures var a := Move(s.workers[w].phase, w);
            Enabled(s, a) && Plain(a) && Aside(s, Apply(s, a), w, f)
  {
    assert Still(s.workers[w], f);
    hide Aside, DequeueStep, SwapInStep, EndStep, ScheduleAgainStep, EnqueueAll, Moves;
    match s.workers[w].phase
    case Head => DequeueAside(s, w, f);
    case Took(_) => SwapInAside(s, w, f);
    case Running(_, _, _) => EndAside(s, w, f);
    case Returning(_, _) => AgainAside(s, w, f);
    case _ => IdleAside(s, w, f);
  }

  // ---- until it has what is wanted ----------------------------------------------------------------

  ghost predicate HasCallback(q: seq<Task>) {
    exists i :: 0 <= i < |q| && q[i].work.RunCallback? && q[i].pin.Anywhere?
  }

  // Something for worker w is queued: fiber f or, for a worker that keeps f for it, a callback.
  ghost predicate Wanted(q: seq<Task>, f: nat, spare: bool) { Of(q, f) > 0 || (spare && HasCallback(q)) }

  predicate Goal(p: Phase, f: nat, spare: bool) {
    InHand(p, f) || (spare && p.Took? && p.task.work.RunCallback?)
  }

  // The steps to the head of the loop, then the queue, then the steps with a task in hand.
  function Stage(p: Phase): nat {
    match p
    case Idle => 5
    case Polling => 4
    case Collected(_) => 3
    case Dispatching => 2
    case Returning(_, _) => 1
    case _ => 0
  }

  function Rank(p: Phase): nat { if p.Took? then 2 else if p.Running? then 1 else 0 }

  lemma WantedShrinks(q: seq<Task>, k: nat, f: nat, spare: bool)
    requires Wanted(q, f, spare) && k < |q|
    requires q[k].work != RunFiber(f) && !(spare && q[k].work.RunCallback?)
    ensures Wanted(Remove(q, k), f, spare)
  {
    OfRemove(q, k, f);
    if Of(q, f) == 0 {
      var i :| 0 <= i < |q| && q[i].work.RunCallback? && q[i].pin.Anywhere?;
      assert Remove(q, k)[if i < k then i else i - 1] == q[i];
    }
  }

  lemma {:induction false} OfGrows(q: seq<Task>, more: seq<Task>, f: nat)
    ensures Of(q + more, f) >= Of(q, f)
  {
    if |q| > 0 {
      assert (q + more)[1..] == q[1..] + more;
      OfGrows(q[1..], more, f);
    }
  }

  lemma WantedGrows(q: seq<Task>, r: seq<Task>, f: nat, spare: bool)
    requires Wanted(q, f, spare) && q <= r
    ensures Wanted(r, f, spare)
  {
    OfGrows(q, r[|q|..], f);
    assert r == q + r[|q|..];
    if Of(q, f) == 0 {
      var i :| 0 <= i < |q| && q[i].work.RunCallback? && q[i].pin.Anywhere?;
      assert r[i] == q[i];
    }
  }

  // Whatever is wanted may be taken by the worker.
  lemma WantedEligible(s: State, w: nat, f: nat, spare: bool)
    requires Calm(s, f) && Wanted(s.queue, f, spare) && Admits(s.queue, f, w)
    ensures FirstEligible(s.queue, s.fibers, w) < |s.queue|
  {
    hide FirstEligible;
    if Of(s.queue, f) > 0 {
      var i := OfSome(s.queue, f);
      assert Eligible(s.queue[i], s.fibers, w);
    } else {
      var i :| 0 <= i < |s.queue| && s.queue[i].work.RunCallback? && s.queue[i].pin.Anywhere?;
      assert Eligible(s.queue[i], s.fibers, w);
    }
  }

  ghost predicate Nearer(s: State, t: State, w: nat, f: nat, spare: bool) {
    && w < |s.workers| && w < |t.workers|
    && (Wanted(t.queue, f, spare) || Goal(t.workers[w].phase, f, spare))
    && var p, q := s.workers[w].phase, t.workers[w].phase;
       (Stage(q) < Stage(p) || (Stage(q) == Stage(p) && |t.queue| < |s.queue|)
        || (Stage(q) == Stage(p) && |t.queue| == |s.queue| && Rank(q) < Rank(p)))
  }

  lemma HeadNearer(s: State, w: nat, f: nat, spare: bool)
    requires Moves(s, w, f) && Wanted(s.queue, f, spare) && s.workers[w].phase.Head? && Admits(s.queue, f, w)
    ensures Nearer(s, DequeueStep(s, w), w, f, spare)
  {
    hide FirstEligible, Of, Wanted, Moves, Admits;
    var k := FirstEligible(s.queue, s.fibers, w);
    MovesCalm(s, w, f);
    WantedEligible(s, w, f, spare);
    assert DequeueStep(s, w).workers[w].phase == Took(s.queue[k]);
    if !Goal(Took(s.queue[k]), f, spare) { WantedShrinks(s.queue, k, f, spare); }
  }

  lemma MovesCalm(s: State, w: nat, f: nat)
    requires Moves(s, w, f)
    ensures Calm(s, f) && w < |s.workers| && Still(s.workers[w], f) && Live(s.workers[w])
    ensures |s.queue| > 0 || |s.waiters| > 0
  {
  }

  lemma HandNearer(s: State, w: nat, f: nat, spare: bool)
    requires w < |s.workers| && Wanted(s.queue, f, spare)
    ensures s.workers[w].phase.Took? ==> Nearer(s, SwapInStep(s, w), w, f, spare)
    ensures s.workers[w].phase.Running? ==> Nearer(s, EndStep(s, w, ToHold), w, f, spare)
    ensures s.workers[w].phase.Returning? ==> Nearer(s, ScheduleAgainStep(s, w), w, f, spare)
  {
    hide Of, Wanted;
    if s.workers[w].phase.Returning? { WantedGrows(s.queue, ScheduleAgainStep(s, w).queue, f, spare); }
  }

  lemma IdleNearer(s: State, w: nat, f: nat, spare: bool)
    requires w < |s.workers| && Wanted(s.queue, f, spare) && |s.queue| > 0
    requires var p := s.workers[w].phase; p.Idle? || p.Polling? || p.Collected? || p.Dispatching?
    requires Enabled(s, Move(s.workers[w].phase, w))
    ensures Nearer(s, Apply(s, Move(s.workers[w].phase, w)), w, f, spare)
  {
    hide Of, Wanted, EnqueueAll, Recurring, Callbacks;
    if s.workers[w].phase.Collected? {
      var t, cbs := SetPhase(s, w, Dispatching), s.workers[w].phase.cbs;
      EnqueueAllKeeps(t, cbs);
      EnqueueAllGrows(t, cbs);
      WantedGrows(s.queue, EnqueueAll(t, cbs).queue, f, spare);
    }
  }

  lemma MoveNearer(s: State, w: nat, f: nat, spare: bool)
    requires Moves(s, w, f) && Wanted(s.queue, f, spare) && Admits(s.queue, f, w)
    requires Enabled(s, Move(s.workers[w].phase, w))
    ensures Nearer(s, Apply(s, Move(s.workers[w].phase, w)), w, f, spare)
  {
    MovesCalm(s, w, f);
    hide Nearer, Wanted, Moves, Calm, Admits, DequeueStep, SwapInStep, EndStep, ScheduleAgainStep, EnqueueAll;
    WantedSome(s.queue, f, spare);
    match s.workers[w].phase
    case Head => HeadNearer(s, w, f, spare);
    case Took(_) => HandNearer(s, w, f, spare);
    case Running(_, _, _) => HandNearer(s, w, f, spare);
    case Returning(_, _) => HandNearer(s, w, f, spare);
    case _ => IdleNearer(s, w, f, spare);
  }

  lemma AsideSame(s: State, w: nat, f: nat)
    requires Calm(s, f) && w < |s.workers| && Live(s.workers[w]) && !InHand(s.workers[w].phase, f)
    ensures Aside(s, s, w, f)
  {
    hide Of, PinsKept;
    PinsSame(s.queue, f);
  }

  lemma AsideTwice(s: State, u: State, t: State, w: nat, f: nat)
    requires Aside(s, u, w, f) && Aside(u, t, w, f) && !InHand(u.workers[w].phase, f)
    ensures Aside(s, t, w, f)
  {
    hide Of, Calm, PinsKept;
    PinsTwice(s.queue, u.queue, t.queue, f);
  }

  // A worker gets what is wanted.
  lemma {:induction false} Drive(s: State, w: nat, f: nat, spare: bool) returns (rest: seq<Action>, t: State)
    requires Calm(s, f) && w < |s.workers| && Live(s.workers[w]) && !InHand(s.workers[w].phase, f)
    requires Admits(s.queue, f, w)
    requires if spare then KeepsSpare(s.workers[w], f) else s.workers[w].cbFiber != Some(f)
    requires Wanted(s.queue, f, spare)
    ensures RunOf(s, rest, t) && AllPlain(rest) && Aside(s, t, w, f) && Goal(t.workers[w].phase, f, spare)
    decreases Stage(s.workers[w].phase), |s.queue|, Rank(s.workers[w].phase)
  {
    hide Of, Wanted, Calm, Apply, Enabled, KeepsSpare, PinsKept, Admits, Live;
    if Goal(s.workers[w].phase, f, spare) {
      rest, t := [], s;
      AsideSame(s, w, f);
      return;
    }
    WantedSome(s.queue, f, spare);
    var a := Move(s.workers[w].phase, w);
    MoveAside(s, w, f);
    MoveNearer(s, w, f, spare);
    var u := Apply(s, a);
    PinsMean(s.queue, u.queue, f, w);
    if Goal(u.workers[w].phase, f, spare) {
      rest, t := [a], u;
      assert rest[1..] == [];
    } else {
      var more;
      more, t := Drive(u, w, f, spare);
      AsideTwice(s, u, t, w, f);
      rest := [a] + more;
      assert rest[1..] == more;
    }
  }

  lemma WantedSome(q: seq<Task>, f: nat, spare: bool)
    requires Wanted(q, f, spare)
    ensures |q| > 0
  {
  }

  // ---- until it can fire events -------------------------------------------------------------------

  function FireStage(p: Phase): nat {
    match p
    case Returning(_, _) => 5
    case Idle => 3
    case Polling => 2
    case Collected(_) => 1
    case Dispatching => 0
    case _ => 4
  }

  lemma MoveToFire(s: State, w: nat, f: nat)
    requires Moves(s, w, f) && Of(s.queue, f) == 0 && !s.workers[w].phase.Dispatching?
    requires Enabled(s, Move(s.workers[w].phase, w))
    ensures var t := Apply(s, Move(s.workers[w].phase, w));
            w < |t.workers| && FireNearer(s.workers[w].phase, |s.queue|, t.workers[w].phase, |t.queue|)
  {
    MovesCalm(s, w, f);
    hide FirstEligible, Of, Recurring, Callbacks, EnqueueAll, Moves, DequeueStep;
    match s.workers[w].phase
    case Head => HeadToFire(s, w);
    case Collected(cbs) => EnqueueAllKeeps(SetPhase(s, w, Dispatching), cbs);
    case _ =>
  }

  lemma HeadToFire(s: State, w: nat)
    requires w < |s.workers| && s.workers[w].phase.Head? && Live(s.workers[w])
    ensures var t := DequeueStep(s, w);
            w < |t.workers| && FireNearer(Head, |s.queue|, t.workers[w].phase, |t.queue|)
  {
    hide FirstEligible;
  }

  predicate FireNearer(p: Phase, m: nat, q: Phase, n: nat) {
    FireStage(q) < FireStage(p) || (FireStage(q) == FireStage(p) && (n < m || (n == m && Rank(q) < Rank(p))))
  }

  // A worker that finds nothing to do gets to the events.
  lemma {:induction false} DriveToEvents(s: State, w: nat, f: nat) returns (rest: seq<Action>, t: State)
    requires Calm(s, f) && w < |s.workers| && Live(s.workers[w]) && !InHand(s.workers[w].phase, f)
    requires s.workers[w].cbFiber != Some(f)
    requires Of(s.queue, f) == 0 && |s.waiters| > 0
    ensures RunOf(s, rest, t) && AllPlain(rest) && Aside(s, t, w, f) && t.workers[w].phase.Dispatching?
    decreases FireStage(s.workers[w].phase), |s.queue|, Rank(s.workers[w].phase)
  {
    hide Of, Calm, Apply, Enabled, PinsKept, Live;
    if s.workers[w].phase.Dispatching? {
      rest, t := [], s;
      AsideSame(s, w, f);
      return;
    }
    var a := Move(s.workers[w].phase, w);
    MoveAside(s, w, f);
    MoveToFire(s, w, f);
    var u := Apply(s, a);
    var more;
    more, t := DriveToEvents(u, w, f);
    AsideTwice(s, u, t, w, f);
    rest := [a] + more;
    assert rest[1..] == more;
  }

  // ---- the states that break ------------------------------------------------------------------------

  lemma {:induction false} FailsBehind(s: State, rest: seq<Action>, t: State)
    requires RunOf(s, rest, t) && AllPlain(rest) && CanFail(t)
    ensures CanFail(s)
    decreases |rest|
  {
    hide Apply, Enabled, CanFail;
    if |rest| > 0 {
      assert rest[0] in rest && forall a :: a in rest[1..] ==> a in rest;
      FailsBehind(Apply(s, rest[0]), rest[1..], t);
      FailsAfter(s, rest[0]);
    }
  }

  ghost predicate Freed(s: State, f: nat) {
    Calm(s, f) && forall w: nat :: w < |s.workers| ==> s.workers[w].cbFiber != Some(f)
  }

  // Two workers may take it besides.
  ghost predicate Open(s: State, f: nat) { Freed(s, f) && Unpinned(s.queue, f) && TwoLive(s) }

  // Two workers have dequeued the same fiber.
  lemma TwiceTaken(s: State, v: nat, w: nat, f: nat)
    requires v < |s.workers| && w < |s.workers| && v != w && f < |s.fibers|
    requires InHand(s.workers[v].phase, f) && InHand(s.workers[w].phase, f)
    ensures CanFail(s)
  {
    var t := Apply(s, SwapIn(v));
    assert t.workers[w] == s.workers[w] && t.fibers[f].state == EXEC;
    hide CanFail;
    FailsNow(t, w);
    FailsAfter(s, SwapIn(v));
  }

  lemma AsideOpen(s: State, t: State, w: nat, f: nat)
    requires Open(s, f) && Aside(s, t, w, f)
    ensures Open(t, f)
  {
    hide Calm, Of, PinsKept, Unpinned, Live;
    PinsMean(s.queue, t.queue, f, w);
    var u := Other(s, w);
    var v := Other(s, u);
    assert Live(t.workers[u]) && Live(t.workers[v]);
  }

  lemma Other(s: State, v: nat) returns (w: nat)
    requires TwoLive(s)
    ensures w < |s.workers| && w != v && Live(s.workers[w])
  {
    var x: nat, y: nat :| x < |s.workers| && y < |s.workers| && x != y && Live(s.workers[x]) && Live(s.workers[y]);
    w := if v == x then y else x;
  }

  // One worker has the fiber and it is queued.
  lemma TakenAndQueued(s: State, v: nat, f: nat)
    requires Open(s, f) && v < |s.workers| && InHand(s.workers[v].phase, f) && Of(s.queue, f) > 0
    ensures CanFail(s)
  {
    hide Of, CanFail, Aside, Unpinned, TwoLive;
    var w := Other(s, v);
    if InHand(s.workers[w].phase, f) {
      TwiceTaken(s, v, w, f);
    } else {
      PinsSame(s.queue, f);
      PinsMean(s.queue, s.queue, f, w);
      var rest, t := Drive(s, w, f, false);
      AsideOthers(s, t, w, f, v);
      TwiceTaken(t, v, w, f);
      FailsBehind(s, rest, t);
    }
  }

  lemma AsideOthers(s: State, t: State, w: nat, f: nat, v: nat)
    requires Aside(s, t, w, f) && v < |s.workers| && v != w
    ensures |t.workers| == |s.workers| && t.workers[v] == s.workers[v] && f < |t.fibers| && Calm(t, f)
    ensures t.waiters == s.waiters && t.fibers[f].state == s.fibers[f].state
    ensures Of(t.queue, f) == Of(s.queue, f) - (if InHand(t.workers[w].phase, f) then 1 else 0)
    ensures Live(t.workers[w]) && PinsKept(s.queue, t.queue, f)
  {
  }

  function Waits(ws: seq<Work>, f: nat): nat { multiset(ws)[RunFiber(f)] }

  lemma WaitsRemove(ws: seq<Work>, i: nat, f: nat)
    requires i < |ws| && ws[i] == RunFiber(f)
    ensures Waits(Remove(ws, i), f) + 1 == Waits(ws, f)
  {
    assert ws == ws[..i] + ([ws[i]] + ws[i + 1..]);
    assert multiset(ws) == multiset(ws[..i]) + multiset{ws[i]} + multiset(ws[i + 1..]);
  }

  // Firing an event puts its fiber into the queue.
  lemma Fired(s: State, w: nat, f: nat) returns (a: Action)
    requires Calm(s, f) && w < |s.workers| && s.workers[w].phase.Dispatching? && Waits(s.waiters, f) > 0
    ensures Enabled(s, a) && Plain(a)
    ensures var t := Apply(s, a);
            && Calm(t, f) && t.workers == s.workers && Of(t.queue, f) == Of(s.queue, f) + 1
            && t.fibers[f].state == s.fibers[f].state && Waits(t.waiters, f) + 1 == Waits(s.waiters, f)
            && PinsKept(s.queue, t.queue, f)
  {
    assert RunFiber(f) in s.waiters;
    var i :| 0 <= i < |s.waiters| && s.waiters[i] == RunFiber(f);
    a := Fire(w, i);
    WaitsRemove(s.waiters, i, f);
    hide Of, Waits, PinsKept;
    OfAppend(s.queue, Task(RunFiber(f), Anywhere, s.accepted), f);
    PinsAppend(s.queue, Task(RunFiber(f), Anywhere, s.accepted), f);
    EnqueueCalm(s.(waiters := Remove(s.waiters, i)), RunFiber(f), f);
  }

  lemma EnqueueCalm(s: State, work: Work, f: nat)
    requires Calm(s, f)
    ensures Calm(Enqueue(s, work, Anywhere), f)
    ensures Enqueue(s, work, Anywhere).fibers[f].state == s.fibers[f].state
  {
    var t := Enqueue(s, work, Anywhere);
    assert forall i :: 0 <= i < |t.queue| ==>
      t.queue[i] == if i < |s.queue| then s.queue[i] else Task(work, Anywhere, s.accepted);
  }

  lemma SomeWaits(ws: seq<Work>, f: nat)
    requires Waits(ws, f) > 0
    ensures RunFiber(f) in ws && |ws| > 0
  {
    assert RunFiber(f) in multiset(ws);
  }

  // One worker has the fiber and it waits for an event.
  lemma TakenAndWaiting(s: State, v: nat, f: nat)
    requires Open(s, f) && v < |s.workers| && InHand(s.workers[v].phase, f) && Waits(s.waiters, f) > 0
    ensures CanFail(s)
  {
    hide Of, Waits, CanFail, Aside, Calm, Unpinned, TwoLive, PinsKept, Live;
    if Of(s.queue, f) > 0 {
      TakenAndQueued(s, v, f);
    } else {
      var w := Other(s, v);
      if InHand(s.workers[w].phase, f) {
        FreedCalm(s, f);
        TwiceTaken(s, v, w, f);
        return;
      }
      SomeWaits(s.waiters, f);
      var rest, t := DriveToEvents(s, w, f);
      AsideOthers(s, t, w, f, v);
      AsideOpen(s, t, w, f);
      var a := Fired(t, w, f);
      PinsMean(t.queue, Apply(t, a).queue, f, w);
      SameLive(t, Apply(t, a));
      hide Apply, Enabled;
      TakenAndQueued(Apply(t, a), v, f);
      FailsAfter(t, a);
      FailsBehind(s, rest, t);
    }
  }

  lemma SameLive(s: State, t: State)
    requires TwoLive(s) && t.workers == s.workers
    ensures TwoLive(t)
  {
  }

  lemma FreedCalm(s: State, f: nat)
    requires Freed(s, f)
    ensures Calm(s, f) && f < |s.fibers|
  {
  }

  // A reference is in the queue, or at an event, and another with it.
  lemma TwiceReferred(s: State, f: nat)
    requires Open(s, f)
    requires Of(s.queue, f) + Waits(s.waiters, f) >= 2
    ensures CanFail(s)
  {
    hide Of, Waits, CanFail, Aside, Calm, Unpinned, TwoLive, PinsKept, Live;
    FreedCalm(s, f);
    var v := Other(s, 0);
    PinsSame(s.queue, f);
    PinsMean(s.queue, s.queue, f, v);
    if InHand(s.workers[v].phase, f) {
      if Of(s.queue, f) > 0 { TakenAndQueued(s, v, f); } else { TakenAndWaiting(s, v, f); }
    } else if Of(s.queue, f) > 0 {
      var rest, t := Drive(s, v, f, false);
      AsideOthers(s, t, v, f, 0);
      AsideOpen(s, t, v, f);
      if Of(t.queue, f) > 0 { TakenAndQueued(t, v, f); } else { TakenAndWaiting(t, v, f); }
      FailsBehind(s, rest, t);
    } else {
      SomeWaits(s.waiters, f);
      var rest, t := DriveToEvents(s, v, f);
      AsideOthers(s, t, v, f, 0);
      AsideOpen(s, t, v, f);
      var a := Fired(t, v, f);
      var u := Apply(t, a);
      PinsMean(t.queue, u.queue, f, v);
      SameLive(t, u);
      FiredTwice(u, v, f);
      hide Apply, Enabled;
      FailsAfter(t, a);
      FailsBehind(s, rest, t);
    }
  }

  // Queued once and waiting: a worker takes it, and another fires the event.
  lemma FiredTwice(s: State, v: nat, f: nat)
    requires Open(s, f) && v < |s.workers| && s.workers[v].phase.Dispatching? && Live(s.workers[v])
    requires Of(s.queue, f) > 0 && Waits(s.waiters, f) > 0
    ensures CanFail(s)
  {
    hide Of, Waits, CanFail, Aside, Calm, Unpinned, TwoLive, PinsKept, Live;
    FreedCalm(s, f);
    PinsSame(s.queue, f);
    PinsMean(s.queue, s.queue, f, v);
    var rest, t := Drive(s, v, f, false);
    var o := Other(s, v);
    AsideOthers(s, t, v, f, o);
    AsideOpen(s, t, v, f);
    TakenAndWaiting(t, v, f);
    FailsBehind(s, rest, t);
  }

  // A reference, wherever it is, comes into the hand of a worker.
  lemma Brings(s: State, w: nat, f: nat) returns (rest: seq<Action>, t: State)
    requires Calm(s, f) && w < |s.workers| && Live(s.workers[w]) && Admits(s.queue, f, w)
    requires !InHand(s.workers[w].phase, f) && s.workers[w].cbFiber != Some(f)
    requires Of(s.queue, f) + Waits(s.waiters, f) > 0
    ensures RunOf(s, rest, t) && AllPlain(rest)
    ensures Calm(t, f) && |t.workers| == |s.workers| && InHand(t.workers[w].phase, f) && PinsKept(s.queue, t.queue, f)
    ensures t.fibers[f].state == s.fibers[f].state
    ensures forall v :: 0 <= v < |s.workers| && v != w ==> t.workers[v] == s.workers[v]
  {
    hide Of, Waits, Aside, Calm, Admits, PinsKept, Live;
    if Of(s.queue, f) > 0 {
      rest, t := Drive(s, w, f, false);
      AsideSize(s, t, w, f);
      forall v: nat | v < |s.workers| && v != w ensures t.workers[v] == s.workers[v] { AsideOthers(s, t, w, f, v); }
    } else {
      SomeWaits(s.waiters, f);
      var first, u := DriveToEvents(s, w, f);
      AsideSize(s, u, w, f);
      var a := Fired(u, w, f);
      var m := Apply(u, a);
      PinsTwice(s.queue, u.queue, m.queue, f);
      PinsMean(s.queue, m.queue, f, w);
      var last;
      last, t := Drive(m, w, f, false);
      AsideSize(m, t, w, f);
      PinsTwice(s.queue, m.queue, t.queue, f);
      forall v: nat | v < |s.workers| && v != w ensures t.workers[v] == s.workers[v] {
        AsideOthers(s, u, w, f, v);
        AsideOthers(m, t, w, f, v);
      }
      hide Apply, Enabled;
      assert ([a] + last)[1..] == last;
      RunJoin(s, first, u, [a] + last, t);
      rest := first + ([a] + last);
    }
  }

  lemma AsideSize(s: State, t: State, w: nat, f: nat)
    requires Aside(s, t, w, f)
    ensures |t.workers| == |s.workers| && Calm(t, f) && f < |t.fibers| && f < |s.fibers| && w < |s.workers|
    ensures t.fibers[f].state == s.fibers[f].state && t.waiters == s.waiters
    ensures s.workers[w].cbFiber != Some(f) ==> t.workers[w].cbFiber != Some(f)
    ensures KeepsSpare(s.workers[w], f) ==> KeepsSpare(t.workers[w], f)
    ensures Live(t.workers[w]) && PinsKept(s.queue, t.queue, f)
    ensures Of(t.queue, f) == Of(s.queue, f) - (if InHand(t.workers[w].phase, f) then 1 else 0)
  {
  }

  // A fiber that has ended and is still referred to is run again, by any worker that may take it.
  lemma EndedAndReferred(s: State, f: nat, w: nat)
    requires Freed(s, f) && s.fibers[f].state == TERM && Of(s.queue, f) + Waits(s.waiters, f) > 0
    requires w < |s.workers| && Live(s.workers[w]) && Admits(s.queue, f, w)
    ensures CanFail(s)
  {
    hide Of, Waits, CanFail, Admits, PinsKept;
    if InHand(s.workers[w].phase, f) {
      FailsNow(s, w);
    } else {
      var rest, t := Brings(s, w, f);
      FailsNow(t, w);
      FailsBehind(s, rest, t);
    }
  }

  lemma EndedOpen(s: State, f: nat)
    requires Open(s, f) && s.fibers[f].state == TERM && Of(s.queue, f) + Waits(s.waiters, f) > 0
    ensures CanFail(s)
  {
    hide Of, Waits, CanFail, Admits, Unpinned;
    var w := Other(s, 0);
    PinsSame(s.queue, f);
    PinsMean(s.queue, s.queue, f, w);
    EndedAndReferred(s, f, w);
  }

  // The fiber runs and parks.
  lemma Parks(s: State, w: nat, f: nat) returns (t: State)
    requires Calm(s, f) && w < |s.workers| && InHand(s.workers[w].phase, f)
    ensures Enabled(s, SwapIn(w)) && Enabled(Apply(s, SwapIn(w)), End(w, ToHold))
    ensures t == Apply(Apply(s, SwapIn(w)), End(w, ToHold))
    ensures Calm(t, f) && t.fibers[f].state == HOLD && t.queue == s.queue
    ensures |t.workers| == |s.workers| && t.workers[w].phase.Head? && t.workers[w].cbFiber == s.workers[w].cbFiber
    ensures t.workers[w].idleOver == s.workers[w].idleOver
    ensures forall v :: 0 <= v < |s.workers| && v != w ==> t.workers[v] == s.workers[v]
  {
    hide Of;
    t := Apply(Apply(s, SwapIn(w)), End(w, ToHold));
    forall v: nat | v < |t.workers| ensures Still(t.workers[v], f) { assert Still(s.workers[v], f); }
  }

  lemma FailsParked(s: State, w: nat, t: State)
    requires Enabled(s, SwapIn(w)) && Enabled(Apply(s, SwapIn(w)), End(w, ToHold))
    requires t == Apply(Apply(s, SwapIn(w)), End(w, ToHold)) && CanFail(t)
    ensures CanFail(s)
  {
    hide Apply, Enabled, CanFail;
    FailsAfter(Apply(s, SwapIn(w)), End(w, ToHold));
    FailsAfter(s, SwapIn(w));
  }

  // A parked fiber that a worker keeps for its next callback: that callback fails.
  lemma {:induction false} ParkedSpare(s: State, x: nat, f: nat)
    requires Calm(s, f) && x < |s.workers| && KeepsSpare(s.workers[x], f) && s.fibers[f].state == HOLD
    requires Live(s.workers[x]) && Admits(s.queue, f, x) && !InHand(s.workers[x].phase, f)
    ensures CanFail(s)
    decreases Of(s.queue, f)
  {
    hide Of, CanFail, Aside, Calm, PinsKept, Admits;
    var a := Submit(None, RunCallback(0), Anywhere);
    var u := CallbackQueued(s, f);
    PinsMean(s.queue, u.queue, f, x);
    var rest, t := Drive(u, x, f, true);
    AsideSize(u, t, x, f);
    if InHand(t.workers[x].phase, f) {
      var v := Parks(t, x, f);
      PinsMean(u.queue, t.queue, f, x);
      ParkedSpare(v, x, f);
      FailsParked(t, x, v);
    } else {
      FailsNow(t, x);
    }
    FailsBehind(u, rest, t);
    FailsAfter(s, a);
  }

  lemma CallbackQueued(s: State, f: nat) returns (t: State)
    requires Calm(s, f)
    ensures Enabled(s, Submit(None, RunCallback(0), Anywhere)) && t == Apply(s, Submit(None, RunCallback(0), Anywhere))
    ensures Calm(t, f) && t.workers == s.workers && t.fibers == s.fibers && Of(t.queue, f) == Of(s.queue, f)
    ensures HasCallback(t.queue) && PinsKept(s.queue, t.queue, f)
  {
    t := Apply(s, Submit(None, RunCallback(0), Anywhere));
    hide Of, PinsKept;
    var task := Task(RunCallback(0), Anywhere, s.accepted);
    OfAppend(s.queue, task, f);
    PinsAppend(s.queue, task, f);
    EnqueueCalm(s, RunCallback(0), f);
    assert t.queue[|s.queue|] == task;
  }

  // A fiber that a worker keeps for its next callback, referred to besides.
  lemma SpareAndReferred(s: State, x: nat, f: nat)
    requires Calm(s, f) && x < |s.workers| && KeepsSpare(s.workers[x], f) && !InHand(s.workers[x].phase, f)
    requires forall w: nat :: w < |s.workers| && w != x ==> s.workers[w].cbFiber != Some(f)
    requires Live(s.workers[x]) && TwoLive(s) && Unpinned(s.queue, f)
    requires Of(s.queue, f) + Waits(s.waiters, f) > 0
    ensures CanFail(s)
  {
    hide Of, Waits, CanFail, Calm, Unpinned, Admits, TwoLive, PinsKept;
    var w := Other(s, x);
    PinsSame(s.queue, f);
    PinsMean(s.queue, s.queue, f, w);
    var rest, t := [], s;
    if !InHand(s.workers[w].phase, f) {
      rest, t := Brings(s, w, f);
    }
    var u := Parks(t, w, f);
    PinsMean(s.queue, t.queue, f, x);
    PinsMean(t.queue, t.queue, f, x);
    ParkedSpare(u, x, f);
    FailsParked(t, w, u);
    FailsBehind(s, rest, t);
  }

  // ---- from a broken rule to such a state -----------------------------------------------------------

  // The fiber that a step is about.
  predicate About(s: State, a: Action, f: nat) {
    match a
    case Submit(_, RunFiber(g), _) => f == g
    case AwaitFiber(w) => w < |s.workers| && s.workers[w].phase.Running? && s.workers[w].phase.fid == f
    case End(w, _) => w < |s.workers| && s.workers[w].phase.Running? && s.workers[w].phase.fid == f
    case _ => false
  }

  // Two workers are not leaving, nor is one that keeps the fiber in question, which is not pinned.
  ghost predicate Ready(s: State, a: Action) {
    && TwoLive(s) && (a.Submit? ==> a.pin.Anywhere?)
    && forall f: nat :: About(s, a, f) ==> Unpinned(s.queue, f) && KeptByLive(s, f)
  }

  ghost predicate KeptByLive(s: State, f: nat) {
    forall w: nat :: w < |s.workers| && s.workers[w].cbFiber == Some(f) ==> Live(s.workers[w])
  }

  // Only worker r has anything to do with f, beside what refers to it.
  ghost predicate Alone(s: State, f: nat, r: nat) {
    && f < |s.fibers| && r < |s.workers| && TwoLive(s) && Unpinned(s.queue, f) && KeptByLive(s, f)
    && (forall w: nat :: w < |s.workers| && w != r ==> Still(s.workers[w], f) && s.workers[w].cbFiber != Some(f))
  }

  lemma AloneParks(s: State, f: nat, r: nat)
    requires Alone(s, f, r) && s.workers[r].phase.Running? && s.workers[r].phase.fid == f
    requires s.workers[r].cbFiber == Some(f) ==> s.workers[r].phase.called
    ensures var t := EndStep(s, r, ToHold);
            Open(t, f) && t.queue == s.queue && t.waiters == s.waiters
  {
    hide Unpinned;
    var t := EndStep(s, r, ToHold);
    assert Still(t.workers[r], f);
    StillTwo(s, t, r);
  }

  lemma AloneQueues(s: State, f: nat, r: nat)
    requires Alone(s, f, r) && s.workers[r].phase.Returning? && s.workers[r].phase.fid == f
    requires s.workers[r].cbFiber != Some(f)
    ensures var t := ScheduleAgainStep(s, r);
            Open(t, f) && Of(t.queue, f) == Of(s.queue, f) + 1 && t.waiters == s.waiters
  {
    hide Of;
    var t := ScheduleAgainStep(s, r);
    OfAppend(s.queue, t.queue[|s.queue|], f);
    assert Still(t.workers[r], f);
    StillTwo(s, t, r);
  }

  lemma StillTwo(s: State, t: State, r: nat)
    requires TwoLive(s) && r < |s.workers| == |t.workers| && t.workers == s.workers[r := t.workers[r]]
    requires Live(s.workers[r]) ==> Live(t.workers[r])
    ensures TwoLive(t)
  {
    var u := Other(s, r);
    var v := Other(s, u);
    assert Live(t.workers[u]) && Live(t.workers[v]);
  }

  // What the invariant says about one fiber.
  lemma AboutFiber(s: State, a: Action, f: nat)
    requires Separate(s) && Ready(s, a) && About(s, a, f) && f < |s.fibers|
    ensures var x := s.fibers[f];
            && x.Ok()
            && (x.state != EXEC && !x.holder.Leaves? ==> Calm(s, f))
            && (x.state != EXEC && !x.holder.Leaves? && !x.holder.Spare? ==> Open(s, f))
            && (x.holder.Runs? || x.holder.Leaves? ==> x.holder.worker < |s.workers| ==> Alone(s, f, x.holder.worker))
  {
    assert FiberOk(s, f);
    hide TwoLive, Unpinned;
    var h := s.fibers[f].holder;
    forall w: nat | w < |s.workers|
      ensures h != Runs(w) && h != Leaves(w) ==> Still(s.workers[w], f)
      ensures s.workers[w].cbFiber == Some(f) ==> h == Spare(w) || h == Runs(w)
    {
      assert WorkerOk(s, w);
    }
  }

  lemma Referred(s: State, f: nat)
    requires Traced(s) && f < |s.fibers|
    ensures s.fibers[f].ref.InQueue? ==> Of(s.queue, f) > 0
    ensures s.fibers[f].ref.AtEvent? ==> Waits(s.waiters, f) > 0
  {
    assert Found(s, f, s.fibers[f].ref);
    if s.fibers[f].ref.InQueue? {
      var i :| 0 <= i < |s.queue| && s.queue[i].work == RunFiber(f);
      SomeOf(s.queue, f, i);
    }
  }

  lemma EnqueueReady(s: State, a: Action, f: nat)
    requires Ready(s, a) && About(s, a, f) && f < |s.fibers|
    ensures var t := Enqueue(s, RunFiber(f), Anywhere);
            && t.workers == s.workers && t.waiters == s.waiters && Of(t.queue, f) == Of(s.queue, f) + 1
            && |t.fibers| == |s.fibers| && t.fibers[f].state == s.fibers[f].state
            && Unpinned(t.queue, f) && TwoLive(t)
            && (Calm(s, f) ==> Calm(t, f)) && (Open(s, f) ==> Open(t, f))
            && (forall r: nat :: Alone(s, f, r) ==> Alone(t, f, r))
  {
    hide Of;
    var t, task := Enqueue(s, RunFiber(f), Anywhere), Task(RunFiber(f), Anywhere, s.accepted);
    OfAppend(s.queue, task, f);
    PinsAppend(s.queue, task, f);
    PinsMean(s.queue, t.queue, f, 0);
    SameLive(s, t);
    hide TwoLive, Unpinned;
  }

  lemma BadSubmit(s: State, who: Option<nat>, f: nat)
    requires Inv(s) && Traced(s)
    requires var a := Submit(who, RunFiber(f), Anywhere); Enabled(s, a) && Ready(s, a) && !Proper(s, a)
    ensures CanFail(Apply(s, Submit(who, RunFiber(f), Anywhere)))
  {
    var a := Submit(who, RunFiber(f), Anywhere);
    var t, x := Apply(s, a), s.fibers[f];
    AboutFiber(s, a, f);
    Referred(s, f);
    EnqueueReady(s, a, f);
    assert Found(s, f, x.ref) && Held(s, f, x.holder);
    assert FiberOk(s, f);
    hide Of, Waits, Calm, Freed, Alone, CanFail, Inv, Traced, Ready, Enqueue, TwoLive, Unpinned;
    match x.holder
    case Runs(r) =>
      RunnerCalled(s, f, r);
      AloneParks(t, f, r);
      TwiceReferred(EndStep(t, r, ToHold), f);
      FailsAfter(t, End(r, ToHold));
    case Leaves(r) =>
      LeaverKeepsNone(s, f, r);
      AloneQueues(t, f, r);
      TwiceReferred(ScheduleAgainStep(t, r), f);
      FailsAfter(t, ScheduleAgain(r));
    case Spare(r) => SpareSubmitted(s, t, f, r);
    case Nobody => FreeSubmitted(s, t, f);
  }

  lemma FreeSubmitted(s: State, t: State, f: nat)
    requires f < |s.fibers| && Found(s, f, s.fibers[f].ref) && t.workers == s.workers && Open(t, f)
    requires s.fibers[f].ref.Nowhere? ==> t.fibers[f].state == TERM
    requires Of(t.queue, f) > 0
    requires s.fibers[f].ref.InQueue? ==> Of(t.queue, f) > 1
    requires s.fibers[f].ref.AtEvent? ==> Waits(t.waiters, f) > 0
    ensures CanFail(t)
  {
    hide Of, Waits, Calm, Freed, CanFail, TwoLive, Unpinned;
    match s.fibers[f].ref
    case Nowhere => EndedOpen(t, f);
    case Taken(v) => TakenAndQueued(t, v, f);
    case _ => TwiceReferred(t, f);
  }

  // A fiber that has ended is scheduled: one worker is enough, wherever the fiber is pinned, if that
  // worker may take it and is not leaving.
  lemma EndedSubmitted(s: State, who: Option<nat>, f: nat, pin: Pin, w: nat)
    requires Inv(s) && Enabled(s, Submit(who, RunFiber(f), pin)) && s.fibers[f].state == TERM
    requires w < |s.workers| && Live(s.workers[w]) && (pin == Anywhere || pin == Only(w))
    ensures CanFail(Apply(s, Submit(who, RunFiber(f), pin)))
  {
    var t, task := Enqueue(s, RunFiber(f), pin), Task(RunFiber(f), pin, s.accepted);
    assert FiberOk(s, f);
    forall v: nat | v < |s.workers| ensures Still(s.workers[v], f) && s.workers[v].cbFiber != Some(f) {
      assert WorkerOk(s, v);
    }
    assert Freed(t, f);
    assert Admits(t.queue, f, w);
    OfAppend(s.queue, task, f);
    hide Of, Waits, Freed, Admits, CanFail, Inv;
    EndedAndReferred(t, f, w);
  }

  lemma RunnerCalled(s: State, f: nat, r: nat)
    requires Inv(s) && f < |s.fibers| && r < |s.workers|
    ensures s.workers[r].phase.Running? && s.workers[r].phase.fid == f && s.fibers[f].state == EXEC ==>
              (s.workers[r].cbFiber == Some(f) ==> s.workers[r].phase.called)
  {
    assert WorkerOk(s, r) && FiberOk(s, f);
  }

  lemma LeaverKeepsNone(s: State, f: nat, r: nat)
    requires Inv(s) && f < |s.fibers| && r < |s.workers|
    requires s.workers[r].phase.Returning? && s.workers[r].phase.fid == f && s.fibers[f].holder == Leaves(r)
    ensures s.workers[r].cbFiber != Some(f)
  {
    assert WorkerOk(s, r);
  }

  lemma SpareSubmitted(s: State, t: State, f: nat, r: nat)
    requires Inv(s) && f < |s.fibers| && r < |s.workers| && s.fibers[f].holder == Spare(r)
    requires s.workers[r].cbFiber == Some(f)
    requires Calm(t, f) && t.workers == s.workers && Of(t.queue, f) > 0 && Live(s.workers[r])
    requires Unpinned(t.queue, f) && TwoLive(t)
    ensures CanFail(t)
  {
    hide Of, Calm, CanFail, Unpinned, TwoLive;
    assert FiberOk(s, f) && WorkerOk(s, r);
    forall w: nat | w < |s.workers| && w != r ensures s.workers[w].cbFiber != Some(f) { assert WorkerOk(s, w); }
    SpareAndReferred(t, r, f);
  }

  lemma BadAwait(s: State, w: nat)
    requires Inv(s) && Traced(s)
    requires Enabled(s, AwaitFiber(w)) && Ready(s, AwaitFiber(w)) && !Proper(s, AwaitFiber(w))
    ensures CanFail(Apply(s, AwaitFiber(w)))
  {
    var a, f := AwaitFiber(w), s.workers[w].phase.fid;
    var t := Apply(s, a);
    assert WorkerOk(s, w) && FiberOk(s, f);
    AboutFiber(s, a, f);
    Referred(s, f);
    RunnerCalled(s, f, w);
    assert Alone(t, f, w);
    assert Waits(t.waiters, f) == Waits(s.waiters, f) + 1;
    hide Of, Waits, Alone, CanFail, Inv, Traced, Ready;
    AloneParks(t, f, w);
    TwiceReferred(EndStep(t, w, ToHold), f);
    FailsAfter(t, End(w, ToHold));
  }

  lemma BadEnd(s: State, w: nat, how: Ending)
    requires Inv(s) && Traced(s)
    requires Enabled(s, End(w, how)) && Ready(s, End(w, how)) && !Proper(s, End(w, how))
    ensures CanFail(Apply(s, End(w, how)))
  {
    var a, f := End(w, how), s.workers[w].phase.fid;
    var t := EndStep(s, w, how);
    assert WorkerOk(s, w) && FiberOk(s, f);
    AboutFiber(s, a, f);
    Referred(s, f);
    RunnerCalled(s, f, w);
    EndAlone(s, w, how);
    hide Of, Waits, Alone, CanFail, Inv, Traced, Ready, EndStep, Calm, Freed, TwoLive, Unpinned;
    if how.ToReady? {
      AloneQueues(t, f, w);
      TwiceReferred(ScheduleAgainStep(t, w), f);
      FailsAfter(t, ScheduleAgain(w));
    } else if s.workers[w].phase.called {
      SpareAndReferred(t, w, f);
    } else {
      EndedOpen(t, f);
    }
  }

  lemma EndAlone(s: State, w: nat, how: Ending)
    requires Enabled(s, End(w, how)) && Alone(s, s.workers[w].phase.fid, w)
    requires s.workers[w].cbFiber == Some(s.workers[w].phase.fid) <==> s.workers[w].phase.called
    ensures var t, f, called := EndStep(s, w, how), s.workers[w].phase.fid, s.workers[w].phase.called;
            && t.queue == s.queue && t.waiters == s.waiters && |t.workers| == |s.workers|
            && (how.ToReady? ==> Alone(t, f, w) && t.workers[w].phase == Returning(f, s.workers[w].phase.token)
                                 && t.workers[w].cbFiber != Some(f))
            && (how.ToTerm? && called ==>
                  Calm(t, f) && TwoLive(t) && Unpinned(t.queue, f)
                  && Live(t.workers[w]) && KeepsSpare(t.workers[w], f) && !InHand(t.workers[w].phase, f)
                  && forall v: nat :: v < |t.workers| && v != w ==> t.workers[v].cbFiber != Some(f))
            && (how.ToTerm? && !called ==> Open(t, f) && t.fibers[f].state == TERM)
  {
    hide Unpinned;
    var t, f := EndStep(s, w, how), s.workers[w].phase.fid;
    StillTwo(s, t, w);
    hide TwoLive;
    if how.ToTerm? { assert Still(t.workers[w], f); }
  }

  lemma PlainProper(s: State, a: Action)
    requires Enabled(s, a) && Plain(a)
    ensures Proper(s, a)
  {
  }

  lemma {:induction false} PlainRun(s: State, rest: seq<Action>, t: State)
    requires Inv(s) && RunOf(s, rest, t) && AllPlain(rest)
    ensures AssertsAlong(s, rest)
    decreases |rest|
  {
    hide Inv, Apply, Enabled, Proper, Plain;
    if |rest| > 0 {
      assert rest[0] in rest && forall a :: a in rest[1..] ==> a in rest;
      PlainProper(s, rest[0]);
      InvKept(s, rest[0]);
      PlainRun(Apply(s, rest[0]), rest[1..], t);
    }
  }

  // The rule for clients is exact: after a step of any kind no plain steps can run into a failing
  // assertion if and only if the step kept the rule.
  lemma RuleExact(s: State, a: Action)
    requires Inv(s) && Traced(s) && Enabled(s, a) && Ready(s, a)
    ensures Proper(s, a) <==> !CanFail(Apply(s, a))
  {
    hide Inv, Traced, Ready, Proper, Apply, Enabled;
    if !Proper(s, a) {
      Broken(s, a);
    } else if CanFail(Apply(s, a)) {
      var rest, t :| RunOf(Apply(s, a), rest, t) && AllPlain(rest) && !AssertsAlong(Apply(s, a), rest);
      InvKept(s, a);
      PlainRun(Apply(s, a), rest, t);
    }
  }

  lemma Broken(s: State, a: Action)
    requires Inv(s) && Traced(s) && Enabled(s, a) && Ready(s, a) && !Proper(s, a)
    ensures CanFail(Apply(s, a))
  {
    hide Inv, Traced, CanFail;
    match a
    case Submit(who, RunFiber(f), pin) =>
      assert pin == Anywhere;
      BadSubmit(s, who, f);
    case AwaitFiber(w) => BadAwait(s, w);
    case End(w, how) => BadEnd(s, w, how);
    case _ => assert false;
  }

  // After no step of the run can plain steps run into a failing assertion.
  ghost predicate SafeRun(s: State, actions: seq<Action>)
    decreases |actions|
  {
    |actions| > 0 ==>
      && (Enabled(s, actions[0]) ==> !CanFail(Apply(s, actions[0])) && SafeRun(Apply(s, actions[0]), actions[1..]))
  }

  ghost predicate ReadyRun(s: State, actions: seq<Action>)
    decreases |actions|
  {
    |actions| > 0 ==>
      && (Enabled(s, actions[0]) ==> Ready(s, actions[0]) && ReadyRun(Apply(s, actions[0]), actions[1..]))
  }

  // So over whole runs: no assertion can fail after any of its steps if and only if no fiber was
  // scheduled, waited or ended its segment against the rule.
  lemma RunExact(n: nat, actions: seq<Action>, t: State)
    requires RunOf(Init(n), actions, t) && ReadyRun(Init(n), actions)
    ensures ProperRun(Init(n), actions) <==> SafeRun(Init(n), actions)
  {
    InitInv(n);
    assert Traced(Init(n));
    hide Init, Inv, Traced;
    RunExactFrom(Init(n), actions, t);
  }

  lemma {:induction false} RunExactFrom(s: State, actions: seq<Action>, t: State)
    requires Inv(s) && Traced(s) && RunOf(s, actions, t) && ReadyRun(s, actions)
    ensures ProperRun(s, actions) <==> SafeRun(s, actions)
    decreases |actions|
  {
    hide Inv, Traced, Apply, Enabled, Proper, Ready, CanFail;
    if |actions| > 0 {
      RuleExact(s, actions[0]);
      if Proper(s, actions[0]) {
        InvKept(s, actions[0]);
        InvSeparate(s);
        TracedKept(s, actions[0]);
        RunExactFrom(Apply(s, actions[0]), actions[1..], t);
      }
    }
  }

  // ---- runs into a failing assertion ----------------------------------------------------------------

  // Worker w is about to run fiber f, which is in a state that an assertion forbids.
  ghost predicate AboutToFail(s: State, w: nat, f: nat, state: FiberState) {
    && Enabled(s, SwapIn(w)) && s.workers[w].phase.task.work == RunFiber(f) && !AssertsHold(s, SwapIn(w))
    && f < |s.fibers| && s.fibers[f].state == state
  }

  // A fiber that has ended is scheduled again.
  lemma EndedRunsAgain()
    ensures exists actions, s :: RunOf(Init(2), actions, s) && AboutToFail(s, 0, 0, TERM)
  {
    var again := Submit(None, RunFiber(0), Anywhere);
    var start := RunningAlone();
    var s4 := Apply(ONE_RUNNING, End(0, ToTerm));
    var s5 := Apply(s4, again);
    assert s5.workers == [Worker(Head, None, false), Worker(Head, None, false)];
    assert s5.fibers == [Fiber(TERM, InQueue, Nobody)] && s5.queue == [Task(RunFiber(0), Anywhere, 1)];
    hide Apply, Enabled, Init, AboutToFail;
    var s6 := TakesFirst(s5, 0);
    EndedInHand(s5, s6);
    var run := RunBefore(s5, Dequeue(0), [], s6);
    run := RunBefore(s4, again, run, s6);
    run := RunBefore(ONE_RUNNING, End(0, ToTerm), run, s6);
    RunJoin(Init(2), start, ONE_RUNNING, run, s6);
  }

  // A worker dequeues the fiber at the front.
  lemma TakesFirst(s: State, w: nat) returns (t: State)
    requires w < |s.workers| && s.workers[w].phase.Head? && |s.fibers| == 1 && s.fibers[0].state != EXEC
    requires |s.queue| > 0 && s.queue[0].work == RunFiber(0) && s.queue[0].pin == Anywhere
    ensures Enabled(s, Dequeue(w)) && t == Apply(s, Dequeue(w))
    ensures t.workers == s.workers[w := s.workers[w].(phase := Took(s.queue[0]))] && t.queue == s.queue[1..]
    ensures t.fibers == [s.fibers[0].(ref := Taken(w))]
  {
    t := Apply(s, Dequeue(w));
    assert FirstEligible(s.queue, s.fibers, w) == 0;
    assert Remove(s.queue, 0) == s.queue[1..];
  }

  lemma EndedInHand(s: State, t: State)
    requires |s.workers| == 2 && |s.queue| > 0 && s.queue[0].work == RunFiber(0)
    requires t.workers == s.workers[0 := s.workers[0].(phase := Took(s.queue[0]))]
    requires |t.fibers| == 1 && t.fibers[0].state == TERM
    ensures AboutToFail(t, 0, 0, TERM)
  {
  }

  // A fiber is scheduled while it is still queued, and two workers dequeue it.
  lemma QueuedTwice()
    ensures exists actions, s :: RunOf(Init(2), actions, s) && AboutToFail(s, 1, 0, EXEC)
  {
    var again := Submit(None, RunFiber(0), Anywhere);
    var s1 := Apply(Init(2), SubmitNew(None, Anywhere));
    var s2 := Apply(s1, again);
    assert s2.queue == [Task(RunFiber(0), Anywhere, 0), Task(RunFiber(0), Anywhere, 1)];
    assert s2.workers == [Worker(Head, None, false), Worker(Head, None, false)];
    assert s2.fibers == [Fiber(INIT, InQueue, Nobody)];
    hide Apply, Enabled, Init, AboutToFail;
    var s3 := TakesFirst(s2, 0);
    var s4 := TakesFirst(s3, 1);
    var s5 := FirstRuns(s4);
    var run := RunBefore(s4, SwapIn(0), [], s5);
    run := RunBefore(s3, Dequeue(1), run, s5);
    run := RunBefore(s2, Dequeue(0), run, s5);
    run := RunBefore(s1, again, run, s5);
    run := RunBefore(Init(2), SubmitNew(None, Anywhere), run, s5);
  }

  lemma FirstRuns(s: State) returns (t: State)
    requires |s.workers| == 2 && |s.fibers| == 1
    requires forall w :: 0 <= w < 2 ==> s.workers[w].phase.Took? && s.workers[w].phase.task.work == RunFiber(0)
    ensures Enabled(s, SwapIn(0)) && t == Apply(s, SwapIn(0)) && AboutToFail(t, 1, 0, EXEC)
  {
    t := Apply(s, SwapIn(0));
    assert t.workers[1] == s.workers[1];
  }
}
