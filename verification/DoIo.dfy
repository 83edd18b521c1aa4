/** do_io as a protocol: operations that retry, wait for their event and arm a timeout, against timer
    callbacks, the dispatch loop and close. A step is one access to what threads share: the timer set,
    the event table, the mark in tinfo or the count of its owners. */
module DoIo {
  import opened Options

  // How a call ends: the value of the system call, ETIMEDOUT, or -1 because addEvent failed.
  datatype Result = Value(n: int) | TimedOut | AddFailed

  // Fresh, Trying: before the system call, the first one or a later one. Blocked: it said EAGAIN.
  // Arming: the timer is set, the event not yet registered. Waiting: yielded with its event registered.
  // Woken: scheduled again. Resumed: its timer cancelled. Failing: addEvent refused, the timer is still
  // to be cancelled. Leaving: the result is known, the frame still owns tinfo.
  datatype Phase =
    | Fresh | Trying | Blocked | Arming | Waiting | Woken | Resumed | Failing
    | Leaving(result: Result) | Done(result: Result)

  // One call of do_io on its own fiber. `cancelled` is tinfo->cancelled and `owners` the count of
  // shared pointers to tinfo; `timer` is the timer of the latest wait. `missed` is bookkeeping: a
  // cancelEvent made for the call did not end a wait of it.
  datatype Call = Call(fd: nat, event: nat, timed: bool, phase: Phase, cancelled: bool, owners: nat,
                       timer: Option<nat>, missed: bool)

  // Armed: in the timer set. Queued: expired, its callback not yet run. Held: OnTimer has locked tinfo.
  // Passed: the callback has locked it too and read no mark. InFlight: it has set the mark and is on
  // its way to cancelEvent. Ending: it is about to let go of both locks. Ran: the callback is over.
  datatype TimerStatus = Armed | Queued | Held | Passed | InFlight | Ending | Ran | Cancelled

  datatype Timer = Timer(owner: nat, status: TimerStatus)

  datatype State = State(calls: seq<Call>, timers: seq<Timer>, events: map<(nat, nat), nat>)

  // What the system call said in the end, EINTR retried.
  datatype Attempt = Finished(n: int) | Again

  datatype Action =
    | Enter(fd: nat, event: nat, timed: bool)
    | Try(c: nat, attempt: Attempt)       // the system call
    | Arm(c: nat)                         // addConditionTimer
    | Register(c: nat, fails: bool)       // addEvent
    | Abandon(c: nat)                     // Timer::cancel after addEvent refused
    | StopTimer(c: nat)                   // Timer::cancel after the wait
    | Check(c: nat)                       // the test of the mark
    | Return(c: nat)
    | Expire(t: nat)
    | Lock(t: nat)                        // OnTimer locks the weak condition
    | Test(t: nat)                        // the callback locks it and tests the mark
    | Mark(t: nat)
    | Cancel(t: nat, fails: bool)         // cancelEvent
    | Finish(t: nat)                      // both locks are let go
    | Report(fd: nat, event: nat)         // dispatch, or cancelAll in close, fires the event

  predicate IsCall(s: State, c: nat, p: Phase) { c < |s.calls| && s.calls[c].phase == p }

  predicate IsTimer(s: State, t: nat, status: TimerStatus) {
    t < |s.timers| && s.timers[t].status == status && s.timers[t].owner < |s.calls|
  }

  predicate Enabled(s: State, a: Action) {
    match a
    case Enter(_, _, _) => true
    case Try(c, _) => IsCall(s, c, Fresh) || IsCall(s, c, Trying)
    case Arm(c) => IsCall(s, c, Blocked)
    case Register(c, fails) =>
      // addEvent asserts that nobody waits for this event of this fd
      IsCall(s, c, Arming) && (fails || (s.calls[c].fd, s.calls[c].event) !in s.events)
    case Abandon(c) => IsCall(s, c, Failing)
    case StopTimer(c) => IsCall(s, c, Woken)
    case Check(c) => IsCall(s, c, Resumed)
    case Return(c) => c < |s.calls| && s.calls[c].phase.Leaving?
    case Expire(t) => IsTimer(s, t, Armed)
    case Lock(t) => IsTimer(s, t, Queued)
    case Test(t) => IsTimer(s, t, Held)
    case Mark(t) => IsTimer(s, t, Passed)
    case Cancel(t, _) => IsTimer(s, t, InFlight)
    case Finish(t) => IsTimer(s, t, Ending)
    case Report(fd, event) => (fd, event) in s.events
  }

  // ---- what the steps do ------------------------------------------------------------------------

  function SetCall(s: State, c: nat, call: Call): State
    requires c < |s.calls|
  {
    s.(calls := s.calls[c := call])
  }

  function SetStatus(s: State, t: nat, status: TimerStatus): State
    requires t < |s.timers|
  {
    s.(timers := s.timers[t := s.timers[t].(status := status)])
  }

  function SetPhase(s: State, c: nat, p: Phase): State
    requires c < |s.calls|
  {
    SetCall(s, c, s.calls[c].(phase := p))
  }

  // Timer::cancel on the timer of the latest wait: it does nothing once the timer has expired.
  function CancelTimer(s: State, t: Option<nat>): State {
    if t.Some? && t.value < |s.timers| && s.timers[t.value].status.Armed? then SetStatus(s, t.value, Cancelled) else s
  }

  // triggerEvent: whoever waits there is scheduled.
  function FireEvent(s: State, fd: nat, event: nat): (t: State)
    ensures |t.calls| == |s.calls| && t.timers == s.timers
  {
    if (fd, event) in s.events then
      var c := s.events[(fd, event)];
      s.(events := s.events - {(fd, event)},
         calls := if c < |s.calls| then s.calls[c := s.calls[c].(phase := Woken)] else s.calls)
    else s
  }

  // A timer's status and its call change together.
  function Both(s: State, t: nat, status: TimerStatus, call: Call): State
    requires t < |s.timers| && s.timers[t].owner < |s.calls|
  {
    SetCall(SetStatus(s, t, status), s.timers[t].owner, call)
  }

  function Less(n: nat, k: nat): nat { if n >= k then n - k else 0 }

  // cancelEvent for the place of the call, whoever waits there.
  function CancelStep(s: State, t: nat, fails: bool): State
    requires t < |s.timers| && s.timers[t].owner < |s.calls|
  {
    var c := s.timers[t].owner;
    var place := (s.calls[c].fd, s.calls[c].event);
    var hit := !fails && place in s.events && s.events[place] == c;
    var u := if fails then s else FireEvent(s, place.0, place.1);
    Both(u, t, Ending, u.calls[c].(missed := u.calls[c].missed || !hit))
  }

  function Apply(s: State, a: Action): State
    requires Enabled(s, a)
  {
    match a
    case Enter(fd, event, timed) => s.(calls := s.calls + [Call(fd, event, timed, Fresh, false, 1, None, false)])
    case Try(c, attempt) =>
      SetPhase(s, c, match attempt case Finished(n) => Leaving(Value(n)) case Again => Blocked)
    case Arm(c) =>
      if s.calls[c].timed then
        SetCall(s, c, s.calls[c].(phase := Arming, timer := Some(|s.timers|))).(timers := s.timers + [Timer(c, Armed)])
      else SetCall(s, c, s.calls[c].(phase := Arming, timer := None))
    case Register(c, fails) =>
      if fails then SetPhase(s, c, Failing)
      else SetPhase(s, c, Waiting).(events := s.events[(s.calls[c].fd, s.calls[c].event) := c])
    case Abandon(c) => CancelTimer(SetPhase(s, c, Leaving(AddFailed)), s.calls[c].timer)
    case StopTimer(c) => CancelTimer(SetPhase(s, c, Resumed), s.calls[c].timer)
    case Check(c) => SetPhase(s, c, if s.calls[c].cancelled then Leaving(TimedOut) else Trying)
    case Return(c) =>
      var call := s.calls[c];
      SetCall(s, c, call.(phase := Done(call.phase.result), owners := Less(call.owners, 1)))
    case Expire(t) => SetStatus(s, t, Queued)
    case Lock(t) =>
      var call := s.calls[s.timers[t].owner];
      if call.owners == 0 then SetStatus(s, t, Ran) else Both(s, t, Held, call.(owners := call.owners + 1))
    case Test(t) =>
      var call := s.calls[s.timers[t].owner];
      Both(s, t, if call.cancelled then Ending else Passed, call.(owners := call.owners + 1))
    case Mark(t) => Both(s, t, InFlight, s.calls[s.timers[t].owner].(cancelled := true))
    case Cancel(t, fails) => CancelStep(s, t, fails)
    case Finish(t) =>
      var call := s.calls[s.timers[t].owner];
      Both(s, t, Ran, call.(owners := Less(call.owners, 2)))
    case Report(fd, event) => FireEvent(s, fd, event)
  }

  // ---- the invariant ----------------------------------------------------------------------------

  // A call waits exactly while the event table holds it at its own place.
  ghost predicate EventsOk(s: State) {
    && (forall k :: k in s.events ==>
         s.events[k] < |s.calls| && s.calls[s.events[k]].phase.Waiting?
         && (s.calls[s.events[k]].fd, s.calls[s.events[k]].event) == k)
    && (forall c :: 0 <= c < |s.calls| && s.calls[c].phase.Waiting? ==>
         (s.calls[c].fd, s.calls[c].event) in s.events && s.events[(s.calls[c].fd, s.calls[c].event)] == c)
  }

  function Weight(status: TimerStatus): nat {
    match status
    case Held => 1
    case Passed => 2
    case InFlight => 2
    case Ending => 2
    case _ => 0
  }

  // The locks on tinfo that callbacks of a call hold.
  function Locks(ts: seq<Timer>, c: nat): nat {
    if |ts| == 0 then 0 else (if ts[0].owner == c then Weight(ts[0].status) else 0) + Locks(ts[1..], c)
  }

  // A callback of the call is past the test and has not made its cancelEvent.
  predicate OnItsWay(status: TimerStatus) { status.Passed? || status.InFlight? }

  ghost predicate Coming(ts: seq<Timer>, c: nat) {
    exists t :: 0 <= t < |ts| && ts[t].owner == c && OnItsWay(ts[t].status)
  }

  // A timer has fired, and its callback has set the mark, found it set or found its call gone.
  predicate HasFired(status: TimerStatus) { status.InFlight? || status.Ending? || status.Ran? }

  ghost predicate OwnTimerFired(ts: seq<Timer>, c: nat) {
    exists t :: 0 <= t < |ts| && ts[t].owner == c && HasFired(ts[t].status)
  }

  predicate Between(p: Phase) { p.Arming? || p.Waiting? || p.Woken? || p.Failing? }

  // A timer is in the set only for the latest wait; what fired marked its call, or found it gone.
  ghost predicate TimerOk(timer: Timer, t: nat, call: Call) {
    && !call.phase.Fresh? && call.timed
    && (timer.status.Armed? ==> call.timer == Some(t) && Between(call.phase))
    && (timer.status.InFlight? || timer.status.Ending? ==> call.cancelled)
    && (timer.status.Ran? ==> call.cancelled || call.phase.Done?)
  }

  // The owners of tinfo are the frame until the call returns, and the locks of callbacks.
  ghost predicate CallOk(call: Call, c: nat, ts: seq<Timer>) {
    && call.owners == (if call.phase.Done? then 0 else 1) + Locks(ts, c)
    && (call.phase.Fresh? ==> !call.cancelled)
    && (call.missed ==> call.cancelled)
    && (call.cancelled ==> OwnTimerFired(ts, c))
    && (call.cancelled && !call.missed && !Coming(ts, c) ==>
         call.phase.Woken? || call.phase.Resumed? || call.phase.Leaving? || call.phase.Done?)
    && ((call.phase.Leaving? || call.phase.Done?) && call.phase.result.TimedOut? ==> call.cancelled)
    && (!call.timed ==> call.timer == None && !call.cancelled)
    && (call.timer.Some? ==> call.timer.value < |ts| && ts[call.timer.value].owner == c)
    && (call.timed && (call.phase.Arming? || call.phase.Waiting?) ==>
         call.timer.Some? && !ts[call.timer.value].status.Cancelled?)
  }

  ghost predicate Inv(s: State) {
    && EventsOk(s)
    && (forall t: nat :: t < |s.timers| ==>
         s.timers[t].owner < |s.calls| && TimerOk(s.timers[t], t, s.calls[s.timers[t].owner]))
    && (forall c: nat :: c < |s.calls| ==> CallOk(s.calls[c], c, s.timers))
  }

  // ---- how sums over timers change ----------------------------------------------------------------

  lemma {:induction false} LocksSame(ts: seq<Timer>, us: seq<Timer>, d: nat)
    requires |ts| <= |us|
    requires forall t :: 0 <= t < |ts| ==> us[t] == ts[t] || (us[t].owner != d && ts[t].owner != d)
    requires forall t :: |ts| <= t < |us| ==> us[t].owner != d || Weight(us[t].status) == 0
    ensures Locks(us, d) == Locks(ts, d)
    decreases |us|
  {
    if |ts| > 0 { LocksSame(ts[1..], us[1..], d); }
    else if |us| > 0 { LocksSame(ts, us[1..], d); }
  }

  lemma {:induction false} LocksAt(ts: seq<Timer>, t: nat, status: TimerStatus)
    requires t < |ts|
    ensures Locks(ts[t := ts[t].(status := status)], ts[t].owner)
         == Locks(ts, ts[t].owner) - Weight(ts[t].status) + Weight(status)
    decreases |ts|
  {
    var us := ts[t := ts[t].(status := status)];
    if t == 0 { assert us[1..] == ts[1..]; }
    else {
      LocksAt(ts[1..], t - 1, status);
      assert us[1..] == ts[1..][t - 1 := ts[t].(status := status)];
    }
  }

  lemma {:induction false} LocksAtLeast(ts: seq<Timer>, t: nat)
    requires t < |ts|
    ensures Locks(ts, ts[t].owner) >= Weight(ts[t].status)
    decreases |ts|
  {
    if t > 0 { LocksAtLeast(ts[1..], t - 1); }
  }

  // One timer of a call changes its status; a timer that has fired stays so.
  lemma StatusChanges(ts: seq<Timer>, t: nat, status: TimerStatus)
    requires t < |ts| && (HasFired(ts[t].status) ==> HasFired(status))
    ensures var us, c := ts[t := ts[t].(status := status)], ts[t].owner;
            && Locks(us, c) == Locks(ts, c) - Weight(ts[t].status) + Weight(status)
            && (OnItsWay(status) ==> Coming(us, c))
            && (Coming(us, c) ==> Coming(ts, c) || OnItsWay(status))
            && (Coming(ts, c) ==> Coming(us, c) || OnItsWay(ts[t].status))
            && (HasFired(status) || OwnTimerFired(ts, c) ==> OwnTimerFired(us, c))
  {
    LocksAt(ts, t, status);
    hide Locks;
    var us, c := ts[t := ts[t].(status := status)], ts[t].owner;
    assert us[t].owner == c && us[t].status == status;
    if Coming(ts, c) {
      var x :| 0 <= x < |ts| && ts[x].owner == c && OnItsWay(ts[x].status);
      assert x == t || us[x] == ts[x];
    }
    if OwnTimerFired(ts, c) {
      var x :| 0 <= x < |ts| && ts[x].owner == c && HasFired(ts[x].status);
      assert x == t || us[x] == ts[x];
    }
  }

  // Timers of other calls change, and timers are put in the set.
  lemma SameForOthers(ts: seq<Timer>, us: seq<Timer>, d: nat)
    requires |ts| <= |us|
    requires forall t :: 0 <= t < |ts| ==> us[t] == ts[t] || (us[t].owner != d && ts[t].owner != d)
    requires forall t :: |ts| <= t < |us| ==> us[t].owner != d || us[t].status.Armed?
    ensures Locks(us, d) == Locks(ts, d)
    ensures Coming(us, d) <==> Coming(ts, d)
    ensures OwnTimerFired(us, d) <==> OwnTimerFired(ts, d)
  {
    LocksSame(ts, us, d);
    hide Locks;
    if Coming(ts, d) {
      var x :| 0 <= x < |ts| && ts[x].owner == d && OnItsWay(ts[x].status);
      assert us[x] == ts[x];
    }
    if OwnTimerFired(ts, d) {
      var x :| 0 <= x < |ts| && ts[x].owner == d && HasFired(ts[x].status);
      assert us[x] == ts[x];
    }
  }

  // ---- every step keeps the invariant ---------------------------------------------------------------

  ghost predicate Own(s: State, c: nat) {
    && c < |s.calls| && CallOk(s.calls[c], c, s.timers)
    && forall t: nat :: t < |s.timers| && s.timers[t].owner == c ==> TimerOk(s.timers[t], t, s.calls[c])
  }

  // A step that changes one call and timers of its own concerns no other call and no other timer.
  lemma Assembled(s: State, u: State, c: nat)
    requires Inv(s) && c < |s.calls| == |u.calls| && u.calls == s.calls[c := u.calls[c]]
    requires |s.timers| <= |u.timers|
    requires forall t :: 0 <= t < |s.timers| ==>
               u.timers[t] == s.timers[t] || u.timers[t].owner == s.timers[t].owner == c
    requires forall t :: |s.timers| <= t < |u.timers| ==> u.timers[t].owner == c
    requires Own(u, c) && EventsOk(u)
    ensures Inv(u)
  {
    hide EventsOk, Locks, Coming, OwnTimerFired, TimerOk;
    forall d: nat | d < |u.calls| ensures CallOk(u.calls[d], d, u.timers) {
      if d != c {
        assert CallOk(s.calls[d], d, s.timers);
        SameForOthers(s.timers, u.timers, d);
      }
    }
    hide CallOk;
    forall t: nat | t < |u.timers|
      ensures u.timers[t].owner < |u.calls| && TimerOk(u.timers[t], t, u.calls[u.timers[t].owner])
    {
      if u.timers[t].owner != c { assert u.timers[t] == s.timers[t]; }
    }
  }

  lemma OwnPart(s: State, c: nat)
    requires Inv(s) && c < |s.calls|
    ensures Own(s, c) && EventsOk(s)
  {
  }

  lemma FireKeeps(s: State, fd: nat, event: nat)
    requires Inv(s)
    ensures Inv(FireEvent(s, fd, event))
  {
    if (fd, event) in s.events {
      var u, c := FireEvent(s, fd, event), s.events[(fd, event)];
      OwnPart(s, c);
      assert s.calls[c].phase.Waiting?;
      assert EventsOk(u);
      assert u.calls[c] == s.calls[c].(phase := Woken);
      hide EventsOk, FireEvent, Locks, Coming, OwnTimerFired;
      assert Own(u, c);
      Assembled(s, u, c);
    }
  }

  lemma EnterKeeps(s: State, fd: nat, event: nat, timed: bool)
    requires Inv(s)
    ensures Inv(Apply(s, Enter(fd, event, timed)))
  {
    var u := Apply(s, Enter(fd, event, timed));
    assert EventsOk(u);
    hide EventsOk;
    forall c: nat | c < |u.calls| ensures CallOk(u.calls[c], c, u.timers) {
      if c < |s.calls| { assert CallOk(s.calls[c], c, s.timers); }
      else { LocksSame([], s.timers, c); }
    }
  }

  ghost predicate NoneArmed(s: State, c: nat) {
    forall t :: 0 <= t < |s.timers| && s.timers[t].owner == c ==> !s.timers[t].status.Armed?
  }

  // Steps of the call itself that leave timers and events alone.
  lemma PhaseKeeps(s: State, c: nat, p: Phase)
    requires Inv(s) && c < |s.calls| && !s.calls[c].phase.Waiting? && !s.calls[c].phase.Done?
    requires match p
             case Blocked => s.calls[c].phase.Fresh? || s.calls[c].phase.Trying?
             case Trying => s.calls[c].phase.Resumed? && !s.calls[c].cancelled
             case Failing => s.calls[c].phase.Arming?
             case Resumed => s.calls[c].phase.Woken? && NoneArmed(s, c)
             case Leaving(AddFailed) => s.calls[c].phase.Failing? && NoneArmed(s, c)
             case Leaving(TimedOut) => s.calls[c].phase.Resumed? && s.calls[c].cancelled
             case Leaving(Value(_)) => s.calls[c].phase.Fresh? || s.calls[c].phase.Trying?
             case _ => false
    ensures Inv(SetPhase(s, c, p))
  {
    var u := SetPhase(s, c, p);
    OwnPart(s, c);
    assert EventsOk(u);
    hide EventsOk, Locks, Coming, OwnTimerFired;
    assert Own(u, c);
    Assembled(s, u, c);
  }

  lemma RegisterKeeps(s: State, c: nat)
    requires Inv(s) && Enabled(s, Register(c, false))
    ensures Inv(Apply(s, Register(c, false)))
  {
    var u := Apply(s, Register(c, false));
    OwnPart(s, c);
    assert EventsOk(u);
    hide EventsOk, Locks, Coming, OwnTimerFired;
    assert Own(u, c);
    Assembled(s, u, c);
  }

  lemma ReturnKeeps(s: State, c: nat)
    requires Inv(s) && Enabled(s, Return(c))
    ensures Inv(Apply(s, Return(c)))
  {
    var u := Apply(s, Return(c));
    OwnPart(s, c);
    assert EventsOk(u);
    hide EventsOk, Locks, Coming, OwnTimerFired;
    assert Own(u, c);
    Assembled(s, u, c);
  }

  lemma ArmKeeps(s: State, c: nat)
    requires Inv(s) && Enabled(s, Arm(c))
    ensures Inv(Apply(s, Arm(c)))
  {
    var u := Apply(s, Arm(c));
    OwnPart(s, c);
    assert EventsOk(u);
    hide Inv, EventsOk;
    ArmOwn(s, c);
    hide Own;
    Assembled(s, u, c);
  }

  lemma ArmOwn(s: State, c: nat)
    requires Own(s, c) && Enabled(s, Arm(c))
    ensures Own(Apply(s, Arm(c)), c)
  {
    SameForOthers(s.timers, Apply(s, Arm(c)).timers, c);
    hide Locks, Coming, OwnTimerFired;
  }

  // A timer moves on, and its call with it: the phase stays, and a mark too.
  lemma TimerKeeps(s: State, t: nat, status: TimerStatus, call: Call)
    requires Inv(s) && t < |s.timers| && (HasFired(s.timers[t].status) ==> HasFired(status))
    requires var own := s.calls[s.timers[t].owner];
             && (own.cancelled ==> call.cancelled)
             && call == own.(cancelled := call.cancelled, owners := call.owners, missed := call.missed)
    requires CallOk(call, s.timers[t].owner, SetStatus(s, t, status).timers)
    requires TimerOk(s.timers[t].(status := status), t, call)
    ensures Inv(Both(s, t, status, call))
  {
    var u, c := Both(s, t, status, call), s.timers[t].owner;
    OwnPart(s, c);
    assert EventsOk(u);
    hide EventsOk, CallOk;
    assert Own(u, c);
    Assembled(s, u, c);
  }

  // The call stops its timer on its way out of the wait.
  lemma StopKeeps(s: State, c: nat, p: Phase)
    requires Inv(s)
    requires (IsCall(s, c, Woken) && p == Resumed) || (IsCall(s, c, Failing) && p == Leaving(AddFailed))
    ensures Inv(CancelTimer(SetPhase(s, c, p), s.calls[c].timer))
  {
    var x := s.calls[c].timer;
    OwnPart(s, c);
    if x.Some? && s.timers[x.value].status.Armed? {
      var m := SetStatus(s, x.value, Cancelled);
      StatusChanges(s.timers, x.value, Cancelled);
      assert Both(s, x.value, Cancelled, s.calls[c]) == m;
      assert SetPhase(m, c, p) == CancelTimer(SetPhase(s, c, p), x);
      assert NoneArmed(m, c);
      hide Inv, EventsOk, Locks, Coming, OwnTimerFired, NoneArmed;
      TimerKeeps(s, x.value, Cancelled, s.calls[c]);
      PhaseKeeps(m, c, p);
    } else {
      assert NoneArmed(s, c);
      hide Inv, EventsOk, NoneArmed;
      PhaseKeeps(s, c, p);
    }
  }

  lemma ExpireKeeps(s: State, t: nat)
    requires Inv(s) && Enabled(s, Expire(t))
    ensures Inv(Apply(s, Expire(t)))
  {
    var call := s.calls[s.timers[t].owner];
    StatusChanges(s.timers, t, Queued);
    assert Both(s, t, Queued, call) == Apply(s, Expire(t));
    hide Locks, Coming, OwnTimerFired;
    TimerKeeps(s, t, Queued, call);
  }

  lemma OwnersChange(call: Call, c: nat, ts: seq<Timer>, t: nat, status: TimerStatus, owners: nat)
    requires t < |ts| && CallOk(call, c, ts) && !status.Cancelled?
    requires var us := ts[t := ts[t].(status := status)];
             && owners == (if call.phase.Done? then 0 else 1) + Locks(us, c)
             && (Coming(ts, c) ==> Coming(us, c)) && (OwnTimerFired(ts, c) ==> OwnTimerFired(us, c))
    ensures CallOk(call.(owners := owners), c, ts[t := ts[t].(status := status)])
  {
    hide Locks, Coming, OwnTimerFired;
  }

  predicate MovesOn(status: TimerStatus, next: TimerStatus, cancelled: bool) {
    match status
    case Queued => next.Held?
    case Held => if cancelled then next.Ending? else next.Passed?
    case Ending => next.Ran?
    case _ => false
  }

  // A callback takes or gives back locks, or moves between its places without one.
  lemma LocksKeep(s: State, t: nat, status: TimerStatus)
    requires Inv(s) && t < |s.timers| && IsTimer(s, t, s.timers[t].status)
    requires MovesOn(s.timers[t].status, status, s.calls[s.timers[t].owner].cancelled)
    ensures var call := s.calls[s.timers[t].owner];
            && call.owners + Weight(status) >= Weight(s.timers[t].status)
            && Inv(Both(s, t, status, call.(owners := call.owners + Weight(status) - Weight(s.timers[t].status))))
  {
    var c := s.timers[t].owner;
    var call := s.calls[c];
    LocksAtLeast(s.timers, t);
    StatusChanges(s.timers, t, status);
    OwnPart(s, c);
    hide Inv, EventsOk, Locks, Coming, OwnTimerFired;
    var next := call.(owners := call.owners + Weight(status) - Weight(s.timers[t].status));
    assert TimerOk(s.timers[t].(status := status), t, next);
    hide MovesOn, Weight;
    OwnersChange(call, c, s.timers, t, status, next.owners);
    hide TimerOk, CallOk;
    TimerKeeps(s, t, status, next);
  }

  lemma LockKeeps(s: State, t: nat)
    requires Inv(s) && Enabled(s, Lock(t))
    ensures Inv(Apply(s, Lock(t)))
  {
    var c := s.timers[t].owner;
    var call := s.calls[c];
    if call.owners == 0 {
      StatusChanges(s.timers, t, Ran);
      assert Both(s, t, Ran, call) == Apply(s, Lock(t));
      OwnPart(s, c);
      hide Inv, EventsOk, Locks, Coming, OwnTimerFired, Apply;
      TimerKeeps(s, t, Ran, call);
    } else {
      hide Inv;
      LocksKeep(s, t, Held);
    }
  }

  lemma TestKeeps(s: State, t: nat)
    requires Inv(s) && Enabled(s, Test(t))
    ensures Inv(Apply(s, Test(t)))
  {
    hide Inv;
    LocksKeep(s, t, if s.calls[s.timers[t].owner].cancelled then Ending else Passed);
  }

  lemma FinishKeeps(s: State, t: nat)
    requires Inv(s) && Enabled(s, Finish(t))
    ensures Inv(Apply(s, Finish(t)))
  {
    hide Inv;
    LocksKeep(s, t, Ran);
  }

  lemma MarkKeeps(s: State, t: nat)
    requires Inv(s) && Enabled(s, Mark(t))
    ensures Inv(Apply(s, Mark(t)))
  {
    var c := s.timers[t].owner;
    StatusChanges(s.timers, t, InFlight);
    OwnPart(s, c);
    hide Inv, EventsOk, Locks, Coming, OwnTimerFired;
    TimerKeeps(s, t, InFlight, s.calls[c].(cancelled := true));
  }

  lemma CancelKeeps(s: State, t: nat, fails: bool)
    requires Inv(s) && Enabled(s, Cancel(t, fails))
    ensures Inv(Apply(s, Cancel(t, fails)))
  {
    var c := s.timers[t].owner;
    var place := (s.calls[c].fd, s.calls[c].event);
    var u := if fails then s else FireEvent(s, place.0, place.1);
    FireKeeps(s, place.0, place.1);
    var hit := !fails && place in s.events && s.events[place] == c;
    assert hit ==> u.calls[c].phase.Woken?;
    hide Inv, EventsOk, Locks, Coming, OwnTimerFired, FireEvent, CallOk, TimerOk;
    LandingKeeps(u, t, u.calls[c].missed || !hit);
  }

  // The callback has made its cancelEvent.
  lemma LandingKeeps(u: State, t: nat, missed: bool)
    requires Inv(u) && IsTimer(u, t, InFlight)
    requires var call := u.calls[u.timers[t].owner]; (call.missed ==> missed) && (missed || call.phase.Woken?)
    ensures Inv(Both(u, t, Ending, u.calls[u.timers[t].owner].(missed := missed)))
  {
    var c := u.timers[t].owner;
    StatusChanges(u.timers, t, Ending);
    OwnPart(u, c);
    hide Inv, EventsOk, Locks, Coming, OwnTimerFired;
    TimerKeeps(u, t, Ending, u.calls[c].(missed := missed));
  }

  // Every step keeps the invariant.
  lemma InvKept(s: State, a: Action)
    requires Inv(s) && Enabled(s, a)
    ensures Inv(Apply(s, a))
  {
    match a {
      case Enter(fd, event, timed) => EnterKeeps(s, fd, event, timed);
      case Try(c, attempt) => PhaseKeeps(s, c, if attempt.Again? then Blocked else Leaving(Value(attempt.n)));
      case Arm(c) => ArmKeeps(s, c);
      case Register(c, fails) => if fails { PhaseKeeps(s, c, Failing); } else { RegisterKeeps(s, c); }
      case Abandon(c) => StopKeeps(s, c, Leaving(AddFailed));
      case StopTimer(c) => StopKeeps(s, c, Resumed);
      case Check(c) => PhaseKeeps(s, c, if s.calls[c].cancelled then Leaving(TimedOut) else Trying);
      case Return(c) => ReturnKeeps(s, c);
      case Expire(t) => ExpireKeeps(s, t);
      case Lock(t) => LockKeeps(s, t);
      case Test(t) => TestKeeps(s, t);
      case Mark(t) => MarkKeeps(s, t);
      case Cancel(t, fails) => CancelKeeps(s, t, fails);
      case Finish(t) => FinishKeeps(s, t);
      case Report(fd, event) => FireKeeps(s, fd, event);
    }
  }

  // ---- whole runs ---------------------------------------------------------------------------------

  ghost predicate RunOf(s: State, actions: seq<Action>, t: State)
    decreases |actions|
  {
    if |actions| == 0 then t == s
    else Enabled(s, actions[0]) && RunOf(Apply(s, actions[0]), actions[1..], t)
  }

  const START := State([], [], map[])

  // The state after some run from the start.
  ghost predicate Reached(s: State) {
    exists actions :: RunOf(START, actions, s)
  }

  lemma {:induction false} RunInv(s: State, actions: seq<Action>, t: State)
    requires Inv(s) && RunOf(s, actions, t)
    ensures Inv(t)
    decreases |actions|
  {
    hide Inv, Apply, Enabled;
    if |actions| > 0 {
      InvKept(s, actions[0]);
      RunInv(Apply(s, actions[0]), actions[1..], t);
    }
  }

  lemma ReachedInv(s: State)
    requires Reached(s)
    ensures Inv(s)
  {
    var actions :| RunOf(START, actions, s);
    RunInv(START, actions, s);
  }

  lemma {:induction false} RunThen(s: State, actions: seq<Action>, t: State, a: Action)
    requires RunOf(s, actions, t) && Enabled(t, a)
    ensures RunOf(s, actions + [a], Apply(t, a))
    decreases |actions|
  {
    hide Apply, Enabled;
    if |actions| == 0 {
      assert actions + [a] == [a];
    } else {
      RunThen(Apply(s, actions[0]), actions[1..], t, a);
      assert (actions + [a])[1..] == actions[1..] + [a];
    }
  }

  lemma Then(s: State, a: Action)
    requires Reached(s) && Enabled(s, a)
    ensures Reached(Apply(s, a))
  {
    hide Apply, Enabled;
    var actions :| RunOf(START, actions, s);
    RunThen(START, actions, s, a);
  }

  // ---- what holds after every run -------------------------------------------------------------------

  // A call that has returned has no registered event and no live timer, and if it reported ETIMEDOUT a
  // timer of its own had fired.
  lemma Returned(s: State, c: nat)
    requires Reached(s) && c < |s.calls| && s.calls[c].phase.Done?
    ensures forall k :: k in s.events ==> s.events[k] != c
    ensures NoneArmed(s, c)
    ensures s.calls[c].phase.result == TimedOut ==> s.calls[c].timed && OwnTimerFired(s.timers, c)
  {
    ReachedInv(s);
    OwnPart(s, c);
    hide Locks, Coming, OwnTimerFired;
  }

  // A call without a timeout has no timer, and nothing marks it or times it out.
  lemma NoTimeout(s: State, c: nat)
    requires Reached(s) && c < |s.calls| && !s.calls[c].timed
    ensures s.calls[c].timer == None && forall t :: 0 <= t < |s.timers| ==> s.timers[t].owner != c
    ensures !s.calls[c].cancelled
    ensures s.calls[c].phase.Leaving? || s.calls[c].phase.Done? ==> s.calls[c].phase.result != TimedOut
  {
    ReachedInv(s);
    OwnPart(s, c);
    hide Locks, Coming, OwnTimerFired;
    forall t: nat | t < |s.timers| ensures s.timers[t].owner != c {
      assert TimerOk(s.timers[t], t, s.calls[s.timers[t].owner]);
    }
  }

  // ---- what the results of calls come from ----------------------------------------------------------

  // The result of a call, once it is known.
  function Outcome(s: State, c: nat): Option<Result> {
    if c < |s.calls| && (s.calls[c].phase.Leaving? || s.calls[c].phase.Done?) then Some(s.calls[c].phase.result)
    else None
  }

  lemma OutcomeStep(s: State, a: Action, c: nat)
    requires Inv(s) && Enabled(s, a)
    ensures Outcome(Apply(s, a), c) ==
            match a
            case Try(d, Finished(n)) => if d == c then Some(Value(n)) else Outcome(s, c)
            case Check(d) => if d == c && s.calls[d].cancelled then Some(TimedOut) else Outcome(s, c)
            case Abandon(d) => if d == c then Some(AddFailed) else Outcome(s, c)
            case _ => Outcome(s, c)
    ensures Outcome(s, c).Some? ==> Outcome(Apply(s, a), c) == Outcome(s, c)
  {
    hide CallOk, TimerOk, Locks;
  }

  lemma {:induction false} OutcomeRun(s: State, actions: seq<Action>, t: State, c: nat)
    requires Inv(s) && RunOf(s, actions, t)
    ensures forall n :: Outcome(t, c) == Some(Value(n)) <==>
              Outcome(s, c) == Some(Value(n)) || Try(c, Finished(n)) in actions
    ensures Outcome(t, c) == Some(AddFailed) <==> Outcome(s, c) == Some(AddFailed) || Abandon(c) in actions
    ensures Outcome(t, c) == Some(TimedOut) ==> Outcome(s, c) == Some(TimedOut) || Check(c) in actions
    decreases |actions|
  {
    hide Inv, Apply, Enabled, Outcome;
    if |actions| > 0 {
      InvKept(s, actions[0]);
      OutcomeStep(s, actions[0], c);
      OutcomeRun(Apply(s, actions[0]), actions[1..], t, c);
      assert actions == [actions[0]] + actions[1..];
    }
  }

  // Over every run a call returns the value n if and only if that is what a system call of it said, -1
  // if and only if addEvent refused it, and ETIMEDOUT only at a test of the mark, if it has a timeout
  // and a timer of it fired.
  lemma Results(actions: seq<Action>, s: State, c: nat)
    requires RunOf(START, actions, s)
    ensures forall n :: Outcome(s, c) == Some(Value(n)) <==> Try(c, Finished(n)) in actions
    ensures Outcome(s, c) == Some(AddFailed) <==> Abandon(c) in actions
    ensures Outcome(s, c) == Some(TimedOut) ==>
              Check(c) in actions && s.calls[c].timed && OwnTimerFired(s.timers, c)
  {
    OutcomeRun(START, actions, s, c);
    assert Reached(s);
    ReachedInv(s);
    if Outcome(s, c) == Some(TimedOut) { OwnPart(s, c); }
  }

  // The calls in the order in which they were entered.
  function Entries(actions: seq<Action>): seq<Action> {
    if |actions| == 0 then []
    else (if actions[0].Enter? then [actions[0]] else []) + Entries(actions[1..])
  }

  predicate SameArguments(x: Call, y: Call) { x.fd == y.fd && x.event == y.event && x.timed == y.timed }

  // Every call keeps the fd, the event and the timeout it was entered with.
  lemma {:induction false} CallsEntered(s: State, actions: seq<Action>, t: State)
    requires RunOf(s, actions, t)
    ensures |t.calls| == |s.calls| + |Entries(actions)|
    ensures forall c :: 0 <= c < |s.calls| ==> SameArguments(t.calls[c], s.calls[c])
    ensures forall c :: |s.calls| <= c < |t.calls| ==>
              Entries(actions)[c - |s.calls|] == Enter(t.calls[c].fd, t.calls[c].event, t.calls[c].timed)
    decreases |actions|
  {
    hide Apply, Enabled;
    if |actions| > 0 {
      ArgumentsKept(s, actions[0]);
      CallsEntered(Apply(s, actions[0]), actions[1..], t);
    }
  }

  lemma ArgumentsKept(s: State, a: Action)
    requires Enabled(s, a)
    ensures var t := Apply(s, a);
            && |t.calls| == |s.calls| + (if a.Enter? then 1 else 0)
            && (a.Enter? ==> var call := t.calls[|s.calls|]; a == Enter(call.fd, call.event, call.timed))
            && forall c :: 0 <= c < |s.calls| ==> SameArguments(t.calls[c], s.calls[c])
  {
    match a
    case Report(fd, event) => FireKeepsArguments(s, fd, event);
    case Cancel(t, fails) =>
      FireKeepsArguments(s, s.calls[s.timers[t].owner].fd, s.calls[s.timers[t].owner].event);
      hide FireEvent;
    case _ => hide FireEvent;
  }

  lemma FireKeepsArguments(s: State, fd: nat, event: nat)
    ensures forall c :: 0 <= c < |s.calls| ==> SameArguments(FireEvent(s, fd, event).calls[c], s.calls[c])
  {
  }

  // ---- where the steps take calls and timers --------------------------------------------------------

  // The way of a call: it tries, and when it is told to try again it arms its timer, registers, waits,
  // is woken, stops its timer, tests the mark and tries again.
  predicate NextPhase(a: Action, c: nat, p: Phase, q: Phase) {
    match a
    case Try(d, attempt) =>
      if d == c then (p.Fresh? || p.Trying?) && q == (if attempt.Again? then Blocked else Leaving(Value(attempt.n)))
      else q == p
    case Arm(d) => if d == c then p.Blocked? && q.Arming? else q == p
    case Register(d, fails) => if d == c then p.Arming? && (if fails then q.Failing? else q.Waiting?) else q == p
    case Abandon(d) => if d == c then p.Failing? && q == Leaving(AddFailed) else q == p
    case StopTimer(d) => if d == c then p.Woken? && q.Resumed? else q == p
    case Check(d) => if d == c then p.Resumed? && (q.Trying? || q == Leaving(TimedOut)) else q == p
    case Return(d) => if d == c then p.Leaving? && q == Done(p.result) else q == p
    case Report(_, _) => q == p || (p.Waiting? && q.Woken?)
    case Cancel(_, fails) => q == p || (!fails && p.Waiting? && q.Woken?)
    case _ => q == p
  }

  // No step takes a call any other way, and what an event wakes is the one call that waits for it.
  lemma CallMoves(s: State, a: Action, c: nat)
    requires Inv(s) && Enabled(s, a) && c < |s.calls|
    ensures c < |Apply(s, a).calls| && NextPhase(a, c, s.calls[c].phase, Apply(s, a).calls[c].phase)
    ensures a.Report? ==> (Apply(s, a).calls[c].phase != s.calls[c].phase <==>
                             s.calls[c].phase.Waiting? && s.calls[c].fd == a.fd && s.calls[c].event == a.event)
  {
    hide CallOk, TimerOk, Locks, CancelTimer, Coming, OwnTimerFired;
    if a.Abandon? || a.StopTimer? { CancelKeepsCalls(s, a.c, if a.Abandon? then Leaving(AddFailed) else Resumed); }
  }

  lemma CancelKeepsCalls(s: State, c: nat, p: Phase)
    requires c < |s.calls|
    ensures CancelTimer(SetPhase(s, c, p), s.calls[c].timer).calls == SetPhase(s, c, p).calls
  {
  }

  // The way of a timer: it expires or is stopped, and its callback locks tinfo, tests the mark, sets it,
  // cancels the event and lets go; or it finds tinfo gone, or the mark set.
  predicate NextStatus(a: Action, t: nat, p: TimerStatus, q: TimerStatus) {
    match a
    case Expire(u) => if u == t then p.Armed? && q.Queued? else q == p
    case Lock(u) => if u == t then p.Queued? && (q.Held? || q.Ran?) else q == p
    case Test(u) => if u == t then p.Held? && (q.Passed? || q.Ending?) else q == p
    case Mark(u) => if u == t then p.Passed? && q.InFlight? else q == p
    case Cancel(u, _) => if u == t then p.InFlight? && q.Ending? else q == p
    case Finish(u) => if u == t then p.Ending? && q.Ran? else q == p
    case Abandon(_) => q == p || (p.Armed? && q.Cancelled?)
    case StopTimer(_) => q == p || (p.Armed? && q.Cancelled?)
    case _ => q == p
  }

  lemma TimerMoves(s: State, a: Action, t: nat)
    requires Enabled(s, a) && t < |s.timers|
    ensures t < |Apply(s, a).timers| && NextStatus(a, t, s.timers[t].status, Apply(s, a).timers[t].status)
    ensures a.Abandon? || a.StopTimer? ==>
              (Apply(s, a).timers[t].status.Cancelled? && !s.timers[t].status.Cancelled?
               <==> s.calls[a.c].timer == Some(t) && s.timers[t].status.Armed?)
    ensures Apply(s, a).timers[t].owner == s.timers[t].owner
    ensures |Apply(s, a).timers| == |s.timers| + if a.Arm? && s.calls[a.c].timed then 1 else 0
    ensures a.Arm? && s.calls[a.c].timed ==> Apply(s, a).timers[|s.timers|] == Timer(a.c, Armed)
  {
    if a.Cancel? { hide FireEvent; }
  }

  // The test after a wait finds the mark exactly if a timer of the call has fired and its callback has
  // set the mark by then. A callback that has only passed its own test goes unnoticed.
  lemma Checked(s: State, c: nat)
    requires Reached(s) && Enabled(s, Check(c))
    ensures Apply(s, Check(c)).calls[c].phase
         == if OwnTimerFired(s.timers, c) then Leaving(TimedOut) else Trying
  {
    ReachedInv(s);
    OwnPart(s, c);
    if OwnTimerFired(s.timers, c) {
      var t: nat :| t < |s.timers| && s.timers[t].owner == c && HasFired(s.timers[t].status);
      assert TimerOk(s.timers[t], t, s.calls[c]);
    }
  }

  // A callback of the call owns tinfo.
  ghost predicate Holding(ts: seq<Timer>, c: nat) {
    exists t :: 0 <= t < |ts| && ts[t].owner == c && Weight(ts[t].status) > 0
  }

  lemma {:induction false} LocksHeld(ts: seq<Timer>, c: nat)
    ensures Locks(ts, c) > 0 <==> Holding(ts, c)
    decreases |ts|
  {
    if Holding(ts, c) {
      var t: nat :| t < |ts| && ts[t].owner == c && Weight(ts[t].status) > 0;
      LocksAtLeast(ts, t);
    }
    if Locks(ts, c) > 0 && !(ts[0].owner == c && Weight(ts[0].status) > 0) {
      LocksHeld(ts[1..], c);
      var t: nat :| t < |ts[1..]| && ts[1..][t].owner == c && Weight(ts[1..][t].status) > 0;
      assert ts[t + 1] == ts[1..][t];
    }
  }

  // tinfo is alive exactly while its call has not returned or a callback of it holds it.
  lemma TinfoAlive(s: State, c: nat)
    requires Reached(s) && c < |s.calls|
    ensures s.calls[c].owners > 0 <==> !s.calls[c].phase.Done? || Holding(s.timers, c)
  {
    ReachedInv(s);
    OwnPart(s, c);
    LocksHeld(s.timers, c);
  }

  // A callback that is run after its call returned changes no event and no call if no other callback of
  // the call holds tinfo; otherwise it gets hold of tinfo as well and goes on.
  lemma StaleCallback(s: State, t: nat)
    requires Reached(s) && Enabled(s, Lock(t)) && s.calls[s.timers[t].owner].phase.Done?
    ensures var c, u := s.timers[t].owner, Apply(s, Lock(t));
            && (u.timers[t].status.Ran? && u.calls == s.calls <==> !Holding(s.timers, c))
            && (u.timers[t].status.Held? && u.calls[c].owners > s.calls[c].owners <==> Holding(s.timers, c))
            && u.events == s.events
  {
    TinfoAlive(s, s.timers[t].owner);
  }

  // Once a call has returned and no callback of it holds tinfo, none ever will: whatever runs later, the
  // call stays as it is and no callback of it reaches cancelEvent.
  lemma {:induction false} DeadStays(s: State, actions: seq<Action>, u: State, c: nat)
    requires Reached(s) && c < |s.calls| && s.calls[c].phase.Done? && !Holding(s.timers, c) && RunOf(s, actions, u)
    ensures c < |u.calls| && u.calls[c] == s.calls[c] && !Holding(u.timers, c)
    ensures forall t: nat, fails :: Enabled(u, Cancel(t, fails)) ==> u.timers[t].owner != c
    decreases |actions|
  {
    if |actions| > 0 {
      var m := Apply(s, actions[0]);
      Then(s, actions[0]);
      DeadStep(s, actions[0], c);
      DeadStays(m, actions[1..], u, c);
    }
  }

  lemma DeadStep(s: State, a: Action, c: nat)
    requires Reached(s) && Enabled(s, a) && c < |s.calls| && s.calls[c].phase.Done? && !Holding(s.timers, c)
    ensures var u := Apply(s, a); c < |u.calls| && u.calls[c] == s.calls[c] && !Holding(u.timers, c)
  {
    var u := Apply(s, a);
    ReachedInv(s);
    OwnPart(s, c);
    TinfoAlive(s, c);
    LeftAlone(s, a, c);
    hide Apply, Enabled, Inv, CallOk, EventsOk;
    Then(s, a);
    TinfoAlive(u, c);
  }

  lemma LeftAlone(s: State, a: Action, c: nat)
    requires EventsOk(s) && Enabled(s, a) && c < |s.calls| && s.calls[c].phase.Done? && !Holding(s.timers, c)
    requires s.calls[c].owners == 0
    ensures var u := Apply(s, a); c < |u.calls| && u.calls[c] == s.calls[c]
  {
    match a
    case Test(t) => assert s.timers[t].owner != c;
    case Mark(t) => assert s.timers[t].owner != c;
    case Finish(t) => assert s.timers[t].owner != c;
    case Cancel(t, fails) => assert s.timers[t].owner != c;
    case _ =>
  }

  // A callback at its cancelEvent, whether its call is still there or has returned, ends the wait of
  // another call exactly when that call waits at the same event by then. The other is woken, not timed out.
  lemma ForeignCancel(s: State, t: nat, fails: bool, d: nat)
    requires Reached(s) && Enabled(s, Cancel(t, fails)) && d < |s.calls| && d != s.timers[t].owner
    ensures var u, own := Apply(s, Cancel(t, fails)), s.calls[s.timers[t].owner];
            && (s.calls[d].phase.Waiting? && !u.calls[d].phase.Waiting? <==>
                  !fails && s.calls[d].phase.Waiting? && (s.calls[d].fd, s.calls[d].event) == (own.fd, own.event))
            && u.calls[d].cancelled == s.calls[d].cancelled
            && (u.calls[d] == s.calls[d] || u.calls[d] == s.calls[d].(phase := Woken))
            && (own.phase.Waiting? && !fails ==> u.calls[d] == s.calls[d])
  {
    ReachedInv(s);
  }

  // The wait still has something of the call's own to end it: a callback past its test, or the timer of
  // the wait, if it has not got that far and will find the call unmarked.
  ghost predicate StillToEnd(s: State, c: nat)
    requires c < |s.calls|
  {
    var x := s.calls[c].timer;
    Coming(s.timers, c)
    || (!s.calls[c].cancelled && x.Some? && x.value < |s.timers|
        && (s.timers[x.value].status.Armed? || s.timers[x.value].status.Queued? || s.timers[x.value].status.Held?))
  }

  // A wait with a timeout still has something to end it, exactly unless a cancelEvent of the call has
  // missed it and no other is on its way.
  lemma TimedWait(s: State, c: nat)
    requires Reached(s) && c < |s.calls| && s.calls[c].phase.Waiting? && s.calls[c].timed
    ensures StillToEnd(s, c) <==> !s.calls[c].missed || Coming(s.timers, c)
  {
    ReachedInv(s);
    OwnPart(s, c);
    var x := s.calls[c].timer.value;
    assert TimerOk(s.timers[x], x, s.calls[c]);
    if OnItsWay(s.timers[x].status) { assert Coming(s.timers, c); }
  }

  // When a cancelEvent misses its call: exactly when it fails or the call is not waiting at that moment.
  lemma Misses(s: State, t: nat, fails: bool)
    requires Reached(s) && Enabled(s, Cancel(t, fails))
    ensures var c := s.timers[t].owner;
            Apply(s, Cancel(t, fails)).calls[c].missed <==>
              s.calls[c].missed || fails || !s.calls[c].phase.Waiting?
  {
    ReachedInv(s);
  }

  // ---- runs in which it happens ---------------------------------------------------------------------

  // A new call enters, is told EAGAIN and waits with a timeout.
  function Waits(s: State): State {
    State(s.calls + [Call(3, 1, true, Waiting, false, 1, Some(|s.timers|), false)],
          s.timers + [Timer(|s.calls|, Armed)], s.events[(3, 1) := |s.calls|])
  }

  lemma NewWait(s: State)
    requires Reached(s) && (3, 1) !in s.events
    ensures Reached(Waits(s))
  {
    var c := |s.calls|;
    var s1 := Apply(s, Enter(3, 1, true));
    var s2 := Apply(s1, Try(c, Again));
    var s3 := Apply(s2, Arm(c));
    var s4 := Apply(s3, Register(c, false));
    assert s4 == Waits(s);
    hide Apply, Enabled, Waits, Reached;
    Then(s, Enter(3, 1, true));
    Then(s1, Try(c, Again));
    Then(s2, Arm(c));
    Then(s3, Register(c, false));
  }

  lemma Started()
    ensures Reached(START)
  {
    assert RunOf(START, [], START);
  }

  // The event of a waiting call comes before any mark, and the fiber goes round to the system call.
  lemma Rounds(s: State, c: nat, u: State)
    requires Reached(s) && IsCall(s, c, Waiting) && !s.calls[c].cancelled
    requires s.events == map[(s.calls[c].fd, s.calls[c].event) := c]
    requires u == CancelTimer(SetPhase(s, c, Trying).(events := map[]), s.calls[c].timer)
    ensures Reached(u)
  {
    var call := s.calls[c];
    var s1 := Apply(s, Report(call.fd, call.event));
    var s2 := Apply(s1, StopTimer(c));
    assert u == Apply(s2, Check(c));
    hide Apply, Reached;
    Then(s, Report(call.fd, call.event));
    Then(s1, StopTimer(c));
    Then(s2, Check(c));
  }

  // The system call succeeds and do_io returns.
  lemma Answers(s: State, c: nat, n: int, u: State)
    requires Reached(s) && IsCall(s, c, Trying)
    requires u == SetCall(s, c, s.calls[c].(phase := Done(Value(n)), owners := Less(s.calls[c].owners, 1)))
    ensures Reached(u)
  {
    var s1 := Apply(s, Try(c, Finished(n)));
    assert u == Apply(s1, Return(c));
    hide Apply, Reached;
    Then(s, Try(c, Finished(n)));
    Then(s1, Return(c));
  }

  // A callback that holds tinfo finds no mark and sets it.
  lemma Marks(s: State, t: nat, u: State)
    requires Reached(s) && IsTimer(s, t, Held) && !s.calls[s.timers[t].owner].cancelled
    requires var call := s.calls[s.timers[t].owner];
             u == Both(s, t, InFlight, call.(cancelled := true, owners := call.owners + 1))
    ensures Reached(u)
  {
    var s1 := Apply(s, Test(t));
    assert u == Apply(s1, Mark(t));
    hide Apply, Reached;
    Then(s, Test(t));
    Then(s1, Mark(t));
  }

  // One call with one timer.
  function One(phase: Phase, cancelled: bool, owners: nat, missed: bool, status: TimerStatus): State {
    State([Call(3, 1, true, phase, cancelled, owners, Some(0), missed)], [Timer(0, status)],
          if phase.Waiting? then map[(3, 1) := 0] else map[])
  }

  lemma Expired()
    ensures Reached(One(Waiting, false, 1, false, Queued))
  {
    Started();
    NewWait(START);
    var s := One(Waiting, false, 1, false, Armed);
    assert Waits(START) == s;
    assert Apply(s, Expire(0)) == One(Waiting, false, 1, false, Queued);
    hide Reached, Apply;
    Then(s, Expire(0));
  }

  // The callback tests the mark before do_io does and sets it afterwards: do_io returns the value of
  // the system call with the callback in flight.
  lemma ValueInFlight()
    ensures Reached(One(Done(Value(5)), true, 2, false, InFlight))
  {
    var s1, s2 := One(Waiting, false, 3, false, Passed), One(Trying, false, 3, false, Passed);
    var s3 := One(Trying, true, 3, false, InFlight);
    assert s3 == Apply(s2, Mark(0));
    hide Apply, Reached;
    PassedTest();
    Rounds(s1, 0, s2);
    Then(s2, Mark(0));
    Answers(s3, 0, 5, One(Done(Value(5)), true, 2, false, InFlight));
  }

  lemma PassedTest()
    ensures Reached(One(Waiting, false, 3, false, Passed))
  {
    var s0, s1 := One(Waiting, false, 1, false, Queued), One(Waiting, false, 2, false, Held);
    assert s1 == Apply(s0, Lock(0)) && One(Waiting, false, 3, false, Passed) == Apply(s1, Test(0));
    hide Apply, Reached;
    Expired();
    Then(s0, Lock(0));
    Then(s1, Test(0));
  }

  // The call has returned the value of the system call, the next one starts to wait on the same event,
  // and only then the callback gets to cancelEvent and ends that wait.
  lemma ForeignCancelHappens()
    ensures exists s :: Reached(s) && |s.calls| == 2
              && s.calls[0].phase == Done(Value(5)) && s.calls[1].phase.Woken? && !s.calls[1].cancelled
              && s.timers == [Timer(0, Ending), Timer(1, Armed)]
  {
    var s := One(Done(Value(5)), true, 2, false, InFlight);
    ValueInFlight();
    NewWait(s);
    var m := State(s.calls + [Call(3, 1, true, Waiting, false, 1, Some(1), false)],
                   [Timer(0, InFlight), Timer(1, Armed)], map[(3, 1) := 1]);
    assert Waits(s) == m;
    var u := Apply(m, Cancel(0, false));
    assert u.timers == [Timer(0, Ending), Timer(1, Armed)] && |u.calls| == 2;
    assert u.calls[0].phase == Done(Value(5)) && u.calls[1].phase.Woken? && !u.calls[1].cancelled;
    hide Apply, Reached;
    Then(m, Cancel(0, false));
  }

  // Call 0 waits again while the callback of its first wait is still queued.
  const AGAIN := State([Call(3, 1, true, Waiting, false, 1, Some(1), false)],
                       [Timer(0, Queued), Timer(0, Armed)], map[(3, 1) := 0])

  lemma WaitsAgain()
    ensures Reached(AGAIN)
  {
    var s0, s1 := One(Waiting, false, 1, false, Queued), One(Trying, false, 1, false, Queued);
    var s2 := Apply(s1, Try(0, Again));
    var s3 := Apply(s2, Arm(0));
    assert Apply(s3, Register(0, false)) == AGAIN;
    hide Apply, Reached, AGAIN;
    Expired();
    Rounds(s0, 0, s1);
    Then(s1, Try(0, Again));
    Then(s2, Arm(0));
    Then(s3, Register(0, false));
  }

  // The timer that fired need not be that of the last wait: the callback of an earlier wait, queued
  // when its event came, ends the next wait of the same call as a timeout.
  lemma EarlierTimerHappens()
    ensures exists s :: Reached(s) && |s.calls| == 1 && s.timers == [Timer(0, Ending), Timer(0, Cancelled)]
              && s.calls[0].timer == Some(1) && s.calls[0].phase == Done(TimedOut)
  {
    var s1 := Apply(AGAIN, Lock(0));
    var s2 := State([Call(3, 1, true, Waiting, true, 3, Some(1), false)],
                    [Timer(0, InFlight), Timer(0, Armed)], map[(3, 1) := 0]);
    assert s1.timers == [Timer(0, Held), Timer(0, Armed)];
    WaitsAgain();
    Then(AGAIN, Lock(0));
    hide Reached;
    Marks(s1, 0, s2);
    var s3 := Apply(s2, Cancel(0, false));
    var s4 := Apply(s3, StopTimer(0));
    var s5 := Apply(s4, Check(0));
    var s6 := Apply(s5, Return(0));
    assert s6.timers == [Timer(0, Ending), Timer(0, Cancelled)];
    hide Apply;
    Then(s2, Cancel(0, false));
    Then(s3, StopTimer(0));
    Then(s4, Check(0));
    Then(s5, Return(0));
  }

  // The timer fires between addConditionTimer and addEvent: the wait is left without a timeout.
  lemma LostTimeout()
    ensures exists s :: Reached(s) && |s.calls| == 1
              && s.calls[0].phase.Waiting? && s.calls[0].timed && s.timers == [Timer(0, Ran)]
  {
    var s1, s2 := One(Arming, true, 3, true, Ending), One(Arming, true, 1, true, Ran);
    assert s2 == Apply(s1, Finish(0));
    var s3 := One(Waiting, true, 1, true, Ran);
    assert s3 == Apply(s2, Register(0, false));
    assert s3.timers == [Timer(0, Ran)] && |s3.calls| == 1 && s3.calls[0].phase.Waiting? && s3.calls[0].timed;
    hide Apply, Reached;
    MissesEarly();
    Then(s1, Finish(0));
    Then(s2, Register(0, false));
  }

  lemma MissesEarly()
    ensures Reached(One(Arming, true, 3, true, Ending))
  {
    var s1, s2 := One(Arming, false, 1, false, Queued), One(Arming, false, 2, false, Held);
    var s3, s4 := One(Arming, true, 3, false, InFlight), One(Arming, true, 3, true, Ending);
    assert s2 == Apply(s1, Lock(0)) && s4 == Apply(s3, Cancel(0, false));
    hide Apply, Reached;
    FiresEarly();
    Then(s1, Lock(0));
    Marks(s2, 0, s3);
    Then(s3, Cancel(0, false));
  }

  lemma FiresEarly()
    ensures Reached(One(Arming, false, 1, false, Queued))
  {
    var s1 := Apply(START, Enter(3, 1, true));
    var s2 := Apply(s1, Try(0, Again));
    var s3 := Apply(s2, Arm(0));
    assert Apply(s3, Expire(0)) == One(Arming, false, 1, false, Queued);
    Started();
    hide Apply, Reached;
    Then(START, Enter(3, 1, true));
    Then(s1, Try(0, Again));
    Then(s2, Arm(0));
    Then(s3, Expire(0));
  }

  // Call 0 has returned; the callback of its first wait holds tinfo, that of its second is queued.
  const STALE := State([Call(3, 1, true, Done(Value(5)), false, 1, Some(1), false)],
                       [Timer(0, Held), Timer(0, Queued)], map[])

  lemma StaleReached()
    ensures Reached(STALE)
  {
    var call := Call(3, 1, true, Waiting, false, 2, Some(1), false);
    var s1 := State([call], [Timer(0, Held), Timer(0, Armed)], map[(3, 1) := 0]);
    var s2 := State([call], [Timer(0, Held), Timer(0, Queued)], map[(3, 1) := 0]);
    var s3 := State([call.(phase := Trying)], [Timer(0, Held), Timer(0, Queued)], map[]);
    assert s1 == Apply(AGAIN, Lock(0)) && s2 == Apply(s1, Expire(1));
    hide Apply, Reached;
    WaitsAgain();
    Then(AGAIN, Lock(0));
    Then(s1, Expire(1));
    Rounds(s2, 0, s3);
    Answers(s3, 0, 5, STALE);
  }

  // A callback that only starts after its call returned can still end the wait of another call: the
  // callback of an earlier wait keeps tinfo alive for it.
  lemma StaleCallbackHappens()
    ensures exists s, u :: Reached(s) && RunOf(s, [Lock(1), Test(1), Mark(1), Cancel(1, false)], u)
              && |s.calls| == |u.calls| == 2 && s.calls[0].phase.Done? && s.timers[1..2] == [Timer(0, Queued)]
              && s.calls[1].phase.Waiting? && u.calls[1] == s.calls[1].(phase := Woken)
  {
    var s := State(STALE.calls + [Call(3, 1, true, Waiting, false, 1, Some(2), false)],
                   STALE.timers + [Timer(1, Armed)], map[(3, 1) := 1]);
    assert Waits(STALE) == s;
    StaleReached();
    NewWait(STALE);
    hide Reached;
    var s1 := Apply(s, Lock(1));
    var s2 := Apply(s1, Test(1));
    var s3 := Apply(s2, Mark(1));
    var u := Apply(s3, Cancel(1, false));
    assert u.calls[1] == s.calls[1].(phase := Woken);
    hide Apply;
    assert RunOf(s, [], s);
    RunThen(s, [], s, Lock(1));
    RunThen(s, [Lock(1)], s1, Test(1));
    RunThen(s, [Lock(1), Test(1)], s2, Mark(1));
    RunThen(s, [Lock(1), Test(1), Mark(1)], s3, Cancel(1, false));
    assert [] + [Lock(1)] == [Lock(1)] && [Lock(1)] + [Test(1)] == [Lock(1), Test(1)];
    assert [Lock(1), Test(1)] + [Mark(1)] == [Lock(1), Test(1), Mark(1)];
    assert [Lock(1), Test(1), Mark(1)] + [Cancel(1, false)] == [Lock(1), Test(1), Mark(1), Cancel(1, false)];
  }
}
