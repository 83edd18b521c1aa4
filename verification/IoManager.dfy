/** IOManager's fd event methods over FdContext objects, each one mutex-protected section. */
module IoManagers {
  import opened IoEvents
  import opened Options

  class FdContext {
    const fd: nat
    var events: Mask
    var read: EventContext
    var write: EventContext

    constructor (fd: nat)
      ensures this.fd == fd && View() == FREE
    {
      this.fd := fd;
      events, read, write := NONE, EMPTY, EMPTY;
    }

    function View(): Entry
      reads this
    {
      Entry(events, read, write)
    }

    // getContext and resetContext
    function GetContext(e: Event): EventContext
      reads this
    {
      View().Get(e)
    }
  }

  ghost function TableOf(ctxs: seq<FdContext>): (r: seq<Entry>)
    reads ctxs
    ensures |r| == |ctxs| && forall i :: 0 <= i < |ctxs| ==> r[i] == ctxs[i].View()
  {
    if |ctxs| == 0 then [] else TableOf(ctxs[..|ctxs| - 1]) + [ctxs[|ctxs| - 1].View()]
  }

  ghost predicate Numbered(ctxs: seq<FdContext>) {
    (forall i :: 0 <= i < |ctxs| ==> ctxs[i].fd == i)
  }

  datatype Op = ADD | MOD | DEL

  datatype AddResult = Added | EpollFailed | Asserted

  datatype DispatchResult = Dispatched | Skipped | CtlFailed | Aborted

  // An epoll_event: whose, and the bits.
  datatype Report = Report(fd: nat, mask: Mask)

  // epoll_wait reports only what it was told to watch; error conditions it always reports.
  predicate Possible(kernel: map<nat, Mask>, r: Report) {
    r.fd in kernel && forall e: Event :: Has(r.mask, e) ==> Has(kernel[r.fd], e)
  }

  // The events one reported epoll_event stands for, given what the context waits for.
  function RealEvents(reported: Mask, events: Mask): Mask {
    var r := if reported & (ERR | HUP) != NONE then reported | ((IN | OUT) & events) else reported;
    r & (IN | OUT)
  }

  // A waiter can be fired: it holds the place, and the context holds its task.
  ghost predicate FireReady(s: State, fd: nat, e: Event) {
    fd < |s.table| && s.h.Holds(fd, e) && s.h.slots[(fd, e)] < |s.h.accepted| && s.pending > 0
    && s.table[fd].Get(e) == ContextOf(s.h.accepted[s.h.slots[(fd, e)]])
  }

  // Every event of a mask is waited for.
  predicate Covers(events: Mask, hits: Mask) {
    (Has(hits, READ) ==> Has(events, READ)) && (Has(hits, WRITE) ==> Has(events, WRITE))
  }

  // What is left of a context's events after a mask was fired, and whether the two share an event.
  function Left(events: Mask, hits: Mask): Mask { events & !(hits & (IN | OUT)) }

  predicate Meets(events: Mask, hits: Mask) { events & hits != NONE }

  // Firing the events of a mask, READ first.
  ghost function FireMask(s: State, fd: nat, hits: Mask): State
    requires s.Good() && fd < |s.table|
    requires Covers(s.table[fd].events, hits)
  {
    FireBoth(s, fd);
    var s1 := if Has(hits, READ) then s.Fire(fd, READ) else s;
    if Has(hits, WRITE) then s1.Fire(fd, WRITE) else s1
  }

  lemma FireBoth(s: State, fd: nat)
    requires s.Good() && fd < |s.table|
    ensures forall e: Event :: Has(s.table[fd].events, e) ==> FireReady(s, fd, e) && s.Fire(fd, e).Good()
    ensures Has(s.table[fd].events, READ) && Has(s.table[fd].events, WRITE) ==>
              && FireReady(s, fd, READ) && FireReady(s.Fire(fd, READ), fd, WRITE)
              && s.Fire(fd, READ).Fire(fd, WRITE).Good()
  {
    hide Has, Cleared, State.Good, Entry.Get;
    forall e: Event | Has(s.table[fd].events, e) ensures FireReady(s, fd, e) && s.Fire(fd, e).Good() {
      LeaveGood(s, fd, e);
    }
    if Has(s.table[fd].events, READ) && Has(s.table[fd].events, WRITE) {
      OneHalf(s.table[fd], READ, FiberTask(0), WRITE);
      LeaveGood(s.Fire(fd, READ), fd, WRITE);
    }
  }

  // The task of a waiter: its callback when it gave one, else the running fiber.
  function TaskOf(cb: Option<nat>, current: nat): Task {
    if cb.Some? then CallbackTask(cb.value) else FiberTask(current)
  }

  class IOManager {
    var m_fdContexts: seq<FdContext>
    var m_pendingEventCount: nat
    // What epoll_ctl was told; EPOLLET is set with every mask and left out here.
    var m_kernel: map<nat, Mask>
    // What triggerEvent passed to Scheduler::schedule, in order.
    var m_scheduled: seq<Task>
    // What epoll_wait returned to the workers and they have not got to yet.
    var m_reports: seq<Report>
    ghost var history: History

    ghost function Abs(): State
      reads this, m_fdContexts
    {
      State(TableOf(m_fdContexts), m_kernel, m_pendingEventCount, m_scheduled, history)
    }

    ghost predicate Valid()
      reads this, m_fdContexts
    {
      |m_fdContexts| >= 32 && Numbered(m_fdContexts) && Abs().Good() && Abs().KernelAgrees()
    }


    constructor ()
      ensures Valid() && Abs() == START && m_reports == []
      ensures forall i :: 0 <= i < |m_fdContexts| ==> fresh(m_fdContexts[i])
    {
      hide TableOf, Free, State.Good, State.KernelAgrees;
      m_fdContexts, m_pendingEventCount, m_kernel, m_scheduled := [], 0, map[], [];
      m_reports, history := [], History([], [], map[], []);
      new;
      ContextResize(32);
      assert TableOf(m_fdContexts) == Free(32);
      EmptyGood(32);
    }

    static lemma EmptyGood(n: nat)
      ensures var s := State(Free(n), map[], 0, [], History([], [], map[], []));
              s.Good() && s.KernelAgrees()
    {
      TotalFree(n);
    }

    // contextResize, which here only ever grows.
    method ContextResize(size: nat)
      requires |m_fdContexts| <= size && Numbered(m_fdContexts)
      modifies this`m_fdContexts
      ensures |m_fdContexts| == size && Numbered(m_fdContexts)
      ensures old(m_fdContexts) <= m_fdContexts
      ensures forall i :: |old(m_fdContexts)| <= i < size ==> fresh(m_fdContexts[i])
      ensures TableOf(m_fdContexts) == old(TableOf(m_fdContexts)) + Free(size - |old(m_fdContexts)|)
    {
      var i := |m_fdContexts|;
      ghost var n := i;
      while i < size
        invariant n <= i <= size && |m_fdContexts| == i && Numbered(m_fdContexts)
        invariant old(m_fdContexts) <= m_fdContexts
        invariant forall k :: n <= k < i ==> fresh(m_fdContexts[k]) && m_fdContexts[k].View() == FREE
      {
        var c := new FdContext(i);
        m_fdContexts := m_fdContexts + [c];
        i := i + 1;
      }
    }

    // epoll_ctl: ADD wants an unknown fd, MOD and DEL a known one; `fails` is any other failure.
    method EpollCtl(op: Op, fd: nat, mask: Mask, fails: bool) returns (ok: bool)
      modifies this`m_kernel
      ensures ok == (!fails && (op.ADD? <==> fd !in old(m_kernel)))
      ensures m_kernel == if !ok then old(m_kernel)
                          else if op.DEL? then old(m_kernel) - {fd} else old(m_kernel)[fd := mask]
    {
      if fails || (op.ADD? && fd in m_kernel) || (!op.ADD? && fd !in m_kernel) {
        return false;
      }
      m_kernel := if op.DEL? then m_kernel - {fd} else m_kernel[fd := mask];
      return true;
    }

    // Writes the event bits and one half of a context.
    method SetHalf(c: FdContext, e: Event, ctx: EventContext, mask: Mask)
      requires Numbered(m_fdContexts) && c in m_fdContexts
      modifies c
      ensures c.fd < |m_fdContexts|
      ensures TableOf(m_fdContexts) ==
              old(TableOf(m_fdContexts))[c.fd := old(TableOf(m_fdContexts))[c.fd].Set(e, ctx, mask)]
    {
      c.events := mask;
      if e.READ? { c.read := ctx; } else { c.write := ctx; }
    }

    // The entry of a context in the table.
    lemma EntryAt(fd: nat)
      requires fd < |m_fdContexts| && Numbered(m_fdContexts)
      ensures TableOf(m_fdContexts)[fd] == m_fdContexts[fd].View() && m_fdContexts[fd].fd == fd
      ensures |TableOf(m_fdContexts)| == |m_fdContexts|
    {
    }

    // FdContext::triggerEvent. The asserted bit is a precondition; the callers see to it.
    method TriggerEvent(c: FdContext, e: Event)
      requires Numbered(m_fdContexts) && c in m_fdContexts && c.fd < |m_fdContexts|
      requires Abs().Good() && Has(Abs().table[c.fd].events, e)
      modifies c, this`m_scheduled, this`history
      ensures FireReady(old(Abs()), c.fd, e)
      ensures Abs() == old(Abs()).Fire(c.fd, e).(pending := m_pendingEventCount)
    {
      hide TableOf, Has, With, Without, Clean, State.Good;
      ghost var s := Abs();
      LeaveGood(s, c.fd, e);
      TakesWaiter(s, c.fd, e);
      EntryAt(c.fd);
      var ctx := c.GetContext(e);
      if ctx.cb.Some? {
        m_scheduled := m_scheduled + [CallbackTask(ctx.cb.value)];
      } else {
        m_scheduled := m_scheduled + [FiberTask(ctx.fiber.value)];
      }
      assert m_scheduled == s.scheduled + [s.h.accepted[s.h.slots[(c.fd, e)]]];
      hide ContextOf, Entry.Get, Entry.Set, History.Wake;
      SetHalf(c, e, EMPTY, Without(c.events, e));
      history := history.Wake(c.fd, e);
    }

    static lemma TakesWaiter(s: State, fd: nat, e: Event)
      requires s.Good() && fd < |s.table| && Has(s.table[fd].events, e)
      ensures FireReady(s, fd, e)
    {
      LeaveGood(s, fd, e);
    }

    // The context of an fd, after growing the table to half as much again as the fd if need be.
    method ContextFor(fd: nat) returns (c: FdContext)
      requires Valid()
      modifies this`m_fdContexts
      ensures Valid() && old(m_fdContexts) <= m_fdContexts
      ensures forall i :: |old(m_fdContexts)| <= i < |m_fdContexts| ==> fresh(m_fdContexts[i])
      ensures Abs() == Reach(old(Abs()), fd)
      ensures |m_fdContexts| == if fd < |old(m_fdContexts)| then |old(m_fdContexts)| else fd * 3 / 2
      ensures fd < |m_fdContexts| && c == m_fdContexts[fd]
    {
      hide TableOf, Total, Entry.Valid, State.Good, State.KernelAgrees;
      if |m_fdContexts| <= fd {
        GrowGood(Abs(), fd + fd / 2 - |m_fdContexts|);
        KernelGrow(Abs(), fd + fd / 2 - |m_fdContexts|);
        ContextResize(fd + fd / 2);
      }
      c := m_fdContexts[fd];
    }

    static ghost function Reach(s: State, fd: nat): State {
      if fd < |s.table| || fd + fd / 2 <= |s.table| then s else s.Grow(fd + fd / 2 - |s.table|)
    }

    method AddEvent(fd: nat, e: Event, cb: Option<nat>, current: nat, fails: bool) returns (r: AddResult)
      requires Valid()
      modifies this`m_fdContexts, this`m_pendingEventCount, this`m_kernel, this`history, m_fdContexts
      ensures Valid() && old(m_fdContexts) <= m_fdContexts
      ensures forall i :: |old(m_fdContexts)| <= i < |m_fdContexts| ==> fresh(m_fdContexts[i])
      ensures var g := Reach(old(Abs()), fd);
              && fd < |g.table|
              && (r.Asserted? <==> Has(g.table[fd].events, e))
              && (r.EpollFailed? <==> !r.Asserted? && fails)
              && Abs() == if r.Added? then g.Arm(fd, e, TaskOf(cb, current)) else g
      ensures |m_fdContexts| == if fd < |old(m_fdContexts)| then |old(m_fdContexts)| else fd * 3 / 2
    {
      hide TableOf, Has, State.Good, State.KernelAgrees, Numbered, State.Arm, Reach;
      var c := ContextFor(fd);
      assert fd < |old(m_fdContexts)| ==> c == old(m_fdContexts)[fd];
      r := Register(c, fd, e, cb, current, fails);
    }

    // What addEvent does under the context's lock.
    method Register(c: FdContext, fd: nat, e: Event, cb: Option<nat>, current: nat, fails: bool)
      returns (r: AddResult)
      requires Valid() && fd < |m_fdContexts| && c == m_fdContexts[fd]
      modifies c, this`m_pendingEventCount, this`m_kernel, this`history
      ensures Valid() && fd < |old(Abs()).table|
      ensures r.Asserted? <==> Has(old(Abs()).table[fd].events, e)
      ensures r.EpollFailed? <==> !r.Asserted? && fails
      ensures Abs() == if r.Added? then old(Abs()).Arm(fd, e, TaskOf(cb, current)) else old(Abs())
    {
      hide TableOf, Has, With, Without, Clean, Total, Entry.Valid, State.Good, State.KernelAgrees, History.Accept;
      ghost var g := Abs();
      EntryAt(fd);
      EntryOk(g, fd, e);
      KernelOk(g, fd);
      if Has(c.events, e) {
        return Asserted;
      }
      var op := if c.events != NONE then MOD else ADD;
      var ok := EpollCtl(op, fd, With(c.events, e), fails);
      if !ok {
        return EpollFailed;
      }
      ArmGood(g, fd, e, TaskOf(cb, current));
      KernelArm(g, fd, e, TaskOf(cb, current));
      ArmedEvents(g.table[fd], e, TaskOf(cb, current));
      TwoBits(c.events, e);
      InterestGood(g, fd, With(c.events, e));
      StoreWaiter(c, e, cb, current);
      assert Abs() == g.Arm(fd, e, TaskOf(cb, current));
      hide State.Arm, TaskOf;
      return Added;
    }

    // The waiter is put into its half of the context.
    method StoreWaiter(c: FdContext, e: Event, cb: Option<nat>, current: nat)
      requires Numbered(m_fdContexts) && c in m_fdContexts && c.fd < |m_fdContexts|
      requires Abs().Good() && !Has(Abs().table[c.fd].events, e)
      modifies c, this`m_pendingEventCount, this`history
      ensures Abs() == old(Abs()).Arm(c.fd, e, TaskOf(cb, current)).(kernel := m_kernel)
    {
      hide TableOf, Has, With, Without, Clean, Total, State.Good, State.KernelAgrees, History.Accept;
      EntryAt(c.fd);
      EntryOk(Abs(), c.fd, e);
      m_pendingEventCount := m_pendingEventCount + 1;
      assert c.GetContext(e) == EMPTY;
      var ctx := if cb.Some? then EventContext(true, None, cb) else EventContext(true, Some(current), None);
      SetHalf(c, e, ctx, With(c.events, e));
      history := history.Accept(c.fd, e, TaskOf(cb, current));
    }

    static lemma KernelGrow(s: State, n: nat)
      requires s.KernelAgrees()
      ensures s.Grow(n).KernelAgrees()
    {
      var t := s.Grow(n);
      forall f: nat | f < |t.table| ensures t.KernelAt(f, t.table[f]) {
        if f < |s.table| { assert s.KernelAt(f, s.table[f]); }
      }
    }

    static lemma KernelOk(s: State, fd: nat)
      requires s.KernelAgrees() && fd < |s.table|
      ensures fd in s.kernel <==> s.table[fd].events != NONE
    {
      assert s.KernelAt(fd, s.table[fd]);
    }

    // What Good says about one half.
    static lemma EntryOk(s: State, fd: nat, e: Event)
      requires s.Good() && fd < |s.table|
      ensures Clean(s.table[fd].events) && s.table[fd].Half(e)
    {
    }

    static lemma KernelArm(s: State, fd: nat, e: Event, task: Task)
      requires s.KernelAgrees() && fd < |s.table| && Clean(s.table[fd].events)
      ensures s.Arm(fd, e, task).KernelAgrees()
    {
      hide Has, With, Without, Clean;
      TwoBits(s.table[fd].events, e);
      ArmedEvents(s.table[fd], e, task);
      var t := s.Arm(fd, e, task);
      forall f: nat | f < |t.table| ensures t.KernelAt(f, t.table[f]) { assert s.KernelAt(f, s.table[f]); }
    }

    // Replacing one entry and telling the kernel its events keeps the two in step.
    static lemma KernelSet(s: State, t: State, fd: nat)
      requires s.KernelAgrees() && fd < |s.table| == |t.table|
      requires forall f :: 0 <= f < |s.table| && f != fd ==> t.table[f] == s.table[f]
      requires t.kernel == s.Interest(fd, t.table[fd].events).kernel
      ensures t.KernelAgrees()
    {
      forall f: nat | f < |t.table| ensures t.KernelAt(f, t.table[f]) { assert s.KernelAt(f, s.table[f]); }
    }

    method DelEvent(fd: nat, e: Event, fails: bool) returns (r: bool)
      requires Valid()
      modifies this`m_pendingEventCount, this`m_kernel, this`history, m_fdContexts
      ensures Valid() && old(Abs()).Good()
      ensures r <==> fd < |old(Abs()).table| && Has(old(Abs()).table[fd].events, e) && !fails
      ensures r ==> FireReady(old(Abs()), fd, e)
      ensures Abs() == if !r then old(Abs())
                       else old(Abs()).Forget(fd, e).Interest(fd, Without(old(Abs()).table[fd].events, e))
    {
      hide TableOf, Has, With, Without, Clean, Total, Entry.Valid, State.Good, State.KernelAgrees;
      hide History.Drop, History.Wake, Cleared;
      ghost var s := Abs();
      if |m_fdContexts| <= fd {
        return false;
      }
      var c := m_fdContexts[fd];
      EntryAt(fd);
      KernelOk(s, fd);
      EntryOk(s, fd, e);
      if !Has(c.events, e) {
        return false;
      }
      TwoBits(c.events, e);
      TakesWaiter(s, fd, e);
      var new_events := Without(c.events, e);
      var op := if new_events != NONE then MOD else DEL;
      var ok := EpollCtl(op, fd, new_events, fails);
      if !ok {
        return false;
      }
      InterestGood(s, fd, new_events);
      LeaveKernel(s, fd, e);
      ForgetWaiter(c, e);
      return true;
    }

    // The waiter goes without being scheduled.
    method ForgetWaiter(c: FdContext, e: Event)
      requires Numbered(m_fdContexts) && c in m_fdContexts && c.fd < |m_fdContexts|
      requires Abs().Good() && Has(Abs().table[c.fd].events, e)
      modifies c, this`m_pendingEventCount, this`history
      ensures FireReady(old(Abs()), c.fd, e)
      ensures Abs() == old(Abs()).Forget(c.fd, e)
    {
      hide TableOf, Has, Without, Clean, Total, Entry.Valid, State.Good, State.KernelAgrees, History.Drop;
      ghost var s := Abs();
      EntryAt(c.fd);
      LeaveGood(s, c.fd, e);
      m_pendingEventCount := m_pendingEventCount - 1;
      SetHalf(c, e, EMPTY, Without(c.events, e));
      history := history.Drop(c.fd, e);
    }

    // A waiter leaves, and the kernel is told what is left: first or last comes to the same.
    static lemma LeaveKernel(s: State, fd: nat, e: Event)
      requires s.Good() && s.KernelAgrees() && fd < |s.table| && Has(s.table[fd].events, e)
      ensures FireReady(s, fd, e)
      ensures var m := Without(s.table[fd].events, e);
              var t, u := s.Forget(fd, e).Interest(fd, m), s.Fire(fd, e).Interest(fd, m);
              && t.Good() && t.KernelAgrees() && u.Good() && u.KernelAgrees()
              && t == s.Interest(fd, m).Forget(fd, e) && u == s.Interest(fd, m).Fire(fd, e)
    {
      hide Has, Without, State.Good, State.KernelAgrees, History.Drop, History.Wake;
      var m := Without(s.table[fd].events, e);
      LeaveGood(s, fd, e);
      KernelSet(s, s.Forget(fd, e).Interest(fd, m), fd);
      KernelSet(s, s.Fire(fd, e).Interest(fd, m), fd);
      InterestGood(s.Forget(fd, e), fd, m);
      InterestGood(s.Fire(fd, e), fd, m);
    }

    static lemma InterestGood(s: State, fd: nat, mask: Mask)
      requires s.Good()
      ensures s.Interest(fd, mask).Good()
    {
    }

    method CancelEvent(fd: nat, e: Event, fails: bool) returns (r: bool)
      requires Valid()
      modifies this`m_pendingEventCount, this`m_kernel, this`m_scheduled, this`history, m_fdContexts
      ensures Valid() && old(Abs()).Good()
      ensures r <==> fd < |old(Abs()).table| && Has(old(Abs()).table[fd].events, e) && !fails
      ensures r ==> FireReady(old(Abs()), fd, e)
      ensures Abs() == if !r then old(Abs())
                       else old(Abs()).Fire(fd, e).Interest(fd, Without(old(Abs()).table[fd].events, e))
    {
      hide TableOf, Has, With, Without, Clean, Total, Entry.Valid, State.Good, State.KernelAgrees;
      hide History.Drop, History.Wake, Cleared;
      ghost var s := Abs();
      if |m_fdContexts| <= fd {
        return false;
      }
      var c := m_fdContexts[fd];
      EntryAt(fd);
      KernelOk(s, fd);
      EntryOk(s, fd, e);
      if !Has(c.events, e) {
        return false;
      }
      TwoBits(c.events, e);
      TakesWaiter(s, fd, e);
      var new_events := Without(c.events, e);
      var op := if new_events != NONE then MOD else DEL;
      var ok := EpollCtl(op, fd, new_events, fails);
      if !ok {
        return false;
      }
      InterestGood(s, fd, new_events);
      LeaveKernel(s, fd, e);
      TriggerEvent(c, e);
      m_pendingEventCount := m_pendingEventCount - 1;
      return true;
    }

    // The triggers shared by cancelAll and the dispatch loop, READ before WRITE.
    method TriggerMask(c: FdContext, hits: Mask) returns (ok: bool)
      requires Numbered(m_fdContexts) && c in m_fdContexts && c.fd < |m_fdContexts| && Abs().Good()
      modifies c, this`m_pendingEventCount, this`m_scheduled, this`history
      ensures ok <==> Covers(old(Abs()).table[c.fd].events, hits)
      ensures ok ==> Abs() == FireMask(old(Abs()), c.fd, hits)
    {
      hide TableOf, Has, With, Without, Clean, Total, Entry.Valid, State.Good, Cleared;
      ghost var s := Abs();
      EntryAt(c.fd);
      FireBoth(s, c.fd);
      if Has(hits, READ) {
        if !Has(c.events, READ) {
          return false;
        }
        TriggerEvent(c, READ);
        m_pendingEventCount := m_pendingEventCount - 1;
        OneHalf(s.table[c.fd], READ, FiberTask(0), WRITE);
        EntryAt(c.fd);
      }
      if Has(hits, WRITE) {
        if !Has(c.events, WRITE) {
          return false;
        }
        TriggerEvent(c, WRITE);
        m_pendingEventCount := m_pendingEventCount - 1;
      }
      return true;
    }

    // Firing the events of a mask leaves the others, and goes with the matching kernel interest.
    static lemma FireMaskKeeps(s: State, fd: nat, hits: Mask)
      requires s.Good() && fd < |s.table|
      requires Covers(s.table[fd].events, hits)
      ensures var t := FireMask(s, fd, hits);
              && t.Good() && |t.table| == |s.table| && t.kernel == s.kernel
              && (forall f :: 0 <= f < |s.table| && f != fd ==> t.table[f] == s.table[f])
              && t.table[fd].events == Left(s.table[fd].events, hits)
    {
      hide Has, With, Without, Clean, Total, Entry.Valid, State.Good, Cleared, State.Fire, Left;
      FireBoth(s, fd);
      MaskLeft(s.table[fd].events, hits);
      if Has(hits, READ) {
        FireShape(s, fd, READ);
        if Has(hits, WRITE) { FireShape(s.Fire(fd, READ), fd, WRITE); }
      } else if Has(hits, WRITE) {
        FireShape(s, fd, WRITE);
      }
      ArmedEvents(s.table[fd], READ, FiberTask(0));
      ArmedEvents(s.table[fd], WRITE, FiberTask(0));
      ArmedEvents(Cleared(s.table[fd], READ), WRITE, FiberTask(0));
    }

    static lemma FireShape(s: State, fd: nat, e: Event)
      requires FireReady(s, fd, e)
      ensures var t := s.Fire(fd, e);
              t.kernel == s.kernel && t.table == s.table[fd := Cleared(s.table[fd], e)]
    {
    }

    static lemma MaskLeft(events: Mask, hits: Mask)
      ensures Left(events, hits) ==
              var m := if Has(hits, READ) then Without(events, READ) else events;
              if Has(hits, WRITE) then Without(m, WRITE) else m
    {
    }

    method CancelAll(fd: nat, fails: bool) returns (r: bool)
      requires Valid()
      modifies this`m_pendingEventCount, this`m_kernel, this`m_scheduled, this`history, m_fdContexts
      ensures Valid() && old(Abs()).Good()
      ensures r <==> fd < |old(Abs()).table| && old(Abs()).table[fd].events != NONE && !fails
      ensures Abs() == if !r then old(Abs())
                       else FireMask(old(Abs()), fd, old(Abs()).table[fd].events).Interest(fd, NONE)
    {
      hide TableOf, Has, Total, Entry.Valid, State.Good, State.KernelAgrees, FireMask, Left;
      ghost var s := Abs();
      if |m_fdContexts| <= fd {
        return false;
      }
      var c := m_fdContexts[fd];
      EntryAt(fd);
      KernelOk(s, fd);
      if c.events == NONE {
        return false;
      }
      var ok := EpollCtl(DEL, fd, NONE, fails);
      if !ok {
        return false;
      }
      ghost var hits := c.events;
      FireMaskKeeps(s, fd, hits);
      EntryOk(s, fd, READ);
      AllFired(hits);
      FireMaskInterest(s, fd, hits, NONE);
      InterestGood(s, fd, NONE);
      var fired := TriggerMask(c, c.events);
      return true;
    }

    static lemma AllFired(events: Mask)
      requires Clean(events)
      ensures Left(events, events) == NONE
    {
    }

    // The kernel may be told before the triggers or after them.
    static lemma FireMaskInterest(s: State, fd: nat, hits: Mask, left: Mask)
      requires s.Good() && s.KernelAgrees() && fd < |s.table|
      requires Covers(s.table[fd].events, hits)
      requires left == Left(s.table[fd].events, hits)
      ensures s.Interest(fd, left).Good()
      ensures FireMask(s.Interest(fd, left), fd, hits) == FireMask(s, fd, hits).Interest(fd, left)
      ensures FireMask(s, fd, hits).Interest(fd, left).Good()
      ensures FireMask(s, fd, hits).Interest(fd, left).KernelAgrees()
    {
      hide Has, Cleared, State.Good, State.KernelAgrees, Total, Entry.Valid, Left;
      InterestGood(s, fd, left);
      FireBoth(s, fd);
      FireMaskKeeps(s, fd, hits);
      InterestGood(FireMask(s, fd, hits), fd, left);
      KernelSet(s, FireMask(s, fd, hits).Interest(fd, left), fd);
    }

    // epoll_wait returns an event to a worker; several at once are several in a row.
    method Receive(r: Report)
      modifies this`m_reports
      ensures m_reports == old(m_reports) + if Possible(m_kernel, r) then [r] else []
    {
      if Possible(m_kernel, r) { m_reports := m_reports + [r]; }
    }

    // One turn of the dispatch loop in idle. It aborts on the assertion in triggerEvent when an event
    // that is not registered now was reported together with one that is.
    method Dispatch(fd: nat, reported: Mask, fails: bool) returns (r: DispatchResult)
      requires Valid() && fd < |m_fdContexts|
      modifies this`m_pendingEventCount, this`m_kernel, this`m_scheduled, this`history, m_fdContexts
      ensures old(Abs()).Good() && fd < |old(Abs()).table|
      ensures var s, events := old(Abs()), old(Abs()).table[fd].events;
              var hits := RealEvents(reported, events);
              && (r.Skipped? <==> !Meets(events, hits))
              && (r.CtlFailed? <==> !r.Skipped? && fails)
              && (r.Aborted? <==> !r.Skipped? && !fails && !Covers(events, hits))
              && (r.Skipped? || r.CtlFailed? ==> Abs() == s)
              && (r.Dispatched? ==> Covers(events, hits))
              && (r.Dispatched? ==> Abs() == FireMask(s, fd, hits).Interest(fd, Left(events, hits)))
      ensures !r.Aborted? ==> Valid()
    {
      hide TableOf, Has, Total, Entry.Valid, State.Good, State.KernelAgrees, FireMask, RealEvents, Left, Meets, Covers;
      ghost var s := Abs();
      var c := m_fdContexts[fd];
      EntryAt(fd);
      KernelOk(s, fd);
      var hits := RealEvents(reported, c.events);
      if !Meets(c.events, hits) {
        return Skipped;
      }
      var left_events := Left(c.events, hits);
      SomeEvents(c.events, hits);
      var op := if left_events != NONE then MOD else DEL;
      var ok := EpollCtl(op, fd, left_events, fails);
      if !ok {
        return CtlFailed;
      }
      ghost var events := c.events;
      InterestGood(s, fd, left_events);
      if Covers(events, hits) {
        FireMaskInterest(s, fd, hits, left_events);
      }
      var fired := TriggerMask(c, hits);
      return if fired then Dispatched else Aborted;
    }

    // The worker gets to one of the events that epoll_wait returned.
    method DispatchReport(i: nat, fails: bool) returns (r: DispatchResult)
      requires Valid() && i < |m_reports| && m_reports[i].fd < |m_fdContexts|
      modifies this`m_pendingEventCount, this`m_kernel, this`m_scheduled, this`history, this`m_reports, m_fdContexts
      ensures m_reports == old(m_reports[..i] + m_reports[i + 1..])
      ensures old(Abs()).Good() && old(m_reports[i]).fd < |old(Abs()).table|
      ensures var s, report := old(Abs()), old(m_reports[i]);
              var events := s.table[report.fd].events;
              var hits := RealEvents(report.mask, events);
              && (r.Skipped? <==> !Meets(events, hits))
              && (r.CtlFailed? <==> !r.Skipped? && fails)
              && (r.Aborted? <==> !r.Skipped? && !fails && !Covers(events, hits))
              && (r.Skipped? || r.CtlFailed? ==> Abs() == s)
              && (r.Dispatched? ==> Covers(events, hits))
              && (r.Dispatched? ==> Abs() == FireMask(s, report.fd, hits).Interest(report.fd, Left(events, hits)))
      ensures !r.Aborted? ==> Valid()
    {
      hide TableOf, Total, State.Good, State.KernelAgrees, FireMask, RealEvents, Left, Meets, Covers;
      var report := m_reports[i];
      m_reports := m_reports[..i] + m_reports[i + 1..];
      r := Dispatch(report.fd, report.mask, fails);
    }

    static lemma SomeEvents(events: Mask, hits: Mask)
      requires Meets(events, hits)
      ensures events != NONE
    {
    }
  }

  // ---- whole runs -------------------------------------------------------------------------------

  datatype Call =
    | AddCall(fd: nat, e: Event, cb: Option<nat>, current: nat, fails: bool)
    | DelCall(fd: nat, e: Event, fails: bool)
    | CancelCall(fd: nat, e: Event, fails: bool)
    | CancelAllCall(fd: nat, fails: bool)
    | WaitCall(report: Report)
    | DispatchCall(i: nat, fails: bool)

  const START := State(Free(32), map[], 0, [], History([], [], map[], []))

  // The manager's state and what epoll_wait has returned and the workers have not dispatched.
  datatype World = World(s: State, reports: seq<Report>)
  {
    ghost predicate Valid() {
      && s.Good() && s.KernelAgrees() && |s.table| >= 32
      && forall i :: 0 <= i < |reports| ==> reports[i].fd < |s.table|
    }
  }

  // One call as a step from state to state; None where an assertion of the code stops the process.
  ghost function Next(w: World, call: Call): Option<World>
    requires w.Valid()
  {
    var s := w.s;
    match call
    case AddCall(fd, e, cb, current, fails) =>
      var g := IOManager.Reach(s, fd);
      if Has(g.table[fd].events, e) then None
      else Some(World(if fails then g else g.Arm(fd, e, TaskOf(cb, current)), w.reports))
    case DelCall(fd, e, fails) =>
      if fd >= |s.table| || !Has(s.table[fd].events, e) || fails then Some(w)
      else
        LeaveGood(s, fd, e);
        Some(World(s.Forget(fd, e).Interest(fd, Without(s.table[fd].events, e)), w.reports))
    case CancelCall(fd, e, fails) =>
      if fd >= |s.table| || !Has(s.table[fd].events, e) || fails then Some(w)
      else
        LeaveGood(s, fd, e);
        Some(World(s.Fire(fd, e).Interest(fd, Without(s.table[fd].events, e)), w.reports))
    case CancelAllCall(fd, fails) =>
      if fd >= |s.table| || s.table[fd].events == NONE || fails then Some(w)
      else Some(World(FireMask(s, fd, s.table[fd].events).Interest(fd, NONE), w.reports))
    case WaitCall(r) => Some(if Possible(s.kernel, r) then World(s, w.reports + [r]) else w)
    case DispatchCall(i, fails) =>
      if i >= |w.reports| then Some(w)
      else
        var r, rest := w.reports[i], w.reports[..i] + w.reports[i + 1..];
        var events := s.table[r.fd].events;
        var hits := RealEvents(r.mask, events);
        if !Meets(events, hits) || fails then Some(World(s, rest))
        else if !Covers(events, hits) then None
        else Some(World(FireMask(s, r.fd, hits).Interest(r.fd, Left(events, hits)), rest))
  }

  // The table as addEvent finds it.
  lemma ReachKeeps(s: State, fd: nat)
    requires s.Good() && s.KernelAgrees() && |s.table| >= 32
    ensures var g := IOManager.Reach(s, fd);
            g.Good() && g.KernelAgrees() && |g.table| >= |s.table| && fd < |g.table|
  {
    if fd >= |s.table| {
      GrowGood(s, fd + fd / 2 - |s.table|);
      IOManager.KernelGrow(s, fd + fd / 2 - |s.table|);
    }
  }

  lemma ArmKeeps(s: State, fd: nat, e: Event, task: Task)
    requires s.Good() && s.KernelAgrees() && fd < |s.table| && !Has(s.table[fd].events, e)
    ensures s.Arm(fd, e, task).Good() && s.Arm(fd, e, task).KernelAgrees()
    ensures |s.Arm(fd, e, task).table| == |s.table|
  {
    hide Has, State.KernelAgrees, Armed;
    ArmGood(s, fd, e, task);
    IOManager.EntryOk(s, fd, e);
    IOManager.KernelArm(s, fd, e, task);
  }

  lemma FireKeeps(s: State, fd: nat, hits: Mask)
    requires s.Good() && s.KernelAgrees() && fd < |s.table| && Covers(s.table[fd].events, hits)
    ensures var t := FireMask(s, fd, hits).Interest(fd, Left(s.table[fd].events, hits));
            t.Good() && t.KernelAgrees() && |t.table| == |s.table|
  {
    hide Has, Left, Covers, FireMask, State.Good, State.KernelAgrees;
    IOManager.FireMaskInterest(s, fd, hits, Left(s.table[fd].events, hits));
    IOManager.FireMaskKeeps(s, fd, hits);
  }

  // Every step keeps the table, the kernel, the counter and the fates in agreement.
  lemma NextValid(w: World, call: Call)
    requires w.Valid() && Next(w, call).Some?
    ensures Next(w, call).value.Valid()
  {
    hide Has, With, Without, Clean, Total, Entry.Valid, State.Good, State.KernelAgrees, Left, RealEvents, Meets;
    hide Covers, Armed, Cleared, FireMask, State.Arm, IOManager.Reach, Possible;
    var s := w.s;
    match call
    case AddCall(fd, e, cb, current, fails) =>
      ReachKeeps(s, fd);
      if !fails { ArmKeeps(IOManager.Reach(s, fd), fd, e, TaskOf(cb, current)); }
    case DelCall(fd, e, fails) =>
      if fd < |s.table| && Has(s.table[fd].events, e) { IOManager.LeaveKernel(s, fd, e); }
    case CancelCall(fd, e, fails) =>
      if fd < |s.table| && Has(s.table[fd].events, e) { IOManager.LeaveKernel(s, fd, e); }
    case CancelAllCall(fd, fails) =>
      if fd < |s.table| && s.table[fd].events != NONE {
        IOManager.EntryOk(s, fd, READ);
        IOManager.AllFired(s.table[fd].events);
        AllCovered(s.table[fd].events);
        FireKeeps(s, fd, s.table[fd].events);
      }
    case WaitCall(r) => if Possible(s.kernel, r) { InKernel(s, r); }
    case DispatchCall(i, fails) =>
      if i < |w.reports| {
        var r, events := w.reports[i], s.table[w.reports[i].fd].events;
        var hits := RealEvents(r.mask, events);
        if Meets(events, hits) && !fails { FireKeeps(s, r.fd, hits); }
      }
  }

  lemma AllCovered(events: Mask)
    ensures Covers(events, events)
  {
  }

  // The kernel watches nothing that is not registered.
  lemma InKernel(s: State, r: Report)
    requires s.KernelAgrees() && Possible(s.kernel, r)
    ensures r.fd < |s.table| && forall e: Event :: Has(r.mask, e) ==> Has(s.table[r.fd].events, e)
  {
    hide Has;
    assert s.KernelAt(r.fd, s.table[r.fd]);
  }

  ghost function After(calls: seq<Call>): (r: Option<World>)
    ensures r.Some? ==> r.value.Valid()
  {
    if |calls| == 0 then IOManager.EmptyGood(32); Some(World(START, []))
    else
      match After(calls[..|calls| - 1])
      case None => None
      case Some(w) =>
        var next := Next(w, calls[|calls| - 1]);
        if next.Some? then NextValid(w, calls[|calls| - 1]); next else None
  }

  lemma {:induction false} NoneStays(calls: seq<Call>, n: nat)
    requires n <= |calls| && After(calls[..n]).None?
    ensures After(calls).None?
    decreases |calls| - n
  {
    if n == |calls| {
      assert calls[..n] == calls;
    } else {
      assert calls[..n + 1][..n] == calls[..n];
      NoneStays(calls, n + 1);
    }
  }

  // ---- what the calls do to the waiters -----------------------------------------------------------

  // The bits by which epoll and the table name events and errors.
  predicate Names(mask: Mask, e: Event) { mask & (if e.READ? then 0x01 else 0x04) != 0 }

  predicate Failed(mask: Mask) { mask & 0x08 != 0 || mask & 0x10 != 0 }

  ghost predicate Registered(s: State, fd: nat, e: Event) { fd < |s.table| && Names(s.table[fd].events, e) }

  predicate Picked(e: Event, read: bool, write: bool) { if e.READ? then read else write }

  // Of the waiters for an fd those for READ, for WRITE, or both have met a fate, and nobody else has.
  ghost predicate Fated(h: History, g: History, fd: nat, read: bool, write: bool, fate: Fate) {
    && (forall e: Event :: Picked(e, read, write) ==> (fd, e) in h.slots)
    && g.accepted == h.accepted && |g.fate| == |h.fate| == |h.accepted|
    && (forall k :: k in h.slots ==> h.slots[k] < |h.fate|)
    && (forall k :: k in h.slots ==>
         g.fate[h.slots[k]] == if k.0 == fd && Picked(k.1, read, write) then fate else h.fate[h.slots[k]])
    && (forall n :: 0 <= n < |h.fate| && !h.fate[n].Waiting? ==> g.fate[n] == h.fate[n])
  }

  // The same of the whole state: they are not registered any more, and those that were woken were
  // scheduled, READ first.
  ghost predicate Gone(s: State, t: State, fd: nat, read: bool, write: bool, fate: Fate) {
    && Fated(s.h, t.h, fd, read, write, fate) && |t.table| == |s.table|
    && (forall f: nat, e: Event ::
         Registered(t, f, e) <==> Registered(s, f, e) && !(f == fd && Picked(e, read, write)))
    && t.scheduled == s.scheduled
         + (if read && fate.Woken? then [s.h.accepted[s.h.slots[(fd, READ)]]] else [])
         + (if write && fate.Woken? then [s.h.accepted[s.h.slots[(fd, WRITE)]]] else [])
  }

  lemma BitsAre(mask: Mask, e: Event)
    ensures Names(mask, e) <==> Has(mask, e)
    ensures Failed(mask) <==> mask & (ERR | HUP) != NONE
  {
  }

  lemma OneRegistered(table: seq<Entry>, fd: nat, e: Event, f: nat, g: Event)
    requires fd < |table| && f < |table|
    ensures Names(table[fd := Cleared(table[fd], e)][f].events, g)
            <==> Names(table[f].events, g) && !(f == fd && g == e)
  {
    hide Names, Has, Cleared;
    BitsAre(table[fd := Cleared(table[fd], e)][f].events, g);
    BitsAre(table[f].events, g);
    OneHalf(table[fd], e, FiberTask(0), g);
  }

  lemma OneFated(h: History, fd: nat, e: Event)
    requires h.Valid() && (fd, e) in h.slots
    ensures Fated(h, h.Wake(fd, e), fd, e.READ?, e.WRITE?, Woken)
    ensures Fated(h, h.Drop(fd, e), fd, e.READ?, e.WRITE?, Dropped)
  {
  }

  lemma BothFated(h: History, fd: nat)
    requires h.Valid() && (fd, READ) in h.slots && (fd, WRITE) in h.slots
    ensures h.Wake(fd, READ).Holds(fd, WRITE)
    ensures Fated(h, h.Wake(fd, READ).Wake(fd, WRITE), fd, true, true, Woken)
  {
    WakeValid(h, fd, READ);
    var g := h.Wake(fd, READ);
    OneFated(h, fd, READ);
    OneFated(g, fd, WRITE);
    hide History.Valid;
    assert forall k :: k in g.slots <==> k in h.slots && k != (fd, READ);
  }

  // One waiter leaves, woken or dropped.
  lemma OneGone(s: State, fd: nat, e: Event)
    requires s.Good() && fd < |s.table| && Has(s.table[fd].events, e)
    ensures FireReady(s, fd, e) && s.h.Valid() && (fd, e) in s.h.slots
    ensures Gone(s, s.Fire(fd, e), fd, e.READ?, e.WRITE?, Woken)
    ensures Gone(s, s.Forget(fd, e), fd, e.READ?, e.WRITE?, Dropped)
  {
    LeaveGood(s, fd, e);
    assert s.h.Valid() && (fd, e) in s.h.slots;
    OneFated(s.h, fd, e);
    forall f: nat, g: Event | f < |s.table|
      ensures Names(s.table[fd := Cleared(s.table[fd], e)][f].events, g)
              <==> Names(s.table[f].events, g) && !(f == fd && g == e)
    {
      OneRegistered(s.table, fd, e, f, g);
    }
    hide Names, Has, Cleared, State.Good, History.Valid, Entry.Get, Fated, History.Wake, History.Drop;
  }

  lemma MaskGone(s: State, fd: nat, hits: Mask)
    requires s.Good() && fd < |s.table| && Covers(s.table[fd].events, hits)
    ensures Gone(s, FireMask(s, fd, hits), fd, Has(hits, READ), Has(hits, WRITE), Woken)
  {
    FireBoth(s, fd);
    if Has(hits, READ) && Has(hits, WRITE) {
      BothGone(s, fd);
    } else if Has(hits, READ) {
      OneGone(s, fd, READ);
    } else if Has(hits, WRITE) {
      OneGone(s, fd, WRITE);
    } else {
      NoneGone(s, fd);
    }
  }

  lemma NoneGone(s: State, fd: nat)
    requires s.Good()
    ensures Gone(s, s, fd, false, false, Woken)
  {
  }

  lemma BothGone(s: State, fd: nat)
    requires s.Good() && fd < |s.table| && Has(s.table[fd].events, READ) && Has(s.table[fd].events, WRITE)
    ensures FireReady(s, fd, READ) && FireReady(s.Fire(fd, READ), fd, WRITE)
    ensures Gone(s, s.Fire(fd, READ).Fire(fd, WRITE), fd, true, true, Woken)
  {
    FireBoth(s, fd);
    OneGone(s, fd, READ);
    var m := s.Fire(fd, READ);
    OneHalf(s.table[fd], READ, FiberTask(0), WRITE);
    OneGone(m, fd, WRITE);
    BothFated(s.h, fd);
    assert m.h == s.h.Wake(fd, READ) && m.Fire(fd, WRITE).h == m.h.Wake(fd, WRITE);
    hide Has, Cleared, State.Good, History.Valid, Gone, State.Fire;
    GoneTwice(s, m, m.Fire(fd, WRITE), fd);
  }

  lemma GoneTwice(s: State, m: State, t: State, fd: nat)
    requires Gone(s, m, fd, true, false, Woken) && Gone(m, t, fd, false, true, Woken)
    requires Fated(s.h, t.h, fd, true, true, Woken) && m.h.slots[(fd, WRITE)] == s.h.slots[(fd, WRITE)]
    ensures Gone(s, t, fd, true, true, Woken)
  {
    hide Registered;
  }

  // What every call does to the waiters, by the bits of the masks. A callback that was given, and not
  // the running fiber, becomes the waiter. A dispatched report wakes every waiter that it names, and
  // on an error all of them.
  lemma Effects(w: World, call: Call)
    requires w.Valid() && Next(w, call).Some?
    ensures var s, t := w.s, Next(w, call).value.s;
            match call
            case AddCall(fd, e, cb, current, fails) => Joined(s, t, fd, e, cb, current, fails)
            case DelCall(fd, e, fails) => Leaves(s, t, fd, e.READ?, e.WRITE?, fails, Dropped)
            case CancelCall(fd, e, fails) => Leaves(s, t, fd, e.READ?, e.WRITE?, fails, Woken)
            case CancelAllCall(fd, fails) => Leaves(s, t, fd, true, true, fails, Woken)
            case WaitCall(_) => t == s
            case DispatchCall(i, fails) =>
              if i >= |w.reports| then t == s
              else
                var Report(fd, mask) := w.reports[i];
                Leaves(s, t, fd, Names(mask, READ) || Failed(mask), Names(mask, WRITE) || Failed(mask), fails, Woken)
  {
    hide Joined, Leaves, Gone, Has, State.Good, State.KernelAgrees, RealEvents, Meets, Covers, FireMask, Names, Failed;
    hide State.Arm, State.Fire, State.Forget;
    match call
    case AddCall(fd, e, cb, current, fails) => AddEffect(w, fd, e, cb, current, fails);
    case DelCall(fd, e, fails) => DelEffect(w, fd, e, fails);
    case CancelCall(fd, e, fails) => CancelEffect(w, fd, e, fails);
    case CancelAllCall(fd, fails) => CancelAllEffect(w, fd, fails);
    case WaitCall(_) =>
    case DispatchCall(i, fails) => if i < |w.reports| { DispatchEffect(w, i, fails); }
  }

  // Those of the events that are waited for leave, unless there are none or epoll_ctl fails.
  ghost predicate Leaves(s: State, t: State, fd: nat, read: bool, write: bool, fails: bool, fate: Fate) {
    var r, w := read && Registered(s, fd, READ), write && Registered(s, fd, WRITE);
    if fails || !(r || w) then t == s else Gone(s, t, fd, r, w, fate)
  }

  // The waiter joins with a ticket of its own, unless epoll_ctl fails.
  ghost predicate Joined(s: State, t: State, fd: nat, e: Event, cb: Option<nat>, current: nat, fails: bool) {
    && t.scheduled == s.scheduled && !Registered(s, fd, e)
    && (forall f: nat, g: Event :: Registered(t, f, g) <==> Registered(s, f, g) || (!fails && f == fd && g == e))
    && (fails ==> t.h == s.h)
    && (!fails ==>
          && t.h.accepted == s.h.accepted + [if cb.Some? then CallbackTask(cb.value) else FiberTask(current)]
          && t.h.fate == s.h.fate + [Waiting(fd, e)])
  }

  // The kernel's interest is no part of it.
  lemma GoneInterest(s: State, t: State, fd: nat, read: bool, write: bool, fate: Fate, mask: Mask)
    requires Gone(s, t, fd, read, write, fate)
    ensures Gone(s, t.Interest(fd, mask), fd, read, write, fate)
  {
    hide Fated;
  }

  lemma DelEffect(w: World, fd: nat, e: Event, fails: bool)
    requires w.Valid()
    ensures Leaves(w.s, Next(w, DelCall(fd, e, fails)).value.s, fd, e.READ?, e.WRITE?, fails, Dropped)
  {
    hide Names, Has, State.Good, State.KernelAgrees, Gone, State.Forget;
    if fd < |w.s.table| {
      BitsAre(w.s.table[fd].events, e);
      if Has(w.s.table[fd].events, e) {
        OneGone(w.s, fd, e);
        var left := Without(w.s.table[fd].events, e);
        GoneInterest(w.s, w.s.Forget(fd, e), fd, e.READ?, e.WRITE?, Dropped, left);
      }
    }
  }

  lemma CancelEffect(w: World, fd: nat, e: Event, fails: bool)
    requires w.Valid()
    ensures Leaves(w.s, Next(w, CancelCall(fd, e, fails)).value.s, fd, e.READ?, e.WRITE?, fails, Woken)
  {
    hide Names, Has, State.Good, State.KernelAgrees, Gone, State.Fire;
    if fd < |w.s.table| {
      BitsAre(w.s.table[fd].events, e);
      if Has(w.s.table[fd].events, e) {
        OneGone(w.s, fd, e);
        var left := Without(w.s.table[fd].events, e);
        GoneInterest(w.s, w.s.Fire(fd, e), fd, e.READ?, e.WRITE?, Woken, left);
      }
    }
  }

  lemma CancelAllEffect(w: World, fd: nat, fails: bool)
    requires w.Valid()
    ensures Leaves(w.s, Next(w, CancelAllCall(fd, fails)).value.s, fd, true, true, fails, Woken)
  {
    hide Names, Has, State.KernelAgrees, Fated, FireMask;
    if fd < |w.s.table| {
      var events := w.s.table[fd].events;
      IOManager.EntryOk(w.s, fd, READ);
      TwoBits(events, READ);
      BitsAre(events, READ);
      BitsAre(events, WRITE);
      AllCovered(events);
      MaskGone(w.s, fd, events);
    }
  }

  lemma DispatchEffect(w: World, i: nat, fails: bool)
    requires w.Valid() && i < |w.reports| && Next(w, DispatchCall(i, fails)).Some?
    ensures var Report(fd, mask), t := w.reports[i], Next(w, DispatchCall(i, fails)).value.s;
            Leaves(w.s, t, fd, Names(mask, READ) || Failed(mask), Names(mask, WRITE) || Failed(mask), fails, Woken)
  {
    var Report(fd, mask) := w.reports[i];
    var events := w.s.table[fd].events;
    IOManager.EntryOk(w.s, fd, READ);
    HitsAre(events, mask);
    BitsAre(events, READ);
    BitsAre(events, WRITE);
    hide Names, Failed, Has, State.Good, State.KernelAgrees, Gone, FireMask, RealEvents, Meets, Covers, Left;
    var hits := RealEvents(mask, events);
    if Covers(events, hits) {
      MaskGone(w.s, fd, hits);
      GoneInterest(w.s, FireMask(w.s, fd, hits), fd, Has(hits, READ), Has(hits, WRITE), Woken, Left(events, hits));
    }
  }

  lemma HitsAre(events: Mask, mask: Mask)
    requires Clean(events)
    ensures var hits := RealEvents(mask, events);
            && (Meets(events, hits) <==>
                  (Has(events, READ) && Has(hits, READ)) || (Has(events, WRITE) && Has(hits, WRITE)))
            && (Covers(events, hits) ==> forall e: Event ::
                  Has(hits, e) <==> Names(events, e) && (Names(mask, e) || Failed(mask)))
  {
  }

  lemma AddEffect(w: World, fd: nat, e: Event, cb: Option<nat>, current: nat, fails: bool)
    requires w.Valid() && Next(w, AddCall(fd, e, cb, current, fails)).Some?
    ensures Joined(w.s, Next(w, AddCall(fd, e, cb, current, fails)).value.s, fd, e, cb, current, fails)
  {
    var g := IOManager.Reach(w.s, fd);
    ReachKeeps(w.s, fd);
    ReachSame(w.s, fd);
    BitsAre(g.table[fd].events, e);
    if !fails {
      forall f: nat, h: Event | f < |g.table|
        ensures Names(g.Arm(fd, e, TaskOf(cb, current)).table[f].events, h)
                <==> Names(g.table[f].events, h) || (f == fd && h == e)
      {
        BitsAre(g.table[f].events, h);
        BitsAre(Armed(g.table[fd], e, TaskOf(cb, current)).events, h);
        OneHalf(g.table[fd], e, TaskOf(cb, current), h);
      }
    }
    hide Names, Has, State.Good, State.KernelAgrees, Armed, IOManager.Reach;
  }

  lemma ReachSame(s: State, fd: nat)
    ensures var g := IOManager.Reach(s, fd);
            && g.h == s.h && g.scheduled == s.scheduled
            && forall f: nat, e: Event :: Registered(g, f, e) <==> Registered(s, f, e)
  {
  }

  // An event of an fd was registered when the n-th call, a wait, returned the report.
  ghost predicate SeenAt(calls: seq<Call>, n: nat, r: Report, e: Event) {
    && n < |calls| && calls[n] == WaitCall(r) && After(calls[..n]).Some?
    && r.fd < |After(calls[..n]).value.s.table|
    && Has(After(calls[..n]).value.s.table[r.fd].events, e)
  }

  ghost predicate Seen(calls: seq<Call>, r: Report, e: Event) {
    exists n :: 0 <= n < |calls| && SeenAt(calls, n, r, e)
  }

  // Whatever event an outstanding report names was registered when epoll_wait returned it.
  lemma {:induction false} ReportsSeen(calls: seq<Call>, r: Report, e: Event)
    requires After(calls).Some? && r in After(calls).value.reports && Has(r.mask, e)
    ensures Seen(calls, r, e)
    decreases |calls|
  {
    hide Has, Next, World.Valid, State.Good, State.KernelAgrees, Possible;
    var n := |calls| - 1;
    var before := After(calls[..n]).value;
    if r in before.reports {
      ReportsSeen(calls[..n], r, e);
      var k :| 0 <= k < n && SeenAt(calls[..n], k, r, e);
      assert calls[..n][..k] == calls[..k];
      assert SeenAt(calls, k, r, e);
    } else {
      NewReport(before, calls[n], r);
      KernelOfWorld(before);
      InKernel(before.s, r);
      assert SeenAt(calls, n, r, e);
    }
  }

  lemma KernelOfWorld(w: World)
    requires w.Valid()
    ensures w.s.KernelAgrees()
  {
  }

  // Only a wait brings reports.
  lemma NewReport(w: World, call: Call, r: Report)
    requires w.Valid() && Next(w, call).Some? && r !in w.reports && r in Next(w, call).value.reports
    ensures call == WaitCall(r) && Possible(w.s.kernel, r)
  {
    hide Has, State.Good, State.KernelAgrees, Possible, RealEvents, Meets, Covers, Left, FireMask, State.Arm;
    hide IOManager.Reach, State.Fire, State.Forget;
  }

  // Over all runs, dispatching a report stops the process if and only if epoll_ctl does not fail first,
  // the report still concerns somebody who waits, and an event it names was registered when epoll_wait
  // returned it and has been removed since.
  lemma DispatchAborts(calls: seq<Call>, i: nat, fails: bool)
    requires After(calls).Some? && i < |After(calls).value.reports|
    ensures var w, r := After(calls).value, After(calls).value.reports[i];
            r.fd < |w.s.table|
            && (After(calls + [DispatchCall(i, fails)]).None? <==>
                 !fails && Concerns(w.s.table[r.fd].events, r.mask)
                 && exists e: Event :: Has(r.mask, e) && Seen(calls, r, e) && !Has(w.s.table[r.fd].events, e))
  {
    var w, r := After(calls).value, After(calls).value.reports[i];
    AfterOne(calls, DispatchCall(i, fails));
    var events := w.s.table[r.fd].events;
    assert Clean(events);
    RealHits(events, r.mask);
    DispatchNext(w, i, fails);
    hide *;
    forall e: Event | Has(r.mask, e) ensures Seen(calls, r, e) { ReportsSeen(calls, r, e); }
  }

  lemma DispatchNext(w: World, i: nat, fails: bool)
    requires w.Valid() && i < |w.reports|
    ensures var events, hits := w.s.table[w.reports[i].fd].events,
                                RealEvents(w.reports[i].mask, w.s.table[w.reports[i].fd].events);
            Next(w, DispatchCall(i, fails)).None? <==> !fails && Meets(events, hits) && !Covers(events, hits)
  {
    hide State.Good, State.KernelAgrees, RealEvents, Meets, Covers, FireMask, Left;
  }

  // Somebody waits for an event that the report names, or for any event if it names an error condition.
  predicate Concerns(events: Mask, mask: Mask) {
    exists e: Event :: Has(events, e) && (Has(mask, e) || mask & (ERR | HUP) != NONE)
  }

  lemma RealHits(events: Mask, mask: Mask)
    requires Clean(events)
    ensures Meets(events, RealEvents(mask, events)) <==> Concerns(events, mask)
    ensures Covers(events, RealEvents(mask, events)) <==> forall e: Event :: Has(mask, e) ==> Has(events, e)
  {
    var hits := RealEvents(mask, events);
    assert Meets(events, hits) <==> (Has(events, READ) && Has(hits, READ)) || (Has(events, WRITE) && Has(hits, WRITE));
  }

  // Whatever is called in whatever order, and whatever the kernel reports or refuses: the process is
  // stopped exactly when a step of the run is, and until then the table, the kernel, the counter and
  // the fates of all waiters agree.
  method Run(calls: seq<Call>) returns (m: IOManager, aborted: bool)
    ensures aborted <==> After(calls).None?
    ensures !aborted ==> m.Valid() && World(m.Abs(), m.m_reports) == After(calls).value
    ensures !aborted ==> forall t :: 0 <= t < |m.history.accepted| ==>
              multiset(m.history.woken)[t] == if m.history.fate[t] == Woken then 1 else 0
    ensures !aborted ==> m.m_scheduled == m.history.Delivered()
    ensures !aborted ==> m.m_pendingEventCount == Total(TableOf(m.m_fdContexts))
  {
    hide TableOf, Total, Entry.Valid, State.KernelAgrees, History.Valid, History.Matches, Next;
    m := new IOManager();
    aborted := false;
    var n := 0;
    while n < |calls|
      invariant n <= |calls| && !aborted
      invariant fresh(m) && forall i :: 0 <= i < |m.m_fdContexts| ==> fresh(m.m_fdContexts[i])
      invariant m.Valid() && After(calls[..n]) == Some(World(m.Abs(), m.m_reports))
    {
      assert calls[..n + 1][..n] == calls[..n];
      aborted := RunOne(m, calls[n]);
      n := n + 1;
      if aborted {
        NoneStays(calls, n);
        return;
      }
    }
    assert calls[..n] == calls;
    AllFates(m.history);
  }

  lemma AllFates(h: History)
    requires h.Valid()
    ensures forall t :: 0 <= t < |h.accepted| ==>
              multiset(h.woken)[t] == if h.fate[t] == Woken then 1 else 0
  {
    forall t: nat | t < |h.accepted| ensures multiset(h.woken)[t] == if h.fate[t] == Woken then 1 else 0 {
      OneFate(h, t);
    }
  }

  method RunOne(m: IOManager, call: Call) returns (aborted: bool)
    requires m.Valid() && World(m.Abs(), m.m_reports).Valid()
    modifies m, m.m_fdContexts
    ensures old(m.m_fdContexts) <= m.m_fdContexts
    ensures forall i :: |old(m.m_fdContexts)| <= i < |m.m_fdContexts| ==> fresh(m.m_fdContexts[i])
    ensures old(World(m.Abs(), m.m_reports)).Valid()
    ensures aborted <==> Next(old(World(m.Abs(), m.m_reports)), call).None?
    ensures !aborted ==> m.Valid() && World(m.Abs(), m.m_reports) == Next(old(World(m.Abs(), m.m_reports)), call).value
  {
    hide State.Good, State.KernelAgrees, TableOf, FireMask, State.Fire, State.Forget, State.Arm, Possible;
    aborted := false;
    match call
    case AddCall(fd, e, cb, current, fails) =>
      var r := m.AddEvent(fd, e, cb, current, fails);
      aborted := r.Asserted?;
    case DelCall(fd, e, fails) => var r := m.DelEvent(fd, e, fails);
    case CancelCall(fd, e, fails) => var r := m.CancelEvent(fd, e, fails);
    case CancelAllCall(fd, fails) => var r := m.CancelAll(fd, fails);
    case WaitCall(report) => m.Receive(report);
    case DispatchCall(i, fails) =>
      if i < |m.m_reports| {
        var r := m.DispatchReport(i, fails);
        aborted := r.Aborted?;
      }
  }

  // A run with one more call.
  lemma AfterOne(calls: seq<Call>, call: Call)
    requires After(calls).Some?
    ensures After(calls + [call]) == Next(After(calls).value, call)
  {
    assert (calls + [call])[..|calls|] == calls;
  }

  lemma AddOne(w: World, e: Event, fiber: nat)
    requires w.Valid() && !Has(w.s.table[0].events, e)
    ensures var next := Next(w, AddCall(0, e, None, fiber, false));
            && next.Some? && next.value.Valid() && next.value.reports == w.reports
            && next.value.s.table[0].events == With(w.s.table[0].events, e)
  {
    hide Has, State.Good, State.KernelAgrees, Armed, With;
    NextValid(w, AddCall(0, e, None, fiber, false));
    ArmedEvents(w.s.table[0], e, FiberTask(fiber));
  }

  lemma DelOne(w: World, e: Event)
    requires w.Valid() && Has(w.s.table[0].events, e)
    ensures var next := Next(w, DelCall(0, e, false));
            && next.Some? && next.value.Valid() && next.value.reports == w.reports
            && next.value.s.table[0].events == Without(w.s.table[0].events, e)
  {
    hide Has, State.Good, State.KernelAgrees, Cleared, Without, Armed;
    NextValid(w, DelCall(0, e, false));
    LeaveGood(w.s, 0, e);
    ArmedEvents(w.s.table[0], e, FiberTask(0));
  }

  lemma WaitOne(w: World, r: Report)
    requires w.Valid() && r.fd < |w.s.table| && w.s.table[r.fd].events != NONE
    requires forall e: Event :: Has(r.mask, e) ==> Has(w.s.table[r.fd].events, e)
    ensures Next(w, WaitCall(r)) == Some(World(w.s, w.reports + [r]))
  {
    hide Has;
    assert w.s.KernelAt(r.fd, w.s.table[r.fd]);
  }

  lemma Bits()
    ensures !Has(NONE, READ) && !Has(With(NONE, READ), WRITE)
    ensures forall e: Event :: Has(With(With(NONE, READ), WRITE), e)
    ensures With(With(NONE, READ), WRITE) != NONE
    ensures var left := Without(With(With(NONE, READ), WRITE), WRITE);
            Meets(left, RealEvents(IN | OUT, left)) && !Covers(left, RealEvents(IN | OUT, left))
  {
  }

  const READER := AddCall(0, READ, None, 7, false)
  const WRITER := AddCall(0, WRITE, None, 8, false)
  const BOTH := WaitCall(Report(0, IN | OUT))
  const REMOVE := DelCall(0, WRITE, false)

  lemma AfterNone()
    ensures After([]).Some? && After([]).value.reports == [] && After([]).value.s.table[0].events == NONE
  {
  }

  lemma BothAdded()
    ensures After([READER, WRITER]).Some? && After([READER, WRITER]).value.reports == []
    ensures After([READER, WRITER]).value.s.table[0].events == With(With(NONE, READ), WRITE)
  {
    Bits();
    AfterNone();
    hide After, Next, World.Valid, Has, With, Without, Free, State.Good, State.KernelAgrees;
    AddOne(After([]).value, READ, 7);
    AfterOne([], READER);
    assert [] + [READER] == [READER];
    AddOne(After([READER]).value, WRITE, 8);
    AfterOne([READER], WRITER);
    assert [READER] + [WRITER] == [READER, WRITER];
  }

  lemma OneRemoved()
    ensures var calls := [READER, WRITER, BOTH, REMOVE];
            After(calls).Some? && After(calls).value.reports == [Report(0, IN | OUT)]
            && After(calls).value.s.table[0].events == Without(With(With(NONE, READ), WRITE), WRITE)
  {
    BothAdded();
    Bits();
    hide After, Next, Has, With, Without, Free, State.Good, State.KernelAgrees;
    var w := After([READER, WRITER]).value;
    WaitOne(w, Report(0, IN | OUT));
    AfterOne([READER, WRITER], BOTH);
    assert [READER, WRITER] + [BOTH] == [READER, WRITER, BOTH];
    DelOne(After([READER, WRITER, BOTH]).value, WRITE);
    AfterOne([READER, WRITER, BOTH], REMOVE);
    assert [READER, WRITER, BOTH] + [REMOVE] == [READER, WRITER, BOTH, REMOVE];
  }

  // Both events of a socket are reported, and the waiter for WRITE is removed before the worker gets to
  // the report: the process is stopped by its own assertion.
  lemma DispatchStops()
    ensures After([READER, WRITER, BOTH, REMOVE, DispatchCall(0, false)]) == None
  {
    OneRemoved();
    Bits();
    hide Has, State.Good, State.KernelAgrees, RealEvents, Meets, Covers, With, Without, After, World.Valid;
    var calls := [READER, WRITER, BOTH, REMOVE];
    AfterOne(calls, DispatchCall(0, false));
    assert calls + [DispatchCall(0, false)] == [READER, WRITER, BOTH, REMOVE, DispatchCall(0, false)];
  }
}
