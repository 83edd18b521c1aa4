/** The fd event table of IOManager: waiters, the kernel interest set and what becomes of a waiter. */
module IoEvents {
  import opened Options

  datatype Event = READ | WRITE

  // The bits of Event, which are those of EPOLLIN and EPOLLOUT, and the two error conditions.
  type Mask = bv8
  const NONE: Mask := 0x00
  const IN: Mask := 0x01
  const OUT: Mask := 0x04
  const ERR: Mask := 0x08
  const HUP: Mask := 0x10

  function Bit(e: Event): Mask { if e.READ? then IN else OUT }

  predicate Has(events: Mask, e: Event) { events & Bit(e) != NONE }

  predicate Clean(events: Mask) { events & !(IN | OUT) == NONE }

  // events | event and events & ~event
  function With(events: Mask, e: Event): Mask { events | Bit(e) }

  function Without(events: Mask, e: Event): Mask { events & !Bit(e) }

  // What a scheduler is given: a fiber or a callback, by name.
  datatype Task = FiberTask(fiber: nat) | CallbackTask(cb: nat)

  // One half of an FdContext; the scheduler pointer is either null or the scheduler of the waiter.
  datatype EventContext = EventContext(scheduler: bool, fiber: Option<nat>, cb: Option<nat>)
  {
    // A scheduler and exactly one of fiber and callback.
    predicate Waits() { scheduler && (fiber.Some? <==> cb.None?) }
  }

  const EMPTY := EventContext(false, None, None)

  function ContextOf(task: Task): EventContext {
    match task
    case FiberTask(f) => EventContext(true, Some(f), None)
    case CallbackTask(c) => EventContext(true, None, Some(c))
  }

  // An FdContext as a value.
  datatype Entry = Entry(events: Mask, read: EventContext, write: EventContext)
  {
    function Get(e: Event): EventContext { if e.READ? then read else write }

    function Set(e: Event, ctx: EventContext, mask: Mask): Entry {
      if e.READ? then Entry(mask, ctx, write) else Entry(mask, read, ctx)
    }

    // A bit is set exactly when its half holds a waiter; otherwise the half is empty.
    ghost predicate Half(e: Event) { if Has(events, e) then Get(e).Waits() else Get(e) == EMPTY }

    ghost predicate Valid() {
      && Clean(events)
      && forall e: Event :: Half(e)
    }
  }

  function Armed(entry: Entry, e: Event, task: Task): Entry {
    entry.Set(e, ContextOf(task), With(entry.events, e))
  }

  function Cleared(entry: Entry, e: Event): Entry {
    entry.Set(e, EMPTY, Without(entry.events, e))
  }

  const FREE := Entry(NONE, EMPTY, EMPTY)

  function Count(events: Mask): nat {
    (if Has(events, READ) then 1 else 0) + (if Has(events, WRITE) then 1 else 0)
  }

  function Total(table: seq<Entry>): nat {
    if |table| == 0 then 0 else Count(table[0].events) + Total(table[1..])
  }

  lemma {:induction false} TotalUpdate(table: seq<Entry>, fd: nat, entry: Entry)
    requires fd < |table|
    ensures Total(table[fd := entry]) == Total(table) - Count(table[fd].events) + Count(entry.events)
  {
    if fd == 0 {
      assert table[0 := entry][1..] == table[1..];
    } else {
      assert table[fd := entry][1..] == table[1..][fd - 1 := entry];
      TotalUpdate(table[1..], fd - 1, entry);
    }
  }

  lemma {:induction false} TotalGrown(table: seq<Entry>, n: nat)
    ensures Total(table + Free(n)) == Total(table)
  {
    if |table| > 0 {
      assert (table + Free(n))[1..] == table[1..] + Free(n);
      TotalGrown(table[1..], n);
    } else {
      assert table + Free(n) == Free(n);
      TotalFree(n);
    }
  }

  function Free(n: nat): seq<Entry> { seq(n, i => FREE) }

  lemma {:induction false} TotalFree(n: nat)
    ensures Total(Free(n)) == 0
  {
    if n > 0 {
      assert Free(n)[1..] == Free(n - 1);
      TotalFree(n - 1);
    }
  }

  // ---- what becomes of a waiter -----------------------------------------------------------------

  datatype Fate = Waiting(fd: nat, event: Event) | Woken | Dropped

  // Every accepted waiter gets a ticket, its index in `accepted`; `slots` are the waiting ones by
  // place, `woken` the ones handed to the scheduler, in order.
  datatype History = History(
    accepted: seq<Task>, fate: seq<Fate>, slots: map<(nat, Event), nat>, woken: seq<nat>)
  {
    function Accept(fd: nat, e: Event, task: Task): History {
      History(accepted + [task], fate + [Waiting(fd, e)], slots[(fd, e) := |accepted|], woken)
    }

    ghost predicate Holds(fd: nat, e: Event) { (fd, e) in slots && slots[(fd, e)] < |fate| }

    function Wake(fd: nat, e: Event): History
      requires Holds(fd, e)
    {
      var t := slots[(fd, e)];
      History(accepted, fate[t := Woken], slots - {(fd, e)}, woken + [t])
    }

    function Drop(fd: nat, e: Event): History
      requires Holds(fd, e)
    {
      History(accepted, fate[slots[(fd, e)] := Dropped], slots - {(fd, e)}, woken)
    }

    // A ticket is either waiting at its one place, or woken exactly once, or dropped.
    ghost predicate Valid() {
      && |fate| == |accepted|
      && (forall t :: 0 <= t < |fate| && fate[t].Waiting? ==>
           (fate[t].fd, fate[t].event) in slots && slots[(fate[t].fd, fate[t].event)] == t)
      && (forall k :: k in slots ==> slots[k] < |fate| && fate[slots[k]] == Waiting(k.0, k.1))
      && (forall i :: 0 <= i < |woken| ==> woken[i] < |fate| && fate[woken[i]] == Woken)
      && (forall i, j :: 0 <= i < j < |woken| ==> woken[i] != woken[j])
      && (forall t :: 0 <= t < |fate| && fate[t] == Woken ==> t in woken)
    }

    // A place waits exactly when its bit is set, and its half then holds what was accepted there.
    ghost predicate At(fd: nat, e: Event, entry: Entry)
      requires Valid()
    {
      if Has(entry.events, e)
      then (fd, e) in slots && entry.Get(e) == ContextOf(accepted[slots[(fd, e)]])
      else (fd, e) !in slots
    }

    ghost predicate Matches(table: seq<Entry>)
      requires Valid()
    {
      && (forall k :: k in slots ==> k.0 < |table|)
      && (forall fd: nat, e :: fd < |table| ==> At(fd, e, table[fd]))
    }

    // What the scheduler received from the table.
    function Delivered(): seq<Task>
      requires forall i :: 0 <= i < |woken| ==> woken[i] < |accepted|
    {
      seq(|woken|, i requires 0 <= i < |woken| => accepted[woken[i]])
    }
  }

  // Each accepted waiter was scheduled exactly once, or dropped, or is still waiting at one place;
  // never two of these.
  lemma OneFate(h: History, t: nat)
    requires h.Valid() && t < |h.accepted|
    ensures multiset(h.woken)[t] == (if h.fate[t] == Woken then 1 else 0)
    ensures h.fate[t].Waiting? <==> exists k :: k in h.slots && h.slots[k] == t
    ensures forall j, k :: j in h.slots && k in h.slots && h.slots[j] == t && h.slots[k] == t ==> j == k
    ensures h.fate[t] == Dropped ==> t !in h.woken && forall k :: k in h.slots ==> h.slots[k] != t
  {
    OccursOnce(h.woken, t);
    if h.fate[t].Waiting? {
      assert (h.fate[t].fd, h.fate[t].event) in h.slots;
    }
  }

  lemma {:induction false} OccursOnce(s: seq<nat>, t: nat)
    requires forall i, j :: 0 <= i < j < |s| ==> s[i] != s[j]
    ensures multiset(s)[t] == if t in s then 1 else 0
  {
    if |s| > 0 {
      assert s == [s[0]] + s[1..];
      OccursOnce(s[1..], t);
    }
  }

  // Accepting, waking and dropping keep the history valid ...
  lemma AcceptValid(h: History, fd: nat, e: Event, task: Task)
    requires h.Valid() && (fd, e) !in h.slots
    ensures h.Accept(fd, e, task).Valid()
    ensures h.Accept(fd, e, task).Delivered() == h.Delivered()
  {
  }

  lemma WakeValid(h: History, fd: nat, e: Event)
    requires h.Valid() && (fd, e) in h.slots
    ensures h.Wake(fd, e).Valid()
    ensures h.Wake(fd, e).Delivered() == h.Delivered() + [h.accepted[h.slots[(fd, e)]]]
  {
    var t, w := h.slots[(fd, e)], h.Wake(fd, e);
    assert w.woken[|h.woken|] == t;
    forall u | 0 <= u < |w.fate| && w.fate[u] == Woken ensures u in w.woken {
      if u != t { assert u in h.woken; }
    }
  }

  lemma DropValid(h: History, fd: nat, e: Event)
    requires h.Valid() && (fd, e) in h.slots
    ensures h.Drop(fd, e).Valid()
    ensures h.Drop(fd, e).Delivered() == h.Delivered()
  {
  }

  // ... and in step with the table.
  lemma AcceptKeeps(h: History, table: seq<Entry>, fd: nat, e: Event, task: Task)
    requires h.Valid() && h.Matches(table) && fd < |table| && !Has(table[fd].events, e)
    ensures (fd, e) !in h.slots && h.Accept(fd, e, task).Valid()
    ensures h.Accept(fd, e, task).Matches(table[fd := Armed(table[fd], e, task)])
    ensures h.Accept(fd, e, task).Delivered() == h.Delivered()
  {
    assert h.At(fd, e, table[fd]);
    AcceptValid(h, fd, e, task);
    var after := table[fd := Armed(table[fd], e, task)];
    forall f: nat, g: Event | f < |after| ensures h.Accept(fd, e, task).At(f, g, after[f]) {
      assert h.At(f, g, table[f]);
      if f == fd { AcceptAt(h, table[fd], fd, e, task, g); }
    }
  }

  lemma AcceptAt(h: History, entry: Entry, fd: nat, e: Event, task: Task, g: Event)
    requires h.Valid() && (fd, e) !in h.slots && h.Accept(fd, e, task).Valid()
    requires h.At(fd, g, entry)
    ensures h.Accept(fd, e, task).At(fd, g, Armed(entry, e, task))
  {
    hide Has, Bit, Armed, Entry.Get;
    OneHalf(entry, e, task, g);
    assert (fd, g) in h.slots ==> h.slots[(fd, g)] < |h.accepted|;
  }

  lemma LeaveKeeps(h: History, table: seq<Entry>, fd: nat, e: Event)
    requires h.Valid() && h.Matches(table) && fd < |table| && Has(table[fd].events, e)
    ensures h.Holds(fd, e) && table[fd].Get(e) == ContextOf(h.accepted[h.slots[(fd, e)]])
    ensures h.Wake(fd, e).Valid() && h.Wake(fd, e).Matches(table[fd := Cleared(table[fd], e)])
    ensures h.Drop(fd, e).Valid() && h.Drop(fd, e).Matches(table[fd := Cleared(table[fd], e)])
    ensures h.Wake(fd, e).Delivered() == h.Delivered() + [h.accepted[h.slots[(fd, e)]]]
    ensures h.Drop(fd, e).Delivered() == h.Delivered()
  {
    hide Has, Bit;
    assert h.At(fd, e, table[fd]);
    WakeValid(h, fd, e);
    DropValid(h, fd, e);
    LeaveMatches(h, table, fd, e, h.Wake(fd, e));
    LeaveMatches(h, table, fd, e, h.Drop(fd, e));
  }

  lemma LeaveMatches(h: History, table: seq<Entry>, fd: nat, e: Event, after: History)
    requires h.Valid() && h.Matches(table) && fd < |table| && Has(table[fd].events, e)
    requires after.Valid() && after.accepted == h.accepted && after.slots == h.slots - {(fd, e)}
    ensures after.Matches(table[fd := Cleared(table[fd], e)])
  {
    hide Has, Bit, History.Valid, Cleared;
    var cleared := table[fd := Cleared(table[fd], e)];
    forall f: nat, g: Event | f < |cleared| ensures after.At(f, g, cleared[f]) {
      assert h.At(f, g, table[f]);
      if f == fd { LeaveAt(h, table[fd], fd, e, after, g); }
    }
  }

  lemma LeaveAt(h: History, entry: Entry, fd: nat, e: Event, after: History, g: Event)
    requires h.Valid() && h.At(fd, g, entry)
    requires after.Valid() && after.accepted == h.accepted && after.slots == h.slots - {(fd, e)}
    ensures after.At(fd, g, Cleared(entry, e))
  {
    hide Has, Bit, History.Valid, Cleared, Entry.Get;
    OneHalf(entry, e, FiberTask(0), g);
  }

  // Arming and clearing one half change that half only.
  lemma OneHalf(entry: Entry, e: Event, task: Task, g: Event)
    ensures Has(Armed(entry, e, task).events, g) <==> g == e || Has(entry.events, g)
    ensures Has(Cleared(entry, e).events, g) <==> g != e && Has(entry.events, g)
    ensures Armed(entry, e, task).Get(g) == if g == e then ContextOf(task) else entry.Get(g)
    ensures Cleared(entry, e).Get(g) == if g == e then EMPTY else entry.Get(g)
  {
    hide Has, With, Without;
    OneBit(entry.events, e, g);
  }

  lemma OneBit(m: Mask, e: Event, g: Event)
    ensures Has(With(m, e), g) <==> g == e || Has(m, g)
    ensures Has(Without(m, e), g) <==> g != e && Has(m, g)
  {
    if e == g {
    } else if e.READ? {
      assert (m | IN) & OUT == m & OUT && (m & !IN) & OUT == m & OUT;
    } else {
      assert (m | OUT) & IN == m & IN && (m & !OUT) & IN == m & IN;
    }
  }

  // Masks stay within the two bits, and are empty when neither bit is set.
  lemma TwoBits(m: Mask, e: Event)
    requires Clean(m)
    ensures Clean(With(m, e)) && Clean(Without(m, e)) && With(m, e) != NONE
    ensures m == NONE <==> !Has(m, READ) && !Has(m, WRITE)
    ensures Has(m, e) ==> m != NONE
  {
  }

  // ---- the whole state --------------------------------------------------------------------------

  // The table, the kernel interest set, the pending counter, the queue the table feeds, and the
  // history of its waiters.
  datatype State = State(table: seq<Entry>, kernel: map<nat, Mask>, pending: nat, scheduled: seq<Task>, h: History)
  {
    ghost predicate KernelAgrees() {
      && (forall fd :: fd in kernel ==> fd < |table|)
      && (forall fd: nat :: fd < |table| ==> KernelAt(fd, table[fd]))
    }

    ghost predicate KernelAt(fd: nat, entry: Entry) {
      (fd in kernel <==> entry.events != NONE) && (fd in kernel ==> kernel[fd] == entry.events)
    }

    ghost predicate Good() {
      && (forall fd :: 0 <= fd < |table| ==> table[fd].Valid())
      && pending == Total(table)
      && h.Valid() && h.Matches(table) && h.Delivered() == scheduled
    }

    // A waiter is accepted.
    function Arm(fd: nat, e: Event, task: Task): State
      requires fd < |table|
    {
      var entry := Armed(table[fd], e, task);
      State(table[fd := entry], kernel[fd := entry.events], pending + 1, scheduled, h.Accept(fd, e, task))
    }

    // A waiter is handed to the scheduler ...
    function Fire(fd: nat, e: Event): State
      requires fd < |table| && h.Holds(fd, e) && h.slots[(fd, e)] < |h.accepted| && pending > 0
    {
      State(table[fd := Cleared(table[fd], e)], kernel, pending - 1,
            scheduled + [h.accepted[h.slots[(fd, e)]]], h.Wake(fd, e))
    }

    // ... or forgotten.
    function Forget(fd: nat, e: Event): State
      requires fd < |table| && h.Holds(fd, e) && pending > 0
    {
      State(table[fd := Cleared(table[fd], e)], kernel, pending - 1, scheduled, h.Drop(fd, e))
    }

    // The kernel interest of fd becomes what its entry says.
    function Interest(fd: nat, mask: Mask): State {
      this.(kernel := if mask == NONE then kernel - {fd} else kernel[fd := mask])
    }

    function Grow(n: nat): State { this.(table := table + Free(n)) }
  }

  lemma {:induction false} TotalAtLeast(table: seq<Entry>, fd: nat)
    requires fd < |table|
    ensures Count(table[fd].events) <= Total(table)
  {
    if fd > 0 {
      TotalAtLeast(table[1..], fd - 1);
    }
  }

  lemma EntryHalf(entry: Entry, e: Event, task: Task)
    requires entry.Valid()
    ensures Armed(entry, e, task).Valid() && Cleared(entry, e).Valid()
    ensures Count(Cleared(entry, e).events) == Count(entry.events) - (if Has(entry.events, e) then 1 else 0)
    ensures Count(Armed(entry, e, task).events) == Count(entry.events) + (if Has(entry.events, e) then 0 else 1)
  {
    hide Has, With, Without, Clean, Armed, Cleared, Entry.Get;
    TwoBits(entry.events, e);
    OneHalf(entry, e, task, READ);
    OneHalf(entry, e, task, WRITE);
    ArmedEvents(entry, e, task);
    var a, c := Armed(entry, e, task), Cleared(entry, e);
    forall g: Event ensures a.Half(g) && c.Half(g) {
      assert entry.Half(g);
      OneHalf(entry, e, task, g);
    }
  }

  lemma ArmedEvents(entry: Entry, e: Event, task: Task)
    ensures Armed(entry, e, task).events == With(entry.events, e)
    ensures Cleared(entry, e).events == Without(entry.events, e)
  {
  }

  lemma ArmGood(s: State, fd: nat, e: Event, task: Task)
    requires s.Good() && fd < |s.table| && !Has(s.table[fd].events, e)
    ensures s.Arm(fd, e, task).Good()
  {
    hide Has, Armed, Entry.Valid, Total, Count;
    EntryHalf(s.table[fd], e, task);
    TotalUpdate(s.table, fd, Armed(s.table[fd], e, task));
    AcceptKeeps(s.h, s.table, fd, e, task);
  }

  lemma LeaveGood(s: State, fd: nat, e: Event)
    requires s.Good() && fd < |s.table| && Has(s.table[fd].events, e)
    ensures s.h.Holds(fd, e) && s.h.slots[(fd, e)] < |s.h.accepted| && s.pending > 0
    ensures s.table[fd].Get(e) == ContextOf(s.h.accepted[s.h.slots[(fd, e)]])
    ensures s.Fire(fd, e).Good() && s.Forget(fd, e).Good()
  {
    hide Has, Cleared, Entry.Valid, Total, Count, Entry.Get;
    EntryHalf(s.table[fd], e, FiberTask(0));
    TotalUpdate(s.table, fd, Cleared(s.table[fd], e));
    TotalAtLeast(s.table, fd);
    LeaveKeeps(s.h, s.table, fd, e);
  }

  lemma GrowGood(s: State, n: nat)
    requires s.Good()
    ensures s.Grow(n).Good()
  {
    TotalGrown(s.table, n);
    var after := s.table + Free(n);
    forall f: nat, g: Event | f < |after| ensures s.h.At(f, g, after[f]) {
      if f < |s.table| { assert s.h.At(f, g, s.table[f]); }
    }
  }
}
