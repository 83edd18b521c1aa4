/** TimerManager: an ordered set of timers with re-arming, a clock-rollback rule and a wake-up flag. */
module Timers {
  import opened Bytes
  import opened Options

  // A callback, by name; None is a null std::function.
  type Callback = Option<nat>

  // A due time, or no timer at all.
  datatype Due = At(time: nat) | Never

  predicate Earlier(a: Due, b: Due) { a.At? && (b.Never? || a.time < b.time) }

  // A clock that went back by more than an hour, in the unsigned arithmetic of the check.
  predicate Rolled(previous: nat, now: nat) {
    now < previous && now < U64(previous - 60 * 60 * 1000)
  }

  // In plain arithmetic: a step back by more than an hour, or any step back within the first hour of the
  // clock, where the subtraction wraps around.
  lemma RolledMeaning(previous: nat, now: nat)
    requires previous < TWO_64
    ensures Rolled(previous, now) <==>
              if previous >= 60 * 60 * 1000 then previous - now > 60 * 60 * 1000 else now < previous
  {
    if previous < 60 * 60 * 1000 {
      assert previous - 60 * 60 * 1000 == (previous - 60 * 60 * 1000 + TWO_64) + (-1) * TWO_64;
      assert U64(previous - 60 * 60 * 1000) == previous - 60 * 60 * 1000 + TWO_64;
    }
  }

  class Timer {
    const addr: nat          // the address std::set falls back on
    const m_recurring: bool
    const hadCallback: bool  // whether it was created with a callback
    var m_ms: nat
    var m_next: nat
    var m_cb: Callback

    constructor (ms: nat, cb: Callback, recurring: bool, now: nat, addr: nat)
      ensures m_ms == ms && m_cb == cb && m_recurring == recurring && this.addr == addr
      ensures m_next == U64(now + ms) && hadCallback == cb.Some?
    {
      this.addr, m_recurring, hadCallback := addr, recurring, cb.Some?;
      m_ms, m_next, m_cb := ms, U64(now + ms), cb;
    }
  }

  // Timer::Comparator, null timers first.
  predicate Less(lhs: Timer?, rhs: Timer?)
    reads lhs, rhs
  {
    if lhs == null && rhs == null then false
    else if lhs == null then true
    else if rhs == null then false
    else if lhs.m_next < rhs.m_next then true
    else if rhs.m_next < lhs.m_next then false
    else lhs.addr < rhs.addr
  }

  ghost predicate Sorted(ts: seq<Timer>)
    reads ts
  {
    forall i, j :: 0 <= i < j < |ts| ==> Less(ts[i], ts[j])
  }

  // The set is in order of due time, and of address where that is the same.
  lemma SortedMeaning(ts: seq<Timer>)
    ensures Sorted(ts) <==> forall i, j :: 0 <= i < j < |ts| ==>
              ts[i].m_next < ts[j].m_next || (ts[i].m_next == ts[j].m_next && ts[i].addr < ts[j].addr)
  {
  }

  // std::set::lower_bound: the first timer that is not less than a timer due at `next` at `addr`.
  method LowerBound(ts: seq<Timer>, next: nat, addr: nat) returns (k: nat)
    requires Sorted(ts)
    ensures k <= |ts|
    ensures forall i :: 0 <= i < |ts| ==> (i < k <==> BeforeKey(ts[i], next, addr))
  {
    k := 0;
    while k < |ts| && (ts[k].m_next < next || (ts[k].m_next == next && ts[k].addr < addr))
      invariant k <= |ts|
      invariant forall i :: 0 <= i < k ==> BeforeKey(ts[i], next, addr)
    {
      k := k + 1;
    }
    forall i | k <= i < |ts| ensures !BeforeKey(ts[i], next, addr) {
      if k < i { assert Less(ts[k], ts[i]); }
    }
  }

  predicate BeforeKey(t: Timer, next: nat, addr: nat)
    reads t
  {
    t.m_next < next || (t.m_next == next && t.addr < addr)
  }

  // std::set::find, by the comparator; |ts| is end().
  method Find(ts: seq<Timer>, t: Timer) returns (k: nat)
    requires Sorted(ts) && DistinctAddresses(ts, t)
    ensures t in ts ==> k < |ts| && ts[k] == t
    ensures t !in ts ==> k == |ts|
  {
    k := LowerBound(ts, t.m_next, t.addr);
    if k < |ts| && Less(t, ts[k]) {
      k := |ts|;
    }
  }

  // lower_bound breaks ties by address, so it may stop inside the group due at `now`; the loop
  // after it takes in the rest of that group.
  method FirstNotDue(ts: seq<Timer>, now: nat, now_addr: nat) returns (k: nat)
    requires Sorted(ts)
    ensures k <= |ts| && forall i :: 0 <= i < |ts| ==> (i < k <==> ts[i].m_next <= now)
  {
    k := LowerBound(ts, now, now_addr);
    while k < |ts| && ts[k].m_next == now
      invariant k <= |ts|
      invariant forall i :: 0 <= i < k ==> ts[i].m_next <= now
      invariant forall i :: k <= i < |ts| ==> ts[i].m_next >= now
    {
      k := k + 1;
    }
    forall i | k < i < |ts| ensures ts[i].m_next > now { assert Less(ts[k], ts[i]); }
  }

  ghost predicate DistinctAddresses(ts: seq<Timer>, t: Timer) {
    forall u :: u in ts && u.addr == t.addr ==> u == t
  }

  // std::set::insert: the new contents and the position of the timer in them.
  method Insert(ts: seq<Timer>, t: Timer) returns (r: seq<Timer>, k: nat)
    requires Sorted(ts) && DistinctAddresses(ts, t)
    ensures Sorted(r) && forall u :: u in r <==> u in ts || u == t
    ensures k < |r| && r[k] == t && (k > 0 ==> |ts| > 0 && r[0] == ts[0])
  {
    k := LowerBound(ts, t.m_next, t.addr);
    if k < |ts| && !Less(t, ts[k]) {
      return ts, k;
    }
    r := ts[..k] + [t] + ts[k..];
  }

  // One call of listExpiredCb: how many timers it takes, and when.
  datatype Sweep = Sweep(count: nat, now: nat)

  class TimerManager {
    var m_timers: seq<Timer>
    var m_tickled: bool
    var m_previouseTime: nat
    // Every timer the manager ever handed out.
    ghost var all: set<Timer>
    // The earliest due time the last getNextTimer saw, and whether onTimerInsertedAtFront has run
    // since that call.
    ghost var seen: Due
    ghost var woken: bool

    // The set is ordered; a timer created with a callback is in it exactly while it has its callback.
    ghost predicate Valid()
      reads this, all, m_timers
    {
      && Sorted(m_timers)
      && (forall t :: t in m_timers ==> t in all)
      && (forall t, u :: t in all && u in all && t.addr == u.addr ==> t == u)
      && (forall t :: t in all && t.m_cb.Some? ==> t.hadCallback && t in m_timers)
      && (forall t :: t in m_timers && t.hadCallback ==> t.m_cb.Some?)
      && (m_tickled ==> woken)
    }

    ghost function Min(): Due
      reads this, m_timers
    {
      if |m_timers| == 0 then Never else At(m_timers[0].m_next)
    }

    // No lost wake-up: a timer due earlier than the last getNextTimer saw has been announced.
    ghost predicate Awake()
      reads this, m_timers
    {
      Earlier(Min(), seen) ==> woken
    }

    // Every timer in the set was armed at some time up to now, without wrap-around.
    ghost predicate ArmedBy(now: nat)
      reads this, m_timers
    {
      forall t :: t in m_timers ==> 0 <= t.m_next - t.m_ms <= now
    }

    constructor (now: nat)
      ensures Valid() && Awake() && all == {} && m_timers == [] && m_previouseTime == now
      ensures !woken && seen == Never && !m_tickled
    {
      m_timers, m_tickled, m_previouseTime := [], false, now;
      all, seen, woken := {}, Never, false;
    }

    method OnTimerInsertedAtFront()
      modifies this`woken
      ensures woken
    {
      woken := true;
    }

    // onTimerInsertedAtFront runs for a timer that comes to the front, once until the next getNextTimer.
    ghost predicate Announced(tickled: bool, woken_: bool, t: Timer)
      reads this
    {
      && |m_timers| > 0
      && m_tickled == (tickled || m_timers[0] == t)
      && woken == (woken_ || (m_timers[0] == t && !tickled))
    }

    // The shared end of addTimer and reset.
    method AddTimerVal(val: Timer)
      requires Sorted(m_timers) && DistinctAddresses(m_timers, val) && val !in m_timers
      requires m_tickled ==> woken
      modifies this`m_timers, this`m_tickled, this`woken
      ensures Sorted(m_timers) && forall u :: u in m_timers <==> u in old(m_timers) || u == val
      ensures m_tickled ==> woken
      ensures old(Awake()) ==> Awake()
      ensures Announced(old(m_tickled), old(woken), val)
    {
      var it;
      m_timers, it := Insert(m_timers, val);
      var at_front := it == 0 && !m_tickled;
      if at_front {
        m_tickled := true;
      }
      if at_front {
        OnTimerInsertedAtFront();
      }
    }

    // addTimer: addr is the address the allocator chose, which no other timer has.
    method AddTimer(ms: nat, cb: Callback, recurring: bool, now: nat, addr: nat) returns (timer: Timer)
      requires Valid() && forall t :: t in all ==> t.addr != addr
      modifies this`m_timers, this`m_tickled, this`woken, this`all
      ensures Valid() && fresh(timer) && all == old(all) + {timer}
      ensures forall u :: u in m_timers <==> u in old(m_timers) || u == timer
      ensures timer.m_next == U64(now + ms) && timer.m_ms == ms && timer.m_cb == cb
      ensures timer.m_recurring == recurring && timer.addr == addr
      ensures old(Awake()) ==> Awake()
      ensures Announced(old(m_tickled), old(woken), timer)
      ensures old(ArmedBy(now)) && now + ms < TWO_64 ==> ArmedBy(now)
    {
      timer := new Timer(ms, cb, recurring, now, addr);
      AddTimerVal(timer);
      all := all + {timer};
    }

    // Takes a timer that is in the set out of it.
    method Erase(t: Timer)
      requires Valid() && t in m_timers
      modifies this`m_timers
      ensures Sorted(m_timers) && forall u :: u in m_timers <==> u in old(m_timers) && u != t
      ensures old(Awake()) ==> Awake()
      ensures !Earlier(Min(), old(Min()))
    {
      ghost var before := m_timers;
      var it := Find(m_timers, t);
      Without(m_timers, it);
      m_timers := m_timers[..it] + m_timers[it + 1..];
      if it == 0 && |before| > 1 {
        assert m_timers[0] == before[1] && Less(before[0], before[1]);
      }
    }

    static lemma Without(ts: seq<Timer>, k: nat)
      requires Sorted(ts) && k < |ts|
      ensures var r := ts[..k] + ts[k + 1..]; Sorted(r) && forall u :: u in r <==> u in ts && u != ts[k]
    {
      NoDuplicates(ts);
      hide Less;
      var r := ts[..k] + ts[k + 1..];
      forall u ensures u in r <==> u in ts && u != ts[k] {
        if u in ts && u != ts[k] {
          var i :| 0 <= i < |ts| && ts[i] == u;
          assert u == r[if i < k then i else i - 1];
        }
      }
    }

    // Timer::cancel
    method Cancel(t: Timer) returns (r: bool)
      requires Valid() && t in all
      modifies this`m_timers, t`m_cb
      ensures Valid()
      ensures r == old(t.m_cb).Some? && t.m_cb == None
      ensures r ==> forall u :: u in m_timers <==> u in old(m_timers) && u != t
      ensures !r ==> m_timers == old(m_timers)
      ensures old(Awake()) ==> Awake()
    {
      if t.m_cb.Some? {
        Erase(t);
        t.m_cb := None;
        return true;
      }
      return false;
    }

    // Timer::refresh puts the timer back without the front check of addTimer.
    method Refresh(t: Timer, now: nat) returns (r: bool)
      requires Valid() && t in all
      modifies this`m_timers, t`m_next
      ensures Valid() && r == t.m_cb.Some? && forall u :: u in m_timers <==> u in old(m_timers)
      ensures t.m_next == if r then U64(now + t.m_ms) else old(t.m_next)
      ensures old(Awake()) ==> (Awake() <==> !r || woken || !Earlier(At(t.m_next), seen))
      ensures old(Awake()) && old(ArmedBy(now)) && now + t.m_ms < TWO_64 ==> Awake() && ArmedBy(now)
    {
      hide Sorted, Less;
      if t.m_cb.None? {
        return false;
      }
      var it := Find(m_timers, t);
      if it == |m_timers| {
        return false;
      }
      FirstIsLeast(t);
      Erase(t);
      t.m_next := U64(now + t.m_ms);
      m_timers, it := Insert(m_timers, t);
      FirstIsLeast(t);
      return true;
    }

    lemma FirstIsLeast(t: Timer)
      requires Sorted(m_timers) && t in m_timers
      ensures m_timers[0].m_next <= t.m_next
    {
      var i :| 0 <= i < |m_timers| && m_timers[i] == t;
      if i > 0 { assert Less(m_timers[0], m_timers[i]); }
    }

    lemma FirstNotAfter(t: Timer)
      requires Sorted(m_timers) && t in m_timers
      ensures m_timers[0] == t || Less(m_timers[0], t)
    {
      var i :| 0 <= i < |m_timers| && m_timers[i] == t;
    }

    // Timer::reset; the lock it drops between erase and insert is taken as one step.
    method Reset(t: Timer, ms: nat, from_now: bool, now: nat) returns (r: bool)
      requires Valid() && t in all
      modifies this`m_timers, this`m_tickled, this`woken, t`m_next, t`m_ms
      ensures Valid() && forall u :: u in m_timers <==> u in old(m_timers)
      ensures r == ((ms == old(t.m_ms) && !from_now) || t.m_cb.Some?)
      ensures var moved := t.m_cb.Some? && !(ms == old(t.m_ms) && !from_now);
              && t.m_ms == (if moved then ms else old(t.m_ms))
              && t.m_next == (if !moved then old(t.m_next)
                              else U64((if from_now then now else U64(old(t.m_next) - old(t.m_ms))) + ms))
              && if moved then Announced(old(m_tickled), old(woken), t)
                 else m_tickled == old(m_tickled) && woken == old(woken)
      ensures old(Awake()) ==> Awake()
      ensures old(ArmedBy(now)) && now + ms < TWO_64 ==> ArmedBy(now)
    {
      hide Sorted, Less;
      if ms == t.m_ms && !from_now {
        return true;
      }
      if t.m_cb.None? {
        return false;
      }
      var it := Find(m_timers, t);
      if it == |m_timers| {
        return false;
      }
      Erase(t);
      var start := if from_now then now else U64(t.m_next - t.m_ms);
      t.m_ms := ms;
      t.m_next := U64(start + t.m_ms);
      AddTimerVal(t);
      return true;
    }

    // getNextTimer: the time to the earliest timer, 2^64 - 1 for none; wake-ups are asked for anew.
    method GetNextTimer(now: nat) returns (timeout: nat)
      requires Valid()
      modifies this`m_tickled, this`seen, this`woken
      ensures Valid() && Awake() && seen == Min() && !woken && !m_tickled
      ensures timeout == match Min()
                         case Never => TWO_64 - 1
                         case At(time) => if now >= time then 0 else time - now
    {
      m_tickled := false;
      seen, woken := Min(), false;
      if |m_timers| == 0 {
        return TWO_64 - 1;
      }
      var next := m_timers[0];
      if now >= next.m_next {
        return 0;
      } else {
        return next.m_next - now;
      }
    }

    method DetectClockRollover(now: nat) returns (rollover: bool)
      modifies this`m_previouseTime
      ensures rollover == Rolled(old(m_previouseTime), now) && m_previouseTime == now
    {
      rollover := false;
      if now < m_previouseTime && now < U64(m_previouseTime - 60 * 60 * 1000) {
        rollover := true;
      }
      m_previouseTime := now;
    }

    // listExpiredCb: takes the callbacks of the due timers (of all timers after a rollover), in the
    // order of the set; recurring timers are armed again, the others lose their callback. now_addr
    // is the address of the timer the search is done with.
    method ListExpiredCb(now: nat, now_addr: nat) returns (cbs: seq<Callback>)
      requires Valid()
      modifies this`m_timers, this`m_previouseTime, m_timers
      ensures Valid() && |cbs| <= |old(m_timers)| && all == old(all)
      ensures forall i :: 0 <= i < |old(m_timers)| ==>
                (i < |cbs| <==> Rolled(old(m_previouseTime), now) || old(m_timers[i].m_next) <= now)
      ensures forall i :: 0 <= i < |cbs| ==> cbs[i] == old(m_timers[i].m_cb)
      ensures forall i :: 0 <= i < |old(m_timers)| ==> Rearmed(old(m_timers)[i], i < |cbs|, now)
      ensures forall u :: u in m_timers ==> u in old(m_timers)
      ensures m_previouseTime == if |old(m_timers)| == 0 then old(m_previouseTime) else now
      ensures m_tickled == old(m_tickled) && seen == old(seen) && woken == old(woken)
      // A recurring timer that comes back early goes unannounced ...
      ensures old(Awake()) ==>
                (Awake() <==> woken || forall i :: 0 <= i < |cbs| ==> !ComesBackEarly(old(m_timers)[i], now))
      // ... but a clock that never goes back and never overflows brings none back early.
      ensures !Rolled(old(m_previouseTime), now) && old(ArmedBy(now))
              && (forall i :: 0 <= i < |cbs| ==> now + old(m_timers)[i].m_ms < TWO_64) ==>
                ArmedBy(now) && (old(Awake()) ==> Awake())
    {
      hide Sorted, Less, Awake, ArmedBy, ComesBackEarly, Rolled, Valid;
      ghost var before, rolled := m_timers, Rolled(m_previouseTime, now);
      var k := DueCount(now, now_addr);
      assert forall i :: 0 <= i < |before| ==> (i < k <==> rolled || old(before[i].m_next) <= now);
      cbs := TakeExpired(k, now);
      StillAwake(Sweep(k, now));
      assert |cbs| == k;
      assert forall i :: 0 <= i < |before| ==> (i < |cbs| <==> rolled || old(before[i].m_next) <= now);
    }

    // How many timers at the front of the set are taken.
    method DueCount(now: nat, now_addr: nat) returns (k: nat)
      requires Valid()
      modifies this`m_previouseTime
      ensures Valid() && k <= |m_timers|
      ensures forall i :: 0 <= i < |m_timers| ==>
                (i < k <==> Rolled(old(m_previouseTime), now) || old(m_timers[i].m_next) <= now)
      ensures m_previouseTime == if |m_timers| == 0 then old(m_previouseTime) else now
    {
      hide Less, Rolled;
      if |m_timers| == 0 {
        return 0;
      }
      var rollover := DetectClockRollover(now);
      if !rollover && m_timers[0].m_next > now {
        FirstNotLater(m_timers);
        return 0;
      }
      k := |m_timers|;
      if !rollover {
        k := FirstNotDue(m_timers, now, now_addr);
      }
    }

    static lemma FirstNotLater(ts: seq<Timer>)
      requires Sorted(ts)
      ensures forall i :: 0 <= i < |ts| ==> ts[0].m_next <= ts[i].m_next
    {
      forall i | 0 < i < |ts| ensures ts[0].m_next <= ts[i].m_next { assert Less(ts[0], ts[i]); }
    }

    // Armed again at `now`, the timer is due before anything the last getNextTimer saw.
    ghost predicate ComesBackEarly(t: Timer, now: nat)
      reads this, t
    {
      t.m_recurring && Earlier(At(U64(now + t.m_ms)), seen)
    }

    twostate lemma StillAwake(sweep: Sweep)
      requires old(Valid()) && Valid() && sweep.count <= |old(m_timers)|
      requires forall i :: 0 <= i < |old(m_timers)| ==> Rearmed(old(m_timers)[i], i < sweep.count, sweep.now)
      requires forall u :: u in m_timers ==> u in old(m_timers)
      requires seen == old(seen) && woken == old(woken)
      ensures old(Awake()) ==>
                (Awake() <==>
                   woken || forall i :: 0 <= i < sweep.count ==> !ComesBackEarly(old(m_timers)[i], sweep.now))
      ensures (forall i :: 0 <= i < sweep.count ==> old(m_timers[i].m_next) <= sweep.now)
              && old(ArmedBy(sweep.now))
              && (forall i :: 0 <= i < sweep.count ==> sweep.now + old(m_timers)[i].m_ms < TWO_64) ==>
                ArmedBy(sweep.now) && (old(Awake()) ==> Awake())
    {
      var before := old(m_timers);
      forall t | t in m_timers ensures !Earlier(At(t.m_next), Min()) { FirstIsLeast(t); }
      forall i | 0 <= i < |before| ensures old(!Earlier(At(before[i].m_next), Min())) {
        if i > 0 { assert old(Less(before[0], before[i])); }
      }
      forall t | t in m_timers
        ensures exists i :: 0 <= i < |before| && before[i] == t && Rearmed(t, i < sweep.count, sweep.now)
      {
        var i :| 0 <= i < |before| && before[i] == t;
        assert Rearmed(before[i], i < sweep.count, sweep.now);
      }
      if i :| 0 <= i < sweep.count && ComesBackEarly(before[i], sweep.now) {
        assert Rearmed(before[i], true, sweep.now);
        assert !Earlier(At(before[i].m_next), Min());
      }
      if !Awake() {
        assert m_timers[0] in m_timers;
        var i :| 0 <= i < |before| && before[i] == m_timers[0];
        assert Rearmed(before[i], i < sweep.count, sweep.now);
        assert old(!Earlier(At(before[i].m_next), Min()));
        assert old(Awake()) ==> i < sweep.count && ComesBackEarly(before[i], sweep.now);
      }
    }

    // What listExpiredCb leaves of one timer.
    twostate predicate Rearmed(t: Timer, expired: bool, now: nat)
      reads this, t
    {
      && (t in m_timers <==> !expired || t.m_recurring)
      && (if expired then Fired(t, now) else unchanged(t))
    }

    // What firing does to the timer itself.
    twostate predicate Fired(t: Timer, now: nat)
      reads t
    {
      && t.m_ms == old(t.m_ms)
      && t.m_next == (if t.m_recurring then U64(now + t.m_ms) else old(t.m_next))
      && t.m_cb == (if t.m_recurring then old(t.m_cb) else None)
    }

    // Moves the first k timers out of the set and back in when they recur.
    method TakeExpired(k: nat, now: nat) returns (cbs: seq<Callback>)
      requires Valid() && k <= |m_timers|
      modifies this`m_timers, m_timers
      ensures Valid() && |cbs| == k
      ensures forall i :: 0 <= i < k ==> cbs[i] == old(m_timers[i].m_cb)
      ensures forall i :: 0 <= i < |old(m_timers)| ==> Rearmed(old(m_timers)[i], i < k, now)
      ensures forall u :: u in m_timers ==> u in old(m_timers)
    {
      ghost var before := m_timers;
      NoDuplicates(before);
      SortedTail(before, k);
      hide Sorted;
      forall j | k <= j < |before| ensures before[j] in before[k..] { assert before[j] == before[k..][j - k]; }
      var expired := m_timers[..k];
      m_timers := m_timers[k..];
      cbs := RearmAll(expired, now);
      assert expired == before[..k];
      forall j | 0 <= j < |before| ensures Rearmed(before[j], j < k, now) {
        if j < k {
          assert before[j] == expired[j] && expired[j] in expired;
        } else {
          assert before[j] !in expired;
        }
      }
    }

    // The loop over the expired timers, none of which is in the set.
    method RearmAll(expired: seq<Timer>, now: nat) returns (cbs: seq<Callback>)
      requires Sorted(m_timers) && forall i, j :: 0 <= i < j < |expired| ==> expired[i] != expired[j]
      requires forall t :: t in expired ==> t !in m_timers
      requires forall t, u :: (t in m_timers || t in expired) && (u in m_timers || u in expired) ==>
                 (t.addr == u.addr ==> t == u)
      modifies this`m_timers, expired
      ensures Sorted(m_timers) && |cbs| == |expired|
      ensures forall i :: 0 <= i < |expired| ==> cbs[i] == old(expired[i].m_cb)
      ensures forall t :: t in m_timers <==> t in old(m_timers) || (t in expired && t.m_recurring)
      ensures forall t :: t in expired ==> Fired(t, now)
    {
      hide Sorted;
      ghost var rest := m_timers;
      cbs := [];
      var i := 0;
      while i < |expired|
        invariant i <= |expired| && |cbs| == i && Sorted(m_timers)
        invariant forall t :: t in m_timers <==> t in rest || (t in expired[..i] && t.m_recurring)
        invariant forall t :: t in expired[..i] ==> Fired(t, now)
        invariant forall j :: i <= j < |expired| ==> unchanged(expired[j])
        invariant forall j :: 0 <= j < i ==> cbs[j] == old(expired[j].m_cb)
      {
        cbs := cbs + [expired[i].m_cb];
        RearmOne(expired[i], now);
        assert expired[..i + 1] == expired[..i] + [expired[i]];
        i := i + 1;
      }
      assert expired[..i] == expired;
    }

    method RearmOne(timer: Timer, now: nat)
      requires Sorted(m_timers) && timer !in m_timers && DistinctAddresses(m_timers, timer)
      modifies this`m_timers, timer`m_next, timer`m_cb
      ensures Sorted(m_timers) && Fired(timer, now)
      ensures forall u :: u in m_timers <==> u in old(m_timers) || (u == timer && timer.m_recurring)
    {
      if timer.m_recurring {
        timer.m_next := U64(now + timer.m_ms);
        var it;
        m_timers, it := Insert(m_timers, timer);
      } else {
        timer.m_cb := None;
      }
    }

    static lemma SortedTail(ts: seq<Timer>, k: nat)
      requires Sorted(ts) && k <= |ts|
      ensures Sorted(ts[k..])
    {
    }

    static lemma NoDuplicates(ts: seq<Timer>)
      requires Sorted(ts)
      ensures forall i, j :: 0 <= i < j < |ts| ==> ts[i] != ts[j]
    {
      forall i, j | 0 <= i < j < |ts| ensures ts[i] != ts[j] { assert Less(ts[i], ts[j]); }
    }
  }

  // ---- the manager as a value -------------------------------------------------------------------

  datatype Record = Record(next: nat, ms: nat, cb: Callback, recurring: bool, addr: nat)

  // The timers handed out, numbered in that order, and which of them are in the set.
  datatype Snapshot = Snapshot(timers: seq<Record>, armed: set<nat>, previous: nat, tickled: bool, seen: Due,
                               woken: bool)

  predicate Before(rs: seq<Record>, i: nat, j: nat)
    requires i < |rs| && j < |rs|
  {
    rs[i].next < rs[j].next || (rs[i].next == rs[j].next && rs[i].addr < rs[j].addr)
  }

  ghost predicate IsFirst(v: Snapshot, i: nat) {
    && i in v.armed && i < |v.timers|
    && forall j :: j in v.armed && j < |v.timers| && j != i ==> Before(v.timers, i, j)
  }

  // The earliest due time of the first n timers, as far as they are in the set.
  function Least(v: Snapshot, n: nat): Due
    requires n <= |v.timers|
  {
    if n == 0 then Never
    else
      var rest := Least(v, n - 1);
      if n - 1 in v.armed && Earlier(At(v.timers[n - 1].next), rest) then At(v.timers[n - 1].next) else rest
  }

  function MinDue(v: Snapshot): Due { Least(v, |v.timers|) }

  // No lost wake-up.
  predicate IsAwake(v: Snapshot) { Earlier(MinDue(v), v.seen) ==> v.woken }

  // What announcing a timer that may have come to the front does.
  ghost function Announce(v: Snapshot, i: nat): Snapshot {
    if IsFirst(v, i) && !v.tickled then v.(tickled := true, woken := true) else v
  }

  // A timer that was handed out has the address.
  predicate Taken(v: Snapshot, addr: nat) {
    exists i :: 0 <= i < |v.timers| && v.timers[i].addr == addr
  }

  // A call on the manager or on the i-th timer it handed out, with the address that the allocator gives
  // to the timer made by it.
  datatype Op =
    | Add(ms: nat, cb: Callback, recurring: bool, addr: nat)
    | Cancel(i: nat)
    | Refresh(i: nat)
    | Reset(i: nat, ms: nat, from_now: bool)
    | NextTimer
    | ListExpired(addr: nat)

  datatype Call = Call(now: nat, op: Op)

  // Whether listExpiredCb takes the i-th timer, and what firing does to it.
  predicate Expires(v: Snapshot, i: nat, now: nat) {
    i in v.armed && i < |v.timers| && (Rolled(v.previous, now) || v.timers[i].next <= now)
  }

  function FiredRecord(r: Record, now: nat): Record {
    if r.recurring then r.(next := U64(now + r.ms)) else r.(cb := None)
  }

  function Expired(v: Snapshot, now: nat): (t: Snapshot)
    ensures |t.timers| == |v.timers|
  {
    v.(timers := seq(|v.timers|, i requires 0 <= i < |v.timers| =>
                       if Expires(v, i, now) then FiredRecord(v.timers[i], now) else v.timers[i]),
       armed := (set i | i in v.armed && (Expires(v, i, now) ==> v.timers[i].recurring)),
       previous := now)
  }

  // One call as a step. The allocator gives no address that is taken; such a call is no step.
  ghost function Next(v: Snapshot, call: Call): Snapshot {
    var now := call.now;
    match call.op
    case Add(ms, cb, recurring, addr) =>
      var i := |v.timers|;
      if Taken(v, addr) then v
      else
        Announce(v.(timers := v.timers + [Record(U64(now + ms), ms, cb, recurring, addr)], armed := v.armed + {i}), i)
    case Cancel(i) =>
      if i < |v.timers| && v.timers[i].cb.Some?
      then v.(timers := v.timers[i := v.timers[i].(cb := None)], armed := v.armed - {i}) else v
    case Refresh(i) =>
      if i < |v.timers| && v.timers[i].cb.Some?
      then v.(timers := v.timers[i := v.timers[i].(next := U64(now + v.timers[i].ms))]) else v
    case Reset(i, ms, from_now) =>
      if i < |v.timers| && v.timers[i].cb.Some? && !(ms == v.timers[i].ms && !from_now) then
        var start := if from_now then now else U64(v.timers[i].next - v.timers[i].ms);
        Announce(v.(timers := v.timers[i := v.timers[i].(next := U64(start + ms), ms := ms)]), i)
      else v
    case NextTimer => v.(tickled := false, seen := MinDue(v), woken := false)
    case ListExpired(_) => if v.armed == {} then v else Expired(v, now)
  }

  // Announced is exactly a new or reset timer that comes before all others, by due time and then by
  // address, and only once until getNextTimer is called; no other call announces anything.
  lemma AnnouncesExactly(v: Snapshot, call: Call)
    requires forall i :: i in v.armed ==> i < |v.timers|
    ensures var t := Next(v, call);
            match call.op
            case Add(_, _, _, addr) =>
              t.woken <==> v.woken || (!Taken(v, addr) && !v.tickled && ComesFirst(t, |v.timers|))
            case Reset(i, ms, from_now) =>
              t.woken <==> v.woken || (!v.tickled && i in v.armed && ComesFirst(t, i) && v.timers[i].cb.Some?
                                       && (from_now || ms != v.timers[i].ms))
            case NextTimer => !t.woken && !t.tickled
            case _ => t.woken == v.woken && t.tickled == v.tickled
  {
  }

  ghost predicate ComesFirst(v: Snapshot, i: nat) {
    i < |v.timers| && forall j :: j in v.armed && j < |v.timers| && j != i ==>
      v.timers[i].next < v.timers[j].next
      || (v.timers[i].next == v.timers[j].next && v.timers[i].addr < v.timers[j].addr)
  }

  // The manager made at `start`, after the calls.
  ghost function After(start: nat, calls: seq<Call>): Snapshot {
    if |calls| == 0 then Snapshot([], {}, start, false, Never, false)
    else Next(After(start, calls[..|calls| - 1]), calls[|calls| - 1])
  }

  // ---- the manager follows the steps ------------------------------------------------------------

  ghost predicate SameRecord(t: Timer, r: Record)
    reads t
  {
    t.m_next == r.next && t.m_ms == r.ms && t.m_cb == r.cb && t.m_recurring == r.recurring && t.addr == r.addr
  }

  // The handles are the timers of the manager, by number, and the set holds those that are armed.
  ghost predicate Mirrors(m: TimerManager, hs: seq<Timer>, timers: seq<Record>, armed: set<nat>)
    reads m, m.all, hs
  {
    && |hs| == |timers|
    && (forall i :: 0 <= i < |hs| ==> hs[i] in m.all && SameRecord(hs[i], timers[i]))
    && (forall i, j :: 0 <= i < j < |hs| ==> hs[i] != hs[j])
    && (forall t :: t in m.all ==> t in hs)
    && (forall i :: 0 <= i < |hs| ==> (i in armed <==> hs[i] in m.m_timers))
    && (forall i :: i in armed ==> i < |hs|)
  }

  ghost predicate Matches(m: TimerManager, hs: seq<Timer>, v: Snapshot)
    reads m, m.all, m.m_timers, hs
  {
    && m.Valid() && Mirrors(m, hs, v.timers, v.armed)
    && m.m_previouseTime == v.previous && m.m_tickled == v.tickled && m.seen == v.seen && m.woken == v.woken
  }

  // The number of a timer in the set.
  lemma Number(m: TimerManager, hs: seq<Timer>, v: Snapshot, t: Timer) returns (i: nat)
    requires m.Valid() && Mirrors(m, hs, v.timers, v.armed) && t in m.m_timers
    ensures i < |hs| && hs[i] == t && i in v.armed && SameRecord(t, v.timers[i])
  {
    assert t in m.all && t in hs;
    i :| 0 <= i < |hs| && hs[i] == t;
  }

  // The front of the set is the first armed timer.
  lemma FrontIsFirst(m: TimerManager, hs: seq<Timer>, v: Snapshot, i: nat)
    requires m.Valid() && Mirrors(m, hs, v.timers, v.armed) && i < |hs|
    ensures |m.m_timers| > 0 && m.m_timers[0] == hs[i] <==> IsFirst(v, i)
  {
    if |m.m_timers| > 0 && m.m_timers[0] == hs[i] {
      forall j | j in v.armed && j < |v.timers| && j != i ensures Before(v.timers, i, j) {
        assert hs[j] in m.m_timers;
        var k :| 0 <= k < |m.m_timers| && m.m_timers[k] == hs[j];
        assert Less(m.m_timers[0], m.m_timers[k]);
      }
    } else if IsFirst(v, i) {
      assert hs[i] in m.m_timers;
      var f := m.m_timers[0];
      var k := Number(m, hs, v, f);
      m.FirstNotAfter(hs[i]);
      assert false;
    }
  }

  lemma {:induction false} LeastBelow(v: Snapshot, n: nat, i: nat)
    requires n <= |v.timers| && i < n && i in v.armed
    ensures !Earlier(At(v.timers[i].next), Least(v, n)) && Least(v, n).At?
  {
    if i < n - 1 { LeastBelow(v, n - 1, i); }
  }

  lemma {:induction false} LeastReached(v: Snapshot, n: nat) returns (i: nat)
    requires n <= |v.timers| && Least(v, n).At?
    ensures i < n && i in v.armed && Least(v, n) == At(v.timers[i].next)
  {
    i := n - 1;
    if !(n - 1 in v.armed && Earlier(At(v.timers[n - 1].next), Least(v, n - 1))) {
      i := LeastReached(v, n - 1);
    }
  }

  lemma MinAgrees(m: TimerManager, hs: seq<Timer>, v: Snapshot)
    requires m.Valid() && Mirrors(m, hs, v.timers, v.armed)
    ensures m.Min() == MinDue(v)
  {
    if |m.m_timers| > 0 {
      var f := m.m_timers[0];
      var k := Number(m, hs, v, f);
      LeastBelow(v, |v.timers|, k);
      var i := LeastReached(v, |v.timers|);
      m.FirstIsLeast(hs[i]);
    } else if MinDue(v).At? {
      var i := LeastReached(v, |v.timers|);
      assert false;
    }
  }

  lemma AwakeAgrees(m: TimerManager, hs: seq<Timer>, v: Snapshot)
    requires Matches(m, hs, v)
    ensures m.Awake() <==> IsAwake(v)
  {
    MinAgrees(m, hs, v);
  }

  // ---- whole runs -------------------------------------------------------------------------------

  // Every call is one step.
  method StepAdd(m: TimerManager, hs: seq<Timer>, ghost v: Snapshot, ms: nat, cb: Callback, recurring: bool,
                 addr: nat, now: nat) returns (t: Timer)
    requires Matches(m, hs, v) && !Taken(v, addr)
    modifies m
    ensures Matches(m, hs + [t], Next(v, Call(now, Add(ms, cb, recurring, addr))))
    ensures fresh(t) && m.all == old(m.all) + {t}
  {
    hide Sorted, Less, IsFirst, TimerManager.Valid, TimerManager.Awake, TimerManager.ArmedBy;
    t := m.AddTimer(ms, cb, recurring, now, addr);
    ghost var r := Record(U64(now + ms), ms, cb, recurring, addr);
    ghost var u := v.(timers := v.timers + [r], armed := v.armed + {|hs|});
    assert Mirrors(m, hs + [t], u.timers, u.armed);
    hide Mirrors;
    FrontIsFirst(m, hs + [t], u, |hs|);
  }

  method StepCancel(m: TimerManager, hs: seq<Timer>, ghost v: Snapshot, i: nat, now: nat)
    requires Matches(m, hs, v)
    modifies m, m.all
    ensures Matches(m, hs, Next(v, Call(now, Cancel(i)))) && m.all == old(m.all)
  {
    hide Sorted, Less, IsFirst, TimerManager.Valid, TimerManager.Awake, TimerManager.ArmedBy;
    if i < |hs| { var b := m.Cancel(hs[i]); }
  }

  method StepRefresh(m: TimerManager, hs: seq<Timer>, ghost v: Snapshot, i: nat, now: nat)
    requires Matches(m, hs, v)
    modifies m, m.all
    ensures Matches(m, hs, Next(v, Call(now, Refresh(i)))) && m.all == old(m.all)
  {
    hide Sorted, Less, IsFirst, TimerManager.Valid, TimerManager.Awake, TimerManager.ArmedBy;
    ghost var w := Next(v, Call(now, Refresh(i)));
    assert i < |hs| && hs[i].m_cb.None? ==> w == v;
    assert i < |hs| && hs[i].m_cb.Some? ==>
      w == v.(timers := v.timers[i := v.timers[i].(next := U64(now + v.timers[i].ms))]);
    if i < |hs| {
      hide Next;
      var b := m.Refresh(hs[i], now);
    }
  }

  method StepReset(m: TimerManager, hs: seq<Timer>, ghost v: Snapshot, i: nat, ms: nat, from_now: bool, now: nat)
    requires Matches(m, hs, v)
    modifies m, m.all
    ensures Matches(m, hs, Next(v, Call(now, Reset(i, ms, from_now)))) && m.all == old(m.all)
  {
    hide Sorted, Less, IsFirst, TimerManager.Valid, TimerManager.Awake, TimerManager.ArmedBy, Announce;
    ghost var w := Next(v, Call(now, Reset(i, ms, from_now)));
    if i < |hs| && hs[i].m_cb.Some? && !(ms == hs[i].m_ms && !from_now) {
      ghost var r := v.timers[i];
      ghost var start := if from_now then now else U64(r.next - r.ms);
      ghost var u := v.(timers := v.timers[i := r.(next := U64(start + ms), ms := ms)]);
      assert w == Announce(u, i);
      hide Next;
      ResetMoves(m, hs, v, u, i, ms, from_now, now);
    } else {
      assert w == v;
      hide Next;
      if i < |hs| { var b := m.Reset(hs[i], ms, from_now, now); }
      assert Matches(m, hs, v);
    }
  }

  method ResetMoves(m: TimerManager, hs: seq<Timer>, ghost v: Snapshot, ghost u: Snapshot, i: nat, ms: nat,
                    from_now: bool, now: nat)
    requires Matches(m, hs, v) && i < |hs| && hs[i].m_cb.Some? && !(ms == hs[i].m_ms && !from_now)
    requires var r := v.timers[i];
             var start := if from_now then now else U64(r.next - r.ms);
             u == v.(timers := v.timers[i := r.(next := U64(start + ms), ms := ms)])
    modifies m, m.all
    ensures Matches(m, hs, Announce(u, i)) && m.all == old(m.all)
  {
    hide Sorted, Less, IsFirst, TimerManager.Valid, TimerManager.Awake, TimerManager.ArmedBy;
    var b := m.Reset(hs[i], ms, from_now, now);
    assert Mirrors(m, hs, u.timers, u.armed);
    hide Mirrors, SameRecord;
    FrontIsFirst(m, hs, u, i);
  }

  method StepNext(m: TimerManager, hs: seq<Timer>, ghost v: Snapshot, now: nat)
    requires Matches(m, hs, v)
    modifies m
    ensures Matches(m, hs, Next(v, Call(now, NextTimer))) && m.all == old(m.all)
  {
    MinAgrees(m, hs, v);
    hide Sorted, MinDue, TimerManager.Awake, TimerManager.ArmedBy;
    var t := m.GetNextTimer(now);
  }

  lemma NoneArmed(m: TimerManager, hs: seq<Timer>, v: Snapshot)
    requires m.Valid() && Mirrors(m, hs, v.timers, v.armed)
    ensures v.armed == {} <==> m.m_timers == []
  {
    if |m.m_timers| > 0 {
      var k := Number(m, hs, v, m.m_timers[0]);
    }
  }

  method StepList(m: TimerManager, hs: seq<Timer>, ghost v: Snapshot, addr: nat, now: nat)
    requires Matches(m, hs, v)
    modifies m, m.all
    ensures Matches(m, hs, Next(v, Call(now, ListExpired(addr)))) && m.all == old(m.all)
  {
    hide Sorted, Less, TimerManager.Awake, TimerManager.ArmedBy, Rolled;
    NoneArmed(m, hs, v);
    ghost var before, w := m.m_timers, Next(v, Call(now, ListExpired(addr)));
    assert w == if before == [] then v else Expired(v, now);
    hide Next, TimerManager.Valid, Taken, Expired, TimerManager.ComesBackEarly, TimerManager.Min, Earlier;
    var cbs := m.ListExpiredCb(now, addr);
    forall i | 0 <= i < |hs| && hs[i] in before ensures Listed(m, hs[i], v, i, now) {
      var k :| 0 <= k < |before| && before[k] == hs[i];
      assert m.Rearmed(before[k], k < |cbs|, now);
      assert k < |cbs| <==> Expires(v, i, now);
    }
    if before != [] { ListedMirrors(m, hs, v, now); }
  }

  lemma ListedMirrors(m: TimerManager, hs: seq<Timer>, v: Snapshot, now: nat)
    requires |hs| == |v.timers| && (forall i, j :: 0 <= i < j < |hs| ==> hs[i] != hs[j])
    requires (forall i :: 0 <= i < |hs| ==> hs[i] in m.all) && (forall t :: t in m.all ==> t in hs)
    requires forall i: nat :: i in v.armed ==> i < |hs| && Listed(m, hs[i], v, i, now)
    requires forall i: nat :: i < |hs| && i !in v.armed ==> SameRecord(hs[i], v.timers[i]) && hs[i] !in m.m_timers
    ensures Mirrors(m, hs, Expired(v, now).timers, Expired(v, now).armed)
  {
    hide Rolled, SameRecord, FiredRecord;
    var w := Expired(v, now);
    forall i: nat | i < |hs|
      ensures SameRecord(hs[i], w.timers[i]) && (i in w.armed <==> hs[i] in m.m_timers)
    {
      if i in v.armed { assert Listed(m, hs[i], v, i, now); }
    }
  }

  // What listExpiredCb leaves of the i-th timer, which was in the set.
  ghost predicate Listed(m: TimerManager, t: Timer, v: Snapshot, i: nat, now: nat)
    requires i < |v.timers|
    reads m, t
  {
    && SameRecord(t, if Expires(v, i, now) then FiredRecord(v.timers[i], now) else v.timers[i])
    && (t in m.m_timers <==> (Expires(v, i, now) ==> v.timers[i].recurring))
  }

  lemma TakenAgrees(m: TimerManager, hs: seq<Timer>, v: Snapshot, addr: nat)
    requires Matches(m, hs, v)
    ensures Taken(v, addr) <==> exists i :: 0 <= i < |hs| && hs[i].addr == addr
    ensures Taken(v, addr) ==> forall call: Call :: call.op.Add? && call.op.addr == addr ==> Next(v, call) == v
  {
    forall i | 0 <= i < |hs| ensures hs[i].addr == v.timers[i].addr {}
  }

  method Step(m: TimerManager, handles: seq<Timer>, ghost v: Snapshot, call: Call) returns (r: seq<Timer>)
    requires Matches(m, handles, v)
    modifies m, m.all
    ensures Matches(m, r, Next(v, call))
    ensures forall t :: t in m.all ==> t in old(m.all) || fresh(t)
  {
    hide Matches, Next;
    r := handles;
    match call.op
    case Add(ms, cb, recurring, addr) =>
      TakenAgrees(m, handles, v, addr);
      if !exists i :: 0 <= i < |handles| && handles[i].addr == addr {
        var t := StepAdd(m, handles, v, ms, cb, recurring, addr, call.now);
        r := handles + [t];
      }
    case Cancel(i) => StepCancel(m, handles, v, i, call.now);
    case Refresh(i) => StepRefresh(m, handles, v, i, call.now);
    case Reset(i, ms, from_now) => StepReset(m, handles, v, i, ms, from_now, call.now);
    case NextTimer => StepNext(m, handles, v, call.now);
    case ListExpired(addr) => StepList(m, handles, v, addr, call.now);
  }

  // Whatever is called in whatever order and at whatever times: the manager is in the state that the
  // steps lead to.
  method Run(start: nat, calls: seq<Call>) returns (m: TimerManager, handles: seq<Timer>)
    ensures Matches(m, handles, After(start, calls)) && (m.Awake() <==> IsAwake(After(start, calls)))
  {
    m := new TimerManager(start);
    handles := [];
    var n := 0;
    while n < |calls|
      invariant n <= |calls| && fresh(m) && forall t :: t in m.all ==> fresh(t)
      invariant Matches(m, handles, After(start, calls[..n]))
    {
      hide Matches, Next;
      assert calls[..n + 1][..n] == calls[..n];
      handles := Step(m, handles, After(start, calls[..n]), calls[n]);
      n := n + 1;
    }
    assert calls[..n] == calls;
    AwakeAgrees(m, handles, After(start, calls));
  }

  // ---- no lost wake-up over whole runs ----------------------------------------------------------

  function Period(op: Op): nat {
    match op
    case Add(ms, _, _, _) => ms
    case Reset(_, ms, _) => ms
    case _ => 0
  }

  // The clock never goes back, and no due time overflows 64 bits.
  ghost predicate Steady(start: nat, calls: seq<Call>, period: nat, end: nat) {
    && start <= end && end + period < TWO_64
    && (forall i :: 0 <= i < |calls| ==> start <= calls[i].now <= end && Period(calls[i].op) <= period)
    && (forall i, j :: 0 <= i < j < |calls| ==> calls[i].now <= calls[j].now)
  }

  // Nothing armed is due earlier than the last getNextTimer saw, unless it was announced; and every
  // armed timer was armed at some time up to now.
  ghost predicate Quiet(v: Snapshot, now: nat, period: nat) {
    && (forall i :: i in v.armed ==> i < |v.timers|)
    && (v.woken || forall i :: i in v.armed ==> !Earlier(At(v.timers[i].next), v.seen))
    && (v.tickled ==> v.woken) && v.previous <= now
    && (forall i :: i in v.armed ==> 0 <= v.timers[i].next - v.timers[i].ms <= now)
    && (forall i :: 0 <= i < |v.timers| ==> v.timers[i].ms <= period)
  }

  lemma QuietIsAwake(v: Snapshot, now: nat, period: nat)
    requires Quiet(v, now, period)
    ensures IsAwake(v)
  {
    if MinDue(v).At? { var i := LeastReached(v, |v.timers|); }
  }

  // Announcing makes up for the one timer that may be early.
  lemma AnnounceQuiet(v: Snapshot, i: nat, now: nat, period: nat)
    requires i in v.armed && Quiet(v.(armed := v.armed - {i}), now, period) && i < |v.timers|
    requires 0 <= v.timers[i].next - v.timers[i].ms <= now
    ensures Quiet(Announce(v, i), now, period)
  {
    var w := v.(armed := v.armed - {i});
    assert forall j :: j in w.armed <==> j in v.armed && j != i;
    if !IsFirst(v, i) {
      var j :| j in v.armed && j < |v.timers| && j != i && !Before(v.timers, i, j);
      assert j in w.armed;
    }
  }

  lemma NextQuiet(v: Snapshot, call: Call, before: nat, period: nat)
    requires Quiet(v, before, period) && before <= call.now && call.now + period < TWO_64 && Period(call.op) <= period
    ensures Quiet(Next(v, call), call.now, period)
  {
    var now := call.now;
    QuietLater(v, before, now, period);
    hide Quiet, Announce, MinDue, Expired;
    match call.op
    case Add(ms, cb, recurring, addr) => AddQuiet(v, Record(U64(now + ms), ms, cb, recurring, addr), now, period);
    case Cancel(i) => CancelQuiet(v, i, now, period);
    case Refresh(i) => RefreshQuiet(v, i, now, period);
    case Reset(i, ms, from_now) =>
      if i < |v.timers| && v.timers[i].cb.Some? && !(ms == v.timers[i].ms && !from_now) {
        ResetQuiet(v, i, ms, from_now, now, period);
      }
    case NextTimer => SeenQuiet(v, now, period);
    case ListExpired(_) => ExpiredQuiet(v, now, period);
  }

  lemma AddQuiet(v: Snapshot, r: Record, now: nat, period: nat)
    requires Quiet(v, now, period) && r.next == now + r.ms && r.ms <= period
    ensures Quiet(Announce(v.(timers := v.timers + [r], armed := v.armed + {|v.timers|}), |v.timers|), now, period)
  {
    var u := v.(timers := v.timers + [r], armed := v.armed + {|v.timers|});
    assert u.armed - {|v.timers|} == v.armed;
    hide Announce;
    AnnounceQuiet(u, |v.timers|, now, period);
  }

  lemma CancelQuiet(v: Snapshot, i: nat, now: nat, period: nat)
    requires Quiet(v, now, period)
    ensures Quiet(Next(v, Call(now, Cancel(i))), now, period)
  {
  }

  lemma RefreshQuiet(v: Snapshot, i: nat, now: nat, period: nat)
    requires Quiet(v, now, period) && now + period < TWO_64
    ensures Quiet(Next(v, Call(now, Refresh(i))), now, period)
  {
  }

  lemma SeenQuiet(v: Snapshot, now: nat, period: nat)
    requires Quiet(v, now, period)
    ensures Quiet(v.(tickled := false, seen := MinDue(v), woken := false), now, period)
  {
    forall i | i in v.armed ensures !Earlier(At(v.timers[i].next), MinDue(v)) {
      LeastBelow(v, |v.timers|, i);
    }
  }

  lemma ExpiredQuiet(v: Snapshot, now: nat, period: nat)
    requires Quiet(v, now, period) && now + period < TWO_64
    ensures Quiet(Expired(v, now), now, period)
  {
    var u := Expired(v, now);
    assert forall i :: i in u.armed ==> i in v.armed;
    assert !Rolled(v.previous, now);
    hide Rolled;
    forall i | 0 <= i < |u.timers|
      ensures u.timers[i] == if Expires(v, i, now) then FiredRecord(v.timers[i], now) else v.timers[i]
    {}
  }

  lemma ResetQuiet(v: Snapshot, i: nat, ms: nat, from_now: bool, now: nat, period: nat)
    requires Quiet(v, now, period) && now + period < TWO_64 && i < |v.timers| && ms <= period
    requires v.timers[i].cb.Some? && !(ms == v.timers[i].ms && !from_now)
    ensures Quiet(Next(v, Call(now, Reset(i, ms, from_now))), now, period)
  {
    var start := if from_now then now else U64(v.timers[i].next - v.timers[i].ms);
    var u := v.(timers := v.timers[i := v.timers[i].(next := U64(start + ms), ms := ms)]);
    hide Announce;
    if i in v.armed {
      AnnounceQuiet(u, i, now, period);
    } else {
      NotAnnounced(u, i);
    }
  }

  lemma NotAnnounced(v: Snapshot, i: nat)
    requires i !in v.armed
    ensures Announce(v, i) == v
  {
  }

  // After every run of calls on a steady clock, a timer due earlier than the last getNextTimer saw
  // has been announced.
  lemma SteadyAwake(start: nat, calls: seq<Call>, period: nat, end: nat)
    requires Steady(start, calls, period, end)
    ensures IsAwake(After(start, calls))
  {
    SteadyQuiet(start, calls, period, end);
    QuietIsAwake(After(start, calls), end, period);
  }

  lemma {:induction false} SteadyQuiet(start: nat, calls: seq<Call>, period: nat, end: nat)
    requires Steady(start, calls, period, end)
    ensures Quiet(After(start, calls), if |calls| == 0 then start else calls[|calls| - 1].now, period)
    ensures Quiet(After(start, calls), end, period)
    decreases |calls|
  {
    if |calls| > 0 {
      var n := |calls| - 1;
      hide Quiet, Next;
      SteadyQuiet(start, calls[..n], period, end);
      NextQuiet(After(start, calls[..n]), calls[n], if n == 0 then start else calls[n - 1].now, period);
      QuietLater(After(start, calls), calls[n].now, end, period);
    }
  }

  lemma QuietLater(v: Snapshot, now: nat, later: nat, period: nat)
    requires Quiet(v, now, period) && now <= later
    ensures Quiet(v, later, period)
  {
  }

  // Without the steady clock the property fails: a timer whose due time overflowed comes back early
  // on refresh, and nobody is told ...
  lemma RefreshOverflow()
    ensures !IsAwake(After(10, [Call(10, Add(TWO_64 - 11, Some(0), false, 1)), Call(10, NextTimer),
                                Call(20, Refresh(0))]))
  {
    var calls := [Call(10, Add(TWO_64 - 11, Some(0), false, 1)), Call(10, NextTimer), Call(20, Refresh(0))];
    var v := FirstSeen(10, calls, TWO_64 - 11, false, TWO_64 - 1);
    assert calls[..2] + [calls[2]] == calls;
    assert Least(After(10, calls), 1) == At(9);
  }

  // ... and a recurring timer that fires after the clock went back by more than an hour is due before
  // the time that was seen, unannounced.
  lemma RollbackUnannounced()
    ensures !IsAwake(After(8_000_000, [Call(8_000_000, Add(1000, Some(0), true, 1)), Call(8_000_000, NextTimer),
                                       Call(1000, ListExpired(2))]))
  {
    var calls := [Call(8_000_000, Add(1000, Some(0), true, 1)), Call(8_000_000, NextTimer), Call(1000, ListExpired(2))];
    var v := FirstSeen(8_000_000, calls, 1000, true, 8_001_000);
    var u := After(8_000_000, calls);
    assert Expires(v, 0, 1000) && u.timers[0].next == 2000 && 0 in u.armed;
    assert Least(u, 1) == At(2000);
  }

  // One timer is added and seen by getNextTimer.
  lemma FirstSeen(start: nat, calls: seq<Call>, ms: nat, recurring: bool, next: nat) returns (v: Snapshot)
    requires |calls| == 3 && calls[1] == Call(start, NextTimer)
    requires calls[0] == Call(start, Add(ms, Some(0), recurring, 1))
    requires next == U64(start + ms)
    ensures v == Snapshot([Record(next, ms, Some(0), recurring, 1)], {0}, start, false, At(next), false)
    ensures After(start, calls) == Next(v, calls[2])
  {
    var one, none := calls[..1], Snapshot([], {}, start, false, Never, false);
    assert calls[..2][..1] == one && one[..0] == [];
    var u := Next(none, calls[0]);
    assert After(start, one) == u;
    assert none.timers + [Record(next, ms, Some(0), recurring, 1)] == [Record(next, ms, Some(0), recurring, 1)];
    assert none.armed + {0} == {0};
    assert Least(u, 0) == Never && Least(u, 1) == At(next);
    v := After(start, calls[..2]);
  }
}
