// What each operation on threads (rt-thread/src/thread.c, scheduler.c, clock.c) changes, field by field and
// queue by queue, and what comes of it: changed priorities decide who runs, and slices go round.
module SchedulerLaws {
  import opened OrderedQueue
  import opened SchedulerRuns

  // Of the threads only t may have changed, and no CPU has switched.
  ghost predicate OnlyThread(s: Sched, n: Sched, t: Thread) {
    && n.tcb.Keys == s.tcb.Keys && n.current == s.current && n.idle == s.idle
    && forall y :: y in s.tcb && y != t ==> n.tcb[y] == s.tcb[y]
  }

  // Thread t has left its queue, if it was in one, and is last in the queue of `to`, if there is one.
  ghost predicate Requeued(s: Sched, n: Sched, t: Thread, to: set<Slot>) {
    forall c, q :: Queue(n, c, q) == Removed(Queue(s, c, q), t) + if Slot(c, q) in to then [t] else []
  }

  lemma QueuesWithout(s: Sched, t: Thread)
    requires Valid(s) && t in s.tcb && s.tcb[t].stat != Ready
    ensures forall c, q :: Removed(Queue(s, c, q), t) == Queue(s, c, q)
  {
    forall c, q ensures Removed(Queue(s, c, q), t) == Queue(s, c, q) {
      assert QueueOk(s, c, q);
      assert t in Queue(s, c, q) ==> Entry(s, c, q, t);
      AbsentRemoved(Queue(s, c, q), t);
    }
  }

  // ---- changing a priority ----

  // Whatever its state, the thread has the priority asked for and is otherwise as it was; a ready one is
  // last in the queue of that priority.
  lemma PriorityChanged(s: Sched, t: Thread, p: nat)
    requires Valid(s) && t in s.tcb && p < LEVELS
    ensures
      var n, b := Step(s, ChangePriority(t, p)), s.tcb[t];
      && OnlyThread(s, n, t) && n.tcb[t] == b.(prio := p)
      && Requeued(s, n, t, if b.stat == Ready then {Slot(b.bind, p)} else {})
  {
    var b := s.tcb[t];
    if b.stat == Ready {
      var d := Dequeued(s, t);
      DequeuedQueues(s, t, d);
      var u := With(d, t, b.(prio := p));
      forall c, q ensures Queue(u, c, q) == Queue(d, c, q) {}
    } else {
      QueuesWithout(s, t);
    }
  }

  // The next scheduling acts on it: the CPU runs nothing less urgent than the thread, if it is runnable, and
  // runs another one if the thread is now less urgent than one that is ready.
  lemma PriorityDecides(s: Sched, t: Thread, p: nat, y: Thread)
    requires Valid(s) && t in s.tcb && p < LEVELS && Runnable(s, t)
    ensures
      var n, c := Step(s, ChangePriority(t, p)), s.tcb[t].bind;
      && Valid(n) && c < CPUS && c in n.current && n.current[c] in n.tcb
      && var m := Scheduled(n, c);
      && c in m.current && m.current[c] in m.tcb
      && m.tcb[m.current[c]].prio <= p
      && (y in s.tcb && y != t && s.tcb[y].stat == Ready && s.tcb[y].bind == c && s.tcb[y].prio < p ==>
            m.current[c] != t && m.tcb[m.current[c]].prio <= s.tcb[y].prio)
  {
    var n, c := Step(s, ChangePriority(t, p)), s.tcb[t].bind;
    ReprioritisedValid(s, t, p);
    PriorityChanged(s, t, p);
    assert ThreadOk(s, t);
    MostUrgentRuns(n, c);
    var m := Scheduled(n, c);
    ScheduledRunnable(n, c, t);
    ScheduledKeepsPrio(n, c, t);
    ScheduledValid(n, c);
    assert ThreadOk(m, t);
    if y in s.tcb && y != t && s.tcb[y].stat == Ready && s.tcb[y].bind == c {
      ScheduledRunnable(n, c, y);
      ScheduledKeepsPrio(n, c, y);
      assert ThreadOk(m, y);
    }
  }

  // ---- becoming runnable, and ceasing to be ----

  // A thread that waits no longer goes on running if its CPU still runs it, and else is last in the queue of
  // its priority.
  lemma WokenThread(s: Sched, t: Thread, e: Event)
    requires Valid(s) && t in s.tcb && s.tcb[t].stat == Suspend && (e == Resume(t) || e == Timeout(t))
    ensures
      var n, b := Step(s, e), s.tcb[t];
      var runs := b.bind in s.current && s.current[b.bind] == t;
      && OnlyThread(s, n, t) && n.tcb[t] == b.(stat := if runs then Running else Ready)
      && Requeued(s, n, t, if runs then {} else {Slot(b.bind, b.prio)})
  {
    QueuesWithout(s, t);
  }

  // A thread started for the first time has the priority it was made with.
  lemma StartedThread(s: Sched, t: Thread)
    requires Valid(s) && t in s.tcb && s.tcb[t].stat == Init
    ensures
      var n, b := Step(s, Startup(t)), s.tcb[t];
      && OnlyThread(s, n, t) && n.tcb[t] == b.(prio := b.initPrio, stat := Ready, yielding := false)
      && Requeued(s, n, t, {Slot(b.bind, b.initPrio)})
  {
    var b := s.tcb[t];
    QueuesWithout(s, t);
    if b.bind in s.current && s.current[b.bind] == t { if b.bind < CPUS { Bound(s, t, b.bind); } }
    assert ThreadOk(s, t);
    var u := With(s, t, b.(prio := b.initPrio, stat := Suspend, yielding := false));
    forall c, q ensures Queue(u, c, q) == Queue(s, c, q) {}
  }

  // A runnable thread that is suspended is in no queue; any other is left alone.
  lemma SuspendedThread(s: Sched, t: Thread, caller: Cpu)
    requires Valid(s) && t in s.tcb
    ensures
      var n, b := Step(s, SuspendThread(t, caller)), s.tcb[t];
      if Runnable(s, t) then OnlyThread(s, n, t) && n.tcb[t] == b.(stat := Suspend) && Requeued(s, n, t, {})
      else n == s
  {
    DequeuedQueues(s, t, Dequeued(s, t));
  }

  lemma ExitedThread(s: Sched, c: Cpu)
    requires Valid(s) && c < CPUS && c in s.current && s.current[c] in s.tcb
    ensures
      var n, t := Step(s, Exit(c)), s.current[c];
      && OnlyThread(s, n, t) && n.tcb[t] == s.tcb[t].(stat := Close, yielding := false) && Requeued(s, n, t, {})
  {
    DequeuedQueues(s, s.current[c], Dequeued(s, s.current[c]));
  }

  // ---- scheduling ----

  // A switch is to the first thread of the best queue. That thread leaves its queue, and the former one is
  // put last in its own if it can still run.
  lemma SwitchChanges(s: Sched, c: Cpu)
    requires Valid(s) && c < CPUS && c in s.current && s.current[c] in s.tcb
    requires Scheduled(s, c).current != s.current
    ensures
      var n, cur := Scheduled(s, c), s.current[c];
      && c in n.current && n.current == s.current[c := n.current[c]] && n.current[c] in s.tcb && n.current[c] != cur
      && var to, b := n.current[c], s.tcb[cur];
      && n.tcb.Keys == s.tcb.Keys && (forall y :: y in s.tcb && y != cur && y != to ==> n.tcb[y] == s.tcb[y])
      && n.tcb[to] == s.tcb[to].(stat := Running)
      && n.tcb[cur] == (if b.stat == Running then b.(stat := Ready, yielding := false) else b)
      && Queue(s, c, s.tcb[to].prio) != [] && Queue(s, c, s.tcb[to].prio)[0] == to
  {
    BestIsReady(s, c);
    Bound(s, Queue(s, c, BestLevel(s, c, 0))[0], c);
  }

  lemma SwitchQueues(s: Sched, c: Cpu)
    requires Valid(s) && c < CPUS && c in s.current && s.current[c] in s.tcb
    requires Scheduled(s, c).current != s.current
    ensures
      var n, cur := Scheduled(s, c), s.current[c];
      && c in n.current && n.current[c] in s.tcb
      && forall q :: Queue(n, c, q) == Removed(Queue(s, c, q), n.current[c]) +
                       if s.tcb[cur].stat == Running && q == s.tcb[cur].prio then [cur] else []
  {
    var cur := s.current[c];
    BestIsReady(s, c);
    var to := Queue(s, c, BestLevel(s, c, 0))[0];
    if s.tcb[cur].stat == Running {
      SwitchedQueues(s, c, to);
    } else {
      DequeuedQueues(s, to, Dequeued(s, to));
      forall q ensures Queue(Scheduled(s, c), c, q) == Removed(Queue(s, c, q), to) {
        assert Queue(Dequeued(s, to), c, q) == Removed(Queue(s, c, q), to);
      }
    }
  }

  // Without a switch nothing changes but a request to yield, which has been answered.
  lemma NoSwitchChanges(s: Sched, c: Cpu)
    requires Valid(s) && c < CPUS && c in s.current && s.current[c] in s.tcb
    requires Scheduled(s, c).current == s.current
    ensures
      var n, t := Scheduled(s, c), s.current[c];
      && OnlyThread(s, n, t) && n.queues == s.queues
      && (n.tcb[t] == s.tcb[t] || n.tcb[t] == s.tcb[t].(yielding := false))
  {
    if BestLevel(s, c, 0) < LEVELS {
      BestIsReady(s, c);
      Bound(s, Queue(s, c, BestLevel(s, c, 0))[0], c);
    }
  }

  // ---- time slices ----

  // A tick takes one off the slice of the running thread; the last one fills it up and asks it to yield.
  lemma TickChanges(s: Sched, c: Cpu)
    requires Valid(s) && c < CPUS && c in s.current && s.current[c] in s.tcb && s.tcb[s.current[c]].slice > 0
    ensures
      var n, t := Step(s, Tick(c)), s.current[c];
      && OnlyThread(s, n, t) && n.queues == s.queues
      && n.tcb[t] == if s.tcb[t].slice > 1 then s.tcb[t].(slice := s.tcb[t].slice - 1)
                     else s.tcb[t].(slice := s.tcb[t].initSlice, yielding := true)
  {
  }

  // A thread that yields has a full slice when it runs again.
  lemma YieldRefills(s: Sched, c: Cpu)
    requires Valid(s) && c < CPUS && c in s.current && s.current[c] in s.tcb
    ensures
      var n, t := Step(s, Yield(c)), s.current[c];
      && t in n.tcb && n.tcb[t].slice == s.tcb[t].initSlice && n.tcb[t].initSlice == s.tcb[t].initSlice
      && forall y :: y in s.tcb && y != t ==>
           y in n.tcb && n.tcb[y].slice == s.tcb[y].slice && n.tcb[y].initSlice == s.tcb[y].initSlice
                      && n.tcb[y].yielding == s.tcb[y].yielding
  {
    var u := AskedToYield(s, c);
    AskedValid(s, c);
    if Scheduled(u, c).current != u.current { SwitchChanges(u, c); } else { NoSwitchChanges(u, c); }
  }

  // Every thread of xs has a full slice to run, and none has been asked to yield.
  ghost predicate FullSlices(s: Sched, xs: seq<Thread>) {
    forall x :: x in xs ==> x in s.tcb && s.tcb[x].slice == s.tcb[x].initSlice > 0 && !s.tcb[x].yielding
  }

  // A tick and a scheduling that leave the thread running change no other.
  lemma NoneElse(s: Sched, c: Cpu)
    requires Valid(s) && c < CPUS && c in s.current && s.current[c] in s.tcb
    requires Scheduled(Ticked(s, c), c).current == s.current
    ensures
      var n, t := Scheduled(Ticked(s, c), c), s.current[c];
      t in n.tcb && n.tcb == s.tcb[t := n.tcb[t]]
  {
    AskedValid(s, c);
    NoSwitchChanges(Ticked(s, c), c);
  }

  // A thread of xs has its slice as before; the first has a full one and is no longer asked to yield.
  ghost predicate SlicesAfter(s: Sched, n: Sched, xs: seq<Thread>) {
    && (forall x :: x in xs ==> x in s.tcb && x in n.tcb && n.tcb[x].initSlice == s.tcb[x].initSlice)
    && xs != [] && n.tcb[xs[0]].slice == n.tcb[xs[0]].initSlice && !n.tcb[xs[0]].yielding
    && forall x :: x in xs && x != xs[0] ==> n.tcb[x].slice == s.tcb[x].slice && n.tcb[x].yielding == s.tcb[x].yielding
  }

  // The yield of a thread that has others to give way to is done with once they run.
  lemma YieldDone(s: Sched, c: Cpu, p: nat, xs: seq<Thread>)
    requires Valid(s) && c < CPUS && Sharing(s, c, p, xs) && |xs| > 1 && forall x :: x in xs ==> x in s.tcb
    ensures Valid(Step(s, Yield(c))) && Sharing(Step(s, Yield(c)), c, p, xs[1..] + [xs[0]])
    ensures SlicesAfter(s, Step(s, Yield(c)), xs)
  {
    YieldRotates(s, c, p, xs);
    YieldRefills(s, c);
    var u := AskedToYield(s, c);
    AskedValid(s, c);
    assert QueueOk(s, c, p) && xs[1] in Queue(s, c, p) && Entry(s, c, p, xs[1]);
    Bound(s, xs[0], c);
    assert (xs[1..] + [xs[0]])[0] == xs[1];
    SwitchChanges(u, c);
  }

  // A tick within the slice.
  lemma TickWithin(s: Sched, c: Cpu, p: nat, xs: seq<Thread>)
    requires Valid(s) && c < CPUS && Sharing(s, c, p, xs) && !s.tcb[xs[0]].yielding && s.tcb[xs[0]].slice > 1
    ensures
      var n, b := Tock(s, c), s.tcb[xs[0]];
      Valid(n) && Sharing(n, c, p, xs) && n.tcb == s.tcb[xs[0] := b.(slice := b.slice - 1)]
  {
    TickStays(s, c, p, xs);
    NoneElse(s, c);
  }

  lemma SlicesLater(s: Sched, n: Sched, m: Sched, xs: seq<Thread>)
    requires SlicesAfter(n, m, xs) && xs[0] in s.tcb && exists k :: n.tcb == s.tcb[xs[0] := s.tcb[xs[0]].(slice := k)]
    ensures SlicesAfter(s, m, xs)
  {
  }

  lemma LastTick(s: Sched, c: Cpu)
    requires c in s.current && s.current[c] in s.tcb && s.tcb[s.current[c]].slice == 1
    ensures TickTimes(s, c, 1) == Step(s, Yield(c))
  {
    assert TickTimes(s, c, 1) == TickTimes(Tock(s, c), c, 0);
  }

  // One turn: the thread runs for what its slice has left, goes behind the others, and has a full slice for
  // next time.
  lemma {:induction false} Turn(s: Sched, c: Cpu, p: nat, xs: seq<Thread>, k: nat)
    requires Valid(s) && c < CPUS && Sharing(s, c, p, xs) && |xs| > 1 && forall x :: x in xs ==> x in s.tcb
    requires !s.tcb[xs[0]].yielding && k == s.tcb[xs[0]].slice > 0
    ensures
      var n := TickTimes(s, c, k);
      Valid(n) && Sharing(n, c, p, xs[1..] + [xs[0]]) && SlicesAfter(s, n, xs)
    decreases k
  {
    if k == 1 {
      LastTick(s, c);
      YieldDone(s, c, p, xs);
    } else {
      var n := Tock(s, c);
      TickWithin(s, c, p, xs);
      Turn(n, c, p, xs, k - 1);
      SlicesLater(s, n, TickTimes(n, c, k - 1), xs);
    }
  }

  lemma {:induction false} TicksAdd(s: Sched, c: Cpu, a: nat, b: nat, k: nat)
    requires k == a + b
    ensures TickTimes(s, c, k) == TickTimes(TickTimes(s, c, a), c, b)
    decreases a
  {
    if a > 0 { TicksAdd(Tock(s, c), c, a - 1, b, k - 1); }
  }

  // The ticks of one turn each.
  function TicksOf(s: Sched, xs: seq<Thread>): nat
    requires forall x :: x in xs ==> x in s.tcb
  {
    if xs == [] then 0 else s.tcb[xs[0]].initSlice + TicksOf(s, xs[1..])
  }

  lemma {:induction false} SameTicks(s: Sched, n: Sched, xs: seq<Thread>)
    requires forall x :: x in xs ==> x in s.tcb && x in n.tcb && n.tcb[x].initSlice == s.tcb[x].initSlice
    ensures TicksOf(s, xs) == TicksOf(n, xs)
  {
    if xs != [] { SameTicks(s, n, xs[1..]); }
  }

  lemma TurnedOnce(xs: seq<Thread>, k: nat)
    requires 0 < k <= |xs|
    ensures
      var ys := xs[1..] + [xs[0]];
      && |ys| == |xs| && (forall y :: y in ys <==> y in xs)
      && xs[..k][0] == xs[0] && xs[..k][1..] == ys[..k - 1] && ys[k - 1..] + ys[..k - 1] == xs[k..] + xs[..k]
  {
    var ys := xs[1..] + [xs[0]];
    assert xs == [xs[0]] + xs[1..];
    assert xs[..k][1..] == xs[1..k] == ys[..k - 1];
    assert ys[k - 1..] == xs[k..] + [xs[0]];
    assert [xs[0]] + xs[1..k] == xs[..k];
  }

  lemma FullTurnTaken(s: Sched, c: Cpu, p: nat, xs: seq<Thread>)
    requires Valid(s) && c < CPUS && Sharing(s, c, p, xs) && |xs| > 1 && FullSlices(s, xs)
    ensures
      var n := TickTimes(s, c, s.tcb[xs[0]].initSlice);
      && Valid(n) && Sharing(n, c, p, xs[1..] + [xs[0]]) && FullSlices(n, xs)
      && forall x :: x in xs ==> x in s.tcb && x in n.tcb && n.tcb[x].initSlice == s.tcb[x].initSlice
  {
    Turn(s, c, p, xs, s.tcb[xs[0]].slice);
  }

  // The ticks of k turns are those of the first and those of the k - 1 that follow it.
  lemma TurnsAdd(s: Sched, n: Sched, xs: seq<Thread>, k: nat)
    requires 0 < k <= |xs|
    requires forall x :: x in xs ==> x in s.tcb && x in n.tcb && n.tcb[x].initSlice == s.tcb[x].initSlice
    ensures
      var ys := xs[1..] + [xs[0]];
      && (forall y :: y in ys <==> y in xs)
      && TicksOf(s, xs[..k]) == s.tcb[xs[0]].initSlice + TicksOf(n, ys[..k - 1])
  {
    TurnedOnce(xs, k);
    SameTicks(s, n, (xs[1..] + [xs[0]])[..k - 1]);
  }

  // Threads that share their priority and start with full slices take turns, each for as many ticks as its
  // own slice has, whatever the slices of the others.
  lemma {:induction false} RoundRobin(s: Sched, c: Cpu, p: nat, xs: seq<Thread>, k: nat)
    requires Valid(s) && c < CPUS && Sharing(s, c, p, xs) && |xs| > 1 && FullSlices(s, xs) && k <= |xs|
    ensures
      var n := TickTimes(s, c, TicksOf(s, xs[..k]));
      Valid(n) && Sharing(n, c, p, xs[k..] + xs[..k]) && FullSlices(n, xs)
    decreases k
  {
    if k == 0 {
      assert xs[0..] + xs[..0] == xs;
    } else {
      FullTurnTaken(s, c, p, xs);
      TurnedOnce(xs, k);
      var a, ys := s.tcb[xs[0]].initSlice, xs[1..] + [xs[0]];
      var n := TickTimes(s, c, a);
      TurnsAdd(s, n, xs, k);
      TicksAdd(s, c, a, TicksOf(n, ys[..k - 1]), TicksOf(s, xs[..k]));
      RoundRobin(n, c, p, ys, k - 1);
    }
  }
}
