// The per-CPU priority scheduler and the thread states (rt-thread/src/scheduler.c, thread.c,
// clock.c) as a state: which threads are ready in which queue, and which one each CPU runs.
module SchedulerRuns {
  import opened OrderedQueue

  type Thread = Item
  type Cpu = nat

  const CPUS: nat := 2                           // RT_CPUS_NR
  const LEVELS: nat := 32                        // RT_THREAD_PRIORITY_MAX

  datatype Stat = Init | Ready | Suspend | Running | Close

  datatype Slot = Slot(cpu: Cpu, prio: nat)

  datatype Tcb = Tcb(
    stat: Stat,
    yielding: bool,                    // RT_THREAD_STAT_YIELD
    prio: nat,                         // current_priority
    initPrio: nat,                     // init_priority
    bind: Cpu,                         // bind_cpu
    slice: nat,                        // remaining_tick
    initSlice: nat)                    // init_tick

  datatype Sched = Sched(
    queues: map<Slot, seq<Thread>>,    // priority_table of every CPU
    current: map<Cpu, Thread>,         // current_thread
    tcb: map<Thread, Tcb>,
    idle: map<Cpu, Thread>)            // each CPU's idle thread

  datatype Event =
    | Startup(t: Thread)
    | SuspendThread(t: Thread, caller: Cpu)
    | Resume(t: Thread)
    | Timeout(t: Thread)
    | ChangePriority(t: Thread, prio: nat)
    | Schedule(c: Cpu)                 // rt_schedule or rt_scheduler_do_irq_switch, when they may switch
    | Yield(c: Cpu)
    | Tick(c: Cpu)                     // the time slice of rt_tick_increase
    | Exit(c: Cpu)                     // _thread_exit up to its call of rt_schedule

  function Queue(s: Sched, c: Cpu, p: nat): seq<Thread> {
    if Slot(c, p) in s.queues then s.queues[Slot(c, p)] else []
  }

  function With(s: Sched, t: Thread, b: Tcb): Sched {
    s.(tcb := s.tcb[t := b])
  }

  ghost predicate IsCurrent(s: Sched, t: Thread) {
    exists c :: c in s.current && s.current[c] == t
  }

  // The least level from p on with a ready thread of CPU c, or LEVELS.
  function BestLevel(s: Sched, c: Cpu, p: nat): (b: nat)
    requires p <= LEVELS
    ensures p <= b <= LEVELS
    ensures b < LEVELS ==> Queue(s, c, b) != []
    ensures forall q :: p <= q < b ==> Queue(s, c, q) == []
    decreases LEVELS - p
  {
    if p == LEVELS || Queue(s, c, p) != [] then p else BestLevel(s, c, p + 1)
  }

  // ---- steps ----

  function Enqueued(s: Sched, t: Thread): Sched
    requires t in s.tcb
  {
    var b := s.tcb[t];
    s.(queues := s.queues[Slot(b.bind, b.prio) := Queue(s, b.bind, b.prio) + [t]], tcb := s.tcb[t := b.(stat := Ready)])
  }

  function Dequeued(s: Sched, t: Thread): Sched
    requires t in s.tcb
  {
    var b := s.tcb[t];
    s.(queues := s.queues[Slot(b.bind, b.prio) := Removed(Queue(s, b.bind, b.prio), t)])
  }

  // A thread made runnable: one that is still current on its CPU goes on, any other is queued.
  function MadeRunnable(s: Sched, t: Thread): Sched
    requires t in s.tcb
  {
    var b := s.tcb[t];
    if b.bind in s.current && s.current[b.bind] == t then With(s, t, b.(stat := Running)) else Enqueued(s, t)
  }

  function Started(s: Sched, t: Thread): Sched
    requires t in s.tcb
  {
    var b := s.tcb[t];
    MadeRunnable(With(s, t, b.(prio := b.initPrio, stat := Suspend, yielding := false)), t)
  }

  function Suspended(s: Sched, t: Thread): Sched
    requires t in s.tcb
  {
    var b := s.tcb[t];
    if b.stat == Ready || b.stat == Running then With(Dequeued(s, t), t, b.(stat := Suspend)) else s
  }

  function Resumed(s: Sched, t: Thread): Sched
    requires t in s.tcb
  {
    if s.tcb[t].stat == Suspend then MadeRunnable(s, t) else s
  }

  function Reprioritised(s: Sched, t: Thread, p: nat): Sched
    requires t in s.tcb
  {
    var b := s.tcb[t].(prio := p);
    if b.stat == Ready then Enqueued(With(Dequeued(s, t), t, b), t) else With(s, t, b)
  }

  // The running thread stays if it is more urgent than every ready one, or as urgent and has not
  // been asked to yield.
  function Stays(b: Tcb, best: nat): bool {
    b.stat == Running && (b.prio < best || (b.prio == best && !b.yielding))
  }

  // CPU c runs thread `to` instead; its former thread is queued again if it is still runnable.
  function Switched(s: Sched, c: Cpu, to: Thread): Sched
    requires c in s.current && s.current[c] in s.tcb && to in s.tcb
  {
    var cur := s.current[c];
    var u := With(Dequeued(s, to).(current := s.current[c := to]), to, s.tcb[to].(stat := Running));
    if s.tcb[cur].stat == Running then Enqueued(With(u, cur, s.tcb[cur].(yielding := false)), cur) else u
  }

  function Scheduled(s: Sched, c: Cpu): Sched
    requires c in s.current && s.current[c] in s.tcb
  {
    var best := BestLevel(s, c, 0);
    var cur := s.current[c];
    if best == LEVELS then s
    else if Stays(s.tcb[cur], best) then With(s, cur, s.tcb[cur].(yielding := false))
    else if Queue(s, c, best)[0] in s.tcb then Switched(s, c, Queue(s, c, best)[0])
    else s
  }

  function AskedToYield(s: Sched, c: Cpu): Sched
    requires c in s.current && s.current[c] in s.tcb
  {
    var b := s.tcb[s.current[c]];
    With(s, s.current[c], b.(yielding := true, slice := b.initSlice))
  }

  const TICK_WRAP: nat := 0x1_0000_0000_0000_0000

  function Ticked(s: Sched, c: Cpu): Sched
    requires c in s.current && s.current[c] in s.tcb
  {
    var b := s.tcb[s.current[c]];
    if b.slice == 1 then AskedToYield(s, c)
    else With(s, s.current[c], b.(slice := if b.slice == 0 then TICK_WRAP - 1 else b.slice - 1))
  }

  function Exited(s: Sched, c: Cpu): Sched
    requires c in s.current && s.current[c] in s.tcb
  {
    var cur := s.current[c];
    With(Dequeued(s, cur), cur, s.tcb[cur].(stat := Close, yielding := false))
  }

  ghost predicate IsIdle(s: Sched, t: Thread) {
    exists c :: c in s.idle && s.idle[c] == t
  }

  // What callers keep to: only a thread's own CPU suspends it while it runs, idle threads neither
  // suspend nor exit, and a thread's timer runs out only while it waits.
  ghost predicate CanHappen(s: Sched, e: Event) {
    match e
    case Startup(t) => t in s.tcb && s.tcb[t].stat == Init
    case SuspendThread(t, caller) =>
      t in s.tcb && !IsIdle(s, t) && (s.tcb[t].stat == Running ==> caller in s.current && s.current[caller] == t)
    case Resume(t) => t in s.tcb
    case Timeout(t) => t in s.tcb && s.tcb[t].stat == Suspend
    case ChangePriority(t, p) => t in s.tcb && p < LEVELS
    case Exit(c) => c < CPUS && c in s.current && !IsIdle(s, s.current[c])
    case _ => e.c < CPUS
  }

  ghost predicate Defined(s: Sched, e: Event) {
    match e
    case Startup(t) => t in s.tcb
    case SuspendThread(t, _) => t in s.tcb
    case Resume(t) => t in s.tcb
    case Timeout(t) => t in s.tcb
    case ChangePriority(t, _) => t in s.tcb
    case _ => e.c in s.current && s.current[e.c] in s.tcb
  }

  function Step(s: Sched, e: Event): Sched
    requires Defined(s, e)
  {
    match e
    case Startup(t) => Started(s, t)
    case SuspendThread(t, _) => Suspended(s, t)
    case Resume(t) => Resumed(s, t)
    case Timeout(t) => MadeRunnable(s, t)
    case ChangePriority(t, p) => Reprioritised(s, t, p)
    case Schedule(c) => Scheduled(s, c)
    case Yield(c) => Scheduled(AskedToYield(s, c), c)
    case Tick(c) => Ticked(s, c)
    case Exit(c) => Exited(s, c)
  }

  // ---- every thread in one place ----

  ghost predicate InRange(b: Tcb) {
    b.prio < LEVELS && b.initPrio < LEVELS && b.bind < CPUS
  }

  // A queue holds ready threads of its CPU and priority, each once.
  ghost predicate Entry(s: Sched, c: Cpu, p: nat, t: Thread) {
    t in s.tcb && s.tcb[t].stat == Ready && s.tcb[t].bind == c && s.tcb[t].prio == p
  }

  ghost predicate QueueOk(s: Sched, c: Cpu, p: nat) {
    Distinct(Queue(s, c, p)) && forall t :: t in Queue(s, c, p) ==> Entry(s, c, p, t)
  }

  ghost predicate ThreadOk(s: Sched, t: Thread) {
    t in s.tcb ==>
      var b := s.tcb[t];
      && InRange(b)
      && (b.stat == Ready ==> t in Queue(s, b.bind, b.prio))
      && (b.stat == Running ==> b.bind in s.current && s.current[b.bind] == t)
  }

  ghost predicate CpuOk(s: Sched, c: Cpu) {
    c < CPUS ==>
      && c in s.current && s.current[c] in s.tcb
      && var b := s.tcb[s.current[c]];
         b.bind == c && b.stat != Ready && b.stat != Init
  }

  ghost predicate IdleOk(s: Sched, c: Cpu) {
    c < CPUS ==>
      && c in s.idle && s.idle[c] in s.tcb
      && var b := s.tcb[s.idle[c]];
         b.bind == c && (b.stat == Ready || b.stat == Running)
  }

  ghost predicate Valid(s: Sched) {
    && (forall c :: c in s.current || c in s.idle ==> c < CPUS)
    && (forall c, p :: QueueOk(s, c, p))
    && (forall t :: ThreadOk(s, t))
    && (forall c :: CpuOk(s, c))
    && (forall c :: IdleOk(s, c))
  }

  lemma AllDefined(s: Sched, e: Event)
    requires Valid(s) && CanHappen(s, e)
    ensures Defined(s, e)
  {
    if !e.Startup? && !e.SuspendThread? && !e.Resume? && !e.Timeout? && !e.ChangePriority? {
      assert CpuOk(s, e.c);
    }
  }

  // A change of bookkeeping that moves no thread.
  lemma WithValid(s: Sched, t: Thread, b: Tcb)
    requires Valid(s) && t in s.tcb && InRange(b)
    requires b.stat == s.tcb[t].stat && b.bind == s.tcb[t].bind && (b.stat == Ready ==> b.prio == s.tcb[t].prio)
    ensures Valid(With(s, t, b))
  {
    var n := With(s, t, b);
    forall c, p ensures QueueOk(n, c, p) {
      assert QueueOk(s, c, p);
      forall y | y in Queue(n, c, p) ensures Entry(n, c, p, y) { assert Entry(s, c, p, y); }
    }
    forall y ensures ThreadOk(n, y) { assert ThreadOk(s, y); }
    forall c ensures CpuOk(n, c) { assert CpuOk(s, c); }
    forall c ensures IdleOk(n, c) { assert IdleOk(s, c); }
  }

  // Thread t leaves its queue, or was in none.
  lemma DequeuedQueues(s: Sched, t: Thread, n: Sched)
    requires Valid(s) && t in s.tcb && n == Dequeued(s, t)
    ensures forall c, p :: Queue(n, c, p) == Removed(Queue(s, c, p), t)
  {
    forall c, p ensures Queue(n, c, p) == Removed(Queue(s, c, p), t) {
      assert QueueOk(s, c, p) && (t in Queue(s, c, p) ==> Entry(s, c, p, t));
      if t !in Queue(s, c, p) { AbsentRemoved(Queue(s, c, p), t); }
    }
  }

  // Valid but for thread t, which is in no queue.
  ghost predicate ValidWithout(s: Sched, t: Thread) {
    && (forall c :: c in s.current || c in s.idle ==> c < CPUS)
    && (forall c, p :: QueueOk(s, c, p) && t !in Queue(s, c, p))
    && (forall y :: y != t ==> ThreadOk(s, y))
    && (forall c :: CpuOk(s, c) || (c in s.current && s.current[c] == t))
    && (forall c :: IdleOk(s, c) || (c in s.idle && s.idle[c] == t))
  }

  // Thread t leaves its queue and its state becomes b.
  lemma TakenOut(s: Sched, t: Thread, b: Tcb)
    requires Valid(s) && t in s.tcb
    ensures ValidWithout(With(Dequeued(s, t), t, b), t)
  {
    var u := Dequeued(s, t);
    var n := With(u, t, b);
    DequeuedQueues(s, t, u);
    forall c, p ensures QueueOk(n, c, p) && t !in Queue(n, c, p) {
      assert QueueOk(s, c, p) && Queue(n, c, p) == Queue(u, c, p);
      RemovedDistinct(Queue(s, c, p), t);
      InRemoved(Queue(s, c, p), t, t);
      forall y | y in Queue(n, c, p) ensures Entry(n, c, p, y) {
        InRemoved(Queue(s, c, p), t, y);
        assert Entry(s, c, p, y);
      }
    }
    forall y | y != t ensures ThreadOk(n, y) {
      assert ThreadOk(s, y);
      if y in s.tcb {
        var d := s.tcb[y];
        assert Queue(n, d.bind, d.prio) == Queue(u, d.bind, d.prio);
        InRemoved(Queue(s, d.bind, d.prio), t, y);
      }
    }
    forall c ensures CpuOk(n, c) || (c in n.current && n.current[c] == t) { assert CpuOk(s, c); }
    forall c ensures IdleOk(n, c) || (c in n.idle && n.idle[c] == t) { assert IdleOk(s, c); }
  }

  // A thread in no queue: taking it out of its queue changes nothing.
  lemma NotQueued(s: Sched, t: Thread, b: Tcb)
    requires Valid(s) && t in s.tcb && s.tcb[t].stat != Ready
    ensures ValidWithout(With(s, t, b), t)
  {
    var n := With(s, t, b);
    forall c, p ensures QueueOk(n, c, p) && t !in Queue(n, c, p) {
      assert QueueOk(s, c, p) && !Entry(s, c, p, t);
      forall y | y in Queue(n, c, p) ensures Entry(n, c, p, y) { assert Entry(s, c, p, y); }
    }
    forall y | y != t ensures ThreadOk(n, y) { assert ThreadOk(s, y); }
    forall c ensures CpuOk(n, c) || (c in n.current && n.current[c] == t) { assert CpuOk(s, c); }
    forall c ensures IdleOk(n, c) || (c in n.idle && n.idle[c] == t) { assert IdleOk(s, c); }
  }

  // Out of the queues is where a waiting, finished or running thread belongs.
  lemma StaysOut(s: Sched, t: Thread)
    requires ValidWithout(s, t) && t in s.tcb && InRange(s.tcb[t])
    requires var b := s.tcb[t]; b.stat != Ready && (b.stat == Running ==> b.bind in s.current && s.current[b.bind] == t)
    requires forall c :: c in s.current && s.current[c] == t ==> s.tcb[t].bind == c && s.tcb[t].stat != Init
    requires forall c :: c in s.idle && s.idle[c] == t ==> s.tcb[t].bind == c && s.tcb[t].stat == Running
    ensures Valid(s)
  {
    forall c, p ensures QueueOk(s, c, p) {}
    forall y ensures ThreadOk(s, y) {}
    forall c ensures CpuOk(s, c) {}
    forall c ensures IdleOk(s, c) {}
  }

  // A runnable thread that no CPU runs belongs into its queue.
  lemma QueuedUp(s: Sched, t: Thread)
    requires ValidWithout(s, t) && t in s.tcb && InRange(s.tcb[t])
    requires forall c :: c in s.current ==> s.current[c] != t
    requires forall c :: c in s.idle && s.idle[c] == t ==> s.tcb[t].bind == c
    ensures Valid(Enqueued(s, t))
  {
    var n, b := Enqueued(s, t), s.tcb[t];
    forall c, p ensures QueueOk(n, c, p) {
      assert QueueOk(s, c, p) && t !in Queue(s, c, p);
      AppendDistinct(Queue(s, c, p), t);
      forall y | y in Queue(n, c, p) ensures Entry(n, c, p, y) {
        assert y != t ==> Entry(s, c, p, y);
      }
    }
    forall y ensures ThreadOk(n, y) {
      if y != t { assert ThreadOk(s, y); }
    }
    forall c ensures CpuOk(n, c) { assert CpuOk(s, c); }
    forall c ensures IdleOk(n, c) { assert IdleOk(s, c) || (c in s.idle && s.idle[c] == t); }
  }

  // Where thread t is current or idle thread, it is bound.
  lemma Bound(s: Sched, t: Thread, c: Cpu)
    requires Valid(s) && t in s.tcb && c < CPUS
    ensures c in s.current && s.current[c] == t ==>
        s.tcb[t].bind == c && s.tcb[t].stat != Init && s.tcb[t].stat != Ready
    ensures c in s.idle && s.idle[c] == t ==> s.tcb[t].bind == c && (s.tcb[t].stat == Ready || s.tcb[t].stat == Running)
  {
    assert CpuOk(s, c) && IdleOk(s, c);
  }

  // ---- every step ----

  // A waiting thread made runnable.
  lemma InsertedValid(s: Sched, t: Thread)
    requires Valid(s) && t in s.tcb && s.tcb[t].stat == Suspend
    ensures Valid(MadeRunnable(s, t))
  {
    assert ThreadOk(s, t);
    var b := s.tcb[t];
    forall c: nat | c < CPUS ensures c in s.current && s.current[c] == t ==> b.bind == c { Bound(s, t, c); }
    forall c | c in s.idle && s.idle[c] == t ensures false { Bound(s, t, c); }
    if b.bind in s.current && s.current[b.bind] == t {
      var r := b.(stat := Running);
      NotQueued(s, t, r);
      StaysOut(With(s, t, r), t);
    } else {
      NotQueued(s, t, b);
      assert With(s, t, b) == s;
      QueuedUp(s, t);
    }
  }

  lemma LeavesInit(s: Sched, t: Thread, b: Tcb)
    requires Valid(s) && t in s.tcb && s.tcb[t].stat == Init && b.stat == Suspend && InRange(b)
    ensures Valid(With(s, t, b))
  {
    assert ThreadOk(s, t);
    forall c | (c in s.current && s.current[c] == t) || (c in s.idle && s.idle[c] == t)
      ensures false { Bound(s, t, c); }
    NotQueued(s, t, b);
    StaysOut(With(s, t, b), t);
  }

  lemma StartedValid(s: Sched, t: Thread)
    requires Valid(s) && t in s.tcb && s.tcb[t].stat == Init
    ensures Valid(Started(s, t))
  {
    var b := s.tcb[t];
    var r := b.(prio := b.initPrio, stat := Suspend, yielding := false);
    assert ThreadOk(s, t);
    LeavesInit(s, t, r);
    InsertedValid(With(s, t, r), t);
  }

  // Thread t, on whatever list, stops being runnable.
  lemma StoppedValid(s: Sched, t: Thread, b: Tcb)
    requires Valid(s) && t in s.tcb && s.tcb[t].stat != Init && !IsIdle(s, t)
    requires InRange(b) && b.bind == s.tcb[t].bind && (b.stat == Suspend || b.stat == Close)
    ensures Valid(With(Dequeued(s, t), t, b))
  {
    TakenOut(s, t, b);
    forall c: nat | c < CPUS ensures c in s.current && s.current[c] == t ==> b.bind == c { Bound(s, t, c); }
    StaysOut(With(Dequeued(s, t), t, b), t);
  }

  lemma ReprioritisedValid(s: Sched, t: Thread, p: nat)
    requires Valid(s) && t in s.tcb && p < LEVELS
    ensures Valid(Reprioritised(s, t, p))
  {
    assert ThreadOk(s, t);
    var b := s.tcb[t].(prio := p);
    if b.stat == Ready {
      TakenOut(s, t, b);
      forall c: nat | c < CPUS
        ensures !(c in s.current && s.current[c] == t)
        ensures c in s.idle && s.idle[c] == t ==> b.bind == c
      {
        Bound(s, t, c);
      }
      QueuedUp(With(Dequeued(s, t), t, b), t);
    } else {
      WithValid(s, t, b);
    }
  }

  // CPU c takes up the ready thread `to`; all that is amiss then is its former thread.
  lemma TakenUp(s: Sched, c: Cpu, to: Thread, cur: Thread, r: Tcb)
    requires Valid(s) && c < CPUS && c in s.current && cur == s.current[c] && cur in s.tcb
    requires to in s.tcb && s.tcb[to].stat == Ready && s.tcb[to].bind == c
    ensures
      var u := With(Dequeued(s, to).(current := s.current[c := to]), to, s.tcb[to].(stat := Running));
      && cur != to
      && ValidWithout(With(u, cur, r), cur)
      && (forall d :: d in u.current ==> u.current[d] != cur)
  {
    Bound(s, to, c);
    Bound(s, cur, c);
    assert ThreadOk(s, to);
    var b := s.tcb[to].(stat := Running);
    var u := With(Dequeued(s, to).(current := s.current[c := to]), to, b);
    var n := With(u, cur, r);
    var q := With(Dequeued(s, to), to, b);
    TakenOut(s, to, b);
    forall d | d in u.current ensures u.current[d] != cur { if d < CPUS { Bound(s, cur, d); } }
    forall d, p ensures QueueOk(n, d, p) && cur !in Queue(n, d, p) {
      assert QueueOk(q, d, p) && to !in Queue(q, d, p) && Queue(n, d, p) == Queue(q, d, p);
      assert !Entry(q, d, p, cur);
      forall y | y in Queue(n, d, p) ensures Entry(n, d, p, y) { assert Entry(q, d, p, y); }
    }
    forall y | y != cur ensures ThreadOk(n, y) {
      assert ThreadOk(s, y);
      if y != to {
        assert ThreadOk(q, y);
        if y in s.tcb { assert Queue(n, s.tcb[y].bind, s.tcb[y].prio) == Queue(q, s.tcb[y].bind, s.tcb[y].prio); }
      }
    }
    forall d ensures CpuOk(n, d) || (d in n.current && n.current[d] == cur) { assert CpuOk(s, d); }
    forall d ensures IdleOk(n, d) || (d in n.idle && n.idle[d] == cur) { assert IdleOk(s, d); }
  }

  lemma SwitchedValid(s: Sched, c: Cpu, to: Thread)
    requires Valid(s) && c < CPUS && c in s.current && s.current[c] in s.tcb
    requires to in s.tcb && s.tcb[to].stat == Ready && s.tcb[to].bind == c
    ensures Valid(Switched(s, c, to))
  {
    var cur := s.current[c];
    var b := s.tcb[cur];
    var u := With(Dequeued(s, to).(current := s.current[c := to]), to, s.tcb[to].(stat := Running));
    var r := if b.stat == Running then b.(yielding := false) else b;
    Bound(s, cur, c);
    assert ThreadOk(s, cur);
    TakenUp(s, c, to, cur, r);
    forall d | d in s.idle && s.idle[d] == cur ensures b.bind == d && b.stat == Running { Bound(s, cur, d); }
    if b.stat == Running {
      QueuedUp(With(u, cur, r), cur);
    } else {
      assert With(u, cur, r) == u;
      StaysOut(u, cur);
    }
  }

  lemma BestIsReady(s: Sched, c: Cpu)
    requires Valid(s) && BestLevel(s, c, 0) < LEVELS
    ensures
      var p := BestLevel(s, c, 0);
      Entry(s, c, p, Queue(s, c, p)[0])
  {
    var p := BestLevel(s, c, 0);
    assert QueueOk(s, c, p) && Queue(s, c, p)[0] in Queue(s, c, p);
  }

  lemma ScheduledValid(s: Sched, c: Cpu)
    requires Valid(s) && c < CPUS && c in s.current && s.current[c] in s.tcb
    ensures Valid(Scheduled(s, c))
  {
    var best, cur := BestLevel(s, c, 0), s.current[c];
    assert ThreadOk(s, cur);
    if best < LEVELS {
      if Stays(s.tcb[cur], best) {
        WithValid(s, cur, s.tcb[cur].(yielding := false));
      } else {
        BestIsReady(s, c);
        SwitchedValid(s, c, Queue(s, c, best)[0]);
      }
    }
  }

  lemma AskedValid(s: Sched, c: Cpu)
    requires Valid(s) && c in s.current && s.current[c] in s.tcb
    ensures Valid(AskedToYield(s, c)) && Valid(Ticked(s, c))
  {
    var b := s.tcb[s.current[c]];
    assert ThreadOk(s, s.current[c]);
    WithValid(s, s.current[c], b.(yielding := true, slice := b.initSlice));
    WithValid(s, s.current[c], b.(slice := if b.slice == 0 then TICK_WRAP - 1 else b.slice - 1));
  }

  lemma StaysValid(s: Sched, e: Event)
    requires Valid(s) && CanHappen(s, e)
    ensures Defined(s, e) && Valid(Step(s, e))
  {
    AllDefined(s, e);
    match e
    case Startup(t) => StartedValid(s, t);
    case SuspendThread(t, _) =>
      assert ThreadOk(s, t);
      if s.tcb[t].stat == Ready || s.tcb[t].stat == Running {
        StoppedValid(s, t, s.tcb[t].(stat := Suspend));
      }
    case Resume(t) => if s.tcb[t].stat == Suspend { InsertedValid(s, t); }
    case Timeout(t) => InsertedValid(s, t);
    case ChangePriority(t, p) => ReprioritisedValid(s, t, p);
    case Schedule(c) => ScheduledValid(s, c);
    case Yield(c) => AskedValid(s, c); ScheduledValid(AskedToYield(s, c), c);
    case Tick(c) => AskedValid(s, c);
    case Exit(c) =>
      var cur := s.current[c];
      assert ThreadOk(s, cur);
      Bound(s, cur, c);
      StoppedValid(s, cur, s.tcb[cur].(stat := Close, yielding := false));
  }

  ghost predicate CanRun(s: Sched, es: seq<Event>)
    decreases |es|
  {
    es == [] || (CanHappen(s, es[0]) && Defined(s, es[0]) && CanRun(Step(s, es[0]), es[1..]))
  }

  function Run(s: Sched, es: seq<Event>): Sched
    requires CanRun(s, es)
    decreases |es|
  {
    if es == [] then s else Run(Step(s, es[0]), es[1..])
  }

  lemma {:induction false} AlwaysValid(s: Sched, es: seq<Event>)
    requires Valid(s) && CanRun(s, es)
    ensures Valid(Run(s, es))
    decreases |es|
  {
    if es != [] {
      StaysValid(s, es[0]);
      AlwaysValid(Step(s, es[0]), es[1..]);
    }
  }

  // What that means for one thread.
  lemma OnePlace(s: Sched, t: Thread, c: Cpu, p: nat)
    requires Valid(s) && t in s.tcb
    ensures t in Queue(s, c, p) <==> s.tcb[t].stat == Ready && s.tcb[t].bind == c && s.tcb[t].prio == p
    ensures s.tcb[t].stat == Running ==> IsCurrent(s, t)
    ensures c in s.current && s.current[c] == t && s.tcb[t].stat == Ready ==> false
  {
    assert ThreadOk(s, t) && QueueOk(s, c, p) && CpuOk(s, c);
    if t in Queue(s, c, p) { assert Entry(s, c, p, t); }
  }

  // In every reachable state each thread is in the one place its state says: a ready thread once in
  // the queue of its CPU and current priority, a running one current on its CPU and in no queue,
  // any other in no queue.
  lemma EveryThreadInOnePlace(s: Sched, es: seq<Event>, t: Thread, c: Cpu, p: nat)
    requires Valid(s) && CanRun(s, es) && t in Run(s, es).tcb
    ensures
      var n := Run(s, es);
      && (t in Queue(n, c, p) <==> n.tcb[t].stat == Ready && n.tcb[t].bind == c && n.tcb[t].prio == p)
      && Distinct(Queue(n, c, p))
      && (n.tcb[t].stat == Running ==> IsCurrent(n, t))
      && (n.tcb[t].stat == Ready ==> !(c in n.current && n.current[c] == t))
  {
    AlwaysValid(s, es);
    OnePlace(Run(s, es), t, c, p);
    assert QueueOk(Run(s, es), c, p);
  }

  // ---- what rt_schedule leaves ----

  // The CPU runs a runnable thread at least as urgent as every thread ready on it.
  lemma MostUrgentRuns(s: Sched, c: Cpu)
    requires Valid(s) && c < CPUS
    ensures c in s.current && s.current[c] in s.tcb
    ensures
      var n := Scheduled(s, c);
      && c in n.current && n.current[c] in n.tcb && n.tcb[n.current[c]].stat == Running
      && forall t :: t in n.tcb && n.tcb[t].stat == Ready && n.tcb[t].bind == c ==>
         n.tcb[n.current[c]].prio <= n.tcb[t].prio
  {
    assert CpuOk(s, c) && IdleOk(s, c);
    var n, best := Scheduled(s, c), BestLevel(s, c, 0);
    ScheduledValid(s, c);
    if best == LEVELS {
      var i := s.idle[c];
      assert ThreadOk(s, i);
      forall t | t in n.tcb ensures !(n.tcb[t].stat == Ready && n.tcb[t].bind == c) {
        assert ThreadOk(s, t);
      }
    } else {
      BestIsReady(s, c);
      var to, cur := Queue(s, c, best)[0], s.current[c];
      assert ThreadOk(s, cur);
      forall t | t in n.tcb && n.tcb[t].stat == Ready && n.tcb[t].bind == c
        ensures n.tcb[n.current[c]].prio <= n.tcb[t].prio
      {
        assert ThreadOk(s, t);
        if t in s.tcb && s.tcb[t].stat == Ready {
          assert Queue(s, c, s.tcb[t].prio) != [];
        }
      }
    }
  }

  // ---- wake-ups ----

  ghost predicate Runnable(s: Sched, t: Thread) {
    t in s.tcb && (s.tcb[t].stat == Ready || s.tcb[t].stat == Running)
  }

  // A thread woken after it suspended itself but before its CPU has switched away simply goes on
  // running; woken later, it is queued. Either way the next scheduling on its CPU finds it.
  lemma WakeIsNotLost(s: Sched, t: Thread)
    requires Valid(s) && t in s.tcb && s.tcb[t].stat == Suspend
    ensures
      var n := Step(s, Resume(t));
      var b := n.tcb[t];
      && Valid(n) && n == Step(s, Timeout(t))
      && (if b.bind in s.current && s.current[b.bind] == t then b.stat == Running
          else b.stat == Ready && t in Queue(n, b.bind, b.prio))
  {
    InsertedValid(s, t);
  }

  // And no step but its own suspension or exit takes a runnable thread out of the running.
  lemma StaysRunnable(s: Sched, e: Event, t: Thread)
    requires Valid(s) && CanHappen(s, e) && Runnable(s, t)
    requires !(e.SuspendThread? && e.t == t) && !(e.Exit? && e.c in s.current && s.current[e.c] == t)
    ensures Defined(s, e) && Runnable(Step(s, e), t)
  {
    AllDefined(s, e);
    match e
    case Schedule(c) => ScheduledRunnable(s, c, t);
    case Yield(c) =>
      AskedValid(s, c);
      ScheduledRunnable(AskedToYield(s, c), c, t);
    case _ =>
  }

  lemma ScheduledRunnable(s: Sched, c: Cpu, t: Thread)
    requires Valid(s) && c < CPUS && c in s.current && s.current[c] in s.tcb && Runnable(s, t)
    ensures Runnable(Scheduled(s, c), t)
  {
    if BestLevel(s, c, 0) < LEVELS {
      BestIsReady(s, c);
    }
  }

  // No event of es is t's own suspension or exit.
  ghost predicate LeftAlone(s: Sched, es: seq<Event>, t: Thread)
    requires CanRun(s, es)
    decreases |es|
  {
    es == [] ||
      (var e := es[0];
       && !(e.SuspendThread? && e.t == t) && !(e.Exit? && e.c in s.current && s.current[e.c] == t)
       && LeftAlone(Step(s, e), es[1..], t))
  }

  lemma {:induction false} RunnableThroughout(s: Sched, es: seq<Event>, t: Thread)
    requires Valid(s) && Runnable(s, t) && CanRun(s, es) && LeftAlone(s, es, t)
    ensures Valid(Run(s, es)) && Runnable(Run(s, es), t)
    decreases |es|
  {
    if es != [] {
      StaysRunnable(s, es[0], t);
      StaysValid(s, es[0]);
      RunnableThroughout(Step(s, es[0]), es[1..], t);
    }
  }

  // So on every run a thread that has been resumed or timed out is, until it suspends itself again or
  // exits, running on its CPU or ready in the queue of its priority, and never behind a less urgent one:
  // whenever its CPU has just scheduled, that CPU runs the thread or one at least as urgent.
  lemma WokenIsServed(s: Sched, t: Thread, es: seq<Event>)
    requires Valid(s) && t in s.tcb && s.tcb[t].stat == Suspend
    requires CanRun(Step(s, Resume(t)), es) && LeftAlone(Step(s, Resume(t)), es, t)
    ensures
      var n := Run(Step(s, Resume(t)), es);
      && Valid(n) && t in n.tcb && n.tcb[t].bind < CPUS
      && var b := n.tcb[t];
      && (if b.bind in n.current && n.current[b.bind] == t then b.stat == Running
          else b.stat == Ready && t in Queue(n, b.bind, b.prio))
      && b.bind in n.current && n.current[b.bind] in n.tcb
      && var m := Scheduled(n, b.bind);
      && b.bind in m.current && m.current[b.bind] in m.tcb
      && m.tcb[m.current[b.bind]].stat == Running && m.tcb[m.current[b.bind]].prio <= b.prio
  {
    WakeIsNotLost(s, t);
    var u := Step(s, Resume(t));
    RunnableThroughout(u, es, t);
    var n := Run(u, es);
    var c := n.tcb[t].bind;
    assert ThreadOk(n, t);
    Bound(n, t, c);
    MostUrgentRuns(n, c);
    ScheduledRunnable(n, c, t);
    ScheduledKeepsPrio(n, c, t);
    ScheduledValid(n, c);
    assert ThreadOk(Scheduled(n, c), t);
  }

  lemma ScheduledKeepsPrio(s: Sched, c: Cpu, t: Thread)
    requires Valid(s) && c < CPUS && c in s.current && s.current[c] in s.tcb && t in s.tcb
    ensures
      var n := Scheduled(s, c);
      t in n.tcb && n.tcb[t].prio == s.tcb[t].prio && n.tcb[t].bind == s.tcb[t].bind
  {
  }

  // ---- rotation ----

  function Rotated(xs: seq<Thread>, k: nat): seq<Thread>
    decreases k
  {
    if k == 0 || xs == [] then xs else Rotated(xs[1..] + [xs[0]], k - 1)
  }

  // CPU c runs xs[0], and the others of xs wait in the queue of its priority p; nobody on c is
  // more urgent.
  ghost predicate Sharing(s: Sched, c: Cpu, p: nat, xs: seq<Thread>) {
    && xs != [] && p < LEVELS && c in s.current && s.current[c] == xs[0] && xs[0] in s.tcb
    && s.tcb[xs[0]].stat == Running && s.tcb[xs[0]].prio == p
    && Queue(s, c, p) == xs[1..] && (forall q :: 0 <= q < p ==> Queue(s, c, q) == [])
  }

  lemma BestOf(s: Sched, c: Cpu, p: nat, b: nat)
    requires p <= b < LEVELS && Queue(s, c, b) != [] && forall q :: p <= q < b ==> Queue(s, c, q) == []
    ensures BestLevel(s, c, p) == b
  {
  }

  // What switching away from a running thread does to the queues of its CPU.
  lemma SwitchedQueues(s: Sched, c: Cpu, to: Thread)
    requires Valid(s) && c < CPUS && c in s.current && s.current[c] in s.tcb && s.tcb[s.current[c]].stat == Running
    requires to in s.tcb && s.tcb[to].stat == Ready && s.tcb[to].bind == c
    ensures
      var n, cur := Switched(s, c, to), s.current[c];
      forall q :: Queue(n, c, q) == Removed(Queue(s, c, q), to) + if q == s.tcb[cur].prio then [cur] else []
  {
    var n, cur := Switched(s, c, to), s.current[c];
    Bound(s, cur, c);
    var d := Dequeued(s, to);
    DequeuedQueues(s, to, d);
    forall q ensures Queue(n, c, q) == Removed(Queue(s, c, q), to) + if q == s.tcb[cur].prio then [cur] else [] {
      assert Queue(d, c, q) == Removed(Queue(s, c, q), to);
    }
  }

  // One yield moves the running thread behind those it shares its priority with.
  lemma YieldRotates(s: Sched, c: Cpu, p: nat, xs: seq<Thread>)
    requires Valid(s) && c < CPUS && Sharing(s, c, p, xs)
    ensures Defined(s, Yield(c)) && Valid(Step(s, Yield(c)))
    ensures Sharing(Step(s, Yield(c)), c, p, xs[1..] + [xs[0]])
  {
    StaysValid(s, Yield(c));
    if |xs| == 1 {
      assert xs[1..] + [xs[0]] == xs;
      YieldAlone(s, c, p, xs);
    } else {
      YieldShared(s, c, p, xs);
    }
  }

  lemma YieldShared(s: Sched, c: Cpu, p: nat, xs: seq<Thread>)
    requires Valid(s) && c < CPUS && Sharing(s, c, p, xs) && |xs| > 1
    ensures Sharing(Step(s, Yield(c)), c, p, xs[1..] + [xs[0]])
  {
    var cur, to, u := xs[0], xs[1], AskedToYield(s, c);
    assert QueueOk(s, c, p) && to in Queue(s, c, p) && Entry(s, c, p, to);
    AskedValid(s, c);
    forall q ensures Queue(u, c, q) == Queue(s, c, q) {}
    BestOf(u, c, 0, p);
    var n := Switched(u, c, to);
    assert Step(s, Yield(c)) == n;
    SwitchedQueues(u, c, to);
    forall q | 0 <= q < p ensures Queue(n, c, q) == [] {
      assert Queue(s, c, q) == [];
    }
    var rest := xs[1..];
    AbsentRemoved(rest[1..], to);
    assert Queue(n, c, p) == rest[1..] + [cur];
    assert (rest + [cur])[0] == to && (rest + [cur])[1..] == rest[1..] + [cur];
  }

  // With nobody of its priority to give way to, the thread stays.
  lemma YieldAlone(s: Sched, c: Cpu, p: nat, xs: seq<Thread>)
    requires Valid(s) && c < CPUS && Sharing(s, c, p, xs) && |xs| == 1
    ensures Sharing(Step(s, Yield(c)), c, p, xs)
  {
    var u := AskedToYield(s, c);
    forall q ensures Queue(u, c, q) == Queue(s, c, q) {}
    var best := BestLevel(u, c, 0);
    assert best > p;
    var n := Step(s, Yield(c));
    assert n == u || n == With(u, xs[0], u.tcb[xs[0]].(yielding := false));
    forall q ensures Queue(n, c, q) == Queue(s, c, q) {}
  }

  function YieldTimes(s: Sched, c: Cpu, k: nat): Sched
    requires c in s.current && s.current[c] in s.tcb
    requires k > 0 ==> Valid(s) && c < CPUS
    decreases k
  {
    if k == 0 then s
    else
      var n := Step(s, Yield(c));
      StaysValid(s, Yield(c));
      assert CpuOk(n, c);
      YieldTimes(n, c, k - 1)
  }

  // Threads of equal priority take turns in first-in first-out order: k yields rotate them k places.
  lemma {:induction false} YieldsRotate(s: Sched, c: Cpu, p: nat, xs: seq<Thread>, k: nat)
    requires Valid(s) && c < CPUS && Sharing(s, c, p, xs)
    ensures Sharing(YieldTimes(s, c, k), c, p, Rotated(xs, k))
    decreases k
  {
    if k > 0 {
      YieldRotates(s, c, p, xs);
      assert xs[1..] + [xs[0]] != [];
      YieldsRotate(Step(s, Yield(c)), c, p, xs[1..] + [xs[0]], k - 1);
    }
  }

  lemma {:induction false} RotatedTo(xs: seq<Thread>, k: nat)
    requires k <= |xs|
    ensures Rotated(xs, k) == xs[k..] + xs[..k]
    decreases k
  {
    if k > 0 {
      var ys := xs[1..] + [xs[0]];
      RotatedTo(ys, k - 1);
      assert ys[k - 1..] + ys[..k - 1] == xs[k..] + xs[..k];
    }
  }

  // After one turn each, the first is on again.
  lemma FullTurn(s: Sched, c: Cpu, p: nat, xs: seq<Thread>)
    requires Valid(s) && c < CPUS && Sharing(s, c, p, xs)
    ensures Sharing(YieldTimes(s, c, |xs|), c, p, xs)
  {
    YieldsRotate(s, c, p, xs, |xs|);
    RotatedTo(xs, |xs|);
    assert xs[|xs|..] + xs[..|xs|] == xs;
  }

  // ---- time slices ----

  // A tick of rt_tick_increase and the scheduling at the end of its interrupt.
  function Tock(s: Sched, c: Cpu): Sched {
    if c in s.current && s.current[c] in s.tcb then Scheduled(Ticked(s, c), c) else s
  }

  function TickTimes(s: Sched, c: Cpu, k: nat): Sched
    decreases k
  {
    if k == 0 then s else TickTimes(Tock(s, c), c, k - 1)
  }

  // Within its slice the running thread stays.
  lemma TickStays(s: Sched, c: Cpu, p: nat, xs: seq<Thread>)
    requires Valid(s) && c < CPUS && Sharing(s, c, p, xs) && !s.tcb[xs[0]].yielding && s.tcb[xs[0]].slice > 1
    ensures
      var n := Scheduled(Ticked(s, c), c);
      Valid(n) && Sharing(n, c, p, xs) && n.tcb[xs[0]] == s.tcb[xs[0]].(slice := s.tcb[xs[0]].slice - 1)
  {
    var u := Ticked(s, c);
    AskedValid(s, c);
    ScheduledValid(u, c);
    forall q ensures Queue(u, c, q) == Queue(s, c, q) {}
    var best := BestLevel(u, c, 0);
    assert best >= p;
    var n := Scheduled(u, c);
    assert n.tcb[xs[0]] == u.tcb[xs[0]];
    forall q ensures Queue(n, c, q) == Queue(s, c, q) {}
  }

  // A thread that shares its priority runs for exactly as many ticks as its slice has left, and
  // then is behind the others.
  lemma {:induction false} SliceRotates(s: Sched, c: Cpu, p: nat, xs: seq<Thread>, k: nat)
    requires Valid(s) && c < CPUS && Sharing(s, c, p, xs) && !s.tcb[xs[0]].yielding
    requires 0 < s.tcb[xs[0]].slice && k <= s.tcb[xs[0]].slice
    ensures Sharing(TickTimes(s, c, k), c, p, if k < s.tcb[xs[0]].slice then xs else xs[1..] + [xs[0]])
    decreases k
  {
    if k > 0 {
      var n := Scheduled(Ticked(s, c), c);
      if s.tcb[xs[0]].slice == 1 {
        assert n == Step(s, Yield(c));
        YieldRotates(s, c, p, xs);
        assert TickTimes(s, c, 1) == TickTimes(n, c, 0) == n;
      } else {
        TickStays(s, c, p, xs);
        SliceRotates(n, c, p, xs, k - 1);
      }
    }
  }

  // ---- the start ----

  // Every CPU runs its idle thread; no other thread has been started.
  ghost predicate JustIdle(tcb: map<Thread, Tcb>, idle: map<Cpu, Thread>) {
    && (forall c :: c in idle <==> c < CPUS)
    && (forall c :: c in idle ==> idle[c] in tcb && tcb[idle[c]].bind == c && tcb[idle[c]].stat == Running)
    && (forall t :: t in tcb ==> InRange(tcb[t]))
    && (forall t :: t in tcb ==> tcb[t].stat == Init || (tcb[t].bind in idle && idle[tcb[t].bind] == t))
  }

  lemma StartValid(tcb: map<Thread, Tcb>, idle: map<Cpu, Thread>)
    requires JustIdle(tcb, idle)
    ensures Valid(Sched(map[], idle, tcb, idle))
  {
    var s := Sched(map[], idle, tcb, idle);
    forall c, p ensures QueueOk(s, c, p) {}
    forall t ensures ThreadOk(s, t) {}
    forall c ensures CpuOk(s, c) {}
    forall c ensures IdleOk(s, c) {}
  }
}
