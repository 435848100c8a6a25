// The scheduler of rt-thread/src/scheduler.c as it is kept: ready queues with a bit group per CPU,
// searched by __rt_ffs, and the fields of each thread.
module Scheduler {
  import opened OrderedQueue
  import opened Bits
  import opened SchedulerRuns

  const DETACHED: nat := CPUS                    // RT_CPU_DETACHED

  // Bit p of CPU c's group is set exactly when queue p of c has a thread.
  ghost predicate GroupBit(s: Sched, group: map<Cpu, nat>, c: Cpu, p: nat) {
    c in group && p < LEVELS ==> (Bit(group[c], p) <==> Queue(s, c, p) != [])
  }

  ghost predicate GroupsOk(s: Sched, group: map<Cpu, nat>) {
    && (forall c :: c in group <==> c < CPUS)
    && (forall c :: c in group ==> group[c] < WORD)
    && (forall c, p :: GroupBit(s, group, c, p))
  }

  // oncpu names the CPU a thread is current on, if any.
  ghost predicate OnCpu(s: Sched, oncpu: map<Thread, nat>, t: Thread) {
    t in s.tcb ==>
      && t in oncpu && oncpu[t] <= DETACHED
      && forall c :: c in s.current && s.current[c] == t <==> c < CPUS && oncpu[t] == c
  }

  ghost predicate OnCpusOk(s: Sched, oncpu: map<Thread, nat>) {
    forall t :: OnCpu(s, oncpu, t)
  }

  lemma WordIs32()
    ensures Pow2(32) == WORD
  {
    Pow2Of8();
    assert Pow2(9) == 512 && Pow2(10) == 1024 && Pow2(11) == 2048 && Pow2(12) == 4096;
    assert Pow2(13) == 8192 && Pow2(14) == 16384 && Pow2(15) == 32768 && Pow2(16) == 65536;
    assert Pow2(17) == 2 * 65536 && Pow2(18) == 4 * 65536 && Pow2(19) == 8 * 65536 && Pow2(20) == 16 * 65536;
    assert Pow2(21) == 32 * 65536 && Pow2(22) == 64 * 65536 && Pow2(23) == 128 * 65536 && Pow2(24) == 256 * 65536;
    assert Pow2(25) == 512 * 65536 && Pow2(26) == 1024 * 65536 && Pow2(27) == 2048 * 65536 && Pow2(28) == 4096 * 65536;
    assert Pow2(29) == 8192 * 65536 && Pow2(30) == 16384 * 65536 && Pow2(31) == 32768 * 65536;
  }

  // The index finds what a search of all queues would: the pick of rt_schedule rests on __rt_ffs.
  lemma FfsFindsBest(s: Sched, group: map<Cpu, nat>, c: Cpu)
    requires GroupsOk(s, group) && c < CPUS
    ensures group[c] == 0 <==> BestLevel(s, c, 0) == LEVELS
    ensures group[c] != 0 ==> BestLevel(s, c, 0) == Ffs(group[c]) - 1
  {
    var b := BestLevel(s, c, 0);
    FfsIsLeast(group[c]);
    if group[c] == 0 {
      if b < LEVELS {
        assert GroupBit(s, group, c, b);
        ZeroHasNoBit(b);
      }
    } else {
      var k := Ffs(group[c]) - 1;
      assert GroupBit(s, group, c, k) && GroupBit(s, group, c, b);
      assert k >= b;
      assert !(b < k);
    }
  }

  // The queue of one slot changes, and its bit with it.
  lemma GroupStays(s: Sched, n: Sched, group: map<Cpu, nat>, c: Cpu, p: nat, v: nat)
    requires GroupsOk(s, group) && c < CPUS && p < LEVELS
    requires forall d, q :: Slot(d, q) != Slot(c, p) ==> Queue(n, d, q) == Queue(s, d, q)
    requires v == (if Queue(n, c, p) != [] then WithBit(group[c], p) else WithoutBit(group[c], p))
    ensures GroupsOk(n, group[c := v])
  {
    WordIs32();
    StaysBelow(group[c], p, 32);
    var after := group[c := v];
    forall d, q ensures GroupBit(n, after, d, q) {
      assert GroupBit(s, group, d, q);
      WithBitSets(group[c], p, q);
      WithoutBitClears(group[c], p, q);
    }
  }

  lemma GroupSame(s: Sched, n: Sched, group: map<Cpu, nat>)
    requires GroupsOk(s, group) && n.queues == s.queues
    ensures GroupsOk(n, group)
  {
    forall d, q ensures GroupBit(n, group, d, q) { assert GroupBit(s, group, d, q); }
  }

  lemma NewOnCpu(threads: map<Thread, Tcb>, idlers: map<Cpu, Thread>, t: Thread)
    requires JustIdle(threads, idlers) && t in threads
    ensures forall c :: c in idlers && idlers[c] == t <==> c < CPUS && threads[t].stat != Init && threads[t].bind == c
  {
  }

  lemma GroupKept(s: Sched, n: Sched, group: map<Cpu, nat>, c: Cpu, p: nat)
    requires GroupsOk(s, group)
    requires forall d, q :: Slot(d, q) != Slot(c, p) ==> Queue(n, d, q) == Queue(s, d, q)
    requires Queue(n, c, p) != [] && Queue(s, c, p) != []
    ensures GroupsOk(n, group)
  {
    forall d, q ensures GroupBit(n, group, d, q) { assert GroupBit(s, group, d, q); }
  }

  lemma OnCpusSame(s: Sched, n: Sched, oncpu: map<Thread, nat>)
    requires OnCpusOk(s, oncpu) && n.current == s.current && n.tcb.Keys == s.tcb.Keys
    ensures OnCpusOk(n, oncpu)
  {
    forall t ensures OnCpu(n, oncpu, t) { assert OnCpu(s, oncpu, t); }
  }

  lemma OnCpusSwitched(s: Sched, n: Sched, oncpu: map<Thread, nat>, c: Cpu, cur: Thread, to: Thread)
    requires Valid(s) && OnCpusOk(s, oncpu) && c < CPUS && c in s.current && s.current[c] == cur && to != cur
    requires cur in s.tcb && to in s.tcb && s.tcb[to].stat == Ready
    requires n.current == s.current[c := to] && n.tcb.Keys == s.tcb.Keys
    ensures OnCpusOk(n, oncpu[cur := DETACHED][to := c])
  {
    var after := oncpu[cur := DETACHED][to := c];
    assert OnCpu(s, oncpu, cur) && OnCpu(s, oncpu, to);
    forall d: nat | d < CPUS ensures !(d in s.current && s.current[d] == to) { Bound(s, to, d); }
    forall t ensures OnCpu(n, after, t) { assert OnCpu(s, oncpu, t); }
  }

  // The former thread of CPU c is queued again if it is still runnable.
  function PutBack(s: Sched, c: Cpu): Sched
    requires c in s.current && s.current[c] in s.tcb
  {
    var cur := s.current[c];
    if s.tcb[cur].stat != Running then s
    else
      var a := Enqueued(s, cur);
      With(a, cur, a.tcb[cur].(yielding := false))
  }

  // Putting the former thread back before taking the next one out, as rt_schedule does, comes to
  // the same as doing it afterwards.
  lemma SwitchOrder(s: Sched, c: Cpu, to: Thread)
    requires c in s.current && s.current[c] in s.tcb && to in s.tcb && to != s.current[c]
    ensures
      var d := Dequeued(PutBack(s, c), to);
      Switched(s, c, to) == With(d.(current := d.current[c := to]), to, d.tcb[to].(stat := Running))
  {
    var cur := s.current[c];
    if s.tcb[cur].stat == Running {
      RequeueOrder(s, c, to);
    }
  }

  lemma RequeueOrder(s: Sched, c: Cpu, to: Thread)
    requires c in s.current && s.current[c] in s.tcb && to in s.tcb && to != s.current[c]
    requires s.tcb[s.current[c]].stat == Running
    ensures
      var d := Dequeued(PutBack(s, c), to);
      Switched(s, c, to) == With(d.(current := d.current[c := to]), to, d.tcb[to].(stat := Running))
  {
    var cur := s.current[c];
    var b, bt := s.tcb[cur], s.tcb[to];
    var q := Queue(s, b.bind, b.prio);
    RemovedAppend(q, cur, to);
    var x, y := Slot(bt.bind, bt.prio), Slot(b.bind, b.prio);
    if x == y {
      assert s.queues[x := Removed(q, to)][x := Removed(q, to) + [cur]]
        == s.queues[x := q + [cur]][x := Removed(q + [cur], to)];
    } else {
      var r := Removed(Queue(s, bt.bind, bt.prio), to);
      assert s.queues[x := r][y := q + [cur]] == s.queues[y := q + [cur]][x := r];
    }
    TcbOrder(s.tcb, cur, to);
  }

  lemma TcbOrder(tcb: map<Thread, Tcb>, cur: Thread, to: Thread)
    requires cur in tcb && to in tcb && cur != to
    ensures
      var b, bt := tcb[cur], tcb[to];
      tcb[to := bt.(stat := Running)][cur := b.(yielding := false)][cur := b.(yielding := false, stat := Ready)]
        == tcb[cur := b.(stat := Ready)][cur := b.(stat := Ready, yielding := false)][to := bt.(stat := Running)]
  {
  }

  lemma DetachedIff(s: Sched, oncpu: map<Thread, nat>, t: Thread)
    requires Valid(s) && OnCpusOk(s, oncpu) && t in s.tcb
    ensures t in oncpu && var b := s.tcb[t]; oncpu[t] == DETACHED <==> !(b.bind in s.current && s.current[b.bind] == t)
  {
    assert OnCpu(s, oncpu, t) && ThreadOk(s, t);
    var c := oncpu[t];
    if c < CPUS { Bound(s, t, c); }
  }

  class SchedulerSystem {
    var queues: map<Slot, seq<Thread>>           // priority_table
    var group: map<Cpu, nat>                     // priority_group
    var current: map<Cpu, Thread>                // current_thread
    var tcb: map<Thread, Tcb>
    var oncpu: map<Thread, nat>
    const idle: map<Cpu, Thread>

    ghost function Abs(): Sched
      reads this
    {
      Sched(queues, current, tcb, idle)
    }

    ghost predicate Consistent()
      reads this
    {
      Valid(Abs()) && GroupsOk(Abs(), group) && OnCpusOk(Abs(), oncpu)
    }

    constructor (threads: map<Thread, Tcb>, idlers: map<Cpu, Thread>)
      requires JustIdle(threads, idlers)
      ensures Consistent() && Abs() == Sched(map[], idlers, threads, idlers)
    {
      queues, current, tcb, idle := map[], idlers, threads, idlers;
      group := map c | c in idlers :: 0;
      oncpu := map t | t in threads :: if threads[t].stat == Init then DETACHED else threads[t].bind;
      new;
      StartValid(threads, idlers);
      assert group.Keys == idlers.Keys;
      forall c: nat ensures c in group <==> c < CPUS { assert c in idlers <==> c < CPUS; }
      forall c, p ensures GroupBit(Abs(), group, c, p) { ZeroHasNoBit(p); }
      forall t ensures OnCpu(Abs(), oncpu, t) { if t in threads { NewOnCpu(threads, idlers, t); } }
    }

    // rt_schedule_insert_thread
    method InsertThread(t: Thread)
      requires GroupsOk(Abs(), group) && t in tcb && t in oncpu && InRange(tcb[t])
      modifies this`queues, this`group, this`tcb
      ensures GroupsOk(Abs(), group)
      ensures Abs() ==
        if oncpu[t] != DETACHED then With(old(Abs()), t, old(tcb)[t].(stat := Running)) else Enqueued(old(Abs()), t)
    {
      ghost var s := Abs();
      var b := tcb[t];
      if oncpu[t] != DETACHED {
        tcb := tcb[t := b.(stat := Running)];
        GroupSame(s, Abs(), group);
        return;
      }
      tcb := tcb[t := b.(stat := Ready)];
      var slot := Slot(b.bind, b.prio);
      var queue := if slot in queues then queues[slot] else [];
      GroupStays(s, Enqueued(s, t), group, b.bind, b.prio, WithBit(group[b.bind], b.prio));
      group := group[b.bind := WithBit(group[b.bind], b.prio)];
      queues := queues[slot := queue + [t]];
    }

    // rt_schedule_remove_thread
    method RemoveThread(t: Thread)
      requires GroupsOk(Abs(), group) && t in tcb && InRange(tcb[t])
      modifies this`queues, this`group
      ensures GroupsOk(Abs(), group) && Abs() == Dequeued(old(Abs()), t)
    {
      ghost var s := Abs();
      var b := tcb[t];
      var slot := Slot(b.bind, b.prio);
      var queue := Removed(if slot in queues then queues[slot] else [], t);
      queues := queues[slot := queue];
      if queue == [] {
        GroupStays(s, Abs(), group, b.bind, b.prio, WithoutBit(group[b.bind], b.prio));
        group := group[b.bind := WithoutBit(group[b.bind], b.prio)];
      } else {
        GroupKept(s, Abs(), group, b.bind, b.prio);
      }
    }

    // _scheduler_get_highest_priority_thread
    method HighestPriorityThread(c: Cpu) returns (t: Thread, highest: nat)
      requires GroupsOk(Abs(), group) && c < CPUS && group[c] != 0
      ensures highest == BestLevel(Abs(), c, 0) < LEVELS && t == Queue(Abs(), c, highest)[0]
    {
      FfsFindsBest(Abs(), group, c);
      FfsIsLeast(group[c]);
      highest := Ffs(group[c]) - 1;
      t := queues[Slot(c, highest)][0];
    }

    // rt_schedule, and rt_scheduler_do_irq_switch, from the test of priority_group on
    method Schedule(c: Cpu)
      requires Consistent() && c < CPUS
      modifies this
      ensures Defined(old(Abs()), Event.Schedule(c)) && Consistent() && Abs() == Step(old(Abs()), Event.Schedule(c))
    {
      ghost var s := Abs();
      AllDefined(s, Event.Schedule(c));
      ScheduledValid(s, c);
      FfsFindsBest(s, group, c);
      if group[c] != 0 {
        var to, highest := HighestPriorityThread(c);
        BestIsReady(s, c);
        if tcb[current[c]].stat == Running &&
           (tcb[current[c]].prio < highest || (tcb[current[c]].prio == highest && !tcb[current[c]].yielding)) {
          KeepRunning(c);
        } else {
          SwitchTo(c, to);
        }
      }
    }

    method KeepRunning(c: Cpu)
      requires Consistent() && c < CPUS && c in current && current[c] in tcb && tcb[current[c]].stat == Running
      modifies this`tcb, this`oncpu
      ensures GroupsOk(Abs(), group) && OnCpusOk(Abs(), oncpu)
      ensures Abs() == With(old(Abs()), current[c], old(tcb)[current[c]].(yielding := false))
    {
      ghost var s := Abs();
      var cur := current[c];
      assert OnCpu(s, oncpu, cur);
      oncpu := oncpu[cur := DETACHED];
      tcb := tcb[cur := tcb[cur].(yielding := false)];
      oncpu := oncpu[cur := c];
      assert oncpu == old(oncpu);
      GroupSame(s, Abs(), group);
      OnCpusSame(s, Abs(), oncpu);
    }

    method Requeue(c: Cpu)
      requires GroupsOk(Abs(), group) && c in current && current[c] in tcb && InRange(tcb[current[c]])
      requires current[c] in oncpu && oncpu[current[c]] == DETACHED
      modifies this`queues, this`group, this`tcb
      ensures GroupsOk(Abs(), group) && Abs() == PutBack(old(Abs()), c)
    {
      var cur := current[c];
      if tcb[cur].stat == Running {
        InsertThread(cur);
        ghost var a := Abs();
        tcb := tcb[cur := tcb[cur].(yielding := false)];
        GroupSame(a, Abs(), group);
      }
    }

    method TakeUp(c: Cpu, to: Thread)
      requires GroupsOk(Abs(), group) && to in tcb && InRange(tcb[to])
      modifies this`queues, this`group, this`tcb, this`current
      ensures GroupsOk(Abs(), group)
      ensures
        var d := Dequeued(old(Abs()), to);
        Abs() == With(d.(current := d.current[c := to]), to, d.tcb[to].(stat := Running))
    {
      RemoveThread(to);
      ghost var d := Abs();
      tcb := tcb[to := tcb[to].(stat := Running)];
      current := current[c := to];
      GroupSame(d, Abs(), group);
    }

    method SwitchTo(c: Cpu, to: Thread)
      requires Consistent() && c < CPUS && c in current && current[c] in tcb
      requires to in tcb && tcb[to].stat == Ready && tcb[to].bind == c
      modifies this
      ensures GroupsOk(Abs(), group) && OnCpusOk(Abs(), oncpu) && Abs() == Switched(old(Abs()), c, to)
    {
      ghost var s := Abs();
      var cur := current[c];
      assert ThreadOk(s, cur) && ThreadOk(s, to) && OnCpu(s, oncpu, cur);
      Bound(s, cur, c);
      oncpu := oncpu[cur := DETACHED];
      SwitchOrder(s, c, to);
      Requeue(c);
      oncpu := oncpu[to := c];
      TakeUp(c, to);
      OnCpusSwitched(s, Abs(), old(oncpu), c, cur, to);
    }

    // rt_thread_startup, up to its call of rt_schedule
    method Startup(t: Thread)
      requires Consistent() && CanHappen(Abs(), Event.Startup(t))
      modifies this
      ensures Consistent() && Abs() == Step(old(Abs()), Event.Startup(t))
    {
      ghost var s := Abs();
      StartedValid(s, t);
      assert ThreadOk(s, t) && OnCpu(s, oncpu, t);
      var b := tcb[t];
      LeavesInit(s, t, b.(prio := b.initPrio, stat := Suspend, yielding := false));
      tcb := tcb[t := b.(prio := b.initPrio, stat := Suspend, yielding := false)];
      GroupSame(s, Abs(), group);
      OnCpusSame(s, Abs(), oncpu);
      MakeRunnable(t);
    }

    // The rest of rt_thread_resume and rt_thread_timeout, off the list it waited on.
    method MakeRunnable(t: Thread)
      requires Consistent() && t in tcb && tcb[t].stat == Suspend
      modifies this`queues, this`group, this`tcb
      ensures Consistent() && Abs() == MadeRunnable(old(Abs()), t)
    {
      ghost var s := Abs();
      InsertedValid(s, t);
      assert ThreadOk(s, t) && OnCpu(s, oncpu, t);
      DetachedIff(s, oncpu, t);
      InsertThread(t);
      OnCpusSame(s, Abs(), oncpu);
    }

    // rt_thread_suspend; false for -RT_ERROR
    method SuspendThread(t: Thread, caller: Cpu) returns (ok: bool)
      requires Consistent() && CanHappen(Abs(), Event.SuspendThread(t, caller))
      modifies this
      ensures Consistent() && Abs() == Step(old(Abs()), Event.SuspendThread(t, caller))
      ensures ok <==> Runnable(old(Abs()), t)
    {
      ghost var s := Abs();
      StaysValid(s, Event.SuspendThread(t, caller));
      var stat := tcb[t].stat;
      if stat != Ready && stat != Running {
        return false;
      }
      Stop(t, Suspend, tcb[t].yielding);
      return true;
    }

    method Stop(t: Thread, stat: Stat, yielding: bool)
      requires Consistent() && t in tcb
      modifies this`queues, this`group, this`tcb
      ensures GroupsOk(Abs(), group) && OnCpusOk(Abs(), oncpu)
      ensures Abs() == With(Dequeued(old(Abs()), t), t, old(tcb)[t].(stat := stat, yielding := yielding))
    {
      ghost var s := Abs();
      assert ThreadOk(s, t);
      RemoveThread(t);
      ghost var d := Abs();
      tcb := tcb[t := tcb[t].(stat := stat, yielding := yielding)];
      GroupSame(d, Abs(), group);
      OnCpusSame(s, Abs(), oncpu);
    }

    // rt_thread_resume; false for -RT_ERROR
    method Resume(t: Thread) returns (ok: bool)
      requires Consistent() && CanHappen(Abs(), Event.Resume(t))
      modifies this
      ensures Consistent() && Abs() == Step(old(Abs()), Event.Resume(t))
      ensures ok <==> old(tcb)[t].stat == Suspend
    {
      if tcb[t].stat != Suspend {
        return false;
      }
      MakeRunnable(t);
      return true;
    }

    // rt_thread_timeout, up to its call of rt_schedule
    method Timeout(t: Thread)
      requires Consistent() && CanHappen(Abs(), Event.Timeout(t))
      modifies this
      ensures Consistent() && Abs() == Step(old(Abs()), Event.Timeout(t))
    {
      MakeRunnable(t);
    }

    // rt_thread_control with RT_THREAD_CTRL_CHANGE_PRIORITY
    method ChangePriority(t: Thread, prio: nat)
      requires Consistent() && CanHappen(Abs(), Event.ChangePriority(t, prio))
      modifies this
      ensures Consistent() && Abs() == Step(old(Abs()), Event.ChangePriority(t, prio))
    {
      ghost var s := Abs();
      ReprioritisedValid(s, t, prio);
      assert ThreadOk(s, t) && OnCpu(s, oncpu, t);
      if tcb[t].stat == Ready {
        Bound(s, t, tcb[t].bind);
        DetachedIff(s, oncpu, t);
        RemoveThread(t);
        ghost var d := Abs();
        tcb := tcb[t := tcb[t].(prio := prio)];
        GroupSame(d, Abs(), group);
        InsertThread(t);
      } else {
        tcb := tcb[t := tcb[t].(prio := prio)];
        GroupSame(s, Abs(), group);
      }
      OnCpusSame(s, Abs(), oncpu);
    }

    // rt_thread_yield
    method Yield(c: Cpu)
      requires Consistent() && c < CPUS
      modifies this
      ensures Defined(old(Abs()), Event.Yield(c)) && Consistent() && Abs() == Step(old(Abs()), Event.Yield(c))
    {
      ghost var s := Abs();
      AllDefined(s, Event.Yield(c));
      AskedValid(s, c);
      var cur := current[c];
      tcb := tcb[cur := tcb[cur].(slice := tcb[cur].initSlice, yielding := true)];
      GroupSame(s, Abs(), group);
      OnCpusSame(s, Abs(), oncpu);
      assert Abs() == AskedToYield(s, c);
      Schedule(c);
    }

    // The time slice in rt_tick_increase; true when it calls rt_schedule.
    method TickSlice(c: Cpu) returns (over: bool)
      requires Consistent() && c < CPUS
      modifies this
      ensures Defined(old(Abs()), Event.Tick(c)) && Consistent() && Abs() == Step(old(Abs()), Event.Tick(c))
      ensures over <==> old(tcb)[current[c]].slice == 1
    {
      ghost var s := Abs();
      AllDefined(s, Event.Tick(c));
      AskedValid(s, c);
      var cur := current[c];
      var b := tcb[cur];
      var slice := if b.slice == 0 then TICK_WRAP - 1 else b.slice - 1;
      over := slice == 0;
      tcb := tcb[cur := if over then b.(slice := b.initSlice, yielding := true) else b.(slice := slice)];
      GroupSame(s, Abs(), group);
      OnCpusSame(s, Abs(), oncpu);
    }

    // _thread_exit, up to its call of rt_schedule
    method Exit(c: Cpu)
      requires Consistent() && CanHappen(Abs(), Event.Exit(c))
      modifies this
      ensures Defined(old(Abs()), Event.Exit(c)) && Consistent() && Abs() == Step(old(Abs()), Event.Exit(c))
    {
      ghost var s := Abs();
      StaysValid(s, Event.Exit(c));
      Stop(current[c], Close, false);
    }
  }
}
