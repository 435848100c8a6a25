// The lock counters of a thread: rt_cpus_lock and rt_cpus_unlock (rt-thread/src/cpu.c), which are
// rt_hw_interrupt_disable and rt_hw_interrupt_enable, and rt_enter_critical and rt_exit_critical
// (rt-thread/src/scheduler.c).
module LockNest {
  // cpus_lock_nest, scheduler_lock_nest and critical_lock_nest
  datatype Counters = Counters(cpus: int, scheduler: int, critical: int)

  datatype Op = Lock | Unlock | Enter | Exit

  // What the counters count: locks and critical sections the thread has open.
  datatype Open = Open(locks: nat, sections: nat)

  function CountersOf(o: Open): Counters {
    if o.locks == 0 && o.sections == 0 then Counters(0, 0, 0)
    else Counters(o.locks + o.sections, o.sections + 1, o.sections)
  }

  // Only what is open is closed.
  predicate CanDo(o: Open, op: Op) {
    match op
    case Unlock => o.locks > 0
    case Exit => o.sections > 0
    case _ => true
  }

  function After(o: Open, op: Op): Open
    requires CanDo(o, op)
  {
    match op
    case Lock => Open(o.locks + 1, o.sections)
    case Unlock => Open(o.locks - 1, o.sections)
    case Enter => Open(o.locks, o.sections + 1)
    case Exit => Open(o.locks, o.sections - 1)
  }

  predicate CanRun(o: Open, ops: seq<Op>)
    decreases |ops|
  {
    ops == [] || (CanDo(o, ops[0]) && CanRun(After(o, ops[0]), ops[1..]))
  }

  function AllAfter(o: Open, ops: seq<Op>): Open
    requires CanRun(o, ops)
    decreases |ops|
  {
    if ops == [] then o else AllAfter(After(o, ops[0]), ops[1..])
  }

  // ---- the counters, as the code counts ----

  function Do(c: Counters, op: Op): Counters {
    match op
    case Lock => Counters(c.cpus + 1, if c.cpus == 0 then c.scheduler + 1 else c.scheduler, c.critical)
    case Unlock => Counters(c.cpus - 1, if c.cpus == 1 then c.scheduler - 1 else c.scheduler, c.critical)
    case Enter => Counters(c.cpus + 1, if c.cpus == 0 then c.scheduler + 2 else c.scheduler + 1, c.critical + 1)
    case Exit => Counters(c.cpus - 1, if c.cpus == 1 then c.scheduler - 2 else c.scheduler - 1, c.critical - 1)
  }

  function DoAll(c: Counters, ops: seq<Op>): Counters
    decreases |ops|
  {
    if ops == [] then c else DoAll(Do(c, ops[0]), ops[1..])
  }

  lemma DoCounts(o: Open, op: Op)
    requires CanDo(o, op)
    ensures Do(CountersOf(o), op) == CountersOf(After(o, op))
  {
  }

  // On every run the scheduler count is the number of critical sections open, and one more while
  // anything is locked: and so no counter ever falls below zero.
  lemma {:induction false} CountersCount(o: Open, ops: seq<Op>)
    requires CanRun(o, ops)
    ensures DoAll(CountersOf(o), ops) == CountersOf(AllAfter(o, ops))
    decreases |ops|
  {
    if ops != [] {
      DoCounts(o, ops[0]);
      CountersCount(After(o, ops[0]), ops[1..]);
    }
  }

  // The test rt_schedule makes once it has disabled interrupts.
  predicate MaySwitch(c: Counters) {
    Do(c, Lock).scheduler == 1
  }

  // So a context switch happens after any run of locks and sections exactly when no critical section
  // is open, however many locks are.
  lemma SwitchOnlyOutside(ops: seq<Op>)
    requires CanRun(Open(0, 0), ops)
    ensures MaySwitch(DoAll(Counters(0, 0, 0), ops)) <==> AllAfter(Open(0, 0), ops).sections == 0
  {
    CountersCount(Open(0, 0), ops);
  }

  // rt_exit_critical calls rt_schedule exactly when it has closed everything that was open.
  lemma ExitSchedules(ops: seq<Op>)
    requires CanRun(Open(0, 0), ops) && CanDo(AllAfter(Open(0, 0), ops), Exit)
    ensures
      Do(DoAll(Counters(0, 0, 0), ops), Exit).scheduler <= 0 <==> AllAfter(Open(0, 0), ops) == Open(0, 1)
  {
    CountersCount(Open(0, 0), ops);
  }

  // The counters an interrupted thread is left with by a switch in rt_scheduler_do_irq_switch.
  function IrqSwitched(c: Counters): Counters {
    var locked := Do(c, Lock);
    Counters(locked.cpus - 1, locked.scheduler - 1, locked.critical)
  }

  // A thread that can be interrupted has at most critical sections open, for every lock disables
  // interrupts. If the interrupt switches away from it, it finds its counters as they were.
  lemma IrqSwitchRestores(ops: seq<Op>)
    requires CanRun(Open(0, 0), ops) && AllAfter(Open(0, 0), ops).locks == 0
    ensures
      var c := DoAll(Counters(0, 0, 0), ops);
      MaySwitch(c) ==> IrqSwitched(c) == c
  {
    CountersCount(Open(0, 0), ops);
  }

  // ---- in place ----

  // The interrupt side of struct rt_cpu.
  class CpuIrq {
    var irqNest: nat
    var irqSwitchFlag: bool

    constructor ()
      ensures irqNest == 0 && !irqSwitchFlag
    {
      irqNest, irqSwitchFlag := 0, false;
    }
  }

  class ThreadLocks {
    var cpusLockNest: nat
    var schedulerLockNest: nat
    var criticalLockNest: nat

    // The counters of a thread with so many locks and critical sections open.
    ghost predicate Counts(locks: nat, sections: nat)
      reads this
    {
      Counters(cpusLockNest, schedulerLockNest, criticalLockNest) == CountersOf(Open(locks, sections))
    }

    constructor ()
      ensures Counts(0, 0)
    {
      cpusLockNest, schedulerLockNest, criticalLockNest := 0, 0, 0;
    }

    // rt_cpus_lock
    method CpusLock(ghost locks: nat, ghost sections: nat)
      requires Counts(locks, sections)
      modifies this
      ensures Counts(locks + 1, sections)
    {
      var nest := cpusLockNest;
      cpusLockNest := cpusLockNest + 1;
      if nest == 0 {
        schedulerLockNest := schedulerLockNest + 1;
      }
    }

    // rt_cpus_unlock
    method CpusUnlock(ghost locks: nat, ghost sections: nat)
      requires Counts(locks, sections) && locks > 0
      modifies this
      ensures Counts(locks - 1, sections)
    {
      cpusLockNest := cpusLockNest - 1;
      if cpusLockNest == 0 {
        schedulerLockNest := schedulerLockNest - 1;
      }
    }

    // rt_enter_critical
    method EnterCritical(ghost locks: nat, ghost sections: nat)
      requires Counts(locks, sections)
      modifies this
      ensures Counts(locks, sections + 1)
    {
      var nest := cpusLockNest;
      cpusLockNest := cpusLockNest + 1;
      if nest == 0 {
        schedulerLockNest := schedulerLockNest + 1;
      }
      criticalLockNest := criticalLockNest + 1;
      schedulerLockNest := schedulerLockNest + 1;
    }

    // rt_exit_critical; true when it calls rt_schedule.
    method ExitCritical(ghost locks: nat, ghost sections: nat) returns (schedule: bool)
      requires Counts(locks, sections) && sections > 0
      modifies this
      ensures Counts(locks, sections - 1)
      ensures schedule <==> locks == 0 && sections == 1
    {
      schedulerLockNest := schedulerLockNest - 1;
      criticalLockNest := criticalLockNest - 1;
      cpusLockNest := cpusLockNest - 1;
      if cpusLockNest == 0 {
        schedulerLockNest := schedulerLockNest - 1;
      }
      schedule := schedulerLockNest <= 0;
      if schedule {
        schedulerLockNest := 0;
      }
    }

    // rt_schedule: whether it gets as far as picking a thread. In an interrupt it leaves a request
    // instead. The lock it takes is released by the time the thread runs on.
    method Schedule(cpu: CpuIrq, ghost locks: nat, ghost sections: nat) returns (may: bool)
      requires Counts(locks, sections)
      modifies this, cpu`irqSwitchFlag
      ensures Counts(locks, sections)
      ensures may <==> sections == 0 && cpu.irqNest == 0
      ensures cpu.irqSwitchFlag <==> old(cpu.irqSwitchFlag) || cpu.irqNest > 0
    {
      CpusLock(locks, sections);
      if cpu.irqNest > 0 {
        cpu.irqSwitchFlag := true;
        may := false;
      } else {
        may := schedulerLockNest == 1;
      }
      CpusUnlock(locks + 1, sections);
    }

    // rt_scheduler_do_irq_switch on a thread interrupted with no lock held: whether it gets as far as
    // picking a thread, which `other` says is another one. A switch leaves by the interrupt's own exit,
    // so the counters are set back before it. A request that cannot be served stays.
    method DoIrqSwitch(cpu: CpuIrq, other: bool, ghost sections: nat) returns (may: bool)
      requires Counts(0, sections)
      modifies this, cpu`irqSwitchFlag
      ensures Counts(0, sections)
      ensures may <==> old(cpu.irqSwitchFlag) && sections == 0 && cpu.irqNest == 0
      ensures cpu.irqSwitchFlag <==> old(cpu.irqSwitchFlag) && !may
    {
      CpusLock(0, sections);
      may := cpu.irqSwitchFlag && schedulerLockNest == 1 && cpu.irqNest == 0;
      if may {
        cpu.irqSwitchFlag := false;
      }
      if may && other {
        cpusLockNest := cpusLockNest - 1;
        schedulerLockNest := schedulerLockNest - 1;
      } else {
        CpusUnlock(1, sections);
      }
    }
  }
}
