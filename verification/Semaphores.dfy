// Semaphores (rt-thread/src/ipc.c): every locked region is one step, and steps of different threads
// interleave in any order.
module Semaphores {
  import opened OrderedQueue
  import opened SuspendLists

  const VALUE_MAX: nat := 0xFFFF                 // RT_SEM_VALUE_MAX

  datatype Sem = Sem(value: nat, flag: Flag, w: Waits)

  datatype Event =
    | Take(t: Thread, time: int, prio: Priorities)   // rt_sem_take up to rt_schedule
    | Release
    | Reset(v: nat)                                  // rt_sem_control
    | Timeout(t: Thread)
    | Resumes(t: Thread)                             // the rest of a rt_sem_take that blocked

  ghost predicate CanHappen(s: Sem, e: Event) {
    match e
    case Take(t, _, _) => t !in s.w.inside
    case Timeout(t) => t in s.w.armed
    case Resumes(t) => t in s.w.inside && t !in s.w.list
    case _ => true
  }

  // What the step does to the suspend list.
  function WaitOps(s: Sem, e: Event): seq<Op> {
    match e
    case Take(t, time, prio) => if s.value == 0 && time != 0 then [Suspend(t, time, prio, s.flag)] else []
    case Release => if s.w.list != [] then [Resume(s.w.list[0])] else []
    case Reset(_) => FailAll(s.w.list)
    case Timeout(t) => [Expire(t)]
    case Resumes(t) => [Return(t)]
  }

  function ValueAfter(s: Sem, e: Event): nat {
    match e
    case Take(_, _, _) => if s.value > 0 then s.value - 1 else 0
    case Release => if s.w.list == [] && s.value < VALUE_MAX then s.value + 1 else s.value
    case Reset(v) => v % 0x1_0000
    case _ => s.value
  }

  function Step(s: Sem, e: Event): Sem {
    s.(value := ValueAfter(s, e), w := ApplyAll(s.w, WaitOps(s, e)))
  }

  function Run(s: Sem, es: seq<Event>): Sem
    decreases |es|
  {
    if es == [] then s else Run(Step(s, es[0]), es[1..])
  }

  ghost predicate CanRun(s: Sem, es: seq<Event>)
    decreases |es|
  {
    es == [] || (CanHappen(s, es[0]) && CanRun(Step(s, es[0]), es[1..]))
  }

  // The count and a waiter are never there at the same time.
  ghost predicate Valid(s: Sem) {
    && WellFormed(s.w) && s.value <= VALUE_MAX
    && (s.value > 0 ==> s.w.list == [])
  }

  lemma OpsEnabled(s: Sem, e: Event)
    requires Valid(s) && CanHappen(s, e)
    ensures AllEnabled(s.w, WaitOps(s, e)) && WellFormed(ApplyAll(s.w, WaitOps(s, e)))
    ensures !e.Reset? ==>
      ApplyAll(s.w, WaitOps(s, e)) == if WaitOps(s, e) == [] then s.w else Apply(s.w, WaitOps(s, e)[0])
  {
    if e.Reset? {
      FailAllEmpties(s.w);
    } else if WaitOps(s, e) != [] {
      var op := WaitOps(s, e)[0];
      assert WaitOps(s, e)[1..] == [];
      StaysWellFormed(s.w, op);
      assert ApplyAll(Apply(s.w, op), []) == Apply(s.w, op);
    }
  }

  lemma StaysValid(s: Sem, e: Event)
    requires Valid(s) && CanHappen(s, e)
    ensures Valid(Step(s, e))
  {
    OpsEnabled(s, e);
    if e.Reset? { FailAllEmpties(s.w); }
  }

  // So on every run, whatever takes, releases, timeouts and resets there are, nobody waits while
  // the count is positive.
  lemma {:induction false} NobodyWaitsInVain(s: Sem, es: seq<Event>)
    requires Valid(s) && CanRun(s, es)
    ensures Valid(Run(s, es)) && (Run(s, es).value == 0 || Run(s, es).w.list == [])
    decreases |es|
  {
    if es != [] {
      StaysValid(s, es[0]);
      NobodyWaitsInVain(Step(s, es[0]), es[1..]);
    }
  }

  // ---- conservation ----

  // Takes that succeed in this step: at once, or a waiter's, to whom a release hands the unit.
  function Taken(s: Sem, e: Event): nat {
    if (e.Take? && s.value > 0) || (e.Release? && s.w.list != []) then 1 else 0
  }

  // Releases that return RT_EOK.
  function Released(s: Sem, e: Event): nat {
    if e.Release? && (s.w.list != [] || s.value < VALUE_MAX) then 1 else 0
  }

  // What a reset adds to the count, or takes away.
  function Adjusted(s: Sem, e: Event): int {
    if e.Reset? then e.v % 0x1_0000 - s.value else 0
  }

  function AllTaken(s: Sem, es: seq<Event>): nat
    decreases |es|
  {
    if es == [] then 0 else Taken(s, es[0]) + AllTaken(Step(s, es[0]), es[1..])
  }

  function AllReleased(s: Sem, es: seq<Event>): nat
    decreases |es|
  {
    if es == [] then 0 else Released(s, es[0]) + AllReleased(Step(s, es[0]), es[1..])
  }

  function AllAdjusted(s: Sem, es: seq<Event>): int
    decreases |es|
  {
    if es == [] then 0 else Adjusted(s, es[0]) + AllAdjusted(Step(s, es[0]), es[1..])
  }

  // On every run no unit is lost or made up: neither by a take that finds none and does not wait,
  // nor by a timeout, nor by a refused release.
  lemma {:induction false} UnitsAreConserved(s: Sem, es: seq<Event>)
    ensures s.value + AllReleased(s, es) + AllAdjusted(s, es) == Run(s, es).value + AllTaken(s, es)
    decreases |es|
  {
    if es != [] {
      UnitsAreConserved(Step(s, es[0]), es[1..]);
    }
  }

  // ---- one end for every take ----

  datatype Result = Took | Blocked | TimedOut | Full | Done

  // What rt_sem_take returns, or Blocked if it comes to wait.
  function TakeResult(s: Sem, time: int): Result {
    if s.value > 0 then Took else if time == 0 then Result.TimedOut else Blocked
  }

  // A take comes to wait exactly if the count is zero and it is willing to wait, for a time or for ever;
  // otherwise the waiters are left alone.
  lemma TakeWaits(s: Sem, t: Thread, time: int, prio: Priorities)
    requires Valid(s) && t !in s.w.inside
    ensures TakeResult(s, time) == Blocked <==> s.value == 0 && time != 0
    ensures
      var n := Step(s, Take(t, time, prio));
      && t !in s.w.list && (t in n.w.list <==> TakeResult(s, time) == Blocked)
      && (if TakeResult(s, time) == Blocked then n.value == 0 && ComesToWait(s.w, n.w, t, time) else n.w == s.w)
  {
    OpsEnabled(s, Take(t, time, prio));
    if TakeResult(s, time) == Blocked {
      SuspendWaits(s.w, t, time, prio, s.flag);
    }
  }

  // Event e is a take by t that is answered Blocked.
  predicate Blocks(s: Sem, e: Event, t: Thread) {
    e.Take? && e.t == t && TakeResult(s, e.time) == Blocked
  }

  // Event e ends a wait of t: a release serves it, its time is over, or the semaphore is reset.
  predicate Ends(s: Sem, e: Event, t: Thread) {
    match e
    case Release => s.w.list != [] && s.w.list[0] == t
    case Timeout(x) => x == t
    case Reset(_) => t in s.w.list
    case _ => false
  }

  function BlockCount(s: Sem, es: seq<Event>, t: Thread): nat
    decreases |es|
  {
    if es == [] then 0 else (if Blocks(s, es[0], t) then 1 else 0) + BlockCount(Step(s, es[0]), es[1..], t)
  }

  function EndCount(s: Sem, es: seq<Event>, t: Thread): nat
    decreases |es|
  {
    if es == [] then 0 else (if Ends(s, es[0], t) then 1 else 0) + EndCount(Step(s, es[0]), es[1..], t)
  }

  lemma WaitingChanges(s: Sem, e: Event, t: Thread)
    requires Valid(s) && CanHappen(s, e)
    ensures Ends(s, e, t) ==> t in s.w.list
    ensures t in Step(s, e).w.list <==> Blocks(s, e, t) || (t in s.w.list && !Ends(s, e, t))
    ensures Blocks(s, e, t) ==> t !in s.w.list
  {
    OpsEnabled(s, e);
    match e
    case Take(x, time, prio) =>
      TakeWaits(s, x, time, prio);
    case Release => if s.w.list != [] { InRemoved(s.w.list, s.w.list[0], t); }
    case Timeout(x) => InRemoved(s.w.list, x, t);
    case Reset(_) => FailAllEmpties(s.w);
    case Resumes(_) =>
  }

  // On every run, of the takes of t answered Blocked each has ended once, but for the one that still waits.
  lemma {:induction false} BlockedTakesEnd(s: Sem, es: seq<Event>, t: Thread)
    requires Valid(s) && CanRun(s, es)
    ensures
      BlockCount(s, es, t) + (if t in s.w.list then 1 else 0)
        == EndCount(s, es, t) + if t in Run(s, es).w.list then 1 else 0
    decreases |es|
  {
    if es != [] {
      WaitingChanges(s, es[0], t);
      StaysValid(s, es[0]);
      BlockedTakesEnd(Step(s, es[0]), es[1..], t);
    }
  }

  function AllOps(s: Sem, es: seq<Event>): seq<Op>
    decreases |es|
  {
    if es == [] then [] else WaitOps(s, es[0]) + AllOps(Step(s, es[0]), es[1..])
  }

  lemma {:induction false} RunsOnOps(s: Sem, es: seq<Event>)
    requires Valid(s) && CanRun(s, es)
    ensures AllEnabled(s.w, AllOps(s, es)) && Run(s, es).w == ApplyAll(s.w, AllOps(s, es))
    decreases |es|
  {
    if es != [] {
      OpsEnabled(s, es[0]);
      StaysValid(s, es[0]);
      RunsOnOps(Step(s, es[0]), es[1..]);
      ApplyConcat(s.w, WaitOps(s, es[0]), AllOps(Step(s, es[0]), es[1..]));
    }
  }

  function Initial(value: nat, flag: Flag): Sem {
    Sem(value, flag, Waits([], {}, map[], {}))
  }

  // However releases, timeouts and resets race, each blocked take of a thread ends in exactly one
  // grant, timeout or reset, and returns what it ended in.
  lemma TakesEndOnce(value: nat, flag: Flag, es: seq<Event>, t: Thread)
    requires value <= VALUE_MAX && CanRun(Initial(value, flag), es)
    ensures
      var s := Initial(value, flag);
      Balanced(Run(s, es).w, t, TalliedAll(s.w, AllOps(s, es), t, Tally(0, 0, 0, 0, 0, 0, 0)))
  {
    var s := Initial(value, flag);
    RunsOnOps(s, es);
    OneEndPerWait(s.w, AllOps(s, es), t, Tally(0, 0, 0, 0, 0, 0, 0));
  }

  // ---- whose turn it is ----

  ghost predicate Steady(es: seq<Event>, prio: Priorities) {
    forall e :: e in es && e.Take? ==> e.prio == prio
  }

  lemma {:induction false} OpsSteady(s: Sem, es: seq<Event>, prio: Priorities)
    requires s.flag == Prio ==> Steady(es, prio)
    ensures forall op :: op in AllOps(s, es) && op.Suspend? ==>
        op.flag == s.flag && (s.flag == Prio ==> op.prio == prio)
    decreases |es|
  {
    if es != [] {
      NoSuspends(s.w.list);
      OpsSteady(Step(s, es[0]), es[1..], prio);
    }
  }

  // A release serves, of all waiters, a most urgent one, and among these the one that has waited
  // longest; where the flag asks for first come, first served, the one that has waited longest of all.
  lemma ServedInTurn(value: nat, flag: Flag, es: seq<Event>, prio: Priorities, y: Thread)
    requires value <= VALUE_MAX && CanRun(Initial(value, flag), es) && (flag == Prio ==> Steady(es, prio))
    requires y in Run(Initial(value, flag), es).w.list
    ensures
      var s := Run(Initial(value, flag), es);
      var next, since := s.w.list[0], Arrivals(AllOps(Initial(value, flag), es), map[], 0);
      && Step(s, Release).w == Apply(s.w, Resume(next))
      && (y == next || Precedes(Keys(prio, flag), since, next, y))
  {
    var s, ops := Run(Initial(value, flag), es), AllOps(Initial(value, flag), es);
    RunsOnOps(Initial(value, flag), es);
    OpsSteady(Initial(value, flag), es, prio);
    StaysInTurn(Initial(value, flag).w, ops, prio, flag, map[], 0);
    assert [Resume(s.w.list[0])][1..] == [];
    assert ApplyAll(Apply(s.w, Resume(s.w.list[0])), []) == Apply(s.w, Resume(s.w.list[0]));
  }

  // ---- the semaphore in place ----

  class Semaphore {
    var value: nat
    const waiting: SuspendList

    ghost function Abs(): Sem
      reads this, waiting
    {
      Sem(value, waiting.flag, waiting.Abs())
    }

    constructor (v: nat, flag: Flag)
      requires v <= VALUE_MAX
      ensures Valid(Abs()) && Abs() == Initial(v, flag) && fresh(waiting)
    {
      value := v;
      waiting := new SuspendList(flag);
    }

    // rt_sem_take up to its call of rt_schedule
    method Take(t: Thread, time: int, prio: Priorities) returns (r: Result)
      requires Valid(Abs()) && CanHappen(Abs(), Event.Take(t, time, prio))
      modifies this, waiting
      ensures Valid(Abs()) && Abs() == Step(old(Abs()), Event.Take(t, time, prio))
      ensures r == TakeResult(old(Abs()), time)
    {
      StaysValid(Abs(), Event.Take(t, time, prio));
      OpsEnabled(Abs(), Event.Take(t, time, prio));
      if value > 0 {
        value := value - 1;
        r := Took;
      } else if time == 0 {
        r := Result.TimedOut;
      } else {
        waiting.Suspend(t, time, prio);
        r := Blocked;
      }
    }

    // rt_sem_release
    method Release() returns (r: Result)
      requires Valid(Abs())
      modifies this, waiting
      ensures Valid(Abs()) && Abs() == Step(old(Abs()), Event.Release)
      ensures r == if old(waiting.list) == [] && old(value) == VALUE_MAX then Full else Done
    {
      StaysValid(Abs(), Event.Release);
      OpsEnabled(Abs(), Event.Release);
      r := Done;
      if waiting.list != [] {
        var _ := waiting.Resume();
      } else if value < VALUE_MAX {
        value := value + 1;
      } else {
        r := Full;
      }
    }

    // rt_sem_control with RT_IPC_CMD_RESET
    method Reset(v: nat)
      requires Valid(Abs())
      modifies this, waiting
      ensures Valid(Abs()) && Abs() == Step(old(Abs()), Event.Reset(v))
    {
      StaysValid(Abs(), Event.Reset(v));
      waiting.ResumeAll();
      value := v % 0x1_0000;
    }
  }
}
