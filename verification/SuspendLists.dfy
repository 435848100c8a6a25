// The waiting side every IPC object of rt-thread/src/ipc.c shares: the list of suspended threads,
// the thread timers that bound their waits, and the error each blocking call will return.
module SuspendLists {
  import opened OrderedQueue

  type Thread = Item

  // Current priorities; the smaller number is the more urgent one.
  type Priorities = Ranks

  // When each thread last came, counted in steps.
  type Stamps = Ranks

  datatype Flag = Fifo | Prio                    // RT_IPC_FLAG_FIFO, RT_IPC_FLAG_PRIO

  datatype Error = Ok | TimedOut | Failed        // RT_EOK, -RT_ETIMEOUT, -RT_ERROR

  datatype Waits = Waits(
    list: seq<Thread>,                 // suspend_thread
    armed: set<Thread>,                // threads whose timer is pending
    error: map<Thread, Error>,         // thread->error
    inside: set<Thread>)               // threads that blocked and have not returned yet

  datatype Op =
    | Suspend(t: Thread, time: int, prio: Priorities, flag: Flag)
    | Resume(t: Thread)
    | Expire(t: Thread)                // rt_thread_timeout, from the thread's timer
    | Fail(t: Thread)                  // one round of _ipc_list_resume_all
    | Return(t: Thread)                // the blocking call returns thread->error

  function ErrorOf(w: Waits, t: Thread): Error {
    if t in w.error then w.error[t] else Ok
  }

  function Enqueued(list: seq<Thread>, prio: Priorities, t: Thread, flag: Flag): seq<Thread> {
    match flag
    case Fifo => list + [t]
    case Prio => Inserted(list, prio, Rank(prio, t), t)
  }

  // rt_thread_resume: off the list, and the timer stopped.
  function Resumed(w: Waits, t: Thread): Waits {
    w.(list := Removed(w.list, t), armed := w.armed - {t})
  }

  function Apply(w: Waits, op: Op): Waits {
    match op
    case Suspend(t, time, prio, flag) =>
      w.(list := Enqueued(w.list, prio, t, flag), inside := w.inside + {t}, error := w.error[t := Ok],
         armed := if time > 0 then w.armed + {t} else w.armed - {t})
    case Resume(t) => Resumed(w, t)
    case Expire(t) => Resumed(w.(error := w.error[t := TimedOut]), t)
    case Fail(t) => Resumed(w.(error := w.error[t := Failed]), t)
    case Return(t) => w.(inside := w.inside - {t})
  }

  function ApplyAll(w: Waits, ops: seq<Op>): Waits
    decreases |ops|
  {
    if ops == [] then w else ApplyAll(Apply(w, ops[0]), ops[1..])
  }

  // A timer expires whenever it is pending: nothing here says that its thread still waits.
  ghost predicate Enabled(w: Waits, op: Op) {
    match op
    case Suspend(t, _, _, _) => t !in w.inside
    case Resume(t) => t in w.list
    case Expire(t) => t in w.armed
    case Fail(t) => t in w.list
    case Return(t) => t in w.inside && t !in w.list
  }

  ghost predicate AllEnabled(w: Waits, ops: seq<Op>)
    decreases |ops|
  {
    ops == [] || (Enabled(w, ops[0]) && AllEnabled(Apply(w, ops[0]), ops[1..]))
  }

  ghost predicate WellFormed(w: Waits) {
    && Distinct(w.list)
    && (forall t :: t in w.list ==> t in w.inside && ErrorOf(w, t) == Ok)
    && (forall t :: t in w.armed ==> t in w.list)
  }

  // ---- the queue discipline ----

  lemma {:induction false} InEnqueued(list: seq<Thread>, prio: Priorities, t: Thread, flag: Flag, y: Thread)
    ensures y in Enqueued(list, prio, t, flag) <==> y in list || y == t
  {
    if flag == Prio { InInserted(list, prio, Rank(prio, t), t, y); }
  }

  lemma EnqueuedDistinct(list: seq<Thread>, prio: Priorities, t: Thread, flag: Flag)
    requires Distinct(list) && t !in list
    ensures Distinct(Enqueued(list, prio, t, flag))
  {
    AppendDistinct(list, t);
    InsertedDistinct(list, prio, Rank(prio, t), t);
  }

  // A list kept by priority stays in order of priority.
  lemma EnqueuedSorted(list: seq<Thread>, prio: Priorities, t: Thread)
    requires Sorted(list, prio) && t !in list && t in prio
    ensures Sorted(Enqueued(list, prio, t, Prio), prio)
  {
    InsertedSorted(list, prio, prio[t], t);
    assert prio[t := prio[t]] == prio;
  }

  // First come first served among equals: a new thread goes behind every waiter at least as urgent
  // and before every less urgent one.
  lemma EnqueuedFair(list: seq<Thread>, prio: Priorities, t: Thread) returns (u: nat)
    requires Sorted(list, prio)
    ensures u <= |list| && Enqueued(list, prio, t, Prio) == list[..u] + [t] + list[u..]
    ensures forall i :: 0 <= i < |list| ==> (Rank(prio, list[i]) <= Rank(prio, t) <==> i < u)
  {
    u := NotAfter(list, prio, Rank(prio, t));
    InsertedAt(list, prio, Rank(prio, t), t);
    forall i | 0 <= i < |list| ensures Rank(prio, list[i]) <= Rank(prio, t) <==> i < u {
      NotAfterAt(list, prio, Rank(prio, t), i);
    }
  }

  // ---- what every operation keeps ----

  lemma StaysWellFormed(w: Waits, op: Op)
    requires WellFormed(w) && Enabled(w, op)
    ensures WellFormed(Apply(w, op))
  {
    var n := Apply(w, op);
    match op
    case Suspend(t, time, prio, flag) =>
      EnqueuedDistinct(w.list, prio, t, flag);
      InEnqueued(w.list, prio, t, flag, t);
      forall y | y in n.list ensures y in n.inside && ErrorOf(n, y) == Ok { InEnqueued(w.list, prio, t, flag, y); }
      forall y | y in n.armed ensures y in n.list { InEnqueued(w.list, prio, t, flag, y); }
    case Return(t) =>
    case _ =>
      RemovedDistinct(w.list, op.t);
      forall y | y in n.list ensures y in n.inside && ErrorOf(n, y) == Ok { InRemoved(w.list, op.t, y); }
      forall y | y in n.armed ensures y in n.list { InRemoved(w.list, op.t, y); }
  }

  // So a timer that expires always finds its thread suspended, as rt_thread_timeout asserts.
  lemma {:induction false} TimeoutFindsWaiter(w: Waits, ops: seq<Op>, t: Thread)
    requires WellFormed(w) && AllEnabled(w, ops) && Enabled(ApplyAll(w, ops), Expire(t))
    ensures t in ApplyAll(w, ops).list && WellFormed(ApplyAll(w, ops))
    decreases |ops|
  {
    if ops != [] {
      StaysWellFormed(w, ops[0]);
      TimeoutFindsWaiter(Apply(w, ops[0]), ops[1..], t);
    }
  }

  // While priorities stand still, a list kept by priority is sorted throughout: whoever is resumed
  // first is the most urgent waiter.
  lemma {:induction false} StaysSorted(w: Waits, ops: seq<Op>, prio: Priorities)
    requires WellFormed(w) && AllEnabled(w, ops) && Sorted(w.list, prio)
    requires forall op :: op in ops && op.Suspend? ==> op.flag == Prio && op.prio == prio && op.t in prio
    ensures Sorted(ApplyAll(w, ops).list, prio)
    decreases |ops|
  {
    if ops != [] {
      var op := ops[0];
      match op {
        case Suspend(t, _, _, _) => EnqueuedSorted(w.list, prio, t);
        case Return(t) =>
        case _ => RemovedSorted(w.list, op.t, prio);
      }
      StaysWellFormed(w, op);
      StaysSorted(Apply(w, op), ops[1..], prio);
    }
  }

  // ---- first come, first served ----

  // What a list is ordered by before arrival: priorities, or nothing.
  function Keys(prio: Priorities, flag: Flag): Priorities {
    if flag == Prio then prio else map[]
  }

  // x is more urgent than y, or as urgent and has come earlier.
  predicate Precedes(keys: Priorities, since: Stamps, x: Thread, y: Thread) {
    Rank(keys, x) < Rank(keys, y) || (Rank(keys, x) == Rank(keys, y) && Rank(since, x) < Rank(since, y))
  }

  ghost predicate InTurn(list: seq<Thread>, keys: Priorities, since: Stamps) {
    list == [] || ((forall y :: y in list[1..] ==> Precedes(keys, since, list[0], y)) && InTurn(list[1..], keys, since))
  }

  lemma {:induction false} InTurnAt(list: seq<Thread>, keys: Priorities, since: Stamps, i: nat, j: nat)
    requires InTurn(list, keys, since) && i < j < |list|
    ensures Precedes(keys, since, list[i], list[j])
  {
    if i == 0 {
      assert list[j] == list[1..][j - 1];
    } else {
      InTurnAt(list[1..], keys, since, i - 1, j - 1);
    }
  }

  lemma {:induction false} InTurnFrame(list: seq<Thread>, keys: Priorities, since: Stamps, t: Thread, n: int)
    requires InTurn(list, keys, since) && t !in list
    ensures InTurn(list, keys, since[t := n])
  {
    if list != [] {
      InTurnFrame(list[1..], keys, since, t, n);
    }
  }

  lemma {:induction false} RemovedInTurn(list: seq<Thread>, keys: Priorities, since: Stamps, t: Thread)
    requires InTurn(list, keys, since)
    ensures InTurn(Removed(list, t), keys, since)
  {
    if list != [] {
      var rest := Removed(list[1..], t);
      RemovedInTurn(list[1..], keys, since, t);
      forall y ensures y in rest ==> y in list[1..] { InRemoved(list[1..], t, y); }
      assert list[0] != t ==> Removed(list, t)[1..] == rest;
    }
  }

  // A thread that comes now takes its turn behind all that have come before. Only the priorities of
  // the threads concerned matter.
  lemma {:induction false} EnqueuedInTurn(list: seq<Thread>, prio: Priorities, keys: Priorities, since: Stamps,
                                          t: Thread, n: int)
    requires InTurn(list, keys, since) && t !in list
    requires forall y :: y in list || y == t ==> Rank(prio, y) == Rank(keys, y)
    requires forall y :: y in list ==> Rank(since, y) < n
    ensures InTurn(Inserted(list, prio, Rank(prio, t), t), keys, since[t := n])
  {
    var d := Rank(prio, t);
    if list == [] || Rank(prio, list[0]) > d {
      InTurnFrame(list, keys, since, t, n);
      forall y | y in list ensures Rank(keys, t) < Rank(keys, y) { assert y == list[0] || y in list[1..]; }
      assert ([t] + list)[1..] == list;
    } else {
      var rest := Inserted(list[1..], prio, d, t);
      EnqueuedInTurn(list[1..], prio, keys, since, t, n);
      forall y ensures y in rest <==> y in list[1..] || y == t { InInserted(list[1..], prio, d, t, y); }
      assert Inserted(list, prio, d, t)[1..] == rest;
    }
  }

  lemma {:induction false} AppendIsInsert(list: seq<Thread>, t: Thread)
    ensures list + [t] == Inserted(list, map[], 0, t)
  {
    if list != [] {
      AppendIsInsert(list[1..], t);
    }
  }

  // When each thread was last suspended.
  function Stamped(since: Stamps, op: Op, n: int): Stamps {
    if op.Suspend? then since[op.t := n] else since
  }

  function Arrivals(ops: seq<Op>, since: Stamps, n: int): Stamps
    decreases |ops|
  {
    if ops == [] then since else Arrivals(ops[1..], Stamped(since, ops[0], n), n + 1)
  }

  lemma StepInTurn(w: Waits, op: Op, prio: Priorities, flag: Flag, since: Stamps, n: int)
    requires WellFormed(w) && Enabled(w, op) && InTurn(w.list, Keys(prio, flag), since)
    requires forall y :: y in w.list ==> Rank(since, y) < n
    requires op.Suspend? ==> op.flag == flag
    requires op.Suspend? && flag == Prio ==> forall y :: y in w.list || y == op.t ==> Rank(op.prio, y) == Rank(prio, y)
    ensures
      var list, after := Apply(w, op).list, Stamped(since, op, n);
      InTurn(list, Keys(prio, flag), after) && forall y :: y in list ==> Rank(after, y) < n + 1
  {
    var list := Apply(w, op).list;
    match op
    case Suspend(t, _, p, _) =>
      AppendIsInsert(w.list, t);
      EnqueuedInTurn(w.list, Keys(p, flag), Keys(prio, flag), since, t, n);
      forall y ensures y in list <==> y in w.list || y == t { InEnqueued(w.list, p, t, flag, y); }
    case Return(t) =>
    case _ =>
      RemovedInTurn(w.list, Keys(prio, flag), since, op.t);
      forall y ensures y in list ==> y in w.list { InRemoved(w.list, op.t, y); }
  }

  // On every run the waiters stand in order of priority and, among equals, in order of arrival. A list
  // kept by arrival needs nothing of the priorities, a list kept by priority that they stand still.
  lemma {:induction false} StaysInTurn(w: Waits, ops: seq<Op>, prio: Priorities, flag: Flag, since: Stamps, n: int)
    requires WellFormed(w) && AllEnabled(w, ops) && InTurn(w.list, Keys(prio, flag), since)
    requires forall y :: y in w.list ==> Rank(since, y) < n
    requires forall op :: op in ops && op.Suspend? ==> op.flag == flag && (flag == Prio ==> op.prio == prio)
    ensures
      var list, after := ApplyAll(w, ops).list, Arrivals(ops, since, n);
      InTurn(list, Keys(prio, flag), after) && forall y :: y in list ==> Rank(after, y) < n + |ops|
    decreases |ops|
  {
    if ops != [] {
      StepInTurn(w, ops[0], prio, flag, since, n);
      StaysWellFormed(w, ops[0]);
      StaysInTurn(Apply(w, ops[0]), ops[1..], prio, flag, Stamped(since, ops[0], n), n + 1);
    }
  }

  // The stamp of a thread is the place of its last suspension.
  lemma {:induction false} LastArrival(ops: seq<Op>, since: Stamps, n: int, t: Thread)
    ensures
      var k := Rank(Arrivals(ops, since, n), t) - n;
      || (0 <= k < |ops| && ops[k].Suspend? && ops[k].t == t &&
          forall j :: k < j < |ops| && ops[j].Suspend? ==> ops[j].t != t)
      || (k + n == Rank(since, t) && forall j :: 0 <= j < |ops| && ops[j].Suspend? ==> ops[j].t != t)
    decreases |ops|
  {
    if ops != [] {
      LastArrival(ops[1..], Stamped(since, ops[0], n), n + 1, t);
      forall j | 0 < j < |ops| ensures ops[j] == ops[1..][j - 1] {}
    }
  }

  // ---- coming to wait ----

  // From w to n thread t, and no other, has come to wait; its timer runs exactly if the wait is bounded.
  ghost predicate ComesToWait(w: Waits, n: Waits, t: Thread, time: int) {
    && t in n.list && n.inside == w.inside + {t} && ErrorOf(n, t) == Ok && (t in n.armed <==> time > 0)
    && forall y :: y != t ==>
      (y in n.list <==> y in w.list) && (y in n.armed <==> y in w.armed) && ErrorOf(n, y) == ErrorOf(w, y)
  }

  lemma SuspendWaits(w: Waits, t: Thread, time: int, prio: Priorities, flag: Flag)
    requires WellFormed(w) && t !in w.inside
    ensures t !in w.list && ComesToWait(w, Apply(w, Suspend(t, time, prio, flag)), t, time)
  {
    forall y ensures y in Enqueued(w.list, prio, t, flag) <==> y in w.list || y == t {
      InEnqueued(w.list, prio, t, flag, y);
    }
  }

  // A bounded wait can time out at any time until it ends otherwise.
  lemma {:induction false} BoundedWaitCanEnd(w: Waits, ops: seq<Op>, t: Thread)
    requires WellFormed(w) && AllEnabled(w, ops) && t in w.armed
    requires forall op :: op in ops ==> op.t != t
    ensures Enabled(ApplyAll(w, ops), Expire(t)) && t in ApplyAll(w, ops).list
    decreases |ops|
  {
    if ops != [] {
      var op := ops[0];
      assert op in ops && forall o :: o in ops[1..] ==> o in ops;
      StaysWellFormed(w, op);
      BoundedWaitCanEnd(Apply(w, op), ops[1..], t);
    }
  }

  // ---- one end for every blocking call ----

  // What has happened to thread t: how often it blocked, was woken by a resume, a timeout or a
  // reset, and what its blocking calls returned.
  datatype Tally = Tally(blocked: nat, granted: nat, expired: nat, failed: nat, ok: nat, late: nat, refused: nat)

  function Tallied(w: Waits, op: Op, t: Thread, c: Tally): Tally {
    if op.t != t then c else
    match op
    case Suspend(_, _, _, _) => c.(blocked := c.blocked + 1)
    case Resume(_) => c.(granted := c.granted + 1)
    case Expire(_) => c.(expired := c.expired + 1)
    case Fail(_) => c.(failed := c.failed + 1)
    case Return(_) =>
      match ErrorOf(w, t)
      case Ok => c.(ok := c.ok + 1)
      case TimedOut => c.(late := c.late + 1)
      case Failed => c.(refused := c.refused + 1)
  }

  function TalliedAll(w: Waits, ops: seq<Op>, t: Thread, c: Tally): Tally
    decreases |ops|
  {
    if ops == [] then c else TalliedAll(Apply(w, ops[0]), ops[1..], t, Tallied(w, ops[0], t, c))
  }

  function Woken(w: Waits, t: Thread, e: Error): nat {
    if t in w.inside && t !in w.list && ErrorOf(w, t) == e then 1 else 0
  }

  // Every time t blocked it was woken once, by one of the three, unless it still waits; and every
  // wake-up is returned as what it was, unless the thread has yet to run.
  ghost predicate Balanced(w: Waits, t: Thread, c: Tally) {
    && c.blocked == c.granted + c.expired + c.failed + (if t in w.list then 1 else 0)
    && c.granted == c.ok + Woken(w, t, Ok)
    && c.expired == c.late + Woken(w, t, TimedOut)
    && c.failed == c.refused + Woken(w, t, Failed)
  }

  lemma StaysBalanced(w: Waits, op: Op, t: Thread, c: Tally)
    requires WellFormed(w) && Enabled(w, op) && Balanced(w, t, c)
    ensures Balanced(Apply(w, op), t, Tallied(w, op, t, c))
  {
    match op
    case Suspend(x, time, prio, flag) => InEnqueued(w.list, prio, x, flag, t);
    case Return(x) =>
    case _ => InRemoved(w.list, op.t, t);
  }

  lemma {:induction false} OneEndPerWait(w: Waits, ops: seq<Op>, t: Thread, c: Tally)
    requires WellFormed(w) && AllEnabled(w, ops) && Balanced(w, t, c)
    ensures WellFormed(ApplyAll(w, ops)) && Balanced(ApplyAll(w, ops), t, TalliedAll(w, ops, t, c))
    decreases |ops|
  {
    if ops != [] {
      StaysWellFormed(w, ops[0]);
      StaysBalanced(w, ops[0], t, c);
      OneEndPerWait(Apply(w, ops[0]), ops[1..], t, Tallied(w, ops[0], t, c));
    }
  }

  // ---- threads on their way back ----

  // Woken with success, and not yet returned.
  function Ready(w: Waits): set<Thread> {
    set t | t in w.inside && t !in w.list && ErrorOf(w, t) == Ok
  }

  lemma ReadyAfter(w: Waits, op: Op)
    requires WellFormed(w) && Enabled(w, op)
    ensures
      Ready(Apply(w, op)) ==
        match op
        case Resume(t) => Ready(w) + {t}
        case Return(t) => Ready(w) - {t}
        case _ => Ready(w)
    ensures op.Resume? ==> op.t !in Ready(w)
  {
    var n := Apply(w, op);
    forall y
      ensures y in n.list <==>
          if op.Suspend? then y in w.list || y == op.t else if op.Return? then y in w.list else y in w.list && y != op.t
    {
      match op
      case Suspend(x, time, prio, flag) => InEnqueued(w.list, prio, x, flag, y);
      case Return(x) =>
      case _ => InRemoved(w.list, op.t, y);
    }
  }

  // ---- resuming all ----

  // The rounds of _ipc_list_resume_all.
  function FailAll(list: seq<Thread>): seq<Op> {
    if list == [] then [] else [Fail(list[0])] + FailAll(list[1..])
  }

  lemma {:induction false} NoSuspends(list: seq<Thread>)
    ensures forall op :: op in FailAll(list) ==> op.Fail?
  {
    if list != [] {
      NoSuspends(list[1..]);
    }
  }

  lemma {:induction false} FailAllEmpties(w: Waits)
    requires WellFormed(w)
    ensures AllEnabled(w, FailAll(w.list))
    ensures
      var n := ApplyAll(w, FailAll(w.list));
      && WellFormed(n) && n.list == [] && n.inside == w.inside
      && forall t :: ErrorOf(n, t) == if t in w.list then Failed else ErrorOf(w, t)
    decreases |w.list|
  {
    if w.list != [] {
      var op, n := Fail(w.list[0]), Apply(w, Fail(w.list[0]));
      StaysWellFormed(w, op);
      AbsentRemoved(w.list[1..], w.list[0]);
      assert n.list == w.list[1..];
      FailAllEmpties(n);
      assert FailAll(w.list)[1..] == FailAll(w.list[1..]);
      forall t ensures t in w.list <==> t == w.list[0] || t in w.list[1..] {}
    }
  }

  lemma {:induction false} ApplyConcat(w: Waits, a: seq<Op>, b: seq<Op>)
    ensures ApplyAll(w, a + b) == ApplyAll(ApplyAll(w, a), b)
    ensures AllEnabled(w, a + b) <==> AllEnabled(w, a) && AllEnabled(ApplyAll(w, a), b)
    decreases |a|
  {
    if a == [] {
      assert a + b == b;
    } else {
      assert (a + b)[1..] == a[1..] + b;
      ApplyConcat(Apply(w, a[0]), a[1..], b);
    }
  }

  // ---- the suspend list in place ----

  class SuspendList {
    const flag: Flag
    var list: seq<Thread>
    var armed: set<Thread>
    var error: map<Thread, Error>
    var inside: set<Thread>

    ghost function Abs(): Waits
      reads this
    {
      Waits(list, armed, error, inside)
    }

    constructor (flag: Flag)
      ensures this.flag == flag && Abs() == Waits([], {}, map[], {})
    {
      this.flag := flag;
      list, armed, error, inside := [], {}, map[], {};
    }

    // Where _ipc_list_suspend links a thread into a list kept by priority.
    method Position(prio: Priorities, t: Thread) returns (n: nat)
      ensures n == NotAfter(list, prio, Rank(prio, t))
    {
      n := 0;
      while n != |list|
        invariant n <= |list| && NotAfter(list, prio, Rank(prio, t)) == n + NotAfter(list[n..], prio, Rank(prio, t))
        decreases |list| - n
      {
        assert list[n..][1..] == list[n + 1..];
        if Rank(prio, t) < Rank(prio, list[n]) {
          break;
        }
        n := n + 1;
      }
    }

    // _ipc_list_suspend, and the start of the thread's timer when the wait is bounded.
    method Suspend(t: Thread, time: int, prio: Priorities)
      requires t !in inside
      modifies this
      ensures Abs() == Apply(old(Abs()), Op.Suspend(t, time, prio, flag))
    {
      armed := armed - {t};
      match flag {
        case Fifo =>
          list := list + [t];
        case Prio =>
          var n := Position(prio, t);
          InsertedAt(list, prio, Rank(prio, t), t);
          list := list[..n] + [t] + list[n..];
      }
      if time > 0 {
        armed := armed + {t};
        assert old(armed) - {t} + {t} == old(armed) + {t};
      }
      error := error[t := Ok];
      inside := inside + {t};
    }

    // rt_thread_resume on a waiter
    method ResumeThread(t: Thread)
      requires t in list
      modifies this`list, this`armed
      ensures Abs() == Apply(old(Abs()), Op.Resume(t))
    {
      list := Removed(list, t);
      armed := armed - {t};
    }

    // _ipc_list_resume
    method Resume() returns (t: Thread)
      requires list != []
      modifies this`list, this`armed
      ensures t == old(list)[0] && Abs() == Apply(old(Abs()), Op.Resume(t))
    {
      t := list[0];
      ResumeThread(t);
    }

    // _ipc_list_resume_all
    method ResumeAll()
      requires WellFormed(Abs())
      modifies this
      ensures Abs() == ApplyAll(old(Abs()), FailAll(old(list)))
    {
      while list != []
        invariant WellFormed(Abs())
        invariant ApplyAll(old(Abs()), FailAll(old(list))) == ApplyAll(Abs(), FailAll(list))
        decreases |list|
      {
        ghost var w := Abs();
        var t := list[0];
        StaysWellFormed(w, Op.Fail(t));
        AbsentRemoved(w.list[1..], t);
        assert FailAll(w.list)[1..] == FailAll(w.list[1..]);
        error := error[t := Failed];
        ResumeThread(t);
      }
    }

    // rt_thread_timeout, the timeout function of the thread's timer
    method Timeout(t: Thread)
      requires WellFormed(Abs()) && t in armed
      modifies this
      ensures Abs() == Apply(old(Abs()), Op.Expire(t))
    {
      assert t in list;                            // RT_ASSERT on the thread's state
      error := error[t := TimedOut];
      list := Removed(list, t);
      armed := armed - {t};                        // a one-shot timer
    }

    // The thread runs again and leaves its blocking call.
    method Leave(t: Thread) returns (e: Error)
      requires t in inside && t !in list
      modifies this`inside
      ensures e == ErrorOf(old(Abs()), t) && Abs() == Apply(old(Abs()), Op.Return(t))
    {
      e := if t in error then error[t] else Ok;
      inside := inside - {t};
    }
  }
}
