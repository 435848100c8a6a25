// The two suspend lists of a message queue (rt-thread/src/ipc.c), receivers and senders: in what order
// their threads are served, and how their waits end.
module MessageQueueWaits {
  import opened MessageQueueRuns
  import opened OrderedQueue
  import opened SuspendLists

  datatype Side = Receivers | Senders

  function Waiting(s: Mq, side: Side): Waits {
    if side == Receivers then s.rx else s.tx
  }

  function SuspendIf(t: Thread, time: int, prio: Priorities, flag: Flag, idle: bool): seq<Op> {
    if idle && time != 0 then [Suspend(t, time, prio, flag)] else []
  }

  function WakesFirst(w: Waits): seq<Op> {
    if w.list != [] then [Resume(w.list[0])] else []
  }

  // What a step does to the waiters of one side.
  function WaitOps(s: Mq, e: Event, side: Side): seq<Op> {
    match e
    case Reset => FailAll(Waiting(s, side).list)
    case _ =>
      if side == Receivers then
        match e
        case Receive(t, time, prio) => SuspendIf(t, time, prio, s.flag, s.entry == 0)
        case ReceiveAgain(t, time, prio) => [Return(t)] + SuspendIf(t, time, prio, s.flag, s.entry == 0)
        case Link(_) => if s.entry < ENTRY_MAX then WakesFirst(s.rx) else []
        case ReceiveTimeout(t) => [Expire(t)]
        case ReceiveFails(t) => [Return(t)]
        case _ => []
      else
        match e
        case Send(t, time, prio) => SuspendIf(t, time, prio, s.flag, s.free == [])
        case SendAgain(t, time, prio) => [Return(t)] + SuspendIf(t, time, prio, s.flag, s.free == [])
        case GiveBack(_) => WakesFirst(s.tx)
        case SendTimeout(t) => [Expire(t)]
        case SendFails(t) => [Return(t)]
        case _ => []
  }

  lemma ApplyOne(w: Waits, op: Op)
    ensures ApplyAll(w, [op]) == Apply(w, op) && (AllEnabled(w, [op]) <==> Enabled(w, op))
  {
    assert [op][1..] == [];
    assert ApplyAll(Apply(w, op), []) == Apply(w, op) && AllEnabled(Apply(w, op), []);
  }

  lemma OpsFacts(s: Mq, e: Event, side: Side)
    requires Valid(s) && CanHappen(s, e)
    ensures AllEnabled(Waiting(s, side), WaitOps(s, e, side))
    ensures Waiting(Step(s, e), side) == ApplyAll(Waiting(s, side), WaitOps(s, e, side))
  {
    var w, ops := Waiting(s, side), WaitOps(s, e, side);
    if e.Reset? {
      FailAllEmpties(w);
    } else if |ops| == 2 {
      var n := Apply(w, ops[0]);
      assert ops == [ops[0]] + [ops[1]];
      ApplyConcat(w, [ops[0]], [ops[1]]);
      ApplyOne(w, ops[0]);
      ApplyOne(n, ops[1]);
    } else if ops != [] {
      assert ops == [ops[0]];
      ApplyOne(w, ops[0]);
    }
  }

  // A send comes to wait among the senders exactly if no node is free and it is willing to wait; a receive
  // among the receivers exactly if no message is there. Otherwise the waiters are left alone.
  lemma SendWaits(s: Mq, e: Event)
    requires Valid(s) && CanHappen(s, e) && (e.Send? || e.SendAgain?)
    ensures SendResult(s, e.time) == Blocked <==> s.free == [] && e.time != 0
    ensures
      var w, n := if e.SendAgain? then Apply(s.tx, Return(e.t)) else s.tx, Step(s, e);
      && e.t !in w.list && (e.t in n.tx.list <==> SendResult(s, e.time) == Blocked) && n.rx == s.rx
      && if SendResult(s, e.time) == Blocked then ComesToWait(w, n.tx, e.t, e.time) else n.tx == w
  {
    assert OneCall(s, e.t);
    if e.SendAgain? { StaysWellFormed(s.tx, Return(e.t)); }
    var w := if e.SendAgain? then Apply(s.tx, Return(e.t)) else s.tx;
    SuspendWaits(w, e.t, e.time, e.prio, s.flag);
  }

  lemma ReceiveWaits(s: Mq, e: Event)
    requires Valid(s) && CanHappen(s, e) && (e.Receive? || e.ReceiveAgain?)
    ensures ReceiveResult(s, e.time) == Blocked <==> s.queue == [] && e.time != 0
    ensures
      var w, n := if e.ReceiveAgain? then Apply(s.rx, Return(e.t)) else s.rx, Step(s, e);
      && e.t !in w.list && (e.t in n.rx.list <==> ReceiveResult(s, e.time) == Blocked) && n.tx == s.tx
      && if ReceiveResult(s, e.time) == Blocked then ComesToWait(w, n.rx, e.t, e.time) else n.rx == w
  {
    assert OneCall(s, e.t);
    if e.ReceiveAgain? { StaysWellFormed(s.rx, Return(e.t)); }
    var w := if e.ReceiveAgain? then Apply(s.rx, Return(e.t)) else s.rx;
    SuspendWaits(w, e.t, e.time, e.prio, s.flag);
  }

  // Event e is a send, or a receive, by t that is answered Blocked.
  ghost predicate Blocks(s: Mq, e: Event, side: Side, t: Thread) {
    if side == Senders then (e.Send? || e.SendAgain?) && e.t == t && SendResult(s, e.time) == Blocked
    else (e.Receive? || e.ReceiveAgain?) && e.t == t && ReceiveResult(s, e.time) == Blocked
  }

  // Event e ends a wait of t: it is the first waiter when a message is linked, or a node given back, its
  // time is over, or the queue is reset.
  ghost predicate Ends(s: Mq, e: Event, side: Side, t: Thread) {
    match e
    case Link(_) => side == Receivers && s.rx.list != [] && s.rx.list[0] == t
    case GiveBack(_) => side == Senders && s.tx.list != [] && s.tx.list[0] == t
    case ReceiveTimeout(x) => side == Receivers && x == t
    case SendTimeout(x) => side == Senders && x == t
    case Reset => t in Waiting(s, side).list
    case _ => false
  }

  lemma CallsChange(s: Mq, e: Event, side: Side, t: Thread)
    requires Valid(s) && CanHappen(s, e) && (e.Send? || e.SendAgain? || e.Receive? || e.ReceiveAgain?)
    ensures Ends(s, e, side, t) ==> t in Waiting(s, side).list
    ensures Blocks(s, e, side, t) ==> t !in Waiting(s, side).list
    ensures
      t in Waiting(Step(s, e), side).list
      <==>
      Blocks(s, e, side, t) || (t in Waiting(s, side).list && !Ends(s, e, side, t))
  {
    if e.Send? || e.SendAgain? { SendWaits(s, e); } else { ReceiveWaits(s, e); }
  }

  lemma WakesChange(s: Mq, e: Event, side: Side, t: Thread)
    requires Valid(s) && CanHappen(s, e) && !e.Send? && !e.SendAgain? && !e.Receive? && !e.ReceiveAgain?
    ensures Ends(s, e, side, t) ==> t in Waiting(s, side).list
    ensures Blocks(s, e, side, t) ==> t !in Waiting(s, side).list
    ensures
      t in Waiting(Step(s, e), side).list
      <==>
      Blocks(s, e, side, t) || (t in Waiting(s, side).list && !Ends(s, e, side, t))
  {
    if e.Link? { RoomForEntry(s, e.t); }
    if e.Reset? { FailAllEmpties(Waiting(s, side)); }
    var list := Waiting(s, side).list;
    if list != [] { InRemoved(list, list[0], t); }
    if e.ReceiveTimeout? || e.SendTimeout? { InRemoved(list, e.t, t); }
  }

  lemma WaitingChanges(s: Mq, e: Event, side: Side, t: Thread)
    requires Valid(s) && CanHappen(s, e)
    ensures Ends(s, e, side, t) ==> t in Waiting(s, side).list
    ensures Blocks(s, e, side, t) ==> t !in Waiting(s, side).list
    ensures
      t in Waiting(Step(s, e), side).list
      <==>
      Blocks(s, e, side, t) || (t in Waiting(s, side).list && !Ends(s, e, side, t))
  {
    if e.Send? || e.SendAgain? || e.Receive? || e.ReceiveAgain? {
      CallsChange(s, e, side, t);
    } else {
      WakesChange(s, e, side, t);
    }
  }

  ghost function BlockCount(s: Mq, es: seq<Event>, side: Side, t: Thread): nat
    requires CanRun(s, es)
    decreases |es|
  {
    if es == [] then 0
    else (if Blocks(s, es[0], side, t) then 1 else 0) + BlockCount(Step(s, es[0]), es[1..], side, t)
  }

  ghost function EndCount(s: Mq, es: seq<Event>, side: Side, t: Thread): nat
    requires CanRun(s, es)
    decreases |es|
  {
    if es == [] then 0
    else (if Ends(s, es[0], side, t) then 1 else 0) + EndCount(Step(s, es[0]), es[1..], side, t)
  }

  // On every run, of the sends, and of the receives, of t answered Blocked each has ended once, but for the
  // one that still waits.
  lemma {:induction false} BlockedCallsEnd(s: Mq, es: seq<Event>, side: Side, t: Thread)
    requires Valid(s) && CanRun(s, es)
    ensures
      BlockCount(s, es, side, t) + (if t in Waiting(s, side).list then 1 else 0)
        == EndCount(s, es, side, t) + if t in Waiting(Run(s, es), side).list then 1 else 0
    decreases |es|
  {
    if es != [] {
      WaitingChanges(s, es[0], side, t);
      StaysValid(s, es[0]);
      BlockedCallsEnd(Step(s, es[0]), es[1..], side, t);
    }
  }

  function AllOps(s: Mq, es: seq<Event>, side: Side): seq<Op>
    requires CanRun(s, es)
    decreases |es|
  {
    if es == [] then [] else WaitOps(s, es[0], side) + AllOps(Step(s, es[0]), es[1..], side)
  }

  lemma {:induction false} RunsOnOps(s: Mq, es: seq<Event>, side: Side)
    requires Valid(s) && CanRun(s, es)
    ensures AllEnabled(Waiting(s, side), AllOps(s, es, side))
    ensures Waiting(Run(s, es), side) == ApplyAll(Waiting(s, side), AllOps(s, es, side))
    decreases |es|
  {
    if es != [] {
      OpsFacts(s, es[0], side);
      StaysValid(s, es[0]);
      RunsOnOps(Step(s, es[0]), es[1..], side);
      ApplyConcat(Waiting(s, side), WaitOps(s, es[0], side), AllOps(Step(s, es[0]), es[1..], side));
    }
  }

  // The priorities with which threads come to wait.
  ghost predicate Steady(es: seq<Event>, prio: Priorities) {
    forall e :: e in es && (e.Send? || e.SendAgain? || e.Receive? || e.ReceiveAgain?) ==> e.prio == prio
  }

  lemma {:induction false} OpsSteady(s: Mq, es: seq<Event>, side: Side, prio: Priorities)
    requires CanRun(s, es) && (s.flag == Prio ==> Steady(es, prio))
    ensures forall op :: op in AllOps(s, es, side) && op.Suspend? ==>
        op.flag == s.flag && (s.flag == Prio ==> op.prio == prio)
    decreases |es|
  {
    if es != [] {
      NoSuspends(Waiting(s, side).list);
      OpsSteady(Step(s, es[0]), es[1..], side, prio);
    }
  }

  // On every run, whoever is woken first on either side is a most urgent waiter there, and among these
  // the one that has waited longest; or, where the flag asks for it, the one that has waited longest of all.
  lemma ServedInTurn(s: Mq, es: seq<Event>, side: Side, prio: Priorities, y: Thread)
    requires Valid(s) && CanRun(s, es) && (s.flag == Prio ==> Steady(es, prio))
    requires Waiting(s, side).list == [] && y in Waiting(Run(s, es), side).list
    ensures
      var first, since := Waiting(Run(s, es), side).list[0], Arrivals(AllOps(s, es, side), map[], 0);
      y == first || Precedes(Keys(prio, s.flag), since, first, y)
  {
    RunsOnOps(s, es, side);
    OpsSteady(s, es, side, prio);
    StaysInTurn(Waiting(s, side), AllOps(s, es, side), prio, s.flag, map[], 0);
  }

  // Each blocked send or receive ends in exactly one wake-up, timeout or reset, and returns what it
  // ended in.
  lemma WaitsEndOnce(s: Mq, es: seq<Event>, side: Side, t: Thread)
    requires Valid(s) && CanRun(s, es) && t !in Waiting(s, side).inside
    ensures Balanced(Waiting(Run(s, es), side), t,
        TalliedAll(Waiting(s, side), AllOps(s, es, side), t, Tally(0, 0, 0, 0, 0, 0, 0)))
  {
    RunsOnOps(s, es, side);
    OneEndPerWait(Waiting(s, side), AllOps(s, es, side), t, Tally(0, 0, 0, 0, 0, 0, 0));
  }
}
