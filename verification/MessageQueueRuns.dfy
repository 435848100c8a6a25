// Message queues (rt-thread/src/ipc.c) as a state. Sending takes a node from the free list in one
// locked region and links it in another; receiving unlinks a node in one and gives it back in
// another. In between threads and interrupts do as they please.
module MessageQueueRuns {
  import opened OrderedQueue
  import opened SuspendLists

  type Node = nat
  type Message = nat

  const ENTRY_MAX: nat := 0xFFFF                 // RT_MQ_ENTRY_MAX

  // What a thread has in hand between its two locked regions.
  datatype Hand =
    | Reserved(node: Node, urgent: bool)
    | Written(node: Node, urgent: bool, msg: Message)
    | Reading(node: Node, msg: Message)

  datatype Mq = Mq(
    max: nat,                          // max_msgs
    free: seq<Node>,                   // msg_queue_free
    queue: seq<Node>,                  // msg_queue_head .. msg_queue_tail
    entry: nat,
    data: map<Node, Message>,          // what is stored behind each node
    hands: map<Thread, Hand>,
    flag: Flag,
    rx: Waits,                         // parent.suspend_thread
    tx: Waits)                         // suspend_sender_thread

  datatype Event =
    | Send(t: Thread, time: int, prio: Priorities)      // rt_mq_send_wait up to its first unlock
    | SendAgain(t: Thread, time: int, prio: Priorities) // ... after a wait that succeeded
    | Urgent(t: Thread)                                 // rt_mq_urgent up to its first unlock
    | Fill(t: Thread, msg: Message)                     // the copy into the node, outside the lock
    | Link(t: Thread)                                   // the second locked region of a send
    | Receive(t: Thread, time: int, prio: Priorities)   // rt_mq_recv up to its first unlock
    | ReceiveAgain(t: Thread, time: int, prio: Priorities)
    | GiveBack(t: Thread)                               // the second locked region of a receive
    | Reset                                             // rt_mq_control
    | SendTimeout(t: Thread)
    | ReceiveTimeout(t: Thread)
    | SendFails(t: Thread)                              // a wait that failed returns
    | ReceiveFails(t: Thread)

  function DataOf(s: Mq, k: Node): Message {
    if k in s.data then s.data[k] else 0
  }

  ghost predicate Idle(s: Mq, t: Thread) {
    t !in s.hands && t !in s.rx.inside && t !in s.tx.inside
  }

  ghost predicate Failing(w: Waits, t: Thread) {
    t in w.inside && t !in w.list && ErrorOf(w, t) != Ok
  }

  ghost predicate CanHappen(s: Mq, e: Event) {
    match e
    case Send(t, _, _) => Idle(s, t)
    case SendAgain(t, _, _) => t in Ready(s.tx)
    case Urgent(t) => Idle(s, t)
    case Fill(t, _) => t in s.hands && s.hands[t].Reserved?
    case Link(t) => t in s.hands && s.hands[t].Written?
    case Receive(t, _, _) => Idle(s, t)
    case ReceiveAgain(t, _, _) => t in Ready(s.rx)
    case GiveBack(t) => t in s.hands && s.hands[t].Reading?
    case Reset => true
    case SendTimeout(t) => t in s.tx.armed
    case ReceiveTimeout(t) => t in s.rx.armed
    case SendFails(t) => Failing(s.tx, t)
    case ReceiveFails(t) => Failing(s.rx, t)
  }

  datatype Result = Taken | Blocked | NoWait | Full | Done

  // How a send and a receive get on: with a node in hand, refused, or waiting.
  function SendResult(s: Mq, time: int): Result {
    if s.free != [] then Taken else if time == 0 then Full else Blocked
  }

  function ReceiveResult(s: Mq, time: int): Result {
    if s.queue != [] then Taken else if time == 0 then NoWait else Blocked
  }

  function Reserve(s: Mq, t: Thread, urgent: bool): Mq
    requires s.free != []
  {
    s.(free := s.free[1..], hands := s.hands[t := Reserved(s.free[0], urgent)])
  }

  function TrySend(s: Mq, t: Thread, time: int, prio: Priorities): Mq {
    if s.free != [] then Reserve(s, t, false)
    else if time == 0 then s
    else s.(tx := Apply(s.tx, Suspend(t, time, prio, s.flag)))
  }

  function Pop(s: Mq, t: Thread): Mq
    requires s.queue != []
  {
    var k := s.queue[0];
    s.(queue := s.queue[1..], entry := if s.entry > 0 then s.entry - 1 else 0,
       hands := s.hands[t := Reading(k, DataOf(s, k))])
  }

  function TryReceive(s: Mq, t: Thread, time: int, prio: Priorities): Mq {
    if s.entry != 0 then (if s.queue != [] then Pop(s, t) else s)
    else if time == 0 then s
    else s.(rx := Apply(s.rx, Suspend(t, time, prio, s.flag)))
  }

  function WakeFirst(w: Waits): Waits {
    if w.list != [] then Apply(w, Resume(w.list[0])) else w
  }

  function Linked(s: Mq, t: Thread): Mq
    requires t in s.hands && s.hands[t].Written?
  {
    var h := s.hands[t];
    var u := s.(queue := if h.urgent then [h.node] + s.queue else s.queue + [h.node], hands := s.hands - {t});
    if s.entry < ENTRY_MAX then u.(entry := s.entry + 1, rx := WakeFirst(s.rx)) else u
  }

  function Reversed(xs: seq<Node>): seq<Node> {
    if xs == [] then [] else Reversed(xs[1..]) + [xs[0]]
  }

  function Step(s: Mq, e: Event): Mq
    requires CanHappen(s, e)
  {
    match e
    case Send(t, time, prio) => TrySend(s, t, time, prio)
    case SendAgain(t, time, prio) => TrySend(s.(tx := Apply(s.tx, Return(t))), t, time, prio)
    case Urgent(t) => if s.free != [] then Reserve(s, t, true) else s
    case Fill(t, msg) =>
      var h := s.hands[t];
      s.(data := s.data[h.node := msg], hands := s.hands[t := Written(h.node, h.urgent, msg)])
    case Link(t) => Linked(s, t)
    case Receive(t, time, prio) => TryReceive(s, t, time, prio)
    case ReceiveAgain(t, time, prio) => TryReceive(s.(rx := Apply(s.rx, Return(t))), t, time, prio)
    case GiveBack(t) => s.(free := [s.hands[t].node] + s.free, hands := s.hands - {t}, tx := WakeFirst(s.tx))
    case Reset =>
      s.(free := Reversed(s.queue) + s.free, queue := [], entry := 0,
         rx := ApplyAll(s.rx, FailAll(s.rx.list)), tx := ApplyAll(s.tx, FailAll(s.tx.list)))
    case SendTimeout(t) => s.(tx := Apply(s.tx, Expire(t)))
    case ReceiveTimeout(t) => s.(rx := Apply(s.rx, Expire(t)))
    case SendFails(t) => s.(tx := Apply(s.tx, Return(t)))
    case ReceiveFails(t) => s.(rx := Apply(s.rx, Return(t)))
  }

  ghost predicate CanRun(s: Mq, es: seq<Event>)
    decreases |es|
  {
    es == [] || (CanHappen(s, es[0]) && CanRun(Step(s, es[0]), es[1..]))
  }

  function Run(s: Mq, es: seq<Event>): Mq
    requires CanRun(s, es)
    decreases |es|
  {
    if es == [] then s else Run(Step(s, es[0]), es[1..])
  }

  // ---- the nodes ----

  ghost predicate HasNode(s: Mq, t: Thread, k: Node) {
    t in s.hands && s.hands[t].node == k
  }

  ghost predicate InHand(s: Mq, k: Node) {
    exists t :: HasNode(s, t, k)
  }

  // Each node is free, queued or in one thread's hand: exactly one of the three.
  ghost predicate NodeOk(s: Mq, k: Node) {
    && (k < s.max <==> k in s.free || k in s.queue || InHand(s, k))
    && !(k in s.free && k in s.queue) && !(k in s.free && InHand(s, k)) && !(k in s.queue && InHand(s, k))
  }

  ghost predicate Alone(s: Mq, t: Thread, u: Thread) {
    t in s.hands && u in s.hands && t != u ==> s.hands[t].node != s.hands[u].node
  }

  ghost predicate Partition(s: Mq) {
    && Distinct(s.free) && Distinct(s.queue)
    && (forall k :: NodeOk(s, k))
    && (forall t, u :: Alone(s, t, u))
  }

  // What was written is still there when the node is linked, and while it is read.
  ghost predicate HandOk(s: Mq, t: Thread) {
    t in s.hands && !s.hands[t].Reserved? ==> DataOf(s, s.hands[t].node) == s.hands[t].msg
  }

  // A thread is in one call at a time.
  ghost predicate OneCall(s: Mq, t: Thread) {
    && (t in s.hands ==> t !in s.rx.inside && t !in s.tx.inside)
    && !(t in s.rx.inside && t in s.tx.inside)
  }

  // Threads wait while there is work for them only if as many are already on their way to it.
  ghost predicate NoLostWakeup(w: Waits, work: nat) {
    w.list != [] ==> work <= |Ready(w)|
  }

  ghost predicate Valid(s: Mq) {
    && s.max <= ENTRY_MAX && Partition(s) && s.entry == |s.queue|
    && (forall t :: HandOk(s, t))
    && (forall t :: OneCall(s, t))
    && WellFormed(s.rx) && WellFormed(s.tx)
    && NoLostWakeup(s.rx, |s.queue|) && NoLostWakeup(s.tx, |s.free|)
  }

  // ---- moving a node ----

  // Thread t picks up node k from one of the lists.
  lemma PickedUp(s: Mq, n: Mq, t: Thread, k: Node)
    requires Partition(s) && t !in s.hands
    requires n.max == s.max && n.hands.Keys == s.hands.Keys + {t} && n.hands[t].node == k
    requires forall u :: u in s.hands ==> n.hands[u] == s.hands[u]
    requires Distinct(n.free) && Distinct(n.queue) && (k in s.free || k in s.queue)
    requires forall j :: j in n.free <==> j in s.free && j != k
    requires forall j :: j in n.queue <==> j in s.queue && j != k
    ensures Partition(n)
  {
    assert NodeOk(s, k);
    forall j ensures NodeOk(n, j) {
      assert NodeOk(s, j);
      forall u ensures HasNode(n, u, j) <==> HasNode(s, u, j) || (u == t && j == k) {}
      assert HasNode(n, t, j) <==> j == k;
    }
    forall u, v ensures Alone(n, u, v) {
      assert Alone(s, u, v);
      assert u in s.hands ==> HasNode(s, u, s.hands[u].node);
      assert v in s.hands ==> HasNode(s, v, s.hands[v].node);
    }
  }

  // Thread t puts its node k on one of the lists.
  lemma PutDown(s: Mq, n: Mq, t: Thread, toFree: bool)
    requires Partition(s) && t in s.hands
    requires n.max == s.max && n.hands == s.hands - {t}
    requires Distinct(n.free) && Distinct(n.queue)
    requires forall j :: j in n.free <==> j in s.free || (toFree && j == s.hands[t].node)
    requires forall j :: j in n.queue <==> j in s.queue || (!toFree && j == s.hands[t].node)
    ensures Partition(n)
  {
    var k := s.hands[t].node;
    assert HasNode(s, t, k) && NodeOk(s, k);
    forall j ensures NodeOk(n, j) {
      assert NodeOk(s, j);
      forall u ensures HasNode(n, u, j) <==> HasNode(s, u, j) && u != t {}
      if j != k {
        forall u | HasNode(s, u, j) ensures HasNode(n, u, j) {}
      } else {
        forall u ensures !HasNode(n, u, k) { assert Alone(s, t, u); }
      }
    }
    forall u, v ensures Alone(n, u, v) { assert Alone(s, u, v); }
  }

  // ---- every step ----

  lemma WaitStays(s: Mq, w: Waits, work: nat, op: Op)
    requires WellFormed(w) && Enabled(w, op) && NoLostWakeup(w, work) && !op.Return?
    requires op.Suspend? ==> work == 0
    ensures WellFormed(Apply(w, op)) && NoLostWakeup(Apply(w, op), work)
  {
    StaysWellFormed(w, op);
    ReadyAfter(w, op);
    if op.Resume? || op.Expire? || op.Fail? {
      assert op.t in w.list;
      if Apply(w, op).list != [] && op.Resume? {
        assert |Ready(w) + {op.t}| == |Ready(w)| + 1;
      }
    }
  }

  // One more piece of work, and the first waiter woken for it.
  lemma WakeStays(w: Waits, work: nat)
    requires WellFormed(w) && NoLostWakeup(w, work)
    ensures WellFormed(WakeFirst(w)) && NoLostWakeup(WakeFirst(w), work + 1)
    ensures WakeFirst(w).inside == w.inside
  {
    if w.list != [] {
      assert w.list[0] in w.list;
      StaysWellFormed(w, Resume(w.list[0]));
      ReadyAfter(w, Resume(w.list[0]));
    }
  }

  // A woken thread takes its piece of work, or finds none left.
  lemma ReturnStays(w: Waits, work: nat, t: Thread)
    requires WellFormed(w) && NoLostWakeup(w, work) && t in Ready(w)
    ensures WellFormed(Apply(w, Return(t)))
    ensures NoLostWakeup(Apply(w, Return(t)), if work > 0 then work - 1 else 0)
  {
    StaysWellFormed(w, Return(t));
    ReadyAfter(w, Return(t));
    assert |Ready(w) - {t}| == |Ready(w)| - 1;
  }

  // Valid but for the promise to the waiters.
  ghost predicate Consistent(s: Mq) {
    && s.max <= ENTRY_MAX && Partition(s) && s.entry == |s.queue|
    && (forall t :: HandOk(s, t))
    && (forall t :: OneCall(s, t))
    && WellFormed(s.rx) && WellFormed(s.tx)
  }

  lemma ReserveStays(s: Mq, t: Thread, urgent: bool)
    requires Consistent(s) && Idle(s, t) && s.free != []
    ensures Consistent(Reserve(s, t, urgent))
  {
    var n, k := Reserve(s, t, urgent), s.free[0];
    assert forall j :: j in n.free <==> j in s.free && j != k;
    assert NodeOk(s, k);
    PickedUp(s, n, t, k);
    forall u ensures HandOk(n, u) { assert HandOk(s, u); }
    forall u ensures OneCall(n, u) { assert OneCall(s, u); }
  }

  lemma PopStays(s: Mq, t: Thread)
    requires Consistent(s) && Idle(s, t) && s.queue != []
    ensures Consistent(Pop(s, t))
  {
    var n, k := Pop(s, t), s.queue[0];
    assert forall j :: j in n.queue <==> j in s.queue && j != k;
    assert NodeOk(s, k);
    PickedUp(s, n, t, k);
    forall u ensures HandOk(n, u) { assert HandOk(s, u); }
    forall u ensures OneCall(n, u) { assert OneCall(s, u); }
  }

  lemma TrySendStays(s: Mq, t: Thread, time: int, prio: Priorities)
    requires Consistent(s) && Idle(s, t)
    requires NoLostWakeup(s.rx, |s.queue|)
    requires NoLostWakeup(s.tx, if |s.free| > 0 then |s.free| - 1 else 0)
    ensures Valid(TrySend(s, t, time, prio))
  {
    var n := TrySend(s, t, time, prio);
    if s.free != [] {
      ReserveStays(s, t, false);
    } else if time != 0 {
      WaitStays(s, s.tx, 0, Suspend(t, time, prio, s.flag));
      SamePartition(s, n);
      forall u ensures HandOk(n, u) { assert HandOk(s, u); }
      forall u ensures OneCall(n, u) { assert OneCall(s, u); }
    }
  }

  lemma TryReceiveStays(s: Mq, t: Thread, time: int, prio: Priorities)
    requires Consistent(s) && Idle(s, t)
    requires NoLostWakeup(s.tx, |s.free|)
    requires NoLostWakeup(s.rx, if |s.queue| > 0 then |s.queue| - 1 else 0)
    ensures Valid(TryReceive(s, t, time, prio))
  {
    var n := TryReceive(s, t, time, prio);
    if s.queue != [] {
      PopStays(s, t);
    } else if time != 0 {
      WaitStays(s, s.rx, 0, Suspend(t, time, prio, s.flag));
      SamePartition(s, n);
      forall u ensures HandOk(n, u) { assert HandOk(s, u); }
      forall u ensures OneCall(n, u) { assert OneCall(s, u); }
    }
  }

  // Nodes do not move.
  lemma SamePartition(s: Mq, n: Mq)
    requires Partition(s) && n.max == s.max && n.free == s.free && n.queue == s.queue && n.hands.Keys == s.hands.Keys
    requires forall t :: t in s.hands ==> n.hands[t].node == s.hands[t].node
    ensures Partition(n)
  {
    forall j ensures NodeOk(n, j) {
      assert NodeOk(s, j);
      forall u ensures HasNode(n, u, j) <==> HasNode(s, u, j) {}
    }
    forall u, v ensures Alone(n, u, v) { assert Alone(s, u, v); }
  }

  lemma FillStays(s: Mq, t: Thread, msg: Message)
    requires Valid(s) && CanHappen(s, Fill(t, msg))
    ensures Valid(Step(s, Fill(t, msg)))
  {
    var n := Step(s, Fill(t, msg));
    SamePartition(s, n);
    forall u ensures HandOk(n, u) { assert HandOk(s, u) && Alone(s, t, u); }
    forall u ensures OneCall(n, u) { assert OneCall(s, u); }
  }

  // The count never reaches its limit: the node being linked is one the queue does not hold.
  lemma RoomForEntry(s: Mq, t: Thread)
    requires Consistent(s) && t in s.hands && s.hands[t].Written?
    ensures s.entry < s.max <= ENTRY_MAX
    ensures Distinct([s.hands[t].node] + s.queue) && Distinct(s.queue + [s.hands[t].node])
  {
    var k := s.hands[t].node;
    assert HasNode(s, t, k) && NodeOk(s, k);
    var xs := [k] + s.queue;
    assert xs[1..] == s.queue;
    forall j | j in xs ensures j < s.max { assert NodeOk(s, j); }
    DistinctBelow(xs, s.max);
    AppendDistinct(s.queue, k);
  }

  lemma LinkStays(s: Mq, t: Thread)
    requires Valid(s) && CanHappen(s, Link(t))
    ensures Valid(Linked(s, t))
  {
    var n := Linked(s, t);
    RoomForEntry(s, t);
    PutDown(s, n, t, false);
    WakeStays(s.rx, |s.queue|);
    forall u ensures HandOk(n, u) { assert HandOk(s, u); }
    forall u ensures OneCall(n, u) { assert OneCall(s, u); }
  }

  lemma GiveBackStays(s: Mq, t: Thread)
    requires Valid(s) && CanHappen(s, GiveBack(t))
    ensures Valid(Step(s, GiveBack(t)))
  {
    var n := Step(s, GiveBack(t));
    assert HasNode(s, t, s.hands[t].node) && NodeOk(s, s.hands[t].node);
    assert n.free[1..] == s.free;
    PutDown(s, n, t, true);
    WakeStays(s.tx, |s.free|);
    forall u ensures HandOk(n, u) { assert HandOk(s, u); }
    forall u ensures OneCall(n, u) { assert OneCall(s, u); }
  }

  lemma {:induction false} ReversedFacts(xs: seq<Node>, k: Node)
    ensures k in Reversed(xs) <==> k in xs
    ensures Distinct(xs) ==> Distinct(Reversed(xs))
  {
    if xs != [] {
      ReversedFacts(xs[1..], k);
      ReversedFacts(xs[1..], xs[0]);
      if Distinct(xs) { AppendDistinct(Reversed(xs[1..]), xs[0]); }
    }
  }

  lemma {:induction false} ConcatDistinct(xs: seq<Node>, ys: seq<Node>)
    requires Distinct(xs) && Distinct(ys) && forall k :: k in xs ==> k !in ys
    ensures Distinct(xs + ys)
  {
    if xs == [] {
      assert xs + ys == ys;
    } else {
      assert xs[0] in xs && forall k :: k in xs[1..] ==> k in xs;
      ConcatDistinct(xs[1..], ys);
      assert (xs + ys)[1..] == xs[1..] + ys;
    }
  }

  lemma ResetStays(s: Mq)
    requires Valid(s)
    ensures Valid(Step(s, Reset))
  {
    var n := Step(s, Reset);
    FailAllEmpties(s.rx);
    FailAllEmpties(s.tx);
    forall k ensures k in Reversed(s.queue) <==> k in s.queue { ReversedFacts(s.queue, k); }
    ReversedFacts(s.queue, 0);
    forall k | k in Reversed(s.queue) ensures k !in s.free { assert NodeOk(s, k); }
    ConcatDistinct(Reversed(s.queue), s.free);
    forall j ensures NodeOk(n, j) {
      assert NodeOk(s, j);
      forall u ensures HasNode(n, u, j) <==> HasNode(s, u, j) {}
    }
    forall u, v ensures Alone(n, u, v) { assert Alone(s, u, v); }
    forall u ensures HandOk(n, u) { assert HandOk(s, u); }
    forall u ensures OneCall(n, u) { assert OneCall(s, u); }
  }

  // Threads only move between the waiting lists and their calls.
  lemma WaitsReplaced(s: Mq, rx: Waits, tx: Waits)
    requires Valid(s) && rx.inside <= s.rx.inside && tx.inside <= s.tx.inside
    requires WellFormed(rx) && NoLostWakeup(rx, |s.queue|)
    requires WellFormed(tx) && NoLostWakeup(tx, |s.free|)
    ensures Valid(s.(rx := rx, tx := tx))
  {
    var n := s.(rx := rx, tx := tx);
    SamePartition(s, n);
    forall u ensures HandOk(n, u) { assert HandOk(s, u); }
    forall u ensures OneCall(n, u) { assert OneCall(s, u); }
  }

  // A wait that failed returns: the thread was not on its way to any work.
  lemma FailedReturn(w: Waits, work: nat, t: Thread)
    requires WellFormed(w) && NoLostWakeup(w, work) && Failing(w, t)
    ensures WellFormed(Apply(w, Return(t))) && NoLostWakeup(Apply(w, Return(t)), work)
  {
    StaysWellFormed(w, Return(t));
    ReadyAfter(w, Return(t));
    assert Ready(w) - {t} == Ready(w);
  }

  lemma WaitersMove(s: Mq, e: Event)
    requires Valid(s) && CanHappen(s, e)
    requires e.SendTimeout? || e.ReceiveTimeout? || e.SendFails? || e.ReceiveFails?
    ensures Valid(Step(s, e))
  {
    var n := Step(s, e);
    match e {
      case SendTimeout(t) => WaitStays(s, s.tx, |s.free|, Expire(t));
      case ReceiveTimeout(t) => WaitStays(s, s.rx, |s.queue|, Expire(t));
      case SendFails(t) => FailedReturn(s.tx, |s.free|, t);
      case ReceiveFails(t) => FailedReturn(s.rx, |s.queue|, t);
    }
    WaitsReplaced(s, n.rx, n.tx);
  }

  lemma AgainStays(s: Mq, e: Event)
    requires Valid(s) && CanHappen(s, e) && (e.SendAgain? || e.ReceiveAgain?)
    ensures Valid(Step(s, e))
  {
    var n := if e.SendAgain? then s.(tx := Apply(s.tx, Return(e.t))) else s.(rx := Apply(s.rx, Return(e.t)));
    SamePartition(s, n);
    assert OneCall(s, e.t);
    forall u ensures HandOk(n, u) { assert HandOk(s, u); }
    forall u ensures OneCall(n, u) { assert OneCall(s, u); }
    if e.SendAgain? {
      ReturnStays(s.tx, |s.free|, e.t);
      TrySendStays(n, e.t, e.time, e.prio);
    } else {
      ReturnStays(s.rx, |s.queue|, e.t);
      TryReceiveStays(n, e.t, e.time, e.prio);
    }
  }

  lemma StaysValid(s: Mq, e: Event)
    requires Valid(s) && CanHappen(s, e)
    ensures Valid(Step(s, e))
  {
    match e
    case Send(t, time, prio) => TrySendStays(s, t, time, prio);
    case Urgent(t) => if s.free != [] { ReserveStays(s, t, true); }
    case Fill(t, msg) => FillStays(s, t, msg);
    case Link(t) => LinkStays(s, t);
    case Receive(t, time, prio) => TryReceiveStays(s, t, time, prio);
    case GiveBack(t) => GiveBackStays(s, t);
    case Reset => ResetStays(s);
    case SendAgain(_, _, _) => AgainStays(s, e);
    case ReceiveAgain(_, _, _) => AgainStays(s, e);
    case _ => WaitersMove(s, e);
  }

  // On every run: every node is free, queued or in one thread's hand, the count is the length of
  // the queue and never overflows, and no wake-up is lost.
  lemma {:induction false} AlwaysValid(s: Mq, es: seq<Event>)
    requires Valid(s) && CanRun(s, es)
    ensures Valid(Run(s, es))
    decreases |es|
  {
    if es != [] {
      StaysValid(s, es[0]);
      AlwaysValid(Step(s, es[0]), es[1..]);
    }
  }

  // ---- the messages ----

  function Contents(queue: seq<Node>, data: map<Node, Message>): seq<Message> {
    if queue == [] then []
    else [if queue[0] in data then data[queue[0]] else 0] + Contents(queue[1..], data)
  }

  function Queued(s: Mq): seq<Message> {
    Contents(s.queue, s.data)
  }

  lemma {:induction false} ContentsFrame(queue: seq<Node>, data: map<Node, Message>, k: Node, msg: Message)
    requires k !in queue
    ensures Contents(queue, data[k := msg]) == Contents(queue, data)
  {
    if queue != [] {
      assert queue[0] in queue && forall j :: j in queue[1..] ==> j in queue;
      ContentsFrame(queue[1..], data, k, msg);
    }
  }

  lemma {:induction false} ContentsAppend(queue: seq<Node>, k: Node, data: map<Node, Message>)
    ensures Contents(queue + [k], data) == Contents(queue, data) + [if k in data then data[k] else 0]
  {
    if queue == [] {
      assert queue + [k] == [k];
    } else {
      assert (queue + [k])[1..] == queue[1..] + [k];
      ContentsAppend(queue[1..], k, data);
    }
  }

  // What a step does to the queue of messages, as senders and receivers see it.
  datatype Change = Nothing | Back(msg: Message) | Front(msg: Message) | Take | Clear

  function ChangeOf(s: Mq, e: Event): Change
    requires CanHappen(s, e)
  {
    match e
    case Link(t) => if s.hands[t].urgent then Front(s.hands[t].msg) else Back(s.hands[t].msg)
    case Receive(_, _, _) => if s.queue != [] then Take else Nothing
    case ReceiveAgain(_, _, _) => if s.queue != [] then Take else Nothing
    case Reset => Clear
    case _ => Nothing
  }

  function Changed(q: seq<Message>, c: Change): seq<Message> {
    match c
    case Nothing => q
    case Back(m) => q + [m]
    case Front(m) => [m] + q
    case Take => if q != [] then q[1..] else q
    case Clear => []
  }

  function PutIn(c: Change): seq<Message> {
    match c
    case Back(m) => [m]
    case Front(m) => [m]
    case _ => []
  }

  // What comes out: the message received, or all those discarded.
  function TakenOut(q: seq<Message>, c: Change): seq<Message> {
    match c
    case Take => if q != [] then [q[0]] else []
    case Clear => q
    case _ => []
  }

  // Every step does to the queue of messages just what its name says: a send appends, an urgent
  // send puts in front, a receive removes the first message and has it in hand.
  lemma StepChanges(s: Mq, e: Event)
    requires Valid(s) && CanHappen(s, e)
    ensures Queued(Step(s, e)) == Changed(Queued(s), ChangeOf(s, e))
    ensures ChangeOf(s, e) == Take ==>
      Queued(s) != [] && e.t in Step(s, e).hands && Step(s, e).hands[e.t] == Reading(s.queue[0], Queued(s)[0])
  {
    match e
    case Fill(t, msg) =>
      var k := s.hands[t].node;
      assert HasNode(s, t, k) && NodeOk(s, k);
      ContentsFrame(s.queue, s.data, k, msg);
    case Link(t) =>
      var k := s.hands[t].node;
      RoomForEntry(s, t);
      assert HandOk(s, t);
      ContentsAppend(s.queue, k, s.data);
      assert ([k] + s.queue)[1..] == s.queue;
    case _ =>
  }

  // What an event says of thread t's message: a call to send says how it is sent, a copy what it is.
  function UrgentBy(e: Event, t: Thread, before: bool): bool {
    if e.Urgent? && e.t == t then true else if (e.Send? || e.SendAgain?) && e.t == t then false else before
  }

  function FilledBy(e: Event, t: Thread, before: Message): Message {
    if e.Fill? && e.t == t then e.msg else before
  }

  function SentUrgently(es: seq<Event>, t: Thread, before: bool): bool {
    if es == [] then before else SentUrgently(es[1..], t, UrgentBy(es[0], t, before))
  }

  function LastFilled(es: seq<Event>, t: Thread, before: Message): Message {
    if es == [] then before else LastFilled(es[1..], t, FilledBy(es[0], t, before))
  }

  ghost predicate Carries(s: Mq, t: Thread, urgent: bool, msg: Message) {
    t in s.hands ==>
      match s.hands[t]
      case Reserved(_, u) => u == urgent
      case Written(_, u, m) => u == urgent && m == msg
      case Reading(_, _) => true
  }

  lemma StepCarries(s: Mq, e: Event, t: Thread, urgent: bool, msg: Message)
    requires Valid(s) && CanHappen(s, e) && Carries(s, t, urgent, msg)
    ensures Carries(Step(s, e), t, UrgentBy(e, t, urgent), FilledBy(e, t, msg))
  {
    assert OneCall(s, t);
    if e.SendAgain? { assert e.t in Ready(s.tx) && e.t in s.tx.inside; }
  }

  lemma {:induction false} CarriesOn(s: Mq, es: seq<Event>, t: Thread, urgent: bool, msg: Message)
    requires Valid(s) && CanRun(s, es) && Carries(s, t, urgent, msg)
    ensures Carries(Run(s, es), t, SentUrgently(es, t, urgent), LastFilled(es, t, msg))
    decreases |es|
  {
    if es != [] {
      StepCarries(s, es[0], t, urgent, msg);
      StaysValid(s, es[0]);
      CarriesOn(Step(s, es[0]), es[1..], t, UrgentBy(es[0], t, urgent), FilledBy(es[0], t, msg));
    }
  }

  // The message a thread links, on any run from a state where it has none in hand, is the one it wrote last,
  // in front if it called rt_mq_urgent and at the back if it called rt_mq_send.
  lemma SentAsWritten(s: Mq, es: seq<Event>, t: Thread)
    requires Valid(s) && CanRun(s, es) && t !in s.hands && CanHappen(Run(s, es), Link(t))
    ensures
      var msg := LastFilled(es, t, 0);
      ChangeOf(Run(s, es), Link(t)) == if SentUrgently(es, t, false) then Front(msg) else Back(msg)
  {
    CarriesOn(s, es, t, false, 0);
  }

  lemma ChangeConserves(q: seq<Message>, c: Change)
    ensures multiset(q) + multiset(PutIn(c)) == multiset(TakenOut(q, c)) + multiset(Changed(q, c))
  {
    if c == Take && q != [] {
      assert q == [q[0]] + q[1..];
    }
  }

  lemma ChangeInOrder(q: seq<Message>, c: Change)
    requires !c.Front?
    ensures q + PutIn(c) == TakenOut(q, c) + Changed(q, c)
  {
  }

  // The changes of a whole run, and what they put in and take out.
  function Changes(s: Mq, es: seq<Event>): seq<Change>
    requires CanRun(s, es)
    decreases |es|
  {
    if es == [] then [] else [ChangeOf(s, es[0])] + Changes(Step(s, es[0]), es[1..])
  }

  function AllChanged(q: seq<Message>, cs: seq<Change>): seq<Message>
    decreases |cs|
  {
    if cs == [] then q else AllChanged(Changed(q, cs[0]), cs[1..])
  }

  function AllPutIn(cs: seq<Change>): seq<Message> {
    if cs == [] then [] else PutIn(cs[0]) + AllPutIn(cs[1..])
  }

  function AllTakenOut(q: seq<Message>, cs: seq<Change>): seq<Message>
    decreases |cs|
  {
    if cs == [] then [] else TakenOut(q, cs[0]) + AllTakenOut(Changed(q, cs[0]), cs[1..])
  }

  // The list of nodes refines the queue of messages: a run leaves in it what its changes, one after
  // the other, make of what was queued.
  lemma {:induction false} RunChanges(s: Mq, es: seq<Event>)
    requires Valid(s) && CanRun(s, es)
    ensures Queued(Run(s, es)) == AllChanged(Queued(s), Changes(s, es))
    decreases |es|
  {
    if es != [] {
      var n := Step(s, es[0]);
      StaysValid(s, es[0]);
      StepChanges(s, es[0]);
      RunChanges(n, es[1..]);
      assert Changes(s, es)[1..] == Changes(n, es[1..]);
    }
  }

  lemma InARow(q: seq<Message>, p: seq<Message>, o: seq<Message>, n: seq<Message>,
               ps: seq<Message>, os: seq<Message>, m: seq<Message>)
    requires q + p == o + n && n + ps == os + m
    ensures q + (p + ps) == (o + os) + m
  {
    assert q + (p + ps) == (q + p) + ps;
    assert (o + n) + ps == o + (n + ps);
    assert (o + os) + m == o + (os + m);
  }

  lemma BagsInARow(q: seq<Message>, p: seq<Message>, o: seq<Message>, n: seq<Message>,
                   ps: seq<Message>, os: seq<Message>, m: seq<Message>)
    requires multiset(q) + multiset(p) == multiset(o) + multiset(n)
    requires multiset(n) + multiset(ps) == multiset(os) + multiset(m)
    ensures multiset(q) + multiset(p + ps) == multiset(o + os) + multiset(m)
  {
    assert multiset(p + ps) == multiset(p) + multiset(ps) && multiset(o + os) == multiset(o) + multiset(os);
    assert multiset(q) + (multiset(p) + multiset(ps)) == (multiset(q) + multiset(p)) + multiset(ps);
    assert (multiset(o) + multiset(n)) + multiset(ps) == multiset(o) + (multiset(n) + multiset(ps));
    assert multiset(o) + (multiset(os) + multiset(m)) == (multiset(o) + multiset(os)) + multiset(m);
  }

  lemma {:induction false} ChangesConserve(q: seq<Message>, cs: seq<Change>)
    ensures multiset(q) + multiset(AllPutIn(cs)) == multiset(AllTakenOut(q, cs)) + multiset(AllChanged(q, cs))
    decreases |cs|
  {
    if cs != [] {
      var c, n := cs[0], Changed(q, cs[0]);
      ChangeConserves(q, c);
      ChangesConserve(n, cs[1..]);
      BagsInARow(q, PutIn(c), TakenOut(q, c), n, AllPutIn(cs[1..]), AllTakenOut(n, cs[1..]), AllChanged(n, cs[1..]));
    }
  }

  lemma {:induction false} ChangesInOrder(q: seq<Message>, cs: seq<Change>)
    requires forall c :: c in cs ==> !c.Front?
    ensures q + AllPutIn(cs) == AllTakenOut(q, cs) + AllChanged(q, cs)
    decreases |cs|
  {
    if cs != [] {
      var c, n := cs[0], Changed(q, cs[0]);
      assert c in cs && forall x :: x in cs[1..] ==> x in cs;
      ChangeInOrder(q, c);
      ChangesInOrder(n, cs[1..]);
      InARow(q, PutIn(c), TakenOut(q, c), n, AllPutIn(cs[1..]), AllTakenOut(n, cs[1..]), AllChanged(n, cs[1..]));
    }
  }

  // No message is lost, duplicated or made up, whatever interleaves with what.
  lemma MessagesAreConserved(s: Mq, es: seq<Event>)
    requires Valid(s) && CanRun(s, es)
    ensures
      multiset(Queued(s)) + multiset(AllPutIn(Changes(s, es)))
        == multiset(AllTakenOut(Queued(s), Changes(s, es))) + multiset(Queued(Run(s, es)))
  {
    RunChanges(s, es);
    ChangesConserve(Queued(s), Changes(s, es));
  }

  ghost predicate NoneUrgent(s: Mq) {
    forall t :: t in s.hands && !s.hands[t].Reading? ==> !s.hands[t].urgent
  }

  lemma {:induction false} NoFronts(s: Mq, es: seq<Event>)
    requires CanRun(s, es) && NoneUrgent(s) && forall e :: e in es ==> !e.Urgent?
    ensures forall c :: c in Changes(s, es) ==> !c.Front?
    decreases |es|
  {
    if es != [] {
      assert es[0] in es && forall x :: x in es[1..] ==> x in es;
      NoFronts(Step(s, es[0]), es[1..]);
    }
  }

  // Without urgent messages, they come out in the order in which they were linked.
  lemma FirstInFirstOut(s: Mq, es: seq<Event>)
    requires Valid(s) && CanRun(s, es) && NoneUrgent(s) && forall e :: e in es ==> !e.Urgent?
    ensures
      Queued(s) + AllPutIn(Changes(s, es)) == AllTakenOut(Queued(s), Changes(s, es)) + Queued(Run(s, es))
  {
    RunChanges(s, es);
    NoFronts(s, es);
    ChangesInOrder(Queued(s), Changes(s, es));
  }
}
