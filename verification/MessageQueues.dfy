// The message queue of rt-thread/src/ipc.c as it is kept: nodes linked through their next pointers,
// with a head, a tail and a free pointer. Each method is one locked region, or the copy between two.
module MessageQueues {
  import opened OrderedQueue
  import opened SuspendLists
  import opened MessageQueueRuns

  const NULL: int := -1

  datatype Links = Links(next: seq<int>, head: int, tail: int, free: int)

  // From `start` the next pointers lead through the nodes xs, and then to NULL.
  ghost predicate Chain(next: seq<int>, start: int, xs: seq<Node>)
    decreases |xs|
  {
    if xs == [] then start == NULL
    else start == xs[0] && xs[0] < |next| && Chain(next, next[xs[0]], xs[1..])
  }

  function Last(xs: seq<Node>): int {
    if xs == [] then NULL else xs[|xs| - 1]
  }

  ghost predicate Shape(l: Links, queue: seq<Node>, free: seq<Node>) {
    Chain(l.next, l.head, queue) && l.tail == Last(queue) && Chain(l.next, l.free, free)
  }

  // ---- pointer steps ----

  lemma {:induction false} ChainFrame(next: seq<int>, start: int, xs: seq<Node>, k: Node, v: int)
    requires Chain(next, start, xs) && k !in xs && k < |next|
    ensures Chain(next[k := v], start, xs)
    decreases |xs|
  {
    if xs != [] {
      assert xs[0] in xs && forall j :: j in xs[1..] ==> j in xs;
      ChainFrame(next, next[xs[0]], xs[1..], k, v);
    }
  }

  lemma {:induction false} ChainAppend(next: seq<int>, start: int, xs: seq<Node>, k: Node)
    requires Chain(next, start, xs) && xs != [] && Distinct(xs) && k !in xs && k < |next| && next[k] == NULL
    ensures xs[|xs| - 1] < |next| && Chain(next[xs[|xs| - 1] := k], start, xs + [k])
    decreases |xs|
  {
    var rest := xs[1..];
    if rest == [] {
      var n := next[xs[0] := k];
      assert xs == [xs[0]] && (xs + [k])[1..] == [k] && [k][1..] == [];
      assert Chain(n, k, [k]);
    } else {
      assert forall j :: j in rest ==> j in xs;
      ChainAppend(next, next[xs[0]], rest, k);
      assert xs[|xs| - 1] == rest[|rest| - 1] && rest[|rest| - 1] in rest;
      assert (xs + [k])[1..] == rest + [k];
    }
  }

  lemma FreeTaken(l: Links, queue: seq<Node>, free: seq<Node>)
    requires Shape(l, queue, free) && free != []
    ensures l.free == free[0] && free[0] < |l.next| && Shape(l.(free := l.next[free[0]]), queue, free[1..])
  {
  }

  // Node k in hand: its next pointer does not matter to either list.
  lemma OutsideSet(l: Links, queue: seq<Node>, free: seq<Node>, k: Node, v: int)
    requires Shape(l, queue, free) && k !in queue && k !in free && k < |l.next|
    ensures Shape(l.(next := l.next[k := v]), queue, free)
  {
    ChainFrame(l.next, l.head, queue, k, v);
    ChainFrame(l.next, l.free, free, k, v);
  }

  function LinkedBack(l: Links, k: Node): Links
    requires l.tail == NULL || 0 <= l.tail < |l.next|
  {
    l.(next := if l.tail != NULL then l.next[l.tail := k] else l.next, tail := k,
       head := if l.head == NULL then k else l.head)
  }

  lemma BackLinked(l: Links, queue: seq<Node>, free: seq<Node>, k: Node)
    requires Shape(l, queue, free) && Distinct(queue) && k !in queue && k < |l.next| && l.next[k] == NULL
    requires forall j :: j in queue ==> j !in free && j < |l.next|
    ensures l.tail == NULL || 0 <= l.tail < |l.next|
    ensures Shape(LinkedBack(l, k), queue + [k], free)
  {
    if queue == [] {
      assert queue + [k] == [k] && [k][1..] == [];
    } else {
      var last := queue[|queue| - 1];
      assert last in queue;
      ChainAppend(l.next, l.head, queue, k);
      ChainFrame(l.next, l.free, free, last, k);
    }
  }

  function LinkedFront(l: Links, k: Node): Links
    requires k < |l.next|
  {
    l.(next := l.next[k := l.head], head := k, tail := if l.tail == NULL then k else l.tail)
  }

  lemma FrontLinked(l: Links, queue: seq<Node>, free: seq<Node>, k: Node)
    requires Shape(l, queue, free) && k !in queue && k !in free && k < |l.next|
    ensures Shape(LinkedFront(l, k), [k] + queue, free)
  {
    OutsideSet(l, queue, free, k, l.head);
    assert ([k] + queue)[1..] == queue;
  }

  function Unlinked(l: Links): Links
    requires 0 <= l.head < |l.next|
  {
    l.(head := l.next[l.head], tail := if l.tail == l.head then NULL else l.tail)
  }

  lemma HeadUnlinked(l: Links, queue: seq<Node>, free: seq<Node>)
    requires Shape(l, queue, free) && queue != [] && Distinct(queue)
    ensures l.head == queue[0] && queue[0] < |l.next| && Shape(Unlinked(l), queue[1..], free)
  {
    var rest := queue[1..];
    if rest != [] {
      assert rest[|rest| - 1] == queue[|queue| - 1] && rest[|rest| - 1] in rest;
    }
  }

  function Freed(l: Links, k: Node): Links
    requires k < |l.next|
  {
    l.(next := l.next[k := l.free], free := k)
  }

  lemma FrontFreed(l: Links, queue: seq<Node>, free: seq<Node>, k: Node)
    requires Shape(l, queue, free) && k !in queue && k !in free && k < |l.next|
    ensures Shape(Freed(l, k), queue, [k] + free)
  {
    OutsideSet(l, queue, free, k, l.free);
    assert ([k] + free)[1..] == free;
  }

  // A message to be appended is the last of its list already.
  ghost predicate Ended(hands: map<Thread, Hand>, next: seq<int>, t: Thread) {
    t in hands && hands[t].Written? && !hands[t].urgent ==> hands[t].node < |next| && next[hands[t].node] == NULL
  }

  ghost predicate AllEnded(hands: map<Thread, Hand>, next: seq<int>) {
    forall t :: Ended(hands, next, t)
  }

  // Pointers of nodes that are in nobody's hand, or only in t's, may change.
  lemma EndedStays(s: Mq, next: seq<int>, next': seq<int>, t: Thread)
    requires Valid(s) && AllEnded(s.hands, next) && |next| == |next'| == s.max
    requires forall k :: 0 <= k < s.max && next'[k] != next[k] ==> k in s.queue || HasNode(s, t, k)
    ensures AllEnded(s.hands - {t}, next')
  {
    var others := s.hands - {t};
    forall u ensures Ended(others, next', u) {
      assert Ended(s.hands, next, u) && Alone(s, t, u);
      if u in s.hands { assert HasNode(s, u, s.hands[u].node) && NodeOk(s, s.hands[u].node); }
    }
  }

  lemma EndedKept(s: Mq, next: seq<int>, next': seq<int>)
    requires Valid(s) && AllEnded(s.hands, next) && |next| == |next'| == s.max
    requires forall k :: 0 <= k < s.max && next'[k] != next[k] ==> k in s.queue
    ensures AllEnded(s.hands, next')
  {
    forall u ensures Ended(s.hands, next', u) {
      assert Ended(s.hands, next, u);
      if u in s.hands { assert HasNode(s, u, s.hands[u].node) && NodeOk(s, s.hands[u].node); }
    }
  }

  lemma EndedWith(hands: map<Thread, Hand>, next: seq<int>, t: Thread, h: Hand)
    requires AllEnded(hands, next) && (h.Written? && !h.urgent ==> h.node < |next| && next[h.node] == NULL)
    ensures AllEnded(hands[t := h], next)
  {
    var more := hands[t := h];
    forall u ensures Ended(more, next, u) { assert Ended(hands, next, u); }
  }

  // ---- a new queue ----

  // The free list rt_mq_init builds.
  function Descending(n: nat): seq<Node> {
    if n == 0 then [] else [n - 1] + Descending(n - 1)
  }

  function Initial(max: nat, data: map<Node, Message>, flag: Flag): Mq {
    var none := Waits([], {}, map[], {});
    Mq(max, Descending(max), [], 0, data, map[], flag, none, none)
  }

  lemma {:induction false} InDescending(n: nat, k: Node)
    ensures k in Descending(n) <==> k < n
  {
    if n > 0 {
      InDescending(n - 1, k);
      assert Descending(n) == [n - 1] + Descending(n - 1);
    }
  }

  lemma {:induction false} DescendingDistinct(n: nat)
    ensures Distinct(Descending(n))
  {
    if n > 0 {
      InDescending(n - 1, n - 1);
      DescendingDistinct(n - 1);
      assert Descending(n)[1..] == Descending(n - 1);
    }
  }

  lemma InitialValid(max: nat, data: map<Node, Message>, flag: Flag)
    requires max <= ENTRY_MAX
    ensures Valid(Initial(max, data, flag))
  {
    var s := Initial(max, data, flag);
    DescendingDistinct(max);
    forall k ensures NodeOk(s, k) {
      InDescending(max, k);
      forall t ensures !HasNode(s, t, k) {}
    }
    forall t, u ensures Alone(s, t, u) {}
    forall t ensures HandOk(s, t) && OneCall(s, t) {}
  }

  // One round of the loop that builds the free list.
  lemma OneMoreFree(next: seq<int>, free: int, n: nat)
    requires n < |next| && Chain(next, free, Descending(n))
    ensures Chain(next[n := free], n, [n] + Descending(n)) && [n] + Descending(n) == Descending(n + 1)
  {
    InDescending(n, n);
    ChainFrame(next, free, Descending(n), n, free);
    assert ([n] + Descending(n))[1..] == Descending(n);
  }

  class MessageQueue {
    const max: nat
    const next: array<int>
    var head: int                      // msg_queue_head
    var tail: int                      // msg_queue_tail
    var free: int                      // msg_queue_free
    var entry: nat
    var data: map<Node, Message>
    var hands: map<Thread, Hand>       // what each caller keeps in its local variable msg
    const rx: SuspendList
    const tx: SuspendList
    ghost var queueNodes: seq<Node>
    ghost var freeNodes: seq<Node>

    ghost function Abs(): Mq
      reads this, rx, tx
    {
      Mq(max, freeNodes, queueNodes, entry, data, hands, rx.flag, rx.Abs(), tx.Abs())
    }

    ghost function Pointers(): Links
      reads this, next
    {
      Links(next[..], head, tail, free)
    }

    ghost predicate Consistent()
      reads this, next, rx, tx
    {
      && rx != tx && rx.flag == tx.flag && next.Length == max
      && Valid(Abs()) && Shape(Pointers(), queueNodes, freeNodes)
      && AllEnded(hands, next[..])
    }

    // rt_mq_init
    constructor (pool: nat, flag: Flag)
      requires pool <= ENTRY_MAX
      ensures Consistent() && Abs() == Initial(pool, map[], flag) && fresh(next) && fresh(rx) && fresh(tx)
    {
      max := pool;
      next := new int[pool];
      head, tail, free, entry, data, hands := NULL, NULL, NULL, 0, map[], map[];
      rx := new SuspendList(flag);
      tx := new SuspendList(flag);
      queueNodes, freeNodes := [], [];
      new;
      BuildFreeList();
      InitialValid(pool, map[], flag);
    }

    method BuildFreeList()
      requires next.Length == max && free == NULL && freeNodes == []
      modifies this`free, this`freeNodes, next
      ensures freeNodes == Descending(max) && Chain(next[..], free, freeNodes)
    {
      var temp := 0;
      while temp < max
        invariant temp <= max && freeNodes == Descending(temp) && Chain(next[..], free, freeNodes)
      {
        ghost var was := next[..];
        OneMoreFree(was, free, temp);
        next[temp] := free;
        assert next[..] == was[temp := free];
        free := temp;
        freeNodes := [temp] + freeNodes;
        temp := temp + 1;
      }
    }

    // ---- the first locked region of a send ----

    method Reserve(t: Thread, urgent: bool)
      requires Shape(Pointers(), queueNodes, freeNodes) && freeNodes != []
      requires AllEnded(hands, next[..])
      modifies this`free, this`freeNodes, this`hands
      ensures Shape(Pointers(), queueNodes, freeNodes) && Abs() == MessageQueueRuns.Reserve(old(Abs()), t, urgent)
      ensures AllEnded(hands, next[..])
    {
      FreeTaken(Pointers(), queueNodes, freeNodes);
      var msg := free;
      free := next[msg];
      freeNodes := freeNodes[1..];
      EndedWith(hands, next[..], t, Reserved(msg, urgent));
      hands := hands[t := Reserved(msg, urgent)];
    }

    // rt_mq_send_wait up to its first unlock
    method Send(t: Thread, time: int, prio: Priorities) returns (r: Result)
      requires Consistent() && CanHappen(Abs(), Event.Send(t, time, prio))
      modifies this, tx
      ensures Consistent() && Abs() == Step(old(Abs()), Event.Send(t, time, prio))
      ensures r == SendResult(old(Abs()), time)
    {
      StaysValid(Abs(), Event.Send(t, time, prio));
      r := TrySend(t, time, prio);
    }

    // The same after a wait that succeeded.
    method SendAgain(t: Thread, time: int, prio: Priorities) returns (r: Result)
      requires Consistent() && CanHappen(Abs(), Event.SendAgain(t, time, prio))
      modifies this, tx
      ensures Consistent() && Abs() == Step(old(Abs()), Event.SendAgain(t, time, prio))
      ensures r == SendResult(old(Abs()), time)
    {
      StaysValid(Abs(), Event.SendAgain(t, time, prio));
      var _ := tx.Leave(t);
      r := TrySend(t, time, prio);
    }

    method TrySend(t: Thread, time: int, prio: Priorities) returns (r: Result)
      requires Shape(Pointers(), queueNodes, freeNodes) && rx != tx && rx.flag == tx.flag && t !in tx.inside
      requires AllEnded(hands, next[..])
      modifies this`free, this`freeNodes, this`hands, tx
      ensures Shape(Pointers(), queueNodes, freeNodes) && Abs() == MessageQueueRuns.TrySend(old(Abs()), t, time, prio)
      ensures AllEnded(hands, next[..])
      ensures r == SendResult(old(Abs()), time)
    {
      if free != NULL {
        Reserve(t, false);
        r := Taken;
      } else if time == 0 {
        r := Full;
      } else {
        tx.Suspend(t, time, prio);
        r := Blocked;
      }
    }

    // rt_mq_urgent up to its first unlock
    method Urgent(t: Thread) returns (r: Result)
      requires Consistent() && CanHappen(Abs(), Event.Urgent(t))
      modifies this
      ensures Consistent() && Abs() == Step(old(Abs()), Event.Urgent(t))
      ensures r == if old(freeNodes) != [] then Taken else Full
    {
      StaysValid(Abs(), Event.Urgent(t));
      if free == NULL {
        return Full;
      }
      Reserve(t, true);
      r := Taken;
    }

    // ---- between the locked regions ----

    // The copy into the node; a node to be appended is marked as the last of its list.
    method Fill(t: Thread, msg: Message)
      requires Consistent() && CanHappen(Abs(), Event.Fill(t, msg))
      modifies this`data, this`hands, next
      ensures Consistent() && Abs() == Step(old(Abs()), Event.Fill(t, msg))
    {
      ghost var s := Abs();
      var k, urgent := hands[t].node, hands[t].urgent;
      StaysValid(s, Event.Fill(t, msg));
      InHandFacts(s, t);
      ghost var before := next[..];
      if !urgent {
        OutsideSet(Pointers(), queueNodes, freeNodes, k, NULL);
        ghost var was := next[..];
        next[k] := NULL;
        assert next[..] == was[k := NULL];
      }
      EndedStays(s, before, next[..], t);
      EndedWith(hands - {t}, next[..], t, Written(k, urgent, msg));
      assert (hands - {t})[t := Written(k, urgent, msg)] == hands[t := Written(k, urgent, msg)];
      data := data[k := msg];
      hands := hands[t := Written(k, urgent, msg)];
    }

    // The message a receiver copies out is the one it unlinked.
    method Copy(t: Thread) returns (msg: Message)
      requires Consistent() && t in hands && hands[t].Reading?
      ensures msg == hands[t].msg
    {
      assert HandOk(Abs(), t);
      msg := if hands[t].node in data then data[hands[t].node] else 0;
    }

    // ---- the second locked region of a send ----

    method Link(t: Thread) returns (r: Result)
      requires Consistent() && CanHappen(Abs(), Event.Link(t))
      modifies this, next, rx
      ensures Consistent() && Abs() == Step(old(Abs()), Event.Link(t)) && r == Done
    {
      ghost var s := Abs();
      StaysValid(s, Event.Link(t));
      RoomForEntry(s, t);
      LinkNode(t);
      if entry < ENTRY_MAX {
        entry := entry + 1;
      } else {
        return Full;
      }
      Wake(rx);
      assert Abs() == Linked(s, t);
      r := Done;
    }

    // Resume the first waiter of one side, if there is one.
    method Wake(w: SuspendList)
      modifies w
      ensures w.Abs() == WakeFirst(old(w.Abs()))
    {
      if w.list != [] {
        var _ := w.Resume();
      }
    }

    method LinkNode(t: Thread)
      requires Consistent() && t in hands && hands[t].Written?
      modifies this`head, this`tail, this`queueNodes, this`hands, next
      ensures Shape(Pointers(), queueNodes, freeNodes) && AllEnded(hands, next[..]) && hands == old(hands) - {t}
      ensures var h := old(hands)[t];
        queueNodes == if h.urgent then [h.node] + old(queueNodes) else old(queueNodes) + [h.node]
    {
      ghost var s := Abs();
      RoomForEntry(s, t);
      InHandFacts(s, t);
      assert Ended(hands, next[..], t);
      ghost var before := next[..];
      if hands[t].urgent {
        LinkFront(hands[t].node);
      } else {
        LinkBack(hands[t].node);
      }
      EndedStays(s, before, next[..], t);
      hands := hands - {t};
    }

    method LinkBack(k: Node)
      requires Shape(Pointers(), queueNodes, freeNodes) && Distinct(queueNodes) && k !in queueNodes
      requires k < next.Length && next[k] == NULL && forall j :: j in queueNodes ==> j !in freeNodes && j < next.Length
      modifies this`head, this`tail, this`queueNodes, next
      ensures Shape(Pointers(), queueNodes, freeNodes) && queueNodes == old(queueNodes) + [k]
      ensures forall j :: 0 <= j < next.Length && next[j] != old(next[j]) ==> j in old(queueNodes)
    {
      BackLinked(Pointers(), queueNodes, freeNodes, k);
      ghost var l := LinkedBack(Pointers(), k);
      if tail != NULL {
        assert tail in queueNodes;
        next[tail] := k;
      }
      tail := k;
      if head == NULL {
        head := k;
      }
      queueNodes := queueNodes + [k];
      assert Pointers() == l;
    }

    method LinkFront(k: Node)
      requires Shape(Pointers(), queueNodes, freeNodes) && k !in queueNodes && k !in freeNodes && k < next.Length
      modifies this`head, this`tail, this`queueNodes, next
      ensures Shape(Pointers(), queueNodes, freeNodes) && queueNodes == [k] + old(queueNodes)
      ensures forall j :: 0 <= j < next.Length && j != k ==> next[j] == old(next[j])
    {
      FrontLinked(Pointers(), queueNodes, freeNodes, k);
      ghost var l := LinkedFront(Pointers(), k);
      next[k] := head;
      head := k;
      if tail == NULL {
        tail := k;
      }
      queueNodes := [k] + queueNodes;
      assert Pointers() == l;
    }

    // ---- receiving ----

    // rt_mq_recv up to its first unlock
    method Receive(t: Thread, time: int, prio: Priorities) returns (r: Result)
      requires Consistent() && CanHappen(Abs(), Event.Receive(t, time, prio))
      modifies this, rx
      ensures Consistent() && Abs() == Step(old(Abs()), Event.Receive(t, time, prio))
      ensures r == ReceiveResult(old(Abs()), time)
    {
      StaysValid(Abs(), Event.Receive(t, time, prio));
      r := TryReceive(t, time, prio);
    }

    method ReceiveAgain(t: Thread, time: int, prio: Priorities) returns (r: Result)
      requires Consistent() && CanHappen(Abs(), Event.ReceiveAgain(t, time, prio))
      modifies this, rx
      ensures Consistent() && Abs() == Step(old(Abs()), Event.ReceiveAgain(t, time, prio))
      ensures r == ReceiveResult(old(Abs()), time)
    {
      StaysValid(Abs(), Event.ReceiveAgain(t, time, prio));
      var _ := rx.Leave(t);
      r := TryReceive(t, time, prio);
    }

    method UnlinkHead() returns (msg: Node)
      requires Shape(Pointers(), queueNodes, freeNodes) && Distinct(queueNodes) && queueNodes != []
      modifies this`head, this`tail, this`queueNodes
      ensures Shape(Pointers(), queueNodes, freeNodes)
      ensures msg == old(queueNodes)[0] && queueNodes == old(queueNodes)[1..]
    {
      HeadUnlinked(Pointers(), queueNodes, freeNodes);
      msg := head;
      head := next[msg];
      if tail == msg {
        tail := NULL;
      }
      queueNodes := queueNodes[1..];
    }

    method TryReceive(t: Thread, time: int, prio: Priorities) returns (r: Result)
      requires Shape(Pointers(), queueNodes, freeNodes) && Distinct(queueNodes) && entry == |queueNodes|
      requires rx != tx && rx.flag == tx.flag && t !in rx.inside
      requires AllEnded(hands, next[..])
      modifies this`head, this`tail, this`entry, this`queueNodes, this`hands, rx
      ensures Shape(Pointers(), queueNodes, freeNodes)
      ensures Abs() == MessageQueueRuns.TryReceive(old(Abs()), t, time, prio)
      ensures AllEnded(hands, next[..])
      ensures r == ReceiveResult(old(Abs()), time)
    {
      if entry == 0 {
        if time == 0 {
          return NoWait;
        }
        rx.Suspend(t, time, prio);
        r := Blocked;
      } else {
        var msg := UnlinkHead();
        if entry > 0 {
          entry := entry - 1;
        }
        EndedWith(hands, next[..], t, Reading(msg, if msg in data then data[msg] else 0));
        hands := hands[t := Reading(msg, if msg in data then data[msg] else 0)];
        r := Taken;
      }
    }

    // The second locked region of a receive.
    method GiveBack(t: Thread)
      requires Consistent() && CanHappen(Abs(), Event.GiveBack(t))
      modifies this, next, tx
      ensures Consistent() && Abs() == Step(old(Abs()), Event.GiveBack(t))
    {
      ghost var s := Abs();
      StaysValid(s, Event.GiveBack(t));
      InHandFacts(s, t);
      ghost var before := next[..];
      PutFree(hands[t].node);
      EndedStays(s, before, next[..], t);
      hands := hands - {t};
      Wake(tx);
    }

    method PutFree(k: Node)
      requires Shape(Pointers(), queueNodes, freeNodes) && k !in queueNodes && k !in freeNodes && k < next.Length
      modifies this`free, this`freeNodes, next
      ensures Shape(Pointers(), queueNodes, freeNodes) && freeNodes == [k] + old(freeNodes)
      ensures forall j :: 0 <= j < next.Length && j != k ==> next[j] == old(next[j])
    {
      FrontFreed(Pointers(), queueNodes, freeNodes, k);
      ghost var l := Freed(Pointers(), k);
      next[k] := free;
      free := k;
      freeNodes := [k] + freeNodes;
      assert Pointers() == l;
    }

    // ---- reset ----

    // rt_mq_control with RT_IPC_CMD_RESET
    method Reset()
      requires Consistent()
      modifies this, next, rx, tx
      ensures Consistent() && Abs() == Step(old(Abs()), Event.Reset)
    {
      ghost var s := Abs();
      StaysValid(s, Event.Reset);
      rx.ResumeAll();
      tx.ResumeAll();
      forall j | j in queueNodes ensures j !in freeNodes && j < next.Length { assert NodeOk(s, j); }
      ghost var before := next[..];
      ReleaseAll();
      entry := 0;
      EndedKept(s, before, next[..]);
    }

    method ReleaseAll()
      requires Shape(Pointers(), queueNodes, freeNodes) && Distinct(queueNodes)
      requires forall j :: j in queueNodes ==> j !in freeNodes && j < next.Length
      modifies this`head, this`tail, this`free, this`queueNodes, this`freeNodes, next
      ensures Shape(Pointers(), queueNodes, freeNodes) && queueNodes == []
      ensures freeNodes == Reversed(old(queueNodes)) + old(freeNodes)
      ensures forall j :: 0 <= j < next.Length && j !in old(queueNodes) ==> next[j] == old(next[j])
    {
      assert Reversed(queueNodes) + freeNodes == Reversed(old(queueNodes)) + old(freeNodes);
      while head != NULL
        invariant Shape(Pointers(), queueNodes, freeNodes) && Distinct(queueNodes)
        invariant forall j :: j in queueNodes ==> j !in freeNodes && j < next.Length && j in old(queueNodes)
        invariant Reversed(queueNodes) + freeNodes == Reversed(old(queueNodes)) + old(freeNodes)
        invariant forall j :: 0 <= j < next.Length && j !in old(queueNodes) ==> next[j] == old(next[j])
        decreases |queueNodes|
      {
        ghost var q, f := queueNodes, freeNodes;
        assert q[0] in q && q[0] !in q[1..] && forall j :: j in q[1..] ==> j in q;
        var msg := UnlinkHead();
        PutFree(msg);
        assert Reversed(q) + f == Reversed(q[1..]) + ([q[0]] + f);
      }
      assert Reversed([]) + freeNodes == freeNodes;
    }
  }

  // A node in hand is a node of the pool on neither list.
  lemma InHandFacts(s: Mq, t: Thread)
    requires Valid(s) && t in s.hands
    ensures s.hands[t].node < s.max && s.hands[t].node !in s.free && s.hands[t].node !in s.queue
    ensures forall j :: j in s.queue ==> j !in s.free && j < s.max
  {
    assert HasNode(s, t, s.hands[t].node) && NodeOk(s, s.hands[t].node);
    forall j | j in s.queue ensures j !in s.free && j < s.max { assert NodeOk(s, j); }
  }
}
