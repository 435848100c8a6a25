// Event sets (rt-thread/src/ipc.c). A set of event flags is the set of its bit numbers; every locked
// region is one step.
module Events {
  import opened OrderedQueue
  import opened SuspendLists

  type Bits = set<nat>

  // event_set and event_info of a thread: the bits and RT_EVENT_FLAG_AND, _OR and _CLEAR.
  datatype Want = Want(bits: Bits, all: bool, any: bool, clear: bool)

  datatype Group = Group(
    bits: Bits,                        // event->set
    want: map<Thread, Want>,
    flag: Flag,
    w: Waits)

  datatype Event =
    | Send(sent: Bits)
    | Receive(t: Thread, wanted: Want, time: int, prio: Priorities)   // rt_event_recv up to rt_schedule
    | Reset
    | Timeout(t: Thread)
    | Resumes(t: Thread)                                              // the rest of one that blocked

  function WantOf(g: Group, t: Thread): Want {
    if t in g.want then g.want[t] else Want({}, false, false, false)
  }

  // RT_EVENT_FLAG_AND takes precedence.
  predicate Satisfied(want: Want, bits: Bits) {
    if want.all then want.bits <= bits else want.any && want.bits * bits != {}
  }

  // What a satisfied thread receives.
  function Received(want: Want, bits: Bits): Bits {
    if want.all then want.bits else want.bits * bits
  }

  // Thread t, satisfied, leaves the list with what it received.
  function Wake(g: Group, t: Thread): Group {
    var want := WantOf(g, t);
    var got := Received(want, g.bits);
    g.(want := g.want[t := want.(bits := got)], w := Apply(g.w, Resume(t)),
       bits := if want.clear then g.bits - got else g.bits)
  }

  // The walk of rt_event_send over the waiters xs.
  function Scan(g: Group, xs: seq<Thread>): Group
    decreases |xs|
  {
    if xs == [] then g
    else if Satisfied(WantOf(g, xs[0]), g.bits) then Scan(Wake(g, xs[0]), xs[1..])
    else Scan(g, xs[1..])
  }

  function Sent(g: Group, sent: Bits): Group {
    if sent == {} then g
    else
      var u := g.(bits := g.bits + sent);
      Scan(u, u.w.list)
  }

  datatype Result = Done | NoWait | Blocked | Refused | Invalid

  function ReceiveResult(g: Group, wanted: Want, time: int): Result {
    if wanted.bits == {} then Refused
    else if Satisfied(wanted, g.bits) then Done
    else if time == 0 then NoWait
    else Blocked
  }

  function ReceiveStep(g: Group, t: Thread, wanted: Want, time: int, prio: Priorities): Group {
    if wanted.bits == {} then g
    else if Satisfied(wanted, g.bits) then
      g.(want := g.want[t := wanted.(bits := g.bits * wanted.bits)],
         bits := if wanted.clear then g.bits - wanted.bits else g.bits)
    else if time == 0 then g
    else g.(want := g.want[t := wanted], w := Apply(g.w, Suspend(t, time, prio, g.flag)))
  }

  function Step(g: Group, e: Event): Group {
    match e
    case Send(sent) => Sent(g, sent)
    case Receive(t, wanted, time, prio) => ReceiveStep(g, t, wanted, time, prio)
    case Reset => g.(bits := {}, w := ApplyAll(g.w, FailAll(g.w.list)))
    case Timeout(t) => g.(w := Apply(g.w, Expire(t)))
    case Resumes(t) => g.(w := Apply(g.w, Return(t)))
  }

  // rt_event_recv asserts that one of the two options is given.
  ghost predicate CanHappen(g: Group, e: Event) {
    match e
    case Receive(t, wanted, _, _) => t !in g.w.inside && (wanted.all || wanted.any)
    case Timeout(t) => t in g.w.armed
    case Resumes(t) => t in g.w.inside && t !in g.w.list
    case _ => true
  }

  function Run(g: Group, es: seq<Event>): Group
    decreases |es|
  {
    if es == [] then g else Run(Step(g, es[0]), es[1..])
  }

  ghost predicate CanRun(g: Group, es: seq<Event>)
    decreases |es|
  {
    es == [] || (CanHappen(g, es[0]) && CanRun(Step(g, es[0]), es[1..]))
  }

  // ---- what every step keeps ----

  ghost predicate Asks(g: Group, t: Thread) {
    WantOf(g, t).bits != {} && (WantOf(g, t).all || WantOf(g, t).any)
  }

  ghost predicate WantsOk(g: Group) {
    && WellFormed(g.w)
    && (forall t :: t in g.w.list ==> Asks(g, t))
    // a thread on its way back with success has something to return
    && (forall t :: t in g.w.inside && t !in g.w.list && ErrorOf(g.w, t) == Ok ==> WantOf(g, t).bits != {})
  }

  // No waiter's condition is met.
  ghost predicate Quiet(g: Group) {
    forall t :: t in g.w.list ==> !Satisfied(WantOf(g, t), g.bits)
  }

  ghost predicate Valid(g: Group) {
    WantsOk(g) && Quiet(g)
  }

  // ---- sending ----

  lemma WakeKeeps(g: Group, t: Thread)
    requires WantsOk(g) && t in g.w.list && Satisfied(WantOf(g, t), g.bits)
    ensures WantsOk(Wake(g, t)) && Wake(g, t).bits <= g.bits && Wake(g, t).flag == g.flag
    ensures forall y :: y in Wake(g, t).w.list <==> y in g.w.list && y != t
    ensures forall y :: y != t ==> WantOf(Wake(g, t), y) == WantOf(g, y)
  {
    var n := Wake(g, t);
    assert Asks(g, t);
    StaysWellFormed(g.w, Resume(t));
    forall y ensures y in n.w.list <==> y in g.w.list && y != t { InRemoved(g.w.list, t, y); }
    forall y | y in n.w.list ensures Asks(n, y) { assert Asks(g, y); }
  }

  // The walk over the waiters xs, the rest of the list: those before it, unsatisfied, stay so, and
  // the others end up unsatisfied or woken.
  lemma {:induction false} ScanSettles(g: Group, xs: seq<Thread>)
    requires WantsOk(g) && Distinct(xs) && forall t :: t in xs ==> t in g.w.list
    requires forall t :: t in g.w.list && t !in xs ==> !Satisfied(WantOf(g, t), g.bits)
    ensures Valid(Scan(g, xs)) && Scan(g, xs).bits <= g.bits && Scan(g, xs).flag == g.flag
    ensures forall t :: t in Scan(g, xs).w.list ==> t in g.w.list
    decreases |xs|
  {
    if xs != [] {
      var t := xs[0];
      assert t in xs && forall y :: y in xs[1..] ==> y in xs;
      if Satisfied(WantOf(g, t), g.bits) {
        WakeKeeps(g, t);
        ScanSettles(Wake(g, t), xs[1..]);
      } else {
        ScanSettles(g, xs[1..]);
      }
    }
  }

  // What a walk gives a waiter: nothing, or a non-empty part of what it asked for that was there to
  // give; all of it if it asked for all.
  ghost predicate Served(g: Group, n: Group, t: Thread) {
    && t !in n.w.list && ErrorOf(n.w, t) == ErrorOf(g.w, t) && (t in n.w.inside <==> t in g.w.inside)
    && WantOf(n, t).bits != {} && WantOf(n, t).bits <= WantOf(g, t).bits && WantOf(n, t).bits <= g.bits
    && (WantOf(g, t).all ==> WantOf(n, t).bits == WantOf(g, t).bits)
    && WantOf(n, t).all == WantOf(g, t).all && WantOf(n, t).clear == WantOf(g, t).clear
  }

  ghost predicate Untouched(g: Group, n: Group, t: Thread) {
    && WantOf(n, t) == WantOf(g, t) && (t in n.w.list <==> t in g.w.list)
    && ErrorOf(n.w, t) == ErrorOf(g.w, t) && (t in n.w.inside <==> t in g.w.inside)
  }

  lemma {:induction false} ScanServes(g: Group, xs: seq<Thread>, t: Thread)
    requires WantsOk(g) && Distinct(xs) && forall y :: y in xs ==> y in g.w.list
    ensures t !in xs ==> Untouched(g, Scan(g, xs), t)
    ensures t in xs ==> Untouched(g, Scan(g, xs), t) || Served(g, Scan(g, xs), t)
    decreases |xs|
  {
    if xs != [] {
      var x := xs[0];
      assert x in xs && forall y :: y in xs[1..] ==> y in xs;
      assert t in xs <==> t == x || t in xs[1..];
      if Satisfied(WantOf(g, x), g.bits) {
        assert Asks(g, x);
        WakeKeeps(g, x);
        ScanServes(Wake(g, x), xs[1..], t);
      } else {
        ScanServes(g, xs[1..], t);
      }
    }
  }

  // One send: afterwards no waiter's condition is met, and every waiter is either where it was or
  // woken with a non-empty part of what it asked for.
  lemma SendServes(g: Group, sent: Bits, t: Thread)
    requires Valid(g)
    ensures Valid(Sent(g, sent))
    ensures
      var u := g.(bits := g.bits + sent);
      if t in g.w.list then Untouched(g, Sent(g, sent), t) || Served(u, Sent(g, sent), t)
      else Untouched(g, Sent(g, sent), t)
  {
    if sent != {} {
      var u := g.(bits := g.bits + sent);
      assert WantsOk(u) by { forall y | y in u.w.list ensures Asks(u, y) { assert Asks(g, y); } }
      ScanSettles(u, u.w.list);
      ScanServes(u, u.w.list, t);
    }
  }

  // A flag is consumed once: what a woken thread clears no thread behind it in the list receives,
  // although both are woken by the same send.
  lemma {:induction false} ClearedOnce(g: Group, xs: seq<Thread>, i: nat, j: nat)
    requires WantsOk(g) && Distinct(xs) && (forall y :: y in xs ==> y in g.w.list)
    requires i < j < |xs| && WantOf(g, xs[i]).clear
    ensures
      var n := Scan(g, xs);
      xs[i] !in n.w.list && xs[j] !in n.w.list ==> WantOf(n, xs[i]).bits !! WantOf(n, xs[j]).bits
    decreases |xs|
  {
    var x := xs[0];
    var n := Scan(g, xs);
    assert x in xs && forall y :: y in xs[1..] ==> y in xs;
    assert xs[1..][j - 1] == xs[j];
    assert xs[j] in xs[1..];
    if i > 0 {
      assert xs[1..][i - 1] == xs[i];
      assert xs[i] in xs[1..];
    }
    if Satisfied(WantOf(g, x), g.bits) {
      var u := Wake(g, x);
      WakeKeeps(g, x);
      if i > 0 {
        ClearedOnce(u, xs[1..], i - 1, j - 1);
      } else {
        ScanServes(u, xs[1..], x);
        ScanServes(u, xs[1..], xs[j]);
      }
    } else {
      if i > 0 {
        ClearedOnce(g, xs[1..], i - 1, j - 1);
      } else {
        ScanServes(g, xs[1..], x);
      }
    }
  }

  // What the threads of xs before number i leave of the flags: all but those that woken ones among them
  // clear. Read off the outcome n.
  ghost function LeftFor(n: Group, xs: seq<Thread>, i: nat, bits: Bits): Bits
    requires i <= |xs|
  {
    if i == 0 then bits
    else
      LeftFor(n, xs, i - 1, bits) -
      if xs[i - 1] !in n.w.list && WantOf(n, xs[i - 1]).clear then WantOf(n, xs[i - 1]).bits else {}
  }

  lemma {:induction false} LeftBehind(n: Group, xs: seq<Thread>, i: nat, bits: Bits)
    requires i < |xs|
    ensures LeftFor(n, xs, i + 1, bits) == LeftFor(n, xs[1..], i, LeftFor(n, xs, 1, bits))
  {
    if i > 0 { LeftBehind(n, xs, i - 1, bits); }
  }

  // Thread number i of a walk over xs is woken exactly if its condition is met by what those before it
  // leave, and receives just its flags among them.
  ghost predicate ServedExactly(g: Group, n: Group, xs: seq<Thread>, i: nat, bits: Bits)
    requires i < |xs|
  {
    var want, left := WantOf(g, xs[i]), LeftFor(n, xs, i, bits);
    && (xs[i] !in n.w.list <==>
          if want.all then want.bits <= left else want.any && exists k :: k in want.bits && k in left)
    && (xs[i] !in n.w.list ==> WantOf(n, xs[i]).bits == want.bits * left && WantOf(n, xs[i]).clear == want.clear)
  }

  lemma {:induction false} ScanExact(g: Group, xs: seq<Thread>)
    requires WantsOk(g) && Distinct(xs) && forall y :: y in xs ==> y in g.w.list
    ensures Scan(g, xs).bits == LeftFor(Scan(g, xs), xs, |xs|, g.bits)
    ensures forall i: nat :: i < |xs| ==> ServedExactly(g, Scan(g, xs), xs, i, g.bits)
    decreases |xs|
  {
    if xs != [] {
      var x, n := xs[0], Scan(g, xs);
      assert x in xs && forall y :: y in xs[1..] ==> y in xs;
      var u := if Satisfied(WantOf(g, x), g.bits) then Wake(g, x) else g;
      if Satisfied(WantOf(g, x), g.bits) { WakeKeeps(g, x); }
      ScanServes(u, xs[1..], x);
      ScanExact(u, xs[1..]);
      FirstServed(g, xs);
      LeftBehind(n, xs, |xs| - 1, g.bits);
      forall i: nat | i < |xs| ensures ServedExactly(g, n, xs, i, g.bits) {
        if i > 0 {
          LeftBehind(n, xs, i - 1, g.bits);
          assert ServedExactly(u, n, xs[1..], i - 1, u.bits) && xs[1..][i - 1] == xs[i];
          assert xs[i] in xs[1..];
        }
      }
    }
  }

  lemma FirstServed(g: Group, xs: seq<Thread>)
    requires WantsOk(g) && Distinct(xs) && xs != [] && forall y :: y in xs ==> y in g.w.list
    ensures
      var n, want := Scan(g, xs), WantOf(g, xs[0]);
      && ServedExactly(g, n, xs, 0, g.bits)
      && LeftFor(n, xs, 1, g.bits) == if Satisfied(want, g.bits) then Wake(g, xs[0]).bits else g.bits
  {
    var x, want := xs[0], WantOf(g, xs[0]);
    assert x in xs && forall y :: y in xs[1..] ==> y in xs;
    if Satisfied(want, g.bits) {
      WakeKeeps(g, x);
      ScanServes(Wake(g, x), xs[1..], x);
      if !want.all {
        assert want.bits * g.bits != {};
        var k :| k in want.bits * g.bits;
        assert k in want.bits && k in g.bits;
      } else {
        assert want.bits * g.bits == want.bits;
      }
    } else {
      ScanServes(g, xs[1..], x);
      if !want.all && want.any {
        forall k ensures !(k in want.bits && k in g.bits) { assert k !in want.bits * g.bits; }
      }
    }
  }

  // After a send the set is the old one and the flags sent, less just what woken threads that clear have
  // received; and each waiter in turn is woken and served by what those before it left.
  lemma SendLeaves(g: Group, sent: Bits)
    requires Valid(g) && sent != {}
    ensures Sent(g, sent).bits == LeftFor(Sent(g, sent), g.w.list, |g.w.list|, g.bits + sent)
    ensures forall i: nat :: i < |g.w.list| ==> ServedExactly(g, Sent(g, sent), g.w.list, i, g.bits + sent)
  {
    var u := g.(bits := g.bits + sent);
    assert WantsOk(u) by { forall y | y in u.w.list ensures Asks(u, y) { assert Asks(g, y); } }
    ScanExact(u, u.w.list);
    forall i: nat | i < |g.w.list| ensures ServedExactly(g, Sent(g, sent), g.w.list, i, g.bits + sent) {
      assert ServedExactly(u, Sent(g, sent), u.w.list, i, u.bits);
    }
  }

  lemma {:induction false} Unspoilt(n: Group, xs: seq<Thread>, i: nat, bits: Bits, wanted: Bits)
    requires i <= |xs|
    requires forall j :: 0 <= j < i && xs[j] !in n.w.list && WantOf(n, xs[j]).clear ==> WantOf(n, xs[j]).bits !! wanted
    ensures LeftFor(n, xs, i, bits) * wanted == bits * wanted
  {
    if i > 0 { Unspoilt(n, xs, i - 1, bits, wanted); }
  }

  // So no flag is lost to a waiter: if its condition is met by the old set and what is sent, and nobody
  // woken before it has cleared a flag it asks for, it is woken too.
  lemma NothingVanishes(g: Group, sent: Bits, i: nat)
    requires Valid(g) && sent != {} && i < |g.w.list|
    requires
      var want, bits := WantOf(g, g.w.list[i]), g.bits + sent;
      if want.all then want.bits <= bits else want.any && exists k :: k in want.bits && k in bits
    requires
      var n, xs, want := Sent(g, sent), g.w.list, WantOf(g, g.w.list[i]);
      forall j :: 0 <= j < i && xs[j] !in n.w.list && WantOf(n, xs[j]).clear ==> WantOf(n, xs[j]).bits !! want.bits
    ensures g.w.list[i] !in Sent(g, sent).w.list
  {
    var n, xs, want, bits := Sent(g, sent), g.w.list, WantOf(g, g.w.list[i]), g.bits + sent;
    SendLeaves(g, sent);
    assert ServedExactly(g, n, xs, i, bits);
    Unspoilt(n, xs, i, bits, want.bits);
    var left := LeftFor(n, xs, i, bits);
    forall k | k in want.bits ensures k in left <==> k in bits {
      assert k in left * want.bits <==> k in bits * want.bits;
    }
  }

  // ---- receiving ----

  // A receive is refused without flags to ask for, succeeds at once exactly if its condition is met, and
  // otherwise waits exactly if it is willing to, for a time or for ever.
  lemma ReceiveWaits(g: Group, t: Thread, wanted: Want, time: int, prio: Priorities)
    requires Valid(g) && t !in g.w.inside && (wanted.all || wanted.any)
    ensures
      var met := if wanted.all then wanted.bits <= g.bits else exists k :: k in wanted.bits && k in g.bits;
      && (ReceiveResult(g, wanted, time) == Refused <==> wanted.bits == {})
      && (ReceiveResult(g, wanted, time) == Done <==> wanted.bits != {} && met)
      && (ReceiveResult(g, wanted, time) == Blocked <==> wanted.bits != {} && !met && time != 0)
    ensures
      var n, r := ReceiveStep(g, t, wanted, time, prio), ReceiveResult(g, wanted, time);
      && t !in g.w.list && (t in n.w.list <==> r == Blocked)
      && (if r == Blocked then ComesToWait(g.w, n.w, t, time) && WantOf(n, t) == wanted else n.w == g.w)
      && (r == Done ==> WantOf(n, t).bits == wanted.bits * g.bits)
      && (forall k :: k in n.bits <==> k in g.bits && !(r == Done && wanted.clear && k in wanted.bits))
      && (forall y :: y != t ==> WantOf(n, y) == WantOf(g, y))
  {
    SuspendWaits(g.w, t, time, prio, g.flag);
    if !wanted.all {
      if wanted.bits * g.bits != {} {
        var k :| k in wanted.bits * g.bits;
        assert k in wanted.bits && k in g.bits;
      } else {
        forall k ensures !(k in wanted.bits && k in g.bits) { assert k !in wanted.bits * g.bits; }
      }
    }
    assert g.bits * wanted.bits == wanted.bits * g.bits;
  }

  // ---- every run ----

  lemma ReceiveValid(g: Group, t: Thread, wanted: Want, time: int, prio: Priorities)
    requires Valid(g) && t !in g.w.inside && (wanted.all || wanted.any)
    ensures Valid(ReceiveStep(g, t, wanted, time, prio))
  {
    var n := ReceiveStep(g, t, wanted, time, prio);
    if wanted.bits == {} || (!Satisfied(wanted, g.bits) && time == 0) {
    } else if Satisfied(wanted, g.bits) {
      forall y | y in n.w.list ensures Asks(n, y) { assert Asks(g, y); }
    } else {
      StaysWellFormed(g.w, Suspend(t, time, prio, g.flag));
      forall y ensures y in n.w.list <==> y in g.w.list || y == t { InEnqueued(g.w.list, prio, t, g.flag, y); }
      forall y | y in n.w.list ensures Asks(n, y) { assert y != t ==> Asks(g, y); }
    }
  }

  lemma StaysValid(g: Group, e: Event)
    requires Valid(g) && CanHappen(g, e)
    ensures Valid(Step(g, e))
  {
    var n := Step(g, e);
    match e
    case Send(sent) => SendServes(g, sent, 0);
    case Receive(t, wanted, time, prio) => ReceiveValid(g, t, wanted, time, prio);
    case Reset => FailAllEmpties(g.w);
    case Timeout(t) =>
      StaysWellFormed(g.w, Expire(t));
      forall y ensures y in n.w.list <==> y in g.w.list && y != t { InRemoved(g.w.list, t, y); }
      forall y | y in n.w.list ensures Asks(n, y) { assert Asks(g, y); }
    case Resumes(t) =>
      StaysWellFormed(g.w, Return(t));
      forall y | y in n.w.list ensures Asks(n, y) { assert Asks(g, y); }
  }

  // In every reachable state no suspended thread's condition is met by the flags that are set.
  lemma {:induction false} AlwaysValid(g: Group, es: seq<Event>)
    requires Valid(g) && CanRun(g, es)
    ensures Valid(Run(g, es))
    decreases |es|
  {
    if es != [] {
      StaysValid(g, es[0]);
      AlwaysValid(Step(g, es[0]), es[1..]);
    }
  }

  // ---- whose turn it is ----

  // The wake-ups of a walk.
  function WakeOps(g: Group, xs: seq<Thread>): seq<Op>
    decreases |xs|
  {
    if xs == [] then []
    else if Satisfied(WantOf(g, xs[0]), g.bits) then [Resume(xs[0])] + WakeOps(Wake(g, xs[0]), xs[1..])
    else WakeOps(g, xs[1..])
  }

  lemma {:induction false} ScanOps(g: Group, xs: seq<Thread>)
    requires WantsOk(g) && Distinct(xs) && forall t :: t in xs ==> t in g.w.list
    ensures AllEnabled(g.w, WakeOps(g, xs)) && Scan(g, xs).w == ApplyAll(g.w, WakeOps(g, xs))
    ensures forall op :: op in WakeOps(g, xs) ==> op.Resume?
    decreases |xs|
  {
    if xs != [] {
      var x := xs[0];
      assert x in xs && forall y :: y in xs[1..] ==> y in xs;
      if Satisfied(WantOf(g, x), g.bits) {
        WakeKeeps(g, x);
        ScanOps(Wake(g, x), xs[1..]);
        assert WakeOps(g, xs)[1..] == WakeOps(Wake(g, x), xs[1..]);
      } else {
        ScanOps(g, xs[1..]);
      }
    }
  }

  // What a step does to the suspend list.
  function WaitOps(g: Group, e: Event): seq<Op> {
    match e
    case Send(sent) => if sent == {} then [] else WakeOps(g.(bits := g.bits + sent), g.w.list)
    case Receive(t, wanted, time, prio) =>
      if wanted.bits == {} || Satisfied(wanted, g.bits) || time == 0 then [] else [Suspend(t, time, prio, g.flag)]
    case Reset => FailAll(g.w.list)
    case Timeout(t) => [Expire(t)]
    case Resumes(t) => [Return(t)]
  }

  lemma OpsFacts(g: Group, e: Event)
    requires Valid(g) && CanHappen(g, e)
    ensures AllEnabled(g.w, WaitOps(g, e)) && Step(g, e).w == ApplyAll(g.w, WaitOps(g, e)) && Step(g, e).flag == g.flag
    ensures forall op :: op in WaitOps(g, e) && op.Suspend? ==> e.Receive? && op.flag == g.flag && op.prio == e.prio
  {
    if e.Reset? {
      FailAllEmpties(g.w);
      NoSuspends(g.w.list);
    } else if e.Send? {
      var u := g.(bits := g.bits + e.sent);
      assert WantsOk(u) by { forall y | y in u.w.list ensures Asks(u, y) { assert Asks(g, y); } }
      ScanOps(u, u.w.list);
      ScanSettles(u, u.w.list);
    } else if WaitOps(g, e) != [] {
      var op := WaitOps(g, e)[0];
      assert WaitOps(g, e)[1..] == [];
      assert ApplyAll(Apply(g.w, op), []) == Apply(g.w, op) && AllEnabled(Apply(g.w, op), []);
    }
  }

  function AllOps(g: Group, es: seq<Event>): seq<Op>
    decreases |es|
  {
    if es == [] then [] else WaitOps(g, es[0]) + AllOps(Step(g, es[0]), es[1..])
  }

  ghost predicate Steady(es: seq<Event>, prio: Priorities) {
    forall e :: e in es && e.Receive? ==> e.prio == prio
  }

  lemma {:induction false} RunsOnOps(g: Group, es: seq<Event>)
    requires Valid(g) && CanRun(g, es)
    ensures AllEnabled(g.w, AllOps(g, es)) && Run(g, es).w == ApplyAll(g.w, AllOps(g, es))
    decreases |es|
  {
    if es != [] {
      OpsFacts(g, es[0]);
      StaysValid(g, es[0]);
      RunsOnOps(Step(g, es[0]), es[1..]);
      ApplyConcat(g.w, WaitOps(g, es[0]), AllOps(Step(g, es[0]), es[1..]));
    }
  }

  lemma {:induction false} OpsSteady(g: Group, es: seq<Event>, prio: Priorities)
    requires Valid(g) && CanRun(g, es) && (g.flag == Prio ==> Steady(es, prio))
    ensures forall op :: op in AllOps(g, es) && op.Suspend? ==>
        op.flag == g.flag && (g.flag == Prio ==> op.prio == prio)
    decreases |es|
  {
    if es != [] {
      OpsFacts(g, es[0]);
      StaysValid(g, es[0]);
      OpsSteady(Step(g, es[0]), es[1..], prio);
    }
  }

  // On every run a send looks at the waiters in order of priority and, among equals, in order of
  // arrival; where the flag asks for first come, first served, in order of arrival alone.
  lemma ScannedInTurn(g: Group, es: seq<Event>, prio: Priorities, i: nat, j: nat)
    requires Valid(g) && g.w.list == [] && CanRun(g, es) && (g.flag == Prio ==> Steady(es, prio))
    requires i < j < |Run(g, es).w.list|
    ensures
      var list := Run(g, es).w.list;
      Precedes(Keys(prio, g.flag), Arrivals(AllOps(g, es), map[], 0), list[i], list[j])
  {
    RunsOnOps(g, es);
    OpsSteady(g, es, prio);
    StaysInTurn(g.w, AllOps(g, es), prio, g.flag, map[], 0);
    InTurnAt(Run(g, es).w.list, Keys(prio, g.flag), Arrivals(AllOps(g, es), map[], 0), i, j);
  }

  // Event e is a receive by t that is answered Blocked.
  predicate Blocks(g: Group, e: Event, t: Thread) {
    e.Receive? && e.t == t && ReceiveResult(g, e.wanted, e.time) == Blocked
  }

  // Event e ends a wait of t: a send takes it off the list, its time is over, or the event is reset.
  predicate Ends(g: Group, e: Event, t: Thread) {
    match e
    case Send(sent) => t in g.w.list && t !in Sent(g, sent).w.list
    case Timeout(x) => x == t
    case Reset => t in g.w.list
    case _ => false
  }

  function BlockCount(g: Group, es: seq<Event>, t: Thread): nat
    decreases |es|
  {
    if es == [] then 0 else (if Blocks(g, es[0], t) then 1 else 0) + BlockCount(Step(g, es[0]), es[1..], t)
  }

  function EndCount(g: Group, es: seq<Event>, t: Thread): nat
    decreases |es|
  {
    if es == [] then 0 else (if Ends(g, es[0], t) then 1 else 0) + EndCount(Step(g, es[0]), es[1..], t)
  }

  lemma WaitingChanges(g: Group, e: Event, t: Thread)
    requires Valid(g) && CanHappen(g, e)
    ensures Ends(g, e, t) ==> t in g.w.list
    ensures Blocks(g, e, t) ==> t !in g.w.list
    ensures t in Step(g, e).w.list <==> Blocks(g, e, t) || (t in g.w.list && !Ends(g, e, t))
  {
    match e
    case Send(sent) => SendServes(g, sent, t);
    case Receive(x, wanted, time, prio) => ReceiveWaits(g, x, wanted, time, prio);
    case Reset => FailAllEmpties(g.w);
    case Timeout(x) => InRemoved(g.w.list, x, t);
    case Resumes(_) =>
  }

  // On every run, of the receives of t answered Blocked each has ended once, but for the one that still
  // waits.
  lemma {:induction false} BlockedReceivesEnd(g: Group, es: seq<Event>, t: Thread)
    requires Valid(g) && CanRun(g, es)
    ensures
      BlockCount(g, es, t) + (if t in g.w.list then 1 else 0)
        == EndCount(g, es, t) + if t in Run(g, es).w.list then 1 else 0
    decreases |es|
  {
    if es != [] {
      WaitingChanges(g, es[0], t);
      StaysValid(g, es[0]);
      BlockedReceivesEnd(Step(g, es[0]), es[1..], t);
    }
  }

  // Each blocked receive ends in exactly one wake-up, timeout or reset, and returns what it ended in.
  lemma WaitsEndOnce(g: Group, es: seq<Event>, t: Thread)
    requires Valid(g) && CanRun(g, es) && t !in g.w.inside
    ensures Balanced(Run(g, es).w, t, TalliedAll(g.w, AllOps(g, es), t, Tally(0, 0, 0, 0, 0, 0, 0)))
  {
    RunsOnOps(g, es);
    OneEndPerWait(g.w, AllOps(g, es), t, Tally(0, 0, 0, 0, 0, 0, 0));
  }

  // ---- the event object in place ----

  class EventObject {
    var bits: Bits
    var want: map<Thread, Want>
    const waiting: SuspendList

    ghost function Abs(): Group
      reads this, waiting
    {
      Group(bits, want, waiting.flag, waiting.Abs())
    }

    constructor (flag: Flag)
      ensures Valid(Abs()) && Abs() == Group({}, map[], flag, Waits([], {}, map[], {})) && fresh(waiting)
    {
      bits, want := {}, map[];
      waiting := new SuspendList(flag);
    }

    // rt_event_send. -RT_EINVAL, for a waiter with neither option, is never returned.
    method Send(sent: Bits) returns (r: Result)
      requires Valid(Abs())
      modifies this, waiting
      ensures Valid(Abs()) && Abs() == Step(old(Abs()), Event.Send(sent))
      ensures r == if sent == {} then Refused else Done
    {
      if sent == {} {
        return Refused;
      }
      SendServes(Abs(), sent, 0);
      bits := bits + sent;
      ghost var u := Abs();
      assert WantsOk(u) by { forall y | y in u.w.list ensures Asks(u, y) { assert Asks(old(Abs()), y); } }
      var n := 0;
      assert waiting.list[n..] == waiting.list;
      while n != |waiting.list|
        invariant n <= |waiting.list| && WantsOk(Abs())
        invariant Scan(u, u.w.list) == Scan(Abs(), waiting.list[n..])
        decreases |waiting.list| - n
      {
        var thread := waiting.list[n];
        assert Asks(Abs(), thread);
        assert waiting.list[n..][1..] == waiting.list[n + 1..];
        var info := want[thread];
        if info.all {
          if info.bits * bits == info.bits {
            assert info.bits <= bits;
            Satisfy(thread, n);
          } else {
            assert !(info.bits <= bits);
            n := n + 1;
          }
        } else if info.any {
          if info.bits * bits != {} {
            Satisfy(thread, n);
          } else {
            n := n + 1;
          }
        } else {
          return Invalid;
        }
      }
      assert waiting.list[n..] == [];
      r := Done;
    }

    // The thread found satisfied at position n receives its events and is resumed, so the next one
    // takes its place.
    method Satisfy(thread: Thread, n: nat)
      requires WantsOk(Abs()) && n < |waiting.list| && waiting.list[n] == thread && thread in want
      requires Satisfied(want[thread], bits)
      modifies this, waiting`list, waiting`armed
      ensures WantsOk(Abs()) && Abs() == Wake(old(Abs()), thread)
      ensures n <= |waiting.list| && |waiting.list| == |old(waiting.list)| - 1
      ensures waiting.list[n..] == old(waiting.list)[n + 1..]
    {
      WakeKeeps(Abs(), thread);
      RemovedByPosition(waiting.list, n);
      var info := want[thread];
      if !info.all {
        info := info.(bits := info.bits * bits);
      }
      want := want[thread := info];
      if info.clear {
        bits := bits - info.bits;
      }
      waiting.ResumeThread(thread);
    }

    // rt_event_recv up to its call of rt_schedule; recved is what it reports at once.
    method Receive(t: Thread, wanted: Want, time: int, prio: Priorities) returns (r: Result, recved: Bits)
      requires Valid(Abs()) && CanHappen(Abs(), Event.Receive(t, wanted, time, prio))
      modifies this, waiting
      ensures Valid(Abs()) && Abs() == Step(old(Abs()), Event.Receive(t, wanted, time, prio))
      ensures r == ReceiveResult(old(Abs()), wanted, time)
      ensures recved == if r == Done then wanted.bits * old(bits) else {}
    {
      ReceiveValid(Abs(), t, wanted, time, prio);
      recved := {};
      if wanted.bits == {} {
        return Refused, {};
      }
      var status := if wanted.all then bits * wanted.bits == wanted.bits else bits * wanted.bits != {};
      assert wanted.all ==> (bits * wanted.bits == wanted.bits <==> wanted.bits <= bits);
      assert wanted.bits * bits == bits * wanted.bits;
      if status {
        recved := bits * wanted.bits;
        want := want[t := wanted.(bits := bits * wanted.bits)];
        if wanted.clear {
          bits := bits - wanted.bits;
        }
        r := Done;
      } else if time == 0 {
        r := NoWait;
      } else {
        want := want[t := wanted];
        waiting.Suspend(t, time, prio);
        r := Blocked;
      }
    }

    // rt_event_control with RT_IPC_CMD_RESET
    method Reset()
      requires Valid(Abs())
      modifies this, waiting
      ensures Valid(Abs()) && Abs() == Step(old(Abs()), Event.Reset)
    {
      StaysValid(Abs(), Event.Reset);
      waiting.ResumeAll();
      bits := {};
    }
  }
}
