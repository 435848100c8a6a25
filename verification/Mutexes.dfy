// Mutexes with priority inheritance (rt-thread/src/ipc.c), for threads that use one mutex at a time
// and whose priority nothing else changes. Every locked region is one step.
module Mutexes {
  import opened Options
  import opened OrderedQueue
  import opened SuspendLists

  const HOLD_MAX: nat := 0xFF                    // RT_MUTEX_HOLD_MAX
  const VALUE_MAX: nat := 0xFFFF                 // RT_MUTEX_VALUE_MAX
  const NO_PRIORITY: nat := 0xFF                 // original_priority of a free mutex

  datatype Mutex = Mutex(
    value: nat,
    owner: Option<Thread>,
    hold: nat,
    original: int,                     // original_priority
    prio: Priorities,                  // current_priority of every thread
    w: Waits)

  datatype Event =
    | Take(t: Thread, time: int)       // rt_mutex_take up to rt_schedule
    | Release(t: Thread)
    | Timeout(t: Thread)
    | Resumes(t: Thread)               // the rest of a rt_mutex_take that blocked

  datatype Result = Took | Blocked | NoWait | Full | Refused | Done

  ghost predicate CanHappen(s: Mutex, e: Event) {
    match e
    case Take(t, _) => t !in s.w.inside && t in s.prio
    case Release(t) => t !in s.w.inside
    case Timeout(t) => t in s.w.armed
    case Resumes(t) => t in s.w.inside && t !in s.w.list
  }

  function TakeResult(s: Mutex, t: Thread, time: int): Result {
    if s.owner == Some(t) then (if s.hold < HOLD_MAX then Took else Full)
    else if s.value > 0 then (if s.hold < HOLD_MAX then Took else Full)
    else if time == 0 then NoWait
    else Blocked
  }

  // The owner inherits the priority of a more urgent waiter.
  function Inherited(s: Mutex, t: Thread): Priorities {
    if s.owner.Some? && Rank(s.prio, t) < Rank(s.prio, s.owner.value) then s.prio[s.owner.value := Rank(s.prio, t)]
    else s.prio
  }

  function Taken(s: Mutex, t: Thread, time: int): Mutex {
    match TakeResult(s, t, time)
    case Took =>
      if s.owner == Some(t) then s.(hold := s.hold + 1)
      else s.(value := s.value - 1, owner := Some(t), original := Rank(s.prio, t), hold := s.hold + 1)
    case Full =>
      if s.owner == Some(t) || s.value == 0 then s
      else s.(value := s.value - 1, owner := Some(t), original := Rank(s.prio, t))
    case Blocked => s.(prio := Inherited(s, t), w := Apply(s.w, Suspend(t, time, Inherited(s, t), Prio)))
    case _ => s
  }

  // The last release by t: its priority goes back, and the mutex to the first waiter if there is one.
  function LetGo(s: Mutex, t: Thread): Mutex {
    var back := s.prio[t := s.original];
    if s.w.list != [] then
      var next := s.w.list[0];
      s.(prio := back, owner := Some(next), original := Rank(back, next), hold := 1, w := Apply(s.w, Resume(next)))
    else if s.value < VALUE_MAX then
      s.(prio := back, value := s.value + 1, owner := None, original := NO_PRIORITY, hold := 0)
    else
      s.(prio := back, hold := 0)
  }

  function Released(s: Mutex, t: Thread): Mutex {
    if s.owner != Some(t) then s
    else if s.hold > 1 then s.(hold := s.hold - 1)
    else LetGo(s, t)
  }

  function Step(s: Mutex, e: Event): Mutex {
    match e
    case Take(t, time) => Taken(s, t, time)
    case Release(t) => Released(s, t)
    case Timeout(t) => s.(w := Apply(s.w, Expire(t)))
    case Resumes(t) => s.(w := Apply(s.w, Return(t)))
  }

  function Run(s: Mutex, es: seq<Event>): Mutex
    decreases |es|
  {
    if es == [] then s else Run(Step(s, es[0]), es[1..])
  }

  ghost predicate CanRun(s: Mutex, es: seq<Event>)
    decreases |es|
  {
    es == [] || (CanHappen(s, es[0]) && CanRun(Step(s, es[0]), es[1..]))
  }

  // ---- what every step keeps ----

  // base: the priority each thread has of its own.
  ghost predicate Bookkeeping(s: Mutex, base: Priorities) {
    && s.value <= 1 && s.hold <= HOLD_MAX
    && (s.value == 1 <==> s.owner == None) && (s.owner == None <==> s.hold == 0)
    && (s.owner == None ==> s.w.list == [] && s.original == NO_PRIORITY)
    && (s.owner.Some? ==> s.owner.value !in s.w.list && s.original == Rank(base, s.owner.value))
  }

  // Only the owner's priority may differ from its own, and only upwards.
  ghost predicate PriorityOk(s: Mutex, base: Priorities, y: Thread) {
    if s.owner == Some(y) then Rank(s.prio, y) <= Rank(base, y) else Rank(s.prio, y) == Rank(base, y)
  }

  ghost predicate Inheritance(s: Mutex, base: Priorities) {
    && s.prio.Keys == base.Keys
    && (forall y :: PriorityOk(s, base, y))
    && (forall y :: y in s.w.list ==> y in s.prio)
    && (s.owner.Some? ==> s.owner.value in s.prio)
  }

  // A thread woken with success, and only such a thread, owns the mutex before it has run again.
  ghost predicate Granted(s: Mutex) {
    forall y :: y in s.w.inside && y !in s.w.list ==>
      (ErrorOf(s.w, y) == Ok <==> s.owner == Some(y)) && (s.owner == Some(y) ==> s.hold == 1)
  }

  // The owner is at least as urgent as every waiter.
  ghost predicate OwnerUrgent(s: Mutex) {
    forall y :: y in s.w.list ==> s.owner.Some? && Rank(s.prio, s.owner.value) <= Rank(s.prio, y)
  }

  ghost predicate Valid(s: Mutex, base: Priorities) {
    && WellFormed(s.w) && Bookkeeping(s, base) && Inheritance(s, base) && Granted(s)
    && Sorted(s.w.list, s.prio) && OwnerUrgent(s)
  }

  lemma TakenValid(s: Mutex, base: Priorities, t: Thread, time: int)
    requires Valid(s, base) && t !in s.w.inside && t in s.prio
    ensures Valid(Taken(s, t, time), base)
  {
    assert PriorityOk(s, base, t);
    var n := Taken(s, t, time);
    if TakeResult(s, t, time) == Blocked {
      BlockedValid(s, base, t, time);
    } else {
      forall y ensures PriorityOk(n, base, y) { assert PriorityOk(s, base, y); }
    }
  }

  lemma BlockedValid(s: Mutex, base: Priorities, t: Thread, time: int)
    requires Valid(s, base) && t !in s.w.inside && t in s.prio && TakeResult(s, t, time) == Blocked
    ensures Valid(Taken(s, t, time), base)
  {
    var n, prio := Taken(s, t, time), Inherited(s, t);
    var o := s.owner.value;
    var op := Suspend(t, time, prio, Prio);
    StaysWellFormed(s.w, op);
    forall y ensures y in n.w.list <==> y in s.w.list || y == t { InEnqueued(s.w.list, prio, t, Prio, y); }
    forall y ensures PriorityOk(n, base, y) { assert PriorityOk(s, base, y) && PriorityOk(s, base, o); }
    SortedFrame(s.w.list, s.prio, o, Rank(s.prio, t));
    EnqueuedSorted(s.w.list, prio, t);
  }

  lemma LetGoValid(s: Mutex, base: Priorities, t: Thread)
    requires Valid(s, base) && s.owner == Some(t) && s.hold == 1 && t !in s.w.inside
    ensures Valid(LetGo(s, t), base)
  {
    var n := LetGo(s, t);
    forall y ensures PriorityOk(n, base, y) { assert PriorityOk(s, base, y) && PriorityOk(s, base, t); }
    SortedFrame(s.w.list, s.prio, t, s.original);
    if s.w.list != [] {
      var next := s.w.list[0];
      assert next in s.w.list && PriorityOk(s, base, next);
      StaysWellFormed(s.w, Resume(next));
      forall y ensures y in n.w.list <==> y in s.w.list && y != next { InRemoved(s.w.list, next, y); }
      RemovedSorted(s.w.list, next, n.prio);
      forall y | y in n.w.list ensures Rank(n.prio, next) <= Rank(n.prio, y) {
        FirstIsEarliest(s.w.list, n.prio, y);
      }
    }
  }

  lemma WokenValid(s: Mutex, base: Priorities, e: Event)
    requires Valid(s, base) && CanHappen(s, e) && (e.Timeout? || e.Resumes?)
    ensures Valid(Step(s, e), base)
  {
    var n := Step(s, e);
    forall y ensures PriorityOk(n, base, y) { assert PriorityOk(s, base, y); }
    var op := if e.Timeout? then Expire(e.t) else Return(e.t);
    StaysWellFormed(s.w, op);
    if e.Timeout? {
      forall y ensures y in n.w.list <==> y in s.w.list && y != e.t { InRemoved(s.w.list, e.t, y); }
      RemovedSorted(s.w.list, e.t, s.prio);
    }
  }

  lemma StaysValid(s: Mutex, base: Priorities, e: Event)
    requires Valid(s, base) && CanHappen(s, e)
    ensures Valid(Step(s, e), base)
  {
    match e
    case Take(t, time) => TakenValid(s, base, t, time);
    case Release(t) =>
      if s.owner == Some(t) {
        if s.hold > 1 {
          var n := Step(s, e);
          forall y ensures PriorityOk(n, base, y) { assert PriorityOk(s, base, y); }
        } else {
          LetGoValid(s, base, t);
        }
      }
    case _ => WokenValid(s, base, e);
  }

  lemma {:induction false} AlwaysValid(s: Mutex, base: Priorities, es: seq<Event>)
    requires Valid(s, base) && CanRun(s, es)
    ensures Valid(Run(s, es), base)
    decreases |es|
  {
    if es != [] {
      StaysValid(s, base, es[0]);
      AlwaysValid(Step(s, es[0]), base, es[1..]);
    }
  }

  // The branches that report an overflow when the mutex changes hands are never taken.
  lemma NeverFull(s: Mutex, base: Priorities, t: Thread)
    requires Valid(s, base)
    ensures s.owner != Some(t) ==> forall time :: TakeResult(s, t, time) != Full
    ensures s.owner == Some(t) ==> s.value < VALUE_MAX
  {
  }

  function Initial(base: Priorities): Mutex {
    Mutex(1, None, 0, NO_PRIORITY, base, Waits([], {}, map[], {}))
  }

  lemma InitialValid(base: Priorities)
    ensures Valid(Initial(base), base)
  {
    forall y ensures PriorityOk(Initial(base), base, y) {}
  }

  // ---- whose turn it is ----

  // The place in es of every thread's last take.
  function Takes(es: seq<Event>, since: Stamps, n: int): Stamps
    decreases |es|
  {
    if es == [] then since
    else Takes(es[1..], if es[0].Take? then since[es[0].t := n] else since, n + 1)
  }

  lemma {:induction false} LastTake(es: seq<Event>, since: Stamps, n: int, t: Thread)
    ensures
      var k := Rank(Takes(es, since, n), t) - n;
      || (0 <= k < |es| && es[k].Take? && es[k].t == t && forall j :: k < j < |es| && es[j].Take? ==> es[j].t != t)
      || (k + n == Rank(since, t) && forall j :: 0 <= j < |es| && es[j].Take? ==> es[j].t != t)
    decreases |es|
  {
    if es != [] {
      LastTake(es[1..], if es[0].Take? then since[es[0].t := n] else since, n + 1, t);
      forall j | 0 < j < |es| ensures es[j] == es[1..][j - 1] {}
    }
  }

  // Waiters stand in order of their own priorities and, among equals, in order of arrival.
  lemma StepInTurn(s: Mutex, base: Priorities, e: Event, since: Stamps, n: int)
    requires Valid(s, base) && CanHappen(s, e) && InTurn(s.w.list, base, since)
    requires forall y :: y in s.w.list ==> Rank(since, y) < n
    ensures
      var list, after := Step(s, e).w.list, if e.Take? then since[e.t := n] else since;
      InTurn(list, base, after) && forall y :: y in list ==> Rank(after, y) < n + 1
  {
    match e
    case Take(t, time) =>
      if TakeResult(s, t, time) == Blocked {
        forall y | y in s.w.list || y == t
          ensures Rank(Inherited(s, t), y) == Rank(base, y) { assert PriorityOk(s, base, y); }
        SuspendLists.StepInTurn(s.w, Suspend(t, time, Inherited(s, t), Prio), base, Prio, since, n);
      } else {
        InTurnFrame(s.w.list, base, since, t, n);
      }
    case Release(t) =>
      if s.owner == Some(t) && s.hold == 1 && s.w.list != [] {
        SuspendLists.StepInTurn(s.w, Resume(s.w.list[0]), base, Prio, since, n);
      }
    case Timeout(t) => SuspendLists.StepInTurn(s.w, Expire(t), base, Prio, since, n);
    case Resumes(t) =>
  }

  lemma {:induction false} AlwaysInTurn(s: Mutex, base: Priorities, es: seq<Event>, since: Stamps, n: int)
    requires Valid(s, base) && CanRun(s, es) && InTurn(s.w.list, base, since)
    requires forall y :: y in s.w.list ==> Rank(since, y) < n
    ensures InTurn(Run(s, es).w.list, base, Takes(es, since, n))
    decreases |es|
  {
    if es != [] {
      StepInTurn(s, base, es[0], since, n);
      StaysValid(s, base, es[0]);
      AlwaysInTurn(Step(s, es[0]), base, es[1..], if es[0].Take? then since[es[0].t := n] else since, n + 1);
    }
  }

  // So on every run from a new mutex each waiter is more urgent than all behind it, or as urgent and
  // its last take precedes theirs.
  lemma WaitersInTurn(base: Priorities, es: seq<Event>, i: nat, j: nat)
    requires CanRun(Initial(base), es) && i < j < |Run(Initial(base), es).w.list|
    ensures
      var list := Run(Initial(base), es).w.list;
      Precedes(base, Takes(es, map[], 0), list[i], list[j])
  {
    InitialValid(base);
    AlwaysInTurn(Initial(base), base, es, map[], 0);
    InTurnAt(Run(Initial(base), es).w.list, base, Takes(es, map[], 0), i, j);
  }

  // The last release of a run gives the releasing thread the priority it had when it acquired the
  // mutex, and hands the mutex to the most urgent waiter, the earliest of them if there are several.
  lemma HandOver(base: Priorities, es: seq<Event>, t: Thread)
    requires CanRun(Initial(base), es)
    requires var s := Run(Initial(base), es); s.owner == Some(t) && s.hold == 1
    ensures
      var s := Run(Initial(base), es);
      var n := Step(s, Release(t));
      && Rank(n.prio, t) == Rank(base, t)
      && (n.owner == None <==> s.w.list == [])
      && (n.owner.Some? ==>
            && n.owner.value in s.w.list && n.owner.value !in n.w.list
            && forall y :: y in n.w.list ==> y in s.w.list && Precedes(base, Takes(es, map[], 0), n.owner.value, y))
  {
    var s := Run(Initial(base), es);
    InitialValid(base);
    AlwaysValid(Initial(base), base, es);
    AlwaysInTurn(Initial(base), base, es, map[], 0);
    if s.w.list != [] {
      var next := s.w.list[0];
      forall y ensures y in Removed(s.w.list, next) <==> y in s.w.list && y != next { InRemoved(s.w.list, next, y); }
    }
  }

  // ---- inheritance ----

  // A take blocks exactly if somebody else holds the mutex and it is willing to wait, for a time or for
  // ever. Then it comes to wait, and leaves the owner with the more urgent of the two priorities and every
  // other thread with its own. Otherwise neither waiters nor priorities change.
  lemma TakeWaits(s: Mutex, base: Priorities, t: Thread, time: int)
    requires Valid(s, base) && t !in s.w.inside && t in s.prio
    ensures TakeResult(s, t, time) == Blocked <==> s.owner.Some? && s.owner != Some(t) && time != 0
    ensures
      var n := Step(s, Take(t, time));
      && t !in s.w.list && (t in n.w.list <==> TakeResult(s, t, time) == Blocked)
      && if TakeResult(s, t, time) == Blocked then
           && ComesToWait(s.w, n.w, t, time) && n.owner == s.owner && n.hold == s.hold
           && (forall y: Thread :: s.owner.value != y ==> Rank(n.prio, y) == Rank(s.prio, y))
           && Rank(n.prio, s.owner.value) == Least(Rank(s.prio, s.owner.value), Rank(s.prio, t))
         else n.w == s.w && n.prio == s.prio
  {
    SuspendWaits(s.w, t, time, Inherited(s, t), Prio);
  }

  function Least(a: int, b: int): int {
    if a <= b then a else b
  }

  // The priority the owner has come to by inheritance after es, if it had m before: from its own when it
  // acquired the mutex, the least of that and the priorities of the takes that have blocked since.
  function Inheriting(s: Mutex, base: Priorities, es: seq<Event>, m: int): int
    decreases |es|
  {
    if es == [] then m
    else
      var e, n := es[0], Step(s, es[0]);
      Inheriting(n, base, es[1..],
                 if n.owner != s.owner && n.owner.Some? then Rank(base, n.owner.value)
                 else if e.Take? && TakeResult(s, e.t, e.time) == Blocked then Least(m, Rank(base, e.t))
                 else m)
  }

  lemma {:induction false} OwnersPriority(s: Mutex, base: Priorities, es: seq<Event>, m: int)
    requires Valid(s, base) && CanRun(s, es) && (s.owner.Some? ==> Rank(s.prio, s.owner.value) == m)
    ensures
      var n := Run(s, es);
      n.owner.Some? ==> Rank(n.prio, n.owner.value) == Inheriting(s, base, es, m)
    decreases |es|
  {
    if es != [] {
      var e, n := es[0], Step(s, es[0]);
      StaysValid(s, base, e);
      match e {
        case Take(t, time) =>
          TakeWaits(s, base, t, time);
          assert PriorityOk(s, base, t);
        case Release(t) =>
          if s.w.list != [] { assert s.w.list[0] in s.w.list && PriorityOk(s, base, s.w.list[0]); }
        case _ =>
      }
      OwnersPriority(n, base, es[1..],
                     if n.owner != s.owner && n.owner.Some? then Rank(base, n.owner.value)
                     else if e.Take? && TakeResult(s, e.t, e.time) == Blocked then Least(m, Rank(base, e.t))
                     else m);
    }
  }

  // On every run from a new mutex the owner has exactly that priority, and every other thread its own.
  lemma InheritsExactly(base: Priorities, es: seq<Event>, y: Thread)
    requires CanRun(Initial(base), es)
    ensures
      var n := Run(Initial(base), es);
      Rank(n.prio, y) == if n.owner == Some(y) then Inheriting(Initial(base), base, es, 0) else Rank(base, y)
  {
    InitialValid(base);
    AlwaysValid(Initial(base), base, es);
    OwnersPriority(Initial(base), base, es, 0);
    assert PriorityOk(Run(Initial(base), es), base, y);
  }

  // ---- one end for every take ----

  // Event e is a take by t that is answered Blocked.
  predicate Blocks(s: Mutex, e: Event, t: Thread) {
    e.Take? && e.t == t && TakeResult(s, t, e.time) == Blocked
  }

  // Event e ends a wait of t: the mutex is handed to it, or its time is over.
  predicate Ends(s: Mutex, e: Event, t: Thread) {
    match e
    case Release(x) => s.owner == Some(x) && s.hold == 1 && s.w.list != [] && s.w.list[0] == t
    case Timeout(x) => x == t
    case _ => false
  }

  function BlockCount(s: Mutex, es: seq<Event>, t: Thread): nat
    decreases |es|
  {
    if es == [] then 0 else (if Blocks(s, es[0], t) then 1 else 0) + BlockCount(Step(s, es[0]), es[1..], t)
  }

  function EndCount(s: Mutex, es: seq<Event>, t: Thread): nat
    decreases |es|
  {
    if es == [] then 0 else (if Ends(s, es[0], t) then 1 else 0) + EndCount(Step(s, es[0]), es[1..], t)
  }

  lemma WaitingChanges(s: Mutex, base: Priorities, e: Event, t: Thread)
    requires Valid(s, base) && CanHappen(s, e)
    ensures Ends(s, e, t) ==> t in s.w.list
    ensures Blocks(s, e, t) ==> t !in s.w.list
    ensures t in Step(s, e).w.list <==> Blocks(s, e, t) || (t in s.w.list && !Ends(s, e, t))
  {
    match e
    case Take(x, time) => TakeWaits(s, base, x, time);
    case Release(x) => if s.w.list != [] { InRemoved(s.w.list, s.w.list[0], t); }
    case Timeout(x) => InRemoved(s.w.list, x, t);
    case Resumes(_) =>
  }

  // On every run, of the takes of t answered Blocked each has ended once, but for the one that still waits.
  lemma {:induction false} BlockedTakesEnd(s: Mutex, base: Priorities, es: seq<Event>, t: Thread)
    requires Valid(s, base) && CanRun(s, es)
    ensures
      BlockCount(s, es, t) + (if t in s.w.list then 1 else 0)
        == EndCount(s, es, t) + if t in Run(s, es).w.list then 1 else 0
    decreases |es|
  {
    if es != [] {
      WaitingChanges(s, base, es[0], t);
      StaysValid(s, base, es[0]);
      BlockedTakesEnd(Step(s, es[0]), base, es[1..], t);
    }
  }

  // ---- mutual exclusion ----

  // What a step adds to the number of times t holds the mutex, as its own calls tell t: a take that
  // returned RT_EOK, at once or after a wait, and a release that did.
  function Holding(s: Mutex, e: Event, t: Thread): int {
    match e
    case Take(x, time) => if x == t && TakeResult(s, x, time) == Took then 1 else 0
    case Release(x) => if x == t && s.owner == Some(t) then -1 else 0
    case Timeout(_) => 0
    case Resumes(x) => if x == t && ErrorOf(s.w, t) == Ok then 1 else 0
  }

  function Held(s: Mutex, es: seq<Event>, t: Thread): int
    decreases |es|
  {
    if es == [] then 0 else Holding(s, es[0], t) + Held(Step(s, es[0]), es[1..], t)
  }

  // How often t holds it in state s: the owner hold times, less a grant it has not come back with.
  function Owns(s: Mutex, t: Thread): int {
    if s.owner == Some(t) then s.hold - (if t in s.w.inside then 1 else 0) else 0
  }

  lemma StepHolds(s: Mutex, base: Priorities, e: Event, t: Thread)
    requires Valid(s, base) && CanHappen(s, e)
    ensures Owns(Step(s, e), t) == Owns(s, t) + Holding(s, e, t)
  {
    match e
    case Take(x, time) =>
    case Release(x) =>
      if s.w.list != [] { assert s.w.list[0] in s.w.list; }
    case Timeout(x) =>
    case Resumes(x) =>
  }

  lemma {:induction false} HeldIsOwned(s: Mutex, base: Priorities, es: seq<Event>, t: Thread)
    requires Valid(s, base) && CanRun(s, es)
    ensures Owns(Run(s, es), t) == Owns(s, t) + Held(s, es, t)
    decreases |es|
  {
    if es != [] {
      StaysValid(s, base, es[0]);
      StepHolds(s, base, es[0], t);
      HeldIsOwned(Step(s, es[0]), base, es[1..], t);
    }
  }

  // On every run from a new mutex, no two threads have both been told that they hold it.
  lemma MutualExclusion(base: Priorities, es: seq<Event>, t: Thread, u: Thread)
    requires CanRun(Initial(base), es) && t != u
    ensures
      var s := Initial(base);
      Held(s, es, t) >= 0 && !(Held(s, es, t) > 0 && Held(s, es, u) > 0)
  {
    var s := Initial(base);
    InitialValid(base);
    AlwaysValid(s, base, es);
    HeldIsOwned(s, base, es, t);
    HeldIsOwned(s, base, es, u);
  }

  // ---- the mutex in place ----

  class MutexObject {
    var value: nat
    var owner: Option<Thread>
    var hold: nat
    var original: int
    var prio: Priorities
    const waiting: SuspendList

    ghost function Abs(): Mutex
      reads this, waiting
    {
      Mutex(value, owner, hold, original, prio, waiting.Abs())
    }

    ghost predicate Sound(base: Priorities)
      reads this, waiting
    {
      waiting.flag == Prio && Valid(Abs(), base)
    }

    // rt_mutex_init: the waiters are kept by priority, whatever flag is asked for.
    constructor (base: Priorities, flag: Flag)
      ensures Sound(base) && Abs() == Initial(base) && fresh(waiting)
    {
      value, owner, hold, original, prio := 1, None, 0, NO_PRIORITY, base;
      waiting := new SuspendList(Prio);
      new;
      InitialValid(base);
    }

    // rt_mutex_take up to its call of rt_schedule
    method Take(t: Thread, time: int, ghost base: Priorities) returns (r: Result)
      requires Sound(base) && CanHappen(Abs(), Event.Take(t, time))
      modifies this, waiting
      ensures Sound(base) && Abs() == Step(old(Abs()), Event.Take(t, time))
      ensures r == TakeResult(old(Abs()), t, time)
    {
      StaysValid(Abs(), base, Event.Take(t, time));
      if owner == Some(t) {
        if hold < HOLD_MAX {
          hold := hold + 1;
          r := Took;
        } else {
          r := Full;
        }
      } else if value > 0 {
        value := value - 1;
        owner := Some(t);
        original := Rank(prio, t);
        if hold < HOLD_MAX {
          hold := hold + 1;
          r := Took;
        } else {
          r := Full;
        }
      } else if time == 0 {
        r := NoWait;
      } else {
        if Rank(prio, t) < Rank(prio, owner.value) {
          prio := prio[owner.value := Rank(prio, t)];
        }
        waiting.Suspend(t, time, prio);
        r := Blocked;
      }
    }

    // rt_mutex_release
    method Release(t: Thread, ghost base: Priorities) returns (r: Result)
      requires Sound(base) && CanHappen(Abs(), Event.Release(t))
      modifies this, waiting
      ensures Sound(base) && Abs() == Step(old(Abs()), Event.Release(t))
      ensures r == if old(owner) == Some(t) then Done else Refused
    {
      StaysValid(Abs(), base, Event.Release(t));
      if owner != Some(t) {
        return Refused;
      }
      hold := hold - 1;
      if hold == 0 {
        if original != Rank(prio, t) {
          prio := prio[t := original];
        } else {
          assert prio[t := original] == prio;
        }
        if waiting.list != [] {
          var next := waiting.list[0];
          owner := Some(next);
          original := Rank(prio, next);
          if hold < HOLD_MAX {
            hold := hold + 1;
          } else {
            return Full;
          }
          var _ := waiting.Resume();
        } else {
          if value < VALUE_MAX {
            value := value + 1;
          } else {
            return Full;
          }
          owner := None;
          original := NO_PRIORITY;
        }
      }
      r := Done;
    }
  }
}
