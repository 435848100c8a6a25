// The timers of rt-thread/src/timer.c as a state, the effect of starting and stopping them, and
// what one pass of rt_timer_check does when the callbacks it runs start and stop timers themselves.
module TimerRuns {
  import opened OrderedQueue
  import opened TimerQueue

  const HALF: int := 0x7FFF_FFFF              // RT_TICK_MAX / 2

  datatype Timers = Timers(
    pending: seq<Timer>,           // the bottom level of the timer list
    due: Deadlines,                // absolute deadlines
    init: map<Timer, nat>,         // init_tick
    periodic: set<Timer>,          // RT_TIMER_FLAG_PERIODIC
    active: set<Timer>,            // RT_TIMER_FLAG_ACTIVATED
    firing: seq<Timer>,            // the temporary list of rt_timer_check
    now: int)                      // ticks since start

  datatype Op =
    | Start(t: Timer)
    | Stop(t: Timer)
    | SetTime(t: Timer, ticks: nat)
    | SetPeriodic(t: Timer, on: bool)

  function InitOf(s: Timers, t: Timer): nat {
    if t in s.init then s.init[t] else 0
  }

  // rt_timer_start
  function Started(s: Timers, t: Timer): Timers {
    var d := s.now + InitOf(s, t);
    s.(pending := Inserted(Removed(s.pending, t), s.due, d, t),
       due := s.due[t := d], active := s.active + {t}, firing := Removed(s.firing, t))
  }

  // rt_timer_stop: refused (-RT_ERROR) when the timer is not activated.
  function Stopped(s: Timers, t: Timer): Timers {
    if t !in s.active then s
    else s.(pending := Removed(s.pending, t), active := s.active - {t}, firing := Removed(s.firing, t))
  }

  function Apply(s: Timers, op: Op): Timers {
    match op
    case Start(t) => Started(s, t)
    case Stop(t) => Stopped(s, t)
    case SetTime(t, ticks) => s.(init := s.init[t := ticks])
    case SetPeriodic(t, on) => s.(periodic := if on then s.periodic + {t} else s.periodic - {t})
  }

  function ApplyAll(s: Timers, ops: seq<Op>): Timers
    decreases |ops|
  {
    if ops == [] then s else ApplyAll(Apply(s, ops[0]), ops[1..])
  }

  // The timer due first leaves the list; it stays activated only if it is periodic.
  function Taken(s: Timers): Timers
    requires s.pending != []
  {
    var t := s.pending[0];
    s.(pending := Removed(s.pending, t),
       active := if t in s.periodic then s.active else s.active - {t},
       firing := [t] + Removed(s.firing, t))
  }

  // After the callback: re-arm the timer unless it left the temporary list meanwhile.
  function Rearmed(s: Timers, t: Timer): Timers {
    if s.firing == [] then s
    else
      var u := s.(firing := Removed(s.firing, t));
      if t in u.periodic && t in u.active then Started(u.(active := u.active - {t}), t) else u
  }

  // One round of the loop of rt_timer_check, with a callback that performs ops.
  function Fire(s: Timers, ops: seq<Op>): Timers
    requires s.pending != []
  {
    Rearmed(ApplyAll(Taken(s), ops), s.pending[0])
  }

  // ---- well-formed states ----

  // A tick count rt_timer_start accepts and rt_timer_check makes progress with.
  ghost predicate TimeOk(s: Timers, t: Timer) {
    1 <= InitOf(s, t) < HALF
  }

  ghost predicate OpOk(s: Timers, op: Op) {
    match op
    case Start(t) => TimeOk(s, t)
    case Stop(t) => true
    case SetTime(t, ticks) => 1 <= ticks < HALF
    case SetPeriodic(t, on) => on ==> TimeOk(s, t)
  }

  ghost predicate OpsOk(s: Timers, ops: seq<Op>) {
    forall op :: op in ops ==> OpOk(s, op)
  }

  // No pending timer is due before lo, or later than the half range allows.
  ghost predicate InWindow(s: Timers, lo: int) {
    forall y :: y in s.pending ==> lo <= Rank(s.due, y) < s.now + HALF
  }

  ghost predicate WellFormed(s: Timers) {
    && Distinct(s.pending) && Sorted(s.pending, s.due)
    && (forall y :: y in s.pending ==> y in s.active)
    && (forall y :: y in s.periodic ==> TimeOk(s, y))
  }

  // ---- expired timers ----

  function Expired(xs: seq<Timer>, due: Deadlines, now: int): seq<Timer> {
    if xs == [] || Rank(due, xs[0]) > now then [] else [xs[0]] + Expired(xs[1..], due, now)
  }

  lemma {:induction false} InExpired(xs: seq<Timer>, due: Deadlines, now: int, y: Timer)
    requires Sorted(xs, due)
    ensures y in Expired(xs, due, now) <==> y in xs && Rank(due, y) <= now
  {
    if xs != [] {
      assert y in xs <==> y == xs[0] || y in xs[1..];
      if Rank(due, xs[0]) > now {
        if y in xs { FirstIsEarliest(xs, due, y); }
      } else {
        InExpired(xs[1..], due, now, y);
      }
    }
  }

  lemma {:induction false} ExpiredRemoved(xs: seq<Timer>, due: Deadlines, now: int, t: Timer)
    requires Sorted(xs, due)
    ensures Expired(Removed(xs, t), due, now) == Removed(Expired(xs, due, now), t)
  {
    if xs != [] {
      var r := Removed(xs[1..], t);
      assert ([xs[0]] + r)[1..] == r;
      if Rank(due, xs[0]) > now {
        if r != [] {
          InRemoved(xs[1..], t, r[0]);
          FirstIsEarliest(xs, due, r[0]);
        }
      } else {
        ExpiredRemoved(xs[1..], due, now, t);
        var e := Expired(xs[1..], due, now);
        assert ([xs[0]] + e)[1..] == e;
      }
    }
  }

  // A timer due later than now is inserted behind all expired ones.
  lemma {:induction false} ExpiredInserted(xs: seq<Timer>, due: Deadlines, now: int, d: int, t: Timer)
    requires t !in xs && d > now
    ensures Expired(Inserted(xs, due, d, t), due[t := d], now) == Expired(xs, due, now)
  {
    if xs != [] && Rank(due, xs[0]) <= d {
      ExpiredInserted(xs[1..], due, now, d, t);
      var r := Inserted(xs[1..], due, d, t);
      assert ([xs[0]] + r)[1..] == r;
    }
  }

  // ---- single operations ----

  lemma StartedPending(s: Timers, t: Timer)
    requires WellFormed(s)
    ensures
      var n := Started(s, t);
      && Distinct(n.pending) && Sorted(n.pending, n.due) && t in n.pending
      && forall y :: y in n.pending ==> y == t || y in s.pending
  {
    var r, d := Removed(s.pending, t), s.now + InitOf(s, t);
    var n := Started(s, t);
    assert t !in r by { InRemoved(s.pending, t, t); }
    assert Distinct(n.pending) by {
      RemovedDistinct(s.pending, t);
      InsertedDistinct(r, s.due, d, t);
    }
    assert Sorted(n.pending, n.due) by {
      RemovedSorted(s.pending, t, s.due);
      InsertedSorted(r, s.due, d, t);
    }
    assert t in n.pending by { InInserted(r, s.due, d, t, t); }
    forall y | y in n.pending
      ensures y == t || y in s.pending
    {
      InInserted(r, s.due, d, t, y);
      InRemoved(s.pending, t, y);
    }
  }

  lemma StartedExpired(s: Timers, t: Timer)
    requires WellFormed(s) && TimeOk(s, t)
    ensures
      Expired(Started(s, t).pending, Started(s, t).due, s.now) == Removed(Expired(s.pending, s.due, s.now), t)
  {
    InRemoved(s.pending, t, t);
    ExpiredInserted(Removed(s.pending, t), s.due, s.now, s.now + InitOf(s, t), t);
    ExpiredRemoved(s.pending, s.due, s.now, t);
  }

  lemma StartedFacts(s: Timers, t: Timer, lo: int)
    requires WellFormed(s) && InitOf(s, t) < HALF && InWindow(s, lo) && lo <= s.now
    ensures WellFormed(Started(s, t)) && InWindow(Started(s, t), lo)
    ensures t in Started(s, t).pending
    ensures TimeOk(s, t) ==>
      Expired(Started(s, t).pending, Started(s, t).due, s.now) == Removed(Expired(s.pending, s.due, s.now), t)
  {
    var n := Started(s, t);
    StartedPending(s, t);
    forall y | y in n.periodic ensures TimeOk(n, y) { assert TimeOk(s, y); }
    if TimeOk(s, t) {
      StartedExpired(s, t);
    }
  }

  lemma StoppedFacts(s: Timers, t: Timer, lo: int)
    requires WellFormed(s) && InWindow(s, lo)
    ensures WellFormed(Stopped(s, t)) && InWindow(Stopped(s, t), lo)
    ensures t !in Stopped(s, t).pending
    ensures Expired(Stopped(s, t).pending, s.due, s.now) == Removed(Expired(s.pending, s.due, s.now), t)
  {
    var n := Stopped(s, t);
    RemovedDistinct(s.pending, t);
    RemovedSorted(s.pending, t, s.due);
    ExpiredRemoved(s.pending, s.due, s.now, t);
    InRemoved(s.pending, t, t);
    if t !in s.active {
      AbsentRemoved(s.pending, t);
    }
    forall y | y in n.pending
      ensures y in n.active && lo <= Rank(n.due, y) < n.now + HALF
    {
      InRemoved(s.pending, t, y);
    }
    forall y | y in n.periodic ensures TimeOk(n, y) { assert TimeOk(s, y); }
  }

  // ---- the operations of a callback ----

  function Touched(ops: seq<Op>): set<Timer> {
    if ops == [] then {}
    else (if ops[0].Start? || ops[0].Stop? then {ops[0].t} else {}) + Touched(ops[1..])
  }

  function RemovedAll(xs: seq<Timer>, ts: set<Timer>): seq<Timer> {
    if xs == [] then []
    else if xs[0] in ts then RemovedAll(xs[1..], ts)
    else [xs[0]] + RemovedAll(xs[1..], ts)
  }

  lemma {:induction false} RemovedThenAll(xs: seq<Timer>, t: Timer, ts: set<Timer>)
    ensures RemovedAll(Removed(xs, t), ts) == RemovedAll(xs, {t} + ts)
  {
    if xs != [] {
      RemovedThenAll(xs[1..], t, ts);
      var r := Removed(xs[1..], t);
      assert ([xs[0]] + r)[1..] == r;
    }
  }

  lemma {:induction false} RemovedNone(xs: seq<Timer>)
    ensures RemovedAll(xs, {}) == xs
  {
    if xs != [] { RemovedNone(xs[1..]); }
  }

  lemma ApplyFacts(s: Timers, op: Op, lo: int)
    requires WellFormed(s) && OpOk(s, op) && InWindow(s, lo) && lo <= s.now
    ensures WellFormed(Apply(s, op)) && InWindow(Apply(s, op), lo) && Apply(s, op).now == s.now
    ensures forall t :: TimeOk(s, t) ==> TimeOk(Apply(s, op), t)
    ensures
      var n := Apply(s, op);
      Expired(n.pending, n.due, n.now) == RemovedAll(Expired(s.pending, s.due, s.now), Touched([op]))
  {
    var e := Expired(s.pending, s.due, s.now);
    RemovedNone(e);
    assert Touched([op]) == if op.Start? || op.Stop? then {op.t} else {};
    match op
    case Start(t) =>
      StartedFacts(s, t, lo);
      RemovedThenAll(e, t, {});
      RemovedNone(Removed(e, t));
      assert {t} + {} == {t};
    case Stop(t) =>
      StoppedFacts(s, t, lo);
      RemovedThenAll(e, t, {});
      RemovedNone(Removed(e, t));
      assert {t} + {} == {t};
    case SetTime(t, ticks) =>
    case SetPeriodic(t, on) =>
  }

  lemma {:induction false} RemovedAllTwice(xs: seq<Timer>, a: set<Timer>, b: set<Timer>)
    ensures RemovedAll(RemovedAll(xs, a), b) == RemovedAll(xs, a + b)
  {
    if xs != [] {
      RemovedAllTwice(xs[1..], a, b);
      var r := RemovedAll(xs[1..], a);
      assert ([xs[0]] + r)[1..] == r;
    }
  }

  // Whatever a callback does, of the expired timers it removes just those it starts or stops.
  lemma {:induction false} ApplyAllFacts(s: Timers, ops: seq<Op>, lo: int)
    requires WellFormed(s) && OpsOk(s, ops) && InWindow(s, lo) && lo <= s.now
    ensures
      var n := ApplyAll(s, ops);
      && WellFormed(n) && InWindow(n, lo) && n.now == s.now
      && (forall t :: TimeOk(s, t) ==> TimeOk(n, t))
      && Expired(n.pending, n.due, n.now) == RemovedAll(Expired(s.pending, s.due, s.now), Touched(ops))
    decreases |ops|
  {
    var e := Expired(s.pending, s.due, s.now);
    if ops == [] {
      RemovedNone(e);
    } else {
      var op, n := ops[0], Apply(s, ops[0]);
      ApplyFacts(s, op, lo);
      forall o | o in ops[1..] ensures OpOk(n, o) { assert OpOk(s, o); }
      ApplyAllFacts(n, ops[1..], lo);
      RemovedAllTwice(e, Touched([op]), Touched(ops[1..]));
      assert Touched([op]) + Touched(ops[1..]) == Touched(ops);
    }
  }

  // ---- one round ----

  // The fired timer t stays on the temporary list exactly as long as the callback leaves it alone.
  lemma {:induction false} FiringFacts(s: Timers, ops: seq<Op>, t: Timer)
    requires s.firing == [] || s.firing == [t]
    ensures
      var n := ApplyAll(s, ops);
      && (n.firing == [] || n.firing == [t])
      && (s.firing == [] ==> n.firing == [])
      && (n.firing == [t] ==> (t in n.active <==> t in s.active))
      && (n.firing == [t] && t in s.active ==> t !in Touched(ops))
      && (t !in Touched(ops) ==> n.firing == s.firing && (t in n.active <==> t in s.active))
    decreases |ops|
  {
    if ops != [] {
      var n := Apply(s, ops[0]);
      assert Removed([t], ops[0].t) == if ops[0].t == t then [] else [t] by {
        assert [t][1..] == [];
      }
      FiringFacts(n, ops[1..], t);
    }
  }

  lemma TakenFacts(s: Timers, lo: int)
    requires WellFormed(s) && InWindow(s, lo) && s.firing == [] && s.pending != [] && Rank(s.due, s.pending[0]) <= s.now
    ensures
      var n, t := Taken(s), s.pending[0];
      && WellFormed(n) && InWindow(n, lo) && n.firing == [t] && t !in n.pending
      && Expired(n.pending, n.due, n.now) == Expired(s.pending[1..], s.due, s.now)
      && t !in Expired(s.pending[1..], s.due, s.now)
      && (forall y :: TimeOk(s, y) ==> TimeOk(n, y))
  {
    var n, t := Taken(s), s.pending[0];
    StoppedFacts(s.(active := s.active + {t}), t, lo);
    InRemoved(s.pending, t, t);
    forall y | y in n.pending ensures y in n.active { InRemoved(s.pending, t, y); }
    forall y | y in n.periodic ensures TimeOk(n, y) { assert TimeOk(s, y); }
    AbsentRemoved(s.pending[1..], t);
    InExpired(s.pending[1..], s.due, s.now, t);
    assert Removed(s.pending, t) == s.pending[1..];
  }

  lemma FireFacts(s: Timers, ops: seq<Op>, lo: int)
    requires WellFormed(s) && InWindow(s, lo) && lo <= s.now && s.firing == [] && OpsOk(s, ops)
    requires s.pending != [] && Rank(s.due, s.pending[0]) <= s.now
    ensures
      var n := Fire(s, ops);
      && WellFormed(n) && InWindow(n, lo) && n.firing == [] && n.now == s.now
      && (forall t :: TimeOk(s, t) ==> TimeOk(n, t))
      && Expired(n.pending, n.due, n.now) == RemovedAll(Expired(s.pending[1..], s.due, s.now), Touched(ops))
  {
    var t, s1 := s.pending[0], Taken(s);
    TakenFacts(s, lo);
    forall o | o in ops ensures OpOk(s1, o) { assert OpOk(s, o); }
    ApplyAllFacts(s1, ops, lo);
    var s2 := ApplyAll(s1, ops);
    FiringFacts(s1, ops, t);
    if s2.firing == [t] {
      assert [t][1..] == [] && Removed([t], t) == [];
      var u := s2.(firing := []);
      forall y | y in u.periodic ensures TimeOk(u, y) { assert TimeOk(s2, y); }
      if t in u.periodic && t in u.active {
        NotPending(s1, ops, t);
        var v := u.(active := u.active - {t});
        forall y | y in v.periodic ensures TimeOk(v, y) { assert TimeOk(s2, y); }
        StartedFacts(v, t, lo);
        var e := Expired(s2.pending, s2.due, s2.now);
        InExpired(s2.pending, s2.due, s2.now, t);
        AbsentRemoved(e, t);
        forall y | TimeOk(s, y) ensures TimeOk(Fire(s, ops), y) { assert TimeOk(s2, y); }
      }
    }
  }

  lemma {:induction false} NotPending(s: Timers, ops: seq<Op>, t: Timer)
    requires t !in s.pending && t !in Touched(ops)
    ensures t !in ApplyAll(s, ops).pending
    decreases |ops|
  {
    if ops != [] {
      var x := ops[0].t;
      InRemoved(s.pending, x, t);
      if ops[0].Start? {
        InInserted(Removed(s.pending, x), s.due, s.now + InitOf(s, x), x, t);
      }
      NotPending(Apply(s, ops[0]), ops[1..], t);
    }
  }

  // When the timer is re-armed: exactly when it was and still is periodic and its callback neither
  // stopped nor restarted it. Otherwise what the callback left is what remains.
  lemma RearmExactly(s: Timers, ops: seq<Op>)
    requires s.pending != [] && s.firing == [] && s.pending[0] in s.active
    ensures
      var t := s.pending[0];
      var left := ApplyAll(Taken(s), ops).(firing := []);
      Fire(s, ops) ==
        if t in s.periodic && t in left.periodic && t !in Touched(ops) then
          Started(left.(active := left.active - {t}), t)
        else left
  {
    var t, s1 := s.pending[0], Taken(s);
    FiringFacts(s1, ops, t);
    assert [t][1..] == [] && Removed([t], t) == [];
    var left := ApplyAll(s1, ops).(firing := []);
    assert left.firing == [] && Removed(left.firing, t) == [];
  }

  // ---- a whole pass ----

  ghost predicate ScriptOk(s: Timers, script: seq<seq<Op>>) {
    forall ops :: ops in script ==> OpsOk(s, ops)
  }

  function FirstOps(script: seq<seq<Op>>): seq<Op> {
    if script == [] then [] else script[0]
  }

  function Rest(script: seq<seq<Op>>): seq<seq<Op>> {
    if script == [] then [] else script[1..]
  }

  lemma ScriptStays(s: Timers, n: Timers, script: seq<seq<Op>>)
    requires ScriptOk(s, script) && forall t :: TimeOk(s, t) ==> TimeOk(n, t)
    ensures OpsOk(s, FirstOps(script)) && ScriptOk(n, Rest(script))
  {
    forall ops | ops in Rest(script)
      ensures OpsOk(n, ops)
    {
      assert OpsOk(s, ops);
      forall o | o in ops ensures OpOk(n, o) { assert OpOk(s, o); }
    }
  }

  lemma {:induction false} RemovedAllShorter(xs: seq<Timer>, ts: set<Timer>)
    ensures |RemovedAll(xs, ts)| <= |xs|
  {
    if xs != [] { RemovedAllShorter(xs[1..], ts); }
  }

  // rt_timer_check: the final state and the timers fired, in order. The i-th callback performs the
  // operations script[i], none beyond the end of the script. It terminates because every round
  // takes one timer out of the expired ones and puts none in.
  ghost function Check(s: Timers, script: seq<seq<Op>>, lo: int): (r: (Timers, seq<Timer>))
    requires WellFormed(s) && InWindow(s, lo) && lo <= s.now && s.firing == [] && ScriptOk(s, script)
    ensures WellFormed(r.0) && r.0.firing == [] && r.0.now == s.now
    ensures InWindow(r.0, s.now + 1)
    ensures forall t :: TimeOk(s, t) ==> TimeOk(r.0, t)
    decreases |Expired(s.pending, s.due, s.now)|
  {
    if s.pending == [] || Rank(s.due, s.pending[0]) > s.now then
      AllLater(s);
      (s, [])
    else
      var n := Fire(s, FirstOps(script));
      ScriptStays(s, s, script);
      FireFacts(s, FirstOps(script), lo);
      ScriptStays(s, n, script);
      RemovedAllShorter(Expired(s.pending[1..], s.due, s.now), Touched(FirstOps(script)));
      var rest := Check(n, Rest(script), lo);
      (rest.0, [s.pending[0]] + rest.1)
  }

  lemma AllLater(s: Timers)
    requires WellFormed(s) && (s.pending == [] || Rank(s.due, s.pending[0]) > s.now)
    ensures forall y :: y in s.pending ==> s.now + 1 <= Rank(s.due, y)
  {
    forall y | y in s.pending ensures s.now + 1 <= Rank(s.due, y) { FirstIsEarliest(s.pending, s.due, y); }
  }

  // What is to fire, read off the timers expired at the start: each in turn, unless an earlier
  // callback of this pass started or stopped it.
  function Fires(xs: seq<Timer>, script: seq<seq<Op>>): seq<Timer>
    decreases |xs|
  {
    if xs == [] then []
    else
      var later := RemovedAll(xs[1..], Touched(FirstOps(script)));
      if |later| < |xs| then [xs[0]] + Fires(later, Rest(script)) else []
  }

  // The pass fires exactly those timers, in exactly that order.
  lemma {:induction false} CheckFires(s: Timers, script: seq<seq<Op>>, lo: int)
    requires WellFormed(s) && InWindow(s, lo) && lo <= s.now && s.firing == [] && ScriptOk(s, script)
    ensures Check(s, script, lo).1 == Fires(Expired(s.pending, s.due, s.now), script)
    decreases |Expired(s.pending, s.due, s.now)|
  {
    if s.pending != [] && Rank(s.due, s.pending[0]) <= s.now {
      var n := Fire(s, FirstOps(script));
      ScriptStays(s, s, script);
      FireFacts(s, FirstOps(script), lo);
      ScriptStays(s, n, script);
      var later := RemovedAll(Expired(s.pending[1..], s.due, s.now), Touched(FirstOps(script)));
      RemovedAllShorter(Expired(s.pending[1..], s.due, s.now), Touched(FirstOps(script)));
      CheckFires(n, Rest(script), lo);
      var e := Expired(s.pending, s.due, s.now);
      assert e[1..] == Expired(s.pending[1..], s.due, s.now);
    }
  }

  lemma {:induction false} RemovedAllSubsequence(xs: seq<Timer>, ts: set<Timer>, ys: seq<Timer>)
    requires Subsequence(ys, RemovedAll(xs, ts))
    ensures Subsequence(ys, xs)
  {
    if xs != [] {
      var r := RemovedAll(xs[1..], ts);
      if xs[0] in ts {
        RemovedAllSubsequence(xs[1..], ts, ys);
        SubsequenceMore(ys, xs);
      } else if ys != [] {
        assert ([xs[0]] + r)[1..] == r;
        if ys[0] == xs[0] {
          RemovedAllSubsequence(xs[1..], ts, ys[1..]);
        } else {
          RemovedAllSubsequence(xs[1..], ts, ys);
        }
      }
    }
  }

  // So no timer fires early or twice, and they fire in order of deadline with ties in start order.
  lemma {:induction false} FiresInOrder(xs: seq<Timer>, script: seq<seq<Op>>)
    ensures Subsequence(Fires(xs, script), xs)
    decreases |xs|
  {
    if xs != [] {
      var later := RemovedAll(xs[1..], Touched(FirstOps(script)));
      RemovedAllShorter(xs[1..], Touched(FirstOps(script)));
      FiresInOrder(later, Rest(script));
      RemovedAllSubsequence(xs[1..], Touched(FirstOps(script)), Fires(later, Rest(script)));
      var f := Fires(later, Rest(script));
      assert ([xs[0]] + f)[1..] == f;
    }
  }

  lemma {:induction false} InRemovedAll(xs: seq<Timer>, ts: set<Timer>, y: Timer)
    ensures y in RemovedAll(xs, ts) <==> y in xs && y !in ts
  {
    if xs != [] {
      InRemovedAll(xs[1..], ts, y);
      assert y in xs <==> y == xs[0] || y in xs[1..];
    }
  }

  // And an expired timer that does not fire was started or stopped by a callback of the pass.
  lemma {:induction false} NoneForgotten(xs: seq<Timer>, script: seq<seq<Op>>, y: Timer)
    requires y in xs && forall ops :: ops in script ==> y !in Touched(ops)
    ensures y in Fires(xs, script)
    decreases |xs|
  {
    RemovedAllShorter(xs[1..], Touched(FirstOps(script)));
    if y != xs[0] {
      assert y in xs[1..];
      assert y !in Touched(FirstOps(script));
      InRemovedAll(xs[1..], Touched(FirstOps(script)), y);
      NoneForgotten(RemovedAll(xs[1..], Touched(FirstOps(script))), Rest(script), y);
    }
  }

  // ---- whole runs ----

  // Between two ticks threads start, stop and set timers; a tick advances the clock and checks.
  datatype Event = Thread(op: Op) | Tick(script: seq<seq<Op>>)

  ghost predicate EventOk(s: Timers, e: Event) {
    match e
    case Thread(Start(t)) => InitOf(s, t) < HALF              // a zero-tick one-shot timer is fine here
    case Thread(SetTime(t, ticks)) => ticks < HALF && (t in s.periodic ==> ticks >= 1)
    case Thread(op) => OpOk(s, op)
    case Tick(script) => ScriptOk(s, script)
  }

  // No check is running, and nothing has been due for longer than the tick at hand.
  ghost predicate Quiet(s: Timers) {
    WellFormed(s) && s.firing == [] && InWindow(s, s.now)
  }

  ghost function Happens(s: Timers, e: Event): (n: Timers)
    requires Quiet(s) && EventOk(s, e)
    ensures Quiet(n)
  {
    match e
    case Thread(op) => ThreadQuiet(s, op); Apply(s, op)
    case Tick(script) =>
      var u := s.(now := s.now + 1);
      TickedOk(s, script);
      Check(u, script, s.now).0
  }

  lemma ThreadQuiet(s: Timers, op: Op)
    requires Quiet(s) && EventOk(s, Thread(op))
    ensures Quiet(Apply(s, op))
  {
    var n := Apply(s, op);
    match op
    case Start(t) => StartedFacts(s, t, s.now);
    case Stop(t) => StoppedFacts(s, t, s.now);
    case SetTime(t, ticks) =>
      forall y | y in n.periodic ensures TimeOk(n, y) { assert TimeOk(s, y); }
    case SetPeriodic(t, on) =>
      forall y | y in n.periodic ensures TimeOk(n, y) { assert y in s.periodic ==> TimeOk(s, y); }
  }

  lemma TickedOk(s: Timers, script: seq<seq<Op>>)
    requires Quiet(s) && ScriptOk(s, script)
    ensures
      var u := s.(now := s.now + 1);
      WellFormed(u) && InWindow(u, s.now) && ScriptOk(u, script)
  {
    var u := s.(now := s.now + 1);
    forall t ensures TimeOk(s, t) <==> TimeOk(u, t) {}
    forall ops | ops in script
      ensures OpsOk(u, ops)
    {
      assert OpsOk(s, ops);
      forall o | o in ops ensures OpOk(u, o) { assert OpOk(s, o); }
    }
  }

  // What fires in a tick.
  ghost function Fired(s: Timers, script: seq<seq<Op>>): seq<Timer>
    requires Quiet(s) && ScriptOk(s, script)
  {
    TickedOk(s, script);
    Check(s.(now := s.now + 1), script, s.now).1
  }

  ghost predicate RunOk(s: Timers, events: seq<Event>)
    decreases |events|
  {
    events == [] || (Quiet(s) && EventOk(s, events[0]) && RunOk(Happens(s, events[0]), events[1..]))
  }

  ghost function Run(s: Timers, events: seq<Event>): Timers
    requires RunOk(s, events)
    decreases |events|
  {
    if events == [] then s else Run(Happens(s, events[0]), events[1..])
  }

  // On every run, each pending deadline lies less than half the tick range ahead and at most at the
  // tick at hand: the window in which comparing wrapped ticks is sound is never left.
  lemma {:induction false} WindowHolds(s: Timers, events: seq<Event>)
    requires Quiet(s) && RunOk(s, events)
    ensures Quiet(Run(s, events))
    decreases |events|
  {
    if events != [] {
      WindowHolds(Happens(s, events[0]), events[1..]);
    }
  }

  // A timer its callback starts or stops ends up activated exactly if it is pending.
  lemma {:induction false} TouchedAgrees(s: Timers, ops: seq<Op>, t: Timer, lo: int)
    requires WellFormed(s) && OpsOk(s, ops) && InWindow(s, lo) && lo <= s.now && t in Touched(ops)
    ensures var n := ApplyAll(s, ops); t in n.active <==> t in n.pending
    decreases |ops|
  {
    var op, rest, n := ops[0], ops[1..], Apply(s, ops[0]);
    assert op in ops && forall o :: o in rest ==> o in ops;
    ApplyFacts(s, op, lo);
    forall o | o in rest ensures OpOk(n, o) { assert OpOk(s, o); }
    if t in Touched(rest) {
      TouchedAgrees(n, rest, t, lo);
    } else {
      assert op.t == t;
      if op.Start? { StartedFacts(s, t, lo); } else { StoppedFacts(s, t, lo); }
      Untouched(n, rest, t);
    }
  }

  lemma {:induction false} Untouched(s: Timers, ops: seq<Op>, t: Timer)
    requires t !in Touched(ops)
    ensures
      var n := ApplyAll(s, ops);
      (t in n.active <==> t in s.active) && (t in n.pending <==> t in s.pending)
    decreases |ops|
  {
    if ops != [] {
      var x := ops[0].t;
      InRemoved(s.pending, x, t);
      if ops[0].Start? { InInserted(Removed(s.pending, x), s.due, s.now + InitOf(s, x), x, t); }
      Untouched(Apply(s, ops[0]), ops[1..], t);
    }
  }

  // The flag of a fired timer goes stale, activated but on no list, exactly when its callback makes a
  // periodic timer one-shot and neither stops nor starts it.
  lemma StaleExactly(s: Timers, ops: seq<Op>, lo: int)
    requires WellFormed(s) && InWindow(s, lo) && lo <= s.now && s.firing == [] && OpsOk(s, ops)
    requires s.pending != [] && Rank(s.due, s.pending[0]) <= s.now
    ensures
      var t, n := s.pending[0], Fire(s, ops);
      (t in n.active && t !in n.pending)
      <==>
      (t in s.periodic && t !in ApplyAll(Taken(s), ops).periodic && t !in Touched(ops))
  {
    var t, s1 := s.pending[0], Taken(s);
    TakenFacts(s, lo);
    assert t in s.active;
    forall o | o in ops ensures OpOk(s1, o) { assert OpOk(s, o); }
    ApplyAllFacts(s1, ops, lo);
    RearmExactly(s, ops);
    var left := ApplyAll(s1, ops);
    if t in Touched(ops) {
      TouchedAgrees(s1, ops, t, lo);
    } else {
      Untouched(s1, ops, t);
      var w := left.(firing := [], active := left.active - {t});
      InInserted(Removed(w.pending, t), w.due, w.now + InitOf(w, t), t, t);
    }
  }

  // Such a callback: it makes its own timer one-shot.
  lemma StaleActivation(t: Timer)
    ensures
      var s := Timers([t], map[t := 5], map[t := 5], {t}, {t}, [], 5);
      var n := Fire(s, [SetPeriodic(t, false)]);
      t in n.active && t !in n.pending && n.firing == []
  {
    var s := Timers([t], map[t := 5], map[t := 5], {t}, {t}, [], 5);
    assert [t][1..] == [] && Removed([t], t) == [];
    var ops := [SetPeriodic(t, false)];
    assert ops[1..] == [];
    assert ApplyAll(Taken(s), ops) == ApplyAll(Apply(Taken(s), ops[0]), []);
  }
}
