// When a timer fires, counted in ticks from its start: what rt_timer_start and rt_timer_check of
// rt-thread/src/timer.c come to, whatever other timers do meanwhile.
module TimerTimes {
  import opened Division
  import opened OrderedQueue
  import opened TimerQueue
  import opened TimerRuns

  // What happens to the timers in the course of time: state i, event i, state i + 1.
  ghost predicate Goes(states: seq<Timers>, events: seq<Event>, i: nat)
    requires |states| == |events| + 1 && i < |events|
  {
    Quiet(states[i]) && EventOk(states[i], events[i]) && states[i + 1] == Happens(states[i], events[i])
  }

  ghost predicate Trace(states: seq<Timers>, events: seq<Event>) {
    |states| == |events| + 1 && forall i: nat :: i < |events| ==> Goes(states, events, i)
  }

  // The ticks among the first i events.
  function Ticks(events: seq<Event>, i: nat): nat
    requires i <= |events|
  {
    if i == 0 then 0 else Ticks(events, i - 1) + if events[i - 1].Tick? then 1 else 0
  }

  // Event i is a tick in which timer t fires.
  ghost predicate FiresAt(states: seq<Timers>, events: seq<Event>, i: nat, t: Timer)
    requires Trace(states, events) && i < |events|
  {
    assert Goes(states, events, i);
    events[i].Tick? && t in Fired(states[i], events[i].script)
  }

  // No thread and no callback starts or stops timer t.
  ghost predicate Spares(events: seq<Event>, t: Timer) {
    forall e :: e in events ==> SparedBy(e, t)
  }

  ghost predicate SparedBy(e: Event, t: Timer) {
    match e
    case Thread(op) => t !in Touched([op])
    case Tick(script) => ScriptSpares(script, t)
  }

  ghost predicate ScriptSpares(script: seq<seq<Op>>, t: Timer) {
    forall ops :: ops in script ==> t !in Touched(ops)
  }

  // Nor sets it in any way.
  ghost predicate Ignores(events: seq<Event>, t: Timer) {
    forall e :: e in events ==> IgnoredBy(e, t)
  }

  ghost predicate IgnoredBy(e: Event, t: Timer) {
    match e
    case Thread(op) => op.t != t
    case Tick(script) => ScriptIgnores(script, t)
  }

  ghost predicate ScriptIgnores(script: seq<seq<Op>>, t: Timer) {
    forall ops :: ops in script ==> OpsIgnore(ops, t)
  }

  ghost predicate OpsIgnore(ops: seq<Op>, t: Timer) {
    forall op :: op in ops ==> op.t != t
  }

  lemma {:induction false} IgnoredIsSpared(ops: seq<Op>, t: Timer)
    requires OpsIgnore(ops, t)
    ensures t !in Touched(ops)
  {
    if ops != [] {
      assert ops[0] in ops;
      IgnoredIsSpared(ops[1..], t);
    }
  }

  // ---- what leaves a pending timer alone ----

  // Timer t waits for tick d.
  predicate WaitsFor(s: Timers, t: Timer, d: int) {
    t in s.pending && Rank(s.due, t) == d
  }

  // Timer t is periodic, with n ticks.
  predicate HasPeriod(s: Timers, t: Timer, n: nat) {
    t in s.periodic && InitOf(s, t) == n
  }

  lemma OpKeeps(s: Timers, op: Op, t: Timer, d: int, n: nat)
    requires t !in Touched([op])
    ensures Apply(s, op).now == s.now
    ensures WaitsFor(s, t, d) ==> WaitsFor(Apply(s, op), t, d)
    ensures op.t != t && HasPeriod(s, t, n) ==> HasPeriod(Apply(s, op), t, n)
  {
    var x := op.t;
    InRemoved(s.pending, x, t);
    if op.Start? {
      assert [op][1..] == [];
      assert x in Touched([op]);
      InInserted(Removed(s.pending, x), s.due, Rank(Apply(s, op).due, x), x, t);
    }
    if op.Stop? {
      assert [op][1..] == [];
      assert x in Touched([op]);
    }
  }

  lemma {:induction false} OpsKeep(s: Timers, ops: seq<Op>, t: Timer, d: int, n: nat)
    requires t !in Touched(ops)
    ensures ApplyAll(s, ops).now == s.now
    ensures WaitsFor(s, t, d) ==> WaitsFor(ApplyAll(s, ops), t, d)
    ensures OpsIgnore(ops, t) && HasPeriod(s, t, n) ==> HasPeriod(ApplyAll(s, ops), t, n)
    decreases |ops|
  {
    if ops != [] {
      assert [ops[0]][1..] == [];
      OpKeeps(s, ops[0], t, d, n);
      assert OpsIgnore(ops, t) ==> ops[0] in ops && OpsIgnore(ops[1..], t);
      OpsKeep(Apply(s, ops[0]), ops[1..], t, d, n);
    }
  }

  // A round of the check for another timer.
  lemma RoundKeeps(s: Timers, ops: seq<Op>, t: Timer, d: int, n: nat)
    requires s.pending != [] && s.pending[0] != t && WaitsFor(s, t, d) && t !in Touched(ops)
    ensures Fire(s, ops).now == s.now && WaitsFor(Fire(s, ops), t, d)
    ensures OpsIgnore(ops, t) && HasPeriod(s, t, n) ==> HasPeriod(Fire(s, ops), t, n)
  {
    var x, s1 := s.pending[0], Taken(s);
    InRemoved(s.pending, x, t);
    OpsKeep(s1, ops, t, d, n);
    var s2 := ApplyAll(s1, ops);
    if s2.firing != [] {
      var u := s2.(firing := Removed(s2.firing, x), active := s2.active - {x});
      assert [Start(x)][1..] == [];
      OpKeeps(u, Start(x), t, d, n);
    }
  }

  // Its own round.
  lemma RoundRearms(s: Timers, ops: seq<Op>, t: Timer, n: nat)
    requires s.pending != [] && s.pending[0] == t && s.firing == [] && t in s.active
    requires HasPeriod(s, t, n) && OpsIgnore(ops, t)
    ensures Fire(s, ops).now == s.now
    ensures WaitsFor(Fire(s, ops), t, s.now + n) && HasPeriod(Fire(s, ops), t, n)
  {
    IgnoredIsSpared(ops, t);
    RearmExactly(s, ops);
    OpsKeep(Taken(s), ops, t, 0, n);
    var left := ApplyAll(Taken(s), ops).(firing := []);
    InInserted(Removed(left.pending, t), left.due, Rank(Started(left, t).due, t), t, t);
  }

  lemma Rests(script: seq<seq<Op>>, t: Timer)
    requires ScriptSpares(script, t)
    ensures t !in Touched(FirstOps(script)) && ScriptSpares(Rest(script), t)
    ensures ScriptIgnores(script, t) ==> OpsIgnore(FirstOps(script), t) && ScriptIgnores(Rest(script), t)
  {
    if script != [] { assert script[0] in script; }
  }

  lemma ScriptIgnored(script: seq<seq<Op>>, t: Timer)
    requires ScriptIgnores(script, t)
    ensures ScriptSpares(script, t)
  {
    forall ops | ops in script ensures t !in Touched(ops) { IgnoredIsSpared(ops, t); }
  }

  // A pass before its time neither fires nor moves a timer.
  lemma {:induction false} PassKeeps(s: Timers, script: seq<seq<Op>>, lo: int, t: Timer, d: int, n: nat)
    requires WellFormed(s) && InWindow(s, lo) && lo <= s.now && s.firing == [] && ScriptOk(s, script)
    requires WaitsFor(s, t, d) && s.now < d && ScriptSpares(script, t)
    ensures t !in Check(s, script, lo).1 && WaitsFor(Check(s, script, lo).0, t, d)
    ensures ScriptIgnores(script, t) && HasPeriod(s, t, n) ==> HasPeriod(Check(s, script, lo).0, t, n)
    decreases |Expired(s.pending, s.due, s.now)|
  {
    if s.pending != [] && Rank(s.due, s.pending[0]) <= s.now {
      var u := Fire(s, FirstOps(script));
      ScriptStays(s, s, script);
      FireFacts(s, FirstOps(script), lo);
      ScriptStays(s, u, script);
      RemovedAllShorter(Expired(s.pending[1..], s.due, s.now), Touched(FirstOps(script)));
      Rests(script, t);
      RoundKeeps(s, FirstOps(script), t, d, n);
      PassKeeps(u, Rest(script), lo, t, d, n);
    }
  }

  // A pass at its time fires it, and sets a periodic one to a full period from then.
  lemma {:induction false} PassFires(s: Timers, script: seq<seq<Op>>, lo: int, t: Timer, d: int, n: nat)
    requires WellFormed(s) && InWindow(s, lo) && lo <= s.now && s.firing == [] && ScriptOk(s, script)
    requires WaitsFor(s, t, d) && d <= s.now && ScriptSpares(script, t)
    ensures t in Check(s, script, lo).1
    ensures ScriptIgnores(script, t) && HasPeriod(s, t, n) && n > 0 ==>
      WaitsFor(Check(s, script, lo).0, t, s.now + n) && HasPeriod(Check(s, script, lo).0, t, n)
    decreases |Expired(s.pending, s.due, s.now)|
  {
    FirstIsEarliest(s.pending, s.due, t);
    var u := Fire(s, FirstOps(script));
    ScriptStays(s, s, script);
    FireFacts(s, FirstOps(script), lo);
    ScriptStays(s, u, script);
    RemovedAllShorter(Expired(s.pending[1..], s.due, s.now), Touched(FirstOps(script)));
    Rests(script, t);
    if s.pending[0] != t {
      RoundKeeps(s, FirstOps(script), t, d, n);
      PassFires(u, Rest(script), lo, t, d, n);
    } else if ScriptIgnores(script, t) && HasPeriod(s, t, n) && n > 0 {
      RoundRearms(s, FirstOps(script), t, n);
      PassKeeps(u, Rest(script), lo, t, s.now + n, n);
    }
  }

  // ---- in a run ----

  lemma EventKeeps(s: Timers, e: Event, t: Timer, d: int, n: nat)
    requires Quiet(s) && EventOk(s, e) && SparedBy(e, t) && WaitsFor(s, t, d) && s.now < d
    ensures Happens(s, e).now == if e.Tick? then s.now + 1 else s.now
    ensures e.Tick? ==> (t in Fired(s, e.script) <==> s.now + 1 == d)
    ensures !e.Tick? || s.now + 1 < d ==> WaitsFor(Happens(s, e), t, d)
    ensures IgnoredBy(e, t) && HasPeriod(s, t, n) && n > 0 ==>
      HasPeriod(Happens(s, e), t, n) && WaitsFor(Happens(s, e), t, if e.Tick? && s.now + 1 == d then d + n else d)
  {
    match e
    case Thread(op) => OpKeeps(s, op, t, d, n);
    case Tick(script) =>
      var u := s.(now := s.now + 1);
      TickedOk(s, script);
      if s.now + 1 < d { PassKeeps(u, script, s.now, t, d, n); } else { PassFires(u, script, s.now, t, d, n); }
  }

  // A started timer waits for as many ticks as it is set to.
  lemma StartedWaits(s: Timers, t: Timer)
    requires Quiet(s) && EventOk(s, Thread(Start(t)))
    ensures
      var n := Happens(s, Thread(Start(t)));
      n.now == s.now && WaitsFor(n, t, s.now + InitOf(s, t))
  {
    InInserted(Removed(s.pending, t), s.due, s.now + InitOf(s, t), t, t);
  }

  // Setting a timer that does not wait, then starting it.
  lemma SetAndStarted(states: seq<Timers>, events: seq<Event>, t: Timer, n: nat)
    requires Trace(states, events) && |events| >= 2
    requires events[0] == Thread(SetTime(t, n)) && events[1] == Thread(Start(t))
    ensures states[2].now == states[0].now && WaitsFor(states[2], t, states[2].now + n)
    ensures t in states[0].periodic ==> HasPeriod(states[2], t, n)
  {
    assert Goes(states, events, 0) && Goes(states, events, 1);
    StartedWaits(states[1], t);
  }

  lemma {:induction false} StillWaits(states: seq<Timers>, events: seq<Event>, t: Timer, d: int, i: nat)
    requires Trace(states, events) && Spares(events, t) && WaitsFor(states[0], t, d) && i <= |events|
    requires states[0].now + Ticks(events, i) < d
    ensures states[i].now == states[0].now + Ticks(events, i) && WaitsFor(states[i], t, d)
  {
    if i > 0 {
      StillWaits(states, events, t, d, i - 1);
      assert Goes(states, events, i - 1) && events[i - 1] in events;
      EventKeeps(states[i - 1], events[i - 1], t, d, 0);
    }
  }

  lemma {:induction false} TicksBehind(events: seq<Event>, m: nat, i: nat)
    requires m + i <= |events|
    ensures Ticks(events, m + i) == Ticks(events, m) + Ticks(events[m..], i)
    decreases i
  {
    if i > 0 { TicksBehind(events, m, i - 1); }
  }

  lemma TraceBehind(states: seq<Timers>, events: seq<Event>, m: nat)
    requires Trace(states, events) && m <= |events|
    ensures Trace(states[m..], events[m..])
  {
    forall i: nat | i < |events| - m ensures Goes(states[m..], events[m..], i) { assert Goes(states, events, m + i); }
  }

  // A timer set to n ticks and started fires in the n-th tick from then and in none before, as long as
  // nothing starts or stops it, whatever happens to other timers.
  lemma FiresAfterItsTicks(states: seq<Timers>, events: seq<Event>, t: Timer, n: nat, i: nat)
    requires Trace(states, events) && 2 <= i < |events| && 1 <= n && Spares(events[2..], t)
    requires events[0] == Thread(SetTime(t, n)) && events[1] == Thread(Start(t))
    requires events[i].Tick? && Ticks(events, i) < n
    ensures FiresAt(states, events, i, t) <==> Ticks(events, i) + 1 == n
  {
    SetAndStarted(states, events, t, n);
    TraceBehind(states, events, 2);
    TicksBehind(events, 2, i - 2);
    assert Ticks(events, 1) == 0 && Ticks(events, 2) == 0;
    StillWaits(states[2..], events[2..], t, states[2].now + n, i - 2);
    assert Goes(states, events, i) && events[i] == events[2..][i - 2];
    assert events[2..][i - 2] in events[2..];
    EventKeeps(states[i], events[i], t, states[2].now + n, 0);
  }

  // The least multiple of n above k.
  function NextBeat(k: nat, n: nat): nat {
    if k == 0 then n else if k == NextBeat(k - 1, n) then k + n else NextBeat(k - 1, n)
  }

  lemma {:induction false} BeatsAreMultiples(k: nat, n: nat)
    requires n >= 1
    ensures NextBeat(k, n) % n == 0 && k < NextBeat(k, n) <= k + n
    ensures k + 1 == NextBeat(k, n) <==> (k + 1) % n == 0
  {
    if k == 0 {
      ModOnce(0, n);
    } else {
      BeatsAreMultiples(k - 1, n);
      ModOnce(k, n);
    }
    NoneBetween(NextBeat(k, n), k + 1, n);
  }

  lemma NoneBetween(b: nat, a: nat, n: nat)
    requires n >= 1 && b % n == 0 && a <= b < a + n
    ensures a % n == 0 <==> a == b
  {
    var p, q := a / n, b / n;
    DivBounds(a, n);
    DivBounds(b, n);
    assert b == q * n;
    if p < q { MulMono(p + 1, q, n); }
    if q < p { MulMono(q + 1, p, n); }
    if p + 1 < q { MulMono(p + 2, q, n); }
  }

  // Whenever event i comes, the timer waits for the next multiple of its period.
  lemma {:induction false} OnTheBeat(states: seq<Timers>, events: seq<Event>, t: Timer, n: nat, i: nat)
    requires Trace(states, events) && Ignores(events, t) && n >= 1 && i <= |events|
    requires HasPeriod(states[0], t, n) && WaitsFor(states[0], t, states[0].now + n)
    ensures states[i].now == states[0].now + Ticks(events, i) && HasPeriod(states[i], t, n)
    ensures WaitsFor(states[i], t, states[0].now + NextBeat(Ticks(events, i), n))
  {
    if i > 0 {
      var e, k := events[i - 1], Ticks(events, i - 1);
      OnTheBeat(states, events, t, n, i - 1);
      BeatsAreMultiples(k, n);
      assert Goes(states, events, i - 1) && e in events;
      IgnoredEvent(e, t);
      EventKeeps(states[i - 1], e, t, states[0].now + NextBeat(k, n), n);
    }
  }

  lemma IgnoredEvent(e: Event, t: Timer)
    requires IgnoredBy(e, t)
    ensures SparedBy(e, t)
  {
    match e {
      case Thread(op) => assert [op][1..] == [];
      case Tick(script) => ScriptIgnored(script, t);
    }
  }

  // A timer with a period of n ticks that waits for the n-th fires in every n-th.
  lemma FiresOnTheBeat(states: seq<Timers>, events: seq<Event>, t: Timer, n: nat, i: nat)
    requires Trace(states, events) && Ignores(events, t) && n >= 1 && i < |events| && events[i].Tick?
    requires HasPeriod(states[0], t, n) && WaitsFor(states[0], t, states[0].now + n)
    ensures FiresAt(states, events, i, t) <==> (Ticks(events, i) + 1) % n == 0
  {
    var k := Ticks(events, i);
    OnTheBeat(states, events, t, n, i);
    BeatsAreMultiples(k, n);
    assert Goes(states, events, i) && events[i] in events;
    IgnoredEvent(events[i], t);
    EventKeeps(states[i], events[i], t, states[0].now + NextBeat(k, n), n);
  }

  // A periodic timer set to n ticks, started and left alone fires in every n-th tick from its start, and
  // in no other.
  lemma FiresPeriodically(states: seq<Timers>, events: seq<Event>, t: Timer, n: nat, i: nat)
    requires Trace(states, events) && 2 <= i < |events| && 1 <= n && Ignores(events[2..], t)
    requires events[0] == Thread(SetTime(t, n)) && events[1] == Thread(Start(t)) && t in states[0].periodic
    requires events[i].Tick?
    ensures FiresAt(states, events, i, t) <==> (Ticks(events, i) + 1) % n == 0
  {
    SetAndStarted(states, events, t, n);
    TraceBehind(states, events, 2);
    TicksBehind(events, 2, i - 2);
    assert Ticks(events, 1) == 0 && Ticks(events, 2) == 0;
    FiresOnTheBeat(states[2..], events[2..], t, n, i - 2);
    assert Goes(states, events, i) && events[i] == events[2..][i - 2];
  }

  // A timer that has been stopped does not fire until it is started again.
  lemma {:induction false} StaysStopped(states: seq<Timers>, events: seq<Event>, t: Timer, i: nat)
    requires Trace(states, events) && Spares(events, t) && t !in states[0].pending && i <= |events|
    ensures t !in states[i].pending
  {
    if i > 0 {
      StaysStopped(states, events, t, i - 1);
      assert Goes(states, events, i - 1) && events[i - 1] in events;
      EventSkips(states[i - 1], events[i - 1], t);
    }
  }

  lemma StoppedIsSilent(states: seq<Timers>, events: seq<Event>, t: Timer, i: nat)
    requires Trace(states, events) && 1 <= i < |events| && Spares(events[1..], t) && events[0] == Thread(Stop(t))
    ensures !FiresAt(states, events, i, t)
  {
    assert Goes(states, events, 0) && Goes(states, events, i);
    StoppedFacts(states[0], t, states[0].now);
    TraceBehind(states, events, 1);
    StaysStopped(states[1..], events[1..], t, i - 1);
    assert events[i] == events[1..][i - 1] && events[1..][i - 1] in events[1..];
    EventSkips(states[i], events[i], t);
  }

  lemma EventSkips(s: Timers, e: Event, t: Timer)
    requires Quiet(s) && EventOk(s, e) && SparedBy(e, t) && t !in s.pending
    ensures t !in Happens(s, e).pending && (e.Tick? ==> t !in Fired(s, e.script))
  {
    match e
    case Thread(op) =>
      assert [op][1..] == [];
      NotPending(s, [op], t);
      assert ApplyAll(Apply(s, op), []) == Apply(s, op);
    case Tick(script) =>
      TickedOk(s, script);
      PassSkips(s.(now := s.now + 1), script, s.now, t);
  }

  lemma {:induction false} PassSkips(s: Timers, script: seq<seq<Op>>, lo: int, t: Timer)
    requires WellFormed(s) && InWindow(s, lo) && lo <= s.now && s.firing == [] && ScriptOk(s, script)
    requires t !in s.pending && ScriptSpares(script, t)
    ensures t !in Check(s, script, lo).1 && t !in Check(s, script, lo).0.pending
    decreases |Expired(s.pending, s.due, s.now)|
  {
    if s.pending != [] && Rank(s.due, s.pending[0]) <= s.now {
      var u, x := Fire(s, FirstOps(script)), s.pending[0];
      ScriptStays(s, s, script);
      FireFacts(s, FirstOps(script), lo);
      ScriptStays(s, u, script);
      RemovedAllShorter(Expired(s.pending[1..], s.due, s.now), Touched(FirstOps(script)));
      Rests(script, t);
      InRemoved(s.pending, x, t);
      NotPending(Taken(s), FirstOps(script), t);
      var s2 := ApplyAll(Taken(s), FirstOps(script));
      InRemoved(s2.pending, x, t);
      InInserted(Removed(s2.pending, x), s2.due, s2.now + InitOf(s2, x), x, t);
      PassSkips(u, Rest(script), lo, t);
    }
  }
}
