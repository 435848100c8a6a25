// The timer list of rt-thread/src/timer.c as it is kept: one list per level, searched from the
// uppermost level down with ticks that wrap at 32 bits.
module SkipTimers {
  import opened OrderedQueue
  import opened TimerQueue
  import opened TimerRuns

  const TICK_RANGE: int := 0x1_0000_0000      // rt_tick_t is 32 bits wide

  // Unsigned 32-bit subtraction of ticks.
  function Minus(a: int, b: int): (r: int)
    ensures 0 <= r < 0x1_0000_0000
  {
    (a - b) % 0x1_0000_0000
  }

  function Wrapped(t: int): (r: int)
    ensures 0 <= r < 0x1_0000_0000
  {
    t % 0x1_0000_0000
  }

  // Deadlines a and b are close enough for their wrapped ticks to tell which comes first.
  ghost predicate Comparable(a: int, b: int) {
    HALF - TICK_RANGE <= a - b < HALF
  }

  lemma CompareTicks(a: int, b: int)
    requires Comparable(a, b)
    ensures Minus(Wrapped(a), Wrapped(b)) == 0 <==> a == b
    ensures 0 < Minus(Wrapped(a), Wrapped(b)) < HALF <==> a > b
  {
    assert (Wrapped(a) - Wrapped(b)) % 0x1_0000_0000 == (a - b) % 0x1_0000_0000;
  }

  function IndexOf(xs: seq<Timer>, x: Timer): (i: nat)
    requires x in xs
    ensures i < |xs| && xs[i] == x
  {
    if xs[0] == x then 0 else 1 + IndexOf(xs[1..], x)
  }

  function Put(xs: seq<Timer>, i: nat, x: Timer): seq<Timer>
    requires i <= |xs|
  {
    xs[..i] + [x] + xs[i..]
  }

  // Row k holds just the timers that reach level k, in the order of the bottom row.
  ghost predicate RowOk(rows: seq<seq<Timer>>, top: map<Timer, nat>, k: nat) {
    k < |rows| && rows[k] == Level(rows[|rows| - 1], top, k)
  }

  ghost predicate Leveled(rows: seq<seq<Timer>>, top: map<Timer, nat>) {
    forall k: nat :: k < |rows| ==> RowOk(rows, top, k)
  }

  ghost predicate TickOk(y: Timer, due: Deadlines, ticks: map<Timer, nat>, top: map<Timer, nat>, levels: nat) {
    && y in due && y in ticks && ticks[y] == Wrapped(due[y])
    && y in top && top[y] < levels
  }

  ghost predicate TicksOk(xs: seq<Timer>, due: Deadlines, ticks: map<Timer, nat>, top: map<Timer, nat>, levels: nat) {
    forall y :: y in xs ==> TickOk(y, due, ticks, top, levels)
  }

  // Removing t from every row leaves the levels as they should be.
  lemma RowsRemoved(was: seq<seq<Timer>>, rows: seq<seq<Timer>>, top: map<Timer, nat>, t: Timer)
    requires |rows| == |was| >= 1 && Leveled(was, top)
    requires forall k: nat :: k < |rows| ==> rows[k] == Removed(was[k], t)
    ensures Leveled(rows, top)
  {
    forall k: nat | k < |rows|
      ensures RowOk(rows, top, k)
    {
      assert RowOk(was, top, k);
      LevelRemoved(was[|rows| - 1], top, k, t);
    }
  }

  // Linking t on the rows from `reach` down makes it reach that level.
  lemma RowsLinked(was: seq<seq<Timer>>, rows: seq<seq<Timer>>, top: map<Timer, nat>,
                      due: Deadlines, t: Timer, d: int, reach: nat)
    requires |rows| == |was| >= 1 && reach < |rows| && Leveled(was, top)
    requires Sorted(was[|rows| - 1], due) && t !in was[|rows| - 1]
    requires forall k: nat :: k < |rows| ==> rows[k] == if k < reach then was[k] else Inserted(was[k], due, d, t)
    ensures Leveled(rows, top[t := reach])
  {
    var reaching := top[t := reach];
    forall k: nat | k < |rows|
      ensures RowOk(rows, reaching, k)
    {
      assert RowOk(was, top, k);
      LevelInserted(was[|rows| - 1], top, k, due, d, t, reach);
    }
  }

  lemma TicksInserted(xs: seq<Timer>, due: Deadlines, ticks: map<Timer, nat>, top: map<Timer, nat>,
                        levels: nat, t: Timer, d: int, reach: nat)
    requires TicksOk(xs, due, ticks, top, levels) && t in ticks && ticks[t] == Wrapped(d) && reach < levels
    ensures TicksOk(Inserted(xs, due, d, t), due[t := d], ticks, top[t := reach], levels)
  {
    forall y | y in Inserted(xs, due, d, t)
      ensures TickOk(y, due[t := d], ticks, top[t := reach], levels)
    {
      InInserted(xs, due, d, t, y);
      assert y != t ==> TickOk(y, due, ticks, top, levels);
    }
  }

  ghost predicate Kept(rows: seq<seq<Timer>>, due: Deadlines, ticks: map<Timer, nat>, top: map<Timer, nat>) {
    && rows != [] && Leveled(rows, top)
    && var bottom := rows[|rows| - 1];
       Distinct(bottom) && Sorted(bottom, due) && TicksOk(bottom, due, ticks, top, |rows|)
  }

  lemma TimersLinked(was: seq<seq<Timer>>, rows: seq<seq<Timer>>, top: map<Timer, nat>, due: Deadlines,
                     ticks: map<Timer, nat>, t: Timer, d: int, reach: nat)
    requires |rows| == |was| && reach < |rows| && Kept(was, due, ticks, top)
    requires t !in was[|rows| - 1] && t in ticks && ticks[t] == Wrapped(d)
    requires forall k: nat :: k < |rows| ==> rows[k] == if k < reach then was[k] else Inserted(was[k], due, d, t)
    ensures Kept(rows, due[t := d], ticks, top[t := reach])
  {
    var bottom := was[|rows| - 1];
    RowsLinked(was, rows, top, due, t, d, reach);
    InsertedSorted(bottom, due, d, t);
    InsertedDistinct(bottom, due, d, t);
    TicksInserted(bottom, due, ticks, top, |rows|, t, d, reach);
  }

  // A pass of rt_timer_check from s0 that has fired `log` so far, is at s, and will get on as a pass
  // from s with the rest of the script.
  ghost predicate Checking(s0: Timers, script: seq<seq<Op>>, lo: int, s: Timers, rest: seq<seq<Op>>, log: seq<Timer>)
    requires WellFormed(s0) && InWindow(s0, lo) && lo <= s0.now && s0.firing == [] && ScriptOk(s0, script)
  {
    && WellFormed(s) && InWindow(s, lo) && s.now == s0.now && s.firing == [] && ScriptOk(s, rest)
    && var c := Check(s, rest, lo);
       Check(s0, script, lo) == (c.0, log + c.1)
  }

  lemma CheckingStarts(s: Timers, script: seq<seq<Op>>, lo: int)
    requires WellFormed(s) && InWindow(s, lo) && lo <= s.now && s.firing == [] && ScriptOk(s, script)
    ensures Checking(s, script, lo, s, script, [])
  {
    var c := Check(s, script, lo);
    assert [] + c.1 == c.1;
  }

  lemma CheckUnfolds(s: Timers, script: seq<seq<Op>>, lo: int)
    requires WellFormed(s) && InWindow(s, lo) && lo <= s.now && s.firing == [] && ScriptOk(s, script)
    requires s.pending != [] && Rank(s.due, s.pending[0]) <= s.now
    ensures OpsOk(s, FirstOps(script))
    ensures
      var n := Fire(s, FirstOps(script));
      && WellFormed(n) && InWindow(n, lo) && n.now == s.now && n.firing == [] && ScriptOk(n, Rest(script))
      && |Expired(n.pending, n.due, n.now)| < |Expired(s.pending, s.due, s.now)|
      && var c := Check(n, Rest(script), lo);
         Check(s, script, lo) == (c.0, [s.pending[0]] + c.1)
  {
    ScriptStays(s, s, script);
    FireFacts(s, FirstOps(script), lo);
    ScriptStays(s, Fire(s, FirstOps(script)), script);
    RemovedAllShorter(Expired(s.pending[1..], s.due, s.now), Touched(FirstOps(script)));
  }

  lemma CheckingStep(s0: Timers, script: seq<seq<Op>>, lo: int, s: Timers, rest: seq<seq<Op>>, log: seq<Timer>)
    requires WellFormed(s0) && InWindow(s0, lo) && lo <= s0.now && s0.firing == [] && ScriptOk(s0, script)
    requires Checking(s0, script, lo, s, rest, log)
    requires s.pending != [] && Rank(s.due, s.pending[0]) <= s.now
    ensures OpsOk(s, FirstOps(rest))
    ensures
      var n := Fire(s, FirstOps(rest));
      && Checking(s0, script, lo, n, Rest(rest), log + [s.pending[0]])
      && |Expired(n.pending, n.due, n.now)| < |Expired(s.pending, s.due, s.now)|
  {
    var n := Fire(s, FirstOps(rest));
    CheckUnfolds(s, rest, lo);
    var c := Check(n, Rest(rest), lo);
    assert log + ([s.pending[0]] + c.1) == (log + [s.pending[0]]) + c.1;
  }

  lemma CheckingEnds(s0: Timers, script: seq<seq<Op>>, lo: int, s: Timers, rest: seq<seq<Op>>, log: seq<Timer>)
    requires WellFormed(s0) && InWindow(s0, lo) && lo <= s0.now && s0.firing == [] && ScriptOk(s0, script)
    requires Checking(s0, script, lo, s, rest, log)
    requires s.pending == [] || Rank(s.due, s.pending[0]) > s.now
    ensures Check(s0, script, lo) == (s, log)
  {
    assert log + [] == log;
  }

  class TimerSystem {
    const L: nat                              // RT_TIMER_SKIP_LIST_LEVEL
    var rows: seq<seq<Timer>>                 // the list heads, uppermost level first
    var timeoutTick: map<Timer, nat>
    var initTick: map<Timer, nat>
    var periodic: set<Timer>
    var active: set<Timer>
    var firing: seq<Timer>                    // the temporary list of rt_timer_check
    var randomNr: nat
    var tick: nat
    ghost var due: Deadlines
    ghost var top: map<Timer, nat>
    ghost var now: int

    ghost function Abs(): Timers
      reads this
      requires |rows| == L >= 1
    {
      Timers(rows[L - 1], due, initTick, periodic, active, firing, now)
    }

    // Every level holds the timers that reach it, in order of deadline; ticks are deadlines wrapped.
    ghost predicate Valid()
      reads this`rows, this`top, this`due, this`timeoutTick, this`tick, this`now, this`randomNr
    {
      && L >= 1 && |rows| == L && Kept(rows, due, timeoutTick, top)
      && tick == Wrapped(now) && randomNr < 0x1_0000_0000
    }

    constructor (levels: nat)
      requires levels >= 1
      ensures Valid() && L == levels
      ensures Abs() == Timers([], map[], map[], {}, {}, [], 0)
    {
      L := levels;
      rows := seq(levels, _ => []);
      timeoutTick, initTick, periodic, active, firing := map[], map[], {}, {}, [];
      randomNr, tick := 0, 0;
      due, top, now := map[], map[], 0;
    }

    // _timer_remove. The bottom node may be on the temporary list instead.
    method Remove(t: Timer)
      requires Valid()
      modifies this`rows, this`firing
      ensures Valid() && rows[L - 1] == Removed(old(rows)[L - 1], t) && firing == Removed(old(firing), t)
    {
      var i := 0;
      ghost var start := rows;
      while i < L
        invariant i <= L && |rows| == L
        invariant firing == old(firing)
        invariant forall k :: 0 <= k < L ==> rows[k] == if k < i then Removed(start[k], t) else start[k]
      {
        rows := rows[i := Removed(rows[i], t)];
        i := i + 1;
      }
      firing := Removed(firing, t);
      RemovedSorted(start[L - 1], t, due);
      RemovedDistinct(start[L - 1], t);
      RowsRemoved(start, rows, top, t);
      forall y | y in rows[L - 1]
        ensures TickOk(y, due, timeoutTick, top, L)
      {
        InRemoved(start[L - 1], t, y);
      }
    }

    // The inner search loop of rt_timer_start on one level, from position pos on: past every timer
    // that is not due later.
    method Advance(level: nat, pos: nat, timeout: nat, ghost d: int) returns (r: nat)
      requires Valid() && level < L && timeout == Wrapped(d)
      requires forall y :: y in rows[L - 1] ==> Comparable(Rank(due, y), d)
      requires pos <= NotAfter(rows[level], due, d)
      ensures r == NotAfter(rows[level], due, d)
    {
      r := pos;
      var row := rows[level];
      assert RowOk(rows, top, level);
      LevelSorted(rows[L - 1], top, level, due);
      while r != |row|
        invariant r <= NotAfter(row, due, d)
        decreases |row| - r
      {
        InLevel(rows[L - 1], top, level, row[r]);
        assert TickOk(row[r], due, timeoutTick, top, L);
        assert Comparable(Rank(due, row[r]), d);
        CompareTicks(Rank(due, row[r]), d);
        NotAfterAt(row, due, d, r);
        if Minus(timeoutTick[row[r]], timeout) == 0 {
          r := r + 1;
          continue;
        } else if Minus(timeoutTick[row[r]], timeout) < HALF {
          break;
        }
        r := r + 1;
      }
    }

    // The search over all levels: where to insert on each. On the next level it goes on from the
    // same timer's node.
    method FindRows(timeout: nat, ghost d: int) returns (heads: seq<nat>)
      requires Valid() && timeout == Wrapped(d)
      requires forall y :: y in rows[L - 1] ==> Comparable(Rank(due, y), d)
      ensures |heads| == L
      ensures forall k :: 0 <= k < L ==> heads[k] == NotAfter(rows[k], due, d)
    {
      heads := [];
      var from: nat := 0;
      var level := 0;
      while level < L
        invariant level <= L && |heads| == level
        invariant level < L ==> from <= NotAfter(rows[level], due, d)
        invariant forall k :: 0 <= k < level ==> heads[k] == NotAfter(rows[k], due, d)
      {
        var pos := Advance(level, from, timeout, d);
        heads := heads + [pos];
        if level != L - 1 {
          if pos == 0 {
            from := 0;
          } else {
            var node := rows[level][pos - 1];
            NodeBelow(level, pos - 1, d);
            from := IndexOf(rows[level + 1], node) + 1;
          }
        }
        level := level + 1;
      }
    }

    // A timer passed on one level is linked on the next one too, and is to be passed there.
    lemma NodeBelow(level: nat, i: nat, d: int)
      requires Valid() && level + 1 < L && i < NotAfter(rows[level], due, d)
      ensures
        var node := rows[level][i];
        node in rows[level + 1] && IndexOf(rows[level + 1], node) < NotAfter(rows[level + 1], due, d)
    {
      assert RowOk(rows, top, level) && RowOk(rows, top, level + 1);
      var node := rows[level][i];
      InLevel(rows[L - 1], top, level, node);
      InLevel(rows[L - 1], top, level + 1, node);
      LevelSorted(rows[L - 1], top, level, due);
      LevelSorted(rows[L - 1], top, level + 1, due);
      NotAfterAt(rows[level], due, d, i);
      NotAfterAt(rows[level + 1], due, d, IndexOf(rows[level + 1], node));
    }

    // Links t on the levels above the bottom one, as long as the counter's next two bits are zero.
    method LinkUpper(t: Timer, heads: seq<nat>, ghost start: seq<seq<Timer>>, ghost d: int) returns (ghost reach: nat)
      requires L >= 1 && |rows| == L == |start| == |heads|
      requires forall k :: 0 <= k < L ==> heads[k] == NotAfter(start[k], due, d)
      requires forall k :: 0 <= k < L ==> rows[k] == if k < L - 1 then start[k] else Inserted(start[k], due, d, t)
      modifies this`rows
      ensures reach < L && |rows| == L
      ensures forall k :: 0 <= k < L ==> rows[k] == if k < reach then start[k] else Inserted(start[k], due, d, t)
    {
      var tst := randomNr;
      reach := L - 1;
      var level := 2;
      while level <= L
        invariant |rows| == L && 2 <= level <= L + 1 && reach == L + 1 - level
        invariant forall k :: 0 <= k < L ==> rows[k] == if k < reach then start[k] else Inserted(start[k], due, d, t)
      {
        if tst % 4 == 0 {
          InsertedAt(start[L - level], due, d, t);
          rows := rows[L - level := Put(rows[L - level], heads[L - level], t)];
          reach := L - level;
        } else {
          break;
        }
        tst := tst / 4;
        level := level + 1;
      }
    }

    method LinkRows(t: Timer, heads: seq<nat>, ghost d: int) returns (ghost reach: nat)
      requires L >= 1 && |rows| == L == |heads|
      requires forall k :: 0 <= k < L ==> heads[k] == NotAfter(rows[k], due, d)
      modifies this`rows, this`randomNr
      ensures reach < L && |rows| == L && randomNr < 0x1_0000_0000
      ensures forall k :: 0 <= k < L ==>
        rows[k] == if k < reach then old(rows)[k] else Inserted(old(rows)[k], due, d, t)
    {
      randomNr := (randomNr + 1) % 0x1_0000_0000;
      InsertedAt(rows[L - 1], due, d, t);
      rows := rows[L - 1 := Put(rows[L - 1], heads[L - 1], t)];
      reach := LinkUpper(t, heads, old(rows), d);
    }

    method Link(t: Timer, heads: seq<nat>, ghost d: int)
      requires Valid() && t !in rows[L - 1] && t in timeoutTick && timeoutTick[t] == Wrapped(d)
      requires |heads| == L && forall k :: 0 <= k < L ==> heads[k] == NotAfter(rows[k], due, d)
      modifies this`rows, this`randomNr, this`due, this`top
      ensures Valid() && due == old(due)[t := d]
      ensures rows[L - 1] == Inserted(old(rows)[L - 1], old(due), d, t)
    {
      ghost var reach := LinkRows(t, heads, d);
      TimersLinked(old(rows), rows, top, due, timeoutTick, t, d, reach);
      top := top[t := reach];
      due := due[t := d];
    }

    // ---- the interface ----

    // rt_timer_start
    method Start(t: Timer, ghost lo: int)
      requires Valid() && InitOf(Abs(), t) < HALF && InWindow(Abs(), lo) && now - 3 <= lo <= now
      modifies this
      ensures Valid() && Abs() == Started(old(Abs()), t)
    {
      ghost var s := Abs();
      Remove(t);
      active := active - {t};
      var ticks := if t in initTick then initTick[t] else 0;
      var timeout := Wrapped(tick + ticks);
      ghost var d := now + ticks;
      assert timeout == Wrapped(d) by { WrappedSum(now, ticks); }
      assert s.active - {t} + {t} == s.active + {t};
      InsertAt(t, timeout, s.pending, d, lo);
      active := active + {t};
    }

    // Sets the timeout of a timer just removed and links it: the search and insertion of
    // rt_timer_start.
    method InsertAt(t: Timer, timeout: nat, ghost before: seq<Timer>, ghost d: int, ghost lo: int)
      requires Valid() && rows[L - 1] == Removed(before, t) && timeout == Wrapped(d)
      requires now - 3 <= lo <= now <= d < now + HALF
      requires forall y :: y in before ==> lo <= Rank(due, y) < now + HALF
      modifies this`rows, this`randomNr, this`due, this`top, this`timeoutTick
      ensures Valid() && due == old(due)[t := d]
      ensures rows[L - 1] == Inserted(Removed(before, t), old(due), d, t)
    {
      InRemoved(before, t, t);
      forall y | y in rows[L - 1]
        ensures Comparable(Rank(due, y), d)
      {
        InRemoved(before, t, y);
      }
      SetTimeout(t, timeout);
      var heads := FindRows(timeout, d);
      Link(t, heads, d);
    }

    method SetTimeout(t: Timer, timeout: nat)
      requires Valid() && t !in rows[L - 1]
      modifies this`timeoutTick
      ensures Valid() && timeoutTick == old(timeoutTick)[t := timeout]
    {
      timeoutTick := timeoutTick[t := timeout];
      forall y | y in rows[L - 1]
        ensures TickOk(y, due, timeoutTick, top, L)
      {
        assert TickOk(y, due, old(timeoutTick), top, L);
      }
    }

    // rt_timer_stop
    method Stop(t: Timer) returns (ok: bool)
      requires Valid()
      modifies this
      ensures Valid() && Abs() == Stopped(old(Abs()), t)
      ensures ok <==> t in old(active)
    {
      if t !in active {
        return false;
      }
      Remove(t);
      active := active - {t};
      return true;
    }

    // rt_timer_control
    method SetTime(t: Timer, ticks: nat)
      requires Valid()
      modifies this`initTick
      ensures Valid() && Abs() == Apply(old(Abs()), Op.SetTime(t, ticks))
    {
      initTick := initTick[t := ticks];
    }

    method SetPeriodic(t: Timer, on: bool)
      requires Valid()
      modifies this`periodic
      ensures Valid() && Abs() == Apply(old(Abs()), Op.SetPeriodic(t, on))
    {
      periodic := if on then periodic + {t} else periodic - {t};
    }

    method Perform(op: Op, ghost lo: int)
      requires Valid() && WellFormed(Abs()) && OpOk(Abs(), op) && InWindow(Abs(), lo) && now - 3 <= lo <= now
      modifies this
      ensures Valid() && Abs() == Apply(old(Abs()), op)
    {
      match op
      case Start(t) => Start(t, lo);
      case Stop(t) => var _ := Stop(t);
      case SetTime(t, ticks) => SetTime(t, ticks);
      case SetPeriodic(t, on) => SetPeriodic(t, on);
    }

    // A timeout function, as the operations it performs on timers.
    method Callback(ops: seq<Op>, ghost lo: int)
      requires Valid() && WellFormed(Abs()) && OpsOk(Abs(), ops) && InWindow(Abs(), lo) && now - 3 <= lo <= now
      modifies this
      ensures Valid() && Abs() == ApplyAll(old(Abs()), ops)
      decreases |ops|
    {
      if ops != [] {
        ghost var s := Abs();
        assert OpOk(s, ops[0]);
        ApplyFacts(s, ops[0], lo);
        Perform(ops[0], lo);
        forall o | o in ops[1..] ensures OpOk(Abs(), o) { assert OpOk(s, o); }
        Callback(ops[1..], lo);
      }
    }

    // One round of the loop of rt_timer_check, for the expired timer t at the head of the list.
    method Round(ops: seq<Op>, ghost lo: int)
      requires Valid() && WellFormed(Abs()) && OpsOk(Abs(), ops) && InWindow(Abs(), lo) && now - 3 <= lo <= now
      requires firing == [] && rows[L - 1] != [] && Rank(due, rows[L - 1][0]) <= now
      modifies this
      ensures Valid() && Abs() == Fire(old(Abs()), ops)
    {
      ghost var s := Abs();
      var t := rows[L - 1][0];
      TakenFacts(s, lo);
      TakeFirst();
      forall o | o in ops ensures OpOk(Abs(), o) { assert OpOk(s, o); }
      ApplyAllFacts(Taken(s), ops, lo);
      Callback(ops, lo);
      if firing != [] {
        Rearm(t, lo);
      }
    }

    method TakeFirst()
      requires Valid() && rows[L - 1] != []
      modifies this
      ensures Valid() && Abs() == Taken(old(Abs()))
    {
      var t := rows[L - 1][0];
      Remove(t);
      if t !in periodic {
        active := active - {t};
      }
      firing := [t] + firing;
    }

    method Rearm(t: Timer, ghost lo: int)
      requires Valid() && WellFormed(Abs()) && InWindow(Abs(), lo) && now - 3 <= lo <= now && firing != []
      modifies this
      ensures Valid() && Abs() == Rearmed(old(Abs()), t)
    {
      firing := Removed(firing, t);
      if t in periodic && t in active {
        assert TimeOk(old(Abs()), t);
        active := active - {t};
        Start(t, lo);
      }
    }

    // The wrapped test of rt_timer_check on the first timer of the list.
    method FirstExpired(ghost lo: int) returns (expired: bool)
      requires Valid() && InWindow(Abs(), lo) && now - 3 <= lo <= now && rows[L - 1] != []
      ensures expired <==> Rank(due, rows[L - 1][0]) <= now
    {
      var t := rows[L - 1][0];
      assert TickOk(t, due, timeoutTick, top, L);
      CompareTicks(now, due[t]);
      expired := Minus(tick, timeoutTick[t]) < HALF;
    }

    // rt_timer_check. The timers fired are logged; script[i] is what the i-th callback does.
    method Check(script: seq<seq<Op>>, ghost lo: int) returns (log: seq<Timer>)
      requires Valid() && WellFormed(Abs()) && InWindow(Abs(), lo) && now - 3 <= lo <= now
      requires firing == [] && ScriptOk(Abs(), script)
      modifies this
      ensures Valid() && (Abs(), log) == TimerRuns.Check(old(Abs()), script, lo)
    {
      log := [];
      var rest := script;
      CheckingStarts(Abs(), script, lo);
      while rows[L - 1] != []
        invariant Valid() && Checking(old(Abs()), script, lo, Abs(), rest, log)
        decreases |Expired(rows[L - 1], due, now)|
      {
        var t := rows[L - 1][0];
        var expired := FirstExpired(lo);
        if expired {
          CheckingStep(old(Abs()), script, lo, Abs(), rest, log);
          Round(FirstOps(rest), lo);
          log := log + [t];
          rest := Rest(rest);
        } else {
          break;
        }
      }
      CheckingEnds(old(Abs()), script, lo, Abs(), rest, log);
    }

    // One tick of the clock: rt_tick_increase, with its call of rt_timer_check.
    method Tick(script: seq<seq<Op>>) returns (log: seq<Timer>)
      requires Valid() && Quiet(Abs()) && ScriptOk(Abs(), script)
      modifies this
      ensures Valid() && Abs() == Happens(old(Abs()), Event.Tick(script)) && log == Fired(old(Abs()), script)
    {
      ghost var s := Abs();
      TickedOk(s, script);
      WrappedSum(now, 1);
      tick := Wrapped(tick + 1);
      now := now + 1;
      assert Abs() == s.(now := s.now + 1);
      log := Check(script, s.now);
    }
  }

  lemma WrappedSum(a: int, b: int)
    ensures Wrapped(Wrapped(a) + b) == Wrapped(a + b)
  {
  }
}
