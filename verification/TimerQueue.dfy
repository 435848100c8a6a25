// What the timer list of rt-thread/src/timer.c means: one list of pending timers, ordered by
// absolute deadline, with equal deadlines in start order, and the levels that skip over it.
module TimerQueue {
  import opened OrderedQueue

  type Timer = Item

  // Absolute deadlines, on a clock that never wraps.
  type Deadlines = Ranks

  // The timers that reach up to level k: top gives the uppermost level a timer is linked on.
  function Level(xs: seq<Timer>, top: map<Timer, nat>, k: nat): seq<Timer> {
    if xs == [] then []
    else if xs[0] in top && top[xs[0]] <= k then [xs[0]] + Level(xs[1..], top, k)
    else Level(xs[1..], top, k)
  }

  lemma {:induction false} InLevel(xs: seq<Timer>, top: map<Timer, nat>, k: nat, y: Timer)
    ensures y in Level(xs, top, k) <==> y in xs && y in top && top[y] <= k
  {
    if xs != [] {
      InLevel(xs[1..], top, k, y);
      assert y in xs <==> y == xs[0] || y in xs[1..];
    }
  }

  lemma {:induction false} LevelSorted(xs: seq<Timer>, top: map<Timer, nat>, k: nat, due: Deadlines)
    requires Sorted(xs, due)
    ensures Sorted(Level(xs, top, k), due)
  {
    if xs != [] {
      LevelSorted(xs[1..], top, k, due);
      var r := Level(xs[1..], top, k);
      if r != [] {
        InLevel(xs[1..], top, k, r[0]);
        FirstIsEarliest(xs, due, r[0]);
        assert ([xs[0]] + r)[1..] == r;
      }
    }
  }

  // Each level is a subsequence of the next.
  lemma {:induction false} LevelsNest(xs: seq<Timer>, top: map<Timer, nat>, j: nat, k: nat)
    requires j <= k
    ensures Subsequence(Level(xs, top, j), Level(xs, top, k))
  {
    if xs != [] {
      LevelsNest(xs[1..], top, j, k);
      var l, r := Level(xs[1..], top, j), Level(xs[1..], top, k);
      if xs[0] in top && top[xs[0]] <= k {
        assert ([xs[0]] + r)[1..] == r && ([xs[0]] + l)[1..] == l;
        if top[xs[0]] > j && l != [] && l[0] == xs[0] {
          DropHead(l, r);
        }
      }
    }
  }

  lemma {:induction false} DropHead(xs: seq<Timer>, ys: seq<Timer>)
    requires xs != [] && Subsequence(xs, ys)
    ensures Subsequence(xs[1..], ys)
    decreases |ys|, 1
  {
    if xs[0] != ys[0] {
      DropHead(xs, ys[1..]);
    }
    SubsequenceMore(xs[1..], ys);
  }

  lemma {:induction false} SubsequenceMore(xs: seq<Timer>, ys: seq<Timer>)
    requires ys != [] && Subsequence(xs, ys[1..])
    ensures Subsequence(xs, ys)
    decreases |ys|, 0
  {
    if xs != [] && xs[0] == ys[0] {
      DropHead(xs, ys[1..]);
    }
  }

  lemma {:induction false} LevelRemoved(xs: seq<Timer>, top: map<Timer, nat>, k: nat, x: Timer)
    ensures Level(Removed(xs, x), top, k) == Removed(Level(xs, top, k), x)
  {
    if xs != [] {
      LevelRemoved(xs[1..], top, k, x);
      var r := Level(xs[1..], top, k);
      assert ([xs[0]] + r)[1..] == r;
      var s := Removed(xs[1..], x);
      assert ([xs[0]] + s)[1..] == s;
    }
  }

  lemma {:induction false} LevelFrame(xs: seq<Timer>, top: map<Timer, nat>, k: nat, x: Timer, t: nat)
    requires x !in xs
    ensures Level(xs, top[x := t], k) == Level(xs, top, k)
  {
    if xs != [] {
      LevelFrame(xs[1..], top, k, x, t);
    }
  }

  // Inserting into the bottom list shows on every level the timer reaches as a stable insertion
  // into that level alone, and on no other.
  lemma {:induction false} LevelInserted(xs: seq<Timer>, top: map<Timer, nat>, k: nat, due: Deadlines,
                                        d: int, x: Timer, t: nat)
    requires Sorted(xs, due) && x !in xs
    ensures
      Level(Inserted(xs, due, d, x), top[x := t], k)
        == if t <= k then Inserted(Level(xs, top, k), due, d, x) else Level(xs, top, k)
  {
    if xs == [] || Rank(due, xs[0]) > d {
      LevelFrame(xs, top, k, x, t);
      assert ([x] + xs)[1..] == xs;
      var l := Level(xs, top, k);
      if l != [] {
        InLevel(xs, top, k, l[0]);
        FirstIsEarliest(xs, due, l[0]);
      }
    } else {
      LevelInserted(xs[1..], top, k, due, d, x, t);
      var r, l := Inserted(xs[1..], due, d, x), Level(xs[1..], top, k);
      assert ([xs[0]] + r)[1..] == r;
      assert ([xs[0]] + l)[1..] == l;
    }
  }
}
