// Queues kept in order of rank, with equal ranks in order of arrival: the timer list of
// rt-thread/src/timer.c and the suspend lists of rt-thread/src/ipc.c.
module OrderedQueue {
  type Item = nat

  // What a queue is ordered by: deadlines of timers, priorities of threads.
  type Ranks = map<Item, int>

  function Rank(ranks: Ranks, x: Item): int {
    if x in ranks then ranks[x] else 0
  }

  // The number of leading items whose rank is not above d.
  function NotAfter(xs: seq<Item>, ranks: Ranks, d: int): (u: nat)
    ensures u <= |xs|
  {
    if xs == [] || Rank(ranks, xs[0]) > d then 0 else 1 + NotAfter(xs[1..], ranks, d)
  }

  // Linear stable insertion: behind every item that is not ranked higher.
  function Inserted(xs: seq<Item>, ranks: Ranks, d: int, x: Item): seq<Item> {
    if xs == [] || Rank(ranks, xs[0]) > d then [x] + xs else [xs[0]] + Inserted(xs[1..], ranks, d, x)
  }

  function Removed(xs: seq<Item>, x: Item): seq<Item> {
    if xs == [] then []
    else if xs[0] == x then Removed(xs[1..], x)
    else [xs[0]] + Removed(xs[1..], x)
  }

  ghost predicate Distinct(xs: seq<Item>) {
    xs == [] || (xs[0] !in xs[1..] && Distinct(xs[1..]))
  }

  ghost predicate Sorted(xs: seq<Item>, ranks: Ranks) {
    |xs| <= 1 || (Rank(ranks, xs[0]) <= Rank(ranks, xs[1]) && Sorted(xs[1..], ranks))
  }

  // xs can be obtained from ys by leaving out items.
  ghost predicate Subsequence(xs: seq<Item>, ys: seq<Item>) {
    xs == [] || (ys != [] && if xs[0] == ys[0] then Subsequence(xs[1..], ys[1..]) else Subsequence(xs, ys[1..]))
  }

  // ---- removal and insertion ----

  lemma {:induction false} InRemoved(xs: seq<Item>, x: Item, y: Item)
    ensures y in Removed(xs, x) <==> y in xs && y != x
  {
    if xs != [] {
      InRemoved(xs[1..], x, y);
      assert y in xs <==> y == xs[0] || y in xs[1..];
    }
  }

  lemma {:induction false} InInserted(xs: seq<Item>, ranks: Ranks, d: int, x: Item, y: Item)
    ensures y in Inserted(xs, ranks, d, x) <==> y in xs || y == x
  {
    if xs != [] && Rank(ranks, xs[0]) <= d {
      InInserted(xs[1..], ranks, d, x, y);
      assert y in xs <==> y == xs[0] || y in xs[1..];
    }
  }

  lemma {:induction false} AbsentRemoved(xs: seq<Item>, x: Item)
    requires x !in xs
    ensures Removed(xs, x) == xs
  {
    if xs != [] {
      AbsentRemoved(xs[1..], x);
    }
  }

  // No listed item ranks below the first one.
  lemma {:induction false} FirstIsEarliest(xs: seq<Item>, ranks: Ranks, y: Item)
    requires Sorted(xs, ranks) && y in xs
    ensures Rank(ranks, xs[0]) <= Rank(ranks, y)
  {
    if y != xs[0] {
      assert y in xs[1..];
      FirstIsEarliest(xs[1..], ranks, y);
    }
  }

  lemma {:induction false} RemovedSorted(xs: seq<Item>, x: Item, ranks: Ranks)
    requires Sorted(xs, ranks)
    ensures Sorted(Removed(xs, x), ranks)
  {
    if xs != [] {
      RemovedSorted(xs[1..], x, ranks);
      var r := Removed(xs[1..], x);
      if xs[0] != x && r != [] {
        InRemoved(xs[1..], x, r[0]);
        FirstIsEarliest(xs, ranks, r[0]);
        assert Removed(xs, x)[1..] == r;
      }
    }
  }

  lemma {:induction false} RemovedDistinct(xs: seq<Item>, x: Item)
    requires Distinct(xs)
    ensures Distinct(Removed(xs, x))
  {
    if xs != [] {
      RemovedDistinct(xs[1..], x);
      InRemoved(xs[1..], x, xs[0]);
      assert xs[0] != x ==> Removed(xs, x)[1..] == Removed(xs[1..], x);
    }
  }

  lemma {:induction false} InsertedDistinct(xs: seq<Item>, ranks: Ranks, d: int, x: Item)
    requires Distinct(xs) && x !in xs
    ensures Distinct(Inserted(xs, ranks, d, x))
  {
    if xs == [] || Rank(ranks, xs[0]) > d {
      assert ([x] + xs)[1..] == xs;
    } else {
      InsertedDistinct(xs[1..], ranks, d, x);
      InInserted(xs[1..], ranks, d, x, xs[0]);
      assert Inserted(xs, ranks, d, x)[1..] == Inserted(xs[1..], ranks, d, x);
    }
  }

  lemma {:induction false} AppendDistinct(xs: seq<Item>, x: Item)
    requires Distinct(xs) && x !in xs
    ensures Distinct(xs + [x])
  {
    if xs != [] {
      AppendDistinct(xs[1..], x);
      assert (xs + [x])[1..] == xs[1..] + [x];
    }
  }

  lemma {:induction false} RemovedAppend(xs: seq<Item>, y: Item, x: Item)
    requires x != y
    ensures Removed(xs + [y], x) == Removed(xs, x) + [y]
  {
    if xs == [] {
      assert xs + [y] == [y] && [y][1..] == [];
    } else {
      assert (xs + [y])[1..] == xs[1..] + [y];
      RemovedAppend(xs[1..], y, x);
    }
  }

  lemma {:induction false} RemovedOne(xs: seq<Item>, x: Item)
    requires Distinct(xs)
    ensures |Removed(xs, x)| == |xs| - if x in xs then 1 else 0
  {
    if xs != [] {
      if xs[0] == x { AbsentRemoved(xs[1..], x); } else { RemovedOne(xs[1..], x); }
    }
  }

  // Distinct numbers below n are at most n.
  lemma {:induction false} DistinctBelow(xs: seq<Item>, n: nat)
    requires Distinct(xs) && forall x :: x in xs ==> x < n
    ensures |xs| <= n
    decreases n
  {
    if xs != [] {
      assert xs[0] in xs;
      var top: nat := n - 1;
      forall x | x in Removed(xs, top) ensures x < top { InRemoved(xs, top, x); }
      RemovedDistinct(xs, top);
      RemovedOne(xs, top);
      DistinctBelow(Removed(xs, top), top);
    }
  }

  // A new rank for an item that is not listed does not disturb the order.
  lemma {:induction false} SortedFrame(xs: seq<Item>, ranks: Ranks, x: Item, d: int)
    requires Sorted(xs, ranks) && x !in xs
    ensures Sorted(xs, ranks[x := d])
  {
    if |xs| > 1 {
      SortedFrame(xs[1..], ranks, x, d);
    }
  }

  lemma {:induction false} InsertedSorted(xs: seq<Item>, ranks: Ranks, d: int, x: Item)
    requires Sorted(xs, ranks) && x !in xs
    ensures Sorted(Inserted(xs, ranks, d, x), ranks[x := d])
  {
    var r := Inserted(xs, ranks, d, x);
    if xs == [] || Rank(ranks, xs[0]) > d {
      SortedFrame(xs, ranks, x, d);
      assert r[1..] == xs;
    } else {
      InsertedSorted(xs[1..], ranks, d, x);
      assert r[1..] == Inserted(xs[1..], ranks, d, x);
    }
  }

  // Where the new item goes, by position.
  lemma {:induction false} InsertedAt(xs: seq<Item>, ranks: Ranks, d: int, x: Item)
    ensures var u := NotAfter(xs, ranks, d); Inserted(xs, ranks, d, x) == xs[..u] + [x] + xs[u..]
  {
    if xs != [] && Rank(ranks, xs[0]) <= d {
      InsertedAt(xs[1..], ranks, d, x);
      var u := NotAfter(xs[1..], ranks, d);
      assert xs[..u + 1] == [xs[0]] + xs[1..][..u];
    }
  }

  lemma {:induction false} NotAfterAt(xs: seq<Item>, ranks: Ranks, d: int, i: nat)
    requires Sorted(xs, ranks) && i < |xs|
    ensures i < NotAfter(xs, ranks, d) <==> Rank(ranks, xs[i]) <= d
  {
    if Rank(ranks, xs[0]) > d {
      FirstIsEarliest(xs, ranks, xs[i]);
    } else if i > 0 {
      NotAfterAt(xs[1..], ranks, d, i - 1);
    }
  }

  lemma {:induction false} RemovedByPosition(xs: seq<Item>, n: nat)
    requires Distinct(xs) && n < |xs|
    ensures Removed(xs, xs[n]) == xs[..n] + xs[n + 1..]
  {
    var rest := xs[1..];
    if n == 0 {
      AbsentRemoved(rest, xs[0]);
    } else {
      var x := xs[n];
      assert rest[n - 1] == x;
      RemovedByPosition(rest, n - 1);
      assert x in rest;
      assert Removed(xs, x) == [xs[0]] + Removed(rest, x);
      assert [xs[0]] + (rest[..n - 1] + rest[n..]) == xs[..n] + xs[n + 1..];
    }
  }
}
