// The page allocator under the slab (rt-thread/src/slab.c): a list of runs of free pages in order of
// address, with first-fit allocation and coalescing on release.
module SlabPages {
  import opened Options

  datatype Run = Run(page: nat, count: nat)

  // ---- the list and the pages it stands for ----

  predicate Covers(r: Run, k: nat) {
    r.page <= k < r.page + r.count
  }

  predicate HasPage(runs: seq<Run>, k: nat) {
    runs != [] && (Covers(runs[0], k) || HasPage(runs[1..], k))
  }

  // No run is empty, and each ends before the next begins: not even adjacent ones are left apart.
  ghost predicate Ordered(runs: seq<Run>) {
    runs == [] || (runs[0].count > 0 && (|runs| > 1 ==> runs[0].page + runs[0].count < runs[1].page)
       && Ordered(runs[1..]))
  }

  lemma {:induction false} NoneBefore(runs: seq<Run>, k: nat)
    requires Ordered(runs) && HasPage(runs, k)
    ensures runs[0].page <= k
  {
    if !Covers(runs[0], k) { NoneBefore(runs[1..], k); }
  }

  // Behind the first run comes a gap of at least one page.
  lemma TailBehind(runs: seq<Run>, k: nat)
    requires Ordered(runs) && runs != [] && HasPage(runs[1..], k)
    ensures runs[0].page + runs[0].count < k
  {
    NoneBefore(runs[1..], k);
  }

  // The set of free pages determines the list.
  lemma {:induction false} PagesDetermineRuns(a: seq<Run>, b: seq<Run>)
    requires Ordered(a) && Ordered(b) && forall k :: HasPage(a, k) <==> HasPage(b, k)
    ensures a == b
  {
    if a == [] {
      if b != [] { assert HasPage(b, b[0].page); }
    } else {
      assert HasPage(a, a[0].page);
      assert b != [];
      assert HasPage(b, b[0].page);
      NoneBefore(b, a[0].page);
      NoneBefore(a, b[0].page);
      SameEnd(a, b);
      forall k ensures HasPage(a[1..], k) <==> HasPage(b[1..], k) {
        assert HasPage(a, k) <==> HasPage(b, k);
        if HasPage(a[1..], k) { TailBehind(a, k); }
        if HasPage(b[1..], k) { TailBehind(b, k); }
      }
      PagesDetermineRuns(a[1..], b[1..]);
      assert a == [a[0]] + a[1..] && b == [b[0]] + b[1..];
    }
  }

  lemma SameEnd(a: seq<Run>, b: seq<Run>)
    requires Ordered(a) && Ordered(b) && a != [] && b != [] && a[0].page == b[0].page
    requires forall k :: HasPage(a, k) <==> HasPage(b, k)
    ensures a[0] == b[0]
  {
    var ea, eb := a[0].page + a[0].count, b[0].page + b[0].count;
    assert HasPage(a, ea) <==> HasPage(b, ea);
    assert HasPage(a, eb) <==> HasPage(b, eb);
    if HasPage(a[1..], ea) { TailBehind(a, ea); }
    if HasPage(b[1..], eb) { TailBehind(b, eb); }
    if ea < eb { assert Covers(b[0], ea); }
    if eb < ea { assert Covers(a[0], eb); }
  }

  // ---- allocation ----

  predicate Fits(runs: seq<Run>, n: nat) {
    runs != [] && (runs[0].count >= n || Fits(runs[1..], n))
  }

  // The first run that is long enough gives up its first n pages.
  function TakenAt(runs: seq<Run>, n: nat): nat
    requires Fits(runs, n)
  {
    if runs[0].count >= n then runs[0].page else TakenAt(runs[1..], n)
  }

  function Taken(runs: seq<Run>, n: nat): seq<Run>
    requires Fits(runs, n)
  {
    if runs[0].count > n then [Run(runs[0].page + n, runs[0].count - n)] + runs[1..]
    else if runs[0].count == n then runs[1..]
    else [runs[0]] + Taken(runs[1..], n)
  }

  lemma {:induction false} TakenFacts(runs: seq<Run>, n: nat, k: nat)
    requires Ordered(runs) && n > 0 && Fits(runs, n)
    ensures Ordered(Taken(runs, n)) && (Taken(runs, n) != [] ==> runs[0].page <= Taken(runs, n)[0].page)
    ensures HasPage(Taken(runs, n), k) <==> HasPage(runs, k) && !(TakenAt(runs, n) <= k < TakenAt(runs, n) + n)
    ensures TakenAt(runs, n) <= k < TakenAt(runs, n) + n ==> HasPage(runs, k)
    ensures runs[0].page <= TakenAt(runs, n)
  {
    var tail := runs[1..];
    if HasPage(tail, k) { TailBehind(runs, k); }
    if runs[0].count > n {
      var r := [Run(runs[0].page + n, runs[0].count - n)] + tail;
      assert r[1..] == tail;
    } else if runs[0].count < n {
      TakenFacts(tail, n, k);
      var r := [runs[0]] + Taken(tail, n);
      assert r[1..] == Taken(tail, n);
    }
  }

  // n consecutive free pages somewhere.
  ghost predicate Block(runs: seq<Run>, p: nat, n: nat) {
    forall k :: p <= k < p + n ==> HasPage(runs, k)
  }

  // Because runs are coalesced, allocation fails exactly when there are no n consecutive free pages.
  lemma {:induction false} FitsExactly(runs: seq<Run>, p: nat, n: nat)
    requires Ordered(runs) && n > 0 && Block(runs, p, n)
    ensures Fits(runs, n)
  {
    assert HasPage(runs, p);
    if runs[0].count < n {
      var e := runs[0].page + runs[0].count;
      NoneBefore(runs, p);
      if p < e {
        assert HasPage(runs, e);
        if HasPage(runs[1..], e) { TailBehind(runs, e); }
      } else {
        forall k | p <= k < p + n ensures HasPage(runs[1..], k) { assert HasPage(runs, k); }
        FitsExactly(runs[1..], p, n);
      }
    }
  }

  // ---- release ----

  function Freed(runs: seq<Run>, p: nat, n: nat): seq<Run> {
    if runs == [] then [Run(p, n)]
    else
      var b, tail := runs[0], runs[1..];
      if b.page + b.count == p then
        if tail != [] && p + n == tail[0].page then [Run(b.page, b.count + n + tail[0].count)] + tail[1..]
        else [Run(b.page, b.count + n)] + tail
      else if b.page == p + n then [Run(p, n + b.count)] + tail
      else if b.page > p + n then [Run(p, n)] + runs
      else [b] + Freed(tail, p, n)
  }

  ghost predicate Apart(runs: seq<Run>, p: nat, n: nat) {
    forall k :: p <= k < p + n ==> !HasPage(runs, k)
  }

  lemma ApartTail(runs: seq<Run>, p: nat, n: nat)
    requires runs != [] && Apart(runs, p, n)
    ensures Apart(runs[1..], p, n)
  {
    forall k | p <= k < p + n ensures !HasPage(runs[1..], k) { assert !HasPage(runs, k); }
  }

  // The first run lies wholly on one side of what is released.
  lemma FirstSide(runs: seq<Run>, p: nat, n: nat)
    requires Ordered(runs) && runs != [] && n > 0 && Apart(runs, p, n)
    ensures runs[0].page + runs[0].count <= p || p + n <= runs[0].page
  {
    assert !HasPage(runs, p);
    if p < runs[0].page < p + n { assert HasPage(runs, runs[0].page); }
  }

  lemma {:induction false} FreedFacts(runs: seq<Run>, p: nat, n: nat, k: nat)
    requires Ordered(runs) && n > 0 && Apart(runs, p, n)
    ensures Ordered(Freed(runs, p, n))
    ensures Freed(runs, p, n) != [] && Freed(runs, p, n)[0].page ==
        if runs == [] || p < runs[0].page then p else runs[0].page
    ensures HasPage(Freed(runs, p, n), k) <==> HasPage(runs, k) || p <= k < p + n
  {
    if runs == [] {
      assert [Run(p, n)][1..] == [];
    } else {
      var b, tail := runs[0], runs[1..];
      FirstSide(runs, p, n);
      ApartTail(runs, p, n);
      if b.page + b.count == p {
        if tail != [] { FirstSide(tail, p, n); }
        if tail != [] && p + n == tail[0].page {
          var r := [Run(b.page, b.count + n + tail[0].count)] + tail[1..];
          assert r[1..] == tail[1..];
        } else {
          var r := [Run(b.page, b.count + n)] + tail;
          assert r[1..] == tail;
        }
      } else if b.page == p + n {
        var r := [Run(p, n + b.count)] + tail;
        assert r[1..] == tail;
      } else if b.page > p + n {
        assert ([Run(p, n)] + runs)[1..] == runs;
      } else {
        FreedFacts(tail, p, n, k);
        assert ([b] + Freed(tail, p, n))[1..] == Freed(tail, p, n);
      }
    }
  }

  // Releasing pages just allocated restores the list, run for run.
  lemma FreeUndoesAlloc(runs: seq<Run>, n: nat)
    requires Ordered(runs) && n > 0 && Fits(runs, n)
    ensures Freed(Taken(runs, n), TakenAt(runs, n), n) == runs
  {
    var p, t := TakenAt(runs, n), Taken(runs, n);
    forall k | p <= k < p + n ensures !HasPage(t, k) { TakenFacts(runs, n, k); }
    TakenFacts(runs, n, 0);
    FreedFacts(t, p, n, 0);
    forall k ensures HasPage(Freed(t, p, n), k) <==> HasPage(runs, k) {
      FreedFacts(t, p, n, k);
      TakenFacts(runs, n, k);
    }
    PagesDetermineRuns(Freed(t, p, n), runs);
  }

  // ---- the allocator in place ----

  // The search has passed the first i runs, none of which is long enough.
  ghost predicate Passed(runs: seq<Run>, n: nat, i: nat)
    requires i <= |runs|
  {
    && (Fits(runs, n) <==> Fits(runs[i..], n))
    && (Fits(runs, n) ==>
          TakenAt(runs, n) == TakenAt(runs[i..], n) && Taken(runs, n) == runs[..i] + Taken(runs[i..], n))
  }

  lemma PassedNext(runs: seq<Run>, n: nat, i: nat)
    requires i < |runs| && Passed(runs, n, i) && runs[i].count < n
    ensures Passed(runs, n, i + 1)
  {
    assert runs[i..][0] == runs[i] && runs[i..][1..] == runs[i + 1..];
    if Fits(runs, n) {
      var t := Taken(runs[i + 1..], n);
      assert runs[..i] + ([runs[i]] + t) == runs[..i + 1] + t;
    }
  }

  lemma PassedHit(runs: seq<Run>, n: nat, i: nat)
    requires i < |runs| && Passed(runs, n, i) && runs[i].count >= n
    ensures Fits(runs, n) && TakenAt(runs, n) == runs[i].page
    ensures Taken(runs, n) ==
      if runs[i].count > n then runs[..i] + [Run(runs[i].page + n, runs[i].count - n)] + runs[i + 1..]
      else runs[..i] + runs[i + 1..]
  {
    assert runs[i..][0] == runs[i] && runs[i..][1..] == runs[i + 1..];
  }

  // The walk of a release has passed the first i runs.
  ghost predicate Walked(runs: seq<Run>, p: nat, n: nat, i: nat)
    requires i <= |runs|
  {
    Freed(runs, p, n) == runs[..i] + Freed(runs[i..], p, n)
  }

  lemma WalkedNext(runs: seq<Run>, p: nat, n: nat, i: nat)
    requires i < |runs| && Walked(runs, p, n, i)
    requires var b := runs[i]; b.page + b.count != p && b.page != p + n && b.page <= p + n
    ensures Walked(runs, p, n, i + 1)
  {
    assert runs[i..][0] == runs[i] && runs[i..][1..] == runs[i + 1..];
    var f := Freed(runs[i + 1..], p, n);
    assert runs[..i] + ([runs[i]] + f) == runs[..i + 1] + f;
  }

  predicate Touches(b: Run, p: nat, n: nat) {
    b.page + b.count == p || b.page == p + n
  }

  lemma WalkedStop(runs: seq<Run>, p: nat, n: nat, i: nat)
    requires i <= |runs| && Walked(runs, p, n, i)
    requires i < |runs| ==> Touches(runs[i], p, n) || runs[i].page > p + n
    ensures
      Freed(runs, p, n) ==
        if i < |runs| && runs[i].page + runs[i].count == p then
          if i + 1 < |runs| && p + n == runs[i + 1].page then
            runs[..i] + [Run(runs[i].page, runs[i].count + n + runs[i + 1].count)] + runs[i + 2..]
          else runs[..i] + [Run(runs[i].page, runs[i].count + n)] + runs[i + 1..]
        else if i < |runs| && runs[i].page == p + n then runs[..i] + [Run(p, n + runs[i].count)] + runs[i + 1..]
        else runs[..i] + [Run(p, n)] + runs[i..]
  {
    var tail := runs[i..];
    if i < |runs| {
      assert tail[0] == runs[i] && tail[1..] == runs[i + 1..];
      if i + 1 < |runs| { assert tail[1..][0] == runs[i + 1] && tail[1..][1..] == runs[i + 2..]; }
    }
  }

  class PageAllocator {
    var runs: seq<Run>                 // rt_page_list

    // rt_page_init
    constructor (page: nat, npages: nat)
      requires npages > 0
      ensures runs == [Run(page, npages)] && Ordered(runs)
    {
      runs := [Run(page, npages)];
      new;
      assert [Run(page, npages)][1..] == [];
    }

    // The loop of rt_page_alloc, up to the first run that is long enough.
    method Find(npages: nat) returns (i: nat)
      ensures i <= |runs| && (i < |runs| ==> Passed(runs, npages, i) && runs[i].count >= npages)
      ensures i == |runs| ==> !Fits(runs, npages)
    {
      i := 0;
      assert runs[0..] == runs;
      while i < |runs|
        invariant i <= |runs| && Passed(runs, npages, i)
      {
        if runs[i].count >= npages {
          return;
        }
        PassedNext(runs, npages, i);
        i := i + 1;
      }
      assert runs[i..] == [];
    }

    // rt_page_alloc; None for a null pointer.
    method Alloc(npages: nat) returns (b: Option<nat>)
      modifies this
      ensures b == if npages > 0 && Fits(old(runs), npages) then Some(TakenAt(old(runs), npages)) else None
      ensures runs == if npages > 0 && Fits(old(runs), npages) then Taken(old(runs), npages) else old(runs)
    {
      if npages == 0 {
        return None;
      }
      var i := Find(npages);
      if i == |runs| {
        return None;
      }
      PassedHit(runs, npages, i);
      var r := runs[i];
      if r.count > npages {
        runs := runs[..i] + [Run(r.page + npages, r.count - npages)] + runs[i + 1..];
      } else {
        runs := runs[..i] + runs[i + 1..];
      }
      return Some(r.page);
    }

    // The loop of rt_page_free, up to the first run that touches the pages or lies behind them.
    method Walk(p: nat, npages: nat) returns (i: nat)
      ensures i <= |runs| && Walked(runs, p, npages, i)
      ensures i < |runs| ==> Touches(runs[i], p, npages) || runs[i].page > p + npages
    {
      i := 0;
      assert runs[0..] == runs;
      while i < |runs|
        invariant i <= |runs| && Walked(runs, p, npages, i)
      {
        if runs[i].page + runs[i].count == p || runs[i].page == p + npages || runs[i].page > p + npages {
          return;
        }
        WalkedNext(runs, p, npages, i);
        i := i + 1;
      }
    }

    // rt_page_free
    method Free(p: nat, npages: nat)
      requires npages > 0
      modifies this
      ensures runs == Freed(old(runs), p, npages)
    {
      var i := Walk(p, npages);
      WalkedStop(runs, p, npages, i);
      if i < |runs| && runs[i].page + runs[i].count == p {
        var b := runs[i];
        var merged := Run(b.page, b.count + npages);
        if i + 1 < |runs| && b.page + merged.count == runs[i + 1].page {
          runs := runs[..i] + [Run(b.page, merged.count + runs[i + 1].count)] + runs[i + 2..];
        } else {
          runs := runs[..i] + [merged] + runs[i + 1..];
        }
      } else if i < |runs| && runs[i].page == p + npages {
        runs := runs[..i] + [Run(p, npages + runs[i].count)] + runs[i + 1..];
      } else {
        runs := runs[..i] + [Run(p, npages)] + runs[i..];
      }
    }
  }
}
