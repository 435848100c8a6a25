// Whole histories of a memheap (rt-thread/src/memheap.c): its layout with its free list as one state, what
// rt_memheap_alloc, rt_memheap_free and rt_memheap_realloc make of it, and the states they pass through.
module MemHeapRuns {
  import opened Alignment
  import opened BlockLayout
  import opened Integers
  import opened MemHeapLists
  import opened MemHeapLayout

  datatype Pool = Pool(h: Heap, f: seq<int>)

  ghost predicate Good(s: Pool, size: nat) {
    2 * ITEM < size < WORD32 && s.h.hdr == ITEM && s.h.Valid(size - ITEM) && Agree(s.h, s.f)
  }

  // The bytes that are not available: headers and blocks in use.
  ghost function Taken(s: Pool, size: nat): int
    requires Good(s, size)
  {
    size - FreeBytes(s.h)
  }

  // ---- one operation ----

  // Both the strict guard against the available size and the search let a request of n bytes pass.
  ghost predicate Succeeds(s: Pool, n: nat)
    requires Agree(s.h, s.f)
  {
    n < FreeBytes(s.h) && FirstFit(s.h, s.f, n, 1) < |s.f|
  }

  ghost function Chosen(s: Pool, n: nat): (j: nat)
    requires Agree(s.h, s.f) && Succeeds(s, n)
    ensures j < |s.h.used| && s.h.Fits(j, n) && s.h.at[j] as int in Listed(s.f)
  {
    var j := FreeIndex(s.h, s.f[FirstFit(s.h, s.f, n, 1)]);
    ListedFree(s.h, s.f, j);
    j
  }

  // rt_memheap_alloc of n bytes, rounded already.
  ghost function Allocated(s: Pool, size: nat, n: nat): (t: Pool)
    requires Good(s, size) && n > 0
    ensures Good(t, size)
  {
    if !Succeeds(s, n) then s
    else
      var j := Chosen(s, n);
      TakenGood(s, size, j, n);
      Pool(TakeAt(s.h, j, n, MINIALLOC), ListAfterTake(s.h, s.f, j, n))
  }

  ghost function Released(s: Pool, size: nat, i: nat): (t: Pool)
    requires Good(s, size) && i < |s.h.used| && s.h.used[i]
    ensures Good(t, size)
  {
    ReleasedGood(s, size, i);
    Pool(FreeAt(s.h, i), ListAfterFree(s.h, s.f, i))
  }

  // In-place growth of block i to n bytes.
  ghost function Grown(s: Pool, size: nat, i: nat, n: nat): (t: Pool)
    requires Good(s, size) && i < |s.h.used| && s.h.used[i] && n > s.h.Payload(i) && CanGrow(s.h, i, n)
    ensures Good(t, size)
  {
    GrownGood(s, size, i, n);
    var p := s.h.at[i] + ITEM + n;
    Pool(GrowTo(s.h, i, p), Front(Without(s.f, s.h.at[i + 1]), p))
  }

  ghost function Shrunk(s: Pool, size: nat, i: nat, n: nat): (t: Pool)
    requires Good(s, size) && i < |s.h.used| && s.h.used[i] && n > 0 && n + ITEM + MINIALLOC < s.h.Payload(i)
    ensures Good(t, size)
  {
    ShrunkGood(s, size, i, n);
    Pool(ShrinkAt(s.h, i, n), ListAfterShrink(s.h, s.f, i, n))
  }

  // The block is there twice for a while.
  ghost function Moved(s: Pool, size: nat, i: nat, n: nat): (t: Pool)
    requires Good(s, size) && i < |s.h.used| && s.h.used[i] && n > 0 && Succeeds(s, n)
    ensures Good(t, size)
  {
    var u := Allocated(s, size, n);
    MoveApart(s.h, size - ITEM, i, Chosen(s, n), n, MINIALLOC);
    Released(u, size, BlockAt(u.h, s.h.at[i]))
  }

  lemma MovedIs(s: Pool, size: nat, i: nat, n: nat)
    requires Good(s, size) && i < |s.h.used| && s.h.used[i] && n > 0 && Succeeds(s, n)
    ensures
      var u := Allocated(s, size, n);
      InUse(u.h, s.h.at[i]) && Moved(s, size, i, n) == Released(u, size, BlockAt(u.h, s.h.at[i]))
  {
    MoveApart(s.h, size - ITEM, i, Chosen(s, n), n, MINIALLOC);
  }

  // rt_memheap_realloc of block i to n bytes, rounded already.
  ghost function Resized(s: Pool, size: nat, i: nat, n: nat): (t: Pool)
    requires Good(s, size) && i < |s.h.used| && s.h.used[i] && n > 0
    ensures Good(t, size)
  {
    if n > s.h.Payload(i) then
      if CanGrow(s.h, i, n) then Grown(s, size, i, n)
      else if Succeeds(s, AllocSize(n)) then Moved(s, size, i, AllocSize(n))
      else s
    else if n + ITEM + MINIALLOC >= s.h.Payload(i) then s
    else Shrunk(s, size, i, n)
  }

  ghost predicate Moves(s: Pool, i: nat, n: nat)
    requires Agree(s.h, s.f) && i < |s.h.used|
  {
    n > s.h.Payload(i) && !CanGrow(s.h, i, n) && Succeeds(s, AllocSize(n))
  }

  // ---- histories ----

  datatype Op =
    | Alloc(size: nat)
    | Free(at: nat)
    | Realloc(at: nat, newsize: nat)

  // Sizes do not wrap, and the test for growth in place can be trusted.
  ghost predicate CanDo(s: Pool, op: Op)
    requires |s.h.at| == |s.h.used| + 1
  {
    match op
    case Alloc(size) => Alignable(size)
    case Free(_) => true
    case Realloc(at, newsize) =>
      && Alignable(newsize)
      && (newsize > 0 && InUse(s.h, at) && AllocSize(newsize) > s.h.Payload(BlockAt(s.h, at)) ==>
            GrowthSound(s.h, BlockAt(s.h, at), AllocSize(newsize)))
  }

  // Blocks are named by their offset; naming one that is not in use does nothing.
  ghost function Step(s: Pool, size: nat, op: Op): (t: Pool)
    requires Good(s, size)
    ensures Good(t, size)
  {
    match op
    case Alloc(bytes) => Allocated(s, size, AllocSize(bytes))
    case Free(at) => if InUse(s.h, at) then Released(s, size, BlockAt(s.h, at)) else s
    case Realloc(at, newsize) =>
      if !InUse(s.h, at) then s
      else if newsize == 0 then Released(s, size, BlockAt(s.h, at))
      else Resized(s, size, BlockAt(s.h, at), AllocSize(newsize))
  }

  // The states an operation passes through: a move has one on the way.
  ghost function Passed(s: Pool, size: nat, op: Op): (ts: seq<Pool>)
    requires Good(s, size)
    ensures forall t :: t in ts ==> Good(t, size)
  {
    if op.Realloc? && op.newsize > 0 && InUse(s.h, op.at) && Moves(s, BlockAt(s.h, op.at), AllocSize(op.newsize)) then
      [Allocated(s, size, AllocSize(AllocSize(op.newsize))), Step(s, size, op)]
    else [Step(s, size, op)]
  }

  // max_used_size, as the code keeps it: only where bytes are taken.
  ghost function MarkAfter(s: Pool, size: nat, op: Op, mark: int): int
    requires Good(s, size)
  {
    match op
    case Alloc(bytes) =>
      var n := AllocSize(bytes);
      if Succeeds(s, n) then Max(mark, Taken(Allocated(s, size, n), size)) else mark
    case Free(_) => mark
    case Realloc(at, newsize) =>
      if !InUse(s.h, at) || newsize == 0 then mark
      else ResizingMark(s, size, BlockAt(s.h, at), AllocSize(newsize), mark)
  }

  ghost function ResizingMark(s: Pool, size: nat, i: nat, n: nat, mark: int): int
    requires Good(s, size) && i < |s.h.used| && s.h.used[i] && n > 0
  {
    if n <= s.h.Payload(i) then mark
    else if CanGrow(s.h, i, n) then Max(mark, Taken(Grown(s, size, i, n), size))
    else if Succeeds(s, AllocSize(n)) then Max(mark, Taken(Allocated(s, size, AllocSize(n)), size))
    else mark
  }

  ghost predicate CanRun(s: Pool, size: nat, ops: seq<Op>)
    requires Good(s, size)
    decreases |ops|
  {
    ops == [] || (CanDo(s, ops[0]) && CanRun(Step(s, size, ops[0]), size, ops[1..]))
  }

  ghost function Run(s: Pool, size: nat, ops: seq<Op>): (t: Pool)
    requires Good(s, size)
    ensures Good(t, size)
    decreases |ops|
  {
    if ops == [] then s else Run(Step(s, size, ops[0]), size, ops[1..])
  }

  ghost function AllPassed(s: Pool, size: nat, ops: seq<Op>): (ts: seq<Pool>)
    requires Good(s, size)
    ensures forall t :: t in ts ==> Good(t, size)
    decreases |ops|
  {
    if ops == [] then [s] else [s] + Passed(s, size, ops[0]) + AllPassed(Step(s, size, ops[0]), size, ops[1..])
  }

  ghost function MarkOf(s: Pool, size: nat, ops: seq<Op>, mark: int): int
    requires Good(s, size)
    decreases |ops|
  {
    if ops == [] then mark
    else MarkOf(Step(s, size, ops[0]), size, ops[1..], MarkAfter(s, size, ops[0], mark))
  }

  // ---- what every operation keeps ----

  lemma TakenGood(s: Pool, size: nat, j: nat, n: nat)
    requires Good(s, size) && n > 0 && j < |s.h.used| && s.h.Fits(j, n)
    ensures Good(Pool(TakeAt(s.h, j, n, MINIALLOC), ListAfterTake(s.h, s.f, j, n)), size)
  {
    TakeFacts(s.h, size - ITEM, j, n, MINIALLOC);
    TakenAgrees(s, size, j, n);
  }

  lemma TakenAgrees(s: Pool, size: nat, j: nat, n: nat)
    requires Good(s, size) && n > 0 && j < |s.h.used| && s.h.Fits(j, n)
    ensures Agree(TakeAt(s.h, j, n, MINIALLOC), ListAfterTake(s.h, s.f, j, n))
  {
    var end, a, p := size - ITEM, s.h.at[j], s.h.at[j] + n + ITEM;
    TakeAddrs(s.h, end, j, n);
    ListedFree(s.h, s.f, j);
    WithoutFacts(s.f, a);
    if s.h.Payload(j) >= n + ITEM + MINIALLOC {
      InsideNotFree(s.h, end, j, p);
      FrontFacts(Without(s.f, a), p);
    }
  }

  lemma ReleasedGood(s: Pool, size: nat, i: nat)
    requires Good(s, size) && i < |s.h.used| && s.h.used[i]
    ensures Good(Pool(FreeAt(s.h, i), ListAfterFree(s.h, s.f, i)), size)
  {
    var end, a, b := size - ITEM, s.h.at[i], s.h.at[i + 1];
    FreeFacts(s.h, end, i);
    FreeAtAddrs(s.h, end, i);
    Distinct(s.h, end, i);
    assert a as int !in FreeAddrs(s.h);
    var rest := s.f;
    if i + 1 < |s.h.used| && !s.h.used[i + 1] {
      ListedFree(s.h, s.f, i + 1);
      WithoutFacts(s.f, b);
      rest := Without(s.f, b);
    }
    FrontFacts(rest, a);
  }

  lemma GrownGood(s: Pool, size: nat, i: nat, n: nat)
    requires Good(s, size) && i < |s.h.used| && s.h.used[i] && n > s.h.Payload(i) && CanGrow(s.h, i, n)
    ensures s.h.at[i + 1] as int in Listed(s.f)
    ensures
      var p := s.h.at[i] + ITEM + n;
      |Without(s.f, s.h.at[i + 1])| >= 1 && Good(Pool(GrowTo(s.h, i, p), Front(Without(s.f, s.h.at[i + 1]), p)), size)
  {
    var end, p := size - ITEM, s.h.at[i] + ITEM + n;
    GrowFacts(s.h, end, i, p);
    ListedFree(s.h, s.f, i + 1);
    WithoutFacts(s.f, s.h.at[i + 1]);
    InsideNotFree(s.h, end, i + 1, p);
    FrontFacts(Without(s.f, s.h.at[i + 1]), p);
  }

  lemma ShrunkGood(s: Pool, size: nat, i: nat, n: nat)
    requires Good(s, size) && i < |s.h.used| && s.h.used[i] && n > 0 && n + ITEM + MINIALLOC < s.h.Payload(i)
    ensures Good(Pool(ShrinkAt(s.h, i, n), ListAfterShrink(s.h, s.f, i, n)), size)
  {
    var end, p, b := size - ITEM, s.h.at[i] + n + ITEM, s.h.at[i + 1];
    ShrinkFacts(s.h, end, i, n, MINIALLOC);
    ShrinkAddrs(s.h, end, i, n);
    ShrinkListed(s.h, end, i, n);
    var rest := s.f;
    if i + 1 < |s.h.used| && !s.h.used[i + 1] {
      ListedFree(s.h, s.f, i + 1);
      WithoutFacts(s.f, b);
      rest := Without(s.f, b);
    }
    FrontFacts(rest, p);
  }

  // ---- the high-water mark ----

  lemma StepPeak(s: Pool, size: nat, op: Op, mark: int)
    requires Good(s, size) && mark >= Taken(s, size)
    ensures
      var ts, m := Passed(s, size, op), MarkAfter(s, size, op, mark);
      && m >= mark && (forall t :: t in ts ==> Taken(t, size) <= m)
      && (m == mark || exists t :: t in ts && Taken(t, size) == m)
  {
    var ts, m := Passed(s, size, op), MarkAfter(s, size, op, mark);
    assert ts[0] in ts;
    match op
    case Alloc(bytes) =>
    case Free(at) => if InUse(s.h, at) { FreeGains(s.h, size - ITEM, BlockAt(s.h, at)); }
    case Realloc(at, newsize) =>
      if InUse(s.h, at) {
        if newsize == 0 {
          FreeGains(s.h, size - ITEM, BlockAt(s.h, at));
        } else {
          ResizedPeak(s, size, BlockAt(s.h, at), AllocSize(newsize), mark);
        }
      }
  }

  // Where a reallocation ends up is no higher than its mark, and where it takes most just as high.
  lemma ResizedPeak(s: Pool, size: nat, i: nat, n: nat, mark: int)
    requires Good(s, size) && i < |s.h.used| && s.h.used[i] && n > 0 && mark >= Taken(s, size)
    ensures
      var m := ResizingMark(s, size, i, n, mark);
      && m >= mark && Taken(Resized(s, size, i, n), size) <= m
      && (m == mark ||
      m == Taken(if Moves(s, i, n) then Allocated(s, size, AllocSize(n)) else Resized(s, size, i, n), size))
      && (Moves(s, i, n) ==> Taken(Allocated(s, size, AllocSize(n)), size) <= m)
  {
    if Moves(s, i, n) {
      var m := AllocSize(n);
      var t := Allocated(s, size, m);
      MoveApart(s.h, size - ITEM, i, Chosen(s, m), m, MINIALLOC);
      FreeGains(t.h, size - ITEM, BlockAt(t.h, s.h.at[i]));
    } else if n <= s.h.Payload(i) && n + ITEM + MINIALLOC < s.h.Payload(i) {
      ShrinkAddrs(s.h, size - ITEM, i, n);
    }
  }

  lemma {:induction false} RunPeak(s: Pool, size: nat, ops: seq<Op>, mark: int)
    requires Good(s, size) && mark >= Taken(s, size)
    ensures
      var ts, m := AllPassed(s, size, ops), MarkOf(s, size, ops, mark);
      && m >= mark && (forall t :: t in ts ==> Taken(t, size) <= m)
      && (m == mark || exists t :: t in ts && Taken(t, size) == m)
    decreases |ops|
  {
    if ops != [] {
      var n, m := Step(s, size, ops[0]), MarkAfter(s, size, ops[0], mark);
      StepPeak(s, size, ops[0], mark);
      RunPeak(n, size, ops[1..], m);
    }
  }

  // rt_memheap_init
  ghost function Initial(size: nat): (s: Pool)
    requires 2 * ITEM < size < WORD32
    ensures Good(s, size) && Taken(s, size) == 2 * ITEM
  {
    var h := Init(size);
    InitFacts(size);
    Pool(h, [HEAD, 0])
  }

  lemma InitFacts(size: nat)
    requires 2 * ITEM < size < WORD32
    ensures Good(Pool(Init(size), [HEAD, 0]), size) && FreeBytes(Init(size)) == size - 2 * ITEM
  {
    var h, f := Init(size), [HEAD, 0];
    assert h.Gap(0, 1);
    assert FreeUpTo(h, 1) == FreeUpTo(h, 0) + (size - ITEM - ITEM);
    assert !h.used[0] && f[1] == 0;
    assert Listed(f) == {0} == FreeAddrs(h);
  }

  // The test for growth in place can fail: in a pool of 3 GiB with one block of 16 bytes in use, it takes the
  // free rest for enough to grow that block to 3.25 GiB, past the end of the pool.
  lemma GrowthMisjudged()
    ensures
      var size, n := 0xC000_0000, 0xD000_0000;
      var s := Step(Initial(size), size, Alloc(16));
      && |s.h.used| > 1 && IsBlock(s.h, 0, 0) && n > s.h.Payload(0)
      && CodeGrows(s.h, 0, n) && !CanGrow(s.h, 0, n) && !GrowthSound(s.h, 0, n)
      && s.h.at[0] + ITEM + n > size
  {
    var size, n := 0xC000_0000, 0xD000_0000;
    var s0 := Initial(size);
    var s := Step(s0, size, Alloc(16));
    FirstTaken(size, 16);
    assert s.h.Payload(1) == 0xC000_0000 - 3 * ITEM - 16;
    assert ToUnsigned(ToInt(s.h.Payload(1))) == WORD64 - WORD32 + s.h.Payload(1);
    GrowthExact(s.h, size - ITEM, 0, n);
  }

  // The first allocation in a new pool splits its one block.
  lemma FirstTaken(size: nat, n: nat)
    requires 2 * ITEM < size < WORD32 && n > 0 && n + ITEM + MINIALLOC <= size - 2 * ITEM
    ensures
      var s := Initial(size);
      && Succeeds(s, n)
      && Allocated(s, size, n).h == Heap(ITEM, [0, ITEM + n, size - ITEM], [true, false])
  {
    var s := Initial(size);
    InitFacts(size);
    assert s.f[1] in Listed(s.f);
    assert FreeIndex(s.h, 0) == 0;
    assert FirstFit(s.h, s.f, n, 1) == 1;
    assert Chosen(s, n) == 0;
    CutAccess(s.h, 0, ITEM + n);
    var t := Cut(s.h, 0, ITEM + n);
    assert t.at == [0, ITEM + n, size - ITEM] && t.used == [true, false];
  }

  // After any history max_used_size is the most that has ever been taken: no state the pool passed
  // through took more, the low point in the middle of a move included, and one took just that.
  lemma HighWater(size: nat, ops: seq<Op>)
    requires 2 * ITEM < size < WORD32 && CanRun(Initial(size), size, ops)
    ensures
      var ts, m := AllPassed(Initial(size), size, ops), MarkOf(Initial(size), size, ops, 2 * ITEM);
      && (forall t :: t in ts ==> Taken(t, size) <= m)
      && (exists t :: t in ts && Taken(t, size) == m)
  {
    var s := Initial(size);
    RunPeak(s, size, ops, 2 * ITEM);
    assert s in AllPassed(s, size, ops);
  }

  // Histories that leave the same blocks in use leave the same blocks free, and one that releases all
  // leaves the pool as it was initialised.
  lemma HistoriesAgree(size: nat, left: seq<Op>, right: seq<Op>)
    requires 2 * ITEM < size < WORD32
    requires CanRun(Initial(size), size, left) && CanRun(Initial(size), size, right)
    requires Run(Initial(size), size, left).h.Live() == Run(Initial(size), size, right).h.Live()
    ensures Run(Initial(size), size, left).h == Run(Initial(size), size, right).h
    ensures Listed(Run(Initial(size), size, left).f) == Listed(Run(Initial(size), size, right).f)
  {
    LiveDeterminesLayout(Run(Initial(size), size, left).h, Run(Initial(size), size, right).h, size - ITEM);
  }

  lemma AllReleasedIsInitial(size: nat, ops: seq<Op>)
    requires 2 * ITEM < size < WORD32 && CanRun(Initial(size), size, ops)
    requires Run(Initial(size), size, ops).h.Live() == {}
    ensures Run(Initial(size), size, ops) == Initial(size)
  {
    var s, n := Initial(size), Run(Initial(size), size, ops);
    assert s.h.Live() == {};
    LiveDeterminesLayout(n.h, s.h, size - ITEM);
    OneListed(n.f);
  }

  lemma OneListed(f: seq<int>)
    requires |f| >= 1 && f[0] == HEAD && NoDup(f) && Listed(f) == {0}
    ensures f == [HEAD, 0]
  {
    assert forall j :: 2 <= j < |f| ==> f[1] != f[j];
    assert 0 in Listed(f);
    forall j | 1 <= j < |f| ensures f[j] == 0 { assert f[j] in Listed(f); }
    assert f[|f| - 1] == f[1] == 0;
  }
}
