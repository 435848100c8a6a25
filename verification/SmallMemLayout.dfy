// Allocation policy of the small-memory heap (rt-thread/src/mem.c) on the block layout, and what
// whole histories of rt_malloc, rt_free and rt_realloc lead to.
module SmallMemLayout {
  import opened Alignment
  import opened BlockLayout

  const HDR: nat := 24                // SIZEOF_STRUCT_MEM on a 64-bit CPU
  const MIN_SIZE: nat := 24           // MIN_SIZE == MIN_SIZE_ALIGNED on a 64-bit CPU

  // The payload size rt_malloc looks for.
  function Request(size: nat): (n: nat)
    ensures Aligned(n) && n >= size && n >= MIN_SIZE
  {
    if AlignUp(size) < MIN_SIZE then MIN_SIZE else AlignUp(size)
  }

  ghost predicate AlignedAt(h: Heap, i: nat)
    requires i < |h.at|
  {
    Aligned(h.at[i])
  }

  ghost predicate AllAligned(h: Heap) {
    forall i: nat :: i < |h.at| ==> AlignedAt(h, i)
  }

  // A coalesced tiling of the heap with every header on an 8-byte boundary.
  ghost predicate WellFormed(h: Heap, memSize: nat) {
    h.hdr == HDR && h.Valid(memSize + HDR) && AllAligned(h)
  }

  // rt_system_heap_init: one free block.
  function Init(memSize: nat): Heap {
    Heap(HDR, [0, memSize + HDR], [false])
  }

  lemma CutAligned(h: Heap, i: nat, p: nat)
    requires |h.at| == |h.used| + 1 && i < |h.used| && AllAligned(h) && Aligned(p)
    ensures AllAligned(Cut(h, i, p))
  {
    CutAccess(h, i, p);
    forall j: nat | j < |h.at| + 1
      ensures AlignedAt(Cut(h, i, p), j)
    {
      assert j != i + 1 ==> AlignedAt(h, if j <= i then j else j - 1);
    }
  }

  lemma PlugAligned(h: Heap, i: nat)
    requires |h.at| == |h.used| + 1 && i < |h.used| && AllAligned(h)
    ensures AllAligned(Plug(h, i))
  {
    var f := JoinForward(h, i);
    if f != h { JoinAligned(h, i); }
    if i > 0 && !f.used[i - 1] { JoinAligned(f, i - 1); }
  }

  lemma JoinAligned(h: Heap, i: nat)
    requires |h.at| == |h.used| + 1 && i + 1 < |h.used| && AllAligned(h)
    ensures AllAligned(Join(h, i))
  {
    JoinAccess(h, i);
    forall j: nat | j < |h.at| - 1
      ensures AlignedAt(Join(h, i), j)
    {
      assert AlignedAt(h, if j <= i then j else j + 1);
    }
  }

  lemma MarkAligned(h: Heap, i: nat, flag: bool)
    requires i < |h.used| && AllAligned(h)
    ensures AllAligned(Mark(h, i, flag))
  {
    forall j: nat | j < |h.at|
      ensures AlignedAt(Mark(h, i, flag), j)
    {
      assert AlignedAt(h, j);
    }
  }

  lemma ShrinkAligned(h: Heap, i: nat, n: nat)
    requires |h.at| == |h.used| + 1 && i < |h.used| && AllAligned(h) && Aligned(h.at[i] + h.hdr + n)
    ensures AllAligned(ShrinkAt(h, i, n))
  {
    CutAligned(h, i, h.at[i] + h.hdr + n);
    PlugAligned(Cut(h, i, h.at[i] + h.hdr + n), i + 1);
  }

  // Allocation, release and shrinking keep the heap well-formed.
  lemma TakeWellFormed(h: Heap, memSize: nat, i: nat, n: nat)
    requires WellFormed(h, memSize) && i < |h.used| && h.Fits(i, n) && n > 0 && Aligned(n)
    ensures WellFormed(TakeAt(h, i, n, MIN_SIZE), memSize)
  {
    TakeFacts(h, memSize + HDR, i, n, MIN_SIZE);
    assert AlignedAt(h, i);
    CutAligned(h, i, h.at[i] + HDR + n);
    MarkAligned(h, i, true);
  }

  lemma FreeWellFormed(h: Heap, memSize: nat, i: nat)
    requires WellFormed(h, memSize) && i < |h.used| && h.used[i]
    ensures WellFormed(FreeAt(h, i), memSize)
  {
    FreeFacts(h, memSize + HDR, i);
    MarkAligned(h, i, false);
    PlugAligned(Mark(h, i, false), i);
  }

  lemma ShrinkWellFormed(h: Heap, memSize: nat, i: nat, n: nat)
    requires WellFormed(h, memSize) && i < |h.used| && h.used[i] && n > 0 && Aligned(n)
    requires n + HDR + MIN_SIZE < h.Payload(i)
    ensures WellFormed(ShrinkAt(h, i, n), memSize)
  {
    ShrinkFacts(h, memSize + HDR, i, n, MIN_SIZE);
    assert AlignedAt(h, i);
    ShrinkAligned(h, i, n);
  }

  // The search of rt_malloc from block i on: the first free block that fits, as long as
  // the strict bound of the loop (ptr < mem_size_aligned - size) is met.
  ghost function Search(h: Heap, memSize: nat, n: nat, i: nat): (k: nat)
    requires |h.at| == |h.used| + 1 && i <= |h.used|
    ensures i <= k <= |h.used|
    decreases |h.used| - i
  {
    if i == |h.used| || h.at[i] >= memSize - n then |h.used|
    else if h.Fits(i, n) then i
    else Search(h, memSize, n, i + 1)
  }

  // The search returns the lowest block that fits, and it comes back empty exactly when every
  // fitting block is an exact fit that ends at heap_end.
  lemma {:induction false} SearchIsLowestFit(h: Heap, memSize: nat, n: nat, i: nat)
    requires h.hdr == HDR && h.Tiled(memSize + HDR) && i <= |h.used|
    ensures
      var k := Search(h, memSize, n, i);
      && (k < |h.used| ==> h.Fits(k, n))
      && (forall j :: i <= j < k && j < |h.used| && h.Fits(j, n) ==> j == |h.used| - 1 && h.Payload(j) == n)
      && (k == |h.used| <==> forall j :: i <= j < |h.used| && h.Fits(j, n) ==> j == |h.used| - 1 && h.Payload(j) == n)
    decreases |h.used| - i
  {
    var last := |h.used| - 1;
    if i < |h.used| && h.at[i] < memSize - n && !h.Fits(i, n) {
      SearchIsLowestFit(h, memSize, n, i + 1);
    } else if i < |h.used| && h.at[i] < memSize - n {
      assert i == last ==> h.Payload(i) > n;
    } else if i < |h.used| {
      forall j | i <= j < |h.used| && h.Fits(j, n)
        ensures j == last && h.Payload(j) == n
      {
        Ordered(h, memSize + HDR, i, j);
        Ordered(h, memSize + HDR, j + 1, |h.used|);
      }
    }
  }

  // Skipping the blocks below the lowest free one changes nothing.
  lemma {:induction false} SearchFromLowestFree(h: Heap, memSize: nat, n: nat, i: nat, j: nat)
    requires h.hdr == HDR && h.Tiled(memSize + HDR) && i <= j <= |h.used|
    requires forall m :: i <= m < j ==> h.used[m]
    ensures Search(h, memSize, n, i) == Search(h, memSize, n, j)
    decreases j - i
  {
    if i < j {
      if h.at[i] >= memSize - n {
        if j < |h.used| { Ordered(h, memSize + HDR, i, j); }
      } else {
        SearchFromLowestFree(h, memSize, n, i + 1, j);
      }
    }
  }

  // ---- whole histories ----

  datatype Op =
    | Malloc(size: nat)
    | Free(at: nat)
    | Realloc(at: nat, newsize: nat)

  ghost function Allocate(h: Heap, memSize: nat, size: nat): (t: Heap)
    requires WellFormed(h, memSize)
    ensures WellFormed(t, memSize)
  {
    var n := Request(size);
    SearchIsLowestFit(h, memSize, n, 0);
    var k := Search(h, memSize, n, 0);
    if size == 0 || AlignUp(size) > memSize || k == |h.used| then h
    else TakeWellFormed(h, memSize, k, n); TakeAt(h, k, n, MIN_SIZE)
  }

  ghost function Release(h: Heap, memSize: nat, at: nat): (t: Heap)
    requires WellFormed(h, memSize)
    ensures WellFormed(t, memSize)
  {
    if InUse(h, at) then
      FreeWellFormed(h, memSize, BlockAt(h, at)); FreeBlock(h, at)
    else h
  }

  ghost function Shrink(h: Heap, memSize: nat, i: nat, n: nat): (t: Heap)
    requires WellFormed(h, memSize) && i < |h.used| && h.used[i]
    requires n > 0 && Aligned(n) && n + HDR + MIN_SIZE < h.Payload(i)
    ensures WellFormed(t, memSize)
  {
    ShrinkWellFormed(h, memSize, i, n); ShrinkAt(h, i, n)
  }

  ghost function Resize(h: Heap, memSize: nat, at: nat, newsize: nat): (t: Heap)
    requires WellFormed(h, memSize)
    ensures WellFormed(t, memSize)
  {
    var n := AlignUp(newsize);
    if n > memSize then h
    else if n == 0 then Release(h, memSize, at)
    else if InUse(h, at) then
      var i := BlockAt(h, at);
      if h.Payload(i) == n then h
      else if n + HDR + MIN_SIZE < h.Payload(i) then Shrink(h, memSize, i, n)
      else
        var t := Allocate(h, memSize, n);
        if t == h then h else Release(t, memSize, at)
    else h
  }

  // Blocks are named by their offset; naming one that is not in use does nothing.
  ghost function Step(h: Heap, memSize: nat, op: Op): (t: Heap)
    requires WellFormed(h, memSize)
    ensures WellFormed(t, memSize)
  {
    match op
    case Malloc(size) => Allocate(h, memSize, size)
    case Free(at) => Release(h, memSize, at)
    case Realloc(at, newsize) => Resize(h, memSize, at, newsize)
  }

  ghost function Run(h: Heap, memSize: nat, ops: seq<Op>): (t: Heap)
    requires WellFormed(h, memSize)
    ensures WellFormed(t, memSize)
    decreases |ops|
  {
    if ops == [] then h
    else
      var before := Run(h, memSize, ops[..|ops| - 1]);
      Step(before, memSize, ops[|ops| - 1])
  }

  // Whatever two histories did, if they leave the same blocks in use they leave the same heap:
  // no fragmentation outlives the blocks that caused it.
  lemma HistoriesAgree(h: Heap, memSize: nat, left: seq<Op>, right: seq<Op>)
    requires WellFormed(h, memSize)
    requires Run(h, memSize, left).Live() == Run(h, memSize, right).Live()
    ensures Run(h, memSize, left) == Run(h, memSize, right)
  {
    LiveDeterminesLayout(Run(h, memSize, left), Run(h, memSize, right), memSize + HDR);
  }

  // In particular a history that releases everything ends in the freshly initialised heap.
  lemma AllReleasedIsInitial(memSize: nat, ops: seq<Op>)
    requires Aligned(memSize) && memSize > 0
    ensures WellFormed(Init(memSize), memSize)
    ensures
      var init := Init(memSize);
      Run(init, memSize, ops).Live() == {} ==> Run(init, memSize, ops) == init
  {
    var init := Init(memSize);
    if Run(init, memSize, ops).Live() == {} {
      LiveDeterminesLayout(Run(init, memSize, ops), init, memSize + HDR);
    }
  }

  // The strict bound of the search loop in action: a request for the whole payload of the fresh
  // heap is refused, although the one free block holds exactly that many bytes.
  lemma WholeHeapIsRefused(memSize: nat)
    requires memSize > 0
    ensures Init(memSize).Fits(0, memSize) && Init(memSize).Payload(0) == memSize
    ensures Search(Init(memSize), memSize, memSize, 0) == |Init(memSize).used|
  {
  }
}
