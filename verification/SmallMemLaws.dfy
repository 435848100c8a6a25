// What one rt_malloc, rt_free or rt_realloc of the small-memory heap (rt-thread/src/mem.c) makes of the blocks
// in use.
module SmallMemLaws {
  import opened Alignment
  import opened BlockLayout
  import opened SmallMemLayout

  type Extent = (nat, nat)                       // where a block's header starts and where the block ends

  // The bytes at the disposal of whoever holds the block.
  function Room(b: Extent): int {
    b.1 - b.0 - HDR
  }

  lemma RequestIsLeast(size: nat, m: nat)
    requires Aligned(m) && m >= size && m >= MIN_SIZE
    ensures m >= Request(size)
  {
  }

  // A fitting block that the search may take: an exact fit at the end of the heap is out of its reach.
  ghost predicate Takeable(h: Heap, n: nat, i: nat)
    requires |h.at| == |h.used| + 1
  {
    i < |h.used| && h.Fits(i, n) && !(i == |h.used| - 1 && h.Payload(i) == n)
  }

  ghost predicate Lowest(h: Heap, n: nat, i: nat)
    requires |h.at| == |h.used| + 1
  {
    Takeable(h, n, i) && forall j: nat :: Takeable(h, n, j) ==> i <= j
  }

  // A malloc takes exactly the rounded request from the front of the lowest block that it may take, and the
  // whole block only if less than a header and a smallest block would be left of it. It fails exactly for a
  // size of zero, for one larger than the heap, and where there is no such block, and changes nothing then.
  lemma MallocTakes(h: Heap, memSize: nat, size: nat)
    requires WellFormed(h, memSize)
    ensures
      var t, n := Allocate(h, memSize, size), Request(size);
      if size == 0 || AlignUp(size) > memSize || forall i: nat :: !Takeable(h, n, i) then t == h
      else exists i: nat :: Lowest(h, n, i) && TakenFrom(h, t, n, i)
  {
    var n := Request(size);
    var k := Search(h, memSize, n, 0);
    SearchIsLowestFit(h, memSize, n, 0);
    if k < |h.used| {
      assert h.at[k] < memSize - n by { SearchInReach(h, memSize, n, 0); }
      assert Takeable(h, n, k);
      if size != 0 && AlignUp(size) <= memSize {
        TakeFacts(h, memSize + HDR, k, n, MIN_SIZE);
        TakeLive(h, memSize + HDR, k, n, MIN_SIZE);
        assert Lowest(h, n, k) && TakenFrom(h, Allocate(h, memSize, size), n, k);
      }
    }
  }

  lemma {:induction false} SearchInReach(h: Heap, memSize: nat, n: nat, i: nat)
    requires |h.at| == |h.used| + 1 && i <= |h.used|
    ensures var k := Search(h, memSize, n, i); k < |h.used| ==> h.at[k] < memSize - n
    decreases |h.used| - i
  {
    if i < |h.used| && h.at[i] < memSize - n && !h.Fits(i, n) { SearchInReach(h, memSize, n, i + 1); }
  }

  // t has one more block in use than h: n bytes at the front of block i, or all of it.
  ghost predicate TakenFrom(h: Heap, t: Heap, n: nat, i: nat)
    requires |h.at| == |h.used| + 1 && |t.at| == |t.used| + 1
  {
    i < |h.used| &&
      var e := if h.Payload(i) < n + HDR + MIN_SIZE then h.at[i + 1] else h.at[i] + HDR + n;
      t.Live() == h.Live() + {(h.at[i], e)} && (h.at[i], e) !in h.Live()
  }

  // A free removes the block it names, and nothing else.
  lemma FreeRemoves(h: Heap, memSize: nat, at: nat, b: Extent)
    requires WellFormed(h, memSize) && b in h.Live() && b.0 == at
    ensures Step(h, memSize, Free(at)).Live() == h.Live() - {b}
  {
    var i := Holder(h, memSize, b);
    FreeLive(h, memSize + HDR, i);
  }

  lemma Holder(h: Heap, memSize: nat, b: Extent) returns (i: nat)
    requires WellFormed(h, memSize) && b in h.Live()
    ensures InUse(h, b.0) && i == BlockAt(h, b.0) && IsBlock(h, i, b.0) && h.at[i + 1] == b.1
  {
    var k :| 0 <= k < |h.used| && h.used[k] && b == (h.at[k], h.at[k + 1]);
    assert IsBlock(h, k, b.0);
    i := BlockAt(h, b.0);
    Ordered(h, memSize + HDR, k, i);
  }

  // A realloc to n rounded bytes keeps the block, replaces it, or fails. The block stays where it is exactly if
  // it becomes shorter by more than a header and a smallest block, and is then n bytes; it moves if it grows or
  // becomes less shorter, to a block that the malloc of n bytes finds.
  lemma ReallocReplaces(h: Heap, memSize: nat, newsize: nat, b: Extent)
    requires WellFormed(h, memSize) && b in h.Live()
    ensures
      var t, n := Step(h, memSize, Realloc(b.0, newsize)), AlignUp(newsize);
      if n == 0 then t.Live() == h.Live() - {b}
      else if n > memSize || n == Room(b) then t == h
      else if n + HDR + MIN_SIZE < Room(b) then t.Live() == h.Live() - {b} + {(b.0, b.0 + HDR + n)}
      else
        var u := Step(h, memSize, Malloc(n));
        if u == h then t == h else t.Live() == u.Live() - {b}
  {
    var i := Holder(h, memSize, b);
    var n := AlignUp(newsize);
    if n == 0 {
      FreeLive(h, memSize + HDR, i);
    } else if n > memSize || n == Room(b) {
    } else if n + HDR + MIN_SIZE < Room(b) {
      ShrinkLive(h, memSize + HDR, i, n, MIN_SIZE);
    } else {
      var u := Allocate(h, memSize, n);
      if u != h {
        MallocTakes(h, memSize, n);
        FreeRemoves(u, memSize, b.0, b);
      }
    }
  }
}
