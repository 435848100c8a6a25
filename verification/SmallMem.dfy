// The small-memory heap of rt-thread/src/mem.c: block headers linked through memory, a cursor
// to the lowest free block, splitting, hole plugging and reallocation.
module SmallMem {
  import opened Options
  import opened Alignment
  import opened BlockLayout
  import opened SmallMemLayout
  import opened MemCopy
  import opened Payloads

  // struct heap_mem; offsets are relative to heap_ptr.
  datatype Header = Header(used: bool, next: nat, prev: nat)

  // The header of block k agrees with layout h. heap_end (the last entry) is marked used and
  // points to itself; its prev is left open, as the code lets it go stale.
  ghost predicate HeaderOk(hdr: map<nat, Header>, h: Heap, k: nat)
    requires |h.at| == |h.used| + 1 && k <= |h.used|
  {
    && h.at[k] in hdr
    && var m := hdr[h.at[k]];
       if k < |h.used| then
         m == Header(h.used[k], h.at[k + 1], if k == 0 then h.at[0] else h.at[k - 1])
       else
         m.used && m.next == h.at[k]
  }

  ghost predicate Linked(hdr: map<nat, Header>, h: Heap) {
    && |h.at| == |h.used| + 1 && |h.used| >= 1
    && forall k: nat :: k <= |h.used| ==> HeaderOk(hdr, h, k)
  }

  // Unlinking header i+1 from between its neighbours joins blocks i and i+1.
  function Unlinked(hdr: map<nat, Header>, a: nat, b: nat, c: nat): map<nat, Header>
    requires a in hdr && c in hdr
  {
    var toNext := hdr[a := hdr[a].(next := c)];
    toNext[c := toNext[c].(prev := a)] - {b}
  }

  lemma JoinHeader(hdr: map<nat, Header>, h: Heap, i: nat, m: nat)
    requires |h.at| == |h.used| + 1 && i + 1 < |h.used| && !h.used[i] && !h.used[i + 1]
    requires m <= |h.used| && m != i + 1
    requires HeaderOk(hdr, h, m) && HeaderOk(hdr, h, i) && HeaderOk(hdr, h, i + 2)
    requires h.at[m] != h.at[i + 1]
    requires h.at[m] == h.at[i] <==> m == i
    requires h.at[m] == h.at[i + 2] <==> m == i + 2
    ensures HeaderOk(Unlinked(hdr, h.at[i], h.at[i + 1], h.at[i + 2]), Join(h, i), if m <= i then m else m - 1)
  {
    JoinAccess(h, i);
  }

  lemma JoinLinked(hdr: map<nat, Header>, h: Heap, end: nat, i: nat)
    requires h.hdr == HDR && h.Tiled(end) && Linked(hdr, h)
    requires i + 1 < |h.used| && !h.used[i] && !h.used[i + 1]
    ensures HeaderOk(hdr, h, i) && HeaderOk(hdr, h, i + 1) && HeaderOk(hdr, h, i + 2)
    ensures Linked(Unlinked(hdr, h.at[i], h.at[i + 1], h.at[i + 2]), Join(h, i))
  {
    assert HeaderOk(hdr, h, i) && HeaderOk(hdr, h, i + 1) && HeaderOk(hdr, h, i + 2);
    var hdr' := Unlinked(hdr, h.at[i], h.at[i + 1], h.at[i + 2]);
    forall k: nat | k <= |h.used| - 1
      ensures HeaderOk(hdr', Join(h, i), k)
    {
      var m := if k <= i then k else k + 1;
      assert HeaderOk(hdr, h, m);
      Ordered(h, end, m, i);
      Ordered(h, end, m, i + 1);
      Ordered(h, end, m, i + 2);
      JoinHeader(hdr, h, i, m);
    }
  }

  lemma LowestFreeIs(used: seq<bool>, k: nat)
    requires k <= |used| && (forall j :: 0 <= j < k ==> used[j]) && (k < |used| ==> !used[k])
    ensures LowestFree(used, 0) == k
  {
  }

  lemma JoinLowest(h: Heap, end: nat, i: nat)
    requires h.hdr == HDR && h.Tiled(end) && i + 1 < |h.used| && !h.used[i] && !h.used[i + 1]
    ensures
      var g := Join(h, i);
      && |g.at| == |g.used| + 1
      && LowestFree(g.used, 0) == LowestFree(h.used, 0) <= i
      && g.at[LowestFree(g.used, 0)] == h.at[LowestFree(h.used, 0)]
  {
    JoinAccess(h, i);
    LowestFreeIs(Join(h, i).used, LowestFree(h.used, 0));
  }

  // What rt_realloc makes of the block i in use at rmem, for n (aligned) payload bytes: h and the
  // memory contents go from h0, b0 to h1, b1, and r is returned.
  ghost predicate Resized(h0: Heap, b0: seq<Byte>, memSize: nat, rmem: nat, i: nat, n: nat,
                          r: Option<nat>, h1: Heap, b1: seq<Byte>)
  {
    && |h0.at| == |h0.used| + 1 && n <= memSize && Request(n) <= memSize && rmem >= HDR && IsBlock(h0, i, rmem - HDR)
    && var size := h0.Payload(i);
       var k := Search(h0, memSize, Request(n), 0);
       if size == n then
         r == Some(rmem) && h1 == h0 && b1 == b0
       else if n + HDR + MIN_SIZE < size then
         // shrink in place
         && r == Some(rmem) && h1 == ShrinkAt(h0, i, n)
         && SameBytes(b0, rmem, b1, rmem, n) && PayloadsKept(h0, i, b0, b1)
       else if k == |h0.used| then
         // no room: NULL, and the old block survives with its contents
         r == None && h1 == h0 && b1 == b0
       else
         // move
         var t := TakeAt(h0, k, Request(n), MIN_SIZE);
         && k != i && r == Some(h0.at[k] + HDR) && r != Some(rmem)
         && |t.at| == |t.used| + 1 && InUse(t, rmem - HDR) && h1 == FreeBlock(t, rmem - HDR)
         && SameBytes(b0, rmem, b1, r.value, Carried(if size < n then size else n))
         && PayloadsKept(h0, -1, b0, b1)
  }

  // Payloads start at multiples of the word size.
  lemma PayloadsAligned(h: Heap, memSize: nat, i: nat, k: nat)
    requires WellFormed(h, memSize) && i < |h.used| && k < |h.used|
    ensures !Unaligned(h.at[i] + HDR, h.at[k] + HDR)
  {
    assert AlignedAt(h, i) && AlignedAt(h, k);
  }

  // Block i can be copied to where a malloc of n bytes put block k.
  lemma CopyReady(h: Heap, memSize: nat, i: nat, k: nat, n: nat)
    requires WellFormed(h, memSize) && i < |h.used| && h.used[i] && k < |h.used| && h.Fits(k, Request(n))
    ensures |TakeAt(h, k, Request(n), MIN_SIZE).at| == |TakeAt(h, k, Request(n), MIN_SIZE).used| + 1
    ensures InUse(TakeAt(h, k, Request(n), MIN_SIZE), h.at[i])
    ensures h.at[k] + HDR + n <= h.at[k + 1] && !Unaligned(h.at[i] + HDR, h.at[k] + HDR)
  {
    MoveApart(h, memSize + HDR, i, k, Request(n), MIN_SIZE);
    PayloadsAligned(h, memSize, i, k);
  }

  // What rt_realloc makes of the layout is a step of its history.
  lemma ResizedIsStep(h0: Heap, b0: seq<Byte>, memSize: nat, rmem: nat, newsize: nat,
                      r: Option<nat>, h1: Heap, b1: seq<Byte>)
    requires WellFormed(h0, memSize) && rmem >= HDR && InUse(h0, rmem - HDR) && 0 < AlignUp(newsize) <= memSize
    requires Resized(h0, b0, memSize, rmem, BlockAt(h0, rmem - HDR), AlignUp(newsize), r, h1, b1)
    ensures h1 == Step(h0, memSize, Op.Realloc(rmem - HDR, newsize))
  {
    var n, i := AlignUp(newsize), BlockAt(h0, rmem - HDR);
    AlignedStays(n);
    var k := Search(h0, memSize, Request(n), 0);
    SearchIsLowestFit(h0, memSize, Request(n), 0);
    if k < |h0.used| {
      TakeFacts(h0, memSize + HDR, k, Request(n), MIN_SIZE);
      assert TakeAt(h0, k, Request(n), MIN_SIZE).used[k] && !h0.used[k];
    }
  }

  // No block lies behind the heap.
  lemma NothingBehind(h: Heap, memSize: nat)
    requires WellFormed(h, memSize)
    ensures forall at :: at >= memSize ==> !InUse(h, at)
  {
    forall at: nat, i: nat | IsBlock(h, i, at) ensures at < memSize {
      Ordered(h, memSize + HDR, i + 1, |h.used|);
      assert h.Gap(i, i + 1);
    }
  }

  // Where the lowest free block is after block i becomes free, or gets a free remainder.
  lemma LowestAfterFree(h: Heap, end: nat, i: nat)
    requires h.hdr == HDR && h.Tiled(end) && i < |h.used| && h.used[i]
    ensures
      var low := LowestFree(h.used, 0);
      && (h.at[i] < h.at[low] <==> i < low)
      && LowestFree(h.used[i := false], 0) == if i < low then i else low
  {
    var low := LowestFree(h.used, 0);
    Ordered(h, end, low, i);
    Ordered(h, end, i, low);
    LowestFreeIs(h.used[i := false], if i < low then i else low);
  }

  lemma LowestAfterCut(h: Heap, end: nat, i: nat, p: nat)
    requires h.hdr == HDR && h.Tiled(end) && i < |h.used| && h.used[i]
    requires h.at[i] + HDR < p && p + HDR < h.at[i + 1]
    ensures
      var low, c := LowestFree(h.used, 0), Cut(h, i, p);
      && |c.at| == |c.used| + 1
      && (p < h.at[low] <==> i < low)
      && c.at[LowestFree(c.used, 0)] == if i < low then p else h.at[low]
  {
    var low, c := LowestFree(h.used, 0), Cut(h, i, p);
    Ordered(h, end, low, i);
    Ordered(h, end, i + 1, low);
    CutAccess(h, i, p);
    LowestFreeIs(c.used, if i < low then i + 1 else low);
  }

  lemma TakePrefix(h: Heap, i: nat, n: nat)
    requires |h.at| == |h.used| + 1 && i < |h.used|
    ensures
      var t := TakeAt(h, i, n, MIN_SIZE);
      && |t.at| >= |h.at| && |t.used| >= |h.used|
      && (forall j :: 0 <= j <= i ==> t.at[j] == h.at[j])
      && (forall j :: 0 <= j < i ==> t.used[j] == h.used[j])
  {
    CutAccess(h, i, h.at[i] + h.hdr + n);
  }

  // Building a free header at p inside block i and relinking its neighbours cuts the block.
  lemma CutLinked(hdr: map<nat, Header>, hdr': map<nat, Header>, h: Heap, end: nat, i: nat, p: nat)
    requires h.hdr == HDR && h.Tiled(end) && Linked(hdr, h) && i < |h.used|
    requires h.at[i] + HDR < p && p + HDR < h.at[i + 1]
    requires HeaderOk(hdr, h, i) && HeaderOk(hdr, h, i + 1)
    requires p in hdr' && hdr'[p] == Header(false, h.at[i + 1], h.at[i])
    requires h.at[i] in hdr' && hdr'[h.at[i]] == hdr[h.at[i]].(next := p, used := true)
    requires h.at[i + 1] in hdr'
    requires hdr'[h.at[i + 1]] == if h.at[i + 1] == end then hdr[end] else hdr[h.at[i + 1]].(prev := p)
    requires forall q :: q in hdr && (q + HDR <= p || p + HDR <= q) && q != h.at[i] && q != h.at[i + 1]
               ==> q in hdr' && hdr'[q] == hdr[q]
    ensures Linked(hdr', Cut(h, i, p))
  {
    CutAccess(h, i, p);
    Ordered(h, end, i + 1, |h.used|);
    forall k: nat | k <= |h.used| + 1
      ensures HeaderOk(hdr', Cut(h, i, p), k)
    {
      if k != i + 1 {
        var m := if k <= i then k else k - 1;
        assert HeaderOk(hdr, h, m);
        Ordered(h, end, m, i);
        Ordered(h, end, m, i + 1);
        Ordered(h, end, i + 1, m);
      }
    }
  }

  lemma MarkLinked(hdr: map<nat, Header>, h: Heap, end: nat, i: nat, flag: bool)
    requires h.hdr == HDR && h.Tiled(end) && Linked(hdr, h) && i < |h.used|
    ensures HeaderOk(hdr, h, i)
    ensures Linked(hdr[h.at[i] := hdr[h.at[i]].(used := flag)], Mark(h, i, flag))
  {
    assert HeaderOk(hdr, h, i);
    var hdr' := hdr[h.at[i] := hdr[h.at[i]].(used := flag)];
    var h' := Mark(h, i, flag);
    forall k: nat | k <= |h.used|
      ensures HeaderOk(hdr', h', k)
    {
      assert HeaderOk(hdr, h, k);
      Ordered(h, end, i, k);
    }
  }

  // lfree names the lowest free block, or a block that joining the free block i with its
  // neighbours would merge into the lowest one.
  ghost predicate CursorOk(h: Heap, lfree: nat, i: nat)
    requires |h.at| == |h.used| + 1 && i < |h.used|
  {
    var low := LowestFree(h.used, 0);
    || lfree == h.at[low]
    || (low == i && i + 1 < |h.used| && !h.used[i + 1] && lfree == h.at[i + 1])
    || (low + 1 == i && lfree == h.at[i])
  }

  // What plug_holes reads at block i, and the state each of its two joins leads to.
  lemma ForwardJoin(hdr: map<nat, Header>, h: Heap, end: nat, lfree: nat, i: nat)
    requires h.hdr == HDR && h.Tiled(end) && Linked(hdr, h) && i < |h.used| && !h.used[i] && CursorOk(h, lfree, i)
    ensures HeaderOk(hdr, h, i) && HeaderOk(hdr, h, i + 1)
    ensures h.at[i] != h.at[i + 1] && (h.at[i + 1] == end <==> i + 1 == |h.used|)
    ensures lfree <= h.at[i] || (i + 1 < |h.used| && !h.used[i + 1] && lfree == h.at[i + 1])
    ensures i + 1 < |h.used| && !h.used[i + 1] ==>
      var g := Join(h, i);
      && HeaderOk(hdr, h, i + 2)
      && g.Tiled(end) && Linked(Unlinked(hdr, h.at[i], h.at[i + 1], h.at[i + 2]), g)
      && i < |g.used| && !g.used[i] && g.at[i] == h.at[i]
      && CursorOk(g, if lfree == h.at[i + 1] then h.at[i] else lfree, i)
  {
    assert HeaderOk(hdr, h, i) && HeaderOk(hdr, h, i + 1);
    var low := LowestFree(h.used, 0);
    Ordered(h, end, i, i + 1);
    Ordered(h, end, i + 1, |h.used|);
    Ordered(h, end, low, i);
    Ordered(h, end, low, i + 1);
    if i + 1 < |h.used| && !h.used[i + 1] {
      assert HeaderOk(hdr, h, i + 2);
      JoinLinked(hdr, h, end, i);
      JoinLowest(h, end, i);
      JoinTiled(h, end, i);
      JoinAccess(h, i);
    }
  }

  lemma BackwardJoin(hdr: map<nat, Header>, h: Heap, end: nat, lfree: nat, i: nat)
    requires h.hdr == HDR && h.Tiled(end) && Linked(hdr, h) && i < |h.used| && !h.used[i]
      && CursorOk(h, lfree, i) && lfree <= h.at[i]
    ensures HeaderOk(hdr, h, i)
    ensures i > 0 ==> HeaderOk(hdr, h, i - 1) && h.at[i - 1] != h.at[i]
    ensures !(i > 0 && !h.used[i - 1]) ==> lfree == h.at[LowestFree(h.used, 0)]
    ensures i > 0 && !h.used[i - 1] ==>
      var g := Join(h, i - 1);
      && HeaderOk(hdr, h, i + 1)
      && g.Tiled(end) && Linked(Unlinked(hdr, h.at[i - 1], h.at[i], h.at[i + 1]), g)
      && g.at[LowestFree(g.used, 0)] == if lfree == h.at[i] then h.at[i - 1] else lfree
  {
    var low := LowestFree(h.used, 0);
    assert HeaderOk(hdr, h, i) && HeaderOk(hdr, h, i + 1);
    Ordered(h, end, i, i + 1);
    Ordered(h, end, low, i);
    if i > 0 {
      assert HeaderOk(hdr, h, i - 1);
      Ordered(h, end, i - 1, i);
      Ordered(h, end, low, i - 1);
      if !h.used[i - 1] {
        JoinLinked(hdr, h, end, i - 1);
        JoinLowest(h, end, i - 1);
        JoinTiled(h, end, i - 1);
      }
    }
  }

  class SmallHeap {
    const memSize: nat               // mem_size_aligned
    const ram: array<Byte>            // the bytes from heap_ptr to the end of heap_end's header
    var hdr: map<nat, Header>        // the headers among them
    var lfree: nat
    var usedMem: int
    var maxMem: int
    ghost var h: Heap

    ghost predicate Valid()
      reads this
    {
      && memSize >= MIN_SIZE && ram.Length == memSize + 2 * HDR
      && WellFormed(h, memSize)
      && Linked(hdr, h)
      && lfree == h.at[LowestFree(h.used, 0)]
      && usedMem == UsedBytes(h)
      && maxMem >= usedMem
    }

    // rt_system_heap_init, after its address computations.
    constructor (size: nat)
      requires Aligned(size) && size >= MIN_SIZE
      ensures Valid() && fresh(ram)
      ensures memSize == size && h == Init(size)
      ensures lfree == 0 && usedMem == 0 && maxMem == 0
    {
      memSize := size;
      ram := new Byte[size + 2 * HDR];
      hdr := map[0 := Header(false, size + HDR, 0),
                 size + HDR := Header(true, size + HDR, size + HDR)];
      lfree, usedMem, maxMem := 0, 0, 0;
      h := Init(size);
      assert UsedUpTo(Init(size), 1) == UsedUpTo(Init(size), 0) == 0;
    }

    // Builds a header at p: its bytes are overwritten, and so is any header they belonged to.
    method NewHeader(p: nat, header: Header)
      requires p + HDR <= ram.Length
      modifies this`hdr, ram
      ensures p in hdr && hdr[p] == header
      ensures forall q :: q in old(hdr) && (q + HDR <= p || p + HDR <= q) ==> q in hdr && hdr[q] == old(hdr)[q]
      ensures forall x :: 0 <= x < ram.Length && !(p <= x < p + HDR) ==> ram[x] == old(ram[x])
    {
      hdr := (map q | q in hdr && (q + HDR <= p || p + HDR <= q) :: hdr[q])[p := header];
      var k := 0;
      while k < HDR
        modifies ram
        invariant k <= HDR
        invariant forall x :: 0 <= x < ram.Length && !(p <= x < p + HDR) ==> ram[x] == old(ram[x])
      {
        ram[p + k] := *;
        k := k + 1;
      }
    }

    // plug_holes, first half: join mem with a free next block.
    method PlugForward(mem: nat, ghost i: nat)
      requires h.hdr == HDR && h.Tiled(memSize + HDR) && Linked(hdr, h)
      requires i < |h.used| && !h.used[i] && mem == h.at[i]
      requires CursorOk(h, lfree, i)
      modifies this`hdr, this`lfree, this`h
      ensures h == JoinForward(old(h), i)
      ensures h.hdr == HDR && h.Tiled(memSize + HDR) && Linked(hdr, h)
      ensures i < |h.used| && !h.used[i] && mem == h.at[i]
      ensures CursorOk(h, lfree, i) && lfree <= mem
    {
      ForwardJoin(hdr, h, memSize + HDR, lfree, i);
      var nmem := hdr[mem].next;
      if mem != nmem && !hdr[nmem].used && nmem != memSize + HDR {
        if lfree == nmem {
          lfree := mem;
        }
        hdr := hdr[mem := hdr[mem].(next := hdr[nmem].next)];
        hdr := hdr[hdr[nmem].next := hdr[hdr[nmem].next].(prev := mem)];
        hdr := hdr - {nmem};      // from here on nmem is no header
        h := Join(h, i);
      }
    }

    // plug_holes, second half: join mem with a free previous block.
    method PlugBackward(mem: nat, ghost i: nat)
      requires h.hdr == HDR && h.Tiled(memSize + HDR) && Linked(hdr, h)
      requires i < |h.used| && !h.used[i] && mem == h.at[i]
      requires CursorOk(h, lfree, i) && lfree <= mem
      modifies this`hdr, this`lfree, this`h
      ensures h == JoinBackward(old(h), i)
      ensures h.hdr == HDR && h.Tiled(memSize + HDR) && Linked(hdr, h) && lfree == h.at[LowestFree(h.used, 0)]
    {
      BackwardJoin(hdr, h, memSize + HDR, lfree, i);
      var pmem := hdr[mem].prev;
      if pmem != mem && !hdr[pmem].used {
        if lfree == mem {
          lfree := pmem;
        }
        hdr := hdr[pmem := hdr[pmem].(next := hdr[mem].next)];
        hdr := hdr[hdr[mem].next := hdr[hdr[mem].next].(prev := pmem)];
        hdr := hdr - {mem};       // from here on mem is no header
        h := Join(h, i - 1);
      }
    }

    // Joins the free block mem with its free neighbours. The cursor lfree may still name a
    // block that disappears in the joining.
    method PlugHoles(mem: nat, ghost i: nat)
      requires h.hdr == HDR && h.Tiled(memSize + HDR) && Linked(hdr, h)
      requires i < |h.used| && !h.used[i] && mem == h.at[i]
      requires CursorOk(h, lfree, i)
      modifies this`hdr, this`lfree, this`h
      ensures h == Plug(old(h), i)
      ensures h.hdr == HDR && h.Tiled(memSize + HDR) && Linked(hdr, h) && lfree == h.at[LowestFree(h.used, 0)]
    {
      PlugForward(mem, i);
      PlugBackward(mem, i);
    }

    // Creates the header of a free remainder at offset ptr2 inside block mem and links it in.
    method SplitBlock(mem: nat, ptr2: nat, ghost i: nat)
      requires ram.Length == memSize + 2 * HDR && h.hdr == HDR && h.Tiled(memSize + HDR) && Linked(hdr, h)
      requires i < |h.used| && mem == h.at[i] && mem + HDR < ptr2 && ptr2 + HDR < h.at[i + 1]
      modifies this`hdr, this`h, ram
      ensures h == Cut(old(h), i, ptr2) && Linked(hdr, h)
      ensures PayloadsKept(old(h), i, old(ram[..]), ram[..])
      ensures forall x :: 0 <= x < ptr2 && x < ram.Length ==> ram[x] == old(ram[x])
    {
      ghost var end, hdr0, bytes := memSize + HDR, hdr, ram[..];
      assert HeaderOk(hdr, h, i) && HeaderOk(hdr, h, i + 1);
      Ordered(h, end, i + 1, |h.used|);
      NewHeader(ptr2, Header(false, hdr[mem].next, mem));
      hdr := hdr[mem := hdr[mem].(next := ptr2, used := true)];
      if hdr[ptr2].next != memSize + HDR {
        hdr := hdr[hdr[ptr2].next := hdr[hdr[ptr2].next].(prev := ptr2)];
      }
      CutLinked(hdr0, hdr, h, end, i, ptr2);
      HeaderWriteKeepsPayloads(h, end, i, ptr2, bytes, ram[..]);
      h := Cut(h, i, ptr2);
    }

    // Splits the chosen block, or takes it whole when no further block fits behind.
    method OccupyBlock(ptr: nat, n: nat, ghost i: nat)
      requires Valid() && i < |h.used| && ptr == h.at[i] && h.Fits(i, n) && n > 0 && Aligned(n)
      modifies this`hdr, this`usedMem, this`h, ram
      ensures h == TakeAt(old(h), i, n, MIN_SIZE) && Linked(hdr, h)
      ensures usedMem == old(usedMem) + HDR + h.Payload(i)
      ensures PayloadsKept(old(h), -1, old(ram[..]), ram[..])
    {
      assert HeaderOk(hdr, h, i);
      if hdr[ptr].next - (ptr + HDR) >= n + HDR + MIN_SIZE {
        CutAccess(h, i, ptr + HDR + n);
        SplitBlock(ptr, ptr + HDR + n, i);
        usedMem := usedMem + (n + HDR);
      } else {
        MarkLinked(hdr, h, memSize + HDR, i, true);
        hdr := hdr[ptr := hdr[ptr].(used := true)];
        usedMem := usedMem + (hdr[ptr].next - ptr);
        h := Mark(h, i, true);
      }
    }

    // The body of rt_malloc's search loop for the chosen block: occupy it, then move the
    // cursor past the used blocks.
    method TakeBlock(ptr: nat, n: nat, ghost i: nat)
      requires Valid() && i < |h.used| && ptr == h.at[i] && h.Fits(i, n) && n > 0 && Aligned(n)
      modifies this`hdr, this`lfree, this`usedMem, this`maxMem, this`h, ram
      ensures Valid() && h == TakeAt(old(h), i, n, MIN_SIZE)
      ensures maxMem == Max(old(maxMem), usedMem)
      ensures PayloadsKept(old(h), -1, old(ram[..]), ram[..])
    {
      ghost var low := LowestFree(h.used, 0);
      Ordered(h, memSize + HDR, low, i);
      TakeWellFormed(h, memSize, i, n);
      TakeFacts(h, memSize + HDR, i, n, MIN_SIZE);
      TakePrefix(h, i, n);
      OccupyBlock(ptr, n, i);
      if maxMem < usedMem {
        maxMem := usedMem;
      }
      if ptr == lfree {
        AdvanceCursor(i);
      } else {
        LowestFreeIs(h.used, low);
      }
    }

    // Find the next free block from lfree on, or heap_end.
    method AdvanceCursor(ghost i: nat)
      requires h.hdr == HDR && h.Tiled(memSize + HDR) && Linked(hdr, h)
      requires i < |h.used| && lfree == h.at[i] && forall j :: 0 <= j < i ==> h.used[j]
      modifies this`lfree
      ensures lfree == h.at[LowestFree(h.used, 0)]
    {
      ghost var j := i;
      assert HeaderOk(hdr, h, j);
      while hdr[lfree].used && lfree != memSize + HDR
        invariant i <= j <= |h.used| && lfree == h.at[j] && HeaderOk(hdr, h, j)
        invariant forall m :: 0 <= m < j ==> h.used[m]
        decreases |h.used| - j
      {
        assert HeaderOk(hdr, h, j + 1);
        lfree := hdr[lfree].next;
        j := j + 1;
      }
      if j < |h.used| { Ordered(h, memSize + HDR, j, |h.used|); }
      LowestFreeIs(h.used, j);
    }

    // The search loop of rt_malloc, from the cursor on.
    method FirstFit(n: nat) returns (r: Option<nat>)
      requires Valid() && n <= memSize
      ensures
        var k := Search(h, memSize, n, 0);
        if k == |h.used| then r == None else h.Fits(k, n) && r == Some(h.at[k])
    {
      ghost var i := LowestFree(h.used, 0);
      SearchFromLowestFree(h, memSize, n, 0, i);
      SearchIsLowestFit(h, memSize, n, 0);
      var ptr := lfree;
      while ptr < memSize - n
        invariant i <= |h.used| && ptr == h.at[i]
        invariant Search(h, memSize, n, 0) == Search(h, memSize, n, i)
        decreases |h.used| - i
      {
        assert HeaderOk(hdr, h, i);
        if !hdr[ptr].used && hdr[ptr].next as int - (ptr + HDR) >= n {
          return Some(ptr);
        }
        ptr := hdr[ptr].next;
        i := i + 1;
      }
      return None;
    }

    // rt_malloc
    method Malloc(size: nat) returns (r: Option<nat>)
      requires Valid() && Alignable(size)
      modifies this`hdr, this`lfree, this`usedMem, this`maxMem, this`h, ram
      ensures Valid()
      ensures
        var n := Request(size);
        var fails := size == 0 || AlignUp(size) > memSize || Search(old(h), memSize, n, 0) == |old(h).used|;
        if fails then
          && r == None && h == old(h) && hdr == old(hdr) && lfree == old(lfree)
          && usedMem == old(usedMem) && maxMem == old(maxMem) && ram[..] == old(ram[..])
        else
          var k := Search(old(h), memSize, n, 0);
          && old(h).Fits(k, n)
          && r == Some(old(h).at[k] + HDR) && h == TakeAt(old(h), k, n, MIN_SIZE)
          && maxMem == Max(old(maxMem), usedMem)
      ensures h == Step(old(h), memSize, Op.Malloc(size))
      ensures PayloadsKept(old(h), -1, old(ram[..]), ram[..])
    {
      if size == 0 {
        return None;
      }
      var n := AlignUp(size);
      if n > memSize {
        return None;
      }
      if n < MIN_SIZE {
        n := MIN_SIZE;
      }
      SearchIsLowestFit(h, memSize, n, 0);
      ghost var k := Search(h, memSize, n, 0);
      var fit := FirstFit(n);
      if fit == None {
        return None;
      }
      TakeBlock(fit.value, n, k);
      return Some(fit.value + HDR);
    }

    ghost predicate IsPointer(rmem: nat)
      reads this
      requires |h.at| == |h.used| + 1
    {
      rmem >= HDR && InUse(h, rmem - HDR)
    }

    // rt_free up to the plugging of holes: mark block i free and move the cursor.
    method MarkFree(mem: nat, ghost i: nat)
      requires Valid() && IsBlock(h, i, mem)
      modifies this`hdr, this`lfree, this`usedMem, this`h
      ensures h == Mark(old(h), i, false) && Linked(hdr, h)
      ensures lfree == h.at[LowestFree(h.used, 0)]
      ensures usedMem == old(usedMem) - HDR - h.Payload(i) <= old(usedMem)
      ensures h.hdr == HDR && h.Tiled(memSize + HDR)
    {
      MarkFacts(h, memSize + HDR, i, false);
      Ordered(h, memSize + HDR, i, i + 1);
      LowestAfterFree(h, memSize + HDR, i);
      MarkLinked(hdr, h, memSize + HDR, i, false);
      hdr := hdr[mem := hdr[mem].(used := false)];
      h := Mark(h, i, false);
      if mem < lfree {
        lfree := mem;
      }
      assert HeaderOk(hdr, h, i);
      usedMem := usedMem - (hdr[mem].next - mem);
    }

    // rt_free. A pointer behind the heap is ignored; any other must come from this heap.
    method Free(rmem: Option<nat>)
      requires Valid()
      requires rmem.Some? && rmem.value < memSize + HDR ==> IsPointer(rmem.value)
      modifies this`hdr, this`lfree, this`usedMem, this`h
      ensures Valid() && maxMem == Max(old(maxMem), usedMem)
      ensures h == if rmem == None || rmem.value >= memSize + HDR then old(h) else FreeBlock(old(h), rmem.value - HDR)
      ensures rmem.Some? ==> rmem.value >= HDR && h == Step(old(h), memSize, Op.Free(rmem.value - HDR))
      ensures ram[..] == old(ram[..])
    {
      NothingBehind(h, memSize);
      if rmem == None || rmem.value >= memSize + HDR {
        return;
      }
      var mem := rmem.value - HDR;
      ghost var i, end := BlockAt(h, mem), memSize + HDR;
      ghost var f := FreeAt(h, i);
      FreeFacts(h, end, i);
      FreeWellFormed(h, memSize, i);
      MarkFree(mem, i);
      PlugHoles(mem, i);
      assert h == f;
    }

    // The shrinking branch of rt_realloc up to the plugging of holes.
    method CutTail(mem: nat, n: nat, ghost i: nat)
      requires Valid() && IsBlock(h, i, mem) && n > 0 && Aligned(n)
      requires n + HDR + MIN_SIZE < h.Payload(i)
      modifies this`hdr, this`lfree, this`usedMem, this`h, ram
      ensures h == Cut(old(h), i, mem + HDR + n) && h.Tiled(memSize + HDR) && Linked(hdr, h)
      ensures i + 1 < |h.used| && !h.used[i + 1] && h.at[i + 1] == mem + HDR + n
      ensures lfree == h.at[LowestFree(h.used, 0)]
      ensures usedMem == old(usedMem) - (old(h).Payload(i) - n)
      ensures PayloadsKept(old(h), i, old(ram[..]), ram[..])
      ensures forall x :: 0 <= x < mem + HDR + n && x < ram.Length ==> ram[x] == old(ram[x])
    {
      var ptr2 := mem + HDR + n;
      LowestAfterCut(h, memSize + HDR, i, ptr2);
      ShrinkCut(h, memSize + HDR, i, n, MIN_SIZE);
      assert HeaderOk(hdr, h, i);
      usedMem := usedMem - (hdr[mem].next - mem - HDR - n);
      SplitBlock(mem, ptr2, i);
      if ptr2 < lfree {
        lfree := ptr2;
      }
    }

    method ShrinkBlock(mem: nat, n: nat, ghost i: nat)
      requires Valid() && IsBlock(h, i, mem) && n > 0 && Aligned(n)
      requires n + HDR + MIN_SIZE < h.Payload(i)
      modifies this`hdr, this`lfree, this`usedMem, this`h, ram
      ensures Valid() && h == ShrinkAt(old(h), i, n) && maxMem == Max(old(maxMem), usedMem)
      ensures PayloadsKept(old(h), i, old(ram[..]), ram[..])
      ensures forall x :: 0 <= x < mem + HDR + n && x < ram.Length ==> ram[x] == old(ram[x])
    {
      ShrinkFacts(h, memSize + HDR, i, n, MIN_SIZE);
      ShrinkWellFormed(h, memSize, i, n);
      CutTail(mem, n, i);
      PlugHoles(mem + HDR + n, i + 1);
    }

    // Allocates n bytes elsewhere and copies the payload of block i there.
    method AllocateCopy(rmem: nat, n: nat, ghost i: nat) returns (r: Option<nat>)
      requires Valid()
      requires rmem >= HDR && IsBlock(h, i, rmem - HDR) && 0 < n <= memSize && Aligned(n) && Alignable(n)
      modifies this`hdr, this`lfree, this`usedMem, this`maxMem, this`h, ram
      ensures Valid() && rmem < memSize + HDR
      ensures
        var k := Search(old(h), memSize, Request(n), 0);
        if k == |old(h).used| then
          r == None && h == old(h) && maxMem == old(maxMem) && ram[..] == old(ram[..])
        else
          && old(h).Fits(k, Request(n))
          && r == Some(old(h).at[k] + HDR)
          && h == TakeAt(old(h), k, Request(n), MIN_SIZE) && InUse(h, rmem - HDR)
          && maxMem == Max(old(maxMem), usedMem)
          && SameBytes(old(ram[..]), rmem, ram[..], r.value,
                       Carried(if old(h).Payload(i) < n then old(h).Payload(i) else n))
      ensures PayloadsKept(old(h), -1, old(ram[..]), ram[..])
    {
      ghost var h0, k := h, Search(h, memSize, Request(n), 0);
      assert HeaderOk(hdr, h, i);
      var size := hdr[rmem - HDR].next as int - rmem;
      Ordered(h, memSize + HDR, i, i + 1);
      Ordered(h, memSize + HDR, i, |h.used|);
      assert size == h.Payload(i);
      AlignedStays(n);
      r := Malloc(n);
      if r.Some? {
        CopyReady(h0, memSize, i, k, n);
        var count: nat := if size < n then size else n;
        CopyPayload(ram, r.value, rmem, count, h0, memSize + HDR, i, k, old(ram[..]));
      }
    }

    // The tail of rt_realloc: allocate elsewhere, copy, release. On failure nothing changes.
    method MoveBlock(rmem: nat, n: nat, ghost i: nat) returns (r: Option<nat>)
      requires Valid()
      requires rmem >= HDR && IsBlock(h, i, rmem - HDR) && 0 < n <= memSize && Aligned(n) && Alignable(n)
      modifies this`hdr, this`lfree, this`usedMem, this`maxMem, this`h, ram
      ensures Valid()
      ensures
        var k := Search(old(h), memSize, Request(n), 0);
        if k == |old(h).used| then
          r == None && h == old(h) && maxMem == old(maxMem) && ram[..] == old(ram[..])
        else
          var t := TakeAt(old(h), k, Request(n), MIN_SIZE);
          && old(h).Fits(k, Request(n))
          && r == Some(old(h).at[k] + HDR)
          && |t.at| == |t.used| + 1 && InUse(t, rmem - HDR) && h == FreeBlock(t, rmem - HDR)
          && maxMem == Max(old(maxMem), UsedBytes(t))
          && SameBytes(old(ram[..]), rmem, ram[..], r.value,
                       Carried(if old(h).Payload(i) < n then old(h).Payload(i) else n))
      ensures PayloadsKept(old(h), -1, old(ram[..]), ram[..])
    {
      r := AllocateCopy(rmem, n, i);
      if r.Some? {
        Free(Some(rmem));
      }
    }

    // rt_realloc for a block in use: keep, shrink in place, or move.
    method ResizeBlock(rmem: nat, n: nat, ghost i: nat) returns (r: Option<nat>)
      requires Valid()
      requires rmem >= HDR && IsBlock(h, i, rmem - HDR) && 0 < n <= memSize && Aligned(n) && Alignable(n)
      modifies this`hdr, this`lfree, this`usedMem, this`maxMem, this`h, ram
      ensures Valid()
      ensures Resized(old(h), old(ram[..]), memSize, rmem, i, n, r, h, ram[..])
      ensures maxMem == Max(old(maxMem),
            if r == None || r == Some(rmem) then usedMem
            else UsedBytes(TakeAt(old(h), Search(old(h), memSize, Request(n), 0), Request(n), MIN_SIZE)))
    {
      var mem := rmem - HDR;
      assert HeaderOk(hdr, h, i);
      var size := hdr[mem].next as int - mem - HDR;
      assert size == h.Payload(i);
      if size == n {
        return Some(rmem);
      }
      if n + HDR + MIN_SIZE < size {
        Ordered(h, memSize + HDR, i + 1, |h.used|);
        ShrinkBlock(mem, n, i);
        assert ram[..][rmem..rmem + n] == old(ram[..])[rmem..rmem + n];
        return Some(rmem);
      }
      SearchIsLowestFit(h, memSize, Request(n), 0);
      Distinct(h, memSize + HDR, i);
      r := MoveBlock(rmem, n, i);
    }

    // rt_realloc. A pointer outside the heap is handed back untouched; any other pointer that is
    // looked at must come from this heap.
    method Realloc(rmem: Option<nat>, newsize: nat) returns (r: Option<nat>)
      requires Valid() && Alignable(newsize)
      requires rmem.Some? && AlignUp(newsize) <= memSize && rmem.value < memSize + HDR ==> IsPointer(rmem.value)
      modifies this`hdr, this`lfree, this`usedMem, this`maxMem, this`h, ram
      ensures Valid()
      ensures
        var n := AlignUp(newsize);
        if n > memSize || (newsize > 0 && rmem.Some? && rmem.value >= memSize + HDR) then
          // too large, or no pointer into this heap
          && r == (if n > memSize then None else rmem)
          && h == old(h) && maxMem == old(maxMem) && ram[..] == old(ram[..])
        else if newsize == 0 then
          && r == None && ram[..] == old(ram[..]) && maxMem == Max(old(maxMem), usedMem)
          && h == if rmem == None || rmem.value >= memSize + HDR then old(h) else FreeBlock(old(h), rmem.value - HDR)
        else if rmem == None then
          var k := Search(old(h), memSize, Request(n), 0);
          && PayloadsKept(old(h), -1, old(ram[..]), ram[..]) && maxMem == Max(old(maxMem), usedMem)
          && if k == |old(h).used| then r == None && h == old(h)
             else old(h).Fits(k, Request(n)) && r == Some(old(h).at[k] + HDR)
                  && h == TakeAt(old(h), k, Request(n), MIN_SIZE)
        else
          && Resized(old(h), old(ram[..]), memSize, rmem.value, BlockAt(old(h), rmem.value - HDR), n, r, h, ram[..])
          && maxMem == Max(old(maxMem),
                if r == None || r == rmem then usedMem
                else UsedBytes(TakeAt(old(h), Search(old(h), memSize, Request(n), 0), Request(n), MIN_SIZE)))
      ensures rmem == None ==> h == Step(old(h), memSize, Op.Malloc(newsize))
      ensures rmem.Some? && rmem.value >= HDR ==> h == Step(old(h), memSize, Op.Realloc(rmem.value - HDR, newsize))
    {
      NothingBehind(h, memSize);
      AlignableUp(newsize);
      var n := AlignUp(newsize);
      if n > memSize {
        return None;
      } else if n == 0 {
        Free(rmem);
        return None;
      }
      AlignedStays(n);
      if rmem == None {
        r := Malloc(n);
      } else if rmem.value >= memSize + HDR {
        r := rmem;
      } else {
        ghost var h0 := h;
        r := ResizeBlock(rmem.value, n, BlockAt(h, rmem.value - HDR));
        ResizedIsStep(h0, old(ram[..]), memSize, rmem.value, newsize, r, h, ram[..]);
      }
    }
  }
}
