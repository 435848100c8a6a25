// What one rt_memheap_alloc, rt_memheap_free or rt_memheap_realloc (rt-thread/src/memheap.c) makes of the
// blocks in use and of the free list.
module MemHeapLaws {
  import opened Alignment
  import opened BlockLayout
  import opened MemHeapLists
  import opened MemHeapLayout
  import opened MemHeapRuns

  type Extent = (nat, nat)                       // where a block's header starts and where the block ends

  function Room(b: Extent): int {
    b.1 - b.0 - ITEM
  }

  // Requests are rounded to the least multiple of eight, and those of up to eight bytes to twelve.
  lemma AllocSizeIsLeast(size: nat, m: nat)
    ensures size <= 8 ==> AllocSize(size) == 12
    ensures size > 8 ==> Aligned(AllocSize(size)) && (Aligned(m) && m >= size ==> m >= AllocSize(size))
  {
  }

  // Position k of the free list holds block i.
  ghost predicate ListedAt(s: Pool, k: nat, i: nat)
    requires |s.h.at| == |s.h.used| + 1
  {
    1 <= k < |s.f| && i < |s.h.used| && !s.h.used[i] && s.f[k] == s.h.at[i]
  }

  // Block i is the first of the free list that holds n bytes.
  ghost predicate First(s: Pool, n: nat, i: nat)
    requires |s.h.at| == |s.h.used| + 1
  {
    i < |s.h.used| && s.h.Fits(i, n) &&
      exists k: nat :: ListedAt(s, k, i) &&
        forall k': nat, j: nat :: ListedAt(s, k', j) && s.h.Fits(j, n) ==> k <= k'
  }

  // t has one more block in use than s: n bytes at the front of block i, or all of it.
  ghost predicate TakenFrom(s: Pool, t: Pool, n: nat, i: nat)
    requires |s.h.at| == |s.h.used| + 1 && |t.h.at| == |t.h.used| + 1
  {
    i < |s.h.used| &&
      var e := if s.h.Payload(i) < n + ITEM + MINIALLOC then s.h.at[i + 1] else s.h.at[i] + ITEM + n;
      t.h.Live() == s.h.Live() + {(s.h.at[i], e)} && (s.h.at[i], e) !in s.h.Live()
  }

  // An alloc takes exactly the rounded request from the front of the first listed block that holds it, and the
  // whole block only if less than a header and a smallest block would be left. It fails exactly if no free
  // block holds it, or if the free bytes are not more than it, and changes nothing then.
  lemma AllocTakes(s: Pool, size: nat, bytes: nat)
    requires Good(s, size)
    ensures
      var t, n := Step(s, size, Alloc(bytes)), AllocSize(bytes);
      if n >= FreeBytes(s.h) || forall i: nat :: i < |s.h.used| ==> !s.h.Fits(i, n) then t == s
      else exists i: nat :: First(s, n, i) && TakenFrom(s, t, n, i)
  {
    var n := AllocSize(bytes);
    SearchIsComplete(s.h, s.f, n, size - ITEM);
    if Succeeds(s, n) {
      var j := Chosen(s, n);
      ChosenIsFirst(s, size, n);
      TakeFacts(s.h, size - ITEM, j, n, MINIALLOC);
      TakeLive(s.h, size - ITEM, j, n, MINIALLOC);
      assert First(s, n, j) && TakenFrom(s, Step(s, size, Alloc(bytes)), n, j);
    }
  }

  lemma ChosenIsFirst(s: Pool, size: nat, n: nat)
    requires Good(s, size) && Succeeds(s, n)
    ensures First(s, n, Chosen(s, n))
  {
    var k, j := FirstFit(s.h, s.f, n, 1), Chosen(s, n);
    assert ListedAt(s, k, j);
    forall k': nat, i: nat | ListedAt(s, k', i) && s.h.Fits(i, n)
      ensures k <= k'
    {
      if k' < k { EarlierUnfit(s, size, n, k', i); }
    }
  }

  lemma EarlierUnfit(s: Pool, size: nat, n: nat, k: nat, i: nat)
    requires Good(s, size) && ListedAt(s, k, i) && k < FirstFit(s.h, s.f, n, 1)
    ensures !s.h.Fits(i, n)
  {
    assert s.f[k] in Listed(s.f);
    Distinct(s.h, size - ITEM, i);
    assert FreeIndex(s.h, s.f[k]) == i;
  }

  lemma Holder(s: Pool, size: nat, b: Extent) returns (i: nat)
    requires Good(s, size) && b in s.h.Live()
    ensures InUse(s.h, b.0) && i == BlockAt(s.h, b.0) && IsBlock(s.h, i, b.0) && s.h.at[i + 1] == b.1
  {
    var k :| 0 <= k < |s.h.used| && s.h.used[k] && b == (s.h.at[k], s.h.at[k + 1]);
    assert IsBlock(s.h, k, b.0);
    i := BlockAt(s.h, b.0);
    Ordered(s.h, size - ITEM, k, i);
  }

  // A free removes the block it names, and nothing else.
  lemma FreeRemoves(s: Pool, size: nat, b: Extent)
    requires Good(s, size) && b in s.h.Live()
    ensures Step(s, size, Free(b.0)).h.Live() == s.h.Live() - {b}
  {
    var i := Holder(s, size, b);
    FreeLive(s.h, size - ITEM, i);
  }

  // No free block ends where block b starts.
  ghost predicate NoneBefore(s: Pool, b: Extent)
    requires |s.h.at| == |s.h.used| + 1
  {
    forall i: nat :: i < |s.h.used| && s.h.at[i + 1] == b.0 ==> s.h.used[i]
  }

  // What was freed last is handed out first: unless it joins a free block in front of it, which keeps its place
  // in the list, the next alloc that it can serve gets its address.
  lemma LastFreedFirst(s: Pool, size: nat, b: Extent, bytes: nat)
    requires Good(s, size) && b in s.h.Live() && NoneBefore(s, b)
    requires AllocSize(bytes) <= Room(b) && AllocSize(bytes) < FreeBytes(Step(s, size, Free(b.0)).h)
    ensures
      var t := Step(Step(s, size, Free(b.0)), size, Alloc(bytes));
      exists e: nat :: t.h.Live() == s.h.Live() - {b} + {(b.0, e)}
  {
    var i := Holder(s, size, b);
    assert i > 0 ==> s.h.used[i - 1];
    var t, n := Step(s, size, Free(b.0)), AllocSize(bytes);
    FrontAfterFree(s, size, i);
    assert ListedAt(t, 1, i);
    Distinct(t.h, size - ITEM, i);
    assert FreeIndex(t.h, t.f[1]) == i;
    assert FirstFit(t.h, t.f, n, 1) == 1 && Chosen(t, n) == i;
    FreeLive(s.h, size - ITEM, i);
    TakeLive(t.h, size - ITEM, i, n, MINIALLOC);
  }

  // A block freed behind one in use is in front of the list, together with the free block behind it.
  lemma FrontAfterFree(s: Pool, size: nat, i: nat)
    requires Good(s, size) && i < |s.h.used| && s.h.used[i] && (i > 0 ==> s.h.used[i - 1])
    ensures
      var t := Released(s, size, i);
      && |t.f| > 1 && t.f[1] == s.h.at[i]
      && i < |t.h.used| && !t.h.used[i] && t.h.at[i] == s.h.at[i] && t.h.at[i + 1] >= s.h.at[i + 1]
  {
    var m := Mark(s.h, i, false);
    if i + 1 < |s.h.used| && !s.h.used[i + 1] {
      JoinAccess(m, i);
      Ordered(s.h, size - ITEM, i + 1, i + 2);
      ListedFree(s.h, s.f, i + 1);
      WithoutFacts(s.f, s.h.at[i + 1]);
    }
  }

  // The block and the free one behind it hold n bytes and more than a smallest block beside.
  ghost predicate RoomBehind(s: Pool, b: Extent, n: nat)
    requires |s.h.at| == |s.h.used| + 1
  {
    exists i: nat :: FreeBehind(s, b, i) && s.h.Payload(i) + Room(b) > n + 12
  }

  ghost predicate FreeBehind(s: Pool, b: Extent, i: nat)
    requires |s.h.at| == |s.h.used| + 1
  {
    i < |s.h.used| && !s.h.used[i] && s.h.at[i] == b.1
  }

  lemma GrowsWithRoom(s: Pool, size: nat, i: nat, n: nat, b: Extent)
    requires Good(s, size) && i < |s.h.used| && b == (s.h.at[i], s.h.at[i + 1])
    ensures CanGrow(s.h, i, n) <==> RoomBehind(s, b, n)
  {
    if CanGrow(s.h, i, n) { assert FreeBehind(s, b, i + 1); }
    if RoomBehind(s, b, n) {
      var j: nat :| FreeBehind(s, b, j) && s.h.Payload(j) + Room(b) > n + 12;
      Ordered(s.h, size - ITEM, i + 1, j);
    }
  }

  // What becomes of block b when n bytes are asked for in its stead.
  ghost predicate Replaced(s: Pool, size: nat, b: Extent, n: nat, t: Pool)
    requires Good(s, size) && |t.h.at| == |t.h.used| + 1
  {
    if n <= Room(b) <= n + 60 then t == s
    else if n < Room(b) || RoomBehind(s, b, n) then t.h.Live() == s.h.Live() - {b} + {(b.0, b.0 + ITEM + n)}
    else
      var u := Step(s, size, Alloc(n));
      if u == s then t == s else t.h.Live() == u.h.Live() - {b}
  }

  // A realloc to n rounded bytes keeps the block, replaces it, or fails. It stays where it is if it becomes
  // shorter, by more than a header and a smallest block, or if it grows and the free block behind it has the
  // room; it is n bytes then. Otherwise growing moves it to where the alloc of n bytes finds room.
  lemma ReallocReplaces(s: Pool, size: nat, newsize: nat, b: Extent)
    requires Good(s, size) && b in s.h.Live()
    ensures
      var t := Step(s, size, Realloc(b.0, newsize));
      if newsize == 0 then t.h.Live() == s.h.Live() - {b} else Replaced(s, size, b, AllocSize(newsize), t)
  {
    var i := Holder(s, size, b);
    if newsize == 0 { FreeLive(s.h, size - ITEM, i); } else { ResizedReplaces(s, size, i, AllocSize(newsize), b); }
  }

  lemma ResizedReplaces(s: Pool, size: nat, i: nat, n: nat, b: Extent)
    requires Good(s, size) && i < |s.h.used| && s.h.used[i] && b == (s.h.at[i], s.h.at[i + 1]) && n > 0
    ensures Replaced(s, size, b, n, Resized(s, size, i, n))
  {
    GrowsWithRoom(s, size, i, n, b);
    if n > Room(b) {
      if CanGrow(s.h, i, n) { GrowLive(s, size, i, b.0 + ITEM + n); } else { MoveReplaces(s, size, i, n, b); }
    } else if n + ITEM + MINIALLOC < Room(b) {
      ShrinkLive(s.h, size - ITEM, i, n, MINIALLOC);
    }
  }

  lemma MoveReplaces(s: Pool, size: nat, i: nat, n: nat, b: Extent)
    requires Good(s, size) && i < |s.h.used| && s.h.used[i] && b == (s.h.at[i], s.h.at[i + 1])
    requires n > s.h.Payload(i) && n > 0 && !CanGrow(s.h, i, n)
    ensures
      var t, u := Resized(s, size, i, n), Step(s, size, Alloc(n));
      if u == s then t == s else t.h.Live() == u.h.Live() - {b}
  {
    var m := AllocSize(n);
    if Succeeds(s, m) {
      var u := Allocated(s, size, m);
      TakeLive(s.h, size - ITEM, Chosen(s, m), m, MINIALLOC);
      MovedIs(s, size, i, m);
      assert b in s.h.Live() && b in u.h.Live();
      FreeRemoves(u, size, b);
      assert u.h.Live() != s.h.Live();
    }
  }

  // Growing changes where the block ends, and no other block in use.
  lemma GrowLive(s: Pool, size: nat, i: nat, p: nat)
    requires Good(s, size) && i + 1 < |s.h.used| && s.h.used[i] && !s.h.used[i + 1]
    ensures
      var g := GrowTo(s.h, i, p);
      g.Live() == s.h.Live() - {(s.h.at[i], s.h.at[i + 1])} + {(s.h.at[i], p)}
  {
    var g, h := GrowTo(s.h, i, p), s.h;
    Distinct(h, size - ITEM, i);
    assert g.used[i] && (g.at[i], g.at[i + 1]) == (h.at[i], p);
    forall b | b in h.Live() && b != (h.at[i], h.at[i + 1])
      ensures b in g.Live()
    {
      var k :| 0 <= k < |h.used| && h.used[k] && b == (h.at[k], h.at[k + 1]);
      assert g.used[k] && b == (g.at[k], g.at[k + 1]);
    }
    forall b | b in g.Live() && b != (h.at[i], p)
      ensures b in h.Live() && b != (h.at[i], h.at[i + 1])
    {
      var k :| 0 <= k < |g.used| && g.used[k] && b == (g.at[k], g.at[k + 1]);
      assert h.used[k] && b == (h.at[k], h.at[k + 1]);
    }
  }
}
