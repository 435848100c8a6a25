// Allocation policy of a memheap (rt-thread/src/memheap.c) on the block layout and its free list.
module MemHeapLayout {
  import opened Alignment
  import opened BlockLayout
  import opened Integers
  import opened MemHeapLists

  const ITEM: nat := 48          // RT_MEMHEAP_SIZE on a 64-bit CPU
  const MINIALLOC: nat := 12     // RT_MEMHEAP_MINIALLOC; applied after the alignment

  function AllocSize(size: nat): (n: nat)
    ensures n >= size && n >= MINIALLOC
  {
    if AlignUp(size) < MINIALLOC then MINIALLOC else AlignUp(size)
  }

  // rt_memheap_init: one free block between the start and the tail item.
  function Init(poolSize: nat): Heap
    requires poolSize >= 2 * ITEM
  {
    Heap(ITEM, [0, poolSize - ITEM], [false])
  }

  ghost predicate IsFree(h: Heap, i: nat, a: int)
    requires |h.at| == |h.used| + 1
  {
    i < |h.used| && !h.used[i] && h.at[i] == a
  }

  // Index of the free block at address a.
  ghost function FreeIndex(h: Heap, a: int): (i: nat)
    requires |h.at| == |h.used| + 1 && a in FreeAddrs(h)
    ensures IsFree(h, i, a)
  {
    var j :| 0 <= j < |h.used| && !h.used[j] && h.at[j] as int == a;
    assert IsFree(h, j, a);
    var i: nat :| IsFree(h, i, a); i
  }

  // The free list lists each free block of the layout once.
  ghost predicate Agree(h: Heap, f: seq<int>) {
    |h.at| == |h.used| + 1 && |f| >= 1 && f[0] == HEAD && NoDup(f) && Listed(f) == FreeAddrs(h)
  }

  // Position of address a in the free list.
  ghost function Position(f: seq<int>, a: int): (k: nat)
    requires a in Listed(f)
    ensures 1 <= k < |f| && f[k] == a
  {
    var k :| 1 <= k < |f| && f[k] == a; k
  }

  ghost function Without(f: seq<int>, a: int): seq<int>
    requires a in Listed(f)
  {
    RemoveAt(f, Position(f, a))
  }

  ghost function Front(f: seq<int>, a: int): seq<int>
    requires |f| >= 1
  {
    [HEAD, a] + f[1..]
  }

  // The first listed block from position k on that holds n payload bytes; |f| if there is none.
  ghost function FirstFit(h: Heap, f: seq<int>, n: nat, k: nat): (r: nat)
    requires Agree(h, f) && 1 <= k <= |f|
    ensures k <= r <= |f|
    ensures r < |f| ==> f[r] in FreeAddrs(h) && h.Fits(FreeIndex(h, f[r]), n)
    ensures forall j :: k <= j < r ==> f[j] in FreeAddrs(h) && !h.Fits(FreeIndex(h, f[j]), n)
    decreases |f| - k
  {
    if k == |f| then k
    else
      assert f[k] in Listed(f);
      if h.Fits(FreeIndex(h, f[k]), n) then k else FirstFit(h, f, n, k + 1)
  }

  // The search comes back empty exactly when no free block at all holds n payload bytes.
  lemma SearchIsComplete(h: Heap, f: seq<int>, n: nat, end: nat)
    requires Agree(h, f) && h.Tiled(end)
    ensures FirstFit(h, f, n, 1) == |f| <==> forall i :: 0 <= i < |h.used| ==> !h.Fits(i, n)
  {
    var r := FirstFit(h, f, n, 1);
    if r == |f| {
      forall i | 0 <= i < |h.used|
        ensures !h.Fits(i, n)
      {
        if !h.used[i] {
          assert h.at[i] in FreeAddrs(h);
          Distinct(h, end, i);
          assert FreeIndex(h, h.at[i]) == i;
          assert h.at[i] as int in Listed(f);
          var j :| 1 <= j < |f| && f[j] == h.at[i] as int;
        }
      }
    }
  }

  // ---- in-place growth ----

  // Block i, followed by a free block, grows until address p.
  function GrowTo(h: Heap, i: nat, p: nat): Heap
    requires i + 1 < |h.at|
  {
    h.(at := h.at[i + 1 := p])
  }

  // The free neighbour is merged into block i before the remainder is cut off again.
  ghost function Absorb(h: Heap, i: nat): Heap
    requires |h.at| == |h.used| + 1 && i + 1 < |h.used|
  {
    Mark(Join(Mark(h, i, false), i), i, true)
  }

  lemma AbsorbThenCut(h: Heap, i: nat, p: nat)
    requires |h.at| == |h.used| + 1 && i + 1 < |h.used| && h.used[i] && !h.used[i + 1]
    ensures Cut(Absorb(h, i), i, p) == GrowTo(h, i, p)
  {
    var m := Mark(h, i, false);
    var j := Join(m, i);
    var b := Absorb(h, i);
    var c := Cut(b, i, p);
    JoinAccess(m, i);
    CutAccess(b, i, p);
    assert c.at == GrowTo(h, i, p).at;
    assert c.used == h.used;
  }

  lemma AbsorbFacts(h: Heap, end: nat, i: nat)
    requires h.Tiled(end) && i + 1 < |h.used| && h.used[i] && !h.used[i + 1]
    ensures
      var b := Absorb(h, i);
      && b.Tiled(end) && b.hdr == h.hdr && i < |b.used| && b.used[i]
      && b.at[i] == h.at[i] && b.at[i + 1] == h.at[i + 2]
      && FreeBytes(b) == FreeBytes(h) - h.Payload(i + 1)
      && FreeAddrs(b) == FreeAddrs(h) - {h.at[i + 1]}
  {
    var m := Mark(h, i, false);
    var j := Join(m, i);
    MarkTiled(h, end, i, false);
    JoinTiled(m, end, i);
    JoinAccess(m, i);
    MarkTiled(j, end, i, true);
    MarkFreeBytes(h, i, false);
    JoinFreeBytes(m, i);
    MarkFreeBytes(j, i, true);
    AbsorbFreeAddrs(h, end, i);
  }

  lemma AbsorbFreeAddrs(h: Heap, end: nat, i: nat)
    requires h.Tiled(end) && i + 1 < |h.used| && h.used[i] && !h.used[i + 1]
    ensures FreeAddrs(Absorb(h, i)) == FreeAddrs(h) - {h.at[i + 1]}
  {
    var m := Mark(h, i, false);
    var j := Join(m, i);
    MarkTiled(h, end, i, false);
    JoinTiled(m, end, i);
    JoinAccess(m, i);
    MarkFreeAddrs(h, end, i, false);
    JoinFreeAddrs(m, end, i);
    MarkFreeAddrs(j, end, i, true);
    Distinct(h, end, i);
    assert h.at[i] as int !in FreeAddrs(h);
    Ordered(h, end, i, i + 1);
  }

  // Growing keeps the layout coalesced and takes exactly the grown bytes from the free ones.
  lemma GrowFacts(h: Heap, end: nat, i: nat, p: nat)
    requires h.Valid(end) && i + 1 < |h.used| && h.used[i] && !h.used[i + 1]
    requires h.at[i + 1] < p && p + h.hdr < h.at[i + 2]
    ensures
      var g := GrowTo(h, i, p);
      && g.Valid(end)
      && FreeBytes(g) == FreeBytes(h) - (p - h.at[i + 1])
      && FreeAddrs(g) == FreeAddrs(h) - {h.at[i + 1]} + {p}
  {
    var b := Absorb(h, i);
    AbsorbThenCut(h, i, p);
    AbsorbFacts(h, end, i);
    Ordered(h, end, i, i + 1);
    CutTiled(b, end, i, p);
    CutFreeBytes(b, i, p);
    CutFreeAddrs(b, end, i, p);
    assert h.at[i] as int !in FreeAddrs(b) by { Distinct(b, end, i); }
    var g := GrowTo(h, i, p);
    forall j: nat | j + 1 < |g.used|
      ensures g.Separated(j)
    {
      assert h.Separated(j);
    }
  }

  // ---- what the operations do to layout and list ----

  lemma WithoutFacts(f: seq<int>, a: int)
    requires |f| >= 1 && f[0] == HEAD && NoDup(f) && a in Listed(f)
    ensures
      var g := Without(f, a);
      |g| >= 1 && g[0] == HEAD && NoDup(g) && Listed(g) == Listed(f) - {a}
  {
    var k, g := Position(f, a), Without(f, a);
    assert forall j :: 0 <= j < |g| ==> g[j] == f[if j < k then j else j + 1];
    forall b | b in Listed(f) && b != a
      ensures b in Listed(g)
    {
      var j :| 1 <= j < |f| && f[j] == b;
      assert g[if j < k then j else j - 1] == b;
    }
  }

  lemma FrontFacts(f: seq<int>, p: nat)
    requires |f| >= 1 && f[0] == HEAD && NoDup(f) && p as int !in Listed(f)
    ensures
      var g := Front(f, p);
      |g| >= 1 && g[0] == HEAD && NoDup(g) && Listed(g) == Listed(f) + {p as int}
  {
    var g := Front(f, p);
    assert forall j :: 0 <= j < |g| ==> g[j] == if j == 0 then HEAD else if j == 1 then p else f[j - 1];
    forall b | b in Listed(f)
      ensures b in Listed(g)
    {
      var j :| 1 <= j < |f| && f[j] == b;
      assert g[j + 1] == b;
    }
    assert g[1] == p;
    forall b | b in Listed(g) && b != p
      ensures b in Listed(f)
    {
      var j :| 1 <= j < |g| && g[j] == b;
      assert f[j - 1] == b;
    }
    forall j | 1 <= j < |f| ensures f[j] != p { assert f[j] in Listed(f); }
  }

  // The free blocks when block i is released: it takes up free neighbours on both sides.
  lemma FreeAtAddrs(h: Heap, end: nat, i: nat)
    requires h.Tiled(end) && i < |h.used| && h.used[i]
    ensures
      var right := if i + 1 < |h.used| && !h.used[i + 1] then {h.at[i + 1] as int} else {};
      var own := if i > 0 && !h.used[i - 1] then {} else {h.at[i] as int};
      FreeAddrs(FreeAt(h, i)) == FreeAddrs(h) - right + own
  {
    var m := Mark(h, i, false);
    var g := JoinForward(m, i);
    MarkTiled(h, end, i, false);
    MarkFreeAddrs(h, end, i, false);
    Distinct(h, end, i);
    assert h.at[i] as int !in FreeAddrs(h);
    if g != m {
      JoinTiled(m, end, i);
      JoinAccess(m, i);
      JoinFreeAddrs(m, end, i);
    }
    if i > 0 && !g.used[i - 1] { JoinFreeAddrs(g, end, i - 1); }
  }

  lemma ShrinkListed(h: Heap, end: nat, i: nat, n: nat)
    requires h.hdr == ITEM && h.Valid(end) && i < |h.used| && h.used[i] && n > 0 && n + ITEM + MINIALLOC < h.Payload(i)
    ensures
      var right := if i + 1 < |h.used| && !h.used[i + 1] then {h.at[i + 1] as int} else {};
      FreeAddrs(ShrinkAt(h, i, n)) == FreeAddrs(h) - right + {(h.at[i] + ITEM + n) as int}
  {
    var p := h.at[i] + ITEM + n;
    var c := Cut(h, i, p);
    ShrinkAddrs(h, end, i, n);
    if i + 2 < |c.used| && !c.used[i + 2] { JoinFreeAddrs(c, end, i + 1); }
  }

  ghost predicate CanGrow(h: Heap, i: nat, n: nat)
    requires |h.at| == |h.used| + 1 && i < |h.used|
  {
    i + 1 < |h.used| && !h.used[i + 1] && h.Payload(i + 1) + h.Payload(i) > n + MINIALLOC
  }

  // The test rt_memheap_realloc makes: the neighbour's payload goes through an int, and the sums wrap.
  ghost predicate LooksRoomy(h: Heap, i: nat, n: nat)
    requires |h.at| == |h.used| + 1 && i + 1 < |h.used|
  {
    (ToUnsigned(ToInt(h.Payload(i + 1))) + h.Payload(i)) % WORD64 > (n + MINIALLOC) % WORD64
  }

  ghost predicate CodeGrows(h: Heap, i: nat, n: nat)
    requires |h.at| == |h.used| + 1 && i < |h.used|
  {
    i + 1 < |h.used| && !h.used[i + 1] && LooksRoomy(h, i, n)
  }

  // When that test can be trusted: a free neighbour's payload fits the int, or it does suffice, or the
  // request is so large that even a payload taken for a negative number does not seem to.
  ghost predicate GrowthSound(h: Heap, i: nat, n: nat)
    requires |h.at| == |h.used| + 1 && i < |h.used|
  {
    i + 1 < |h.used| && !h.used[i + 1] ==>
      var room := h.Payload(i + 1) + h.Payload(i);
      if n + MINIALLOC < WORD64 then
        h.Payload(i + 1) < 0x8000_0000 || room > n + MINIALLOC || WORD64 - WORD32 + room <= n + MINIALLOC
      else
        WORD64 + room <= n + MINIALLOC
  }

  // The code grows a block in place just when there is room for it, exactly under that condition.
  lemma GrowthExact(h: Heap, end: nat, i: nat, n: nat)
    requires h.Tiled(end) && end < WORD32 && i < |h.used| && Alignable(n)
    ensures (CodeGrows(h, i, n) <==> CanGrow(h, i, n)) <==> GrowthSound(h, i, n)
  {
    if i + 1 < |h.used| && !h.used[i + 1] {
      Ordered(h, end, i, i + 1);
      Ordered(h, end, i + 1, i + 2);
      Ordered(h, end, i + 2, |h.used|);
      TestExact(h.Payload(i + 1), h.Payload(i), n);
    }
  }

  lemma TestExact(nextsize: nat, oldsize: nat, n: nat)
    requires nextsize + oldsize < WORD32 && Alignable(n)
    ensures
      var looks := (ToUnsigned(ToInt(nextsize)) + oldsize) % WORD64 > (n + MINIALLOC) % WORD64;
      var room := nextsize + oldsize;
      (looks <==> room > n + MINIALLOC) <==>
      if n + MINIALLOC < WORD64 then
        nextsize < 0x8000_0000 || room > n + MINIALLOC || WORD64 - WORD32 + room <= n + MINIALLOC
      else
        WORD64 + room <= n + MINIALLOC
  {
    var taken := ToUnsigned(ToInt(nextsize));
    assert taken == if nextsize < 0x8000_0000 then nextsize else WORD64 - WORD32 + nextsize;
    assert (taken + oldsize) % WORD64 == taken + oldsize;
  }

  lemma InsideNotFree(h: Heap, end: nat, i: nat, p: nat)
    requires h.Tiled(end) && i < |h.used| && h.at[i] < p < h.at[i + 1]
    ensures p as int !in FreeAddrs(h)
  {
    if p as int in FreeAddrs(h) {
      var k := FreeIndex(h, p);
      Ordered(h, end, k, i);
      Ordered(h, end, i + 1, k);
    }
  }

  // The free list after n payload bytes were taken from the free block i.
  ghost function ListAfterTake(h: Heap, f: seq<int>, i: nat, n: nat): seq<int>
    requires |h.at| == |h.used| + 1 && i < |h.used|
  {
    var a := h.at[i];
    if a as int !in Listed(f) then f
    else if h.Payload(i) >= n + ITEM + MINIALLOC then Front(Without(f, a), a + n + ITEM)
    else Without(f, a)
  }

  // FreeAddrs and FreeBytes across an allocation.
  lemma TakeAddrs(h: Heap, end: nat, i: nat, n: nat)
    requires h.hdr == ITEM && h.Valid(end) && i < |h.used| && h.Fits(i, n)
    ensures
      var t := TakeAt(h, i, n, MINIALLOC);
      && |t.at| == |t.used| + 1
      && if h.Payload(i) >= n + ITEM + MINIALLOC then
           && FreeAddrs(t) == FreeAddrs(h) - {h.at[i] as int} + {h.at[i] + n + ITEM}
           && FreeBytes(t) == FreeBytes(h) - n - ITEM
         else
           && FreeAddrs(t) == FreeAddrs(h) - {h.at[i] as int}
           && FreeBytes(t) == FreeBytes(h) - h.Payload(i)
  {
    if h.Payload(i) >= n + ITEM + MINIALLOC {
      CutFreeAddrs(h, end, i, h.at[i] + ITEM + n);
      CutFreeBytes(h, i, h.at[i] + ITEM + n);
    } else {
      MarkFreeAddrs(h, end, i, true);
      MarkFreeBytes(h, i, true);
    }
  }

  // The free list after block i was released.
  ghost function ListAfterFree(h: Heap, f: seq<int>, i: nat): seq<int>
    requires |h.at| == |h.used| + 1 && i < |h.used| && |f| >= 1
  {
    var b := h.at[i + 1] as int;
    var rest := if i + 1 < |h.used| && !h.used[i + 1] && b in Listed(f) then Without(f, b) else f;
    if (i > 0 && !h.used[i - 1]) || |rest| == 0 then rest else Front(rest, h.at[i])
  }

  lemma FreeGains(h: Heap, end: nat, i: nat)
    requires h.Valid(end) && i < |h.used| && h.used[i]
    ensures FreeBytes(FreeAt(h, i)) >= FreeBytes(h)
  {
    var m := Mark(h, i, false);
    Ordered(h, end, i, i + 1);
    MarkFreeBytes(h, i, false);
    var g := JoinForward(m, i);
    if g != m {
      JoinFreeBytes(m, i);
      JoinAccess(m, i);
    }
    if i > 0 && !g.used[i - 1] { JoinFreeBytes(g, i - 1); }
  }

  ghost function ListAfterShrink(h: Heap, f: seq<int>, i: nat, n: nat): seq<int>
    requires |h.at| == |h.used| + 1 && i < |h.used| && |f| >= 1
  {
    var b := h.at[i + 1] as int;
    var rest := if i + 1 < |h.used| && !h.used[i + 1] && b in Listed(f) then Without(f, b) else f;
    if |rest| == 0 then rest else Front(rest, h.at[i] + n + ITEM)
  }

  lemma ShrinkAddrs(h: Heap, end: nat, i: nat, n: nat)
    requires h.hdr == ITEM && h.Valid(end) && i < |h.used| && h.used[i] && n > 0 && n + ITEM + MINIALLOC < h.Payload(i)
    ensures
      var p := h.at[i] + ITEM + n;
      var s, c := ShrinkAt(h, i, n), Cut(h, i, p);
      && c.hdr == ITEM && c.Tiled(end) && i + 1 < |c.used| && !c.used[i + 1] && c.at[i + 1] == p && c.at[i] == h.at[i]
      && (i + 1 < |h.used| ==> c.used[i + 2] == h.used[i + 1]) && c.at[i + 2] == h.at[i + 1]
      && (i + 1 < |h.used| ==> c.at[i + 3] == h.at[i + 2])
      && FreeAddrs(c) == FreeAddrs(h) + {p as int} && p as int !in FreeAddrs(h)
      && s == JoinForward(c, i + 1)
      && FreeBytes(s) == FreeBytes(h) + h.at[i + 1] - p - (if i + 2 < |c.used| && !c.used[i + 2] then 0 else ITEM)
  {
    var p := h.at[i] + ITEM + n;
    var c := Cut(h, i, p);
    ShrinkCut(h, end, i, n, MINIALLOC);
    CutAccess(h, i, p);
    CutFreeAddrs(h, end, i, p);
    CutFreeBytes(h, i, p);
    Distinct(h, end, i);
    assert h.at[i] as int !in FreeAddrs(h);
    InsideNotFree(h, end, i, p);
    if i + 2 < |c.used| && !c.used[i + 2] {
      JoinAccess(c, i + 1);
      JoinFreeBytes(c, i + 1);
    }
  }

  // Where the merged block and its next neighbour are after a merge to the left.
  lemma MergedAt(m: Heap, i: nat)
    requires |m.at| == |m.used| + 1 && i < |m.used| && !m.used[i]
    ensures
      var left := i > 0 && !m.used[i - 1];
      var g, j := JoinBackward(m, i), if left then i - 1 else i;
      && |g.at| == |g.used| + 1 && j < |g.used| && !g.used[j] && |g.used| - j == |m.used| - i
      && g.at[j] == (if left then m.at[i - 1] else m.at[i]) && g.at[j + 1] == m.at[i + 1]
      && (j + 1 < |g.used| ==> g.used[j + 1] == m.used[i + 1])
  {
    if i > 0 && !m.used[i - 1] { JoinAccess(m, i - 1); }
  }

  // Merging left then right is the same as merging right then left.
  lemma MergeOrder(m: Heap, i: nat)
    requires |m.at| == |m.used| + 1 && i < |m.used| && !m.used[i]
    ensures
      var j := if i > 0 && !m.used[i - 1] then i - 1 else i;
      var g := JoinBackward(m, i);
      |g.at| == |g.used| + 1 && j < |g.used| && JoinForward(g, j) == Plug(m, i)
  {
    MergedAt(m, i);
    if i + 1 < |m.used| && !m.used[i + 1] {
      JoinAccess(m, i);
      if i > 0 && !m.used[i - 1] {
        var l, r := Join(m, i - 1), Join(m, i);
        JoinAccess(m, i - 1);
        JoinAccess(l, i - 1);
        JoinAccess(r, i - 1);
        assert Join(l, i - 1).at == Join(r, i - 1).at;
        assert Join(l, i - 1).used == Join(r, i - 1).used;
      }
    }
  }

  lemma ListedFree(h: Heap, f: seq<int>, i: nat)
    requires Agree(h, f) && i < |h.used| && !h.used[i]
    ensures h.at[i] as int in Listed(f)
  {
    assert h.at[i] as int in FreeAddrs(h);
  }
}
