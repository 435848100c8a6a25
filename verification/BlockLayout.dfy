// The layout of a heap of address-linked blocks as a value, shared by the small-memory heap
// (rt-thread/src/mem.c) and the memheap (rt-thread/src/memheap.c), and the effect of allocation,
// release and shrinking on it.
//
// Addresses are offsets from the start of the memory. Block i covers [at[i], at[i+1]): a header of
// hdr bytes followed by its payload. The last entry of `at` is the end mark (heap_end, or the
// used tail item of a memheap).
module BlockLayout {
  datatype Heap = Heap(hdr: nat, at: seq<nat>, used: seq<bool>) {
    // Boundary i is a whole header before boundary j.
    ghost predicate Gap(i: nat, j: nat)
      requires i < |at| && j < |at|
    {
      at[i] + hdr < at[j]
    }

    ghost predicate Tiled(end: nat) {
      && |at| == |used| + 1
      && |used| >= 1
      && at[0] == 0
      && at[|used|] == end
      && (forall i: nat, j: nat :: i < j < |at| ==> Gap(i, j))
    }

    ghost predicate Separated(i: nat)
      requires i + 1 < |used|
    {
      used[i] || used[i + 1]
    }

    // No two neighbouring blocks are free.
    ghost predicate Coalesced() {
      forall i: nat :: i + 1 < |used| ==> Separated(i)
    }

    // ... except possibly on either side of block k.
    ghost predicate CoalescedBut(k: nat) {
      forall i: nat :: i + 1 < |used| && i != k && i + 1 != k ==> Separated(i)
    }

    ghost predicate Valid(end: nat) {
      Tiled(end) && Coalesced()
    }

    function Payload(i: nat): int
      requires |at| == |used| + 1 && i < |used|
    {
      at[i + 1] - at[i] - hdr
    }

    ghost predicate Fits(i: nat, n: nat)
      requires |at| == |used| + 1 && i < |used|
    {
      !used[i] && Payload(i) >= n
    }

    // The extents of the blocks in use.
    ghost function Live(): set<(nat, nat)>
      requires |at| == |used| + 1
    {
      set i | 0 <= i < |used| && used[i] :: (at[i], at[i + 1])
    }
  }

  function Max(a: int, b: int): int {
    if a < b then b else a
  }

  // Index of the first free block at or after i; |used| stands for heap_end.
  function LowestFree(used: seq<bool>, i: nat): (k: nat)
    requires i <= |used|
    ensures i <= k <= |used|
    ensures k < |used| ==> !used[k]
    ensures forall j :: i <= j < k ==> used[j]
    decreases |used| - i
  {
    if i == |used| || !used[i] then i else LowestFree(used, i + 1)
  }

  // The bytes spanned by those of the first k blocks that are in use, headers included.
  ghost function UsedUpTo(h: Heap, k: nat): int
    requires |h.at| == |h.used| + 1 && k <= |h.used|
  {
    if k == 0 then 0
    else UsedUpTo(h, k - 1) + if h.used[k - 1] then h.at[k] as int - h.at[k - 1] else 0
  }

  ghost function UsedBytes(h: Heap): int
    requires |h.at| == |h.used| + 1
  {
    UsedUpTo(h, |h.used|)
  }

  // Block k of g looks like block k - a + b of h.
  ghost predicate SameSpan(g: Heap, a: nat, h: Heap, b: nat, k: nat)
    requires |g.at| == |g.used| + 1 && |h.at| == |h.used| + 1
    requires a <= k < |g.used| && k - a + b < |h.used|
  {
    var m := k - a + b;
    g.used[k] == h.used[m] && g.at[k] == h.at[m] && g.at[k + 1] == h.at[m + 1]
  }

  // A run of n blocks that looks the same in two layouts contributes the same to both sums.
  lemma {:induction false} SameRun(g: Heap, a: nat, h: Heap, b: nat, n: nat)
    requires |g.at| == |g.used| + 1 && |h.at| == |h.used| + 1
    requires a + n <= |g.used| && b + n <= |h.used|
    requires forall k: nat :: a <= k < a + n ==> SameSpan(g, a, h, b, k)
    ensures UsedUpTo(g, a + n) - UsedUpTo(g, a) == UsedUpTo(h, b + n) - UsedUpTo(h, b)
  {
    if n > 0 {
      SameRun(g, a, h, b, n - 1);
      assert SameSpan(g, a, h, b, a + n - 1);
    }
  }

  function Mark(h: Heap, i: nat, flag: bool): Heap
    requires i < |h.used|
  {
    h.(used := h.used[i := flag])
  }

  // Boundary and flag k of h with block i cut at p: the front in use, the remainder free.
  ghost function CutAt(h: Heap, i: nat, p: nat, k: int): nat
    requires |h.at| == |h.used| + 1 && i < |h.used| && 0 <= k <= |h.at|
  {
    if k <= i then h.at[k] else if k == i + 1 then p else h.at[k - 1]
  }

  ghost predicate CutFlag(h: Heap, i: nat, k: int)
    requires i < |h.used| && 0 <= k <= |h.used|
  {
    if k < i then h.used[k] else if k <= i + 1 then k == i else h.used[k - 1]
  }

  ghost predicate CutEntry(h: Heap, i: nat, p: nat, c: Heap, k: nat)
    requires |h.at| == |h.used| + 1 && i < |h.used|
    requires |c.at| == |h.at| + 1 && |c.used| == |h.used| + 1 && k < |c.at|
  {
    c.at[k] == CutAt(h, i, p, k) && (k < |c.used| ==> c.used[k] == CutFlag(h, i, k))
  }

  ghost predicate IsCut(h: Heap, i: nat, p: nat, c: Heap)
    requires |h.at| == |h.used| + 1 && i < |h.used|
  {
    && c.hdr == h.hdr && |c.at| == |h.at| + 1 && |c.used| == |h.used| + 1
    && forall k: nat :: k < |c.at| ==> CutEntry(h, i, p, c, k)
  }

  ghost function Cut(h: Heap, i: nat, p: nat): (c: Heap)
    requires |h.at| == |h.used| + 1 && i < |h.used|
    ensures IsCut(h, i, p, c)
  {
    CutExists(h, i, p);
    var c :| IsCut(h, i, p, c); c
  }

  lemma CutExists(h: Heap, i: nat, p: nat)
    requires |h.at| == |h.used| + 1 && i < |h.used|
    ensures exists c :: IsCut(h, i, p, c)
  {
    var c := Heap(h.hdr, h.at[..i + 1] + [p] + h.at[i + 1..], h.used[..i] + [true, false] + h.used[i + 1..]);
    assert IsCut(h, i, p, c);
  }

  // Boundary and flag k of h with blocks i and i+1 joined into one free block.
  ghost function JoinAt(h: Heap, i: nat, k: int): nat
    requires |h.at| == |h.used| + 1 && i + 1 < |h.used| && 0 <= k < |h.used|
  {
    if k <= i then h.at[k] else h.at[k + 1]
  }

  ghost predicate JoinFlag(h: Heap, i: nat, k: int)
    requires i + 1 < |h.used| && 0 <= k < |h.used| - 1
  {
    if k < i then h.used[k] else if k == i then false else h.used[k + 1]
  }

  ghost predicate JoinEntry(h: Heap, i: nat, c: Heap, k: nat)
    requires |h.at| == |h.used| + 1 && i + 1 < |h.used|
    requires |c.at| == |h.at| - 1 && |c.used| == |h.used| - 1 && k < |c.at|
  {
    c.at[k] == JoinAt(h, i, k) && (k < |c.used| ==> c.used[k] == JoinFlag(h, i, k))
  }

  ghost predicate IsJoin(h: Heap, i: nat, c: Heap)
    requires |h.at| == |h.used| + 1 && i + 1 < |h.used|
  {
    && c.hdr == h.hdr && |c.at| == |h.at| - 1 && |c.used| == |h.used| - 1
    && forall k: nat :: k < |c.at| ==> JoinEntry(h, i, c, k)
  }

  ghost function Join(h: Heap, i: nat): (c: Heap)
    requires |h.at| == |h.used| + 1 && i + 1 < |h.used|
    ensures IsJoin(h, i, c)
  {
    JoinExists(h, i);
    var c :| IsJoin(h, i, c); c
  }

  lemma JoinExists(h: Heap, i: nat)
    requires |h.at| == |h.used| + 1 && i + 1 < |h.used|
    ensures exists c :: IsJoin(h, i, c)
  {
    var c := Heap(h.hdr, h.at[..i + 1] + h.at[i + 2..], h.used[..i] + [false] + h.used[i + 2..]);
    assert IsJoin(h, i, c);
  }

  // Treatment of the block chosen for n payload bytes: split when a further block with at least
  // min payload bytes fits behind, else take it whole.
  ghost function TakeAt(h: Heap, i: nat, n: nat, min: nat): Heap
    requires |h.at| == |h.used| + 1 && i < |h.used|
  {
    if h.Payload(i) >= n + h.hdr + min then Cut(h, i, h.at[i] + h.hdr + n)
    else Mark(h, i, true)
  }

  ghost function JoinForward(h: Heap, i: nat): Heap
    requires |h.at| == |h.used| + 1 && i < |h.used|
  {
    if i + 1 < |h.used| && !h.used[i + 1] then Join(h, i) else h
  }

  ghost function JoinBackward(h: Heap, i: nat): Heap
    requires |h.at| == |h.used| + 1 && i < |h.used|
  {
    if i > 0 && !h.used[i - 1] then Join(h, i - 1) else h
  }

  // Joins the free block i with its free neighbours.
  ghost function Plug(h: Heap, i: nat): Heap
    requires |h.at| == |h.used| + 1 && i < |h.used|
  {
    JoinBackward(JoinForward(h, i), i)
  }

  ghost function FreeAt(h: Heap, i: nat): Heap
    requires |h.at| == |h.used| + 1 && i < |h.used|
  {
    Plug(Mark(h, i, false), i)
  }

  // Shrinks block i in place to n payload bytes.
  ghost function ShrinkAt(h: Heap, i: nat, n: nat): Heap
    requires |h.at| == |h.used| + 1 && i < |h.used|
  {
    Plug(Cut(h, i, h.at[i] + h.hdr + n), i + 1)
  }

  lemma Ordered(h: Heap, end: nat, i: nat, j: nat)
    requires h.Tiled(end) && i < |h.at| && j < |h.at|
    ensures i < j ==> h.at[i] + h.hdr < h.at[j]
    ensures h.at[i] == h.at[j] <==> i == j
    ensures h.at[i] <= end
  {
    assert i < j ==> h.Gap(i, j);
    assert j < i ==> h.Gap(j, i);
    assert i < |h.used| ==> h.Gap(i, |h.used|);
  }

  lemma Distinct(h: Heap, end: nat, i: nat)
    requires h.Tiled(end) && i < |h.at|
    ensures forall j :: 0 <= j < |h.at| && j != i ==> h.at[j] != h.at[i]
  {
    forall j | 0 <= j < |h.at| && j != i
      ensures h.at[j] != h.at[i]
    {
      Ordered(h, end, i, j);
    }
  }

  // ---- what the operations keep ----

  lemma CutAccess(h: Heap, i: nat, p: nat)
    requires |h.at| == |h.used| + 1 && i < |h.used|
    ensures
      var c := Cut(h, i, p);
      && (forall k :: 0 <= k < |c.at| ==> c.at[k] == CutAt(h, i, p, k))
      && (forall k :: 0 <= k < |c.used| ==> c.used[k] == CutFlag(h, i, k))
  {
    var c := Cut(h, i, p);
    forall k | 0 <= k < |c.at|
      ensures c.at[k] == CutAt(h, i, p, k)
      ensures k < |c.used| ==> c.used[k] == CutFlag(h, i, k)
    {
      assert CutEntry(h, i, p, c, k);
    }
  }

  lemma CutGap(h: Heap, end: nat, i: nat, p: nat, j: nat, k: nat)
    requires h.Tiled(end) && i < |h.used| && j < k < |h.at| + 1
    requires h.at[i] + h.hdr < p && p + h.hdr < h.at[i + 1]
    ensures Cut(h, i, p).Gap(j, k)
  {
    CutAccess(h, i, p);
    if k <= i {
      Ordered(h, end, j, k);
    } else if k == i + 1 {
      Ordered(h, end, j, i);
    } else if j == i + 1 {
      Ordered(h, end, i + 1, k - 1);
    } else {
      Ordered(h, end, if j <= i then j else j - 1, k - 1);
    }
  }

  lemma CutTiled(h: Heap, end: nat, i: nat, p: nat)
    requires h.Tiled(end) && i < |h.used|
    requires h.at[i] + h.hdr < p && p + h.hdr < h.at[i + 1]
    ensures Cut(h, i, p).Tiled(end)
  {
    CutAccess(h, i, p);
    forall j: nat, k: nat | j < k < |h.at| + 1
      ensures Cut(h, i, p).Gap(j, k)
    {
      CutGap(h, end, i, p, j, k);
    }
  }

  lemma CutLive(h: Heap, i: nat, p: nat)
    requires |h.at| == |h.used| + 1 && i < |h.used|
    requires forall j :: 0 <= j < |h.used| && j != i ==> h.at[j] != h.at[i]
    ensures Cut(h, i, p).Live() == h.Live() - {(h.at[i], h.at[i + 1])} + {(h.at[i], p)}
  {
    var c := Cut(h, i, p);
    CutAccess(h, i, p);
    forall b | b in h.Live() && b != (h.at[i], h.at[i + 1])
      ensures b in c.Live()
    {
      var k :| 0 <= k < |h.used| && h.used[k] && b == (h.at[k], h.at[k + 1]);
      var k' := if k < i then k else k + 1;
      assert c.used[k'] && b == (c.at[k'], c.at[k' + 1]);
    }
    assert c.used[i] && c.at[i] == h.at[i] && c.at[i + 1] == p;
    forall b | b in c.Live() && b != (h.at[i], p)
      ensures b in h.Live() && b != (h.at[i], h.at[i + 1])
    {
      var k :| 0 <= k < |c.used| && c.used[k] && b == (c.at[k], c.at[k + 1]);
      var k' := if k < i then k else k - 1;
      assert h.used[k'] && b == (h.at[k'], h.at[k' + 1]);
    }
  }

  lemma CutUsedBytes(h: Heap, i: nat, p: nat)
    requires |h.at| == |h.used| + 1 && i < |h.used|
    ensures UsedBytes(Cut(h, i, p))
         == UsedBytes(h) + (p - h.at[i]) - (if h.used[i] then h.at[i + 1] as int - h.at[i] else 0)
  {
    var c := Cut(h, i, p);
    CutAccess(h, i, p);
    SameRun(h, 0, c, 0, i);
    SameRun(h, i + 1, c, i + 2, |h.used| - i - 1);
    assert UsedUpTo(c, i + 2) == UsedUpTo(c, i + 1);
  }

  lemma JoinAccess(h: Heap, i: nat)
    requires |h.at| == |h.used| + 1 && i + 1 < |h.used|
    ensures
      var c := Join(h, i);
      && (forall k :: 0 <= k < |c.at| ==> c.at[k] == JoinAt(h, i, k))
      && (forall k :: 0 <= k < |c.used| ==> c.used[k] == JoinFlag(h, i, k))
  {
    var c := Join(h, i);
    forall k | 0 <= k < |c.at|
      ensures c.at[k] == JoinAt(h, i, k)
      ensures k < |c.used| ==> c.used[k] == JoinFlag(h, i, k)
    {
      assert JoinEntry(h, i, c, k);
    }
  }

  lemma JoinLive(h: Heap, i: nat)
    requires |h.at| == |h.used| + 1 && i + 1 < |h.used| && !h.used[i] && !h.used[i + 1]
    ensures Join(h, i).Live() == h.Live()
  {
    var c := Join(h, i);
    JoinAccess(h, i);
    forall b | b in h.Live()
      ensures b in c.Live()
    {
      var k :| 0 <= k < |h.used| && h.used[k] && b == (h.at[k], h.at[k + 1]);
      var k' := if k < i then k else k - 1;
      assert c.used[k'] && b == (c.at[k'], c.at[k' + 1]);
    }
    forall b | b in c.Live()
      ensures b in h.Live()
    {
      var k :| 0 <= k < |c.used| && c.used[k] && b == (c.at[k], c.at[k + 1]);
      var k' := if k < i then k else k + 1;
      assert h.used[k'] && b == (h.at[k'], h.at[k' + 1]);
    }
  }

  lemma JoinUsedBytes(h: Heap, i: nat)
    requires |h.at| == |h.used| + 1 && i + 1 < |h.used| && !h.used[i] && !h.used[i + 1]
    ensures UsedBytes(Join(h, i)) == UsedBytes(h)
  {
    var c := Join(h, i);
    JoinAccess(h, i);
    SameRun(h, 0, c, 0, i);
    SameRun(h, i + 2, c, i + 1, |h.used| - i - 2);
    assert UsedUpTo(h, i + 2) == UsedUpTo(h, i + 1);
  }

  lemma JoinTiled(h: Heap, end: nat, i: nat)
    requires h.Tiled(end) && i + 1 < |h.used|
    ensures Join(h, i).Tiled(end)
  {
    var c := Join(h, i);
    JoinAccess(h, i);
    forall j: nat, k: nat | j < k < |c.at|
      ensures c.Gap(j, k)
    {
      Ordered(h, end, if j <= i then j else j + 1, if k <= i then k else k + 1);
    }
  }

  lemma JoinFacts(h: Heap, end: nat, i: nat)
    requires h.Tiled(end) && i + 1 < |h.used| && !h.used[i] && !h.used[i + 1]
    ensures Join(h, i).Tiled(end)
    ensures UsedBytes(Join(h, i)) == UsedBytes(h)
  {
    JoinTiled(h, end, i);
    JoinUsedBytes(h, i);
  }

  lemma MarkTiled(h: Heap, end: nat, i: nat, flag: bool)
    requires h.Tiled(end) && i < |h.used|
    ensures Mark(h, i, flag).Tiled(end)
  {
    var m := Mark(h, i, flag);
    forall j: nat, k: nat | j < k < |m.at|
      ensures m.Gap(j, k)
    {
      assert h.Gap(j, k);
    }
  }

  lemma MarkUsedBytes(h: Heap, i: nat, flag: bool)
    requires |h.at| == |h.used| + 1 && i < |h.used| && h.used[i] != flag
    ensures
      var span := h.Payload(i) + h.hdr;
      UsedBytes(Mark(h, i, flag)) == UsedBytes(h) + if flag then span else -span
  {
    var m := Mark(h, i, flag);
    SameRun(h, 0, m, 0, i);
    SameRun(h, i + 1, m, i + 1, |h.used| - i - 1);
  }

  lemma MarkFacts(h: Heap, end: nat, i: nat, flag: bool)
    requires h.Tiled(end) && i < |h.used| && h.used[i] != flag
    ensures
      var m, span := Mark(h, i, flag), h.Payload(i) + h.hdr;
      && m.Tiled(end)
      && UsedBytes(m) == UsedBytes(h) + if flag then span else -span
  {
    MarkTiled(h, end, i, flag);
    MarkUsedBytes(h, i, flag);
  }

  lemma MarkLive(h: Heap, end: nat, i: nat, flag: bool)
    requires h.Tiled(end) && i < |h.used|
    ensures
      var m := Mark(h, i, flag);
      m.Live() == if flag then h.Live() + {(h.at[i], h.at[i + 1])} else h.Live() - {(h.at[i], h.at[i + 1])}
  {
    var m := Mark(h, i, flag);
    Distinct(h, end, i);
    forall b | b in h.Live() && b != (h.at[i], h.at[i + 1])
      ensures b in m.Live()
    {
      var k :| 0 <= k < |h.used| && h.used[k] && b == (h.at[k], h.at[k + 1]);
      assert m.used[k];
    }
    assert flag ==> m.used[i] && (h.at[i], h.at[i + 1]) in m.Live();
  }

  lemma JoinForwardCoalesced(h: Heap, i: nat)
    requires |h.at| == |h.used| + 1 && i < |h.used| && !h.used[i] && h.CoalescedBut(i)
    ensures
      var f := JoinForward(h, i);
      && |f.at| == |f.used| + 1 && i < |f.used| && !f.used[i] && f.CoalescedBut(i)
      && (i + 1 < |f.used| ==> f.Separated(i))
  {
    if i + 1 < |h.used| && !h.used[i + 1] {
      var f := Join(h, i);
      JoinAccess(h, i);
      forall j: nat | j + 1 < |f.used| && j + 1 != i
        ensures f.Separated(j)
      {
        assert j < i ==> h.Separated(j);
        assert j >= i && i + 2 < |h.used| ==> h.Separated(i + 1);
        assert j > i ==> h.Separated(j + 1);
      }
    }
  }

  lemma JoinBackwardCoalesced(f: Heap, i: nat)
    requires |f.at| == |f.used| + 1 && i < |f.used| && !f.used[i] && f.CoalescedBut(i)
    requires i + 1 < |f.used| ==> f.Separated(i)
    ensures JoinBackward(f, i).Coalesced()
  {
    if i > 0 && !f.used[i - 1] {
      var g := Join(f, i - 1);
      JoinAccess(f, i - 1);
      forall j: nat | j + 1 < |g.used|
        ensures g.Separated(j)
      {
        assert j + 1 < i ==> f.Separated(j);
        assert j >= i ==> f.Separated(j + 1);
      }
    } else {
      forall j: nat | j + 1 < |f.used|
        ensures f.Separated(j)
      {
      }
    }
  }

  lemma PlugFacts(h: Heap, end: nat, i: nat)
    requires h.Tiled(end) && i < |h.used| && !h.used[i]
    requires h.CoalescedBut(i)
    ensures Plug(h, i).Valid(end)
    ensures UsedBytes(Plug(h, i)) == UsedBytes(h)
  {
    var f := JoinForward(h, i);
    JoinForwardCoalesced(h, i);
    JoinBackwardCoalesced(f, i);
    if i + 1 < |h.used| && !h.used[i + 1] {
      JoinFacts(h, end, i);
    }
    if i > 0 && !f.used[i - 1] {
      JoinFacts(f, end, i - 1);
    }
  }

  lemma CutCoalesced(h: Heap, i: nat, p: nat)
    requires |h.at| == |h.used| + 1 && i < |h.used| && h.Coalesced()
    ensures !h.used[i] ==> Cut(h, i, p).Coalesced()
    ensures Cut(h, i, p).CoalescedBut(i + 1) && !Cut(h, i, p).used[i + 1]
  {
    var c := Cut(h, i, p);
    CutAccess(h, i, p);
    forall j: nat | j + 1 < |c.used|
      ensures (!h.used[i] || j != i + 1) ==> c.Separated(j)
    {
      assert j < i ==> h.Separated(j);
      assert j > i + 1 ==> h.Separated(j - 1);
      assert j == i + 1 ==> h.Separated(i);
    }
  }

  // The cut made for n payload bytes in block i is aligned and leaves room for a header.
  lemma CutPoint(h: Heap, end: nat, i: nat, n: nat)
    requires h.Tiled(end) && i < |h.used| && n > 0
    requires n + h.hdr < h.Payload(i)
    ensures
      var p := h.at[i] + h.hdr + n;
      h.at[i] + h.hdr < p && p + h.hdr < h.at[i + 1]
  {
  }

  lemma PlugLive(h: Heap, i: nat)
    requires |h.at| == |h.used| + 1 && i < |h.used| && !h.used[i]
    ensures |Plug(h, i).at| == |Plug(h, i).used| + 1 && Plug(h, i).Live() == h.Live()
  {
    var f := JoinForward(h, i);
    if i + 1 < |h.used| && !h.used[i + 1] {
      JoinLive(h, i);
      JoinAccess(h, i);
    }
    if i > 0 && !f.used[i - 1] {
      JoinLive(f, i - 1);
    }
  }

  // Allocation from a fitting free block occupies n bytes at that block's address, and the rest of the block
  // only if it is too small for a block of its own.
  lemma TakeFacts(h: Heap, end: nat, i: nat, n: nat, min: nat)
    requires h.Valid(end) && i < |h.used| && h.Fits(i, n) && n > 0 && min > 0
    ensures
      var t := TakeAt(h, i, n, min);
      && t.Valid(end)
      && t.used[i] && t.at[i] == h.at[i] && n <= t.Payload(i) <= h.Payload(i)
      && t.Payload(i) == (if h.Payload(i) < n + h.hdr + min then h.Payload(i) else n)
      && UsedBytes(t) == UsedBytes(h) + h.hdr + t.Payload(i)
  {
    var p := h.at[i] + h.hdr + n;
    if h.Payload(i) >= n + h.hdr + min {
      CutPoint(h, end, i, n);
      CutTiled(h, end, i, p);
      CutCoalesced(h, i, p);
      CutUsedBytes(h, i, p);
      CutAccess(h, i, p);
    } else {
      MarkFacts(h, end, i, true);
      var m := Mark(h, i, true);
      forall j: nat | j + 1 < |m.used|
        ensures m.Separated(j)
      {
        assert h.Separated(j);
      }
    }
  }

  // It adds exactly that block to the blocks in use.
  lemma TakeLive(h: Heap, end: nat, i: nat, n: nat, min: nat)
    requires h.Tiled(end) && i < |h.used| && h.Fits(i, n)
    ensures
      var t := TakeAt(h, i, n, min);
      && |t.at| == |t.used| + 1
      && t.Live() == h.Live() + {(h.at[i], t.at[i + 1])}
      && forall b :: b in h.Live() ==> b.0 != h.at[i]
  {
    Distinct(h, end, i);
    if h.Payload(i) >= n + h.hdr + min {
      CutLive(h, i, h.at[i] + h.hdr + n);
      CutAccess(h, i, h.at[i] + h.hdr + n);
      assert (h.at[i], h.at[i + 1]) !in h.Live();
    } else {
      MarkLive(h, end, i, true);
    }
  }

  // Release leaves the heap coalesced again and gives back the block's whole span.
  lemma FreeFacts(h: Heap, end: nat, i: nat)
    requires h.Valid(end) && i < |h.used| && h.used[i]
    ensures
      var f := FreeAt(h, i);
      && f.Valid(end)
      && UsedBytes(f) == UsedBytes(h) - h.hdr - h.Payload(i)
  {
    var m := Mark(h, i, false);
    MarkFacts(h, end, i, false);
    forall j: nat | j + 1 < |m.used| && j != i && j + 1 != i
      ensures m.Separated(j)
    {
      assert h.Separated(j);
    }
    PlugFacts(m, end, i);
  }

  // It removes exactly that block from the blocks in use.
  lemma FreeLive(h: Heap, end: nat, i: nat)
    requires h.Tiled(end) && i < |h.used|
    ensures
      var f := FreeAt(h, i);
      |f.at| == |f.used| + 1 && f.Live() == h.Live() - {(h.at[i], h.at[i + 1])}
  {
    MarkLive(h, end, i, false);
    PlugLive(Mark(h, i, false), i);
  }

  lemma ShrinkCut(h: Heap, end: nat, i: nat, n: nat, min: nat)
    requires h.Valid(end) && i < |h.used| && h.used[i] && n > 0
    requires n + h.hdr + min < h.Payload(i)
    ensures
      var c := Cut(h, i, h.at[i] + h.hdr + n);
      && c.Tiled(end) && c.CoalescedBut(i + 1)
      && i + 1 < |c.used| && !c.used[i + 1] && c.at[i + 1] == h.at[i] + h.hdr + n
  {
    var p := h.at[i] + h.hdr + n;
    CutPoint(h, end, i, n);
    CutTiled(h, end, i, p);
    CutCoalesced(h, i, p);
    CutAccess(h, i, p);
  }

  // Shrinking block i leaves a well-formed remainder and gives back the bytes cut off.
  lemma ShrinkFacts(h: Heap, end: nat, i: nat, n: nat, min: nat)
    requires h.Valid(end) && i < |h.used| && h.used[i] && n > 0
    requires n + h.hdr + min < h.Payload(i)
    ensures
      var s := ShrinkAt(h, i, n);
      s.Valid(end) && UsedBytes(s) == UsedBytes(h) - (h.Payload(i) - n)
  {
    var c := Cut(h, i, h.at[i] + h.hdr + n);
    assert ShrinkAt(h, i, n) == Plug(c, i + 1);
    ShrinkCut(h, end, i, n, min);
    CutUsedBytes(h, i, h.at[i] + h.hdr + n);
    PlugFacts(c, end, i + 1);
  }

  // It shortens exactly that block.
  lemma ShrinkLive(h: Heap, end: nat, i: nat, n: nat, min: nat)
    requires h.Tiled(end) && i < |h.used|
    ensures
      var s := ShrinkAt(h, i, n);
      && |s.at| == |s.used| + 1
      && s.Live() == h.Live() - {(h.at[i], h.at[i + 1])} + {(h.at[i], h.at[i] + h.hdr + n)}
  {
    Distinct(h, end, i);
    CutLive(h, i, h.at[i] + h.hdr + n);
    CutAccess(h, i, h.at[i] + h.hdr + n);
    PlugLive(Cut(h, i, h.at[i] + h.hdr + n), i + 1);
  }

  // ---- the layout is a function of the live blocks ----

  // Two coalesced layouts of the same memory with the same live blocks are the same layout,
  // whatever sequence of operations led to each.
  lemma LiveDeterminesLayout(g: Heap, h: Heap, end: nat)
    requires g.Valid(end) && h.Valid(end) && g.hdr == h.hdr && g.Live() == h.Live()
    ensures g == h
  {
    var n := if |g.used| <= |h.used| then |g.used| else |h.used|;
    AgreeUpTo(g, h, end, n);
    assert g.at[n] == g.at[..n + 1][n] == h.at[..n + 1][n] == h.at[n];
    Ordered(g, end, n, |g.used|);
    Ordered(h, end, n, |h.used|);
    assert g.at == g.at[..n + 1] && h.at == h.at[..n + 1];
    assert g.used == g.used[..n] && h.used == h.used[..n];
  }

  lemma {:induction false} AgreeUpTo(g: Heap, h: Heap, end: nat, n: nat)
    requires g.Valid(end) && h.Valid(end) && g.hdr == h.hdr && g.Live() == h.Live()
    requires n <= |g.used| && n <= |h.used|
    ensures g.at[..n + 1] == h.at[..n + 1] && g.used[..n] == h.used[..n]
  {
    if n > 0 {
      var k := n - 1;
      AgreeUpTo(g, h, end, k);
      assert g.at[k] == g.at[..k + 1][k] == h.at[..k + 1][k] == h.at[k];
      SameBlock(g, h, end, k);
      SameBlock(h, g, end, k);
      assert g.at[..n + 1] == g.at[..k + 1] + [g.at[n]] && h.at[..n + 1] == h.at[..k + 1] + [h.at[n]];
      assert g.used[..n] == g.used[..k] + [g.used[k]] && h.used[..n] == h.used[..k] + [h.used[k]];
    }
  }

  lemma SameBlock(g: Heap, h: Heap, end: nat, k: nat)
    requires g.Valid(end) && h.Valid(end) && g.hdr == h.hdr && g.Live() == h.Live()
    requires k < |g.used| && k < |h.used| && g.at[k] == h.at[k]
    ensures g.used[k] ==> h.used[k] && g.at[k + 1] == h.at[k + 1]
    ensures !g.used[k] && !h.used[k] ==> g.at[k + 1] >= h.at[k + 1]
  {
    if g.used[k] {
      assert (g.at[k], g.at[k + 1]) in h.Live();
      var j :| 0 <= j < |h.used| && h.used[j] && h.at[j] == g.at[k] && h.at[j + 1] == g.at[k + 1];
      Ordered(h, end, j, k);
    } else if !h.used[k] && g.at[k + 1] < h.at[k + 1] {
      Ordered(h, end, k + 1, |h.used|);
      assert k + 1 < |g.used|;
      assert g.Separated(k);
      assert (g.at[k + 1], g.at[k + 2]) in h.Live();
      var j :| 0 <= j < |h.used| && h.used[j] && h.at[j] == g.at[k + 1];
      Ordered(h, end, j, k);
      Ordered(h, end, k + 1, j);
      Ordered(g, end, k, k + 1);
      assert false;
    }
  }

  // Releasing what was just allocated restores the very layout from before.
  lemma FreeUndoesTake(h: Heap, end: nat, i: nat, n: nat, min: nat)
    requires h.Valid(end) && i < |h.used| && h.Fits(i, n) && n > 0 && min > 0
    ensures FreeAt(TakeAt(h, i, n, min), i) == h
  {
    var t := TakeAt(h, i, n, min);
    TakeFacts(h, end, i, n, min);
    TakeLive(h, end, i, n, min);
    FreeFacts(t, end, i);
    FreeLive(t, end, i);
    LiveDeterminesLayout(FreeAt(t, i), h, end);
  }

  // ---- blocks by address ----

  ghost predicate IsBlock(h: Heap, i: nat, mem: nat)
    requires |h.at| == |h.used| + 1
  {
    i < |h.used| && h.used[i] && h.at[i] == mem
  }

  ghost predicate InUse(h: Heap, mem: nat)
    requires |h.at| == |h.used| + 1
  {
    exists i: nat :: IsBlock(h, i, mem)
  }

  // Index of the block in use whose header is at offset mem.
  ghost function BlockAt(h: Heap, mem: nat): (i: nat)
    requires |h.at| == |h.used| + 1
    ensures InUse(h, mem) ==> IsBlock(h, i, mem)
  {
    if InUse(h, mem) then var i: nat :| IsBlock(h, i, mem); i else 0
  }

  // FreeAt, for the block in use with its header at offset mem.
  ghost function FreeBlock(h: Heap, mem: nat): Heap
    requires |h.at| == |h.used| + 1
  {
    if InUse(h, mem) then FreeAt(h, BlockAt(h, mem)) else h
  }

  // The block allocated at k lies apart from the block in use at i, which stays in use.
  lemma MoveApart(h: Heap, end: nat, i: nat, k: nat, n: nat, min: nat)
    requires h.Valid(end) && i < |h.used| && h.used[i] && k < |h.used| && h.Fits(k, n)
    ensures
      var t := TakeAt(h, k, n, min);
      && |t.at| == |t.used| + 1
      && InUse(t, h.at[i])
      && h.at[k] + h.hdr + n <= h.at[k + 1]
  {
    var t := TakeAt(h, k, n, min);
    CutAccess(h, k, h.at[k] + h.hdr + n);
    assert IsBlock(t, if i < k || |t.used| == |h.used| then i else i + 1, h.at[i]);
  }

  // ---- free space ----

  // The payload bytes of those of the first k blocks that are free.
  ghost function FreeUpTo(h: Heap, k: nat): int
    requires |h.at| == |h.used| + 1 && k <= |h.used|
  {
    if k == 0 then 0
    else FreeUpTo(h, k - 1) + if h.used[k - 1] then 0 else h.at[k] as int - h.at[k - 1] - h.hdr
  }

  ghost function FreeBytes(h: Heap): int
    requires |h.at| == |h.used| + 1
  {
    FreeUpTo(h, |h.used|)
  }

  lemma {:induction false} SameFreeRun(g: Heap, a: nat, h: Heap, b: nat, n: nat)
    requires |g.at| == |g.used| + 1 && |h.at| == |h.used| + 1 && g.hdr == h.hdr
    requires a + n <= |g.used| && b + n <= |h.used|
    requires forall k: nat :: a <= k < a + n ==> SameSpan(g, a, h, b, k)
    ensures FreeUpTo(g, a + n) - FreeUpTo(g, a) == FreeUpTo(h, b + n) - FreeUpTo(h, b)
  {
    if n > 0 {
      SameFreeRun(g, a, h, b, n - 1);
      assert SameSpan(g, a, h, b, a + n - 1);
    }
  }

  lemma CutFreeBytes(h: Heap, i: nat, p: nat)
    requires |h.at| == |h.used| + 1 && i < |h.used|
    ensures FreeBytes(Cut(h, i, p))
         == FreeBytes(h) - (if h.used[i] then 0 else h.Payload(i)) + (h.at[i + 1] - p - h.hdr)
  {
    var c := Cut(h, i, p);
    CutAccess(h, i, p);
    SameFreeRun(h, 0, c, 0, i);
    SameFreeRun(h, i + 1, c, i + 2, |h.used| - i - 1);
    assert FreeUpTo(c, i + 2) == FreeUpTo(c, i + 1) + (h.at[i + 1] - p - h.hdr);
  }

  // Joining two free blocks turns the header between them into payload.
  lemma JoinFreeBytes(h: Heap, i: nat)
    requires |h.at| == |h.used| + 1 && i + 1 < |h.used| && !h.used[i] && !h.used[i + 1]
    ensures FreeBytes(Join(h, i)) == FreeBytes(h) + h.hdr
  {
    var c := Join(h, i);
    JoinAccess(h, i);
    SameFreeRun(h, 0, c, 0, i);
    SameFreeRun(h, i + 2, c, i + 1, |h.used| - i - 2);
    assert FreeUpTo(h, i + 2) == FreeUpTo(h, i + 1) + h.Payload(i + 1);
  }

  lemma MarkFreeBytes(h: Heap, i: nat, flag: bool)
    requires |h.at| == |h.used| + 1 && i < |h.used| && h.used[i] != flag
    ensures FreeBytes(Mark(h, i, flag)) == FreeBytes(h) + if flag then -h.Payload(i) else h.Payload(i)
  {
    var m := Mark(h, i, flag);
    SameFreeRun(h, 0, m, 0, i);
    SameFreeRun(h, i + 1, m, i + 1, |h.used| - i - 1);
  }

  // The addresses of the free blocks.
  ghost function FreeAddrs(h: Heap): set<int>
    requires |h.at| == |h.used| + 1
  {
    set i | 0 <= i < |h.used| && !h.used[i] :: h.at[i] as int
  }

  lemma CutFreeAddrs(h: Heap, end: nat, i: nat, p: nat)
    requires h.Tiled(end) && i < |h.used|
    ensures FreeAddrs(Cut(h, i, p)) == FreeAddrs(h) - {h.at[i]} + {p}
  {
    var c := Cut(h, i, p);
    CutAccess(h, i, p);
    Distinct(h, end, i);
    assert !c.used[i + 1] && c.at[i + 1] == p;
    forall a | a in FreeAddrs(h) && a != h.at[i]
      ensures a in FreeAddrs(c)
    {
      var k :| 0 <= k < |h.used| && !h.used[k] && a == h.at[k];
      assert !c.used[if k < i then k else k + 1];
    }
    forall a | a in FreeAddrs(c) && a != p
      ensures a in FreeAddrs(h) && a != h.at[i]
    {
      var k :| 0 <= k < |c.used| && !c.used[k] && a == c.at[k];
      assert !h.used[if k < i then k else k - 1];
    }
  }

  lemma JoinFreeAddrs(h: Heap, end: nat, i: nat)
    requires h.Tiled(end) && i + 1 < |h.used| && !h.used[i] && !h.used[i + 1]
    ensures FreeAddrs(Join(h, i)) == FreeAddrs(h) - {h.at[i + 1]}
  {
    var c := Join(h, i);
    JoinAccess(h, i);
    Distinct(h, end, i + 1);
    forall a | a in FreeAddrs(h) && a != h.at[i + 1]
      ensures a in FreeAddrs(c)
    {
      var k :| 0 <= k < |h.used| && !h.used[k] && a == h.at[k];
      assert !c.used[if k <= i then k else k - 1];
    }
    forall a | a in FreeAddrs(c)
      ensures a in FreeAddrs(h) && a != h.at[i + 1]
    {
      var k :| 0 <= k < |c.used| && !c.used[k] && a == c.at[k];
      assert !h.used[if k <= i then k else k + 1];
    }
  }

  lemma MarkFreeAddrs(h: Heap, end: nat, i: nat, flag: bool)
    requires h.Tiled(end) && i < |h.used|
    ensures FreeAddrs(Mark(h, i, flag)) == if flag then FreeAddrs(h) - {h.at[i]} else FreeAddrs(h) + {h.at[i]}
  {
    var m := Mark(h, i, flag);
    Distinct(h, end, i);
    assert !flag ==> !m.used[i];
    forall a | a in FreeAddrs(h) && a != h.at[i]
      ensures a in FreeAddrs(m)
    {
      var k :| 0 <= k < |h.used| && !h.used[k] && a == h.at[k];
      assert !m.used[k];
    }
  }
}
