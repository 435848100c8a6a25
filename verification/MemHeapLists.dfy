// The two lists that run through the items of a memheap (rt-thread/src/memheap.c): the ring of all
// blocks in address order, and the circular list of the free ones behind the free-list header.
module MemHeapLists {
  import opened BlockLayout

  const HEAD: int := -1      // &heap->free_header, which lies outside the pool
  const NULL: int := -2

  // struct rt_memheap_item; `used` is the low bit of its magic number. Pointers are offsets from
  // the start of the pool.
  datatype Item = Item(used: bool, next: int, prev: int, nextFree: int, prevFree: int)

  type Items = map<int, Item>

  // ---- the ring ----

  // Item k of layout h is linked between its neighbours; the tail item closes the ring.
  ghost predicate RingOk(items: Items, h: Heap, k: nat)
    requires |h.at| == |h.used| + 1 && k <= |h.used|
  {
    && h.at[k] in items
    && items[h.at[k]].next == (if k == |h.used| then h.at[0] else h.at[k + 1])
    && items[h.at[k]].prev == (if k == 0 then h.at[|h.used|] else h.at[k - 1])
  }

  // Item k is marked used as layout h says; the tail item always is.
  ghost predicate FlagOk(items: Items, h: Heap, k: nat)
    requires |h.at| == |h.used| + 1 && k <= |h.used|
  {
    h.at[k] in items && items[h.at[k]].used == (k == |h.used| || h.used[k])
  }

  ghost predicate Ring(items: Items, h: Heap) {
    && |h.at| == |h.used| + 1 && |h.used| >= 1
    && forall k: nat :: k <= |h.used| ==> RingOk(items, h, k)
  }

  ghost predicate Flags(items: Items, h: Heap) {
    && |h.at| == |h.used| + 1
    && forall k: nat :: k <= |h.used| ==> FlagOk(items, h, k)
  }

  // The ring fields and marks of the items in `from` are unchanged.
  ghost predicate SameRing(from: Items, to: Items) {
    forall q :: q in from ==>
      q in to && to[q].next == from[q].next && to[q].prev == from[q].prev && to[q].used == from[q].used
  }

  lemma RingFrame(from: Items, to: Items, h: Heap)
    requires Ring(from, h) && SameRing(from, to)
    ensures Ring(to, h)
  {
    forall k: nat | k <= |h.used|
      ensures RingOk(to, h, k)
    {
      assert RingOk(from, h, k);
    }
  }

  lemma FlagsFrame(from: Items, to: Items, h: Heap)
    requires Flags(from, h) && SameRing(from, to)
    ensures Flags(to, h)
  {
    forall k: nat | k <= |h.used|
      ensures FlagOk(to, h, k)
    {
      assert FlagOk(from, h, k);
    }
  }

  // Taking item b out from between a and c leaves the ring of the joined layout.
  ghost function Bypass(items: Items, a: int, b: int, c: int): Items
    requires a in items && c in items
  {
    var toNext := items[a := items[a].(next := c)];
    toNext[c := toNext[c].(prev := a)] - {b}
  }

  lemma BypassRing(items: Items, h: Heap, end: nat, i: nat)
    requires h.Tiled(end) && Ring(items, h) && i + 1 < |h.used|
    ensures h.at[i] in items && h.at[i + 1] in items && h.at[i + 2] in items
    ensures items[h.at[i]].next == h.at[i + 1] && items[h.at[i + 1]].next == h.at[i + 2]
            && items[h.at[i + 1]].prev == h.at[i]
    ensures Ring(Bypass(items, h.at[i], h.at[i + 1], h.at[i + 2]), Join(h, i))
  {
    assert RingOk(items, h, i) && RingOk(items, h, i + 1) && RingOk(items, h, i + 2);
    var items' := Bypass(items, h.at[i], h.at[i + 1], h.at[i + 2]);
    var n := |h.used|;
    JoinAccess(h, i);
    forall k: nat | k <= n - 1
      ensures RingOk(items', Join(h, i), k)
    {
      var m := if k <= i then k else k + 1;
      assert RingOk(items, h, m);
      Ordered(h, end, m, i);
      Ordered(h, end, m, i + 1);
      Ordered(h, end, m, i + 2);
    }
  }

  // Building item p behind item a cuts the block at p.
  lemma InsertRing(items: Items, items': Items, h: Heap, end: nat, i: nat, p: nat)
    requires h.Tiled(end) && Ring(items, h) && i < |h.used|
    requires h.at[i] + h.hdr < p && p + h.hdr < h.at[i + 1]
    requires h.at[i] in items && h.at[i + 1] in items
    requires p in items' && items'[p].next == h.at[i + 1] && items'[p].prev == h.at[i]
    requires h.at[i] in items' && items'[h.at[i]].next == p && items'[h.at[i]].prev == items[h.at[i]].prev
    requires h.at[i + 1] in items' && items'[h.at[i + 1]].prev == p
             && items'[h.at[i + 1]].next == items[h.at[i + 1]].next
    requires forall q :: q in items && (q + h.hdr <= p || p + h.hdr <= q) && q != h.at[i] && q != h.at[i + 1]
               ==> q in items' && items'[q].next == items[q].next && items'[q].prev == items[q].prev
    ensures Ring(items', Cut(h, i, p))
  {
    CutAccess(h, i, p);
    forall k: nat | k <= |h.used| + 1
      ensures RingOk(items', Cut(h, i, p), k)
    {
      if k != i + 1 {
        var m := if k <= i then k else k - 1;
        assert RingOk(items, h, m);
        Ordered(h, end, m, i);
        Ordered(h, end, m, i + 1);
        Ordered(h, end, i + 1, m);
      }
    }
  }

  // ---- the free list: HEAD followed by the free blocks, most recently freed first ----

  ghost predicate FreeOk(items: Items, f: seq<int>, k: nat)
    requires k < |f|
  {
    && f[k] in items
    && items[f[k]].nextFree == (if k + 1 == |f| then f[0] else f[k + 1])
    && items[f[k]].prevFree == (if k == 0 then f[|f| - 1] else f[k - 1])
  }

  ghost predicate NoDup(f: seq<int>) {
    forall j, k :: 0 <= j < k < |f| ==> f[j] != f[k]
  }

  ghost predicate FreeLinked(items: Items, f: seq<int>) {
    && |f| >= 1 && f[0] == HEAD && NoDup(f)
    && forall k: nat :: k < |f| ==> FreeOk(items, f, k)
  }

  function RemoveAt(f: seq<int>, k: nat): seq<int>
    requires k < |f|
  {
    f[..k] + f[k + 1..]
  }

  // The addresses listed behind the header.
  ghost function Listed(f: seq<int>): set<int> {
    set k | 1 <= k < |f| :: f[k]
  }

  ghost predicate SameFreeAt(from: Items, to: Items, q: int) {
    q in from ==> q in to && to[q].nextFree == from[q].nextFree && to[q].prevFree == from[q].prevFree
  }

  lemma FreeFrame(from: Items, to: Items, f: seq<int>)
    requires FreeLinked(from, f)
    requires forall k :: 0 <= k < |f| ==> SameFreeAt(from, to, f[k])
    ensures FreeLinked(to, f)
  {
    forall k: nat | k < |f|
      ensures FreeOk(to, f, k)
    {
      assert FreeOk(from, f, k);
    }
  }

  ghost function Unlink(items: Items, a: int): Items
    requires a in items && items[a].nextFree in items && items[a].prevFree in items
  {
    var nx, pv := items[a].nextFree, items[a].prevFree;
    var one := items[nx := items[nx].(prevFree := pv)];
    one[pv := one[pv].(nextFree := nx)]
  }

  lemma UnlinkFacts(items: Items, f: seq<int>, k: nat)
    requires FreeLinked(items, f) && 1 <= k < |f|
    ensures f[k] in items && items[f[k]].nextFree in items && items[f[k]].prevFree in items
    ensures FreeLinked(Unlink(items, f[k]), RemoveAt(f, k))
    ensures Listed(RemoveAt(f, k)) == Listed(f) - {f[k]}
  {
    var n := |f|;
    assert FreeOk(items, f, k) && FreeOk(items, f, k - 1) && FreeOk(items, f, if k + 1 == n then 0 else k + 1);
    var items', g := Unlink(items, f[k]), RemoveAt(f, k);
    assert forall j :: 0 <= j < n - 1 ==> g[j] == f[if j < k then j else j + 1];
    forall j: nat | j < n - 1
      ensures FreeOk(items', g, j)
    {
      assert FreeOk(items, f, if j < k then j else j + 1);
    }
    forall a | a in Listed(f) && a != f[k]
      ensures a in Listed(g)
    {
      var j :| 1 <= j < n && f[j] == a;
      assert g[if j < k then j else j - 1] == a;
    }
  }

  ghost function Push(items: Items, a: int): Items
    requires a in items && HEAD in items && a != HEAD
    requires items[HEAD].nextFree in items
  {
    var nx := items[HEAD].nextFree;
    var one := items[a := items[a].(nextFree := nx, prevFree := HEAD)];
    var two := one[nx := one[nx].(prevFree := a)];
    two[HEAD := two[HEAD].(nextFree := a)]
  }

  lemma PushFacts(items: Items, f: seq<int>, a: int)
    requires FreeLinked(items, f) && a in items && a !in f
    ensures HEAD in items && items[HEAD].nextFree in items
    ensures FreeLinked(Push(items, a), [HEAD, a] + f[1..])
    ensures Listed([HEAD, a] + f[1..]) == Listed(f) + {a}
  {
    var n := |f|;
    assert FreeOk(items, f, 0) && FreeOk(items, f, if n == 1 then 0 else 1);
    var items', g := Push(items, a), [HEAD, a] + f[1..];
    assert forall j :: 0 <= j < n + 1 ==> g[j] == if j == 0 then HEAD else if j == 1 then a else f[j - 1];
    forall j: nat | j < n + 1
      ensures FreeOk(items', g, j)
    {
      if j != 1 {
        assert FreeOk(items, f, if j == 0 then 0 else j - 1);
      }
    }
    forall b | b in Listed(f)
      ensures b in Listed(g)
    {
      var j :| 1 <= j < n && f[j] == b;
      assert g[j + 1] == b;
    }
    assert g[1] == a;
    forall b | b in Listed(g) && b != a
      ensures b in Listed(f)
    {
      var j :| 1 <= j < n + 1 && g[j] == b;
      assert f[j - 1] == b;
    }
  }
}
