// The memheap of rt-thread/src/memheap.c: a ring of blocks in address order and a free list over
// the same items, with splitting, merging and in-place growth.
module MemHeap {
  import opened Options
  import opened Alignment
  import opened BlockLayout
  import opened Integers
  import opened Payloads
  import opened MemCopy
  import opened MemHeapLists
  import opened MemHeapLayout
  import opened MemHeapRuns

  class MemHeap {
    const poolSize: nat
    const ram: array<Byte>
    var items: Items
    var available: int           // available_size
    var maxUsed: int             // max_used_size
    ghost var h: Heap
    ghost var f: seq<int>        // the free list, behind HEAD

    // Ring and free list agree with a coalesced layout.
    ghost predicate ListsOk()
      reads this
    {
      && 2 * ITEM < poolSize < 0x1_0000_0000 && ram.Length == poolSize
      && h.hdr == ITEM && h.Valid(poolSize - ITEM)
      && Ring(items, h) && Flags(items, h)
      && FreeLinked(items, f) && Agree(h, f)
    }

    ghost predicate Valid()
      reads this
    {
      && ListsOk()
      && available == FreeBytes(h)
      && maxUsed >= poolSize - available
    }

    ghost function State(): Pool
      reads this
    {
      Pool(h, f)
    }

    // rt_memheap_init on an already aligned size, which has to fit the 32 bits of pool_size.
    constructor (size: nat)
      requires Aligned(size) && 2 * ITEM < size < 0x1_0000_0000
      ensures Valid() && fresh(ram) && poolSize == size
      ensures State() == Initial(size)
      ensures available == size - 2 * ITEM && maxUsed == 2 * ITEM
    {
      poolSize := size;
      ram := new Byte[size];
      available := size - 2 * ITEM;
      maxUsed := size - (size - 2 * ITEM);
      var tail := size - ITEM;
      items := map[HEAD := Item(false, NULL, NULL, 0, 0),
                   0 := Item(false, tail, tail, HEAD, HEAD),
                   tail := Item(true, 0, 0, NULL, NULL)];
      h := Init(size);
      f := [HEAD, 0];
      new;
      assert h.Gap(0, 1);
      assert FreeUpTo(h, 1) == FreeUpTo(h, 0) + (tail - ITEM);
      assert !h.used[0] && f[1] == 0;
      assert Listed(f) == {0} == FreeAddrs(h);
    }

    // Builds an item at p: its bytes are overwritten, and so is any item they belonged to.
    method NewItem(p: nat, item: Item)
      requires p + ITEM <= ram.Length
      modifies this`items, ram
      ensures p in items && items[p] == item
      ensures forall q :: q in old(items) && (q + ITEM <= p || p + ITEM <= q) ==>
          q in items && items[q] == old(items)[q]
      ensures forall x :: 0 <= x < ram.Length && !(p <= x < p + ITEM) ==> ram[x] == old(ram[x])
    {
      items := (map q | q in items && (q + ITEM <= p || p + ITEM <= q) :: items[q])[p := item];
      var k := 0;
      while k < ITEM
        modifies ram
        invariant k <= ITEM
        invariant forall x :: 0 <= x < ram.Length && !(p <= x < p + ITEM) ==> ram[x] == old(ram[x])
      {
        ram[p + k] := *;
        k := k + 1;
      }
    }

    // Takes item a out of the free list.
    method UnlinkFree(a: int)
      requires FreeLinked(items, f) && a in Listed(f)
      modifies this`items, this`f
      ensures FreeLinked(items, f) && f == Without(old(f), a) && Listed(f) == Listed(old(f)) - {a}
      ensures SameRing(old(items), items)
    {
      ghost var k := Position(f, a);
      UnlinkFacts(items, f, k);
      var nx, pv := items[a].nextFree, items[a].prevFree;
      items := items[nx := items[nx].(prevFree := pv)];
      items := items[pv := items[pv].(nextFree := nx)];
      f := RemoveAt(f, k);
    }

    // Puts item a at the front of the free list.
    method PushFree(a: int)
      requires FreeLinked(items, f) && a in items && a != HEAD && a !in Listed(f)
      modifies this`items, this`f
      ensures FreeLinked(items, f) && f == Front(old(f), a) && Listed(f) == Listed(old(f)) + {a}
      ensures SameRing(old(items), items)
    {
      assert a !in f;
      PushFacts(items, f, a);
      var nx := items[HEAD].nextFree;
      items := items[a := items[a].(nextFree := nx, prevFree := HEAD)];
      items := items[nx := items[nx].(prevFree := a)];
      items := items[HEAD := items[HEAD].(nextFree := a)];
      f := Front(f, a);
    }

    // Builds a free item at p inside block a and links it into the ring behind a.
    method SplitItem(a: nat, p: nat, ghost i: nat)
      requires 2 * ITEM < poolSize && ram.Length == poolSize
      requires h.hdr == ITEM && h.Tiled(poolSize - ITEM) && Ring(items, h) && FreeLinked(items, f)
      requires i < |h.used| && a == h.at[i] && a + ITEM < p && p + ITEM < h.at[i + 1]
      requires forall x :: x in Listed(f) ==> InRing(h, x)
      modifies this`items, ram
      ensures Ring(items, Cut(h, i, p)) && FreeLinked(items, f)
      ensures p in items && !items[p].used
      ensures forall k: nat :: k <= |h.used| ==> SameFlag(old(items), items, h, k)
      ensures PayloadsKept(h, i, old(ram[..]), ram[..])
      ensures forall x :: 0 <= x < ram.Length && !(p <= x < p + ITEM) ==> ram[x] == old(ram[x])
    {
      ghost var end, before, bytes := poolSize - ITEM, items, ram[..];
      assert RingOk(items, h, i) && RingOk(items, h, i + 1);
      Ordered(h, end, i + 1, |h.used|);
      NewItem(p, Item(false, items[a].next, a, NULL, NULL));
      var c := items[a].next;
      Ordered(h, end, i, i + 1);
      items := items[c := items[c].(prev := p)];
      items := items[a := items[a].(next := p)];
      InsertRing(before, items, h, end, i, p);
      ItemsKept(before, items, h, end, i, p, f);
      HeaderWriteKeepsPayloads(h, end, i, p, bytes, ram[..]);
    }

    // Clears the free-list pointers of an item that is no longer listed.
    method ClearLinks(a: int)
      requires FreeLinked(items, f) && a in items && a !in f
      modifies this`items
      ensures FreeLinked(items, f) && SameRing(old(items), items)
    {
      ghost var before := items;
      items := items[a := items[a].(nextFree := NULL, prevFree := NULL)];
      forall k | 0 <= k < |f|
        ensures SameFreeAt(before, items, f[k]) && f[k] in before
      {
        assert FreeOk(before, f, k);
      }
      FreeFrame(before, items, f);
    }

    // Sets the used bit of item a.
    method SetUsed(a: int, flag: bool)
      requires FreeLinked(items, f) && a in items
      modifies this`items
      ensures items == old(items)[a := old(items)[a].(used := flag)] && FreeLinked(items, f)
    {
      ghost var before := items;
      items := items[a := items[a].(used := flag)];
      forall k | 0 <= k < |f|
        ensures SameFreeAt(before, items, f[k]) && f[k] in before
      {
        assert FreeOk(before, f, k);
      }
      FreeFrame(before, items, f);
    }

    // Splits the free block a, listed, after n payload bytes; the remainder takes its place in
    // the free list, at the front.
    method SplitFree(a: nat, n: nat, ghost i: nat)
      requires ListsOk() && IsFree(h, i, a) && h.Payload(i) >= n + ITEM + MINIALLOC && n > 0
      modifies this`items, this`f, ram
      ensures Ring(items, Cut(h, i, a + n + ITEM)) && Flags(items, Cut(h, i, a + n + ITEM))
      ensures FreeLinked(items, f) && a as int in Listed(old(f))
      ensures f == Front(Without(old(f), a), a + n + ITEM)
      ensures Listed(f) == Listed(old(f)) - {a as int} + {(a + n + ITEM) as int}
      ensures PayloadsKept(h, -1, old(ram[..]), ram[..])
    {
      var p := a + n + ITEM;
      ghost var before := items;
      ListedInRing(h, f);
      FreshAddress(h, poolSize - ITEM, i, p, f);
      SplitItem(a, p, i);
      ghost var cut := Cut(h, i, p);
      assert RingOk(items, cut, i) by { CutAccess(h, i, p); }
      CutAccess(h, i, p);
      ghost var s1 := items;
      UnlinkFree(a);
      assert a as int !in f;
      ClearLinks(a);
      PushFree(p);
      ghost var s2 := items;
      SetUsed(a, true);
      CutFlags(before, s1, items, h, poolSize - ITEM, i, p);
      RingFrame(s1, s2, cut);
      RingMarked(s2, items, cut);
    }

    // Takes the free block a whole.
    method WholeFree(a: nat, ghost i: nat)
      requires ListsOk() && IsFree(h, i, a)
      modifies this`items, this`f
      ensures Ring(items, Mark(h, i, true)) && Flags(items, Mark(h, i, true))
      ensures FreeLinked(items, f) && a as int in Listed(old(f))
      ensures f == Without(old(f), a) && Listed(f) == Listed(old(f)) - {a as int}
    {
      ghost var before := items;
      ListedFree(h, f, i);
      assert RingOk(items, h, i);
      UnlinkFree(a);
      ClearLinks(a);
      RingFrame(before, items, h);
      FlagsFrame(before, items, h);
      MarkItem(items, h, poolSize - ITEM, i, true);
      SetUsed(a, true);
    }

    // The lists when the free block a is split, or taken whole.
    method TakeLists(a: nat, n: nat, ghost i: nat)
      requires ListsOk() && IsFree(h, i, a) && h.Fits(i, n) && n > 0
      modifies this`items, this`h, this`f, ram
      ensures ListsOk() && h == TakeAt(old(h), i, n, MINIALLOC)
      ensures a as int in Listed(old(f)) && f == ListAfterTake(old(h), old(f), i, n)
      ensures PayloadsKept(old(h), -1, old(ram[..]), ram[..])
    {
      ghost var end := poolSize - ITEM;
      assert RingOk(items, h, i);
      TakeFacts(h, end, i, n, MINIALLOC);
      TakeAddrs(h, end, i, n);
      ListedFree(h, f, i);
      if items[a].next - a - ITEM >= n + ITEM + MINIALLOC {
        SplitFree(a, n, i);
      } else {
        WholeFree(a, i);
      }
      h := TakeAt(h, i, n, MINIALLOC);
    }

    // So many bytes are no longer available.
    method Charge(bytes: int)
      modifies this`available, this`maxUsed
      ensures available == old(available) - bytes && maxUsed == Max(old(maxUsed), poolSize - available)
    {
      available := available - bytes;
      if poolSize - available > maxUsed {
        maxUsed := poolSize - available;
      }
    }

    // The body of rt_memheap_alloc for the block found on the free list.
    method TakeItem(a: nat, n: nat, ghost i: nat)
      requires Valid() && IsFree(h, i, a) && h.Fits(i, n) && n > 0
      modifies this`items, this`available, this`maxUsed, this`h, this`f, ram
      ensures Valid() && h == TakeAt(old(h), i, n, MINIALLOC)
      ensures a as int in Listed(old(f)) && f == ListAfterTake(old(h), old(f), i, n)
      ensures maxUsed == Max(old(maxUsed), poolSize - available)
      ensures PayloadsKept(old(h), -1, old(ram[..]), ram[..])
    {
      assert RingOk(items, h, i);
      TakeAddrs(h, poolSize - ITEM, i, n);
      var freeSize := items[a].next - a - ITEM;
      Charge(if freeSize >= n + ITEM + MINIALLOC then n + ITEM else freeSize);
      TakeLists(a, n, i);
    }

    // The search loop of rt_memheap_alloc over the free list.
    method FindFit(n: nat) returns (r: Option<nat>)
      requires Valid() && n > 0
      ensures
        var k := FirstFit(h, f, n, 1);
        if k == |f| then r == None else f[k] >= 0 && r == Some(f[k])
    {
      assert FreeOk(items, f, 0);
      var header := items[HEAD].nextFree;
      var freeSize := 0;
      ghost var k := 1;
      while header != HEAD && freeSize < n
        invariant 1 <= k <= |f| && header == (if k == |f| then HEAD else f[k])
        invariant freeSize < n ==> FirstFit(h, f, n, 1) == FirstFit(h, f, n, k)
        invariant freeSize >= n ==> k < |f| && FirstFit(h, f, n, 1) == k
        decreases |f| - k, freeSize < n
      {
        assert FreeOk(items, f, k);
        assert f[k] in Listed(f);
        ghost var i := FreeIndex(h, f[k]);
        assert RingOk(items, h, i);
        freeSize := items[header].next - header - ITEM;
        if freeSize < n {
          header := items[header].nextFree;
          k := k + 1;
        }
      }
      if freeSize >= n {
        assert f[k] in Listed(f);
        return Some(header);
      }
      return None;
    }

    // rt_memheap_alloc
    method Alloc(size: nat) returns (r: Option<nat>)
      requires Valid() && Alignable(size)
      modifies this`items, this`available, this`maxUsed, this`h, this`f, ram
      ensures Valid()
      ensures
        var s, n := old(State()), AllocSize(size);
        && State() == Allocated(s, poolSize, n)
        && if Succeeds(s, n) then
             r == Some(s.h.at[Chosen(s, n)] + ITEM)
           else
             r == None && items == old(items) && available == old(available) && ram[..] == old(ram[..])
      ensures State() == Step(old(State()), poolSize, Op.Alloc(size))
      ensures maxUsed == MarkAfter(old(State()), poolSize, Op.Alloc(size), old(maxUsed))
      ensures PayloadsKept(old(h), -1, old(ram[..]), ram[..])
    {
      var n := AlignUp(size);
      if n < MINIALLOC {
        n := MINIALLOC;
      }
      if n >= available {
        return None;
      }
      ghost var k := FirstFit(h, f, n, 1);
      var fit := FindFit(n);
      if fit == None {
        return None;
      }
      TakeItem(fit.value, n, FreeIndex(h, f[k]));
      return Some(fit.value + ITEM);
    }

    // Forgets the item at b, whose memory now belongs to a payload; nothing may link to it.
    method Forget(b: int)
      requires FreeLinked(items, f) && b !in f
      modifies this`items
      ensures items == old(items) - {b} && FreeLinked(items, f)
    {
      ghost var before := items;
      items := items - {b};
      forall k | 0 <= k < |f|
        ensures SameFreeAt(before, items, f[k]) && f[k] in before
      {
        assert FreeOk(before, f, k);
      }
      FreeFrame(before, items, f);
    }

    // Relinks the ring around the item between a and c.
    method BypassItem(a: int, c: int)
      requires FreeLinked(items, f) && a in items && c in items
      modifies this`items
      ensures
        var one := old(items)[a := old(items)[a].(next := c)];
        items == one[c := one[c].(prev := a)]
      ensures FreeLinked(items, f)
    {
      ghost var before := items;
      items := items[a := items[a].(next := c)];
      items := items[c := items[c].(prev := a)];
      forall k | 0 <= k < |f|
        ensures SameFreeAt(before, items, f[k]) && f[k] in before
      {
        assert FreeOk(before, f, k);
      }
      FreeFrame(before, items, f);
    }

    // rt_memheap_free: merge block a, free but not listed, with a free previous neighbour, which
    // is listed already.
    method MergeLeft(a: nat, ghost i: nat) returns (header: nat, insert: bool)
      requires ITEM < poolSize && h.hdr == ITEM && h.Tiled(poolSize - ITEM) && Ring(items, h) && Flags(items, h)
      requires FreeLinked(items, f) && a as int !in f && available == FreeBytes(h)
      requires i < |h.used| && !h.used[i] && h.at[i] == a
      modifies this`items, this`available, this`h
      ensures h == JoinBackward(old(h), i)
      ensures h.hdr == ITEM && h.Tiled(poolSize - ITEM) && Ring(items, h) && Flags(items, h)
      ensures FreeLinked(items, f) && available == FreeBytes(h)
      ensures insert <==> i == 0 || old(h).used[i - 1]
      ensures header == if insert then a else old(h).at[i - 1]
      ensures FreeAddrs(h) == if insert then FreeAddrs(old(h)) else FreeAddrs(old(h)) - {a as int}
    {
      ghost var end := poolSize - ITEM;
      assert RingOk(items, h, i) && FlagOk(items, h, if i == 0 then |h.used| else i - 1);
      header, insert := a, true;
      var prev := items[a].prev;
      if !items[prev].used {
        BypassRing(items, h, end, i - 1);
        JoinFlags(items, h, end, i - 1);
        JoinTiled(h, end, i - 1);
        JoinFreeBytes(h, i - 1);
        JoinFreeAddrs(h, end, i - 1);
        available := available + ITEM;
        BypassItem(prev, items[a].next);
        Forget(a);
        header, insert := prev, false;
        h := Join(h, i - 1);
      }
    }

    // Merges block a with a free next neighbour, which leaves ring and free list.
    method AbsorbNext(a: nat, ghost i: nat)
      requires ITEM < poolSize && h.hdr == ITEM && h.Tiled(poolSize - ITEM) && Ring(items, h) && Flags(items, h)
      requires FreeLinked(items, f) && i + 1 < |h.used| && a == h.at[i]
      requires !h.used[i] && !h.used[i + 1] && h.at[i + 1] as int in Listed(f)
      modifies this`items, this`h, this`f
      ensures h == Join(old(h), i)
      ensures h.hdr == ITEM && h.Tiled(poolSize - ITEM) && Ring(items, h) && Flags(items, h)
      ensures FreeLinked(items, f) && a in items
      ensures
        var b := old(h).at[i + 1] as int;
        && f == Without(old(f), b) && Listed(f) == Listed(old(f)) - {b}
        && FreeAddrs(h) == FreeAddrs(old(h)) - {b}
    {
      ghost var end := poolSize - ITEM;
      assert RingOk(items, h, i);
      BypassRing(items, h, end, i);
      JoinFlags(items, h, end, i);
      JoinTiled(h, end, i);
      JoinFreeAddrs(h, end, i);
      Ordered(h, end, i, i + 1);
      var b := items[a].next;
      ghost var bypassed := Bypass(items, a, b, items[b].next);
      BypassItem(a, items[b].next);
      UnlinkFree(b);
      Forget(b);
      RingFrame(bypassed, items, Join(h, i));
      FlagsFrame(bypassed, items, Join(h, i));
      h := Join(h, i);
      assert RingOk(items, h, i) by { JoinAccess(old(h), i); }
    }

    // rt_memheap_free: merge block a with its next neighbour if that is free.
    method MergeRight(a: nat, ghost i: nat)
      requires ITEM < poolSize && h.hdr == ITEM && h.Tiled(poolSize - ITEM) && Ring(items, h) && Flags(items, h)
      requires FreeLinked(items, f) && available == FreeBytes(h)
      requires i < |h.used| && !h.used[i] && h.at[i] == a
      requires i + 1 < |h.used| && !h.used[i + 1] ==> h.at[i + 1] as int in Listed(f)
      modifies this`items, this`available, this`h, this`f
      ensures h == JoinForward(old(h), i) && Ring(items, h) && Flags(items, h)
      ensures FreeLinked(items, f) && available == FreeBytes(h) && a in items
      ensures
        if i + 1 < |old(h).used| && !old(h).used[i + 1] then
          var b := old(h).at[i + 1] as int;
          && f == Without(old(f), b) && Listed(f) == Listed(old(f)) - {b}
          && FreeAddrs(h) == FreeAddrs(old(h)) - {b}
        else f == old(f)
    {
      assert RingOk(items, h, i) && FlagOk(items, h, i + 1);
      if !items[items[a].next].used {
        JoinFreeBytes(h, i);
        available := available + ITEM;
        AbsorbNext(a, i);
      }
    }

    // rt_memheap_free up to the insertion into the free list: mark block a free and merge it.
    method MarkAndMerge(a: nat, ghost i: nat) returns (header: nat, insert: bool)
      requires Valid() && IsBlock(h, i, a)
      modifies this`items, this`available, this`h, this`f
      ensures h == FreeAt(old(h), i) && Ring(items, h) && Flags(items, h)
      ensures FreeLinked(items, f) && available == FreeBytes(h) && header in items
      ensures insert <==> i == 0 || old(h).used[i - 1]
      ensures insert ==> header == a
      ensures
        var b := old(h).at[i + 1] as int;
        if i + 1 < |old(h).used| && !old(h).used[i + 1] then
          b in Listed(old(f)) && f == Without(old(f), b)
        else f == old(f)
      ensures FreeAddrs(h) == if insert then Listed(f) + {a as int} else Listed(f)
      ensures a as int !in Listed(f)
    {
      ghost var end := poolSize - ITEM;
      ghost var m := Mark(h, i, false);
      MarkTiled(h, end, i, false);
      MarkFreeBytes(h, i, false);
      MarkFreeAddrs(h, end, i, false);
      MarkItem(items, h, end, i, false);
      Distinct(h, end, i);
      assert a as int !in FreeAddrs(h) && a as int !in f;
      assert RingOk(items, h, i);
      if i + 1 < |h.used| && !h.used[i + 1] {
        ListedFree(h, f, i + 1);
      }
      SetUsed(a, false);
      available := available + (items[a].next - a - ITEM);
      h := m;
      header, insert := MergeLeft(a, i);
      ghost var j := if insert then i else i - 1;
      MergedAt(m, i);
      MergeRight(header, j);
      MergeOrder(m, i);
    }

    // Block a in use becomes free, merges, and is listed unless it merged with a listed one before it.
    method FreeItem(a: nat, ghost i: nat)
      requires Valid() && IsBlock(h, i, a)
      modifies this`items, this`available, this`h, this`f
      ensures Valid() && State() == Released(old(State()), poolSize, i)
    {
      FreeFacts(h, poolSize - ITEM, i);
      FreeGains(h, poolSize - ITEM, i);
      var header, insert := MarkAndMerge(a, i);
      if insert {
        ghost var before := items;
        PushFree(header);
        RingFrame(before, items, h);
        FlagsFrame(before, items, h);
      }
    }

    // rt_memheap_free
    method Free(ptr: Option<nat>)
      requires Valid()
      requires ptr.Some? ==> ptr.value >= ITEM && InUse(h, ptr.value - ITEM)
      modifies this`items, this`available, this`h, this`f
      ensures Valid() && maxUsed == old(maxUsed) && ram[..] == old(ram[..])
      ensures ptr == None ==> State() == old(State())
      ensures ptr.Some? ==> State() == Step(old(State()), poolSize, Op.Free(ptr.value - ITEM))
    {
      if ptr == None {
        return;
      }
      FreeItem(ptr.value - ITEM, BlockAt(h, ptr.value - ITEM));
    }

    // The shrinking branch of rt_memheap_realloc.
    method ShrinkItem(a: nat, n: nat, ghost i: nat)
      requires Valid() && IsBlock(h, i, a) && n > 0 && n + ITEM + MINIALLOC < h.Payload(i)
      modifies this`items, this`available, this`h, this`f, ram
      ensures Valid() && State() == Shrunk(old(State()), poolSize, i, n)
      ensures PayloadsKept(old(h), i, old(ram[..]), ram[..])
      ensures forall x :: 0 <= x < a + ITEM + n && x < ram.Length ==> ram[x] == old(ram[x])
    {
      ghost var end, h0 := poolSize - ITEM, h;
      var p := a + n + ITEM;
      ShrinkFacts(h, end, i, n, MINIALLOC);
      ShrinkAddrs(h0, end, i, n);
      CutOff(a, p, i);
      MergeTail(p, h0, i, n);
      assert RingOk(items, h, i + 1);
      ghost var before := items;
      PushFree(p);
      RingFrame(before, items, h);
      FlagsFrame(before, items, h);
      available := available + (items[p].next - p - ITEM);
    }

    // Merges the new block p, cut off block i of layout h0, with a free next neighbour.
    method MergeTail(p: nat, ghost h0: Heap, ghost i: nat, ghost n: nat)
      requires 2 * ITEM < poolSize && h0.hdr == ITEM && h0.Valid(poolSize - ITEM)
      requires i < |h0.used| && h0.used[i] && n > 0 && n + ITEM + MINIALLOC < h0.Payload(i) && p == h0.at[i] + ITEM + n
      requires h == Cut(h0, i, p) && Ring(items, h) && Flags(items, h) && FreeLinked(items, f) && Agree(h0, f)
      requires available == FreeBytes(h0)
      modifies this`items, this`available, this`h, this`f
      ensures h == ShrinkAt(h0, i, n) && Ring(items, h) && Flags(items, h) && FreeLinked(items, f) && p in items
      ensures Listed(f) == FreeAddrs(h) - {p as int} && p as int in FreeAddrs(h)
      ensures i + 1 < |h.used| && h.at[i + 1] == p && available + (h.at[i + 2] - p - ITEM) == FreeBytes(h)
      ensures Front(f, p) == ListAfterShrink(h0, old(f), i, n)
    {
      ShrinkAddrs(h0, poolSize - ITEM, i, n);
      assert RingOk(items, h, i + 1) && RingOk(items, h, i + 2) && FlagOk(items, h, i + 2);
      var next := items[p].next;
      if !items[next].used {
        JoinAccess(h, i + 1);
        ListedFree(h0, f, i + 1);
        available := available - (items[next].next - next - ITEM);
        AbsorbNext(p, i + 1);
      }
    }

    // Takes the free neighbour of the used block a out of both lists and into the block.
    method SwallowNext(a: nat, ghost i: nat)
      requires ListsOk() && IsBlock(h, i, a) && i + 1 < |h.used| && !h.used[i + 1]
      modifies this`items, this`h, this`f
      ensures h == Absorb(old(h), i) && h.hdr == ITEM && h.Tiled(poolSize - ITEM)
      ensures Ring(items, h) && Flags(items, h) && FreeLinked(items, f) && Agree(h, f)
      ensures
        var b := old(h).at[i + 1] as int;
        b in Listed(old(f)) && f == Without(old(f), b)
    {
      ghost var end, h0 := poolSize - ITEM, h;
      AbsorbFacts(h, end, i);
      ListedFree(h, f, i + 1);
      BypassRing(items, h, end, i);
      AbsorbFlags(items, h, end, i);
      Ordered(h, end, i, i + 1);
      var b := items[a].next;
      ghost var bypassed := Bypass(items, a, b, items[b].next);
      ghost var c := items[b].next;
      UnlinkFree(b);
      ghost var unlinked := items;
      BypassItem(a, items[b].next);
      Forget(b);
      h := Absorb(h, i);
      RingAlike(bypassed, items, Join(h0, i), h, h0, i);
      FlagsFrame(bypassed, items, h);
    }

    // The relinking done by in-place growth. The new item may overlap the old one of the free
    // neighbour, which is not read any more.
    method GrowLists(a: nat, p: nat, ghost i: nat)
      requires ListsOk() && IsBlock(h, i, a) && i + 1 < |h.used| && !h.used[i + 1]
      requires h.at[i + 1] < p && p + ITEM < h.at[i + 2]
      modifies this`items, this`h, this`f, ram
      ensures ListsOk() && h == GrowTo(old(h), i, p)
      ensures old(h).at[i + 1] as int in Listed(old(f)) && f == Front(Without(old(f), old(h).at[i + 1]), p)
      ensures PayloadsKept(old(h), -1, old(ram[..]), ram[..])
    {
      ghost var end, h0, bytes := poolSize - ITEM, h, ram[..];
      GrowFacts(h, end, i, p);
      AbsorbFacts(h, end, i);
      AbsorbThenCut(h, i, p);
      Ordered(h, end, i, i + 1);
      SwallowNext(a, i);
      FreshAddress(h, end, i, p, f);
      CutOff(a, p, i);
      GrowKeepsPayloads(h0, end, i, p, bytes, ram[..]);
      ghost var cut := items;
      PushFree(p);
      RingFrame(cut, items, h);
      FlagsFrame(cut, items, h);
    }

    // Cuts the used block a at p; the free remainder is not listed yet.
    method CutOff(a: nat, p: nat, ghost i: nat)
      requires 2 * ITEM < poolSize && ram.Length == poolSize && h.hdr == ITEM && h.Tiled(poolSize - ITEM)
      requires Ring(items, h) && Flags(items, h) && FreeLinked(items, f) && Agree(h, f)
      requires IsBlock(h, i, a) && a + ITEM < p && p + ITEM < h.at[i + 1]
      modifies this`items, this`h, ram
      ensures h == Cut(old(h), i, p) && Ring(items, h) && Flags(items, h) && FreeLinked(items, f) && p in items
      ensures PayloadsKept(old(h), i, old(ram[..]), ram[..])
      ensures forall x :: 0 <= x < ram.Length && !(p <= x < p + ITEM) ==> ram[x] == old(ram[x])
    {
      ghost var before := items;
      ListedInRing(h, f);
      SplitItem(a, p, i);
      assert FlagOk(before, h, i) && SameFlag(before, items, h, i);
      CutFlags(before, items, items, h, poolSize - ITEM, i, p);
      h := Cut(h, i, p);
    }

    // The in-place growth of rt_memheap_realloc.
    method GrowItem(a: nat, n: nat, ghost i: nat)
      requires Valid() && IsBlock(h, i, a) && CanGrow(h, i, n) && n > h.Payload(i)
      modifies this`items, this`available, this`maxUsed, this`h, this`f, ram
      ensures Valid() && State() == Grown(old(State()), poolSize, i, n)
      ensures maxUsed == Max(old(maxUsed), poolSize - available)
      ensures PayloadsKept(old(h), -1, old(ram[..]), ram[..])
    {
      GrowFacts(h, poolSize - ITEM, i, a + ITEM + n);
      assert RingOk(items, h, i);
      available := available - (n - (items[a].next - a - ITEM));
      if poolSize - available > maxUsed {
        maxUsed := poolSize - available;
      }
      GrowLists(a, a + ITEM + n, i);
    }

    // rt_memcpy from block i of layout h0 to block j, which was free there and is no smaller: of the two the
    // smaller is below 2 GiB, and all of it is copied.
    method CopyBlock(dst: nat, src: nat, oldsize: nat, ghost h0: Heap, ghost i: nat,
                         ghost j: nat, ghost start: seq<Byte>)
      requires ITEM < poolSize < WORD32 && ram.Length == poolSize && h0.hdr == ITEM && h0.Tiled(poolSize - ITEM)
      requires src >= ITEM && IsBlock(h0, i, src - ITEM) && oldsize == h0.Payload(i)
      requires j < |h0.used| && !h0.used[j] && dst == h0.at[j] + ITEM && h0.Payload(j) >= oldsize
      requires PayloadsKept(h0, -1, start, ram[..])
      modifies ram
      ensures SameBytes(start, src, ram[..], dst, oldsize) && PayloadsKept(h0, -1, start, ram[..])
    {
      TwoApart(h0, poolSize - ITEM, i, j);
      assert ToInt(oldsize) == oldsize && Carried(oldsize) == oldsize;
      CopyPayload(ram, dst, src, oldsize, h0, poolSize - ITEM, i, j, start);
    }

    // Allocates n bytes elsewhere and copies the payload of block i there.
    method AllocCopy(ptr: nat, n: nat, ghost i: nat) returns (r: Option<nat>)
      requires Valid() && Alignable(n) && ptr >= ITEM && IsBlock(h, i, ptr - ITEM) && n > h.Payload(i)
      modifies this`items, this`available, this`maxUsed, this`h, this`f, ram
      ensures Valid() && State() == Allocated(old(State()), poolSize, AllocSize(n))
      ensures
        var s, m := old(State()), AllocSize(n);
        if Succeeds(s, m) then
          && r == Some(s.h.at[Chosen(s, m)] + ITEM) && maxUsed == Max(old(maxUsed), Taken(State(), poolSize))
          && InUse(h, ptr - ITEM) && SameBytes(old(ram[..]), ptr, ram[..], r.value, s.h.Payload(i))
        else
          r == None && maxUsed == old(maxUsed) && ram[..] == old(ram[..])
      ensures PayloadsKept(old(h), -1, old(ram[..]), ram[..])
    {
      ghost var s, m := State(), AllocSize(n);
      assert RingOk(items, h, i);
      Ordered(h, poolSize - ITEM, i, i + 1);
      var oldsize := items[ptr - ITEM].next - ptr;
      r := Alloc(n);
      if r.Some? {
        ghost var j := Chosen(s, m);
        MoveApart(s.h, poolSize - ITEM, i, j, m, MINIALLOC);
        CopyBlock(r.value, ptr, oldsize, s.h, i, j, old(ram[..]));
      }
    }

    // Block i of state s, already allocated anew with n bytes, is released.
    method ReleaseOld(ptr: nat, ghost s: Pool, ghost i: nat, ghost n: nat)
      requires Valid() && Good(s, poolSize) && ptr >= ITEM && IsBlock(s.h, i, ptr - ITEM) && n > 0
      requires Succeeds(s, n) && State() == Allocated(s, poolSize, n)
      modifies this`items, this`available, this`h, this`f
      ensures Valid() && State() == Moved(s, poolSize, i, n)
    {
      MovedIs(s, poolSize, i, n);
      FreeItem(ptr - ITEM, BlockAt(h, ptr - ITEM));
    }

    // Allocate elsewhere, copy, release. On failure nothing changes.
    method MoveItem(ptr: nat, n: nat, ghost i: nat) returns (r: Option<nat>)
      requires Valid() && Alignable(n) && ptr >= ITEM && IsBlock(h, i, ptr - ITEM) && n > h.Payload(i)
      modifies this`items, this`available, this`maxUsed, this`h, this`f, ram
      ensures Valid()
      ensures
        var s, m := old(State()), AllocSize(n);
        if Succeeds(s, m) then
          && State() == Moved(s, poolSize, i, m)
          && r == Some(s.h.at[Chosen(s, m)] + ITEM)
          && maxUsed == Max(old(maxUsed), Taken(Allocated(s, poolSize, m), poolSize))
          && SameBytes(old(ram[..]), ptr, ram[..], r.value, s.h.Payload(i))
        else
          r == None && State() == s && maxUsed == old(maxUsed) && ram[..] == old(ram[..])
      ensures PayloadsKept(old(h), -1, old(ram[..]), ram[..])
    {
      ghost var s := State();
      r := AllocCopy(ptr, n, i);
      if r.Some? {
        ReleaseOld(ptr, s, i, AllocSize(n));
      }
    }

    // Whether the following free space is enough to expand, as rt_memheap_realloc finds out.
    method SeesRoom(a: nat, n: nat, ghost i: nat) returns (room: bool)
      requires ListsOk() && Alignable(n) && IsBlock(h, i, a) && GrowthSound(h, i, n)
      ensures room <==> CanGrow(h, i, n)
    {
      GrowthExact(h, poolSize - ITEM, i, n);
      assert RingOk(items, h, i) && RingOk(items, h, i + 1) && FlagOk(items, h, i + 1);
      var oldsize := items[a].next - a - ITEM;
      var next := items[a].next;
      if items[next].used {
        return false;
      }
      var nextsize := ToInt(items[next].next - next - ITEM);
      return (ToUnsigned(nextsize) + oldsize) % WORD64 > (n + MINIALLOC) % WORD64;
    }

    // rt_memheap_realloc with a new size larger than the block.
    method Enlarge(ptr: nat, n: nat, ghost i: nat) returns (r: Option<nat>)
      requires Valid() && Alignable(n) && n > 0 && ptr >= ITEM && IsBlock(h, i, ptr - ITEM) && n > h.Payload(i)
      requires GrowthSound(h, i, n)
      modifies this`items, this`available, this`maxUsed, this`h, this`f, ram
      ensures Valid() && State() == Resized(old(State()), poolSize, i, n)
      ensures ResizeResult(old(State()), old(ram[..]), ptr, i, n, r, ram[..])
      ensures maxUsed == ResizingMark(old(State()), poolSize, i, n, old(maxUsed))
    {
      var room := SeesRoom(ptr - ITEM, n, i);
      if room {
        GrowItem(ptr - ITEM, n, i);
        r := Some(ptr);
      } else {
        r := MoveItem(ptr, n, i);
      }
    }

    // rt_memheap_realloc of a block: n is already rounded.
    method Resize(ptr: nat, n: nat, ghost i: nat) returns (r: Option<nat>)
      requires Valid() && Alignable(n) && n > 0 && ptr >= ITEM && IsBlock(h, i, ptr - ITEM)
      requires n > h.Payload(i) ==> GrowthSound(h, i, n)
      modifies this`items, this`available, this`maxUsed, this`h, this`f, ram
      ensures Valid() && State() == Resized(old(State()), poolSize, i, n)
      ensures ResizeResult(old(State()), old(ram[..]), ptr, i, n, r, ram[..])
      ensures maxUsed == ResizingMark(old(State()), poolSize, i, n, old(maxUsed))
    {
      var a := ptr - ITEM;
      assert RingOk(items, h, i);
      var oldsize := items[a].next - a - ITEM;
      if n > oldsize {
        r := Enlarge(ptr, n, i);
        return;
      }
      if n + ITEM + MINIALLOC >= oldsize {
        return Some(ptr);
      }
      Ordered(h, poolSize - ITEM, i + 1, |h.used|);
      ShrinkItem(a, n, i);
      assert ram[..][ptr..ptr + n] == old(ram[..])[ptr..ptr + n];
      return Some(ptr);
    }

    static method RoundUp(size: nat) returns (n: nat)
      requires Alignable(size)
      ensures n == AllocSize(size) && Alignable(n) && n > 0
    {
      AlignableUp(size);
      n := AlignUp(size);
      if n < MINIALLOC {
        n := MINIALLOC;
      }
    }

    // rt_memheap_realloc, where its test for growth in place can be trusted. A null pointer asks for an
    // allocation of the rounded size, which is rounded again: 16 bytes for a request of at most 8.
    method Realloc(ptr: Option<nat>, newsize: nat) returns (r: Option<nat>)
      requires Valid() && Alignable(newsize)
      requires ptr.Some? ==>
        && ptr.value >= ITEM && InUse(h, ptr.value - ITEM)
        && CanDo(State(), Op.Realloc(ptr.value - ITEM, newsize))
      modifies this`items, this`available, this`maxUsed, this`h, this`f, ram
      ensures Valid()
      ensures newsize == 0 ==> r == None && ram[..] == old(ram[..])
      ensures newsize == 0 && ptr == None ==> State() == old(State()) && maxUsed == old(maxUsed)
      ensures newsize > 0 && ptr == None ==>
        var s, n := old(State()), AllocSize(AllocSize(newsize));
        && State() == Step(s, poolSize, Op.Alloc(AllocSize(newsize)))
        && maxUsed == MarkAfter(s, poolSize, Op.Alloc(AllocSize(newsize)), old(maxUsed))
        && PayloadsKept(old(h), -1, old(ram[..]), ram[..])
        && if Succeeds(s, n) then r == Some(s.h.at[Chosen(s, n)] + ITEM) else r == None && ram[..] == old(ram[..])
      ensures ptr.Some? ==>
        && State() == Step(old(State()), poolSize, Op.Realloc(ptr.value - ITEM, newsize))
        && maxUsed == MarkAfter(old(State()), poolSize, Op.Realloc(ptr.value - ITEM, newsize), old(maxUsed))
      ensures newsize > 0 && ptr.Some? ==>
        ResizeResult(old(State()), old(ram[..]), ptr.value, BlockAt(old(h), ptr.value - ITEM),
                     AllocSize(newsize), r, ram[..])
    {
      if newsize == 0 {
        Free(ptr);
        return None;
      }
      var n := RoundUp(newsize);
      if ptr == None {
        r := Alloc(n);
      } else {
        r := Resize(ptr.value, n, BlockAt(h, ptr.value - ITEM));
      }
    }
  }

  // What rt_memheap_realloc of block i to n bytes, rounded already, returns, and what it does to the
  // payloads: the memory goes from b0 to b1.
  ghost predicate ResizeResult(s: Pool, b0: seq<Byte>, ptr: nat, i: nat, n: nat, r: Option<nat>, b1: seq<Byte>)
    requires Agree(s.h, s.f) && ptr >= ITEM && IsBlock(s.h, i, ptr - ITEM)
  {
    if n > s.h.Payload(i) then
      && PayloadsKept(s.h, -1, b0, b1)
      && if CanGrow(s.h, i, n) then
           // grown in place
           r == Some(ptr)
         else if Succeeds(s, AllocSize(n)) then
           // moved
           r == Some(s.h.at[Chosen(s, AllocSize(n))] + ITEM) && SameBytes(b0, ptr, b1, r.value, s.h.Payload(i))
         else
           r == None && b1 == b0
    else if n + ITEM + MINIALLOC >= s.h.Payload(i) then
      r == Some(ptr) && b1 == b0
    else
      // shrunk in place
      r == Some(ptr) && SameBytes(b0, ptr, b1, ptr, n) && PayloadsKept(s.h, i, b0, b1)
  }

  // Two blocks have room in the pool only if the smaller is below 2 GiB.
  lemma TwoApart(h: Heap, end: nat, i: nat, j: nat)
    requires h.Tiled(end) && end < WORD32 && i < |h.used| && j < |h.used| && i != j
    requires h.Payload(i) <= h.Payload(j)
    ensures h.Payload(i) < 0x8000_0000
  {
    Ordered(h, end, i + 1, j);
    Ordered(h, end, j + 1, i);
    Ordered(h, end, i + 1, |h.used|);
    Ordered(h, end, j + 1, |h.used|);
  }

  lemma AbsorbFlags(items: Items, h: Heap, end: nat, i: nat)
    requires h.Tiled(end) && Ring(items, h) && Flags(items, h)
    requires i + 1 < |h.used| && h.used[i] && !h.used[i + 1]
    ensures h.at[i] in items && h.at[i + 2] in items
    ensures Flags(Bypass(items, h.at[i], h.at[i + 1], h.at[i + 2]), Absorb(h, i))
  {
    assert RingOk(items, h, i) && RingOk(items, h, i + 2);
    var m := Mark(h, i, false);
    var items' := Bypass(items, h.at[i], h.at[i + 1], h.at[i + 2]);
    JoinAccess(m, i);
    forall k: nat | k <= |h.used| - 1
      ensures FlagOk(items', Absorb(h, i), k)
    {
      var j := if k <= i then k else k + 1;
      assert FlagOk(items, h, j);
      Ordered(h, end, j, i + 1);
    }
  }

  // The ring does not depend on the used bits, so it is that of the absorbed layout as well.
  lemma RingAlike(from: Items, to: Items, j: Heap, b: Heap, h: Heap, i: nat)
    requires |h.at| == |h.used| + 1 && i + 1 < |h.used|
    requires j == Join(h, i) && b == Absorb(h, i) && Ring(from, j) && SameRing(from, to)
    ensures Ring(to, b)
  {
    JoinAccess(h, i);
    JoinAccess(Mark(h, i, false), i);
    forall k: nat | k <= |b.used|
      ensures RingOk(to, b, k)
    {
      assert RingOk(from, j, k);
    }
  }

  // The grown block's new neighbour is written where only free space was.
  lemma GrowKeepsPayloads(h: Heap, end: nat, i: nat, p: nat, before: seq<Byte>, after: seq<Byte>)
    requires h.hdr == ITEM && h.Tiled(end) && i + 1 < |h.used| && !h.used[i + 1]
    requires h.at[i + 1] <= p && p + ITEM <= h.at[i + 2] && |before| == |after|
    requires forall x :: 0 <= x < |before| && !(p <= x < p + ITEM) ==> before[x] == after[x]
    ensures PayloadsKept(h, -1, before, after)
  {
    HeaderWriteKeepsPayloads(h, end, i + 1, p, before, after);
    forall k: nat | k < |h.used| && h.used[k]
      ensures PayloadSame(h, k, before, after)
    {
    }
  }

  lemma JoinFlags(items: Items, h: Heap, end: nat, i: nat)
    requires h.Tiled(end) && Ring(items, h) && Flags(items, h)
    requires i + 1 < |h.used| && !h.used[i] && !h.used[i + 1]
    ensures h.at[i] in items && h.at[i + 2] in items
    ensures Flags(Bypass(items, h.at[i], h.at[i + 1], h.at[i + 2]), Join(h, i))
  {
    assert RingOk(items, h, i) && RingOk(items, h, i + 2);
    JoinAccess(h, i);
    var items' := Bypass(items, h.at[i], h.at[i + 1], h.at[i + 2]);
    forall k: nat | k <= |h.used| - 1
      ensures FlagOk(items', Join(h, i), k)
    {
      var m := if k <= i then k else k + 1;
      assert FlagOk(items, h, m);
      Ordered(h, end, m, i + 1);
    }
  }

  lemma ListedInRing(h: Heap, f: seq<int>)
    requires Agree(h, f)
    ensures forall x :: x in Listed(f) ==> InRing(h, x)
  {
    forall x | x in Listed(f)
      ensures InRing(h, x)
    {
      assert x in FreeAddrs(h);
      assert IsAt(h, FreeIndex(h, x), x);
    }
  }

  // An address strictly inside a block is not listed.
  lemma FreshAddress(h: Heap, end: nat, i: nat, p: nat, f: seq<int>)
    requires Agree(h, f) && h.Tiled(end) && i < |h.used| && h.at[i] < p < h.at[i + 1]
    ensures p as int !in Listed(f)
  {
    InsideNotFree(h, end, i, p);
  }

  lemma CutFlags(before: Items, s1: Items, after: Items, h: Heap, end: nat, i: nat, p: nat)
    requires h.Tiled(end) && i < |h.used| && Flags(before, h) && h.at[i] < p < h.at[i + 1]
    requires forall k: nat :: k <= |h.used| ==> SameFlag(before, s1, h, k)
    requires h.at[i] in s1 && p in s1 && !s1[p].used
    requires forall q :: q in s1 && q != h.at[i] ==> q in after && after[q].used == s1[q].used
    requires h.at[i] in after && after[h.at[i]].used
    ensures Flags(after, Cut(h, i, p))
  {
    CutAccess(h, i, p);
    forall k: nat | k <= |h.used| + 1
      ensures FlagOk(after, Cut(h, i, p), k)
    {
      if k != i + 1 {
        var m := if k <= i then k else k - 1;
        assert FlagOk(before, h, m) && SameFlag(before, s1, h, m);
        Ordered(h, end, m, i);
      }
    }
  }

  // Changing used bits does not touch the ring.
  lemma RingMarked(from: Items, to: Items, h: Heap)
    requires Ring(from, h)
    requires forall q :: q in from ==> q in to && to[q].next == from[q].next && to[q].prev == from[q].prev
    ensures Ring(to, h)
  {
    forall k: nat | k <= |h.used|
      ensures RingOk(to, h, k)
    {
      assert RingOk(from, h, k);
    }
  }

  lemma MarkItem(items: Items, h: Heap, end: nat, i: nat, flag: bool)
    requires h.Tiled(end) && Ring(items, h) && Flags(items, h) && i < |h.used|
    ensures
      var a := h.at[i];
      && a in items
      && Ring(items[a := items[a].(used := flag)], Mark(h, i, flag))
      && Flags(items[a := items[a].(used := flag)], Mark(h, i, flag))
  {
    assert RingOk(items, h, i);
    var to := items[h.at[i] := items[h.at[i]].(used := flag)];
    var m := Mark(h, i, flag);
    forall k: nat | k <= |h.used|
      ensures RingOk(to, m, k)
      ensures FlagOk(to, m, k)
    {
      assert RingOk(items, h, k) && FlagOk(items, h, k);
      Ordered(h, end, k, i);
    }
  }

  // Address x is the header or belongs to the ring.
  ghost predicate InRing(h: Heap, x: int) {
    exists k: nat :: k < |h.at| && IsAt(h, k, x)
  }

  ghost predicate IsAt(h: Heap, k: nat, x: int)
    requires k < |h.at|
  {
    h.at[k] == x
  }

  ghost predicate SameFlag(from: Items, to: Items, h: Heap, k: nat)
    requires k < |h.at|
  {
    h.at[k] in from ==> h.at[k] in to && to[h.at[k]].used == from[h.at[k]].used
  }

  // Building an item at p inside block i overwrites no item of the ring and no listed one.
  lemma ItemsKept(from: Items, to: Items, h: Heap, end: nat, i: nat, p: nat, f: seq<int>)
    requires h.hdr == ITEM && h.Tiled(end) && i < |h.used| && h.at[i] + ITEM < p && p + ITEM < h.at[i + 1]
    requires FreeLinked(from, f) && forall x :: x in Listed(f) ==> InRing(h, x)
    requires forall q :: q in from && (q + ITEM <= p || p + ITEM <= q)
               ==> q in to && to[q].used == from[q].used
                   && to[q].nextFree == from[q].nextFree && to[q].prevFree == from[q].prevFree
    ensures FreeLinked(to, f)
    ensures forall k: nat :: k <= |h.used| ==> SameFlag(from, to, h, k)
  {
    forall k: nat | k <= |h.used|
      ensures SameFlag(from, to, h, k)
      ensures h.at[k] + ITEM <= p || p + ITEM <= h.at[k]
    {
      Ordered(h, end, k, i);
      Ordered(h, end, i + 1, k);
    }
    forall k | 0 <= k < |f|
      ensures SameFreeAt(from, to, f[k]) && f[k] in from && f[k] in to
    {
      assert FreeOk(from, f, k);
      if k > 0 {
        assert f[k] in Listed(f);
        var m: nat :| m < |h.at| && IsAt(h, m, f[k]);
      }
    }
    FreeFrame(from, to, f);
  }
}
