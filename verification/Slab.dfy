// The slab allocator of rt-thread/src/slab.c in place, one call at a time.
module Slab {
  import opened Options
  import opened OrderedQueue
  import opened SlabPages
  import opened SlabZones
  import S = SlabRuns

  const MIN_ZONE_SIZE: nat := 32768              // ZALLOC_MIN_ZONE_SIZE
  const MAX_ZONE_SIZE: nat := 131072             // ZALLOC_MAX_ZONE_SIZE
  const RELEASE_THRESH: nat := 2                 // ZONE_RELEASE_THRESH

  // The zone size rt_system_heap_init chooses for a heap of limsize bytes, and the limit of requests
  // served from zones.
  method ZoneSize(limsize: nat) returns (size: nat, limit: nat)
    ensures size == MIN_ZONE_SIZE || size == 2 * MIN_ZONE_SIZE || size == MAX_ZONE_SIZE
    ensures size > MIN_ZONE_SIZE ==> size < limsize / 1024
    ensures size < MAX_ZONE_SIZE ==> 2 * size >= limsize / 1024
    ensures (limit == 8192 || limit == 16384) && 4 * limit <= size
    ensures limit == 16384 <==> size > MIN_ZONE_SIZE
  {
    size := MIN_ZONE_SIZE;
    while size < MAX_ZONE_SIZE && 2 * size < limsize / 1024
      invariant size == MIN_ZONE_SIZE || size == 2 * MIN_ZONE_SIZE || size == MAX_ZONE_SIZE
      invariant size > MIN_ZONE_SIZE ==> size < limsize / 1024
      decreases MAX_ZONE_SIZE - size
    {
      size := 2 * size;
    }
    limit := size / 4;
    if limit > CLASS_LIMIT {
      limit := CLASS_LIMIT;
    }
  }

  class SlabHeap {
    const zonePages: nat
    const limit: nat
    const pages: PageAllocator
    var usage: map<nat, S.Usage>
    var zones: map<nat, Zone>
    var zoneArray: map<int, seq<nat>>
    var parked: seq<nat>
    ghost var blocks: map<nat, nat>

    ghost function Abs(): S.Slab
      reads this, pages
    {
      S.Slab(zonePages, limit, pages.runs, blocks, usage, zones, zoneArray, parked)
    }

    ghost predicate Valid()
      reads this, pages
    {
      S.Valid(Abs())
    }

    // rt_system_heap_init for a heap of npages pages, less than 4 GiB: all are freed, and the page map is
    // allocated from them.
    constructor (npages: nat)
      requires 0 < npages && npages * PAGE < 0x1_0000_0000
      ensures Valid() && fresh(pages) && Abs() == S.Initial(npages)
    {
      var size, lim := ZoneSize(npages * PAGE);
      zonePages, limit := size / PAGE, lim;
      pages := new PageAllocator(0, npages);
      usage, zones, zoneArray, parked, blocks := map[], map[], map[], [], map[];
      new;
      assert Taken([Run(0, npages)], 1) == if npages == 1 then [] else [Run(1, npages - 1)];
      var mapBytes := npages * S.USAGE_SIZE;
      var usageMap := pages.Alloc((mapBytes + (PAGE - 1)) / PAGE);
      assert Abs() == S.Initial(npages);
    }

    function Rooms(zi: int): seq<nat>
      reads this
    {
      if zi in zoneArray then zoneArray[zi] else []
    }

    // rt_malloc; the address counts from the start of the heap.
    method Malloc(size: nat) returns (addr: Option<nat>)
      requires Valid() && size + PAGE <= 0x1_0000_0000_0000_0000
      modifies this, pages
      ensures Valid() && S.Allocation(Abs(), addr) == S.Malloc(old(Abs()), size)
    {
      S.MallocStays(Abs(), size);
      if size == 0 {
        return None;
      }
      if size >= limit {
        addr := AllocLarge((size + (PAGE - 1)) / PAGE);
        return;
      }
      S.SizesOk(Abs(), size);
      var zi, bytes := ZoneIndex(size);
      if Rooms(zi) != [] {
        addr := AllocFromZone(zi);
      } else {
        addr := AllocFromNewZone(bytes);
      }
    }

    method AllocLarge(n: nat) returns (addr: Option<nat>)
      modifies this, pages
      ensures S.Allocation(Abs(), addr) == S.LargeAllocated(old(Abs()), n)
    {
      var chunk := pages.Alloc(n);
      if chunk == None {
        return None;
      }
      usage := usage[chunk.value := S.Large(n)];
      blocks := blocks[chunk.value := n];
      return Some(chunk.value * PAGE);
    }

    method AllocFromZone(zi: int) returns (addr: Option<nat>)
      requires Valid() && Rooms(zi) != []
      modifies this`zones, this`zoneArray
      ensures S.Rooms(old(Abs()), zi) != [] && S.Rooms(old(Abs()), zi)[0] in old(zones)
      ensures S.Allocation(Abs(), addr) == S.FromRoom(old(Abs()), zi)
    {
      S.FromRoomValid(Abs(), zi);
      var p := zoneArray[zi][0];
      var z := zones[p];
      assert S.ZoneIn(Abs(), p);
      TakeOk(z, p * PAGE, S.ZoneBytes(Abs()));
      z := z.(nfree := z.nfree - 1);
      if z.nfree == 0 {
        zoneArray := zoneArray[zi := zoneArray[zi][1..]];
      }
      var slot: nat;
      if z.uindex + 1 != z.nmax {
        z := z.(uindex := z.uindex + 1);
        slot := z.uindex;
      } else {
        slot := z.free[0];
        z := z.(free := z.free[1..]);
      }
      zones := zones[p := z];
      return Some(z.base + slot * z.size);
    }

    method AllocFromNewZone(bytes: nat) returns (addr: Option<nat>)
      requires Valid() && bytes > 0 && Offset(bytes) <= S.ZoneBytes(Abs()) && Rooms(IndexOfSize(bytes)) == []
      modifies this, pages
      ensures S.Allocation(Abs(), addr) == S.SmallAllocated(old(Abs()), bytes)
    {
      var p: nat;
      if parked != [] {
        p := parked[0];
        parked := parked[1..];
      } else {
        var got := pages.Alloc(zonePages);
        if got == None {
          return None;
        }
        p := got.value;
        blocks := blocks[p := zonePages];
        MarkPages(p);
      }
      var z := NewZone(p * PAGE, zonePages * PAGE, bytes);
      zones := zones[p := z];
      zoneArray := zoneArray[z.zi := [p] + Rooms(z.zi)];
      return Some(z.base + 0 * z.size);
    }

    // Every page of a new zone records how far it is from the start of the zone.
    method MarkPages(p: nat)
      modifies this`usage
      ensures usage == S.MarkSmall(old(usage), p, zonePages)
    {
      var off := 0;
      while off < zonePages
        invariant off <= zonePages && usage == S.MarkSmall(old(usage), p, off)
      {
        usage := usage[p + off := S.Small(off)];
        off := off + 1;
      }
    }

    method ClearPages(p: nat)
      modifies this`usage
      ensures usage == S.MarkFree(old(usage), p, zonePages)
    {
      var i := 0;
      while i < zonePages
        invariant i <= zonePages && usage == S.MarkFree(old(usage), p, i)
      {
        usage := usage[p + i := S.Free];
        i := i + 1;
      }
    }

    // rt_free, for an address rt_malloc gave out
    method Free(addr: nat, ghost x: S.Ptr)
      requires Valid() && S.Live(Abs(), x) && addr == S.AddrOf(Abs(), x)
      modifies this, pages
      ensures Valid() && x.page in old(blocks) && (x.Chunk? ==> x.page in old(zones))
      ensures Abs() == S.Deallocated(old(Abs()), x)
    {
      S.FreeTakesBack(Abs(), x);
      S.MapLeadsBack(Abs(), x);
      var kup := usage[addr / PAGE];
      if kup.Large? {
        usage := usage[addr / PAGE := S.Large(0)];
        blocks := blocks - {addr / PAGE};
        pages.Free(addr / PAGE, kup.pages);
      } else {
        var p := addr / PAGE - kup.offset;
        FreeChunk(p, SlotAt(zones[p], addr));
      }
    }

    method FreeChunk(p: nat, slot: nat)
      requires Valid() && p in zones && LiveSlot(zones[p], slot)
      modifies this, pages
      ensures p in old(zones) && Abs() == S.ChunkFreed(old(Abs()), p, slot)
    {
      S.ChunkBackValid(Abs(), p, slot);
      var z := zones[p];
      var full := z.nfree == 0;
      z := z.(nfree := z.nfree + 1, free := [slot] + z.free);
      zones := zones[p := z];
      if full {
        zoneArray := zoneArray[z.zi := [p] + Rooms(z.zi)];
      }
      if z.nfree == z.nmax && |Rooms(z.zi)| > 1 {
        PutZoneAside(p);
        ReleaseSpare();
      }
    }

    method PutZoneAside(p: nat)
      requires Valid() && p in zones && zones[p].nfree > 0
      modifies this`zones, this`zoneArray, this`parked
      ensures Valid() && p in old(zones) && Abs() == S.PutAside(old(Abs()), p) && parked != []
    {
      S.PutAsideValid(Abs(), p);
      var zi := zones[p].zi;
      assert S.RoomOk(Abs(), zi, p);
      RemoveZone(zi, p);
      zones := zones - {p};
      parked := [p] + parked;
    }

    method ReleaseSpare()
      requires Valid() && parked != []
      modifies this, pages
      ensures Abs() == S.Released(old(Abs()))
    {
      if |parked| > RELEASE_THRESH {
        var p := parked[0];
        parked := parked[1..];
        ClearPages(p);
        blocks := blocks - {p};
        pages.Free(p, zonePages);
      }
    }

    // The walk that takes zone p out of the list of its class.
    method RemoveZone(zi: int, p: nat)
      requires Valid() && p in Rooms(zi)
      modifies this`zoneArray
      ensures zoneArray == old(zoneArray)[zi := Removed(old(Rooms(zi)), p)]
    {
      var list := zoneArray[zi];
      assert Distinct(S.Rooms(Abs(), zi));
      var i := 0;
      while list[i] != p
        invariant i < |list| && forall j :: 0 <= j < i ==> list[j] != p
        decreases |list| - i
      {
        ghost var k :| 0 <= k < |list| && list[k] == p;
        i := i + 1;
      }
      RemovedByPosition(list, i);
      zoneArray := zoneArray[zi := list[..i] + list[i + 1..]];
    }
  }
}
