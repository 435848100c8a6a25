// The slab allocator of rt-thread/src/slab.c as a state: free pages, zones, the lists of zones with
// room and of parked zones, and the map from pages to what they hold. Addresses count from the start
// of the heap.
module SlabRuns {
  import opened Options
  import opened OrderedQueue
  import opened SlabPages
  import opened SlabZones

  datatype Usage = Free | Small(offset: nat) | Large(pages: nat)

  datatype Slab = Slab(
    zonePages: nat,                    // zone_page_cnt
    limit: nat,                        // zone_limit
    runs: seq<Run>,                    // rt_page_list
    blocks: map<nat, nat>,             // pages allocated: first page and number
    usage: map<nat, Usage>,            // memusage
    zones: map<nat, Zone>,             // zones in use, by first page
    zoneArray: map<int, seq<nat>>,         // zone_array: per size class, zones with room
    parked: seq<nat>)                  // zone_free

  function ZoneBytes(s: Slab): nat {
    s.zonePages * PAGE
  }

  function Rooms(s: Slab, zi: int): seq<nat> {
    if zi in s.zoneArray then s.zoneArray[zi] else []
  }

  function UsageOf(s: Slab, k: nat): Usage {
    if k in s.usage then s.usage[k] else Free
  }

  function PagesFor(size: nat): nat {
    (size + (PAGE - 1)) / PAGE
  }

  // memusage entries p + i .. p + n of a zone
  function MarkSmall(usage: map<nat, Usage>, p: nat, n: nat): map<nat, Usage> {
    if n == 0 then usage else MarkSmall(usage, p, n - 1)[p + (n - 1) := Small(n - 1)]
  }

  function MarkFree(usage: map<nat, Usage>, p: nat, n: nat): map<nat, Usage> {
    if n == 0 then usage else MarkFree(usage, p, n - 1)[p + (n - 1) := Free]
  }

  // ---- rt_malloc ----

  datatype Allocation = Allocation(s: Slab, addr: Option<nat>)

  function LargeAllocated(s: Slab, n: nat): Allocation {
    if n == 0 || !Fits(s.runs, n) then Allocation(s, None)
    else
      var q := TakenAt(s.runs, n);
      Allocation(s.(runs := Taken(s.runs, n), blocks := s.blocks[q := n],
                     usage := s.usage[q := Large(n)]), Some(q * PAGE))
  }

  // The zone at the head of the list for its class gives a chunk, and leaves the list when full.
  function FromRoom(s: Slab, zi: int): Allocation
    requires Rooms(s, zi) != [] && Rooms(s, zi)[0] in s.zones
  {
    var p: nat := Rooms(s, zi)[0];
    var z := s.zones[p];
    Allocation(
      s.(zones := s.zones[p := Take(z)],
         zoneArray := if Take(z).nfree == 0 then s.zoneArray[zi := Rooms(s, zi)[1..]] else s.zoneArray),
      Some(ChunkAddr(z, NextSlot(z))))
  }

  // Page p becomes a zone for chunks of the given size, whose first chunk is handed out.
  function OpenZone(s: Slab, p: nat, size: nat): Allocation
    requires size > 0 && Offset(size) <= ZoneBytes(s)
  {
    var z := NewZone(p * PAGE, ZoneBytes(s), size);
    Allocation(s.(zones := s.zones[p := z], zoneArray := s.zoneArray[z.zi := [p] + Rooms(s, z.zi)]),
                   Some(ChunkAddr(z, 0)))
  }

  // Fresh pages for a zone.
  function PagesTaken(s: Slab): Slab
    requires Fits(s.runs, s.zonePages)
  {
    var p := TakenAt(s.runs, s.zonePages);
    s.(runs := Taken(s.runs, s.zonePages), blocks := s.blocks[p := s.zonePages],
       usage := MarkSmall(s.usage, p, s.zonePages))
  }

  function SmallAllocated(s: Slab, size: nat): Allocation
    requires size > 0 && Offset(size) <= ZoneBytes(s)
    requires Rooms(s, IndexOfSize(size)) != [] ==> Rooms(s, IndexOfSize(size))[0] in s.zones
  {
    var zi := IndexOfSize(size);
    if Rooms(s, zi) != [] then FromRoom(s, zi)
    else if s.parked != [] then OpenZone(s.(parked := s.parked[1..]), s.parked[0], size)
    else if s.zonePages == 0 || !Fits(s.runs, s.zonePages) then Allocation(s, None)
    else OpenZone(PagesTaken(s), TakenAt(s.runs, s.zonePages), size)
  }

  // ---- rt_free ----

  function LargeFreed(s: Slab, q: nat): Slab
    requires q in s.blocks
  {
    s.(usage := s.usage[q := Large(0)], blocks := s.blocks - {q}, runs := Freed(s.runs, q, s.blocks[q]))
  }

  // The third parked zone goes back to the page allocator.
  function Released(s: Slab): Slab
    requires s.parked != []
  {
    var p := s.parked[0];
    if |s.parked| > 2 then
      s.(parked := s.parked[1..], usage := MarkFree(s.usage, p, s.zonePages), blocks := s.blocks - {p},
         runs := Freed(s.runs, p, s.zonePages))
    else s
  }

  // A chunk goes back to its zone, and a zone that was full back to its list.
  function ChunkBack(s: Slab, p: nat, k: nat): Slab
    requires p in s.zones
  {
    var z := s.zones[p];
    s.(zones := s.zones[p := Put(z, k)],
       zoneArray := if z.nfree == 0 then s.zoneArray[z.zi := [p] + Rooms(s, z.zi)] else s.zoneArray)
  }

  // A zone is put aside.
  function PutAside(s: Slab, p: nat): Slab
    requires p in s.zones
  {
    var zi := s.zones[p].zi;
    s.(zones := s.zones - {p}, zoneArray := s.zoneArray[zi := Removed(Rooms(s, zi), p)], parked := [p] + s.parked)
  }

  // A zone with no chunk handed out is put aside if its class has another zone with room.
  function ChunkFreed(s: Slab, p: nat, k: nat): Slab
    requires p in s.zones
  {
    var u := ChunkBack(s, p, k);
    var n := u.zones[p];
    if n.nfree == n.nmax && |Rooms(u, n.zi)| > 1 then Released(PutAside(u, p)) else u
  }

  // ---- what every operation keeps ----

  ghost predicate ZoneIn(s: Slab, p: nat) {
    p in s.zones ==>
      && ZoneOk(s.zones[p], p * PAGE, ZoneBytes(s))
      && p in s.blocks && s.blocks[p] == s.zonePages && p !in s.parked
  }

  ghost predicate ParkedIn(s: Slab, p: nat) {
    p in s.parked ==> p in s.blocks && s.blocks[p] == s.zonePages
  }

  // The pages of a zone, in use or parked, say how far they are from its start.
  ghost predicate PageMapped(s: Slab, p: nat, i: nat) {
    (p in s.zones || p in s.parked) && i < s.zonePages ==> UsageOf(s, p + i) == Small(i)
  }

  // A block that is no zone is a large one, and its first page says so.
  ghost predicate LargeMapped(s: Slab, q: nat) {
    q in s.blocks && q !in s.zones && q !in s.parked ==> UsageOf(s, q) == Large(s.blocks[q])
  }

  // A zone is on the list of its class exactly if it has room.
  ghost predicate RoomOk(s: Slab, zi: int, p: nat) {
    p in Rooms(s, zi) <==> p in s.zones && s.zones[p].zi == zi && s.zones[p].nfree > 0
  }

  ghost predicate InBlock(s: Slab, p: nat, k: nat) {
    p in s.blocks && p <= k < p + s.blocks[p]
  }

  // No page is in two blocks, or in a block and free.
  ghost predicate PageOk(s: Slab, p: nat, q: nat, k: nat) {
    && !(InBlock(s, p, k) && HasPage(s.runs, k))
    && (p != q ==> !(InBlock(s, p, k) && InBlock(s, q, k)))
  }

  ghost predicate Disjoint(s: Slab) {
    && Ordered(s.runs)
    && (forall p :: p in s.blocks ==> s.blocks[p] > 0)
    && (forall p, q, k :: PageOk(s, p, q, k))
  }

  ghost predicate Valid(s: Slab) {
    && s.zonePages >= 8 && (s.limit == 8192 || s.limit == 16384) && 4 * s.limit <= ZoneBytes(s)
    && Disjoint(s)
    && (forall p :: ZoneIn(s, p)) && (forall p :: ParkedIn(s, p)) && Distinct(s.parked)
    && (forall p, i :: PageMapped(s, p, i)) && (forall q :: LargeMapped(s, q))
    && (forall zi :: Distinct(Rooms(s, zi))) && (forall zi, p :: RoomOk(s, zi, p))
  }

  // ---- blocks of pages ----

  // n consecutive free pages become a block.
  lemma BlockTaken(s: Slab, n: nat)
    requires Disjoint(s) && n > 0 && Fits(s.runs, n)
    ensures
      var q := TakenAt(s.runs, n);
      && q !in s.blocks
      && (forall k :: q <= k < q + n ==> HasPage(s.runs, k))
      && Disjoint(s.(runs := Taken(s.runs, n), blocks := s.blocks[q := n]))
  {
    var q := TakenAt(s.runs, n);
    var u := s.(runs := Taken(s.runs, n), blocks := s.blocks[q := n]);
    TakenFacts(s.runs, n, q);
    forall k | q <= k < q + n ensures HasPage(s.runs, k) { TakenFacts(s.runs, n, k); }
    if q in s.blocks { assert PageOk(s, q, q, q); assert InBlock(s, q, q); }
    forall a, b, k ensures PageOk(u, a, b, k) {
      assert PageOk(s, a, b, k) && PageOk(s, b, a, k);
      TakenFacts(s.runs, n, k);
    }
  }

  // A block becomes free pages.
  lemma BlockFreed(s: Slab, q: nat)
    requires Disjoint(s) && q in s.blocks
    ensures Disjoint(s.(runs := Freed(s.runs, q, s.blocks[q]), blocks := s.blocks - {q}))
  {
    var n := s.blocks[q];
    var u := s.(runs := Freed(s.runs, q, n), blocks := s.blocks - {q});
    forall k | q <= k < q + n ensures !HasPage(s.runs, k) {
      assert PageOk(s, q, q, k) && InBlock(s, q, k);
    }
    FreedFacts(s.runs, q, n, 0);
    forall a, b, k ensures PageOk(u, a, b, k) {
      assert PageOk(s, a, b, k) && PageOk(s, a, q, k);
      FreedFacts(s.runs, q, n, k);
    }
  }

  // Blocks that share a page are the same.
  lemma OneBlock(s: Slab, p: nat, q: nat, k: nat)
    requires Disjoint(s) && InBlock(s, p, k) && InBlock(s, q, k)
    ensures p == q
  {
    assert PageOk(s, p, q, k);
  }

  // ---- the page map ----

  lemma {:induction false} MarkedSmall(usage: map<nat, Usage>, p: nat, n: nat, k: nat)
    ensures k in MarkSmall(usage, p, n) <==> k in usage || p <= k < p + n
    ensures k in MarkSmall(usage, p, n) ==>
      MarkSmall(usage, p, n)[k] == if p <= k < p + n then Small(k - p) else usage[k]
    decreases n
  {
    if n > 0 { MarkedSmall(usage, p, n - 1, k); }
  }

  lemma {:induction false} MarkedFree(usage: map<nat, Usage>, p: nat, n: nat, k: nat)
    ensures k in MarkFree(usage, p, n) <==> k in usage || p <= k < p + n
    ensures k in MarkFree(usage, p, n) ==> MarkFree(usage, p, n)[k] == if p <= k < p + n then Free else usage[k]
    decreases n
  {
    if n > 0 { MarkedFree(usage, p, n - 1, k); }
  }

  // ---- opening a zone ----

  // Everything is in order but for block p, which is to become a zone.
  ghost predicate ValidBut(s: Slab, p: nat) {
    && s.zonePages >= 8 && (s.limit == 8192 || s.limit == 16384) && 4 * s.limit <= ZoneBytes(s)
    && Disjoint(s)
    && (forall q :: ZoneIn(s, q)) && (forall q :: ParkedIn(s, q)) && Distinct(s.parked)
    && (forall q, i :: PageMapped(s, q, i)) && (forall q :: q != p ==> LargeMapped(s, q))
    && (forall zi :: Distinct(Rooms(s, zi))) && (forall zi, q :: RoomOk(s, zi, q))
    && p !in s.zones && p !in s.parked && p in s.blocks && s.blocks[p] == s.zonePages
    && (forall i :: 0 <= i < s.zonePages ==> UsageOf(s, p + i) == Small(i))
  }

  lemma OpenZoneValid(s: Slab, p: nat, size: nat)
    requires ValidBut(s, p) && IsChunkSize(size) && size <= s.limit
    requires Rooms(s, IndexOfSize(size)) == []
    ensures Offset(size) <= ZoneBytes(s) && Valid(OpenZone(s, p, size).s)
    ensures forall k :: LiveSlot(OpenZone(s, p, size).s.zones[p], k) <==> k == 0
  {
    NewZoneOk(p * PAGE, ZoneBytes(s), size);
    var n := OpenZone(s, p, size).s;
    var zi := n.zones[p].zi;
    forall q ensures ZoneIn(n, q) { assert ZoneIn(s, q); }
    forall q ensures ParkedIn(n, q) { assert ParkedIn(s, q); }
    forall q: nat, i: nat ensures PageMapped(n, q, i) { assert PageMapped(s, q, i); }
    forall q ensures LargeMapped(n, q) { if q != p { assert LargeMapped(s, q); } }
    assert [p][1..] == [];
    forall z ensures Distinct(Rooms(n, z)) { assert Distinct(Rooms(s, z)); }
    forall z, q ensures RoomOk(n, z, q) { assert RoomOk(s, z, q); }
    forall a, b, k ensures PageOk(n, a, b, k) { assert PageOk(s, a, b, k); }
  }

  lemma FromParked(s: Slab)
    requires Valid(s) && s.parked != []
    ensures ValidBut(s.(parked := s.parked[1..]), s.parked[0])
  {
    var n, p := s.(parked := s.parked[1..]), s.parked[0];
    assert p in s.parked && forall q :: q in s.parked <==> q == p || q in s.parked[1..];
    assert ZoneIn(s, p) && ParkedIn(s, p);
    forall q ensures ZoneIn(n, q) { assert ZoneIn(s, q); }
    forall q ensures ParkedIn(n, q) { assert ParkedIn(s, q); }
    forall q: nat, i: nat ensures PageMapped(n, q, i) { assert PageMapped(s, q, i); }
    forall q | q != p ensures LargeMapped(n, q) { assert LargeMapped(s, q); }
    forall i | 0 <= i < n.zonePages ensures UsageOf(n, p + i) == Small(i) { assert PageMapped(s, p, i); }
    forall z, q ensures RoomOk(n, z, q) { assert RoomOk(s, z, q); }
    forall z ensures Distinct(Rooms(n, z)) { assert Distinct(Rooms(s, z)); }
    forall a, b, k ensures PageOk(n, a, b, k) { assert PageOk(s, a, b, k); }
  }

  // The blocks there were keep their entries in the page map when fresh pages get theirs.
  lemma MapKept(s: Slab)
    requires Valid(s) && Fits(s.runs, s.zonePages)
    ensures var n, p := PagesTaken(s), TakenAt(s.runs, s.zonePages);
      && (forall q, i :: PageMapped(n, q, i)) && (forall q :: q != p ==> LargeMapped(n, q))
      && (forall i :: 0 <= i < n.zonePages ==> UsageOf(n, p + i) == Small(i))
  {
    var n, p := PagesTaken(s), TakenAt(s.runs, s.zonePages);
    BlockTaken(s, s.zonePages);
    forall q: nat, i: nat ensures PageMapped(n, q, i) {
      assert PageMapped(s, q, i) && ZoneIn(s, q) && ParkedIn(s, q);
      MarkedSmall(s.usage, p, s.zonePages, q + i);
      if (q in s.zones || q in s.parked) && i < s.zonePages {
        assert PageOk(s, q, q, q + i) && InBlock(s, q, q + i);
      }
    }
    forall q | q != p ensures LargeMapped(n, q) {
      assert LargeMapped(s, q);
      MarkedSmall(s.usage, p, s.zonePages, q);
      if q in s.blocks { assert PageOk(s, q, q, q) && InBlock(s, q, q); }
    }
    forall i | 0 <= i < n.zonePages ensures UsageOf(n, p + i) == Small(i)
      { MarkedSmall(s.usage, p, s.zonePages, p + i); }
  }

  lemma FromPages(s: Slab)
    requires Valid(s) && Fits(s.runs, s.zonePages)
    ensures ValidBut(PagesTaken(s), TakenAt(s.runs, s.zonePages))
  {
    var n, p := PagesTaken(s), TakenAt(s.runs, s.zonePages);
    BlockTaken(s, s.zonePages);
    MapKept(s);
    assert Disjoint(n) by {
      var u := s.(runs := n.runs, blocks := n.blocks);
      forall a, b, k ensures PageOk(n, a, b, k) { assert PageOk(u, a, b, k); }
    }
    assert ZoneIn(s, p) && ParkedIn(s, p);
    forall q ensures ZoneIn(n, q) { assert ZoneIn(s, q); }
    forall q ensures ParkedIn(n, q) { assert ParkedIn(s, q); }
    forall z, q ensures RoomOk(n, z, q) { assert RoomOk(s, z, q); }
    forall z ensures Distinct(Rooms(n, z)) { assert Distinct(Rooms(s, z)); }
  }

  // ---- the other operations ----

  // Chunks change hands within the zones there are.
  lemma PagesSame(s: Slab, n: Slab)
    requires Valid(s) && n.runs == s.runs && n.blocks == s.blocks && n.usage == s.usage && n.parked == s.parked
    requires n.zones.Keys == s.zones.Keys && n.zonePages == s.zonePages
    ensures Disjoint(n) && (forall q :: ParkedIn(n, q))
    ensures (forall q, i :: PageMapped(n, q, i)) && (forall q :: LargeMapped(n, q))
  {
    forall q ensures ParkedIn(n, q) { assert ParkedIn(s, q); }
    forall q: nat, i: nat ensures PageMapped(n, q, i) { assert PageMapped(s, q, i); }
    forall q ensures LargeMapped(n, q) { assert LargeMapped(s, q); }
    forall a, b, k ensures PageOk(n, a, b, k) { assert PageOk(s, a, b, k); }
  }

  lemma FromRoomValid(s: Slab, zi: int)
    requires Valid(s) && Rooms(s, zi) != []
    ensures Rooms(s, zi)[0] in s.zones && s.zones[Rooms(s, zi)[0]].nfree > 0
    ensures Valid(FromRoom(s, zi).s)
  {
    var list := Rooms(s, zi);
    var p := list[0];
    assert p in list && RoomOk(s, zi, p) && ZoneIn(s, p) && Distinct(list);
    assert forall q :: q in list <==> q == p || q in list[1..];
    var z := s.zones[p];
    TakeOk(z, p * PAGE, ZoneBytes(s));
    var n := FromRoom(s, zi).s;
    forall q ensures ZoneIn(n, q) { assert ZoneIn(s, q); }
    PagesSame(s, n);
    forall y ensures Distinct(Rooms(n, y)) { assert Distinct(Rooms(s, y)); }
    forall y, q ensures RoomOk(n, y, q) { assert RoomOk(s, y, q); }
  }

  lemma LargeAllocatedValid(s: Slab, n: nat)
    requires Valid(s)
    ensures Valid(LargeAllocated(s, n).s)
  {
    if n > 0 && Fits(s.runs, n) {
      var q := TakenAt(s.runs, n);
      var r := LargeAllocated(s, n).s;
      BlockTaken(s, n);
      assert Disjoint(r) by {
        var u := s.(runs := r.runs, blocks := r.blocks);
        forall a, b, k ensures PageOk(r, a, b, k) { assert PageOk(u, a, b, k); }
      }
      assert ZoneIn(s, q) && ParkedIn(s, q);
      forall p ensures ZoneIn(r, p) { assert ZoneIn(s, p); }
      forall p ensures ParkedIn(r, p) { assert ParkedIn(s, p); }
      forall p: nat, i: nat ensures PageMapped(r, p, i) {
        assert PageMapped(s, p, i) && ZoneIn(s, p) && ParkedIn(s, p);
        if (p in s.zones || p in s.parked) && i < s.zonePages { assert PageOk(s, p, p, p + i) && InBlock(s, p, p + i); }
      }
      forall p ensures LargeMapped(r, p) { assert LargeMapped(s, p); }
      forall z, p ensures RoomOk(r, z, p) { assert RoomOk(s, z, p); }
      forall z ensures Distinct(Rooms(r, z)) { assert Distinct(Rooms(s, z)); }
    }
  }

  lemma LargeFreedValid(s: Slab, q: nat)
    requires Valid(s) && q in s.blocks && q !in s.zones && q !in s.parked
    ensures Valid(LargeFreed(s, q))
  {
    var r := LargeFreed(s, q);
    BlockFreed(s, q);
    assert Disjoint(r) by {
      var u := s.(runs := r.runs, blocks := r.blocks);
      forall a, b, k ensures PageOk(r, a, b, k) { assert PageOk(u, a, b, k); }
    }
    forall p ensures ZoneIn(r, p) { assert ZoneIn(s, p); }
    forall p ensures ParkedIn(r, p) { assert ParkedIn(s, p); }
    forall p: nat, i: nat ensures PageMapped(r, p, i) {
      assert PageMapped(s, p, i) && ZoneIn(s, p) && ParkedIn(s, p);
      if (p in s.zones || p in s.parked) && i < s.zonePages {
        assert PageOk(s, p, q, p + i) && InBlock(s, p, p + i);
        assert InBlock(s, q, q);
      }
    }
    forall p ensures LargeMapped(r, p) { assert LargeMapped(s, p); }
    forall z, p ensures RoomOk(r, z, p) { assert RoomOk(s, z, p); }
    forall z ensures Distinct(Rooms(r, z)) { assert Distinct(Rooms(s, z)); }
  }

  lemma ChunkBackValid(s: Slab, p: nat, k: nat)
    requires Valid(s) && p in s.zones && LiveSlot(s.zones[p], k)
    ensures Valid(ChunkBack(s, p, k))
  {
    var z, n := s.zones[p], ChunkBack(s, p, k);
    assert ZoneIn(s, p);
    PutOk(z, k, p * PAGE, ZoneBytes(s));
    var list := Rooms(s, z.zi);
    assert ([p] + list)[1..] == list && RoomOk(s, z.zi, p);
    forall q ensures ZoneIn(n, q) { assert ZoneIn(s, q); }
    PagesSame(s, n);
    forall y ensures Distinct(Rooms(n, y)) { assert Distinct(Rooms(s, y)); }
    forall y, q ensures RoomOk(n, y, q) { assert RoomOk(s, y, q); }
  }

  lemma PutAsideValid(s: Slab, p: nat)
    requires Valid(s) && p in s.zones
    ensures Valid(PutAside(s, p))
  {
    var zi, n := s.zones[p].zi, PutAside(s, p);
    assert ZoneIn(s, p);
    assert ([p] + s.parked)[1..] == s.parked;
    forall q ensures ZoneIn(n, q) { assert ZoneIn(s, q); }
    forall q ensures ParkedIn(n, q) { assert ParkedIn(s, q); }
    forall q: nat, i: nat ensures PageMapped(n, q, i) { assert PageMapped(s, q, i); }
    forall q ensures LargeMapped(n, q) { assert LargeMapped(s, q); }
    forall y ensures Distinct(Rooms(n, y)) {
      assert Distinct(Rooms(s, y));
      RemovedDistinct(Rooms(s, y), p);
    }
    forall y, q ensures RoomOk(n, y, q) {
      assert RoomOk(s, y, q);
      InRemoved(Rooms(s, zi), p, q);
    }
    forall a, b, j ensures PageOk(n, a, b, j) { assert PageOk(s, a, b, j); }
  }

  lemma ReleasedValid(s: Slab)
    requires Valid(s) && s.parked != []
    ensures Valid(Released(s))
  {
    if |s.parked| > 2 {
      var p, n := s.parked[0], Released(s);
      assert p in s.parked && forall q :: q in s.parked <==> q == p || q in s.parked[1..];
      assert ParkedIn(s, p) && ZoneIn(s, p);
      BlockFreed(s, p);
      assert Disjoint(n) by {
        var u := s.(runs := n.runs, blocks := n.blocks);
        forall a, b, k ensures PageOk(n, a, b, k) { assert PageOk(u, a, b, k); }
      }
      forall q ensures ZoneIn(n, q) { assert ZoneIn(s, q); }
      forall q ensures ParkedIn(n, q) { assert ParkedIn(s, q); }
      forall q: nat, i: nat ensures PageMapped(n, q, i) {
        assert PageMapped(s, q, i) && ZoneIn(s, q) && ParkedIn(s, q);
        MarkedFree(s.usage, p, s.zonePages, q + i);
        if (q in n.zones || q in n.parked) && i < s.zonePages {
          assert PageOk(s, q, p, q + i) && InBlock(s, q, q + i);
        }
      }
      forall q ensures LargeMapped(n, q) {
        assert LargeMapped(s, q);
        MarkedFree(s.usage, p, s.zonePages, q);
        if q in n.blocks { assert PageOk(s, q, p, q) && InBlock(s, q, q); }
      }
      forall z, q ensures RoomOk(n, z, q) { assert RoomOk(s, z, q); }
      forall z ensures Distinct(Rooms(n, z)) { assert Distinct(Rooms(s, z)); }
    }
  }

  lemma ChunkFreedValid(s: Slab, p: nat, k: nat)
    requires Valid(s) && p in s.zones && LiveSlot(s.zones[p], k)
    ensures Valid(ChunkFreed(s, p, k))
  {
    var u := ChunkBack(s, p, k);
    ChunkBackValid(s, p, k);
    var n := u.zones[p];
    if n.nfree == n.nmax && |Rooms(u, n.zi)| > 1 {
      PutAsideValid(u, p);
      ReleasedValid(PutAside(u, p));
    }
  }

  // ---- what is handed out ----

  datatype Ptr = Chunk(page: nat, slot: nat) | Pages(page: nat)

  ghost predicate Live(s: Slab, x: Ptr) {
    match x
    case Chunk(p, k) => p in s.zones && LiveSlot(s.zones[p], k)
    case Pages(q) => q in s.blocks && q !in s.zones && q !in s.parked
  }

  ghost function AddrOf(s: Slab, x: Ptr): nat
    requires Live(s, x)
  {
    match x
    case Chunk(p, k) => ChunkAddr(s.zones[p], k)
    case Pages(q) => q * PAGE
  }

  // The number of bytes handed out with it.
  ghost function Extent(s: Slab, x: Ptr): nat
    requires Live(s, x)
  {
    match x
    case Chunk(p, k) => s.zones[p].size
    case Pages(q) => s.blocks[q] * PAGE
  }

  // Byte a belongs to it.
  ghost predicate Holds(s: Slab, x: Ptr, a: nat)
    requires Live(s, x)
  {
    AddrOf(s, x) <= a < AddrOf(s, x) + Extent(s, x)
  }

  // Everything handed out lies within its block.
  lemma InItsBlock(s: Slab, x: Ptr)
    requires Valid(s) && Live(s, x)
    ensures x.page in s.blocks
    ensures x.page * PAGE <= AddrOf(s, x) && AddrOf(s, x) + Extent(s, x) <= (x.page + s.blocks[x.page]) * PAGE
    ensures Extent(s, x) > 0
  {
    var p: nat := x.page;
    assert ZoneIn(s, p);
    if x.Chunk? {
      ChunkInZone(s.zones[p], p * PAGE, ZoneBytes(s), x.slot);
    }
  }

  lemma ByteInBlock(s: Slab, x: Ptr, a: nat)
    requires Valid(s) && Live(s, x) && Holds(s, x, a)
    ensures InBlock(s, x.page, a / PAGE)
  {
    InItsBlock(s, x);
  }

  // No byte is handed out twice.
  lemma NoOverlap(s: Slab, x: Ptr, y: Ptr, a: nat)
    requires Valid(s) && Live(s, x) && Live(s, y)
    requires Holds(s, x, a) && Holds(s, y, a)
    ensures x == y
  {
    ByteInBlock(s, x, a);
    ByteInBlock(s, y, a);
    OneBlock(s, x.page, y.page, a / PAGE);
    if x.Chunk? && y.Chunk? {
      var z := s.zones[x.page];
      if x.slot < y.slot { ChunksApart(z, x.slot, y.slot); }
      if y.slot < x.slot { ChunksApart(z, y.slot, x.slot); }
    }
  }

  // How rt_free finds out what an address is: through the page map.
  function Located(s: Slab, a: nat): Ptr {
    match UsageOf(s, a / PAGE)
    case Small(off) =>
      if off <= a / PAGE && a / PAGE - off in s.zones && s.zones[a / PAGE - off].size > 0
         && s.zones[a / PAGE - off].base <= a then
        Chunk(a / PAGE - off, SlotAt(s.zones[a / PAGE - off], a))
      else Pages(a / PAGE)
    case _ => Pages(a / PAGE)
  }

  lemma ChunkMapped(s: Slab, p: nat, k: nat)
    requires Valid(s) && Live(s, Chunk(p, k))
    ensures
      var a := ChunkAddr(s.zones[p], k);
      p <= a / PAGE && UsageOf(s, a / PAGE) == Small(a / PAGE - p) && Located(s, a) == Chunk(p, k)
  {
    var a := ChunkAddr(s.zones[p], k);
    InItsBlock(s, Chunk(p, k));
    ByteInBlock(s, Chunk(p, k), a);
    assert ZoneIn(s, p) && PageMapped(s, p, a / PAGE - p);
    SlotOfChunk(s.zones[p], k);
  }

  // The map leads from every address handed out to the zone and chunk, or the pages, it belongs to.
  lemma MapLeadsBack(s: Slab, x: Ptr)
    requires Valid(s) && Live(s, x)
    ensures Located(s, AddrOf(s, x)) == x
    ensures x.Pages? ==> UsageOf(s, AddrOf(s, x) / PAGE) == Large(s.blocks[x.page])
    ensures x.Chunk? ==> UsageOf(s, AddrOf(s, x) / PAGE) == Small(AddrOf(s, x) / PAGE - x.page)
  {
    var p: nat := x.page;
    InItsBlock(s, x);
    if x.Chunk? {
      ChunkMapped(s, p, x.slot);
    } else {
      assert LargeMapped(s, p) && AddrOf(s, x) / PAGE == p;
    }
  }

  // ---- the interface ----

  function Malloc(s: Slab, size: nat): Allocation
    requires Valid(s)
  {
    if size == 0 then Allocation(s, None)
    else if size >= s.limit then LargeAllocated(s, PagesFor(size))
    else
      SizesOk(s, size);
      SmallAllocated(s, ChunkSize(size))
  }

  lemma AtMostLimit(size: nat)
    requires 0 < size < CLASS_LIMIT
    ensures size < 8192 ==> ChunkSize(size) <= 8192
  {
    ChunkFits(size);
  }

  lemma SizesOk(s: Slab, size: nat)
    requires Valid(s) && 0 < size < s.limit
    ensures IsChunkSize(ChunkSize(size)) && ChunkSize(size) >= size && 4 * ChunkSize(size) <= ZoneBytes(s)
    ensures Offset(ChunkSize(size)) <= ZoneBytes(s)
    ensures var zi := IndexOfSize(ChunkSize(size)); Rooms(s, zi) != [] ==> Rooms(s, zi)[0] in s.zones
  {
    ChunkFits(size);
    AtMostLimit(size);
    NewZoneOk(0, ZoneBytes(s), ChunkSize(size));
    var zi := IndexOfSize(ChunkSize(size));
    if Rooms(s, zi) != [] { assert Rooms(s, zi)[0] in Rooms(s, zi) && RoomOk(s, zi, Rooms(s, zi)[0]); }
  }

  // Exactly x is handed out in addition, and nothing that was handed out moves or shrinks.
  ghost predicate Adds(s: Slab, n: Slab, x: Ptr) {
    && !Live(s, x) && Live(n, x)
    && forall y :: Kept(s, n, x, y)
  }

  ghost predicate Kept(s: Slab, n: Slab, x: Ptr, y: Ptr) {
    y != x ==>
      && (Live(n, y) <==> Live(s, y))
      && (Live(s, y) ==> AddrOf(n, y) == AddrOf(s, y) && Extent(n, y) == Extent(s, y))
  }

  lemma FromRoomAdds(s: Slab, zi: int)
    requires Valid(s) && Rooms(s, zi) != []
    ensures Rooms(s, zi)[0] in s.zones
    ensures var p: nat := Rooms(s, zi)[0]; Adds(s, FromRoom(s, zi).s, Chunk(p, NextSlot(s.zones[p])))
  {
    var p: nat := Rooms(s, zi)[0];
    FromRoomValid(s, zi);
    assert ZoneIn(s, p);
    TakeOk(s.zones[p], p * PAGE, ZoneBytes(s));
    var n := FromRoom(s, zi).s;
    forall y ensures Kept(s, n, Chunk(p, NextSlot(s.zones[p])), y) {}
  }

  // Opening a zone on page p adds its first chunk, if p handed out nothing before.
  lemma OpenZoneAdds(s: Slab, t: Slab, p: nat, size: nat)
    requires ValidBut(t, p) && IsChunkSize(size) && size <= t.limit && Rooms(t, IndexOfSize(size)) == []
    requires s.zones == t.zones && p !in s.zones
    requires forall q :: Live(s, Pages(q)) <==> q != p && Live(t, Pages(q))
    requires forall q :: Live(s, Pages(q)) ==> q in t.blocks && s.blocks[q] == t.blocks[q]
    ensures Offset(size) <= ZoneBytes(t) && Adds(s, OpenZone(t, p, size).s, Chunk(p, 0))
  {
    OpenZoneValid(t, p, size);
    var n := OpenZone(t, p, size).s;
    forall y ensures Kept(s, n, Chunk(p, 0), y) {}
  }

  // What a request of c bytes gets: x, of at least that size, and nothing else changes hands.
  ghost predicate Serves(s: Slab, r: Allocation, x: Ptr, c: nat) {
    Valid(r.s) && Adds(s, r.s, x) && r.addr == Some(AddrOf(r.s, x)) && Extent(r.s, x) >= c
  }

  // ... and x is a chunk of just that size.
  ghost predicate ServesChunk(s: Slab, r: Allocation, x: Ptr, c: nat) {
    Serves(s, r, x, c) && x.Chunk? && Extent(r.s, x) == c
  }

  lemma RoomServes(s: Slab, c: nat) returns (x: Ptr)
    requires Valid(s) && IsChunkSize(c) && Rooms(s, IndexOfSize(c)) != []
    ensures Rooms(s, IndexOfSize(c))[0] in s.zones && ServesChunk(s, FromRoom(s, IndexOfSize(c)), x, c)
  {
    var zi := IndexOfSize(c);
    var p: nat := Rooms(s, zi)[0];
    assert p in Rooms(s, zi) && RoomOk(s, zi, p) && ZoneIn(s, p);
    x := Chunk(p, NextSlot(s.zones[p]));
    FromRoomValid(s, zi);
    FromRoomAdds(s, zi);
    IndexDeterminesSize(s.zones[p].size, c);
  }

  lemma ParkedServes(s: Slab, c: nat) returns (x: Ptr)
    requires Valid(s) && IsChunkSize(c) && c <= s.limit && Rooms(s, IndexOfSize(c)) == [] && s.parked != []
    ensures Offset(c) <= ZoneBytes(s)
    ensures ServesChunk(s, OpenZone(s.(parked := s.parked[1..]), s.parked[0], c), x, c)
  {
    var p: nat, t := s.parked[0], s.(parked := s.parked[1..]);
    x := Chunk(p, 0);
    FromParked(s);
    assert p in s.parked && forall q :: q in s.parked <==> q == p || q in s.parked[1..];
    assert Distinct(s.parked);
    OpenZoneValid(t, p, c);
    OpenZoneAdds(s, t, p, c);
  }

  lemma FreshServes(s: Slab, c: nat) returns (x: Ptr)
    requires Valid(s) && IsChunkSize(c) && c <= s.limit && Rooms(s, IndexOfSize(c)) == [] && Fits(s.runs, s.zonePages)
    ensures Offset(c) <= ZoneBytes(s)
    ensures ServesChunk(s, OpenZone(PagesTaken(s), TakenAt(s.runs, s.zonePages), c), x, c)
  {
    var p: nat := TakenAt(s.runs, s.zonePages);
    x := Chunk(p, 0);
    FromPages(s);
    BlockTaken(s, s.zonePages);
    OpenZoneValid(PagesTaken(s), p, c);
    OpenZoneAdds(s, PagesTaken(s), p, c);
  }

  lemma SmallAllocatedOk(s: Slab, size: nat) returns (x: Ptr)
    requires Valid(s) && 0 < size < s.limit && Malloc(s, size).addr.Some?
    ensures Serves(s, Malloc(s, size), x, size) && ServesChunk(s, Malloc(s, size), x, ChunkSize(size))
  {
    SizesOk(s, size);
    AtMostLimit(size);
    var c := ChunkSize(size);
    if Rooms(s, IndexOfSize(c)) != [] {
      x := RoomServes(s, c);
    } else if s.parked != [] {
      x := ParkedServes(s, c);
    } else {
      x := FreshServes(s, c);
    }
  }

  lemma LargeAllocatedOk(s: Slab, size: nat) returns (x: Ptr)
    requires Valid(s) && size >= s.limit && Malloc(s, size).addr.Some?
    ensures Serves(s, Malloc(s, size), x, size) && x.Pages? && Extent(Malloc(s, size).s, x) < size + PAGE
  {
    var n := PagesFor(size);
    var q := TakenAt(s.runs, n);
    x := Pages(q);
    LargeAllocatedValid(s, n);
    BlockTaken(s, n);
    assert ZoneIn(s, q) && ParkedIn(s, q);
    var r := LargeAllocated(s, n).s;
    forall y ensures Kept(s, r, x, y) {}
  }

  // rt_malloc hands out something new of at least the size asked for, and leaves all else alone: a chunk of the
  // size's class, or whole pages with less than one of them to spare.
  lemma MallocHandsOut(s: Slab, size: nat) returns (x: Ptr)
    requires Valid(s) && Malloc(s, size).addr.Some?
    ensures Serves(s, Malloc(s, size), x, size)
    ensures if size < s.limit then x.Chunk? && Extent(Malloc(s, size).s, x) == ChunkSize(size)
            else x.Pages? && Extent(Malloc(s, size).s, x) < size + PAGE
  {
    if size >= s.limit {
      x := LargeAllocatedOk(s, size);
    } else {
      x := SmallAllocatedOk(s, size);
    }
  }

  // It refuses a request exactly when no zone has room, none is parked, and there are not enough
  // consecutive free pages; and then it changes nothing.
  lemma MallocRefuses(s: Slab, size: nat)
    requires Valid(s) && size > 0
    ensures Malloc(s, size).addr == None ==> Malloc(s, size).s == s
    ensures Malloc(s, size).addr == None <==>
      (if size >= s.limit then forall p :: !Block(s.runs, p, PagesFor(size))
       else Rooms(s, Class(size)) == [] && s.parked == [] && forall p :: !Block(s.runs, p, s.zonePages))
  {
    var n := if size >= s.limit then PagesFor(size) else s.zonePages;
    if Fits(s.runs, n) {
      var q := TakenAt(s.runs, n);
      forall k | q <= k < q + n ensures HasPage(s.runs, k) { TakenFacts(s.runs, n, k); }
      assert Block(s.runs, q, n);
    } else {
      forall p ensures !Block(s.runs, p, n) { if Block(s.runs, p, n) { FitsExactly(s.runs, p, n); } }
    }
  }

  // ---- release ----

  function Deallocated(s: Slab, x: Ptr): Slab
    requires x.page in s.blocks && (x.Chunk? ==> x.page in s.zones)
  {
    match x
    case Pages(q) => LargeFreed(s, q)
    case Chunk(p, k) => ChunkFreed(s, p, k)
  }

  // Exactly x is taken back.
  ghost predicate Removes(s: Slab, n: Slab, x: Ptr) {
    && Live(s, x) && !Live(n, x)
    && forall y :: Kept(s, n, x, y)
  }

  // Parking or releasing a zone takes nothing away, for nothing of it is handed out.
  lemma PutAsideKeeps(s: Slab, p: nat, y: Ptr)
    requires Valid(s) && p in s.zones && forall k :: !LiveSlot(s.zones[p], k)
    ensures
      var n := PutAside(s, p);
      (Live(n, y) <==> Live(s, y)) && (Live(s, y) ==> AddrOf(n, y) == AddrOf(s, y) && Extent(n, y) == Extent(s, y))
  {
    assert ZoneIn(s, p);
  }

  lemma ReleasedKeeps(s: Slab, y: Ptr)
    requires Valid(s) && s.parked != []
    ensures
      var n := Released(s);
      (Live(n, y) <==> Live(s, y)) && (Live(s, y) ==> AddrOf(n, y) == AddrOf(s, y) && Extent(n, y) == Extent(s, y))
  {
    var p := s.parked[0];
    assert p in s.parked && forall q :: q in s.parked <==> q == p || q in s.parked[1..];
    assert ZoneIn(s, p) && ZoneIn(s, y.page);
  }

  lemma ChunkBackRemoves(s: Slab, p: nat, k: nat, y: Ptr)
    requires Valid(s) && Live(s, Chunk(p, k))
    ensures !Live(ChunkBack(s, p, k), Chunk(p, k)) && Kept(s, ChunkBack(s, p, k), Chunk(p, k), y)
  {
    assert ZoneIn(s, p);
    PutOk(s.zones[p], k, p * PAGE, ZoneBytes(s));
  }

  lemma ChunkFreedRemoves(s: Slab, p: nat, k: nat)
    requires Valid(s) && Live(s, Chunk(p, k))
    ensures Removes(s, ChunkFreed(s, p, k), Chunk(p, k))
  {
    var x, n, u := Chunk(p, k), ChunkFreed(s, p, k), ChunkBack(s, p, k);
    ChunkBackValid(s, p, k);
    ChunkBackRemoves(s, p, k, x);
    var z := u.zones[p];
    forall y ensures Kept(s, n, x, y) && (Live(n, y) <==> Live(u, y)) {
      ChunkBackRemoves(s, p, k, y);
      if z.nfree == z.nmax && |Rooms(u, z.zi)| > 1 {
        assert ZoneIn(u, p);
        forall j ensures !LiveSlot(z, j) { AllFree(z, p * PAGE, ZoneBytes(u), j); }
        PutAsideValid(u, p);
        PutAsideKeeps(u, p, y);
        ReleasedKeeps(PutAside(u, p), y);
      }
    }
  }

  // rt_free takes back exactly what the address stands for, whatever becomes of its zone.
  lemma FreeTakesBack(s: Slab, x: Ptr)
    requires Valid(s) && Live(s, x)
    ensures x.page in s.blocks && Valid(Deallocated(s, x)) && Removes(s, Deallocated(s, x), x)
  {
    assert ZoneIn(s, x.page);
    match x
    case Pages(q) =>
      LargeFreedValid(s, q);
      forall y ensures Kept(s, Deallocated(s, x), x, y) { assert ZoneIn(s, y.page); }
    case Chunk(p, k) =>
      ChunkFreedValid(s, p, k);
      ChunkFreedRemoves(s, p, k);
  }

  // ---- the start ----

  lemma StartValid(zonePages: nat, limit: nat, runs: seq<Run>)
    requires zonePages >= 8 && (limit == 8192 || limit == 16384) && 4 * limit <= zonePages * PAGE && Ordered(runs)
    ensures Valid(Slab(zonePages, limit, runs, map[], map[], map[], map[], []))
  {
    var s := Slab(zonePages, limit, runs, map[], map[], map[], map[], []);
    forall p, q, k ensures PageOk(s, p, q, k) {}
    forall p ensures ZoneIn(s, p) && ParkedIn(s, p) && LargeMapped(s, p) {}
    forall p, i ensures PageMapped(s, p, i) {}
    forall zi, p ensures RoomOk(s, zi, p) {}
  }

  const USAGE_SIZE: nat := 4                     // sizeof(struct memusage)

  // The heap of npages pages rt_system_heap_init leaves: zones of 32, 64 or 128 KiB by its size, and the
  // first pages taken by the page map.
  function Initial(npages: nat): (s: Slab)
    ensures Valid(s)
  {
    var mapPages := PagesFor(npages * USAGE_SIZE);
    var zonePages := if npages <= 16384 then 8 else if npages <= 32768 then 16 else 32;
    var limit := if npages <= 16384 then 8192 else 16384;
    var runs := if mapPages < npages then [SlabPages.Run(mapPages, npages - mapPages)] else [];
    assert runs != [] ==> runs[1..] == [];
    StartValid(zonePages, limit, runs);
    Slab(zonePages, limit, runs, map[], map[], map[], map[], [])
  }

  // ---- whole histories ----

  datatype Op = Allocate(size: nat) | Release(x: Ptr)

  ghost predicate CanDo(s: Slab, op: Op) {
    op.Release? ==> Live(s, op.x)
  }

  ghost function After(s: Slab, op: Op): (n: Slab)
    requires Valid(s) && CanDo(s, op)
    ensures Valid(n)
  {
    match op
    case Allocate(size) =>
      MallocStays(s, size);
      Malloc(s, size).s
    case Release(x) => FreeTakesBack(s, x); Deallocated(s, x)
  }

  lemma MallocStays(s: Slab, size: nat)
    requires Valid(s)
    ensures Valid(Malloc(s, size).s)
  {
    if Malloc(s, size).addr.Some? {
      var x := MallocHandsOut(s, size);
    } else if size > 0 {
      MallocRefuses(s, size);
    }
  }

  ghost predicate CanRun(s: Slab, ops: seq<Op>)
    requires Valid(s)
    decreases |ops|
  {
    ops == [] || (CanDo(s, ops[0]) && CanRun(After(s, ops[0]), ops[1..]))
  }

  ghost function Run(s: Slab, ops: seq<Op>): (n: Slab)
    requires Valid(s) && CanRun(s, ops)
    ensures Valid(n)
    decreases |ops|
  {
    if ops == [] then s else Run(After(s, ops[0]), ops[1..])
  }

  // After any history, distinct things handed out share no byte, and each is found again from its
  // address.
  lemma HistoriesKeepApart(s: Slab, ops: seq<Op>, x: Ptr, y: Ptr, a: nat)
    requires Valid(s) && CanRun(s, ops)
    ensures
      var n := Run(s, ops);
      && (Live(n, x) ==> Located(n, AddrOf(n, x)) == x)
      && (Live(n, x) && Live(n, y) && Holds(n, x, a) && Holds(n, y, a) ==> x == y)
  {
    var n := Run(s, ops);
    if Live(n, x) {
      MapLeadsBack(n, x);
      if Live(n, y) && Holds(n, x, a) && Holds(n, y, a) {
        NoOverlap(n, x, y, a);
      }
    }
  }
}
