// The alignment of what rt_malloc of rt-thread/src/slab.c hands out: its comments promise that requests
// of a power of two are aligned to it.
module SlabAlignment {
  import opened Division
  import opened Options
  import opened SlabPages
  import opened SlabRuns
  import opened SlabZones

  predicate SmallPower(n: nat) {
    n == 1 || n == 2 || n == 4 || n == 8 || n == 16 || n == 32 || n == 64 || n == 128 || n == 256 || n == 512
    || n == 1024 || n == 2048 || n == 4096 || n == 8192
  }

  lemma {:induction false} SmallPowers(n: nat)
    requires PowerOfTwo(n) && n < CLASS_LIMIT
    ensures SmallPower(n)
  {
    if n > 1 {
      SmallPowers(n / 2);
    }
  }

  lemma Distribute(a: nat, b: nat, c: nat)
    ensures a * c + b * c == (a + b) * c
  {
  }

  // The chunks of a zone start where rt_malloc put them when it opened the zone.
  ghost predicate BaseOk(s: Slab, p: nat) {
    p in s.zones ==> s.zones[p].size > 0 && s.zones[p].base == p * PAGE + Offset(s.zones[p].size)
  }

  ghost predicate Based(s: Slab) {
    forall p :: BaseOk(s, p)
  }

  lemma FromRoomBased(s: Slab, zi: int)
    requires Based(s) && Rooms(s, zi) != [] && Rooms(s, zi)[0] in s.zones
    ensures Based(FromRoom(s, zi).s)
  {
    forall p ensures BaseOk(FromRoom(s, zi).s, p) { assert BaseOk(s, p); }
  }

  lemma OpenZoneBased(s: Slab, q: nat, size: nat)
    requires Based(s) && size > 0 && Offset(size) <= ZoneBytes(s)
    ensures Based(OpenZone(s, q, size).s)
  {
    forall p ensures BaseOk(OpenZone(s, q, size).s, p) { assert BaseOk(s, p); }
  }

  lemma SameZones(s: Slab, n: Slab)
    requires Based(s) && n.zones == s.zones
    ensures Based(n)
  {
    forall p ensures BaseOk(n, p) { assert BaseOk(s, p); }
  }

  lemma MallocBased(s: Slab, size: nat)
    requires Valid(s) && Based(s)
    ensures Based(Malloc(s, size).s)
  {
    if 0 < size < s.limit {
      SizesOk(s, size);
      var c := ChunkSize(size);
      if Rooms(s, IndexOfSize(c)) != [] {
        FromRoomBased(s, IndexOfSize(c));
      } else if s.parked != [] {
        SameZones(s, s.(parked := s.parked[1..]));
        OpenZoneBased(s.(parked := s.parked[1..]), s.parked[0], c);
      } else if Fits(s.runs, s.zonePages) {
        SameZones(s, PagesTaken(s));
        OpenZoneBased(PagesTaken(s), TakenAt(s.runs, s.zonePages), c);
      }
    } else {
      SameZones(s, Malloc(s, size).s);
    }
  }

  lemma FreeBased(s: Slab, x: Ptr)
    requires Valid(s) && Based(s) && Live(s, x)
    ensures x.page in s.blocks && Based(Deallocated(s, x))
  {
    FreeTakesBack(s, x);
    var n := Deallocated(s, x);
    forall p ensures BaseOk(n, p) { assert BaseOk(s, p); }
  }

  lemma {:induction false} AlwaysBased(s: Slab, ops: seq<Op>)
    requires Valid(s) && Based(s) && CanRun(s, ops)
    ensures Based(SlabRuns.Run(s, ops))
    decreases |ops|
  {
    if ops != [] {
      match ops[0] {
        case Allocate(size) => MallocBased(s, size);
        case Release(x) => FreeBased(s, x);
      }
      AlwaysBased(After(s, ops[0]), ops[1..]);
    }
  }

  // Chunks of a power-of-two size lie off it by as much as their zone does.
  lemma PowerAligned(start: nat, size: nat, k: nat, heapStart: nat)
    requires PowerOfTwo(size)
    ensures size > 0 && (heapStart + start + Offset(size) + k * size) % size == (heapStart + start) % size
  {
    var q := Whole(HEADER + size - 1, size);
    Distribute(q, k, size);
    ModTimes(heapStart + start, q + k, size);
  }

  // The first page of the zone or block that serves a request.
  function HomePage(s: Slab, size: nat): nat
    requires Valid(s) && Malloc(s, size).addr.Some?
  {
    if size >= s.limit then TakenAt(s.runs, PagesFor(size))
    else
      SizesOk(s, size);
      var zi := IndexOfSize(ChunkSize(size));
      if Rooms(s, zi) != [] then Rooms(s, zi)[0]
      else if s.parked != [] then s.parked[0]
      else TakenAt(s.runs, s.zonePages)
  }

  // A small request is served by a chunk of the zone that starts at its home page.
  lemma ChunkAtHome(s: Slab, size: nat) returns (k: nat)
    requires Valid(s) && Based(s) && 0 < size < s.limit && Malloc(s, size).addr.Some?
    ensures
      var c := ChunkSize(size);
      c > 0 && Malloc(s, size).addr == Some(HomePage(s, size) * PAGE + Offset(c) + k * c)
  {
    SizesOk(s, size);
    var c, p := ChunkSize(size), HomePage(s, size);
    var zi := IndexOfSize(c);
    if Rooms(s, zi) != [] {
      k := NextSlot(s.zones[p]);
      assert p in Rooms(s, zi) && RoomOk(s, zi, p) && ZoneIn(s, p) && BaseOk(s, p);
      IndexDeterminesSize(s.zones[p].size, c);
    } else {
      k := 0;
    }
  }

  lemma RoundPower(size: nat)
    requires SmallPower(size)
    ensures PowerOfTwo(ChunkSize(size)) && ChunkSize(size) == if size < 8 then 8 else size
  {
    var c := ChunkSize(size);
    assert c == if size < 8 then 8 else size;
    assert PowerOfTwo(1) && PowerOfTwo(2) && PowerOfTwo(4) && PowerOfTwo(8);
    assert PowerOfTwo(c) by {
      if size >= 8 { Halves(size); }
    }
  }

  lemma {:induction false} Halves(n: nat)
    requires SmallPower(n)
    ensures PowerOfTwo(n)
  {
    if n > 1 {
      Halves(n / 2);
    }
  }

  lemma PageMultiple(page: nat, size: nat)
    requires SmallPower(size) && size <= PAGE
    ensures page * PAGE % size == 0
  {
    var m := PAGE / size;
    assert PAGE == m * size;
    assert page * PAGE == 0 + (page * m) * size;
    ModTimes(0, page * m, size);
  }

  // Up to the page size a multiple of the chunk size is one of the request.
  lemma SmallAligned(a: nat, p: nat, size: nat)
    requires SmallPower(size) && size <= PAGE && p % PAGE == 0 && a % ChunkSize(size) == p % ChunkSize(size)
    ensures a % size == 0 && p % size == 0
  {
    RoundPower(size);
    MultipleOfPage(p, size);
    MultipleOfPage(p, ChunkSize(size));
    if size < 8 {
      Eights(a, size);
    }
  }

  lemma MultipleOfPage(p: nat, size: nat)
    requires SmallPower(size) && size <= PAGE && p % PAGE == 0
    ensures p % size == 0
  {
    assert p == p / PAGE * PAGE;
    PageMultiple(p / PAGE, size);
  }

  lemma Eights(a: nat, size: nat)
    requires a % 8 == 0 && (size == 1 || size == 2 || size == 4)
    ensures a % size == 0
  {
    var q := a / 8;
    if size == 4 {
      assert a == 0 + (2 * q) * 4;
      ModTimes(0, 2 * q, 4);
    } else if size == 2 {
      assert a == 0 + (4 * q) * 2;
      ModTimes(0, 4 * q, 2);
    }
  }

  lemma SmallMallocAligned(s: Slab, size: nat, heapStart: nat)
    requires Valid(s) && Based(s) && PowerOfTwo(size) && size < s.limit && Malloc(s, size).addr.Some?
    ensures
      var c := ChunkSize(size);
      SmallPower(size) && c > 0 && (heapStart + Malloc(s, size).addr.value) % c
        == (heapStart + HomePage(s, size) * PAGE) % c
  {
    SmallPowers(size);
    RoundPower(size);
    var k := ChunkAtHome(s, size);
    PowerAligned(HomePage(s, size) * PAGE, ChunkSize(size), k, heapStart);
  }

  lemma LargeAtHome(s: Slab, size: nat)
    requires Valid(s) && size >= s.limit && Malloc(s, size).addr.Some?
    ensures Malloc(s, size).addr.value == HomePage(s, size) * PAGE
  {
  }

  lemma PageAligned(a: nat, page: nat, size: nat, heapStart: nat)
    requires SmallPower(size) && size <= PAGE && heapStart % PAGE == 0
    requires (heapStart + a) % ChunkSize(size) == (heapStart + page * PAGE) % ChunkSize(size)
    ensures (heapStart + a) % size == 0
  {
    OnPage(heapStart, page);
    SmallAligned(heapStart + a, heapStart + page * PAGE, size);
  }

  lemma OnPage(heapStart: nat, page: nat)
    requires heapStart % PAGE == 0
    ensures (heapStart + page * PAGE) % PAGE == 0
  {
  }

  lemma UpToPage(s: Slab, size: nat, heapStart: nat)
    requires Valid(s) && Based(s) && PowerOfTwo(size) && size <= PAGE
      && Malloc(s, size).addr.Some? && heapStart % PAGE == 0
    ensures (heapStart + Malloc(s, size).addr.value) % size == 0
  {
    SmallMallocAligned(s, size, heapStart);
    PageAligned(Malloc(s, size).addr.value, HomePage(s, size), size, heapStart);
  }

  lemma AbovePage(s: Slab, size: nat, heapStart: nat)
    requires Valid(s) && Based(s) && PowerOfTwo(size) && size > PAGE && Malloc(s, size).addr.Some?
    ensures (heapStart + Malloc(s, size).addr.value) % size == (heapStart + HomePage(s, size) * PAGE) % size
  {
    if size < s.limit {
      SmallMallocAligned(s, size, heapStart);
      RoundPower(size);
    } else {
      LargeAtHome(s, size);
    }
  }

  predicate IsMultiple(a: nat, size: nat)
    requires size > 0
  {
    a % size == 0
  }

  lemma AlignedExactly(s: Slab, size: nat, heapStart: nat)
    requires Valid(s) && Based(s) && PowerOfTwo(size) && Malloc(s, size).addr.Some? && heapStart % PAGE == 0
    ensures
      IsMultiple(heapStart + Malloc(s, size).addr.value, size) <==>
      size <= PAGE || IsMultiple(heapStart + HomePage(s, size) * PAGE, size)
  {
    if size <= PAGE {
      UpToPage(s, size, heapStart);
    } else {
      AbovePage(s, size, heapStart);
    }
  }

  // After any history a request of a power of two is answered with an address that is off that power by
  // as much as the first page of the zone or block that serves it. So the promise is kept up to the page
  // size, and above it exactly when that page lies at a multiple of the request.
  lemma MallocAligned(npages: nat, ops: seq<Op>, size: nat, heapStart: nat)
    requires CanRun(Initial(npages), ops) && PowerOfTwo(size) && heapStart % PAGE == 0
    requires Malloc(SlabRuns.Run(Initial(npages), ops), size).addr.Some?
    ensures
      var s := SlabRuns.Run(Initial(npages), ops);
      IsMultiple(heapStart + Malloc(s, size).addr.value, size) <==>
      size <= PAGE || IsMultiple(heapStart + HomePage(s, size) * PAGE, size)
  {
    BasedAtFirst(npages);
    AlwaysBased(Initial(npages), ops);
    AlignedExactly(SlabRuns.Run(Initial(npages), ops), size, heapStart);
  }

  lemma BasedAtFirst(npages: nat)
    ensures Based(Initial(npages))
  {
    forall p ensures BaseOk(Initial(npages), p) {}
  }

  // Above it the promise is broken: in the smallest heap with zones of 64 KiB the page map takes 17 pages,
  // and the first request of 8192 bytes is not answered with a multiple of 8192.
  lemma NotAlignedAbovePage()
    ensures
      var s := Initial(16385);
      Malloc(s, 8192).addr.Some? && Malloc(s, 8192).addr.value % 8192 == 4096
  {
    var s := Initial(16385);
    SizesOk(s, 8192);
    assert ChunkSize(8192) == 8192;
    assert Rooms(s, IndexOfSize(8192)) == [] && Fits(s.runs, 16) && TakenAt(s.runs, 16) == 17;
    assert Malloc(s, 8192) == SmallAllocated(s, 8192);
    assert Malloc(s, 8192).addr.Some?;
    Halves(8192);
    BasedAtFirst(16385);
    AbovePage(s, 8192, 0);
    assert HomePage(s, 8192) == 17;
  }
}
