// Where the pages of a slab heap (rt-thread/src/slab.c) are after any history of rt_malloc and rt_free, what
// becomes of zones that run empty, and how much is handed out for a request.
module SlabLaws {
  import opened Options
  import opened OrderedQueue
  import opened SlabPages
  import opened SlabRuns
  import opened SlabZones

  // ---- no page is lost ----

  ghost predicate Held(s: Slab, k: nat) {
    exists p :: InBlock(s, p, k)
  }

  ghost predicate Accounted(s: Slab, k: nat) {
    HasPage(s.runs, k) || Held(s, k)
  }

  lemma TakenAccounted(s: Slab, u: Slab, n: nat, k: nat)
    requires Disjoint(s) && n > 0 && Fits(s.runs, n)
    requires var q := TakenAt(s.runs, n); u.runs == Taken(s.runs, n) && u.blocks == s.blocks[q := n]
    ensures Accounted(u, k) <==> Accounted(s, k)
  {
    var q := TakenAt(s.runs, n);
    BlockTaken(s, n);
    TakenFacts(s.runs, n, k);
    assert InBlock(u, q, k) <==> q <= k < q + n;
    forall p | p != q ensures InBlock(u, p, k) <==> InBlock(s, p, k) {}
  }

  lemma FreedAccounted(s: Slab, u: Slab, q: nat, k: nat)
    requires Disjoint(s) && q in s.blocks && u.runs == Freed(s.runs, q, s.blocks[q]) && u.blocks == s.blocks - {q}
    ensures Accounted(u, k) <==> Accounted(s, k)
  {
    var n := s.blocks[q];
    forall j | q <= j < q + n ensures !HasPage(s.runs, j) { assert PageOk(s, q, q, j) && InBlock(s, q, j); }
    FreedFacts(s.runs, q, n, k);
    assert InBlock(s, q, k) <==> q <= k < q + n;
    forall p | p != q ensures InBlock(u, p, k) <==> InBlock(s, p, k) {}
  }

  lemma SameAccounted(s: Slab, u: Slab, k: nat)
    requires u.runs == s.runs && u.blocks == s.blocks
    ensures Accounted(u, k) <==> Accounted(s, k)
  {
    forall p ensures InBlock(u, p, k) <==> InBlock(s, p, k) {}
  }

  lemma SmallAccounts(s: Slab, size: nat, k: nat)
    requires Valid(s) && 0 < size < s.limit
    ensures Accounted(Malloc(s, size).s, k) <==> Accounted(s, k)
  {
    SizesOk(s, size);
    var zi := IndexOfSize(ChunkSize(size));
    if Rooms(s, zi) != [] || s.parked != [] || !Fits(s.runs, s.zonePages) {
      SameAccounted(s, Malloc(s, size).s, k);
    } else {
      TakenAccounted(s, Malloc(s, size).s, s.zonePages, k);
    }
  }

  lemma MallocAccounts(s: Slab, size: nat, k: nat)
    requires Valid(s)
    ensures Accounted(Malloc(s, size).s, k) <==> Accounted(s, k)
  {
    if 0 < size < s.limit {
      SmallAccounts(s, size, k);
    } else if Malloc(s, size).addr.Some? {
      TakenAccounted(s, Malloc(s, size).s, PagesFor(size), k);
    }
  }

  lemma FreeAccounts(s: Slab, x: Ptr, k: nat)
    requires Valid(s) && Live(s, x)
    ensures x.page in s.blocks && (Accounted(Deallocated(s, x), k) <==> Accounted(s, k))
  {
    assert ZoneIn(s, x.page);
    match x
    case Pages(q) => FreedAccounted(s, LargeFreed(s, q), q, k);
    case Chunk(p, j) =>
      var n := ChunkFreed(s, p, j);
      if n.runs == s.runs && n.blocks == s.blocks {
        SameAccounted(s, n, k);
      } else {
        FreedAccounted(s, n, p, k);
      }
  }

  lemma {:induction false} RunAccounts(s: Slab, ops: seq<Op>, k: nat)
    requires Valid(s) && CanRun(s, ops)
    ensures Accounted(SlabRuns.Run(s, ops), k) <==> Accounted(s, k)
    decreases |ops|
  {
    if ops != [] {
      match ops[0] {
        case Allocate(size) => MallocAccounts(s, size, k);
        case Release(x) => FreeAccounts(s, x, k);
      }
      RunAccounts(After(s, ops[0]), ops[1..], k);
    }
  }

  // After any history every page of the heap behind the page map is free or in exactly one block, and no
  // other page is either.
  lemma NoPageLost(npages: nat, ops: seq<Op>, k: nat, p: nat, q: nat)
    requires CanRun(Initial(npages), ops)
    ensures
      var n := SlabRuns.Run(Initial(npages), ops);
      && (PagesFor(npages * USAGE_SIZE) <= k < npages <==> HasPage(n.runs, k) || Held(n, k))
      && !(HasPage(n.runs, k) && Held(n, k))
      && (InBlock(n, p, k) && InBlock(n, q, k) ==> p == q)
  {
    var s := Initial(npages);
    RunAccounts(s, ops, k);
    var n := SlabRuns.Run(s, ops);
    if InBlock(n, p, k) && InBlock(n, q, k) { OneBlock(n, p, q, k); }
    forall b ensures !(HasPage(n.runs, k) && InBlock(n, b, k)) { assert PageOk(n, b, b, k); }
    AtFirst(npages, k);
  }

  lemma AtFirst(npages: nat, k: nat)
    ensures !Held(Initial(npages), k)
    ensures HasPage(Initial(npages).runs, k) <==> PagesFor(npages * USAGE_SIZE) <= k < npages
  {
    var runs := Initial(npages).runs;
    if runs != [] { assert runs[1..] == [] && !HasPage(runs[1..], k); }
  }

  // ---- where a request is served from ----

  // Pages are taken from the free ones for a large request, or if no zone of the class has room and none is
  // parked.
  lemma PagesLast(s: Slab, size: nat)
    requires Valid(s) && Malloc(s, size).addr.Some?
    ensures size > 0
    ensures Malloc(s, size).s.runs == s.runs <==>
              size < s.limit && (Rooms(s, Class(size)) != [] || s.parked != [])
  {
    var n := Malloc(s, size).s;
    var pages := if size >= s.limit then PagesFor(size) else s.zonePages;
    if size >= s.limit || (Rooms(s, Class(size)) == [] && s.parked == []) {
      var q := TakenAt(s.runs, pages);
      TakenFacts(s.runs, pages, q);
      assert HasPage(s.runs, q) && !HasPage(n.runs, q);
    }
  }

  // ---- zones that run empty ----

  // Another zone of p's class has room.
  ghost predicate OtherRoom(s: Slab, p: nat) {
    exists q :: RoomAt(s, p, q)
  }

  ghost predicate RoomAt(s: Slab, p: nat, q: nat) {
    p in s.zones && q != p && q in s.zones && s.zones[q].zi == s.zones[p].zi && s.zones[q].nfree > 0
  }

  ghost predicate LastChunk(s: Slab, p: nat, k: nat) {
    forall j :: Live(s, Chunk(p, j)) <==> j == k
  }

  // A zone whose last chunk is freed goes on serving its class if no other zone of the class has room. Else it
  // is put aside to be opened again for any class, unless two are put aside already: then its pages are free.
  lemma EmptiedZone(s: Slab, p: nat, k: nat)
    requires Valid(s) && |s.parked| <= 2 && Live(s, Chunk(p, k))
    ensures p in s.blocks
    ensures
      var n := Deallocated(s, Chunk(p, k));
      if !LastChunk(s, p, k) || !OtherRoom(s, p) then
        p in n.zones && n.parked == s.parked && n.runs == s.runs
      else
        && p !in n.zones
        && if |s.parked| < 2 then n.parked == [p] + s.parked && n.runs == s.runs
           else n.parked == s.parked && p !in n.blocks && forall i :: p <= i < p + s.zonePages ==> HasPage(n.runs, i)
  {
    assert ZoneIn(s, p);
    Empties(s, p, k);
    assert ([p] + s.parked)[1..] == s.parked;
    if LastChunk(s, p, k) && OtherRoom(s, p) && |s.parked| == 2 {
      forall i | p <= i < p + s.zonePages ensures HasPage(Freed(s.runs, p, s.zonePages), i) { FreedPages(s, p, i); }
    }
  }

  // The test rt_free makes once the chunk is back.
  lemma Empties(s: Slab, p: nat, k: nat)
    requires Valid(s) && Live(s, Chunk(p, k))
    ensures
      var u := ChunkBack(s, p, k);
      u.zones[p].nfree == u.zones[p].nmax && |Rooms(u, u.zones[p].zi)| > 1 <==> LastChunk(s, p, k) && OtherRoom(s, p)
  {
    var u := ChunkBack(s, p, k);
    assert ZoneIn(s, p);
    PutOk(s.zones[p], k, p * PAGE, ZoneBytes(s));
    EmptyCounts(u.zones[p], p * PAGE, ZoneBytes(u));
    assert (forall j :: !LiveSlot(u.zones[p], j)) <==> LastChunk(s, p, k) by {
      forall j ensures LiveSlot(u.zones[p], j) <==> Live(s, Chunk(p, j)) && j != k {}
    }
    ChunkBackValid(s, p, k);
    OthersHaveRoom(u, p);
    forall q ensures RoomAt(u, p, q) <==> RoomAt(s, p, q) {}
  }

  lemma FreedPages(s: Slab, p: nat, i: nat)
    requires Disjoint(s) && p in s.blocks && InBlock(s, p, i)
    ensures HasPage(Freed(s.runs, p, s.blocks[p]), i)
  {
    forall j | p <= j < p + s.blocks[p] ensures !HasPage(s.runs, j) { assert PageOk(s, p, p, j) && InBlock(s, p, j); }
    FreedFacts(s.runs, p, s.blocks[p], i);
  }

  // A zone with nothing handed out has the count of all its chunks, and only such a zone.
  lemma EmptyCounts(z: Zone, start: nat, bytes: nat)
    requires ZoneOk(z, start, bytes)
    ensures z.nfree == z.nmax <==> forall k :: !LiveSlot(z, k)
  {
    if z.nfree == z.nmax {
      forall k ensures !LiveSlot(z, k) { AllFree(z, start, bytes, k); }
    } else if forall k :: !LiveSlot(z, k) {
      forall k | 0 <= k < z.uindex + 1 ensures k in z.free { assert !LiveSlot(z, k); }
      AtLeast(z.free, z.uindex + 1);
      DistinctBelow(z.free, z.uindex + 1);
    }
  }

  // A list of all numbers below n, each once, has at least n entries.
  lemma {:induction false} AtLeast(xs: seq<nat>, n: nat)
    requires Distinct(xs) && forall k :: 0 <= k < n ==> k in xs
    ensures |xs| >= n
    decreases n
  {
    if n > 0 {
      var top: nat := n - 1;
      RemovedOne(xs, top);
      RemovedDistinct(xs, top);
      forall k | 0 <= k < top ensures k in Removed(xs, top) { InRemoved(xs, top, k); }
      AtLeast(Removed(xs, top), top);
    }
  }

  // A zone with room is alone on its list exactly if no other zone of its class has room.
  lemma OthersHaveRoom(s: Slab, p: nat)
    requires Valid(s) && p in s.zones && s.zones[p].nfree > 0
    ensures |Rooms(s, s.zones[p].zi)| > 1 <==> OtherRoom(s, p)
  {
    var zi := s.zones[p].zi;
    var list := Rooms(s, zi);
    assert RoomOk(s, zi, p) && p in list && Distinct(list);
    if |list| > 1 {
      var q := if list[0] == p then list[1] else list[0];
      assert list[1] in list[1..];
      assert q in list && q != p && RoomOk(s, zi, q) && RoomAt(s, p, q);
    }
    if OtherRoom(s, p) {
      var q :| RoomAt(s, p, q);
      assert RoomOk(s, zi, q) && q in list;
    }
  }

  // No more than two zones are ever put aside.
  lemma {:induction false} FewPutAside(s: Slab, ops: seq<Op>)
    requires Valid(s) && |s.parked| <= 2 && CanRun(s, ops)
    ensures |SlabRuns.Run(s, ops).parked| <= 2
    decreases |ops|
  {
    if ops != [] {
      if ops[0].Release? && ops[0].x.Chunk? { EmptiedZone(s, ops[0].x.page, ops[0].x.slot); }
      FewPutAside(After(s, ops[0]), ops[1..]);
    }
  }
}
