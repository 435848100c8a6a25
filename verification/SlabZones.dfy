// The zones of rt-thread/src/slab.c: size classes, and one zone of fixed-size chunks.
module SlabZones {
  import opened Division
  import opened OrderedQueue

  const PAGE: nat := 4096                        // RT_MM_PAGE_SIZE
  const HEADER: nat := 56                        // sizeof(slab_zone)
  const NZONES: nat := 72
  const CLASS_LIMIT: nat := 16384                // sizes zoneindex takes are below

  // ---- size classes ----

  // The rounding step for a request of n bytes.
  function Grain(n: nat): (g: nat)
    ensures g > 0
  {
    if n < 128 then 8
    else if n < 256 then 16
    else if n < 512 then 32
    else if n < 1024 then 64
    else if n < 2048 then 128
    else if n < 4096 then 256
    else if n < 8192 then 512
    else 1024
  }

  // The least multiple of the grain that is not below n.
  function ChunkSize(n: nat): nat {
    if n < 128 then (n + 7) / 8 * 8
    else if n < 256 then (n + 15) / 16 * 16
    else if n < 512 then (n + 31) / 32 * 32
    else if n < 1024 then (n + 63) / 64 * 64
    else if n < 2048 then (n + 127) / 128 * 128
    else if n < 4096 then (n + 255) / 256 * 256
    else if n < 8192 then (n + 511) / 512 * 512
    else (n + 1023) / 1024 * 1024
  }

  // The index a chunk size has: the same one however it was reached.
  function IndexOfSize(c: nat): int {
    if c <= 128 then c / 8 - 1
    else if c <= 256 then c / 16 + 7
    else if c <= 512 then c / 32 + 15
    else if c <= 1024 then c / 64 + 23
    else if c <= 2048 then c / 128 + 31
    else if c <= 4096 then c / 256 + 39
    else if c <= 8192 then c / 512 + 47
    else c / 1024 + 55
  }

  function Class(n: nat): int {
    IndexOfSize(ChunkSize(n))
  }

  // A chunk size is a multiple of the grain of its range.
  predicate IsChunkSize(c: nat) {
    0 < c <= CLASS_LIMIT &&
    if c <= 128 then c % 8 == 0
    else if c <= 256 then c % 16 == 0
    else if c <= 512 then c % 32 == 0
    else if c <= 1024 then c % 64 == 0
    else if c <= 2048 then c % 128 == 0
    else if c <= 4096 then c % 256 == 0
    else if c <= 8192 then c % 512 == 0
    else c % 1024 == 0
  }

  lemma Up8(n: nat)
    requires 0 < n < 128
    ensures var c := (n + 7) / 8 * 8; n <= c < n + 8 && 0 < c <= 128 && c % 8 == 0
  {
  }

  lemma Up16(n: nat)
    requires 128 <= n < 256
    ensures var c := (n + 15) / 16 * 16; n <= c < n + 16 && 128 <= c <= 256 && c % 16 == 0
  {
  }

  lemma Up32(n: nat)
    requires 256 <= n < 512
    ensures var c := (n + 31) / 32 * 32; n <= c < n + 32 && 256 <= c <= 512 && c % 32 == 0
  {
  }

  lemma Up64(n: nat)
    requires 512 <= n < 1024
    ensures var c := (n + 63) / 64 * 64; n <= c < n + 64 && 512 <= c <= 1024 && c % 64 == 0
  {
  }

  lemma Up128(n: nat)
    requires 1024 <= n < 2048
    ensures var c := (n + 127) / 128 * 128; n <= c < n + 128 && 1024 <= c <= 2048 && c % 128 == 0
  {
  }

  lemma Up256(n: nat)
    requires 2048 <= n < 4096
    ensures var c := (n + 255) / 256 * 256; n <= c < n + 256 && 2048 <= c <= 4096 && c % 256 == 0
  {
  }

  lemma Up512(n: nat)
    requires 4096 <= n < 8192
    ensures var c := (n + 511) / 512 * 512; n <= c < n + 512 && 4096 <= c <= 8192 && c % 512 == 0
  {
  }

  lemma Up1024(n: nat)
    requires 8192 <= n < 16384
    ensures var c := (n + 1023) / 1024 * 1024; n <= c < n + 1024 && 8192 <= c <= 16384 && c % 1024 == 0
  {
  }

  // A chunk is large enough, and wastes less than 8 bytes or an eighth of the request.
  lemma ChunkFits(n: nat)
    requires 0 < n < CLASS_LIMIT
    ensures n <= ChunkSize(n) < n + Grain(n) && ChunkSize(n) <= CLASS_LIMIT
    ensures ChunkSize(n) - n < 8 || 8 * (ChunkSize(n) - n) < n
    ensures IsChunkSize(ChunkSize(n))
  {
    if n < 128 {
      Up8(n);
    } else if n < 256 {
      Up16(n);
    } else if n < 512 {
      Up32(n);
    } else if n < 1024 {
      Up64(n);
    } else if n < 2048 {
      Up128(n);
    } else if n < 4096 {
      Up256(n);
    } else if n < 8192 {
      Up512(n);
    } else {
      Up1024(n);
    }
  }

  // Zones are shared by exactly the requests of one chunk size.
  lemma SameClassSameSize(m: nat, n: nat)
    requires 0 < m < CLASS_LIMIT && 0 < n < CLASS_LIMIT
    ensures Class(m) == Class(n) <==> ChunkSize(m) == ChunkSize(n)
  {
    ChunkFits(m);
    ChunkFits(n);
    if Class(m) == Class(n) {
      IndexDeterminesSize(ChunkSize(m), ChunkSize(n));
    }
  }

  lemma IndexDeterminesSize(c: nat, d: nat)
    requires IsChunkSize(c) && IsChunkSize(d) && IndexOfSize(c) == IndexOfSize(d)
    ensures c == d
  {
    IndexRange(c);
    IndexRange(d);
  }

  lemma IndexRange(c: nat)
    requires IsChunkSize(c)
    ensures c == SizeOfIndex(IndexOfSize(c))
  {
  }

  // The chunk size of a zone index.
  function SizeOfIndex(zi: int): int {
    if zi <= 15 then 8 * (zi + 1)
    else if zi <= 23 then 16 * (zi - 7)
    else if zi <= 31 then 32 * (zi - 15)
    else if zi <= 39 then 64 * (zi - 23)
    else if zi <= 47 then 128 * (zi - 31)
    else if zi <= 55 then 256 * (zi - 39)
    else if zi <= 63 then 512 * (zi - 47)
    else 1024 * (zi - 55)
  }

  // zoneindex: the zone index, and the chunk size it writes back.
  method ZoneIndex(n: nat) returns (zi: int, bytes: nat)
    requires 0 < n < CLASS_LIMIT
    ensures bytes == ChunkSize(n) && zi == Class(n)
    ensures 0 <= zi < NZONES           // RT_ASSERT of its callers
  {
    if n < 128 {
      Up8(n);
      bytes := (n + 7) / 8 * 8;
      return bytes / 8 - 1, bytes;
    }
    if n < 256 {
      Up16(n);
      bytes := (n + 15) / 16 * 16;
      return bytes / 16 + 7, bytes;
    }
    if n < 8192 {
      if n < 512 {
        Up32(n);
        bytes := (n + 31) / 32 * 32;
        return bytes / 32 + 15, bytes;
      }
      if n < 1024 {
        Up64(n);
        bytes := (n + 63) / 64 * 64;
        return bytes / 64 + 23, bytes;
      }
      if n < 2048 {
        Up128(n);
        bytes := (n + 127) / 128 * 128;
        return bytes / 128 + 31, bytes;
      }
      if n < 4096 {
        Up256(n);
        bytes := (n + 255) / 256 * 256;
        return bytes / 256 + 39, bytes;
      }
      Up512(n);
      bytes := (n + 511) / 512 * 512;
      return bytes / 512 + 47, bytes;
    }
    Up1024(n);
    bytes := (n + 1023) / 1024 * 1024;
    return bytes / 1024 + 55, bytes;
  }

  // ---- one zone ----

  datatype Zone = Zone(
    zi: int,                           // z_zoneindex
    size: nat,                         // z_chunksize
    base: nat,                         // z_baseptr
    nmax: nat,                         // z_nmax
    nfree: nat,                        // z_nfree
    uindex: nat,                       // z_uindex
    free: seq<nat>)                    // z_freechunk, as the positions of its chunks

  function ChunkAddr(z: Zone, k: nat): nat {
    z.base + k * z.size
  }

  // (n | (n - 1)) + 1 == n << 1
  predicate PowerOfTwo(n: nat) {
    n == 1 || (n > 0 && n % 2 == 0 && PowerOfTwo(n / 2))
  }

  // How many whole b fit into a.
  function Whole(a: nat, b: nat): nat
    requires b > 0
  {
    a / b
  }

  // Where the chunks start in a zone: behind the header, at a multiple of a power-of-two size.
  function Offset(size: nat): nat
    requires size > 0
  {
    if PowerOfTwo(size) then Whole(HEADER + size - 1, size) * size else HEADER
  }

  // A zone of `bytes` bytes at address start, with its first chunk handed out.
  function NewZone(start: nat, bytes: nat, size: nat): Zone
    requires size > 0 && Offset(size) <= bytes
  {
    var off := Offset(size);
    var nmax := Whole(bytes - off, size);
    Zone(IndexOfSize(size), size, start + off, nmax, if nmax > 0 then nmax - 1 else 0, 0, [])
  }

  // Slot k is handed out.
  predicate LiveSlot(z: Zone, k: nat) {
    k <= z.uindex && k !in z.free
  }

  ghost predicate ZoneOk(z: Zone, start: nat, bytes: nat) {
    && z.size > 0 && z.nmax >= 2 && z.uindex < z.nmax
    && start + HEADER <= z.base && z.base + z.nmax * z.size <= start + bytes
    && z.nfree == (z.nmax - 1 - z.uindex) + |z.free|
    && Distinct(z.free) && (forall k :: k in z.free ==> k <= z.uindex)
    && IsChunkSize(z.size) && z.zi == IndexOfSize(z.size)
  }

  lemma NewZoneOk(start: nat, bytes: nat, size: nat)
    requires IsChunkSize(size) && 4 * size <= bytes && bytes >= 32768
    ensures Offset(size) <= bytes && ZoneOk(NewZone(start, bytes, size), start, bytes)
    ensures forall k :: LiveSlot(NewZone(start, bytes, size), k) <==> k == 0
  {
    DivBounds(HEADER + size - 1, size);
    var off := Offset(size);
    assert HEADER <= off < HEADER + size;
    var nmax := Whole(bytes - off, size);
    DivBounds(bytes - off, size);
    if nmax < 2 { MulMono(nmax + 1, 2, size); }
  }

  // The next chunk of a zone: from the part never used before, or else the one freed last.
  function NextSlot(z: Zone): nat {
    if z.uindex + 1 != z.nmax then z.uindex + 1 else if z.free != [] then z.free[0] else 0
  }

  function Take(z: Zone): Zone {
    var n := z.(nfree := if z.nfree > 0 then z.nfree - 1 else 0);
    if z.uindex + 1 != z.nmax then n.(uindex := z.uindex + 1)
    else if z.free != [] then n.(free := z.free[1..])
    else n
  }

  // A count above zero is right that there is a chunk, and it is one that was not handed out.
  lemma TakeOk(z: Zone, start: nat, bytes: nat)
    requires ZoneOk(z, start, bytes) && z.nfree > 0
    ensures ZoneOk(Take(z), start, bytes) && Take(z).nfree == z.nfree - 1
    ensures z.uindex + 1 == z.nmax ==> z.free != []
    ensures NextSlot(z) < z.nmax && !LiveSlot(z, NextSlot(z))
    ensures forall k :: LiveSlot(Take(z), k) <==> LiveSlot(z, k) || k == NextSlot(z)
  {
    if z.uindex + 1 == z.nmax {
      assert z.free[0] in z.free && forall k :: k in z.free[1..] ==> k in z.free;
      assert forall k :: k in z.free <==> k == z.free[0] || k in z.free[1..];
    }
  }

  function Put(z: Zone, k: nat): Zone {
    z.(nfree := z.nfree + 1, free := [k] + z.free)
  }

  lemma PutOk(z: Zone, k: nat, start: nat, bytes: nat)
    requires ZoneOk(z, start, bytes) && LiveSlot(z, k)
    ensures ZoneOk(Put(z, k), start, bytes)
    ensures forall j :: LiveSlot(Put(z, k), j) <==> LiveSlot(z, j) && j != k
    ensures z.nfree < z.nmax
  {
    assert ([k] + z.free)[1..] == z.free;
    Spare(z.free, k, z.uindex + 1);
  }

  // Distinct numbers below n that leave one out are fewer than n.
  lemma {:induction false} Spare(xs: seq<nat>, k: nat, n: nat)
    requires Distinct(xs) && (forall x :: x in xs ==> x < n) && k < n && k !in xs
    ensures |xs| < n
    decreases n
  {
    if xs != [] {
      assert xs[0] in xs;
      var top: nat := n - 1;
      var rest := Removed(xs, top);
      forall x | x in rest ensures x < top && x in xs { InRemoved(xs, top, x); }
      RemovedDistinct(xs, top);
      RemovedOne(xs, top);
      if k < top {
        InRemoved(xs, top, k);
        Spare(rest, k, top);
      } else {
        AbsentRemoved(xs, top);
        DistinctBelow(rest, top);
      }
    }
  }

  // A zone all of whose chunks count as free has none handed out.
  lemma AllFree(z: Zone, start: nat, bytes: nat, k: nat)
    requires ZoneOk(z, start, bytes) && z.nfree == z.nmax
    ensures !LiveSlot(z, k)
  {
    if LiveSlot(z, k) { Spare(z.free, k, z.uindex + 1); }
  }

  // ---- addresses ----

  lemma SlotInside(base: nat, size: nat, k: nat, nmax: nat)
    requires k < nmax
    ensures base + k * size + size <= base + nmax * size
  {
    MulMono(k + 1, nmax, size);
    assert (k + 1) * size == k * size + size;
  }

  // A chunk lies within its zone, behind the header.
  lemma ChunkInZone(z: Zone, start: nat, bytes: nat, k: nat)
    requires ZoneOk(z, start, bytes) && k < z.nmax
    ensures start + HEADER <= ChunkAddr(z, k) && ChunkAddr(z, k) + z.size <= start + bytes
  {
    SlotInside(z.base, z.size, k, z.nmax);
  }

  // Chunks of a zone do not overlap.
  lemma ChunksApart(z: Zone, j: nat, k: nat)
    requires j < k
    ensures ChunkAddr(z, j) + z.size <= ChunkAddr(z, k)
  {
    MulMono(j + 1, k, z.size);
    assert (j + 1) * z.size == j * z.size + z.size;
  }

  function SlotAt(z: Zone, a: nat): nat
    requires z.size > 0 && a >= z.base
  {
    (a - z.base) / z.size
  }

  lemma SlotOfChunk(z: Zone, k: nat)
    requires z.size > 0
    ensures SlotAt(z, ChunkAddr(z, k)) == k
  {
    var q := k * z.size / z.size;
    DivBounds(k * z.size, z.size);
    if q < k { MulMono(q + 1, k, z.size); }
    if q > k { MulMono(k + 1, q, z.size); }
  }
}
