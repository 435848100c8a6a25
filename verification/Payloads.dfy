// What the operations on a heap do to the payload bytes of its blocks.
module Payloads {
  import opened BlockLayout
  import opened Integers
  import opened MemCopy

  // The payload of block i, as far as it lies in the memory, reads the same before and after.
  ghost predicate PayloadSame(h: Heap, i: nat, before: seq<Byte>, after: seq<Byte>)
    requires |h.at| == |h.used| + 1 && i < |h.used|
  {
    var lo, hi := h.at[i] + h.hdr, h.at[i + 1];
    lo <= hi <= |before| && hi <= |after| ==> before[lo..hi] == after[lo..hi]
  }

  // So do those of all blocks in use in h, except possibly block skip.
  ghost predicate PayloadsKept(h: Heap, skip: int, before: seq<Byte>, after: seq<Byte>)
    requires |h.at| == |h.used| + 1
  {
    && |before| == |after|
    && forall i: nat :: i < |h.used| && h.used[i] && i != skip ==> PayloadSame(h, i, before, after)
  }

  // The n bytes at dst in after are the n bytes that were at src in before.
  ghost predicate SameBytes(before: seq<Byte>, src: nat, after: seq<Byte>, dst: nat, n: int) {
    && 0 <= n && src + n <= |before| && dst + n <= |after|
    && before[src..src + n] == after[dst..dst + n]
  }

  // Overwriting a header's worth of bytes inside block i leaves every other payload alone.
  lemma HeaderWriteKeepsPayloads(h: Heap, end: nat, i: nat, p: nat, before: seq<Byte>, after: seq<Byte>)
    requires h.Tiled(end) && i < |h.used|
    requires h.at[i] <= p && p + h.hdr <= h.at[i + 1]
    requires |before| == |after|
    requires forall x :: 0 <= x < |before| && !(p <= x < p + h.hdr) ==> before[x] == after[x]
    ensures PayloadsKept(h, i, before, after)
  {
    forall k: nat | k < |h.used| && h.used[k] && k != i
      ensures PayloadSame(h, k, before, after)
    {
      Ordered(h, end, k + 1, i);
      Ordered(h, end, i + 1, k);
    }
  }

  // Bytes copied out of block i after its payload was kept are the original ones.
  lemma PayloadsCompose(h: Heap, end: nat, i: nat, count: nat, a: seq<Byte>, b: seq<Byte>)
    requires h.Tiled(end) && i < |h.used| && h.used[i] && count <= h.Payload(i) && h.at[i] + h.hdr + count <= |a|
    requires PayloadsKept(h, -1, a, b)
    requires h.at[i + 1] <= |a|
    ensures a[h.at[i] + h.hdr..h.at[i] + h.hdr + count] == b[h.at[i] + h.hdr..h.at[i] + h.hdr + count]
  {
    var lo, hi := h.at[i] + h.hdr, h.at[i + 1];
    assert PayloadSame(h, i, a, b);
    assert a[lo..hi][..count] == a[lo..lo + count] && b[lo..hi][..count] == b[lo..lo + count];
  }

  lemma KeptTransitive(h: Heap, a: seq<Byte>, b: seq<Byte>, c: seq<Byte>)
    requires |h.at| == |h.used| + 1 && PayloadsKept(h, -1, a, b) && PayloadsKept(h, -1, b, c)
    ensures PayloadsKept(h, -1, a, c)
  {
    forall i: nat | i < |h.used| && h.used[i]
      ensures PayloadSame(h, i, a, c)
    {
      assert PayloadSame(h, i, a, b) && PayloadSame(h, i, b, c);
    }
  }

  // Writing into the payload of a block that was free leaves every payload in use alone.
  lemma CopyKeepsPayloads(h: Heap, end: nat, k: nat, dst: nat, count: nat, before: seq<Byte>, after: seq<Byte>)
    requires h.Tiled(end) && k < |h.used| && !h.used[k]
    requires dst == h.at[k] + h.hdr && dst + count <= h.at[k + 1] && |before| == |after|
    requires forall x :: 0 <= x < |before| && !(dst <= x < dst + count) ==> before[x] == after[x]
    ensures PayloadsKept(h, -1, before, after)
  {
    forall j: nat | j < |h.used| && h.used[j]
      ensures PayloadSame(h, j, before, after)
    {
      Ordered(h, end, j + 1, k);
      Ordered(h, end, k + 1, j);
    }
  }

  lemma SlicesEqual(before: seq<Byte>, src: nat, after: seq<Byte>, dst: nat, n: nat)
    requires src + n <= |before| && dst + n <= |after|
    requires forall y :: dst <= y < dst + n ==> after[y] == before[y - dst + src]
    ensures before[src..src + n] == after[dst..dst + n]
  {
    var l, r := before[src..src + n], after[dst..dst + n];
    forall x | 0 <= x < n
      ensures l[x] == r[x]
    {
      assert after[dst + x] == before[dst + x - dst + src];
    }
  }

  // A copy out of the payload of block i, which had been kept since `start`, into that of block k.
  lemma CopyEffect(h: Heap, end: nat, i: nat, k: nat, n: nat, start: seq<Byte>, before: seq<Byte>, after: seq<Byte>)
    requires h.Tiled(end) && end <= |before| && |before| == |after|
    requires k < |h.used| && !h.used[k] && i < |h.used| && h.used[i] && n <= h.Payload(i) && n <= h.Payload(k)
    requires h.at[i + 1] <= |before| && h.at[k + 1] <= |before|
    requires PayloadsKept(h, -1, start, before) && CopiedTo(before, after, h.at[k] + h.hdr, h.at[i] + h.hdr, n)
    ensures SameBytes(start, h.at[i] + h.hdr, after, h.at[k] + h.hdr, n)
    ensures PayloadsKept(h, -1, start, after)
  {
    var src, dst := h.at[i] + h.hdr, h.at[k] + h.hdr;
    PayloadsCompose(h, end, i, n, start, before);
    CopyKeepsPayloads(h, end, k, dst, n, before, after);
    KeptTransitive(h, start, before, after);
    SlicesEqual(before, src, after, dst, n);
  }

  // rt_memcpy from the payload of block i, in use, into that of block k, which was free in layout h.
  // The payloads have been kept since the memory read `start`.
  method CopyPayload(ram: array<Byte>, dst: nat, src: nat, count: nat,
                     ghost h: Heap, ghost end: nat, ghost i: nat, ghost k: nat, ghost start: seq<Byte>)
    requires h.Tiled(end) && end <= ram.Length
    requires k < |h.used| && !h.used[k] && dst == h.at[k] + h.hdr && dst + count <= h.at[k + 1]
    requires i < |h.used| && h.used[i] && src == h.at[i] + h.hdr && src + count <= h.at[i + 1]
    requires PayloadsKept(h, -1, start, ram[..]) && (Unaligned(src, dst) ==> ToInt(count) >= 0)
    modifies ram
    ensures SameBytes(start, src, ram[..], dst, Carried(count))
    ensures PayloadsKept(h, -1, start, ram[..])
  {
    ghost var before := ram[..];
    Ordered(h, end, k + 1, |h.used|);
    Ordered(h, end, i + 1, |h.used|);
    Ordered(h, end, i + 1, k);
    Ordered(h, end, k + 1, i);
    Memcpy(ram, dst, src, count);
    CopyEffect(h, end, i, k, Carried(count), start, before, ram[..]);
  }
}
