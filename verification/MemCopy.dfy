// rt_memcpy (rt-thread/src/kservice.c): word-wise block copy with a byte-wise rest.
// Addresses are offsets into one memory whose base is word-aligned.
module MemCopy {
  import opened Integers

  newtype Byte = x: int | 0 <= x < 256

  const LITTLEBLOCKSIZE: nat := 8     // sizeof (long)
  const BIGBLOCKSIZE: nat := 32       // sizeof (long) << 2

  predicate Unaligned(dst: nat, src: nat) {
    dst % LITTLEBLOCKSIZE != 0 || src % LITTLEBLOCKSIZE != 0
  }

  // The number of bytes rt_memcpy copies when asked for count: it keeps the length in an int.
  function Carried(count: int): (n: nat)
    ensures count >= 0 ==> n <= count && (n == count <==> count < 0x1_0000_0000)
  {
    count % 0x1_0000_0000
  }

  // The bytes an int length still stands for.
  function Left(len: int): nat
    requires -0x8000_0000 <= len < 0x8000_0000
  {
    if len >= 0 then len else len + 0x1_0000_0000
  }

  lemma LeftOfInt(n: nat)
    ensures Left(ToInt(n)) == Carried(n)
  {
  }

  // Taking a block off the length, in unsigned long, takes it off what is left, also across the sign.
  lemma LessLeft(len: int, n: nat)
    requires -0x8000_0000 <= len < 0x8000_0000 && n <= 32 && ToUnsigned(len) >= n
    ensures Left(ToInt(ToUnsigned(len) - n)) == Left(len) - n
  {
    var m := ToUnsigned(len) - n;
    if len < 0 {
      assert m == (len + 0x1_0000_0000 - n) + 0xFFFF_FFFF * 0x1_0000_0000;
      assert m % 0x1_0000_0000 == len + 0x1_0000_0000 - n;
    }
  }

  lemma LessWord(len: nat)
    requires LITTLEBLOCKSIZE <= len < BIGBLOCKSIZE
    ensures ToInt(ToUnsigned(len) - LITTLEBLOCKSIZE) == len - LITTLEBLOCKSIZE
  {
  }

  // The count bytes at dst in after are those at src in before; nothing else differs.
  ghost predicate CopiedTo(before: seq<Byte>, after: seq<Byte>, dst: nat, src: nat, count: nat)
    requires |before| == |after| && dst + count <= |before| && src + count <= |before|
  {
    && (forall x :: dst <= x < dst + count ==> after[x] == before[x - dst + src])
    && (forall x :: 0 <= x < |before| && !(dst <= x < dst + count) ==> after[x] == before[x])
  }

  // A copy of done bytes followed by one of the n behind them is a copy of both.
  lemma CopiedOn(a: seq<Byte>, b: seq<Byte>, c: seq<Byte>, dst: nat, src: nat, done: nat, n: nat)
    requires |a| == |b| == |c| && dst + done + n <= |a| && src + done + n <= |a|
    requires dst + done + n <= src || src + done + n <= dst
    requires CopiedTo(a, b, dst, src, done) && CopiedTo(b, c, dst + done, src + done, n)
    ensures CopiedTo(a, c, dst, src, done + n)
  {
    forall x | dst <= x < dst + done + n ensures c[x] == a[x - dst + src] {
      if x >= dst + done {
        assert c[x] == b[x - (dst + done) + (src + done)];
      }
    }
  }

  // One `*dst++ = *src++` on long pointers: the word is read whole, then stored.
  method CopyWord(mem: array<Byte>, dst: nat, src: nat)
    requires dst + LITTLEBLOCKSIZE <= mem.Length && src + LITTLEBLOCKSIZE <= mem.Length
    modifies mem
    ensures CopiedTo(old(mem[..]), mem[..], dst, src, LITTLEBLOCKSIZE)
  {
    forall x | dst <= x < dst + LITTLEBLOCKSIZE {
      mem[x] := mem[x - dst + src];
    }
  }

  method CopyTwoWords(mem: array<Byte>, dst: nat, src: nat)
    requires dst + 16 <= mem.Length && src + 16 <= mem.Length
    requires dst + 16 <= src || src + 16 <= dst
    modifies mem
    ensures CopiedTo(old(mem[..]), mem[..], dst, src, 16)
  {
    ghost var m0 := mem[..];
    CopyWord(mem, dst, src);
    ghost var m1 := mem[..];
    CopyWord(mem, dst + 8, src + 8);
    CopiedOn(m0, m1, mem[..], dst, src, 8, 8);
  }

  method CopyBigBlock(mem: array<Byte>, dst: nat, src: nat)
    requires dst + BIGBLOCKSIZE <= mem.Length && src + BIGBLOCKSIZE <= mem.Length
    requires dst + BIGBLOCKSIZE <= src || src + BIGBLOCKSIZE <= dst
    modifies mem
    ensures CopiedTo(old(mem[..]), mem[..], dst, src, BIGBLOCKSIZE)
  {
    ghost var m0 := mem[..];
    CopyTwoWords(mem, dst, src);
    ghost var m1 := mem[..];
    CopyTwoWords(mem, dst + 16, src + 16);
    CopiedOn(m0, m1, mem[..], dst, src, 16, 16);
  }

  // Four long words at a time: what is left is less.
  method CopyBigBlocks(mem: array<Byte>, dst: nat, src: nat, count: nat) returns (len: int)
    requires dst + count <= mem.Length && src + count <= mem.Length
    requires dst + count <= src || src + count <= dst
    modifies mem
    ensures 0 <= len < BIGBLOCKSIZE && len <= Carried(count)
    ensures CopiedTo(old(mem[..]), mem[..], dst, src, Carried(count) - len)
  {
    ghost var total, m0 := Carried(count), mem[..];
    LeftOfInt(count);
    len := ToInt(count);
    var at := 0;
    while ToUnsigned(len) >= BIGBLOCKSIZE
      invariant -0x8000_0000 <= len < 0x8000_0000 && at == total - Left(len)
      invariant CopiedTo(m0, mem[..], dst, src, at)
      decreases Left(len)
    {
      ghost var m := mem[..];
      LessLeft(len, BIGBLOCKSIZE);
      CopyBigBlock(mem, dst + at, src + at);
      CopiedOn(m0, m, mem[..], dst, src, at, BIGBLOCKSIZE);
      len := ToInt(ToUnsigned(len) - BIGBLOCKSIZE);
      at := at + BIGBLOCKSIZE;
    }
  }

  // One long word at a time, from `at` on.
  method CopyWords(mem: array<Byte>, dst: nat, src: nat, at: nat, length: nat) returns (len: int)
    requires length < BIGBLOCKSIZE && dst + at + length <= mem.Length && src + at + length <= mem.Length
    requires dst + at + length <= src || src + at + length <= dst
    modifies mem
    ensures 0 <= len <= length
    ensures CopiedTo(old(mem[..]), mem[..], dst + at, src + at, length - len)
  {
    ghost var m0 := mem[..];
    len := length;
    while ToUnsigned(len) >= LITTLEBLOCKSIZE
      invariant 0 <= len <= length
      invariant CopiedTo(m0, mem[..], dst + at, src + at, length - len)
    {
      ghost var m := mem[..];
      var done := length - len;
      LessWord(len);
      CopyWord(mem, dst + at + done, src + at + done);
      CopiedOn(m0, m, mem[..], dst + at, src + at, done, LITTLEBLOCKSIZE);
      len := ToInt(ToUnsigned(len) - LITTLEBLOCKSIZE);
    }
  }

  // The residual, byte by byte.
  method CopyBytes(mem: array<Byte>, dst: nat, src: nat, length: nat)
    requires dst + length <= mem.Length && src + length <= mem.Length
    requires dst + length <= src || src + length <= dst
    modifies mem
    ensures CopiedTo(old(mem[..]), mem[..], dst, src, length)
  {
    ghost var m0 := mem[..];
    var len := length;
    while len != 0
      invariant 0 <= len <= length && CopiedTo(m0, mem[..], dst, src, length - len)
    {
      ghost var m := mem[..];
      var done := length - len;
      mem[dst + done] := mem[src + done];
      CopiedOn(m0, m, mem[..], dst, src, done, 1);
      len := len - 1;
    }
  }

  method CopyAligned(mem: array<Byte>, dst: nat, src: nat, count: nat) returns (len: nat)
    requires dst + count <= mem.Length && src + count <= mem.Length
    requires dst + count <= src || src + count <= dst
    modifies mem
    ensures len <= Carried(count)
    ensures CopiedTo(old(mem[..]), mem[..], dst, src, Carried(count) - len)
  {
    ghost var m0 := mem[..];
    var rest := CopyBigBlocks(mem, dst, src, count);
    ghost var m := mem[..];
    len := CopyWords(mem, dst, src, Carried(count) - rest, rest);
    CopiedOn(m0, m, mem[..], dst, src, Carried(count) - rest, rest - len);
  }

  // What is copied before the byte loop, and how much is left for it.
  method CopyFront(mem: array<Byte>, dst: nat, src: nat, count: nat) returns (len: nat)
    requires dst + count <= mem.Length && src + count <= mem.Length
    requires dst + count <= src || src + count <= dst
    requires Unaligned(src, dst) ==> ToInt(count) >= 0
    modifies mem
    ensures len <= Carried(count)
    ensures CopiedTo(old(mem[..]), mem[..], dst, src, Carried(count) - len)
  {
    LeftOfInt(count);
    if ToUnsigned(ToInt(count)) >= BIGBLOCKSIZE && !Unaligned(src, dst) {
      len := CopyAligned(mem, dst, src, count);
    } else {
      len := ToInt(count);
    }
  }

  // rt_memcpy. It copies all that is asked for exactly when that is below 4 GiB. The byte loop on a
  // negative int has no defined meaning, and is only reached with unaligned pointers.
  method Memcpy(mem: array<Byte>, dst: nat, src: nat, count: nat)
    requires dst + count <= mem.Length && src + count <= mem.Length
    requires dst + count <= src || src + count <= dst
    requires Unaligned(src, dst) ==> ToInt(count) >= 0
    modifies mem
    ensures CopiedTo(old(mem[..]), mem[..], dst, src, Carried(count))
  {
    ghost var m0 := mem[..];
    var len := CopyFront(mem, dst, src, count);
    ghost var m := mem[..];
    var at := Carried(count) - len;
    CopyBytes(mem, dst + at, src + at, len);
    CopiedOn(m0, m, mem[..], dst, src, at, len);
  }
}
