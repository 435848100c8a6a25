// Bit groups of 32 priorities and __rt_ffs (rt-thread/src/kservice.c), on 32-bit words taken as numbers.
module Bits {
  const WORD: nat := 0x1_0000_0000

  predicate Bit(v: nat, k: nat)
    decreases k
  {
    if k == 0 then v % 2 == 1 else Bit(v / 2, k - 1)
  }

  // v | 1 << k
  function WithBit(v: nat, k: nat): nat
    decreases k
  {
    if k == 0 then v / 2 * 2 + 1 else 2 * WithBit(v / 2, k - 1) + v % 2
  }

  // v & ~(1 << k)
  function WithoutBit(v: nat, k: nat): nat
    decreases k
  {
    if k == 0 then v / 2 * 2 else 2 * WithoutBit(v / 2, k - 1) + v % 2
  }

  function Pow2(n: nat): (p: nat)
    ensures p > 0
  {
    if n == 0 then 1 else 2 * Pow2(n - 1)
  }

  lemma {:induction false} WithBitSets(v: nat, k: nat, j: nat)
    ensures Bit(WithBit(v, k), j) <==> Bit(v, j) || j == k
    decreases k
  {
    if k == 0 {
      assert WithBit(v, 0) / 2 == v / 2;
    } else {
      var w := WithBit(v / 2, k - 1);
      assert (2 * w + v % 2) / 2 == w && (2 * w + v % 2) % 2 == v % 2;
      if j > 0 { WithBitSets(v / 2, k - 1, j - 1); }
    }
  }

  lemma {:induction false} WithoutBitClears(v: nat, k: nat, j: nat)
    ensures Bit(WithoutBit(v, k), j) <==> Bit(v, j) && j != k
    decreases k
  {
    if k == 0 {
      assert WithoutBit(v, 0) / 2 == v / 2;
    } else {
      var w := WithoutBit(v / 2, k - 1);
      assert (2 * w + v % 2) / 2 == w && (2 * w + v % 2) % 2 == v % 2;
      if j > 0 { WithoutBitClears(v / 2, k - 1, j - 1); }
    }
  }

  lemma {:induction false} StaysBelow(v: nat, k: nat, n: nat)
    requires v < Pow2(n) && k < n
    ensures WithBit(v, k) < Pow2(n) && WithoutBit(v, k) < Pow2(n)
    decreases n
  {
    if k > 0 {
      StaysBelow(v / 2, k - 1, n - 1);
    }
  }

  lemma {:induction false} ZeroHasNoBit(k: nat)
    ensures !Bit(0, k)
    decreases k
  {
    if k > 0 { ZeroHasNoBit(k - 1); }
  }

  // ---- find first set ----

  // __lowest_bit_bitmap, in rows of 16.
  const TAIL: seq<nat> := [0, 1, 0, 2, 0, 1, 0, 3, 0, 1, 0, 2, 0, 1, 0]
  const LOWEST_BIT: seq<seq<nat>> := [
    [0] + TAIL, [4] + TAIL, [5] + TAIL, [4] + TAIL, [6] + TAIL, [4] + TAIL, [5] + TAIL, [4] + TAIL,
    [7] + TAIL, [4] + TAIL, [5] + TAIL, [4] + TAIL, [6] + TAIL, [4] + TAIL, [5] + TAIL, [4] + TAIL]

  function LowestBit(b: nat): nat
    requires b < 256
  {
    LOWEST_BIT[b / 16][b % 16]
  }

  function Ffs(value: nat): nat
    requires value < WORD
  {
    if value == 0 then 0
    else if value % 0x100 != 0 then LowestBit(value % 0x100) + 1
    else if value / 0x100 % 0x100 != 0 then LowestBit(value / 0x100 % 0x100) + 9
    else if value / 0x1_0000 % 0x100 != 0 then LowestBit(value / 0x1_0000 % 0x100) + 17
    else LowestBit(value / 0x100_0000) + 25
  }

  ghost predicate IsLowest(v: nat, k: nat) {
    Bit(v, k) && forall j: nat :: j < k ==> !Bit(v, j)
  }

  // The least set bit, the plain way.
  function Least(v: nat): nat
    requires v > 0
    decreases v
  {
    if v % 2 == 1 then 0 else 1 + Least(v / 2)
  }

  lemma {:induction false} LeastIsLowest(v: nat)
    requires v > 0
    ensures IsLowest(v, Least(v))
    decreases v
  {
    if v % 2 == 0 {
      LeastIsLowest(v / 2);
      forall j: nat | j < Least(v) ensures !Bit(v, j) {
        if j > 0 { assert !Bit(v / 2, j - 1); }
      }
    }
  }

  // Over n low zero bits the least set bit is n further up.
  lemma {:induction false} LeastAbove(h: nat, n: nat)
    requires h > 0
    ensures Pow2(n) * h > 0 && Least(Pow2(n) * h) == n + Least(h)
    decreases n
  {
    if n > 0 {
      LeastAbove(h, n - 1);
      var half := Pow2(n - 1) * h;
      assert Pow2(n) * h == 2 * half;
    }
  }

  // A set bit among the n low ones is the least whatever is above.
  lemma {:induction false} LeastBelow(h: nat, l: nat, n: nat)
    requires 0 < l < Pow2(n)
    ensures Least(Pow2(n) * h + l) == Least(l)
    decreases n
  {
    if n > 0 {
      var p := Pow2(n - 1) * h;
      assert Pow2(n) * h == 2 * p;
      assert (2 * p + l) % 2 == l % 2 && (2 * p + l) / 2 == p + l / 2;
      if l % 2 == 0 {
        LeastBelow(h, l / 2, n - 1);
      }
    }
  }

  lemma TableRow(b: nat)
    requires 0 < b < 16
    ensures TAIL[b - 1] == Least(b)
  {
    if b % 2 == 0 {
      assert b == 2 || b == 4 || b == 6 || b == 8 || b == 10 || b == 12 || b == 14;
      assert Least(b) == 1 + Least(b / 2);
      if b / 2 % 2 == 0 { assert Least(b / 2) == 1 + Least(b / 4); }
      if b == 8 { assert Least(2) == 1 + Least(1); }
    }
  }

  lemma RowOf(h: nat)
    requires h < 16
    ensures LOWEST_BIT[h] == [if h == 0 then 0 else 4 + TAIL[h - 1]] + TAIL
  {
  }

  // The regularity of the table: a byte with a low half is looked up by it, another by its high half.
  function Cell(b: nat): nat
    requires 0 < b < 256
  {
    if b % 16 > 0 then Least(b % 16) else 4 + Least(b / 16)
  }

  lemma LookUp(b: nat)
    requires 0 < b < 256
    ensures LowestBit(b) == Cell(b)
  {
    RowOf(b / 16);
    TableRow(if b % 16 > 0 then b % 16 else b / 16);
  }

  lemma Pow2Of4()
    ensures Pow2(4) == 16
  {
    assert Pow2(2) == 4;
  }

  lemma CellIsLeast(b: nat)
    requires 0 < b < 256
    ensures Cell(b) == Least(b)
  {
    var h, l := b / 16, b % 16;
    assert b == 16 * h + l;
    LeastOfHalves(h, l);
  }

  lemma LeastOfHalves(h: nat, l: nat)
    requires l < 16 && (h > 0 || l > 0)
    ensures Least(16 * h + l) == if l > 0 then Least(l) else 4 + Least(h)
  {
    Pow2Of4();
    LeastSplit(h, l, 4, 16);
  }

  lemma LeastSplit(h: nat, l: nat, n: nat, p: nat)
    requires p == Pow2(n) && l < p && (h > 0 || l > 0)
    ensures p * h + l > 0 && Least(p * h + l) == if l > 0 then Least(l) else n + Least(h)
  {
    if l > 0 {
      LeastBelow(h, l, n);
    } else {
      LeastAbove(h, n);
    }
  }

  lemma TableIsRight(b: nat)
    requires 0 < b < 256
    ensures LowestBit(b) == Least(b)
  {
    LookUp(b);
    CellIsLeast(b);
  }

  // The least set bit by its lowest non-zero byte.
  lemma LeastByByte(v: nat)
    requires v > 0
    ensures v % 0x100 != 0 ==> Least(v) == LowestBit(v % 0x100)
    ensures v % 0x100 == 0 ==> v / 0x100 > 0 && Least(v) == 8 + Least(v / 0x100)
  {
    var h, l := v / 0x100, v % 0x100;
    assert v == 0x100 * h + l;
    Pow2Of8();
    LeastSplit(h, l, 8, 0x100);
    if l > 0 {
      TableIsRight(l);
    }
  }

  lemma FfsIsOneMore(value: nat)
    requires 0 < value < WORD
    ensures Ffs(value) == Least(value) + 1 && Least(value) < 32
  {
    var v1 := value / 0x100;
    var v2 := v1 / 0x100;
    var v3 := v2 / 0x100;
    assert value / 0x1_0000 == v2 && value / 0x100_0000 == v3;
    LeastByByte(value);
    if value % 0x100 == 0 {
      LeastByByte(v1);
      if v1 % 0x100 == 0 {
        LeastByByte(v2);
        if v2 % 0x100 == 0 {
          LeastByByte(v3);
          ByteBound(v3);
        } else {
          ByteBound(v2 % 0x100);
        }
      } else {
        ByteBound(v1 % 0x100);
      }
    } else {
      ByteBound(value % 0x100);
    }
  }

  lemma {:induction false} LeastBound(v: nat, n: nat)
    requires 0 < v < Pow2(n)
    ensures Least(v) < n
    decreases n
  {
    if v % 2 == 0 { LeastBound(v / 2, n - 1); }
  }

  lemma Pow2Of8()
    ensures Pow2(8) == 256
  {
    assert Pow2(0) == 1 && Pow2(1) == 2 && Pow2(2) == 4 && Pow2(3) == 8;
    assert Pow2(4) == 16 && Pow2(5) == 32 && Pow2(6) == 64 && Pow2(7) == 128;
  }

  lemma ByteBound(b: nat)
    requires 0 < b < 256
    ensures Least(b) < 8 && LowestBit(b) == Least(b)
  {
    TableIsRight(b);
    Pow2Of8();
    LeastBound(b, 8);
  }

  // __rt_ffs counts from one the position of the least set bit, and is zero for zero.
  lemma FfsIsLeast(value: nat)
    requires value < WORD
    ensures value == 0 ==> Ffs(value) == 0
    ensures value > 0 ==> 0 < Ffs(value) <= 32 && IsLowest(value, Ffs(value) - 1)
  {
    if value > 0 {
      FfsIsOneMore(value);
      LeastIsLowest(value);
    }
  }
}
