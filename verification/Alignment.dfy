// RT_ALIGN (rt-thread/include/rtdef.h) for RT_ALIGN_SIZE 8, on sizes it does not wrap.
module Alignment {
  predicate Aligned(n: nat) {
    n % 8 == 0
  }

  // A size that RT_ALIGN does not wrap in 64 bits.
  predicate Alignable(size: nat) {
    size + 8 <= 0x1_0000_0000_0000_0000
  }

  function AlignUp(n: nat): (r: nat)
    ensures Aligned(r) && n <= r < n + 8
  {
    (n + 7) / 8 * 8
  }

  lemma AlignableUp(n: nat)
    requires Alignable(n)
    ensures Alignable(AlignUp(n))
  {
  }

  lemma AlignedStays(n: nat)
    requires Aligned(n)
    ensures AlignUp(n) == n
  {
  }
}
