// Delays in ticks (rt-thread/src/clock.c).
module Clock {
  const FOREVER: nat := 0xFFFF_FFFF              // RT_WAITING_FOREVER as an rt_tick_t

  // rt_tick_from_millisecond, for a clock of perSecond ticks.
  function FromMilliseconds(perSecond: nat, ms: int): nat {
    if ms < 0 then FOREVER
    else perSecond * (ms / 1000) + (perSecond * (ms % 1000) + 999) / 1000
  }

  // The least number of ticks that lasts at least ms milliseconds; a negative time is forever.
  lemma LeastTicks(perSecond: nat, ms: int, t: nat)
    requires ms >= 0
    ensures 1000 * t >= perSecond * ms <==> t >= FromMilliseconds(perSecond, ms)
  {
    var q, r := ms / 1000, ms % 1000;
    assert perSecond * ms == 1000 * (perSecond * q) + perSecond * r by {
      assert ms == 1000 * q + r;
      assert perSecond * (1000 * q + r) == 1000 * (perSecond * q) + perSecond * r;
    }
    var p := perSecond * r;
    assert (p + 999) / 1000 * 1000 >= p > (p + 999) / 1000 * 1000 - 1000;
  }
}
