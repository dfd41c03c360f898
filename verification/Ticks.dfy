/** 32-bit kernel ticks (rtt/include/rtdef.h) and the comparison rule of rtt/src/timer.c. */
module Ticks {
  const WORD: int := 0x1_0000_0000
  /** RT_TICK_MAX / 2, with RT_TICK_MAX == RT_UINT32_MAX. */
  const HALF: int := 0x7FFF_FFFF

  type u32 = x: int | 0 <= x < 0x1_0000_0000

  function Wrap(x: int): u32 { x % WORD }

  /** Unsigned 32-bit subtraction. */
  function Sub32(a: u32, b: u32): u32 { (a - b) % WORD }

  /** The two tests of the insertion walk: the queued timer expires strictly after the new one. */
  predicate TickAfter(queued: u32, starting: u32) {
    Sub32(queued, starting) != 0 && Sub32(queued, starting) < HALF
  }

  /** The test of the check loop: the tick has reached the timeout. */
  predicate TickReached(current: u32, timeout: u32) {
    Sub32(current, timeout) < HALF
  }

  lemma WrapDifference(a: int, b: int)
    ensures Sub32(Wrap(a), Wrap(b)) == (a - b) % WORD
  {
    var qa, qb := a / WORD, b / WORD;
    assert Wrap(a) - Wrap(b) == a - b + WORD * (qb - qa);
    ModShift(a - b, qb - qa);
  }

  lemma ModShift(x: int, q: int)
    ensures (x + WORD * q) % WORD == x % WORD
  {
    assert x + WORD * q == WORD * (x / WORD + q) + x % WORD;
  }

  /** Adding to a wrapped tick wraps the true sum. */
  lemma WrapAdd(t: int, d: int)
    ensures Wrap(Wrap(t) + d) == Wrap(t + d)
  {
    ModShift(t + d, -(t / WORD));
  }

  /**
   * For true times less than a full wrap apart, the wrapped comparison orders them correctly
   * exactly when their distance lies in [HALF - WORD, HALF).
   */
  lemma WrappedOrderExact(queued: int, starting: int)
    requires -WORD < queued - starting < WORD
    ensures (TickAfter(Wrap(queued), Wrap(starting)) <==> queued > starting) <==> HALF - WORD <= queued - starting < HALF
  {
    WrapDifference(queued, starting);
  }

  /** Likewise for the due test of the check loop. */
  lemma WrappedDueExact(now: int, due: int)
    requires -WORD < now - due < WORD
    ensures (TickReached(Wrap(now), Wrap(due)) <==> due <= now) <==> HALF - WORD <= now - due < HALF
  {
    WrapDifference(now, due);
  }
}
