/** A time range whose start and duration can be changed in place. Both are
    Java `int`s, and its end is their sum in 32-bit two's-complement
    arithmetic, which wraps around on overflow. */
module ModifiableTimeRange {

  const TWO_TO_THE_32: int := 0x1_0000_0000

  newtype int32 = x: int | -0x8000_0000 <= x < 0x8000_0000

  predicate InInt32Range(x: int) {
    -0x8000_0000 <= x < 0x8000_0000
  }

  /** The 32-bit value Java's int arithmetic yields for the exact result `x`:
      `x` itself when it fits, otherwise `x` wrapped around modulo 2^32. */
  function Wrap(x: int): (r: int32)
    ensures InInt32Range(x) ==> r as int == x
    ensures (r as int - x) % TWO_TO_THE_32 == 0
  {
    ((x + 0x8000_0000) % TWO_TO_THE_32 - 0x8000_0000) as int32
  }

  /** Wrapping the exact sum of two 32-bit values overflows at most once:
      the result differs from the exact sum by 0 or by 2^32. */
  lemma {:induction false} WrapSumOfInt32(a: int32, b: int32)
    ensures var s := a as int + b as int;
      || Wrap(s) as int == s
      || Wrap(s) as int == s - TWO_TO_THE_32
      || Wrap(s) as int == s + TWO_TO_THE_32
  {
    var s := a as int + b as int;
    var q := (s + 0x8000_0000) / TWO_TO_THE_32;
    assert s + 0x8000_0000 == q * TWO_TO_THE_32 + (s + 0x8000_0000) % TWO_TO_THE_32;
    assert -1 <= q <= 1;
    assert Wrap(s) as int == s - q * TWO_TO_THE_32;
  }

  class CurrentTimeRange {
    var start: int32
    var duration: int32

    constructor(start: int32, duration: int32)
      ensures this.start == start && this.duration == duration
    {
      this.start := start;
      this.duration := duration;
    }

    /** The end, start + duration as a Java int: the exact sum whenever it
        fits in 32 bits, and congruent to it modulo 2^32 always. */
    function End(): (r: int32)
      reads this
      ensures InInt32Range(start as int + duration as int) ==> r as int == start as int + duration as int
      ensures (r as int - (start as int + duration as int)) % TWO_TO_THE_32 == 0
    {
      Wrap(start as int + duration as int)
    }

    /** Replaces the start; the duration stays, so the end moves with it. */
    method SetStart(start: int32)
      modifies this
      ensures this.start == start && duration == old(duration)
      ensures (End() as int - old(End()) as int - (start as int - old(this.start) as int)) % TWO_TO_THE_32 == 0
    {
      this.start := start;
    }

    /** Replaces the duration; the start stays. */
    method SetDuration(duration: int32)
      modifies this
      ensures this.duration == duration && start == old(start)
      ensures (End() as int - old(End()) as int - (duration as int - old(this.duration) as int)) % TWO_TO_THE_32 == 0
    {
      this.duration := duration;
    }
  }
}
