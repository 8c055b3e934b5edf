/**
 * Sub-second timestamps. The real-time clock pulses once a second; the pulse
 * handler stores the free-running millisecond counter, truncated to 16 bits,
 * and a reading later subtracts that origin from the counter. The clock value
 * is a parameter here: `now` is what `millis()` returned at that call.
 */
module SubSecond {
  const Mod16: int := 0x1_0000
  const Mod32: int := 0x1_0000_0000

  type uint16 = x: int | 0 <= x < 0x1_0000
  type uint32 = x: int | 0 <= x < 0x1_0000_0000

  /** What `millis()` reports `t` milliseconds after boot: an unsigned 32-bit count that wraps. */
  function Millis(t: nat): (m: uint32)
    ensures t < Mod32 ==> m == t
  {
    t % Mod32
  }

  /** The state behind `sub_second_counter`, written by the pulse handler only. */
  class SubSecondClock {
    /** The low 16 bits of the counter at the last pulse; 0 before the first. */
    var origin: uint16

    constructor ()
      ensures origin == 0
    {
      origin := 0;
    }

    /** The 1 Hz pulse handler: the 32-bit counter is stored into a 16-bit variable. */
    method Tick(now: uint32)
      modifies this
      ensures origin == now % Mod16
      ensures Elapsed(now) == 0
    {
      origin := now % Mod16;
    }

    /**
     * Milliseconds since the last pulse: the counter minus the origin in
     * unsigned 32-bit arithmetic, returned as 16 bits. The result is the one
     * value below 2^16 that brings the origin to the counter modulo 2^16.
     */
    function Elapsed(now: uint32): (r: uint16)
      reads this
      ensures (origin + r) % Mod16 == now % Mod16
    {
      ((now - origin) % Mod32) % Mod16
    }
  }

  /** Reducing modulo 2^32 first does not change the residue modulo 2^16. */
  lemma Mod32Then16(x: int)
    ensures (x % Mod32) % Mod16 == x % Mod16
  {
    var q := x / Mod32;
    assert x == Mod32 * q + x % Mod32;
    assert x % Mod32 == x - Mod16 * (Mod16 * q);
    ShiftByMultiple(x, -(Mod16 * q));
  }

  lemma ShiftByMultiple(x: int, k: int)
    ensures (x + Mod16 * k) % Mod16 == x % Mod16
  {
    var q, r := x / Mod16, x % Mod16;
    assert x + Mod16 * k == Mod16 * (q + k) + r;
  }

  /**
   * If the last pulse came `t1 - t0` milliseconds ago and that is less than
   * 2^16, the reading is exactly that elapsed time, however the 32-bit
   * counter wrapped in between.
   */
  lemma ElapsedIsTrueElapsed(c: SubSecondClock, t0: nat, t1: nat)
    requires c.origin == Millis(t0) % Mod16
    requires t0 <= t1 < t0 + Mod16
    ensures c.Elapsed(Millis(t1)) == t1 - t0
  {
    var now := Millis(t1);
    Mod32Then16(now - c.origin);
    assert c.Elapsed(now) == (now - c.origin) % Mod16;
    Mod32Then16(t1);
    Mod32Then16(t0);
    assert c.origin == t0 % Mod16;
    SubCongruent(now, c.origin, t1, t0);
  }

  /** Subtraction respects congruence modulo 2^16. */
  lemma SubCongruent(a: int, b: int, c: int, d: int)
    requires a % Mod16 == c % Mod16 && b % Mod16 == d % Mod16
    ensures (a - b) % Mod16 == (c - d) % Mod16
  {
    var k := a / Mod16 - c / Mod16 - b / Mod16 + d / Mod16;
    assert a - b == (c - d) + Mod16 * k;
    ShiftByMultiple(c - d, k);
  }

  /** Within one window of 2^16 ms after a pulse, later readings are never smaller. */
  lemma ElapsedMonotone(c: SubSecondClock, t0: nat, t1: nat, t2: nat)
    requires c.origin == Millis(t0) % Mod16
    requires t0 <= t1 <= t2 < t0 + Mod16
    ensures c.Elapsed(Millis(t1)) <= c.Elapsed(Millis(t2))
  {
    ElapsedIsTrueElapsed(c, t0, t1);
    ElapsedIsTrueElapsed(c, t0, t2);
  }

  /** When the next pulse is due within a second, the reading stays below 1000. */
  lemma ElapsedBelowOneSecond(c: SubSecondClock, t0: nat, t1: nat)
    requires c.origin == Millis(t0) % Mod16
    requires t0 <= t1 < t0 + 1000
    ensures c.Elapsed(Millis(t1)) < 1000
  {
    ElapsedIsTrueElapsed(c, t0, t1);
  }

  /**
   * Nothing bounds the reading by 1000: a pulse that does not arrive lets it
   * grow, and after 2^16 ms it starts again from 0.
   */
  lemma ElapsedAliasesAfterWindow(c: SubSecondClock, t0: nat, t1: nat)
    requires c.origin == Millis(t0) % Mod16
    requires t0 + Mod16 <= t1 < t0 + 2 * Mod16
    ensures c.Elapsed(Millis(t1)) == t1 - t0 - Mod16
  {
    var now := Millis(t1);
    var tm := t1 - Mod16;
    ElapsedIsTrueElapsed(c, t0, tm);
    Mod32Then16(t1);
    Mod32Then16(tm);
    ShiftByMultiple(tm, 1);
    Mod32Then16(now - c.origin);
    Mod32Then16(Millis(tm) - c.origin);
    assert now % Mod16 == Millis(tm) % Mod16;
    assert (c.origin + c.Elapsed(now)) % Mod16 == (c.origin + c.Elapsed(Millis(tm))) % Mod16;
    ResidueUnique(c.origin, c.Elapsed(now), c.Elapsed(Millis(tm)));
  }

  /** Two values below 2^16 that bring the same origin to the same residue are equal. */
  lemma ResidueUnique(o: uint16, a: uint16, b: uint16)
    requires (o + a) % Mod16 == (o + b) % Mod16
    ensures a == b
  {
  }
}
