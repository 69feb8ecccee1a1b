/** Arithmetic of the free-running 32-bit millisecond counter. Real time is a natural number; the
    firmware sees it modulo 2^32. */
module Ticks {

  const TICKS: nat := 0x1_0000_0000
  const HALF_TICKS: nat := 0x8000_0000

  function Tick(ms: nat): nat { ms % TICKS }

  /** The clock starts over after 2^32 ms. */
  lemma ClockWraps(ms: nat, rounds: nat)
    requires ms < 0x1_0000_0000
    ensures Tick(ms + rounds * 0x1_0000_0000) == ms
  {}

  /** The signed comparison `(int32_t)(now - deadline) >= 0`. */
  predicate Reached(now: nat, deadline: nat) {
    (now as int - deadline as int) % TICKS < HALF_TICKS
  }

  /** The unsigned difference `now - start`. */
  function Elapsed(now: nat, start: nat): nat {
    (now as int - start as int) % TICKS
  }

  lemma ModuloDifference(a: int, b: int)
    ensures (a % TICKS - b % TICKS) % TICKS == (a - b) % TICKS
  {}

  lemma ReachedMeansElapsed(t: nat, start: nat, delay: nat)
    requires start <= t && delay <= 0x8000_0000
    ensures Reached(Tick(t), Tick(start + delay)) ==> t - start >= delay
    ensures delay <= t - start < delay + 0x8000_0000 ==> Reached(Tick(t), Tick(start + delay))
  {
    ModuloDifference(t, start + delay);
  }

  lemma ElapsedIsDifference(t: nat, start: nat)
    requires start <= t
    ensures Elapsed(Tick(t), Tick(start)) <= t - start
    ensures t - start < 0x1_0000_0000 ==> Elapsed(Tick(t), Tick(start)) == t - start
  {
    ModuloDifference(t, start);
  }
}
