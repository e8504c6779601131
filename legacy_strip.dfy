/** The older comet trail of the top-level firmware: 8-bit positions, a
    queue of 16 slots and a loop counter in `step` that panics past 100,
    configured for a 60-LED strip with a 15-LED trail. */
module LegacyStrip {
  import opened Graphics
  import opened CometTrail

  const CAPACITY: nat := 16
  /** The largest `u8`. */
  const POSITION_MAX: nat := 0xFF
  /** `step` panics once its counter exceeds this. */
  const PANIC_GUARD: nat := 100
  const STRIP_LENGTH: nat := 60
  const TRAIL_LENGTH: nat := 15

  /** `Elements::new(length, trail_length)`: an empty queue of 16 slots.
      Since 16 <= 100, `step`'s panic is unreachable. */
  method New(length: nat, trailLength: nat) returns (e: Elements)
    requires length + trailLength < POSITION_MAX
    ensures fresh(e) && e.Valid() && e.queue == []
    ensures e.capacity == CAPACITY && e.maxValue == POSITION_MAX && e.panicGuard == Some(PANIC_GUARD)
    ensures e.length == length && e.trailLength == trailLength
  {
    e := new Elements(CAPACITY, POSITION_MAX, Some(PANIC_GUARD), length, trailLength);
  }

  /** The firmware's buffer, `Elements::new(60, 15)`: its cull bound 75
      fits a `u8` with room for the increment. */
  method NewStrip() returns (e: Elements)
    ensures fresh(e) && e.Valid() && e.queue == []
    ensures e.capacity == CAPACITY && e.maxValue == POSITION_MAX && e.panicGuard == Some(PANIC_GUARD)
    ensures e.Bound() == STRIP_LENGTH + TRAIL_LENGTH < POSITION_MAX
    ensures e.length == STRIP_LENGTH && e.trailLength == TRAIL_LENGTH
  {
    e := New(STRIP_LENGTH, TRAIL_LENGTH);
  }

  /** On the 60-LED strip a particle added to an empty buffer stays alone
      for 75 steps, reaching position 75, and is gone after the 76th. */
  lemma StripLifetime(c: Rgb)
    ensures Steps([Particle(c, 0)], STRIP_LENGTH + TRAIL_LENGTH, STRIP_LENGTH + TRAIL_LENGTH)
      == [Particle(c, STRIP_LENGTH + TRAIL_LENGTH)]
    ensures Steps([Particle(c, 0)], STRIP_LENGTH + TRAIL_LENGTH + 1, STRIP_LENGTH + TRAIL_LENGTH) == []
  {
    Lifetime(c, STRIP_LENGTH + TRAIL_LENGTH, STRIP_LENGTH + TRAIL_LENGTH);
    LifetimeEnd(c, STRIP_LENGTH + TRAIL_LENGTH);
  }
}
