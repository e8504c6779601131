/** The comet trail copied into the LED-tail firmware: the same 16-bit,
    128-slot buffer as the library, configured for a 400-LED strip with a
    15-LED trail. */
module LedTailApp {
  import opened Graphics
  import opened CometTrail

  const CAPACITY: nat := 128
  /** The largest `u16`. */
  const POSITION_MAX: nat := 0xFFFF
  const STRIP_LENGTH: nat := 400
  const TRAIL_LENGTH: nat := 15

  /** `Elements::new(length, trail_length)` of the firmware's own copy. */
  method New(length: nat, trailLength: nat) returns (e: Elements)
    requires length + trailLength < POSITION_MAX
    ensures fresh(e) && e.Valid() && e.queue == []
    ensures e.capacity == CAPACITY && e.maxValue == POSITION_MAX && e.panicGuard == None
    ensures e.length == length && e.trailLength == trailLength
  {
    e := new Elements(CAPACITY, POSITION_MAX, None, length, trailLength);
  }

  /** The firmware's buffer, `Elements::new(400, 15)`: its cull bound 415
      fits a `u16` with room for the increment, so no position ever
      overflows. */
  method NewStrip() returns (e: Elements)
    ensures fresh(e) && e.Valid() && e.queue == []
    ensures e.capacity == CAPACITY && e.maxValue == POSITION_MAX && e.panicGuard == None
    ensures e.Bound() == STRIP_LENGTH + TRAIL_LENGTH < POSITION_MAX
    ensures e.length == STRIP_LENGTH && e.trailLength == TRAIL_LENGTH
  {
    e := New(STRIP_LENGTH, TRAIL_LENGTH);
  }

  /** The firmware's first `add(..).unwrap()` on its fresh buffer cannot
      panic: the add succeeds and leaves exactly one particle at position 0. */
  method FirstAdd(c: Rgb) returns (e: Elements, res: Outcome)
    ensures fresh(e) && e.Valid()
    ensures res == Ok && e.queue == [Particle(c, 0)]
    ensures e.capacity == CAPACITY && e.maxValue == POSITION_MAX && e.panicGuard == None
    ensures e.length == STRIP_LENGTH && e.trailLength == TRAIL_LENGTH
  {
    e := NewStrip();
    res := e.Add(c);
  }

  /** On the firmware's strip a particle added to an empty buffer stays
      alone for 415 steps, reaching position 415, and is gone after the
      416th. */
  lemma StripLifetime(c: Rgb)
    ensures Steps([Particle(c, 0)], STRIP_LENGTH + TRAIL_LENGTH, STRIP_LENGTH + TRAIL_LENGTH)
      == [Particle(c, STRIP_LENGTH + TRAIL_LENGTH)]
    ensures Steps([Particle(c, 0)], STRIP_LENGTH + TRAIL_LENGTH + 1, STRIP_LENGTH + TRAIL_LENGTH) == []
  {
    Lifetime(c, STRIP_LENGTH + TRAIL_LENGTH, STRIP_LENGTH + TRAIL_LENGTH);
    LifetimeEnd(c, STRIP_LENGTH + TRAIL_LENGTH);
  }
}
