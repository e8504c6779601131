/** The library copy of the comet trail: 16-bit positions and a queue of
    128 slots, with no guard in `step`. */
module LedTailLib {
  import opened CometTrail

  const CAPACITY: nat := 128
  /** The largest `u16`. */
  const POSITION_MAX: nat := 0xFFFF

  /** `Elements::new(length, trail_length)`: an empty queue of 128 slots.
      The sum `length + trail_length` must stay below the largest `u16`,
      so that neither `cull`'s bound nor `step`'s increment overflows. */
  method New(length: nat, trailLength: nat) returns (e: Elements)
    requires length + trailLength < POSITION_MAX
    ensures fresh(e) && e.Valid() && e.queue == []
    ensures e.capacity == CAPACITY && e.maxValue == POSITION_MAX && e.panicGuard == None
    ensures e.length == length && e.trailLength == trailLength
  {
    e := new Elements(CAPACITY, POSITION_MAX, None, length, trailLength);
  }
}
