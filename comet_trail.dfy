/** The comet-trail buffer: a fixed-capacity FIFO of light particles that
    move one LED further along a strip on every tick, are dropped once they
    and their tail have left the strip, and are read back newest-first as a
    stream of `length` faded colours. */
module CometTrail {
  import opened Graphics

  /** One particle: its colour and the strip position of its head. */
  datatype Particle = Particle(color: Rgb, position: nat)

  /** Rust's `Result<(), ()>`. */
  datatype Outcome = Ok | Err

  datatype Option<T> = None | Some(value: T)

  /** Positions strictly decrease from the front (the oldest particle, the
      dequeue end) to the back (the newest particle). */
  predicate Decreasing(q: seq<Particle>)
  {
    forall i, j :: 0 <= i < j < |q| ==> q[i].position > q[j].position
  }

  /** Positions strictly increase along `q`: the queue seen newest-first. */
  predicate Increasing(q: seq<Particle>)
  {
    forall i, j :: 0 <= i < j < |q| ==> q[i].position < q[j].position
  }

  predicate AllWithin(q: seq<Particle>, bound: nat)
  {
    forall i :: 0 <= i < |q| ==> q[i].position <= bound
  }

  /** `q` walked from the back to the front (`queue.iter().rev()`). */
  function Reverse(q: seq<Particle>): (r: seq<Particle>)
    ensures |r| == |q|
    ensures forall i :: 0 <= i < |q| ==> r[i] == q[|q| - 1 - i]
  {
    if q == [] then [] else [q[|q| - 1]] + Reverse(q[..|q| - 1])
  }

  lemma ReverseIncreasing(q: seq<Particle>)
    requires Decreasing(q)
    ensures Increasing(Reverse(q))
  {
  }

  /** Every particle one position further along. */
  function Shifted(q: seq<Particle>): (r: seq<Particle>)
    ensures |r| == |q|
  {
    seq(|q|, i requires 0 <= i < |q| => q[i].(position := q[i].position + 1))
  }

  /** A step moves every particle exactly one position on and keeps its
      colour. */
  lemma ShiftedMovesEach(q: seq<Particle>, i: nat)
    requires i < |q|
    ensures Shifted(q)[i].color == q[i].color && Shifted(q)[i].position == q[i].position + 1
  {
  }

  /** How many particles `cull` drops: the length of the longest prefix of
      `q` whose particles are all past `bound`. */
  function CullCount(q: seq<Particle>, bound: nat): (k: nat)
    ensures k <= |q|
    ensures forall i :: 0 <= i < k ==> q[i].position > bound
    ensures k < |q| ==> q[k].position <= bound
  {
    if q != [] && q[0].position > bound then 1 + CullCount(q[1..], bound) else 0
  }

  /** `CullCount` is determined by its postcondition. */
  lemma CullCountUnique(q: seq<Particle>, bound: nat, k: nat)
    requires k <= |q|
    requires forall i :: 0 <= i < k ==> q[i].position > bound
    requires k < |q| ==> q[k].position <= bound
    ensures CullCount(q, bound) == k
  {
  }

  /** The queue left by `cull`: the survivors are `q` without that prefix. */
  function Culled(q: seq<Particle>, bound: nat): (r: seq<Particle>)
    ensures |r| <= |q|
  {
    q[CullCount(q, bound)..]
  }

  /** `cull` on a strictly decreasing queue leaves it strictly decreasing,
      with every survivor within the bound: once the front particle is
      within it, all the ones behind it are too. */
  lemma {:induction false} CullKeepsOrder(q: seq<Particle>, bound: nat)
    requires Decreasing(q)
    ensures Decreasing(Culled(q, bound)) && AllWithin(Culled(q, bound), bound)
  {
    var k := CullCount(q, bound);
    var r := Culled(q, bound);
    forall i, j | 0 <= i < j < |r| ensures r[i].position > r[j].position {
      assert r[i] == q[k + i] && r[j] == q[k + j];
    }
    forall i | 0 <= i < |r| ensures r[i].position <= bound {
      assert r[i] == q[k + i] && r[0] == q[k];
    }
  }

  /** The queue after one `step` with cull bound `bound`. */
  function StepQueue(q: seq<Particle>, bound: nat): (r: seq<Particle>)
    ensures |r| <= |q|
  {
    Culled(Shifted(q), bound)
  }

  /** The queue after `n` steps. */
  function Steps(q: seq<Particle>, n: nat, bound: nat): seq<Particle>
  {
    if n == 0 then q else StepQueue(Steps(q, n - 1, bound), bound)
  }

  /** Steps never add particles: after any number of them the queue is at
      most as long as before. */
  lemma {:induction false} StepsNeverGrow(q: seq<Particle>, n: nat, bound: nat)
    ensures |Steps(q, n, bound)| <= |q|
  {
    if n > 0 {
      StepsNeverGrow(q, n - 1, bound);
    }
  }

  /** Any number of steps keeps a strictly decreasing queue so, and after
      at least one step every particle lies within the cull bound. */
  lemma {:induction false} StepsKeepOrder(q: seq<Particle>, n: nat, bound: nat)
    requires Decreasing(q)
    ensures Decreasing(Steps(q, n, bound))
    ensures n > 0 ==> AllWithin(Steps(q, n, bound), bound)
  {
    if n > 0 {
      StepsKeepOrder(q, n - 1, bound);
      StepKeepsOrder(Steps(q, n - 1, bound), bound);
    }
  }

  /** The queue and result of `add`: nothing happens (and `Ok` is returned)
      while the newest particle is still at position 0; otherwise a new
      particle enters at position 0 unless all slots are taken. */
  function AddQueue(q: seq<Particle>, color: Rgb, capacity: nat): (res: (Outcome, seq<Particle>))
    ensures res.1 == q || res.1 == q + [Particle(color, 0)]
    ensures res.0 == Err <==> (q == [] || q[|q| - 1].position != 0) && |q| >= capacity
    ensures res.0 == Err ==> res.1 == q
    ensures res.1 != q ==> |q| < capacity
    ensures Decreasing(q) ==> Decreasing(res.1)
  {
    if q != [] && q[|q| - 1].position == 0 then (Ok, q)
    else if |q| < capacity then (Ok, q + [Particle(color, 0)])
    else (Err, q)
  }

  /** A strictly ordered queue stays so after a step, every survivor lies
      within the cull bound, and a step never adds particles. */
  lemma {:induction false} StepKeepsOrder(q: seq<Particle>, bound: nat)
    requires Decreasing(q)
    ensures Decreasing(StepQueue(q, bound)) && AllWithin(StepQueue(q, bound), bound)
    ensures |StepQueue(q, bound)| <= |q|
  {
    var s := Shifted(q);
    assert Decreasing(s);
    CullKeepsOrder(s, bound);
  }

  /** On a queue already within the bound `cull` changes nothing. */
  lemma CullWithinIsIdentity(q: seq<Particle>, bound: nat)
    requires AllWithin(q, bound)
    ensures Culled(q, bound) == q
  {
  }

  /** `add` twice in a row enqueues at most one particle: the second call is
      a no-op that returns the same result as the first one did. */
  lemma AddTwiceAddsOnce(q: seq<Particle>, c1: Rgb, c2: Rgb, capacity: nat)
    ensures AddQueue(AddQueue(q, c1, capacity).1, c2, capacity).1 == AddQueue(q, c1, capacity).1
    ensures |AddQueue(q, c1, capacity).1| <= |q| + 1
  {
  }

  /** One step moves a lone particle one position on, and drops it once it
      passes the bound. */
  lemma StepLone(c: Rgb, n: nat, bound: nat)
    ensures StepQueue([Particle(c, n)], bound) == if n < bound then [Particle(c, n + 1)] else []
  {
    var shifted := Shifted([Particle(c, n)]);
    assert shifted == [Particle(c, n + 1)];
    if n >= bound {
      assert CullCount(shifted, bound) == 1;
    }
  }

  /** A single particle, after n <= bound steps, is the only element, at
      position n. */
  lemma {:induction false} Lifetime(c: Rgb, n: nat, bound: nat)
    requires n <= bound
    ensures Steps([Particle(c, 0)], n, bound) == [Particle(c, n)]
  {
    if n > 0 {
      StepsUnfold([Particle(c, 0)], n, bound);
      Lifetime(c, n - 1, bound);
      StepLone(c, n - 1, bound);
    }
  }

  lemma StepsUnfold(q: seq<Particle>, n: nat, bound: nat)
    requires n > 0
    ensures Steps(q, n, bound) == StepQueue(Steps(q, n - 1, bound), bound)
  {
  }

  /** ... and step bound + 1 empties the queue: a particle lives for exactly
      bound + 1 steps. */
  lemma {:induction false} LifetimeEnd(c: Rgb, bound: nat)
    ensures Steps([Particle(c, 0)], bound + 1, bound) == []
  {
    Lifetime(c, bound, bound);
    StepLone(c, bound, bound);
  }

  /** `a ⊖ b`: Rust's `saturating_sub` on unsigned integers. */
  function SaturatingSub(a: nat, b: nat): (r: nat)
    ensures r + b >= a
    ensures r == 0 || r + b == a
  {
    if a >= b then a - b else 0
  }

  /** The brightness multiplier of a LED `distance` positions behind a
      particle's head: `trail_length.saturating_sub(distance) * step` with
      `step = 255 / trail_length`. It never exceeds 255 (so the `u16`
      product cannot overflow), and it is 0 exactly when the LED is beyond
      the trail, or when the trail is longer than 255 so that `step` is 0. */
  function Multiplier(trailLength: nat, distance: nat): (m: nat)
    requires trailLength > 0
    ensures m <= 255
    ensures m == 0 <==> distance >= trailLength || trailLength > 255
  {
    MultiplierBound(SaturatingSub(trailLength, distance), trailLength);
    SaturatingSub(trailLength, distance) * (255 / trailLength)
  }

  lemma MultiplierBound(a: nat, t: nat)
    requires 0 < t && a <= t
    ensures a * (255 / t) <= 255
  {
    assert a * (255 / t) <= t * (255 / t);
  }

  /** The trail fades linearly: one more LED of distance lowers the
      multiplier by exactly `255 / trail_length` until it reaches 0. */
  lemma MultiplierFades(trailLength: nat, distance: nat)
    requires 0 < trailLength && distance < trailLength
    ensures Multiplier(trailLength, distance) == Multiplier(trailLength, distance + 1) + 255 / trailLength
  {
    var step := 255 / trailLength;
    assert (trailLength - distance) * step == (trailLength - distance - 1) * step + step;
  }

  /** lib.rs's `brightness`: every channel scaled by `multiplier / 256`. */
  function Brightness(color: Rgb, multiplier: nat): (r: Rgb)
    requires multiplier < U16_LIMIT
    ensures multiplier <= 256 ==> NoBrighter(r, color)
    ensures multiplier <= 256 ==>
      && r.r as int == color.r as int * multiplier / 256
      && r.g as int == color.g as int * multiplier / 256
      && r.b as int == color.b as int * multiplier / 256
    ensures multiplier == 0 ==> r == BLACK
  {
    Rgb(ScaleChannel(color.r, multiplier), ScaleChannel(color.g, multiplier), ScaleChannel(color.b, multiplier))
  }

  /** The particle an LED at position `pos` takes its colour from: the index
      of the first particle, newest first, whose head is at or ahead of
      `pos` (|ps| when there is none). */
  function Ahead(ps: seq<Particle>, pos: nat): (k: nat)
    ensures k <= |ps|
    ensures forall j :: 0 <= j < k ==> ps[j].position < pos
    ensures k < |ps| ==> ps[k].position >= pos
  {
    if ps == [] then 0
    else if ps[0].position >= pos then 0
    else 1 + Ahead(ps[1..], pos)
  }

  /** The colour of LED `pos`: black when no particle is at or ahead of it,
      otherwise that particle's colour faded by its distance. */
  function ColorAt(ps: seq<Particle>, pos: nat, trailLength: nat): (c: Rgb)
    requires trailLength > 0
    ensures Ahead(ps, pos) == |ps| ==> c == BLACK
    ensures Ahead(ps, pos) < |ps| ==> NoBrighter(c, ps[Ahead(ps, pos)].color)
  {
    var k := Ahead(ps, pos);
    if k == |ps| then BLACK
    else Brightness(ps[k].color, Multiplier(trailLength, ps[k].position - pos))
  }

  /** The colours of LEDs 0 .. n - 1 in order. */
  function Strip(ps: seq<Particle>, n: nat, trailLength: nat): (r: seq<Rgb>)
    requires trailLength > 0
    ensures |r| == n
    ensures forall p :: 0 <= p < n ==> r[p] == ColorAt(ps, p, trailLength)
  {
    if n == 0 then [] else Strip(ps, n - 1, trailLength) + [ColorAt(ps, n - 1, trailLength)]
  }

  /** No LED is brighter than the particle it takes its colour from; it is
      black when no particle is ahead of it or when it is beyond that
      particle's trail. */
  lemma ColorAtBounds(ps: seq<Particle>, pos: nat, trailLength: nat)
    requires trailLength > 0
    ensures Ahead(ps, pos) == |ps| ==> ColorAt(ps, pos, trailLength) == BLACK
    ensures Ahead(ps, pos) < |ps| ==> NoBrighter(ColorAt(ps, pos, trailLength), ps[Ahead(ps, pos)].color)
    ensures Ahead(ps, pos) < |ps| && ps[Ahead(ps, pos)].position - pos >= trailLength
      ==> ColorAt(ps, pos, trailLength) == BLACK
  {
  }

  /** With a strictly increasing sequence, a particle's own head takes its
      colour from that particle: the LED it is on and the `trail_length - 1`
      LEDs behind it (up to the previous particle) show its faded colour. */
  lemma {:induction false} HeadOwnsTrail(ps: seq<Particle>, k: nat, pos: nat)
    requires Increasing(ps) && k < |ps|
    requires pos <= ps[k].position
    requires k == 0 || ps[k - 1].position < pos
    ensures Ahead(ps, pos) == k
  {
    AheadUnique(ps, pos, k);
  }

  /** `Ahead` is determined by its postcondition. */
  lemma AheadUnique(ps: seq<Particle>, pos: nat, k: nat)
    requires Increasing(ps) && k <= |ps|
    requires forall j :: 0 <= j < k ==> ps[j].position < pos
    requires k < |ps| ==> ps[k].position >= pos
    ensures Ahead(ps, pos) == k
  {
  }

  /** The worked example of a 15-LED trail (`step = 17`): a particle whose
      head is at LED 5 lights LED 5 with multiplier 255, LED 4 with 238, and
      leaves LED 6 (ahead of it) dark. */
  lemma FifteenLedTrailExample(c: Rgb)
    ensures ColorAt([Particle(c, 5)], 5, 15) == Brightness(c, 255)
    ensures ColorAt([Particle(c, 5)], 4, 15) == Brightness(c, 238)
    ensures ColorAt([Particle(c, 5)], 6, 15) == BLACK
  {
    assert Ahead([Particle(c, 5)], 5) == 0;
    assert Ahead([Particle(c, 5)], 4) == 0;
    assert Ahead([Particle(c, 5)], 6) == 1;
  }

  /** The peekable iterator returned by `iter`. */
  class ElementIter {
    /** The queue, newest particle first. */
    const particles: seq<Particle>
    const trailLength: nat
    const step: nat
    const length: nat
    /** The largest value of the position type (2^W - 1). */
    const maxValue: nat
    /** The next LED position to produce. */
    var pos: nat
    /** The index of the peeked particle in `particles`. */
    var cursor: nat

    /** While LEDs remain to be produced, every particle passed over is
        behind the LED produced last, and the peeked particle is at most one
        position behind `pos`. */
    ghost predicate Valid()
      reads this
    {
      && cursor <= |particles|
      && trailLength > 0 && step == 255 / trailLength
      && Increasing(particles)
      && length < maxValue
      && (pos <= length ==>
            && (forall j :: 0 <= j < cursor ==> particles[j].position + 1 < pos)
            && (cursor < |particles| ==> particles[cursor].position + 1 >= pos))
    }

    constructor (particles: seq<Particle>, length: nat, trailLength: nat, maxValue: nat)
      requires Increasing(particles) && trailLength > 0 && length < maxValue
      ensures Valid()
      ensures this.particles == particles && this.length == length
      ensures this.trailLength == trailLength && this.maxValue == maxValue
      ensures pos == 0 && cursor == 0
    {
      this.particles := particles;
      this.length := length;
      this.trailLength := trailLength;
      this.step := 255 / trailLength;
      this.maxValue := maxValue;
      pos := 0;
      cursor := 0;
    }

    /** `ElementIter::next`. `pos += 1` happens first, so the position must
        still fit its type. Past the end it returns `None`; otherwise the
        colour of LED `pos`, after advancing the peeked particle at most once.
        The subtraction `x.position - pos` never underflows. */
    method Next() returns (item: Option<Rgb>)
      requires Valid() && pos < maxValue
      modifies this`pos, this`cursor
      ensures Valid()
      ensures pos == old(pos) + 1
      ensures old(pos) >= length ==> item == None && cursor == old(cursor)
      ensures old(pos) < length ==> item == Some(ColorAt(particles, old(pos), trailLength))
      ensures old(pos) < length ==> cursor == Ahead(particles, old(pos))
    {
      var p := pos;
      pos := pos + 1;
      if p >= length {
        return None;
      }
      if cursor < |particles| && particles[cursor].position < p {
        cursor := cursor + 1;
      }
      AheadUnique(particles, p, cursor);
      if cursor < |particles| {
        var x := particles[cursor];
        assert x.position >= p;
        var distance := x.position - p;
        var multiplier := SaturatingSub(trailLength, distance) * step;
        assert multiplier == Multiplier(trailLength, distance);
        item := Some(Brightness(x.color, multiplier));
      } else {
        item := Some(BLACK);
      }
    }
  }

  /** The buffer of particles. A single class covers the three copies of
      the source: `capacity` is the queue's slot count, `maxValue` the
      largest value of the position type, and `panicGuard` the loop-count
      limit of the older copy's `step` (if any). */
  class Elements {
    const capacity: nat
    const maxValue: nat
    const panicGuard: Option<nat>
    const length: nat
    const trailLength: nat
    /** Front (index 0) is the oldest particle, the back the newest. */
    var queue: seq<Particle>

    /** The cull bound `length + trail_length`. */
    function Bound(): nat
      reads this
    {
      length + trailLength
    }

    ghost predicate Valid()
      reads this
    {
      && |queue| <= capacity
      && Bound() < maxValue
      && (panicGuard.Some? ==> capacity <= panicGuard.value)
      && Decreasing(queue)
      && AllWithin(queue, Bound())
    }

    /** `Elements::new`: an empty queue. */
    constructor (capacity: nat, maxValue: nat, panicGuard: Option<nat>, length: nat, trailLength: nat)
      requires length + trailLength < maxValue
      requires panicGuard.Some? ==> capacity <= panicGuard.value
      ensures Valid() && queue == []
      ensures this.capacity == capacity && this.maxValue == maxValue && this.panicGuard == panicGuard
      ensures this.length == length && this.trailLength == trailLength
    {
      this.capacity := capacity;
      this.maxValue := maxValue;
      this.panicGuard := panicGuard;
      this.length := length;
      this.trailLength := trailLength;
      queue := [];
    }

    /** `step`: every position one further, then `cull`. No increment
        overflows the position type, and the loop counter of the older copy
        never trips its panic guard. */
    method Step()
      requires Valid()
      modifies this
      ensures Valid()
      ensures queue == StepQueue(old(queue), Bound())
    {
      var i := 0;
      while i < |queue|
        invariant 0 <= i <= |queue| == |old(queue)|
        invariant forall k :: 0 <= k < i ==> queue[k] == old(queue)[k].(position := old(queue)[k].position + 1)
        invariant forall k :: i <= k < |queue| ==> queue[k] == old(queue)[k]
      {
        assert queue[i].position + 1 <= maxValue;
        queue := queue[i := queue[i].(position := queue[i].position + 1)];
        i := i + 1;
        if panicGuard.Some? && i > panicGuard.value {
          assert false;
        }
      }
      assert queue == Shifted(old(queue));
      assert Decreasing(queue);
      Cull();
      StepKeepsOrder(old(queue), Bound());
    }

    /** `add`: a no-op returning `Ok` while the newest particle is still at
        position 0; otherwise a particle of `color` enters at the back at
        position 0, and `Err` is returned, with the queue unchanged, only
        when every slot is taken. */
    method Add(color: Rgb) returns (res: Outcome)
      requires Valid()
      modifies this
      ensures Valid()
      ensures old(queue) != [] && old(queue)[|old(queue)| - 1].position == 0 ==> res == Ok && queue == old(queue)
      ensures old(queue) == [] || old(queue)[|old(queue)| - 1].position != 0 ==>
        (res == Err <==> |old(queue)| >= capacity)
        && queue == (if res == Ok then old(queue) + [Particle(color, 0)] else old(queue))
      ensures (res, queue) == AddQueue(old(queue), color, capacity)
    {
      if queue == [] || queue[|queue| - 1].position != 0 {
        if |queue| < capacity {
          queue := queue + [Particle(color, 0)];
          res := Ok;
        } else {
          res := Err;
        }
      } else {
        res := Ok;
      }
    }

    /** `cull`: drops particles from the front while the front one is past
        `length + trail_length`. It only needs the order invariant, so that
        `step` can call it while the bound is exceeded by one. */
    method Cull()
      requires |queue| <= capacity && Decreasing(queue)
      modifies this
      ensures queue == Culled(old(queue), Bound())
      ensures |queue| <= capacity && Decreasing(queue) && AllWithin(queue, Bound())
    {
      ghost var dropped := 0;
      while queue != [] && queue[0].position > Bound()
        invariant dropped <= |old(queue)| && queue == old(queue)[dropped..]
        invariant forall i :: 0 <= i < dropped ==> old(queue)[i].position > Bound()
        invariant |queue| <= capacity && Decreasing(queue)
      {
        queue := queue[1..];
        dropped := dropped + 1;
      }
      CullCountUnique(old(queue), Bound(), dropped);
      forall i | 0 <= i < |queue| ensures queue[i].position <= Bound() {
        if i > 0 { assert queue[0].position > queue[i].position; }
      }
    }

    /** `iter`: a fresh iterator over the particles, newest first. The
        division `255 / trail_length` needs a non-zero trail. */
    method Iter() returns (it: ElementIter)
      requires Valid() && trailLength > 0
      ensures fresh(it) && it.Valid()
      ensures it.particles == Reverse(queue) && it.pos == 0 && it.cursor == 0
      ensures it.length == length && it.trailLength == trailLength && it.maxValue == maxValue
    {
      ReverseIncreasing(queue);
      it := new ElementIter(Reverse(queue), length, trailLength, maxValue);
    }
  }

  /** Draining `iter()` the way the strip writer does: it yields exactly
      `length` colours, the colour of each LED as `ColorAt` defines it, and
      then `None`. */
  method Render(e: Elements) returns (colors: seq<Rgb>)
    requires e.Valid() && e.trailLength > 0
    ensures colors == Strip(Reverse(e.queue), e.length, e.trailLength)
  {
    var it := e.Iter();
    colors := [];
    var item := it.Next();
    while item.Some?
      invariant it.Valid() && it.particles == Reverse(e.queue)
      invariant it.length == e.length && it.trailLength == e.trailLength && it.maxValue == e.maxValue
      invariant it.pos == |colors| + 1
      invariant item.Some? ==> |colors| < e.length && item.value == ColorAt(it.particles, |colors|, e.trailLength)
      invariant item.None? ==> |colors| == e.length
      invariant colors == Strip(it.particles, |colors|, e.trailLength)
      decreases e.length - |colors|
    {
      colors := colors + [item.value];
      item := it.Next();
    }
  }
}
