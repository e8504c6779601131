/** The graphics values the programs share: 8-bit RGB colours, the
    per-channel brightness scaling of the comet-trail iterator and the
    brightness adjustment wrapper, and the pixels and sizes of the
    embedded-graphics drawing interface. */
module Graphics {

  /** An unsigned 8-bit value (Rust `u8`). */
  newtype u8 = x: int | 0 <= x < 256

  /** Exclusive upper bound of a Rust `u16`. */
  const U16_LIMIT: int := 0x1_0000

  /** A 24-bit colour, one byte per channel. */
  datatype Rgb = Rgb(r: u8, g: u8, b: u8)

  const BLACK: Rgb := Rgb(0, 0, 0)

  /** A drawing coordinate; it may be negative or off the display. */
  datatype Point = Point(x: int, y: int)

  /** One pixel handed to a draw target. */
  datatype Pixel = Pixel(coord: Point, color: Rgb)

  /** The width and height of a draw target. */
  datatype Size = Size(width: nat, height: nat)

  /** Every channel of `c` is at most the matching channel of `d`. */
  predicate NoBrighter(c: Rgb, d: Rgb)
  {
    c.r <= d.r && c.g <= d.g && c.b <= d.b
  }

  /** `(c as u16 * m / 256) as u8`: the product is taken modulo 2^16 (a `u16`
      multiplication without overflow checks) and the quotient is truncated
      to its low byte by the cast. Whenever the multiplier is at most 256 no
      wrap-around and no truncation happen, and the result is the exact
      floor of c * m / 256, which never exceeds `c`. */
  function ScaleChannel(c: u8, m: nat): (r: u8)
    requires m < U16_LIMIT
    ensures m <= 256 ==> r as int == c as int * m / 256
    ensures m <= 256 ==> r <= c
    ensures m == 0 ==> r == 0
  {
    ScaleBound(c, m);
    (((c as int * m) % U16_LIMIT) / 256 % 256) as u8
  }

  /** With a multiplier of at most 256 the product fits a `u16` and the
      quotient fits a byte, so neither the wrap-around nor the cast changes
      anything. */
  lemma ScaleBound(c: u8, m: nat)
    ensures m <= 256 ==> (c as int * m) % U16_LIMIT == c as int * m
    ensures m <= 256 ==> c as int * m / 256 <= c as int
    ensures m <= 256 ==> (c as int * m / 256) % 256 == c as int * m / 256
    ensures m == 0 ==> c as int * m == 0
  {
    if m <= 256 {
      var p := c as int * m;
      assert 0 <= p <= c as int * 256 by {
        assert c as int * m <= c as int * 256;
      }
      assert p < U16_LIMIT;
      DivMonotone(p, c as int * 256);
    }
  }

  /** The scaled channel grows with both the channel value and the
      multiplier. */
  lemma {:induction false} ScaleMonotone(c: u8, c': u8, m: nat, m': nat)
    requires c <= c' && m <= m' <= 256
    ensures ScaleChannel(c, m) <= ScaleChannel(c', m')
  {
    MulMonotone(c as nat, c' as nat, m, m');
    DivMonotone(c as int * m, c' as int * m');
  }

  lemma MulMonotone(a: nat, a': nat, b: nat, b': nat)
    requires a <= a' && b <= b'
    ensures a * b <= a' * b'
  {
    assert a * b <= a' * b;
  }

  lemma DivMonotone(a: int, b: int)
    requires 0 <= a <= b
    ensures a / 256 <= b / 256
  {
  }
}
