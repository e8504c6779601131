/** The brightness adjustment wrapper of the display firmware: a draw
    target that scales every channel of each pixel by `brightness / 256`
    and hands the pixel on to the display it wraps. */
module BrightnessAdjustment {
  import opened Graphics

  /** The wrapped display, as far as the wrapper can observe it: the size
      it reports and the pixels it has been handed, in order. */
  datatype Target = Target(size: Size, received: seq<Pixel>)

  /** The wrapper: the display it forwards to and the brightness factor. */
  datatype Adjustment = Adjustment(display: Target, brightness: u8)

  /** The colour after scaling: each channel is c * brightness / 256,
      rounded down, and never brighter than before. */
  function Dim(c: Rgb, brightness: u8): (d: Rgb)
    ensures d.r as int == c.r as int * brightness as int / 256
    ensures d.g as int == c.g as int * brightness as int / 256
    ensures d.b as int == c.b as int * brightness as int / 256
    ensures NoBrighter(d, c)
  {
    Rgb(ScaleChannel(c.r, brightness as nat), ScaleChannel(c.g, brightness as nat), ScaleChannel(c.b, brightness as nat))
  }

  /** `draw_pixel`: exactly one pixel reaches the wrapped display, at the
      same coordinate, with the scaled colour; the brightness and the
      display's size stay as they were. */
  function DrawPixel(a: Adjustment, item: Pixel): (a': Adjustment)
    ensures a'.brightness == a.brightness && a'.display.size == a.display.size
    ensures |a'.display.received| == |a.display.received| + 1
    ensures a'.display.received[..|a.display.received|] == a.display.received
    ensures a'.display.received[|a.display.received|].coord == item.coord
    ensures NoBrighter(a'.display.received[|a.display.received|].color, item.color)
    ensures a'.display.received[|a.display.received|] == Forwarded(item, a.brightness)
  {
    var forwarded := Pixel(item.coord, Dim(item.color, a.brightness));
    Adjustment(Target(a.display.size, a.display.received + [forwarded]), a.brightness)
  }

  /** `size`: the size of the wrapped display. */
  function GetSize(a: Adjustment): (s: Size)
    ensures s == a.display.size
  {
    a.display.size
  }

  /** Drawing a sequence of pixels through the wrapper, one `draw_pixel`
      call each. */
  function DrawAll(a: Adjustment, items: seq<Pixel>): Adjustment
    decreases |items|
  {
    if items == [] then a else DrawAll(DrawPixel(a, items[0]), items[1..])
  }

  /** The pixel the wrapped display receives for `item`. */
  function Forwarded(item: Pixel, brightness: u8): Pixel
  {
    Pixel(item.coord, Dim(item.color, brightness))
  }

  /** Drawing through the wrapper hands the display every pixel, in order
      and each once, with its coordinate kept and its colour scaled; the
      reported size never changes. */
  lemma {:induction false} DrawAllForwards(a: Adjustment, items: seq<Pixel>)
    ensures DrawAll(a, items).brightness == a.brightness
    ensures GetSize(DrawAll(a, items)) == GetSize(a)
    ensures |DrawAll(a, items).display.received| == |a.display.received| + |items|
    ensures DrawAll(a, items).display.received[..|a.display.received|] == a.display.received
    ensures forall i :: 0 <= i < |items| ==>
      DrawAll(a, items).display.received[|a.display.received| + i] == Forwarded(items[i], a.brightness)
    decreases |items|
  {
    if items != [] {
      var b := DrawPixel(a, items[0]);
      DrawAllForwards(b, items[1..]);
      var n := |a.display.received|;
      var out := DrawAll(a, items).display.received;
      assert out[..n] == b.display.received[..n];
      forall i | 0 <= i < |items|
        ensures out[n + i] == Forwarded(items[i], a.brightness)
      {
        if i > 0 {
          assert items[1..][i - 1] == items[i];
        }
      }
    }
  }

  /** Brightness 0 turns every pixel black. */
  lemma ZeroIsBlack(c: Rgb)
    ensures Dim(c, 0) == BLACK
  {
  }

  /** The scaled colour grows with the colour and with the brightness. */
  lemma DimMonotone(c: Rgb, c': Rgb, brightness: u8, brightness': u8)
    requires NoBrighter(c, c') && brightness <= brightness'
    ensures NoBrighter(Dim(c, brightness), Dim(c', brightness'))
  {
    ScaleMonotone(c.r, c'.r, brightness as nat, brightness' as nat);
    ScaleMonotone(c.g, c'.g, brightness as nat, brightness' as nat);
    ScaleMonotone(c.b, c'.b, brightness as nat, brightness' as nat);
  }

  /** Even the largest brightness darkens: full white comes out as 254 on
      every channel, since 255 * 255 / 256 rounds down to 254. */
  lemma FullBrightnessDarkens()
    ensures Dim(Rgb(255, 255, 255), 255) == Rgb(254, 254, 254)
  {
    assert 255 * 255 / 256 == 254;
  }
}
