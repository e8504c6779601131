/** The HUB75 bit-plane frame buffer of c3_display/src/hub75dma.rs.

    The buffer holds, for each of the 16 scan rows and each of the 8 bit
    planes, the 128 bytes written to the output port while one plane of one
    row is shifted into the panel. Byte 2x carries the colour bits of column
    x (bits 0-2: R1 G1 B1 of the top half-panel, bits 3-5: R2 G2 B2 of the
    bottom half-panel) with the clock bit 6 low; byte 2x+1 repeats it with
    the clock bit high, so that writing the 128 bytes in order produces 64
    clock edges. */
module Hub75 {
  import opened Graphics
  import opened Hub75Gamma

  const ROWS: nat := 16
  const PLANES: nat := 8
  const ROW_BYTES: nat := 128
  const COLUMNS: nat := 64

  /** Bit 6 of a port byte drives the panel's shift clock. */
  const CLOCK: bv8 := 0x40
  /** Bits 6 and 7 of a port byte, clear in every even byte. */
  const HIGH_BITS: bv8 := 0xC0

  /** The 100 microseconds spent after each row against ghosting. */
  const GHOST_DELAY: nat := 100

  /** The pins `output` drives besides the data port. */
  datatype Line = A | B | C | D | Latch | Enable

  /** One step of the scan-out: a pin level, a byte written to the port, or
      a busy wait. */
  datatype Event = Set(line: Line, high: bool) | Port(value: bv8) | DelayMicros(us: nat)

  function Pow2(n: nat): (p: nat)
    ensures p >= 1
  {
    if n == 0 then 1 else 2 * Pow2(n - 1)
  }

  /** Bit `i` of a byte is set. */
  predicate BitOf(v: bv8, i: nat)
    requires i < 8
  {
    (v >> i) & 1 == 1
  }

  /** The bits lo..n-1 of `v` read as a binary number whose lowest digit is
      bit lo. */
  function Weight(v: bv8, lo: nat, n: nat): nat
    requires lo <= n <= 8
    decreases n - lo
  {
    if n == lo then 0 else Weight(v, lo, n - 1) + (if BitOf(v, n - 1) then Pow2(n - 1 - lo) else 0)
  }

  lemma WeightLow2(v: bv8)
    ensures Weight(v, 0, 2) == (v & 3) as int
  {
    assert Pow2(0) == 1 && Pow2(1) == 2;
  }

  lemma WeightLow4(v: bv8)
    ensures Weight(v, 0, 4) == (v & 15) as int
  {
    WeightLow2(v);
    assert Pow2(2) == 4 && Pow2(3) == 8;
  }

  lemma WeightLow6(v: bv8)
    ensures Weight(v, 0, 6) == (v & 63) as int
  {
    WeightLow4(v);
    assert Pow2(4) == 16 && Pow2(5) == 32;
  }

  /** All eight bits weigh exactly the byte's value. */
  lemma WeightAll(v: bv8)
    ensures Weight(v, 0, 8) == v as int
  {
    WeightLow6(v);
    assert Pow2(6) == 64 && Pow2(7) == 128;
  }

  lemma WeightMiddle2(v: bv8)
    ensures Weight(v, 2, 4) == ((v >> 2) & 3) as int
  {
    assert Pow2(0) == 1 && Pow2(1) == 2;
  }

  lemma WeightMiddle4(v: bv8)
    ensures Weight(v, 2, 6) == ((v >> 2) & 15) as int
  {
    WeightMiddle2(v);
    assert Pow2(2) == 4 && Pow2(3) == 8;
  }

  /** Bits 2..7 weigh the byte shifted right by two. */
  lemma WeightAboveTwo(v: bv8)
    ensures Weight(v, 2, 8) == (v >> 2) as int
  {
    WeightMiddle4(v);
    assert Pow2(4) == 16 && Pow2(5) == 32;
  }

  function Flag(b: bool): bv8
  {
    if b then 1 else 0
  }

  /** The value of bit plane `i` of one pixel: bit 0 is bit i of red, bit 1
      bit i of green and bit 2 bit i of blue. */
  function PlaneValue(r: bv8, g: bv8, b: bv8, i: nat): (v: bv8)
    requires i < 8
    ensures v < 8
    ensures BitOf(v, 0) == BitOf(r, i)
    ensures BitOf(v, 1) == BitOf(g, i)
    ensures BitOf(v, 2) == BitOf(b, i)
  {
    Flag(r & (1 << i) != 0) | (Flag(g & (1 << i) != 0) << 1) | (Flag(b & (1 << i) != 0) << 2)
  }

  /** The eight plane values of one pixel, in plane order. */
  function Planes(r: bv8, g: bv8, b: bv8): (ps: seq<bv8>)
    ensures |ps| == 8
    ensures forall i :: 0 <= i < 8 ==> ps[i] == PlaneValue(r, g, b, i)
  {
    seq(8, i requires 0 <= i < 8 => PlaneValue(r, g, b, i))
  }

  /** Channel `k` (0 red, 1 green, 2 blue) read back from planes lo..n-1,
      plane lo being the lowest binary digit. */
  function ChannelWeight(ps: seq<bv8>, k: nat, lo: nat, n: nat): nat
    requires lo <= n <= |ps| == 8 && k < 8
    decreases n - lo
  {
    if n == lo then 0
    else ChannelWeight(ps, k, lo, n - 1) + (if BitOf(ps[n - 1], k) then Pow2(n - 1 - lo) else 0)
  }

  lemma {:induction false} ChannelWeightIsWeight(ps: seq<bv8>, v: bv8, k: nat, lo: nat, n: nat)
    requires lo <= n <= |ps| == 8 && k < 8
    requires forall i :: 0 <= i < 8 ==> BitOf(ps[i], k) == BitOf(v, i)
    ensures ChannelWeight(ps, k, lo, n) == Weight(v, lo, n)
    decreases n - lo
  {
    if n > lo {
      ChannelWeightIsWeight(ps, v, k, lo, n - 1);
    }
  }

  /** Splitting a colour into bit planes loses nothing: each channel is the
      sum over the planes of its bit times 2^plane. */
  lemma PlanesRoundTrip(r: bv8, g: bv8, b: bv8)
    ensures ChannelWeight(Planes(r, g, b), 0, 0, 8) == r as int
    ensures ChannelWeight(Planes(r, g, b), 1, 0, 8) == g as int
    ensures ChannelWeight(Planes(r, g, b), 2, 0, 8) == b as int
  {
    var ps := Planes(r, g, b);
    ChannelWeightIsWeight(ps, r, 0, 0, 8);
    ChannelWeightIsWeight(ps, g, 1, 0, 8);
    ChannelWeightIsWeight(ps, b, 2, 0, 8);
    WeightAll(r);
    WeightAll(g);
    WeightAll(b);
  }

  /** Only planes 2..7 are shown, plane p for 2^(p-2) time units, so a
      channel is lit for its value divided by four (rounded down). */
  lemma ShownPlanesWeight(r: bv8, g: bv8, b: bv8)
    ensures ChannelWeight(Planes(r, g, b), 0, 2, 8) == (r >> 2) as int
    ensures ChannelWeight(Planes(r, g, b), 1, 2, 8) == (g >> 2) as int
    ensures ChannelWeight(Planes(r, g, b), 2, 2, 8) == (b >> 2) as int
  {
    var ps := Planes(r, g, b);
    ChannelWeightIsWeight(ps, r, 0, 2, 8);
    ChannelWeightIsWeight(ps, g, 1, 2, 8);
    ChannelWeightIsWeight(ps, b, 2, 2, 8);
    WeightAboveTwo(r);
    WeightAboveTwo(g);
    WeightAboveTwo(b);
  }

  /** The three colour bits of one half-panel in a port byte: bits 0-2 for
      the top half (`upper == false`), bits 3-5 for the bottom half. */
  function Half(b: bv8, upper: bool): bv8
  {
    if upper then (b >> 3) & 7 else b & 7
  }

  /** Read-modify-write of an even port byte: the plane value goes into its
      half, the other half is kept and bits 6 and 7 are cleared. */
  function Packed(byte: bv8, value: bv8, upper: bool): (b: bv8)
    requires value < 8
    ensures Half(b, upper) == value
    ensures Half(b, !upper) == Half(byte, !upper)
    ensures b & HIGH_BITS == 0
  {
    var mask: bv8 := if upper then 0x07 else 0x38;
    var shift: bv8 := if upper then 3 else 0;
    (byte & mask) | (value << shift)
  }

  lemma PackedKeepsOtherHalf(byte: bv8, value: bv8, upper: bool)
    requires value < 8
    ensures Half(Packed(byte, value, !upper), upper) == Half(byte, upper)
  {
    if upper {
      assert Half(Packed(byte, value, false), true) == Half(byte, true);
    } else {
      assert Half(Packed(byte, value, true), false) == Half(byte, false);
    }
  }

  /** The coordinates `draw` accepts without an out-of-bounds index: the
      column byte 2x+1 must lie in the row, and `y % 16` (a remainder that
      keeps the sign of y) must not be negative. */
  predicate OnPanel(p: Point)
  {
    0 <= p.x < COLUMNS && (p.y >= 0 || p.y % ROWS == 0)
  }

  /** Rust's `y % 16` on a signed `y`: the remainder truncates toward zero
      and so takes the sign of `y`. It is non-negative exactly when `y` is,
      or when 16 divides `y`. */
  function TruncatedRem(y: int): (r: int)
    ensures -(ROWS as int) < r < ROWS
    ensures y >= 0 ==> r == y % ROWS
    ensures r >= 0 <==> y >= 0 || y % ROWS == 0
  {
    if y >= 0 then y % ROWS else -((-y) % ROWS)
  }

  /** `OnPanel` is the exact condition under which both of `draw`'s indices
      are in range: the column byte 2x+1 lies in a row, and `(y % 16) as
      usize` does not wrap a negative remainder to a huge index. */
  lemma OnPanelIsInRange(p: Point)
    ensures OnPanel(p) <==> 0 <= 2 * p.x + 1 < ROW_BYTES && 0 <= TruncatedRem(p.y) < ROWS
  {
  }

  /** The scan row of a pixel, `y % 16` as Rust computes it. */
  function RowOf(p: Point): (r: nat)
    requires OnPanel(p)
    ensures r < ROWS && r == TruncatedRem(p.y)
  {
    p.y % ROWS
  }

  /** A pixel with y of at least 16 goes to the bottom half-panel. Here and
      in `Half` and `Packed`, "upper" names the upper three colour bits
      (bits 3 to 5) of a byte, which carry that bottom half. */
  predicate Upper(p: Point)
  {
    !(p.y < 16)
  }

  /** Plane `pl` of a pixel's gamma-corrected colour. */
  function PixelPlane(p: Pixel, pl: nat, table: seq<u8>): (v: bv8)
    requires pl < 8 && |table| == 256
    ensures v < 8
  {
    PlaneValue(table[p.color.r] as bv8, table[p.color.g] as bv8, table[p.color.b] as bv8, pl)
  }

  predicate Covers(p: Pixel, r: nat, c: nat)
    requires OnPanel(p.coord)
  {
    RowOf(p.coord) == r && p.coord.x == c
  }

  /** The even byte of row r, plane pl, column c once pixel p is drawn onto
      a byte holding e. */
  function Apply(e: bv8, p: Pixel, r: nat, pl: nat, c: nat, table: seq<u8>): (b: bv8)
    requires pl < 8 && |table| == 256 && OnPanel(p.coord)
    ensures !Covers(p, r, c) ==> b == e
    ensures Covers(p, r, c) ==> b & HIGH_BITS == 0
  {
    if Covers(p, r, c) then Packed(e, PixelPlane(p, pl, table), Upper(p.coord)) else e
  }

  /** A pixel covering a cell stores its plane value in its own half. */
  lemma ApplyWritesHalf(e: bv8, p: Pixel, r: nat, pl: nat, c: nat, table: seq<u8>)
    requires pl < 8 && |table| == 256 && OnPanel(p.coord) && Covers(p, r, c)
    ensures Half(Apply(e, p, r, pl, c, table), Upper(p.coord)) == PixelPlane(p, pl, table)
  {
  }

  /** A pixel leaves a half-panel cell alone unless it covers that cell and
      lies in that half. */
  lemma ApplyKeepsHalf(e: bv8, p: Pixel, r: nat, pl: nat, c: nat, upper: bool, table: seq<u8>)
    requires pl < 8 && |table| == 256 && OnPanel(p.coord)
    requires !(Covers(p, r, c) && Upper(p.coord) == upper)
    ensures Half(Apply(e, p, r, pl, c, table), upper) == Half(e, upper)
  {
    if Covers(p, r, c) {
      PackedKeepsOtherHalf(e, PixelPlane(p, pl, table), upper);
    }
  }

  /** Drawing never sets bits 6 or 7 of an even byte. */
  lemma ApplyKeepsClockLow(e: bv8, p: Pixel, r: nat, pl: nat, c: nat, table: seq<u8>)
    requires pl < 8 && |table| == 256 && OnPanel(p.coord) && e & HIGH_BITS == 0
    ensures Apply(e, p, r, pl, c, table) & HIGH_BITS == 0
  {
  }

  predicate AllOnPanel(ps: seq<Pixel>)
  {
    forall i :: 0 <= i < |ps| ==> OnPanel(ps[i].coord)
  }

  /** The even byte of row r, plane pl, column c after the first n pixels
      are drawn in order onto a byte holding e. */
  function EvenAfter(e: bv8, ps: seq<Pixel>, n: nat, r: nat, pl: nat, c: nat, table: seq<u8>): bv8
    requires pl < 8 && |table| == 256 && n <= |ps| && AllOnPanel(ps)
  {
    if n == 0 then e
    else Apply(EvenAfter(e, ps, n - 1, r, pl, c, table), ps[n - 1], r, pl, c, table)
  }

  /** A cell none of the first n pixels covers keeps its byte. */
  lemma {:induction false} UncoveredUnchanged(e: bv8, ps: seq<Pixel>, n: nat, r: nat, pl: nat, c: nat, table: seq<u8>)
    requires pl < 8 && |table| == 256 && n <= |ps| && AllOnPanel(ps)
    requires forall i :: 0 <= i < n ==> !Covers(ps[i], r, c)
    ensures EvenAfter(e, ps, n, r, pl, c, table) == e
  {
    if n > 0 {
      UncoveredUnchanged(e, ps, n - 1, r, pl, c, table);
    }
  }

  /** Drawing keeps bits 6 and 7 of a cell clear once they are clear. */
  lemma {:induction false} EvenAfterKeepsClockLow(e: bv8, ps: seq<Pixel>, n: nat, r: nat, pl: nat, c: nat, table: seq<u8>)
    requires pl < 8 && |table| == 256 && n <= |ps| && AllOnPanel(ps)
    requires e & HIGH_BITS == 0
    ensures EvenAfter(e, ps, n, r, pl, c, table) & HIGH_BITS == 0
  {
    if n > 0 {
      EvenAfterKeepsClockLow(e, ps, n - 1, r, pl, c, table);
    }
  }

  /** Pixels are drawn in order, so in every half-panel cell the last of the
      first n pixels covering it decides what is stored. */
  lemma {:induction false} LastPixelWins(e: bv8, ps: seq<Pixel>, n: nat, r: nat, pl: nat, c: nat, k: nat, table: seq<u8>)
    requires pl < 8 && |table| == 256 && n <= |ps| && AllOnPanel(ps) && k < n
    requires Covers(ps[k], r, c)
    requires forall i :: k < i < n ==> !(Covers(ps[i], r, c) && Upper(ps[i].coord) == Upper(ps[k].coord))
    ensures Half(EvenAfter(e, ps, n, r, pl, c, table), Upper(ps[k].coord)) == PixelPlane(ps[k], pl, table)
  {
    if k < n - 1 {
      LastPixelWins(e, ps, n - 1, r, pl, c, k, table);
      ApplyKeepsHalf(EvenAfter(e, ps, n - 1, r, pl, c, table), ps[n - 1], r, pl, c, Upper(ps[k].coord), table);
    } else {
      ApplyWritesHalf(EvenAfter(e, ps, n - 1, r, pl, c, table), ps[n - 1], r, pl, c, table);
    }
  }

  /** The plane values one half-panel cell holds after the first n pixels
      are drawn, plane pl starting from the byte e[pl]. */
  function CellPlanes(e: seq<bv8>, ps: seq<Pixel>, n: nat, r: nat, c: nat, upper: bool, table: seq<u8>): (v: seq<bv8>)
    requires |e| == 8 && |table| == 256 && n <= |ps| && AllOnPanel(ps)
    ensures |v| == 8
  {
    seq(8, pl requires 0 <= pl < 8 => Half(EvenAfter(e[pl], ps, n, r, pl, c, table), upper))
  }

  /** Once the last pixel covering a half-panel cell is drawn, the cell
      holds exactly the bit planes of that pixel's gamma-corrected colour. */
  lemma CellHoldsPlanes(e: seq<bv8>, ps: seq<Pixel>, n: nat, r: nat, c: nat, k: nat, table: seq<u8>)
    requires |e| == 8 && |table| == 256 && n <= |ps| && AllOnPanel(ps) && k < n
    requires Covers(ps[k], r, c)
    requires forall i :: k < i < n ==> !(Covers(ps[i], r, c) && Upper(ps[i].coord) == Upper(ps[k].coord))
    ensures CellPlanes(e, ps, n, r, c, Upper(ps[k].coord), table)
      == Planes(table[ps[k].color.r] as bv8, table[ps[k].color.g] as bv8, table[ps[k].color.b] as bv8)
  {
    var cell := CellPlanes(e, ps, n, r, c, Upper(ps[k].coord), table);
    var planes := Planes(table[ps[k].color.r] as bv8, table[ps[k].color.g] as bv8, table[ps[k].color.b] as bv8);
    forall pl | 0 <= pl < 8
      ensures cell[pl] == planes[pl]
    {
      LastPixelWins(e[pl], ps, n, r, pl, c, k, table);
    }
  }

  /** What the panel shows: planes 2..7 are lit for 2^(pl-2) microseconds
      each, so every channel of the last pixel drawn onto a cell is lit for
      its gamma-corrected value shifted right by two (divided by four). */
  lemma ShownColor(e: seq<bv8>, ps: seq<Pixel>, n: nat, r: nat, c: nat, k: nat, table: seq<u8>)
    requires |e| == 8 && |table| == 256 && n <= |ps| && AllOnPanel(ps) && k < n
    requires Covers(ps[k], r, c)
    requires forall i :: k < i < n ==> !(Covers(ps[i], r, c) && Upper(ps[i].coord) == Upper(ps[k].coord))
    ensures ChannelWeight(CellPlanes(e, ps, n, r, c, Upper(ps[k].coord), table), 0, 2, 8) == (table[ps[k].color.r] as bv8 >> 2) as int
    ensures ChannelWeight(CellPlanes(e, ps, n, r, c, Upper(ps[k].coord), table), 1, 2, 8) == (table[ps[k].color.g] as bv8 >> 2) as int
    ensures ChannelWeight(CellPlanes(e, ps, n, r, c, Upper(ps[k].coord), table), 2, 2, 8) == (table[ps[k].color.b] as bv8 >> 2) as int
  {
    var red, green, blue := table[ps[k].color.r] as bv8, table[ps[k].color.g] as bv8, table[ps[k].color.b] as bv8;
    CellHoldsPlanes(e, ps, n, r, c, k, table);
    ShownPlanesWeight(red, green, blue);
  }

  /** The byte `clear` writes at index j of every plane: clock low on even
      bytes, clock high on odd bytes, no colour. */
  function BlankByte(j: nat): (b: bv8)
    ensures b & HIGH_BITS == (if j % 2 == 0 then 0 else CLOCK)
    ensures b & 0x3F == 0
  {
    if j % 2 == 0 then 0x00 else CLOCK
  }

  /** Cell (a, b, i) comes before cell (r, pl, j) in row-major order; with
      i and j both 0 only rows and planes are compared. */
  predicate Precedes(a: nat, b: nat, i: nat, r: nat, pl: nat, j: nat)
  {
    a < r || (a == r && (b < pl || (b == pl && i < j)))
  }

  /** Selecting scan row r: address lines A, B, C and D follow bits 0 to 3
      of the row number. */
  function AddressTrace(r: nat): (t: seq<Event>)
    requires r < ROWS
    ensures |t| == 4
    ensures t[0] == Set(A, r % 2 == 1) && t[1] == Set(B, r / 2 % 2 == 1)
    ensures t[2] == Set(C, r / 4 % 2 == 1) && t[3] == Set(D, r / 8 % 2 == 1)
  {
    var rb := r as bv8;
    RowBits(rb);
    [Set(A, rb & 1 != 0), Set(B, rb & 2 != 0), Set(C, rb & 4 != 0), Set(D, rb & 8 != 0)]
  }

  lemma RowBits(rb: bv8)
    requires rb < 16
    ensures (rb & 1 != 0) == (rb as int % 2 == 1)
    ensures (rb & 2 != 0) == (rb as int / 2 % 2 == 1)
    ensures (rb & 4 != 0) == (rb as int / 4 % 2 == 1)
    ensures (rb & 8 != 0) == (rb as int / 8 % 2 == 1)
  {
  }

  /** n one-microsecond waits. */
  function Delays(n: nat): (t: seq<Event>)
    ensures |t| == n
    ensures forall i :: 0 <= i < n ==> t[i] == DelayMicros(1)
  {
    if n == 0 then [] else Delays(n - 1) + [DelayMicros(1)]
  }

  /** Where plane pl (2 <= pl <= 8) starts within the planes of one row:
      each earlier plane q takes 128 port writes, three pin changes,
      2^(q-2) waits and one more pin change. */
  function PlaneStart(pl: nat): nat
    requires 2 <= pl
  {
    if pl == 2 then 0 else PlaneStart(pl - 1) + ROW_BYTES + 4 + Pow2(pl - 3)
  }

  /** The closed form of the plane offsets. */
  lemma {:induction false} PlaneStartClosed(pl: nat)
    requires 2 <= pl
    ensures PlaneStart(pl) == 132 * (pl - 2) + Pow2(pl - 2) - 1
  {
    if pl > 2 {
      PlaneStartClosed(pl - 1);
      assert Pow2(pl - 2) == 2 * Pow2(pl - 3);
    }
  }

  /** Scanning one row takes 860 events. */
  const ROW_EVENTS: nat := 860

  /** The frame buffer of the driver, owned by the model; the pins and the
      output port pointer are not part of it. */
  class Hub75Dma {
    const data: array3<bv8>
    /** The gamma table `draw` looks each channel up in; always GAMMA8. */
    const table: seq<u8>

    predicate Shaped()
    {
      data.Length0 == ROWS && data.Length1 == PLANES && data.Length2 == ROW_BYTES && |table| == 256
    }

    /** The frame invariant: every even byte has bits 6 and 7 clear, and the
        odd byte after it is the same byte with the clock bit set. */
    ghost predicate Valid()
      reads data
    {
      Shaped() &&
      forall r, pl, c :: 0 <= r < ROWS && 0 <= pl < PLANES && 0 <= c < COLUMNS ==>
        data[r, pl, 2 * c] & HIGH_BITS == 0 && data[r, pl, 2 * c + 1] == data[r, pl, 2 * c] | CLOCK
    }

    /** Every plane of every row holds the clock pattern and no colour. */
    ghost predicate Blank()
      requires Shaped()
      reads data
    {
      forall r, pl, j :: 0 <= r < ROWS && 0 <= pl < PLANES && 0 <= j < ROW_BYTES ==>
        data[r, pl, j] == BlankByte(j)
    }

    lemma BlankIsValid()
      requires Shaped() && Blank()
      ensures Valid()
    {
      forall r, pl, c | 0 <= r < ROWS && 0 <= pl < PLANES && 0 <= c < COLUMNS
        ensures data[r, pl, 2 * c] & HIGH_BITS == 0 && data[r, pl, 2 * c + 1] == data[r, pl, 2 * c] | CLOCK
      {
        assert data[r, pl, 2 * c] == BlankByte(2 * c) == 0x00;
        assert data[r, pl, 2 * c + 1] == BlankByte(2 * c + 1) == CLOCK;
      }
    }

    /** `new` takes the caller's buffer and clears it. */
    constructor (buffer: array3<bv8>)
      requires buffer.Length0 == ROWS && buffer.Length1 == PLANES && buffer.Length2 == ROW_BYTES
      modifies buffer
      ensures data == buffer && table == GAMMA8
      ensures Valid() && Blank()
    {
      data := buffer;
      table := GAMMA8;
      GammaShape();
      new;
      Clear();
    }

    method Clear()
      requires Shaped()
      modifies data
      ensures Blank() && Valid()
    {
      for r := 0 to ROWS
        invariant forall a, b, j :: 0 <= a < r && 0 <= b < PLANES && 0 <= j < ROW_BYTES ==>
          data[a, b, j] == BlankByte(j)
      {
        for pl := 0 to PLANES
          invariant forall a, b, j :: 0 <= a < ROWS && 0 <= b < PLANES && 0 <= j < ROW_BYTES ==>
            Precedes(a, b, 0, r, pl, 0) ==> data[a, b, j] == BlankByte(j)
        {
          for j := 0 to ROW_BYTES
            invariant forall a, b, i :: 0 <= a < ROWS && 0 <= b < PLANES && 0 <= i < ROW_BYTES ==>
              Precedes(a, b, i, r, pl, j) ==> data[a, b, i] == BlankByte(i)
          {
            data[r, pl, j] := if j % 2 == 0 then 0x00 else CLOCK;
          }
        }
      }
      BlankIsValid();
    }

    /** `draw` for one pixel: gamma-correct the colour, split it into eight
        plane values, and merge plane i into byte 2x of plane i of row
        y % 16, keeping the other half-panel's bits; byte 2x+1 gets the
        same value with the clock bit set. No other byte changes. */
    method DrawPixel(p: Pixel)
      requires Valid() && OnPanel(p.coord)
      modifies data
      ensures Valid()
      ensures forall r, pl, c :: 0 <= r < ROWS && 0 <= pl < PLANES && 0 <= c < COLUMNS ==>
        data[r, pl, 2 * c] == Apply(old(data[r, pl, 2 * c]), p, r, pl, c, table)
      ensures forall r, pl, j :: 0 <= r < ROWS && 0 <= pl < PLANES && 0 <= j < ROW_BYTES ==>
        (r != RowOf(p.coord) || j / 2 != p.coord.x) ==> data[r, pl, j] == old(data[r, pl, j])
    {
      var row := RowOf(p.coord);
      var column := p.coord.x;
      var pixelData := SplitPlanes(p);
      var upper := !(p.coord.y < 16);
      var mask: bv8 := if upper then 0x07 else 0x38;
      var shift: bv8 := if upper then 3 else 0;
      MergePlanes(p, row, column, pixelData, upper, mask, shift);
      forall r, pl, c | 0 <= r < ROWS && 0 <= pl < PLANES && 0 <= c < COLUMNS
        ensures data[r, pl, 2 * c] & HIGH_BITS == 0
      {
        ApplyKeepsClockLow(old(data[r, pl, 2 * c]), p, r, pl, c, table);
      }
      forall r, pl, c | 0 <= r < ROWS && 0 <= pl < PLANES && 0 <= c < COLUMNS
        ensures data[r, pl, 2 * c + 1] == data[r, pl, 2 * c] | CLOCK
      {
        if r != row || c != column {
          assert old(data[r, pl, 2 * c + 1]) == old(data[r, pl, 2 * c]) | CLOCK;
          assert data[r, pl, 2 * c] == old(data[r, pl, 2 * c]);
          assert data[r, pl, 2 * c + 1] == old(data[r, pl, 2 * c + 1]);
        }
      }
      forall r, pl, j | 0 <= r < ROWS && 0 <= pl < PLANES && 0 <= j < ROW_BYTES && (r != row || j / 2 != column)
        ensures data[r, pl, j] == old(data[r, pl, j])
      {
      }
    }

    /** The gamma-corrected colour of a pixel split into its eight plane
        values, in a fresh local array. */
    method SplitPlanes(p: Pixel) returns (pixelData: array<bv8>)
      requires Shaped()
      ensures fresh(pixelData) && pixelData.Length == PLANES
      ensures forall k :: 0 <= k < PLANES ==> pixelData[k] == PixelPlane(p, k, table)
    {
      pixelData := new bv8[PLANES];
      var red := table[p.color.r] as bv8;
      var green := table[p.color.g] as bv8;
      var blue := table[p.color.b] as bv8;
      for i := 0 to PLANES
        invariant forall k :: 0 <= k < i ==> pixelData[k] == PlaneValue(red, green, blue, k)
      {
        pixelData[i] := PlaneValue(red, green, blue, i);
      }
    }

    /** Plane by plane, merge the pixel's plane values into the byte pair of
        one column of one row. */
    method MergePlanes(p: Pixel, row: nat, column: nat, pixelData: array<bv8>, upper: bool, mask: bv8, shift: bv8)
      requires Shaped() && OnPanel(p.coord) && row == RowOf(p.coord) && column == p.coord.x
      requires pixelData.Length == PLANES && forall k :: 0 <= k < PLANES ==> pixelData[k] == PixelPlane(p, k, table)
      requires upper == Upper(p.coord)
      requires mask == (if upper then 0x07 else 0x38)
      requires shift == (if upper then 3 else 0)
      modifies data
      ensures forall r, pl, c :: 0 <= r < ROWS && 0 <= pl < PLANES && 0 <= c < COLUMNS ==>
        data[r, pl, 2 * c] == Apply(old(data[r, pl, 2 * c]), p, r, pl, c, table)
      ensures forall r, pl, j :: 0 <= r < ROWS && 0 <= pl < PLANES && 0 <= j < ROW_BYTES ==>
        !(r == row && (j == 2 * column || j == 2 * column + 1)) ==> data[r, pl, j] == old(data[r, pl, j])
      ensures forall pl :: 0 <= pl < PLANES ==> data[row, pl, 2 * column + 1] == data[row, pl, 2 * column] | CLOCK
    {
      for i := 0 to PLANES
        invariant forall r, pl, j :: 0 <= r < ROWS && 0 <= pl < PLANES && 0 <= j < ROW_BYTES ==>
          !(r == row && pl < i && (j == 2 * column || j == 2 * column + 1)) ==> data[r, pl, j] == old(data[r, pl, j])
        invariant forall pl :: 0 <= pl < i ==>
          data[row, pl, 2 * column] == Packed(old(data[row, pl, 2 * column]), pixelData[pl], upper) &&
          data[row, pl, 2 * column + 1] == data[row, pl, 2 * column] | CLOCK
      {
        MergePlane(row, column, i, pixelData[i], upper, mask, shift);
      }
      forall r, pl, c | 0 <= r < ROWS && 0 <= pl < PLANES && 0 <= c < COLUMNS
        ensures data[r, pl, 2 * c] == Apply(old(data[r, pl, 2 * c]), p, r, pl, c, table)
      {
        if r != row || c != column {
          assert data[r, pl, 2 * c] == old(data[r, pl, 2 * c]);
        }
      }
    }

    /** The read-modify-write of plane i for one pixel: the even byte keeps
        the bits `mask` selects and takes the plane value shifted into the
        pixel's half; the odd byte is the same with the clock bit set. */
    method MergePlane(row: nat, column: nat, i: nat, value: bv8, upper: bool, mask: bv8, shift: bv8)
      requires Shaped() && row < ROWS && column < COLUMNS && i < PLANES && value < 8
      requires mask == (if upper then 0x07 else 0x38)
      requires shift == (if upper then 3 else 0)
      modifies data
      ensures data[row, i, 2 * column] == Packed(old(data[row, i, 2 * column]), value, upper)
      ensures data[row, i, 2 * column + 1] == data[row, i, 2 * column] | CLOCK
      ensures forall r, pl, j :: 0 <= r < ROWS && 0 <= pl < PLANES && 0 <= j < ROW_BYTES ==>
        !(r == row && pl == i && (j == 2 * column || j == 2 * column + 1)) ==> data[r, pl, j] == old(data[r, pl, j])
    {
      var byte := data[row, i, column * 2];
      byte := (byte & mask) | (value << shift);
      data[row, i, column * 2] := byte;
      data[row, i, column * 2 + 1] := byte | CLOCK;
    }

    /** `draw`: the pixels are drawn one after the other. */
    method Draw(pixels: seq<Pixel>)
      requires Valid() && AllOnPanel(pixels)
      modifies data
      ensures Valid()
      ensures forall r, pl, c :: 0 <= r < ROWS && 0 <= pl < PLANES && 0 <= c < COLUMNS ==>
        data[r, pl, 2 * c] == EvenAfter(old(data[r, pl, 2 * c]), pixels, |pixels|, r, pl, c, table)
    {
      for k := 0 to |pixels|
        invariant Valid()
        invariant forall r, pl, c :: 0 <= r < ROWS && 0 <= pl < PLANES && 0 <= c < COLUMNS ==>
          data[r, pl, 2 * c] == EvenAfter(old(data[r, pl, 2 * c]), pixels, k, r, pl, c, table)
      {
        DrawPixel(pixels[k]);
      }
    }

    /** The first n port writes of plane pl of row r, in index order. */
    function PortWrites(r: nat, pl: nat, n: nat): (t: seq<Event>)
      requires Shaped() && r < ROWS && pl < PLANES && n <= ROW_BYTES
      reads data
      ensures |t| == n
      ensures forall j :: 0 <= j < n ==> t[j] == Port(data[r, pl, j])
    {
      if n == 0 then [] else PortWrites(r, pl, n - 1) + [Port(data[r, pl, n - 1])]
    }

    /** Showing plane pl of row r: shift its 128 bytes out, pulse the
        latch, enable the outputs for 2^(pl-2) one-microsecond waits, and
        disable them again. */
    function PlaneTrace(r: nat, pl: nat): (t: seq<Event>)
      requires Shaped() && r < ROWS && 2 <= pl < PLANES
      reads data
      ensures |t| == ROW_BYTES + 4 + Pow2(pl - 2)
    {
      PortWrites(r, pl, ROW_BYTES) + [Set(Latch, true), Set(Latch, false), Set(Enable, false)]
        + Delays(Pow2(pl - 2)) + [Set(Enable, true)]
    }

    /** Planes 2 up to n-1 of row r; planes 0 and 1 are never shown. */
    function PlanesTrace(r: nat, n: nat): (t: seq<Event>)
      requires Shaped() && r < ROWS && 2 <= n <= PLANES
      reads data
      ensures |t| == PlaneStart(n)
    {
      if n == 2 then [] else PlanesTrace(r, n - 1) + PlaneTrace(r, n - 1)
    }

    /** Scanning row r: select it, show its planes, then wait against
        ghosting. */
    function RowTrace(r: nat): (t: seq<Event>)
      requires Shaped() && r < ROWS
      reads data
      ensures |t| == ROW_EVENTS
    {
      PlaneStartClosed(PLANES);
      assert Pow2(6) == 64;
      AddressTrace(r) + PlanesTrace(r, PLANES) + [DelayMicros(GHOST_DELAY)]
    }

    /** Rows 0 up to n-1, in order. */
    function RowsTrace(n: nat): (t: seq<Event>)
      requires Shaped() && n <= ROWS
      reads data
      ensures |t| == ROW_EVENTS * n
    {
      if n == 0 then [] else RowsTrace(n - 1) + RowTrace(n - 1)
    }

    /** Everything one call of `output` does. */
    function FrameTrace(): (t: seq<Event>)
      requires Shaped()
      reads data
      ensures |t| == ROWS * ROW_EVENTS
    {
      RowsTrace(ROWS)
    }

    /** `output`, with each pin change, port write and wait recorded as an
        event instead of performed. */
    method Output() returns (trace: seq<Event>)
      requires Shaped()
      ensures trace == FrameTrace()
    {
      trace := [];
      for row := 0 to ROWS
        invariant trace == RowsTrace(row)
      {
        var events := OutputRow(row);
        trace := trace + events;
      }
    }

    /** One iteration of the row loop of `output`: select the row, show
        planes 2 to 7 and wait against ghosting. */
    method OutputRow(row: nat) returns (events: seq<Event>)
      requires Shaped() && row < ROWS
      ensures events == RowTrace(row)
    {
      var rb := row as bv8;
      var address := [Set(A, rb & 1 != 0), Set(B, rb & 2 != 0), Set(C, rb & 4 != 0), Set(D, rb & 8 != 0)];
      var planes := [];
      for plane := 2 to PLANES
        invariant planes == PlanesTrace(row, plane)
      {
        var shown := OutputPlane(row, plane);
        planes := planes + shown;
      }
      events := address + planes + [DelayMicros(GHOST_DELAY)];
    }

    /** One iteration of the plane loop of `output`: shift the plane's
        bytes out, latch them and show them for 2^(plane-2) microseconds. */
    method OutputPlane(row: nat, plane: nat) returns (events: seq<Event>)
      requires Shaped() && row < ROWS && 2 <= plane < PLANES
      ensures events == PlaneTrace(row, plane)
    {
      events := [];
      for j := 0 to ROW_BYTES
        invariant events == PortWrites(row, plane, j)
      {
        events := events + [Port(data[row, plane, j])];
      }
      events := events + [Set(Latch, true), Set(Latch, false), Set(Enable, false)];
      ghost var latched := events;
      for d := 0 to Pow2(plane - 2)
        invariant events == latched + Delays(d)
      {
        events := events + [DelayMicros(1)];
      }
      events := events + [Set(Enable, true)];
    }

    /** Event k of plane pl of row r, stated position by position: the
        128 bytes in index order, the latch pulse, output enable low, exactly
        2^(pl-2) one-microsecond waits, and output enable high. */
    function PlaneEventAt(r: nat, pl: nat, k: nat): Event
      requires Shaped() && r < ROWS && 2 <= pl < PLANES && k < ROW_BYTES + 4 + Pow2(pl - 2)
      reads data
    {
      if k < ROW_BYTES then Port(data[r, pl, k])
      else if k == ROW_BYTES then Set(Latch, true)
      else if k == ROW_BYTES + 1 then Set(Latch, false)
      else if k == ROW_BYTES + 2 then Set(Enable, false)
      else if k < ROW_BYTES + 3 + Pow2(pl - 2) then DelayMicros(1)
      else Set(Enable, true)
    }

    lemma PlaneTraceAt(r: nat, pl: nat, k: nat)
      requires Shaped() && r < ROWS && 2 <= pl < PLANES && k < ROW_BYTES + 4 + Pow2(pl - 2)
      ensures PlaneTrace(r, pl)[k] == PlaneEventAt(r, pl, k)
    {
      var w := PortWrites(r, pl, ROW_BYTES);
      var l := [Set(Latch, true), Set(Latch, false), Set(Enable, false)];
      var t := Delays(Pow2(pl - 2));
      assert PlaneTrace(r, pl) == w + l + t + [Set(Enable, true)];
      if k < ROW_BYTES {
        assert (w + l + t + [Set(Enable, true)])[k] == w[k];
      } else if k < ROW_BYTES + 3 {
        assert (w + l + t + [Set(Enable, true)])[k] == l[k - ROW_BYTES];
      } else if k < ROW_BYTES + 3 + Pow2(pl - 2) {
        assert (w + l + t + [Set(Enable, true)])[k] == t[k - ROW_BYTES - 3];
      }
    }

    /** Planes 2 up to n-1 follow each other without gaps or overlap, plane
        pl starting at event PlaneStart(pl). */
    lemma {:induction false} PlanesTraceAt(r: nat, n: nat, pl: nat, k: nat)
      requires Shaped() && r < ROWS && 2 <= pl < n <= PLANES && k < ROW_BYTES + 4 + Pow2(pl - 2)
      ensures PlaneStart(pl) + k < PlaneStart(n)
      ensures PlanesTrace(r, n)[PlaneStart(pl) + k] == PlaneTrace(r, pl)[k]
    {
      var front, last := PlanesTrace(r, n - 1), PlaneTrace(r, n - 1);
      assert PlanesTrace(r, n) == front + last;
      if pl == n - 1 {
        assert (front + last)[PlaneStart(pl) + k] == last[k];
      } else {
        PlanesTraceAt(r, n - 1, pl, k);
        assert (front + last)[PlaneStart(pl) + k] == front[PlaneStart(pl) + k];
      }
    }

    /** Row r takes 860 events: the four address lines set to bits 0 to 3
        of r, planes 2 to 7 with plane pl at offset 4 + PlaneStart(pl), and
        a final 100 microsecond wait against ghosting. */
    lemma RowTraceShape(r: nat)
      requires Shaped() && r < ROWS
      ensures RowTrace(r)[..4] == AddressTrace(r)
      ensures RowTrace(r)[ROW_EVENTS - 1] == DelayMicros(GHOST_DELAY)
    {
      var a, ps := AddressTrace(r), PlanesTrace(r, PLANES);
      assert RowTrace(r) == a + ps + [DelayMicros(GHOST_DELAY)];
      assert (a + ps + [DelayMicros(GHOST_DELAY)])[..4] == a;
    }

    lemma RowTraceAt(r: nat, pl: nat, k: nat)
      requires Shaped() && r < ROWS && 2 <= pl < PLANES && k < ROW_BYTES + 4 + Pow2(pl - 2)
      ensures 4 + PlaneStart(pl) + k < ROW_EVENTS - 1
      ensures RowTrace(r)[4 + PlaneStart(pl) + k] == PlaneEventAt(r, pl, k)
    {
      PlanesTraceAt(r, PLANES, pl, k);
      PlaneTraceAt(r, pl, k);
      PlaneStartClosed(PLANES);
      assert Pow2(6) == 64;
      var a, ps := AddressTrace(r), PlanesTrace(r, PLANES);
      assert RowTrace(r) == a + ps + [DelayMicros(GHOST_DELAY)];
      assert (a + ps + [DelayMicros(GHOST_DELAY)])[4 + PlaneStart(pl) + k] == ps[PlaneStart(pl) + k];
    }

    /** The rows follow each other in order, row r taking events 860 r up
        to 860 (r + 1). */
    lemma {:induction false} RowsTraceAt(n: nat, r: nat, k: nat)
      requires Shaped() && r < n <= ROWS && k < ROW_EVENTS
      ensures RowsTrace(n)[ROW_EVENTS * r + k] == RowTrace(r)[k]
    {
      var front, last := RowsTrace(n - 1), RowTrace(n - 1);
      assert RowsTrace(n) == front + last;
      if r == n - 1 {
        assert (front + last)[ROW_EVENTS * r + k] == last[k];
      } else {
        RowsTraceAt(n - 1, r, k);
        assert (front + last)[ROW_EVENTS * r + k] == front[ROW_EVENTS * r + k];
      }
    }

    /** The scan order of one frame, event by event: row r occupies events
        860 r up to 860 (r + 1), starting with its address and ending with
        the ghosting wait, and event k of plane pl sits at
        860 r + 4 + PlaneStart(pl) + k. */
    lemma ScanOrder(r: nat, pl: nat, k: nat)
      requires Shaped() && r < ROWS && 2 <= pl < PLANES && k < ROW_BYTES + 4 + Pow2(pl - 2)
      ensures FrameTrace()[ROW_EVENTS * r .. ROW_EVENTS * r + 4] == AddressTrace(r)
      ensures FrameTrace()[ROW_EVENTS * r + 4 + PlaneStart(pl) + k] == PlaneEventAt(r, pl, k)
      ensures FrameTrace()[ROW_EVENTS * r + ROW_EVENTS - 1] == DelayMicros(GHOST_DELAY)
    {
      RowTraceShape(r);
      RowTraceAt(r, pl, k);
      RowsTraceAt(ROWS, r, 4 + PlaneStart(pl) + k);
      RowsTraceAt(ROWS, r, ROW_EVENTS - 1);
      forall i | 0 <= i < 4
        ensures FrameTrace()[ROW_EVENTS * r + i] == AddressTrace(r)[i]
      {
        RowsTraceAt(ROWS, r, i);
        assert RowTrace(r)[..4][i] == RowTrace(r)[i];
      }
    }
  }
}
