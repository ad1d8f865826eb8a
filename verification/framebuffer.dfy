/**
  The packed 1-bit framebuffer of the example applications and the drawing
  primitives over it: `draw_pixel`, `fill_color` and `map_value` (`draw_line`
  is in module Line). The buffer is row-major, `width / 8` bytes per row,
  and the leftmost pixel of a byte is its most significant bit; a set bit is
  black.
 */
module Framebuffer {
  import opened Defs
  import opened CInt

  /** A C `uint16_t`, the type of every drawing coordinate. */
  type U16 = v: int | 0 <= v < 0x1_0000

  datatype Point = Point(x: U16, y: U16)

  predicate IsFramebuffer(g: Geometry, buf: seq<Byte>) {
    |buf| == BufferSize(g)
  }

  predicate InPanel(g: Geometry, x: int, y: int) {
    0 <= x < g.width && 0 <= y < g.height
  }

  /** Row `y` starts `y * RowBytes` bytes in, however the product is grouped. */
  lemma RowStart(g: Geometry, y: nat)
    requires ValidGeometry(g)
    ensures y * g.width / 8 == y * RowBytes(g)
  {
    var r := RowBytes(g);
    assert g.width == 8 * r;
    assert y * g.width == 8 * (y * r);
  }

  /** The byte holding pixel (x, y), computed as `y * WIDTH / 8 + x / 8`. */
  function ByteIndex(g: Geometry, x: nat, y: nat): (i: nat)
    ensures ValidGeometry(g) && InPanel(g, x, y) ==> i < BufferSize(g)
  {
    IndexInBuffer(g, x, y);
    y * g.width / 8 + x / 8
  }

  lemma IndexInBuffer(g: Geometry, x: nat, y: nat)
    ensures ValidGeometry(g) && InPanel(g, x, y) ==> y * g.width / 8 + x / 8 < BufferSize(g)
  {
    if ValidGeometry(g) && InPanel(g, x, y) {
      RowStart(g, y);
      BufferSizeByRows(g);
      var r := RowBytes(g);
      assert x / 8 < r;
      assert y * r + r == (y + 1) * r;
      assert (y + 1) * r <= g.height * r;
    }
  }

  /** The bit of column `x` inside its byte: `7 - x % 8`, most significant first. */
  function BitIndex(x: nat): (k: nat)
    ensures k < 8
    ensures k == 7 <==> x % 8 == 0
  {
    7 - x % 8
  }

  /** `1 << (7 - x % 8)`. */
  function Mask(x: nat): Byte {
    (1 as bv8) << BitIndex(x)
  }

  /** In the panel, the byte index is row start plus column byte, the latter within the row. */
  lemma IndexParts(g: Geometry, x: nat, y: nat)
    requires ValidGeometry(g) && InPanel(g, x, y)
    ensures ByteIndex(g, x, y) == y * RowBytes(g) + x / 8
    ensures x / 8 < RowBytes(g)
  {
    RowStart(g, y);
  }

  /** Bytes of an earlier row come before every byte of a later row. */
  lemma RowsOrdered(r: nat, y: nat, y2: nat, c: nat, c2: nat)
    requires y < y2 && c < r && c2 < r
    ensures y * r + c < y2 * r + c2
  {
    assert y2 * r >= (y + 1) * r == y * r + r;
  }

  /**
    Distinct pixels of the panel occupy distinct bits: either their bytes
    differ or their positions within the byte do.
   */
  lemma PixelsDistinct(g: Geometry, x: nat, y: nat, x2: nat, y2: nat)
    requires ValidGeometry(g) && InPanel(g, x, y) && InPanel(g, x2, y2)
    requires x != x2 || y != y2
    ensures ByteIndex(g, x, y) != ByteIndex(g, x2, y2) || BitIndex(x) != BitIndex(x2)
  {
    IndexParts(g, x, y);
    IndexParts(g, x2, y2);
    var r := RowBytes(g);
    if y < y2 {
      RowsOrdered(r, y, y2, x / 8, x2 / 8);
    } else if y2 < y {
      RowsOrdered(r, y2, y, x2 / 8, x / 8);
    } else if x / 8 == x2 / 8 {
      assert x % 8 != x2 % 8;
    }
  }

  /** The pixel at (x, y) is black. */
  predicate PixelAt(g: Geometry, buf: seq<Byte>, x: nat, y: nat)
    requires ValidGeometry(g) && IsFramebuffer(g, buf) && InPanel(g, x, y)
  {
    BitSet(buf[ByteIndex(g, x, y)], BitIndex(x))
  }

  /**
    The read-modify-write of one byte: `|= mask` for BLACK, `&= ~mask` for
    every other colour byte. The pixel's bit ends up set exactly for BLACK.
   */
  function WriteBit(b: Byte, x: nat, color: Byte): (r: Byte)
    ensures BitSet(r, BitIndex(x)) <==> color == Black
  {
    if color == Black then b | Mask(x) else b & !Mask(x)
  }

  /** Writing one pixel's bit leaves bit `k` of the byte, for any other `k`, as it was. */
  lemma WriteBitKeeps(b: Byte, x: nat, color: Byte, k: nat)
    requires k < 8 && k != BitIndex(x)
    ensures BitSet(WriteBit(b, x, color), k) == BitSet(b, k)
  {
  }

  /**
    `draw_pixel` with the bounds check the code evidently intends: a
    coordinate outside `[0, width) x [0, height)` leaves the buffer as it
    is; otherwise bit `7 - x % 8` of byte `y * width / 8 + x / 8` is set
    for BLACK and cleared for any other colour, and no other bit changes.
   */
  function DrawPixel(g: Geometry, buf: seq<Byte>, x: U16, y: U16, color: Byte): (r: seq<Byte>)
    requires ValidGeometry(g) && IsFramebuffer(g, buf)
    ensures IsFramebuffer(g, r)
    ensures !InPanel(g, x, y) ==> r == buf
    ensures InPanel(g, x, y) ==>
      && (forall i | 0 <= i < |buf| && i != ByteIndex(g, x, y) :: r[i] == buf[i])
      && BitSet(r[ByteIndex(g, x, y)], BitIndex(x)) == (color == Black)
      && (forall k | 0 <= k < 8 && k != BitIndex(x) ::
            BitSet(r[ByteIndex(g, x, y)], k) == BitSet(buf[ByteIndex(g, x, y)], k))
  {
    if x >= g.width || y >= g.height then
      buf
    else
      var i := ByteIndex(g, x, y);
      var b := WriteBit(buf[i], x, color);
      assert forall k | 0 <= k < 8 && k != BitIndex(x) :: BitSet(b, k) == BitSet(buf[i], k) by {
        forall k | 0 <= k < 8 && k != BitIndex(x)
          ensures BitSet(b, k) == BitSet(buf[i], k)
        {
          WriteBitKeeps(buf[i], x, color, k);
        }
      }
      buf[i := b]
  }

  /**
    Pixel-level reading of `DrawPixel`: the pixel written reads back as the
    colour written, and every other pixel of the panel keeps its colour.
   */
  lemma DrawPixelReadBack(g: Geometry, buf: seq<Byte>, x: U16, y: U16, color: Byte)
    requires ValidGeometry(g) && IsFramebuffer(g, buf) && InPanel(g, x, y)
    ensures PixelAt(g, DrawPixel(g, buf, x, y, color), x, y) == (color == Black)
    ensures forall px, py | InPanel(g, px, py) && (px != x || py != y) ::
      PixelAt(g, DrawPixel(g, buf, x, y, color), px, py) == PixelAt(g, buf, px, py)
  {
    var r := DrawPixel(g, buf, x, y, color);
    forall px, py | InPanel(g, px, py) && (px != x || py != y)
      ensures PixelAt(g, r, px, py) == PixelAt(g, buf, px, py)
    {
      PixelsDistinct(g, x, y, px, py);
    }
  }

  /** Outcome of a pixel write whose index is not known to be in bounds. */
  datatype PixelWrite = Written(buf: seq<Byte>) | OutOfBounds(index: nat)

  /**
    `draw_pixel` as written: the guard rejects only `x > WIDTH` or
    `y > HEIGHT`, so `x == WIDTH` and `y == HEIGHT` reach the write.
    `OutOfBounds(i)` is a write to `buff[i]` past the end of the buffer.
   */
  function DrawPixelAsWritten(g: Geometry, buf: seq<Byte>, x: U16, y: U16, color: Byte): (w: PixelWrite)
    requires ValidGeometry(g) && IsFramebuffer(g, buf)
    ensures x > g.width || y > g.height ==> w == Written(buf)
    ensures InPanel(g, x, y) ==> w == Written(DrawPixel(g, buf, x, y, color))
    ensures w.Written? ==> IsFramebuffer(g, w.buf)
    ensures w.OutOfBounds? ==> w.index >= |buf|
  {
    if x > g.width || y > g.height then
      Written(buf)
    else
      var i := ByteIndex(g, x, y);
      if i < |buf| then Written(buf[i := WriteBit(buf[i], x, color)]) else OutOfBounds(i)
  }

  /**
    Off-by-one, right edge: `x == width` passes the guard and paints the
    first pixel of the next row instead of doing nothing.
   */
  lemma AsWrittenRightEdgeSpills(g: Geometry, buf: seq<Byte>, y: U16, color: Byte)
    requires ValidGeometry(g) && IsFramebuffer(g, buf)
    requires 0 < g.width < 0x1_0000 && g.height <= 0x1_0000 && y + 1 < g.height
    ensures DrawPixelAsWritten(g, buf, g.width, y, color) == Written(DrawPixel(g, buf, 0, y + 1, color))
    ensures DrawPixel(g, buf, g.width, y, color) == buf
  {
    RowStart(g, y);
    RowStart(g, y + 1);
    var r := RowBytes(g);
    assert (y + 1) * r == y * r + r;
    assert ByteIndex(g, g.width, y) == ByteIndex(g, 0, y + 1);
    assert BitIndex(g.width) == BitIndex(0);
    assert Mask(g.width) == Mask(0);
  }

  /**
    Off-by-one, bottom edge: `y == height` passes the guard and writes past
    the end of the buffer, whatever the column.
   */
  lemma AsWrittenBottomEdgeOverruns(g: Geometry, buf: seq<Byte>, x: U16, color: Byte)
    requires ValidGeometry(g) && IsFramebuffer(g, buf)
    requires x <= g.width && g.height < 0x1_0000
    ensures DrawPixelAsWritten(g, buf, x, g.height, color).OutOfBounds?
    ensures DrawPixel(g, buf, x, g.height, color) == buf
  {
    RowStart(g, g.height);
    BufferSizeByRows(g);
  }

  /** The two inputs that expose the off-by-one on the 800 x 480 panel. */
  lemma PanelGuardCounterexamples(buf: seq<Byte>)
    requires IsFramebuffer(Panel, buf)
    ensures DrawPixelAsWritten(Panel, buf, 0, 480, Black) == OutOfBounds(48000)
    ensures DrawPixelAsWritten(Panel, buf, 800, 0, Black) == Written(DrawPixel(Panel, buf, 0, 1, Black))
  {
    PanelGeometry();
    AsWrittenRightEdgeSpills(Panel, buf, 0, Black);
  }

  /** The buffer after drawing each point of `pts` in turn. */
  function PaintPoints(g: Geometry, buf: seq<Byte>, pts: seq<Point>, color: Byte): (r: seq<Byte>)
    requires ValidGeometry(g) && IsFramebuffer(g, buf)
    ensures IsFramebuffer(g, r)
    decreases |pts|
  {
    if pts == [] then buf
    else PaintPoints(g, DrawPixel(g, buf, pts[0].x, pts[0].y, color), pts[1..], color)
  }

  /**
    After painting a list of points, a pixel of the panel has the colour
    painted exactly when it is one of the points, and is unchanged otherwise.
   */
  lemma {:induction false} PaintPointsEffect(g: Geometry, buf: seq<Byte>, pts: seq<Point>, color: Byte, x: U16, y: U16)
    requires ValidGeometry(g) && IsFramebuffer(g, buf) && InPanel(g, x, y)
    ensures PixelAt(g, PaintPoints(g, buf, pts, color), x, y)
         == if Point(x, y) in pts then color == Black else PixelAt(g, buf, x, y)
    decreases |pts|
  {
    if pts != [] {
      var p := pts[0];
      var next := DrawPixel(g, buf, p.x, p.y, color);
      PaintPointsEffect(g, next, pts[1..], color, x, y);
      assert pts == [p] + pts[1..];
      if InPanel(g, p.x, p.y) {
        DrawPixelReadBack(g, buf, p.x, p.y, color);
      }
    }
  }

  /**
    Drawing each point of `pts` in turn with `draw_pixel` as written. The
    first write past the end of the buffer ends the run: what the C does
    after it is undefined. When every point is inside the panel this is
    the corrected painting.
   */
  function PaintPointsAsWritten(g: Geometry, buf: seq<Byte>, pts: seq<Point>, color: Byte): (w: PixelWrite)
    requires ValidGeometry(g) && IsFramebuffer(g, buf)
    ensures w.Written? ==> IsFramebuffer(g, w.buf)
    ensures (forall i | 0 <= i < |pts| :: InPanel(g, pts[i].x, pts[i].y)) ==>
      w == Written(PaintPoints(g, buf, pts, color))
    decreases |pts|
  {
    if pts == [] then Written(buf)
    else
      match DrawPixelAsWritten(g, buf, pts[0].x, pts[0].y, color)
      case OutOfBounds(i) => OutOfBounds(i)
      case Written(next) =>
        assert forall i | 0 <= i < |pts[1..]| :: pts[1..][i] == pts[i + 1];
        PaintPointsAsWritten(g, next, pts[1..], color)
  }

  /** Painting `a + b` paints `a` and then `b`. */
  lemma {:induction false} PaintPointsAppend(g: Geometry, buf: seq<Byte>, a: seq<Point>, b: seq<Point>, color: Byte)
    requires ValidGeometry(g) && IsFramebuffer(g, buf)
    ensures PaintPoints(g, buf, a + b, color) == PaintPoints(g, PaintPoints(g, buf, a, color), b, color)
    decreases |a|
  {
    if a == [] {
      assert a + b == b;
    } else {
      assert (a + b)[0] == a[0];
      assert (a + b)[1..] == a[1..] + b;
      PaintPointsAppend(g, DrawPixel(g, buf, a[0].x, a[0].y, color), a[1..], b, color);
    }
  }

  /** A byte whose eight bits are all set is 0xFF; all clear, 0x00. */
  lemma ByteOfUniformBits(b: Byte, on: bool)
    requires forall k | 0 <= k < 8 :: BitSet(b, k) == on
    ensures b == if on then Black else White
  {
    assert BitSet(b, 0) == on && BitSet(b, 1) == on && BitSet(b, 2) == on && BitSet(b, 3) == on;
    assert BitSet(b, 4) == on && BitSet(b, 5) == on && BitSet(b, 6) == on && BitSet(b, 7) == on;
  }

  /** Every bit of the buffer belongs to some pixel of the panel. */
  lemma PixelOfBit(g: Geometry, i: nat, k: nat) returns (x: nat, y: nat)
    requires ValidGeometry(g) && i < BufferSize(g) && k < 8
    ensures InPanel(g, x, y) && ByteIndex(g, x, y) == i && BitIndex(x) == k
  {
    BufferSizeByRows(g);
    var r := RowBytes(g);
    assert r > 0;
    y := i / r;
    x := (i % r) * 8 + (7 - k);
    assert i == y * r + i % r;
    assert y < g.height;
    assert x < g.width by {
      assert i % r <= r - 1;
      assert (i % r) * 8 <= (r - 1) * 8 == g.width - 8;
    }
    RowStart(g, y);
    assert x / 8 == i % r;
    assert x % 8 == 7 - k;
  }

  /**
    `fill_color`: every pixel, column by column and row by row, drawn in
    `color`. Afterwards every byte is 0xFF for BLACK and 0x00 for any other
    colour byte. The loop counters are `uint16_t`, so the panel must be
    narrower and lower than 65536 pixels for the loops to end.
   */
  method FillColor(g: Geometry, buf: seq<Byte>, color: Byte) returns (r: seq<Byte>)
    requires ValidGeometry(g) && IsFramebuffer(g, buf)
    requires g.width < 0x1_0000 && g.height < 0x1_0000
    ensures IsFramebuffer(g, r)
    ensures forall i | 0 <= i < |r| :: r[i] == if color == Black then Black else White
  {
    var black := color == Black;
    r := buf;
    var x := 0;
    while x < g.width
      invariant 0 <= x <= g.width
      invariant IsFramebuffer(g, r)
      invariant forall px, py | InPanel(g, px, py) && px < x :: PixelAt(g, r, px, py) == black
    {
      var y := 0;
      while y < g.height
        invariant 0 <= y <= g.height
        invariant IsFramebuffer(g, r)
        invariant forall px, py | InPanel(g, px, py) && (px < x || (px == x && py < y)) ::
          PixelAt(g, r, px, py) == black
      {
        DrawPixelReadBack(g, r, x, y, color);
        r := DrawPixel(g, r, x, y, color);
        y := y + 1;
      }
      x := x + 1;
    }
    forall i | 0 <= i < |r|
      ensures r[i] == if black then Black else White
    {
      forall k | 0 <= k < 8
        ensures BitSet(r[i], k) == black
      {
        var px, py := PixelOfBit(g, i, k);
        assert PixelAt(g, r, px, py) == black;
      }
      ByteOfUniformBits(r[i], black);
    }
  }

  /**
    `map_value`: `out_start + ((out_end - out_start) / (in_end - in_start)) *
    (in - in_start)` in C arithmetic, returned as `int16_t`. The slope is
    truncated before it is applied, so an input inside the input range lands
    inside the output range but need not reach its far end.
   */
  function MapValue(input: Int16, inStart: Int16, inEnd: Int16, outStart: Int16, outEnd: Int16): (r: Int16)
    requires inStart != inEnd
    ensures Between(input, inStart, inEnd) ==> Between(r, outStart, outEnd)
  {
    var slope := CDiv(outEnd - outStart, inEnd - inStart);
    var offset := input - inStart;
    ScaledOffsetBetween(slope, offset, outEnd - outStart, inEnd - inStart);
    WrapInt16(outStart + slope * offset)
  }

  /**
    For an input inside its range the C's `int` arithmetic never leaves
    `int16_t`: the unwrapped value already lies between the output bounds,
    so the conversion on return changes nothing and no 32-bit overflow can
    occur.
   */
  lemma MapValueExact(input: Int16, inStart: Int16, inEnd: Int16, outStart: Int16, outEnd: Int16)
    requires inStart != inEnd && Between(input, inStart, inEnd)
    ensures var v := outStart + CDiv(outEnd - outStart, inEnd - inStart) * (input - inStart);
      && -0x8000 <= v < 0x8000
      && MapValue(input, inStart, inEnd, outStart, outEnd) == v
  {
    var slope := CDiv(outEnd - outStart, inEnd - inStart);
    ScaledOffsetBetween(slope, input - inStart, outEnd - outStart, inEnd - inStart);
  }

  /**
    A truncated slope `q` of `d / s` applied to an offset between 0 and `s`
    gives a step between 0 and `d`.
   */
  lemma ScaledOffsetBetween(q: int, t: int, d: int, s: int)
    requires s != 0 && Abs(q) * Abs(s) <= Abs(d)
    requires q > 0 ==> (d < 0) == (s < 0)
    requires q < 0 ==> (d < 0) != (s < 0)
    ensures Between(t, 0, s) ==> Between(q * t, 0, d)
  {
    if Between(t, 0, s) && q != 0 && t != 0 {
      AbsMul(q, t);
      MulMonotone(Abs(q), Abs(t), Abs(s));
      assert (q * t < 0) == ((q < 0) != (t < 0)) by {
        if q < 0 && t < 0 {
          assert q * t == (-q) * (-t);
        } else if q < 0 {
          assert q * t == -((-q) * t);
        } else if t < 0 {
          assert q * t == -(q * (-t));
        }
      }
    }
  }

  lemma AbsMul(a: int, b: int)
    ensures Abs(a * b) == Abs(a) * Abs(b)
  {
    if a < 0 && b < 0 {
      assert a * b == (-a) * (-b);
    } else if a < 0 {
      assert a * b == -((-a) * b);
    } else if b < 0 {
      assert a * b == -(a * (-b));
    }
  }

  lemma MulMonotone(a: nat, b: nat, c: nat)
    requires b <= c
    ensures a * b <= a * c
  {
    assert a * c == a * b + a * (c - b);
  }

  /**
    The demo maps random bytes with `map_value(v, 0, 255, 0, WIDTH)` and
    `map_value(v, 0, 255, 0, HEIGHT)`: the slopes truncate to 3 and 1, so
    x is `3 * v` (at most 765, never 800) and y is `v`; both land inside the
    panel.
   */
  lemma DemoCoordinates(v: int)
    requires 0 <= v < 256
    ensures MapValue(v, 0, 255, 0, Width) == 3 * v
    ensures MapValue(v, 0, 255, 0, Height) == v
    ensures InPanel(Panel, 3 * v, v)
    ensures MapValue(255, 0, 255, 0, Width) == 765
  {
    assert CDiv(800, 255) == 3;
    assert CDiv(480, 255) == 1;
  }
}
