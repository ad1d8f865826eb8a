/**
  `draw_line` of the example applications: integer Bresenham stepping from
  (x1, y1) to (x2, y2), endpoints inclusive. The function `Walk` is the
  reference definition of the points the loop visits; `DrawLine` is the
  loop itself, proved to paint exactly those points.
 */
module Line {
  import opened Defs
  import opened CInt
  import opened Framebuffer

  /** The arguments of one `draw_line` call. */
  datatype Segment = Segment(x1: U16, y1: U16, x2: U16, y2: U16)

  /** `deltaX = abs(x2 - x1)`. */
  function Dx(s: Segment): nat {
    Abs(s.x2 - s.x1)
  }

  /** `deltaY = abs(y2 - y1)`. */
  function Dy(s: Segment): nat {
    Abs(s.y2 - s.y1)
  }

  /** `signX = (x1 < x2) ? 1 : -1`. */
  function Sx(s: Segment): int {
    if s.x1 < s.x2 then 1 else -1
  }

  /** `signY = (y1 < y2) ? 1 : -1`. */
  function Sy(s: Segment): int {
    if s.y1 < s.y2 then 1 else -1
  }

  /** The loop state: the moving point (x1, y1) and `error`. */
  datatype Cursor = Cursor(x: int, y: int, err: int)

  /** Before the first iteration: `error = deltaX - deltaY`. */
  function Start(s: Segment): Cursor {
    Cursor(s.x1, s.y1, Dx(s) - Dy(s))
  }

  /** The loop condition `(x1 != x2) || (y1 != y2)` is false. */
  predicate AtEnd(s: Segment, c: Cursor) {
    c.x == s.x2 && c.y == s.y2
  }

  /** Taxicab distance still to cover; it bounds the iterations left. */
  function Remaining(s: Segment, c: Cursor): nat {
    Abs(s.x2 - c.x) + Abs(s.y2 - c.y)
  }

  /**
    The Bresenham invariant. The cursor stays inside the box spanned by the
    endpoints (so the `uint16_t` coordinates never wrap), the error term is
    `deltaX - deltaY` corrected by the distance already covered on each axis,
    and it stays within `[-2 deltaY, 2 deltaX]`, so `error * 2` fits in an
    `int32_t`.
   */
  predicate OnTrack(s: Segment, c: Cursor) {
    && Between(c.x, s.x1, s.x2)
    && Between(c.y, s.y1, s.y2)
    && c.err == Dx(s) - Dy(s) + Abs(s.x2 - c.x) * Dy(s) - Abs(s.y2 - c.y) * Dx(s)
    && -2 * Dy(s) <= c.err <= 2 * Dx(s)
  }

  /** One iteration of the loop body after the pixel is drawn. */
  function Step(s: Segment, c: Cursor): Cursor {
    var dx: int, dy: int := Dx(s), Dy(s);
    var e2 := c.err * 2;
    var c1 := if e2 > -dy then Cursor(c.x + Sx(s), c.y, c.err - dy) else c;
    if e2 < dx then Cursor(c1.x, c1.y + Sy(s), c1.err + dx) else c1
  }

  lemma StartOnTrack(s: Segment)
    ensures OnTrack(s, Start(s))
  {
    assert Dx(s) * Dy(s) == Dy(s) * Dx(s);
  }

  /**
    The arithmetic core of one iteration, on the distances `a`, `b` still
    to cover: the error decides at least one step, never a step on an axis
    that has arrived, and the stepped error keeps both the closed form and
    the `[-2 deltaY, 2 deltaX]` bound.
   */
  lemma ErrorStep(dx: int, dy: int, a: int, b: int, e: int)
    requires 0 <= a <= dx && 0 <= b <= dy && a + b > 0
    requires e == dx - dy + a * dy - b * dx
    requires -2 * dy <= e <= 2 * dx
    ensures var stepX, stepY := e * 2 > -dy, e * 2 < dx;
      var a', b' := (if stepX then a - 1 else a), (if stepY then b - 1 else b);
      var e' := e - (if stepX then dy else 0) + (if stepY then dx else 0);
      && (stepX || stepY)
      && (stepX ==> a > 0)
      && (stepY ==> b > 0)
      && e' == dx - dy + a' * dy - b' * dx
      && -2 * dy <= e' <= 2 * dx
  {
    if a == 0 {
      // x has arrived, so y has not: the error is at most -deltaY.
      assert b * dx >= dx;
    }
    if b == 0 {
      // y has arrived, so x has not: the error is at least deltaX.
      assert a * dy >= dy;
    }
    assert (a - 1) * dy == a * dy - dy;
    assert (b - 1) * dx == b * dx - dx;
  }

  /**
    Each iteration moves each coordinate by at most one, at least one of
    them strictly closer to its target, and never past it: the invariant is
    kept and the remaining distance shrinks.
   */
  lemma StepProgress(s: Segment, c: Cursor)
    requires OnTrack(s, c) && !AtEnd(s, c)
    ensures OnTrack(s, Step(s, c))
    ensures Remaining(s, Step(s, c)) < Remaining(s, c)
    ensures Abs(Step(s, c).x - c.x) <= 1 && Abs(Step(s, c).y - c.y) <= 1
  {
    var dx: int, dy: int := Dx(s), Dy(s);
    var a: int, b: int := Abs(s.x2 - c.x), Abs(s.y2 - c.y);
    ErrorStep(dx, dy, a, b, c.err);
    var stepX, stepY := c.err * 2 > -dy, c.err * 2 < dx;
    var n := Step(s, c);
    assert n.x == if stepX then c.x + Sx(s) else c.x;
    assert n.y == if stepY then c.y + Sy(s) else c.y;
    assert n.err == c.err - (if stepX then dy else 0) + (if stepY then dx else 0);
    assert Abs(s.x2 - n.x) == if stepX then a - 1 else a;
    assert Abs(s.y2 - n.y) == if stepY then b - 1 else b;
  }

  /**
    The points the loop draws from cursor `c` on, one per iteration, in
    order; the target itself is not among them.
   */
  function Walk(s: Segment, c: Cursor): seq<Point>
    requires OnTrack(s, c)
    decreases Remaining(s, c)
  {
    if AtEnd(s, c) then []
    else
      StepProgress(s, c);
      [Point(c.x, c.y)] + Walk(s, Step(s, c))
  }

  /**
    Every point `draw_line(x1, y1, x2, y2, ...)` draws, in drawing order:
    the target first, then the walk from the start.
   */
  function LinePoints(x1: U16, y1: U16, x2: U16, y2: U16): seq<Point> {
    var s := Segment(x1, y1, x2, y2);
    StartOnTrack(s);
    [Point(x2, y2)] + Walk(s, Start(s))
  }

  /** Painting `p` and then `rest` is painting `[p] + rest`. */
  lemma PaintCons(g: Geometry, buf: seq<Byte>, p: Point, rest: seq<Point>, color: Byte)
    requires ValidGeometry(g) && IsFramebuffer(g, buf)
    ensures PaintPoints(g, buf, [p] + rest, color) == PaintPoints(g, DrawPixel(g, buf, p.x, p.y, color), rest, color)
  {
    PaintPointsAppend(g, buf, [p], rest, color);
    assert [p][1..] == [];
  }

  /**
    The stepping half of the loop body, on the C locals: `error2 = error * 2`,
    then the x step when `error2 > -deltaY` and the y step when
    `error2 < deltaX`, both decided on the same `error2`. From any cursor on
    track and short of the target it keeps the invariant, shortens the
    remaining distance, and leaves the rest of the walk to draw: the walk
    from the old cursor is its point followed by the walk from the new one.
   */
  method Advance(ghost s: Segment, deltaX: int, deltaY: int, signX: int, signY: int, x: int, y: int, error: int)
    returns (nx: int, ny: int, nextError: int)
    requires deltaX == Dx(s) && deltaY == Dy(s) && signX == Sx(s) && signY == Sy(s)
    requires OnTrack(s, Cursor(x, y, error)) && !AtEnd(s, Cursor(x, y, error))
    ensures OnTrack(s, Cursor(nx, ny, nextError))
    ensures Remaining(s, Cursor(nx, ny, nextError)) < Remaining(s, Cursor(x, y, error))
    ensures Walk(s, Cursor(x, y, error)) == [Point(x, y)] + Walk(s, Cursor(nx, ny, nextError))
  {
    nx, ny, nextError := x, y, error;
    var error2 := error * 2;
    if error2 > -deltaY {
      nextError := nextError - deltaY;
      nx := nx + signX;
    }
    if error2 < deltaX {
      nextError := nextError + deltaX;
      ny := ny + signY;
    }
    assert Cursor(nx, ny, nextError) == Step(s, Cursor(x, y, error));
    StepProgress(s, Cursor(x, y, error));
  }

  /**
    `draw_line`: the buffer afterwards is the buffer with every point of
    `LinePoints` drawn. A pixel of the panel is in the line's colour when it
    is one of those points and unchanged otherwise; both endpoints are drawn,
    and a line from a point to itself draws that one pixel.
   */
  method DrawLine(g: Geometry, buf: seq<Byte>, x1: U16, y1: U16, x2: U16, y2: U16, color: Byte) returns (r: seq<Byte>)
    requires ValidGeometry(g) && IsFramebuffer(g, buf)
    ensures r == PaintPoints(g, buf, LinePoints(x1, y1, x2, y2), color)
    ensures forall x: U16, y: U16 | InPanel(g, x, y) ::
      PixelAt(g, r, x, y) == if Point(x, y) in LinePoints(x1, y1, x2, y2) then color == Black else PixelAt(g, buf, x, y)
    ensures InPanel(g, x1, y1) ==> PixelAt(g, r, x1, y1) == (color == Black)
    ensures InPanel(g, x2, y2) ==> PixelAt(g, r, x2, y2) == (color == Black)
    ensures x1 == x2 && y1 == y2 ==> r == DrawPixel(g, buf, x1, y1, color)
  {
    ghost var s := Segment(x1, y1, x2, y2);
    var deltaX: int := Abs(x2 - x1);
    var deltaY: int := Abs(y2 - y1);
    var signX := if x1 < x2 then 1 else -1;
    var signY := if y1 < y2 then 1 else -1;
    var error := deltaX - deltaY;
    var cx: int, cy: int := x1, y1;
    assert deltaX == Dx(s) && deltaY == Dy(s) && signX == Sx(s) && signY == Sy(s);
    StartOnTrack(s);
    PaintCons(g, buf, Point(x2, y2), Walk(s, Start(s)), color);
    r := DrawPixel(g, buf, x2, y2, color);
    while cx != x2 || cy != y2
      invariant OnTrack(s, Cursor(cx, cy, error))
      invariant IsFramebuffer(g, r)
      invariant PaintPoints(g, r, Walk(s, Cursor(cx, cy, error)), color)
             == PaintPoints(g, buf, LinePoints(x1, y1, x2, y2), color)
      decreases Remaining(s, Cursor(cx, cy, error))
    {
      ghost var before := r;
      r := DrawPixel(g, r, cx, cy, color);
      var nx, ny, ne := Advance(s, deltaX, deltaY, signX, signY, cx, cy, error);
      PaintCons(g, before, Point(cx, cy), Walk(s, Cursor(nx, ny, ne)), color);
      cx, cy, error := nx, ny, ne;
    }
    LinePixels(g, buf, x1, y1, x2, y2, color);
  }

  /**
    What painting a line's points does to the panel: a pixel is in the
    line's colour when it is one of the points and unchanged otherwise; both
    endpoints are drawn, and a line from a point to itself is a single pixel.
   */
  lemma LinePixels(g: Geometry, buf: seq<Byte>, x1: U16, y1: U16, x2: U16, y2: U16, color: Byte)
    requires ValidGeometry(g) && IsFramebuffer(g, buf)
    ensures var r := PaintPoints(g, buf, LinePoints(x1, y1, x2, y2), color);
      && (forall x: U16, y: U16 | InPanel(g, x, y) ::
            PixelAt(g, r, x, y) == if Point(x, y) in LinePoints(x1, y1, x2, y2) then color == Black else PixelAt(g, buf, x, y))
      && (InPanel(g, x1, y1) ==> PixelAt(g, r, x1, y1) == (color == Black))
      && (InPanel(g, x2, y2) ==> PixelAt(g, r, x2, y2) == (color == Black))
      && (x1 == x2 && y1 == y2 ==> r == DrawPixel(g, buf, x1, y1, color))
  {
    var pts := LinePoints(x1, y1, x2, y2);
    LineEndpoints(x1, y1, x2, y2);
    forall x: U16, y: U16 | InPanel(g, x, y)
      ensures PixelAt(g, PaintPoints(g, buf, pts, color), x, y)
           == if Point(x, y) in pts then color == Black else PixelAt(g, buf, x, y)
    {
      PaintPointsEffect(g, buf, pts, color, x, y);
    }
    if x1 == x2 && y1 == y2 {
      DegenerateLine(x1, y1);
    }
  }

  /** Both endpoints are among the points drawn. */
  lemma LineEndpoints(x1: U16, y1: U16, x2: U16, y2: U16)
    ensures Point(x1, y1) in LinePoints(x1, y1, x2, y2)
    ensures Point(x2, y2) in LinePoints(x1, y1, x2, y2)
  {
    var s := Segment(x1, y1, x2, y2);
    StartOnTrack(s);
    if !AtEnd(s, Start(s)) {
      assert Walk(s, Start(s))[0] == Point(x1, y1);
    }
  }

  /** A line from a point to itself is that single point. */
  lemma DegenerateLine(x: U16, y: U16)
    ensures LinePoints(x, y, x, y) == [Point(x, y)]
  {
    var s := Segment(x, y, x, y);
    StartOnTrack(s);
    assert Walk(s, Start(s)) == [];
  }

  /** Every point of the walk lies in the box spanned by the endpoints. */
  lemma {:induction false} WalkInBox(s: Segment, c: Cursor)
    requires OnTrack(s, c)
    ensures forall p | p in Walk(s, c) :: Between(p.x, s.x1, s.x2) && Between(p.y, s.y1, s.y2)
    decreases Remaining(s, c)
  {
    if !AtEnd(s, c) {
      StepProgress(s, c);
      WalkInBox(s, Step(s, c));
    }
  }

  /** No point drawn lies outside the box spanned by the endpoints. */
  lemma LineInBox(x1: U16, y1: U16, x2: U16, y2: U16)
    ensures forall p | p in LinePoints(x1, y1, x2, y2) :: Between(p.x, x1, x2) && Between(p.y, y1, y2)
  {
    var s := Segment(x1, y1, x2, y2);
    StartOnTrack(s);
    WalkInBox(s, Start(s));
  }

  /**
    `draw_line` over `draw_pixel` as written, whose guard lets column
    `width` and row `height` through. When both endpoints are inside the
    panel every point is, and it paints exactly what `DrawLine` paints.
   */
  function DrawLineAsWritten(g: Geometry, buf: seq<Byte>, x1: U16, y1: U16, x2: U16, y2: U16, color: Byte): (w: PixelWrite)
    requires ValidGeometry(g) && IsFramebuffer(g, buf)
    ensures InPanel(g, x1, y1) && InPanel(g, x2, y2) ==>
      w == Written(PaintPoints(g, buf, LinePoints(x1, y1, x2, y2), color))
  {
    var pts := LinePoints(x1, y1, x2, y2);
    LineInBox(x1, y1, x2, y2);
    assert InPanel(g, x1, y1) && InPanel(g, x2, y2) ==>
      forall i | 0 <= i < |pts| :: InPanel(g, pts[i].x, pts[i].y) by {
      if InPanel(g, x1, y1) && InPanel(g, x2, y2) {
        forall i | 0 <= i < |pts|
          ensures InPanel(g, pts[i].x, pts[i].y)
        {
          assert pts[i] in pts;
        }
      }
    }
    PaintPointsAsWritten(g, buf, pts, color)
  }

  /**
    The guard's off-by-one reaches `draw_line` on the 800 x 480 panel: a
    line at column 800 blackens pixel (0, 1), which the corrected drawing
    leaves alone, and a line on row 480 writes past the end of the buffer.
   */
  lemma LineGuardCounterexamples(buf: seq<Byte>)
    requires IsFramebuffer(Panel, buf)
    ensures DrawLineAsWritten(Panel, buf, 800, 0, 800, 0, Black) == Written(DrawPixel(Panel, buf, 0, 1, Black))
    ensures PaintPoints(Panel, buf, LinePoints(800, 0, 800, 0), Black) == buf
    ensures DrawLineAsWritten(Panel, buf, 0, 480, 0, 480, Black) == OutOfBounds(48000)
  {
    PanelGeometry();
    PanelGuardCounterexamples(buf);
    DegenerateLine(800, 0);
    DegenerateLine(0, 480);
    var one := [Point(800, 0)];
    assert one[1..] == [];
    var other := [Point(0, 480)];
    assert other[1..] == [];
  }

  /**
    The demo's lines have endpoints `(3a, b)` and `(3c, d)` for bytes a, b,
    c, d, all inside the panel, so there the code as written and the
    corrected drawing agree.
   */
  lemma DemoLinesAgree(buf: seq<Byte>, a: int, b: int, c: int, d: int)
    requires IsFramebuffer(Panel, buf)
    requires 0 <= a < 256 && 0 <= b < 256 && 0 <= c < 256 && 0 <= d < 256
    ensures DrawLineAsWritten(Panel, buf, 3 * a, b, 3 * c, d, Black)
         == Written(PaintPoints(Panel, buf, LinePoints(3 * a, b, 3 * c, d), Black))
  {
    PanelGeometry();
    DemoCoordinates(a);
    DemoCoordinates(c);
    assert InPanel(Panel, 3 * b, b) && InPanel(Panel, 3 * d, d) by {
      DemoCoordinates(b);
      DemoCoordinates(d);
    }
  }

  /**
    The number of iterations from cursor `c` lies between the larger of the
    two remaining axis distances and their sum.
   */
  lemma {:induction false} WalkLength(s: Segment, c: Cursor)
    requires OnTrack(s, c)
    ensures Abs(s.x2 - c.x) <= |Walk(s, c)| && Abs(s.y2 - c.y) <= |Walk(s, c)|
    ensures |Walk(s, c)| <= Remaining(s, c)
    decreases Remaining(s, c)
  {
    if !AtEnd(s, c) {
      StepProgress(s, c);
      WalkLength(s, Step(s, c));
    }
  }

  /** The loop body runs at least max(deltaX, deltaY) and at most deltaX + deltaY times. */
  lemma LineIterations(x1: U16, y1: U16, x2: U16, y2: U16)
    ensures var s := Segment(x1, y1, x2, y2);
      Dx(s) <= |LinePoints(x1, y1, x2, y2)| - 1 <= Dx(s) + Dy(s)
      && Dy(s) <= |LinePoints(x1, y1, x2, y2)| - 1
  {
    var s := Segment(x1, y1, x2, y2);
    StartOnTrack(s);
    WalkLength(s, Start(s));
  }

  /**
    On a row (`y == y2`) the walk from `c` covers every column from `c.x`
    toward `x2`, excluding `x2`, and nothing else.
   */
  lemma {:induction false} WalkAlongRow(s: Segment, c: Cursor)
    requires OnTrack(s, c) && s.y1 == s.y2
    ensures forall p: Point :: p in Walk(s, c) <==> p.y == s.y2 && Between(p.x, c.x, s.x2) && p.x != s.x2
    decreases Remaining(s, c)
  {
    if !AtEnd(s, c) {
      StepProgress(s, c);
      WalkAlongRow(s, Step(s, c));
    }
  }

  /** On a column (`x == x2`) the walk covers every row from `c.y` toward `y2`, excluding `y2`. */
  lemma {:induction false} WalkAlongColumn(s: Segment, c: Cursor)
    requires OnTrack(s, c) && s.x1 == s.x2
    ensures forall p: Point :: p in Walk(s, c) <==> p.x == s.x2 && Between(p.y, c.y, s.y2) && p.y != s.y2
    decreases Remaining(s, c)
  {
    if !AtEnd(s, c) {
      StepProgress(s, c);
      WalkAlongColumn(s, Step(s, c));
    }
  }

  /** A horizontal line draws exactly the inclusive run of its row between the endpoints. */
  lemma HorizontalLine(x1: U16, x2: U16, y: U16)
    ensures forall p: Point :: p in LinePoints(x1, y, x2, y) <==> p.y == y && Between(p.x, x1, x2)
  {
    var s := Segment(x1, y, x2, y);
    StartOnTrack(s);
    WalkAlongRow(s, Start(s));
  }

  /** A vertical line draws exactly the inclusive run of its column between the endpoints. */
  lemma VerticalLine(x: U16, y1: U16, y2: U16)
    ensures forall p: Point :: p in LinePoints(x, y1, x, y2) <==> p.x == x && Between(p.y, y1, y2)
  {
    var s := Segment(x, y1, x, y2);
    StartOnTrack(s);
    WalkAlongColumn(s, Start(s));
  }

  /** A walk of exactly two iterations draws the cursor and its successor. */
  lemma WalkTwo(s: Segment, c: Cursor)
    requires OnTrack(s, c) && !AtEnd(s, c)
    requires !AtEnd(s, Step(s, c)) && AtEnd(s, Step(s, Step(s, c)))
    ensures OnTrack(s, Step(s, c))
    ensures Walk(s, c) == [Point(c.x, c.y), Point(Step(s, c).x, Step(s, c).y)]
  {
    var c1 := Step(s, c);
    StepProgress(s, c);
    StepProgress(s, c1);
    assert Walk(s, Step(s, c1)) == [];
    assert Walk(s, c1) == [Point(c1.x, c1.y)];
  }

  /** From (x, y) to (x + 2, y + 1) the line passes (x + 1, y). */
  lemma LineDownRight(x: U16, y: U16)
    requires x < 0xFFFE && y < 0xFFFF
    ensures LinePoints(x, y, x + 2, y + 1) == [Point(x + 2, y + 1), Point(x, y), Point(x + 1, y)]
  {
    var s := Segment(x, y, x + 2, y + 1);
    assert Start(s) == Cursor(x, y, 1);
    assert Step(s, Cursor(x, y, 1)) == Cursor(x + 1, y, 0);
    assert Step(s, Cursor(x + 1, y, 0)) == Cursor(x + 2, y + 1, 1);
    StartOnTrack(s);
    WalkTwo(s, Start(s));
  }

  /** From (x + 2, y + 1) back to (x, y) the line passes (x + 1, y + 1). */
  lemma LineUpLeft(x: U16, y: U16)
    requires x < 0xFFFE && y < 0xFFFF
    ensures LinePoints(x + 2, y + 1, x, y) == [Point(x, y), Point(x + 2, y + 1), Point(x + 1, y + 1)]
  {
    var s := Segment(x + 2, y + 1, x, y);
    assert Start(s) == Cursor(x + 2, y + 1, 1);
    assert Step(s, Cursor(x + 2, y + 1, 1)) == Cursor(x + 1, y + 1, 0);
    assert Step(s, Cursor(x + 1, y + 1, 0)) == Cursor(x, y, 1);
    StartOnTrack(s);
    WalkTwo(s, Start(s));
  }

  /**
    The stepping is not direction-symmetric: reversing the endpoints can
    change the set of pixels drawn.
   */
  lemma LineNotSymmetric(x: U16, y: U16)
    requires x < 0xFFFE && y < 0xFFFF
    ensures Point(x + 1, y) in LinePoints(x, y, x + 2, y + 1)
    ensures Point(x + 1, y) !in LinePoints(x + 2, y + 1, x, y)
    ensures Point(x + 1, y + 1) !in LinePoints(x, y, x + 2, y + 1)
    ensures Point(x + 1, y + 1) in LinePoints(x + 2, y + 1, x, y)
  {
    LineDownRight(x, y);
    LineUpLeft(x, y);
  }
}
