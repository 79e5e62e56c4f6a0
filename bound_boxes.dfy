/**
 * The integer rectangle arithmetic of the drawing guard and of the square
 * crop around the hand. Coordinates are truncated toward zero, as Python's
 * int() does, before any of it.
 */
module BoundBoxes {
  import opened Wrappers
  import opened HandData
  import opened Extremes

  /** Python's int() on a float: truncation toward zero. */
  function Trunc(r: real): (n: int)
    ensures 0.0 <= r ==> 0 <= n && n as real <= r < n as real + 1.0
    ensures r < 0.0 ==> n <= 0 && n as real - 1.0 < r <= n as real
  {
    if r >= 0.0 then r.Floor else -((-r).Floor)
  }

  lemma TruncMonotone(a: real, b: real)
    requires a <= b
    ensures Trunc(a) <= Trunc(b)
  {
  }

  /** int(n / 2) for an integer n: true division, then truncation. */
  function HalfTowardZero(n: int): (h: int)
    ensures 0 <= n ==> 0 <= n - 2 * h <= 1
    ensures n < 0 ==> -1 <= n - 2 * h <= 0
  {
    if n >= 0 then n / 2 else -((-n) / 2)
  }

  function IntMin(a: int, b: int): int { if a <= b then a else b }
  function IntMax(a: int, b: int): int { if a >= b then a else b }

  datatype PixelBox = PixelBox(xMin: int, yMin: int, xMax: int, yMax: int)

  /** The truncated extremal coordinates of the positions: the smallest box
      holding every truncated point, each edge touched by one of them. */
  function HandBox(positions: seq<Point>): (b: PixelBox)
    requires |positions| > 0
    ensures b.xMin <= b.xMax && b.yMin <= b.yMax
    ensures forall p :: p in positions ==>
              b.xMin <= Trunc(p.x) <= b.xMax && b.yMin <= Trunc(p.y) <= b.yMax
    ensures exists p :: p in positions && Trunc(p.x) == b.xMin
    ensures exists p :: p in positions && Trunc(p.y) == b.yMin
    ensures exists p :: p in positions && Trunc(p.x) == b.xMax
    ensures exists p :: p in positions && Trunc(p.y) == b.yMax
  {
    var e := Envelope(positions);
    assert forall p :: p in positions ==>
             Trunc(e.xMin) <= Trunc(p.x) <= Trunc(e.xMax) && Trunc(e.yMin) <= Trunc(p.y) <= Trunc(e.yMax) by {
      forall p | p in positions
        ensures Trunc(e.xMin) <= Trunc(p.x) <= Trunc(e.xMax) && Trunc(e.yMin) <= Trunc(p.y) <= Trunc(e.yMax)
      {
        TruncMonotone(e.xMin, p.x);
        TruncMonotone(p.x, e.xMax);
        TruncMonotone(e.yMin, p.y);
        TruncMonotone(p.y, e.yMax);
      }
    }
    PixelBox(Trunc(e.xMin), Trunc(e.yMin), Trunc(e.xMax), Trunc(e.yMax))
  }

  datatype Rect = Rect(x1: int, y1: int, x2: int, y2: int)

  /** What cv2.rectangle and cv2.putText would receive. */
  datatype Drawing = Drawing(rect: Rect, caption: string, captionX: int, captionY: int)

  /** The padded rectangle drawn around the hand box. */
  function DrawRect(offset: int, b: PixelBox): Rect
  {
    Rect(b.xMin - offset - 40, b.yMin - offset - 15, b.xMax - offset + 50, b.yMax - offset + 40)
  }

  predicate WithinFrame(r: Rect, shape: Shape)
  {
    0 <= r.x1 && r.x2 <= shape.width && 0 <= r.y1 && r.y2 <= shape.height
  }

  /**
   * The box is drawn only when the padded rectangle lies wholly inside the
   * frame; otherwise nothing happens (None). A drawn rectangle has both
   * corners in the frame and, for offsets in [-15, 40], holds every
   * truncated position.
   */
  function DrawBoundBoxes(u: Utils, positions: seq<Point>, shape: Shape, cls: string): (r: Option<Drawing>)
    requires |positions| > 0
    ensures r.Some? <==> WithinFrame(DrawRect(u.offset, HandBox(positions)), shape)
    ensures r.Some? ==> r.value.rect == DrawRect(u.offset, HandBox(positions))
    ensures r.Some? ==> r.value.caption == cls && r.value.captionX == r.value.rect.x1
                        && r.value.captionY == r.value.rect.y1 - 5
    ensures r.Some? ==> 0 <= r.value.rect.x1 <= r.value.rect.x2 <= shape.width
                        && 0 <= r.value.rect.y1 <= r.value.rect.y2 <= shape.height
    ensures r.Some? && -15 <= u.offset <= 40 ==>
              forall p :: p in positions ==>
                r.value.rect.x1 <= Trunc(p.x) <= r.value.rect.x2 && r.value.rect.y1 <= Trunc(p.y) <= r.value.rect.y2
  {
    var b := HandBox(positions);
    var width := b.xMax - b.xMin;
    var height := b.yMax - b.yMin;
    var x1 := b.xMin;
    var y1 := b.yMin;
    var x2 := b.xMin + width;
    var y2 := b.yMin + height;
    if y1 - u.offset - 15 >= 0 && y2 - u.offset + 40 <= shape.height
       && x1 - u.offset - 40 >= 0 && x2 - u.offset + 50 <= shape.width
    then
      Some(Drawing(Rect(x1 - u.offset - 40, y1 - u.offset - 15, x2 - u.offset + 50, y2 - u.offset + 40),
                   cls, x1 - u.offset - 40, y1 - u.offset - 20))
    else
      None
  }

  /** Positions whose padded top edge lands one pixel above the frame are
      not drawn. */
  lemma DrawNoOpAtTopBoundary(u: Utils, positions: seq<Point>, shape: Shape, cls: string)
    requires |positions| > 0
    requires HandBox(positions).yMin - u.offset - 15 == -1
    ensures DrawBoundBoxes(u, positions, shape, cls) == None
  {
  }

  /** lado: the longer side of the hand box. */
  function Side(b: PixelBox): int
  {
    IntMax(b.xMax - b.xMin, b.yMax - b.yMin)
  }

  /**
   * The crop around the hand: its top-left corner lies lado / 2 + 50 before
   * the centre of the hand box (both halvings as int() does them), clamped
   * to 0, and each side is lado + 100 cut to what is left of the frame.
   */
  function GetImageResized(positions: seq<Point>, shape: Shape): (r: Rect)
    requires |positions| > 0
    ensures var b := HandBox(positions);
            r.x1 == IntMax(0, HalfTowardZero(b.xMin + b.xMax) - Side(b) / 2 - 50)
            && r.y1 == IntMax(0, HalfTowardZero(b.yMin + b.yMax) - Side(b) / 2 - 50)
    ensures r.x2 - r.x1 == IntMin(shape.width - r.x1, Side(HandBox(positions)) + 100)
    ensures r.y2 - r.y1 == IntMin(shape.height - r.y1, Side(HandBox(positions)) + 100)
  {
    CropOfBox(HandBox(positions), shape)
  }

  /** The crop computed from an ordered integer hand box b. */
  function CropOfBox(b: PixelBox, shape: Shape): (r: Rect)
    requires b.xMin <= b.xMax && b.yMin <= b.yMax
    ensures r.x1 == IntMax(0, HalfTowardZero(b.xMin + b.xMax) - Side(b) / 2 - 50)
    ensures r.y1 == IntMax(0, HalfTowardZero(b.yMin + b.yMax) - Side(b) / 2 - 50)
    ensures r.x2 - r.x1 == IntMin(shape.width - r.x1, Side(b) + 100)
    ensures r.y2 - r.y1 == IntMin(shape.height - r.y1, Side(b) + 100)
  {
    var width := b.xMax - b.xMin;
    var height := b.yMax - b.yMin;
    var centroX := HalfTowardZero(b.xMin + b.xMax);
    var centroY := HalfTowardZero(b.yMin + b.yMax);
    var lado := IntMax(width, height);
    var x1 := IntMax(0, centroX - lado / 2 - 50);
    var y1 := IntMax(0, centroY - lado / 2 - 50);
    var ancho := IntMin(shape.width - x1, lado + 100);
    var alto := IntMin(shape.height - y1, lado + 100);
    Rect(x1, y1, x1 + ancho, y1 + alto)
  }

  /**
   * The crop never starts above or left of the origin, never passes the
   * right or bottom edge and has sides of at most lado + 100. On an axis
   * whose start lies inside the frame it is non-empty; on one whose start
   * lies at or past the far edge it ends at that edge, so the rectangle is
   * empty or inverted.
   */
  lemma CropWithinFrame(positions: seq<Point>, shape: Shape)
    requires |positions| > 0
    ensures var r, lado := GetImageResized(positions, shape), Side(HandBox(positions));
            && 0 <= r.x1 && 0 <= r.y1
            && r.x2 <= shape.width && r.y2 <= shape.height
            && r.x2 - r.x1 <= lado + 100 && r.y2 - r.y1 <= lado + 100
            && (r.x1 < shape.width ==> r.x1 < r.x2)
            && (r.y1 < shape.height ==> r.y1 < r.y2)
            && (shape.width <= r.x1 ==> r.x2 == shape.width)
            && (shape.height <= r.y1 ==> r.y2 == shape.height)
  {
    var b := HandBox(positions);
    CropBounds(GetImageResized(positions, shape), Side(b), shape.width);
    CropBounds(GetImageResized(positions, shape).(x1 := GetImageResized(positions, shape).y1,
                                                 x2 := GetImageResized(positions, shape).y2),
               Side(b), shape.height);
  }

  /** One axis of the crop: a start clamped to 0 and a side cut to the
      extent left. */
  lemma CropBounds(r: Rect, lado: int, extent: int)
    requires 0 <= lado
    requires 0 <= r.x1 && r.x2 - r.x1 == IntMin(extent - r.x1, lado + 100)
    ensures r.x2 <= extent && r.x2 - r.x1 <= lado + 100
    ensures r.x1 < extent ==> r.x1 < r.x2
    ensures extent <= r.x1 ==> r.x2 == extent
  {
  }

  /** A hand box inside the frame is wholly inside its crop. */
  lemma CropCoversBox(positions: seq<Point>, shape: Shape)
    requires |positions| > 0
    requires 0 <= HandBox(positions).xMin && HandBox(positions).xMax <= shape.width
    requires 0 <= HandBox(positions).yMin && HandBox(positions).yMax <= shape.height
    ensures var b, r := HandBox(positions), GetImageResized(positions, shape);
            r.x1 <= b.xMin && b.xMax <= r.x2 && r.y1 <= b.yMin && b.yMax <= r.y2
  {
  }

  /** When the square centred on the box fits in the frame, the crop is that
      square: both sides are lado + 100. */
  lemma CropIsSquareAwayFromEdges(positions: seq<Point>, shape: Shape)
    requires |positions| > 0
    requires var b := HandBox(positions);
             0 <= b.xMin && Side(b) + 101 <= b.xMin + b.xMax && b.xMin + b.xMax + Side(b) + 101 <= 2 * shape.width
    requires var b := HandBox(positions);
             0 <= b.yMin && Side(b) + 101 <= b.yMin + b.yMax && b.yMin + b.yMax + Side(b) + 101 <= 2 * shape.height
    ensures var r := GetImageResized(positions, shape);
            r.x2 - r.x1 == Side(HandBox(positions)) + 100 && r.y2 - r.y1 == Side(HandBox(positions)) + 100
  {
  }
}
