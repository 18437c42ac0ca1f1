/**
 * Placement of a watermark on an image: the anchor switch of `WatermarkConfig.calculatePosition`
 * followed by its clamp into the image, in Java 32-bit `int` arithmetic.
 */
module Geometry {
  import opened JavaInt

  datatype Position =
    | TopLeft | TopCenter | TopRight
    | MiddleLeft | MiddleCenter | MiddleRight
    | BottomLeft | BottomCenter | BottomRight
    | Custom

  datatype WatermarkType = Text | Image

  datatype Point = Point(x: int, y: int)

  /** Where an anchor sits along one axis: at the near edge, centred, or at the far edge. */
  datatype Side = Near | Middle | Far

  function ColumnOf(p: Position): Side
  {
    match p
    case TopLeft | MiddleLeft | BottomLeft | Custom => Near
    case TopCenter | MiddleCenter | BottomCenter => Middle
    case TopRight | MiddleRight | BottomRight => Far
  }

  function RowOf(p: Position): Side
  {
    match p
    case TopLeft | TopCenter | TopRight | Custom => Near
    case MiddleLeft | MiddleCenter | MiddleRight => Middle
    case BottomLeft | BottomCenter | BottomRight => Far
  }

  /** One coordinate of an anchor before clamping: `offset`, `(size - wm) / 2 + offset` or `size - wm - offset`. */
  function AxisAnchor(side: Side, size: Int32, wm: Int32, offset: Int32): Int32
  {
    match side
    case Near => offset
    case Middle => Add32(Div32(Sub32(size, wm), 2), offset)
    case Far => Sub32(Sub32(size, wm), offset)
  }

  /** The switch over the position before the clamp, one case per enum constant (CUSTOM is also the default). */
  function AnchorPoint(pos: Position, imageWidth: Int32, imageHeight: Int32, wmWidth: Int32, wmHeight: Int32,
                       offsetX: Int32, offsetY: Int32): (p: Point)
    ensures p == Point(AxisAnchor(ColumnOf(pos), imageWidth, wmWidth, offsetX),
                       AxisAnchor(RowOf(pos), imageHeight, wmHeight, offsetY))
  {
    var center := Add32(Div32(Sub32(imageWidth, wmWidth), 2), offsetX);
    var right := Sub32(Sub32(imageWidth, wmWidth), offsetX);
    var middle := Add32(Div32(Sub32(imageHeight, wmHeight), 2), offsetY);
    var bottom := Sub32(Sub32(imageHeight, wmHeight), offsetY);
    match pos
    case TopLeft => Point(offsetX, offsetY)
    case TopCenter => Point(center, offsetY)
    case TopRight => Point(right, offsetY)
    case MiddleLeft => Point(offsetX, middle)
    case MiddleCenter => Point(center, middle)
    case MiddleRight => Point(right, middle)
    case BottomLeft => Point(offsetX, bottom)
    case BottomCenter => Point(center, bottom)
    case BottomRight => Point(right, bottom)
    case Custom => Point(offsetX, offsetY)
  }

  /** `Math.max(0, Math.min(v, limit))`. */
  function ClampAxis(v: Int32, limit: Int32): (r: Int32)
    ensures r >= 0
    ensures limit >= 0 ==> r <= limit
    ensures limit < 0 ==> r == 0
    ensures 0 <= v <= limit ==> r == v
  {
    if v < limit then (if v < 0 then 0 else v) else (if limit < 0 then 0 else limit)
  }

  /** `WatermarkConfig.calculatePosition`: the anchor, then clamped so the watermark stays inside the image. */
  function CalculatePosition(pos: Position, imageWidth: Int32, imageHeight: Int32, wmWidth: Int32, wmHeight: Int32,
                             offsetX: Int32, offsetY: Int32): (p: Point)
    ensures 0 <= p.x <= MAX32 && 0 <= p.y <= MAX32
    ensures 0 <= wmWidth <= imageWidth ==> p.x <= imageWidth - wmWidth
    ensures 0 <= wmHeight <= imageHeight ==> p.y <= imageHeight - wmHeight
    ensures 0 <= imageWidth < wmWidth ==> p.x == 0
    ensures 0 <= imageHeight < wmHeight ==> p.y == 0
    ensures var a := AnchorPoint(pos, imageWidth, imageHeight, wmWidth, wmHeight, offsetX, offsetY);
      (0 <= wmWidth && 0 <= imageWidth && 0 <= a.x <= imageWidth - wmWidth ==> p.x == a.x) &&
      (0 <= wmHeight && 0 <= imageHeight && 0 <= a.y <= imageHeight - wmHeight ==> p.y == a.y)
  {
    var a := AnchorPoint(pos, imageWidth, imageHeight, wmWidth, wmHeight, offsetX, offsetY);
    Point(ClampAxis(a.x, Sub32(imageWidth, wmWidth)), ClampAxis(a.y, Sub32(imageHeight, wmHeight)))
  }

  /**
   * With non-negative sizes and no overflow, the anchors read as margins: near anchors sit `offset`
   * from the left/top edge, far anchors leave `offset` between the watermark and the right/bottom edge.
   */
  lemma AxisAnchorAsMargin(side: Side, size: Int32, wm: Int32, offset: Int32)
    requires 0 <= wm <= size
    requires side == Middle ==> InRange32((size - wm) / 2 + offset)
    requires side == Far ==> InRange32(size - wm - offset)
    ensures side == Near ==> AxisAnchor(side, size, wm, offset) == offset
    ensures side == Middle ==> AxisAnchor(side, size, wm, offset) == (size - wm) / 2 + offset
    ensures side == Far ==> AxisAnchor(side, size, wm, offset) + wm + offset == size
  {
  }

  /** BOTTOM_RIGHT with margins that fit: the watermark's right and bottom edges are exactly offsetX/offsetY inside the image. */
  lemma BottomRightKeepsMargins(imageWidth: Int32, imageHeight: Int32, wmWidth: Int32, wmHeight: Int32,
                                offsetX: Int32, offsetY: Int32)
    requires 0 <= wmWidth && 0 <= offsetX && wmWidth + offsetX <= imageWidth
    requires 0 <= wmHeight && 0 <= offsetY && wmHeight + offsetY <= imageHeight
    ensures var p := CalculatePosition(BottomRight, imageWidth, imageHeight, wmWidth, wmHeight, offsetX, offsetY);
      p.x + wmWidth + offsetX == imageWidth && p.y + wmHeight + offsetY == imageHeight
  {
    AxisAnchorAsMargin(Far, imageWidth, wmWidth, offsetX);
    AxisAnchorAsMargin(Far, imageHeight, wmHeight, offsetY);
  }

  /** TOP_LEFT and CUSTOM place the watermark identically, for every input. */
  lemma TopLeftIsCustom(imageWidth: Int32, imageHeight: Int32, wmWidth: Int32, wmHeight: Int32,
                        offsetX: Int32, offsetY: Int32)
    ensures CalculatePosition(TopLeft, imageWidth, imageHeight, wmWidth, wmHeight, offsetX, offsetY)
         == CalculatePosition(Custom, imageWidth, imageHeight, wmWidth, wmHeight, offsetX, offsetY)
  {
  }

  /**
   * The centre anchors divide with Java's truncating division; after the clamp the result is the same
   * as with Euclidean division, because a negative `size - wm` clamps to 0 either way.
   */
  lemma CentreDivisionAgrees(size: Int32, wm: Int32, offset: Int32)
    ensures var lim := Sub32(size, wm);
      ClampAxis(Add32(Div32(lim, 2), offset), lim) == ClampAxis(Add32(lim / 2, offset), lim)
  {
    var lim := Sub32(size, wm);
    if lim >= 0 {
      assert Div32(lim, 2) == lim / 2;
    }
  }

  /** MIDDLE_CENTER with zero offsets: the space left and right (above and below) differ by at most one pixel. */
  lemma MiddleCenterIsCentred(imageWidth: Int32, imageHeight: Int32, wmWidth: Int32, wmHeight: Int32)
    requires 0 <= wmWidth <= imageWidth && 0 <= wmHeight <= imageHeight
    ensures var p := CalculatePosition(MiddleCenter, imageWidth, imageHeight, wmWidth, wmHeight, 0, 0);
      var right := imageWidth - wmWidth - p.x;
      var below := imageHeight - wmHeight - p.y;
      0 <= right - p.x <= 1 && 0 <= below - p.y <= 1
  {
    AxisAnchorAsMargin(Middle, imageWidth, wmWidth, 0);
    AxisAnchorAsMargin(Middle, imageHeight, wmHeight, 0);
  }
}
