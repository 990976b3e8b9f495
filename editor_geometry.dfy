/**
 * The geometry both corner editors share (src/views/ocr/ts/editor-persp-crop.ts and
 * src/views/ocr/ts/editor-crop.ts compute it the same way): the "contain" fit of the
 * image in its container, clamping to the image, the display coordinates and the
 * three kinds of drag.
 */
module EditorGeometry {
  import opened Wrappers
  import opened Types

  // ---------------------------------------------------------------------------
  // Display area
  // ---------------------------------------------------------------------------

  /** Where the image is drawn inside its container, and at what scale. */
  datatype Area = Area(left: real, top: real, width: real, height: real, scaleX: real, scaleY: real)

  /** The area used while a size is still unknown. */
  const DefaultArea := Area(0.0, 0.0, 0.0, 0.0, 1.0, 1.0)

  /**
   * `displayArea`: the image scaled to fit the container without distortion
   * (`object-fit: contain`), centred along the axis with room to spare. Any zero size
   * gives the default area.
   */
  function DisplayArea(imageWidth: real, imageHeight: real, containerWidth: real, containerHeight: real): (a: Area)
    ensures imageWidth == 0.0 || imageHeight == 0.0 || containerWidth == 0.0 || containerHeight == 0.0 ==> a == DefaultArea
    ensures a.scaleX != 0.0 && a.scaleY != 0.0
  {
    if imageWidth == 0.0 || imageHeight == 0.0 || containerWidth == 0.0 || containerHeight == 0.0 then DefaultArea
    else
      var imageRatio := imageWidth / imageHeight;
      var containerRatio := containerWidth / containerHeight;
      var isWider := imageRatio > containerRatio;
      var width := if isWider then containerWidth else containerHeight * imageRatio;
      var height := if isWider then containerWidth / imageRatio else containerHeight;
      NonZeroQuotient(imageWidth, imageHeight);
      NonZeroQuotient(containerWidth, imageRatio);
      NonZeroQuotient(width, imageWidth);
      NonZeroQuotient(height, imageHeight);
      Area(if isWider then 0.0 else (containerWidth - width) / 2.0,
           if isWider then (containerHeight - height) / 2.0 else 0.0,
           width, height, width / imageWidth, height / imageHeight)
  }

  lemma NonZeroQuotient(a: real, b: real)
    requires a != 0.0 && b != 0.0
    ensures a / b != 0.0
  {
    assert (a / b) * b == a;
  }

  /** `a / b == c / d` when `a * d == c * b`, for non-zero `b` and `d`. */
  lemma QuotientsEqual(a: real, b: real, c: real, d: real)
    requires b != 0.0 && d != 0.0 && a * d == c * b
    ensures a / b == c / d
  {
    assert (a / b) * b == a;
    assert (c / d) * d == c;
    assert (a / b) * (b * d) == (c / d) * (b * d);
  }

  /** `a / b <= c` exactly when `a <= c * b`, for positive `b`. */
  lemma QuotientAtMost(a: real, b: real, c: real)
    requires b > 0.0
    ensures a / b <= c <==> a <= c * b
  {
    assert (a / b) * b == a;
  }

  /**
   * For positive sizes both scales are one positive number `s`, the drawn box is the
   * image scaled by `s`, it fits the container, and it is flush with the container on
   * one axis and centred on the other.
   */
  lemma ContainFit(imageWidth: real, imageHeight: real, containerWidth: real, containerHeight: real)
    requires imageWidth > 0.0 && imageHeight > 0.0 && containerWidth > 0.0 && containerHeight > 0.0
    ensures var a := DisplayArea(imageWidth, imageHeight, containerWidth, containerHeight);
      && a.scaleX == a.scaleY && a.scaleX > 0.0
      && a.width == imageWidth * a.scaleX && a.height == imageHeight * a.scaleY
      && 0.0 < a.width <= containerWidth && 0.0 < a.height <= containerHeight
      && a.left >= 0.0 && a.top >= 0.0
      && 2.0 * a.left + a.width == containerWidth && 2.0 * a.top + a.height == containerHeight
      && (a.left == 0.0 || a.top == 0.0)
  {
    var r := imageWidth / imageHeight;
    if r > containerWidth / containerHeight {
      WiderFit(imageWidth, imageHeight, containerWidth, containerHeight);
    } else {
      TallerFit(imageWidth, imageHeight, containerWidth, containerHeight);
    }
  }

  /** A relatively wider image fills the container's width. */
  lemma WiderFit(iw: real, ih: real, cw: real, ch: real)
    requires iw > 0.0 && ih > 0.0 && cw > 0.0 && ch > 0.0
    requires iw / ih > cw / ch
    ensures var height := cw / (iw / ih);
      && 0.0 < height <= ch
      && height / ih == cw / iw && cw / iw > 0.0
      && cw == iw * (cw / iw) && height == ih * (height / ih)
  {
    var r := iw / ih;
    assert r * ih == iw;
    var height := cw / r;
    assert height * r == cw;
    assert height > 0.0;
    QuotientsEqual(height, ih, cw, iw);
    assert (cw / iw) * iw == cw;
    assert (height / ih) * ih == height;
    QuotientAtMost(cw, ch, r);
    assert height * r < ch * r;
  }

  /** A relatively taller image fills the container's height. */
  lemma TallerFit(iw: real, ih: real, cw: real, ch: real)
    requires iw > 0.0 && ih > 0.0 && cw > 0.0 && ch > 0.0
    requires !(iw / ih > cw / ch)
    ensures var width := ch * (iw / ih);
      && 0.0 < width <= cw
      && width / iw == ch / ih && ch / ih > 0.0
      && width == iw * (width / iw) && ch == ih * (ch / ih)
  {
    var r := iw / ih;
    assert r * ih == iw;
    var width := ch * r;
    assert width > 0.0;
    QuotientsEqual(width, iw, ch, ih);
    assert (width / iw) * iw == width;
    assert (ch / ih) * ih == ch;
    QuotientAtMost(cw, ch, r);
  }

  // ---------------------------------------------------------------------------
  // Clamping and display coordinates
  // ---------------------------------------------------------------------------

  function RMax(a: real, b: real): real { if a >= b then a else b }
  function RMin(a: real, b: real): real { if a <= b then a else b }

  /** `clampPoint`: `max(0, min(size, coordinate))` on each axis. */
  function ClampPoint(imageWidth: real, imageHeight: real, x: real, y: real): (p: Point)
    ensures imageWidth >= 0.0 ==> 0.0 <= p.x <= imageWidth
    ensures imageHeight >= 0.0 ==> 0.0 <= p.y <= imageHeight
    ensures 0.0 <= x <= imageWidth ==> p.x == x
    ensures 0.0 <= y <= imageHeight ==> p.y == y
  {
    Point(RMax(0.0, RMin(imageWidth, x)), RMax(0.0, RMin(imageHeight, y)))
  }

  /** A point within the image rectangle. */
  predicate InImage(p: Point, imageWidth: real, imageHeight: real) {
    0.0 <= p.x <= imageWidth && 0.0 <= p.y <= imageHeight
  }

  /** `displayPoints`: image coordinates scaled into display coordinates. */
  function DisplayPoints(points: seq<Point>, a: Area): (r: seq<Point>)
    ensures |r| == |points|
  {
    seq(|points|, i requires 0 <= i < |points| => Scale(points[i], a))
  }

  /** One point scaled into display coordinates. */
  function Scale(p: Point, a: Area): Point {
    Point(p.x * a.scaleX, p.y * a.scaleY)
  }

  /** A point inside the image is drawn inside the display box. */
  lemma DisplayedInsideBox(points: seq<Point>, imageWidth: real, imageHeight: real,
                           containerWidth: real, containerHeight: real)
    requires imageWidth > 0.0 && imageHeight > 0.0 && containerWidth > 0.0 && containerHeight > 0.0
    requires forall i :: 0 <= i < |points| ==> InImage(points[i], imageWidth, imageHeight)
    ensures var a := DisplayArea(imageWidth, imageHeight, containerWidth, containerHeight);
      forall i :: 0 <= i < |points| ==> InImage(DisplayPoints(points, a)[i], a.width, a.height)
  {
    var a := DisplayArea(imageWidth, imageHeight, containerWidth, containerHeight);
    ContainFit(imageWidth, imageHeight, containerWidth, containerHeight);
    forall i | 0 <= i < |points|
      ensures InImage(DisplayPoints(points, a)[i], a.width, a.height)
    {
      var p := points[i];
      assert p.x * a.scaleX <= imageWidth * a.scaleX;
      assert p.y * a.scaleY <= imageHeight * a.scaleY;
    }
  }

  /** The midpoint of a segment. */
  function Mid(p: Point, q: Point): Point {
    Point((p.x + q.x) / 2.0, (p.y + q.y) / 2.0)
  }

  /**
   * `displayMidPoints` without the drawing angle: the midpoint of each point and the
   * point `(i + 1) % 4`; `None` for one to three points, where that neighbour is
   * missing and reading it throws.
   */
  function MidPoints(points: seq<Point>): (r: Option<seq<Point>>)
    ensures r.None? <==> 0 < |points| < 4
    ensures r.Some? ==> |r.value| == |points|
  {
    if 0 < |points| < 4 then None
    else Some(seq(|points|, i requires 0 <= i < |points| => Mid(points[i], points[(i + 1) % 4])))
  }

  /**
   * Midpoints of the displayed corners are the displayed midpoints: scaling commutes
   * with taking midpoints.
   */
  lemma MidPointsOfDisplay(points: seq<Point>, a: Area)
    requires |points| == 0 || |points| >= 4
    ensures MidPoints(DisplayPoints(points, a)) == Some(DisplayPoints(MidPoints(points).value, a))
  {
    var d := DisplayPoints(points, a);
    var m := MidPoints(points).value;
    var lhs := MidPoints(d).value;
    var rhs := DisplayPoints(m, a);
    forall i | 0 <= i < |points|
      ensures lhs[i] == rhs[i]
    {
      var j := (i + 1) % 4;
      assert lhs[i] == Mid(d[i], d[j]);
      assert rhs[i] == Scale(m[i], a);
      assert m[i] == Mid(points[i], points[j]);
      ScaledMid(points[i], points[j], a);
    }
    assert lhs == rhs;
  }

  /** Scaling the two ends scales their midpoint. */
  lemma ScaledMid(p: Point, q: Point, a: Area)
    ensures Mid(Scale(p, a), Scale(q, a)) == Scale(Mid(p, q), a)
  {
    assert (p.x * a.scaleX + q.x * a.scaleX) / 2.0 == ((p.x + q.x) / 2.0) * a.scaleX;
    assert (p.y * a.scaleY + q.y * a.scaleY) / 2.0 == ((p.y + q.y) / 2.0) * a.scaleY;
  }

  // ---------------------------------------------------------------------------
  // Drags
  // ---------------------------------------------------------------------------

  /** What a drag moves: a corner, an edge (by its midpoint), or the whole selection. */
  datatype DragType = Corner | MidEdge | Move | NoDrag

  /** `dragState`: the drag in progress and the points as they were when it started. */
  datatype DragState = DragState(
    isDragging: bool,
    dragType: DragType,
    index: int,
    startX: real,
    startY: real,
    originalPoints: seq<Point>)

  const InitialDragState := DragState(false, NoDrag, -1, 0.0, 0.0, [])

  /** The pointer movement in image coordinates. */
  function ScaledDelta(drag: DragState, a: Area, clientX: real, clientY: real): Point
    requires a.scaleX != 0.0 && a.scaleY != 0.0
  {
    Point((clientX - drag.startX) / a.scaleX, (clientY - drag.startY) / a.scaleY)
  }

  /**
   * The shift of an edge from `prev` to `next` for a pointer movement `d`: the
   * projection of `d` on the edge's normal `n = (-(next.y - prev.y), next.x - prev.x)`,
   * which is `n * (n . d) / |n|^2` (the source normalises `n` first, with the same result).
   */
  function EdgeShift(prev: Point, next: Point, d: Point): Point
    requires EdgeLength2(prev, next) != 0.0
  {
    var ex := next.x - prev.x;
    var ey := next.y - prev.y;
    var k := (d.x * (-ey) + d.y * ex) / EdgeLength2(prev, next);
    Point(-ey * k, ex * k)
  }

  /** The squared length of the edge from `prev` to `next`. */
  function EdgeLength2(prev: Point, next: Point): real {
    (next.x - prev.x) * (next.x - prev.x) + (next.y - prev.y) * (next.y - prev.y)
  }

  /** The edge shift is perpendicular to the edge. */
  lemma EdgeShiftPerpendicular(prev: Point, next: Point, d: Point)
    requires EdgeLength2(prev, next) != 0.0
    ensures var v := EdgeShift(prev, next, d);
      v.x * (next.x - prev.x) + v.y * (next.y - prev.y) == 0.0
  {
    var ex := next.x - prev.x;
    var ey := next.y - prev.y;
    var k := (d.x * (-ey) + d.y * ex) / EdgeLength2(prev, next);
    assert -ey * k * ex + ex * k * ey == 0.0;
  }

  /**
   * A movement along the edge's normal is taken over whole: the edge follows the
   * pointer exactly when the pointer moves perpendicular to the edge.
   */
  lemma EdgeShiftOfNormal(prev: Point, next: Point, t: real)
    requires EdgeLength2(prev, next) != 0.0
    ensures var n := Point(-(next.y - prev.y), next.x - prev.x);
      EdgeShift(prev, next, Point(t * n.x, t * n.y)) == Point(t * n.x, t * n.y)
  {
    var ex := next.x - prev.x;
    var ey := next.y - prev.y;
    var len2 := EdgeLength2(prev, next);
    var dot := t * (-ey) * (-ey) + t * ex * ex;
    assert dot == t * len2;
    CancelQuotient(t, len2);
  }

  /** `t * l / l == t` for a non-zero `l`. */
  lemma CancelQuotient(t: real, l: real)
    requires l != 0.0
    ensures t * l / l == t
  {
  }

  /**
   * The points after a pointer move during a drag (`onMaskPointerMove` below its
   * guard), or `None` when nothing is written: no drag type, a corner or edge index
   * whose original point is missing (reading it throws), an index past the end of
   * `current` (the source's assignment would lengthen its copy there, which needs the
   * point list to shrink during the drag), or a zero-length edge.
   * `current` is the point list when the move happens; `d` is the scaled movement.
   */
  function Dragged(current: seq<Point>, drag: DragState, d: Point, imageWidth: real, imageHeight: real): Option<seq<Point>> {
    var orig := drag.originalPoints;
    match drag.dragType
    case Corner =>
      var i := drag.index;
      if 0 <= i < |orig| && i < |current| then
        Some(current[i := ClampPoint(imageWidth, imageHeight, orig[i].x + d.x, orig[i].y + d.y)])
      else None
    case MidEdge =>
      var i := drag.index;
      if 0 <= i < |orig| && i < |current| && (i + 1) % 4 < |orig| && (i + 1) % 4 < |current| then
        var j := (i + 1) % 4;
        if EdgeLength2(orig[i], orig[j]) == 0.0 then None
        else
          var v := EdgeShift(orig[i], orig[j], d);
          Some(current[i := Point(orig[i].x + v.x, orig[i].y + v.y)][j := Point(orig[j].x + v.x, orig[j].y + v.y)])
      else None
    case Move =>
      Some(seq(|orig|, k requires 0 <= k < |orig| => ClampPoint(imageWidth, imageHeight, orig[k].x + d.x, orig[k].y + d.y)))
    case NoDrag => None
  }

  /**
   * A corner drag replaces only the dragged corner, with its starting position moved by
   * the pointer and clamped into the image; the other points stay as they are.
   */
  lemma CornerDrag(current: seq<Point>, drag: DragState, d: Point, imageWidth: real, imageHeight: real)
    requires drag.dragType == Corner && 0 <= drag.index < |drag.originalPoints| && drag.index < |current|
    requires imageWidth >= 0.0 && imageHeight >= 0.0
    ensures var r := Dragged(current, drag, d, imageWidth, imageHeight);
      && r.Some? && |r.value| == |current|
      && InImage(r.value[drag.index], imageWidth, imageHeight)
      && (InImage(Point(drag.originalPoints[drag.index].x + d.x, drag.originalPoints[drag.index].y + d.y), imageWidth, imageHeight)
          ==> r.value[drag.index] == Point(drag.originalPoints[drag.index].x + d.x, drag.originalPoints[drag.index].y + d.y))
      && forall k :: 0 <= k < |current| && k != drag.index ==> r.value[k] == current[k]
  {
  }

  /**
   * An edge drag moves both ends of the edge, from their starting positions, by one
   * vector perpendicular to the edge, so the edge keeps its direction and length; it
   * does not clamp, and the other points stay as they are.
   */
  lemma MidEdgeDrag(current: seq<Point>, drag: DragState, d: Point, imageWidth: real, imageHeight: real)
    requires drag.dragType == MidEdge
    requires var i := drag.index; var orig := drag.originalPoints;
      0 <= i < |orig| && i < |current| && (i + 1) % 4 < |orig| && (i + 1) % 4 < |current| && EdgeLength2(orig[i], orig[(i + 1) % 4]) != 0.0
    ensures var i := drag.index;
      var j := (i + 1) % 4;
      var orig := drag.originalPoints;
      var r := Dragged(current, drag, d, imageWidth, imageHeight);
      var v := EdgeShift(orig[i], orig[j], d);
      && r.Some? && |r.value| == |current|
      && r.value[i] == Point(orig[i].x + v.x, orig[i].y + v.y)
      && r.value[j] == Point(orig[j].x + v.x, orig[j].y + v.y)
      && v.x * (orig[j].x - orig[i].x) + v.y * (orig[j].y - orig[i].y) == 0.0
      && r.value[j].x - r.value[i].x == orig[j].x - orig[i].x
      && r.value[j].y - r.value[i].y == orig[j].y - orig[i].y
      && forall k :: 0 <= k < |current| && k != i && k != j ==> r.value[k] == current[k]
  {
    var i := drag.index;
    var j := (i + 1) % 4;
    assert j != i;
    EdgeShiftPerpendicular(drag.originalPoints[i], drag.originalPoints[j], d);
  }

  /**
   * A move drag replaces every point by its starting position moved by the pointer and
   * clamped into the image.
   */
  lemma MoveDrag(current: seq<Point>, drag: DragState, d: Point, imageWidth: real, imageHeight: real)
    requires drag.dragType == Move && imageWidth >= 0.0 && imageHeight >= 0.0
    ensures var r := Dragged(current, drag, d, imageWidth, imageHeight);
      && r.Some? && |r.value| == |drag.originalPoints|
      && forall k :: 0 <= k < |r.value| ==>
           && InImage(r.value[k], imageWidth, imageHeight)
           && r.value[k] == ClampPoint(imageWidth, imageHeight, drag.originalPoints[k].x + d.x, drag.originalPoints[k].y + d.y)
  {
  }

  /** No drag type writes nothing. */
  lemma NoDragWritesNothing(current: seq<Point>, drag: DragState, d: Point, imageWidth: real, imageHeight: real)
    requires drag.dragType == NoDrag
    ensures Dragged(current, drag, d, imageWidth, imageHeight).None?
  {
  }
}
