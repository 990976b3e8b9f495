/**
 * The document-edge stabiliser of src/views/ocr/ts/camera-detection.ts.
 *
 * OpenCV supplies, for every contour of a frame, its area, its bounding rectangle,
 * the centre of its minimum-area rectangle and its vertices; they are inputs here.
 * `Math.hypot` is the parameter `hypot` of the detector.
 */
module CameraDetection {
  import opened Wrappers
  import opened Types

  const MaxHistory: nat := 3
  const StableThreshold: nat := 2
  const MoveThreshold: real := 20.0
  const MaxNoUpdate: nat := 15

  /** `distance(p1, p2)`: the length of `p1 - p2` as `hypot` measures it. */
  function Distance(hypot: (real, real) -> real, p1: Point, p2: Point): real {
    hypot(p1.x - p2.x, p1.y - p2.y)
  }

  // ---------------------------------------------------------------------------
  // Average distance and smoothing
  // ---------------------------------------------------------------------------

  /** The sum of the distances between corresponding points of the first `n` pairs. */
  function SumDistances(hypot: (real, real) -> real, p1: seq<Point>, p2: seq<Point>, n: nat): real
    requires n <= |p1| && n <= |p2|
  {
    if n == 0 then 0.0 else SumDistances(hypot, p1, p2, n - 1) + Distance(hypot, p1[n - 1], p2[n - 1])
  }

  /**
   * The mean distance between corresponding points; `None` stands for the `Infinity`
   * returned for lists of different lengths and the `NaN` of two empty lists, both of
   * which compare false against the move threshold.
   */
  function AverageDistance(hypot: (real, real) -> real, p1: seq<Point>, p2: seq<Point>): Option<real> {
    if |p1| != |p2| || |p1| == 0 then None
    else Some(SumDistances(hypot, p1, p2, |p1|) / (|p1| as real))
  }

  /** `averageDistanceBetweenPoints`: accumulates the distances pair by pair, then divides. */
  method AverageDistanceBetweenPoints(hypot: (real, real) -> real, points1: seq<Point>, points2: seq<Point>)
    returns (avg: Option<real>)
    ensures avg == AverageDistance(hypot, points1, points2)
    ensures avg.None? <==> |points1| != |points2| || |points1| == 0
  {
    if |points1| != |points2| {
      return None;
    }
    var totalDistance := 0.0;
    for i := 0 to |points1|
      invariant totalDistance == SumDistances(hypot, points1, points2, i)
    {
      totalDistance := totalDistance + Distance(hypot, points1[i], points2[i]);
    }
    if |points1| == 0 {
      return None;
    }
    avg := Some(totalDistance / (|points1| as real));
  }

  /** A corner list is at average distance 0 from itself when `hypot(0, 0) == 0`. */
  lemma AverageDistanceSelf(hypot: (real, real) -> real, q: Quad)
    requires hypot(0.0, 0.0) == 0.0
    ensures AverageDistance(hypot, q, q) == Some(0.0)
  {
    SumDistancesSelf(hypot, q, 4);
  }

  lemma {:induction false} SumDistancesSelf(hypot: (real, real) -> real, q: seq<Point>, n: nat)
    requires hypot(0.0, 0.0) == 0.0 && n <= |q|
    ensures SumDistances(hypot, q, q, n) == 0.0
  {
    if n > 0 {
      SumDistancesSelf(hypot, q, n - 1);
    }
  }

  /** The sum of the x coordinates of corner `i` over the history. */
  function SumX(history: seq<Quad>, i: nat): real
    requires i < 4
  {
    if history == [] then 0.0 else SumX(history[..|history| - 1], i) + history[|history| - 1][i].x
  }

  /** The sum of the y coordinates of corner `i` over the history. */
  function SumY(history: seq<Quad>, i: nat): real
    requires i < 4
  {
    if history == [] then 0.0 else SumY(history[..|history| - 1], i) + history[|history| - 1][i].y
  }

  /**
   * `smoothCorners`: with no history the new corners as they are; otherwise each
   * corner is the mean of the new corner and the same corner of every history entry.
   */
  function SmoothCorners(history: seq<Quad>, newCorners: Quad): Quad {
    if |history| == 0 then newCorners
    else
      var n := (|history| + 1) as real;
      seq(4, i requires 0 <= i < 4 =>
        Point((newCorners[i].x + SumX(history, i)) / n, (newCorners[i].y + SumY(history, i)) / n))
  }

  /** A history of `|h|` entries all equal to `q` sums to `|h|` times `q`. */
  lemma {:induction false} SumOfConstantHistory(history: seq<Quad>, q: Quad, i: nat)
    requires i < 4 && forall h: Quad :: h in history ==> h == q
    ensures SumX(history, i) == (|history| as real) * q[i].x
    ensures SumY(history, i) == (|history| as real) * q[i].y
  {
    if history != [] {
      var init := history[..|history| - 1];
      forall h: Quad | h in init
        ensures h == q
      {
        var j :| 0 <= j < |init| && init[j] == h;
        assert history[j] == h && history[j] in history;
      }
      SumOfConstantHistory(init, q, i);
      assert history[|history| - 1] in history;
      assert (|history| as real) * q[i].x == (|init| as real) * q[i].x + q[i].x;
      assert (|history| as real) * q[i].y == (|init| as real) * q[i].y + q[i].y;
    }
  }

  /** Smoothing corners that agree with every history entry changes nothing. */
  lemma SmoothFixpoint(history: seq<Quad>, newCorners: Quad)
    requires forall h: Quad :: h in history ==> h == newCorners
    ensures SmoothCorners(history, newCorners) == newCorners
  {
    if |history| > 0 {
      var n := (|history| + 1) as real;
      var s := SmoothCorners(history, newCorners);
      forall i | 0 <= i < 4
        ensures s[i] == newCorners[i]
      {
        SumOfConstantHistory(history, newCorners, i);
        assert newCorners[i].x + (|history| as real) * newCorners[i].x == n * newCorners[i].x;
        assert newCorners[i].y + (|history| as real) * newCorners[i].y == n * newCorners[i].y;
      }
    }
  }

  /** Bounds on the x coordinates of corner `i` carry over to their sum. */
  lemma {:induction false} SumXBounds(history: seq<Quad>, i: nat, lo: real, hi: real)
    requires i < 4 && forall h: Quad :: h in history ==> lo <= h[i].x <= hi
    ensures (|history| as real) * lo <= SumX(history, i) <= (|history| as real) * hi
  {
    if history != [] {
      var init := history[..|history| - 1];
      forall h: Quad | h in init
        ensures lo <= h[i].x <= hi
      {
        var j :| 0 <= j < |init| && init[j] == h;
        assert history[j] == h && history[j] in history;
      }
      assert history[|history| - 1] in history;
      SumXBounds(init, i, lo, hi);
    }
  }

  /** Bounds on the y coordinates of corner `i` carry over to their sum. */
  lemma {:induction false} SumYBounds(history: seq<Quad>, i: nat, lo: real, hi: real)
    requires i < 4 && forall h: Quad :: h in history ==> lo <= h[i].y <= hi
    ensures (|history| as real) * lo <= SumY(history, i) <= (|history| as real) * hi
  {
    if history != [] {
      var init := history[..|history| - 1];
      forall h: Quad | h in init
        ensures lo <= h[i].y <= hi
      {
        var j :| 0 <= j < |init| && init[j] == h;
        assert history[j] == h && history[j] in history;
      }
      assert history[|history| - 1] in history;
      SumYBounds(init, i, lo, hi);
    }
  }

  /** Corner `i` of a smoothing over a non-empty history, coordinate by coordinate. */
  lemma SmoothedCorner(history: seq<Quad>, newCorners: Quad, i: nat)
    requires i < 4 && |history| > 0
    ensures var n := (|history| + 1) as real;
      && SmoothCorners(history, newCorners)[i].x == (newCorners[i].x + SumX(history, i)) / n
      && SmoothCorners(history, newCorners)[i].y == (newCorners[i].y + SumY(history, i)) / n
  {
  }

  /**
   * A smoothed corner stays inside any box that holds the new corner and the same
   * corner of every history entry: each coordinate lies between the least and the
   * greatest value it averages.
   */
  lemma SmoothWithinBounds(history: seq<Quad>, newCorners: Quad, i: nat,
                           xlo: real, xhi: real, ylo: real, yhi: real)
    requires i < 4 && xlo <= newCorners[i].x <= xhi && ylo <= newCorners[i].y <= yhi
    requires forall h: Quad :: h in history ==> xlo <= h[i].x <= xhi && ylo <= h[i].y <= yhi
    ensures xlo <= SmoothCorners(history, newCorners)[i].x <= xhi
    ensures ylo <= SmoothCorners(history, newCorners)[i].y <= yhi
  {
    if |history| > 0 {
      MeanXWithin(history, newCorners[i].x, i, xlo, xhi);
      MeanYWithin(history, newCorners[i].y, i, ylo, yhi);
      SmoothedCorner(history, newCorners, i);
    }
  }

  /** The mean of `v` and the x coordinates of corner `i` in the history is within bounds they all respect. */
  lemma MeanXWithin(history: seq<Quad>, v: real, i: nat, lo: real, hi: real)
    requires i < 4 && lo <= v <= hi && forall h: Quad :: h in history ==> lo <= h[i].x <= hi
    ensures lo <= (v + SumX(history, i)) / ((|history| + 1) as real) <= hi
  {
    SumXBounds(history, i, lo, hi);
    MeanWithBounds(v, SumX(history, i), |history| as real, (|history| + 1) as real, lo, hi);
  }

  /** The mean of `v` and the y coordinates of corner `i` in the history is within bounds they all respect. */
  lemma MeanYWithin(history: seq<Quad>, v: real, i: nat, lo: real, hi: real)
    requires i < 4 && lo <= v <= hi && forall h: Quad :: h in history ==> lo <= h[i].y <= hi
    ensures lo <= (v + SumY(history, i)) / ((|history| + 1) as real) <= hi
  {
    SumYBounds(history, i, lo, hi);
    MeanWithBounds(v, SumY(history, i), |history| as real, (|history| + 1) as real, lo, hi);
  }

  /** One value and `h` more summing to `s`, all between `lo` and `hi`, average between them. */
  lemma MeanWithBounds(v: real, s: real, h: real, n: real, lo: real, hi: real)
    requires h >= 0.0 && n == h + 1.0 && lo <= v <= hi && h * lo <= s <= h * hi
    ensures lo <= (v + s) / n <= hi
  {
    assert n * lo == h * lo + lo && n * hi == h * hi + hi;
    MeanBounds(v + s, n, lo, hi);
  }

  /** A sum between `n * lo` and `n * hi` divided by a positive `n` lies between `lo` and `hi`. */
  lemma MeanBounds(sum: real, n: real, lo: real, hi: real)
    requires n > 0.0 && n * lo <= sum <= n * hi
    ensures lo <= sum / n <= hi
  {
    assert sum == (sum / n) * n;
  }

  // ---------------------------------------------------------------------------
  // Contour validation and corner picking
  // ---------------------------------------------------------------------------

  /** What OpenCV reports about one contour of the frame. */
  datatype Contour = Contour(
    area: real,           // contourArea
    rectWidth: nat,       // boundingRect
    rectHeight: nat,
    center: Point,        // centre of minAreaRect
    vertices: seq<Point>) // the contour's points

  function RMax(a: real, b: real): real { if a >= b then a else b }
  function RMin(a: real, b: real): real { if a <= b then a else b }

  /**
   * The fill test `area / rectArea < 0.3`, stated without the division; the JavaScript
   * quotient agrees with it (`FillTooLowQuotient`), and for an empty rectangle it is
   * infinite (or `NaN` for a zero area), which is not below 0.3.
   */
  predicate FillTooLow(area: real, rectArea: real) {
    rectArea > 0.0 && area < 0.3 * rectArea
  }

  /**
   * The aspect test `max / min > 10`, stated without the division; the JavaScript
   * quotient agrees with it (`TooElongatedQuotient`): a zero short side gives `Infinity`
   * (rejected) unless the long side is zero too, which gives `NaN` (not rejected).
   */
  predicate TooElongated(w: real, h: real) {
    var longSide := RMax(w, h);
    var shortSide := RMin(w, h);
    if shortSide == 0.0 then longSide > 0.0 else longSide > 10.0 * shortSide
  }

  /** The area test: between max(2000, 5% of the frame) and 95% of the frame. */
  predicate AreaInRange(area: real, width: nat, height: nat) {
    var frame := (width * height) as real;
    RMax(2000.0, frame * 0.05) <= area <= frame * 0.95
  }

  /** `isValidDocumentContour`: the four tests in the source's order. */
  predicate IsValidDocumentContour(c: Contour, width: nat, height: nat) {
    var w := c.rectWidth as real;
    var h := c.rectHeight as real;
    var minDimension := RMin(width as real, height as real) * 0.1;
    if !AreaInRange(c.area, width, height) then false
    else if FillTooLow(c.area, w * h) then false
    else if TooElongated(w, h) then false
    else if w < minDimension || h < minDimension then false
    else true
  }

  /** An area test that passes needs a frame at least one pixel on each side. */
  lemma AreaInRangeFrame(area: real, width: nat, height: nat)
    requires AreaInRange(area, width, height)
    ensures width >= 1 && height >= 1
  {
  }

  /** The fill test is the JavaScript comparison of the quotient with 0.3. */
  lemma FillTooLowQuotient(area: real, rectArea: real)
    ensures FillTooLow(area, rectArea) <==> rectArea > 0.0 && area / rectArea < 0.3
  {
    if rectArea > 0.0 {
      DivisionThreshold(area, rectArea, 0.3);
    }
  }

  /** For sides that are not negative, the aspect test is the JavaScript comparison of the quotient with 10. */
  lemma TooElongatedQuotient(w: real, h: real)
    requires w >= 0.0 && h >= 0.0
    ensures TooElongated(w, h) <==>
      if RMin(w, h) == 0.0 then RMax(w, h) > 0.0 else RMax(w, h) / RMin(w, h) > 10.0
  {
    if RMin(w, h) != 0.0 {
      DivisionThreshold(RMax(w, h), RMin(w, h), 10.0);
    }
  }

  /**
   * A contour is valid exactly when its area lies between max(2000, 5% of the frame)
   * and 95% of the frame, fills at least 30% of a non-empty bounding rectangle, the
   * rectangle's long side is at most ten times its short side, and both sides reach
   * a tenth of the frame's smaller side.
   */
  lemma ValidContourCharacterised(c: Contour, width: nat, height: nat)
    ensures IsValidDocumentContour(c, width, height) <==>
      var w := c.rectWidth as real;
      var h := c.rectHeight as real;
      var minDimension := RMin(width as real, height as real) * 0.1;
      && AreaInRange(c.area, width, height)
      && w > 0.0 && h > 0.0 && c.area >= 0.3 * (w * h)
      && RMax(w, h) <= 10.0 * RMin(w, h)
      && w >= minDimension && h >= minDimension
  {
    if AreaInRange(c.area, width, height) {
      AreaInRangeFrame(c.area, width, height);
      if c.rectWidth > 0 && c.rectHeight > 0 {
        ProductPositive(c.rectWidth as real, c.rectHeight as real);
      } else {
        InvalidWithoutSide(c, width, height);
      }
    }
  }

  /** A frame of at least one pixel a side rejects a contour with an empty side. */
  lemma InvalidWithoutSide(c: Contour, width: nat, height: nat)
    requires width >= 1 && height >= 1 && (c.rectWidth == 0 || c.rectHeight == 0)
    ensures !IsValidDocumentContour(c, width, height)
  {
    assert RMin(width as real, height as real) * 0.1 >= 0.1;
  }

  lemma ProductPositive(w: real, h: real)
    requires w > 0.0 && h > 0.0
    ensures w * h > 0.0
  {
  }

  /** `a / b < t` exactly when `a < t * b`, for positive `b`; likewise for `>`. */
  lemma DivisionThreshold(a: real, b: real, t: real)
    requires b > 0.0
    ensures a / b < t <==> a < t * b
    ensures a / b > t <==> a > t * b
  {
    assert a == (a / b) * b;
  }

  /** The four quadrants around the centre, bounded strictly. */
  datatype Quadrant = TopLeft | TopRight | BottomLeft | BottomRight

  predicate InQuadrant(p: Point, center: Point, q: Quadrant) {
    match q
    case TopLeft => p.x < center.x && p.y < center.y
    case TopRight => p.x > center.x && p.y < center.y
    case BottomLeft => p.x < center.x && p.y > center.y
    case BottomRight => p.x > center.x && p.y > center.y
  }

  /**
   * The index of the vertex among the first `n` that `getCornerPoints` keeps for
   * quadrant `q`: a later vertex replaces it only when strictly farther from the centre,
   * and the first must be farther than 0.
   */
  function BestIndex(hypot: (real, real) -> real, vs: seq<Point>, n: nat, center: Point, q: Quadrant): (r: Option<nat>)
    requires n <= |vs|
    ensures r.Some? ==> r.value < n
  {
    if n == 0 then None
    else
      var b := BestIndex(hypot, vs, n - 1, center, q);
      var best := if b.Some? then Distance(hypot, vs[b.value], center) else 0.0;
      if InQuadrant(vs[n - 1], center, q) && Distance(hypot, vs[n - 1], center) > best then Some(n - 1) else b
  }

  /** The corner kept for quadrant `q` after `n` vertices, if any. */
  function Pick(hypot: (real, real) -> real, vs: seq<Point>, n: nat, center: Point, q: Quadrant): Option<Point>
    requires n <= |vs|
  {
    var b := BestIndex(hypot, vs, n, center, q);
    if b.Some? then Some(vs[b.value]) else None
  }

  /** The distance recorded in `maxDists` for quadrant `q` after `n` vertices. */
  function PickDistance(hypot: (real, real) -> real, vs: seq<Point>, n: nat, center: Point, q: Quadrant): real
    requires n <= |vs|
  {
    var b := BestIndex(hypot, vs, n, center, q);
    if b.Some? then Distance(hypot, vs[b.value], center) else 0.0
  }

  /**
   * The kept vertex lies in its quadrant, is at least as far from the centre as every
   * other vertex of that quadrant, and strictly farther than every earlier one; no
   * vertex is kept exactly when no vertex of the quadrant is farther than 0.
   */
  lemma {:induction false} BestIndexCorrect(hypot: (real, real) -> real, vs: seq<Point>, n: nat, center: Point, q: Quadrant)
    requires n <= |vs|
    ensures var b := BestIndex(hypot, vs, n, center, q);
      && (b.None? <==> forall j :: 0 <= j < n && InQuadrant(vs[j], center, q) ==> Distance(hypot, vs[j], center) <= 0.0)
      && (b.Some? ==>
            && InQuadrant(vs[b.value], center, q)
            && Distance(hypot, vs[b.value], center) > 0.0
            && (forall j :: 0 <= j < n && InQuadrant(vs[j], center, q) ==>
                  Distance(hypot, vs[j], center) <= Distance(hypot, vs[b.value], center))
            && (forall j :: 0 <= j < b.value && InQuadrant(vs[j], center, q) ==>
                  Distance(hypot, vs[j], center) < Distance(hypot, vs[b.value], center)))
  {
    if n > 0 {
      BestIndexCorrect(hypot, vs, n - 1, center, q);
    }
  }

  /** The corners found for the four quadrants, each possibly missing. */
  datatype Corners = Corners(topLeft: Option<Point>, topRight: Option<Point>,
                             bottomLeft: Option<Point>, bottomRight: Option<Point>)

  /**
   * `getCornerPoints`: one pass over the vertices, the first quadrant test that holds
   * deciding, each quadrant keeping its farthest vertex.
   */
  method GetCornerPoints(hypot: (real, real) -> real, vertices: seq<Point>, center: Point) returns (corners: Corners)
    ensures corners.topLeft == Pick(hypot, vertices, |vertices|, center, TopLeft)
    ensures corners.topRight == Pick(hypot, vertices, |vertices|, center, TopRight)
    ensures corners.bottomLeft == Pick(hypot, vertices, |vertices|, center, BottomLeft)
    ensures corners.bottomRight == Pick(hypot, vertices, |vertices|, center, BottomRight)
  {
    corners := Corners(None, None, None, None);
    var maxTopLeft, maxTopRight, maxBottomLeft, maxBottomRight := 0.0, 0.0, 0.0, 0.0;
    for i := 0 to |vertices|
      invariant corners.topLeft == Pick(hypot, vertices, i, center, TopLeft)
      invariant corners.topRight == Pick(hypot, vertices, i, center, TopRight)
      invariant corners.bottomLeft == Pick(hypot, vertices, i, center, BottomLeft)
      invariant corners.bottomRight == Pick(hypot, vertices, i, center, BottomRight)
      invariant maxTopLeft == PickDistance(hypot, vertices, i, center, TopLeft)
      invariant maxTopRight == PickDistance(hypot, vertices, i, center, TopRight)
      invariant maxBottomLeft == PickDistance(hypot, vertices, i, center, BottomLeft)
      invariant maxBottomRight == PickDistance(hypot, vertices, i, center, BottomRight)
    {
      var point := vertices[i];
      var dist := Distance(hypot, point, center);
      if point.x < center.x && point.y < center.y && dist > maxTopLeft {
        corners := corners.(topLeft := Some(point));
        maxTopLeft := dist;
      } else if point.x > center.x && point.y < center.y && dist > maxTopRight {
        corners := corners.(topRight := Some(point));
        maxTopRight := dist;
      } else if point.x < center.x && point.y > center.y && dist > maxBottomLeft {
        corners := corners.(bottomLeft := Some(point));
        maxBottomLeft := dist;
      } else if point.x > center.x && point.y > center.y && dist > maxBottomRight {
        corners := corners.(bottomRight := Some(point));
        maxBottomRight := dist;
      }
    }
  }

  /** The index of the first valid contour, if any. */
  function FirstValid(contours: seq<Contour>, width: nat, height: nat): (r: Option<nat>)
    ensures r.Some? ==>
      && r.value < |contours| && IsValidDocumentContour(contours[r.value], width, height)
      && forall j :: 0 <= j < r.value ==> !IsValidDocumentContour(contours[j], width, height)
    ensures r.None? ==> forall j :: 0 <= j < |contours| ==> !IsValidDocumentContour(contours[j], width, height)
  {
    if contours == [] then None
    else if IsValidDocumentContour(contours[0], width, height) then Some(0)
    else
      var r := FirstValid(contours[1..], width, height);
      if r.Some? then Some(r.value + 1) else None
  }

  /**
   * The corners of a frame: those of the first valid contour, in the order top-left,
   * top-right, bottom-right, bottom-left, when all four quadrants have a vertex.
   */
  function Detected(hypot: (real, real) -> real, contours: seq<Contour>, width: nat, height: nat): Option<Quad> {
    var f := FirstValid(contours, width, height);
    if f.None? then None
    else
      var c := contours[f.value];
      var n := |c.vertices|;
      var tl := Pick(hypot, c.vertices, n, c.center, TopLeft);
      var tr := Pick(hypot, c.vertices, n, c.center, TopRight);
      var br := Pick(hypot, c.vertices, n, c.center, BottomRight);
      var bl := Pick(hypot, c.vertices, n, c.center, BottomLeft);
      if tl.Some? && tr.Some? && br.Some? && bl.Some? then Some([tl.value, tr.value, br.value, bl.value])
      else None
  }

  /** The contour loop of `processVideoFrame`: stops at the first valid contour. */
  method FindDocument(hypot: (real, real) -> real, contours: seq<Contour>, width: nat, height: nat)
    returns (currentCorners: Option<Quad>)
    ensures currentCorners == Detected(hypot, contours, width, height)
  {
    currentCorners := None;
    var i := 0;
    while i < |contours|
      invariant 0 <= i <= |contours|
      invariant forall j :: 0 <= j < i ==> !IsValidDocumentContour(contours[j], width, height)
    {
      var contour := contours[i];
      if IsValidDocumentContour(contour, width, height) {
        var corners := GetCornerPoints(hypot, contour.vertices, contour.center);
        if corners.topLeft.Some? && corners.topRight.Some? && corners.bottomRight.Some? && corners.bottomLeft.Some? {
          currentCorners := Some([corners.topLeft.value, corners.topRight.value,
                                  corners.bottomRight.value, corners.bottomLeft.value]);
        }
        FirstValidIs(contours, width, height, i);
        return;
      }
      i := i + 1;
    }
  }

  lemma {:induction false} FirstValidIs(contours: seq<Contour>, width: nat, height: nat, i: nat)
    requires i < |contours| && IsValidDocumentContour(contours[i], width, height)
    requires forall j :: 0 <= j < i ==> !IsValidDocumentContour(contours[j], width, height)
    ensures FirstValid(contours, width, height) == Some(i)
  {
    if i > 0 {
      FirstValidIs(contours[1..], width, height, i - 1);
    }
  }

  /**
   * A detection comes from the first valid contour, and each of its corners is a
   * vertex of that contour strictly inside its quadrant around the contour's centre.
   */
  lemma DetectedCornersInQuadrants(hypot: (real, real) -> real, contours: seq<Contour>, width: nat, height: nat)
    requires Detected(hypot, contours, width, height).Some?
    ensures var f := FirstValid(contours, width, height);
      var q := Detected(hypot, contours, width, height).value;
      && f.Some?
      && var c := contours[f.value];
      && q[0] in c.vertices && InQuadrant(q[0], c.center, TopLeft)
      && q[1] in c.vertices && InQuadrant(q[1], c.center, TopRight)
      && q[2] in c.vertices && InQuadrant(q[2], c.center, BottomRight)
      && q[3] in c.vertices && InQuadrant(q[3], c.center, BottomLeft)
  {
    var c := contours[FirstValid(contours, width, height).value];
    var n := |c.vertices|;
    BestIndexCorrect(hypot, c.vertices, n, c.center, TopLeft);
    BestIndexCorrect(hypot, c.vertices, n, c.center, TopRight);
    BestIndexCorrect(hypot, c.vertices, n, c.center, BottomRight);
    BestIndexCorrect(hypot, c.vertices, n, c.center, BottomLeft);
  }

  // ---------------------------------------------------------------------------
  // The stabiliser
  // ---------------------------------------------------------------------------

  /** The fields of `EdgeDetection` that the stabiliser updates. */
  datatype DetectionState = DetectionState(
    lastValidCorners: Option<Quad>,
    detectionHistory: seq<Quad>,
    stableCount: nat,
    noUpdateCount: nat)

  /** The state of a new detector and after `resetDetectionState`. */
  const Initial := DetectionState(None, [], 0, 0)

  /** The outcome of one frame: the new state and the corners drawn, if any. */
  datatype Frame = Frame(state: DetectionState, display: Option<Quad>)

  /** `push` onto the history, then one `shift` if it grew beyond the limit. */
  function Push(history: seq<Quad>, corners: Quad): seq<Quad> {
    var h := history + [corners];
    if |h| > MaxHistory then h[1..] else h
  }

  /** The stabilisation block of `processVideoFrame` for one frame's detection. */
  function Next(hypot: (real, real) -> real, s: DetectionState, detection: Option<Quad>): Frame {
    match detection
    case Some(current) =>
      var smoothed := SmoothCorners(s.detectionHistory, current);
      var s0 := s.(noUpdateCount := 0);
      (match s.lastValidCorners
       case Some(last) =>
         var avg := AverageDistance(hypot, smoothed, last);
         if avg.Some? && avg.value < MoveThreshold then
           var stable := s.stableCount + 1;
           if stable >= StableThreshold then
             Frame(s0.(stableCount := stable, lastValidCorners := Some(smoothed),
                       detectionHistory := Push(s.detectionHistory, smoothed)), Some(smoothed))
           else
             Frame(s0.(stableCount := stable), Some(last))
         else
           Frame(s0.(stableCount := 1, lastValidCorners := Some(smoothed),
                     detectionHistory := Push(s.detectionHistory, smoothed)), Some(smoothed))
       case None =>
         Frame(s0.(lastValidCorners := Some(smoothed), detectionHistory := s.detectionHistory + [smoothed],
                   stableCount := 1), Some(smoothed)))
    case None =>
      var missed := s.noUpdateCount + 1;
      (match s.lastValidCorners
       case Some(last) =>
         if missed > MaxNoUpdate then Frame(Initial, Some(last))
         else Frame(s.(noUpdateCount := missed, stableCount := 0), Some(last))
       case None =>
         Frame(s.(noUpdateCount := missed), None))
  }

  /**
   * What every reachable state satisfies: at most three history entries; without
   * corners an empty history and no stability; with corners, the newest history entry
   * equal to them and at most fifteen missed frames.
   */
  predicate Inv(s: DetectionState) {
    && |s.detectionHistory| <= MaxHistory
    && (s.lastValidCorners.None? ==> s.detectionHistory == [] && s.stableCount == 0)
    && (s.lastValidCorners.Some? ==>
          && s.detectionHistory != []
          && s.detectionHistory[|s.detectionHistory| - 1] == s.lastValidCorners.value
          && s.noUpdateCount <= MaxNoUpdate)
  }

  /** Each frame keeps the invariant. */
  lemma NextPreservesInv(hypot: (real, real) -> real, s: DetectionState, detection: Option<Quad>)
    requires Inv(s)
    ensures Inv(Next(hypot, s, detection).state)
  {
  }

  /**
   * A detection close to the last corners raises the stable count; below the stable
   * threshold the old corners stay on display and nothing else but the counters changes,
   * from it on the smoothed corners are adopted and appended to the history.
   */
  lemma CloseDetection(hypot: (real, real) -> real, s: DetectionState, current: Quad)
    requires Inv(s) && s.lastValidCorners.Some?
    requires var avg := AverageDistance(hypot, SmoothCorners(s.detectionHistory, current), s.lastValidCorners.value);
      avg.Some? && avg.value < MoveThreshold
    ensures var f := Next(hypot, s, Some(current));
      var smoothed := SmoothCorners(s.detectionHistory, current);
      && f.state.stableCount == s.stableCount + 1
      && f.state.noUpdateCount == 0
      && (s.stableCount + 1 < StableThreshold ==>
            f.display == s.lastValidCorners && f.state.lastValidCorners == s.lastValidCorners
            && f.state.detectionHistory == s.detectionHistory)
      && (s.stableCount + 1 >= StableThreshold ==>
            f.display == Some(smoothed) && f.state.lastValidCorners == Some(smoothed)
            && f.state.detectionHistory[|f.state.detectionHistory| - 1] == smoothed
            && f.state.detectionHistory == (if |s.detectionHistory| == MaxHistory then s.detectionHistory[1..] else s.detectionHistory) + [smoothed])
  {
  }

  /**
   * The first detection, or one that moved at least the move threshold (or whose
   * distance is not a number), restarts the stable count at 1 and adopts the smoothed
   * corners as display, last corners and newest history entry.
   */
  lemma MovedOrFirstDetection(hypot: (real, real) -> real, s: DetectionState, current: Quad)
    requires Inv(s)
    requires s.lastValidCorners.Some? ==>
      var avg := AverageDistance(hypot, SmoothCorners(s.detectionHistory, current), s.lastValidCorners.value);
      !(avg.Some? && avg.value < MoveThreshold)
    ensures var f := Next(hypot, s, Some(current));
      var smoothed := SmoothCorners(s.detectionHistory, current);
      && f.state.stableCount == 1 && f.state.noUpdateCount == 0
      && f.display == Some(smoothed) && f.state.lastValidCorners == Some(smoothed)
      && f.state.detectionHistory[|f.state.detectionHistory| - 1] == smoothed
      && |f.state.detectionHistory| == (if |s.detectionHistory| == MaxHistory then MaxHistory else |s.detectionHistory| + 1)
    ensures s.lastValidCorners.None? ==> SmoothCorners(s.detectionHistory, current) == current
  {
  }

  /**
   * A missed frame counts as not updated; with corners it shows them and clears the
   * stable count, and resets everything once more than fifteen frames were missed;
   * without corners nothing else changes.
   */
  lemma MissedFrame(hypot: (real, real) -> real, s: DetectionState)
    requires Inv(s)
    ensures var f := Next(hypot, s, None);
      && f.display == s.lastValidCorners
      && (s.lastValidCorners.None? ==> f.state == s.(noUpdateCount := s.noUpdateCount + 1))
      && (s.lastValidCorners.Some? && s.noUpdateCount + 1 <= MaxNoUpdate ==>
            f.state == s.(noUpdateCount := s.noUpdateCount + 1, stableCount := 0))
      && (s.lastValidCorners.Some? && s.noUpdateCount + 1 > MaxNoUpdate ==> f.state == Initial)
  {
  }

  /** The state after `k` missed frames. */
  function Misses(hypot: (real, real) -> real, s: DetectionState, k: nat): DetectionState
    decreases k
  {
    if k == 0 then s else Misses(hypot, Next(hypot, s, None).state, k - 1)
  }

  /**
   * From any reachable state with corners, the corners survive the next
   * `15 - noUpdateCount` missed frames and are gone after one more.
   */
  lemma {:induction false} CornersExpire(hypot: (real, real) -> real, s: DetectionState, k: nat)
    requires Inv(s) && s.lastValidCorners.Some?
    ensures k <= MaxNoUpdate - s.noUpdateCount ==>
      Misses(hypot, s, k).lastValidCorners == s.lastValidCorners
      && Misses(hypot, s, k).noUpdateCount == s.noUpdateCount + k
    ensures k == MaxNoUpdate + 1 - s.noUpdateCount ==> Misses(hypot, s, k) == Initial
    decreases k
  {
    if k > 0 {
      var t := Next(hypot, s, None).state;
      if s.noUpdateCount + 1 > MaxNoUpdate {
        assert t == Initial;
        if k == 1 {
          assert Misses(hypot, s, k) == Misses(hypot, t, 0);
        }
      } else {
        assert Inv(t) && t.lastValidCorners == s.lastValidCorners && t.noUpdateCount == s.noUpdateCount + 1;
        CornersExpire(hypot, t, k - 1);
      }
    }
  }

  /** `getDefaultCorners`: the full frame, 640 by 480 when a size is 0. */
  function GetDefaultCorners(width: real, height: real): (q: Quad)
    ensures var w := if width == 0.0 then 640.0 else width;
      var h := if height == 0.0 then 480.0 else height;
      q == FullQuad(w, h)
    ensures q[2].x != 0.0 && q[2].y != 0.0
  {
    var actualWidth := if width == 0.0 then 640.0 else width;
    var actualHeight := if height == 0.0 then 480.0 else height;
    [Point(0.0, 0.0), Point(actualWidth, 0.0), Point(actualWidth, actualHeight), Point(0.0, actualHeight)]
  }

  /** `EdgeDetection`: the stabiliser's fields, updated once per processed frame. */
  class EdgeDetection {
    const hypot: (real, real) -> real
    var lastValidCorners: Option<Quad>
    var detectionHistory: seq<Quad>
    var stableCount: nat
    var noUpdateCount: nat

    /** The fields as a value. */
    function State(): DetectionState
      reads this
    {
      DetectionState(lastValidCorners, detectionHistory, stableCount, noUpdateCount)
    }

    constructor (hypot: (real, real) -> real)
      ensures this.hypot == hypot && State() == Initial
    {
      this.hypot := hypot;
      lastValidCorners := None;
      detectionHistory := [];
      stableCount := 0;
      noUpdateCount := 0;
    }

    /** `resetDetectionState`. */
    method ResetDetectionState()
      modifies this
      ensures State() == Initial
    {
      lastValidCorners := None;
      detectionHistory := [];
      stableCount := 0;
      noUpdateCount := 0;
    }

    /** `getCurrentDetectedCorners`: a copy of the last corners, or nothing. */
    method GetCurrentDetectedCorners() returns (corners: Option<Quad>)
      ensures corners == lastValidCorners
    {
      corners := lastValidCorners;
    }

    /**
     * The stabilisation block of `processVideoFrame`: given the frame's detection,
     * updates the fields and returns the corners to draw.
     */
    method Stabilise(currentCorners: Option<Quad>) returns (displayCorners: Option<Quad>)
      modifies this
      ensures Frame(State(), displayCorners) == Next(hypot, old(State()), currentCorners)
    {
      displayCorners := None;
      if currentCorners.Some? {
        noUpdateCount := 0;
        var smoothedCorners := SmoothCorners(detectionHistory, currentCorners.value);
        if lastValidCorners.Some? {
          var avgDistance := AverageDistanceBetweenPoints(hypot, smoothedCorners, lastValidCorners.value);
          if avgDistance.Some? && avgDistance.value < MoveThreshold {
            stableCount := stableCount + 1;
            if stableCount >= StableThreshold {
              displayCorners := Some(smoothedCorners);
              lastValidCorners := Some(smoothedCorners);
              detectionHistory := detectionHistory + [smoothedCorners];
              if |detectionHistory| > MaxHistory {
                detectionHistory := detectionHistory[1..];
              }
            } else {
              displayCorners := lastValidCorners;
            }
          } else {
            stableCount := 1;
            displayCorners := Some(smoothedCorners);
            lastValidCorners := Some(smoothedCorners);
            detectionHistory := detectionHistory + [smoothedCorners];
            if |detectionHistory| > MaxHistory {
              detectionHistory := detectionHistory[1..];
            }
          }
        } else {
          displayCorners := Some(smoothedCorners);
          lastValidCorners := Some(smoothedCorners);
          detectionHistory := detectionHistory + [smoothedCorners];
          stableCount := 1;
        }
      } else {
        noUpdateCount := noUpdateCount + 1;
        if lastValidCorners.Some? {
          displayCorners := lastValidCorners;
          stableCount := 0;
          if noUpdateCount > MaxNoUpdate {
            ResetDetectionState();
          }
        }
      }
    }
  }
}
