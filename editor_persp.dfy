/**
 * The perspective-correction step of src/views/ocr/ts/editor-persp.ts: entering and
 * leaving `persp` mode with a private copy of the current photo, writing the edited
 * corners back, and the part of `transform` that decides whether to warp and into
 * which output rectangle. The warp itself (OpenCV), the image decoding and the blob
 * and object-URL calls are outside the model: their outcomes are parameters.
 */
module EditorPersp {
  import opened Wrappers
  import opened Types
  import opened Editor
  import CameraDetection

  /** `deepClonePhotoItem`: the same five fields, with fresh point records. */
  function DeepClonePhotoItem(item: PhotoItem): (r: PhotoItem)
    ensures r == item
  {
    PhotoItem(item.src, item.persped_src, item.filtered_src, item.use_filter,
              seq(|item.points|, i requires 0 <= i < |item.points| => Point(item.points[i].x, item.points[i].y)))
  }

  /** `Math.ceil` on a real. */
  function Ceil(x: real): (n: int)
    ensures x <= n as real < x + 1.0
  {
    -((-x).Floor)
  }

  /** `Math.max` on two reals. */
  function RMax(a: real, b: real): (r: real)
    ensures r >= a && r >= b && (r == a || r == b)
  {
    if a >= b then a else b
  }

  /**
   * The corners `(0,0), (W,0), (W,H), (0,H)` of a `W` by `H` bitmap: the selection that
   * `transform` refuses to warp.
   */
  predicate IsFullSelection(points: seq<Point>, width: nat, height: nat)
    requires |points| >= 4
  {
    && points[0].x == 0.0 && points[0].y == 0.0
    && points[1].x == width as real && points[1].y == 0.0
    && points[2].x == width as real && points[2].y == height as real
    && points[3].x == 0.0 && points[3].y == height as real
  }

  /** What `transform` hands to the warp: the output size and the corner correspondence. */
  datatype Plan = Plan(width: int, height: int, srcPoints: seq<Point>, dstPoints: seq<Point>)

  /**
   * `transform` up to the warp, for a bitmap of `width` by `height` pixels. `None` is a
   * `null` result: no 2D context (`contextOk` false), a full selection, or fewer than
   * four points (reading a missing corner throws and the exception is caught).
   * `hypot` stands for `Math.hypot`.
   */
  function TransformPlan(hypot: (real, real) -> real, contextOk: bool, width: nat, height: nat,
                         points: seq<Point>): (r: Option<Plan>)
    ensures r.Some? ==> contextOk && |points| >= 4 && !IsFullSelection(points, width, height)
  {
    if !contextOk || |points| < 4 then None
    else if IsFullSelection(points, width, height) then None
    else
      var widthTop := hypot(points[1].x - points[0].x, points[1].y - points[0].y);
      var widthBottom := hypot(points[2].x - points[3].x, points[2].y - points[3].y);
      var heightLeft := hypot(points[3].x - points[0].x, points[3].y - points[0].y);
      var heightRight := hypot(points[2].x - points[1].x, points[2].y - points[1].y);
      var outputWidth := Ceil(RMax(widthTop, widthBottom));
      var outputHeight := Ceil(RMax(heightLeft, heightRight));
      Some(Plan(outputWidth, outputHeight, points[..4],
                FullQuad(outputWidth as real, outputHeight as real)))
  }

  /**
   * With a drawing context and four corners, `transform` declines exactly the full
   * selection of the bitmap.
   */
  lemma NoWarpIffFullSelection(hypot: (real, real) -> real, width: nat, height: nat, points: seq<Point>)
    requires |points| >= 4
    ensures TransformPlan(hypot, true, width, height, points).None?
        <==> points[..4] == FullQuad(width as real, height as real)
  {
    var full := FullQuad(width as real, height as real);
    if IsFullSelection(points, width, height) {
      assert points[..4] == full;
    } else if points[..4] == full {
      assert false;
    }
  }

  /**
   * The output rectangle: its width is the smallest whole number of pixels at least the
   * longer of the top and bottom edges, its height likewise for the left and right
   * edges; the corners map top-left, top-right, bottom-right, bottom-left in order.
   */
  lemma PlanShape(hypot: (real, real) -> real, width: nat, height: nat, points: seq<Point>)
    requires |points| >= 4 && !IsFullSelection(points, width, height)
    ensures var r := TransformPlan(hypot, true, width, height, points);
      var top := hypot(points[1].x - points[0].x, points[1].y - points[0].y);
      var bottom := hypot(points[2].x - points[3].x, points[2].y - points[3].y);
      var left := hypot(points[3].x - points[0].x, points[3].y - points[0].y);
      var right := hypot(points[2].x - points[1].x, points[2].y - points[1].y);
      && r.Some?
      && top <= r.value.width as real && bottom <= r.value.width as real
      && (r.value.width as real - 1.0 < top || r.value.width as real - 1.0 < bottom)
      && left <= r.value.height as real && right <= r.value.height as real
      && (r.value.height as real - 1.0 < left || r.value.height as real - 1.0 < right)
      && |r.value.srcPoints| == 4 && |r.value.dstPoints| == 4
      && forall k :: 0 <= k < 4 ==>
           r.value.srcPoints[k] == points[k]
           && r.value.dstPoints[k].x == (if k == 1 || k == 2 then r.value.width as real else 0.0)
           && r.value.dstPoints[k].y == (if k == 2 || k == 3 then r.value.height as real else 0.0)
  {
  }

  /**
   * A selection left at the detector's default corners for the bitmap's own (non-zero)
   * size is not warped.
   */
  lemma DefaultCornersNotWarped(hypot: (real, real) -> real, width: nat, height: nat)
    requires width > 0 && height > 0
    ensures TransformPlan(hypot, true, width, height,
                          CameraDetection.GetDefaultCorners(width as real, height as real)).None?
  {
    var q := CameraDetection.GetDefaultCorners(width as real, height as real);
    NoWarpIffFullSelection(hypot, width, height, q);
    assert q[..4] == q;
  }

  /**
   * The module state of editor-persp.ts: the private copy being edited in `persp` mode,
   * next to the editor state it edits. `revokedUrls` records the object URLs released.
   */
  class PerspEditor {
    var cropCurrentImage: Option<PhotoItem>
    const editor: EditorState
    ghost var revokedUrls: seq<string>

    constructor (editor: EditorState)
      ensures this.editor == editor && cropCurrentImage == None && revokedUrls == []
    {
      this.editor := editor;
      cropCurrentImage := None;
      revokedUrls := [];
    }

    /** `enter`: copies the current photo, if any, and switches to `persp` mode. */
    method Enter()
      modifies this, editor
      ensures editor.currentEditorMode == Persp
      ensures old(editor.CurrentImage()).Some? ==> cropCurrentImage == old(editor.CurrentImage())
      ensures old(editor.CurrentImage()).None? ==> cropCurrentImage == old(cropCurrentImage)
      ensures editor.imageList == old(editor.imageList) && editor.swiperslideIn == old(editor.swiperslideIn)
      ensures editor.backNavigations == old(editor.backNavigations) && revokedUrls == old(revokedUrls)
    {
      var current := editor.CurrentImage();
      if current.Some? {
        cropCurrentImage := Some(DeepClonePhotoItem(current.value));
      }
      editor.currentEditorMode := Persp;
    }

    /** `cancel`: drops the copy and returns to `edit` mode. */
    method Cancel()
      modifies this, editor
      ensures cropCurrentImage == None && editor.currentEditorMode == Edit
      ensures editor.imageList == old(editor.imageList) && editor.swiperslideIn == old(editor.swiperslideIn)
      ensures editor.backNavigations == old(editor.backNavigations) && revokedUrls == old(revokedUrls)
    {
      cropCurrentImage := None;
      editor.currentEditorMode := Edit;
    }

    /**
     * `confirm`. With both a copy and a current photo, the copy's corners are written
     * back to the photo first; then the copy's image is warped. `fetchOk` says the image
     * could be fetched and decoded, `width`/`height` are its size, `contextOk` that a
     * canvas context was available, `blobOk` that the warp produced a blob, and `newUrl`
     * is the object URL made for it. On success the old corrected image (if any) is
     * released, the new URL is stored and the editor returns to `edit` mode; on any
     * failure only the corners have changed.
     */
    method Confirm(hypot: (real, real) -> real, fetchOk: bool, contextOk: bool, width: nat, height: nat,
                   blobOk: bool, newUrl: string) returns (success: bool)
      modifies this, editor
      ensures editor.swiperslideIn == old(editor.swiperslideIn) && |editor.imageList| == |old(editor.imageList)|
      ensures cropCurrentImage == old(cropCurrentImage) && editor.backNavigations == old(editor.backNavigations)
      ensures old(cropCurrentImage).None? || old(editor.CurrentImage()).None? ==>
        !success && editor.imageList == old(editor.imageList)
        && editor.currentEditorMode == old(editor.currentEditorMode) && revokedUrls == old(revokedUrls)
      ensures old(cropCurrentImage).Some? && old(editor.CurrentImage()).Some? ==>
        var i := editor.swiperslideIn;
        var photo := old(editor.imageList[editor.swiperslideIn]);
        var crop := old(cropCurrentImage.value);
        && (success <==> fetchOk && TransformPlan(hypot, contextOk, width, height, crop.points).Some? && blobOk)
        && editor.imageList == old(editor.imageList)[i := editor.imageList[i]]
        && editor.imageList[i].points == crop.points
        && editor.imageList[i].src == photo.src
        && editor.imageList[i].filtered_src == photo.filtered_src
        && editor.imageList[i].use_filter == photo.use_filter
        && (success ==>
              editor.imageList[i].persped_src == newUrl && editor.currentEditorMode == Edit
              && revokedUrls == old(revokedUrls) + (if photo.persped_src != "" then [photo.persped_src] else []))
        && (!success ==>
              editor.imageList[i].persped_src == photo.persped_src
              && editor.currentEditorMode == old(editor.currentEditorMode) && revokedUrls == old(revokedUrls))
    {
      success := false;
      if cropCurrentImage.Some? && editor.CurrentImage().Some? {
        var i := editor.swiperslideIn;
        var crop := cropCurrentImage.value;
        editor.imageList := editor.imageList[i := editor.imageList[i].(points := crop.points)];
        if fetchOk && TransformPlan(hypot, contextOk, width, height, crop.points).Some? && blobOk {
          var photo := editor.imageList[i];
          if photo.persped_src != "" {
            revokedUrls := revokedUrls + [photo.persped_src];
          }
          editor.imageList := editor.imageList[i := photo.(persped_src := newUrl)];
          editor.currentEditorMode := Edit;
          success := true;
        }
      }
    }
  }
}
