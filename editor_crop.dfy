/**
 * The crop editor of src/views/ocr/ts/editor-crop.ts (`useEditorCrop`): corners are
 * edited in a temporary list while in `crop` mode and written to the photo list only
 * on confirmation. The editor's inputs (photo list, selected slide, mode) are fields;
 * the current image is the selected entry of the photo list. The default corners come
 * from a `getDefaultCorners` that the module imports but camera-detection.ts does not
 * export, so they are a constructor parameter.
 */
module EditorCrop {
  import opened Wrappers
  import opened Types
  import opened EditorGeometry

  /**
   * A photo as this editor sees it: its corners may be absent; `processedSrc` is the
   * URL of the corrected image, if any.
   */
  datatype CropPhoto = CropPhoto(src: string, points: Option<seq<Point>>, processedSrc: Option<string>)

  /** The corners `crop-enter` uses for a photo without corners. */
  const FallbackCorners: seq<Point> :=
    [Point(100.0, 100.0), Point(700.0, 100.0), Point(700.0, 500.0), Point(100.0, 500.0)]

  /** The mode-change events `handleCropModeChange` reacts to; any other is ignored. */
  datatype CropEvent = CropEnter | CropExit | Exit | CropConfirm | OtherEvent

  class CropEditor {
    var imageList: seq<CropPhoto>
    var swiperslideIn: int
    var editorMode: string
    var tempPoints: seq<Point>
    var imageWidth: real
    var imageHeight: real
    var containerWidth: real
    var containerHeight: real
    var dragState: DragState
    const defaultCorners: seq<Point>
    /** How many times `performPerspectiveTransform` was started. */
    ghost var transformRequests: nat

    constructor (imageList: seq<CropPhoto>, swiperslideIn: int, editorMode: string, defaultCorners: seq<Point>)
      ensures this.imageList == imageList && this.swiperslideIn == swiperslideIn && this.editorMode == editorMode
      ensures this.defaultCorners == defaultCorners && tempPoints == [] && dragState == InitialDragState
      ensures imageWidth == 0.0 && imageHeight == 0.0 && containerWidth == 0.0 && containerHeight == 0.0
      ensures transformRequests == 0
    {
      this.imageList := imageList;
      this.swiperslideIn := swiperslideIn;
      this.editorMode := editorMode;
      this.defaultCorners := defaultCorners;
      tempPoints := [];
      imageWidth, imageHeight, containerWidth, containerHeight := 0.0, 0.0, 0.0, 0.0;
      dragState := InitialDragState;
      transformRequests := 0;
    }

    /** Whether the selected slide holds a photo. */
    predicate HasCurrent()
      reads this
    {
      0 <= swiperslideIn < |imageList|
    }

    /**
     * The `points` getter: the temporary corners in `crop` mode when there are any;
     * otherwise the current photo's corners, or the default corners when it has none.
     * `None` when there is no current photo (reading its corners throws).
     */
    function Points(): (r: Option<seq<Point>>)
      reads this
      ensures editorMode == "crop" && tempPoints != [] ==> r == Some(tempPoints)
      ensures !(editorMode == "crop" && tempPoints != []) ==>
        (r.Some? <==> HasCurrent())
        && (HasCurrent() && imageList[swiperslideIn].points.Some? ==> r == imageList[swiperslideIn].points)
        && (HasCurrent() && imageList[swiperslideIn].points.None? ==> r == Some(defaultCorners))
    {
      if editorMode == "crop" && |tempPoints| > 0 then Some(tempPoints)
      else if !HasCurrent() then None
      else if imageList[swiperslideIn].points.Some? then imageList[swiperslideIn].points
      else Some(defaultCorners)
    }

    /** `displayArea` for the current sizes. */
    function Area(): (a: EditorGeometry.Area)
      reads this
      ensures a.scaleX != 0.0 && a.scaleY != 0.0
    {
      DisplayArea(imageWidth, imageHeight, containerWidth, containerHeight)
    }

    /**
     * The `points` setter: in `crop` mode it writes only the temporary corners; in any
     * other mode it writes the current photo's corners when there is a current photo.
     */
    method SetPoints(newPoints: seq<Point>)
      modifies this
      ensures swiperslideIn == old(swiperslideIn) && editorMode == old(editorMode) && dragState == old(dragState)
      ensures editorMode == "crop" ==> tempPoints == newPoints && imageList == old(imageList)
      ensures editorMode != "crop" && old(HasCurrent()) ==>
        imageList == old(imageList)[swiperslideIn := old(imageList[swiperslideIn]).(points := Some(newPoints))]
        && tempPoints == old(tempPoints)
      ensures editorMode != "crop" && !old(HasCurrent()) ==>
        imageList == old(imageList) && tempPoints == old(tempPoints)
      ensures imageWidth == old(imageWidth) && imageHeight == old(imageHeight)
      ensures containerWidth == old(containerWidth) && containerHeight == old(containerHeight)
      ensures transformRequests == old(transformRequests)
    {
      if editorMode == "crop" {
        tempPoints := newPoints;
      } else if HasCurrent() {
        imageList := imageList[swiperslideIn := imageList[swiperslideIn].(points := Some(newPoints))];
      }
    }

    /**
     * `initDragState`: starts a drag with a snapshot of the corners; when the corners
     * cannot be read (no current photo) the exception leaves the drag state unchanged.
     */
    method InitDragState(dragType: DragType, index: int, clientX: real, clientY: real)
      modifies this
      ensures old(Points()).Some? ==> dragState == DragState(true, dragType, index, clientX, clientY, old(Points()).value)
      ensures old(Points()).None? ==> dragState == old(dragState)
      ensures imageList == old(imageList) && swiperslideIn == old(swiperslideIn) && editorMode == old(editorMode)
      ensures tempPoints == old(tempPoints) && transformRequests == old(transformRequests)
      ensures imageWidth == old(imageWidth) && imageHeight == old(imageHeight)
      ensures containerWidth == old(containerWidth) && containerHeight == old(containerHeight)
    {
      var current := Points();
      if current.Some? {
        dragState := DragState(true, dragType, index, clientX, clientY, current.value);
      }
    }

    /** `onMaskPointerUp`: ends the drag, keeping the rest of its state. */
    method OnMaskPointerUp()
      modifies this
      ensures dragState == old(dragState).(isDragging := false)
      ensures imageList == old(imageList) && swiperslideIn == old(swiperslideIn) && editorMode == old(editorMode)
      ensures tempPoints == old(tempPoints) && transformRequests == old(transformRequests)
      ensures imageWidth == old(imageWidth) && imageHeight == old(imageHeight)
      ensures containerWidth == old(containerWidth) && containerHeight == old(containerHeight)
    {
      dragState := dragState.(isDragging := false);
    }

    /**
     * The corners a move of the pointer writes, if any: a corner or edge drag reads the
     * corners first (nothing is written when that throws); a move drag only needs the
     * snapshot.
     */
    function MoveResult(clientX: real, clientY: real): Option<seq<Point>>
      reads this
    {
      var current := Points();
      Dragged(if current.Some? then current.value else [], dragState,
              ScaledDelta(dragState, Area(), clientX, clientY), imageWidth, imageHeight)
    }

    /**
     * `onMaskPointerMove`: with an active drag, writes the dragged corners through the
     * `points` setter.
     */
    method OnMaskPointerMove(clientX: real, clientY: real)
      modifies this
      ensures swiperslideIn == old(swiperslideIn) && editorMode == old(editorMode) && dragState == old(dragState)
      ensures var r := old(MoveResult(clientX, clientY));
        if old(dragState.isDragging) && r.Some? then
          (editorMode == "crop" ==> tempPoints == r.value && imageList == old(imageList))
          && (editorMode != "crop" && old(HasCurrent()) ==>
                imageList == old(imageList)[swiperslideIn := old(imageList[swiperslideIn]).(points := Some(r.value))]
                && tempPoints == old(tempPoints))
          && (editorMode != "crop" && !old(HasCurrent()) ==>
                imageList == old(imageList) && tempPoints == old(tempPoints))
        else imageList == old(imageList) && tempPoints == old(tempPoints)
      ensures imageWidth == old(imageWidth) && imageHeight == old(imageHeight)
      ensures containerWidth == old(containerWidth) && containerHeight == old(containerHeight)
      ensures transformRequests == old(transformRequests)
    {
      if !dragState.isDragging {
        return;
      }
      var r := MoveResult(clientX, clientY);
      if r.Some? {
        SetPoints(r.value);
      }
    }

    /**
     * `handleCropModeChange`. `crop-enter` copies the current photo's corners (or the
     * fallback corners) into the temporary list, and throws without a current photo;
     * `crop-exit` and `exit` discard the temporary corners; `crop-confirm` stores
     * non-empty temporary corners in the current photo, starts the transform and
     * discards them.
     */
    method HandleCropModeChange(event: CropEvent)
      modifies this
      ensures swiperslideIn == old(swiperslideIn) && editorMode == old(editorMode) && dragState == old(dragState)
      ensures event == CropEnter && old(HasCurrent()) ==>
        tempPoints == (if old(imageList[swiperslideIn].points).Some? then old(imageList[swiperslideIn].points.value)
                       else FallbackCorners)
      ensures event == CropEnter && !old(HasCurrent()) ==> tempPoints == old(tempPoints)
      ensures event == CropExit || event == Exit ==> tempPoints == []
      ensures event != CropConfirm ==> imageList == old(imageList) && transformRequests == old(transformRequests)
      ensures event == CropConfirm ==>
        tempPoints == [] && transformRequests == old(transformRequests) + 1
        && (old(tempPoints) != [] && old(HasCurrent()) ==>
              imageList == old(imageList)[swiperslideIn := old(imageList[swiperslideIn]).(points := Some(old(tempPoints)))])
        && (old(tempPoints) == [] || !old(HasCurrent()) ==> imageList == old(imageList))
      ensures event == OtherEvent ==> tempPoints == old(tempPoints)
      ensures imageWidth == old(imageWidth) && imageHeight == old(imageHeight)
      ensures containerWidth == old(containerWidth) && containerHeight == old(containerHeight)
    {
      match event
      case CropEnter =>
        if HasCurrent() {
          var photo := imageList[swiperslideIn];
          tempPoints := if photo.points.Some? then photo.points.value else FallbackCorners;
        }
      case CropExit =>
        tempPoints := [];
      case Exit =>
        tempPoints := [];
      case CropConfirm =>
        if |tempPoints| > 0 && HasCurrent() {
          imageList := imageList[swiperslideIn := imageList[swiperslideIn].(points := Some(tempPoints))];
        }
        transformRequests := transformRequests + 1;
        tempPoints := [];
      case OtherEvent =>
    }
  }
}
