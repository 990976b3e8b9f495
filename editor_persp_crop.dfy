/**
 * The corner editor of `persp` mode, src/views/ocr/ts/editor-persp-crop.ts: it edits
 * the corners of the private copy held by editor-persp.ts through pointer drags.
 * Element sizes are fields set from outside (image load, container resize).
 */
module EditorPerspCrop {
  import opened Wrappers
  import opened Types
  import opened EditorGeometry
  import EditorPersp

  class PerspCrop {
    var imageWidth: real
    var imageHeight: real
    var containerWidth: real
    var containerHeight: real
    var dragState: DragState
    const persp: EditorPersp.PerspEditor

    constructor (persp: EditorPersp.PerspEditor)
      ensures this.persp == persp && dragState == InitialDragState
      ensures imageWidth == 0.0 && imageHeight == 0.0 && containerWidth == 0.0 && containerHeight == 0.0
    {
      this.persp := persp;
      imageWidth, imageHeight, containerWidth, containerHeight := 0.0, 0.0, 0.0, 0.0;
      dragState := InitialDragState;
    }

    /** The `points` getter: the copy's corners, or none without a copy. */
    function Points(): (r: seq<Point>)
      reads persp
      ensures persp.cropCurrentImage.Some? ==> r == persp.cropCurrentImage.value.points
      ensures persp.cropCurrentImage.None? ==> r == []
    {
      if persp.cropCurrentImage.Some? then persp.cropCurrentImage.value.points else []
    }

    /** `displayArea` for the current sizes. */
    function Area(): (a: EditorGeometry.Area)
      reads this
      ensures a.scaleX != 0.0 && a.scaleY != 0.0
    {
      DisplayArea(imageWidth, imageHeight, containerWidth, containerHeight)
    }

    /** The `points` setter: writes the copy's corners when there is a copy. */
    method SetPoints(newPoints: seq<Point>)
      modifies persp
      ensures old(persp.cropCurrentImage).Some? ==>
        persp.cropCurrentImage == Some(old(persp.cropCurrentImage.value).(points := newPoints))
      ensures old(persp.cropCurrentImage).None? ==> persp.cropCurrentImage == None
      ensures persp.revokedUrls == old(persp.revokedUrls)
    {
      if persp.cropCurrentImage.Some? {
        persp.cropCurrentImage := Some(persp.cropCurrentImage.value.(points := newPoints));
      }
    }

    /** `initDragState`: starts a drag at the pointer, with a snapshot of the corners. */
    method InitDragState(dragType: DragType, index: int, clientX: real, clientY: real)
      modifies this
      ensures dragState == DragState(true, dragType, index, clientX, clientY, Points())
      ensures imageWidth == old(imageWidth) && imageHeight == old(imageHeight)
      ensures containerWidth == old(containerWidth) && containerHeight == old(containerHeight)
    {
      dragState := DragState(true, dragType, index, clientX, clientY, Points());
    }

    /** `onMaskPointerUp`: ends the drag, keeping the rest of its state. */
    method OnMaskPointerUp()
      modifies this
      ensures dragState == old(dragState).(isDragging := false)
      ensures imageWidth == old(imageWidth) && imageHeight == old(imageHeight)
      ensures containerWidth == old(containerWidth) && containerHeight == old(containerHeight)
    {
      dragState := dragState.(isDragging := false);
    }

    /**
     * `onMaskPointerMove`: nothing without an active drag and a copy; otherwise the
     * corners become those of the drag for the pointer's movement scaled back into image
     * coordinates, when the drag writes any.
     */
    method OnMaskPointerMove(clientX: real, clientY: real)
      modifies persp
      ensures !dragState.isDragging || old(persp.cropCurrentImage).None? ==>
        persp.cropCurrentImage == old(persp.cropCurrentImage)
      ensures dragState.isDragging && old(persp.cropCurrentImage).Some? ==>
        var r := Dragged(old(persp.cropCurrentImage.value.points), dragState,
                         ScaledDelta(dragState, Area(), clientX, clientY), imageWidth, imageHeight);
        persp.cropCurrentImage == Some(if r.Some? then old(persp.cropCurrentImage.value).(points := r.value)
                                       else old(persp.cropCurrentImage.value))
      ensures persp.revokedUrls == old(persp.revokedUrls)
    {
      if !dragState.isDragging || persp.cropCurrentImage.None? {
        return;
      }
      var d := ScaledDelta(dragState, Area(), clientX, clientY);
      var r := Dragged(Points(), dragState, d, imageWidth, imageHeight);
      if r.Some? {
        SetPoints(r.value);
      }
    }
  }
}
