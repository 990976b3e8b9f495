/**
 * The editor's shared state of src/views/ocr/ts/editor.ts: the list of photos being
 * edited, the selected slide and the editor mode, with the back-navigation logic.
 * Navigating back through the router is recorded as a count of back navigations.
 */
module Editor {
  import opened Wrappers
  import opened Types

  /** `currentEditorMode`. */
  datatype Mode = Edit | Persp | Watermark

  class EditorState {
    var imageList: seq<PhotoItem>
    var swiperslideIn: int
    var currentEditorMode: Mode
    /** How many times `router.back()` was called. */
    ghost var backNavigations: nat

    constructor ()
      ensures imageList == [] && swiperslideIn == 0 && currentEditorMode == Edit && backNavigations == 0
    {
      imageList := [];
      swiperslideIn := 0;
      currentEditorMode := Edit;
      backNavigations := 0;
    }

    /** `currentImage`: the photo of the selected slide, `undefined` when there is none. */
    function CurrentImage(): (r: Option<PhotoItem>)
      reads this
      ensures r.Some? <==> 0 <= swiperslideIn < |imageList|
      ensures r.Some? ==> r.value == imageList[swiperslideIn]
    {
      if 0 <= swiperslideIn < |imageList| then Some(imageList[swiperslideIn]) else None
    }

    /** `onSlideChange`: selects the swiper's active slide. */
    method OnSlideChange(activeIndex: int)
      modifies this
      ensures swiperslideIn == activeIndex
      ensures imageList == old(imageList) && currentEditorMode == old(currentEditorMode)
      ensures backNavigations == old(backNavigations)
      ensures 0 <= activeIndex < |imageList| ==> CurrentImage() == Some(imageList[activeIndex])
    {
      swiperslideIn := activeIndex;
    }

    /** `goback`: leaves the editor from `edit` mode, otherwise returns to `edit` mode. */
    method Goback()
      modifies this
      ensures old(currentEditorMode) == Edit ==>
        currentEditorMode == Edit && backNavigations == old(backNavigations) + 1
      ensures old(currentEditorMode) != Edit ==>
        currentEditorMode == Edit && backNavigations == old(backNavigations)
      ensures imageList == old(imageList) && swiperslideIn == old(swiperslideIn)
    {
      if currentEditorMode == Edit {
        backNavigations := backNavigations + 1;
      } else {
        currentEditorMode := Edit;
      }
    }

    /**
     * `onBeforeLeave`: allows leaving only from `edit` mode; from any other mode it
     * returns to `edit` mode instead, without navigating.
     */
    method OnBeforeLeave() returns (leave: bool)
      modifies this
      ensures leave <==> old(currentEditorMode) == Edit
      ensures currentEditorMode == Edit
      ensures backNavigations == old(backNavigations)
      ensures imageList == old(imageList) && swiperslideIn == old(swiperslideIn)
    {
      if currentEditorMode != Edit {
        Goback();
        return false;
      }
      return true;
    }
  }
}
