/**
 * The filter panel of src/views/ocr/ts/editor-filter.ts: the list of filters, the
 * selected filter of the current photo, and applying a filter to it. Loading the photo
 * into a canvas and encoding the result as a blob URL are outside the model: the
 * pixel work is `RunFilter`, and the URL a filter produced (or its failure) is a
 * parameter of `ApplyFilterToImage`.
 */
module EditorFilter {
  import opened Wrappers
  import opened Types
  import opened Editor
  import opened PixelFilters
  import opened NeighbourhoodFilters

  /** The ids of `filterList`, in display order. */
  const FilterIds: seq<string> := ["original", "enhance", "sharpening", "mono", "scan", "remshad"]

  /** `findIndex`: the first position of `id` in `ids`, or -1. */
  function IndexOf(ids: seq<string>, id: string): (i: int)
    ensures -1 <= i < |ids|
    ensures i == -1 <==> id !in ids
    ensures i >= 0 ==> ids[i] == id && id !in ids[..i]
  {
    if |ids| == 0 then -1
    else if ids[0] == id then 0
    else
      var j := IndexOf(ids[1..], id);
      if j == -1 then -1
      else
        assert ids[..j + 1] == [ids[0]] + ids[1..][..j];
        j + 1
  }

  /** Each filter's position in the list is found again by its id. */
  lemma FilterIdsFound(v: int)
    requires 0 <= v < |FilterIds|
    ensures IndexOf(FilterIds, FilterIds[v]) == v
  {
    var i := IndexOf(FilterIds, FilterIds[v]);
    assert FilterIds[i] == FilterIds[v];
  }

  /**
   * The image data a filter produces from `d`, a `width` by `height` image, and `None`
   * for an id the switch of `applyFilterToImage` does not know.
   */
  function Filtered(filterId: string, d: seq<Byte>, width: nat, height: nat): (r: Option<seq<Byte>>)
    requires Fits(d, width, height)
  {
    match filterId
    case "original" => Some(d)
    case "enhance" => Some(Recoloured(Enhance, d, |d| / 4))
    case "sharpening" => Some(Sharpened(d, width, height))
    case "mono" => Some(Recoloured(Mono, d, |d| / 4))
    case "scan" => Some(Recoloured(Scan, d, |d| / 4))
    case "remshad" => Some(Remshaded(d, width, height))
    case _ => None
  }

  /**
   * Exactly the listed filters produce an image; it has the input's size, the original
   * is the input itself, and every filter keeps every pixel's alpha.
   */
  lemma FilteredShape(filterId: string, d: seq<Byte>, width: nat, height: nat, x: int, y: int)
    requires Fits(d, width, height) && 0 <= x < width && 0 <= y < height
    ensures Filtered(filterId, d, width, height).Some? <==> filterId in FilterIds
    ensures filterId == "original" ==> Filtered(filterId, d, width, height) == Some(d)
    ensures 0 <= Idx(width, x, y, 3) < |d|
    ensures Filtered(filterId, d, width, height).Some? ==>
      |Filtered(filterId, d, width, height).value| == |d|
      && Filtered(filterId, d, width, height).value[Idx(width, x, y, 3)] == d[Idx(width, x, y, 3)]
  {
    InBuffer(width, height, x, y, 3);
    var p := y * width + x;
    assert Idx(width, x, y, 3) == 4 * p + 3;
    assert |d| / 4 == width * height;
    match filterId
    case "original" =>
    case "enhance" => RecolouredBytes(Enhance, d, width * height, p);
    case "sharpening" => SharpenKeeps(d, width, height, x, y, 3);
    case "mono" => RecolouredBytes(Mono, d, width * height, p);
    case "scan" => RecolouredBytes(Scan, d, width * height, p);
    case "remshad" => RemshadKeeps(d, width, height, x, y, 3);
    case _ =>
  }

  /** The pixel loops of the filter `filterId` on a `width` by `height` image. */
  method RunFilter(filterId: string, data: array<Byte>, width: nat, height: nat) returns (known: bool)
    requires data.Length == 4 * (width * height)
    modifies data
    ensures known <==> filterId in FilterIds
    ensures known ==> Filtered(filterId, old(data[..]), width, height) == Some(data[..])
    ensures !known ==> data[..] == old(data[..])
  {
    assert data.Length % 4 == 0;
    known := true;
    match filterId
    case "original" =>
    case "enhance" => EnhanceFilter(data);
    case "sharpening" => Sharpen(data, width, height);
    case "mono" => MonoFilter(data);
    case "scan" => ScanFilter(data);
    case "remshad" => Remshad(data, width, height);
    case _ => known := false;
  }

  /** A JavaScript truthiness test on an optional URL: present and not empty. */
  predicate Truthy(url: Option<string>) {
    url.Some? && url.value != ""
  }

  /** The filter panel, over the editor's shared state. */
  class FilterEditor {
    const editor: EditorState
    /** The object URLs released with `URL.revokeObjectURL`, in order. */
    ghost var revokedUrls: seq<string>

    constructor (editor: EditorState)
      ensures this.editor == editor && revokedUrls == []
    {
      this.editor := editor;
      revokedUrls := [];
    }

    /**
     * `currentFilter`'s getter: the position of the current photo's filter in the list,
     * or -1 when there is no current photo or its filter is not listed.
     */
    function CurrentFilter(): (i: int)
      reads editor
      ensures -1 <= i < |FilterIds|
      ensures i >= 0 ==> editor.CurrentImage().Some? && FilterIds[i] == editor.CurrentImage().value.use_filter
      ensures i == -1 <==> editor.CurrentImage().None? || editor.CurrentImage().value.use_filter !in FilterIds
    {
      match editor.CurrentImage()
      case None => -1
      case Some(photo) => IndexOf(FilterIds, photo.use_filter)
    }

    /**
     * `applyFilterToImage(src, filterId)`, where `rendered` is the URL of the image the
     * filter made from `src`, or `None` if the filter failed. Without a current photo it
     * fails and changes nothing. Otherwise a previous filtered URL is released and
     * cleared; then `original` succeeds with no filtered image, a listed filter stores
     * its URL and succeeds, or fails when it failed, and an unknown id fails.
     */
    method ApplyFilterToImage(filterId: string, rendered: Option<string>) returns (ok: bool)
      modifies this, editor
      ensures editor.swiperslideIn == old(editor.swiperslideIn) && editor.currentEditorMode == old(editor.currentEditorMode)
      ensures editor.backNavigations == old(editor.backNavigations)
      ensures old(editor.CurrentImage()).None? ==>
        !ok && editor.imageList == old(editor.imageList) && revokedUrls == old(revokedUrls)
      ensures old(editor.CurrentImage()).Some? ==>
        var photo := old(editor.CurrentImage().value);
        && |editor.imageList| == |old(editor.imageList)|
        && (ok <==> filterId == "original" || (filterId in FilterIds && rendered.Some?))
        && editor.imageList == old(editor.imageList)[editor.swiperslideIn := editor.imageList[editor.swiperslideIn]]
        && editor.imageList[editor.swiperslideIn] == photo.(filtered_src := editor.imageList[editor.swiperslideIn].filtered_src)
        && editor.imageList[editor.swiperslideIn].filtered_src ==
             (if filterId == "original" then None
              else if filterId in FilterIds && rendered.Some? then rendered
              else if Truthy(photo.filtered_src) then None
              else photo.filtered_src)
        && revokedUrls == old(revokedUrls) + (if Truthy(photo.filtered_src) then [photo.filtered_src.value] else [])
    {
      var current := editor.CurrentImage();
      if current.None? {
        return false;
      }
      var i := editor.swiperslideIn;
      var photo := current.value;
      if Truthy(photo.filtered_src) {
        revokedUrls := revokedUrls + [photo.filtered_src.value];
        photo := photo.(filtered_src := None);
        editor.imageList := editor.imageList[i := photo];
      }
      if filterId == "original" {
      } else if filterId in FilterIds {
        if rendered.None? {
          return false;
        }
        photo := photo.(filtered_src := rendered);
        editor.imageList := editor.imageList[i := photo];
      } else {
        return false;
      }
      if filterId == "original" {
        photo := photo.(filtered_src := None);
        editor.imageList := editor.imageList[i := photo];
      }
      return true;
    }

    /**
     * `currentFilter`'s setter: applies the filter at position `value` to the current
     * photo and records it as the photo's filter, or records `original` when applying
     * failed. Without a current photo or with a position outside the list nothing
     * changes. Afterwards the getter reads `value` back on success and 0 otherwise,
     * and the photo's filtered image and the released URLs are as `ApplyFilterToImage`
     * left them.
     */
    method SetCurrentFilter(value: int, rendered: Option<string>)
      modifies this, editor
      ensures editor.swiperslideIn == old(editor.swiperslideIn) && editor.currentEditorMode == old(editor.currentEditorMode)
      ensures editor.backNavigations == old(editor.backNavigations)
      ensures old(editor.CurrentImage()).None? || !(0 <= value < |FilterIds|) ==>
        editor.imageList == old(editor.imageList) && revokedUrls == old(revokedUrls)
      ensures old(editor.CurrentImage()).Some? && 0 <= value < |FilterIds| ==>
        && |editor.imageList| == |old(editor.imageList)|
        && editor.imageList == old(editor.imageList)[editor.swiperslideIn := editor.imageList[editor.swiperslideIn]]
        && editor.imageList[editor.swiperslideIn].src == old(editor.CurrentImage().value.src)
        && editor.imageList[editor.swiperslideIn].persped_src == old(editor.CurrentImage().value.persped_src)
        && editor.imageList[editor.swiperslideIn].points == old(editor.CurrentImage().value.points)
        && CurrentFilter() == (if value == 0 || rendered.Some? then value else 0)
        && editor.imageList[editor.swiperslideIn].filtered_src ==
             (if value == 0 then None
              else if rendered.Some? then rendered
              else if Truthy(old(editor.CurrentImage().value.filtered_src)) then None
              else old(editor.CurrentImage().value.filtered_src))
        && revokedUrls == old(revokedUrls) +
             (if Truthy(old(editor.CurrentImage().value.filtered_src))
              then [old(editor.CurrentImage().value.filtered_src.value)] else [])
    {
      var current := editor.CurrentImage();
      if current.None? || !(0 <= value < |FilterIds|) {
        return;
      }
      var id := FilterIds[value];
      var ok := ApplyFilterToImage(id, rendered);
      var i := editor.swiperslideIn;
      var useFilter := if ok then id else "original";
      editor.imageList := editor.imageList[i := editor.imageList[i].(use_filter := useFilter)];
      FilterIdsFound(value);
      FilterIdsFound(0);
    }
  }
}
