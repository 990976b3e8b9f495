/**
 * The records of src/views/ocr/ts/types.ts: a point, the four corners of a selection
 * and a photo of the editor's image list.
 */
module Types {
  import opened Wrappers

  /** A point in image pixels. */
  datatype Point = Point(x: real, y: real)

  /** The four corners of a selection, in the order top-left, top-right, bottom-right, bottom-left. */
  type Quad = q: seq<Point> | |q| == 4
    witness [Point(0.0, 0.0), Point(0.0, 0.0), Point(0.0, 0.0), Point(0.0, 0.0)]

  /** The rectangle `(0,0), (w,0), (w,h), (0,h)` covering a `w` by `h` image. */
  function FullQuad(w: real, h: real): (q: Quad)
    ensures q[0] == Point(0.0, 0.0) && q[2] == Point(w, h)
    ensures q[1].x == q[2].x && q[1].y == q[0].y && q[3].x == q[0].x && q[3].y == q[2].y
  {
    [Point(0.0, 0.0), Point(w, 0.0), Point(w, h), Point(0.0, h)]
  }

  /**
   * One photo: its image URL, the URL of its corrected image, the URL of its filtered
   * image if any, the id of the filter in use, and the corners of its selection.
   */
  datatype PhotoItem = PhotoItem(
    src: string,
    persped_src: string,
    filtered_src: Option<string>,
    use_filter: string,
    points: seq<Point>)
}
