/** Values shared by the interactive placer and the batch stamper: optional
    values, Python's truth test of an optional path, point-space rectangles,
    and the placements that stand for PyMuPDF `insert_image` calls. */
module Common {

  datatype Option<+T> = None | Some(value: T)

  /** Python's truth test of a path that may be None: None and "" are both false. */
  predicate Truthy(s: Option<string>) {
    s.Some? && s.value != ""
  }

  /** A `fitz.Rect`: top-left corner (x0, y0), bottom-right corner (x1, y1), in points. */
  datatype Rect = Rect(x0: real, y0: real, x1: real, y1: real) {
    function Width(): real { x1 - x0 }
    function Height(): real { y1 - y0 }
  }

  /** One `page.insert_image(rect, filename = image, keep_proportion = True, overlay = True)`
      call: the 0-based page it lands on, the target rectangle and the image file. */
  datatype Placement = Placement(page: nat, rect: Rect, image: string)
}
