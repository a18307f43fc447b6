/** The state of the interactive placer: the page viewer with its overlay
    list (`PDFViewer`) and the main window's chosen image paths, removal by
    tag and save (`MainWindow`). Qt widgets, the scene graph and PyMuPDF
    rendering are not modelled; their effect is kept in plain fields. */
module StampGui {
  import opened Common
  import opened Overlays
  import opened GuiSave

  class PdfViewer {
    /** `len(self.doc)`, and 0 when no document is open. The source only ever
        asks `if self.doc`, which is false for both, so they are one state. */
    var pageCount: nat
    var pdfPath: Option<string>
    /** `self.page_index`, the page on show. */
    var pageIndex: nat
    /** Whether `self.image_item` is set: some page has been rendered. */
    var hasImage: bool
    /** `self.rects`, the overlays in the order they were added. */
    var rects: seq<Overlay>

    /** The current page is a page of the document whenever there is one. */
    ghost predicate Valid()
      reads this
    {
      pageCount > 0 ==> pageIndex < pageCount
    }

    constructor ()
      ensures Valid()
      ensures pageCount == 0 && pdfPath == None && pageIndex == 0 && !hasImage && rects == []
    {
      pageCount, pdfPath, pageIndex, hasImage, rects := 0, None, 0, false, [];
    }

    /** `page_count()`: never smaller than one more than the current page. */
    function PageCount(): (n: nat)
      requires Valid()
      reads this
      ensures n == 0 || pageIndex < n
    {
      pageCount
    }

    /** The effect of a successful `show_page(index)`: that page is current,
        rendered, and every overlay's visibility follows the rule for it. */
    twostate predicate Showed(index: nat)
      reads this
    {
      pageCount == old(pageCount) && pdfPath == old(pdfPath) &&
      pageIndex == index && hasImage && rects == Restyle(old(rects), index)
    }

    /** `show_page(index)`: ignored without a document or for an index outside
        [0, page count); otherwise the page becomes current and the
        visibility loop runs over the overlays. */
    method ShowPage(index: int)
      modifies this
      ensures 0 <= index < old(pageCount) ==> Showed(index)
      ensures !(0 <= index < old(pageCount)) ==> unchanged(this)
    {
      if pageCount == 0 { return; }
      if index < 0 || index >= pageCount { return; }
      pageIndex := index;
      hasImage := true;
      var rs := rects;
      var i := 0;
      while i < |rs|
        invariant 0 <= i <= |rs| && |rs| == |rects|
        invariant forall k :: 0 <= k < i ==> rs[k] == rects[k].(visible := ShownOn(rects[k], index))
        invariant forall k :: i <= k < |rs| ==> rs[k] == rects[k]
      {
        if rs[i].tag == Signature {
          rs := rs[i := rs[i].(visible := rs[i].page == pageIndex)];
        } else {
          rs := rs[i := rs[i].(visible := true)];
        }
        i := i + 1;
      }
      rects := rs;
    }

    /** `go_first()`. */
    method GoFirst()
      requires Valid()
      modifies this
      ensures Valid()
      ensures old(pageCount) > 0 ==> Showed(0)
      ensures old(pageCount) == 0 ==> unchanged(this)
    {
      if pageCount > 0 { ShowPage(0); }
    }

    /** `go_last()`. */
    method GoLast()
      requires Valid()
      modifies this
      ensures Valid()
      ensures old(pageCount) > 0 ==> Showed(old(pageCount) - 1)
      ensures old(pageCount) == 0 ==> unchanged(this)
    {
      if pageCount > 0 { ShowPage(pageCount - 1); }
    }

    /** `next_page()`: one page on, and nothing on the last page. */
    method NextPage()
      requires Valid()
      modifies this
      ensures Valid()
      ensures old(pageIndex) + 1 < old(pageCount) ==> Showed(old(pageIndex) + 1)
      ensures old(pageIndex) + 1 >= old(pageCount) ==> unchanged(this)
    {
      if pageCount > 0 && pageIndex + 1 < pageCount { ShowPage(pageIndex + 1); }
    }

    /** `prev_page()`: one page back, and nothing on page 0. */
    method PrevPage()
      requires Valid()
      modifies this
      ensures Valid()
      ensures old(pageCount) > 0 && old(pageIndex) >= 1 ==> Showed(old(pageIndex) - 1)
      ensures old(pageCount) == 0 || old(pageIndex) == 0 ==> unchanged(this)
    {
      if pageCount > 0 && pageIndex - 1 >= 0 { ShowPage(pageIndex - 1); }
    }

    /** `load_pdf(path)`, with the opened document's page count as a
        parameter. The overlays already placed are kept. */
    method LoadPdf(path: string, pages: nat)
      requires Valid()
      modifies this
      ensures Valid() && pdfPath == Some(path) && pageCount == pages
      ensures pages > 0 ==> pageIndex == 0 && hasImage && rects == Restyle(old(rects), 0)
      ensures pages == 0 ==> pageIndex == old(pageIndex) && hasImage == old(hasImage) && rects == old(rects)
    {
      pdfPath := Some(path);
      pageCount := pages;
      ShowPage(0);
    }

    /** `add_drag_rect(w, h, tag)`: without a rendered page nothing happens;
        otherwise one overlay is appended at local (20, 20), undragged, on the
        current page, and shown. */
    method AddDragRect(w: real, h: real, tag: Tag) returns (r: Option<Overlay>)
      requires Valid()
      modifies this
      ensures Valid()
      ensures pageCount == old(pageCount) && pdfPath == old(pdfPath)
      ensures pageIndex == old(pageIndex) && hasImage == old(hasImage)
      ensures !old(hasImage) ==> r == None && rects == old(rects)
      ensures old(hasImage) ==> r.Some? && rects == old(rects) + [r.value]
      ensures old(hasImage) ==> r.value == Overlay(tag, pageIndex, 20.0, 20.0, w, h, 0.0, 0.0, true)
      ensures old(hasImage) ==> ShownOn(r.value, pageIndex)
    {
      if !hasImage { return None; }
      var o := Overlay(tag, pageIndex, 20.0, 20.0, w, h, 0.0, 0.0, true);
      rects := rects + [o];
      if tag == Signature {
        o := o.(visible := o.page == pageIndex);
        rects := rects[|rects| - 1 := o];
      }
      r := Some(o);
    }

    /** `remove_rects_by_tag(tag)`: the overlays with the tag are taken out of
        the list; the scene and viewport updates are Qt's. */
    method RemoveRectsByTag(tag: Tag)
      requires Valid()
      modifies this
      ensures Valid()
      ensures pageCount == old(pageCount) && pdfPath == old(pdfPath)
      ensures pageIndex == old(pageIndex) && hasImage == old(hasImage)
      ensures rects == Without(old(rects), tag)
    {
      rects := RemoveAllTagged(rects, tag);
    }
  }

  /** The outcome of "Save as…". */
  datatype SaveResult =
    | NotSaved                                          // no document, no path, or the dialog was cancelled
    | Saved(outPath: string, placements: seq<Placement>) // `doc.save(out_path)` after these insertions
    | Aborted                                           // an overlay's page is not in the document: load_page raised

  /** The size the main window gives a new overlay of each tag. */
  function DefaultBox(tag: Tag): (box: (real, real))
    ensures box.0 > 0.0 && box.1 > 0.0
  {
    match tag
    case Initials => (72.0, 48.0)
    case Signature => (180.0, 60.0)
    case Other => (120.0, 120.0)
  }

  class MainWindow {
    const viewer: PdfViewer
    var initialsPath: Option<string>
    var signaturePath: Option<string>
    var otherStampPath: Option<string>

    ghost predicate Valid()
      reads this, viewer
    {
      viewer.Valid()
    }

    constructor ()
      ensures Valid() && fresh(viewer)
      ensures initialsPath == None && signaturePath == None && otherStampPath == None
      ensures viewer.pageCount == 0 && viewer.pdfPath == None && !viewer.hasImage && viewer.rects == []
    {
      viewer := new PdfViewer();
      initialsPath, signaturePath, otherStampPath := None, None, None;
    }

    /** The stored image path of a tag. */
    function PathOf(tag: Tag): Option<string>
      reads this
    {
      match tag
      case Initials => initialsPath
      case Signature => signaturePath
      case Other => otherStampPath
    }

    /** The paths after setting the one of `tag` to `p`. */
    twostate predicate PathsSet(tag: Tag, p: Option<string>)
      reads this
    {
      PathOf(tag) == p &&
      forall u :: u != tag ==> PathOf(u) == old(PathOf(u))
    }

    /** `choose_initials`, `choose_fullsig` and `choose_other`: the file
        dialog's answer `picked` ("" when cancelled) and whether it is a file
        are parameters. A usable answer becomes the tag's path and a new
        overlay of the tag's default size is added. */
    method ChooseStamp(tag: Tag, picked: string, isFile: bool) returns (rect: Option<Overlay>)
      requires Valid()
      modifies this, viewer
      ensures Valid()
      ensures picked == "" || !isFile ==> rect == None && unchanged(this) && unchanged(viewer)
      ensures picked != "" && isFile ==> PathsSet(tag, Some(picked))
      ensures picked != "" && isFile && old(viewer.hasImage) ==>
        rect == Some(Overlay(tag, old(viewer.pageIndex), 20.0, 20.0, DefaultBox(tag).0, DefaultBox(tag).1, 0.0, 0.0, true)) &&
        viewer.rects == old(viewer.rects) + [rect.value]
      ensures picked != "" && isFile && !old(viewer.hasImage) ==> rect == None && viewer.rects == old(viewer.rects)
      ensures viewer.pageCount == old(viewer.pageCount) && viewer.pageIndex == old(viewer.pageIndex)
      ensures viewer.pdfPath == old(viewer.pdfPath) && viewer.hasImage == old(viewer.hasImage)
    {
      if picked == "" || !isFile { return None; }
      match tag {
        case Initials => initialsPath := Some(picked);
        case Signature => signaturePath := Some(picked);
        case Other => otherStampPath := Some(picked);
      }
      var (w, h) := DefaultBox(tag);
      rect := viewer.AddDragRect(w, h, tag);
    }

    /** `activate_box(tag)` (a double click on an overlay): a usable answer of
        the file dialog replaces the tag's path; the overlays stay as they are. */
    method ActivateBox(tag: Tag, picked: string, isFile: bool)
      requires Valid()
      modifies this
      ensures Valid()
      ensures picked == "" || !isFile ==> unchanged(this)
      ensures picked != "" && isFile ==> PathsSet(tag, Some(picked))
    {
      if picked == "" || !isFile { return; }
      match tag {
        case Initials => initialsPath := Some(picked);
        case Signature => signaturePath := Some(picked);
        case Other => otherStampPath := Some(picked);
      }
    }

    /** `remove_tag(tag)`: forget the tag's image path and remove its overlays. */
    method RemoveTag(tag: Tag)
      requires Valid()
      modifies this, viewer
      ensures Valid()
      ensures PathsSet(tag, None)
      ensures viewer.rects == Without(old(viewer.rects), tag)
      ensures viewer.pageCount == old(viewer.pageCount) && viewer.pageIndex == old(viewer.pageIndex)
      ensures viewer.pdfPath == old(viewer.pdfPath) && viewer.hasImage == old(viewer.hasImage)
    {
      match tag {
        case Initials => initialsPath := None;
        case Signature => signaturePath := None;
        case Other => otherStampPath := None;
      }
      viewer.RemoveRectsByTag(tag);
    }

    /** `save_stamped_pdf()`: the save dialog's answer, the re-opened
        document's pages and whether each stored path names a file are
        parameters. Nothing happens without a document, without its path or
        when the dialog is cancelled; otherwise the placements are those of
        SavePlan, or the save aborts when an overlay's page is missing. */
    method SaveStampedPdf(outPath: string, pages: seq<PageGeom>,
                          initialsOnDisk: bool, signatureOnDisk: bool, otherOnDisk: bool)
      returns (result: SaveResult)
      requires AllRender(pages)
      ensures result == NotSaved <==> viewer.pageCount == 0 || !Truthy(viewer.pdfPath) || outPath == ""
      ensures result.Saved? ==> result.outPath == outPath
      ensures result.Saved? ==>
        SavePlan(viewer.rects, initialsPath, signaturePath, otherStampPath,
                 initialsOnDisk, signatureOnDisk, otherOnDisk, pages) == Some(result.placements)
      ensures result == Aborted <==>
        viewer.pageCount > 0 && Truthy(viewer.pdfPath) && outPath != "" &&
        SavePlan(viewer.rects, initialsPath, signaturePath, otherStampPath,
                 initialsOnDisk, signatureOnDisk, otherOnDisk, pages).None?
    {
      if viewer.pageCount == 0 || !Truthy(viewer.pdfPath) { return NotSaved; }
      if outPath == "" { return NotSaved; }
      var plan := SavePlan(viewer.rects, initialsPath, signaturePath, otherStampPath,
                           initialsOnDisk, signatureOnDisk, otherOnDisk, pages);
      match plan {
        case None => result := Aborted;
        case Some(placements) => result := Saved(outPath, placements);
      }
    }
  }
}
