/** The geometry of the interactive placer's "Save as…": re-projecting an
    overlay from the source page's pixmap onto a target page in points
    (`map_rect_to_page`), and deciding which overlays are stamped on which
    pages and in what order. */
module GuiSave {
  import opened Common
  import opened Overlays

  /** What the save needs to know of one page of the re-opened document: the
      size of `page.rect` in points and of `page.get_pixmap()` in pixels. */
  datatype PageGeom = PageGeom(width: real, height: real, pixWidth: nat, pixHeight: nat)

  /** A page whose pixmap is non-empty, so that dividing by its size is defined. */
  predicate Renders(g: PageGeom) {
    g.pixWidth > 0 && g.pixHeight > 0
  }

  predicate AllRender(pages: seq<PageGeom>) {
    forall i :: 0 <= i < |pages| ==> Renders(pages[i])
  }

  /** A box given by its corner and its size: (x, y, w, h). */
  datatype Box = Box(x: real, y: real, w: real, h: real)

  /** The overlay's rectangle in scene coordinates, `rect().translated(pos())`. */
  function Scene(o: Overlay): Box {
    Box(o.SceneX(), o.SceneY(), o.w, o.h)
  }

  /** The scene box as fractions of the source pixmap's width and height. */
  function Normalize(o: Overlay, src: PageGeom): Box
    requires Renders(src)
  {
    var pw, ph := src.pixWidth as real, src.pixHeight as real;
    Box(o.SceneX() / pw, o.SceneY() / ph, o.w / pw, o.h / ph)
  }

  /** `map_rect_to_page(o, target)`: the overlay's fractions of the source
      pixmap, re-scaled by the target page's size in points. The target page's
      own pixmap plays no part: the source renders it and never reads it. */
  function MapRectToPage(o: Overlay, src: PageGeom, tgt: PageGeom): Rect
    requires Renders(src)
  {
    var n := Normalize(o, src);
    var xPts, yPts := n.x * tgt.width, n.y * tgt.height;
    var wPts, hPts := n.w * tgt.width, n.h * tgt.height;
    Rect(xPts, yPts, xPts + wPts, yPts + hPts)
  }

  /** Each normalised value times the pixmap's size gives the scene value back. */
  lemma NormalizeScales(o: Overlay, src: PageGeom)
    requires Renders(src)
    ensures var n := Normalize(o, src);
      n.x * src.pixWidth as real == o.SceneX() && n.w * src.pixWidth as real == o.w &&
      n.y * src.pixHeight as real == o.SceneY() && n.h * src.pixHeight as real == o.h
  {
  }

  /** The mapping keeps proportions: every coordinate is the same fraction of
      the target page's size as the scene value is of the source pixmap's. */
  lemma MapScales(o: Overlay, src: PageGeom, tgt: PageGeom)
    requires Renders(src)
    ensures var r := MapRectToPage(o, src, tgt);
      r.x0 * src.pixWidth as real == o.SceneX() * tgt.width &&
      r.y0 * src.pixHeight as real == o.SceneY() * tgt.height &&
      r.Width() * src.pixWidth as real == o.w * tgt.width &&
      r.Height() * src.pixHeight as real == o.h * tgt.height
  {
  }

  /** The inverse re-projection: a rectangle on the target page back to a
      box in the source pixmap's pixels. */
  function UnmapRect(r: Rect, src: PageGeom, tgt: PageGeom): Box
    requires tgt.width > 0.0 && tgt.height > 0.0
  {
    var pw, ph := src.pixWidth as real, src.pixHeight as real;
    Box(r.x0 / tgt.width * pw, r.y0 / tgt.height * ph, r.Width() / tgt.width * pw, r.Height() / tgt.height * ph)
  }

  /** Mapping onto a page of non-zero size and back gives the scene box again. */
  lemma MapRoundTrip(o: Overlay, src: PageGeom, tgt: PageGeom)
    requires Renders(src) && tgt.width > 0.0 && tgt.height > 0.0
    ensures UnmapRect(MapRectToPage(o, src, tgt), src, tgt) == Scene(o)
  {
  }

  /** When the source pixmap has exactly the target page's size in points
      (rendering at zoom 1 with no rounding), mapping changes nothing: the
      result is the scene box itself. */
  lemma MapIdentity(o: Overlay, src: PageGeom, tgt: PageGeom)
    requires Renders(src)
    requires src.pixWidth as real == tgt.width && src.pixHeight as real == tgt.height
    ensures MapRectToPage(o, src, tgt) == Rect(o.SceneX(), o.SceneY(), o.SceneX() + o.w, o.SceneY() + o.h)
  {
  }

  /** A box of non-negative size lands as a well-ordered rectangle on a page
      of non-negative size: x0 <= x1 and y0 <= y1. */
  lemma MapOrdered(o: Overlay, src: PageGeom, tgt: PageGeom)
    requires Renders(src) && o.w >= 0.0 && o.h >= 0.0 && tgt.width >= 0.0 && tgt.height >= 0.0
    ensures MapRectToPage(o, src, tgt).x0 <= MapRectToPage(o, src, tgt).x1
    ensures MapRectToPage(o, src, tgt).y0 <= MapRectToPage(o, src, tgt).y1
  {
  }

  /** A scene box that lies inside the source pixmap has all its fractions,
      and the fractions of its far edges, in [0, 1]. */
  lemma NormalizeInUnit(o: Overlay, src: PageGeom)
    requires Renders(src) && o.w >= 0.0 && o.h >= 0.0
    requires 0.0 <= o.SceneX() && o.SceneX() + o.w <= src.pixWidth as real
    requires 0.0 <= o.SceneY() && o.SceneY() + o.h <= src.pixHeight as real
    ensures var n := Normalize(o, src);
      0.0 <= n.x && n.x + n.w <= 1.0 && 0.0 <= n.w <= 1.0 &&
      0.0 <= n.y && n.y + n.h <= 1.0 && 0.0 <= n.h <= 1.0
  {
    var n := Normalize(o, src);
    assert n.x + n.w == (o.SceneX() + o.w) / src.pixWidth as real;
    assert n.y + n.h == (o.SceneY() + o.h) / src.pixHeight as real;
  }

  // ---------------------------------------------------------------------
  // The save planner

  /** The initials overlay `o` mapped onto pages 0 .. k-1, in page order. */
  function InitialsAcross(o: Overlay, pages: seq<PageGeom>, k: nat, image: string): (r: seq<Placement>)
    requires o.page < |pages| && Renders(pages[o.page]) && k <= |pages|
    ensures |r| == k
    ensures forall i :: 0 <= i < k ==> r[i] == Placement(i, MapRectToPage(o, pages[o.page], pages[i]), image)
  {
    if k == 0 then []
    else InitialsAcross(o, pages, k - 1, image) + [Placement(k - 1, MapRectToPage(o, pages[o.page], pages[k - 1]), image)]
  }

  /** The initials loop `for i in range(len(doc))`: with no pages nothing is
      stamped; otherwise the source page must exist (loading it raises, which
      is None here) and the overlay lands on every page. */
  function InitialsEverywhere(o: Overlay, pages: seq<PageGeom>, image: string): (r: Option<seq<Placement>>)
    requires AllRender(pages)
    ensures r.None? <==> |pages| > 0 && o.page >= |pages|
    ensures r.Some? ==> |r.value| == |pages|
  {
    if |pages| == 0 then Some([])
    else if o.page >= |pages| then None
    else Some(InitialsAcross(o, pages, |pages|, image))
  }

  /** Each overlay of `rs` stamped once, on its own page, in list order; None
      as soon as one of them names a page the document does not have. */
  function OwnPages(rs: seq<Overlay>, pages: seq<PageGeom>, image: string): (r: Option<seq<Placement>>)
    requires AllRender(pages)
    ensures r.Some? <==> forall k :: 0 <= k < |rs| ==> rs[k].page < |pages|
    ensures r.Some? ==> |r.value| == |rs|
    ensures r.Some? ==> forall k :: 0 <= k < |rs| ==>
      r.value[k] == Placement(rs[k].page, MapRectToPage(rs[k], pages[rs[k].page], pages[rs[k].page]), image)
  {
    if rs == [] then Some([])
    else if rs[0].page >= |pages| then None
    else
      var head := Placement(rs[0].page, MapRectToPage(rs[0], pages[rs[0].page], pages[rs[0].page]), image);
      match OwnPages(rs[1..], pages, image)
      case None => None
      case Some(tail) => Some([head] + tail)
  }

  /** Whether the initials are stamped at all: the path is set, an initials
      overlay exists and the file is on disk. */
  predicate InitialsActive(rects: seq<Overlay>, initialsPath: Option<string>, initialsOnDisk: bool) {
    Truthy(initialsPath) && Tagged(rects, Initials) != [] && initialsOnDisk
  }

  /** The initials part of a save: the first initials overlay on every page. */
  function InitialsPart(rects: seq<Overlay>, initialsPath: Option<string>, initialsOnDisk: bool,
                        pages: seq<PageGeom>): (r: Option<seq<Placement>>)
    requires AllRender(pages)
    ensures r.Some? ==> |r.value| == (if InitialsActive(rects, initialsPath, initialsOnDisk) then |pages| else 0)
  {
    if InitialsActive(rects, initialsPath, initialsOnDisk)
    then InitialsEverywhere(Tagged(rects, Initials)[0], pages, initialsPath.value)
    else Some([])
  }

  /** The part of a save for tag `t` (signature or other): each of its
      overlays on its own page, when the tag's path is set and on disk. */
  function OwnPart(rects: seq<Overlay>, t: Tag, path: Option<string>, onDisk: bool,
                   pages: seq<PageGeom>): (r: Option<seq<Placement>>)
    requires AllRender(pages)
    ensures r.Some? ==> |r.value| == (if Truthy(path) && onDisk then |Tagged(rects, t)| else 0)
  {
    if Truthy(path) && onDisk then OwnPages(Tagged(rects, t), pages, path.value) else Some([])
  }

  /** The placements of one save, in the order the source issues them:
      initials on every page (from the first initials overlay only), then each
      signature overlay on its page, then each other overlay on its page. A
      tag's overlays are used only when its path is set and the file exists.
      None stands for the exception raised when an overlay's page is not in
      the document. */
  function SavePlan(rects: seq<Overlay>,
                    initialsPath: Option<string>, signaturePath: Option<string>, otherPath: Option<string>,
                    initialsOnDisk: bool, signatureOnDisk: bool, otherOnDisk: bool,
                    pages: seq<PageGeom>): Option<seq<Placement>>
    requires AllRender(pages)
  {
    var initials := InitialsPart(rects, initialsPath, initialsOnDisk, pages);
    var signatures := OwnPart(rects, Signature, signaturePath, signatureOnDisk, pages);
    var others := OwnPart(rects, Other, otherPath, otherOnDisk, pages);
    if initials.Some? && signatures.Some? && others.Some?
    then Some(initials.value + signatures.value + others.value)
    else None
  }

  /** A successful save is its three parts, each successful, one after the other. */
  lemma SavePlanParts(rects: seq<Overlay>,
                      initialsPath: Option<string>, signaturePath: Option<string>, otherPath: Option<string>,
                      initialsOnDisk: bool, signatureOnDisk: bool, otherOnDisk: bool,
                      pages: seq<PageGeom>)
    requires AllRender(pages)
    requires SavePlan(rects, initialsPath, signaturePath, otherPath, initialsOnDisk, signatureOnDisk, otherOnDisk, pages).Some?
    ensures InitialsPart(rects, initialsPath, initialsOnDisk, pages).Some?
    ensures OwnPart(rects, Signature, signaturePath, signatureOnDisk, pages).Some?
    ensures OwnPart(rects, Other, otherPath, otherOnDisk, pages).Some?
    ensures SavePlan(rects, initialsPath, signaturePath, otherPath, initialsOnDisk, signatureOnDisk, otherOnDisk, pages).value
         == InitialsPart(rects, initialsPath, initialsOnDisk, pages).value
          + OwnPart(rects, Signature, signaturePath, signatureOnDisk, pages).value
          + OwnPart(rects, Other, otherPath, otherOnDisk, pages).value
  {
  }

  /** A successful save has one placement per page for the initials (when
      they are stamped) and one per signature or other overlay (when their
      path is set and on disk), and no more. */
  lemma SavePlanLength(rects: seq<Overlay>,
                       initialsPath: Option<string>, signaturePath: Option<string>, otherPath: Option<string>,
                       initialsOnDisk: bool, signatureOnDisk: bool, otherOnDisk: bool,
                       pages: seq<PageGeom>)
    requires AllRender(pages)
    requires SavePlan(rects, initialsPath, signaturePath, otherPath, initialsOnDisk, signatureOnDisk, otherOnDisk, pages).Some?
    ensures |SavePlan(rects, initialsPath, signaturePath, otherPath, initialsOnDisk, signatureOnDisk, otherOnDisk, pages).value|
         == (if InitialsActive(rects, initialsPath, initialsOnDisk) then |pages| else 0)
          + (if Truthy(signaturePath) && signatureOnDisk then |Tagged(rects, Signature)| else 0)
          + (if Truthy(otherPath) && otherOnDisk then |Tagged(rects, Other)| else 0)
  {
  }

  /** The save begins with the first initials overlay mapped onto pages
      0 .. n-1, in page order. */
  lemma SavePlanInitialsFirst(rects: seq<Overlay>,
                              initialsPath: Option<string>, signaturePath: Option<string>, otherPath: Option<string>,
                              initialsOnDisk: bool, signatureOnDisk: bool, otherOnDisk: bool,
                              pages: seq<PageGeom>, i: nat)
    requires AllRender(pages)
    requires SavePlan(rects, initialsPath, signaturePath, otherPath, initialsOnDisk, signatureOnDisk, otherOnDisk, pages).Some?
    requires InitialsActive(rects, initialsPath, initialsOnDisk) && i < |pages|
    ensures var plan := SavePlan(rects, initialsPath, signaturePath, otherPath, initialsOnDisk, signatureOnDisk, otherOnDisk, pages).value;
      var first := Tagged(rects, Initials)[0];
      first.page < |pages| && i < |plan| &&
      plan[i] == Placement(i, MapRectToPage(first, pages[first.page], pages[i]), initialsPath.value)
  {
    SavePlanParts(rects, initialsPath, signaturePath, otherPath, initialsOnDisk, signatureOnDisk, otherOnDisk, pages);
    var ini := InitialsPart(rects, initialsPath, initialsOnDisk, pages).value;
    var sig := OwnPart(rects, Signature, signaturePath, signatureOnDisk, pages).value;
    var oth := OwnPart(rects, Other, otherPath, otherOnDisk, pages).value;
    assert (ini + sig + oth)[i] == ini[i];
  }

  /** The k-th placement of a stamped tag's part is its k-th overlay on its own page. */
  lemma OwnPartAt(rects: seq<Overlay>, t: Tag, path: Option<string>, onDisk: bool,
                  pages: seq<PageGeom>, k: nat)
    requires AllRender(pages)
    requires OwnPart(rects, t, path, onDisk, pages).Some?
    requires Truthy(path) && onDisk && k < |Tagged(rects, t)|
    ensures var o := Tagged(rects, t)[k];
      o.page < |pages| && k < |OwnPart(rects, t, path, onDisk, pages).value| &&
      OwnPart(rects, t, path, onDisk, pages).value[k] == Placement(o.page, MapRectToPage(o, pages[o.page], pages[o.page]), path.value)
  {
    assert OwnPart(rects, t, path, onDisk, pages) == OwnPages(Tagged(rects, t), pages, path.value);
  }

  /** Indexing into the middle and the last of three concatenated parts. */
  lemma ConcatAt(a: seq<Placement>, b: seq<Placement>, c: seq<Placement>, k: nat)
    ensures k < |b| ==> (a + b + c)[|a| + k] == b[k]
    ensures k < |c| ==> (a + b + c)[|a| + |b| + k] == c[k]
  {
  }

  /** After the initials come the signature overlays, each once, on its own page. */
  lemma SavePlanSignaturesNext(rects: seq<Overlay>,
                               initialsPath: Option<string>, signaturePath: Option<string>, otherPath: Option<string>,
                               initialsOnDisk: bool, signatureOnDisk: bool, otherOnDisk: bool,
                               pages: seq<PageGeom>, k: nat)
    requires AllRender(pages)
    requires SavePlan(rects, initialsPath, signaturePath, otherPath, initialsOnDisk, signatureOnDisk, otherOnDisk, pages).Some?
    requires Truthy(signaturePath) && signatureOnDisk && k < |Tagged(rects, Signature)|
    ensures var plan := SavePlan(rects, initialsPath, signaturePath, otherPath, initialsOnDisk, signatureOnDisk, otherOnDisk, pages).value;
      var nI := if InitialsActive(rects, initialsPath, initialsOnDisk) then |pages| else 0;
      var o := Tagged(rects, Signature)[k];
      o.page < |pages| && nI + k < |plan| &&
      plan[nI + k] == Placement(o.page, MapRectToPage(o, pages[o.page], pages[o.page]), signaturePath.value)
  {
    SavePlanParts(rects, initialsPath, signaturePath, otherPath, initialsOnDisk, signatureOnDisk, otherOnDisk, pages);
    var ini := InitialsPart(rects, initialsPath, initialsOnDisk, pages).value;
    var sig := OwnPart(rects, Signature, signaturePath, signatureOnDisk, pages).value;
    var oth := OwnPart(rects, Other, otherPath, otherOnDisk, pages).value;
    assert |ini| == if InitialsActive(rects, initialsPath, initialsOnDisk) then |pages| else 0;
    OwnPartAt(rects, Signature, signaturePath, signatureOnDisk, pages, k);
    ConcatAt(ini, sig, oth, k);
  }

  /** Last come the other overlays, each once, on its own page. */
  lemma SavePlanOthersLast(rects: seq<Overlay>,
                           initialsPath: Option<string>, signaturePath: Option<string>, otherPath: Option<string>,
                           initialsOnDisk: bool, signatureOnDisk: bool, otherOnDisk: bool,
                           pages: seq<PageGeom>, k: nat)
    requires AllRender(pages)
    requires SavePlan(rects, initialsPath, signaturePath, otherPath, initialsOnDisk, signatureOnDisk, otherOnDisk, pages).Some?
    requires Truthy(otherPath) && otherOnDisk && k < |Tagged(rects, Other)|
    ensures var plan := SavePlan(rects, initialsPath, signaturePath, otherPath, initialsOnDisk, signatureOnDisk, otherOnDisk, pages).value;
      var nI := if InitialsActive(rects, initialsPath, initialsOnDisk) then |pages| else 0;
      var nS := if Truthy(signaturePath) && signatureOnDisk then |Tagged(rects, Signature)| else 0;
      var o := Tagged(rects, Other)[k];
      o.page < |pages| && nI + nS + k < |plan| &&
      plan[nI + nS + k] == Placement(o.page, MapRectToPage(o, pages[o.page], pages[o.page]), otherPath.value)
  {
    SavePlanParts(rects, initialsPath, signaturePath, otherPath, initialsOnDisk, signatureOnDisk, otherOnDisk, pages);
    var ini := InitialsPart(rects, initialsPath, initialsOnDisk, pages).value;
    var sig := OwnPart(rects, Signature, signaturePath, signatureOnDisk, pages).value;
    var oth := OwnPart(rects, Other, otherPath, otherOnDisk, pages).value;
    OwnPartAt(rects, Other, otherPath, otherOnDisk, pages, k);
    ConcatAt(ini, sig, oth, k);
  }

  /** Whether some overlay of tag `t` that would be stamped names a page the
      document does not have. */
  predicate StalePage(rects: seq<Overlay>, t: Tag, pages: seq<PageGeom>) {
    exists k :: 0 <= k < |Tagged(rects, t)| && Tagged(rects, t)[k].page >= |pages|
  }

  /** A save fails exactly when an overlay that would be stamped names a page
      the document does not have. */
  lemma SavePlanFails(rects: seq<Overlay>,
                      initialsPath: Option<string>, signaturePath: Option<string>, otherPath: Option<string>,
                      initialsOnDisk: bool, signatureOnDisk: bool, otherOnDisk: bool,
                      pages: seq<PageGeom>)
    requires AllRender(pages)
    ensures SavePlan(rects, initialsPath, signaturePath, otherPath, initialsOnDisk, signatureOnDisk, otherOnDisk, pages).None? <==>
      (InitialsActive(rects, initialsPath, initialsOnDisk) && |pages| > 0 && Tagged(rects, Initials)[0].page >= |pages|) ||
      (Truthy(signaturePath) && signatureOnDisk && StalePage(rects, Signature, pages)) ||
      (Truthy(otherPath) && otherOnDisk && StalePage(rects, Other, pages))
  {
  }

  /** Only the first initials overlay is used: adding another one later
      changes nothing about the save. */
  lemma LaterInitialsIgnored(rects: seq<Overlay>, extra: Overlay,
                             initialsPath: Option<string>, signaturePath: Option<string>, otherPath: Option<string>,
                             initialsOnDisk: bool, signatureOnDisk: bool, otherOnDisk: bool,
                             pages: seq<PageGeom>)
    requires AllRender(pages) && Tagged(rects, Initials) != [] && extra.tag == Initials
    ensures SavePlan(rects + [extra], initialsPath, signaturePath, otherPath, initialsOnDisk, signatureOnDisk, otherOnDisk, pages)
         == SavePlan(rects, initialsPath, signaturePath, otherPath, initialsOnDisk, signatureOnDisk, otherOnDisk, pages)
  {
    TaggedAppend(rects, [extra], Initials);
    TaggedAppend(rects, [extra], Signature);
    TaggedAppend(rects, [extra], Other);
    assert Tagged([extra], Signature) == [] && Tagged([extra], Other) == [];
    assert Tagged(rects + [extra], Signature) == Tagged(rects, Signature);
    assert Tagged(rects + [extra], Other) == Tagged(rects, Other);
    assert Tagged(rects + [extra], Initials)[0] == Tagged(rects, Initials)[0];
    assert InitialsActive(rects + [extra], initialsPath, initialsOnDisk) == InitialsActive(rects, initialsPath, initialsOnDisk);
    assert InitialsPart(rects + [extra], initialsPath, initialsOnDisk, pages) == InitialsPart(rects, initialsPath, initialsOnDisk, pages);
    assert OwnPart(rects + [extra], Signature, signaturePath, signatureOnDisk, pages) == OwnPart(rects, Signature, signaturePath, signatureOnDisk, pages);
    assert OwnPart(rects + [extra], Other, otherPath, otherOnDisk, pages) == OwnPart(rects, Other, otherPath, otherOnDisk, pages);
  }
}
