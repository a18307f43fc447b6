/** The batch stamper: initials at the bottom-right corner of every page, an
    optional signature at an explicit page and point, and the command line's
    resolution of files, `--fullsig`, `--onpage` and exit codes. The PDF
    itself is reduced to its page sizes and each `insert_image` call to a
    Placement. */
module StampPdf {
  import opened Common
  import opened Text

  /** `page.rect` of one page, in points. */
  datatype PageSize = PageSize(width: real, height: real)

  /** `fitz.Pixmap(path)` of an image file, in pixels. */
  datatype ImageSize = ImageSize(width: nat, height: nat)

  /** `pix.height / pix.width`. */
  function AspectRatio(img: ImageSize): (ratio: real)
    requires img.width > 0
    ensures ratio * img.width as real == img.height as real
  {
    img.height as real / img.width as real
  }

  /** The rectangle `add_initials` gives one page: `widthPts` wide, as high as
      the image's aspect ratio makes it, with its right and bottom edges
      `marginPts` inside the page's right and bottom edges. */
  function InitialsRect(page: PageSize, widthPts: real, marginPts: real, img: ImageSize): (r: Rect)
    requires img.width > 0
    ensures r.x1 == page.width - marginPts && r.y1 == page.height - marginPts
    ensures r.Width() == widthPts
    ensures r.Height() * img.width as real == widthPts * img.height as real
  {
    var h := widthPts * AspectRatio(img);
    var x := page.width - widthPts - marginPts;
    var y := page.height - h - marginPts;
    Rect(x, y, x + widthPts, y + h)
  }

  /** A 72-point square image with a 12-point margin on a US Letter page
      (612 x 792 points) lands at (528, 708)-(600, 780). */
  lemma InitialsLetterExample()
    ensures InitialsRect(PageSize(612.0, 792.0), 72.0, 12.0, ImageSize(300, 300)) == Rect(528.0, 708.0, 600.0, 780.0)
  {
    assert AspectRatio(ImageSize(300, 300)) == 1.0;
  }

  /** `add_initials(doc, path, width_pts, margin_pts)`: one placement per
      page, in page order, each placed by that page's own size. */
  method AddInitials(pages: seq<PageSize>, initialsPath: string, widthPts: real, marginPts: real, img: ImageSize)
    returns (placed: seq<Placement>)
    requires img.width > 0
    ensures |placed| == |pages|
    ensures forall i :: 0 <= i < |pages| ==>
      placed[i] == Placement(i, InitialsRect(pages[i], widthPts, marginPts, img), initialsPath)
  {
    var ratio := AspectRatio(img);
    var w := widthPts;
    var h := w * ratio;
    placed := [];
    for i := 0 to |pages|
      invariant |placed| == i
      invariant forall j :: 0 <= j < i ==>
        placed[j] == Placement(j, InitialsRect(pages[j], widthPts, marginPts, img), initialsPath)
    {
      var x := pages[i].width - w - marginPts;
      var y := pages[i].height - h - marginPts;
      placed := placed + [Placement(i, Rect(x, y, x + w, y + h), initialsPath)];
    }
  }

  /** The signature's rectangle: top-left corner (x, y), `widthPts` wide, as
      high as the image's aspect ratio makes it. */
  function SignatureRect(x: real, y: real, widthPts: real, img: ImageSize): (r: Rect)
    requires img.width > 0
    ensures r.x0 == x && r.y0 == y && r.Width() == widthPts
    ensures r.Height() * img.width as real == widthPts * img.height as real
  {
    var h := widthPts * AspectRatio(img);
    Rect(x, y, x + widthPts, y + h)
  }

  /** The page `doc.load_page(n)` opens in a document of `pageCount` pages.
      PyMuPDF (not part of this model) counts a negative number from the end
      and raises for a number at or past the page count; a document without
      pages has no page to open. */
  function LoadedPage(n: int, pageCount: nat): (p: Option<nat>)
    ensures p.Some? ==> p.value < pageCount
    ensures 0 <= n < pageCount ==> p == Some(n)
    ensures n >= pageCount || pageCount == 0 ==> p == None
    ensures -(pageCount as int) <= n < 0 ==> p == Some(n + pageCount)
  {
    if n >= pageCount || pageCount == 0 then None else Some(FromEnd(n, pageCount))
  }

  /** PyMuPDF's `while page_id < 0: page_id += page_count`. */
  function FromEnd(n: int, pageCount: nat): (m: nat)
    requires pageCount > 0 && n < pageCount
    ensures m < pageCount
    ensures n >= 0 ==> m == n
    decreases if n < 0 then -n else 0
  {
    if n >= 0 then n else FromEnd(n + pageCount, pageCount)
  }

  /** What `add_signature` does to the document. */
  datatype SignatureStamp =
    | NotStamped                 // page, x or y missing: nothing happens
    | Stamped(placement: Placement)
    | PageMissing                // load_page raised

  /** `add_signature(doc, path, page_num, x, y, width_pts)`. */
  function AddSignature(pageCount: nat, signaturePath: string, pageNum: Option<int>,
                        x: Option<real>, y: Option<real>, widthPts: real, img: ImageSize): (s: SignatureStamp)
    requires img.width > 0
    ensures s == NotStamped <==> pageNum.None? || x.None? || y.None?
    ensures s == PageMissing <==> pageNum.Some? && x.Some? && y.Some? && LoadedPage(pageNum.value, pageCount).None?
    ensures s.Stamped? ==>
      s.placement.page < pageCount &&
      s.placement.page == LoadedPage(pageNum.value, pageCount).value &&
      s.placement.image == signaturePath &&
      s.placement.rect.x0 == x.value && s.placement.rect.y0 == y.value &&
      s.placement.rect.Width() == widthPts &&
      s.placement.rect.Height() * img.width as real == widthPts * img.height as real
  {
    if pageNum.None? || x.None? || y.None? then NotStamped
    else match LoadedPage(pageNum.value, pageCount)
      case None => PageMissing
      case Some(p) => Stamped(Placement(p, SignatureRect(x.value, y.value, widthPts, img), signaturePath))
  }

  /** The parsed command line. Optional flags are None when absent; argparse
      fills `initialsWidth`, `initialsMargin` and `signatureWidth` with 72, 12
      and 180 points when they are not given. */
  datatype Args = Args(inputPdf: string, outputPdf: string, initials: string,
                       signature: Option<string>, sigPage: Option<int>,
                       sigX: Option<real>, sigY: Option<real>,
                       initialsWidth: real, initialsMargin: real, signatureWidth: real,
                       fullsig: Option<string>, onpage: Option<int>)

  /** How the batch stamper ends. */
  datatype Outcome =
    | Exit(code: int)                                    // sys.exit(code), nothing written
    | Raised                                             // an uncaught exception, nothing written
    | Saved(output: string, placements: seq<Placement>)  // doc.save(output) after these insertions

  /** The files the command needs and does not find: the input PDF or the
      initials image, or the signature image when one is given. */
  predicate FilesMissing(a: Args, files: set<string>) {
    a.inputPdf !in files || a.initials !in files ||
    (Truthy(a.signature) && a.signature.value !in files)
  }

  /** `--fullsig XxY`: lower-cased and split at "x", it must give exactly two
      pieces that `float()` accepts; `floats` is the part of `float()` the run
      needs, the strings it accepts with their values. */
  function ParseFullsig(s: string, floats: map<string, real>): (r: Option<(real, real)>)
    ensures r.Some? ==> Count(s, 'x') + Count(s, 'X') == 1
    ensures r.Some? ==> exists p, q :: p in floats && q in floats && r.value == (floats[p], floats[q]) &&
                                       Join([p, q], 'x') == Lower(s)
  {
    var parts := Split(Lower(s), 'x');
    if |parts| == 2 && parts[0] in floats && parts[1] in floats then
      LowerCountX(s);
      JoinSplit(Lower(s), 'x');
      assert Join(parts, 'x') == Join([parts[0], parts[1]], 'x');
      Some((floats[parts[0]], floats[parts[1]]))
    else None
  }

  /** The example of the usage message, "548x300", reads as (548, 300). */
  lemma FullsigExample(floats: map<string, real>)
    requires "548" in floats && floats["548"] == 548.0
    requires "300" in floats && floats["300"] == 300.0
    ensures ParseFullsig("548x300", floats) == Some((548.0, 300.0))
  {
    assert Lower("548x300") == "548x300";
    SplitAtOne("548", "300", 'x');
    assert "548" + ['x'] + "300" == "548x300";
  }

  /** The converse of ParseFullsig's contract: two numeric pieces without an
      'x' or 'X' of their own, joined by "x", are accepted with their values. */
  lemma FullsigAccepted(p: string, q: string, floats: map<string, real>)
    requires 'x' !in p && 'X' !in p && 'x' !in q && 'X' !in q
    requires Lower(p) in floats && Lower(q) in floats
    ensures ParseFullsig(p + "x" + q, floats) == Some((floats[Lower(p)], floats[Lower(q)]))
  {
    LowerAppend(p + "x", q);
    LowerAppend(p, "x");
    assert Lower("x") == "x";
    assert 'x' !in Lower(p) && 'x' !in Lower(q);
    SplitAtOne(Lower(p), Lower(q), 'x');
  }

  /** The signature page after the flags are resolved: `--onpage N` (1-based)
      wins over `--sig-page`; with neither, a given signature goes on the
      last page. */
  function SignaturePage(a: Args, pageCount: nat): (p: Option<int>)
    ensures a.onpage.Some? ==> p == Some(a.onpage.value - 1)
    ensures a.onpage.None? && a.sigPage.Some? ==> p == a.sigPage
    ensures a.onpage.None? && a.sigPage.None? && Truthy(a.signature) ==> p == Some(pageCount - 1)
    ensures a.onpage.None? && a.sigPage.None? && !Truthy(a.signature) ==> p == None
  {
    if a.onpage.Some? then Some(a.onpage.value - 1)
    else if a.sigPage.None? && Truthy(a.signature) then Some(pageCount - 1)
    else a.sigPage
  }

  /** The signature point after `--fullsig` has overridden `--sig-x` and
      `--sig-y`. A rejected `--fullsig` never gets here (the command exits
      with 2), so that case keeps the flags as they are. */
  function SignaturePoint(a: Args, floats: map<string, real>): (pt: (Option<real>, Option<real>))
    ensures !Truthy(a.fullsig) ==> pt == (a.sigX, a.sigY)
    ensures Truthy(a.fullsig) && ParseFullsig(a.fullsig.value, floats).Some? ==>
      pt.0.Some? && pt.1.Some? && (pt.0.value, pt.1.value) == ParseFullsig(a.fullsig.value, floats).value
  {
    if Truthy(a.fullsig) then
      match ParseFullsig(a.fullsig.value, floats)
      case Some((x, y)) => (Some(x), Some(y))
      case None => (a.sigX, a.sigY)
    else (a.sigX, a.sigY)
  }

  /** A well-formed `--fullsig PxQ` replaces both `--sig-x` and `--sig-y`,
      whatever they were, by the values of P and Q. */
  lemma FullsigOverridesPoint(a: Args, p: string, q: string, floats: map<string, real>)
    requires a.fullsig == Some(p + "x" + q)
    requires 'x' !in p && 'X' !in p && 'x' !in q && 'X' !in q
    requires Lower(p) in floats && Lower(q) in floats
    ensures SignaturePoint(a, floats) == (Some(floats[Lower(p)]), Some(floats[Lower(q)]))
  {
    FullsigAccepted(p, q, floats);
  }

  /** `main()` after argparse: `files` is the set of paths `os.path.isfile`
      accepts, `pages` the input PDF's pages, and the two image sizes those of
      the initials and signature images. */
  method StampCommand(args: Args, files: set<string>, floats: map<string, real>,
                      pages: seq<PageSize>, initialsImg: ImageSize, signatureImg: ImageSize)
    returns (outcome: Outcome)
    requires initialsImg.width > 0 && signatureImg.width > 0
    ensures outcome == Exit(1) <==> FilesMissing(args, files)
    ensures outcome == Exit(2) <==>
      !FilesMissing(args, files) && Truthy(args.fullsig) && ParseFullsig(args.fullsig.value, floats).None?
    ensures outcome.Exit? ==> outcome.code == 1 || outcome.code == 2
    ensures outcome.Saved? ==> outcome.output == args.outputPdf
    ensures outcome.Saved? ==> |pages| <= |outcome.placements| <= |pages| + 1
    ensures outcome.Saved? ==> forall i :: 0 <= i < |pages| ==>
      outcome.placements[i] == Placement(i, InitialsRect(pages[i], args.initialsWidth, args.initialsMargin, initialsImg), args.initials)
    ensures !outcome.Exit? ==>
      var (x, y) := SignaturePoint(args, floats);
      var sig := if Truthy(args.signature)
                 then AddSignature(|pages|, args.signature.value, SignaturePage(args, |pages|), x, y, args.signatureWidth, signatureImg)
                 else NotStamped;
      (outcome == Raised <==> sig == PageMissing) &&
      (outcome.Saved? ==> outcome.placements[|pages|..] == if sig.Stamped? then [sig.placement] else [])
  {
    if args.inputPdf !in files || args.initials !in files {
      return Exit(1);
    }
    if Truthy(args.signature) && args.signature.value !in files {
      return Exit(1);
    }
    var placed := AddInitials(pages, args.initials, args.initialsWidth, args.initialsMargin, initialsImg);
    var a := args;
    if Truthy(a.fullsig) {
      var parts := Split(Lower(a.fullsig.value), 'x');
      if |parts| != 2 || parts[0] !in floats {
        return Exit(2);
      }
      a := a.(sigX := Some(floats[parts[0]]));
      if parts[1] !in floats {
        return Exit(2);
      }
      a := a.(sigY := Some(floats[parts[1]]));
    }
    if a.onpage.Some? {
      a := a.(sigPage := Some(a.onpage.value - 1));
    }
    if Truthy(a.signature) && a.sigPage.None? {
      a := a.(sigPage := Some(|pages| - 1));
    }
    if Truthy(a.signature) {
      var stamp := AddSignature(|pages|, a.signature.value, a.sigPage, a.sigX, a.sigY, a.signatureWidth, signatureImg);
      match stamp {
        case PageMissing => return Raised;
        case NotStamped =>
        case Stamped(p) => placed := placed + [p];
      }
    }
    outcome := Saved(a.outputPdf, placed);
  }
}
