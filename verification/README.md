# PDF stamper: a Dafny model

The PDF stamper puts signature, initials and other stamp images onto a PDF and
writes a stamped copy. It has two entry points:

- **The interactive placer** (`stamp_gui.py`). It shows one page at a time.
  The user drops rectangles tagged `initials`, `signature` or `other` onto the
  page and drags them into place. On save, each rectangle is re-projected from
  the page's pixmap (pixels) onto a target page (points). Initials go on every
  page. A signature or other stamp goes only on the page it was created on.
- **The batch stamper** (`stamp_pdf.py`). It puts the initials image in the
  bottom-right corner of every page. It can also put one signature image at
  an explicit page and point. Its command line resolves `--onpage`,
  `--sig-page` and `--fullsig`. It calls `sys.exit(1)` when a file is missing
  and `sys.exit(2)` for a malformed `--fullsig`; an uncaught exception, such
  as a signature page that does not load, also ends it with status 1.

The model has six modules:

- `Common`: optional values, Python's truth test of an optional path, and
  `fitz.Rect` rectangles. A `Placement` stands for one `insert_image` call
  (page, rectangle, image file).
- `Text`: `str.lower()` and `str.split(sep)`, with `Join` as the inverse of
  `Split`.
- `Overlays`: the rectangle records (`DragRect`), the tag filter, removal by
  tag and the visibility rule.
- `GuiSave`: `map_rect_to_page` and the save planner, as pure functions.
- `StampGui`: the classes `PdfViewer` (page navigation and the overlay list)
  and `MainWindow` (image paths, removal by tag, save). Their methods change
  fields in place, like the Python objects.
- `StampPdf`: the batch stamper's geometry and the `main` flow, as a method
  that resolves the arguments step by step.

All coordinates are Dafny `real`s, so every equation holds exactly. The
Python uses floats, where the same equations hold only up to rounding. The
document, images, file system and `float()` enter the model as parameters:
page sizes and pixmap sizes, image sizes, a set of existing paths, and a map
from the strings `float()` accepts with a finite value to that value.

For a 72-point square image with a 12-point margin on a 612 x 792 page, the
initials land at (528, 708)-(600, 780): the bottom edge is 12 points above
the page's bottom edge (`StampPdf.InitialsLetterExample`).

## Model

| member | source | states |
|---|---|---|
| `StampGui.PdfViewer.constructor` | stamp_gui.py:67-75 | A new viewer has no document, no path, page index 0, no rendered page and no overlays |
| `StampGui.PdfViewer.PageCount` | stamp_gui.py:80-81 | The page count is 0 without a document; whenever it is positive, the current page index is below it |
| `StampGui.PdfViewer.ShowPage` | stamp_gui.py:102-129 | Without a document, or for an index outside [0, page count), nothing changes. Otherwise the index becomes current, a page is rendered, and each overlay's visibility follows the rule: a signature is shown iff it was created on this page, every other tag is shown. No other field of an overlay changes, and the list keeps its order and length |
| `StampGui.PdfViewer.GoFirst` | stamp_gui.py:83-84 | With a document, shows page 0; without one, nothing changes |
| `StampGui.PdfViewer.GoLast` | stamp_gui.py:86-87 | With a document, shows page n-1; without one, nothing changes |
| `StampGui.PdfViewer.NextPage` | stamp_gui.py:89-91 | Moves exactly one page forward; on the last page, or without a document, nothing changes |
| `StampGui.PdfViewer.PrevPage` | stamp_gui.py:93-95 | Moves exactly one page back; on page 0, or without a document, nothing changes |
| `StampGui.PdfViewer.LoadPdf` | stamp_gui.py:97-100 | Stores the path and page count, then shows page 0 when the document has pages. Overlays already placed are kept |
| `StampGui.PdfViewer.AddDragRect` | stamp_gui.py:131-140 | With no rendered page, returns None and the list is unchanged. Otherwise appends exactly one overlay: local (20, 20), size w x h, the given tag, the current page index, not dragged, shown. Earlier overlays are unchanged |
| `StampGui.PdfViewer.RemoveRectsByTag` | stamp_gui.py:142-152 | The overlay list becomes `Without(old list, tag)`; navigation state is unchanged |
| `Overlays.RemoveAllTagged` | stamp_gui.py:143-150 | Collecting the tagged overlays and `list.remove`-ing each in turn leaves exactly the list without that tag |
| `Overlays.RemoveFirstTagged` | stamp_gui.py:147-148 | One `list.remove` of the first tagged overlay removes only that overlay: the other tagged overlays remain in order, and the overlays of other tags are untouched |
| `Overlays.RemoveFirst` | stamp_gui.py:147-150 | `list.remove(x)` shortens a list that holds x by one, and leaves a list without x as it is (the ValueError is swallowed) |
| `Overlays.Tagged` | stamp_gui.py:143 | The overlays kept by `[r for r in rects if r.tag == t]` all carry tag t, and there are no more of them than overlays |
| `Overlays.Without` | stamp_gui.py:142-150 | After removal by tag t, no overlay with tag t is left |
| `Overlays.TaggedWithoutPartition` | stamp_gui.py:142-150 | Removal loses no other overlay: removed plus kept is the whole list |
| `Overlays.WithoutIsSubsequence` | stamp_gui.py:142-150 | The kept overlays appear in their original relative order |
| `Overlays.WithoutKeepsOtherTags` | stamp_gui.py:142-150 | For every other tag u, the overlays tagged u are exactly those before, in the same order |
| `Overlays.WithoutNoTagged` | stamp_gui.py:142-150 | Removing a tag that no overlay carries changes nothing |
| `Overlays.TaggedAppend` | stamp_gui.py:136 | The tag filter of an appended list is the filter of the old list followed by the filter of the new items |
| `Overlays.Restyle` | stamp_gui.py:123-129 | The visibility loop: every overlay is visible iff it is not a signature or it belongs to the current page, and nothing else about any overlay changes |
| `StampGui.MainWindow.constructor` | stamp_gui.py:157-167 | A new window has its own fresh viewer and no initials, signature or other-stamp path |
| `StampGui.DefaultBox` | stamp_gui.py:227-243 | The size of a new overlay per tag: 72 x 48 for initials (line 227), 180 x 60 for a signature (line 235), 120 x 120 for other (line 243); every size is positive, and `StampGui.MainWindow.ChooseStamp` gives the new overlay exactly this size |
| `StampGui.MainWindow.ChooseStamp` | stamp_gui.py:218-244 | A cancelled dialog or a non-file changes nothing. Otherwise the tag's path is set and no other path changes. If a page is rendered, one overlay is added with the tag's size (72 x 48 initials, 180 x 60 signature, 120 x 120 other) on the current page. The viewer's document, page, path and rendered page stay as they were |
| `StampGui.MainWindow.ActivateBox` | stamp_gui.py:246-270 | A usable dialog answer replaces only the double-clicked tag's path; otherwise nothing changes |
| `StampGui.MainWindow.RemoveTag` | stamp_gui.py:272-280 | The tag's path becomes None and the other paths are kept; the viewer's overlays become the list without that tag, and its document, page, path and rendered page stay as they were |
| `StampGui.MainWindow.SaveStampedPdf` | stamp_gui.py:283-333 | It is a no-op iff there is no document, no PDF path, or the save dialog returns "". Otherwise it saves to the chosen path with exactly the placements of `SavePlan`, or aborts when that plan hits a page the document lacks |
| `GuiSave.NormalizeScales` | stamp_gui.py:299-303 | Each normalised coordinate is the scene coordinate divided by the source pixmap's width or height |
| `GuiSave.Normalize` | stamp_gui.py:299-303 | The scene box as fractions of the source pixmap's width and height; its contract is carried by `GuiSave.NormalizeScales` (each fraction times the pixmap size is the scene value) and `GuiSave.NormalizeInUnit` (a box inside the pixmap gives fractions in [0, 1]) |
| `GuiSave.MapScales` | stamp_gui.py:292-310 | Every mapped coordinate is the same fraction of the target page's width or height as the scene coordinate is of the source pixmap's, with x1 = x0 + w_pts and y1 = y0 + h_pts; the target pixmap takes no part |
| `GuiSave.MapRectToPage` | stamp_gui.py:292-310 | `map_rect_to_page` itself; its contract is carried by `GuiSave.MapScales` (closed form, target pixmap unused), `GuiSave.MapRoundTrip` (inverse `UnmapRect`), `GuiSave.MapIdentity` and `GuiSave.MapOrdered` |
| `GuiSave.MapRoundTrip` | stamp_gui.py:299-310 | Mapping onto a page of non-zero size and back to the source pixmap gives the scene rectangle again |
| `GuiSave.MapIdentity` | stamp_gui.py:299-310 | When the source pixmap's size equals the target page's size, the mapped rectangle is the scene rectangle itself |
| `GuiSave.MapOrdered` | stamp_gui.py:306-310 | A rectangle with w, h >= 0 lands with x0 <= x1 and y0 <= y1 |
| `GuiSave.NormalizeInUnit` | stamp_gui.py:299-303 | A scene rectangle inside the source pixmap has all its normalised values, and those of its far edges, in [0, 1] |
| `GuiSave.InitialsAcross` | stamp_gui.py:316-318 | The initials overlay lands on pages 0..k-1, one placement per page, in page order, each mapped onto that page's own size |
| `GuiSave.InitialsEverywhere` | stamp_gui.py:313-318 | With no pages nothing is stamped. The save fails iff the initials overlay's own page is not in the document. Otherwise there is one placement per page |
| `GuiSave.OwnPages` | stamp_gui.py:321-329 | Succeeds iff every overlay's page is in the document. Then each overlay is stamped exactly once, on its own page, in list order |
| `GuiSave.InitialsPart` | stamp_gui.py:313-318 | The initials part has one placement per page when the path is set, an initials overlay exists and the file exists; otherwise it is empty |
| `GuiSave.OwnPart` | stamp_gui.py:320-329 | The signature or other part has one placement per overlay of that tag when the path is set and the file exists; otherwise it is empty |
| `GuiSave.SavePlan` | stamp_gui.py:312-329 | The placements of one save in the order they are issued, or failure; its contract is carried by `GuiSave.SavePlanParts`, `GuiSave.SavePlanLength`, `GuiSave.SavePlanInitialsFirst`, `GuiSave.SavePlanSignaturesNext`, `GuiSave.SavePlanOthersLast`, `GuiSave.SavePlanFails` and `GuiSave.LaterInitialsIgnored` |
| `GuiSave.SavePlanParts` | stamp_gui.py:312-329 | A successful save is its initials part, then its signature part, then its other part, with nothing between |
| `GuiSave.SavePlanLength` | stamp_gui.py:312-329 | A successful save has exactly n placements for active initials, plus one per signature overlay, plus one per other overlay, each part counting only when its path is set and exists |
| `GuiSave.SavePlanInitialsFirst` | stamp_gui.py:312-318 | Placement i (i < n) is the first initials overlay mapped onto page i, with the initials image |
| `GuiSave.SavePlanSignaturesNext` | stamp_gui.py:320-324 | After the initials comes each signature overlay once, on its own page, in list order |
| `GuiSave.SavePlanOthersLast` | stamp_gui.py:326-329 | After the signatures comes each other overlay once, on its own page, in list order |
| `GuiSave.SavePlanFails` | stamp_gui.py:292-295 | The save raises iff an overlay that would be stamped names a page the re-opened document does not have |
| `GuiSave.LaterInitialsIgnored` | stamp_gui.py:313-314 | Only the first initials overlay counts: appending another one changes nothing about the save |
| `Text.Lower` | stamp_pdf.py:65 | Lower-casing keeps the length and turns exactly the 'x' and 'X' characters into 'x' |
| `Text.Split` | stamp_pdf.py:65 | `split("x")` gives one more piece than there are separators, and no piece contains the separator |
| `Text.JoinSplit` | stamp_pdf.py:65 | Joining the pieces of a split with the separator gives the text back |
| `Text.SplitAtOne` | stamp_pdf.py:65 | Text with exactly one separator splits into the two pieces around it |
| `Text.SplitNone` | stamp_pdf.py:65 | Text without the separator splits into one piece, itself |
| `Text.LowerCountX` | stamp_pdf.py:65 | After lower-casing, the number of 'x' is the number of 'x' plus 'X' before |
| `Text.LowerAppend` | stamp_pdf.py:65 | Lower-casing works per character: it distributes over concatenation |
| `StampPdf.AspectRatio` | stamp_pdf.py:5-6 | The ratio times the image width is the image height |
| `StampPdf.InitialsRect` | stamp_pdf.py:4-15 | The initials rectangle's right edge is at W - margin and its bottom edge at H - margin. It is width_pts wide, and its height/width equals the image's height/width |
| `StampPdf.InitialsLetterExample` | stamp_pdf.py:4-15 | 612 x 792 page, width 72, margin 12, square image: (528, 708, 600, 780) |
| `StampPdf.AddInitials` | stamp_pdf.py:4-19 | Exactly one placement per page, in page order, each computed from that page's own size |
| `StampPdf.SignatureRect` | stamp_pdf.py:25-30 | The signature rectangle starts at (x, y), is width_pts wide, and keeps the image's aspect ratio |
| `StampPdf.LoadedPage` | stamp_pdf.py:24 | `load_page(n)` gives page n for 0 <= n < count, and page n + count for -count <= n < 0. It fails for n >= count or an empty document. Any page it gives is in range |
| `StampPdf.AddSignature` | stamp_pdf.py:21-34 | A no-op iff page, x or y is None. It fails iff the page does not load. Otherwise it makes exactly one placement on the loaded page at (x, y), width_pts wide, keeping the image's aspect ratio |
| `StampPdf.ParseFullsig` | stamp_pdf.py:63-67 | `--fullsig` is accepted only if it holds exactly one 'x' or 'X' and both pieces are numbers. The values are those of the two pieces around it |
| `StampPdf.FullsigExample` | stamp_pdf.py:48 | "548x300" reads as (548, 300) |
| `StampPdf.FullsigAccepted` | stamp_pdf.py:63-67 | The converse of `ParseFullsig`'s contract: any `PxQ` whose pieces hold no 'x' or 'X' and are both numbers is accepted, with the values of P and Q |
| `StampPdf.SignaturePoint` | stamp_pdf.py:63-67 | Without `--fullsig` the point is `--sig-x`, `--sig-y`; with an accepted `--fullsig` both coordinates are replaced by its two values |
| `StampPdf.FullsigOverridesPoint` | stamp_pdf.py:63-67 | A well-formed `--fullsig PxQ` sets the signature point to (P, Q) whatever `--sig-x` and `--sig-y` said |
| `StampPdf.SignaturePage` | stamp_pdf.py:71-75 | `--onpage N` gives N-1 whatever `--sig-page` says. Otherwise `--sig-page` is used. With neither, a given signature goes on the last page, n-1 |
| `StampPdf.StampCommand` | stamp_pdf.py:36-81 | Returns `Exit(1)`, the explicit `sys.exit(1)`, iff the input PDF or initials image is missing, or a given signature image is missing; this is checked before anything else. Returns `Exit(2)` iff the files are there and `--fullsig` is malformed. Otherwise it saves to the output path: first the initials on every page, then at most one signature placement, at the resolved page and point. It returns `Raised` iff that page does not load; the process then also ends with status 1, from the uncaught exception |

## Left out

- Qt and PyMuPDF calls are not modelled: widgets, layout, buttons, the scene graph, `fitInView`, mouse and double-click events, pixmap-to-QImage conversion, `insert_image` and `save`. Page, pixmap and image sizes are parameters, and each `insert_image` call is a `Placement`.
- `DragRect.set_preview` and the preview re-centring in `mouseReleaseEvent` are not modelled. They scale a pixmap with Qt's own aspect-keeping, rounding scaler and centre it at offsets (box − image)/2. The stored `source_path` they set is never read by the save.
- Dragging is Qt's `ItemIsMovable`. The model keeps the drag offset `(dx, dy)` that the save reads, but has no operation that changes it.
- File dialogs, `os.path.isfile` and `float()` are parameters: a dialog answer, booleans or a set of existing paths, and a map from accepted strings to their values. String-to-float conversion itself is not modelled.
- `Text.Lower` folds only ASCII letters; Python's Unicode case mapping is not modelled.
- `StampPdf.LoadedPage` encodes PyMuPDF's page-number handling, which is not part of this model: negative numbers count from the end, and numbers at or past the page count raise. For a document without pages, the library's loop over negative numbers would not end; the model reports a missing page instead.
- Image decoding is not modelled. An image that `fitz.Pixmap` cannot read raises in the source; the model takes image sizes with a positive width.
- `PdfViewer.add_drag_rect` defaults (w = 180, h = 60, tag "sig") are not modelled, because no caller uses them. Tags are the three the window uses.
- argparse's own parsing and errors (a missing positional or `--initials`, a non-integer `--sig-page`) are not modelled; `StampCommand` starts from the parsed arguments.
- stdout and stderr messages (`BOX`, `OPEN_PDF`, `SAVED`, the error texts) are left out because they are logging only.
- `backups/stamp_gui.py` is a copy of `stamp_gui.py` and has no model of its own.
- `StampPdf.ParseFullsig`: `float()` also accepts "inf", "nan" and values such as "1e999" that overflow to infinity; a `real` has no such values, so the model rejects those pieces with exit code 2 where the program goes on with an infinite or NaN coordinate.
- Float rounding: every equation holds exactly over `real`, but only approximately over Python floats.
