# etracer poster tiling, modelled in Dafny

etracer prints an image as a poster that is tiled over several sheets of
paper. The user picks:

- the desired poster width and height, shown in inches or centimetres;
- a page format (Letter, A4, Legal or Tabloid);
- whether the image's aspect ratio is locked.

The application then:

- works out how many pages it needs across and down;
- draws an on-screen preview of the page grid with the part of the image each
  page carries;
- writes a PDF with one page per grid cell.

This project models that core as it is written in `src/app.rs`:

- `tiling.dfy` (module `Tiling`): the page formats, the page count per axis
  (a ceiling), the PDF image scale, and the UV mapping. The UV mapping takes a
  grid corner to a normalised image coordinate, with the grid centred over the
  poster and the result clamped to [0, 1].
- `preview.dfy` (module `Preview`): the preview layout.
  - `FitPage` is the display page size that fits the grid, with its 5 % gaps,
    into the draw area.
  - `LayoutTile` and `PreviewLayout` are the nested loops that produce, for
    every grid cell, the white page rectangle, the inset image rectangle and
    the UV rectangle. These are proved equal to the reference definition
    `TileAt`, in row-major order.
- `pdf.dfy` (module `PdfExport`): `GeneratePdf`. Its nested loops produce, for
  every grid cell, the page size, the translation and the size at which the
  image is drawn on that page (72 points per inch). They are proved equal to
  `PageAt`, in row-major order. The code never sets the PDF page size; the
  model gives each page the chosen format's size in points, the size the
  translations are computed for (see "## Findings").
- `consistency.dfy` (module `Consistency`): the preview and the PDF agree,
  for pages of the chosen format's size. They have the same number of pages.
  Every PDF page shows exactly the UV rectangle its preview tile shows. The
  blank margins are the same fraction of a page in both.
- `session.dfy` (module `Session`): the application state as a class.
  - The desired size is stored in inches.
  - The width and height sliders convert units and apply the aspect lock.
  - The units and page combo boxes, the lock check box, image loading, and
    the save and preview actions are methods on the class.

Lengths are exact reals. The application computes them in 32-bit floats.

Behaviour of the code worth knowing:

- The aspect-lock check box (src/app.rs:157-160) and the image load
  (src/app.rs:289-310) do not write the desired width or height. Only the
  width and height slider closures (src/app.rs:162-204) apply the ratio.
- The page count is a plain ceiling, with no floating-point tolerance.
- Loading accepts any image format the image decoder reads
  (src/app.rs:300), but saving embeds the bytes as PNG and unwraps the
  result (src/app.rs:501). An image that previews fine but is not a PNG,
  such as a JPEG, therefore makes saving panic.
- Saving without a loaded image is not rejected with an error; the code
  unwraps the missing bytes and panics. Here that is a precondition of
  `Save`.

## Model

| member | source | states |
|---|---|---|
| Tiling.Size | src/app.rs:24-33 | every page format is portrait with positive sides (Letter 8.5x11, A4 8.3x11.7, Legal 8.5x14, Tabloid 11x17 inches) |
| Tiling.Ceil | src/app.rs:453 | the result is the least integer not below the argument |
| Tiling.PageCount | src/app.rs:452-454 | `count` pages are enough to cover the desired length and `count - 1` pages are not; a positive length needs at least one page |
| Tiling.PageCountExact | src/app.rs:452-454 | a desired length that is an exact multiple `k` of the page length needs exactly `k` pages, with no extra empty page |
| Tiling.PageCountOne | src/app.rs:452-454 | a desired length that fits on one page needs exactly one page |
| Tiling.ImageScale | src/app.rs:456-458 | the image length in points relates to the desired length as the PDF page relates to the printable page |
| Tiling.ImageScaleAt72 | src/app.rs:474-483 | with a PDF page of 72 points per inch, the image is drawn at the desired length times 72 |
| Tiling.Clamp01 | src/app.rs:463 | the result lies in [0, 1], equals the input inside it, and is 0 below and 1 above |
| Tiling.PosterPosition | src/app.rs:461-462 | reference definition of where grid corner `index` lies, in inches from the start of the image, with the grid centred over it; no contract of its own, `Tiling.InteriorPosition` and `Tiling.RawUvTimesDesired` prove its properties |
| Tiling.RawUv | src/app.rs:461-462 | reference definition of the unclamped UV: `Tiling.PosterPosition` over the desired length; no contract of its own, its properties are `Tiling.RawUvTimesDesired`, `Tiling.UvStep` and `Tiling.InteriorPosition` |
| Tiling.UvAxis | src/app.rs:460-464 | a corner's UV coordinate lies in [0, 1]; `Tiling.UvCoverage`, `Tiling.UvMonotone`, `Tiling.UvInterior` and `Tiling.UvCornerTimesDesired` pin its value |
| Tiling.UvOffset | src/app.rs:460-464 | both components of the UV of a grid corner lie in the unit square |
| Tiling.RawUvTimesDesired | src/app.rs:461-462 | the unclamped UV times the desired length is the corner's distance in inches from the start of the centred image |
| Tiling.UvStep | src/app.rs:460-464 | moving one corner along the grid moves the unclamped UV by exactly page length over desired length |
| Tiling.UvMonotone | src/app.rs:460-464 | UV coordinates never decrease along the grid |
| Tiling.UvCoverage | src/app.rs:460-464 | the first grid corner maps to UV 0 and the last to UV 1, so the grid shows the whole image |
| Tiling.InteriorPosition | src/app.rs:461-462 | an interior grid corner lies strictly inside the desired length once the grid is centred |
| Tiling.UvInterior | src/app.rs:460-464 | every interior corner's UV lies strictly between 0 and 1 and is not clamped |
| Tiling.UvCornerTimesDesired | src/app.rs:460-464 | scaled back to inches, corner 0 is 0, the last corner is the whole desired length, and every interior corner is its unclamped poster position |
| Tiling.UvTileNonEmpty | src/app.rs:384-395 | every tile's UV interval is non-empty: its end lies strictly beyond its start |
| Tiling.SingleTile | src/app.rs:452-464 | a poster no larger than one page uses a 1x1 grid whose only tile shows the whole image (UV 0,0 to 1,1) |
| Tiling.OverhangBounds | src/app.rs:461 | the centring overhang on each side is at least 0 and less than half a page |
| Preview.GridExtentFactor | src/app.rs:321-325 | the grid length is the page side times the divisor the preview uses, and the divisor is at least 1 |
| Preview.GridExtentMonotone | src/app.rs:321-325 | a longer display page gives a longer grid |
| Preview.AxisFit | src/app.rs:322-325 | the candidate page side of one axis fills that axis exactly |
| Preview.FitByHeight | src/app.rs:326-330 | when the height decides, the derived size keeps the page aspect ratio, fits both axes and fills the height |
| Preview.FitByWidth | src/app.rs:331-333 | when the width decides, the derived size keeps the page aspect ratio, fits both axes and fills the width |
| Preview.FitPage | src/app.rs:321-334 | the display page size keeps the page aspect ratio, the whole grid with its gaps fits the draw area, and one axis is filled |
| Preview.FitUnique | src/app.rs:321-334 | at most one display page size has those three properties |
| Preview.FitIsLargest | src/app.rs:321-334 | any display page size that keeps the page aspect ratio and lets the grid fit the draw area is no wider and no taller than the fit |
| Preview.GridFactor | src/app.rs:322-325 | reference definition of the divisor `count * (1 + margin) - margin`; no contract of its own, `Preview.GridExtentFactor` proves it at least 1 |
| Preview.PageSpan | src/app.rs:349-357 | reference definition of where page `i` lies along one axis; no contract of its own, `Preview.PageSpanInGrid` and `Preview.AdjacentTiles` prove its properties |
| Preview.Inset | src/app.rs:336-345 | reference definition of the inset of the outer image edges; no contract of its own, `Preview.InsetIsOverhang` and `Consistency.MarginsAgree` prove its properties |
| Preview.ImageSpan | src/app.rs:365-379 | reference definition of the image span inside page `i`; no contract of its own, `Preview.ImageInsidePage`, `Preview.ImageSpanLo` and `Preview.ImageSpanHi` prove its properties |
| Preview.UvSpan | src/app.rs:384-395 | reference definition of the UV interval of tile `i`; no contract of its own, `Tiling.UvTileNonEmpty`, `Preview.UvLoInches` and `Preview.UvHiInches` prove its properties |
| Preview.TileAt | src/app.rs:349-395 | reference definition of the page, image and UV rectangles of one tile; no contract of its own, `Preview.LayoutTile` is proved equal to it and `Preview.TileInPlace`, `Preview.AdjacentTiles`, `Preview.TileImageInsidePage` and `Preview.TileInsideDrawArea` prove its properties |
| Preview.AppendTile | src/app.rs:347-348 | appending the tile of the next row-major position keeps the tile list in row-major order |
| Preview.LayoutTile | src/app.rs:349-395 | the page, image and UV rectangles of one loop iteration are those of the reference tile `TileAt` |
| Preview.PreviewLayout | src/app.rs:313-406 | the preview has one tile per grid cell, in row-major order, each equal to `TileAt`, with a display page size that fits the draw area |
| Preview.InsetIsOverhang | src/app.rs:336-345 | the inset of the outer image edges is the centring overhang fraction of a display page |
| Preview.ImageInsidePage | src/app.rs:365-379 | along one axis the drawn image lies inside its page and is never reversed |
| Preview.UvLoInches | src/app.rs:384-389 | in inches, a tile's UV start is 0 on the first page and the page's poster position elsewhere |
| Preview.UvHiInches | src/app.rs:390-395 | in inches, a tile's UV end is the whole desired length on the last page and the end of the page's poster position elsewhere |
| Preview.ImageSpanLo | src/app.rs:365-373 | the image starts `inset` into the first page and at the page start on every other page |
| Preview.ImageSpanHi | src/app.rs:366-379 | the image stops `inset` before the end of the last page and at the page end on every other page |
| Preview.ImageLoOnPoster | src/app.rs:336-389 | the start of the drawn image, relative to its page and scaled to inches, is the poster position of the tile's UV start |
| Preview.ImageHiOnPoster | src/app.rs:336-395 | the end of the drawn image, relative to its page and scaled to inches, is the poster position of the tile's UV end |
| Preview.ImageInPlace | src/app.rs:336-395 | for any inset equal to the centring offset in display units, a page draws its UV interval at the place it has on the poster |
| Preview.AxisInPlace | src/app.rs:336-395 | with the preview's own inset, a page draws its UV interval at the place it has on the poster |
| Preview.TileInPlace | src/app.rs:349-403 | on both axes, every tile draws its UV rectangle at the place it has on the poster, at one common scale |
| Preview.PageSpanInGrid | src/app.rs:349-357 | page `i` starts at or after the grid start and ends within the grid length |
| Preview.AdjacentTiles | src/app.rs:349-395 | neighbouring tiles share their UV seam exactly, and neighbouring pages are one margin apart |
| Preview.TileImageInsidePage | src/app.rs:365-379 | every tile's image rectangle lies inside its page rectangle |
| Preview.TileInsideDrawArea | src/app.rs:313-357 | with the fitted display size, every page rectangle lies inside the draw area |
| PdfExport.PageOffset | src/app.rs:489-496 | reference definition of the translation of page `i` along one axis; no contract of its own, `PdfExport.OffsetStep`, `PdfExport.ImageCentred` and `PdfExport.FirstMarginIsOverhang` prove its properties |
| PdfExport.PageAt | src/app.rs:481-503 | reference definition of the page at one grid cell; no contract of its own, `PdfExport.GeneratePdf` is proved to emit it and `PdfExport.ImageAtDesiredSize` and `Consistency.TileMatchesPage` prove its properties |
| PdfExport.AppendPage | src/app.rs:488-492 | appending the page of the next row-major position keeps the page list in row-major order |
| PdfExport.GeneratePdf | src/app.rs:466-510 | the document has one page per grid cell, in row-major order, each equal to the reference page `PageAt`: the format's size in points, the centring translation and the image at its desired size |
| PdfExport.ImageAtDesiredSize | src/app.rs:481-503 | every page draws the whole image at the desired size in points (inches times 72) |
| PdfExport.OffsetStep | src/app.rs:489-496 | each next page along an axis shifts the image back by exactly one page length |
| PdfExport.ImageCentred | src/app.rs:488-496 | the blank margin before the image on the first page equals the one after it on the last page |
| PdfExport.FirstMarginIsOverhang | src/app.rs:488-491 | the first page's blank margin is the overhang fraction of a page: at least 0 and under half a page |
| PdfExport.VisibleLo | src/app.rs:495-503 | the start of the visible part of the image on a page lies in [0, 1] |
| PdfExport.VisibleHi | src/app.rs:495-503 | the end of the visible part of the image on a page lies in [0, 1] |
| PdfExport.VisibleUv | src/app.rs:495-503 | the visible part of the image on a page, for the page's own size, is a rectangle inside the unit square |
| PdfExport.AsEmitted | src/app.rs:497 | reference definition of a page as the code emits it, at the default page size; no contract of its own, `PdfExport.DefaultPageDropsStrip` shows what it loses |
| PdfExport.DefaultPageDropsStrip | src/app.rs:497 | a 17 x 11 inch poster on Letter needs 2 x 1 pages; emitted at the default 595-point width, the first page shows the image up to 595/1224 and the second from 1/2, so a strip is on neither page; at the Letter width they meet exactly |
| PdfExport.RawUvScaled | src/app.rs:460-464 | scaling every length of the UV formula by one factor, such as inches to points, leaves the UV unchanged |
| PdfExport.VisibleLoIsUv | src/app.rs:488-503 | the visible part of PDF page `i` starts exactly at the preview's UV for corner `i` |
| PdfExport.VisibleHiIsUv | src/app.rs:488-503 | on a page of the format's length in points, the visible part of PDF page `i` ends exactly at the preview's UV for corner `i + 1` |
| Consistency.MarginsAgree | src/app.rs:336-345 | the preview inset and the PDF first-page margin are the same fraction of a page |
| Consistency.TileMatchesPage | src/app.rs:384-403 | the PDF page at a grid cell, of the format's size, shows exactly the UV rectangle of the preview tile at that cell |
| Consistency.PreviewMatchesPdf | src/app.rs:313-406 | a preview and a PDF for the same poster and page format have the same number of pages, and page `k` of each shows the same part of the image when the PDF pages have the format's size |
| Session.ToInches | src/app.rs:164-167 | inches are kept and centimetres are divided by 2.54; positive values stay positive |
| Session.FromInches | src/app.rs:176-179 | a positive stored length is shown as a positive slider value |
| Session.Multiplier | src/app.rs:220-223 | the page-label multiplier is at least 1 |
| Session.FromInchesIsMultiplier | src/app.rs:220-223 | the sliders and the page labels convert from inches by the same factor |
| Session.SliderRoundTrip | src/app.rs:162-180 | a value set through a slider reads back unchanged, in both units |
| Session.InchesRoundTrip | src/app.rs:162-180 | a stored length shown by a slider and set back is unchanged, in both units |
| Session.Proportional | src/app.rs:168-173 | the derived side keeps the image's aspect ratio exactly, and is positive for positive inputs |
| Session.App.constructor | src/app.rs:54-70 | start-up state: 8.26 x 15 inches, Letter, inches, aspect lock off, no image |
| Session.App.DesiredWidthValue | src/app.rs:176-179 | the width slider shows the stored width in the current units |
| Session.App.DesiredHeightValue | src/app.rs:198-201 | the height slider shows the stored height in the current units |
| Session.App.SetDesiredWidth | src/app.rs:162-182 | the width is stored in inches and read back as the value set. With the lock on and an image loaded, height over width equals the image's ratio; otherwise the height is unchanged. Nothing else changes |
| Session.App.SetDesiredHeight | src/app.rs:184-204 | the mirror image of the width slider |
| Session.App.SetUnits | src/app.rs:206-219 | only the display units change; the stored size in inches is kept |
| Session.App.SetPageSize | src/app.rs:224-266 | only the page format changes |
| Session.App.SetMaintainAspectRatio | src/app.rs:157-160 | only the lock flag changes; the current size is not adjusted |
| Session.App.LoadImage | src/app.rs:289-300 | the decoded image's dimensions are recorded; the desired size is left as it is |
| Session.App.Save | src/app.rs:270-281 | with an image loaded, the document is the PDF layout for the current size and page format |
| Session.App.Preview | src/app.rs:313-406 | the preview is the layout for the current size and page format in the given draw area |
| Session.AspectLockScenario | src/app.rs:162-204 | a 400x200 image with the lock on: width 10 gives height 5, height 4 then gives width 8, and in centimetres the width slider shows 20.32 |

## Findings

| source | as written | input that shows it | evidently intended | confidence | as-written member | corrected member |
|---|---|---|---|---|---|---|
| src/app.rs:497 | every PDF page is started without page settings, so it has the library's default size (A4, 595 x 842 points, as the comments at src/app.rs:475-476 also give), while the translations assume a page of the chosen format's size | Letter format, poster 17 x 11 inches: 2 x 1 pages; the first 595-point page shows the image up to 595/1224 of its width, the second from 1/2, so a 17-point strip is printed on no page | each page is started at the chosen format's size in points, so neighbouring pages meet exactly and each shows what its preview tile shows | not executed; depends on the PDF library's default page size, which is not part of this model | PdfExport.AsEmitted, PdfExport.DefaultPageDropsStrip | PdfExport.GeneratePdf, Consistency.TileMatchesPage |

## Left out

- PdfExport.VisibleHiIsUv: holds for a page of the chosen format's size in
  points. The code never sets the PDF page size (src/app.rs:497), so it does
  not hold for pages as the code emits them; see "## Findings".
- Consistency.TileMatchesPage: the code never sets the PDF page size; this
  lemma, `Consistency.PreviewMatchesPdf` and `PdfExport.VisibleHiIsUv` assume
  each page is the format's size times 72 points, as the model's
  `GeneratePdf` sets it.
- Consistency.PreviewMatchesPdf: the same page-size assumption as
  `Consistency.TileMatchesPage`.
- When egui invokes the slider get and set closures (every frame or only on
  a drag) is not modelled. Each slider move is one call of
  `SetDesiredWidth` or `SetDesiredHeight`, and each displayed value one call
  of `DesiredWidthValue` or `DesiredHeightValue`.
- Widgets and painting: egui panels, the painter calls and colours are not
  modelled. Nor are the texture upload and the translation of preview
  rectangles by the draw area's origin; rectangles are relative to that
  origin.
- Preview.PreviewLayout: the image rectangle of a tile is computed whether
  or not a texture is loaded. The source draws it only when one is.
- File I/O and concurrency are not modelled. This covers the file dialogs,
  the async tasks, the channel that carries the image bytes, and writing the
  PDF file.
- Image decoding is not modelled. An image is its pixel width and height.
- PDF byte emission is not modelled. A PDF page is its size, the
  translation and the draw size of its image; the document is the list of
  pages.
- Floating point: the source uses 32-bit floats, and 64-bit for the
  aspect-ratio product. Here lengths are exact reals, so rounding, and the
  integer cast of the page count, are not modelled.
- Tiling.PageCount: ignores float rounding of `desired / print`.
- Session.App.Save: the panic on a missing image is a precondition rather
  than an error result, since the source does not handle that case.
- PdfExport.GeneratePdf: the panic when the image bytes are not a PNG
  (including every non-PNG image the loader accepts, see above) and the one
  on a zero image size are left out. Positive desired sizes are a
  precondition.
- Session.App.SetDesiredWidth: the slider's range (0.1 to 100) is a
  precondition, because the egui slider clamps values before the closure
  sees them.
- Session.App.SetDesiredHeight: the same slider-range precondition.
- Persistence, the unused `label` field and the web-only file picker are not
  modelled.
- Session.Multiplier: states only that the factor is at least 1. Its value
  is pinned by its relation to the slider conversion
  (`Session.FromInchesIsMultiplier`). The label text formatting is not
  modelled.
