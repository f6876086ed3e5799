/** The exported PDF: one page per grid cell, each drawing the whole image
    at its desired physical size, translated so that the part belonging to
    that cell falls on the page. Lengths are in PDF points. */
module PdfExport {
  import opened Tiling

  /** PDF points per inch. */
  const Dpi: real := 72.0

  /** One page of the document: its own size in points, the translation
      applied before the image is drawn, and the size the image is drawn at. */
  datatype PdfPage = PdfPage(extent: Vec2, translate: Vec2, imageSize: Vec2)

  /** The size, in points, of a page started without page settings: the PDF
      library's default, an A4 sheet. */
  const DefaultExtent: Vec2 := Vec2(595.0, 842.0)

  /** The translation of page `i` along one axis: the grid of `count` pages
      of `pointLen` points is centred over the image of `imageLen` points,
      and page `i` starts `i` pages into the grid. */
  function PageOffset(i: int, count: int, pointLen: real, imageLen: real): real
  {
    ((count as real * pointLen) - imageLen) / 2.0 - i as real * pointLen
  }

  /** The page at column `x`, row `y` of a `cols` x `rows` grid of pages of
      `size` inches, for an image of `desired` inches. */
  function PageAt(x: int, y: int, cols: int, rows: int, size: Vec2, desired: Vec2): PdfPage
    requires size.x > 0.0 && size.y > 0.0
  {
    var pointWidth, pointHeight := size.x * Dpi, size.y * Dpi;
    var imageWidth := ImageScale(desired.x, size.x, pointWidth);
    var imageHeight := ImageScale(desired.y, size.y, pointHeight);
    PdfPage(Vec2(pointWidth, pointHeight),
            Vec2(PageOffset(x, cols, pointWidth, imageWidth), PageOffset(y, rows, pointHeight, imageHeight)),
            Vec2(imageWidth, imageHeight))
  }

  /** Every entry `k` of `pages` is the page at column `k % cols` of row
      `k / cols`: the pages are emitted in row-major order. */
  predicate RowMajorPages(pages: seq<PdfPage>, cols: int, rows: int, size: Vec2, desired: Vec2)
    requires cols >= 1
    requires size.x > 0.0 && size.y > 0.0
  {
    forall k | 0 <= k < |pages| :: pages[k] == PageAt(k % cols, k / cols, cols, rows, size, desired)
  }

  /** Appending the page at the next row-major position keeps the order. */
  lemma AppendPage(pages: seq<PdfPage>, x: int, y: int, cols: int, rows: int, size: Vec2, desired: Vec2)
    requires 0 <= x < cols && 0 <= y && |pages| == y * cols + x
    requires size.x > 0.0 && size.y > 0.0
    requires RowMajorPages(pages, cols, rows, size, desired)
    ensures RowMajorPages(pages + [PageAt(x, y, cols, rows, size, desired)], cols, rows, size, desired)
  {
    RowMajor(x, y, cols);
  }

  /** The whole document for a poster of `desired` inches on pages of
      format `page`: one page per grid cell, in row-major order. */
  predicate IsPdfLayout(page: Page, desired: Vec2, pages: seq<PdfPage>)
    requires desired.x > 0.0 && desired.y > 0.0
  {
    var size := Size(page);
    var cols := PageCount(desired.x, size.x);
    var rows := PageCount(desired.y, size.y);
    |pages| == cols * rows
    && RowMajorPages(pages, cols, rows, size, desired)
  }

  /** Produces the pages of the PDF document, row by row. The vertical
      translation is computed once per row, the horizontal one per page.
      Every page is started at the size of the chosen format in points, the
      size the translations are computed for. */
  method GeneratePdf(desiredWidth: real, desiredHeight: real, pageSize: Page) returns (pages: seq<PdfPage>)
    requires desiredWidth > 0.0 && desiredHeight > 0.0
    ensures IsPdfLayout(pageSize, Vec2(desiredWidth, desiredHeight), pages)
  {
    var size := Size(pageSize);
    var desired := Vec2(desiredWidth, desiredHeight);
    var pageWidth := size.x;
    var pageHeight := size.y;
    var pdfPointPageWidth := pageWidth * Dpi;
    var pdfPointPageHeight := pageHeight * Dpi;
    var pageCountHorizontal := PageCount(desiredWidth, pageWidth);
    var pageCountVertical := PageCount(desiredHeight, pageHeight);
    var desiredImageWidth := ImageScale(desiredWidth, pageWidth, pdfPointPageWidth);
    var desiredImageHeight := ImageScale(desiredHeight, pageHeight, pdfPointPageHeight);
    pages := [];
    var y := 0;
    while y < pageCountVertical
      invariant 0 <= y <= pageCountVertical
      invariant |pages| == y * pageCountHorizontal
      invariant RowMajorPages(pages, pageCountHorizontal, pageCountVertical, size, desired)
    {
      var yOffset := ((pageCountVertical as real * pdfPointPageHeight) - desiredImageHeight) / 2.0
                     - y as real * pdfPointPageHeight;
      var x := 0;
      while x < pageCountHorizontal
        invariant 0 <= x <= pageCountHorizontal
        invariant yOffset == PageOffset(y, pageCountVertical, pdfPointPageHeight, desiredImageHeight)
        invariant |pages| == y * pageCountHorizontal + x
        invariant RowMajorPages(pages, pageCountHorizontal, pageCountVertical, size, desired)
      {
        var xOffset := ((pageCountHorizontal as real * pdfPointPageWidth) - desiredImageWidth) / 2.0
                       - x as real * pdfPointPageWidth;
        var page := PdfPage(Vec2(pdfPointPageWidth, pdfPointPageHeight), Vec2(xOffset, yOffset),
                            Vec2(desiredImageWidth, desiredImageHeight));
        assert page == PageAt(x, y, pageCountHorizontal, pageCountVertical, size, desired);
        AppendPage(pages, x, y, pageCountHorizontal, pageCountVertical, size, desired);
        pages := pages + [page];
        x := x + 1;
      }
      assert |pages| == (y + 1) * pageCountHorizontal;
      y := y + 1;
    }
  }

  /** Every page draws the image at its desired physical size, whatever the
      page format. */
  lemma ImageAtDesiredSize(x: int, y: int, cols: int, rows: int, size: Vec2, desired: Vec2)
    requires size.x > 0.0 && size.y > 0.0
    ensures PageAt(x, y, cols, rows, size, desired).imageSize == Vec2(desired.x * Dpi, desired.y * Dpi)
  {
    ImageScaleAt72(desired.x, size.x);
    ImageScaleAt72(desired.y, size.y);
  }

  /** Moving one page along an axis moves the image back by exactly one
      page, so neighbouring pages show adjacent parts of the image. */
  lemma OffsetStep(i: int, count: int, pointLen: real, imageLen: real)
    ensures PageOffset(i + 1, count, pointLen, imageLen) == PageOffset(i, count, pointLen, imageLen) - pointLen
  {
    assert (i + 1) as real * pointLen == i as real * pointLen + pointLen;
  }

  /** The image is centred on the grid: the blank margin before it on the
      first page equals the blank margin after it on the last page. */
  lemma ImageCentred(count: int, pointLen: real, imageLen: real)
    requires count >= 1
    ensures PageOffset(0, count, pointLen, imageLen)
         == pointLen - (PageOffset(count - 1, count, pointLen, imageLen) + imageLen)
  {
    assert (count - 1) as real * pointLen == count as real * pointLen - pointLen;
  }

  /** The blank margin before the image on the first page is the overhang
      fraction of a page, so it is never negative and under half a page. */
  lemma FirstMarginIsOverhang(count: int, pageLen: real, desiredLen: real)
    requires pageLen > 0.0 && desiredLen > 0.0
    requires count == PageCount(desiredLen, pageLen)
    ensures PageOffset(0, count, pageLen * Dpi, desiredLen * Dpi)
         == OverhangFraction(count, pageLen, desiredLen) * (pageLen * Dpi)
    ensures 0.0 <= PageOffset(0, count, pageLen * Dpi, desiredLen * Dpi) < pageLen * Dpi / 2.0
  {
    var f := OverhangFraction(count, pageLen, desiredLen);
    OverhangBounds(count, pageLen, desiredLen);
    assert f * (2.0 * pageLen) == count as real * pageLen - desiredLen;
    assert PageOffset(0, count, pageLen * Dpi, desiredLen * Dpi)
        == (count as real * pageLen - desiredLen) * Dpi / 2.0;
    ScaleWeak(0.0, f, pageLen * Dpi);
    ScaleStrict(f, 0.5, pageLen * Dpi);
  }

  /** Where the visible part of the image begins, as a fraction of the
      image, on a page that translates the image by `offset`. */
  function VisibleLo(offset: real, imageLen: real): (r: real)
    requires imageLen > 0.0
    ensures 0.0 <= r <= 1.0
  {
    Clamp01(-offset / imageLen)
  }

  /** Where the visible part of the image ends, as a fraction of the image,
      on a page of `pointLen` that translates the image by `offset`. */
  function VisibleHi(offset: real, pointLen: real, imageLen: real): (r: real)
    requires imageLen > 0.0
    ensures 0.0 <= r <= 1.0
  {
    Clamp01((pointLen - offset) / imageLen)
  }

  /** The part of the image `page` shows, as a rectangle of normalised
      image coordinates. */
  function VisibleUv(page: PdfPage): (r: Rect)
    requires page.imageSize.x > 0.0 && page.imageSize.y > 0.0
    ensures 0.0 <= r.min.x <= 1.0 && 0.0 <= r.min.y <= 1.0
    ensures 0.0 <= r.max.x <= 1.0 && 0.0 <= r.max.y <= 1.0
  {
    Rect(Vec2(VisibleLo(page.translate.x, page.imageSize.x), VisibleLo(page.translate.y, page.imageSize.y)),
         Vec2(VisibleHi(page.translate.x, page.extent.x, page.imageSize.x),
              VisibleHi(page.translate.y, page.extent.y, page.imageSize.y)))
  }

  /** The page as the code emits it: it starts every page without page
      settings, so the page has the default size whatever the format. */
  function AsEmitted(page: PdfPage): PdfPage
  {
    page.(extent := DefaultExtent)
  }

  /** Emitted at the default size, the two pages of a 17 x 11 inch poster on
      Letter sheets leave a strip of the image on neither page: the first
      page is 595 points wide and shows the image up to 595/1224 of its
      width, while the second page shows it from one half on. Pages of the
      Letter size, 612 points wide, meet exactly at one half. */
  lemma DefaultPageDropsStrip()
    ensures PageCount(17.0, Size(Letter).x) == 2 && PageCount(11.0, Size(Letter).y) == 1
    ensures var first := PageAt(0, 0, 2, 1, Size(Letter), Vec2(17.0, 11.0));
            var second := PageAt(1, 0, 2, 1, Size(Letter), Vec2(17.0, 11.0));
            VisibleUv(AsEmitted(first)).max.x == 595.0 / 1224.0
            && VisibleUv(AsEmitted(second)).min.x == 0.5
            && VisibleUv(first).max.x == VisibleUv(second).min.x
  {
    PageCountExact(2, Size(Letter).x);
    assert 2.0 * 8.5 == 17.0;
    PageCountOne(11.0, Size(Letter).y);
    var first := PageAt(0, 0, 2, 1, Size(Letter), Vec2(17.0, 11.0));
    var second := PageAt(1, 0, 2, 1, Size(Letter), Vec2(17.0, 11.0));
    ImageScaleAt72(17.0, 8.5);
    assert first.imageSize.x == 1224.0 && first.extent.x == 612.0 && first.translate.x == 0.0;
    assert second.imageSize.x == 1224.0 && second.translate.x == -612.0;
  }

  /** Scaling every length of the UV formula by the same factor leaves it
      unchanged. */
  lemma RawUvScaled(index: real, count: real, pageLen: real, desiredLen: real, k: real)
    requires desiredLen > 0.0 && k > 0.0
    ensures (index * (pageLen * k) - (count * (pageLen * k) - desiredLen * k) / 2.0) / (desiredLen * k)
         == RawUv(index, count, pageLen, desiredLen)
  {
    var n := pageLen * index - (count * pageLen - desiredLen) / 2.0;
    assert index * (pageLen * k) - (count * (pageLen * k) - desiredLen * k) / 2.0 == n * k;
    assert (n * k) / (desiredLen * k) == n / desiredLen;
  }

  /** The part of the image visible on PDF page `i` of an axis begins
      exactly where the UV interval the preview shows for tile `i` begins. */
  lemma VisibleLoIsUv(i: int, count: int, pageLen: real, desiredLen: real)
    requires pageLen > 0.0 && desiredLen > 0.0
    ensures VisibleLo(PageOffset(i, count, pageLen * Dpi, desiredLen * Dpi), desiredLen * Dpi)
         == UvAxis(i as real, count as real, pageLen, desiredLen)
  {
    var pointLen, imageLen := pageLen * Dpi, desiredLen * Dpi;
    RawUvScaled(i as real, count as real, pageLen, desiredLen, Dpi);
    assert -PageOffset(i, count, pointLen, imageLen)
        == i as real * pointLen - (count as real * pointLen - imageLen) / 2.0;
    assert -PageOffset(i, count, pointLen, imageLen) / imageLen == RawUv(i as real, count as real, pageLen, desiredLen);
  }

  /** The part of the image visible on PDF page `i` of an axis ends exactly
      where the UV interval the preview shows for tile `i` ends. */
  lemma VisibleHiIsUv(i: int, count: int, pageLen: real, desiredLen: real)
    requires pageLen > 0.0 && desiredLen > 0.0
    ensures VisibleHi(PageOffset(i, count, pageLen * Dpi, desiredLen * Dpi), pageLen * Dpi, desiredLen * Dpi)
         == UvAxis(i as real + 1.0, count as real, pageLen, desiredLen)
  {
    var pointLen, imageLen := pageLen * Dpi, desiredLen * Dpi;
    RawUvScaled(i as real + 1.0, count as real, pageLen, desiredLen, Dpi);
    assert (i as real + 1.0) * pointLen == i as real * pointLen + pointLen;
    assert pointLen - PageOffset(i, count, pointLen, imageLen)
        == (i as real + 1.0) * pointLen - (count as real * pointLen - imageLen) / 2.0;
    assert (pointLen - PageOffset(i, count, pointLen, imageLen)) / imageLen
        == RawUv(i as real + 1.0, count as real, pageLen, desiredLen);
  }
}
