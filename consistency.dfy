/** The preview and the exported PDF agree: they use the same page grid,
    the same margins and show the same part of the image on every page. */
module Consistency {
  import opened Tiling
  import opened Preview
  import opened PdfExport

  /** The blank margin the preview leaves on the first page is the same
      fraction of the page as the one the PDF leaves. */
  lemma MarginsAgree(count: int, pageLen: real, desiredLen: real, dispLen: real)
    requires pageLen > 0.0 && desiredLen > 0.0
    requires count == PageCount(desiredLen, pageLen)
    ensures Inset(count, pageLen, desiredLen, dispLen) * (pageLen * Dpi)
         == PageOffset(0, count, pageLen * Dpi, desiredLen * Dpi) * dispLen
  {
    var f := OverhangFraction(count, pageLen, desiredLen);
    InsetIsOverhang(count, pageLen, desiredLen, dispLen);
    FirstMarginIsOverhang(count, pageLen, desiredLen);
    assert f * dispLen * (pageLen * Dpi) == f * (pageLen * Dpi) * dispLen;
  }

  /** PDF page `pdfPage` draws the image at a positive size and shows exactly
      the UV rectangle `uv`. */
  predicate Shows(pdfPage: PdfPage, uv: Rect)
  {
    pdfPage.imageSize.x > 0.0 && pdfPage.imageSize.y > 0.0
    && uv == VisibleUv(pdfPage)
  }

  /** The PDF page at a grid position shows exactly the UV rectangle of the
      preview tile at that position. */
  lemma TileMatchesPage(x: int, y: int, cols: int, rows: int, size: Vec2, desired: Vec2, disp: Vec2)
    requires size.x > 0.0 && size.y > 0.0
    requires desired.x > 0.0 && desired.y > 0.0
    ensures Shows(PageAt(x, y, cols, rows, size, desired), TileAt(x, y, cols, rows, size, desired, disp).uv)
  {
    ImageAtDesiredSize(x, y, cols, rows, size, desired);
    VisibleLoIsUv(x, cols, size.x, desired.x);
    VisibleHiIsUv(x, cols, size.x, desired.x);
    VisibleLoIsUv(y, rows, size.y, desired.y);
    VisibleHiIsUv(y, rows, size.y, desired.y);
  }

  /** A preview and a PDF made for the same poster and page format have one
      tile per page, and each page shows exactly what its tile previews. */
  lemma PreviewMatchesPdf(area: Vec2, page: Page, desired: Vec2, disp: Vec2,
                          tiles: seq<PreviewTile>, pages: seq<PdfPage>)
    requires desired.x > 0.0 && desired.y > 0.0
    requires IsPreviewLayout(area, page, desired, disp, tiles)
    requires IsPdfLayout(page, desired, pages)
    ensures |tiles| == |pages|
    ensures forall k | 0 <= k < |tiles| :: Shows(pages[k], tiles[k].uv)
  {
    var size := Size(page);
    var cols := PageCount(desired.x, size.x);
    var rows := PageCount(desired.y, size.y);
    forall k | 0 <= k < |tiles|
      ensures Shows(pages[k], tiles[k].uv)
    {
      assert tiles[k] == TileAt(k % cols, k / cols, cols, rows, size, desired, disp);
      assert pages[k] == PageAt(k % cols, k / cols, cols, rows, size, desired);
      TileMatchesPage(k % cols, k / cols, cols, rows, size, desired, disp);
    }
  }
}
