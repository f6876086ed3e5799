/** The on-screen preview of the tiled poster: how large each page is drawn
    so the whole grid fits the draw area, where every page sits, which part
    of it the image covers, and which part of the image (UV rectangle) it
    shows. Coordinates are relative to the top-left corner of the draw area. */
module Preview {
  import opened Tiling

  /** Gap between neighbouring pages, as a fraction of a page side. */
  const MarginFrac: real := 0.05

  /** An interval along one axis. */
  datatype Span = Span(lo: real, hi: real)

  /** What the preview draws for one page: the white page rectangle, the
      rectangle the image is drawn into, and the UV rectangle of the image
      shown there. */
  datatype PreviewTile = PreviewTile(page: Rect, image: Rect, uv: Rect)

  /** The rectangle spanned by one interval per axis. */
  function RectOf(xs: Span, ys: Span): Rect
  {
    Rect(Vec2(xs.lo, ys.lo), Vec2(xs.hi, ys.hi))
  }

  /** Length taken by `count` pages of side `len` placed one after another
      with a gap of `MarginFrac * len` between neighbours. */
  function GridExtent(count: int, len: real): real
  {
    count as real * len * (1.0 + MarginFrac) - MarginFrac * len
  }

  /** The divisor the preview uses to turn a draw-area side into a page side. */
  function GridFactor(count: int): real
  {
    count as real * (1.0 + MarginFrac) - MarginFrac
  }

  /** The grid extent is the page side times the grid factor, and the factor
      is at least 1 for a non-empty grid. */
  lemma GridExtentFactor(count: int, len: real)
    requires count >= 1
    ensures GridExtent(count, len) == len * GridFactor(count)
    ensures GridFactor(count) >= 1.0
  {
  }

  /** A longer page side gives a longer grid. */
  lemma GridExtentMonotone(count: int, a: real, b: real)
    requires count >= 1 && a <= b
    ensures GridExtent(count, a) <= GridExtent(count, b)
  {
    GridExtentFactor(count, a);
    GridExtentFactor(count, b);
    ScaleWeak(a, b, GridFactor(count));
  }

  /** `disp` is a display page size that keeps the page format's aspect
      ratio, lets the whole `cols` x `rows` grid fit in `area`, and fills
      `area` along at least one axis. */
  predicate FitsDrawArea(area: Vec2, cols: int, rows: int, pageSize: Vec2, disp: Vec2)
  {
    disp.x >= 0.0 && disp.y >= 0.0
    && disp.x * pageSize.y == disp.y * pageSize.x
    && GridExtent(cols, disp.x) <= area.x
    && GridExtent(rows, disp.y) <= area.y
    && (GridExtent(cols, disp.x) == area.x || GridExtent(rows, disp.y) == area.y)
  }

  /** Chooses the display page size: each axis proposes the largest side its
      draw length allows, and the axis whose proposal is tighter once the
      page aspect ratio is applied decides both sides. */
  method FitPage(area: Vec2, cols: int, rows: int, pageSize: Vec2) returns (disp: Vec2)
    requires area.x >= 0.0 && area.y >= 0.0
    requires cols >= 1 && rows >= 1
    requires pageSize.x > 0.0 && pageSize.y > 0.0
    ensures FitsDrawArea(area, cols, rows, pageSize, disp)
  {
    var displayPageHeight := area.y / GridFactor(rows);
    var displayPageWidth := area.x / GridFactor(cols);
    if displayPageWidth >= displayPageHeight * pageSize.x / pageSize.y {
      FitByHeight(area, cols, rows, pageSize, displayPageHeight, displayPageWidth);
      displayPageWidth := displayPageHeight * pageSize.x / pageSize.y;
    } else {
      FitByWidth(area, cols, rows, pageSize, displayPageHeight, displayPageWidth);
      displayPageHeight := displayPageWidth * pageSize.y / pageSize.x;
    }
    disp := Vec2(displayPageWidth, displayPageHeight);
  }

  /** Each axis on its own: the largest page side whose grid fits the draw
      length exactly. */
  lemma AxisFit(areaLen: real, count: int, len: real)
    requires areaLen >= 0.0 && count >= 1
    requires len == areaLen / GridFactor(count)
    ensures len >= 0.0 && GridExtent(count, len) == areaLen
  {
    GridExtentFactor(count, len);
  }

  /** When the height proposal is the tighter one, the height decides. */
  lemma FitByHeight(area: Vec2, cols: int, rows: int, pageSize: Vec2, h: real, w: real)
    requires area.x >= 0.0 && area.y >= 0.0
    requires cols >= 1 && rows >= 1
    requires pageSize.x > 0.0 && pageSize.y > 0.0
    requires h == area.y / GridFactor(rows) && w == area.x / GridFactor(cols)
    requires w >= h * pageSize.x / pageSize.y
    ensures FitsDrawArea(area, cols, rows, pageSize, Vec2(h * pageSize.x / pageSize.y, h))
  {
    AxisFit(area.y, rows, h);
    AxisFit(area.x, cols, w);
    var w2 := h * pageSize.x / pageSize.y;
    ScaleWeak(0.0, h, pageSize.x);
    assert w2 * pageSize.y == h * pageSize.x;
    GridExtentMonotone(cols, w2, w);
  }

  /** When the width proposal is the tighter one, the width decides. */
  lemma FitByWidth(area: Vec2, cols: int, rows: int, pageSize: Vec2, h: real, w: real)
    requires area.x >= 0.0 && area.y >= 0.0
    requires cols >= 1 && rows >= 1
    requires pageSize.x > 0.0 && pageSize.y > 0.0
    requires h == area.y / GridFactor(rows) && w == area.x / GridFactor(cols)
    requires w < h * pageSize.x / pageSize.y
    ensures FitsDrawArea(area, cols, rows, pageSize, Vec2(w, w * pageSize.y / pageSize.x))
  {
    AxisFit(area.y, rows, h);
    AxisFit(area.x, cols, w);
    var h2 := w * pageSize.y / pageSize.x;
    ScaleWeak(0.0, w, pageSize.y);
    assert h2 * pageSize.x == w * pageSize.y;
    assert h2 * pageSize.x / pageSize.y == w;
    assert h2 < h by {
      if h2 >= h {
        ScaleWeak(h, h2, pageSize.x / pageSize.y);
      }
    }
    GridExtentMonotone(rows, h2, h);
  }

  /** The fitted display size is unique: the fit conditions determine both
      sides of the display page. */
  lemma FitUnique(area: Vec2, cols: int, rows: int, pageSize: Vec2, d1: Vec2, d2: Vec2)
    requires cols >= 1 && rows >= 1
    requires pageSize.x > 0.0 && pageSize.y > 0.0
    requires FitsDrawArea(area, cols, rows, pageSize, d1)
    requires FitsDrawArea(area, cols, rows, pageSize, d2)
    ensures d1 == d2
  {
    if d1.x < d2.x {
      WiderFitIsLonger(cols, rows, pageSize, d1, d2);
      assert false;
    } else if d2.x < d1.x {
      WiderFitIsLonger(cols, rows, pageSize, d2, d1);
      assert false;
    } else {
      SameWidthSameHeight(pageSize, d1, d2);
    }
  }

  /** The fit is the largest display page size that keeps the page aspect
      ratio and lets the grid fit the draw area: any other such size is no
      wider and no taller. */
  lemma FitIsLargest(area: Vec2, cols: int, rows: int, pageSize: Vec2, d: Vec2, e: Vec2)
    requires cols >= 1 && rows >= 1
    requires pageSize.x > 0.0 && pageSize.y > 0.0
    requires FitsDrawArea(area, cols, rows, pageSize, d)
    requires e.x * pageSize.y == e.y * pageSize.x
    requires GridExtent(cols, e.x) <= area.x && GridExtent(rows, e.y) <= area.y
    ensures e.x <= d.x && e.y <= d.y
  {
    if d.x < e.x {
      WiderFitIsLonger(cols, rows, pageSize, d, e);
      assert false;
    }
    if d.y < e.y {
      ScaleStrict(d.y, e.y, pageSize.x);
      ScaleWeak(e.x, d.x, pageSize.y);
      assert false;
    }
  }

  /** Two sizes with the page aspect ratio and the same width are equal. */
  lemma SameWidthSameHeight(pageSize: Vec2, d1: Vec2, d2: Vec2)
    requires pageSize.x > 0.0 && pageSize.y > 0.0
    requires d1.x * pageSize.y == d1.y * pageSize.x
    requires d2.x * pageSize.y == d2.y * pageSize.x
    requires d1.x == d2.x
    ensures d1 == d2
  {
    if d1.y < d2.y {
      ScaleStrict(d1.y, d2.y, pageSize.x);
    } else if d2.y < d1.y {
      ScaleStrict(d2.y, d1.y, pageSize.x);
    }
  }

  /** Of two sizes with the page aspect ratio, the wider one gives a longer
      grid along both axes. */
  lemma WiderFitIsLonger(cols: int, rows: int, pageSize: Vec2, d1: Vec2, d2: Vec2)
    requires cols >= 1 && rows >= 1
    requires pageSize.x > 0.0 && pageSize.y > 0.0
    requires d1.x * pageSize.y == d1.y * pageSize.x
    requires d2.x * pageSize.y == d2.y * pageSize.x
    requires d1.x < d2.x
    ensures GridExtent(cols, d1.x) < GridExtent(cols, d2.x)
    ensures GridExtent(rows, d1.y) < GridExtent(rows, d2.y)
  {
    ScaleStrict(d1.x, d2.x, pageSize.y);
    assert d1.y * pageSize.x < d2.y * pageSize.x;
    assert d1.y < d2.y by {
      if d1.y >= d2.y {
        ScaleWeak(d2.y, d1.y, pageSize.x);
      }
    }
    GridExtentFactor(cols, d1.x);
    GridExtentFactor(cols, d2.x);
    GridExtentFactor(rows, d1.y);
    GridExtentFactor(rows, d2.y);
    ScaleStrict(d1.x, d2.x, GridFactor(cols));
    ScaleStrict(d1.y, d2.y, GridFactor(rows));
  }

  /** Where page `i` of side `len` lies along one axis. */
  function PageSpan(i: int, len: real): Span
  {
    Span(i as real * (len + len * MarginFrac), i as real * (len + len * MarginFrac) + len)
  }

  /** The inset, in display units, of the image at the outer edge of the
      first and last page along one axis: the centring offset of the grid
      over the desired length, scaled from inches to display units. */
  function Inset(count: int, pageLen: real, desiredLen: real, dispLen: real): real
    requires pageLen > 0.0
  {
    ((count as real * pageLen - desiredLen) / 2.0) / pageLen * dispLen
  }

  /** Where the image is drawn inside page `i` along one axis: the first
      page starts `inset` later and the last page stops `inset` earlier. */
  function ImageSpan(i: int, count: int, len: real, inset: real): Span
  {
    var s := PageSpan(i, len);
    Span(if i == 0 then s.lo + inset else s.lo,
         if i == count - 1 then s.hi - inset else s.hi)
  }

  /** The UV interval tile `i` shows along one axis. */
  function UvSpan(i: int, count: int, pageLen: real, desiredLen: real): Span
    requires desiredLen > 0.0
  {
    Span(UvAxis(i as real, count as real, pageLen, desiredLen),
         UvAxis(i as real + 1.0, count as real, pageLen, desiredLen))
  }

  /** The preview tile at column `x`, row `y` of a `cols` x `rows` grid. */
  function TileAt(x: int, y: int, cols: int, rows: int, pageSize: Vec2, desired: Vec2, disp: Vec2): PreviewTile
    requires pageSize.x > 0.0 && pageSize.y > 0.0
    requires desired.x > 0.0 && desired.y > 0.0
  {
    PreviewTile(
      RectOf(PageSpan(x, disp.x), PageSpan(y, disp.y)),
      RectOf(ImageSpan(x, cols, disp.x, Inset(cols, pageSize.x, desired.x, disp.x)),
             ImageSpan(y, rows, disp.y, Inset(rows, pageSize.y, desired.y, disp.y))),
      RectOf(UvSpan(x, cols, pageSize.x, desired.x), UvSpan(y, rows, pageSize.y, desired.y)))
  }

  /** Every entry `k` of `tiles` is the tile at column `k % cols` of row
      `k / cols`: the tiles are listed in row-major order. */
  predicate RowMajorTiles(tiles: seq<PreviewTile>, cols: int, rows: int, size: Vec2, desired: Vec2, disp: Vec2)
    requires cols >= 1
    requires size.x > 0.0 && size.y > 0.0
    requires desired.x > 0.0 && desired.y > 0.0
  {
    forall k | 0 <= k < |tiles| :: tiles[k] == TileAt(k % cols, k / cols, cols, rows, size, desired, disp)
  }

  /** Appending the tile at the next row-major position keeps the order. */
  lemma AppendTile(tiles: seq<PreviewTile>, x: int, y: int, cols: int, rows: int, size: Vec2, desired: Vec2, disp: Vec2)
    requires 0 <= x < cols && 0 <= y && |tiles| == y * cols + x
    requires size.x > 0.0 && size.y > 0.0
    requires desired.x > 0.0 && desired.y > 0.0
    requires RowMajorTiles(tiles, cols, rows, size, desired, disp)
    ensures RowMajorTiles(tiles + [TileAt(x, y, cols, rows, size, desired, disp)], cols, rows, size, desired, disp)
  {
    RowMajor(x, y, cols);
  }

  /** The whole preview: `disp` is the fitted display page size and `tiles`
      lists every tile of the grid in row-major order. */
  predicate IsPreviewLayout(area: Vec2, page: Page, desired: Vec2, disp: Vec2, tiles: seq<PreviewTile>)
    requires desired.x > 0.0 && desired.y > 0.0
  {
    var size := Size(page);
    var cols := PageCount(desired.x, size.x);
    var rows := PageCount(desired.y, size.y);
    FitsDrawArea(area, cols, rows, size, disp)
    && |tiles| == cols * rows
    && RowMajorTiles(tiles, cols, rows, size, desired, disp)
  }

  /** The page, image and UV rectangles of the tile at column `x`, row `y`,
      given the display page size and the insets of the outer pages. */
  method LayoutTile(x: int, y: int, cols: int, rows: int, size: Vec2, desired: Vec2, disp: Vec2,
                    offsetHorizontal: real, offsetVertical: real) returns (tile: PreviewTile)
    requires size.x > 0.0 && size.y > 0.0
    requires desired.x > 0.0 && desired.y > 0.0
    requires offsetHorizontal == Inset(cols, size.x, desired.x, disp.x)
    requires offsetVertical == Inset(rows, size.y, desired.y, disp.y)
    ensures tile == TileAt(x, y, cols, rows, size, desired, disp)
  {
    var displayPageStart := Vec2(x as real * (disp.x + disp.x * MarginFrac),
                                 y as real * (disp.y + disp.y * MarginFrac));
    var displayPageEnd := Vec2(x as real * (disp.x + disp.x * MarginFrac) + disp.x,
                               y as real * (disp.y + disp.y * MarginFrac) + disp.y);
    assert Rect(displayPageStart, displayPageEnd) == RectOf(PageSpan(x, disp.x), PageSpan(y, disp.y));
    var imageStart, imageEnd := displayPageStart, displayPageEnd;
    if y == 0 {
      imageStart := imageStart.(y := imageStart.y + offsetVertical);
    }
    if x == 0 {
      imageStart := imageStart.(x := imageStart.x + offsetHorizontal);
    }
    assert imageStart == Vec2(ImageSpan(x, cols, disp.x, offsetHorizontal).lo,
                              ImageSpan(y, rows, disp.y, offsetVertical).lo);
    if y == rows - 1 {
      imageEnd := imageEnd.(y := imageEnd.y - offsetVertical);
    }
    if x == cols - 1 {
      imageEnd := imageEnd.(x := imageEnd.x - offsetHorizontal);
    }
    assert imageEnd == Vec2(ImageSpan(x, cols, disp.x, offsetHorizontal).hi,
                            ImageSpan(y, rows, disp.y, offsetVertical).hi);
    var pageCount := Vec2(cols as real, rows as real);
    var prevUv := UvOffset(Vec2(x as real, y as real), pageCount, size, desired);
    var uv := UvOffset(Vec2(x as real + 1.0, y as real + 1.0), pageCount, size, desired);
    assert Rect(prevUv, uv) == RectOf(UvSpan(x, cols, size.x, desired.x), UvSpan(y, rows, size.y, desired.y));
    tile := PreviewTile(Rect(displayPageStart, displayPageEnd), Rect(imageStart, imageEnd), Rect(prevUv, uv));
  }

  /** Lays out the preview of a poster of size `desired` on pages of format
      `page` in a draw area of size `area`. */
  method PreviewLayout(area: Vec2, page: Page, desired: Vec2) returns (disp: Vec2, tiles: seq<PreviewTile>)
    requires area.x >= 0.0 && area.y >= 0.0
    requires desired.x > 0.0 && desired.y > 0.0
    ensures IsPreviewLayout(area, page, desired, disp, tiles)
  {
    var size := Size(page);
    var pageCountHorizontal := PageCount(desired.x, size.x);
    var pageCountVertical := PageCount(desired.y, size.y);
    disp := FitPage(area, pageCountHorizontal, pageCountVertical, size);
    var offsetVertical := Inset(pageCountVertical, size.y, desired.y, disp.y);
    var offsetHorizontal := Inset(pageCountHorizontal, size.x, desired.x, disp.x);
    tiles := [];
    var y := 0;
    while y < pageCountVertical
      invariant 0 <= y <= pageCountVertical
      invariant |tiles| == y * pageCountHorizontal
      invariant RowMajorTiles(tiles, pageCountHorizontal, pageCountVertical, size, desired, disp)
    {
      var x := 0;
      while x < pageCountHorizontal
        invariant 0 <= x <= pageCountHorizontal
        invariant |tiles| == y * pageCountHorizontal + x
        invariant RowMajorTiles(tiles, pageCountHorizontal, pageCountVertical, size, desired, disp)
      {
        var tile := LayoutTile(x, y, pageCountHorizontal, pageCountVertical, size, desired, disp,
                               offsetHorizontal, offsetVertical);
        AppendTile(tiles, x, y, pageCountHorizontal, pageCountVertical, size, desired, disp);
        tiles := tiles + [tile];
        x := x + 1;
      }
      assert |tiles| == (y + 1) * pageCountHorizontal;
      y := y + 1;
    }
  }

  /** The inset is the overhang fraction of a page, in display units. */
  lemma InsetIsOverhang(count: int, pageLen: real, desiredLen: real, dispLen: real)
    requires pageLen > 0.0
    ensures Inset(count, pageLen, desiredLen, dispLen)
         == OverhangFraction(count, pageLen, desiredLen) * dispLen
    ensures Inset(count, pageLen, desiredLen, dispLen) * pageLen
         == (count as real * pageLen - desiredLen) / 2.0 * dispLen
  {
  }

  /** Along one axis, the image of page `i` lies inside that page and is
      never reversed, because the inset is less than half a page. */
  lemma ImageInsidePage(i: int, count: int, pageLen: real, desiredLen: real, dispLen: real)
    requires pageLen > 0.0 && desiredLen > 0.0 && dispLen >= 0.0
    requires count == PageCount(desiredLen, pageLen) && 0 <= i < count
    ensures var s := PageSpan(i, dispLen);
            var im := ImageSpan(i, count, dispLen, Inset(count, pageLen, desiredLen, dispLen));
            s.lo <= im.lo <= im.hi <= s.hi
  {
    var f := OverhangFraction(count, pageLen, desiredLen);
    OverhangBounds(count, pageLen, desiredLen);
    InsetIsOverhang(count, pageLen, desiredLen, dispLen);
    ScaleWeak(0.0, f, dispLen);
    ScaleWeak(f, 0.5, dispLen);
  }

  /** The first UV coordinate of tile `i`, in inches of the desired
      length: 0 on the first page, where the page begins on the poster on
      every other page. */
  lemma UvLoInches(i: int, count: int, pageLen: real, desiredLen: real)
    requires pageLen > 0.0 && desiredLen > 0.0
    requires count == PageCount(desiredLen, pageLen) && 0 <= i < count
    ensures i == 0 ==> UvSpan(i, count, pageLen, desiredLen).lo * desiredLen == 0.0
    ensures i != 0 ==>
              UvSpan(i, count, pageLen, desiredLen).lo * desiredLen
              == PosterPosition(i as real, count as real, pageLen, desiredLen)
  {
    UvCornerTimesDesired(i, i as real, count, pageLen, desiredLen);
  }

  /** The last UV coordinate of tile `i`, in inches of the desired length:
      the whole length on the last page, where the page ends on the poster
      on every other page. */
  lemma UvHiInches(i: int, count: int, pageLen: real, desiredLen: real)
    requires pageLen > 0.0 && desiredLen > 0.0
    requires count == PageCount(desiredLen, pageLen) && 0 <= i < count
    ensures i == count - 1 ==> UvSpan(i, count, pageLen, desiredLen).hi * desiredLen == desiredLen
    ensures i == count - 1 ==>
              UvSpan(i, count, pageLen, desiredLen).hi * desiredLen
              == PosterPosition(i as real, count as real, pageLen, desiredLen) + pageLen
                 - (count as real * pageLen - desiredLen) / 2.0
    ensures i != count - 1 ==>
              UvSpan(i, count, pageLen, desiredLen).hi * desiredLen
              == PosterPosition(i as real, count as real, pageLen, desiredLen) + pageLen
  {
    UvCornerTimesDesired(i + 1, i as real + 1.0, count, pageLen, desiredLen);
    assert pageLen * (i as real + 1.0) == pageLen * (i as real) + pageLen;
    if i == count - 1 {
      LastPageEnd(i, count, pageLen, desiredLen);
    }
  }

  /** Where the image drawn on page `i` starts, relative to the page's start. */
  lemma ImageSpanLo(i: int, count: int, len: real, inset: real)
    ensures ImageSpan(i, count, len, inset).lo - PageSpan(i, len).lo == if i == 0 then inset else 0.0
  {
  }

  /** Where the image drawn on page `i` ends, relative to the page's start. */
  lemma ImageSpanHi(i: int, count: int, len: real, inset: real)
    ensures ImageSpan(i, count, len, inset).hi - PageSpan(i, len).lo
         == if i == count - 1 then len - inset else len
  {
  }

  /** The last page ends on the poster one overhang past the desired length. */
  lemma LastPageEnd(i: int, count: int, pageLen: real, desiredLen: real)
    requires i == count - 1
    ensures PosterPosition(i as real, count as real, pageLen, desiredLen) + pageLen
            - (count as real * pageLen - desiredLen) / 2.0 == desiredLen
  {
    assert pageLen * (i as real) == count as real * pageLen - pageLen;
  }

  /** Along one axis, the start of the image drawn on page `i`, measured
      from the start of the page and converted from display units to
      inches, is the poster position of the tile's first UV coordinate
      relative to where the page begins on the poster. */
  lemma ImageLoOnPoster(i: int, count: int, pageLen: real, desiredLen: real, dispLen: real, inset: real)
    requires pageLen > 0.0 && desiredLen > 0.0
    requires count == PageCount(desiredLen, pageLen) && 0 <= i < count
    requires inset * pageLen == (count as real * pageLen - desiredLen) / 2.0 * dispLen
    ensures (ImageSpan(i, count, dispLen, inset).lo - PageSpan(i, dispLen).lo) * pageLen
         == (UvSpan(i, count, pageLen, desiredLen).lo * desiredLen
             - PosterPosition(i as real, count as real, pageLen, desiredLen)) * dispLen
  {
    UvLoInches(i, count, pageLen, desiredLen);
    ImageSpanLo(i, count, dispLen, inset);
    LoAlgebra(i, count, pageLen, desiredLen, dispLen, inset,
              UvSpan(i, count, pageLen, desiredLen).lo * desiredLen,
              ImageSpan(i, count, dispLen, inset).lo - PageSpan(i, dispLen).lo);
  }

  /** Along one axis, the end of the image drawn on page `i`, measured the
      same way, is the poster position of the tile's last UV coordinate
      relative to where the page begins on the poster. */
  lemma ImageHiOnPoster(i: int, count: int, pageLen: real, desiredLen: real, dispLen: real, inset: real)
    requires pageLen > 0.0 && desiredLen > 0.0
    requires count == PageCount(desiredLen, pageLen) && 0 <= i < count
    requires inset * pageLen == (count as real * pageLen - desiredLen) / 2.0 * dispLen
    ensures (ImageSpan(i, count, dispLen, inset).hi - PageSpan(i, dispLen).lo) * pageLen
         == (UvSpan(i, count, pageLen, desiredLen).hi * desiredLen
             - PosterPosition(i as real, count as real, pageLen, desiredLen)) * dispLen
  {
    UvHiInches(i, count, pageLen, desiredLen);
    HiAlgebra(i, count, pageLen, desiredLen, dispLen, inset,
              UvSpan(i, count, pageLen, desiredLen).hi * desiredLen,
              ImageSpan(i, count, dispLen, inset).hi - PageSpan(i, dispLen).lo);
  }

  /** The algebra behind `ImageLoOnPoster`: `uvD` is the first UV coordinate
      in inches and `w` where the image starts in the page; on the first
      page the image starts `inset` display units, that is the overhang in
      inches, into the page. */
  lemma LoAlgebra(i: int, count: int, pageLen: real, desiredLen: real, dispLen: real, inset: real,
                  uvD: real, w: real)
    requires inset * pageLen == (count as real * pageLen - desiredLen) / 2.0 * dispLen
    requires i == 0 ==> uvD == 0.0
    requires i != 0 ==> uvD == PosterPosition(i as real, count as real, pageLen, desiredLen)
    requires w == if i == 0 then inset else 0.0
    ensures w * pageLen == (uvD - PosterPosition(i as real, count as real, pageLen, desiredLen)) * dispLen
  {
    if i == 0 {
      assert pageLen * (i as real) == 0.0;
    }
  }

  /** The algebra behind `ImageHiOnPoster`: `uvD` is the last UV coordinate
      in inches and `w` where the image ends in the page; on the last page
      the image stops `inset` display units, that is the overhang in
      inches, before the page ends. */
  lemma HiAlgebra(i: int, count: int, pageLen: real, desiredLen: real, dispLen: real, inset: real,
                  uvD: real, w: real)
    requires inset * pageLen == (count as real * pageLen - desiredLen) / 2.0 * dispLen
    requires i == count - 1 ==> uvD == PosterPosition(i as real, count as real, pageLen, desiredLen) + pageLen
                                     - (count as real * pageLen - desiredLen) / 2.0
    requires i != count - 1 ==> uvD == PosterPosition(i as real, count as real, pageLen, desiredLen) + pageLen
    requires w == if i == count - 1 then dispLen - inset else dispLen
    ensures w * pageLen == (uvD - PosterPosition(i as real, count as real, pageLen, desiredLen)) * dispLen
  {
    var off := (count as real * pageLen - desiredLen) / 2.0;
    if i == count - 1 {
      assert (dispLen - inset) * pageLen == dispLen * pageLen - inset * pageLen;
      assert (pageLen - off) * dispLen == pageLen * dispLen - off * dispLen;
    }
  }

  /** Along one axis, a page shows its part of the image in place: both
      ends of the image drawn on it, taken relative to the page start and
      converted from display units to inches (`pageLen / dispLen`), are the
      poster positions of the UV interval's ends relative to `start`, where
      the page begins on the poster. */
  predicate InPlace(page: Span, image: Span, uv: Span, start: real,
                    pageLen: real, desiredLen: real, dispLen: real)
  {
    (image.lo - page.lo) * pageLen == (uv.lo * desiredLen - start) * dispLen
    && (image.hi - page.lo) * pageLen == (uv.hi * desiredLen - start) * dispLen
  }

  /** The horizontal extent of a rectangle. */
  function XOf(r: Rect): Span
  {
    Span(r.min.x, r.max.x)
  }

  /** The vertical extent of a rectangle. */
  function YOf(r: Rect): Span
  {
    Span(r.min.y, r.max.y)
  }

  /** `InPlace` for page `i`, for any inset equal to the overhang. */
  lemma ImageInPlace(i: int, count: int, pageLen: real, desiredLen: real, dispLen: real, inset: real)
    requires pageLen > 0.0 && desiredLen > 0.0
    requires count == PageCount(desiredLen, pageLen) && 0 <= i < count
    requires inset * pageLen == (count as real * pageLen - desiredLen) / 2.0 * dispLen
    ensures InPlace(PageSpan(i, dispLen), ImageSpan(i, count, dispLen, inset),
                    UvSpan(i, count, pageLen, desiredLen), PosterPosition(i as real, count as real, pageLen, desiredLen),
                    pageLen, desiredLen, dispLen)
  {
    ImageLoOnPoster(i, count, pageLen, desiredLen, dispLen, inset);
    ImageHiOnPoster(i, count, pageLen, desiredLen, dispLen, inset);
  }

  /** Along one axis, page `i` of the preview shows its part of the image
      in place. */
  lemma AxisInPlace(i: int, count: int, pageLen: real, desiredLen: real, dispLen: real)
    requires pageLen > 0.0 && desiredLen > 0.0
    requires count == PageCount(desiredLen, pageLen) && 0 <= i < count
    ensures InPlace(PageSpan(i, dispLen), ImageSpan(i, count, dispLen, Inset(count, pageLen, desiredLen, dispLen)),
                    UvSpan(i, count, pageLen, desiredLen), PosterPosition(i as real, count as real, pageLen, desiredLen),
                    pageLen, desiredLen, dispLen)
  {
    InsetIsOverhang(count, pageLen, desiredLen, dispLen);
    ImageInPlace(i, count, pageLen, desiredLen, dispLen, Inset(count, pageLen, desiredLen, dispLen));
  }

  /** Every tile of the preview shows its part of the image in place on
      both axes: all tiles draw the image at one scale, `disp / size`
      display units per inch, without distortion, each part where it
      belongs on the poster. */
  lemma TileInPlace(x: int, y: int, cols: int, rows: int, size: Vec2, desired: Vec2, disp: Vec2)
    requires size.x > 0.0 && size.y > 0.0
    requires desired.x > 0.0 && desired.y > 0.0
    requires cols == PageCount(desired.x, size.x) && rows == PageCount(desired.y, size.y)
    requires 0 <= x < cols && 0 <= y < rows
    ensures InPlace(XOf(TileAt(x, y, cols, rows, size, desired, disp).page),
                    XOf(TileAt(x, y, cols, rows, size, desired, disp).image),
                    XOf(TileAt(x, y, cols, rows, size, desired, disp).uv),
                    PosterPosition(x as real, cols as real, size.x, desired.x), size.x, desired.x, disp.x)
    ensures InPlace(YOf(TileAt(x, y, cols, rows, size, desired, disp).page),
                    YOf(TileAt(x, y, cols, rows, size, desired, disp).image),
                    YOf(TileAt(x, y, cols, rows, size, desired, disp).uv),
                    PosterPosition(y as real, rows as real, size.y, desired.y), size.y, desired.y, disp.y)
  {
    AxisInPlace(x, cols, size.x, desired.x, disp.x);
    AxisInPlace(y, rows, size.y, desired.y, disp.y);
  }

  /** Along one axis, page `i` of a grid of `count` pages starts at or after
      the start of the grid and ends within its extent. */
  lemma PageSpanInGrid(i: int, count: int, len: real)
    requires 0 <= i < count && len >= 0.0
    ensures 0.0 <= PageSpan(i, len).lo
    ensures PageSpan(i, len).hi <= GridExtent(count, len)
  {
    var step := len + len * MarginFrac;
    ScaleWeak(0.0, i as real, step);
    ScaleWeak(i as real, (count - 1) as real, step);
    assert GridExtent(count, len) == (count - 1) as real * step + len;
  }

  /** Neighbouring tiles share their UV seam exactly, and neighbouring pages
      are separated by a gap of exactly one margin. */
  lemma AdjacentTiles(x: int, y: int, cols: int, rows: int, size: Vec2, desired: Vec2, disp: Vec2)
    requires size.x > 0.0 && size.y > 0.0
    requires desired.x > 0.0 && desired.y > 0.0
    ensures TileAt(x, y, cols, rows, size, desired, disp).uv.max.x
         == TileAt(x + 1, y, cols, rows, size, desired, disp).uv.min.x
    ensures TileAt(x, y, cols, rows, size, desired, disp).uv.max.y
         == TileAt(x, y + 1, cols, rows, size, desired, disp).uv.min.y
    ensures TileAt(x, y, cols, rows, size, desired, disp).page.max.x + disp.x * MarginFrac
         == TileAt(x + 1, y, cols, rows, size, desired, disp).page.min.x
    ensures TileAt(x, y, cols, rows, size, desired, disp).page.max.y + disp.y * MarginFrac
         == TileAt(x, y + 1, cols, rows, size, desired, disp).page.min.y
  {
    assert (x + 1) as real == x as real + 1.0;
    assert (y + 1) as real == y as real + 1.0;
  }

  /** Every tile's image rectangle lies inside its page rectangle. */
  lemma TileImageInsidePage(x: int, y: int, cols: int, rows: int, size: Vec2, desired: Vec2, disp: Vec2)
    requires size.x > 0.0 && size.y > 0.0
    requires desired.x > 0.0 && desired.y > 0.0
    requires disp.x >= 0.0 && disp.y >= 0.0
    requires cols == PageCount(desired.x, size.x) && rows == PageCount(desired.y, size.y)
    requires 0 <= x < cols && 0 <= y < rows
    ensures var t := TileAt(x, y, cols, rows, size, desired, disp);
            t.page.min.x <= t.image.min.x <= t.image.max.x <= t.page.max.x
            && t.page.min.y <= t.image.min.y <= t.image.max.y <= t.page.max.y
  {
    ImageInsidePage(x, cols, size.x, desired.x, disp.x);
    ImageInsidePage(y, rows, size.y, desired.y, disp.y);
  }

  /** With a fitted display size, every page rectangle lies inside the
      draw area. */
  lemma TileInsideDrawArea(area: Vec2, x: int, y: int, cols: int, rows: int, size: Vec2, desired: Vec2, disp: Vec2)
    requires size.x > 0.0 && size.y > 0.0
    requires desired.x > 0.0 && desired.y > 0.0
    requires FitsDrawArea(area, cols, rows, size, disp)
    requires 0 <= x < cols && 0 <= y < rows
    ensures var t := TileAt(x, y, cols, rows, size, desired, disp);
            0.0 <= t.page.min.x && t.page.max.x <= area.x
            && 0.0 <= t.page.min.y && t.page.max.y <= area.y
  {
    PageSpanInGrid(x, cols, disp.x);
    PageSpanInGrid(y, rows, disp.y);
  }
}
