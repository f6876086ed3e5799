/** The tiling geometry shared by the on-screen preview and the PDF export:
    the page formats, the number of pages per axis, the PDF image scale and
    the mapping from a grid corner to a normalised image (UV) coordinate.

    Lengths are in inches and are exact reals here; the application computes
    them in 32-bit floats, whose rounding this model does not follow. */
module Tiling {

  /** A pair of reals, used for sizes, positions and UV coordinates. */
  datatype Vec2 = Vec2(x: real, y: real)

  /** An axis-aligned rectangle given by its two corners. */
  datatype Rect = Rect(min: Vec2, max: Vec2)

  /** The selectable page formats. */
  datatype Page = Letter | A4 | Legal | Tabloid

  /** Physical size of a page format in inches (width, height). Every format
      is portrait and has positive sides, which every division below needs. */
  function Size(p: Page): (r: Vec2)
    ensures 0.0 < r.x < r.y
  {
    match p
    case A4 => Vec2(8.3, 11.7)
    case Legal => Vec2(8.5, 14.0)
    case Letter => Vec2(8.5, 11.0)
    case Tabloid => Vec2(11.0, 17.0)
  }

  /** The smallest integer that is not below `v`. */
  function Ceil(v: real): (n: int)
    ensures (n - 1) as real < v <= n as real
  {
    -((-v).Floor)
  }

  /** If `a < b` then scaling both by a positive factor keeps the order. */
  lemma ScaleStrict(a: real, b: real, c: real)
    requires a < b && c > 0.0
    ensures a * c < b * c
  {
  }

  /** If `a <= b` then scaling both by a non-negative factor keeps the order. */
  lemma ScaleWeak(a: real, b: real, c: real)
    requires a <= b && c >= 0.0
    ensures a * c <= b * c
  {
  }

  /** Dividing by a positive length keeps `a` at or above one when `a` is at
      least that length. */
  lemma DivAtLeastOne(a: real, d: real)
    requires 0.0 < d <= a
    ensures a / d >= 1.0
  {
    var q := a / d;
    assert q * d == a;
    if q < 1.0 {
      ScaleStrict(q, 1.0, d);
    }
  }

  /** Dividing a value strictly between 0 and `d` by `d` lands strictly
      between 0 and 1. */
  lemma DivBetween(a: real, d: real)
    requires 0.0 < a < d
    ensures 0.0 < a / d < 1.0
  {
    var q := a / d;
    assert q * d == a;
    if q >= 1.0 {
      ScaleWeak(1.0, q, d);
    }
  }

  /** Number of pages of length `printLen` needed along one axis to cover
      `desired`: the ceiling of their quotient. */
  function PageCount(desired: real, printLen: real): (n: int)
    requires printLen > 0.0
    ensures (n - 1) as real * printLen < desired <= n as real * printLen
    ensures desired > 0.0 ==> n >= 1
  {
    var n := Ceil(desired / printLen);
    CeilScaled(desired, printLen);
    n
  }

  /** The ceiling of `desired / printLen`, scaled back by `printLen`,
      brackets `desired`. */
  lemma CeilScaled(desired: real, printLen: real)
    requires printLen > 0.0
    ensures (Ceil(desired / printLen) - 1) as real * printLen < desired
    ensures desired <= Ceil(desired / printLen) as real * printLen
  {
    var q := desired / printLen;
    var n := Ceil(q);
    var m := (n - 1) as real;
    assert q * printLen == desired;
    ScaleStrict(m, q, printLen);
    assert m * printLen < desired;
    ScaleWeak(q, n as real, printLen);
  }

  /** An exact multiple of the page length needs exactly that many pages:
      no spurious extra column or row. */
  lemma PageCountExact(k: int, printLen: real)
    requires printLen > 0.0
    ensures PageCount(k as real * printLen, printLen) == k
  {
    var n := PageCount(k as real * printLen, printLen);
    var nr, kr := n as real, k as real;
    assert (n - 1) as real == nr - 1.0;
    assert (nr - 1.0) * printLen == nr * printLen - printLen;
    assert (kr - 1.0) * printLen == kr * printLen - printLen;
    if n < k {
      ScaleWeak(nr, kr - 1.0, printLen);
      assert false;
    } else if n > k {
      ScaleWeak(kr, nr - 1.0, printLen);
      assert false;
    }
  }

  /** A desired length that fits on one page needs exactly one page. */
  lemma PageCountOne(desired: real, printLen: real)
    requires 0.0 < desired <= printLen
    ensures PageCount(desired, printLen) == 1
  {
    var n := PageCount(desired, printLen);
    if n > 1 {
      ScaleWeak(1.0, (n - 1) as real, printLen);
      assert false;
    }
  }

  /** Length, in output units, of the whole desired image when one physical
      page of length `printLen` measures `pdfPage` output units: the image keeps
      the proportion desired : printLen = result : pdfPage. */
  function ImageScale(desired: real, printLen: real, pdfPage: real): (r: real)
    requires printLen > 0.0
    ensures r * printLen == desired * pdfPage
  {
    (desired / printLen) * pdfPage
  }

  /** With `pdfPage` at 72 points per inch the image measures `desired * 72`
      points whatever the page format. */
  lemma ImageScaleAt72(desired: real, printLen: real)
    requires printLen > 0.0
    ensures ImageScale(desired, printLen, printLen * 72.0) == desired * 72.0
  {
    var r := ImageScale(desired, printLen, printLen * 72.0);
    assert r * printLen == (desired * 72.0) * printLen;
    if r < desired * 72.0 {
      ScaleStrict(r, desired * 72.0, printLen);
    } else if r > desired * 72.0 {
      ScaleStrict(desired * 72.0, r, printLen);
    }
  }

  /** The value clamped into [0, 1]. */
  function Clamp01(v: real): (r: real)
    ensures 0.0 <= r <= 1.0
    ensures 0.0 <= v <= 1.0 ==> r == v
    ensures v < 0.0 ==> r == 0.0
    ensures v > 1.0 ==> r == 1.0
  {
    if v < 0.0 then 0.0 else if v > 1.0 then 1.0 else v
  }

  /** Where grid corner `index` lies along one axis, in inches from the
      start of the image. The tiled canvas of `count` pages is centred over
      the desired length, so it overhangs by half the excess on each side and
      the first corner is negative when the canvas overhangs. */
  function PosterPosition(index: real, count: real, pageLen: real, desiredLen: real): real
  {
    pageLen * index - (count * pageLen - desiredLen) / 2.0
  }

  /** Unclamped UV coordinate of grid corner `index` along one axis: its
      poster position as a fraction of the desired length. */
  function RawUv(index: real, count: real, pageLen: real, desiredLen: real): real
    requires desiredLen > 0.0
  {
    PosterPosition(index, count, pageLen, desiredLen) / desiredLen
  }

  /** The UV coordinate of grid corner `index` along one axis. */
  function UvAxis(index: real, count: real, pageLen: real, desiredLen: real): (r: real)
    requires desiredLen > 0.0
    ensures 0.0 <= r <= 1.0
  {
    Clamp01(RawUv(index, count, pageLen, desiredLen))
  }

  /** Maps grid corner `page` (column, row) to the normalised image point it
      shows, component-wise; the result always lies in the unit square. */
  function UvOffset(page: Vec2, pageCount: Vec2, pageSize: Vec2, desiredSize: Vec2): (r: Vec2)
    requires desiredSize.x > 0.0 && desiredSize.y > 0.0
    ensures 0.0 <= r.x <= 1.0 && 0.0 <= r.y <= 1.0
  {
    Vec2(UvAxis(page.x, pageCount.x, pageSize.x, desiredSize.x),
         UvAxis(page.y, pageCount.y, pageSize.y, desiredSize.y))
  }

  /** The unclamped UV scaled back by the desired length is the corner's
      distance, in inches, from the start of the desired area. */
  lemma RawUvTimesDesired(index: real, count: real, pageLen: real, desiredLen: real)
    requires desiredLen > 0.0
    ensures RawUv(index, count, pageLen, desiredLen) * desiredLen
         == PosterPosition(index, count, pageLen, desiredLen)
  {
  }

  /** Before clamping, consecutive grid corners are exactly one page length
      of the image apart: `pageLen / desiredLen`. */
  lemma UvStep(index: real, count: real, pageLen: real, desiredLen: real)
    requires desiredLen > 0.0
    ensures RawUv(index + 1.0, count, pageLen, desiredLen)
         == RawUv(index, count, pageLen, desiredLen) + pageLen / desiredLen
  {
    var off := (count * pageLen - desiredLen) / 2.0;
    calc {
      RawUv(index + 1.0, count, pageLen, desiredLen);
      (pageLen * index + pageLen - off) / desiredLen;
      (pageLen * index - off) / desiredLen + pageLen / desiredLen;
    }
  }

  /** UV coordinates never decrease along a row or column of corners. */
  lemma UvMonotone(i: real, j: real, count: real, pageLen: real, desiredLen: real)
    requires desiredLen > 0.0 && pageLen > 0.0 && i <= j
    ensures UvAxis(i, count, pageLen, desiredLen) <= UvAxis(j, count, pageLen, desiredLen)
  {
    var off := (count * pageLen - desiredLen) / 2.0;
    ScaleWeak(i, j, pageLen);
    ScaleWeak(pageLen * i - off, pageLen * j - off, 1.0 / desiredLen);
  }

  /** With the page count computed for the desired length, the first corner
      maps to 0 and the last to 1: the grid covers the whole image. */
  lemma UvCoverage(count: int, pageLen: real, desiredLen: real)
    requires desiredLen > 0.0 && pageLen > 0.0
    requires count == PageCount(desiredLen, pageLen)
    ensures UvAxis(0.0, count as real, pageLen, desiredLen) == 0.0
    ensures UvAxis(count as real, count as real, pageLen, desiredLen) == 1.0
  {
    var c := count as real;
    var off := (c * pageLen - desiredLen) / 2.0;
    assert off >= 0.0;
    assert RawUv(0.0, c, pageLen, desiredLen) == -off / desiredLen;
    assert RawUv(c, c, pageLen, desiredLen) == (c * pageLen - off) / desiredLen;
    assert c * pageLen - off == desiredLen + off;
    DivAtLeastOne(desiredLen + off, desiredLen);
  }

  /** Corner `i` strictly inside a grid of `count` pages of length `p`,
      whose canvas overhangs the desired length `d` by less than a page,
      lies strictly inside the desired length once the canvas is centred:
      it is at least one page from either end of the canvas. */
  lemma InteriorPosition(i: int, count: int, p: real, d: real) returns (num: real)
    requires 0 < i < count && p > 0.0 && d > 0.0
    requires (count - 1) as real * p < d
    ensures num == PosterPosition(i as real, count as real, p, d)
    ensures 0.0 < num < d
  {
    var c, ir := count as real, i as real;
    var a, b := p * ir, c * p;
    assert 1.0 <= ir <= c - 1.0;
    ScaleWeak(1.0, ir, p);
    ScaleWeak(ir, c - 1.0, p);
    assert (c - 1.0) * p == b - p;
    assert p <= a <= b - p;
    assert b - p < d;
    num := a - (b - d) / 2.0;
  }

  /** Every corner strictly inside the grid maps to a UV strictly between 0
      and 1, so it is not clamped. */
  lemma UvInterior(i: int, count: int, pageLen: real, desiredLen: real)
    requires desiredLen > 0.0 && pageLen > 0.0
    requires count == PageCount(desiredLen, pageLen)
    requires 0 < i < count
    ensures 0.0 < RawUv(i as real, count as real, pageLen, desiredLen) < 1.0
    ensures UvAxis(i as real, count as real, pageLen, desiredLen)
         == RawUv(i as real, count as real, pageLen, desiredLen)
  {
    var num := InteriorPosition(i, count, pageLen, desiredLen);
    DivBetween(num, desiredLen);
    assert RawUv(i as real, count as real, pageLen, desiredLen) == num / desiredLen;
  }

  /** Grid corner `j`, as a distance in inches from the start of the desired
      area: 0 for the first corner, the whole desired length for the last,
      and the unclamped position for every corner in between. */
  lemma UvCornerTimesDesired(j: int, index: real, count: int, pageLen: real, desiredLen: real)
    requires desiredLen > 0.0 && pageLen > 0.0
    requires count == PageCount(desiredLen, pageLen)
    requires 0 <= j <= count && index == j as real
    ensures j == 0 ==> UvAxis(index, count as real, pageLen, desiredLen) * desiredLen == 0.0
    ensures j == count ==> UvAxis(index, count as real, pageLen, desiredLen) * desiredLen == desiredLen
    ensures 0 < j < count ==> UvAxis(index, count as real, pageLen, desiredLen) * desiredLen
                              == PosterPosition(index, count as real, pageLen, desiredLen)
  {
    if j == 0 || j == count {
      UvCoverage(count, pageLen, desiredLen);
    } else {
      UvInterior(j, count, pageLen, desiredLen);
      RawUvTimesDesired(index, count as real, pageLen, desiredLen);
    }
  }

  /** Every tile of the grid shows a non-empty strip of the image. */
  lemma UvTileNonEmpty(i: int, count: int, pageLen: real, desiredLen: real)
    requires desiredLen > 0.0 && pageLen > 0.0
    requires count == PageCount(desiredLen, pageLen)
    requires 0 <= i < count
    ensures UvAxis(i as real, count as real, pageLen, desiredLen)
          < UvAxis((i + 1) as real, count as real, pageLen, desiredLen)
  {
    var c := count as real;
    UvCoverage(count, pageLen, desiredLen);
    UvStep(i as real, c, pageLen, desiredLen);
    assert pageLen / desiredLen > 0.0;
    if 0 < i {
      UvInterior(i, count, pageLen, desiredLen);
    }
    if i + 1 < count {
      UvInterior(i + 1, count, pageLen, desiredLen);
    }
  }

  /** A desired size that fits on one page gives a 1x1 grid whose single
      tile shows the whole image, (0,0)-(1,1). */
  lemma SingleTile(desired: Vec2, page: Page)
    requires 0.0 < desired.x <= Size(page).x && 0.0 < desired.y <= Size(page).y
    ensures PageCount(desired.x, Size(page).x) == 1
    ensures PageCount(desired.y, Size(page).y) == 1
    ensures UvOffset(Vec2(0.0, 0.0), Vec2(1.0, 1.0), Size(page), desired) == Vec2(0.0, 0.0)
    ensures UvOffset(Vec2(1.0, 1.0), Vec2(1.0, 1.0), Size(page), desired) == Vec2(1.0, 1.0)
  {
    var s := Size(page);
    PageCountOne(desired.x, s.x);
    PageCountOne(desired.y, s.y);
    UvCoverage(1, s.x, desired.x);
    UvCoverage(1, s.y, desired.y);
  }

  /** Fraction of an edge page, per side, that lies outside the desired
      length once the grid is centred: `(count * page - desired) / (2 * page)`. */
  function OverhangFraction(count: int, pageLen: real, desiredLen: real): real
    requires pageLen > 0.0
  {
    (count as real * pageLen - desiredLen) / (2.0 * pageLen)
  }

  /** The overhang is never negative and always less than half a page, so
      the blank margin of an edge page never reaches the middle of it. */
  lemma OverhangBounds(count: int, pageLen: real, desiredLen: real)
    requires desiredLen > 0.0 && pageLen > 0.0
    requires count == PageCount(desiredLen, pageLen)
    ensures 0.0 <= OverhangFraction(count, pageLen, desiredLen) < 0.5
  {
    var excess := count as real * pageLen - desiredLen;
    assert 0.0 <= excess < pageLen;
    assert OverhangFraction(count, pageLen, desiredLen) * (2.0 * pageLen) == excess;
  }

  /** Position `k` of a row-major sequence of `cols`-wide rows holds column
      `k % cols` of row `k / cols`. */
  lemma RowMajor(x: int, y: int, cols: int)
    requires 0 <= x < cols && 0 <= y
    ensures (y * cols + x) / cols == y && (y * cols + x) % cols == x
  {
    var k := y * cols + x;
    var q, r := k / cols, k % cols;
    assert k == q * cols + r && 0 <= r < cols;
    assert (q - y) * cols == x - r;
    if q - y >= 1 {
      MulAtLeast(q - y, cols);
      assert false;
    } else if q - y <= -1 {
      MulAtLeast(y - q, cols);
      assert false;
    }
  }

  /** A positive multiple of `b` is at least `b`. */
  lemma MulAtLeast(a: int, b: int)
    requires a >= 1 && b >= 0
    ensures a * b >= b
  {
  }
}
