/** The application state behind the side panel: the desired poster size
    (always stored in inches), the display units, the page format, the
    aspect-ratio lock and the loaded image, with the slider, check box,
    combo box and button handlers that change it. */
module Session {
  import opened Tiling
  import opened Preview
  import opened PdfExport

  /** The units the size sliders display. */
  datatype Units = Inches | Centimeters

  /** Centimetres per inch. */
  const CmPerInch: real := 2.54

  /** The range of both size sliders, in display units. */
  const SliderMin: real := 0.1
  const SliderMax: real := 100.0

  /** The pixel dimensions of a decoded image. */
  datatype ImageInfo = ImageInfo(width: nat, height: nat)

  datatype Option<T> = None | Some(value: T)

  /** A slider value in display units, converted to the inches the state
      stores. */
  function ToInches(val: real, units: Units): (r: real)
    ensures val > 0.0 ==> r > 0.0
    ensures units == Inches ==> r == val
    ensures units == Centimeters ==> r * CmPerInch == val
  {
    match units
    case Inches => val
    case Centimeters => val / CmPerInch
  }

  /** A stored length in inches, converted to the display units the slider
      shows. */
  function FromInches(inches: real, units: Units): (r: real)
    ensures inches > 0.0 ==> r > 0.0
  {
    match units
    case Inches => inches
    case Centimeters => inches * CmPerInch
  }

  /** The factor the page-format labels are scaled by to show them in the
      current units. */
  function Multiplier(units: Units): (r: real)
    ensures r >= 1.0
  {
    match units
    case Inches => 1.0
    case Centimeters => CmPerInch
  }

  /** Displaying a stored length is scaling it by the label multiplier, so
      the sliders and the page-format labels use the same units. */
  lemma FromInchesIsMultiplier(inches: real, units: Units)
    ensures FromInches(inches, units) == inches * Multiplier(units)
  {
  }

  /** A value set through a slider reads back unchanged. */
  lemma SliderRoundTrip(val: real, units: Units)
    ensures FromInches(ToInches(val, units), units) == val
  {
  }

  /** A stored length shown by a slider and set back is unchanged. */
  lemma InchesRoundTrip(inches: real, units: Units)
    ensures ToInches(FromInches(inches, units), units) == inches
  {
  }

  /** The other side of the poster that keeps the image's aspect ratio
      `num : den` for a side of `side` inches. */
  function Proportional(side: real, num: nat, den: nat): (r: real)
    requires den > 0
    ensures r * den as real == side * num as real
    ensures side > 0.0 && num > 0 ==> r > 0.0
  {
    side * num as real / den as real
  }

  class App {
    var desiredWidth: real
    var desiredHeight: real
    var units: Units
    var pageSize: Page
    var maintainAspectRatio: bool
    var image: Option<ImageInfo>

    /** Both desired sides are positive and a loaded image has positive
        dimensions. */
    ghost predicate Valid()
      reads this
    {
      desiredWidth > 0.0 && desiredHeight > 0.0
      && (image.Some? ==> image.value.width > 0 && image.value.height > 0)
    }

    /** The state at start-up. */
    constructor ()
      ensures Valid()
      ensures desiredWidth == 8.26 && desiredHeight == 15.0
      ensures units == Inches && pageSize == Letter
      ensures !maintainAspectRatio && image == None
    {
      desiredWidth := 8.26;
      desiredHeight := 15.0;
      units := Inches;
      pageSize := Letter;
      maintainAspectRatio := false;
      image := None;
    }

    /** The value the width slider shows. */
    function DesiredWidthValue(): (r: real)
      reads this
      ensures ToInches(r, units) == desiredWidth
    {
      InchesRoundTrip(desiredWidth, units);
      FromInches(desiredWidth, units)
    }

    /** The value the height slider shows. */
    function DesiredHeightValue(): (r: real)
      reads this
      ensures ToInches(r, units) == desiredHeight
    {
      InchesRoundTrip(desiredHeight, units);
      FromInches(desiredHeight, units)
    }

    /** The width slider moved to `val`: the width is stored in inches and,
        with the aspect ratio locked and an image loaded, the height follows
        the image's proportions. The slider shows `val` back. */
    method SetDesiredWidth(val: real) returns (shown: real)
      requires Valid() && SliderMin <= val <= SliderMax
      modifies this
      ensures Valid()
      ensures shown == val && DesiredWidthValue() == val
      ensures desiredWidth == ToInches(val, units)
      ensures maintainAspectRatio && image.Some? ==>
                desiredHeight * image.value.width as real == desiredWidth * image.value.height as real
      ensures !(maintainAspectRatio && image.Some?) ==> desiredHeight == old(desiredHeight)
      ensures units == old(units) && pageSize == old(pageSize)
      ensures maintainAspectRatio == old(maintainAspectRatio) && image == old(image)
    {
      desiredWidth := match units
        case Inches => val
        case Centimeters => val / CmPerInch;
      if maintainAspectRatio && image.Some? {
        desiredHeight := Proportional(desiredWidth, image.value.height, image.value.width);
      }
      SliderRoundTrip(val, units);
      shown := val;
    }

    /** The height slider moved to `val`: the mirror image of
        `SetDesiredWidth`. */
    method SetDesiredHeight(val: real) returns (shown: real)
      requires Valid() && SliderMin <= val <= SliderMax
      modifies this
      ensures Valid()
      ensures shown == val && DesiredHeightValue() == val
      ensures desiredHeight == ToInches(val, units)
      ensures maintainAspectRatio && image.Some? ==>
                desiredWidth * image.value.height as real == desiredHeight * image.value.width as real
      ensures !(maintainAspectRatio && image.Some?) ==> desiredWidth == old(desiredWidth)
      ensures units == old(units) && pageSize == old(pageSize)
      ensures maintainAspectRatio == old(maintainAspectRatio) && image == old(image)
    {
      desiredHeight := match units
        case Inches => val
        case Centimeters => val / CmPerInch;
      if maintainAspectRatio && image.Some? {
        desiredWidth := Proportional(desiredHeight, image.value.width, image.value.height);
      }
      SliderRoundTrip(val, units);
      shown := val;
    }

    /** The units combo box: only the display changes, the stored size in
        inches does not. */
    method SetUnits(u: Units)
      requires Valid()
      modifies this
      ensures Valid()
      ensures units == u
      ensures desiredWidth == old(desiredWidth) && desiredHeight == old(desiredHeight)
      ensures pageSize == old(pageSize) && maintainAspectRatio == old(maintainAspectRatio)
      ensures image == old(image)
    {
      units := u;
    }

    /** The page-format combo box. */
    method SetPageSize(p: Page)
      requires Valid()
      modifies this
      ensures Valid()
      ensures pageSize == p
      ensures desiredWidth == old(desiredWidth) && desiredHeight == old(desiredHeight)
      ensures units == old(units) && maintainAspectRatio == old(maintainAspectRatio)
      ensures image == old(image)
    {
      pageSize := p;
    }

    /** The aspect-ratio check box. Ticking it does not adjust the current
        size; the ratio is applied by the next call of `SetDesiredWidth` or
        `SetDesiredHeight`. */
    method SetMaintainAspectRatio(b: bool)
      requires Valid()
      modifies this
      ensures Valid()
      ensures maintainAspectRatio == b
      ensures desiredWidth == old(desiredWidth) && desiredHeight == old(desiredHeight)
      ensures units == old(units) && pageSize == old(pageSize) && image == old(image)
    {
      maintainAspectRatio := b;
    }

    /** A decoded image arrives. The desired size is left as it is. */
    method LoadImage(info: ImageInfo)
      requires Valid() && info.width > 0 && info.height > 0
      modifies this
      ensures Valid()
      ensures image == Some(info)
      ensures desiredWidth == old(desiredWidth) && desiredHeight == old(desiredHeight)
      ensures units == old(units) && pageSize == old(pageSize)
      ensures maintainAspectRatio == old(maintainAspectRatio)
    {
      image := Some(info);
    }

    /** The save button: the PDF for the current size and page format. It
        needs a loaded image. */
    method Save() returns (pages: seq<PdfPage>)
      requires Valid() && image.Some?
      ensures IsPdfLayout(pageSize, Vec2(desiredWidth, desiredHeight), pages)
    {
      pages := GeneratePdf(desiredWidth, desiredHeight, pageSize);
    }

    /** The central panel: the preview for the current size and page format
        in a draw area of size `area`. */
    method Preview(area: Vec2) returns (disp: Vec2, tiles: seq<PreviewTile>)
      requires Valid() && area.x >= 0.0 && area.y >= 0.0
      ensures IsPreviewLayout(area, pageSize, Vec2(desiredWidth, desiredHeight), disp, tiles)
    {
      disp, tiles := PreviewLayout(area, pageSize, Vec2(desiredWidth, desiredHeight));
    }
  }

  /** With the ratio locked on a 400 x 200 image, a width of 10 inches makes
      the height 5, a height of 4 then makes the width 8, and in centimetres
      the width slider shows 20.32. */
  method AspectLockScenario() returns (height: real, width: real, shownCm: real)
    ensures height == 5.0 && width == 8.0 && shownCm == 20.32
  {
    var app := new App();
    app.LoadImage(ImageInfo(400, 200));
    app.SetMaintainAspectRatio(true);
    var _ := app.SetDesiredWidth(10.0);
    height := app.desiredHeight;
    var _ := app.SetDesiredHeight(4.0);
    width := app.desiredWidth;
    app.SetUnits(Centimeters);
    shownCm := app.DesiredWidthValue();
  }
}
