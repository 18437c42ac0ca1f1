/**
 * The watermark configuration objects: the common base (`WatermarkConfig`), the text and the image
 * configuration. Java's subclassing is modelled by composition: each subclass object holds its base
 * part in `base`. Every object has a `View()`, the value of its fields, which the strategies and the
 * services read.
 */
module Config {
  import opened Wrappers
  import opened JavaInt
  import opened Geometry
  import opened Colors

  // ---- values --------------------------------------------------------------------------

  datatype BaseView = BaseView(
    wmType: WatermarkType,
    position: Position,
    offsetX: Int32,
    offsetY: Int32,
    opacity: real,
    rotation: real,
    scale: real,
    outputPath: string)

  /** What the clamping setters guarantee of the base fields. */
  predicate BaseValid(b: BaseView)
  {
    0.0 <= b.opacity <= 1.0 && -180.0 <= b.rotation <= 180.0 && 0.1 <= b.scale <= 5.0
  }

  function DefaultBase(t: WatermarkType): (b: BaseView)
    ensures BaseValid(b)
  {
    BaseView(t, BottomRight, 20, 20, 0.7, 0.0, 1.0, "")
  }

  datatype TextView = TextView(
    base: BaseView,
    text: Option<string>,
    fontFamily: string,
    fontSize: Int32,
    bold: bool,
    italic: bool,
    color: Color,
    hasShadow: bool,
    shadowColor: Color,
    shadowOffsetX: Int32,
    shadowOffsetY: Int32,
    shadowBlur: Int32,
    hasStroke: bool,
    strokeColor: Color,
    strokeWidth: Int32)

  predicate TextValid(t: TextView)
  {
    BaseValid(t.base) && 8 <= t.fontSize <= 200 && 0 <= t.shadowBlur <= 20 && 1 <= t.strokeWidth <= 10
  }

  function DefaultText(): (t: TextView)
    ensures TextValid(t)
  {
    TextView(DefaultBase(Text), Some("水印"), "Microsoft YaHei", 36, false, false, WHITE,
             true, BLACK, 2, 2, 3, false, BLACK, 1)
  }

  datatype ImageView = ImageView(
    base: BaseView,
    imagePath: Option<string>,
    width: Int32,
    height: Int32,
    maintainAspectRatio: bool)

  /**
   * The setters keep width and height in [10, 2000]; `adjustSize` writes the fields directly and can
   * go below 10, so the invariant every operation keeps is [0, 2000].
   */
  predicate ImageValid(i: ImageView)
  {
    BaseValid(i.base) && 0 <= i.width <= 2000 && 0 <= i.height <= 2000
  }

  function DefaultImage(path: Option<string>): (i: ImageView)
    ensures ImageValid(i)
  {
    ImageView(DefaultBase(Image), path, 100, 100, true)
  }

  /** A configuration as the strategies receive it: either subclass. */
  datatype ConfigView = TextConfig(text: TextView) | ImageConfig(image: ImageView)
  {
    function Base(): BaseView
    {
      match this
      case TextConfig(t) => t.base
      case ImageConfig(i) => i.base
    }

    predicate Valid()
    {
      match this
      case TextConfig(t) => TextValid(t)
      case ImageConfig(i) => ImageValid(i)
    }
  }

  // ---- TextWatermarkConfig's computed values -----------------------------------------

  const PLAIN: int := 0
  const BOLD: int := 1
  const ITALIC: int := 2

  datatype Font = Font(family: string, style: int, size: Int32)

  /** `createFont`: the style from the two flags, the size `Math.round(fontSize * scale)`. */
  function CreateFont(t: TextView): (f: Font)
    ensures f.family == t.fontFamily
    ensures !t.bold && !t.italic ==> f.style == PLAIN
    ensures t.bold && !t.italic ==> f.style == BOLD
    ensures !t.bold && t.italic ==> f.style == ITALIC
    ensures t.bold && t.italic ==> f.style == BOLD + ITALIC
    ensures TextValid(t) ==> 1 <= f.size <= 1000
    ensures TextValid(t) ==> f.size as real <= t.fontSize as real * t.base.scale + 0.5 < f.size as real + 1.0
  {
    var style := if t.bold && t.italic then BOLD + ITALIC
                 else if t.bold then BOLD
                 else if t.italic then ITALIC
                 else PLAIN;
    var scaled := t.fontSize as real * t.base.scale;
    assert TextValid(t) ==> 0.8 <= scaled <= 1000.0 by {
      if TextValid(t) {
        MulBounds(t.fontSize as real, t.base.scale, 8.0, 200.0, 0.1, 5.0);
      }
    }
    Font(t.fontFamily, style, Round(scaled))
  }

  /** `Math.round(255 * opacity)`. */
  function FillAlpha(opacity: real): (a: int)
    requires 0.0 <= opacity <= 1.0
    ensures 0 <= a <= 255
    ensures opacity == 1.0 ==> a == 255
    ensures opacity == 0.0 ==> a == 0
  {
    Round(255.0 * opacity)
  }

  /** `Math.round(255 * opacity * 0.8f)`: the shadow is drawn lighter. */
  function ShadowAlpha(opacity: real): (a: int)
    requires 0.0 <= opacity <= 1.0
    ensures 0 <= a <= 204
  {
    Round(255.0 * opacity * 0.8)
  }

  lemma RoundMonotone(x: real, y: real)
    requires 0.0 <= x <= y <= 1000.0
    ensures Round(x) <= Round(y)
  {
  }

  /** The shadow is never more opaque than the text itself. */
  lemma ShadowNoDarkerThanFill(opacity: real)
    requires 0.0 <= opacity <= 1.0
    ensures ShadowAlpha(opacity) <= FillAlpha(opacity)
  {
    RoundMonotone(255.0 * opacity * 0.8, 255.0 * opacity);
  }

  function WithAlpha(c: Color, alpha: int): (r: Color)
    requires 0 <= alpha <= 255
    ensures r.r == c.r && r.g == c.g && r.b == c.b && r.a == alpha
  {
    c.(a := alpha)
  }

  /** `getColorWithOpacity`: the text colour's RGB with alpha from the opacity. */
  function ColorWithOpacity(t: TextView): (c: Color)
    requires TextValid(t)
    ensures c.r == t.color.r && c.g == t.color.g && c.b == t.color.b
    ensures c.a == FillAlpha(t.base.opacity)
  {
    WithAlpha(t.color, FillAlpha(t.base.opacity))
  }

  /** `getShadowColorWithOpacity`. */
  function ShadowColorWithOpacity(t: TextView): (c: Color)
    requires TextValid(t)
    ensures c.r == t.shadowColor.r && c.g == t.shadowColor.g && c.b == t.shadowColor.b
    ensures c.a <= ColorWithOpacity(t).a
  {
    ShadowNoDarkerThanFill(t.base.opacity);
    WithAlpha(t.shadowColor, ShadowAlpha(t.base.opacity))
  }

  /** `getStrokeColorWithOpacity`: the same alpha as the text. */
  function StrokeColorWithOpacity(t: TextView): (c: Color)
    requires TextValid(t)
    ensures c.r == t.strokeColor.r && c.g == t.strokeColor.g && c.b == t.strokeColor.b
    ensures c.a == ColorWithOpacity(t).a
  {
    WithAlpha(t.strokeColor, FillAlpha(t.base.opacity))
  }

  // ---- ImageWatermarkConfig's computed values ----------------------------------------

  /** `getScaledWidth`: `Math.round(width * scale)`. */
  function ScaledWidth(i: ImageView): (w: Int32)
    ensures ImageValid(i) ==> 0 <= w <= 10000
    ensures ImageValid(i) ==> w as real <= i.width as real * i.base.scale + 0.5 < w as real + 1.0
    ensures ImageValid(i) && i.width >= 10 ==> w >= 1
  {
    ScaledSize(i.width, i.base.scale)
  }

  /** `getScaledHeight`: `Math.round(height * scale)`. */
  function ScaledHeight(i: ImageView): (h: Int32)
    ensures ImageValid(i) ==> 0 <= h <= 10000
    ensures ImageValid(i) ==> h as real <= i.height as real * i.base.scale + 0.5 < h as real + 1.0
    ensures ImageValid(i) && i.height >= 10 ==> h >= 1
  {
    ScaledSize(i.height, i.base.scale)
  }

  /**
   * `adjustSize`: with the aspect ratio kept and a real original, a wide original recomputes the height
   * from the width, any other recomputes the width from the height.
   */
  function AdjustedSize(i: ImageView, originalWidth: Int32, originalHeight: Int32): (r: ImageView)
    requires ImageValid(i)
    ensures ImageValid(r)
    ensures r.base == i.base && r.imagePath == i.imagePath && r.maintainAspectRatio == i.maintainAspectRatio
    ensures !i.maintainAspectRatio || originalWidth <= 0 || originalHeight <= 0 ==> r == i
    ensures i.maintainAspectRatio && originalWidth > originalHeight > 0 ==>
      r == i.(height := HeightFromWidth(i.width, originalWidth, originalHeight))
    ensures i.maintainAspectRatio && 0 < originalWidth <= originalHeight ==>
      r == i.(width := WidthFromHeight(i.height, originalWidth, originalHeight))
  {
    if i.maintainAspectRatio && originalWidth > 0 && originalHeight > 0 then
      var aspect := originalWidth as real / originalHeight as real;
      if aspect > 1.0 then
        QuotientAboveOne(originalWidth as real, originalHeight as real);
        i.(height := HeightFromWidth(i.width, originalWidth, originalHeight))
      else
        QuotientAtMostOne(originalWidth as real, originalHeight as real);
        i.(width := WidthFromHeight(i.height, originalWidth, originalHeight))
    else i
  }

  /** The wide branch of `adjustSize`: `height = round(width / aspect)`, which lies in [0, width]. */
  function HeightFromWidth(width: Int32, originalWidth: Int32, originalHeight: Int32): (h: Int32)
    requires 0 <= width && originalWidth > originalHeight > 0
    ensures 0 <= h <= width
    ensures h as real <= width as real * originalHeight as real / originalWidth as real + 0.5 < h as real + 1.0
  {
    DividedSide(width, originalWidth, originalHeight);
    Round(width as real / (originalWidth as real / originalHeight as real))
  }

  /** The other branch of `adjustSize`: `width = round(height * aspect)`, which lies in [0, height]. */
  function WidthFromHeight(height: Int32, originalWidth: Int32, originalHeight: Int32): (w: Int32)
    requires 0 <= height && 0 < originalWidth <= originalHeight
    ensures 0 <= w <= height
    ensures w as real <= height as real * originalWidth as real / originalHeight as real + 0.5 < w as real + 1.0
  {
    MultipliedSide(height, originalWidth, originalHeight);
    Round(height as real * (originalWidth as real / originalHeight as real))
  }

  /** `adjustSize` is not bound by the setters' range: a 10-wide watermark over a 100x1 original gets height 0. */
  lemma AdjustSizeLeavesSetterRange()
    ensures var i := DefaultImage(None).(width := 10);
      AdjustedSize(i, 100, 1).height == 0
  {
  }

  // ---- the objects -----------------------------------------------------------------------

  /** The fields `WatermarkConfig` declares, updated by its setters; `calculatePosition` reads them. */
  class WatermarkConfig {
    var wmType: WatermarkType
    var position: Position
    var offsetX: Int32
    var offsetY: Int32
    var opacity: real
    var rotation: real
    var scale: real
    var outputPath: string

    function View(): BaseView
      reads this
    {
      BaseView(wmType, position, offsetX, offsetY, opacity, rotation, scale, outputPath)
    }

    predicate Valid()
      reads this
    {
      BaseValid(View())
    }

    constructor (t: WatermarkType)
      ensures Valid() && View() == DefaultBase(t)
    {
      wmType, position, offsetX, offsetY := t, BottomRight, 20, 20;
      opacity, rotation, scale, outputPath := 0.7, 0.0, 1.0, "";
    }

    method SetType(t: WatermarkType)
      requires Valid()
      modifies this
      ensures Valid() && View() == old(View()).(wmType := t)
    {
      wmType := t;
    }

    method SetPosition(p: Position)
      requires Valid()
      modifies this
      ensures Valid() && View() == old(View()).(position := p)
    {
      position := p;
    }

    method SetOffsetX(x: Int32)
      requires Valid()
      modifies this
      ensures Valid() && View() == old(View()).(offsetX := x)
    {
      offsetX := x;
    }

    method SetOffsetY(y: Int32)
      requires Valid()
      modifies this
      ensures Valid() && View() == old(View()).(offsetY := y)
    {
      offsetY := y;
    }

    /** `setOpacity` clamps to [0, 1]. */
    method SetOpacity(v: real)
      requires Valid()
      modifies this
      ensures Valid() && View() == old(View()).(opacity := ClampReal(0.0, 1.0, v))
      ensures 0.0 <= v <= 1.0 ==> opacity == v
    {
      opacity := ClampReal(0.0, 1.0, v);
    }

    /** `setRotation` clamps to [-180, 180]. */
    method SetRotation(v: real)
      requires Valid()
      modifies this
      ensures Valid() && View() == old(View()).(rotation := ClampReal(-180.0, 180.0, v))
      ensures -180.0 <= v <= 180.0 ==> rotation == v
    {
      rotation := ClampReal(-180.0, 180.0, v);
    }

    /** `setScale` clamps to [0.1, 5]. */
    method SetScale(v: real)
      requires Valid()
      modifies this
      ensures Valid() && View() == old(View()).(scale := ClampReal(0.1, 5.0, v))
      ensures 0.1 <= v <= 5.0 ==> scale == v
    {
      scale := ClampReal(0.1, 5.0, v);
    }

    /** `setOutputPath` stores "" for null and any other value as given. */
    method SetOutputPath(p: Option<string>)
      requires Valid()
      modifies this
      ensures Valid() && View() == old(View()).(outputPath := if p.Some? then p.value else "")
    {
      outputPath := if p.Some? then p.value else "";
    }

    /** The six base setter calls that both `copy` methods make on the new object. */
    method ApplyBaseProperties(src: BaseView)
      requires Valid() && BaseValid(src)
      modifies this
      ensures Valid() && View() == src.(wmType := old(wmType), outputPath := old(outputPath))
    {
      SetPosition(src.position);
      SetOffsetX(src.offsetX);
      SetOffsetY(src.offsetY);
      SetOpacity(src.opacity);
      SetRotation(src.rotation);
      SetScale(src.scale);
    }

    /** `calculatePosition` on this configuration's anchor and offsets. */
    method CalculatePositionFor(imageWidth: Int32, imageHeight: Int32, wmWidth: Int32, wmHeight: Int32)
      returns (p: Point)
      ensures p == CalculatePosition(position, imageWidth, imageHeight, wmWidth, wmHeight, offsetX, offsetY)
      ensures p.x >= 0 && p.y >= 0
    {
      p := CalculatePosition(position, imageWidth, imageHeight, wmWidth, wmHeight, offsetX, offsetY);
    }
  }

  class TextWatermarkConfig {
    const base: WatermarkConfig
    var text: Option<string>
    var fontFamily: string
    var fontSize: Int32
    var bold: bool
    var italic: bool
    var color: Color
    var hasShadow: bool
    var shadowColor: Color
    var shadowOffsetX: Int32
    var shadowOffsetY: Int32
    var shadowBlur: Int32
    var hasStroke: bool
    var strokeColor: Color
    var strokeWidth: Int32

    function View(): TextView
      reads this, base
    {
      TextView(base.View(), text, fontFamily, fontSize, bold, italic, color, hasShadow, shadowColor,
               shadowOffsetX, shadowOffsetY, shadowBlur, hasStroke, strokeColor, strokeWidth)
    }

    predicate Valid()
      reads this, base
    {
      TextValid(View())
    }

    /** `new TextWatermarkConfig()`: type TEXT and the field defaults. */
    constructor ()
      ensures fresh(base) && Valid() && View() == DefaultText()
    {
      base := new WatermarkConfig(Text);
      text, fontFamily, fontSize, bold, italic, color := Some("水印"), "Microsoft YaHei", 36, false, false, WHITE;
      hasShadow, shadowColor, shadowOffsetX, shadowOffsetY, shadowBlur := true, BLACK, 2, 2, 3;
      hasStroke, strokeColor, strokeWidth := false, BLACK, 1;
    }

    /** `new TextWatermarkConfig(text)`: the defaults with the given text. */
    constructor WithText(t: Option<string>)
      ensures fresh(base) && Valid() && View() == DefaultText().(text := t)
    {
      base := new WatermarkConfig(Text);
      text, fontFamily, fontSize, bold, italic, color := t, "Microsoft YaHei", 36, false, false, WHITE;
      hasShadow, shadowColor, shadowOffsetX, shadowOffsetY, shadowBlur := true, BLACK, 2, 2, 3;
      hasStroke, strokeColor, strokeWidth := false, BLACK, 1;
    }

    /**
     * The object `copy` builds: a fresh base with the base setters re-applied, then every text field of
     * `v` stored, each colour through `new Color(getRGB())`.
     */
    constructor CopyOf(v: TextView)
      requires TextValid(v)
      ensures fresh(base) && Valid()
      ensures View() == TextView(v.base.(wmType := Text, outputPath := ""), v.text, v.fontFamily, v.fontSize,
                                 v.bold, v.italic, CopyColor(v.color), v.hasShadow, CopyColor(v.shadowColor),
                                 v.shadowOffsetX, v.shadowOffsetY, v.shadowBlur,
                                 v.hasStroke, CopyColor(v.strokeColor), v.strokeWidth)
    {
      var b := new WatermarkConfig(Text);
      b.ApplyBaseProperties(v.base);
      base := b;
      text, fontFamily, fontSize, bold, italic, color :=
        v.text, v.fontFamily, v.fontSize, v.bold, v.italic, CopyColor(v.color);
      hasShadow, shadowColor, shadowOffsetX, shadowOffsetY, shadowBlur :=
        v.hasShadow, CopyColor(v.shadowColor), v.shadowOffsetX, v.shadowOffsetY, v.shadowBlur;
      hasStroke, strokeColor, strokeWidth := v.hasStroke, CopyColor(v.strokeColor), v.strokeWidth;
    }

    method SetText(t: Option<string>)
      requires Valid()
      modifies this
      ensures Valid() && View() == old(View()).(text := t)
    {
      text := t;
    }

    method SetFontFamily(f: string)
      requires Valid()
      modifies this
      ensures Valid() && View() == old(View()).(fontFamily := f)
    {
      fontFamily := f;
    }

    /** `setFontSize` clamps to [8, 200]. */
    method SetFontSize(v: Int32)
      requires Valid()
      modifies this
      ensures Valid() && View() == old(View()).(fontSize := ClampInt(8, 200, v))
    {
      fontSize := ClampInt(8, 200, v);
    }

    method SetBold(b: bool)
      requires Valid()
      modifies this
      ensures Valid() && View() == old(View()).(bold := b)
    {
      bold := b;
    }

    method SetItalic(b: bool)
      requires Valid()
      modifies this
      ensures Valid() && View() == old(View()).(italic := b)
    {
      italic := b;
    }

    method SetColor(c: Color)
      requires Valid()
      modifies this
      ensures Valid() && View() == old(View()).(color := c)
    {
      color := c;
    }

    method SetHasShadow(b: bool)
      requires Valid()
      modifies this
      ensures Valid() && View() == old(View()).(hasShadow := b)
    {
      hasShadow := b;
    }

    method SetShadowColor(c: Color)
      requires Valid()
      modifies this
      ensures Valid() && View() == old(View()).(shadowColor := c)
    {
      shadowColor := c;
    }

    method SetShadowOffsetX(v: Int32)
      requires Valid()
      modifies this
      ensures Valid() && View() == old(View()).(shadowOffsetX := v)
    {
      shadowOffsetX := v;
    }

    method SetShadowOffsetY(v: Int32)
      requires Valid()
      modifies this
      ensures Valid() && View() == old(View()).(shadowOffsetY := v)
    {
      shadowOffsetY := v;
    }

    /** `setShadowBlur` clamps to [0, 20]. */
    method SetShadowBlur(v: Int32)
      requires Valid()
      modifies this
      ensures Valid() && View() == old(View()).(shadowBlur := ClampInt(0, 20, v))
    {
      shadowBlur := ClampInt(0, 20, v);
    }

    method SetHasStroke(b: bool)
      requires Valid()
      modifies this
      ensures Valid() && View() == old(View()).(hasStroke := b)
    {
      hasStroke := b;
    }

    method SetStrokeColor(c: Color)
      requires Valid()
      modifies this
      ensures Valid() && View() == old(View()).(strokeColor := c)
    {
      strokeColor := c;
    }

    /** `setStrokeWidth` clamps to [1, 10]. */
    method SetStrokeWidth(v: Int32)
      requires Valid()
      modifies this
      ensures Valid() && View() == old(View()).(strokeWidth := ClampInt(1, 10, v))
    {
      strokeWidth := ClampInt(1, 10, v);
    }

    /**
     * `copy`: a new object with the base properties re-applied through the setters and every text field
     * copied; the colours go through `new Color(getRGB())` and come back opaque; `outputPath` is not copied.
     */
    method Copy() returns (c: TextWatermarkConfig)
      requires Valid()
      ensures fresh(c) && fresh(c.base) && c.Valid()
      ensures var v := View();
        c.View() == v.(base := v.base.(wmType := Text, outputPath := ""),
                       color := v.color.(a := 255),
                       shadowColor := v.shadowColor.(a := 255),
                       strokeColor := v.strokeColor.(a := 255))
    {
      c := new TextWatermarkConfig.CopyOf(View());
    }
  }

  class ImageWatermarkConfig {
    const base: WatermarkConfig
    var imagePath: Option<string>
    var width: Int32
    var height: Int32
    var maintainAspectRatio: bool

    function View(): ImageView
      reads this, base
    {
      ImageView(base.View(), imagePath, width, height, maintainAspectRatio)
    }

    predicate Valid()
      reads this, base
    {
      ImageValid(View())
    }

    /** `new ImageWatermarkConfig()` (path `None`) and `new ImageWatermarkConfig(path)`. */
    constructor (path: Option<string>)
      ensures fresh(base) && Valid() && View() == DefaultImage(path)
    {
      base := new WatermarkConfig(Image);
      imagePath, width, height, maintainAspectRatio := path, 100, 100, true;
    }

    method SetImagePath(p: Option<string>)
      requires Valid()
      modifies this
      ensures Valid() && View() == old(View()).(imagePath := p)
    {
      imagePath := p;
    }

    /** `setWidth` clamps to [10, 2000]. */
    method SetWidth(v: Int32)
      requires Valid()
      modifies this
      ensures Valid() && View() == old(View()).(width := ClampInt(10, 2000, v))
      ensures 10 <= width <= 2000
    {
      width := ClampInt(10, 2000, v);
    }

    /** `setHeight` clamps to [10, 2000]. */
    method SetHeight(v: Int32)
      requires Valid()
      modifies this
      ensures Valid() && View() == old(View()).(height := ClampInt(10, 2000, v))
      ensures 10 <= height <= 2000
    {
      height := ClampInt(10, 2000, v);
    }

    method SetMaintainAspectRatio(b: bool)
      requires Valid()
      modifies this
      ensures Valid() && View() == old(View()).(maintainAspectRatio := b)
    {
      maintainAspectRatio := b;
    }

    /** `adjustSize` overwrites width or height in place. */
    method AdjustSize(originalWidth: Int32, originalHeight: Int32)
      requires Valid()
      modifies this
      ensures Valid() && View() == AdjustedSize(old(View()), originalWidth, originalHeight)
    {
      if maintainAspectRatio && originalWidth > 0 && originalHeight > 0 {
        var aspect := originalWidth as real / originalHeight as real;
        if aspect > 1.0 {
          QuotientAboveOne(originalWidth as real, originalHeight as real);
          height := HeightFromWidth(width, originalWidth, originalHeight);
        } else {
          QuotientAtMostOne(originalWidth as real, originalHeight as real);
          width := WidthFromHeight(height, originalWidth, originalHeight);
        }
      }
    }

    /** `copy`: base properties through the setters, the image fields copied, `outputPath` not. */
    method Copy() returns (c: ImageWatermarkConfig)
      requires Valid()
      ensures fresh(c) && fresh(c.base) && c.Valid()
      ensures var v := View(); c.View() == v.(base := v.base.(wmType := Image, outputPath := ""))
    {
      c := new ImageWatermarkConfig(None);
      c.base.ApplyBaseProperties(base.View());
      c.imagePath, c.width, c.height, c.maintainAspectRatio := imagePath, width, height, maintainAspectRatio;
    }
  }

  /** A `WatermarkConfig` reference of either concrete class. */
  datatype AnyConfig = TextObject(t: TextWatermarkConfig) | ImageObject(i: ImageWatermarkConfig)
  {
    function Repr(): set<object>
    {
      match this
      case TextObject(t) => {t, t.base}
      case ImageObject(i) => {i, i.base}
    }

    predicate Valid()
      reads Repr()
    {
      match this
      case TextObject(t) => t.Valid()
      case ImageObject(i) => i.Valid()
    }

    function View(): ConfigView
      reads Repr()
    {
      match this
      case TextObject(t) => TextConfig(t.View())
      case ImageObject(i) => ImageConfig(i.View())
    }
  }

  /**
   * The fields of what `copy()` builds from a configuration with fields `v`: the same class, the
   * output path reset, and for text the three colours made opaque (`new Color(getRGB())`).
   */
  function CopiedView(v: ConfigView): (r: ConfigView)
    ensures r.TextConfig? == v.TextConfig?
    ensures r.Base().outputPath == ""
    ensures r.Base().(outputPath := "", wmType := Text) == v.Base().(outputPath := "", wmType := Text)
    ensures v.Valid() ==> r.Valid()
  {
    match v
    case TextConfig(t) =>
      TextConfig(t.(base := t.base.(wmType := Text, outputPath := ""),
                    color := t.color.(a := 255),
                    shadowColor := t.shadowColor.(a := 255),
                    strokeColor := t.strokeColor.(a := 255)))
    case ImageConfig(i) => ImageConfig(i.(base := i.base.(wmType := Image, outputPath := "")))
  }

  /** Copying a copy gives nothing new: everything `copy()` drops is already dropped. */
  lemma CopyOfCopy(v: ConfigView)
    ensures CopiedView(CopiedView(v)) == CopiedView(v)
  {
  }

  /** The abstract `copy()`, dispatched to the object's class. */
  method CopyConfig(c: AnyConfig) returns (r: AnyConfig)
    requires c.Valid()
    ensures r.Valid() && fresh(r.Repr())
    ensures r.View() == CopiedView(old(c.View()))
  {
    match c
    case TextObject(t) =>
      var n := t.Copy();
      r := TextObject(n);
    case ImageObject(i) =>
      var n := i.Copy();
      r := ImageObject(n);
  }
}
