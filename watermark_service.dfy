/**
 * `WatermarkService`: the JSON request read into a `ConfigData` record with its defaulting rules, the
 * record turned into a text or an image configuration through the clamping setters, the output file
 * name and directory, the image format chosen from the output name, and the validity check.
 */
module WatermarkService {
  import opened Wrappers
  import opened JavaInt
  import opened Strs
  import opened Colors
  import opened Geometry
  import opened Config
  import opened Json
  import opened ConfigData
  import PathManager

  // ---- parseWatermarkConfig -----------------------------------------------------------------------

  /** A string read that falls back to `d` when the JSON gives null. */
  function OrElse(v: Option<string>, d: string): (r: Option<string>)
    ensures r.Some?
    ensures v.Some? ==> r == v
    ensures v.None? ==> r == Some(d)
  {
    Some(v.GetOr(d))
  }

  /** A number read that falls back to `d` when it is 0 (missing, null or an explicit 0). */
  function NonZeroOr(v: real, d: real): (r: real)
    ensures d != 0.0 ==> r != 0.0
  {
    if v == 0.0 then d else v
  }

  function NonZeroIntOr(v: Int32, d: Int32): (r: Int32)
    ensures d != 0 ==> r != 0
  {
    if v == 0 then d else v
  }

  /** The `outputConfig` object: absent keeps the record's own default; each null key takes its default. */
  function ParseOutputConfig(o: Option<JObj>): (r: Result<OutputConfig, string>)
    ensures o.None? ==> r == Success(DEFAULT_OUTPUT)
    ensures r.Success? ==> r.value.namingRule.Some? && r.value.filePrefix.Some? && r.value.fileSuffix.Some?
  {
    match o
    case None => Success(DEFAULT_OUTPUT)
    case Some(m) =>
      var rule :- GetString(m, "namingRule");
      var prefix :- GetString(m, "filePrefix");
      var suffix :- GetString(m, "fileSuffix");
      Success(OutputConfig(OrElse(rule, "suffix"), OrElse(prefix, "wm_"), OrElse(suffix, "_watermarked")))
  }

  /**
   * The body of `parseWatermarkConfig`'s `try`: the reads in the source's order, each one able to throw.
   * Strings that read as null and numbers that read as 0 take their defaults, except that the offsets
   * take 20 only when their key is absent. Fields the request never names keep the record's defaults.
   */
  function ParseFields(o: JObj): (r: Result<ConfigData, string>)
    ensures r.Success? ==>
      var d := r.value;
      d.wmType.Some? && d.text.Some? && d.position.Some? && d.fontColor.Some? && d.imagePath.Some? &&
      d.outputPath.Some? && d.opacity != 0.0 && d.fontSize != 0 && d.scale != 0.0 &&
      d.watermarkWidth != 0 && d.watermarkHeight != 0
  {
    var wmType :- GetString(o, "type");
    var text :- GetString(o, "text");
    var position :- GetString(o, "position");
    var opacity :- GetFloatValue(o, "opacity");
    var fontSize :- GetIntValue(o, "fontSize");
    var fontColor :- GetString(o, "fontColor");
    var imagePath :- GetString(o, "imagePath");
    var outputPath :- GetString(o, "outputPath");
    var scale :- GetFloatValue(o, "scale");
    var width :- GetIntValue(o, "watermarkWidth");
    var height :- GetIntValue(o, "watermarkHeight");
    var offsetX :- GetIntValue(o, "offsetX");
    var offsetY :- GetIntValue(o, "offsetY");
    var rotation :- GetFloatValue(o, "rotation");
    var outputJson :- GetObject(o, "outputConfig");
    var output :- ParseOutputConfig(outputJson);
    Success(DefaultData().(
      wmType := OrElse(wmType, "TEXT"), text := OrElse(text, "水印"), position := OrElse(position, "BOTTOM_RIGHT"),
      opacity := NonZeroOr(opacity, 0.7), fontSize := NonZeroIntOr(fontSize, 24),
      fontColor := OrElse(fontColor, "#FFFFFF"), imagePath := OrElse(imagePath, ""),
      outputPath := OrElse(outputPath, ""), scale := NonZeroOr(scale, 1.0),
      watermarkWidth := NonZeroIntOr(width, 100), watermarkHeight := NonZeroIntOr(height, 100),
      offsetX := if "offsetX" in o then offsetX else 20, offsetY := if "offsetY" in o then offsetY else 20,
      rotation := rotation, outputConfig := output))
  }

  /**
   * `parseWatermarkConfig`: a text that is not a JSON object, or any read that throws, gives the
   * complete default record, never a partly filled one.
   */
  function ParseWatermarkConfig(json: Option<JObj>): (d: ConfigData)
    ensures json.None? || ParseFields(json.value).Failure? ==> d == DefaultData()
    ensures d.wmType.Some? && d.text.Some? && d.position.Some? && d.fontColor.Some?
    ensures d.imagePath.Some? && d.outputPath.Some? && d.outputConfig.namingRule.Some?
    ensures d.opacity != 0.0 && d.fontSize != 0 && d.scale != 0.0 && d.watermarkWidth != 0 && d.watermarkHeight != 0
  {
    if json.None? then DefaultData()
    else match ParseFields(json.value)
      case Success(d) => d
      case Failure(_) => DefaultData()
  }

  /** A successful parse: every read succeeded and each field is its read with the default applied. */
  lemma ParseFieldsReads(o: JObj)
    requires ParseFields(o).Success?
    ensures var d := ParseFields(o).value;
      GetString(o, "type").Success? && d.wmType == OrElse(GetString(o, "type").value, "TEXT") &&
      GetString(o, "text").Success? && d.text == OrElse(GetString(o, "text").value, "水印") &&
      GetString(o, "position").Success? && d.position == OrElse(GetString(o, "position").value, "BOTTOM_RIGHT") &&
      GetString(o, "fontColor").Success? && d.fontColor == OrElse(GetString(o, "fontColor").value, "#FFFFFF") &&
      GetString(o, "imagePath").Success? && d.imagePath == OrElse(GetString(o, "imagePath").value, "") &&
      GetString(o, "outputPath").Success? && d.outputPath == OrElse(GetString(o, "outputPath").value, "") &&
      GetFloatValue(o, "opacity").Success? && d.opacity == NonZeroOr(GetFloatValue(o, "opacity").value, 0.7) &&
      GetFloatValue(o, "scale").Success? && d.scale == NonZeroOr(GetFloatValue(o, "scale").value, 1.0) &&
      GetFloatValue(o, "rotation").Success? && d.rotation == GetFloatValue(o, "rotation").value &&
      GetIntValue(o, "fontSize").Success? && d.fontSize == NonZeroIntOr(GetIntValue(o, "fontSize").value, 24) &&
      GetIntValue(o, "watermarkWidth").Success? &&
      d.watermarkWidth == NonZeroIntOr(GetIntValue(o, "watermarkWidth").value, 100) &&
      GetIntValue(o, "watermarkHeight").Success? &&
      d.watermarkHeight == NonZeroIntOr(GetIntValue(o, "watermarkHeight").value, 100) &&
      GetIntValue(o, "offsetX").Success? &&
      d.offsetX == (if "offsetX" in o then GetIntValue(o, "offsetX").value else 20) &&
      GetIntValue(o, "offsetY").Success? &&
      d.offsetY == (if "offsetY" in o then GetIntValue(o, "offsetY").value else 20) &&
      GetObject(o, "outputConfig").Success? &&
      ParseOutputConfig(GetObject(o, "outputConfig").value) == Success(d.outputConfig)
  {
  }

  /** A key that is missing or holds null. */
  predicate Unset(o: JObj, key: string)
  {
    key !in o || o[key] == JNull
  }

  /** The string keys: a string is taken as given; missing or null gives the default. */
  lemma ParsedStrings(o: JObj)
    requires ParseFields(o).Success?
    ensures var d := ParseWatermarkConfig(Some(o));
      (Unset(o, "type") ==> d.wmType == Some("TEXT")) &&
      (Unset(o, "text") ==> d.text == Some("水印")) &&
      (Unset(o, "position") ==> d.position == Some("BOTTOM_RIGHT")) &&
      (Unset(o, "fontColor") ==> d.fontColor == Some("#FFFFFF")) &&
      (Unset(o, "imagePath") ==> d.imagePath == Some("")) &&
      (Unset(o, "outputPath") ==> d.outputPath == Some("")) &&
      ("type" in o && o["type"].JString? ==> d.wmType == Some(o["type"].s)) &&
      ("text" in o && o["text"].JString? ==> d.text == Some(o["text"].s)) &&
      ("position" in o && o["position"].JString? ==> d.position == Some(o["position"].s)) &&
      ("fontColor" in o && o["fontColor"].JString? ==> d.fontColor == Some(o["fontColor"].s)) &&
      ("imagePath" in o && o["imagePath"].JString? ==> d.imagePath == Some(o["imagePath"].s)) &&
      ("outputPath" in o && o["outputPath"].JString? ==> d.outputPath == Some(o["outputPath"].s))
  {
    ParseFieldsReads(o);
    assert ParseWatermarkConfig(Some(o)) == ParseFields(o).value;
  }

  /**
   * The numeric keys: opacity, font size, scale and the watermark size treat 0 as unset, so an explicit
   * opacity of 0 becomes 0.7; a non-zero number is taken (an integer key through `intValue()`).
   */
  lemma ParsedNumbers(o: JObj)
    requires ParseFields(o).Success?
    ensures var d := ParseWatermarkConfig(Some(o));
      (Unset(o, "opacity") || o["opacity"] == JNumber(0.0) ==> d.opacity == 0.7) &&
      (Unset(o, "fontSize") || o["fontSize"] == JNumber(0.0) ==> d.fontSize == 24) &&
      (Unset(o, "scale") || o["scale"] == JNumber(0.0) ==> d.scale == 1.0) &&
      (Unset(o, "watermarkWidth") || o["watermarkWidth"] == JNumber(0.0) ==> d.watermarkWidth == 100) &&
      (Unset(o, "watermarkHeight") || o["watermarkHeight"] == JNumber(0.0) ==> d.watermarkHeight == 100) &&
      ("opacity" in o && o["opacity"].JNumber? && o["opacity"].n != 0.0 ==> d.opacity == o["opacity"].n) &&
      ("scale" in o && o["scale"].JNumber? && o["scale"].n != 0.0 ==> d.scale == o["scale"].n) &&
      ("fontSize" in o && o["fontSize"].JNumber? && IntValueOf(o["fontSize"].n) != 0 ==>
         d.fontSize == IntValueOf(o["fontSize"].n)) &&
      (Unset(o, "rotation") ==> d.rotation == 0.0) &&
      ("rotation" in o && o["rotation"].JNumber? ==> d.rotation == o["rotation"].n)
  {
    ParseFieldsReads(o);
    assert ParseWatermarkConfig(Some(o)) == ParseFields(o).value;
  }

  /**
   * The offsets take 20 only when their key is absent: an explicit 0 is kept, and so is the 0 that a
   * null value reads as.
   */
  lemma ParsedOffsets(o: JObj)
    requires ParseFields(o).Success?
    ensures var d := ParseWatermarkConfig(Some(o));
      ("offsetX" !in o ==> d.offsetX == 20) && ("offsetY" !in o ==> d.offsetY == 20) &&
      ("offsetX" in o && o["offsetX"] == JNull ==> d.offsetX == 0) &&
      ("offsetY" in o && o["offsetY"] == JNull ==> d.offsetY == 0) &&
      ("offsetX" in o && o["offsetX"].JNumber? ==> d.offsetX == IntValueOf(o["offsetX"].n)) &&
      ("offsetY" in o && o["offsetY"].JNumber? ==> d.offsetY == IntValueOf(o["offsetY"].n))
  {
    ParseFieldsReads(o);
    assert ParseWatermarkConfig(Some(o)) == ParseFields(o).value;
  }

  /**
   * The fields the request never names — font family, bold, italic, the shadow and stroke settings and
   * the aspect flag — always hold the record's defaults, whatever the JSON says.
   */
  lemma ParsedUnreadFields(json: Option<JObj>)
    ensures var d := ParseWatermarkConfig(json); var z := DefaultData();
      d.fontFamily == z.fontFamily && d.bold == z.bold && d.italic == z.italic &&
      d.hasShadow == z.hasShadow && d.shadowColor == z.shadowColor && d.shadowOffsetX == z.shadowOffsetX &&
      d.shadowOffsetY == z.shadowOffsetY && d.shadowBlur == z.shadowBlur && d.hasStroke == z.hasStroke &&
      d.strokeColor == z.strokeColor && d.strokeWidth == z.strokeWidth &&
      d.maintainAspectRatio == z.maintainAspectRatio
  {
    if json.Some? && ParseFields(json.value).Success? {
      assert ParseWatermarkConfig(json) == ParseFields(json.value).value;
    }
  }

  /** A missing `outputConfig` keeps the default naming; a present one fills its null keys with the defaults. */
  lemma ParsedOutputConfig(o: JObj)
    requires ParseFields(o).Success?
    ensures var d := ParseWatermarkConfig(Some(o));
      (Unset(o, "outputConfig") ==> d.outputConfig == DEFAULT_OUTPUT) &&
      ("outputConfig" in o && o["outputConfig"] == JObject(map[]) ==> d.outputConfig == DEFAULT_OUTPUT) &&
      ("outputConfig" in o && o["outputConfig"].JObject? ==>
         var m := o["outputConfig"].fields;
         ("namingRule" in m && m["namingRule"].JString? ==> d.outputConfig.namingRule == Some(m["namingRule"].s)) &&
         ("filePrefix" in m && m["filePrefix"].JString? ==> d.outputConfig.filePrefix == Some(m["filePrefix"].s)) &&
         ("fileSuffix" in m && m["fileSuffix"].JString? ==> d.outputConfig.fileSuffix == Some(m["fileSuffix"].s)))
  {
    ParseFieldsReads(o);
    assert ParseWatermarkConfig(Some(o)) == ParseFields(o).value;
  }

  /** One bad value loses the whole request: an array under "opacity" discards the valid "text" too. */
  lemma OneBadKeyLosesAll()
    ensures ParseWatermarkConfig(Some(map["opacity" := JArray([]), "text" := JString("hello")])) == DefaultData()
  {
    var o := map["opacity" := JArray([]), "text" := JString("hello")];
    assert GetFloatValue(o, "opacity").Failure?;
  }

  // ---- convertToWatermarkConfig -------------------------------------------------------------------

  /** The constant names of `WatermarkConfig.Position`. */
  function PositionName(p: Position): string
  {
    match p
    case TopLeft => "TOP_LEFT"
    case TopCenter => "TOP_CENTER"
    case TopRight => "TOP_RIGHT"
    case MiddleLeft => "MIDDLE_LEFT"
    case MiddleCenter => "MIDDLE_CENTER"
    case MiddleRight => "MIDDLE_RIGHT"
    case BottomLeft => "BOTTOM_LEFT"
    case BottomCenter => "BOTTOM_CENTER"
    case BottomRight => "BOTTOM_RIGHT"
    case Custom => "CUSTOM"
  }

  /** `Position.valueOf(s)` on an exact constant name. */
  function PositionOf(s: string): (r: Option<Position>)
    ensures r.Some? ==> PositionName(r.value) == s
    ensures r.None? ==> forall p :: PositionName(p) != s
  {
    if s == "TOP_LEFT" then Some(TopLeft)
    else if s == "TOP_CENTER" then Some(TopCenter)
    else if s == "TOP_RIGHT" then Some(TopRight)
    else if s == "MIDDLE_LEFT" then Some(MiddleLeft)
    else if s == "MIDDLE_CENTER" then Some(MiddleCenter)
    else if s == "MIDDLE_RIGHT" then Some(MiddleRight)
    else if s == "BOTTOM_LEFT" then Some(BottomLeft)
    else if s == "BOTTOM_CENTER" then Some(BottomCenter)
    else if s == "BOTTOM_RIGHT" then Some(BottomRight)
    else if s == "CUSTOM" then Some(Custom)
    else None
  }

  /**
   * `Position.valueOf(position.toUpperCase())`, with BOTTOM_RIGHT when the name is unknown or the
   * position is null (both throw and are caught).
   */
  function ParsePosition(position: Option<string>): (r: Position)
    ensures position.Some? && PositionOf(ToUpper(position.value)).Some? ==> PositionName(r) == ToUpper(position.value)
    ensures position.None? || PositionOf(ToUpper(position.value)).None? ==> r == BottomRight
  {
    if position.None? then BottomRight else PositionOf(ToUpper(position.value)).GetOr(BottomRight)
  }

  /** The constant names are upper case already. */
  lemma PositionNameIsUpper(p: Position)
    ensures ToUpper(PositionName(p)) == PositionName(p)
  {
    match p
    case TopLeft => UpperText("TOP_LEFT");
    case TopCenter => UpperText("TOP_CENTER");
    case TopRight => UpperText("TOP_RIGHT");
    case MiddleLeft => UpperText("MIDDLE_LEFT");
    case MiddleCenter => UpperText("MIDDLE_CENTER");
    case MiddleRight => UpperText("MIDDLE_RIGHT");
    case BottomLeft => UpperText("BOTTOM_LEFT");
    case BottomCenter => UpperText("BOTTOM_CENTER");
    case BottomRight => UpperText("BOTTOM_RIGHT");
    case Custom => UpperText("CUSTOM");
  }

  /** A text of upper-case letters and '_' is its own upper case. */
  lemma UpperText(s: string)
    requires forall i :: 0 <= i < |s| ==> s[i] == '_' || 'A' <= s[i] <= 'Z'
    ensures ToUpper(s) == s
  {
    assert forall i :: 0 <= i < |s| ==> UpperChar(s[i]) == s[i];
  }

  /** Each constant name, in upper or lower case, selects its own position. */
  lemma {:induction false} ParsePositionNames(p: Position)
    ensures ParsePosition(Some(PositionName(p))) == p
    ensures ParsePosition(Some(ToLower(PositionName(p)))) == p
  {
    PositionNameIsUpper(p);
    var s := PositionName(p);
    var l := ToLower(s);
    assert ToUpper(l) == s by {
      assert forall i :: 0 <= i < |s| ==> UpperChar(LowerChar(s[i])) == UpperChar(s[i]);
    }
  }

  /** Upper-casing twice is upper-casing once. */
  lemma UpperIdempotent(s: string)
    ensures ToUpper(ToUpper(s)) == ToUpper(s)
  {
  }

  /** The position ignores case: any spelling of a name reads as its upper-case form. */
  lemma ParsePositionIgnoresCase(s: string)
    ensures ParsePosition(Some(s)) == ParsePosition(Some(ToUpper(s)))
  {
    UpperIdempotent(s);
  }

  /** `"IMAGE".equalsIgnoreCase(type)`: false for null. */
  predicate IsImageType(wmType: Option<string>)
  {
    wmType.Some? && EqualsIgnoreCase(wmType.value, "IMAGE")
  }

  /** The base fields after the seven base setter calls on a configuration of type `t`. */
  function ConvertedBase(d: ConfigData, t: WatermarkType): (b: BaseView)
    ensures BaseValid(b) && b.wmType == t
    ensures b.position == ParsePosition(d.position) && b.offsetX == d.offsetX && b.offsetY == d.offsetY
    ensures 0.0 <= d.opacity <= 1.0 ==> b.opacity == d.opacity
    ensures 0.1 <= d.scale <= 5.0 ==> b.scale == d.scale
    ensures -180.0 <= d.rotation <= 180.0 ==> b.rotation == d.rotation
  {
    BaseView(t, ParsePosition(d.position), d.offsetX, d.offsetY, ClampReal(0.0, 1.0, d.opacity),
             ClampReal(-180.0, 180.0, d.rotation), ClampReal(0.1, 5.0, d.scale), d.outputPath.GetOr(""))
  }

  /** The fields of the configuration `convertToWatermarkConfig` builds from the record `d`. */
  function ConvertedView(d: ConfigData): (v: ConfigView)
  {
    if IsImageType(d.wmType) then
      ImageConfig(ImageView(ConvertedBase(d, Image), d.imagePath, ClampInt(10, 2000, d.watermarkWidth),
                            ClampInt(10, 2000, d.watermarkHeight), d.maintainAspectRatio))
    else
      TextConfig(DefaultText().(base := ConvertedBase(d, Text), text := d.text,
                                fontSize := ClampInt(8, 200, d.fontSize), fontFamily := d.fontFamily,
                                bold := d.bold, italic := d.italic, color := ParseColor(d.fontColor)))
  }

  /**
   * "IMAGE" in any case selects the image configuration and anything else (null included) the text
   * one; either is valid, and the text one keeps its class defaults for shadow and stroke, which the
   * record's own shadow and stroke fields never reach.
   */
  lemma ConvertedProperties(d: ConfigData)
    ensures var v := ConvertedView(d);
      v.Valid() && (v.ImageConfig? <==> IsImageType(d.wmType)) &&
      v.Base() == ConvertedBase(d, if IsImageType(d.wmType) then Image else Text)
    ensures var v := ConvertedView(d);
      v.ImageConfig? ==> v.image.imagePath == d.imagePath && 10 <= v.image.width <= 2000 &&
                         10 <= v.image.height <= 2000 && v.image.maintainAspectRatio == d.maintainAspectRatio
    ensures var v := ConvertedView(d); var z := DefaultText();
      v.TextConfig? ==> v.text.text == d.text && 8 <= v.text.fontSize <= 200 &&
                        v.text.hasShadow == z.hasShadow && v.text.shadowColor == z.shadowColor &&
                        v.text.shadowOffsetX == z.shadowOffsetX && v.text.shadowOffsetY == z.shadowOffsetY &&
                        v.text.shadowBlur == z.shadowBlur && v.text.hasStroke == z.hasStroke &&
                        v.text.strokeColor == z.strokeColor && v.text.strokeWidth == z.strokeWidth
  {
  }

  /** Any spelling of "image" is the image type; null is not. */
  lemma ImageTypeSpellings()
    ensures IsImageType(Some("image")) && IsImageType(Some("Image")) && IsImageType(Some("IMAGE"))
    ensures !IsImageType(None) && !IsImageType(Some("TEXT"))
  {
    assert ToLower("IMAGE") == "image";
    assert ToLower("Image") == "image";
    assert ToLower("image") == "image";
    assert ToLower("TEXT") == "text";
  }

  /** The seven base setter calls, in the source's order, on the base part of the new configuration. */
  method ApplyBaseFields(b: WatermarkConfig, d: ConfigData)
    requires b.Valid()
    modifies b
    ensures b.Valid() && b.View() == ConvertedBase(d, old(b.wmType))
  {
    b.SetOpacity(d.opacity);
    b.SetScale(d.scale);
    b.SetOffsetX(d.offsetX);
    b.SetOffsetY(d.offsetY);
    b.SetRotation(d.rotation);
    b.SetPosition(ParsePosition(d.position));
    b.SetOutputPath(d.outputPath);
  }

  /** `convertToWatermarkConfig`: a new configuration object whose fields are `ConvertedView(d)`. */
  method ConvertToWatermarkConfig(d: ConfigData) returns (c: AnyConfig)
    ensures fresh(c.Repr()) && c.Valid() && c.View() == ConvertedView(d)
  {
    if IsImageType(d.wmType) {
      var i := new ImageWatermarkConfig(d.imagePath);
      ApplyBaseFields(i.base, d);
      i.SetWidth(d.watermarkWidth);
      i.SetHeight(d.watermarkHeight);
      i.SetMaintainAspectRatio(d.maintainAspectRatio);
      c := ImageObject(i);
    } else {
      var t := new TextWatermarkConfig();
      t.SetText(d.text);
      t.SetFontSize(d.fontSize);
      ApplyBaseFields(t.base, d);
      t.SetFontFamily(d.fontFamily);
      t.SetBold(d.bold);
      t.SetItalic(d.italic);
      t.SetColor(ParseColor(d.fontColor));
      c := TextObject(t);
    }
  }

  /**
   * A request that is not a JSON object is rendered as the default text watermark, but at the record's
   * 24 pt rather than the text configuration's own 36 pt.
   */
  lemma DefaultRequestConfig()
    ensures ConvertedView(ParseWatermarkConfig(None)) == TextConfig(DefaultText().(fontSize := 24))
  {
    var d := DefaultData();
    assert !IsImageType(d.wmType) by {
      var l := ToLower("TEXT");
      assert l[0] == 't' && l[1] == 'e' && l[2] == 'x' && l[3] == 't';
    }
    DefaultPositionParses();
    assert ConvertedBase(d, Text) == DefaultBase(Text);
    WhiteText();
  }

  /** "BOTTOM_RIGHT", the default position, is read as `BottomRight`. */
  lemma DefaultPositionParses()
    ensures ParsePosition(Some("BOTTOM_RIGHT")) == BottomRight
  {
    ParsePositionNames(BottomRight);
  }

  // ---- generateOutputPath -------------------------------------------------------------------------

  /** A file name split into the part before its extension and the extension with its '.'. */
  datatype NameParts = NameParts(name: string, extension: string)

  /** The split happens at the last '.' only when that '.' is not the first character. */
  function SplitName(fileName: string): (p: NameParts)
    ensures p.name + p.extension == fileName
    ensures p.extension != [] ==> p.name != [] && p.extension[0] == '.' && '.' !in p.extension[1..]
    ensures p.extension == [] ==> p.name == fileName && (fileName == [] || '.' !in fileName[1..])
  {
    var dot := LastIndexOf(fileName, '.');
    if dot > 0 then NameParts(fileName[..dot], fileName[dot..])
    else
      assert fileName != [] ==> '.' !in fileName[1..] by {
        if dot == 0 { assert fileName[1..] == fileName[dot + 1..]; }
      }
      NameParts(fileName, [])
  }

  /** A leading '.' does not start an extension, and a name without '.' has none. */
  lemma SplitNameExamples()
    ensures SplitName(".hidden") == NameParts(".hidden", "")
    ensures SplitName("photo") == NameParts("photo", "")
    ensures SplitName("a.b.jpg") == NameParts("a.b", ".jpg")
  {
    assert '.' !in ".hidden"[1..];
    assert '.' !in "photo" by {
      var w := "photo";
      assert w[0] != '.' && w[1] != '.' && w[2] != '.' && w[3] != '.' && w[4] != '.';
    }
    var f := "a.b.jpg";
    assert f == "a.b" + ['.'] + "jpg";
    PathManager.LastIndexBeforeFree("a.b", "jpg", '.');
    assert f[..3] == "a.b" && f[3..] == ".jpg";
  }

  /** A non-empty name followed by an extension ('.' and a dot-free rest) splits into exactly those two. */
  lemma SplitNameWith(a: string, x: string)
    requires a != [] && x != [] && x[0] == '.' && '.' !in x[1..]
    ensures SplitName(a + x) == NameParts(a, x)
  {
    PathManager.LastIndexAfterPrefix(a, x, '.');
    assert forall j :: 1 <= j < |x| ==> x[j] == x[1..][j - 1];
    assert LastIndexOf(x, '.') == 0;
    var s := a + x;
    assert s[..|a|] == a && s[|a|..] == x;
  }

  /**
   * The new file name for a naming rule; a null prefix or suffix counts as "". A null rule makes the
   * string `switch` throw.
   */
  function NewFileName(fileName: string, oc: OutputConfig): (r: Result<string, string>)
    ensures r.Failure? <==> oc.namingRule.None?
  {
    var p := SplitName(fileName);
    var prefix := oc.filePrefix.GetOr("");
    var suffix := oc.fileSuffix.GetOr("");
    match oc.namingRule
    case None => Failure("NullPointerException")
    case Some(rule) =>
      if rule == "original" then Success(fileName)
      else if rule == "prefix" then Success(prefix + fileName)
      else if rule == "suffix" then Success(p.name + suffix + p.extension)
      else if rule == "custom" then Success(prefix + p.name + suffix + p.extension)
      else Success(p.name + "_watermarked" + p.extension)
  }

  /**
   * Every rule keeps the input's extension when the input has one and the suffix holds no '.':
   * "original" and "prefix" keep the whole name after the prefix, "suffix" and "custom" put the suffix
   * between name and extension, and any other rule uses "_watermarked".
   */
  lemma NamingKeepsExtension(fileName: string, oc: OutputConfig)
    requires oc.namingRule.Some? && SplitName(fileName).extension != []
    requires '.' !in oc.fileSuffix.GetOr("")
    ensures var p := SplitName(fileName); var rule := oc.namingRule.value;
      var prefix := oc.filePrefix.GetOr(""); var suffix := oc.fileSuffix.GetOr("");
      var q := SplitName(NewFileName(fileName, oc).value);
      q.extension == p.extension &&
      (rule == "original" ==> q.name == p.name) &&
      (rule == "prefix" ==> q.name == prefix + p.name) &&
      (rule == "suffix" ==> q.name == p.name + suffix) &&
      (rule == "custom" ==> q.name == prefix + p.name + suffix) &&
      (rule !in {"original", "prefix", "suffix", "custom"} ==> q.name == p.name + "_watermarked")
  {
    var p := SplitName(fileName);
    var prefix := oc.filePrefix.GetOr("");
    var suffix := oc.fileSuffix.GetOr("");
    var rule := oc.namingRule.value;
    var n := NewFileName(fileName, oc).value;
    if rule == "original" {
      SplitNameWith(p.name, p.extension);
    } else if rule == "prefix" {
      assert n == (prefix + p.name) + p.extension;
      SplitNameWith(prefix + p.name, p.extension);
    } else if rule == "suffix" {
      SplitNameWith(p.name + suffix, p.extension);
    } else if rule == "custom" {
      SplitNameWith(prefix + p.name + suffix, p.extension);
    } else {
      SplitNameWith(p.name + "_watermarked", p.extension);
    }
  }

  /** `new File(parent, child)` with a parent: the two joined by the separator. */
  function ChildPath(parent: string, sep: char, child: string): (r: string)
    ensures EndsWith(r, child) && StartsWith(r, parent)
  {
    PathManager.Join(parent, sep, child)
  }

  /**
   * `generateOutputPath`: the new file name inside the user's directory (with '/' turned into the
   * separator, then made absolute by `absolute`) when one is given, else inside "output".
   */
  function GenerateOutputPath(inputPath: string, userOutputPath: Option<string>, oc: OutputConfig, sep: char,
                              absolute: string -> string): (r: Result<string, string>)
    ensures r.Failure? <==> oc.namingRule.None?
    ensures r.Success? && (userOutputPath.None? || userOutputPath.value == []) ==>
      r.value == "output" + [sep] + NewFileName(PathManager.FileName(inputPath, sep), oc).value
    ensures r.Success? && userOutputPath.Some? && userOutputPath.value != [] ==>
      var dir := ReplaceChar(userOutputPath.value, '/', sep);
      (sep != '/' ==> '/' !in dir) &&
      r.value == absolute(ChildPath(dir, sep, NewFileName(PathManager.FileName(inputPath, sep), oc).value))
  {
    var newName :- NewFileName(PathManager.FileName(inputPath, sep), oc);
    if userOutputPath.Some? && userOutputPath.value != [] then
      Success(absolute(ChildPath(ReplaceChar(userOutputPath.value, '/', sep), sep, newName)))
    else
      Success("output" + [sep] + newName)
  }

  /**
   * Under "output", the produced path names the new file directly: its last component is the new file
   * name whenever prefix and suffix hold no separator.
   */
  lemma DefaultOutputFileName(inputPath: string, oc: OutputConfig, sep: char, absolute: string -> string)
    requires oc.namingRule.Some? && (sep == '/' || sep == '\\')
    requires sep !in oc.filePrefix.GetOr("") && '/' !in oc.filePrefix.GetOr("")
    requires sep !in oc.fileSuffix.GetOr("") && '/' !in oc.fileSuffix.GetOr("")
    ensures var n := NewFileName(PathManager.FileName(inputPath, sep), oc).value;
      PathManager.FileName(GenerateOutputPath(inputPath, None, oc, sep, absolute).value, sep) == n
  {
    var f := PathManager.FileName(inputPath, sep);
    assert sep !in f && '/' !in f;
    NewFileNameSeparatorFree(f, oc, sep);
    PathManager.FileNameAfterSeparator("output", sep, NewFileName(f, oc).value);
  }

  /** A separator-free file name, prefix and suffix give a separator-free new name. */
  lemma NewFileNameSeparatorFree(f: string, oc: OutputConfig, sep: char)
    requires oc.namingRule.Some? && (sep == '/' || sep == '\\')
    requires sep !in f && '/' !in f
    requires sep !in oc.filePrefix.GetOr("") && '/' !in oc.filePrefix.GetOr("")
    requires sep !in oc.fileSuffix.GetOr("") && '/' !in oc.fileSuffix.GetOr("")
    ensures var n := NewFileName(f, oc).value; sep !in n && '/' !in n
  {
    var p := SplitName(f);
    var prefix, suffix := oc.filePrefix.GetOr(""), oc.fileSuffix.GetOr("");
    var n := NewFileName(f, oc).value;
    assert f == p.name + p.extension;
    assert sep !in p.name && '/' !in p.name && sep !in p.extension && '/' !in p.extension;
    var rule := oc.namingRule.value;
    if rule == "original" {
      assert n == f;
    } else if rule == "prefix" {
      assert n == prefix + f;
    } else if rule == "suffix" {
      assert n == p.name + suffix + p.extension;
    } else if rule == "custom" {
      assert n == prefix + p.name + suffix + p.extension;
    } else {
      assert n == p.name + "_watermarked" + p.extension;
      assert sep !in "_watermarked" && '/' !in "_watermarked";
    }
  }

  // ---- getOutputFormat ----------------------------------------------------------------------------

  /** The `switch` on the lower-cased extension: an image writer name, "jpg" for anything unknown. */
  function WriterName(ext: string): (f: string)
    ensures f in {"jpg", "png", "bmp", "tiff"}
    ensures ext !in PathManager.SUPPORTED_EXTENSIONS ==> f == "jpg"
    ensures ext in {"png", "bmp", "tiff"} ==> f == ext
    ensures ext in {"jpg", "jpeg"} ==> f == "jpg"
    ensures ext == "tif" ==> f == "tiff"
  {
    if ext == "jpg" || ext == "jpeg" then "jpg"
    else if ext == "png" then "png"
    else if ext == "bmp" then "bmp"
    else if ext == "tiff" || ext == "tif" then "tiff"
    else "jpg"
  }

  /** `getOutputFormat`: the writer name for the output path's extension. */
  function GetOutputFormat(outputPath: string): (f: string)
    ensures f == WriterName(PathManager.GetFileExtension(Some(outputPath)))
    ensures !PathManager.IsSupportedImageFormat(Some(outputPath)) ==> f == "jpg"
  {
    WriterName(ToLower(PathManager.GetFileExtension(Some(outputPath))))
  }

  /** The format of "a.e" for a dot-free `e` follows the lower-cased `e`. */
  lemma FormatOfName(a: string, e: string)
    requires '.' !in e
    ensures GetOutputFormat(a + "." + e) == WriterName(ToLower(e))
  {
    PathManager.ExtensionOf(a, e);
  }

  /** "x.JPEG" is written as "jpg". */
  lemma JpegUpperCaseFormat()
    ensures GetOutputFormat("x.JPEG") == "jpg"
  {
    assert ToLower("JPEG") == "jpeg" by {
      var l := ToLower("JPEG");
      assert l[0] == 'j' && l[1] == 'p' && l[2] == 'e' && l[3] == 'g';
    }
    assert WriterName("jpeg") == "jpg";
    assert "x.JPEG" == "x" + "." + "JPEG";
    FormatOfName("x", "JPEG");
  }

  /** "x.TIF" is written as "tiff". */
  lemma TifFormat()
    ensures GetOutputFormat("x.TIF") == "tiff"
  {
    assert ToLower("TIF") == "tif" by {
      var l := ToLower("TIF");
      assert l[0] == 't' && l[1] == 'i' && l[2] == 'f';
    }
    assert "x.TIF" == "x" + "." + "TIF";
    FormatOfName("x", "TIF");
  }

  /** "x.gif" falls back to "jpg": GIF is not written. */
  lemma GifFormat()
    ensures GetOutputFormat("x.gif") == "jpg"
  {
    assert ToLower("gif") == "gif" by {
      var l := ToLower("gif");
      assert l[0] == 'g' && l[1] == 'i' && l[2] == 'f';
    }
    assert WriterName("gif") == "jpg" by {
      assert "gif"[0] == 'g' && "jpg"[0] == 'j' && "png"[0] == 'p' && "bmp"[0] == 'b' && "tif"[0] == 't';
    }
    assert "x.gif" == "x" + "." + "gif";
    FormatOfName("x", "gif");
  }

  /** With a suffix free of '.', every naming rule keeps the extension `getFileExtension` sees. */
  lemma NewFileNameExtension(f: string, oc: OutputConfig)
    requires oc.namingRule.Some? && SplitName(f).extension != []
    requires '.' !in oc.fileSuffix.GetOr("")
    ensures var n := NewFileName(f, oc).value;
      '.' in n && PathManager.GetFileExtension(Some(n)) == PathManager.GetFileExtension(Some(f))
  {
    var p := SplitName(f);
    NamingKeepsExtension(f, oc);
    var q := SplitName(NewFileName(f, oc).value);
    assert '.' in p.extension;
    PathManager.ExtensionOfSuffix(q.name, p.extension);
    PathManager.ExtensionOfSuffix(p.name, p.extension);
  }

  /**
   * Saving under the "output" directory keeps the input's image format: with a suffix free of '.',
   * every naming rule gives an output path whose format is the one the input name asks for.
   */
  lemma OutputFormatFollowsInput(inputPath: string, oc: OutputConfig, sep: char, absolute: string -> string)
    requires oc.namingRule.Some?
    requires SplitName(PathManager.FileName(inputPath, sep)).extension != []
    requires '.' !in oc.fileSuffix.GetOr("")
    ensures GetOutputFormat(GenerateOutputPath(inputPath, None, oc, sep, absolute).value) ==
            GetOutputFormat(PathManager.FileName(inputPath, sep))
  {
    var f := PathManager.FileName(inputPath, sep);
    var n := NewFileName(f, oc).value;
    NewFileNameExtension(f, oc);
    PathManager.ExtensionOfSuffix("output" + [sep], n);
  }

  // ---- validateConfig -----------------------------------------------------------------------------

  /**
   * `validateConfig`: null is rejected, and so are opacity outside [0, 1], rotation outside
   * [-180, 180] and scale outside (0, 5].
   */
  function ValidateConfig(c: Option<BaseView>): (b: bool)
    ensures c.None? ==> !b
    ensures c.Some? && BaseValid(c.value) ==> b
    ensures b <==> (c.Some? && 0.0 <= c.value.opacity <= 1.0 && -180.0 <= c.value.rotation <= 180.0 &&
                    0.0 < c.value.scale <= 5.0)
  {
    match c
    case None => false
    case Some(v) =>
      !(v.opacity < 0.0 || v.opacity > 1.0) && !(v.rotation < -180.0 || v.rotation > 180.0) &&
      !(v.scale <= 0.0 || v.scale > 5.0)
  }

  /** Every converted configuration passes the check. */
  lemma ConvertedIsValidated(d: ConfigData)
    ensures ValidateConfig(Some(ConvertedView(d).Base()))
  {
    ConvertedProperties(d);
  }

  /** The check is looser than the setters: a scale of 0.05 passes it though no setter can store it. */
  lemma ValidateLooserThanSetters()
    ensures var b := DefaultBase(Text).(scale := 0.05); ValidateConfig(Some(b)) && !BaseValid(b)
    ensures !ValidateConfig(Some(DefaultBase(Text).(scale := 0.0)))
    ensures !ValidateConfig(Some(DefaultBase(Text).(opacity := 1.5)))
  {
  }
}
