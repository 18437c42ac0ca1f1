/**
 * `SimpleWebApp.SimpleBridge`: the stand-alone bridge's own reading of the request (eight keys only),
 * its choice between the text and the image watermark, its fixed 20-pixel placement switches, the
 * output path and the image format it writes. Pixel work and file I/O are not modelled.
 */
module SimpleBridge {
  import opened Wrappers
  import opened JavaInt
  import opened Strs
  import opened Json
  import opened Geometry
  import opened ConfigData
  import WatermarkService
  import PathManager

  // ---- parseWatermarkConfig -----------------------------------------------------------------------

  /** The eight reads of the `try`, in the source's order; null strings and zero numbers take their defaults. */
  function ParseSimpleFields(o: JObj): (r: Result<ConfigData, string>)
    ensures r.Success? <==>
      GetString(o, "type").Success? && GetString(o, "text").Success? && GetString(o, "position").Success? &&
      GetFloatValue(o, "opacity").Success? && GetIntValue(o, "fontSize").Success? &&
      GetString(o, "fontColor").Success? && GetString(o, "imagePath").Success? && GetString(o, "outputPath").Success?
    ensures r.Success? ==>
      var d := r.value;
      d.wmType == WatermarkService.OrElse(GetString(o, "type").value, "TEXT") &&
      d.text == WatermarkService.OrElse(GetString(o, "text").value, "水印") &&
      d.position == WatermarkService.OrElse(GetString(o, "position").value, "BOTTOM_RIGHT") &&
      d.opacity == WatermarkService.NonZeroOr(GetFloatValue(o, "opacity").value, 0.7) &&
      d.fontSize == WatermarkService.NonZeroIntOr(GetIntValue(o, "fontSize").value, 24) &&
      d.fontColor == WatermarkService.OrElse(GetString(o, "fontColor").value, "#FFFFFF") &&
      d.imagePath == WatermarkService.OrElse(GetString(o, "imagePath").value, "") &&
      d.outputPath == WatermarkService.OrElse(GetString(o, "outputPath").value, "")
    ensures r.Success? ==>
      var d := r.value;
      d.wmType.Some? && d.text.Some? && d.position.Some? && d.fontColor.Some? && d.imagePath.Some? &&
      d.outputPath.Some? && d.opacity != 0.0 && d.fontSize != 0
    ensures r.Success? ==>
      var d := r.value; var e := DefaultData();
      d.(wmType := e.wmType, text := e.text, position := e.position, opacity := e.opacity, fontSize := e.fontSize,
         fontColor := e.fontColor, imagePath := e.imagePath, outputPath := e.outputPath) == e
  {
    var wmType :- GetString(o, "type");
    var text :- GetString(o, "text");
    var position :- GetString(o, "position");
    var opacity :- GetFloatValue(o, "opacity");
    var fontSize :- GetIntValue(o, "fontSize");
    var fontColor :- GetString(o, "fontColor");
    var imagePath :- GetString(o, "imagePath");
    var outputPath :- GetString(o, "outputPath");
    Success(DefaultData().(
      wmType := WatermarkService.OrElse(wmType, "TEXT"), text := WatermarkService.OrElse(text, "水印"),
      position := WatermarkService.OrElse(position, "BOTTOM_RIGHT"),
      opacity := WatermarkService.NonZeroOr(opacity, 0.7), fontSize := WatermarkService.NonZeroIntOr(fontSize, 24),
      fontColor := WatermarkService.OrElse(fontColor, "#FFFFFF"),
      imagePath := WatermarkService.OrElse(imagePath, ""), outputPath := WatermarkService.OrElse(outputPath, "")))
  }

  /**
   * `parseWatermarkConfig`: a text that is not an object, or a read that throws, gives the eight
   * defaults on a fresh record, which is the whole default record.
   */
  function ParseSimpleConfig(json: Option<JObj>): (d: ConfigData)
    ensures json.None? || ParseSimpleFields(json.value).Failure? ==> d == DefaultData()
    ensures json.Some? && ParseSimpleFields(json.value).Success? ==> d == ParseSimpleFields(json.value).value
    ensures d.wmType.Some? && d.text.Some? && d.position.Some? && d.fontColor.Some?
    ensures d.imagePath.Some? && d.outputPath.Some? && d.opacity != 0.0 && d.fontSize != 0
  {
    if json.None? then DefaultData()
    else match ParseSimpleFields(json.value)
      case Success(d) => d
      case Failure(_) => DefaultData()
  }

  /**
   * On every object the bridge accepts, a missing or null key takes its default, a zero number counts as
   * unset, and a string or non-zero number is taken as read.
   */
  lemma SimpleParsedKeys(o: JObj)
    requires ParseSimpleFields(o).Success?
    ensures var d := ParseSimpleConfig(Some(o));
      (WatermarkService.Unset(o, "type") ==> d.wmType == Some("TEXT")) &&
      (WatermarkService.Unset(o, "text") ==> d.text == Some("水印")) &&
      (WatermarkService.Unset(o, "position") ==> d.position == Some("BOTTOM_RIGHT")) &&
      (WatermarkService.Unset(o, "fontColor") ==> d.fontColor == Some("#FFFFFF")) &&
      (WatermarkService.Unset(o, "imagePath") ==> d.imagePath == Some("")) &&
      (WatermarkService.Unset(o, "outputPath") ==> d.outputPath == Some("")) &&
      ("type" in o && o["type"].JString? ==> d.wmType == Some(o["type"].s)) &&
      ("text" in o && o["text"].JString? ==> d.text == Some(o["text"].s)) &&
      ("position" in o && o["position"].JString? ==> d.position == Some(o["position"].s)) &&
      ("fontColor" in o && o["fontColor"].JString? ==> d.fontColor == Some(o["fontColor"].s)) &&
      ("imagePath" in o && o["imagePath"].JString? ==> d.imagePath == Some(o["imagePath"].s)) &&
      ("outputPath" in o && o["outputPath"].JString? ==> d.outputPath == Some(o["outputPath"].s)) &&
      (WatermarkService.Unset(o, "opacity") || o["opacity"] == JNumber(0.0) ==> d.opacity == 0.7) &&
      (WatermarkService.Unset(o, "fontSize") || o["fontSize"] == JNumber(0.0) ==> d.fontSize == 24) &&
      ("opacity" in o && o["opacity"].JNumber? && o["opacity"].n != 0.0 ==> d.opacity == o["opacity"].n) &&
      ("fontSize" in o && o["fontSize"].JNumber? && IntValueOf(o["fontSize"].n) != 0 ==>
         d.fontSize == IntValueOf(o["fontSize"].n))
  {
    assert ParseSimpleConfig(Some(o)) == ParseSimpleFields(o).value;
  }

  /** Where the service's reading succeeds, the simple bridge reads the eight keys they share the same way. */
  lemma SimpleAgreesWithService(o: JObj)
    requires WatermarkService.ParseFields(o).Success?
    ensures var s := ParseSimpleConfig(Some(o)); var w := WatermarkService.ParseWatermarkConfig(Some(o));
      s.wmType == w.wmType && s.text == w.text && s.position == w.position && s.opacity == w.opacity &&
      s.fontSize == w.fontSize && s.fontColor == w.fontColor && s.imagePath == w.imagePath &&
      s.outputPath == w.outputPath
  {
    WatermarkService.ParseFieldsReads(o);
    assert WatermarkService.ParseWatermarkConfig(Some(o)) == WatermarkService.ParseFields(o).value;
    assert ParseSimpleFields(o).Success?;
    assert ParseSimpleConfig(Some(o)) == ParseSimpleFields(o).value;
  }

  /**
   * The simple bridge reads fewer keys, so a malformed key it never reads does not cost it the
   * request: with a non-numeric "scale" the service falls back to the default text, the bridge does not.
   */
  lemma SimpleIgnoresUnreadKeys()
    ensures var o := map["text" := JString("hi"), "scale" := JArray([])];
      ParseSimpleConfig(Some(o)).text == Some("hi") &&
      WatermarkService.ParseWatermarkConfig(Some(o)).text == Some("水印")
  {
    var o := map["text" := JString("hi"), "scale" := JArray([])];
    assert WatermarkService.ParseFields(o).Failure? by {
      assert GetFloatValue(o, "scale").Failure?;
    }
  }

  // ---- the watermark kind -------------------------------------------------------------------------

  /** The image branch: type "IMAGE" in any case and a non-empty image path; otherwise the text branch. */
  predicate UsesImageWatermark(d: ConfigData)
  {
    WatermarkService.IsImageType(d.wmType) && d.imagePath.Some? && d.imagePath.value != []
  }

  /** A request without "type" or without an image path is drawn as text. */
  lemma TextUnlessImageRequested(o: JObj)
    requires "type" !in o || "imagePath" !in o
    ensures !UsesImageWatermark(ParseSimpleConfig(Some(o)))
  {
    var d := ParseSimpleConfig(Some(o));
    if ParseSimpleFields(o).Success? {
      if "type" !in o {
        assert d.wmType == Some("TEXT");
        assert ToLower("TEXT") != ToLower("IMAGE") by {
          assert ToLower("TEXT")[0] == 't' && ToLower("IMAGE")[0] == 'i';
        }
      } else {
        assert d.imagePath == Some("");
      }
    } else {
      assert d == DefaultData();
      assert d.imagePath == Some("");
    }
  }

  // ---- placement ----------------------------------------------------------------------------------

  /** The simple bridge's margin on every side. */
  const MARGIN: int := 20

  /**
   * The `switch (position.toUpperCase())` of both placements: four named anchors, and BOTTOM_RIGHT for
   * everything else. The result is the column and the row the watermark sits in.
   */
  function AnchorOf(position: string): (r: (Side, Side))
    ensures ToUpper(position) !in {"TOP_LEFT", "TOP_RIGHT", "BOTTOM_LEFT", "CENTER"} ==> r == (Far, Far)
  {
    var p := ToUpper(position);
    if p == "TOP_LEFT" then (Near, Near)
    else if p == "TOP_RIGHT" then (Far, Near)
    else if p == "BOTTOM_LEFT" then (Near, Far)
    else if p == "CENTER" then (Middle, Middle)
    else (Far, Far)
  }

  /**
   * Of the ten position names the rest of the application uses, only the three corners other than
   * BOTTOM_RIGHT are recognised here: every centre and middle name, and CUSTOM, lands bottom-right.
   */
  lemma PositionNamesInSimpleBridge(p: Position)
    ensures AnchorOf(WatermarkService.PositionName(p)) ==
      match p
      case TopLeft => (Near, Near)
      case TopRight => (Far, Near)
      case BottomLeft => (Near, Far)
      case _ => (Far, Far)
  {
    WatermarkService.PositionNameIsUpper(p);
  }

  /**
   * `addTextWatermark`'s position: `y` is the baseline, so the top anchors put it one text height
   * below the margin. No clamping.
   */
  function TextPlacement(position: string, width: Int32, height: Int32, textWidth: Int32, textHeight: Int32): (pt: Point)
  {
    var (column, row) := AnchorOf(position);
    var x := match column
      case Near => MARGIN
      case Middle => Div32(Sub32(width, textWidth), 2)
      case Far => Sub32(Sub32(width, textWidth), MARGIN);
    var y := match row
      case Near => Add32(textHeight, MARGIN)
      case Middle => Div32(Add32(height, textHeight), 2)
      case Far => Sub32(height, MARGIN);
    Point(x, y)
  }

  /** `addImageWatermark`'s position; the watermark image's own size takes the text's place. No clamping. */
  function ImagePlacement(position: string, width: Int32, height: Int32, wmWidth: Int32, wmHeight: Int32): (pt: Point)
  {
    var (column, row) := AnchorOf(position);
    var x := match column
      case Near => MARGIN
      case Middle => Div32(Sub32(width, wmWidth), 2)
      case Far => Sub32(Sub32(width, wmWidth), MARGIN);
    var y := match row
      case Near => MARGIN
      case Middle => Div32(Sub32(height, wmHeight), 2)
      case Far => Sub32(Sub32(height, wmHeight), MARGIN);
    Point(x, y)
  }

  /** Halving a non-negative `int` difference: the two halves differ by at most one. */
  lemma HalfOf(a: Int32, b: Int32)
    requires 0 <= b <= a
    ensures var q := Div32(Sub32(a, b), 2); 2 * q <= a - b <= 2 * q + 1
  {
  }

  /**
   * With non-negative sizes the image placement is exact integer arithmetic: each named side sits at
   * exactly 20 pixels from its edge, the centre splits the slack, and nothing is clamped, so an
   * overlay wider than the image minus the margin starts left of the image.
   */
  lemma ImagePlacementMargins(position: string, width: Int32, height: Int32, wmWidth: Int32, wmHeight: Int32)
    requires 0 <= wmWidth && 0 <= wmHeight && 0 <= width && 0 <= height
    requires InRange32(width - wmWidth - MARGIN) && InRange32(height - wmHeight - MARGIN)
    ensures var pt := ImagePlacement(position, width, height, wmWidth, wmHeight); var (column, row) := AnchorOf(position);
      (column == Near ==> pt.x == MARGIN) && (column == Far ==> pt.x + wmWidth == width - MARGIN) &&
      (row == Near ==> pt.y == MARGIN) && (row == Far ==> pt.y + wmHeight == height - MARGIN) &&
      (column == Middle && wmWidth <= width ==> 2 * pt.x <= width - wmWidth <= 2 * pt.x + 1) &&
      (row == Middle && wmHeight <= height ==> 2 * pt.y <= height - wmHeight <= 2 * pt.y + 1)
  {
    if wmWidth <= width { HalfOf(width, wmWidth); }
    if wmHeight <= height { HalfOf(height, wmHeight); }
  }

  /** An overlay that fits inside the margins is placed entirely inside them, whatever the position. */
  lemma ImageInsideMargins(position: string, width: Int32, height: Int32, wmWidth: Int32, wmHeight: Int32)
    requires 0 <= wmWidth && wmWidth + 2 * MARGIN <= width && 0 <= wmHeight && wmHeight + 2 * MARGIN <= height
    ensures var pt := ImagePlacement(position, width, height, wmWidth, wmHeight);
      MARGIN <= pt.x && pt.x + wmWidth <= width - MARGIN && MARGIN <= pt.y && pt.y + wmHeight <= height - MARGIN
  {
    ImagePlacementMargins(position, width, height, wmWidth, wmHeight);
  }

  /**
   * The text placement in exact arithmetic: the left edge or the baseline sits 20 pixels from the
   * named side, a top baseline one text height lower, and the centre splits the slack.
   */
  lemma TextPlacementMargins(position: string, width: Int32, height: Int32, textWidth: Int32, textHeight: Int32)
    requires 0 <= textWidth && 0 <= textHeight && 0 <= width && 0 <= height && height + textHeight <= MAX32
    requires InRange32(width - textWidth - MARGIN) && InRange32(textHeight + MARGIN)
    ensures var pt := TextPlacement(position, width, height, textWidth, textHeight); var (column, row) := AnchorOf(position);
      (column == Near ==> pt.x == MARGIN) && (column == Far ==> pt.x + textWidth == width - MARGIN) &&
      (row == Near ==> pt.y - textHeight == MARGIN) && (row == Far ==> pt.y == height - MARGIN) &&
      (column == Middle && textWidth <= width ==> 2 * pt.x <= width - textWidth <= 2 * pt.x + 1) &&
      (row == Middle ==> 2 * pt.y <= height + textHeight <= 2 * pt.y + 1)
  {
    if textWidth <= width { HalfOf(width, textWidth); }
  }

  /** Text that fits inside the margins is drawn entirely inside them: from `y - textHeight` to the baseline `y`. */
  lemma TextInsideMargins(position: string, width: Int32, height: Int32, textWidth: Int32, textHeight: Int32)
    requires 0 <= textWidth && textWidth + 2 * MARGIN <= width && 0 <= textHeight && textHeight + 2 * MARGIN <= height
    requires height + textHeight <= MAX32
    ensures var pt := TextPlacement(position, width, height, textWidth, textHeight);
      MARGIN <= pt.x && pt.x + textWidth <= width - MARGIN && MARGIN <= pt.y - textHeight && pt.y <= height - MARGIN
  {
    TextPlacementMargins(position, width, height, textWidth, textHeight);
  }

  // ---- output path --------------------------------------------------------------------------------

  /**
   * The output file name: "_watermarked" inserted where the extension starts (at the last '.', unless
   * that '.' is the first character), or appended when there is no extension. Taking the inserted text
   * out gives back the original name, and the new name splits into the old name with "_watermarked"
   * and the old extension.
   */
  function WatermarkedName(fileName: string): (r: string)
    ensures var k := |WatermarkService.SplitName(fileName).name|;
      |r| == |fileName| + 12 && r[k..k + 12] == "_watermarked" && r[..k] + r[k + 12..] == fileName
    ensures WatermarkService.SplitName(fileName).extension == [] ==> r == fileName + "_watermarked"
    ensures var p := WatermarkService.SplitName(fileName);
      p.extension != [] ==> WatermarkService.SplitName(r) == WatermarkService.NameParts(p.name + "_watermarked", p.extension)
  {
    var p := WatermarkService.SplitName(fileName);
    var r := p.name + "_watermarked" + p.extension;
    InsertedBetween(p.name, "_watermarked", p.extension, r);
    if p.extension != [] then
      WatermarkService.SplitNameWith(p.name + "_watermarked", p.extension);
      r
    else r
  }

  /** Text inserted between two parts can be cut out again. */
  lemma InsertedBetween(a: string, ins: string, b: string, r: string)
    requires r == a + ins + b
    ensures |r| == |a| + |ins| + |b| && r[|a|..|a| + |ins|] == ins && r[..|a|] + r[|a| + |ins|..] == a + b
  {
    assert r[..|a|] == a && r[|a| + |ins|..] == b;
  }

  /**
   * The output path: inside the user's directory (with '/' turned into the separator, then made
   * absolute by `absolute`) when the configuration names one, else `generateOutputPath`'s "output"
   * directory.
   */
  function SimpleOutputPath(imagePath: string, outputPath: Option<string>, sep: char, absolute: string -> string): (r: string)
  {
    var name := WatermarkedName(PathManager.FileName(imagePath, sep));
    if outputPath.Some? && outputPath.value != [] then
      absolute(WatermarkService.ChildPath(ReplaceChar(outputPath.value, '/', sep), sep, name))
    else "output" + [sep] + name
  }

  /**
   * The simple bridge names and places its output exactly as the full service does with the default
   * output configuration (the "suffix" rule with "_watermarked").
   */
  lemma SameAsServiceDefaults(imagePath: string, outputPath: Option<string>, sep: char, absolute: string -> string)
    ensures WatermarkService.GenerateOutputPath(imagePath, outputPath, DEFAULT_OUTPUT, sep, absolute) ==
      Success(SimpleOutputPath(imagePath, outputPath, sep, absolute))
  {
    DefaultNewFileName(PathManager.FileName(imagePath, sep));
  }

  /** The default output configuration names a file as the simple bridge does. */
  lemma DefaultNewFileName(f: string)
    ensures WatermarkService.NewFileName(f, DEFAULT_OUTPUT) == Success(WatermarkedName(f))
  {
    assert "suffix" != "original" && "suffix" != "prefix" by {
      assert "suffix"[0] == 's' && "original"[0] == 'o' && "prefix"[0] == 'p';
    }
  }

  // ---- getImageFormat -----------------------------------------------------------------------------

  /** The writer name `getImageFormat` gives each lower-cased extension: the reference it is checked against. */
  function FormatForExtension(ext: string): (f: string)
    ensures f in {"jpg", "png", "bmp", "gif"}
    ensures ext !in {"jpg", "jpeg", "png", "bmp", "gif"} ==> f == "png"
  {
    if ext == "jpg" || ext == "jpeg" then "jpg"
    else if ext == "png" then "png"
    else if ext == "bmp" then "bmp"
    else if ext == "gif" then "gif"
    else "png"
  }

  /** The chain of `endsWith` tests on an already lower-cased path. */
  function FormatByEnding(lower: string): (f: string)
    ensures f in {"jpg", "png", "bmp", "gif"}
  {
    if EndsWith(lower, ".jpg") || EndsWith(lower, ".jpeg") then "jpg"
    else if EndsWith(lower, ".png") then "png"
    else if EndsWith(lower, ".bmp") then "bmp"
    else if EndsWith(lower, ".gif") then "gif"
    else "png"
  }

  /** `getImageFormat`: the ending of the lower-cased path, PNG when none of the known endings matches. */
  function GetImageFormat(imagePath: string): (f: string)
    ensures f in {"jpg", "png", "bmp", "gif"}
  {
    FormatByEnding(ToLower(imagePath))
  }

  /** On "a.e" with a dot-free `e`, the endings select the format of `e`. */
  lemma FormatByEndingOf(a: string, e: string)
    requires '.' !in e
    ensures FormatByEnding(a + "." + e) == FormatForExtension(e)
  {
    var s := a + "." + e;
    assert EndsWith(s, ".jpg") <==> e == "jpg" by { EndsWithExtension(a, e, "jpg"); assert "." + "jpg" == ".jpg"; }
    assert EndsWith(s, ".jpeg") <==> e == "jpeg" by { EndsWithExtension(a, e, "jpeg"); assert "." + "jpeg" == ".jpeg"; }
    assert EndsWith(s, ".png") <==> e == "png" by { EndsWithExtension(a, e, "png"); assert "." + "png" == ".png"; }
    assert EndsWith(s, ".bmp") <==> e == "bmp" by { EndsWithExtension(a, e, "bmp"); assert "." + "bmp" == ".bmp"; }
    assert EndsWith(s, ".gif") <==> e == "gif" by { EndsWithExtension(a, e, "gif"); assert "." + "gif" == ".gif"; }
  }

  /** A text ending in '.' and a dot-free `e` ends in "." + `x` (`x` dot-free) exactly when `e` is `x`. */
  lemma EndsWithExtension(a: string, e: string, x: string)
    requires '.' !in e && '.' !in x
    ensures EndsWith(a + "." + e, "." + x) <==> e == x
  {
    var s := a + "." + e;
    var t := "." + x;
    if |e| > |x| {
      assert s[|s| - |t|] == e[|e| - |x| - 1];
      assert e[|e| - |x| - 1] in e;
      assert s[|s| - |t|..][0] != t[0];
    } else if |e| < |x| {
      var k := |x| - |e|;
      assert x[k - 1] in x;
      assert t[k] != '.';
      if |t| <= |s| {
        assert s[|s| - |t|..][k] == s[|a|] == '.';
      }
    } else {
      assert s[|s| - |t|..] == "." + e;
      assert ("." + e)[1..] == e && ("." + x)[1..] == x;
    }
  }

  /** Lower-casing keeps a '.' where it is and brings in none. */
  lemma LowerDotJoin(a: string, e: string)
    ensures ToLower(a + "." + e) == ToLower(a) + "." + ToLower(e)
    ensures '.' !in e ==> '.' !in ToLower(e)
  {
    assert ToLower(a + "." + e) == ToLower(a) + "." + ToLower(e) by {
      var s := a + "." + e;
      assert forall i :: 0 <= i < |a| ==> s[i] == a[i];
      assert forall i :: 0 <= i < |e| ==> s[|a| + 1 + i] == e[i];
    }
    if '.' !in e {
      forall i | 0 <= i < |e|
        ensures ToLower(e)[i] != '.'
      {
        assert e[i] in e;
      }
    }
  }

  /**
   * Checking endings on the whole path gives the same answer as looking up the file's extension: for
   * "a.e" with a dot-free `e`, the format is the one for `e` lower-cased, which is `getFileExtension`'s answer.
   */
  lemma ImageFormatOfExtension(a: string, e: string)
    requires '.' !in e
    ensures GetImageFormat(a + "." + e) == FormatForExtension(ToLower(e))
    ensures GetImageFormat(a + "." + e) == FormatForExtension(PathManager.GetFileExtension(Some(a + "." + e)))
  {
    LowerDotJoin(a, e);
    FormatByEndingOf(ToLower(a), ToLower(e));
    PathManager.ExtensionOf(a, e);
  }

  /** A path without any '.' is written as PNG. */
  lemma NoExtensionIsPng(imagePath: string)
    requires '.' !in imagePath
    ensures GetImageFormat(imagePath) == "png"
  {
    var lower := ToLower(imagePath);
    forall i | 0 <= i < |lower|
      ensures lower[i] != '.'
    {
      assert imagePath[i] in imagePath;
    }
    forall x: string | x in {".jpg", ".jpeg", ".png", ".bmp", ".gif"}
      ensures !EndsWith(lower, x)
    {
      assert x[0] == '.';
      if |x| <= |lower| {
        assert lower[|lower| - |x|..][0] == lower[|lower| - |x|] != '.';
      }
    }
  }
}
