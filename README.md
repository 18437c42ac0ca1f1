# Watermark application core, modelled in Dafny

This project models the logic of a desktop watermarking tool: a Java backend, driven from a web
page through a JavaScript bridge, and a Vue/Pinia store on the page side. The model covers the part
of the program that decides *what* is drawn and *where* it is saved. It does not cover pixels,
files or threads.

- **Configuration objects** (`config.dfy`). `WatermarkConfig`, `TextWatermarkConfig` and
  `ImageWatermarkConfig` are classes. Their clamping setters keep each object's `Valid()` invariant,
  and every setter states its complete new state as a change of the `View()` snapshot. The text and
  image classes hold their base part as a `const` field, in place of Java's inheritance.
- **Placement** (`geometry.dfy`). `calculatePosition` is modelled in 32-bit Java arithmetic: its
  nine anchors, its switch default and its final clamp.
- **Colours** (`colors.dfy`). The colour deserializer and serializer are a string parser and
  printer. The model proves they round-trip.
- **Records** (`config_data.dfy`, `template.dfy`, `imageinfo.dfy`). These are the request
  record and its output configuration, templates, and the image record's id, size text and
  dimensions text.
- **Rendering strategies** (`graphics.dfy`, `text_strategy.dfy`, `image_strategy.dfy`,
  `strategy_factory.dfy`).
  - A `Graphics` object stands for Java's `Graphics2D`. Each draw call appends to a log of draw
    commands, together with the colour, composite, stroke, font and transform in force at that
    moment.
  - The text strategy and the image strategy are proved against plan functions. The plans state the
    order, count, positions and alpha values of the draws.
  - Text metrics and the overlay picture are parameters.
- **Services**.
  - `watermark_service.dfy` covers request parsing, conversion to a configuration, output naming,
    the output format and validation.
  - `export_service.dfy` covers export settings, their parsing, naming, and the bounded search for a
    free file name.
  - `path_manager.dfy` covers the application directories, extensions, thumbnail names and the path
    guards.
  - A parsed JSON request is a map from keys to values (`json.dfy`).
  - The files that exist on disk are a set of paths. The platform separator and `user.home` are
    parameters.
- **Bridges**.
  - `js_bridge.dfy` covers the batch tally loop, JavaScript call building, error responses and log
    levels.
  - `simple_bridge.dfy` covers the stand-alone bridge's own parsing, its fixed-margin placement
    switches, its output path and its image format. Each is related to the full service.
- **Front-end store** (`store.dfy`). The Pinia store is a class.
  - `Object.assign` becomes a map merge, and `toFileUrl` a string function.
  - The 10 ms `setTimeout` in `setCurrentImage` becomes a queue of pending URLs, which
    `DeliverPreviewUrl` publishes.
- **Java semantics** (`jint.dfy`, `strings.dfy`, `wrappers.dfy`). These cover 32-bit wrap-around,
  truncating division, clamps, `Math.round`, `trim`, `indexOf`/`lastIndexOf`, ASCII case mapping,
  decimal printing, and an `Option`/`Result` pair for null and thrown exceptions.

How Java behaviour is represented:

- A Java `null` is `None`.
- A thrown exception is a `Failure` carrying the exception's name.
- A Java `float` is a Dafny `real`.
- Source cells below are paths relative to the repository root.

## Model

| member | source | states |
|---|---|---|
| JavaInt.Wrap32 | backend/src/main/java/com/watermark/model/ImageInfo.java:28-42 | Java int arithmetic: the result is an int congruent to the exact value modulo 2^32, and an in-range value is kept |
| JavaInt.TruncDiv | backend/src/main/java/com/watermark/model/WatermarkConfig.java:100-106 | Java's `/` on ints: the remainder has the dividend's sign and is smaller than the divisor; for non-negative operands it is Dafny's division |
| JavaInt.ClampInt | backend/src/main/java/com/watermark/model/TextWatermarkConfig.java:135 | `Math.max(lo, Math.min(hi, v))`: within [lo, hi], an in-range value kept, an out-of-range one moved to the nearer bound |
| JavaInt.ClampReal | backend/src/main/java/com/watermark/model/WatermarkConfig.java:62-72 | the same clamp on floats |
| JavaInt.Round | backend/src/main/java/com/watermark/model/TextWatermarkConfig.java:87 | `Math.round`: the int nearest to x with halves rounded up, saturated at the int range |
| JavaInt.ScaledSize | backend/src/main/java/com/watermark/model/ImageWatermarkConfig.java:49-58 | a size in [0, 2000] scaled by [0.1, 5] rounds to a value in [0, 10000], at least 1 for a size of 10 or more |
| Strs.JavaText | backend/src/main/java/com/watermark/service/ExportService.java:128 | string concatenation prints null as "null" |
| Strs.Trim | backend/src/main/java/com/watermark/util/ColorDeserializer.java:20-26 | `trim()`: no character up to ' ' at either end, and empty exactly when every character is one |
| Strs.LastIndexOf | backend/src/main/java/com/watermark/util/PathManager.java:195-198 | the last occurrence, or -1 exactly when there is none |
| Strs.IndexOfFrom | backend/src/main/java/com/watermark/service/ExportService.java:139-146 | the first occurrence at or after `from`, or -1 when there is none |
| Strs.ReplaceChar | backend/src/main/java/com/watermark/service/WatermarkService.java:452 | `replace(a, b)`: every a replaced by b, nothing else changed |
| Strs.IntToString | backend/src/main/java/com/watermark/service/ExportService.java:220 | the decimal text of an int: digits with a leading '-' exactly for negatives; different ints print differently (IntToStringInjective) |
| Strs.IntToStringInjective | backend/src/main/java/com/watermark/service/ExportService.java:220 | equal decimal texts come from equal ints |
| Strs.CountCharAppend | backend/src/main/java/com/watermark/bridge/JavaScriptBridge.java:582-583 | counting a character over a concatenation adds the two counts |
| Geometry.AnchorPoint | backend/src/main/java/com/watermark/model/WatermarkConfig.java:87-129 | each of the ten positions picks, per axis, the near edge (`offset`), the centre (`(size - wm) / 2 + offset`) or the far edge (`size - wm - offset`); CUSTOM and the default behave like TOP_LEFT |
| Geometry.ClampAxis | backend/src/main/java/com/watermark/model/WatermarkConfig.java:132-133 | `max(0, min(v, limit))` is never negative, at most a non-negative limit, 0 for a negative limit, and `v` itself when `v` already fits |
| Geometry.CalculatePosition | backend/src/main/java/com/watermark/model/WatermarkConfig.java:83-136 | whatever the anchor and offsets (negative ones too), x, y >= 0; x <= W - w when the watermark fits, x == 0 when it is wider than the image (the same for y); an anchor that already fits is returned unchanged |
| Geometry.AxisAnchorAsMargin | backend/src/main/java/com/watermark/model/WatermarkConfig.java:88-123 | without overflow, near anchors sit `offset` from the left/top edge, centre anchors at `(size - wm) / 2 + offset`, far anchors leave exactly `offset` between the watermark and the right/bottom edge |
| Geometry.BottomRightKeepsMargins | backend/src/main/java/com/watermark/model/WatermarkConfig.java:120-123 | BOTTOM_RIGHT with margins that fit puts the watermark's right and bottom edges exactly offsetX and offsetY inside the image |
| Geometry.TopLeftIsCustom | backend/src/main/java/com/watermark/model/WatermarkConfig.java:88-91 | TOP_LEFT and CUSTOM give the same point for every input |
| Geometry.CentreDivisionAgrees | backend/src/main/java/com/watermark/model/WatermarkConfig.java:93 | after the clamp, Java's truncating `/ 2` of the centre anchors and Euclidean division give the same coordinate |
| Geometry.MiddleCenterIsCentred | backend/src/main/java/com/watermark/model/WatermarkConfig.java:104-106 | MIDDLE_CENTER with zero offsets leaves space on the two sides that differs by at most one pixel, on both axes |
| Config.DefaultBase | backend/src/main/java/com/watermark/model/WatermarkConfig.java:31-38 | the field initialisers (BOTTOM_RIGHT, offsets 20/20, opacity 0.7, rotation 0, scale 1, outputPath "") satisfy the clamp ranges |
| Config.DefaultText | backend/src/main/java/com/watermark/model/TextWatermarkConfig.java:13-29 | the text defaults (text 水印, fontSize 36, shadow on with blur 3, stroke off with width 1) satisfy the text ranges |
| Config.DefaultImage | backend/src/main/java/com/watermark/model/ImageWatermarkConfig.java:11-14 | the image defaults (100 x 100, aspect ratio kept) satisfy the image ranges |
| Config.CreateFont | backend/src/main/java/com/watermark/model/TextWatermarkConfig.java:76-88 | the family is kept; the style is PLAIN, BOLD, ITALIC or BOLD+ITALIC according to the two flags; the size is `round(fontSize * scale)` |
| Config.FillAlpha | backend/src/main/java/com/watermark/model/TextWatermarkConfig.java:98 | `round(255 * opacity)` lies in [0, 255], is 255 at opacity 1 and 0 at opacity 0 |
| Config.ShadowAlpha | backend/src/main/java/com/watermark/model/TextWatermarkConfig.java:110 | `round(255 * opacity * 0.8)` lies in [0, 204] |
| Config.ShadowNoDarkerThanFill | backend/src/main/java/com/watermark/model/TextWatermarkConfig.java:98-122 | the shadow alpha never exceeds the text alpha |
| Config.WithAlpha | backend/src/main/java/com/watermark/model/TextWatermarkConfig.java:94-99 | `new Color(r, g, b, alpha)` keeps the RGB and takes the new alpha |
| Config.ColorWithOpacity | backend/src/main/java/com/watermark/model/TextWatermarkConfig.java:93-100 | the text colour's RGB with alpha `round(255 * opacity)` |
| Config.ShadowColorWithOpacity | backend/src/main/java/com/watermark/model/TextWatermarkConfig.java:105-112 | the shadow colour's RGB, with an alpha no greater than the text colour's |
| Config.StrokeColorWithOpacity | backend/src/main/java/com/watermark/model/TextWatermarkConfig.java:117-124 | the stroke colour's RGB with the same alpha as the text colour |
| Config.ScaledWidth | backend/src/main/java/com/watermark/model/ImageWatermarkConfig.java:49-51 | `round(width * scale)`: within 0.5 of the exact product, in [0, 10000], and at least 1 for a setter-range width |
| Config.ScaledHeight | backend/src/main/java/com/watermark/model/ImageWatermarkConfig.java:56-58 | the same for the height |
| Config.AdjustedSize | backend/src/main/java/com/watermark/model/ImageWatermarkConfig.java:63-73 | no change unless the ratio is kept and both original sides are positive; a wide original changes only the height, any other only the width; every other field is untouched |
| Config.HeightFromWidth | backend/src/main/java/com/watermark/model/ImageWatermarkConfig.java:67-68 | `round(width / aspect)` is within 0.5 of `width * oh / ow` and lies in [0, width] |
| Config.WidthFromHeight | backend/src/main/java/com/watermark/model/ImageWatermarkConfig.java:69-70 | `round(height * aspect)` is within 0.5 of `height * ow / oh` and lies in [0, height] |
| Config.AdjustSizeLeavesSetterRange | backend/src/main/java/com/watermark/model/ImageWatermarkConfig.java:63-73 | `adjustSize` can leave the setters' [10, 2000] range: width 10 over a 100 x 1 original gives height 0 |
| Config.WatermarkConfig.constructor | backend/src/main/java/com/watermark/model/WatermarkConfig.java:31-42 | a new base object has the given type and the field defaults |
| Config.WatermarkConfig.SetType | backend/src/main/java/com/watermark/model/WatermarkConfig.java:49 | only the type changes |
| Config.WatermarkConfig.SetPosition | backend/src/main/java/com/watermark/model/WatermarkConfig.java:52 | only the position changes |
| Config.WatermarkConfig.SetOffsetX | backend/src/main/java/com/watermark/model/WatermarkConfig.java:55 | only offsetX changes, to the value given |
| Config.WatermarkConfig.SetOffsetY | backend/src/main/java/com/watermark/model/WatermarkConfig.java:58 | only offsetY changes, to the value given |
| Config.WatermarkConfig.SetOpacity | backend/src/main/java/com/watermark/model/WatermarkConfig.java:61-63 | only opacity changes, to the value clamped into [0, 1] (an in-range value unchanged); the invariant is kept |
| Config.WatermarkConfig.SetRotation | backend/src/main/java/com/watermark/model/WatermarkConfig.java:66-68 | only rotation changes, clamped into [-180, 180] |
| Config.WatermarkConfig.SetScale | backend/src/main/java/com/watermark/model/WatermarkConfig.java:71-73 | only scale changes, clamped into [0.1, 5] |
| Config.WatermarkConfig.SetOutputPath | backend/src/main/java/com/watermark/model/WatermarkConfig.java:76-78 | null stores "", any other value is stored as given; nothing else changes |
| Config.WatermarkConfig.ApplyBaseProperties | backend/src/main/java/com/watermark/model/TextWatermarkConfig.java:45-50 | the six base setter calls of `copy` leave exactly the source's position, offsets, opacity, rotation and scale, with its own type and output path |
| Config.WatermarkConfig.CalculatePositionFor | backend/src/main/java/com/watermark/model/WatermarkConfig.java:83-136 | `calculatePosition` on the object's own position and offsets, never negative |
| Config.TextWatermarkConfig.constructor | backend/src/main/java/com/watermark/model/TextWatermarkConfig.java:31-33 | type TEXT and every text default |
| Config.TextWatermarkConfig.WithText | backend/src/main/java/com/watermark/model/TextWatermarkConfig.java:35-38 | the defaults with the given text |
| Config.TextWatermarkConfig.CopyOf | backend/src/main/java/com/watermark/model/TextWatermarkConfig.java:41-71 | the object `copy` builds: base properties through the setters, type TEXT, outputPath "", every text field copied, each colour through `new Color(getRGB())` |
| Config.TextWatermarkConfig.SetText | backend/src/main/java/com/watermark/model/TextWatermarkConfig.java:128 | only the text changes |
| Config.TextWatermarkConfig.SetFontFamily | backend/src/main/java/com/watermark/model/TextWatermarkConfig.java:131 | only the family changes |
| Config.TextWatermarkConfig.SetFontSize | backend/src/main/java/com/watermark/model/TextWatermarkConfig.java:134-136 | only fontSize changes, clamped into [8, 200] |
| Config.TextWatermarkConfig.SetBold | backend/src/main/java/com/watermark/model/TextWatermarkConfig.java:139 | only the bold flag changes |
| Config.TextWatermarkConfig.SetItalic | backend/src/main/java/com/watermark/model/TextWatermarkConfig.java:142 | only the italic flag changes |
| Config.TextWatermarkConfig.SetColor | backend/src/main/java/com/watermark/model/TextWatermarkConfig.java:145 | only the colour changes |
| Config.TextWatermarkConfig.SetHasShadow | backend/src/main/java/com/watermark/model/TextWatermarkConfig.java:148 | only the shadow flag changes |
| Config.TextWatermarkConfig.SetShadowColor | backend/src/main/java/com/watermark/model/TextWatermarkConfig.java:151 | only the shadow colour changes |
| Config.TextWatermarkConfig.SetShadowOffsetX | backend/src/main/java/com/watermark/model/TextWatermarkConfig.java:154 | only shadowOffsetX changes |
| Config.TextWatermarkConfig.SetShadowOffsetY | backend/src/main/java/com/watermark/model/TextWatermarkConfig.java:157 | only shadowOffsetY changes |
| Config.TextWatermarkConfig.SetShadowBlur | backend/src/main/java/com/watermark/model/TextWatermarkConfig.java:160-162 | only shadowBlur changes, clamped into [0, 20] |
| Config.TextWatermarkConfig.SetHasStroke | backend/src/main/java/com/watermark/model/TextWatermarkConfig.java:165 | only the stroke flag changes |
| Config.TextWatermarkConfig.SetStrokeColor | backend/src/main/java/com/watermark/model/TextWatermarkConfig.java:168 | only the stroke colour changes |
| Config.TextWatermarkConfig.SetStrokeWidth | backend/src/main/java/com/watermark/model/TextWatermarkConfig.java:171-173 | only strokeWidth changes, clamped into [1, 10] |
| Config.TextWatermarkConfig.Copy | backend/src/main/java/com/watermark/model/TextWatermarkConfig.java:40-71 | a fresh object equal to the original except type TEXT, outputPath "" and the three colours made opaque (alpha 255) |
| Config.ImageWatermarkConfig.constructor | backend/src/main/java/com/watermark/model/ImageWatermarkConfig.java:16-23 | type IMAGE, the given (or null) image path, 100 x 100, aspect ratio kept |
| Config.ImageWatermarkConfig.SetImagePath | backend/src/main/java/com/watermark/model/ImageWatermarkConfig.java:77 | only the image path changes |
| Config.ImageWatermarkConfig.SetWidth | backend/src/main/java/com/watermark/model/ImageWatermarkConfig.java:80-82 | only width changes, clamped into [10, 2000] |
| Config.ImageWatermarkConfig.SetHeight | backend/src/main/java/com/watermark/model/ImageWatermarkConfig.java:85-87 | only height changes, clamped into [10, 2000] |
| Config.ImageWatermarkConfig.SetMaintainAspectRatio | backend/src/main/java/com/watermark/model/ImageWatermarkConfig.java:90-92 | only the flag changes |
| Config.ImageWatermarkConfig.AdjustSize | backend/src/main/java/com/watermark/model/ImageWatermarkConfig.java:63-73 | the fields become `AdjustedSize` of the old fields and the original dimensions |
| Config.ImageWatermarkConfig.Copy | backend/src/main/java/com/watermark/model/ImageWatermarkConfig.java:25-44 | a fresh object equal to the original except type IMAGE and outputPath "" |
| Config.CopiedView | backend/src/main/java/com/watermark/model/WatermarkConfig.java:45 | `copy()` keeps the concrete class, resets outputPath to "" and keeps every other base field; a valid configuration copies to a valid one |
| Config.CopyOfCopy | backend/src/main/java/com/watermark/model/WatermarkConfig.java:45 | copying a copy changes nothing further |
| Config.CopyConfig | backend/src/main/java/com/watermark/model/WatermarkConfig.java:45 | the abstract `copy()` dispatched on the object's class builds fresh objects whose fields are `CopiedView` of the original's |
| Colors.FromRGB | backend/src/main/java/com/watermark/util/ColorDeserializer.java:57-58 | `new Color(rgb)` takes the low 24 bits and is always opaque |
| Colors.GetRGB | backend/src/main/java/com/watermark/model/TextWatermarkConfig.java:58 | `getRGB()` is the ARGB value alpha·2^24 + RGB read back as a signed 32-bit int |
| Colors.OpaqueCopy | backend/src/main/java/com/watermark/model/TextWatermarkConfig.java:58-67 | `new Color(c.getRGB())` keeps red, green and blue and makes the colour opaque |
| Colors.CopyColor | backend/src/main/java/com/watermark/model/TextWatermarkConfig.java:58-67 | the colour duplicate used by `copy` is the original with alpha 255 |
| Colors.ParseHexInt | backend/src/main/java/com/watermark/util/ColorDeserializer.java:32 | hex parsing succeeds exactly for a non-empty string of ASCII hex digits whose value fits an int, and then yields that value |
| Colors.ParseHexLong | backend/src/main/java/com/watermark/util/ColorDeserializer.java:35-47 | `Long.parseLong(s, 16)`: succeeds exactly for an optional '+' or '-' followed by one or more ASCII hex digits whose signed value fits a long, and then yields that signed value |
| Colors.ParseDecInt | backend/src/main/java/com/watermark/util/ColorDeserializer.java:57 | `Integer.parseInt`: succeeds exactly for an optional '+' or '-' followed by one or more ASCII decimal digits whose signed value fits an int, and then yields that signed value |
| Colors.ParseDecIntOfIntToString | backend/src/main/java/com/watermark/util/ColorDeserializer.java:57 | `Integer.parseInt` reads back the decimal text of every int |
| Colors.DecodeHash | backend/src/main/java/com/watermark/util/ColorDeserializer.java:32 | `Color.decode` of "#..." succeeds exactly when the digits parse as an int; the colour is opaque and, for at most six digits, has exactly that RGB value |
| Colors.DecimalColor | backend/src/main/java/com/watermark/util/ColorDeserializer.java:55-61 | an int-parsable text gives `new Color(rgb)`, the opaque colour of its low 24 bits; any other text gives WHITE |
| Colors.Deserialize | backend/src/main/java/com/watermark/util/ColorDeserializer.java:17-69 | null or blank input gives WHITE; otherwise the trimmed value goes through the "#"-7, "#"-9, bare-6, bare-8 and decimal branches, and every failure gives WHITE |
| Colors.HexUpper | backend/src/main/java/com/watermark/util/ColorSerializer.java:24 | one `%X` digit: a hex digit of the given value, never lower-case |
| Colors.Hex2 | backend/src/main/java/com/watermark/util/ColorSerializer.java:24 | `%02X`: exactly two upper-case hex digits whose value is the byte |
| Colors.Serialize | backend/src/main/java/com/watermark/util/ColorSerializer.java:17-31 | always "#" and six upper-case hex digits; null gives "#FFFFFF"; otherwise the digits' value is the colour's RGB (alpha dropped) |
| Colors.DeserializeHashSeven | backend/src/main/java/com/watermark/util/ColorDeserializer.java:29-32 | an already-trimmed "#RRGGBB" is handed to `Color.decode` |
| Colors.SerializeRoundTrip | backend/src/main/java/com/watermark/util/ColorSerializer.java:24-28 | deserialising a serialised colour gives back its red, green and blue with alpha 255 |
| Colors.SixCharactersAreHex | backend/src/main/java/com/watermark/util/ColorDeserializer.java:42-44 | a bare six-digit value is read as hex RRGGBB, before any decimal reading ("123456" is hex) |
| Colors.DeserializeHashNine | backend/src/main/java/com/watermark/util/ColorDeserializer.java:33-35 | an already-trimmed "#AARRGGBB" is handed to `Long.parseLong` of its eight digits |
| Colors.HashArgb | backend/src/main/java/com/watermark/util/ColorDeserializer.java:33-40 | "#AARRGGBB" gives exactly the colour with that alpha, red, green and blue |
| Colors.BareArgb | backend/src/main/java/com/watermark/util/ColorDeserializer.java:45-52 | the bare "AARRGGBB" text of a colour gives exactly that colour back |
| Colors.DeserializeDecimal | backend/src/main/java/com/watermark/util/ColorDeserializer.java:55-58 | the decimal text of an int, unless it is 6 or 8 characters long, gives `new Color(rgb)` of that int |
| Colors.HashOtherLengthIsWhite | backend/src/main/java/com/watermark/util/ColorDeserializer.java:29-68 | a '#' value whose trimmed length is neither 7 nor 9 gives WHITE |
| Colors.DeserializeTrims | backend/src/main/java/com/watermark/util/ColorDeserializer.java:20-26 | the value is trimmed before any prefix or length test: a non-blank value deserialises exactly as its trimmed text |
| Colors.ParseColor | backend/src/main/java/com/watermark/service/WatermarkService.java:490-501 | null or a value not starting with '#' gives WHITE; a decodable '#' value gives an opaque colour; a decode failure gives WHITE |
| Colors.ParseColorRoundTrip | backend/src/main/java/com/watermark/SimpleWebApp.java:593-603 | a colour written as "#RRGGBB" is read back through `parseColor` with the same RGB and alpha 255 |
| Colors.RgbValueOfFromRGB | backend/src/main/java/com/watermark/util/ColorDeserializer.java:57-58 | `new Color(rgb)` of a 24-bit value reads back that value |
| Colors.FromRgbValue | backend/src/main/java/com/watermark/util/ColorDeserializer.java:57-58 | `new Color(rgb)` of a colour's RGB value gives back its channels, opaque |
| Colors.FromArgbValue | backend/src/main/java/com/watermark/util/ColorDeserializer.java:35-40 | the bytes of an ARGB value, split by shifts and masks, give back the colour |
| ConfigData.DefaultData | backend/src/main/java/com/watermark/dto/WatermarkConfigData.java:12-48 | the record's initialisers: type TEXT, text 水印, BOTTOM_RIGHT, opacity 0.7, fontSize 24, "#FFFFFF", empty paths, offsets 20/20, rotation 0, scale 1, 100 x 100 with the ratio kept, and the default OutputConfig (suffix, "wm_", "_watermarked") |
| ConfigData.TypedData | backend/src/main/java/com/watermark/dto/WatermarkConfigData.java:77-80 | the two-argument constructor sets type and text and leaves every other field at its default |
| Template.WatermarkTemplate.constructor | backend/src/main/java/com/watermark/model/WatermarkTemplate.java:26-29 | a new template has no id, name, description or configuration, and both timestamps are the current time |
| Template.WatermarkTemplate.Named | backend/src/main/java/com/watermark/model/WatermarkTemplate.java:31-35 | the two-argument constructor sets name and configuration only |
| Template.WatermarkTemplate.Described | backend/src/main/java/com/watermark/model/WatermarkTemplate.java:37-40 | the three-argument constructor also sets the description |
| Template.WatermarkTemplate.UpdateTimestamp | backend/src/main/java/com/watermark/model/WatermarkTemplate.java:64-66 | only updatedAt changes, to the current time |
| Template.WatermarkTemplate.Copy | backend/src/main/java/com/watermark/model/WatermarkTemplate.java:71-77 | fails exactly when there is no configuration (the null dereference); otherwise a fresh template with no id, the name plus " (副本)" (a null name prints as "null"), the same description, new timestamps and a separate copy of the configuration |
| ImageInfoModel.HashCode | backend/src/main/java/com/watermark/model/ImageInfo.java:41 | `String.hashCode()`: `h = 31 * h + c` over the path's UTF-16 code units in int arithmetic, always an int |
| ImageInfoModel.HashCodeIsWrappedPolynomial | backend/src/main/java/com/watermark/model/ImageInfo.java:41 | the step-wise wrapped hash equals the exact polynomial sum of u·31^k over the UTF-16 units, wrapped once to 32 bits |
| ImageInfoModel.Units | backend/src/main/java/com/watermark/model/ImageInfo.java:41 | a character up to U+FFFF is one code unit, a later one a high and a low surrogate that together encode it |
| ImageInfoModel.Utf16OfBasicText | backend/src/main/java/com/watermark/model/ImageInfo.java:41 | a text of characters up to U+FFFF has one code unit per character, equal to it, so the hash runs over its characters |
| ImageInfoModel.Utf16OfSupplementary | backend/src/main/java/com/watermark/model/ImageInfo.java:41 | U+1F600 is the two units D83D DE00 and hashes as 31 · 0xD83D + 0xDE00 |
| ImageInfoModel.Abs32 | backend/src/main/java/com/watermark/model/ImageInfo.java:41 | `Math.abs(int)`: non-negative except for MIN_VALUE, which is returned unchanged |
| ImageInfoModel.GenerateId | backend/src/main/java/com/watermark/model/ImageInfo.java:39-42 | an id always starts with "img_" |
| ImageInfoModel.IdAfterPrefix | backend/src/main/java/com/watermark/model/ImageInfo.java:40-41 | after the prefix come the milliseconds, "_" and the absolute hash |
| ImageInfoModel.GenerateIdDeterminesParts | backend/src/main/java/com/watermark/model/ImageInfo.java:39-42 | two equal ids were made at the same millisecond from paths with the same absolute hash |
| ImageInfoModel.Tenths | backend/src/main/java/com/watermark/model/ImageInfo.java:82-84 | the `%.1f` figure as a count of tenths: the nearest tenth of n / d, halves rounded up |
| ImageInfoModel.TenthsText | backend/src/main/java/com/watermark/model/ImageInfo.java:82-84 | a count of tenths prints as digits, '.', one digit |
| ImageInfoModel.FileSizeText | backend/src/main/java/com/watermark/model/ImageInfo.java:78-86 | below 1024 the byte count and " B"; below 1024² the KB figure; above it the MB figure |
| ImageInfoModel.FileSizeUnit | backend/src/main/java/com/watermark/model/ImageInfo.java:79-85 | the text ends in " B", " KB" or " MB" exactly when the size is in the matching range |
| ImageInfoModel.KiloFigureBounds | backend/src/main/java/com/watermark/model/ImageInfo.java:81-82 | the KB figure lies in 1.0 .. 1024.0, and one byte under a MiB prints as 1024.0 KB |
| ImageInfoModel.MegaFigureBounds | backend/src/main/java/com/watermark/model/ImageInfo.java:83-84 | the MB figure is at least 1.0 and within half a tenth of size / 2^20 |
| ImageInfoModel.DimensionsText | backend/src/main/java/com/watermark/model/ImageInfo.java:91-93 | the text starts with the width and ends with the height |
| ImageInfoModel.DimensionsInjective | backend/src/main/java/com/watermark/model/ImageInfo.java:92 | the dimensions text determines both width and height |
| ImageInfoModel.ImageInfo.constructor | backend/src/main/java/com/watermark/model/ImageInfo.java:28-30 | a blank record stamped with the import time |
| ImageInfoModel.ImageInfo.ForFile | backend/src/main/java/com/watermark/model/ImageInfo.java:32-37 | sets file name and path, the import time and an id derived from time and path that starts with "img_"; nothing else |
| Graphics.Then | backend/src/main/java/com/watermark/strategy/TextWatermarkStrategy.java:142-144 | appending a transform keeps the normal form, and an identity translation or rotation changes nothing |
| Graphics.RotateAbout | backend/src/main/java/com/watermark/strategy/TextWatermarkStrategy.java:56 | `rotate(theta, x, y)` as translate, rotate, translate back, in normal form |
| Graphics.ShiftBack | backend/src/main/java/com/watermark/strategy/TextWatermarkStrategy.java:142-144 | a translation followed by its opposite restores the transform exactly |
| Graphics.Graphics.constructor | backend/src/main/java/com/watermark/strategy/TextWatermarkStrategy.java:36-42 | a fresh context is white, opaque, 1-pixel stroke, no font, identity transform, nothing drawn |
| Graphics.Graphics.SetColor | backend/src/main/java/com/watermark/strategy/TextWatermarkStrategy.java:105 | only the colour changes; nothing is drawn |
| Graphics.Graphics.SetComposite | backend/src/main/java/com/watermark/strategy/TextWatermarkStrategy.java:115 | only the composite alpha changes |
| Graphics.Graphics.SetStroke | backend/src/main/java/com/watermark/strategy/TextWatermarkStrategy.java:132 | only the stroke width changes |
| Graphics.Graphics.SetFont | backend/src/main/java/com/watermark/strategy/TextWatermarkStrategy.java:61 | only the font changes |
| Graphics.Graphics.Translate | backend/src/main/java/com/watermark/strategy/TextWatermarkStrategy.java:142 | the transform is followed by the translation; nothing else changes |
| Graphics.Graphics.Rotate | backend/src/main/java/com/watermark/strategy/TextWatermarkStrategy.java:56 | the transform is followed by the rotation about the point |
| Graphics.Graphics.SetTransform | backend/src/main/java/com/watermark/strategy/ImageWatermarkStrategy.java:177 | the transform becomes the given one |
| Graphics.Graphics.DrawString | backend/src/main/java/com/watermark/strategy/TextWatermarkStrategy.java:116 | one text draw recorded with the current font, colour, alpha and transform; the state is unchanged |
| Graphics.Graphics.DrawOutline | backend/src/main/java/com/watermark/strategy/TextWatermarkStrategy.java:143 | one outline draw recorded with the current colour, stroke, alpha and transform |
| Graphics.Graphics.DrawImage | backend/src/main/java/com/watermark/strategy/TextWatermarkStrategy.java:46 | one image draw recorded with the current alpha and transform |
| TextStrategy.BlurDrawsShape | backend/src/main/java/com/watermark/strategy/TextWatermarkStrategy.java:114-118 | every draw of n blur rounds is the text with the same font, colour, alpha and transform, and round i is the pair at (x + i, y + i) then (x - i, y - i) |
| TextStrategy.BlurDraws | backend/src/main/java/com/watermark/strategy/TextWatermarkStrategy.java:114-118 | n rounds of the blur loop make exactly 2 · n draws (`BlurDrawsShape` fixes each pair) |
| TextStrategy.ShadowDraws | backend/src/main/java/com/watermark/strategy/TextWatermarkStrategy.java:103-124 | `drawTextShadow` draws 2 · blur copies with blur and one copy without, every one the text in the shadow colour under the current transform |
| TextStrategy.StrokeState | backend/src/main/java/com/watermark/strategy/TextWatermarkStrategy.java:131-144 | after the stroke step the transform is still in normal form |
| TextStrategy.TextTransform | backend/src/main/java/com/watermark/strategy/TextWatermarkStrategy.java:54-57 | no rotation gives the identity transform |
| TextStrategy.AfterShadow | backend/src/main/java/com/watermark/strategy/TextWatermarkStrategy.java:111-123 | the shadow step keeps the transform and font, and leaves a full composite at full composite |
| TextStrategy.AfterStroke | backend/src/main/java/com/watermark/strategy/TextWatermarkStrategy.java:129-145 | the stroke step keeps the font and a normal-form transform |
| TextStrategy.ShadowPartShape | backend/src/main/java/com/watermark/strategy/TextWatermarkStrategy.java:103-124 | the shadow step makes 2·blur draws (one when blur is 0, none when the shadow is off), all of the text in the shadow colour, the first at (x + shadowOffsetX, y + ascent + shadowOffsetY) |
| TextStrategy.ShadowBlurPairs | backend/src/main/java/com/watermark/strategy/TextWatermarkStrategy.java:111-118 | with blur b > 0 every shadow draw has alpha 0.3 / b and they come in the pairs (sx + i, sy + i), (sx - i, sy - i) for i in [0, b) |
| TextStrategy.PlanShape | backend/src/main/java/com/watermark/strategy/TextWatermarkStrategy.java:78-89 | the shadow draws come first, then the outline if enabled (full composite, stroke colour and width), and the main text is always last, at (x, y + ascent) with alpha = opacity in the text colour and font |
| TextStrategy.PlanAt | backend/src/main/java/com/watermark/strategy/TextWatermarkStrategy.java:78-89 | the optional shadow, the optional outline, then the main text; `PlanShape` states the order, the counts and each part's colour and alpha, `PlanKeepsTransform` the transform the text ends under |
| TextStrategy.TextPlan | backend/src/main/java/com/watermark/strategy/TextWatermarkStrategy.java:54-89 | the plan drawn with `createFont`, the position `calculatePosition` gives for the measured text, under the rotation about the canvas centre when a rotation is set |
| TextStrategy.PlanKeepsTransform | backend/src/main/java/com/watermark/strategy/TextWatermarkStrategy.java:142-144 | without overflow the stroke's translate and its undo cancel, so the main text is drawn under the starting transform |
| TextStrategy.StrokeLeavesTransform | backend/src/main/java/com/watermark/strategy/TextWatermarkStrategy.java:63-89 | with an ascent within the text height, the main text is drawn under the canvas rotation alone |
| TextStrategy.RotationAboutCentre | backend/src/main/java/com/watermark/strategy/TextWatermarkStrategy.java:54-57 | a rotation is applied exactly when the angle is non-zero, about (W / 2, H / 2) |
| TextStrategy.DrawBlur | backend/src/main/java/com/watermark/strategy/TextWatermarkStrategy.java:113-118 | the blur loop records exactly `BlurDraws` and leaves the composite at the blur alpha |
| TextStrategy.DrawBlurRound | backend/src/main/java/com/watermark/strategy/TextWatermarkStrategy.java:115-117 | one loop round: the composite, then the draws at (x + i, y + i) and (x - i, y - i) |
| TextStrategy.DrawTextShadow | backend/src/main/java/com/watermark/strategy/TextWatermarkStrategy.java:103-124 | `drawTextShadow` records the blur copies (or the single copy) in the shadow colour and resets the composite to 1.0 after blur |
| TextStrategy.DrawTextStroke | backend/src/main/java/com/watermark/strategy/TextWatermarkStrategy.java:129-145 | `drawTextStroke` records one outline under the translated transform, then translates back |
| TextStrategy.DrawMainText | backend/src/main/java/com/watermark/strategy/TextWatermarkStrategy.java:150-155 | `drawMainText` records the text at (x, y + ascent) in the text colour with alpha = opacity |
| TextStrategy.MainDraw | backend/src/main/java/com/watermark/strategy/TextWatermarkStrategy.java:150-155 | the main text draw at (x, y + ascent) in the text colour with alpha = opacity; `PlanShape` states it is the last draw of the plan |
| TextStrategy.DrawText | backend/src/main/java/com/watermark/strategy/TextWatermarkStrategy.java:78-89 | the three steps record exactly the plan: shadow if enabled, stroke if enabled, main text |
| TextStrategy.Render | backend/src/main/java/com/watermark/strategy/TextWatermarkStrategy.java:36-97 | a canvas of the original's size holding the original drawn at (0, 0) and then the text plan for the measured text |
| TextStrategy.Prepare | backend/src/main/java/com/watermark/strategy/TextWatermarkStrategy.java:53-61 | rotation about the centre only for a non-zero angle, then the configured font |
| TextStrategy.ApplyWatermark | backend/src/main/java/com/watermark/strategy/TextWatermarkStrategy.java:22-98 | fails exactly for a non-text configuration; a null or blank text returns the original itself; otherwise the rendered canvas |
| ImageStrategy.TruncatedShare | backend/src/main/java/com/watermark/strategy/ImageWatermarkStrategy.java:133-135 | the truncated share of a side keeps the ratio to within one unit and never exceeds the side |
| ImageStrategy.AspectTarget | backend/src/main/java/com/watermark/strategy/ImageWatermarkStrategy.java:119-137 | the scaled size, or with the ratio kept: a wide overlay keeps the width and gets a proportional height, any other keeps the height and gets a proportional width, each side at most the kept one |
| ImageStrategy.KeepAspect | backend/src/main/java/com/watermark/strategy/ImageWatermarkStrategy.java:129-137 | the same correction on plain numbers |
| ImageStrategy.ScaledPicture | backend/src/main/java/com/watermark/strategy/ImageWatermarkStrategy.java:119-154 | an overlay already of the scaled size is used as is (checked before the aspect correction); otherwise a new picture of the target size holding the stretched overlay; a zero target side fails |
| ImageStrategy.WideOverlayExample | backend/src/main/java/com/watermark/strategy/ImageWatermarkStrategy.java:129-137 | a 200 x 100 overlay fitted into the default 100 x 100 box comes out 100 x 50 |
| ImageStrategy.PivotIsOverlayCentre | backend/src/main/java/com/watermark/strategy/ImageWatermarkStrategy.java:161-162 | the rotation pivot is (x + w / 2, y + h / 2) and never overflows |
| ImageStrategy.Pivot | backend/src/main/java/com/watermark/strategy/ImageWatermarkStrategy.java:161-162 | the rotation centre (x + w / 2, y + h / 2) in int arithmetic; `PivotIsOverlayCentre` states that it never wraps |
| ImageStrategy.UnrotatedOverlay | backend/src/main/java/com/watermark/strategy/ImageWatermarkStrategy.java:76-80 | without rotation the overlay is drawn at its position with alpha = opacity under the identity transform |
| ImageStrategy.OverlayDraw | backend/src/main/java/com/watermark/strategy/ImageWatermarkStrategy.java:66-80 | the overlay drawn at its calculated position with alpha = opacity, rotated about its centre when a rotation is set; `UnrotatedOverlay` and `OverlayInsideImage` state the unrotated and the fitting cases |
| ImageStrategy.OverlayInsideImage | backend/src/main/java/com/watermark/strategy/ImageWatermarkStrategy.java:66-71 | an overlay that fits is drawn wholly inside the image |
| ImageStrategy.KeepAspectRatio | backend/src/main/java/com/watermark/strategy/ImageWatermarkStrategy.java:129-137 | the local reassignment of the target sides gives `KeepAspect` |
| ImageStrategy.Stretch | backend/src/main/java/com/watermark/strategy/ImageWatermarkStrategy.java:140-153 | a new picture of the target size with the overlay drawn over all of it |
| ImageStrategy.ScaleWatermarkImage | backend/src/main/java/com/watermark/strategy/ImageWatermarkStrategy.java:119-154 | `scaleWatermarkImage` yields exactly `ScaledPicture` |
| ImageStrategy.ApplyRotation | backend/src/main/java/com/watermark/strategy/ImageWatermarkStrategy.java:159-179 | one draw rotated about the overlay centre, with alpha = opacity, and the saved transform restored afterwards |
| ImageStrategy.Render | backend/src/main/java/com/watermark/strategy/ImageWatermarkStrategy.java:45-88 | the original at (0, 0), then the overlay at `calculatePosition` of its scaled size, rotated if a rotation is set |
| ImageStrategy.ApplyWatermark | backend/src/main/java/com/watermark/strategy/ImageWatermarkStrategy.java:24-89 | a non-image configuration fails; a blank path or an overlay that cannot be loaded returns the original; otherwise the rendered canvas |
| StrategyFactory.GetStrategy | backend/src/main/java/com/watermark/strategy/WatermarkStrategyFactory.java:20-29 | TEXT gives the text strategy and IMAGE the image strategy, each exactly; only a null type fails |
| StrategyFactory.Apply | backend/src/main/java/com/watermark/strategy/WatermarkStrategyFactory.java:20-29 | dispatching to the text strategy fails exactly for a non-text configuration, and the image strategy rejects a non-image one |
| Json.GetString | backend/src/main/java/com/watermark/service/WatermarkService.java:245 | `getString`: a missing or null key reads as null, a string as itself; other values are left as conversion failures |
| Json.IntValueOf | backend/src/main/java/com/watermark/service/WatermarkService.java:257 | `intValue()` truncates toward zero and keeps the low 32 bits; 0 reads as 0 |
| Json.GetIntValue | backend/src/main/java/com/watermark/service/WatermarkService.java:257 | `getIntValue`: a missing or null key reads as 0, a number as its `intValue()`; every result is an int |
| Json.GetFloatValue | backend/src/main/java/com/watermark/service/WatermarkService.java:254 | `getFloatValue`: a missing or null key reads as 0, a number as itself |
| Json.GetObject | backend/src/main/java/com/watermark/service/WatermarkService.java:290 | `getJSONObject`: a missing or null key reads as null, an object as itself |
| WatermarkService.OrElse | backend/src/main/java/com/watermark/service/WatermarkService.java:245-267 | a string read that is null takes the default, any other value is kept |
| WatermarkService.NonZeroOr | backend/src/main/java/com/watermark/service/WatermarkService.java:254-255 | a number read that is 0 takes the (non-zero) default |
| WatermarkService.NonZeroIntOr | backend/src/main/java/com/watermark/service/WatermarkService.java:257-258 | the same for an int read |
| WatermarkService.ParseOutputConfig | backend/src/main/java/com/watermark/service/WatermarkService.java:290-300 | a missing `outputConfig` keeps the record's default; a present one fills each null key with its default, so all three fields are set |
| WatermarkService.ParseFields | backend/src/main/java/com/watermark/service/WatermarkService.java:241-305 | a successful read leaves every string field non-null and opacity, fontSize, scale and the watermark size non-zero |
| WatermarkService.ParseWatermarkConfig | backend/src/main/java/com/watermark/service/WatermarkService.java:237-324 | a text that is not an object, or any read that throws, gives the complete default record; every result has its strings set and its zero-defaulted numbers non-zero |
| WatermarkService.ParsedStrings | backend/src/main/java/com/watermark/service/WatermarkService.java:245-267 | each string key taken as given, and a missing or null one replaced by its default (TEXT, 水印, BOTTOM_RIGHT, "#FFFFFF", "", "") |
| WatermarkService.ParsedNumbers | backend/src/main/java/com/watermark/service/WatermarkService.java:254-287 | opacity, fontSize, scale and the watermark size treat 0 as unset (an explicit opacity 0 becomes 0.7); non-zero numbers are taken; rotation has no default |
| WatermarkService.ParsedOffsets | backend/src/main/java/com/watermark/service/WatermarkService.java:279-285 | offsetX and offsetY become 20 only when the key is absent; an explicit 0 (or null) is kept as 0 |
| WatermarkService.ParsedUnreadFields | backend/src/main/java/com/watermark/service/WatermarkService.java:241-305 | the fields the request never reads (font family, bold, italic, shadow, stroke, aspect flag) keep the record's defaults |
| WatermarkService.ParsedOutputConfig | backend/src/main/java/com/watermark/service/WatermarkService.java:290-300 | a missing or empty `outputConfig` gives the default naming; its string keys are taken as given |
| WatermarkService.OneBadKeyLosesAll | backend/src/main/java/com/watermark/service/WatermarkService.java:307-323 | one value that a read rejects (an array under "opacity", on which `getFloatValue` throws) discards the whole request, the valid "text" included |
| WatermarkService.PositionOf | backend/src/main/java/com/watermark/service/WatermarkService.java:345 | `Position.valueOf` succeeds exactly on a constant's name and yields that constant |
| WatermarkService.ParsePosition | backend/src/main/java/com/watermark/service/WatermarkService.java:344-350 | the upper-cased name of a constant selects it; an unknown or null position becomes BOTTOM_RIGHT |
| WatermarkService.PositionNameIsUpper | backend/src/main/java/com/watermark/service/WatermarkService.java:345 | the constant names are already upper case |
| WatermarkService.ParsePositionNames | backend/src/main/java/com/watermark/service/WatermarkService.java:344-350 | each constant's name, in upper or lower case, selects that constant |
| WatermarkService.ParsePositionIgnoresCase | backend/src/main/java/com/watermark/service/WatermarkService.java:345 | any spelling of a name reads as its upper-case form |
| WatermarkService.ConvertedBase | backend/src/main/java/com/watermark/service/WatermarkService.java:337-353 | the base fields after the setter calls: the type given, the parsed position, the offsets as read, and opacity, scale and rotation clamped (unchanged when in range) |
| WatermarkService.ConvertedProperties | backend/src/main/java/com/watermark/service/WatermarkService.java:329-406 | "IMAGE" in any case builds an image configuration and anything else a text one; either is valid; the image one has the path, clamped size and aspect flag; the text one has the text, a clamped font size and its class defaults for shadow and stroke |
| WatermarkService.ImageTypeSpellings | backend/src/main/java/com/watermark/service/WatermarkService.java:332 | "image", "Image" and "IMAGE" are the image type; null and "TEXT" are not |
| WatermarkService.ApplyBaseFields | backend/src/main/java/com/watermark/service/WatermarkService.java:337-353 | the base setter calls give exactly `ConvertedBase` |
| WatermarkService.ConvertToWatermarkConfig | backend/src/main/java/com/watermark/service/WatermarkService.java:329-406 | a fresh, valid configuration object of the selected class with exactly the converted fields |
| WatermarkService.DefaultRequestConfig | backend/src/main/java/com/watermark/service/WatermarkService.java:237-406 | a request that is not an object becomes the default text watermark at 24 pt rather than the class's own 36 pt |
| WatermarkService.SplitName | backend/src/main/java/com/watermark/service/WatermarkService.java:414-421 | name + extension is the file name; an extension starts at the last '.', which is never the first character |
| WatermarkService.SplitNameExamples | backend/src/main/java/com/watermark/service/WatermarkService.java:417-418 | ".hidden" and "photo" have no extension; "a.b.jpg" splits as "a.b" and ".jpg" |
| WatermarkService.SplitNameWith | backend/src/main/java/com/watermark/service/WatermarkService.java:417-421 | a non-empty name followed by a dot-free extension splits back into exactly those two |
| WatermarkService.NewFileName | backend/src/main/java/com/watermark/service/WatermarkService.java:424-445 | original, prefix, suffix, custom and the "_watermarked" default, with a null prefix or suffix counting as ""; fails exactly for a null rule |
| WatermarkService.NamingKeepsExtension | backend/src/main/java/com/watermark/service/WatermarkService.java:428-445 | every rule keeps the input's extension (for a suffix without '.') and puts prefix and suffix where its case says |
| WatermarkService.ChildPath | backend/src/main/java/com/watermark/service/WatermarkService.java:453 | `new File(parent, child)` starts with the parent and ends with the child |
| WatermarkService.GenerateOutputPath | backend/src/main/java/com/watermark/service/WatermarkService.java:411-460 | an empty or null directory gives "output" + separator + the new name; a user directory has '/' turned into the separator and the new name joined to it, made absolute |
| WatermarkService.DefaultOutputFileName | backend/src/main/java/com/watermark/service/WatermarkService.java:455-458 | under "output" the produced path's last component is exactly the new file name |
| WatermarkService.NewFileNameSeparatorFree | backend/src/main/java/com/watermark/service/WatermarkService.java:424-445 | separator-free parts give a separator-free new name |
| WatermarkService.WriterName | backend/src/main/java/com/watermark/service/WatermarkService.java:180-193 | jpg/jpeg give "jpg", png "png", bmp "bmp", tiff/tif "tiff", anything else "jpg" |
| WatermarkService.GetOutputFormat | backend/src/main/java/com/watermark/service/WatermarkService.java:178-194 | the writer name of the output path's lower-cased extension; an unsupported extension gives "jpg" |
| WatermarkService.FormatOfName | backend/src/main/java/com/watermark/service/WatermarkService.java:179-180 | the format of "a.e" follows the lower-cased e |
| WatermarkService.JpegUpperCaseFormat | backend/src/main/java/com/watermark/service/WatermarkService.java:180-183 | "x.JPEG" is written as jpg |
| WatermarkService.TifFormat | backend/src/main/java/com/watermark/service/WatermarkService.java:188-190 | "x.TIF" is written as tiff |
| WatermarkService.GifFormat | backend/src/main/java/com/watermark/service/WatermarkService.java:191-192 | "x.gif" falls back to jpg |
| WatermarkService.NewFileNameExtension | backend/src/main/java/com/watermark/service/WatermarkService.java:424-445 | every rule keeps the extension `getFileExtension` sees |
| WatermarkService.OutputFormatFollowsInput | backend/src/main/java/com/watermark/service/WatermarkService.java:220-223 | saving under "output" keeps the input's image format, whatever the naming rule |
| WatermarkService.ValidateConfig | backend/src/main/java/com/watermark/service/WatermarkService.java:465-485 | passes exactly when the configuration is present with opacity in [0, 1], rotation in [-180, 180] and scale in (0, 5]: null and every value outside those ranges are rejected; every configuration within the setters' ranges passes |
| WatermarkService.ConvertedIsValidated | backend/src/main/java/com/watermark/service/WatermarkService.java:465-485 | every converted configuration passes the check |
| WatermarkService.ValidateLooserThanSetters | backend/src/main/java/com/watermark/service/WatermarkService.java:479-481 | a scale of 0.05 passes though no setter can store it; scale 0 and opacity 1.5 are rejected |
| WatermarkService.UpperIdempotent | backend/src/main/java/com/watermark/service/WatermarkService.java:345 | upper-casing twice is upper-casing once |
| ExportService.ExportConfig.constructor | backend/src/main/java/com/watermark/service/ExportService.java:42-49 | no directory, pattern and format "original", prefix "wm_", suffix "_watermarked", quality 90, overwrite protection on |
| ExportService.ExportConfig.SetOutputDirectory | backend/src/main/java/com/watermark/service/ExportService.java:53 | stores the directory, nothing else changes |
| ExportService.ExportConfig.SetFileNamePattern | backend/src/main/java/com/watermark/service/ExportService.java:56 | stores the pattern, nothing else changes |
| ExportService.ExportConfig.SetCustomPrefix | backend/src/main/java/com/watermark/service/ExportService.java:59 | stores the prefix, nothing else changes |
| ExportService.ExportConfig.SetCustomSuffix | backend/src/main/java/com/watermark/service/ExportService.java:62 | stores the suffix, nothing else changes |
| ExportService.ExportConfig.SetOutputFormat | backend/src/main/java/com/watermark/service/ExportService.java:65 | stores the format, nothing else changes |
| ExportService.ExportConfig.SetJpegQuality | backend/src/main/java/com/watermark/service/ExportService.java:68-70 | clamps the quality to [1, 100], keeping an in-range value, so the quality stays in range |
| ExportService.ExportConfig.SetPreventOverwrite | backend/src/main/java/com/watermark/service/ExportService.java:73 | stores the flag, nothing else changes |
| ExportService.QuoteAt | backend/src/main/java/com/watermark/service/ExportService.java:143 | `indexOf("\"")` matches at k exactly when the character at k is '"' |
| ExportService.QuoteFree | backend/src/main/java/com/watermark/service/ExportService.java:146-149 | the stretch a failed quote search skipped holds no '"' |
| ExportService.ExtractJsonValue | backend/src/main/java/com/watermark/service/ExportService.java:137-150 | the value found between the two quotes holds no '"' |
| ExportService.ExtractRoundTrip | backend/src/main/java/com/watermark/service/ExportService.java:137-150 | in `{"key":"value"}` with quote-free key and value the value is read back exactly |
| ExportService.ExtractImpliesContains | backend/src/main/java/com/watermark/service/ExportService.java:118-120 | a value is found only in a text that contains the key, so the `contains` test is implied |
| ExportService.ContainsKeyOfExtract | backend/src/main/java/com/watermark/service/ExportService.java:138-140 | a found `"key":` contains the key |
| ExportService.ParsedDirectory | backend/src/main/java/com/watermark/service/ExportService.java:118-129 | the value of "outputDirectory" when one is found, otherwise user.home (or "null") + separator + "WatermarkOutput" |
| ExportService.ParsedDirectoryOfRequest | backend/src/main/java/com/watermark/service/ExportService.java:118-124 | a request `{"outputDirectory":"D"}` sets the directory to D |
| ExportService.ParseExportConfig | backend/src/main/java/com/watermark/service/ExportService.java:113-132 | a fresh, valid settings object: the defaults with the parsed directory |
| ExportService.ChangeFileExtension | backend/src/main/java/com/watermark/service/ExportService.java:198-204 | the result keeps the name up to and including its last '.' (or adds a '.'), and its extension is the new one lower-cased |
| ExportService.ChangeExtensionIdempotent | backend/src/main/java/com/watermark/service/ExportService.java:198-204 | changing to the same dot-free extension twice is changing it once |
| ExportService.PathsGet | backend/src/main/java/com/watermark/service/ExportService.java:192 | the path ends with the name; an empty directory gives the name alone, otherwise one separator separates them |
| ExportService.PathsGetFileName | backend/src/main/java/com/watermark/service/ExportService.java:192 | the joined path's file name is the separator-free name |
| ExportService.PatternName | backend/src/main/java/com/watermark/service/ExportService.java:157-173 | "prefix" and "suffix" keep the original's extension as `getFileExtension` sees it; any other pattern keeps the name unchanged |
| ExportService.PatternNameParts | backend/src/main/java/com/watermark/service/ExportService.java:156-167 | "prefix" gives the custom prefix ("null" when unset) followed by the whole original name; "suffix" gives the name up to its last '.', then the custom suffix, then '.' and the lower-cased extension |
| ExportService.ExportFileName | backend/src/main/java/com/watermark/service/ExportService.java:155-191 | fails exactly for a name without '.' or a null pattern or format; "jpg" and "png" change the patterned name's extension, other formats keep it |
| ExportService.LowerFormats | backend/src/main/java/com/watermark/service/ExportService.java:178-184 | "jpg" and "png" are already lower case |
| ExportService.ChangeToLowerExtension | backend/src/main/java/com/watermark/service/ExportService.java:198-204 | changing to a lower-case, dot-free extension gives exactly that extension |
| ExportService.ExportFileNameExtension | backend/src/main/java/com/watermark/service/ExportService.java:155-191 | the exported name's extension is "jpg" or "png" when that format is asked for, and the original's otherwise |
| ExportService.GenerateOutputPath | backend/src/main/java/com/watermark/service/ExportService.java:155-193 | fails exactly when the file name fails or the directory is null; otherwise the name joined to the directory |
| ExportService.ParentOf | backend/src/main/java/com/watermark/service/ExportService.java:211 | `getParent` is null exactly for a path without a separator |
| ExportService.FirstFree | backend/src/main/java/com/watermark/service/ExportService.java:216-223 | the counter where the search stops: every earlier candidate exists, and it is free unless it is 999 |
| ExportService.Candidate | backend/src/main/java/com/watermark/service/ExportService.java:220-221 | the n-th candidate "name_(n).ext" in the parent directory; `CandidateInjective` states that different counters give different paths |
| ExportService.UniquePath | backend/src/main/java/com/watermark/service/ExportService.java:209-226 | fails exactly when the file name has no '.' or the path has no parent; otherwise the first free candidate (`UniquePathIsFree`) |
| ExportService.GenerateUniqueOutputPath | backend/src/main/java/com/watermark/service/ExportService.java:209-226 | the do-while loop returns the first free "name_(n).ext" in the parent directory, or the 999th; a dot-less name or a missing parent throws |
| ExportService.CandidateInjective | backend/src/main/java/com/watermark/service/ExportService.java:220 | different counters give different candidate paths |
| ExportService.SameCandidate | backend/src/main/java/com/watermark/service/ExportService.java:220-221 | equal candidates have equal counters |
| ExportService.CandidateCount | backend/src/main/java/com/watermark/service/ExportService.java:216-223 | the counters 1 to n give n different candidates |
| ExportService.UniquePathIsFree | backend/src/main/java/com/watermark/service/ExportService.java:209-226 | with fewer than 999 existing files the chosen path never exists |
| ExportService.LastCandidateFree | backend/src/main/java/com/watermark/service/ExportService.java:223 | when the first 998 candidates exist among fewer than 999 files, the 999th is free |
| ExportService.ExportOutputPath | backend/src/main/java/com/watermark/service/ExportService.java:90-101 | an invalid directory is rejected; without protection the generated path is used; with protection (and fewer than 999 files) the result never overwrites an existing file |
| ExportService.ValidateExportConfig | backend/src/main/java/com/watermark/service/ExportService.java:231-247 | passes exactly when the configuration is present, its directory is non-null and not blank, and the JPEG quality lies in [1, 100]: null, a null or blank directory and any other quality are rejected |
| ExportService.DefaultDirectoryValidates | backend/src/main/java/com/watermark/service/ExportService.java:127-129 | the default directory parseExportConfig falls back to passes the check |
| PathManager.Join | backend/src/main/java/com/watermark/util/PathManager.java:39-53 | a + separator + b: starts with a, ends with b, one separator between |
| PathManager.AppDataDir | backend/src/main/java/com/watermark/util/PathManager.java:36-48 | Windows uses APPDATA\WatermarkApp (or the home's AppData\Roaming), macOS Library/Application Support, anything else ~/.watermarkapp; every choice but APPDATA lies under the home directory |
| PathManager.AppLocations | backend/src/main/java/com/watermark/util/PathManager.java:36-53 | the data directory is the selected one |
| PathManager.LocationsUnderAppData | backend/src/main/java/com/watermark/util/PathManager.java:50-53 | thumbnails, temp, logs and the database sit directly under the data directory |
| PathManager.FileName | backend/src/main/java/com/watermark/util/PathManager.java:145 | `getFileName`: the separator-free tail of the path, preceded by a separator when shorter than the path |
| PathManager.FileNameAfterSeparator | backend/src/main/java/com/watermark/util/PathManager.java:145 | the name after a separator is the file name |
| PathManager.GetFileExtension | backend/src/main/java/com/watermark/util/PathManager.java:194-199 | "" for null or a dot-less name; otherwise the lower-cased text after the last '.', which is dot-free and lower case |
| PathManager.LastIndexBeforeFree | backend/src/main/java/com/watermark/util/PathManager.java:195-198 | the last '.' before a dot-free tail is at the tail |
| PathManager.LastIndexAfterPrefix | backend/src/main/java/com/watermark/util/PathManager.java:195-198 | a prefix shifts the last '.' by its length |
| PathManager.ExtensionOfSuffix | backend/src/main/java/com/watermark/util/PathManager.java:194-199 | a prefix does not change the extension of a name containing '.' |
| PathManager.ExtensionOf | backend/src/main/java/com/watermark/util/PathManager.java:198 | "a.e" has extension e lower-cased |
| PathManager.ExtensionOfTrailingDot | backend/src/main/java/com/watermark/util/PathManager.java:198 | "a." has the empty extension |
| PathManager.ExtensionOfDotFile | backend/src/main/java/com/watermark/util/PathManager.java:198 | ".PNG" has extension "png" |
| PathManager.IsSupportedImageFormat | backend/src/main/java/com/watermark/util/PathManager.java:204-209 | true exactly when the extension is jpg, jpeg, png, bmp, tiff or tif |
| PathManager.SupportedIgnoresCase | backend/src/main/java/com/watermark/util/PathManager.java:204-209 | support depends on the lower-cased extension only; gif is not supported |
| PathManager.GenerateThumbnailPath | backend/src/main/java/com/watermark/util/PathManager.java:144-148 | fails exactly for a file name without '.'; otherwise thumbnails dir + separator + "thumb_" + the name up to its last '.' + ".jpg" |
| PathManager.JpegName | backend/src/main/java/com/watermark/util/PathManager.java:147 | a name ending in ".jpg" has extension "jpg" and a supported format |
| PathManager.ThumbnailIsJpeg | backend/src/main/java/com/watermark/util/PathManager.java:144-148 | every thumbnail path names a supported JPEG |
| PathManager.IsValidFilePath | backend/src/main/java/com/watermark/util/PathManager.java:162-173 | true exactly for a non-null, non-blank path that names a regular file |
| PathManager.IsValidDirectoryPath | backend/src/main/java/com/watermark/util/PathManager.java:178-189 | true exactly for a non-null, non-blank path that names a directory |
| JsBridge.ErrorResponse | backend/src/main/java/com/watermark/bridge/JavaScriptBridge.java:564-573 | exactly the two keys "error" (true) and "message" (the given text) |
| JsBridge.ErrorResponseRoundTrip | backend/src/main/java/com/watermark/bridge/JavaScriptBridge.java:564-573 | the message of an error response is read back unchanged |
| JsBridge.BatchSummary | backend/src/main/java/com/watermark/bridge/JavaScriptBridge.java:660-665 | exactly the keys success (true), total, successCount, failureCount and message; it is never an error response |
| JsBridge.SuccessCount | backend/src/main/java/com/watermark/bridge/JavaScriptBridge.java:640-657 | at most the number of paths; all of them exactly when every path gives a non-empty result, none exactly when none does |
| JsBridge.Succeeded | backend/src/main/java/com/watermark/bridge/JavaScriptBridge.java:643-656 | an image counts as processed exactly when the service returns a non-null, non-empty path without throwing; `SuccessCount` and `TallyCoversAll` are stated in its terms |
| JsBridge.SuccessCountAppend | backend/src/main/java/com/watermark/bridge/JavaScriptBridge.java:640-657 | the count over two lists is the sum of their counts |
| JsBridge.TallyCoversAll | backend/src/main/java/com/watermark/bridge/JavaScriptBridge.java:640-657 | successes and failures add up to the number of paths: each path is counted once |
| JsBridge.FailureCount | backend/src/main/java/com/watermark/bridge/JavaScriptBridge.java:640-657 | the failures counted from the first path on, a throw and an empty result alike; `TallyCoversAll` states that it and `SuccessCount` add up to the number of paths |
| JsBridge.WithOutputPath | backend/src/main/java/com/watermark/bridge/JavaScriptBridge.java:630-632 | the configuration gains "outputPath" set to the directory; every other key keeps its value |
| JsBridge.BatchProcessImageList | backend/src/main/java/com/watermark/bridge/JavaScriptBridge.java:611-675 | an unreadable path list, then a null or blank directory, then an unreadable configuration give the matching error response; otherwise the summary of processing every path with the directory added |
| JsBridge.ProcessAll | backend/src/main/java/com/watermark/bridge/JavaScriptBridge.java:636-657 | the loop's two counters are the success and failure counts of the whole list |
| JsBridge.CallJavaScriptFunction | backend/src/main/java/com/watermark/bridge/JavaScriptBridge.java:578-590 | the buffer built by the loop is "name(" + the rendered arguments separated by ',' + ");", strings between single quotes |
| JsBridge.RenderCommaFree | backend/src/main/java/com/watermark/bridge/JavaScriptBridge.java:584-588 | an argument without ',' renders without ',' |
| JsBridge.Render | backend/src/main/java/com/watermark/bridge/JavaScriptBridge.java:584-588 | a `String` argument is the text between single quotes, nothing added inside; an `Integer` its decimal text |
| JsBridge.JoinArgs | backend/src/main/java/com/watermark/bridge/JavaScriptBridge.java:582-589 | the rendered arguments with one ',' between neighbours; `CommasSeparateArguments` counts the commas |
| JsBridge.JsCall | backend/src/main/java/com/watermark/bridge/JavaScriptBridge.java:581-590 | "name(" then the joined arguments then ");"; `JsCallShape` gives worked calls and `CallJavaScriptFunction` builds it |
| JsBridge.CommasSeparateArguments | backend/src/main/java/com/watermark/bridge/JavaScriptBridge.java:582-583 | comma-free arguments give exactly one ',' fewer than there are arguments |
| JsBridge.JsCallShape | backend/src/main/java/com/watermark/bridge/JavaScriptBridge.java:581-590 | a progress call with a string and an int reads "name('s',n);"; a call without arguments "name();" |
| JsBridge.LevelOf | backend/src/main/java/com/watermark/bridge/JavaScriptBridge.java:540-556 | a null level throws; debug, warn and error are chosen exactly by their lower-cased names |
| JsBridge.Log | backend/src/main/java/com/watermark/bridge/JavaScriptBridge.java:539-557 | the entry has the chosen level and the text "JS: " + the message ("null" when null); only a null level fails |
| JsBridge.LevelIgnoresCase | backend/src/main/java/com/watermark/bridge/JavaScriptBridge.java:540 | the level's case does not matter |
| JsBridge.UnknownLevelIsInfo | backend/src/main/java/com/watermark/bridge/JavaScriptBridge.java:553-555 | any other level logs at info |
| SimpleBridge.ParseSimpleFields | backend/src/main/java/com/watermark/SimpleWebApp.java:546-568 | succeeds exactly when all eight reads succeed; then each field is its read with the default applied (null strings to "TEXT", "水印", "BOTTOM_RIGHT", "#FFFFFF", "" and "", a zero opacity to 0.7, a zero font size to 24), and every other field keeps the record's default |
| SimpleBridge.ParseSimpleConfig | backend/src/main/java/com/watermark/SimpleWebApp.java:537-591 | a text that is not an object, or a read that throws, gives the default record; otherwise the record the eight reads produce; every result has the eight fields set |
| SimpleBridge.SimpleParsedKeys | backend/src/main/java/com/watermark/SimpleWebApp.java:546-568 | on every object the bridge accepts, a missing or null key takes its default, a zero opacity or font size counts as unset, and a string or non-zero number is taken as read |
| SimpleBridge.SimpleAgreesWithService | backend/src/main/java/com/watermark/SimpleWebApp.java:546-568 | wherever the service's parse succeeds, the simple bridge reads the eight shared keys to the same values |
| SimpleBridge.SimpleIgnoresUnreadKeys | backend/src/main/java/com/watermark/SimpleWebApp.java:541-590 | a malformed key the bridge never reads keeps the request's text, where the service falls back to the default |
| SimpleBridge.TextUnlessImageRequested | backend/src/main/java/com/watermark/SimpleWebApp.java:404-408 | a request without "type" or without "imagePath" is drawn as text |
| SimpleBridge.UsesImageWatermark | backend/src/main/java/com/watermark/SimpleWebApp.java:404 | the image branch: type IMAGE in any case and a non-null, non-empty image path; `TextUnlessImageRequested` states the text default |
| SimpleBridge.AnchorOf | backend/src/main/java/com/watermark/SimpleWebApp.java:503-525 | anything other than TOP_LEFT, TOP_RIGHT, BOTTOM_LEFT and CENTER (in any case) is placed bottom-right |
| SimpleBridge.PositionNamesInSimpleBridge | backend/src/main/java/com/watermark/SimpleWebApp.java:503-525 | of the application's ten position names only the three other corners are recognised; the centre and middle names and CUSTOM land bottom-right |
| SimpleBridge.HalfOf | backend/src/main/java/com/watermark/SimpleWebApp.java:517 | halving the slack loses at most one pixel |
| SimpleBridge.ImagePlacementMargins | backend/src/main/java/com/watermark/SimpleWebApp.java:657-669 | the overlay's near edge sits 20 pixels from the named side, its far edge 20 pixels from a far side, and the centre splits the slack |
| SimpleBridge.ImagePlacement | backend/src/main/java/com/watermark/SimpleWebApp.java:657-669 | `addImageWatermark`'s position in int arithmetic, unclamped; `ImagePlacementMargins` and `ImageInsideMargins` state its 20-pixel margins |
| SimpleBridge.ImageInsideMargins | backend/src/main/java/com/watermark/SimpleWebApp.java:657-669 | an overlay that fits inside the margins is placed entirely inside them, whatever the position |
| SimpleBridge.TextPlacementMargins | backend/src/main/java/com/watermark/SimpleWebApp.java:503-525 | the text's left edge or baseline sits 20 pixels from the named side, a top baseline one text height lower, the centre splitting the slack |
| SimpleBridge.TextPlacement | backend/src/main/java/com/watermark/SimpleWebApp.java:503-525 | `addTextWatermark`'s baseline position in int arithmetic, unclamped; `TextPlacementMargins` and `TextInsideMargins` state its margins |
| SimpleBridge.TextInsideMargins | backend/src/main/java/com/watermark/SimpleWebApp.java:503-525 | text that fits inside the margins is drawn entirely inside them |
| SimpleBridge.WatermarkedName | backend/src/main/java/com/watermark/SimpleWebApp.java:421-429 | "_watermarked" is inserted where the extension starts, or appended when the name has none; removing it gives back the original name, and the new name splits into the old name with "_watermarked" and the old extension |
| SimpleBridge.SameAsServiceDefaults | backend/src/main/java/com/watermark/SimpleWebApp.java:415-437 | the bridge's output path, in the user's directory or under "output", is the service's generateOutputPath with the default output configuration |
| SimpleBridge.SimpleOutputPath | backend/src/main/java/com/watermark/SimpleWebApp.java:415-437 | the "_watermarked" name inside the user's directory (with '/' made the separator, then made absolute) or under "output"; `SameAsServiceDefaults` states that it equals the service's default path |
| SimpleBridge.FormatByEnding | backend/src/main/java/com/watermark/SimpleWebApp.java:623-634 | the format chosen by the lower-cased path's ending is one of jpg, png, bmp, gif |
| SimpleBridge.FormatForExtension | backend/src/main/java/com/watermark/SimpleWebApp.java:622-635 | the writer for each lower-cased extension is one of jpg, png, bmp, gif, and png for any unknown extension |
| SimpleBridge.GetImageFormat | backend/src/main/java/com/watermark/SimpleWebApp.java:622-635 | the written format is one of jpg, png, bmp, gif |
| SimpleBridge.FormatByEndingOf | backend/src/main/java/com/watermark/SimpleWebApp.java:624-633 | a path ending in ".e" gets e's writer name |
| SimpleBridge.EndsWithExtension | backend/src/main/java/com/watermark/SimpleWebApp.java:624-631 | "a.e" ends with ".x" exactly when e is x, for dot-free e and x |
| SimpleBridge.LowerDotJoin | backend/src/main/java/com/watermark/SimpleWebApp.java:623 | lower-casing keeps the '.' and only the '.' |
| SimpleBridge.ImageFormatOfExtension | backend/src/main/java/com/watermark/SimpleWebApp.java:622-635 | the format follows the path's lower-cased extension, the one getFileExtension returns |
| SimpleBridge.NoExtensionIsPng | backend/src/main/java/com/watermark/SimpleWebApp.java:632-633 | a path without '.' is written as PNG |
| Store.Assign | frontend/src/stores/watermark.js:87-88 | `Object.assign`: every key of either object, the source's values winning |
| Store.AssignIdempotent | frontend/src/stores/watermark.js:87-88 | assigning the same properties twice is assigning them once |
| Store.AssignTwice | frontend/src/stores/watermark.js:87-88 | assigning a and then b is assigning their merge |
| Store.StripLeadingSlashes | frontend/src/stores/watermark.js:45 | `replace(/^\/+/, '')`: a suffix of the text, only '/' removed, and it does not start with '/' |
| Store.MarkDrive | frontend/src/stores/watermark.js:44 | a leading drive letter "C:" gets a '/' in front; `MarkDriveInvisible` states the '/' is stripped again |
| Store.ToFileUrl | frontend/src/stores/watermark.js:41-46 | a non-string or empty path gives ""; a file URL is kept; anything else becomes "file:///" + the path with '\' turned into '/' and leading slashes removed, with no '\' left |
| Store.MarkDriveInvisible | frontend/src/stores/watermark.js:44-45 | the '/' put before a drive letter is removed again with the leading slashes |
| Store.StripKeepsAbsent | frontend/src/stores/watermark.js:45 | stripping slashes adds no character |
| Store.UrlPrefix | frontend/src/stores/watermark.js:45 | "file:///" + a text not starting with '/' is a file URL whose tail is that text |
| Store.ToFileUrlIdempotent | frontend/src/stores/watermark.js:41-46 | converting a URL again changes nothing |
| Store.UnixPathUrl | frontend/src/stores/watermark.js:44-45 | "/home/x" becomes "file:///home/x" |
| Store.WindowsPathUrl | frontend/src/stores/watermark.js:44-45 | "C:\a\b" becomes "file:///C:/a/b" |
| Store.UrlOfNormalized | frontend/src/stores/watermark.js:45 | a URL is its eight-character prefix followed by its tail |
| Store.PathOf | frontend/src/stores/watermark.js:38 | the accepted image path is not blank |
| Store.ValidImageInfo | frontend/src/stores/watermark.js:38 | the guard of `setCurrentImage`: an info object whose "path" is a string holding more than white space; `PathOf` and `SetCurrentImage` use it |
| Store.ValidImageHasUrl | frontend/src/stores/watermark.js:38-48 | an accepted image always gets a file URL, never "" |
| Store.ResetKeepsExtraKeys | frontend/src/stores/watermark.js:92-112 | after a reset every default property holds its default and other properties survive, so the configuration equals the defaults exactly when it had no other keys |
| Store.WatermarkStore.constructor | frontend/src/stores/watermark.js:6-31 | no image, no preview URL, no template; both configurations are the defaults |
| Store.WatermarkStore.SetCurrentImage | frontend/src/stores/watermark.js:34-82 | a valid image becomes current, the URL is cleared and its file URL scheduled; anything else clears image and URL; the configurations stay |
| Store.WatermarkStore.DeliverPreviewUrl | frontend/src/stores/watermark.js:55-67 | the oldest scheduled callback publishes its URL; nothing else changes |
| Store.WatermarkStore.UpdateWatermarkConfig | frontend/src/stores/watermark.js:85-89 | the new properties are assigned into both configurations, which stay equal |
| Store.WatermarkStore.ResetWatermarkConfig | frontend/src/stores/watermark.js:92-112 | the defaults are assigned into both configurations; nothing else changes |
| Store.WatermarkStore.ApplyTemplate | frontend/src/stores/watermark.js:115-123 | nothing happens without a truthy template config; a string config that does not parse throws with nothing changed; otherwise its properties are assigned and the template becomes current |
| Store.TemplateApplies | frontend/src/stores/watermark.js:116 | `template && template.config`: a template with a truthy config; `ApplyTemplate` states that nothing changes otherwise |
| Store.TemplateProperties | frontend/src/stores/watermark.js:117-120 | the properties a template configuration contributes: an object's own, an array's elements or a string's characters under their indices, nothing from null, booleans or numbers |
| Store.IndexedPropertiesAt | frontend/src/stores/watermark.js:87-88 | an array or string source puts element k under the key "k", for every index k |
| Store.IndexedPropertiesKeys | frontend/src/stores/watermark.js:87-88 | every key an array or string source contributes is the index of one of its elements |
| Store.StringConfigSpreads | frontend/src/stores/watermark.js:117-120 | a configuration that parses to the string "ab" contributes "0": "a" and "1": "b" |
| Store.WatermarkStore.ClearState | frontend/src/stores/watermark.js:206-216 | no current image and no preview URL; the configurations stay |
| Store.WatermarkStore.ResetAll | frontend/src/stores/watermark.js:219-230 | clearState then resetWatermarkConfig |
| Store.StalePreviewUrl | frontend/src/stores/watermark.js:55-82 | choosing an image and then an invalid one within 10 ms leaves no current image, yet the first image's URL arrives as the preview |

## Left out

- Pixel work is not modelled: anti-aliasing, resampling, compositing, font rendering and the PNG flatten-onto-white step of the stand-alone bridge. Strategies are modelled as logs of draw commands. Text width, height and ascent, and the overlay's size, are inputs.
- Image and file I/O (`ImageIO`, `mkdirs`, existence checks, the cleanup routines, `createPreviewImage`) are not modelled. Existence is a set of paths, or a predicate passed in.
- `processImageWithWatermark` is not modelled end to end: it reads an image, applies the strategy and writes the file. Its path and format decisions are modelled (`GenerateOutputPath`, `GetOutputFormat`, `OutputFormatFollowsInput`). In the batch loop the processor is a function parameter.
- JSON grammar is not modelled: fastjson2 and Jackson parsing and printing. A parsed object is a map from keys to values, and an unparseable text is `None`. The typed reads accept less than fastjson2, and a read the model rejects fails the whole parse, which the source's `catch` turns into the default record:
- `Json.GetString`: only a string or null is read. fastjson2 turns a number, a boolean, an array or an object into its JSON text; the model fails the read.
- `Json.GetIntValue`, `Json.GetFloatValue`: a number, a boolean, null and the empty string are read. A non-empty string is read only as integer text, an optional sign followed by decimal digits within the `int` range. A decimal string such as "0.5" or "1.5", the string "null" and every other string fail the read, as do arrays and objects. fastjson2 parses decimal strings, so `getFloatValue` of "0.5" gives 0.5 there.
- Jackson's error-response fallback text is not modelled. `ErrorResponse` models the map that Jackson would print.
- `JsBridge.BatchProcessImageList`: the non-string elements of a path list are not modelled. The list is a sequence of strings.
- `Store.TemplateProperties`: a string source spreads one property per Unicode character. JavaScript spreads one per UTF-16 code unit, so a character above U+FFFF gives two properties holding lone surrogates there, which a Dafny string cannot hold.
- `Json.IntValueOf`: fastjson's `intValue()` is modelled as truncation plus 32-bit wrap. For large values this is an approximation of the long-then-int path.
- Java `float` is modelled as an exact real. Float rounding, NaN in the clamps and the precision of `%.1f` are not modelled. `Math.round` is floor(x + 0.5), saturated at the int range.
- `ImageStrategy.KeepAspect`: the source computes `(int)(targetWidth / aspectRatio)` and `(int)(targetHeight * aspectRatio)` through a `double` ratio. The model computes the exact integer quotients `(tw * oh) / ow` and `(th * ow) / oh`, and its `ensures` fix that exact floor. The `double` result can be one less: a width of 35 over a 7 × 3 overlay gives 35 / 2.3333333333333335 = 14.999… and a height of 14 in Java, where the model gives 15. A height of 90 over a 7 × 10 overlay gives 90 × 0.7 = 62.999… and a width of 62 in Java, where the model gives 63.
- `ImageStrategy.AspectTarget`: it uses `KeepAspect`, so it has the same exact quotient where Java computes through a `double` ratio.
- `Config.WatermarkConfig.SetPosition`, `Config.TextWatermarkConfig.SetColor`, `Config.TextWatermarkConfig.SetShadowColor`, `Config.TextWatermarkConfig.SetStrokeColor`: null arguments are not modelled, because these setters take a `Position` or a `Color` value. In Java they store null, and the null later throws a `NullPointerException` in `calculatePosition`, in `getColorWithOpacity` and its shadow and stroke variants, or in `copy`.
- `ImageInfoModel.ImageInfo.constructor`: a null file path is not modelled. In Java, `new ImageInfo(name, null)` throws a `NullPointerException` in `generateId`.
- `ImageInfoModel.FileSizeText`: `String.format("%.1f …")` uses the JVM's default locale, which may print a decimal comma ("1,5 KB"). The model always prints a '.'.
- `Colors.ParseHexInt`: the hex digits are the ASCII 0-9, a-f and A-F. Java's `Character.digit` also accepts the other Unicode decimal digits (such as the fullwidth "１") and the fullwidth letters A-F; the model rejects them.
- `Colors.ParseHexLong`: the same ASCII-only hex digits as `ParseHexInt`, so a value with non-ASCII digits fails here where `Long.parseLong` may succeed.
- `Colors.ParseDecInt`: the decimal digits are the ASCII 0-9. `Integer.parseInt` also accepts other Unicode decimal digits: "１２３" parses to 123 in Java and fails here.
- `Colors.DecodeHash`: it uses `ParseHexInt`, so "#" followed by non-ASCII digits fails here where `Color.decode` may give a colour.
- `Colors.DecimalColor`: it uses `ParseDecInt`, so a decimal value written in non-ASCII digits gives WHITE here where Java gives `new Color(rgb)`.
- `Colors.ParseColor`: it uses `DecodeHash`, with the same ASCII-only digits.
- `Colors.Deserialize`: its branches use the parsers above, so a value written with non-ASCII digits gives WHITE here where Java may give a colour.
- Case mapping covers ASCII only: `toLowerCase`, `toUpperCase` and `equalsIgnoreCase` change A-Z only.
- `File`, `Paths` and `getAbsolutePath` normalisation are not modelled. Separators are `/` and the platform separator, and absolute-path resolution is a function parameter.
- The request's `OutputConfig` is a value, not an object. The DTO's "own fresh OutputConfig" therefore holds trivially, and aliasing is not modelled.
- Shared strategy instances are not compared by identity. The factory returns a strategy kind, and sharing is not observable in the model.
- `Config.ImageValid`: the image invariant is width and height in [0, 2000], weaker than the setters' [10, 2000], because `adjustSize` writes the fields directly and can go below 10 (`AdjustSizeLeavesSetterRange`).
- `Store.WatermarkStore.ResetWatermarkConfig`: the model follows the code, `Object.assign`. Properties outside the defaults survive a reset, so both configurations equal the defaults only when they had no other keys (`ResetKeepsExtraKeys`).
- `Config.TextWatermarkConfig.Copy`: the model follows the code, which copies colours with `new Color(getRGB())`, so copied colours become opaque.
- Time is not modelled: timestamps, the image id's millisecond part and `generateTempFilePath`. The current time is a parameter where the source reads the clock.
- Browser storage is not modelled: `localStorage`, `sessionStorage`, `initStore` and `forceRefreshPreview`. The `setTimeout` callback is a pending-URL queue. Its 10 ms delay and the interleaving with other events are reduced to the queue's order.
- Console and logger output is not modelled. `log` is modelled as the chosen level and text.
- The database services, the JavaFX application and web view, the file choosers, background threads, and the front-end bootstrapping are not part of this model.
- The test drivers under `test/` are not part of this model: they print or call APIs that do not exist.
- `WatermarkStrategy` is not modelled separately: it is an interface with no behaviour of its own.
