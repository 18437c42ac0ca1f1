/**
 * `WatermarkConfigData`: the record the frontend's JSON is read into, with its field defaults, and
 * its nested `OutputConfig` (how output files are named). Both are values here; a Java `String`
 * field that may hold null is an `Option<string>`.
 */
module ConfigData {
  import opened Wrappers
  import opened JavaInt

  datatype OutputConfig = OutputConfig(namingRule: Option<string>, filePrefix: Option<string>, fileSuffix: Option<string>)

  /** `new OutputConfig()`: suffix naming with "wm_" and "_watermarked". */
  const DEFAULT_OUTPUT: OutputConfig := OutputConfig(Some("suffix"), Some("wm_"), Some("_watermarked"))

  datatype ConfigData = ConfigData(
    wmType: Option<string>,
    text: Option<string>,
    position: Option<string>,
    opacity: real,
    fontSize: Int32,
    fontColor: Option<string>,
    imagePath: Option<string>,
    outputPath: Option<string>,
    fontFamily: string,
    bold: bool,
    italic: bool,
    offsetX: Int32,
    offsetY: Int32,
    rotation: real,
    scale: real,
    hasShadow: bool,
    shadowColor: string,
    shadowOffsetX: Int32,
    shadowOffsetY: Int32,
    shadowBlur: Int32,
    hasStroke: bool,
    strokeColor: string,
    strokeWidth: Int32,
    watermarkWidth: Int32,
    watermarkHeight: Int32,
    maintainAspectRatio: bool,
    outputConfig: OutputConfig)

  /** `new WatermarkConfigData()`: every field at its initialiser, with its own `OutputConfig`. */
  function DefaultData(): (d: ConfigData)
    ensures d.wmType == Some("TEXT") && d.text == Some("水印") && d.position == Some("BOTTOM_RIGHT")
    ensures d.opacity == 0.7 && d.fontSize == 24 && d.fontColor == Some("#FFFFFF")
    ensures d.imagePath == Some("") && d.outputPath == Some("")
    ensures d.offsetX == 20 && d.offsetY == 20 && d.rotation == 0.0 && d.scale == 1.0
    ensures d.watermarkWidth == 100 && d.watermarkHeight == 100 && d.maintainAspectRatio
    ensures d.outputConfig == DEFAULT_OUTPUT
  {
    ConfigData(Some("TEXT"), Some("水印"), Some("BOTTOM_RIGHT"), 0.7, 24, Some("#FFFFFF"), Some(""), Some(""),
               "Microsoft YaHei", false, false, 20, 20, 0.0, 1.0,
               true, "#000000", 2, 2, 3,
               false, "#000000", 1,
               100, 100, true,
               DEFAULT_OUTPUT)
  }

  /** `new WatermarkConfigData(type, text)`: the defaults with the given type and text. */
  function TypedData(wmType: Option<string>, text: Option<string>): (d: ConfigData)
    ensures d.wmType == wmType && d.text == text
    ensures d.(wmType := DefaultData().wmType, text := DefaultData().text) == DefaultData()
  {
    DefaultData().(wmType := wmType, text := text)
  }
}
