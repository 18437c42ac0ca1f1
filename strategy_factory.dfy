/**
 * `WatermarkStrategyFactory`: the watermark type selects one of the two strategies. The strategies are
 * stateless shared instances, so a strategy is identified by its kind; `None` is a null type.
 */
module StrategyFactory {
  import opened Wrappers
  import opened Geometry
  import opened Config
  import opened Graphics
  import TextStrategy
  import ImageStrategy

  datatype Strategy = TextWatermarking | ImageWatermarking

  /**
   * `getStrategy`: TEXT gives the text strategy and IMAGE the image strategy; there is no fallback.
   * A null type makes the enum `switch` throw.
   */
  function GetStrategy(t: Option<WatermarkType>): (r: Result<Strategy, string>)
    ensures r == Success(TextWatermarking) <==> t == Some(Text)
    ensures r == Success(ImageWatermarking) <==> t == Some(Image)
    ensures r.Failure? <==> t.None?
  {
    match t
    case None => Failure("NullPointerException")
    case Some(Text) => Success(TextWatermarking)
    case Some(Image) => Success(ImageWatermarking)
  }

  /**
   * `strategy.applyWatermark(image, config)` on the strategy `s`. Text measuring and image loading
   * are the parameters the two strategies take.
   */
  method Apply(s: Strategy, original: Picture, config: ConfigView,
               measure: (Font, string) -> TextStrategy.Metrics, load: string -> Option<Picture>)
    returns (r: Result<Picture, string>)
    requires config.Valid()
    ensures s == TextWatermarking ==> (r.Failure? <==> !config.TextConfig?)
    ensures s == ImageWatermarking && !config.ImageConfig? ==> r.Failure?
  {
    match s
    case TextWatermarking =>
      r := TextStrategy.ApplyWatermark(original, config, measure);
    case ImageWatermarking =>
      r := ImageStrategy.ApplyWatermark(original, config, load);
  }
}
