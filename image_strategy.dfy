/**
 * `ImageWatermarkStrategy`: loads the overlay picture, scales it to the configured size (keeping
 * its aspect ratio if asked), places it with `calculatePosition` and draws it, rotated about its
 * own centre when a rotation is set. Loading is a parameter `load` from path to picture.
 */
module ImageStrategy {
  import opened Wrappers
  import opened JavaInt
  import opened Strs
  import opened Geometry
  import opened Config
  import opened Graphics

  datatype Size = Size(w: int, h: int)

  /** Multiplying by a non-negative factor keeps the order. */
  lemma {:induction false} MulLeft(t: nat, n: int, d: int)
    requires n <= d
    ensures t * n <= t * d
  {
    if t > 0 {
      MulLeft(t - 1, n, d);
      assert t * n == (t - 1) * n + n && t * d == (t - 1) * d + d;
    }
  }

  /**
   * The share n / d of t, truncated (n <= d): at most t itself, and the floor of t * n / d, so the
   * ratio q : t matches n : d to within one unit.
   */
  lemma TruncatedShare(t: nat, n: int, d: int)
    requires 0 < n <= d
    ensures var q := (t * n) / d; 0 <= q <= t && q * d <= t * n < q * d + d
  {
    MulLeft(t, n, d);
    assert (t * n) / d <= (t * d) / d;
    assert (t * d) / d == t;
  }

  /**
   * `scaleWatermarkImage`'s target for an overlay of ow × oh: the configured scaled size, corrected
   * for the overlay's aspect ratio when asked. A wide overlay keeps the width and gets the height
   * width * oh / ow rounded down; any other keeps the height and gets the width height * ow / oh
   * rounded down (computed exactly, not through a `double` ratio).
   */
  function AspectTarget(i: ImageView, ow: Dim, oh: Dim): (s: Size)
    requires ImageValid(i)
    ensures 0 <= s.w <= 10000 && 0 <= s.h <= 10000
    ensures !i.maintainAspectRatio ==> s == Size(ScaledWidth(i), ScaledHeight(i))
    ensures i.maintainAspectRatio && ow > oh ==>
      s.w == ScaledWidth(i) && s.h <= s.w && s.h * ow <= s.w * oh < s.h * ow + ow
    ensures i.maintainAspectRatio && ow <= oh ==>
      s.h == ScaledHeight(i) && s.w <= s.h && s.w * oh <= s.h * ow < s.w * oh + oh
  {
    KeepAspect(ScaledWidth(i), ScaledHeight(i), ow, oh, i.maintainAspectRatio)
  }

  /** The aspect correction on plain numbers: target tw × th, overlay ow × oh. */
  function KeepAspect(tw: nat, th: nat, ow: Dim, oh: Dim, maintain: bool): (s: Size)
    ensures 0 <= s.w && 0 <= s.h
    ensures !maintain ==> s == Size(tw, th)
    ensures maintain && ow > oh ==> s.w == tw && s.h <= s.w && s.h * ow <= s.w * oh < s.h * ow + ow
    ensures maintain && ow <= oh ==> s.h == th && s.w <= s.h && s.w * oh <= s.h * ow < s.w * oh + oh
  {
    if !maintain then Size(tw, th)
    else if ow > oh then
      TruncatedShare(tw, oh, ow);
      Size(tw, (tw * oh) / ow)
    else
      TruncatedShare(th, ow, oh);
      Size((th * ow) / oh, th)
  }

  const NON_POSITIVE_SIZE: string := "IllegalArgumentException: width and height must be > 0"

  /**
   * The scaled overlay: the overlay itself when it already has the scaled size (checked before any
   * aspect correction), otherwise a new picture of the target size holding the overlay stretched
   * onto it; a target side of 0 makes the new `BufferedImage` throw.
   */
  function ScaledPicture(overlay: Picture, i: ImageView): (r: Result<Picture, string>)
    requires ImageValid(i)
    ensures var s := AspectTarget(i, overlay.width, overlay.height);
      var same := overlay.width == ScaledWidth(i) && overlay.height == ScaledHeight(i);
      (same ==> r == Success(overlay)) &&
      (!same && (s.w < 1 || s.h < 1) ==> r.Failure?) &&
      (!same && 1 <= s.w && 1 <= s.h ==> r == Success(Canvas(s.w, s.h, [ImageDraw(overlay, 0, 0, s.w, s.h, 1.0, [])])))
  {
    if overlay.width == ScaledWidth(i) && overlay.height == ScaledHeight(i) then Success(overlay)
    else
      var s := AspectTarget(i, overlay.width, overlay.height);
      if s.w < 1 || s.h < 1 then Failure(NON_POSITIVE_SIZE)
      else Success(Canvas(s.w, s.h, [ImageDraw(overlay, 0, 0, s.w, s.h, 1.0, [])]))
  }

  /** A 200 × 100 overlay fitted into the default 100 × 100 box comes out 100 × 50. */
  lemma WideOverlayExample(src: string)
    ensures var i := DefaultImage(Some(src));
      ScaledPicture(Loaded(src, 200, 100), i).Success? &&
      ScaledPicture(Loaded(src, 200, 100), i).value.width == 100 &&
      ScaledPicture(Loaded(src, 200, 100), i).value.height == 50
  {
    var i := DefaultImage(Some(src));
    assert ScaledWidth(i) == 100 && ScaledHeight(i) == 100;
    assert AspectTarget(i, 200, 100) == Size(100, 50);
  }

  /** Where the scaled overlay goes: `calculatePosition` with the scaled overlay's own size. */
  function OverlayPosition(i: ImageView, scaled: Picture, width: Dim, height: Dim): Point
  {
    CalculatePosition(i.base.position, width, height, scaled.width, scaled.height, i.base.offsetX, i.base.offsetY)
  }

  /** `applyRotation`'s pivot: the centre of the overlay at its position. */
  function Pivot(p: Point, scaled: Picture): Point
  {
    Point(Add32(p.x, scaled.width / 2), Add32(p.y, scaled.height / 2))
  }

  /** The pivot never overflows: it is exactly (x + w / 2, y + h / 2). */
  lemma PivotIsOverlayCentre(i: ImageView, scaled: Picture, width: Dim, height: Dim)
    ensures var p := OverlayPosition(i, scaled, width, height);
      Pivot(p, scaled) == Point(p.x + scaled.width / 2, p.y + scaled.height / 2)
  {
    var p := OverlayPosition(i, scaled, width, height);
    assert p.x + scaled.width / 2 <= MAX32 by {
      if scaled.width <= width {
        assert p.x <= width - scaled.width;
      } else {
        assert p.x == 0;
      }
    }
    assert p.y + scaled.height / 2 <= MAX32 by {
      if scaled.height <= height {
        assert p.y <= height - scaled.height;
      } else {
        assert p.y == 0;
      }
    }
  }

  /** The overlay draw: at its position, with alpha = opacity, rotated about its centre if a rotation is set. */
  function OverlayDraw(i: ImageView, scaled: Picture, width: Dim, height: Dim): Draw
  {
    var p := OverlayPosition(i, scaled, width, height);
    var c := Pivot(p, scaled);
    var tr := if i.base.rotation != 0.0 then RotateAbout([], i.base.rotation, c.x, c.y) else [];
    ImageDraw(scaled, p.x, p.y, scaled.width, scaled.height, i.base.opacity, tr)
  }

  /** Without rotation the overlay is drawn directly, under the identity transform. */
  lemma UnrotatedOverlay(i: ImageView, scaled: Picture, width: Dim, height: Dim)
    requires i.base.rotation == 0.0
    ensures var p := OverlayPosition(i, scaled, width, height);
      OverlayDraw(i, scaled, width, height) ==
        ImageDraw(scaled, p.x, p.y, scaled.width, scaled.height, i.base.opacity, [])
  {
  }

  /** A scaled overlay that fits lies wholly inside the image. */
  lemma OverlayInsideImage(i: ImageView, scaled: Picture, width: Dim, height: Dim)
    requires scaled.width <= width && scaled.height <= height
    ensures var d := OverlayDraw(i, scaled, width, height);
      0 <= d.x && d.x + d.w <= width && 0 <= d.y && d.y + d.h <= height
  {
  }

  // ---- the strategy ----------------------------------------------------------------------------

  /** The aspect-ratio step of `scaleWatermarkImage`: one side kept, the other truncated. */
  method KeepAspectRatio(targetWidth: nat, targetHeight: nat, overlay: Picture, maintain: bool)
    returns (w: int, h: int)
    ensures Size(w, h) == KeepAspect(targetWidth, targetHeight, overlay.width, overlay.height, maintain)
  {
    w, h := targetWidth, targetHeight;
    if maintain {
      if overlay.width > overlay.height {
        h := (targetWidth * overlay.height) / overlay.width;
      } else {
        w := (targetHeight * overlay.width) / overlay.height;
      }
    }
  }

  /** A new `w` × `h` picture with the overlay drawn stretched over all of it. */
  method Stretch(overlay: Picture, w: Dim, h: Dim) returns (pic: Picture)
    ensures pic == Canvas(w, h, [ImageDraw(overlay, 0, 0, w, h, 1.0, [])])
  {
    var g := new Graphics(w, h);
    g.DrawImage(overlay, 0, 0, w, h);
    pic := g.Result();
  }

  /** `scaleWatermarkImage`. */
  method ScaleWatermarkImage(overlay: Picture, i: ImageView) returns (r: Result<Picture, string>)
    requires ImageValid(i)
    ensures r == ScaledPicture(overlay, i)
  {
    var targetWidth := ScaledWidth(i);
    var targetHeight := ScaledHeight(i);
    if overlay.width == targetWidth && overlay.height == targetHeight {
      return Success(overlay);
    }
    targetWidth, targetHeight := KeepAspectRatio(targetWidth, targetHeight, overlay, i.maintainAspectRatio);
    assert Size(targetWidth, targetHeight) == AspectTarget(i, overlay.width, overlay.height);
    if targetWidth < 1 || targetHeight < 1 {
      return Failure(NON_POSITIVE_SIZE);
    }
    var pic := Stretch(overlay, targetWidth, targetHeight);
    r := Success(pic);
  }

  /** `applyRotation`: rotate about the overlay's centre, draw, and restore the saved transform. */
  method ApplyRotation(g: Graphics, p: Point, scaled: Picture, rotation: real, opacity: real)
    requires g.Valid()
    modifies g
    ensures g.Valid() && g.state == old(g.state).(alpha := opacity)
    ensures var c := Pivot(p, scaled);
      g.drawn == old(g.drawn) + [ImageDraw(scaled, p.x, p.y, scaled.width, scaled.height, opacity,
                                           RotateAbout(old(g.state).transform, rotation, c.x, c.y))]
  {
    var centerX := Add32(p.x, scaled.width / 2);
    var centerY := Add32(p.y, scaled.height / 2);
    var originalTransform := g.state.transform;
    g.Rotate(rotation, centerX, centerY);
    g.SetComposite(opacity);
    g.DrawImage(scaled, p.x, p.y, scaled.width, scaled.height);
    g.SetTransform(originalTransform);
  }

  /** The drawing half of `applyWatermark`, once the overlay is scaled. */
  method Render(original: Picture, i: ImageView, scaled: Picture) returns (pic: Picture)
    ensures pic == Canvas(original.width, original.height,
                          [ImageDraw(original, 0, 0, original.width, original.height, 1.0, []),
                           OverlayDraw(i, scaled, original.width, original.height)])
  {
    var g := new Graphics(original.width, original.height);
    g.DrawImage(original, 0, 0, original.width, original.height);
    var p := CalculatePosition(i.base.position, original.width, original.height, scaled.width, scaled.height,
                               i.base.offsetX, i.base.offsetY);
    if i.base.rotation != 0.0 {
      ApplyRotation(g, p, scaled, i.base.rotation, i.base.opacity);
    } else {
      g.SetComposite(i.base.opacity);
      g.DrawImage(scaled, p.x, p.y, scaled.width, scaled.height);
    }
    pic := g.Result();
  }

  /**
   * `applyWatermark`: a text configuration is rejected; a null or blank overlay path, or an overlay
   * that cannot be loaded, leaves the original as it is; otherwise the original with the scaled
   * overlay drawn over it.
   */
  method ApplyWatermark(original: Picture, config: ConfigView, load: string -> Option<Picture>)
    returns (r: Result<Picture, string>)
    requires config.Valid()
    ensures !config.ImageConfig? ==> r.Failure?
    ensures config.ImageConfig? && (config.image.imagePath.None? || IsBlank(config.image.imagePath.value)) ==>
      r == Success(original)
    ensures config.ImageConfig? && config.image.imagePath.Some? && !IsBlank(config.image.imagePath.value) ==>
      var i := config.image;
      match load(i.imagePath.value)
      case None => r == Success(original)
      case Some(overlay) =>
        match ScaledPicture(overlay, i)
        case Failure(e) => r == Failure(e)
        case Success(scaled) =>
          r == Success(Canvas(original.width, original.height,
                              [ImageDraw(original, 0, 0, original.width, original.height, 1.0, []),
                               OverlayDraw(i, scaled, original.width, original.height)]))
  {
    if !config.ImageConfig? {
      return Failure("IllegalArgumentException: expected an ImageWatermarkConfig");
    }
    var i := config.image;
    if i.imagePath.None? || IsBlank(i.imagePath.value) {
      return Success(original);
    }
    var loaded := load(i.imagePath.value);
    if loaded.None? {
      return Success(original);
    }
    var scaled := ScaleWatermarkImage(loaded.value, i);
    if scaled.Failure? {
      return Failure(scaled.error);
    }
    var pic := Render(original, i, scaled.value);
    r := Success(pic);
  }
}
