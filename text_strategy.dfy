/**
 * `TextWatermarkStrategy`: draws the original image, then the text's shadow (with blur copies), its
 * outline and the text itself onto a new canvas. Text metrics come from a `measure` function of
 * the font and the text; drawing is recorded by a `Graphics` context.
 */
module TextStrategy {
  import opened Wrappers
  import opened JavaInt
  import opened Strs
  import opened Geometry
  import opened Colors
  import opened Config
  import opened Graphics

  /** What `FontMetrics` reports for a text: `stringWidth`, `getHeight` and `getAscent`. */
  datatype Metrics = Metrics(width: Int32, height: Int32, ascent: Int32)

  // ---- the draws each step makes ------------------------------------------------------------

  /** Where the shadow is drawn: the text origin moved by the shadow offsets. */
  function ShadowOrigin(t: TextView, p: Point, ascent: Int32): Point
  {
    Point(Add32(p.x, t.shadowOffsetX), Add32(Add32(p.y, ascent), t.shadowOffsetY))
  }

  /**
   * The first `n` rounds of the blur loop: round i draws at (x + i, y + i) and then at (x - i, y - i),
   * all with the same font, colour, alpha and transform.
   */
  function BlurDraws(text: string, font: Option<Font>, color: Color, o: Point, n: nat, alpha: real,
                     transform: seq<Prim>): (r: seq<Draw>)
    ensures |r| == 2 * n
  {
    if n == 0 then []
    else
      BlurDraws(text, font, color, o, n - 1, alpha, transform) +
      [TextDraw(text, font, Add32(o.x, n - 1), Add32(o.y, n - 1), color, alpha, transform),
       TextDraw(text, font, Sub32(o.x, n - 1), Sub32(o.y, n - 1), color, alpha, transform)]
  }

  /** Every blur draw is of the text with the same font, colour, alpha and transform; round i is the pair at ±i. */
  lemma BlurDrawsShape(text: string, font: Option<Font>, color: Color, o: Point, n: nat, alpha: real,
                       transform: seq<Prim>)
    ensures var r := BlurDraws(text, font, color, o, n, alpha, transform);
      (forall j :: 0 <= j < |r| ==>
         r[j].TextDraw? && r[j].text == text && r[j].font == font && r[j].color == color &&
         r[j].alpha == alpha && r[j].transform == transform) &&
      (forall i :: 0 <= i < n ==>
         r[2 * i] == TextDraw(text, font, Add32(o.x, i), Add32(o.y, i), color, alpha, transform) &&
         r[2 * i + 1] == TextDraw(text, font, Sub32(o.x, i), Sub32(o.y, i), color, alpha, transform))
  {
    BlurDrawsPairs(text, font, color, o, n, alpha, transform);
    var r := BlurDraws(text, font, color, o, n, alpha, transform);
    forall j | 0 <= j < |r|
      ensures r[j].TextDraw? && r[j].text == text && r[j].font == font && r[j].color == color &&
              r[j].alpha == alpha && r[j].transform == transform
    {
      assert j == 2 * (j / 2) || j == 2 * (j / 2) + 1;
    }
  }

  /** Round i of the blur loop is the pair at (x + i, y + i), (x - i, y - i). */
  lemma {:induction false} BlurDrawsPairs(text: string, font: Option<Font>, color: Color, o: Point, n: nat, alpha: real,
                                          transform: seq<Prim>)
    ensures var r := BlurDraws(text, font, color, o, n, alpha, transform);
      forall i :: 0 <= i < n ==>
        r[2 * i] == TextDraw(text, font, Add32(o.x, i), Add32(o.y, i), color, alpha, transform) &&
        r[2 * i + 1] == TextDraw(text, font, Sub32(o.x, i), Sub32(o.y, i), color, alpha, transform)
  {
    if n > 0 {
      var r := BlurDraws(text, font, color, o, n, alpha, transform);
      var q := BlurDraws(text, font, color, o, n - 1, alpha, transform);
      BlurDrawsPairs(text, font, color, o, n - 1, alpha, transform);
      assert r == q + [TextDraw(text, font, Add32(o.x, n - 1), Add32(o.y, n - 1), color, alpha, transform),
                       TextDraw(text, font, Sub32(o.x, n - 1), Sub32(o.y, n - 1), color, alpha, transform)];
      forall i | 0 <= i < n - 1
        ensures r[2 * i] == q[2 * i] && r[2 * i + 1] == q[2 * i + 1]
      {
      }
    }
  }

  /** `drawTextShadow`'s draws: the blur copies at alpha 0.3 / blur, or one copy when blur is 0. */
  function ShadowDraws(text: string, t: TextView, o: Point, st: GState): (r: seq<Draw>)
    requires TextValid(t)
    ensures |r| == if t.shadowBlur > 0 then 2 * t.shadowBlur else 1
    ensures forall j :: 0 <= j < |r| ==>
      r[j].TextDraw? && r[j].text == text && r[j].color == ShadowColorWithOpacity(t) && r[j].transform == st.transform
  {
    if t.shadowBlur > 0 then
      BlurDrawsShape(text, st.font, ShadowColorWithOpacity(t), o, t.shadowBlur, 0.3 / t.shadowBlur as real, st.transform);
      BlurDraws(text, st.font, ShadowColorWithOpacity(t), o, t.shadowBlur, 0.3 / t.shadowBlur as real, st.transform)
    else
      [TextDraw(text, st.font, o.x, o.y, ShadowColorWithOpacity(t), st.alpha, st.transform)]
  }

  /** The context after `drawTextShadow`: the shadow colour set, the composite reset to 1.0 after blur. */
  function ShadowState(t: TextView, st: GState): GState
    requires TextValid(t)
  {
    st.(color := ShadowColorWithOpacity(t), alpha := if t.shadowBlur > 0 then 1.0 else st.alpha)
  }

  /** The translation `drawTextStroke` applies around the outline, and the one it undoes it with. */
  function StrokeShift(p: Point, ascent: Int32): Prim
  {
    Shift(p.x, Add32(p.y, ascent))
  }

  function StrokeUnshift(p: Point, ascent: Int32): Prim
  {
    Shift(Wrap32(-p.x), Wrap32(-Add32(p.y, ascent)))
  }

  function StrokeDraw(text: string, font: Font, t: TextView, p: Point, ascent: Int32, st: GState): Draw
    requires TextValid(t) && NormalForm(st.transform)
  {
    OutlineDraw(text, font, StrokeColorWithOpacity(t), t.strokeWidth as real, st.alpha,
                Then(st.transform, StrokeShift(p, ascent)))
  }

  function StrokeState(t: TextView, p: Point, ascent: Int32, st: GState): (r: GState)
    requires TextValid(t) && NormalForm(st.transform)
    ensures NormalForm(r.transform)
  {
    st.(color := StrokeColorWithOpacity(t), strokeWidth := t.strokeWidth as real,
        transform := Then(Then(st.transform, StrokeShift(p, ascent)), StrokeUnshift(p, ascent)))
  }

  function MainDraw(text: string, t: TextView, p: Point, ascent: Int32, st: GState): Draw
    requires TextValid(t)
  {
    TextDraw(text, st.font, p.x, Add32(p.y, ascent), ColorWithOpacity(t), t.base.opacity, st.transform)
  }

  /** The transform the text is drawn under: a rotation about the canvas centre, if any. */
  function TextTransform(t: TextView, width: Dim, height: Dim): (r: seq<Prim>)
    ensures NormalForm(r)
    ensures t.base.rotation == 0.0 ==> r == []
  {
    if t.base.rotation != 0.0 then RotateAbout([], t.base.rotation, width / 2, height / 2) else []
  }

  function TextPosition(t: TextView, width: Dim, height: Dim, m: Metrics): Point
  {
    CalculatePosition(t.base.position, width, height, m.width, m.height, t.base.offsetX, t.base.offsetY)
  }

  /** The context the text steps start from: the canvas rotation (if any) and the font. */
  function Start(tr: seq<Prim>, font: Font): GState
  {
    INITIAL.(transform := tr, font := Some(font))
  }

  /** What the optional shadow step draws, and the context it leaves. */
  function ShadowPart(t: TextView, text: string, p: Point, ascent: Int32, st: GState): seq<Draw>
    requires TextValid(t)
  {
    if t.hasShadow then ShadowDraws(text, t, ShadowOrigin(t, p, ascent), st) else []
  }

  function AfterShadow(t: TextView, st: GState): (r: GState)
    requires TextValid(t)
    ensures r.transform == st.transform && r.font == st.font
    ensures st.alpha == 1.0 ==> r.alpha == 1.0
  {
    if t.hasShadow then ShadowState(t, st) else st
  }

  /** What the optional stroke step draws, and the context it leaves. */
  function StrokePart(t: TextView, text: string, font: Font, p: Point, ascent: Int32, st: GState): seq<Draw>
    requires TextValid(t) && NormalForm(st.transform)
  {
    if t.hasStroke then [StrokeDraw(text, font, t, p, ascent, st)] else []
  }

  function AfterStroke(t: TextView, p: Point, ascent: Int32, st: GState): (r: GState)
    requires TextValid(t) && NormalForm(st.transform)
    ensures NormalForm(r.transform) && r.font == st.font
  {
    if t.hasStroke then StrokeState(t, p, ascent, st) else st
  }

  /**
   * Everything `applyWatermark` draws after the original image, for a non-blank text drawn in
   * `font` at `p`, under the transform `tr`: shadow, outline, text.
   */
  function PlanAt(t: TextView, text: string, font: Font, p: Point, ascent: Int32, tr: seq<Prim>): seq<Draw>
    requires TextValid(t) && NormalForm(tr)
  {
    var st1 := AfterShadow(t, Start(tr, font));
    ShadowPart(t, text, p, ascent, Start(tr, font)) + StrokePart(t, text, font, p, ascent, st1) +
      [MainDraw(text, t, p, ascent, AfterStroke(t, p, ascent, st1))]
  }

  /** The plan for the configuration's own font, the measured position and the canvas rotation. */
  function TextPlan(t: TextView, text: string, width: Dim, height: Dim, m: Metrics): seq<Draw>
    requires TextValid(t)
  {
    PlanAt(t, text, CreateFont(t), TextPosition(t, width, height, m), m.ascent, TextTransform(t, width, height))
  }

  /** The number of shadow draws: 2 * blur with blur, one without, none when the shadow is off. */
  function ShadowCount(t: TextView): nat
    requires TextValid(t)
  {
    if !t.hasShadow then 0 else if t.shadowBlur > 0 then 2 * t.shadowBlur else 1
  }

  // ---- what the plan promises -----------------------------------------------------------------

  /** The shadow step makes `ShadowCount` text draws in the shadow colour, the first at the shadow origin. */
  lemma ShadowPartShape(t: TextView, text: string, p: Point, ascent: Int32, st: GState)
    requires TextValid(t)
    ensures var s := ShadowPart(t, text, p, ascent, st);
      var o := ShadowOrigin(t, p, ascent);
      |s| == ShadowCount(t) &&
      (forall i :: 0 <= i < |s| ==> s[i].TextDraw? && s[i].text == text &&
                                    s[i].color == ShadowColorWithOpacity(t)) &&
      (|s| > 0 ==> s[0].x == o.x && s[0].y == o.y)
  {
    if t.hasShadow && t.shadowBlur > 0 {
      var o := ShadowOrigin(t, p, ascent);
      var b := BlurDraws(text, st.font, ShadowColorWithOpacity(t), o, t.shadowBlur, 0.3 / t.shadowBlur as real, st.transform);
      BlurDrawsShape(text, st.font, ShadowColorWithOpacity(t), o, t.shadowBlur, 0.3 / t.shadowBlur as real, st.transform);
      assert b[0].x == Add32(o.x, 0);
    }
  }

  /** With blur b > 0 the shadow draws use alpha 0.3 / b and come in pairs (x + i, y + i), (x - i, y - i). */
  lemma ShadowBlurPairs(t: TextView, text: string, p: Point, ascent: Int32, st: GState)
    requires TextValid(t) && t.hasShadow && t.shadowBlur > 0
    ensures var s := ShadowPart(t, text, p, ascent, st);
      var o := ShadowOrigin(t, p, ascent);
      (forall i :: 0 <= i < |s| ==> s[i].TextDraw? && s[i].alpha == 0.3 / t.shadowBlur as real) &&
      (forall i :: 0 <= i < t.shadowBlur ==>
         s[2 * i].x == Add32(o.x, i) && s[2 * i].y == Add32(o.y, i) &&
         s[2 * i + 1].x == Sub32(o.x, i) && s[2 * i + 1].y == Sub32(o.y, i))
  {
    var o := ShadowOrigin(t, p, ascent);
    BlurDrawsShape(text, st.font, ShadowColorWithOpacity(t), o, t.shadowBlur, 0.3 / t.shadowBlur as real, st.transform);
  }

  /**
   * Order and content of the whole plan: the shadow draws come first, then the outline if enabled
   * (at full composite, in the stroke colour and width), and the main text last, at (x, y + ascent)
   * with alpha = opacity in the text colour and font.
   */
  lemma PlanShape(t: TextView, text: string, font: Font, p: Point, ascent: Int32, tr: seq<Prim>)
    requires TextValid(t) && NormalForm(tr)
    ensures var plan := PlanAt(t, text, font, p, ascent, tr);
      var k := ShadowCount(t);
      |plan| == k + (if t.hasStroke then 1 else 0) + 1 &&
      plan[..k] == ShadowPart(t, text, p, ascent, Start(tr, font)) &&
      (t.hasStroke ==> plan[k].OutlineDraw? && plan[k].alpha == 1.0 && plan[k].text == text &&
                       plan[k].color == StrokeColorWithOpacity(t) && plan[k].strokeWidth == t.strokeWidth as real) &&
      var last := plan[|plan| - 1];
      last == TextDraw(text, Some(font), p.x, Add32(p.y, ascent), ColorWithOpacity(t), t.base.opacity, last.transform)
  {
    var a := ShadowPart(t, text, p, ascent, Start(tr, font));
    var st1 := AfterShadow(t, Start(tr, font));
    var b := StrokePart(t, text, font, p, ascent, st1);
    var c := MainDraw(text, t, p, ascent, AfterStroke(t, p, ascent, st1));
    var plan := PlanAt(t, text, font, p, ascent, tr);
    ShadowPartShape(t, text, p, ascent, Start(tr, font));
    assert plan == a + b + [c];
    assert plan[..|a|] == a;
    if t.hasStroke {
      assert plan[|a|] == b[0];
    }
  }

  /** The outline's translate and its undo cancel when the baseline does not overflow. */
  lemma PlanKeepsTransform(t: TextView, text: string, font: Font, p: Point, ascent: Int32, tr: seq<Prim>)
    requires TextValid(t) && NormalForm(tr)
    requires 0 <= p.x <= MAX32 && 0 <= p.y + ascent <= MAX32
    ensures var plan := PlanAt(t, text, font, p, ascent, tr);
      plan[|plan| - 1].transform == tr
  {
    var st1 := AfterShadow(t, Start(tr, font));
    var plan := PlanAt(t, text, font, p, ascent, tr);
    assert plan[|plan| - 1] == MainDraw(text, t, p, ascent, AfterStroke(t, p, ascent, st1));
    AfterStrokeKeepsTransform(t, p, ascent, st1);
  }

  /** Without overflow at the baseline, the outline step gives back the transform it found. */
  lemma AfterStrokeKeepsTransform(t: TextView, p: Point, ascent: Int32, st: GState)
    requires TextValid(t) && NormalForm(st.transform)
    requires 0 <= p.x <= MAX32 && 0 <= p.y + ascent <= MAX32
    ensures AfterStroke(t, p, ascent, st).transform == st.transform
  {
    if t.hasStroke {
      var y := p.y + ascent;
      StrokeShiftsExact(p, ascent, y);
      ShiftBack(st.transform, p.x, y);
    }
  }

  /** Without overflow, the outline's translations are exactly (x, y) and (-x, -y) for the baseline y. */
  lemma StrokeShiftsExact(p: Point, ascent: Int32, y: int)
    requires 0 <= p.x <= MAX32 && y == p.y + ascent && 0 <= y <= MAX32
    ensures StrokeShift(p, ascent) == Shift(p.x, y) && StrokeUnshift(p, ascent) == Shift(-p.x, -y)
  {
    assert Add32(p.y, ascent) == y;
    assert Wrap32(-p.x) == -p.x && Wrap32(-y) == -y;
  }

  /**
   * With metrics whose ascent lies within the text height, the baseline never overflows, so every
   * draw, main text included, is made under the canvas rotation alone.
   */
  lemma StrokeLeavesTransform(t: TextView, text: string, width: Dim, height: Dim, m: Metrics)
    requires TextValid(t) && 0 <= m.ascent <= m.height
    ensures var plan := TextPlan(t, text, width, height, m);
      plan[|plan| - 1].transform == TextTransform(t, width, height)
  {
    var p := TextPosition(t, width, height, m);
    assert 0 <= p.y + m.ascent <= MAX32 by {
      if m.height <= height {
        assert p.y <= height - m.height;
      } else {
        assert p.y == 0;
      }
    }
    PlanKeepsTransform(t, text, CreateFont(t), p, m.ascent, TextTransform(t, width, height));
  }

  /** Rotation happens only for a non-zero angle, about the centre of the canvas. */
  lemma RotationAboutCentre(t: TextView, width: Dim, height: Dim)
    ensures t.base.rotation == 0.0 <==> TextTransform(t, width, height) == []
    ensures t.base.rotation != 0.0 ==>
      TextTransform(t, width, height) == RotateAbout([], t.base.rotation, width / 2, height / 2)
  {
    if t.base.rotation != 0.0 {
      var cx, cy := width / 2, height / 2;
      var a := Then([], Shift(cx, cy));
      var b := Then(a, Turn(t.base.rotation));
      assert b[|b| - 1] == Turn(t.base.rotation);
    }
  }

  // ---- the strategy ----------------------------------------------------------------------------

  /** The blur loop of `drawTextShadow`: n rounds, each setting the composite and drawing a pair. */
  method DrawBlur(g: Graphics, text: string, o: Point, n: nat, alpha: real)
    requires g.Valid() && n > 0
    modifies g
    ensures g.Valid() && g.state == old(g.state).(alpha := alpha)
    ensures g.drawn == old(g.drawn) + BlurDraws(text, old(g.state).font, old(g.state).color, o, n, alpha,
                                                old(g.state).transform)
  {
    ghost var st := g.state;
    ghost var d0 := g.drawn;
    var i := 0;
    while i < n
      invariant 0 <= i <= n
      invariant g.Valid()
      invariant g.state == if i == 0 then st else st.(alpha := alpha)
      invariant g.drawn == d0 + BlurDraws(text, st.font, st.color, o, i, alpha, st.transform)
    {
      DrawBlurRound(g, text, o, i, alpha);
      BlurRoundAppends(d0, text, st.font, st.color, o, i, alpha, st.transform);
      i := i + 1;
    }
  }

  /** Appending round `i` to the draws of the first `i` rounds gives the draws of `i + 1` rounds. */
  lemma BlurRoundAppends(d0: seq<Draw>, text: string, font: Option<Font>, color: Color, o: Point, i: nat, alpha: real,
                         transform: seq<Prim>)
    ensures d0 + BlurDraws(text, font, color, o, i, alpha, transform) +
      [TextDraw(text, font, Add32(o.x, i), Add32(o.y, i), color, alpha, transform),
       TextDraw(text, font, Sub32(o.x, i), Sub32(o.y, i), color, alpha, transform)] ==
      d0 + BlurDraws(text, font, color, o, i + 1, alpha, transform)
  {
  }

  /** One round of the blur loop: the composite, then the draws at (x + i, y + i) and (x - i, y - i). */
  method DrawBlurRound(g: Graphics, text: string, o: Point, i: nat, alpha: real)
    requires g.Valid()
    modifies g
    ensures g.Valid() && g.state == old(g.state).(alpha := alpha)
    ensures g.drawn == old(g.drawn) +
      [TextDraw(text, g.state.font, Add32(o.x, i), Add32(o.y, i), g.state.color, alpha, g.state.transform),
       TextDraw(text, g.state.font, Sub32(o.x, i), Sub32(o.y, i), g.state.color, alpha, g.state.transform)]
  {
    g.SetComposite(alpha);
    g.DrawString(text, Add32(o.x, i), Add32(o.y, i));
    g.DrawString(text, Sub32(o.x, i), Sub32(o.y, i));
  }

  /** `drawTextShadow`. */
  method DrawTextShadow(g: Graphics, text: string, p: Point, t: TextView, ascent: Int32)
    requires g.Valid() && TextValid(t)
    modifies g
    ensures g.Valid()
    ensures g.drawn == old(g.drawn) + ShadowDraws(text, t, ShadowOrigin(t, p, ascent), old(g.state))
    ensures g.state == ShadowState(t, old(g.state))
  {
    g.SetColor(ShadowColorWithOpacity(t));
    var o := ShadowOrigin(t, p, ascent);
    if t.shadowBlur > 0 {
      DrawBlur(g, text, o, t.shadowBlur, 0.3 / t.shadowBlur as real);
      g.SetComposite(1.0);
    } else {
      g.DrawString(text, o.x, o.y);
    }
  }

  /** `drawTextStroke`: the outline, drawn after translating to the baseline origin and translated back. */
  method DrawTextStroke(g: Graphics, text: string, p: Point, t: TextView, ascent: Int32)
    requires g.Valid() && TextValid(t)
    modifies g
    ensures g.Valid()
    ensures g.drawn == old(g.drawn) + [StrokeDraw(text, CreateFont(t), t, p, ascent, old(g.state))]
    ensures g.state == StrokeState(t, p, ascent, old(g.state))
  {
    g.SetColor(StrokeColorWithOpacity(t));
    g.SetStroke(t.strokeWidth as real);
    var font := CreateFont(t);
    var ya := Add32(p.y, ascent);
    g.Translate(p.x, ya);
    g.DrawOutline(text, font);
    g.Translate(Wrap32(-p.x), Wrap32(-ya));
  }

  /** `drawMainText`. */
  method DrawMainText(g: Graphics, text: string, p: Point, t: TextView, ascent: Int32)
    requires g.Valid() && TextValid(t)
    modifies g
    ensures g.Valid()
    ensures g.drawn == old(g.drawn) + [MainDraw(text, t, p, ascent, old(g.state))]
  {
    g.SetColor(ColorWithOpacity(t));
    g.SetComposite(t.base.opacity);
    g.DrawString(text, p.x, Add32(p.y, ascent));
  }

  /** The three drawing steps of `applyWatermark`, from a context holding only the rotation and the font. */
  method DrawText(g: Graphics, t: TextView, text: string, font: Font, p: Point, ascent: Int32)
    requires g.Valid() && TextValid(t)
    requires font == CreateFont(t) && g.state == Start(g.state.transform, font)
    modifies g
    ensures g.drawn == old(g.drawn) + PlanAt(t, text, font, p, ascent, old(g.state.transform))
  {
    ghost var st := g.state;
    if t.hasShadow {
      DrawTextShadow(g, text, p, t, ascent);
    }
    assert g.state == AfterShadow(t, st);
    ghost var st1 := g.state;
    if t.hasStroke {
      DrawTextStroke(g, text, p, t, ascent);
    }
    assert g.state == AfterStroke(t, p, ascent, st1);
    DrawMainText(g, text, p, t, ascent);
  }

  /** The drawing half of `applyWatermark`: a canvas of the original's size, the original, the text plan. */
  method Render(original: Picture, t: TextView, text: string, measure: (Font, string) -> Metrics)
    returns (pic: Picture)
    requires TextValid(t)
    ensures pic == Canvas(original.width, original.height,
                          [ImageDraw(original, 0, 0, original.width, original.height, 1.0, [])] +
                          TextPlan(t, text, original.width, original.height, measure(CreateFont(t), text)))
  {
    var g := new Graphics(original.width, original.height);
    g.DrawImage(original, 0, 0, original.width, original.height);
    ghost var first := g.drawn;
    assert first == [ImageDraw(original, 0, 0, original.width, original.height, 1.0, [])];
    var font := Prepare(g, t);
    var m := measure(font, text);
    var p := CalculatePosition(t.base.position, original.width, original.height, m.width, m.height,
                               t.base.offsetX, t.base.offsetY);
    ghost var tr := g.state.transform;
    assert tr == TextTransform(t, original.width, original.height);
    DrawText(g, t, text, font, p, m.ascent);
    assert g.drawn == first + PlanAt(t, text, font, p, m.ascent, tr);
    pic := g.Result();
  }

  /** The rotation about the canvas centre (for a non-zero angle) and the font, on a fresh context. */
  method Prepare(g: Graphics, t: TextView) returns (font: Font)
    requires g.Valid() && g.state == INITIAL && TextValid(t)
    modifies g
    ensures font == CreateFont(t)
    ensures g.Valid() && g.state == Start(TextTransform(t, g.width, g.height), font) && g.drawn == old(g.drawn)
  {
    if t.base.rotation != 0.0 {
      g.Rotate(t.base.rotation, g.width / 2, g.height / 2);
    }
    font := CreateFont(t);
    g.SetFont(font);
  }

  /**
   * `applyWatermark`: an image configuration is rejected; a null or blank text leaves the original
   * image as it is; otherwise a new canvas of the same size holds the original and the text plan.
   */
  method ApplyWatermark(original: Picture, config: ConfigView, measure: (Font, string) -> Metrics)
    returns (r: Result<Picture, string>)
    requires config.Valid()
    ensures !config.TextConfig? <==> r.Failure?
    ensures config.TextConfig? && (config.text.text.None? || IsBlank(config.text.text.value)) ==>
      r == Success(original)
    ensures config.TextConfig? && config.text.text.Some? && !IsBlank(config.text.text.value) ==>
      var t := config.text;
      var text := t.text.value;
      r == Success(Canvas(original.width, original.height,
                          [ImageDraw(original, 0, 0, original.width, original.height, 1.0, [])] +
                          TextPlan(t, text, original.width, original.height, measure(CreateFont(t), text))))
  {
    if !config.TextConfig? {
      return Failure("IllegalArgumentException: expected a TextWatermarkConfig");
    }
    var t := config.text;
    if t.text.None? || IsBlank(t.text.value) {
      return Success(original);
    }
    var text := t.text.value;
    var pic := Render(original, t, text, measure);
    r := Success(pic);
  }
}
