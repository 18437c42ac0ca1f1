/**
 * The part of `java.awt.Graphics2D` the strategies use, as a recording context: the current colour,
 * composite alpha, stroke width, font and transform, and the list of everything drawn so far, each
 * draw together with the state it was drawn in. Pixels are not modelled.
 */
module Graphics {
  import opened Wrappers
  import opened JavaInt
  import opened Colors
  import opened Config

  // ---- transforms -----------------------------------------------------------------------------

  /** A primitive transform: a translation by whole pixels, or a rotation (in degrees) about the origin. */
  datatype Prim = Shift(dx: int, dy: int) | Turn(degrees: real)

  /**
   * A transform is kept as the list of primitives applied so far, in a normal form: no identity
   * primitive and no two translations in a row (they are merged). Equal lists are equal transforms.
   */
  predicate NormalForm(t: seq<Prim>)
  {
    (forall i :: 0 <= i < |t| ==> t[i] != Shift(0, 0) && t[i] != Turn(0.0)) &&
    (forall i :: 0 <= i < |t| - 1 ==> !(t[i].Shift? && t[i + 1].Shift?))
  }

  /** The transform `t` followed by `p` (Graphics2D's `translate` / `rotate` concatenate on the right). */
  function Then(t: seq<Prim>, p: Prim): (r: seq<Prim>)
    requires NormalForm(t)
    ensures NormalForm(r)
    ensures p == Shift(0, 0) || p == Turn(0.0) ==> r == t
  {
    if p == Shift(0, 0) || p == Turn(0.0) then t
    else if p.Shift? && t != [] && t[|t| - 1].Shift? then
      var q := t[|t| - 1];
      var m := Shift(q.dx + p.dx, q.dy + p.dy);
      if m == Shift(0, 0) then t[..|t| - 1] else t[..|t| - 1] + [m]
    else t + [p]
  }

  /** `rotate(theta, x, y)`: translate to the pivot, rotate, translate back. */
  function RotateAbout(t: seq<Prim>, degrees: real, cx: int, cy: int): (r: seq<Prim>)
    requires NormalForm(t)
    ensures NormalForm(r)
  {
    Then(Then(Then(t, Shift(cx, cy)), Turn(degrees)), Shift(-cx, -cy))
  }

  /** A translation followed by its opposite leaves the transform exactly as it was. */
  lemma ShiftBack(t: seq<Prim>, dx: int, dy: int)
    requires NormalForm(t)
    ensures Then(Then(t, Shift(dx, dy)), Shift(-dx, -dy)) == t
  {
    if dx == 0 && dy == 0 {
    } else if t != [] && t[|t| - 1].Shift? {
      var q := t[|t| - 1];
      if q.dx + dx == 0 && q.dy + dy == 0 {
        ShiftBackCancelled(t, dx, dy);
      } else {
        ShiftBackMerged(t, dx, dy);
      }
    } else {
      var u := Then(t, Shift(dx, dy));
      assert u == t + [Shift(dx, dy)];
      assert u[..|u| - 1] == t;
    }
  }

  /** The translation cancels the trailing one; the opposite translation puts it back. */
  lemma ShiftBackCancelled(t: seq<Prim>, dx: int, dy: int)
    requires NormalForm(t) && t != [] && t[|t| - 1] == Shift(-dx, -dy) && (dx, dy) != (0, 0)
    ensures Then(Then(t, Shift(dx, dy)), Shift(-dx, -dy)) == t
  {
    var u := Then(t, Shift(dx, dy));
    assert u == t[..|t| - 1];
    assert u == [] || !u[|u| - 1].Shift? by {
      if u != [] {
        assert u[|u| - 1] == t[|t| - 2];
      }
    }
    assert t == u + [Shift(-dx, -dy)];
  }

  /** The translation merges into the trailing one; the opposite translation restores it. */
  lemma ShiftBackMerged(t: seq<Prim>, dx: int, dy: int)
    requires NormalForm(t) && t != [] && t[|t| - 1].Shift? && (dx, dy) != (0, 0)
    requires t[|t| - 1].dx + dx != 0 || t[|t| - 1].dy + dy != 0
    ensures Then(Then(t, Shift(dx, dy)), Shift(-dx, -dy)) == t
  {
    var q := t[|t| - 1];
    var u := Then(t, Shift(dx, dy));
    assert u == t[..|t| - 1] + [Shift(q.dx + dx, q.dy + dy)];
    assert Then(u, Shift(-dx, -dy)) == t[..|t| - 1] + [q];
  }

  // ---- pictures and draws ---------------------------------------------------------------------

  /** A `BufferedImage` side: always positive. */
  type Dim = x: int | 1 <= x <= 0x7FFF_FFFF witness 1

  /** An image: one loaded from a file (identified by `source`), or a canvas and what was drawn on it. */
  datatype Picture =
    | Loaded(source: string, width: Dim, height: Dim)
    | Canvas(width: Dim, height: Dim, draws: seq<Draw>)

  /** One drawing call with the context state it used. */
  datatype Draw =
    | ImageDraw(picture: Picture, x: int, y: int, w: int, h: int, alpha: real, transform: seq<Prim>)
    | TextDraw(text: string, font: Option<Font>, x: int, y: int, color: Color, alpha: real, transform: seq<Prim>)
    | OutlineDraw(text: string, outlineFont: Font, color: Color, strokeWidth: real, alpha: real, transform: seq<Prim>)

  /** The settable state of a `Graphics2D`. */
  datatype GState = GState(color: Color, alpha: real, strokeWidth: real, font: Option<Font>, transform: seq<Prim>)

  /** A fresh context from `createGraphics()`: white, opaque `SrcOver`, 1-pixel stroke, identity transform. */
  const INITIAL: GState := GState(WHITE, 1.0, 1.0, None, [])

  class Graphics {
    /** The picture being drawn on, as its size. */
    const width: Dim
    const height: Dim
    var state: GState
    var drawn: seq<Draw>

    predicate Valid()
      reads this
    {
      NormalForm(state.transform)
    }

    constructor (w: Dim, h: Dim)
      ensures Valid() && width == w && height == h && state == INITIAL && drawn == []
    {
      width, height := w, h;
      state, drawn := INITIAL, [];
    }

    /** The picture drawn so far. */
    function Result(): Picture
      reads this
    {
      Canvas(width, height, drawn)
    }

    method SetColor(c: Color)
      requires Valid()
      modifies this
      ensures Valid() && state == old(state).(color := c) && drawn == old(drawn)
    {
      state := state.(color := c);
    }

    /** `setComposite(AlphaComposite.getInstance(SRC_OVER, alpha))`. */
    method SetComposite(alpha: real)
      requires Valid()
      modifies this
      ensures Valid() && state == old(state).(alpha := alpha) && drawn == old(drawn)
    {
      state := state.(alpha := alpha);
    }

    /** `setStroke(new BasicStroke(w))`. */
    method SetStroke(w: real)
      requires Valid()
      modifies this
      ensures Valid() && state == old(state).(strokeWidth := w) && drawn == old(drawn)
    {
      state := state.(strokeWidth := w);
    }

    method SetFont(f: Font)
      requires Valid()
      modifies this
      ensures Valid() && state == old(state).(font := Some(f)) && drawn == old(drawn)
    {
      state := state.(font := Some(f));
    }

    method Translate(dx: int, dy: int)
      requires Valid()
      modifies this
      ensures Valid() && state == old(state).(transform := Then(old(state).transform, Shift(dx, dy)))
      ensures drawn == old(drawn)
    {
      state := state.(transform := Then(state.transform, Shift(dx, dy)));
    }

    /** `rotate(Math.toRadians(degrees), cx, cy)`. */
    method Rotate(degrees: real, cx: int, cy: int)
      requires Valid()
      modifies this
      ensures Valid() && state == old(state).(transform := RotateAbout(old(state).transform, degrees, cx, cy))
      ensures drawn == old(drawn)
    {
      state := state.(transform := RotateAbout(state.transform, degrees, cx, cy));
    }

    method SetTransform(t: seq<Prim>)
      requires Valid() && NormalForm(t)
      modifies this
      ensures Valid() && state == old(state).(transform := t) && drawn == old(drawn)
    {
      state := state.(transform := t);
    }

    /** `drawString(text, x, y)` with the current font, colour, composite and transform. */
    method DrawString(text: string, x: int, y: int)
      requires Valid()
      modifies this
      ensures Valid() && state == old(state)
      ensures drawn == old(drawn) + [TextDraw(text, state.font, x, y, state.color, state.alpha, state.transform)]
    {
      drawn := drawn + [TextDraw(text, state.font, x, y, state.color, state.alpha, state.transform)];
    }

    /** `draw(outline)` of the text's outline in `font`, with the current stroke. */
    method DrawOutline(text: string, font: Font)
      requires Valid()
      modifies this
      ensures Valid() && state == old(state)
      ensures drawn == old(drawn) + [OutlineDraw(text, font, state.color, state.strokeWidth, state.alpha, state.transform)]
    {
      drawn := drawn + [OutlineDraw(text, font, state.color, state.strokeWidth, state.alpha, state.transform)];
    }

    /** `drawImage(p, x, y, w, h, null)`; the four-argument form passes the picture's own size. */
    method DrawImage(p: Picture, x: int, y: int, w: int, h: int)
      requires Valid()
      modifies this
      ensures Valid() && state == old(state)
      ensures drawn == old(drawn) + [ImageDraw(p, x, y, w, h, state.alpha, state.transform)]
    {
      drawn := drawn + [ImageDraw(p, x, y, w, h, state.alpha, state.transform)];
    }
  }
}
