/**
 * Java's 32-bit `int` arithmetic and the float-to-int conversions the code base uses,
 * stated over Dafny's unbounded integers and reals.
 */
module JavaInt {

  const MIN32: int := -0x8000_0000
  const MAX32: int := 0x7FFF_FFFF
  const TWO32: int := 0x1_0000_0000

  predicate InRange32(x: int) { MIN32 <= x <= MAX32 }

  /** A value of Java's `int` type. */
  type Int32 = x: int | -0x8000_0000 <= x <= 0x7FFF_FFFF

  /** The value a Java `int` holds after an operation whose exact result is `x` (two's complement wrap-around). */
  function Wrap32(x: int): (r: int)
    ensures InRange32(r)
    ensures (x - r) % TWO32 == 0
    ensures InRange32(x) ==> r == x
  {
    (x - MIN32) % TWO32 + MIN32
  }

  /** Values that differ by a multiple of 2^32 wrap to the same `int`. */
  lemma Wrap32Congruent(x: int, y: int)
    requires (x - y) % TWO32 == 0
    ensures Wrap32(x) == Wrap32(y)
  {
    var rx, ry := Wrap32(x), Wrap32(y);
    var k, p, q := (x - y) / TWO32, (x - rx) / TWO32, (y - ry) / TWO32;
    assert x - y == k * TWO32 && x - rx == p * TWO32 && y - ry == q * TWO32;
    assert rx - ry == (k - p + q) * TWO32;
  }

  /** One step of a multiply-add recurrence may wrap before or after: the `int` result is the same. */
  lemma Wrap32MulAdd(x: int, m: int, c: int)
    ensures Wrap32(m * Wrap32(x) + c) == Wrap32(m * x + c)
  {
    var w := Wrap32(x);
    var k := (x - w) / TWO32;
    assert x - w == k * TWO32;
    assert (m * x + c) - (m * w + c) == m * (x - w);
    assert m * (x - w) == (m * k) * TWO32;
    assert ((m * x + c) - (m * w + c)) % TWO32 == 0;
    Wrap32Congruent(m * x + c, m * w + c);
  }

  function Add32(a: int, b: int): int { Wrap32(a + b) }

  function Sub32(a: int, b: int): int { Wrap32(a - b) }

  /** Java's integer division: the quotient is truncated toward zero (Dafny's `/` is Euclidean). */
  function TruncDiv(a: int, b: int): (q: int)
    requires b != 0
    ensures var rem := a - q * b; (rem == 0 || (rem < 0 <==> a < 0)) && (if rem < 0 then -rem else rem) < (if b < 0 then -b else b)
    ensures a >= 0 && b > 0 ==> q == a / b
  {
    if a >= 0 && b > 0 then a / b
    else if a < 0 && b > 0 then -((-a) / b)
    else if a >= 0 then -(a / (-b))
    else (-a) / (-b)
  }

  /** `a / b` on Java ints (the one overflowing case, MIN_VALUE / -1, wraps). */
  function Div32(a: int, b: int): int
    requires b != 0
  {
    Wrap32(TruncDiv(a, b))
  }

  function ClampInt(lo: int, hi: int, v: int): (r: int)
    ensures lo <= hi ==> lo <= r <= hi
    ensures lo <= v <= hi ==> r == v
    ensures v < lo ==> r == lo
    ensures lo <= hi && hi < v ==> r == hi
  {
    if lo > (if hi < v then hi else v) then lo else if hi < v then hi else v
  }

  function ClampReal(lo: real, hi: real, v: real): (r: real)
    ensures lo <= hi ==> lo <= r <= hi
    ensures lo <= v <= hi ==> r == v
    ensures v < lo ==> r == lo
    ensures lo <= hi && hi < v ==> r == hi
  {
    if lo > (if hi < v then hi else v) then lo else if hi < v then hi else v
  }

  function Saturate32(x: int): (r: int)
    ensures InRange32(r)
  {
    ClampInt(MIN32, MAX32, x)
  }

  /** `Math.round(float)`: the nearest integer, halves rounded up, saturated to the `int` range. */
  function Round(x: real): (r: int)
    ensures InRange32(r)
    ensures InRange32((x + 0.5).Floor) ==> r as real <= x + 0.5 < r as real + 1.0
  {
    Saturate32((x + 0.5).Floor)
  }

  /** The `(int)` cast of a float: truncation toward zero, saturated to the `int` range. */
  function Trunc(x: real): (r: int)
    ensures InRange32(r)
    ensures x >= 0.0 && x < MAX32 as real ==> r as real <= x < r as real + 1.0
    ensures x < 0.0 && x > MIN32 as real ==> r as real - 1.0 < x <= r as real
  {
    Saturate32(if x >= 0.0 then x.Floor else -((-x).Floor))
  }

  lemma MulMono(a: real, b: real, c: real)
    requires 0.0 <= c && a <= b
    ensures a * c <= b * c
  {
  }

  /** Products of non-negative reals are monotone in both factors. */
  lemma MulBounds(a: real, b: real, alo: real, ahi: real, blo: real, bhi: real)
    requires 0.0 <= alo <= a <= ahi && 0.0 <= blo <= b <= bhi
    ensures alo * blo <= a * b <= ahi * bhi
  {
    MulMono(alo, a, blo);
    MulMono(blo, b, a);
    MulMono(a, ahi, b);
    MulMono(b, bhi, ahi);
    assert a * blo == blo * a;
  }

  /** Rounding a value `x` in [0, n] stays in [0, n] and is the nearest integer to `x` (halves up). */
  lemma RoundWithin(x: real, q: real, n: Int32)
    requires 0.0 <= x <= n as real && x == q
    ensures 0 <= Round(x) <= n && Round(x) as real <= q + 0.5 < Round(x) as real + 1.0
  {
    assert 0 <= (x + 0.5).Floor <= n;
  }

  /** Rounding a value in [lo, hi] stays in [lo, hi]. */
  lemma RoundBetween(x: real, lo: Int32, hi: Int32)
    requires lo as real <= x <= hi as real
    ensures lo <= Round(x) <= hi && Round(x) as real <= x + 0.5 < Round(x) as real + 1.0
  {
    assert lo <= (x + 0.5).Floor <= hi;
  }

  /** `n * scale` for a size in [0, 2000] and a scale in [0.1, 5] lies in [0, 10000], and is at least 1 once n >= 10. */
  lemma ScaledFacts(n: Int32, scale: real)
    requires 0 <= n <= 2000 && 0.1 <= scale <= 5.0
    ensures 0.0 <= n as real * scale <= 10000.0
    ensures n >= 10 ==> n as real * scale >= 1.0
  {
    MulBounds(n as real, scale, 0.0, 2000.0, 0.1, 5.0);
    if n >= 10 {
      MulBounds(n as real, scale, 10.0, 2000.0, 0.1, 5.0);
    }
  }

  /** `Math.round(n * scale)`; for a size in [0, 2000] and a scale in [0.1, 5] it lies in [0, 10000]. */
  function ScaledSize(n: Int32, scale: real): (r: Int32)
    ensures 0 <= n <= 2000 && 0.1 <= scale <= 5.0 ==> 0 <= r <= 10000
    ensures 0 <= n <= 2000 && 0.1 <= scale <= 5.0 ==> r as real <= n as real * scale + 0.5 < r as real + 1.0
    ensures 10 <= n <= 2000 && 0.1 <= scale <= 5.0 ==> r >= 1
  {
    if 0 <= n <= 2000 && 0.1 <= scale <= 5.0 then
      ScaledFacts(n, scale);
      if n >= 10 then
        RoundBetween(n as real * scale, 1, 10000);
        Round(n as real * scale)
      else
        RoundBetween(n as real * scale, 0, 10000);
        Round(n as real * scale)
    else Round(n as real * scale)
  }

  lemma QuotientPositive(p: real, d: real)
    requires 0.0 < p && 0.0 < d
    ensures 0.0 < p / d
  {
  }

  lemma RatioAboveOne(p: real, d: real)
    requires 0.0 < d < p
    ensures p / d > 1.0
  {
    MulMono(1.0, p / d, d);
  }

  lemma RatioAtMostOne(p: real, d: real)
    requires 0.0 < p <= d
    ensures p / d <= 1.0
  {
    MulMono(p / d, 1.0, d);
  }

  lemma QuotientAboveOne(p: real, d: real)
    requires 0.0 < d && p / d > 1.0
    ensures d < p
  {
    MulMono(1.0, p / d, d);
  }

  lemma QuotientAtMostOne(p: real, d: real)
    requires 0.0 < d && p / d <= 1.0
    ensures p <= d
  {
    MulMono(p / d, 1.0, d);
  }

  lemma DivideByAtLeastOne(n: real, a: real)
    requires 0.0 <= n && 1.0 <= a
    ensures 0.0 <= n / a <= n
  {
    MulMono(1.0, a, n / a);
  }

  lemma MultiplyByAtMostOne(n: real, a: real)
    requires 0.0 <= n && 0.0 <= a <= 1.0
    ensures 0.0 <= n * a <= n
  {
    MulMono(a, 1.0, n);
  }

  lemma DivideByRatio(n: real, p: real, d: real)
    requires 0.0 < p && 0.0 < d
    ensures n / (p / d) == n * d / p
  {
  }

  lemma MultiplyByRatio(n: real, p: real, d: real)
    requires 0.0 < d
    ensures n * (p / d) == n * p / d
  {
  }

  /** For a wide original, `n / (ow / oh)` lies in [0, n] and equals `n * oh / ow`. */
  lemma QuotientFacts(n: Int32, ow: Int32, oh: Int32)
    requires 0 <= n && 0 < oh < ow
    ensures var x := n as real / (ow as real / oh as real);
      0.0 <= x <= n as real && x == n as real * oh as real / ow as real
  {
    var nr, owr, ohr := n as real, ow as real, oh as real;
    RatioAboveOne(owr, ohr);
    DivideByAtLeastOne(nr, owr / ohr);
    DivideByRatio(nr, owr, ohr);
  }

  /** For a tall or square original, `x = n * (ow / oh)` lies in [0, n] and equals `n * ow / oh`. */
  lemma ProductFacts(nr: real, owr: real, ohr: real, x: real)
    requires 0.0 <= nr && 0.0 < owr <= ohr && x == nr * (owr / ohr)
    ensures 0.0 <= x <= nr && x == nr * owr / ohr
  {
    RatioAtMostOne(owr, ohr);
    QuotientPositive(owr, ohr);
    MultiplyByAtMostOne(nr, owr / ohr);
    MultiplyByRatio(nr, owr, ohr);
  }

  /** `round(n / (ow / oh))` for a wide original: in [0, n], the nearest integer to `n * oh / ow`. */
  lemma DividedSide(n: Int32, ow: Int32, oh: Int32)
    requires 0 <= n && 0 < oh < ow
    ensures var h := Round(n as real / (ow as real / oh as real));
      0 <= h <= n && h as real <= n as real * oh as real / ow as real + 0.5 < h as real + 1.0
  {
    var x := n as real / (ow as real / oh as real);
    var q := n as real * oh as real / ow as real;
    QuotientFacts(n, ow, oh);
    assert 0.0 <= x;
    assert x <= n as real;
    assert x == q;
    RoundWithin(x, q, n);
  }

  /** `round(n * (ow / oh))` for a tall or square original: in [0, n], the nearest integer to `n * ow / oh`. */
  lemma MultipliedSide(n: Int32, ow: Int32, oh: Int32)
    requires 0 <= n && 0 < ow <= oh
    ensures var w := Round(n as real * (ow as real / oh as real));
      0 <= w <= n && w as real <= n as real * ow as real / oh as real + 0.5 < w as real + 1.0
  {
    var x := n as real * (ow as real / oh as real);
    var q := n as real * ow as real / oh as real;
    ProductFacts(n as real, ow as real, oh as real, x);
    RoundWithin(x, q, n);
  }
}
