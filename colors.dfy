/**
 * `java.awt.Color` values and the text forms the application reads and writes:
 * `ColorDeserializer.deserialize`, `ColorSerializer.serialize` and the services' `parseColor`.
 */
module Colors {
  import opened Wrappers
  import opened JavaInt
  import opened Strs

  type Byte = x: int | 0 <= x < 256

  datatype Color = Color(r: Byte, g: Byte, b: Byte, a: Byte)

  const WHITE: Color := Color(255, 255, 255, 255)
  const BLACK: Color := Color(0, 0, 0, 255)

  /** The 24-bit RGB value of a colour, red in the high byte. */
  function RgbValue(c: Color): nat
  {
    c.r * 0x1_0000 + c.g * 0x100 + c.b
  }

  /** `(v >> 8k) & 0xFF` on a Java `long` or `int` (an arithmetic shift right by 8 is floor division by 256). */
  function ByteAt(v: int, k: nat): Byte
    decreases k
  {
    if k == 0 then v % 0x100 else ByteAt(v / 0x100, k - 1)
  }

  /** `new Color(int rgb)`: the low 24 bits give the colour, alpha is 255. */
  function FromRGB(rgb: int): (c: Color)
    ensures c.a == 255
  {
    Color(ByteAt(rgb, 2), ByteAt(rgb, 1), ByteAt(rgb, 0), 255)
  }

  /** `new Color(red, green, blue, alpha)` with each channel taken from one byte of an ARGB value. */
  function FromARGB(argb: int): Color
  {
    Color(ByteAt(argb, 2), ByteAt(argb, 1), ByteAt(argb, 0), ByteAt(argb, 3))
  }

  /** `Color.getRGB()`: alpha in the top byte, read back as a signed 32-bit `int`. */
  function GetRGB(c: Color): (v: Int32)
    ensures (v - (c.a * 0x100_0000 + RgbValue(c))) % TWO32 == 0
  {
    Wrap32(c.a * 0x100_0000 + RgbValue(c))
  }

  lemma DivShift(x: int, q: int)
    ensures (x + q * 0x100) / 0x100 == x / 0x100 + q
    ensures (x + q * 0x100) % 0x100 == x % 0x100
  {
  }

  /** Adding a multiple of 256^n leaves the n low bytes alone. */
  lemma {:induction false} ByteAtShifted(x: int, q: int, n: nat, k: nat)
    requires k < n
    ensures ByteAt(x + q * Pow(0x100, n), k) == ByteAt(x, k)
    decreases k
  {
    var p := Pow(0x100, n - 1);
    assert q * Pow(0x100, n) == (q * p) * 0x100;
    DivShift(x, q * p);
    if k > 0 {
      ByteAtShifted(x / 0x100, q, n - 1, k - 1);
    }
  }

  /** A byte in front of a value: byte 0 is that byte, byte k + 1 is byte k of the rest. */
  lemma ByteAtCons(b: Byte, rest: int, k: nat)
    ensures ByteAt(b + 0x100 * rest, 0) == b
    ensures ByteAt(b + 0x100 * rest, k + 1) == ByteAt(rest, k)
  {
    DivShift(b, rest);
  }

  /** The bytes of a value built from four bytes are those bytes. */
  lemma BytesOf(b0: Byte, b1: Byte, b2: Byte, b3: Byte)
    ensures var v := b0 + 0x100 * (b1 + 0x100 * (b2 + 0x100 * b3));
      ByteAt(v, 0) == b0 && ByteAt(v, 1) == b1 && ByteAt(v, 2) == b2 && ByteAt(v, 3) == b3
  {
    var v2 := b2 + 0x100 * b3;
    var v1 := b1 + 0x100 * v2;
    var v := b0 + 0x100 * v1;
    assert ByteAt(v, 0) == b0 by { ByteAtCons(b0, v1, 0); }
    assert ByteAt(v, 1) == b1 by { ByteAtCons(b0, v1, 0); ByteAtCons(b1, v2, 0); }
    assert ByteAt(v, 2) == b2 by { ByteAtCons(b0, v1, 1); ByteAtCons(b1, v2, 0); ByteAtCons(b2, b3, 0); }
    assert ByteAt(v, 3) == b3 by {
      ByteAtCons(b0, v1, 2); ByteAtCons(b1, v2, 1); ByteAtCons(b2, b3, 0); ByteAtCons(b3, 0, 0);
    }
  }

  /** A 24-bit value read through `new Color(rgb)` keeps its value. */
  lemma RgbValueOfFromRGB(v: int)
    requires 0 <= v < 0x100_0000
    ensures RgbValue(FromRGB(v)) == v
  {
    var q0 := v / 0x100;
    var q1 := q0 / 0x100;
    assert ByteAt(v, 1) == q0 % 0x100;
    assert ByteAt(v, 2) == ByteAt(q0, 1) == q1 % 0x100;
    assert q1 < 0x100;
  }

  /** `new Color(rgb)` of a colour's own RGB value gives back its channels, opaque. */
  lemma FromRgbValue(c: Color)
    ensures FromRGB(RgbValue(c)) == c.(a := 255)
  {
    BytesOf(c.b, c.g, c.r, 0);
    assert RgbValue(c) == c.b + 0x100 * (c.g + 0x100 * (c.r + 0x100 * 0));
  }

  /** An ARGB value that fits 32 bits splits back into its alpha, red, green and blue bytes. */
  lemma FromArgbValue(c: Color, v: int)
    requires v == c.a * 0x100_0000 + RgbValue(c)
    ensures FromARGB(v) == c
  {
    BytesOf(c.b, c.g, c.r, c.a);
    assert v == c.b + 0x100 * (c.g + 0x100 * (c.r + 0x100 * c.a));
  }

  /** `new Color(c.getRGB())` keeps red, green and blue and makes the colour opaque. */
  lemma OpaqueCopy(c: Color)
    ensures FromRGB(GetRGB(c)) == c.(a := 255)
  {
    var x := c.a * 0x100_0000 + RgbValue(c);
    var v := GetRGB(c);
    var m := (x - v) / TWO32;
    assert Pow(0x100, 3) == 0x100_0000 by { assert Pow(0x100, 1) == 0x100; assert Pow(0x100, 2) == 0x1_0000; }
    assert x - v == m * TWO32;
    assert v == RgbValue(c) + (c.a - 0x100 * m) * Pow(0x100, 3);
    forall k | 0 <= k < 3 ensures ByteAt(v, k) == ByteAt(RgbValue(c), k) {
      ByteAtShifted(RgbValue(c), c.a - 0x100 * m, 3, k);
    }
    FromRgbValue(c);
  }

  /** `new Color(c.getRGB())`, the way `TextWatermarkConfig.copy` duplicates a colour. */
  function CopyColor(c: Color): (r: Color)
    ensures r == c.(a := 255)
  {
    OpaqueCopy(c);
    FromRGB(GetRGB(c))
  }

  // ---- number syntax ----------------------------------------------------------------
  // Digits are the ASCII ones; `Character.digit` also accepts other Unicode digits.

  predicate IsHexDigit(c: char)
  {
    '0' <= c <= '9' || 'a' <= c <= 'f' || 'A' <= c <= 'F'
  }

  predicate AllHex(s: string)
  {
    forall i :: 0 <= i < |s| ==> IsHexDigit(s[i])
  }

  function HexDigitValue(c: char): (d: nat)
    requires IsHexDigit(c)
    ensures d < 16
  {
    if '0' <= c <= '9' then c as int - '0' as int
    else if 'a' <= c <= 'f' then c as int - 'a' as int + 10
    else c as int - 'A' as int + 10
  }

  function Pow(base: nat, k: nat): nat
  {
    if k == 0 then 1 else base * Pow(base, k - 1)
  }

  /** The value of a string of hex digits, most significant first. */
  function HexValue(s: string): nat
    requires AllHex(s)
  {
    if s == [] then 0 else HexValue(s[..|s| - 1]) * 16 + HexDigitValue(s[|s| - 1])
  }

  lemma {:induction false} HexValueBound(s: string)
    requires AllHex(s)
    ensures HexValue(s) < Pow(16, |s|)
  {
    if s != [] {
      HexValueBound(s[..|s| - 1]);
    }
  }

  lemma HexValueSnoc(w: string, c: char)
    requires AllHex(w) && IsHexDigit(c)
    ensures AllHex(w + [c]) && HexValue(w + [c]) == HexValue(w) * 16 + HexDigitValue(c)
  {
    assert (w + [c])[..|w|] == w;
  }

  lemma AllHexConcat(x: string, y: string)
    requires AllHex(x) && AllHex(y)
    ensures AllHex(x + y)
  {
    forall i | 0 <= i < |x + y| ensures IsHexDigit((x + y)[i]) {
      if i >= |x| {
        assert (x + y)[i] == y[i - |x|];
      }
    }
  }

  lemma MulStep(v: int, u: int, a: int, b: int, c: int, d: int, w: int, h: int)
    requires v == u * 16 + d && u == a * b + c && w == 16 * b && h == c * 16 + d
    ensures v == a * w + h
  {
    assert (a * b) * 16 == a * (16 * b);
  }

  lemma {:induction false} HexValueAppend(x: string, y: string)
    requires AllHex(x) && AllHex(y)
    ensures AllHex(x + y) && HexValue(x + y) == HexValue(x) * Pow(16, |y|) + HexValue(y)
    decreases |y|
  {
    AllHexConcat(x, y);
    if y == [] {
      assert x + y == x;
    } else {
      var y0, last := y[..|y| - 1], y[|y| - 1];
      assert y == y0 + [last];
      assert x + y == (x + y0) + [last];
      HexValueAppend(x, y0);
      HexValueSnoc(x + y0, last);
      HexValueSnoc(y0, last);
      MulStep(HexValue(x + y), HexValue(x + y0), HexValue(x), Pow(16, |y0|), HexValue(y0), HexDigitValue(last),
        Pow(16, |y|), HexValue(y));
    }
  }

  /** Appending two hex digits shifts the value left by one byte. */
  lemma HexValueAppendByte(x: string, y: string)
    requires AllHex(x) && AllHex(y) && |y| == 2
    ensures AllHex(x + y) && HexValue(x + y) == HexValue(x) * 0x100 + HexValue(y)
  {
    HexValueAppend(x, y);
    assert Pow(16, 2) == 0x100;
  }

  /** `Integer.parseInt(s, 16)` where `s` has already been checked to carry no sign. */
  function ParseHexInt(s: string): (r: Option<int>)
    ensures r.Some? <==> s != [] && AllHex(s) && HexValue(s) <= MAX32
    ensures r.Some? ==> r.value == HexValue(s)
  {
    if s != [] && AllHex(s) && HexValue(s) <= MAX32 then Some(HexValue(s)) else None
  }

  const MAX64: int := 0x7FFF_FFFF_FFFF_FFFF

  /** `Long.parseLong(s, 16)`: an optional sign, at least one hex digit, a value within the `long` range. */
  function ParseHexLong(s: string): (r: Option<int>)
    ensures s != [] && AllHex(s) ==> (r.Some? <==> HexValue(s) <= MAX64)
    ensures s != [] && AllHex(s) && r.Some? ==> r.value == HexValue(s)
    ensures r.Some? ==> -MAX64 - 1 <= r.value <= MAX64
    ensures r.Some? <==> Unsigned(s) != [] && AllHex(Unsigned(s)) && -MAX64 - 1 <= SignedHexValue(s) <= MAX64
    ensures r.Some? ==> r.value == SignedHexValue(s)
  {
    if s == [] then None
    else if s[0] == '-' || s[0] == '+' then
      var digits := s[1..];
      if digits == [] || !AllHex(digits) then None
      else
        var n: int := HexValue(digits);
        if s[0] == '-' then (if n <= MAX64 + 1 then Some(-n) else None)
        else (if n <= MAX64 then Some(n) else None)
    else if AllHex(s) && HexValue(s) <= MAX64 then Some(HexValue(s))
    else None
  }

  lemma {:induction false} PowMonotone(base: nat, j: nat, k: nat)
    requires 1 <= base && j <= k
    ensures Pow(base, j) <= Pow(base, k)
  {
    if j < k {
      PowMonotone(base, j, k - 1);
      AtLeastOnce(base, Pow(base, k - 1));
    }
  }

  lemma AtLeastOnce(m: nat, p: nat)
    requires 1 <= m
    ensures p <= m * p
  {
  }

  /** The text after an optional leading '+' or '-'. */
  function Unsigned(s: string): string
  {
    if s != [] && (s[0] == '-' || s[0] == '+') then s[1..] else s
  }

  /** The value of a sign and decimal digits: negated after a '-'. */
  function SignedDecValue(s: string): int
    requires AllDigits(Unsigned(s))
  {
    var d: int := DecValue(Unsigned(s));
    if s != [] && s[0] == '-' then -d else d
  }

  /** The value of a sign and hex digits: negated after a '-'. */
  function SignedHexValue(s: string): int
    requires AllHex(Unsigned(s))
  {
    var d: int := HexValue(Unsigned(s));
    if s != [] && s[0] == '-' then -d else d
  }

  /** `Integer.parseInt(s)`: an optional sign, at least one decimal digit, a value within the `int` range. */
  function ParseDecInt(s: string): (r: Option<int>)
    ensures r.Some? <==> Unsigned(s) != [] && AllDigits(Unsigned(s)) && InRange32(SignedDecValue(s))
    ensures r.Some? ==> r.value == SignedDecValue(s)
    ensures r.Some? ==> s != [] && (IsDigit(s[0]) || s[0] == '-' || s[0] == '+')
  {
    if s == [] then None
    else if s[0] == '-' || s[0] == '+' then
      var digits := s[1..];
      if digits == [] || !AllDigits(digits) then None
      else
        var d: int := DecValue(digits);
        var v := if s[0] == '-' then -d else d;
        if InRange32(v) then Some(v) else None
    else if AllDigits(s) && InRange32(DecValue(s)) then Some(DecValue(s))
    else None
  }

  /** Every `int` reads back from its decimal text. */
  lemma ParseDecIntOfIntToString(i: int)
    requires InRange32(i)
    ensures ParseDecInt(IntToString(i)) == Some(i)
  {
    var s := IntToString(i);
    if i < 0 {
      assert s[1..] == NatToString(-i);
      DecValueOfNatToString(-i);
    } else {
      DecValueOfNatToString(i);
      assert IsDigit(s[0]);
    }
  }

  /**
   * `Color.decode` on a string that starts with '#': the rest must be unsigned hex digits whose value
   * fits an `int`; the colour is that value's low 24 bits, opaque.
   */
  function DecodeHash(s: string): (r: Option<Color>)
    requires |s| >= 1 && s[0] == '#'
    ensures r.Some? <==> ParseHexInt(s[1..]).Some?
    ensures r.Some? ==> r.value.a == 255
    ensures r.Some? && |s| <= 7 ==> RgbValue(r.value) == HexValue(s[1..])
  {
    match ParseHexInt(s[1..])
    case None => None
    case Some(i) =>
      if |s| <= 7 then
        assert i < 0x100_0000 by {
          HexValueBound(s[1..]);
          PowMonotone(16, |s| - 1, 6);
          assert Pow(16, 6) == 0x100_0000 by { assert Pow(16, 3) == 0x1000; }
        }
        RgbValueOfFromRGB(i);
        Some(FromRGB(i))
      else Some(FromRGB(i))
  }

  // ---- ColorDeserializer.deserialize -------------------------------------------------

  /** The decimal fallback: `new Color(Integer.parseInt(v))`, or WHITE when that throws. */
  function DecimalColor(v: string): (c: Color)
    ensures c.a == 255
    ensures ParseDecInt(v).Some? ==> c == FromRGB(SignedDecValue(v))
    ensures ParseDecInt(v).None? ==> c == WHITE
  {
    match ParseDecInt(v)
    case Some(rgb) => FromRGB(rgb)
    case None => WHITE
  }

  /** The ARGB forms: `Long.parseLong(digits, 16)` split into bytes, or WHITE when that throws. */
  function ArgbColor(digits: string): Color
  {
    match ParseHexLong(digits)
    case Some(v) => FromARGB(v)
    case None => WHITE
  }

  /** `ColorDeserializer.deserialize`; `None` is a JSON null. It never fails: every error gives WHITE. */
  function Deserialize(value: Option<string>): (c: Color)
    ensures value.None? || IsBlank(value.value) ==> c == WHITE
  {
    if value.None? || IsBlank(value.value) then WHITE
    else
      var v := Trim(value.value);
      if StartsWith(v, "#") then
        if |v| == 7 then DecodeHash(v).GetOr(WHITE)
        else if |v| == 9 then ArgbColor(v[1..])
        else DecimalColor(v)
      else if |v| == 6 then DecodeHash("#" + v).GetOr(WHITE)
      else if |v| == 8 then ArgbColor(v)
      else DecimalColor(v)
  }

  // ---- ColorSerializer.serialize -----------------------------------------------------

  function HexUpper(d: int): (c: char)
    requires 0 <= d < 16
    ensures IsHexDigit(c) && HexDigitValue(c) == d
    ensures !('a' <= c <= 'f')
  {
    if d < 10 then ('0' as int + d) as char else ('A' as int + d - 10) as char
  }

  /** `%02X`: two upper-case hex digits. */
  function Hex2(n: Byte): (s: string)
    ensures |s| == 2 && AllHex(s) && HexValue(s) == n
    ensures forall i :: 0 <= i < 2 ==> !('a' <= s[i] <= 'f')
  {
    var s := [HexUpper(n / 16), HexUpper(n % 16)];
    assert s[..1] == [s[0]] && [s[0]][..0] == [];
    assert HexValue([s[0]]) == n / 16;
    s
  }

  /** `ColorSerializer.serialize`; `None` is a null colour. */
  function Serialize(c: Option<Color>): (s: string)
    ensures |s| == 7 && s[0] == '#' && AllHex(s[1..])
    ensures forall i :: 1 <= i < 7 ==> !('a' <= s[i] <= 'f')
    ensures c.None? ==> s == "#FFFFFF"
    ensures c.Some? ==> HexValue(s[1..]) == RgbValue(c.value)
  {
    match c
    case None =>
      assert AllHex("#FFFFFF"[1..]);
      "#FFFFFF"
    case Some(col) =>
      var digits := Hex2(col.r) + Hex2(col.g) + Hex2(col.b);
      HexValueAppendByte(Hex2(col.r), Hex2(col.g));
      HexValueAppendByte(Hex2(col.r) + Hex2(col.g), Hex2(col.b));
      assert ("#" + digits)[1..] == digits;
      "#" + digits
  }

  lemma TrimKeeps(s: string)
    requires s != [] && !Trimmable(s[0]) && !Trimmable(s[|s| - 1])
    ensures Trim(s) == s && !IsBlank(s)
  {
  }

  /** An already-trimmed "#RRGGBB" goes to `Color.decode`. */
  lemma DeserializeHashSeven(v: string)
    requires |v| == 7 && v[0] == '#' && !Trimmable(v[6])
    ensures Deserialize(Some(v)) == DecodeHash(v).GetOr(WHITE)
  {
    TrimKeeps(v);
    assert StartsWith(v, "#");
  }

  /** Serialising then deserialising gives back red, green and blue; the alpha channel is lost. */
  lemma SerializeRoundTrip(c: Color)
    ensures Deserialize(Some(Serialize(Some(c)))) == c.(a := 255)
  {
    var s := Serialize(Some(c));
    assert IsHexDigit(s[6]);
    DeserializeHashSeven(s);
    assert RgbValue(c) <= MAX32;
    assert DecodeHash(s) == Some(FromRGB(RgbValue(c)));
    FromRgbValue(c);
  }

  /** A bare six-character value is read as hex RRGGBB before any decimal reading, so "123456" is hex. */
  lemma SixCharactersAreHex(v: string)
    requires |v| == 6 && AllHex(v)
    ensures Deserialize(Some(v)).a == 255
    ensures RgbValue(Deserialize(Some(v))) == HexValue(v)
  {
    assert IsHexDigit(v[0]) && IsHexDigit(v[5]);
    TrimKeeps(v);
    assert !StartsWith(v, "#");
    var h := "#" + v;
    assert h[1..] == v;
    HexValueBound(v);
    assert Pow(16, 6) == 0x100_0000 by { assert Pow(16, 3) == 0x1000; }
    assert DecodeHash(h).Some?;
  }

  /** An already-trimmed "#AARRGGBB" goes to `Long.parseLong` of the eight digits. */
  lemma DeserializeHashNine(v: string)
    requires |v| == 9 && v[0] == '#' && !Trimmable(v[8])
    ensures Deserialize(Some(v)) == ArgbColor(v[1..])
  {
    TrimKeeps(v);
    assert StartsWith(v, "#");
  }

  /** "AARRGGBB": alpha, red, green and blue as two upper-case hex digits each. */
  function ArgbHex(c: Color): (s: string)
    ensures |s| == 8 && AllHex(s) && HexValue(s) == c.a * 0x100_0000 + RgbValue(c)
  {
    HexValueAppendByte(Hex2(c.a), Hex2(c.r));
    HexValueAppendByte(Hex2(c.a) + Hex2(c.r), Hex2(c.g));
    HexValueAppendByte(Hex2(c.a) + Hex2(c.r) + Hex2(c.g), Hex2(c.b));
    Hex2(c.a) + Hex2(c.r) + Hex2(c.g) + Hex2(c.b)
  }

  /** "#" followed by eight hex digits is split into bytes as one `long` value `v`. */
  lemma HashNineValue(digits: string, v: int)
    requires |digits| == 8 && AllHex(digits) && HexValue(digits) == v <= MAX64
    ensures Deserialize(Some("#" + digits)) == FromARGB(v)
  {
    var s := "#" + digits;
    assert s[1..] == digits && s[8] == digits[7];
    DeserializeHashNine(s);
    assert IsHexDigit(digits[0]);
  }

  /** "#AARRGGBB" takes alpha from the first byte and then red, green, blue. */
  lemma HashArgb(c: Color)
    ensures Deserialize(Some("#" + ArgbHex(c))) == c
  {
    var v := c.a * 0x100_0000 + RgbValue(c);
    HashNineValue(ArgbHex(c), v);
    FromArgbValue(c, v);
  }

  /** "AARRGGBB" without the '#' is read the same way: the eight digits as one `long`, split into bytes. */
  lemma BareArgb(c: Color)
    ensures Deserialize(Some(ArgbHex(c))) == c
  {
    var s := ArgbHex(c);
    var v := c.a * 0x100_0000 + RgbValue(c);
    assert IsHexDigit(s[0]) && IsHexDigit(s[7]);
    TrimKeeps(s);
    assert !StartsWith(s, "#");
    assert ParseHexLong(s) == Some(v);
    FromArgbValue(c, v);
  }

  /**
   * A decimal `int` whose text is neither 6 nor 8 characters long is read by `Integer.parseInt` and
   * `new Color(rgb)`: its low 24 bits, opaque. (Texts of 6 or 8 characters are taken as hex first.)
   */
  lemma DeserializeDecimal(i: int)
    requires InRange32(i) && |IntToString(i)| != 6 && |IntToString(i)| != 8
    ensures Deserialize(Some(IntToString(i))) == FromRGB(i)
  {
    var s := IntToString(i);
    assert !Trimmable(s[0]) && !Trimmable(s[|s| - 1]);
    TrimKeeps(s);
    assert !StartsWith(s, "#");
    ParseDecIntOfIntToString(i);
  }

  /** A value starting with '#' whose length is neither 7 nor 9 is never a colour: it gives WHITE. */
  lemma HashOtherLengthIsWhite(v: string)
    requires StartsWith(Trim(v), "#") && |Trim(v)| != 7 && |Trim(v)| != 9
    ensures Deserialize(Some(v)) == WHITE
  {
  }

  /**
   * The value is trimmed before any length or prefix test: a padded value deserialises exactly as
   * its trimmed text, so " #FF0000 " and "#FF0000" give the same colour.
   */
  lemma DeserializeTrims(s: string)
    requires !IsBlank(s)
    ensures Deserialize(Some(s)) == Deserialize(Some(Trim(s)))
  {
    TrimKeeps(Trim(s));
  }

  // ---- WatermarkService.parseColor / SimpleBridge.parseColor -------------------------

  /** `parseColor`: only values starting with '#' are decoded; anything else, null, or a decode failure is WHITE. */
  function ParseColor(s: Option<string>): (c: Color)
    ensures s.None? || !StartsWith(s.value, "#") ==> c == WHITE
    ensures s.Some? && StartsWith(s.value, "#") && DecodeHash(s.value).Some? ==> c.a == 255
  {
    if s.Some? && StartsWith(s.value, "#") then DecodeHash(s.value).GetOr(WHITE) else WHITE
  }

  /** The colour the frontend stores as "#RRGGBB" is read back exactly, with alpha 255. */
  lemma ParseColorRoundTrip(c: Color)
    ensures ParseColor(Some(Serialize(Some(c)))) == c.(a := 255)
  {
    var s := Serialize(Some(c));
    assert StartsWith(s, "#");
    assert DecodeHash(s).Some? by {
      assert RgbValue(c) <= MAX32;
    }
    SameRgbSameColor(DecodeHash(s).value, c);
  }

  /** An opaque colour is determined by its RGB value. */
  lemma SameRgbSameColor(d: Color, c: Color)
    requires d.a == 255 && RgbValue(d) == RgbValue(c)
    ensures d == c.(a := 255)
  {
    FromRgbValue(d);
    FromRgbValue(c);
  }

  /** "#FFFFFF", the default font colour, is read as WHITE. */
  lemma WhiteText()
    ensures ParseColor(Some("#FFFFFF")) == WHITE
  {
    var h := Hex2(255);
    assert h == "FF" by {
      assert h[0] == HexUpper(15) == 'F' && h[1] == HexUpper(15);
    }
    var s := Serialize(Some(WHITE));
    assert s == "#" + (h + h + h);
    assert s == "#FFFFFF";
    ParseColorRoundTrip(WHITE);
  }
}
