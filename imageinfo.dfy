/**
 * The metadata of an imported image: its id, names, size in bytes, dimensions and format, with the
 * two texts shown for it (the formatted file size and "width × height"). The clock is a parameter.
 */
module ImageInfoModel {
  import opened Wrappers
  import opened JavaInt
  import opened Strs

  // ---- String.hashCode and Math.abs --------------------------------------------------------

  /** The UTF-16 code unit or surrogate pair that holds one character in a Java `String`. */
  function Units(c: char): (u: seq<int>)
    ensures |u| == (if c as int < 0x1_0000 then 1 else 2)
    ensures forall k :: 0 <= k < |u| ==> 0 <= u[k] < 0x1_0000
    ensures c as int < 0x1_0000 ==> u == [c as int]
    ensures c as int >= 0x1_0000 ==>
      0xD800 <= u[0] < 0xDC00 && 0xDC00 <= u[1] < 0xE000 && (u[0] - 0xD800) * 0x400 + (u[1] - 0xDC00) + 0x1_0000 == c as int
  {
    var v := c as int;
    if v < 0x1_0000 then [v]
    else [0xD800 + (v - 0x1_0000) / 0x400, 0xDC00 + (v - 0x1_0000) % 0x400]
  }

  /** The UTF-16 code units of a text, the `char`s a Java `String` is made of. */
  function Utf16(s: string): (u: seq<int>)
    ensures |s| <= |u| <= 2 * |s|
    ensures forall k :: 0 <= k < |u| ==> 0 <= u[k] < 0x1_0000
  {
    if s == [] then [] else Utf16(s[..|s| - 1]) + Units(s[|s| - 1])
  }

  /** `h := 31 * h + c` over a sequence of code units, in `int` arithmetic. */
  function HashUnits(u: seq<int>): (h: int)
    ensures InRange32(h)
  {
    if u == [] then 0 else Wrap32(31 * HashUnits(u[..|u| - 1]) + u[|u| - 1])
  }

  /** `String.hashCode()`: `h := 31 * h + c` over the UTF-16 code units, in `int` arithmetic. */
  function HashCode(s: string): (h: int)
    ensures InRange32(h)
  {
    HashUnits(Utf16(s))
  }

  /** The polynomial the hash code is documented as: the sum of u[i] * 31^(n-1-i), exactly. */
  function HashPolynomial(u: seq<int>): int
  {
    if u == [] then 0 else 31 * HashPolynomial(u[..|u| - 1]) + u[|u| - 1]
  }

  lemma {:induction false} HashUnitsIsWrappedPolynomial(u: seq<int>)
    ensures HashUnits(u) == Wrap32(HashPolynomial(u))
  {
    if u != [] {
      var p := u[..|u| - 1];
      HashUnitsIsWrappedPolynomial(p);
      Wrap32MulAdd(HashPolynomial(p), 31, u[|u| - 1]);
    }
  }

  /** The hash code is the polynomial over the text's UTF-16 units, wrapped to 32 bits. */
  lemma HashCodeIsWrappedPolynomial(s: string)
    ensures HashCode(s) == Wrap32(HashPolynomial(Utf16(s)))
  {
    HashUnitsIsWrappedPolynomial(Utf16(s));
  }

  /** A text of characters up to U+FFFF is one code unit per character. */
  lemma {:induction false} Utf16OfBasicText(s: string)
    requires forall k :: 0 <= k < |s| ==> s[k] as int < 0x1_0000
    ensures |Utf16(s)| == |s| && forall k :: 0 <= k < |s| ==> Utf16(s)[k] == s[k] as int
  {
    if s != [] {
      Utf16OfBasicText(s[..|s| - 1]);
    }
  }

  /** U+1F600 is the surrogate pair D83D DE00, so it enters the hash as two units. */
  lemma Utf16OfSupplementary()
    ensures Utf16("\U{1F600}") == [0xD83D, 0xDE00]
    ensures HashCode("\U{1F600}") == 31 * 0xD83D + 0xDE00
  {
    var s := "\U{1F600}";
    assert s[..0] == [];
    assert Utf16(s) == Units(s[0]);
    assert HashUnits([0xD83D, 0xDE00][..1]) == 0xD83D;
  }

  /** `Math.abs(int)`: MIN_VALUE has no positive counterpart and is returned unchanged. */
  function Abs32(x: int): (r: int)
    requires InRange32(x)
    ensures InRange32(r)
    ensures x == MIN32 ==> r == MIN32
    ensures x != MIN32 ==> r >= 0 && (r == x || r == -x)
  {
    if x == MIN32 then MIN32 else if x < 0 then -x else x
  }

  const ID_PREFIX: string := "img_"

  /** `generateId()`: "img_", the current time in milliseconds, "_", the absolute path hash. */
  function GenerateId(filePath: string, millis: nat): (r: string)
    ensures StartsWith(r, ID_PREFIX)
  {
    ID_PREFIX + NatToString(millis) + "_" + IntToString(Abs32(HashCode(filePath)))
  }

  /** What follows the prefix: the time, an underscore, the hash. */
  lemma IdAfterPrefix(p: string, m: nat)
    ensures GenerateId(p, m)[|ID_PREFIX|..] == NatToString(m) + ['_'] + IntToString(Abs32(HashCode(p)))
  {
    var rest := NatToString(m) + ['_'] + IntToString(Abs32(HashCode(p)));
    assert GenerateId(p, m) == ID_PREFIX + rest;
    assert (ID_PREFIX + rest)[|ID_PREFIX|..] == rest;
  }

  /** Two ids that agree were made at the same millisecond from paths with the same hash. */
  lemma GenerateIdDeterminesParts(p: string, m: nat, q: string, n: nat)
    requires GenerateId(p, m) == GenerateId(q, n)
    ensures m == n && Abs32(HashCode(p)) == Abs32(HashCode(q))
  {
    IdAfterPrefix(p, m);
    IdAfterPrefix(q, n);
    var a, c := NatToString(m), NatToString(n);
    assert '_' !in a && '_' !in c by {
      assert forall k :: 0 <= k < |a| ==> IsDigit(a[k]);
      assert forall k :: 0 <= k < |c| ==> IsDigit(c[k]);
    }
    SplitAtFirst(a, IntToString(Abs32(HashCode(p))), c, IntToString(Abs32(HashCode(q))), '_');
    NatToStringInjective(m, n);
    IntToStringInjective(Abs32(HashCode(p)), Abs32(HashCode(q)));
  }

  // ---- getFormattedFileSize -------------------------------------------------------------------

  const KB: int := 1024
  const MB: int := 1024 * 1024

  /**
   * `%.1f` of the positive quotient n / d, as a count of tenths: the nearest tenth, halves rounded
   * up (the formatter's HALF_UP on the exact value).
   */
  function Tenths(n: nat, d: nat): (t: nat)
    requires d > 0
    ensures 2 * d * t <= 20 * n + d < 2 * d * t + 2 * d
  {
    var t := (20 * n + d) / (2 * d);
    assert (20 * n + d) == t * (2 * d) + (20 * n + d) % (2 * d);
    t
  }

  /** A count of tenths printed with one decimal place. */
  function TenthsText(t: nat): (r: string)
    ensures |r| >= 3 && r[|r| - 2] == '.'
    ensures IsDigit(r[0]) && IsDigit(r[|r| - 1])
  {
    NatToString(t / 10) + "." + [DigitChar(t % 10)]
  }

  /** `getFormattedFileSize()`: bytes below 1 KiB, KiB below 1 MiB, MiB above. */
  function FileSizeText(size: int): (r: string)
    ensures size < KB ==> r == IntToString(size) + " B"
    ensures KB <= size < MB ==> r == TenthsText(Tenths(size, KB)) + " KB"
    ensures MB <= size ==> r == TenthsText(Tenths(size, MB)) + " MB"
  {
    if size < KB then IntToString(size) + " B"
    else if size < MB then TenthsText(Tenths(size, KB)) + " KB"
    else TenthsText(Tenths(size, MB)) + " MB"
  }

  /** The unit at the end of the text tells exactly which range the size is in. */
  lemma FileSizeUnit(size: int)
    ensures EndsWith(FileSizeText(size), " B") <==> size < KB
    ensures EndsWith(FileSizeText(size), " KB") <==> KB <= size < MB
    ensures EndsWith(FileSizeText(size), " MB") <==> MB <= size
  {
    var r := FileSizeText(size);
    if size < KB {
      var n := IntToString(size);
      assert r[|r| - 2..] == " B";
      assert r[|r| - 3] == n[|n| - 1];
    } else {
      assert r[|r| - 3..] == (if size < MB then " KB" else " MB");
      assert r[|r| - 2..][0] != ' ';
    }
  }

  /** The KB figure lies in 1.0 .. 1024.0: just under one MiB is printed as "1024.0 KB". */
  lemma KiloFigureBounds(size: int)
    requires KB <= size < MB
    ensures 10 <= Tenths(size, KB) <= 10240
    ensures size == MB - 1 ==> Tenths(size, KB) == 10240
  {
  }

  /** The MB figure is at least 1.0 and within half a tenth of size / 2^20. */
  lemma MegaFigureBounds(size: int)
    requires MB <= size
    ensures 10 <= Tenths(size, MB)
    ensures (Tenths(size, MB) as real - 0.5) / 10.0 <= size as real / MB as real
    ensures size as real / MB as real < (Tenths(size, MB) as real + 0.5) / 10.0
  {
  }

  // ---- getDimensions --------------------------------------------------------------------------

  const TIMES_SEPARATOR: string := " × "

  /** `getDimensions()`: width, " × ", height. */
  function DimensionsText(width: int, height: int): (r: string)
    ensures StartsWith(r, IntToString(width)) && EndsWith(r, IntToString(height))
  {
    IntToString(width) + TIMES_SEPARATOR + IntToString(height)
  }

  /** The text determines both dimensions. */
  lemma DimensionsInjective(w1: int, h1: int, w2: int, h2: int)
    requires DimensionsText(w1, h1) == DimensionsText(w2, h2)
    ensures w1 == w2 && h1 == h2
  {
    var a, b := IntToString(w1), IntToString(h1);
    var c, d := IntToString(w2), IntToString(h2);
    assert a + TIMES_SEPARATOR + b == a + [' '] + ("×" + " " + b);
    assert c + TIMES_SEPARATOR + d == c + [' '] + ("×" + " " + d);
    assert ' ' !in a && ' ' !in c by {
      assert forall k :: 0 <= k < |a| ==> IsDigit(a[k]) || a[k] == '-';
      assert forall k :: 0 <= k < |c| ==> IsDigit(c[k]) || c[k] == '-';
    }
    SplitAtFirst(a, "×" + " " + b, c, "×" + " " + d, ' ');
    assert b == ("×" + " " + b)[2..] && d == ("×" + " " + d)[2..];
    IntToStringInjective(w1, w2);
    IntToStringInjective(h1, h2);
  }

  // ---- the object -----------------------------------------------------------------------------

  class ImageInfo {
    var id: Option<string>
    var fileName: Option<string>
    var filePath: Option<string>
    var thumbnailPath: Option<string>
    var fileSize: int
    var width: Int32
    var height: Int32
    var format: Option<string>
    var hasAlphaChannel: bool
    var importTime: int

    /** A blank record stamped with the import time. */
    constructor (now: int)
      ensures id == None && fileName == None && filePath == None && thumbnailPath == None
      ensures fileSize == 0 && width == 0 && height == 0 && format == None && !hasAlphaChannel
      ensures importTime == now
    {
      id, fileName, filePath, thumbnailPath := None, None, None, None;
      fileSize, width, height, format, hasAlphaChannel := 0, 0, 0, None, false;
      importTime := now;
    }

    /** The two-argument constructor: names the file and derives its id from the time and the path. */
    constructor ForFile(name: Option<string>, path: string, now: int, millis: nat)
      ensures fileName == name && filePath == Some(path) && importTime == now
      ensures id == Some(GenerateId(path, millis)) && StartsWith(id.value, ID_PREFIX)
      ensures thumbnailPath == None && fileSize == 0 && width == 0 && height == 0
      ensures format == None && !hasAlphaChannel
    {
      fileName, filePath, thumbnailPath := name, Some(path), None;
      fileSize, width, height, format, hasAlphaChannel := 0, 0, 0, None, false;
      importTime := now;
      id := Some(GenerateId(path, millis));
    }

    function FormattedFileSize(): string
      reads this
    {
      FileSizeText(fileSize)
    }

    function Dimensions(): string
      reads this
    {
      DimensionsText(width, height)
    }
  }
}
