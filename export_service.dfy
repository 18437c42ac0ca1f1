/**
 * `ExportService`: the export settings object, their reading from the request text, the exported
 * file's name and path, the renaming that avoids overwriting an existing file, and the settings check.
 * The file system's existing paths are a set; `user.home` and the separator are parameters.
 */
module ExportService {
  import opened Wrappers
  import opened JavaInt
  import opened Strs
  import opened PathManager

  // ---- ExportConfig -------------------------------------------------------------------------------

  datatype ExportView = ExportView(
    outputDirectory: Option<string>,
    fileNamePattern: Option<string>,
    customPrefix: Option<string>,
    customSuffix: Option<string>,
    outputFormat: Option<string>,
    jpegQuality: int,
    preventOverwrite: bool)

  /** The field initialisers: no directory, the original name and format, quality 90, no overwriting. */
  const DEFAULT_EXPORT: ExportView :=
    ExportView(None, Some("original"), Some("wm_"), Some("_watermarked"), Some("original"), 90, true)

  /** What the quality setter guarantees. */
  predicate ExportValid(v: ExportView)
  {
    1 <= v.jpegQuality <= 100
  }

  class ExportConfig {
    var outputDirectory: Option<string>
    var fileNamePattern: Option<string>
    var customPrefix: Option<string>
    var customSuffix: Option<string>
    var outputFormat: Option<string>
    var jpegQuality: int
    var preventOverwrite: bool

    function View(): ExportView
      reads this
    {
      ExportView(outputDirectory, fileNamePattern, customPrefix, customSuffix, outputFormat, jpegQuality,
                 preventOverwrite)
    }

    predicate Valid()
      reads this
    {
      ExportValid(View())
    }

    constructor ()
      ensures Valid() && View() == DEFAULT_EXPORT
    {
      outputDirectory, fileNamePattern, customPrefix, customSuffix := None, Some("original"), Some("wm_"), Some("_watermarked");
      outputFormat, jpegQuality, preventOverwrite := Some("original"), 90, true;
    }

    method SetOutputDirectory(d: Option<string>)
      requires Valid()
      modifies this
      ensures Valid() && View() == old(View()).(outputDirectory := d)
    {
      outputDirectory := d;
    }

    method SetFileNamePattern(p: Option<string>)
      requires Valid()
      modifies this
      ensures Valid() && View() == old(View()).(fileNamePattern := p)
    {
      fileNamePattern := p;
    }

    method SetCustomPrefix(p: Option<string>)
      requires Valid()
      modifies this
      ensures Valid() && View() == old(View()).(customPrefix := p)
    {
      customPrefix := p;
    }

    method SetCustomSuffix(s: Option<string>)
      requires Valid()
      modifies this
      ensures Valid() && View() == old(View()).(customSuffix := s)
    {
      customSuffix := s;
    }

    method SetOutputFormat(f: Option<string>)
      requires Valid()
      modifies this
      ensures Valid() && View() == old(View()).(outputFormat := f)
    {
      outputFormat := f;
    }

    /** `setJpegQuality` clamps to [1, 100]. */
    method SetJpegQuality(q: Int32)
      requires Valid()
      modifies this
      ensures Valid() && View() == old(View()).(jpegQuality := ClampInt(1, 100, q))
      ensures 1 <= q <= 100 ==> jpegQuality == q
    {
      jpegQuality := ClampInt(1, 100, q);
    }

    method SetPreventOverwrite(b: bool)
      requires Valid()
      modifies this
      ensures Valid() && View() == old(View()).(preventOverwrite := b)
    {
      preventOverwrite := b;
    }
  }

  // ---- extractJsonValue / parseExportConfig -------------------------------------------------------

  /** A single '"' at `k`. */
  lemma QuoteAt(s: string, k: nat)
    requires k < |s|
    ensures OccursAt(s, "\"", k) <==> s[k] == '"'
  {
    assert s[k..k + 1] == [s[k]];
  }

  /** No '"' occurs in a stretch `indexOf("\"")` has skipped. */
  lemma QuoteFree(s: string, from: nat, to: nat)
    requires from <= to <= |s|
    requires forall j :: from <= j < to ==> !OccursAt(s, "\"", j)
    ensures '"' !in s[from..to]
  {
    forall j | from <= j < to
      ensures s[j] != '"'
    {
      QuoteAt(s, j);
    }
  }

  /**
   * `extractJsonValue`: the text between the first two '"' after the first `"key":`; null when the key
   * or either quote is missing. The value never holds a '"', so an escaped quote ends it.
   */
  function ExtractJsonValue(json: string, key: string): (r: Option<string>)
    ensures r.Some? ==> '"' !in r.value
  {
    var searchKey := "\"" + key + "\":";
    var start := IndexOf(json, searchKey);
    if start == -1 then None
    else
      var valueStart := IndexOfFrom(json, "\"", start + |searchKey|);
      if valueStart == -1 then None
      else
        var valueEnd := IndexOfFrom(json, "\"", valueStart + 1);
        if valueEnd == -1 then None
        else
          QuoteFree(json, valueStart + 1, valueEnd);
          Some(json[valueStart + 1..valueEnd])
  }

  /** The value written in `{"key":"value"}` is read back, for a key and a value without quotes. */
  lemma ExtractRoundTrip(key: string, v: string)
    requires '"' !in key && '"' !in v
    ensures ExtractJsonValue("{\"" + key + "\":\"" + v + "\"}", key) == Some(v)
  {
    var searchKey := "\"" + key + "\":";
    var json := "{" + searchKey + "\"" + v + "\"}";
    assert json == "{\"" + key + "\":\"" + v + "\"}";
    var n := |searchKey|;
    assert json[1..1 + n] == searchKey;
    assert !OccursAt(json, searchKey, 0) by { assert json[0] == '{' != '"' == searchKey[0]; }
    IndexOfFromAt(json, searchKey, 0, 1);
    QuoteAt(json, 1 + n);
    assert json[1 + n] == '"';
    IndexOfFromAt(json, "\"", 1 + n, 1 + n);
    var e := 2 + n + |v|;
    assert json[2 + n..e] == v;
    forall j | 2 + n <= j < e
      ensures !OccursAt(json, "\"", j)
    {
      QuoteAt(json, j);
      assert json[j] == v[j - (2 + n)];
    }
    QuoteAt(json, e);
    IndexOfFromAt(json, "\"", 2 + n, e);
  }

  /** Whenever a value is found, the text mentions the key, so the `contains` test before the call is implied. */
  lemma ExtractImpliesContains(json: string, key: string)
    ensures ExtractJsonValue(json, key).Some? ==> Contains(json, key)
  {
    if ExtractJsonValue(json, key).Some? {
      ContainsKeyOfExtract(json, key);
    }
  }

  lemma ContainsKeyOfExtract(json: string, key: string)
    requires ExtractJsonValue(json, key).Some?
    ensures Contains(json, key)
  {
    var start := IndexOf(json, "\"" + key + "\":");
    assert start != -1;
    KeyInsideSearchKey(json, key, start);
  }

  /** Where `"key":` occurs, `key` occurs one character later. */
  lemma KeyInsideSearchKey(json: string, key: string, start: int)
    requires OccursAt(json, "\"" + key + "\":", start)
    ensures Contains(json, key)
  {
    var searchKey := "\"" + key + "\":";
    var w := json[start..start + |searchKey|];
    assert w == searchKey && |searchKey| == |key| + 3;
    assert searchKey[1..1 + |key|] == key;
    forall i | 0 <= i < |key|
      ensures json[start + 1 + i] == key[i]
    {
      assert json[start + 1 + i] == w[1 + i] == searchKey[1 + i];
    }
    assert json[start + 1..start + 1 + |key|] == key;
    assert OccursAt(json, key, start + 1);
  }

  /** The directory the request names, else `user.home` (printed "null" when unset) + "WatermarkOutput". */
  function ParsedDirectory(configJson: Option<string>, userHome: Option<string>, sep: char): (d: string)
    ensures configJson.None? ==> d == JavaText(userHome) + [sep] + "WatermarkOutput"
    ensures configJson.Some? && ExtractJsonValue(configJson.value, "outputDirectory").Some? ==>
      d == ExtractJsonValue(configJson.value, "outputDirectory").value
    ensures configJson.Some? && ExtractJsonValue(configJson.value, "outputDirectory").None? ==>
      d == JavaText(userHome) + [sep] + "WatermarkOutput"
  {
    ExtractImpliesContains(configJson.GetOr(""), "outputDirectory");
    if configJson.Some? && Contains(configJson.value, "outputDirectory") &&
       ExtractJsonValue(configJson.value, "outputDirectory").Some?
    then
      ExtractJsonValue(configJson.value, "outputDirectory").value
    else
      JavaText(userHome) + [sep] + "WatermarkOutput"
  }

  /** A request `{"outputDirectory":"D"}` sets the directory to D. */
  lemma ParsedDirectoryOfRequest(v: string, userHome: Option<string>, sep: char)
    requires '"' !in v
    ensures ParsedDirectory(Some("{\"outputDirectory\":\"" + v + "\"}"), userHome, sep) == v
  {
    var json := "{\"outputDirectory\":\"" + v + "\"}";
    assert json == "{\"" + "outputDirectory" + "\":\"" + v + "\"}" by {
      assert "{\"outputDirectory\":\"" == "{\"" + "outputDirectory" + "\":\"";
    }
    ExtractRoundTrip("outputDirectory", v);
    assert ExtractJsonValue(json, "outputDirectory") == Some(v);
  }

  /** `parseExportConfig`: the defaults, with the output directory read from the text or defaulted. */
  method ParseExportConfig(configJson: Option<string>, userHome: Option<string>, sep: char) returns (c: ExportConfig)
    ensures fresh(c) && c.Valid()
    ensures c.View() == DEFAULT_EXPORT.(outputDirectory := Some(ParsedDirectory(configJson, userHome, sep)))
  {
    c := new ExportConfig();
    if configJson.Some? && Contains(configJson.value, "outputDirectory") {
      var dir := ExtractJsonValue(configJson.value, "outputDirectory");
      if dir.Some? {
        c.SetOutputDirectory(dir);
      }
    }
    if c.outputDirectory.None? {
      c.SetOutputDirectory(Some(JavaText(userHome) + [sep] + "WatermarkOutput"));
    }
  }

  // ---- generateOutputPath -------------------------------------------------------------------------

  /**
   * `changeFileExtension`: everything after the last '.' replaced by `newExt`, or "." + `newExt` appended
   * when there is no '.'.
   */
  function ChangeFileExtension(fileName: string, newExt: string): (r: string)
    ensures '.' !in newExt ==> GetFileExtension(Some(r)) == ToLower(newExt)
    ensures '.' in fileName ==> StartsWith(r, fileName[..LastIndexOf(fileName, '.') + 1])
    ensures '.' !in fileName ==> StartsWith(r, fileName + ".")
  {
    var lastDot := LastIndexOf(fileName, '.');
    var stem := if lastDot == -1 then fileName else fileName[..lastDot];
    var r := if lastDot == -1 then fileName + "." + newExt else fileName[..lastDot + 1] + newExt;
    assert r == stem + "." + newExt by {
      if lastDot != -1 { assert fileName[..lastDot + 1] == stem + "."; }
    }
    if '.' in newExt then r else ExtensionOf(stem, newExt); r
  }

  /** Changing to the same dot-free extension twice is changing it once. */
  lemma ChangeExtensionIdempotent(fileName: string, newExt: string)
    requires '.' !in newExt
    ensures ChangeFileExtension(ChangeFileExtension(fileName, newExt), newExt) == ChangeFileExtension(fileName, newExt)
  {
    var a := if '.' in fileName then fileName[..LastIndexOf(fileName, '.')] else fileName;
    ChangedName(fileName, newExt, a);
    ChangeOfChanged(a, newExt);
  }

  /** The changed name is the stem, '.', and the new extension. */
  lemma ChangedName(fileName: string, newExt: string, a: string)
    requires a == if '.' in fileName then fileName[..LastIndexOf(fileName, '.')] else fileName
    ensures ChangeFileExtension(fileName, newExt) == a + "." + newExt
  {
    if '.' in fileName {
      assert fileName[..LastIndexOf(fileName, '.') + 1] == a + ".";
    }
  }

  /** A name that already ends in '.' and a dot-free extension keeps it when changed to that extension. */
  lemma ChangeOfChanged(a: string, newExt: string)
    requires '.' !in newExt
    ensures ChangeFileExtension(a + "." + newExt, newExt) == a + "." + newExt
  {
    var r := a + "." + newExt;
    assert r == a + ['.'] + newExt;
    LastIndexBeforeFree(a, newExt, '.');
    assert r[..|a| + 1] == a + ".";
  }

  /** `Paths.get(dir, name).toString()`: the two joined by one separator; an empty directory adds nothing. */
  function PathsGet(dir: string, sep: char, name: string): (r: string)
    ensures EndsWith(r, name)
    ensures dir == [] ==> r == name
    ensures dir != [] && dir[|dir| - 1] != sep ==> r == dir + [sep] + name
  {
    if dir == [] then name
    else if dir[|dir| - 1] == sep then dir + name
    else dir + [sep] + name
  }

  /** A non-empty directory and a separator-free name give a path whose file name is that name. */
  lemma PathsGetFileName(dir: string, sep: char, name: string)
    requires dir != [] && sep !in name && '/' !in name
    ensures FileName(PathsGet(dir, sep, name), sep) == name
  {
    if dir[|dir| - 1] == sep {
      var d := dir[..|dir| - 1];
      assert dir == d + [sep];
      FileNameAfterSeparator(d, sep, name);
    } else {
      FileNameAfterSeparator(dir, sep, name);
    }
  }

  /**
   * The pattern switch: "prefix" puts the prefix before the name, "suffix" puts the suffix between the
   * name and its lower-cased extension, anything else keeps the name (null prefix and suffix print as
   * "null"). Each keeps what `getFileExtension` sees.
   */
  function PatternName(originalName: string, pattern: string, c: ExportView): (r: string)
    requires '.' in originalName
    ensures GetFileExtension(Some(r)) == GetFileExtension(Some(originalName))
    ensures pattern != "prefix" && pattern != "suffix" ==> r == originalName
  {
    var dot := LastIndexOf(originalName, '.');
    var originalExt := GetFileExtension(Some(originalName));
    if pattern == "prefix" then
      ExtensionOfSuffix(JavaText(c.customPrefix), originalName);
      JavaText(c.customPrefix) + originalName
    else if pattern == "suffix" then
      ExtensionOf(originalName[..dot] + JavaText(c.customSuffix), originalExt);
      originalName[..dot] + JavaText(c.customSuffix) + "." + originalExt
    else originalName
  }

  /**
   * What the pattern switch builds: "prefix" gives the prefix followed by the whole original name;
   * "suffix" gives the name up to its last '.', then the suffix, then '.' and the lower-cased extension.
   */
  lemma PatternNameParts(originalName: string, pattern: string, c: ExportView)
    requires '.' in originalName
    ensures var r, pre := PatternName(originalName, pattern, c), JavaText(c.customPrefix);
      pattern == "prefix" ==> |r| == |pre| + |originalName| && r[..|pre|] == pre && r[|pre|..] == originalName
    ensures var r, dot, suf := PatternName(originalName, pattern, c), LastIndexOf(originalName, '.'), JavaText(c.customSuffix);
      pattern == "suffix" ==>
        (0 <= dot && |r| == dot + |suf| + 1 + |GetFileExtension(Some(originalName))| &&
         r[..dot] == originalName[..dot] && r[dot..dot + |suf|] == suf &&
         r[dot + |suf|..] == "." + GetFileExtension(Some(originalName)))
  {
    var r := PatternName(originalName, pattern, c);
    var dot := LastIndexOf(originalName, '.');
    var ext := GetFileExtension(Some(originalName));
    if pattern == "prefix" {
      ThreeParts(JavaText(c.customPrefix), originalName, "", r);
    } else if pattern == "suffix" {
      ThreeParts(originalName[..dot], JavaText(c.customSuffix), "." + ext, r);
    }
  }

  /**
   * The exported file's name: the pattern switch and then the format switch ("jpg" and "png" rewrite
   * the extension). A name without '.' makes the `substring` throw, and a null pattern or format the
   * `switch`.
   */
  function ExportFileName(originalName: string, c: ExportView): (r: Result<string, string>)
    ensures r.Failure? <==> '.' !in originalName || c.fileNamePattern.None? || c.outputFormat.None?
    ensures r.Success? && c.outputFormat == Some("jpg") ==>
      r.value == ChangeFileExtension(PatternName(originalName, c.fileNamePattern.value, c), "jpg")
    ensures r.Success? && c.outputFormat == Some("png") ==>
      r.value == ChangeFileExtension(PatternName(originalName, c.fileNamePattern.value, c), "png")
    ensures r.Success? && c.outputFormat !in {Some("jpg"), Some("png")} ==>
      r.value == PatternName(originalName, c.fileNamePattern.value, c)
  {
    if '.' !in originalName then Failure("StringIndexOutOfBoundsException")
    else
      match c.fileNamePattern
      case None => Failure("NullPointerException")
      case Some(pattern) =>
        var named := PatternName(originalName, pattern, c);
        match c.outputFormat
        case None => Failure("NullPointerException")
        case Some(format) =>
          if format == "jpg" then Success(ChangeFileExtension(named, "jpg"))
          else if format == "png" then Success(ChangeFileExtension(named, "png"))
          else Success(named)
  }

  /** The two formats the export rewrites to are already lower case. */
  lemma LowerFormats()
    ensures ToLower("jpg") == "jpg" && ToLower("png") == "png"
  {
    assert ToLower("jpg") == "jpg" by { LowerOfLowerCase("jpg"); }
    assert ToLower("png") == "png" by { LowerOfLowerCase("png"); }
  }

  /** Changing to a lower-case, dot-free extension gives a name with exactly that extension. */
  lemma ChangeToLowerExtension(fileName: string, ext: string)
    requires '.' !in ext && ToLower(ext) == ext
    ensures GetFileExtension(Some(ChangeFileExtension(fileName, ext))) == ext
  {
  }

  /**
   * The exported name's extension is the requested format for "jpg" and "png", and otherwise the
   * original's extension (lower-cased, as the "suffix" pattern writes it).
   */
  lemma ExportFileNameExtension(originalName: string, c: ExportView)
    requires ExportFileName(originalName, c).Success?
    ensures var ext := GetFileExtension(Some(ExportFileName(originalName, c).value));
      (c.outputFormat == Some("jpg") ==> ext == "jpg") &&
      (c.outputFormat == Some("png") ==> ext == "png") &&
      (c.outputFormat !in {Some("jpg"), Some("png")} ==> ext == GetFileExtension(Some(originalName)))
  {
    var named := PatternName(originalName, c.fileNamePattern.value, c);
    if c.outputFormat == Some("jpg") {
      LowerFormats();
      ChangeToLowerExtension(named, "jpg");
    } else if c.outputFormat == Some("png") {
      LowerFormats();
      ChangeToLowerExtension(named, "png");
    }
  }

  /** `generateOutputPath`: the exported name inside the output directory; a null directory throws. */
  function GenerateOutputPath(originalName: string, c: ExportView, sep: char): (r: Result<string, string>)
    ensures r.Failure? <==> ExportFileName(originalName, c).Failure? || c.outputDirectory.None?
    ensures r.Success? ==> r.value == PathsGet(c.outputDirectory.value, sep, ExportFileName(originalName, c).value)
  {
    var name :- ExportFileName(originalName, c);
    match c.outputDirectory
    case None => Failure("NullPointerException")
    case Some(dir) => Success(PathsGet(dir, sep, name))
  }

  // ---- generateUniqueOutputPath -------------------------------------------------------------------

  /** `File.getParent()`: the path before its last separator, "/" for a file in the root, null for a bare name. */
  function ParentOf(path: string, sep: char): (r: Option<string>)
    ensures r.None? <==> |FileName(path, sep)| == |path|
  {
    var n := FileName(path, sep);
    if |n| == |path| then None
    else if |path| - |n| - 1 == 0 then Some(path[..1])
    else Some(path[..|path| - |n| - 1])
  }

  /** The `n`-th candidate: "name_(n).ext" in the parent directory. */
  function Candidate(parent: string, sep: char, name: string, ext: string, n: nat): string
  {
    PathsGet(parent, sep, name + "_(" + IntToString(n) + ")." + ext)
  }

  /**
   * The counter the `do`-`while` stops at, starting from `c`: the first whose candidate does not exist,
   * or 999, where the loop gives up.
   */
  function FirstFree(existing: set<string>, parent: string, sep: char, name: string, ext: string, c: nat): (k: nat)
    requires 1 <= c <= 999
    decreases 999 - c
    ensures c <= k <= 999
    ensures forall j :: c <= j < k ==> Candidate(parent, sep, name, ext, j) in existing
    ensures k < 999 ==> Candidate(parent, sep, name, ext, k) !in existing
  {
    if c == 999 || Candidate(parent, sep, name, ext, c) !in existing then c
    else FirstFree(existing, parent, sep, name, ext, c + 1)
  }

  /**
   * What `generateUniqueOutputPath` returns: the first free candidate, or the 999th even when it exists.
   * The extension is the lower-cased one. A file name without '.' makes the `substring` throw, and a
   * path without a parent makes `Paths.get` throw.
   */
  function UniquePath(originalPath: string, existing: set<string>, sep: char): (r: Result<string, string>)
    ensures r.Failure? <==> '.' !in FileName(originalPath, sep) || ParentOf(originalPath, sep).None?
  {
    var fileName := FileName(originalPath, sep);
    var dot := LastIndexOf(fileName, '.');
    if dot == -1 then Failure("StringIndexOutOfBoundsException")
    else match ParentOf(originalPath, sep)
      case None => Failure("NullPointerException")
      case Some(parent) =>
        var ext := GetFileExtension(Some(fileName));
        Success(Candidate(parent, sep, fileName[..dot], ext, FirstFree(existing, parent, sep, fileName[..dot], ext, 1)))
  }

  /** `generateUniqueOutputPath`: the `do`-`while` over the counter, at most 999 rounds. */
  method GenerateUniqueOutputPath(originalPath: string, existing: set<string>, sep: char) returns (r: Result<string, string>)
    ensures r == UniquePath(originalPath, existing, sep)
  {
    var parentDir := ParentOf(originalPath, sep);
    var fileName := FileName(originalPath, sep);
    var dot := LastIndexOf(fileName, '.');
    if dot == -1 {
      return Failure("StringIndexOutOfBoundsException");
    }
    var nameWithoutExt := fileName[..dot];
    var ext := GetFileExtension(Some(fileName));
    if parentDir.None? {
      return Failure("NullPointerException");
    }
    var parent := parentDir.value;
    var counter := 1;
    var uniquePath := Candidate(parent, sep, nameWithoutExt, ext, counter);
    counter := counter + 1;
    while uniquePath in existing && counter < 1000
      invariant 2 <= counter <= 1000
      invariant uniquePath == Candidate(parent, sep, nameWithoutExt, ext, counter - 1)
      invariant FirstFree(existing, parent, sep, nameWithoutExt, ext, 1) ==
                FirstFree(existing, parent, sep, nameWithoutExt, ext, counter - 1)
      decreases 1000 - counter
    {
      uniquePath := Candidate(parent, sep, nameWithoutExt, ext, counter);
      counter := counter + 1;
    }
    r := Success(uniquePath);
  }

  /** Different counters give different candidates. */
  lemma CandidateInjective(parent: string, sep: char, name: string, ext: string, i: nat, j: nat)
    ensures Candidate(parent, sep, name, ext, i) == Candidate(parent, sep, name, ext, j) ==> i == j
  {
    if Candidate(parent, sep, name, ext, i) == Candidate(parent, sep, name, ext, j) {
      SameCandidate(parent, sep, name, ext, i, j);
    }
  }

  lemma SameCandidate(parent: string, sep: char, name: string, ext: string, i: nat, j: nat)
    requires Candidate(parent, sep, name, ext, i) == Candidate(parent, sep, name, ext, j)
    ensures i == j
  {
    var x := name + "_(" + IntToString(i) + ")." + ext;
    var y := name + "_(" + IntToString(j) + ")." + ext;
    var p := PathsGet(parent, sep, x);
    assert x == p[|p| - |x|..];
    assert |x| == |y|;
    assert x == y;
    var head := name + "_(";
    var ti, tj := IntToString(i) + [')'] + ("." + ext), IntToString(j) + [')'] + ("." + ext);
    assert x == head + ti && y == head + tj;
    assert ti == tj by {
      assert (head + ti)[|head|..] == ti && (head + tj)[|head|..] == tj;
    }
    assert ')' !in IntToString(i) && ')' !in IntToString(j);
    SplitAtFirst(IntToString(i), "." + ext, IntToString(j), "." + ext, ')');
    IntToStringInjective(i, j);
  }

  /** The candidates for the counters 1 to `n` are `n` different paths. */
  lemma {:induction false} CandidateCount(parent: string, sep: char, name: string, ext: string, n: nat)
    ensures |set j: nat | 1 <= j <= n :: Candidate(parent, sep, name, ext, j)| == n
  {
    if n > 0 {
      CandidateCount(parent, sep, name, ext, n - 1);
      CandidatesGrow(parent, sep, name, ext, n);
    } else {
      var s := set j: nat | 1 <= j <= n :: Candidate(parent, sep, name, ext, j);
      assert s == {};
    }
  }

  /** The candidates up to `n` are those up to `n - 1` and one more, new, path. */
  lemma CandidatesGrow(parent: string, sep: char, name: string, ext: string, n: nat)
    requires n > 0
    ensures var c := Candidate(parent, sep, name, ext, n);
      var t := set j: nat | 1 <= j <= n - 1 :: Candidate(parent, sep, name, ext, j);
      (set j: nat | 1 <= j <= n :: Candidate(parent, sep, name, ext, j)) == t + {c} && c !in t
  {
    var c := Candidate(parent, sep, name, ext, n);
    var t := set j: nat | 1 <= j <= n - 1 :: Candidate(parent, sep, name, ext, j);
    var s := set j: nat | 1 <= j <= n :: Candidate(parent, sep, name, ext, j);
    assert s == t + {c};
    forall j: nat | 1 <= j <= n - 1
      ensures Candidate(parent, sep, name, ext, j) != c
    {
      CandidateInjective(parent, sep, name, ext, j, n);
    }
  }

  /**
   * With fewer than 999 existing files the chosen path is always free: the loop only returns an
   * existing path once all 999 candidates exist.
   */
  lemma UniquePathIsFree(originalPath: string, existing: set<string>, sep: char)
    requires UniquePath(originalPath, existing, sep).Success? && |existing| < 999
    ensures UniquePath(originalPath, existing, sep).value !in existing
  {
    var fileName := FileName(originalPath, sep);
    var dot := LastIndexOf(fileName, '.');
    var parent := ParentOf(originalPath, sep).value;
    var name := fileName[..dot];
    var ext := GetFileExtension(Some(fileName));
    var k := FirstFree(existing, parent, sep, name, ext, 1);
    if k == 999 {
      LastCandidateFree(existing, parent, sep, name, ext);
    }
  }

  /** When the first 998 candidates exist and fewer than 999 files do, the 999th candidate is free. */
  lemma LastCandidateFree(existing: set<string>, parent: string, sep: char, name: string, ext: string)
    requires |existing| < 999
    requires forall j :: 1 <= j < 999 ==> Candidate(parent, sep, name, ext, j) in existing
    ensures Candidate(parent, sep, name, ext, 999) !in existing
  {
    var c := Candidate(parent, sep, name, ext, 999);
    var t := set j: nat | 1 <= j <= 998 :: Candidate(parent, sep, name, ext, j);
    CandidateCount(parent, sep, name, ext, 998);
    CandidatesGrow(parent, sep, name, ext, 999);
    assert t <= existing;
    NoRoomForMore(existing, t, c);
  }

  /** `existing` holds the 998 paths of `t`, and has fewer than 999 elements, so it cannot also hold `c`, not in `t`. */
  lemma NoRoomForMore(existing: set<string>, t: set<string>, c: string)
    requires |existing| < 999 && |t| == 998 && t <= existing && c !in t
    ensures c !in existing
  {
    if c in existing {
      var u := t + {c};
      assert |u| == 999;
      assert u <= existing;
      SubsetSize(u, existing);
    }
  }

  lemma SubsetSize(u: set<string>, e: set<string>)
    requires u <= e
    ensures |u| <= |e|
  {
    assert e == u + (e - u);
  }

  /**
   * `processAndExportImage`'s choice of the output path: the directory must pass the directory check;
   * with overwrite protection on, an existing path is replaced by the unique one.
   */
  function ExportOutputPath(originalName: string, c: ExportView, existing: set<string>, sep: char,
                            isDirectory: string -> bool): (r: Result<string, string>)
    ensures !IsValidDirectoryPath(c.outputDirectory, isDirectory) ==> r.Failure?
    ensures r.Success? && !c.preventOverwrite ==> r == GenerateOutputPath(originalName, c, sep)
    ensures r.Success? && c.preventOverwrite && |existing| < 999 ==> r.value !in existing
  {
    if !IsValidDirectoryPath(c.outputDirectory, isDirectory) then Failure("IllegalArgumentException")
    else
      var p :- GenerateOutputPath(originalName, c, sep);
      if c.preventOverwrite && p in existing then
        var u := UniquePath(p, existing, sep);
        if u.Success? && |existing| < 999 then UniquePathIsFree(p, existing, sep); u
        else u
      else Success(p)
  }

  // ---- validateExportConfig -----------------------------------------------------------------------

  /** `validateExportConfig`: a configuration, a non-blank directory and a quality in [1, 100]. */
  function ValidateExportConfig(c: Option<ExportView>): (b: bool)
    ensures c.None? ==> !b
    ensures c.Some? && ExportValid(c.value) && c.value.outputDirectory.Some? ==>
      (b <==> !IsBlank(c.value.outputDirectory.value))
    ensures b ==> c.Some? && ExportValid(c.value)
    ensures b <==> (c.Some? && c.value.outputDirectory.Some? && !IsBlank(c.value.outputDirectory.value) &&
      1 <= c.value.jpegQuality <= 100)
  {
    match c
    case None => false
    case Some(v) =>
      if v.outputDirectory.None? || IsBlank(v.outputDirectory.value) then false
      else if v.jpegQuality < 1 || v.jpegQuality > 100 then false
      else true
  }

  /** The settings `parseExportConfig` makes with its default directory pass the check. */
  lemma DefaultDirectoryValidates(userHome: Option<string>, sep: char)
    ensures ValidateExportConfig(Some(DEFAULT_EXPORT.(outputDirectory := Some(ParsedDirectory(None, userHome, sep)))))
  {
    var d := JavaText(userHome) + [sep] + "WatermarkOutput";
    assert d[|d| - 1] == 't' && !Trimmable(d[|d| - 1]);
  }
}
