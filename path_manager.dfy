/**
 * `PathManager`: where the application keeps its data (chosen once from the operating system's name,
 * the user's home and %APPDATA%), file-name extensions, the supported formats, thumbnail paths and the
 * guards of the path checks. The system properties, the environment and the file system are parameters.
 */
module PathManager {
  import opened Wrappers
  import opened Strs

  const APP_NAME: string := "WatermarkApp"

  /** `os.name` lower-cased mentions "win": Windows. */
  predicate IsWindowsName(osName: string)
  {
    Contains(ToLower(osName), "win")
  }

  /** Otherwise a name that mentions "mac": macOS. */
  predicate IsMacName(osName: string)
  {
    Contains(ToLower(osName), "mac")
  }

  /** `sep` joined between two path parts, as `a + File.separator + b`. */
  function Join(a: string, sep: char, b: string): (r: string)
    ensures StartsWith(r, a) && EndsWith(r, b) && |r| == |a| + 1 + |b| && r[|a|] == sep
  {
    a + [sep] + b
  }

  /**
   * The application data directory: %APPDATA%\WatermarkApp on Windows (or the roaming profile under the
   * home when APPDATA is not set), ~/Library/Application Support/WatermarkApp on macOS, ~/.watermarkapp
   * elsewhere.
   */
  function AppDataDir(osName: string, userHome: string, appData: Option<string>, sep: char): (r: string)
    ensures IsWindowsName(osName) && appData.Some? ==> r == Join(appData.value, sep, APP_NAME)
    ensures IsWindowsName(osName) && appData.None? ==>
      r == Join(Join(Join(userHome, sep, "AppData"), sep, "Roaming"), sep, APP_NAME)
    ensures !IsWindowsName(osName) && IsMacName(osName) ==>
      r == Join(Join(Join(userHome, sep, "Library"), sep, "Application Support"), sep, APP_NAME)
    ensures !IsWindowsName(osName) && !IsMacName(osName) ==> r == Join(userHome, sep, ".watermarkapp")
    ensures !IsWindowsName(osName) || appData.None? ==> StartsWith(r, userHome + [sep])
  {
    if IsWindowsName(osName) then
      if appData.Some? then Join(appData.value, sep, APP_NAME)
      else
        var r := Join(Join(Join(userHome, sep, "AppData"), sep, "Roaming"), sep, APP_NAME);
        assert r[..|userHome| + 1] == userHome + [sep];
        r
    else if IsMacName(osName) then
      var r := Join(Join(Join(userHome, sep, "Library"), sep, "Application Support"), sep, APP_NAME);
      assert r[..|userHome| + 1] == userHome + [sep];
      r
    else
      var r := Join(userHome, sep, ".watermarkapp");
      assert r[..|userHome| + 1] == userHome + [sep];
      r
  }

  /** The four locations under the data directory. */
  datatype Locations = Locations(appData: string, thumbnails: string, temp: string, logs: string, database: string)

  /** The static initialiser: the data directory and what lives under it. */
  function AppLocations(osName: string, userHome: string, appData: Option<string>, sep: char): (l: Locations)
    ensures l.appData == AppDataDir(osName, userHome, appData, sep)
  {
    var dir := AppDataDir(osName, userHome, appData, sep);
    Locations(dir, Join(dir, sep, "thumbnails"), Join(dir, sep, "temp"), Join(dir, sep, "logs"),
              Join(dir, sep, "watermark_app.db"))
  }

  /** Thumbnails, temporary files, logs and the database all live directly under the data directory, apart. */
  lemma LocationsUnderAppData(osName: string, userHome: string, appData: Option<string>, sep: char)
    ensures var l := AppLocations(osName, userHome, appData, sep);
      var d := l.appData + [sep];
      StartsWith(l.thumbnails, d) && StartsWith(l.temp, d) && StartsWith(l.logs, d) && StartsWith(l.database, d) &&
      l.thumbnails[|d|..] == "thumbnails" && l.temp[|d|..] == "temp" && l.logs[|d|..] == "logs" &&
      l.database[|d|..] == "watermark_app.db"
  {
    var l := AppLocations(osName, userHome, appData, sep);
    var d := l.appData + [sep];
    assert l.thumbnails == d + "thumbnails" && l.temp == d + "temp";
    assert l.logs == d + "logs" && l.database == d + "watermark_app.db";
  }

  // ---- file names ---------------------------------------------------------------------------------

  /** A path separator: the platform's, and '/' which every platform accepts. */
  predicate IsSeparator(c: char, sep: char)
  {
    c == sep || c == '/'
  }

  /** `getFileName()` of a path: the text after its last separator. */
  function FileName(path: string, sep: char): (r: string)
    ensures |r| <= |path| && r == path[|path| - |r|..]
    ensures forall i :: 0 <= i < |r| ==> !IsSeparator(r[i], sep)
    ensures |r| < |path| ==> IsSeparator(path[|path| - |r| - 1], sep)
  {
    if path == [] || IsSeparator(path[|path| - 1], sep) then []
    else FileName(path[..|path| - 1], sep) + [path[|path| - 1]]
  }

  /** The file name of `a + [sep] + n`, for a separator-free `n`, is `n`. */
  lemma {:induction false} FileNameAfterSeparator(a: string, sep: char, n: string)
    requires sep !in n && '/' !in n
    ensures FileName(a + [sep] + n, sep) == n
  {
    var s := a + [sep] + n;
    if n == [] {
      assert s[|s| - 1] == sep;
    } else {
      var m := n[..|n| - 1];
      assert n == m + [n[|n| - 1]];
      FileNameAfterSeparator(a, sep, m);
      assert s[..|s| - 1] == a + [sep] + m;
    }
  }

  /** `getFileExtension`: the lower-cased text after the last '.', or "" for null or a name without '.'. */
  function GetFileExtension(fileName: Option<string>): (r: string)
    ensures fileName.None? || '.' !in fileName.value ==> r == ""
    ensures fileName.Some? && '.' in fileName.value ==>
      var s := fileName.value;
      var k := |s| - |r|;
      1 <= k && s[k - 1] == '.' && r == ToLower(s[k..])
    ensures '.' !in r && ToLower(r) == r
  {
    if fileName.None? then ""
    else
      var s := fileName.value;
      var dot := LastIndexOf(s, '.');
      if dot == -1 then ""
      else
        LowerOfDotFree(s[dot + 1..]);
        ToLower(s[dot + 1..])
  }

  /** Lower-casing a text without '.' gives a text without '.' that lower-casing leaves alone. */
  lemma LowerOfDotFree(t: string)
    requires '.' !in t
    ensures '.' !in ToLower(t) && ToLower(ToLower(t)) == ToLower(t)
  {
    var r := ToLower(t);
    forall i | 0 <= i < |r|
      ensures r[i] != '.' && LowerChar(r[i]) == r[i]
    {
      assert t[i] in t;
    }
    assert ToLower(r) == r;
  }

  /** In `a + [x] + e` with `x` not in `e`, the last `x` is the one after `a`. */
  lemma {:induction false} LastIndexBeforeFree(a: string, e: string, x: char)
    requires x !in e
    ensures LastIndexOf(a + [x] + e, x) == |a|
  {
    var s := a + [x] + e;
    if e != [] {
      var f := e[..|e| - 1];
      assert x !in f by {
        assert forall i :: 0 <= i < |f| ==> f[i] == e[i];
      }
      LastIndexBeforeFree(a, f, x);
      assert s[..|s| - 1] == a + [x] + f;
      assert s[|s| - 1] == e[|e| - 1] != x;
    }
  }

  /** A prefix before a text holding `x` moves its last `x` by the prefix's length. */
  lemma {:induction false} LastIndexAfterPrefix(a: string, n: string, x: char)
    requires x in n
    ensures LastIndexOf(a + n, x) == |a| + LastIndexOf(n, x)
  {
    var s := a + n;
    if n[|n| - 1] != x {
      var m := n[..|n| - 1];
      assert n == m + [n[|n| - 1]];
      assert x in m;
      LastIndexAfterPrefix(a, m, x);
      assert s[..|s| - 1] == a + m;
    }
  }

  /** Only the text after the last '.' matters: a prefix does not change the extension of a name with a '.'. */
  lemma ExtensionOfSuffix(a: string, n: string)
    requires '.' in n
    ensures GetFileExtension(Some(a + n)) == GetFileExtension(Some(n))
  {
    LastIndexAfterPrefix(a, n, '.');
    var k := LastIndexOf(n, '.');
    ExtensionAt(a + n, |a| + k);
    ExtensionAt(n, k);
    assert (a + n)[|a| + k + 1..] == n[k + 1..];
  }

  /** The extension is the lower-cased text after the last '.', wherever that is. */
  lemma ExtensionAt(s: string, k: int)
    requires 0 <= k && LastIndexOf(s, '.') == k
    ensures GetFileExtension(Some(s)) == ToLower(s[k + 1..])
  {
  }

  /** The extension of a name ending in "." and a dot-free tail is that tail, lower-cased. */
  lemma ExtensionOf(a: string, e: string)
    requires '.' !in e
    ensures GetFileExtension(Some(a + "." + e)) == ToLower(e)
  {
    LastIndexBeforeFree(a, e, '.');
    assert (a + "." + e)[|a| + 1..] == e;
  }

  /** "a." has the empty extension. */
  lemma ExtensionOfTrailingDot()
    ensures GetFileExtension(Some("a.")) == ""
  {
    ExtensionOf("a", "");
    assert "a." == "a" + "." + "";
  }

  /** ".PNG" has the extension "png": a leading '.' still starts an extension, and case is dropped. */
  lemma ExtensionOfDotFile()
    ensures GetFileExtension(Some(".PNG")) == "png"
  {
    var e := "PNG";
    assert '.' !in e by {
      assert e[0] == 'P' && e[1] == 'N' && e[2] == 'G';
    }
    ExtensionOf("", e);
    assert "" + "." + e == ".PNG";
    LowerPng(e);
  }

  lemma LowerPng(e: string)
    requires e == "PNG"
    ensures ToLower(e) == "png"
  {
    var l := ToLower(e);
    assert LowerChar('P') == 'p' && LowerChar('N') == 'n' && LowerChar('G') == 'g';
    assert |l| == 3 && l[0] == 'p' && l[1] == 'n' && l[2] == 'g';
  }

  const SUPPORTED_EXTENSIONS: set<string> := {"jpg", "jpeg", "png", "bmp", "tiff", "tif"}

  /** `isSupportedImageFormat`. */
  function IsSupportedImageFormat(fileName: Option<string>): (b: bool)
    ensures b <==> GetFileExtension(fileName) in SUPPORTED_EXTENSIONS
  {
    var ext := GetFileExtension(fileName);
    ext == "jpg" || ext == "jpeg" || ext == "png" || ext == "bmp" || ext == "tiff" || ext == "tif"
  }

  /**
   * The check ignores case: whether "name.ext" is supported depends only on the lower-cased `ext`;
   * so "x.JPG" is supported and "x.gif" / "x.GIF" never are.
   */
  lemma SupportedIgnoresCase(a: string, e: string)
    requires '.' !in e
    ensures IsSupportedImageFormat(Some(a + "." + e)) <==> ToLower(e) in SUPPORTED_EXTENSIONS
    ensures ToLower(e) == "gif" ==> !IsSupportedImageFormat(Some(a + "." + e))
  {
    ExtensionOf(a, e);
  }

  // ---- thumbnails ---------------------------------------------------------------------------------

  /**
   * `generateThumbnailPath`: the thumbnails directory, "thumb_", the file name up to its last '.', and
   * ".jpg". A file name without '.' makes `substring(0, -1)` throw.
   */
  function GenerateThumbnailPath(originalFilePath: string, thumbnailsDir: string, sep: char): (r: Result<string, string>)
    ensures var n := FileName(originalFilePath, sep); r.Failure? <==> '.' !in n
    ensures r.Success? ==>
      var n := FileName(originalFilePath, sep);
      r.value == thumbnailsDir + [sep] + "thumb_" + n[..LastIndexOf(n, '.')] + ".jpg"
  {
    var n := FileName(originalFilePath, sep);
    var dot := LastIndexOf(n, '.');
    if dot == -1 then Failure("StringIndexOutOfBoundsException")
    else Success(thumbnailsDir + [sep] + "thumb_" + n[..dot] + ".jpg")
  }

  /** Any name ending in ".jpg" has the extension "jpg". */
  lemma JpegName(a: string)
    ensures GetFileExtension(Some(a + ".jpg")) == "jpg" && IsSupportedImageFormat(Some(a + ".jpg"))
  {
    ExtensionOf(a, "jpg");
    assert a + "." + "jpg" == a + ".jpg";
    assert ToLower("jpg") == "jpg";
  }

  /** A thumbnail path names a JPEG: its extension is "jpg", a supported format. */
  lemma ThumbnailIsJpeg(originalFilePath: string, thumbnailsDir: string, sep: char)
    requires GenerateThumbnailPath(originalFilePath, thumbnailsDir, sep).Success?
    ensures var t := GenerateThumbnailPath(originalFilePath, thumbnailsDir, sep).value;
      GetFileExtension(Some(t)) == "jpg" && IsSupportedImageFormat(Some(t))
  {
    var n := FileName(originalFilePath, sep);
    JpegName(thumbnailsDir + [sep] + "thumb_" + n[..LastIndexOf(n, '.')]);
  }

  // ---- the guards of the path checks --------------------------------------------------------------

  /**
   * `isValidFilePath`: false for null or blank text before the file system is asked; `isRegularFile`
   * stands for `Files.exists(p) && Files.isRegularFile(p)` (false when the path does not parse).
   */
  function IsValidFilePath(filePath: Option<string>, isRegularFile: string -> bool): (b: bool)
    ensures b <==> filePath.Some? && !IsBlank(filePath.value) && isRegularFile(filePath.value)
  {
    if filePath.None? || IsBlank(filePath.value) then false else isRegularFile(filePath.value)
  }

  /** `isValidDirectoryPath`: the same guards; `isDirectory` stands for exists-and-is-a-directory. */
  function IsValidDirectoryPath(dirPath: Option<string>, isDirectory: string -> bool): (b: bool)
    ensures b <==> dirPath.Some? && !IsBlank(dirPath.value) && isDirectory(dirPath.value)
  {
    if dirPath.None? || IsBlank(dirPath.value) then false else isDirectory(dirPath.value)
  }
}
