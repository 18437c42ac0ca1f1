/**
 * The frontend's `watermark` store: the current image and its preview URL, the watermark
 * configuration and its preview copy, and the current template. The reactive objects are maps from
 * property name to value, and `Object.assign` is map union with the source winning. The 10 ms
 * `setTimeout` that publishes a new preview URL is a queue of pending URLs that the event loop
 * delivers in order (`DeliverPreviewUrl`). localStorage is not modelled.
 */
module Store {
  import opened Wrappers
  import opened Strs
  import opened Json

  // ---- values -------------------------------------------------------------------------------------

  /** JavaScript truthiness of a JSON value: null, false, 0 and "" are falsy, objects and arrays are truthy. */
  predicate Truthy(v: JValue)
  {
    match v
    case JNull => false
    case JBool(b) => b
    case JNumber(n) => n != 0.0
    case JString(s) => s != []
    case _ => true
  }

  /** The characters `String.prototype.trim` removes: ECMAScript white space and line terminators. */
  predicate IsJsSpace(c: char)
  {
    c in {'\t', '\n', '\U{000B}', '\U{000C}', '\r', ' ', '\U{00A0}', '\U{1680}', '\U{2028}', '\U{2029}', '\U{202F}',
          '\U{205F}', '\U{3000}', '\U{FEFF}'} || '\U{2000}' <= c <= '\U{200A}'
  }

  /** `s.trim().length > 0`: some character is not white space. */
  predicate HasText(s: string)
  {
    exists i :: 0 <= i < |s| && !IsJsSpace(s[i])
  }

  /** `Object.assign(target, source)` on plain objects: every property of `source` is copied over. */
  function Assign(target: JObj, source: JObj): (r: JObj)
    ensures r.Keys == target.Keys + source.Keys
    ensures forall k :: k in source ==> r[k] == source[k]
    ensures forall k :: k in target && k !in source ==> r[k] == target[k]
  {
    target + source
  }

  /** Assigning the same properties twice is assigning them once. */
  lemma AssignIdempotent(target: JObj, source: JObj)
    ensures Assign(Assign(target, source), source) == Assign(target, source)
  {
  }

  /** Two assignments in a row are one assignment of their combination, the later one winning. */
  lemma AssignTwice(target: JObj, a: JObj, b: JObj)
    ensures Assign(Assign(target, a), b) == Assign(target, Assign(a, b))
  {
  }

  // ---- toFileUrl ----------------------------------------------------------------------------------

  predicate IsAsciiLetter(c: char)
  {
    'A' <= c <= 'Z' || 'a' <= c <= 'z'
  }

  /** `replace(/^([A-Za-z]):/, '/$1:')`: a drive letter gets a '/' in front. */
  function MarkDrive(s: string): (r: string)
  {
    if |s| >= 2 && IsAsciiLetter(s[0]) && s[1] == ':' then "/" + s else s
  }

  /** `replace(/^\/+/, '')`: every leading '/' removed. */
  function StripLeadingSlashes(s: string): (r: string)
    ensures |r| <= |s| && r == s[|s| - |r|..]
    ensures forall i :: 0 <= i < |s| - |r| ==> s[i] == '/'
    ensures r == [] || r[0] != '/'
  {
    if s != [] && s[0] == '/' then StripLeadingSlashes(s[1..]) else s
  }

  /**
   * `toFileUrl`: '' for a non-string or empty value, a value already starting with "file://" as it is,
   * otherwise "file:///" and the path with '\' turned into '/' and its leading slashes removed.
   */
  function ToFileUrl(p: JValue): (r: string)
    ensures !p.JString? || p.s == [] ==> r == ""
    ensures p.JString? && StartsWith(p.s, "file://") ==> r == p.s
    ensures p.JString? && p.s != [] ==> StartsWith(r, "file://")
    ensures p.JString? && p.s != [] && !StartsWith(p.s, "file://") ==>
      StartsWith(r, "file:///") && r[8..] == StripLeadingSlashes(ReplaceChar(p.s, '\\', '/')) && '\\' !in r
  {
    if !p.JString? || p.s == [] then ""
    else if StartsWith(p.s, "file://") then p.s
    else
      var n := ReplaceChar(p.s, '\\', '/');
      var rest := StripLeadingSlashes(MarkDrive(n));
      MarkDriveInvisible(n);
      StripKeepsAbsent(n, '\\');
      UrlPrefix(rest);
      "file:///" + rest
  }

  /** The '/' put before a drive letter is removed again with the other leading slashes. */
  lemma MarkDriveInvisible(n: string)
    ensures StripLeadingSlashes(MarkDrive(n)) == StripLeadingSlashes(n)
  {
    if MarkDrive(n) != n {
      assert MarkDrive(n)[1..] == n;
    }
  }

  /** Removing leading slashes brings in no character. */
  lemma StripKeepsAbsent(n: string, c: char)
    ensures c !in n ==> c !in StripLeadingSlashes(n)
  {
    var r := StripLeadingSlashes(n);
    assert forall i :: 0 <= i < |r| ==> r[i] == n[|n| - |r| + i];
  }

  /** "file:///" + rest starts with "file:///", and with "file://", and its tail is rest. */
  lemma UrlPrefix(rest: string)
    requires rest == [] || rest[0] != '/'
    ensures var r := "file:///" + rest; StartsWith(r, "file:///") && StartsWith(r, "file://") && r[8..] == rest
    ensures '\\' !in rest ==> '\\' !in "file:///" + rest
  {
    var r := "file:///" + rest;
    assert r[..8] == "file:///";
    assert r[..7] == "file://";
  }

  /** A URL is left alone: converting twice is converting once. */
  lemma ToFileUrlIdempotent(p: JValue)
    ensures ToFileUrl(JString(ToFileUrl(p))) == ToFileUrl(p)
  {
  }

  /** A Unix path "/dir/name" (one leading '/', no '\') becomes "file:///dir/name". */
  lemma UnixPathUrl(rest: string)
    requires rest != [] && rest[0] != '/' && '\\' !in rest
    ensures ToFileUrl(JString("/" + rest)) == "file:///" + rest
  {
    var p := "/" + rest;
    assert !StartsWith(p, "file://") by { assert p[0] == '/'; }
    var n := ReplaceChar(p, '\\', '/');
    assert n == p;
    assert n[1..] == rest;
  }

  /** A Windows path "C:\dir\name" becomes "file:///C:/dir/name": the drive letter stays, the '\' turn into '/'. */
  lemma WindowsPathUrl(drive: char, rest: string)
    requires IsAsciiLetter(drive)
    ensures ToFileUrl(JString([drive, ':'] + rest)) == "file:///" + [drive, ':'] + ReplaceChar(rest, '\\', '/')
  {
    var n := [drive, ':'] + ReplaceChar(rest, '\\', '/');
    DrivePathNormalized(drive, rest, n);
    UrlOfPlainPath([drive, ':'] + rest, n);
    assert "file:///" + [drive, ':'] + ReplaceChar(rest, '\\', '/') == "file:///" + n;
  }

  /** "C:" + `rest` is no URL, and normalising it normalises `rest` only. */
  lemma DrivePathNormalized(drive: char, rest: string, n: string)
    requires IsAsciiLetter(drive) && n == [drive, ':'] + ReplaceChar(rest, '\\', '/')
    ensures !StartsWith([drive, ':'] + rest, "file://") && ReplaceChar([drive, ':'] + rest, '\\', '/') == n
  {
    var p := [drive, ':'] + rest;
    assert p[1] == ':' != "file://"[1];
    ReplaceCharAppend([drive, ':'], rest, '\\', '/');
    assert ReplaceChar([drive, ':'], '\\', '/') == [drive, ':'];
  }

  /** A path that is not a URL and whose normalised form `n` starts with no '/' becomes "file:///" + `n`. */
  lemma UrlOfPlainPath(p: string, n: string)
    requires p != [] && !StartsWith(p, "file://") && ReplaceChar(p, '\\', '/') == n && n != [] && n[0] != '/'
    ensures ToFileUrl(JString(p)) == "file:///" + n
  {
    assert StripLeadingSlashes(n) == n;
    UrlOfNormalized("file:///", ToFileUrl(JString(p)), n);
  }

  /** A text of at least eight characters that starts with `prefix` and continues with `n` is `prefix` + `n`. */
  lemma UrlOfNormalized(prefix: string, r: string, n: string)
    requires |prefix| == 8 && StartsWith(r, prefix) && r[8..] == n
    ensures r == prefix + n
  {
    assert r == r[..8] + r[8..];
  }

  // ---- image info ---------------------------------------------------------------------------------

  /** `imageInfo && imageInfo.path && typeof imageInfo.path === 'string' && imageInfo.path.trim().length > 0`. */
  predicate ValidImageInfo(info: Option<JObj>)
  {
    info.Some? && "path" in info.value && info.value["path"].JString? && HasText(info.value["path"].s)
  }

  /** The path of a valid image info. */
  function PathOf(info: Option<JObj>): (p: string)
    requires ValidImageInfo(info)
    ensures p != [] && HasText(p)
  {
    info.value["path"].s
  }

  /** A valid image always gets a proper URL: the preview never shows '' for an accepted image. */
  lemma ValidImageHasUrl(info: Option<JObj>)
    requires ValidImageInfo(info)
    ensures StartsWith(ToFileUrl(JString(PathOf(info))), "file://")
  {
  }

  // ---- the store ----------------------------------------------------------------------------------

  /** The `defaultConfig` of `resetWatermarkConfig`, which is also the initial `watermarkConfig`. */
  const DEFAULT_CONFIG: JObj := map[
    "type" := JString("TEXT"), "text" := JString("水印文本"), "fontSize" := JNumber(24.0),
    "fontFamily" := JString("Microsoft YaHei"), "fontColor" := JString("#FFFFFF"), "fontStyle" := JString("NORMAL"),
    "imagePath" := JString(""), "position" := JString("BOTTOM_RIGHT"), "offsetX" := JNumber(10.0),
    "offsetY" := JNumber(10.0), "opacity" := JNumber(0.8), "rotation" := JNumber(0.0), "scale" := JNumber(1.0),
    "outputPath" := JString("")]

  /**
   * After a reset every default property holds its default, and a property that is not one of the
   * defaults keeps its value: the reset does not remove it.
   */
  lemma ResetKeepsExtraKeys(config: JObj)
    ensures forall k :: k in DEFAULT_CONFIG ==> Assign(config, DEFAULT_CONFIG)[k] == DEFAULT_CONFIG[k]
    ensures forall k :: k in config && k !in DEFAULT_CONFIG ==> Assign(config, DEFAULT_CONFIG)[k] == config[k]
    ensures Assign(config, DEFAULT_CONFIG) == DEFAULT_CONFIG <==> config.Keys <= DEFAULT_CONFIG.Keys
  {
    var r := Assign(config, DEFAULT_CONFIG);
    if r == DEFAULT_CONFIG {
      assert config.Keys <= r.Keys;
    }
    if config.Keys <= DEFAULT_CONFIG.Keys {
      assert r.Keys == DEFAULT_CONFIG.Keys;
    }
  }

  class WatermarkStore {
    var currentImage: Option<JObj>
    var imagePreviewUrl: string
    var watermarkConfig: JObj
    var previewConfig: JObj
    var currentTemplate: Option<JObj>
    /** The URLs that scheduled `setTimeout` callbacks will publish, oldest first. */
    var pendingUrls: seq<string>

    /**
     * What every operation keeps: the preview configuration equals the configuration (both start
     * equal and every change is applied to both), every default property is present, and a current
     * image is a valid one.
     */
    predicate Valid()
      reads this
    {
      previewConfig == watermarkConfig && DEFAULT_CONFIG.Keys <= watermarkConfig.Keys &&
      (currentImage.Some? ==> ValidImageInfo(currentImage))
    }

    /** The store as `defineStore` sets it up. */
    constructor ()
      ensures Valid()
      ensures currentImage.None? && imagePreviewUrl == "" && currentTemplate.None? && pendingUrls == []
      ensures watermarkConfig == DEFAULT_CONFIG && previewConfig == DEFAULT_CONFIG
    {
      currentImage := None;
      imagePreviewUrl := "";
      watermarkConfig := DEFAULT_CONFIG;
      previewConfig := DEFAULT_CONFIG;
      currentTemplate := None;
      pendingUrls := [];
    }

    /**
     * `setCurrentImage`: a valid info becomes the current image, the preview URL is cleared at once
     * and its new value scheduled; anything else clears both. A timer scheduled earlier is not cancelled.
     */
    method SetCurrentImage(info: Option<JObj>)
      requires Valid()
      modifies this
      ensures Valid()
      ensures ValidImageInfo(info) ==>
        currentImage == info && imagePreviewUrl == "" &&
        pendingUrls == old(pendingUrls) + [ToFileUrl(JString(PathOf(info)))]
      ensures !ValidImageInfo(info) ==> currentImage.None? && imagePreviewUrl == "" && pendingUrls == old(pendingUrls)
      ensures watermarkConfig == old(watermarkConfig) && previewConfig == old(previewConfig)
      ensures currentTemplate == old(currentTemplate)
    {
      if ValidImageInfo(info) {
        currentImage := info;
        var newUrl := ToFileUrl(JString(PathOf(info)));
        imagePreviewUrl := "";
        pendingUrls := pendingUrls + [newUrl];
      } else {
        currentImage := None;
        imagePreviewUrl := "";
      }
    }

    /** The oldest scheduled `setTimeout` callback runs: its URL becomes the preview URL. */
    method DeliverPreviewUrl()
      requires Valid() && pendingUrls != []
      modifies this
      ensures Valid()
      ensures imagePreviewUrl == old(pendingUrls)[0] && pendingUrls == old(pendingUrls)[1..]
      ensures currentImage == old(currentImage) && watermarkConfig == old(watermarkConfig)
      ensures previewConfig == old(previewConfig) && currentTemplate == old(currentTemplate)
    {
      imagePreviewUrl := pendingUrls[0];
      pendingUrls := pendingUrls[1..];
    }

    /** `updateWatermarkConfig`: the new properties are assigned into both configurations, the rest untouched. */
    method UpdateWatermarkConfig(newConfig: JObj)
      requires Valid()
      modifies this
      ensures Valid()
      ensures watermarkConfig == Assign(old(watermarkConfig), newConfig)
      ensures previewConfig == Assign(old(previewConfig), newConfig)
      ensures currentImage == old(currentImage) && imagePreviewUrl == old(imagePreviewUrl)
      ensures currentTemplate == old(currentTemplate) && pendingUrls == old(pendingUrls)
    {
      watermarkConfig := Assign(watermarkConfig, newConfig);
      previewConfig := Assign(previewConfig, newConfig);
    }

    /** `resetWatermarkConfig`: the defaults are assigned into both configurations; other properties survive. */
    method ResetWatermarkConfig()
      requires Valid()
      modifies this
      ensures Valid()
      ensures watermarkConfig == Assign(old(watermarkConfig), DEFAULT_CONFIG)
      ensures previewConfig == Assign(old(previewConfig), DEFAULT_CONFIG)
      ensures currentImage == old(currentImage) && imagePreviewUrl == old(imagePreviewUrl)
      ensures currentTemplate == old(currentTemplate) && pendingUrls == old(pendingUrls)
    {
      watermarkConfig := Assign(watermarkConfig, DEFAULT_CONFIG);
      previewConfig := Assign(previewConfig, DEFAULT_CONFIG);
    }

    /**
     * `applyTemplate`: nothing happens unless the template and its `config` are truthy. A string
     * config goes through `JSON.parse` (`parse`), whose `SyntaxError` escapes with nothing changed;
     * an object's properties are assigned as by `updateWatermarkConfig`; an object that is not a plain
     * object contributes no properties. Then the template becomes the current one.
     */
    method ApplyTemplate(template: Option<JObj>, parse: string -> Result<JValue, string>) returns (thrown: Option<string>)
      requires Valid()
      modifies this
      ensures Valid()
      ensures currentImage == old(currentImage) && imagePreviewUrl == old(imagePreviewUrl) && pendingUrls == old(pendingUrls)
      ensures !TemplateApplies(template) ==> thrown.None? && unchanged(this)
      ensures TemplateApplies(template) ==>
        var c := template.value["config"];
        if c.JString? && parse(c.s).Failure? then
          thrown == Some(parse(c.s).error) && unchanged(this)
        else
          var props := TemplateProperties(if c.JString? then parse(c.s).value else c);
          thrown.None? && watermarkConfig == Assign(old(watermarkConfig), props) &&
          previewConfig == Assign(old(previewConfig), props) && currentTemplate == template
    {
      thrown := None;
      if TemplateApplies(template) {
        var c := template.value["config"];
        var config: JValue;
        if c.JString? {
          var parsed := parse(c.s);
          if parsed.Failure? {
            return Some(parsed.error);
          }
          config := parsed.value;
        } else {
          config := c;
        }
        UpdateWatermarkConfig(TemplateProperties(config));
        currentTemplate := template;
      }
    }

    /** `clearState`: no current image and no preview URL. */
    method ClearState()
      requires Valid()
      modifies this
      ensures Valid()
      ensures currentImage.None? && imagePreviewUrl == ""
      ensures watermarkConfig == old(watermarkConfig) && previewConfig == old(previewConfig)
      ensures currentTemplate == old(currentTemplate) && pendingUrls == old(pendingUrls)
    {
      currentImage := None;
      imagePreviewUrl := "";
    }

    /** `resetAll`: `clearState` and then `resetWatermarkConfig`. */
    method ResetAll()
      requires Valid()
      modifies this
      ensures Valid()
      ensures currentImage.None? && imagePreviewUrl == ""
      ensures watermarkConfig == Assign(old(watermarkConfig), DEFAULT_CONFIG) && previewConfig == watermarkConfig
      ensures currentTemplate == old(currentTemplate) && pendingUrls == old(pendingUrls)
    {
      ClearState();
      ResetWatermarkConfig();
    }
  }

  /** `template && template.config`. */
  predicate TemplateApplies(template: Option<JObj>)
  {
    template.Some? && "config" in template.value && Truthy(template.value["config"])
  }

  /** The own enumerable properties of an array or a string: "0", "1", ... holding the elements in order. */
  function IndexedProperties(items: seq<JValue>): JObj
  {
    if items == [] then map[] else IndexedProperties(items[..|items| - 1])[NatToString(|items| - 1) := items[|items| - 1]]
  }

  /** Every key is the index of an element. */
  lemma {:induction false} IndexedPropertiesKeys(items: seq<JValue>)
    ensures forall key :: key in IndexedProperties(items) ==> exists k :: 0 <= k < |items| && key == NatToString(k)
  {
    if items != [] {
      var n := |items| - 1;
      var p := items[..n];
      IndexedPropertiesKeys(p);
      assert IndexedProperties(items) == IndexedProperties(p)[NatToString(n) := items[n]];
      forall key | key in IndexedProperties(items)
        ensures exists k :: 0 <= k < |items| && key == NatToString(k)
      {
        if key != NatToString(n) {
          assert key in IndexedProperties(p);
          var k :| 0 <= k < |p| && key == NatToString(k);
          assert 0 <= k < |items|;
        } else {
          assert 0 <= n < |items| && key == NatToString(n);
        }
      }
      assert forall key :: key in IndexedProperties(items) ==> exists k :: 0 <= k < |items| && key == NatToString(k);
    } else {
      assert IndexedProperties(items) == map[];
    }
  }

  /** Element k sits under the key "k". */
  lemma {:induction false} IndexedPropertiesAt(items: seq<JValue>)
    ensures forall k :: 0 <= k < |items| ==>
      NatToString(k) in IndexedProperties(items) && IndexedProperties(items)[NatToString(k)] == items[k]
  {
    if items != [] {
      var n := |items| - 1;
      var p := items[..n];
      IndexedPropertiesAt(p);
      var m := IndexedProperties(items);
      assert m == IndexedProperties(p)[NatToString(n) := items[n]];
      forall k | 0 <= k < |items|
        ensures NatToString(k) in m && m[NatToString(k)] == items[k]
      {
        if k < n {
          if NatToString(k) == NatToString(n) {
            NatToStringInjective(k, n);
          }
          assert p[k] == items[k];
        }
      }
    }
  }

  /** The characters of a string as one-character strings, the elements a string source spreads. */
  function CharValues(s: string): (r: seq<JValue>)
    ensures |r| == |s| && forall k :: 0 <= k < |s| ==> r[k] == JString([s[k]])
  {
    seq(|s|, k requires 0 <= k < |s| => JString([s[k]]))
  }

  /**
   * The properties `Object.assign` copies from a template's configuration: an object's own properties;
   * an array's elements or a string's characters under their indices; nothing from null, a boolean or a
   * number.
   */
  function TemplateProperties(config: JValue): (r: JObj)
    ensures config.JObject? ==> r == config.fields
    ensures config.JArray? ==> r == IndexedProperties(config.items)
    ensures config.JString? ==> r == IndexedProperties(CharValues(config.s))
    ensures config.JNull? || config.JBool? || config.JNumber? ==> r == map[]
  {
    match config
    case JObject(m) => m
    case JArray(items) => IndexedProperties(items)
    case JString(s) => IndexedProperties(CharValues(s))
    case _ => map[]
  }

  /** A configuration that parses to the string "ab" spreads into the properties "0": "a" and "1": "b". */
  lemma StringConfigSpreads()
    ensures TemplateProperties(JString("ab")) == map["0" := JString("a"), "1" := JString("b")]
  {
    var v := CharValues("ab");
    assert v == [JString("a"), JString("b")];
    assert v[..1] == [JString("a")] && v[..1][..0] == [];
    assert NatToString(0) == "0" && NatToString(1) == "1";
    assert IndexedProperties(v[..1]) == map["0" := JString("a")];
    assert IndexedProperties(v) == IndexedProperties(v[..1])["1" := JString("b")];
  }

  /**
   * A timer is not cancelled when the image is cleared: choosing an image and then an invalid one
   * within 10 ms leaves no current image, yet the first image's URL arrives as the preview afterwards.
   */
  method StalePreviewUrl(path: string) returns (s: WatermarkStore)
    requires HasText(path)
    ensures s.Valid() && s.currentImage.None?
    ensures s.imagePreviewUrl == ToFileUrl(JString(path)) && s.imagePreviewUrl != ""
  {
    s := new WatermarkStore();
    s.SetCurrentImage(Some(map["path" := JString(path)]));
    s.SetCurrentImage(None);
    s.DeliverPreviewUrl();
  }
}
