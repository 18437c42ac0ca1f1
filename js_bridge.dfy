/**
 * `JavaScriptBridge`: the logic the bridge adds around the services — the batch loop that tallies
 * per-image outcomes, the JavaScript call statement it builds, its error responses and the level
 * dispatch of `log`. A response is the map Jackson serialises (a `JObj`); serialisation itself and
 * the JSON text read by `readValue` are not modelled: a read is a `Result`, its error the exception
 * message.
 */
module JsBridge {
  import opened Wrappers
  import opened Strs
  import opened Json

  // ---- responses ----------------------------------------------------------------------------------

  /** `createErrorResponse`: exactly two entries, `error` = true and the message. */
  function ErrorResponse(message: string): (r: JObj)
    ensures r.Keys == {"error", "message"}
    ensures r["error"] == JBool(true) && r["message"] == JString(message)
  {
    map["error" := JBool(true), "message" := JString(message)]
  }

  /** The message an error response carries, as the frontend reads it back. */
  function ErrorMessage(r: JObj): Option<string>
  {
    if "error" in r && r["error"] == JBool(true) && "message" in r && r["message"].JString?
    then Some(r["message"].s) else None
  }

  /** An error response gives back its message, so two error responses differ when their messages do. */
  lemma ErrorResponseRoundTrip(message: string)
    ensures ErrorMessage(ErrorResponse(message)) == Some(message)
  {
  }

  /** `String.format("批量处理完成：成功 %d 张，失败 %d 张", …)`. */
  function BatchMessage(successes: nat, failures: nat): string
  {
    "批量处理完成：成功 " + IntToString(successes) + " 张，失败 " + IntToString(failures) + " 张"
  }

  /** The batch result map: no `error` entry, `success` = true and the three counts. */
  function BatchSummary(total: nat, successes: nat, failures: nat): (r: JObj)
    ensures r.Keys == {"success", "total", "successCount", "failureCount", "message"}
    ensures ErrorMessage(r).None?
    ensures r["success"] == JBool(true)
    ensures r["total"] == JNumber(total as real)
    ensures r["successCount"] == JNumber(successes as real) && r["failureCount"] == JNumber(failures as real)
  {
    map["success" := JBool(true), "total" := JNumber(total as real),
        "successCount" := JNumber(successes as real), "failureCount" := JNumber(failures as real),
        "message" := JString(BatchMessage(successes, failures))]
  }

  // ---- the batch tally --------------------------------------------------------------------------

  /**
   * `watermarkService.processImageWithWatermark(path, configJson)` as the loop sees it: a thrown
   * exception is a `Failure`, a null result `Success(None)`.
   */
  type Processor = (string, JObj) -> Result<Option<string>, string>

  /** An image counts as processed when the service returns a non-null, non-empty path. */
  predicate Succeeded(res: Result<Option<string>, string>)
  {
    res.Success? && res.value.Some? && res.value.value != ""
  }

  /** How many of `paths` the service processes successfully with `config`, counted from the last one back. */
  function SuccessCount(paths: seq<string>, config: JObj, process: Processor): (n: nat)
    ensures n <= |paths|
    ensures n == |paths| <==> forall i :: 0 <= i < |paths| ==> Succeeded(process(paths[i], config))
    ensures n == 0 <==> forall i :: 0 <= i < |paths| ==> !Succeeded(process(paths[i], config))
  {
    if paths == [] then 0
    else
      var init := paths[..|paths| - 1];
      var n := SuccessCount(init, config, process) + (if Succeeded(process(paths[|paths| - 1], config)) then 1 else 0);
      assert forall i :: 0 <= i < |init| ==> init[i] == paths[i];
      n
  }

  /** How many of `paths` fail, counted from the first one on: the reference the tally is checked against. */
  function FailureCount(paths: seq<string>, config: JObj, process: Processor): nat
  {
    if paths == [] then 0
    else (if Succeeded(process(paths[0], config)) then 0 else 1) + FailureCount(paths[1..], config, process)
  }

  /** Successes add up over consecutive runs: a failure never changes how later images are counted. */
  lemma {:induction false} SuccessCountAppend(s: seq<string>, t: seq<string>, config: JObj, process: Processor)
    ensures SuccessCount(s + t, config, process) == SuccessCount(s, config, process) + SuccessCount(t, config, process)
  {
    if t == [] {
      assert s + t == s;
    } else {
      var t' := t[..|t| - 1];
      assert (s + t)[..|s + t| - 1] == s + t';
      assert (s + t)[|s + t| - 1] == t[|t| - 1];
      SuccessCountAppend(s, t', config, process);
    }
  }

  /** Every path is counted exactly once: successes and failures make up the whole list. */
  lemma {:induction false} TallyCoversAll(paths: seq<string>, config: JObj, process: Processor)
    ensures SuccessCount(paths, config, process) + FailureCount(paths, config, process) == |paths|
  {
    if paths != [] {
      TallyCoversAll(paths[1..], config, process);
      assert paths == [paths[0]] + paths[1..];
      SuccessCountAppend([paths[0]], paths[1..], config, process);
      assert [paths[0]][..0] == [];
    }
  }

  /** The configuration every image is processed with: the request's, with `outputPath` replaced by the directory. */
  function WithOutputPath(config: JObj, outputDirectory: string): (r: JObj)
    ensures r.Keys == config.Keys + {"outputPath"}
    ensures r["outputPath"] == JString(outputDirectory)
    ensures forall k :: k in config && k != "outputPath" ==> r[k] == config[k]
  {
    config["outputPath" := JString(outputDirectory)]
  }

  /**
   * `batchProcessImageList`: read the path list, reject a null or blank directory, read the
   * configuration and set its `outputPath`, then process every path in turn, counting successes and
   * failures. A failed read is caught by the outer handler.
   */
  method BatchProcessImageList(imagePaths: Result<seq<string>, string>, watermarkConfig: Result<JObj, string>,
                               outputDirectory: Option<string>, process: Processor)
    returns (r: JObj)
    ensures imagePaths.Failure? ==> r == ErrorResponse("批量处理失败: " + imagePaths.error)
    ensures imagePaths.Success? && (outputDirectory.None? || IsBlank(outputDirectory.value)) ==>
      r == ErrorResponse("输出目录不能为空")
    ensures imagePaths.Success? && outputDirectory.Some? && !IsBlank(outputDirectory.value) && watermarkConfig.Failure? ==>
      r == ErrorResponse("批量处理失败: " + watermarkConfig.error)
    ensures imagePaths.Success? && outputDirectory.Some? && !IsBlank(outputDirectory.value) && watermarkConfig.Success? ==>
      var paths := imagePaths.value;
      var config := WithOutputPath(watermarkConfig.value, outputDirectory.value);
      r == BatchSummary(|paths|, SuccessCount(paths, config, process), FailureCount(paths, config, process))
  {
    if imagePaths.Failure? {
      return ErrorResponse("批量处理失败: " + imagePaths.error);
    }
    var paths := imagePaths.value;
    if outputDirectory.None? || IsBlank(outputDirectory.value) {
      return ErrorResponse("输出目录不能为空");
    }
    if watermarkConfig.Failure? {
      return ErrorResponse("批量处理失败: " + watermarkConfig.error);
    }
    var config := WithOutputPath(watermarkConfig.value, outputDirectory.value);
    var successCount, failureCount := ProcessAll(paths, config, process);
    r := BatchSummary(|paths|, successCount, failureCount);
  }

  /** The loop of `batchProcessImageList`: every path processed in turn, each outcome counted once. */
  method ProcessAll(paths: seq<string>, config: JObj, process: Processor) returns (successCount: nat, failureCount: nat)
    ensures successCount == SuccessCount(paths, config, process)
    ensures failureCount == FailureCount(paths, config, process)
  {
    successCount, failureCount := 0, 0;
    for i := 0 to |paths|
      invariant successCount == SuccessCount(paths[..i], config, process)
      invariant successCount + failureCount == i
    {
      var result := process(paths[i], config);
      assert paths[..i + 1][..i] == paths[..i];
      if Succeeded(result) {
        successCount := successCount + 1;
      } else {
        failureCount := failureCount + 1;
      }
    }
    assert paths[..|paths|] == paths;
    TallyCoversAll(paths, config, process);
  }

  // ---- JavaScript calls ---------------------------------------------------------------------------

  /** An argument of `callJavaScriptFunction`: a `String`, or an `Integer` (the callers pass progress values). */
  datatype JsArg = JsString(s: string) | JsInt(i: int)

  /** A `String` argument is written between single quotes, any other as its `toString`. */
  function Render(a: JsArg): (r: string)
    ensures a.JsString? ==> |r| == |a.s| + 2 && r[0] == '\'' && r[|r| - 1] == '\'' && r[1..|r| - 1] == a.s
  {
    match a
    case JsString(s) => "'" + s + "'"
    case JsInt(i) => IntToString(i)
  }

  /** The arguments, each rendered, with a ',' between consecutive ones. */
  function JoinArgs(args: seq<JsArg>): string
  {
    if args == [] then ""
    else if |args| == 1 then Render(args[0])
    else JoinArgs(args[..|args| - 1]) + "," + Render(args[|args| - 1])
  }

  /** The statement `name(a1,a2,...);`; a null name prints as "null". */
  function JsCall(functionName: Option<string>, args: seq<JsArg>): string
  {
    JavaText(functionName) + "(" + JoinArgs(args) + ");"
  }

  /**
   * `callJavaScriptFunction`'s statement, built by appending to a buffer as the source does. The
   * statement is only logged, so building it is the whole effect modelled.
   */
  method CallJavaScriptFunction(functionName: Option<string>, args: seq<JsArg>) returns (jsCall: string)
    ensures jsCall == JsCall(functionName, args)
  {
    jsCall := JavaText(functionName) + "(";
    for i := 0 to |args|
      invariant jsCall == JavaText(functionName) + "(" + JoinArgs(args[..i])
    {
      assert args[..i + 1][..i] == args[..i];
      if i > 0 {
        jsCall := jsCall + ",";
      }
      jsCall := jsCall + Render(args[i]);
    }
    assert args[..|args|] == args;
    jsCall := jsCall + ");";
  }

  /** An argument without ',' renders without ','. */
  lemma RenderCommaFree(a: JsArg)
    requires a.JsString? ==> ',' !in a.s
    ensures ',' !in Render(a)
  {
    if a.JsInt? {
      assert forall k :: 0 <= k < |IntToString(a.i)| ==> IsDigit(IntToString(a.i)[k]) || IntToString(a.i)[k] == '-';
    }
  }

  /** With no ',' inside a string argument, the statement has exactly one ',' between each two arguments. */
  lemma {:induction false} CommasSeparateArguments(args: seq<JsArg>)
    requires forall i :: 0 <= i < |args| && args[i].JsString? ==> ',' !in args[i].s
    ensures CountChar(JoinArgs(args), ',') == if args == [] then 0 else |args| - 1
  {
    if |args| == 1 {
      RenderCommaFree(args[0]);
    } else if |args| > 1 {
      var init := args[..|args| - 1];
      var last := args[|args| - 1];
      assert forall i :: 0 <= i < |init| ==> init[i] == args[i];
      CommasSeparateArguments(init);
      RenderCommaFree(last);
      CountCharAppend(JoinArgs(init) + ",", Render(last), ',');
      CountCharAppend(JoinArgs(init), ",", ',');
    }
  }

  /** The statement opens with the name and '(' and closes with ");", a string argument quoted inside. */
  lemma JsCallShape(functionName: string, s: string, n: int)
    ensures StartsWith(JsCall(Some(functionName), [JsString(s), JsInt(n)]), functionName + "(")
    ensures JsCall(Some(functionName), [JsString(s), JsInt(n)]) == functionName + "('" + s + "'," + IntToString(n) + ");"
    ensures JsCall(Some(functionName), []) == functionName + "();"
  {
    var args := [JsString(s), JsInt(n)];
    assert args[..1] == [JsString(s)];
    assert JoinArgs(args[..1]) == "'" + s + "'";
    var j := JoinArgs(args);
    assert j == "'" + s + "'" + "," + IntToString(n);
    assert JsCall(Some(functionName), args) == (functionName + "(") + (j + ");");
  }

  // ---- logging ------------------------------------------------------------------------------------

  datatype LogLevel = Debug | Info | Warn | Error

  /** The logger call `log` makes: the level and the text "JS: " + message. */
  datatype LogEntry = LogEntry(level: LogLevel, text: string)

  /** `switch (level.toLowerCase())`: the four names in any case, anything else is info; a null level throws. */
  function LevelOf(level: Option<string>): (r: Result<LogLevel, string>)
    ensures r.Failure? <==> level.None?
    ensures r == Success(Debug) <==> level.Some? && ToLower(level.value) == "debug"
    ensures r == Success(Warn) <==> level.Some? && ToLower(level.value) == "warn"
    ensures r == Success(Error) <==> level.Some? && ToLower(level.value) == "error"
  {
    match level
    case None => Failure("NullPointerException")
    case Some(l) =>
      match ToLower(l)
      case "debug" => Success(Debug)
      case "info" => Success(Info)
      case "warn" => Success(Warn)
      case "error" => Success(Error)
      case _ => Success(Info)
  }

  /** `log(level, message)`: the entry it writes, the message printed as Java prints a null. */
  function Log(level: Option<string>, message: Option<string>): (r: Result<LogEntry, string>)
    ensures r.Failure? <==> level.None?
    ensures r.Success? ==> r.value.level == LevelOf(level).value && r.value.text == "JS: " + JavaText(message)
  {
    var l :- LevelOf(level);
    Success(LogEntry(l, "JS: " + JavaText(message)))
  }

  /** The level is chosen ignoring case: an upper-cased level selects the same logger call. */
  lemma LevelIgnoresCase(level: string)
    ensures LevelOf(Some(ToUpper(level))) == LevelOf(Some(level))
  {
    LowerOfUpper(level);
  }

  /** Any level other than the four names is logged as info, "INFO" and "" included. */
  lemma UnknownLevelIsInfo(level: string)
    requires ToLower(level) !in {"debug", "warn", "error"}
    ensures LevelOf(Some(level)) == Success(Info)
  {
  }
}
