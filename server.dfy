/** Request validation and error mapping of the two analysis endpoints
    (`/api/analyze` and `/api/analyze-with-predefined`): culture parsing, the
    ordered 400 checks, the predefined-list check, the mapping of any other
    exception to a 500, and the response built from the pipeline's result.
    Decoding the uploaded bytes into an image is a parameter. */
module Server {
  import opened Wrappers
  import opened Text
  import Utils
  import Pipeline

  /** `HTTPException(status_code, detail)`. */
  datatype HttpError = HttpError(status: int, detail: string)

  /** What a handler's `try` block can raise: an HTTP exception, or any other
      exception, given by its `str`. */
  datatype Raised = Http(error: HttpError) | Other(message: string)

  /** The uploaded file: its name (possibly absent), its content type and its bytes. */
  datatype Upload = Upload(filename: Option<string>, contentType: string, bytes: seq<bv8>)

  /** The response body (`AnalysisResponse`). */
  datatype AnalysisResponse = AnalysisResponse(
    scores: seq<Pipeline.CultureScore>,
    wikipediaPages: seq<Pipeline.WikiPageRow>,
    matchedEntity: string,
    imagePath: string,
    sessionId: Option<string>)

  const ValidModels: seq<string> := ["qwen_vl", "pangea_vl", "llama_vl"]

  const NotAnImage := "File must be an image"
  const NoCultures := "At least one culture must be provided"
  /** `f"Model must be one of: {', '.join(valid_models)}"`. */
  const BadModel := "Model must be one of: qwen_vl, pangea_vl, llama_vl"
  const BadList := "Invalid predefined list name"
  const FailurePrefix := "Failed to process image: "

  // ---------------------------------------------------------------------------
  // Culture parsing
  // ---------------------------------------------------------------------------

  /** The non-empty items, in order. */
  function NonBlank(items: seq<string>): (r: seq<string>)
    ensures |r| <= |items|
    ensures forall x :: x in r ==> x in items && x != ""
    ensures forall x :: x in items && x != "" ==> x in r
    ensures (forall k :: 0 <= k < |items| ==> items[k] != "") ==> r == items
  {
    if items == [] then []
    else
      var n := |items| - 1;
      var r := NonBlank(items[..n]) + (if items[n] != "" then [items[n]] else []);
      assert items == items[..n] + [items[n]];
      r
  }

  /** Dropping the blank items of a concatenation drops them from each part
      and keeps the parts in order: with `NonBlankOne`, this pins `NonBlank`
      down as the order-preserving filter. */
  lemma {:induction false} NonBlankAppend(a: seq<string>, b: seq<string>)
    ensures NonBlank(a + b) == NonBlank(a) + NonBlank(b)
    decreases |b|
  {
    if b == [] {
      assert a + b == a;
    } else {
      var n := |b| - 1;
      var tail := if b[n] != "" then [b[n]] else [];
      calc {
        NonBlank(a + b);
        { assert a + b == (a + b[..n]) + [b[n]]; }
        NonBlank((a + b[..n]) + [b[n]]);
        { NonBlankSnoc(a + b[..n], b[n]); }
        NonBlank(a + b[..n]) + tail;
        { NonBlankAppend(a, b[..n]); }
        NonBlank(a) + NonBlank(b[..n]) + tail;
        { NonBlankSnoc(b[..n], b[n]); assert b[..n] + [b[n]] == b; }
        NonBlank(a) + NonBlank(b);
      }
    }
  }

  lemma NonBlankSnoc(items: seq<string>, x: string)
    ensures NonBlank(items + [x]) == NonBlank(items) + (if x != "" then [x] else [])
  {
    assert (items + [x])[..|items|] == items;
  }

  /** A single item is kept exactly when it is not empty. */
  lemma NonBlankOne(x: string)
    ensures NonBlank([x]) == if x == "" then [] else [x]
  {
    assert [x][..0] == [];
  }

  /** `[c.strip() for c in cultures.split(",") if c.strip()]`: the target list
      of the command line with its blank items dropped. */
  function ParseCultures(cultures: string): (r: seq<string>)
    ensures |r| <= Count(cultures, ',') + 1
    ensures forall x :: x in r ==> x != ""
  {
    NonBlank(Utils.ParseTargetList(cultures))
  }

  /** The cultures of `a,b` are the cultures of `a` followed by those of `b`:
      order and repetitions of the request are kept. */
  lemma CulturesAppend(a: string, b: string)
    ensures ParseCultures(a + "," + b) == ParseCultures(a) + ParseCultures(b)
  {
    Utils.TargetListAppend(a, b);
    NonBlankAppend(Utils.ParseTargetList(a), Utils.ParseTargetList(b));
  }

  /** A piece without a comma gives its stripped text, or nothing when blank. */
  lemma CulturesOfPiece(s: string)
    requires ',' !in s
    ensures ParseCultures(s) == if Strip(s) == "" then [] else [Strip(s)]
  {
    Utils.TargetListOfPiece(s);
    NonBlankOne(Strip(s));
  }

  /** Every parsed culture is non-empty, stripped and free of commas. */
  lemma CulturesClean(cultures: string)
    ensures forall x :: x in ParseCultures(cultures) ==> x != "" && ',' !in x && Strip(x) == x
  {
    CleanItems(cultures);
  }

  /** Every comma-separated piece that is not blank yields its stripped culture. */
  lemma CulturesComplete(cultures: string, k: nat)
    requires k < |Split(cultures, ',')| && !AllSpace(Split(cultures, ',')[k])
    ensures Strip(Split(cultures, ',')[k]) in ParseCultures(cultures)
  {
    BlankItems(cultures);
    var items := Utils.ParseTargetList(cultures);
    assert items[k] in items;
  }

  /** The parsed list is empty exactly when every comma-separated piece is
      blank, which is when the request is rejected for having no culture. */
  lemma NoCulturesIffAllBlank(cultures: string)
    ensures ParseCultures(cultures) == [] ==>
      forall k :: 0 <= k < |Split(cultures, ',')| ==> AllSpace(Split(cultures, ',')[k])
    ensures (forall k :: 0 <= k < |Split(cultures, ',')| ==> AllSpace(Split(cultures, ',')[k])) ==>
      ParseCultures(cultures) == []
  {
    var parts := Split(cultures, ',');
    if ParseCultures(cultures) == [] {
      forall k | 0 <= k < |parts| ensures AllSpace(parts[k]) {
        if !AllSpace(parts[k]) {
          CulturesComplete(cultures, k);
        }
      }
    }
    if forall k :: 0 <= k < |parts| ==> AllSpace(parts[k]) {
      AllBlankGivesNone(cultures);
    }
  }

  /** When every piece is blank, no culture is left. */
  lemma AllBlankGivesNone(cultures: string)
    requires forall k :: 0 <= k < |Split(cultures, ',')| ==> AllSpace(Split(cultures, ',')[k])
    ensures ParseCultures(cultures) == []
  {
    BlankItems(cultures);
    NonBlankOfEmpties(Utils.ParseTargetList(cultures));
  }

  lemma {:induction false} NonBlankOfEmpties(items: seq<string>)
    requires forall k :: 0 <= k < |items| ==> items[k] == ""
    ensures NonBlank(items) == []
  {
    if items != [] {
      NonBlankOfEmpties(items[..|items| - 1]);
    }
  }

  /** Every item of the command-line list is stripped and free of commas. */
  lemma CleanItems(cultures: string)
    ensures var items := Utils.ParseTargetList(cultures);
      forall k :: 0 <= k < |items| ==> ',' !in items[k] && Strip(items[k]) == items[k]
  {
    Utils.TargetListItemsClean(cultures);
    var parts := Split(cultures, ',');
    forall k | 0 <= k < |parts| ensures Strip(Strip(parts[k])) == Strip(parts[k]) {
      StripIdempotent(parts[k]);
    }
  }

  /** An item of the command-line list is empty exactly when its piece is blank. */
  lemma BlankItems(cultures: string)
    ensures var items := Utils.ParseTargetList(cultures);
      forall k :: 0 <= k < |items| ==> (items[k] == "" <==> AllSpace(Split(cultures, ',')[k]))
  {
    var parts := Split(cultures, ',');
    forall k | 0 <= k < |parts| ensures Strip(parts[k]) == "" <==> AllSpace(parts[k]) {
      StripEmptyIffAllSpace(parts[k]);
    }
  }

  /** Joining clean culture names with commas and parsing the result gives
      the names back. */
  lemma CulturesRoundTrip(names: seq<string>)
    requires names != []
    requires forall k :: 0 <= k < |names| ==> names[k] != "" && ',' !in names[k] && Strip(names[k]) == names[k]
    ensures ParseCultures(Join(names, ',')) == names
  {
    TargetListOfJoin(names);
  }

  /** The command-line parse of a join of clean names is the names. */
  lemma TargetListOfJoin(names: seq<string>)
    requires names != []
    requires forall k :: 0 <= k < |names| ==> ',' !in names[k] && Strip(names[k]) == names[k]
    ensures Utils.ParseTargetList(Join(names, ',')) == names
  {
    var s := Join(names, ',');
    SplitJoin(names, ',');
    var items := Utils.ParseTargetList(s);
    forall k | 0 <= k < |names| ensures items[k] == names[k] {
      assert items[k] == Strip(Split(s, ',')[k]);
    }
  }

  // ---------------------------------------------------------------------------
  // Validation
  // ---------------------------------------------------------------------------

  /** The checks of `analyze_image`, in order: content type, then cultures,
      then model name. On success, the parsed cultures. */
  function ValidateAnalyze(contentType: string, cultures: string, modelName: string): (r: Result<seq<string>, HttpError>)
    ensures r.Ok? <==> StartsWith(contentType, "image/") && ParseCultures(cultures) != [] && modelName in ValidModels
    ensures r.Ok? ==> r.value == ParseCultures(cultures) && r.value != []
    ensures r.Err? ==> r.error.status == 400
    ensures !StartsWith(contentType, "image/") ==> r == Err(HttpError(400, NotAnImage))
    ensures StartsWith(contentType, "image/") && ParseCultures(cultures) == [] ==> r == Err(HttpError(400, NoCultures))
    ensures StartsWith(contentType, "image/") && ParseCultures(cultures) != [] && modelName !in ValidModels ==>
      r == Err(HttpError(400, BadModel))
  {
    if !StartsWith(contentType, "image/") then Err(HttpError(400, NotAnImage))
    else
      var list := ParseCultures(cultures);
      if list == [] then Err(HttpError(400, NoCultures))
      else if modelName !in ValidModels then Err(HttpError(400, BadModel))
      else Ok(list)
  }

  /** The checks of `analyze_with_predefined`, in order: the list path must be
      a predefined list, the list is loaded (a failing load raises), then the
      model name. On success, the loaded cultures. */
  function ValidatePredefined(listName: string, predefined: set<string>, load: string -> Result<seq<string>, string>,
                              modelName: string): (r: Result<seq<string>, Raised>)
    ensures r.Ok? <==> Utils.DataPath(listName) in predefined && load(Utils.DataPath(listName)).Ok? && modelName in ValidModels
    ensures r.Ok? ==> r.value == load(Utils.DataPath(listName)).value
    ensures Utils.DataPath(listName) !in predefined ==> r == Err(Http(HttpError(400, BadList)))
    ensures Utils.DataPath(listName) in predefined && load(Utils.DataPath(listName)).Err? ==>
      r == Err(Other(load(Utils.DataPath(listName)).error))
    ensures Utils.DataPath(listName) in predefined && load(Utils.DataPath(listName)).Ok? && modelName !in ValidModels ==>
      r == Err(Http(HttpError(400, BadModel)))
  {
    var listPath := Utils.DataPath(listName);
    if listPath !in predefined then Err(Http(HttpError(400, BadList)))
    else
      match load(listPath)
      case Err(e) => Err(Other(e))
      case Ok(list) => if modelName !in ValidModels then Err(Http(HttpError(400, BadModel))) else Ok(list)
  }

  /** The two `except` clauses: an HTTP exception passes through unchanged,
      anything else becomes a 500 whose detail is the prefixed message. */
  function MapException(e: Raised): (r: HttpError)
    ensures e.Http? ==> r == e.error
    ensures e.Other? ==> r.status == 500 && r.detail == FailurePrefix + e.message
    ensures e.Other? ==> StartsWith(r.detail, FailurePrefix)
  {
    match e
    case Http(h) => h
    case Other(m) => HttpError(500, FailurePrefix + m)
  }

  /** `str(e)` of a pipeline fault, as Python prints it. */
  function FaultMessage(f: Pipeline.Fault): string
  {
    match f
    case StageFailed(_, m) => m
    case FileNotFound(path) => "[Errno 2] No such file or directory: '" + path + "'"
    case IndexError => "list index out of range"
    case KeyError(k) => "'" + k + "'"
  }

  // ---------------------------------------------------------------------------
  // Responses
  // ---------------------------------------------------------------------------

  /** `image.filename or "uploaded_image"`. */
  function ImagePathOf(filename: Option<string>): (r: string)
    ensures filename.Some? && filename.value != "" ==> r == filename.value
    ensures filename.None? || filename.value == "" ==> r == "uploaded_image"
  {
    if filename.Some? && filename.value != "" then filename.value else "uploaded_image"
  }

  /** A score the response schema accepts (`ge=1, le=5`). */
  predicate InRange(s: Pipeline.CultureScore) { 1.0 <= s.score <= 5.0 }

  /** What the schema check reports for a score outside [1, 5]; the exact
      wording of the validation library is not modelled. */
  const ScoreOutOfRange := "score must be between 1 and 5"

  /** The response for a pipeline result, or the 500 for a rejected score. */
  function BuildResponse(res: Pipeline.Response, filename: Option<string>): (r: Result<AnalysisResponse, HttpError>)
    ensures r.Ok? <==> forall k :: 0 <= k < |res.results.scores| ==> InRange(res.results.scores[k])
    ensures r.Ok? ==> r.value.scores == res.results.scores && r.value.wikipediaPages == res.results.wikipediaPages &&
                      r.value.matchedEntity == res.results.matchedEntity &&
                      r.value.imagePath == ImagePathOf(filename) && r.value.sessionId == Some(res.sessionId)
    ensures r.Err? ==> r.error == MapException(Other(ScoreOutOfRange))
  {
    if forall k :: 0 <= k < |res.results.scores| ==> InRange(res.results.scores[k]) then
      Ok(AnalysisResponse(res.results.scores, res.results.wikipediaPages, res.results.matchedEntity,
                          ImagePathOf(filename), Some(res.sessionId)))
    else Err(MapException(Other(ScoreOutOfRange)))
  }

  /** The handler's answer for what `process_image` returned or raised. */
  function Finish(res: Result<Pipeline.Response, Pipeline.Fault>, filename: Option<string>): (r: Result<AnalysisResponse, HttpError>)
    ensures res.Err? ==> r == Err(HttpError(500, FailurePrefix + FaultMessage(res.error)))
    ensures res.Ok? ==> r == BuildResponse(res.value, filename)
  {
    match res
    case Err(f) => Err(MapException(Other(FaultMessage(f))))
    case Ok(resp) => BuildResponse(resp, filename)
  }

  // ---------------------------------------------------------------------------
  // Handlers
  // ---------------------------------------------------------------------------

  /** `analyze_image`: a request failing validation, or whose bytes do not
      decode, never reaches the pipeline; otherwise the pipeline runs on the
      parsed cultures and its answer becomes the response or a 500. */
  method AnalyzeImage(p: Pipeline.CAIREPipeline, world: Pipeline.World, decode: seq<bv8> -> Result<Pipeline.Image, string>,
                      upload: Upload, cultures: string, useMulti: bool, modelName: string,
                      sessionId: Option<string>, now: string) returns (r: Result<AnalysisResponse, HttpError>)
    requires p.Valid()
    modifies p
    ensures p.Valid()
    ensures var v := ValidateAnalyze(upload.contentType, cultures, modelName);
      v.Err? ==> r == Err(v.error) && p.cache == old(p.cache) && p.dirs == old(p.dirs) && p.log == old(p.log)
    ensures var v := ValidateAnalyze(upload.contentType, cultures, modelName);
      v.Ok? && decode(upload.bytes).Err? ==>
        r == Err(HttpError(500, FailurePrefix + decode(upload.bytes).error)) &&
        p.cache == old(p.cache) && p.dirs == old(p.dirs) && p.log == old(p.log)
    ensures var v := ValidateAnalyze(upload.contentType, cultures, modelName);
      v.Ok? && decode(upload.bytes).Ok? ==>
        var step := Pipeline.Process(world, old(p.cache), old(p.dirs), old(p.log), decode(upload.bytes).value, v.value,
                                     useMulti, modelName, sessionId, now);
        r == Finish(step.answer, upload.filename) && p.cache == step.cache && p.dirs == step.dirs && p.log == step.log
  {
    var v := ValidateAnalyze(upload.contentType, cultures, modelName);
    if v.Err? {
      return Err(v.error);
    }
    var image := decode(upload.bytes);
    if image.Err? {
      return Err(MapException(Other(image.error)));
    }
    var result := p.ProcessImage(world, image.value, v.value, useMulti, modelName, sessionId, now);
    r := Finish(result, upload.filename);
  }

  /** `analyze_with_predefined`: the same, with the cultures loaded from a
      predefined list and `use_multiple_wiki_pages` always false. */
  method AnalyzeWithPredefined(p: Pipeline.CAIREPipeline, world: Pipeline.World, decode: seq<bv8> -> Result<Pipeline.Image, string>,
                               upload: Upload, listName: string, predefined: set<string>,
                               load: string -> Result<seq<string>, string>, modelName: string,
                               sessionId: Option<string>, now: string) returns (r: Result<AnalysisResponse, HttpError>)
    requires p.Valid()
    modifies p
    ensures p.Valid()
    ensures var v := ValidatePredefined(listName, predefined, load, modelName);
      v.Err? ==> r == Err(MapException(v.error)) && p.cache == old(p.cache) && p.dirs == old(p.dirs) && p.log == old(p.log)
    ensures var v := ValidatePredefined(listName, predefined, load, modelName);
      v.Ok? && decode(upload.bytes).Err? ==>
        r == Err(HttpError(500, FailurePrefix + decode(upload.bytes).error)) &&
        p.cache == old(p.cache) && p.dirs == old(p.dirs) && p.log == old(p.log)
    ensures var v := ValidatePredefined(listName, predefined, load, modelName);
      v.Ok? && decode(upload.bytes).Ok? ==>
        var step := Pipeline.Process(world, old(p.cache), old(p.dirs), old(p.log), decode(upload.bytes).value, v.value,
                                     false, modelName, sessionId, now);
        r == Finish(step.answer, upload.filename) && p.cache == step.cache && p.dirs == step.dirs && p.log == step.log
  {
    var v := ValidatePredefined(listName, predefined, load, modelName);
    if v.Err? {
      return Err(MapException(v.error));
    }
    var image := decode(upload.bytes);
    if image.Err? {
      return Err(MapException(Other(image.error)));
    }
    var result := p.ProcessImage(world, image.value, v.value, false, modelName, sessionId, now);
    r := Finish(result, upload.filename);
  }
}
