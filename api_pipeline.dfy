/** The session cache and stage orchestration of `CAIREPipeline`: a fresh
    request runs retrieval, lemma matching, Wikipedia retrieval and scoring in
    that order inside a new output directory, and registers the session only
    when every stage and the result read succeed; a request naming a cached
    session reruns scoring alone. The stages are abstract and may fail; the
    output directories are values holding the files the stages write. */
module Pipeline {
  import opened Wrappers
  import opened Text
  import Disambiguation

  /** Raw image bytes. */
  type Image = seq<bv8>

  /** One page dictionary of `WIKI.pkl`; a dictionary is truthy when non-empty. */
  type WikiRecord = map<string, string>

  /** One element of a scores file: the `values` dictionary (culture to score,
      in insertion order; None where the model gave no score), which may be
      missing, and the `reasoning` dictionary, `{}` when missing. */
  datatype ScoreSheet = ScoreSheet(values: Option<seq<(string, Option<real>)>>, reasoning: map<string, string>)

  /** The files of one output directory `outputs/<timestamp>`: the cached image,
      the retrieval output, `lemma_match.pkl`, `WIKI.pkl`, and one
      `1-5_scores_VLM_<model>.pkl` per model name. */
  datatype SessionDir = SessionDir(
    image: Option<Image>,
    retrieval: Option<seq<seq<Disambiguation.Neighbour>>>,
    lemmaData: Option<seq<seq<Disambiguation.Scored>>>,
    wiki: Option<seq<seq<WikiRecord>>>,
    scores: map<string, seq<ScoreSheet>>)

  const EmptyDir := SessionDir(None, None, None, None, map[])

  const OutputPath := "outputs"

  function OutputDir(timestamp: string): string { OutputPath + "/" + timestamp }

  function CachedImagePath(timestamp: string): string { OutputDir(timestamp) + "/cached_image.jpg" }

  function ScoresFile(modelName: string): string { "1-5_scores_VLM_" + modelName + ".pkl" }

  /** The four stages, in the order a fresh run calls them. */
  datatype Stage = Retrieve | Disambiguate | FetchWiki | Score

  const AllStages: seq<Stage> := [Retrieve, Disambiguate, FetchWiki, Score]

  /** What can be raised out of a request: a stage's own exception, a missing
      pickle, an index into an empty list, a missing dictionary key. */
  datatype Fault = StageFailed(stage: Stage, message: string) | FileNotFound(path: string) | IndexError | KeyError(key: string)

  /** The external collaborators: each stage reads and writes the session
      directory and may raise; scoring also takes the cultures, the wiki mode
      and the model name; `imageHash` is `hash(image.tobytes())`. */
  datatype World = World(
    processImages: SessionDir -> Result<SessionDir, string>,
    lemmaMatch: SessionDir -> Result<SessionDir, string>,
    wikiRetrieval: SessionDir -> Result<SessionDir, string>,
    cultureScores: (SessionDir, seq<string>, bool, string) -> Result<SessionDir, string>,
    imageHash: Image -> int)

  /** One culture row of the response. */
  datatype CultureScore = CultureScore(culture: string, score: real, reasoning: string)

  /** One Wikipedia row of the response. */
  datatype WikiPageRow = WikiPageRow(title: string, url: string, rank: int, score: real)

  /** What `_read_results` returns. */
  datatype Results = Results(scores: seq<CultureScore>, wikipediaPages: seq<WikiPageRow>, matchedEntity: string)

  /** `results` with `session_id` added. */
  datatype Response = Response(results: Results, sessionId: string)

  /** One entry of the session cache. */
  datatype CacheEntry = CacheEntry(outputDir: string, timestamp: string, imagePath: string, imageHash: int)

  // ---------------------------------------------------------------------------
  // _read_results
  // ---------------------------------------------------------------------------

  const NoReasoning := "No reasoning provided"

  const WikiUrlPrefix := "https://en.wikipedia.org/wiki/"

  const MaxWikiRows := 10

  /** `reasoning_data.get(culture, "No reasoning provided")`. */
  function ReasoningFor(reasoning: map<string, string>, culture: string): string
  {
    if culture in reasoning then reasoning[culture] else NoReasoning
  }

  /** The culture rows: one per scored culture, in order; None scores are skipped. */
  function ScoreRows(values: seq<(string, Option<real>)>, reasoning: map<string, string>): seq<CultureScore>
  {
    if values == [] then []
    else
      var last := values[|values| - 1];
      ScoreRows(values[..|values| - 1], reasoning) +
      (if last.1.Some? then [CultureScore(last.0, last.1.value, ReasoningFor(reasoning, last.0))] else [])
  }

  /** The rows of a concatenation are the rows of each part, in order: with
      `ScoreRowsOne`, this pins `ScoreRows` down as the in-order filter over
      the culture scores. */
  lemma {:induction false} ScoreRowsAppend(a: seq<(string, Option<real>)>, b: seq<(string, Option<real>)>,
                                           reasoning: map<string, string>)
    ensures ScoreRows(a + b, reasoning) == ScoreRows(a, reasoning) + ScoreRows(b, reasoning)
    decreases |b|
  {
    if b == [] {
      assert a + b == a;
    } else {
      var n := |b| - 1;
      var v := b[n];
      var tail := if v.1.Some? then [CultureScore(v.0, v.1.value, ReasoningFor(reasoning, v.0))] else [];
      calc {
        ScoreRows(a + b, reasoning);
        { assert a + b == (a + b[..n]) + [v]; }
        ScoreRows((a + b[..n]) + [v], reasoning);
        { ScoreRowsSnoc(a + b[..n], v, reasoning); }
        ScoreRows(a + b[..n], reasoning) + tail;
        { ScoreRowsAppend(a, b[..n], reasoning); }
        ScoreRows(a, reasoning) + ScoreRows(b[..n], reasoning) + tail;
        { ScoreRowsSnoc(b[..n], v, reasoning); assert b[..n] + [v] == b; }
        ScoreRows(a, reasoning) + ScoreRows(b, reasoning);
      }
    }
  }

  lemma ScoreRowsSnoc(values: seq<(string, Option<real>)>, v: (string, Option<real>), reasoning: map<string, string>)
    ensures ScoreRows(values + [v], reasoning) == ScoreRows(values, reasoning) +
      (if v.1.Some? then [CultureScore(v.0, v.1.value, ReasoningFor(reasoning, v.0))] else [])
  {
    assert (values + [v])[..|values|] == values;
  }

  /** One culture gives one row when it has a score and none otherwise. */
  lemma ScoreRowsOne(v: (string, Option<real>), reasoning: map<string, string>)
    ensures ScoreRows([v], reasoning) ==
      if v.1.Some? then [CultureScore(v.0, v.1.value, ReasoningFor(reasoning, v.0))] else []
  {
    assert [v][..0] == [];
  }

  /** Every row comes from a culture that has a score, with its reasoning or the default. */
  lemma {:induction false} ScoreRowsSound(values: seq<(string, Option<real>)>, reasoning: map<string, string>, row: CultureScore)
    requires row in ScoreRows(values, reasoning)
    ensures exists i :: 0 <= i < |values| && values[i].0 == row.culture && values[i].1 == Some(row.score) &&
                        row.reasoning == ReasoningFor(reasoning, row.culture)
  {
    var n := |values| - 1;
    if row !in ScoreRows(values[..n], reasoning) {
      assert values[n].0 == row.culture;
    } else {
      ScoreRowsSound(values[..n], reasoning, row);
      var i :| 0 <= i < n && values[..n][i].0 == row.culture && values[..n][i].1 == Some(row.score) &&
               row.reasoning == ReasoningFor(reasoning, row.culture);
      assert values[i] == values[..n][i];
    }
  }

  /** Every culture that has a score gets its row. */
  lemma {:induction false} ScoreRowsComplete(values: seq<(string, Option<real>)>, reasoning: map<string, string>, i: nat)
    requires i < |values| && values[i].1.Some?
    ensures CultureScore(values[i].0, values[i].1.value, ReasoningFor(reasoning, values[i].0)) in ScoreRows(values, reasoning)
  {
    var n := |values| - 1;
    if i < n {
      assert values[..n][i] == values[i];
      ScoreRowsComplete(values[..n], reasoning, i);
    }
  }

  /** `wiki_data[0][:10]`. */
  function Top(pages: seq<WikiRecord>): (r: seq<WikiRecord>)
    ensures |r| <= MaxWikiRows && |r| <= |pages| && r == pages[..|r|]
    ensures |pages| >= MaxWikiRows ==> |r| == MaxWikiRows
    ensures |pages| < MaxWikiRows ==> r == pages
  {
    if |pages| <= MaxWikiRows then pages else pages[..MaxWikiRows]
  }

  /** `page and 'title' in page` (a dictionary holding a key is non-empty). */
  predicate Titled(page: WikiRecord) { "title" in page }

  predicate AnyTitled(pages: seq<WikiRecord>)
  {
    exists i :: 0 <= i < |pages| && Titled(pages[i])
  }

  function WikiUrl(title: string): string
  {
    WikiUrlPrefix + ReplaceChar(title, ' ', '_')
  }

  /** The row for the titled page at position `idx`: rank `idx + 1`, and the
      lemma score at the same position, or 0.0 beyond the lemma list. */
  function WikiRow(page: WikiRecord, idx: nat, lemmaScores: seq<Disambiguation.Scored>): WikiPageRow
    requires Titled(page)
  {
    WikiPageRow(page["title"], WikiUrl(page["title"]), idx + 1, if idx < |lemmaScores| then lemmaScores[idx].score else 0.0)
  }

  /** The Wikipedia rows: one per titled page, in page order. */
  function WikiRows(pages: seq<WikiRecord>, lemmaScores: seq<Disambiguation.Scored>): (r: seq<WikiPageRow>)
    ensures |r| <= |pages|
  {
    if pages == [] then []
    else
      var n := |pages| - 1;
      WikiRows(pages[..n], lemmaScores) + (if Titled(pages[n]) then [WikiRow(pages[n], n, lemmaScores)] else [])
  }

  /** `row` is the row of the titled page at position `row.rank - 1`. */
  predicate RowOf(row: WikiPageRow, pages: seq<WikiRecord>, lemmaScores: seq<Disambiguation.Scored>)
  {
    1 <= row.rank <= |pages| && Titled(pages[row.rank - 1]) && row == WikiRow(pages[row.rank - 1], row.rank - 1, lemmaScores)
  }

  predicate RanksIncrease(rows: seq<WikiPageRow>)
  {
    forall k, l :: 0 <= k < l < |rows| ==> rows[k].rank < rows[l].rank
  }

  /** Each row is the row of a titled page, and ranks strictly increase. */
  lemma {:induction false} WikiRowsSound(pages: seq<WikiRecord>, lemmaScores: seq<Disambiguation.Scored>)
    ensures forall k :: 0 <= k < |WikiRows(pages, lemmaScores)| ==> RowOf(WikiRows(pages, lemmaScores)[k], pages, lemmaScores)
    ensures RanksIncrease(WikiRows(pages, lemmaScores))
  {
    if pages != [] {
      var n := |pages| - 1;
      WikiRowsSound(pages[..n], lemmaScores);
      var r := WikiRows(pages, lemmaScores);
      var rest := WikiRows(pages[..n], lemmaScores);
      assert r[..|rest|] == rest;
      forall k | 0 <= k < |rest|
        ensures RowOf(r[k], pages, lemmaScores) && r[k].rank <= n
      {
        assert r[k] == rest[k];
        assert RowOf(rest[k], pages[..n], lemmaScores);
        assert pages[..n][rest[k].rank - 1] == pages[rest[k].rank - 1];
      }
    }
  }

  /** Each titled page has its row, with rank its position plus one. */
  lemma {:induction false} WikiRowsComplete(pages: seq<WikiRecord>, lemmaScores: seq<Disambiguation.Scored>, idx: nat)
    requires idx < |pages| && Titled(pages[idx])
    ensures WikiRow(pages[idx], idx, lemmaScores) in WikiRows(pages, lemmaScores)
  {
    var n := |pages| - 1;
    if idx < n {
      assert pages[..n][idx] == pages[idx];
      WikiRowsComplete(pages[..n], lemmaScores, idx);
    }
  }

  /** `wiki_data[0][0]['title'] if wiki_data[0] and wiki_data[0][0] else "Unknown"`. */
  function MatchedEntity(group: seq<WikiRecord>): (r: Result<string, Fault>)
    ensures group == [] || group[0] == map[] ==> r == Ok("Unknown")
    ensures group != [] && group[0] != map[] && Titled(group[0]) ==> r == Ok(group[0]["title"])
    ensures r.Err? <==> group != [] && group[0] != map[] && !Titled(group[0])
    ensures r.Err? ==> r.error == KeyError("title")
  {
    if group != [] && group[0] != map[] then
      if "title" in group[0] then Ok(group[0]["title"]) else Err(KeyError("title"))
    else Ok("Unknown")
  }

  /** The result of `_read_results` on a directory: files are opened in the
      order wiki, lemma, scores; then `scores_data[0]['values']` is read, then
      `wiki_data[0]`, then `lemma_data[0]` (only for a titled page), then the
      matched entity. */
  function ReadResultsOf(dir: SessionDir, timestamp: string, modelName: string): Result<Results, Fault>
  {
    if dir.wiki.None? then Err(FileNotFound(OutputDir(timestamp) + "/WIKI.pkl"))
    else if dir.lemmaData.None? then Err(FileNotFound(OutputDir(timestamp) + "/lemma_match.pkl"))
    else if modelName !in dir.scores then Err(FileNotFound(OutputDir(timestamp) + "/" + ScoresFile(modelName)))
    else
      var wiki := dir.wiki.value;
      var lemmaData := dir.lemmaData.value;
      var sheets := dir.scores[modelName];
      if sheets == [] then Err(IndexError)
      else if sheets[0].values.None? then Err(KeyError("values"))
      else if wiki == [] then Err(IndexError)
      else
        var top := Top(wiki[0]);
        if AnyTitled(top) && lemmaData == [] then Err(IndexError)
        else
          var rows := WikiRows(top, if lemmaData == [] then [] else lemmaData[0]);
          match MatchedEntity(wiki[0])
          case Err(e) => Err(e)
          case Ok(m) => Ok(Results(ScoreRows(sheets[0].values.value, sheets[0].reasoning), rows, m))
  }

  /** What a successful read promises: no more than ten Wikipedia rows, each
      the row of a titled page among the first ten with the lemma score at its
      position, ranks strictly increasing; every titled page among the first
      ten has its row; and every culture row carries a score the model gave. */
  lemma ReadResultsShape(dir: SessionDir, timestamp: string, modelName: string)
    requires ReadResultsOf(dir, timestamp, modelName).Ok?
    ensures var res := ReadResultsOf(dir, timestamp, modelName).value;
      var top := Top(dir.wiki.value[0]);
      var lemmaScores := if dir.lemmaData.value == [] then [] else dir.lemmaData.value[0];
      |res.wikipediaPages| <= MaxWikiRows &&
      (forall k :: 0 <= k < |res.wikipediaPages| ==> RowOf(res.wikipediaPages[k], top, lemmaScores)) &&
      RanksIncrease(res.wikipediaPages) &&
      (forall idx :: 0 <= idx < |top| && Titled(top[idx]) ==> WikiRow(top[idx], idx, lemmaScores) in res.wikipediaPages)
    ensures var res := ReadResultsOf(dir, timestamp, modelName).value;
      var values := dir.scores[modelName][0].values.value;
      forall row :: row in res.scores ==> exists i :: 0 <= i < |values| && values[i].0 == row.culture && values[i].1 == Some(row.score)
    ensures var res := ReadResultsOf(dir, timestamp, modelName).value;
      var group := dir.wiki.value[0];
      res.matchedEntity == if group != [] && group[0] != map[] then group[0]["title"] else "Unknown"
  {
    var top := Top(dir.wiki.value[0]);
    var scores := if dir.lemmaData.value == [] then [] else dir.lemmaData.value[0];
    WikiRowsSound(top, scores);
    if exists idx :: 0 <= idx < |top| && Titled(top[idx]) {
      assert dir.lemmaData.value != [];
      forall idx | 0 <= idx < |top| && Titled(top[idx])
        ensures WikiRow(top[idx], idx, scores) in WikiRows(top, scores)
      {
        WikiRowsComplete(top, scores, idx);
      }
    }
    var sheet := dir.scores[modelName][0];
    forall row | row in ScoreRows(sheet.values.value, sheet.reasoning)
      ensures exists i :: 0 <= i < |sheet.values.value| && sheet.values.value[i].0 == row.culture && sheet.values.value[i].1 == Some(row.score)
    {
      ScoreRowsSound(sheet.values.value, sheet.reasoning, row);
    }
  }

  // ---------------------------------------------------------------------------
  // Runs
  // ---------------------------------------------------------------------------

  /** The stages a run called, the directory they left, and the results or the fault. */
  datatype RunOutcome = RunOutcome(stages: seq<Stage>, dir: SessionDir, result: Result<Results, Fault>)

  /** The four stages in order on the fresh directory: the stages called and
      the directory the last one leaves, or the fault of the first that raises. */
  function RunStages(world: World, d0: SessionDir, cultures: seq<string>, useMulti: bool, modelName: string)
    : (o: (seq<Stage>, Result<SessionDir, Fault>))
    ensures 1 <= |o.0| <= |AllStages| && o.0 == AllStages[..|o.0|]
    ensures o.1.Ok? ==> o.0 == AllStages
    ensures o.1.Err? ==> o.1.error.StageFailed? && o.1.error.stage == o.0[|o.0| - 1]
  {
    match world.processImages(d0)
    case Err(e) => ([Retrieve], Err(StageFailed(Retrieve, e)))
    case Ok(d1) =>
      match world.lemmaMatch(d1)
      case Err(e) => ([Retrieve, Disambiguate], Err(StageFailed(Disambiguate, e)))
      case Ok(d2) =>
        match world.wikiRetrieval(d2)
        case Err(e) => ([Retrieve, Disambiguate, FetchWiki], Err(StageFailed(FetchWiki, e)))
        case Ok(d3) =>
          match world.cultureScores(d3, cultures, useMulti, modelName)
          case Err(e) => (AllStages, Err(StageFailed(Score, e)))
          case Ok(d4) => (AllStages, Ok(d4))
  }

  /** A fresh run: the stages, then the result read on the directory they leave. */
  function FreshRun(world: World, d0: SessionDir, cultures: seq<string>, useMulti: bool, modelName: string,
                    timestamp: string): (o: RunOutcome)
    ensures 1 <= |o.stages| <= |AllStages| && o.stages == AllStages[..|o.stages|]
    ensures o.result.Ok? ==> o.stages == AllStages && o.result == ReadResultsOf(o.dir, timestamp, modelName)
    ensures |o.stages| < |AllStages| ==> o.result.Err? && o.result.error.StageFailed? && o.result.error.stage == o.stages[|o.stages| - 1]
  {
    var (stages, last) := RunStages(world, d0, cultures, useMulti, modelName);
    match last
    case Err(e) => RunOutcome(stages, d0, Err(e))
    case Ok(d4) => RunOutcome(stages, d4, ReadResultsOf(d4, timestamp, modelName))
  }

  /** Scoring alone on a cached session's directory, then the result read. */
  function CachedRun(world: World, d: SessionDir, cultures: seq<string>, useMulti: bool, modelName: string,
                     timestamp: string): (o: RunOutcome)
    ensures o.stages == [Score]
    ensures o.result.Ok? ==> world.cultureScores(d, cultures, useMulti, modelName) == Ok(o.dir) &&
                             o.result == ReadResultsOf(o.dir, timestamp, modelName)
    ensures world.cultureScores(d, cultures, useMulti, modelName).Err? ==>
              o.result == Err(StageFailed(Score, world.cultureScores(d, cultures, useMulti, modelName).error))
  {
    match world.cultureScores(d, cultures, useMulti, modelName)
    case Err(e) => RunOutcome([Score], d, Err(StageFailed(Score, e)))
    case Ok(d1) => RunOutcome([Score], d1, ReadResultsOf(d1, timestamp, modelName))
  }

  /** `results['session_id'] = session_id`, or the fault passed on. */
  function Respond(result: Result<Results, Fault>, sessionId: string): (r: Result<Response, Fault>)
    ensures r.Ok? <==> result.Ok?
    ensures r.Ok? ==> r.value.results == result.value && r.value.sessionId == sessionId
    ensures r.Err? ==> r.error == result.error
  {
    match result
    case Ok(res) => Ok(Response(res, sessionId))
    case Err(e) => Err(e)
  }

  /** `session_id and session_id in self.cache`. */
  predicate Hit(cache: map<string, CacheEntry>, sessionId: Option<string>)
  {
    sessionId.Some? && sessionId.value != "" && sessionId.value in cache
  }

  /** The directory `outputs/<timestamp>`; a missing directory holds no files. */
  function DirAt(dirs: map<string, SessionDir>, timestamp: string): SessionDir
  {
    if timestamp in dirs then dirs[timestamp] else EmptyDir
  }

  /** `mkdir(parents=True, exist_ok=True)` then `image.save(cached_image.jpg)`. */
  function FreshDir(dirs: map<string, SessionDir>, timestamp: string, image: Image): SessionDir
  {
    DirAt(dirs, timestamp).(image := Some(image))
  }

  /** The entry a successful fresh run registers. */
  function EntryFor(timestamp: string, hash: int): CacheEntry
  {
    CacheEntry(OutputDir(timestamp), timestamp, CachedImagePath(timestamp), hash)
  }

  /** Every cached session is keyed by its own timestamp and points at that
      timestamp's output directory and cached image. */
  predicate ValidCache(cache: map<string, CacheEntry>)
  {
    forall id :: id in cache ==> cache[id] == EntryFor(id, cache[id].imageHash)
  }

  /** What one call of `process_image` answers, and the cache, the
      directories and the stage log it leaves behind. */
  datatype Step = Step(answer: Result<Response, Fault>, cache: map<string, CacheEntry>,
                       dirs: map<string, SessionDir>, log: seq<Stage>)

  /** `process_image` on a given state. A request naming a cached session
      reruns scoring alone in that session's directory, whatever the image,
      and leaves the cache as it was. Any other request, including one naming
      an unknown session, is a fresh run in `outputs/<now>`: the stages are
      called in order until one raises; on success the session `now` is
      registered and returned; on any failure the directory is removed, the
      cache is left as it was and the fault is passed on. */
  function Process(world: World, cache: map<string, CacheEntry>, dirs: map<string, SessionDir>, log: seq<Stage>,
                   image: Image, cultures: seq<string>, useMulti: bool, modelName: string,
                   sessionId: Option<string>, now: string): (s: Step)
    ensures ValidCache(cache) ==> ValidCache(s.cache)
    ensures ValidCache(cache) && Hit(cache, sessionId) ==>
      s.answer == Respond(CachedRun(world, DirAt(dirs, sessionId.value), cultures, useMulti, modelName,
                                    sessionId.value).result, sessionId.value) &&
      dirs.Keys <= s.dirs.Keys
    ensures Hit(cache, sessionId) ==>
      s.cache == cache && s.log == log + [Score] &&
      (s.answer.Ok? ==> s.answer.value.sessionId == sessionId.value)
    ensures !Hit(cache, sessionId) ==>
      |log| < |s.log| <= |log| + |AllStages| && s.log == log + AllStages[..|s.log| - |log|]
    ensures !Hit(cache, sessionId) && s.answer.Ok? ==>
      s.log == log + AllStages && s.answer.value.sessionId == now &&
      s.cache == cache[now := EntryFor(now, world.imageHash(image))] && now in s.dirs &&
      s.dirs - {now} == dirs - {now}
    ensures !Hit(cache, sessionId) && s.answer.Err? ==> s.cache == cache && s.dirs == dirs - {now}
  {
    if Hit(cache, sessionId) then CachedStep(world, cache, dirs, log, cultures, useMulti, modelName, sessionId.value)
    else FreshStep(world, cache, dirs, log, image, cultures, useMulti, modelName, now)
  }

  /** The cache-hit branch: scoring alone in the directory of the session's
      timestamp, which a valid cache keys by the session id itself. */
  function CachedStep(world: World, cache: map<string, CacheEntry>, dirs: map<string, SessionDir>, log: seq<Stage>,
                      cultures: seq<string>, useMulti: bool, modelName: string, id: string): (s: Step)
    requires id in cache
    ensures s.cache == cache && s.log == log + [Score] && dirs.Keys <= s.dirs.Keys
    ensures s.answer.Ok? ==> s.answer.value.sessionId == id
    ensures ValidCache(cache) ==>
      s.answer == Respond(CachedRun(world, DirAt(dirs, id), cultures, useMulti, modelName, id).result, id)
  {
    var ts := cache[id].timestamp;
    var d := DirAt(dirs, ts);
    var run := CachedRun(world, d, cultures, useMulti, modelName, ts);
    assert ValidCache(cache) ==> ts == id by {
      if ValidCache(cache) { assert cache[id] == EntryFor(id, cache[id].imageHash); }
    }
    Step(Respond(run.result, id), cache,
         if world.cultureScores(d, cultures, useMulti, modelName).Ok? then dirs[ts := run.dir] else dirs,
         log + [Score])
  }

  /** The fresh-run branch: the stages in `outputs/<now>`, then registration
      on success or removal of the directory on failure. */
  function FreshStep(world: World, cache: map<string, CacheEntry>, dirs: map<string, SessionDir>, log: seq<Stage>,
                     image: Image, cultures: seq<string>, useMulti: bool, modelName: string, now: string): (s: Step)
    ensures ValidCache(cache) ==> ValidCache(s.cache)
    ensures |log| < |s.log| <= |log| + |AllStages| && s.log == log + AllStages[..|s.log| - |log|]
    ensures s.answer.Ok? ==>
      s.log == log + AllStages && s.answer.value.sessionId == now &&
      s.cache == cache[now := EntryFor(now, world.imageHash(image))] && now in s.dirs &&
      s.dirs - {now} == dirs - {now}
    ensures s.answer.Err? ==> s.cache == cache && s.dirs == dirs - {now}
  {
    var run := FreshRun(world, FreshDir(dirs, now, image), cultures, useMulti, modelName, now);
    var r := Respond(run.result, now);
    assert r.Ok? ==> dirs[now := run.dir] - {now} == dirs - {now};
    Step(r, if r.Ok? then cache[now := EntryFor(now, world.imageHash(image))] else cache,
         if r.Ok? then dirs[now := run.dir] else dirs - {now}, log + run.stages)
  }


  /** On a cache hit the image is never looked at: any two images give the
      same answer and the same state. */
  lemma HitIgnoresImage(world: World, cache: map<string, CacheEntry>, dirs: map<string, SessionDir>, log: seq<Stage>,
                        image1: Image, image2: Image, cultures: seq<string>, useMulti: bool, modelName: string,
                        sessionId: Option<string>, now: string)
    requires Hit(cache, sessionId)
    ensures Process(world, cache, dirs, log, image1, cultures, useMulti, modelName, sessionId, now) ==
            Process(world, cache, dirs, log, image2, cultures, useMulti, modelName, sessionId, now)
  {
  }

  /** A session id that is empty or not in the cache is treated as no id at all. */
  lemma UnknownSessionIsFresh(world: World, cache: map<string, CacheEntry>, dirs: map<string, SessionDir>, log: seq<Stage>,
                              image: Image, cultures: seq<string>, useMulti: bool, modelName: string,
                              sessionId: string, now: string)
    requires sessionId == "" || sessionId !in cache
    ensures Process(world, cache, dirs, log, image, cultures, useMulti, modelName, Some(sessionId), now) ==
            Process(world, cache, dirs, log, image, cultures, useMulti, modelName, None, now)
  {
  }

  // ---------------------------------------------------------------------------
  // CAIREPipeline
  // ---------------------------------------------------------------------------

  class CAIREPipeline {
    /** `self.cache`: session id to the entry of its output directory. */
    var cache: map<string, CacheEntry>
    /** The output directories on disk, by timestamp. */
    var dirs: map<string, SessionDir>
    /** Every stage called so far, in call order. */
    var log: seq<Stage>

    predicate Valid()
      reads this
    {
      ValidCache(cache)
    }

    constructor(existing: map<string, SessionDir>)
      ensures Valid() && cache == map[] && dirs == existing && log == []
    {
      cache := map[];
      dirs := existing;
      log := [];
    }

    /** The culture loop of `_read_results`. */
    static method FormatScores(values: seq<(string, Option<real>)>, reasoningData: map<string, string>)
      returns (scoresResult: seq<CultureScore>)
      ensures scoresResult == ScoreRows(values, reasoningData)
    {
      scoresResult := [];
      for i := 0 to |values|
        invariant scoresResult == ScoreRows(values[..i], reasoningData)
      {
        assert values[..i + 1][..i] == values[..i];
        var (culture, score) := values[i];
        if score.Some? {
          scoresResult := scoresResult + [CultureScore(culture, score.value, ReasoningFor(reasoningData, culture))];
        } else {
          assert scoresResult + [] == scoresResult;
        }
      }
      assert values[..|values|] == values;
    }

    /** The Wikipedia loop of `_read_results` over `wiki_data[0][:10]`;
        `lemma_data[0]` is read at the first titled page. */
    static method FormatWikiPages(top: seq<WikiRecord>, lemmaData: seq<seq<Disambiguation.Scored>>)
      returns (r: Result<seq<WikiPageRow>, Fault>)
      ensures AnyTitled(top) && lemmaData == [] ==> r == Err(IndexError)
      ensures !(AnyTitled(top) && lemmaData == []) ==> r == Ok(WikiRows(top, if lemmaData == [] then [] else lemmaData[0]))
    {
      ghost var lemmaScores := if lemmaData == [] then [] else lemmaData[0];
      var wikiPages: seq<WikiPageRow> := [];
      for idx := 0 to |top|
        invariant wikiPages == WikiRows(top[..idx], lemmaScores)
        invariant lemmaData == [] ==> !AnyTitled(top[..idx])
      {
        assert top[..idx + 1][..idx] == top[..idx];
        assert top[..idx + 1][idx] == top[idx];
        var page := top[idx];
        if "title" in page {
          if lemmaData == [] {
            return Err(IndexError);
          }
          var matchScore := if idx < |lemmaData[0]| then lemmaData[0][idx].score else 0.0;
          wikiPages := wikiPages + [WikiPageRow(page["title"], WikiUrl(page["title"]), idx + 1, matchScore)];
        } else {
          assert wikiPages + [] == wikiPages;
        }
      }
      assert top[..|top|] == top;
      r := Ok(wikiPages);
    }

    /** `_read_results(args, model_name)` on `outputs/<timestamp>`. */
    method ReadResults(timestamp: string, modelName: string) returns (r: Result<Results, Fault>)
      ensures r == ReadResultsOf(DirAt(dirs, timestamp), timestamp, modelName)
    {
      var dir := DirAt(dirs, timestamp);
      if dir.wiki.None? {
        return Err(FileNotFound(OutputDir(timestamp) + "/WIKI.pkl"));
      }
      var wikiData := dir.wiki.value;
      if dir.lemmaData.None? {
        return Err(FileNotFound(OutputDir(timestamp) + "/lemma_match.pkl"));
      }
      var lemmaData := dir.lemmaData.value;
      if modelName !in dir.scores {
        return Err(FileNotFound(OutputDir(timestamp) + "/" + ScoresFile(modelName)));
      }
      var scoresData := dir.scores[modelName];
      if scoresData == [] {
        return Err(IndexError);
      }
      var reasoningData := scoresData[0].reasoning;
      if scoresData[0].values.None? {
        return Err(KeyError("values"));
      }
      var scoresResult := FormatScores(scoresData[0].values.value, reasoningData);
      if wikiData == [] {
        return Err(IndexError);
      }
      var wikiPages := FormatWikiPages(Top(wikiData[0]), lemmaData);
      if wikiPages.Err? {
        return Err(wikiPages.error);
      }
      var matched := MatchedEntity(wikiData[0]);
      if matched.Err? {
        return Err(matched.error);
      }
      r := Ok(Results(scoresResult, wikiPages.value, matched.value));
    }

    /** `_process_with_cache`: scoring on the cached session's directory, then
        the result read, answered under the supplied session id. The cache is
        not touched and no upstream stage runs. */
    method ProcessWithCache(world: World, cachedData: CacheEntry, cultures: seq<string>, useMulti: bool,
                            modelName: string, sessionId: string) returns (r: Result<Response, Fault>)
      requires Valid()
      modifies this
      ensures Valid()
      ensures cache == old(cache) && log == old(log) + [Score]
      ensures var d := DirAt(old(dirs), cachedData.timestamp);
        var run := CachedRun(world, d, cultures, useMulti, modelName, cachedData.timestamp);
        r == Respond(run.result, sessionId) &&
        dirs == if world.cultureScores(d, cultures, useMulti, modelName).Ok? then old(dirs)[cachedData.timestamp := run.dir] else old(dirs)
    {
      var timestamp := cachedData.timestamp;
      var dir := DirAt(dirs, timestamp);
      log := log + [Score];
      var scored := world.cultureScores(dir, cultures, useMulti, modelName);
      if scored.Err? {
        return Err(StageFailed(Score, scored.error));
      }
      dirs := dirs[timestamp := scored.value];
      var results := ReadResults(timestamp, modelName);
      if results.Err? {
        return Err(results.error);
      }
      r := Ok(Response(results.value, sessionId));
    }

    /** The fresh-run branch of `process_image` (its `try` block and cleanup). */
    method FreshProcess(world: World, image: Image, cultures: seq<string>, useMulti: bool, modelName: string,
                        now: string) returns (r: Result<Response, Fault>)
      requires Valid()
      modifies this
      ensures Valid()
      ensures var run := FreshRun(world, FreshDir(old(dirs), now, image), cultures, useMulti, modelName, now);
        log == old(log) + run.stages && r == Respond(run.result, now) &&
        (r.Ok? ==> cache == old(cache)[now := EntryFor(now, world.imageHash(image))] && dirs == old(dirs)[now := run.dir]) &&
        (r.Err? ==> cache == old(cache) && dirs == old(dirs) - {now})
    {
      // The stages write into `outputs/<now>`; only the directory they
      // leave behind, or its removal, is visible once the call returns.
      var timestamp := now;
      var dir := FreshDir(dirs, timestamp, image);
      var (stages, last) := RunStages(world, dir, cultures, useMulti, modelName);
      log := log + stages;
      if last.Err? {
        dirs := dirs - {timestamp};
        return Err(last.error);
      }
      ghost var before := dirs;
      dirs := dirs[timestamp := last.value];
      var results := ReadResults(timestamp, modelName);
      if results.Err? {
        dirs := dirs - {timestamp};
        assert dirs == before - {timestamp};
        return Err(results.error);
      }
      cache := cache[timestamp := EntryFor(timestamp, world.imageHash(image))];
      r := Ok(Response(results.value, timestamp));
    }

    /** `process_image`: the answer and the new state are those of `Process`. */
    method ProcessImage(world: World, image: Image, cultures: seq<string>, useMulti: bool, modelName: string,
                        sessionId: Option<string>, now: string) returns (r: Result<Response, Fault>)
      requires Valid()
      modifies this
      ensures Valid()
      ensures Step(r, cache, dirs, log) ==
              Process(world, old(cache), old(dirs), old(log), image, cultures, useMulti, modelName, sessionId, now)
    {
      if sessionId.Some? && sessionId.value != "" && sessionId.value in cache {
        r := ProcessWithCache(world, cache[sessionId.value], cultures, useMulti, modelName, sessionId.value);
        return;
      }
      r := FreshProcess(world, image, cultures, useMulti, modelName, now);
    }
  }
}
