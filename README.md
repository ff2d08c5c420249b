# CAIRE coordination logic in Dafny

CAIRE rates how culturally relevant an image is. It retrieves neighbouring
images and the candidate BabelNet synsets ("bids") they carry. It ranks those
bids against the image (lemma disambiguation) and fetches a Wikipedia page per
bid, with a fallback across languages. A vision-language model then scores
each requested culture from 1 to 5. A FastAPI server wraps the pipeline and
keeps a session cache, so another model or culture list can reuse the
upstream results.

This project models the coordination logic around those learned components
and proves its properties:

- **Pipeline** (`api_pipeline.dfy`): `CAIREPipeline` is a class.
  - Its fields are the session `cache`, the output directories on disk, and a log of every stage called.
  - A cache hit runs scoring alone.
  - A fresh run calls the four stages in order. It registers the session only after every stage and the result read succeed. On failure it removes its directory.
  - `_read_results` is modelled as a formatter: each loop is a method proved equal to a specification function.
- **FetchWikipedia** (`fetch_wikipedia.dfy`): page acceptance, the English and non-English first-match searches, the capped `process_group_bids` loop, and the order-preserving `wiki_retrieval`.
- **Disambiguation** (`disambiguation.dfy`): `lemma_match` with its methods:
  - pool collection, de-duplication, batches of 64, per-batch scoring and the global sort;
  - the per-image `try` that skips an image whose lookups fail.
- **Server** (`server.dfy`): culture parsing, the ordered 400 checks of both endpoints, the mapping of other exceptions to a 500, and the two handlers.
- **Utils** (`utils.dfy`): the image-file filter and directory walk, the `--target_list` parser, `resolve_target_list`, `resolve_image_paths`, and the `log_run_metadata` row.
- **Text** (`text.dfy`): Python's `split`, `strip`, `join`, `lower`, `startswith`/`endswith`, and string `sorted`, with the lemmas the other modules rely on.

Collaborators are function-valued parameters: the four stages, the encyclopedia,
the similarity function, the file system, the image decoder and the list
loader. The stages, the encyclopedia lookups, the decoder and the loader can
fail; a raised exception is a `Result` error. The similarity function and the
file-system queries (`isDir`, `isFile`, `walk`) are total. The clock (`now`)
is also a parameter.

The model follows the code in six places a reader might not expect:

- An `EN` tag is matched case-sensitively.
- The non-English search lowercases the code before the lookup.
- The extension test of `get_image_paths` is a bare suffix test, so `photojpg` passes.
- `lemma_match` tests its suffixes case-sensitively, and its list differs (`.JPEG`, `.png`, `.jpg`, `.jpeg`).
- A cache hit never compares the image with the stored hash.
- `_read_results` gives the idx-th fetched page the score of the idx-th ranked bid. `process_group_bids` appends a page only for a bid that resolves, so after the first unresolved bid every later page carries another bid's score. `WikiRow` reproduces this pairing by position.

## Model

| member | source | states |
|---|---|---|
| Pipeline.Process | api/api_pipeline.py:36-144 | A cache hit (non-empty id in the cache) logs one `Score` call, leaves the cache unchanged, removes no directory and, on a valid cache, answers with the scoring run on the directory `outputs/<id>` under the supplied id. Any other request, an unknown id included, is a fresh run: stages are logged in order up to the first failure. On success all four ran, the entry of `now` is written, its directory kept and `now` returned. On failure the cache is unchanged and `outputs/<now>` is removed. A valid cache stays valid. |
| Pipeline.HitIgnoresImage | api/api_pipeline.py:50-56 | On a cache hit the image plays no part: answer and new state are the same for any image. |
| Pipeline.UnknownSessionIsFresh | api/api_pipeline.py:50-58 | An empty or unknown session id behaves exactly as no id. |
| Pipeline.CAIREPipeline.ProcessImage | api/api_pipeline.py:36-121 | The answer, cache, directories and stage log after the call are those `Process` gives for the state before it. `Valid()` is preserved. |
| Pipeline.CAIREPipeline.FreshProcess | api/api_pipeline.py:59-121 | A fresh run: the stages on the new directory holding the saved image. The cache entry is written only after the stages and the result read all succeed. On any failure the directory is removed and the fault passed on. |
| Pipeline.CAIREPipeline.ProcessWithCache | api/api_pipeline.py:123-144 | Logs exactly one `Score` call and leaves the cache untouched, so `Valid()` is kept. It answers under the given session id, with the result read from the rescored directory. |
| Pipeline.ReadResultsOf | api/api_pipeline.py:146-201 | `_read_results` on a directory value: FileNotFoundError for the first missing file in the order wiki, lemma, scores, then the index and key errors in the order the source reads. |
| Pipeline.CAIREPipeline.ReadResults | api/api_pipeline.py:146-201 | Equals `ReadResultsOf` on the timestamp's directory: the file and index errors come in the source's evaluation order. |
| Pipeline.CAIREPipeline.FormatScores | api/api_pipeline.py:167-178 | The culture loop builds exactly `ScoreRows`. |
| Pipeline.CAIREPipeline.FormatWikiPages | api/api_pipeline.py:181-192 | The page loop builds exactly `WikiRows`. It raises IndexError only when a titled page exists and the lemma list is empty. |
| Pipeline.CAIREPipeline.constructor | api/api_pipeline.py:25-28 | The cache starts empty and valid. |
| Pipeline.ReadResultsShape | api/api_pipeline.py:166-201 | A successful read has at most 10 wiki rows. Each row is the row of a titled page among the first ten, with the lemma score at its index or 0.0. Ranks strictly increase, and every titled page among the first ten has its row. Every culture row carries a score the model gave. The matched entity is the first page's title, or "Unknown". |
| Pipeline.ScoreRowsAppend | api/api_pipeline.py:169-178 | The rows of a concatenation are the rows of each part, in order: culture order and count are kept. |
| Pipeline.ScoreRowsOne | api/api_pipeline.py:169-178 | One culture gives its row when its score is not None, and no row otherwise. |
| Pipeline.ScoreRowsSound | api/api_pipeline.py:169-178 | Every culture row comes from a culture with a non-None score, with its reasoning or "No reasoning provided". |
| Pipeline.ScoreRowsComplete | api/api_pipeline.py:169-178 | Every culture with a score gets its row. |
| Pipeline.WikiRowsSound | api/api_pipeline.py:182-192 | Every wiki row is that of a titled page: rank equals index + 1, and the URL is the prefix plus the title with spaces replaced by `_`. Ranks strictly increase. |
| Pipeline.WikiRowsComplete | api/api_pipeline.py:182-192 | Every titled page yields its row. |
| Pipeline.Top | api/api_pipeline.py:182 | `[:10]`: a prefix of at most ten pages, all of them when fewer. |
| Pipeline.MatchedEntity | api/api_pipeline.py:195 | The first page's title when the list and its first record are non-empty, "Unknown" otherwise. KeyError exactly when the first record is non-empty and has no title. |
| Pipeline.RunStages | api/api_pipeline.py:80-91 | The stages called form a non-empty prefix of retrieval, lemma match, wiki retrieval, scoring. All four run on success. A failure is attributed to the last stage called. |
| Pipeline.FreshRun | api/api_pipeline.py:80-95 | A fresh run reads results only when all four stages ran. An early stop reports the stage that raised. |
| Pipeline.CachedRun | api/api_pipeline.py:135-141 | Only scoring is called. Its failure is the run's failure; otherwise the result is read from the directory it left. |
| Pipeline.Respond | api/api_pipeline.py:109-112 | `session_id` is added to the results, and a fault passes through unchanged. |
| Pipeline.Hit | api/api_pipeline.py:50 | `session_id and session_id in self.cache`: a non-empty id that the cache holds. |
| FetchWikipedia.ToEng | src/scripts/fetch_wikipedia.py:19-31 | A title exactly when the page exists, the language is not "en" and an "en" link exists; the title is that link. |
| FetchWikipedia.GetWikiPage | src/scripts/fetch_wikipedia.py:33-51 | A page exactly when the fetch succeeded and its text is longer than 10 characters. |
| FetchWikipedia.FirstMatch | src/scripts/fetch_wikipedia.py:53-69 | None exactly when every element fails, otherwise the result of the first element that succeeds. |
| FetchWikipedia.FirstMatchAppend | src/scripts/fetch_wikipedia.py:78 | Searching `a + b` searches `a`, then `b`. |
| FetchWikipedia.GetEnPages | src/scripts/fetch_wikipedia.py:53-59 | The first accepted page of an `EN` reference, in list order. None exactly when no `EN` reference yields one. |
| FetchWikipedia.GetNonEnPages | src/scripts/fetch_wikipedia.py:61-69 | The first accepted page reached through a non-empty translation of a non-`EN` reference, with the lowercased code. None exactly when no attempt succeeds. |
| FetchWikipedia.NonEnSkipsEnglish | src/scripts/fetch_wikipedia.py:63 | An `EN` reference never takes part in the non-English search. |
| FetchWikipedia.DirectBeforeRedirect | src/scripts/fetch_wikipedia.py:77-78 | Both searches try all direct references before any redirect reference. |
| FetchWikipedia.ResolveBid | src/scripts/fetch_wikipedia.py:80-87 | The English search result when it succeeds, otherwise the non-English one. A page found is always accepted. |
| FetchWikipedia.SuccessesAccepted | src/scripts/fetch_wikipedia.py:80-87 | Every collected page has text longer than 10 characters. |
| FetchWikipedia.ProcessGroupBids | src/scripts/fetch_wikipedia.py:71-89 | The loop with its cap `break` and KeyError computes `GroupPages`. |
| FetchWikipedia.GroupPagesShape | src/scripts/fetch_wikipedia.py:71-89 | A group has at most `max(0, max_docs)` pages, at most one per bid. They are the successes of a prefix of the bids, in bid order. When bids were left unvisited, the cap was reached. |
| FetchWikipedia.GroupFromShape | src/scripts/fetch_wikipedia.py:73-88 | From any point of the loop: the pages are those collected so far plus the successes of the bids visited, within the cap. |
| FetchWikipedia.GroupFromError | src/scripts/fetch_wikipedia.py:77 | A failure names a bid of the group that is missing from the dictionary. When every bid is present there is no failure. |
| FetchWikipedia.MissingFirstBidRaises | src/scripts/fetch_wikipedia.py:73-77 | With a positive cap, a missing first bid raises KeyError. |
| FetchWikipedia.BidGroups | src/scripts/fetch_wikipedia.py:98 | One bid list per lemma-result entry, holding that entry's bids in order. |
| FetchWikipedia.WikiRetrieval | src/scripts/fetch_wikipedia.py:91-107 | It succeeds exactly when every group does, with one group per lemma entry, in input order. A failure is that of the first failing group. |
| Disambiguation.CollectBids | src/scripts/disambiguation.py:36-39 | The loop builds the concatenation of every neighbour's bids. |
| Disambiguation.AllBidsMembers | src/scripts/disambiguation.py:36-39 | A bid is in the pool exactly when some neighbour lists it. |
| Disambiguation.Dedupe | src/scripts/disambiguation.py:41 | `list(set(bids))`: no duplicates, and the same members as the bids. |
| Disambiguation.NoDupCard | src/scripts/disambiguation.py:41 | A duplicate-free list is as long as its set. |
| Disambiguation.NumBatchesIsCeiling | src/scripts/disambiguation.py:46 | The batch count is the ceiling of n/64: the batches cover the pool, the last one is non-empty, and an empty pool has zero batches. |
| Disambiguation.BatchesPartition | src/scripts/disambiguation.py:45-49 | Concatenating the batches in order gives the pool back. Element i lies in batch i/64 at position i%64. |
| Disambiguation.BidInOneBatch | src/scripts/disambiguation.py:45-49 | In a duplicate-free pool, each bid lies in exactly one batch. |
| Disambiguation.SortDesc | src/scripts/disambiguation.py:68 | The sort by descending score is a permutation ordered highest first. |
| Disambiguation.ScoreBatches | src/scripts/disambiguation.py:45-63 | The batch loop stops exactly when some pool bid has no embedding. Otherwise its output is a permutation of the pool, each bid scored once. |
| Disambiguation.RankingFromPermutation | src/scripts/disambiguation.py:52-68 | A sorted permutation of the scored, duplicate-free pool has one record per distinct candidate bid, no bid twice, sorted descending, each scored by the similarity. |
| Disambiguation.RankImage | src/scripts/disambiguation.py:32-68 | The per-image result is absent exactly when a candidate bid lacks an embedding. Otherwise it is a ranking of the candidate bids. |
| Disambiguation.EmptyPoolGivesEmptyRanking | src/scripts/disambiguation.py:46-70 | No candidate bids give an empty entry. |
| Disambiguation.HasLemmaSuffix | src/scripts/disambiguation.py:30 | The case-sensitive suffix test: `.JPEG`, `.png`, `.jpg` or `.jpeg`. |
| Disambiguation.Rankable | src/scripts/disambiguation.py:28-51 | The image passes the suffix test and none of its lookups raises: its embedding, its retrieval entry and the embedding of every candidate bid exist. |
| Disambiguation.TryImage | src/scripts/disambiguation.py:28-73 | An entry exactly when the image is rankable: the suffix is accepted, the embedding and retrieval entry exist, and every bid has an embedding. |
| Disambiguation.RankedIndices | src/scripts/disambiguation.py:27-73 | The images that produce entries, in increasing order, each one rankable. |
| Disambiguation.RankableImagesAreRanked | src/scripts/disambiguation.py:27-73 | Every rankable image produces an entry. |
| Disambiguation.LemmaMatch | src/scripts/disambiguation.py:11-73 | One entry per rankable image, in image order, each a ranking of that image's candidates. Other images contribute nothing. |
| Server.NonBlank | api/server.py:120 | Keeps exactly the non-empty items, never more items than given. A list without empty items is unchanged. |
| Server.NonBlankAppend | api/server.py:120 | Filtering a concatenation filters each part and keeps the parts in order, so order and repetitions are kept. |
| Server.NonBlankOne | api/server.py:120 | One item is kept exactly when it is non-empty. |
| Server.ParseCultures | api/server.py:120 | At most one culture per comma-separated piece, none of them empty. |
| Server.CulturesAppend | api/server.py:120 | The cultures of `a,b` are those of `a` followed by those of `b`. |
| Server.CulturesOfPiece | api/server.py:120 | A comma-free piece gives its stripped text, or nothing when that is empty. |
| Server.CulturesClean | api/server.py:120 | Every parsed culture is non-empty, stripped and comma-free. |
| Server.CulturesComplete | api/server.py:120 | Every non-blank piece yields its stripped culture. |
| Server.NoCulturesIffAllBlank | api/server.py:120-123 | The parsed list is empty exactly when every piece is blank. |
| Server.CulturesRoundTrip | api/server.py:120 | Parsing the comma-join of clean names gives the names back. |
| Server.ValidateAnalyze | api/server.py:115-131 | Checks in order: content type, then cultures, then model, each a 400 with its message. Success carries the parsed cultures. |
| Server.ValidatePredefined | api/server.py:179-189 | A list not among the predefined ones gives 400. A failing load raises. A bad model name gives 400. Success carries the loaded list. |
| Server.MapException | api/server.py:152-156 | An HTTP exception passes through. Anything else becomes a 500, "Failed to process image: " plus its message. |
| Server.BuildResponse | api/server.py:141-147 | The response copies the pipeline result and uses the upload's filename, or "uploaded_image". A score outside [1, 5] becomes a 500. |
| Server.Finish | api/server.py:138-156 | A pipeline fault becomes a 500 with its message. A result becomes the response. |
| Server.AnalyzeImage | api/server.py:113-156 | A request failing validation or decoding leaves the pipeline's cache, directories and log untouched. Otherwise the answer is the pipeline's on the parsed cultures, passed through `Finish`, and the pipeline's new state is the one `Pipeline.Process` gives. |
| Server.AnalyzeWithPredefined | api/server.py:177-216 | The same for the predefined endpoint, with `use_multiple_wiki_pages` always false. |
| Utils.GetImagePaths | src/utils.py:24-30 | The nested walk loops build exactly `ImagesOf`. |
| Utils.ImagesOfMembers | src/utils.py:24-30 | A path is collected exactly when it joins a walked directory with an image file listed there. |
| Utils.IsImageFile | src/utils.py:28 | The lowercased name ends with one of the four image extensions. |
| Utils.ImageFileIffExtension | src/utils.py:24-28 | A file is collected exactly when its lowercased name ends with jpg, jpeg, png or gif. |
| Utils.ImageFileIgnoresCase | src/utils.py:28 | A name and its lowercase form are classified alike. |
| Utils.ParseTargetList | src/utils.py:61 | One item per comma-separated piece, each stripped; empty items are kept. |
| Utils.TargetListItemsClean | src/utils.py:61 | Items are comma-free and have no surrounding whitespace. |
| Utils.TargetListKeepsBlankItems | src/utils.py:61 | A blank piece stays as an empty item at its position. |
| Utils.TargetListAppend | src/utils.py:61 | A comma splits the list: the items of `a,b` are those of `a` followed by those of `b`. |
| Utils.TargetListOfPiece | src/utils.py:61 | A comma-free string is a one-item list, the string stripped. |
| Utils.ResolveTargetList | src/utils.py:73-78 | A single argument naming a predefined list loads it and returns its name. Anything else is returned unchanged with no name. An empty argument raises IndexError. |
| Utils.ResolveImagePaths | src/utils.py:80-91 | One directory argument gives its images, sorted, as a folder. No paths give the default dataset, as a folder. Otherwise the existing files, sorted, as a list, and FileNotFoundError exactly when there are none. |
| Utils.ResolvedListIsExistingFiles | src/utils.py:85-88 | The list case keeps exactly the given paths that are files. |
| Utils.RunLogRow | src/utils.py:93-111 | `targets` is the predefined name when set, else the comma-join. `num_images` is the path count. The input type is folder or list. A folder row with no paths raises IndexError. |
| Utils.LoggedTargetsRoundTrip | src/utils.py:100-103 | A typed-in, comma-free target list splits back out of the logged row. |
| Text.Split | src/utils.py:61 | `split(sep)`: at least one piece, none containing the separator. |
| Text.SplitAppend | src/utils.py:61 | The split of `a + sep + b` is the split of `a` followed by that of `b`. |
| Text.Strip | src/utils.py:61 | `strip()`: the result neither starts nor ends with whitespace. |
| Text.Join | src/utils.py:103 | `sep.join(parts)`; its inverse relation with `Split` is `JoinSplit` and `SplitJoin`. |
| Text.Lower | src/utils.py:28 | `lower()` on ASCII: same length, each character lowered. |
| Text.StripEmptyIffAllSpace | src/utils.py:61 | `strip()` gives "" exactly when the string is all whitespace. |
| Text.StripIsSlice | src/utils.py:61 | `strip()` keeps one contiguous slice and removes only whitespace around it. |
| Text.StripIdempotent | src/utils.py:61 | Stripping twice is stripping once. |
| Text.JoinSplit | src/utils.py:103 | Splitting on a separator and joining with it gives the string back. |
| Text.SplitJoin | src/utils.py:103 | Joining separator-free parts and splitting gives the parts back. |
| Text.SortStrings | src/utils.py:83-91 | `sorted()` on strings: a lexicographically sorted permutation. |

## Left out

- The models themselves are abstract stages of a `World`: image encoding and FAISS search (`retrieval.py`), VLM scoring (`culture_scores.py`) and model loading. Any stage may fail.
- The stages of a `World` are not wired to `Disambiguation.LemmaMatch` or `FetchWikipedia.WikiRetrieval`. The pickle formats that join them are not modelled.
- Floating point: the sigmoid of a dot product is an abstract similarity into `real`. NaN and rounding are not modelled, and `float(score)` is the identity.
- GPU memory calls (`jax.device_put(None, jax.devices("gpu")[0])`, `torch.cuda.empty_cache()`) and logging are left out, and the model assumes they succeed. On a host without a GPU back end `jax.devices("gpu")` raises. The per-image `except` of `lemma_match` would then skip every image whose pool is non-empty; the model ranks it.
- The similarity function and the file-system queries never raise in the model. The source's `os.walk`, `os.path.isdir` and `os.path.isfile` do not raise either; an exception inside the sigmoid or the dot product is not modelled.
- The `ThreadPoolExecutor` is a sequential map. Results and the first failure are in input order.
- Files are values:
  - A directory holds optional pickles. `mkdir`, `rmtree`, `image.save` and the CSV append cannot fail in the model.
  - Only the state after a call is modelled, not a directory half-written by a stage.
- Paths are strings. pathlib's normalisation is not modelled, and `sorted` compares the path strings.
- `str.lower()` is ASCII-only. `str.isspace()` is the fixed set of Unicode whitespace characters that Python uses.
- Disambiguation.Dedupe: the order of `list(set(bids))` is chosen arbitrarily. Only the properties of the ranking are stated, not one particular order.
- The web application is left out: the FastAPI app, CORS, startup, the health and list endpoints, and reading the upload asynchronously. Image decoding is a parameter.
- Server.BuildResponse: the schema's message for a score outside [1, 5] is a fixed string, not the validation library's wording. A `None` score never reaches the schema, because the formatter drops it.
- An upload without a content type is not modelled: the source would raise on `startswith`.
- A `reasoning` key present with the value None is not modelled; a missing key is.
- The configuration constants are parameters: `MAX_WIKI_DOCS`, the predefined lists and the default dataset. `DATA_PATH` is "data" and `OUTPUT_PATH` is "outputs".
- `hash(image.tobytes())` is an abstract function.
- The timestamp is the parameter `now`. Two runs in the same microsecond share one directory, which the model shows as the same key.
- The repository's code has no structured parser for the model's replies, so none is modelled.
