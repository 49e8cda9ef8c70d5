# Browser-side model loading and presentation export, modelled in Dafny

This project models the services that let a browser app run a language model
locally and export Markdown slide decks.

- **The chunk cache** (`CacheService`) is a key→blob store. Its IndexedDB
  database is a map of entries plus a fixed fault environment: whether the
  database opens, which keys' requests fail, and whether `clear` fails.
- **The resumable loader** (`ProgressiveLoadService`) is a class with the
  source's fields. The assembly buffer is an `array<byte>`.
  - It works out the artifact's size: from stored metadata, or else from a
    HEAD request.
  - It picks a chunk size from a latency probe and cuts `[0, totalSize)` into
    inclusive byte ranges.
  - It copies chunks that are already cached, fetches the missing ones with
    Range requests, stores each fetched chunk, and reports progress.
  - It can reload a fully cached artifact, cancel a download, and clear the
    cache.
  - Every method is proved against a function of the store, the network
    oracle and the old state (load_plan.dfy). The loader's promises are
    proved about those functions:
    - the download assembles the artifact;
    - a completed download reloads byte for byte;
    - no cached chunk is fetched again;
    - progress rises to 1;
    - cancellation stops requests, rejects as cancelled and keeps the chunks
      already fetched;
    - a download never deletes a stored key;
    - a clear forgets the model.
- **Compatibility detection**: device tier, browser name and version, the
  mobile test, and the recommended execution strategy. These are pure
  functions of the browser's probe results.
- **The model-service factory**: a forced service name, or otherwise the
  automatic choice that follows the compatibility report. Also the list of
  options offered to the user.
- **Export text processing**:
  - `ensureMarpMetadata`, the front-matter normaliser;
  - the theme previews;
  - the PPTX text steps: splitting slides on `---`, parsing table rows, the
    cover-slide test, and the `i / n` page labels.

The network, the clock and the browser probes are inputs:
- `Network` carries the HEAD reply, the latency probe's round trip, the reply
  to each Range request, the point at which `cancelDownload` takes effect, and
  `Date.now()`.
- `Probes` carries the WebGPU and WebGL results, the hardware hints and the
  user agent.

JavaScript semantics are written out explicitly:
- `String.prototype.replace` with a string pattern replaces the first match
  only.
- In `/theme:.*\n/`, the `.` stops at `\n`, `\r`, U+2028 and U+2029.
- `split`, `trim` (the full JavaScript whitespace set), `includes`, `!!value`
  and `hint || 4` are modelled, the last one so that 0 counts as missing.
- `Math.ceil` becomes `CeilDiv`.
- A `RangeError` from `Uint8Array.set` becomes a `BufferOverflow` error.

Files:
- wrappers.dfy
- strings.dfy: the JavaScript string primitives.
- cache_service.dfy
- chunk_plan.dfy: the pure step functions of the loader.
- load_plan.dfy: what one call of each loader operation does, and the lemmas
  about it.
- progressive_load.dfy: the class.
- resume.dfy: the chunk-size finding below.
- compatibility.dfy
- model_service_factory.dfy
- marp_metadata.dfy
- pptx_text.dfy

The code does not do what it evidently intends in two places, both recorded
under "Findings":
- A resumed download is meant to keep its chunk boundaries, but the code
  probes the chunk size again on every attempt. The loader model follows the
  code.
- `ensureMarpMetadata` is meant to always yield a Marp document, but its
  `marp: true` check runs before the theme rewrite, which can delete that
  line. The model has both the code as written and the correction.

## Model

| member | source | states |
|---|---|---|
| Cache.CacheService.constructor | src/services/cacheService.js:9-13 | a new service has no open database and the given entries |
| Cache.CacheService.InitDB | src/services/cacheService.js:19-42 | succeeds exactly when the database can be opened; once opened, later calls do not open it again |
| Cache.CacheService.HasModel | src/services/cacheService.js:49-71 | true exactly when the get request succeeds and the stored value is truthy; any failure reads as false; the entries are unchanged |
| Cache.CacheService.SaveModel | src/services/cacheService.js:79-101 | false when the database cannot open; a failing request rejects; otherwise true, with only that key overwritten |
| Cache.CacheService.GetModel | src/services/cacheService.js:108-130 | the stored value or none, an open failure or a request failure; the entries are unchanged |
| Cache.CacheService.DeleteModel | src/services/cacheService.js:137-159 | false when the database cannot open; a failing request rejects; otherwise true, with exactly that key removed and every other key unchanged |
| Cache.CacheService.ClearCache | src/services/cacheService.js:165-187 | false with the store unchanged when the database cannot open; a failing clear request rejects with the store unchanged; otherwise true and the store is empty |
| Cache.PresentIsTruthyLookup | src/services/cacheService.js:49-71 | `hasModel` is `!!getModel` with every failure read as absent |
| Cache.Lookup | src/services/cacheService.js:108-130 | the definition of what `getModel` resolves to: the open failure, then the request failure, then the stored value or none; its properties are `PresentIsTruthyLookup` and `SaveGetDeleteScenario` |
| Cache.SaveGetDeleteScenario | src/services/cacheService.js:79-159 | save then get returns the saved value; an overwrite replaces it; a delete removes it; another key is never touched |
| ProgressiveLoad.ProgressiveLoadService.constructor | src/services/progressiveLoadService.js:12-28 | each option left out takes its default (`qwen3-0.6b`, the CDN URL, 10 MiB); the counters start at zero; `metadataKey` is `<modelId>_metadata` |
| ChunkPlan.ChunkSizeBuckets | src/services/progressiveLoadService.js:47-57 | a measured round trip gives 20, 10 or 5 MiB, and a faster probe never gives a smaller size; a failed probe gives `options.chunkSize` |
| ChunkPlan.ChunkSizeFor | src/services/progressiveLoadService.js:34-59 | the definition of `determineOptimalChunkSize` over the probe's round trip; its properties are `ChunkSizeBuckets` |
| ProgressiveLoad.ProgressiveLoadService.DetermineOptimalChunkSize | src/services/progressiveLoadService.js:34-59 | the chunk size the probe's bucket gives, or the option when the probe failed; it is always positive |
| ProgressiveLoad.ProgressiveLoadService.GetModelMetadata | src/services/progressiveLoadService.js:65-72 | the stored metadata, with every failure read as none; the store is unchanged |
| ProgressiveLoad.ProgressiveLoadService.SaveModelMetadata | src/services/progressiveLoadService.js:79-86 | true exactly when the metadata key is writable, in which case only that key changes |
| ProgressiveLoad.ProgressiveLoadService.IsModelFullyCached | src/services/progressiveLoadService.js:92-114 | true exactly when truthy metadata records a non-zero chunk count and every chunk key below it is present |
| ProgressiveLoad.ProgressiveLoadService.GetModelSize | src/services/progressiveLoadService.js:120-148 | the recorded size when it is non-zero; otherwise the HEAD reply's content length; fails on a network error, a non-ok status, or a missing or zero length; the result is never 0 |
| ChunkPlan.CeilDiv | src/services/progressiveLoadService.js:173 | the chunk count is zero exactly when the size is zero |
| ChunkPlan.CeilDivCovers | src/services/progressiveLoadService.js:173 | `ceil(total/cs)` chunks cover the artifact, and one fewer would not |
| ChunkPlan.ChunkTiling | src/services/progressiveLoadService.js:192-195 | the ranges `[i*cs, min(i*cs+cs-1, total-1)]` are non-empty, lie inside the artifact, follow each other without gap or overlap, and end at `total-1` |
| ChunkPlan.ByteInChunk | src/services/progressiveLoadService.js:192-195 | every byte of the artifact lies in exactly one chunk's range |
| ChunkPlan.TwentyFiveMiBInTenMiBChunks | src/services/progressiveLoadService.js:173-195 | a 25 MiB artifact in 10 MiB chunks is 3 chunks, and the last one is 5 MiB |
| ChunkPlan.ChunkKeysDistinct | src/services/progressiveLoadService.js:193 | different chunk indices never share a store key |
| ChunkPlan.ChunkKey | src/services/progressiveLoadService.js:193 | the definition of the chunk key `<modelId>_chunk_<i>`; its properties are `ChunkKeysDistinct` and `ChunkKeyNotMetadataKey` |
| ChunkPlan.StepError | src/services/progressiveLoadService.js:226-262 | the definition of why one fetch step stops: the cancel check, a rejected fetch, a status that is neither ok nor 206, a failing save, or a `set` past the buffer's end, in source order; its properties are `CancelKeepsFetchedChunks` and `FetchStores` |
| ChunkPlan.ChunkKeyNotMetadataKey | src/services/progressiveLoadService.js:27 | no chunk key is the metadata key |
| ChunkPlan.AcceptedIsOk | src/services/progressiveLoadService.js:239 | the guard `ok \|\| status === 206` accepts exactly the statuses 200-299, so the 206 test adds nothing |
| ChunkPlan.SizeFrom | src/services/progressiveLoadService.js:120-148 | a size that is found is positive |
| ChunkPlan.PendingChunksFacts | src/services/progressiveLoadService.js:192-215 | the download tasks are exactly the missing chunks, in increasing order |
| ChunkPlan.CachedChunksFacts | src/services/progressiveLoadService.js:192-215 | the copied chunks are exactly the present chunks, in increasing order |
| ChunkPlan.ChunkCounts | src/services/progressiveLoadService.js:192-215 | cached and pending chunks add up to `totalChunks` |
| ChunkPlan.ProgressMonotone | src/services/progressiveLoadService.js:204-209 | the reported fractions rise strictly, every one lies in (0, 1], and the fraction is 1 exactly at the last chunk |
| ChunkPlan.ApplyWritesAt | src/services/progressiveLoadService.js:203 | a byte covered by exactly one `set` holds that write's byte |
| ChunkPlan.FullyCachedReloads | src/services/progressiveLoadService.js:92-114 | no chunk of a fully cached artifact makes a reload fail as missing or unreadable; only an oversized chunk can |
| ChunkPlan.ClearKeepsOthers | src/services/progressiveLoadService.js:379-401 | removing the chunk keys leaves every other key, the metadata key included, with its value |
| ProgressiveLoad.CopyInto | src/services/progressiveLoadService.js:203 | `modelView.set(data, at)` leaves the buffer equal to the pasted sequence |
| ProgressiveLoad.ProgressiveLoadService.ScanCached | src/services/progressiveLoadService.js:192-215 | the first loop copies every cached chunk into the buffer and queues a task for every missing chunk; it stops at the first cached chunk that overflows; the store is unchanged |
| ProgressiveLoad.ProgressiveLoadService.FetchPending | src/services/progressiveLoadService.js:226-265 | the fetch loop stops at the first failing task; it stores and copies every chunk before that one, and counts and reports progress for them; it issues exactly the requests made before stopping |
| ProgressiveLoad.ProgressiveLoadService.FetchChunk | src/services/progressiveLoadService.js:228-264 | one task: the abort check, the status check, the save, the copy and the progress update, or the error that stops it |
| ProgressiveLoad.ProgressiveLoadService.DownloadModelInChunks | src/services/progressiveLoadService.js:155-286 | while a download runs, a call rejects at once and changes nothing; otherwise its result, callbacks, requests and store are those of `DownloadRun`; afterwards `isLoading` is false, the controller is null and `error` holds the failure |
| ProgressiveLoad.ProgressiveLoadService.LoadModelFromCache | src/services/progressiveLoadService.js:292-322 | the result is `Reload`: metadata is required, every chunk must be truthy, and each chunk is copied at `i * chunkSize`; the store is unchanged |
| ProgressiveLoad.ProgressiveLoadService.LoadModel | src/services/progressiveLoadService.js:329-364 | a cached artifact is reloaded with progress 0.5 then 1; otherwise it is downloaded; every failure is reported to `onError` again; the cache path and the busy guard leave the service's fields unchanged, and after a download the service is idle (no abort controller, so a retry is not refused as already loading), holds the download's error or none, and has the download's size, chunk count and progress counters |
| ProgressiveLoad.ProgressiveLoadService.CancelDownload | src/services/progressiveLoadService.js:369-373 | aborts the running download's signal; without a controller it does nothing |
| ProgressiveLoad.ProgressiveLoadService.ClearModelCache | src/services/progressiveLoadService.js:379-401 | the outcome and the store are those of `ClearRun` |
| LoadPlan.DownloadEvents | src/services/progressiveLoadService.js:204-281 | a download's callbacks are progress values `1/n, 2/n, …` followed by exactly one `onComplete` or `onError` matching the result |
| LoadPlan.DownloadRun | src/services/progressiveLoadService.js:155-286 | the definition of one `downloadModelInChunks` call: size, chunk size, metadata write, scan, fetch loop, with its callbacks, requests, store and counters; the lemmas in this table from `DownloadEvents` to `FetchedChunksNotPendingAgain` state its properties |
| LoadPlan.DownloadProgressMonotone | src/services/progressiveLoadService.js:204-258 | the progress a download reports rises strictly and stays in (0, 1]; a completed download reports 1 just before `onComplete` |
| LoadPlan.IssuedOnlyPending | src/services/progressiveLoadService.js:192-247 | every Range request a download issues is for a chunk that was missing from the store |
| LoadPlan.SuccessRequestCount | src/services/progressiveLoadService.js:192-265 | a completed download issues exactly one request per missing chunk: `totalChunks` minus the cached ones |
| LoadPlan.AllCachedNoRequests | src/services/progressiveLoadService.js:217-223 | when every chunk is cached, a download issues no Range request |
| LoadPlan.CancelStopsRequests | src/services/progressiveLoadService.js:228-230 | when the cancel takes effect before pending task k, at most k Range requests are issued |
| LoadPlan.CancelKeepsFetchedChunks | src/services/progressiveLoadService.js:226-262 | when the cancel takes effect before pending chunk k and the chunks before it were fetched, the download rejects as cancelled (not as a network failure), its last callback is `onError(cancelled)`, and every chunk fetched before the cancel stays stored with its body |
| LoadPlan.DownloadKeepsKeys | src/services/progressiveLoadService.js:155-286 | a download never deletes: every key stored before it is stored after it, on success and on every error path; a key that is neither the metadata key nor one of the model's chunk keys keeps its value |
| LoadPlan.MetadataRecorded | src/services/progressiveLoadService.js:170-184 | an attempt that finds its size records size, chunk count, the freshly probed chunk size and the timestamp, whatever happens later |
| LoadPlan.FetchStores | src/services/progressiveLoadService.js:244-247 | every chunk fetched successfully is stored under its own key with the body received |
| LoadPlan.FetchedChunksNotPendingAgain | src/services/progressiveLoadService.js:192-247 | a chunk fetched before an attempt stopped is present afterwards and is not pending in a later attempt with the same cut |
| LoadPlan.DownloadAssembles | src/services/progressiveLoadService.js:187-272 | when the store and server agree with an artifact, a completed download returns exactly that artifact |
| LoadPlan.DownloadThenReload | src/services/progressiveLoadService.js:155-322 | after a completed download the artifact is fully cached, and a reload yields the same bytes |
| LoadPlan.ReloadAssembles | src/services/progressiveLoadService.js:292-322 | a reload rebuilds the artifact when the metadata describes it and every chunk holds its slice |
| LoadPlan.Reload | src/services/progressiveLoadService.js:292-322 | the definition of `loadModelFromCache`: the metadata check, then each chunk in index order; its properties are `ReloadAssembles` and `ReloadNeedsMetadata` |
| LoadPlan.SecondLoadFromCache | src/services/progressiveLoadService.js:329-354 | a second `loadModel` after a completed download issues no request and returns the same bytes |
| LoadPlan.LoadRun | src/services/progressiveLoadService.js:329-364 | the definition of `loadModel`: a reload when fully cached, otherwise a download; its properties are `SecondLoadFromCache`, `CachedLoadIsOffline` and `LoadReportsDownloadErrorTwice` |
| LoadPlan.CachedLoadIsOffline | src/services/progressiveLoadService.js:332-350 | loading a fully cached artifact issues no request, leaves the store alone and first reports 0.5 |
| LoadPlan.LoadReportsDownloadErrorTwice | src/services/progressiveLoadService.js:273-281 | a failed download reaches `onError` twice through `loadModel`, first from the download and then from `loadModel` |
| LoadPlan.ReloadNeedsMetadata | src/services/progressiveLoadService.js:295-298 | a reload fails with "metadata missing" exactly when no truthy metadata is readable |
| LoadPlan.ClearForgetsModel | src/services/progressiveLoadService.js:379-401 | a successful clear removes the metadata and every recorded chunk, so the model is no longer cached; other keys keep their values |
| LoadPlan.ClearRun | src/services/progressiveLoadService.js:379-401 | the definition of `clearModelCache`: delete each recorded chunk in order, then the metadata, stopping at the first failure; its properties are `ClearForgetsModel` and `ClearStopsAtFailure` |
| LoadPlan.ClearStopsAtFailure | src/services/progressiveLoadService.js:388-399 | a failed clear has removed exactly the chunks before the failing delete, and the failing delete is a chunk's: the metadata key, once read, is never the one that fails |
| Resume.ReprobeBreaksResume | src/services/progressiveLoadService.js:167-203 | the code as written: two honest attempts whose probes differ complete with `[1, 0]` for the artifact `[1, 2]` |
| Resume.StableResume | src/services/progressiveLoadService.js:167-272 | with the recorded chunk size kept, a second attempt that completes returns the artifact whatever the first attempt did and whatever the second probe says |
| Resume.StableKeepsAgreement | src/services/progressiveLoadService.js:177-247 | a corrected attempt stores only true slices and keeps the recorded size and chunk size |
| Resume.StableDownloadAssembles | src/services/progressiveLoadService.js:187-272 | a corrected attempt that completes returns exactly the artifact |
| Resume.StableChunkSize | src/services/progressiveLoadService.js:170-182 | the corrected chunk size is positive, and it is the recorded one whenever metadata records one |
| Resume.StableAgreesWithoutMetadata | src/services/progressiveLoadService.js:155-286 | on a store without metadata the corrected attempt behaves exactly like the code |
| Compatibility.CheckDevicePerformance | src/services/compatibilityService.js:83-97 | a memory or core hint that is missing or 0 reads as 4; memory and cores are positive |
| Compatibility.PerformanceDefaults | src/services/compatibilityService.js:84-95 | without hints, the device has 4 GB and 4 cores, score 4, tier medium |
| Compatibility.TierThresholds | src/services/compatibilityService.js:88-95 | the tier is high exactly when memory × cores ≥ 32, medium when it is in [16, 32), low below 16 |
| Compatibility.TierMonotone | src/services/compatibilityService.js:88-95 | more memory or more cores never lowers the tier |
| Compatibility.FractionalMemoryTiers | src/services/compatibilityService.js:88-95 | 0.5 GB with 8 cores is low (score 1); 8 GB with 4 cores is high |
| Compatibility.VersionRun | src/services/compatibilityService.js:111-126 | the captured version is the longest run of digits and dots |
| Compatibility.MatchVersion | src/services/compatibilityService.js:111-126 | a captured version is non-empty and occurs right after its tag in the agent |
| Compatibility.MatchVersionIsLeftmost | src/services/compatibilityService.js:111-126 | `match(/<tag>([0-9.]+)/)` finds nothing exactly when no position has the tag followed by a digit or dot; otherwise its capture is the whole digit-and-dot run after the leftmost such position |
| Compatibility.BrowserClassification | src/services/compatibilityService.js:103-133 | the tests run in source order: Edg is never Chrome; Chrome without Edg is Chrome; of the rest, Firefox is Firefox, then Safari is Safari; an agent naming none of the four is unknown with no version; the call throws exactly when the chosen browser's `<tag>/<version>` pattern has no match, and a recognised browser carries the version that pattern captures |
| Compatibility.GetBrowserInfo | src/services/compatibilityService.js:103-133 | a successful result names Chrome, Edge, Firefox, Safari or unknown, with a non-empty version exactly when the browser is recognised; an error names the recognised browser whose version pattern failed |
| Compatibility.EdgeAgentIsEdge | src/services/compatibilityService.js:109-117 | an agent naming both Edg and Chrome is classified as Edge |
| Compatibility.MobileIgnoresCase | src/services/compatibilityService.js:139-141 | the mobile test ignores case, and any listed token in any case makes the agent mobile |
| Compatibility.IPhoneIsMobile | src/services/compatibilityService.js:139-141 | an agent naming iPhone is mobile |
| Compatibility.IsMobile | src/services/compatibilityService.js:139-141 | the definition of `isMobileDevice`: one of the eight tokens occurs in the agent, ignoring ASCII case; its properties are `MobileIgnoresCase` and `IPhoneIsMobile` |
| Compatibility.RecommendPriority | src/services/compatibilityService.js:155-167 | WebGPU beats WebGL, which beats CPU (tier not low), which beats remote; each case holds in both directions |
| Compatibility.Recommend | src/services/compatibilityService.js:155-167 | the definition of the strategy decision; its properties are `RecommendPriority` |
| Compatibility.StrategyNamesDistinct | src/services/compatibilityService.js:155-167 | distinct strategies get distinct names and distinct expected performances |
| Compatibility.FullReport | src/services/compatibilityService.js:147-178 | the report fails exactly when the browser probe throws |
| Compatibility.ReportStrategy | src/services/compatibilityService.js:147-178 | the strategy follows the priority on the report's own probe results; the user agent plays no part in it |
| ModelServiceFactory.Forced | src/services/modelServiceFactory.js:24-42 | exactly five names force a service |
| ModelServiceFactory.CreateModelService | src/services/modelServiceFactory.js:18-79 | creation fails exactly when the compatibility report fails, even when a service is forced |
| ModelServiceFactory.ForcedServiceWins | src/services/modelServiceFactory.js:24-42 | a recognised forced name picks its service whatever the probes say |
| ModelServiceFactory.ReportFailureFails | src/services/modelServiceFactory.js:18-22 | a failing report rejects with the report's error |
| ModelServiceFactory.UnknownForceFallsThrough | src/services/modelServiceFactory.js:24-47 | an empty or unrecognised name is the same as no name |
| ModelServiceFactory.AutoMatchesStrategy | src/services/modelServiceFactory.js:47-78 | the automatic choice builds the backend for the recommended strategy; its mobile test never changes the outcome |
| ModelServiceFactory.AutoBackend | src/services/modelServiceFactory.js:47-78 | the definition of the automatic choice, as the factory's own chain of tests; its properties are `AutoMatchesStrategy` and `AutoIgnoresUserAgent` |
| ModelServiceFactory.AutoFollowsReport | src/services/modelServiceFactory.js:18-79 | without a forced name, the factory builds the backend for the report's strategy |
| ModelServiceFactory.StrategyBackendInjective | src/services/modelServiceFactory.js:47-78 | different strategies lead to different backends |
| ModelServiceFactory.AutoIgnoresUserAgent | src/services/modelServiceFactory.js:47-78 | browsers with the same probe results get the same backend, whatever their user agents |
| ModelServiceFactory.ServiceOptions | src/services/modelServiceFactory.js:85-94 | six options, "auto" first |
| ModelServiceFactory.OptionsMatchFactory | src/services/modelServiceFactory.js:85-94 | "auto" means the automatic choice; every other offered id forces its own service, distinct from the others |
| MarpMetadata.NormalisedIsFixed | src/services/exportService.js:684-719 | a document that already starts with the fence, mentions every key and carries the right theme line passes through unchanged |
| MarpMetadata.OutputNormalised | src/services/exportService.js:684-719 | every output of the corrected function starts with the fence, mentions `marp: true`, `theme:` and `paginate:`, and has its theme line settled |
| MarpMetadata.Idempotent | src/services/exportService.js:684-719 | the corrected function is idempotent for any theme name without a line break |
| MarpMetadata.NoFrontMatter | src/services/exportService.js:708-718 | without front matter, the full block and an empty line are prepended to the untouched text |
| MarpMetadata.LackingAllKeys | src/services/exportService.js:686-706 | front matter mentioning no key gains the three lines right after the fence, in reverse order |
| MarpMetadata.ReplaceThemeLineIdempotent | src/services/exportService.js:699-700 | rewriting the theme line twice is rewriting it once |
| MarpMetadata.RewriteLeadingLine | src/services/exportService.js:699-700 | a theme line right after the fence is replaced, and nothing else changes |
| MarpMetadata.ReplaceKeepsAround | src/services/exportService.js:699 | only the first `theme:` line changes: the text before it and the text after its newline are untouched, and the new theme line sits between them |
| MarpMetadata.NoThemeLineUnchanged | src/services/exportService.js:699-700 | with no `theme:` line ending in a newline, the rewrite changes nothing |
| MarpMetadata.AsWrittenPresence | src/services/exportService.js:684-719 | the code as written keeps the leading fence and always leaves a `theme:` and a `paginate:` mention |
| MarpMetadata.EnsureMarpMetadataAsWritten | src/services/exportService.js:684-719 | the definition of `ensureMarpMetadata` as written, the function `exportToPPTX` calls; its properties are `AsWrittenPresence`, `NoFrontMatter`, `LackingAllKeys` and `MarpCheckBeforeThemeRewrite` |
| MarpMetadata.AsWrittenIdempotentWhenMarpSurvives | src/services/exportService.js:684-719 | whenever `marp: true` survives, the code as written is idempotent |
| MarpMetadata.AsWrittenAgreesWhenMarpSurvives | src/services/exportService.js:684-719 | the correction changes only outputs that lost their `marp: true` |
| MarpMetadata.MarpCheckBeforeThemeRewrite | src/services/exportService.js:688-700 | on `---\ntheme: marp: true\n---\n`, the code as written drops `marp: true` and a second call changes the output; the corrected function keeps it |
| MarpMetadata.ThemeIdsPlainAndDistinct | src/services/exportService.js:7-16 | the eight built-in theme ids are plain and distinct |
| MarpMetadata.PreviewIsFresh | src/services/exportService.js:1325-1358 | a preview is the sample slides under exactly the front matter the export itself writes |
| MarpMetadata.PreviewNormalised | src/services/exportService.js:1324-1361 | exporting a preview with its own theme leaves it unchanged |
| MarpMetadata.AllThemeIds | src/services/exportService.js:7-16 | the theme ids are the eight names listed |
| MarpMetadata.GetThemePreviews | src/services/exportService.js:1324-1361 | one preview per built-in theme, keyed by its id, each the sample with the placeholder replaced |
| MarpMetadata.FillPreviews | src/services/exportService.js:1355-1358 | the loop fills exactly the built-in ids, each with its substituted sample |
| PptxText.NonBlankKeeps | src/services/exportService.js:994 | the slide filter keeps exactly the pieces that are not blank, each once and in their original order (a strictly increasing index map onto the pieces that covers every non-blank one) |
| PptxText.FencedBlockIsFirstSlide | src/services/exportService.js:994 | a block fenced by `---` that has no `-` is the first slide, and the slides of the rest follow it |
| PptxText.Slides | src/services/exportService.js:994 | the definition of the slide split; its properties are `NonBlankKeeps`, `FencedBlockIsFirstSlide` and `ExportedSlides` |
| PptxText.ExportedSlides | src/services/exportService.js:991-994 | a document without front matter, normalised by the code as written, exports as the front-matter block followed by its own slides; the block has no `#`, so slide 0 of such a deck is the metadata and never a title slide |
| PptxText.ParseRowCells | src/services/exportService.js:1201 | every parsed cell is free of `\|` and trimmed |
| PptxText.ParseRow | src/services/exportService.js:1201 | the definition of one row's cells: split on `\|`, drop empty pieces, trim; its properties are `ParseRowCells` and `ParseRowTwoCells` |
| PptxText.ParseRowTwoCells | src/services/exportService.js:1201 | `\|a\|b\|` gives the trimmed cells a and b; a cell of spaces becomes an empty cell |
| PptxText.IsTableLineIff | src/services/exportService.js:1200 | a line is kept as a table row exactly when it holds a `\|` |
| PptxText.TableLinesKeep | src/services/exportService.js:1199-1200 | the table rows are exactly the lines holding a `\|`, each once and in source order, so row 0 is the first such line (a strictly increasing index map that covers every such line) |
| PptxText.TableRows | src/services/exportService.js:1199-1201 | one parsed row per kept line |
| PptxText.ParseTable | src/services/exportService.js:1203-1206 | a table exists exactly when there are two or more rows; row 0 is the header, row 1 is dropped and the rest are data |
| PptxText.PageLabels | src/services/exportService.js:1255-1264 | each slide gets the label `i+1 / n` unless it is the cover |
| PptxText.OnlyCoverUnlabelled | src/services/exportService.js:1086 | only slide 0 can go unlabelled, and it does exactly when it has a title and blank content |
| PptxText.IsCover | src/services/exportService.js:1086 | the definition of the cover test; its properties are `OnlyCoverUnlabelled` |
| PptxText.PageLabel | src/services/exportService.js:1255-1264 | the definition of the label `i+1 / n`; its properties are `PageLabelDecodes` and `PageLabelInjective` |
| PptxText.PageLabelDecodes | src/services/exportService.js:1256 | a label reads back as the slide number and the slide count |
| PptxText.PageLabelInjective | src/services/exportService.js:1256 | different slides or slide counts never share a label |

## Left out

- Network I/O, timing and abort signals are not modelled as such. They are the inputs of the `Network` oracle: the HEAD reply, the latency probe's round trip (`None` when it fails or passes the 3-second timeout), the Range replies, the cancel point and `Date.now()`.
- The latency probe's test URL is not modelled, because it is only where the probe is sent (src/services/progressiveLoadService.js:37).
- IndexedDB transactions, `onupgradeneeded` and asynchronous completion are not modelled. The store is a map, and the operations run one after another. Two downloads cannot interleave here; the `isLoading` guard is modelled as it is written.
- Console logging and the `Error` message texts are not modelled. Errors are the `LoadError` constructors.
- ProgressiveLoad.ProgressiveLoadService.DownloadModelInChunks is a member whose contract uses `old` and `unchanged`. The pure lemmas in load_plan.dfy state its promises about `DownloadRun`.
- The loader's class follows the code, so it re-probes the chunk size on each attempt. The corrected behaviour exists only as `Resume.StableDownloadRun` (see Findings).
- `checkWebGPUSupport` and `checkWebGLSupport` are not modelled, because they query browser APIs. Their results are inputs (`Probes`).
- The WebLLM, WebGPU, WebGL, WASM and remote services themselves are not modelled, because they are separate modules. The factory's result names the backend it would construct, and the options passed through to it.
- `renderMarkdownToHTML`, `exportToPDF`, `previewPresentation` and the pptxgenjs layout are not modelled, because they are rendering. For PPTX, slide titles and the content left after removing them come from regular expressions over the slide text; here they are inputs (`SlideText`). Only the slide split, table-row parsing, the cover test and the page labels are modelled.
- Compatibility.MatchVersion models `/Tag\/([0-9.]+)/` as a leftmost search for the tag followed by a greedy digit-and-dot run; `MatchVersionIsLeftmost` proves it is exactly that. The regular-expression engine itself is not modelled.
- Compatibility.IsMobile folds only ASCII letters to lower case. A JavaScript regular expression with the `i` flag but without the `u` flag never folds a non-ASCII character onto an ASCII one, and every token is ASCII, so only ASCII letters of the agent can match a token's letters.
- Cache.CacheService: the store's fault environment (`StoreEnv`) is fixed for the store's lifetime, and one set of failing keys governs get, put and delete alike. A key whose `hasModel` fails therefore fails its `saveModel` too, so a download that needs such a key ends in a store failure; in the source, a failed read resolves `false` (src/services/cacheService.js:62-65) and a later `saveModel` (:86-95) can still succeed. The reload lemmas (`DownloadThenReload`, `SecondLoadFromCache`) rely on the reload seeing the same environment as the download.
- ProgressiveLoad.ProgressiveLoadService.GetModelSize: the `content-length` header is taken as an already parsed natural number. The other results of `parseInt` (src/services/progressiveLoadService.js:138) are not modelled: a malformed header gives `NaN`, which passes the zero test, so the loops never run and an empty buffer is reported complete; a negative length makes `new ArrayBuffer` throw a `RangeError`.
- ProgressiveLoad.ProgressiveLoadService.constructor: requires that an explicit `chunkSize` option is not 0. The source accepts `chunkSize: 0`; if the latency probe then fails, `Math.ceil(totalSize / 0)` is `Infinity` and the scan loop at src/services/progressiveLoadService.js:192 never ends. A run that never ends is not represented here.
- MarpMetadata.EnsureMarpMetadataAsWritten: the theme is inserted literally. JavaScript's `replace` interprets `$&`, `$$`, `` $` `` and `$'` inside the replacement text (src/services/exportService.js:696, 699), so a theme containing `$` gives a different result in the source. Every built-in theme id is plain letters and digits.
- The integrity of a stored chunk is not checked by the source: a cached chunk is trusted as stored. The assembly lemmas therefore assume that the store and the server agree with the artifact (`ConsistentChunks`, `StoreAgrees`, `Honest`).

## Findings

| source | as written | input that shows it | evidently intended | confidence | as-written member | corrected member |
|---|---|---|---|---|---|---|
| src/services/exportService.js:688-700 | the `marp: true` check runs before `theme:.*\n` is rewritten, and the rewrite can remove the only mention of `marp: true` | `ensureMarpMetadata("---\ntheme: marp: true\n---\n", "default")` returns `---\npaginate: true\ntheme: default\n---\n`, without `marp: true`; a second call changes it again | the output is always a Marp document, and the function is idempotent | not executed | MarpMetadata.MarpCheckBeforeThemeRewrite | MarpMetadata.Idempotent |
| src/services/progressiveLoadService.js:167-203 | every attempt probes the chunk size again and records it, while cached chunks keep the boundaries of the attempt that fetched them, and a chunk key carries only the index | artifact `[1, 2]`, empty store; the first attempt's probe fails (1-byte chunks), chunk 0 arrives and chunk 1 fails; the second attempt's probe takes 50 ms (20 MiB chunks), finds "chunk 0" cached and completes with `[1, 0]` | a resumed download keeps the chunk size the metadata records, so cached chunks fit their ranges and the result is the artifact | not executed | Resume.ReprobeBreaksResume | Resume.StableResume |
