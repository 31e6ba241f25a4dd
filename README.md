# evict, modelled in Dafny

evict is a static-site publisher written for Node.js. This project models
its core and proves properties of that model. The core is in four parts.

- **The incremental copy pipeline** (`src/copy/`). It lists a source
  directory and drops the paths an ignore list names. It then offers the
  remaining paths to a chain of middleware plugins: Mp3 (an ffmpeg preset
  table), Avif, Markdown and the catch-all Remaining. Each plugin rebuilds
  its files only when a file's modification time differs from the one
  recorded in a staleness cache. That cache is an sqlite table in the
  source; here it is a `map`.
- **The build worker side** (`src/worker/`). A worker-thread message
  handler dispatches six kinds of task, and its HTML templating escapes
  text. A worker pool queues tasks and hands each to the lowest idle
  worker. The build script gathers tasks and tallies the settled results.
- **The object layer** (`src/objects/`, `src/obj/`). A book derives its id
  and display name from its directory and cuts its posts into pages of 36.
  A page knows its file name, its neighbours and its pager. `Memoize`
  caches getters and method results with an optional time to live.
- **Helpers** (`src/lib.js`, `src/TerminalColor.js`). These are `chunk`,
  `ms`, `opt` and `fitToKBounds`, and the ANSI colour wrappers behind the
  console helpers `info`, `success`, `warn` and `danger`.

Modules follow the source files:

| module | source |
|---|---|
| `Cache` | `copy/cache.js` |
| `Presets` | `copy/middleware/mp3/presets.js` |
| `Plugins` | the middleware subclasses |
| `Middleware` | `copy/middleware/Middleware.js` |
| `CopyPipeline` | `copy/IncrementalCopy.js` |
| `Worker` | `worker/worker.js` |
| `Pool` | `worker/WorkerPool.js` and the copy inside `worker/build.js` |
| `Build` | `worker/build.js` |
| `Memoizing` | `objects/lib/Memoize.js` |
| `Lib` | `lib.js` |
| `Pages` | `objects/Page.js` and `obj/Page.js` |
| `Books` | `objects/Book.js` and `obj/Book.js` |
| `TerminalColor` | `TerminalColor.js` |

`Wrappers`, `Strings`, `Seqs` and `Paths` hold the JavaScript built-ins the
core relies on:

- `replace` with a string pattern, which changes the first occurrence only;
- `replace` with a `/x/g` pattern, which changes every occurrence;
- `split` and `join`;
- `path.join`, `dirname`, `basename` and `extname` on POSIX paths.

Stateful parts of the source are classes with `modifies` clauses:

- `StalenessCache` (the sqlite table);
- `IncrementalCopy`;
- `WorkerPool`, whose slots live in an array;
- `Memo`.

Each method is proved against a pure specification function, and the
lemmas are stated about those functions. Some source files appear twice.
`build.js` repeats `WorkerPool` word for word, and `obj/Page.js` and
`obj/Book.js` repeat the getters of their `objects/` siblings. Each of
these is modelled once.

## Model

| member | source | states |
|---|---|---|
| Cache.Changed | src/copy/cache.js:14-19 | `hasChanged` throws exactly when the file is missing; otherwise it answers false exactly when a row exists whose mtime equals the file's |
| Cache.Upserted | src/copy/cache.js:21-24 | `updateMtime` throws exactly when the file is missing; otherwise the table gains or overwrites only that path's row, set to the current mtime |
| Cache.UpdateThenUnchanged | src/copy/cache.js:14-24 | after `updateMtime(p)`, `hasChanged(p)` is false, and `hasChanged` of every other path is as before |
| Cache.StalenessCache.constructor | src/copy/cache.js:5-12 | the cache starts with the rows already persisted |
| Cache.StalenessCache.HasChanged | src/copy/cache.js:14-19 | the method answers `Changed` on the current rows |
| Cache.StalenessCache.UpdateMtime | src/copy/cache.js:21-24 | the method leaves exactly the rows `Upserted` gives, or no change and the error when the file is missing |
| Presets.Lookup | src/copy/middleware/mp3/presets.js:18-102 | a name finds a preset exactly when it is one of the table's keys, and the preset found carries that name |
| Presets.KeyRoundTrip | src/copy/middleware/mp3/presets.js:18-102 | every preset is found again by its own key |
| Presets.Args | src/copy/middleware/mp3/presets.js:18-102 | every preset's ffmpeg arguments open with `-hide_banner -loglevel error -i` and the source, then carry exactly the preset's settings, and close with `-y` and the output |
| Presets.SettingsLayout | src/copy/middleware/mp3/presets.js:18-102 | each preset's settings match an independent per-field description: codec, VBR quality, optional bitrate, sample rate, mono flag and filter chain, the filter chain being the last setting |
| Plugins.Spread | src/copy/middleware/mp3/Mp3.js:14-15 | `{...defaults, ...configuration}` has the union of keys, and configuration values win |
| Plugins.NewMp3 | src/copy/middleware/mp3/Mp3.js:13-21 | the constructor succeeds exactly when the merged `preset` names a preset; otherwise it fails with the "Unknown preset" message |
| Plugins.Mp3PresetDefault | src/copy/middleware/mp3/Mp3.js:13-21 | without a `preset` option the preset is `balanced`; an explicit `undefined` is copied by the spread and refused |
| Plugins.NewAvif | src/copy/middleware/avif/Avif.js:13-17 | every default option is present, overridden by the configuration where it gives one |
| Plugins.Accepts | src/copy/middleware/mp3/Mp3.js:23-25 | a plugin accepts exactly the listed paths it claims, in order |
| Plugins.ClaimsDisjoint | src/copy/middleware/avif/Avif.js:19-21 | the Mp3, Avif and Markdown extension sets claim pairwise disjoint paths |
| Plugins.VerifyError | src/copy/middleware/mp3/Mp3.js:54-63 | the output check passes exactly when the file exists and has at least 1000 bytes |
| Plugins.ExecuteFails | src/copy/middleware/mp3/Mp3.js:27-52 | `execute` fails exactly as each plugin can fail: Mp3 on I/O, a non-zero exit or a small output; Avif on I/O or encoding; Markdown on I/O; Base and Remaining never |
| Plugins.ExitMessageShape | src/copy/middleware/mp3/Mp3.js:49-51 | the ffmpeg error message starts with the exit code and ends with ": " and the stderr text, which is omitted when empty |
| Plugins.TranscodedActions | src/copy/middleware/mp3/Mp3.js:27-35 | a successful Mp3 or Avif execute makes the directory, then spawns ffmpeg with the preset's arguments or encodes to `<stem>.avif` |
| Plugins.MarkdownTarget | src/copy/middleware/markdown/Markdown.js:20-25 | Markdown reads the source file, then makes the destination directory, then writes `index.html` in it, whatever the source file's name |
| Middleware.ShouldRebuildIsSync | src/copy/middleware/Middleware.js:17-19 | `shouldRebuild` answers false exactly when every accepted file is synced, and throws only when a source file is missing |
| Middleware.RunSpecStep | src/copy/middleware/Middleware.js:21-29 | `run` executes each file, then records its mtime; it stops at the first failing execute or stat |
| Middleware.RunRecords | src/copy/middleware/Middleware.js:21-29 | `run` records exactly a prefix of the files (all of them when nothing fails), and those are then synced; other rows are untouched |
| Middleware.RunKeeps | src/copy/middleware/Middleware.js:21-29 | a path that was synced stays synced |
| Middleware.RunThenSkip | src/copy/middleware/Middleware.js:17-29 | after a run that did not fail, `shouldRebuild` on the same files answers false |
| Middleware.RemainingRecordsOnly | src/copy/middleware/remaining/Remaining.js:10-14 | Remaining's execute returns before copying, so its run performs no action and only records mtimes |
| Middleware.Run | src/copy/middleware/Middleware.js:21-29 | the loop leaves the cache, actions and error that `RunSpec` gives |
| Paths.Basename | src/copy/middleware/mp3/Mp3.js:29 | a base name holds no separator and ends the path |
| Paths.Extname | src/copy/middleware/mp3/Mp3.js:29 | an extension ends the base name, starts with a dot and is shorter than the base name |
| Paths.DerivedOutput | src/copy/middleware/mp3/Mp3.js:29-30 | the output `<stem><ext>` lies in the destination directory, with that base name and that extension |
| Paths.SameDirectory | src/copy/middleware/Middleware.js:24-26 | the destination directory of a file is the target root joined with the file's own directory |
| CopyPipeline.MatchesSizedIsSpec | src/copy/IncrementalCopy.js:10-11 | the check behind the `^files/(xs\|sm\|md\|lg\|xl)-[^.]+\.jpg` rule matches its regex, written out as an independent predicate |
| CopyPipeline.DefaultIgnores | src/copy/IncrementalCopy.js:6-13 | a path is ignored exactly when its lower-cased form contains `post.json`, `index.md` or `summary.txt`, or is an old sized jpg or avif |
| CopyPipeline.Unignored | src/copy/IncrementalCopy.js:32-36 | the listing keeps exactly the paths no ignore rule matches |
| CopyPipeline.HandledMember | src/copy/IncrementalCopy.js:62 | a path is handled exactly when some plugin accepted it |
| CopyPipeline.VisitFacts | src/copy/IncrementalCopy.js:56-72 | each plugin is offered all files and its accepted files join the handled list; the pass fails exactly when that plugin's rebuild fails |
| CopyPipeline.VisitDecision | src/copy/IncrementalCopy.js:56-72 | a visited plugin is passed over exactly when it accepts no file, and skipped exactly when `shouldRebuild` answers false; when it answers true the visit's table, actions and failure are `run`'s; a failing `shouldRebuild` ends the pass with that failure; otherwise nothing changes |
| CopyPipeline.StaleRuns | src/copy/IncrementalCopy.js:56-72 | a plugin that accepted an existing file whose recorded mtime is stale is run on its accepted files |
| CopyPipeline.ProcessAccounted | src/copy/IncrementalCopy.js:54-74 | the handled list stays the concatenation of what the visited plugins accepted |
| CopyPipeline.ProcessOffered | src/copy/IncrementalCopy.js:54-74 | plugins are visited in order; when nothing fails, every plugin is visited and none failed |
| CopyPipeline.ProcessKeeps | src/copy/IncrementalCopy.js:54-74 | a file synced before a pass is synced after it |
| CopyPipeline.ProcessSyncs | src/copy/IncrementalCopy.js:54-74 | after a pass that did not fail, every file any plugin accepted is synced |
| CopyPipeline.ProcessQuiet | src/copy/IncrementalCopy.js:54-74 | when all accepted files are synced, a pass rebuilds nothing and changes neither table nor actions |
| CopyPipeline.CopyOffers | src/copy/IncrementalCopy.js:29-52 | `copy` offers the middleware only unignored files, and its handled list is exactly what they accepted |
| CopyPipeline.RemainingExact | src/copy/IncrementalCopy.js:29-52 | the remaining files are exactly the unignored listed files no middleware accepted, each once |
| Seqs.Dedup | src/copy/IncrementalCopy.js:45 | `[...new Set(s)]` holds every element of `s` once, in the order of first occurrence; a sequence without repeats is unchanged |
| Seqs.Difference | src/copy/IncrementalCopy.js:45 | the set difference holds the elements of `a` not in `b`, each once, in the order of first occurrence in `a`; for `a` without repeats it is `a` filtered by not in `b` |
| CopyPipeline.RemainingOrder | src/copy/IncrementalCopy.js:45 | the remaining files keep the order of their first appearance in the unignored listing; for a listing without repeats they are that listing filtered by not handled |
| CopyPipeline.DefaultEndwareTakesRest | src/copy/IncrementalCopy.js:17-22 | with the default endware, every unignored file ends up handled |
| CopyPipeline.CopyIdempotent | src/copy/IncrementalCopy.js:29-74 | a second `copy` after one that did not fail rebuilds nothing, runs no action and leaves the table as it was |
| CopyPipeline.IncrementalCopy.constructor | src/copy/IncrementalCopy.js:17-22 | no middleware, Remaining as the only endware, the default ignore list, nothing handled |
| CopyPipeline.IncrementalCopy.Use | src/copy/IncrementalCopy.js:24-27 | `use` appends the plugin and returns the same object |
| CopyPipeline.IncrementalCopy.Process | src/copy/IncrementalCopy.js:54-74 | the loop leaves the state `ProcessSpec` gives |
| CopyPipeline.IncrementalCopy.Copy | src/copy/IncrementalCopy.js:29-52 | the method leaves the state `CopySpec` gives |
| Worker.OperationFor | src/worker/worker.js:9-16 | a task type has a handler exactly when it is one of the six operation names |
| Worker.RespondShape | src/worker/worker.js:19-43 | the reply is a success exactly when the type is known and the handler succeeds; a success carries the type, output and every handler field; a failure carries exactly success, error, type and input, with "Unknown task type: …" for an unknown type |
| Worker.HandlersKeepHeader | src/worker/worker.js:46-196 | no handler result overrides `success`, `type` or `output`, and none carries `error` |
| Worker.EscapeIsPerCharacter | src/worker/worker.js:199-215 | the chain of global replacements equals escaping each character on its own, which is the reference definition |
| Worker.EscapeSafe | src/worker/worker.js:199-215 | escaped HTML and XML contain no `<`, `>`, `"` or `'`; they differ only in the apostrophe entity |
| Worker.EscapePlain | src/worker/worker.js:199-215 | text without special characters is left unchanged |
| Worker.Author | src/worker/worker.js:56 | the author is never empty, and a non-empty author is kept |
| Worker.FillWellFormed | src/worker/worker.js:52-56 | in a template holding each placeholder once, in order, each is replaced by its value: escaped title and author, raw content |
| Worker.GenerateHtmlOutcome | src/worker/worker.js:46-62 | `generateHTML` fails exactly when the post has no title; otherwise it reports the filled page's length, with "undefined" for a missing content |
| Worker.TitleCapturesContent | src/worker/worker.js:53-54 | a title reading `{{content}}` is replaced into the page before the content is, so the content lands in the title's place and the real placeholder stays |
| Worker.JsonFiles | src/worker/worker.js:69 | the handlers read exactly the listed `.json` files |
| Worker.SlugOfPostFile | src/worker/worker.js:135 | a post file's slug is its name without `.json` |
| Worker.CountsAgree | src/worker/worker.js:97-195 | the index and RSS counts agree, and the sitemap counts one more URL |
| Pool.Settle | src/worker/WorkerPool.js:46-50 | a result message rejects its promise exactly when its `error` field is truthy, and otherwise resolves with the message |
| Pool.AllBusyIff | src/worker/WorkerPool.js:31-32 | the busy count equals the pool size exactly when every worker is busy |
| Pool.FirstIdle | src/worker/WorkerPool.js:31 | `find(w => !w.busy)` yields the lowest idle worker, or none when all are busy |
| Pool.CounterBounds | src/worker/WorkerPool.js:5-61 | `activeWorkers` stays between 0 and the pool size, and is below it exactly when some worker is idle |
| Pool.EmptyErrorResolves | src/worker/WorkerPool.js:46-50 | a failure reply with an empty error message resolves instead of rejecting |
| Pool.WorkerPool.constructor | src/worker/WorkerPool.js:2-19 | `numWorkers` idle workers numbered from 0, an empty queue, no active workers |
| Pool.WorkerPool.ProcessQueue | src/worker/WorkerPool.js:28-39 | with a queued task and an idle worker, the lowest idle worker takes the head of the queue and the count rises by one; otherwise nothing changes |
| Pool.WorkerPool.Run | src/worker/WorkerPool.js:21-26 | `run` enqueues the task under a fresh ticket and dispatches at once when nothing waits and a worker is idle |
| Pool.WorkerPool.HandleResult | src/worker/WorkerPool.js:41-53 | the worker's promise is settled by `Settle`, and the freed worker takes the next queued task if there is one |
| Pool.WorkerPool.HandleError | src/worker/WorkerPool.js:55-61 | the worker's promise is rejected with the error, and the freed worker takes the next queued task if there is one |
| Build.Images | src/worker/build.js:110 | exactly the listed `.jpg`, `.png` and `.jpeg` names become image tasks |
| Build.GatherTasks | src/worker/build.js:75-135 | the three loops build exactly the catalog |
| Build.CatalogLayout | src/worker/build.js:75-135 | the catalog's order is: HTML tasks, the index task, copy tasks, image tasks, then RSS and sitemap, each list in listing order |
| Build.CatalogByKind | src/worker/build.js:75-135 | sorting the catalog by task type gives one HTML task per `.json` post, one index, one copy per asset, one optimisation per image, one RSS feed and one sitemap |
| Build.HtmlOutput | src/worker/build.js:84 | the post `name.json` is written to `dist/posts/name.html` |
| Build.TallyTotal | src/worker/build.js:155-159 | succeeded plus failed is the number of tasks |
| Memoizing.KeyConfig | src/objects/lib/Memoize.js:22-43 | a string key uses the default ttl; an object key uses its own ttl unless it is undefined or null; unnamed keys and other items are ignored |
| Memoizing.ConfigOfLast | src/objects/lib/Memoize.js:13-15 | the last key entry naming a property decides its ttl |
| Memoizing.Lookup | src/objects/lib/Memoize.js:153-167 | an entry is returned exactly when present and not expired; an expired entry is deleted |
| Memoizing.ExpiryBoundary | src/objects/lib/Memoize.js:159-164 | an entry is still served exactly `ttl` ms after it was stored and gone one ms later; without a ttl it never expires |
| Memoizing.Settle | src/objects/lib/Memoize.js:122-131 | a settled promise leaves the pending table; a resolved value is cached and an error is not |
| Memoizing.RepeatSyncHits | src/objects/lib/Memoize.js:104-141 | a synchronous result is computed once and served from the cache until it expires |
| Memoizing.AsyncSharesPending | src/objects/lib/Memoize.js:116-134 | a second async call while the first is pending gets the first promise |
| Memoizing.SettledAsync | src/objects/lib/Memoize.js:122-131 | after resolution the next call is a cache hit; after a rejection the method runs again |
| Memoizing.Without | src/objects/lib/Memoize.js:181-185 | clearing by name removes exactly the keys containing `:name:` and keeps the others' entries |
| Memoizing.ClearSelects | src/objects/lib/Memoize.js:178-191 | clearing a method's name removes its results, but never a getter's, since getter keys have no second colon |
| Memoizing.StatsOf | src/objects/lib/Memoize.js:193-203 | the stats list every cached key once with its age and ttl, the size is their number, and the pending count is the number of pending keys |
| Memoizing.Memo.constructor | src/objects/lib/Memoize.js:8-15 | the configuration is `ConfigOf` the keys, and the cache and pending tables start empty |
| Memoizing.Memo.ProcessKeyConfig | src/objects/lib/Memoize.js:22-43 | one entry adds its (name, ttl) pair to the configuration, or nothing |
| Memoizing.Memo.GetFromCache | src/objects/lib/Memoize.js:153-167 | the method does what `Lookup` says, deletion included |
| Memoizing.Memo.SetInCache | src/objects/lib/Memoize.js:169-175 | the key is stored with the value, the time and the ttl |
| Memoizing.Memo.MemoizeGetter | src/objects/lib/Memoize.js:59-70 | only a configured property is memoized; its getter is served from the cache, or computed and cached under that property's configured ttl, or its exception is rethrown with nothing cached, as `Call` says, and the configuration is unchanged |
| Memoizing.Memo.CallMethod | src/objects/lib/Memoize.js:59-79 | only a configured method is memoized; a call does what `Call` says under that method's configured ttl, a synchronous throw included, and the configuration is unchanged |
| Memoizing.ThrowCachesNothing | src/objects/lib/Memoize.js:104-115 | a method or getter that throws on a miss rethrows, caches nothing, leaves the pending calls alone and drops an expired entry, so the next call invokes it again |
| Memoizing.Memo.SettleCall | src/objects/lib/Memoize.js:122-131 | settling a configured method's promise does what `Settle` says under its configured ttl, and the configuration is unchanged |
| Memoizing.Memo.ClearCache | src/objects/lib/Memoize.js:178-191 | with a name only the matching keys go; without one the cache and pending tables are emptied |
| Memoizing.Memo.GetCacheStats | src/objects/lib/Memoize.js:193-203 | the size is the number of cached keys, the pending count is the number of pending keys, and each cached key is listed with its age `now - timestamp` and its ttl; the cache is not changed |
| Lib.JsRem | src/objects/Page.js:46 | JavaScript's `%` agrees with Dafny's on non-negative operands, is non-positive and larger than minus the divisor on negative ones, and always differs from the dividend by a multiple of the divisor |
| Lib.Chunk | src/lib.js:13 | `chunk` gives ceil(n/size) pieces, none empty, all full but the last |
| Lib.ChunkPiece | src/lib.js:13 | piece i is `arr.slice(i*size, i*size+size)` |
| Lib.ChunkFlatten | src/lib.js:13 | concatenating the pieces gives back the array |
| Lib.MsFoldParts | src/lib.js:15 | the `reduce` equals joining the non-zero unit parts with ", " |
| Lib.MsDecompose | src/lib.js:5-15 | the unit values and the remainder recompose the input, and the remainder is below the smallest unit |
| Lib.MsSmall | src/lib.js:15 | under one second, `ms(x)` is "x ms" |
| Lib.MsLarge | src/lib.js:15 | from one second on, `ms(x)` is the non-empty list of parts |
| Lib.OptAppend | src/lib.js:12 | an argument without `--` changes nothing; a `--` argument sets its key, later ones winning |
| Lib.OptForms | src/lib.js:12 | `--k=v` gives v, `--k` gives undefined, and `--k=v=w` keeps only v |
| Lib.FitToKBounds | src/lib.js:18 | the size is kept exactly when it fits 1024·K; otherwise the longer side (the height on a tie) becomes 1024·K |
| Pages.FileName | src/objects/Page.js:18-20 | page 0 is written to `index.html`, and only page 0 is |
| Pages.FileNamesDiffer | src/objects/Page.js:18-20 | distinct pages are written to distinct files |
| Pages.NeighboursRoundTrip | src/objects/Page.js:25-39 | next and previous stay in range, undo each other, and wrap exactly at the last and first page |
| Pages.Pager | src/objects/Page.js:45-47 | the pager has eleven entries, each the JavaScript remainder of the shifted index |
| Pages.PagerInRange | src/objects/Page.js:45-47 | with at least five pages every entry is a page index |
| Pages.PagerCentred | src/objects/Page.js:45-47 | for any number of pages, the middle entry is the current page |
| Pages.PagerNegative | src/objects/Page.js:45-47 | on the first of two pages, the pager's first entry is -1 |
| Pages.WrappedPager | src/objects/Page.js:45-47 | the corrected pager's entries are always page indices |
| Pages.WrappedPagerAgrees | src/objects/Page.js:45-47 | the corrected pager equals the written one whenever that one is in range, is centred on the current page, and steps by one modulo the page count |
| Books.Id | src/objects/Book.js:21-24 | a book's id holds no path separator |
| Books.IdOfDirectory | src/obj/Book.js:8-11 | the id of `dir/name` is `name` |
| Books.Capitalize | src/objects/Book.js:26-28 | a word keeps its length, with the first character upper-cased and the rest lower-cased |
| Books.NameNoDash | src/objects/Book.js:26-28 | for every id, the name has no dash |
| Books.NameWords | src/obj/Book.js:13-15 | for an id without spaces, the name's words are the id's dash-separated segments, capitalized, one for one |
| Books.BookPosts | src/objects/Book.js:35-41 | the posts come in reverse directory order |
| Books.BookPages | src/objects/Book.js:43-48 | one page per chunk of 36 posts, each with its index and every chunk |
| Books.PagesCoverPosts | src/objects/Book.js:13 | reading the pages in order gives the posts; every page but the last holds 36; each page knows the page count |
| Books.PageSlice | src/objects/Book.js:43-48 | page i holds posts 36·i up to 36·i+36 |
| TerminalColor.NumberRoundTrip | src/TerminalColor.js:3-44 | every colour, background and style is found again from its escape parameter |
| TerminalColor.CodesDistinct | src/TerminalColor.js:3-44 | no two table entries share an escape sequence |
| TerminalColor.Sgr | src/TerminalColor.js:3-44 | every code is `ESC [ digits m` |
| TerminalColor.Wrap | src/TerminalColor.js:47-49 | `wrap` is the code, then the text, then the reset sequence |
| TerminalColor.PaintShows | src/TerminalColor.js:52-88 | each colour, background and style method shows exactly its text, and ends with a reset |
| TerminalColor.Combine | src/TerminalColor.js:91-94 | `combine` is the joined codes and the text, followed by the reset |
| TerminalColor.CombineCases | src/TerminalColor.js:91-94 | with no codes, `combine` is the text and a reset; with one code it equals `wrap` |
| TerminalColor.Log | src/TerminalColor.js:97-108 | each argument is formatted on its own, in order |
| TerminalColor.FormatLayout | src/TerminalColor.js:97-108 | a logged string is the background code, the foreground code, the text and two resets, and shows exactly the text |

## Left out

- File system, sqlite, child processes, sharp, the Chastity markdown parser, worker threads and `console` are parameters or are not modelled. Directory listings, modification times, process exit codes, output sizes and I/O failures are inputs. Effects are recorded as a list of actions.
- Dates, `Date.now()` and floating point are not modelled. The clock is an integer parameter, and a post's date arrives already rendered.
- Regular expressions are written as explicit predicates over ASCII case folding. `$` patterns in `replace` replacement strings are not modelled.
- Strings are sequences of characters. UTF-16 code units are not modelled.
- `Proxy` and `Reflect` dispatch, the prototype-chain searches in `Memoize`, and `JSON.stringify` of arguments are left out. The lookups found a name or found nothing, and the serialised arguments are a string parameter.
- The bodies of the index, RSS and sitemap documents are left out. Only the counts those handlers return are modelled.
- `path.join` is concatenation with one `/`, for operands that are already normalised. The separator is the POSIX one.
- A partial effect of a failing `execute` is not modelled: an execute either completes or fails before recording its file.
- The `other` hook in `IncrementalCopy.process` is left out, since no plugin defines one.
- `Presets.Lookup`, `Plugins.NewMp3`: keys inherited from the preset object's prototype (`presets['toString']`) are treated as unknown presets. In the source they are found, so `new Mp3` accepts them.
- `getCacheStats` returns entries as a map, so the `Map` insertion order is not modelled.
- `Pool.WorkerPool.HandleResult`, `Pool.WorkerPool.HandleError`: a message or error event on a worker that is not busy is excluded by a precondition. In the source it throws on a missing `currentTask` and drives `activeWorkers` below zero.
- Promises are modelled as tickets, and each ticket's settlement is recorded in a map. `destroy` and the `numWorkers` default from the CPU count are left out.
- `Lib.Chunk`: a chunk size of zero or less is excluded by a precondition. In JavaScript a negative size gives `[]`, because `Array.from` clamps the negative length to zero, and size 0 on a non-empty array throws a `RangeError` for the infinite length.
- `Memoizing.KeyConfig`: a `null` entry in `keys` passes `typeof item === 'object'` and then throws a `TypeError` on `item.key` (src/objects/lib/Memoize.js:32). The model has no null entry; `ItemOther` stands only for the entries that are skipped (numbers, booleans, undefined, objects without a key).
- `Books.Capitalize`: upper- and lower-casing are ASCII-only. JavaScript's Unicode case mapping (`é` to `É`, `ß` to `SS`, which also changes the length) is not modelled.
- `Worker.OperationFor`: a type naming a member inherited from `Object.prototype` (`constructor`, `__proto__`, `valueOf`, `hasOwnProperty`) is answered as an unknown task type. In the source the lookup finds the inherited member and calls it, or fails with a different error. The task lists built by the scheduler only hold the six known types.
- `Memoizing.Memo`: a property that is not configured is passed through by `#handleGet` (src/objects/lib/Memoize.js:59-62) and is not modelled; the memoizing members require a configured property.
- `Lib.Opt`: option values are `Option<string>`. A value without `=` is `undefined`, and the defaults are strings or undefined.
- `Lib.MsDecompose`: `ms` on negative or fractional input is not covered.
- `Book.navPager` (src/objects/Book.js:31-33) reads fields a book does not have and always yields an empty array. It is not modelled.
- `Book.posts` loading the posts from disk is not modelled. The loaded posts are a parameter.
- `TerminalColor.Log`: only string arguments are modelled, not the `JSON.stringify` of other values.
- `Pages.Posts`: the async `posts()` of a page is a plain accessor.

## Findings

| source | as written | input that shows it | evidently intended | confidence | as-written member | corrected member |
|---|---|---|---|---|---|---|
| src/objects/Page.js:45-47 | pager entries are `(current - 5 + i + total) % total` with JavaScript's truncating remainder, which is negative for a negative dividend | a book of two pages, on the first page: entry 0 is `(0 - 5 + 0 + 2) % 2 == -1` | every pager entry is a page index in `[0, total)`, wrapping around | not executed | Pages.PagerNegative | Pages.WrappedPager |
