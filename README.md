# Yuque article sync and helpers, in Dafny

This project models the core of a pair of Gatsby plugins that mirror a Yuque
knowledge base into local pages:

- **The incremental article sync** of `src/download.js`. A `Downloader` reads
  the cached article array from a JSON file. It fetches the document list of
  the knowledge base and keeps the published documents. Each one is shaped
  into a summary: the `PICK_PROPERTY` keys, with `published_at` renamed to
  `updated_at` and `first_published_at` renamed to `created_at`. The
  downloader then classifies each summary against the cache by `id` and
  update time:
  - a new summary is appended;
  - a new or changed summary is queued for download;
  - an unchanged one is left alone.

  Each queued download merges the article body into its own slot. The cache
  is written back only when something was queued and no download failed.
- **The string helpers of the image plugin**
  (`packages/gatsby-remark-yuque-images/src/utils.js`): `getMaxWidth`,
  `isYuqueImage`, `parseYuqueImage`, `paramsToObject` and `slash`.
- **The record helpers of `src/utils.js`**: `renameKeys`, `formatArray` and
  `formatRaw`.

Files, one module each:

| file | module | what it holds |
|---|---|---|
| `wrappers.dfy` | `Wrappers` | `Option`, `Result` |
| `js_value.dfy` | `JsValue` | JavaScript values. Objects are ordered property lists. Property read, assignment, `Object.assign`/`R.merge`, `===`, truthiness, and the JSON write/read round trip. |
| `text.dfy` | `Text` | `split`, `join`, prefix and substring tests, ASCII case folding, `\s` |
| `image_utils.dfy` | `ImageUtils` | the image-plugin helpers |
| `record_utils.dfy` | `RecordUtils` | `renameKeys`, `formatArray`, `formatRaw`; a generic model of a global `String.prototype.replace` |
| `sync_spec.dfy` | `SyncSpec` | the sync as functions of its inputs: shaping, lookup, one classification step, the loop, one download, the queue, `fetchArticles`, a whole pass |
| `download.dfy` | `Download` | the `Downloader` class and the cache file as a `Disk` object. Its methods mutate `cachedArticles` and `needUpdate` as the source does, and each is proved to leave the state the `SyncSpec` functions describe. |
| `sync_props.dfy` | `SyncProps` | what a pass guarantees, proved about `SyncSpec` |

The sync is modelled in terms of these parameters:

- **The document list** is a `Result<seq<Object>, string>`. `Err` is the
  failure of the remote client.
- **Each article download** is a function `fetch` from the slug to
  `Result<Object, string>`. It stands for `client.getArticle` followed by
  `parseMatter`.
- **Date parsing** is `+new Date(x)`, modelled as a function `parse` to
  `Option<int>`. `None` is `NaN`, which is never `===` to anything, itself
  included.
- **The cache file** is `Option<Value>`: the parsed JSON, or `None` when the
  file is missing or unreadable.

The queue of five concurrent jobs is modelled as running its jobs one after
the other and stopping at the first failure. When no two jobs target the same
slot, the order in which they complete cannot change the result
(`SyncProps.RunAllEffect`). Jobs target distinct slots whenever the listed
published documents have distinct ids (`SyncProps.ClassifyAllKeepsInv`). With
a repeated id, two jobs share a slot and the order of completion decides what
it ends up holding; the model fixes one order (see "Left out").

**Behaviour of the code worth knowing:**

- **Idempotence has preconditions.** A second pass with no remote changes
  writes nothing only under these conditions
  (`SyncProps.SecondPassWritesNothing`):
  - the cache file holds JSON;
  - the published documents have distinct number or string ids;
  - every published document's `published_at` is a parsable date string;
  - no article body's front matter sets `id` or `updated_at`.

  A document whose date does not parse compares as `NaN`. It is therefore
  downloaded, and the cache rewritten, on every pass.
- **Changed articles.** When a changed article is seen, its cached record is
  left as it is and only its download is queued (`src/download.js:107-112`).
  The new summary reaches the slot when the download is merged, and a failed
  pass writes nothing anyway.
- **Unique ids.** Nothing checks that the ids of a knowledge base are unique.
  The cache's ids stay unique in the `===` sense, because a summary is
  appended only when no cached record has an `===` id
  (`SyncProps.ClassifyAllKeepsUniqueIds`). The idempotence result needs
  distinct ids in the listing as a precondition.

## Model

| member | source | states |
|---|---|---|
| JsValue.Get | src/download.js:90 | `o[k]` reads `undefined` when the object has no property `k`. A key in the first slot reads that slot's value. |
| JsValue.Assoc | src/utils.js:78 | `R.assoc` on a copy. The key takes the new value and every other key keeps its own. The key set grows by exactly that key. An existing key keeps its slot and a new one is appended. Well-formedness is preserved. |
| JsValue.Spread | src/download.js:57 | Assigning fields one after the other gives exactly the keys of the start and of the fields. A well-formed start stays well formed. |
| JsValue.SpreadGet | src/download.js:57 | After a series of assignments, the last assignment to a key decides its value. Other keys keep their value. |
| JsValue.SpreadCopies | src/download.js:57 | Spreading a well-formed object into `{}` copies it, key order included. |
| JsValue.SpreadLastWins | packages/gatsby-remark-yuque-images/src/utils.js:93-95 | After assigning a sequence of fields to `{}`, the key of a field no later field reassigns holds that field's value. |
| JsValue.MergeGet | src/download.js:57-58 | `R.merge(a, b)` and `{...a, ...b}`: the result has the keys of both. A key of `b` takes `b`'s value; a key only in `a` keeps `a`'s. |
| JsValue.Merge | src/download.js:58 | The merged object never has a duplicate key. |
| JsValue.PropOf | src/download.js:90 | Reading a property of `null` or `undefined` is a TypeError (`None`). An object gives its property. |
| JsValue.Truthy | src/download.js:79 | A value is falsy exactly when it is `undefined`, `null`, `false`, `0` or `""`. |
| JsValue.StrictEq | src/download.js:89-91 | `===` holds exactly between equal values that are not arrays or objects. |
| JsValue.LastGetIsGet | src/utils.js:78 | In an object without duplicate keys, the first and the last property of a name agree. |
| JsValue.JsonifyGet | src/download.js:149 | A property read back after `JSON.stringify` and a later parse is the written form of its value. It reads `undefined` when it was `undefined`. |
| JsValue.Jsonify | src/download.js:149 | The written form of a value is never `undefined`. `undefined` becomes `null`; `null`, booleans, numbers and strings are unchanged; an array keeps its length; an object stays an object and loses only properties. |
| Text.Split | packages/gatsby-remark-yuque-images/src/utils.js:74-79 | `split` on one character gives at least one piece. No piece holds the separator. A string without the separator is its own single piece, and one with it gives several. |
| Text.JoinSplit | packages/gatsby-remark-yuque-images/src/utils.js:74-79 | Joining the pieces of a split gives the string back. |
| Text.SplitJoin | src/utils.js:53 | Splitting pieces joined by a separator none of them holds gives the pieces back. |
| ImageUtils.GetMaxWidth | packages/gatsby-remark-yuque-images/src/utils.js:65-67 | The result is the smaller of the two widths: no larger than either, and equal to one of them. |
| ImageUtils.IsYuqueImageSpec | packages/gatsby-remark-yuque-images/src/utils.js:69-71 | `isYuqueImage` holds exactly when the pattern matches at some position of the URL. The test is unanchored. |
| ImageUtils.IsYuqueImage | packages/gatsby-remark-yuque-images/src/utils.js:69-71 | A recognised URL is at least as long as the shortest match. A URL that starts with the pattern is recognised. |
| ImageUtils.MatchesBuiltUrl | packages/gatsby-remark-yuque-images/src/utils.js:70 | Both hosts are recognised. Any non-line-terminator in place of either unescaped dot is accepted as well. |
| ImageUtils.ParamField | packages/gatsby-remark-yuque-images/src/utils.js:93-94 | The key is the text before the first `=` of the piece. Without `=` the value is `undefined`. Otherwise the value is a string: the text after the first `=`, up to the second `=` or the end. |
| ImageUtils.ParamsToObject | packages/gatsby-remark-yuque-images/src/utils.js:90-97 | A missing or empty string gives `{}`. Otherwise the keys are exactly those of the pieces, no key occurs twice, and there are at most as many as pieces. |
| ImageUtils.ParamsToObjectLastWins | packages/gatsby-remark-yuque-images/src/utils.js:92-96 | A key takes the value of its last piece, so a later duplicate overwrites an earlier one. |
| ImageUtils.ImageUrl | packages/gatsby-remark-yuque-images/src/utils.js:74-75 | `url` is a prefix of the link up to a `#` or `?`, and holds no `#`. It is cut at `?` only when it contains `x-oss-process`, and then it holds no `?`. |
| ImageUtils.ParseYuqueImage | packages/gatsby-remark-yuque-images/src/utils.js:73-88 | `url` as `ImageUrl` states. `filename` is the last `/` segment: it holds no `/` and ends `url` right after a `/`, or is all of `url` when `url` has no `/`. `folder` is `undefined` exactly when `url` has no `/`. Otherwise it holds no `/`, and `folder/filename` ends `url` right after a `/` or is all of it. `ext` holds no `.` and ends `url` right after its last dot, or is all of `url`. `styles` are the parameters of the text between the first and the second `#`, or `{}` without `#`. |
| ImageUtils.FileName | packages/gatsby-remark-yuque-images/src/utils.js:77-78 | `filename` holds no `/`. When the URL has a `/`, the URL ends with `/` followed by `filename`; otherwise `filename` is the whole URL. |
| ImageUtils.Folder | packages/gatsby-remark-yuque-images/src/utils.js:77-79 | `folder` is `undefined` exactly when the URL has no `/`. Otherwise it holds no `/`, `folder/filename` ends the URL, and what comes before it is empty or ends with `/`. |
| ImageUtils.LastSegmentUnique | packages/gatsby-remark-yuque-images/src/utils.js:77-78 | Only one string is the last `/` segment of a URL, so the properties `FileName` states determine it. |
| ImageUtils.SegmentBeforeUnique | packages/gatsby-remark-yuque-images/src/utils.js:77-79 | Only one string is the segment before a given last segment, so the properties `Folder` states determine it. |
| ImageUtils.UrlParts | packages/gatsby-remark-yuque-images/src/utils.js:77-79 | A URL made of a directory, `/`, a folder, `/` and a file name, both without `/`, gives back that folder and that file name. |
| ImageUtils.ParseYuqueImageParts | packages/gatsby-remark-yuque-images/src/utils.js:73-88 | A link whose `url` is a directory, a folder and a file name joined by `/` parses to that folder and file name. |
| ImageUtils.Extension | packages/gatsby-remark-yuque-images/src/utils.js:76 | `ext` holds no `.` and ends the URL, after a `.` when the URL has one. Without a dot it is the whole URL. |
| ImageUtils.UrlSegments | packages/gatsby-remark-yuque-images/src/utils.js:77-79 | The last `/` segment of a URL holds no `/` and ends the URL. With several segments, the last two joined by `/` end the URL; with one, it is the whole URL. |
| ImageUtils.UrlExtension | packages/gatsby-remark-yuque-images/src/utils.js:76 | The last `.` piece of a URL holds no `.` and ends the URL, after a `.` when the URL has one. Without a dot it is the whole URL. |
| ImageUtils.ToSlashes | packages/gatsby-remark-yuque-images/src/utils.js:115 | Every backslash becomes a slash and every other character is kept, at the same position. |
| ImageUtils.Slash | packages/gatsby-remark-yuque-images/src/utils.js:108-116 | An extended-length path is returned unchanged. Any other path comes back with the same length, no backslash, and only backslashes changed. |
| ImageUtils.SlashIdempotent | packages/gatsby-remark-yuque-images/src/utils.js:108-116 | `slash(slash(p)) == slash(p)`. |
| RecordUtils.RenameKeys | src/utils.js:77-79 | The result has no duplicate key and no more keys than the input. Its keys are exactly the new names of the input's keys. |
| RecordUtils.RenameKeysLaterWins | src/utils.js:77-79 | Each value lands under its new name. When two keys land on the same name, the later one in key order wins. |
| RecordUtils.RenameKeysEmptyMap | src/utils.js:77-79 | With an empty map, `renameKeys` is the identity, key order included. |
| RecordUtils.FormatArray | src/utils.js:51-54 | The result is bracketed. A string `s` gives `[s]`, and any value that is neither an array nor a string gives `[]`. |
| RecordUtils.FormatArrayString | src/utils.js:52 | A string renders as the one-element array holding it. |
| RecordUtils.FormatArrayRoundTrip | src/utils.js:51-54 | For strings without commas, splitting the text between the brackets on `,` gives the strings back. |
| RecordUtils.NewKey | src/utils.js:78 | `keysMap[key] \|\| key`: the mapped name when the map gives a non-empty one, otherwise the key itself. The new name is empty only for the empty key. |
| RecordUtils.ReplaceAll | src/utils.js:65 | A global replace whose replacement is no longer than any match never lengthens the text. |
| RecordUtils.ReplaceAllNoMatch | src/utils.js:65 | Where the pattern matches nowhere, `replace` changes nothing. |
| RecordUtils.ReplaceAllKeepsPrefix | src/utils.js:65 | Where nothing matches before a position, the text up to it is kept and the rest is replaced as if it stood alone. |
| RecordUtils.ReplaceAllFirstMatch | src/utils.js:65 | The text before the first match is kept and the match is replaced. The scan then resumes after the match, over the rest as if it stood alone. |
| RecordUtils.ReplaceAllStep | src/utils.js:65 | A text with a first match becomes the text before it, the replacement, and the replacement of the rest. With `ReplaceAllNoMatch` this determines the result on every text. |
| RecordUtils.IndexOfIgnoringCase | src/utils.js:64 | It gives the first position at or after `from` where the text starts, ignoring case, and `None` exactly when there is no such position. |
| RecordUtils.HiddenBlockMatch | src/utils.js:64 | A match spans at least the opening and the closing tag and stays within the text. |
| RecordUtils.HiddenBlockMatchSpec | src/utils.js:64 | A hidden block matches exactly when the text starts with the opening tag and a closing tag follows. The match ends at the first closing tag, so `*?` is non-greedy. |
| RecordUtils.DoubledBrMatch | src/utils.js:63 | A match is exactly ten characters long. |
| RecordUtils.MatchesStartWith | src/utils.js:63-64 | A hidden block starts with `<d` and a doubled break with `<b`, in either case. |
| RecordUtils.FormatRaw | src/utils.js:62-66 | The cleaned body is never longer than the original; what each pass does is stated by the lemmas below. |
| RecordUtils.FormatRawPlainText | src/utils.js:62-66 | Text without `<` passes through unchanged. |
| RecordUtils.FormatRawCollapsesBreaks | src/utils.js:63-65 | `<br>`, white space, `<br>`, white space collapses into one `<br>`. |
| RecordUtils.FormatRawHiddenBlockIsShortest | src/utils.js:64-65 | A hidden block ends at its first closing tag. Text after it, a later closing tag included, is kept. |
| RecordUtils.PlainPasses | src/utils.js:63-65 | Text without `<` passes through each pass unchanged. |
| RecordUtils.HiddenPassStep | src/utils.js:64-65 | The hidden-block pass deletes the first hidden block, keeps the text before it, and goes on after its first closing tag. |
| RecordUtils.HiddenPassDropsBlock | src/utils.js:64-65 | A single hidden block is deleted and nothing else changes. |
| RecordUtils.BrPassStep | src/utils.js:63-65 | The break pass replaces the first doubled break, white space included, by one `<br>`, keeps the text before it, and goes on after it. |
| RecordUtils.FormatRawTwoBlocks | src/utils.js:62-66 | Two hidden blocks in plain text are both deleted, and nothing else changes. |
| RecordUtils.FormatRawBlockBetweenBreaks | src/utils.js:65 | Hidden blocks go before breaks collapse: two breaks that a hidden block separates collapse into one `<br>`. |
| SyncSpec.Pick | src/download.js:77 | `R.pick`: the result has no duplicate key. Its keys are exactly the listed names the object has, each with the object's value. |
| SyncSpec.ShapeSummary | src/download.js:74-80 | A summary has no duplicate key. What it holds is stated by the `SyncProps.ShapeSummary*` lemmas. |
| SyncSpec.Realize | src/download.js:74-80 | There are no more summaries than documents. |
| SyncSpec.FindIndexFrom | src/download.js:89-95 | `findIndex` with `item.id === article.id`, from a start index. A found index holds a matching record, and every record before it is passed over. `Threw` marks a `null` or `undefined` record. `Missing` means every record was passed over. |
| SyncSpec.FindIndex | src/download.js:89-95 | The same from index 0: the first matching record, or a TypeError at the first `null` or `undefined` record before one, or `Missing` when every record has another id. |
| SyncSpec.SameTime | src/download.js:105-106 | A date that does not parse is `NaN` and equals nothing, itself included. Two parsable dates are the same time exactly when they parse to the same number. |
| SyncSpec.ClassifyOne | src/download.js:94-113 | One iteration. It stops exactly when the lookup throws, and never when no record is `null` or `undefined`. The cache grows by one record exactly when the id is missing; otherwise it is unchanged. At most one download is queued, and every queued download targets an existing slot. |
| SyncSpec.ClassifyAll | src/download.js:93-114 | The loop only appends to the cache and to the queue. It appends no more records than downloads, every queued download targets an existing slot, and it runs to the end when no record is `null` or `undefined`. |
| SyncSpec.RunTask | src/download.js:49-62 | A download changes only its own slot, which then holds an object. It fails exactly when fetching the body fails. |
| SyncSpec.RunAll | src/download.js:116-122 | The queue keeps the cache's length and leaves every slot no download targets as it was. |
| SyncSpec.RunAllFails | src/download.js:116-118 | The queue fails exactly when some download fails. |
| SyncSpec.FetchAll | src/download.js:70-123 | The cache never shrinks and the dirty flag is never cleared; a cache that stays clean is unchanged. A failed listing rejects with its error and changes nothing. Otherwise it rejects with a TypeError exactly when a lookup reached a `null` or `undefined` record, which cannot happen when the cache has none, and it resolves exactly when there was no TypeError and every queued download succeeded. |
| SyncSpec.SyncPass | src/download.js:156-167 | A pass writes only after success, and what it writes is the JSON form of the cache it returns. A failed listing fails the pass with its error and writes nothing. Otherwise the pass fails with a TypeError exactly when a lookup reached a `null` or `undefined` record of the cache read, and succeeds exactly when there was none and every queued download succeeded. A successful pass returns at least the records it read; one that writes nothing returns exactly the cache it read. |
| SyncSpec.Loaded | src/download.js:128-140 | The cache read is the file's array, or `[]` when the file is missing, unreadable or not an array. |
| Download.Disk.Write | src/download.js:149-151 | The file holds the written value and one more write is counted. |
| Download.Downloader.constructor | src/download.js:32-39 | A new downloader starts with an empty cache and a clean flag. |
| Download.Downloader.ReadYuqueCache | src/download.js:128-140 | The cache becomes the file's array, or `[]` when the file is missing, unreadable or not an array. |
| Download.Downloader.WriteYuqueCache | src/download.js:145-153 | The file is written, as the JSON of the cache, exactly when the flag is set. Otherwise it is untouched. |
| Download.Downloader.FetchArticle | src/download.js:49-62 | The job leaves the cache as `RunTask` describes. On failure it leaves the cache unchanged and reports the error. |
| Download.Downloader.RunQueue | src/download.js:116-122 | Running the queue leaves the cache and the error `RunAll` describes. |
| Download.Downloader.ClassifyArticle | src/download.js:94-113 | One iteration leaves the cache and queue `ClassifyOne` describes. The flag is set exactly when a download is queued, and a TypeError changes nothing. |
| Download.Downloader.FetchArticles | src/download.js:70-123 | The cache, the flag and the rejection are those of `FetchAll` from the state before the call. |
| Download.Downloader.AutoUpdate | src/download.js:156-160 | The sync runs from what was read. The file is written once, exactly when the sync succeeded and the flag is set. |
| Download.GetAllArticles | src/download.js:163-167 | The result and the file are those of `SyncPass`: one write when it writes, none otherwise. |
| SyncProps.ShapeSummaryGetRenamed | src/download.js:74-80 | Each picked property reaches the summary under its new name, with its value. |
| SyncProps.ShapeSummaryDates | src/download.js:76 | `updated_at` holds `published_at` and `created_at` holds `first_published_at`. |
| SyncProps.ShapeSummaryKept | src/download.js:74-80 | The other picked properties keep their name and value. |
| SyncProps.ShapeSummaryKeys | src/download.js:74-80 | A summary has no key outside the kept ones and the two renamed dates. |
| SyncProps.RealizeMembers | src/download.js:74-80 | Every summary is the shape of a published document, and every published document gives one. |
| SyncProps.FindIndexSameLookup | src/download.js:89-95 | The lookup depends only on which records throw, match or pass. |
| SyncProps.FindIndexAppend | src/download.js:89-100 | Appending records leaves a found index or a TypeError where it was. |
| SyncProps.FindIndexPushed | src/download.js:95-100 | After a missing id is pushed, it is found at the old length. |
| SyncProps.FindIndexPushedOther | src/download.js:95-100 | Pushing a record with another id leaves a missing id missing. |
| SyncProps.ClassifyOneKeepsUniqueIds | src/download.js:95-102 | One iteration keeps the ids of the cache unique, in the `===` sense. |
| SyncProps.ClassifyAllKeepsUniqueIds | src/download.js:93-114 | The loop keeps the ids of the cache unique. |
| SyncProps.ClassifyOnePushes | src/download.js:99-102 | A pushed summary goes to the old length, and its download targets exactly that slot. |
| SyncProps.ClassifyAllAppends | src/download.js:93-114 | No record is removed or moved. Every appended record is a summary, with a queued download targeting its slot. |
| SyncProps.ClassifyAllGrowth | src/download.js:93-102 | When no record is `null` or `undefined` and no id is an array or object, the loop grows the cache by exactly the number of distinct ids the cache did not hold. |
| SyncProps.ClassifyAllFindsAll | src/download.js:93-102 | Under the same conditions, every summary's id is found in the cache the loop leaves. |
| SyncProps.NewIdsPushed | src/download.js:96-102 | A summary the cache lacks adds its id to the new ids, and the rest of the loop then finds it. |
| SyncProps.NewIdsFound | src/download.js:103-104 | A summary the cache holds adds no new id. |
| SyncProps.MissingAfterPush | src/download.js:99-100 | Pushing a summary does not change whether another id is missing. |
| SyncProps.ClassifyOneNoop | src/download.js:95-112 | An iteration changes nothing exactly when the summary is found with the same update time. A summary found with another update time leaves the cache as it is and queues one download of the summary to the found slot. A missing summary is appended and queued for the new slot. |
| SyncProps.RunTaskMerge | src/download.js:53-59 | A downloaded record has the keys of the cached record, the summary and the body. The body wins over the summary, the summary over the cached record, and keys only the cached record has survive. |
| SyncProps.RunAllEffect | src/download.js:49-60 | When no download fails and no two target the same slot, each slot ends with its own download merged into its record, whatever the order. |
| SyncProps.RunAllKeepsKeys | src/download.js:58-59 | Downloads never remove a key of an object record. |
| SyncProps.PassKeepsKeys | src/download.js:93-122 | After a successful pass every record read keeps its slot, and an object record keeps every key. |
| SyncProps.InvMissing | src/download.js:96-102 | A missing summary is appended and queued. Every earlier summary stays found, with its download or its unchanged old slot. |
| SyncProps.InvSame | src/download.js:104-107 | A summary found with the same update time changes nothing. Its slot is an old record that no download targets. |
| SyncProps.InvChanged | src/download.js:107-112 | A summary found with another update time is queued for its slot, and no other download targets that slot. |
| SyncProps.ClassifyAllKeepsInv | src/download.js:93-114 | With distinct ids, the loop ends with every summary found. Each is either queued or unchanged in an old slot, and the downloads target distinct, matching slots. |
| SyncProps.DownloadKeepsId | src/download.js:57-59 | A download keeps the id of the slot. |
| SyncProps.DownloadsKeepIds | src/download.js:116-122 | After the queue, every record keeps its id and is well formed. |
| SyncProps.JsonifyStrictEq | src/download.js:89-91 | Writing a value as JSON does not change whether it is `===` to a number or string id. |
| SyncProps.JsonifyLookup | src/download.js:89-91 | Writing a record as JSON does not change how a lookup reads it. |
| SyncProps.WrittenLookup | src/download.js:89-95 | A lookup in the written cache finds what it found when the loop ended. |
| SyncProps.DownloadedUpdatedAt | src/download.js:53-59 | A downloaded record, written and read back, has the summary's update time. |
| SyncProps.FreshAfterWrite | src/download.js:93-152 | After a successful pass and its write, every summary is found in the file with its update time. |
| SyncProps.ClassifyAllNothingToDo | src/download.js:104-107 | When every summary is up to date, the loop queues nothing and leaves the cache alone. |
| SyncProps.UpToDatePass | src/download.js:145-160 | When every listed summary is up to date in the cache as read, the pass succeeds, returns that cache unchanged and writes no file. |
| SyncProps.SecondPassWritesNothing | src/download.js:145-167 | Under the conditions above, a second pass over the same remote data, starting from what the first left on disk, succeeds, downloads nothing and writes nothing. |

## Left out

- The remote HTTP client is left out: `src/yuque.js`, its axios requests, and the wrapping of its error messages. The document list and the article download are parameters.
- `parseMatter` and `formatDate` are left out. They depend on gray-matter, html-entities and dayjs, which are not part of this model. The parsed body is whatever the `fetch` parameter returns.
- `+new Date(...)` is the `parse` parameter. The date formats it accepts are not modelled.
- The queue's concurrency of five is modelled as sequential, fail-fast jobs. A real failure lets up to four jobs already in flight still merge into the in-memory cache. That cache is then dropped and never written, and which failure is reported among concurrent ones is not modelled.
- Reporter logging is left out.
- The file is read with Node's `require`, whose module cache hands a second read in the same process the same, mutated array. The model reads the file's content on every pass.
- `writeFileSync` errors are left out, as are `JSON.stringify` indentation and encoding. The written value is the JSON round trip of the cache (`Jsonify`).
- `Jsonify` does not merge duplicate keys, so it is applied only to records without them.
- Listed documents are assumed to be objects.
- `AsObject` treats a cached string or array record as having no own properties for `R.merge`. Index-like keys of such records are not modelled.
- Object keys that are integer-like are not reordered as JavaScript reorders them. `__proto__` is not modelled.
- `keysMap` lookups do not see `Object.prototype` properties.
- `keysMap` values are strings. Only the empty string falls back to the original key.
- Numbers are integers. `Array.prototype.join` renders them in plain decimal, with no exponent form and no fractions.
- The `i` flag of the regular expressions folds ASCII letters only.
- `buildResponsiveSizes` is left out because it uses floating-point arithmetic and rounding.
- `packages/gatsby-remark-yuque-images/src/index.js`, the `gatsby-node.js` files and `packages/gatsby-source-yuque` are not part of this model.
- `isString` is modelled only through `Str` values. String objects (`new String`) are not modelled.
- SyncSpec.Realize: its own contract bounds only the count. What the summaries hold is stated by `SyncProps.RealizeMembers` and the `ShapeSummary*` lemmas.
- SyncSpec.ShapeSummary: its own contract states only well-formedness, because its properties are stated by the `SyncProps.ShapeSummary*` lemmas.
- The completion order of the five concurrent jobs is not modelled. With a repeated id in the listing, two downloads target the same slot and whichever finishes last decides what the slot holds; the model runs the jobs in queue order.
- In JavaScript the `.` of the `isYuqueImage` pattern matches one UTF-16 code unit other than a line terminator. Strings here are sequences of Unicode scalar values, so a character outside the Basic Multilingual Plane is one character here but two code units there. A URL with such a character in place of one of the pattern's dots is recognised here but not by the code.
- RecordUtils.FormatRaw: its own contract states only the length bound. The result on a given body follows from `ReplaceAllStep` and `ReplaceAllNoMatch`, and the lemmas `HiddenPassStep`, `BrPassStep`, `FormatRawTwoBlocks` and `FormatRawBlockBetweenBreaks` apply them to the two passes.
- JsValue.StrictEq: arrays and objects are never `===`, not even to themselves, because object identity is not modelled. The ids compared always come from different parsed documents.
