# lre_client analytics core, modelled in Dafny

This project models the analytics core of `lre_client`, a client for
LoadRunner Enterprise (LRE), along with a few small helpers around it.

**Percentiles.** The analytics core computes weighted response-time
percentiles (p50, p90, p95, p99) for each (script, transaction) pair. Rows
arrive as a stream of chunks.

- The exact strategy (`analytics/percentile.py`):
  - it accumulates each key's samples by concatenation;
  - it resolves each key with a sort, cumulative-weight and interpolation estimator;
  - it clamps every value at zero.
- The digest strategy (`analytics/percentile_calculator.py`):
  - it feeds each key's samples to a lazily created t-digest;
  - when the grouped pass raises, it replays the whole chunk row by row;
  - it sanitises NaN and non-positive quantiles to zero.
- The analytics manager (`analytics/analytics_manager.py`) left-joins the SQL
  summary rows with the digest percentiles and zero-fills the rows that have no match.

**Helpers.**

- the result-type classification and lookups of an LRE run (`models/results.py`);
- the run-report helpers (`utils/common_utils.py`): the load-generator
  string, the `hh:mm:ss` duration, list chunking, the five-row report and the
  ASCII table layout;
- the login/logout state machine of the authenticator (`api/auth.py`);
- the results store (`data/results_store.py`).

**Modelling choices.**

- Values and weights are `real`. NaN appears only where the source tests
  for it: the digest's quantile oracle returns `None` for NaN.
- Pure code becomes functions and lemmas. Code that mutates state stays
  imperative:
  - the chunk loops become methods with loop invariants, proved against
    specification functions of the whole stream;
  - each t-digest is a `class` whose update log the methods extend in place;
  - the authenticator, its executor and session, and the results store with
    its shared Python lists are classes;
  - the table printer's column widths live in an `array`.
- Inputs the code cannot see become parameters:
  - the SQL chunk stream: `seq<seq<Row>>`;
  - the t-digest's quantile estimate: an oracle over its update log;
  - where the grouped digest pass raises: a per-chunk `Fault`;
  - whether each HTTP request succeeds: the executor's set of failing request numbers;
  - `datetime.fromisoformat`: a `TimeParser` function.

Files:

- `wrappers.dfy`: `Option`, `Result`.
- `text.dfy`: Python's `str(int)`, `int(str)`, `upper`, `strip`, `split` and `join`.
- `json.dfy`: JSON scalars with `int(v)` and `str(v)`.
- `rows.dfy`: rows, keys, filtering and grouping.
- `sorting.dfy`: `argsort`, as an insertion sort on (value, weight) pairs.
- `interpolation.dfy`: `np.interp`.
- `percentile.dfy`, `digest.dfy`, `analytics.dfy`: the three analytics modules.
- `results.dfy`, `common_utils.dfy`, `table.dfy`, `auth.dfy`, `results_store.dfy`: the helpers.

## Model

| member | source | states |
|---|---|---|
| Percentile.WeightedPercentile | lre_client/analytics/percentile.py:21-40 | one value per requested percentile; empty data gives all zeros; one sample gives that sample for every target whatever its weight; it fails (IndexError) exactly when there are at least two samples and fewer weights than samples |
| Percentile.OnePerTarget | lre_client/analytics/percentile.py:21-40 | the i-th output is the estimate for the i-th target alone, so outputs follow the request order |
| Percentile.NonPositiveTotalGivesZeros | lre_client/analytics/percentile.py:32-37 | with at least two samples and a total weight at or below 0, every output is 0 |
| Percentile.TotalWeightIsSum | lre_client/analytics/percentile.py:29-35 | the last cumulative weight after sorting is the sum of the input weights |
| Percentile.CumSumOrdered | lre_client/analytics/percentile.py:32 | cumulative weights are nondecreasing for non-negative weights and increasing for positive ones |
| Percentile.NormaliseOrdered | lre_client/analytics/percentile.py:39 | scaling by 100/total keeps the cumulative weights' order |
| Percentile.SortedPairsFromData | lre_client/analytics/percentile.py:29-31 | the sorted (value, weight) pairs are exactly the input pairs, each value kept with its own weight |
| Percentile.YsAreSortedData | lre_client/analytics/percentile.py:29-30 | the sorted values are nondecreasing and hold the same values as the data |
| Percentile.YsEnds | lre_client/analytics/percentile.py:29-30 | the first sorted value is the minimum of the data and the last one the maximum |
| Percentile.XsIncreasing | lre_client/analytics/percentile.py:32-39 | with positive weights the normalised cumulative weights increase strictly and end at 100 |
| Percentile.EstimateWithinData | lre_client/analytics/percentile.py:29-40 | with at least two samples and positive weights, every estimate lies between some sample and some sample |
| Percentile.EstimateAtBottom | lre_client/analytics/percentile.py:39-40 | a target at or below the first normalised cumulative weight gives the minimum of the data |
| Percentile.EstimateAtTop | lre_client/analytics/percentile.py:39-40 | a target of 100 or more gives the maximum of the data |
| Percentile.EstimateMonotone | lre_client/analytics/percentile.py:21-40 | with non-negative weights the estimate is nondecreasing in the target |
| Percentile.TargetsOrdered | lre_client/analytics/percentile.py:18-40 | for the fixed targets [50, 90, 95, 99] the outputs satisfy p50 <= p90 <= p95 <= p99 |
| Percentile.ClampAtZero | lre_client/analytics/percentile.py:102-105 | `max(0.0, v)`: at least 0 and at least v, and v itself when v >= 0 |
| Percentile.ResolveRow | lre_client/analytics/percentile.py:92-118 | a resolved row carries its key and four values >= 0 |
| Percentile.ResolveAccumulated | lre_client/analytics/percentile.py:88-106 | for a key's accumulated samples (at least two), the estimator does not fail, and each of p50, p90, p95 and p99 is the estimate for its target (no clamping is needed). The values are ordered p50 <= ... <= p99 and lie within the samples' range |
| Percentile.TieOrderMatters | lre_client/analytics/percentile.py:28-40 | the same (value, weight) pairs in another order among equal values give another estimate: 4 against 10/3 for the 30th percentile of 3, 5, 5 |
| Percentile.EligibleMembers | lre_client/analytics/percentile.py:87-90 | the keys that get a row are exactly those with at least two samples |
| Percentile.EligibleDistinct | lre_client/analytics/percentile.py:87-90 | no key gets two rows, since the groups' keys are distinct |
| Percentile.AppendChunk | lre_client/analytics/percentile.py:58-69 | after one chunk, each key's arrays are its old arrays followed by the chunk's valid samples for it; new keys are added in order |
| Percentile.AccumulateSamples | lre_client/analytics/percentile.py:44-69 | after all chunks, the keys are those with a valid row; each key's times and weights are the in-order concatenation of its rows with positive time and count over the flattened stream, so chunk boundaries do not matter; the row and chunk counters count them |
| Percentile.ResolveGroup | lre_client/analytics/percentile.py:92-118 | the try/except for one group: the row is the resolved (or zero-filled) row, and success is reported exactly when the estimator does not raise |
| Percentile.ResolveGroups | lre_client/analytics/percentile.py:79-118 | one row per key with at least two samples, in key order, each the resolved row; later groups are processed after a failing one; the success counter counts every row when arrays are aligned |
| Percentile.ComputePercentiles | lre_client/analytics/percentile.py:42-121 | distinct keys; a row exactly for the keys with at least two valid samples in the whole stream; each row the resolution of that key's samples, with 0 <= p50 <= p90 <= p95 <= p99 |
| Sorting.SortByValue | lre_client/analytics/percentile.py:29-31 | the pairs sorted by value, a permutation of the input |
| Sorting.PermutedZip | lre_client/analytics/percentile.py:29-31 | a permutation of the zipped arrays keeps every value with its own weight, both ways |
| Interpolation.LastAtMost | lre_client/analytics/percentile.py:40 | the last grid point at or below x, with every later point above x |
| Interpolation.InterpOnSegment | lre_client/analytics/percentile.py:40 | inside the grid, the value lies between the two values of its segment, or is the last value |
| Interpolation.InterpBounded | lre_client/analytics/percentile.py:40 | every interpolated value lies between two of the given values |
| Interpolation.InterpMonotone | lre_client/analytics/percentile.py:40 | on a nondecreasing grid with nondecreasing values, interpolation is nondecreasing in x |
| Interpolation.InterpRange | lre_client/analytics/percentile.py:40 | with nondecreasing values, the result lies between the first and the last value |
| Interpolation.InterpAtTop | lre_client/analytics/percentile.py:40 | at or beyond the last grid point the result is the last value (clamping) |
| Interpolation.InterpAtBottom | lre_client/analytics/percentile.py:40 | at or before the first point of an increasing grid the result is the first value (clamping) |
| Rows.ValidRows | lre_client/analytics/percentile.py:54 | the rows kept by the mask are exactly the input rows with positive response time and count |
| Rows.ValidRowsAppend | lre_client/analytics/percentile.py:54 | the mask commutes with concatenation of chunks |
| Rows.RowsOf | lre_client/analytics/percentile.py:59 | a key's group holds exactly the rows with that (script, transaction), empty iff there are none |
| Rows.RowsOfAppend | lre_client/analytics/percentile.py:59-69 | grouping commutes with concatenation of chunks |
| Rows.Columns | lre_client/analytics/percentile.py:61-62 | the time and weight columns are equal-length and hold each row's time and count |
| Rows.SamplesOfAppend | lre_client/analytics/percentile.py:64-69 | a key's samples over two chunks are its samples over the first followed by those over the second |
| Rows.SamplesOfNonEmpty | lre_client/analytics/percentile.py:54-65 | a key has samples exactly when it has a valid row |
| Rows.SamplesPositive | lre_client/analytics/percentile.py:54 | every accumulated time and weight is positive |
| Rows.GroupKeys | lre_client/analytics/percentile.py:59 | the groups of a chunk: each key with a row, once |
| Rows.FlattenSnoc | lre_client/analytics/percentile.py:49 | the stream read so far grows by the next chunk |
| DigestCalculator.ZipColumns | lre_client/analytics/percentile_calculator.py:45-54 | `zip(rt_values, counts)` of a group gives its rows' updates in order |
| DigestCalculator.ExtendAt | lre_client/analytics/percentile_calculator.py:42-43 | feeding a key creates its digest if missing and extends only its log |
| DigestCalculator.GroupedPassAt | lre_client/analytics/percentile_calculator.py:41-54 | a complete grouped pass adds each group's rows to its own digest once, and touches no other key |
| DigestCalculator.ReplayKeys | lre_client/analytics/percentile_calculator.py:59-63 | the row-by-row replay creates a digest exactly for the keys of the replayed rows |
| DigestCalculator.ReplayAt | lre_client/analytics/percentile_calculator.py:59-64 | the replay appends each row to its own key's digest, in row order |
| DigestCalculator.RaisedAt | lre_client/analytics/percentile_calculator.py:40-56 | a grouped pass that raises in group g has applied groups before g in full, a prefix of group g, and nothing after |
| DigestCalculator.ChunkStepKeys | lre_client/analytics/percentile_calculator.py:33-64 | after a chunk, the digests are the old ones plus one per key of a valid row of the chunk |
| DigestCalculator.ChunkStepNormal | lre_client/analytics/percentile_calculator.py:40-54 | without an exception, each valid row of the chunk is applied exactly once to its own key |
| DigestCalculator.ChunkStepFallback | lre_client/analytics/percentile_calculator.py:56-64 | after an exception, a key's log gains a prefix of its chunk updates and then all of them again |
| DigestCalculator.ChunkStepDoubleCounts | lre_client/analytics/percentile_calculator.py:56-64 | groups the grouped pass completed before the exception receive their rows twice |
| DigestCalculator.DigestKeys | lre_client/analytics/percentile_calculator.py:42-43 | there is one digest per distinct key with at least one valid row in the stream |
| DigestCalculator.DigestLogNoFaults | lre_client/analytics/percentile_calculator.py:29-54 | without exceptions, each key's digest receives exactly its valid rows in stream order, the same samples the exact strategy accumulates |
| DigestCalculator.ValidPairsPositive | lre_client/analytics/percentile_calculator.py:33-34 | the masked rows' updates have positive value and weight |
| DigestCalculator.DigestUpdatesValid | lre_client/analytics/percentile_calculator.py:33-64 | every update a digest receives comes from a valid row of its own key, so rows with time or count <= 0 never reach a digest, even on the fallback path |
| DigestCalculator.MethodWithoutFaults | lre_client/analytics/percentile_calculator.py:25-58 | without exceptions `method_used` is never "fallback", and stays "vectorized" when `batch_update` exists |
| DigestCalculator.Sanitise | lre_client/analytics/percentile_calculator.py:84-87 | a quantile is kept when it is a number > 0, and is otherwise 0.0; the result is >= 0 |
| DigestCalculator.DigestRow | lre_client/analytics/percentile_calculator.py:76-88 | a digest's row carries its key and four sanitised values >= 0 |
| DigestCalculator.TDigest.constructor | lre_client/analytics/percentile_calculator.py:43 | a new digest has received nothing |
| DigestCalculator.TDigest.Update | lre_client/analytics/percentile_calculator.py:54 | `update` appends one weighted sample |
| DigestCalculator.TDigest.BatchUpdate | lre_client/analytics/percentile_calculator.py:50 | `batch_update` appends the zipped samples in order |
| DigestCalculator.Touch | lre_client/analytics/percentile_calculator.py:42-43 | a missing key gets a fresh digest; existing digests are kept |
| DigestCalculator.Feed | lre_client/analytics/percentile_calculator.py:48-54 | one group's samples reach its digest by `batch_update` or per-row `update`; the iterative path is taken exactly when there is no `batch_update` |
| DigestCalculator.UpdateKey | lre_client/analytics/percentile_calculator.py:64 | one row's update extends only its own key's log |
| DigestCalculator.FeedGroup | lre_client/analytics/percentile_calculator.py:41-54 | one group of the grouped pass: its key's log gains the group's rows |
| DigestCalculator.ReplayRow | lre_client/analytics/percentile_calculator.py:59-64 | one row of the fallback: its key's log gains that row |
| DigestCalculator.GroupedLoop | lre_client/analytics/percentile_calculator.py:40-54 | the first groups of the grouped pass give the grouped-pass logs; `method_used` becomes "iterative" when there is no `batch_update` |
| DigestCalculator.ReplayLoop | lre_client/analytics/percentile_calculator.py:56-64 | the fallback loop gives the replay logs |
| DigestCalculator.RaisingPass | lre_client/analytics/percentile_calculator.py:40-56 | a grouped pass that raises leaves the logs of the raising specification |
| DigestCalculator.ProcessChunk | lre_client/analytics/percentile_calculator.py:30-64 | one chunk: the logs and `method_used` after it are those of the chunk-step specification |
| DigestCalculator.AccumulateDigests | lre_client/analytics/percentile_calculator.py:19-66 | after the stream, the digests are fresh and distinct, their logs are those of the stream specification, `total_processed` counts every row, and `method_used` is as specified |
| DigestCalculator.BuildResults | lre_client/analytics/percentile_calculator.py:71-90 | one row per digest, in digest creation order, each the sanitised row of that digest, single-row groups included |
| DigestCalculator.ComputePercentiles | lre_client/analytics/percentile_calculator.py:19-98 | a stream error is re-raised with no partial result; otherwise distinct keys, exactly one row per key with a valid row, each computed from that key's update log, all values >= 0 |
| AnalyticsManager.Matches | lre_client/analytics/analytics_manager.py:39-43 | the percentile rows that match a summary key, in order |
| AnalyticsManager.Lookup | lre_client/analytics/analytics_manager.py:39-43 | a matching percentile row exists exactly when the lookup finds one, and it has that key |
| AnalyticsManager.MatchesUnique | lre_client/analytics/analytics_manager.py:39-43 | with distinct percentile keys a summary row has at most one match |
| AnalyticsManager.MergeRowSingle | lre_client/analytics/analytics_manager.py:39-47 | with distinct percentile keys each summary row becomes exactly one row, joined or zero-filled |
| AnalyticsManager.MergeKeepsSummary | lre_client/analytics/analytics_manager.py:39-47 | with distinct percentile keys the result has one row per summary row, in summary order, each carrying that row's columns unchanged and the matching percentiles or zeros |
| AnalyticsManager.MergeRowsFromSummary | lre_client/analytics/analytics_manager.py:39-47 | every output row comes from a summary row with unchanged columns, and its percentiles come from a percentile row with its key or are all 0.0; unmatched percentile rows never appear; no summary row is lost |
| AnalyticsManager.RunAsWritten | lre_client/analytics/analytics_manager.py:33-47 | `run` fails exactly when there are no percentile rows, and otherwise returns the left merge |
| AnalyticsManager.EmptyPercentilesRaise | lre_client/analytics/analytics_manager.py:39-43 | with no percentile rows `run` as written raises, while the intended merge gives one zero-filled row per summary row |
| Results.IntField | lre_client/models/results.py:17-18 | an absent identifier is 0; a present one is `int` of its value, and the conversion error surfaces |
| Results.FromApiResponse | lre_client/models/results.py:14-25 | a result exactly when both `ID` and `RunID` convert; `ID` is converted first, so its error wins |
| Results.FromApiRoundTrip | lre_client/models/results.py:14-25 | a result sent in the API's shape, with string identifiers, decodes to itself |
| Results.FromApiNumericIds | lre_client/models/results.py:17-25 | numeric identifiers are taken as they are, with name and type copied |
| Results.FromApiDefaults | lre_client/models/results.py:17-24 | without `ID` and `RunID` the conversion succeeds with ids 0; a missing name or type is "", a present one is kept as given |
| Results.FromApiBadId | lre_client/models/results.py:17 | a text `ID` that is not a numeral (empty, or ending in a non-digit with no surrounding whitespace) makes the conversion raise |
| Results.ConvertAll | lre_client/models/results.py:57 | each item is decoded in order; the first failing item's error is raised |
| Results.CollectionFromApiResponse | lre_client/models/results.py:54-58 | the collection holds the run id and the decoded results, in order |
| Results.AtMostOneType | lre_client/models/results.py:27-45 | at most one of the four type predicates holds for a result |
| Results.Select | lre_client/models/results.py:60-78 | a type filter keeps exactly the results whose upper-cased type is the label |
| Results.SelectAppend | lre_client/models/results.py:60-78 | the filters preserve order: they distribute over concatenation |
| Results.SelectFirst | lre_client/models/results.py:80-84 | the first filtered result is the first result of that type |
| Results.LatestAnalyzedResult | lre_client/models/results.py:80-84 | None exactly when no result is analyzed; otherwise the first analyzed result |
| Results.GetAnalyzedResultId | lre_client/models/results.py:86-89 | None exactly when no result is analyzed; otherwise the id of the first one |
| Results.GetResultById | lre_client/models/results.py:91-93 | None exactly when no result has the id; otherwise the first result with it |
| Results.FirstWithId | lre_client/models/results.py:93 | `next(...)`: the first match, or None when there is none |
| Results.GetResultsByType | lre_client/models/results.py:95-97 | exactly the results whose upper-cased type equals the upper-cased argument |
| Results.ByTypeMatchesFilters | lre_client/models/results.py:60-78 | for every spelling that upper-cases to one of the four labels, asking by type gives exactly that label's dedicated filter |
| Results.GetSummary | lre_client/models/results.py:99-110 | the run id, `total_results == len(results)`, an analyzed id exactly when some result is analyzed, and the available types are the types present |
| Results.CountsWithinTotal | lre_client/models/results.py:103-107 | the four category counts sum to at most the number of results |
| Results.SummaryCounts | lre_client/models/results.py:99-110 | in the summary the four counts sum to at most `total_results` |
| CommonUtils.KeepStrippedClean | lre_client/utils/common_utils.py:10-11 | every kept entry is non-blank and stripped |
| CommonUtils.KeepStrippedAppend | lre_client/utils/common_utils.py:10-11 | keeping entries distributes over concatenation of segments |
| CommonUtils.KeepStrippedAvoids | lre_client/utils/common_utils.py:10-11 | a character absent from every segment is absent from every entry |
| CommonUtils.KeepStrippedKeeps | lre_client/utils/common_utils.py:10-11 | already clean segments are kept unchanged |
| CommonUtils.LgsEntries | lre_client/utils/common_utils.py:10 | the entries are non-blank, stripped and free of `;` |
| CommonUtils.GetLgsList | lre_client/utils/common_utils.py:84-89 | the list entries are non-blank, stripped and free of `;` |
| CommonUtils.LgsListJoin | lre_client/utils/common_utils.py:84-89 | joining `get_lgs_list` with ", " gives `parse_lgs` of the same field |
| CommonUtils.LgsRoundTrip | lre_client/utils/common_utils.py:6-11 | clean entries each followed by `;` read back as the entries, and `parse_lgs` gives their ", "-join |
| CommonUtils.ParseLgsExample | lre_client/utils/common_utils.py:7-11 | the documented example yields "vm012.net(9), vm013.net(9)": no space is inserted before "(" |
| CommonUtils.GetShowsField | lre_client/utils/common_utils.py:43-45 | `_get` returns a string field itself, an integer field's decimal form, and "" for None |
| CommonUtils.Decompose | lre_client/utils/common_utils.py:26-29 | hrs*3600 + mins*60 + secs equals the difference, with 0 <= mins, secs < 60 |
| CommonUtils.DecomposeUnique | lre_client/utils/common_utils.py:26-29 | those are the only hours, minutes and seconds with that property |
| CommonUtils.Pad2ReadBack | lre_client/utils/common_utils.py:30 | a `:02d` field reads back as its number and holds no ":" |
| CommonUtils.ComputeDuration | lre_client/utils/common_utils.py:21-30 | "00:00:00" when either time does not parse |
| CommonUtils.FormatReadBack | lre_client/utils/common_utils.py:26-30 | the formatted `hh:mm:ss` reads back as the number of seconds |
| CommonUtils.DurationRoundTrip | lre_client/utils/common_utils.py:21-30 | when both times parse, the duration string reads back as end minus start |
| CommonUtils.ChunkList | lre_client/utils/common_utils.py:33-36 | size 0 raises; a negative size yields nothing; for a positive size the chunks concatenate to the items, each holds 1..size items, all but the last hold exactly size, and empty input yields no chunk |
| CommonUtils.Values | lre_client/utils/common_utils.py:47-82 | five rows of four values |
| CommonUtils.BuildRows | lre_client/utils/common_utils.py:47-82 | five rows of exactly four cells, each starting with its label; the last cell is "" |
| CommonUtils.DurationCell | lre_client/utils/common_utils.py:60 | the duration cell shows `compute_duration` of the run's start and end |
| CommonUtils.ReportPrints | lre_client/utils/common_utils.py:47-115 | the report table always prints: seven lines of one length |
| TablePrinter.Width | lre_client/utils/common_utils.py:103-105 | a column's width is the maximum length of its cells |
| TablePrinter.FirstTooWide | lre_client/utils/common_utils.py:103-105 | the first row with more cells than the first row (where the width update would raise IndexError) |
| TablePrinter.Pad | lre_client/utils/common_utils.py:112-113 | a padded cell is two longer than its column width |
| TablePrinter.Layout | lre_client/utils/common_utils.py:99-115 | the specification of `print`, which Print is proved equal to. It fails exactly when there are no rows or some row is wider than the first, and the error names the first too-wide row. Otherwise it gives two lines more than there are rows, starting and ending with the same border. Line lengths are in LayoutLineLengths and the cells in RowLineCells |
| TablePrinter.Print | lre_client/utils/common_utils.py:99-115 | the printed lines are the layout |
| TablePrinter.ColumnWidths | lre_client/utils/common_utils.py:100-105 | the width array holds every column's maximum, or the error of the first too-wide row |
| TablePrinter.WidenColumns | lre_client/utils/common_utils.py:104-105 | one row's pass widens each column to at least its cell |
| TablePrinter.FormatRow | lre_client/utils/common_utils.py:110-114 | the padded cells joined by "\|" between two "\|" |
| TablePrinter.JoinLength | lre_client/utils/common_utils.py:107 | a join's length is the parts' lengths plus the separators |
| TablePrinter.LayoutLineLengths | lre_client/utils/common_utils.py:99-115 | for rectangular rows every line, border or row, has length sum(w+2) + columns + 1 |
| TablePrinter.RowLineCells | lre_client/utils/common_utils.py:109-114 | a row line splits back at "\|" into its padded cells, each holding its cell text after one space |
| Auth.Executor.Execute | lre_client/api/auth.py:36 | a request is recorded, and it fails exactly when the executor's fault set names it |
| Auth.Session.ClearCookies | lre_client/api/auth.py:81 | the cookie jar is empty |
| Auth.ProjectLogin | lre_client/api/auth.py:44-65 | refused without authentication and without a state change; nothing when already in the project; `web_logged_in` set exactly by a successful GET; the invariant is kept |
| Auth.CredentialLogin | lre_client/api/auth.py:21-42 | nothing when authenticated; `authenticated` set exactly when the POST succeeds; in the project exactly when the POST and GET succeed, and no error exactly then; the invariant is kept |
| Auth.LogoutFlags | lre_client/api/auth.py:67-83 | both flags cleared when authenticated |
| Auth.LoginIdempotent | lre_client/api/auth.py:21-42 | a second login after an error-free one changes nothing; an error-free login from scratch ends in the project |
| Auth.NoProjectRetry | lre_client/api/auth.py:23-25 | when authenticated but not in the project, credential login returns without retrying; only `login_to_project` can finish |
| Auth.ProjectFailureKeepsAuthentication | lre_client/api/auth.py:37-42 | a project-login failure leaves `authenticated` set, `web_logged_in` clear, and raises |
| Auth.Authenticator.constructor | lre_client/api/auth.py:13-19 | both flags start false |
| Auth.Authenticator.LoginWithClientCredentials | lre_client/api/auth.py:21-42 | the flags and error are the credential-login specification of the old state and request outcomes; the requests issued are none, the POST, or the POST and the GET |
| Auth.Authenticator.LoginToProject | lre_client/api/auth.py:44-65 | the flags and error follow the project-login specification; the GET is issued only when authenticated and not yet in the project |
| Auth.Authenticator.Logout | lre_client/api/auth.py:67-83 | when unauthenticated nothing is sent or changed; otherwise the GET is sent, and cookies and both flags are cleared whatever its outcome |
| ResultsStore.Summary | lre_client/data/results_store.py:25-32 | "No run status available" exactly when the status is None or empty; otherwise "Run {Id} status: {State}" |
| ResultsStore.SummaryFields | lre_client/data/results_store.py:30-32 | the id and state of a status read back in the summary line |
| ResultsStore.SummaryUnknown | lre_client/data/results_store.py:30-32 | a non-empty status without `Id` and `State` shows "Unknown" for both |
| ResultsStore.PyList.Clear | lre_client/data/results_store.py:37-38 | the list is emptied in place |
| ResultsStore.ResultsStore.constructor | lre_client/data/results_store.py:11-13 | no status and two distinct empty lists |
| ResultsStore.ResultsStore.UpdateRunStatus | lre_client/data/results_store.py:15-18 | the status is replaced and the lists are unchanged |
| ResultsStore.ResultsStore.UpdateHosts | lre_client/data/results_store.py:20-23 | the store holds the caller's list itself; nothing else changes |
| ResultsStore.ResultsStore.Clear | lre_client/data/results_store.py:34-39 | the status is None and the same two list objects are now empty |
| ResultsStore.ClearEmptiesCallerList | lre_client/data/results_store.py:20-39 | a list passed to `update_hosts` is emptied by `clear`, and the summary then reports no status |

## Left out

- The t-digest library is foreign. A digest is the log of its weighted updates, and its quantile is an oracle parameter. Nothing is claimed about accuracy, merging or compression.
- DigestCalculator.TDigest.BatchUpdate: it is modelled as the per-row updates in order. Whatever the library does differently inside is not modelled.
- Floating point is not modelled: values are `real`, rounding in `cumsum` and the normalisation is ignored, and NaN is only the oracle's `None`.
- Percentile.WeightedPercentile: `np.argsort` is modelled as a stable insertion sort, so equal values keep their input order. That order matters: equal values with different weights give a different grid, and so a different estimate (Percentile.TieOrderMatters). NumPy's default sort is not stable for more than 16 values, so on rows with tied response times and different counts the model's order, and its estimate, may differ from the program's.
- Percentile.WeightedPercentile: the interval search is the last grid point at or below the target, which is what NumPy's search gives on a nondecreasing grid. With mixed-sign weights and a positive total the grid is not monotone, and NumPy's search (for few points, the first point above the target, minus one) can pick another interval. Example: data [1, 2, 3, 4], weights [0, 60, -20, 60] and target 50 give about 1.83 in NumPy and about 3.17 here. Both callers pass only positive counts, so no precondition excludes this case.
- The order of pandas `groupby` keys and of the result frames is not stated. The model resolves keys in first-appearance order, and the contracts speak of key sets, distinctness and per-key contents.
- SQLite access and the SQL queries are not modelled. The chunk stream, the summary rows and their SQL aggregates are inputs.
- Logging and progress messages are left out.
- DigestCalculator.ComputePercentiles: any failure while reading the stream is a single `streamError` parameter. Exceptions raised inside the digest library other than the grouped pass's `AttributeError`/`TypeError` are not modelled.
- DigestCalculator.RaisingPass: where the grouped pass raises is a per-chunk `Fault` parameter (the group, and how many of its updates were applied). Which library call raises is not modelled.
- `datetime.fromisoformat` is a `TimeParser` parameter that yields whole seconds.
- CommonUtils.ComputeDuration: when one time carries a UTC offset and the other does not, both parse, but `t2 - t1` raises TypeError, which `compute_duration` does not catch. The `TimeParser` turns every time into whole seconds, so the model gives a duration there instead of the error.
- CommonUtils.DurationRoundTrip: "both times parse" means both parse and are comparable (both carry an offset, or neither does). For a mixed pair the source raises instead (see the line above).
- CommonUtils.ComputeDuration: fractional seconds are not modelled. A negative difference (end before start) formats with negative hours, as Python does.
- `str.upper`, `str.strip` and `int(str)` are modelled on ASCII: upper-case letters, the ASCII characters Python counts as whitespace (space, `\t`, `\n`, `\v`, `\f`, `\r` and `\x1c`-`\x1f`), and an optional sign followed by decimal digits. Unicode case mapping and whitespace, underscores in numerals, and the `int` of floats are not modelled.
- Results.RunResult.HasType: it requires the type to be a string. A non-string `Type` would make `.upper()` raise, and that case is not modelled.
- JSON floats, lists and objects as field values are not modelled. A field value is null, a bool, an int or a string.
- CommonUtils.ChunkList: the generator is modelled as the list of its chunks. A zero size raises when iteration starts, not at the call.
- CommonUtils.Setting: the `settings` object's attributes are a record of optional values.
- `TablePrinter._visible_len` is plain `len`, as in the source. The print side effect is the returned list of lines.
- Auth: the URL building, the credential payload, the query parameters and the HTTP exception types are left out. The executor only records each request and succeeds or fails.
- Auth.Executor: whether each request fails is fixed in advance by its request number.
- ResultsStore.ResultsStore.UpdateRunStatus: the status dictionary is stored as a value. Later mutation of the caller's dictionary through the shared reference is not modelled (the hosts list is modelled by reference).
- The rest of the repository is not part of this model: the HTTP API clients, the session factory, configuration, `main.py` and the exception and endpoint declarations.

## Findings

| source | as written | input that shows it | evidently intended | confidence | as-written member | corrected member |
|---|---|---|---|---|---|---|
| lre_client/analytics/analytics_manager.py:39-47 | with no percentile rows, the percentile frame is built from an empty list and has no `Script_Name`/`Transaction_Name` columns, so `merge` raises `KeyError` | a database whose response-time rows all have time or count <= 0, or an empty one, with any summary rows | a left merge that zero-fills every summary row when there are no percentiles | not executed | AnalyticsManager.RunAsWritten | AnalyticsManager.Run |
