# Request metrics of simple-rest-go, in Dafny

simple-rest-go is a small HTTP server. It forwards `/` to a backend, answers
version and health probes, and keeps per-path request metrics that it shows on
`/metrics`. This project models the metrics part and proves properties of it:

- **Path keys** (`PathKey`, `path_key.dfy`). The closure handed to
  `strings.Map` keeps ASCII letters, digits and `/` and turns every other rune
  into `_`. A result that is empty or starts with `_` gets the prefix `root`.
  A path is a `seq<char>` with one `char` per rune.
- **The aggregator** (`Aggregator`, `aggregator.dfy`). `Metrics` holds the three
  maps `totalRequests`, `statusCodes` and `requestDurations`, which all start
  empty. `Record` is `RecordRequest`. The read/write lock is modelled as
  atomicity: each `Record` is one step on an immutable value. A run of the
  server is `Replay` of a request log from the empty state. Reads of missing
  keys return Go's zero value (`Total`, `StatusCount`, `Durations`).
- **The histogram** (`Histogram`, `histogram.dfy`). This is the bucket loop of
  `GetPrometheusMetrics`: eleven cumulative finite buckets from 0.005 s to 10 s,
  an unbounded bucket, the sum and the count. The model keeps durations and
  bounds as whole nanoseconds; Go stores `duration.Seconds()` as float64 and
  its bounds are float64 seconds (see "## Left out").
- **Status capture** (`Capture`, `capture.dfy`). The `responseWriter` wrapper
  starts at 200. Each `WriteHeader` overwrites the captured code and forwards
  the call.
- **The middleware hand-over** (`AccessLog`, `access_log.dfy`). After the
  handler returns, the request is recorded under its raw path with the
  captured status and the elapsed time. The wrapper forwards every header
  write to net/http's writer, which panics on a code outside 100-999. That
  panic unwinds `next(rw, r)` (main.go:177) before anything is logged or
  recorded, so such a request leaves the metrics unchanged. `ForwardToBackend`
  can reach this case: it writes the backend's status as is (main.go:249).

Two details of the code are worth stating explicitly:

- Each `WriteHeader` overwrites the captured code (main.go:205-208), so the
  *last* write wins, not the first. `Capture.LaterWriteOverrides` shows it with
  two writes.
- A key is not made of letters, digits and `/` alone. It also contains the `_`
  replacements (the comment at main.go:66 says so) and may start with `root`.
  `PathKey.IsKey` gives the alphabet.

## Model

| member | source | states |
|---|---|---|
| `PathKey.MapRune` | main.go:69-72 | defines the closure: a letter, digit or `/` is kept, every other rune becomes `_` |
| `PathKey.MapRunes` | main.go:68-73 | the mapped path has the input's length, and position by position it holds the mapped rune of the input |
| `PathKey.Normalize` | main.go:68-77 | the key is never empty, never starts with `_` and uses only letters, digits, `/` and `_`; it is `root` followed by the mapped path exactly when the path is empty or its first rune is not kept, otherwise it is the mapped path; its length is the rune count or that count plus 4 |
| `PathKey.NormalizeRunewise` | main.go:68-73 | after any prefix, each kept rune of the path appears unchanged in the key and every other rune appears as `_` |
| `PathKey.RootPrefixExactly` | main.go:75-77 | the key is 4 runes longer than the path exactly when the path is empty or starts with a rune that is not kept, and otherwise has the path's length |
| `PathKey.MapRunesFixesKeyRunes` | main.go:68-73 | the mapping leaves a string of letters, digits, `/` and `_` unchanged |
| `PathKey.NormalizeFixedPoints` | main.go:68-77 | normalisation leaves a string unchanged exactly when the string is a well-formed key |
| `PathKey.NormalizeIdempotent` | main.go:68-77 | normalising a key a second time changes nothing |
| `PathKey.NormalizePlainPath` | main.go:68-77 | `/a/b` is its own key |
| `PathKey.NormalizeQueryPath` | main.go:68-77 | `/a?b=1` becomes `/a_b_1` |
| `PathKey.NormalizeRootExamples` | main.go:75-77 | the empty path becomes `root` and `_x` becomes `root_x` |
| `Aggregator.NewMetrics` | main.go:52-58 | the start-up state is consistent and every key reads as total 0, no durations and no status counters |
| `Aggregator.Record` | main.go:62-90 | for the path's key, the total and the counter of the given code each rise by exactly 1 (from 0 when absent), and the duration is appended at the end; the key's counter map gains exactly that code, its other codes are unchanged, and so is every other key; each map's key set gains exactly that key |
| `Aggregator.RecordSumsCodes` | main.go:80-86 | if the recorded key's per-code counters added up to its total before a step, they still do after it |
| `Aggregator.RecordPreservesConsistent` | main.go:80-89 | a step keeps the three key sets equal, keeps every key well formed with a positive total, keeps every present code's counter positive, and keeps one duration per request and the per-code counters summing to the total |
| `Aggregator.RecordKeepsOtherKey` | main.go:80-89 | a step leaves every key other than the recorded one exactly as consistent as it was |
| `Aggregator.RecordKeepsOwnKey` | main.go:80-89 | a step makes the recorded key consistent (positive total, one duration per request, every listed code seen and the counters summing to the total), whether the key was new or consistent before |
| `Aggregator.Replay` | main.go:52-90 | defines a lock-serialised run: the requests recorded one at a time, in order, from the start-up state |
| `Aggregator.ReplayConsistent` | main.go:52-90 | every sequence of steps from the start-up state ends in a consistent state |
| `Aggregator.ReplayTotalMatchesLog` | main.go:80 | after any request log, a key's total is the number of logged requests whose path normalises to it |
| `Aggregator.ReplayKeysMatchLog` | main.go:80-89 | after any request log, a key is present exactly when at least one logged request's path normalises to it |
| `Aggregator.ReplayCodesMatchLog` | main.go:83-86 | after any request log, a code is listed under a key exactly when at least one logged request has that key and that code, so no zero counter is ever listed |
| `Aggregator.ReplayStatusMatchesLog` | main.go:83-86 | after any request log, a key's counter for a code is the number of logged requests with that key and that code |
| `Aggregator.ReplayDurationsMatchLog` | main.go:89 | after any request log, a key's durations are those of its requests, in arrival order (as integer nanoseconds; Go keeps float64 seconds) |
| `Aggregator.SamePathCountsAll` | main.go:62-80 | n requests for one path leave that path's total at exactly n: no update is lost |
| `Histogram.BoundsAscending` | main.go:131 | there are eleven finite bounds and they strictly ascend |
| `Histogram.CountAtMostAppend` | main.go:138-145 | the count of durations at most a bound splits over concatenated observation lists |
| `Histogram.CountAtMostObserve` | main.go:141-145 | one more observation raises the count of every bound at or above it by one and leaves the rest |
| `Histogram.SumAppend` | main.go:138-139 | the sum of durations splits over concatenated observation lists |
| `Histogram.CountAtMostBounded` | main.go:141-146 | no finite bucket counts more observations than the unbounded one |
| `Histogram.CountAtMostMonotone` | main.go:131-145 | a larger bound never counts fewer observations |
| `Histogram.CountAtMostAll` | main.go:141-145 | a bound no observation exceeds counts every observation |
| `Histogram.BucketCounts` | main.go:131-159 | the Go loop yields exactly the cumulative histogram: count i is the number of durations at most bound i, the last count is the number of observations (the `+Inf` and `_count` lines), and the sum is the sum of the durations |
| `Histogram.CumulativeAscends` | main.go:131-146 | a histogram has 12 buckets, its unbounded bucket counts every observation, and its counts never decrease from one bucket to the next |
| `Histogram.CumulativeObserve` | main.go:138-146 | one more observation of d raises every finite bucket whose bound is at least d by one, leaves the others, and raises the unbounded bucket by one |
| `Histogram.RecordAddsOneObservation` | main.go:89 | recording a request adds exactly one observation to its key's histogram: every bucket whose bound is at least the duration rises by one, the others stay, the unbounded bucket (the count) rises by one and the sum by the duration |
| `Capture.Wrap` | main.go:171-174 | defines the fresh wrapper: captured code 200, nothing forwarded yet |
| `Capture.WriteHeader` | main.go:205-208 | defines one header write: the captured code becomes the written code and the call is forwarded |
| `Capture.WriteHeadersLastWins` | main.go:205-208 | after a run of header writes the captured code is that of the last write, or the initial one when there were none, and every write was forwarded unchanged and in order |
| `Capture.CapturedStatus` | main.go:171-174 | the status the middleware reads is 200 when the handler wrote no header, otherwise the code of its last write |
| `Capture.LaterWriteOverrides` | main.go:205-208 | with writes 404 then 500, 500 is captured |
| `AccessLog.ServeRequest` | main.go:177-194 | if some header write carries a code outside 100-999, the forwarded call panics and the metrics are unchanged; otherwise a served request adds one to its raw path's key total, one to that key's counter for the captured status (last header written, or 200), and appends the elapsed time; that key's counter map gains exactly the captured status, its other codes and every other key are unchanged, and each map's key set gains exactly that key |
| `AccessLog.OutOfRangeStatusNotRecorded` | main.go:205-208 | a request whose handler writes status 99 or 1000 leaves the metrics exactly as they were |
| `AccessLog.ServeRequestPreservesConsistent` | main.go:194 | serving a request keeps the aggregator consistent |

## Left out

- Rendering the exposition text (main.go:97-129, 150-162) is left out. Go iterates maps in no fixed order, `%g` and the float sum are floating point, and uptime reads the wall clock. The model proves the numbers the text would carry.
- `sync.RWMutex` locking (main.go:63-64, 94-95) is modelled as atomicity of each `Record` step. Interleavings are not modelled.
- `ForwardToBackend` (main.go:211-256) is left out because it does network I/O.
- The route handlers (main.go:259-312) are left out. Each registered handler is an exact-path guard around one `fmt.Fprint`/`Fprintf` of its response. `MetricsHandler` prints the live metrics page and `LivenessHandler` the uptime. `NotFoundHandler` is never registered: unknown paths reach `ForwardToBackend` through the `/` pattern (main.go:321). The handlers' `WriteHeader` calls reach the model as the `headerWrites` input of `AccessLog.ServeRequest`.
- net/http's check of the status code (a code outside 100-999 panics) is not part of this model's sources. `Capture.IsValidCode` states the range it enforces, and `AccessLog.ServeRequest` relies on it.
- Environment reading (main.go:28-40, 314-338), the access-log line (main.go:183-191) and the debug print (main.go:74) are output or configuration only.
- Elapsed time is an input of `AccessLog.ServeRequest` instead of a clock read (main.go:168, 180). It is a natural number: `RecordRequest` would accept a negative `time.Duration`, but its only caller passes `time.Since(requestStart)` (main.go:168, 180, 194), which reads the monotonic clock and is never negative.
- Histogram.BucketCounts: compares whole nanoseconds against nanosecond bounds. Go compares `d.Seconds()` against float64 bounds, and the two comparisons are not proved equivalent. The model's sum is exact, while Go's is a float sum.
- Aggregator.Record: stores each duration as an integer count of nanoseconds. Go appends `duration.Seconds()` as a float64 (main.go:47, 89). These seconds are inexact (0.001 s is not a binary fraction), and they lose nanosecond resolution above about 2^23 s. The bucket comparison `d.Seconds() <= b` is taken to agree with the integer comparison for the eleven bounds, because the float error near each bound is far below 1 ns; this is argued, not proved. The float `_sum` can differ from the model's exact sum.
- Aggregator.Record: counters are unbounded naturals. Go's `int64` counters would wrap after 2^63 requests, and that is not modelled.
- PathKey.Normalize: a path is a sequence of runes. Invalid UTF-8 bytes, which Go decodes as U+FFFD and so maps to `_`, are not modelled apart from other runes.
