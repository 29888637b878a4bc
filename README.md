# mapsscrap core, modelled in Dafny

mapsscrap is a command-line Google Maps scraper. It tiles a circle around a centre point
into a square grid of sub-searches. It runs one browser scrape per grid point, four at a
time in batches. It merges the places found into one list without duplicates and writes
that list to a CSV file.

This project models the deterministic, sequential logic of `main.go`:

- `Places`: the `Place` record, its deduplication key (name, address), and `containsPlace` as a
  linear-scan method.
- `Merge`: the merge loop of `launchScrappingWorkers` as a method over the result batches,
  proved against the specification function `Dedup`. It is also proved that the merge keeps,
  in input order, exactly the earliest place of each key, and that it is idempotent.
- `Batching`: the batch loop, which splits grid indices into consecutive ranges
  `[i, min(i + maxWorkers, n))`. Each index becomes one task with the parent query and a
  1 km radius. The integer ceiling `CeilDiv` gives the number of batches.
- `Workers`: the outcome of one `searchWorker` (finished with places and an error, or timed
  out). It defines what that worker puts on the results channel and what the whole run
  returns, given every task's outcome.
- `Scraper`: `launchScrappingWorkers` run sequentially. It dispatches the batches, runs every
  task and merges what was delivered.
- `Estimator`: `estimateJobTime`, in integer nanoseconds.
- `Grid`: the index skeleton of `generateSearchGrid`. The coordinate computed for an iteration
  is a function parameter.
- `Details`: the `·`-splitting rules that `extractPlaceDetails` uses for the address and the
  opening hours.
- `Basics`: an option type (Go's nil-able `error`), list flattening and small arithmetic facts.

The model follows what the code does in four places where a reader might expect more:

- A radius above 25 km only prints a warning (main.go:114-116). The run is not rejected.
- `generateSearchGrid` does not guard `latSteps == 1`. It divides by `latSteps - 1` in floating
  point (main.go:287-288).
- Duplicates are found by a linear scan (main.go:261-268), not a keyed lookup. This changes
  performance only.
- A radius of 0 km or less gives `latSteps = lngSteps <= 0` (main.go:279-285). The grid is then
  empty, no sub-search runs and the result is empty. The centre point is not searched on its
  own. `Grid.GenerateSearchGrid` yields no points in that case, and
  `Scraper.LaunchScrappingWorkers` returns no places for an empty grid.

## Model

| member | source | states |
|---|---|---|
| `Places.ContainsPlace` | main.go:260-268 | true exactly when some place in the list has both the name and the address of the new place. No other field is compared. Equivalently, the new place's key is among the list's keys. |
| `Merge.Dedup` | main.go:193-200 | the merged list never holds two places with the same (name, address) key, and its set of keys is exactly the set of keys of the input |
| `Merge.DedupKeepsFirstOccurrences` | main.go:194-199 | first-seen wins: the merged list is, in input order, the earliest input place of every key. It is therefore an order-preserving subsequence of the input. |
| `Merge.DedupOfDistinct` | main.go:194-199 | an input whose keys are already distinct passes through the merge unchanged |
| `Merge.DedupIdempotent` | main.go:190-200 | merging the merge result again returns it unchanged |
| `Merge.DedupOfCopies` | main.go:194-199 | any number of copies of one place merge into exactly that one place |
| `Merge.MergeResults` | main.go:189-201 | the nested loop over the channel's batches, appending a place only when `containsPlace` is false, yields `Dedup` of the concatenated batches. The result has no duplicate key and keeps every input key. |
| `Batching.CeilDivUnique` | main.go:217 | the integer ceiling `(n + d - 1) / d` is the unique k with `(k - 1) * d < n <= k * d`, i.e. `math.Ceil(n / d)` |
| `Batching.LaunchBatches` | main.go:164-187 | the loop runs ceil(n / maxWorkers) batches. Batch k holds the tasks of indices `[k * maxWorkers, min(k * maxWorkers + maxWorkers, n))`, its range is non-empty and at most maxWorkers long. In order, the batches dispatch every grid point exactly once, as a task with the parent query and radius 1.0. |
| `Batching.BatchOfIndex` | main.go:165-169 | the batch ranges are disjoint and cover the grid: index j lies in the range of batch j / maxWorkers and of no other batch |
| `Workers.Sent` | main.go:249-257 | a worker sends at most one slice, and only when the scrape finished before the deadline with a nil error. It then sends exactly the scraped places. An error or a timeout sends nothing. |
| `Workers.CollectAppend` | main.go:164-187 | what later tasks put on the channel does not depend on how earlier tasks ended: an error return or a timeout never aborts the remaining tasks or batches |
| `Workers.CollectExactlyDelivered` | main.go:250-254 | a slice is on the channel exactly when some task that finished in time without error produced it |
| `Workers.RunResultKeys` | main.go:189-201 | the run returns no duplicate key, and its keys are exactly those found by tasks that finished in time without error |
| `Workers.FailedTaskContributesNothing` | main.go:241-257 | a task whose scrape returned an error, or that timed out, leaves the run's result exactly as if the task had not run |
| `Workers.CompletionOrderKeepsKeys` | main.go:161-200 | completion order on the channel may change which duplicate is kept, but not which keys the run returns |
| `Scraper.RunBatches` | main.go:171-186 | running the batches one after another puts on the channel what each task's worker sends, in dispatch order |
| `Scraper.LaunchScrappingWorkers` | main.go:151-202 | the run dispatches one task per grid point and returns the merge of the places delivered by the tasks that succeeded. The result has no duplicate key, and its keys are exactly those found by successful tasks. |
| `Scraper.SamePlaceEverywhere` | main.go:151-202 | when every sub-search finds the same place, a non-empty grid yields exactly that one place |
| `Estimator.EstimateJobTime` | main.go:204-223 | the estimate is one 45-second task duration per batch the scheduler runs: 0 for no tasks, one duration for up to maxWorkers tasks, ceil(n / maxWorkers) durations otherwise |
| `Estimator.EstimateMonotone` | main.go:206-223 | more tasks never give a shorter estimate |
| `Estimator.EstimateExamples` | main.go:156 | with four workers: 10 tasks take 3 durations, 3 tasks take 1, 0 tasks take none |
| `Grid.GenerateSearchGrid` | main.go:283-293 | the nested loop yields `latSteps * lngSteps` points (none when either count is not positive). The point of iteration (i, j) is at position `i * lngSteps + j`, i.e. row-major order. |
| `Details.Split` | main.go:383 | splitting gives at least one piece, no piece contains the separator, and there is more than one piece exactly when the line contains the separator |
| `Details.JoinSplit` | main.go:383 | joining the pieces of a split with the separator gives back the line |
| `Details.SplitJoin` | main.go:383 | splitting the join of separator-free pieces gives back the pieces |
| `Details.AddressFromLine` | main.go:380-387 | the address is the last piece: the text after the last `·`, or the whole line when it has none. It is a separator-free suffix of the line. |
| `Details.HoursFromLine` | main.go:389-398 | the hours are the text before the first `·` when the line has one, and empty otherwise |

## Left out

- Goroutines, `sync.WaitGroup`, the buffered results channel, `context.WithTimeout` and the
  `select` (main.go:160-187, 227-258): they are concurrency and timing. The model keeps only
  their sequential meaning. A task's outcome is `Done(places, err)` or `TimedOut`, batches run
  one after another, and the channel's contents are a list.
- Scraper.LaunchScrappingWorkers, Scraper.RunBatches: tasks in one batch are taken to complete
  in dispatch order. In the program they complete in any order within their batch. That order
  can change which of two duplicates is kept. `Workers.CompletionOrderKeepsKeys` shows it cannot change the set of
  keys returned.
- `time.Sleep` pacing between batches, the progress bar and every message printed: timing and
  output only.
- Scraper.LaunchScrappingWorkers, Scraper.RunBatches: `fetch` makes a task's outcome a function
  of its search parameters. A real scrape is not deterministic: the same parameters can find
  different places, fail or time out on another attempt. No lemma depends on this. The `Workers`
  lemmas hold for any list of outcomes. For a centre latitude in [-90, 90], two tasks of one run
  never share parameters either, because the grid formula gives each iteration its own
  coordinate (`latSteps == 1` gives a single point). `--lat` is not validated (main.go:87), and
  for a huge latitude float rounding can give two rows the same coordinate.
- A timed-out scrape keeps running: its goroutine later blocks on the unbuffered `done`
  channel. Its places and error never reach the results channel. The leak itself is
  concurrency and is not modelled.
- Scraper.LaunchScrappingWorkers, Workers.Sent: a panic is not an outcome. The go-rod `Must*`
  calls (main.go:309, 312, 326, 331-332, 342, 367, 371, 376) panic on failure, and nothing
  recovers them in the scrape goroutine (main.go:241-247). A panic in any scrape, including one
  that has already timed out, ends the whole process: later batches never run and no CSV is
  written. `Outcome` has no case for this, so the model covers only runs in which no scrape
  panics.
- `scrapeGoogleMaps` and the DOM lookups of `extractPlaceDetails` (main.go:298-414): browser
  automation through go-rod, a foreign library. A scrape is represented only by its outcome
  (`fetch` in `Scraper.LaunchScrappingWorkers`). The filter that drops places with an empty name
  (main.go:346) belongs to this excluded code.
- The rating and review parsing with `fmt.Sscanf` (main.go:372, 377): float parsing in a library.
- Details.AddressFromLine, Details.HoursFromLine: model only the text rule for a line that was
  read. When the element lookup or `Text()` fails, the field stays empty. That branch is DOM
  plumbing. Lines are sequences of characters, and `·` is one character. In Go it is a
  two-byte UTF-8 string, and splitting valid UTF-8 on it gives the same pieces.
- Grid.GenerateSearchGrid: does not compute coordinates. The latitude and longitude deltas,
  `math.Cos`, the float step count `math.Ceil(2 * radiusKm / stepKm)` and the float division by
  `latSteps - 1` (main.go:274-288) are floating-point numerics. The coordinate of iteration
  (i, j) is the parameter `pointAt`. Its `requires latSteps * lngSteps >= 0` states only the
  negative-capacity panic of `make(..., 0, latSteps*lngSteps)` (main.go:283), on unbounded
  integers.
- Grid.GenerateSearchGrid: does not model the 64-bit overflow of `latSteps*lngSteps`. The radius
  is not bounded (main.go:114-116 only warns). From about 3.8·10^9 km the counts reach
  3,037,000,500, the int64 product wraps to a negative value and `make` panics. Smaller but
  still huge capacities also panic, beyond the runtime's allocation limit. The model instead
  returns the points.
- Estimator.EstimateJobTime: does not model the 64-bit overflow of `time.Duration`, which
  needs more than about 200 million batches. `math.Ceil` on float64 is modelled as the integer
  ceiling, which agrees for all task counts below 2^53. It requires `maxWorkers >= 1`, since
  the program always passes the constant 4.
- Floating-point fields (`Stars`, `Coordinates`, `RadiusKm`) are carried as `real` and never
  computed with.
- `savePlacesToCSV` and the `%.1f` formatting, `runSearch`'s working-directory and file-name
  handling, the cobra command and its global flag variables (main.go:57-147, 417-450): I/O
  and command-line plumbing.
- The radius warning (main.go:114-116): it only prints, so there is no error path to model.
