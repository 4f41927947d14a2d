# gpxstats: the windowed track analyser, in Dafny

gpxstats reads GPX recordings and reports statistics about them. For each
file it reports the maximum speed and the steepest up- and down-gradients,
each with the point where it happened, and whether the file's timestamps can
be trusted. Over several files it reports combined totals and extremes. This
project models the part that computes those figures and proves what they
mean:

- **The window** (`queue.go`, `Queues`): a queue of capacity three holding the
  most recent points, newest first. It is a class over a ring-buffer array.
  A ghost sequence `Contents` is its abstract value, and the pure function
  `PushOnto` specifies a push.
- **The estimators** (`tools/algorithms.go`, `Algorithms`):
  - the rounded mean `getMean`;
  - the windowed elevation difference `getElevationDiff`;
  - the windowed speed `getSpeed`, with its two array-filling loops.
- **The analyser** (`tools/stats.go`, `Stats`): `getStats` walks tracks,
  segments and points through one shared window. It keeps the speed and slope
  records and the invalid-time flag.
  - The three nested loops are the methods `GetStats`, `VisitTrack`,
    `VisitSegment` and `VisitPoint`.
  - They are proved equal to `Run`, a fold of `Step` over the file's visits in
    order (`FileEntries`). The lemmas are about that fold.
- **The multi-file fold** (`tools/printer.go` lines 60–113, `Printer`): the
  accumulation loop of `PrintCombinedStats`. It sums times over files with
  valid timestamps, lists the other files, sums distances, and keeps six
  extremes with the name of the file that produced each.
- **The older revision** (`algorithms.go`, `main.go`; `LegacyAlgorithms`,
  `LegacyStats`): the same walk, but each point is compared only with the
  point visited just before it.

Geometry and gpxgo's own computations are parameters:
- the haversine distance is `Distance`;
- `SpeedBetween` is a parameter;
- `MovingData()` and `ElevationBounds()` are fields of `GpxFile`.

Time is an integer count of nanoseconds since the Unix epoch. A float64 is a
`real`, or the NaN that the mean of an empty slice yields (`Real64`).

The model follows the code as written:
- `getSpeed` sets `previousPoint` only at index 0, so each slot pairs the
  window's newest point with another window point. The slots are not
  consecutive pairs.
- The window is read newest first.
- Only points after the first of their segment are checked for timestamps
  before the epoch.
- An empty mean is NaN rather than an error. NaN never beats a record.

The code has two defects, listed under "## Findings": the down-slope
record starts at −100, which no slope can beat, so no descent is ever
recorded; and `getSpeed` builds a list of the valid pairs' speeds and never
uses it, so excluded pairs are averaged in as 0.

## Model

| member | source | states |
|---|---|---|
| Geo.Unix | tools/stats.go:43 | a timestamp's Unix seconds are negative exactly when it lies before the epoch |
| Geo.Seconds | tools/algorithms.go:86 | a duration in seconds is positive exactly when the duration is |
| Geo.Exceeds | tools/stats.go:48 | a float64 `>` comparison is false whenever its left side is NaN |
| Geo.Abs | tools/stats.go:56 | `math.Abs` is not negative and is the argument or its negation |
| Geo.Round | tools/algorithms.go:17 | `math.Round` yields a whole number within one half of its argument, keeping its sign |
| Geo.RoundMonotone | tools/algorithms.go:17 | rounding preserves order |
| Geo.RoundWhole | tools/algorithms.go:17 | rounding leaves whole numbers unchanged |
| Geo.Sum | tools/algorithms.go:13-15 | the running total of the range loop, added left to right; the three lemmas below state its properties |
| Geo.SumAppend | tools/algorithms.go:13-15 | the running total over two slices in a row is the sum of their totals |
| Geo.SumAtLeast | tools/algorithms.go:13-15 | elements all at least `lo` give a total at least `n * lo` |
| Geo.SumAtMost | tools/algorithms.go:13-15 | elements all at most `hi` give a total at most `n * hi` |
| Track.SegmentEntries | tools/stats.go:35-39 | a segment's loop visits each point once, in order, and only index 0 counts as first |
| Track.SegmentEntriesSnoc | tools/stats.go:35 | one more iteration of a segment's loop adds one visit |
| Track.TrackEntries | tools/stats.go:34 | a track's visits begin with the first point of a segment |
| Track.FileEntries | tools/stats.go:33 | a file's visits begin with the first point of a segment |
| Track.Slope | tools/stats.go:56-69 | a slope is taken exactly when distance > 0, elevation difference ≠ 0 and its magnitude < distance; it is then non-zero, strictly between −100 and 100, and negative exactly for a negative difference |
| Track.RatioBelowOne | tools/stats.go:56-64 | `100 * diff / distance` lies in (−100, 100) when the magnitude of the difference is below the distance, and has the difference's sign |
| Queues.PushOnto | queue.go:21-41 | a push puts the point at the head, keeps the older points in order, and drops the oldest exactly when the queue was full |
| Queues.PushAll | queue.go:21-41 | pushing points one after another; `Queues.PushAllKeepsRecent` states what is left |
| Queues.PushAllKeepsRecent | queue.go:21-41 | pushes into an empty queue of capacity n leave exactly the last min(count, n) points pushed, newest first |
| Queues.NewestIsLastPushed | queue.go:43-46 | after any pushes the head is the point pushed last |
| Queues.PushAllBounded | queue.go:34-40 | the number of elements never exceeds the capacity, and is positive after any push |
| Queues.FivePushesIntoThree | queue.go:36-40 | five pushes into capacity three leave the last three, newest first |
| Queues.Queue.constructor | queue.go:67-72 | `NewQueue(n)` is empty with capacity n |
| Queues.Queue.Push | queue.go:21-41 | the queue's contents become `PushOnto` of the old contents, the capacity is unchanged |
| Queues.Queue.GetFirst | queue.go:44-46 | returns the newest point |
| Queues.Queue.GetLast | queue.go:49-51 | returns the oldest point |
| Queues.Queue.GetArray | queue.go:54-64 | returns every point held, newest first |
| Algorithms.Mean | tools/algorithms.go:9-18 | the mean is NaN exactly for an empty slice, and otherwise a whole number |
| Algorithms.GetMean | tools/algorithms.go:9-18 | the accumulating loop returns the rounded mean `Mean` |
| Algorithms.MeanOfOne | tools/algorithms.go:9-18 | the mean of one value is that value rounded |
| Algorithms.MeanAtLeast | tools/algorithms.go:9-18 | values all at least `lo` give a mean at least round(lo) |
| Algorithms.MeanAtMost | tools/algorithms.go:9-18 | values all at most `hi` give a mean at most round(hi) |
| Algorithms.MeanBetween | tools/algorithms.go:9-18 | the mean of values in [lo, hi] is a number in [round(lo), round(hi)] |
| Algorithms.Elevations | tools/algorithms.go:49-53 | the collected list holds each window point's elevation, in order |
| Algorithms.LeftElevations | tools/algorithms.go:55 | the left neighbourhood has as many elevations as the window |
| Algorithms.ElevationDiff | tools/algorithms.go:45-59 | the elevation difference is a whole number, being the difference of two rounded means |
| Algorithms.GetElevationDiff | tools/algorithms.go:45-59 | the collecting loop and the two means give `ElevationDiff` |
| Algorithms.LeftMinusRightSum | tools/algorithms.go:55-58 | before rounding, the two neighbourhoods differ by the new point's elevation minus the oldest window point's |
| Algorithms.ElevationDiffZero | tools/algorithms.go:55-58 | a new point as high as the oldest window point gives a difference of 0 |
| Algorithms.ElevationDiffOfOne | tools/algorithms.go:55-58 | against a one-point window the difference is that of the two rounded elevations |
| Algorithms.PairSpeed | tools/algorithms.go:76-86 | a slot's speed is never negative, and is 0 for an excluded pair |
| Algorithms.TimeDiff | tools/algorithms.go:77 | `Timestamp.Sub`: the nanoseconds from the other point to the newest |
| Algorithms.SpeedSlots | tools/algorithms.go:70-87 | slot i holds the speed between the window's newest point and point i + 1 |
| Algorithms.InvalidSlots | tools/algorithms.go:79-85 | slot i is flagged exactly when that pair's distance or time difference is not positive |
| Algorithms.CountTrue | tools/algorithms.go:79-82 | the number of invalid slots, as the counter accumulates it; its bounds are the contract of `CountTrueBounds` |
| Algorithms.FillSlot | tools/algorithms.go:75-85 | one pass measures slot `i - 1` from the first point to point `i`: the flag and the speed are that slot's entries of `InvalidSlots` and `SpeedSlots`, and no other slot changes |
| Algorithms.CountTrueBounds | tools/algorithms.go:89-90 | the invalid count is at most the number of slots, and a prefix holds at most as many valid slots as the whole |
| Algorithms.FillSpeedSlots | tools/algorithms.go:62-87 | the first loop fills the speeds, the flags and the invalid count as `SpeedSlots`, `InvalidSlots` and `CountTrue` say |
| Algorithms.CollectValidSpeeds | tools/algorithms.go:89-98 | the second loop copies exactly the valid slots' speeds, in order |
| Algorithms.ValidOf | tools/algorithms.go:90 | the filtered list has one entry per valid slot |
| Algorithms.ValidOfMembers | tools/algorithms.go:91-97 | every entry of the filtered list is the speed of a valid slot |
| Algorithms.CountTrueAll | tools/algorithms.go:89 | every slot is invalid exactly when the invalid count equals the number of slots |
| Algorithms.Speed | tools/algorithms.go:61-101 | the speed is NaN exactly for a one-point window, which has no slot |
| Algorithms.GetSpeed | tools/algorithms.go:61-101 | `getSpeed` returns the rounded mean over all slots (`Speed`) |
| Algorithms.SpeedNonNegative | tools/algorithms.go:86-100 | with two or more points the speed is a number and not negative |
| Algorithms.SpeedOfOnePoint | tools/algorithms.go:67-100 | a one-point window has no slot and its speed is NaN |
| Algorithms.SpeedAveragesExcludedAsZero | tools/algorithms.go:89-100 | as written, an excluded pair counts as 0: a window with one 36 km/h pair and one excluded pair gives 18, where the valid pairs alone give 36 |
| Algorithms.CorrectedSpeed | tools/algorithms.go:89-98 | the mean over the filtered list the source builds; `Algorithms.CorrectedSpeedIgnoresInvalid` states its meaning |
| Algorithms.CorrectedSpeedIgnoresInvalid | tools/algorithms.go:89-100 | the mean over the filtered list is NaN exactly when every pair is excluded, and otherwise lies within the rounded bounds of the valid pairs' speeds |
| LegacyAlgorithms.GetMean | algorithms.go:38-47 | the older loop over points returns the rounded mean of their elevations |
| LegacyAlgorithms.GetElevationDiff | algorithms.go:49-54 | the older elevation difference equals the newer revision's `ElevationDiff` |
| Stats.NewStats | tools/stats.go:25-29 | the record `getStats` starts from: valid time, speed 0, up-slope 0, down-slope −100, each at the zero point |
| Stats.SlopeAgainstRange | tools/stats.go:53-62 | a slope against the window, when taken, is non-zero, strictly between −100 and 100, and negative exactly when the elevation difference `ElevationDiff` gives is negative |
| Stats.RecordTime | tools/stats.go:43-45 | the invalid flag is set exactly when it was or the point lies before the epoch; nothing else changes |
| Stats.RecordSpeed | tools/stats.go:47-51 | the speed record never falls and ends at least any numeric speed; it changes only to a strictly greater speed at this point |
| Stats.RecordSlope | tools/stats.go:56-69 | each slope record only moves towards its extreme and ends within the slope taken; only one record changes, to the slope at this point |
| Stats.Visit | tools/stats.go:41-70 | a non-first point sets the invalid flag exactly when it is before the epoch; each record only improves; a record changes only on a strict improvement, and then holds the window's speed or slope and this point; the speed and every slope taken are within their records |
| Stats.Step | tools/stats.go:36-72 | every visit pushes its point; the first point of a segment leaves the record unchanged |
| Stats.Run | tools/stats.go:33-75 | the window is non-empty after any visit |
| Stats.RunWindow | tools/stats.go:31-72 | the window after any visits is every visited point pushed in order into a queue of capacity three |
| Stats.RunSnoc | tools/stats.go:35-72 | one more visit is one more step |
| Stats.Analyse | tools/stats.go:21-78 | the record `getStats` returns from a start: the run over the file's visits; the lemmas below state what it holds |
| Stats.RunAppend | tools/stats.go:33-35 | visiting two runs in a row is visiting their concatenation |
| Stats.WindowAt | tools/stats.go:47-54 | the window a non-first point sees is never empty |
| Stats.SlopeAt | tools/stats.go:53-54 | the slope taken at a visit, against the window that visit sees |
| Stats.SpeedAt | tools/stats.go:47 | the windowed speed taken at a visit, against the window that visit sees |
| Stats.RunMonotone | tools/stats.go:48-68 | along any run each record only moves towards its extreme; an up-slope record below 100 stays below it; a down-slope record at or below −100 never moves |
| Stats.RunInvalidTime | tools/stats.go:43-45 | after a run the flag is set exactly when it was, or some non-first point lies before the epoch |
| Stats.RunDominatesSpeed | tools/stats.go:47-51 | every numeric windowed speed taken is at most the speed record |
| Stats.RunSpeedAttained | tools/stats.go:47-51 | the speed record keeps its start and point, or is some visit's windowed speed, recorded with that visit's point |
| Stats.RunDominatesSlopes | tools/stats.go:56-69 | every negative slope taken is at least the down-slope record, every positive one at most the up-slope record |
| Stats.RunDownSlopeAttained | tools/stats.go:57-62 | the down-slope record either keeps its start and point or is the slope of some visit, recorded with that visit's point |
| Stats.RunUpSlopeAttained | tools/stats.go:63-68 | the up-slope record either keeps its start and point or is the slope of some visit, recorded with that visit's point |
| Stats.AnalysedWindow | tools/stats.go:31-72 | after a file the window holds its last three points visited, newest first |
| Stats.AnalysedBounds | tools/stats.go:25-68 | `getStats` returns a speed ≥ 0, an up-slope in [0, 100), and the down-slope −100 at the zero point, for every file |
| Stats.AnalysedInvalidTime | tools/stats.go:36-45 | a file's time is invalid exactly when some non-first point lies before the epoch |
| Stats.AnalysedSpeedIsFastest | tools/stats.go:47-51 | a file's speed record is at least every numeric windowed speed taken, and when above 0 is one of them, recorded at its point |
| Stats.CorrectedStats | tools/stats.go:25-29 | the corrected start differs from the source's only in a down-slope of 0 |
| Stats.CorrectedDownSlopeIsSteepest | tools/stats.go:57-62 | from the corrected start the down-slope is at most every descent, negative exactly when there is one, and then the slope of a visit recorded at its point |
| Stats.TwoPointDescent | tools/stats.go:56-62 | for any two-point segment that descends, the record stays at −100, while from the corrected start it is that descent at the second point |
| Stats.DescentIgnored | tools/stats.go:56-62 | a segment dropping 10 m over 20 m takes a slope of −50, yet the record stays at −100; corrected it is −50 at the second point |
| Stats.GetStats | tools/stats.go:21-78 | the three nested loops return `Analyse` of the file from the source's start |
| Stats.VisitTrack | tools/stats.go:34-74 | the loop over a track's segments performs the run over the track's visits |
| Stats.VisitSegment | tools/stats.go:35-73 | the loop over a segment's points performs the run over the segment's visits |
| Stats.VisitPoint | tools/stats.go:36-72 | the loop body performs one step and pushes the point |
| Stats.VisitWindow | tools/stats.go:41-70 | the body's work on a non-empty window computes `Visit` |
| Stats.UpdateSlopes | tools/stats.go:56-70 | the guarded slope update records the slope exactly as `RecordSlope` of `Slope` says |
| LegacyStats.NewStats | main.go:51-55 | the record the older `getStats` starts from: speed 0, up-slope 0, down-slope −100, each at the zero point |
| LegacyStats.PairSlopeRange | main.go:74-83 | a slope between consecutive points, when taken, is non-zero, strictly between −100 and 100, and negative exactly when the point is lower than the one before it |
| LegacyStats.RecordSpeed | main.go:69-72 | the speed record never falls and ends at least this speed; it changes only to a strictly greater speed at this point |
| LegacyStats.RecordSlope | main.go:77-90 | each slope record only moves towards its extreme and ends within the slope taken; only one record changes, to the slope at this point |
| LegacyStats.Visit | main.go:67-91 | the speed record is at least this speed and only improves, changing only strictly; each slope record changes only strictly, to this slope and point; every slope taken is within its record |
| LegacyStats.Step | main.go:61-93 | every visit pushes its point; the first point of a segment leaves the record unchanged |
| LegacyStats.Run | main.go:59-96 | after any visit the queue is headed by the point visited last |
| LegacyStats.RunWindow | main.go:57-93 | after any visits the queue is every visited point pushed in order |
| LegacyStats.RunSnoc | main.go:61-93 | one more visit is one more step |
| LegacyStats.Analyse | main.go:47-99 | the record the older `getStats` returns from a start: the run over the file's visits |
| LegacyStats.RunAppend | main.go:59-61 | visiting two runs in a row is visiting their concatenation |
| LegacyStats.PreviousIsQueueHead | main.go:67-93 | `previousPoint`, the queue's head, is the point visited just before |
| LegacyStats.RunMonotone | main.go:68-90 | each record only moves towards its extreme; an up-slope below 100 stays below; a down-slope at or below −100 never moves |
| LegacyStats.RunDominatesSpeed | main.go:68-72 | every visit's speed against the point before it is at most the speed record |
| LegacyStats.RunDominatesSlopes | main.go:77-90 | every slope taken between consecutive points is within its record |
| LegacyStats.RunSpeedAttained | main.go:68-72 | the speed record keeps its start or is some visit's speed, recorded at that visit's point |
| LegacyStats.RunUpSlopeAttained | main.go:84-89 | the up-slope record keeps its start or is some visit's slope, recorded at its point |
| LegacyStats.RunDownSlopeAttained | main.go:78-83 | the down-slope record keeps its start or is some visit's slope, recorded at its point |
| LegacyStats.AnalysedBounds | main.go:51-90 | the older `getStats` returns a speed ≥ 0, an up-slope in [0, 100), and the down-slope −100 at the zero point, for every file |
| LegacyStats.AnalysedSpeedIsFastest | main.go:67-72 | the speed record is at least every speed between consecutive points of a segment, and when above 0 is one of them, recorded at its later point |
| LegacyStats.CorrectedStats | main.go:51-55 | the corrected start differs only in a down-slope of 0 |
| LegacyStats.CorrectedDownSlopeIsSteepest | main.go:77-83 | from the corrected start the down-slope is the steepest descent between consecutive points, negative exactly when there is one, recorded at its point |
| LegacyStats.DescentIgnored | main.go:77-83 | a segment dropping 10 m over 20 m takes −50, yet the record stays −100; corrected it is −50 |
| LegacyStats.GetStats | main.go:47-99 | the older nested loops return `Analyse` of the file from the source's start |
| LegacyStats.VisitTrack | main.go:60-95 | the loop over a track's segments performs the run over its visits |
| LegacyStats.VisitSegment | main.go:61-94 | the loop over a segment's points performs the run over its visits |
| LegacyStats.VisitPoint | main.go:62-93 | the loop body performs one step against the queue's head and pushes the point |
| Printer.Initial | tools/printer.go:61-70 | the accumulators before the loop: zero sums, no ignored file, extrema MaxFloat64, 0, −100, 0, 0, 0 with no file |
| Printer.Reports | tools/printer.go:72-73 | iteration i sees file i, its name `fnames[i]` and its `getStats` record |
| Printer.CombineAllSnoc | tools/printer.go:72-113 | one more iteration folds one more file |
| Printer.Candidates | tools/printer.go:82-112 | each extremum is taken over each file's value of its figure, with the file's name |
| Printer.Lowest | tools/printer.go:82-95 | a minimum kept by strict comparison is at most its start and every value; it is the start, name included, unless some value is strictly lower; otherwise it is the earliest file of the lowest value |
| Printer.Highest | tools/printer.go:87-112 | a maximum kept by strict comparison is at least its start and every value; it is the start, name included, unless some value is strictly higher; otherwise it is the earliest file of the highest value |
| Printer.Accumulate | tools/printer.go:73-112 | one iteration of the loop; `Printer.AccumulateBest` and `Printer.AccumulateFile` state it |
| Printer.CombineAll | tools/printer.go:72-113 | the loop over the reports, one iteration per file in order |
| Printer.Combine | tools/printer.go:59-113 | the loop from the initial accumulators over every file's `getStats` record |
| Printer.TimedMembers | tools/printer.go:75-80 | the timed files are exactly those with valid time, the untimed ones exactly the others |
| Printer.TimedUntimedPartition | tools/printer.go:75-80 | every file is either timed or untimed |
| Printer.AccumulateBest | tools/printer.go:82-112 | one iteration updates each extremum by a strict comparison with the file's value |
| Printer.CombineAllBest | tools/printer.go:82-112 | each extremum after the loop is the lowest or highest of its start and every file's value |
| Printer.CombineAllSums | tools/printer.go:75-102 | moving and stopped times are sums over the files with valid time; the distance is a sum over every file |
| Printer.CombineAllIgnored | tools/printer.go:78-80 | the ignored list is the names of the files with invalid time, in input order |
| Printer.AccumulateFile | tools/printer.go:73-112 | the loop body performs one iteration of the fold |
| Printer.CombineFiles | tools/printer.go:59-113 | the loop, running `getStats` on each file, computes `Combine` |
| Printer.CombineAllTimed | tools/printer.go:75-102 | when every file's time is valid, the times and the distance are sums over every file and nothing is ignored |
| Printer.TimedAll | tools/printer.go:75-77 | filtering files that all have valid time keeps them all |
| Printer.UntimedNames | tools/printer.go:78-80 | the untimed names are exactly those of the files with invalid time |
| Printer.IgnoredExactly | tools/printer.go:78-80 | the ignored list names exactly the files with invalid time, as many as there are |
| Printer.CombinedExtrema | tools/printer.go:65-112 | the six extrema are the lowest or highest of MaxFloat64, 0, −100, 0, 0, 0 and the files' values |
| Printer.MinGradientNeverSet | tools/printer.go:92-95 | as written the combined minimum gradient is −100 with no file, for every input |
| Printer.CorrectedInitial | tools/printer.go:67 | the corrected accumulators differ only in a minimum gradient of 0 |
| Printer.CorrectedMinGradientIsSteepest | tools/printer.go:92-95 | with both starts corrected, the minimum gradient is at most every descent in every file, negative exactly when there is one, and then some file's down-slope with that file's name |
| Printer.DescentIgnoredCombined | tools/printer.go:92-95 | one file with a −50 descent: as written the minimum gradient is −100 with no file; corrected it is −50 with the file's name |

## Left out

- The haversine distance `hsin`/`getDistance` (tools/algorithms.go:20-41, algorithms.go:13-30, main.go:26-43) is floating-point trigonometry. Every member that needs it takes it as the parameter `Distance`.
- gpxgo's `SpeedBetween` (main.go:68) is the parameter `SpeedBetween`.
- gpxgo's `MovingData()` and `ElevationBounds()` (tools/printer.go:76-109) are the fields of `GpxFile`.
- `Elevation.Value()` is taken as a plain real. gpxgo's null elevation, read as 0, is not distinguished.
- Timestamps are integer nanoseconds since the epoch. Go's clamping of `Sub` to the `Duration` range is not modelled.
- Float64 arithmetic is exact real arithmetic: no rounding in sums, quotients or `* 3.6`, no infinities. NaN is modelled only where the source can produce it, as the mean of an empty slice. `math.MaxFloat64` is its exact value.
- The queue's doubly linked nodes are a ring buffer over an array. The model keeps the order of the points and the eviction of the oldest, not the node identities.
- `Push` into a queue of capacity below one, `GetFirst` and `GetLast` on an empty queue, `getSpeed` and `getElevationDiff` on an empty window, and `PrintCombinedStats` with fewer names than files all panic in the source. They are preconditions here.
- Printing: `PrintSingleStats`, `getTimeFormattedForStats`, the output block of `PrintCombinedStats` (tools/printer.go:115-141), and file reading and parsing in `main`. The combined figures are returned instead of printed.
- `PrintCombinedStats` calls `MovingData()` and `ElevationBounds()` repeatedly. Each is read once, as a field.
- Stats.Visit: does not mention the window's exact shape. `Stats.RunWindow` and `Stats.AnalysedWindow` state it.

## Findings

| source | as written | input that shows it | evidently intended | confidence | as-written member | corrected member |
|---|---|---|---|---|---|---|
| tools/stats.go:28 | `maxDownSlope` starts at −100, but the guard keeps every slope strictly above −100, so `st.maxDownSlope > slope` never holds and no descent is recorded | one segment of two points 20 m apart dropping 10 m: slope −50, record stays −100 at the zero point | start at 0 like `maxUpSlope`, so the steepest descent is recorded | high; not executed | Stats.DescentIgnored | Stats.CorrectedDownSlopeIsSteepest |
| main.go:54 | the older `getStats` starts `maxDownSlope` at −100 under the same guard, so no descent is ever recorded | the same two-point segment: slope −50, record stays −100 | start at 0 | high; not executed | LegacyStats.DescentIgnored | LegacyStats.CorrectedDownSlopeIsSteepest |
| tools/printer.go:67 | `minGradient` starts at −100, and every file's down-slope is −100, so it never moves and its file name stays empty | one file holding that segment: minimum gradient −100 with no file | start at 0 and take each file's corrected down-slope | high; not executed | Printer.DescentIgnoredCombined | Printer.CorrectedMinGradientIsSteepest |
| tools/algorithms.go:89-100 | the list of valid speeds is built and dropped; the mean is taken over all slots, with excluded pairs counted as 0 | window of three points 10 m apart at 2 s, 1 s and 2 s: one pair at 36 km/h, one excluded; result 18 | average only the valid pairs' speeds: 36 | high; not executed | Algorithms.SpeedAveragesExcludedAsZero | Algorithms.CorrectedSpeedIgnoresInvalid |
