# Face-presence trackers, modelled in Dafny

The program watches a colour camera and a depth sensor and counts the people
who come and go in front of them. Every frame, a cascade classifier returns a
list of face rectangles, and `detectAndDraw` folds that list into global
tables. Two versions of that function exist, and both are modelled here.

* **v2 (two tiers).** A detection that overlaps no stored face becomes a
  *verifying* entry, provided the depth sample at its centre lies strictly
  between `minDist` and `maxDist`.
  * A verifying entry that is matched again more than 2 s after it started
    moves to the *tracking* tier.
  * An unmatched verifying entry older than 2 s and unseen for more than
    0.5 s is dropped.
  * An unmatched tracking entry older than 2 s and unseen for more than 2 s
    is dropped and counted in `numberOfFaces`.
  * Each tier is four parallel vectors: region, matched-this-frame flag,
    start time and last-seen time.
  * Deletions are collected as an index list, which is reversed and erased
    back to front.
* **v1 (one table).** A table of known faces that only grows.
  * A gated detection matches the first entry whose width and height each
    differ from it by less than 75 pixels. Otherwise it becomes a new entry.
  * An entry whose uninterrupted run of matches lasts longer than
    `timerTrigger` seconds fires `countFaceTriggered`, once per run.
  * An unmatched entry restarts its run.
  * `countFace` adds up every increase in the number of detections from one
    frame to the next.

## Layout

| file | module | contents |
|---|---|---|
| `geometry.dfy` | `Geometry` | `Rect`, and the overlap test on closed rectangles |
| `distance_gate.dfy` | `DistanceGate` | the 640 x 480 distance grid, C++ truncating division, and the centre lookup `(x + w/2)/4, (y + h/2)/4` with its strict gate |
| `vectors.dfy` | `Vectors` | selection, erasure and flagged-index lists on sequences, and the back-to-front erase lemma |
| `tracker_v2.dfy` | `FaceTrackerV2` | the v2 state as values (`Tier`, `Snapshot`, `Frame`) and their properties; loop methods proved against `Frame`; class `FaceTracker` holding the globals as fields |
| `counter_v1.dfy` | `PresenceCounterV1` | the same structure for v1 (`Table`, `Snapshot`, `Frame`, class `FaceCounter`) |

Each version is described twice.

* **On values.** A function `Frame` gives one call of `detectAndDraw`.
  Lemmas state what the source promises about it.
* **As an imperative class.** The class has one field per global vector and
  counter. `ProcessFrame` runs the source's loops and is proved to leave
  exactly `Frame(old state)`, while keeping the class invariant.
  * The loops work on sequence values in module-level methods (for example
    `MarkVerifyingTier`, `EraseListed`, `AdmitAll`, `MatchAll`, `ResetAll`).
  * Each such method is proved against the function that describes it.
  * The class methods store the results back into the fields.

### The unconditional `break` (v2)

In both per-entry passes of v2, the `break` that ends the scan over the
detections sits outside the overlap test (v2/main.cpp:422 and :471). A stored
entry is therefore only ever compared with the first detection of the frame.
The model follows the code: `MarkVerifyingEntry` and `MarkTrackingEntry` run
that scan as a `for` loop with the same `break`, and are proved to match an
entry iff `Seen(faces, r)`, that is `0 < |faces| && Overlaps(faces[0], r)`.
* `PassesSeeOnlyFirstDetection` proves that the later detections do not
  matter to either pass.
* `LaterOverlapIgnored` proves that an entry missed by the first detection is
  unmatched whichever later detection `j` overlaps it, and `LaterOverlapExample`
  gives a concrete such entry.

The admission scans (v2/main.cpp:507-520, 524-535) break inside the test, so
they really do look for any overlap (`OverlapsSome`).

### Time and numbers

Times are whole seconds (`time_t` through `difftime`, stored in
`vector<int>`), so they are `int` and the current time `now` is a parameter.
The verifying grace test compares against `0.5` as a real, as the source
compares a `double`. Dafny's `/` is Euclidean, while the centre lookup uses
C++ `int` division, so the model writes out truncation toward zero
(`TruncDiv`).

## Model

| member | source | states |
|---|---|---|
| Geometry.Overlaps | v2/main.cpp:397-400 | definition of the overlap test used at v2/main.cpp:397-400, 457-460, 511-514 and 526-529: neither rectangle lies wholly left of, right of, above or below the other, with inclusive edges |
| DistanceGate.TruncDiv | v2/main.cpp:545 | definition of C++ `int` division by a positive divisor: the quotient truncated toward zero, so `q * b <= a < q * b + b` for non-negative `a` and `q * b - b < a <= q * b` for negative `a` |
| DistanceGate.CentreColumn | v2/main.cpp:545 | definition of the grid column looked up for a detection, `(x + width / 2) / 4` with truncating division |
| DistanceGate.CentreRow | v2/main.cpp:545 | definition of the grid row looked up for a detection, `(y + height / 2) / 4` with truncating division |
| DistanceGate.Admissible | v2/main.cpp:545-546 | definition of the distance gate shared with v1/main.cpp:401 and 427: the sample at the centre cell lies strictly between `minDist` and `maxDist` |
| FaceTrackerV2.Seen | v2/main.cpp:394-423 | definition of "matched this frame" for a stored entry: the detection list is non-empty and its first element overlaps the entry (the `break` ends the scan after one comparison) |
| FaceTrackerV2.Promoted | v2/main.cpp:412 | definition of promotion: matched, and started more than 2 s ago |
| FaceTrackerV2.LeavesVerifying | v2/main.cpp:411-434 | definition of leaving the verifying tier: promoted, or unmatched with start more than 2 s ago and last seen more than 0.5 s ago |
| FaceTrackerV2.LeavesTracking | v2/main.cpp:475-483 | definition of leaving the tracking tier: unmatched, start more than 2 s ago and last seen more than 2 s ago |
| FaceTrackerV2.Refresh | v2/main.cpp:392-409 | definition of a tier after the per-entry pass: exist flags set to matched, and matched entries take the first detection's region and last-seen `now` |
| FaceTrackerV2.Promotions | v2/main.cpp:414-419 | definition of the entries pushed onto tracking: the promoted refreshed regions in order, present, started and last seen `now` |
| FaceTrackerV2.Tier.Remove | v2/main.cpp:436-446 | definition of erasing the flagged positions from all four vectors of a tier; the result is parallel and shorter by the number of flags |
| Vectors.EraseAt | v2/main.cpp:440-443 | definition of `vector::erase` at a valid position: one element shorter, the elements before it kept, and the elements after it shifted down by one (also v2/main.cpp:489-492) |
| Vectors.Reversed | v2/main.cpp:437 | definition of `std::reverse` on the index list: same length, and the element at position j moves to position length - 1 - j (also v2/main.cpp:486) |
| FaceTrackerV2.Tier.EraseIndex | v2/main.cpp:440-443 | definition of one erase step on all four vectors of a tier: they stay parallel and become one shorter (also v2/main.cpp:489-492) |
| FaceTrackerV2.NewEntry | v2/main.cpp:416-419 | definition of the four `push_back`s of a new entry: one region, present, started and last seen `now`, so its times are ordered and not after `now` (also v2/main.cpp:549-552) |
| PresenceCounterV1.Table.Push | v1/main.cpp:403-407 | definition of the `push_back`s of a new entry onto every vector of the table: it stays parallel and grows by one (also v1/main.cpp:453-457) |
| DistanceGate.IsDistanceGrid | v2/main.cpp:68 | definition of the shape of `int distanceValue[640][480]`: 640 columns of 480 samples each |
| FaceTrackerV2.VerifyingPass | v2/main.cpp:390-446 | definition of the verifying pass: refresh, push the promotions onto tracking, erase the leaving entries; both tiers stay parallel |
| FaceTrackerV2.TrackingPass | v2/main.cpp:450-496 | definition of the tracking pass: refresh, erase the leaving entries, count each one in `numberOfFaces`; both tiers stay parallel |
| FaceTrackerV2.AdmitUpTo | v2/main.cpp:502-555 | definition of the admission pass over a prefix of the detections; it only appends to verifying, and leaves tracking and the counter alone |
| FaceTrackerV2.Frame | v2/main.cpp:361-558 | definition of one call of `detectAndDraw` on the tracking state: verifying pass, tracking pass, admission pass |
| Geometry.OverlapsIffCommonPoint | v2/main.cpp:397-400 | for rectangles with non-negative size, the four negated comparisons hold iff the closed regions [x, x+w] x [y, y+h] share a point |
| Geometry.OverlapsClosedSpans | v2/main.cpp:511-514 | the overlap test is symmetric, every rectangle with non-negative size overlaps itself, and rectangles meeting only at a corner overlap |
| DistanceGate.CentreCellWithinImage | v2/main.cpp:545-546 | the truncated centre lookup of a rectangle inside a W x H image lies within W/4 x H/4, so it is in the 640 x 480 array for any image smaller than 2560 x 1920 |
| Vectors.FlaggedSpec | v2/main.cpp:414-432 | the index list collected while scanning holds exactly the flagged positions, in increasing order, and has as many entries as there are flags |
| Vectors.EraseFlaggedStep | v2/main.cpp:438-444 | when the flagged positions at or above `b` are already erased and `k` is the next flagged position below `b`, `k` is still a valid index and erasing it leaves exactly the flagged positions at or above `k` erased |
| Vectors.EraseFlaggedBounds | v2/main.cpp:436-446 | before the first erase nothing is removed, and after the erase at the smallest flagged index every flagged position is removed |
| Vectors.WithoutLength | v2/main.cpp:436-446 | erasing the flagged positions shortens a vector by exactly the number of flags |
| FaceTrackerV2.RemoveKeepsTimes | v2/main.cpp:440-443 | erasing positions keeps each survivor's start-before-last-seen order and its bound by `now` |
| FaceTrackerV2.MarkVerifyingEntry | v2/main.cpp:392-434 | one verifying entry: matched iff the first detection overlaps it; if matched, it takes that region and is seen `now`; it is promoted iff matched and started more than 2 s ago; it leaves iff promoted, or unmatched, started more than 2 s ago and unseen for more than 0.5 s; a promotion always leaves |
| FaceTrackerV2.MarkVerifyingTier | v2/main.cpp:390-435 | the loop over the verifying tier returns the refreshed tier; the tracking tier is extended by each promoted entry in order, with the refreshed region, present, and started and last seen `now`; the index list holds exactly the leaving positions |
| FaceTrackerV2.PromotedUpToSelects | v2/main.cpp:414-419 | pushing promotions one at a time yields the promoted refreshed regions in order, each with exist true and both times `now` |
| FaceTrackerV2.MarkTrackingEntry | v2/main.cpp:452-483 | one tracking entry: matched iff the first detection overlaps it; if matched, it is refreshed; it leaves iff unmatched, started more than 2 s ago and unseen for more than 2 s |
| FaceTrackerV2.MarkTrackingTier | v2/main.cpp:450-484 | the loop over the tracking tier returns the refreshed tier, and the index list holds exactly the leaving positions |
| FaceTrackerV2.EraseListed | v2/main.cpp:436-446 | reversing the index list and erasing each listed position from the four vectors removes exactly the flagged positions; the survivors keep their order |
| FaceTrackerV2.TierEraseStep | v2/main.cpp:440-443 | one back-to-front erase step on all four vectors of a tier |
| FaceTrackerV2.OverlapsSome | v2/main.cpp:507-520 | the scan with early `break` returns true iff some stored region overlaps the detection |
| FaceTrackerV2.AdmitAll | v2/main.cpp:502-555 | the admission loop pushes each detection that overlaps no verifying entry (including ones admitted earlier this frame) and no tracking entry, and passes the distance gate, with exist true and both times `now` |
| FaceTrackerV2.AdmittedAreGated | v2/main.cpp:545-553 | every entry added by admission is one of the frame's detections that passed the strict distance gate, and is present, started and last seen `now` |
| FaceTrackerV2.AdmittedOverlapNothing | v2/main.cpp:504-539 | every entry added by admission overlaps no tracking entry and no verifying entry stored before it, including those admitted earlier in the same frame |
| FaceTrackerV2.AdmitKeepsStored | v2/main.cpp:549-552 | admission only appends: the entries already stored keep all four fields |
| FaceTrackerV2.AdmitKeepsTimes | v2/main.cpp:549-552 | admission keeps every verifying entry's start-before-last-seen order and its bound by `now` |
| FaceTrackerV2.FrameCountsDepartures | v2/main.cpp:485-494 | `numberOfFaces` rises by exactly the number of entries the tracking pass removed, and never falls |
| FaceTrackerV2.PromotedSurviveTrackingPass | v2/main.cpp:416-419 | entries promoted in a frame go through that frame's tracking pass and none of them is dropped by it |
| FaceTrackerV2.PassesSeeOnlyFirstDetection | v2/main.cpp:394-423 | both per-entry passes give the same result on the whole detection list as on its first element alone |
| FaceTrackerV2.LaterOverlapIgnored | v2/main.cpp:454-472 | an entry overlapped by any later detection `j` but not by the first is not matched, although some detection overlaps it |
| FaceTrackerV2.LaterOverlapExample | v2/main.cpp:394-423 | example: a 40 x 40 entry at (100, 100) overlapped only by the second of two detections is not matched, although some detection overlaps it |
| FaceTrackerV2.EmptyFrameIsNoOp | v2/main.cpp:390-555 | a frame with no detections on empty tiers changes neither tier nor `numberOfFaces` |
| FaceTrackerV2.FrameKeepsInvariant | v2/main.cpp:361-558 | a frame keeps the eight vectors parallel and every entry started no later than last seen and last seen no later than `now`, and never lowers `numberOfFaces` |
| FaceTrackerV2.FaceTracker.constructor | v2/main.cpp:73-85 | the globals start as empty vectors, an empty index list and a zero counter |
| FaceTrackerV2.FaceTracker.MarkVerifying | v2/main.cpp:390-435 | the verifying pass on the fields leaves the refreshed tier, the tracking tier extended by the promotions, and the index list of leaving positions |
| FaceTrackerV2.FaceTracker.EraseVerifying | v2/main.cpp:436-446 | erasing the listed positions from the verifying vectors leaves the tier without them, and the index list empty |
| FaceTrackerV2.FaceTracker.MarkTracking | v2/main.cpp:450-484 | the tracking pass on the fields leaves the refreshed tier and the index list of leaving positions |
| FaceTrackerV2.FaceTracker.EraseTracking | v2/main.cpp:485-496 | erasing the listed positions from the tracking vectors removes them, raises `numberOfFaces` by their number, and empties the index list |
| FaceTrackerV2.FaceTracker.AdmitDetections | v2/main.cpp:502-555 | admission on the fields computes the admission pass |
| FaceTrackerV2.FaceTracker.ProcessFrame | v2/main.cpp:361-558 | one frame leaves the fields equal to `Frame` of the old state, keeps the vectors parallel and times ordered, and never lowers `numberOfFaces` |
| PresenceCounterV1.Similar | v1/main.cpp:433 | definition of size similarity: width and height each differ by less than 75; position plays no part |
| PresenceCounterV1.Fires | v1/main.cpp:438-443 | definition of the trigger: the detection's first similar entry has a run that has lasted longer than `timerTrigger` and has not fired yet |
| PresenceCounterV1.MatchDetection | v1/main.cpp:430-460 | definition of matching one gated detection: the first similar entry takes its region and is marked matched, and triggered if it fires, otherwise a new entry is pushed; the table never shrinks |
| PresenceCounterV1.MatchStep | v1/main.cpp:424-462 | definition of one pass of the matching loop: a gated detection is matched and may bump the trigger counter, and an ungated one changes nothing |
| PresenceCounterV1.MatchUpTo | v1/main.cpp:424-462 | definition of the matching loop over a prefix of the detections; the table stays parallel and never shrinks, and `countFace`/`prevCount` are untouched |
| PresenceCounterV1.SeedUpTo | v1/main.cpp:396-409 | definition of the first-run loop over a prefix of the detections; it adds at most one entry per detection |
| PresenceCounterV1.ClearTriggers | v1/main.cpp:421-423 | definition of the clearing loop: every `triggerDetection` flag false |
| PresenceCounterV1.ResetUnmatched | v1/main.cpp:464-471 | definition of the reset loop: an unmatched entry gets saved `now` and triggered false, and a matched one keeps both |
| PresenceCounterV1.Frame | v1/main.cpp:364-474 | definition of one call of `detectAndDraw` on the counter state: the `countFace` update, then seeding on an empty table, or clearing, matching and resetting; the table never shrinks |
| PresenceCounterV1.CountFaceAfter | v1/main.cpp:385-389 | `countFace` grows by `n - prevCount` when `n` detections exceed the previous count, and otherwise stays; it never falls |
| PresenceCounterV1.FrameCountsFaces | v1/main.cpp:385-390 | whichever branch runs, `countFace` grows by max(0, n - prevCount) and `prevCount` becomes `n` |
| PresenceCounterV1.FirstSimilar | v1/main.cpp:431-433 | the entry a detection matches is the first whose width and height each differ by less than 75 from it, or none when no entry is similar |
| PresenceCounterV1.FindSimilar | v1/main.cpp:431-451 | the search loop with `break` reports a match iff some entry is similar, and stops at the first one |
| PresenceCounterV1.SeedSelectsGated | v1/main.cpp:396-409 | the first-run loop over a prefix of the detections yields exactly the gated detections, in order, each with both flags false and saved `now` |
| PresenceCounterV1.FirstRunSeeds | v1/main.cpp:395-410 | on an empty table the frame only seeds it with the gated detections, and counts no trigger |
| PresenceCounterV1.SeedAll | v1/main.cpp:396-409 | the first-run loop computes the seeding function |
| PresenceCounterV1.ClearAll | v1/main.cpp:421-423 | the clearing loop marks every entry unmatched and changes nothing else |
| PresenceCounterV1.MatchOne | v1/main.cpp:430-460 | one gated detection overwrites the region of the first similar entry and marks it matched, and marks it triggered when it fires; with no similar entry it appends a new entry; `fired` says whether the trigger counter is bumped |
| PresenceCounterV1.MatchAll | v1/main.cpp:424-462 | the matching loop over all detections computes the matching function; detections outside the gate are skipped |
| PresenceCounterV1.UngatedIgnored | v1/main.cpp:427 | matching all detections gives the same table and counters as matching only those that pass the distance gate |
| PresenceCounterV1.MatchStepTriggers | v1/main.cpp:438-447 | one detection raises `countFaceTriggered` by exactly the net number of triggered flags it sets, which is 0 or 1, and clears no triggered flag |
| PresenceCounterV1.TriggerBalance | v1/main.cpp:438-447 | across the matching loop `countFaceTriggered` rises by exactly the number of triggered flags set, never falls, and rises by at most the number of entries not already triggered |
| PresenceCounterV1.MatchKeepsRuns | v1/main.cpp:435-457 | during matching the stored entries keep their saved times and triggered flags stay set; new entries are saved `now` |
| PresenceCounterV1.ResetAll | v1/main.cpp:464-471 | the reset loop computes the reset function: an entry not matched this frame gets saved `now` and its triggered flag cleared; a matched entry keeps both |
| PresenceCounterV1.FrameRestartsUnmatched | v1/main.cpp:464-471 | after a later frame an old entry keeps its saved time iff matched and otherwise restarts at `now`; new entries start at `now`; a triggered entry is matched; a triggered entry matched again stays triggered, so it cannot fire twice in one run |
| PresenceCounterV1.FrameKeepsInvariant | v1/main.cpp:364-474 | after any frame only matched entries are triggered, and neither `countFace` nor `countFaceTriggered` falls |
| PresenceCounterV1.DetectAndCount | v1/main.cpp:364-474 | the loops of one frame compute `Frame`: the `countFace` update, then seeding on an empty table, or clearing, matching and resetting |
| PresenceCounterV1.FaceCounter.constructor | v1/main.cpp:69-78 | the globals start as an empty table and zero counters |
| PresenceCounterV1.FaceCounter.ProcessFrame | v1/main.cpp:364-474 | one frame leaves the fields equal to `Frame` of the old state, keeps the vectors parallel and only matched entries triggered, never lowers either counter, and never shrinks the table |

## Left out

- Rendering and sensor plumbing (colour and depth frame listeners, texture packing, SFML windows) is not modelled: it is foreign SDK code with no effect on the tables.
- `update_depth`, which fills `distanceValue` through the sensor SDK's floating-point conversion, is not modelled: the grid is an input `seq<seq<int>>` of 640 columns of 480 samples.
- The face detector (`detectMultiScale`), the drawing of rectangles, `imshow` and the v1 `faceSaved` image crops are foreign OpenCV calls. The detections are a parameter, and the crop vector is dropped because nothing reads it.
- The clock (`time`, `mktime`, `difftime`) and the console report throttled by `displayTimer` are not modelled: `now` is a parameter, and printing has no effect on the state.
- Loading `setting.json` and the main event loop are I/O and setup. `minDist`, `maxDist` and `timerTrigger` are parameters. `timerTrigger` is loaded by v2 but never used there, so v2's model does not take it.
- FaceTrackerV2.FaceTracker.ProcessFrame: requires every detection's centre lookup to be inside the 640 x 480 array, and the source never checks this. An out-of-bounds read has no defined result to model. The requirement also covers detections whose lookup the code would not reach (those skipped because they overlap a stored entry).
- PresenceCounterV1.FaceCounter.ProcessFrame: the same grid-bounds requirement on every detection.
- FaceTrackerV2.FaceTracker.ProcessFrame: requires that no stored time is later than `now`, which is how non-decreasing time enters the model. The source relies on a monotone clock and does not check it.
- FaceTrackerV2.FaceTracker.EraseTracking: adds the number of erased entries to `numberOfFaces` in one step after the erase loop, where the source adds 1 per erase. The final value is the same.
- PresenceCounterV1.CountFaceAfter: computes `prevCount - n` on unbounded integers. The source subtracts a `size_t` from an `int` and converts back to `int`, and takes `abs` of a `double`. Both agree for the small counts a camera frame can produce, so overflow is not modelled.
- Rectangle coordinates and sizes, and times, are unbounded integers: the `int` overflow of `x + width`, `y + height`, `x + width / 2` and of `difftime` stored into `vector<int>` is not modelled. It cannot occur for detector rectangles inside a camera image and for times in seconds since 2000.
- The `int` width of the counters (`numberOfFaces`, `countFace`, `countFaceTriggered`) is not modelled: they are unbounded integers.
