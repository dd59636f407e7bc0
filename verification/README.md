# Verification model of the weather-feed service

A Dafny model of the parts of the service that carry real invariants, and proofs
about them. `dafny verify dfyconfig.toml` checks the whole project.

| part | modules | what is proved |
|---|---|---|
| persistence queue and worker | `PersistQueue`, `PersistProtocol`, `PersistJob`, `PersistSteps`, `PersistService`, `PersistWorker` | the queue's methods, every interleaving of producers, close and worker at the grain of its critical sections, the event trace of a retried job, the same job event by event inside the interleavings, and the steps carried out on the shared queue |
| retained files and name matching | `RetainedFiles`, `RetainedHistory`, `Wildcard` | map and deque against a plain list, what is shown against the insertion history, the greedy matcher against declarative globs up to letter case |
| geometry | `Geo`, `GeoInterior`, `LatLonRing`, `LatLonTokens`, `LatLonDegrees` | ray casting and its box prefilter, the verdict as the interior of any polygon, self-intersection as true crossing, the repairing coordinate tokenizer and what tokens mean |
| calendar | `Calendar`, `CivilDays` | the three-candidate search against the search over all months and days, and both against the closed formula for dates |
| bulletin parsers | `Ugc`, `UgcRoundTrip`, `UgcLanguage`, `UgcLaws`, `UgcSection`, `TextLines`, `SlashScan`, `VtecSegments`, `VtecReading`, `VtecStrings` | UGC text round trip and exact language, where blocks begin and end, bucket conservation, record scanning, the segment splitter said of texts |
| incident table and row indexes | `IncidentUpdates`, `UpdatesOfCodes`, `IncidentTable`, `IncidentOfProduct`, `IncidentOrder`, `Body`, `BodyRows`, `StoredRows`, `StoredPoints`, `RowCounts`, `BodyIndex`, `FilterLaws` | grouping, last writer wins with sweeps, what one product leaves, exactly when arrival order matters, rows field by field against the body, the summary and the filters |
| backpressure | `Backpressure` | drop accounting over all runs against a bounded queue |

`Prelude`, `Digits`, `Ascii` and `OrderedMap` hold shared vocabulary. Where the code
tests bytes, letters, dates or fields by its own functions, `TextLines`, `UgcLaws`,
`VtecReading`, `CivilDays`, `StoredRows` and the like say what these mean without them. Lemmas that are
inductive, or to which Dafny would apply induction by itself, carry
`{:induction false}`: each inductive proof is the one written down.

The code does not always do what one would hope or what its comments say. Where a
natural property fails, the model follows the code, a lemma shows an input, and
another proves exactly when the property holds:

- The name matcher compares bytes before it looks for a star, so a literal star in
  the text is consumed without being remembered; it is right for every pattern
  exactly when the text has no star before its last byte, and right for every text
  exactly when the pattern has no star: every pattern with a star is defeated by some
  name (crates/emwin-cli/src/live/server_support.rs:126-131; `Wildcard.EarlyStarIsMissed`,
  `Wildcard.CorrectForAllPatternsIff`, `Wildcard.LetterAfterStarIsMissed`,
  `Wildcard.CorrectForAllTextsIff`).
- The slash scanner's comment says records do not cross lines, but its search goes
  on past a line break; records of a shape stay within lines exactly when no text of
  that shape holds a break (crates/emwin-parser/src/body/support.rs:27, 41-45;
  `SlashScan.BrokenRecordIsFound`, `SlashScan.VtecRecordsStayInLinesIff`).
- The nearest-day search looks at three months only and can miss a day 29 to
  31 two months back that is nearer, or as near and earlier
  (crates/emwin-parser/src/time.rs:107-121; `Calendar.MarchFirstSkipsJanuary`,
  `Calendar.MarchNoonTies`, `Calendar.NearestExact`, `Calendar.NoneNearerExact`).
- The not-before search returns an instant in the past when no candidate lies ahead,
  so that a UGC section can expire before its own valid time
  (crates/emwin-parser/src/time.rs:62-80; `Calendar.JanuaryEndHasNothingAhead`,
  `Calendar.NotBeforeExact`).
- The box prefilter of the location filter has no tolerance while the edge test has
  one (crates/emwin-cli/src/live/filter.rs:676-683; `Geo.PrefilterLosesEdgePoint`,
  `Geo.PolygonMatches`).
- The order in which incident updates arrive matters when two different updates carry
  the same, latest second, when the latest ones bring no status and an earlier one
  would have set a different status, and when a sweep can fall before such a
  latest update (crates/emwin-db/src/postgres.rs:128-155, 1145-1216;
  `IncidentOrder.SameSecondDiffers`, `IncidentOrder.CorrectionBeforeOpeningIsLost`,
  `IncidentOrder.SweepBeforeCorrectionShows`, `IncidentOrder.OrderIsIrrelevantIff`,
  `IncidentOrder.SweptOrderIsIrrelevantIff`).
- Marine zones are stored under letter M and summarized and filtered under letter Z
  (crates/emwin-db/src/postgres.rs:802-823, crates/emwin-parser/src/projection.rs:312-330;
  `BodyIndex.MarineZoneDiffers`, `BodyIndex.StoredIsSummarizedIff`).

## Model

| member | source | states |
|---|---|---|
| `PersistQueue.SharedQueue.constructor` | crates/emwin-db/src/runtime.rs:220-240 | an empty open queue without permits, a configured capacity of zero counting as one |
| `PersistQueue.SharedQueue.Enqueue` | crates/emwin-db/src/runtime.rs:145-179 | a closed queue refuses and stays as it was; an open one appends; when full it evicts exactly the oldest request and adds no permit, otherwise it adds one; the result reports acceptance, length and the evicted key |
| `PersistQueue.SharedQueue.Close` | crates/emwin-db/src/runtime.rs:194-209 | the first close empties the queue and leaves one more permit so that the worker wakes; later ones change nothing; the number of dropped requests is reported |
| `PersistQueue.SharedQueue.AcquireAndForget` | crates/emwin-db/src/runtime.rs:290-297 | takes one permit, leaving requests and counters alone |
| `PersistQueue.SharedQueue.PopRequest` | crates/emwin-db/src/runtime.rs:347-354 | removes and returns the oldest request, if any |
| `PersistQueue.SharedQueue.RecordOutcome` | crates/emwin-db/src/runtime.rs:303-331 | counts one success or one failure, saturating |
| `PersistProtocol.PermitsKept` | crates/emwin-db/src/runtime.rs:145-209 | every atomic step keeps: while open, free permits plus the one a worker holds equal the waiting requests, at most the capacity; once closed the queue is empty and at least one permit remains until the worker is gone |
| `PersistProtocol.RunKeeps` | crates/emwin-db/src/runtime.rs:145-363 | every interleaving of producers, close and worker keeps permits, order, jobs, totals and drops consistent |
| `PersistProtocol.ReachableInvariant` | crates/emwin-db/src/runtime.rs:145-363 | the same from the initial state, for every capacity |
| `PersistProtocol.OpenPopFindsRequest` | crates/emwin-db/src/runtime.rs:290-301 | while the queue is open a permit always finds a request, so no wakeup is spent on nothing; an empty pop is followed by the worker's exit |
| `PersistProtocol.LeavesOnlyClosed` | crates/emwin-db/src/runtime.rs:297-301 | a worker that popped nothing leaves exactly when the queue is closed and empty, in every state, reachable or not |
| `PersistProtocol.WorkerCanMove` | crates/emwin-db/src/runtime.rs:290-301 | no lost wakeup: whenever requests wait or the queue is closed, the worker has an enabled step |
| `PersistProtocol.ClosedRunDrains` | crates/emwin-db/src/runtime.rs:194-209 | after close every worker step brings its exit nearer by exactly one, nothing is accepted any more and at most the job in flight still finishes |
| `PersistProtocol.Conservation` | crates/emwin-db/src/runtime.rs:145-209 | enqueued = evicted + persisted + failed + waiting + in flight + dropped at close, in every reachable state without saturation |
| `PersistProtocol.OpenSnapshotAddsUp` | crates/emwin-db/src/runtime.rs:181-192 | a snapshot of an open queue adds up for its reader: enqueued = evicted + persisted + failed + waiting, plus one exactly while a job runs, and the waiting ones are within the capacity |
| `PersistProtocol.PendingIsSuffix` | crates/emwin-db/src/runtime.rs:145-179 | requests leave strictly in acceptance order, whatever their fate, so the waiting ones are a suffix of the acceptance log within the capacity |
| `PersistProtocol.JobsInAcceptanceOrder` | crates/emwin-db/src/runtime.rs:303-331 | finished jobs and the running one are accepted requests at strictly increasing positions of the acceptance log |
| `PersistWorker.EnqueueStep` | crates/emwin-db/src/runtime.rs:145-179 | enqueueing on the shared queue is the service's enqueue step, and is accepted exactly when the acceptance log grows |
| `PersistWorker.CloseStep` | crates/emwin-db/src/runtime.rs:194-209 | closing the shared queue is the service's close step, which marks the place in a running job's events |
| `PersistWorker.AcquireStep` | crates/emwin-db/src/runtime.rs:290-294 | waiting for a permit is the service's acquire step |
| `PersistWorker.PopStep` | crates/emwin-db/src/runtime.rs:296 | popping is the service's pop step: the worker runs the popped request, or has found nothing |
| `PersistWorker.CheckClosedStep` | crates/emwin-db/src/runtime.rs:297-301 | the worker leaves its loop exactly when the service's worker stops |
| `PersistWorker.RetryStep` | crates/emwin-db/src/runtime.rs:411-461 | after a refusal the job sleeps its delay exactly when the error is retryable and the shared queue is open, and gives up otherwise; both are steps of the service |
| `PersistWorker.FinishStep` | crates/emwin-db/src/runtime.rs:303-331 | the result with which the running job ended is recorded as the outcome of its request |
| `PersistWorker.FinalStats` | crates/emwin-db/src/runtime.rs:333-345 | what the worker returns: nothing waits, enqueued = evicted + persisted + failed + dropped at close, and persisted is the number of commits the sink accepted in the whole run |
| `PersistWorker.RecordedAsCommitted` | crates/emwin-db/src/runtime.rs:303-331 | what is recorded as persisted is what the metadata sink committed, as the job's last event; nothing recorded as failed was committed |
| `PersistSteps.RunIsTold` | crates/emwin-db/src/runtime.rs:396-461 | a job taken event by event, with close at any point, does the trace of a story: failed passes, one pass, refused commits, an end |
| `PersistSteps.StoryRuns` | crates/emwin-db/src/runtime.rs:396-461 | every story whose sleeps were decided before close is something the job can do event by event, and it ends in that story's phase |
| `PersistSteps.AfterIffTold` | crates/emwin-db/src/runtime.rs:396-461 | the event-by-event machine and the language of stories are the same: a phase is reached by a trace exactly when a story tells that trace and ends there |
| `PersistSteps.ReturnsIffDid` | crates/emwin-db/src/runtime.rs:396-461 | the results the machine can return on a trace are exactly those promised of persist_request_with_retry |
| `PersistService.ServiceRefinesProtocol` | crates/emwin-db/src/runtime.rs:277-331 | with writes, commits, sleeps and retry decisions as steps of their own, every run is a run of the protocol in which a job is one step |
| `PersistService.EndedJobsDid` | crates/emwin-db/src/runtime.rs:303-461 | however producers and close fall between its events, every ended job did what is promised of persist_request_with_retry, with close where it really fell |
| `PersistService.RunRecords` | crates/emwin-db/src/runtime.rs:303-331 | in every run the outcomes are the results of the ended jobs in order, and successes are as many as accepted commits |
| `PersistService.PersistedCountsCommits` | crates/emwin-db/src/runtime.rs:303-331 | the published count of persisted requests is the number of commits the sink accepted, except while one is still to be counted |
| `PersistService.StoppedStats` | crates/emwin-db/src/runtime.rs:333-345 | once the worker has left, every accepted request was evicted, committed, failed or dropped, and nothing waits |
| `PersistService.ShutdownIsPrompt` | crates/emwin-db/src/runtime.rs:261-272 | in every run, from close on: at most one write pass and one commit for the running job and none without one, no sleep decided, nothing accepted, and at most six worker steps besides the writes |
| `PersistService.ServiceCanMove` | crates/emwin-db/src/runtime.rs:290-331 | the worker is never stuck: with a job, work waiting or the queue closed it can move whatever writer and sink answer, until it has left |
| `PersistJob.BackoffGrows` | crates/emwin-db/src/runtime.rs:472-479 | the delay never shrinks, never exceeds the maximum, and is constant from the sixth attempt on |
| `PersistJob.BackoffDoubles` | crates/emwin-db/src/runtime.rs:472-479 | the delay starts at the initial one and doubles six times, each time capped |
| `PersistJob.Backend.WriteBlobs` | crates/emwin-db/src/runtime.rs:365-376 | blobs are written in order until the first failure; success returns one reference per blob in blob order |
| `PersistJob.WritePhase` | crates/emwin-db/src/runtime.rs:396-430 | the write phase repeats whole passes separated by backoff sleeps, gives up only on a permanent error or a closed queue, and sleeps only before close |
| `PersistJob.CommitPhase` | crates/emwin-db/src/runtime.rs:430-461 | the metadata phase repeats the same commit with the same references, under the same rules |
| `PersistJob.PersistRequestWithRetry` | crates/emwin-db/src/runtime.rs:396-461 | the whole job: its event trace is failed passes, one full pass, refused commits and a verdict, and its result agrees with the verdict |
| `PersistJob.CommitOnlyAfterFullPass` | crates/emwin-db/src/runtime.rs:378-461 | every metadata commit comes after one full pass that stored every blob in order, carries exactly its references, is followed by no further write, and only the last event can be a successful commit |
| `PersistJob.TailAfterSleeps` | crates/emwin-db/src/runtime.rs:396-461 | after the last sleep at most one write pass and one commit remain |
| `PersistJob.AfterClose` | crates/emwin-db/src/runtime.rs:463-470 | after close there is no sleep, at most one more write pass and at most one more commit |
| `RetainedFiles.Store.EvictExpired` | crates/emwin-cli/src/live/server_support.rs:98-113 | keeps exactly the entries whose age is within the lifetime, in order, in both the map and the deque |
| `RetainedFiles.Store.Insert` | crates/emwin-cli/src/live/server_support.rs:42-76 | refines: drop expired, move the name to the back with its new file, keep the newest up to the limit |
| `RetainedFiles.Store.RetainOthers` | crates/emwin-cli/src/live/server_support.rs:42-76 | removes one name from the order and nothing else |
| `RetainedFiles.Store.Trim` | crates/emwin-cli/src/live/server_support.rs:42-76 | drops oldest entries until the limit holds; map and deque agree again |
| `RetainedFiles.Store.List` | crates/emwin-cli/src/live/server_support.rs:78-86 | lists live entries newest first |
| `RetainedFiles.Store.Get` | crates/emwin-cli/src/live/server_support.rs:88-91 | finds a file exactly when it is a live entry of that name |
| `RetainedFiles.Store.Len` | crates/emwin-cli/src/live/server_support.rs:93-96 | counts the live entries |
| `RetainedFiles.StoreIsSuffixOfLatest` | crates/emwin-cli/src/live/server_support.rs:42-113 | after any chronological run the store is a suffix of the names by last insertion, and everything before it is expired or beyond the limit |
| `RetainedFiles.ObservationIsHistory` | crates/emwin-cli/src/live/server_support.rs:42-113 | what any observation sees is a pure function of the insertion history: the most recent distinct names up to the limit, restricted to the live ones |
| `RetainedHistory.ShownIff` | crates/emwin-cli/src/live/server_support.rs:45-113 | a file is shown exactly when it is the last inserted under its name, fewer than the capacity of other names came since, and it is no older than the time to live |
| `Wildcard.WildcardMatch` | crates/emwin-cli/src/live/server_support.rs:116-149 | the exact language of the matcher on all pairs of strings as they are, bytes being equal up to the case of the letters A to Z; termination although the text index moves backwards |
| `Wildcard.CaseNeverMatters` | crates/emwin-cli/src/live/server_support.rs:117-118 | pattern and text may be respelled in any letter case without changing an answer, of the matcher or of the declarative glob |
| `Wildcard.OnlyCaseIsIgnored` | crates/emwin-cli/src/live/server_support.rs:117-118 | without a star a pattern matches exactly the texts equal to it up to letter case: no other bytes are identified |
| `Wildcard.CapitalPatternMatches` | crates/emwin-cli/src/live/server.rs:562 | a pattern in capitals finds a name in small letters |
| `Wildcard.Commit` | crates/emwin-cli/src/live/server_support.rs:128-143 | remembering only the last star loses nothing: a later alignment of the bytes between two stars reaches no further than the first one |
| `Wildcard.MatchIsGlob` | crates/emwin-cli/src/live/server_support.rs:116-149 | a match is always a declarative glob match |
| `Wildcard.GlobIsMatch` | crates/emwin-cli/src/live/server_support.rs:116-149 | on a text with no star before its last byte every glob match is found |
| `Wildcard.EarlyStarIsMissed` | crates/emwin-cli/src/live/server_support.rs:126-131 | a star earlier in the text defeats the pattern that is the text up to it and a star: a glob match that the matcher misses |
| `Wildcard.CorrectForAllPatternsIff` | crates/emwin-cli/src/live/server_support.rs:116-149 | the matcher is right for every pattern exactly when the text has no star before its last byte |
| `Wildcard.LetterAfterStarIsMissed` | crates/emwin-cli/src/live/server_support.rs:126-131 | the pattern's own bytes with a letter put behind one of its star runs are a glob match that the matcher misses |
| `Wildcard.CorrectForAllTextsIff` | crates/emwin-cli/src/live/server_support.rs:116-149 | the matcher is right for a pattern on every text exactly when the pattern has no star |
| `Geo.PolygonBounds` | crates/emwin-parser/src/geo.rs:43-60 | the least box that contains every vertex and is touched on each side; none for no vertices |
| `Geo.PointInPolygon` | crates/emwin-parser/src/geo.rs:69-98 | inside means on an edge within the tolerance, or an odd number of edges crossing the ray; under three vertices nothing is inside |
| `Geo.SidesChange` | crates/emwin-parser/src/geo.rs:69-98 | a closed chain changes sides of a latitude an even number of times (the parity argument, by prefix) |
| `Geo.InterceptBetween` | crates/emwin-parser/src/geo.rs:83-91 | the crossing point of an edge lies between the edge's longitudes |
| `Geo.OutsideBox` | crates/emwin-parser/src/geo.rs:43-98 | outside the exact bounding box only the edge tolerance can make a point inside |
| `Geo.InsideImpliesNearBox` | crates/emwin-parser/src/geo.rs:43-115 | an inside point lies within the bounding box widened by the tolerance |
| `Geo.PolygonMatches` | crates/emwin-cli/src/live/filter.rs:676-683 | the box prefilter never adds a match and loses one exactly when a point outside the box touches an edge within the tolerance |
| `Geo.PrefilterLosesEdgePoint` | crates/emwin-cli/src/live/filter.rs:676-683 | a triangle and a point that is inside and that the box prefilter rejects |
| `Geo.EdgeSymmetric` | crates/emwin-parser/src/geo.rs:78-115 | an edge test does not depend on the edge's direction |
| `Geo.RotationInvariant` | crates/emwin-parser/src/geo.rs:69-98 | the answer is the same from any starting vertex |
| `Geo.ReversalInvariant` | crates/emwin-parser/src/geo.rs:69-98 | the answer is the same for the reversed vertex list |
| `GeoInterior.TouchMeans` | crates/emwin-parser/src/geo.rs:100-117 | a point touches an edge exactly when it spans with it at most the tolerance of area and lies in its box widened by the tolerance |
| `GeoInterior.TriangleInside` | crates/emwin-parser/src/geo.rs:69-98 | off its edges a point is inside a triangle, degenerate or not, exactly when it lies strictly on one side of all three |
| `GeoInterior.DiagonalCut` | crates/emwin-parser/src/geo.rs:69-98 | off the edges and the diagonal, a point is inside a polygon exactly when it is inside one of the two parts a diagonal cuts it into |
| `GeoInterior.InsideIsOddFan` | crates/emwin-parser/src/geo.rs:69-98 | off the edges and the lines from the first vertex, a point is inside any polygon exactly when an odd number of its fan's triangles hold it, by orientations alone |
| `GeoInterior.BeyondLongSide` | crates/emwin-parser/src/geo.rs:84-88 | a point in the box of a triangle but beyond its long side is outside |
| `LatLonRing.IntersectMeansCrossing` | crates/emwin-parser/src/body/latlon.rs:472-488 | the two orientation products are negative exactly when the segments are not parallel and meet at a point interior to both |
| `LatLonRing.HasSelfIntersection` | crates/emwin-parser/src/body/latlon.rs:444-466 | the double scan finds exactly the crossing of two segments that are neither neighbours nor the first and last |
| `LatLonRing.ScanIsCyclic` | crates/emwin-parser/src/body/latlon.rs:444-466 | on a closed ring that is: some two cyclically non-adjacent edges cross |
| `LatLonRing.RotationKeepsCrossing` | crates/emwin-parser/src/body/latlon.rs:444-466 | the verdict does not depend on the start vertex |
| `LatLonRing.ReversalKeepsCrossing` | crates/emwin-parser/src/body/latlon.rs:444-466 | the verdict does not depend on the direction |
| `LatLonRing.ShortNeverIntersects` | crates/emwin-parser/src/body/latlon.rs:444-448 | up to four points never self-intersect |
| `LatLonRing.ValidatePolygon` | crates/emwin-parser/src/body/latlon.rs:414-442 | too few points and self-intersection are the only rejections; what is accepted is closed, keeps the points and does not cross itself |
| `LatLonTokens.ConsumeCoordinateToken` | crates/emwin-parser/src/body/latlon.rs:318-341 | the next coordinate token and the words left, joining broken four-digit tokens |
| `LatLonTokens.NormalizeCoordinateTokens` | crates/emwin-parser/src/body/latlon.rs:264-299 | the normalized tokens and the fused tokens reported as repairs, for every word list |
| `LatLonTokens.ParsePoints` | crates/emwin-parser/src/body/latlon.rs:190-262 | the points of a normalized token list, or the error the loop stops at |
| `LatLonTokens.ArrangeNoWideAtEven` | crates/emwin-parser/src/body/latlon.rs:264-299 | no unsigned eight-digit token is left at an even position |
| `LatLonTokens.PointsAreTokenPairs` | crates/emwin-parser/src/body/latlon.rs:190-299 | on success there are exactly half as many points as normalized tokens |
| `LatLonTokens.TokensPrinted` | crates/emwin-parser/src/body/latlon.rs:318-341 | every printed spelling, broken by white space or not, is read back as its tokens |
| `LatLonTokens.ArrangePrinted` | crates/emwin-parser/src/body/latlon.rs:264-316 | packed pairs and fused pairs come apart into the coordinates they spell, one repair per fused token |
| `LatLonTokens.CollectSpelled` | crates/emwin-parser/src/body/latlon.rs:190-262 | spelled coordinates parse to the places they spell |
| `LatLonTokens.SpellingsAgree` | crates/emwin-parser/src/body/latlon.rs:190-412 | every mixture of separate, packed, fused and broken spellings of at least three places parses to the same points, with exactly one repair per fused token |
| `LatLonDegrees.Hundredths` | crates/emwin-parser/src/body/latlon.rs:350-354 | four or five digits are hundredths of a degree |
| `LatLonDegrees.MinutesAndSeconds` | crates/emwin-parser/src/body/latlon.rs:355-360 | six digits are degrees, minutes and seconds |
| `LatLonDegrees.FiveDecimals` | crates/emwin-parser/src/body/latlon.rs:361-365 | seven digits are degrees with five decimals |
| `LatLonDegrees.HundredthsOfSeconds` | crates/emwin-parser/src/body/latlon.rs:366-372 | eight digits are degrees, minutes, seconds and hundredths of a second |
| `LatLonDegrees.Westward` | crates/emwin-parser/src/body/latlon.rs:376-389 | a longitude is the western one of the degrees written, a hundred more below forty |
| `LatLonDegrees.SignedOrNot` | crates/emwin-parser/src/body/latlon.rs:343-348 | a sign makes a token a plain negative number, and what is no number is no coordinate |
| `LatLonDegrees.PairsTakenApart` | crates/emwin-parser/src/body/latlon.rs:305-316 | eight digits are a pair where a latitude is due, and where a longitude is due exactly when all tokens before are unsigned and at most five wide |
| `LatLonDegrees.OthersStand` | crates/emwin-parser/src/body/latlon.rs:264-296 | every token of another width, or with a sign, stands for itself |
| `LatLonDegrees.PointsByTurns` | crates/emwin-parser/src/body/latlon.rs:190-262 | coordinates by turns give their points in order, under three of which are refused |
| `Calendar.CandidateDatetimes` | crates/emwin-parser/src/time.rs:82-105 | the occurrences of a day and time in the three months around the reference, or none for impossible fields |
| `Calendar.NeverEmpty` | crates/emwin-parser/src/time.rs:82-131 | one of any three consecutive months has the day, for days 1 to 31 |
| `Calendar.GregorianIsCalendar` | crates/emwin-parser/src/time.rs:107-131 | month lengths and starts over all years: contiguous, 28 to 31 days, never two short months in a row |
| `Calendar.NotBeforeExact` | crates/emwin-parser/src/time.rs:62-80 | the choice is the earliest occurrence at or after the reference over all months exactly when one of this or the next month still lies ahead; otherwise it is the latest one before |
| `Calendar.NearestExact` | crates/emwin-parser/src/time.rs:13-30 | the choice is the nearest occurrence over all months, ties going to the earlier, exactly when no skipped occurrence two months back is at least as near |
| `Calendar.NoneNearerExact` | crates/emwin-parser/src/time.rs:13-30 | ties aside: no occurrence of any month is strictly nearer than the choice exactly when the skipped one is not |
| `Calendar.ChosenIsNearest` | crates/emwin-parser/src/time.rs:13-30 | the first closest candidate is the nearest occurrence of the three months, the earlier on a tie |
| `Calendar.ResolveDayTimeNotBefore` | crates/emwin-parser/src/time.rs:62-80 | the method meets that exact condition for every reference and fails only for impossible fields |
| `Calendar.ResolveDayTimeNearest` | crates/emwin-parser/src/time.rs:13-30 | always the nearest of the occurrences in the three months, the earlier on a tie; the nearest over all months exactly under the condition of NearestExact, and beaten by none exactly under that of NoneNearerExact; it fails only for impossible fields |
| `Calendar.EarlyDaysAlwaysExact` | crates/emwin-parser/src/time.rs:13-80 | for days 1 to 28 both conditions always hold |
| `Calendar.MarchFirstSkipsJanuary` | crates/emwin-parser/src/time.rs:107-121 | a reference on which the nearest search is wrong: 1 March asking for day 31 |
| `Calendar.MarchNoonTies` | crates/emwin-parser/src/time.rs:13-30 | at noon of 1 March 2023 the 31st at midnight is as near in January as in March: ties make the two conditions differ |
| `Calendar.JanuaryEndHasNothingAhead` | crates/emwin-parser/src/time.rs:62-80 | a reference on which nothing in reach lies ahead: 31 January after the time of day has passed |
| `Calendar.ResolveClockTimeNearest` | crates/emwin-parser/src/time.rs:32-60 | the nearest instant with that clock time over all days |
| `CivilDays.DayNumberIsDays` | crates/emwin-parser/src/time.rs:123-132 | day numbers are those of the closed formula for days since 1 March of the year 0 |
| `CivilDays.MonthLaw` | crates/emwin-parser/src/time.rs:123-132 | the first of month m lies (153(m - 3) + 2)/5 days after 1 March |
| `CivilDays.YearEndLaw` | crates/emwin-parser/src/time.rs:107-132 | 1 January lies 306 days after 1 March of the year before, and 1 February 31 days after 1 January |
| `CivilDays.FourCenturiesLaw` | crates/emwin-parser/src/time.rs:123-132 | 400 years are 146097 days |
| `CivilDays.LateDays` | crates/emwin-parser/src/time.rs:123-132 | which months have a 30th and a 31st |
| `CivilDays.LeapDay` | crates/emwin-parser/src/time.rs:123-132 | which years have a 29 February |
| `CivilDays.ResolveNotBefore` | crates/emwin-parser/src/time.rs:62-80 | said of dates alone: the first instant at or after the reference that reads as the day, hour and minute asked, if the day is still to come this month or exists in the next, and otherwise the last one before; it fails only for impossible fields |
| `CivilDays.ResolveNearest` | crates/emwin-parser/src/time.rs:13-30 | said of dates alone: an instant that reads as asked, and the closest such one exactly when no day missing last month stands at least as near two months back |
| `CivilDays.ResolveClock` | crates/emwin-parser/src/time.rs:32-60 | the closest of all instants whose clock shows the hour and minute asked |
| `CivilDays.ExpirationInJuly` | crates/emwin-parser/src/time.rs:62-80 | on 30 July at noon a stamp for the 31st at midnight is the next day |
| `Ugc.CollectCandidate` | crates/emwin-parser/src/body/ugc.rs:233-255 | one candidate: continuation lines joined until the expiration, and where reading goes on |
| `Ugc.ExtractCandidates` | crates/emwin-parser/src/body/ugc.rs:212-231 | all candidates of a line list, in order |
| `Ugc.ParseNumericRanges` | crates/emwin-parser/src/body/ugc.rs:469-513 | a numeric segment's ranges with abbreviated ends resolved, or none |
| `Ugc.ParseSegment` | crates/emwin-parser/src/body/ugc.rs:390-417 | a segment's dense codes under its own or the inherited prefix, or failure |
| `Ugc.ExpandUgcBlock` | crates/emwin-parser/src/body/ugc.rs:370-388 | a block's codes in order, carrying the prefix from segment to segment |
| `Ugc.RangesBounded` | crates/emwin-parser/src/body/ugc.rs:469-528 | every range has end at least start and numbers at most 999 |
| `UgcLaws.NewSectionIs` | crates/emwin-parser/src/body/ugc.rs:302-324 | a headline ends in a colon, holds three dots, or begins with a word of four or more capitals, digits, slashes and dashes that starts with a capital, unless the line starts a UGC block |
| `UgcLaws.CollectLaw` | crates/emwin-parser/src/body/ugc.rs:233-261 | a block is its first line and those behind it, without white space, up to the expiration, a blank line, a headline or the end |
| `UgcLaws.CandidatesLaw` | crates/emwin-parser/src/body/ugc.rs:212-231 | blocks are looked for at UGC lines only, and the search goes on behind the lines a block used up |
| `UgcLaws.RangeEnd` | crates/emwin-parser/src/body/ugc.rs:498-513 | a range ends at the number of three digits written, or keeps the hundreds or tens of its start, and never before its start |
| `UgcLaws.ParseBlock` | crates/emwin-parser/src/body/ugc.rs:337-368 | a block with a stamp fails for its codes or for an impossible day, hour or minute, and else expires at the first such date and time ahead, or the last one before |
| `UgcLaws.ParseNoStamp` | crates/emwin-parser/src/body/ugc.rs:326-345 | a text without a stamp at its end is refused as malformed |
| `UgcLanguage.BlockLanguage` | crates/emwin-parser/src/body/ugc.rs:370-528 | a block is accepted exactly when its pieces between commas and dashes spell segments, full or shorthand, and its codes are those the segments stand for |
| `TextLines.UgcStartIs` | crates/emwin-parser/src/body/ugc.rs:263-291 | a UGC line is, behind white space, two capitals, a class letter and three digits with nothing or a delimiter behind them |
| `Ugc.ParseCapture` | crates/emwin-parser/src/body/ugc.rs:337-368 | the three failures exactly as the text causes them; otherwise the codes, and an expiration that is the earliest instant at or after the valid time when one is in reach and else the latest one before it, already past |
| `UgcRoundTrip.SplitJoin` | crates/emwin-parser/src/body/ugc.rs:370-388 | splitting undoes joining for separator-free tokens |
| `UgcRoundTrip.BlockRoundTrip` | crates/emwin-parser/src/body/ugc.rs:370-528 | printing any list of segments, with full or inherited prefixes and full or abbreviated range ends, then expanding gives the dense concatenation of their ranges |
| `UgcRoundTrip.NoEarlyExpiration` | crates/emwin-parser/src/body/ugc.rs:293-300 | no printed segment is mistaken for the expiration |
| `UgcRoundTrip.LineIsNoHeader` | crates/emwin-parser/src/body/ugc.rs:302-324 | no printed line is mistaken for a section header |
| `UgcRoundTrip.CollectWrapped` | crates/emwin-parser/src/body/ugc.rs:233-255 | wrapped lines are collected back into the unwrapped text |
| `UgcRoundTrip.WrappingIsTransparent` | crates/emwin-parser/src/body/ugc.rs:212-255 | wherever lines are wrapped after a dash, the candidate is the same, and reading goes on after it |
| `UgcRoundTrip.UgcTextRoundTrip` | crates/emwin-parser/src/body/ugc.rs:212-528 | print, wrap, collect, split off the expiration, expand: the codes that were printed |
| `UgcSection.FromCodes` | crates/emwin-parser/src/body/ugc.rs:96-147 | each code lands in exactly one bucket under its state, in code order, with states in order and nothing lost or added |
| `UgcSection.PushHolds` | crates/emwin-parser/src/body/ugc.rs:96-147 | adding one code keeps every bucket exact, also those it does not belong to |
| `UgcSection.PaddedIsDecimal` | crates/emwin-parser/src/body/ugc.rs:153-158 | printed numbers have their value, at least three digits and no more zeros in front than that takes |
| `UgcLaws.BucketLaw` | crates/emwin-parser/src/body/ugc.rs:169-188 | which bucket a code belongs to, by its class and by the fifteen states that stand for waters |
| `UgcLaws.ClassLaw` | crates/emwin-parser/src/body/ugc.rs:419-442 | the class letter of a code names its class |
| `UgcLaws.AreaLaw` | crates/emwin-parser/src/body/ugc.rs:149-167 | an area takes name and coordinates from the county catalog for counties and from the zone catalog for zones, under state, class letter and number; fire and marine codes take none |
| `OrderedMap.PutKeepsOrder` | crates/emwin-parser/src/body/ugc.rs:96-147 | a put keeps keys strictly increasing |
| `OrderedMap.LookupPut` | crates/emwin-parser/src/body/ugc.rs:96-147 | a put changes what is found at its key and nowhere else |
| `FilterLaws.StringLessIs` | crates/emwin-db/src/postgres.rs:358-364 | keys are ordered by their first difference, a prefix first |
| `FilterLaws.KeyOrderLaw` | crates/emwin-db/src/postgres.rs:358-364 | incidents are ordered by office, phenomena, significance and number |
| `SlashScan.ScanSlashDelimited` | crates/emwin-parser/src/body/support.rs:27-57 | the accepted records between neighbouring slashes, in order |
| `SlashScan.ScanFromFinds` | crates/emwin-parser/src/body/support.rs:27-57 | a record is found exactly when it is accepted and lies between two neighbouring slashes |
| `SlashScan.PartIsFound` | crates/emwin-parser/src/body/support.rs:27-57 | what is found in a part of a text is found in the whole |
| `SlashScan.RecordsStayInLinesIff` | crates/emwin-parser/src/body/support.rs:27-57 | when every record is accepted, records stay within lines exactly when no line break lies between two slashes |
| `SlashScan.RecordsStayInLines` | crates/emwin-parser/src/body/support.rs:27-57 | without such a break records stay within lines for every acceptor |
| `SlashScan.RecordsOfShapeStayInLinesIff` | crates/emwin-parser/src/body/support.rs:27-57 | for every acceptor, records stay within lines exactly when no accepted text between neighbouring slashes holds a break |
| `SlashScan.VtecRecordsStayInLinesIff` | crates/emwin-parser/src/body/vtec.rs:167-178 | VTEC records stay within lines exactly when no neighbouring slashes enclose a capital, a dot and, further on, a break |
| `SlashScan.BrokenRecordIsFound` | crates/emwin-parser/src/body/support.rs:27-57 | a record broken over two lines that the scanner returns, against its comment |
| `VtecSegments.SplitVtecSegments` | crates/emwin-parser/src/body/vtec_events.rs:126-177 | the splitter emits the VTEC-bearing segments of the state machine over the lines |
| `VtecReading.SplitTexts` | crates/emwin-parser/src/body/vtec_events.rs:126-214 | said of texts alone: a segment runs from the first line that opens one to the first that cuts it - an end mark, or behind a VTEC line a UGC start, or behind VTEC and geography a VTEC line - and comes out joined when it holds a VTEC record |
| `VtecReading.OneReading` | crates/emwin-parser/src/body/vtec_events.rs:126-166 | a text has one such reading |
| `VtecReading.GeographyIs` | crates/emwin-parser/src/body/vtec_events.rs:191-194 | geography is a line that begins, behind white space and in any letter case, with LAT...LON or TIME...MOT...LOC |
| `VtecStrings.SegmentLines` | crates/emwin-parser/src/body/vtec_events.rs:126-177 | each emitted string, split at line breaks, begins with a line that opens a segment and holds no end mark, no UGC start behind a VTEC line and no VTEC line behind VTEC and geography |
| `VtecStrings.NewEventAfterArea` | crates/emwin-parser/src/body/vtec_events.rs:506-511 | a warning with its LAT...LON line and another with its own, under one UGC line, come out as two segments |
| `VtecSegments.SplitIsSegmentation` | crates/emwin-parser/src/body/vtec_events.rs:126-177 | what it emits is cut from maximal runs that start at an opening line and meet no end mark or event boundary |
| `VtecSegments.SegmentationUnique` | crates/emwin-parser/src/body/vtec_events.rs:126-166 | those runs are determined by the lines alone |
| `VtecSegments.OneEventPerSegment` | crates/emwin-parser/src/body/vtec_events.rs:139-160 | after a VTEC line a segment holds no end mark and no UGC start, and no VTEC line once geography has come |
| `VtecSegments.VtecRunIsKept` | crates/emwin-parser/src/body/vtec_events.rs:168-177 | a run with a VTEC line is never dropped: joining lines keeps its records findable |
| `VtecSegments.VtecLinesKept` | crates/emwin-parser/src/body/vtec_events.rs:126-194 | the VTEC lines of the emitted segments, concatenated, are exactly those of the input in order |
| `VtecStrings.RunSplitsBack` | crates/emwin-parser/src/body/vtec_events.rs:168-177 | a joined segment splits at its line breaks into the lines it was joined from |
| `VtecStrings.SegmentsHoldVtecLines` | crates/emwin-parser/src/body/vtec_events.rs:126-194 | on texts alone: splitting the emitted segments at line breaks and keeping the VTEC lines gives exactly the trimmed VTEC lines of the input, each once and in order |
| `IncidentUpdates.PrepareIncidentUpdates` | crates/emwin-db/src/postgres.rs:592-645 | one update per incident with an operational row, in strictly increasing key order, with the earliest begin, the latest end, the last action and the last mapped status; it fails exactly when the timestamp is out of range |
| `IncidentUpdates.MergeSummarizes` | crates/emwin-db/src/postgres.rs:608-632 | merging one more row keeps a summary exact |
| `IncidentUpdates.GroupedSummary` | crates/emwin-db/src/postgres.rs:633-645 | a grouped map yields such a summary list |
| `IncidentTable.Incidents.UpsertIncidents` | crates/emwin-db/src/postgres.rs:1145-1216 | the table after the updates of a product, one upsert after the other |
| `IncidentTable.Incidents.ExpireActiveIncidents` | crates/emwin-db/src/postgres.rs:128-155 | exactly the active rows whose end has passed expire, and the count is the number of rows that changed |
| `IncidentTable.RowsAreIndependent` | crates/emwin-db/src/postgres.rs:1145-1216 | in any run each row evolves by the updates of its own key and the sweeps alone |
| `IncidentTable.RunKeeps` | crates/emwin-db/migrations/0002_incidents.sql:1-20 | no run of upserts and sweeps breaks the status constraints, drops a row, renames a first product or moves a latest timestamp back |
| `IncidentTable.PreparedUpdatesAreLawful` | crates/emwin-db/src/postgres.rs:592-656 | prepared updates never carry a status outside the constraint |
| `IncidentTable.ReplayIsIdempotent` | crates/emwin-db/src/postgres.rs:1145-1216 | a product persisted again right away leaves the table as it was |
| `IncidentTable.SweepsOnlyExpire` | crates/emwin-db/src/postgres.rs:128-155 | sweeps anywhere in a run decide nothing but active or expired: the same run without them has the same rows otherwise |
| `IncidentTable.LastSweepAbsorbs` | crates/emwin-db/src/postgres.rs:128-155 | with known statuses one sweep at the end does all that earlier sweeps did |
| `IncidentTable.SweepTwice` | crates/emwin-db/src/postgres.rs:128-155 | two sweeps are one at the later time |
| `IncidentTable.RowIsLatest` | crates/emwin-db/src/postgres.rs:1145-1216 | with known statuses a row is the last of the latest updates of its key, under the first product, or the old row when all are outdated |
| `IncidentOrder.OrderMattersIff` | crates/emwin-db/src/postgres.rs:1145-1216 | of two updates of an incident at different times the order matters exactly when the later has no status and the earlier would set a different one |
| `IncidentOrder.SameTimeOrderMattersIff` | crates/emwin-db/src/postgres.rs:1191-1192 | of two updates at the same time the order matters exactly when they are written and differ in content or in status |
| `IncidentOrder.OrderIsIrrelevantIff` | crates/emwin-db/src/postgres.rs:1145-1216 | for every run without sweeps, with or without redeliveries: any order of the updates gives the same incident, but for the first product of a new one, exactly when nothing is written or the latest updates agree and either one has a status or none loses one |
| `IncidentOrder.ArrivalOrderIsIrrelevant` | crates/emwin-db/src/postgres.rs:128-155 | two runs with the same updates in any order, with redeliveries and with sweeps anywhere, give the same incident after a last sweep when the latest updates settle the row |
| `IncidentOrder.SweptOrderIsIrrelevantIff` | crates/emwin-db/src/postgres.rs:128-155 | and exactly then: otherwise two orders or two placements of sweeps give different incidents |
| `IncidentOrder.SameSecondDiffers` | crates/emwin-db/src/postgres.rs:1191-1192 | a new incident and its cancellation in the same second: the order decides |
| `IncidentOrder.CorrectionBeforeOpeningIsLost` | crates/emwin-db/src/postgres.rs:1145-1216 | a correction without a status that arrives before the product that opens the incident is lost |
| `IncidentOrder.SweepBeforeCorrectionShows` | crates/emwin-db/src/postgres.rs:128-155 | a sweep before rather than after an extending correction without a status leaves the incident expired |
| `Body.CountsAgree` | crates/emwin-cli/src/live/filter.rs:864-926 | every length the presence filters use equals the summary's facet count |
| `BodyRows.PreparedProduct.CollectBodyRows` | crates/emwin-db/src/postgres.rs:682-790 | adds the rows of either body form and fails exactly when an index does not fit 32 bits |
| `BodyRows.PreparedProduct.CollectUgcRows` | crates/emwin-db/src/postgres.rs:792-867 | adds area rows and search points bucket by bucket with section indexes |
| `BodyRows.PreparedProduct.PushHvtecRow` | crates/emwin-db/src/postgres.rs:883-924 | adds one H-VTEC row, and a search point exactly when it has a location |
| `BodyRows.PreparedProduct.PushTimeMotLocRow` | crates/emwin-db/src/postgres.rs:926-952 | adds one time-motion row and a search point per path point |
| `RowCounts.RowsMatchBody` | crates/emwin-db/src/postgres.rs:682-952 | search points are the location points of the body with the same multiplicity, though in another order, and every row count is the summary's facet count |
| `RowCounts.VtecRowsInOrder` | crates/emwin-db/src/postgres.rs:690-700 | VTEC rows are the body's codes in source order |
| `RowCounts.CountsBoundIndexes` | crates/emwin-db/src/postgres.rs:1521-1525 | once the facet counts fit, only a segment index can still fail to fit |
| `RowCounts.Prepare` | crates/emwin-db/src/postgres.rs:459-589 | a product is prepared exactly when its payload is stored and timestamp, size, counts and segment indexes fit; its rows are those of the body and its incident updates summarize the body's codes |
| `StoredRows.PrepareProduct` | crates/emwin-db/src/postgres.rs:459-645 | preparing succeeds exactly when the payload is stored, the timestamp is representable and all numbers fit 31 or 63 bits; the rows hold the body's parts and the updates speak for its codes |
| `StoredRows.RowsHoldBody` | crates/emwin-db/src/postgres.rs:682-960 | each list of rows holds its parts of the body field by field, one row each, in order, with segment and list index |
| `StoredPoints.PointsOfBody` | crates/emwin-db/src/postgres.rs:792-960 | a search point is stored exactly for each located area, placed gauge and path point, under its source and index |
| `UpdatesOfCodes.UpdatesSpeak` | crates/emwin-db/src/postgres.rs:592-680 | one update per incident with an operational code: the last action, the status set by the last code that sets one, the least begin, the greatest end |
| `IncidentOfProduct.ProductLeaves` | crates/emwin-db/src/postgres.rs:592-680 | what a product leaves in the table for an incident: nothing new when it is stale or brings no status to a new incident, and otherwise its codes' action, times and status, the old status where they set none |
| `IncidentOfProduct.SweepLeaves` | crates/emwin-db/src/postgres.rs:128-155 | a sweep turns exactly the active incidents that ended before now to expired |
| `BodyIndex.SummaryKeys` | crates/emwin-parser/src/projection.rs:312-330 | the summary's codes and states are those of the areas in any section, no more and no less |
| `BodyIndex.CodeKeysAreFilters` | crates/emwin-cli/src/live/filter.rs:398-431 | a code is a summary key exactly when a filter on that code alone, of one of the four kinds, accepts the body |
| `BodyIndex.StateKeysAreFilters` | crates/emwin-cli/src/live/filter.rs:776-792 | a state is a summary key exactly when the filter on that state alone accepts the body |
| `FilterLaws.FilterLaw` | crates/emwin-cli/src/live/filter.rs:398-433 | a filter accepts everything when it asks nothing, and otherwise bodies with sections that satisfy each of its sets by some state or some written code |
| `BodyIndex.StoredCodes` | crates/emwin-db/src/postgres.rs:792-867 | the stored codes are those of the areas, lettered by kind |
| `BodyIndex.LetterIsReadable` | crates/emwin-parser/src/projection.rs:480-493 | the class letter of a code can be read back whatever the state's spelling |
| `BodyIndex.StoredIsSummarizedIff` | crates/emwin-db/src/postgres.rs:802-823 | stored codes and summary codes are the same set exactly when the body has no marine area: marine zones are stored under M and summarized under Z |
| `BodyIndex.MarineZoneDiffers` | crates/emwin-db/src/postgres.rs:802-823 | a body with one marine zone whose stored code is no summary key |
| `Backpressure.BackpressureTracker.RecordSendFailure` | crates/emwin-protocol/src/runtime_support.rs:142-147 | a full queue is counted in both counters, saturating; a closed one is not |
| `Backpressure.EventQueue.Recv` | crates/emwin-protocol/src/runtime_support.rs:86-98 | the consumer takes the oldest message, as the receiving step of a run does |
| `Backpressure.TrySendWithBackpressureWarning` | crates/emwin-protocol/src/runtime_support.rs:154-191 | one offer: the pending report first, then the event, with the counters, the queue and the observer calls after each outcome |
| `Backpressure.HistoryFollowsOffer` | crates/emwin-protocol/src/runtime_support.rs:154-191 | the run history moves exactly as one offer does |
| `Backpressure.RunIsSound` | crates/emwin-protocol/src/runtime_support.rs:105-191 | in every run with any consumer: messages leave first in, first out within the capacity and events keep their order; every attempt is accepted, dropped or lost to a closed queue and every refusal is observed once; the drop total is the number of drops, and drops told plus drops not yet told add up to it |
| `Backpressure.OpenRunBalances` | crates/emwin-protocol/src/runtime_support.rs:105-191 | while the queue is open and no counter is saturated, attempts are deliveries plus the drop total, and told plus untold drops are the drop total |

## Left out

- I/O: HTTP and event streams, the relay, object storage, files, database connections, transactions and rollback, logging, signals and command lines.
- Wall clock and scheduling: times are arguments, sleeps are events of a trace, tasks are steps of a transition system.
- Floating point: coordinates are exact reals, so nothing is claimed about rounding; the haversine distance and WKT text are not modelled (WKT is an opaque string).
- Sub-second times and the year range of chrono: the calendar counts whole seconds over all years.
- Text beyond ASCII: strings stand for byte sequences; the removal of carriage returns and the division into lines come before the model.
- Wildcard: `*` is the only special byte, as in the code; Unicode case folding is not involved.
- PersistProtocol: the semaphore is a natural number that is never closed, as in the code, so the branch for a closed semaphore is not modelled; fairness is not modelled, so that the worker moves when it can is a statement about enabled steps.
- PersistJob: backends answer from finite scripts of outcomes, so a run that has used up its script is seen as cut off; close is an instant of the trace after which every check sees it. The log throttling of the backend health record and the building of request metadata are not modelled.
- PersistService: a write or a commit is one event at its reply, so one under way when `close` comes counts as after it; a sleep is the event of deciding on it, so one under way at `close` goes on, as in the code, and its length is time left to other steps.
- Geo.PointInPolygon: the tolerance and the intercept are computed over exact reals.
- LatLonTokens: number syntax is an optional minus and digits, because normalization lets nothing else through; finding the LAT...LON lines of a bulletin is not modelled.
- VtecStrings: input lines hold no line break, as the lines of a text do not.
- VtecSegments: which records parse as VTEC and which lines hold H-VTEC are parameters; parsing VTEC, H-VTEC, time-motion and wind or hail records is not modelled, nor is the quality control of segments.
- UgcSection: the generated catalogs are functions from code to entry.
- IncidentTable: the column `last_updated_at` is not modelled, and a statement takes effect at once; concurrent transactions are not modelled.
- BodyRows: the inner loops over polygons and wind or hail entries that the code writes out twice are one method each; on an error the rows collected so far are discarded by the caller and are left unspecified.
- RowCounts.Prepare: the product row's plain copies of metadata fields and the JSON detail are not modelled, nor is a label that fails to serialize: the labelled values are unit variants, which always serialize to strings.
- BodyIndex: summary keys are sets; the code also sorts them. Filters on other fields, on normalization of filter input and on distance are not modelled.
- Backpressure: the queue is a list with a capacity and a closed mark; the counters of a receiver other than the two drop counters are not modelled, nor is the start and stop of receivers.
- Headers, product specialization, artifact parsers, QBT decoding and the relay: library behaviour, data, or members that would only be easy.
