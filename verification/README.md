# FlightSite verified model

This project models the stateful and algorithmic core of FlightSite's Python backend in
Dafny and proves what that code relies on but never checks. It has no inputs and runs
nothing; `dafny verify dfyconfig.toml` checks every claim below.

| files | what they model |
|---|---|
| `Geometry.dfy`, `Ring.dfy`, `Area.dfy`, `RingSymmetry.dfy` | drawn alert areas: the segment test, the ring validator (a polygon exterior ring in the sense of section 3.1.6 of RFC 7946), the banded point-in-polygon test |
| `Rollup.dfy`, `RollupProtocol.dfy`, `RollupHistories.dfy`, `AnalyticsService.dfy` | local days, the daily fold, and the protocol that keeps stored day rows equal to the fold through failures, midnights and restarts |
| `AlertEngine.dfy`, `AlertSightings.dfy`, `AlertRules.dfy` | the once-per-sighting alert engine over its uniquely keyed table; which sighting a match is recorded under; glob patterns and evaluation order |
| `SelfAlerts.dfy`, `HealthEpisodes.dfy` | the receiver's self alerts and the decoder's debounced health |
| `ActivityFeed.dfy`, `ActivityRuns.dfy`, `ActivityService.dfy` | the activity feed: scan, merge, conflict-ignoring insert, two-transaction passes, restored queues |
| `AirportIndex.dfy`, `PhaseLatch.dfy`, `AirportService.dfy` | the nearest-airport grid and the phase latch with its grace window |
| `Hourly.dfy` | the hour-by-hour view of a day and new airframes by day |
| `Wrappers.dfy`, `Numbers.dfy`, `Sequences.dfy` | a value that may be absent; real numbers; order and repetition in sequences |

Code that computes is modelled by functions. Objects that change in place are classes whose
methods are proved, field by field, to take the steps of a state machine; the properties of
whole runs are lemmas about that machine. Loops are loops, with the invariants that tie them
to the functions the lemmas are about.

Assumptions, taken from the interfaces the code is written against: a table write is one
atomic transaction; sighting ids are committed in increasing order and an airframe's row is
created with its first sighting; dedupe keys of different producers differ, as they begin with
the event's type; the clock does not go back; a day's facts change only
together with a lifecycle notification while the analytics service runs or, while it is still
starting, before its repair reads the day; a zone is a strictly
increasing sequence of local midnights. Coordinates, rates and distances are real numbers.
What the outside world decides (which await fails, whether a process dies, what a rule
matches, what a distance is) is a parameter, so each theorem is about every choice of it.

## What the code does that its documentation does not say

Each of these is proved, with the exact condition or a run that shows it.

- After a crash, no boot rebuilds a stale day at or below the watermark that is at least two
  days old (`RollupHistories.StaleDaySurvivesCrash`, `OverlookedStaysStale`).
- A flush that closes days writes yesterday as the watermark without looking at the stored
  one; after a failed or truncated repair or a capped rollover it steps over days that have
  no final row (`RollupProtocol.WatermarkAdvanceExact` gives the condition,
  `RollupHistories.FailedRepairThenMidnight` a run).
- A shutdown that cancels a flush does not put its days back, so a clean shutdown can leave a
  day stale (`RollupHistories.StoppedPassLoses`, `ShutdownLeavesDayStale`).
- The analytics service is notified of nothing until its startup repair has ended, so a sighting
  committed after the repair read its day leaves the day stale and unqueued
  (`RollupHistories.RepairLoses` says exactly which days, `RepairLosesDay` gives a run).
- An alert match whose write fails is carried into the aircraft's next sighting, when the engine
  does not see the aircraft leave, and recorded there (`AlertSightings.CarriedToTheNextSighting`;
  `ForeignExactly` says when). What has fired is forgotten when an aircraft is removed; only the
  table then prevents a second row.
- An alert row whose commit succeeds but whose reply is lost is never announced, and those are
  the only ones (`Alerts.UnannouncedExactly`, `LostReplyReaches`).
- A self alert restarted from a stored document that is not the one in force can be followed
  by two raises in a row, or by a restore with a foreign start (`SelfAlerts.StepIsLostExactly`,
  `LostStepShows`). Switching a raised one off ends it silently, as documented; the next
  outage is then a second raise in a row (`SwitchedOffWhileRaised`). A write of the document that
  commits and then raises can leave the wrong document stored (`StoredIsInForce`), and a restart
  then revives a restored episode (`UnheardWriteRevives`).
- An activity event recorded by a pass that then does not complete is never published
  (`ActivityRuns.NeverToldExactly`), and a pass cancelled by `stop` loses what it had drained
  (`CancellingDropsTheDrained`); the documentation says every failure only makes the feed
  later.
- Inside the tolerance of an edge but outside the bounding box, the box decides
  (`Area.BoxRejectionExact`).

## Model

| member | source | states |
|---|---|---|
| `Geometry.SegmentsIntersectExact` | backend/src/flightsite/alerts/area.py:88-103 | the orientation-and-box test is true exactly when the two closed segments have a common point, for every pair of segments, degenerate ones included |
| `Geometry.FoldsBackExact` | backend/src/flightsite/alerts/area.py:151-160 | the fold-back test on two edges leaving one vertex fires exactly when they share a second point |
| `Ring.CheckEdges` | backend/src/flightsite/alerts/area.py:151-169 | the nested checking loops find no fault exactly when every row of edge pairs is clear, and otherwise name the first fault in the order the source checks |
| `Ring.NormalizeRing` | backend/src/flightsite/alerts/area.py:122-175 | a drawing is accepted exactly when its open ring meets every requirement, the result is that ring closed, and a rejection names the one first fault |
| `Ring.FaultIsUnique` | backend/src/flightsite/alerts/area.py:122-175 | a ring has at most one first fault, and a ring with one is not acceptable: the error is determined by the drawing |
| `Ring.AcceptedExactlySimplePolygons` | backend/src/flightsite/alerts/area.py:151-169 | the pairwise checks decide simplicity: rows are clear exactly when any two edges meet only at a shared vertex |
| `Ring.AcceptableMeans` | backend/src/flightsite/alerts/area.py:122-175 | what is accepted, said outright: three to sixty-four distinct vertices in range, no edge wider than half the world, a simple polygon, and triangles that do not cancel |
| `Ring.AreaIsTheFan` | backend/src/flightsite/alerts/area.py:173-174 | the area summed edge by edge is that of the triangles fanning out from the first vertex |
| `Ring.NormalizeTwice` | backend/src/flightsite/alerts/area.py:122-175 | validating an accepted ring again accepts it unchanged |
| `Ring.AcceptableHasHeight` | backend/src/flightsite/alerts/area.py:170-175 | an accepted ring has two vertices of different latitude, so the band height is not zero |
| `RingSymmetry.AcceptanceIgnoresStart` | backend/src/flightsite/alerts/area.py:122-175 | a drawing is accepted from every starting vertex or from none |
| `RingSymmetry.AcceptanceIgnoresDirection` | backend/src/flightsite/alerts/area.py:122-175 | a drawing is accepted in both directions or in neither |
| `Area.FillBands` | backend/src/flightsite/alerts/area.py:215-246 | the band lists filled edge by edge hold, for each band and in order, exactly the edges whose latitude span reaches the band |
| `Area.FromRing` | backend/src/flightsite/alerts/area.py:215-246 | compiling yields the box, the positive band height and the band lists of the ring |
| `Area.Contains` | backend/src/flightsite/alerts/area.py:252-275 | the toggling loop over one band returns the parity of that band's crossings, or true on touching an edge or a vertex, and false outside the box |
| `Area.BandedEqualsUnbanded` | backend/src/flightsite/alerts/area.py:252-275 | for every ring that compiles and every point, testing only the point's band gives the answer of testing every edge |
| `Area.EdgeTestsExact` | backend/src/flightsite/alerts/area.py:266-274 | the test of one edge returns early exactly when, at the point's latitude, a point of the edge is within the tolerance, or the edge is horizontal and holds the point; it toggles exactly when a point of the edge there lies further east |
| `Area.AllEdgesMeans` | backend/src/flightsite/alerts/area.py:252-275 | the unbanded answer over the points of the edges: in the vertices' box, and a vertex, or settled by an edge, or with an odd number of edges to the east |
| `Area.BandsFillTheRing` | backend/src/flightsite/alerts/area.py:215-246 | one band a vertex, at most sixteen, together as high as the ring |
| `Area.BandOfMonotone` | backend/src/flightsite/alerts/area.py:215-246 | the band index is monotone in latitude, which is what makes skipping the other bands sound |
| `Area.ClosedRingStraddlesEvenly` | backend/src/flightsite/alerts/area.py:266-275 | a closed ring has an even number of edges straddling any horizontal line |
| `Area.OutsideTheBox` | backend/src/flightsite/alerts/area.py:252-275 | outside the box the unboxed ray cast can be true only through the tolerance of an edge |
| `Area.BoxRejectionExact` | backend/src/flightsite/alerts/area.py:262-263 | the box rejection changes the unboxed answer exactly for points outside the box that some edge reaches within the tolerance |
| `Area.FarOutsideIsRejectedAnyway` | backend/src/flightsite/alerts/area.py:262-263 | more than the tolerance outside the box, the unboxed ray cast also says outside |
| `Area.BoxRejectionDiffersWithinTolerance` | backend/src/flightsite/alerts/area.py:262-275 | a triangle and a point just west of it for which the box rejects and the unboxed ray cast accepts |
| `Area.BoundaryIsInside` | backend/src/flightsite/alerts/area.py:252-275 | every point of every edge of an accepted ring, vertices included, is inside |
| `Area.RotationKeepsContainment` | backend/src/flightsite/alerts/area.py:252-275 | the starting vertex of the ring does not change any answer |
| `Area.ReversalKeepsContainment` | backend/src/flightsite/alerts/area.py:252-275 | the direction the ring is drawn in does not change any answer |
| `Area.RayDirectionIrrelevant` | backend/src/flightsite/alerts/area.py:266-275 | away from the edges a ray cast the other way gives the same answer |
| `Area.InsideDrawing` | backend/src/flightsite/alerts/area.py:122-275 | validating, compiling and testing a drawing: a rejected one gets the validator's first fault, and an accepted one contains a point exactly when its vertices' box does and the point is a vertex, is settled by an edge, or has an odd number of edges to its east |
| `Days.OnDay` | backend/src/flightsite/analytics/bucketing.py:153-160 | an instant falls on a local day exactly when it lies between that day's bounds |
| `Days.EnumeratedDaysTile` | backend/src/flightsite/analytics/bucketing.py:153-177 | a range is enumerated exactly when it is short enough, then each of its days and no other, once, in order, and their bounds tile the instants from the first midnight to the last |
| `Rollup.BusiestHour` | backend/src/flightsite/analytics/rollup.py:68-81 | the earliest local hour with the most sightings, or none without sightings |
| `Rollup.FoldDay` | backend/src/flightsite/analytics/rollup.py:84-154 | the accumulated row satisfies the declarative description of a day's fold, every count by its own predicate |
| `Rollup.RowSays` | backend/src/flightsite/analytics/rollup.py:84-154 | what the row says, sighting by sighting: every count as the size of a set of sightings or airframes, with the airframes first seen that day, and the same for each type and operator |
| `Rollup.BusiestHourSays` | backend/src/flightsite/analytics/rollup.py:68-81 | the busiest hour of a closed day is the earliest in which most of its sightings start |
| `Rollup.FactsOnTheDay` | backend/src/flightsite/analytics/backfill.py:147-160 | the sightings a day is folded from are those of the table that started on it, each as often as it is there |
| `Rollup.TallyGroups` | backend/src/flightsite/analytics/rollup.py:171-180 | the two keyed tallies zip into one count per key: sightings and distinct airframes |
| `Rollup.FoldOfPermutation` | backend/src/flightsite/analytics/rollup.py:84-154 | the description determines the row, and the order of the sightings does not enter it |
| `Rollup.DaysTileTheWindow` | backend/src/flightsite/analytics/bucketing.py:153-177 | summing any counted figure over consecutive days counts each sighting of the tiled window exactly once |
| `RollupProtocol.OrdinaryRuns` | backend/src/flightsite/analytics/service.py:337-487 | over every run of a new install with untruncated completed repairs, rollovers within the window and no shutdown in the middle of a flush, through crashes, shutdowns, failed flushes, commits in the middle of a flush, and commits during a repair to days it has not read: until it shuts down every stale day from the first planned one on is queued, and every day from the history floor to the watermark has a row built after it closed |
| `RollupProtocol.StepKeeps` | backend/src/flightsite/analytics/service.py:337-487 | each step of the protocol keeps the invariant behind that |
| `RollupProtocol.CompletedPass` | backend/src/flightsite/analytics/backfill.py:147-172 | an uninterrupted pass leaves stale exactly the stale days it did not take and makes final exactly the closed days it took |
| `RollupProtocol.CompletedRepair` | backend/src/flightsite/analytics/backfill.py:178-262 | a repair that completes leaves stale exactly the stale days outside its plan, always has a closed day, and writes the lesser of its ceiling and yesterday |
| `RollupHistories.BootsCatchUp` | backend/src/flightsite/analytics/backfill.py:178-262 | over any sequence of boots of the protocol, on any days, with commits in between and the first one without a watermark, each repair advances the watermark by max_days or to its yesterday, whichever is less, and every day from the first one to the watermark then has a row built after it closed |
| `RollupHistories.ReachedIsLeast` | backend/src/flightsite/analytics/backfill.py:199-205 | how far that is in closed form: the first day plus max_days per boot, or some boot's yesterday plus max_days per boot since, whichever is least |
| `RollupHistories.BootsOnOneDay` | backend/src/flightsite/analytics/backfill.py:199-205 | while the day stays the same, the boots stop at yesterday |
| `RollupHistories.CaughtUp` | backend/src/flightsite/analytics/service.py:398-467 | along every ordinary run, a flush that completes while nothing is committed leaves no day from the first planned one on stale |
| `RollupHistories.FlushLeaves` | backend/src/flightsite/analytics/service.py:398-467 | from any state, such a flush leaves stale exactly the stale days it did not take |
| `RollupHistories.StoppedPassLoses` | backend/src/flightsite/analytics/service.py:298-316 | a shutdown that cancels a flush leaves stale and unqueued exactly the stale days the flush had still to do and nobody notified again |
| `RollupHistories.RepairLoses` | backend/src/flightsite/analytics/service.py:268-296 | whatever is committed while the startup repair runs, when it ends the days it took that are stale are exactly those whose sightings then have another row than the sightings it read, the other days are as stale as their rows before it, and nothing has been queued |
| `RollupHistories.RepairLosesDay` | backend/src/flightsite/analytics/service.py:268-296 | a run in which a completed repair leaves a day stale that no continuation rebuilds without a commit or notification of its own |
| `RollupHistories.ShutdownLeaves` | backend/src/flightsite/analytics/service.py:298-316 | after the last flush completes, or finds nothing to take, exactly those of them it did not take stay stale, so nothing does when nothing was cancelled |
| `RollupHistories.ShutdownLeavesDayStale` | backend/src/flightsite/analytics/service.py:298-316 | a run in which a clean shutdown leaves a day stale |
| `RollupProtocol.WatermarkAdvanceExact` | backend/src/flightsite/analytics/service.py:440-453 | a flush that closes days always moves the watermark to yesterday; the watermark is then right if and only if every earlier day of the history was final or queued when the flush began |
| `RollupProtocol.FlushTakesExactly` | backend/src/flightsite/analytics/service.py:415-487 | a flush takes what was queued, each day that ended since the last one and is at most thirty-one days old, and today if there is anything else; it knows exactly when that left a day out |
| `RollupProtocol.CappedFlushKeepsWatermark` | backend/src/flightsite/analytics/service.py:440-453 | a flush that comes more than thirty-one days after the last leaves the watermark where it was |
| `RollupHistories.FailedRepairReaches` | backend/src/flightsite/analytics/service.py:387-396 | a failed startup repair followed by a day passing leaves a history unbuilt |
| `RollupHistories.FailedRepairThenMidnight` | backend/src/flightsite/analytics/service.py:440-453 | from there the next midnight's flush moves the watermark over days that have no final row |
| `RollupHistories.StaleDaySurvivesCrash` | backend/src/flightsite/analytics/backfill.py:178-212 | an ordinary run that ends with a stale day below the watermark, which stays stale in every continuation that commits nothing for the day and notifies nothing about it |
| `RollupHistories.OverlookedStaysStale` | backend/src/flightsite/analytics/backfill.py:178-212 | any stale day at or below the watermark, at least two days old and not queued, stays stale through every flush, boot and shutdown in which nothing is committed for it or notified about it |
| `Analytics.SortedDays` | backend/src/flightsite/analytics/service.py:421-430 | the days of a set in ascending order, each once |
| `Analytics.AnalyticsService.RecordLifecycle` | backend/src/flightsite/analytics/service.py:337-353 | the day each notified sighting started on is queued, and nothing else; the whole new state is the protocol's commit of the same notifications |
| `Analytics.AnalyticsService.RebuildDays` | backend/src/flightsite/analytics/backfill.py:162-172 | one row replaced per day, in order, up to the first failure: a run of read and write steps of the protocol |
| `Analytics.AnalyticsService.Flush` | backend/src/flightsite/analytics/service.py:398-467 | a flush whose awaits return, raise (before or after the watermark is written) or are cancelled is a run of the protocol; an exception makes the drained days dirty again, a cancellation does not |
| `Analytics.AnalyticsService.Stop` | backend/src/flightsite/analytics/service.py:298-316 | unsubscribing, one last flush however it ends, and the end of the process are a run of the protocol |
| `Analytics.AnalyticsService.Start` | backend/src/flightsite/analytics/service.py:268-296 | a start, with its repair succeeding or failing anywhere, is a run of the protocol |
| `Alerts.OncePerSighting` | backend/src/flightsite/alerts/engine.py:591-782 | over any run with failed writes, lost replies, overflows, removals, sighting changes and restarts: every fired key has a row for the current sighting, and no row is announced twice or unless stored |
| `Alerts.CommittedCycleRecords` | backend/src/flightsite/alerts/engine.py:704-782 | after a cycle whose write commits, every evaluated match has its row for the sighting it matched in, or waits only for that sighting's ids |
| `Alerts.CollectWants` | backend/src/flightsite/alerts/engine.py:591-624 | a cycle evaluates exactly the aircraft that changed and were not removed afterwards, and those not removed that wait for metadata or for a match to be written |
| `Alerts.NoticedIsRecorded` | backend/src/flightsite/alerts/engine.py:591-782 | so after a cycle whose write commits, every match of a live aircraft that changed, or of any after an overflow, is recorded for its sighting or waits for the sighting's ids |
| `Alerts.RemembersExactly` | backend/src/flightsite/alerts/engine.py:591-676 | which aircraft are remembered after a cycle: the live ones of those evaluated, and of the others those remembered before and not removed; after an overflow the live set |
| `Alerts.UnresolvedIsLookedAtAgain` | backend/src/flightsite/alerts/engine.py:618-624 | an aircraft evaluated before its metadata resolved is evaluated again in the next cycle, changed or not |
| `Alerts.FailedWriteKeepsPending` | backend/src/flightsite/alerts/engine.py:739-754 | a write that fails, or whose reply is lost, leaves pending and fired as the evaluation left them |
| `Alerts.RestartReproposesNothing` | backend/src/flightsite/alerts/engine.py:678-702 | after a restart nothing recorded for a sighting that is still open is proposed again |
| `Alerts.NothingOwedIsDropped` | backend/src/flightsite/alerts/engine.py:642-782 | whatever happens to the write, a pending match leaves memory only by being recorded or by a removal of its aircraft |
| `Alerts.CreatedRows` | backend/src/flightsite/alerts/repository.py:303-338 | the rows a committed cycle stores are exactly the unrecorded keys pending for live aircraft whose ids are known |
| `Alerts.RowsCarryTheirMatch` | backend/src/flightsite/alerts/repository.py:303-338 | a row is stored with the severity and reason of a match of a live aircraft in that sighting |
| `Alerts.AnnouncedBySeverity` | backend/src/flightsite/alerts/engine.py:742-776 | a cycle announces the rows it created highest severity first |
| `Alerts.BySeveritySpec` | backend/src/flightsite/alerts/engine.py:742-742 | sorting the batch is the stable sort by severity: the same matches as often, never a lower severity before a higher, and each severity's matches in the order they came in |
| `Alerts.EveryRowIsAnnounced` | backend/src/flightsite/alerts/engine.py:755-782 | the rows announced are the rows stored if and only if no commit whose reply was lost created a row |
| `Alerts.UnannouncedExactly` | backend/src/flightsite/alerts/engine.py:739-782 | over any run the stored rows that were never announced are exactly those created by commits whose reply was lost |
| `Alerts.LostReplyReaches` | backend/src/flightsite/alerts/engine.py:739-754 | a run of one cycle that stores a row and never announces it |
| `Alerts.LostReplyStaysSilent` | backend/src/flightsite/alerts/engine.py:732-754 | a row whose creation was not announced is never announced by any later run |
| `AlertSightings.CarriedToTheNextSighting` | backend/src/flightsite/alerts/engine.py:678-702 | a run in which a match made in one known sighting, whose write is rolled back, is recorded and announced under the aircraft's next sighting, in which it never matched, and never under its own |
| `AlertSightings.ForeignStep` | backend/src/flightsite/alerts/engine.py:642-738 | the rows a cycle stores for sightings their rule has not matched in are exactly the unrecorded ones of matches pending since the aircraft was in another sighting |
| `AlertSightings.ForeignExactly` | backend/src/flightsite/alerts/engine.py:642-738 | over any run, every row is stored for a sighting its rule matched in if and only if no committing cycle finds pending, and not yet recorded, a match the aircraft carried over from another sighting |
| `AlertSightings.SettledBeforeMoving` | backend/src/flightsite/alerts/engine.py:642-738 | in particular when no aircraft changes sightings with a match pending |
| `AlertSightings.WasProposed` | backend/src/flightsite/alerts/engine.py:642-702 | whatever is pending was proposed in some cycle that evaluated the aircraft and has been pending ever since |
| `Alerts.StepKeeps` | backend/src/flightsite/alerts/engine.py:591-782 | each cycle and restart keeps the invariant behind all of these, and loses no row and no announcement |
| `Engine.AlertEngine.Collect` | backend/src/flightsite/alerts/engine.py:591-624 | the event loop computes the wanted aircraft and the states left after removals, in order |
| `Engine.AlertEngine.Resync` | backend/src/flightsite/alerts/engine.py:626-640 | after an overflow everything live is wanted and states of gone aircraft are dropped |
| `Engine.AlertEngine.Evaluate` | backend/src/flightsite/alerts/engine.py:642-676 | states and owed matches after evaluating each wanted aircraft in order |
| `Engine.AlertEngine.RecordMatches` | backend/src/flightsite/alerts/repository.py:303-338 | the insert loop leaves the table and the created flags of a conflict-ignoring insert in order |
| `Engine.AlertEngine.Record` | backend/src/flightsite/alerts/engine.py:704-782 | the write leg: no batch, a rollback, a lost reply or a commit, each with its whole effect on memory, table and announcements |
| `Engine.AlertEngine.Remember` | backend/src/flightsite/alerts/engine.py:755-776 | after a commit every attempted match is settled in memory and the created ones are announced |
| `Engine.AlertEngine.Cycle` | backend/src/flightsite/alerts/engine.py:569-589 | one cycle of the object is one step of the state machine |
| `Engine.AlertEngine.Restart` | backend/src/flightsite/alerts/engine.py:456-474 | a restart remembers nothing but the open sightings' recorded matches |
| `SelfAlerts.HysteresisBand` | backend/src/flightsite/alerts/self_alerts.py:313-363 | for every share the settings allow there are rates between raising and recovering that continue neither run |
| `SelfAlerts.DecoderJudgedExactly` | backend/src/flightsite/alerts/self_alerts.py:292-310 | only a decoder that is down counts as an outage and only a connected one as recovered |
| `SelfAlerts.RateJudgedExactly` | backend/src/flightsite/alerts/self_alerts.py:321-363 | the rates that count as an outage and as recovered, with the decoder connected and a baseline ready; all others count as neither |
| `SelfAlerts.SampleJudgedExactly` | backend/src/flightsite/alerts/self_alerts.py:582-625 | each condition is judged by its own settings, or forgets when it is off, and the rate only while the decoder is connected |
| `SelfAlerts.RaiseIsJustified` | backend/src/flightsite/alerts/self_alerts.py:239-255 | over any history a raise ends an unbroken run of bad readings that starts at the announced start and lasts at least the minimum |
| `SelfAlerts.RestoreIsJustified` | backend/src/flightsite/alerts/self_alerts.py:257-276 | a restore ends an unbroken run of recovered readings lasting at least the hold, and names the start of the episode it ends |
| `SelfAlerts.RaisedExactly` | backend/src/flightsite/alerts/self_alerts.py:239-255 | over any history a bad reading raises if and only if nothing is raised and the spell of bad readings it ends is at least the threshold long |
| `SelfAlerts.RestoredExactly` | backend/src/flightsite/alerts/self_alerts.py:257-276 | and a recovered one restores if and only if something is raised and the spell of recovered readings is at least the hold long |
| `SelfAlerts.EpisodesAlternate` | backend/src/flightsite/alerts/self_alerts.py:544-625 | over any orderly run, restarts included, raises and restores alternate with matching starts and successive episodes start strictly later |
| `SelfAlerts.StepIsLostExactly` | backend/src/flightsite/alerts/self_alerts.py:222-232 | the agreement between what is announced and what is in force is kept by an event if and only if it neither switches a raised condition off nor restarts from a stored episode that is not the one in force |
| `SelfAlerts.LostStepShows` | backend/src/flightsite/alerts/self_alerts.py:239-276 | once what is in force is not what was announced, raised at all or since when, some readings announce the same kind twice in a row or a restore that names another start than its raise |
| `SelfAlerts.SwitchedOffWhileRaised` | backend/src/flightsite/alerts/self_alerts.py:228-232 | a run of samples in which a condition switched off while raised gives two raises in a row |
| `SelfAlerts.StoredIsInForce` | backend/src/flightsite/alerts/self_alerts.py:641-660 | after a sample the stored document is the one in force exactly when it was already, or what is remembered called for a write and the write committed; a restart is then orderly |
| `SelfAlerts.RememberedIsStored` | backend/src/flightsite/alerts/self_alerts.py:544-660 | what the process remembers of the document parts from what is stored exactly by a changing write that commits unheard or a start that cannot read a document that is there |
| `SelfAlerts.UnheardWriteRevives` | backend/src/flightsite/alerts/self_alerts.py:641-660 | a run in which writes that commit and then raise make a restart resume an episode that was announced as restored |
| `SelfAlerts.ConditionObject.Bad` | backend/src/flightsite/alerts/self_alerts.py:239-255 | the whole new state and the episode raised, if any |
| `SelfAlerts.ConditionObject.Good` | backend/src/flightsite/alerts/self_alerts.py:257-276 | the whole new state and the episode restored, if any |
| `SelfAlerts.ConditionObject.ObserveHealth` | backend/src/flightsite/alerts/self_alerts.py:292-310 | judging the decoder's health, state and settings give the whole new state and the episode |
| `SelfAlerts.ConditionObject.ObserveRate` | backend/src/flightsite/alerts/self_alerts.py:321-363 | judging the message rate against the baseline, likewise |
| `SelfAlerts.SelfAlertMonitor.Start` | backend/src/flightsite/alerts/self_alerts.py:544-580 | both conditions resume what can be read of the stored document, which is remembered as it stands, legible or not |
| `SelfAlerts.SelfAlertMonitor.Observe` | backend/src/flightsite/alerts/self_alerts.py:582-625 | one sample, judged by the health, rate, baseline and settings it comes with, is one step of the monitor, with its saved document |
| `HealthEpisodes.HealthWatch.ObserveHealth` | backend/src/flightsite/activity/service.py:643-684 | one reading moves the debounce fields and the episodes as the history function says |
| `HealthEpisodes.EpisodesTelescope` | backend/src/flightsite/activity/service.py:643-684 | outages and recoveries alternate, and the reported previous durations are non-negative and sum to the last start minus the first opinion's time |
| `HealthEpisodes.EpisodeIsDebounced` | backend/src/flightsite/activity/service.py:643-684 | the reading that announces an episode ends a stretch at least the debounce long, from the episode's start, in which every reading with an opinion agrees with it |
| `HealthEpisodes.AnnouncedExactly` | backend/src/flightsite/activity/service.py:643-684 | over any history a reading announces an outage if and only if it reads down, the last stretch without a connected reading began at least the debounce ago, and listeners take the decoder to be connected; a recovery likewise |
| `HealthEpisodes.FirstOpinionIsSilent` | backend/src/flightsite/activity/service.py:643-684 | the state found at boot, however long it lasts, is announced by no episode |
| `Activity.Merge` | backend/src/flightsite/activity/producers.py:657-681 | the loops with two lists and two seen-sets keep the first event of each key and each milestone once |
| `Activity.FirstOfEachKeepsFirsts` | backend/src/flightsite/activity/producers.py:657-681 | merging keeps an event exactly when it is the first of its key |
| `Activity.FirstOfEachComposes` | backend/src/flightsite/activity/producers.py:657-681 | merging in two stages is merging once |
| `Activity.ProduceFirstEver` | backend/src/flightsite/activity/producers.py:84-144 | the producer's loop computes the batch that Activity.ProposesExactly describes |
| `Activity.FirstEverSpec` | backend/src/flightsite/activity/producers.py:84-144 | the keys it proposes, as sets: one per airframe heard for the first time, and the milestone with its key for each whose rank equals a threshold |
| `Activity.ProposesExactly` | backend/src/flightsite/activity/producers.py:84-144 | exactly the events and milestones it proposes: for each first sighting its airframe's event, and the milestone with its event when the airframes heard by then are a threshold number, dated at the sighting's start |
| `Activity.RankIsPlace` | backend/src/flightsite/activity/repository.py:313-334 | the rank counted by row id is the number of airframes heard by the time of the first sighting |
| `Activity.FirstHeardMeans` | backend/src/flightsite/activity/producers.py:84-144 | a sighting is its airframe's first exactly when none before it is of the airframe |
| `Activity.ScanLeavesNoGap` | backend/src/flightsite/activity/repository.py:197-208 | a scan limited to any number of ids names exactly the sightings above the old watermark and up to the new one |
| `Activity.GrowthKeepsRank` | backend/src/flightsite/activity/repository.py:313-334 | sightings committed later never change an airframe's rank, so the equality test on ranks misses no threshold |
| `ActivityRuns.Record` | backend/src/flightsite/activity/repository.py:155-177 | the insert loop returns the table and exactly the created events of a conflict-ignoring insert |
| `ActivityRuns.CreatedKeys` | backend/src/flightsite/activity/repository.py:155-183 | the events returned for publication carry exactly the keys that were new |
| `ActivityRuns.MergingIsInvisible` | backend/src/flightsite/activity/producers.py:657-681 | merging a batch before inserting it changes no row of the table |
| `ActivityRuns.DetectedKeys` | backend/src/flightsite/activity/service.py:583-614 | what a pass proposes about airframes is exactly what its fresh sightings are owed, and it proposes every event its notes carry |
| `ActivityRuns.StepKeeps` | backend/src/flightsite/activity/service.py:423-614 | each step keeps the whole invariant: coverage up to the watermark, nothing unearned, keys stored once, published at most once |
| `ActivityRuns.ExactlyOnce` | backend/src/flightsite/activity/service.py:480-613 | over any run from a new install, whatever is batched, raised, cancelled or killed, before or after either transaction commits: an airframe first heard after the initial watermark and up to the stored one has exactly one stored first-ever event, and its milestone if it made the airframes heard a threshold number; an airframe first heard earlier has none |
| `ActivityRuns.MilestonesAreEarned` | backend/src/flightsite/activity/model.py:155-164 | every unique-aircraft milestone is for a threshold, and an airframe first heard after the initial watermark made the airframes heard that many |
| `ActivityRuns.StartsAtThePresent` | backend/src/flightsite/activity/service.py:480-497 | an airframe heard before the first start is never announced, whatever follows; one first heard later and up to the stored watermark is, once |
| `ActivityRuns.EventsTellTheFirst` | backend/src/flightsite/activity/service.py:583-613 | in any run a stored event about an airframe is one its first sighting gives rise to, dated at that sighting's start |
| `ActivityRuns.QuietPassKeepsWatermark` | backend/src/flightsite/activity/service.py:530-548 | a pass that scans nothing writes no watermark |
| `ActivityRuns.PublishedAtMostOnce` | backend/src/flightsite/activity/service.py:404-421 | in any run each key is published at most once, and only when it is stored exactly once |
| `ActivityRuns.NeverToldExactly` | backend/src/flightsite/activity/service.py:546-571 | the stored events listeners were never handed are exactly those recorded by passes that then did not complete, notes-only passes cut at their commit included, for ever |
| `ActivityRuns.AnnouncementLostReaches` | backend/src/flightsite/activity/service.py:423-571 | a run of an empty install that stores the first airframe's event and, whatever follows, never publishes it |
| `ActivityRuns.AnnouncementLost` | backend/src/flightsite/activity/service.py:546-571 | a new airframe whose pass records it and cannot write the watermark is stored and never published, whatever follows |
| `ActivityRuns.ListsLoseNothing` | backend/src/flightsite/activity/service.py:513-562 | while the process lives and no pass is cancelled, what was consumed, is in flight and is pending is everything reported: the five lists in order, and the closed sightings |
| `ActivityRuns.CancellingDropsTheDrained` | backend/src/flightsite/activity/service.py:449-466 | a cancelled pass keeps the five lists if and only if it had drained no notes, and the closed sightings if and only if each one drained was consumed before or reported again |
| `ActivityRuns.PassesCatchUp` | backend/src/flightsite/activity/service.py:530-548 | passes that complete while nothing is committed each cover the scan limit, and bring the watermark to the newest sighting |
| `Feed.ActivityService.RecordLifecycle` | backend/src/flightsite/activity/service.py:326-338 | the closed ids join the pending set and nothing else changes |
| `Feed.ActivityService.RecordAlertMatches` | backend/src/flightsite/activity/service.py:361-378 | the matches join the end of the pending list and nothing else changes |
| `Feed.ActivityService.InitialWatermark` | backend/src/flightsite/activity/service.py:480-497 | the stored watermark, or the newest sighting's id written down on a first ever boot |
| `Feed.ActivityService.Start` | backend/src/flightsite/activity/service.py:423-447 | one start step, with whatever was reported before it |
| `Feed.ActivityService.Flush` | backend/src/flightsite/activity/service.py:501-581 | one begin step and one end step, however far the two transactions get and however the pass ends |
| `Grid.LatCellsApart` | backend/src/flightsite/airports/index.py:86-92 | latitudes at most d degrees apart lie at most ceil(2d) cells apart, clamping and truncation included |
| `Grid.LonCellsApart` | backend/src/flightsite/airports/index.py:95-101 | longitudes at most d degrees apart after any number of whole turns lie within ceil(2d) cells going round |
| `Grid.InSpansIsWalked` | backend/src/flightsite/airports/index.py:193-235 | no airport is outside the walked cells that lies, at sixty nautical miles a degree, within the radius in latitude and, at that times the cosine of the middle of its own half-degree band, within it in longitude going round; near the poles in latitude alone |
| `Grid.BandLatitudeIsMid` | backend/src/flightsite/airports/index.py:224-225 | the latitude a band is judged by is the middle of the half-degree band that holds the airport, within a quarter of a degree of its own |
| `Grid.WalkedIsInReach` | backend/src/flightsite/airports/index.py:216-235 | the cells walked in a band: near the poles all, otherwise those so many cells away, going round, that all but one are within the radius |
| `Grid.WalkedIsNear` | backend/src/flightsite/airports/index.py:193-214 | nothing a degree or more beyond the radius in latitude is walked |
| `Grid.Least` | backend/src/flightsite/airports/index.py:184-191 | the loop returns the (distance, ident)-least candidate within the radius, or none |
| `Grid.AnswerIsUnique` | backend/src/flightsite/airports/index.py:184-191 | with distinct idents a pool of candidates has one answer |
| `Grid.BeforeMeans` | backend/src/flightsite/airports/index.py:189-190 | the order of idents that breaks ties: a proper beginning first, or else the lesser character where they first differ |
| `Grid.LonCells` | backend/src/flightsite/airports/index.py:216-235 | the loop lists exactly the cells of the band that are in reach of the radius, going round |
| `Grid.AirportIndex.constructor` | backend/src/flightsite/airports/index.py:119-135 | every airport is bucketed in its own cell and nothing else is; an ident names its last airport and an IATA code its first |
| `Grid.AirportIndex.NameFor` | backend/src/flightsite/airports/index.py:153-172 | the name by ident, else by IATA code, and only then by the upper-case spelling |
| `Grid.NamedMeans` | backend/src/flightsite/airports/index.py:119-135 | a name stands for the last airport with that ident, and only if there is none for the first with that IATA code |
| `Grid.AirportIndex.Candidates` | backend/src/flightsite/airports/index.py:193-214 | the airports measured are exactly those in walked cells |
| `Grid.AirportIndex.FindNearest` | backend/src/flightsite/airports/index.py:174-191 | the answer is the least of the measured airports, and no airport within the radius and in reach of the search, across the antimeridian, is nearer or as near with an earlier ident |
| `Grid.OrderIsIrrelevant` | backend/src/flightsite/airports/index.py:119-191 | datasets with the same airports in any order give the same answer when idents are distinct |
| `PhaseLatch.PhaseNeedsTrend` | backend/src/flightsite/airports/inference.py:172-264 | an inferred phase passes the context gates, every sample of the last two minutes names its field, and the oldest was at least 0.3 nm further out for an arrival and further in for a departure |
| `PhaseLatch.PhaseExactly` | backend/src/flightsite/airports/inference.py:189-264 | exactly when an arrival or a departure is inferred: not on the ground and no more than 6,000 ft above the field, descending or climbing at 300 fpm or more, within 15 or 10 nm, and 0.3 nm nearer or further than at the oldest sample of the last two minutes, all of which name the field |
| `PhaseLatch.LookExactly` | backend/src/flightsite/airports/service.py:396-483 | exactly when a field is reported, with which phase, and what is handed to the sighting |
| `PhaseLatch.RememberedExactly` | backend/src/flightsite/airports/service.py:489-495 | a look adds one sample to what later looks see of the last two minutes and takes none away, unless the trail is full |
| `PhaseLatch.PrunedIsFresh` | backend/src/flightsite/airports/service.py:489-495 | only samples from the front go, and what is left begins inside the window |
| `PhaseLatch.MemoryIsBounded` | backend/src/flightsite/airports/service.py:360-371 | over any history no more aircraft are answered for, or set aside, than are tracked |
| `PhaseLatch.EvictExactly` | backend/src/flightsite/airports/service.py:498-502 | evicting answers drops the trails of the aircraft evicted and no others |
| `PhaseLatch.NothingNearForgets` | backend/src/flightsite/airports/service.py:396-410 | with no field near, answer, trail and what was set aside are forgotten |
| `PhaseLatch.NothingSetAside` | backend/src/flightsite/airports/service.py:330-371 | with no grace nothing is set aside, and an aircraft without a position, or before the index is loaded, changes nothing |
| `PhaseLatch.PruningIsInvisible` | backend/src/flightsite/airports/service.py:489-495 | dropping samples older than an earlier observation's window changes no inference at that time or later |
| `PhaseLatch.HeldPhasesWereInferred` | backend/src/flightsite/airports/service.py:349-453 | over any history, a phase shown or set aside was inferred earlier for the same field, and every answer since names that field and shows that phase |
| `PhaseLatch.ClaimsAreJustified` | backend/src/flightsite/airports/service.py:455-483 | what is handed to the sighting has an unrevoked inference behind its phase, or is of an aircraft on the ground within three miles of the field |
| `PhaseLatch.ResumedExactlyInGrace` | backend/src/flightsite/airports/service.py:360-394 | a removed aircraft's answer and trail are taken back if and only if it is next looked at before its last sighting plus the grace, with timestamps in order and no more aircraft than are tracked |
| `PhaseLatch.ApproachContinuesExactly` | backend/src/flightsite/airports/service.py:360-453 | back at the same field with no phase of its own to infer, it shows the phase it left with exactly when it is back within the grace |
| `PhaseLatch.SecondRemovalDrops` | backend/src/flightsite/airports/service.py:360-371 | a second removal with nothing seen between drops what was set aside |
| `PhaseLatch.EarlierTimestampFindsNothing` | backend/src/flightsite/airports/service.py:373-394 | the condition on timestamps is needed: another aircraft looked at past the expiry sweeps the answer away |
| `AirportContext.AirportContextService.Consider` | backend/src/flightsite/airports/service.py:330-347 | each live event has the whole effect the state machine gives it |
| `AirportContext.AirportContextService.ConsiderLive` | backend/src/flightsite/airports/service.py:396-410 | a live observation is the step for the nearest field the index gives within the search radius, no airport in reach being nearer |
| `AirportContext.AirportContextService.ResumeOne` | backend/src/flightsite/airports/service.py:373-394 | the sweep loop and the check compute the resumed state |
| `AirportContext.AirportContextService.LapseOne` | backend/src/flightsite/airports/service.py:360-371 | setting aside, with the eviction loop, computes the lapsed state |
| `AirportContext.AirportContextService.Remember` | backend/src/flightsite/airports/service.py:489-495 | the pruning loop and the bounded append compute the remembered trail |
| `AirportContext.AirportContextService.Observe` | backend/src/flightsite/airports/service.py:396-483 | one observation computes the answered state and the claim handed over |
| `Hourly.BucketsAreTheHours` | backend/src/flightsite/analytics/queries.py:1023-1028 | the buckets of a day are exactly the UTC hours that begin inside it |
| `Hourly.NewlyHeard` | backend/src/flightsite/analytics/queries.py:1085-1086 | every first-heard instant in range is counted in exactly one bucket, in bounds |
| `Hourly.Started` | backend/src/flightsite/analytics/queries.py:1088-1098 | each counter of a bucket counts exactly the flagged sightings that start in it, and the buckets sum to the flagged sightings of the day |
| `Hourly.HeardRange` | backend/src/flightsite/analytics/queries.py:1099-1104 | the clipped index range is in bounds and is exactly the buckets the sighting overlaps, even when its end lies before its start |
| `Hourly.Heard` | backend/src/flightsite/analytics/queries.py:1088-1104 | each bucket's set is exactly the airframes with a fetched sighting overlapping it |
| `Hourly.HourlyRows` | backend/src/flightsite/analytics/queries.py:1004-1131 | the rows of a day: the local hour, the counts of buckets that have begun and only those, and the receiver hour of the same start |
| `Hourly.CountsSay` | backend/src/flightsite/analytics/queries.py:1088-1104 | the counts of an hour, sighting by sighting: those that start in it, of each class, the airframes heard at some time in it, and those first heard in it |
| `Hourly.NewAircraftByDay` | backend/src/flightsite/analytics/queries.py:532-540 | one walk over sorted instants equals counting each day separately, and counts every instant once |
| `Hourly.DayCountSays` | backend/src/flightsite/analytics/queries.py:532-540 | a day's count is the number of instants from its start to the next day's |
| `AlertRules.CompileGlob` | backend/src/flightsite/alerts/model.py:296-315 | the loop builds the pattern's parts with runs of stars collapsed |
| `AlertRules.CollapsingIsInvisible` | backend/src/flightsite/alerts/model.py:296-315 | the collapsed pattern accepts exactly the strings the uncollapsed one accepts |
| `AlertRules.GlobMeans` | backend/src/flightsite/alerts/model.py:296-315 | a compiled pattern accepts exactly the texts that fall into one piece for each of its characters: any run for a star, one character for a question mark, and otherwise that character up to case |
| `AlertRules.NoTwoRuns` | backend/src/flightsite/alerts/model.py:296-315 | no two runs stand side by side in a compiled pattern |
| `AlertRules.Evaluate` | backend/src/flightsite/alerts/evaluator.py:242-272 | the result is the built-in match and exactly the rules that hold, each once, highest severity first and then by id |
| `AlertRules.EvaluateIgnoresOrder` | backend/src/flightsite/alerts/evaluator.py:242-272 | any permutation of rules with distinct positive ids gives the same result |
| `AlertRules.EngineIgnoresRuleOrder` | backend/src/flightsite/alerts/engine.py:642-676 | the order of the rules reaches nothing the engine evaluates |
| `AlertRules.EvaluationKeysAreDistinct` | backend/src/flightsite/alerts/evaluator.py:242-272 | no dedupe key is proposed twice for one aircraft |

## Left out

- Floating point: coordinates, rates and distances are reals, so rounding, infinities and NaN inputs are not modelled.
- zoneinfo: days are consecutive integers with strictly increasing midnights, and local hours are a function of the instant.
- Re-keying after a change of time zone, an unreadable stored rollup watermark, the type statistics refresh and the retry of a failed re-key in the analytics service.
- The two reads that plan a startup repair, the earliest sighting and the watermark, are one step.
- Alert rule deletion, which erases rows; rule editing, alert radius, watchlist resolution and every predicate a rule is made of, which are parameters of the engine and of evaluation.
- SQL, SQLAlchemy, asyncio and HTTP: tables are sequences, sets and maps, tasks are steps.
- The longest-sighting record, receiver records, new types and the military milestone: what they propose enters a pass as an arbitrary batch with keys of its own.
- An unreadable stored activity watermark, which restarts the feed at the present, and a `stop` of an activity service that was never started, which scans from zero.
- Payloads, reason strings and severities of activity events.
- Real distance and cosine: the grid is proved for any distance and any cosine positive below the polar bands, not against a full haversine scan; the longitude span uses the band's middle latitude.
- Samples that fall off a trail longer than 256 observations can change an inference; only pruning by age is proved invisible.
- Grid.OrderIsIrrelevant: says nothing about two airports with one ident, because the source then keeps whichever it meets first.
- Hourly.HourlyRows: takes the fetched sightings and receiver hours as given, so an airframe heard only in a sighting that started more than a day before the window is not counted, as in the source.
- Analytics.AnalyticsService.Flush: takes the await that fails, and how, as parameters and does not interleave commits with the object's own methods; the interleavings are in the protocol.
- Feed.ActivityService.Flush: begins and ends in one call, so sightings and notes that arrive during a pass appear in the runs and not in the object.
- The baseline's hourly cache and its loading, the feeder service's own condition, the application of a claimed airport to the sighting row, the iteration order of sets.
- FastAPI routers, application wiring, configuration, imports of metadata and airspace, and the whole of the frontend.
