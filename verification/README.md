# Verified model of the streaming pipeline and the episode algorithms

The system watches network hosts. Raw events are folded into fixed windows per host
(`services/features`), windows travel over Redis streams (`nidra_common`), an inference worker
keeps the last L windows of each host and publishes forecasts (`services/inference`), and a
persister writes forecasts and attack episodes (`services/persister`). Offline, the same windows
and episodes are built, split and scored from captures (`ml/nidra`). This project models both
halves in Dafny and proves what they promise: over every run of the protocols, and for every input
of the algorithms.

| File | What it models |
|---|---|
| `Episodes`, `Persister`, `EpisodeRows`, `Replay` | the episode lifecycle, its hash encoding, the commit, watermark, ack protocol with a crash between any two steps, what the episode rows then hold, and what a retry makes |
| `Delivery`, `Consumers` | streams, groups, pending lists, the bus and the consumer loop |
| `RateLimit`, `Ceilings` | the sliding-window log and Retry-After; both ceilings over whole runs |
| `HashFields`, `Events`, `Carried`, `Increments` | hash field names, what one event adds to a window and what it carries, the group-by of a window |
| `Features`, `Watchdog`, `WindowTotals`, `Reentry`, `Reordering` | the windowing state machine, when it closes, conservation, re-entry on the log and on events, order inside a window |
| `Timeline`, `HostTimelines`, `BatchTimelines`, `TrackedValues` | gap filling, the trimmed history, dynamics, against the batch table of the events; what the tracked values measure |
| `WindowGraphs`, `Graphs`, `EdgeSets` | peers and graphs behind each row; the two graph builders |
| `FeaturesWorker` | the features worker on mutable state, tied to `Features` |
| `ContextRing` | the deduplicated ring of L windows |
| `Segmentation`, `RankAuc`, `Duplicates` | flow segmentation, rank AUC, duplicate elimination |
| `Tables`, `Runs`, `Geometry`, `Splits` | sorting, episode runs, merging, geometry of origins, the validation cutoff |
| `Detectors`, `Hazards` | run-of-m detectors, discrete-hazard targets |
| `Options`, `Orders`, `Numbers` | optional values, sorted sets, arithmetic |

Protocols are state machines over their steps, with the mutable objects of the source as classes
whose methods are proved to take exactly those steps. Time is an integer, ratios and hazards are
reals, identifiers minted at random are parameters that were never used before.

## Where the code and its documentation part

The model follows the code. Each promise below is false of it: named first is the lemma with the
exact condition under which it holds, then an input for which it fails.

- A crash between commit and hash write is said to replay the forecast and complete
  (services/persister/episodes.py:212-213). The retry advances the lifecycle if and only if every forecast
  of the host completed since has an earlier origin: `RetryAdvancesIff`; `LateCloseExample`, where a
  committed close is undone. With nothing made in between the retry makes the lost transition, and an update
  leaves what it would have left (`UpdateIsReplayed`); an opening mints another id, and the first row stays
  open for good, once per such crash: `OrphansAreLostOpenings`; `OrphanExample`.
- The cutoff is said to split no episode, and to leave none starting within the margin after it
  (ml/nidra/data/splits.py:105-111). It is nudged once, and an earlier episode may lie across the run-up to
  the onset, or start inside it: `SplitKeepsEpisodesWhole`; `StraddlerExample`; and `SplitKeepsRunUps`;
  `LostRunUpExample`.
- Silent windows are said to count in the deltas (services/features/compute.py:454-456). They do for the
  active rows after them; the silent rows themselves are published with zero dynamics:
  `SilentRowAgreesIff`; `SilentRowExample`.
- A window's rows are said to be final once published (services/features/worker.py:165-166). After a
  watchdog close an event of the same or an earlier window is accepted again:
  `PublishedTableIff`, `RowKeysAreUniqueIff`; `ReentryExample`.
- Deduplication is said to make a retry harmless (services/inference/worker.py:89-90). It compares the
  tail only and appends in the order of pushes, so the context is the host's history if and only if no window
  reaches the push after a later one, again or for the first time: `ContextIsInTimeIff`;
  `OlderRedeliveryExample`, `LateRetryExample`. And a crash between push and publish loses a
  forecast that no retry brings back: `ForecastIff`; `LostForecastExample`.
- Offline reciprocity asks each edge about itself (ml/nidra/data/graph_features.py:113), so it equals the
  online one if and only if every destination answered: `ReciprocityAgreesIff`; `ReciprocityExample`.
- A refused upload still leaves its entry in the general bucket (api/ratelimit.py:221-224), so the general
  ceiling can refuse with fewer than its worth let through, if and only if a refused upload is among its
  entries: `RefusedBelowTheCeilingIff`; `RefusedUploadsUseUpTheCeiling`.

## Model

| member | source | states |
|---|---|---|
| `Episodes.WatermarkIsMax` | services/persister/episodes.py:121-176 | the stored watermark is the largest origin delivered so far, whatever the order and the repeats |
| `Episodes.AdvanceIgnoresId` | services/persister/episodes.py:121-176 | two states equal up to the episode id move to states and transitions equal up to the episode id: the freshly minted uuid influences nothing |
| `Episodes.RecordsIncrease` | services/persister/episodes.py:128-130 | the subsequence of strict running maxima, the deliveries the watermark test lets through, increases strictly |
| `Episodes.Confluence` | services/persister/episodes.py:121-176 | any delivery sequence, with duplicates and reordering, leaves the state and the transitions of its subsequence of strict running maxima, up to episode ids |
| `Episodes.EpisodeClosedForm` | services/persister/episodes.py:133-176 | over every increasing stream: the episode opens at the first above-threshold forecast after the previous close, above/below are the trailing run lengths, the peak is the maximum of the span, the stages are the non-empty ones in first-occurrence order, the alert is the first end of lead_time_m hits in a row; and the row written at each forecast says the same |
| `Episodes.QuietIffClosing` | services/persister/episodes.py:155-175 | the counter test closes an episode exactly when close_after below-threshold forecasts have come in a row |
| `Episodes.AnyDeliveryHasClosedForm` | services/persister/episodes.py:121-176 | both together: every delivery sequence ends in the closed form of its records |
| `Episodes.EveryRowHasForm` | services/persister/episodes.py:121-176 | for any delivery sequence, the i-th transition made writes the row the i-th record should: start, end, peak, stages and alert by positions alone |
| `Persister.HashRoundTrip` | services/persister/episodes.py:182-244 | writing a state over any hash and reading it back gives that state if and only if a watermark is written or none was there |
| `Persister.OneRowPerCommit` | services/persister/worker.py:179-219 | over every run with crashes and redeliveries the forecasts table holds exactly one row per committed (tenant, host, origin) and no other row |
| `Persister.SummaryIs` | services/persister/worker.py:103-105 | what the lifecycle is told of a forecast: its origin, its stage, and the largest of its horizons' probabilities, which reaches a threshold if and only if some horizon does |
| `Persister.RowsStoreMessages` | services/persister/worker.py:201-219 | on every run each forecasts row stores a message of the stream: no horizon at or before the origin, its key, the peak of its horizons, its stage and payload |
| `Persister.RowsAreForGood` | services/persister/worker.py:201-219 | however a run continues, no forecasts row is changed or dropped |
| `Persister.OpensIff` | services/persister/episodes.py:133-151 | on every run a host without an open episode opens one at an advancing forecast if and only if one of its horizons reaches the risk threshold |
| `Persister.AckedIsDurable` | services/persister/worker.py:154-197 | every acked message has its row, made from a message of the stream, and its host's watermark has passed it |
| `Persister.OrphansAreLostOpenings` | services/persister/worker.py:162-256 | over every run the episode rows no host will ever close are in number exactly the crashes between commit and hash write on an opening forecast, plus the one in flight |
| `Persister.NoCrashNoOrphan` | services/persister/worker.py:185-188 | without a crash there is no orphan row |
| `Persister.OrphansAreForGood` | services/persister/worker.py:241-254 | however a run continues, every row orphaned so far, the one in flight aside, is still an orphan: the same ids, not just as many |
| `Persister.OrphanExample` | services/persister/episodes.py:141-141 | the unconditional promise is false: one crash after an opening commit orphans a row, because the retry mints another uuid |
| `Persister.HashIsFold` | services/persister/worker.py:168-188 | a host's hash always reads back as the fold of the lifecycle over that host's completed forecasts |
| `Persister.CrashesKeepClosedForm` | services/persister/worker.py:162-188 | whatever crashes, repeats and reorderings came, the hash holds the closed form of the completed forecasts' records |
| `EpisodeRows.RowIsLastTransition` | services/persister/worker.py:168-188 | on every run, each episode row a host owns has the values of the last completed transition that concerned it, unless the episode is open and an update of it is torn or in flight |
| `EpisodeRows.OpenRowIsAggregate` | services/persister/worker.py:221-256 | with no update torn or in flight, the row of a host's open aggregate has its start, peak, stages and first alert, and no end |
| `EpisodeRows.ClosedRowStands` | services/persister/worker.py:241-256 | once the hash write of a close has completed, its row is as the close wrote it, in every phase and whatever crashes follow |
| `EpisodeRows.TornRowIsAhead` | services/persister/worker.py:185-188 | what a torn update leaves: the row has the values of the lost transition while the hash still reads back as before it |
| `EpisodeRows.LastTransitionHasForm` | services/persister/worker.py:162-188 | the transition a row follows is one the closed form of the host's records describes |
| `EpisodeRows.EveryRowIsOwnedOrOrphan` | services/persister/worker.py:221-256 | on every run, each row of the episodes table belongs to a host's completed forecasts or is an orphan |
| `Replay.AdvancesIff` | services/persister/episodes.py:128-130 | on every run with crashes, a forecast advances its host's lifecycle if and only if its origin is past those of all the host's completed forecasts |
| `Replay.RetryAdvancesIff` | services/persister/episodes.py:209-214 | after a crash between commit and hash write, and whatever follows it, the retry advances the lifecycle if and only if every forecast of the host completed since has an earlier origin |
| `Replay.RetryMakesTheSame` | services/persister/episodes.py:209-214 | with no transition of the host made since, the retry makes the lost one again, a fresh id apart if it opened |
| `Replay.UpdateIsReplayed` | services/persister/worker.py:185-188 | then, unless the lost transition was an opening, the retry's commit and hash write leave the row and the hash of the handling that did not crash |
| `Replay.LostForGood` | services/persister/episodes.py:128-130 | once a forecast of the host with the same or a later origin has completed, no retry ever advances |
| `Replay.LateCloseExample` | services/persister/worker.py:185-188 | a run: a close loses its hash write, a later forecast is handled before the retry; at the end everything is acked and the closed episode's row is open again |
| `Persister.PersisterWorker.InsertForecast` | services/persister/worker.py:201-219 | true exactly when the key was absent; the table gains the row or nothing |
| `Persister.PersisterWorker.WriteEpisodeRow` | services/persister/worker.py:221-256 | opens a row under the episode id, or refreshes the row of that id and tenant, or touches nothing |
| `Persister.PersisterWorker.WriteHostState` | services/persister/episodes.py:209-244 | only this host's hash changes, to the deleted-then-set hash of the state |
| `Persister.PersisterWorker.Handle` | services/persister/worker.py:154-197 | raises, changing nothing, exactly on a forecast without horizons or with one not after its origin, a tenant that is no UUID, or an unreadable hash; otherwise leaves what one begin, commit, write and ack of the state machine leave |
| `Delivery.AtLeastOnce` | nidra_common/worker.py:43-94 | after any interleaving of publishing, reads, successes, failures, crashes, reclaims and stops, each message is per group exactly one of undelivered, pending, acked, and an acked one had a handler finish it |
| `Delivery.GroupsAreIndependent` | nidra_common/bus.py:121-174 | no step of one group changes the cursor, pending list, acks or memory another group sees |
| `Delivery.CanAlwaysDrain` | nidra_common/bus.py:176-204 | from every reachable state one consumer can still bring its group to have acked the whole stream: reclaim loses nothing |
| `Delivery.RecoverPending` | nidra_common/bus.py:176-204 | one pending message of a dead consumer can be taken over, handled and acked |
| `Consumers.Bus.EnsureGroup` | nidra_common/bus.py:121-132 | a missing group starts with nothing delivered; one that is there keeps its cursor, pending ids and acks |
| `Consumers.Bus.Read` | nidra_common/bus.py:144-162 | hands out the next entries in order and leaves exactly them pending for this consumer |
| `Consumers.Bus.AutoClaim` | nidra_common/bus.py:188-196 | one page: the idle ids from the cursor on, in order, reassigned to the caller, and a next cursor that is zero only at the end |
| `Consumers.Bus.Reclaim` | nidra_common/bus.py:176-204 | the cursor loop returns every idle pending id exactly once, in order, and claims exactly those |
| `Consumers.ReadIsIdleIff` | nidra_common/bus.py:176-196 | an entry read is idle from min_idle after the read on, and not before |
| `Consumers.ClaimedIsIdleIff` | nidra_common/bus.py:188-196 | claiming an id starts its idle time over, and only its own |
| `Delivery.AvailableIs` | nidra_common/bus.py:144-162 | a read hands out up to the count, and fewer only when the stream ends |
| `Consumers.Worker.Dispatch` | nidra_common/worker.py:43-52 | acked if and only if the handler finished; nothing else moves |
| `Consumers.Worker.DispatchBatch` | nidra_common/worker.py:91-94 | a prefix of the batch is dispatched, the whole of it unless stopped, and exactly its finished ids leave the pending list |
| `Consumers.Worker.Round` | nidra_common/worker.py:80-94 | one turn: unless a look saw the stop event, every available entry up to the count is read and, when a sweep is due, every entry idle at its start is taken over; each is then done or pending in this consumer's name |
| `Consumers.Worker.Sweep` | nidra_common/worker.py:82-85 | page by page, each dispatched before the next is claimed: no stop, and every entry idle when the sweep began has been taken over; no ack is taken back |
| `Consumers.Worker.ReadOnce` | nidra_common/worker.py:91-94 | the cursor moves past exactly the entries available up to the count, and each of them is then done or pending in this consumer's name |
| `Consumers.Worker.RunConsumer` | nidra_common/worker.py:55-96 | whatever the handlers do and whenever a look sees the stop event, the loop takes back no ack and touches no other group; without a stop it reads the whole stream in as many turns as there are entries |
| `RateLimit.NeverOverTheLimit` | api/ratelimit.py:151-170 | with nondecreasing execution times and refusals removed at any later step, no interval (T-W, T] ever holds more accepted hits than the limit |
| `RateLimit.RetryAfterIsExact` | api/ratelimit.py:170-177 | run sequentially, a retry k whole seconds after a refusal is admitted if and only if k is at least the retry_after returned, which is at least one |
| `RateLimit.HitKeepsSequential` | api/ratelimit.py:160-170 | a sequential log stays within the limit, and a hit is allowed exactly when its own entry stays |
| `RateLimit.ArriveIsHit` | api/ratelimit.py:151-170 | one arrival of the interleaved machine decides as the whole hit does, and its log is the hit's once a refused member is removed |
| `RateLimit.EmptyWindowRetry` | api/ratelimit.py:175-176 | a refusal that finds the window empty asks for the whole window, in seconds rounded up |
| `RateLimit.HitAllowsIff` | api/ratelimit.py:160-178 | a fresh hit is let in if and only if fewer entries than the limit lie in the window; the remaining count is what is left after it, and the log keeps the window's entries and an admitted hit |
| `RateLimit.ZeroLimitNeverAdmits` | api/ratelimit.py:167-177 | why the exactness needs a limit of at least one: below it no retry is ever admitted |
| `RateLimit.Bucket.Record` | api/ratelimit.py:151-177 | the in-place trim, add, count, and remove leave the log and decision of one whole hit |
| `RateLimit.RateLimiter.Check` | api/ratelimit.py:212-230 | both logs and the refusal after one request whose Redis calls answer or fail at any point: the first exceeded ceiling decides, an ingest refusal keeps its general entry, a failure lets the request through |
| `RateLimit.LetsThroughIff` | api/ratelimit.py:180-184 | with Redis answering: a request is let through if and only if the general window has room and, for an upload, the ingest window too; when both are full the refusal is the general one, and it never reaches the ingest log |
| `Ceilings.RequestsWithinTheCeiling` | api/ratelimit.py:208-230 | over every sequential run no window holds more requests let through than the general limit |
| `Ceilings.UploadsWithinTheCeiling` | api/ratelimit.py:208-230 | nor more uploads let through than the ingest limit |
| `Ceilings.LaneNeverOver` | api/ratelimit.py:151-178 | one bucket under any subsequence of hits: no window holds more that passed than its limit |
| `RateLimit.FailsOpen` | api/ratelimit.py:225-227 | a request is refused only on a ceiling that is really exceeded and whose count was answered: an unreachable Redis refuses nobody |
| `RateLimit.RefusedBelowTheCeilingIff` | api/ratelimit.py:216-224 | when the general ceiling refuses, its window holds exactly the ceiling's worth of entries, and fewer than that many were let through if and only if one of them is a refused upload |
| `RateLimit.RefusedUploadsUseUpTheCeiling` | api/ratelimit.py:216-224 | a run: after one refused upload the next request is refused by the general ceiling with none let through |
| `HashFields.EdgeRoundTripIff` | services/features/state.py:97-103 | an edge field parses back to its edge if and only if both ends are non-empty and the source holds no separator |
| `HashFields.EdgeFieldsAreDistinct` | services/features/state.py:97-98 | edges with separator-free sources never share a field |
| `HashFields.BucketRoundTrip` | services/features/compute.py:159-161 | a bucket field reads back as its prefix and value, separators in the value included |
| `HashFields.FieldNames` | services/features/compute.py:35-52 | the names in Redis: src>dst for an edge; di, dp, tw, ps or fx, a colon and the value for a bucket |
| `HashFields.FromHash` | services/features/compute.py:240-252 | every hash field lands in exactly one scalar or bucket with its value, in whatever order the fields are read |
| `HashFields.SplitIsInvertible` | services/features/compute.py:240-252 | the rebuilt accumulator determines the hash it came from: nothing is merged or lost |
| `Increments.EventCountsOnce` | services/features/compute.py:168-230 | whatever it carries, an event adds exactly one to n_flows + n_packets and names exactly its destination as a peer |
| `Carried.EventCarries` | services/features/compute.py:168-230 | every field of the increments is what the event carries of it by its own measurements: bytes, packets, flags, sums and squares, and one per bucket its measurement falls in |
| `Increments.GroupByIsSum` | services/features/compute.py:168-230 | for every event list, host, window and field, the accumulator holds the sum of what the host's events of that window carry |
| `Increments.AlignIs` | services/features/state.py:59-62 | an event belongs to the window of the grid that starts at or before it and ends after it |
| `Increments.GroupByConcat` | services/features/state.py:119-121 | accumulating two stretches of events is the field-wise sum of accumulating each |
| `Increments.GroupByIgnoresOrder` | services/features/state.py:109-133 | a window's accumulator is the same for every order of its events |
| `Increments.CountIsNumber` | services/features/compute.py:260-262 | event_count of an accumulator is the number of events folded into it |
| `Features.RunIsGroupBySegments` | services/features/worker.py:150-240 | over every run of events and watchdog ticks, the active rows published are, in order, one per source host of each closed segment with the group-by of its events, and the open window holds the group-by of the events since |
| `Features.SegmentsAreTheAcceptedStream` | services/features/worker.py:160-177 | the closed segments and the open window, in order, are the accepted events: none lost, none repeated |
| `WindowTotals.Conservation` | services/features/worker.py:150-240 | on every run, per host, window and field: published total plus open accumulator equals what the accepted events carried |
| `WindowTotals.EveryEventCountedOnce` | services/features/worker.py:150-240 | each accepted event is counted exactly once, in a published row or in the open window |
| `WindowTotals.ActiveRowsSawEvents` | services/features/compute.py:473-473 | a row with a window behind it counts at least one event, so its is_active is 1 |
| `WindowTotals.RowKeysAreUniqueIff` | services/features/worker.py:162-177 | one active row per (host, window) if and only if no host re-enters a closed window |
| `WindowTotals.RowsAreGroupByIff` | services/features/worker.py:162-240 | the active rows are the group-by table of the published events on (host, aligned window) -- one row per key, a row for every key with events, each with its group -- if and only if the closed segments share no key |
| `Reentry.PublishedTableIff` | services/features/worker.py:162-199 | said of events: the rows are the group-by table of the published events if and only if no accepted event came back to a host and window that already had a row and was itself published |
| `WindowTotals.WithoutWatchdogForward` | services/features/worker.py:163-175 | without a watchdog close windows only move forward: every late event is dropped |
| `WindowTotals.StepIsForwardIff` | services/features/worker.py:163-176 | a step breaks the forward order exactly when, after a close left no window open, an event reopens a window at or before a closed one |
| `Watchdog.OpenWindowIsFront` | services/features/worker.py:150-199 | on every run the open window is that of the last accepted event; an event is dropped if and only if it has no source or lies before the open window; a tick closes it if and only if the silence reaches the floor and two windows of replayed time |
| `Watchdog.PublishesIff` | services/features/worker.py:160-199 | on every run an action publishes rows if and only if a window is open and the action is a tick after such a silence or an event at or past the window's end |
| `WindowTotals.ReentryExample` | services/features/worker.py:181-199 | a stall past the grace inside one window publishes two rows for one key, neither the group-by |
| `Reordering.OrderInsideWindowIsIrrelevant` | services/features/worker.py:150-177 | exchanging neighbouring events of one window changes no state and no row of the whole run |
| `Timeline.GapIsFloorDivision` | services/features/worker.py:291-293 | the floor-division gap is the number of windows a host sat out, and anything below one is none |
| `Timeline.ThreePointSlope` | services/features/compute.py:140-153 | the least-squares slope of three points is half the outer difference |
| `Timeline.RollingSlope3` | ml/nidra/data/windowize.py:383-396 | the batch loop fills zeros at the first two rows and half the outer difference from the third on |
| `Timeline.HistoryIsEnough` | services/features/compute.py:419-433 | the dynamics computed from the three-deep trimmed history are the batch differences and slopes of the newest row |
| `Timeline.DynamicsAre` | services/features/compute.py:419-433 | by value: six differences against the window before, and for the first three and the fifth half the difference over two windows; zeros as long as there are none |
| `Timeline.TraceIsOnlineBatch` | services/features/worker.py:251-311 | for strictly increasing windows a host's rows are, stretch by stretch between restarts, the gap-filled batch table with the dynamics of silent rows blanked; the carried state is the tail of that table |
| `Timeline.FilledIsReindex` | ml/nidra/data/windowize.py:345-365 | for strictly increasing windows on one grid the gap-filled table runs from first to last window in single steps, holds every sample once and zeros everywhere else |
| `Timeline.TimelineIsUniformIff` | services/features/worker.py:282-311 | for windows on one grid: neighbouring rows differ by exactly one window, or by more than (max_gap_windows+1) windows with no dynamics carried over, if and only if the windows strictly increase |
| `Timeline.ChainedIff` | ml/nidra/data/windowize.py:345-352 | on one grid, each window lies whole steps after the one before if and only if the windows strictly increase |
| `Timeline.SilentRowAgreesIff` | services/features/worker.py:305-311 | a silent row agrees with the batch table if and only if the window before was all zeros and the slope sources of the one before that too |
| `Timeline.SilentRowExample` | services/features/worker.py:309-309 | a host going quiet: the batch row of the silence shows the fall, the published row shows zero |
| `HostTimelines.RowsAreTimelines` | services/features/worker.py:242-280 | on every run each host's published rows, and its stored history, are the timeline of the windows it was active in |
| `HostTimelines.StreamingRefinesBatch` | services/features/worker.py:242-311 | while a host's closed windows strictly increase, its rows are the batch table of each stretch, active rows with exactly the batch deltas and slopes |
| `HostTimelines.HostTimelineIsUniformIff` | services/features/worker.py:282-311 | on every run a host's time axis is uniform, restarts aside, if and only if the windows it was closed in strictly increase, whatever the other hosts do |
| `HostTimelines.RowsAreSpaced` | services/features/worker.py:282-311 | while a host's windows move forward each row follows one window length after the row before, or more than max_gap_windows + 1 windows after it with zero dynamics |
| `WindowGraphs.PeersAreCountedOnce` | services/features/state.py:214-228 | each window counts the peers no earlier window of the host had, and over a run the counts add up to the distinct peers stored |
| `WindowGraphs.RowsReadKeptGraphs` | services/features/worker.py:222-240 | on every run, re-entry or not: a row read the edges of its window accepted since the window after it last closed, and those of the window before accepted since its own window last closed |
| `WindowGraphs.GraphsAreExact` | services/features/worker.py:222-240 | while windows move forward, every row was computed from exactly the accepted edges of its window and of the window before |
| `WindowGraphs.PeersAreSuccessors` | services/features/state.py:119-127 | the peers in an accumulator are the successors of its host in the graph of the same events |
| `WindowGraphs.RowPeersAreSuccessors` | services/features/worker.py:258-262 | while windows move forward, the peers read from a row's own hash are its successors in the shared window graph |
| `BatchTimelines.SamplesAreBatch` | services/features/worker.py:242-280 | while a host's closed windows strictly increase, the windows and tracked values published for it are those computed from the published events alone: group-by, successors, and peers at their first window |
| `TrackedValues.RowsAreMeasured` | services/features/compute.py:66-73 | on every run the tracked values of an active row are, of the events of its closed segment: SYNs per packet; the entropy of an accumulator whose every field is a sum over the events; distinct destinations; those new to the host; the mean squared deviation of the flows' mean gaps; retransmissions per packet event |
| `TrackedValues.BackfilledRowsAreZero` | services/features/worker.py:305-311 | on every run a row without a window behind it is zero in values, differences and slopes |
| `TrackedValues.VarianceIs` | services/features/compute.py:101-109 | from running sums: the mean squared deviation from the mean |
| `BatchTimelines.RowIsBatchWindow` | services/features/worker.py:251-266 | a row of such a host has the accumulator, the peers and the graph successors of its key over all published events, whatever other hosts left in the shared graph |
| `BatchTimelines.StreamIsBatchIff` | services/features/worker.py:242-311 | end to end: the rows of a host are the gap-filled batch table of the published events, stretch by stretch, silent rows blanked, if and only if the windows the host was closed in strictly increase, whatever the other hosts do |
| `BatchTimelines.StreamIsBatch` | services/features/worker.py:242-311 | the same from increasing windows to the table, for any gap limit |
| `FeatureService.HashIncrBy` | services/features/state.py:120-121 | incrementing field by field, in any order, leaves the field-wise sum |
| `FeatureService.FeaturesWorker.FillGap` | services/features/worker.py:282-311 | publishes one zero row per window sat out and the trimmed history, or restarts past the maximum gap |
| `FeatureService.FeaturesWorker.EmitHost` | services/features/worker.py:242-280 | publishes the silent rows and the host's own row, and stores peers and trimmed history, as one emission of the state machine |
| `FeatureService.FeaturesWorker.CloseWindow` | services/features/worker.py:220-240 | publishes every host in ascending order, then discards accumulators, the graph before, and the marker unless it moved on |
| `FeatureService.FeaturesWorker.IngestEvent` | services/features/worker.py:150-177 | one event: dropped, folded in, or folded in after closing the open window |
| `FeatureService.FeaturesWorker.WatchdogTick` | services/features/worker.py:181-199 | closes the open window exactly when its grace has elapsed |
| `Graphs.FromEdges` | services/features/compute.py:279-288 | both peer maps hold every endpoint with exactly its successors, respectively predecessors |
| `Graphs.ComputeEdges` | ml/nidra/data/graph_features.py:91-98 | the counters hold exactly the successors with their multiplicities, the sets exactly the predecessors |
| `Graphs.DegreesAgree` | ml/nidra/data/graph_features.py:100-103 | for every edge list both builders know the same hosts and give them equal out- and in-degrees |
| `Graphs.DegreesAddUp` | services/features/compute.py:296-300 | summed over the hosts, out-degrees and in-degrees both equal the number of distinct edges |
| `Graphs.LinksCountPairs` | services/features/compute.py:320-325 | the links counted are half the ordered adjacent pairs, so no neighbour order matters |
| `Graphs.ClusteringsAgree` | ml/nidra/data/graph_features.py:116-135 | up to the degree cap the sorted online neighbours and any offline listing give one clustering coefficient |
| `Graphs.ClusteringInRange` | services/features/compute.py:307-325 | the coefficient over any distinct neighbours, sampled or not, lies in [0, 1] |
| `Graphs.CoefficientIsShare` | services/features/compute.py:307-325 | the coefficient is the share of the ordered pairs of neighbours that are adjacent, and zero below two |
| `Graphs.CappedTakesSmallest` | services/features/compute.py:314-316 | the neighbours taken are the degree_cap smallest |
| `Graphs.Clustering` | services/features/compute.py:307-325 | the online nested count is the coefficient of the first degree_cap neighbours in sorted order |
| `Graphs.LocalClustering` | ml/nidra/data/graph_features.py:124-135 | the offline nested count is the coefficient of whichever neighbours were taken |
| `Graphs.OfflineReciprocityIsOne` | ml/nidra/data/graph_features.py:107-114 | the offline value is 1 for every host with peers and 0 otherwise |
| `Graphs.ReciprocityIsShare` | services/features/compute.py:302-305 | the online value is the share of the destinations that are also sources, and zero without destinations |
| `Graphs.ReciprocityAgreesIff` | services/features/compute.py:302-305 | online and offline reciprocity agree if and only if every destination answered; the online value lies in [0, 1] |
| `Graphs.ReciprocityExample` | ml/nidra/data/graph_features.py:107-114 | one unanswered edge: zero online, one offline |
| `ContextRing.RingIsTheTail` | services/inference/worker.py:94-156 | for any deliveries, repeats and crashes the buffer is the last L of the stream with runs of one window collapsed, and the forecasts are those windows' from the L-th on whose handling did not die before publishing |
| `ContextRing.TrimIsTail` | services/inference/worker.py:148-156 | what is kept of a list is its end, as many entries as fit |
| `ContextRing.ContextIsInTimeIff` | services/inference/worker.py:137-156 | for every L: after every delivery the context is the host's last L windows in time order, each once, if and only if no window reaches the push after a later one |
| `ContextRing.InTimeIsHistory` | services/inference/worker.py:137-156 | that order is strictly ascending and holds exactly the windows pushed |
| `ContextRing.ContextIsHistoryIff` | services/inference/worker.py:137-156 | for every L: after every delivery the context is the last L windows in the order of their first pushes, each once, if and only if no window is pushed again after another |
| `ContextRing.LateRetryExample` | services/inference/worker.py:94-133 | a first handling that died before the push, retried after the next window: nothing is pushed twice, and a later window stands in the context of an earlier forecast |
| `ContextRing.DistinctIff` | services/inference/worker.py:137-146 | the pushed stream with runs of one window collapsed holds no window twice if and only if only the host's latest window is ever redelivered |
| `ContextRing.AtMostOneForecast` | services/inference/worker.py:94-133 | while only the latest window is redelivered, no window is forecast twice |
| `ContextRing.ForecastIff` | services/inference/worker.py:112-126 | a window is forecast, with the L windows ending at it, if and only if it is at least the L-th and its first handling did not crash between push and publish |
| `ContextRing.OlderRedeliveryExample` | services/inference/worker.py:143-146 | whatever the two windows, an older one redelivered re-enters the context and is forecast again |
| `ContextRing.LostForecastExample` | services/inference/worker.py:112-126 | after a crash between push and publish no number of redeliveries forecasts the window |
| `ContextRing.InferenceWorker.Push` | services/inference/worker.py:148-156 | appends and trims this key's list only, and returns it |
| `ContextRing.InferenceWorker.Process` | services/inference/worker.py:94-133 | one crash-free delivery for one key; the other keys are untouched, and what is returned is what is published |
| `Segmentation.GreedyIsLawful` | ml/nidra/data/flow_assemble.py:152-166 | under the greedy rule every flow spans at most the timeout and has no RST or second FIN before its last packet |
| `Segmentation.TearsDownIff` | ml/nidra/data/flow_assemble.py:159-166 | a packet ends its flow if and only if it is a reset, or a FIN after an earlier FIN of the flow |
| `Segmentation.GreedyIsOptimal` | ml/nidra/data/flow_assemble.py:152-166 | at every packet no lawful partition into contiguous flows has used fewer |
| `Segmentation.SegmentationIsOptimal` | ml/nidra/data/flow_assemble.py:127-167 | for every timeout under which any lawful partition exists, the loop returns one, nowhere ahead of any other, with epochs that advance on teardowns only |
| `Segmentation.LawfulNeedsTimeout` | ml/nidra/data/flow_assemble.py:152-153 | below a timeout of zero no partition of a non-empty capture is lawful |
| `Segmentation.NegativeTimeoutCutsEverywhere` | ml/nidra/data/flow_assemble.py:147-158 | what the loop does then: a new flow at every packet |
| `Segmentation.EpochFollowsSegment` | ml/nidra/data/flow_assemble.py:137-157 | the direction epoch is a monotone function of the segment |
| `Segmentation.SegmentIds` | ml/nidra/data/flow_assemble.py:127-167 | the arrays filled in place are the labels and epochs of the loop the theorems are about |
| `RankAuc.RankSumIsPairCount` | ml/nidra/data/dataset_shift.py:86-87 | rank sum minus n_b(n_b+1)/2 is the number of pairs a < b plus half the pairs a == b |
| `RankAuc.AucIsShare` | ml/nidra/data/dataset_shift.py:86-88 | the AUC times the number of pairs is the pairs the right way round plus half the ties |
| `RankAuc.CountsArePositions` | ml/nidra/data/dataset_shift.py:75-85 | the counts behind the ranks are numbers of positions below a value and not above it |
| `RankAuc.FoldIsLarger` | ml/nidra/data/dataset_shift.py:87-88 | of the value and its mirror image the larger, never below one half |
| `RankAuc.AucRange` | ml/nidra/data/dataset_shift.py:87-88 | the folded value lies in [0.5, 1] |
| `RankAuc.AucIsSymmetric` | ml/nidra/data/dataset_shift.py:69-70 | swapping the two populations gives the same value |
| `RankAuc.ConstantScoresHalf` | ml/nidra/data/dataset_shift.py:70-71 | a feature constant over both populations scores exactly one half |
| `RankAuc.AverageRanks` | ml/nidra/data/dataset_shift.py:75-85 | the sort and the pass over tied groups give every position the mean rank of its value |
| `RankAuc.AverageGroup` | ml/nidra/data/dataset_shift.py:83-84 | a tied group's ranks become their mean, which is the average rank of its value |
| `RankAuc.RankAuc` | ml/nidra/data/dataset_shift.py:68-88 | undefined exactly on an empty side; otherwise the folded pair count, in [0.5, 1] |
| `Runs.SpansAreMaximalRuns` | ml/nidra/data/splits.py:44-70 | the spans found are exactly the maximal attack runs of one host, in order |
| `Tables.SortRowsSorts` | ml/nidra/data/splits.py:48-48 | the sorted table has the same rows, by host name and then window |
| `Tables.NameLeqIff` | ml/nidra/data/splits.py:48-48 | host names are ordered lexicographically |
| `Runs.FindEpisodes` | ml/nidra/data/splits.py:44-70 | on any table the loop returns the episodes of the spans of the sorted table |
| `Runs.MergedIsMerge` | ml/nidra/data/audit.py:39-49 | merged episodes are sorted, further than the merge gap apart, cover every raw run, start and end where raw runs do, and add nothing but short gaps |
| `Runs.NearIff` | ml/nidra/data/audit.py:43-43 | two runs merge if and only if the second starts less than merge_gap_windows + 2 windows after the end of the first |
| `Runs.MergeIsIdempotent` | ml/nidra/data/audit.py:39-49 | merging again changes nothing |
| `Runs.MergeHost` | ml/nidra/data/audit.py:40-49 | the loop over one host's runs returns the merged intervals |
| `Geometry.MergedEpisodesAreMerge` | ml/nidra/data/audit.py:35-49 | on any table a host's merged episodes are a merge of that host's maximal runs |
| `Geometry.MergeEpisodes` | ml/nidra/data/audit.py:30-49 | on any table, one group per host that has episodes, in the order of host names, each non-empty and holding that host's merged episodes |
| `Geometry.GeometryIsPointwise` | ml/nidra/data/onset.py:61-74 | on sorted disjoint episodes: inside is membership in some episode, the onset is the nearest strictly later start, the key is the containing episode, else the next, else none |
| `Geometry.GeometryOfTable` | ml/nidra/data/onset.py:41-75 | so it is for the merged episodes of every table |
| `Geometry.CellOfTable` | ml/nidra/data/onset.py:50-75 | what the visits to the groups leave at an origin is what its own host's merged episodes give, a host without a group included |
| `Geometry.TableGeometry` | ml/nidra/data/onset.py:41-75 | from any table to the cells: every origin gets the pointwise reading of its own host's merged episodes |
| `Geometry.EpisodeGeometry` | ml/nidra/data/onset.py:50-75 | the nested loops fill every row with the cell its own host's episodes give it |
| `Splits.StraddlersEndedEarlier` | ml/nidra/data/splits.py:117-125 | after the single nudge an episode straddles the cutoff exactly when it ended before the original cutoff and reaches the new one |
| `Splits.MarginIsKept` | ml/nidra/data/splits.py:105-111 | an episode that reaches the original cutoff starts at least the margin after the new one, unless the cutoff is clipped to the first window |
| `Splits.SplitKeepsRunUps` | ml/nidra/data/splits.py:103-125 | some run of the block starts within the margin after the cutoff if and only if the margin ahead of the earliest onset near the plain cutoff is cut short by the start of the block, or a run that ended before the plain cutoff starts in it |
| `Splits.NudgedRunUpIff` | ml/nidra/data/splits.py:112-125 | the same of any episode list |
| `Splits.LostRunUpExample` | ml/nidra/data/splits.py:117-124 | the nudge for one episode can land within the margin ahead of an earlier one, with no episode cut |
| `Splits.StraddlerExample` | ml/nidra/data/splits.py:117-124 | the nudge for one episode can land inside an earlier one |
| `Splits.SplitKeepsEpisodesWhole` | ml/nidra/data/splits.py:103-125 | some run of the block is split if and only if an episode that ended before the plain cutoff lies across the point one margin ahead of the earliest onset near it |
| `Splits.NudgedStraddlersIff` | ml/nidra/data/splits.py:112-125 | the same of any episode list: the nudged cutoff is straddled if and only if that run-up point is crossed |
| `Splits.TemporalSplit` | ml/nidra/data/splits.py:128-153 | empty table, single block or per capture: each row goes to exactly one side, validation exactly when it lies at or after its block's cutoff |
| `Splits.SplitSharesRunIff` | ml/nidra/data/splits.py:128-153 | of the whole split, per capture or not: train and validation share an attack run of a part if and only if an episode of that part that ended before its plain cutoff crosses the run-up point |
| `Splits.TrailingBlockCutoff` | ml/nidra/data/splits.py:103-125 | the cutoff returned is the nudged fraction cutoff of the block |
| `Splits.PlainCutoffPosition` | ml/nidra/data/splits.py:112-115 | of n distinct times t lie before the plain cutoff, t <= n(1 - val_fraction) < t + 1; all but the last when the fraction is not positive, none when it exceeds one |
| `Splits.ValidationShare` | ml/nidra/data/splits.py:128-153 | the validation side of a part holds at least the n - t distinct times from its plain cutoff on, and exactly those when no episode is near it |
| `Detectors.FirstRun` | ml/nidra/eval/episode_metrics.py:24-30 | the one-pass counter returns the least start of m consecutive hits, none when there is none |
| `Detectors.ScanRun` | services/inference/stub_predictor.py:431-435 | the all-windows scan returns the same |
| `Detectors.CounterAgreesWithScan` | ml/nidra/eval/episode_metrics.py:24-30 | counter and scan agree on every input |
| `Detectors.LeadTimeS` | services/inference/stub_predictor.py:422-435 | seconds to the step that starts the first sustained crossing inside the horizon |
| `Detectors.LeadTimeForEpisode` | ml/nidra/eval/metrics.py:49-70 | onset minus the start of the first sustained crossing among the windows before the onset |
| `Detectors.LeadTimeIs` | ml/nidra/eval/metrics.py:49-70 | of the curve itself: onset minus the first row from which m rows before the onset reach the threshold, none when there is none |
| `Detectors.LeadIsPositive` | ml/nidra/eval/metrics.py:64-69 | a lead time is strictly positive |
| `Detectors.StricterIsNoEarlier` | ml/nidra/eval/metrics.py:49-70 | raising the threshold never lengthens a lead and never makes one appear |
| `Detectors.FirstTimedRun` | ml/nidra/eval/campaign_metrics.py:114-122 | the least start of m hits whose windows are consecutive in time |
| `Detectors.MissingWindowsOnlyHide` | ml/nidra/eval/campaign_metrics.py:114-122 | a run found on any subsequence of a spaced series is in the full series, which starts one no later |
| `Hazards.EventsAreCoherent` | ml/nidra/data/onset.py:119-129 | at most one event a row, an event implies at risk, and at risk is a prefix of the buckets |
| `Hazards.CensoringIsHonest` | ml/nidra/data/onset.py:110-116 | a censored row is at risk throughout with no event; a row inside an episode never is |
| `Hazards.BucketsAre` | ml/nidra/data/onset.py:78-129 | by value: an onset target at a horizon means an onset at or before it, an event one in the half-open bucket that ends there, at risk none up to the bucket's start |
| `Hazards.CumulativeGrows` | ml/nidra/data/onset.py:132-135 | each bucket adds its hazard's share of what has survived; a hazard out of range counts as the nearer bound |
| `Hazards.EventsGiveBackOnsets` | ml/nidra/data/onset.py:78-135 | the event row read as hazards and accumulated gives back exactly the onset targets |
| `Hazards.CumulativeIsMonotone` | ml/nidra/data/onset.py:132-135 | any hazards whatever give a result in [0, 1] that never falls with the horizon |
| `Hazards.OnsetTargets` | ml/nidra/data/onset.py:78-88 | the column-wise loop fills the onset row of every origin |
| `Hazards.DiscreteHazardTargets` | ml/nidra/data/onset.py:117-129 | the bucket loop fills the event and at-risk rows of every origin |
| `Duplicates.DropDuplicates` | ml/nidra/data/normalize.py:155-170 | a kept feature survives exactly when it duplicates no earlier survivor; everything else is left as it was |
| `Duplicates.Compare` | ml/nidra/data/normalize.py:162-170 | one candidate is dropped, and its scaling reset, exactly when an earlier survivor duplicates it |
| `Duplicates.DuplicateIff` | ml/nidra/data/normalize.py:166-166 | correlation of either sign, by magnitude above 0.999 |
| `Duplicates.GreedyIsMaximalIndependent` | ml/nidra/data/normalize.py:155-170 | no two survivors are duplicates and no dropped feature could be put back |
| `Duplicates.GreedyIsUnique` | ml/nidra/data/normalize.py:155-156 | the correlations alone decide the survivors |

## Left out

- HTTP, authentication, SQL text, schema migrations, configuration loading, CSV and PCAP parsing, reports: input and output.
- Neural models, explanations, calibration, rollouts, bootstrap and random sampling: numerical code over libraries that are not part of this model.
- Floating-point rounding and non-finite values: sums, ratios, slopes and hazards are over the reals.
- Redis time-to-live and stream trimming: keys never expire (except a rate-limit bucket) and streams are never trimmed.
- Text codecs: timestamps, numbers, uuids and JSON lists in hashes are taken to read back exactly; only the field names of the window hashes are modelled as text.
- Tenants: the features worker and the inference buffers are keyed by tenant throughout, so one tenant is modelled; the per-tenant lock makes each public operation one step.
- Two consumers of the same host at once in the persister and the inference worker: runs are those of one consumer with crashes and redeliveries.
- Crashes of the features worker inside one event, and redelivery of raw events: each event and each tick is one step.
- The features of a row that are neither dynamics nor their sources: they are functions of the accumulator, graphs and peers each row records; the port entropy is an arbitrary function of the accumulator.
- neighbour_risk_fraction: online and offline use different thresholds for elevated fan-out, so there is no law between them; the edges it reads are covered by `WindowGraphs.GraphsAreExact`.
- ml/nidra/data/labels.py, scripts/analyze_pcap.py and api/ws.py: would add only easier members.
- Campaign grouping and completing phase (ml/nidra/eval/campaign_metrics.py:85-111): would add only easier members.
- Detectors.MissingWindowsOnlyHide: on series at least one window apart, as windowed tables are.
- BatchTimelines.StreamIsBatchIff: of the tracked values and their dynamics, which read the host's own part of the shared graph; that a row read exactly the whole tenant's graphs needs forward windows of the tenant, as in `WindowGraphs.GraphsAreExact`, and what it read otherwise is `WindowGraphs.RowsReadKeptGraphs`.
- EpisodeRows.OpenRowIsAggregate: not while an update is torn; then the row is one forecast ahead, as `EpisodeRows.TornRowIsAhead` says, until the host's next completed forecast.
- Consumers.Worker.Round: a stop event is seen at the looks the source takes; what a handler does between two looks is its outcome and nothing else.
- Tables.SortRows: rows equal in host and window keep their table order, an order the library's sort does not promise.
- Episodes.Confluence: up to episode ids, which are minted afresh on every attempt.
