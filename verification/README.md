# Verified model of the apowerb agent platform

apowerb serves chat agents whose definitions live in a database, forecasts for dashboards,
digests and alerts by mail, files in an object store, and a bug-report desk. This project
models the parts of it that hold state or carry an algorithm, and proves what they keep.

* **Runners** (`RunnerProtocol`, `AgentRuntimeSync`, `Fingerprint`). One worker caches agent
  runners while other workers change the database. Hand-outs, run starts and ends, grace
  timers, reloads, fingerprint reads and commits are atomic steps that interleave freely. A
  runner's close is started once, only when it is retired and idle, and none leaks; a request
  gets a runner at least as new as what it read, unless that runner was cached after an
  unreadable fingerprint. Versions are what fingerprints tell apart: a refresh of attached
  servers makes no new one. Fingerprints are computed by a search over a sub-agent graph that
  may be cyclic.
* **Agent definitions** (`RevisionHistory`, `AgentWrites`, `Propagation`, `PropagationWrites`).
  The agent table, its archive, what each write leaves in each column, and the recursion that
  pushes a key and a model down the sub-agents.
* **Forecast tracking** (`ForecastData`, `ForecastTracking`, `BreachExplanations`,
  `TrackingAnswers`, `TrackingFigures`, `ForecastSnapshotStore`, `DashboardFolding`,
  `DashboardTables`). Pairing actuals with the latest earlier snapshot, coverage, breaches and
  their run lengths, pruning and retention, and the tables of the forecast dashboard.
* **Digests and alerts** (`DigestSlots`, `KpiAlerts`). The next due time, the conditional
  update by which replicas reserve it, and the memory behind one alert per passage into bad.
* **Artifacts** (`KeyText`, `ArtifactStore`, `ArtifactCalls`, `ArtifactLibrary`,
  `LibraryEntries`, `FileLookup`). A versioned map kept in flat string keys, and two readers
  that parse the keys back in different ways.
* **Chat turns** (`ChatStream`, `ChatTurns`), **request logs** (`LogBuffer`, `LogBufferSteps`)
  and **bug reports** (`BugReports`, `BugReportSteps`).
* `Prelude` and `Sorting` hold what they share: optional values, outcomes, a stable sort.

Each module gives the state and the operations as functions on values, the program's loops and
objects as methods and classes proved equal to them, and the properties as lemmas over every
input or every run. Where a property does not hold of the code, the lemma states the condition
under which it does, and a lemma next to it gives the failing case.

For the main operations a second module (`AgentWrites`, `TrackingAnswers`, `ArtifactCalls`,
`ChatTurns` and so on) says what the operation answers and leaves behind in terms of its
arguments and of the stored fields alone, independently of the functions that compute it.

Where the code and its comments disagree, the model follows the code:

* `src/apowerb/artifacts/s3_artifact_service.py:304-312` says a listed name is recovered even
  when it contains a slash; it is recovered exactly when it does not
  (`ArtifactStore.ListedNameIffSlashFree`).
* `src/apowerb/bug_reports/log_buffer.py:127-129` keeps the end of the list; with a limit of
  zero it keeps the whole list (`LogBuffer.LimitBoundsIffPositive`).
* `src/apowerb/core/adk_runner.py:150-152` takes a long turn for a non-empty one; a long turn
  may show nothing (`ChatStream.LongBlankAnswerStaysBlank`, and exactly when in `ChatStream.TurnEndsBlankIff`).
* `src/apowerb/core/agent_runtime_sync.py:319-323` never serves a stale agent; it does when one
  was cached after its fingerprint could not be read, even once a later fingerprint is recorded
  for it (`RunnerProtocol.StaleRunnerIsRecordedAsCurrent`, and exactly when in
  `RunnerProtocol.FreshWhateverIsCommittedIffProtected`).
* `src/apowerb/core/agent_runtime_sync.py:217-223` takes the fingerprint for all a runner depends
  on in the agent table, every write archiving a revision; the cascade of
  `src/apowerb/routers/tools.py:489-494` writes the servers of an agent without one and without
  a new update time (`Fingerprint.RefreshGoesUnnoticed`, and exactly when it matters in
  `Fingerprint.EqualFingerprintsEqualDefinitionsIff`).
* `src/apowerb/artifacts/file_lookup.py:155-158` promises every file name an agent can be asked
  about; the exceptions are listed in `FileLookup.SuggestionsAndResolution`.

## Model

| member | source | states |
|---|---|---|
| RunnerProtocol.ClosedIffIdleAfterRetirement | src/apowerb/core/agent_runtime_sync.py:79-181 | over any sequence of run starts, ends, retirements and timer firings a live runner ends up closed if and only if, at some moment after its retirement, a run ended or the timer fired with nothing in flight |
| RunnerProtocol.LifecycleTheorem | src/apowerb/core/agent_runtime_sync.py:79-214 | in every interleaving on a worker a runner is closed at most once, a close starts only on a retired runner without runs, and a retired unclosed runner has a run or a timer left |
| RunnerProtocol.UnstartedHandoutCanMeetClosedRunner | src/apowerb/core/agent_runtime_sync.py:145-153 | the close at the end of a run has no grace: in a run of the worker two requests are handed one runner, it is retired with its timer set, the first run closes it with the timer still pending, and the second run starts on it closed |
| RunnerProtocol.ServeSafe | src/apowerb/core/agent_runtime_sync.py:326-365 | serving a request keeps every runner's bookkeeping sound and hands out only runners that are neither retired nor closed |
| RunnerProtocol.FreshnessTheorem | src/apowerb/core/agent_runtime_sync.py:332-365 | a request that read a version of an app is handed a runner built from that version or a newer one, whatever commits, reloads and other requests came in between, provided that app, since it last had no cached runner, was never cached after an unreadable fingerprint without a record |
| RunnerProtocol.StepBehind | src/apowerb/core/agent_runtime_sync.py:319-365 | in every run and after every step no record and no pending reading is ahead of the database |
| RunnerProtocol.StepKeepsRecorded | src/apowerb/core/agent_runtime_sync.py:334-364 | whatever happens to other apps, every step but one keeps the record of an app no newer than its cached runner |
| RunnerProtocol.FreshWhateverIsCommittedIffProtected | src/apowerb/core/agent_runtime_sync.py:334-364 | an app is served fresh after any further commits if and only if its cached runner has a record and, when that record is what the database says, the runner is as new |
| RunnerProtocol.StaleRunnerIsRecordedAsCurrent | src/apowerb/core/agent_runtime_sync.py:334-364 | a run of seven steps after which a runner of version 1 is recorded as version 2 and handed out unchanged to every request that reads version 2 |
| RunnerProtocol.GoneIsForgotten | src/apowerb/core/agent_runtime_sync.py:348-353 | a request for an agent found gone answers not found, leaves neither its runner nor its record, retires the runner that was cached with a run in flight, a timer pending or its close claimed, and leaves every other app alone |
| RunnerProtocol.KnownIsServed | src/apowerb/core/agent_runtime_sync.py:355-365 | a request that read a version is handed the cached runner while its record is that version; otherwise that runner is retired and one of the present database is built, handed out and recorded under the version read, or, when nothing can be built, nothing is recorded |
| RunnerProtocol.UnreadableIsServed | src/apowerb/core/agent_runtime_sync.py:332-345 | a request that could not read the version is handed the cached runner with nothing changed, or a new one that is not recorded |
| RunnerProtocol.EveryRunnerIsPlaced | src/apowerb/core/agent_runtime_sync.py:184-214 | in every run and after every step each runner is in the cache or retired |
| RunnerProtocol.GoneForGood | src/apowerb/core/agent_runtime_sync.py:348-353 | over any run, once a request was told that an agent is gone no later one is handed a runner built before |
| AgentRuntimeSync.AgentRunner.ClaimClose | src/apowerb/core/agent_runtime_sync.py:79-89 | only the first caller sets the close flag; the attributes change as in the protocol |
| AgentRuntimeSync.AgentRunner.CloseIfIdle | src/apowerb/core/agent_runtime_sync.py:109-113 | the timer closes an idle runner and leaves a busy one alone |
| AgentRuntimeSync.AgentRunner.Instrument | src/apowerb/core/agent_runtime_sync.py:129-159 | a runner is instrumented once; counters start at zero |
| AgentRuntimeSync.AgentRunner.BeginRun | src/apowerb/core/agent_runtime_sync.py:140-144 | a run start raises the counter |
| AgentRuntimeSync.AgentRunner.FinishRun | src/apowerb/core/agent_runtime_sync.py:145-153 | the last run of a retired runner closes it |
| AgentRuntimeSync.AgentRunner.Retire | src/apowerb/core/agent_runtime_sync.py:162-181 | a retired runner waits for its runs, or for its timer, or closes at once without a loop |
| AgentRuntimeSync.ApiServer.DropCachedAgent | src/apowerb/core/agent_runtime_sync.py:184-214 | the runner leaves the cache and is retired; nothing else changes |
| AgentRuntimeSync.ApiServer.GetFreshRunner | src/apowerb/core/agent_runtime_sync.py:332-365 | the object does the step of the protocol: outcome, cache, records and every runner as the laws of RunnerProtocol.GoneIsForgotten, KnownIsServed and UnreadableIsServed say |
| Fingerprint.AgentFingerprint | src/apowerb/core/agent_runtime_sync.py:217-258 | the search ends on any graph, answers none exactly for a missing agent, and otherwise gives one entry per reachable existing agent, sorted by id |
| Fingerprint.VisitLevel | src/apowerb/core/agent_runtime_sync.py:233-257 | one level of the search, in whatever order the rows come back |
| Fingerprint.FingerprintUnique | src/apowerb/core/agent_runtime_sync.py:258-258 | a database has one fingerprint per agent |
| Fingerprint.WriteMovesExactlyReachers | src/apowerb/core/agent_main.py:909-915 | a committed write of an agent changes the fingerprint of an agent if and only if that agent reaches the written one |
| Fingerprint.WriteIsProtocolCommit | src/apowerb/core/agent_runtime_sync.py:355-364 | the fingerprints a write moves are those of the apps the runner protocol's commit step gives a new version |
| Fingerprint.EqualFingerprintsEqualUpToRefreshes | src/apowerb/core/agent_runtime_sync.py:217-258 | over any commits, refreshes of servers included, equal fingerprints mean that the same agents are reached and that each stored definition is the embedded one after the refreshes since |
| Fingerprint.EqualFingerprintsEqualDefinitionsIff | src/apowerb/core/agent_runtime_sync.py:217-258 | with equal fingerprints every definition embedded is still the stored one if and only if the refreshes since left the servers of every agent reached as they were; every other column agrees in any case |
| Fingerprint.RefreshMovesNoFingerprint | src/apowerb/routers/tools.py:489-494 | a refresh of servers changes no fingerprint |
| Fingerprint.RefreshLeavesRunnerInService | src/apowerb/core/agent_runtime_sync.py:230-258 | so a request after a refresh finds the recorded version and is handed the runner built before it |
| Fingerprint.RefreshGoesUnnoticed | src/apowerb/routers/tools.py:468-497 | one refresh of an agent with one server: the same fingerprint, another definition |
| Fingerprint.CascadeIsRefresh | src/apowerb/routers/tools.py:457-497 | what the cascade of server configurations writes is such a refresh |
| Fingerprint.AcceptedWritesMoveFingerprints | src/apowerb/core/agent_main.py:289-295 | every update, resync or restore the store accepts changes the fingerprints of all agents that reach the one it writes, even within one second |
| Fingerprint.ReachedIsStoredBelow | src/apowerb/core/agent_runtime_sync.py:233-257 | the search reaches exactly the stored agents that some chain of stored sub-agent lists leads down to |
| Fingerprint.FingerprintShowsTheStore | src/apowerb/core/agent_runtime_sync.py:230-258 | read from the stored rows, a fingerprint lists each agent below once, in ascending order, with its stored update time and the last revision archived for it |
| Fingerprint.WritesMoveThoseAbove | src/apowerb/core/agent_main.py:289-295 | an accepted write moves the fingerprint of every agent whose stored sub-agent lists lead down to the one written |
| RevisionHistory.ArchiveIsTheHistory | src/apowerb/core/agent_main.py:683-702 | over any run the archived rows of an agent in revision order followed by its current row are the definitions it ever had, in order, but for exactly those a refresh of servers overwrote; a deletion loses the last one too |
| RevisionHistory.ArchiveIsWholeIffNeverRefreshed | src/apowerb/core/agent_main.py:683-702 | archive and current row hold every definition if and only if no refresh ever overwrote one |
| RevisionHistory.RefreshLosesADefinition | src/apowerb/routers/tools.py:489-494 | an agent registered and refreshed has had two definitions and an empty archive |
| RevisionHistory.RefreshSettles | src/apowerb/routers/tools.py:468-487 | a refresh touches one column at most, and refreshing again with the same configurations changes nothing |
| RevisionHistory.StepExtends | src/apowerb/core/agent_main.py:775-783 | one operation archives exactly the row it overwrites and touches no other agent, except a refresh of servers, which archives nothing and changes that one column |
| RevisionHistory.IdentityColumns | src/apowerb/core/agent_main.py:639-645 | no operation changes an agent's id or creation date, and only an update can change its owner, organization or project |
| RevisionHistory.UndoRestore | src/apowerb/core/agent_main.py:739-783 | restoring the revision a restore just created always succeeds and gives back the row except its update time |
| RevisionHistory.UndoUpdate | src/apowerb/core/agent_main.py:739-801 | restoring the revision an update just created succeeds if and only if the update left the owner alone, and gives back everything but update time, organization and project |
| RevisionHistory.SilenceNeverClears | src/apowerb/core/agent_main.py:816-855 | a protected field changes only when the client names it or it was empty |
| RevisionHistory.ResyncKeepsConfiguredTools | src/apowerb/core/agent_main.py:254-279 | a resync keeps the user's configured tools in order and touches only the template's columns |
| RevisionHistory.AgentStore.UpdateAgent | src/apowerb/core/agent_main.py:804-920 | the update as one step of the store, 403 with nothing changed included; AgentWrites.UpdateStoresWhatWasSent says what each column then holds |
| RevisionHistory.AgentStore.ResyncAgentToTemplate | src/apowerb/core/agent_main.py:217-295 | the 404 and 400 refusals, or archive and overwrite |
| RevisionHistory.AgentStore.RestoreAgentRevision | src/apowerb/core/agent_main.py:739-783 | the two 404 refusals, or archive and overwrite |
| RevisionHistory.AgentStore.CascadeUpdateMcpServers | src/apowerb/routers/tools.py:457-499 | every row that holds a refreshed configuration is rewritten, nothing else changes, and the count is the number of rows that changed |
| RevisionHistory.AgentStore.FetchAgentRow | src/apowerb/core/agent_main.py:667-680 | the row exactly when it exists and belongs to the user |
| RevisionHistory.AgentStore.ArchiveRevision | src/apowerb/core/agent_main.py:683-702 | one revision is appended with the row as payload |
| RevisionHistory.AgentStore.RegisterAgent | src/apowerb/core/agent_main.py:111-164 | a new agent takes the next id |
| RevisionHistory.AgentStore.DeleteAgent | src/apowerb/core/agent_main.py:973-980 | only the owner's own row is deleted |
| AgentWrites.UpdateStoresWhatWasSent | src/apowerb/core/agent_main.py:804-920 | the owner's update stores in each column what the client sent, but for its own time, five columns left alone, four lists stored in one form, a switch not set and six fields neither named nor empty; it archives the row replaced and touches nothing else; anyone else is refused |
| AgentWrites.SendingBackChangesNothing | src/apowerb/core/agent_main.py:814-905 | sending back the row that was read changes its update time and the form of four lists, nothing else |
| AgentWrites.ResyncStoresTheTemplate | src/apowerb/core/agent_main.py:229-295 | a resync stores the template's columns, its hash, and its tools after the agent's own configured ones; the three refusals, and a resync by anyone else, change nothing |
| AgentWrites.RestoreStoresTheRevision | src/apowerb/core/agent_main.py:745-801 | a restore puts back every archived column but the five of identity and the time; both refusals change nothing |
| AgentWrites.RegisterAndDelete | src/apowerb/core/agent_main.py:84-164 | a registration adds one row under the next id; a deletion removes one row, of its owner only; neither touches the archive |
| AgentWrites.RefreshRecopiesServers | src/apowerb/routers/tools.py:468-494 | a refresh copies the fresh fields over those of each server of a changed configuration, keeping its other fields, and touches no other server or column |
| Propagation.PropagateApiKey | src/apowerb/core/agent_main.py:501-636 | the agents propagated to are those visited going down, and the store is what updating them in that order gives |
| Propagation.EndsIffNoCycle | src/apowerb/core/agent_main.py:631-634 | the recursion has a bounded depth if and only if no cycle is within reach; otherwise calls nest to every depth |
| Propagation.VisitsFollowWays | src/apowerb/core/agent_main.py:524-636 | the visits are, one for one, the ways down the graph |
| Propagation.WaysDistinct | src/apowerb/core/agent_main.py:524-636 | no way down is counted twice |
| Propagation.EveryWayIsVisited | src/apowerb/core/agent_main.py:524-636 | no way down is missed, so the count is their number |
| Propagation.VisitedIffReachable | src/apowerb/core/agent_main.py:524-634 | an agent is visited exactly when a way leads down to it, and the starting one never is |
| Propagation.RewritesExactlyTheReachable | src/apowerb/core/agent_main.py:596-634 | the owned agents below have the model and the key, every other agent and every edge is unchanged, and one row is archived per visit |
| Propagation.UpdateOneKeepsTheRest | src/apowerb/core/agent_main.py:596-628 | the update sent for a sub-agent stores everything but model, parameters and update time again, so that a missing list of tools or sub-agents becomes empty and an empty list of tags or skills missing |
| PropagationWrites.FollowsStoredRows | src/apowerb/core/agent_main.py:511-527 | the recursion goes from an owned stored agent to the ids its row lists, in their order |
| PropagationWrites.PropagationWritesColumns | src/apowerb/core/agent_main.py:529-628 | every agent a way leads down to has, column by column, the time, the model, the key, the base address if one is given, and otherwise what it had; the starting agent and all others keep their rows |
| ForecastData.Chosen | src/apowerb/bi/forecast_tracking.py:363-366 | the snapshot chosen for a date ends before it and none that does ends later |
| ForecastTracking.ComputeTracking | src/apowerb/bi/forecast_tracking.py:323-458 | the loops compute the answer that TrackingAnswers.BreachRecords, TrackingFigures.TrackingFiguresAre and TrackingFigures.TrackingAdjustments describe, or fail with an index error |
| ForecastTracking.TrackingFailsIffNoLevel | src/apowerb/bi/forecast_tracking.py:408-408 | the answer fails if and only if there are compared points and none carries a complete band |
| ForecastTracking.BareForecastFails | src/apowerb/bi/forecast_tracking.py:408-408 | it does fail on one past forecast without a band and one actual value of its day |
| ForecastTracking.TrackingIgnoresPruning | src/apowerb/bi/forecast_tracking.py:116-148 | tracking from pruned payloads equals tracking from the full ones, failure included |
| ForecastTracking.FeedbackIgnoresPruning | src/apowerb/bi/forecast_tracking.py:74-148 | feedback from pruned payloads equals feedback from the full ones |
| ForecastTracking.BuildFeedback | src/apowerb/bi/forecast_tracking.py:74-113 | the loops compute the feedback: per series the points of the latest earlier snapshot, the last 60 dates |
| ForecastTracking.FeedbackIsTheLatestDue | src/apowerb/bi/forecast_tracking.py:74-113 | what is relayed of a series is sixty points at most with strictly ascending dates, each the latest earlier snapshot's, and a date is left out only when sixty later ones are there |
| ForecastTracking.DueSeriesAreFedBack | src/apowerb/bi/forecast_tracking.py:92-113 | every series with a date to relay is relayed |
| ForecastTracking.FindComparisons | src/apowerb/bi/forecast_tracking.py:350-370 | the comparable points, series by series |
| ForecastTracking.ComputeCoverage | src/apowerb/bi/forecast_tracking.py:377-386 | hits over scoreable points, per level |
| ForecastTracking.FindBreaches | src/apowerb/bi/forecast_tracking.py:404-432 | the loop lists the breaches that TrackingAnswers.BreachRecords describes |
| ForecastTracking.CoverageAgreesWithBreaches | src/apowerb/bi/forecast_tracking.py:377-432 | with all levels present and nested bands, hits do not decrease with the level and breaches are points minus hits of the narrowest |
| ForecastTracking.BreachesAreOutsideEither | src/apowerb/bi/forecast_tracking.py:409-419 | without nesting, a point breaches exactly when it leaves the widest or the narrowest band |
| TrackingAnswers.PointForIsRead | src/apowerb/bi/forecast_tracking.py:155-165 | what is compared at a date is the first point of that date, in the first series of that key that has one, of the first of the latest earlier snapshots of the configuration |
| TrackingAnswers.ComparedPoints | src/apowerb/bi/forecast_tracking.py:350-370 | the compared points are exactly the dated numbers of the histories for which a number was forecast, each once and in order |
| TrackingAnswers.BreachRecords | src/apowerb/bi/forecast_tracking.py:404-447 | before the cut there is one record for each compared point that leaves its widest or its narrowest band, with that point's key, date, values and band at the level left, above exactly when the actual exceeds it; the answer shows them latest first, those of one date as listed, twenty at most |
| TrackingAnswers.EveryBreachShown | src/apowerb/bi/forecast_tracking.py:404-453 | each breach of an answer is such a record, with a positive magnitude when the forecast value lies inside its band; no point that leaves a band goes unrecorded, and none left out is later than one shown |
| TrackingAnswers.ExplanationSays | src/apowerb/bi/forecast_tracking.py:294-320 | an explanation names the first event that covers the date for the group, measures how far beyond the half band the actual lies, and is a common shock exactly when two other series breach alike that day without an event, a level shift exactly when neither holds and the run is longer than one |
| TrackingFigures.TrackingFiguresAre | src/apowerb/bi/forecast_tracking.py:372-455 | points, earliest date, coverage of each level, error ratio and the flag of the latest date, each in terms of the points compared |
| TrackingFigures.LevelCovered | src/apowerb/bi/forecast_tracking.py:377-386 | a level is covered by the share of its scoreable points that lie inside, and is absent without any |
| TrackingFigures.MaseIsMeanRatio | src/apowerb/bi/forecast_tracking.py:388-402 | the error ratio is the mean, over the compared series whose history moves, of mean error over mean step, and none without such a series |
| TrackingFigures.LatestInBreach | src/apowerb/bi/forecast_tracking.py:443-444 | the flag is set exactly when some point of the latest date leaves its widest or narrowest band |
| TrackingFigures.AllContrasts | src/apowerb/bi/forecast_tracking.py:192-205 | each scenario of each matching series of the snapshot read gives one contrast of actual, base and scenario values, when it has a number at that date |
| TrackingFigures.TrackingAdjustments | src/apowerb/bi/forecast_tracking.py:184-221 | one adjustment per scenario name, in the order of first occurrence, with the number of its contrasts and the mean distances without and with the scenario |
| BreachExplanations.AnnotateExplanations | src/apowerb/bi/forecast_tracking.py:263-320 | every breach is completed in place with its explanation |
| BreachExplanations.RunLengths | src/apowerb/bi/forecast_tracking.py:278-288 | the run counter of one series |
| BreachExplanations.ConsecutiveIsBlockLength | src/apowerb/bi/forecast_tracking.py:277-288 | with distinct dates the run length is the size of the maximal same-direction block ending at that breach |
| BreachExplanations.ExplanationIgnoresListingOrder | src/apowerb/bi/forecast_tracking.py:294-320 | a breach's explanation does not depend on the order in which breaches are listed |
| ForecastSnapshotStore.SnapshotStore.Upsert | src/apowerb/bi/forecast_snapshot_store.py:35-72 | one row per key, its creation date kept, then retention |
| ForecastSnapshotStore.PutRowStores | src/apowerb/bi/forecast_snapshot_store.py:35-66 | a stored snapshot replaces every field under its own key but the creation date, and leaves all other rows alone |
| ForecastSnapshotStore.SnapshotStore.EnforceRetention | src/apowerb/bi/forecast_snapshot_store.py:74-89 | the first rows of some order by history end and creation stay; other charts are untouched |
| ForecastSnapshotStore.SnapshotStore.ListForChart | src/apowerb/bi/forecast_snapshot_store.py:31-33 | exactly the chart's snapshots, in no particular order |
| ForecastSnapshotStore.RunKeepsLatest | src/apowerb/bi/forecast_snapshot_store.py:74-89 | over any run a chart keeps at most 60 rows, lacks one only when full, and what it lacks is no later than what it keeps |
| ForecastSnapshotStore.RetentionNeverChangesTheChoice | src/apowerb/bi/forecast_snapshot_store.py:74-89 | for any configuration and date the retained store chooses the snapshot an unlimited store would, or none |
| ForecastSnapshotStore.RetentionOnlyDropsPoints | src/apowerb/bi/forecast_tracking.py:362-370 | so retention only ever removes compared points |
| ForecastSnapshotStore.RetentionRelaysTheSame | src/apowerb/bi/forecast_tracking.py:74-113 | over any run each point a retained store relays is the one an unlimited store gives for that date, and is among those relayed there unless these are sixty later ones |
| DashboardFolding.CellIsItsContribution | src/apowerb/bi/forecast_dashboard.py:110-118 | a cell is the sum of the values of its day over the series shown in its column |
| DashboardFolding.FoldingConservesTotals | src/apowerb/bi/forecast_dashboard.py:56-122 | the series rows, the shares and all period cells each add up to everything the leaf series forecast |
| DashboardFolding.BarsMatchShares | src/apowerb/bi/forecast_dashboard.py:94-122 | column by column, the periods add up to the share shown under that name, others included |
| DashboardFolding.EveryPeriodHasTheColumns | src/apowerb/bi/forecast_dashboard.py:104-122 | every period shows the same columns, at most eight |
| DashboardFolding.AtMostEightShares | src/apowerb/bi/forecast_dashboard.py:94-101 | with distinct names at most eight shares are shown |
| DashboardFolding.AtMostEightSharesIff | src/apowerb/bi/forecast_dashboard.py:86-101 | at most eight shares are shown if and only if there are at most eight rows, or no row below the seventh repeats a kept name, or just one does and the others add up to nothing |
| DashboardFolding.SameNamesAreAllShown | src/apowerb/bi/forecast_dashboard.py:96-98 | series that share one name are all shown, however many |
| DashboardFolding.FoldedAreTheSmallest | src/apowerb/bi/forecast_dashboard.py:82-101 | no folded row is larger than a row that earned its own column; with distinct names, than any row shown under its own name |
| DashboardFolding.PeriodNameHidesItsColumn | src/apowerb/bi/forecast_dashboard.py:119-154 | a series named like the period column drops out of the period's sum |
| DashboardFolding.BuildSeriesTable | src/apowerb/bi/forecast_dashboard.py:56-83 | one row per series with values, largest first |
| DashboardFolding.RowShowsExtremes | src/apowerb/bi/forecast_dashboard.py:63-81 | a row's smallest and largest values bound all others and are reached, and its peak is the first day of the largest |
| DashboardFolding.BuildPeriodTable | src/apowerb/bi/forecast_dashboard.py:104-122 | the nested loops build the grid, listed by day |
| DashboardFolding.Headline | src/apowerb/bi/forecast_dashboard.py:143-164 | the total, the change over the rows that have a last year, the number of reliable rows and of rows, and the first period whose sum no other exceeds |
| DashboardTables.LeavesAre | src/apowerb/bi/forecast_dashboard.py:48-53 | the series shown are those with a forecast that are no aggregate, or all with a forecast when every one is |
| DashboardTables.SeriesTableSays | src/apowerb/bi/forecast_dashboard.py:56-83 | one row for each of them with a value: its label, its sum, what came with it, its extremes and first peak day; the largest total first |
| DashboardTables.HeadlineAdds | src/apowerb/bi/forecast_dashboard.py:143-164 | the sums of the headline add up row by row, those against last year over the rows that have such a total |
| DashboardTables.ChangeComparesAlike | src/apowerb/bi/forecast_dashboard.py:143-164 | the change compares the totals of the same rows this year and last, and is none when those of last year add up to nothing |
| DashboardTables.HeadlineCounts | src/apowerb/bi/forecast_dashboard.py:143-164 | the reliable count is the number of rows marked so |
| DigestSlots.NextRunIsTheFirstSlotAfter | src/apowerb/bi/dashboard_digest.py:61-73 | the next due time is the least instant strictly later with the wanted hour and weekday |
| DigestSlots.ClaimAdvances | src/apowerb/bi/dashboard_digest.py:366-379 | a successful claim moves the pair of due times strictly forward |
| DigestSlots.DueAgainIffAlertsTurnedOnMeanwhile | src/apowerb/bi/dashboard_digest.py:352-379 | a claimed row is due again at that moment if and only if its alerts were turned on between read and claim with a check already due |
| DigestSlots.DigestClaimedOnce | src/apowerb/bi/dashboard_digest.py:345-388 | in every interleaving two claims of one digest time are separated by an edit made with a clock behind that time |
| DigestSlots.EditPutsBackIff | src/apowerb/bi/dashboard_digest.py:194-211 | an edit puts a claimed due time back if and only if a slot of the new settings lies after the editor's clock and not after that time |
| DigestSlots.EditWithOldClockRepeatsDigest | src/apowerb/bi/dashboard_digest.py:194-211 | a run in which one digest time is claimed twice, an edit with an old clock between |
| DigestSlots.PairClaimedOnce | src/apowerb/bi/dashboard_digest.py:374-381 | whatever the clocks, one replica at most wins a pair of due times until the row is edited |
| DigestSlots.DigestStore.Upsert | src/apowerb/bi/dashboard_digest.py:178-214 | what creating or editing a subscription schedules |
| DigestSlots.DigestStore.TryClaim | src/apowerb/bi/dashboard_digest.py:366-381 | the conditional update and its row count |
| DigestSlots.DigestStore.TickOnce | src/apowerb/bi/dashboard_digest.py:345-388 | a tick alone claims each due row once and leaves nothing due |
| DigestSlots.WritingASubscription | src/apowerb/bi/dashboard_digest.py:178-214 | a subscription keeps its settings, the weekday only when weekly; its digest is due at the first wanted instant after now, its check six hours from now when it is created or its alerts are turned on and as before otherwise |
| DigestSlots.ClaimingARow | src/apowerb/bi/dashboard_digest.py:352-381 | a claim changes no other row and no setting; when the due times are those read, a due digest moves to its next wanted instant by the settings read, and the check six hours on if alerts were on and either was due |
| KpiAlerts.MemoryIsLastKnownBad | src/apowerb/bi/dashboard_digest.py:275-283 | over any passes and edits the stored set is the indicators whose last known status, while on the dashboard and under alert, was bad |
| KpiAlerts.AlertedIffPassageIntoBad | src/apowerb/bi/dashboard_digest.py:276-283 | an indicator is reported exactly when a pass finds it bad and its last known status was not |
| KpiAlerts.AlertsAreSeparated | src/apowerb/bi/dashboard_digest.py:203-205 | between two alerts lies a good or warn pass, a removal, or alerts turned on again |
| KpiAlerts.Extract | src/apowerb/bi/dashboard_digest.py:87-104 | which components give an indicator line and which a text, each in dashboard order |
| KpiAlerts.ExtractedInOrder | src/apowerb/bi/dashboard_digest.py:87-104 | one line for each computed indicator with a definition and one text for each written text, in dashboard order, and nothing else |
| KpiAlerts.Subscription.Process | src/apowerb/bi/dashboard_digest.py:257-283 | the memory a pass writes and the indicators it reports; a missing dashboard changes nothing |
| KpiAlerts.Subscription.Upsert | src/apowerb/bi/dashboard_digest.py:202-213 | turning alerts on again empties the memory |
| KeyText.SplitJoin | src/apowerb/artifacts/s3_artifact_service.py:223-224 | splitting a key gives back the slash-free parts it was joined from |
| KeyText.JoinSplit | src/apowerb/artifacts/s3_artifact_service.py:316-319 | joining the parts of any key gives it back |
| KeyText.UnderPrefix | src/apowerb/artifacts/s3_artifact_service.py:314-316 | a key is listed under a prefix if and only if its first parts are those of the prefix |
| KeyText.ParsePrint | src/apowerb/artifacts/s3_artifact_service.py:354-356 | reading a printed version number gives it back |
| ArtifactStore.VersionedMap | src/apowerb/artifacts/s3_artifact_service.py:228-288 | after any run of saves and deletes a slot's versions number what was saved since its last delete, each loads as saved, and the latest load is the last save unless that was empty |
| ArtifactStore.ListedNames | src/apowerb/artifacts/s3_artifact_service.py:290-320 | a name is listed in a scope exactly when something was saved there since the last delete |
| ArtifactStore.SaveAppends | src/apowerb/artifacts/s3_artifact_service.py:238-262 | a save takes version zero or the next one and overwrites no object |
| ArtifactStore.LoadReadsBack | src/apowerb/artifacts/s3_artifact_service.py:264-288 | a load gives what was saved, an empty content reading as nothing |
| ArtifactStore.DeleteRemoves | src/apowerb/artifacts/s3_artifact_service.py:322-332 | a delete clears one artifact and touches no other, nor any object outside the root |
| ArtifactStore.KeyInjective | src/apowerb/artifacts/s3_artifact_service.py:198-224 | two artifacts, input and output included, never share a key |
| ArtifactStore.ListedNameIffSlashFree | src/apowerb/artifacts/s3_artifact_service.py:303-320 | the listed name is the saved name if and only if it has no slash |
| ArtifactStore.UploadsNamedForUsersAreNeverListed | src/apowerb/artifacts/s3_artifact_service.py:541-543 | an upload named with the user prefix never appears in a session's listing |
| ArtifactStore.S3ArtifactService.ListVersions | src/apowerb/artifacts/s3_artifact_service.py:334-357 | the numeric heads under the prefix, in ascending order |
| ArtifactStore.S3ArtifactService.FilenamesUnder | src/apowerb/artifacts/s3_artifact_service.py:303-320 | the names parsed from a listing |
| ArtifactStore.S3ArtifactService.SaveArtifact | src/apowerb/artifacts/s3_artifact_service.py:228-262 | the answer and the bucket of a save call; ArtifactCalls.SavedUnder says under which key it stores what |
| ArtifactStore.S3ArtifactService.LoadArtifact | src/apowerb/artifacts/s3_artifact_service.py:264-288 | the refusal without a session, or the body of a version or of the latest, or none |
| ArtifactStore.S3ArtifactService.ListArtifactKeys | src/apowerb/artifacts/s3_artifact_service.py:290-301 | the names of the session and those shared by the user, sorted |
| ArtifactStore.S3ArtifactService.DeleteArtifact | src/apowerb/artifacts/s3_artifact_service.py:322-332 | every object below a listed version is removed |
| ArtifactStore.S3ArtifactService.SaveInputArtifact | src/apowerb/artifacts/s3_artifact_service.py:492-510 | the answer and the bucket of an upload call; ArtifactCalls.UploadedUnder says under which key |
| ArtifactStore.S3ArtifactService.LoadInputArtifact | src/apowerb/artifacts/s3_artifact_service.py:512-539 | the same loads on the input side, with the number of the version loaded |
| ArtifactStore.S3ArtifactService.ListInputArtifactFilenames | src/apowerb/artifacts/s3_artifact_service.py:541-543 | the names of a session's uploads, sorted |
| ArtifactCalls.SavedUnder | src/apowerb/artifacts/s3_artifact_service.py:198-262 | a save is refused and stores nothing, or adds the one key made of artifacts, the app, the session (for a shared name: user and that user), output, the name, the next version and the name |
| ArtifactCalls.UploadedUnder | src/apowerb/artifacts/s3_artifact_service.py:492-510 | an upload adds the one key made the same way below input, a shared name belonging to no user |
| ArtifactCalls.OutputsReadBack | src/apowerb/artifacts/s3_artifact_service.py:264-288 | after any run of calls a load answers with what was saved under that name by that user (shared) or in that session since its last delete, and the next save with its number |
| ArtifactCalls.UploadsReadBack | src/apowerb/artifacts/s3_artifact_service.py:512-539 | the same for uploads, with the number of the version read |
| ArtifactCalls.OutputsListed | src/apowerb/artifacts/s3_artifact_service.py:290-301 | a name is listed exactly when such a save is left, in the session given or shared by the user |
| ArtifactCalls.UploadsListed | src/apowerb/artifacts/s3_artifact_service.py:541-543 | a session's uploads are listed exactly under the names uploaded to it that are not shared |
| ArtifactCalls.SidesDoNotInterfere | src/apowerb/artifacts/s3_artifact_service.py:198-212 | over any run, loads and listings of outputs are what they would be without the uploads, and those of uploads what they would be without saves and deletes |
| ArtifactLibrary.ParseStoredKey | src/apowerb/artifacts/library.py:71-88 | a stored session key is read back as agent, session, kind, name and version; a user's shared key is skipped |
| ArtifactLibrary.OneEntryPerArtifact | src/apowerb/artifacts/library.py:57-94 | an owned artifact has an entry exactly when a key of it is listed, and the entry holds its greatest version |
| ArtifactLibrary.NothingShownTwice | src/apowerb/artifacts/library.py:119-139 | no two entries show the same artifact |
| ArtifactLibrary.OlderFilesRepeatNoArtifact | src/apowerb/artifacts/library.py:97-116 | no older file repeats the name of an artifact of its agent |
| ArtifactLibrary.ListingOrderDoesNotMatter | src/apowerb/artifacts/library.py:89-92 | artifacts and versions do not depend on the listing order |
| ArtifactLibrary.LibraryShowsTheLastSave | src/apowerb/artifacts/library.py:57-94 | after any run of the store an owned session artifact is shown exactly when something is saved in it, with the version of the last save |
| ArtifactLibrary.ArtifactEntries | src/apowerb/artifacts/library.py:57-94 | the one pass over the listing |
| ArtifactLibrary.BuildLibrary | src/apowerb/artifacts/library.py:119-139 | artifacts, then older files, named and sorted newest first |
| LibraryEntries.EveryEntrySays | src/apowerb/artifacts/library.py:40-139 | each entry is a listed key of its artifact with the greatest version, or of its older file, with that line's date and size and its agent's name |
| LibraryEntries.NothingLeftOut | src/apowerb/artifacts/library.py:57-116 | every artifact of an agent asked for is shown, and every older file no artifact of its agent is named like |
| LibraryEntries.NewestFirst | src/apowerb/artifacts/library.py:138-139 | the library is shown newest first, an entry without a date counting as oldest |
| FileLookup.MatchStoredKey | src/apowerb/artifacts/file_lookup.py:58-74 | on stored keys the marker search finds exactly the keys of that name, with their segment and version, for any name asked |
| FileLookup.LatestIsNewest | src/apowerb/artifacts/file_lookup.py:71-76 | the copy kept per segment is the newest, the version deciding only between equal dates |
| FileLookup.LatestBySegment | src/apowerb/artifacts/file_lookup.py:40-76 | the two nested loops |
| FileLookup.ReadFileAndNames | src/apowerb/artifacts/file_lookup.py:132-152 | on a fixed bucket one listing of each prefix gives what reading the file and then asking for the names give, each with listings of their own |
| FileLookup.ResolveFileKey | src/apowerb/artifacts/file_lookup.py:117-124 | inputs before outputs before the older layout, whose file is looked for by listing its own key |
| FileLookup.ResolvesToTheLatest | src/apowerb/artifacts/file_lookup.py:40-129 | a name resolves to the latest upload of that name, else the latest output, else the older file, and what is read is what the bucket holds there |
| FileLookup.ListsIffHeld | src/apowerb/storage/s3.py:85-99 | listing a key as its own prefix, or any shorter prefix of it, shows it if and only if the bucket holds that very key |
| FileLookup.AvailableFilenames | src/apowerb/artifacts/file_lookup.py:155-161 | the names of the two layouts, in order |
| FileLookup.SuggestionsAndResolution | src/apowerb/artifacts/file_lookup.py:92-161 | every suggested name resolves; a name resolves without being suggested if and only if no session holds it and either only users share it, or it is an older file whose name is empty or slashed |
| FileLookup.SuggestionsAreTheLibrary | src/apowerb/artifacts/file_lookup.py:92-100 | the suggested artifact names are those of the library and, if stored, the empty name |
| FileLookup.SharedFilesAreFoundButNotSuggested | src/apowerb/artifacts/file_lookup.py:92-100 | a user's shared file is found by name and never suggested |
| ChatStream.TurnIsBounded | src/apowerb/core/adk_runner.py:428-511 | at most three requests plus the re-draws, two notices and two waits of 61 seconds |
| ChatStream.TurnEndsAs | src/apowerb/core/adk_runner.py:428-511 | a guarded turn ends with a visible text, a rate-limit error, an overflowing text, the fallback, or an undecidable one |
| ChatTurns.TurnConsistsOf | src/apowerb/core/adk_runner.py:428-511 | a turn is some attempts that each forward what came before a rate limit, announce the delay asked for (thirty seconds if none) once and wait it out once with a second more, then the attempt that ends it as EndsTurn says |
| ChatTurns.RedrawRedraws | src/apowerb/core/adk_runner.py:270-304 | the re-draws of a blank answer forward what comes, all but the last coming to nothing; the last ends the turn, or the fallback does after as many as allowed |
| ChatTurns.VerdictJudges | src/apowerb/core/adk_runner.py:181-227 | the first line that shows something or throws decides, and a text without one is blank |
| ChatStream.FallbackIffAllBlank | src/apowerb/core/adk_runner.py:270-304 | the fallback is sent exactly when every re-draw ran to its end with nothing to show |
| ChatStream.TurnEndsBlankIff | src/apowerb/core/adk_runner.py:270-304 | the final attempt of a turn shows nothing, without an error or a fallback, if and only if its first answer no limit cuts off shows nothing and either the guard is off, or it overflows the buffer, or some re-draw overflows showing nothing after only short blank ones |
| ChatStream.LongBlankAnswerStaysBlank | src/apowerb/core/adk_runner.py:478-483 | with the guard on a turn does end blank: after a long first answer, or after a short blank one whose re-draw is long |
| ChatStream.BlankIffNothingShows | src/apowerb/core/adk_runner.py:181-227 | a text is blank exactly when no line shows anything or throws |
| ChatStream.StreamIsEmpty | src/apowerb/core/adk_runner.py:181-227 | the line loop gives the verdict of the first deciding line |
| ChatStream.HandlePossiblyEmptyTurn | src/apowerb/core/adk_runner.py:237-304 | what is sent after a first answer |
| ChatStream.StreamAdkAgent | src/apowerb/core/adk_runner.py:379-511 | the whole turn as a list of requests, forwarded chunks, notices and waits |
| LogBuffer.HoldsTheMostRecent | src/apowerb/bug_reports/log_buffer.py:78-107 | with a clock that never goes back the buffer holds exactly the most recently touched unexpired ids, in order, with their stamps |
| LogBuffer.HoldsTheMostRecentIff | src/apowerb/bug_reports/log_buffer.py:78-107 | under any clock, after a touch the buffer holds the most recently touched unexpired ids if and only if each of them but the touched one was still held before |
| LogBuffer.HoldsTheMostRecentUnderAnyClock | src/apowerb/bug_reports/log_buffer.py:78-107 | so it does whenever each of them has been one of them ever since its last touch |
| LogBuffer.GetIsTheLastLinesSinceAbsent | src/apowerb/bug_reports/log_buffer.py:111-114 | reading an id gives the last lines filed under it since it was last absent |
| LogBuffer.RunWellFormed | src/apowerb/bug_reports/log_buffer.py:60-107 | whatever the clock, both dictionaries share their keys and all bounds hold |
| LogBuffer.ClockSteppingBackLosesAnId | src/apowerb/bug_reports/log_buffer.py:92-107 | a touch at a late time evicts an id that has not expired at the time the clock goes back to |
| LogBuffer.ClockSteppingBackBreaksRecency | src/apowerb/bug_reports/log_buffer.py:92-107 | so after three touches, the clock back, the buffer holds one id although two are among the most recently touched unexpired ones |
| LogBuffer.CollectKeepsTheEnd | src/apowerb/bug_reports/log_buffer.py:116-130 | with a limit of at least one, the result is the end of the time-sorted lines |
| LogBuffer.LimitBoundsIffPositive | src/apowerb/bug_reports/log_buffer.py:127-129 | the limit bounds the result if and only if it is at least one or there is nothing above its opposite |
| LogBuffer.RequestLogBuffer.Add | src/apowerb/bug_reports/log_buffer.py:78-90 | one line filed, its id moved to the end, then eviction |
| LogBuffer.RequestLogBuffer.EvictLocked | src/apowerb/bug_reports/log_buffer.py:92-107 | expired ids leave first, then the oldest beyond the limit |
| LogBuffer.RequestLogBuffer.Collect | src/apowerb/bug_reports/log_buffer.py:116-130 | gathered, sorted and cut |
| LogBuffer.RequestLogBuffer.Clear | src/apowerb/bug_reports/log_buffer.py:132-135 | nothing is left |
| LogBufferSteps.AddKeeps | src/apowerb/bug_reports/log_buffer.py:78-107 | filing a line keeps exactly the ids that are fresh with fewer fresh ones touched later than the limit, each with the time of its last touch and its lines, the new one last and the oldest dropped first |
| LogBufferSteps.AddOrders | src/apowerb/bug_reports/log_buffer.py:86-90 | and keeps them in the order of their last touch |
| LogBufferSteps.GatheredOneMore | src/apowerb/bug_reports/log_buffer.py:122-125 | the lines of the ids are gathered id by id, each with its id |
| LogBufferSteps.CollectedInTime | src/apowerb/bug_reports/log_buffer.py:116-130 | with a limit of at least one the lines are in the order of time, at most as many, and none left out is later |
| BugReports.OccurrencesCountFollowers | src/apowerb/bug_reports/service.py:241-245 | over any run a report's occurrences are one plus its followers, and a report only follows one that follows nothing |
| BugReports.StepKeepsOneLiveIff | src/apowerb/bug_reports/service.py:178-191 | a step keeps at most one live report per fingerprint if and only if it does not bring a finished one back beside a live one |
| BugReports.OneLivePerFingerprint | src/apowerb/bug_reports/service.py:178-191 | so over any run without such a step there is at most one |
| BugReports.ReopeningMakesTwoLive | src/apowerb/routers/bug_reports.py:231-241 | reopening a resolved report after a new one of its fingerprint leaves two live |
| BugReports.ClosingClosesFollowers | src/apowerb/bug_reports/tracking.py:309-377 | closing a report closes its open followers and nothing else |
| BugReports.StepTellsOnce | src/apowerb/bug_reports/tracking.py:158-180 | each step sends one notice per report it closes whose author is known and did not close it, and no other |
| BugReports.AlertsAreSpaced | src/apowerb/bug_reports/tracking.py:93-101 | an alert comes at least 48 hours after creation and 24 hours after any earlier recorded alert |
| BugReports.SortedPlan | src/apowerb/bug_reports/tracking.py:104-129 | a pass alerts exactly the watched overdue reports whose issue is not closed, each once, oldest first |
| BugReports.BugReportService.CreateBugReport | src/apowerb/bug_reports/service.py:178-290 | a report joins the first live one of its fingerprint, whose count goes up |
| BugReports.BugReportService.CloseWithDuplicates | src/apowerb/bug_reports/tracking.py:309-377 | the statuses it sets and the notices it returns |
| BugReports.BugReportService.UpdateBugReport | src/apowerb/routers/bug_reports.py:194-250 | triage: a closing status goes through the followers, any other is set as is |
| BugReports.BugReportService.CreateIssueFor | src/apowerb/bug_reports/service.py:576-579 | an issue is recorded once and sets the status |
| BugReports.BugReportService.PlanTick | src/apowerb/bug_reports/tracking.py:104-129 | what a pass resolves and what it alerts |
| BugReports.BugReportService.RunTick | src/apowerb/bug_reports/tracking.py:426-510 | a pass of the watch as one step; BugReportSteps.WatchResolves, WatchAlerts and StepNoticesSay say what it does to each report |
| BugReportSteps.CreationJoins | src/apowerb/bug_reports/service.py:178-290 | the new report holds what was given and follows the first joinable report of its fingerprint, whose count goes up by one; nothing else changes and nobody is told |
| BugReportSteps.TriageSets | src/apowerb/routers/bug_reports.py:194-250 | a status that closes is set on the report and its open followers, any other on the report alone |
| BugReportSteps.IssueIsRecordedOnce | src/apowerb/bug_reports/service.py:576-579 | an issue is recorded with its number and status if there was none |
| BugReportSteps.WatchResolves | src/apowerb/bug_reports/tracking.py:494-503 | a pass resolves the watched reports whose issue is closed and their open followers, and leaves every other report as it was |
| BugReportSteps.WatchAlerts | src/apowerb/bug_reports/tracking.py:104-129 | a pass appends one alert for each open report that follows none, whose issue is not found closed, created two days ago and not alerted on within one, the oldest first, and no other |
| BugReportSteps.StepNoticesSay | src/apowerb/bug_reports/tracking.py:158-180 | every notice is for the author of a report that passed from open to closed and says the status it got |

## Left out

- HTTP, web sockets, mail, S3 and database drivers: a table is a map or a sequence, a transaction one step, the object store a map from keys to bytes.
- Inside of ADK: building a runner is reading the current definition, closing one is an opaque event, and the lookup awaited while serving is taken as one that does not suspend, so that serving is one step of the event loop.
- Fingerprint.AgentFingerprint: the fingerprint is read from one state of the database; a commit between two of its queries is not modelled.
- RunnerProtocol.FreshnessTheorem: says nothing of an app cached after an unreadable fingerprint without a record, until that runner is dropped; such an app can be served stale, as `RunnerProtocol.StaleRunnerIsRecordedAsCurrent` shows. Its versions are what fingerprints tell apart, which a refresh of servers is not (`Fingerprint.RefreshLeavesRunnerInService`).
- Fingerprint: what a runner takes from other tables than the agents (tool configurations, skills) and how they change.
- App names that do not name an agent, which go straight to ADK, and errors raised by the loader.
- Row ids given again after deletions, as some SQLite tables do, or chosen when agents are imported: ids only grow here.
- RevisionHistory: encryption, masking of keys, stripping of default credentials, and the files written for an agent; columns hold opaque values.
- Propagation.PropagateApiKey: takes the parameter update as setting a key and a base address; a graph with a cycle is covered by `Propagation.EndsIffNoCycle` only, since the method itself then never returns.
- Rounding of floats in forecasts, coverage and totals: exact numbers are used.
- Time zones with daylight saving: `DigestSlots` uses a constant offset.
- Dates and labels are numbers and texts are codes where only their order or equality matters.
- DashboardFolding.BuildSeriesTable: the columns that come from helpers outside the modelled files or are labels (trend, model, reliability text, change in percent, uncertainty) are not there.
- KpiAlerts: texts, notifications and mails; the list of bad indicators is stored as a list of numbers.
- KpiAlerts.Subscription.Process: a pass is one step; in the program the row is read before the awaited computation and written after it, so alerts turned off and on in between are overwritten.
- Digit texts beyond ASCII, which Python's isdigit also accepts.
- ArtifactStore.VersionedMap: two saves of one artifact at the same time can take the same version; saves are one step each here.
- ArtifactStore: content types, metadata, creation times and listings of version records.
- Names for which the key layout is ambiguous (a slash, a session called `user`, agents or sessions called like a segment) are outside the lemmas that ask for well-named slots; the methods themselves accept them.
- ChatStream: parsing of chunks and lines is given as functions; network errors appear as chunks; the three attempts' texts are arbitrary.
- LogBuffer: locking and threads; a negative number of requests or lines, which the program refuses or fails on.
- BugReports: redaction, screenshots, areas, severity, notes, texts, the journal of events other than alerts; followers are closed in id order; two watch passes at the same time.
- BugReports.OneLivePerFingerprint: two reports of one fingerprint created at the same time both find no live one and leave two, since nothing locks between the search and the insert; creations are one step each here.
- The dashboards' other renderers, admin, auth, configuration, command line and table creation: wiring without state of its own.
