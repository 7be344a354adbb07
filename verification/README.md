# Beszel: monitors, alerts and logs, in Dafny

Beszel is a hub that watches systems through agents. This project models the parts of
both where state, time and concurrency meet, and proves what they keep:

- **Network monitors on the agent.** A task records probe results into a history with two
  retention layers, a manager replaces tasks while probes are in flight, and a guard
  throws away what a suspended machine measured. `MonitorHistory` is the store,
  `ResumeGuard` the guard, `MonitorProtocol` the interleaving of all of it as one state
  machine, `MonitorSafety` its properties over every run, `MonitorTasks` the object of one
  task and `MonitorManager` that of all of them.
- **Alerts on the hub.** `StateRules` and `StateAlerts` are the rules about services,
  containers and processes, `MonitorAlerts` the packet-loss alerts with their fast path,
  `ContainerAlerts` the health alerts, and `Incidents` the history rows and messages that
  the first two share. `MonitorCache` and `AlertsCache` are the caches in front of the
  database, and `FastPath` the packet-loss alerts on what they return.
- **Quiet hours.** `Calendar`, `QuietHours` and `QuietRules`.
- **Texts.** `Rendering` for notifications, `LogBuffer` and `LogStream` for logs.

Objects that the code updates in place are classes and its loops are methods with
invariants, each proved against a specification on values; the lemmas are about those
specifications. What runs concurrently is a step of a state machine, and its theorems
are about every run. Databases are maps; the clock, probe outcomes, time zones, glob
matching, case folding, plural rules, number formats and the iteration order of maps are
parameters, arbitrary unless a lemma says otherwise.

Some promises hold only under a condition. There the model keeps what the code does, gives
an input that breaks the promise, and proves the condition:

- The minute ring agrees with the full log if and only if no slot of the window was reused
  since, which an ordinary clock guarantees and a clock set back by more than an hour breaks
  (`RingExactIffNotOverwritten`, `ClockSetBackLosesSamples`).
- The guard's generation wraps around after 2^32 breaks; results across it are stated for
  fewer breaks, or exactly modulo 2^32.
- A scheduled probe that passed its gate can start within ten seconds of a gap detected since
  (`StartCanFollowGap`); of the gaps the gate saw it cannot (`StartsAfterGapsIff`).
- A service snapshot counts again when it comes back after another one, as a run shows
  (`CountsOnceIffNeverBack`, `ReturningCountsAgain`).
- Forgetting quiet targets can show for a rule with a literal pattern that does not match the
  name spelled like it, such as `a\b` (`ForgettingInvisibleIff`, `ExampleShows`); it cannot
  for rules without backslashes (`PlainIsSteady`).
- A reader of the alert cache misses the alerts that a refill in progress has still to store,
  and still finds one that was moved to another system (`ExactIffNotMoved`), until a later
  event or refill puts it right. `ReadIsExactPerAlert` is the condition for every point of
  every run, and `RefillRepairs` one way back.
- An update that reaches the alert cache before its system was loaded hides the system's
  other alerts (`EarlyUpdateExactIffAlone`).
- Two generations of a container alert within one millisecond are mistaken for each other: a
  generation that fires fires once and was not cleared if and only if its stamp is its own
  (`FiresOnceIffUnique`, `SharedStampFiresCleared`).
- An argument whose name is not made of word characters is filled in plain text and left
  standing in HTML (`OtherNamesDiffer`).

`dafny verify dfyconfig.toml` checks the whole project.

## Model

| member | source | states |
|---|---|---|
| MonitorHistory.FoldSummarizes | agent/network_monitor_history.go:94-107 | folding samples one by one gives the count, the successes, their sum, minimum and maximum of the whole sequence |
| MonitorHistory.AddCommutesWithMerge | agent/network_monitor_history.go:94-126 | adding a response before or after merging aggregates gives the same aggregate |
| MonitorHistory.BucketAgainstLog | agent/network_monitor_history.go:246-274 | a ring slot holds exactly the samples of its minute unless the slot was reused in between, and then fewer |
| MonitorHistory.RingExactIffNotOverwritten | agent/network_monitor_history.go:232-274 | for every log and window of up to 61 minutes the ring gives the fold over the log if and only if no sample of the window had its slot reused; no assumption on the clock |
| MonitorHistory.HourWindowExact | agent/network_monitor_history.go:210-243 | with an ordinary clock the aggregate of any window of up to an hour is the fold over the full log restricted to the wall-clock minutes of the window |
| MonitorHistory.ClockSetBackLosesSamples | agent/network_monitor_history.go:265-273 | a log with the clock set back by more than an hour whose ring loses a sample of the window |
| MonitorHistory.DroppedAreOld | agent/network_monitor_history.go:246-263 | with an ordinary clock pruning drops exactly the samples more than 61 seconds older than the last one |
| MonitorHistory.RawExactIffNothingDropped | agent/network_monitor_history.go:219-263 | the raw samples give the window's aggregate if and only if no dropped sample belongs to it, whatever the clock did |
| MonitorHistory.ShortWindowExact | agent/network_monitor_history.go:210-229 | for windows of at most 61 seconds the pruned samples give the aggregate of the full log |
| MonitorHistory.ResultMatchesLog | agent/network_monitor_history.go:169-207 | the result from the two layers is that of the full log: the window's aggregate or, with no sample in it, exactly the latest one, with the hour's; ReportedMeans says what each field is |
| MonitorHistory.WindowHolds | agent/network_monitor_history.go:210-243 | a window of the log holds every sample that belongs to it as often as it was recorded, and no other: by the nanosecond up to 61 seconds, by wall-clock minutes beyond |
| MonitorHistory.ReportedMeans | agent/network_monitor_history.go:134-207 | each field of a report: minimum and maximum are responses that bound all of them, the average is rounded down, the counts and the sum are those of the window or of the latest sample, and the same for the hour with its lost probes; zeros without a response |
| MonitorHistory.AverageInRange | agent/network_monitor_history.go:134-158 | the reported average lies between the reported minimum and maximum |
| MonitorHistory.History.constructor | agent/network_monitor_history.go:37-40 | a new store is that of the empty log |
| MonitorHistory.History.Clone | agent/network_monitor_history.go:42-50 | the copy stands for the same log and shares no memory with the original |
| MonitorHistory.History.FirstKept | agent/network_monitor_history.go:246-258 | the scan from the oldest sample stops at the first one to keep |
| MonitorHistory.History.AddSample | agent/network_monitor_history.go:246-274 | in-place pruning and the slot update leave the store of the log with the sample appended |
| MonitorHistory.History.AggregateSamplesSince | agent/network_monitor_history.go:220-229 | the loop over the samples is the fold over those not before the cutoff |
| MonitorHistory.History.AggregateBucketsSince | agent/network_monitor_history.go:232-243 | the loop over the slots merges exactly those of the window's minutes |
| MonitorHistory.History.AggregateWindow | agent/network_monitor_history.go:210-217 | windows of up to 61 seconds are read from samples, longer ones from slots |
| MonitorHistory.History.ComputeResult | agent/network_monitor_history.go:169-207 | the result over the two layers, with the latest sample standing in for an empty window |
| MonitorHistory.History.Result | agent/network_monitor_history.go:52-56 | with an ordinary clock, what the full log says about the window |
| MonitorHistory.History.Record | agent/network_monitor_history.go:58-64 | the sample is appended to the log and the last minute is reported as the log has it |
| ResumeGuard.SameGenerationIffUnbroken | agent/network_monitor_resume.go:54-88 | two snapshots see the same generation if and only if the breaks in between are a multiple of 2^32 |
| ResumeGuard.UnbrokenMeansOnTime | agent/network_monitor_resume.go:54-73 | no break means no shutdown and no two successive observations more than 20 seconds apart |
| ResumeGuard.PauseFollowsLastGap | agent/network_monitor_resume.go:66-73 | the pause ends ten seconds after the last gap |
| ResumeGuard.AllowedIffGapsAreOld | agent/network_monitor_resume.go:66-88 | with a clock that does not go back, a snapshot of a running guard allows a probe if and only if every gap since the guard was last started is at least ten seconds old |
| ResumeGuard.Guard.Start | agent/network_monitor_resume.go:26-52 | starting a running guard changes nothing, otherwise the trace begins anew |
| ResumeGuard.Guard.Shutdown | agent/network_monitor_resume.go:54-62 | shutting down ends the trace's running stretch once |
| ResumeGuard.Guard.Observe | agent/network_monitor_resume.go:66-73 | an observation is appended, the generation and the pause following the trace |
| ResumeGuard.Guard.Tick | agent/network_monitor_resume.go:37-51 | only the heartbeat of the current start observes |
| ResumeGuard.Guard.Snapshot | agent/network_monitor_resume.go:77-88 | a snapshot observes, and returns the generation and the permission that the trace implies |
| MonitorSafety.RunsKeepInv | agent/network_monitor_task.go:31-108 | every world of every run keeps the invariant that ties tasks, runs, callers, the guard's trace and the registry |
| MonitorSafety.SingleFlight | agent/network_monitor_task.go:55-75 | in every interleaving at most one probe of a task is in flight |
| MonitorSafety.CancelledLogIsFrozen | agent/network_monitor_task.go:31-42 | once a task is cancelled its log never changes again |
| MonitorSafety.SharedRunSharedReport | agent/network_monitor_task.go:55-108 | callers that got a result through the same run got the same result, and it is the one that run recorded |
| MonitorSafety.ResultIsHandedOn | agent/network_monitor_task.go:63-108 | in every run, whoever made a run or waited for it is handed the log it ended with if it was recorded and the task is not cancelled by then, and nothing otherwise |
| MonitorSafety.OnlyPublishedIsHandedOn | agent/network_monitor_task.go:63-108 | behind a call that ends while the task is not cancelled there is such a published run; one that ends after the cancellation gets nothing |
| MonitorSafety.AnyoneCanCall | agent/network_monitor_schedule.go:10-24 | probes of a task can be asked for at any time and are scheduled until it is cancelled |
| MonitorSafety.NobodyIsStuck | agent/network_monitor_task.go:55-108 | a caller can always go on, or waits for a run whose maker can |
| MonitorSafety.EveryoneCanReturn | agent/network_monitor_task.go:55-108 | from every world that runs reach every caller can be brought to its return |
| MonitorSafety.PublishAddsOneSampleIff | agent/network_monitor_task.go:77-108 | a completed run adds exactly its sample if the task is uncancelled and the generation unchanged, otherwise nothing, and touches no other task |
| MonitorSafety.RecordedWhileAwake | agent/network_monitor_task.go:77-96 | behind every recorded sample the guard ran on, with no two successive observations more than 20 seconds apart, between the run's two snapshots |
| MonitorSafety.GateHoldsAfterGap | agent/network_monitor_schedule.go:10-24 | with a running guard and a clock that does not go back, the gate in front of a scheduled probe lets it pass if and only if every gap detected since the guard was last started is at least ten seconds old |
| MonitorSafety.StartsAfterGapsIff | agent/network_monitor_schedule.go:17-21 | when a probe that passed its gate starts, every gap of the running guard is at least ten seconds old if and only if every gap detected since the gate is |
| MonitorSafety.StartCanFollowGap | agent/network_monitor_task.go:76-78 | a run in which a machine suspended between the gate and the start of a probe starts it right after the gap: the snapshot at the start does not look at the pause |
| MonitorSafety.LeadsStaysReachable | agent/network_monitor.go:30-69 | an operation that is a run of protocol steps stays among the worlds that runs reach, with any callers, so the invariant holds after it |
| MonitorSafety.ReplacementInheritsEverything | agent/network_monitor.go:52-65 | a replacement starts with the log as it was when the old task was cancelled, whatever ran in between |
| MonitorSafety.SamplesConserved | agent/network_monitor.go:103-128 | over any chain of reconfigurations a log has one sample per recorded run of the task and of all it replaced |
| MonitorTasks.MonitorTask.constructor | agent/network_monitor_task.go:31-42 | a new task has an empty history of its own and is the protocol's new task |
| MonitorTasks.MonitorTask.Replacing | agent/network_monitor_task.go:44-50 | a replacement has its own copy of the old task's history and is the protocol's copy with that log |
| MonitorTasks.MonitorTask.Cancel | agent/network_monitor_task.go:34-41 | the object stands for the protocol's task with only its cancellation added |
| MonitorTasks.MonitorTask.Enter | agent/network_monitor_task.go:55-75 | a cancelled task runs nothing, a run in flight is joined, and otherwise the object becomes the protocol's task with a run started |
| MonitorTasks.MonitorTask.RecordOutcome | agent/network_monitor_task.go:82-96 | the history has the outcome appended and the result reported is that of the last minute of its log; a failure is logged at most once per interval |
| MonitorTasks.MonitorTask.Publish | agent/network_monitor_task.go:77-108 | the object becomes the protocol's task with the run finished: its sample is recorded exactly when it counts, and every caller of the run is handed the result of the log it ended with, or none |
| MonitorManager.LastByIdIsLast | agent/network_monitor.go:30-40 | the wanted configuration of an ID is the last one given for it; empty IDs are skipped |
| MonitorManager.ProbingKeepsRegistered | agent/network_monitor.go:30-69 | between operations, whatever callers and the heartbeat do, the uncancelled tasks are exactly those registered under their own IDs and the guard keeps running or not |
| MonitorManager.Manager.Install | agent/network_monitor.go:52-65 | cancel, copy and register is a run of protocol steps whatever probes are in flight |
| MonitorManager.Manager.StopRemoved | agent/network_monitor.go:42-50 | exactly the tasks whose ID is not wanted are cancelled and unregistered |
| MonitorManager.Manager.StartWanted | agent/network_monitor.go:52-65 | every wanted ID ends up with its configuration, unchanged tasks being left identical |
| MonitorManager.Manager.SyncMonitors | agent/network_monitor.go:30-69 | afterwards exactly the last configuration of each non-empty ID is registered, unchanged tasks are identical, the guard runs if and only if there are tasks, and all of it is a run of protocol steps whatever probes are in flight |
| MonitorManager.Manager.UpsertMonitor | agent/network_monitor.go:98-128 | a missing ID is refused without effect; otherwise the ID has its configuration, an unchanged task is identical, and no task of another ID, registered or cancelled, is touched |
| MonitorManager.Manager.DeleteMonitor | agent/network_monitor.go:131-144 | the task of the ID is cancelled and unregistered, no other is touched, and the guard is shut down with the last one |
| MonitorManager.Manager.Stop | agent/network_monitor.go:168-176 | every task ever created is cancelled and the guard is down |
| StateRules.TargetNamesExact | internal/alerts/alerts_state.go:395-426 | exactly the reported matches, the known targets and the unanswered literal patterns are evaluated, and every literal pattern is there or answered to |
| StateRules.CandidatesAre | internal/alerts/alerts_state.go:138-156 | a pattern is compared with exactly the full name, the name without ".service" or ".exe", and both parts of a name in parentheses |
| StateRules.HigherFiresToo | internal/alerts/alerts_state.go:171-178 | a rule on a metric looks at that one alone; a rule on high values that fires fires at every higher value, one on low values at every lower one |
| StateRules.ThresholdSeparates | internal/alerts/alerts_state.go:171-178 | at the threshold neither kind of rule fires, off it exactly one does |
| StateRules.StatesAreNamed | internal/alerts/alerts_state.go:179-185 | a rule for a state fires in it and nowhere else, a rule against it everywhere else |
| StateRules.SubStatesNarrow | internal/alerts/alerts_state.go:179-185 | states and substates narrow each other down, none named leaves them open, and "is not" is the complement |
| StateRules.StatusIsStreak | internal/alerts/alerts_state.go:171-185 | after any reports a target's count is its trailing streak of firing evaluations, and its incident is open if and only if the streak is at least one and has reached the configured cycles |
| StateRules.HigherCountsMore | internal/alerts/alerts_state.go:171-185 | over any two histories of the same targets of which one was never lower in the metric, a rule on high values counts it for no less and has its incidents open, and a rule on low values the other way round |
| StateRules.ForgettingIsInvisible | internal/alerts/alerts_state.go:447-507 | forgetting gone and quiet targets changes no count, incident or message compared with a machine that never forgets |
| StateRules.ForgettingInvisibleIff | internal/alerts/alerts_state.go:395-426 | for every rule no count and no incident ever differs if and only if the rule fires on absence, never fires, or is steady: no names the rule matches can keep a literal pattern that does not match itself from being evaluated and then bring it up by going away |
| StateRules.InvisibleInMessages | internal/alerts/alerts_state.go:458-507 | where no count and no incident differs, no message does |
| StateRules.SelfMatchingIsSteady | internal/alerts/alerts_state.go:134-168 | a rule whose literal patterns all match themselves is steady |
| StateRules.UnansweredIsSteady | internal/alerts/alerts_state.go:405-418 | so is one whose other literal patterns nothing else it may evaluate answers to |
| StateRules.PlainIsSteady | internal/alerts/alerts_state.go:124-168 | so is one without backslashes in its literal patterns |
| StateRules.ForgettingShows | internal/alerts/alerts_state.go:405-418 | three reports after which the two machines differ, for every rule that is not steady, is quiet on absence and can fire |
| StateRules.ExampleShows | internal/alerts/alerts_state.go:405-418 | such a rule: the patterns `a\b` and `*.service`, with the service `a\b.service` going away |
| Incidents.OpenKeeps | internal/alerts/alerts_state.go:470-491 | opening an incident keeps rows, holders and messages in agreement |
| Incidents.CloseKeeps | internal/alerts/alerts_network_monitors.go:245-259 | so does closing one, with or without a message |
| Incidents.StartOverKeeps | internal/alerts/alerts_state.go:248-292 | so do an edit that starts a rule over and a deletion |
| Incidents.PurgeKeeps | internal/alerts/alerts_network_monitors.go:245-259 | so does the removal of a history row |
| Incidents.OpenRowHasOneHolder | internal/alerts/alerts_network_monitors.go:261-273 | an unresolved row is held by exactly the owner and target it was opened for |
| StateAlerts.IncidentsConserved | internal/alerts/alerts_state.go:248-292 | over every run of evaluations, edits, deletions and purges: unresolved rows belong to one target each, held IDs are unresolved or purged, a rule is triggered if and only if a target is open, and messages alternate between resets |
| StateAlerts.UnresolvedRowsAreHeld | internal/alerts/alerts_state.go:440-520 | the same said of the records: a row is unresolved only if exactly the target it was opened for holds it and its rule is triggered |
| StateAlerts.EvaluateRefines | internal/alerts/alerts_state.go:440-520 | evaluating a stored rule is one evaluation of the status machine, in whatever order the targets are visited |
| StateAlerts.NoOpIff | internal/alerts/alerts_state.go:447-520 | an evaluation changes nothing if and only if its snapshot is the stored one or, without a snapshot, the status machine stays where it is |
| StateAlerts.AbsenceCounts | internal/alerts/alerts_state.go:430-466 | a target that is not reported counts as absent if it is a service and as stopped if it is a container or a process |
| StateAlerts.AbsenceIsZero | internal/alerts/alerts_state.go:430-466 | for a rule on a metric such a target is at zero |
| StateAlerts.EditStartsOverIffChanged | internal/alerts/alerts_state.go:248-280 | an edit changes nothing if and only if it changes neither rule nor kind; otherwise the rule starts over, its rows are resolved, and no other rule or row changes |
| StateAlerts.EverythingCanHappen | internal/alerts/alerts_state.go:236-300 | a rule can be created unless it is there, and then evaluated on every report, edited and deleted; rows can be purged at any time |
| StateAlerts.CountsOnceIffNeverBack | internal/alerts/alerts_state.go:447-456 | over any run a rule evaluates one report per service snapshot if and only if no snapshot comes back after another one, and never fewer |
| StateAlerts.SnapshotsCountOnce | internal/alerts/alerts_state.go:447-456 | a stored rule whose snapshots never go back in time, and which no edit changes, follows the status machine run on the first report of each snapshot, however often each is evaluated |
| StateAlerts.OneReportPerSnapshot | internal/alerts/alerts_state.go:447-456 | there are as many of those reports as distinct snapshots |
| StateAlerts.ReturningCountsAgain | internal/alerts/alerts_state.go:447-456 | for every matcher, a run of a rule for a failed service in which the snapshots 1, 2, 1 count three times |
| StateAlerts.VisitAllLog | internal/alerts/alerts_state.go:458-507 | an evaluation sends one message per target whose incident opened or closed, and no other |
| StateAlerts.StoredFollowsRun | internal/alerts/alerts_state.go:440-520 | from its creation on the targets of a rule that no edit changes are those of the status machine run on its reports |
| StateAlerts.StoredCountIsStreak | internal/alerts/alerts_state.go:458-495 | a stored count is the trailing streak of firing reports, and a history row is held if and only if the streak has reached the cycles |
| StateAlerts.VisitOne | internal/alerts/alerts_state.go:458-507 | the body of the loop updates count, row, message and tracking as the specification has it |
| StateAlerts.EvaluateOne | internal/alerts/alerts_state.go:447-520 | the loop over the targets is the evaluation of the rule |
| StateAlerts.EvaluateStateAlerts | internal/alerts/alerts_state.go:428-534 | every rule of the kind is evaluated once and no other is touched |
| MonitorAlerts.EvaluateAlertExact | internal/alerts/alerts_network_monitors.go:137-217 | afterwards a monitor's incident is open if and only if it is enabled and a ready result is above the threshold or, without one, it was open before; only this alert is touched |
| MonitorAlerts.FreshFor | internal/alerts/alerts_network_monitors.go:233-243 | a result counts from three samples on, with a loss from 0 to 100, and is fresh for three intervals but no less than three minutes and no more than an hour, a minute ahead allowed |
| MonitorAlerts.LossDecides | internal/alerts/alerts_network_monitors.go:157-208 | with the system up and such a result of the last three minutes a monitor has an incident afterwards if and only if its loss is above the threshold |
| MonitorAlerts.EvaluateAlertGives | internal/alerts/alerts_network_monitors.go:137-217 | the messages sent are exactly those of monitors crossing the threshold; disabled and deleted ones close silently |
| MonitorAlerts.FastPathExact | internal/alerts/alerts_network_monitors.go:87-109 | with caches that agree with the database the fast path asks for the transaction if and only if it would fail or save an alert |
| MonitorAlerts.UnsavedIsUnchanged | internal/alerts/alerts_network_monitors.go:137-217 | an alert that is not saved was not changed and nothing was sent for it |
| MonitorAlerts.IncidentsConserved | internal/alerts/alerts_network_monitors.go:111-231 | over every run rows, states and messages agree, and `triggered` means a non-empty state |
| MonitorAlerts.OnlyReadyResultsDecide | internal/alerts/alerts_network_monitors.go:137-243 | in every run a missing or unready result or a system that is down neither opens nor closes an enabled monitor's incident, and a recovery is sent only for a ready result at or below the threshold |
| MonitorAlerts.CloseGone | internal/alerts/alerts_network_monitors.go:147-156 | the loop over the state closes exactly the monitors no longer enabled |
| MonitorAlerts.JudgeEach | internal/alerts/alerts_network_monitors.go:157-208 | the loop over the enabled monitors opens and closes as their results say |
| MonitorAlerts.EvaluateOne | internal/alerts/alerts_network_monitors.go:137-217 | one alert is evaluated, and saved if and only if it has to be |
| MonitorAlerts.TransactedSettles | internal/alerts/alerts_network_monitors.go:111-231 | after a transaction, in whatever order it takes the alerts, each one's incidents are as its results say, `triggered` means a non-empty state, and rows and messages agree if they did before |
| MonitorAlerts.TransactedGives | internal/alerts/alerts_network_monitors.go:111-231 | a transaction sends exactly the messages, and closes silently exactly the incidents, that its alerts call for as they were before it |
| MonitorAlerts.EvaluateNetworkMonitorAlerts | internal/alerts/alerts_network_monitors.go:111-231 | an unreadable state fails the transaction without effect; otherwise it is a run of one evaluation per alert, rows and messages included, exactly the alerts that have to be are saved, and with none saved nothing changed |
| MonitorAlerts.HandleNetworkMonitorAlerts | internal/alerts/alerts_network_monitors.go:66-84 | whatever the caches hold, the effect is the transaction's, rows and messages included, or none; with caches that agree with the database it is the transaction's |
| FastPath.CachedFastPathExact | internal/alerts/alerts_network_monitors.go:66-109 | at any points of any runs of the two caches with nothing pending for the system and no reader of its alerts misled, the fast path on what they return asks for the transaction if and only if it would fail or save an alert |
| FastPath.HandleThroughCaches | internal/alerts/alerts_network_monitors.go:66-84 | handled through the caches the effect is the transaction's when no query fails and nothing is pending for the system, otherwise that or none, and the caches stay coherent |
| MonitorCache.RunIsCoherent | internal/alerts/network_monitor_cache.go:19-79 | at every point of every run each cached map, and each map being loaded, is the database's or has an invalidation to come |
| MonitorCache.CachedMeansEnabled | internal/alerts/network_monitor_cache.go:51-79 | with no invalidation pending for a system its cached map is exactly its enabled monitors and their intervals |
| MonitorCache.CachedIsSnapshot | internal/alerts/network_monitor_cache.go:62-77 | even then a cached map is one the database held at some moment |
| MonitorCache.PendingCanBeStale | internal/alerts/network_monitor_cache.go:27-37 | a run in which a pending invalidation makes a difference |
| MonitorCache.CanSettle | internal/alerts/network_monitor_cache.go:45-79 | every run can go on without a commit to where nothing is pending and every cached map is the database's |
| MonitorCache.CommitsAnyTime | internal/alerts/network_monitor_cache.go:19-43 | commits do not wait for the cache |
| MonitorCache.FailureChangesNothing | internal/alerts/network_monitor_cache.go:51-79 | a query that fails leaves everything as it was |
| MonitorCache.Cache.Invalidate | internal/alerts/network_monitor_cache.go:45-49 | making the invalidation a commit asked for leaves nothing of the system and everything of the others, and keeps the cache coherent though that invalidation is no longer pending |
| MonitorCache.Cache.Get | internal/alerts/network_monitor_cache.go:51-79 | a hit returns the entry, a failed query changes nothing, a miss stores and returns the enabled monitors, and coherence is kept |
| AlertsCache.RunAgreesBut | internal/alerts/alerts_cache.go:64-163 | at every point of every run and for every alert of every system, what pending events will make of the stored or loaded alert is what the database holds if and only if the alert was not moved out and left behind |
| AlertsCache.NeverMovedIsCurrent | internal/alerts/alerts_cache.go:64-163 | an alert that never left its system is not left behind, whatever happened to others |
| AlertsCache.ReadIsExactPerAlert | internal/alerts/alerts_cache.go:135-163 | from the first population on, an alert without a pending event is read as the database has it, deleted ones included, if and only if the reader is not misled: by a refill that has still to store it or by what it left behind; for an alert that never left its system only the refill counts |
| AlertsCache.ReadIsExact | internal/alerts/alerts_cache.go:135-163 | with no event pending for a system exactly its alerts are read if and only if the reader is misled about none; a reader that does not find its system waits for the refill |
| AlertsCache.RefillRepairs | internal/alerts/alerts_cache.go:82-99 | a refill that is queried while an alert has no event pending and runs to its end leaves nothing behind of an alert that was moved out before |
| AlertsCache.CanSettle | internal/alerts/alerts_cache.go:64-163 | every run can go on without a commit to where nothing is pending and every system is read as the database has it, whatever was moved or read early before |
| AlertsCache.CommitsAnyTime | internal/alerts/alerts_cache.go:64-79 | commits do not wait for the cache |
| AlertsCache.FailureChangesNothing | internal/alerts/alerts_cache.go:82-163 | a query that fails leaves everything as it was |
| AlertsCache.ExactIffNotMoved | internal/alerts/alerts_cache.go:65-69 | after an update the cache is exact again if and only if the update kept the alert's system |
| AlertsCache.EarlyUpdateExactIffAlone | internal/alerts/alerts_cache.go:108-121 | after an update of a system not loaded yet its alerts are read exactly if and only if it has no other one |
| AlertsCache.EarlyUpdateHidesAlerts | internal/alerts/alerts_cache.go:108-121 | a run in which such an update hides an alert |
| AlertsCache.Cache.PopulateFromDB | internal/alerts/alerts_cache.go:82-99 | a skipped or failed population changes nothing; a finished one leaves every alert of every system as the database has it; and coherence is kept whatever events are pending |
| AlertsCache.Cache.UpdateRecord | internal/alerts/alerts_cache.go:102-121 | only this alert is found differently, under its system, and the cache stays coherent though the event of the save is no longer pending |
| AlertsCache.Cache.DeleteRecord | internal/alerts/alerts_cache.go:124-133 | only this alert is no longer found, and the cache stays coherent though the event of the deletion is no longer pending |
| AlertsCache.Cache.GetSystemAlerts | internal/alerts/alerts_cache.go:136-163 | a stored system is returned, a lazy load stores what it returns, and coherence is kept |
| ContainerAlerts.RunsAreSound | internal/alerts/alerts_container.go:79-234 | over every run generations are conserved, rows match, and stamps are the times of their first reports to the millisecond |
| ContainerAlerts.FiresOnceIffUnique | internal/alerts/alerts_container.go:132-180 | a generation that fired did so once, and was never cleared, dropped or left pending, if and only if no other generation has its stamp |
| ContainerAlerts.ClaimFiresIffOutstanding | internal/alerts/alerts_container.go:165-180 | a claim fires if and only if more generations with its stamp were set than were fired, cleared or dropped before or during the log fetch |
| ContainerAlerts.ClaimFiresIffUntouched | internal/alerts/alerts_container.go:165-180 | so for a stamp that no two generations share if and only if the generation exists and was not cleared, dropped or fired |
| ContainerAlerts.FiresOnlyWhenDue | internal/alerts/alerts_container.go:79-106 | every firing goes back to an unhealthy report of the run; with more than one minute configured in what that report saw, it came that long after the generation's first one, to the millisecond |
| ContainerAlerts.SendsIffWaited | internal/alerts/alerts_container.go:79-106 | an unhealthy report decides to send if and only if it saw the alert untriggered and waiting for the configured minutes, a single one being no wait |
| ContainerAlerts.AnythingCanHappen | internal/alerts/alerts_container.go:52-180 | reports come at any time and from any snapshot, and every sender can end either way |
| ContainerAlerts.DeletedIsOver | internal/alerts/alerts_history.go:11-84 | once an alert is deleted, whatever is still under way, it neither waits nor fires again and its rows stay resolved |
| ContainerAlerts.OneOpenRowIffTriggered | internal/alerts/alerts_history.go:11-84 | an alert has one unresolved history row if and only if it is triggered, none otherwise, and one row per firing |
| ContainerAlerts.SharedStampFiresCleared | internal/alerts/alerts_container.go:143-147 | a run in which two generations share a millisecond and a cleared one fires |
| ContainerAlerts.HandledKeeps | internal/alerts/alerts_container.go:79-118 | handling any report from any snapshot keeps generations and rows in order |
| ContainerAlerts.HandledMeans | internal/alerts/alerts_container.go:57-118 | from a current snapshot an unknown report only stops the wait, a healthy one ends the incident, an unhealthy one triggers the alert at once with at most one minute configured and otherwise that long after its first, and leaves it waiting until then |
| ContainerAlerts.ContainersDecide | internal/alerts/alerts_container.go:52-118 | without container data a triggered alert stays as it is and nothing is waited for, with no container unhealthy the alert is over, with one it waits or is triggered |
| ContainerAlerts.HandledIsSteps | internal/alerts/alerts_container.go:79-118 | handling a report without overlap is a run of the protocol: a clear and a recovery, or an unhealthy report and the claim of its own sender |
| ContainerAlerts.Alerts.HandleAlert | internal/alerts/alerts_container.go:79-118 | what is done to the alert is such a run, keeps its generations and rows in order, and touches no other alert |
| ContainerAlerts.Alerts.HandleContainerAlerts | internal/alerts/alerts_container.go:52-120 | each alert of the snapshot is handled once and no other is touched |
| Calendar.MonthIsRange | internal/alerts/quiet_hours_schedule.go:74-75 | a month is its days in order, no more and no less |
| Calendar.DateIsByFormula | internal/alerts/quiet_hours_schedule.go:74-75 | stepping from day to day gives every day, before 1970 too, the date that the closed formula of the Gregorian calendar gives its number for |
| QuietHours.ActiveIffInOccurrence | internal/alerts/quiet_hours_schedule.go:20-66 | a recurring window is active if and only if the local time lies in the half-open hours of an occurrence that starts on a matching local day |
| QuietHours.OneTimeIsOnce | internal/alerts/quiet_hours_schedule.go:20-26 | a one-time window is active from its start to its end, the end excluded |
| QuietHours.ZoneOrUtc | internal/alerts/quiet_hours_schedule.go:28-37 | local time is that of the window's time zone, and UTC without one that is known |
| QuietHours.DailyIsEveryDay | internal/alerts/quiet_hours_schedule.go:69-87 | a daily window runs on every day |
| QuietHours.WeeklySelectsOne | internal/alerts/quiet_hours_schedule.go:69-72 | in any seven days in a row a weekly window selects exactly one for each weekday, Monday being 1 |
| QuietHours.WeeklyIsAnyOf | internal/alerts/quiet_hours_schedule.go:69-72 | and runs on the days of each of its weekdays |
| QuietHours.MonthlyDays | internal/alerts/quiet_hours_schedule.go:73-78 | without weeks a monthly window runs on its days of the month, 32 being the last day |
| QuietHours.MonthlyWeeks | internal/alerts/quiet_hours_schedule.go:79-83 | with weeks it runs on its weekdays' occurrences of those numbers, counted day by day, 5 being the last |
| QuietHours.WeekSelectsKth | internal/alerts/quiet_hours_schedule.go:79-83 | in every month a week from 1 to 4 selects exactly one day, the weekday's k-th |
| QuietHours.WeekFiveSelectsLast | internal/alerts/quiet_hours_schedule.go:79-83 | in every month week 5 selects exactly one day, the weekday's last |
| QuietHours.DayThirtyTwoSelectsLast | internal/alerts/quiet_hours_schedule.go:74-77 | in every month day 32 selects exactly the last day |
| QuietHours.IsSilencedFor | internal/alerts/alerts.go:172-246 | a notification is silenced if and only if some window of the user covers it, applies to it and is active |
| QuietHours.CoversItsOwn | internal/alerts/alerts.go:213-231 | a window is for its user, and for its system or sensor, or for all without either |
| QuietHours.AppliesToEach | internal/alerts/alerts.go:172-191 | a window limited to one alert type, rule or target is for that one, a window limited to several is for each of them, and one without limits for everything |
| QuietHours.TargetsAreOfTheirKind | internal/alerts/alerts.go:193-211 | a target is that of an alert if and only if it is of the kind of its state rules and of its name |
| QuietRules.TrimmedApplies | internal/alerts/quiet_hours_rules.go:43-60 | a trimmed window applies to no more than before and to everything unaffected, and never loses its scope |
| QuietRules.TrimmedExact | internal/alerts/quiet_hours_rules.go:43-57 | the same of one window: what is left of it and when it is deleted |
| QuietRules.TrimmedAppliesWithout | internal/alerts/quiet_hours_rules.go:43-57 | what is left of a window is for exactly what the window was for without the rule and those targets |
| QuietRules.RemoveRuleQuietHours | internal/alerts/quiet_hours_rules.go:15-63 | every window of the rule's user and system loses the rule and exactly the targets of it that no other rule of the system and kind has, each as often as it stands there, and is deleted if and only if it lost something and nothing is left; all else stays |
| QuietRules.RemovalSilencesTheRest | internal/alerts/quiet_hours_rules.go:15-63 | deleting a rule never silences more, and unsilences nothing but the rule and the targets that go with it |
| QuietRules.RemovalSilencesExactly | internal/alerts/quiet_hours_rules.go:15-63 | once a rule is deleted a notification is silenced if and only if a window covers it, is active, and is for it without the rule and the targets that went with it |
| Rendering.ReplaceIsScan | internal/alerts/i18n.go:241-250 | with words for names the string replacer and the placeholder expression read every text alike, in whatever order the arguments come |
| Rendering.FillIsScan | internal/alerts/i18n.go:241-250 | so the plain form puts values exactly where the expression finds their names |
| Rendering.AssembleLoop | internal/alerts/i18n.go:197-217 | the loop over the matches writes the escaped text between them and the arguments in their places |
| Rendering.RenderIsEscapedT | internal/alerts/i18n.go:143-218 | for every message tree with word names and every character-wise escape, rendering with nothing wrapped is escaping the plain rendering |
| Rendering.OtherNamesDiffer | internal/alerts/i18n.go:166-250 | for every other name, a message whose text is its placeholder is its value in the plain form and the placeholder in HTML, so the two agree only if the value is spelled like the placeholder |
| Rendering.MarkupIsT | internal/alerts/i18n.go:181-186 | markup with nothing wrapped is the plain text |
| Rendering.HtmlShowsT | internal/alerts/i18n.go:170-177 | unwrapped HTML is the escaped plain text and reads as the plain text: nothing added, nothing dropped |
| Rendering.TextFallsBack | internal/alerts/i18n.go:133-164 | a message has the text of its language if that is written and otherwise exactly what English gives, or none |
| Rendering.PluralIsOfCount | internal/alerts/i18n.go:155-239 | the plural form is that of the count, zero without a whole number, with "other" for a missing form |
| Rendering.WordCharsAre | internal/alerts/i18n.go:166-166 | a placeholder's name is made of ASCII letters, digits and underscores |
| LogBuffer.SplitRoundTrip | agent/log_buffer.go:29-38 | the lines with their newlines and then the tail are the text |
| LogBuffer.SplitIsComplete | agent/log_buffer.go:30-37 | no line and no tail has a newline in it |
| LogBuffer.TrimmedIs | agent/log_buffer.go:35-35 | one carriage return at the end of a line goes, and nothing else |
| LogBuffer.JoinedIsSplit | agent/log_buffer.go:52-59 | joined lines are told apart again by their newlines |
| LogBuffer.ChunksDoNotMatter | agent/log_buffer.go:26-59 | however bytes are split into writes, the buffer holds the last complete lines in order, without carriage returns, and the unterminated tail |
| LogBuffer.Buffer.Add | agent/log_buffer.go:42-49 | the ring holds the last lines, oldest first from its index |
| LogBuffer.Buffer.Split | agent/log_buffer.go:26-40 | the loop over the newlines leaves the lines and the tail that the specification has |
| LogBuffer.Buffer.Write | agent/log_buffer.go:26-40 | a write never fails and is appended to what was written, of which the buffer holds the last lines |
| LogBuffer.Buffer.String | agent/log_buffer.go:52-59 | however the bytes were split into writes, the last complete lines of all of them, without carriage returns, joined |
| LogStream.SplitIsUnique | agent/docker.go:942-976 | an input splits in only one way into accepted frames and a rest from which no frame can be taken |
| LogStream.DecodeMultiplexed | agent/docker.go:938-977 | at most 5 MiB are written: the payloads of that split's frames and, of a frame cut short by the end of input, the part that is there; and it fails exactly for a frame too large or a reader that fails in time |
| LogStream.DecodeLogStream | agent/docker.go:933-977 | other streams are copied up to the limit |
| LogStream.EncodedSplits | agent/docker.go:942-976 | the only split of an encoded list within the limits is the list itself |
| LogStream.RoundTrip | agent/docker.go:933-977 | decoding what was encoded gives the concatenation of the payloads |
| LogStream.DockerIsDetected | agent/docker.go:916-931 | a stream of Docker's frames is recognised without its content type if and only if its first frame is of an allowed size |
| LogStream.DetectedIsDocker | agent/docker.go:916-931 | only a stream that begins with the header of such a frame is recognised |
| LogStream.BigEndian | agent/docker.go:950-950 | of the four bytes of a size the first weighs most |

## Left out

- Probes, Docker, registries, sensors and every other reader of the outside: a probe's outcome is an arbitrary input.
- PocketBase, SQL and JSON: collections are maps, transactions are single steps, and IDs are fresh.
- The agent's connection manager, its self-update and the status alerts' timers.
- Delivery of notifications, their channels and link building; a message sent is an entry in a log.
- Rule validation, and the reading of services, containers and processes into observations.
- MonitorHistory.FoldSummarizes: response sums are unbounded integers, so the overflow of a 64-bit sum is not modelled; loss percentages are represented by the counts they come from.
- The manager without a resume guard, GetResults and the request that combines several manager calls.
- MonitorManager.Manager.UpsertMonitor: the probe it runs at once when asked to is a caller's request in the protocol, not part of the method.
- The last look at cancellation before a caller of a probe returns, and the return itself, are one step of the protocol.
- StateAlerts.IncidentsConserved: saving an edited rule and resolving its rows is one step, and so is an evaluation with the rows it saves.
- StateAlerts.VisitAllLog: messages come in the order of the visits, whatever that is; the sorting of the names is not modelled.
- StateRules.PlainIsSteady: the matcher it is stated for has no bracket classes; every other result about rules is for any matcher.
- MonitorCache.RunIsCoherent: the original of an update event is taken to be the committed row before it.
- AlertsCache.RunAgreesBut: says nothing about a system with an empty ID, which events pass over.
- ContainerAlerts.RunsAreSound: reading and saving a record with its history hook is one step, history rows are never purged or failing to save, recovery messages are not counted, and the log excerpt is left out.
- QuietHours.ActiveIffInOccurrence: the day before is the previous calendar day, also where a time zone skips that local time; one-time windows are the plain interval of the definition.
- QuietRules.RemoveRuleQuietHours: database errors halfway through the windows are not modelled.
- Rendering.RenderIsEscapedT: texts are sequences of characters, without the treatment of invalid UTF-8.
- LogBuffer.Buffer.Add: a buffer for no lines at all, which the program never makes, is excluded.
