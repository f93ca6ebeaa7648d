# Homelab daemon: a verified model

This project models the stateful core of the homelab daemon and of its dashboard, and proves what they promise:

- the **supervisor**: a monitor loop that restarts units with escalating backoff, at most one restart per unit, an
  ordered boot sequence, user stops that stick, API commands that never leave a service without its mounts, and state
  that outlives processes and kernels;
- the **shared poller** of the dashboard, which keeps exactly one poll chain alive;
- the **row packing** of the overview page, which is optimal;
- the **pool discovery**, whose superblock cache is compared with probing every disk, and the parser below it;
- the **config merge**, a fixpoint with an exact change flag;
- three small ones: the update trigger, the paged torrent list, byte units.

`dafny verify dfyconfig.toml` checks everything. Every module names the source lines it models or reasons about at its
head.

## How it is modelled

**Supervisor.** `Supervisor` is a transition system: one action is one atomic step of the monitor goroutine, of one
restart goroutine, of the API or of the clock. What a step observes (unit state, exit status, mounts, dependencies, the
outcome of systemctl) is part of the action, so nothing is assumed about the environment; an action whose guard is
false changes nothing, so every sequence of actions is a run. The log is a history: what the breaker table holds is
proved to be a function of it. One evaluation inside a tick exists in two forms. `Evaluate` does the breaker test
(`cmd/daemon/monitor.go:456`) and the in-flight reservation (`cmd/daemon/monitor.go:473`) in one step, which is what
really happens when no goroutine of the unit moves between them; `Check` and `Reserve` split it. The sharp pacing bound
holds for runs that use `Evaluate`, and more generally as long as no reservation dispatches a restart whose delay ends
before the wait does; any other reservation can break it (`StaleReservations`). Over every run each second failure
keeps the distance. A tick that sees a unit active resets the breaker, so all bounds are bounds between
resets. Time is in nanoseconds; the clock does not run backwards. `CircuitBreaker`, `State`, `Scheduler` and the API
are classes; their methods are proved against the functions that the transition systems use. What each step does is
stated a second time and independently, unit by unit, in `StepEffects`, and in `CommandEffects` and `PollerEffects` for
the commands and for the poller.

**Commands, monitor and boot together.** `MonitoredHost` runs the API commands of `Commands`, the monitor of `Supervisor`,
the check and the start of each service that boot handles, and configuration reloads on one host: what the monitor
observes is then what is there, and successful starts activate units. The number of mount events at the time of each
check is kept as a history variable. `StoppedHost` proves on the same host what a stop command does to restarts.

**Boot.** The environment is a function of the number of observations made so far, so any change between two
observations is allowed; unit states may also depend on what boot has started. `sort.Slice` is not stable and is
modelled as picking any entry of least order next.

**State file.** A write either happens whole or leaves arbitrary content behind. Times are written with whole seconds
(section 5.6 of RFC 3339) and come back floored. The histories in `Sessions` are those in which writes succeed.

**Poller.** The event loop runs callbacks one at a time, so each method is one step; fetches in flight and pending timers
are part of the state. Each subscriber uses its own listener, and listeners neither throw nor call back.

**Discovery.** `bcachefs show-super` is a function from paths to texts that may fail, and `/proc/mounts` a text, both
unchanged during one pass. Pools are returned as a map, since the source iterates over a Go map in no fixed order.
`SuperLines` says what one line of the superblock text gives, `Superblock` what the whole text does.

Where the code and its comments disagree, the code is followed:

- `computeRows` casts a widened span to `1 | 2 | 4`, but it is 3 in a short pair led by a span of 1
  (`WidenedSpanKeepsTheTypeExactlyWhen`).
- A reservation can rest on a breaker test that a failure has made stale (`ReservationBreaksPacingExactlyWhen`).
- A `metadata_replicas:` line also matches `data_replicas:`, so a metadata count below the data count replaces it
  (`DataReplicasExactlyWhen`).
- The cache match at `internal/storage/bcachefs/bcachefs.go:213` accepts every disk when a device line has no path,
  unlike the match at line 252 (`CachedIsFreshExactlyWhen`).
- `isManaged` accepts a bare name, but the user-stop flag is stored and the mounts are looked up under the raw name
  (`StartKeepsMountSafetyExactlyWhen`, `StopMarksTheUnitExactlyWhen`).
- The unmount handler compares the path of the request, which umount may resolve to another spelling
  (`UnmountKeepsMountSafetyExactlyWhen`).
- The restart handler checks no mounts (`RestartKeepsMountSafetyExactlyWhen`), and a restart that is under way reads
  neither the flag nor the mounts again; boot does not read the mounts again after its delay
  (`StartFollowsStopExactlyWhen`, `MountSafetyExactlyWhen`).
- The comment on SharedPoller promises one poll chain; subscribing the only subscriber again while its timer is pending
  starts a second one (`ExactlyOneChain`).
- Two overlapping runs of a backup can leave the scheduler's time and the persisted one apart
  (`SchedulerAgreesExactlyWhen`).
- The merge's change flag can be set without a change when a unit is listed twice among the defaults
  (`FlagIsWrongExactlyWhen`).

## Model

| member | source | states |
|---|---|---|
| `Breaker.BackoffNeverShrinks` | cmd/daemon/monitor.go:22-28 | more consecutive failures never mean a shorter wait |
| `Breaker.BackoffIs` | cmd/daemon/monitor.go:22-28 | the waits themselves: none, 30, 120, 600 seconds, and 3600 from the fifth failure on |
| `Breaker.CircuitBreaker.constructor` | cmd/daemon/monitor.go:42-44 | no unit has an entry |
| `Breaker.CircuitBreaker.Get` | cmd/daemon/monitor.go:46-54 | the unit's entry, created empty if missing; no other entry changes |
| `Breaker.CircuitBreaker.IsOpen` | cmd/daemon/monitor.go:56-60 | whether the clock is before the end of the unit's wait |
| `Breaker.CircuitBreaker.State` | cmd/daemon/monitor.go:63-69 | the failure count and the end of the wait |
| `Breaker.CircuitBreaker.RecordFailure` | cmd/daemon/monitor.go:72-92 | one more failure, a wait from now as the schedule says, an earlier wait kept when the schedule says none; returns it |
| `Breaker.CircuitBreaker.Reset` | cmd/daemon/monitor.go:95-103 | forgets the unit and no other |
| `Supervisor.SingleFlightKept` | cmd/daemon/monitor.go:472-481 | every step keeps: at most one live restart goroutine per unit, and exactly the reserved units have one |
| `Supervisor.BreakerAgreementKept` | cmd/daemon/monitor.go:444-582 | every step keeps: a unit's breaker entry is the count and the wait that its failures since the last reset in the history give |
| `Supervisor.InvAlways` | cmd/daemon/monitor.go:403-582 | both hold in every state of every run |
| `StepEffects.RecordAfter` | cmd/daemon/monitor.go:444-582 | the whole effect of every step on a unit's record: a start that fails, or a unit that is down once settled, adds the clock; a sighting as active, a settled restart, an enabling and a daemon restart empty it; nothing else touches it |
| `StepEffects.RecordForgottenExactlyWhen` | cmd/daemon/monitor.go:448-452 | a record is emptied if and only if a tick sees a managed entry of the unit active, its goroutine settles, it is enabled or the daemon restarts |
| `StepEffects.FirstFailureAfterReset` | cmd/daemon/monitor.go:444-582 | over every run the first failure after such a step is failure 1 and imposes no wait |
| `StepEffects.StartIssuedExactlyWhen` | cmd/daemon/monitor.go:533-550 | a start of the unit is issued if and only if a goroutine of it whose delay is over finds its dependencies up |
| `StepEffects.CheckPassesExactlyWhen` | cmd/daemon/monitor.go:445-470 | a check lets an entry through if and only if it is enabled and down, its policy allows it, the wait after its last failure is over and its mounts are there |
| `StepEffects.ReservationDispatchesExactlyWhen` | cmd/daemon/monitor.go:472-482 | a reservation adds one goroutine and reserves its unit if and only if the unit is free |
| `StepEffects.ReleasedExactlyWhen` | cmd/daemon/monitor.go:477-481 | a unit is released if and only if its goroutine ends, is cancelled in a sleep, or the daemon restarts |
| `StepEffects.EndedIsDone` | cmd/daemon/monitor.go:519-582 | a step ends its goroutine exactly when a dependency is down, the start fails or the settling is over, and moves no other |
| `StepEffects.PendingAfter` | cmd/daemon/monitor.go:472-481 | a reservation that a check has made is used up by the next reservation or lost with the process |
| `StepEffects.NothingSurvivesRestart` | cmd/daemon/monitor.go:403-407 | a new process has no restart under way, no reservation and no record of failures |
| `StepEffects.MarksAfter` | cmd/daemon/api.go:313-391 | the user's marks after every step, unit by unit |
| `StepEffects.RestartSleeps` | cmd/daemon/monitor.go:533-571 | over every run a goroutine issues its start exactly when its restart delay after the first dependency check is over, and judges the unit no earlier than ten seconds after that |
| `StepEffects.SettlesForTenSeconds` | cmd/daemon/monitor.go:565-571 | and once systemctl has returned, exactly ten seconds later |
| `Pacing.ReservationKeepsPacingExactlyWhen` | cmd/daemon/monitor.go:472-481 | a reservation keeps the pacing invariant if and only if the unit has a restart in flight or its wait is over at that moment |
| `Pacing.TimelyRunsArePaced` | cmd/daemon/monitor.go:444-482 | in every run whose reservations are such, failure k+1 of a unit comes no earlier than failure k plus the wait it imposed |
| `Pacing.AtomicRunsArePaced` | cmd/daemon/monitor.go:444-482 | in particular in every run of unsplit evaluations |
| `Pacing.EvaluationDispatchesExactlyWhenDue` | cmd/daemon/monitor.go:444-501 | an evaluation starts a restart if and only if the entry is managed, the unit is down, its policy allows it, the recorded wait is over, the mounts are there and no restart of it runs |
| `Pacing.RestartOutcomeIsRecorded` | cmd/daemon/monitor.go:543-582 | a failed or unsettled restart is one more failure, a settled one clears the record; the unit is free again, no other unit is touched |
| `Pacing.EveryRunIsPacedByTwo` | cmd/daemon/monitor.go:456-481 | over every interleaving failure k+2 waits out what failure k imposed, and a reservation is stale by at most one failure |
| `Pacing.PacedByTwoTotal` | cmd/daemon/monitor.go:72-92 | hence failure 2m+1 comes at least 120 + 3600 (m - 2) seconds after the first |
| `Pacing.SplitEvaluationBreaksPacing` | cmd/daemon/monitor.go:456-478 | a concrete run with a split evaluation that has three failures at one instant |
| `StaleReservations.HarmlessRunsArePaced` | cmd/daemon/monitor.go:456-540 | the sharp bound holds in every run in which no reservation, however stale, dispatches a restart whose delay ends before the wait |
| `StaleReservations.TimelyRunsAreHarmless` | cmd/daemon/monitor.go:456-481 | which every run with timely reservations is |
| `StaleReservations.NthFailureIsLate` | cmd/daemon/monitor.go:72-92 | in such a run the n-th failure since the last reset comes at least 750 + 3600 (n - 5) seconds after the first, n >= 5 |
| `StaleReservations.ReservationBreaksPacingExactlyWhen` | cmd/daemon/monitor.go:456-540 | a reservation that dispatches has a continuation that breaks the pacing, with no further such reservation, if and only if its restart delay ends before the wait |
| `UserStop.BeforeStartAtMostOne` | cmd/daemon/monitor.go:472-481 | at most one goroutine of a unit has its start still ahead |
| `UserStop.QuietStep` | cmd/daemon/monitor.go:453-550 | no step after a stop commits the monitor to a further start of the unit |
| `UserStop.UserStopWins` | cmd/daemon/api.go:313-327 | after a stop, with nothing that lifts it and a policy other than always, no more starts over the rest of any run than restarts of the unit that are before their start: at most one goroutine and one reservation |
| `UserStop.StartFollowsStopExactlyWhen` | cmd/daemon/monitor.go:472-550 | after any run and stop that many starts can follow, so a start can follow the stop if and only if a goroutine of the unit is before its start or a reservation of it is pending |
| `UserStop.RestartUnderWayIgnoresTheStop` | cmd/daemon/monitor.go:526-550 | a goroutine past its delay issues the start although the unit is stopped |
| `UserStop.StopCanComeTooLate` | cmd/daemon/monitor.go:444-550 | a run from the beginning, for every service the monitor restarts, in which one does |
| `Boot.WaitActive` | cmd/daemon/monitor.go:301-316 | looks every three seconds until the unit is active, at once if it is; gives up only after 120 seconds or on cancellation, and without oversleeping within 123 |
| `Boot.WaitForDependencies` | cmd/daemon/monitor.go:346-353 | waits for each dependency in order until it is active, or gives up with one that took more than two minutes or was cancelled; starts nothing, and waits for nothing when all is ready |
| `Boot.VerifyDependencies` | cmd/daemon/monitor.go:355-363 | every dependency was seen active, one after the other and nothing in between, or up to one that was seen inactive |
| `Boot.CheckConstraints` | cmd/daemon/monitor.go:171-178 | succeeds if and only if every required mount is seen, each by an observation of its own |
| `Boot.Delay` | cmd/daemon/monitor.go:371-379 | passes the boot delay, fails only on cancellation |
| `Boot.Prepare` | cmd/daemon/monitor.go:346-388 | a service may start only after the waits, every dependency seen active, the mounts, the delay and every dependency seen active once more, in this order and with nothing in between; it is skipped only if the first of these that did not hold is of its own; boot stops only on cancellation |
| `Boot.BootOne` | cmd/daemon/monitor.go:340-398 | one service: started once and guarded, or skipped for a dependency seen down or a mount seen missing; started when ready; boot goes on to the next one unless it is cancelled |
| `Boot.StartOne` | cmd/daemon/monitor.go:390-398 | the start is recorded with what systemctl returned, and a successful one activates the unit |
| `Boot.SortByOrder` | cmd/daemon/monitor.go:336-338 | a permutation, ordered |
| `Boot.EligibleOnly` | cmd/daemon/monitor.go:320-334 | the enabled services that the user has not stopped, whatever their policy, exactly as often as they are listed |
| `Boot.EligibleInOrder` | cmd/daemon/monitor.go:320-334 | and in the order of the list |
| `Boot.DependenciesUp` | cmd/daemon/monitor.go:319-399 | when boot reaches a service, its dependencies of smaller order are up |
| `Boot.Boot` | cmd/daemon/monitor.go:319-399 | in any environment the trace is one such attempt after the other at the ordered eligible services, up to a cancellation, so without one every service is started or skipped; the starts are a subsequence of the plan; in a favourable environment every service starts and no dependency wait waits |
| `Boot.StartedExactlyWhenNotSkipped` | cmd/daemon/monitor.go:347-386 | hence without a cancellation each service is started or skipped, and not both, and a skip comes with its own failed wait, verification or mount check just before it |
| `Boot.ReadyServiceStarts` | cmd/daemon/monitor.go:347-398 | so a service whose own mounts and dependencies hold at every observation is started, whatever happens to the others |
| `Boot.StartsAreSafe` | cmd/daemon/monitor.go:319-399 | hence starts are enabled, not stopped by the user, in non-decreasing order, each distinct unit at most once |
| `StateStore.State.constructor` | cmd/daemon/state.go:32-52 | memory is what the file gives, without stops of units no longer configured |
| `StateStore.State.Load` | cmd/daemon/state.go:185-205 | a missing or malformed file gives an empty state, and a time that does not parse is left out |
| `StateStore.State.Persist` | cmd/daemon/state.go:164-182 | after a write, loading the file gives the memory with times floored to seconds |
| `StateStore.State.IsUserStopped` | cmd/daemon/state.go:55-59 | whether the unit is in the stopped set |
| `StateStore.State.SetUserStopped` | cmd/daemon/state.go:62-71 | marks or lifts exactly this unit; file and memory agree after a write |
| `StateStore.State.SetAllUserStopped` | cmd/daemon/state.go:74-85 | marks or lifts exactly these units; file and memory agree after a write |
| `StateStore.State.SetBackupLastRun` | cmd/daemon/state.go:88-93 | records the time of exactly this unit; file and memory agree after a write |
| `StateStore.State.IsFirstStartAfterBoot` | cmd/daemon/state.go:134-153 | true if and only if the id is unreadable or not the one held; then holds and writes it |
| `StateStore.Scheduler.constructor` | cmd/daemon/scheduler.go:42-53 | starts with the persisted last-run times |
| `StateStore.Scheduler.RecordRun` | cmd/daemon/scheduler.go:100-109 | an undisturbed run leaves scheduler, state and file in agreement |
| `StateStore.Scheduler.LastRunStart` | cmd/daemon/scheduler.go:115-119 | the recorded start of the unit, if any |
| `Sessions.OneFirstStartPerSession` | cmd/daemon/state.go:134-205 | over any history of kernel boots, daemon starts and mutations with readable, unused ids, exactly the first check of a kernel session answers true |
| `Sessions.UnreadableBootIDAlwaysFirst` | cmd/daemon/state.go:135-140 | without a readable id every check answers true and nothing is written |
| `Sessions.DaemonRuns` | cmd/daemon/main.go:294-300 | a daemon runs from its start to its end or the next kernel boot, and begins with the boot id and the backup times of the file |
| `Sessions.UserStopSurvivesRestarts` | cmd/daemon/state.go:32-85 | a stop is found by every later daemon until it is lifted or the unit leaves the configuration |
| `Sessions.LiftedStopStaysLifted` | cmd/daemon/state.go:32-85 | once lifted, a stop is found by no later daemon until the next stop |
| `Sessions.UnlistedUnitIsForgotten` | cmd/daemon/state.go:32-52 | a daemon that starts without the unit in its configuration drops its stop and no other, for good with the next save |
| `Sessions.LastRunSurvivesRestarts` | cmd/daemon/state.go:88-205 | a recorded run comes back in whole seconds after any number of processes |
| `Sessions.SchedulerAgreesWithState` | cmd/daemon/scheduler.go:103-109 | if runs of one unit do not overlap, scheduler and state agree on every unit that is not between its two updates |
| `Sessions.SchedulerAgreesExactlyWhen` | cmd/daemon/scheduler.go:103-109 | over every history, once no run of a unit is between its two updates, the two agree on it if and only if the run that ended last carries the time of the run that began last |
| `Sessions.OverlappingRunsDisagree` | cmd/daemon/scheduler.go:103-109 | two runs for which they do not |
| `Commands.Api.IsManaged` | cmd/daemon/api.go:1469-1480 | whether an entry has the completed name |
| `Commands.Api.EnabledUnits` | cmd/daemon/api.go:1482-1490 | the enabled units in order |
| `Commands.Api.StartUnit` | cmd/daemon/api.go:294-308 | succeeds if and only if the mounts of the named entry are there and systemctl works |
| `Commands.Api.Start` | cmd/daemon/api.go:282-311 | the whole new state; the flag is lifted even when mounts block the start |
| `Commands.Api.Stop` | cmd/daemon/api.go:313-327 | the whole new state; the unit is marked even when systemctl fails |
| `Commands.Api.Restart` | cmd/daemon/api.go:329-348 | the whole new state; no mounts are checked |
| `Commands.Api.StartAll` | cmd/daemon/api.go:350-377 | activates exactly the enabled units whose mounts hold and whose start works; counts the others |
| `Commands.Api.StopAll` | cmd/daemon/api.go:379-391 | marks the enabled units, deactivates exactly those whose stop works and counts the others |
| `CommandEffects.MarkedAfter` | cmd/daemon/api.go:282-391 | unit by unit: start and stop lift and set the mark of the name they were sent, start-all and stop-all those of exactly the enabled entries, nothing else any |
| `CommandEffects.RestartMarks` | cmd/daemon/api.go:329-348 | a restart lifts the mark of the name it was sent |
| `CommandEffects.RunningAfterOne` | cmd/daemon/api.go:282-348 | what runs after start, stop and restart, unit by unit, with the mounts of the first entry of exactly that name |
| `CommandEffects.RunningAfterAll` | cmd/daemon/api.go:350-391 | what runs after start-all and stop-all, unit by unit |
| `CommandEffects.MountedAfter` | cmd/daemon/api.go:764-819 | which mounts are there after each command |
| `CommandEffects.ReloadedIs` | cmd/daemon/api.go:393-408 | what runs after a reload: what ran, but for enabled entries that lack a mount and can be stopped |
| `CommandEffects.EnabledNamesAre` | cmd/daemon/api.go:1482-1490 | the names of exactly the enabled entries, one for each and in the order of the configuration |
| `CommandEffects.MissedCounts` | cmd/daemon/api.go:350-391 | the reported failures are the number of listed units that were not reached |
| `Commands.Api.Mount` | cmd/daemon/api.go:764-779 | the mount is there if the command works; nothing else changes |
| `Commands.Api.Unmount` | cmd/daemon/api.go:781-819 | refused if and only if an active service requires the path of the request, and reports exactly those; otherwise removes the mount that umount resolves it to |
| `Commands.Api.VerifyRunningServices` | cmd/daemon/monitor.go:184-202 | stops exactly the enabled running services that miss a mount and can be stopped; returns their number |
| `Commands.Api.Reload` | cmd/daemon/api.go:393-408 | a config that does not load changes nothing; otherwise the new services, verified |
| `Commands.StartKeepsMountSafetyExactlyWhen` | cmd/daemon/api.go:282-311 | a start keeps mount safety if and only if it uses the full name or the mounts are there anyway |
| `Commands.RestartKeepsMountSafetyExactlyWhen` | cmd/daemon/api.go:329-348 | a restart keeps it if and only if the mounts are there |
| `Commands.StopMarksTheUnitExactlyWhen` | cmd/daemon/api.go:313-327 | a stop marks the unit that the monitor knows if and only if it uses the full name |
| `Commands.StartLiftsTheStopExactlyWhen` | cmd/daemon/api.go:282-291 | a start lifts the stop of a stopped unit if and only if it uses the full name |
| `Commands.UnmountKeepsMountSafetyExactlyWhen` | cmd/daemon/api.go:781-819 | a working unmount keeps mount safety if and only if it is refused or no running service requires what is unmounted |
| `Commands.CommandsKeepMountSafety` | cmd/daemon/api.go:282-391 | no sequence of start, start-all, stop, stop-all, mount and unmount, with the names and paths of the configuration, leaves an active managed service without a required mount |
| `Commands.BareStartBreaksMountSafety` | cmd/daemon/api.go:282-311 | a host and a start by a bare name that leaves a service without its mount |
| `Commands.RestartBreaksMountSafety` | cmd/daemon/api.go:329-348 | a host and a restart that does |
| `Commands.BareStopIsForgotten` | cmd/daemon/api.go:313-327 | a stop by a bare name that marks another name |
| `Commands.AliasUnmountBreaksMountSafety` | cmd/daemon/api.go:781-819 | an unmount by another spelling that leaves a service without its mount |
| `Commands.VerificationRestoresSafety` | cmd/daemon/monitor.go:180-202 | after verification an enabled service violates its mounts if and only if it did before and no entry of its name could be stopped |
| `Commands.ReloadKeepsMountSafetyExactlyWhen` | cmd/daemon/api.go:393-408 | mount safety holds after a reload if and only if no running service that lacks a mount is disabled or cannot be stopped |
| `MonitoredHost.StartLacksMountsExactlyWhen` | cmd/daemon/monitor.go:365-394 | a restart or boot activates a unit without a mount it was checked for if and only if that mount was unmounted, and not mounted again, since the check |
| `MonitoredHost.TakeKeepsMountSafetyExactlyWhen` | cmd/daemon/monitor.go:340-582 | of all steps of commands, monitor, goroutines, boot, reloads and stopping units only a start that lacks a mount gone since the check, or added to the entry by a reload since, and a reload that leaves a violation running break mount safety |
| `MonitoredHost.MountSafetyExactlyWhen` | cmd/daemon/monitor.go:340-582 | over every interleaving of them no active managed service ever lacks a required mount if and only if no such step happens |
| `MonitoredHost.UnmountDuringRestart` | cmd/daemon/api.go:781-819 | a run from the beginning in which one happens |
| `MonitoredHost.UnmountDuringBootDelay` | cmd/daemon/monitor.go:365-391 | another one, during the delay of boot |
| `MonitoredHost.RunningAfter` | cmd/daemon/monitor.go:340-582 | what runs after every step, unit by unit |
| `MonitoredHost.BootAfter` | cmd/daemon/monitor.go:340-399 | the service that boot has checked, after every step |
| `StoppedHost.StopCommandEndsRestarts` | cmd/daemon/api.go:313-391 | after a stop or stop-all at any point of any history of commands, monitor, goroutines, boot and reloads, with no start of the unit and no start-all and no entry with policy always, the unit stays marked and the monitor issues no more starts of it than restarts that were before their start: at most one goroutine and one reservation |
| `StoppedHost.MarkDecidesExactlyWhen` | cmd/daemon/monitor.go:453-501 | a down unless-stopped unit with nothing else in its way is restarted if and only if no stop has marked it |
| `SharedPoller.PollInterval` | frontend/src/hooks/use-overview.ts:38-49 | between 2 and 60 seconds |
| `SharedPoller.ResolvedInterval` | frontend/src/hooks/use-overview.ts:121-124 | the same, and at least 30 seconds in a hidden tab |
| `SharedPoller.IntervalIs` | frontend/src/hooks/use-overview.ts:38-124 | the stored interval clamped to 2 and 60 seconds, 10 without one, and the larger of that and 30 in a hidden tab |
| `PollerEffects.SubscribersAfter` | frontend/src/hooks/use-overview.ts:79-97 | who subscribes after every event |
| `PollerEffects.FetchesAfter` | frontend/src/hooks/use-overview.ts:108-168 | a fetch begins if and only if the first subscriber comes or a timer fires for somebody, and none is in flight; it keeps the interval of that moment; an answer is cached |
| `PollerEffects.TimersAfter` | frontend/src/hooks/use-overview.ts:92-183 | a timer is set if and only if a fetch ends while somebody subscribes, with the delay that fetch says, at most two seconds after a failure; the last unsubscription clears it |
| `PollerEffects.DeliveredAfter` | frontend/src/hooks/use-overview.ts:79-191 | what each listener receives from every event: fresh data, cached data or nothing |
| `SharedPoller.Poller.Subscribe` | frontend/src/hooks/use-overview.ts:79-90 | the whole new state: cached data at once, a tick for the only subscriber |
| `SharedPoller.Poller.Unsubscribe` | frontend/src/hooks/use-overview.ts:92-97 | the whole new state: the last one stops the timer |
| `SharedPoller.Poller.Stop` | frontend/src/hooks/use-overview.ts:101-106 | the pending timer is gone |
| `SharedPoller.Poller.Tick` | frontend/src/hooks/use-overview.ts:108-124 | nothing without subscribers; else cached data to all and a fetch unless one is in flight |
| `SharedPoller.Poller.DeliverTo` | frontend/src/hooks/use-overview.ts:185-190 | exactly these listeners get the data, the others keep theirs |
| `SharedPoller.Poller.OnResolved` | frontend/src/hooks/use-overview.ts:131-165 | cached, delivered to all, next tick after the interval this fetch captured |
| `SharedPoller.Poller.OnRejected` | frontend/src/hooks/use-overview.ts:166-182 | cached data again, next tick after at most two seconds |
| `SharedPoller.Poller.OnTimer` | frontend/src/hooks/use-overview.ts:163-165 | the timer is gone and a tick happens |
| `SharedPoller.SubscribeKeepsGoodExactlyWhen` | frontend/src/hooks/use-overview.ts:79-90 | a subscription keeps one chain if and only if it is not the only subscriber subscribing again while a timer is pending |
| `SharedPoller.ExactlyOneChain` | frontend/src/hooks/use-overview.ts:72-191 | at every moment fetches plus timers are at most 1, exactly 1 while anybody subscribes, no timer otherwise, and every subscriber was last given the cached snapshot: in exactly the histories in which the only subscriber never subscribes again while its timer is pending |
| `SharedPoller.GoodThroughoutExactlyWhen` | frontend/src/hooks/use-overview.ts:72-191 | the invariant that carries this, with the fetching flag, the timer id and the intervals, holds in the same histories |
| `SharedPoller.FreshListenersNeverDouble` | frontend/src/hooks/use-overview.ts:206-223 | as in all histories in which listeners are subscribed once at a time, as the hook does |
| `SharedPoller.SubscribingAgainDoublesTheChain` | frontend/src/hooks/use-overview.ts:79-90 | a history of three events that ends with two chains |
| `SharedPoller.ChainGoesOn` | frontend/src/hooks/use-overview.ts:108-183 | whatever is pending leads to the other kind of work, and an answer reaches every subscriber |
| `RowPacking.FitIsMaximal` | frontend/src/pages/OverviewPage.tsx:13-21 | a row takes what fits and the next item would not have fitted |
| `RowPacking.GreedyIsOptimal` | frontend/src/pages/OverviewPage.tsx:13-22 | no split into consecutive rows that fit has fewer rows |
| `RowPacking.RowsAreFullAndFewest` | frontend/src/pages/OverviewPage.tsx:8-34 | every item once and in order, no empty row, each row filled to exactly cols by its last item alone, and no other split has fewer rows |
| `RowPacking.WidenedSpanKeepsTheTypeExactlyWhen` | frontend/src/pages/OverviewPage.tsx:25-31 | for every layout of spans 1, 2 and 4 in four columns, the widened span of a row is one of these if and only if the row is not a pair of total below four whose first span is 1; all other spans are |
| `RowPacking.WidenedSpanCanLeaveTheType` | frontend/src/pages/OverviewPage.tsx:25-31 | a layout with such a pair |
| `RowPacking.CopyClipped` | frontend/src/pages/OverviewPage.tsx:14-20 | new objects with clipped spans |
| `RowPacking.Cut` | frontend/src/pages/OverviewPage.tsx:9-22 | the first loop makes the greedy rows |
| `RowPacking.WidenRows` | frontend/src/pages/OverviewPage.tsx:24-31 | the second loop writes to the last object of each row only |
| `RowPacking.ComputeRows` | frontend/src/pages/OverviewPage.tsx:8-34 | the rows just described, without a change to the layout's own objects |
| `Text.SplitJoin` | internal/storage/bcachefs/bcachefs.go:300-303 | texts joined by the separator split into their own parts |
| `Text.SplitJoins` | internal/storage/bcachefs/bcachefs.go:166-171 | parts without the separator come back from the text they are joined to |
| `Sectioning.Partition` | internal/storage/bcachefs/bcachefs.go:308-346 | header and sections are the whole list in order, the header has no device line and a section exactly one, in front |
| `Sectioning.Concat` | internal/storage/bcachefs/bcachefs.go:308-346 | cutting before a device line cuts the sections there and leaves the header |
| `Sectioning.Reader.ReadIsSectioned` | internal/storage/bcachefs/bcachefs.go:308-429 | one pass with a current section gives what reading the header and each section on its own gives |
| `SuperLines.DeviceColon` | internal/storage/bcachefs/bcachefs.go:311-316 | the colon lies behind the keyword, so every slice is in bounds |
| `SuperLines.DeviceColonIs` | internal/storage/bcachefs/bcachefs.go:311-316 | a device section opens if and only if the line has the keyword with a colon behind it and no Device index:, and the number ends at the first such colon |
| `SuperLines.DeviceInReads` | internal/storage/bcachefs/bcachefs.go:316-334 | the index is the trimmed text up to that colon, the path the first word behind it, empty if and only if there is none, and the model the first word behind the path |
| `SuperLines.WordAfterIs` | internal/storage/bcachefs/bcachefs.go:353-361 | the first word after the key, if and only if the key occurs and something other than spaces follows |
| `SuperLines.LabelsAre` | internal/storage/bcachefs/bcachefs.go:338-374 | a label is that word, none for (none), and for the pool only on a line without the device keyword |
| `SuperLines.NumberAfterIs` | internal/storage/bcachefs/bcachefs.go:376-395 | a count is the number scanned from that word |
| `SuperLines.ScanIntIs` | internal/storage/bcachefs/bcachefs.go:382-394 | every 64-bit number is scanned from its decimal form, also after a plus sign and whatever follows the digits, and no larger one is |
| `SuperLines.NoDigitNoNumber` | internal/storage/bcachefs/bcachefs.go:382-394 | a word without a digit in front or after one sign gives no number |
| `Superblock.LabelDevice` | internal/storage/bcachefs/bcachefs.go:338-351 | the label is replaced exactly when the line gives one, with (none) for no label |
| `Superblock.NoteLine` | internal/storage/bcachefs/bcachefs.go:352-425 | each header field is overwritten exactly when the line gives it |
| `Superblock.ScanLine` | internal/storage/bcachefs/bcachefs.go:310-427 | the loop body is one step of the one-pass reader |
| `Superblock.ParseSuper` | internal/storage/bcachefs/bcachefs.go:300-429 | each header field is what the last header line with its own key says; one device per device line with the index, path and model of that line, labelled by the last label line of its own section |
| `Superblock.ParsedIsSaid` | internal/storage/bcachefs/bcachefs.go:300-429 | the same for every result of the one-pass reader, with the keys spelled out and without its readers |
| `Superblock.Keys.ParsedOnce` | internal/storage/bcachefs/bcachefs.go:300-429 | the text determines the result |
| `Superblock.ParsingIsCompositional` | internal/storage/bcachefs/bcachefs.go:300-429 | a text cut before a device line parses in parts: devices concatenate, the header is the first part's |
| `Superblock.MetadataLineIsADataLine` | internal/storage/bcachefs/bcachefs.go:376-394 | a metadata_replicas: line is also a data_replicas: line, with the same count |
| `Superblock.DataReplicasExactlyWhen` | internal/storage/bcachefs/bcachefs.go:376-394 | for every header the data replica count is the text's own one if and only if no line that lends its metadata count comes last or the last lent count is the same |
| `Superblock.DataReplicasCanBeWrong` | internal/storage/bcachefs/bcachefs.go:376-394 | two lines for which it is not |
| `Discovery.FirstMount` | internal/storage/bcachefs/bcachefs.go:160-178 | empty if and only if no bcachefs line of the mount table lists the device |
| `Discovery.FirstMountIs` | internal/storage/bcachefs/bcachefs.go:160-178 | and else the second field of the first such line |
| `Discovery.MountLineMountsItsDevices` | internal/storage/bcachefs/bcachefs.go:153-178 | a table line for devices joined by colons mounts exactly these devices at its second field |
| `Discovery.MountOf` | internal/storage/bcachefs/bcachefs.go:259-270 | the table's mount if there is one, else what lsblk reports, none if neither has one |
| `Discovery.FindBcachefsMount` | internal/storage/bcachefs/bcachefs.go:160-178 | the mount of the first such line |
| `Discovery.Group` | internal/storage/bcachefs/bcachefs.go:436-439 | the label up to its first dot |
| `Discovery.DetermineDiskTargets` | internal/storage/bcachefs/bcachefs.go:431-457 | when exactly each of the two targets is foreground and background; none without a label |
| `Discovery.IsListed` | internal/storage/bcachefs/bcachefs.go:211-217 | whether some cached device matches |
| `Discovery.MatchesDifferExactlyWhen` | internal/storage/bcachefs/bcachefs.go:212-252 | the cache is hit without a label match if and only if the device has no path and the disk one, or the disk has no name and its path does not end like the device's |
| `Discovery.MatchesOnSuffixes` | internal/storage/bcachefs/bcachefs.go:252-252 | a device with a path is matched if and only if the disk's path ends with it or it ends with the disk's name |
| `Discovery.PlaceDisk` | internal/storage/bcachefs/bcachefs.go:251-257 | label and targets of the first matching device |
| `Discovery.PlacedIs` | internal/storage/bcachefs/bcachefs.go:251-257 | label and targets are those of the first matching device and stay empty without one |
| `Discovery.JoinPool` | internal/storage/bcachefs/bcachefs.go:239-272 | one pool gains this disk, made from this superblock if it is new |
| `Discovery.DiscoverPools` | internal/storage/bcachefs/bcachefs.go:181-280 | the pools of the cached pass |
| `CachedDiscovery.PoolsAre` | internal/storage/bcachefs/bcachefs.go:239-272 | for every UUID: a pool if and only if a disk uses it, with the members in order, the first one's header and the last mount |
| `CachedDiscovery.SupersFollow` | internal/storage/bcachefs/bcachefs.go:200-236 | each qualifying disk uses the superblock of the last qualifying disk if it is listed there, and else the one its own probe gives; a failed probe empties the cache |
| `CachedDiscovery.FreshPoolExactlyWhen` | internal/storage/bcachefs/bcachefs.go:200-272 | with a probe for every disk, a disk is in the pool of a UUID if and only if lsblk calls it bcachefs or nothing and its show-super succeeds with that UUID |
| `CachedDiscovery.ExactlyOnePool` | internal/storage/bcachefs/bcachefs.go:200-272 | a disk is in the pool of the superblock it uses and in no other; a disk that uses none is in none |
| `CachedDiscovery.CachedIsFreshExactlyWhen` | internal/storage/bcachefs/bcachefs.go:192-236 | for disks with distinct paths the cached pass gives the pools of probing every disk if and only if every cache hit is a member that its own probe labels alike |
| `CachedDiscovery.CachedIsFreshWhenMembersAgree` | internal/storage/bcachefs/bcachefs.go:192-236 | so it does when show-super agrees on all members and only members match |
| `CachedDiscovery.EmptyPathAdmitsOutsiders` | internal/storage/bcachefs/bcachefs.go:212-216 | a device line without a path lets any qualifying disk into the pool |
| `CachedDiscovery.PathlessDeviceAdmitsADrive` | internal/storage/bcachefs/bcachefs.go:212-216 | a show-super text and an optical drive for which it happens |
| `Rounds.MergedIs` | cmd/daemon/merge.go:53-118 | every old entry at its place, synced with its default, then the new defaults in order |
| `Rounds.MergedIsAnyway` | cmd/daemon/merge.go:53-118 | the same for lists that repeat a name: only the last entry of a name is synced |
| `Rounds.FlagIs` | cmd/daemon/merge.go:53-118 | some round changes the list if and only if some default is new or disagrees with its entry |
| `Rounds.OutcomeIs` | cmd/daemon/merge.go:53-118 | the outcome is the old list if and only if no default is new and the last default of every listed name agrees |
| `Rounds.FlagIsWrongExactlyWhen` | cmd/daemon/merge.go:53-118 | so the flag is wrong if and only if the outcome is the old list and an earlier default of some name disagrees |
| `Rounds.FlagIsExact` | cmd/daemon/merge.go:53-118 | with distinct defaults it never is |
| `Merge.StringSlicesEqual` | cmd/daemon/merge.go:211-221 | equality of lists |
| `Merge.IndexOf` | cmd/daemon/merge.go:53-56 | every name with its last position |
| `Merge.ConfigCell.Migrate` | cmd/daemon/config.go:147-159 | version at least 1; reports a change exactly |
| `Merge.ConfigCell.SyncService` | cmd/daemon/merge.go:62-84 | exactly the four Nix fields of one entry; reports a change exactly |
| `Merge.ConfigCell.MergeServices` | cmd/daemon/merge.go:52-91 | the merged services and whether some round changed them |
| `Merge.ConfigCell.MergeBackups` | cmd/daemon/merge.go:93-118 | the same for backups |
| `Merge.ConfigCell.Merge` | cmd/daemon/merge.go:49-132 | the merged config and the flag; unless a unit is listed twice among the defaults the flag is true if and only if the config changed |
| `Merge.OtherSectionsAre` | cmd/daemon/merge.go:120-132 | the merged config has Nix's qui section, the user's other sections and at least version 1 |
| `Merge.FlagIsWrongExactlyWhen` | cmd/daemon/merge.go:49-132 | for all configs the flag is wrong if and only if the config is what the last defaults ask for and an earlier default of some unit disagrees |
| `Rounds.MergedTwice` | cmd/daemon/merge.go:53-118 | merging a list twice is merging it once, whatever names repeat |
| `Merge.MergeIsAFixpoint` | cmd/daemon/merge.go:49-132 | merging the same defaults twice is merging once, for all configs; distinct units stay distinct |
| `Merge.MergeTwice` | cmd/daemon/merge.go:49-141 | the second merge reports no change, unless a unit is listed twice among the defaults |
| `Merge.UnitsAreTheUnion` | cmd/daemon/merge.go:58-91 | the old units are a prefix of the new ones, which are exactly the union |
| `Merge.UserOwnershipIsRespected` | cmd/daemon/merge.go:62-91 | enabled, order, delays and policy of existing services stay, unlisted entries stay entirely, new ones are defaults |
| `Merge.NixOwnershipIsRespected` | cmd/daemon/merge.go:62-91 | every listed service ends with Nix's mounts, dependencies, icon and homepage |
| `Merge.BackupOwnershipIsRespected` | cmd/daemon/merge.go:99-118 | the same for backups and their two Nix fields |
| `Merge.BackupUnitsAreTheUnion` | cmd/daemon/merge.go:94-118 | old backups keep their places, the units are exactly the union, new entries are defaults |
| `Merge.DuplicateDefaultsFoolTheFlag` | cmd/daemon/merge.go:60-91 | defaults for which it is |
| `Updates.Module.TriggerCheck` | internal/updates/updates.go:133-139 | a request is queued unless one is |
| `Updates.Module.StartWorker` | internal/updates/updates.go:141-148 | the worker queues a first request and enters its loop |
| `Updates.Module.Select` | internal/updates/updates.go:150-161 | the three cases of the worker's select |
| `Updates.Module.Return` | internal/updates/updates.go:158-161 | after the checks the worker is back at its select |
| `Updates.NoRequestIsLost` | internal/updates/updates.go:133-163 | over every interleaving at most one request is queued, a request that no check has followed fills the channel, and a check begins only on a request made since the one before |
| `Updates.OwedCheckBegins` | internal/updates/updates.go:141-161 | with a request queued, a tick waiting or its first step ahead, the worker cannot go on without starting a check |
| `Updates.EveryRequestIsServed` | internal/updates/updates.go:133-163 | after any trigger and any tick a check begins within three steps of the worker plus one for each tick in between, unless the context is cancelled |
| `Updates.FirstCheckComes` | internal/updates/updates.go:141-161 | the first check needs no trigger |
| `Updates.WorkerIsNeverStuck` | internal/updates/updates.go:150-161 | as long as it owes a check the worker has a step to take |
| `Updates.OneCheckAtATime` | internal/updates/updates.go:157-161 | no other check begins before a check is finished |
| `Updates.StopsOnlyWhenCancelled` | internal/updates/updates.go:150-155 | the worker stops only after a cancellation |
| `Updates.CancelledCanStop` | internal/updates/updates.go:150-161 | after one it can stop within two of its steps |
| `Updates.StoppedForGood` | internal/updates/updates.go:150-155 | a stopped worker begins no check any more |
| `Qui.InstanceTorrents` | internal/qui/client.go:112-132 | exactly the server's list after as many requests as pages of 200 hold it, and at least one, or the first failing request |
| `Qui.SortBySpeedIsStable` | internal/qui/client.go:95-97 | fastest first, equal speeds in their old order |
| `Qui.StableSortIsUnique` | internal/qui/client.go:95-97 | every stable sort gives the same list |
| `Qui.StableSortPermutes` | internal/qui/client.go:95-97 | and a permutation |
| `Qui.AllTorrents` | internal/qui/client.go:68-99 | nothing if and only if a needed request fails; else the stable sort of all torrents tagged with their instance |
| `Qui.EverythingIs` | internal/qui/client.go:79-93 | before the sort: every torrent of every instance once, with its instance's name, in the order of instances and lists |
| `ByteUnits.SizeIsUnique` | internal/collector/stats.go:196-207 | one divisor and suffix give a quotient between 1 and 1024 |
| `ByteUnits.SizeExactlyWhen` | internal/collector/stats.go:196-207 | K, M, G, T, P and E stand for the powers of 1024 from the first to the sixth, and the quotient lies between 1 and 1024 |
| `ByteUnits.ScaleOn` | internal/collector/stats.go:202-205 | each turn keeps div = 1024^(exp+1) and n = b/div, stays in the suffixes and below 2^63 |
| `ByteUnits.ConversionsAre` | internal/collector/stats.go:201-205 | the conversions keep the number modulo 2^64 in the range of their type |
| `ByteUnits.FormatBytes` | internal/collector/stats.go:196-207 | for every uint64 that quotient, with a divisor in int64 |
| `ByteUnits.FmtBytes` | internal/doctor/doctor.go:268-279 | the same with a divisor in uint64, hence the same output |

## Left out

- HTTP routing, JSON, server-sent events, command line, logging, metrics and all other React components: input and output.
- systemctl, podman, skopeo, lsblk, show-super and the kernel's files: abstract outcomes and texts.
- The per-unit mutex of start and stop calls, and `restartUnit`, which does not take it: calls are atomic steps here.
- Notification of failures in the monitor tick (`prevFailures`), SMTP and cooldown: no effect on the supervised state.
- The PATCH handler beyond enabling a service: plain field updates.
- The scheduler's cron entries and `RunBackup`'s pause and resume of services: they start units outside the user-stop claim.
- YAML parsing and writing, the bootstrap branch of the merge, temporary files and renames.
- VPN setup and container metadata: depend on kernel and tools outside the repository.
- The recursion of `extractDisks` in `GetDisks`: a pre-order walk; `DiscoverPools` starts from the flat list.
- Disk fields that discovery only copies (size, type, model, serial, friendly name).
- Mounts that come and go outside the API, restart requests, enabling by PATCH and starts by backups in `MonitoredHost`: all but the third can break mount safety by themselves, the third starts nothing.
- How umount resolves a path: the resolved mount is a parameter of the command.
- Failed state writes in the session histories: the class `State` models them, `Sessions` assumes success.
- Time zones, years after 9999 and monotonic clock readings in persisted times.
- The error kept by the poller and the service-failure event it dispatches.
- Go data races and JavaScript exceptions.
- The printed decimal of a size: `float64` division and `%.1f`.
- Superblock.ParseSuper: lines are split at newlines only; terminal control characters are not removed, as in the source.
- RowPacking.ComputeRows: the copies are made in a loop of their own before the first loop, instead of inside it.
- Discovery.DiscoverPools: returns the pools as a map, so their order in the final list is not captured.
- Qui.InstanceTorrents: the server's list does not change between requests, and its total is the list's length.
- Qui.SortBySpeedIsStable: the library's merge of insertion-sorted blocks is modelled by an insertion sort; uniqueness makes the algorithm irrelevant.
