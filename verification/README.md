# Verification of the cleanup daemon

tinyland-cleanup is a daemon that frees disk space under pressure. Two kinds of promise
make it hard to get right: promises about whole runs (how often a plugin may run, what a
counter means after hundreds of cycles, that a plugin never runs twice at once) and promises
about what is never deleted (a live Bazel output base, a Nix path a session still uses, an
agent session's store, a file Git tracks, staging data not yet archived). This project
models the code behind those promises and proves them for every input, every run and every
interleaving.

Code that changes state in place is a class or a method with loops, proved against a
specification function; the specification carries the theorems. Three concurrent pieces
(the watchdog, the removal protocol, the runs of the hook pinner) are state machines over
their steps. The world, that is measurements, plugin outcomes, the clock, the file system,
other processes and failing calls, is an arbitrary input.

| file | models | main results |
|---|---|---|
| `Governor`, `Daemon`, `CleanupState`, `Backoff` | one cycle of the daemon: gates, runs, the state it keeps | the imperative cycle computes the specified report and state; the doubling loops equal `min(cap, base * 2^k)` |
| `CycleAccounting`, `CycleOutcome` | the report of a cycle | one settled entry per plugin, exact totals, no ladder run once the latest reading meets the target; exactly who runs, what each entry says and which reading the report reflects |
| `Gates`, `CycleEvents` | when a plugin is let through, what a cycle records | the gates, byte backoff and the recorded events as if-and-only-if statements over readings, entries and history |
| `GovernorRuns`, `RunSpacing`, `ByteHistory`, `YieldHistory` | every run of the daemon | spacing of runs under byte backoff and zero-yield suppression; the no-progress, zero-yield and inode counters are counts of events in history, and suppression is set exactly at its limit |
| `Watchdog` | the plugin watchdog | never two live runs of one plugin; every call ends within timeout plus grace |
| `Activity`, `Paths` | the index of open files, path containment | the index with its early return is exact |
| `RemovalProtocol` | removal of one output base | nothing is deleted without the full licence; exactly which deletions are made under the lock; contents stay whole at one place until then |
| `IdleFloors`, `EarlyWalks` | what may be removed, when to look | configured idle floors hold end to end; walks keep their duty cycle |
| `HookPins` | Nix hook pins | a path stays rooted while a session that could use it lives, and exactly when it stays pinned |
| `DenySet` | the agent-session deny set | indexed lookup equals plain matching; a permitted tree is disjoint from every store |
| `LogThrottle` | the log and report throttles | conservation, bounded memory, exact emission condition |
| `ArchiveProof`, `Bytes` | proof that staging files are archived | verified if and only if every file has a proving counterpart; the zstd reader inverts every frame header |
| `TrackedFiles` | files Git tracks below a path | two binary searches, a memo and a bounded cache answer the plain question |
| `ProcArgs` | the two `kern.procargs2` decoders | exact round trips, and truncation gives a prefix |

## What the code does not guarantee

Each is shown by an input or a run, with the exact condition under which the code does keep
the promise.

- Removal takes Bazel's lock only when Lstat finds a regular file at the lock path. A base
  whose lock file cannot be looked at, or is not a regular file, is deleted without the lock
  (`RemovalProtocol.LockFileDoesNotStopDeletion`; `RemovalProtocol.DeletedUnderLockExactly`
  says exactly which deletions are made under it).
- A hook-pin state file that cannot be read is treated as empty, and the refresh succeeds: a
  pin that a live session needs is forgotten (`HookPins.LostLoadDropsPin`).
  `HookPins.LiveSessionKeepsPin` says exactly when the pin is kept. The link on disk survives.
- The byte-backoff interval doubles without an overflow guard. `Backoff.ByteIntervalExact`
  says for which caps it is `min(cap, first * 2^k)` at every step; every cap up to 2^62 ns is
  one of them, and `Backoff.HugeCapOverflows` is a cap that is not.
- So does the early-walk gap. Empty walks thin out for every run if and only if the discovery
  interval is at most 5m * 2^24, about 159 years (`EarlyWalks.ThinsOutExactly`); 100000 days
  is accepted by configuration and is longer (`EarlyWalks.HundredThousandDays`). The wait
  that follows a walk is right for every walk up to a length exactly when that length's
  product with the duty fits 64 bits (`EarlyWalks.DutyFloorExactly`).
- The log throttle spaces consecutive lines of a key, not every two lines with the same
  content: a line alternating between two contents is emitted every time
  (`LogThrottle.AlternatingLinesAreNotSpaced`). `LogThrottle.EmittedExactly` is the exact
  condition.
- A gzip counterpart proves a size modulo 2^32 only. The source refuses staging files of
  4 GiB or more, but a small staging file is also proved by a member whose content is longer
  by a multiple of 4 GiB (`ArchiveProof.GzipProvesModulo`).
- The `kern.procargs2` decoders lose an argv that opens with an empty string: it reads as
  padding (`ProcArgs.ArgvRoundTrip` and `ProcArgs.EnvRoundTrip`).

## Model

| member | source | states |
|---|---|---|
| Backoff.DoubledIsPower | state.go:63-80 | the doubling of the model is multiplication by a power of two |
| Backoff.ZeroYieldBackoff | state.go:63-80 | for every 64-bit cap the guarded loop returns min(max, base * 2^(count - limit)) and never leaves 64 bits |
| Backoff.LoopExact | main.go:1582-1592 | without an overflow the unguarded 64-bit loop is the capped doubling |
| Backoff.LoopOverflow | main.go:1582-1592 | with one, some step count yields a negative interval |
| Backoff.ByteBackoffIntervalFor | main.go:1582-1592 | the loop of the engaged interval computes the specified interval for every count, in 64-bit arithmetic |
| Backoff.ByteIntervalExact | main.go:1582-1592 | the interval is min(max, first * 2^k) at every step if and only if no doubling below the cap overflows |
| Backoff.CapUpTo62BitsIsExact | main.go:1549-1592 | every cap up to 2^62 ns gives the promised interval |
| Backoff.HugeCapOverflows | main.go:1582-1592 | a cap and a first interval for which one more failed attempt gives a negative interval |
| CleanupState.Memory.RecordPluginRun | state.go:268-287 | stamps the run in whole seconds with its level and keeps the zero-yield fields and every other record |
| CleanupState.Memory.RecordPluginYield | state.go:297-320 | counts consecutive zero-yield runs, suppresses from the limit on, forgets on a yield |
| CleanupState.Memory.LiftZeroYieldSuppression | state.go:338-352 | clears every suppression, keeps every count, says whether any was cleared |
| CleanupState.Memory.RecordInodeProgress | state.go:394-412 | the inode counter resets on improvement and otherwise grows by one |
| CleanupState.Memory.RecordByteProgress | state.go:454-477 | the byte counter resets on progress or a recorded level rise, grows by one on a fruitless ladder run |
| Daemon.ZeroYieldVerdict | main.go:712-744 | the zero-yield gate with its exemptions and the once-per-interval mount-pressure lift |
| Daemon.CooldownVerdict | main.go:1425-1472 | the cooldown and byte-backoff gate, with the retry time it reports |
| Daemon.JudgeLadderPlugin | main.go:700-757 | the gates in their order: target met, zero yield, cooldown or backoff |
| Daemon.RecordRun | main.go:645-682 | a run and its yield, fruitless below the minimum, are recorded together, under the level, time and digest of the cycle |
| Daemon.RunLevelIndependentPlugin | main.go:403-453 | a level-independent plugin is never gated or recorded; its bytes count in the totals when it did not fail |
| Daemon.RunLadderPlugin | main.go:700-845 | one ladder plugin: its gates, its run, its record, its totals and the measurement after it |
| Daemon.RunPlugins | main.go:684-855 | the loop over the enabled plugins folds them in order over the loaded state |
| Daemon.RecordInodes | main.go:862-875 | when a cycle records inode progress, and what |
| Daemon.RecordBytes | main.go:877-893 | when a cycle records byte progress, and what |
| Daemon.ByteBackoffNow | main.go:1478-1493 | byte backoff is engaged under byte pressure from the configured count on, never below the emergency floor, never forced or dry |
| Daemon.Daemon.RunQuietCycle | main.go:553-585 | with no pressure: release backoff, lift suppression, run only level-independent plugins |
| Daemon.Daemon.RunPressureCycle | main.go:587-893 | under pressure: the plugins, then the inode and byte records |
| Daemon.Daemon.RunCycle | main.go:483-905 | the step-by-step cycle yields exactly the specified report and the specified state file, for every outcome of load and save |
| CycleAccounting.PressureCycleAccounted | main.go:684-853 | one entry per enabled plugin in order, each ran or has a reason and never both; totals are the sums over error-free entries that freed something, the ladder total without level-independent plugins |
| CycleAccounting.NoLadderRunOnceTargetMet | main.go:700-710 | outside a dry run no ladder plugin runs while the latest usable reading meets the target and there is no inode pressure |
| CycleOutcome.ReportReads | main.go:1767-1823 | at every plugin's turn the report says what the latest measurement that worked says, and the minimum is met if and only if that says so |
| CycleOutcome.CycleReads | main.go:1767-1786 | so does the report of a pressure cycle, of its last measurement |
| CycleOutcome.CycleEntriesTell | main.go:684-845 | in a pressure cycle a plugin runs if and only if this is no dry run, its gates let it through and no earlier run of it is out; its entry says what the run returned, or the reason it did not run |
| CycleOutcome.QuietCycleTells | main.go:577-584 | with no pressure there is one entry per level-independent plugin, in order, telling of its run, with exact totals |
| CycleOutcome.StoppedExactly | main.go:700-710 | a cycle reports that it stopped at its target if and only if a plugin was skipped for it |
| Gates.AdmittedExactly | main.go:700-757 | the gates let a plugin through if and only if the target is not met, it is not suppressed or is exempt, and its last run at this level or higher is old enough; a rise of the level passes both latter gates |
| Gates.ReasonExactly | main.go:700-757 | the reason given is that of the first gate that holds the plugin back |
| Gates.UnreadableAdmits | main.go:712-757 | with an unreadable state only the target holds a plugin back |
| Gates.BackoffEngagedExactly | main.go:1478-1493 | in every run byte backoff is engaged if and only if the cycle is ordinary and its state read, free space is known and not below the emergency floor, the byte pressure is no higher than last recorded, and the pending attempts of the history reach the limit |
| Gates.InodeBreakerExactly | main.go:1447-1458 | when the inode breaker is engaged |
| Gates.CooldownAppliesExactly | main.go:1425-1441 | when cooldown applies |
| CycleEvents.ByteEventTells | main.go:877-893 | when a pressure cycle records byte progress, and that it counts as progress if and only if the level fell, the ladder freed the minimum, or free space grew by it while a ladder plugin ran |
| CycleEvents.InodeEventTells | main.go:857-875 | what a pressure cycle records of inodes, from its measurements |
| CycleEvents.QuietClears | main.go:553-576 | a saved cycle with no pressure clears every retry time and the byte streak of its path, and keeps every count, last run and inode count |
| CycleEvents.InodeCountIsFruitless | state.go:383-412 | in every run the inode count of a path is the number of recorded cycles without relief since the last with relief |
| GovernorRuns.RecordedIsStamped | main.go:645-682 | after a recorded and saved ladder run the state file holds its time in whole seconds, its level, its digest and its suppression |
| GovernorRuns.CycleTracked | main.go:700-845 | a ladder plugin that ran was let through by every gate, at its place in the loop, with the report at that point and the record the cycle loaded |
| GovernorRuns.UnreadableIsClean | main.go:553-893 | a dry run, or a cycle that could not read its state, saves nothing |
| GovernorRuns.RecordFrame | main.go:645-682 | a cycle that does not record a run of a plugin keeps its last run and level, and keeps the whole record unless pressure cleared |
| RunSpacing.EngagedIntervalIs | main.go:1563-1592 | the engaged interval is min(max, first * 2^(count - limit)) and at least the first interval |
| RunSpacing.EngagedGateIsExact | main.go:1464-1472 | the backoff gate holds a plugin back if and only if its last run at this level or higher is younger than the interval |
| RunSpacing.BypassedExactly | main.go:1425-1458 | under engaged backoff cooldown is bypassed if and only if the minimum free space is unmet, no cooldown is configured, or the level bypasses it with no inode breaker |
| RunSpacing.EngagedSpacing | main.go:1425-1592 | over every run of the daemon, two consecutive recorded runs of a plugin, the later at no higher level under engaged backoff, are at least the first interval apart; at least the cooldown where it applies when the plugin's turn comes, and at least the whole doubled interval where it is bypassed for any reason; less under one second, whenever no doubling below the cap overflows |
| RunSpacing.MinimumStaysUnmet | main.go:1796-1823 | while every reading is below minimum_free_gb the minimum is unmet at every plugin's turn |
| RunSpacing.EngagedSpacingBelowMinimum | main.go:1425-1472 | with every reading below minimum_free_gb the runs are the whole doubled interval apart at any level |
| RunSpacing.AnyTwoRunsApart | main.go:1464-1592 | any two recorded runs of a plugin, the later at no higher level, are the first interval apart if backoff was engaged at every recorded run after the earlier |
| RunSpacing.FirstIntervalIs | main.go:1549-1570 | the first interval is the cooldown capped at byte_backoff_max, or byte_backoff_max with no cooldown |
| RunSpacing.ZeroYieldSpacing | main.go:712-744 | over every run, a plugin left suppressed does not run again before the smaller of pressure interval and suppression interval, less under one second, unless the level rose, the digest changed, pressure cleared or another exemption holds |
| ByteHistory.CounterCounts | state.go:454-477 | folding recorded events, the counter is the number of failed attempts no later event has reset |
| ByteHistory.FileIsHistory | main.go:877-893 | in every run the record of a path is the fold of its recorded history |
| ByteHistory.CounterIsPendingAttempts | state.go:418-477 | in every run NoProgressCount is the number of recorded attempts without progress since the last progress or recorded level rise, the rising cycle included |
| ByteHistory.BackoffNeedsAttempts | main.go:1478-1493 | backoff engages only after at least the configured number of such attempts, and never below the emergency floor |
| ByteHistory.LevelIndependentOutcomesDoNotCount | main.go:688-699 | with the same measurements, outcomes of level-independent plugins change no counter, no record and no decision to save |
| YieldHistory.RunTells | state.go:297-320 | recording a run keeps the count equal to the trailing fruitless runs and sets a retry time exactly at the limit |
| YieldHistory.CountIsTrailingFruitless | main.go:645-682 | in every run a plugin's count is the number of its trailing recorded runs, under the configuration of the last, whose entries freed less than the minimum |
| YieldHistory.SuppressedExactly | main.go:645-682 | after a recorded run a plugin is suppressed if and only if suppression is on, that number reaches the limit, and the plugin is neither safety-critical nor listed as exempt |
| Watchdog.NextKeepsInv | watchdog.go:122-186 | every step of the loop, a returning plugin, the clock or a shutdown keeps the invariant over live and in-flight runs |
| Watchdog.NeverTwiceAtOnce | watchdog.go:122-186 | in every interleaving at most one run per plugin is live, and a live run the loop does not wait for is the one in flight under its name |
| Watchdog.RefusedExactlyWhileOut | watchdog.go:122-140 | between calls a plugin is refused as wedged if and only if a run of it is still out |
| Watchdog.CallsAreBounded | watchdog.go:140-186 | the loop leaves each call within timeout plus grace; a run reported as cancelled had exceeded its deadline |
| Watchdog.CallsAnswer | watchdog.go:122-160 | a call is answered as wedged if and only if a run of the plugin is out; otherwise it starts one and waits for it |
| Watchdog.WaitsAnswer | watchdog.go:157-186 | a run still out is abandoned, after the grace period only, and kept in flight; a returned one is cancelled if its deadline was seen with no shutdown, else finished |
| Paths.UnderDir | plugins/agentsession.go:238-243 | a path is under another if and only if it is it or its parent is under it |
| Paths.UnderIsComponentPrefix | plugins/agentsession.go:238-243 | the string test is the prefix order on path components |
| Paths.InsideRootIsUnder | plugins/bazel.go:1487-1497 | the containment test by relative path asks the same question |
| Paths.CleanIsFinal | plugins/agentsession.go:314-319 | cleaning a path twice changes nothing more |
| Activity.IndexPathIs | plugins/bazel_bases.go:154-178 | one walk up, stopping at the first known ancestor, adds exactly the path and everything above it |
| Activity.IndexIsExact | plugins/bazel_bases.go:154-208 | after any sequence of paths the index is closed under parents and holds a directory if and only if some path is it or lies below it |
| Activity.Inventory.Index | plugins/bazel_bases.go:154-178 | the loop adds the accepted path, keeps every earlier reason and gives its own to every new entry |
| Activity.Inventory.HeldBelow | plugins/bazel_bases.go:182-208 | the index lookup answers whether any accepted path is the target or lies below it |
| Activity.DeletedCountsWhereItWas | plugins/bazel_bases.go:154-160 | a deleted file counts where it was |
| Activity.FilterKeepsWhatMatters | plugins/bazel_bases.go:154-178 | the filter on trees loses no path at or below a target inside one of them |
| Activity.FilteredIndexIsExact | plugins/bazel_bases.go:154-208 | the filtered index holds a target inside one of the trees if and only if some absolute path held by a process is it or lies below it |
| RemovalProtocol.InvAlways | plugins/bazel_bases.go:1244-1300 | the invariant over log, lock and both paths holds after every interleaving of this call, other processes and failing calls |
| RemovalProtocol.DeletedOnlyWithLicence | plugins/bazel_bases.go:1244-1300 | contents are damaged only after the lock step, the rename aside, a complete inventory with no holder of the aside and a clean recheck, in this order, with a lock taken released only at the return |
| RemovalProtocol.DeletedUnderLockExactly | plugins/bazel_bases.go:1256-1270 | every deletion was preceded by a passed lock step, and was made under Bazel's lock if and only if at that step the tree was a base, a regular file stood at its lock path and Lstat succeeded |
| RemovalProtocol.LockFileDoesNotStopDeletion | plugins/bazel_bases.go:1256-1270 | a run that deletes a base, with its lock file there throughout, without the lock |
| RemovalProtocol.LockHeldUntilReturn | plugins/bazel_bases.go:1256-1300 | a lock taken stays this call's alone until it returns |
| RemovalProtocol.WholeUntilDeleted | plugins/bazel_bases.go:1262-1300 | until deletion the contents are whole at exactly one of path and aside, and true means they are gone |
| RemovalProtocol.RestoredExactly | plugins/bazel_bases.go:1278-1296 | a call that returned without deleting has the base whole at path if and only if it had not renamed it aside, or its own rename back worked and found nothing there but an empty directory; else it is whole at aside |
| RemovalProtocol.NoWayBack | plugins/bazel_bases.go:1287-1299 | a call that passed both late checks never renames back |
| RemovalProtocol.StepsExactly | plugins/bazel_bases.go:1244-1300 | at every step the call goes on if and only if the step is clear; a late check that is not turns to renaming back, any other step returns; true is returned exactly when the deletion works |
| IdleFloors.Validate | config/config.go:723-840 | the sequence of checks accepts a section if and only if it meets the idle floors and the rest of its rules |
| IdleFloors.WindowsHaveFloors | plugins/bazel_bases.go:583-597 | for an accepted section every kind's windows are at least the floors, overrides included |
| IdleFloors.DecideAll | plugins/bazel_bases.go:860-905 | the decision loop fills in each row as specified, in order |
| IdleFloors.DecideHasFloors | plugins/bazel_bases.go:880-901 | an eligible row's windows are at least the floors, and at least bases_only_idle_after in a bases-only root |
| IdleFloors.EligibleExactly | plugins/bazel_bases.go:866-951 | a base is eligible if and only if it has a last use, nothing else keeps it and its idle time exceeds what the configuration says for its kind, device and root |
| IdleFloors.PressureWindowIs | plugins/bazel_bases.go:880-891 | the window noted for early walks is the one that counts under pressure |
| IdleFloors.RelievedIsSeenBelow | plugins/bazel_bases.go:1113-1125 | a device is relieved if and only if an eligible pressured row at or before found it below the stop line |
| IdleFloors.Apply | plugins/bazel_bases.go:1091-1178 | the removal loop turns each row into the specified one, carrying the relieved devices |
| IdleFloors.RemovedBasesWereIdle | plugins/bazel_bases.go:1117-1142 | for every accepted configuration a removed base had no other reason to be kept, was measured, and was idle at its last check for over 2h, over 12h if its device was not under pressure or had been seen below the stop line, and over bases_only_idle_after in a bases-only root |
| IdleFloors.RemovedExactly | plugins/bazel_bases.go:1117-1160 | an eligible base is removed if and only if the loop comes to it in time, it is measured, its removal works and it is old enough at its last check, with relieved pressure not counting |
| IdleFloors.UsedAgainIsNoted | plugins/bazel_bases.go:1131-1142 | a base used again is kept, and the next early walk counts from that use |
| EarlyWalks.Scheduler.EarlyGap | plugins/bazel_bases.go:610-621 | the doubling loop and the duty floor compute the specified gap in 64-bit arithmetic |
| EarlyWalks.Scheduler.Due | plugins/bazel_bases.go:643-671 | due if and only if the interval has passed, or the gap has and some pressured root has work |
| EarlyWalks.Scheduler.NoteWork | plugins/bazel_bases.go:675-702 | per device the earliest moment any of its bases could be taken, and the count of empty walks |
| EarlyWalks.Scheduler.Poll | plugins/bazel_bases.go:770-802 | one call: nothing when not due, else a walk and what it leaves for the next |
| EarlyWalks.EarlyDueExactly | plugins/bazel_bases.go:643-702 | after a walk an early one is due if and only if the daemon removes, the gap has passed, and some root under pressure has a base that could be taken or the walk was partial |
| EarlyWalks.WorkAtExactly | plugins/bazel_bases.go:675-702 | from when a noted base could be taken |
| EarlyWalks.GapExactly | plugins/bazel_bases.go:610-621 | as far as the discovery interval goes the gap is the longer of the doubled five minutes and the duty share |
| EarlyWalks.LatchedExactly | plugins/bazel_bases.go:704-715 | a device is under pressure if and only if it reached the start line once and did not fall below the stop line since |
| EarlyWalks.EarlyWalksKeepDuty | plugins/bazel_bases.go:610-702 | consecutive early walks spend at most the duty percentage of elapsed time, plus one nanosecond per walk |
| EarlyWalks.EmptyWalksAreTrailing | plugins/bazel_bases.go:675-702 | the counter is the number of trailing walks that removed too little |
| EarlyWalks.DutyFloorExactly | plugins/bazel_bases.go:610-621 | every walk up to a length gets at least its duty share as a wait if and only if that length's product with the duty fits 64 bits |
| EarlyWalks.GapOverflowsExactly | plugins/bazel_bases.go:610-621 | the doubling overflows if and only if the discovery interval is above 5m * 2^24 |
| EarlyWalks.EmptyWalksThinOut | plugins/bazel_bases.go:610-671 | up to that interval, once 5m * 2^emptyWalks reaches the discovery interval no walk starts before that interval |
| EarlyWalks.LongIntervalDoesNotThinOut | plugins/bazel_bases.go:610-671 | for every longer interval, a run whose twenty-sixth walk is early after 25 empty ones |
| EarlyWalks.ThinsOutExactly | plugins/bazel_bases.go:610-671 | walks thin out in every run if and only if the interval is at most 5m * 2^24 |
| EarlyWalks.HundredThousandDays | plugins/bazel_bases.go:610-621 | an accepted interval of 100000 days turns the gap negative after 25 empty walks |
| EarlyWalks.CallsAreWalks | plugins/bazel_bases.go:770-802 | for any calls, walking or not, the ones that walk form the sequence of walks the other results speak of |
| HookPins.LinkNameIs | plugins/nix_hookpins.go:132 | the link name of a reference determines the reference |
| HookPins.LinkNamesAreDistinct | plugins/nix_hookpins.go:110-132 | distinct references never share a link name, nor the state file's |
| HookPins.Pinner.PinReferences | plugins/nix_hookpins.go:119-146 | every reference is noted and every valid one is linked, touching no other link |
| HookPins.Pinner.MarkDropped | plugins/nix_hookpins.go:147-153 | a pin no longer referenced gets the time it was first missing, once |
| HookPins.Pinner.Release | plugins/nix_hookpins.go:159-182 | succeeds unless a link to take down cannot be removed; deletes exactly the dropped pins no live session predates, and takes down exactly their links, where they can be read |
| HookPins.Pinner.Refresh | plugins/nix_hookpins.go:88-192 | a whole refresh: exactly when it succeeds, what it saves, what is rooted, what is no longer rooted, and which links are new |
| HookPins.RefreshKeepsPin | plugins/nix_hookpins.go:112-192 | one refresh keeps a pin a live session predates if and only if it failed, loaded the pin or saw it referenced, and never releases its link |
| HookPins.LiveSessionKeepsPin | plugins/nix_hookpins.go:112-192 | over every run in which a session that started no later than a refresh that saw the path stays reported alive, the pin is kept if and only if no successful refresh failed to load it with none seeing the path again, and its link is never released |
| HookPins.LostLoadDropsPin | plugins/nix_hookpins.go:112-117 | a run of two successful refreshes that drops a pin a live session needs |
| HookPins.LiveSessionStaysRooted | plugins/nix_hookpins.go:119-192 | and if it was valid then, its link selects it after every later refresh at which the link could be read, whatever loads failed |
| HookPins.FailedInspectionReleasesNothing | plugins/nix_hookpins.go:155-158 | when sessions cannot be inspected no link and no loaded pin is released |
| HookPins.ReleasedExactly | plugins/nix_hookpins.go:147-182 | a successful refresh drops a pin if and only if it is unreferenced now and either could not be loaded or every live session started at or after it was dropped |
| HookPins.ReleasedStaysUnrooted | plugins/nix_hookpins.go:159-182 | over every run, a released path whose link could be read is not rooted under its name again until a refresh sees it referenced |
| DenySet.MatchKeepsDir | plugins/agentsession.go:217-235 | a pattern with globs only in its last element matches only paths of its own directory |
| DenySet.MatchSplits | plugins/agentsession.go:323-332 | two patterns in a row match exactly the names that split between them |
| DenySet.StarMatchesWithinElement | plugins/agentsession.go:323-332 | a star matches exactly the names with no separator |
| DenySet.QuestionMatchesOne | plugins/agentsession.go:323-332 | a question mark matches exactly one character other than the separator |
| DenySet.LiteralMatchesItself | plugins/agentsession.go:323-332 | a pattern with no glob matches itself only |
| DenySet.LookupIsPlainMatching | plugins/agentsession.go:314-344 | looking up the parent directory and the slow patterns gives the answer of matching every pattern |
| DenySet.DenyList.FileAll | plugins/agentsession.go:217-235 | every pattern is filed once, by directory or as slow, and the root set is the roots |
| DenySet.DenyList.DeniedPath | plugins/agentsession.go:314-344 | the walk up, with or without a boundary, answers plain matching at every ancestor that counts |
| DenySet.DenyList.ContainsDenied | plugins/agentsession.go:381-393 | true if and only if some store is at or below the path as given or as resolved |
| DenySet.DenialIsInherited | plugins/agentsession.go:314-344 | denial with no boundary is closed under descendants |
| DenySet.PermittedIsDisjoint | plugins/agentsession.go:314-393 | a directory neither denied nor containing a store has a subtree disjoint from every store's |
| DenySet.DenyList.MayRemove | plugins/agentsession.go:285-393 | when both answers let a directory go, its subtree and that of its physical location are disjoint from every store |
| LogThrottle.Throttle.Evict | logthrottle.go:114-126 | at the limit exactly one entry goes, one of oldest emission |
| LogThrottle.Throttle.Decide | logthrottle.go:93-112 | one call: emitted or counted, with the entry it leaves and the victim it evicts |
| LogThrottle.WindowForExactly | logthrottle.go:84-89 | errors have a window of at most fifteen minutes |
| LogThrottle.MemoryIsBounded | logthrottle.go:93-126 | over every run the entries never exceed the limit |
| LogThrottle.CallsAreConserved | logthrottle.go:93-126 | over every run a key's calls are its emitted lines, plus the copies later lines reported, plus the copies pending, plus the copies forgotten by eviction |
| LogThrottle.NothingForgotten | logthrottle.go:114-126 | a key never evicted has nothing forgotten |
| LogThrottle.EntryIsLastLine | logthrottle.go:93-112 | an entry is the content and time of its key's last line and the number of calls since |
| LogThrottle.EmittedExactly | logthrottle.go:100-111 | a call is emitted if and only if it changes the content of its key's last line or that line is a window old, and then reports the calls in between |
| LogThrottle.SameLineIsSpaced | logthrottle.go:84-112 | lines of one content, with no other content in between, are a window apart |
| LogThrottle.AlternatingLinesAreNotSpaced | logthrottle.go:100-111 | with another content in between they need not be |
| LogThrottle.ReportThrottle.Full | logthrottle.go:233-243 | a report is full exactly on a change, at the first cycle, or a window after the last full one; a compact cycle means an equal full report within the window |
| Bytes.LittleEndianRoundTrip | plugins/archive_lifecycle.go:550-562 | little-endian fields read back |
| ArchiveProof.ZstdDeclaredSize | plugins/archive_lifecycle.go:490-564 | from at most 18 bytes: the declared size of every frame header of section 3.1.1.1 of RFC 8878, whatever follows it, and nothing for anything else or above 2^62 |
| ArchiveProof.GzipDeclaredSize | plugins/archive_lifecycle.go:453-485 | ISIZE of section 2.3.1 of RFC 1952, only for staging files below 2^32 |
| ArchiveProof.HeaderFields | plugins/archive_lifecycle.go:507-562 | where the fields of an encoded header are read |
| ArchiveProof.HeaderAt | plugins/archive_lifecycle.go:507-562 | bytes that read like a header are the encoding of one |
| ArchiveProof.OneByteFrame | plugins/archive_lifecycle.go:507-562 | the bytes of a frame with a one-byte size, as section 3.1.1.1 of RFC 8878 lays them out |
| ArchiveProof.TwoByteFrame | plugins/archive_lifecycle.go:507-562 | with a two-byte size, biased by 256 |
| ArchiveProof.FourByteFrame | plugins/archive_lifecycle.go:507-562 | with a four-byte size |
| ArchiveProof.EightByteFrame | plugins/archive_lifecycle.go:507-562 | with an eight-byte size |
| ArchiveProof.DictionaryFrame | plugins/archive_lifecycle.go:533-545 | with a window descriptor and a dictionary before the size |
| ArchiveProof.EmptyGzip | plugins/archive_lifecycle.go:470-485 | the twenty bytes of an empty gzip member |
| ArchiveProof.ProvenSizeIsUnique | plugins/archive_lifecycle.go:404-447 | a counterpart proves one size at most, a plain one exactly its length |
| ArchiveProof.CounterpartProvesSize | plugins/archive_lifecycle.go:404-447 | the first of the plain, .gz and .zst names that exists decides alone, and any error on it refuses |
| ArchiveProof.GzipProvesModulo | plugins/archive_lifecycle.go:453-485 | a gzip counterpart passes if and only if its content's length modulo 2^32 is the staging size |
| ArchiveProof.VerifyGroup | plugins/archive_lifecycle.go:312-397 | verified if and only if the group is inside the staging dir, its target is a directory, nothing was unreadable or cancelled, and there is at least one file, each regular with a counterpart at the same relative path that proves its size; the counts are exact |
| TrackedFiles.PrefixIsInterval | plugins/devartifacts.go:3182-3186 | in string order the strings with a prefix follow it without a gap |
| TrackedFiles.FirstAtLeast | plugins/devartifacts.go:3177-3185 | the binary search finds the first element at or above its argument |
| TrackedFiles.TrackedFilesContain | plugins/devartifacts.go:3173-3187 | for every sorted list, true if and only if some file is the name or lies below it |
| TrackedFiles.RootAboveIsNearest | plugins/devartifacts.go:3065-3098 | the plain walk finds the nearest marked directory at or above its start |
| TrackedFiles.Tracker.RepoRootForPath | plugins/devartifacts.go:3065-3098 | on an unchanging tree the memo always gives the plain walk's answer |
| TrackedFiles.Tracker.Remember | plugins/devartifacts.go:3124-3133 | the cache keeps the last eight repositories; the order is duplicate-free and is the key set |
| TrackedFiles.Tracker.TrackedFilesOf | plugins/devartifacts.go:3100-3116 | the cached list if there is one, else git's list, or the empty list remembered for a failure |
| TrackedFiles.CoversIsUnder | plugins/devartifacts.go:3058-3062 | the test on relative names asks whether the file lies at or below the path |
| TrackedFiles.ContainsTrackedFiles | plugins/devartifacts.go:3041-3063 | true if and only if there is a nearest repository and its list, the one cached before the call or else git's, holds a file at or below the path; the repository is cached afterwards |
| ProcArgs.DecodeArgv | plugins/nix_process_argv_darwin.go:60-96 | the cursor loops compute the argv of the shared division of the buffer, or fail |
| ProcArgs.DecodeEnv | plugins/process_env_darwin.go:27-62 | the other decoder divides the same buffer at the same point, fails on the same buffers and reads the environment up to an empty or unfinished string |
| ProcArgs.DivideEncoded | plugins/process_env_darwin.go:12-26 | an encoded buffer is divided at the seam between argv and environment |
| ProcArgs.ArgvRoundTrip | plugins/nix_process_argv_darwin.go:60-96 | the argv decoder inverts the encoding if and only if argv does not open with an empty string |
| ProcArgs.EnvRoundTrip | plugins/process_env_darwin.go:27-62 | the environment decoder inverts it if and only if, besides, no environment string is empty |
| ProcArgs.TruncatedBufferHoldsAPrefix | plugins/process_env_darwin.go:25-27 | a truncated buffer that still decodes gives the same argv and a prefix of the same environment |

## Left out

- Plugins over external tools (docker, lima, podman, etcd, homebrew, simulators, APFS, iCloud, Photos, runners): command sequences and output scraping with no property of their own.
- JSON and YAML, the bytes of the state file and of the pin file, log lines, text reports, command-line parsing, the volume probe: whether loading and saving work, and which pins a failed load loses, are inputs; pins with single fields damaged are not modelled.
- Planned totals of a dry run, NextRetryAt and state fields nothing reads back: reporting only.
- The config digest is the pair of version and configuration, that is a digest without collisions; throttle fingerprints are opaque values.
- Times and byte totals are unbounded integers; 64-bit wrap-around is modelled in the doubling loops, the early-walk product and the free-space target.
- A cycle that cannot read its state runs plugins unrecorded, and a lost state file restarts history: the spacing and history results say so in `NextRun`, `Recorded` and `StateLost`.
- Free-space percentages: levels of a reading are inputs.
- Watchdog: the loop is assumed to wake when a channel it selects on is ready; plugin bodies are arbitrary; modelled on values as a state machine, so field updates of the report are not captured.
- RemovalProtocol: other processes may create trees at either path, hold files, change the lock path and take the lock, but do not move or destroy the base itself; advisory locks exclude each other; an inventory is one atomic step that sees every holder of that moment when it is complete; on values, one call at a time.
- The reasons `blockers` adds from command lines and pidfiles, `safe`, sibling user roots, receipts, ranking of rows, discovery and measuring: inputs of the modelled steps, in any order.
- Report-mode pressure and per-root pressure lines in the relief check: the code uses the plugin-wide stop line, and so does the model.
- IdleFloors.Validate: checks on roots, held paths, skip paths and bases-only roots are one input each, as they carry no idle floor.
- EarlyWalks.EarlyWalksKeepDuty: assumes that the clock does not go back and that each walk's product with the duty fits 64 bits (2.9 years at one percent), which `EarlyWalks.DutyFloorExactly` shows is what the wait needs.
- HookPins.Pinner.Refresh: nothing but a refresh touches the pin directory; the regular expression's search is an input set of references.
- DenySet: character classes and escapes in globs, carve-outs, the combination `deniedBelow` makes of literal and physical boundary, and symlink resolution; the file-system test for a session directory is an arbitrary predicate.
- LogThrottle.Throttle.Decide: keys are non-empty, as the identity of a record always starts with its level and a separator; the mutex makes calls sequential.
- ArchiveProof.VerifyGroup: paths are absolute; the archive tree does not change during the walk; order of the walk, budget, retirement and pruning are not part of this model.
- TrackedFiles.Tracker.RepoRootForPath: the tree does not change while the tracker lives; a start that is a file is an input.
- ProcArgs: the system calls around the decoders.
- CleanupState.Memory.RecordPluginRun: the bytes, items and error kept for reports are not modelled; nothing reads them back.
- CleanupState.Memory.RecordInodeProgress: only the counter is modelled; the other fields are never read back.
- CleanupState.Memory.RecordByteProgress: the free bytes and the time are not modelled; they are never read back.
- Daemon.RunLevelIndependentPlugin: planned totals and the plan of a dry run are not modelled.
- Daemon.RunLadderPlugin: planned totals, the plan of a dry run and the remaining seconds of a cooldown are not modelled.
- Daemon.RunPlugins: NextRetryAt is not modelled.
- Daemon.Daemon.RunCycle: fields of the report that no later decision reads are not modelled, except the entries and the totals.
- Activity.Inventory.HeldBelow: only the index half of `blockers`, for one spelling of the target.
- IdleFloors.DecideAll: every reason other than age that keeps a base is one input.
- IdleFloors.Apply: sibling user roots and leftover asides are not part of the loop; they have no idle floor of their own.
