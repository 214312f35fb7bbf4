# vmfleet: a verified model

vmfleet keeps a fleet of self-hosted GitHub runners, one per virtual machine. A *supervisor* polls
GitHub and systemd and decides, pool by pool, how many workers to launch or stop. A *worker* process
owns one slot of one pool: it sweeps what an earlier worker of the slot left behind, waits at a launch
gate shared with all the others, clones a VM, serves, and cleans up. A periodic *gc* purges VMs whose
slot has no worker. This project models that logic in Dafny and proves what it guarantees.

## How the model is laid out

| file | models |
|---|---|
| `Prelude.dfy`, `Text.dfy` | options, machine-integer bounds, finite sets; decimal printing and parsing, splitting, string order |
| `Naming.dfy` | VM names, slot prefixes, unit names, and the readers that recover a slot |
| `Config.dfy` | pools, slot ranges (with the 32-bit wrap) and validation |
| `Version.dfy`, `Semver.dfy` | version parsing, precedence, release selection; agreement with section 11 of Semantic Versioning 2.0.0 |
| `GitHub.dfy` | the paginated runner list and the queued-label count |
| `Admission.dfy`, `Health.dfy` | the launch gate's decision and its two waiting loops; the health monitor over timed traces |
| `Reclaim.dfy` | the worker's sweep and gc, as methods on a multipass daemon |
| `Reconcile.dfy`, `Cycle.dfy` | one reconcile cycle on values |
| `SupervisorState.dfy` | the supervisor's mutable state and systemd as classes; every method proved against the functions of the two files above |
| `UpdateCheck.dfy` | the background update check with its fetching threads |
| `ScalingLaws.dfy`, `ScaleDown.dfy`, `Convergence.dfy`, `SupervisorRuns.dfy` | what the cycle guarantees: allocation, scale-down, convergence, invariants of whole runs, dry runs |
| `Sizing.dfy`, `Effects.dfy`, `Idleness.dfy` | the same spelled out on what goes in and what comes out: what a pool counts and reports, what a cycle does to the host, who is stopped for being idle |
| `RecordCases.dfy` | cycles in which scale-down goes by runner records and takes the wrong units |
| `WorkerProtocol.dfy`, `WorkerInvariant.dfy`, `WorkerLaws.dfy`, `WorkerExact.dfy`, `WorkerProgress.dfy` | worker processes as an interleaving, crash-prone protocol; its invariant; its laws; that their conditions on names are exact; that workers can serve and end |

The supervisor is proved in two layers. The class `SupState` follows the source step by step; its
methods' contracts equate the new state and the report with functions of the old state. The laws are
then lemmas about those functions, over arbitrary runner lists, queues, unit listings, pools and runs.

The worker protocol is a state machine over the set of VMs, the launch lock, a clock and any number of
processes. Each process has a main thread and a signal thread that share `created` and `cleaned`. A
step is one atomic action of one thread, a gc, a unit being started, time passing, or a kill; every
interleaving of them is a run. The gc step takes any set of slots for active, because the unit listing it
rests on may fail and read as empty (src/commands.rs:181-183) and leaves out units that are stopping
(src/systemd.rs:93-113); a worker launched between gc's two listings is unseen in the same way. A process whose VM a gc or another process's sweep takes away is marked.

The laws of the protocol hold for every configuration, hyphenated pool names included, unless they say what
they ask for. What systemd provides, one live unit per slot, and that a new worker's VM name is new, are part
of the step that starts a worker. `AcceptedFleet` says what validation grants, and what the remaining
conditions mean.

## What the proofs brought to light

* A VM can outlive a worker that exits by itself through three windows, not two. The signal thread may
  load `created` between the clone and the store (src/worker.rs:168-169); the main thread may find the
  cleanup begun and end the process under it (src/worker.rs:54-56); and, the third, a signal that
  arrives while the main thread cleans up makes the signal thread return early and exit the process
  (src/worker.rs:108-112). `ExitLaw` says exactly when a VM is left, and a lemma exhibits each window.
  Every VM left behind can still be reclaimed, and no run exceeds one VM per slot while sweeps succeed.
* gc can purge the VM of a live worker: when the unit listing fails it sees no slot as active, and a worker
  that is stopping is never listed. `LiveVmKept` and `GcTakesLiveExact` say exactly when;
  `FailedListingTakesVm` is a run.
* Pool names may contain hyphens (src/config.rs:15-19), though docs/CONFIG.md:45 says they have none. Most
  such names are harmless. Two pools are confused exactly when one name continues the other with a hyphen
  and a field that parses as a slot number, as `a` and `a-1`, or `a-7` and `a`: a sweep of the one may take
  VMs of the other, and gc may purge a live worker's VM even though it sees the unit, depending on the order
  of the pools. The exact condition on names and order is proved, and both pairs are shown on configurations
  that validation accepts.
* A base may be named like a worker's VM, such as `vmfleet-a-1-x`: gc spares it, the sweep of that slot
  purges it.
* `slot_base + max` wraps in 32 bits in a release build. Such a pool has no slots. Validation asks for
  disjoint slots and, beyond that, rejects exactly the configurations in which a pool that wraps begins
  strictly inside the range of one that does not.
* The supervisor counts runner records but stops units. A pool counts exactly its active units if and only if
  every online runner with a label of its sits on an active slot of its own (`WellFormedPresent`); otherwise
  it counts more, and scale-down can go wrong in three ways. It stops a busy runner's slot exactly when an
  idle record of the same slot is long idle and within the excess. It leaves fewer units than desired
  exactly when the slots among the candidates within reach are more than the units beyond the desired size;
  two idle records of one slot are enough to take a pool below its warm minimum. And pools that share a label, which
  neither validation nor the documentation rules out, count each other's runners: two of them can both stop
  their only unit in one cycle and both launch again in the next. `NoFlapping` says exactly when a pool asks
  again after stopping: when it loses more surplus records than the excess it did not stop.
* The test that keeps pagination on the API host compares text (src/github.rs:164), and the base has lost its
  trailing slash (src/github.rs:70). A link stays with the base's authority exactly when the base has a path,
  or the link ends there, or goes on with a slash, a question mark or a hash.
* A prerelease number beyond 64 bits is compared as text. A core number beyond 64 bits makes the version
  unparseable: it ranks below every version whose core fits, and level with every other that does not. A
  version is placed as the standard asks against all versions that fit if and only if it fits itself.

## Model

| member | source | states |
|---|---|---|
| WorkerLaws.FleetLaw | src/worker.rs:130-175 | over every run of any configuration with disjoint slots, whatever the interleaving, kills, gcs and failed cleanups, while sweeps complete: the VMs under the prefixes of all slots are together at most the sum of pool maxima, and each slot has at most one VM; where prefixes are apart, at most one under its prefix |
| WorkerLaws.SlotLaw | src/worker.rs:311-340 | with failing sweeps too: a slot has at most one VM more than were made after failed sweeps of it since the last complete one |
| WorkerLaws.DebtExact | src/worker.rs:321-340 | how the count of such VMs goes: a complete sweep clears it, a VM made after a failed sweep adds one, nothing else changes it |
| WorkerLaws.CleanupOnce | src/worker.rs:53-77 | in every reachable state, whatever the configuration, the cleanup body has been entered at most once, so never by both threads |
| WorkerLaws.ExitLaw | src/worker.rs:97-128 | a process that ends by itself leaves its VM if and only if it was made, no one else has taken it, and a recorded mishap befell it; a killed one if and only if it was made and neither it nor anyone else has purged it |
| WorkerLaws.EarlyReadLeaks | src/worker.rs:168-169 | from any fresh worker there is a run through the first window that leaves its VM, with nothing else wrong |
| WorkerLaws.MainCutsShort | src/worker.rs:54-56 | the same for the window in which the main thread ends the process during the signal thread's cleanup |
| WorkerLaws.SignalCutsShort | src/worker.rs:108-112 | the same for the window in which a signal ends the process during the main thread's cleanup |
| WorkerLaws.Survivors | src/worker.rs:53-77 | a VM that outlives its process was made by it, has a reason on record, and its name carries the prefix of a configured slot |
| WorkerLaws.SurvivorsReclaimed | src/worker.rs:321-328 | a survivor is gone after the slot's next sweep, and after a gc that sees no unit for it, provided its purge succeeds |
| WorkerLaws.LiveVmKept | src/worker.rs:309-330 | a step takes away the VM of a live process if and only if it is the purge of its own cleanup; or a gc that sees no active unit for the slot it reads from the name, which is no base's, and whose purge succeeds; or a sweep of another slot whose prefix captures the name, impossible where prefixes are apart; in the last two cases the process is marked |
| WorkerLaws.GcTakesLiveExact | src/commands.rs:181-205 | for every unit listing and every VM listing the code of gc goes after a worker's VM if and only if it is listed, is no base, and the slot read from it is that of no listed unit; a failed unit listing shows no slot |
| WorkerLaws.FailedListingTakesVm | src/commands.rs:181-183 | from any fresh worker there is a run in which a gc whose unit listing failed takes the VM while the worker lives |
| WorkerLaws.ServingHasVm | src/worker.rs:164-190 | a worker past its clone that no signal has reached has its VM if and only if no one else has taken it |
| WorkerProgress.GetsToServe | src/worker.rs:143-223 | from every worker about to begin, the lock free and the host clear, there is a run in which it serves: no mark, its VM there, the lock free, its start the last on record and settled |
| WorkerProgress.NextIsGranted | src/admission.rs:63-97 | and another worker can then take the lock and be granted |
| WorkerProgress.WholeLife | src/worker.rs:116-177 | and the worker can then end with no VM, no mark and no lock |
| WorkerExact.SpawnOf | src/supervisor.rs:248-260 | a worker can be started on every configured slot that no live worker holds, one whose worker is over included |
| WorkerProgress.LeavingEnds | src/worker.rs:116-128 | from every place where the lifecycle can fail, or end, the process can end without the lock; its VM is purged if it was recorded as made |
| WorkerProgress.FailedCloneEnds | src/worker.rs:168 | so after a failed clone, which leaves a VM only if it made one |
| WorkerProgress.SignalEnds | src/worker.rs:103-114 | a signal can end a serving process together with its VM |
| WorkerProgress.KillLeaves | src/worker.rs:168-177 | a kill can leave a VM behind, with nothing else wrong |
| WorkerProgress.FailedPurgeLeaves | src/worker.rs:70-74 | so can a failed purge |
| WorkerProgress.LyingCloneLeaves | src/worker.rs:168 | and a clone that made its VM and reported failure |
| WorkerLaws.BasesKept | src/commands.rs:193-196 | no step of any run removes a base, given that no base lies under a slot's prefix |
| WorkerLaws.OneLauncher | src/admission.rs:63-97 | whatever the configuration, at most one process is between taking the launch lock and dropping it; only that process can be granted, clone or start, and a grant needs an unblocked host |
| WorkerLaws.SettleLaw | src/admission.rs:99-101 | whatever the configuration, starts come in order, and the start after one that settled is at least `settle_seconds` later |
| WorkerLaws.SweepIsStep | src/worker.rs:311-330 | what the sweep method does to the VMs is a sweep step of the protocol, a complete one when the listing shows every target and no purge fails |
| WorkerLaws.GcIsStep | src/commands.rs:181-211 | what the gc method does to the VMs is a gc step of the protocol, for every unit listing, failed ones included, and every VM listing |
| WorkerLaws.AcceptedFleet | src/config.rs:359-432 | validation grants disjoint slots; pools are strangers if and only if no name is read by two of them, prefixes are apart if and only if no sweep goes after another slot's VM, bases are apart if and only if no sweep goes after a base; the first implies the second |
| WorkerExact.BasesKeptExact | src/worker.rs:321-328 | no run ever removes a base if and only if none is named under a slot's prefix |
| WorkerExact.ForeignSweepsExact | src/worker.rs:321-328 | with disjoint slots, no run ever has a sweep take the VM of another slot's live worker if and only if no slot's prefix captures another slot's VMs |
| WorkerInvariant.StepKeepsProcs | src/worker.rs:53-175 | every step of any configuration keeps what is known of each process: where its threads stand, what they have done, and when its VM exists |
| WorkerInvariant.RunKeepsProcs | src/worker.rs:80-128 | it holds after every run from a start without workers |
| WorkerInvariant.StepKeepsSlots | src/worker.rs:130-175 | every step of any configuration keeps the bound on each slot's VMs, none at all between a complete sweep and the clone |
| WorkerInvariant.RunKeepsSlots | src/worker.rs:130-175 | the bound holds after every run from a start without workers, whatever VMs are about |
| WorkerInvariant.RunKeepsLock | src/admission.rs:63-101 | over every run of any configuration: who holds the launch lock, and how the starts are spaced |
| SupervisorState.SupState.Reconcile | src/supervisor.rs:154-354 | the new memory, host and report are those of the cycle functions; an unreadable runner list changes nothing |
| SupervisorState.SupState.Remember | src/supervisor.rs:176-211 | the scan when due, the wrapping counter, and the refreshed idle timers |
| SupervisorState.SupState.RefreshIdleSince | src/supervisor.rs:205-211 | exactly the idle names remain, old ones with their time, new ones with the present time, in whatever order they are visited |
| SupervisorState.SupState.RunPools | src/supervisor.rs:213-317 | the pool loop computes the fold of the pools over the two shared budgets |
| SupervisorState.SupState.RunPool | src/supervisor.rs:214-317 | one pool's report, budget, host and failures |
| SupervisorState.SupState.RunActions | src/supervisor.rs:239-303 | launches, or stops, or neither, by the sign of the deficit and the gate |
| SupervisorState.SupState.LaunchSlots | src/supervisor.rs:250-267 | the launch loop records and charges exactly the slots whose launch succeeded |
| SupervisorState.SupState.StopSlots | src/supervisor.rs:286-302 | the stop loop stops exactly the planned slots |
| SupervisorState.SupState.ResetAll | src/supervisor.rs:170-174 | every failed unit is reset, in order, and no unit changes |
| SupervisorState.SupState.MaybeUpdateCheck | src/supervisor.rs:423-471 | the update-check fields step as the check machine does |
| Reconcile.Desired | src/supervisor.rs:22-25 | the clamp of the true sum, the saturating additions notwithstanding |
| Sizing.CountMeans | src/supervisor.rs:214-237 | a pool counts the idle and the busy online runners that carry a label of its, and those of its active units whose slot no such runner's name gives; it wants the busy, the largest queued count among its labels, and the warm ones, clamped |
| Sizing.ReportsMean | src/supervisor.rs:305-316 | every pool's report says just that, with present their sum and the deficit the difference |
| Effects.FirstCycleLaunches | src/supervisor.rs:213-317 | the first cycle of a fleet of one pool, with no runners and enough memory and limit, runs exactly as many units as are queued and kept warm, up to the maximum, in the lowest slots |
| Effects.CycleUnits | src/supervisor.rs:250-302 | after a real cycle exactly these units run: those that ran before and are not reported stopped, and those reported launched |
| Effects.ReportsTellTheCalls | src/supervisor.rs:259-299 | every launch and every stop that a report announces was asked of systemd |
| Effects.PassCalls | src/supervisor.rs:259-299 | the calls of a pool's pass, in order: reset and start for each attempt, stop for each unit stopped |
| Effects.CycleCalls | src/supervisor.rs:170-174 | a real cycle first resets every failed unit, in order |
| ScalingLaws.PresentCoversActive | src/supervisor.rs:215-229 | for any runner list a pool counts at least its active units as present |
| ScalingLaws.RoomForDeficit | src/supervisor.rs:240-249 | a pool short of workers always has that many free slots |
| ScalingLaws.PicksLowestFree | src/supervisor.rs:248-250 | the slots tried are free slots of the pool, ascending, and no lower free slot is passed over |
| ScalingLaws.AllocationLaw | src/supervisor.rs:239-267 | launches are bounded by open demand, launch limit and headroom, and equal their least when unblocked and nothing fails; the budgets are charged for them |
| ScalingLaws.CycleLaunches | src/supervisor.rs:213-317 | the same for the launches that a cycle's reports announce |
| ScalingLaws.CycleAllocation | src/supervisor.rs:188-317 | a whole cycle: exact number of launches, none when blocked, and launches times the busy reserve plus the kept minimum fit the available memory |
| ScalingLaws.HeadroomFits | src/supervisor.rs:28-31 | the headroom never exceeds what the free memory holds, even truncated, and is the largest such number when not truncated |
| ScalingLaws.HeadroomTruncates | src/supervisor.rs:28-31 | beyond 32 bits it is what the cast leaves of the quotient |
| ScalingLaws.ReportsCountLaunches | src/supervisor.rs:254-263 | the launch counter equals the number of launch actions reported |
| ScalingLaws.LaunchOrder | src/supervisor.rs:250-267 | launch actions are listed in the order of the launches |
| ScalingLaws.StopOrder | src/supervisor.rs:286-301 | stop actions in the order of the stops |
| ScalingLaws.LaunchesStayWithinDesired | src/supervisor.rs:236-250 | a pool that launches ends with at most its desired, hence at most its maximal, number of units |
| ScalingLaws.NothingFails | src/supervisor.rs:259-266 | with an accurate unit listing, disjoint pools and startable workers no launch of a cycle fails |
| ScalingLaws.LaunchedUnitsDistinct | src/supervisor.rs:248-260 | with disjoint slots no two pools launch a unit of the same name in one cycle |
| ScalingLaws.DryRunRefines | src/supervisor.rs:251-258 | from equal budgets a preview changes nothing and reports what a real pass without failures reports |
| ScalingLaws.DryRunCycle | src/supervisor.rs:170-180 | a dry-run cycle makes no call, reports what a real one with no failed launch reports, and keeps the same timers, counter and cached counts |
| ScaleDown.OldestFirstOrder | src/supervisor.rs:278-285 | the candidates end sorted by idle time, and those of equal time stay in their listed order |
| ScaleDown.QueueMembers | src/supervisor.rs:273-277 | every candidate is an idle runner of the pool on one of its active slots, with a timer |
| ScaleDown.QueueComplete | src/supervisor.rs:273-277 | and every such runner is a candidate |
| ScaleDown.ScaleDownExact | src/supervisor.rs:268-303 | exactly the first min(excess, long-idle candidates) of that order are stopped |
| Idleness.StoppedNumber | src/supervisor.rs:268-303 | the number stopped is the lesser of the excess and the number of candidates whose timer is as old as the idle timeout |
| Idleness.QueueByTimers | src/supervisor.rs:278-285 | the candidates are in the order of their timers |
| Idleness.StoppedWasIdle | src/supervisor.rs:286-301 | a slot is stopped only if a runner online, not busy, with a label of the pool, reads it from its name and has a timer as old as the idle timeout |
| Idleness.StoppedWasIdleThroughout | src/supervisor.rs:199-301 | over every run whose clock does not go back: a runner whose slot is stopped was shown idle by every cycle of the last `idle_timeout` seconds that read the runner list |
| ScaleDown.ScaleDownKeepsDesired | src/supervisor.rs:268-303 | the units left by stopping are all but the distinct slots among the candidates within reach; they are at least the desired size, itself at least the warm minimum, if and only if those slots are no more than the units beyond it |
| ScaleDown.StopsWithinExcess | src/supervisor.rs:271-301 | a pool stops no more workers than it counts in excess |
| ScaleDown.StoppedAreActive | src/supervisor.rs:273-277 | only active slots of the pool are stopped, so each distinct one costs it a unit |
| ScaleDown.StoppedExact | src/supervisor.rs:268-303 | a slot is stopped if and only if it is that of a candidate within the excess and within the long-idle ones |
| ScaleDown.CycleStopsExact | src/supervisor.rs:199-303 | so in every cycle that reads the runner list, from any memory |
| ScaleDown.StoppedSlots | src/supervisor.rs:273-277 | each stopped slot is an active slot of the pool with an idle runner on it |
| ScaleDown.BusyStoppedExact | src/supervisor.rs:273-302 | a busy runner's slot is stopped if and only if an idle record of the same slot is among those candidates |
| ScaleDown.NeverStopsBusy | src/supervisor.rs:273-302 | where no idle runner of the pool shares a busy runner's slot, that slot is never stopped |
| RecordCases.StaleRecordStopsBusy | src/supervisor.rs:273-302 | where one does it can be: the first cycle of the supervisor's life and one an idle timeout later, on an accepted configuration |
| RecordCases.TwinRecordsStopLast | src/supervisor.rs:229-301 | two idle records of one slot: the second of two such cycles of an accepted configuration stops the only unit of a pool that is to keep one warm |
| RecordCases.SharedLabelStopsBoth | src/supervisor.rs:215-301 | two pools of an accepted configuration share a label and each has one idle runner on its own slot: both stop their only unit in one cycle, though each is to keep one warm |
| RecordCases.SharedLabelFlaps | src/supervisor.rs:215-301 | and in the cycle after, with the runners gone and the same demand, both launch again |
| Convergence.WellFormedPresent | src/supervisor.rs:215-229 | a pool counts exactly its active units if and only if each online runner with a label of its sits on an active slot of its own; otherwise it counts more |
| Convergence.WellFormedMeansAtHome | src/supervisor.rs:215-229 | for pools that are strangers a view is so for all of them if and only if every online runner with a label of theirs shares a label with one pool alone and sits on an active slot of it, no two on one |
| Convergence.WellFormedKeepsDesired | src/supervisor.rs:268-303 | in such a view stopping leaves at least the desired number of units |
| Convergence.ActiveChange | src/supervisor.rs:250-302 | a pass adds the launches that succeed to a pool's units and takes away the distinct slots stopped, each within the deficit or the excess |
| Convergence.NextDeficit | src/supervisor.rs:215-303 | under frozen demand, for any runner records: the next deficit is this one, plus the surplus of records lost and the units stopped, minus the launches; where no surplus is lost a positive deficit shrinks by at least the launches and a closed one stays closed, and by exactly the launches where it is kept |
| Convergence.NoFlapping | src/supervisor.rs:236-303 | after stopping workers the same demand asks for none if and only if the surplus lost is no more than the excess not stopped; when only units are left, if and only if they are as many as desired; then none is launched |
| Convergence.WellFormedKept | src/supervisor.rs:215-229 | between views that are well-formed for every pool no surplus is lost |
| Convergence.DemandStep | src/supervisor.rs:213-317 | each good cycle in which no pool loses surplus records closes at least the lesser of the open demand and its limits, and exactly that where the surplus is kept, as in well-formed views |
| Convergence.Converges | src/supervisor.rs:213-317 | over such cycles the open demand is gone after at most as many as it was large, and stays gone |
| SupervisorRuns.FleetStaysWithinMax | src/supervisor.rs:182-186 | over every run of a valid configuration, failed listings, failing launches and dying workers included, no pool exceeds its maximum and no slot has two units |
| SupervisorRuns.HostOkAlways | src/supervisor.rs:250-260 | over every run each unit is named after its slot and runs the pool that owns the slot |
| SupervisorRuns.IdleTimersExact | src/supervisor.rs:199-211 | over every run a runner has a timer if and only if the last cycle that read the runner list has a record of it that is online and not busy, and the timer is the time of the first cycle of its unbroken streak of such records; aborted cycles neither break it nor leave a trace |
| SupervisorRuns.QueuedCountsAreFresh | src/supervisor.rs:175-181 | over every run the counts used are fewer than `queued_poll_every` successful cycles old, the counter's wrap-around included |
| SupervisorRuns.QueuedScanExact | src/supervisor.rs:175-181 | until the counter wraps they are those of the last cycle whose number is a multiple of `queued_poll_every` |
| SupervisorRuns.CycleChecksExact | src/supervisor.rs:319-326 | a cycle starts an update check if and only if checks are configured, it is no preview, none is under way and the configured hours have passed; an answer is announced if and only if it is newer |
| UpdateCheck.UpdateCheckSafe | src/supervisor.rs:423-471 | over every run at most one fetch is in flight, starts are the interval apart, and an announced version is newer than the running one |
| UpdateCheck.PollStartsWhenDue | src/supervisor.rs:454-469 | over every run a poll starts a fetch if and only if none is under way and the interval has passed since the last start |
| UpdateCheck.PollAnnounces | src/supervisor.rs:427-451 | over every run a poll that finds the last fetch answered announces what it found if that is newer, withdraws the announcement if not, and otherwise leaves it |
| Version.CmpVersionsTotalPreorder | src/selfupdate.rs:426-460 | the comparison is reflexive, reversal-symmetric, total and transitive on all strings |
| Version.NewerIsStrictWeakOrder | src/selfupdate.rs:463-465 | "newer" is irreflexive, asymmetric, transitive, and so is its incomparability |
| Version.UpdatesNeverCycle | src/selfupdate.rs:95-99 | in a chain of updates each to a newer version no version is ever installed again or fallen behind |
| Version.PickNewestLaw | src/selfupdate.rs:212-217 | nothing is picked if and only if all releases are drafts; otherwise the last of the newest non-drafts |
| Semver.ParsePrint | src/selfupdate.rs:407-421 | any printed version, behind any number of `v`s and before any build metadata, parses back exactly, and fails to parse if and only if a number exceeds 64 bits |
| Semver.FieldCounts | src/selfupdate.rs:411-415 | a single number does not parse, of two the patch is zero, and fields after the third are ignored |
| Semver.TrailingHyphen | src/selfupdate.rs:416-419 | a hyphen with nothing behind it leaves a stable version |
| Semver.SpacesIgnored | src/selfupdate.rs:408 | white space around a version makes no difference |
| Semver.SpacesAre | src/selfupdate.rs:408 | which characters these are |
| Semver.PrecedenceMatches | src/selfupdate.rs:426-460 | on valid versions whose numbers fit 64 bits the comparison is the precedence of section 11 of Semantic Versioning 2.0.0 |
| Semver.FitsExact | src/selfupdate.rs:407-460 | a valid version is placed as section 11 of Semantic Versioning 2.0.0 asks, in both directions, against every version that fits 64 bits if and only if it fits itself |
| Semver.NumericIdentExact | src/selfupdate.rs:447-452 | a numeric identifier ranks below an alphanumeric one, as the standard asks, if and only if it fits 64 bits |
| Semver.OversizedCoreRanksLowest | src/selfupdate.rs:428-433 | a version whose core has a number beyond 64 bits ranks below every one whose core fits, and equal to every other |
| Naming.PrefixCaptures | src/naming.rs:8-15 | for all pool names, hyphens included: exactly which VM names a slot's sweep prefix captures |
| Naming.HyphenFreePrefix | src/naming.rs:8-15 | for hyphen-free pools a prefix captures a VM if and only if pool and slot agree |
| Naming.HyphenFreeStrangers | docs/CONFIG.md:45 | two hyphen-free names, as the documentation promises them, are strangers: neither continues the other |
| Naming.HyphenatedPoolsCollide | src/naming.rs:13-33 | slot 1 of pool `a` captures, and reads itself from, every VM of pool `a-1` |
| Naming.OwnerReadsSlot | src/naming.rs:29-33 | the owning pool reads a VM's slot back, whatever its name |
| Naming.SlotOfVmMeans | src/naming.rs:29-33 | a slot is read from a VM for a pool if and only if the name is the fleet prefix, the pool, a hyphen, and a text whose first field is that slot as a number |
| Naming.ForeignReadingExact | src/naming.rs:29-33 | what any other pool reads from it, for every two names: the field by which the owner's name continues its own, the start time, the process id, or nothing |
| Naming.StrangersExact | src/naming.rs:29-33 | two pools never both read a slot from one name if and only if neither name continues the other with a hyphen and a slot number |
| Naming.StrangerPrefix | src/naming.rs:8-15 | for two such pools a prefix captures a VM if and only if pool and slot agree |
| Naming.StrangerReadsNothing | src/naming.rs:29-33 | a pool whose name neither continues the owner's nor is continued by it with a slot number reads nothing from it |
| Naming.OneReader | src/naming.rs:29-33 | at most one of two such pools reads a slot from any given name |
| Naming.OneSlotPerName | src/naming.rs:13-15 | a name lies under the prefix of at most one slot of such pools |
| Naming.UnitRoundTrip | src/supervisor.rs:412-417 | a slot is read back from its unit name |
| Naming.SlotFromUnitMeans | src/supervisor.rs:412-417 | a slot is read from a unit if and only if the unit is the worker prefix, that slot as a number, and the suffix |
| Naming.WorkerUnitInjective | src/naming.rs:18-20 | distinct slots have distinct unit names |
| Naming.NamesLook | src/naming.rs:5-20 | the names, as text |
| Config.Validate | src/config.rs:359-432 | accepts exactly the valid configurations; the reason of a rejection is true of a base, a pool or a pair of ranges that it names |
| Config.ValidNameMeans | src/config.rs:15-19 | a name is valid if and only if it is not empty and holds only lower-case letters, digits and hyphens |
| Config.CheckWindows | src/config.rs:417-430 | the sort and adjacent-window scan accepts exactly when every range ends before any later one begins |
| Config.SeparatedExact | src/config.rs:417-430 | with positive maxima that is the case if and only if the pools' slots are pairwise disjoint and no pool that wraps begins strictly inside the range of one that does not |
| Config.SeparatedIffDisjoint | src/config.rs:417-430 | where no sum wraps that is the case if and only if the pools' slots are pairwise disjoint |
| Config.ValidMeansDisjoint | src/config.rs:379-430 | accepted pools have disjoint slots, wrapping sums included |
| Config.WrappingRangeRejected | src/config.rs:415-419 | with a wrapping sum, pools that share no slot can be rejected |
| Config.SlotCount | src/config.rs:276-278 | a pool has at most `max` slots, and exactly `max` if and only if its sum does not wrap |
| Config.SortedRanges | src/config.rs:417 | the sort sorts |
| Admission.Decide | src/admission.rs:105-116 | unblocked if and only if memory, pressure and disk all clear their limits |
| Admission.Acquire | src/admission.rs:63-97 | granted on the first clear probe after the first lock attempt not refused; timed out at the first refusal past the deadline; still waiting only while all attempts are refused in time, or, holding the lock, while no probe is clear |
| Admission.DeadlineMeans | src/admission.rs:75 | the deadline is twenty times the configured wait away, and at least twenty seconds |
| Health.HealthMonitor | src/worker.rs:287-307 | the loop computes the verdict, and recycles at the first overdue observation |
| Health.RecycledExactly | src/worker.rs:287-307 | a runner is recycled if and only if, before its child is gone, a poll finds it absent or offline at least the grace period after the first such poll since it was last online; and then at the first such poll |
| Health.FirstRecordDecides | src/worker.rs:42-51 | Unknown for a failed query, Absent if and only if no record has the VM's name, otherwise the first such record decides |
| Health.UnknownIsIgnored | src/worker.rs:294-296 | deleting failed lookups from a trace changes neither the verdict nor its time |
| Reclaim.SweepLeftovers | src/worker.rs:311-340 | asks exactly for the names under the slot's prefix, other than its own, that are listed or that the prior state file names; those whose purge succeeds are gone, and nothing else |
| Reclaim.Gc | src/commands.rs:175-227 | purges the orphans of the listing in order and counts them; an id is deleted if and only if a listed record has it, a fleet name, and a status other than online; none after a failed listing |
| Reclaim.OrphansExact | src/commands.rs:193-211 | a name is purged if and only if it is listed, a fleet name, and an orphan |
| Reclaim.OrphansInOrder | src/commands.rs:193-211 | the orphans are purged in the order of the listing, each occurrence once |
| Reclaim.GcPurgesExact | src/commands.rs:181-211 | spelled out: a listed fleet name that is no base's is purged if and only if no pool reads a slot from it, or the first that does reads that of no listed unit |
| Reclaim.StaleIdsExact | src/commands.rs:216-221 | the records deleted are, in order, those of the listing with a fleet name and a status other than online |
| Reclaim.SlotVmOrphan | src/commands.rs:197-205 | a VM under a slot's prefix, of a pool that is a stranger to the others, is an orphan if and only if it is no base and its slot has no active unit |
| Reclaim.PoolOrderIrrelevant | src/commands.rs:198-201 | for pools that are strangers to each other the slot found does not depend on their order |
| Reclaim.OrderIrrelevantExact | src/commands.rs:198-201 | the slot found for every name is the same in every order of the pools if and only if they are strangers |
| Reclaim.ActiveVmPurgedExact | src/commands.rs:197-205 | a VM whose slot is seen active is purged if and only if it is no base and the first earlier pool to read a slot from it, by what its name is, reads an inactive one |
| Reclaim.SlotReadRightExact | src/commands.rs:198-201 | the right slot is found for every VM of a slot, at all start times and process ids, if and only if the first earlier pool that meets such VMs, if any, is one whose name the owner's continues with that very slot |
| Reclaim.HyphenatedPoolLosesLiveVm | src/commands.rs:198-205 | accepted, with pool `a` before `a-1`: the VM of a live worker of `a-1` is purged although its unit is seen; in the other order gc spares it; the sweep of slot 1 of `a` goes after it in either order |
| Reclaim.SlotNamedPoolLosesLiveVm | src/commands.rs:198-205 | accepted, with pool `a-7` before `a`: the start time in the name of the live VM on slot 7 of `a` is taken for its slot, and the VM is purged although its unit is seen; in the other order it is spared |
| Reclaim.BaseUnderPrefixSwept | src/worker.rs:321-328 | an accepted configuration whose base lies under the prefix of its own pool's slot: gc spares the base, that slot's sweep goes after it |
| GitHub.ListRunners | src/github.rs:153-170 | the pages of one unbroken chain of links that begin with the text of the API base, in order, or the failure or the other link that ended it |
| GitHub.PagesJoin | src/github.rs:156-168 | the list is the pages of all requests, in order |
| GitHub.SameAuthorityExact | src/github.rs:161-165 | a link that passes the text test has the base's authority if and only if the base has a path, or the link ends where the base does, or goes on with a slash, a question mark or a hash |
| GitHub.LinkLeavesHost | src/github.rs:161-165 | a link to another host that passes the test from the default base, and is followed |
| GitHub.QueuedLabels | src/github.rs:216-260 | counts each label's occurrences over the queued jobs of the runs that could be fetched; nothing outside repository scope |
| GitHub.QueuedJobsJoin | src/github.rs:246-258 | the jobs counted are those of each run that could be fetched, run by run |
| GitHub.OneRun | src/github.rs:246-250 | a run whose jobs could not be fetched adds none |
| GitHub.WaitingOne | src/github.rs:250-251 | a job counts if and only if its status is queued |
| GitHub.WaitingJoins | src/github.rs:250-256 | job by job, in order |
| GitHub.DemandIsLargest | src/supervisor.rs:230-235 | a pool's demand is the largest count among its labels, and attained |
| GitHub.DemandBound | src/supervisor.rs:230-235 | when no job repeats a label, demand is at most the number of queued jobs mentioning a label of the pool, and equal for a single label |
| Text.ParseDecimal | src/naming.rs:32 | a printed number parses back if and only if it is below the bound |
| Text.ParseVariants | src/naming.rs:32 | a plus sign and leading zeros are accepted; the empty text, a sign alone, a minus sign and a trailing space are not |
| Text.SplitJoin | src/selfupdate.rs:412-417 | splitting undoes joining |

## Left out

- HTTP, TLS, retries, JSON and TOML decoding, archives, checksums and self-replacement: foreign libraries; GitHub is a map from requests to answers, or a failure.
- multipass, systemctl and systemd-run command lines and their timeouts: abstract operations that succeed or fail.
- Status and metrics files, printing, install, uninstall, doctor, build-base and scale: plumbing around the modelled core.
- /proc and statvfs probes, clocks and process ids: inputs. Pressure is a real number, without NaN.
- `wait_registration`, swap setup, cloud-init, the runner token and configuration steps: in the worker protocol each is part of serving, which may fail at any time.
- Runner records deregistered by the cleanup and by the sweep: the protocol follows VMs only; gc's deregistration is modelled.
- The worker protocol takes a sweep, a gc and a clone as one atomic step each, with any part of their purges failing; a sweep cut off midway is a failed sweep followed by the end of the process. A clone that multipass finishes only after its process was killed and its successor has swept is not modelled.
- A clone that reports an error may still have made its VM; the step is there, and the survivor counts as a recorded mishap.
- A cycle has one time stamp, and so has a poll of the health monitor or of the update check.
- GitHub.ListRunners: takes a bound on the number of requests, because nothing in the code bounds a cycle of links; when the bound is hit it claims no result.
- Counts beyond 32 bits: the numbers of runners and of queued jobs, and their sums, are unbounded naturals. Slot arithmetic, headroom, the demand formula, the cycle counter and the intervals do wrap, saturate or truncate as in the source.
- The standard library's stable sort and `max_by` are written as insertion and fold; the pool sort and the candidate sort are proved sorted, the latter stable.
- Action strings such as `launch:101` are a datatype; log lines are not modelled.
- Live configuration reload: the configuration is fixed during a run.
