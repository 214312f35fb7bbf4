/** The supervisor's memory across cycles, and a whole cycle as a function of it. */
module Cycle {
  import opened Prelude
  import opened Naming
  import opened Config
  import opened GitHub
  import opened Reconcile
  import Admission
  import UpdateCheck
  import Version

  /** What the supervisor carries from one cycle to the next. */
  datatype Memory = Memory(
    idleSince: map<string, nat>,
    cycle: u64,
    cachedQueued: map<string, nat>,
    check: UpdateCheck.Check)

  /** What the outside answers during one cycle. The gate probes the host on its own, so its verdict
      is an input of its own. */
  datatype Snapshot = Snapshot(
    runners: Option<seq<Runner>>,
    failedUnits: seq<string>,
    queuedScan: map<string, nat>,
    listing: Option<seq<string>>,
    availMib: u64,
    blocked: Option<Admission.Block>,
    now: nat,
    answer: UpdateCheck.Answer)

  datatype Report = Report(
    blocked: Option<Admission.Block>,
    headroomVms: nat,
    pools: seq<PoolReport>,
    updateAvailable: bool,
    latestVersion: Option<string>)

  function IdleNames(rs: seq<Runner>): set<string>
  {
    set r | r in rs && IsIdle(r) :: r.name
  }

  /** Names no longer idle are dropped, names newly idle enter with the current time. */
  function RefreshIdle(idleSince: map<string, nat>, names: set<string>, now: nat): map<string, nat>
  {
    map n | n in names :: if n in idleSince then idleSince[n] else now
  }

  /** `wrapping_add(1)`. */
  function WrappingNext(cycle: u64): u64 { if cycle == U64_MODULUS - 1 then 0 else cycle + 1 }

  /** `is_multiple_of`. */
  predicate IsMultiple(c: nat, e: nat)
    requires e > 0
  {
    if c < e then c == 0 else IsMultiple(c - e, e)
  }

  predicate ScanDue(f: Fleet, cycle: u64) { IsMultiple(cycle, Max(f.supervisor.queuedPollEvery, 1)) }

  function QueuedNow(f: Fleet, m: Memory, snap: Snapshot): map<string, nat>
  {
    if ScanDue(f, m.cycle) then snap.queuedScan else m.cachedQueued
  }

  function SceneOf(f: Fleet, m: Memory, snap: Snapshot, w: World, dryRun: bool): Scene
    requires snap.runners.Some?
  {
    var rs := snap.runners.value;
    Scene(View(rs, QueuedNow(f, m, snap), ActiveSlots(snap.listing)),
          RefreshIdle(m.idleSince, IdleNames(rs), snap.now),
          snap.now, snap.blocked.Some?, dryRun,
          f.supervisor.maxLaunchPerPoll, f.supervisor.idleTimeoutSeconds, w)
  }

  function Headroom(f: Fleet, snap: Snapshot): u32
  {
    HeadroomVms(snap.availMib, f.admission.minAvailMib, f.supervisor.busyReserveMib)
  }

  function ResetCalls(units: seq<string>): seq<Call>
  {
    if units == [] then [] else ResetCalls(units[..|units| - 1]) + [ResetFailed(units[|units| - 1])]
  }

  /** A cycle's start: nothing launched, the full headroom, failed units reset unless this is a preview. */
  function StartOf(f: Fleet, snap: Snapshot, h: Host, dryRun: bool): Progress
  {
    Progress([], Budget(0, Headroom(f, snap)),
             if dryRun then h else h.(calls := h.calls + ResetCalls(snap.failedUnits)), 0)
  }

  function Outcome(f: Fleet, m: Memory, snap: Snapshot, h: Host, w: World, dryRun: bool): Progress
    requires snap.runners.Some? && WarmWithinMax(f.pools)
  {
    AllPools(SceneOf(f, m, snap, w, dryRun), f.pools, StartOf(f, snap, h, dryRun))
  }

  /** A cycle that GitHub does not answer changes nothing. */
  function NextMemory(f: Fleet, m: Memory, snap: Snapshot, dryRun: bool, current: string): Memory
  {
    if snap.runners.None? then m
    else
      Memory(
        RefreshIdle(m.idleSince, IdleNames(snap.runners.value), snap.now),
        WrappingNext(m.cycle),
        QueuedNow(f, m, snap),
        if f.supervisor.updateCheck && !dryRun
        then UpdateCheck.Polled(m.check, snap.answer, snap.now,
                                UpdateCheck.Interval(f.supervisor.updateCheckIntervalHours), current, Version.IsNewer)
        else m.check)
  }

  function NextHost(f: Fleet, m: Memory, snap: Snapshot, h: Host, w: World, dryRun: bool): Host
    requires WarmWithinMax(f.pools)
  {
    if snap.runners.None? then h else Outcome(f, m, snap, h, w, dryRun).host
  }

  const FRESH := Memory(map[], 0, map[], UpdateCheck.Check(None, None, false))
}
