/** One reconcile cycle on values (src/supervisor.rs): how a pool is counted, what it launches or
    stops, and how the pools share the cycle's two budgets. The class in SupervisorState.dfy is
    proved against these functions. */
module Reconcile {
  import opened Prelude
  import opened Naming
  import opened Config
  import opened GitHub
  import Text

  // ---------- arithmetic ----------

  function SaturatingAdd(a: nat, b: nat): nat { Min(a + b, U32_MODULUS - 1) }

  /** `want.clamp(min_warm, max)`; the clamp panics unless the bounds are ordered. Saturation never
      shows: the result is the clamp of the true sum. */
  function Desired(busy: nat, queued: nat, minWarm: u32, max: u32): (r: u32)
    requires minWarm <= max
    ensures r == Max(minWarm, Min(busy + queued + minWarm, max))
  {
    var want := SaturatingAdd(SaturatingAdd(busy, queued), minWarm);
    if want < minWarm then minWarm else if want > max then max else want
  }

  /** The quotient is truncated to 32 bits by the cast. */
  function HeadroomVms(availMib: u64, minAvailMib: u64, busyReserveMib: u64): u32
  {
    SaturatingSub(availMib, minAvailMib) / Max(busyReserveMib, 1) % U32_MODULUS
  }

  // ---------- counting a pool ----------

  /** What the counting reads: GitHub's runners, the queued-label counts, the active worker slots. */
  datatype View = View(runners: seq<Runner>, queued: map<string, nat>, activeSlots: set<nat>)

  predicate SharesLabel(p: Pool, r: Runner) { exists i :: 0 <= i < |p.labels| && r.HasLabel(p.labels[i]) }

  function Mine(p: Pool, rs: seq<Runner>): seq<Runner>
  {
    if rs == [] then []
    else Mine(p, rs[..|rs| - 1]) + if SharesLabel(p, rs[|rs| - 1]) then [rs[|rs| - 1]] else []
  }

  predicate IsIdle(r: Runner) { r.Online() && !r.busy }

  predicate IsBusy(r: Runner) { r.Online() && r.busy }

  function Idle(rs: seq<Runner>): seq<Runner>
  {
    if rs == [] then []
    else Idle(rs[..|rs| - 1]) + if IsIdle(rs[|rs| - 1]) then [rs[|rs| - 1]] else []
  }

  function BusyCount(rs: seq<Runner>): nat
  {
    if rs == [] then 0 else BusyCount(rs[..|rs| - 1]) + if IsBusy(rs[|rs| - 1]) then 1 else 0
  }

  /** The slots of the runners that are online. */
  function OnlineSlots(pool: string, rs: seq<Runner>): set<nat>
  {
    if rs == [] then {}
    else
      var r := rs[|rs| - 1];
      OnlineSlots(pool, rs[..|rs| - 1])
        + if r.Online() && SlotOfVm(pool, r.name).Some? then {SlotOfVm(pool, r.name).value} else {}
  }

  function SlotSet(p: Pool): (r: set<nat>)
    ensures r == Slots(p)
  {
    set s: nat | s in Slots(p)
  }

  datatype Tally = Tally(
    idle: seq<Runner>,
    busy: nat,
    queued: nat,
    active: set<nat>,
    pending: nat,
    desired: u32)
  {
    /** Idle and busy runners, and active units that have no online runner yet. */
    function Present(): nat { |idle| + busy + pending }

    function Deficit(): int { desired - Present() }
  }

  function Count(p: Pool, v: View): Tally
    requires p.minWarm <= p.max
  {
    var mine := Mine(p, v.runners);
    var active := v.activeSlots * SlotSet(p);
    var busy, queued := BusyCount(mine), Demand(p.labels, v.queued);
    Tally(Idle(mine), busy, queued, active, |active - OnlineSlots(p.name, mine)|,
          Desired(busy, queued, p.minWarm, p.max))
  }

  /** The free slots of a pool in ascending order. */
  function FreeSlots(p: Pool, active: set<nat>): seq<nat> { FreeBelow(p.slotBase, SlotEnd(p), active) }

  function FreeBelow(lo: nat, hi: nat, active: set<nat>): seq<nat>
  {
    if hi <= lo then [] else FreeBelow(lo, hi - 1, active) + if hi - 1 !in active then [hi - 1] else []
  }

  // ---------- systemd ----------

  /** The arguments of a worker unit. */
  datatype Worker = Worker(pool: string, slot: nat)

  datatype Call = ResetFailed(unit: string) | RunTransient(unit: string, worker: Worker) | StopUnit(unit: string)

  /** The units systemd runs, and the calls made to it. */
  datatype Host = Host(units: map<string, Worker>, calls: seq<Call>)

  /** How the host answers in a cycle: the slots whose worker would start, and the slots whose unit
      does not go away when stopped. */
  datatype World = World(starts: set<nat>, stuck: set<nat>)

  predicate Launches(h: Host, w: World, slot: nat) { slot in w.starts && WorkerUnit(slot) !in h.units }

  /** A launch clears the unit's failed state and starts it; systemd refuses a unit that is active. */
  function Launch(h: Host, w: World, pool: string, slot: nat): Host
  {
    var unit, worker := WorkerUnit(slot), Worker(pool, slot);
    Host(if Launches(h, w, slot) then h.units[unit := worker] else h.units,
         h.calls + [ResetFailed(unit), RunTransient(unit, worker)])
  }

  function Stop(h: Host, w: World, slot: nat): Host
  {
    var unit := WorkerUnit(slot);
    Host(if slot in w.stuck then h.units else h.units - {unit}, h.calls + [StopUnit(unit)])
  }

  function LaunchAll(h: Host, w: World, pool: string, slots: seq<nat>): Host
  {
    if slots == [] then h
    else Launch(LaunchAll(h, w, pool, slots[..|slots| - 1]), w, pool, slots[|slots| - 1])
  }

  /** The slots of the attempts that succeed. */
  function Started(h: Host, w: World, pool: string, slots: seq<nat>): seq<nat>
  {
    if slots == [] then []
    else
      var init, last := slots[..|slots| - 1], slots[|slots| - 1];
      Started(h, w, pool, init) + if Launches(LaunchAll(h, w, pool, init), w, last) then [last] else []
  }

  function StopAll(h: Host, w: World, slots: seq<nat>): Host
  {
    if slots == [] then h else Stop(StopAll(h, w, slots[..|slots| - 1]), w, slots[|slots| - 1])
  }

  // ---------- scale-down ----------

  /** An idle runner on an active slot of the pool, and when it was first seen idle. */
  datatype Candidate = Candidate(runner: Runner, slot: nat, since: Option<nat>) {
    function Key(now: nat): nat { since.GetOr(now) }

    predicate LongIdle(now: nat, timeout: nat) { since.Some? && SaturatingSub(now, since.value) >= timeout }
  }

  function Since(idleSince: map<string, nat>, name: string): Option<nat>
  {
    if name in idleSince then Some(idleSince[name]) else None
  }

  function Candidates(pool: string, idle: seq<Runner>, active: set<nat>, idleSince: map<string, nat>): seq<Candidate>
  {
    if idle == [] then []
    else
      var r := idle[|idle| - 1];
      var slot := SlotOfVm(pool, r.name);
      Candidates(pool, idle[..|idle| - 1], active, idleSince)
        + if slot.Some? && slot.value in active then [Candidate(r, slot.value, Since(idleSince, r.name))] else []
  }

  /** `sort_by_key`, stable: oldest idle first. */
  function OldestFirst(cs: seq<Candidate>, now: nat): seq<Candidate>
  {
    if cs == [] then [] else AfterEarlier(OldestFirst(cs[..|cs| - 1], now), cs[|cs| - 1], now)
  }

  function AfterEarlier(s: seq<Candidate>, x: Candidate, now: nat): seq<Candidate>
  {
    if s == [] then [x]
    else if s[|s| - 1].Key(now) <= x.Key(now) then s + [x]
    else AfterEarlier(s[..|s| - 1], x, now) + [s[|s| - 1]]
  }

  /** The loop over the sorted candidates: long-idle ones are stopped until the excess is gone. */
  function StopPlan(cs: seq<Candidate>, excess: nat, now: nat, timeout: nat): seq<nat>
  {
    if cs == [] || excess == 0 then []
    else if cs[0].LongIdle(now, timeout) then [cs[0].slot] + StopPlan(cs[1..], excess - 1, now, timeout)
    else StopPlan(cs[1..], excess, now, timeout)
  }

  // ---------- one pool ----------

  datatype Action = LaunchSlot(slot: nat) | StopSlot(slot: nat)

  datatype PoolReport = PoolReport(
    name: string,
    idle: nat,
    busy: nat,
    queued: nat,
    activeUnits: nat,
    pending: nat,
    present: nat,
    desired: nat,
    deficit: int,
    actions: seq<Action>)

  /** What the cycle has launched so far, and the launches the memory still allows. */
  datatype Budget = Budget(launched: nat, headroom: nat)

  /** Everything a pool's pass reads besides the budget and the host. */
  datatype Scene = Scene(
    view: View,
    idleSince: map<string, nat>,
    now: nat,
    blocked: bool,
    dryRun: bool,
    maxLaunch: u32,
    idleTimeout: nat,
    world: World)

  /** Where a cycle stands: reports so far, remaining budget, host, launches that failed. */
  datatype Progress = Progress(reports: seq<PoolReport>, budget: Budget, host: Host, failures: nat)

  function Allowance(sc: Scene, b: Budget, deficit: int): nat
  {
    if deficit <= 0 || sc.blocked then 0
    else Min(Min(deficit, SaturatingSub(sc.maxLaunch, b.launched)), b.headroom)
  }

  /** The slots a pool tries to launch: its lowest free ones, as many as it may. */
  function Pick(sc: Scene, p: Pool, t: Tally, b: Budget): seq<nat>
  {
    var free := FreeSlots(p, t.active);
    free[..Min(Allowance(sc, b, t.Deficit()), |free|)]
  }

  function Picked(sc: Scene, p: Pool, b: Budget): seq<nat>
    requires p.minWarm <= p.max
  {
    Pick(sc, p, Count(p, sc.view), b)
  }

  /** The candidates for stopping, oldest idle first. */
  function Queue(sc: Scene, p: Pool, t: Tally): seq<Candidate>
  {
    OldestFirst(Candidates(p.name, t.idle, t.active, sc.idleSince), sc.now)
  }

  /** The slots a pool stops, in order. */
  function Plan(sc: Scene, p: Pool, t: Tally): seq<nat>
  {
    if t.Deficit() >= 0 then [] else StopPlan(Queue(sc, p, t), -t.Deficit(), sc.now, sc.idleTimeout)
  }

  function Stopped(sc: Scene, p: Pool): seq<nat>
    requires p.minWarm <= p.max
  {
    Plan(sc, p, Count(p, sc.view))
  }

  /** The launches that count: all of them in a dry run, otherwise those that succeed. */
  function Launched(sc: Scene, p: Pool, b: Budget, h: Host): seq<nat>
    requires p.minWarm <= p.max
  {
    if sc.dryRun then Picked(sc, p, b) else Started(h, sc.world, p.name, Picked(sc, p, b))
  }

  function LaunchActions(slots: seq<nat>): seq<Action>
  {
    if slots == [] then [] else LaunchActions(slots[..|slots| - 1]) + [LaunchSlot(slots[|slots| - 1])]
  }

  function StopActions(slots: seq<nat>): seq<Action>
  {
    if slots == [] then [] else StopActions(slots[..|slots| - 1]) + [StopSlot(slots[|slots| - 1])]
  }

  function HostAfter(sc: Scene, p: Pool, b: Budget, h: Host): Host
    requires p.minWarm <= p.max
  {
    if sc.dryRun then h
    else StopAll(LaunchAll(h, sc.world, p.name, Picked(sc, p, b)), sc.world, Stopped(sc, p))
  }

  function Spend(b: Budget, n: nat): Budget { Budget(b.launched + n, SaturatingSub(b.headroom, n)) }

  function ReportOf(sc: Scene, p: Pool, actions: seq<Action>): PoolReport
    requires p.minWarm <= p.max
  {
    var t := Count(p, sc.view);
    PoolReport(p.name, |t.idle|, t.busy, t.queued, |t.active|, t.pending, t.Present(), t.desired, t.Deficit(), actions)
  }

  function PoolPass(sc: Scene, p: Pool, at: Progress): Progress
    requires p.minWarm <= p.max
  {
    var launched := Launched(sc, p, at.budget, at.host);
    Progress(
      at.reports + [ReportOf(sc, p, LaunchActions(launched) + StopActions(Stopped(sc, p)))],
      Spend(at.budget, |launched|),
      HostAfter(sc, p, at.budget, at.host),
      at.failures + Failed(sc, p, at.budget, at.host))
  }

  /** Launch attempts that the host refused. */
  function Failed(sc: Scene, p: Pool, b: Budget, h: Host): nat
    requires p.minWarm <= p.max
  {
    var picked := Picked(sc, p, b);
    if sc.dryRun then 0
    else
      StartedLength(h, sc.world, p.name, picked);
      |picked| - |Started(h, sc.world, p.name, picked)|
  }

  lemma {:induction false} StartedLength(h: Host, w: World, pool: string, slots: seq<nat>)
    ensures |Started(h, w, pool, slots)| <= |slots|
    ensures |Started(h, w, pool, slots)| == |slots| <==> Started(h, w, pool, slots) == slots
  {
    if slots != [] {
      StartedLength(h, w, pool, slots[..|slots| - 1]);
      assert slots == slots[..|slots| - 1] + [slots[|slots| - 1]];
    }
  }

  // ---------- all pools ----------

  predicate WarmWithinMax(pools: seq<Pool>) { forall i :: 0 <= i < |pools| ==> pools[i].minWarm <= pools[i].max }

  function AllPools(sc: Scene, pools: seq<Pool>, start: Progress): Progress
    requires WarmWithinMax(pools)
  {
    if pools == [] then start
    else PoolPass(sc, pools[|pools| - 1], AllPools(sc, pools[..|pools| - 1], start))
  }
}
