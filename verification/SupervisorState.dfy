/** The supervisor as the source has it (src/supervisor.rs): an object whose fields a cycle updates in
    place, driving systemd. Every method is proved against the functions of Reconcile and Cycle. */
module SupervisorState {
  import opened Prelude
  import opened Naming
  import opened Config
  import opened GitHub
  import opened Reconcile
  import opened Cycle
  import UpdateCheck
  import Version

  /** systemd: the worker units that are active, and the calls it was sent. */
  class Systemd {
    var units: map<string, Worker>
    var calls: seq<Call>

    constructor ()
      ensures State() == Host(map[], [])
    {
      units, calls := map[], [];
    }

    function State(): Host
      reads this
    {
      Host(units, calls)
    }

    method ResetFailedUnit(unit: string)
      modifies this
      ensures units == old(units) && calls == old(calls) + [ResetFailed(unit)]
    {
      calls := calls + [ResetFailed(unit)];
    }

    method LaunchWorker(pool: string, slot: nat, w: World) returns (ok: bool)
      modifies this
      ensures ok == Launches(old(State()), w, slot)
      ensures State() == Launch(old(State()), w, pool, slot)
    {
      var unit := WorkerUnit(slot);
      ResetFailedUnit(unit);
      calls := calls + [RunTransient(unit, Worker(pool, slot))];
      ok := slot in w.starts && unit !in units;
      if ok { units := units[unit := Worker(pool, slot)]; }
    }

    method StopWorker(slot: nat, w: World)
      modifies this
      ensures State() == Stop(old(State()), w, slot)
    {
      calls := calls + [StopUnit(WorkerUnit(slot))];
      if slot !in w.stuck { units := units - {WorkerUnit(slot)}; }
    }
  }

  class SupState {
    var idleSince: map<string, nat>
    var cycle: u64
    var cachedQueued: map<string, nat>
    var lastUpdateCheck: Option<nat>
    var latestVersion: Option<string>
    var updateRx: bool

    constructor ()
      ensures Value() == FRESH
    {
      idleSince, cycle, cachedQueued := map[], 0, map[];
      lastUpdateCheck, latestVersion, updateRx := None, None, false;
    }

    function Checking(): UpdateCheck.Check
      reads this
    {
      UpdateCheck.Check(lastUpdateCheck, latestVersion, updateRx)
    }

    function Value(): Memory
      reads this
    {
      Memory(idleSince, cycle, cachedQueued, Checking())
    }

    /** One reconcile pass; `None` is the error return when the runner list cannot be read. */
    method Reconcile(f: Fleet, snap: Snapshot, sd: Systemd, w: World, dryRun: bool, current: string)
      returns (r: Option<Report>, failures: nat)
      requires WarmWithinMax(f.pools)
      modifies this, sd
      ensures r.Some? <==> snap.runners.Some?
      ensures Value() == NextMemory(f, old(Value()), snap, dryRun, current)
      ensures sd.State() == NextHost(f, old(Value()), snap, old(sd.State()), w, dryRun)
      ensures r.Some? ==>
                var done := Outcome(f, old(Value()), snap, old(sd.State()), w, dryRun);
                && r.value == Report(snap.blocked, Headroom(f, snap), done.reports, latestVersion.Some?, latestVersion)
                && failures == done.failures
    {
      if snap.runners.None? { return None, 0; }
      var rs := snap.runners.value;
      ghost var before := Value();
      ghost var start := StartOf(f, snap, sd.State(), dryRun);
      if !dryRun {
        ResetAll(sd, snap.failedUnits);
      }
      Remember(f, snap);
      var sc := Scene(View(rs, cachedQueued, ActiveSlots(snap.listing)), idleSince, snap.now, snap.blocked.Some?,
                      dryRun, f.supervisor.maxLaunchPerPoll, f.supervisor.idleTimeoutSeconds, w);
      assert sc == SceneOf(f, before, snap, w, dryRun);
      assert Progress([], Budget(0, Headroom(f, snap)), sd.State(), 0) == start;
      var reports;
      reports, failures := RunPools(sc, f.pools, sd, Headroom(f, snap));
      if f.supervisor.updateCheck && !dryRun {
        MaybeUpdateCheck(f.supervisor.updateCheckIntervalHours, snap.now, snap.answer, current);
      }
      r := Some(Report(snap.blocked, Headroom(f, snap), reports, latestVersion.Some?, latestVersion));
    }

    /** The queued scan when it is due, the cycle counter, the idle timers. */
    method Remember(f: Fleet, snap: Snapshot)
      requires snap.runners.Some?
      modifies this`idleSince, this`cycle, this`cachedQueued
      ensures idleSince == RefreshIdle(old(idleSince), IdleNames(snap.runners.value), snap.now)
      ensures cycle == WrappingNext(old(cycle)) && cachedQueued == QueuedNow(f, old(Value()), snap)
    {
      if ScanDue(f, cycle) {
        cachedQueued := snap.queuedScan;
      }
      cycle := WrappingNext(cycle);
      RefreshIdleSince(IdleNames(snap.runners.value), snap.now);
    }

    static method RunPools(sc: Scene, pools: seq<Pool>, sd: Systemd, headroom: nat)
      returns (reports: seq<PoolReport>, failures: nat)
      requires WarmWithinMax(pools)
      modifies sd
      ensures var done := AllPools(sc, pools, Progress([], Budget(0, headroom), old(sd.State()), 0));
              reports == done.reports && failures == done.failures && sd.State() == done.host
    {
      reports, failures := [], 0;
      var budget := Budget(0, headroom);
      ghost var start := Progress([], budget, sd.State(), 0);
      for k := 0 to |pools|
        invariant Progress(reports, budget, sd.State(), failures) == AllPools(sc, pools[..k], start)
      {
        var report, failed;
        NextPool(sc, pools, k, start);
        report, budget, failed := RunPool(sc, pools[k], sd, budget);
        reports := reports + [report];
        failures := failures + failed;
      }
      assert pools[..|pools|] == pools;
    }

    static lemma NextPool(sc: Scene, pools: seq<Pool>, k: nat, start: Progress)
      requires WarmWithinMax(pools) && k < |pools|
      ensures AllPools(sc, pools[..k + 1], start) == PoolPass(sc, pools[k], AllPools(sc, pools[..k], start))
    {
      assert pools[..k + 1][..|pools[..k + 1]| - 1] == pools[..k];
    }

    static method ResetAll(sd: Systemd, units: seq<string>)
      modifies sd
      ensures sd.State() == old(sd.State()).(calls := old(sd.calls) + ResetCalls(units))
    {
      for k := 0 to |units|
        invariant sd.units == old(sd.units) && sd.calls == old(sd.calls) + ResetCalls(units[..k])
      {
        assert units[..k + 1][..|units[..k + 1]| - 1] == units[..k];
        sd.ResetFailedUnit(units[k]);
      }
      assert units[..|units|] == units;
    }

    /** `retain`, then an entry for every idle name. */
    method RefreshIdleSince(nowIdle: set<string>, now: nat)
      modifies this`idleSince
      ensures idleSince == RefreshIdle(old(idleSince), nowIdle, now)
    {
      idleSince := map n | n in idleSince && n in nowIdle :: idleSince[n];
      var rest := nowIdle;
      while rest != {}
        invariant rest <= nowIdle && idleSince.Keys <= nowIdle
        invariant forall n :: n in nowIdle && n !in rest ==> n in idleSince
        invariant forall n :: n in nowIdle && n in old(idleSince) ==> n in idleSince
        invariant forall n :: n in idleSince ==> idleSince[n] == if n in old(idleSince) then old(idleSince)[n] else now
        decreases rest
      {
        var name :| name in rest;
        if name !in idleSince { idleSince := idleSince[name := now]; }
        rest := rest - {name};
      }
    }

    static method RunPool(sc: Scene, p: Pool, sd: Systemd, b: Budget)
      returns (report: PoolReport, left: Budget, failed: nat)
      requires p.minWarm <= p.max
      modifies sd
      ensures var launches := LaunchActions(Launched(sc, p, b, old(sd.State())));
              report == ReportOf(sc, p, launches + StopActions(Stopped(sc, p)))
      ensures left == Spend(b, |Launched(sc, p, b, old(sd.State()))|)
      ensures sd.State() == HostAfter(sc, p, b, old(sd.State()))
      ensures failed == Failed(sc, p, b, old(sd.State()))
    {
      var t := Count(p, sc.view);
      var actions;
      ghost var h := sd.State();
      actions, left, failed := RunActions(sc, p, t, sd, b);
      StartedLength(h, sc.world, p.name, Picked(sc, p, b));
      report := PoolReport(p.name, |t.idle|, t.busy, t.queued, |t.active|, t.pending,
                           t.Present(), t.desired, t.Deficit(), actions);
    }

    /** The launch branch, the scale-down branch, or neither. */
    static method RunActions(sc: Scene, p: Pool, t: Tally, sd: Systemd, b: Budget)
      returns (actions: seq<Action>, left: Budget, failed: nat)
      modifies sd
      ensures var h, slots := old(sd.State()), Pick(sc, p, t, b);
              var ok := if sc.dryRun then slots else Started(h, sc.world, p.name, slots);
              && actions == LaunchActions(ok) + StopActions(Plan(sc, p, t))
              && left == Spend(b, |ok|) && |ok| + failed == |slots|
              && sd.State() == if sc.dryRun then h
                               else StopAll(LaunchAll(h, sc.world, p.name, slots), sc.world, Plan(sc, p, t))
    {
      var deficit := t.Deficit();
      if deficit > 0 && !sc.blocked {
        actions, left, failed := ScaleUp(sc, p, t, sd, b);
        assert Plan(sc, p, t) == [];
        assert actions == actions + StopActions([]);
      } else {
        assert Pick(sc, p, t, b) == [];
        actions, left, failed := [], b, 0;
        if deficit < 0 {
          actions := ScaleDown(sc, p, t, sd);
        } else {
          assert Plan(sc, p, t) == [];
        }
        assert actions == LaunchActions([]) + actions;
      }
    }

    static method ScaleUp(sc: Scene, p: Pool, t: Tally, sd: Systemd, b: Budget)
      returns (actions: seq<Action>, left: Budget, failed: nat)
      requires t.Deficit() > 0 && !sc.blocked
      modifies sd
      ensures var h, slots := old(sd.State()), Pick(sc, p, t, b);
              var ok := if sc.dryRun then slots else Started(h, sc.world, p.name, slots);
              && actions == LaunchActions(ok) && left == Spend(b, |ok|) && |ok| + failed == |slots|
              && sd.State() == if sc.dryRun then h else LaunchAll(h, sc.world, p.name, slots)
    {
      var can := Min(Min(t.Deficit(), SaturatingSub(sc.maxLaunch, b.launched)), b.headroom);
      var free := FreeSlots(p, t.active);
      assert Pick(sc, p, t, b) == free[..Min(can, |free|)];
      actions, left, failed := LaunchSlots(sc, p.name, free[..Min(can, |free|)], sd, b);
    }

    static method ScaleDown(sc: Scene, p: Pool, t: Tally, sd: Systemd) returns (actions: seq<Action>)
      requires t.Deficit() < 0
      modifies sd
      ensures actions == StopActions(Plan(sc, p, t))
      ensures sd.State() == if sc.dryRun then old(sd.State()) else StopAll(old(sd.State()), sc.world, Plan(sc, p, t))
    {
      actions := StopSlots(sc, Queue(sc, p, t), -t.Deficit(), sd);
    }

    /** The launches of a pass that count, and the host after them; a preview counts all and makes none. */
    static function Counted(sc: Scene, h: Host, pool: string, slots: seq<nat>): seq<nat>
    {
      if sc.dryRun then slots else Started(h, sc.world, pool, slots)
    }

    static function HostThen(sc: Scene, h: Host, pool: string, slots: seq<nat>): Host
    {
      if sc.dryRun then h else LaunchAll(h, sc.world, pool, slots)
    }

    static lemma NextLaunch(sc: Scene, h: Host, pool: string, slots: seq<nat>, k: nat)
      requires k < |slots|
      ensures var before := HostThen(sc, h, pool, slots[..k]);
              var ok := sc.dryRun || Launches(before, sc.world, slots[k]);
              && HostThen(sc, h, pool, slots[..k + 1])
                 == (if sc.dryRun then before else Launch(before, sc.world, pool, slots[k]))
              && Counted(sc, h, pool, slots[..k + 1])
                 == Counted(sc, h, pool, slots[..k]) + if ok then [slots[k]] else []
    {
      assert slots[..k + 1][..|slots[..k + 1]| - 1] == slots[..k];
      assert slots[..k + 1] == slots[..k] + [slots[k]];
    }

    static lemma NextAction(ok: seq<nat>, slot: nat)
      ensures LaunchActions(ok + [slot]) == LaunchActions(ok) + [LaunchSlot(slot)]
    {
      assert (ok + [slot])[..|ok|] == ok;
    }

    /** The launch loop: a failed launch is skipped and costs no budget. */
    static method LaunchSlots(sc: Scene, pool: string, slots: seq<nat>, sd: Systemd, b: Budget)
      returns (actions: seq<Action>, left: Budget, failed: nat)
      modifies sd
      ensures var ok := if sc.dryRun then slots else Started(old(sd.State()), sc.world, pool, slots);
              && actions == LaunchActions(ok) && left == Spend(b, |ok|) && |ok| + failed == |slots|
      ensures sd.State() == if sc.dryRun then old(sd.State()) else LaunchAll(old(sd.State()), sc.world, pool, slots)
    {
      actions, failed := [], 0;
      var launched, headroom := b.launched, b.headroom;
      ghost var h, ok := sd.State(), Counted(sc, sd.State(), pool, slots[..0]);
      for k := 0 to |slots|
        invariant ok == Counted(sc, h, pool, slots[..k]) && sd.State() == HostThen(sc, h, pool, slots[..k])
        invariant actions == LaunchActions(ok) && |ok| + failed == k
        invariant launched == b.launched + |ok| && headroom == SaturatingSub(b.headroom, |ok|)
      {
        NextLaunch(sc, h, pool, slots, k);
        var started := true;
        if !sc.dryRun { started := sd.LaunchWorker(pool, slots[k], sc.world); }
        if started {
          NextAction(ok, slots[k]);
          actions := actions + [LaunchSlot(slots[k])];
          launched := launched + 1;
          headroom := SaturatingSub(headroom, 1);
          ok := ok + [slots[k]];
        } else {
          failed := failed + 1;
        }
      }
      assert slots[..|slots|] == slots;
      left := Budget(launched, headroom);
    }

    /** The stop loop over the sorted candidates. */
    static method StopSlots(sc: Scene, sorted: seq<Candidate>, over: nat, sd: Systemd) returns (actions: seq<Action>)
      modifies sd
      ensures var plan := StopPlan(sorted, over, sc.now, sc.idleTimeout);
              && actions == StopActions(plan)
              && sd.State() == if sc.dryRun then old(sd.State()) else StopAll(old(sd.State()), sc.world, plan)
    {
      actions := [];
      var excess, k := over, 0;
      ghost var done: seq<nat> := [];
      assert sorted[0..] == sorted;
      while k < |sorted| && excess > 0
        invariant k <= |sorted|
        invariant StopPlan(sorted, over, sc.now, sc.idleTimeout)
               == done + StopPlan(sorted[k..], excess, sc.now, sc.idleTimeout)
        invariant actions == StopActions(done)
        invariant sd.State() == if sc.dryRun then old(sd.State()) else StopAll(old(sd.State()), sc.world, done)
      {
        assert sorted[k..][1..] == sorted[k + 1..];
        if sorted[k].LongIdle(sc.now, sc.idleTimeout) {
          if !sc.dryRun { sd.StopWorker(sorted[k].slot, sc.world); }
          assert (done + [sorted[k].slot])[..|done + [sorted[k].slot]| - 1] == done;
          actions := actions + [StopSlot(sorted[k].slot)];
          done := done + [sorted[k].slot];
          excess := excess - 1;
        }
        k := k + 1;
      }
      assert done + StopPlan(sorted[k..], excess, sc.now, sc.idleTimeout) == done;
    }

    /** Apply a finished check, then start one if none is in flight and the interval has elapsed. */
    method MaybeUpdateCheck(hours: nat, now: nat, answer: UpdateCheck.Answer, current: string)
      modifies this`lastUpdateCheck, this`latestVersion, this`updateRx
      ensures var interval := UpdateCheck.Interval(hours);
              Checking() == UpdateCheck.Polled(old(Checking()), answer, now, interval, current, Version.IsNewer)
    {
      if updateRx {
        match answer {
          case Sent(result) =>
            if result.Some? {
              if Version.IsNewer(result.value, current) {
                latestVersion := result;
              } else {
                latestVersion := None;
              }
            }
            updateRx := false;
          case Disconnected => updateRx := false;
          case Empty =>
        }
      }
      if !updateRx {
        var due := lastUpdateCheck.None? || SaturatingSub(now, lastUpdateCheck.value) >= UpdateCheck.Interval(hours);
        if due {
          lastUpdateCheck := Some(now);
          updateRx := true;
        }
      }
    }
  }
}
