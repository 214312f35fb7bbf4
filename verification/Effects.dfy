/** What a cycle does to the host is what its reports say: the units that are running afterwards, and the
    calls that were made. */
module Effects {
  import opened Prelude
  import opened Naming
  import opened Config
  import opened GitHub
  import opened Reconcile
  import opened Cycle
  import opened ScalingLaws
  import opened ScaleDown
  import Sizing

  // ---------- one pool ----------

  /** A unit named for one of these slots. */
  ghost predicate UnitAmong(u: string, slots: seq<nat>) { exists s :: s in slots && u == WorkerUnit(s) }

  lemma {:induction false} LaunchedUnits(h: Host, w: World, pool: string, slots: seq<nat>, u: string)
    ensures var after := LaunchAll(h, w, pool, slots).units;
            && (u in after <==> u in h.units || UnitAmong(u, Started(h, w, pool, slots)))
            && (u in h.units ==> after[u] == h.units[u])
            && (u in after && u !in h.units ==> after[u].pool == pool && u == WorkerUnit(after[u].slot))
  {
    if slots != [] {
      var init, last := slots[..|slots| - 1], slots[|slots| - 1];
      LaunchedUnits(h, w, pool, init, u);
      var before := Started(h, w, pool, init);
      StartedStep(h, w, pool, slots);
      if Launches(LaunchAll(h, w, pool, init), w, last) {
        assert Started(h, w, pool, slots) == before + [last];
        AmongOneMore(u, before, last);
      }
    }
  }

  lemma AmongOneMore(u: string, slots: seq<nat>, s: nat)
    ensures UnitAmong(u, slots + [s]) <==> UnitAmong(u, slots) || u == WorkerUnit(s)
  {
    if UnitAmong(u, slots) {
      var x :| x in slots && u == WorkerUnit(x);
      assert x in slots + [s];
    }
    if u == WorkerUnit(s) { assert s in slots + [s]; }
  }

  /** The slots among these whose unit goes away when stopped. */
  ghost predicate GoneAmong(u: string, slots: seq<nat>, w: World)
  {
    exists s :: s in slots && s !in w.stuck && u == WorkerUnit(s)
  }

  lemma {:induction false} StoppedUnits(h: Host, w: World, slots: seq<nat>, u: string)
    ensures var after := StopAll(h, w, slots).units;
            && (u in after <==> u in h.units && !GoneAmong(u, slots, w))
            && (u in after ==> after[u] == h.units[u])
  {
    if slots != [] {
      var init, last := slots[..|slots| - 1], slots[|slots| - 1];
      StoppedUnits(h, w, init, u);
      assert slots == init + [last];
      GoneOneMore(u, init, last, w);
    }
  }

  lemma GoneOneMore(u: string, slots: seq<nat>, s: nat, w: World)
    ensures GoneAmong(u, slots + [s], w) <==> GoneAmong(u, slots, w) || (s !in w.stuck && u == WorkerUnit(s))
  {
    if GoneAmong(u, slots, w) {
      var x :| x in slots && x !in w.stuck && u == WorkerUnit(x);
      assert x in slots + [s];
    }
    if s !in w.stuck && u == WorkerUnit(s) { assert s in slots + [s]; }
  }

  /** A real pass leaves the units that were there less those it stopped, and adds those it launched. */
  lemma PassUnits(sc: Scene, p: Pool, at: Progress, u: string)
    requires p.minWarm <= p.max && !sc.dryRun
    ensures var after := PoolPass(sc, p, at).host.units;
            u in after <==>
              || (u in at.host.units && !GoneAmong(u, Stopped(sc, p), sc.world))
              || UnitAmong(u, Launched(sc, p, at.budget, at.host))
  {
    var picked := Picked(sc, p, at.budget);
    LaunchedUnits(at.host, sc.world, p.name, picked, u);
    StoppedUnits(LaunchAll(at.host, sc.world, p.name, picked), sc.world, Stopped(sc, p), u);
    OneOrTheOther(sc, p, at.budget, at.host);
  }

  lemma OneOrTheOther(sc: Scene, p: Pool, b: Budget, h: Host)
    requires p.minWarm <= p.max
    ensures Launched(sc, p, b, h) == [] || Stopped(sc, p) == []
  {
    LaunchedCount(sc, p, b, h);
    AllowanceIsPicked(sc, p, b);
  }

  // ---------- the calls of a pool ----------

  /** The calls of a pass: for each attempt, clear the unit's failed state and start it; then stop each unit
      that is to go. */
  predicate CallsMade(before: seq<Call>, after: seq<Call>, pool: string, picked: seq<nat>, stopped: seq<nat>)
  {
    && |after| == |before| + 2 * |picked| + |stopped| && before <= after
    && (forall i :: 0 <= i < |picked| ==> LaunchedBy(after, |before| + 2 * i, pool, picked[i]))
    && (forall i :: 0 <= i < |stopped| ==> after[|before| + 2 * |picked| + i] == StopUnit(WorkerUnit(stopped[i])))
  }

  predicate LaunchedBy(calls: seq<Call>, n: int, pool: string, s: nat)
    requires 0 <= n < |calls| - 1
  {
    calls[n] == ResetFailed(WorkerUnit(s)) && calls[n + 1] == RunTransient(WorkerUnit(s), Worker(pool, s))
  }

  lemma {:induction false} LaunchCalls(h: Host, w: World, pool: string, slots: seq<nat>)
    ensures CallsMade(h.calls, LaunchAll(h, w, pool, slots).calls, pool, slots, [])
  {
    if slots != [] {
      var init, last := slots[..|slots| - 1], slots[|slots| - 1];
      var mid, after := LaunchAll(h, w, pool, init).calls, LaunchAll(h, w, pool, slots).calls;
      LaunchCalls(h, w, pool, init);
      assert after == mid + [ResetFailed(WorkerUnit(last)), RunTransient(WorkerUnit(last), Worker(pool, last))];
      OneMoreCall(h.calls, mid, after, pool, init, last);
    }
  }

  lemma OneMoreCall(before: seq<Call>, mid: seq<Call>, after: seq<Call>, pool: string, init: seq<nat>, last: nat)
    requires CallsMade(before, mid, pool, init, [])
    requires after == mid + [ResetFailed(WorkerUnit(last)), RunTransient(WorkerUnit(last), Worker(pool, last))]
    ensures CallsMade(before, after, pool, init + [last], [])
    ensures forall slots :: slots != [] && slots[..|slots| - 1] == init && slots[|slots| - 1] == last ==>
              CallsMade(before, after, pool, slots, [])
  {
    var all := init + [last];
    forall i | 0 <= i < |all| ensures LaunchedBy(after, |before| + 2 * i, pool, all[i]) {
      assert i < |init| ==> LaunchedBy(mid, |before| + 2 * i, pool, init[i]);
    }
    assert CallsMade(before, after, pool, all, []);
    forall slots | slots != [] && slots[..|slots| - 1] == init && slots[|slots| - 1] == last ensures slots == all {
    }
  }

  lemma {:induction false} StopCalls(h: Host, w: World, slots: seq<nat>)
    ensures var after := StopAll(h, w, slots).calls;
            && h.calls <= after && |after| == |h.calls| + |slots|
            && forall i :: 0 <= i < |slots| ==> after[|h.calls| + i] == StopUnit(WorkerUnit(slots[i]))
  {
    if slots != [] { StopCalls(h, w, slots[..|slots| - 1]); }
  }

  lemma BothCalls(h: Host, w: World, pool: string, picked: seq<nat>, stopped: seq<nat>)
    ensures CallsMade(h.calls, StopAll(LaunchAll(h, w, pool, picked), w, stopped).calls, pool, picked, stopped)
  {
    var mid := LaunchAll(h, w, pool, picked);
    LaunchCalls(h, w, pool, picked);
    StopCalls(mid, w, stopped);
    CallsJoin(h.calls, mid.calls, StopAll(mid, w, stopped).calls, pool, picked, stopped);
  }

  lemma CallsJoin(before: seq<Call>, mid: seq<Call>, after: seq<Call>, pool: string, picked: seq<nat>,
                  stopped: seq<nat>)
    requires CallsMade(before, mid, pool, picked, []) && mid <= after && |after| == |mid| + |stopped|
    requires forall i :: 0 <= i < |stopped| ==> after[|mid| + i] == StopUnit(WorkerUnit(stopped[i]))
    ensures CallsMade(before, after, pool, picked, stopped)
  {
    forall i | 0 <= i < |picked| ensures LaunchedBy(after, |before| + 2 * i, pool, picked[i]) {
      assert LaunchedBy(mid, |before| + 2 * i, pool, picked[i]);
    }
  }

  /** A real pass makes just these calls: of what it reports stopped each is asked to stop, in order. */
  lemma PassCalls(sc: Scene, p: Pool, at: Progress)
    requires p.minWarm <= p.max && !sc.dryRun
    ensures CallsMade(at.host.calls, PoolPass(sc, p, at).host.calls, p.name, Picked(sc, p, at.budget), Stopped(sc, p))
  {
    BothCalls(at.host, sc.world, p.name, Picked(sc, p, at.budget), Stopped(sc, p));
  }

  // ---------- all pools ----------

  /** The reports announce the launch of this unit. */
  ghost predicate SaidLaunched(reports: seq<PoolReport>, u: string)
  {
    exists i, s :: 0 <= i < |reports| && s in SlotsLaunched(reports[i].actions) && u == WorkerUnit(s)
  }

  /** The reports announce that this unit is stopped, and it is one that goes. */
  ghost predicate SaidStopped(reports: seq<PoolReport>, w: World, u: string)
  {
    exists i, s :: 0 <= i < |reports| && s in SlotsStopped(reports[i].actions) && s !in w.stuck && u == WorkerUnit(s)
  }

  lemma LaunchedOneMore(reports: seq<PoolReport>, r: PoolReport, u: string, launched: seq<nat>)
    requires SlotsLaunched(r.actions) == Elems(launched)
    ensures SaidLaunched(reports + [r], u) <==> SaidLaunched(reports, u) || UnitAmong(u, launched)
  {
    var all := reports + [r];
    if i, s :| 0 <= i < |reports| && s in SlotsLaunched(reports[i].actions) && u == WorkerUnit(s) {
      assert all[i] == reports[i];
    }
    if s :| s in launched && u == WorkerUnit(s) {
      assert s in SlotsLaunched(all[|reports|].actions);
    }
    if i, s :| 0 <= i < |all| && s in SlotsLaunched(all[i].actions) && u == WorkerUnit(s) {
      assert i < |reports| ==> all[i] == reports[i];
    }
  }

  lemma StoppedOneMore(reports: seq<PoolReport>, r: PoolReport, w: World, u: string, stopped: seq<nat>)
    requires SlotsStopped(r.actions) == Elems(stopped)
    ensures SaidStopped(reports + [r], w, u) <==> SaidStopped(reports, w, u) || GoneAmong(u, stopped, w)
  {
    var all := reports + [r];
    if i, s :| 0 <= i < |reports| && s in SlotsStopped(reports[i].actions) && s !in w.stuck && u == WorkerUnit(s) {
      assert all[i] == reports[i];
    }
    if s :| s in stopped && s !in w.stuck && u == WorkerUnit(s) {
      assert s in SlotsStopped(all[|reports|].actions);
    }
    if i, s :| 0 <= i < |all| && s in SlotsStopped(all[i].actions) && s !in w.stuck && u == WorkerUnit(s) {
      assert i < |reports| ==> all[i] == reports[i];
    }
  }

  /** After a real cycle over disjoint pools exactly these units run: those that ran before and are not
      reported stopped, and those reported launched. */
  lemma {:induction false} ReportsTellTheUnits(sc: Scene, pools: seq<Pool>, start: Progress, u: string)
    requires WarmWithinMax(pools) && DisjointSlots(pools) && !sc.dryRun && start.reports == []
    ensures var end := AllPools(sc, pools, start);
            u in end.host.units <==>
              || (u in start.host.units && !SaidStopped(end.reports, sc.world, u))
              || SaidLaunched(end.reports, u)
  {
    if pools != [] {
      var init, p := pools[..|pools| - 1], pools[|pools| - 1];
      var at := AllPools(sc, init, start);
      assert DisjointSlots(init) by { assert forall i :: 0 <= i < |init| ==> init[i] == pools[i]; }
      ReportsTellTheUnits(sc, init, start, u);
      PassUnits(sc, p, at, u);
      PassSays(sc, p, at, u);
      NotStoppedAgain(sc, pools, start, u);
    }
  }

  lemma PassSays(sc: Scene, p: Pool, at: Progress, u: string)
    requires p.minWarm <= p.max
    ensures var all := PoolPass(sc, p, at).reports;
            && (SaidLaunched(all, u) <==>
                  SaidLaunched(at.reports, u) || UnitAmong(u, Launched(sc, p, at.budget, at.host)))
            && (SaidStopped(all, sc.world, u) <==>
                  SaidStopped(at.reports, sc.world, u) || GoneAmong(u, Stopped(sc, p), sc.world))
  {
    var launched, stopped := Launched(sc, p, at.budget, at.host), Stopped(sc, p);
    var r := ReportOf(sc, p, LaunchActions(launched) + StopActions(stopped));
    ActionSlots(launched, stopped);
    LaunchedOneMore(at.reports, r, u, launched);
    StoppedOneMore(at.reports, r, sc.world, u, stopped);
  }

  /** What an earlier pool launched a later one does not stop. */
  lemma NotStoppedAgain(sc: Scene, pools: seq<Pool>, start: Progress, u: string)
    requires WarmWithinMax(pools) && DisjointSlots(pools) && start.reports == [] && pools != []
    ensures var init, p := pools[..|pools| - 1], pools[|pools| - 1];
            SaidLaunched(AllPools(sc, init, start).reports, u) ==> !GoneAmong(u, Stopped(sc, p), sc.world)
  {
    var init, p := pools[..|pools| - 1], pools[|pools| - 1];
    ReportsLaunchOwnSlots(sc, init, start);
    StoppedAreActive(sc, p);
    assert Count(p, sc.view).active <= SlotSet(p);
    forall s | s in Stopped(sc, p) ensures s in Slots(p) {
      assert s in Elems(Stopped(sc, p));
    }
    LaterSpares(AllPools(sc, init, start).reports, pools, u, Stopped(sc, p), sc.world);
  }

  lemma LaterSpares(reports: seq<PoolReport>, pools: seq<Pool>, u: string, stopped: seq<nat>, w: World)
    requires |reports| + 1 == |pools| && DisjointSlots(pools)
    requires forall i :: 0 <= i < |reports| ==> SlotsLaunched(reports[i].actions) <= Slots(pools[i])
    requires forall s :: s in stopped ==> s in Slots(pools[|reports|])
    ensures SaidLaunched(reports, u) ==> !GoneAmong(u, stopped, w)
  {
    if i, s :| 0 <= i < |reports| && s in SlotsLaunched(reports[i].actions) && u == WorkerUnit(s) {
      assert s in Slots(pools[i]) && Slots(pools[i]) !! Slots(pools[|reports|]);
      OtherSlotsSpared(u, s, stopped, w);
    }
  }

  lemma OtherSlotsSpared(u: string, s: nat, stopped: seq<nat>, w: World)
    requires u == WorkerUnit(s) && s !in stopped
    ensures !GoneAmong(u, stopped, w)
  {
    forall t | t in stopped ensures u != WorkerUnit(t) {
      if u == WorkerUnit(t) { WorkerUnitInjective(s, t); }
    }
  }

  /** What the reports say was asked of systemd. */
  predicate Asked(reports: seq<PoolReport>, pools: seq<Pool>, calls: seq<Call>)
    requires |reports| == |pools|
  {
    forall i :: 0 <= i < |reports| ==>
      && (forall s :: s in SlotsLaunched(reports[i].actions) ==>
            RunTransient(WorkerUnit(s), Worker(pools[i].name, s)) in calls)
      && (forall s :: s in SlotsStopped(reports[i].actions) ==> StopUnit(WorkerUnit(s)) in calls)
  }

  lemma PassAsks(sc: Scene, p: Pool, at: Progress)
    requires p.minWarm <= p.max && !sc.dryRun
    ensures var end, launched := PoolPass(sc, p, at), Launched(sc, p, at.budget, at.host);
            && |end.reports| == |at.reports| + 1 && end.reports[..|at.reports|] == at.reports
            && SlotsLaunched(end.reports[|at.reports|].actions) == Elems(launched)
            && SlotsStopped(end.reports[|at.reports|].actions) == Elems(Stopped(sc, p))
            && (forall s :: s in launched ==> RunTransient(WorkerUnit(s), Worker(p.name, s)) in end.host.calls)
            && (forall s :: s in Stopped(sc, p) ==> StopUnit(WorkerUnit(s)) in end.host.calls)
            && at.host.calls <= end.host.calls
  {
    var picked := Picked(sc, p, at.budget);
    ActionSlots(Launched(sc, p, at.budget, at.host), Stopped(sc, p));
    StartedMembers(at.host, sc.world, p.name, picked);
    PassCalls(sc, p, at);
    MadeMembers(at.host.calls, PoolPass(sc, p, at).host.calls, p.name, picked, Stopped(sc, p));
  }

  lemma MadeMembers(before: seq<Call>, after: seq<Call>, pool: string, picked: seq<nat>, stopped: seq<nat>)
    requires CallsMade(before, after, pool, picked, stopped)
    ensures forall s :: s in picked ==> RunTransient(WorkerUnit(s), Worker(pool, s)) in after
    ensures forall s :: s in stopped ==> StopUnit(WorkerUnit(s)) in after
  {
    forall s | s in picked ensures RunTransient(WorkerUnit(s), Worker(pool, s)) in after {
      var i :| 0 <= i < |picked| && picked[i] == s;
      assert LaunchedBy(after, |before| + 2 * i, pool, s);
    }
    forall s | s in stopped ensures StopUnit(WorkerUnit(s)) in after {
      var i :| 0 <= i < |stopped| && stopped[i] == s;
      assert after[|before| + 2 * |picked| + i] == StopUnit(WorkerUnit(s));
    }
  }

  /** In a real cycle every launch and every stop that a report announces was asked of systemd. */
  lemma {:induction false} ReportsTellTheCalls(sc: Scene, pools: seq<Pool>, start: Progress)
    requires WarmWithinMax(pools) && !sc.dryRun && start.reports == []
    ensures var end := AllPools(sc, pools, start);
            |end.reports| == |pools| && Asked(end.reports, pools, end.host.calls)
  {
    if pools != [] {
      var init, p := pools[..|pools| - 1], pools[|pools| - 1];
      var at := AllPools(sc, init, start);
      ReportsTellTheCalls(sc, init, start);
      PassAsks(sc, p, at);
      AskedOneMore(at.reports, AllPools(sc, pools, start).reports, pools, at.host.calls,
                   AllPools(sc, pools, start).host.calls);
    }
  }

  lemma AskedOneMore(before: seq<PoolReport>, all: seq<PoolReport>, pools: seq<Pool>, calls: seq<Call>,
                     after: seq<Call>)
    requires |all| == |pools| == |before| + 1 && all[..|before|] == before && calls <= after
    requires Asked(before, pools[..|before|], calls)
    requires forall s :: s in SlotsLaunched(all[|before|].actions) ==>
               RunTransient(WorkerUnit(s), Worker(pools[|before|].name, s)) in after
    requires forall s :: s in SlotsStopped(all[|before|].actions) ==> StopUnit(WorkerUnit(s)) in after
    ensures Asked(all, pools, after)
  {
    assert forall c :: c in calls ==> c in after by { assert after[..|calls|] == calls; }
    forall i | 0 <= i < |all|
      ensures forall s :: s in SlotsLaunched(all[i].actions) ==>
                RunTransient(WorkerUnit(s), Worker(pools[i].name, s)) in after
      ensures forall s :: s in SlotsStopped(all[i].actions) ==> StopUnit(WorkerUnit(s)) in after
    {
      if i < |before| { assert all[i] == before[i] && pools[..|before|][i] == pools[i]; }
    }
  }

  // ---------- a whole cycle ----------

  lemma {:induction false} ResetCallsInOrder(units: seq<string>)
    ensures |ResetCalls(units)| == |units|
    ensures forall i :: 0 <= i < |units| ==> ResetCalls(units)[i] == ResetFailed(units[i])
  {
    if units != [] { ResetCallsInOrder(units[..|units| - 1]); }
  }

  lemma {:induction false} CallsGrow(sc: Scene, pools: seq<Pool>, start: Progress)
    requires WarmWithinMax(pools)
    ensures start.host.calls <= AllPools(sc, pools, start).host.calls
  {
    if pools != [] {
      var p, at := pools[|pools| - 1], AllPools(sc, pools[..|pools| - 1], start);
      CallsGrow(sc, pools[..|pools| - 1], start);
      if !sc.dryRun { PassCalls(sc, p, at); }
    }
  }

  /** After a real cycle exactly these units run: those that ran before and are not reported stopped, and
      those reported launched. */
  lemma CycleUnits(f: Fleet, m: Memory, snap: Snapshot, h: Host, w: World, u: string)
    requires snap.runners.Some? && WarmWithinMax(f.pools) && DisjointSlots(f.pools)
    ensures var reports := Outcome(f, m, snap, h, w, false).reports;
            u in NextHost(f, m, snap, h, w, false).units <==>
              (u in h.units && !SaidStopped(reports, w, u)) || SaidLaunched(reports, u)
  {
    ReportsTellTheUnits(SceneOf(f, m, snap, w, false), f.pools, StartOf(f, snap, h, false), u);
  }

  /** A real cycle first clears the failed state of every failed unit, in order. */
  lemma CycleCalls(f: Fleet, m: Memory, snap: Snapshot, h: Host, w: World)
    requires snap.runners.Some? && WarmWithinMax(f.pools)
    ensures var after := NextHost(f, m, snap, h, w, false).calls;
            && |h.calls| + |snap.failedUnits| <= |after| && h.calls <= after
            && forall i :: 0 <= i < |snap.failedUnits| ==> after[|h.calls| + i] == ResetFailed(snap.failedUnits[i])
  {
    ResetCallsInOrder(snap.failedUnits);
    CallsGrow(SceneOf(f, m, snap, w, false), f.pools, StartOf(f, snap, h, false));
    Extends(h.calls, ResetCalls(snap.failedUnits), NextHost(f, m, snap, h, w, false).calls);
  }

  lemma Extends(a: seq<Call>, b: seq<Call>, c: seq<Call>)
    requires a + b <= c
    ensures a <= c && |a| + |b| <= |c| && forall i :: 0 <= i < |b| ==> c[|a| + i] == b[i]
  {
    assert forall i :: 0 <= i < |b| ==> (a + b)[|a| + i] == b[i];
  }

  // ---------- a first cycle ----------

  lemma {:induction false} FreeFrom(lo: nat, hi: nat)
    requires lo <= hi
    ensures |FreeBelow(lo, hi, {})| == hi - lo
    ensures forall i :: 0 <= i < hi - lo ==> FreeBelow(lo, hi, {})[i] == lo + i
  {
    if lo < hi { FreeFrom(lo, hi - 1); }
  }

  /** A fleet of one pool, no runners, no units, and room for all that is wanted. */
  ghost predicate FirstCycle(f: Fleet, p: Pool, snap: Snapshot, w: World, want: nat)
  {
    && f.pools == [p] && p.minWarm <= p.max && NoWrap(p)
    && snap.runners == Some([]) && snap.listing == Some([]) && snap.blocked.None?
    && (forall s :: s in Slots(p) ==> s in w.starts)
    && want <= f.supervisor.maxLaunchPerPoll
    && f.admission.minAvailMib + want * Max(f.supervisor.busyReserveMib, 1) <= snap.availMib
    && snap.availMib - f.admission.minAvailMib < U32_MODULUS * Max(f.supervisor.busyReserveMib, 1)
  }

  lemma EnoughHeadroom(free: nat, r: nat, want: nat, h: nat)
    requires r > 0 && want * r <= free < (h + 1) * r
    ensures want <= h
  {
    if want > h { MulMonotone(h + 1, want, r); }
  }

  lemma FirstCount(p: Pool, queued: map<string, nat>, q: nat)
    requires p.minWarm <= p.max && Sizing.LargestQueued(p, View([], queued, {}), q)
    ensures Count(p, View([], queued, {})).active == {}
    ensures Count(p, View([], queued, {})).Deficit() == Min(q + p.minWarm, p.max)
  {
    var v := View([], queued, {});
    var k := Sizing.CountMeans(p, v);
    assert Sizing.IdleAt(p, []) == {} && Sizing.BusyAt(p, []) == {};
    assert Sizing.ActiveUnits(p, v) == {} && Sizing.PendingUnits(p, v) == {};
  }

  lemma FirstScene(f: Fleet, p: Pool, snap: Snapshot, w: World, want: nat)
    requires FirstCycle(f, p, snap, w, want)
    ensures var sc := SceneOf(f, FRESH, snap, w, false);
            && sc.view == View([], snap.queuedScan, {}) && !sc.blocked && !sc.dryRun && sc.world == w
            && sc.maxLaunch == f.supervisor.maxLaunchPerPoll
    ensures want <= Headroom(f, snap)
  {
    assert ActiveSlots(Some([])) == {};
    assert ScanDue(f, 0);
    HeadroomFits(snap.availMib, f.admission.minAvailMib, f.supervisor.busyReserveMib);
    EnoughHeadroom(SaturatingSub(snap.availMib, f.admission.minAvailMib), Max(f.supervisor.busyReserveMib, 1), want,
                   Headroom(f, snap));
  }

  lemma FirstPick(f: Fleet, p: Pool, snap: Snapshot, w: World, q: nat, want: nat)
    requires Sizing.LargestQueued(p, View([], snap.queuedScan, {}), q) && want == Min(q + p.minWarm, p.max)
    requires FirstCycle(f, p, snap, w, want)
    ensures var sc, b := SceneOf(f, FRESH, snap, w, false), StartOf(f, snap, Host(map[], []), false).budget;
            && Stopped(sc, p) == [] && |Picked(sc, p, b)| == want
            && forall i :: 0 <= i < want ==> Picked(sc, p, b)[i] == p.slotBase + i
  {
    FirstScene(f, p, snap, w, want);
    FirstCount(p, snap.queuedScan, q);
    PickFrom(SceneOf(f, FRESH, snap, w, false), p, StartOf(f, snap, Host(map[], []), false).budget, want);
  }

  lemma PickFrom(sc: Scene, p: Pool, b: Budget, want: nat)
    requires p.minWarm <= p.max && NoWrap(p) && want <= p.max && !sc.blocked
    requires Count(p, sc.view).active == {} && Count(p, sc.view).Deficit() == want
    requires b.launched == 0 && want <= sc.maxLaunch && want <= b.headroom
    ensures Stopped(sc, p) == [] && |Picked(sc, p, b)| == want
    ensures forall i :: 0 <= i < want ==> Picked(sc, p, b)[i] == p.slotBase + i
  {
    FreeFrom(p.slotBase, SlotEnd(p));
  }

  /** From a host without units every attempt on a slot that starts succeeds, and the launched are all. */
  lemma FirstLaunches(h: Host, w: World, pool: string, slots: seq<nat>)
    requires h.units == map[] && Ascending(slots) && forall s :: s in slots ==> s in w.starts
    ensures var units := LaunchAll(h, w, pool, slots).units;
            && (forall s :: s in slots ==> WorkerUnit(s) in units && units[WorkerUnit(s)] == Worker(pool, s))
            && (forall u :: u in units ==> UnitAmong(u, slots))
  {
    LaunchAllUnits(h, w, pool, slots);
    assert forall i, j :: 0 <= i < j < |slots| ==> slots[i] != slots[j];
    assert Started(h, w, pool, slots) == slots;
    var units := LaunchAll(h, w, pool, slots).units;
    forall u ensures u in units <==> UnitAmong(u, slots) {
      LaunchedUnits(h, w, pool, slots, u);
    }
    forall s | s in slots ensures WorkerUnit(s) in units && units[WorkerUnit(s)] == Worker(pool, s) {
      LaunchedUnits(h, w, pool, slots, WorkerUnit(s));
      assert UnitAmong(WorkerUnit(s), slots);
      WorkerUnitInjective(s, units[WorkerUnit(s)].slot);
    }
  }

  /** The first cycle of such a fleet launches as many workers as jobs are queued for the pool, and the warm
      ones, up to the maximum, into its lowest slots; nothing else runs. */
  lemma FirstCycleLaunches(f: Fleet, p: Pool, snap: Snapshot, w: World, q: nat, want: nat)
    requires Sizing.LargestQueued(p, View([], snap.queuedScan, {}), q) && want == Min(q + p.minWarm, p.max)
    requires FirstCycle(f, p, snap, w, want)
    ensures var units := NextHost(f, FRESH, snap, Host(map[], []), w, false).units;
            && (forall s: nat :: p.slotBase <= s < p.slotBase + want ==>
                  WorkerUnit(s) in units && units[WorkerUnit(s)] == Worker(p.name, s))
            && (forall u :: u in units ==> exists s: nat :: p.slotBase <= s < p.slotBase + want && u == WorkerUnit(s))
  {
    var h, slots := FirstHost(f, p, snap, w, q, want);
    RangeLaunched(h, w, p.name, p.slotBase, want, slots);
  }

  lemma FirstHost(f: Fleet, p: Pool, snap: Snapshot, w: World, q: nat, want: nat) returns (h: Host, slots: seq<nat>)
    requires Sizing.LargestQueued(p, View([], snap.queuedScan, {}), q) && want == Min(q + p.minWarm, p.max)
    requires FirstCycle(f, p, snap, w, want)
    ensures h.units == map[] && |slots| == want && forall i :: 0 <= i < want ==> slots[i] == p.slotBase + i
    ensures NextHost(f, FRESH, snap, Host(map[], []), w, false) == LaunchAll(h, w, p.name, slots)
  {
    var start, sc := StartOf(f, snap, Host(map[], []), false), SceneOf(f, FRESH, snap, w, false);
    FirstPick(f, p, snap, w, q, want);
    OnePoolHost(f, p, snap, w);
    h, slots := start.host, Picked(sc, p, start.budget);
  }

  lemma RangeLaunched(h: Host, w: World, pool: string, base: nat, want: nat, slots: seq<nat>)
    requires h.units == map[] && |slots| == want && forall i :: 0 <= i < want ==> slots[i] == base + i
    requires forall s :: base <= s < base + want ==> s in w.starts
    ensures var units := LaunchAll(h, w, pool, slots).units;
            && (forall s: nat :: base <= s < base + want ==>
                  WorkerUnit(s) in units && units[WorkerUnit(s)] == Worker(pool, s))
            && (forall u :: u in units ==> exists s: nat :: base <= s < base + want && u == WorkerUnit(s))
  {
    FirstRange(base, want, slots);
    FirstLaunches(h, w, pool, slots);
    forall u | u in LaunchAll(h, w, pool, slots).units
      ensures exists s: nat :: base <= s < base + want && u == WorkerUnit(s)
    {
      var s :| s in slots && u == WorkerUnit(s);
    }
  }

  lemma OnePoolHost(f: Fleet, p: Pool, snap: Snapshot, w: World)
    requires f.pools == [p] && p.minWarm <= p.max && snap.runners.Some?
    requires Stopped(SceneOf(f, FRESH, snap, w, false), p) == []
    ensures var start, sc := StartOf(f, snap, Host(map[], []), false), SceneOf(f, FRESH, snap, w, false);
            NextHost(f, FRESH, snap, Host(map[], []), w, false)
            == LaunchAll(start.host, w, p.name, Picked(sc, p, start.budget))
  {
    var start, sc := StartOf(f, snap, Host(map[], []), false), SceneOf(f, FRESH, snap, w, false);
    assert f.pools[..0] == [];
    assert AllPools(sc, f.pools, start) == PoolPass(sc, p, AllPools(sc, f.pools[..0], start));
  }

  lemma FirstRange(base: nat, want: nat, slots: seq<nat>)
    requires |slots| == want && forall i :: 0 <= i < want ==> slots[i] == base + i
    ensures Ascending(slots) && forall s: nat :: s in slots <==> base <= s < base + want
  {
    forall s: nat | base <= s < base + want ensures s in slots {
      assert slots[s - base] == s;
    }
  }
}
