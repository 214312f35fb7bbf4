/** What one reconcile cycle guarantees, over arbitrary runner lists and any pools: how many workers
    it launches and where, that memory allows them, and that no pool outgrows its demand. */
module ScalingLaws {
  import opened Prelude
  import opened Naming
  import opened Config
  import opened GitHub
  import opened Reconcile
  import opened Cycle

  // ---------- counting ----------

  /** Each online runner accounts for at most one slot. */
  lemma {:induction false} OnlineCover(pool: string, rs: seq<Runner>)
    ensures |OnlineSlots(pool, rs)| <= |Idle(rs)| + BusyCount(rs)
  {
    if rs != [] {
      OnlineCover(pool, rs[..|rs| - 1]);
    }
  }

  /** Whatever GitHub lists, a pool is never counted as smaller than its active units. */
  lemma PresentCoversActive(p: Pool, v: View)
    requires p.minWarm <= p.max
    ensures |Count(p, v).active| <= Count(p, v).Present()
  {
    var t := Count(p, v);
    var online := OnlineSlots(p.name, Mine(p, v.runners));
    OnlineCover(p.name, Mine(p, v.runners));
    assert t.active == (t.active * online) + (t.active - online);
    SubsetSize(t.active * online, online);
  }

  lemma {:induction false} FreeMembers(lo: nat, hi: nat, active: set<nat>)
    ensures forall s :: s in FreeBelow(lo, hi, active) <==> lo <= s < hi && s !in active
  {
    if lo < hi { FreeMembers(lo, hi - 1, active); }
  }

  predicate Ascending(s: seq<nat>) { forall i, j :: 0 <= i < j < |s| ==> s[i] < s[j] }

  lemma {:induction false} FreeAscends(lo: nat, hi: nat, active: set<nat>)
    ensures Ascending(FreeBelow(lo, hi, active))
  {
    if lo < hi {
      FreeAscends(lo, hi - 1, active);
      FreeMembers(lo, hi - 1, active);
      AscendsOnto(FreeBelow(lo, hi - 1, active), hi - 1);
    }
  }

  lemma AscendsOnto(s: seq<nat>, x: nat)
    requires Ascending(s) && forall y :: y in s ==> y < x
    ensures Ascending(s + [x])
  {
    forall i, j | 0 <= i < j < |s + [x]| ensures (s + [x])[i] < (s + [x])[j] {
      if j == |s| { assert s[i] in s; }
    }
  }

  lemma {:induction false} FreeBelowCount(lo: nat, hi: nat, active: set<nat>)
    requires lo <= hi
    ensures |FreeBelow(lo, hi, active)| == hi - lo - |set s | s in active && lo <= s < hi|
  {
    var used := set s | s in active && lo <= s < hi;
    if lo == hi {
      assert used == {};
    } else {
      FreeBelowCount(lo, hi - 1, active);
      var below := set s | s in active && lo <= s < hi - 1;
      assert used == if hi - 1 in active then below + {hi - 1} else below;
    }
  }

  /** There is always room for the deficit: a pool short of workers has that many free slots. */
  lemma RoomForDeficit(p: Pool, v: View)
    requires p.minWarm <= p.max && NoWrap(p)
    ensures Count(p, v).Deficit() <= |FreeSlots(p, Count(p, v).active)|
  {
    var t := Count(p, v);
    PresentCoversActive(p, v);
    FreeBelowCount(p.slotBase, SlotEnd(p), t.active);
    assert t.active == set s | s in t.active && p.slotBase <= s < SlotEnd(p);
  }

  /** The slots tried are free slots of the pool, and no free slot below them is passed over. */
  lemma PicksLowestFree(sc: Scene, p: Pool, b: Budget)
    requires p.minWarm <= p.max
    ensures var picked, active := Picked(sc, p, b), Count(p, sc.view).active;
            && (forall i :: 0 <= i < |picked| ==> picked[i] in Slots(p) && picked[i] !in active)
            && (forall i, j :: 0 <= i < j < |picked| ==> picked[i] < picked[j])
            && (forall i, s :: 0 <= i < |picked| && s in Slots(p) && s !in active && s <= picked[i] ==> s in picked)
  {
    var active := Count(p, sc.view).active;
    PrefixIsLowest(p.slotBase, SlotEnd(p), active, |Picked(sc, p, b)|);
  }

  lemma PrefixIsLowest(lo: nat, hi: nat, active: set<nat>, n: nat)
    requires n <= |FreeBelow(lo, hi, active)|
    ensures var r := FreeBelow(lo, hi, active)[..n];
            && (forall i :: 0 <= i < |r| ==> lo <= r[i] < hi && r[i] !in active)
            && (forall i, j :: 0 <= i < j < |r| ==> r[i] < r[j])
            && (forall i, s :: 0 <= i < |r| && lo <= s < hi && s !in active && s <= r[i] ==> s in r)
  {
    FreeMembers(lo, hi, active);
    FreeAscends(lo, hi, active);
    var free := FreeBelow(lo, hi, active);
    var r := free[..n];
    forall i | 0 <= i < |r| ensures lo <= r[i] < hi && r[i] !in active {
      assert free[i] in free;
    }
    forall i, s | 0 <= i < |r| && lo <= s < hi && s !in active && s <= r[i] ensures s in r {
      var k :| 0 <= k < |free| && free[k] == s;
      assert k <= i;
      assert r[k] == s;
    }
  }

  lemma AllowanceIsPicked(sc: Scene, p: Pool, b: Budget)
    requires p.minWarm <= p.max
    ensures |Picked(sc, p, b)| <= Allowance(sc, b, Count(p, sc.view).Deficit())
    ensures NoWrap(p) ==> |Picked(sc, p, b)| == Allowance(sc, b, Count(p, sc.view).Deficit())
  {
    if NoWrap(p) { RoomForDeficit(p, sc.view); }
  }

  lemma LaunchedCount(sc: Scene, p: Pool, b: Budget, h: Host)
    requires p.minWarm <= p.max
    ensures |Launched(sc, p, b, h)| + Failed(sc, p, b, h) == |Picked(sc, p, b)|
    ensures Failed(sc, p, b, h) == 0 <==> Launched(sc, p, b, h) == Picked(sc, p, b)
  {
    StartedLength(h, sc.world, p.name, Picked(sc, p, b));
  }

  // ---------- the exact allocation ----------

  /** The demand left open: the sum of the positive deficits. */
  function OpenDemand(pools: seq<Pool>, v: View): nat
    requires WarmWithinMax(pools)
  {
    if pools == [] then 0
    else OpenDemand(pools[..|pools| - 1], v) + Max(0, Count(pools[|pools| - 1], v).Deficit())
  }

  /** What a cycle may launch from a given budget. */
  function Spendable(sc: Scene, b: Budget): nat { Min(SaturatingSub(sc.maxLaunch, b.launched), b.headroom) }

  /** From `a` to `b` no more is launched than the demand and the budget allow, and exactly the
      lesser of the two when the slots do not wrap and no launch fails; the budget is charged for it. */
  predicate Allocated(sc: Scene, demand: nat, noWrap: bool, a: Progress, b: Progress)
  {
    var n := b.budget.launched - a.budget.launched;
    var share := if sc.blocked then 0 else Min(demand, Spendable(sc, a.budget));
    && 0 <= n <= share
    && (noWrap && b.failures == a.failures ==> n == share)
    && Spendable(sc, b.budget) == Spendable(sc, a.budget) - n
    && b.budget.headroom == a.budget.headroom - n
    && b.failures >= a.failures
  }

  lemma AllocatedTwice(sc: Scene, d: nat, x: bool, e: nat, y: bool, a: Progress, b: Progress, c: Progress)
    requires Allocated(sc, d, x, a, b) && Allocated(sc, e, y, b, c)
    ensures Allocated(sc, d + e, x && y, a, c)
  {}

  /** One pool's share: all of its open deficit, as far as the budget goes. */
  lemma PoolShare(sc: Scene, p: Pool, at: Progress)
    requires p.minWarm <= p.max
    ensures Allocated(sc, Max(0, Count(p, sc.view).Deficit()), NoWrap(p), at, PoolPass(sc, p, at))
  {
    AllowanceIsPicked(sc, p, at.budget);
    LaunchedCount(sc, p, at.budget, at.host);
  }

  /** A cycle never launches more than its open demand, its launch limit and its headroom allow; it
      launches exactly the least of the three when it is not blocked and no launch fails. */
  lemma {:induction false} AllocationLaw(sc: Scene, pools: seq<Pool>, start: Progress)
    requires WarmWithinMax(pools)
    ensures Allocated(sc, OpenDemand(pools, sc.view), NoneWraps(pools), start, AllPools(sc, pools, start))
  {
    if pools != [] {
      var init, p := pools[..|pools| - 1], pools[|pools| - 1];
      var at := AllPools(sc, init, start);
      AllocationLaw(sc, init, start);
      AddShare(sc, p, OpenDemand(init, sc.view), NoneWraps(init), start, at);
      assert NoneWraps(pools) ==> NoneWraps(init) && NoWrap(p);
    }
  }

  lemma AddShare(sc: Scene, p: Pool, d: nat, x: bool, start: Progress, at: Progress)
    requires p.minWarm <= p.max && Allocated(sc, d, x, start, at)
    ensures Allocated(sc, d + Max(0, Count(p, sc.view).Deficit()), x && NoWrap(p), start, PoolPass(sc, p, at))
  {
    PoolShare(sc, p, at);
    AllocatedTwice(sc, d, x, Max(0, Count(p, sc.view).Deficit()), NoWrap(p), start, at, PoolPass(sc, p, at));
  }

  function LaunchCount(actions: seq<Action>): nat
  {
    if actions == [] then 0
    else LaunchCount(actions[..|actions| - 1]) + if actions[|actions| - 1].LaunchSlot? then 1 else 0
  }

  function LaunchTotal(reports: seq<PoolReport>): nat
  {
    if reports == [] then 0 else LaunchTotal(reports[..|reports| - 1]) + LaunchCount(reports[|reports| - 1].actions)
  }

  lemma {:induction false} CountLaunches(slots: seq<nat>, stops: seq<nat>)
    ensures LaunchCount(LaunchActions(slots) + StopActions(stops)) == |slots|
    decreases |stops|, |slots|
  {
    var actions := LaunchActions(slots) + StopActions(stops);
    if stops != [] {
      CountLaunches(slots, stops[..|stops| - 1]);
      assert actions[..|actions| - 1] == LaunchActions(slots) + StopActions(stops[..|stops| - 1]);
    } else if slots != [] {
      CountLaunches(slots[..|slots| - 1], []);
      assert actions == LaunchActions(slots);
      assert LaunchActions(slots[..|slots| - 1]) + StopActions([]) == LaunchActions(slots[..|slots| - 1]);
    }
  }

  /** The budget's counter is the number of launches the reports announce. */
  lemma {:induction false} ReportsCountLaunches(sc: Scene, pools: seq<Pool>, start: Progress)
    requires WarmWithinMax(pools)
    ensures var end := AllPools(sc, pools, start);
            LaunchTotal(end.reports) - LaunchTotal(start.reports) == end.budget.launched - start.budget.launched
  {
    if pools != [] {
      var p, at := pools[|pools| - 1], AllPools(sc, pools[..|pools| - 1], start);
      ReportsCountLaunches(sc, pools[..|pools| - 1], start);
      CountLaunches(Launched(sc, p, at.budget, at.host), Stopped(sc, p));
      var end := PoolPass(sc, p, at);
      assert end.reports[..|end.reports| - 1] == at.reports;
    }
  }

  /** The headroom never promises more memory than there is, the truncating cast included; unless the
      cast truncates it is the largest such number. */
  lemma HeadroomFits(availMib: u64, minAvailMib: u64, busyReserveMib: u64)
    ensures var h, r := HeadroomVms(availMib, minAvailMib, busyReserveMib), Max(busyReserveMib, 1);
            var free := SaturatingSub(availMib, minAvailMib);
            h * r <= free && (free < U32_MODULUS * r ==> free < (h + 1) * r)
  {
    TruncatedQuotient(SaturatingSub(availMib, minAvailMib), Max(busyReserveMib, 1));
  }

  lemma TruncatedQuotient(free: nat, r: nat)
    requires r > 0
    ensures var h := free / r % U32_MODULUS; h * r <= free && (free < U32_MODULUS * r ==> free < (h + 1) * r)
  {
    var q := free / r;
    QuotientBounds(free, r);
    Remainder(q);
    MulMonotone(q % U32_MODULUS, q, r);
    if q >= U32_MODULUS { MulMonotone(U32_MODULUS, q, r); }
  }

  /** Where the quotient is beyond 32 bits, what is left of it. */
  lemma HeadroomTruncates(availMib: u64, minAvailMib: u64, busyReserveMib: u64, m: nat, k: nat)
    requires var r, free := Max(busyReserveMib, 1), SaturatingSub(availMib, minAvailMib);
             k < U32_MODULUS && (m * U32_MODULUS + k) * r <= free < (m * U32_MODULUS + k + 1) * r
    ensures HeadroomVms(availMib, minAvailMib, busyReserveMib) == k
  {
    TruncatedIs(SaturatingSub(availMib, minAvailMib), Max(busyReserveMib, 1), m, k);
  }

  lemma TruncatedIs(free: nat, r: nat, m: nat, k: nat)
    requires r > 0 && k < U32_MODULUS && (m * U32_MODULUS + k) * r <= free < (m * U32_MODULUS + k + 1) * r
    ensures free / r % U32_MODULUS == k
  {
    QuotientBounds(free, r);
    QuotientIs(free, r, free / r, m * U32_MODULUS + k);
    RemainderIs(m, k);
  }

  lemma RemainderIs(m: nat, k: nat)
    requires k < U32_MODULUS
    ensures (m * U32_MODULUS + k) % U32_MODULUS == k
  {}

  lemma QuotientIs(a: nat, r: nat, p: nat, q: nat)
    requires r > 0 && p * r <= a < (p + 1) * r && q * r <= a < (q + 1) * r
    ensures p == q
  {
    if p < q { MulMonotone(p + 1, q, r); }
    if q < p { MulMonotone(q + 1, p, r); }
  }

  lemma QuotientBounds(a: nat, r: nat)
    requires r > 0
    ensures a / r * r <= a < (a / r + 1) * r
  {}

  lemma Remainder(q: nat)
    ensures 0 <= q % U32_MODULUS <= q
    ensures q < U32_MODULUS ==> q % U32_MODULUS == q
  {}

  lemma MulMonotone(a: nat, b: nat, r: nat)
    requires a <= b
    ensures a * r <= b * r
  {}

  /** The launches a cycle reports, from its beginning. */
  lemma CycleLaunches(sc: Scene, pools: seq<Pool>, start: Progress)
    requires WarmWithinMax(pools) && start.reports == [] && start.budget.launched == 0 && start.failures == 0
    ensures var end := AllPools(sc, pools, start);
            var n := LaunchTotal(end.reports);
            var limit := Min(Min(OpenDemand(pools, sc.view), sc.maxLaunch), start.budget.headroom);
            && (sc.blocked ==> n == 0) && n <= limit
            && (!sc.blocked && end.failures == 0 && NoneWraps(pools) ==> n == limit)
  {
    AllocationLaw(sc, pools, start);
    ReportsCountLaunches(sc, pools, start);
  }

  lemma MemoryGranted(n: nat, headroom: nat, reserve: nat, minAvail: nat, avail: nat)
    requires 0 < n <= headroom && 0 < reserve && headroom * reserve <= SaturatingSub(avail, minAvail)
    ensures n * reserve + minAvail <= avail
  {
    MulMonotone(n, headroom, reserve);
    assert n * reserve >= 1;
  }

  /** A whole cycle: the launches it reports, their exact number, and the memory they are given. */
  lemma CycleAllocation(f: Fleet, m: Memory, snap: Snapshot, h: Host, w: World, dryRun: bool)
    requires snap.runners.Some? && WarmWithinMax(f.pools)
    ensures var end := Outcome(f, m, snap, h, w, dryRun);
            var n := LaunchTotal(end.reports);
            var limit := Min(Min(OpenDemand(f.pools, SceneOf(f, m, snap, w, dryRun).view),
                                 f.supervisor.maxLaunchPerPoll), Headroom(f, snap));
            && (snap.blocked.Some? ==> n == 0)
            && n <= limit
            && (snap.blocked.None? && end.failures == 0 && NoneWraps(f.pools)
                ==> n == limit)
            && (n > 0 ==> n * Max(f.supervisor.busyReserveMib, 1) + f.admission.minAvailMib <= snap.availMib)
  {
    CycleLaunches(SceneOf(f, m, snap, w, dryRun), f.pools, StartOf(f, snap, h, dryRun));
    var n := LaunchTotal(Outcome(f, m, snap, h, w, dryRun).reports);
    if n > 0 {
      HeadroomFits(snap.availMib, f.admission.minAvailMib, f.supervisor.busyReserveMib);
      MemoryGranted(n, Headroom(f, snap), Max(f.supervisor.busyReserveMib, 1), f.admission.minAvailMib, snap.availMib);
    }
  }

  /** A pool that launches ends at or below its desired size, which is at most its maximum. */
  lemma LaunchesStayWithinDesired(sc: Scene, p: Pool, b: Budget, h: Host)
    requires p.minWarm <= p.max && Launched(sc, p, b, h) != []
    ensures var t := Count(p, sc.view);
            |t.active + Elems(Launched(sc, p, b, h))| <= t.desired <= p.max
  {
    var t, launched := Count(p, sc.view), Launched(sc, p, b, h);
    PresentCoversActive(p, sc.view);
    AllowanceIsPicked(sc, p, b);
    LaunchedCount(sc, p, b, h);
    ElemsBound(launched);
    assert |t.active + Elems(launched)| <= |t.active| + |Elems(launched)|;
  }

  // ---------- which slots the actions name ----------

  function SlotsLaunched(actions: seq<Action>): set<nat> { set a | a in Elems(actions) && a.LaunchSlot? :: a.slot }

  function SlotsStopped(actions: seq<Action>): set<nat> { set a | a in Elems(actions) && a.StopSlot? :: a.slot }

  lemma {:induction false} LaunchMembers(slots: seq<nat>)
    ensures forall a :: a in LaunchActions(slots) <==> a.LaunchSlot? && a.slot in slots
  {
    if slots != [] {
      LaunchMembers(slots[..|slots| - 1]);
      assert slots == slots[..|slots| - 1] + [slots[|slots| - 1]];
    }
  }

  lemma {:induction false} StopMembers(slots: seq<nat>)
    ensures forall a :: a in StopActions(slots) <==> a.StopSlot? && a.slot in slots
  {
    if slots != [] {
      StopMembers(slots[..|slots| - 1]);
      assert slots == slots[..|slots| - 1] + [slots[|slots| - 1]];
    }
  }

  /** Actions are listed in the order in which they were made. */
  lemma {:induction false} LaunchOrder(slots: seq<nat>)
    ensures |LaunchActions(slots)| == |slots|
    ensures forall i :: 0 <= i < |slots| ==> LaunchActions(slots)[i] == LaunchSlot(slots[i])
  {
    if slots != [] { LaunchOrder(slots[..|slots| - 1]); }
  }

  lemma {:induction false} StopOrder(slots: seq<nat>)
    ensures |StopActions(slots)| == |slots|
    ensures forall i :: 0 <= i < |slots| ==> StopActions(slots)[i] == StopSlot(slots[i])
  {
    if slots != [] { StopOrder(slots[..|slots| - 1]); }
  }

  lemma ActionSlots(launched: seq<nat>, stopped: seq<nat>)
    ensures var actions := LaunchActions(launched) + StopActions(stopped);
            SlotsLaunched(actions) == Elems(launched) && SlotsStopped(actions) == Elems(stopped)
  {
    var actions := LaunchActions(launched) + StopActions(stopped);
    LaunchMembers(launched);
    StopMembers(stopped);
    forall s ensures s in SlotsLaunched(actions) <==> s in Elems(launched) {
      assert s in launched <==> LaunchSlot(s) in Elems(actions);
    }
    forall s ensures s in SlotsStopped(actions) <==> s in Elems(stopped) {
      assert s in stopped <==> StopSlot(s) in Elems(actions);
    }
  }

  lemma {:induction false} AscendingElems(s: seq<nat>)
    requires forall i, j :: 0 <= i < j < |s| ==> s[i] < s[j]
    ensures |Elems(s)| == |s|
  {
    if s != [] {
      var init, last := s[..|s| - 1], s[|s| - 1];
      AscendingElems(init);
      assert last !in Elems(init);
      assert Elems(s) == Elems(init) + {last};
    }
  }

  lemma {:induction false} StartedMembers(h: Host, w: World, pool: string, slots: seq<nat>)
    ensures forall x :: x in Started(h, w, pool, slots) ==> x in slots
  {
    if slots != [] {
      StartedMembers(h, w, pool, slots[..|slots| - 1]);
      StartedStep(h, w, pool, slots);
      assert slots == slots[..|slots| - 1] + [slots[|slots| - 1]];
    }
  }

  lemma StartedStep(h: Host, w: World, pool: string, slots: seq<nat>)
    requires slots != []
    ensures var init, last := slots[..|slots| - 1], slots[|slots| - 1];
            var before, all := Started(h, w, pool, init), Started(h, w, pool, slots);
            all == before || all == before + [last]
  {
  }

  /** The launches that succeed keep the order of the attempts. */
  lemma {:induction false} StartedAscends(h: Host, w: World, pool: string, slots: seq<nat>)
    requires Ascending(slots)
    ensures Ascending(Started(h, w, pool, slots))
  {
    if slots != [] {
      var init, last := slots[..|slots| - 1], slots[|slots| - 1];
      var before := Started(h, w, pool, init);
      StartedAscends(h, w, pool, init);
      StartedMembers(h, w, pool, init);
      StartedStep(h, w, pool, slots);
      forall x | x in before ensures x < last {
        var k :| 0 <= k < |init| && init[k] == x;
        assert slots[k] < slots[|slots| - 1];
      }
      AscendsOnto(before, last);
    }
  }

  /** What a pass launches are distinct free slots of the pool, whether or not every attempt succeeds. */
  lemma LaunchedShape(sc: Scene, p: Pool, b: Budget, h: Host)
    requires p.minWarm <= p.max
    ensures var r := Launched(sc, p, b, h);
            Ascending(r) && forall s :: s in r ==> s in Slots(p) && s !in Count(p, sc.view).active
  {
    PicksLowestFree(sc, p, b);
    var picked := Picked(sc, p, b);
    StartedAscends(h, sc.world, p.name, picked);
    StartedMembers(h, sc.world, p.name, picked);
    forall s | s in picked ensures s in Slots(p) && s !in Count(p, sc.view).active {
      var i :| 0 <= i < |picked| && picked[i] == s;
    }
  }

  lemma {:induction false} ReportsLaunchOwnSlots(sc: Scene, pools: seq<Pool>, start: Progress)
    requires WarmWithinMax(pools) && start.reports == []
    ensures var reports := AllPools(sc, pools, start).reports;
            && |reports| == |pools|
            && forall i :: 0 <= i < |pools| ==> SlotsLaunched(reports[i].actions) <= Slots(pools[i])
  {
    if pools != [] {
      var init, p := pools[..|pools| - 1], pools[|pools| - 1];
      var at := AllPools(sc, init, start);
      ReportsLaunchOwnSlots(sc, init, start);
      PassLaunchesOwnSlots(sc, p, at);
      var reports := AllPools(sc, pools, start).reports;
      assert reports == at.reports + [reports[|init|]];
      forall i | 0 <= i < |pools| ensures SlotsLaunched(reports[i].actions) <= Slots(pools[i]) {
        if i < |init| { assert reports[i] == at.reports[i] && pools[i] == init[i]; }
      }
    }
  }

  lemma PassLaunchesOwnSlots(sc: Scene, p: Pool, at: Progress)
    requires p.minWarm <= p.max
    ensures var end := PoolPass(sc, p, at);
            |end.reports| == |at.reports| + 1 && SlotsLaunched(end.reports[|at.reports|].actions) <= Slots(p)
  {
    var launched := Launched(sc, p, at.budget, at.host);
    LaunchedShape(sc, p, at.budget, at.host);
    ActionSlots(launched, Stopped(sc, p));
  }

  /** No two pools launch a unit of the same name in one cycle. */
  lemma LaunchedUnitsDistinct(sc: Scene, pools: seq<Pool>, start: Progress, i: nat, j: nat, s: nat, t: nat)
    requires WarmWithinMax(pools) && DisjointSlots(pools) && start.reports == [] && i < j < |pools|
    ensures var reports := AllPools(sc, pools, start).reports;
            && |reports| == |pools|
            && (s in SlotsLaunched(reports[i].actions) && t in SlotsLaunched(reports[j].actions) ==>
                  WorkerUnit(s) != WorkerUnit(t))
  {
    ReportsLaunchOwnSlots(sc, pools, start);
    assert Slots(pools[i]) !! Slots(pools[j]);
    if WorkerUnit(s) == WorkerUnit(t) { WorkerUnitInjective(s, t); }
  }

  // ---------- when launches succeed ----------

  ghost predicate Accurate(h: Host, v: View) { forall s: nat :: WorkerUnit(s) in h.units ==> s in v.activeSlots }

  /** What a pass leaves of the host outside the pool's slots. */
  lemma {:induction false} LaunchAllUnits(h: Host, w: World, pool: string, slots: seq<nat>)
    ensures forall s: nat :: WorkerUnit(s) in LaunchAll(h, w, pool, slots).units ==>
              WorkerUnit(s) in h.units || s in slots
    ensures (forall i :: 0 <= i < |slots| ==> slots[i] in w.starts && WorkerUnit(slots[i]) !in h.units) &&
            (forall i, j :: 0 <= i < j < |slots| ==> slots[i] != slots[j])
            ==> Started(h, w, pool, slots) == slots
  {
    if slots != [] {
      var init, last := slots[..|slots| - 1], slots[|slots| - 1];
      LaunchAllUnits(h, w, pool, init);
      assert slots == init + [last];
      forall s: nat | WorkerUnit(s) in LaunchAll(h, w, pool, slots).units
        ensures WorkerUnit(s) in h.units || s in slots
      {
        if WorkerUnit(s) == WorkerUnit(last) { WorkerUnitInjective(s, last); }
      }
    }
  }

  lemma {:induction false} StopAllUnits(h: Host, w: World, slots: seq<nat>)
    ensures StopAll(h, w, slots).units.Keys <= h.units.Keys
  {
    if slots != [] { StopAllUnits(h, w, slots[..|slots| - 1]); }
  }

  /** Every unit on the host is in the view, or in a slot of one of the pools. */
  ghost predicate Placed(h: Host, v: View, pools: seq<Pool>)
  {
    forall s: nat :: WorkerUnit(s) in h.units ==>
      s in v.activeSlots || exists i :: 0 <= i < |pools| && s in Slots(pools[i])
  }

  /** With an accurate listing, disjoint pools and workers that start when asked, nothing fails. */
  lemma {:induction false} NothingFails(sc: Scene, pools: seq<Pool>, start: Progress)
    requires WarmWithinMax(pools) && DisjointSlots(pools) && Accurate(start.host, sc.view)
    requires forall i :: 0 <= i < |pools| ==> forall s :: s in Slots(pools[i]) ==> s in sc.world.starts
    ensures AllPools(sc, pools, start).failures == start.failures
    ensures Placed(AllPools(sc, pools, start).host, sc.view, pools)
  {
    if pools != [] {
      var init, p := pools[..|pools| - 1], pools[|pools| - 1];
      assert forall i :: 0 <= i < |init| ==> init[i] == pools[i];
      NothingFails(sc, init, start);
      NextFailsNot(sc, pools, AllPools(sc, init, start));
    }
  }

  lemma NextFailsNot(sc: Scene, pools: seq<Pool>, at: Progress)
    requires pools != [] && WarmWithinMax(pools)
    requires Placed(at.host, sc.view, pools[..|pools| - 1])
    requires forall s :: s in Slots(pools[|pools| - 1]) ==> s in sc.world.starts
    requires DisjointSlots(pools)
    ensures PoolPass(sc, pools[|pools| - 1], at).failures == at.failures
    ensures Placed(PoolPass(sc, pools[|pools| - 1], at).host, sc.view, pools)
  {
    var init, p := pools[..|pools| - 1], pools[|pools| - 1];
    PicksLowestFree(sc, p, at.budget);
    var picked := Picked(sc, p, at.budget);
    forall k, i | 0 <= k < |picked| && 0 <= i < |init| ensures picked[k] !in Slots(init[i]) {
      assert picked[k] in Slots(pools[|pools| - 1]) && Slots(pools[i]) !! Slots(pools[|pools| - 1]);
    }
    assert forall k :: 0 <= k < |picked| ==> picked[k] in Slots(p) && picked[k] !in sc.view.activeSlots;
    LaunchAllUnits(at.host, sc.world, p.name, picked);
    LaunchedCount(sc, p, at.budget, at.host);
    StopAllUnits(LaunchAll(at.host, sc.world, p.name, picked), sc.world, Stopped(sc, p));
    forall s: nat | WorkerUnit(s) in PoolPass(sc, p, at).host.units && s !in sc.view.activeSlots
      ensures exists i :: 0 <= i < |pools| && s in Slots(pools[i])
    {
      if s in picked {
        assert s in Slots(pools[|pools| - 1]);
      } else {
        assert WorkerUnit(s) in at.host.units;
        var i :| 0 <= i < |init| && s in Slots(init[i]);
        assert s in Slots(pools[i]);
      }
    }
  }

  // ---------- dry runs ----------

  /** A pool's pass in a preview and for real, from the same budget. */
  lemma {:induction false} DryRunRefines(sc: Scene, pools: seq<Pool>, dry: Progress, live: Progress)
    requires WarmWithinMax(pools)
    requires dry.reports == live.reports && dry.budget == live.budget
    ensures var d := AllPools(sc.(dryRun := true), pools, dry);
            var r := AllPools(sc.(dryRun := false), pools, live);
            && d.host == dry.host && d.failures == dry.failures && r.failures >= live.failures
            && (r.failures == live.failures ==> d.reports == r.reports && d.budget == r.budget)
  {
    if pools != [] {
      var init, p := pools[..|pools| - 1], pools[|pools| - 1];
      var ds, rs := sc.(dryRun := true), sc.(dryRun := false);
      DryRunRefines(sc, init, dry, live);
      var d, r := AllPools(ds, init, dry), AllPools(rs, init, live);
      LaunchedCount(rs, p, r.budget, r.host);
      if PoolPass(rs, p, r).failures == live.failures {
        assert Picked(ds, p, d.budget) == Picked(rs, p, r.budget);
        assert Launched(ds, p, d.budget, d.host) == Launched(rs, p, r.budget, r.host);
        assert Stopped(ds, p) == Stopped(rs, p);
        assert ReportOf(ds, p, LaunchActions(Launched(ds, p, d.budget, d.host)) + StopActions(Stopped(ds, p)))
            == ReportOf(rs, p, LaunchActions(Launched(rs, p, r.budget, r.host)) + StopActions(Stopped(rs, p)));
      }
    }
  }

  /** A dry run from the same memory and snapshot makes no call and changes no unit, reports what a
      real run in which every launch succeeds reports, and remembers the same idle timers, cycle
      counter and queued counts. */
  lemma DryRunCycle(f: Fleet, m: Memory, snap: Snapshot, h: Host, w: World, current: string)
    requires snap.runners.Some? && WarmWithinMax(f.pools)
    ensures NextHost(f, m, snap, h, w, true) == h
    ensures Outcome(f, m, snap, h, w, false).failures == 0 ==>
              Outcome(f, m, snap, h, w, true).reports == Outcome(f, m, snap, h, w, false).reports
    ensures var d, r := NextMemory(f, m, snap, true, current), NextMemory(f, m, snap, false, current);
            d.idleSince == r.idleSince && d.cycle == r.cycle && d.cachedQueued == r.cachedQueued && d.check == m.check
  {
    DryRunRefines(SceneOf(f, m, snap, w, true), f.pools, StartOf(f, snap, h, true), StartOf(f, snap, h, false));
    assert SceneOf(f, m, snap, w, true).(dryRun := false) == SceneOf(f, m, snap, w, false);
  }
}
