/** The control loop over many cycles: with demand frozen, open demand shrinks by all that a cycle may
    launch until none is left, as long as no pool loses runner records that are not its own workers'. */
module Convergence {
  import opened Prelude
  import opened Naming
  import opened Config
  import opened GitHub
  import opened Reconcile
  import opened ScalingLaws
  import opened ScaleDown
  import Reclaim

  // ---------- records and units ----------

  /** By how much a pool counts more than its active units. */
  function Surplus(p: Pool, v: View): int
    requires p.minWarm <= p.max
  {
    Count(p, v).Present() - |Count(p, v).active|
  }

  /** Each online runner with a label of the pool sits on an active slot of the pool, each on its own. */
  predicate WellFormed(p: Pool, v: View)
  {
    var mine := Mine(p, v.runners);
    && DistinctSlots(p.name, mine)
    && forall i :: 0 <= i < |mine| && mine[i].Online() ==>
         SlotOfVm(p.name, mine[i].name).Some? && SlotOfVm(p.name, mine[i].name).value in v.activeSlots * SlotSet(p)
  }

  lemma {:induction false} OnlineMembers(pool: string, rs: seq<Runner>, s: nat)
    ensures s in OnlineSlots(pool, rs) <==>
            exists i :: 0 <= i < |rs| && rs[i].Online() && SlotOfVm(pool, rs[i].name) == Some(s)
  {
    if rs != [] {
      var init, last := rs[..|rs| - 1], rs[|rs| - 1];
      OnlineMembers(pool, init, s);
      assert forall i :: 0 <= i < |init| ==> init[i] == rs[i];
      if last.Online() && SlotOfVm(pool, last.name) == Some(s) { assert rs[|rs| - 1] == last; }
      if i :| 0 <= i < |init| && init[i].Online() && SlotOfVm(pool, init[i].name) == Some(s) {
        assert rs[i] == init[i];
      }
    }
  }

  /** All online runners read a slot, each another. */
  predicate AllRead(pool: string, rs: seq<Runner>)
  {
    && DistinctSlots(pool, rs)
    && forall i :: 0 <= i < |rs| && rs[i].Online() ==> SlotOfVm(pool, rs[i].name).Some?
  }

  /** The online slots are as many as the online runners just when each reads another. */
  lemma {:induction false} OnlineExact(pool: string, rs: seq<Runner>)
    ensures |OnlineSlots(pool, rs)| == |Idle(rs)| + BusyCount(rs) <==> AllRead(pool, rs)
  {
    if rs != [] {
      var init, last := rs[..|rs| - 1], rs[|rs| - 1];
      OnlineExact(pool, init);
      OnlineCover(pool, init);
      AllReadStep(pool, rs);
      if last.Online() && SlotOfVm(pool, last.name).Some? {
        OnlineMembers(pool, init, SlotOfVm(pool, last.name).value);
      }
    }
  }

  lemma AllReadStep(pool: string, rs: seq<Runner>)
    requires rs != []
    ensures var init, last := rs[..|rs| - 1], rs[|rs| - 1];
            AllRead(pool, rs) <==>
              AllRead(pool, init) &&
              (last.Online() ==>
                 && SlotOfVm(pool, last.name).Some?
                 && forall i :: 0 <= i < |init| && init[i].Online() ==>
                      SlotOfVm(pool, init[i].name) != SlotOfVm(pool, last.name))
  {
    var init := rs[..|rs| - 1];
    assert forall i :: 0 <= i < |init| ==> init[i] == rs[i];
    if AllRead(pool, rs) {
      assert DistinctSlots(pool, init);
    }
  }

  /** A pool counts exactly its active units if and only if the view is well-formed for it; otherwise it
      counts more. */
  lemma WellFormedPresent(p: Pool, v: View)
    requires p.minWarm <= p.max
    ensures Surplus(p, v) >= 0
    ensures Count(p, v).Present() == |Count(p, v).active| <==> WellFormed(p, v)
  {
    PresentCoversActive(p, v);
    CountExact(p.name, Mine(p, v.runners), Count(p, v).active);
  }

  lemma CountExact(pool: string, rs: seq<Runner>, active: set<nat>)
    ensures |Idle(rs)| + BusyCount(rs) + |active - OnlineSlots(pool, rs)| == |active| <==>
            AllRead(pool, rs) &&
            forall i :: 0 <= i < |rs| && rs[i].Online() ==> SlotOfVm(pool, rs[i].name).value in active
  {
    OnlineCover(pool, rs);
    OnlineExact(pool, rs);
    SplitActive(active, OnlineSlots(pool, rs));
    if AllRead(pool, rs) { OnlineWithin(pool, rs, active); }
  }

  lemma SplitActive(active: set<nat>, online: set<nat>)
    ensures |active| == |active * online| + |active - online|
    ensures |active * online| <= |online|
    ensures |active * online| == |online| <==> online <= active
  {
    assert active == (active * online) + (active - online);
    assert online == (active * online) + (online - active);
  }

  lemma OnlineWithin(pool: string, rs: seq<Runner>, active: set<nat>)
    requires AllRead(pool, rs)
    ensures OnlineSlots(pool, rs) <= active <==>
            forall i :: 0 <= i < |rs| && rs[i].Online() ==> SlotOfVm(pool, rs[i].name).value in active
  {
    forall s ensures s in OnlineSlots(pool, rs) <==>
                     exists i :: 0 <= i < |rs| && rs[i].Online() && SlotOfVm(pool, rs[i].name) == Some(s)
    {
      OnlineMembers(pool, rs, s);
    }
  }

  /** In a well-formed view what scale-down leaves is the desired size at least, in units. */
  lemma WellFormedKeepsDesired(sc: Scene, p: Pool)
    requires p.minWarm <= p.max && WellFormed(p, sc.view) && Stopped(sc, p) != []
    ensures var t := Count(p, sc.view);
            |t.active - Elems(Stopped(sc, p))| >= t.desired >= p.minWarm
  {
    WellFormedPresent(p, sc.view);
    StopsWithinExcess(sc, p);
    StoppedAreActive(sc, p);
    ElemsBound(Stopped(sc, p));
  }

  // ---------- labels ----------

  /** The runner reads an active slot of the pool from its name. */
  predicate Sits(p: Pool, v: View, r: Runner)
  {
    SlotOfVm(p.name, r.name).Some? && SlotOfVm(p.name, r.name).value in v.activeSlots * SlotSet(p)
  }

  /** Every online runner that shares a label with some pool shares one with that pool alone and sits on an
      active slot of it; no two of a pool's sit on one slot. */
  predicate AtHome(pools: seq<Pool>, v: View)
  {
    && (forall r, p :: r in v.runners && r.Online() && p in pools && SharesLabel(p, r) ==> Sits(p, v, r))
    && (forall r, p, q :: r in v.runners && r.Online() && p in pools && q in pools ==>
          (SharesLabel(p, r) && SharesLabel(q, r) ==> p == q))
    && (forall p :: p in pools ==> OwnSlots(p, v.runners))
  }

  predicate OwnSlots(p: Pool, rs: seq<Runner>)
  {
    forall i, j :: 0 <= i < j < |rs| && Shows(p, rs[i]) && Shows(p, rs[j]) ==>
      SlotOfVm(p.name, rs[i].name) != SlotOfVm(p.name, rs[j].name)
  }

  /** An online runner with a label of the pool and a slot in its name. */
  predicate Shows(p: Pool, r: Runner) { r.Online() && SharesLabel(p, r) && SlotOfVm(p.name, r.name).Some? }

  lemma {:induction false} OwnSlotsExact(p: Pool, rs: seq<Runner>)
    ensures DistinctSlots(p.name, Mine(p, rs)) <==> OwnSlots(p, rs)
  {
    if rs != [] {
      var init, last := rs[..|rs| - 1], rs[|rs| - 1];
      OwnSlotsExact(p, init);
      MineMembers(p, init);
      OwnSlotsStep(p, rs);
      if SharesLabel(p, last) {
        assert Mine(p, rs) == Mine(p, init) + [last];
        DistinctStep(p.name, Mine(p, init), last);
        NewSlotEither(p, init, last);
      } else {
        assert Mine(p, rs) == Mine(p, init);
      }
    }
  }

  /** The runner's slot is not that of an online runner among these. */
  predicate NewSlot(pool: string, rs: seq<Runner>, r: Runner)
  {
    r.Online() && SlotOfVm(pool, r.name).Some? ==>
      forall x :: x in rs && x.Online() ==> SlotOfVm(pool, x.name) != SlotOfVm(pool, r.name)
  }

  lemma OwnSlotsStep(p: Pool, rs: seq<Runner>)
    requires rs != []
    ensures var init, last := rs[..|rs| - 1], rs[|rs| - 1];
            OwnSlots(p, rs) <==>
              OwnSlots(p, init) &&
              (Shows(p, last) ==>
                 forall x :: x in init && Shows(p, x) ==> SlotOfVm(p.name, x.name) != SlotOfVm(p.name, last.name))
  {
    var init, last := rs[..|rs| - 1], rs[|rs| - 1];
    assert forall i :: 0 <= i < |init| ==> init[i] == rs[i];
    if OwnSlots(p, rs) && Shows(p, last) {
      forall x | x in init && Shows(p, x) ensures SlotOfVm(p.name, x.name) != SlotOfVm(p.name, last.name) {
        var i :| 0 <= i < |init| && init[i] == x;
        assert Shows(p, rs[i]) && Shows(p, rs[|rs| - 1]);
      }
    }
  }

  lemma DistinctStep(pool: string, rs: seq<Runner>, r: Runner)
    ensures DistinctSlots(pool, rs + [r]) <==> DistinctSlots(pool, rs) && NewSlot(pool, rs, r)
  {
    var all := rs + [r];
    assert forall i :: 0 <= i < |rs| ==> all[i] == rs[i];
    if DistinctSlots(pool, all) && r.Online() && SlotOfVm(pool, r.name).Some? {
      forall x | x in rs && x.Online() ensures SlotOfVm(pool, x.name) != SlotOfVm(pool, r.name) {
        var i :| 0 <= i < |rs| && rs[i] == x;
        assert all[i] == x && all[|rs|] == r;
      }
    }
  }

  lemma NewSlotEither(p: Pool, init: seq<Runner>, last: Runner)
    requires SharesLabel(p, last)
    ensures NewSlot(p.name, Mine(p, init), last) <==>
            (Shows(p, last) ==>
               forall x :: x in init && Shows(p, x) ==> SlotOfVm(p.name, x.name) != SlotOfVm(p.name, last.name))
  {
    MineMembers(p, init);
    forall x ensures x in Mine(p, init) <==> x in init && SharesLabel(p, x) {
      if x in Mine(p, init) {
        var i :| 0 <= i < |Mine(p, init)| && Mine(p, init)[i] == x;
      }
    }
  }

  predicate AllWellFormed(pools: seq<Pool>, v: View)
  {
    forall p :: p in pools ==> WellFormed(p, v)
  }

  /** For pools that are strangers to each other the view is well-formed for all of them if and only if
      every online runner with a label of theirs is at home. */
  lemma WellFormedMeansAtHome(pools: seq<Pool>, v: View)
    requires Reclaim.StrangerPools(pools) && NamesDistinct(pools)
    ensures AllWellFormed(pools, v) <==> AtHome(pools, v)
  {
    forall p | p in pools
      ensures WellFormed(p, v) <==>
              OwnSlots(p, v.runners) && forall r :: r in v.runners && r.Online() && SharesLabel(p, r) ==> Sits(p, v, r)
    {
      WellFormedByRunner(p, v);
    }
    forall r, p, q | r in v.runners && p in pools && q in pools && Sits(p, v, r) && Sits(q, v, r) ensures p == q {
      OneReader(p.name, q.name, r.name);
    }
  }

  lemma WellFormedByRunner(p: Pool, v: View)
    ensures WellFormed(p, v) <==>
            OwnSlots(p, v.runners) && forall r :: r in v.runners && r.Online() && SharesLabel(p, r) ==> Sits(p, v, r)
  {
    var mine := Mine(p, v.runners);
    OwnSlotsExact(p, v.runners);
    MineMembers(p, v.runners);
    forall r ensures r in mine <==> r in v.runners && SharesLabel(p, r) {
      if r in mine {
        var i :| 0 <= i < |mine| && mine[i] == r;
      }
    }
    if forall r :: r in v.runners && r.Online() && SharesLabel(p, r) ==> Sits(p, v, r) {
      forall i | 0 <= i < |mine| && mine[i].Online() ensures Sits(p, v, mine[i]) {
        assert mine[i] in mine;
      }
    }
  }

  // ---------- one pool, one cycle ----------

  /** The next view of a pool when its demand is frozen and its actions have taken effect. */
  predicate Follows(p: Pool, v: View, actions: seq<Action>, next: View)
  {
    && BusyCount(Mine(p, next.runners)) == BusyCount(Mine(p, v.runners))
    && Demand(p.labels, next.queued) == Demand(p.labels, v.queued)
    && next.activeSlots * SlotSet(p) == v.activeSlots * SlotSet(p) - SlotsStopped(actions) + SlotsLaunched(actions)
  }

  function ActionsOf(sc: Scene, p: Pool, b: Budget, h: Host): seq<Action>
    requires p.minWarm <= p.max
  {
    LaunchActions(Launched(sc, p, b, h)) + StopActions(Stopped(sc, p))
  }

  /** How a pool's pass changes its number of active units, exactly. */
  lemma ActiveChange(sc: Scene, p: Pool, b: Budget, h: Host)
    requires p.minWarm <= p.max
    ensures var t := Count(p, sc.view);
            && |t.active - Elems(Stopped(sc, p)) + Elems(Launched(sc, p, b, h))|
               == |t.active| - |Elems(Stopped(sc, p))| + |Launched(sc, p, b, h)|
            && |Launched(sc, p, b, h)| <= Max(0, t.Deficit()) && |Elems(Stopped(sc, p))| <= Max(0, -t.Deficit())
  {
    var t := Count(p, sc.view);
    var launched, stopped := Launched(sc, p, b, h), Stopped(sc, p);
    LaunchedShape(sc, p, b, h);
    AscendingElems(launched);
    StoppedAreActive(sc, p);
    assert Elems(launched) !! t.active;
    LaunchedCount(sc, p, b, h);
    AllowanceIsPicked(sc, p, b);
    ElemsBound(stopped);
    if stopped != [] { StopsWithinExcess(sc, p); }
  }

  /** The balance of one pool over one cycle of frozen demand, whatever the runner records: the deficit
      falls by what was launched, and rises by the units stopped and by the surplus of records lost. So an
      open deficit shrinks by exactly what was launched, and a closed one stays closed, where the surplus
      is kept. */
  lemma NextDeficit(sc: Scene, p: Pool, b: Budget, h: Host, next: View)
    requires p.minWarm <= p.max && Follows(p, sc.view, ActionsOf(sc, p, b, h), next)
    ensures var d, e := Count(p, sc.view).Deficit(), Count(p, next).Deficit();
            var launched, lost := |Launched(sc, p, b, h)|, Surplus(p, sc.view) - Surplus(p, next);
            && e == d + lost + |Elems(Stopped(sc, p))| - launched
            && (lost <= 0 ==> Max(0, e) <= Max(0, d) - launched)
            && (lost == 0 ==> Max(0, e) == Max(0, d) - launched)
  {
    var t, u := Count(p, sc.view), Count(p, next);
    ActionSlots(Launched(sc, p, b, h), Stopped(sc, p));
    assert u.desired == t.desired;
    assert u.active == t.active - Elems(Stopped(sc, p)) + Elems(Launched(sc, p, b, h));
    ActiveChange(sc, p, b, h);
  }

  /** After stopping workers the same demand asks for none if and only if the surplus of records lost is no
      more than the excess not stopped; so it does where the surplus is kept, and where nothing is left but
      units, just when these are as many as desired. */
  lemma NoFlapping(sc: Scene, p: Pool, b: Budget, h: Host, later: Scene, spare: Budget)
    requires p.minWarm <= p.max && Stopped(sc, p) != []
    requires Follows(p, sc.view, ActionsOf(sc, p, b, h), later.view)
    ensures var d, e := Count(p, sc.view).Deficit(), Count(p, later.view).Deficit();
            var lost := Surplus(p, sc.view) - Surplus(p, later.view);
            && (e <= 0 <==> lost <= -d - |Elems(Stopped(sc, p))|)
            && (lost <= 0 ==> e <= 0)
            && (WellFormed(p, later.view) ==>
                  (e <= 0 <==> |Count(p, sc.view).active - Elems(Stopped(sc, p))| >= Count(p, sc.view).desired))
            && (e <= 0 ==> Picked(later, p, spare) == [])
  {
    NextDeficit(sc, p, b, h, later.view);
    ActiveChange(sc, p, b, h);
    StoppedAreActive(sc, p);
    if WellFormed(p, later.view) { WellFormedPresent(p, later.view); }
    AllowanceIsPicked(later, p, spare);
  }

  // ---------- all pools, many cycles ----------

  predicate AllFollow(pools: seq<Pool>, v: View, reports: seq<PoolReport>, next: View)
  {
    |reports| == |pools| && forall j :: 0 <= j < |pools| ==> Follows(pools[j], v, reports[j].actions, next)
  }

  /** No pool loses surplus records. */
  predicate NoneLost(pools: seq<Pool>, v: View, next: View)
    requires WarmWithinMax(pools)
  {
    forall j :: 0 <= j < |pools| ==> Surplus(pools[j], next) >= Surplus(pools[j], v)
  }

  predicate AllKept(pools: seq<Pool>, v: View, next: View)
    requires WarmWithinMax(pools)
  {
    forall j :: 0 <= j < |pools| ==> Surplus(pools[j], next) == Surplus(pools[j], v)
  }

  /** In well-formed views there is no surplus to lose. */
  lemma WellFormedKept(pools: seq<Pool>, v: View, next: View)
    requires WarmWithinMax(pools) && AllWellFormed(pools, v) && AllWellFormed(pools, next)
    ensures AllKept(pools, v, next)
  {
    forall j | 0 <= j < |pools| ensures Surplus(pools[j], next) == Surplus(pools[j], v) {
      assert pools[j] in pools;
      WellFormedPresent(pools[j], v);
      WellFormedPresent(pools[j], next);
    }
  }

  lemma {:induction false} CycleStep(sc: Scene, pools: seq<Pool>, start: Progress, next: View)
    requires WarmWithinMax(pools) && start.reports == []
    requires AllFollow(pools, sc.view, AllPools(sc, pools, start).reports, next) && NoneLost(pools, sc.view, next)
    ensures var launched := AllPools(sc, pools, start).budget.launched - start.budget.launched;
            var left := OpenDemand(pools, sc.view) - launched;
            && OpenDemand(pools, next) <= left
            && (AllKept(pools, sc.view, next) ==> OpenDemand(pools, next) == left)
  {
    if pools != [] {
      var init, p := pools[..|pools| - 1], pools[|pools| - 1];
      var at, end := AllPools(sc, init, start), AllPools(sc, pools, start);
      PrefixFollows(pools, sc.view, at.reports, end.reports, next);
      CycleStep(sc, init, start, next);
      assert Follows(p, sc.view, end.reports[|init|].actions, next);
      NextDeficit(sc, p, at.budget, at.host, next);
      assert Surplus(pools[|pools| - 1], next) >= Surplus(pools[|pools| - 1], sc.view);
    }
  }

  lemma PrefixFollows(pools: seq<Pool>, v: View, init: seq<PoolReport>, all: seq<PoolReport>, next: View)
    requires WarmWithinMax(pools) && pools != [] && AllFollow(pools, v, all, next) && NoneLost(pools, v, next)
    requires |all| == |init| + 1 && all[..|init|] == init
    ensures WarmWithinMax(pools[..|pools| - 1])
    ensures AllFollow(pools[..|pools| - 1], v, init, next) && NoneLost(pools[..|pools| - 1], v, next)
    ensures AllKept(pools, v, next) ==> AllKept(pools[..|pools| - 1], v, next)
  {
    assert forall j :: 0 <= j < |init| ==> init[j] == all[j];
  }

  datatype Round = Round(scene: Scene, start: Progress)

  function End(pools: seq<Pool>, r: Round): Progress
    requires WarmWithinMax(pools)
  {
    AllPools(r.scene, pools, r.start)
  }

  /** A cycle that may launch at least one worker, none of whose launches fails. */
  predicate GoodRound(pools: seq<Pool>, r: Round)
    requires WarmWithinMax(pools)
  {
    && !r.scene.blocked && r.scene.maxLaunch >= 1
    && r.start.reports == [] && r.start.budget.launched == 0 && r.start.budget.headroom >= 1
    && End(pools, r).failures == r.start.failures
  }

  /** Consecutive good cycles under frozen demand, in which no pool loses surplus records. */
  predicate ClosedLoop(pools: seq<Pool>, rounds: seq<Round>)
    requires WarmWithinMax(pools)
  {
    && (forall i :: 0 <= i < |rounds| ==> GoodAt(pools, rounds, i))
    && (forall i :: 0 <= i < |rounds| - 1 ==> Linked(pools, rounds, i))
  }

  predicate GoodAt(pools: seq<Pool>, rounds: seq<Round>, i: int)
    requires WarmWithinMax(pools) && 0 <= i < |rounds|
  {
    GoodRound(pools, rounds[i])
  }

  /** Round `i + 1` sees what round `i` did. */
  predicate Linked(pools: seq<Pool>, rounds: seq<Round>, i: int)
    requires WarmWithinMax(pools) && 0 <= i < |rounds| - 1
  {
    && AllFollow(pools, rounds[i].scene.view, End(pools, rounds[i]).reports, rounds[i + 1].scene.view)
    && NoneLost(pools, rounds[i].scene.view, rounds[i + 1].scene.view)
  }

  /** The open demand round `i` finds. */
  function Open(pools: seq<Pool>, rounds: seq<Round>, i: nat): int
    requires WarmWithinMax(pools) && i < |rounds|
  {
    OpenDemand(pools, rounds[i].scene.view)
  }

  /** Each cycle closes as much of the open demand as its limits allow, and exactly that where the surplus
      of every pool is kept. */
  lemma {:induction false} DemandStep(pools: seq<Pool>, rounds: seq<Round>, i: nat)
    requires WarmWithinMax(pools) && ClosedLoop(pools, rounds) && i + 1 < |rounds|
    requires NoneWraps(pools)
    ensures var limit := Min(rounds[i].scene.maxLaunch, rounds[i].start.budget.headroom);
            var left := Open(pools, rounds, i) - Min(Open(pools, rounds, i), limit);
            && limit >= 1 && Open(pools, rounds, i + 1) <= left
            && (AllKept(pools, rounds[i].scene.view, rounds[i + 1].scene.view) ==> Open(pools, rounds, i + 1) == left)
  {
    assert GoodAt(pools, rounds, i);
    assert Linked(pools, rounds, i);
    CycleStep(rounds[i].scene, pools, rounds[i].start, rounds[i + 1].scene.view);
    AllocationLaw(rounds[i].scene, pools, rounds[i].start);
  }

  lemma {:induction false} Falling(ds: seq<int>, i: nat)
    requires i < |ds| && forall k: nat :: k < |ds| - 1 ==> Falls(ds, k)
    ensures ds[i] <= Max(0, ds[0] - i)
  {
    if i > 0 {
      Falling(ds, i - 1);
      assert Falls(ds, i - 1);
    }
  }

  predicate Falls(ds: seq<int>, k: nat)
    requires k + 1 < |ds|
  {
    ds[k + 1] <= Max(0, ds[k] - 1)
  }

  /** Open demand falls by at least one a cycle, so it is gone after as many cycles as it was large,
      and stays gone. */
  lemma {:induction false} Converges(pools: seq<Pool>, rounds: seq<Round>, i: nat)
    requires WarmWithinMax(pools) && ClosedLoop(pools, rounds) && i < |rounds|
    requires NoneWraps(pools)
    ensures Open(pools, rounds, i) <= Max(0, Open(pools, rounds, 0) - i)
  {
    var ds := seq(|rounds|, k requires 0 <= k < |rounds| => Open(pools, rounds, k));
    AllFall(pools, rounds, ds);
    Falling(ds, i);
  }

  lemma AllFall(pools: seq<Pool>, rounds: seq<Round>, ds: seq<int>)
    requires WarmWithinMax(pools) && ClosedLoop(pools, rounds)
    requires NoneWraps(pools)
    requires |ds| == |rounds| && forall k :: 0 <= k < |ds| ==> ds[k] == Open(pools, rounds, k)
    ensures forall k: nat :: k < |ds| - 1 ==> Falls(ds, k)
  {
    forall k: nat | k < |ds| - 1 ensures Falls(ds, k) {
      DemandStep(pools, rounds, k);
    }
  }
}
