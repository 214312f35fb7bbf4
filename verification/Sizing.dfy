/** What a pool counts and asks for, spelled out on the runner list, the queue and the unit listing; that
    the reports say it; and what a first cycle launches. */
module Sizing {
  import opened Prelude
  import opened Naming
  import opened Config
  import opened GitHub
  import opened Reconcile
  import opened Cycle
  import opened ScalingLaws
  import Convergence
  import ScaleDown
  import UpdateCheck

  // ---------- runners ----------

  /** The runner carries one of the pool's labels. */
  predicate Carries(p: Pool, r: Runner) { exists k :: 0 <= k < |p.labels| && p.labels[k] in r.labels }

  function BusyAt(p: Pool, rs: seq<Runner>): set<nat>
  {
    set i | 0 <= i < |rs| && rs[i].status == "online" && rs[i].busy && Carries(p, rs[i])
  }

  function IdleAt(p: Pool, rs: seq<Runner>): set<nat>
  {
    set i | 0 <= i < |rs| && rs[i].status == "online" && !rs[i].busy && Carries(p, rs[i])
  }

  /** The slots that online runners with a label of the pool read from their names. */
  ghost predicate Covered(p: Pool, rs: seq<Runner>, s: nat) { exists i :: 0 <= i < |rs| && Covers(p, rs[i], s) }

  predicate Covers(p: Pool, r: Runner, s: nat)
  {
    r.status == "online" && Carries(p, r) && SlotOfVm(p.name, r.name) == Some(s)
  }

  lemma OnlineMeans(r: Runner)
    ensures r.Online() <==> r.status == "online"
  {
  }

  lemma CarriesMeans(p: Pool, r: Runner)
    ensures SharesLabel(p, r) <==> Carries(p, r)
  {
    if SharesLabel(p, r) {
      var i :| 0 <= i < |p.labels| && r.HasLabel(p.labels[i]);
    }
    if Carries(p, r) {
      var k :| 0 <= k < |p.labels| && p.labels[k] in r.labels;
      assert r.HasLabel(p.labels[k]);
    }
  }

  /** One more runner adds its index, or nothing. */
  lemma IndexStep(p: Pool, rs: seq<Runner>)
    requires rs != []
    ensures var init, n := rs[..|rs| - 1], |rs| - 1;
            && BusyAt(p, rs) == BusyAt(p, init) + (if IsBusy(rs[n]) && SharesLabel(p, rs[n]) then {n} else {})
            && IdleAt(p, rs) == IdleAt(p, init) + (if IsIdle(rs[n]) && SharesLabel(p, rs[n]) then {n} else {})
            && n !in BusyAt(p, init) && n !in IdleAt(p, init)
  {
    var init, n := rs[..|rs| - 1], |rs| - 1;
    assert forall i :: 0 <= i < n ==> init[i] == rs[i];
    OnlineMeans(rs[n]);
    CarriesMeans(p, rs[n]);
    IndexMembers(p, rs, init);
  }

  lemma IndexMembers(p: Pool, rs: seq<Runner>, init: seq<Runner>)
    requires rs != [] && init == rs[..|rs| - 1]
    ensures forall i :: 0 <= i < |init| ==> (i in BusyAt(p, rs) <==> i in BusyAt(p, init))
    ensures forall i :: 0 <= i < |init| ==> (i in IdleAt(p, rs) <==> i in IdleAt(p, init))
  {
    assert forall i :: 0 <= i < |init| ==> init[i] == rs[i];
  }

  lemma {:induction false} MineCounts(p: Pool, rs: seq<Runner>)
    ensures BusyCount(Mine(p, rs)) == |BusyAt(p, rs)| && |Idle(Mine(p, rs))| == |IdleAt(p, rs)|
  {
    if rs == [] {
      assert BusyAt(p, rs) == {} && IdleAt(p, rs) == {};
    } else {
      MineCounts(p, rs[..|rs| - 1]);
      IndexStep(p, rs);
      MineStep(p, rs);
    }
  }

  lemma MineStep(p: Pool, rs: seq<Runner>)
    requires rs != []
    ensures var init, last := Mine(p, rs[..|rs| - 1]), rs[|rs| - 1];
            && BusyCount(Mine(p, rs)) == BusyCount(init) + (if IsBusy(last) && SharesLabel(p, last) then 1 else 0)
            && |Idle(Mine(p, rs))| == |Idle(init)| + (if IsIdle(last) && SharesLabel(p, last) then 1 else 0)
  {
    var init, last := Mine(p, rs[..|rs| - 1]), rs[|rs| - 1];
    if SharesLabel(p, last) {
      assert (init + [last])[..|init|] == init;
      assert Mine(p, rs) == init + [last];
    } else {
      assert Mine(p, rs) == init;
    }
  }

  lemma CoveredExact(p: Pool, rs: seq<Runner>, s: nat)
    ensures s in OnlineSlots(p.name, Mine(p, rs)) <==> Covered(p, rs, s)
  {
    var mine := Mine(p, rs);
    Convergence.OnlineMembers(p.name, mine, s);
    ScaleDown.MineMembers(p, rs);
    if i :| 0 <= i < |mine| && mine[i].Online() && SlotOfVm(p.name, mine[i].name) == Some(s) {
      var k :| 0 <= k < |rs| && rs[k] == mine[i];
      OnlineCarrier(p, rs[k], s);
      assert Covers(p, rs[k], s);
    }
    if k :| 0 <= k < |rs| && Covers(p, rs[k], s) {
      OnlineCarrier(p, rs[k], s);
      var i :| 0 <= i < |mine| && mine[i] == rs[k];
      assert mine[i].Online();
    }
  }

  lemma OnlineCarrier(p: Pool, r: Runner, s: nat)
    ensures Covers(p, r, s) <==> r.Online() && SharesLabel(p, r) && SlotOfVm(p.name, r.name) == Some(s)
  {
    OnlineMeans(r);
    CarriesMeans(p, r);
  }

  // ---------- a pool ----------

  function QueuedFor(v: View, l: string): nat { if l in v.queued then v.queued[l] else 0 }

  /** The largest queued count among the labels of the pool; none without labels. */
  ghost predicate LargestQueued(p: Pool, v: View, q: nat)
  {
    && (forall l :: l in p.labels ==> QueuedFor(v, l) <= q)
    && (if p.labels == [] then q == 0 else exists l :: l in p.labels && QueuedFor(v, l) == q)
  }

  function ActiveUnits(p: Pool, v: View): set<nat>
  {
    set s | s in v.activeSlots && p.slotBase <= s < (p.slotBase + p.max) % U32_MODULUS
  }

  ghost function PendingUnits(p: Pool, v: View): set<nat>
  {
    set s | s in ActiveUnits(p, v) && !Covered(p, v.runners, s)
  }

  /** A pool counts the idle and the busy runners with a label of its, and those of its active units that no
      such runner covers; it wants as many as are busy, queued and kept warm, between the warm minimum and
      the maximum. */
  lemma CountMeans(p: Pool, v: View) returns (q: nat)
    requires p.minWarm <= p.max
    ensures LargestQueued(p, v, q)
    ensures var t := Count(p, v);
            && |t.idle| == |IdleAt(p, v.runners)| && t.busy == |BusyAt(p, v.runners)| && t.queued == q
            && t.active == ActiveUnits(p, v) && t.pending == |PendingUnits(p, v)|
            && t.Present() == |IdleAt(p, v.runners)| + |BusyAt(p, v.runners)| + |PendingUnits(p, v)|
            && t.desired == Max(p.minWarm, Min(|BusyAt(p, v.runners)| + q + p.minWarm, p.max))
            && t.Deficit() == t.desired - t.Present()
  {
    q := Demand(p.labels, v.queued);
    DemandIsLargest(p.labels, v.queued);
    assert forall l :: QueuedFor(v, l) == Lookup(v.queued, l);
    MineCounts(p, v.runners);
    var t := Count(p, v);
    assert t.active == ActiveUnits(p, v);
    forall s: nat ensures s in t.active - OnlineSlots(p.name, Mine(p, v.runners)) <==> s in PendingUnits(p, v) {
      CoveredExact(p, v.runners, s);
    }
    assert t.active - OnlineSlots(p.name, Mine(p, v.runners)) == PendingUnits(p, v);
  }

  /** A report that says just that, its deficit being what the pool wants less what it counts. */
  ghost predicate Truthful(r: PoolReport, p: Pool, v: View)
  {
    && r.name == p.name && r.idle == |IdleAt(p, v.runners)| && r.busy == |BusyAt(p, v.runners)|
    && LargestQueued(p, v, r.queued)
    && r.activeUnits == |ActiveUnits(p, v)| && r.pending == |PendingUnits(p, v)|
    && r.present == r.idle + r.busy + r.pending && r.deficit == r.desired - r.present
    && r.desired == Max(p.minWarm, Min(r.busy + r.queued + p.minWarm, p.max))
  }

  lemma ReportMeans(sc: Scene, p: Pool, actions: seq<Action>)
    requires p.minWarm <= p.max
    ensures Truthful(ReportOf(sc, p, actions), p, sc.view)
  {
    var q := CountMeans(p, sc.view);
  }

  /** Every pool's report of a cycle is truthful. */
  lemma ReportsMean(sc: Scene, pools: seq<Pool>, start: Progress, i: nat)
    requires WarmWithinMax(pools) && start.reports == [] && i < |pools|
    ensures var reports := AllPools(sc, pools, start).reports;
            |reports| == |pools| && Truthful(reports[i], pools[i], sc.view)
  {
    ReportOfPool(sc, pools, start, i);
    ReportMeans(sc, pools[i], AllPools(sc, pools, start).reports[i].actions);
  }

  lemma {:induction false} ReportOfPool(sc: Scene, pools: seq<Pool>, start: Progress, i: nat)
    requires WarmWithinMax(pools) && start.reports == [] && i < |pools|
    ensures var reports := AllPools(sc, pools, start).reports;
            |reports| == |pools| && reports[i] == ReportOf(sc, pools[i], reports[i].actions)
  {
    var init := pools[..|pools| - 1];
    var at := AllPools(sc, init, start);
    ReportCount(sc, init, start);
    PassReport(sc, pools[|pools| - 1], at);
    if i < |init| {
      ReportOfPool(sc, init, start, i);
      assert AllPools(sc, pools, start).reports[i] == at.reports[i] && init[i] == pools[i];
    }
  }

  lemma PassReport(sc: Scene, p: Pool, at: Progress)
    requires p.minWarm <= p.max
    ensures var reports, n := PoolPass(sc, p, at).reports, |at.reports|;
            |reports| == n + 1 && reports[..n] == at.reports && reports[n] == ReportOf(sc, p, reports[n].actions)
  {
  }

  lemma {:induction false} ReportCount(sc: Scene, pools: seq<Pool>, start: Progress)
    requires WarmWithinMax(pools) && start.reports == []
    ensures |AllPools(sc, pools, start).reports| == |pools|
  {
    if pools != [] { ReportCount(sc, pools[..|pools| - 1], start); }
  }
}
