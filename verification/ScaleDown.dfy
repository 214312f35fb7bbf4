/** Which workers a pool stops when it has too many, in what order, and what it never stops. */
module ScaleDown {
  import opened Prelude
  import opened Naming
  import opened Config
  import opened GitHub
  import opened Reconcile
  import opened Cycle

  // ---------- the stable order ----------

  predicate SortedByKey(cs: seq<Candidate>, now: nat)
  {
    forall i, j :: 0 <= i < j < |cs| ==> cs[i].Key(now) <= cs[j].Key(now)
  }

  /** The candidates with one idle time, in order. */
  function WithKey(cs: seq<Candidate>, key: nat, now: nat): seq<Candidate>
  {
    if cs == [] then []
    else WithKey(cs[..|cs| - 1], key, now) + if cs[|cs| - 1].Key(now) == key then [cs[|cs| - 1]] else []
  }

  lemma {:induction false} AfterEarlierSorted(s: seq<Candidate>, x: Candidate, now: nat)
    requires SortedByKey(s, now)
    ensures var r := AfterEarlier(s, x, now);
            && SortedByKey(r, now) && |r| == |s| + 1
            && forall i :: 0 <= i < |r| ==> r[i] == x || r[i] in s
  {
    if s != [] && s[|s| - 1].Key(now) > x.Key(now) {
      var init, last := s[..|s| - 1], s[|s| - 1];
      AfterEarlierSorted(init, x, now);
      var r := AfterEarlier(init, x, now);
      forall i | 0 <= i < |r| ensures r[i].Key(now) <= last.Key(now) {
        if r[i] != x { var k :| 0 <= k < |init| && init[k] == r[i]; assert s[k] == init[k]; }
      }
    }
  }

  lemma {:induction false} AfterEarlierWithKey(s: seq<Candidate>, x: Candidate, key: nat, now: nat)
    ensures WithKey(AfterEarlier(s, x, now), key, now) == WithKey(s, key, now) + if x.Key(now) == key then [x] else []
  {
    if s == [] {
      assert [x][..0] == [];
    } else if s[|s| - 1].Key(now) <= x.Key(now) {
      assert (s + [x])[..|s|] == s;
    } else {
      var init, last := s[..|s| - 1], s[|s| - 1];
      AfterEarlierWithKey(init, x, key, now);
      var r := AfterEarlier(init, x, now);
      assert (r + [last])[..|r|] == r;
    }
  }

  /** The candidates are stopped oldest idle first, and those of equal age in their listed order: the
      queue is sorted, and for every idle time it holds exactly that time's candidates as listed. */
  lemma {:induction false} OldestFirstOrder(cs: seq<Candidate>, key: nat, now: nat)
    ensures var q := OldestFirst(cs, now);
            && SortedByKey(q, now) && |q| == |cs|
            && WithKey(q, key, now) == WithKey(cs, key, now)
            && forall i :: 0 <= i < |q| ==> q[i] in cs
  {
    if cs != [] {
      var init, last := cs[..|cs| - 1], cs[|cs| - 1];
      OldestFirstOrder(init, key, now);
      AfterEarlierSorted(OldestFirst(init, now), last, now);
      AfterEarlierWithKey(OldestFirst(init, now), last, key, now);
    }
  }

  // ---------- how many are stopped ----------

  function SlotsOf(cs: seq<Candidate>): seq<nat>
  {
    if cs == [] then [] else [cs[0].slot] + SlotsOf(cs[1..])
  }

  function LongCount(cs: seq<Candidate>, now: nat, timeout: nat): (n: nat)
    ensures n <= |cs|
  {
    if cs == [] then 0 else LongCount(cs[1..], now, timeout) + if cs[0].LongIdle(now, timeout) then 1 else 0
  }

  lemma {:induction false} NoneLong(cs: seq<Candidate>, now: nat, timeout: nat)
    requires forall i :: 0 <= i < |cs| ==> !cs[i].LongIdle(now, timeout)
    ensures LongCount(cs, now, timeout) == 0
  {
    if cs != [] { NoneLong(cs[1..], now, timeout); }
  }

  /** In a queue of timed candidates the long-idle ones come first, so the loop takes a prefix. */
  lemma {:induction false} StopPlanIsPrefix(cs: seq<Candidate>, excess: nat, now: nat, timeout: nat)
    requires SortedByKey(cs, now) && forall i :: 0 <= i < |cs| ==> cs[i].since.Some?
    ensures StopPlan(cs, excess, now, timeout) == SlotsOf(cs[..Min(excess, LongCount(cs, now, timeout))])
  {
    if cs != [] && excess > 0 {
      if cs[0].LongIdle(now, timeout) {
        StopPlanIsPrefix(cs[1..], excess - 1, now, timeout);
        var k := Min(excess, LongCount(cs, now, timeout));
        assert cs[..k][0] == cs[0] && cs[..k][1..] == cs[1..][..k - 1];
      } else {
        StopPlanIsPrefix(cs[1..], excess, now, timeout);
        NoneLong(cs, now, timeout);
      }
    }
  }

  lemma {:induction false} SlotsOfLength(cs: seq<Candidate>)
    ensures |SlotsOf(cs)| == |cs| && forall i :: 0 <= i < |cs| ==> SlotsOf(cs)[i] == cs[i].slot
  {
    if cs != [] { SlotsOfLength(cs[1..]); }
  }

  /** Every idle runner has a timer. */
  predicate TimersCover(sc: Scene)
  {
    forall i :: 0 <= i < |sc.view.runners| && IsIdle(sc.view.runners[i]) ==> sc.view.runners[i].name in sc.idleSince
  }

  /** A cycle refreshes the timers before it uses them. */
  lemma SceneHasTimers(f: Fleet, m: Memory, snap: Snapshot, w: World, dryRun: bool)
    requires snap.runners.Some?
    ensures TimersCover(SceneOf(f, m, snap, w, dryRun))
  {
    var rs := snap.runners.value;
    forall i | 0 <= i < |rs| && IsIdle(rs[i]) ensures rs[i].name in RefreshIdle(m.idleSince, IdleNames(rs), snap.now) {
      assert rs[i] in rs;
    }
  }

  lemma {:induction false} MineMembers(p: Pool, rs: seq<Runner>)
    ensures forall i :: 0 <= i < |Mine(p, rs)| ==> Mine(p, rs)[i] in rs && SharesLabel(p, Mine(p, rs)[i])
    ensures forall r :: r in rs && SharesLabel(p, r) ==> r in Mine(p, rs)
  {
    if rs != [] { MineMembers(p, rs[..|rs| - 1]); }
  }

  lemma {:induction false} IdleMembers(rs: seq<Runner>)
    ensures forall i :: 0 <= i < |Idle(rs)| ==> Idle(rs)[i] in rs && IsIdle(Idle(rs)[i])
    ensures forall r :: r in rs && IsIdle(r) ==> r in Idle(rs)
  {
    if rs != [] { IdleMembers(rs[..|rs| - 1]); }
  }

  lemma {:induction false} CandidatesComplete(pool: string, idle: seq<Runner>, active: set<nat>,
                                              idleSince: map<string, nat>, r: Runner)
    requires r in idle && SlotOfVm(pool, r.name).Some? && SlotOfVm(pool, r.name).value in active
    ensures Candidate(r, SlotOfVm(pool, r.name).value, Since(idleSince, r.name))
            in Candidates(pool, idle, active, idleSince)
  {
    var init, last := idle[..|idle| - 1], idle[|idle| - 1];
    assert idle == init + [last];
    if r in init { CandidatesComplete(pool, init, active, idleSince, r); }
  }

  /** Every idle runner on an active slot of the pool is a candidate. */
  lemma QueueComplete(sc: Scene, p: Pool, r: Runner) returns (c: Candidate)
    requires p.minWarm <= p.max && r in sc.view.runners && SharesLabel(p, r) && IsIdle(r)
    requires SlotOfVm(p.name, r.name).Some? && SlotOfVm(p.name, r.name).value in Count(p, sc.view).active
    ensures c.runner == r && c in Queue(sc, p, Count(p, sc.view))
  {
    var t := Count(p, sc.view);
    MineMembers(p, sc.view.runners);
    IdleMembers(Mine(p, sc.view.runners));
    CandidatesComplete(p.name, t.idle, t.active, sc.idleSince, r);
    c := Candidate(r, SlotOfVm(p.name, r.name).value, Since(sc.idleSince, r.name));
    var cs := Candidates(p.name, t.idle, t.active, sc.idleSince);
    var key := c.Key(sc.now);
    OldestFirstOrder(cs, key, sc.now);
    InWithKey(cs, c, key, sc.now);
    InWithKey(Queue(sc, p, t), c, key, sc.now);
  }

  lemma {:induction false} InWithKey(cs: seq<Candidate>, c: Candidate, key: nat, now: nat)
    requires c.Key(now) == key
    ensures c in WithKey(cs, key, now) <==> c in cs
  {
    if cs != [] {
      InWithKey(cs[..|cs| - 1], c, key, now);
      assert cs == cs[..|cs| - 1] + [cs[|cs| - 1]];
    }
  }

  lemma {:induction false} CandidateMembers(pool: string, idle: seq<Runner>, active: set<nat>,
                                            idleSince: map<string, nat>)
    ensures forall i :: 0 <= i < |Candidates(pool, idle, active, idleSince)| ==>
              var c := Candidates(pool, idle, active, idleSince)[i];
              && c.runner in idle && SlotOfVm(pool, c.runner.name) == Some(c.slot) && c.slot in active
              && c.since == Since(idleSince, c.runner.name)
  {
    if idle != [] { CandidateMembers(pool, idle[..|idle| - 1], active, idleSince); }
  }

  /** What the queue of a pool holds. */
  lemma QueueMembers(sc: Scene, p: Pool)
    requires p.minWarm <= p.max && TimersCover(sc)
    ensures var t := Count(p, sc.view);
            var q := Queue(sc, p, t);
            && SortedByKey(q, sc.now)
            && forall i :: 0 <= i < |q| ==>
                 && q[i].runner in Mine(p, sc.view.runners) && IsIdle(q[i].runner)
                 && SlotOfVm(p.name, q[i].runner.name) == Some(q[i].slot) && q[i].slot in t.active
                 && q[i].since.Some?
  {
    var t := Count(p, sc.view);
    var mine := Mine(p, sc.view.runners);
    var cs := Candidates(p.name, t.idle, t.active, sc.idleSince);
    MineMembers(p, sc.view.runners);
    IdleMembers(mine);
    CandidateMembers(p.name, t.idle, t.active, sc.idleSince);
    OldestFirstOrder(cs, 0, sc.now);
    var q := Queue(sc, p, t);
    forall i | 0 <= i < |q|
      ensures q[i].runner in mine && IsIdle(q[i].runner) && q[i].since.Some?
      ensures SlotOfVm(p.name, q[i].runner.name) == Some(q[i].slot) && q[i].slot in t.active
    {
      var k :| 0 <= k < |cs| && cs[k] == q[i];
      var j :| 0 <= j < |t.idle| && t.idle[j] == cs[k].runner;
      assert t.idle[j] in mine;
      var n :| 0 <= n < |mine| && mine[n] == t.idle[j];
      assert mine[n] in sc.view.runners;
    }
  }

  /** A pool with an excess stops exactly the first candidates of its queue: as many as the excess, or
      as many as are long idle if that is fewer. */
  lemma ScaleDownExact(sc: Scene, p: Pool)
    requires p.minWarm <= p.max && TimersCover(sc) && Count(p, sc.view).Deficit() < 0
    ensures var t := Count(p, sc.view);
            var q := Queue(sc, p, t);
            Stopped(sc, p) == SlotsOf(q[..Min(-t.Deficit(), LongCount(q, sc.now, sc.idleTimeout))])
  {
    QueueMembers(sc, p);
    PlanExact(sc, p, Count(p, sc.view));
  }

  lemma PlanExact(sc: Scene, p: Pool, t: Tally)
    requires t.Deficit() < 0
    requires var q := Queue(sc, p, t); SortedByKey(q, sc.now) && forall i :: 0 <= i < |q| ==> q[i].since.Some?
    ensures var q := Queue(sc, p, t);
            Plan(sc, p, t) == SlotsOf(q[..Min(-t.Deficit(), LongCount(q, sc.now, sc.idleTimeout))])
  {
    StopPlanIsPrefix(Queue(sc, p, t), -t.Deficit(), sc.now, sc.idleTimeout);
  }

  lemma {:induction false} StopPlanLength(cs: seq<Candidate>, excess: nat, now: nat, timeout: nat)
    ensures |StopPlan(cs, excess, now, timeout)| <= excess
  {
    if cs != [] && excess > 0 {
      if cs[0].LongIdle(now, timeout) { StopPlanLength(cs[1..], excess - 1, now, timeout); }
      else { StopPlanLength(cs[1..], excess, now, timeout); }
    }
  }

  /** A pool never stops more workers than it counts in excess. The count is of runner records; what is
      left of its units is another matter, see `ScaleDownKeepsDesired`. */
  lemma StopsWithinExcess(sc: Scene, p: Pool)
    requires p.minWarm <= p.max && Stopped(sc, p) != []
    ensures Count(p, sc.view).Present() - |Stopped(sc, p)| >= Count(p, sc.view).desired >= p.minWarm
  {
    var t := Count(p, sc.view);
    StopPlanLength(Queue(sc, p, t), -t.Deficit(), sc.now, sc.idleTimeout);
  }

  lemma {:induction false} StopPlanMembers(cs: seq<Candidate>, excess: nat, now: nat, timeout: nat, s: nat)
    requires s in StopPlan(cs, excess, now, timeout)
    ensures exists i :: 0 <= i < |cs| && cs[i].slot == s
  {
    if s in StopPlan(cs[1..], excess, now, timeout) {
      StopPlanMembers(cs[1..], excess, now, timeout, s);
      var i :| 0 <= i < |cs[1..]| && cs[1..][i].slot == s;
      assert cs[i + 1].slot == s;
    } else if excess > 0 && s in StopPlan(cs[1..], excess - 1, now, timeout) {
      StopPlanMembers(cs[1..], excess - 1, now, timeout, s);
      var i :| 0 <= i < |cs[1..]| && cs[1..][i].slot == s;
      assert cs[i + 1].slot == s;
    } else {
      assert cs[0].slot == s;
    }
  }

  /** Only active slots of the pool are stopped, so each distinct one costs the pool a unit. */
  lemma StoppedAreActive(sc: Scene, p: Pool)
    requires p.minWarm <= p.max
    ensures var t := Count(p, sc.view);
            Elems(Stopped(sc, p)) <= t.active
            && |t.active - Elems(Stopped(sc, p))| == |t.active| - |Elems(Stopped(sc, p))|
  {
    var t := Count(p, sc.view);
    forall s | s in Stopped(sc, p) ensures s in t.active {
      PlanIsActive(sc, p, t, s);
    }
    SubsetDifference(t.active, Elems(Stopped(sc, p)));
  }

  lemma PlanIsActive(sc: Scene, p: Pool, t: Tally, s: nat)
    requires s in Plan(sc, p, t)
    ensures s in t.active
  {
    var cs := Candidates(p.name, t.idle, t.active, sc.idleSince);
    CandidateMembers(p.name, t.idle, t.active, sc.idleSince);
    OldestFirstOrder(cs, 0, sc.now);
    var q := Queue(sc, p, t);
    StopPlanMembers(q, -t.Deficit(), sc.now, sc.idleTimeout, s);
    var i :| 0 <= i < |q| && q[i].slot == s;
    assert q[i] in cs;
  }

  /** The slots of the first candidates of a queue. */
  function SlotsAmong(q: seq<Candidate>, n: nat): set<nat>
    requires n <= |q|
  {
    set k | 0 <= k < n :: q[k].slot
  }

  /** What stopping leaves of a pool's units, exactly: all but the distinct slots among the candidates
      within reach. It is the desired size at least, and so the warm minimum, just when these are no more
      than the units beyond it. */
  lemma ScaleDownKeepsDesired(sc: Scene, p: Pool)
    requires p.minWarm <= p.max && TimersCover(sc)
    ensures var t := Count(p, sc.view);
            var q := Queue(sc, p, t);
            && Reach(sc, p) <= |q|
            && t.active - Elems(Stopped(sc, p)) == t.active - SlotsAmong(q, Reach(sc, p))
            && (|t.active - Elems(Stopped(sc, p))| >= t.desired <==>
                  |SlotsAmong(q, Reach(sc, p))| <= |t.active| - t.desired)
            && t.desired >= p.minWarm
  {
    var t := Count(p, sc.view);
    var q := Queue(sc, p, t);
    StoppedPrefix(sc, p);
    StoppedAreActive(sc, p);
    PrefixSlots(q, Reach(sc, p));
  }

  lemma PrefixSlots(q: seq<Candidate>, n: nat)
    requires n <= |q|
    ensures Elems(SlotsOf(q[..n])) == SlotsAmong(q, n)
  {
    SlotsOfLength(q[..n]);
    forall s ensures s in Elems(SlotsOf(q[..n])) <==> s in SlotsAmong(q, n) {
      if k :| 0 <= k < n && q[k].slot == s { assert SlotsOf(q[..n])[k] == s; }
    }
  }

  /** Each stopped slot is an active slot of the pool with an idle runner on it. */
  lemma StoppedSlots(sc: Scene, p: Pool, s: nat) returns (r: Runner)
    requires p.minWarm <= p.max && TimersCover(sc) && s in Stopped(sc, p)
    ensures r in Mine(p, sc.view.runners) && IsIdle(r) && SlotOfVm(p.name, r.name) == Some(s)
    ensures s in Count(p, sc.view).active
  {
    var t := Count(p, sc.view);
    ScaleDownExact(sc, p);
    QueueMembers(sc, p);
    var q := Queue(sc, p, t);
    var taken := q[..Min(-t.Deficit(), LongCount(q, sc.now, sc.idleTimeout))];
    SlotsOfLength(taken);
    var k :| 0 <= k < |SlotsOf(taken)| && SlotsOf(taken)[k] == s;
    r := q[k].runner;
  }

  /** No two online runners of a pool sit on one slot. */
  predicate DistinctSlots(pool: string, rs: seq<Runner>)
  {
    forall i, j :: 0 <= i < j < |rs| && rs[i].Online() && rs[j].Online() && SlotOfVm(pool, rs[i].name).Some? ==>
      SlotOfVm(pool, rs[i].name) != SlotOfVm(pool, rs[j].name)
  }

  /** How far into its queue a pool stops workers. */
  function Reach(sc: Scene, p: Pool): nat
    requires p.minWarm <= p.max
  {
    ReachOf(sc, p, Count(p, sc.view))
  }

  function ReachOf(sc: Scene, p: Pool, t: Tally): nat
  {
    Min(Max(0, -t.Deficit()), LongCount(Queue(sc, p, t), sc.now, sc.idleTimeout))
  }

  /** Which slots are stopped, exactly: those of the candidates within reach. */
  lemma StoppedExact(sc: Scene, p: Pool, s: nat)
    requires p.minWarm <= p.max && TimersCover(sc)
    ensures var q := Queue(sc, p, Count(p, sc.view));
            && Reach(sc, p) <= |q|
            && (s in Stopped(sc, p) <==> exists k :: 0 <= k < Reach(sc, p) && q[k].slot == s)
  {
    StoppedPrefix(sc, p);
    PrefixSlots(Queue(sc, p, Count(p, sc.view)), Reach(sc, p));
    assert s in Stopped(sc, p) <==> s in SlotsAmong(Queue(sc, p, Count(p, sc.view)), Reach(sc, p));
  }

  /** ... in every cycle that reads the runner list, since it refreshes the timers first. */
  lemma CycleStopsExact(f: Fleet, m: Memory, snap: Snapshot, w: World, dryRun: bool, p: Pool, s: nat)
    requires snap.runners.Some? && p.minWarm <= p.max
    ensures var sc := SceneOf(f, m, snap, w, dryRun);
            var q := Queue(sc, p, Count(p, sc.view));
            && Reach(sc, p) <= |q|
            && (s in Stopped(sc, p) <==> exists k :: 0 <= k < Reach(sc, p) && q[k].slot == s)
  {
    SceneHasTimers(f, m, snap, w, dryRun);
    StoppedExact(SceneOf(f, m, snap, w, dryRun), p, s);
  }

  lemma StoppedPrefix(sc: Scene, p: Pool)
    requires p.minWarm <= p.max && TimersCover(sc)
    ensures var q := Queue(sc, p, Count(p, sc.view));
            Reach(sc, p) <= |q| && Stopped(sc, p) == SlotsOf(q[..Reach(sc, p)])
  {
    QueueMembers(sc, p);
    PlanPrefix(sc, p, Count(p, sc.view));
  }

  lemma PlanPrefix(sc: Scene, p: Pool, t: Tally)
    requires var q := Queue(sc, p, t); SortedByKey(q, sc.now) && forall i :: 0 <= i < |q| ==> q[i].since.Some?
    ensures var q := Queue(sc, p, t);
            ReachOf(sc, p, t) <= |q| && Plan(sc, p, t) == SlotsOf(q[..ReachOf(sc, p, t)])
  {
    if t.Deficit() < 0 { PlanExact(sc, p, t); }
  }

  /** A busy runner's slot is stopped exactly when an idle record of the same slot is among the
      candidates within reach. */
  lemma BusyStoppedExact(sc: Scene, p: Pool, busy: Runner)
    requires p.minWarm <= p.max && TimersCover(sc)
    requires busy in Mine(p, sc.view.runners) && IsBusy(busy) && SlotOfVm(p.name, busy.name).Some?
    ensures var q := Queue(sc, p, Count(p, sc.view));
            && Reach(sc, p) <= |q|
            && (SlotOfVm(p.name, busy.name).value in Stopped(sc, p) <==>
                  exists k :: 0 <= k < Reach(sc, p) && IsIdle(q[k].runner)
                              && SlotOfVm(p.name, q[k].runner.name) == SlotOfVm(p.name, busy.name))
  {
    StoppedExact(sc, p, SlotOfVm(p.name, busy.name).value);
    QueueMembers(sc, p);
  }

  /** So it is never stopped where no idle runner of the pool shares its slot, however many busy ones
      do. */
  lemma NeverStopsBusy(sc: Scene, p: Pool, busy: Runner)
    requires p.minWarm <= p.max && TimersCover(sc)
    requires busy in Mine(p, sc.view.runners) && IsBusy(busy) && SlotOfVm(p.name, busy.name).Some?
    requires forall r :: r in Mine(p, sc.view.runners) && IsIdle(r) ==>
               SlotOfVm(p.name, r.name) != SlotOfVm(p.name, busy.name)
    ensures SlotOfVm(p.name, busy.name).value !in Stopped(sc, p)
  {
    BusyStoppedExact(sc, p, busy);
    QueueMembers(sc, p);
  }
}
