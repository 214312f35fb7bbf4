/** The supervisor over whole runs: any sequence of cycles, whatever the outside answers, with workers
    ending on their own in between. */
module SupervisorRuns {
  import opened Prelude
  import opened Naming
  import opened Config
  import opened GitHub
  import opened Reconcile
  import opened Cycle
  import opened ScalingLaws
  import UpdateCheck
  import Version

  /** A reconcile cycle with what the outside answered, or a worker unit going away by itself. */
  datatype Event = Pass(snap: Snapshot, world: World, dryRun: bool) | UnitEnds(unit: string)

  datatype State = State(memory: Memory, host: Host)

  function Next(f: Fleet, s: State, e: Event, current: string): State
    requires WarmWithinMax(f.pools)
  {
    match e
    case Pass(snap, w, dryRun) =>
      State(NextMemory(f, s.memory, snap, dryRun, current), NextHost(f, s.memory, snap, s.host, w, dryRun))
    case UnitEnds(unit) => State(s.memory, s.host.(units := s.host.units - {unit}))
  }

  function After(f: Fleet, events: seq<Event>, current: string): State
    requires WarmWithinMax(f.pools)
  {
    if events == [] then State(FRESH, Host(map[], []))
    else Next(f, After(f, events[..|events| - 1], current), events[|events| - 1], current)
  }

  // ---------- no pool outgrows its maximum ----------

  /** Every unit is named after its slot and runs the pool the slot belongs to. */
  ghost predicate HostOk(pools: seq<Pool>, h: Host)
  {
    forall u :: u in h.units ==> u == WorkerUnit(h.units[u].slot) && SlotOwned(pools, h.units[u])
  }

  ghost predicate SlotOwned(pools: seq<Pool>, w: Worker)
  {
    exists i :: 0 <= i < |pools| && pools[i].name == w.pool && w.slot in Slots(pools[i])
  }

  lemma {:induction false} LaunchAllKeepsHostOk(pools: seq<Pool>, i: nat, h: Host, w: World, slots: seq<nat>)
    requires HostOk(pools, h) && i < |pools| && forall k :: 0 <= k < |slots| ==> slots[k] in Slots(pools[i])
    ensures HostOk(pools, LaunchAll(h, w, pools[i].name, slots))
  {
    if slots != [] {
      LaunchAllKeepsHostOk(pools, i, h, w, slots[..|slots| - 1]);
      assert SlotOwned(pools, Worker(pools[i].name, slots[|slots| - 1]));
    }
  }

  lemma {:induction false} StopAllKeepsHostOk(pools: seq<Pool>, h: Host, w: World, slots: seq<nat>)
    requires HostOk(pools, h)
    ensures HostOk(pools, StopAll(h, w, slots))
  {
    if slots != [] { StopAllKeepsHostOk(pools, h, w, slots[..|slots| - 1]); }
  }

  lemma {:induction false} PassKeepsHostOk(sc: Scene, all: seq<Pool>, n: nat, start: Progress)
    requires WarmWithinMax(all) && n <= |all| && HostOk(all, start.host)
    ensures HostOk(all, AllPools(sc, all[..n], start).host)
  {
    if n > 0 {
      PassKeepsHostOk(sc, all, n - 1, start);
      assert all[..n][..n - 1] == all[..n - 1];
      var p, at := all[n - 1], AllPools(sc, all[..n - 1], start);
      PicksLowestFree(sc, p, at.budget);
      LaunchAllKeepsHostOk(all, n - 1, at.host, sc.world, Picked(sc, p, at.budget));
      StopAllKeepsHostOk(all, LaunchAll(at.host, sc.world, p.name, Picked(sc, p, at.budget)), sc.world, Stopped(sc, p));
    }
  }

  lemma {:induction false} HostOkAlways(f: Fleet, events: seq<Event>, current: string)
    requires WarmWithinMax(f.pools)
    ensures HostOk(f.pools, After(f, events, current).host)
  {
    if events != [] {
      var s, e := After(f, events[..|events| - 1], current), events[|events| - 1];
      HostOkAlways(f, events[..|events| - 1], current);
      if e.Pass? && e.snap.runners.Some? {
        var sc, start := SceneOf(f, s.memory, e.snap, e.world, e.dryRun), StartOf(f, e.snap, s.host, e.dryRun);
        assert HostOk(f.pools, start.host);
        PassKeepsHostOk(sc, f.pools, |f.pools|, start);
        assert f.pools[..|f.pools|] == f.pools;
      }
    }
  }

  function UnitsOf(h: Host, pool: string): set<string> { set u | u in h.units && h.units[u].pool == pool }

  /** In every run of a valid configuration, whether or not the unit listing works, no pool ever has
      more workers than its maximum, and no slot has two. */
  lemma FleetStaysWithinMax(f: Fleet, events: seq<Event>, current: string, i: nat)
    requires Valid(f) && i < |f.pools|
    ensures WarmWithinMax(f.pools)
    ensures var h := After(f, events, current).host;
            && |UnitsOf(h, f.pools[i].name)| <= f.pools[i].max
            && (forall u, v :: u in h.units && v in h.units && h.units[u].slot == h.units[v].slot ==> u == v)
  {
    assert WarmWithinMax(f.pools) by { assert forall k :: 0 <= k < |f.pools| ==> PoolOk(f.pools[k], f.bases); }
    var h := After(f, events, current).host;
    var units := UnitsOf(h, f.pools[i].name);
    HostOkAlways(f, events, current);
    var slot := (u: string) => if u in h.units then h.units[u].slot else 0;
    forall u | u in units ensures slot(u) in Slots(f.pools[i]) {
      var k :| 0 <= k < |f.pools| && f.pools[k].name == h.units[u].pool && h.units[u].slot in Slots(f.pools[k]);
      assert k == i;
    }
    InjectionSize(units, slot, Slots(f.pools[i]));
    SlotCount(f.pools[i]);
  }

  // ---------- idle timers ----------

  /** What one event shows of the idle runners: nothing, unless a cycle read the runner list. */
  datatype Sight = Blind | Idle(names: set<string>, now: nat)

  function SightOf(e: Event): Sight
  {
    if e.Pass? && e.snap.runners.Some? then Idle(IdleNames(e.snap.runners.value), e.snap.now) else Blind
  }

  function Sights(events: seq<Event>): seq<Sight>
  {
    if events == [] then [] else Sights(events[..|events| - 1]) + [SightOf(events[|events| - 1])]
  }

  function Timers(sights: seq<Sight>): map<string, nat>
  {
    if sights == [] then map[]
    else
      var last := sights[|sights| - 1];
      if last.Blind? then Timers(sights[..|sights| - 1])
      else RefreshIdle(Timers(sights[..|sights| - 1]), last.names, last.now)
  }

  lemma {:induction false} TimersAreMemory(f: Fleet, events: seq<Event>, current: string)
    requires WarmWithinMax(f.pools)
    ensures After(f, events, current).memory.idleSince == Timers(Sights(events))
  {
    if events != [] {
      TimersAreMemory(f, events[..|events| - 1], current);
      var all := Sights(events);
      assert all[..|all| - 1] == Sights(events[..|events| - 1]);
    }
  }

  /** The runner is seen idle at `j` and at every later sight, and this streak begins at `j`. */
  ghost predicate StreakFrom(sights: seq<Sight>, name: string, j: int)
  {
    && 0 <= j < |sights| && sights[j].Idle? && name in sights[j].names
    && (forall i :: j <= i < |sights| && sights[i].Idle? ==> name in sights[i].names)
    && (forall i :: 0 <= i < j && sights[i].Idle? && name in sights[i].names ==>
          exists k :: i < k < j && sights[k].Idle? && name !in sights[k].names)
  }

  /** At the last sight, if there was one, the runner was idle. */
  ghost predicate IdleNow(sights: seq<Sight>, name: string)
  {
    exists j :: 0 <= j < |sights| && sights[j].Idle? && name in sights[j].names &&
                forall i :: j < i < |sights| ==> sights[i].Blind?
  }

  lemma {:induction false} TimersLaw(sights: seq<Sight>, name: string) returns (j: int)
    ensures name in Timers(sights) <==> IdleNow(sights, name)
    ensures name in Timers(sights) ==> StreakFrom(sights, name, j) && Timers(sights)[name] == sights[j].now
    ensures name !in Timers(sights) ==>
              forall i :: 0 <= i < |sights| && sights[i].Idle? && name in sights[i].names ==>
                exists k :: i < k < |sights| && sights[k].Idle? && name !in sights[k].names
  {
    j := 0;
    if sights != [] {
      var n := |sights| - 1;
      var init, last := sights[..n], sights[n];
      j := TimersLaw(init, name);
      assert forall i :: 0 <= i < n ==> init[i] == sights[i];
      if last.Idle? && name in last.names {
        assert IdleNow(sights, name);
        if name !in Timers(init) { j := n; }
      }
      if last.Idle? && name !in last.names {
        assert forall i :: 0 <= i < |sights| && sights[i].Idle? && name in sights[i].names ==> i < n < |sights|;
      }
      if last.Blind? { BlindChangesNothing(sights, name); }
    }
  }

  lemma BlindChangesNothing(sights: seq<Sight>, name: string)
    requires sights != [] && sights[|sights| - 1].Blind?
    ensures IdleNow(sights, name) <==> IdleNow(sights[..|sights| - 1], name)
  {
    var n := |sights| - 1;
    var init := sights[..n];
    if IdleNow(init, name) {
      var k :| 0 <= k < n && init[k].Idle? && name in init[k].names && forall i :: k < i < n ==> init[i].Blind?;
      assert sights[k].Idle?;
      assert forall i :: k < i < n ==> sights[i] == init[i];
    }
    if IdleNow(sights, name) {
      var k :| 0 <= k < |sights| && sights[k].Idle? && name in sights[k].names &&
               forall i :: k < i < |sights| ==> sights[i].Blind?;
      assert init[k].Idle?;
    }
  }

  /** A cycle that read the runner list. */
  predicate Reads(e: Event) { e.Pass? && e.snap.runners.Some? }

  /** The list it read has a record of this name that is online and not busy. */
  predicate IdleIn(e: Event, name: string)
  {
    Reads(e) && var rs := e.snap.runners.value;
    exists k :: 0 <= k < |rs| && rs[k].name == name && rs[k].status == "online" && !rs[k].busy
  }

  /** The last cycle to read the list shows the runner idle. */
  ghost predicate LastSeenIdle(events: seq<Event>, name: string)
  {
    exists j :: 0 <= j < |events| && IdleIn(events[j], name) && NoneReads(events, j + 1)
  }

  predicate NoneReads(events: seq<Event>, n: int)
    requires 0 <= n
  {
    forall i :: n <= i < |events| ==> !Reads(events[i])
  }

  /** Cycle `j` and all later ones that read the list show the runner idle, and of the earlier ones that do
      none belongs to the same streak. */
  ghost predicate IdleFrom(events: seq<Event>, name: string, j: int)
  {
    && 0 <= j < |events| && IdleIn(events[j], name)
    && (forall i :: j <= i < |events| && Reads(events[i]) ==> IdleIn(events[i], name))
    && (forall i :: 0 <= i < j && IdleIn(events[i], name) ==> Broken(events, name, i, j))
  }

  ghost predicate Broken(events: seq<Event>, name: string, i: int, j: int)
  {
    exists k :: 0 <= i < k < j <= |events| && Reads(events[k]) && !IdleIn(events[k], name)
  }

  lemma SightMeans(e: Event, name: string)
    ensures SightOf(e).Idle? <==> Reads(e)
    ensures Reads(e) ==> SightOf(e).now == e.snap.now && (name in SightOf(e).names <==> IdleIn(e, name))
  {
    if Reads(e) {
      var rs := e.snap.runners.value;
      if name in IdleNames(rs) {
        var r :| r in rs && IsIdle(r) && r.name == name;
        var k :| 0 <= k < |rs| && rs[k] == r;
      }
      if k :| 0 <= k < |rs| && rs[k].name == name && rs[k].status == "online" && !rs[k].busy {
        assert rs[k] in rs && IsIdle(rs[k]);
      }
    }
  }

  lemma {:induction false} SightsShape(events: seq<Event>)
    ensures |Sights(events)| == |events|
    ensures forall i :: 0 <= i < |events| ==> Sights(events)[i] == SightOf(events[i])
  {
    if events != [] { SightsShape(events[..|events| - 1]); }
  }

  lemma SightsMean(events: seq<Event>, name: string)
    ensures |Sights(events)| == |events|
    ensures forall i :: 0 <= i < |events| ==>
              var v := Sights(events)[i];
              && (v.Idle? <==> Reads(events[i]))
              && (v.Idle? ==> v.now == events[i].snap.now && (name in v.names <==> IdleIn(events[i], name)))
  {
    SightsShape(events);
    forall i | 0 <= i < |events| ensures Sights(events)[i] == SightOf(events[i]) {
      SightMeans(events[i], name);
    }
    forall i | 0 <= i < |events|
      ensures var v := Sights(events)[i];
              && (v.Idle? <==> Reads(events[i]))
              && (v.Idle? ==> v.now == events[i].snap.now && (name in v.names <==> IdleIn(events[i], name)))
    {
      SightMeans(events[i], name);
    }
  }

  lemma LastSeenMeans(events: seq<Event>, name: string)
    ensures IdleNow(Sights(events), name) <==> LastSeenIdle(events, name)
  {
    var v := Sights(events);
    SightsMean(events, name);
    if IdleNow(v, name) {
      var j :| 0 <= j < |v| && v[j].Idle? && name in v[j].names && forall i :: j < i < |v| ==> v[i].Blind?;
      assert IdleIn(events[j], name) && NoneReads(events, j + 1);
    }
    if j :| 0 <= j < |events| && IdleIn(events[j], name) && NoneReads(events, j + 1) {
      assert v[j].Idle? && name in v[j].names;
      assert forall i :: j < i < |v| ==> v[i].Blind?;
    }
  }

  lemma StreakMeans(events: seq<Event>, name: string, j: int)
    requires StreakFrom(Sights(events), name, j)
    ensures IdleFrom(events, name, j)
  {
    var v := Sights(events);
    SightsMean(events, name);
    forall i | j <= i < |events| && Reads(events[i]) ensures IdleIn(events[i], name) {
      assert v[i].Idle?;
    }
    forall i | 0 <= i < j && IdleIn(events[i], name) ensures Broken(events, name, i, j) {
      assert v[i].Idle? && name in v[i].names;
      var k :| i < k < j && v[k].Idle? && name !in v[k].names;
      assert Reads(events[k]) && !IdleIn(events[k], name);
    }
  }

  /** After any run a timer is kept for a runner if and only if the last cycle to read the runner list shows
      it idle, and it holds the time of the first cycle of the runner's unbroken idle streak; cycles that
      could not read the list neither break the streak nor leave a trace. */
  lemma IdleTimersExact(f: Fleet, events: seq<Event>, current: string, name: string) returns (j: int)
    requires WarmWithinMax(f.pools)
    ensures var timers := After(f, events, current).memory.idleSince;
            && (name in timers <==> LastSeenIdle(events, name))
            && (name in timers ==> IdleFrom(events, name, j) && timers[name] == events[j].snap.now)
  {
    TimersAreMemory(f, events, current);
    LastSeenMeans(events, name);
    j := TimersLaw(Sights(events), name);
    SightsMean(events, name);
    if name in Timers(Sights(events)) { StreakMeans(events, name, j); }
  }

  // ---------- the queued-job cache ----------

  /** What each successful cycle would have found by scanning the queue. */
  function Scans(events: seq<Event>): seq<map<string, nat>>
  {
    if events == [] then []
    else
      var e := events[|events| - 1];
      Scans(events[..|events| - 1]) + if e.Pass? && e.snap.runners.Some? then [e.snap.queuedScan] else []
  }

  function Period(f: Fleet): nat { Max(f.supervisor.queuedPollEvery, 1) }

  /** Position within the period, counted up. */
  function Phase(c: nat, e: nat): nat
    requires e > 0
  {
    if c == 0 then 0 else if Phase(c - 1, e) + 1 == e then 0 else Phase(c - 1, e) + 1
  }

  lemma {:induction false} PhaseBelow(c: nat, e: nat)
    requires c < e
    ensures Phase(c, e) == c
  {
    if c > 0 { PhaseBelow(c - 1, e); }
  }

  lemma {:induction false} PhaseShift(c: nat, e: nat)
    requires e > 0
    ensures Phase(c + e, e) == Phase(c, e)
  {
    if c > 0 { PhaseShift(c - 1, e); } else { PhaseBelow(e - 1, e); }
  }

  lemma {:induction false} MultipleAtPhaseZero(c: nat, e: nat)
    requires e > 0
    ensures IsMultiple(c, e) <==> Phase(c, e) == 0
  {
    if c < e {
      PhaseBelow(c, e);
    } else {
      MultipleAtPhaseZero(c - e, e);
      PhaseShift(c - e, e);
    }
  }

  /** Going back by its phase, a number comes to a multiple. */
  lemma {:induction false} LastMultiple(c: nat, e: nat)
    requires e > 0
    ensures Phase(c, e) < e && Phase(c, e) <= c && IsMultiple(c - Phase(c, e), e)
  {
    if c > 0 { LastMultiple(c - 1, e); }
    if Phase(c, e) == 0 { MultipleAtPhaseZero(c, e); }
  }

  /** `IsMultiple` holds of the multiples and of no other number. */
  lemma {:induction false} Multiples(q: nat, r: nat, e: nat)
    requires r < e
    ensures q * e >= 0 && (IsMultiple(q * e + r, e) <==> r == 0)
  {
    if q > 0 {
      Multiples(q - 1, r, e);
      assert q * e == (q - 1) * e + e;
    }
  }

  lemma ScanDueAtPhaseZero(f: Fleet, c: u64)
    ensures ScanDue(f, c) <==> Phase(c, Period(f)) == 0
  {
    MultipleAtPhaseZero(c, Period(f));
  }

  /** The cached scan is `age` successful cycles old, `age` below the period. */
  ghost predicate CacheAge(f: Fleet, m: Memory, scans: seq<map<string, nat>>, age: nat)
  {
    && age < |scans| && age < Period(f) && m.cachedQueued == scans[|scans| - 1 - age]
    && (m.cycle > 0 ==> Phase(m.cycle - 1, Period(f)) == age)
  }

  lemma {:induction false} CacheAgeKept(f: Fleet, m: Memory, scans: seq<map<string, nat>>, snap: Snapshot,
                                        dryRun: bool, current: string, age: nat) returns (next: nat)
    requires snap.runners.Some?
    requires if scans == [] then m.cycle == 0 else CacheAge(f, m, scans, age)
    ensures CacheAge(f, NextMemory(f, m, snap, dryRun, current), scans + [snap.queuedScan], next)
  {
    ScanDueAtPhaseZero(f, m.cycle);
    next := if ScanDue(f, m.cycle) then 0 else age + 1;
    LastMultiple(m.cycle, Period(f));
    assert (scans + [snap.queuedScan])[|scans| - next] == if next == 0 then snap.queuedScan else scans[|scans| - next];
  }

  lemma {:induction false} CacheAgeAlways(f: Fleet, events: seq<Event>, current: string) returns (age: nat)
    requires WarmWithinMax(f.pools)
    ensures var m := After(f, events, current).memory;
            if Scans(events) == [] then m.cycle == 0 else CacheAge(f, m, Scans(events), age)
  {
    age := 0;
    if events != [] {
      var init, e := events[..|events| - 1], events[|events| - 1];
      var m := After(f, init, current).memory;
      age := CacheAgeAlways(f, init, current);
      if e.Pass? && e.snap.runners.Some? {
        age := CacheAgeKept(f, m, Scans(init), e.snap, e.dryRun, current, age);
        assert After(f, events, current).memory == NextMemory(f, m, e.snap, e.dryRun, current);
      } else {
        assert After(f, events, current).memory == m && Scans(events) == Scans(init);
      }
    }
  }

  /** In every run the queued counts a cycle uses were scanned fewer than `queued_poll_every` successful
      cycles before it, the wrap-around of the cycle counter included. */
  lemma QueuedCountsAreFresh(f: Fleet, events: seq<Event>, current: string) returns (j: int)
    requires WarmWithinMax(f.pools) && Scans(events) != []
    ensures var scans := Scans(events);
            0 <= j < |scans| && |scans| - 1 - j < Period(f) && After(f, events, current).memory.cachedQueued == scans[j]
  {
    var age := CacheAgeAlways(f, events, current);
    j := |Scans(events)| - 1 - age;
  }

  lemma {:induction false} CycleCounts(f: Fleet, events: seq<Event>, current: string)
    requires WarmWithinMax(f.pools) && |Scans(events)| < U64_MODULUS
    ensures After(f, events, current).memory.cycle == |Scans(events)|
  {
    if events != [] {
      var init, e := events[..|events| - 1], events[|events| - 1];
      assert |Scans(init)| <= |Scans(events)|;
      CycleCounts(f, init, current);
      if e.Pass? && e.snap.runners.Some? {
        assert After(f, events, current).memory ==
               NextMemory(f, After(f, init, current).memory, e.snap, e.dryRun, current);
      }
    }
  }

  /** ... and until the counter wraps they are those of the last cycle whose number is a multiple of
      `queued_poll_every`, or of any cycle's own if that is zero: neither staler nor fresher. */
  lemma QueuedScanExact(f: Fleet, events: seq<Event>, current: string) returns (j: nat)
    requires WarmWithinMax(f.pools) && 0 < |Scans(events)| < U64_MODULUS
    ensures var n, every := |Scans(events)| - 1, Max(f.supervisor.queuedPollEvery, 1);
            j <= n < j + every && IsMultiple(j, every)
    ensures After(f, events, current).memory.cachedQueued == Scans(events)[j]
  {
    var age := CacheAgeAlways(f, events, current);
    CycleCounts(f, events, current);
    j := AgeIsPhase(f, After(f, events, current).memory, Scans(events), age);
  }

  lemma AgeIsPhase(f: Fleet, m: Memory, scans: seq<map<string, nat>>, age: nat) returns (j: nat)
    requires CacheAge(f, m, scans, age) && m.cycle == |scans|
    ensures var n, every := |scans| - 1, Max(f.supervisor.queuedPollEvery, 1);
            j <= n < j + every && IsMultiple(j, every) && m.cachedQueued == scans[j]
  {
    LastMultiple(|scans| - 1, Period(f));
    j := |scans| - 1 - age;
  }

  // ---------- the update check within a cycle ----------

  /** A cycle polls the check: it read the runner list, is no preview, and checks are configured. */
  predicate Polls(f: Fleet, snap: Snapshot, dryRun: bool)
  {
    snap.runners.Some? && !dryRun && f.supervisor.updateCheck
  }

  /** No fetch is under way any more when the cycle looks. */
  predicate NoFetch(m: Memory, snap: Snapshot) { !m.check.inFlight || !snap.answer.Empty? }

  /** The configured hours, at least one, have passed since the last start, or there was none. */
  predicate DueNow(f: Fleet, m: Memory, snap: Snapshot)
  {
    m.check.lastCheck.Some? ==>
      var hours := if f.supervisor.updateCheckIntervalHours == 0 then 1 else f.supervisor.updateCheckIntervalHours;
      snap.now >= m.check.lastCheck.value + 3600 * hours
  }

  /** A cycle starts a fetch if and only if it polls, none is under way, and one is due; a fetch that has
      answered is taken up, and what it found is announced if and only if it is newer than the running
      version. */
  lemma CycleChecksExact(f: Fleet, m: Memory, snap: Snapshot, dryRun: bool, current: string)
    requires 3600 * f.supervisor.updateCheckIntervalHours < U64_MODULUS
    ensures var before, after := m.check, NextMemory(f, m, snap, dryRun, current).check;
            var starts := Polls(f, snap, dryRun) && NoFetch(m, snap) && DueNow(f, m, snap);
            && after.lastCheck == (if starts then Some(snap.now) else before.lastCheck)
            && after.inFlight == (starts || (before.inFlight && !(Polls(f, snap, dryRun) && NoFetch(m, snap))))
            && after.latest ==
               if Polls(f, snap, dryRun) && before.inFlight && snap.answer.Sent? && snap.answer.result.Some?
               then (if Version.IsNewer(snap.answer.result.value, current) then snap.answer.result else None)
               else before.latest
  {
    var hours := f.supervisor.updateCheckIntervalHours;
    IntervalMeans(hours);
    CheckExact(m.check, snap.answer, snap.now, UpdateCheck.Interval(hours), current, Version.IsNewer);
    CheckOfCycle(f, m, snap, dryRun, current);
  }

  lemma IntervalMeans(hours: nat)
    requires 3600 * hours < U64_MODULUS
    ensures UpdateCheck.Interval(hours) == 3600 * if hours == 0 then 1 else hours
  {
  }

  lemma CheckOfCycle(f: Fleet, m: Memory, snap: Snapshot, dryRun: bool, current: string)
    ensures NextMemory(f, m, snap, dryRun, current).check ==
            if !Polls(f, snap, dryRun) then m.check
            else
              var interval := UpdateCheck.Interval(f.supervisor.updateCheckIntervalHours);
              UpdateCheck.Polled(m.check, snap.answer, snap.now, interval, current, Version.IsNewer)
  {
  }

  lemma CheckExact(c: UpdateCheck.Check, answer: UpdateCheck.Answer, now: nat, interval: nat, current: string,
                   newer: UpdateCheck.Newer)
    requires interval > 0
    ensures var after := UpdateCheck.Polled(c, answer, now, interval, current, newer);
            var idle := !c.inFlight || !answer.Empty?;
            var starts := idle && (c.lastCheck.Some? ==> now >= c.lastCheck.value + interval);
            && after.lastCheck == (if starts then Some(now) else c.lastCheck)
            && after.inFlight == (starts || (c.inFlight && !idle))
            && after.latest ==
               if c.inFlight && answer.Sent? && answer.result.Some?
               then (if newer(answer.result.value, current) then answer.result else None)
               else c.latest
  {
  }
}
