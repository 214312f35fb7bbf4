/** Runner records and worker units can differ: cycles of accepted fleets in which scale-down goes by the
    records and takes the wrong units. */
module RecordCases {
  import opened Prelude
  import opened Naming
  import opened Config
  import opened GitHub
  import opened Reconcile
  import opened Cycle
  import opened ScaleDown
  import UpdateCheck

  /** What a cycle sees: the runners, the worker units of some slots, an empty queue. */
  function Sees(rs: seq<Runner>, units: seq<string>, now: nat, availMib: u64): Snapshot
  {
    Snapshot(Some(rs), [], map[], Some(units), availMib, None, now, UpdateCheck.Empty)
  }

  /** The second of two cycles of a supervisor's life, an idle timeout after the first, that see the same. */
  function SecondScene(f: Fleet, rs: seq<Runner>, units: seq<string>, availMib: u64, w: World, current: string): Scene
  {
    SceneOf(f, NextMemory(f, FRESH, Sees(rs, units, 0, availMib), false, current),
            Sees(rs, units, 900, availMib), w, false)
  }

  lemma SecondSceneLaw(f: Fleet, rs: seq<Runner>, units: seq<string>, availMib: u64, w: World, current: string)
    requires f.supervisor.idleTimeoutSeconds == 900
    ensures var sc := SecondScene(f, rs, units, availMib, w, current);
            && sc.view == View(rs, map[], ActiveSlots(Some(units))) && sc.now == 900 && sc.idleTimeout == 900
            && !sc.blocked && !sc.dryRun && sc.maxLaunch == f.supervisor.maxLaunchPerPoll
            && forall r :: r in rs && IsIdle(r) ==> r.name in sc.idleSince && sc.idleSince[r.name] == 0
  {
  }

  /** A pool with one unit and one worker in excess stops that unit, if an idle record of it is there. */
  lemma OnlyUnitStopped(sc: Scene, p: Pool, s: nat, r: Runner)
    requires p.minWarm <= p.max
    requires var t := Count(p, sc.view); t.Deficit() == -1 && t.active == {s} && r in t.idle
    requires SlotOfVm(p.name, r.name) == Some(s) && sc.now == sc.idleTimeout
    requires forall x :: x in Count(p, sc.view).idle ==> x.name in sc.idleSince && sc.idleSince[x.name] == 0
    ensures Stopped(sc, p) == [s]
  {
    var t := Count(p, sc.view);
    var cs := Candidates(p.name, t.idle, t.active, sc.idleSince);
    CandidatesComplete(p.name, t.idle, t.active, sc.idleSince, r);
    CandidateMembers(p.name, t.idle, t.active, sc.idleSince);
    OldestFirstOrder(cs, 0, sc.now);
    FirstStopped(Queue(sc, p, t), s, sc.now);
  }

  lemma FirstStopped(q: seq<Candidate>, s: nat, now: nat)
    requires q != [] && q[0].slot == s && q[0].since == Some(0)
    ensures StopPlan(q, 1, now, now) == [s]
  {
    assert StopPlan(q[1..], 0, now, now) == [];
  }

  /** How a pool of one slot counts two online runners that carry its label, when they read no slot from
      the name but its own. */
  lemma PairCounted(p: Pool, a: Runner, b: Runner, slots: set<nat>)
    requires p.minWarm <= p.max == 1 && p.labels == ["x"] && NoWrap(p) && p.slotBase in slots
    requires a.Online() && b.Online() && a.labels == b.labels == ["x"]
    requires SlotOfVm(p.name, a.name).GetOr(p.slotBase) == p.slotBase
    requires SlotOfVm(p.name, b.name).GetOr(p.slotBase) == p.slotBase
    requires SlotOfVm(p.name, a.name).Some? || SlotOfVm(p.name, b.name).Some?
    ensures var t := Count(p, View([a, b], map[], slots));
            && t.active == {p.slotBase as nat} && t.idle == Idle([a, b]) && t.busy == BusyCount([a, b])
            && t.Present() == 2 && t.desired == Desired(t.busy, 0, p.minWarm, 1)
  {
    var both := [a, b];
    assert p.labels[0] in a.labels && p.labels[0] in b.labels;
    PairMine(p, a, b);
    PairSplit(a, b);
    PairSlots(p.name, p.slotBase, a, b);
    OneSlot(p);
    PairTally(p, both, slots);
  }

  lemma PairTally(p: Pool, both: seq<Runner>, slots: set<nat>)
    requires p.minWarm <= p.max == 1 && |p.labels| == 1 && p.slotBase in slots
    requires Mine(p, both) == both && |Idle(both)| + BusyCount(both) == 2
    requires SlotSet(p) == {p.slotBase as nat} && OnlineSlots(p.name, both) == {p.slotBase as nat}
    ensures var t := Count(p, View(both, map[], slots));
            && t.active == {p.slotBase as nat} && t.idle == Idle(both) && t.busy == BusyCount(both)
            && t.Present() == 2 && t.desired == Desired(t.busy, 0, p.minWarm, 1)
  {
    assert slots * SlotSet(p) == {p.slotBase as nat};
    assert {p.slotBase as nat} - OnlineSlots(p.name, both) == {};
    assert Demand(p.labels, map[]) == 0;
  }

  lemma OneSlot(p: Pool)
    requires p.max == 1 && NoWrap(p)
    ensures SlotSet(p) == {p.slotBase as nat}
  {
    assert SlotEnd(p) == p.slotBase + 1;
  }

  lemma PairMine(p: Pool, a: Runner, b: Runner)
    requires SharesLabel(p, a) && SharesLabel(p, b)
    ensures Mine(p, [a, b]) == [a, b]
  {
    assert [a, b][..1] == [a] && [a][..0] == [];
    assert Mine(p, [a]) == [a];
  }

  lemma PairSplit(a: Runner, b: Runner)
    requires a.Online() && b.Online()
    ensures |Idle([a, b])| + BusyCount([a, b]) == 2
    ensures forall r :: r in Idle([a, b]) <==> r in [a, b] && IsIdle(r)
    ensures BusyCount([a, b]) == (if a.busy then 1 else 0) + if b.busy then 1 else 0
  {
    assert [a, b][..1] == [a] && [a][..0] == [];
    assert |Idle([a])| + BusyCount([a]) == 1;
    IdleMembers([a, b]);
  }

  lemma PairSlots(pool: string, s: nat, a: Runner, b: Runner)
    requires a.Online() && b.Online()
    requires SlotOfVm(pool, a.name).GetOr(s) == s && SlotOfVm(pool, b.name).GetOr(s) == s
    requires SlotOfVm(pool, a.name).Some? || SlotOfVm(pool, b.name).Some?
    ensures OnlineSlots(pool, [a, b]) == {s}
  {
    assert [a, b][..1] == [a] && [a][..0] == [];
    assert OnlineSlots(pool, [a]) == if SlotOfVm(pool, a.name).Some? then {s} else {};
  }

  function SmallPool(minWarm: u32): Pool
    requires minWarm <= 1
  {
    Pool("small", ["x"], minWarm, 1, 101, None)
  }

  function SmallFleet(minWarm: u32, a: Config.Admission, sup: Supervisor): Fleet
    requires minWarm <= 1
  {
    Fleet(Some("o/r"), None, ["base"], [SmallPool(minWarm)], a, sup)
  }

  lemma SmallFleetValid(minWarm: u32, a: Config.Admission, sup: Supervisor)
    requires minWarm <= 1
    ensures Valid(SmallFleet(minWarm, a, sup))
  {
    SeparatedIffDisjoint([SmallPool(minWarm)]);
  }

  /** An idle record that an earlier start left on slot 101, and the record of its present runner. */
  function TwoStarts(busy: bool): seq<Runner>
  {
    [Runner(1, VmName("small", 101, 1, 1), "online", false, ["x"]),
     Runner(2, VmName("small", 101, 2, 2), "online", busy, ["x"])]
  }

  lemma TwoStartsStopped(f: Fleet, busy: bool, minWarm: u32, availMib: u64, w: World, current: string)
    requires f.supervisor.idleTimeoutSeconds == 900 && minWarm == if busy then 0 else 1
    ensures var sc := SecondScene(f, TwoStarts(busy), [WorkerUnit(101)], availMib, w, current);
            var p := SmallPool(minWarm);
            Stopped(sc, p) == [101] && Count(p, sc.view).active == {101} && Count(p, sc.view).desired == 1
  {
    var rs := TwoStarts(busy);
    SecondSceneLaw(f, rs, [WorkerUnit(101)], availMib, w, current);
    OneUnitSeen(101);
    TwoStartsCounted(busy, minWarm);
    OnlyUnitStopped(SecondScene(f, rs, [WorkerUnit(101)], availMib, w, current), SmallPool(minWarm), 101, rs[0]);
  }

  lemma TwoStartsCounted(busy: bool, minWarm: u32)
    requires minWarm == if busy then 0 else 1
    ensures var rs := TwoStarts(busy);
            var t := Count(SmallPool(minWarm), View(rs, map[], {101}));
            && SlotOfVm("small", rs[0].name) == Some(101)
            && t.active == {101} && t.desired == 1 && t.Deficit() == -1 && rs[0] in t.idle
            && forall r :: r in t.idle ==> r in rs && IsIdle(r)
  {
    var rs := TwoStarts(busy);
    OwnerReadsSlot("small", 101, 1, 1);
    OwnerReadsSlot("small", 101, 2, 2);
    PairCounted(SmallPool(minWarm), rs[0], rs[1], {101});
    PairSplit(rs[0], rs[1]);
  }

  lemma OneUnitSeen(s: u32)
    ensures ActiveSlots(Some([WorkerUnit(s)])) == {s as nat}
  {
    UnitRoundTrip(s);
  }

  /** The hypothesis is needed: of two cycles of an accepted fleet, the first of the supervisor's life
      and one an idle timeout later, the second stops the slot of the busy runner. */
  lemma StaleRecordStopsBusy(a: Config.Admission, sup: Supervisor, w: World, availMib: u64, current: string)
    requires sup.idleTimeoutSeconds == 900
    ensures var f := SmallFleet(0, a, sup);
            var sc := SecondScene(f, TwoStarts(true), [WorkerUnit(101)], availMib, w, current);
            Valid(f) && Stopped(sc, SmallPool(0)) == [101]
  {
    SmallFleetValid(0, a, sup);
    TwoStartsStopped(SmallFleet(0, a, sup), true, 0, availMib, w, current);
  }

  /** Scale-down can take a pool below its desired size and its warm minimum: with two idle records of one
      slot, the second of two such cycles stops the only unit of a pool that is to keep one warm. */
  lemma TwinRecordsStopLast(a: Config.Admission, sup: Supervisor, w: World, availMib: u64, current: string)
    requires sup.idleTimeoutSeconds == 900
    ensures var f := SmallFleet(1, a, sup);
            var sc := SecondScene(f, TwoStarts(false), [WorkerUnit(101)], availMib, w, current);
            var t := Count(SmallPool(1), sc.view);
            Valid(f) && t.desired == SmallPool(1).minWarm == 1 && t.active - Elems(Stopped(sc, SmallPool(1))) == {}
  {
    SmallFleetValid(1, a, sup);
    TwoStartsStopped(SmallFleet(1, a, sup), false, 1, availMib, w, current);
  }

  // ---------- two pools that share a label ----------

  const LEFT := Pool("a", ["x"], 1, 1, 101, None)
  const RIGHT := Pool("b", ["x"], 1, 1, 102, None)

  function SharedFleet(a: Config.Admission, sup: Supervisor): Fleet
  {
    Fleet(Some("o/r"), None, ["base"], [LEFT, RIGHT], a, sup)
  }

  lemma SharedFleetValid(a: Config.Admission, sup: Supervisor)
    ensures Valid(SharedFleet(a, sup))
  {
    PairSeparated(LEFT, RIGHT);
  }

  /** One idle runner on each slot. */
  const ONE_EACH: seq<Runner> :=
    [Runner(1, VmName("a", 101, 1, 1), "online", false, ["x"]),
     Runner(2, VmName("b", 102, 1, 2), "online", false, ["x"])]

  const BOTH_UNITS: seq<string> := [WorkerUnit(101), WorkerUnit(102)]

  lemma BothUnitsSeen()
    ensures ActiveSlots(Some(BOTH_UNITS)) == {101, 102}
  {
    UnitRoundTrip(101);
    UnitRoundTrip(102);
    assert BOTH_UNITS[0] in BOTH_UNITS && BOTH_UNITS[1] in BOTH_UNITS;
  }

  lemma OneEachReads()
    ensures SlotOfVm("a", ONE_EACH[0].name) == Some(101) && SlotOfVm("a", ONE_EACH[1].name) == None
    ensures SlotOfVm("b", ONE_EACH[0].name) == None && SlotOfVm("b", ONE_EACH[1].name) == Some(102)
  {
    OwnerReadsSlot("a", 101, 1, 1);
    OwnerReadsSlot("b", 102, 1, 2);
    HyphenFreeStrangers("a", "b");
    HyphenFreeStrangers("b", "a");
    StrangerReadsNothing("a", "b", 102, 1, 2);
    StrangerReadsNothing("b", "a", 101, 1, 1);
  }

  /** Each pool counts both runners, and so both stop their only unit in one and the same cycle, though
      each is to keep one warm. */
  lemma SharedLabelStopsBoth(a: Config.Admission, sup: Supervisor, w: World, availMib: u64, current: string)
    requires sup.idleTimeoutSeconds == 900
    ensures var f := SharedFleet(a, sup);
            var sc := SecondScene(f, ONE_EACH, BOTH_UNITS, availMib, w, current);
            && Valid(f)
            && Stopped(sc, LEFT) == [101] && Count(LEFT, sc.view).active == {101}
            && Stopped(sc, RIGHT) == [102] && Count(RIGHT, sc.view).active == {102}
            && Count(LEFT, sc.view).desired == Count(RIGHT, sc.view).desired == 1
  {
    SharedFleetValid(a, sup);
    OneOfEachStopped(SharedFleet(a, sup), LEFT, 0, availMib, w, current);
    OneOfEachStopped(SharedFleet(a, sup), RIGHT, 1, availMib, w, current);
  }

  lemma OneOfEachStopped(f: Fleet, p: Pool, i: nat, availMib: u64, w: World, current: string)
    requires f.supervisor.idleTimeoutSeconds == 900
    requires (p == LEFT && i == 0) || (p == RIGHT && i == 1)
    ensures var sc := SecondScene(f, ONE_EACH, BOTH_UNITS, availMib, w, current);
            && Stopped(sc, p) == [p.slotBase] && Count(p, sc.view).active == {p.slotBase as nat}
            && Count(p, sc.view).desired == 1
  {
    SecondSceneLaw(f, ONE_EACH, BOTH_UNITS, availMib, w, current);
    BothUnitsSeen();
    OneOfEachCounted(p, i);
    OnlyUnitStopped(SecondScene(f, ONE_EACH, BOTH_UNITS, availMib, w, current), p, p.slotBase, ONE_EACH[i]);
  }

  lemma OneOfEachCounted(p: Pool, i: nat)
    requires (p == LEFT && i == 0) || (p == RIGHT && i == 1)
    ensures var t := Count(p, View(ONE_EACH, map[], {101, 102}));
            && SlotOfVm(p.name, ONE_EACH[i].name) == Some(p.slotBase)
            && t.active == {p.slotBase as nat} && t.desired == 1 && t.Deficit() == -1 && ONE_EACH[i] in t.idle
            && forall r :: r in t.idle ==> r in ONE_EACH && IsIdle(r)
  {
    OneEachReads();
    PairCounted(p, ONE_EACH[0], ONE_EACH[1], {101, 102});
    PairSplit(ONE_EACH[0], ONE_EACH[1]);
    assert ONE_EACH == [ONE_EACH[0], ONE_EACH[1]];
  }

  /** The cycle after, with the runners gone. */
  function ThirdScene(f: Fleet, availMib: u64, w: World, current: string): Scene
  {
    var m := NextMemory(f, FRESH, Sees(ONE_EACH, BOTH_UNITS, 0, availMib), false, current);
    SceneOf(f, NextMemory(f, m, Sees(ONE_EACH, BOTH_UNITS, 900, availMib), false, current),
            Sees([], [], 901, availMib), w, false)
  }

  lemma ThirdSceneLaw(f: Fleet, availMib: u64, w: World, current: string)
    ensures var sc := ThirdScene(f, availMib, w, current);
            sc.view == View([], map[], {}) && !sc.blocked && sc.maxLaunch == f.supervisor.maxLaunchPerPoll
  {
    assert ActiveSlots(Some([])) == {};
  }

  lemma EmptyCounted(p: Pool)
    requires p.minWarm == p.max == 1 && NoWrap(p)
    ensures var t := Count(p, View([], map[], {}));
            t.Deficit() == 1 && t.active == {} && FreeSlots(p, t.active) == [p.slotBase]
  {
    assert Demand(p.labels, map[]) == 0 by { NoDemand(p.labels); }
    assert {} * SlotSet(p) == {};
    assert SlotEnd(p) == p.slotBase + 1;
    assert FreeBelow(p.slotBase, p.slotBase, {}) == [];
  }

  lemma {:induction false} NoDemand(labels: seq<string>)
    ensures Demand(labels, map[]) == 0
  {
    if labels != [] { NoDemand(labels[1..]); }
  }

  /** ... whereupon, with the same demand, both launch again: the two pools flap. */
  lemma SharedLabelFlaps(a: Config.Admission, sup: Supervisor, w: World, availMib: u64, current: string, b: Budget)
    requires sup.idleTimeoutSeconds == 900 && b.launched < sup.maxLaunchPerPoll && b.headroom > 0
    ensures var f := SharedFleet(a, sup);
            var second, third := SecondScene(f, ONE_EACH, BOTH_UNITS, availMib, w, current),
                                 ThirdScene(f, availMib, w, current);
            && Valid(f)
            && Stopped(second, LEFT) == [101] && Stopped(second, RIGHT) == [102]
            && Picked(third, LEFT, b) == [101] && Picked(third, RIGHT, b) == [102]
  {
    SharedLabelStopsBoth(a, sup, w, availMib, current);
    var third := ThirdScene(SharedFleet(a, sup), availMib, w, current);
    ThirdSceneLaw(SharedFleet(a, sup), availMib, w, current);
    OnlySlotPicked(third, LEFT, b);
    OnlySlotPicked(third, RIGHT, b);
  }

  lemma OnlySlotPicked(sc: Scene, p: Pool, b: Budget)
    requires p.minWarm == p.max == 1 && NoWrap(p) && sc.view == View([], map[], {}) && !sc.blocked
    requires b.launched < sc.maxLaunch && b.headroom > 0
    ensures Picked(sc, p, b) == [p.slotBase]
  {
    EmptyCounted(p);
  }
}
