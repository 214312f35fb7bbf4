/** What holds over every run of the worker protocol, and the ways a VM can be left behind. */
module WorkerLaws {
  import opened Prelude
  import opened Naming
  import opened Config
  import opened WorkerProtocol
  import opened WorkerInvariant
  import Admission
  import Reclaim

  // ---------- what the laws ask of a configuration ----------

  /** Validation grants disjoint slots. What else a law below may ask for says, exactly: no name is
      read by two pools; no sweep of a slot goes after another slot's VM; no sweep goes after a base. The
      first implies the second. */
  lemma AcceptedFleet(f: Fleet)
    requires Valid(f)
    ensures DisjointSlots(f.pools)
    ensures Reclaim.StrangerPools(f.pools) <==> ReadByOne(f.pools)
    ensures PrefixesApart(f) <==> SweepsSpareOthers(f)
    ensures BasesApart(f) <==> SweepsSpareBases(f)
    ensures Reclaim.StrangerPools(f.pools) ==> PrefixesApart(f)
  {
    ValidMeansDisjoint(f);
    PairsRead(f.pools);
    SparesOthers(f);
    SparesBases(f);
    if Reclaim.StrangerPools(f.pools) { StrangersApart(f); }
  }

  ghost predicate ReadByOne(pools: seq<Pool>)
  {
    forall p, q :: p in pools && q in pools && p != q ==> NeverBoth(p.name, q.name)
  }

  ghost predicate NeverBoth(p: string, q: string) { forall vm :: !(SlotOfVm(p, vm).Some? && SlotOfVm(q, vm).Some?) }

  ghost predicate SweepsSpareOthers(f: Fleet)
  {
    forall id, jd, ts, pid, own :: Configured(f, id) && Configured(f, jd) && id != jd ==>
      var vm := VmName(jd.pool, jd.slot, ts, pid);
      own != vm ==> !Reclaim.SweepTarget(id.pool, id.slot, own, vm)
  }

  /** No base is named under a configured slot's prefix. */
  ghost predicate BasesApart(f: Fleet)
  {
    forall id, b :: Configured(f, id) && b in f.bases ==> !(SlotVmPrefix(id.pool, id.slot) <= b)
  }

  ghost predicate SweepsSpareBases(f: Fleet)
  {
    forall id, own, b :: Configured(f, id) && b in f.bases && own != b ==>
      !Reclaim.SweepTarget(id.pool, id.slot, own, b)
  }

  lemma PairsRead(pools: seq<Pool>)
    requires NamesDistinct(pools)
    ensures Reclaim.StrangerPools(pools) <==> ReadByOne(pools)
  {
    forall p, q | p in pools && q in pools
      ensures p != q ==> (Strangers(p.name, q.name) <==> NeverBoth(p.name, q.name))
      ensures p == q ==> Strangers(p.name, q.name)
    {
      if p != q {
        assert p.name != q.name;
        StrangersExact(p.name, q.name);
      }
    }
  }

  lemma SparesOthers(f: Fleet)
    ensures PrefixesApart(f) <==> SweepsSpareOthers(f)
  {
    if PrefixesApart(f) {
      forall id, jd, ts, pid | Configured(f, id) && Configured(f, jd) && id != jd
        ensures !(SlotVmPrefix(id.pool, id.slot) <= VmName(jd.pool, jd.slot, ts, pid))
      {
        assert !Captures(id.pool, id.slot, jd.pool, jd.slot, ts);
        PrefixCaptures(id.pool, id.slot, jd.pool, jd.slot, ts, pid);
      }
    }
    if SweepsSpareOthers(f) {
      forall id, jd, ts | Configured(f, id) && Configured(f, jd) && id != jd
        ensures !Captures(id.pool, id.slot, jd.pool, jd.slot, ts)
      {
        var vm := VmName(jd.pool, jd.slot, ts, 0);
        PrefixCaptures(id.pool, id.slot, jd.pool, jd.slot, ts, 0);
        assert vm + "x" != vm;
        assert !Reclaim.SweepTarget(id.pool, id.slot, vm + "x", vm);
      }
    }
  }

  lemma SparesBases(f: Fleet)
    ensures BasesApart(f) <==> SweepsSpareBases(f)
  {
    if SweepsSpareBases(f) {
      forall id, b | Configured(f, id) && b in f.bases ensures !(SlotVmPrefix(id.pool, id.slot) <= b) {
        assert b + "x" != b;
        assert !Reclaim.SweepTarget(id.pool, id.slot, b + "x", b);
      }
    }
  }

  lemma StrangersApart(f: Fleet)
    requires Reclaim.StrangerPools(f.pools)
    ensures PrefixesApart(f)
  {
    forall id, jd, ts | Configured(f, id) && Configured(f, jd) && id != jd
      ensures !Captures(id.pool, id.slot, jd.pool, jd.slot, ts)
    {
      var i :| 0 <= i < |f.pools| && f.pools[i].name == id.pool && id.slot in Slots(f.pools[i]);
      var j :| 0 <= j < |f.pools| && f.pools[j].name == jd.pool && jd.slot in Slots(f.pools[j]);
      assert f.pools[i] in f.pools && f.pools[j] in f.pools;
      StrangerPrefix(id.pool, id.slot, jd.pool, jd.slot, ts, 0);
      PrefixCaptures(id.pool, id.slot, jd.pool, jd.slot, ts, 0);
    }
  }

  // ---------- how many VMs ----------

  /** Each slot has at most one VM more than were made after failed sweeps of it since one was complete;
      where prefixes are apart these are all the VMs under its prefix. */
  lemma SlotLaw(f: Fleet, start: World, steps: seq<Step>, id: SlotId)
    requires GoodStart(f, start) && Configured(f, id)
    ensures var w := Run(f, start, steps);
            && |Owned(w, id)| <= 1 + w.Debt(id)
            && (PrefixesApart(f) ==> |Under(w.vms, id)| <= 1 + w.Debt(id))
  {
    var w := Run(f, start, steps);
    RunKeepsProcs(f, start, steps);
    RunKeepsSlots(f, start, steps);
    assert SlotBound(w, id);
    if PrefixesApart(f) {
      UnderIsOwned(f, w, id);
      SubsetSize(Under(w.vms, id), Owned(w, id));
    }
  }

  lemma UnderIsOwned(f: Fleet, w: World, id: SlotId)
    requires ProcsOk(f, w) && PrefixesApart(f) && Configured(f, id)
    ensures Under(w.vms, id) <= Owned(w, id)
  {
    forall v | v in Under(w.vms, id) ensures OwnedBy(w.procs, id, v) {
      if i :| Named(w.procs, i, v) {
        var p := w.procs[i];
        assert ProcAt(f, w, i);
        PrefixCaptures(id.pool, id.slot, p.pool, p.slot, p.ts, p.pid);
        assert id != p.Id() ==> !Captures(id.pool, id.slot, p.Id().pool, p.Id().slot, p.ts);
        assert p.Id() == id;
      }
    }
  }

  /** How the debt of a slot goes, exactly: a complete sweep of it clears it, and a VM made after a sweep that
      left something behind adds one. */
  lemma DebtExact(f: Fleet, w: World, i: nat, act: Act, id: SlotId)
    requires i < |w.procs| && Can(f, w, i, act)
    ensures var p, v := w.procs[i], Acted(f, w, i, act);
            v.Debt(id) ==
              if id != p.Id() then w.Debt(id)
              else if act.Sweep? && Targets(w.vms, p) !! act.left then 0
              else if (act.CloneOk? || (act.CloneErr? && act.made)) && p.owes then w.Debt(id) + 1
              else w.Debt(id)
    ensures act.Sweep? ==>
              var v := Acted(f, w, i, act);
              i < |v.procs| && (v.procs[i].owes <==> !(Targets(w.vms, w.procs[i]) !! act.left))
  {
    if act.Sweep? { LoseShape(Moved(f, w, i, act).procs, Targets(w.vms, w.procs[i]) - act.left); }
  }

  /** The VMs that carry the prefix of some configured slot. */
  function FleetVms(pools: seq<Pool>, vms: set<string>): set<string>
  {
    set v | v in vms &&
            exists k, s :: 0 <= k < |pools| && s in Slots(pools[k]) && s >= 0 && SlotVmPrefix(pools[k].name, s) <= v
  }

  function TotalMax(pools: seq<Pool>): nat
  {
    if pools == [] then 0 else TotalMax(pools[..|pools| - 1]) + pools[|pools| - 1].max
  }

  function AllSlots(pools: seq<Pool>): set<int>
  {
    if pools == [] then {} else AllSlots(pools[..|pools| - 1]) + Slots(pools[|pools| - 1])
  }

  lemma {:induction false} AllSlotsBound(pools: seq<Pool>)
    ensures |AllSlots(pools)| <= TotalMax(pools)
  {
    if pools != [] {
      AllSlotsBound(pools[..|pools| - 1]);
      SlotCount(pools[|pools| - 1]);
    }
  }

  lemma {:induction false} SlotAmongAll(pools: seq<Pool>, k: nat, s: int)
    requires k < |pools| && s in Slots(pools[k])
    ensures s in AllSlots(pools)
  {
    if k < |pools| - 1 { SlotAmongAll(pools[..|pools| - 1], k, s); }
  }

  /** One VM at most per slot bounds the fleet by the sum of the pool maxima. */
  lemma FleetBound(f: Fleet, w: World)
    requires DisjointSlots(f.pools) && ProcsOk(f, w)
    requires forall id :: Configured(f, id) ==> |Owned(w, id)| <= 1
    ensures |FleetVms(f.pools, w.vms)| <= TotalMax(f.pools)
  {
    var a := FleetVms(f.pools, w.vms);
    var tag := (v: string) => Tag(f, w, v);
    forall v | v in a ensures tag(v) in AllSlots(f.pools) {
      var k := SomePool(f, w, v);
      SlotAmongAll(f.pools, k, Tag(f, w, v));
    }
    forall v, u | v in a && u in a && tag(v) == tag(u) ensures v == u {
      OneVmPerTag(f, w, v, u);
    }
    InjectionSize(a, tag, AllSlots(f.pools));
    AllSlotsBound(f.pools);
  }

  /** A configured slot that the VM counts for. */
  ghost function Tag(f: Fleet, w: World, v: string): nat
  {
    if s: nat :| CountsFor(f, w, s, v) then s else 0
  }

  ghost predicate CountsFor(f: Fleet, w: World, s: nat, v: string)
  {
    exists k :: 0 <= k < |f.pools| && s in Slots(f.pools[k]) && OwnedBy(w.procs, SlotId(f.pools[k].name, s), v)
  }

  lemma SomePool(f: Fleet, w: World, v: string) returns (k: nat)
    requires ProcsOk(f, w) && v in FleetVms(f.pools, w.vms)
    ensures k < |f.pools| && Tag(f, w, v) in Slots(f.pools[k])
    ensures OwnedBy(w.procs, SlotId(f.pools[k].name, Tag(f, w, v)), v)
  {
    if i :| Named(w.procs, i, v) {
      assert ProcAt(f, w, i);
      var id := w.procs[i].Id();
      assert OwnedBy(w.procs, id, v);
      assert CountsFor(f, w, id.slot, v);
    } else {
      var i, s :| 0 <= i < |f.pools| && s in Slots(f.pools[i]) && s >= 0 && SlotVmPrefix(f.pools[i].name, s) <= v;
      assert OwnedBy(w.procs, SlotId(f.pools[i].name, s), v);
      assert CountsFor(f, w, s, v);
    }
    assert CountsFor(f, w, Tag(f, w, v), v);
    k :| 0 <= k < |f.pools| && Tag(f, w, v) in Slots(f.pools[k])
         && OwnedBy(w.procs, SlotId(f.pools[k].name, Tag(f, w, v)), v);
  }

  lemma OneVmPerTag(f: Fleet, w: World, v: string, u: string)
    requires DisjointSlots(f.pools) && ProcsOk(f, w)
    requires v in FleetVms(f.pools, w.vms) && u in FleetVms(f.pools, w.vms)
    requires forall id :: Configured(f, id) ==> |Owned(w, id)| <= 1
    requires Tag(f, w, v) == Tag(f, w, u)
    ensures v == u
  {
    var k := SomePool(f, w, v);
    var l := SomePool(f, w, u);
    OnePoolPerSlot(f.pools, k, l, Tag(f, w, v));
    var id := SlotId(f.pools[k].name, Tag(f, w, v));
    assert Configured(f, id);
    OneMember(Owned(w, id), v, u);
  }

  predicate SweepsComplete(steps: seq<Step>)
  {
    forall n :: 0 <= n < |steps| && steps[n].Do? && steps[n].act.Sweep? ==> steps[n].act.left == {}
  }

  predicate NothingOwed(w: World, id: SlotId)
  {
    w.Debt(id) == 0 && forall i :: 0 <= i < |w.procs| ==> !w.procs[i].owes
  }

  lemma StepOwesNothing(f: Fleet, w: World, step: Step, id: SlotId)
    requires NothingOwed(w, id) && (step.Do? && step.act.Sweep? ==> step.act.left == {})
    ensures NothingOwed(Next(f, w, step), id)
  {
    match step
    case Gc(seen, left) => LoseShape(w.procs, GcTargets(f, w, seen) - left);
    case Do(i, act) =>
      if i < |w.procs| && Can(f, w, i, act) && act.Sweep? {
        LoseShape(Moved(f, w, i, act).procs, Targets(w.vms, w.procs[i]) - act.left);
      }
    case _ =>
  }

  lemma {:induction false} CompleteSweepsOweNothing(f: Fleet, start: World, steps: seq<Step>, id: SlotId)
    requires SweepsComplete(steps) && start.procs == [] && start.Debt(id) == 0
    ensures NothingOwed(Run(f, start, steps), id)
  {
    if steps != [] {
      var init := steps[..|steps| - 1];
      assert forall n :: 0 <= n < |init| ==> init[n] == steps[n];
      CompleteSweepsOweNothing(f, start, init, id);
      StepOwesNothing(f, Run(f, start, init), steps[|steps| - 1], id);
    }
  }

  /** While sweeps do not fail, no interleaving, crash, gc or failed cleanup makes the fleet outgrow the
      sum of its pool maxima, or a slot have two VMs. */
  lemma FleetLaw(f: Fleet, start: World, steps: seq<Step>)
    requires DisjointSlots(f.pools) && GoodStart(f, start) && SweepsComplete(steps)
    requires forall id :: Configured(f, id) ==> start.Debt(id) == 0
    ensures |FleetVms(f.pools, Run(f, start, steps).vms)| <= TotalMax(f.pools)
    ensures forall id :: Configured(f, id) ==>
              && |Owned(Run(f, start, steps), id)| <= 1
              && (PrefixesApart(f) ==> |Under(Run(f, start, steps).vms, id)| <= 1)
  {
    var w := Run(f, start, steps);
    forall id | Configured(f, id)
      ensures |Owned(w, id)| <= 1 && (PrefixesApart(f) ==> |Under(w.vms, id)| <= 1)
    {
      SlotLaw(f, start, steps, id);
      CompleteSweepsOweNothing(f, start, steps, id);
    }
    RunKeepsProcs(f, start, steps);
    FleetBound(f, w);
  }

  // ---------- cleanup ----------

  predicate Within(p: Proc, t: Thread) { p.Position(t).Some? && p.Position(t).value.Inside() }

  /** The cleanup body is entered at most once per process, so never by both threads, whatever the
      configuration. */
  lemma CleanupOnce(f: Fleet, start: World, steps: seq<Step>, i: nat)
    requires start.procs == [] && i < |Run(f, start, steps).procs|
    ensures var p := Run(f, start, steps).procs[i];
            p.entries <= 1 && !(Within(p, MainThread) && Within(p, SignalThread))
  {
    RunKeepsProcs(f, start, steps);
    assert ProcAt(f, Run(f, start, steps), i);
  }

  /** When a process ends by itself its VM is left exactly when it was made, no one else took it, and
      one of the recorded mishaps befell it; when it is killed, exactly when it was made and neither it
      nor anyone else has purged it. */
  lemma ExitLaw(f: Fleet, start: World, steps: seq<Step>, i: nat, act: Act)
    requires start.procs == [] && i < |Run(f, start, steps).procs|
    requires act.EndMain? || act.EndSignal? || act.Kill?
    requires Can(f, Run(f, start, steps), i, act)
    ensures var w := Run(f, start, steps); var v := Next(f, w, Do(i, act)); var p, q := w.procs[i], v.procs[i];
            && !q.alive && q.Name() == p.Name()
            && (p.Name() in v.vms <==>
                  Made(p) && Taken !in p.marks && if act.Kill? then Unpurged(p) else q.marks != {})
  {
    var w := Run(f, start, steps);
    RunKeepsProcs(f, start, steps);
    assert ProcAt(f, w, i);
    LocalExit(f, w, w.procs[i], w.procs[i].Name() in w.vms, act);
  }

  lemma LocalExit(f: Fleet, w: World, p: Proc, present: bool, act: Act)
    requires ProcOk(p, present) && p.alive
    requires act.EndMain? || act.EndSignal? || act.Kill?
    requires act.EndMain? ==> p.main == Leaving(Finished)
    requires act.EndSignal? ==> p.signal == Caught(Finished)
    ensures present <==>
            Made(p) && Taken !in p.marks && if act.Kill? then Unpurged(p) else ProcAfter(f, w, p, act).marks != {}
  {
    var q := ProcAfter(f, w, p, act);
    if !act.Kill? {
      var other := if act.EndMain? then SignalThread else MainThread;
      assert q.marks == p.marks + if YetToPurge(p, other) then {CutShort} else {};
      assert p.cleaner.Some? && (YetToPurge(p, other) <==> YetToPurge(p, p.cleaner.value));
      assert YetToPurge(p, other) ==> CutShort in q.marks;
      if p.marks != {} && Taken !in p.marks {
        var m :| m in p.marks;
        assert m in q.marks && m != Killed && m != CutShort && m != Taken;
        assert m == EarlyRead || m == PurgeFailed || m == CloneLied;
      }
    }
  }

  /** A VM that outlives its process was made by it, has a reason on record, and carries the prefix
      of a configured slot. */
  lemma Survivors(f: Fleet, start: World, steps: seq<Step>, i: nat)
    requires start.procs == [] && i < |Run(f, start, steps).procs|
    ensures var w := Run(f, start, steps); var p := w.procs[i];
            !p.alive && p.Name() in w.vms ==>
              && Made(p) && Taken !in p.marks && p.marks != {}
              && p.Name() in Under(w.vms, p.Id()) && Configured(f, p.Id())
  {
    var w := Run(f, start, steps);
    RunKeepsProcs(f, start, steps);
    assert ProcAt(f, w, i);
    var p := w.procs[i];
    OwnPrefix(p.pool, p.slot, p.ts, p.pid);
  }

  /** A survivor goes with the slot's next complete sweep, or with a gc that does not see it. */
  lemma SurvivorsReclaimed(f: Fleet, start: World, steps: seq<Step>, i: nat, step: Step)
    requires start.procs == [] && i < |Run(f, start, steps).procs|
    requires var w := Run(f, start, steps); var p := w.procs[i];
             && !p.alive
             && (|| UnseenGc(f, p, step)
                 || (step.Do? && step.act.Sweep? && p.Name() !in step.act.left && step.proc < |w.procs|
                     && Can(f, w, step.proc, step.act) && w.procs[step.proc].Id() == p.Id()))
    ensures var w := Run(f, start, steps); w.procs[i].Name() !in Next(f, w, step).vms
  {
    var w := Run(f, start, steps);
    var p := w.procs[i];
    RunKeepsProcs(f, start, steps);
    OwnPrefix(p.pool, p.slot, p.ts, p.pid);
    if step.Gc? {
      assert ProcAt(f, w, i);
      GcTakesUnseen(f, w, i, step.seen);
    } else {
      var q := w.procs[step.proc];
      assert p.Name() != q.Name();
      assert q.Prefix() == p.Prefix();
    }
  }

  /** What takes away the VM of a live process, exactly: its own cleanup's purge, a gc to which it is
      unseen, or a sweep of another slot whose prefix captures it; the last only where prefixes are not
      apart. In the last two cases the process is marked. */
  lemma LiveVmKept(f: Fleet, start: World, steps: seq<Step>, i: nat, step: Step)
    requires start.procs == [] && i < |Run(f, start, steps).procs|
    requires var w := Run(f, start, steps); w.procs[i].alive && w.procs[i].Name() in w.vms
    ensures var w := Run(f, start, steps); var v := Next(f, w, step);
            && (w.procs[i].Name() !in v.vms <==>
                  OwnPurge(w.procs[i], i, step) || UnseenGc(f, w.procs[i], step) || ForeignSweep(f, w, i, step))
            && i < |v.procs|
            && (UnseenGc(f, w.procs[i], step) || ForeignSweep(f, w, i, step) ==>
                  v.procs[i].alive && Taken in v.procs[i].marks)
            && (PrefixesApart(f) ==> !ForeignSweep(f, w, i, step))
  {
    var w := Run(f, start, steps);
    RunKeepsProcs(f, start, steps);
    match step
    case Do(j, act) =>
      if j < |w.procs| && Can(f, w, j, act) {
        if act.Sweep? { SweepTakes(f, w, i, j, act.left); } else { ActTakes(f, w, i, j, act); }
      }
    case Gc(seen, left) => GcTakes(f, w, i, seen, left);
    case _ =>
  }

  lemma ActTakes(f: Fleet, w: World, i: nat, j: nat, act: Act)
    requires ProcsOk(f, w) && i < |w.procs| && w.procs[i].alive && w.procs[i].Name() in w.vms
    requires j < |w.procs| && Can(f, w, j, act) && !act.Sweep?
    ensures w.procs[i].Name() !in Moved(f, w, j, act).vms <==> OwnPurge(w.procs[i], i, Do(j, act))
  {
    assert i != j ==> w.procs[i].Name() != w.procs[j].Name();
  }

  lemma SweepTakes(f: Fleet, w: World, i: nat, j: nat, left: set<string>)
    requires ProcsOk(f, w) && i < |w.procs| && w.procs[i].alive && w.procs[i].Name() in w.vms
    requires j < |w.procs| && Can(f, w, j, Sweep(left))
    ensures var v, step := Acted(f, w, j, Sweep(left)), Do(j, Sweep(left));
            && (w.procs[i].Name() !in v.vms <==> ForeignSweep(f, w, i, step))
            && |v.procs| == |w.procs|
            && (ForeignSweep(f, w, i, step) ==> v.procs[i].alive && Taken in v.procs[i].marks)
            && (PrefixesApart(f) ==> !ForeignSweep(f, w, i, step))
  {
    var p, q := w.procs[i], w.procs[j];
    PrefixCaptures(q.pool, q.slot, p.pool, p.slot, p.ts, p.pid);
    LoseShape(Moved(f, w, j, Sweep(left)).procs, Targets(w.vms, q) - left);
    if i != j {
      assert p.Name() != q.Name() && ProcAt(f, w, i) && ProcAt(f, w, j);
      OtherSlot(w, i, j);
      if PrefixesApart(f) { assert !Captures(q.Id().pool, q.Id().slot, p.Id().pool, p.Id().slot, p.ts); }
    }
  }

  lemma GcTakes(f: Fleet, w: World, i: nat, seen: set<nat>, left: set<string>)
    requires ProcsOk(f, w) && i < |w.procs| && w.procs[i].alive && w.procs[i].Name() in w.vms
    ensures var v := Next(f, w, Gc(seen, left));
            && (w.procs[i].Name() !in v.vms <==> UnseenGc(f, w.procs[i], Gc(seen, left)))
            && |v.procs| == |w.procs|
            && (UnseenGc(f, w.procs[i], Gc(seen, left)) ==> v.procs[i].alive && Taken in v.procs[i].marks)
  {
    assert ProcAt(f, w, i);
    GcTakesUnseen(f, w, i, seen);
    LoseShape(w.procs, GcTargets(f, w, seen) - left);
  }

  /** A sweep by another process whose slot's prefix captures the VM, and whose purge succeeds. */
  predicate ForeignSweep(f: Fleet, w: World, i: nat, step: Step)
    requires i < |w.procs|
  {
    && step.Do? && step.act.Sweep? && step.proc < |w.procs| && step.proc != i && Can(f, w, step.proc, step.act)
    && w.procs[i].Name() !in step.act.left
    && var p, q := w.procs[i], w.procs[step.proc]; Captures(q.pool, q.slot, p.pool, p.slot, p.ts)
  }

  predicate OwnPurge(p: Proc, i: nat, step: Step)
  {
    && step.Do? && step.proc == i && step.act.Clean? && step.act.purgeOk
    && p.Position(step.act.thread) == Some(AtPurge(true))
  }

  /** A gc that sees no active unit for the slot it reads from the process's VM, and whose purge of it
      succeeds; the name is no base's. */
  predicate UnseenGc(f: Fleet, p: Proc, step: Step)
  {
    step.Gc? && SeenAs(f, p) !in step.seen && p.Name() !in f.bases && p.Name() !in step.left
  }

  /** Which workers' VMs the code of gc goes after, for every unit listing and every VM listing: those
      listed whose slot, as it reads it, is that of no listed unit. Among strangers it reads the slot
      right; a failed unit listing shows no slot at all. */
  lemma GcTakesLiveExact(f: Fleet, start: World, steps: seq<Step>, i: nat, units: Option<seq<string>>,
                         listing: seq<string>)
    requires start.procs == [] && i < |Run(f, start, steps).procs|
    ensures var p := Run(f, start, steps).procs[i];
            && (p.Name() in Reclaim.Orphans(f, ActiveSlots(units), listing) <==>
                  p.Name() in listing && SeenAs(f, p) !in ActiveSlots(units) && p.Name() !in f.bases)
            && (Reclaim.StrangerPools(f.pools) ==> SeenAs(f, p) == p.slot)
    ensures ActiveSlots(None) == {}
  {
    var w := Run(f, start, steps);
    var p := w.procs[i];
    RunKeepsProcs(f, start, steps);
    assert ProcAt(f, w, i);
    var all := w.(vms := w.vms + {p.Name()});
    GcTakesUnseen(f, all, i, ActiveSlots(units));
    Reclaim.OrphansExact(f, ActiveSlots(units), listing, p.Name());
  }

  /** A worker past its clone that no signal has reached has its VM, unless someone else has taken it. */
  lemma ServingHasVm(f: Fleet, start: World, steps: seq<Step>, i: nat)
    requires start.procs == [] && i < |Run(f, start, steps).procs|
    ensures var w := Run(f, start, steps); var p := w.procs[i];
            p.alive && p.HasVm() && p.signal.Listening? ==> (p.Name() in w.vms <==> Taken !in p.marks)
  {
    RunKeepsProcs(f, start, steps);
    assert ProcAt(f, Run(f, start, steps), i);
  }

  /** No step ever removes a base, if none is named under a slot's prefix. */
  lemma BasesKept(f: Fleet, start: World, steps: seq<Step>, step: Step, base: string)
    requires BasesApart(f) && start.procs == []
    requires base in f.bases && base in Run(f, start, steps).vms
    ensures base in Next(f, Run(f, start, steps), step).vms
  {
    var w := Run(f, start, steps);
    RunKeepsProcs(f, start, steps);
    if step.Do? && step.proc < |w.procs| && Can(f, w, step.proc, step.act) {
      var p := w.procs[step.proc];
      assert ProcAt(f, w, step.proc);
      OwnPrefix(p.pool, p.slot, p.ts, p.pid);
      assert !(SlotVmPrefix(p.Id().pool, p.Id().slot) <= base);
    }
  }

  // ---------- the reclaimers' code and their steps ----------

  /** What `SweepLeftovers` does to the VMs is a sweep step, and a complete one when the listing
      shows every VM and no purge of a target fails. */
  lemma SweepIsStep(vms: set<string>, p: Proc, stateFile: Option<string>, listing: Option<seq<string>>,
                    wedged: set<string>) returns (left: set<string>)
    requires Elems(listing.GetOr([])) <= vms
    ensures vms - (Targets(vms, p) - left) ==
            vms - ((set x | x in Reclaim.Heard(stateFile, listing) && x != p.Name()
                            && SlotVmPrefix(p.pool, p.slot) <= x) - wedged)
    ensures (forall v :: v in Targets(vms, p) ==> v in Elems(listing.GetOr([])) && v !in wedged) ==>
              Targets(vms, p) !! left
  {
    left := vms - ((set x | x in Reclaim.Heard(stateFile, listing) && x != p.Name()
                            && SlotVmPrefix(p.pool, p.slot) <= x) - wedged);
  }

  /** What `Gc` does to the VMs is a gc step, for every unit listing and every VM listing: it sees the
      slots of the listed units, and leaves what is not listed or will not go. */
  lemma GcIsStep(f: Fleet, w: World, units: Option<seq<string>>, listing: seq<string>, wedged: set<string>)
    ensures var left := wedged + (w.vms - Elems(listing));
            Next(f, w, Gc(ActiveSlots(units), left)).vms
            == w.vms - (Elems(Reclaim.Orphans(f, ActiveSlots(units), listing)) - wedged)
  {
    var seen := ActiveSlots(units);
    forall v ensures v in Elems(Reclaim.Orphans(f, seen, listing)) && v in w.vms <==>
                     v in GcTargets(f, w, seen) && v in listing
    {
      Reclaim.OrphansExact(f, seen, listing, v);
    }
  }

  // ---------- the launch lock ----------

  /** At most one process is between taking the launch lock and dropping it, and a grant is made by
      that process on an unblocked host. */
  lemma OneLauncher(f: Fleet, start: World, steps: seq<Step>, i: nat, j: nat)
    requires BareStart(start)
    requires i < |Run(f, start, steps).procs| && j < |Run(f, start, steps).procs|
    requires var w := Run(f, start, steps); w.procs[i].alive && w.procs[i].Critical()
    ensures var w := Run(f, start, steps);
            && w.lock == Some(i)
            && (w.procs[j].alive && w.procs[j].Critical() ==> i == j)
            && (forall probe :: Can(f, w, j, Grant(probe)) ==> i == j && Admission.Decide(probe, f.admission).None?)
            && (Can(f, w, j, StartVm) || Can(f, w, j, CloneOk) ==> i == j)
  {
    var w := Run(f, start, steps);
    RunKeepsLock(f, start, steps);
    assert HolderAt(w, i) && HolderAt(w, j);
  }

  /** After a start that settled, the next start waits at least the settle time. */
  lemma SettleLaw(f: Fleet, start: World, steps: seq<Step>, a: nat, b: nat)
    requires BareStart(start) && a < b < |Run(f, start, steps).starts|
    ensures var starts := Run(f, start, steps).starts;
            && starts[a].at <= starts[b].at
            && (starts[a].settled ==> starts[a].at + f.admission.settleSeconds <= starts[b].at)
  {
    RunKeepsLock(f, start, steps);
  }

  // ---------- the windows ----------

  /** A worker about to begin, on a free lock. */
  predicate Fresh(w: World, i: nat)
  {
    && i < |w.procs| && w.lock.None? && w.procs[i].Name() !in w.vms
    && w.procs[i] == NewProc(w.procs[i].pool, w.procs[i].slot, w.procs[i].ts, w.procs[i].pid)
  }

  /** The process is over, its VM is still there, and `why` is all that went wrong. */
  predicate LeftBehind(w: World, i: nat, why: Mark)
  {
    i < |w.procs| && !w.procs[i].alive && w.procs[i].Name() in w.vms && w.procs[i].marks == {why}
  }

  lemma Then(f: Fleet, w: World, steps: seq<Step>, i: nat, act: Act) returns (more: seq<Step>, v: World)
    requires i < |Run(f, w, steps).procs| && Can(f, Run(f, w, steps), i, act)
    ensures more == steps + [Do(i, act)]
    ensures v == Run(f, w, more) == Acted(f, Run(f, w, steps), i, act)
  {
    more := steps + [Do(i, act)];
    assert more[..|more| - 1] == steps;
    v := Run(f, w, more);
  }

  /** The other processes are where they were; one without a VM is untouched. */
  predicate OthersGoOn(w: World, v: World, i: nat)
  {
    && |v.procs| == |w.procs|
    && forall k :: 0 <= k < |w.procs| && k != i ==>
         && v.procs[k].main == w.procs[k].main && v.procs[k].alive == w.procs[k].alive
         && (w.procs[k].Name() !in w.vms ==> v.procs[k] == w.procs[k])
  }

  lemma Begin(f: Fleet, w: World, i: nat, probe: Admission.Probe) returns (steps: seq<Step>, v: World)
    requires Fresh(w, i) && Admission.Decide(probe, f.admission).None?
    ensures v == Run(f, w, steps) && |v.procs| == |w.procs|
    ensures v.procs[i] == w.procs[i].(main := Admitted) && v.lock == Some(i)
    ensures w.procs[i].Name() !in v.vms && v.vms <= w.vms
    ensures v.now == w.now && v.starts == w.starts && OthersGoOn(w, v, i)
  {
    steps, v := Then(f, w, [], i, Sweep({}));
    LoseShape(Moved(f, w, i, Sweep({})).procs, Targets(w.vms, w.procs[i]) - {});
    steps, v := Then(f, w, steps, i, TakeLock);
    steps, v := Then(f, w, steps, i, Grant(probe));
  }

  /** First window: the signal thread loads `created` between the clone and the store. */
  lemma EarlyReadLeaks(f: Fleet, w: World, i: nat, probe: Admission.Probe) returns (steps: seq<Step>)
    requires Fresh(w, i) && Admission.Decide(probe, f.admission).None?
    ensures LeftBehind(Run(f, w, steps), i, EarlyRead)
  {
    var v;
    steps, v := Begin(f, w, i, probe);
    steps, v := Then(f, w, steps, i, CloneOk);
    steps, v := SignalLoads(f, w, i, steps);
    steps, v := Then(f, w, steps, i, Store);
    steps := SignalGivesUp(f, w, i, steps);
  }

  lemma SignalGivesUp(f: Fleet, w: World, i: nat, before: seq<Step>) returns (steps: seq<Step>)
    requires i < |Run(f, w, before).procs|
    requires var p := Run(f, w, before).procs[i];
             && p.alive && p.main.Created? && p.signal == Caught(AtPurge(false)) && p.marks == {EarlyRead}
             && p.Name() in Run(f, w, before).vms
    ensures LeftBehind(Run(f, w, steps), i, EarlyRead)
  {
    var v;
    steps, v := Then(f, w, before, i, Clean(SignalThread, true));
    steps, v := Then(f, w, steps, i, Clean(SignalThread, true));
    steps, v := Then(f, w, steps, i, EndSignal);
  }

  /** The signal thread gets as far as loading `created`, too early. */
  lemma SignalLoads(f: Fleet, w: World, i: nat, before: seq<Step>) returns (steps: seq<Step>, v: World)
    requires i < |Run(f, w, before).procs|
    requires var p := Run(f, w, before).procs[i];
             p.alive && p.main.Cloned? && p.signal.Listening? && p.cleaner.None? && !p.created
    ensures v == Run(f, w, steps) && |v.procs| == |Run(f, w, before).procs|
    ensures v.vms == Run(f, w, before).vms
    ensures v.procs[i] == EarlyLoaded(Run(f, w, before).procs[i])
  {
    var p := Run(f, w, before).procs[i];
    steps, v := Then(f, w, before, i, Catch);
    assert v.procs[i] == p.(signal := Caught(AtSwap));
    steps, v := Then(f, w, steps, i, Clean(SignalThread, true));
    steps, v := Then(f, w, steps, i, Clean(SignalThread, true));
    steps, v := Then(f, w, steps, i, Clean(SignalThread, true));
  }

  function EarlyLoaded(p: Proc): Proc
  {
    p.(signal := Caught(AtPurge(false)), cleaner := Some(SignalThread),
       entries := p.entries + 1, marks := p.marks + {EarlyRead})
  }

  lemma Booted(f: Fleet, w: World, i: nat, probe: Admission.Probe) returns (steps: seq<Step>, v: World)
    requires Fresh(w, i) && Admission.Decide(probe, f.admission).None?
    ensures v == Run(f, w, steps) && |v.procs| == |w.procs|
    ensures v.procs[i] == w.procs[i].(main := Created, created := true)
    ensures w.procs[i].Name() in v.vms && v.vms <= w.vms + {w.procs[i].Name()} && v.lock == Some(i)
    ensures v.now == w.now && v.starts == w.starts && OthersGoOn(w, v, i)
  {
    steps, v := Begin(f, w, i, probe);
    steps, v := Then(f, w, steps, i, CloneOk);
    steps, v := Then(f, w, steps, i, Store);
  }

  /** Second window: the main thread finds the cleanup begun and ends the process under it. */
  lemma MainCutsShort(f: Fleet, w: World, i: nat, probe: Admission.Probe) returns (steps: seq<Step>)
    requires Fresh(w, i) && Admission.Decide(probe, f.admission).None?
    ensures LeftBehind(Run(f, w, steps), i, CutShort)
  {
    var v;
    steps, v := Booted(f, w, i, probe);
    steps, v := Then(f, w, steps, i, Catch);
    steps, v := Then(f, w, steps, i, Clean(SignalThread, true));
    steps, v := Then(f, w, steps, i, Fail);
    steps, v := Then(f, w, steps, i, Clean(MainThread, true));
    steps, v := Then(f, w, steps, i, EndMain);
  }

  /** Third window: a signal during the main thread's own cleanup ends the process under it. */
  lemma SignalCutsShort(f: Fleet, w: World, i: nat, probe: Admission.Probe) returns (steps: seq<Step>)
    requires Fresh(w, i) && Admission.Decide(probe, f.admission).None?
    ensures LeftBehind(Run(f, w, steps), i, CutShort)
  {
    var v;
    steps, v := Booted(f, w, i, probe);
    steps, v := Then(f, w, steps, i, Fail);
    steps, v := Then(f, w, steps, i, Clean(MainThread, true));
    steps, v := Then(f, w, steps, i, Catch);
    steps, v := Then(f, w, steps, i, Clean(SignalThread, true));
    steps, v := Then(f, w, steps, i, EndSignal);
  }

  /** A failed unit listing: gc takes the VM from under a live worker. */
  lemma FailedListingTakesVm(f: Fleet, w: World, i: nat, probe: Admission.Probe) returns (steps: seq<Step>)
    requires Fresh(w, i) && Admission.Decide(probe, f.admission).None?
    requires Configured(f, w.procs[i].Id()) && w.procs[i].Name() !in f.bases
    ensures var v := Run(f, w, steps);
            && i < |v.procs| && v.procs[i].alive && v.procs[i].HasVm() && v.procs[i].Name() !in v.vms
            && v.procs[i].marks == {Taken}
  {
    var v;
    steps, v := Booted(f, w, i, probe);
    var gc := Gc(ActiveSlots(None), {});
    GcTakesUnseen(f, v, i, ActiveSlots(None));
    LoseShape(v.procs, GcTargets(f, v, ActiveSlots(None)));
    assert GcTargets(f, v, ActiveSlots(None)) - {} == GcTargets(f, v, ActiveSlots(None));
    assert (steps + [gc])[..|steps|] == steps;
    steps := steps + [gc];
  }
}
