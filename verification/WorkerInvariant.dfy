/** What every step of the worker protocol keeps, whatever the interleaving, the failures and the
    kills. */
module WorkerInvariant {
  import opened Prelude
  import opened Naming
  import opened Config
  import opened WorkerProtocol
  import Reclaim

  // ---------- one process ----------

  /** The process's VM has been made at some time. */
  predicate Made(p: Proc) { p.created || p.main.Cloned? || CloneLied in p.marks }

  /** No purge of the process's VM has succeeded: the cleanup body has not got there, or found no
      VM recorded, or failed at it. */
  predicate Unpurged(p: Proc)
  {
    || p.cleaner.None? || YetToPurge(p, p.cleaner.value)
    || EarlyRead in p.marks || PurgeFailed in p.marks || CloneLied in p.marks
  }

  /** The thread `t` runs, or has run, the cleanup body, and stands at `c`. */
  predicate BodyOk(p: Proc, t: Thread, c: Cleanup)
  {
    && !c.AtSwap?
    && (c == AtPurge(true) ==> p.created && EarlyRead !in p.marks)
    && (c == AtPurge(false) ==> EarlyRead in p.marks || (t.MainThread? && !p.created))
    && (PurgeFailed in p.marks ==> p.created && EarlyRead !in p.marks && !c.BeforePurge())
    && (EarlyRead in p.marks ==> t.SignalThread? && !c.AtDeregister? && !c.AtLoad?)
    && (t.SignalThread? && !c.AtDeregister? && !c.AtLoad? ==> EarlyRead in p.marks || p.created)
  }

  predicate Outside(c: Option<Cleanup>) { c.None? || c.value.AtSwap? }

  predicate ThreadsOk(p: Proc)
  {
    match p.cleaner
    case None =>
      && p.entries == 0 && EarlyRead !in p.marks && PurgeFailed !in p.marks
      && Outside(p.Position(MainThread)) && Outside(p.Position(SignalThread))
    case Some(t) =>
      var other := if t.MainThread? then SignalThread else MainThread;
      && p.entries == 1
      && p.Position(t).Some? && BodyOk(p, t, p.Position(t).value)
      && (Outside(p.Position(other)) || p.Position(other).value.Finished?)
  }

  /** What holds of a process whatever the VMs. */
  predicate LocalOk(p: Proc)
  {
    && ThreadsOk(p)
    && (p.BeforeClone() || p.main.Cloned? ==> !p.created)
    && (p.main.Created? || p.main.Settling? || p.main.Serving? ==> p.created)
    && (CloneLied in p.marks ==> p.main.Leaving? && !p.created)
    && (p.alive ==> Killed !in p.marks && CutShort !in p.marks)
  }

  /** When the process's VM exists: while it lives, exactly when the VM was made and neither it nor gc
      has purged it. */
  predicate PresenceOk(p: Proc, present: bool)
  {
    if p.alive then (present <==> Made(p) && Unpurged(p) && Taken !in p.marks) && (Taken in p.marks ==> Made(p))
    else present ==> Made(p) && Taken !in p.marks && p.marks != {}
  }

  predicate ProcOk(p: Proc, present: bool) { LocalOk(p) && PresenceOk(p, present) }

  predicate PresentAfter(p: Proc, present: bool, act: Act)
  {
    match act
    case CloneOk => true
    case CloneErr(made) => made || present
    case Clean(t, ok) => present && !(p.Position(t) == Some(AtPurge(true)) && ok)
    case _ => present
  }

  lemma OwnPresence(vms: set<string>, p: Proc, act: Act)
    ensures p.Name() in VmsAfter(vms, p, act) <==> PresentAfter(p, p.Name() in vms, act)
  {
  }

  predicate CanClean(p: Proc, t: Thread) { p.alive && p.Position(t).Some? && !p.Position(t).value.Finished? }

  lemma EnterKeepsLocal(p: Proc, t: Thread, ok: bool)
    requires LocalOk(p) && CanClean(p, t)
    requires p.Position(t).value.AtSwap? || p.Position(t).value.AtDeregister?
    ensures LocalOk(CleanStep(p, t, ok))
  {
  }

  lemma PurgeKeepsLocal(p: Proc, t: Thread, ok: bool)
    requires LocalOk(p) && CanClean(p, t)
    requires !p.Position(t).value.AtSwap? && !p.Position(t).value.AtDeregister?
    ensures LocalOk(CleanStep(p, t, ok))
  {
  }

  lemma ActKeepsLocal(f: Fleet, w: World, i: nat, act: Act)
    requires i < |w.procs| && Can(f, w, i, act) && LocalOk(w.procs[i])
    ensures LocalOk(ProcAfter(f, w, w.procs[i], act))
  {
    var p := w.procs[i];
    match act
    case Clean(t, ok) =>
      var at := p.Position(t).value;
      if at.AtSwap? || at.AtDeregister? { EnterKeepsLocal(p, t, ok); } else { PurgeKeepsLocal(p, t, ok); }
    case _ =>
  }

  lemma CleanKeepsPresence(p: Proc, present: bool, t: Thread, ok: bool)
    requires LocalOk(p) && PresenceOk(p, present) && CanClean(p, t)
    ensures PresenceOk(CleanStep(p, t, ok), PresentAfter(p, present, Clean(t, ok)))
  {
  }

  lemma ActKeepsPresence(f: Fleet, w: World, i: nat, act: Act)
    requires i < |w.procs| && Can(f, w, i, act)
    requires ProcOk(w.procs[i], w.procs[i].Name() in w.vms)
    ensures PresenceOk(ProcAfter(f, w, w.procs[i], act),
                       PresentAfter(w.procs[i], w.procs[i].Name() in w.vms, act))
  {
    match act
    case Clean(t, ok) => CleanKeepsPresence(w.procs[i], w.procs[i].Name() in w.vms, t, ok);
    case _ =>
  }

  // ---------- all processes ----------

  /** A process never changes its identity, and never comes back to life. */
  predicate SameProc(p: Proc, q: Proc)
  {
    p.pool == q.pool && p.slot == q.slot && p.ts == q.ts && p.pid == q.pid && (q.alive ==> p.alive)
  }

  lemma ActKeepsIdentity(f: Fleet, w: World, p: Proc, act: Act)
    requires act.Clean? ==> p.Position(act.thread).Some?
    requires p.alive
    ensures SameProc(p, ProcAfter(f, w, p, act))
    ensures ProcAfter(f, w, p, act).Name() == p.Name()
    ensures ProcAfter(f, w, p, act).Id() == p.Id()
  {
  }

  lemma {:induction false} LoseShape(procs: seq<Proc>, taken: set<string>)
    ensures |LoseAll(procs, taken)| == |procs|
    ensures forall i :: 0 <= i < |procs| ==> LoseAll(procs, taken)[i] == Lose(procs[i], taken)
  {
    if procs != [] { LoseShape(procs[..|procs| - 1], taken); }
  }

  lemma LoseIdentity(procs: seq<Proc>, taken: set<string>)
    ensures |LoseAll(procs, taken)| == |procs|
    ensures forall i :: 0 <= i < |procs| ==>
              var p, q := procs[i], LoseAll(procs, taken)[i];
              SameProc(p, q) && q.Name() == p.Name() && q.Id() == p.Id()
  {
    LoseShape(procs, taken);
  }

  predicate ProcAt(f: Fleet, w: World, i: int)
    requires 0 <= i < |w.procs|
  {
    ProcOk(w.procs[i], w.procs[i].Name() in w.vms) && Configured(f, w.procs[i].Id())
  }

  predicate NamesApart(procs: seq<Proc>)
  {
    forall i, j :: 0 <= i < j < |procs| ==> procs[i].Name() != procs[j].Name()
  }

  predicate SlotsApart(procs: seq<Proc>)
  {
    forall i, j :: 0 <= i < j < |procs| && procs[i].alive && procs[j].alive ==> procs[i].slot != procs[j].slot
  }

  predicate ProcsOk(f: Fleet, w: World)
  {
    && (forall i :: 0 <= i < |w.procs| ==> ProcAt(f, w, i))
    && NamesApart(w.procs) && SlotsApart(w.procs)
  }

  /** What a process does by itself concerns its own VM. */
  lemma MovedKeepsProcs(f: Fleet, w: World, i: nat, act: Act)
    requires ProcsOk(f, w) && i < |w.procs| && Can(f, w, i, act)
    ensures ProcsOk(f, Moved(f, w, i, act))
  {
    var p, v := w.procs[i], Moved(f, w, i, act);
    assert ProcAt(f, w, i);
    ActKeepsLocal(f, w, i, act);
    ActKeepsPresence(f, w, i, act);
    ActKeepsIdentity(f, w, p, act);
    OwnPresence(w.vms, p, act);
    forall j | 0 <= j < |v.procs| ensures ProcAt(f, v, j) {
      if j != i {
        assert ProcAt(f, w, j) && p.Name() != w.procs[j].Name();
      }
    }
  }

  lemma LostAt(f: Fleet, w: World, taken: set<string>, j: nat)
    requires j < |w.procs| && ProcAt(f, w, j) && taken <= w.vms
    ensures |LoseAll(w.procs, taken)| == |w.procs| && ProcAt(f, Without(w, taken), j)
  {
    LoseIdentity(w.procs, taken);
    LoseShape(w.procs, taken);
    LoseKeepsOk(w.procs[j], w.procs[j].Name() in w.vms, taken);
  }

  lemma LoseKeepsOk(p: Proc, present: bool, taken: set<string>)
    requires ProcOk(p, present) && (p.alive && p.Name() in taken ==> present)
    ensures ProcOk(Lose(p, taken), present && p.Name() !in taken)
  {
  }

  lemma WithoutKeepsProcs(f: Fleet, w: World, taken: set<string>)
    requires ProcsOk(f, w) && taken <= w.vms
    ensures ProcsOk(f, Without(w, taken))
  {
    LoseIdentity(w.procs, taken);
    forall j | 0 <= j < |w.procs| ensures ProcAt(f, Without(w, taken), j) {
      LostAt(f, w, taken, j);
    }
  }

  lemma ActKeepsProcs(f: Fleet, w: World, i: nat, act: Act)
    requires ProcsOk(f, w) && i < |w.procs| && Can(f, w, i, act)
    ensures ProcsOk(f, Acted(f, w, i, act))
  {
    MovedKeepsProcs(f, w, i, act);
    if act.Sweep? { WithoutKeepsProcs(f, Moved(f, w, i, act), Targets(w.vms, w.procs[i]) - act.left); }
  }

  lemma NewProcOk(pool: string, slot: nat, ts: nat, pid: nat)
    ensures ProcOk(NewProc(pool, slot, ts, pid), false)
  {
  }

  lemma SpawnKeepsProcs(f: Fleet, w: World, k: nat, slot: nat, ts: nat, pid: nat)
    requires ProcsOk(f, w) && CanSpawn(f, w, k, slot, ts, pid)
    ensures ProcsOk(f, Next(f, w, Spawn(k, slot, ts, pid)))
  {
    var v := Next(f, w, Spawn(k, slot, ts, pid));
    var q := NewProc(f.pools[k].name, slot, ts, pid);
    NewProcOk(f.pools[k].name, slot, ts, pid);
    assert v.procs == w.procs + [q];
    forall j | 0 <= j < |v.procs| ensures ProcAt(f, v, j) {
      if j < |w.procs| { assert ProcAt(f, w, j); }
    }
    forall j | 0 <= j < |w.procs| && w.procs[j].alive ensures w.procs[j].slot != slot {
      assert w.procs[j].slot in LiveSlots(w.procs);
    }
  }

  lemma StepKeepsProcs(f: Fleet, w: World, step: Step)
    requires ProcsOk(f, w)
    ensures ProcsOk(f, Next(f, w, step))
  {
    match step
    case Tick(d) =>
      var v := Next(f, w, step);
      forall i | 0 <= i < |v.procs| ensures ProcAt(f, v, i) {
        assert ProcAt(f, w, i);
      }
    case Spawn(k, slot, ts, pid) => if CanSpawn(f, w, k, slot, ts, pid) { SpawnKeepsProcs(f, w, k, slot, ts, pid); }
    case Do(i, act) => if i < |w.procs| && Can(f, w, i, act) { ActKeepsProcs(f, w, i, act); }
    case Gc(seen, left) => WithoutKeepsProcs(f, w, GcTargets(f, w, seen) - left);
  }

  /** The processes and the presence of their VMs, over every run of any configuration. */
  lemma {:induction false} RunKeepsProcs(f: Fleet, start: World, steps: seq<Step>)
    requires start.procs == []
    ensures ProcsOk(f, Run(f, start, steps))
  {
    if steps != [] {
      RunKeepsProcs(f, start, steps[..|steps| - 1]);
      StepKeepsProcs(f, Run(f, start, steps[..|steps| - 1]), steps[|steps| - 1]);
    }
  }

  // ---------- VMs per slot ----------

  predicate Named(procs: seq<Proc>, i: int, v: string) { 0 <= i < |procs| && procs[i].Name() == v }

  /** A VM counts for the slot whose process it is named for; one that no process is named for, for
      every slot under whose prefix it lies. */
  ghost predicate OwnedBy(procs: seq<Proc>, id: SlotId, v: string)
  {
    || (exists i :: Named(procs, i, v) && procs[i].Id() == id)
    || (SlotVmPrefix(id.pool, id.slot) <= v && forall i :: !Named(procs, i, v))
  }

  ghost function Owned(w: World, id: SlotId): set<string> { set v | v in w.vms && OwnedBy(w.procs, id, v) }

  lemma OwnerUnchanged(procs: seq<Proc>, after: seq<Proc>, id: SlotId, v: string)
    requires |after| == |procs|
    requires forall i :: 0 <= i < |procs| ==> after[i].Name() == procs[i].Name() && after[i].Id() == procs[i].Id()
    ensures OwnedBy(after, id, v) <==> OwnedBy(procs, id, v)
  {
    assert forall i :: Named(after, i, v) <==> Named(procs, i, v);
  }

  lemma OwnedShrinks(w: World, after: World, id: SlotId)
    requires |after.procs| == |w.procs| && after.vms <= w.vms
    requires forall i :: 0 <= i < |w.procs| ==>
               after.procs[i].Name() == w.procs[i].Name() && after.procs[i].Id() == w.procs[i].Id()
    ensures Owned(after, id) <= Owned(w, id) && |Owned(after, id)| <= |Owned(w, id)|
  {
    forall v ensures OwnedBy(after.procs, id, v) <==> OwnedBy(w.procs, id, v) {
      OwnerUnchanged(w.procs, after.procs, id, v);
    }
    SubsetSize(Owned(after, id), Owned(w, id));
  }

  lemma SpawnOwns(w: World, q: Proc, id: SlotId)
    requires q.Name() !in w.vms
    ensures var after := w.(procs := w.procs + [q]);
            Owned(after, id) <= Owned(w, id) && |Owned(after, id)| <= |Owned(w, id)|
  {
    var after := w.(procs := w.procs + [q]);
    forall v | v in w.vms && OwnedBy(after.procs, id, v) ensures OwnedBy(w.procs, id, v) {
      assert v != q.Name();
      assert forall i :: Named(after.procs, i, v) <==> Named(w.procs, i, v);
    }
    SubsetSize(Owned(after, id), Owned(w, id));
  }

  lemma OwnerIsMaker(procs: seq<Proc>, i: nat, id: SlotId)
    requires NamesApart(procs) && i < |procs| && OwnedBy(procs, id, procs[i].Name())
    ensures id == procs[i].Id()
  {
    assert Named(procs, i, procs[i].Name());
  }

  /** A new VM counts for its maker's slot only. */
  lemma MadeOwns(f: Fleet, w: World, i: nat, act: Act, id: SlotId)
    requires ProcsOk(f, w) && i < |w.procs| && Can(f, w, i, act) && Makes(act)
    ensures var after := Moved(f, w, i, act);
            && (id != w.procs[i].Id() ==> Owned(after, id) <= Owned(w, id))
            && |Owned(after, id)| <= |Owned(w, id)| + if id == w.procs[i].Id() then 1 else 0
  {
    var p, after := w.procs[i], Moved(f, w, i, act);
    ActKeepsIdentity(f, w, p, act);
    forall v ensures OwnedBy(after.procs, id, v) <==> OwnedBy(w.procs, id, v) {
      OwnerUnchanged(w.procs, after.procs, id, v);
    }
    assert after.vms == w.vms + {p.Name()};
    if id != p.Id() {
      if OwnedBy(w.procs, id, p.Name()) { OwnerIsMaker(w.procs, i, id); }
      SubsetSize(Owned(after, id), Owned(w, id));
    } else {
      SubsetSize(Owned(after, id), Owned(w, id) + {p.Name()});
    }
  }

  /** A complete sweep leaves its slot nothing. */
  lemma SweepClears(f: Fleet, w: World, i: nat, left: set<string>)
    requires ProcsOk(f, w) && i < |w.procs| && Can(f, w, i, Sweep(left)) && Targets(w.vms, w.procs[i]) !! left
    ensures Owned(Acted(f, w, i, Sweep(left)), w.procs[i].Id()) == {}
  {
    var p, after := w.procs[i], Acted(f, w, i, Sweep(left));
    assert ProcAt(f, w, i);
    SweepIdentity(f, w, i, left);
    forall v | v in w.vms && OwnedBy(w.procs, p.Id(), v) ensures v in Targets(w.vms, p) {
      OwnerPrefix(w.procs, p.Id(), v);
    }
    forall v ensures OwnedBy(after.procs, p.Id(), v) <==> OwnedBy(w.procs, p.Id(), v) {
      OwnerUnchanged(w.procs, after.procs, p.Id(), v);
    }
  }

  lemma OwnerPrefix(procs: seq<Proc>, id: SlotId, v: string)
    requires OwnedBy(procs, id, v)
    ensures SlotVmPrefix(id.pool, id.slot) <= v
  {
    if i :| Named(procs, i, v) && procs[i].Id() == id {
      OwnPrefix(procs[i].pool, procs[i].slot, procs[i].ts, procs[i].pid);
    }
  }

  lemma SweepIdentity(f: Fleet, w: World, i: nat, left: set<string>)
    requires i < |w.procs| && Can(f, w, i, Sweep(left))
    ensures var after := Acted(f, w, i, Sweep(left));
            && |after.procs| == |w.procs| && after.vms <= w.vms
            && forall j :: 0 <= j < |w.procs| ==>
                 && after.procs[j].Name() == w.procs[j].Name() && after.procs[j].Id() == w.procs[j].Id()
                 && after.procs[j].alive == w.procs[j].alive
                 && (j != i ==> after.procs[j].main == w.procs[j].main && after.procs[j].owes == w.procs[j].owes)
  {
    var taken := Targets(w.vms, w.procs[i]) - left;
    LoseShape(Moved(f, w, i, Sweep(left)).procs, taken);
    LoseIdentity(Moved(f, w, i, Sweep(left)).procs, taken);
    ActKeepsIdentity(f, w, w.procs[i], Sweep(left));
  }

  /** Past its sweep, and yet to make its VM. */
  predicate Ready(p: Proc) { p.alive && (p.main.Swept? || p.main.Locked? || p.main.Admitted?) }

  ghost predicate SlotBound(w: World, id: SlotId) { |Owned(w, id)| <= 1 + w.Debt(id) }

  ghost predicate ReadyBound(w: World, i: int)
    requires 0 <= i < |w.procs|
  {
    Ready(w.procs[i]) && !w.procs[i].owes ==> Owned(w, w.procs[i].Id()) == {}
  }

  ghost predicate SlotsOk(f: Fleet, w: World)
  {
    && (forall id :: Configured(f, id) ==> SlotBound(w, id))
    && (forall i :: 0 <= i < |w.procs| ==> ReadyBound(w, i))
  }

  lemma MovedIdentity(f: Fleet, w: World, i: nat, act: Act)
    requires i < |w.procs| && Can(f, w, i, act)
    ensures var after := Moved(f, w, i, act);
            && |after.procs| == |w.procs|
            && forall j :: 0 <= j < |w.procs| ==>
                 after.procs[j].Name() == w.procs[j].Name() && after.procs[j].Id() == w.procs[j].Id()
  {
    ActKeepsIdentity(f, w, w.procs[i], act);
  }

  lemma PlainShrinks(f: Fleet, w: World, i: nat, act: Act, id: SlotId)
    requires i < |w.procs| && Can(f, w, i, act) && !Makes(act)
    ensures var after := Moved(f, w, i, act);
            Owned(after, id) <= Owned(w, id) && |Owned(after, id)| <= |Owned(w, id)|
  {
    MovedIdentity(f, w, i, act);
    OwnedShrinks(w, Moved(f, w, i, act), id);
  }

  lemma PlainKeepsReady(f: Fleet, w: World, i: nat, act: Act, j: nat)
    requires i < |w.procs| && Can(f, w, i, act) && !Makes(act) && !act.Sweep?
    requires j < |w.procs| && ReadyBound(w, j)
    ensures ReadyBound(Moved(f, w, i, act), j)
  {
    MovedIdentity(f, w, i, act);
    PlainShrinks(f, w, i, act, w.procs[j].Id());
    NotNewlyReady(f, w, w.procs[i], act);
  }

  lemma NotNewlyReady(f: Fleet, w: World, p: Proc, act: Act)
    requires act.Clean? ==> p.Position(act.thread).Some?
    requires act.TakeLock? ==> Ready(p)
    requires act.Grant? ==> Ready(p)
    requires !act.Sweep?
    ensures Ready(ProcAfter(f, w, p, act)) ==> Ready(p) && ProcAfter(f, w, p, act).owes == p.owes
  {
  }

  /** Every act but making the VM and sweeping. */
  lemma PlainActKeepsSlots(f: Fleet, w: World, i: nat, act: Act)
    requires SlotsOk(f, w) && i < |w.procs| && Can(f, w, i, act) && !Makes(act) && !act.Sweep?
    ensures SlotsOk(f, Moved(f, w, i, act))
  {
    var v := Moved(f, w, i, act);
    forall id | Configured(f, id) ensures SlotBound(v, id) {
      assert SlotBound(w, id);
      PlainShrinks(f, w, i, act, id);
    }
    forall j | 0 <= j < |v.procs| ensures ReadyBound(v, j) {
      PlainKeepsReady(f, w, i, act, j);
    }
  }

  /** The other live processes sit on other slots. */
  lemma OtherSlot(w: World, i: nat, j: nat)
    requires SlotsApart(w.procs) && i < |w.procs| && j < |w.procs| && i != j
    requires w.procs[i].alive && w.procs[j].alive
    ensures w.procs[i].Id() != w.procs[j].Id()
  {
  }

  lemma MakingKeepsSlots(f: Fleet, w: World, i: nat, act: Act)
    requires ProcsOk(f, w) && SlotsOk(f, w) && i < |w.procs| && Can(f, w, i, act) && Makes(act)
    ensures SlotsOk(f, Moved(f, w, i, act))
  {
    var v := Moved(f, w, i, act);
    assert ReadyBound(w, i);
    forall id | Configured(f, id) ensures SlotBound(v, id) {
      assert SlotBound(w, id);
      MadeOwns(f, w, i, act, id);
    }
    forall j | 0 <= j < |v.procs| ensures ReadyBound(v, j) {
      if j != i && Ready(w.procs[j]) {
        assert ReadyBound(w, j);
        OtherSlot(w, i, j);
        MadeOwns(f, w, i, act, w.procs[j].Id());
      }
    }
  }

  lemma SweepKeepsSlots(f: Fleet, w: World, i: nat, left: set<string>)
    requires ProcsOk(f, w) && SlotsOk(f, w) && i < |w.procs| && Can(f, w, i, Sweep(left))
    ensures SlotsOk(f, Acted(f, w, i, Sweep(left)))
  {
    var p, v := w.procs[i], Acted(f, w, i, Sweep(left));
    SweepIdentity(f, w, i, left);
    if Targets(w.vms, p) !! left { SweepClears(f, w, i, left); }
    forall id | Configured(f, id) ensures SlotBound(v, id) {
      assert SlotBound(w, id);
      OwnedShrinks(w, v, id);
    }
    forall j | 0 <= j < |v.procs| ensures ReadyBound(v, j) {
      if j == i {
        LoseShape(Moved(f, w, i, Sweep(left)).procs, Targets(w.vms, p) - left);
      } else {
        assert ReadyBound(w, j);
        OwnedShrinks(w, v, w.procs[j].Id());
      }
    }
  }

  lemma WithoutKeepsSlots(f: Fleet, w: World, taken: set<string>)
    requires SlotsOk(f, w)
    ensures SlotsOk(f, Without(w, taken))
  {
    var v := Without(w, taken);
    LoseShape(w.procs, taken);
    LoseIdentity(w.procs, taken);
    forall id | Configured(f, id) ensures SlotBound(v, id) {
      assert SlotBound(w, id);
      OwnedShrinks(w, v, id);
    }
    forall j | 0 <= j < |v.procs| ensures ReadyBound(v, j) {
      assert ReadyBound(w, j);
      OwnedShrinks(w, v, v.procs[j].Id());
    }
  }

  lemma SpawnKeepsSlots(f: Fleet, w: World, k: nat, slot: nat, ts: nat, pid: nat)
    requires SlotsOk(f, w) && CanSpawn(f, w, k, slot, ts, pid)
    ensures SlotsOk(f, Next(f, w, Spawn(k, slot, ts, pid)))
  {
    var v := Next(f, w, Spawn(k, slot, ts, pid));
    var q := NewProc(f.pools[k].name, slot, ts, pid);
    assert q.Name() == VmName(f.pools[k].name, slot, ts, pid);
    forall id | Configured(f, id) ensures SlotBound(v, id) {
      assert SlotBound(w, id);
      SpawnOwns(w, q, id);
    }
    forall j | 0 <= j < |v.procs| ensures ReadyBound(v, j) {
      if j < |w.procs| {
        assert ReadyBound(w, j);
        SpawnOwns(w, q, w.procs[j].Id());
      }
    }
  }

  lemma TickKeepsSlots(f: Fleet, w: World, d: nat)
    requires SlotsOk(f, w)
    ensures SlotsOk(f, Next(f, w, Tick(d)))
  {
    var v := Next(f, w, Tick(d));
    forall id | Configured(f, id) ensures SlotBound(v, id) {
      assert SlotBound(w, id);
      OwnedShrinks(w, v, id);
    }
    forall j | 0 <= j < |v.procs| ensures ReadyBound(v, j) {
      assert ReadyBound(w, j);
      OwnedShrinks(w, v, v.procs[j].Id());
    }
  }

  lemma StepKeepsSlots(f: Fleet, w: World, step: Step)
    requires ProcsOk(f, w) && SlotsOk(f, w)
    ensures SlotsOk(f, Next(f, w, step))
  {
    match step
    case Tick(d) => TickKeepsSlots(f, w, d);
    case Spawn(k, slot, ts, pid) => if CanSpawn(f, w, k, slot, ts, pid) { SpawnKeepsSlots(f, w, k, slot, ts, pid); }
    case Do(i, act) =>
      if i < |w.procs| && Can(f, w, i, act) {
        if Makes(act) { MakingKeepsSlots(f, w, i, act); }
        else if act.Sweep? { SweepKeepsSlots(f, w, i, act.left); }
        else { PlainActKeepsSlots(f, w, i, act); }
      }
    case Gc(seen, left) => WithoutKeepsSlots(f, w, GcTargets(f, w, seen) - left);
  }

  /** The VMs of every slot, over every run of any configuration. */
  lemma {:induction false} RunKeepsSlots(f: Fleet, start: World, steps: seq<Step>)
    requires GoodStart(f, start)
    ensures SlotsOk(f, Run(f, start, steps))
  {
    if steps == [] {
      forall id | Configured(f, id) ensures SlotBound(start, id) {
        assert forall v, i :: !Named(start.procs, i, v);
        assert Owned(start, id) == Under(start.vms, id);
      }
    } else {
      RunKeepsProcs(f, start, steps[..|steps| - 1]);
      RunKeepsSlots(f, start, steps[..|steps| - 1]);
      StepKeepsSlots(f, Run(f, start, steps[..|steps| - 1]), steps[|steps| - 1]);
    }
  }

  // ---------- the launch lock and the starts made under it ----------

  predicate HolderAt(w: World, i: int)
    requires 0 <= i < |w.procs|
  {
    w.procs[i].alive && w.procs[i].Critical() <==> w.lock == Some(i)
  }

  predicate LockOk(w: World)
  {
    && (w.lock.Some? ==> w.lock.value < |w.procs|)
    && (forall i :: 0 <= i < |w.procs| ==> HolderAt(w, i))
  }

  /** The process that waits out the settle time made the last start. */
  predicate SettlingAt(f: Fleet, w: World, i: int)
    requires 0 <= i < |w.procs|
  {
    w.procs[i].alive && w.procs[i].main.Settling? ==>
      && w.starts != []
      && var last := w.starts[|w.starts| - 1];
         last.proc == i && last.at + f.admission.settleSeconds == w.procs[i].main.until
  }

  predicate StartAt(f: Fleet, w: World, a: int)
    requires 0 <= a < |w.starts|
  {
    w.starts[a].at + (if w.starts[a].settled then f.admission.settleSeconds else 0) <= w.now
  }

  predicate Spaced(f: Fleet, starts: seq<Start>)
  {
    forall a, b :: 0 <= a < b < |starts| ==>
      starts[a].at + (if starts[a].settled then f.admission.settleSeconds else 0) <= starts[b].at
  }

  predicate StartsOk(f: Fleet, w: World)
  {
    && (forall i :: 0 <= i < |w.procs| ==> SettlingAt(f, w, i))
    && (forall a :: 0 <= a < |w.starts| ==> StartAt(f, w, a))
    && Spaced(f, w.starts)
  }

  lemma MovedKeepsLock(f: Fleet, w: World, i: nat, act: Act)
    requires LockOk(w) && i < |w.procs| && Can(f, w, i, act)
    ensures LockOk(Moved(f, w, i, act))
  {
    var v := Moved(f, w, i, act);
    assert HolderAt(w, i);
    forall j | 0 <= j < |v.procs| ensures HolderAt(v, j) {
      assert HolderAt(w, j);
    }
  }

  lemma MovedKeepsStarts(f: Fleet, w: World, i: nat, act: Act)
    requires LockOk(w) && StartsOk(f, w) && i < |w.procs| && Can(f, w, i, act)
    ensures StartsOk(f, Moved(f, w, i, act))
  {
    var v := Moved(f, w, i, act);
    assert HolderAt(w, i) && SettlingAt(f, w, i);
    forall a | 0 <= a < |v.starts| ensures StartAt(f, v, a) {
      if a < |w.starts| { assert StartAt(f, w, a); }
    }
    forall j | 0 <= j < |v.procs| ensures SettlingAt(f, v, j) {
      assert HolderAt(w, j) && SettlingAt(f, w, j);
    }
    forall a, b | 0 <= a < b < |v.starts|
      ensures v.starts[a].at + (if v.starts[a].settled then f.admission.settleSeconds else 0) <= v.starts[b].at
    {
      assert StartAt(f, w, a);
    }
  }

  lemma WithoutKeepsLock(f: Fleet, w: World, taken: set<string>)
    requires LockOk(w) && StartsOk(f, w)
    ensures LockOk(Without(w, taken)) && StartsOk(f, Without(w, taken))
  {
    var v := Without(w, taken);
    LoseShape(w.procs, taken);
    forall j | 0 <= j < |v.procs| ensures HolderAt(v, j) && SettlingAt(f, v, j) {
      assert HolderAt(w, j) && SettlingAt(f, w, j);
    }
    forall a | 0 <= a < |v.starts| ensures StartAt(f, v, a) {
      assert StartAt(f, w, a);
    }
  }

  lemma IdleStepKeepsLock(f: Fleet, w: World, step: Step)
    requires LockOk(w) && StartsOk(f, w) && (step.Tick? || step.Spawn?)
    ensures LockOk(Next(f, w, step)) && StartsOk(f, Next(f, w, step))
  {
    var v := Next(f, w, step);
    forall j | 0 <= j < |v.procs| ensures HolderAt(v, j) && SettlingAt(f, v, j) {
      if j < |w.procs| { assert HolderAt(w, j) && SettlingAt(f, w, j); }
    }
    forall a | 0 <= a < |v.starts| ensures StartAt(f, v, a) {
      assert StartAt(f, w, a);
    }
  }

  lemma StepKeepsLock(f: Fleet, w: World, step: Step)
    requires LockOk(w) && StartsOk(f, w)
    ensures LockOk(Next(f, w, step)) && StartsOk(f, Next(f, w, step))
  {
    match step
    case Do(i, act) =>
      if i < |w.procs| && Can(f, w, i, act) {
        MovedKeepsLock(f, w, i, act);
        MovedKeepsStarts(f, w, i, act);
        if act.Sweep? { WithoutKeepsLock(f, Moved(f, w, i, act), Targets(w.vms, w.procs[i]) - act.left); }
      }
    case Gc(seen, left) => WithoutKeepsLock(f, w, GcTargets(f, w, seen) - left);
    case _ => IdleStepKeepsLock(f, w, step);
  }

  /** The lock and the starts, over every run of any configuration. */
  lemma {:induction false} RunKeepsLock(f: Fleet, start: World, steps: seq<Step>)
    requires BareStart(start)
    ensures LockOk(Run(f, start, steps)) && StartsOk(f, Run(f, start, steps))
  {
    if steps != [] {
      RunKeepsLock(f, start, steps[..|steps| - 1]);
      StepKeepsLock(f, Run(f, start, steps[..|steps| - 1]), steps[|steps| - 1]);
    }
  }

  // ---------- what gc reads ----------

  /** The slot gc reads from a worker's VM. */
  function SeenAs(f: Fleet, p: Proc): nat { Reclaim.FindSlot(f.pools, p.Name()).GetOr(p.slot) }

  /** gc goes after a worker's VM exactly when it does not see the slot it reads from it active and the
      name is no base's; among strangers it reads the worker's slot. */
  lemma GcTakesUnseen(f: Fleet, w: World, j: nat, seen: set<nat>)
    requires j < |w.procs| && Configured(f, w.procs[j].Id())
    ensures var q := w.procs[j];
            q.Name() in GcTargets(f, w, seen) <==> q.Name() in w.vms && SeenAs(f, q) !in seen && q.Name() !in f.bases
    ensures Reclaim.StrangerPools(f.pools) ==> SeenAs(f, w.procs[j]) == w.procs[j].slot
  {
    var q := w.procs[j];
    var k :| 0 <= k < |f.pools| && f.pools[k].name == q.pool && q.slot in Slots(f.pools[k]);
    OwnPrefix(q.pool, q.slot, q.ts, q.pid);
    var r := Reclaim.SomeReader(f.pools, k, q.slot, q.ts, q.pid);
    if Reclaim.StrangerPools(f.pools) {
      OwnerReadsSlot(q.pool, q.slot, q.ts, q.pid);
      Reclaim.FoundAnywhere(f.pools, k, q.Name());
    }
  }
}
