/** Worker processes as a protocol (src/worker.rs, src/admission.rs): any number of processes, each
    with a main thread and a signal thread, sharing one set of VMs and one launch lock. A step is one
    atomic action of one thread; a process may be killed between any two steps. */
module WorkerProtocol {
  import opened Prelude
  import opened Naming
  import opened Config
  import Admission
  import Reclaim

  // ---------- state ----------

  /** Where a thread stands inside `cleanup`. */
  datatype Cleanup = AtSwap | AtDeregister | AtLoad | AtPurge(created: bool) | AtRemove | Finished {
    predicate Inside() { !AtSwap? && !Finished? }

    predicate BeforePurge() { AtDeregister? || AtLoad? || AtPurge? }
  }

  /** Where the main thread stands in `lifecycle`, or in dropping the cleanup guard after it. */
  datatype Main =
    | Probing | Swept | Locked | Admitted | Cloned | Created | Settling(until: nat) | Serving
    | Leaving(at: Cleanup)

  datatype Signal = Listening | Caught(at: Cleanup)

  datatype Thread = MainThread | SignalThread

  /** What can befall a process's VM, besides being purged by the process itself. */
  datatype Mark =
    | EarlyRead     // the signal thread read `created` before the main thread stored it
    | PurgeFailed   // the purge itself failed
    | CloneLied     // the clone reported failure although the VM exists
    | CutShort      // one thread ended the process before the other's cleanup had purged
    | Killed        // the process was killed
    | Taken         // gc or another process's sweep purged it while the process was alive

  datatype Proc = Proc(
    pool: string,
    slot: nat,
    ts: nat,
    pid: nat,
    alive: bool,
    main: Main,
    signal: Signal,
    created: bool,
    cleaner: Option<Thread>,
    entries: nat,
    marks: set<Mark>,
    owes: bool)     // its sweep left something behind
  {
    function Name(): string { VmName(pool, slot, ts, pid) }

    function Prefix(): string { SlotVmPrefix(pool, slot) }

    function Id(): SlotId { SlotId(pool, slot) }

    predicate BeforeClone() { main.Probing? || main.Swept? || main.Locked? || main.Admitted? }

    /** The VM has been made and the lifecycle has not returned. */
    predicate HasVm() { main.Cloned? || main.Created? || main.Settling? || main.Serving? }

    /** Between taking the launch lock and dropping its guard. */
    predicate Critical() { main.Locked? || main.Admitted? || main.Cloned? || main.Created? || main.Settling? }

    function Position(t: Thread): Option<Cleanup>
    {
      match t
      case MainThread => if main.Leaving? then Some(main.at) else None
      case SignalThread => if signal.Caught? then Some(signal.at) else None
    }

    function Move(t: Thread, c: Cleanup): Proc
    {
      if t.MainThread? then this.(main := Leaving(c)) else this.(signal := Caught(c))
    }
  }

  datatype SlotId = SlotId(pool: string, slot: nat)

  /** A VM start: by which process, when, and whether its process settled and released the lock. */
  datatype Start = Start(proc: nat, at: nat, settled: bool)

  /** `debt` counts for each slot the VMs made after a sweep that left something behind, since the
      slot's last complete sweep, on top of what it starts with. */
  datatype World = World(
    vms: set<string>,
    procs: seq<Proc>,
    lock: Option<nat>,
    now: nat,
    starts: seq<Start>,
    debt: map<SlotId, nat>)
  {
    function Debt(id: SlotId): nat { if id in debt then debt[id] else 0 }
  }

  // ---------- steps ----------

  datatype Act =
    | Sweep(left: set<string>)
    | Fail
    | TakeLock
    | Grant(probe: Admission.Probe)
    | CloneOk
    | CloneErr(made: bool)
    | Store
    | StartVm
    | Release
    | Catch
    | Clean(thread: Thread, purgeOk: bool)
    | EndMain
    | EndSignal
    | Kill

  datatype Step =
    | Tick(seconds: nat)
    | Spawn(pool: nat, slot: nat, ts: nat, pid: nat)
    | Do(proc: nat, act: Act)
    | Gc(seen: set<nat>, left: set<string>)

  function LiveSlots(procs: seq<Proc>): set<nat> { set p | p in procs && p.alive :: p.slot }

  /** Lifecycle errors are possible wherever a fallible call is made, except inside the clone. */
  predicate Can(f: Fleet, w: World, i: nat, act: Act)
    requires i < |w.procs|
  {
    var p := w.procs[i];
    p.alive &&
    match act
    case Sweep(_) => p.main.Probing?
    case Fail => p.main.Probing? || p.main.Swept? || p.main.Created? || p.main.Serving?
    case TakeLock => p.main.Swept? && w.lock.None?
    case Grant(probe) => p.main.Locked? && Admission.Decide(probe, f.admission).None?
    case CloneOk => p.main.Admitted? && p.Name() !in w.vms
    case CloneErr(_) => p.main.Admitted?
    case Store => p.main.Cloned?
    case StartVm => p.main.Created?
    case Release => p.main.Settling? && p.main.until <= w.now
    case Catch => p.signal.Listening?
    case Clean(t, _) => p.Position(t).Some? && !p.Position(t).value.Finished?
    case EndMain => p.main == Leaving(Finished)
    case EndSignal => p.signal == Caught(Finished)
    case Kill => true
  }

  /** One step of `cleanup` in a thread. */
  function CleanStep(p: Proc, t: Thread, purgeOk: bool): Proc
    requires p.Position(t).Some?
  {
    match p.Position(t).value
    case AtSwap =>
      if p.cleaner.Some? then p.Move(t, Finished)
      else p.Move(t, AtDeregister).(cleaner := Some(t), entries := p.entries + 1)
    case AtDeregister => p.Move(t, AtLoad)
    case AtLoad =>
      p.Move(t, AtPurge(p.created)).(marks := if t.SignalThread? && !p.created then p.marks + {EarlyRead} else p.marks)
    case AtPurge(created) =>
      p.Move(t, AtRemove).(marks := if created && !purgeOk then p.marks + {PurgeFailed} else p.marks)
    case AtRemove => p.Move(t, Finished)
    case Finished => p
  }

  predicate YetToPurge(p: Proc, t: Thread) { p.Position(t).Some? && p.Position(t).value.BeforePurge() }

  function Ended(p: Proc, marks: set<Mark>): Proc { p.(alive := false, marks := p.marks + marks) }

  /** The names a sweep goes after. */
  function Targets(vms: set<string>, p: Proc): set<string>
  {
    set v | v in vms && Reclaim.SweepTarget(p.pool, p.slot, p.Name(), v)
  }

  function ProcAfter(f: Fleet, w: World, p: Proc, act: Act): Proc
    requires act.Clean? ==> p.Position(act.thread).Some?
  {
    match act
    case Sweep(left) => p.(main := Swept, owes := !(Targets(w.vms, p) !! left))
    case Fail => p.(main := Leaving(AtSwap))
    case TakeLock => p.(main := Locked)
    case Grant(_) => p.(main := Admitted)
    case CloneOk => p.(main := Cloned)
    case CloneErr(made) => p.(main := Leaving(AtSwap), marks := if made then p.marks + {CloneLied} else p.marks)
    case Store => p.(main := Created, created := true)
    case StartVm => p.(main := Settling(w.now + f.admission.settleSeconds))
    case Release => p.(main := Serving)
    case Catch => p.(signal := Caught(AtSwap))
    case Clean(t, ok) => CleanStep(p, t, ok)
    case EndMain => Ended(p, if YetToPurge(p, SignalThread) then {CutShort} else {})
    case EndSignal => Ended(p, if YetToPurge(p, MainThread) then {CutShort} else {})
    case Kill => Ended(p, {Killed})
  }

  predicate Makes(act: Act) { act.CloneOk? || (act.CloneErr? && act.made) }

  /** The VMs after a thread's own move; a sweep takes more, see `Acted`. */
  function VmsAfter(vms: set<string>, p: Proc, act: Act): set<string>
  {
    match act
    case CloneOk => vms + {p.Name()}
    case CloneErr(made) => if made then vms + {p.Name()} else vms
    case Clean(t, ok) => if p.Position(t) == Some(AtPurge(true)) && ok then vms - {p.Name()} else vms
    case _ => vms
  }

  predicate DropsLock(act: Act)
  {
    act.Fail? || act.CloneErr? || act.Release? || act.EndMain? || act.EndSignal? || act.Kill?
  }

  function LockAfter(lock: Option<nat>, i: nat, act: Act): Option<nat>
  {
    if act.TakeLock? then Some(i) else if DropsLock(act) && lock == Some(i) then None else lock
  }

  function StartsAfter(w: World, i: nat, act: Act): seq<Start>
  {
    if act.StartVm? then w.starts + [Start(i, w.now, false)]
    else if act.Release? && w.starts != [] then
      w.starts[|w.starts| - 1 := w.starts[|w.starts| - 1].(settled := true)]
    else w.starts
  }

  function DebtAfter(w: World, p: Proc, act: Act): map<SlotId, nat>
  {
    if act.Sweep? && Targets(w.vms, p) !! act.left then w.debt[p.Id() := 0]
    else if Makes(act) && p.owes then w.debt[p.Id() := w.Debt(p.Id()) + 1]
    else w.debt
  }

  function Moved(f: Fleet, w: World, i: nat, act: Act): World
    requires i < |w.procs| && Can(f, w, i, act)
  {
    var p := w.procs[i];
    World(VmsAfter(w.vms, p, act),
          w.procs[i := ProcAfter(f, w, p, act)],
          LockAfter(w.lock, i, act), w.now, StartsAfter(w, i, act), DebtAfter(w, p, act))
  }

  function Lose(p: Proc, taken: set<string>): Proc
  {
    if p.alive && p.Name() in taken then p.(marks := p.marks + {Taken}) else p
  }

  function LoseAll(procs: seq<Proc>, taken: set<string>): seq<Proc>
  {
    if procs == [] then [] else LoseAll(procs[..|procs| - 1], taken) + [Lose(procs[|procs| - 1], taken)]
  }

  /** Some VMs are purged by others than their processes. */
  function Without(w: World, taken: set<string>): World
  {
    w.(vms := w.vms - taken, procs := LoseAll(w.procs, taken))
  }

  function Acted(f: Fleet, w: World, i: nat, act: Act): World
    requires i < |w.procs| && Can(f, w, i, act)
  {
    if act.Sweep? then Without(Moved(f, w, i, act), Targets(w.vms, w.procs[i]) - act.left)
    else Moved(f, w, i, act)
  }

  /** systemd starts a worker only on a slot without a live unit; its VM name is new. */
  predicate CanSpawn(f: Fleet, w: World, k: nat, slot: nat, ts: nat, pid: nat)
  {
    && k < |f.pools| && slot in Slots(f.pools[k]) && slot !in LiveSlots(w.procs)
    && VmName(f.pools[k].name, slot, ts, pid) !in w.vms
    && forall i :: 0 <= i < |w.procs| ==> w.procs[i].Name() != VmName(f.pools[k].name, slot, ts, pid)
  }

  function NewProc(pool: string, slot: nat, ts: nat, pid: nat): Proc
  {
    Proc(pool, slot, ts, pid, true, Probing, Listening, false, None, 0, {}, false)
  }

  /** What gc purges when it takes the slots `seen` for active. Nothing ties these to the live workers:
      the unit listing may fail and read as empty, and it leaves out the units that are stopping. */
  function GcTargets(f: Fleet, w: World, seen: set<nat>): set<string>
  {
    set v | v in w.vms && VM_PREFIX <= v && Reclaim.IsOrphan(f, seen, v)
  }

  function Next(f: Fleet, w: World, step: Step): World
  {
    match step
    case Tick(d) => w.(now := w.now + d)
    case Spawn(k, slot, ts, pid) =>
      if CanSpawn(f, w, k, slot, ts, pid)
      then w.(procs := w.procs + [NewProc(f.pools[k].name, slot, ts, pid)]) else w
    case Do(i, act) => if i < |w.procs| && Can(f, w, i, act) then Acted(f, w, i, act) else w
    case Gc(seen, left) => Without(w, GcTargets(f, w, seen) - left)
  }

  function Run(f: Fleet, start: World, steps: seq<Step>): World
  {
    if steps == [] then start else Next(f, Run(f, start, steps[..|steps| - 1]), steps[|steps| - 1])
  }

  // ---------- where a run starts ----------

  function Under(vms: set<string>, id: SlotId): set<string>
  {
    set v | v in vms && SlotVmPrefix(id.pool, id.slot) <= v
  }

  predicate Configured(f: Fleet, id: SlotId)
  {
    exists k :: 0 <= k < |f.pools| && f.pools[k].name == id.pool && id.slot in Slots(f.pools[k])
  }

  /** No configured slot's sweep prefix captures the VMs of another configured slot. */
  ghost predicate PrefixesApart(f: Fleet)
  {
    forall id, jd, ts :: Configured(f, id) && Configured(f, jd) && id != jd ==>
      !Captures(id.pool, id.slot, jd.pool, jd.slot, ts)
  }

  /** No worker yet. */
  predicate BareStart(w: World) { w.procs == [] && w.lock.None? && w.starts == [] }

  /** ... and any VMs may be about; those of a slot beyond the first count as debt. */
  ghost predicate GoodStart(f: Fleet, w: World)
  {
    BareStart(w) && forall id :: Configured(f, id) ==> |Under(w.vms, id)| <= 1 + w.Debt(id)
  }
}
