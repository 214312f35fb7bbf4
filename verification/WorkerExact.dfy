/** The conditions on names that the worker laws ask for are exact: where one fails, a run goes wrong. */
module WorkerExact {
  import opened Prelude
  import opened Text
  import opened Naming
  import opened Config
  import opened WorkerProtocol
  import opened WorkerInvariant
  import opened WorkerLaws
  import Admission

  lemma {:induction false} RunJoins(f: Fleet, start: World, a: seq<Step>, b: seq<Step>)
    ensures Run(f, Run(f, start, a), b) == Run(f, start, a + b)
  {
    if b == [] {
      assert a + b == a;
    } else {
      RunJoins(f, start, a, b[..|b| - 1]);
      assert (a + b)[..|a + b| - 1] == a + b[..|b| - 1];
    }
  }

  function Before(vms: set<string>): World { World(vms, [], None, 0, [], map[]) }

  /** A worker can be started on every configured slot that no live worker holds, one whose worker is over
      included. */
  lemma SpawnOf(f: Fleet, w: World, id: SlotId, ts: nat, pid: nat) returns (step: Step)
    requires Configured(f, id) && VmName(id.pool, id.slot, ts, pid) !in w.vms
    requires forall i :: 0 <= i < |w.procs| && w.procs[i].alive ==> w.procs[i].slot != id.slot
    requires forall i :: 0 <= i < |w.procs| ==> w.procs[i].Name() != VmName(id.pool, id.slot, ts, pid)
    ensures Next(f, w, step) == w.(procs := w.procs + [NewProc(id.pool, id.slot, ts, pid)])
  {
    var k :| 0 <= k < |f.pools| && f.pools[k].name == id.pool && id.slot in Slots(f.pools[k]);
    step := Spawn(k, id.slot, ts, pid);
  }

  lemma OneStep(f: Fleet, w: World, step: Step)
    ensures Run(f, w, [step]) == Next(f, w, step)
  {
    assert [step][..0] == [];
    assert Run(f, w, []) == w;
  }

  lemma OtherPid(p: string, s: nat, ts: nat, pid: nat, q: string, t: nat, us: nat, qid: nat)
    requires pid != qid
    ensures VmName(p, s, ts, pid) != VmName(q, t, us, qid)
  {
    DecimalHasNo(pid, '-');
    DecimalHasNo(qid, '-');
    DecimalInjectiveIf(pid, qid);
    CutAtLast(VM_PREFIX + p + "-" + Decimal(s) + "-" + Decimal(ts), Decimal(pid),
              VM_PREFIX + q + "-" + Decimal(t) + "-" + Decimal(us), Decimal(qid));
  }

  ghost predicate KeepsBases(f: Fleet)
  {
    forall start: World, steps, step, b :: start.procs == [] && b in f.bases && b in Run(f, start, steps).vms ==>
      b in Next(f, Run(f, start, steps), step).vms
  }

  /** A base under a slot's prefix is gone after one start and one sweep. */
  lemma BaseLost(f: Fleet, id: SlotId, b: string) returns (steps: seq<Step>, step: Step)
    requires Configured(f, id) && b in f.bases && SlotVmPrefix(id.pool, id.slot) <= b
    ensures b in Run(f, Before({b}), steps).vms && b !in Next(f, Run(f, Before({b}), steps), step).vms
  {
    OtherPid(id.pool, id.slot, 0, 0, id.pool, id.slot, 0, 1);
    var pid := if VmName(id.pool, id.slot, 0, 0) == b then 1 else 0;
    var start := SpawnOf(f, Before({b}), id, 0, pid);
    OneStep(f, Before({b}), start);
    steps, step := [start], Do(0, Sweep({}));
  }

  /** No run ever removes a base if and only if none is named under a slot's prefix. */
  lemma BasesKeptExact(f: Fleet)
    ensures BasesApart(f) <==> KeepsBases(f)
  {
    if BasesApart(f) {
      forall start: World, steps, step, b | start.procs == [] && b in f.bases && b in Run(f, start, steps).vms
        ensures b in Next(f, Run(f, start, steps), step).vms
      {
        BasesKept(f, start, steps, step, b);
      }
    } else {
      var id, b :| Configured(f, id) && b in f.bases && SlotVmPrefix(id.pool, id.slot) <= b;
      var steps, step := BaseLost(f, id, b);
      assert Before({b}).procs == [];
    }
  }

  ghost predicate NoForeignSweeps(f: Fleet)
  {
    forall start: World, steps, i: nat, step :: start.procs == [] && i < |Run(f, start, steps).procs| ==>
      !LosesToSweep(f, Run(f, start, steps), i, step)
  }

  /** The step is a sweep that takes the VM of a live process of another slot. */
  predicate LosesToSweep(f: Fleet, w: World, i: nat, step: Step)
    requires i < |w.procs|
  {
    w.procs[i].alive && w.procs[i].Name() in w.vms && ForeignSweep(f, w, i, step)
  }

  lemma ClearProbe(f: Fleet) returns (probe: Admission.Probe)
    ensures Admission.Decide(probe, f.admission).None?
  {
    probe := Admission.Probe(U64_MODULUS - 1, f.admission.psiMax - 1.0, U64_MODULUS - 1);
  }

  /** Where a prefix captures another slot's VMs, a worker of that slot loses its VM to the start of one of
      the other. */
  lemma VmLostToSweep(f: Fleet, id: SlotId, jd: SlotId, ts: nat) returns (steps: seq<Step>, step: Step)
    requires Configured(f, id) && Configured(f, jd) && id.slot != jd.slot
    requires Captures(id.pool, id.slot, jd.pool, jd.slot, ts)
    ensures var w := Run(f, Before({}), steps); 0 < |w.procs| && LosesToSweep(f, w, 0, step)
  {
    var probe := ClearProbe(f);
    var first := SpawnOf(f, Before({}), jd, ts, 0);
    var w := Next(f, Before({}), first);
    OneStep(f, Before({}), first);
    var booting, v := Booted(f, w, 0, probe);
    RunJoins(f, Before({}), [first], booting);
    OtherPid(id.pool, id.slot, 0, 1, jd.pool, jd.slot, ts, 0);
    var second := SpawnOf(f, v, id, 0, 1);
    RunJoins(f, Before({}), [first] + booting, [second]);
    OneStep(f, v, second);
    steps, step := [first] + booting + [second], Do(1, Sweep({}));
  }

  /** No run ever has a sweep take the VM of another slot's live worker if and only if no slot's prefix
      captures another slot's VMs. */
  lemma ForeignSweepsExact(f: Fleet)
    requires DisjointSlots(f.pools)
    ensures PrefixesApart(f) <==> NoForeignSweeps(f)
  {
    if PrefixesApart(f) {
      forall start: World, steps, i: nat, step | start.procs == [] && i < |Run(f, start, steps).procs|
        ensures !LosesToSweep(f, Run(f, start, steps), i, step)
      {
        if LosesToSweep(f, Run(f, start, steps), i, step) { LiveVmKept(f, start, steps, i, step); }
      }
    } else {
      var id, jd, ts :|
        Configured(f, id) && Configured(f, jd) && id != jd && Captures(id.pool, id.slot, jd.pool, jd.slot, ts);
      SlotsDiffer(f, id, jd);
      var steps, step := VmLostToSweep(f, id, jd, ts);
      assert Before({}).procs == [];
      assert !NoForeignSweeps(f);
    }
  }

  lemma SlotsDiffer(f: Fleet, id: SlotId, jd: SlotId)
    requires DisjointSlots(f.pools) && Configured(f, id) && Configured(f, jd) && id != jd
    ensures id.slot != jd.slot
  {
    var i :| 0 <= i < |f.pools| && f.pools[i].name == id.pool && id.slot in Slots(f.pools[i]);
    var j :| 0 <= j < |f.pools| && f.pools[j].name == jd.pool && jd.slot in Slots(f.pools[j]);
    assert i < j ==> Slots(f.pools[i]) !! Slots(f.pools[j]);
    assert j < i ==> Slots(f.pools[j]) !! Slots(f.pools[i]);
  }
}
