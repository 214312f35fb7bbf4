/** What workers can do: from every worker about to begin there are runs in which it serves, hands the
    launch on, and ends without a trace, and runs in which each mishap on record occurs. */
module WorkerProgress {
  import opened Prelude
  import opened Config
  import opened WorkerProtocol
  import opened WorkerInvariant
  import opened WorkerLaws
  import opened WorkerExact
  import Admission

  lemma ThenStep(f: Fleet, w: World, steps: seq<Step>, step: Step) returns (more: seq<Step>, v: World)
    ensures more == steps + [step] && v == Run(f, w, more) == Next(f, Run(f, w, steps), step)
  {
    more := steps + [step];
    assert more[..|more| - 1] == steps;
    v := Run(f, w, more);
  }

  // ---------- serving ----------

  /** The process serves: no signal, no mishap, its VM there, the launch lock free, its start the last one
      on record and settled. */
  predicate Serves(w: World, i: nat)
  {
    && i < |w.procs| && w.lock.None? && w.starts != []
    && var p, last := w.procs[i], w.starts[|w.starts| - 1];
       && p.alive && p.main == Serving && p.signal == Listening && p.cleaner.None? && p.created && p.marks == {}
       && p.Name() in w.vms && last.proc == i && last.settled
  }

  /** Every worker about to begin can get to serve. */
  lemma GetsToServe(f: Fleet, w: World, i: nat, probe: Admission.Probe) returns (steps: seq<Step>)
    requires Fresh(w, i) && Admission.Decide(probe, f.admission).None?
    ensures var v := Run(f, w, steps);
            && Serves(v, i) && v.starts == w.starts + [Start(i, w.now, true)]
            && v.now == w.now + f.admission.settleSeconds && v.procs[i].Name() == w.procs[i].Name()
            && v.vms <= w.vms + {w.procs[i].Name()} && OthersGoOn(w, v, i)
  {
    var v;
    steps, v := Booted(f, w, i, probe);
    steps, v := Then(f, w, steps, i, StartVm);
    steps, v := ThenStep(f, w, steps, Tick(f.admission.settleSeconds));
    steps, v := Then(f, w, steps, i, Release);
  }

  /** ... and when it does, another can take the launch lock and be granted. */
  lemma NextIsGranted(f: Fleet, w: World, i: nat, j: nat, probe: Admission.Probe) returns (steps: seq<Step>)
    requires Fresh(w, i) && Fresh(w, j) && i != j && w.procs[i].Name() != w.procs[j].Name()
    requires Admission.Decide(probe, f.admission).None?
    ensures var v := Run(f, w, steps);
            && |v.procs| == |w.procs| && v.lock == Some(j)
            && v.procs[i].alive && v.procs[i].main == Serving
            && v.procs[j].alive && v.procs[j].main == Admitted
  {
    var first := GetsToServe(f, w, i, probe);
    var v := Run(f, w, first);
    var second, u := Begin(f, v, j, probe);
    RunJoins(f, w, first, second);
    steps := first + second;
  }

  // ---------- ending ----------

  /** The process is over and does not hold the launch lock. */
  predicate Over(w: World, i: nat) { i < |w.procs| && !w.procs[i].alive && w.lock != Some(i) }

  /** A main thread that enters the cleanup undisturbed carries it out and ends the process; the VM is gone
      if it was recorded as made, and stays as it was if not. */
  lemma MainCleansUp(f: Fleet, w: World, before: seq<Step>, i: nat) returns (steps: seq<Step>)
    requires i < |Run(f, w, before).procs| && Run(f, w, before).lock != Some(i)
    requires var p := Run(f, w, before).procs[i];
             p.alive && p.main == Leaving(AtSwap) && p.signal == Listening && p.cleaner.None?
    ensures var u, v := Run(f, w, before), Run(f, w, steps);
            && Over(v, i) && |v.procs| == |u.procs| && v.procs[i].Name() == u.procs[i].Name()
            && v.procs[i].marks == u.procs[i].marks && v.procs[i].entries == u.procs[i].entries + 1
            && v.vms == if u.procs[i].created then u.vms - {u.procs[i].Name()} else u.vms
  {
    var v;
    steps, v := MainReachesPurge(f, w, before, i);
    steps, v := Then(f, w, steps, i, Clean(MainThread, true));
    steps, v := Then(f, w, steps, i, Clean(MainThread, true));
    steps, v := Then(f, w, steps, i, EndMain);
  }

  lemma MainReachesPurge(f: Fleet, w: World, before: seq<Step>, i: nat) returns (steps: seq<Step>, v: World)
    requires i < |Run(f, w, before).procs| && Run(f, w, before).lock != Some(i)
    requires var p := Run(f, w, before).procs[i];
             p.alive && p.main == Leaving(AtSwap) && p.signal == Listening && p.cleaner.None?
    ensures v == Run(f, w, steps) && |v.procs| == |Run(f, w, before).procs|
    ensures var u := Run(f, w, before); var p := u.procs[i];
            && v.lock == u.lock && v.vms == u.vms
            && v.procs[i] == p.(main := Leaving(AtPurge(p.created)), cleaner := Some(MainThread),
                                entries := p.entries + 1)
  {
    var p := Run(f, w, before).procs[i];
    steps, v := Then(f, w, before, i, Clean(MainThread, true));
    assert v.procs[i] == p.(main := Leaving(AtDeregister), cleaner := Some(MainThread), entries := p.entries + 1);
    steps, v := Then(f, w, steps, i, Clean(MainThread, true));
    assert v.procs[i].main == Leaving(AtLoad);
    steps, v := Then(f, w, steps, i, Clean(MainThread, true));
  }

  /** The places where the lifecycle can fail, or, when it serves, come to its end. */
  predicate MayLeave(p: Proc) { p.main == Probing || p.main == Swept || p.main == Created || p.main == Serving }

  /** From each of them the process can end, cleaned up and without the lock. */
  lemma LeavingEnds(f: Fleet, w: World, i: nat) returns (steps: seq<Step>)
    requires i < |w.procs| && w.procs[i].alive && MayLeave(w.procs[i])
    requires w.procs[i].signal == Listening && w.procs[i].cleaner.None?
    ensures var v := Run(f, w, steps);
            && Over(v, i) && |v.procs| == |w.procs| && v.procs[i].marks == w.procs[i].marks
            && v.vms == if w.procs[i].created then w.vms - {w.procs[i].Name()} else w.vms
  {
    var v;
    assert Run(f, w, []) == w;
    steps, v := Then(f, w, [], i, Fail);
    steps := MainCleansUp(f, w, steps, i);
  }

  /** A clone that fails ends the process the same way, and leaves a VM only if it made one. */
  lemma FailedCloneEnds(f: Fleet, w: World, i: nat, made: bool) returns (steps: seq<Step>)
    requires i < |w.procs| && w.procs[i].alive && w.procs[i].main == Admitted && !w.procs[i].created
    requires w.procs[i].signal == Listening && w.procs[i].cleaner.None?
    ensures var v := Run(f, w, steps);
            && Over(v, i) && |v.procs| == |w.procs| && v.procs[i].Name() == w.procs[i].Name()
            && v.procs[i].marks == w.procs[i].marks + (if made then {CloneLied} else {})
            && v.vms == if made then w.vms + {w.procs[i].Name()} else w.vms
  {
    var v;
    assert Run(f, w, []) == w;
    steps, v := Then(f, w, [], i, CloneErr(made));
    steps := MainCleansUp(f, w, steps, i);
  }

  /** A signal ends a serving process, with its VM. */
  lemma SignalEnds(f: Fleet, w: World, i: nat) returns (steps: seq<Step>)
    requires Serves(w, i)
    ensures var v := Run(f, w, steps);
            Over(v, i) && |v.procs| == |w.procs| && v.procs[i].marks == {} && v.vms == w.vms - {w.procs[i].Name()}
  {
    var v;
    steps, v := SignalReachesPurge(f, w, i);
    steps, v := Then(f, w, steps, i, Clean(SignalThread, true));
    steps, v := Then(f, w, steps, i, Clean(SignalThread, true));
    steps, v := Then(f, w, steps, i, EndSignal);
  }

  lemma SignalReachesPurge(f: Fleet, w: World, i: nat) returns (steps: seq<Step>, v: World)
    requires Serves(w, i)
    ensures v == Run(f, w, steps) && |v.procs| == |w.procs| && v.lock == w.lock && v.vms == w.vms
    ensures var p := w.procs[i];
            v.procs[i] == p.(signal := Caught(AtPurge(true)), cleaner := Some(SignalThread), entries := p.entries + 1)
  {
    assert Run(f, w, []) == w;
    steps, v := Then(f, w, [], i, Catch);
    steps, v := Then(f, w, steps, i, Clean(SignalThread, true));
    steps, v := Then(f, w, steps, i, Clean(SignalThread, true));
    steps, v := Then(f, w, steps, i, Clean(SignalThread, true));
  }

  /** A whole life: a worker about to begin can serve and then end with no VM, no mark and no lock. */
  lemma WholeLife(f: Fleet, w: World, i: nat, probe: Admission.Probe) returns (serving: seq<Step>, ending: seq<Step>)
    requires Fresh(w, i) && Admission.Decide(probe, f.admission).None?
    ensures Serves(Run(f, w, serving), i)
    ensures var v := Run(f, w, serving + ending);
            Over(v, i) && |v.procs| == |w.procs| && v.procs[i].marks == {} && w.procs[i].Name() !in v.vms
  {
    serving := GetsToServe(f, w, i, probe);
    ending := LeavingEnds(f, Run(f, w, serving), i);
    RunJoins(f, w, serving, ending);
  }

  // ---------- each mishap occurs ----------

  /** A VM can be left behind by a kill ... */
  lemma KillLeaves(f: Fleet, w: World, i: nat, probe: Admission.Probe) returns (steps: seq<Step>)
    requires Fresh(w, i) && Admission.Decide(probe, f.admission).None?
    ensures LeftBehind(Run(f, w, steps), i, Killed)
  {
    var v;
    steps, v := Booted(f, w, i, probe);
    steps, v := Then(f, w, steps, i, Kill);
  }

  /** ... by a purge that fails ... */
  lemma FailedPurgeLeaves(f: Fleet, w: World, i: nat, probe: Admission.Probe) returns (steps: seq<Step>)
    requires Fresh(w, i) && Admission.Decide(probe, f.admission).None?
    ensures LeftBehind(Run(f, w, steps), i, PurgeFailed)
  {
    var v;
    steps, v := Booted(f, w, i, probe);
    steps, v := Then(f, w, steps, i, Fail);
    steps, v := MainReachesPurge(f, w, steps, i);
    steps := PurgeFails(f, w, steps, i);
  }

  lemma PurgeFails(f: Fleet, w: World, before: seq<Step>, i: nat) returns (steps: seq<Step>)
    requires i < |Run(f, w, before).procs| && Run(f, w, before).procs[i].Name() in Run(f, w, before).vms
    requires var p := Run(f, w, before).procs[i];
             p.alive && p.main == Leaving(AtPurge(true)) && p.signal == Listening && p.marks == {}
    ensures LeftBehind(Run(f, w, steps), i, PurgeFailed)
  {
    var p, v := Run(f, w, before).procs[i], Run(f, w, before);
    steps, v := Then(f, w, before, i, Clean(MainThread, false));
    assert v.procs[i] == p.(main := Leaving(AtRemove), marks := {PurgeFailed});
    steps, v := Then(f, w, steps, i, Clean(MainThread, true));
    assert v.procs[i] == p.(main := Leaving(Finished), marks := {PurgeFailed});
    steps, v := Then(f, w, steps, i, EndMain);
  }

  /** ... and by a clone that made it and reported failure. */
  lemma LyingCloneLeaves(f: Fleet, w: World, i: nat, probe: Admission.Probe) returns (steps: seq<Step>)
    requires Fresh(w, i) && Admission.Decide(probe, f.admission).None?
    ensures LeftBehind(Run(f, w, steps), i, CloneLied)
  {
    var first, v := Begin(f, w, i, probe);
    var second := FailedCloneEnds(f, v, i, true);
    RunJoins(f, w, first, second);
    steps := first + second;
  }
}
