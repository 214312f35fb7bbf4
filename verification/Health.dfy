/** The worker's health monitor (src/worker.rs): when it recycles a runner, over any timed trace of
    what its polls find. */
module Health {
  import opened Prelude
  import GitHub

  datatype RunnerState = Online | Offline | Absent | Unknown

  /** `runner_state`: the first record with the VM's name decides; a failed query says nothing. */
  function StateOf(list: Option<seq<GitHub.Runner>>, vm: string): RunnerState
  {
    if list.None? then Unknown else FirstNamed(list.value, vm)
  }

  function FirstNamed(rs: seq<GitHub.Runner>, vm: string): RunnerState
  {
    if rs == [] then Absent
    else if rs[0].name == vm then (if rs[0].Online() then Online else Offline)
    else FirstNamed(rs[1..], vm)
  }

  /** A failed query reads Unknown, no record reads Absent, and otherwise the first record tells. */
  lemma {:induction false} FirstRecordDecides(rs: seq<GitHub.Runner>, vm: string) returns (i: int)
    ensures StateOf(None, vm) == Unknown
    ensures StateOf(Some(rs), vm) == Absent <==> forall k :: 0 <= k < |rs| ==> rs[k].name != vm
    ensures StateOf(Some(rs), vm) != Absent ==>
              && 0 <= i < |rs| && rs[i].name == vm && (forall k :: 0 <= k < i ==> rs[k].name != vm)
              && StateOf(Some(rs), vm) == if rs[i].status == "online" then Online else Offline
  {
    i := 0;
    if rs != [] && rs[0].name != vm {
      i := FirstRecordDecides(rs[1..], vm);
      i := i + 1;
    }
  }

  /** One turn of the loop: the run.sh child is gone, or the runner was looked up at some time. */
  datatype Poll = Gone | Saw(now: nat, state: RunnerState)

  datatype Verdict = Recycle(at: nat) | Exited | Watching

  predicate Unhealthy(p: Poll) { p.Saw? && (p.state == Absent || p.state == Offline) }

  predicate Healthy(p: Poll) { p.Saw? && p.state == Online }

  function Elapsed(since: nat, now: nat): nat { SaturatingSub(now, since) }

  method HealthMonitor(trace: seq<Poll>, grace: nat) returns (v: Verdict, ghost n: nat)
    ensures n <= |trace| && (forall i :: 0 <= i < n ==> trace[i].Saw? && !Overdue(trace, i, grace))
    ensures match v
            case Recycle(at) => n < |trace| && Overdue(trace, n, grace) && at == trace[n].now
            case Exited => n < |trace| && trace[n].Gone?
            case Watching => n == |trace|
    ensures v == Run(trace, None, grace)
  {
    n := VerdictLaw(trace, 0, None, grace);
    var unhealthySince: Option<nat> := None;
    var k := 0;
    assert trace[0..] == trace;
    while k < |trace| && trace[k].Saw?
      invariant k <= |trace|
      invariant Run(trace[k..], unhealthySince, grace) == Run(trace, None, grace)
    {
      RunLaw(trace, k, unhealthySince, grace);
      match trace[k].state {
        case Online => unhealthySince := None;
        case Unknown =>
        case Absent | Offline =>
          if unhealthySince.None? { unhealthySince := Some(trace[k].now); }
          if Elapsed(unhealthySince.value, trace[k].now) >= grace { return Recycle(trace[k].now), n; }
      }
      k := k + 1;
    }
    v := if k < |trace| then Exited else Watching;
  }

  // ---------- when a runner is overdue, without the timer ----------

  /** Poll `s` opens the unhealthy streak that poll `n` is in: the first Absent or Offline since the
      last Online. */
  ghost predicate Opens(trace: seq<Poll>, s: int, n: int)
  {
    && 0 <= s <= n < |trace| && Unhealthy(trace[s])
    && (forall i :: s <= i <= n ==> !Healthy(trace[i]))
    && (forall i :: 0 <= i < s && Unhealthy(trace[i]) ==> exists j :: i < j < s && Healthy(trace[j]))
  }

  /** Poll `n` is Absent or Offline, at least the grace period after its streak opened. */
  ghost predicate Overdue(trace: seq<Poll>, n: int, grace: nat)
  {
    && 0 <= n < |trace| && Unhealthy(trace[n])
    && exists s :: Opens(trace, s, n) && Elapsed(trace[s].now, trace[n].now) >= grace
  }

  /** From poll `s` to poll `n` the runner was never seen online, at both it was absent or offline, `s` is the
      first such since it was last online, and the grace period lies between. */
  ghost predicate DownLongEnough(trace: seq<Poll>, s: int, n: int, grace: nat)
  {
    && 0 <= s <= n < |trace|
    && trace[s].Saw? && (trace[s].state == Absent || trace[s].state == Offline)
    && trace[n].Saw? && (trace[n].state == Absent || trace[n].state == Offline)
    && (forall i :: s <= i <= n ==> !(trace[i].Saw? && trace[i].state == Online))
    && (forall i :: 0 <= i < s && trace[i].Saw? && (trace[i].state == Absent || trace[i].state == Offline) ==>
          exists j :: i < j < s && trace[j].Saw? && trace[j].state == Online)
    && (if trace[n].now <= trace[s].now then grace == 0 else trace[n].now - trace[s].now >= grace)
  }

  lemma OverdueMeans(trace: seq<Poll>, n: int, grace: nat)
    ensures Overdue(trace, n, grace) <==> exists s :: DownLongEnough(trace, s, n, grace)
  {
    if Overdue(trace, n, grace) {
      var s :| Opens(trace, s, n) && Elapsed(trace[s].now, trace[n].now) >= grace;
      forall i | 0 <= i < s && trace[i].Saw? && (trace[i].state == Absent || trace[i].state == Offline)
        ensures exists j :: i < j < s && trace[j].Saw? && trace[j].state == Online
      {
        assert Unhealthy(trace[i]);
        var j :| i < j < s && Healthy(trace[j]);
      }
      forall i | s <= i <= n ensures !(trace[i].Saw? && trace[i].state == Online) {
        assert !Healthy(trace[i]);
      }
      assert DownLongEnough(trace, s, n, grace);
    }
    if s :| DownLongEnough(trace, s, n, grace) {
      forall i | 0 <= i < s && Unhealthy(trace[i]) ensures exists j :: i < j < s && Healthy(trace[j]) {
        var j :| i < j < s && trace[j].Saw? && trace[j].state == Online;
        assert Healthy(trace[j]);
      }
      assert Opens(trace, s, n);
    }
  }

  /** The runner is recycled if and only if, before its child is gone, some poll finds it down long enough;
      and then at the first such poll. */
  lemma RecycledExactly(trace: seq<Poll>, grace: nat) returns (n: nat)
    ensures Run(trace, None, grace).Recycle? <==>
            exists k, s :: DownLongEnough(trace, s, k, grace) && forall i :: 0 <= i <= k ==> trace[i].Saw?
    ensures Run(trace, None, grace).Recycle? ==>
              && n < |trace| && trace[n].Saw? && Run(trace, None, grace).at == trace[n].now
              && (exists s :: DownLongEnough(trace, s, n, grace))
              && (forall k, s :: 0 <= k < n ==> !DownLongEnough(trace, s, k, grace))
  {
    n := FirstOverdue(trace, grace);
    if Run(trace, None, grace).Recycle? { OverdueMeans(trace, n, grace); }
    forall k, s | DownLongEnough(trace, s, k, grace) ensures Overdue(trace, k, grace) {
      OverdueMeans(trace, k, grace);
    }
  }

  lemma FirstOverdue(trace: seq<Poll>, grace: nat) returns (n: nat)
    ensures n <= |trace| && (forall i :: 0 <= i < n ==> trace[i].Saw? && !Overdue(trace, i, grace))
    ensures match Run(trace, None, grace)
            case Recycle(at) => n < |trace| && Overdue(trace, n, grace) && at == trace[n].now
            case Exited => n < |trace| && trace[n].Gone?
            case Watching => n == |trace|
  {
    assert trace[0..] == trace;
    n := VerdictLaw(trace, 0, None, grace);
  }

  /** The timer after `n` polls: the time of the poll that opened the running streak, if any. */
  ghost predicate SinceIs(trace: seq<Poll>, n: int, since: Option<nat>)
    requires 0 <= n <= |trace|
  {
    match since
    case None => forall i :: 0 <= i < n && Unhealthy(trace[i]) ==> exists j :: i < j < n && Healthy(trace[j])
    case Some(t) => exists s :: Opens(trace, s, n - 1) && trace[s].now == t
  }

  function Step(p: Poll, since: Option<nat>): Option<nat>
    requires p.Saw?
  {
    if p.state == Online then None
    else if p.state == Unknown || since.Some? then since
    else Some(p.now)
  }

  lemma OpensUnique(trace: seq<Poll>, s: int, t: int, n: int)
    requires Opens(trace, s, n) && Opens(trace, t, n)
    ensures s == t
  {}

  lemma StepLaw(trace: seq<Poll>, n: int, since: Option<nat>, grace: nat)
    requires 0 <= n < |trace| && trace[n].Saw? && SinceIs(trace, n, since)
    ensures SinceIs(trace, n + 1, Step(trace[n], since))
    ensures Overdue(trace, n, grace) <==>
              Unhealthy(trace[n]) && Elapsed(Step(trace[n], since).value, trace[n].now) >= grace
  {
    if since.Some? {
      var s :| Opens(trace, s, n - 1) && trace[s].now == since.value;
      if !Healthy(trace[n]) {
        assert Opens(trace, s, n);
      } else {
        assert forall i :: 0 <= i < n + 1 && Unhealthy(trace[i]) ==> i < n < n + 1 && Healthy(trace[n]);
      }
    } else if Unhealthy(trace[n]) {
      assert Opens(trace, n, n);
    }
    if Unhealthy(trace[n]) {
      var s :| Opens(trace, s, n) && trace[s].now == Step(trace[n], since).value;
      forall t | Opens(trace, t, n) ensures t == s { OpensUnique(trace, s, t, n); }
    }
  }

  /** From poll `k` on, the loop stops at the first poll that is overdue or finds the child gone. */
  lemma {:induction false} VerdictLaw(trace: seq<Poll>, k: nat, since: Option<nat>, grace: nat) returns (n: nat)
    requires k <= |trace| && SinceIs(trace, k, since)
    ensures k <= n <= |trace| && (forall i :: k <= i < n ==> trace[i].Saw? && !Overdue(trace, i, grace))
    ensures match Run(trace[k..], since, grace)
            case Recycle(at) => n < |trace| && Overdue(trace, n, grace) && at == trace[n].now
            case Exited => n < |trace| && trace[n].Gone?
            case Watching => n == |trace|
    decreases |trace| - k
  {
    n := k;
    if k < |trace| && trace[k].Saw? {
      StepLaw(trace, k, since, grace);
      RunLaw(trace, k, since, grace);
      if !Overdue(trace, k, grace) { n := VerdictLaw(trace, k + 1, Step(trace[k], since), grace); }
    }
  }

  // ---------- unknown answers do not count ----------

  /** The loop on values, from a given timer. */
  function Run(trace: seq<Poll>, since: Option<nat>, grace: nat): Verdict
  {
    if trace == [] then Watching
    else if trace[0].Gone? then Exited
    else
      var next := Step(trace[0], since);
      if Unhealthy(trace[0]) && Elapsed(next.value, trace[0].now) >= grace then Recycle(trace[0].now)
      else Run(trace[1..], next, grace)
  }

  lemma RunLaw(trace: seq<Poll>, n: int, since: Option<nat>, grace: nat)
    requires 0 <= n < |trace| && trace[n].Saw?
    ensures Run(trace[n..], since, grace) ==
              var next := Step(trace[n], since);
              if Unhealthy(trace[n]) && Elapsed(next.value, trace[n].now) >= grace then Recycle(trace[n].now)
              else Run(trace[n + 1..], next, grace)
  {
    assert trace[n..][1..] == trace[n + 1..];
  }

  function DropUnknown(trace: seq<Poll>): seq<Poll>
  {
    if trace == [] then []
    else (if trace[0].Saw? && trace[0].state == Unknown then [] else [trace[0]]) + DropUnknown(trace[1..])
  }

  /** Deleting the polls whose query failed leaves the verdict, and its time, as they were. */
  lemma {:induction false} UnknownIsIgnored(trace: seq<Poll>, since: Option<nat>, grace: nat)
    ensures Run(DropUnknown(trace), since, grace) == Run(trace, since, grace)
  {
    if trace != [] && trace[0].Saw? {
      UnknownIsIgnored(trace[1..], Step(trace[0], since), grace);
      if trace[0].state != Unknown {
        assert DropUnknown(trace)[1..] == DropUnknown(trace[1..]);
      } else {
        assert DropUnknown(trace) == DropUnknown(trace[1..]);
      }
    }
  }
}
