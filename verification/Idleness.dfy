/** Who is stopped for being idle, spelled out: how long a runner must have been idle, how many are stopped,
    and what its record showed in the cycles before. */
module Idleness {
  import opened Prelude
  import opened Naming
  import opened Config
  import opened GitHub
  import opened Reconcile
  import opened Cycle
  import opened ScaleDown
  import opened SupervisorRuns
  import Sizing

  /** At least `timeout` has passed since then; a clock that reads earlier counts as none. */
  predicate Waited(since: nat, now: nat, timeout: nat)
  {
    if now <= since then timeout == 0 else now - since >= timeout
  }

  /** The candidates whose timer is that old. */
  function WaitedAt(cs: seq<Candidate>, now: nat, timeout: nat): set<nat>
  {
    set k | 0 <= k < |cs| && cs[k].since.Some? && Waited(cs[k].since.value, now, timeout)
  }

  lemma LongIdleMeans(c: Candidate, now: nat, timeout: nat)
    ensures c.LongIdle(now, timeout) <==> c.since.Some? && Waited(c.since.value, now, timeout)
  {
  }

  lemma {:induction false} LongCountLast(cs: seq<Candidate>, now: nat, timeout: nat)
    requires cs != []
    ensures LongCount(cs, now, timeout) ==
            LongCount(cs[..|cs| - 1], now, timeout) + if cs[|cs| - 1].LongIdle(now, timeout) then 1 else 0
  {
    if |cs| > 1 {
      LongCountLast(cs[1..], now, timeout);
      assert cs[1..][..|cs| - 2] == cs[..|cs| - 1][1..];
    }
  }

  lemma {:induction false} LongCountMeans(cs: seq<Candidate>, now: nat, timeout: nat)
    ensures LongCount(cs, now, timeout) == |WaitedAt(cs, now, timeout)|
  {
    if cs == [] {
      assert WaitedAt(cs, now, timeout) == {};
    } else {
      LongCountMeans(cs[..|cs| - 1], now, timeout);
      LongCountLast(cs, now, timeout);
      WaitedStep(cs, now, timeout);
    }
  }

  lemma WaitedStep(cs: seq<Candidate>, now: nat, timeout: nat)
    requires cs != []
    ensures var init, n := cs[..|cs| - 1], |cs| - 1;
            && n !in WaitedAt(init, now, timeout)
            && WaitedAt(cs, now, timeout) ==
               WaitedAt(init, now, timeout) + if cs[n].LongIdle(now, timeout) then {n} else {}
  {
    var init, n := cs[..|cs| - 1], |cs| - 1;
    LongIdleMeans(cs[n], now, timeout);
    forall i: nat ensures i in WaitedAt(cs, now, timeout) <==>
                          i in WaitedAt(init, now, timeout) || (i == n && cs[n].LongIdle(now, timeout))
    {
      assert i < n ==> init[i] == cs[i];
    }
  }

  /** A pool stops as many workers as it counts beyond what it wants, or as many as have waited that long if
      these are fewer. */
  lemma StoppedNumber(sc: Scene, p: Pool)
    requires p.minWarm <= p.max && TimersCover(sc)
    ensures var t := Count(p, sc.view);
            var excess := if t.Present() > t.desired then t.Present() - t.desired else 0;
            |Stopped(sc, p)| == Min(excess, |WaitedAt(Queue(sc, p, t), sc.now, sc.idleTimeout)|)
  {
    var q := Queue(sc, p, Count(p, sc.view));
    StoppedPrefix(sc, p);
    SlotsOfLength(q[..Reach(sc, p)]);
    LongCountMeans(q, sc.now, sc.idleTimeout);
  }

  /** The queue goes by the timers: who has been idle longer comes first. */
  lemma QueueByTimers(sc: Scene, p: Pool)
    requires p.minWarm <= p.max && TimersCover(sc)
    ensures var q := Queue(sc, p, Count(p, sc.view));
            && (forall i :: 0 <= i < |q| ==> q[i].runner.name in sc.idleSince)
            && (forall i, j :: 0 <= i < j < |q| ==>
                  sc.idleSince[q[i].runner.name] <= sc.idleSince[q[j].runner.name])
  {
    var t := Count(p, sc.view);
    var q := Queue(sc, p, t);
    QueueMembers(sc, p);
    var cs := Candidates(p.name, t.idle, t.active, sc.idleSince);
    CandidateMembers(p.name, t.idle, t.active, sc.idleSince);
    OldestFirstOrder(cs, 0, sc.now);
    forall i | 0 <= i < |q|
      ensures q[i].runner.name in sc.idleSince && q[i].Key(sc.now) == sc.idleSince[q[i].runner.name]
    {
      TimerOf(cs, q[i], sc.idleSince);
    }
  }

  lemma TimerOf(cs: seq<Candidate>, c: Candidate, idleSince: map<string, nat>)
    requires c in cs && c.since.Some?
    requires forall i :: 0 <= i < |cs| ==> cs[i].since == Since(idleSince, cs[i].runner.name)
    ensures c.runner.name in idleSince && c.since == Some(idleSince[c.runner.name])
  {
    var k :| 0 <= k < |cs| && cs[k] == c;
  }

  /** Whose slot is stopped: an idle runner with a label of the pool reads it from its name, and its timer is
      as old as the idle timeout. */
  ghost predicate IdleLongEnough(sc: Scene, p: Pool, r: Runner, s: nat)
  {
    && r in sc.view.runners && r.status == "online" && !r.busy && Sizing.Carries(p, r)
    && SlotOfVm(p.name, r.name) == Some(s)
    && r.name in sc.idleSince && Waited(sc.idleSince[r.name], sc.now, sc.idleTimeout)
  }

  /** No slot is stopped but that of a runner idle long enough. */
  lemma StoppedWasIdle(sc: Scene, p: Pool, s: nat) returns (r: Runner)
    requires p.minWarm <= p.max && TimersCover(sc) && s in Stopped(sc, p)
    ensures IdleLongEnough(sc, p, r, s)
  {
    var t := Count(p, sc.view);
    var q := Queue(sc, p, t);
    StoppedExact(sc, p, s);
    QueueMembers(sc, p);
    var k :| 0 <= k < Reach(sc, p) && q[k].slot == s;
    r := q[k].runner;
    LongBeforeReach(q, k, ReachOf(sc, p, t), sc.now, sc.idleTimeout);
    LongIdleMeans(q[k], sc.now, sc.idleTimeout);
    var cs := Candidates(p.name, t.idle, t.active, sc.idleSince);
    CandidateMembers(p.name, t.idle, t.active, sc.idleSince);
    OldestFirstOrder(cs, 0, sc.now);
    TimerOf(cs, q[k], sc.idleSince);
    MineMembers(p, sc.view.runners);
    var m :| 0 <= m < |Mine(p, sc.view.runners)| && Mine(p, sc.view.runners)[m] == r;
    Sizing.OnlineMeans(r);
    Sizing.CarriesMeans(p, r);
  }

  /** In a sorted queue the first candidates, as many as are long idle, are those. */
  lemma {:induction false} LongBeforeReach(q: seq<Candidate>, k: nat, reach: nat, now: nat, timeout: nat)
    requires SortedByKey(q, now) && forall i :: 0 <= i < |q| ==> q[i].since.Some?
    requires k < reach <= LongCount(q, now, timeout)
    ensures q[k].LongIdle(now, timeout)
  {
    if !q[0].LongIdle(now, timeout) {
      NoneLong(q, now, timeout);
    } else if k > 0 {
      LongBeforeReach(q[1..], k - 1, reach - 1, now, timeout);
    }
  }

  // ---------- over runs ----------

  /** The clock never goes back between cycles that read the runner list. */
  predicate Timed(events: seq<Event>)
  {
    forall i, j :: 0 <= i < j < |events| && Reads(events[i]) && Reads(events[j]) ==>
      events[i].snap.now <= events[j].snap.now
  }

  /** Every cycle within the last `timeout` seconds that read the list shows the runner idle. */
  ghost predicate IdleThroughout(events: seq<Event>, name: string, now: nat, timeout: nat)
  {
    forall k :: 0 <= k < |events| && Reads(events[k]) && events[k].snap.now + timeout > now ==> IdleIn(events[k], name)
  }

  /** A slot that a cycle of any run stops is that of a runner which every cycle of the last `idle_timeout`
      seconds that read the list showed idle. */
  lemma StoppedWasIdleThroughout(f: Fleet, events: seq<Event>, e: Event, current: string, p: Pool, s: nat)
    returns (r: Runner)
    requires WarmWithinMax(f.pools) && p.minWarm <= p.max && Reads(e) && Timed(events + [e])
    requires s in Stopped(SceneOf(f, After(f, events, current).memory, e.snap, e.world, e.dryRun), p)
    ensures IdleIn(e, r.name) && SlotOfVm(p.name, r.name) == Some(s)
    ensures IdleThroughout(events + [e], r.name, e.snap.now, f.supervisor.idleTimeoutSeconds)
  {
    var m := After(f, events, current).memory;
    var sc := SceneOf(f, m, e.snap, e.world, e.dryRun);
    SceneHasTimers(f, m, e.snap, e.world, e.dryRun);
    r := StoppedWasIdle(sc, p, s);
    TimersOfScene(f, events, e, current);
    var j := IdleTimersExact(f, events + [e], current, r.name);
    Throughout(events + [e], r.name, j, e.snap.now, f.supervisor.idleTimeoutSeconds);
    var rs := e.snap.runners.value;
    var k :| 0 <= k < |rs| && rs[k] == r;
  }

  lemma TimersOfScene(f: Fleet, events: seq<Event>, e: Event, current: string)
    requires WarmWithinMax(f.pools) && Reads(e)
    ensures After(f, events + [e], current).memory.idleSince ==
            SceneOf(f, After(f, events, current).memory, e.snap, e.world, e.dryRun).idleSince
  {
    assert (events + [e])[..|events|] == events;
  }

  lemma Throughout(events: seq<Event>, name: string, j: int, now: nat, timeout: nat)
    requires Timed(events) && IdleFrom(events, name, j) && Waited(events[j].snap.now, now, timeout)
    requires forall k :: 0 <= k < |events| && Reads(events[k]) ==> events[k].snap.now <= now
    ensures IdleThroughout(events, name, now, timeout)
  {
  }
}
