/** The passive update check of the supervisor (src/supervisor.rs): at most one background fetch,
    throttled, whose result only ever announces something newer. */
module UpdateCheck {
  import opened Prelude
  import Version

  /** When a check was last started, the newer version found, whether a receiver is held. */
  datatype Check = Check(lastCheck: Option<nat>, latest: Option<string>, inFlight: bool)

  /** `update_available`, as a parameter. */
  type Newer = (string, string) -> bool

  /** What `try_recv` answers. */
  datatype Answer = Empty | Disconnected | Sent(result: Option<string>)

  function Interval(hours: nat): nat { Max(hours, 1) * 3600 % U64_MODULUS }

  function Applied(c: Check, answer: Answer, current: string, newer: Newer): Check
  {
    if !c.inFlight || answer.Empty? then c
    else
      match answer
      case Sent(Some(v)) => c.(latest := if newer(v, current) then Some(v) else None, inFlight := false)
      case _ => c.(inFlight := false)
  }

  predicate Due(c: Check, now: nat, interval: nat)
  {
    !c.inFlight && (c.lastCheck.Some? ==> SaturatingSub(now, c.lastCheck.value) >= interval)
  }

  function Polled(c: Check, answer: Answer, now: nat, interval: nat, current: string, newer: Newer): Check
  {
    var applied := Applied(c, answer, current, newer);
    if Due(applied, now, interval) then applied.(lastCheck := Some(now), inFlight := true) else applied
  }

  // ---------- runs, with the fetching threads ----------

  datatype Status = Fetching | Delivered(result: Option<string>) | Died

  datatype Thread = Thread(started: nat, status: Status)

  datatype System = System(check: Check, threads: seq<Thread>)

  datatype Event =
    | Poll(now: nat)
    | Deliver(thread: nat, result: Option<string>)
    | Die(thread: nat)

  /** The receiver held belongs to the thread started last. */
  function AnswerOf(s: System): Answer
  {
    if s.threads == [] then Empty
    else
      match s.threads[|s.threads| - 1].status
      case Fetching => Empty
      case Delivered(r) => Sent(r)
      case Died => Disconnected
  }

  function Next(s: System, e: Event, interval: nat, current: string, newer: Newer): System
  {
    match e
    case Poll(now) =>
      var answer := AnswerOf(s);
      System(Polled(s.check, answer, now, interval, current, newer),
             s.threads
               + if Due(Applied(s.check, answer, current, newer), now, interval) then [Thread(now, Fetching)] else [])
    case Deliver(i, r) =>
      if i < |s.threads| && s.threads[i].status.Fetching?
      then s.(threads := s.threads[i := s.threads[i].(status := Delivered(r))]) else s
    case Die(i) =>
      if i < |s.threads| && s.threads[i].status.Fetching?
      then s.(threads := s.threads[i := s.threads[i].(status := Died)]) else s
  }

  function After(events: seq<Event>, interval: nat, current: string, newer: Newer): System
  {
    if events == [] then System(Check(None, None, false), [])
    else Next(After(events[..|events| - 1], interval, current, newer), events[|events| - 1], interval, current, newer)
  }

  ghost predicate Inv(s: System, interval: nat, current: string, newer: Newer)
  {
    && (forall i :: 0 <= i < |s.threads| && s.threads[i].status.Fetching? ==> i == |s.threads| - 1 && s.check.inFlight)
    && (s.check.inFlight ==> s.threads != [])
    && (s.check.lastCheck == if s.threads == [] then None else Some(s.threads[|s.threads| - 1].started))
    && (forall i :: 1 <= i < |s.threads| ==> SaturatingSub(s.threads[i].started, s.threads[i - 1].started) >= interval)
    && (s.check.latest.Some? ==> newer(s.check.latest.value, current))
  }

  lemma PollKeepsInv(s: System, now: nat, interval: nat, current: string, newer: Newer)
    requires Inv(s, interval, current, newer)
    ensures Inv(Next(s, Poll(now), interval, current, newer), interval, current, newer)
  {}

  lemma EndKeepsInv(s: System, i: nat, status: Status, interval: nat, current: string, newer: Newer)
    requires Inv(s, interval, current, newer) && i < |s.threads| && !status.Fetching?
    ensures Inv(s.(threads := s.threads[i := s.threads[i].(status := status)]), interval, current, newer)
  {}

  lemma InvKept(s: System, e: Event, interval: nat, current: string, newer: Newer)
    requires Inv(s, interval, current, newer)
    ensures Inv(Next(s, e, interval, current, newer), interval, current, newer)
  {
    match e
    case Poll(now) => PollKeepsInv(s, now, interval, current, newer);
    case Deliver(i, r) => if i < |s.threads| { EndKeepsInv(s, i, Delivered(r), interval, current, newer); }
    case Die(i) => if i < |s.threads| { EndKeepsInv(s, i, Died, interval, current, newer); }
  }

  lemma {:induction false} InvAlways(events: seq<Event>, interval: nat, current: string, newer: Newer)
    ensures Inv(After(events, interval, current, newer), interval, current, newer)
  {
    if events != [] {
      InvAlways(events[..|events| - 1], interval, current, newer);
      InvKept(After(events[..|events| - 1], interval, current, newer), events[|events| - 1], interval, current, newer);
    }
  }

  /** In every run at most one fetch is in flight, consecutive starts are at least the interval
      apart, and an announced version is newer than the running one. */
  lemma UpdateCheckSafe(events: seq<Event>, interval: nat, current: string)
    ensures var s := After(events, interval, current, Version.IsNewer);
            && (forall i, j :: 0 <= i < |s.threads| && 0 <= j < |s.threads| ==>
                  (s.threads[i].status.Fetching? && s.threads[j].status.Fetching? ==> i == j))
            && (forall i :: 1 <= i < |s.threads| ==>
                  SaturatingSub(s.threads[i].started, s.threads[i - 1].started) >= interval)
            && (s.check.latest.Some? ==> Version.IsNewer(s.check.latest.value, current))
  {
    InvAlways(events, interval, current, Version.IsNewer);
  }

  /** In every run a poll starts a fetch exactly when none is under way and the last one, if any,
      started at least the interval ago. */
  lemma PollStartsWhenDue(events: seq<Event>, now: nat, interval: nat, current: string)
    ensures var s, t := After(events, interval, current, Version.IsNewer),
                        After(events + [Poll(now)], interval, current, Version.IsNewer);
            t.threads == s.threads +
              if (forall i :: 0 <= i < |s.threads| ==> !s.threads[i].status.Fetching?)
                 && (s.threads != [] ==> SaturatingSub(now, s.threads[|s.threads| - 1].started) >= interval)
              then [Thread(now, Fetching)] else []
  {
    InvAlways(events, interval, current, Version.IsNewer);
    assert (events + [Poll(now)])[..|events|] == events;
    var s := After(events, interval, current, Version.IsNewer);
    StartsWhenDue(s, now, interval, current, Version.IsNewer);
  }

  lemma StartsWhenDue(s: System, now: nat, interval: nat, current: string, newer: Newer)
    requires Inv(s, interval, current, newer)
    ensures Due(Applied(s.check, AnswerOf(s), current, newer), now, interval) <==>
            (forall i :: 0 <= i < |s.threads| ==> !s.threads[i].status.Fetching?)
            && (s.threads != [] ==> SaturatingSub(now, s.threads[|s.threads| - 1].started) >= interval)
  {}

  /** In every run a poll that finds the last fetch answered announces what it found if that is newer than the
      running version, withdraws what was announced if it is not, and otherwise leaves it. */
  lemma PollAnnounces(events: seq<Event>, now: nat, interval: nat, current: string)
    ensures var s, t := After(events, interval, current, Version.IsNewer),
                        After(events + [Poll(now)], interval, current, Version.IsNewer);
            var answered := s.check.inFlight && s.threads != [] && s.threads[|s.threads| - 1].status.Delivered?
                            && s.threads[|s.threads| - 1].status.result.Some?;
            t.check.latest ==
              if !answered then s.check.latest
              else if Version.IsNewer(s.threads[|s.threads| - 1].status.result.value, current)
              then s.threads[|s.threads| - 1].status.result
              else None
  {
    PollLast(events, now, interval, current, Version.IsNewer);
    Announces(After(events, interval, current, Version.IsNewer), now, interval, current, Version.IsNewer);
  }

  lemma PollLast(events: seq<Event>, now: nat, interval: nat, current: string, newer: Newer)
    ensures After(events + [Poll(now)], interval, current, newer) ==
            Next(After(events, interval, current, newer), Poll(now), interval, current, newer)
  {
    assert (events + [Poll(now)])[..|events|] == events;
  }

  lemma Announces(s: System, now: nat, interval: nat, current: string, newer: Newer)
    ensures var t := Next(s, Poll(now), interval, current, newer);
            var answered := s.check.inFlight && s.threads != [] && s.threads[|s.threads| - 1].status.Delivered?
                            && s.threads[|s.threads| - 1].status.result.Some?;
            t.check.latest ==
              if !answered then s.check.latest
              else if newer(s.threads[|s.threads| - 1].status.result.value, current)
              then s.threads[|s.threads| - 1].status.result
              else None
  {
  }
}
