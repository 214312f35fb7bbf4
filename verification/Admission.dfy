/** The launch gate of src/admission.rs: the pure decision, and the two waiting loops of `acquire`
    over the answers the kernel and the host give. */
module Admission {
  import opened Prelude
  import Config

  datatype Block = LowMem(avail: u64) | HighPsi(psi: real) | LowDisk(free: u64)

  datatype Probe = Probe(availMib: u64, psi: real, diskGib: u64)

  function Decide(p: Probe, cfg: Config.Admission): (r: Option<Block>)
    ensures r.None? <==> p.availMib >= cfg.minAvailMib && p.psi < cfg.psiMax && p.diskGib >= cfg.minDiskGib
  {
    if p.availMib < cfg.minAvailMib then Some(LowMem(p.availMib))
    else if p.psi >= cfg.psiMax then Some(HighPsi(p.psi))
    else if p.diskGib < cfg.minDiskGib then Some(LowDisk(p.diskGib))
    else None
  }

  // ---------- acquire ----------

  datatype LockAnswer = Locked | WouldBlock | OtherErrno

  /** One non-blocking flock attempt and the clock when its answer is looked at. */
  datatype Attempt = Attempt(answer: LockAnswer, now: nat)

  datatype Outcome =
    | Granted(attempt: nat, probe: nat, waited: nat)
    | TimedOut(attempt: nat)
    | LockFailed(attempt: nat)
    | StillWaiting

  function Deadline(cfg: Config.Admission, start: nat): nat
  {
    start + Max(cfg.lockWaitSeconds, 1) * 20 % U64_MODULUS
  }

  /** The deadline is twenty times the configured wait away, and at least twenty seconds. */
  lemma DeadlineMeans(cfg: Config.Admission, start: nat)
    requires cfg.lockWaitSeconds * 20 < U64_MODULUS
    ensures Deadline(cfg, start) == start + if cfg.lockWaitSeconds == 0 then 20 else 20 * cfg.lockWaitSeconds
  {}

  /** The attempts before `n` were all refused in time. */
  predicate RefusedBefore(attempts: seq<Attempt>, deadline: nat, n: nat)
    requires n <= |attempts|
  {
    forall i :: 0 <= i < n ==> attempts[i].answer == WouldBlock && attempts[i].now <= deadline
  }

  /** Probe `m` is the first that finds the host clear. */
  predicate FirstClear(probes: seq<Probe>, cfg: Config.Admission, m: nat)
  {
    && m < |probes| && Decide(probes[m], cfg).None?
    && forall i :: 0 <= i < m ==> Decide(probes[i], cfg).Some?
  }

  /** The lock is taken at the first attempt that is not refused, given up at the first refusal past
      the deadline, and granted on the first clear probe made while it is held. */
  method Acquire(cfg: Config.Admission, start: nat, attempts: seq<Attempt>, probes: seq<Probe>) returns (r: Outcome)
    ensures match r
            case Granted(n, m, waited) =>
              n < |attempts| && RefusedBefore(attempts, Deadline(cfg, start), n) && attempts[n].answer == Locked &&
              FirstClear(probes, cfg, m) && waited == m * Max(cfg.pollSeconds, 1)
            case TimedOut(n) =>
              n < |attempts| && RefusedBefore(attempts, Deadline(cfg, start), n) &&
              attempts[n].answer == WouldBlock && attempts[n].now > Deadline(cfg, start)
            case LockFailed(n) =>
              n < |attempts| && RefusedBefore(attempts, Deadline(cfg, start), n) && attempts[n].answer == OtherErrno
            case StillWaiting =>
              || RefusedBefore(attempts, Deadline(cfg, start), |attempts|)
              || ((exists n :: 0 <= n < |attempts| && attempts[n].answer == Locked &&
                               RefusedBefore(attempts, Deadline(cfg, start), n))
                  && forall i :: 0 <= i < |probes| ==> Decide(probes[i], cfg).Some?)
  {
    var deadline := Deadline(cfg, start);
    var n := 0;
    while n < |attempts| && attempts[n].answer != Locked
      invariant n <= |attempts| && RefusedBefore(attempts, deadline, n)
    {
      if attempts[n].answer == OtherErrno { return LockFailed(n); }
      if attempts[n].now > deadline { return TimedOut(n); }
      n := n + 1;
    }
    if n == |attempts| { return StillWaiting; }
    var waited, m := 0, 0;
    while m < |probes| && Decide(probes[m], cfg).Some?
      invariant m <= |probes| && waited == m * Max(cfg.pollSeconds, 1)
      invariant forall i :: 0 <= i < m ==> Decide(probes[i], cfg).Some?
    {
      waited := waited + Max(cfg.pollSeconds, 1);
      m := m + 1;
    }
    if m == |probes| { return StillWaiting; }
    return Granted(n, m, waited);
  }
}
