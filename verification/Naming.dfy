/** Resource names (src/naming.rs): VM names, slot prefixes and worker unit names, and the two
    readers that recover a slot number from them. */
module Naming {
  import opened Prelude
  import opened Text

  const VM_PREFIX := "vmfleet-"
  const UNIT_HEAD := "vmfleet-worker-"
  const UNIT_TAIL := ".service"

  function VmName(pool: string, slot: nat, ts: nat, pid: nat): string
  {
    VM_PREFIX + pool + "-" + Decimal(slot) + "-" + Decimal(ts) + "-" + Decimal(pid)
  }

  function SlotVmPrefix(pool: string, slot: nat): string
  {
    VM_PREFIX + pool + "-" + Decimal(slot) + "-"
  }

  function WorkerUnit(slot: nat): string { UNIT_HEAD + Decimal(slot) + UNIT_TAIL }

  /** `strip_prefix`. */
  function StripPrefix(s: string, head: string): (r: Option<string>)
    ensures r.Some? <==> head <= s
    ensures r.Some? ==> s == head + r.value
  {
    if head <= s then Some(s[|head|..]) else None
  }

  /** `strip_suffix`. */
  function StripSuffix(s: string, tail: string): (r: Option<string>)
    ensures r.Some? ==> s == r.value + tail
  {
    if |tail| <= |s| && s[|s| - |tail|..] == tail then Some(s[..|s| - |tail|]) else None
  }

  /** The slot of a VM, given the pool that is asked about. */
  function SlotOfVm(pool: string, vm: string): Option<nat>
  {
    match StripPrefix(vm, VM_PREFIX + pool + "-")
    case None => None
    case Some(rest) => ParseUnsigned(UpTo(rest, '-'), U32_MODULUS)
  }

  /** The slot of a worker unit (`slot_from_unit` in src/supervisor.rs). */
  function SlotFromUnit(unit: string): Option<nat>
  {
    match StripPrefix(unit, UNIT_HEAD)
    case None => None
    case Some(rest) =>
      match StripSuffix(rest, UNIT_TAIL)
      case None => None
      case Some(body) => ParseUnsigned(body, U32_MODULUS)
  }

  predicate HyphenFree(pool: string) { '-' !in pool }

  /** The slots of the worker units systemd reports; a failed report reads as none. */
  function ActiveSlots(units: Option<seq<string>>): set<nat>
  {
    set u | u in Elems(units.GetOr([])) && SlotFromUnit(u).Some? :: SlotFromUnit(u).value
  }

  // ---------- whose VM is it ----------

  /** When the sweep prefix of (p, s) captures the VM that (q, t) started at `ts`: it is its own VM,
      or `q` itself continues `p` with the slot number, or `p` is `q` followed by the slot `t` and
      the start time happens to be `s`. */
  predicate Captures(p: string, s: nat, q: string, t: nat, ts: nat)
  {
    || (p == q && s == t)
    || p + "-" + Decimal(s) + "-" <= q + "-"
    || (p == q + "-" + Decimal(t) && s == ts)
  }

  /** A text and its hyphen are a prefix of `x-y`, `y` hyphen-free, just when the text is `x` or
      already lies, with its hyphen, inside `x`. */
  lemma PeelPrefix(a: string, x: string, y: string)
    requires '-' !in y
    ensures a + "-" <= x + "-" + y <==> a == x || a + "-" <= x
  {
    var whole := x + "-" + y;
    assert whole[..|x|] == x;
    assert forall i :: |x| < i < |whole| ==> whole[i] == y[i - |x| - 1];
    if a + "-" <= whole {
      assert whole[|a|] == (a + "-")[|a|] == '-';
      assert a == whole[..|a|] by { assert a == (a + "-")[..|a|]; }
      if |a| < |x| {
        assert a + "-" == whole[..|a| + 1] == x[..|a| + 1];
      }
    }
    if a + "-" <= x {
      assert whole == a + "-" + whole[|a| + 1..];
    }
  }

  /** Cutting at the last hyphen is unambiguous. */
  lemma CutAtLast(w: string, x: string, y: string, z: string)
    requires '-' !in x && '-' !in z
    ensures w + "-" + x == y + "-" + z <==> w == y && x == z
  {
    var u := w + "-" + x;
    if u == y + "-" + z {
      assert forall i :: |w| < i < |u| ==> u[i] == x[i - |w| - 1];
      assert forall i :: |y| < i < |u| ==> u[i] == z[i - |y| - 1];
      assert u[|w|] == '-' && u[|y|] == '-';
      assert w == u[..|w|] && y == u[..|y|];
      assert x == u[|w| + 1..] && z == u[|y| + 1..];
    }
  }

  lemma PrefixUnder(h: string, a: string, b: string)
    ensures h + a <= h + b <==> a <= b
    ensures h + a == h + b <==> a == b
  {
    assert (h + a)[|h|..] == a && (h + b)[|h|..] == b;
    if h + a <= h + b {
      assert a == (h + b)[|h|..|h| + |a|];
    }
    if a <= b {
      assert h + b == h + a + b[|a|..];
    }
  }

  lemma DecimalInjectiveIf(a: nat, b: nat)
    ensures Decimal(a) == Decimal(b) <==> a == b
  {
    DecimalShape(a);
    DecimalShape(b);
  }

  /** The sweep prefix of a slot captures a VM in exactly the cases of `Captures`, for every pool
      name, hyphens included. */
  lemma PrefixCaptures(p: string, s: nat, q: string, t: nat, ts: nat, pid: nat)
    ensures SlotVmPrefix(p, s) <= VmName(q, t, ts, pid) <==> Captures(p, s, q, t, ts)
  {
    var ds, dt, dts, dp := Decimal(s), Decimal(t), Decimal(ts), Decimal(pid);
    DecimalHasNo(s, '-'); DecimalHasNo(t, '-'); DecimalHasNo(ts, '-'); DecimalHasNo(pid, '-');
    var pp, qq := VM_PREFIX + p, VM_PREFIX + q;
    var a := pp + "-" + ds;
    PeelPrefix(a, qq + "-" + dt + "-" + dts, dp);
    PeelPrefix(a, qq + "-" + dt, dts);
    PeelPrefix(a, qq, dt);
    CutAtLast(pp, ds, qq + "-" + dt, dts);
    CutAtLast(pp, ds, qq, dt);
    PrefixUnder(VM_PREFIX, p, q);
    PrefixUnder(VM_PREFIX, p, q + "-" + dt);
    assert qq + "-" + dt == VM_PREFIX + (q + "-" + dt);
    DecimalInjectiveIf(s, t); DecimalInjectiveIf(s, ts);
    InsideOwner(p, ds, q);
  }

  lemma InsideOwner(p: string, ds: string, q: string)
    ensures p + "-" + ds + "-" <= q + "-" <==>
            (var a := VM_PREFIX + p + "-" + ds; a == VM_PREFIX + q || a + "-" <= VM_PREFIX + q)
  {
    var a := VM_PREFIX + p + "-" + ds;
    PeelPrefix(a, VM_PREFIX + q, "");
    assert VM_PREFIX + q + "-" + "" == VM_PREFIX + (q + "-");
    assert a + "-" == VM_PREFIX + (p + "-" + ds + "-");
    PrefixUnder(VM_PREFIX, p + "-" + ds + "-", q + "-");
  }

  lemma HyphenInside(x: string, y: string, whole: string)
    ensures x + "-" + y <= whole ==> '-' in whole
  {
    assert (x + "-" + y)[|x|] == '-';
  }

  /** Without hyphens in the pool names a sweep prefix captures the slot's own VMs and no other. */
  lemma HyphenFreePrefix(p: string, s: nat, q: string, t: nat, ts: nat, pid: nat)
    requires HyphenFree(p) && HyphenFree(q)
    ensures SlotVmPrefix(p, s) <= VmName(q, t, ts, pid) <==> p == q && s == t
  {
    PrefixCaptures(p, s, q, t, ts, pid);
    PeelPrefix(p + "-" + Decimal(s), q, "");
    assert q + "-" + "" == q + "-";
    HyphenInside(p, Decimal(s), q);
    HyphenInside(p, Decimal(s) + "-", q);
    HyphenInside(q, Decimal(t), p);
    assert p + "-" + (Decimal(s) + "-") == p + "-" + Decimal(s) + "-";
  }

  /** The hypothesis is needed: `a` and `a-1` are both accepted names, and slot 1 of `a` sweeps
      every VM of `a-1`. */
  lemma HyphenatedPoolsCollide(t: nat, ts: nat, pid: nat)
    ensures SlotVmPrefix("a", 1) <= VmName("a-1", t, ts, pid)
    ensures SlotOfVm("a", VmName("a-1", t, ts, pid)) == Some(1)
  {
    DecimalOfOne();
    assert "a" + "-" + Decimal(1) + "-" == "a-1" + "-";
    PrefixCaptures("a", 1, "a-1", t, ts, pid);
    var rest := "1" + ['-'] + (Decimal(t) + "-" + Decimal(ts) + "-" + Decimal(pid));
    assert VmName("a-1", t, ts, pid) == VM_PREFIX + "a" + "-" + rest;
    assert VmName("a-1", t, ts, pid)[|VM_PREFIX + "a" + "-"|..] == rest;
    UpToFirst("1", '-', Decimal(t) + "-" + Decimal(ts) + "-" + Decimal(pid));
    assert ParseUnsigned(Decimal(1), U32_MODULUS) == Some(1) by { ParseDecimal(1, U32_MODULUS); }
  }

  lemma DecimalOfOne()
    ensures Decimal(1) == "1"
  {
    assert DigitChar(1) == '1';
  }

  // ---------- reading the slot back ----------

  /** `slot_of_vm` recovers the slot of the owning pool's VMs, whatever the pool name. */
  lemma OwnerReadsSlot(p: string, t: u32, ts: nat, pid: nat)
    ensures SlotOfVm(p, VmName(p, t, ts, pid)) == Some(t)
  {
    var rest := Decimal(t) + ['-'] + (Decimal(ts) + "-" + Decimal(pid));
    assert VmName(p, t, ts, pid) == VM_PREFIX + p + "-" + rest;
    assert VmName(p, t, ts, pid)[|VM_PREFIX + p + "-"|..] == rest;
    DecimalHasNo(t, '-');
    UpToFirst(Decimal(t), '-', Decimal(ts) + "-" + Decimal(pid));
    ParseDecimal(t, U32_MODULUS);
  }

  /** What a pool reads from the VMs of a pool whose name continues its own with a hyphen. */
  function Continuation(p: string, q: string): Option<nat>
  {
    if p + "-" <= q then ParseUnsigned(UpTo(q[|p| + 1..], '-'), U32_MODULUS) else None
  }

  /** Neither name continues the other with a hyphen and a slot number. */
  predicate Strangers(p: string, q: string) { Continuation(p, q).None? && Continuation(q, p).None? }

  lemma ReadContinued(p: string, q: string, tail: string)
    requires p + "-" <= q
    ensures SlotOfVm(p, VM_PREFIX + q + "-" + tail) == Continuation(p, q)
  {
    var head, field := VM_PREFIX + p + "-", q[|p| + 1..];
    var vm := VM_PREFIX + q + "-" + tail;
    assert q == p + "-" + field;
    assert vm == head + (field + ['-'] + tail);
    assert vm[|head|..] == field + ['-'] + tail;
    UpToBefore(field, '-', tail);
  }

  /** When two pools look into one name, the longer pool name continues the shorter. */
  lemma TwoReaders(p: string, q: string, vm: string)
    requires VM_PREFIX + p + "-" <= vm && VM_PREFIX + q + "-" <= vm && |p| <= |q| && p != q
    ensures p + "-" <= q && SlotOfVm(p, vm) == Continuation(p, q)
  {
    var body := vm[|VM_PREFIX|..];
    assert vm == VM_PREFIX + body;
    HeadInside(p, body);
    HeadInside(q, body);
    var tail := body[|q| + 1..];
    assert p == body[..|p|] && q == body[..|q|] by {
      assert p == (p + "-")[..|p|] && q == (q + "-")[..|q|];
    }
    assert p + "-" <= q;
    assert body == q + "-" + tail;
    assert vm == VM_PREFIX + q + "-" + tail;
    ReadContinued(p, q, tail);
  }

  lemma HeadInside(p: string, body: string)
    requires VM_PREFIX + p + "-" <= VM_PREFIX + body
    ensures p + "-" <= body
  {
    assert VM_PREFIX + p + "-" == VM_PREFIX + (p + "-");
    PrefixUnder(VM_PREFIX, p + "-", body);
  }

  /** At most one of several strangers reads a slot from a name, so the first that does is found in
      any order. */
  lemma OneReader(p: string, q: string, vm: string)
    requires Strangers(p, q) && SlotOfVm(p, vm).Some? && SlotOfVm(q, vm).Some?
    ensures p == q
  {
    if p != q {
      if |p| <= |q| { TwoReaders(p, q, vm); } else { TwoReaders(q, p, vm); }
    }
  }

  /** ... and only strangers are so: two other pools have a name from which both read a slot. */
  lemma StrangersExact(p: string, q: string)
    requires p != q
    ensures Strangers(p, q) <==> forall vm :: !(SlotOfVm(p, vm).Some? && SlotOfVm(q, vm).Some?)
  {
    if Strangers(p, q) {
      forall vm ensures !(SlotOfVm(p, vm).Some? && SlotOfVm(q, vm).Some?) {
        if SlotOfVm(p, vm).Some? && SlotOfVm(q, vm).Some? { OneReader(p, q, vm); }
      }
    } else if Continuation(p, q).Some? {
      BothRead(p, q, 0, 0, 0);
    } else {
      BothRead(q, p, 0, 0, 0);
    }
  }

  /** A pool and its continuation read different things from the continuation's VMs. */
  lemma BothRead(p: string, q: string, t: u32, ts: nat, pid: nat)
    requires Continuation(p, q).Some?
    ensures SlotOfVm(p, VmName(q, t, ts, pid)) == Continuation(p, q)
    ensures SlotOfVm(q, VmName(q, t, ts, pid)) == Some(t)
  {
    OwnerReadsSlot(q, t, ts, pid);
    ReadContinued(p, q, Fields(t, ts, pid));
    NameFields(q, t, ts, pid);
  }

  function Fields(t: nat, ts: nat, pid: nat): string { Decimal(t) + "-" + Decimal(ts) + "-" + Decimal(pid) }

  lemma NameFields(q: string, t: nat, ts: nat, pid: nat)
    ensures VmName(q, t, ts, pid) == VM_PREFIX + q + "-" + Fields(t, ts, pid)
  {}

  /** Another pool reads nothing from a stranger's VMs. */
  lemma StrangerReadsNothing(p: string, q: string, t: u32, ts: nat, pid: nat)
    requires Strangers(p, q) && p != q
    ensures SlotOfVm(p, VmName(q, t, ts, pid)) == None
  {
    OwnerReadsSlot(q, t, ts, pid);
    if SlotOfVm(p, VmName(q, t, ts, pid)).Some? { OneReader(p, q, VmName(q, t, ts, pid)); }
  }

  lemma HyphenFreeStrangers(p: string, q: string)
    requires HyphenFree(p) && HyphenFree(q)
    ensures Strangers(p, q)
  {
    HyphenInside(p, "", q);
    HyphenInside(q, "", p);
    assert p + "-" + "" == p + "-" && q + "-" + "" == q + "-";
  }

  /** The pool names that look like another's VMs, up to their slot, and up to their start time. */
  function UpToSlot(q: string, t: nat): string { q + "-" + Decimal(t) }

  function UpToStart(q: string, t: nat, ts: nat): string { UpToSlot(q, t) + "-" + Decimal(ts) }

  /** What a pool reads from the VMs of another: the field by which the other's name continues its own,
      or the start time or the process id, when its own name is the other's with the slot, or the slot
      and the start time, appended. */
  function ForeignReading(p: string, q: string, t: nat, ts: nat, pid: nat): Option<nat>
  {
    if p + "-" <= q then Continuation(p, q)
    else if p == UpToSlot(q, t) then (if ts < U32_MODULUS then Some(ts) else None)
    else if p == UpToStart(q, t, ts) then (if pid < U32_MODULUS then Some(pid) else None)
    else None
  }

  /** `slot_of_vm` on another pool's VM, for every two names. */
  lemma ForeignReadingExact(p: string, q: string, t: nat, ts: nat, pid: nat)
    requires p != q
    ensures SlotOfVm(p, VmName(q, t, ts, pid)) == ForeignReading(p, q, t, ts, pid)
  {
    var dt, dts, dp := Decimal(t), Decimal(ts), Decimal(pid);
    var vm := VmName(q, t, ts, pid);
    if p + "-" <= q {
      NameFields(q, t, ts, pid);
      ReadContinued(p, q, Fields(t, ts, pid));
    } else if p == UpToSlot(q, t) {
      ReadField(p, ts, vm, ['-'] + dp);
    } else if p == UpToStart(q, t, ts) {
      ReadField(p, pid, vm, []);
    } else {
      OthersDoNotLook(p, q, t, ts, pid);
    }
  }

  lemma ReadField(p: string, n: nat, vm: string, tail: string)
    requires vm == VM_PREFIX + p + "-" + Decimal(n) + tail && (tail == [] || tail[0] == '-')
    ensures SlotOfVm(p, vm) == if n < U32_MODULUS then Some(n) else None
  {
    var head := VM_PREFIX + p + "-";
    assert vm == head + (Decimal(n) + tail);
    assert vm[|head|..] == Decimal(n) + tail;
    FirstField(n, tail);
    ParseDecimal(n, U32_MODULUS);
  }

  lemma FirstField(n: nat, tail: string)
    requires tail == [] || tail[0] == '-'
    ensures UpTo(Decimal(n) + tail, '-') == Decimal(n)
  {
    DecimalHasNo(n, '-');
    if tail == [] {
      UpToWhole(Decimal(n), '-');
      assert Decimal(n) + tail == Decimal(n);
    } else {
      UpToFirst(Decimal(n), '-', tail[1..]);
      assert Decimal(n) + tail == Decimal(n) + ['-'] + tail[1..];
    }
  }

  lemma OthersDoNotLook(p: string, q: string, t: nat, ts: nat, pid: nat)
    requires p != q && !(p + "-" <= q)
    requires p != UpToSlot(q, t) && p != UpToStart(q, t, ts)
    ensures SlotOfVm(p, VmName(q, t, ts, pid)) == None
  {
    var dt, dts, dp := Decimal(t), Decimal(ts), Decimal(pid);
    DecimalHasNo(t, '-'); DecimalHasNo(ts, '-'); DecimalHasNo(pid, '-');
    PeelPrefix(p, q + "-" + dt + "-" + dts, dp);
    PeelPrefix(p, q + "-" + dt, dts);
    PeelPrefix(p, q, dt);
    var body := q + "-" + dt + "-" + dts + "-" + dp;
    assert VmName(q, t, ts, pid) == VM_PREFIX + body;
    if VM_PREFIX + p + "-" <= VM_PREFIX + body { HeadInside(p, body); }
  }

  /** A VM name lies under the sweep prefix of its own slot, and is a fleet name. */
  lemma OwnPrefix(p: string, s: nat, ts: nat, pid: nat)
    ensures SlotVmPrefix(p, s) <= VmName(p, s, ts, pid)
    ensures VM_PREFIX <= VmName(p, s, ts, pid)
  {
    PrefixCaptures(p, s, p, s, ts, pid);
    UnderFleetPrefix(p, s, VmName(p, s, ts, pid));
  }

  /** Everything under a slot's prefix is under the fleet's. */
  lemma UnderFleetPrefix(p: string, s: nat, vm: string)
    requires SlotVmPrefix(p, s) <= vm
    ensures VM_PREFIX <= vm
  {
    var tail := p + "-" + Decimal(s) + "-";
    assert SlotVmPrefix(p, s) == VM_PREFIX + tail;
    assert vm == VM_PREFIX + (tail + vm[|SlotVmPrefix(p, s)|..]);
  }

  /** Two slots of strangers whose prefixes both start one name are the same slot. */
  lemma OneSlotPerName(p: string, s: u32, q: string, t: u32, vm: string)
    requires Strangers(p, q)
    requires SlotVmPrefix(p, s) <= vm && SlotVmPrefix(q, t) <= vm
    ensures p == q && s == t
  {
    PrefixReadsSlot(p, s, vm);
    PrefixReadsSlot(q, t, vm);
    OneReader(p, q, vm);
  }

  /** Among strangers a sweep prefix captures the slot's own VMs and no other. */
  lemma StrangerPrefix(p: string, s: u32, q: string, t: u32, ts: nat, pid: nat)
    requires Strangers(p, q)
    ensures SlotVmPrefix(p, s) <= VmName(q, t, ts, pid) <==> p == q && s == t
  {
    OwnPrefix(q, t, ts, pid);
    if SlotVmPrefix(p, s) <= VmName(q, t, ts, pid) { OneSlotPerName(p, s, q, t, VmName(q, t, ts, pid)); }
  }

  /** Any name under a slot's prefix reads back as that slot. */
  lemma PrefixReadsSlot(p: string, s: u32, vm: string)
    requires SlotVmPrefix(p, s) <= vm
    ensures SlotOfVm(p, vm) == Some(s)
  {
    var head, pre := VM_PREFIX + p + "-", SlotVmPrefix(p, s);
    var rest := Decimal(s) + ['-'] + vm[|pre|..];
    assert pre == head + (Decimal(s) + ['-']);
    assert vm == pre + vm[|pre|..];
    assert vm == head + rest;
    assert vm[|head|..] == rest;
    DecimalHasNo(s, '-');
    UpToFirst(Decimal(s), '-', vm[|pre|..]);
    ParseDecimal(s, U32_MODULUS);
  }

  /** A slot is read from a unit just when the unit is the worker prefix, a slot number, and the suffix. */
  lemma SlotFromUnitMeans(u: string, s: nat)
    ensures SlotFromUnit(u) == Some(s) <==>
            exists body :: u == "vmfleet-worker-" + body + ".service" && ParseUnsigned(body, U32_MODULUS) == Some(s)
  {
    if SlotFromUnit(u) == Some(s) {
      var rest := StripPrefix(u, UNIT_HEAD).value;
      var body := StripSuffix(rest, UNIT_TAIL).value;
      assert u == "vmfleet-worker-" + body + ".service";
    }
    if body :| u == "vmfleet-worker-" + body + ".service" && ParseUnsigned(body, U32_MODULUS) == Some(s) {
      UnitBody(u, body);
    }
  }

  lemma UnitBody(u: string, body: string)
    requires u == UNIT_HEAD + body + UNIT_TAIL
    ensures SlotFromUnit(u) == ParseUnsigned(body, U32_MODULUS)
  {
    var rest := body + UNIT_TAIL;
    assert u == UNIT_HEAD + rest;
    assert u[|UNIT_HEAD|..] == rest;
    assert rest[|body|..] == UNIT_TAIL && rest[..|body|] == body;
  }

  /** A slot is read from a VM just when its name is the fleet's prefix, the pool's name, and a hyphen, and
      what follows up to the next hyphen is a slot number. */
  lemma SlotOfVmMeans(pool: string, vm: string, s: nat)
    ensures SlotOfVm(pool, vm) == Some(s) <==>
            exists rest ::
              vm == "vmfleet-" + pool + "-" + rest && ParseUnsigned(UpTo(rest, '-'), U32_MODULUS) == Some(s)
  {
    var head := VM_PREFIX + pool + "-";
    if SlotOfVm(pool, vm) == Some(s) {
      assert vm == "vmfleet-" + pool + "-" + StripPrefix(vm, head).value;
    }
    if rest :| vm == "vmfleet-" + pool + "-" + rest && ParseUnsigned(UpTo(rest, '-'), U32_MODULUS) == Some(s) {
      assert vm == head + rest && vm[|head|..] == rest;
    }
  }

  /** `slot_from_unit` inverts `worker_unit`. */
  lemma UnitRoundTrip(slot: u32)
    ensures SlotFromUnit(WorkerUnit(slot)) == Some(slot)
  {
    var u, d := WorkerUnit(slot), Decimal(slot);
    assert u == UNIT_HEAD + (d + UNIT_TAIL);
    assert u[|UNIT_HEAD|..] == d + UNIT_TAIL;
    assert (d + UNIT_TAIL)[|d|..] == UNIT_TAIL;
    assert (d + UNIT_TAIL)[..|d|] == d;
    ParseDecimal(slot, U32_MODULUS);
  }

  lemma WorkerUnitInjective(s: nat, t: nat)
    requires WorkerUnit(s) == WorkerUnit(t)
    ensures s == t
  {
    var u, v := WorkerUnit(s), WorkerUnit(t);
    assert Decimal(s) == u[|UNIT_HEAD|..|u| - |UNIT_TAIL|];
    assert Decimal(t) == v[|UNIT_HEAD|..|v| - |UNIT_TAIL|];
    DecimalInjectiveIf(s, t);
  }

  /** What the names look like. */
  lemma NamesLook()
    ensures VmName("a", 1, 2, 3) == "vmfleet-a-1-2-3" && SlotVmPrefix("a", 1) == "vmfleet-a-1-"
    ensures WorkerUnit(7) == "vmfleet-worker-7.service"
  {
    Digit(1, "1");
    Digit(2, "2");
    Digit(3, "3");
    Digit(7, "7");
  }

  lemma Digit(n: nat, s: string)
    requires n < 10 && |s| == 1 && s[0] as int == '0' as int + n
    ensures Decimal(n) == s
  {
    assert DigitChar(n) == s[0];
  }
}
