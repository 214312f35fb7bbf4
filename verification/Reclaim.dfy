/** The two reclaimers of leftover VMs: the worker's sweep of its own slot (src/worker.rs) and the
    fleet-wide garbage collection (src/commands.rs). */
module Reclaim {
  import opened Prelude
  import opened Naming
  import opened Text
  import Config
  import GitHub
  import Version

  /** The multipass daemon as its callers see it: the instances it holds, and the purge requests it
      was sent. Purging an instance in `wedged` fails. */
  class Multipass {
    var vms: set<string>
    var purges: seq<string>
    const wedged: set<string>

    constructor (vms: set<string>, wedged: set<string>)
      ensures this.vms == vms && this.wedged == wedged && purges == []
    {
      this.vms := vms;
      this.wedged := wedged;
      purges := [];
    }

    method Purge(name: string)
      modifies this
      ensures purges == old(purges) + [name]
      ensures vms == if name in wedged then old(vms) else old(vms) - {name}
    {
      purges := purges + [name];
      if name !in wedged { vms := vms - {name}; }
    }
  }

  // ---------- sweep ----------

  /** A name the sweep of a slot goes after: under the slot's prefix, and not the sweeper's own. */
  predicate SweepTarget(pool: string, slot: nat, own: string, name: string)
  {
    SlotVmPrefix(pool, slot) <= name && name != own
  }

  /** The names a sweep hears of: those listed, and the one in the prior state file. */
  function Heard(stateFile: Option<string>, listing: Option<seq<string>>): set<string>
  {
    Elems(listing.GetOr([])) + if stateFile.Some? then {Version.Trim(stateFile.value)} else {}
  }

  /** Of all names heard of, exactly those under the slot's prefix, its own apart, are asked to be purged,
      and those that can be are gone. */
  method SweepLeftovers(mp: Multipass, pool: string, slot: nat, own: string,
                        stateFile: Option<string>, listing: Option<seq<string>>)
    modifies mp
    ensures old(mp.purges) <= mp.purges
    ensures forall x :: x in mp.purges[|old(mp.purges)|..] <==>
              x != own && SlotVmPrefix(pool, slot) <= x
              && (x in listing.GetOr([]) || (stateFile.Some? && x == Version.Trim(stateFile.value)))
    ensures mp.vms == old(mp.vms)
              - ((set x | x in Heard(stateFile, listing) && x != own && SlotVmPrefix(pool, slot) <= x) - mp.wedged)
  {
    var prefix := SlotVmPrefix(pool, slot);
    PrefixNotEmpty(pool, slot);
    ghost var asked: set<string> := {};
    ghost var before := mp.purges;
    if stateFile.Some? {
      var prior := Version.Trim(stateFile.value);
      if prior != [] && prior != own && prefix <= prior {
        mp.Purge(prior);
        asked := {prior};
      }
    }
    var vms := listing.GetOr([]);
    for k := 0 to |vms|
      invariant before <= mp.purges && Elems(mp.purges[|before|..]) == asked
      invariant mp.vms == old(mp.vms) - (asked - mp.wedged)
      invariant asked == set x | x in Elems(vms[..k]) + Heard(stateFile, None) && x != own && prefix <= x
    {
      assert Elems(vms[..k + 1]) == Elems(vms[..k]) + {vms[k]};
      if prefix <= vms[k] && vms[k] != own {
        assert (mp.purges + [vms[k]])[|before|..] == mp.purges[|before|..] + [vms[k]];
        mp.Purge(vms[k]);
        asked := asked + {vms[k]};
      }
    }
    assert vms[..|vms|] == vms;
    assert asked == set x | x in Heard(stateFile, listing) && x != own && prefix <= x;
    assert forall x :: x in mp.purges[|before|..] <==> x in asked;
  }

  lemma PrefixNotEmpty(pool: string, slot: nat)
    ensures SlotVmPrefix(pool, slot) != []
  {
    assert SlotVmPrefix(pool, slot)[|SlotVmPrefix(pool, slot)| - 1] == '-';
  }

  // ---------- gc ----------

  /** The first pool, in configuration order, that reads a slot from the name. */
  function FindSlot(pools: seq<Config.Pool>, vm: string): Option<nat>
  {
    if pools == [] then None
    else if SlotOfVm(pools[0].name, vm).Some? then SlotOfVm(pools[0].name, vm)
    else FindSlot(pools[1..], vm)
  }

  predicate IsOrphan(f: Config.Fleet, active: set<nat>, vm: string)
  {
    && vm !in f.bases
    && match FindSlot(f.pools, vm) { case Some(s) => s !in active case None => true }
  }

  function Orphans(f: Config.Fleet, active: set<nat>, names: seq<string>): seq<string>
  {
    if names == [] then []
    else
      var last := names[|names| - 1];
      Orphans(f, active, names[..|names| - 1])
        + if VM_PREFIX <= last && IsOrphan(f, active, last) then [last] else []
  }

  predicate StaleRecord(r: GitHub.Runner) { VM_PREFIX <= r.name && !r.Online() }

  function StaleIds(rs: seq<GitHub.Runner>): seq<nat>
  {
    if rs == [] then []
    else StaleIds(rs[..|rs| - 1]) + if StaleRecord(rs[|rs| - 1]) then [rs[|rs| - 1].id] else []
  }

  /** `None` stands for the error return when the listing fails. */
  method Gc(f: Config.Fleet, units: Option<seq<string>>, listing: Option<seq<string>>,
            runners: Option<seq<GitHub.Runner>>, mp: Multipass)
    returns (r: Option<(nat, seq<nat>)>)
    modifies mp
    ensures listing.None? ==> r.None? && mp.vms == old(mp.vms) && mp.purges == old(mp.purges)
    ensures listing.Some? ==>
              var orphans := Orphans(f, ActiveSlots(units), listing.value);
              && mp.purges == old(mp.purges) + orphans
              && mp.vms == old(mp.vms) - (Elems(orphans) - mp.wedged)
              && r == Some((|orphans|, StaleIds(runners.GetOr([]))))
    ensures r.Some? && runners.None? ==> r.value.1 == []
    ensures r.Some? && runners.Some? ==> forall id :: id in r.value.1 <==>
              (exists k :: 0 <= k < |runners.value| && runners.value[k].id == id
                           && "vmfleet-" <= runners.value[k].name && runners.value[k].status != "online")
  {
    if listing.None? { return None; }
    var active := ActiveSlots(units);
    var names, purged := listing.value, 0;
    for k := 0 to |names|
      invariant purged == |Orphans(f, active, names[..k])|
      invariant mp.purges == old(mp.purges) + Orphans(f, active, names[..k])
      invariant mp.vms == old(mp.vms) - (Elems(Orphans(f, active, names[..k])) - mp.wedged)
    {
      var name := names[k];
      assert names[..k + 1][..|names[..k + 1]| - 1] == names[..k];
      if VM_PREFIX <= name && name !in f.bases {
        var slot := FindSlot(f.pools, name);
        var orphan := if slot.Some? then slot.value !in active else true;
        if orphan {
          mp.Purge(name);
          purged := purged + 1;
        }
      }
    }
    assert names[..|names|] == names;
    var rs, dereg := runners.GetOr([]), [];
    for k := 0 to |rs|
      invariant dereg == StaleIds(rs[..k])
    {
      assert rs[..k + 1][..|rs[..k + 1]| - 1] == rs[..k];
      if VM_PREFIX <= rs[k].name && !rs[k].Online() { dereg := dereg + [rs[k].id]; }
    }
    assert rs[..|rs|] == rs;
    ghost var idx := StaleIdsExact(rs);
    return Some((purged, dereg));
  }

  /** The records deleted are those of the listing, in its order, that carry the fleet's prefix and are not
      online: each of them, and no other. */
  lemma StaleIdsExact(rs: seq<GitHub.Runner>) returns (idx: seq<nat>)
    ensures Increasing(idx, |rs|) && |StaleIds(rs)| == |idx|
    ensures forall j :: 0 <= j < |idx| ==> StaleIds(rs)[j] == rs[idx[j]].id
    ensures forall k :: 0 <= k < |rs| ==> (k in idx <==> "vmfleet-" <= rs[k].name && rs[k].status != "online")
    ensures forall id :: id in StaleIds(rs) <==>
              (exists k :: 0 <= k < |rs| && rs[k].id == id && "vmfleet-" <= rs[k].name && rs[k].status != "online")
  {
    idx := StaleInOrder(rs);
    forall k | 0 <= k < |rs| ensures StaleRecord(rs[k]) <==> "vmfleet-" <= rs[k].name && rs[k].status != "online" {
      StaleMeans(rs[k]);
    }
    IdsOf(rs, idx, StaleIds(rs));
  }

  lemma StaleMeans(r: GitHub.Runner)
    ensures StaleRecord(r) <==> "vmfleet-" <= r.name && r.status != "online"
  {
  }

  lemma {:induction false} StaleInOrder(rs: seq<GitHub.Runner>) returns (idx: seq<nat>)
    ensures Increasing(idx, |rs|) && |StaleIds(rs)| == |idx|
    ensures forall j :: 0 <= j < |idx| ==> StaleIds(rs)[j] == rs[idx[j]].id
    ensures forall k :: 0 <= k < |rs| ==> (k in idx <==> StaleRecord(rs[k]))
  {
    idx := [];
    if rs != [] {
      var n := |rs| - 1;
      idx := StaleInOrder(rs[..n]);
      assert forall k :: 0 <= k < n ==> rs[..n][k] == rs[k];
      if StaleRecord(rs[n]) { idx := idx + [n]; }
    }
  }

  lemma IdsOf(rs: seq<GitHub.Runner>, idx: seq<nat>, ids: seq<nat>)
    requires Increasing(idx, |rs|) && |ids| == |idx| && forall j :: 0 <= j < |idx| ==> ids[j] == rs[idx[j]].id
    ensures forall id :: id in ids <==> exists k :: 0 <= k < |rs| && k in idx && rs[k].id == id
  {
    forall id | id in ids ensures exists k :: 0 <= k < |rs| && k in idx && rs[k].id == id {
      var j :| 0 <= j < |ids| && ids[j] == id;
      assert idx[j] in idx;
    }
    forall k: nat | k < |rs| && k in idx ensures rs[k].id in ids {
      var j :| 0 <= j < |idx| && idx[j] == k;
      assert ids[j] == rs[k].id;
    }
  }

  /** The VMs purged are those of the listing, in its order, that `OrphansExact` describes. */
  lemma {:induction false} OrphansInOrder(f: Config.Fleet, active: set<nat>, names: seq<string>) returns (idx: seq<nat>)
    ensures Increasing(idx, |names|) && |Orphans(f, active, names)| == |idx|
    ensures forall j :: 0 <= j < |idx| ==> Orphans(f, active, names)[j] == names[idx[j]]
    ensures forall k :: 0 <= k < |names| ==> (k in idx <==> VM_PREFIX <= names[k] && IsOrphan(f, active, names[k]))
  {
    idx := [];
    if names != [] {
      var n := |names| - 1;
      idx := OrphansInOrder(f, active, names[..n]);
      if VM_PREFIX <= names[n] && IsOrphan(f, active, names[n]) { idx := idx + [n]; }
    }
  }

  /** What gc purges, spelled out: fleet names of the listing that are no base's, and from which either no
      pool reads a slot, or the first that does reads one of no listed unit. */
  lemma GcPurgesExact(f: Config.Fleet, units: Option<seq<string>>, names: seq<string>, vm: string)
    ensures vm in Orphans(f, ActiveSlots(units), names) <==>
              && vm in names && "vmfleet-" <= vm && vm !in f.bases
              && (|| (forall i :: 0 <= i < |f.pools| ==> SlotOfVm(f.pools[i].name, vm).None?)
                  || exists i :: 0 <= i < |f.pools| && FirstReader(f.pools, vm, i)
                       && forall u :: u in units.GetOr([]) ==> SlotFromUnit(u) != SlotOfVm(f.pools[i].name, vm))
  {
    OrphansExact(f, ActiveSlots(units), names, vm);
    if j :| 0 <= j < |f.pools| && SlotOfVm(f.pools[j].name, vm).Some? {
      var i := FirstToRead(f.pools, vm, j);
      forall k | 0 <= k < |f.pools| && FirstReader(f.pools, vm, k) ensures k == i {
      }
      var s := SlotOfVm(f.pools[i].name, vm).value;
      assert s in ActiveSlots(units) <==> exists u :: u in units.GetOr([]) && SlotFromUnit(u) == Some(s);
    } else {
      NobodyReads(f.pools, vm);
    }
  }

  lemma {:induction false} NobodyReads(pools: seq<Config.Pool>, vm: string)
    requires forall i :: 0 <= i < |pools| ==> SlotOfVm(pools[i].name, vm).None?
    ensures FindSlot(pools, vm).None?
  {
    if pools != [] { NobodyReads(pools[1..], vm); }
  }

  /** No pool name continues another's with a hyphen and a slot number. Hyphen-free names are so, and
      most hyphenated ones: `gpu` and `gpu-large` are, `gpu` and `gpu-2` are not. */
  predicate StrangerPools(pools: seq<Config.Pool>)
  {
    forall p, q :: p in pools && q in pools ==> Strangers(p.name, q.name)
  }

  /** Among strangers the pool that reads a name is found wherever it stands in the list. */
  lemma {:induction false} FoundAnywhere(pools: seq<Config.Pool>, i: nat, vm: string)
    requires StrangerPools(pools) && i < |pools| && SlotOfVm(pools[i].name, vm).Some?
    ensures FindSlot(pools, vm) == SlotOfVm(pools[i].name, vm)
  {
    assert pools[0] in pools && pools[i] in pools;
    if SlotOfVm(pools[0].name, vm).Some? {
      OneReader(pools[0].name, pools[i].name, vm);
    } else {
      var rest := pools[1..];
      assert rest[i - 1] == pools[i] && forall p :: p in rest ==> p in pools;
      FoundAnywhere(rest, i - 1, vm);
    }
  }

  lemma {:induction false} FoundSomewhere(pools: seq<Config.Pool>, vm: string) returns (i: int)
    requires FindSlot(pools, vm).Some?
    ensures 0 <= i < |pools| && SlotOfVm(pools[i].name, vm) == FindSlot(pools, vm)
  {
    if SlotOfVm(pools[0].name, vm).Some? {
      i := 0;
    } else {
      i := FoundSomewhere(pools[1..], vm);
      i := i + 1;
    }
  }

  /** What gc finds for a name does not depend on the order of the pools if they are strangers. */
  lemma PoolOrderIrrelevant(ps: seq<Config.Pool>, qs: seq<Config.Pool>, vm: string)
    requires StrangerPools(ps) && forall p :: p in ps <==> p in qs
    ensures FindSlot(ps, vm) == FindSlot(qs, vm)
  {
    if FindSlot(ps, vm).Some? {
      var i := FoundSomewhere(ps, vm);
      assert ps[i] in qs;
      var j :| 0 <= j < |qs| && qs[j] == ps[i];
      FoundAnywhere(qs, j, vm);
    } else if FindSlot(qs, vm).Some? {
      var i := FoundSomewhere(qs, vm);
      assert qs[i] in ps;
      var j :| 0 <= j < |ps| && ps[j] == qs[i];
      FoundAnywhere(ps, j, vm);
    }
  }

  /** ... and only then: the slots found are the same in every order of the pools exactly when no name
      continues another with a slot number. */
  lemma OrderIrrelevantExact(pools: seq<Config.Pool>)
    requires Config.NamesDistinct(pools)
    ensures StrangerPools(pools) <==>
            forall qs, vm :: multiset(qs) == multiset(pools) ==> FindSlot(qs, vm) == FindSlot(pools, vm)
  {
    if StrangerPools(pools) {
      forall qs, vm | multiset(qs) == multiset(pools) ensures FindSlot(qs, vm) == FindSlot(pools, vm) {
        assert forall p :: p in pools <==> p in multiset(qs);
        PoolOrderIrrelevant(pools, qs, vm);
      }
    } else {
      var p, q :| p in pools && q in pools && !Strangers(p.name, q.name);
      var i :| 0 <= i < |pools| && pools[i] == p;
      var j :| 0 <= j < |pools| && pools[j] == q;
      if Continuation(p.name, q.name).Some? { OrderMatters(pools, i, j); } else { OrderMatters(pools, j, i); }
    }
  }

  function InFront(pools: seq<Config.Pool>, i: nat): (r: seq<Config.Pool>)
    requires i < |pools|
    ensures multiset(r) == multiset(pools)
  {
    assert pools == pools[..i] + [pools[i]] + pools[i + 1..];
    [pools[i]] + pools[..i] + pools[i + 1..]
  }

  /** A pool and its continuation, put in front, find different slots for one and the same VM. */
  lemma OrderMatters(pools: seq<Config.Pool>, i: nat, j: nat)
    requires i < |pools| && j < |pools| && Continuation(pools[i].name, pools[j].name).Some?
    ensures exists vm :: FindSlot(InFront(pools, i), vm) != FindSlot(InFront(pools, j), vm)
  {
    var n := Continuation(pools[i].name, pools[j].name).value;
    var t: u32 := if n == 0 then 1 else 0;
    var vm := VmName(pools[j].name, t, 0, 0);
    BothRead(pools[i].name, pools[j].name, t, 0, 0);
    assert FindSlot(InFront(pools, i), vm) == Some(n);
    assert FindSlot(InFront(pools, j), vm) == Some(t);
  }

  // ---------- which live VMs gc takes ----------

  /** The first pool that reads a name decides. */
  predicate FirstReader(pools: seq<Config.Pool>, vm: string, i: nat)
    requires i < |pools|
  {
    SlotOfVm(pools[i].name, vm).Some? && forall k :: 0 <= k < i ==> SlotOfVm(pools[k].name, vm).None?
  }

  lemma {:induction false} FirstReaderFinds(pools: seq<Config.Pool>, vm: string, i: nat)
    requires i < |pools| && FirstReader(pools, vm, i)
    ensures FindSlot(pools, vm) == SlotOfVm(pools[i].name, vm)
  {
    if i > 0 {
      assert SlotOfVm(pools[0].name, vm).None?;
      FirstReaderFinds(pools[1..], vm, i - 1);
    }
  }

  lemma {:induction false} FirstReaderExists(pools: seq<Config.Pool>, vm: string, j: nat) returns (i: nat)
    requires j < |pools| && SlotOfVm(pools[j].name, vm).Some?
    ensures i <= j && FirstReader(pools, vm, i)
  {
    i := j;
    if k :| 0 <= k < j && SlotOfVm(pools[k].name, vm).Some? { i := FirstReaderExists(pools, vm, k); }
  }

  lemma FirstToRead(pools: seq<Config.Pool>, vm: string, j: nat) returns (i: nat)
    requires j < |pools| && SlotOfVm(pools[j].name, vm).Some?
    ensures i <= j && FirstReader(pools, vm, i) && FindSlot(pools, vm) == SlotOfVm(pools[i].name, vm)
  {
    i := FirstReaderExists(pools, vm, j);
    FirstReaderFinds(pools, vm, i);
  }

  /** gc takes the VM of a slot it sees active exactly when the VM has no base's name and the first
      earlier pool that reads a slot from it, by its name alone, reads an inactive one. */
  lemma ActiveVmPurgedExact(f: Config.Fleet, active: set<nat>, j: nat, t: u32, ts: nat, pid: nat)
    requires Config.NamesDistinct(f.pools) && j < |f.pools| && t in active
    ensures var vm := VmName(f.pools[j].name, t, ts, pid);
            IsOrphan(f, active, vm) <==>
              vm !in f.bases && exists i :: 0 <= i < j && TakenBy(f.pools, active, i, j, t, ts, pid)
  {
    var vm := VmName(f.pools[j].name, t, ts, pid);
    OwnerReadsSlot(f.pools[j].name, t, ts, pid);
    var i := FirstToRead(f.pools, vm, j);
    forall k | 0 <= k < j
      ensures SlotOfVm(f.pools[k].name, vm) == ForeignReading(f.pools[k].name, f.pools[j].name, t, ts, pid)
    {
      ForeignReadingExact(f.pools[k].name, f.pools[j].name, t, ts, pid);
    }
    if IsOrphan(f, active, vm) {
      assert TakenBy(f.pools, active, i, j, t, ts, pid);
    }
    if k :| 0 <= k < j && TakenBy(f.pools, active, k, j, t, ts, pid) {
      assert k == i;
    }
  }

  predicate TakenBy(pools: seq<Config.Pool>, active: set<nat>, i: nat, j: nat, t: nat, ts: nat, pid: nat)
    requires i < |pools| && j < |pools|
  {
    var s := ForeignReading(pools[i].name, pools[j].name, t, ts, pid);
    && s.Some? && s.value !in active
    && forall k :: 0 <= k < i ==> ForeignReading(pools[k].name, pools[j].name, t, ts, pid).None?
  }

  /** Pool `p` reads something from a VM that `q` runs on slot `t`, at some start time and process id. */
  ghost predicate Meets(p: string, q: string, t: nat)
  {
    || Continuation(p, q).Some?
    || (!(p + "-" <= q) && (p == UpToSlot(q, t) || exists ts: u64 :: p == UpToStart(q, t, ts)))
  }

  /** The first pool before `j` that meets the VMs of slot `t` is `j`'s prefix, and reads `t` from them. */
  ghost predicate ReadsRight(pools: seq<Config.Pool>, j: nat, t: nat)
    requires j < |pools|
  {
    forall i {:trigger FirstToMeet(pools, i, j, t)} ::
      0 <= i < j && FirstToMeet(pools, i, j, t) ==> Continuation(pools[i].name, pools[j].name) == Some(t)
  }

  ghost predicate FirstToMeet(pools: seq<Config.Pool>, i: nat, j: nat, t: nat)
    requires i < |pools| && j < |pools|
  {
    Meets(pools[i].name, pools[j].name, t) && forall k :: 0 <= k < i ==> !Meets(pools[k].name, pools[j].name, t)
  }

  /** gc reads the right slot from every VM of slot `t` of pool `j`, whatever its start time and process
      id, exactly when the names and their order are as `ReadsRight` asks. */
  lemma SlotReadRightExact(pools: seq<Config.Pool>, j: nat, t: u32)
    requires Config.NamesDistinct(pools) && j < |pools|
    ensures ReadsRight(pools, j, t) <==>
            forall ts: u64, pid: u32 :: FindSlot(pools, VmName(pools[j].name, t, ts, pid)) == Some(t)
  {
    if ReadsRight(pools, j, t) {
      forall ts: u64, pid: u32 ensures FindSlot(pools, VmName(pools[j].name, t, ts, pid)) == Some(t) {
        RightlyRead(pools, j, t, ts, pid);
      }
    } else {
      var i :| 0 <= i < j && FirstToMeet(pools, i, j, t) && Continuation(pools[i].name, pools[j].name) != Some(t);
      var ts, pid := WronglyRead(pools, i, j, t);
    }
  }

  lemma RightlyRead(pools: seq<Config.Pool>, j: nat, t: u32, ts: u64, pid: u32)
    requires Config.NamesDistinct(pools) && j < |pools| && ReadsRight(pools, j, t)
    ensures FindSlot(pools, VmName(pools[j].name, t, ts, pid)) == Some(t)
  {
    var r := SomeReader(pools, j, t, ts, pid);
    FirstReadsRight(pools, r, j, t, ts, pid);
  }

  lemma SomeReader(pools: seq<Config.Pool>, j: nat, t: u32, ts: nat, pid: nat) returns (r: nat)
    requires j < |pools|
    ensures var vm := VmName(pools[j].name, t, ts, pid);
            r <= j && FirstReader(pools, vm, r) && FindSlot(pools, vm) == SlotOfVm(pools[r].name, vm)
  {
    OwnerReadsSlot(pools[j].name, t, ts, pid);
    r := FirstToRead(pools, VmName(pools[j].name, t, ts, pid), j);
  }

  lemma FirstReadsRight(pools: seq<Config.Pool>, r: nat, j: nat, t: u32, ts: u64, pid: u32)
    requires Config.NamesDistinct(pools) && r <= j < |pools| && ReadsRight(pools, j, t)
    requires FirstReader(pools, VmName(pools[j].name, t, ts, pid), r)
    ensures SlotOfVm(pools[r].name, VmName(pools[j].name, t, ts, pid)) == Some(t)
  {
    OwnerReadsSlot(pools[j].name, t, ts, pid);
    if r < j { EarlierReadsRight(pools, r, j, t, ts, pid); }
  }

  lemma EarlierReadsRight(pools: seq<Config.Pool>, r: nat, j: nat, t: u32, ts: u64, pid: u32)
    requires Config.NamesDistinct(pools) && r < j < |pools| && ReadsRight(pools, j, t)
    requires FirstReader(pools, VmName(pools[j].name, t, ts, pid), r)
    ensures SlotOfVm(pools[r].name, VmName(pools[j].name, t, ts, pid)) == Some(t)
  {
    ForeignReadingExact(pools[r].name, pools[j].name, t, ts, pid);
    ReadingMeets(pools[r].name, pools[j].name, t, ts, pid);
    var i := FirstMeeting(pools, r, j, t);
    BothRead(pools[i].name, pools[j].name, t, ts, pid);
    assert i == r;
  }

  lemma ReadingMeets(p: string, q: string, t: nat, ts: u64, pid: nat)
    requires ForeignReading(p, q, t, ts, pid).Some?
    ensures Meets(p, q, t)
  {
  }

  lemma {:induction false} FirstMeeting(pools: seq<Config.Pool>, r: nat, j: nat, t: nat) returns (i: nat)
    requires r < j < |pools| && Meets(pools[r].name, pools[j].name, t)
    ensures i <= r && FirstToMeet(pools, i, j, t)
  {
    i := r;
    if k :| 0 <= k < r && Meets(pools[k].name, pools[j].name, t) { i := FirstMeeting(pools, k, j, t); }
  }

  lemma WronglyRead(pools: seq<Config.Pool>, i: nat, j: nat, t: u32) returns (ts: u64, pid: u32)
    requires Config.NamesDistinct(pools) && i < j < |pools| && FirstToMeet(pools, i, j, t)
    requires Continuation(pools[i].name, pools[j].name) != Some(t)
    ensures FindSlot(pools, VmName(pools[j].name, t, ts, pid)) != Some(t)
  {
    var p, q := pools[i].name, pools[j].name;
    var other: u32 := if t == 0 then 1 else 0;
    ts, pid := other, other;
    if !(p + "-" <= q) && p != UpToSlot(q, t) {
      ts :| p == UpToStart(q, t, ts);
    }
    var vm := VmName(q, t, ts, pid);
    ForeignReadingExact(p, q, t, ts, pid);
    forall k | 0 <= k < i ensures SlotOfVm(pools[k].name, vm).None? {
      ForeignReadingExact(pools[k].name, q, t, ts, pid);
    }
    FirstReaderFinds(pools, vm, i);
  }

  /** A VM under a configured slot's prefix is an orphan just when it is no base and its slot has no
      active unit. */
  lemma SlotVmOrphan(f: Config.Fleet, active: set<nat>, i: nat, slot: u32, vm: string)
    requires StrangerPools(f.pools) && i < |f.pools| && SlotVmPrefix(f.pools[i].name, slot) <= vm
    ensures VM_PREFIX <= vm
    ensures IsOrphan(f, active, vm) <==> vm !in f.bases && slot !in active
  {
    PrefixReadsSlot(f.pools[i].name, slot, vm);
    FoundAnywhere(f.pools, i, vm);
    UnderFleetPrefix(f.pools[i].name, slot, vm);
  }

  lemma {:induction false} OrphansExact(f: Config.Fleet, active: set<nat>, names: seq<string>, vm: string)
    ensures vm in Orphans(f, active, names) <==> vm in names && VM_PREFIX <= vm && IsOrphan(f, active, vm)
  {
    if names != [] {
      OrphansExact(f, active, names[..|names| - 1], vm);
      assert names == names[..|names| - 1] + [names[|names| - 1]];
    }
  }

  // ---------- accepted fleets on which it goes wrong ----------

  function SmallPool(name: string, slot: u32): Config.Pool { Config.Pool(name, ["x"], 0, 1, slot, None) }

  function TwoPools(base: string, p: Config.Pool, q: Config.Pool, a: Config.Admission,
                    s: Config.Supervisor): Config.Fleet
  {
    Config.Fleet(Some("o/r"), None, [base], [p, q], a, s)
  }

  lemma TwoPoolsValid(base: string, p: string, s: nat, q: string, t: nat, adm: Config.Admission, sup: Config.Supervisor)
    requires Config.ValidName(base) && Config.ValidName(p) && Config.ValidName(q) && p != q && s < 9 && t < 9 && s != t
    ensures Config.Valid(TwoPools(base, SmallPool(p, s), SmallPool(q, t), adm, sup))
  {
    Config.PairSeparated(SmallPool(p, s), SmallPool(q, t));
  }

  /** Accepted, and yet with pool `a` before pool `a-1` gc purges the VM of a live worker on slot 7 of
      `a-1`, whose unit it sees active, because `a` reads slot 1 from the name; in the other order gc
      spares it. The sweep of slot 1 of `a` goes after it in either order. */
  lemma HyphenatedPoolLosesLiveVm(adm: Config.Admission, sup: Config.Supervisor, ts: nat, pid: nat)
    ensures var p, q := SmallPool("a", 1), SmallPool("a-1", 7);
            var f, g := TwoPools("base", p, q, adm, sup), TwoPools("base", q, p, adm, sup);
            && Config.Valid(f) && Config.Valid(g) && 7 in Config.Slots(q)
            && IsOrphan(f, {7}, VmName("a-1", 7, ts, pid)) && !IsOrphan(g, {7}, VmName("a-1", 7, ts, pid))
            && 1 in Config.Slots(p)
            && forall own :: own != VmName("a-1", 7, ts, pid) ==> SweepTarget("a", 1, own, VmName("a-1", 7, ts, pid))
  {
    TwoPoolsValid("base", "a", 1, "a-1", 7, adm, sup);
    TwoPoolsValid("base", "a-1", 7, "a", 1, adm, sup);
    HyphenatedPoolsCollide(7, ts, pid);
    OwnerReadsSlot("a-1", 7, ts, pid);
    NotBase("a-1", 7, ts, pid);
  }

  lemma NotBase(p: string, t: nat, ts: nat, pid: nat)
    ensures VmName(p, t, ts, pid) != "base"
  {
    assert VmName(p, t, ts, pid)[0] == 'v';
  }

  /** The other way round as well: with pool `a-7` before pool `a` gc takes the start time in the name of
      `a`'s live VM on slot 7 for its slot, and purges it. */
  lemma SlotNamedPoolLosesLiveVm(adm: Config.Admission, sup: Config.Supervisor, ts: u32, pid: nat)
    requires ts != 7
    ensures var p, q := SmallPool("a-7", 1), SmallPool("a", 7);
            var f, g := TwoPools("base", p, q, adm, sup), TwoPools("base", q, p, adm, sup);
            && Config.Valid(f) && Config.Valid(g) && 7 in Config.Slots(q)
            && IsOrphan(f, {7}, VmName("a", 7, ts, pid)) && !IsOrphan(g, {7}, VmName("a", 7, ts, pid))
  {
    TwoPoolsValid("base", "a-7", 1, "a", 7, adm, sup);
    TwoPoolsValid("base", "a", 7, "a-7", 1, adm, sup);
    StartReadAsSlot(ts, pid);
    OwnerReadsSlot("a", 7, ts, pid);
    NotBase("a", 7, ts, pid);
  }

  lemma StartReadAsSlot(ts: u32, pid: nat)
    ensures SlotOfVm("a-7", VmName("a", 7, ts, pid)) == Some(ts)
  {
    assert Decimal(7) == "7" by { assert DigitChar(7) == '7'; }
    assert UpToSlot("a", 7) == "a" + "-" + "7";
    ForeignReadingExact("a-7", "a", 7, ts, pid);
  }

  /** Accepted, and yet the sweep of slot 1 of pool `a` goes after the fleet's own base; gc spares it. */
  lemma BaseUnderPrefixSwept(adm: Config.Admission, sup: Config.Supervisor, ts: nat, pid: nat, active: set<nat>)
    ensures var f := TwoPools("vmfleet-a-1-x", SmallPool("a", 1), SmallPool("b", 2), adm, sup);
            && Config.Valid(f) && 1 in Config.Slots(f.pools[0])
            && SweepTarget("a", 1, VmName("a", 1, ts, pid), f.bases[0])
            && !IsOrphan(f, active, f.bases[0])
  {
    TwoPoolsValid("vmfleet-a-1-x", "a", 1, "b", 2, adm, sup);
    DecimalOfOne();
    assert SlotVmPrefix("a", 1) == "vmfleet-a-1-";
    var own := VmName("a", 1, ts, pid);
    DecimalShape(pid);
    assert IsDigit(own[|own| - 1]) by { assert own[|own| - 1] == Decimal(pid)[|Decimal(pid)| - 1]; }
  }
}
