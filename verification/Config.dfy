/** The fleet configuration (src/config.rs): pools and their slot ranges, and the validation that
    keeps the ranges of different pools apart. */
module Config {
  import opened Prelude
  import opened Text

  datatype Pool = Pool(
    name: string,
    labels: seq<string>,
    minWarm: u32,
    max: u32,
    slotBase: u32,
    base: Option<string>)

  datatype Admission = Admission(
    minAvailMib: u64,
    psiMax: real,
    minDiskGib: u64,
    settleSeconds: u64,
    lockWaitSeconds: u64,
    pollSeconds: u64)

  datatype Supervisor = Supervisor(
    idleTimeoutSeconds: u64,
    maxLaunchPerPoll: u32,
    busyReserveMib: u64,
    queuedPollEvery: u32,
    updateCheck: bool,
    updateCheckIntervalHours: u64)

  datatype Fleet = Fleet(
    repo: Option<string>,
    org: Option<string>,
    bases: seq<string>,
    pools: seq<Pool>,
    admission: Admission,
    supervisor: Supervisor)

  // ---------- slot ranges ----------

  /** One past the last slot; the sum wraps in 32 bits. */
  function SlotEnd(p: Pool): u32 { (p.slotBase + p.max) % U32_MODULUS }

  /** The slots of a pool: none at all when the sum wraps. */
  function Slots(p: Pool): set<int> { Interval(p.slotBase, SlotEnd(p)) }

  predicate NoWrap(p: Pool) { p.slotBase + p.max < U32_MODULUS }

  predicate NoneWraps(pools: seq<Pool>) { forall i :: 0 <= i < |pools| ==> NoWrap(pools[i]) }

  /** A pool never has more than `max` slots, and has exactly `max` unless the sum wraps. */
  lemma SlotCount(p: Pool)
    ensures |Slots(p)| <= p.max
    ensures |Slots(p)| == p.max <==> NoWrap(p) || p.max == 0
  {
    IntervalSize(p.slotBase, SlotEnd(p));
  }

  // ---------- validation ----------

  predicate ValidName(s: string)
  {
    s != [] && forall i :: 0 <= i < |s| ==> 'a' <= s[i] <= 'z' || IsDigit(s[i]) || s[i] == '-'
  }

  lemma ValidNameMeans(s: string)
    ensures ValidName(s) <==>
            s != "" && forall c :: c in s ==> c == '-' || '0' <= c <= '9' || 'a' <= c <= 'z'
  {
    if ValidName(s) {
      forall c | c in s ensures c == '-' || '0' <= c <= '9' || 'a' <= c <= 'z' {
        var i :| 0 <= i < |s| && s[i] == c;
      }
    }
    assert forall i :: 0 <= i < |s| ==> s[i] in s;
  }

  datatype Range = Range(lo: u32, hi: u32, name: string)

  function RangeOf(p: Pool): Range { Range(p.slotBase, SlotEnd(p), p.name) }

  /** Tuple order of `(u32, u32, &str)`. */
  function CmpRange(a: Range, b: Range): Ordering
  {
    if a.lo != b.lo then CmpInt(a.lo, b.lo)
    else if a.hi != b.hi then CmpInt(a.hi, b.hi)
    else CmpString(a.name, b.name)
  }

  predicate Sorted(s: seq<Range>)
  {
    forall i, j :: 0 <= i < j < |s| ==> CmpRange(s[i], s[j]) != Greater
  }

  /** `slice::sort`. */
  function SortRanges(s: seq<Range>): (r: seq<Range>)
    ensures multiset(r) == multiset(s)
  {
    if s == [] then []
    else
      assert s == s[..|s| - 1] + [s[|s| - 1]];
      InsertRange(SortRanges(s[..|s| - 1]), s[|s| - 1])
  }

  function InsertRange(s: seq<Range>, x: Range): (r: seq<Range>)
    ensures multiset(r) == multiset(s) + multiset{x}
  {
    if s == [] then [x]
    else
      assert s == [s[0]] + s[1..];
      if CmpRange(s[0], x) == Greater then [x] + s else [s[0]] + InsertRange(s[1..], x)
  }

  lemma {:induction false} SortedRanges(s: seq<Range>)
    ensures Sorted(SortRanges(s))
  {
    if s != [] {
      SortedRanges(s[..|s| - 1]);
      InsertKeepsSorted(SortRanges(s[..|s| - 1]), s[|s| - 1]);
    }
  }

  lemma {:induction false} InsertKeepsSorted(s: seq<Range>, x: Range)
    requires Sorted(s)
    ensures Sorted(InsertRange(s, x))
  {
    if s != [] {
      CmpRangeReverse(s[0], x);
      if CmpRange(s[0], x) == Greater {
        InsertFront(s, x);
      } else {
        InsertKeepsSorted(s[1..], x);
        var rest := InsertRange(s[1..], x);
        forall j | 0 <= j < |rest| ensures CmpRange(s[0], rest[j]) != Greater {
          assert rest[j] in multiset(rest);
          assert rest[j] in s[1..] || rest[j] == x;
        }
      }
    }
  }

  lemma InsertFront(s: seq<Range>, x: Range)
    requires Sorted(s) && s != [] && CmpRange(x, s[0]) != Greater
    ensures forall j :: 0 <= j < |s| ==> CmpRange(x, s[j]) != Greater
  {
    forall j | 0 < j < |s| ensures CmpRange(x, s[j]) != Greater {
      CmpRangeTransitive(x, s[0], s[j]);
    }
  }

  lemma CmpRangeReverse(a: Range, b: Range)
    ensures CmpRange(b, a) == CmpRange(a, b).Reverse()
    ensures CmpRange(a, b) == Equal <==> a == b
  {
    CmpStringReverse(a.name, b.name);
  }

  lemma CmpRangeTransitive(a: Range, b: Range, c: Range)
    requires CmpRange(a, b) != Greater && CmpRange(b, c) != Greater
    ensures CmpRange(a, c) != Greater
  {
    if CmpString(a.name, b.name) != Greater && CmpString(b.name, c.name) != Greater {
      CmpStringTransitive(a.name, b.name, c.name);
    }
  }

  datatype Reason =
    | ScopeNotExactlyOne | NoBase | BadName(name: string) | DuplicateBase(name: string)
    | NoPool | ZeroMax(name: string) | WarmAboveMax(name: string) | NoLabel(name: string)
    | DuplicatePool(name: string) | UnknownBase(name: string) | Overlap(left: string, right: string)

  datatype Verdict = Accepted | Rejected(reason: Reason)

  predicate BasesOk(bases: seq<string>)
  {
    && (forall i :: 0 <= i < |bases| ==> ValidName(bases[i]))
    && (forall i, j :: 0 <= i < j < |bases| ==> bases[i] != bases[j])
  }

  predicate PoolOk(p: Pool, bases: seq<string>)
  {
    && p.max > 0 && p.minWarm <= p.max && p.labels != [] && ValidName(p.name)
    && (p.base.Some? ==> p.base.value in bases)
  }

  predicate NamesDistinct(pools: seq<Pool>)
  {
    forall i, j :: 0 <= i < j < |pools| ==> pools[i].name != pools[j].name
  }

  /** Every range ends before any range that sorts after it begins. */
  predicate Separated(rs: set<Range>)
  {
    forall a, b :: a in rs && b in rs && CmpRange(a, b) == Less ==> a.hi <= b.lo
  }

  function Ranges(pools: seq<Pool>): set<Range> { set i | 0 <= i < |pools| :: RangeOf(pools[i]) }

  /** What validation accepts, without its order of checks, its sorting or its window scan. */
  predicate Valid(f: Fleet)
  {
    && (f.repo.Some? <==> f.org.None?)
    && f.bases != [] && BasesOk(f.bases)
    && f.pools != [] && NamesDistinct(f.pools)
    && (forall i :: 0 <= i < |f.pools| ==> PoolOk(f.pools[i], f.bases))
    && Separated(Ranges(f.pools))
  }

  /** The reason is true of the pool, with respect to the pools before it. */
  predicate PoolAtFault(p: Pool, earlier: set<string>, bases: seq<string>, r: Reason)
  {
    match r
    case ZeroMax(n) => p.name == n && p.max == 0
    case WarmAboveMax(n) => p.name == n && p.minWarm > p.max
    case NoLabel(n) => p.name == n && p.labels == []
    case BadName(n) => p.name == n && !ValidName(n)
    case DuplicatePool(n) => p.name == n && n in earlier
    case UnknownBase(n) => p.name == n && p.base.Some? && p.base.value !in bases
    case _ => false
  }

  function NamesBefore(pools: seq<Pool>, k: nat): set<string>
    requires k <= |pools|
  {
    set i | 0 <= i < k :: pools[i].name
  }

  /** The reason given for a rejection is true of the configuration. */
  ghost predicate AtFault(f: Fleet, r: Reason)
  {
    match r
    case ScopeNotExactlyOne => f.repo.Some? == f.org.Some?
    case NoBase => f.bases == []
    case NoPool => f.pools == []
    case Overlap(left, right) =>
      exists a, b :: a in Ranges(f.pools) && b in Ranges(f.pools) && a.name == left && b.name == right &&
        CmpRange(a, b) == Less && a.hi > b.lo
    case _ =>
      BaseAtFault(f.bases, r) ||
      exists k :: 0 <= k < |f.pools| && PoolAtFault(f.pools[k], NamesBefore(f.pools, k), f.bases, r)
  }

  ghost predicate BaseAtFault(bases: seq<string>, r: Reason)
  {
    match r
    case BadName(n) => n in bases && !ValidName(n)
    case DuplicateBase(n) => exists i, j :: 0 <= i < j < |bases| && bases[i] == bases[j] == n
    case _ => false
  }

  method Validate(f: Fleet) returns (v: Verdict)
    ensures v.Accepted? <==> Valid(f)
    ensures v.Rejected? ==> AtFault(f, v.reason)
  {
    if f.repo.Some? == f.org.Some? { return Rejected(ScopeNotExactlyOne); }
    if f.bases == [] { return Rejected(NoBase); }
    v := CheckBases(f.bases);
    if v.Rejected? { return; }
    if f.pools == [] { return Rejected(NoPool); }
    var ranges;
    v, ranges := CheckPools(f.pools, f.bases);
    if v.Rejected? { return; }
    v := CheckWindows(f.pools, ranges);
  }

  method CheckBases(bases: seq<string>) returns (v: Verdict)
    ensures v.Accepted? <==> BasesOk(bases)
    ensures v.Rejected? ==> BaseAtFault(bases, v.reason)
  {
    var baseNames: set<string> := {};
    for k := 0 to |bases|
      invariant forall b :: b in baseNames <==> b in bases[..k]
      invariant BasesOk(bases[..k])
    {
      if !ValidName(bases[k]) { return Rejected(BadName(bases[k])); }
      if bases[k] in baseNames { return Rejected(DuplicateBase(bases[k])); }
      baseNames := baseNames + {bases[k]};
    }
    assert bases[..|bases|] == bases;
    return Accepted;
  }

  method CheckPools(pools: seq<Pool>, bases: seq<string>) returns (v: Verdict, ranges: seq<Range>)
    ensures v.Accepted? <==> NamesDistinct(pools) && forall i :: 0 <= i < |pools| ==> PoolOk(pools[i], bases)
    ensures v.Accepted? ==> |ranges| == |pools| && forall i :: 0 <= i < |pools| ==> ranges[i] == RangeOf(pools[i])
    ensures v.Rejected? ==>
              exists k :: 0 <= k < |pools| && PoolAtFault(pools[k], NamesBefore(pools, k), bases, v.reason)
  {
    var seen: set<string> := {};
    ranges := [];
    for k := 0 to |pools|
      invariant seen == NamesBefore(pools, k)
      invariant |ranges| == k && forall i :: 0 <= i < k ==> ranges[i] == RangeOf(pools[i])
      invariant forall i, j :: 0 <= i < j < k ==> pools[i].name != pools[j].name
      invariant forall i :: 0 <= i < k ==> PoolOk(pools[i], bases)
    {
      var p := pools[k];
      v := CheckPool(p, seen, bases);
      if v.Rejected? { return v, []; }
      seen := seen + {p.name};
      ranges := ranges + [RangeOf(p)];
    }
    return Accepted, ranges;
  }

  method CheckPool(p: Pool, seen: set<string>, bases: seq<string>) returns (v: Verdict)
    ensures v.Accepted? <==> PoolOk(p, bases) && p.name !in seen
    ensures v.Rejected? ==> PoolAtFault(p, seen, bases, v.reason)
  {
    if p.max == 0 { return Rejected(ZeroMax(p.name)); }
    if p.minWarm > p.max { return Rejected(WarmAboveMax(p.name)); }
    if p.labels == [] { return Rejected(NoLabel(p.name)); }
    if !ValidName(p.name) { return Rejected(BadName(p.name)); }
    if p.name in seen { return Rejected(DuplicatePool(p.name)); }
    if p.base.Some? && p.base.value !in bases { return Rejected(UnknownBase(p.name)); }
    return Accepted;
  }

  method CheckWindows(pools: seq<Pool>, ranges: seq<Range>) returns (v: Verdict)
    requires NamesDistinct(pools)
    requires |ranges| == |pools| && forall i :: 0 <= i < |pools| ==> ranges[i] == RangeOf(pools[i])
    ensures v.Accepted? <==> Separated(Ranges(pools))
    ensures v.Rejected? ==> v.reason.Overlap?
    ensures v.Rejected? ==>
              exists a, b :: a in Ranges(pools) && b in Ranges(pools) &&
                a.name == v.reason.left && b.name == v.reason.right &&
                CmpRange(a, b) == Less && a.hi > b.lo
  {
    var sorted := SortRanges(ranges);
    SortedRanges(ranges);
    SameMembers(pools, ranges, sorted);
    for k := 0 to Max(0, |sorted| - 1)
      invariant forall i :: 0 <= i < k ==> sorted[i].hi <= sorted[i + 1].lo
    {
      if sorted[k].hi > sorted[k + 1].lo {
        WindowOverlap(pools, sorted, k);
        return Rejected(Overlap(sorted[k].name, sorted[k + 1].name));
      }
    }
    WindowsSuffice(sorted);
    return Accepted;
  }

  lemma SameMembers(pools: seq<Pool>, ranges: seq<Range>, sorted: seq<Range>)
    requires |ranges| == |pools| && forall i :: 0 <= i < |pools| ==> ranges[i] == RangeOf(pools[i])
    requires multiset(sorted) == multiset(ranges)
    ensures forall r :: r in sorted <==> r in Ranges(pools)
    ensures |sorted| == |pools|
    ensures NamesDistinct(pools) ==> forall i, j :: 0 <= i < j < |sorted| ==> sorted[i] != sorted[j]
  {
    forall r ensures r in sorted <==> r in Ranges(pools) {
      assert r in multiset(sorted) <==> r in multiset(ranges);
    }
    assert |multiset(sorted)| == |sorted| && |multiset(ranges)| == |ranges|;
    if NamesDistinct(pools) {
      forall i, j | 0 <= i < j < |sorted| ensures sorted[i] != sorted[j] {
        if sorted[i] == sorted[j] {
          Twice(sorted, i, j);
          assert multiset(ranges)[sorted[i]] >= 2;
          NotTwice(ranges, sorted[i]);
        }
      }
    }
  }

  lemma Twice(s: seq<Range>, i: nat, j: nat)
    requires i < j < |s| && s[i] == s[j]
    ensures multiset(s)[s[i]] >= 2
  {
    assert s == s[..i] + [s[i]] + s[i + 1..j] + [s[j]] + s[j + 1..];
  }

  lemma {:induction false} NotTwice(s: seq<Range>, x: Range)
    requires forall i, j :: 0 <= i < j < |s| ==> s[i] != s[j]
    ensures multiset(s)[x] <= 1
  {
    if s != [] {
      assert s == [s[0]] + s[1..];
      NotTwice(s[1..], x);
      if s[0] == x { assert x !in s[1..]; }
    }
  }

  /** Only neighbours are compared, yet all pairs are kept apart. */
  lemma WindowsSuffice(s: seq<Range>)
    requires Sorted(s)
    requires forall i :: 0 <= i < |s| - 1 ==> s[i].hi <= s[i + 1].lo
    ensures forall a, b :: a in s && b in s && CmpRange(a, b) == Less ==> a.hi <= b.lo
  {
    forall a, b | a in s && b in s && CmpRange(a, b) == Less ensures a.hi <= b.lo {
      var i :| 0 <= i < |s| && s[i] == a;
      var j :| 0 <= j < |s| && s[j] == b;
      CmpRangeReverse(a, b);
      assert i < j;
      if i + 1 < j { assert CmpRange(s[i + 1], s[j]) != Greater; }
    }
  }

  lemma WindowOverlap(pools: seq<Pool>, s: seq<Range>, k: nat)
    requires Sorted(s) && k + 1 < |s| && s[k].hi > s[k + 1].lo && s[k] != s[k + 1]
    requires forall r :: r in s <==> r in Ranges(pools)
    ensures CmpRange(s[k], s[k + 1]) == Less && s[k] in Ranges(pools) && s[k + 1] in Ranges(pools)
  {
    CmpRangeReverse(s[k], s[k + 1]);
    assert s[k] in Ranges(pools) && s[k + 1] in Ranges(pools);
  }

  // ---------- what acceptance buys ----------

  predicate DisjointSlots(pools: seq<Pool>)
  {
    forall i, j :: 0 <= i < j < |pools| ==> Slots(pools[i]) !! Slots(pools[j])
  }

  /** Accepted pools have pairwise disjoint slots, wrapping sums included. */
  lemma ValidMeansDisjoint(f: Fleet)
    requires Valid(f)
    ensures DisjointSlots(f.pools)
  {
    SeparatedDisjoins(f.pools);
  }

  /** A pool whose sum wraps begins inside the range of one whose sum does not. */
  predicate WrapsInside(a: Pool, b: Pool)
  {
    NoWrap(a) && !NoWrap(b) && a.slotBase < b.slotBase < SlotEnd(a)
  }

  /** What the sort and the window scan ask for, exactly: disjoint slots, and no pool that wraps, and
      so has no slots, beginning inside the range of one that does not. */
  lemma SeparatedExact(pools: seq<Pool>)
    requires NamesDistinct(pools)
    requires forall i :: 0 <= i < |pools| ==> pools[i].max > 0
    ensures Separated(Ranges(pools)) <==>
              && DisjointSlots(pools)
              && forall i, j :: 0 <= i < |pools| && 0 <= j < |pools| ==> !WrapsInside(pools[i], pools[j])
  {
    if Separated(Ranges(pools)) {
      SeparatedDisjoins(pools);
      forall i, j | 0 <= i < |pools| && 0 <= j < |pools| ensures !WrapsInside(pools[i], pools[j]) {
        assert RangeOf(pools[i]) in Ranges(pools) && RangeOf(pools[j]) in Ranges(pools);
      }
    } else {
      var a, b :| a in Ranges(pools) && b in Ranges(pools) && CmpRange(a, b) == Less && a.hi > b.lo;
      var i :| 0 <= i < |pools| && RangeOf(pools[i]) == a;
      var j :| 0 <= j < |pools| && RangeOf(pools[j]) == b;
      OverlapMeans(pools, i, j);
    }
  }

  /** Two ranges that the scan would reject share a slot, unless the later one wraps. */
  lemma OverlapMeans(pools: seq<Pool>, i: nat, j: nat)
    requires i < |pools| && j < |pools| && pools[i].max > 0 && pools[j].max > 0
    requires CmpRange(RangeOf(pools[i]), RangeOf(pools[j])) == Less && SlotEnd(pools[i]) > pools[j].slotBase
    ensures WrapsInside(pools[i], pools[j]) || !DisjointSlots(pools)
  {
    CmpRangeReverse(RangeOf(pools[i]), RangeOf(pools[j]));
    assert i != j;
    if NoWrap(pools[j]) {
      assert pools[j].slotBase in Slots(pools[i]) && pools[j].slotBase in Slots(pools[j]);
    }
  }

  /** Where no sum wraps that is disjointness alone. */
  lemma SeparatedIffDisjoint(pools: seq<Pool>)
    requires NamesDistinct(pools)
    requires forall i :: 0 <= i < |pools| ==> pools[i].max > 0 && NoWrap(pools[i])
    ensures Separated(Ranges(pools)) <==> DisjointSlots(pools)
  {
    SeparatedExact(pools);
  }

  lemma SeparatedDisjoins(pools: seq<Pool>)
    requires NamesDistinct(pools) && Separated(Ranges(pools))
    ensures DisjointSlots(pools)
  {
    forall i, j | 0 <= i < j < |pools| ensures Slots(pools[i]) !! Slots(pools[j]) {
      var a, b := RangeOf(pools[i]), RangeOf(pools[j]);
      assert a in Ranges(pools) && b in Ranges(pools);
      CmpRangeReverse(a, b);
    }
  }

  /** Two pools of one slot each are kept apart if their slots and names differ. */
  lemma PairSeparated(p: Pool, q: Pool)
    requires p.name != q.name && p.slotBase != q.slotBase && p.max == q.max == 1 && NoWrap(p) && NoWrap(q)
    ensures Separated(Ranges([p, q]))
  {
    var pools := [p, q];
    assert SlotEnd(p) == p.slotBase + 1 && SlotEnd(q) == q.slotBase + 1;
    assert Slots(pools[0]) !! Slots(pools[1]);
    SeparatedIffDisjoint(pools);
  }

  /** With a wrapping sum the two part: these pools share no slot and are rejected all the same. */
  lemma WrappingRangeRejected(a: Pool, b: Pool)
    requires a.name != b.name
    requires a.slotBase == 0xFFFF_FFF0 && a.max == 8
    requires b.slotBase == 0xFFFF_FFF4 && b.max == 16
    ensures DisjointSlots([a, b]) && !Separated(Ranges([a, b]))
  {
    assert [a, b][0] == a && [a, b][1] == b;
    assert RangeOf(a) in Ranges([a, b]) && RangeOf(b) in Ranges([a, b]);
    assert Slots(b) == {};
  }

  /** In a fleet with disjoint slots a slot number belongs to one pool. */
  lemma OnePoolPerSlot(pools: seq<Pool>, i: nat, j: nat, slot: int)
    requires DisjointSlots(pools) && i < |pools| && j < |pools|
    requires slot in Slots(pools[i]) && slot in Slots(pools[j])
    ensures i == j
  {
  }
}
