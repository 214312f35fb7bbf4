/** Version parsing and precedence (src/selfupdate.rs), measured against section 11 of
    Semantic Versioning 2.0.0. */
module Version {
  import opened Prelude
  import opened Text

  // ---------- the code ----------

  /** The Unicode `White_Space` characters that `trim` removes. */
  predicate IsWhitespace(c: char)
  {
    var n := c as int;
    || 9 <= n <= 13 || n == 32 || n == 0x85 || n == 0xA0 || n == 0x1680 || 0x2000 <= n <= 0x200A
    || n == 0x2028 || n == 0x2029 || n == 0x202F || n == 0x205F || n == 0x3000
  }

  function TrimStart(s: string): string
  {
    if s != [] && IsWhitespace(s[0]) then TrimStart(s[1..]) else s
  }

  function TrimEnd(s: string): string
  {
    if s != [] && IsWhitespace(s[|s| - 1]) then TrimEnd(s[..|s| - 1]) else s
  }

  function Trim(s: string): string { TrimEnd(TrimStart(s)) }

  /** `trim_start_matches(c)`. */
  function TrimLeading(s: string, c: char): string
  {
    if s != [] && s[0] == c then TrimLeading(s[1..], c) else s
  }

  datatype Parsed = Parsed(major: u64, minor: u64, patch: u64, pre: seq<string>)

  /** The text that is parsed: trimmed, without leading `v`s and without build metadata. */
  function Body(s: string): string { UpTo(TrimLeading(Trim(s), 'v'), '+') }

  /** The three numbers before the first hyphen; a missing patch is 0, further fields are ignored. */
  function ReadCore(core: string): Option<(u64, u64, u64)>
  {
    var fields := Split(core, '.');
    if |fields| < 2 then None
    else
      var major := ParseUnsigned(fields[0], U64_MODULUS);
      var minor := ParseUnsigned(fields[1], U64_MODULUS);
      var patch := ParseUnsigned(if |fields| > 2 then fields[2] else "0", U64_MODULUS);
      if major.None? || minor.None? || patch.None? then None
      else Some((major.value, minor.value, patch.value))
  }

  /** The identifiers after the first hyphen. */
  function ReadPre(body: string): seq<string>
  {
    var core := UpTo(body, '-');
    if |core| + 1 < |body| then Split(body[|core| + 1..], '.') else []
  }

  function ParseVersion(s: string): Option<Parsed>
  {
    match ReadCore(UpTo(Body(s), '-'))
    case None => None
    case Some((major, minor, patch)) => Some(Parsed(major, minor, patch, ReadPre(Body(s))))
  }

  function CmpIdent(x: string, y: string): Ordering
  {
    match (ParseUnsigned(x, U64_MODULUS), ParseUnsigned(y, U64_MODULUS))
    case (Some(m), Some(n)) => CmpInt(m, n)
    case (Some(_), None) => Less
    case (None, Some(_)) => Greater
    case (None, None) => CmpString(x, y)
  }

  /** The zipped loop of `cmp_prerelease`, then the length comparison. */
  function CmpIdents(a: seq<string>, b: seq<string>): Ordering
  {
    if a == [] || b == [] then CmpInt(|a|, |b|)
    else
      var o := CmpIdent(a[0], b[0]);
      if o != Equal then o else CmpIdents(a[1..], b[1..])
  }

  function CmpPrerelease(a: seq<string>, b: seq<string>): Ordering
  {
    if a == [] && b == [] then Equal
    else if a == [] then Greater
    else if b == [] then Less
    else CmpIdents(a, b)
  }

  function CmpParsed(a: Parsed, b: Parsed): Ordering
  {
    if a.major != b.major then CmpInt(a.major, b.major)
    else if a.minor != b.minor then CmpInt(a.minor, b.minor)
    else if a.patch != b.patch then CmpInt(a.patch, b.patch)
    else CmpPrerelease(a.pre, b.pre)
  }

  /** Text that does not parse sorts below text that does. */
  function CmpReadings(a: Option<Parsed>, b: Option<Parsed>): Ordering
  {
    match (a, b)
    case (Some(x), Some(y)) => CmpParsed(x, y)
    case (Some(_), None) => Greater
    case (None, Some(_)) => Less
    case (None, None) => Equal
  }

  function CmpVersions(a: string, b: string): Ordering
  {
    CmpReadings(ParseVersion(a), ParseVersion(b))
  }

  predicate IsNewer(candidate: string, current: string)
  {
    CmpVersions(candidate, current) == Greater
  }

  // ---------- a total preorder on all strings ----------

  lemma CmpIdentReverse(x: string, y: string)
    ensures CmpIdent(y, x) == CmpIdent(x, y).Reverse()
    ensures CmpIdent(x, x) == Equal
  {
    CmpStringReverse(x, y);
    CmpStringReverse(x, x);
  }

  lemma CmpIdentTransitive(x: string, y: string, z: string)
    requires CmpIdent(x, y) != Greater && CmpIdent(y, z) != Greater
    ensures CmpIdent(x, z) != Greater
    ensures CmpIdent(x, y) == Less || CmpIdent(y, z) == Less ==> CmpIdent(x, z) == Less
  {
    if CmpString(x, y) != Greater && CmpString(y, z) != Greater {
      CmpStringTransitive(x, y, z);
    }
  }

  lemma {:induction false} CmpIdentsReverse(a: seq<string>, b: seq<string>)
    ensures CmpIdents(b, a) == CmpIdents(a, b).Reverse()
    ensures a == b ==> CmpIdents(a, b) == Equal
  {
    if a != [] && b != [] {
      CmpIdentReverse(a[0], b[0]);
      CmpIdentsReverse(a[1..], b[1..]);
    }
  }

  lemma {:induction false} CmpIdentsTransitive(a: seq<string>, b: seq<string>, c: seq<string>)
    requires CmpIdents(a, b) != Greater && CmpIdents(b, c) != Greater
    ensures CmpIdents(a, c) != Greater
    ensures CmpIdents(a, b) == Less || CmpIdents(b, c) == Less ==> CmpIdents(a, c) == Less
  {
    if a != [] && b != [] && c != [] {
      CmpIdentTransitive(a[0], b[0], c[0]);
      if CmpIdent(a[0], b[0]) == Equal && CmpIdent(b[0], c[0]) == Equal {
        CmpIdentReverse(a[0], b[0]); CmpIdentReverse(b[0], c[0]); CmpIdentReverse(a[0], c[0]);
        CmpIdentTransitive(c[0], b[0], a[0]);
        CmpIdentsTransitive(a[1..], b[1..], c[1..]);
      }
    }
  }

  lemma CmpReadingsReverse(a: Option<Parsed>, b: Option<Parsed>)
    ensures CmpReadings(b, a) == CmpReadings(a, b).Reverse()
    ensures CmpReadings(a, a) == Equal
  {
    if a.Some? {
      CmpIdentsReverse(a.value.pre, a.value.pre);
      if b.Some? { CmpIdentsReverse(a.value.pre, b.value.pre); }
    }
  }

  lemma CmpReadingsTransitive(a: Option<Parsed>, b: Option<Parsed>, c: Option<Parsed>)
    requires CmpReadings(a, b) != Greater && CmpReadings(b, c) != Greater
    ensures CmpReadings(a, c) != Greater
    ensures CmpReadings(a, b) == Less || CmpReadings(b, c) == Less ==> CmpReadings(a, c) == Less
  {
    if a.Some? && b.Some? && c.Some? {
      var x, y, z := a.value.pre, b.value.pre, c.value.pre;
      if CmpIdents(x, y) != Greater && CmpIdents(y, z) != Greater {
        CmpIdentsTransitive(x, y, z);
      }
    }
  }

  /** Precedence is a total preorder on all strings: a version equals itself, reversing the
      arguments reverses the answer, and it is transitive, strictly so when either step is strict. */
  lemma CmpVersionsTotalPreorder(a: string, b: string, c: string)
    ensures CmpVersions(a, a) == Equal
    ensures CmpVersions(b, a) == CmpVersions(a, b).Reverse()
    ensures CmpVersions(a, b) != Greater && CmpVersions(b, c) != Greater ==>
              CmpVersions(a, c) != Greater &&
              (CmpVersions(a, b) == Less || CmpVersions(b, c) == Less ==> CmpVersions(a, c) == Less)
  {
    var x, y, z := ParseVersion(a), ParseVersion(b), ParseVersion(c);
    CmpReadingsReverse(x, y);
    if CmpReadings(x, y) != Greater && CmpReadings(y, z) != Greater { CmpReadingsTransitive(x, y, z); }
  }

  /** `is_newer` is a strict weak order: irreflexive, asymmetric, transitive, and being neither newer
      nor older is transitive too. */
  lemma NewerIsStrictWeakOrder(a: string, b: string, c: string)
    ensures !IsNewer(a, a)
    ensures IsNewer(a, b) ==> !IsNewer(b, a)
    ensures IsNewer(a, b) && IsNewer(b, c) ==> IsNewer(a, c)
    ensures !IsNewer(a, b) && !IsNewer(b, a) && !IsNewer(b, c) && !IsNewer(c, b) ==>
              !IsNewer(a, c) && !IsNewer(c, a)
  {
    CmpVersionsTotalPreorder(a, b, c);
    CmpVersionsTotalPreorder(c, b, a);
    CmpVersionsTotalPreorder(b, c, a);
    CmpVersionsTotalPreorder(c, a, b);
  }

  lemma {:induction false} ReadingsNeverCycle(rs: seq<Option<Parsed>>, i: nat, j: nat)
    requires i < j < |rs|
    requires forall k :: 0 <= k < |rs| - 1 ==> CmpReadings(rs[k + 1], rs[k]) == Greater
    ensures CmpReadings(rs[j], rs[i]) == Greater
    decreases j - i
  {
    if i + 1 < j {
      ReadingsNeverCycle(rs, i, j - 1);
      assert CmpReadings(rs[(j - 1) + 1], rs[j - 1]) == Greater;
      CmpReadingsReverse(rs[j], rs[j - 1]);
      CmpReadingsReverse(rs[j - 1], rs[i]);
      CmpReadingsReverse(rs[j], rs[i]);
      CmpReadingsTransitive(rs[i], rs[j - 1], rs[j]);
    } else {
      assert CmpReadings(rs[i + 1], rs[i]) == Greater;
    }
  }

  /** Updates that each install a strictly newer version never come back to a version already left. */
  lemma UpdatesNeverCycle(installed: seq<string>, i: nat, j: nat)
    requires i < j < |installed|
    requires forall k :: 0 <= k < |installed| - 1 ==> IsNewer(installed[k + 1], installed[k])
    ensures IsNewer(installed[j], installed[i]) && installed[j] != installed[i]
  {
    var rs := seq(|installed|, k requires 0 <= k < |installed| => ParseVersion(installed[k]));
    assert forall k :: 0 <= k < |rs| ==> rs[k] == ParseVersion(installed[k]);
    forall k | 0 <= k < |rs| - 1 ensures CmpReadings(rs[k + 1], rs[k]) == Greater {
      assert IsNewer(installed[k + 1], installed[k]);
    }
    ReadingsNeverCycle(rs, i, j);
    CmpReadingsReverse(rs[i], rs[i]);
  }

  // ---------- release selection ----------

  datatype Release = Release(tag: string, draft: bool)

  /** A release beside the reading of its tag that the comparisons go by. */
  datatype Entry = Entry(release: Release, reading: Option<Parsed>)

  function Entries(rs: seq<Release>): seq<Entry>
  {
    if rs == [] then []
    else Entries(rs[..|rs| - 1]) + [Entry(rs[|rs| - 1], ParseVersion(rs[|rs| - 1].tag))]
  }

  /** `filter(|r| !r.draft)`. */
  function Published(es: seq<Entry>): seq<Entry>
  {
    if es == [] then []
    else Published(es[..|es| - 1]) + if es[|es| - 1].release.draft then [] else [es[|es| - 1]]
  }

  /** `Iterator::max_by`: the accumulator stays only when it compares greater. */
  function MaxBy(es: seq<Entry>): Option<Entry>
  {
    if es == [] then None
    else
      var last := es[|es| - 1];
      match MaxBy(es[..|es| - 1])
      case None => Some(last)
      case Some(best) => if CmpReadings(best.reading, last.reading) == Greater then Some(best) else Some(last)
  }

  function PickNewest(rs: seq<Release>): Option<Release>
  {
    match MaxBy(Published(Entries(rs)))
    case None => None
    case Some(e) => Some(e.release)
  }

  ghost predicate IsLastMaximum(es: seq<Entry>, i: int)
  {
    && 0 <= i < |es| && !es[i].release.draft
    && (forall j :: 0 <= j < |es| && !es[j].release.draft ==> CmpReadings(es[j].reading, es[i].reading) != Greater)
    && (forall j :: i < j < |es| && !es[j].release.draft ==> CmpReadings(es[j].reading, es[i].reading) == Less)
  }

  lemma {:induction false} MaxByLaw(es: seq<Entry>) returns (i: int)
    ensures MaxBy(Published(es)).None? <==> AllDrafts(es)
    ensures MaxBy(Published(es)).Some? ==> IsLastMaximum(es, i) && es[i] == MaxBy(Published(es)).value
  {
    i := 0;
    if es != [] {
      var init := es[..|es| - 1];
      i := MaxByLaw(init);
      assert !AllDrafts(init) ==> es[i] == init[i];
      i := NextMaximum(es, i);
      MaxByLast(es);
    }
  }

  predicate AllDrafts(es: seq<Entry>) { forall j :: 0 <= j < |es| ==> es[j].release.draft }

  lemma MaxByLast(es: seq<Entry>)
    requires es != []
    ensures var last, best := es[|es| - 1], MaxBy(Published(es[..|es| - 1]));
            MaxBy(Published(es)) ==
              if last.release.draft || (best.Some? && CmpReadings(best.value.reading, last.reading) == Greater)
              then best else Some(last)
  {
    if es[|es| - 1].release.draft {
      assert Published(es) == Published(es[..|es| - 1]);
    } else {
      assert Published(es)[..|Published(es)| - 1] == Published(es[..|es| - 1]);
    }
  }

  /** The last maximum after one more entry. */
  lemma NextMaximum(es: seq<Entry>, i: int) returns (k: int)
    requires es != [] && (AllDrafts(es[..|es| - 1]) || IsLastMaximum(es[..|es| - 1], i))
    ensures AllDrafts(es) <==> AllDrafts(es[..|es| - 1]) && es[|es| - 1].release.draft
    ensures AllDrafts(es) || IsLastMaximum(es, k)
    ensures k == if AllDrafts(es[..|es| - 1]) then |es| - 1
                 else if es[|es| - 1].release.draft then i
                 else if CmpReadings(es[i].reading, es[|es| - 1].reading) == Greater then i
                 else |es| - 1
  {
    var n := |es| - 1;
    var init, last := es[..n], es[n];
    assert forall j :: 0 <= j < n ==> init[j] == es[j];
    CmpReadingsReverse(last.reading, last.reading);
    if AllDrafts(init) {
      k := n;
    } else {
      CmpReadingsReverse(es[i].reading, last.reading);
      k := if last.release.draft || CmpReadings(es[i].reading, last.reading) == Greater then i else n;
      if k == n { LastIsMaximum(es, i); }
    }
  }

  lemma LastIsMaximum(es: seq<Entry>, i: int)
    requires es != [] && !es[|es| - 1].release.draft && IsLastMaximum(es[..|es| - 1], i)
    requires CmpReadings(es[i].reading, es[|es| - 1].reading) != Greater
    ensures IsLastMaximum(es, |es| - 1)
  {
    var n := |es| - 1;
    var init, best, last := es[..n], es[i], es[n];
    CmpReadingsReverse(last.reading, last.reading);
    forall j | 0 <= j < n && !es[j].release.draft ensures CmpReadings(es[j].reading, last.reading) != Greater {
      assert CmpReadings(init[j].reading, init[i].reading) != Greater;
      CmpReadingsTransitive(es[j].reading, best.reading, last.reading);
    }
  }

  lemma {:induction false} EntriesShape(rs: seq<Release>)
    ensures |Entries(rs)| == |rs|
    ensures forall i :: 0 <= i < |rs| ==> Entries(rs)[i] == Entry(rs[i], ParseVersion(rs[i].tag))
  {
    if rs != [] {
      var n := |rs| - 1;
      var init := rs[..n];
      EntriesShape(init);
      assert Entries(rs) == Entries(init) + [Entry(rs[n], ParseVersion(rs[n].tag))];
      forall i | 0 <= i < |rs| ensures Entries(rs)[i] == Entry(rs[i], ParseVersion(rs[i].tag)) {
        if i < n { assert init[i] == rs[i] && Entries(rs)[i] == Entries(init)[i]; }
      }
    }
  }

  /** Release `i` is published, no published release outranks it, and it is the last such. */
  ghost predicate IsNewest(rs: seq<Release>, i: int)
  {
    && 0 <= i < |rs| && !rs[i].draft
    && (forall j :: 0 <= j < |rs| && !rs[j].draft ==> CmpVersions(rs[j].tag, rs[i].tag) != Greater)
    && (forall j :: i < j < |rs| && !rs[j].draft ==> CmpVersions(rs[j].tag, rs[i].tag) == Less)
  }

  /** `pick_newest` finds nothing just when all releases are drafts, and otherwise the last of the
      published releases that no published release outranks. */
  lemma PickNewestLaw(rs: seq<Release>)
    ensures PickNewest(rs).None? <==> forall j :: 0 <= j < |rs| ==> rs[j].draft
    ensures PickNewest(rs).Some? ==> exists i :: IsNewest(rs, i) && rs[i] == PickNewest(rs).value
  {
    var es := Entries(rs);
    EntriesShape(rs);
    var i := MaxByLaw(es);
    if PickNewest(rs).Some? {
      forall j | 0 <= j < |rs| && !rs[j].draft ensures CmpVersions(rs[j].tag, rs[i].tag) != Greater {
        assert CmpReadings(es[j].reading, es[i].reading) != Greater;
      }
      forall j | i < j < |rs| && !rs[j].draft ensures CmpVersions(rs[j].tag, rs[i].tag) == Less {
        assert CmpReadings(es[j].reading, es[i].reading) == Less;
      }
      assert IsNewest(rs, i);
    }
  }
}
