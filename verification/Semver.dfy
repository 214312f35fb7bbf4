/** Semantic Versioning 2.0.0 as its section 11 words it, and the proof that the code's comparison
    of rendered versions is that order. */
module Semver {
  import opened Prelude
  import opened Text
  import opened Version

  // ---------- printing and parsing back ----------

  function Vs(count: nat): string { if count == 0 then [] else ['v'] + Vs(count - 1) }

  function Core(major: nat, minor: nat, patch: nat): string
  {
    Join([Decimal(major), Decimal(minor), Decimal(patch)], '.')
  }

  /** MAJOR.MINOR.PATCH and the prerelease identifiers, if any. */
  function Print(major: nat, minor: nat, patch: nat, pre: seq<string>): string
  {
    Core(major, minor, patch) + (if pre == [] then [] else ['-'] + Join(pre, '.'))
  }

  function Build(build: Option<string>): string { if build.None? then [] else ['+'] + build.value }

  /** A release tag: leading `v`s, the version, build metadata. */
  function Tag(vs: nat, version: string, build: Option<string>): string
  {
    Vs(vs) + version + Build(build)
  }

  predicate PlainIdent(x: string)
  {
    forall c :: c in x ==> c != '.' && c != '+' && !IsWhitespace(c)
  }

  /** Identifier lists that print unambiguously: no separators inside, and not one empty identifier. */
  predicate Printable(pre: seq<string>)
  {
    pre != [""] && forall i :: 0 <= i < |pre| ==> PlainIdent(pre[i])
  }

  /** Every printed version parses back exactly, behind any number of `v`s and before any build
      metadata; it fails to parse just when a number does not fit 64 bits. */
  lemma ParsePrint(vs: nat, major: nat, minor: nat, patch: nat, pre: seq<string>, build: Option<string>)
    requires Printable(pre)
    ensures ParseVersion(Tag(vs, Print(major, minor, patch, pre), build)) ==
            if major < U64_MODULUS && minor < U64_MODULUS && patch < U64_MODULUS
            then Some(Parsed(major, minor, patch, pre)) else None
  {
    var body := Print(major, minor, patch, pre);
    BodyShape(major, minor, patch, pre);
    assert body[|body| - 1] in body;
    TrimTag(vs, body, build);
    ReadCorePrinted(major, minor, patch);
    ReadPrePrinted(major, minor, patch, pre);
  }

  lemma ReadCorePrinted(major: nat, minor: nat, patch: nat)
    ensures ReadCore(Core(major, minor, patch)) ==
            if major < U64_MODULUS && minor < U64_MODULUS && patch < U64_MODULUS
            then Some((major, minor, patch)) else None
  {
    var fields := [Decimal(major), Decimal(minor), Decimal(patch)];
    DecimalHasNo(major, '.'); DecimalHasNo(minor, '.'); DecimalHasNo(patch, '.');
    SplitJoin(fields, '.');
    ParseDecimal(major, U64_MODULUS); ParseDecimal(minor, U64_MODULUS); ParseDecimal(patch, U64_MODULUS);
  }

  lemma ReadPrePrinted(major: nat, minor: nat, patch: nat, pre: seq<string>)
    requires Printable(pre)
    ensures UpTo(Print(major, minor, patch, pre), '-') == Core(major, minor, patch)
    ensures ReadPre(Print(major, minor, patch, pre)) == pre
  {
    var core, body := Core(major, minor, patch), Print(major, minor, patch, pre);
    CoreShape(major, minor, patch);
    if pre != [] {
      var rest := Join(pre, '.');
      assert body == core + ['-'] + rest;
      UpToFirst(core, '-', rest);
      JoinNotEmpty(pre);
      forall i | 0 <= i < |pre| ensures '.' !in pre[i] { assert PlainIdent(pre[i]); }
      SplitJoin(pre, '.');
      assert body[|core| + 1..] == rest;
    } else {
      assert body == core;
      UpToWhole(core, '-');
    }
  }

  lemma CoreShape(major: nat, minor: nat, patch: nat)
    ensures Core(major, minor, patch) == Decimal(major) + ['.'] + (Decimal(minor) + ['.'] + Decimal(patch))
    ensures forall c :: c in Core(major, minor, patch) ==> IsDigit(c) || c == '.'
  {
    var a, b, c := Decimal(major), Decimal(minor), Decimal(patch);
    assert [a, b, c][1..] == [b, c] && [b, c][1..] == [c];
    assert Join([c], '.') == c && Join([b, c], '.') == b + ['.'] + c;
    DecimalShape(major); DecimalShape(minor); DecimalShape(patch);
  }

  lemma BodyShape(major: nat, minor: nat, patch: nat, pre: seq<string>)
    requires Printable(pre)
    ensures var body := Print(major, minor, patch, pre);
            body != [] && IsDigit(body[0]) && forall c :: c in body ==> c != '+' && !IsWhitespace(c)
  {
    CoreShape(major, minor, patch);
    DecimalShape(major);
    JoinPlain(pre);
  }

  lemma {:induction false} JoinPlain(pre: seq<string>)
    requires forall i :: 0 <= i < |pre| ==> PlainIdent(pre[i])
    ensures forall c :: c in Join(pre, '.') ==> c != '+' && !IsWhitespace(c)
  {
    if |pre| == 1 { assert PlainIdent(pre[0]); }
    if |pre| > 1 { JoinPlain(pre[1..]); assert PlainIdent(pre[0]); }
  }

  lemma JoinNotEmpty(pre: seq<string>)
    requires pre != [] && pre != [""]
    ensures Join(pre, '.') != []
  {
    if |pre| == 1 { assert pre == [pre[0]]; }
  }

  lemma {:induction false} TrimEndKeeps(x: string, b: string)
    requires x != [] && !IsWhitespace(x[|x| - 1])
    ensures TrimEnd(x + b) == x + TrimEnd(b)
    decreases |b|
  {
    if b == [] {
      assert x + b == x;
    } else if IsWhitespace(b[|b| - 1]) {
      assert (x + b)[..|x + b| - 1] == x + b[..|b| - 1];
      TrimEndKeeps(x, b[..|b| - 1]);
    }
  }

  lemma {:induction false} DropVs(vs: nat, rest: string)
    requires rest != [] && rest[0] != 'v'
    ensures TrimLeading(Vs(vs) + rest, 'v') == rest
  {
    if vs == 0 {
      assert Vs(vs) + rest == rest;
    } else {
      DropVs(vs - 1, rest);
      VsFirst(vs);
      assert (Vs(vs) + rest)[1..] == Vs(vs - 1) + rest;
    }
  }

  lemma VsFirst(vs: nat)
    ensures vs > 0 ==> Vs(vs) != [] && Vs(vs)[0] == 'v'
  {}

  predicate Trimmed(body: string) { body != [] && IsDigit(body[0]) && !IsWhitespace(body[|body| - 1]) }

  lemma TrimTag(vs: nat, body: string, build: Option<string>)
    requires Trimmed(body) && '+' !in body
    ensures Body(Tag(vs, body, build)) == body
  {
    match build
    case None => TrimTagAlone(vs, body);
    case Some(b) => TrimTagBuild(vs, body, b);
  }

  lemma TrimTagBuild(vs: nat, body: string, b: string)
    requires Trimmed(body) && '+' !in body
    ensures Body(Tag(vs, body, Some(b))) == body
  {
    TagWithBuild(vs, body, b);
    CutBuild(vs, body, TrimEnd(b));
  }

  lemma TagWithBuild(vs: nat, body: string, b: string)
    requires Trimmed(body)
    ensures Trim(Tag(vs, body, Some(b))) == Vs(vs) + body + ['+'] + TrimEnd(b)
  {
    HeadShape(vs, body);
    HeadPlus(Vs(vs) + body);
    BuildText(vs, body, b);
    TrimHeadOf(Vs(vs) + body + ['+'], b);
  }

  lemma HeadPlus(x: string)
    requires x != [] && !IsWhitespace(x[0])
    ensures var y := x + ['+']; !IsWhitespace(y[0]) && !IsWhitespace(y[|y| - 1])
  {
  }

  lemma BuildText(vs: nat, body: string, b: string)
    ensures Tag(vs, body, Some(b)) == Vs(vs) + body + ['+'] + b
  {
    assert Build(Some(b)) == ['+'] + b;
  }

  lemma TrimTagAlone(vs: nat, body: string)
    requires Trimmed(body) && '+' !in body
    ensures Body(Tag(vs, body, None)) == body
  {
    HeadShape(vs, body);
    TrimPlain(Vs(vs) + body);
    assert Tag(vs, body, None) == Vs(vs) + body;
    DropVs(vs, body);
    UpToWhole(body, '+');
  }

  lemma HeadShape(vs: nat, body: string)
    requires Trimmed(body)
    ensures var head := Vs(vs) + body; head != [] && !IsWhitespace(head[0]) && !IsWhitespace(head[|head| - 1])
  {
    var head := Vs(vs) + body;
    VsFirst(vs);
    assert head[0] == 'v' || head[0] == body[0];
    assert head[|head| - 1] == body[|body| - 1];
  }

  lemma TrimPlain(x: string)
    requires x != [] && !IsWhitespace(x[0]) && !IsWhitespace(x[|x| - 1])
    ensures Trim(x) == x
  {
    TrimHeadOf(x, []);
    assert x + [] == x;
  }

  lemma TrimHead(x: string)
    requires x != [] && !IsWhitespace(x[0])
    ensures TrimStart(x) == x
  {}

  lemma TrimHeadOf(x: string, b: string)
    requires x != [] && !IsWhitespace(x[0]) && !IsWhitespace(x[|x| - 1])
    ensures Trim(x + b) == x + TrimEnd(b)
  {
    assert (x + b)[0] == x[0];
    TrimHead(x + b);
    TrimEndKeeps(x, b);
  }

  lemma CutBuild(vs: nat, body: string, b: string)
    requires body != [] && IsDigit(body[0]) && '+' !in body
    ensures UpTo(TrimLeading(Vs(vs) + body + ['+'] + b, 'v'), '+') == body
  {
    var rest := body + ['+'] + b;
    assert Vs(vs) + body + ['+'] + b == Vs(vs) + rest;
    assert rest[0] == body[0];
    DropVs(vs, rest);
    UpToFirst(body, '+', b);
  }

  // ---------- what else parses ----------

  lemma ReadsBody(body: string)
    requires Trimmed(body) && '+' !in body
    ensures Body(body) == body
  {
    TrimTagAlone(0, body);
    assert Tag(0, body, None) == body;
  }

  /** Texts made of these fields, with nothing in them that separates or is trimmed. */
  predicate PlainFields(fields: seq<string>)
  {
    && fields != [] && fields[0] != [] && IsDigit(fields[0][0])
    && forall i :: 0 <= i < |fields| ==> PlainIdent(fields[i]) && '-' !in fields[i]
  }

  lemma {:induction false} JoinClean(fields: seq<string>)
    requires forall i :: 0 <= i < |fields| ==> PlainIdent(fields[i]) && '-' !in fields[i]
    ensures forall c :: c in Join(fields, '.') ==> c != '+' && c != '-' && !IsWhitespace(c)
  {
    if |fields| > 1 {
      JoinClean(fields[1..]);
      assert forall c :: c in fields[0] ==> c != '+' && c != '-' && !IsWhitespace(c);
    } else if |fields| == 1 {
      assert PlainIdent(fields[0]);
    }
  }

  lemma FieldsRead(fields: seq<string>)
    requires PlainFields(fields)
    ensures var body := Join(fields, '.');
            && Body(body) == body && UpTo(body, '-') == body && Split(body, '.') == fields && ReadPre(body) == []
  {
    var body := Join(fields, '.');
    JoinClean(fields);
    assert body[0] == fields[0][0];
    assert body[|body| - 1] in body;
    ReadsBody(body);
    UpToWhole(body, '-');
    forall i | 0 <= i < |fields| ensures '.' !in fields[i] {
      assert PlainIdent(fields[i]);
    }
    SplitJoin(fields, '.');
  }

  lemma NumberField(n: nat)
    ensures PlainIdent(Decimal(n)) && '-' !in Decimal(n) && Decimal(n) != [] && IsDigit(Decimal(n)[0])
  {
    DecimalShape(n);
    DecimalHasNo(n, '-');
  }

  /** A single number is no version; of two the patch number is taken to be zero; what follows the third field
      is ignored. */
  lemma FieldCounts(major: u64, minor: u64, patch: u64, more: seq<string>)
    requires forall i :: 0 <= i < |more| ==> PlainIdent(more[i]) && '-' !in more[i]
    ensures ParseVersion(Decimal(major)) == None
    ensures ParseVersion(Decimal(major) + "." + Decimal(minor)) == Some(Parsed(major, minor, 0, []))
    ensures ParseVersion(Join([Decimal(major), Decimal(minor), Decimal(patch)] + more, '.'))
            == Some(Parsed(major, minor, patch, []))
  {
    OneField(major);
    TwoFields(major, minor);
    MoreFields(major, minor, patch, more);
  }

  lemma OneField(major: u64)
    ensures ParseVersion(Decimal(major)) == None
  {
    NumberField(major);
    FieldsRead([Decimal(major)]);
  }

  lemma TwoFields(major: u64, minor: u64)
    ensures ParseVersion(Decimal(major) + "." + Decimal(minor)) == Some(Parsed(major, minor, 0, []))
  {
    var fields := [Decimal(major), Decimal(minor)];
    NumberField(major);
    NumberField(minor);
    assert fields[1..] == [Decimal(minor)];
    assert Join(fields, '.') == Decimal(major) + ['.'] + Decimal(minor);
    FieldsRead(fields);
    ParseDecimal(major, U64_MODULUS);
    ParseDecimal(minor, U64_MODULUS);
    Zero();
  }

  lemma Zero()
    ensures ParseUnsigned("0", U64_MODULUS) == Some(0)
  {
    assert DigitChar(0) == '0';
    assert Decimal(0) == "0";
    ParseDecimal(0, U64_MODULUS);
  }

  lemma MoreFields(major: u64, minor: u64, patch: u64, more: seq<string>)
    requires forall i :: 0 <= i < |more| ==> PlainIdent(more[i]) && '-' !in more[i]
    ensures ParseVersion(Join([Decimal(major), Decimal(minor), Decimal(patch)] + more, '.'))
            == Some(Parsed(major, minor, patch, []))
  {
    var fields := [Decimal(major), Decimal(minor), Decimal(patch)] + more;
    NumberField(major);
    NumberField(minor);
    NumberField(patch);
    FieldsRead(fields);
    ParseDecimal(major, U64_MODULUS);
    ParseDecimal(minor, U64_MODULUS);
    ParseDecimal(patch, U64_MODULUS);
  }

  /** A hyphen with nothing behind it leaves a stable version. */
  lemma TrailingHyphen(major: u64, minor: u64, patch: u64)
    ensures ParseVersion(Core(major, minor, patch) + "-") == Some(Parsed(major, minor, patch, []))
  {
    var core := Core(major, minor, patch);
    var body := core + "-";
    CoreShape(major, minor, patch);
    DecimalShape(major);
    assert core[0] == Decimal(major)[0];
    assert body == core + ['-'] + [];
    assert body[0] == core[0] && body[|body| - 1] == '-';
    ReadsBody(body);
    UpToFirst(core, '-', []);
    ReadCorePrinted(major, minor, patch);
    assert body[|core| + 1..] == [];
  }

  /** White space is tab, line feed, vertical tab, form feed, carriage return, space, and the wider spaces of
      Unicode. */
  lemma SpacesAre(c: char)
    ensures IsWhitespace(c) <==>
            c as int in {9, 10, 11, 12, 13, 32, 0x85, 0xA0, 0x1680, 0x2000, 0x2001, 0x2002, 0x2003, 0x2004, 0x2005,
                         0x2006, 0x2007, 0x2008, 0x2009, 0x200A, 0x2028, 0x2029, 0x202F, 0x205F, 0x3000}
  {
  }

  /** White space around a version makes no difference. */
  lemma SpacesIgnored(c: char, s: string)
    requires IsWhitespace(c)
    ensures ParseVersion([c] + s) == ParseVersion(s) == ParseVersion(s + [c])
  {
    assert ([c] + s)[0] == c && ([c] + s)[1..] == s;
    assert Trim([c] + s) == Trim(s);
    TrailingSpace(c, s);
  }

  lemma {:induction false} TrailingSpace(c: char, s: string)
    requires IsWhitespace(c)
    ensures Trim(s + [c]) == Trim(s)
  {
    if s == [] {
      assert s + [c] == [c] && [c][1..] == [];
    } else if IsWhitespace(s[0]) {
      assert (s + [c])[1..] == s[1..] + [c];
      TrailingSpace(c, s[1..]);
    } else {
      assert (s + [c])[..|s|] == s;
    }
  }

  // ---------- section 11 ----------

  datatype Ident = Numeric(n: nat) | Alphanumeric(s: string)

  datatype SemVer = SemVer(major: nat, minor: nat, patch: nat, pre: seq<Ident>)

  predicate IdentChar(c: char) { IsDigit(c) || 'a' <= c <= 'z' || 'A' <= c <= 'Z' || c == '-' }

  predicate ValidIdent(x: Ident)
  {
    x.Alphanumeric? ==> x.s != [] && !AllDigits(x.s) && forall c :: c in x.s ==> IdentChar(c)
  }

  predicate Valid(v: SemVer) { forall i :: 0 <= i < |v.pre| ==> ValidIdent(v.pre[i]) }

  predicate IdentFits(x: Ident) { x.Numeric? ==> x.n < U64_MODULUS }

  predicate Fits(v: SemVer)
  {
    && v.major < U64_MODULUS && v.minor < U64_MODULUS && v.patch < U64_MODULUS
    && forall i :: 0 <= i < |v.pre| ==> IdentFits(v.pre[i])
  }

  function ShowIdent(x: Ident): string { if x.Numeric? then Decimal(x.n) else x.s }

  function ShowIdents(xs: seq<Ident>): (r: seq<string>)
    ensures |r| == |xs| && forall i :: 0 <= i < |xs| ==> r[i] == ShowIdent(xs[i])
  {
    if xs == [] then [] else [ShowIdent(xs[0])] + ShowIdents(xs[1..])
  }

  function Show(v: SemVer): string { Print(v.major, v.minor, v.patch, ShowIdents(v.pre)) }

  /** ASCII sort order: decided at the first difference, a proper prefix coming first. */
  ghost predicate AsciiLess(a: string, b: string) { exists k :: AsciiDecidedAt(a, b, k) }

  ghost predicate AsciiDecidedAt(a: string, b: string, k: int)
  {
    && 0 <= k <= |a| && k <= |b| && a[..k] == b[..k]
    && (k == |a| < |b| || (k < |a| && k < |b| && a[k] < b[k]))
  }

  /** Clauses 11.4.1 to 11.4.3. */
  ghost predicate IdentLess(x: Ident, y: Ident)
  {
    match (x, y)
    case (Numeric(m), Numeric(n)) => m < n
    case (Numeric(_), Alphanumeric(_)) => true
    case (Alphanumeric(_), Numeric(_)) => false
    case (Alphanumeric(s), Alphanumeric(t)) => AsciiLess(s, t)
  }

  /** Clause 11.4: the first difference from left to right decides; with none, more fields win. */
  ghost predicate PrereleaseLess(a: seq<Ident>, b: seq<Ident>) { exists k :: PrereleaseDecidedAt(a, b, k) }

  ghost predicate PrereleaseDecidedAt(a: seq<Ident>, b: seq<Ident>, k: int)
  {
    && 0 <= k <= |a| && k <= |b| && a[..k] == b[..k]
    && (k == |a| < |b| || (k < |a| && k < |b| && IdentLess(a[k], b[k])))
  }

  /** Clauses 11.2 and 11.3. */
  ghost predicate LowerPrecedence(a: SemVer, b: SemVer)
  {
    if a.major != b.major then a.major < b.major
    else if a.minor != b.minor then a.minor < b.minor
    else if a.patch != b.patch then a.patch < b.patch
    else a.pre != [] && (b.pre == [] || PrereleaseLess(a.pre, b.pre))
  }

  lemma {:induction false} CmpStringIsAscii(a: string, b: string)
    ensures CmpString(a, b) == Less <==> AsciiLess(a, b)
  {
    assert AsciiDecidedAt(a, b, 0) <==> (a == [] && b != []) || (a != [] && b != [] && a[0] < b[0]);
    if AsciiLess(a, b) {
      var k :| AsciiDecidedAt(a, b, k);
      if k > 0 {
        assert a[0] == a[..k][0] && b[0] == b[..k][0];
        assert a[1..][..k - 1] == a[..k][1..] && b[1..][..k - 1] == b[..k][1..];
        assert AsciiDecidedAt(a[1..], b[1..], k - 1);
      }
    }
    if a != [] && b != [] && a[0] == b[0] {
      CmpStringIsAscii(a[1..], b[1..]);
      if AsciiLess(a[1..], b[1..]) {
        var k :| AsciiDecidedAt(a[1..], b[1..], k);
        assert a[..k + 1] == [a[0]] + a[1..][..k] && b[..k + 1] == [b[0]] + b[1..][..k];
        assert AsciiDecidedAt(a, b, k + 1);
      }
    }
  }

  lemma IdentReading(x: Ident)
    requires ValidIdent(x)
    ensures ParseUnsigned(ShowIdent(x), U64_MODULUS) == if x.Numeric? && x.n < U64_MODULUS then Some(x.n) else None
  {
    if x.Numeric? {
      ParseDecimal(x.n, U64_MODULUS);
    } else {
      assert x.s[0] in x.s;
    }
  }

  lemma CmpIdentIsPrecedence(x: Ident, y: Ident)
    requires ValidIdent(x) && ValidIdent(y) && IdentFits(x) && IdentFits(y)
    ensures CmpIdent(ShowIdent(x), ShowIdent(y)) == Less <==> IdentLess(x, y)
    ensures CmpIdent(ShowIdent(x), ShowIdent(y)) == Equal <==> x == y
  {
    IdentReading(x);
    IdentReading(y);
    CmpStringIsAscii(ShowIdent(x), ShowIdent(y));
    CmpStringReverse(ShowIdent(x), ShowIdent(y));
  }

  /** The 64-bit bound is exact: a numeric identifier is placed correctly against every other
      identifier if and only if it fits. (A longer one is compared as text, above a lone hyphen.) */
  lemma NumericIdentExact(n: nat)
    ensures n < U64_MODULUS <==>
            forall y :: ValidIdent(y) ==>
              (CmpIdent(ShowIdent(Numeric(n)), ShowIdent(y)) == Less <==> IdentLess(Numeric(n), y))
  {
    var x := Numeric(n);
    IdentReading(x);
    if n < U64_MODULUS {
      forall y | ValidIdent(y)
        ensures CmpIdent(ShowIdent(x), ShowIdent(y)) == Less <==> IdentLess(x, y)
      {
        IdentReading(y);
      }
    } else {
      LoneHyphen(n);
      var y := Alphanumeric("-");
      assert CmpIdent(ShowIdent(x), ShowIdent(y)) == Greater && IdentLess(x, y);
    }
  }

  lemma {:induction false} CmpIdentsIsPrecedence(a: seq<Ident>, b: seq<Ident>)
    requires forall i :: 0 <= i < |a| ==> ValidIdent(a[i]) && IdentFits(a[i])
    requires forall i :: 0 <= i < |b| ==> ValidIdent(b[i]) && IdentFits(b[i])
    ensures CmpIdents(ShowIdents(a), ShowIdents(b)) == Less <==> PrereleaseLess(a, b)
    ensures CmpIdents(ShowIdents(a), ShowIdents(b)) == Equal <==> a == b
  {
    if a == [] || b == [] {
      assert PrereleaseDecidedAt(a, b, 0) <==> a == [] && b != [];
    } else {
      var x, y := a[0], b[0];
      CmpIdentIsPrecedence(x, y);
      CmpIdentIsPrecedence(y, x);
      CmpIdentReverse(ShowIdent(x), ShowIdent(y));
      assert ShowIdents(a)[1..] == ShowIdents(a[1..]) && ShowIdents(b)[1..] == ShowIdents(b[1..]);
      PrereleaseStep(a, b);
      if x == y {
        CmpIdentsIsPrecedence(a[1..], b[1..]);
        assert a == b <==> a[1..] == b[1..] by { assert a == [x] + a[1..] && b == [y] + b[1..]; }
      }
    }
  }

  lemma PrereleaseStep(a: seq<Ident>, b: seq<Ident>)
    requires a != [] && b != [] && (a[0] == b[0] ==> !IdentLess(a[0], b[0]))
    ensures a[0] == b[0] ==> (PrereleaseLess(a, b) <==> PrereleaseLess(a[1..], b[1..]))
    ensures a[0] != b[0] ==> (PrereleaseLess(a, b) <==> IdentLess(a[0], b[0]))
  {
    var s, t := a[1..], b[1..];
    assert PrereleaseDecidedAt(a, b, 0) <==> IdentLess(a[0], b[0]);
    if PrereleaseLess(a, b) {
      var k :| PrereleaseDecidedAt(a, b, k);
      if k > 0 {
        assert a[0] == a[..k][0] && b[0] == b[..k][0];
        assert s[..k - 1] == a[..k][1..] && t[..k - 1] == b[..k][1..];
        assert PrereleaseDecidedAt(s, t, k - 1);
      }
    }
    if a[0] == b[0] && PrereleaseLess(s, t) {
      var k :| PrereleaseDecidedAt(s, t, k);
      assert a[..k + 1] == [a[0]] + s[..k] && b[..k + 1] == [b[0]] + t[..k];
      assert PrereleaseDecidedAt(a, b, k + 1);
    }
  }

  lemma ShownPrintable(v: SemVer)
    requires Valid(v)
    ensures Printable(ShowIdents(v.pre))
  {
    forall i | 0 <= i < |v.pre| ensures PlainIdent(ShowIdent(v.pre[i])) && ShowIdent(v.pre[i]) != [] {
      var x := v.pre[i];
      assert ValidIdent(x);
      if x.Numeric? { DecimalShape(x.n); }
    }
  }

  /** On valid versions whose numbers fit 64 bits the comparison is precedence as section 11 defines
      it, however many `v`s lead and whatever build metadata follows. */
  lemma PrecedenceMatches(a: SemVer, b: SemVer, va: nat, vb: nat, ba: Option<string>, bb: Option<string>)
    requires Valid(a) && Valid(b) && Fits(a) && Fits(b)
    ensures var o := CmpVersions(Tag(va, Show(a), ba), Tag(vb, Show(b), bb));
            && (o == Less <==> LowerPrecedence(a, b))
            && (o == Greater <==> LowerPrecedence(b, a))
            && (o == Equal <==> a == b)
  {
    TagReading(a, va, ba);
    TagReading(b, vb, bb);
    CmpReadingIsPrecedence(a, b);
  }

  function Reading(v: SemVer): Parsed
    requires Fits(v)
  {
    Parsed(v.major, v.minor, v.patch, ShowIdents(v.pre))
  }

  lemma TagReading(v: SemVer, vs: nat, build: Option<string>)
    requires Valid(v) && Fits(v)
    ensures ParseVersion(Tag(vs, Show(v), build)) == Some(Reading(v))
  {
    ShownPrintable(v);
    ParsePrint(vs, v.major, v.minor, v.patch, ShowIdents(v.pre), build);
  }

  lemma CmpReadingIsPrecedence(a: SemVer, b: SemVer)
    requires Valid(a) && Valid(b) && Fits(a) && Fits(b)
    ensures var o := CmpParsed(Reading(a), Reading(b));
            && (o == Less <==> LowerPrecedence(a, b))
            && (o == Greater <==> LowerPrecedence(b, a))
            && (o == Equal <==> a == b)
  {
    CmpIdentsIsPrecedence(a.pre, b.pre);
    CmpIdentsIsPrecedence(b.pre, a.pre);
    CmpIdentsReverse(ShowIdents(a.pre), ShowIdents(b.pre));
  }

  // ---------- beyond 64 bits ----------

  predicate CoreFits(v: SemVer) { v.major < U64_MODULUS && v.minor < U64_MODULUS && v.patch < U64_MODULUS }

  function ShownReading(v: SemVer): Option<Parsed>
  {
    if CoreFits(v) then Some(Parsed(v.major, v.minor, v.patch, ShowIdents(v.pre))) else None
  }

  lemma ShowReads(v: SemVer)
    requires Valid(v)
    ensures ParseVersion(Show(v)) == ShownReading(v)
  {
    ShownPrintable(v);
    ParsePrint(0, v.major, v.minor, v.patch, ShowIdents(v.pre), None);
    BareTag(Show(v));
  }

  lemma BareTag(s: string)
    ensures Tag(0, s, None) == s
  {
  }

  lemma ShowCompares(a: SemVer, b: SemVer)
    requires Valid(a) && Valid(b)
    ensures CmpVersions(Show(a), Show(b)) == CmpReadings(ShownReading(a), ShownReading(b))
  {
    ShowReads(a);
    ShowReads(b);
  }

  /** A version with a core number beyond 64 bits does not parse: it ranks below every version whose core
      fits, and level with every other that does not. */
  lemma OversizedCoreRanksLowest(a: SemVer, b: SemVer)
    requires Valid(a) && Valid(b) && !CoreFits(a)
    ensures CmpVersions(Show(a), Show(b)) == if CoreFits(b) then Less else Equal
  {
    ShowCompares(a, b);
  }

  /** The comparison of two versions is that of the standard, in both directions. */
  ghost predicate OrderedRight(a: SemVer, b: SemVer)
  {
    var o := CmpVersions(Show(a), Show(b));
    (o == Less <==> LowerPrecedence(a, b)) && (o == Greater <==> LowerPrecedence(b, a))
  }

  /** The 64-bit bound is exact for versions: a valid version is placed as the standard asks against every
      version that fits if and only if it fits itself. */
  lemma FitsExact(a: SemVer)
    requires Valid(a)
    ensures Fits(a) <==> forall b :: Valid(b) && Fits(b) ==> OrderedRight(a, b)
  {
    if Fits(a) {
      forall b | Valid(b) && Fits(b) ensures OrderedRight(a, b) {
        FittingOrdered(a, b);
      }
    } else if !CoreFits(a) {
      OversizedMisplaced(a);
    } else {
      RivalMisplaced(a);
    }
  }

  lemma FittingOrdered(a: SemVer, b: SemVer)
    requires Valid(a) && Valid(b) && Fits(a) && Fits(b)
    ensures OrderedRight(a, b)
  {
    ShowCompares(a, b);
    CmpReadingIsPrecedence(a, b);
  }

  lemma OversizedMisplaced(a: SemVer)
    requires Valid(a) && !CoreFits(a)
    ensures exists b :: Valid(b) && Fits(b) && !OrderedRight(a, b)
  {
    var b := SemVer(0, 0, 0, []);
    assert Valid(b) && Fits(b);
    OversizedCoreRanksLowest(a, b);
  }

  predicate AllValid(xs: seq<Ident>) { forall i :: 0 <= i < |xs| ==> ValidIdent(xs[i]) }

  predicate AllFit(xs: seq<Ident>) { forall i :: 0 <= i < |xs| ==> IdentFits(xs[i]) }

  /** The identifiers before the first that does not fit, then a lone hyphen. */
  function Rival(xs: seq<Ident>): seq<Ident>
  {
    if xs == [] || !IdentFits(xs[0]) then [Alphanumeric("-")] else [xs[0]] + Rival(xs[1..])
  }

  lemma {:induction false} RivalFits(xs: seq<Ident>)
    requires AllValid(xs)
    ensures AllValid(Rival(xs)) && AllFit(Rival(xs))
  {
    if xs == [] || !IdentFits(xs[0]) {
      LoneHyphen(U64_MODULUS);
    } else {
      RivalFits(xs[1..]);
    }
  }

  lemma {:induction false} RivalMisordered(xs: seq<Ident>)
    requires !AllFit(xs)
    ensures CmpIdents(ShowIdents(xs), ShowIdents(Rival(xs))) == Greater && PrereleaseLess(xs, Rival(xs))
  {
    var x, rival := xs[0], Rival(xs);
    if IdentFits(x) {
      RivalMisordered(xs[1..]);
      assert rival[0] == x && rival[1..] == Rival(xs[1..]);
      SameHead(xs, rival);
    } else {
      LoneHyphen(x.n);
      assert PrereleaseDecidedAt(xs, rival, 0);
    }
  }

  /** A common first identifier does not matter to either order. */
  lemma SameHead(xs: seq<Ident>, ys: seq<Ident>)
    requires xs != [] && ys != [] && xs[0] == ys[0]
    ensures CmpIdents(ShowIdents(xs), ShowIdents(ys)) == CmpIdents(ShowIdents(xs[1..]), ShowIdents(ys[1..]))
    ensures PrereleaseLess(xs, ys) <==> PrereleaseLess(xs[1..], ys[1..])
  {
    CmpIdentReverse(ShowIdent(xs[0]), ShowIdent(xs[0]));
    NotLessThanItself(xs[0]);
    PrereleaseStep(xs, ys);
    assert ShowIdents(xs)[1..] == ShowIdents(xs[1..]) && ShowIdents(ys)[1..] == ShowIdents(ys[1..]);
  }

  lemma NotLessThanItself(x: Ident)
    ensures !IdentLess(x, x)
  {
    if x.Alphanumeric? {
      CmpStringIsAscii(x.s, x.s);
      CmpStringReverse(x.s, x.s);
    }
  }

  /** The standard puts a number below a lone hyphen; one beyond 64 bits is put above it. */
  lemma LoneHyphen(n: nat)
    requires n >= U64_MODULUS
    ensures ValidIdent(Alphanumeric("-"))
    ensures CmpIdent(ShowIdent(Numeric(n)), ShowIdent(Alphanumeric("-"))) == Greater
  {
    var y := Alphanumeric("-");
    assert ValidIdent(y) by { assert !IsDigit(y.s[0]); }
    IdentReading(Numeric(n));
    IdentReading(y);
    DecimalShape(n);
    assert IsDigit(Decimal(n)[0]);
  }

  lemma RivalMisplaced(a: SemVer)
    requires Valid(a) && CoreFits(a) && !Fits(a)
    ensures exists b :: Valid(b) && Fits(b) && !OrderedRight(a, b)
  {
    var b := a.(pre := Rival(a.pre));
    RivalFits(a.pre);
    assert Valid(b) && Fits(b);
    RivalCompares(a, b);
  }

  lemma RivalCompares(a: SemVer, b: SemVer)
    requires Valid(a) && CoreFits(a) && !Fits(a) && b == a.(pre := Rival(a.pre)) && Valid(b)
    ensures !OrderedRight(a, b)
  {
    RivalMisordered(a.pre);
    ShowCompares(a, b);
    RivalReading(a, b);
  }

  lemma RivalReading(a: SemVer, b: SemVer)
    requires CoreFits(a) && b == a.(pre := b.pre) && a.pre != [] && b.pre != []
    requires CmpIdents(ShowIdents(a.pre), ShowIdents(b.pre)) == Greater && PrereleaseLess(a.pre, b.pre)
    ensures CmpReadings(ShownReading(a), ShownReading(b)) == Greater && LowerPrecedence(a, b)
  {
  }
}
