/** Strings as the source handles them: decimal printing, `str::parse` on unsigned types, `split`. */
module Text {
  import opened Prelude

  // ---------- decimal numbers ----------

  predicate IsDigit(c: char) { '0' <= c <= '9' }

  predicate AllDigits(s: string) { forall i :: 0 <= i < |s| ==> IsDigit(s[i]) }

  function DigitChar(d: nat): (c: char)
    requires d < 10
    ensures IsDigit(c) && c as int == '0' as int + d
  {
    ('0' as int + d) as char
  }

  /** `n.to_string()`. */
  function Decimal(n: nat): string
  {
    if n < 10 then [DigitChar(n)] else Decimal(n / 10) + [DigitChar(n % 10)]
  }

  /** The number a digit string denotes. */
  function Value(s: string): nat
    requires AllDigits(s)
  {
    if s == [] then 0
    else 10 * Value(s[..|s| - 1]) + (s[|s| - 1] as int - '0' as int)
  }

  /** `s.parse()` for an unsigned type with `bound` values: one optional plus sign, then one or
      more ASCII digits, in range. */
  function ParseUnsigned(s: string, bound: nat): Option<nat>
  {
    var body := if s != [] && s[0] == '+' then s[1..] else s;
    if body == [] || !AllDigits(body) then None
    else if Value(body) < bound then Some(Value(body)) else None
  }

  lemma {:induction false} DecimalShape(n: nat)
    ensures Decimal(n) != [] && AllDigits(Decimal(n)) && Value(Decimal(n)) == n
    ensures n > 0 ==> Decimal(n)[0] != '0'
    ensures n == 0 ==> Decimal(n) == "0"
  {
    if n >= 10 {
      DecimalShape(n / 10);
      var s := Decimal(n);
      assert s[..|s| - 1] == Decimal(n / 10);
    } else {
      assert Decimal(n)[..0] == [];
    }
  }

  lemma ParseDecimal(n: nat, bound: nat)
    ensures ParseUnsigned(Decimal(n), bound) == if n < bound then Some(n) else None
  {
    DecimalShape(n);
    assert IsDigit(Decimal(n)[0]);
  }

  /** What else `parse` accepts, and what it does not: one plus sign and leading zeros; neither the empty
      text, nor a sign alone, nor anything with another character in it. */
  lemma ParseVariants(n: nat, bound: nat)
    requires n < bound
    ensures ParseUnsigned("+" + Decimal(n), bound) == Some(n)
    ensures ParseUnsigned("0" + Decimal(n), bound) == Some(n)
    ensures ParseUnsigned("", bound) == None && ParseUnsigned("+", bound) == None
    ensures ParseUnsigned("-" + Decimal(n), bound) == None && ParseUnsigned(Decimal(n) + " ", bound) == None
  {
    var d := Decimal(n);
    DecimalShape(n);
    assert ("+" + d)[1..] == d;
    LeadingZero(d);
    assert !IsDigit(("-" + d)[0]) && !IsDigit((d + " ")[|d|]);
  }

  lemma {:induction false} LeadingZero(d: string)
    requires AllDigits(d)
    ensures AllDigits("0" + d) && Value("0" + d) == Value(d)
  {
    var z := "0" + d;
    if d == [] {
      assert z[..0] == [] && Value([]) == 0;
    } else {
      LeadingZero(d[..|d| - 1]);
      assert z[..|z| - 1] == "0" + d[..|d| - 1];
    }
  }

  lemma DecimalHasNo(n: nat, c: char)
    requires !IsDigit(c)
    ensures c !in Decimal(n)
  {
    DecimalShape(n);
  }

  // ---------- splitting ----------

  /** The first piece of `s.split(c)`. */
  function UpTo(s: string, c: char): (r: string)
    ensures |r| <= |s|
  {
    if s == [] || s[0] == c then [] else [s[0]] + UpTo(s[1..], c)
  }

  /** `s.split(c).collect()`. */
  function Split(s: string, c: char): seq<string>
    decreases |s|
  {
    var head := UpTo(s, c);
    if |head| < |s| then [head] + Split(s[|head| + 1..], c) else [s]
  }

  /** `xs.join(c)`. */
  function Join(xs: seq<string>, c: char): string
  {
    if xs == [] then []
    else if |xs| == 1 then xs[0]
    else xs[0] + [c] + Join(xs[1..], c)
  }

  lemma {:induction false} UpToFirst(a: string, c: char, b: string)
    requires c !in a
    ensures UpTo(a + [c] + b, c) == a
  {
    if a == [] {
      assert (a + [c] + b)[0] == c;
    } else {
      UpToFirst(a[1..], c, b);
      assert (a + [c] + b)[1..] == a[1..] + [c] + b;
      assert (a + [c] + b)[0] == a[0];
    }
  }

  lemma {:induction false} UpToWhole(a: string, c: char)
    requires c !in a
    ensures UpTo(a, c) == a
  {
    if a != [] { UpToWhole(a[1..], c); }
  }

  /** What follows a separator does not matter to the first piece. */
  lemma {:induction false} UpToBefore(a: string, c: char, b: string)
    ensures UpTo(a + [c] + b, c) == UpTo(a, c)
  {
    var s := a + [c] + b;
    if a == [] {
      assert s[0] == c;
    } else {
      assert s[0] == a[0] && s[1..] == a[1..] + [c] + b;
      UpToBefore(a[1..], c, b);
    }
  }

  lemma {:induction false} SplitJoin(xs: seq<string>, c: char)
    requires xs != [] && forall i :: 0 <= i < |xs| ==> c !in xs[i]
    ensures Split(Join(xs, c), c) == xs
  {
    var s := Join(xs, c);
    if |xs| > 1 {
      UpToFirst(xs[0], c, Join(xs[1..], c));
      SplitJoin(xs[1..], c);
      assert s[|xs[0]|] == c;
      assert s[|xs[0]| + 1..] == Join(xs[1..], c);
    } else {
      UpToWhole(xs[0], c);
      assert xs == [xs[0]];
    }
  }

  // ---------- ordering ----------

  datatype Ordering = Less | Equal | Greater {
    function Reverse(): Ordering {
      match this
      case Less => Greater
      case Equal => Equal
      case Greater => Less
    }
  }

  function CmpInt(a: int, b: int): Ordering { if a < b then Less else if a > b then Greater else Equal }

  /** `str::cmp`: byte order of UTF-8, which is code point order. */
  function CmpString(a: string, b: string): Ordering
  {
    if a == [] then (if b == [] then Equal else Less)
    else if b == [] then Greater
    else if a[0] < b[0] then Less
    else if a[0] > b[0] then Greater
    else CmpString(a[1..], b[1..])
  }

  lemma {:induction false} CmpStringReverse(a: string, b: string)
    ensures CmpString(b, a) == CmpString(a, b).Reverse()
    ensures CmpString(a, b) == Equal <==> a == b
  {
    if a != [] && b != [] {
      CmpStringReverse(a[1..], b[1..]);
      if a[0] == b[0] {
        assert a == [a[0]] + a[1..] && b == [b[0]] + b[1..];
      }
    }
  }

  lemma {:induction false} CmpStringTransitive(a: string, b: string, c: string)
    requires CmpString(a, b) != Greater && CmpString(b, c) != Greater
    ensures CmpString(a, c) != Greater
    ensures CmpString(a, b) == Less || CmpString(b, c) == Less ==> CmpString(a, c) == Less
  {
    if a != [] && b != [] && c != [] && a[0] == b[0] == c[0] {
      CmpStringTransitive(a[1..], b[1..], c[1..]);
    }
  }
}
