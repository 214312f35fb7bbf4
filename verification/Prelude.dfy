/** Shared datatypes, machine-integer bounds and a few facts about finite collections. */
module Prelude {

  datatype Option<+T> = None | Some(value: T) {
    /** `unwrap_or` */
    function GetOr(default: T): T { if Some? then value else default }
  }

  const U32_MODULUS: nat := 0x1_0000_0000
  const U64_MODULUS: nat := 0x1_0000_0000_0000_0000

  type u32 = n: int | 0 <= n < U32_MODULUS
  type u64 = n: int | 0 <= n < U64_MODULUS

  function Min(a: int, b: int): int { if a <= b then a else b }

  function Max(a: int, b: int): int { if a <= b then b else a }

  /** `a.saturating_sub(b)` on an unsigned type. */
  function SaturatingSub(a: nat, b: nat): nat { if a <= b then 0 else a - b }

  /** The elements of a sequence. */
  function Elems<T>(s: seq<T>): set<T> { set x | x in s }

  lemma {:induction false} ElemsBound<T>(s: seq<T>)
    ensures |Elems(s)| <= |s|
  {
    if s != [] {
      ElemsBound(s[..|s| - 1]);
      assert Elems(s) == Elems(s[..|s| - 1]) + {s[|s| - 1]};
    }
  }

  /** The integers of the half-open range [lo, hi). */
  function Interval(lo: int, hi: int): (r: set<int>)
    ensures forall i :: i in r <==> lo <= i < hi
    decreases hi - lo
  {
    if lo >= hi then {} else Interval(lo, hi - 1) + {hi - 1}
  }

  lemma {:induction false} IntervalSize(lo: int, hi: int)
    ensures |Interval(lo, hi)| == Max(0, hi - lo)
    decreases hi - lo
  {
    if lo < hi {
      IntervalSize(lo, hi - 1);
      assert hi - 1 !in Interval(lo, hi - 1);
    }
  }

  lemma {:induction false} SubsetSize<T>(a: set<T>, b: set<T>)
    requires a <= b
    ensures |a| <= |b|
    decreases a
  {
    if a != {} {
      var x :| x in a;
      SubsetSize(a - {x}, b - {x});
    }
  }

  /** An injective tag bounds the size of a set by the size of its range of tags. */
  lemma {:induction false} InjectionSize<T(!new), U(!new)>(a: set<T>, f: T -> U, b: set<U>)
    requires forall x :: x in a ==> f(x) in b
    requires forall x, y :: x in a && y in a && f(x) == f(y) ==> x == y
    ensures |a| <= |b|
    decreases a
  {
    if a != {} {
      var x :| x in a;
      InjectionSize(a - {x}, f, b - {f(x)});
    }
  }

  lemma OneMember<T>(a: set<T>, x: T, y: T)
    requires |a| <= 1 && x in a && y in a
    ensures x == y
  {
    SubsetSize({x, y}, a);
    assert x != y ==> |{x, y}| == 2;
  }

  lemma SubsetDifference<T>(a: set<T>, b: set<T>)
    requires b <= a
    ensures |a - b| == |a| - |b|
  {
    assert a == (a - b) + b;
  }

  /** Indices below `n`, strictly increasing. */
  predicate Increasing(idx: seq<nat>, n: nat)
  {
    (forall i :: 0 <= i < |idx| ==> idx[i] < n) && forall i, j :: 0 <= i < j < |idx| ==> idx[i] < idx[j]
  }
}
