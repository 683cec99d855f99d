/** The slice of JavaScript semantics the site's components rely on:
    optional values, numbers that may be NaN, the truncating `%` operator,
    truthiness, and the string methods `toLowerCase`, `includes`,
    `startsWith`, `indexOf`, `String(n)` and `padStart`. */
module Js {

  /** `undefined` / `null` versus a present value. */
  datatype Option<+T> = None | Some(value: T)

  /** A JavaScript number restricted to the integers the components use,
      plus the NaN that an integer `% 0` produces. */
  datatype Number = Num(n: int) | NaN

  function Abs(x: int): (r: nat)
    ensures r == x || r == -x
  {
    if x < 0 then -x else x
  }

  /** JavaScript's `a % b` on integers: the remainder of the division
      truncated toward zero, so it takes the sign of the dividend. */
  function Rem(a: int, b: int): (r: int)
    requires b != 0
    ensures Abs(r) < Abs(b)
    ensures r == 0 || (r > 0 <==> a > 0)
  {
    var m := Abs(b);
    var x := if a >= 0 then a else -a;
    var t := x % m;
    if a >= 0 then t else -t
  }

  /** Rem is the remainder of the truncating division: `a == b * Quot(a, b) + Rem(a, b)`. */
  lemma RemDivision(a: int, b: int)
    requires b != 0
    ensures a == b * Quot(a, b) + Rem(a, b)
  {
    var m := Abs(b);
    var x := if a >= 0 then a else -a;
    var q := x / m;
    assert x == m * q + x % m;
    if b < 0 {
      assert b * (-q) == m * q;
    }
  }

  /** The quotient of `a / b` truncated toward zero (`Math.trunc(a / b)`). */
  function Quot(a: int, b: int): int
    requires b != 0
  {
    var q := (if a >= 0 then a else -a) / Abs(b);
    if (a >= 0) == (b > 0) then q else -q
  }

  /** `a % b` as JavaScript evaluates it on numbers: NaN for a zero divisor. */
  function RemNumber(a: int, b: int): (r: Number)
    ensures b == 0 <==> r == NaN
    ensures r.Num? ==> Abs(r.n) < Abs(b)
  {
    if b == 0 then NaN else Num(Rem(a, b))
  }

  /** For a non-negative dividend and a positive divisor the truncating and
      the Euclidean remainder agree. */
  lemma RemOfNatural(a: int, b: int)
    requires a >= 0 && b > 0
    ensures Rem(a, b) == a % b
  {
  }

  lemma MulNonneg(m: int, k: int)
    requires 0 <= m && 0 <= k
    ensures 0 <= m * k
  {
  }

  /** Euclidean `%` is determined by any quotient/remainder decomposition. */
  lemma ModUnique(a: int, m: int, q: int, r: int)
    requires 0 < m && a == m * q + r && 0 <= r < m
    ensures a % m == r
  {
    var q0 := a / m;
    assert a == m * q0 + a % m;
    if q0 > q {
      MulNonneg(m, q0 - q - 1);
      assert false;
    } else if q0 < q {
      MulNonneg(m, q - q0 - 1);
      assert false;
    }
  }

  /** Adding the modulus does not change the remainder. */
  lemma ModAddSelf(a: int, m: int)
    requires 0 < m
    ensures (a + m) % m == a % m
  {
    assert a == m * (a / m) + a % m;
    assert a + m == m * (a / m + 1) + a % m;
    ModUnique(a + m, m, a / m + 1, a % m);
  }

  /** The remainders the cursor arithmetic needs. */
  lemma SmallMod(a: int, m: int)
    requires 0 <= a && 0 < m
    ensures Rem(a, m) == a % m
    ensures a < m ==> a % m == a
    ensures m <= a < 2 * m ==> a % m == a - m
  {
    RemOfNatural(a, m);
    if a < m {
      ModUnique(a, m, 0, a);
    } else if a < 2 * m {
      ModUnique(a, m, 1, a - m);
    }
  }

  /** Truthiness of an optional string: absent and empty are both falsy. */
  predicate TruthyString(s: Option<string>) {
    s.Some? && s.value != ""
  }

  /** Truthiness of an optional flag: absent is falsy. */
  predicate TruthyFlag(b: Option<bool>) {
    b.Some? && b.value
  }

  /** Truthiness of an optional integer: absent and zero are both falsy. */
  predicate TruthyInt(x: Option<int>) {
    x.Some? && x.value != 0
  }

  // ----- strings -----

  function LowerChar(c: char): (r: char)
    ensures 'A' <= c <= 'Z' ==> 'a' <= r <= 'z'
    ensures !('A' <= c <= 'Z') ==> r == c
  {
    if 'A' <= c <= 'Z' then (c as int + 32) as char else c
  }

  /** `s.toLowerCase()` on the ASCII letters. */
  function Lower(s: string): (r: string)
    ensures |r| == |s|
    ensures forall i :: 0 <= i < |s| ==> r[i] == LowerChar(s[i])
  {
    seq(|s|, i requires 0 <= i < |s| => LowerChar(s[i]))
  }

  lemma LowerIdempotent(s: string)
    ensures Lower(Lower(s)) == Lower(s)
  {
  }

  /** A lower-case letter is absent from `Lower(s)` exactly when neither it
      nor its capital occurs in `s`. */
  lemma LowerAbsence(s: string, c: char)
    requires 'a' <= c <= 'z'
    ensures c !in Lower(s) <==> c !in s && ((c as int - 32) as char) !in s
  {
    var up := (c as int - 32) as char;
    if c in Lower(s) {
      var i :| 0 <= i < |s| && Lower(s)[i] == c;
      assert s[i] == c || s[i] == up;
    }
    if c in s || up in s {
      var i :| 0 <= i < |s| && (s[i] == c || s[i] == up);
      assert Lower(s)[i] == c;
    }
  }

  /** `s.startsWith(p)`. */
  predicate StartsWith(s: string, p: string) {
    |p| <= |s| && s[..|p|] == p
  }

  /** `p` occurs in `s` starting at offset `i`. */
  predicate OccursAt(s: string, p: string, i: int) {
    0 <= i && i + |p| <= |s| && s[i..i + |p|] == p
  }

  /** `s.includes(p)`: some offset holds an occurrence of `p`. */
  predicate Contains(s: string, p: string) {
    exists i | 0 <= i <= |s| - |p| :: OccursAt(s, p, i)
  }

  /** A string lacking one of the characters of `p` does not include `p`. */
  lemma MissingCharNotContained(s: string, p: string, c: char)
    requires c in p && c !in s
    ensures !Contains(s, p)
  {
  }

  /** An occurrence at a known offset makes `includes` true. */
  lemma OccurrenceContained(s: string, p: string, i: int)
    requires OccursAt(s, p, i)
    ensures Contains(s, p)
  {
  }

  /** Every string includes the empty string. */
  lemma EmptyIsContained(s: string)
    ensures Contains(s, "")
  {
    assert OccursAt(s, "", 0);
  }

  /** `xs.indexOf(x)`: the first position of `x`, or -1. */
  function IndexOf<T(==)>(xs: seq<T>, x: T): (r: int)
    ensures r == -1 <==> x !in xs
    ensures r != -1 ==> 0 <= r < |xs| && xs[r] == x && x !in xs[..r]
  {
    if xs == [] then -1
    else if xs[0] == x then 0
    else
      var k := IndexOf(xs[1..], x);
      assert xs[1..][..(if k == -1 then 0 else k)] == xs[1..(if k == -1 then 1 else k + 1)];
      if k == -1 then -1 else k + 1
  }

  // ----- numbers as text -----

  predicate IsDigit(c: char) {
    '0' <= c <= '9'
  }

  function DigitChar(d: nat): (c: char)
    requires d < 10
    ensures IsDigit(c)
  {
    ('0' as int + d) as char
  }

  /** `String(n)` for a natural number: its decimal digits, no leading zero. */
  function DecimalString(n: nat): (s: string)
    ensures 1 <= |s|
    ensures forall i :: 0 <= i < |s| ==> IsDigit(s[i])
    ensures |s| == 1 <==> n < 10
    ensures n > 0 ==> s[0] != '0'
  {
    if n < 10 then [DigitChar(n)] else DecimalString(n / 10) + [DigitChar(n % 10)]
  }

  /** The value of a string of decimal digits (the partner of DecimalString). */
  function ParseDecimal(s: string): nat
    requires forall i :: 0 <= i < |s| ==> IsDigit(s[i])
  {
    if s == [] then 0
    else
      var last := s[|s| - 1];
      assert IsDigit(last);
      ParseDecimal(s[..|s| - 1]) * 10 + (last as int - '0' as int)
  }

  lemma {:induction false} DecimalRoundTrip(n: nat)
    ensures ParseDecimal(DecimalString(n)) == n
  {
    if n >= 10 {
      var s := DecimalString(n);
      assert s[..|s| - 1] == DecimalString(n / 10);
      DecimalRoundTrip(n / 10);
    }
  }

  /** A leading '0' does not change the value of a digit string. */
  lemma {:induction false} LeadingZero(s: string)
    requires forall i :: 0 <= i < |s| ==> IsDigit(s[i])
    ensures ParseDecimal(['0'] + s) == ParseDecimal(s)
    decreases |s|
  {
    if s != [] {
      var t := ['0'] + s;
      assert t[..|t| - 1] == ['0'] + s[..|s| - 1];
      LeadingZero(s[..|s| - 1]);
    }
  }

  /** `s.padStart(width, c)`: left-pad with `c` up to `width` characters. */
  function PadStart(s: string, width: nat, c: char): (r: string)
    ensures |r| == if |s| < width then width else |s|
    ensures |s| >= width ==> r == s
    ensures r[|r| - |s|..] == s
    ensures forall i :: 0 <= i < |r| - |s| ==> r[i] == c
  {
    if |s| >= width then s else seq(width - |s|, _ => c) + s
  }

  /** `String(n).padStart(2, '0')`. */
  function TwoDigits(n: nat): (s: string)
    ensures |s| == if n < 10 then 2 else |DecimalString(n)|
    ensures forall i :: 0 <= i < |s| ==> IsDigit(s[i])
  {
    PadStart(DecimalString(n), 2, '0')
  }

  /** Padding a decimal with zeros keeps its value. */
  lemma TwoDigitsRoundTrip(n: nat)
    ensures ParseDecimal(TwoDigits(n)) == n
  {
    DecimalRoundTrip(n);
    var d := DecimalString(n);
    if n < 10 {
      assert TwoDigits(n) == ['0'] + d;
      LeadingZero(d);
    }
  }
  // ----- arrays -----

  /** `ys` can be obtained from `xs` by deleting elements (order kept). */
  predicate IsSubsequence<T(==)>(ys: seq<T>, xs: seq<T>)
    decreases |xs|
  {
    ys == [] ||
    (xs != [] &&
     if ys[0] == xs[0] then IsSubsequence(ys[1..], xs[1..]) else IsSubsequence(ys, xs[1..]))
  }

  /** `xs.filter(keep)`: the elements that satisfy `keep`, in their original
      order, each as often as it occurs in `xs`. */
  function Filter<T(==)>(xs: seq<T>, keep: T -> bool): (r: seq<T>)
    ensures |r| <= |xs|
    ensures forall x :: x in r ==> x in xs && keep(x)
  {
    if xs == [] then []
    else
      var rest := Filter(xs[1..], keep);
      if keep(xs[0]) then [xs[0]] + rest else rest
  }

  /** Filter keeps exactly the elements that pass, with their multiplicity. */
  lemma {:induction false} FilterCounts<T>(xs: seq<T>, keep: T -> bool)
    ensures forall x :: x in xs ==>
      multiset(Filter(xs, keep))[x] == if keep(x) then multiset(xs)[x] else 0
  {
    if xs != [] {
      FilterCounts(xs[1..], keep);
      assert xs == [xs[0]] + xs[1..];
      forall x | x in xs
        ensures multiset(Filter(xs, keep))[x] == if keep(x) then multiset(xs)[x] else 0
      {
        if x !in xs[1..] {
          assert multiset(xs[1..])[x] == 0;
          assert multiset(Filter(xs[1..], keep))[x] == 0;
        }
      }
    }
  }

  /** An element of the input survives the filter exactly when it is kept. */
  lemma FilterMembers<T>(xs: seq<T>, keep: T -> bool)
    ensures forall x :: x in xs ==> (x in Filter(xs, keep) <==> keep(x))
  {
    FilterCounts(xs, keep);
    forall x | x in xs
      ensures x in Filter(xs, keep) <==> keep(x)
    {
      assert multiset(Filter(xs, keep))[x] == if keep(x) then multiset(xs)[x] else 0;
    }
  }

  lemma {:induction false} FilterIsSubsequence<T>(xs: seq<T>, keep: T -> bool)
    ensures IsSubsequence(Filter(xs, keep), xs)
  {
    if xs != [] {
      FilterIsSubsequence(xs[1..], keep);
      var rest := Filter(xs[1..], keep);
      if !keep(xs[0]) && rest != [] {
        assert rest[0] in rest;
      }
    }
  }

  /** Filtering with a test every element passes returns the array itself. */
  lemma {:induction false} FilterKeepsAll<T>(xs: seq<T>, keep: T -> bool)
    requires forall x :: x in xs ==> keep(x)
    ensures Filter(xs, keep) == xs
  {
    if xs != [] {
      FilterKeepsAll(xs[1..], keep);
    }
  }

  /** Filtering distributes over concatenation; with the one-element case
      (the body) this pins Filter down completely. */
  lemma {:induction false} FilterAppend<T>(xs: seq<T>, ys: seq<T>, keep: T -> bool)
    ensures Filter(xs + ys, keep) == Filter(xs, keep) + Filter(ys, keep)
  {
    if xs == [] {
      assert xs + ys == ys;
    } else {
      var zs := xs + ys;
      assert zs != [] && zs[0] == xs[0] && zs[1..] == xs[1..] + ys;
      FilterAppend(xs[1..], ys, keep);
      var head := if keep(xs[0]) then [xs[0]] else [];
      assert Filter(zs, keep) == head + Filter(zs[1..], keep);
      assert Filter(xs, keep) == head + Filter(xs[1..], keep);
    }
  }

  /** Filter with a single passing element at index k returns just that element. */
  lemma FilterSingle<T>(xs: seq<T>, keep: T -> bool, k: int)
    requires 0 <= k < |xs| && keep(xs[k])
    requires forall i :: 0 <= i < |xs| && i != k ==> !keep(xs[i])
    ensures Filter(xs, keep) == [xs[k]]
  {
    assert xs == xs[..k] + [xs[k]] + xs[k + 1..];
    FilterAppend(xs[..k] + [xs[k]], xs[k + 1..], keep);
    FilterAppend(xs[..k], [xs[k]], keep);
    FilterNone(xs[..k], keep);
    FilterNone(xs[k + 1..], keep);
    assert Filter([xs[k]], keep) == [xs[k]];
  }

  lemma {:induction false} FilterNone<T>(xs: seq<T>, keep: T -> bool)
    requires forall x :: x in xs ==> !keep(x)
    ensures Filter(xs, keep) == []
  {
    if xs != [] {
      FilterNone(xs[1..], keep);
    }
  }

  /** Two tests that agree on every element select the same elements. */
  lemma {:induction false} FilterCongruent<T>(xs: seq<T>, k1: T -> bool, k2: T -> bool)
    requires forall x :: x in xs ==> k1(x) == k2(x)
    ensures Filter(xs, k1) == Filter(xs, k2)
  {
    if xs != [] {
      FilterCongruent(xs[1..], k1, k2);
    }
  }
}
