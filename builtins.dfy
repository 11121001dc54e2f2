/** Stand-ins for the JavaScript built-ins the album relies on: array
    `map`, `filter`, `includes`, `new Set(...)`, number to decimal text and
    `Math.round` of a percentage. */
module Builtins {

  /** `s.map(f)`: `f` applied to each element, in order. */
  function Map<A, B>(s: seq<A>, f: A -> B): (r: seq<B>)
    ensures |r| == |s|
    ensures forall i :: 0 <= i < |s| ==> r[i] == f(s[i])
  {
    seq(|s|, i requires 0 <= i < |s| => f(s[i]))
  }

  /** `s.filter(p)`: the elements of `s` that satisfy `p`, in their order. */
  function Filter<T(!new)>(s: seq<T>, p: T -> bool): (r: seq<T>)
    ensures |r| <= |s|
    ensures forall x :: x in r <==> x in s && p(x)
    ensures forall i :: 0 <= i < |r| ==> p(r[i])
  {
    if s == [] then []
    else (if p(s[0]) then [s[0]] else []) + Filter(s[1..], p)
  }

  /** A prefix one longer is the prefix and the next element. */
  lemma PrefixStep<T>(s: seq<T>, i: nat)
    requires i < |s|
    ensures s[..i + 1] == s[..i] + [s[i]]
  {
  }

  /** A filter keeps every copy of an element that passes and none of one that
      does not. */
  lemma {:induction false} FilterMultiplicity<T(!new)>(s: seq<T>, p: T -> bool, x: T)
    ensures multiset(Filter(s, p))[x] == if p(x) then multiset(s)[x] else 0
  {
    if s != [] {
      FilterMultiplicity(s[1..], p, x);
      assert s == [s[0]] + s[1..];
    }
  }

  /** `FilterMultiplicity` for every element at once. */
  lemma FilterCounts<T(!new)>(s: seq<T>, p: T -> bool)
    ensures forall x :: multiset(Filter(s, p))[x] == if p(x) then multiset(s)[x] else 0
  {
    forall x
      ensures multiset(Filter(s, p))[x] == if p(x) then multiset(s)[x] else 0
    {
      FilterMultiplicity(s, p, x);
    }
  }

  /** `a` can be obtained from `b` by deleting elements (order kept). */
  predicate IsSubseq<T(==)>(a: seq<T>, b: seq<T>)
    decreases |b|
  {
    if a == [] then true
    else if b == [] then false
    else if a[0] == b[0] then IsSubseq(a[1..], b[1..])
    else IsSubseq(a, b[1..])
  }

  lemma {:induction false} FilterIsSubseq<T(!new)>(s: seq<T>, p: T -> bool)
    ensures IsSubseq(Filter(s, p), s)
  {
    if s != [] {
      FilterIsSubseq(s[1..], p);
      if !p(s[0]) {
        assert Filter(s, p) == Filter(s[1..], p);
        SubseqDropHead(Filter(s, p), s);
      }
    }
  }

  lemma {:induction false} SubseqDropHead<T>(a: seq<T>, b: seq<T>)
    requires b != [] && IsSubseq(a, b[1..])
    ensures IsSubseq(a, b)
    decreases |b|, 0
  {
    if a != [] && a[0] == b[0] {
      SubseqTail(a, b[1..]);
    }
  }

  lemma {:induction false} SubseqTail<T>(a: seq<T>, b: seq<T>)
    requires a != [] && IsSubseq(a, b)
    ensures IsSubseq(a[1..], b)
    decreases |b|, 1
  {
    if a[0] != b[0] {
      SubseqTail(a, b[1..]);
      SubseqDropHead(a[1..], b);
    } else if a[1..] != [] {
      SubseqDropHead(a[1..], b);
    }
  }

  /** A filter that keeps every element returns its input unchanged. */
  lemma {:induction false} FilterKeepsAll<T(!new)>(s: seq<T>, p: T -> bool)
    requires forall x :: x in s ==> p(x)
    ensures Filter(s, p) == s
  {
    if s != [] {
      FilterKeepsAll(s[1..], p);
    }
  }

  /** Filtering distributes over concatenation, so the order of `s` is kept. */
  lemma {:induction false} FilterAppend<T(!new)>(a: seq<T>, b: seq<T>, p: T -> bool)
    ensures Filter(a + b, p) == Filter(a, p) + Filter(b, p)
  {
    if a == [] {
      assert a + b == b;
    } else {
      assert (a + b)[1..] == a[1..] + b;
      FilterAppend(a[1..], b, p);
    }
  }

  /** Two lists without repeats and without common elements concatenate to a
      list without repeats. */
  lemma NoDupAppend<T>(a: seq<T>, b: seq<T>)
    requires NoDup(a) && NoDup(b) && forall x :: x in b ==> x !in a
    ensures NoDup(a + b)
  {
    var r := a + b;
    forall i, j | 0 <= i < j < |r| ensures r[i] != r[j] {
      if j >= |a| {
        assert r[j] == b[j - |a|];
        if i >= |a| {
          assert r[i] == b[i - |a|];
        } else {
          assert r[i] == a[i] && r[i] in a;
          assert r[j] in b;
        }
      }
    }
  }

  /** Filtering a single element keeps it exactly when it passes. */
  lemma FilterSingleton<T(!new)>(x: T, p: T -> bool)
    ensures Filter([x], p) == if p(x) then [x] else []
  {
    assert [x][1..] == [];
  }

  /** In a list without repeats every element occurs at most once. */
  lemma {:induction false} NoDupCounts<T>(s: seq<T>)
    requires NoDup(s)
    ensures forall x :: multiset(s)[x] <= 1
  {
    if s != [] {
      var init := s[..|s| - 1];
      NoDupInit(s);
      NoDupCounts(init);
      assert s == init + [s[|s| - 1]];
    }
  }

  /** A subset is no larger than its superset. */
  lemma SubsetSize<T>(a: set<T>, b: set<T>)
    requires a <= b
    ensures |a| <= |b|
  {
    assert b == a + (b - a);
    assert a * (b - a) == {};
  }

  /** A filter that keeps some element is non-empty, and its head passes. */
  lemma FilterFirst<T(!new)>(s: seq<T>, p: T -> bool, x: T)
    requires x in s && p(x)
    ensures |Filter(s, p)| > 0 && Filter(s, p)[0] in s && p(Filter(s, p)[0])
  {
    assert x in Filter(s, p);
  }

  /** No element occurs twice. */
  predicate NoDup<T(==)>(s: seq<T>)
  {
    forall i, j :: 0 <= i < j < |s| ==> s[i] != s[j]
  }

  /** `new Set(s)`. */
  function ToSet<T(==,!new)>(s: seq<T>): (r: set<T>)
    ensures forall x :: x in r <==> x in s
  {
    set x | x in s
  }

  /** `hay.includes(needle)` on strings. */
  predicate IsInfix(needle: string, hay: string)
    decreases |hay|
  {
    if |needle| <= |hay| && hay[..|needle|] == needle then true
    else if hay == [] then false
    else IsInfix(needle, hay[1..])
  }

  /** `needle` occurs in `hay` starting at index `i`. */
  predicate MatchAt(needle: string, hay: string, i: int)
  {
    0 <= i && i + |needle| <= |hay| && hay[i..i + |needle|] == needle
  }

  /** `includes` agrees with "some window of `hay` equals `needle`". */
  lemma IsInfixAt(needle: string, hay: string)
    ensures IsInfix(needle, hay) <==> exists i :: MatchAt(needle, hay, i)
  {
    if IsInfix(needle, hay) {
      var i := InfixMatch(needle, hay);
    }
    if exists i :: MatchAt(needle, hay, i) {
      var i :| MatchAt(needle, hay, i);
      MatchInfix(needle, hay, i);
    }
  }

  /** A string that `includes` the needle has a window equal to it. */
  lemma {:induction false} InfixMatch(needle: string, hay: string) returns (i: int)
    requires IsInfix(needle, hay)
    ensures MatchAt(needle, hay, i)
    decreases |hay|
  {
    if |needle| <= |hay| && hay[..|needle|] == needle {
      i := 0;
    } else {
      var j := InfixMatch(needle, hay[1..]);
      i := j + 1;
      assert hay[1..][j..j + |needle|] == hay[i..i + |needle|];
    }
  }

  /** A window equal to the needle makes `includes` hold. */
  lemma {:induction false} MatchInfix(needle: string, hay: string, i: int)
    requires MatchAt(needle, hay, i)
    ensures IsInfix(needle, hay)
    decreases |hay|
  {
    if !(|needle| <= |hay| && hay[..|needle|] == needle) {
      assert i != 0;
      assert hay[1..][i - 1..i - 1 + |needle|] == hay[i..i + |needle|];
      MatchInfix(needle, hay[1..], i - 1);
    }
  }

  /** Every string contains the empty string. */
  lemma EmptyIsInfix(hay: string)
    ensures IsInfix("", hay)
  {
  }

  predicate IsDigit(c: char)
  {
    '0' <= c <= '9'
  }

  function Digit(d: nat): (c: char)
    requires d < 10
    ensures IsDigit(c)
  {
    "0123456789"[d]
  }

  /** Decimal text of a natural number, most significant digit first. */
  function DecimalString(n: nat): (s: string)
    ensures |s| >= 1
    ensures forall i :: 0 <= i < |s| ==> IsDigit(s[i])
    ensures n >= 10 ==> s[0] != '0'
  {
    if n < 10 then [Digit(n)] else DecimalString(n / 10) + [Digit(n % 10)]
  }

  /** `n.toString()` for an integer. */
  function IntToString(n: int): (s: string)
    ensures |s| >= 1
    ensures n >= 0 ==> forall i :: 0 <= i < |s| ==> IsDigit(s[i])
    ensures n < 0 ==> s[0] == '-'
  {
    if n < 0 then "-" + DecimalString(-n) else DecimalString(n)
  }

  /** A filter of a list without repeats has no repeats. */
  lemma {:induction false} FilterNoDup<T(!new)>(s: seq<T>, p: T -> bool)
    requires NoDup(s)
    ensures NoDup(Filter(s, p))
  {
    if s != [] {
      NoDupTail(s);
      FilterNoDup(s[1..], p);
      if p(s[0]) {
        assert s[0] !in s[1..] by { NoDupHead(s); }
        NoDupCons(s[0], Filter(s[1..], p));
      }
    }
  }

  lemma NoDupTail<T>(s: seq<T>)
    requires s != [] && NoDup(s)
    ensures NoDup(s[1..])
  {
    forall i, j | 0 <= i < j < |s[1..]| ensures s[1..][i] != s[1..][j] {
      assert s[1..][i] == s[i + 1] && s[1..][j] == s[j + 1];
    }
  }

  lemma NoDupHead<T>(s: seq<T>)
    requires s != [] && NoDup(s)
    ensures s[0] !in s[1..]
  {
  }

  lemma NoDupCons<T>(a: T, s: seq<T>)
    requires a !in s && NoDup(s)
    ensures NoDup([a] + s)
  {
    var r := [a] + s;
    forall i, j | 0 <= i < j < |r| ensures r[i] != r[j] {
      assert r[j] == s[j - 1];
      if i > 0 {
        assert r[i] == s[i - 1];
      }
    }
  }

  /** Appending an element that is absent keeps a list free of repeats. */
  lemma NoDupSnoc<T>(s: seq<T>, a: T)
    requires a !in s && NoDup(s)
    ensures NoDup(s + [a])
  {
    var r := s + [a];
    forall i, j | 0 <= i < j < |r| ensures r[i] != r[j] {
      assert r[i] == s[i];
      if j < |s| {
        assert r[j] == s[j];
      }
    }
  }

  /** Dropping the last element of a list without repeats leaves one without
      repeats that does not hold that element. */
  lemma NoDupInit<T>(s: seq<T>)
    requires s != [] && NoDup(s)
    ensures NoDup(s[..|s| - 1]) && s[|s| - 1] !in s[..|s| - 1]
  {
  }

  /** A list without repeats has as many distinct elements as entries. */
  lemma {:induction false} NoDupSetSize<T(!new)>(s: seq<T>)
    requires NoDup(s)
    ensures |ToSet(s)| == |s|
  {
    if s != [] {
      var init := s[..|s| - 1];
      NoDupInit(s);
      NoDupSetSize(init);
      assert ToSet(s) == ToSet(init) + {s[|s| - 1]};
    }
  }

  /** A list has at most as many distinct elements as entries. */
  lemma {:induction false} SetSizeAtMost<T(!new)>(s: seq<T>)
    ensures |ToSet(s)| <= |s|
  {
    if s != [] {
      var init := s[..|s| - 1];
      SetSizeAtMost(init);
      assert ToSet(s) == ToSet(init) + {s[|s| - 1]};
    }
  }

  /** `Math.round(100 * part / whole)` for a positive `whole`, computed exactly:
      the percentage rounded half up. */
  function RoundPercent(part: int, whole: int): (r: int)
    requires whole > 0
    ensures 2 * whole * r <= 200 * part + whole < 2 * whole * r + 2 * whole
    ensures 0 <= part <= whole ==> 0 <= r <= 100
  {
    var r := (200 * part + whole) / (2 * whole);
    assert 0 <= part <= whole ==> 0 <= r <= 100 by {
      if 0 <= part <= whole {
        assert 200 * part + whole <= 201 * whole;
        DivBounds(200 * part + whole, 2 * whole, 0, 101);
      }
    }
    r
  }

  /** The whole of a positive amount is 100 percent. */
  lemma RoundPercentWhole(n: int)
    requires n > 0
    ensures RoundPercent(n, n) == 100
  {
    DivBounds(200 * n + n, 2 * n, 100, 101);
  }

  /** A number below the modulus is its own remainder. */
  lemma ModSmall(n: int, d: int)
    requires 0 <= n < d
    ensures n % d == n
  {
    DivBounds(n, d, 0, 1);
  }

  /** A quotient of a numerator in [lo * d, hi * d) lies in [lo, hi). */
  lemma DivBounds(n: int, d: int, lo: int, hi: int)
    requires d > 0 && lo * d <= n < hi * d
    ensures lo <= n / d < hi
  {
    var q := n / d;
    assert d * q <= n < d * q + d;
    if q < lo {
      MulMono(d, q + 1, lo);
    }
    if q >= hi {
      MulMono(d, hi, q);
    }
  }

  /** Adding the divisor adds one to the quotient. */
  lemma DivStep(n: int, d: int)
    requires d > 0
    ensures (n + d) / d == n / d + 1
  {
    var q := n / d;
    assert d * q <= n < d * q + d;
    assert (q + 1) * d <= n + d < (q + 2) * d;
    DivBounds(n + d, d, q + 1, q + 2);
  }

  lemma MulMono(d: int, a: int, b: int)
    requires d >= 0 && a <= b
    ensures d * a <= d * b
  {
    assert d * b - d * a == d * (b - a);
  }
}
