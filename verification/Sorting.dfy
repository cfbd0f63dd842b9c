/** Stand-in for Go's `sort` package: some permutation in order. Results about
    the callers quantify over any such permutation, so ties stay unspecified. */
module Sorting {
  import opened Base

  ghost predicate TotalPreorder<T(!new)>(leq: (T, T) -> bool) {
    && (forall x, y :: leq(x, y) || leq(y, x))
    && (forall x, y, z :: leq(x, y) && leq(y, z) ==> leq(x, z))
  }

  ghost predicate SortedBy<T>(xs: seq<T>, leq: (T, T) -> bool) {
    forall i, j :: 0 <= i < j < |xs| ==> leq(xs[i], xs[j])
  }

  function Insert<T(!new)>(x: T, xs: seq<T>, leq: (T, T) -> bool): (ys: seq<T>)
    requires TotalPreorder(leq) && SortedBy(xs, leq)
    ensures SortedBy(ys, leq) && multiset(ys) == multiset(xs) + multiset{x}
  {
    if xs == [] then [x]
    else if leq(x, xs[0]) then
      assert [x] + xs == [x, xs[0]] + xs[1..];
      [x] + xs
    else
      var rest := Insert(x, xs[1..], leq);
      assert xs == [xs[0]] + xs[1..];
      HeadStaysFirst(x, xs, rest, leq);
      [xs[0]] + rest
  }

  lemma HeadStaysFirst<T(!new)>(x: T, xs: seq<T>, rest: seq<T>, leq: (T, T) -> bool)
    requires TotalPreorder(leq) && SortedBy(xs, leq) && xs != [] && leq(xs[0], x)
    requires SortedBy(rest, leq) && multiset(rest) == multiset(xs[1..]) + multiset{x}
    ensures SortedBy([xs[0]] + rest, leq)
  {
    forall y | y in rest ensures leq(xs[0], y) {
      assert y in multiset(rest);
      if y != x {
        assert y in xs[1..];
        var i :| 0 <= i < |xs[1..]| && xs[1..][i] == y;
        assert xs[i + 1] == y;
      }
    }
  }

  function Sort<T(!new)>(xs: seq<T>, leq: (T, T) -> bool): (ys: seq<T>)
    requires TotalPreorder(leq)
    ensures SortedBy(ys, leq) && multiset(ys) == multiset(xs)
  {
    if xs == [] then []
    else
      assert xs == [xs[0]] + xs[1..];
      Insert(xs[0], Sort(xs[1..], leq), leq)
  }

  lemma GreatestIsLast<T(!new)>(xs: seq<T>, x: T, leq: (T, T) -> bool)
    requires TotalPreorder(leq) && SortedBy(xs, leq) && x in xs
    ensures leq(x, Last(xs))
  {
    var i :| 0 <= i < |xs| && xs[i] == x;
    assert leq(x, x);
  }

  ghost predicate TiesAreEqual<T(!new)>(xs: seq<T>, leq: (T, T) -> bool) {
    forall x, y :: x in xs && y in xs && leq(x, y) && leq(y, x) ==> x == y
  }

  lemma SameGreatest<T(!new)>(xs: seq<T>, ys: seq<T>, leq: (T, T) -> bool)
    requires TotalPreorder(leq) && SortedBy(xs, leq) && SortedBy(ys, leq) && multiset(xs) == multiset(ys)
    requires TiesAreEqual(xs, leq) && xs != []
    ensures ys != [] && Last(xs) == Last(ys)
  {
    assert |xs| == |multiset(xs)| == |multiset(ys)| == |ys|;
    assert Last(xs) in multiset(xs) && Last(ys) in multiset(ys);
    assert Last(xs) in ys && Last(ys) in xs;
    GreatestIsLast(ys, Last(xs), leq);
    GreatestIsLast(xs, Last(ys), leq);
  }

  lemma WithoutGreatest<T(!new)>(xs: seq<T>, leq: (T, T) -> bool)
    requires SortedBy(xs, leq) && TiesAreEqual(xs, leq) && xs != []
    ensures SortedBy(Init(xs), leq) && TiesAreEqual(Init(xs), leq)
    ensures multiset(Init(xs)) == multiset(xs) - multiset{Last(xs)}
    ensures xs == Init(xs) + [Last(xs)]
  {
    assert xs == Init(xs) + [Last(xs)];
    assert forall x :: x in Init(xs) ==> x in xs;
  }

  lemma SameTies<T(!new)>(xs: seq<T>, ys: seq<T>, leq: (T, T) -> bool)
    requires TiesAreEqual(xs, leq) && multiset(xs) == multiset(ys)
    ensures TiesAreEqual(ys, leq)
  {
    forall y | y in ys ensures y in xs { assert y in multiset(ys); }
  }

  /** Elements that are equal whenever the order ties them sort in one way only. */
  lemma {:induction false} SortIsUnique<T(!new)>(xs: seq<T>, ys: seq<T>, leq: (T, T) -> bool)
    requires TotalPreorder(leq) && SortedBy(xs, leq) && SortedBy(ys, leq) && multiset(xs) == multiset(ys)
    requires TiesAreEqual(xs, leq)
    ensures xs == ys
    decreases |xs|
  {
    if xs == [] {
      assert |multiset(ys)| == 0;
    } else {
      SameGreatest(xs, ys, leq);
      SameTies(xs, ys, leq);
      WithoutGreatest(xs, leq);
      WithoutGreatest(ys, leq);
      SortIsUnique(Init(xs), Init(ys), leq);
    }
  }

  ghost predicate Distinct<T>(xs: seq<T>) {
    forall i, j :: 0 <= i < j < |xs| ==> xs[i] != xs[j]
  }

  lemma {:induction false} DistinctCounts<T>(xs: seq<T>, x: T)
    requires Distinct(xs)
    ensures multiset(xs)[x] == if x in xs then 1 else 0
  {
    if xs != [] {
      assert xs == Init(xs) + [Last(xs)];
      DistinctCounts(Init(xs), x);
    }
  }

  lemma DistinctSameElements<T>(xs: seq<T>, ys: seq<T>)
    requires Distinct(xs) && Distinct(ys) && forall x :: x in xs <==> x in ys
    ensures multiset(xs) == multiset(ys)
  {
    forall x ensures multiset(xs)[x] == multiset(ys)[x] {
      DistinctCounts(xs, x);
      DistinctCounts(ys, x);
    }
  }

  // --- Go's string order --------------------------------------------------

  /** Lexicographic order on strings, which is Go's `<=` on UTF-8 text. */
  predicate StringLeq(a: string, b: string) {
    a == [] || (b != [] && (a[0] < b[0] || (a[0] == b[0] && StringLeq(a[1..], b[1..]))))
  }

  lemma {:induction false} StringLeqTotal(a: string, b: string)
    ensures StringLeq(a, b) || StringLeq(b, a)
    ensures StringLeq(a, b) && StringLeq(b, a) ==> a == b
  {
    if a != [] && b != [] {
      StringLeqTotal(a[1..], b[1..]);
      assert a == [a[0]] + a[1..] && b == [b[0]] + b[1..];
    }
  }

  lemma {:induction false} StringLeqTransitive(a: string, b: string, c: string)
    requires StringLeq(a, b) && StringLeq(b, c)
    ensures StringLeq(a, c)
  {
    if a != [] && a[0] == b[0] == c[0] {
      StringLeqTransitive(a[1..], b[1..], c[1..]);
    }
  }

  lemma StringLeqIsOrder()
    ensures TotalPreorder(StringLeq)
    ensures forall a, b :: StringLeq(a, b) && StringLeq(b, a) ==> a == b
  {
    forall a, b ensures StringLeq(a, b) || StringLeq(b, a) { StringLeqTotal(a, b); }
    forall a, b | StringLeq(a, b) && StringLeq(b, a) ensures a == b { StringLeqTotal(a, b); }
    forall a, b, c | StringLeq(a, b) && StringLeq(b, c) ensures StringLeq(a, c) { StringLeqTransitive(a, b, c); }
  }

  /** a is a proper prefix of b, or has the smaller character where they first differ. */
  ghost predicate LexBefore(a: string, b: string) {
    exists n: nat :: LexDiffer(a, b, n)
  }

  predicate LexDiffer(a: string, b: string, n: nat) {
    n <= |a| && n < |b| && a[..n] == b[..n] && (n < |a| ==> a[n] < b[n])
  }

  lemma {:induction false} StringLeqIsLex(a: string, b: string)
    ensures StringLeq(a, b) <==> a == b || LexBefore(a, b)
  {
    if a == [] || b == [] {
      if b != [] { assert LexDiffer(a, b, 0); }
    } else if a[0] != b[0] {
      if a[0] < b[0] { assert LexDiffer(a, b, 0); }
      forall n: nat | LexDiffer(a, b, n) ensures n == 0 {
      }
    } else {
      var s, t := a[1..], b[1..];
      assert a == [a[0]] + s && b == [b[0]] + t;
      StringLeqIsLex(s, t);
      LexTail(a, b);
    }
  }

  lemma LexTail(a: string, b: string)
    requires a != [] && b != [] && a[0] == b[0]
    ensures LexBefore(a, b) <==> LexBefore(a[1..], b[1..])
  {
    var s, t := a[1..], b[1..];
    forall n: nat | LexDiffer(a, b, n) ensures LexBefore(s, t) {
      assert n > 0;
      assert a[..n][1..] == s[..n - 1] && b[..n][1..] == t[..n - 1];
      assert LexDiffer(s, t, n - 1);
    }
    forall n: nat | LexDiffer(s, t, n) ensures LexBefore(a, b) {
      assert a[..n + 1] == [a[0]] + s[..n] && b[..n + 1] == [b[0]] + t[..n];
      assert LexDiffer(a, b, n + 1);
    }
  }
}
