// Sums, filters and maps over rows whose order does not matter.
module Permutations {
  import opened Prelude

  lemma {:induction false} FilterCount<T>(p: T -> bool, s: seq<T>, x: T)
    ensures multiset(Filter(p, s))[x] == if p(x) then multiset(s)[x] else 0
  {
    if s != [] {
      FilterCount(p, s[1..], x);
      assert s == [s[0]] + s[1..];
    }
  }

  lemma FilterPermuted<T(!new)>(p: T -> bool, a: seq<T>, b: seq<T>)
    requires multiset(a) == multiset(b)
    ensures multiset(Filter(p, a)) == multiset(Filter(p, b))
    ensures |Filter(p, a)| == |Filter(p, b)|
  {
    hide Filter;
    forall x ensures multiset(Filter(p, a))[x] == multiset(Filter(p, b))[x] {
      FilterCount(p, a, x);
      FilterCount(p, b, x);
    }
    SameLength(Filter(p, a), Filter(p, b));
  }

  lemma SameLength<T>(a: seq<T>, b: seq<T>)
    requires multiset(a) == multiset(b)
    ensures |a| == |b|
  {
    assert |multiset(a)| == |multiset(b)|;
  }

  function ConcatMap<A, B>(f: A -> seq<B>, s: seq<A>): seq<B> {
    Concat(Map(f, s))
  }

  lemma ConcatMapJoins<A, B>(f: A -> seq<B>, a: seq<A>, b: seq<A>)
    ensures ConcatMap(f, a + b) == ConcatMap(f, a) + ConcatMap(f, b)
  {
    ConcatAppend(Map(f, a), Map(f, b));
    assert Map(f, a + b) == Map(f, a) + Map(f, b);
  }

  lemma ConcatMapOne<A, B>(f: A -> seq<B>, x: A)
    ensures ConcatMap(f, [x]) == f(x)
  {
    assert Map(f, [x]) == [f(x)];
    assert Concat([f(x)]) == f(x) + Concat([f(x)][1..]);
  }

  /** Splitting one occurrence of `x` out of `s`. */
  lemma SplitAt<T>(s: seq<T>, x: T) returns (i: nat)
    requires x in multiset(s)
    ensures i < |s| && s == s[..i] + [x] + s[i + 1..]
    ensures multiset(s[..i] + s[i + 1..]) == multiset(s) - multiset{x}
  {
    i :| 0 <= i < |s| && s[i] == x;
    assert s == s[..i] + [x] + s[i + 1..];
  }

  lemma {:induction false} ConcatMapPermuted<A, B>(f: A -> seq<B>, a: seq<A>, b: seq<A>)
    requires multiset(a) == multiset(b)
    ensures multiset(ConcatMap(f, a)) == multiset(ConcatMap(f, b))
  {
    hide ConcatMap;
    if a == [] {
      SameLength(a, b);
    } else {
      var x, rest := a[0], a[1..];
      assert a == [x] + rest;
      assert x in multiset(a);
      var i := SplitAt(b, x);
      ConcatMapPermuted(f, rest, b[..i] + b[i + 1..]);
      ConcatMapJoins(f, [x], rest);
      ConcatMapJoins(f, b[..i], b[i + 1..]);
      ConcatMapJoins(f, b[..i] + [x], b[i + 1..]);
      ConcatMapJoins(f, b[..i], [x]);
    }
  }

  function One<A, B>(f: A -> B): A -> seq<B> {
    (x: A) => [f(x)]
  }

  lemma {:induction false} MapIsConcatMap<A, B>(f: A -> B, s: seq<A>)
    ensures Map(f, s) == ConcatMap(One(f), s)
  {
    if s != [] {
      MapIsConcatMap(f, s[1..]);
      assert s == [s[0]] + s[1..];
      ConcatMapJoins(One(f), [s[0]], s[1..]);
      ConcatMapOne(One(f), s[0]);
    }
  }

  lemma MapPermuted<A, B>(f: A -> B, a: seq<A>, b: seq<A>)
    requires multiset(a) == multiset(b)
    ensures multiset(Map(f, a)) == multiset(Map(f, b))
  {
    hide ConcatMap;
    MapIsConcatMap(f, a);
    MapIsConcatMap(f, b);
    ConcatMapPermuted(One(f), a, b);
  }

  lemma {:induction false} SumPermuted(a: seq<int>, b: seq<int>)
    requires multiset(a) == multiset(b)
    ensures Sum(a) == Sum(b)
  {
    if a == [] {
      SameLength(a, b);
    } else {
      var x, rest := a[0], a[1..];
      assert a == [x] + rest;
      assert x in multiset(a);
      var i := SplitAt(b, x);
      SumPermuted(rest, b[..i] + b[i + 1..]);
      SumConcat(b[..i], b[i + 1..]);
      SumConcat(b[..i] + [x], b[i + 1..]);
      SumConcat(b[..i], [x]);
      assert Sum([x]) == x;
    }
  }

  function SumOf<T>(pick: T -> int, s: seq<T>): int {
    Sum(Map(pick, s))
  }

  lemma SumOfPermuted<T>(pick: T -> int, a: seq<T>, b: seq<T>)
    requires multiset(a) == multiset(b)
    ensures SumOf(pick, a) == SumOf(pick, b)
  {
    MapPermuted(pick, a, b);
    SumPermuted(Map(pick, a), Map(pick, b));
  }

  lemma SumOfJoins<T>(pick: T -> int, a: seq<T>, b: seq<T>)
    ensures SumOf(pick, a + b) == SumOf(pick, a) + SumOf(pick, b)
  {
    SumConcat(Map(pick, a), Map(pick, b));
    assert Map(pick, a + b) == Map(pick, a) + Map(pick, b);
  }

  lemma SumOfOne<T>(pick: T -> int, x: T)
    ensures SumOf(pick, [x]) == pick(x)
  {
    var one := Map(pick, [x]);
    assert one[1..] == [] && one[0] == pick(x);
    assert Sum(one) == one[0] + Sum(one[1..]);
  }
}
