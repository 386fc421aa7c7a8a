// `Array.prototype.sort` with a comparator: a stable sort, whatever algorithm runs it.
// `Sort` is one such sort; the lemmas say that nothing else is sorted and stable.
module Sorting {
  import opened Prelude

  ghost predicate TotalPreorder<T(!new)>(leq: (T, T) -> bool) {
    && (forall x, y :: leq(x, y) || leq(y, x))
    && (forall x, y, z :: leq(x, y) && leq(y, z) ==> leq(x, z))
  }

  ghost predicate Sorted<T>(leq: (T, T) -> bool, s: seq<T>) {
    forall i, j :: 0 <= i < j < |s| ==> leq(s[i], s[j])
  }

  /** Elements the comparator cannot tell from `x`, in the order `s` holds them. */
  function Ties<T>(leq: (T, T) -> bool, x: T, s: seq<T>): seq<T> {
    if s == [] then []
    else if leq(s[0], x) && leq(x, s[0]) then [s[0]] + Ties(leq, x, s[1..])
    else Ties(leq, x, s[1..])
  }

  function Insert<T>(leq: (T, T) -> bool, x: T, s: seq<T>): (r: seq<T>)
    ensures multiset(r) == multiset([x]) + multiset(s)
  {
    if s == [] || leq(x, s[0]) then [x] + s
    else
      assert s == [s[0]] + s[1..];
      [s[0]] + Insert(leq, x, s[1..])
  }

  function Sort<T>(leq: (T, T) -> bool, s: seq<T>): (r: seq<T>)
    ensures multiset(r) == multiset(s)
  {
    if s == [] then []
    else
      assert s == [s[0]] + s[1..];
      Insert(leq, s[0], Sort(leq, s[1..]))
  }

  lemma {:induction false} InsertSorted<T(!new)>(leq: (T, T) -> bool, x: T, s: seq<T>)
    requires TotalPreorder(leq) && Sorted(leq, s)
    ensures Sorted(leq, Insert(leq, x, s))
  {
    if s == [] {
    } else if leq(x, s[0]) {
      assert forall j :: 0 <= j < |s| ==> leq(x, s[j]);
    } else {
      InsertSorted(leq, x, s[1..]);
      var t := Insert(leq, x, s[1..]);
      forall j | 0 <= j < |t| ensures leq(s[0], t[j]) {
        assert t[j] in multiset(t);
        assert t[j] == x || t[j] in s[1..];
      }
    }
  }

  lemma {:induction false} SortSorts<T(!new)>(leq: (T, T) -> bool, s: seq<T>)
    requires TotalPreorder(leq)
    ensures Sorted(leq, Sort(leq, s))
  {
    if s != [] {
      SortSorts(leq, s[1..]);
      InsertSorted(leq, s[0], Sort(leq, s[1..]));
    }
  }

  lemma {:induction false} InsertTies<T(!new)>(leq: (T, T) -> bool, x: T, s: seq<T>, k: T)
    requires TotalPreorder(leq)
    ensures Ties(leq, k, Insert(leq, x, s)) == Ties(leq, k, [x] + s)
  {
    if s == [] || leq(x, s[0]) {
    } else {
      InsertTies(leq, x, s[1..], k);
      assert ([x] + s)[1..] == s;
      assert ([x] + s[1..])[1..] == s[1..];
      var r := Insert(leq, x, s);
      assert r[1..] == Insert(leq, x, s[1..]);
      assert !(leq(x, k) && leq(k, s[0]));
    }
  }

  /** Equal keys keep their input order. */
  lemma {:induction false} SortStable<T(!new)>(leq: (T, T) -> bool, s: seq<T>, k: T)
    requires TotalPreorder(leq)
    ensures Ties(leq, k, Sort(leq, s)) == Ties(leq, k, s)
  {
    if s != [] {
      SortStable(leq, s[1..], k);
      InsertTies(leq, s[0], Sort(leq, s[1..]), k);
      assert ([s[0]] + Sort(leq, s[1..]))[1..] == Sort(leq, s[1..]);
    }
  }

  lemma {:induction false} SortOfSorted<T(!new)>(leq: (T, T) -> bool, s: seq<T>)
    requires Sorted(leq, s)
    ensures Sort(leq, s) == s
  {
    if s != [] {
      SortOfSorted(leq, s[1..]);
      assert |s| > 1 ==> leq(s[0], s[1..][0]);
    }
  }

  lemma TiesOfSelf<T(!new)>(leq: (T, T) -> bool, s: seq<T>)
    requires TotalPreorder(leq) && s != []
    ensures Ties(leq, s[0], s) != [] && Ties(leq, s[0], s)[0] == s[0]
  {
    assert leq(s[0], s[0]);
  }

  lemma {:induction false} TiesMembers<T>(leq: (T, T) -> bool, k: T, s: seq<T>)
    ensures forall y | y in Ties(leq, k, s) :: y in s && leq(y, k) && leq(k, y)
  {
    if s != [] {
      TiesMembers(leq, k, s[1..]);
    }
  }

  /** A sorted sequence is determined by its tie classes: the stable sort is unique. */
  lemma {:induction false} SortUnique<T(!new)>(leq: (T, T) -> bool, a: seq<T>, b: seq<T>)
    requires TotalPreorder(leq) && Sorted(leq, a) && Sorted(leq, b)
    requires forall k :: Ties(leq, k, a) == Ties(leq, k, b)
    ensures a == b
  {
    if a != [] { TiesOfSelf(leq, a); assert Ties(leq, a[0], b) != []; }
    if b != [] { TiesOfSelf(leq, b); assert Ties(leq, b[0], a) != []; }
    if a != [] && b != [] {
      TiesMembers(leq, a[0], b);
      TiesMembers(leq, b[0], a);
      assert Ties(leq, a[0], b)[0] in b;
      assert leq(b[0], Ties(leq, a[0], b)[0]) by { assert leq(b[0], b[0]); }
      assert Ties(leq, b[0], a)[0] in a;
      assert leq(a[0], Ties(leq, b[0], a)[0]) by { assert leq(a[0], a[0]); }
      assert leq(b[0], a[0]) && leq(a[0], b[0]);
      assert Ties(leq, a[0], b)[0] == b[0];
      forall k ensures Ties(leq, k, a[1..]) == Ties(leq, k, b[1..]) {
        assert Ties(leq, k, a) == Ties(leq, k, b);
        assert (leq(a[0], k) && leq(k, a[0])) ==> Ties(leq, k, a)[1..] == Ties(leq, k, a[1..]);
        assert (leq(b[0], k) && leq(k, b[0])) ==> Ties(leq, k, b)[1..] == Ties(leq, k, b[1..]);
      }
      SortUnique(leq, a[1..], b[1..]);
      assert a == [a[0]] + a[1..] && b == [b[0]] + b[1..];
    }
  }

  /** When the comparator leaves no ties between different elements, the input order does not matter. */
  lemma {:induction false} SortIgnoresOrder<T(!new)>(leq: (T, T) -> bool, a: seq<T>, b: seq<T>)
    requires TotalPreorder(leq)
    requires multiset(a) == multiset(b)
    requires forall x, y :: x in a && y in a && leq(x, y) && leq(y, x) ==> x == y
    ensures Sort(leq, a) == Sort(leq, b)
  {
    var sa, sb := Sort(leq, a), Sort(leq, b);
    SortSorts(leq, a);
    SortSorts(leq, b);
    assert forall x :: x in sa <==> x in multiset(sa);
    assert forall x :: x in a <==> x in multiset(a);
    SortedSameElements(leq, sa, sb);
  }

  lemma {:induction false} SortedSameElements<T(!new)>(leq: (T, T) -> bool, a: seq<T>, b: seq<T>)
    requires TotalPreorder(leq) && Sorted(leq, a) && Sorted(leq, b)
    requires multiset(a) == multiset(b)
    requires forall x, y :: x in a && y in a && leq(x, y) && leq(y, x) ==> x == y
    ensures a == b
  {
    assert |a| == |multiset(a)| == |b|;
    if a != [] {
      SmallestFirst(leq, a, b);
      SmallestFirst(leq, b, a);
      assert a == [a[0]] + a[1..] && b == [b[0]] + b[1..];
      assert multiset(a[1..]) == multiset(a) - multiset{a[0]};
      assert multiset(b[1..]) == multiset(b) - multiset{b[0]};
      SortedSameElements(leq, a[1..], b[1..]);
    }
  }

  lemma SmallestFirst<T(!new)>(leq: (T, T) -> bool, a: seq<T>, b: seq<T>)
    requires TotalPreorder(leq) && Sorted(leq, a)
    requires multiset(a) == multiset(b) && a != [] && b != []
    ensures b[0] in a && leq(a[0], b[0])
  {
    assert b[0] in multiset(a);
    assert leq(a[0], a[0]);
  }
}
