// Keyed merges of the archive: rows go into a `Map` in turn and come out sorted.
// A `Map` is its entries in insertion order; setting a present key replaces the entry in place.
module Merge {
  import opened Prelude
  import opened Sorting

  datatype Mode = Overwrite | IfAbsent

  function Find<T>(entries: seq<T>, key: T -> string, k: string): Option<T> {
    if entries == [] then None
    else if key(entries[0]) == k then Some(entries[0])
    else Find(entries[1..], key, k)
  }

  function FindLast<T>(rows: seq<T>, key: T -> string, k: string): Option<T> {
    if rows == [] then None
    else if key(rows[|rows| - 1]) == k then Some(rows[|rows| - 1])
    else FindLast(rows[..|rows| - 1], key, k)
  }

  function Put<T>(entries: seq<T>, key: T -> string, row: T): seq<T> {
    if entries == [] then [row]
    else if key(entries[0]) == key(row) then [row] + entries[1..]
    else [entries[0]] + Put(entries[1..], key, row)
  }

  function PutMode<T>(entries: seq<T>, key: T -> string, row: T, mode: Mode): seq<T> {
    if mode.IfAbsent? && Find(entries, key, key(row)).Some? then entries else Put(entries, key, row)
  }

  /** The entries after `rows` went in one by one. */
  function PutAll<T>(entries: seq<T>, key: T -> string, rows: seq<T>, mode: Mode): seq<T>
    decreases |rows|
  {
    if rows == [] then entries else PutAll(PutMode(entries, key, rows[0], mode), key, rows[1..], mode)
  }

  function Upsert<T>(existing: seq<T>, incoming: seq<T>, key: T -> string, mode: Mode, leq: (T, T) -> bool): seq<T> {
    Sort(leq, PutAll(PutAll([], key, existing, Overwrite), key, incoming, mode))
  }

  /** `upsertByKey`; `upsertByDate` is the same loop keyed and sorted on `date`. */
  method UpsertByKey<T>(existing: seq<T>, incoming: seq<T>, key: T -> string, mode: Mode, leq: (T, T) -> bool)
    returns (merged: seq<T>)
    ensures merged == Upsert(existing, incoming, key, mode, leq)
  {
    var byKey: seq<T> := [];
    for i := 0 to |existing|
      invariant PutAll(byKey, key, existing[i..], Overwrite) == PutAll([], key, existing, Overwrite)
    {
      assert existing[i..][1..] == existing[i + 1..];
      byKey := Put(byKey, key, existing[i]);
    }
    ghost var loaded := byKey;
    for i := 0 to |incoming|
      invariant PutAll(byKey, key, incoming[i..], mode) == PutAll(loaded, key, incoming, mode)
    {
      assert incoming[i..][1..] == incoming[i + 1..];
      if mode.IfAbsent? && Find(byKey, key, key(incoming[i])).Some? {
        continue;
      }
      byKey := Put(byKey, key, incoming[i]);
    }
    merged := Sort(leq, byKey);
  }

  // ---- What a merge holds ----

  ghost predicate DistinctKeys<T>(rows: seq<T>, key: T -> string) {
    forall i, j :: 0 <= i < j < |rows| ==> key(rows[i]) != key(rows[j])
  }

  lemma {:induction false} FindSound<T>(rows: seq<T>, key: T -> string, k: string)
    ensures Find(rows, key, k).Some? ==> Find(rows, key, k).value in rows && key(Find(rows, key, k).value) == k
    ensures Find(rows, key, k).None? ==> forall r | r in rows :: key(r) != k
  {
    if rows != [] && key(rows[0]) != k {
      FindSound(rows[1..], key, k);
    }
  }

  lemma FindDistinct<T>(rows: seq<T>, key: T -> string, r: T)
    requires DistinctKeys(rows, key) && r in rows
    ensures Find(rows, key, key(r)) == Some(r)
  {
    FindSound(rows, key, key(r));
    var f := Find(rows, key, key(r)).value;
    var i :| 0 <= i < |rows| && rows[i] == r;
    var j :| 0 <= j < |rows| && rows[j] == f;
    assert !(i < j) && !(j < i);
  }

  lemma {:induction false} PutFinds<T>(entries: seq<T>, key: T -> string, row: T, k: string)
    ensures Find(Put(entries, key, row), key, k) == if k == key(row) then Some(row) else Find(entries, key, k)
  {
    if entries != [] && key(entries[0]) != key(row) {
      PutFinds(entries[1..], key, row, k);
    }
  }

  lemma {:induction false} PutDistinct<T>(entries: seq<T>, key: T -> string, row: T)
    requires DistinctKeys(entries, key)
    ensures DistinctKeys(Put(entries, key, row), key)
    ensures forall r | r in Put(entries, key, row) :: r == row || r in entries
  {
    if entries != [] && key(entries[0]) != key(row) {
      PutDistinct(entries[1..], key, row);
      var t := Put(entries[1..], key, row);
      forall j | 0 <= j < |t| ensures key(t[j]) != key(entries[0]) {
        assert t[j] in t;
        if t[j] != row {
          var i :| 0 <= i < |entries[1..]| && entries[1..][i] == t[j];
          assert entries[i + 1] == t[j];
        }
      }
    }
  }

  lemma {:induction false} PutAllDistinct<T>(entries: seq<T>, key: T -> string, rows: seq<T>, mode: Mode)
    requires DistinctKeys(entries, key)
    ensures DistinctKeys(PutAll(entries, key, rows, mode), key)
    decreases |rows|
  {
    if rows != [] {
      PutDistinct(entries, key, rows[0]);
      PutAllDistinct(PutMode(entries, key, rows[0], mode), key, rows[1..], mode);
    }
  }

  lemma {:induction false} FindLastCons<T>(rows: seq<T>, key: T -> string, k: string)
    requires rows != []
    ensures FindLast(rows, key, k)
         == if FindLast(rows[1..], key, k).Some? then FindLast(rows[1..], key, k)
            else if key(rows[0]) == k then Some(rows[0]) else None
  {
    if |rows| > 1 && key(rows[|rows| - 1]) != k {
      FindLastCons(rows[..|rows| - 1], key, k);
      assert rows[..|rows| - 1][1..] == rows[1..][..|rows| - 2];
    }
  }

  /** Overwriting keeps the last incoming row of a key; if-absent keeps the stored row, else the first incoming one. */
  lemma {:induction false} PutAllFinds<T>(entries: seq<T>, key: T -> string, rows: seq<T>, mode: Mode, k: string)
    ensures mode.Overwrite? ==>
              Find(PutAll(entries, key, rows, mode), key, k) == OrElse(FindLast(rows, key, k), Find(entries, key, k))
    ensures mode.IfAbsent? ==>
              Find(PutAll(entries, key, rows, mode), key, k) == OrElse(Find(entries, key, k), Find(rows, key, k))
    decreases |rows|
  {
    if rows != [] {
      var next := PutMode(entries, key, rows[0], mode);
      PutFinds(entries, key, rows[0], k);
      PutAllFinds(next, key, rows[1..], mode, k);
      FindLastCons(rows, key, k);
      FindSound(entries, key, k);
    }
  }

  lemma SortFinds<T(!new)>(leq: (T, T) -> bool, rows: seq<T>, key: T -> string, k: string)
    requires DistinctKeys(rows, key)
    ensures DistinctKeys(Sort(leq, rows), key)
    ensures Find(Sort(leq, rows), key, k) == Find(rows, key, k)
  {
    var s := Sort(leq, rows);
    PermutedDistinct(rows, s, key);
    assert forall r :: r in s <==> r in multiset(s);
    assert forall r :: r in rows <==> r in multiset(rows);
    FindSound(rows, key, k);
    FindSound(s, key, k);
    if Find(s, key, k).Some? {
      FindDistinct(rows, key, Find(s, key, k).value);
    }
  }

  lemma PermutedDistinct<T(!new)>(a: seq<T>, b: seq<T>, key: T -> string)
    requires DistinctKeys(a, key) && multiset(a) == multiset(b)
    ensures DistinctKeys(b, key)
  {
    if i, j :| 0 <= i < j < |b| && key(b[i]) == key(b[j]) {
      assert b[i] in multiset(a) && b[j] in multiset(a);
      var i', j' :| 0 <= i' < |a| && a[i'] == b[i] && 0 <= j' < |a| && a[j'] == b[j];
      assert !(i' < j') && !(j' < i');
      TwiceInSeq(b, i, j);
      OnceInSeq(a, i', key);
      assert false;
    }
  }

  lemma TwiceInSeq<T>(s: seq<T>, i: nat, j: nat)
    requires i < j < |s| && s[i] == s[j]
    ensures multiset(s)[s[i]] >= 2
  {
    assert s == s[..j] + [s[j]] + s[j + 1..];
    assert s[i] in s[..j];
  }

  lemma OnceInSeq<T>(s: seq<T>, i: nat, key: T -> string)
    requires i < |s| && DistinctKeys(s, key)
    ensures multiset(s)[s[i]] == 1
  {
    assert s == s[..i] + [s[i]] + s[i + 1..];
    assert s[i] !in s[..i] && s[i] !in s[i + 1..];
  }

  /** The merged row of each key, for both modes. */
  lemma UpsertFinds<T(!new)>(existing: seq<T>, incoming: seq<T>, key: T -> string, mode: Mode,
                             leq: (T, T) -> bool, k: string)
    ensures DistinctKeys(Upsert(existing, incoming, key, mode, leq), key)
    ensures mode.Overwrite? ==>
              Find(Upsert(existing, incoming, key, mode, leq), key, k)
              == OrElse(FindLast(incoming, key, k), FindLast(existing, key, k))
    ensures mode.IfAbsent? ==>
              Find(Upsert(existing, incoming, key, mode, leq), key, k)
              == OrElse(FindLast(existing, key, k), Find(incoming, key, k))
  {
    var loaded := PutAll([], key, existing, Overwrite);
    PutAllDistinct([], key, existing, Overwrite);
    PutAllDistinct(loaded, key, incoming, mode);
    PutAllFinds([], key, existing, Overwrite, k);
    PutAllFinds(loaded, key, incoming, mode, k);
    SortFinds(leq, PutAll(loaded, key, incoming, mode), key, k);
  }

  lemma {:induction false} FindLastSound<T>(rows: seq<T>, key: T -> string, k: string)
    ensures FindLast(rows, key, k).Some? ==>
              FindLast(rows, key, k).value in rows && key(FindLast(rows, key, k).value) == k
    ensures FindLast(rows, key, k).None? ==> forall r | r in rows :: key(r) != k
  {
    if rows != [] && key(rows[|rows| - 1]) != k {
      FindLastSound(rows[..|rows| - 1], key, k);
      assert rows == rows[..|rows| - 1] + [rows[|rows| - 1]];
    }
  }

  lemma FindLastDistinct<T>(rows: seq<T>, key: T -> string, k: string)
    requires DistinctKeys(rows, key)
    ensures FindLast(rows, key, k) == Find(rows, key, k)
  {
    FindSound(rows, key, k);
    FindLastSound(rows, key, k);
    if FindLast(rows, key, k).Some? {
      FindDistinct(rows, key, FindLast(rows, key, k).value);
    }
  }

  /** Sorted rows without ties are determined by what each key finds. */
  lemma SameFinds<T(!new)>(leq: (T, T) -> bool, a: seq<T>, b: seq<T>, key: T -> string)
    requires TotalPreorder(leq) && Sorted(leq, a) && Sorted(leq, b)
    requires DistinctKeys(a, key) && DistinctKeys(b, key)
    requires forall x, y :: x in a && y in a && leq(x, y) && leq(y, x) ==> x == y
    requires forall k :: Find(a, key, k) == Find(b, key, k)
    ensures a == b
  {
    forall r ensures multiset(a)[r] == multiset(b)[r] {
      assert Find(a, key, key(r)) == Find(b, key, key(r));
      FindSound(a, key, key(r));
      FindSound(b, key, key(r));
      CountOf(a, key, r);
      CountOf(b, key, r);
    }
    SortedSameElements(leq, a, b);
  }

  lemma CountOf<T>(rows: seq<T>, key: T -> string, r: T)
    requires DistinctKeys(rows, key)
    ensures multiset(rows)[r] == if Find(rows, key, key(r)) == Some(r) then 1 else 0
  {
    FindSound(rows, key, key(r));
    if r in rows {
      FindDistinct(rows, key, r);
      var i :| 0 <= i < |rows| && rows[i] == r;
      OnceInSeq(rows, i, key);
    } else {
      assert r !in multiset(rows);
    }
  }
}
