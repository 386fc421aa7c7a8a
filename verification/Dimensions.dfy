// Dimensional rows (referrers, paths, versions, countries, clients): one row per day and dimension.
module Dimensions {
  import opened Prelude
  import opened Sorting
  import opened Merge

  datatype DimensionRow = DimensionRow(snapshotDate: string, dimension: string, title: string, count: int, uniques: int)

  /** A NUL joins the two halves of the key. */
  function KeyOf(): DimensionRow -> string {
    (row: DimensionRow) => row.snapshotDate + "\0" + row.dimension
  }

  /** `compareDimensionRows`: date ascending, count descending, dimension ascending. */
  function ByDimension(): (DimensionRow, DimensionRow) -> bool {
    (a: DimensionRow, b: DimensionRow) =>
      if a.snapshotDate != b.snapshotDate then StrLeq(a.snapshotDate, b.snapshotDate)
      else if a.count != b.count then a.count > b.count
      else StrLeq(a.dimension, b.dimension)
  }

  function UpsertDimensional(existing: seq<DimensionRow>, incoming: seq<DimensionRow>): seq<DimensionRow> {
    Upsert(existing, incoming, KeyOf(), Overwrite, ByDimension())
  }

  function Unmeasured(existing: seq<DimensionRow>): DimensionRow -> bool {
    (row: DimensionRow) => forall e | e in existing :: e.snapshotDate != row.snapshotDate
  }

  /** The backfill's merge: only days the file has no row for are added. */
  function MergeDimensional(existing: seq<DimensionRow>, incoming: seq<DimensionRow>): seq<DimensionRow> {
    UpsertDimensional(existing, Filter(Unmeasured(existing), incoming))
  }

  function OnDay(day: string): DimensionRow -> bool {
    (row: DimensionRow) => row.snapshotDate == day
  }

  predicate NoNul(s: string) {
    forall c | c in s :: c != '\0'
  }

  lemma {:induction false} NulSplits(a: string, b: string, c: string, d: string)
    requires NoNul(a) && NoNul(c) && a + "\0" + b == c + "\0" + d
    ensures a == c && b == d
  {
    var s, t := a + "\0" + b, c + "\0" + d;
    assert s[0] == (if a == [] then '\0' else a[0]) && t[0] == (if c == [] then '\0' else c[0]);
    assert (a != [] ==> a[0] in a) && (c != [] ==> c[0] in c);
    if a == [] {
      assert b == s[1..] && d == t[1..];
    } else {
      assert s[1..] == a[1..] + "\0" + b && t[1..] == c[1..] + "\0" + d;
      assert forall x | x in a[1..] :: x in a;
      assert forall x | x in c[1..] :: x in c;
      NulSplits(a[1..], b, c[1..], d);
    }
  }

  lemma ByDimensionTotal()
    ensures TotalPreorder(ByDimension())
  {
    forall x: DimensionRow, y: DimensionRow ensures ByDimension()(x, y) || ByDimension()(y, x) {
      StrLeqOrder(x.snapshotDate, y.snapshotDate, "");
      StrLeqOrder(x.dimension, y.dimension, "");
    }
    forall x: DimensionRow, y: DimensionRow, z: DimensionRow | ByDimension()(x, y) && ByDimension()(y, z)
      ensures ByDimension()(x, z)
    {
      hide StrLeq;
      StrLeqOrder(x.snapshotDate, y.snapshotDate, z.snapshotDate);
      StrLeqOrder(y.snapshotDate, z.snapshotDate, x.snapshotDate);
      StrLeqOrder(z.snapshotDate, x.snapshotDate, y.snapshotDate);
      StrLeqOrder(x.dimension, y.dimension, z.dimension);
    }
  }

  /** A file the merge wrote: sorted, one row per key. */
  ghost predicate Filed(rows: seq<DimensionRow>) {
    Sorted(ByDimension(), rows) && DistinctKeys(rows, KeyOf())
  }

  lemma UpsertFiled(existing: seq<DimensionRow>, incoming: seq<DimensionRow>)
    ensures Filed(UpsertDimensional(existing, incoming))
  {
    ByDimensionTotal();
    SortSorts(ByDimension(), PutAll(PutAll([], KeyOf(), existing, Overwrite), KeyOf(), incoming, Overwrite));
    UpsertFinds(existing, incoming, KeyOf(), Overwrite, ByDimension(), "");
  }

  /** A written file by day, within a day by falling count, within a count by dimension, no two rows level. */
  lemma FileOrder(existing: seq<DimensionRow>, incoming: seq<DimensionRow>)
    ensures var rows := UpsertDimensional(existing, incoming);
            forall i, j :: 0 <= i < j < |rows| ==>
              || StrLess(rows[i].snapshotDate, rows[j].snapshotDate)
              || (rows[i].snapshotDate == rows[j].snapshotDate
                  && (rows[i].count > rows[j].count
                      || (rows[i].count == rows[j].count && StrLess(rows[i].dimension, rows[j].dimension))))
  {
    hide StrLess;
    var rows := UpsertDimensional(existing, incoming);
    UpsertFiled(existing, incoming);
    forall i, j | 0 <= i < j < |rows|
      ensures || StrLess(rows[i].snapshotDate, rows[j].snapshotDate)
              || (rows[i].snapshotDate == rows[j].snapshotDate
                  && (rows[i].count > rows[j].count
                      || (rows[i].count == rows[j].count && StrLess(rows[i].dimension, rows[j].dimension))))
    {
      assert KeyOf()(rows[i]) != KeyOf()(rows[j]);
      StrTotal(rows[i].snapshotDate, rows[j].snapshotDate);
      StrTotal(rows[i].dimension, rows[j].dimension);
    }
  }

  /** Tied rows of a file are one row: same day and dimension. */
  lemma FiledTies(rows: seq<DimensionRow>)
    requires Filed(rows)
    ensures forall x, y :: x in rows && y in rows && ByDimension()(x, y) && ByDimension()(y, x) ==> x == y
  {
    forall x, y | x in rows && y in rows && ByDimension()(x, y) && ByDimension()(y, x) ensures x == y {
      StrLeqOrder(x.snapshotDate, y.snapshotDate, "");
      StrLeqOrder(x.dimension, y.dimension, "");
      FindDistinct(rows, KeyOf(), x);
      FindDistinct(rows, KeyOf(), y);
    }
  }

  /** The file depends only on what each key holds, so neither row order nor the route to it shows. */
  lemma FiledDetermined(a: seq<DimensionRow>, b: seq<DimensionRow>)
    requires Filed(a) && Filed(b)
    requires forall k :: Find(a, KeyOf(), k) == Find(b, KeyOf(), k)
    ensures a == b
  {
    ByDimensionTotal();
    FiledTies(a);
    SameFinds(ByDimension(), a, b, KeyOf());
  }

  /** Incoming rows given in another order write the same file. */
  lemma UpsertIgnoresOrder(existing: seq<DimensionRow>, a: seq<DimensionRow>, b: seq<DimensionRow>)
    requires multiset(a) == multiset(b) && DistinctKeys(a, KeyOf())
    ensures UpsertDimensional(existing, a) == UpsertDimensional(existing, b)
  {
    PermutedDistinct(a, b, KeyOf());
    UpsertFiled(existing, a);
    UpsertFiled(existing, b);
    forall k
      ensures Find(UpsertDimensional(existing, a), KeyOf(), k) == Find(UpsertDimensional(existing, b), KeyOf(), k)
    {
      UpsertFinds(existing, a, KeyOf(), Overwrite, ByDimension(), k);
      UpsertFinds(existing, b, KeyOf(), Overwrite, ByDimension(), k);
      FindLastDistinct(a, KeyOf(), k);
      FindLastDistinct(b, KeyOf(), k);
      FindSound(a, KeyOf(), k);
      FindSound(b, KeyOf(), k);
      assert forall r :: r in a <==> r in multiset(a);
      assert forall r :: r in b <==> r in multiset(b);
      if Find(a, KeyOf(), k).Some? {
        FindDistinct(b, KeyOf(), Find(a, KeyOf(), k).value);
      }
    }
    FiledDetermined(UpsertDimensional(existing, a), UpsertDimensional(existing, b));
  }

  lemma {:induction false} FilterFinds(p: DimensionRow -> bool, rows: seq<DimensionRow>, k: string)
    requires forall r | r in rows && KeyOf()(r) == k :: p(r)
    ensures FindLast(Filter(p, rows), KeyOf(), k) == FindLast(rows, KeyOf(), k)
  {
    hide Filter, KeyOf;
    FilterEmpty(p);
    if rows != [] {
      var n := |rows| - 1;
      var row, g := rows[n], Filter(p, rows[..n]);
      assert rows == rows[..n] + [row];
      FilterStep(p, rows, n);
      assert rows[..n + 1] == rows && g + [] == g;
      FilterFinds(p, rows[..n], k);
      assert (g + [row])[..|g|] == g;
      assert row in rows;
    }
  }

  lemma {:induction false} FilterKeepsOrder(leq: (DimensionRow, DimensionRow) -> bool, p: DimensionRow -> bool,
                                               rows: seq<DimensionRow>)
    requires Sorted(leq, rows) && DistinctKeys(rows, KeyOf())
    ensures Sorted(leq, Filter(p, rows)) && DistinctKeys(Filter(p, rows), KeyOf())
  {
    if rows != [] {
      hide KeyOf;
      FilterKeepsOrder(leq, p, rows[1..]);
      var f := Filter(p, rows[1..]);
      forall r | r in f ensures leq(rows[0], r) && KeyOf()(rows[0]) != KeyOf()(r) {
        var i :| 0 <= i < |rows[1..]| && rows[1..][i] == r;
        assert leq(rows[0], rows[i + 1]);
      }
      assert Filter(p, rows) == if p(rows[0]) then [rows[0]] + f else f;
    }
  }

  /** After `mergeDimensional` a day the file had is untouched, and any other day holds exactly its incoming rows. */
  lemma MergeFillsWholeDays(existing: seq<DimensionRow>, incoming: seq<DimensionRow>, day: string)
    requires Filed(existing) && NoNul(day)
    requires forall r | r in existing || r in incoming :: NoNul(r.snapshotDate)
    ensures Filter(OnDay(day), MergeDimensional(existing, incoming))
         == if exists e :: e in existing && e.snapshotDate == day then Filter(OnDay(day), existing)
            else Filter(OnDay(day), UpsertDimensional([], incoming))
  {
    var merged := MergeDimensional(existing, incoming);
    var filtered := Filter(Unmeasured(existing), incoming);
    var measured := exists e :: e in existing && e.snapshotDate == day;
    var reference := if measured then existing else UpsertDimensional([], incoming);
    UpsertFiled(existing, filtered);
    UpsertFiled([], incoming);
    FilterKeepsOrder(ByDimension(), OnDay(day), merged);
    FilterKeepsOrder(ByDimension(), OnDay(day), reference);
    forall r ensures r in merged && r.snapshotDate == day <==> r in reference && r.snapshotDate == day {
      if r.snapshotDate == day {
        DayRowKept(existing, incoming, r);
      }
    }
    SameRowsSameFile(Filter(OnDay(day), merged), Filter(OnDay(day), reference));
  }

  lemma DayRowKept(existing: seq<DimensionRow>, incoming: seq<DimensionRow>, r: DimensionRow)
    requires Filed(existing) && NoNul(r.snapshotDate)
    requires forall e | e in existing || e in incoming :: NoNul(e.snapshotDate)
    ensures var measured := exists e :: e in existing && e.snapshotDate == r.snapshotDate;
            r in MergeDimensional(existing, incoming)
            <==> r in (if measured then existing else UpsertDimensional([], incoming))
  {
    var k := KeyOf()(r);
    var filtered := Filter(Unmeasured(existing), incoming);
    var measured := exists e :: e in existing && e.snapshotDate == r.snapshotDate;
    UpsertFinds(existing, filtered, KeyOf(), Overwrite, ByDimension(), k);
    UpsertFinds([], incoming, KeyOf(), Overwrite, ByDimension(), k);
    FindLastDistinct(existing, KeyOf(), k);
    InIffFound(MergeDimensional(existing, incoming), r);
    InIffFound(existing, r);
    InIffFound(UpsertDimensional([], incoming), r);
    FindSound(existing, KeyOf(), k);
    FindLastSound(filtered, KeyOf(), k);
    forall e | (e in existing || e in incoming) && KeyOf()(e) == k ensures e.snapshotDate == r.snapshotDate {
      NulSplits(e.snapshotDate, e.dimension, r.snapshotDate, r.dimension);
    }
    if !measured {
      FilterFinds(Unmeasured(existing), incoming, k);
    }
  }

  lemma InIffFound(rows: seq<DimensionRow>, r: DimensionRow)
    requires DistinctKeys(rows, KeyOf())
    ensures r in rows <==> Find(rows, KeyOf(), KeyOf()(r)) == Some(r)
  {
    FindSound(rows, KeyOf(), KeyOf()(r));
    if r in rows { FindDistinct(rows, KeyOf(), r); }
  }

  lemma SameRowsSameFile(a: seq<DimensionRow>, b: seq<DimensionRow>)
    requires Filed(a) && Filed(b) && forall r :: r in a <==> r in b
    ensures a == b
  {
    forall k ensures Find(a, KeyOf(), k) == Find(b, KeyOf(), k) {
      FindSound(a, KeyOf(), k);
      FindSound(b, KeyOf(), k);
      if Find(a, KeyOf(), k).Some? { FindDistinct(b, KeyOf(), Find(a, KeyOf(), k).value); }
    }
    FiledDetermined(a, b);
  }
}
