// Counting by key in an insertion-ordered map, and folding the small counts into `other`.
module Tallies {
  import opened Prelude
  import opened Sorting
  import opened Merge
  import opened Permutations
  import opened Dimensions

  const MIN_INSTANCES_PER_DIMENSION: int := 3
  const OTHER: string := "other"

  /** One thing to count: a key and the amount it brings. */
  datatype Item = Item(key: string, amount: int)

  /** A key's entry: how many items had it, and their amounts together. */
  datatype Entry = Entry(key: string, holders: int, total: int)

  function EntryKey(): Entry -> string {
    (e: Entry) => e.key
  }

  function Total(): Entry -> int {
    (e: Entry) => e.total
  }

  function Amount(): Item -> int {
    (i: Item) => i.amount
  }

  function HasKey(key: string): Item -> bool {
    (i: Item) => i.key == key
  }

  function Bump(entries: seq<Entry>, item: Item): seq<Entry> {
    var held := OrElse(Find(entries, EntryKey(), item.key), Some(Entry(item.key, 0, 0))).value;
    Put(entries, EntryKey(), Entry(item.key, held.holders + 1, held.total + item.amount))
  }

  function TallyOf(items: seq<Item>): seq<Entry> {
    if items == [] then [] else Bump(TallyOf(items[..|items| - 1]), items[|items| - 1])
  }

  function EntryFor(items: seq<Item>, key: string): Option<Entry> {
    var own := Filter(HasKey(key), items);
    if own == [] then None else Some(Entry(key, |own|, SumOf(Amount(), own)))
  }

  lemma BumpFinds(entries: seq<Entry>, init: seq<Item>, item: Item, key: string)
    requires DistinctKeys(entries, EntryKey())
    requires Find(entries, EntryKey(), key) == EntryFor(init, key)
    requires Find(entries, EntryKey(), item.key) == EntryFor(init, item.key)
    ensures DistinctKeys(Bump(entries, item), EntryKey())
    ensures Find(Bump(entries, item), EntryKey(), key) == EntryFor(init + [item], key)
  {
    hide EntryFor, Put, Find, DistinctKeys;
    var held := OrElse(Find(entries, EntryKey(), item.key), Some(Entry(item.key, 0, 0))).value;
    var next := Entry(item.key, held.holders + 1, held.total + item.amount);
    PutFinds(entries, EntryKey(), next, key);
    PutDistinct(entries, EntryKey(), next);
    EntryStep(init, item, key);
  }

  /** Each key that occurs has one entry, with the number of its items and the sum of their amounts. */
  lemma {:induction false} TallyFinds(items: seq<Item>, key: string)
    ensures DistinctKeys(TallyOf(items), EntryKey())
    ensures Find(TallyOf(items), EntryKey(), key) == EntryFor(items, key)
  {
    hide EntryFor, Bump, Find, DistinctKeys;
    NothingTallied(key);
    if items != [] {
      var n := |items| - 1;
      assert items == items[..n] + [items[n]];
      TallyFinds(items[..n], key);
      TallyFinds(items[..n], items[n].key);
      BumpFinds(TallyOf(items[..n]), items[..n], items[n], key);
    }
  }

  lemma NothingTallied(key: string)
    ensures DistinctKeys<Entry>([], EntryKey()) && Find([], EntryKey(), key) == None && EntryFor([], key) == None
  {
  }

  lemma EntryStep(init: seq<Item>, item: Item, key: string)
    ensures EntryFor(init + [item], key)
         == if item.key != key then EntryFor(init, key)
            else
              var held := OrElse(EntryFor(init, key), Some(Entry(key, 0, 0))).value;
              Some(Entry(key, held.holders + 1, held.total + item.amount))
  {
    hide SumOf;
    FilterConcat(HasKey(key), init, [item]);
    SumOfJoins(Amount(), Filter(HasKey(key), init), [item]);
    SumOfOne(Amount(), item);
    SumOfNone(Amount());
    assert Filter(HasKey(key), [item]) == if item.key == key then [item] else [];
    assert Filter(HasKey(key), init) + [] == Filter(HasKey(key), init);
  }

  lemma SumOfNone<T>(pick: T -> int)
    ensures SumOf(pick, []) == 0
  {
  }

  lemma {:induction false} PutTotal(entries: seq<Entry>, row: Entry)
    ensures SumOf(Total(), Put(entries, EntryKey(), row))
         == SumOf(Total(), entries) + row.total
            - OrElse(Find(entries, EntryKey(), row.key), Some(Entry(row.key, 0, 0))).value.total
  {
    hide SumOf;
    SumOfOne(Total(), row);
    SumOfNone(Total());
    if entries != [] {
      var e, rest := entries[0], entries[1..];
      assert entries == [e] + rest;
      SumOfJoins(Total(), [e], rest);
      SumOfOne(Total(), e);
      SumOfJoins(Total(), [row], rest);
      if e.key != row.key {
        PutTotal(rest, row);
        SumOfJoins(Total(), [e], Put(rest, EntryKey(), row));
      }
    }
  }

  /** A tally loses nothing: its totals sum to the amounts counted. */
  lemma {:induction false} TallyConserves(items: seq<Item>)
    ensures SumOf(Total(), TallyOf(items)) == SumOf(Amount(), items)
  {
    hide SumOf, Put, Find;
    if items == [] {
      SumOfNone(Total());
      SumOfNone(Amount());
    } else {
      var n := |items| - 1;
      var entries, item := TallyOf(items[..n]), items[n];
      TallyConserves(items[..n]);
      var held := OrElse(Find(entries, EntryKey(), item.key), Some(Entry(item.key, 0, 0))).value;
      PutTotal(entries, Entry(item.key, held.holders + 1, held.total + item.amount));
      assert items == items[..n] + [item];
      SumOfJoins(Amount(), items[..n], [item]);
      SumOfOne(Amount(), item);
    }
  }

  /** Items in another order give the same entries, perhaps in another order. */
  lemma TallyPermuted(a: seq<Item>, b: seq<Item>)
    requires multiset(a) == multiset(b)
    ensures multiset(TallyOf(a)) == multiset(TallyOf(b))
  {
    hide TallyOf, Filter, SumOf, Find;
    forall e ensures multiset(TallyOf(a))[e] == multiset(TallyOf(b))[e] {
      TallyFinds(a, e.key);
      TallyFinds(b, e.key);
      CountOf(TallyOf(a), EntryKey(), e);
      CountOf(TallyOf(b), EntryKey(), e);
      FilterPermuted(HasKey(e.key), a, b);
      SumOfPermuted(Amount(), Filter(HasKey(e.key), a), Filter(HasKey(e.key), b));
      EmptyTogether(Filter(HasKey(e.key), a), Filter(HasKey(e.key), b));
    }
  }

  lemma EmptyTogether<T>(a: seq<T>, b: seq<T>)
    requires multiset(a) == multiset(b)
    ensures a == [] <==> b == []
  {
    SameLength(a, b);
  }

  // ---- Folding ----

  function RowOf(date: string): Entry -> DimensionRow {
    (e: Entry) => DimensionRow(date, e.key, "", e.total, e.total)
  }

  function OtherRow(date: string, total: int): seq<DimensionRow> {
    if total > 0 then [DimensionRow(date, OTHER, "", total, total)] else []
  }

  function Small(keep: Entry -> bool): Entry -> bool {
    (e: Entry) => !keep(e)
  }

  /** The kept entries sorted, then one `other` row for what the rest adds up to, if anything. */
  function Folded(entries: seq<Entry>, keep: Entry -> bool, leq: (DimensionRow, DimensionRow) -> bool, date: string)
    : seq<DimensionRow>
  {
    Sort(leq, Map(RowOf(date), Filter(keep, entries))) + OtherRow(date, SumOf(Total(), Filter(Small(keep), entries)))
  }

  function Count(): DimensionRow -> int {
    (r: DimensionRow) => r.count
  }

  lemma {:induction false} FilterSum(keep: Entry -> bool, entries: seq<Entry>)
    ensures SumOf(Total(), Filter(keep, entries)) + SumOf(Total(), Filter(Small(keep), entries))
         == SumOf(Total(), entries)
  {
    hide SumOf;
    SumOfNone(Total());
    if entries != [] {
      var e, rest := entries[0], entries[1..];
      assert entries == [e] + rest;
      FilterSum(keep, rest);
      SumOfJoins(Total(), [e], rest);
      SumOfJoins(Total(), [e], Filter(keep, rest));
      SumOfJoins(Total(), [e], Filter(Small(keep), rest));
    }
  }

  lemma MappedSum(date: string, entries: seq<Entry>)
    ensures SumOf(Count(), Map(RowOf(date), entries)) == SumOf(Total(), entries)
  {
    assert Map(Count(), Map(RowOf(date), entries)) == Map(Total(), entries);
  }

  /** Folding moves counts into `other` and loses none. */
  lemma FoldedConserves(entries: seq<Entry>, keep: Entry -> bool, leq: (DimensionRow, DimensionRow) -> bool,
                        date: string)
    requires forall e | e in entries :: e.total >= 0
    ensures SumOf(Count(), Folded(entries, keep, leq, date)) == SumOf(Total(), entries)
  {
    hide SumOf, Filter;
    var kept, small := Filter(keep, entries), Filter(Small(keep), entries);
    var rows := Map(RowOf(date), kept);
    FilterSum(keep, entries);
    MappedSum(date, kept);
    SumOfPermuted(Count(), Sort(leq, rows), rows);
    NonNegative(small);
    var rest := SumOf(Total(), small);
    SumOfJoins(Count(), Sort(leq, rows), OtherRow(date, rest));
    SumOfOne(Count(), DimensionRow(date, OTHER, "", rest, rest));
    SumOfNone(Count());
  }

  lemma {:induction false} NonNegative(entries: seq<Entry>)
    requires forall e | e in entries :: e.total >= 0
    ensures SumOf(Total(), entries) >= 0
  {
    hide SumOf;
    SumOfNone(Total());
    if entries != [] {
      assert entries == [entries[0]] + entries[1..];
      NonNegative(entries[1..]);
      SumOfJoins(Total(), [entries[0]], entries[1..]);
      SumOfOne(Total(), entries[0]);
    }
  }

  /** Entries in another order fold to the same rows, perhaps in another order. */
  lemma FoldedPermuted(a: seq<Entry>, b: seq<Entry>, keep: Entry -> bool, leq: (DimensionRow, DimensionRow) -> bool,
                       date: string)
    requires multiset(a) == multiset(b)
    ensures multiset(Map(RowOf(date), Filter(keep, a))) == multiset(Map(RowOf(date), Filter(keep, b)))
    ensures SumOf(Total(), Filter(Small(keep), a)) == SumOf(Total(), Filter(Small(keep), b))
    ensures multiset(Folded(a, keep, leq, date)) == multiset(Folded(b, keep, leq, date))
  {
    hide SumOf, Filter, Sort;
    FilterPermuted(keep, a, b);
    FilterPermuted(Small(keep), a, b);
    MapPermuted(RowOf(date), Filter(keep, a), Filter(keep, b));
    SumOfPermuted(Total(), Filter(Small(keep), a), Filter(Small(keep), b));
  }

  /** A kept row is the row of a kept entry; the only other row is `other`. */
  lemma FoldedRows(entries: seq<Entry>, keep: Entry -> bool, leq: (DimensionRow, DimensionRow) -> bool, date: string,
                   row: DimensionRow)
    requires row in Folded(entries, keep, leq, date) && row.dimension != OTHER
    ensures exists e :: e in entries && keep(e) && row == RowOf(date)(e)
  {
    hide SumOf;
    var kept := Filter(keep, entries);
    var rows := Map(RowOf(date), kept);
    assert row in Sort(leq, rows);
    assert row in multiset(Sort(leq, rows));
    assert row in multiset(rows);
    var i :| 0 <= i < |rows| && rows[i] == row;
    assert kept[i] in kept && row == RowOf(date)(kept[i]);
  }

  function RowDimension(): DimensionRow -> string {
    (r: DimensionRow) => r.dimension
  }

  /** One row per dimension. */
  lemma FoldedDistinct(entries: seq<Entry>, keep: Entry -> bool, leq: (DimensionRow, DimensionRow) -> bool,
                       date: string)
    requires DistinctKeys(entries, EntryKey()) && forall e | e in entries && keep(e) :: e.key != OTHER
    ensures DistinctKeys(Folded(entries, keep, leq, date), KeyOf())
    ensures DistinctKeys(Map(RowOf(date), Filter(keep, entries)), RowDimension())
  {
    hide SumOf;
    var kept := Filter(keep, entries);
    var rows := Map(RowOf(date), kept);
    var sorted := Sort(leq, rows);
    FilterDistinctKeys(keep, entries);
    PermutedDistinct(rows, sorted, RowDimension());
    var other := OtherRow(date, SumOf(Total(), Filter(Small(keep), entries)));
    var folded := sorted + other;
    forall i, j | 0 <= i < j < |folded| ensures KeyOf()(folded[i]) != KeyOf()(folded[j]) {
      RowOfKept(rows, kept, sorted, date, folded[i]);
      RowOfKept(rows, kept, sorted, date, folded[j]);
      assert folded[i] in sorted;
      assert folded[i].dimension != folded[j].dimension;
      SameDayKeys(date, folded[i].dimension, folded[j].dimension);
    }
  }

  lemma SameDayKeys(date: string, a: string, b: string)
    requires a != b
    ensures date + "\0" + a != date + "\0" + b
  {
    assert (date + "\0" + a)[|date| + 1..] == a && (date + "\0" + b)[|date| + 1..] == b;
  }

  lemma RowOfKept(rows: seq<DimensionRow>, kept: seq<Entry>, sorted: seq<DimensionRow>, date: string, row: DimensionRow)
    requires rows == Map(RowOf(date), kept) && multiset(sorted) == multiset(rows)
    requires forall e | e in kept :: e.key != OTHER
    ensures row in sorted ==> row.snapshotDate == date && row.dimension != OTHER
  {
    if row in sorted {
      assert row in multiset(rows);
      var i :| 0 <= i < |rows| && rows[i] == row;
      assert kept[i] in kept;
    }
  }

  lemma {:induction false} FilterDistinctKeys(keep: Entry -> bool, entries: seq<Entry>)
    requires DistinctKeys(entries, EntryKey())
    ensures DistinctKeys(Filter(keep, entries), EntryKey())
  {
    if entries != [] {
      FilterDistinctKeys(keep, entries[1..]);
      var t := Filter(keep, entries[1..]);
      forall i | 0 <= i < |t| ensures t[i].key != entries[0].key {
        assert t[i] in entries[1..];
      }
    }
  }
}
