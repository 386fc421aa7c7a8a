// What the network snapshot keeps: row order does not matter, counts add up, small groups stay
// unnamed, and only the trailing thirty days are read.
module TelemetryLaws {
  import opened Prelude
  import opened Sorting
  import opened Merge
  import opened Permutations
  import opened Dimensions
  import opened Tallies
  import opened Calendar
  import opened Telemetry

  // ---- The latest row of each instance ----

  ghost predicate IsLatest(rows: seq<PingRow>, from: string, to: string, r: PingRow) {
    && r in rows && Within(from, to)(r)
    && forall x | x in rows && x.instance == r.instance && Within(from, to)(x) :: StrLeq(x.day, r.day)
  }

  ghost predicate Seen(rows: seq<PingRow>, from: string, to: string, instance: string) {
    exists r :: r in rows && r.instance == instance && Within(from, to)(r)
  }

  /** `latest` holds, for each instance with a row in the window, one of its newest. */
  ghost predicate HoldsLatest(latest: seq<PingRow>, rows: seq<PingRow>, from: string, to: string, instance: string) {
    var found := Find(latest, InstanceOf(), instance);
    && (found.Some? <==> Seen(rows, from, to, instance))
    && (found.Some? ==> found.value.instance == instance && IsLatest(rows, from, to, found.value))
  }

  lemma KeepHolds(latest: seq<PingRow>, rows: seq<PingRow>, row: PingRow, from: string, to: string, instance: string)
    requires DistinctKeys(latest, InstanceOf())
    requires HoldsLatest(latest, rows, from, to, instance)
    ensures DistinctKeys(KeepLatest(latest, row, from, to), InstanceOf())
    ensures HoldsLatest(KeepLatest(latest, row, from, to), rows + [row], from, to, instance)
  {
    hide StrLess, StrLeq, Find, Put, DistinctKeys;
    var all := rows + [row];
    assert forall r :: r in all <==> r in rows || r == row;
    PutFinds(latest, InstanceOf(), row, instance);
    PutDistinct(latest, InstanceOf(), row);
    LeqTotal(row.day);
    var found := Find(latest, InstanceOf(), instance);
    if found.Some? {
      NewerStays(found.value.day, row.day);
      forall x: PingRow
        ensures StrLeq(x.day, found.value.day) && StrLeq(found.value.day, row.day) ==> StrLeq(x.day, row.day)
      {
        StrLeqOrder(x.day, found.value.day, row.day);
      }
    }
  }

  lemma LeqTotal(a: string)
    ensures StrLeq(a, a)
  {
    StrLeqOrder(a, a, a);
  }

  lemma NewerStays(a: string, b: string)
    ensures StrLess(a, b) ==> StrLeq(a, b)
    ensures !StrLess(a, b) ==> StrLeq(b, a)
  {
    StrAsym(a, b);
  }

  lemma {:induction false} LatestHolds(rows: seq<PingRow>, from: string, to: string, instance: string)
    ensures DistinctKeys(Latest(rows, from, to), InstanceOf())
    ensures HoldsLatest(Latest(rows, from, to), rows, from, to, instance)
  {
    hide HoldsLatest, DistinctKeys, KeepLatest;
    NothingLatest(from, to, instance);
    if rows != [] {
      var n := |rows| - 1;
      assert rows == rows[..n] + [rows[n]];
      LatestHolds(rows[..n], from, to, instance);
      KeepHolds(Latest(rows[..n], from, to), rows[..n], rows[n], from, to, instance);
    }
  }

  lemma NothingLatest(from: string, to: string, instance: string)
    ensures DistinctKeys<PingRow>([], InstanceOf()) && HoldsLatest([], [], from, to, instance)
  {
  }

  // ---- Row order ----

  /** At most one report per instance and day. */
  ghost predicate OneRowPerDay(rows: seq<PingRow>) {
    forall x, y | x in rows && y in rows && x.instance == y.instance && x.day == y.day :: x == y
  }

  ghost predicate SameMembers<T(!new)>(a: seq<T>, b: seq<T>) {
    forall x :: x in a <==> x in b
  }

  lemma SameLatest(a: seq<PingRow>, b: seq<PingRow>, from: string, to: string, instance: string)
    requires SameMembers(a, b) && OneRowPerDay(a)
    ensures Find(Latest(a, from, to), InstanceOf(), instance) == Find(Latest(b, from, to), InstanceOf(), instance)
  {
    hide Latest, StrLeq, Find;
    LatestHolds(a, from, to, instance);
    LatestHolds(b, from, to, instance);
    assert Seen(a, from, to, instance) <==> Seen(b, from, to, instance);
    var x, y := Find(Latest(a, from, to), InstanceOf(), instance), Find(Latest(b, from, to), InstanceOf(), instance);
    if x.Some? {
      StrLeqOrder(x.value.day, y.value.day, "");
    }
  }

  lemma LatestPermuted(a: seq<PingRow>, b: seq<PingRow>, from: string, to: string)
    requires SameMembers(a, b) && OneRowPerDay(a)
    ensures multiset(Latest(a, from, to)) == multiset(Latest(b, from, to))
  {
    hide Latest, Find, SameMembers, OneRowPerDay;
    LatestHolds(a, from, to, "");
    LatestHolds(b, from, to, "");
    forall r ensures multiset(Latest(a, from, to))[r] == multiset(Latest(b, from, to))[r] {
      SameLatest(a, b, from, to, r.instance);
      CountOf(Latest(a, from, to), InstanceOf(), r);
      CountOf(Latest(b, from, to), InstanceOf(), r);
    }
  }

  lemma SameDays(a: seq<PingRow>, b: seq<PingRow>, instance: string, from: string, to: string)
    requires SameMembers(a, b)
    ensures ReportDays(a, instance, from, to) == ReportDays(b, instance, from, to)
  {
    hide StrLeq;
  }

  lemma EligiblePermuted(a: seq<PingRow>, b: seq<PingRow>, w: Window)
    requires SameMembers(a, b) && OneRowPerDay(a)
    ensures SameMembers(EligibleRows(a, w), EligibleRows(b, w)) && OneRowPerDay(EligibleRows(a, w))
  {
    forall r ensures r in EligibleRows(a, w) <==> r in EligibleRows(b, w) {
      SameDays(a, b, r.instance, w.from30, w.date);
    }
  }

  lemma NetworkPermuted(a: seq<PingRow>, b: seq<PingRow>, a30: seq<PingRow>, b30: seq<PingRow>, date: string)
    requires multiset(a) == multiset(b) && |a30| == |b30|
    ensures Network(a, a30, date) == Network(b, b30, date)
  {
    hide SumOf, Filter, Num, Enabled;
    var dayA, dayB := Filter(DatedOn(date), a), Filter(DatedOn(date), b);
    FilterPermuted(DatedOn(date), a, b);
    FilterPermuted(Feature("voice"), a, b);
    FilterPermuted(Feature("federation"), a, b);
    SameLength(a, b);
    SumOfPermuted(Users("registered"), a, b);
    SumOfPermuted(Users("active1d"), dayA, dayB);
    SumOfPermuted(Users("active7d"), a, b);
    SumOfPermuted(Users("active30d"), a, b);
    SumOfPermuted(Content("messages7d"), a, b);
    SumOfPermuted(Content("storageMiB"), a, b);
  }

  lemma ByCountThenNameTotal()
    ensures TotalPreorder(ByCountThenName())
  {
    forall x: DimensionRow, y: DimensionRow ensures ByCountThenName()(x, y) || ByCountThenName()(y, x) {
      StrLeqOrder(x.dimension, y.dimension, "");
    }
    forall x: DimensionRow, y: DimensionRow, z: DimensionRow | ByCountThenName()(x, y) && ByCountThenName()(y, z)
      ensures ByCountThenName()(x, z)
    {
      StrLeqOrder(x.dimension, y.dimension, z.dimension);
    }
  }

  /** `foldSmall` writes the same file whatever order the counts came in. */
  lemma NamedFoldPermuted(a: seq<Item>, b: seq<Item>, date: string)
    requires multiset(a) == multiset(b)
    ensures Folded(TallyOf(a), Named(), ByCountThenName(), date) == Folded(TallyOf(b), Named(), ByCountThenName(), date)
  {
    hide TallyOf, Filter, SumOf, Sort, StrLeq;
    var leq := ByCountThenName();
    var rowsA := Map(RowOf(date), Filter(Named(), TallyOf(a)));
    var rowsB := Map(RowOf(date), Filter(Named(), TallyOf(b)));
    TallyPermuted(a, b);
    TallyFinds(a, "");
    FoldedPermuted(TallyOf(a), TallyOf(b), Named(), leq, date);
    FoldedDistinct(TallyOf(a), Named(), leq, date);
    ByCountThenNameTotal();
    forall x, y | x in rowsA && y in rowsA && leq(x, y) && leq(y, x) ensures x == y {
      StrLeqOrder(x.dimension, y.dimension, "");
      FindDistinct(rowsA, RowDimension(), x);
      FindDistinct(rowsA, RowDimension(), y);
    }
    SortIgnoresOrder(leq, rowsA, rowsB);
  }

  ghost predicate KindsOnly(items: seq<Item>) {
    forall i | i in items :: i.key in KINDS
  }

  lemma {:induction false} ClientKinds(snapshot: seq<PingRow>)
    ensures KindsOnly(ConcatMap(ClientItems(), snapshot))
  {
    hide ConcatMap, Num;
    NoItems();
    if snapshot != [] {
      var n := |snapshot| - 1;
      assert snapshot == snapshot[..n] + [snapshot[n]];
      ClientKinds(snapshot[..n]);
      ItemsStep(ClientItems(), snapshot[..n], snapshot[n]);
    }
  }

  lemma TallyKeys(items: seq<Item>, e: Entry)
    requires e in TallyOf(items)
    ensures EntryFor(items, e.key) == Some(e)
  {
    TallyFinds(items, e.key);
    FindDistinct(TallyOf(items), EntryKey(), e);
  }

  lemma SharedIsNamed(items: seq<Item>)
    requires KindsOnly(items)
    ensures forall e | e in TallyOf(items) && Shared()(e) :: e.key != OTHER
  {
    hide TallyOf, SumOf;
    forall e | e in TallyOf(items) ensures e.key in KINDS {
      TallyKeys(items, e);
      var own := Filter(HasKey(e.key), items);
      assert own[0] in own;
    }
  }

  /** Client rows in either order carry one row per kind. */
  lemma ClientsDistinct(snapshot: seq<PingRow>, date: string)
    ensures DistinctKeys(Clients(snapshot, date), KeyOf())
  {
    hide ConcatMap, TallyOf, Folded;
    var items := ConcatMap(ClientItems(), snapshot);
    ClientKinds(snapshot);
    SharedIsNamed(items);
    TallyFinds(items, "");
    FoldedDistinct(TallyOf(items), Shared(), ByCount(), date);
  }

  lemma ClientsPermuted(a: seq<PingRow>, b: seq<PingRow>, date: string)
    requires multiset(a) == multiset(b)
    ensures multiset(Clients(a, date)) == multiset(Clients(b, date))
  {
    hide ConcatMap, TallyOf, Folded;
    ConcatMapPermuted(ClientItems(), a, b);
    TallyPermuted(ConcatMap(ClientItems(), a), ConcatMap(ClientItems(), b));
    var x, y := TallyOf(ConcatMap(ClientItems(), a)), TallyOf(ConcatMap(ClientItems(), b));
    FoldedPermuted(x, y, Shared(), ByCount(), date);
  }

  /** Same network row, same version and country files, the same client rows, and the same clients file once merged. */
  ghost predicate SamePublication(a: TelemetryAggregate, b: TelemetryAggregate) {
    && a.network == b.network && a.versions == b.versions && a.countries == b.countries
    && multiset(a.clients) == multiset(b.clients)
    && forall existing :: UpsertDimensional(existing, a.clients) == UpsertDimensional(existing, b.clients)
  }

  lemma SnapshotsPublishAlike(a: seq<PingRow>, b: seq<PingRow>, date: string)
    requires multiset(a) == multiset(b)
    ensures Versions(a, date) == Versions(b, date) && Countries(a, date) == Countries(b, date)
    ensures multiset(Clients(a, date)) == multiset(Clients(b, date))
    ensures forall existing ::
              UpsertDimensional(existing, Clients(a, date)) == UpsertDimensional(existing, Clients(b, date))
  {
    hide ConcatMap, TallyOf, Folded, UpsertDimensional;
    ConcatMapPermuted(VersionItems(), a, b);
    NamedFoldPermuted(ConcatMap(VersionItems(), a), ConcatMap(VersionItems(), b), date);
    ConcatMapPermuted(CountryItems(), a, b);
    NamedFoldPermuted(ConcatMap(CountryItems(), a), ConcatMap(CountryItems(), b), date);
    ClientsPermuted(a, b, date);
    ClientsDistinct(a, date);
    forall existing
      ensures UpsertDimensional(existing, Clients(a, date)) == UpsertDimensional(existing, Clients(b, date))
    {
      UpsertIgnoresOrder(existing, Clients(a, date), Clients(b, date));
    }
  }

  /** The order the rows arrive in, and repeats of one row, do not show in what is published. */
  lemma OrderDoesNotMatter(a: seq<PingRow>, b: seq<PingRow>, date: string)
    requires SameMembers(a, b) && OneRowPerDay(a)
    ensures Aggregate(a, date).Ok? <==> Aggregate(b, date).Ok?
    ensures Aggregate(a, date).Ok? ==> SamePublication(Aggregate(a, date).value, Aggregate(b, date).value)
  {
    hide WindowOf, Versions, Countries, Clients, Network, Latest, EligibleRows;
    hide SameMembers, OneRowPerDay, UpsertDimensional;
    if WindowOf(date).Ok? {
      var w := WindowOf(date).value;
      EligiblePermuted(a, b, w);
      LatestPermuted(EligibleRows(a, w), EligibleRows(b, w), w.from7, w.date);
      LatestPermuted(EligibleRows(a, w), EligibleRows(b, w), w.from30, w.date);
      SameLength(Latest(EligibleRows(a, w), w.from30, w.date), Latest(EligibleRows(b, w), w.from30, w.date));
      SnapshotsPublishAlike(Snapshot(a, w), Snapshot(b, w), w.date);
      NetworkPermuted(Snapshot(a, w), Snapshot(b, w), Latest(EligibleRows(a, w), w.from30, w.date),
                      Latest(EligibleRows(b, w), w.from30, w.date), w.date);
    }
  }

  // ---- Conservation ----

  lemma {:induction false} OnePerRow(f: PingRow -> seq<Item>, g: PingRow -> int, snapshot: seq<PingRow>)
    requires forall r: PingRow :: SumOf(Amount(), f(r)) == g(r)
    ensures SumOf(Amount(), ConcatMap(f, snapshot)) == SumOf(g, snapshot)
  {
    hide SumOf, ConcatMap;
    SumOfNone(Amount());
    SumOfNone(g);
    NothingConcat(f);
    if snapshot != [] {
      var n := |snapshot| - 1;
      var row := snapshot[n];
      assert snapshot == snapshot[..n] + [row];
      OnePerRow(f, g, snapshot[..n]);
      ItemsStep(f, snapshot[..n], row);
      SumOfJoins(Amount(), ConcatMap(f, snapshot[..n]), f(row));
      SumOfJoins(g, snapshot[..n], [row]);
      SumOfOne(g, row);
    }
  }

  lemma NothingConcat(f: PingRow -> seq<Item>)
    ensures ConcatMap(f, []) == []
  {
  }

  function Always(): PingRow -> int {
    (r: PingRow) => 1
  }

  lemma {:induction false} CountRows(snapshot: seq<PingRow>)
    ensures SumOf(Always(), snapshot) == |snapshot|
  {
    hide SumOf;
    SumOfNone(Always());
    if snapshot != [] {
      var n := |snapshot| - 1;
      assert snapshot == snapshot[..n] + [snapshot[n]];
      CountRows(snapshot[..n]);
      SumOfJoins(Always(), snapshot[..n], [snapshot[n]]);
      SumOfOne(Always(), snapshot[n]);
    }
  }

  /** The user total of one row over the three client kinds, each clamped. */
  function ClientUsers(): PingRow -> int {
    (r: PingRow) => UsersOn("web")(r) + UsersOn("desktop")(r) + UsersOn("mobile")(r)
  }

  lemma KindAmount(r: PingRow, kind: string)
    ensures SumOf(Amount(), KindItem(r, kind)) == UsersOn(kind)(r)
  {
    hide SumOf, Num;
    SumOfNone(Amount());
    SumOfOne(Amount(), Item(kind, UsersOn(kind)(r)));
  }

  lemma ClientAmounts(r: PingRow)
    ensures SumOf(Amount(), ClientItems()(r)) == ClientUsers()(r)
  {
    hide SumOf, KindItem, Num;
    KindAmount(r, "web");
    KindAmount(r, "desktop");
    KindAmount(r, "mobile");
    SumOfJoins(Amount(), KindItem(r, "web") + KindItem(r, "desktop"), KindItem(r, "mobile"));
    SumOfJoins(Amount(), KindItem(r, "web"), KindItem(r, "desktop"));
  }

  ghost predicate Positive(items: seq<Item>) {
    forall i | i in items :: i.amount >= 0
  }

  lemma {:induction false} AmountsPositive(items: seq<Item>)
    requires Positive(items)
    ensures SumOf(Amount(), items) >= 0
  {
    hide SumOf;
    SumOfNone(Amount());
    if items != [] {
      assert items == [items[0]] + items[1..];
      AmountsPositive(items[1..]);
      SumOfJoins(Amount(), [items[0]], items[1..]);
      SumOfOne(Amount(), items[0]);
    }
  }

  lemma TotalsPositive(items: seq<Item>)
    requires Positive(items)
    ensures forall e | e in TallyOf(items) :: e.total >= 0
  {
    hide TallyOf, SumOf;
    forall e | e in TallyOf(items) ensures e.total >= 0 {
      TallyKeys(items, e);
      AmountsPositive(Filter(HasKey(e.key), items));
    }
  }

  lemma {:induction false} ItemsPositive(f: PingRow -> seq<Item>, snapshot: seq<PingRow>)
    requires forall r: PingRow :: Positive(f(r))
    ensures Positive(ConcatMap(f, snapshot))
  {
    hide ConcatMap;
    NothingConcat(f);
    if snapshot != [] {
      var n := |snapshot| - 1;
      assert snapshot == snapshot[..n] + [snapshot[n]];
      ItemsPositive(f, snapshot[..n]);
      ItemsStep(f, snapshot[..n], snapshot[n]);
      assert Positive(f(snapshot[n]));
    }
  }

  lemma FoldConserves(f: PingRow -> seq<Item>, g: PingRow -> int, keep: Entry -> bool,
                      leq: (DimensionRow, DimensionRow) -> bool, snapshot: seq<PingRow>, date: string)
    requires forall r: PingRow :: SumOf(Amount(), f(r)) == g(r)
    requires forall r: PingRow :: Positive(f(r))
    ensures SumOf(Count(), Folded(TallyOf(ConcatMap(f, snapshot)), keep, leq, date)) == SumOf(g, snapshot)
  {
    hide SumOf, ConcatMap, TallyOf, Folded, Positive;
    var items := ConcatMap(f, snapshot);
    ItemsPositive(f, snapshot);
    TotalsPositive(items);
    FoldedConserves(TallyOf(items), keep, leq, date);
    TallyConserves(items);
    OnePerRow(f, g, snapshot);
  }

  /** Version and country counts each sum to the seven-day instances, client counts to the snapshot's client users. */
  lemma CountsAddUp(rows: seq<PingRow>, date: string)
    requires Aggregate(rows, date).Ok?
    ensures var a, w := Aggregate(rows, date).value, WindowOf(date).value;
            && SumOf(Count(), a.versions) == a.network.instances7d
            && SumOf(Count(), a.countries) == a.network.instances7d
            && SumOf(Count(), a.clients) == SumOf(ClientUsers(), Snapshot(rows, w))
  {
    hide SumOf, ConcatMap, TallyOf, Folded, Snapshot, WindowOf, Num, ReleaseVersion;
    var w := WindowOf(date).value;
    var snapshot := Snapshot(rows, w);
    forall r: PingRow ensures SumOf(Amount(), VersionItems()(r)) == Always()(r) && Positive(VersionItems()(r)) {
      SumOfOne(Amount(), Item(ReleaseVersion(r.body.version), 1));
    }
    forall r: PingRow ensures SumOf(Amount(), CountryItems()(r)) == Always()(r) && Positive(CountryItems()(r)) {
      SumOfOne(Amount(), Item(r.country, 1));
    }
    forall r: PingRow ensures SumOf(Amount(), ClientItems()(r)) == ClientUsers()(r) && Positive(ClientItems()(r)) {
      ClientAmounts(r);
    }
    CountRows(snapshot);
    FoldConserves(VersionItems(), Always(), Named(), ByCountThenName(), snapshot, w.date);
    FoldConserves(CountryItems(), Always(), Named(), ByCountThenName(), snapshot, w.date);
    FoldConserves(ClientItems(), ClientUsers(), Shared(), ByCount(), snapshot, w.date);
  }
}
