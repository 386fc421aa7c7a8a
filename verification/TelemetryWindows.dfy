// Who is behind the published numbers, and which pings they can depend on.
module TelemetryWindows {
  import opened Prelude
  import opened Sorting
  import opened Merge
  import opened Permutations
  import opened Dimensions
  import opened Tallies
  import opened Calendar
  import opened Telemetry
  import opened TelemetryLaws

  // ---- The instance counts ----

  function Instances(rows: seq<PingRow>): set<string> {
    set r | r in rows :: r.instance
  }

  lemma {:induction false} DistinctInstances(rows: seq<PingRow>)
    requires DistinctKeys(rows, InstanceOf())
    ensures |Instances(rows)| == |rows|
  {
    if rows != [] {
      var n := |rows| - 1;
      var init, row := rows[..n], rows[n];
      assert rows == init + [row];
      DistinctInstances(init);
      assert Instances(rows) == Instances(init) + {row.instance};
      assert row.instance !in Instances(init);
    }
  }

  /** The instances that reported in `[from, to]` and on two or more days of the trailing thirty. */
  function Reporting(rows: seq<PingRow>, w: Window, from: string, to: string): set<string> {
    set r | r in rows && |ReportDays(rows, r.instance, w.from30, w.date)| >= 2 && Within(from, to)(r) :: r.instance
  }

  lemma LatestInstances(rows: seq<PingRow>, from: string, to: string)
    ensures |Latest(rows, from, to)| == |Instances(Latest(rows, from, to))|
    ensures forall i :: i in Instances(Latest(rows, from, to)) <==> Seen(rows, from, to, i)
  {
    hide Latest, StrLeq, Find;
    var latest := Latest(rows, from, to);
    LatestHolds(rows, from, to, "");
    DistinctInstances(latest);
    forall i ensures i in Instances(latest) <==> Seen(rows, from, to, i) {
      LatestHolds(rows, from, to, i);
      FindSound(latest, InstanceOf(), i);
    }
  }

  lemma EligibleSeen(rows: seq<PingRow>, w: Window, from: string, to: string, i: string)
    ensures Seen(EligibleRows(rows, w), from, to, i) <==> i in Reporting(rows, w, from, to)
  {
    hide StrLeq, ReportDays;
  }

  lemma WindowCount(rows: seq<PingRow>, w: Window, from: string, to: string)
    ensures |Latest(EligibleRows(rows, w), from, to)| == |Reporting(rows, w, from, to)|
  {
    hide Latest, EligibleRows, Reporting, Seen;
    LatestInstances(EligibleRows(rows, w), from, to);
    forall i ensures i in Instances(Latest(EligibleRows(rows, w), from, to)) <==> i in Reporting(rows, w, from, to) {
      EligibleSeen(rows, w, from, to, i);
    }
    assert Instances(Latest(EligibleRows(rows, w), from, to)) == Reporting(rows, w, from, to);
  }

  lemma {:induction false} FilterKeepsDistinct(p: PingRow -> bool, rows: seq<PingRow>)
    requires DistinctKeys(rows, InstanceOf())
    ensures DistinctKeys(Filter(p, rows), InstanceOf())
  {
    if rows != [] {
      FilterKeepsDistinct(p, rows[1..]);
      var t := Filter(p, rows[1..]);
      forall i | 0 <= i < |t| ensures t[i].instance != rows[0].instance {
        assert t[i] in rows[1..];
      }
    }
  }

  lemma OnDayCount(rows: seq<PingRow>, w: Window)
    requires InOrder(w)
    ensures |Filter(DatedOn(w.date), Snapshot(rows, w))| == |Reporting(rows, w, w.date, w.date)|
  {
    hide Latest, EligibleRows, StrLeq, Find;
    var snapshot, eligible := Snapshot(rows, w), EligibleRows(rows, w);
    var onDay := Filter(DatedOn(w.date), snapshot);
    LatestHolds(eligible, w.from7, w.date, "");
    FilterKeepsDistinct(DatedOn(w.date), snapshot);
    DistinctInstances(onDay);
    forall i ensures i in Instances(onDay) <==> i in Reporting(rows, w, w.date, w.date) {
      EligibleSeen(rows, w, w.date, w.date, i);
      LatestHolds(eligible, w.from7, w.date, i);
      OnDayIff(eligible, snapshot, w, i);
    }
    assert Instances(onDay) == Reporting(rows, w, w.date, w.date);
  }

  /** An instance's snapshot row is dated `date` iff it has a row dated `date`. */
  lemma OnDayIff(eligible: seq<PingRow>, snapshot: seq<PingRow>, w: Window, i: string)
    requires InOrder(w) && DistinctKeys(snapshot, InstanceOf())
    requires HoldsLatest(snapshot, eligible, w.from7, w.date, i)
    ensures i in Instances(Filter(DatedOn(w.date), snapshot)) <==> Seen(eligible, w.date, w.date, i)
  {
    hide StrLeq, Find;
    FindSound(snapshot, InstanceOf(), i);
    LeqTotal(w.date);
    if Seen(eligible, w.date, w.date, i) {
      var r :| r in eligible && r.instance == i && Within(w.date, w.date)(r);
      StrLeqOrder(r.day, w.date, "");
      assert Within(w.from7, w.date)(r);
      var newest := Find(snapshot, InstanceOf(), i).value;
      StrLeqOrder(newest.day, w.date, "");
    }
    if i in Instances(Filter(DatedOn(w.date), snapshot)) {
      var r :| r in Filter(DatedOn(w.date), snapshot) && r.instance == i;
      FindDistinct(snapshot, InstanceOf(), r);
      assert Within(w.date, w.date)(r);
    }
  }

  lemma WiderReports(rows: seq<PingRow>, w: Window, a: string, b: string, to: string)
    requires StrLeq(a, b)
    ensures Reporting(rows, w, b, to) <= Reporting(rows, w, a, to)
  {
    hide StrLeq, ReportDays;
    forall r: PingRow | Within(b, to)(r) ensures Within(a, to)(r) {
      StrLeqOrder(a, b, r.day);
    }
  }

  lemma SmallerSet(a: set<string>, b: set<string>)
    requires a <= b
    ensures |a| <= |b|
  {
    assert b == a + (b - a);
  }

  lemma WindowIsOrdered(date: string)
    requires WindowOf(date).Ok?
    ensures InOrder(WindowOf(date).value) && WindowOf(date).value.date == date
    ensures RealDate(date) && WindowOf(date).value.from30 == IsoDate(DayOf(date) - 29)
    ensures WindowOf(date).value.from7 == IsoDate(DayOf(date) - 6)
  {
    hide IsoDate, StrLess, DayFromYear, DayOf, RealDate;
    AddDaysSteps(date, -29);
    AddDaysSteps(date, -6);
    RealDateRange(date);
    var day := DayOf(date);
    YearsAscend(0, 100);
    IsoDateOrder(day - 6, day - 29);
    IsoDateOrder(day, day - 6);
  }

  /** The three instance counts are numbers of distinct counted instances, and each window contains the shorter one. */
  lemma InstanceCounts(rows: seq<PingRow>, date: string)
    requires Aggregate(rows, date).Ok?
    ensures var n, w := Aggregate(rows, date).value.network, WindowOf(date).value;
            && n.instances1d == |Reporting(rows, w, date, date)|
            && n.instances7d == |Reporting(rows, w, w.from7, date)|
            && n.instances30d == |Reporting(rows, w, w.from30, date)|
            && n.instances1d <= n.instances7d <= n.instances30d
  {
    hide Latest, EligibleRows, Reporting, Versions, Countries, Clients, SumOf, WindowOf, InOrder;
    WindowIsOrdered(date);
    var w := WindowOf(date).value;
    OnDayCount(rows, w);
    WindowCount(rows, w, w.from7, date);
    WindowCount(rows, w, w.from30, date);
    OrderedEnds(w);
    WiderReports(rows, w, w.from7, date, date);
    WiderReports(rows, w, w.from30, w.from7, date);
    SmallerSet(Reporting(rows, w, date, date), Reporting(rows, w, w.from7, date));
    SmallerSet(Reporting(rows, w, w.from7, date), Reporting(rows, w, w.from30, date));
  }

  lemma OrderedEnds(w: Window)
    requires InOrder(w)
    ensures StrLeq(w.from7, w.date) && StrLeq(w.from30, w.from7)
  {
  }

  // ---- The day's own users ----

  lemma CountDistinct(rows: seq<PingRow>, r: PingRow)
    requires Distinct(rows)
    ensures multiset(rows)[r] == if r in rows then 1 else 0
  {
    if r in rows {
      var i :| 0 <= i < |rows| && rows[i] == r;
      assert rows == rows[..i] + [r] + rows[i + 1..];
      assert r !in rows[..i] && r !in rows[i + 1..];
    }
  }

  /** Of the rows dated on the day itself, the snapshot holds every one that counts. */
  lemma SnapshotKeepsDay(rows: seq<PingRow>, w: Window, r: PingRow)
    requires InOrder(w) && OneRowPerDay(rows) && r.day == w.date
    ensures Find(Snapshot(rows, w), InstanceOf(), r.instance) == Some(r) <==> r in EligibleRows(rows, w)
  {
    hide Latest, Eligible, StrLeq, Find;
    LatestHolds(EligibleRows(rows, w), w.from7, w.date, r.instance);
    LeqTotal(w.date);
    var found := Find(Snapshot(rows, w), InstanceOf(), r.instance);
    if r in EligibleRows(rows, w) {
      assert Within(w.from7, w.date)(r);
      StrLeqOrder(found.value.day, w.date, "");
    }
  }

  /** The one-day users come from exactly the counted instances' rows of that day, each once. */
  lemma DayUsers(rows: seq<PingRow>, date: string)
    requires Aggregate(rows, date).Ok? && OneRowPerDay(rows) && Distinct(rows)
    ensures Aggregate(rows, date).value.network.usersActive1d
         == SumOf(Users("active1d"), Filter(DatedOn(date), EligibleRows(rows, WindowOf(date).value)))
  {
    hide Latest, Eligible, WindowOf, SumOf, Versions, Countries, Clients, InOrder, OneRowPerDay, Distinct, Find, Filter;
    WindowIsOrdered(date);
    var w := WindowOf(date).value;
    var snapshot, eligible := Snapshot(rows, w), EligibleRows(rows, w);
    LatestHolds(eligible, w.from7, w.date, "");
    forall r ensures multiset(Filter(DatedOn(date), snapshot))[r] == multiset(Filter(DatedOn(date), eligible))[r] {
      FilterCount(DatedOn(date), snapshot, r);
      FilterCount(DatedOn(date), eligible, r);
      if r.day == date {
        SnapshotKeepsDay(rows, w, r);
        CountOf(snapshot, InstanceOf(), r);
        FilterCount(Eligible(rows, w), rows, r);
        CountDistinct(rows, r);
      }
    }
    SumOfPermuted(Users("active1d"), Filter(DatedOn(date), snapshot), Filter(DatedOn(date), eligible));
  }

  // ---- The threshold ----

  /** The items of one key, counted and summed row by row. */
  lemma {:induction false} ItemsOfKey(f: PingRow -> seq<Item>, key: string, p: PingRow -> bool, g: PingRow -> int,
                                      snapshot: seq<PingRow>)
    requires forall r: PingRow :: |Filter(HasKey(key), f(r))| == if p(r) then 1 else 0
    requires forall r: PingRow :: SumOf(Amount(), Filter(HasKey(key), f(r))) == g(r)
    ensures |Filter(HasKey(key), ConcatMap(f, snapshot))| == |Filter(p, snapshot)|
    ensures SumOf(Amount(), Filter(HasKey(key), ConcatMap(f, snapshot))) == SumOf(g, snapshot)
  {
    hide SumOf, ConcatMap, Filter;
    NoRows(f, key, p, g);
    if snapshot != [] {
      var n := |snapshot| - 1;
      var row, items := snapshot[n], ConcatMap(f, snapshot[..n]);
      assert snapshot == snapshot[..n] + [row];
      ItemsOfKey(f, key, p, g, snapshot[..n]);
      ItemsStep(f, snapshot[..n], row);
      FilterConcat(HasKey(key), items, f(row));
      SumOfJoins(Amount(), Filter(HasKey(key), items), Filter(HasKey(key), f(row)));
      FilterStep(p, snapshot, n);
      assert snapshot[..n + 1] == snapshot;
      SumOfJoins(g, snapshot[..n], [row]);
      SumOfOne(g, row);
    }
  }

  lemma NoRows(f: PingRow -> seq<Item>, key: string, p: PingRow -> bool, g: PingRow -> int)
    ensures ConcatMap(f, []) == [] && Filter(HasKey(key), []) == [] && Filter(p, []) == []
    ensures SumOf(Amount(), []) == 0 && SumOf(g, []) == 0
  {
  }

  /** The distinct instances of the snapshot that satisfy `p`. */
  function Backers(snapshot: seq<PingRow>, p: PingRow -> bool): set<string> {
    Instances(Filter(p, snapshot))
  }

  /** A dimension row stands on at least three distinct instances, each with two reporting days in thirty. */
  ghost predicate Backed(rows: seq<PingRow>, w: Window, backers: set<string>) {
    |backers| >= MIN_INSTANCES_PER_DIMENSION
    && forall i | i in backers :: |ReportDays(rows, i, w.from30, w.date)| >= 2
  }

  lemma SnapshotBackers(rows: seq<PingRow>, w: Window, p: PingRow -> bool)
    ensures |Backers(Snapshot(rows, w), p)| == |Filter(p, Snapshot(rows, w))|
    ensures forall i | i in Backers(Snapshot(rows, w), p) :: |ReportDays(rows, i, w.from30, w.date)| >= 2
  {
    hide Latest, StrLeq, ReportDays, Find;
    var snapshot := Snapshot(rows, w);
    LatestHolds(EligibleRows(rows, w), w.from7, w.date, "");
    FilterKeepsDistinct(p, snapshot);
    DistinctInstances(Filter(p, snapshot));
    forall i | i in Backers(snapshot, p) ensures |ReportDays(rows, i, w.from30, w.date)| >= 2 {
      var r :| r in Filter(p, snapshot) && r.instance == i;
      LatestHolds(EligibleRows(rows, w), w.from7, w.date, i);
      FindDistinct(snapshot, InstanceOf(), r);
      assert r in EligibleRows(rows, w);
    }
  }

  lemma FoldedRowMeans(f: PingRow -> seq<Item>, keep: Entry -> bool, leq: (DimensionRow, DimensionRow) -> bool,
                       p: PingRow -> bool, g: PingRow -> int, snapshot: seq<PingRow>, date: string, row: DimensionRow)
    requires row in Folded(TallyOf(ConcatMap(f, snapshot)), keep, leq, date) && row.dimension != OTHER
    requires forall e :: keep(e) ==> e.holders >= MIN_INSTANCES_PER_DIMENSION
    requires forall r: PingRow :: |Filter(HasKey(row.dimension), f(r))| == if p(r) then 1 else 0
    requires forall r: PingRow :: SumOf(Amount(), Filter(HasKey(row.dimension), f(r))) == g(r)
    ensures |Filter(p, snapshot)| >= MIN_INSTANCES_PER_DIMENSION && row.count == SumOf(g, snapshot)
    ensures row.snapshotDate == date
  {
    hide SumOf, ConcatMap, Filter, TallyOf, Folded;
    var items := ConcatMap(f, snapshot);
    FoldedRows(TallyOf(items), keep, leq, date, row);
    var e :| e in TallyOf(items) && keep(e) && row == RowOf(date)(e);
    TallyKeys(items, e);
    ItemsOfKey(f, row.dimension, p, g, snapshot);
  }

  function OnVersion(version: string): PingRow -> bool {
    (r: PingRow) => ReleaseVersion(r.body.version) == version
  }

  function InCountry(country: string): PingRow -> bool {
    (r: PingRow) => r.country == country
  }

  function OnClient(kind: string): PingRow -> bool {
    (r: PingRow) => UsersOn(kind)(r) > 0
  }

  function AsCount(p: PingRow -> bool): PingRow -> int {
    (r: PingRow) => if p(r) then 1 else 0
  }

  lemma {:induction false} SumAsCount(p: PingRow -> bool, snapshot: seq<PingRow>)
    ensures SumOf(AsCount(p), snapshot) == |Filter(p, snapshot)|
  {
    hide SumOf;
    SumOfNone(AsCount(p));
    if snapshot != [] {
      assert snapshot == [snapshot[0]] + snapshot[1..];
      SumAsCount(p, snapshot[1..]);
      SumOfJoins(AsCount(p), [snapshot[0]], snapshot[1..]);
      SumOfOne(AsCount(p), snapshot[0]);
    }
  }

  lemma OneItem(key: string, item: Item)
    ensures Filter(HasKey(key), [item]) == if item.key == key then [item] else []
    ensures SumOf(Amount(), Filter(HasKey(key), [item])) == if item.key == key then item.amount else 0
  {
    hide SumOf;
    SumOfOne(Amount(), item);
    SumOfNone(Amount());
  }

  /** Every named version is what exactly that many, and at least three, counted instances run. */
  lemma VersionsBacked(rows: seq<PingRow>, date: string, row: DimensionRow)
    requires Aggregate(rows, date).Ok? && row in Aggregate(rows, date).value.versions && row.dimension != OTHER
    ensures var w := WindowOf(date).value;
            var backers := Backers(Snapshot(rows, w), OnVersion(row.dimension));
            Backed(rows, w, backers) && row.count == |backers|
  {
    hide SumOf, ConcatMap, Filter, TallyOf, Folded, Snapshot, WindowOf, ReleaseVersion, ReportDays;
    var w := WindowOf(date).value;
    var snapshot, p := Snapshot(rows, w), OnVersion(row.dimension);
    forall r: PingRow
      ensures |Filter(HasKey(row.dimension), VersionItems()(r))| == if p(r) then 1 else 0
      ensures SumOf(Amount(), Filter(HasKey(row.dimension), VersionItems()(r))) == AsCount(p)(r)
    {
      OneItem(row.dimension, Item(ReleaseVersion(r.body.version), 1));
    }
    FoldedRowMeans(VersionItems(), Named(), ByCountThenName(), p, AsCount(p), snapshot, w.date, row);
    SumAsCount(p, snapshot);
    SnapshotBackers(rows, w, p);
  }

  /** Every named country likewise. */
  lemma CountriesBacked(rows: seq<PingRow>, date: string, row: DimensionRow)
    requires Aggregate(rows, date).Ok? && row in Aggregate(rows, date).value.countries && row.dimension != OTHER
    ensures var w := WindowOf(date).value;
            var backers := Backers(Snapshot(rows, w), InCountry(row.dimension));
            Backed(rows, w, backers) && row.count == |backers|
  {
    hide SumOf, ConcatMap, Filter, TallyOf, Folded, Snapshot, WindowOf, ReportDays;
    var w := WindowOf(date).value;
    var snapshot, p := Snapshot(rows, w), InCountry(row.dimension);
    forall r: PingRow
      ensures |Filter(HasKey(row.dimension), CountryItems()(r))| == if p(r) then 1 else 0
      ensures SumOf(Amount(), Filter(HasKey(row.dimension), CountryItems()(r))) == AsCount(p)(r)
    {
      OneItem(row.dimension, Item(r.country, 1));
    }
    FoldedRowMeans(CountryItems(), Named(), ByCountThenName(), p, AsCount(p), snapshot, w.date, row);
    SumAsCount(p, snapshot);
    SnapshotBackers(rows, w, p);
  }

  lemma KindFilter(r: PingRow, kind: string, key: string)
    ensures Filter(HasKey(key), KindItem(r, kind)) == if kind == key then KindItem(r, kind) else []
  {
    hide Num;
  }

  lemma ClientItemsOf(r: PingRow, key: string)
    requires key in KINDS
    ensures Filter(HasKey(key), ClientItems()(r)) == KindItem(r, key)
  {
    hide KindItem, Filter;
    KindFilter(r, "web", key);
    KindFilter(r, "desktop", key);
    KindFilter(r, "mobile", key);
    FilterConcat(HasKey(key), KindItem(r, "web") + KindItem(r, "desktop"), KindItem(r, "mobile"));
    FilterConcat(HasKey(key), KindItem(r, "web"), KindItem(r, "desktop"));
  }

  /** Every named client kind is used on at least three counted instances, and its count is their users of it. */
  lemma ClientsBacked(rows: seq<PingRow>, date: string, row: DimensionRow)
    requires Aggregate(rows, date).Ok? && row in Aggregate(rows, date).value.clients && row.dimension != OTHER
    ensures var w := WindowOf(date).value;
            && Backed(rows, w, Backers(Snapshot(rows, w), OnClient(row.dimension)))
            && row.count == SumOf(UsersOn(row.dimension), Snapshot(rows, w))
  {
    hide SumOf, ConcatMap, Filter, TallyOf, Folded, Snapshot, WindowOf, ReportDays, Num;
    var w := WindowOf(date).value;
    var snapshot, p, g := Snapshot(rows, w), OnClient(row.dimension), UsersOn(row.dimension);
    ClientKindOf(snapshot, w.date, row);
    forall r: PingRow
      ensures |Filter(HasKey(row.dimension), ClientItems()(r))| == if p(r) then 1 else 0
      ensures SumOf(Amount(), Filter(HasKey(row.dimension), ClientItems()(r))) == g(r)
    {
      ClientItemsOf(r, row.dimension);
      KindAmount(r, row.dimension);
    }
    FoldedRowMeans(ClientItems(), Shared(), ByCount(), p, g, snapshot, w.date, row);
    SnapshotBackers(rows, w, p);
  }

  lemma ClientKindOf(snapshot: seq<PingRow>, date: string, row: DimensionRow)
    requires row in Clients(snapshot, date) && row.dimension != OTHER
    ensures row.dimension in KINDS
  {
    hide SumOf, ConcatMap, TallyOf, Folded;
    var items := ConcatMap(ClientItems(), snapshot);
    FoldedRows(TallyOf(items), Shared(), ByCount(), date, row);
    var e :| e in TallyOf(items) && Shared()(e) && row == RowOf(date)(e);
    TallyKeys(items, e);
    ClientKinds(snapshot);
    var own := Filter(HasKey(e.key), items);
    assert own[0] in own;
  }

  /** The bucket's name is no release version, so no instance can name itself into it. */
  lemma OtherIsNoVersion()
    ensures !ReleaseShaped(OTHER)
  {
    assert OTHER[0] == 'o';
  }

  // ---- Locality ----

  lemma {:induction false} LatestIgnores(rows: seq<PingRow>, p: PingRow -> bool, from: string, to: string)
    requires forall r: PingRow :: Within(from, to)(r) ==> p(r)
    ensures Latest(Filter(p, rows), from, to) == Latest(rows, from, to)
  {
    hide StrLeq, StrLess, Find, Put, Filter;
    if rows == [] {
      FilterEmpty(p);
    } else {
      var n := |rows| - 1;
      LatestIgnores(rows[..n], p, from, to);
      FilterStep(p, rows, n);
      assert rows[..n + 1] == rows;
      var init := Filter(p, rows[..n]);
      assert (init + [rows[n]])[..|init|] == init;
      assert init + [] == init;
    }
  }

  lemma {:induction false} FilterWithin(p: PingRow -> bool, q: PingRow -> bool, rows: seq<PingRow>)
    requires forall r | r in rows :: q(r) ==> p(r)
    ensures Filter(q, Filter(p, rows)) == Filter(q, rows)
  {
    if rows != [] {
      assert rows[0] in rows;
      FilterWithin(p, q, rows[1..]);
      var kept := Filter(p, rows[1..]);
      assert ([rows[0]] + kept)[1..] == kept;
    }
  }

  lemma {:induction false} FiltersCommute(p: PingRow -> bool, q: PingRow -> bool, rows: seq<PingRow>)
    ensures Filter(p, Filter(q, rows)) == Filter(q, Filter(p, rows))
  {
    if rows != [] {
      FiltersCommute(p, q, rows[1..]);
      var a, b := Filter(p, rows[1..]), Filter(q, rows[1..]);
      assert ([rows[0]] + a)[1..] == a && ([rows[0]] + b)[1..] == b;
    }
  }

  lemma DaysWithin(rows: seq<PingRow>, i: string, from: string, to: string)
    ensures ReportDays(Filter(Within(from, to), rows), i, from, to) == ReportDays(rows, i, from, to)
  {
    hide StrLeq;
  }

  /** An aggregate reads only the rows of its trailing thirty days. */
  lemma WindowDecides(rows: seq<PingRow>, w: Window)
    requires InOrder(w)
    ensures AggregateIn(Filter(Within(w.from30, w.date), rows), w) == AggregateIn(rows, w)
  {
    hide Filter, Latest, StrLeq, ReportDays, Versions, Countries, Clients, Network;
    var p := Within(w.from30, w.date);
    var kept := Filter(p, rows);
    forall r | r in kept ensures Eligible(kept, w)(r) == Eligible(rows, w)(r) {
      DaysWithin(rows, r.instance, w.from30, w.date);
    }
    FilterSame(Eligible(kept, w), Eligible(rows, w), kept);
    FiltersCommute(Eligible(rows, w), p, rows);
    assert EligibleRows(kept, w) == Filter(p, EligibleRows(rows, w));
    forall r: PingRow | Within(w.from7, w.date)(r) ensures p(r) {
      StrLeqOrder(w.from30, w.from7, r.day);
    }
    LatestIgnores(EligibleRows(rows, w), p, w.from7, w.date);
    LatestIgnores(EligibleRows(rows, w), p, w.from30, w.date);
  }

  /** Any fetch that covers the thirty days gives the aggregate of the full history. */
  lemma FetchSuffices(history: seq<PingRow>, from: string, to: string, date: string)
    requires WindowOf(date).Ok? ==> StrLeq(from, WindowOf(date).value.from30) && StrLeq(date, to)
    ensures Aggregate(Filter(Within(from, to), history), date) == Aggregate(history, date)
  {
    hide Filter, StrLeq, WindowOf, AggregateIn, InOrder;
    if WindowOf(date).Ok? {
      var w := WindowOf(date).value;
      WindowIsOrdered(date);
      var fetched := Filter(Within(from, to), history);
      forall r: PingRow | Within(w.from30, w.date)(r) ensures Within(from, to)(r) {
        StrLeqOrder(from, w.from30, r.day);
        StrLeqOrder(r.day, date, to);
      }
      FilterWithin(Within(from, to), Within(w.from30, w.date), history);
      WindowDecides(history, w);
      WindowDecides(fetched, w);
    }
  }

  const TELEMETRY_FETCH_DAYS: int := 31

  /** What the collector asks the receiver for on `today`. */
  function CollectorFetch(today: string): Result<(string, string), DateError> {
    var to :- AddDays(today, -1);
    var from :- AddDays(today, -TELEMETRY_FETCH_DAYS);
    Ok((from, to))
  }

  lemma FetchCovers(today: string, back: int)
    requires RealDate(today) && back in {1, 2}
    ensures CollectorFetch(today).Ok? && AddDays(today, -back).Ok?
    ensures var date := AddDays(today, -back).value;
            WindowOf(date).Ok? ==>
              StrLeq(CollectorFetch(today).value.0, WindowOf(date).value.from30)
              && StrLeq(date, CollectorFetch(today).value.1)
  {
    hide IsoDate, StrLess, DayFromYear, DayOf, RealDate;
    var day := DayOf(today);
    AddDaysSteps(today, -back);
    AddDaysSteps(today, -1);
    AddDaysSteps(today, -TELEMETRY_FETCH_DAYS);
    RealDateRange(today);
    YearsAscend(0, 100);
    var date := AddDays(today, -back).value;
    if WindowOf(date).Ok? {
      WindowIsOrdered(date);
      RealDateRange(date);
      IsoDateOrder(day - back, DayOf(date));
      IsoDateOrder(DayOf(date) - 29, day - TELEMETRY_FETCH_DAYS);
      IsoDateOrder(day - 1, day - back);
    }
  }

  /**
   * The collector's 31-day fetch, in whatever order the receiver sends it, publishes for both days it writes
   * exactly what the whole history would.
   */
  lemma CollectorSeesEnough(history: seq<PingRow>, fetched: seq<PingRow>, today: string, back: int)
    requires RealDate(today) && back in {1, 2} && OneRowPerDay(history)
    requires CollectorFetch(today).Ok?
    requires SameMembers(fetched, Filter(Within(CollectorFetch(today).value.0, CollectorFetch(today).value.1), history))
    ensures AddDays(today, -back).Ok?
    ensures var date := AddDays(today, -back).value;
            && (Aggregate(fetched, date).Ok? <==> Aggregate(history, date).Ok?)
            && (Aggregate(fetched, date).Ok? ==>
                  SamePublication(Aggregate(fetched, date).value, Aggregate(history, date).value))
  {
    hide Aggregate, RealDate, SamePublication, StrLeq, AddDays, CollectorFetch, WindowOf;
    FetchCovers(today, back);
    var date := AddDays(today, -back).value;
    var range := CollectorFetch(today).value;
    FetchSuffices(history, range.0, range.1, date);
    OrderDoesNotMatter(fetched, Filter(Within(range.0, range.1), history), date);
  }

  // ---- Days without a measurement ----

  /** `publishableTelemetryDays`. */
  function OldestDay(pings: seq<PingRow>): Option<string> {
    if pings == [] then None
    else
      var earlier, day := OldestDay(pings[..|pings| - 1]), pings[|pings| - 1].day;
      if earlier.None? || StrLess(day, earlier.value) then Some(day) else earlier
  }

  method PublishableDays(pings: seq<PingRow>, candidates: seq<string>) returns (days: seq<string>)
    ensures days == Filter(PublishableOn(pings), candidates)
  {
    var oldest: Option<string> := None;
    for i := 0 to |pings|
      invariant oldest == OldestDay(pings[..i])
    {
      assert pings[..i + 1][..i] == pings[..i];
      if oldest.None? || StrLess(pings[i].day, oldest.value) {
        oldest := Some(pings[i].day);
      }
    }
    assert pings[..|pings|] == pings;
    if oldest.None? {
      FilterNone(PublishableOn(pings), candidates);
      return [];
    }
    var after := (day: string) => StrLess(oldest.value, day);
    FilterSame(after, PublishableOn(pings), candidates);
    days := Filter(after, candidates);
  }

  function PublishableOn(pings: seq<PingRow>): string -> bool {
    (day: string) => OldestDay(pings).Some? && StrLess(OldestDay(pings).value, day)
  }

  lemma {:induction false} OldestIsOldest(pings: seq<PingRow>)
    ensures OldestDay(pings).None? <==> pings == []
    ensures forall r | r in pings :: StrLeq(OldestDay(pings).value, r.day)
  {
    hide StrLess, StrLeq;
    if pings != [] {
      var n := |pings| - 1;
      var earlier, row := OldestDay(pings[..n]), pings[n];
      assert pings == pings[..n] + [row];
      OldestIsOldest(pings[..n]);
      LeqTotal(row.day);
      if earlier.Some? {
        NewerStays(row.day, earlier.value);
        forall r | r in pings[..n] && StrLess(row.day, earlier.value) ensures StrLeq(row.day, r.day) {
          StrLeqOrder(row.day, earlier.value, r.day);
        }
      }
    }
  }

  /** On an excluded day nobody has a second reporting day. */
  lemma ExcludedHasNoneEligible(pings: seq<PingRow>, w: Window)
    requires !PublishableOn(pings)(w.date)
    ensures EligibleRows(pings, w) == []
  {
    hide StrLeq, StrLess, OldestDay;
    OldestIsOldest(pings);
    forall r | r in pings ensures !Eligible(pings, w)(r) {
      var days := ReportDays(pings, r.instance, w.from30, w.date);
      NotAfter(OldestDay(pings).value, w.date);
      forall d | d in days ensures d == w.date {
        StrLeqOrder(w.date, OldestDay(pings).value, d);
        StrLeqOrder(d, w.date, "");
      }
      AtMostOne(days, w.date);
    }
    FilterNone(Eligible(pings, w), pings);
  }

  lemma {:induction false} FilterNone<T>(p: T -> bool, s: seq<T>)
    requires forall x | x in s :: !p(x)
    ensures Filter(p, s) == []
  {
    if s != [] {
      assert s[0] in s;
      FilterNone(p, s[1..]);
    }
  }

  lemma NotAfter(oldest: string, date: string)
    requires !StrLess(oldest, date)
    ensures StrLeq(date, oldest)
  {
  }

  lemma AtMostOne(days: set<string>, day: string)
    requires forall d | d in days :: d == day
    ensures |days| <= 1
  {
    assert days <= {day};
    SmallerSet(days, {day});
  }

  /** Every excluded day aggregates to zeros with no dimension row. */
  lemma ExcludedIsEmpty(pings: seq<PingRow>, date: string)
    requires Aggregate(pings, date).Ok? && !PublishableOn(pings)(date)
    ensures Aggregate(pings, date).value
         == TelemetryAggregate(NetworkPoint(date, 0, 0, 0, 0, 0, 0, 0, 0, 0, 0, 0), [], [], [])
  {
    hide EligibleRows, PublishableOn, WindowOf;
    WindowIsOrdered(date);
    ExcludedHasNoneEligible(pings, WindowOf(date).value);
    NothingPublished(date);
  }

  lemma NothingPublished(date: string)
    ensures Latest([], "", "") == []
    ensures Network([], [], date) == NetworkPoint(date, 0, 0, 0, 0, 0, 0, 0, 0, 0, 0, 0)
    ensures Versions([], date) == Countries([], date) == Clients([], date) == []
  {
    NoItems();
  }
}
