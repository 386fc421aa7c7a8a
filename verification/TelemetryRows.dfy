// Which rows and figures a day's snapshot publishes, in terms of the pings themselves.
module TelemetryRows {
  import opened Prelude
  import opened Sorting
  import opened Merge
  import opened Permutations
  import opened Dimensions
  import opened Tallies
  import opened Calendar
  import opened Telemetry
  import opened TelemetryLaws
  import opened TelemetryWindows

  // ---- One reported value ----

  /** A count is the reported number's floor, at least 0 and at most a billion; anything else counts 0. */
  lemma NumMeans(group: map<string, Value>, field: string)
    ensures var n := Num(group, field);
            if field in group && group[field].Number? && group[field].n >= 0.0 then
              var x := group[field].n;
              if x >= 1_000_000_000.0 then n == 1_000_000_000 else n as real <= x < n as real + 1.0
            else n == 0
  {
  }

  ghost predicate Digits(s: string) {
    s != "" && forall c | c in s :: '0' <= c <= '9'
  }

  /** What may follow the three numbers: nothing, or a dash and one to sixteen letters, digits and dots. */
  ghost predicate PreRelease(s: string) {
    s == "" || (s[0] == '-' && 2 <= |s| <= 17 && forall c | c in s[1..] ::
      '0' <= c <= '9' || 'A' <= c <= 'Z' || 'a' <= c <= 'z' || c == '.')
  }

  function Spelled(a: string, b: string, c: string, rest: string): string {
    a + "." + b + "." + c + rest
  }

  /** Three dotted numbers, perhaps with a pre-release suffix. */
  ghost predicate Release(s: string) {
    exists a, b, c, rest :: Digits(a) && Digits(b) && Digits(c) && PreRelease(rest) && s == Spelled(a, b, c, rest)
  }

  lemma {:induction false} DigitsThen(a: string, rest: string)
    requires Digits(a) && (rest == "" || !IsDigit(rest[0]))
    ensures StartsWithNumber(a + rest) && AfterDigits(a + rest) == rest
  {
    assert a[0] in a && (a + rest)[1..] == a[1..] + rest;
    if |a| > 1 {
      assert forall c | c in a[1..] :: c in a;
      DigitsThen(a[1..], rest);
    } else {
      assert a[1..] + rest == rest;
    }
  }

  lemma {:induction false} CutDigits(s: string) returns (a: string)
    requires StartsWithNumber(s)
    ensures Digits(a) && s == a + AfterDigits(s) && (AfterDigits(s) == "" || !IsDigit(AfterDigits(s)[0]))
  {
    if StartsWithNumber(s[1..]) {
      var b := CutDigits(s[1..]);
      a := [s[0]] + b;
      assert s == [s[0]] + s[1..];
    } else {
      a := [s[0]];
      assert AfterDigits(s) == s[1..];
    }
  }

  lemma ReleaseIsShaped(a: string, b: string, c: string, rest: string)
    requires Digits(a) && Digits(b) && Digits(c) && PreRelease(rest)
    ensures ReleaseShaped(Spelled(a, b, c, rest))
  {
    hide AfterDigits, Digits;
    var tail1, tail2 := "." + b + "." + c + rest, "." + c + rest;
    assert Spelled(a, b, c, rest) == a + tail1;
    assert tail1[1..] == b + tail2 && tail2[1..] == c + rest;
    DigitsThen(a, tail1);
    DigitsThen(b, tail2);
    DigitsThen(c, rest);
  }

  lemma ShapedIsRelease(s: string)
    requires ReleaseShaped(s)
    ensures Release(s)
  {
    hide AfterDigits, Digits;
    var x := AfterDigits(s);
    var y := AfterDigits(x[1..]);
    var rest := AfterDigits(y[1..]);
    var a := CutDigits(s);
    var b := CutDigits(x[1..]);
    var c := CutDigits(y[1..]);
    assert x == "." + x[1..] && y == "." + y[1..];
    assert PreRelease(rest);
    assert s == Spelled(a, b, c, rest);
  }

  /** A row counts under its own version iff that is text of the shape of a release, and under `other` else. */
  lemma VersionMeans(value: Value)
    ensures ReleaseVersion(value) == if value.Text? && Release(value.text) then value.text else "other"
  {
    hide ReleaseShaped;
    if value.Text? {
      if Release(value.text) {
        var a, b, c, rest :|
          Digits(a) && Digits(b) && Digits(c) && PreRelease(rest) && value.text == Spelled(a, b, c, rest);
        ReleaseIsShaped(a, b, c, rest);
      }
      if ReleaseShaped(value.text) { ShapedIsRelease(value.text); }
    }
  }

  // ---- The snapshot ----

  /** Counted, dated in the seven days, and the instance's newest row there. */
  ghost predicate Snapped(rows: seq<PingRow>, w: Window, r: PingRow) {
    && r in rows && StrLeq(w.from7, r.day) && StrLeq(r.day, w.date)
    && |ReportDays(rows, r.instance, w.from30, w.date)| >= 2
    && forall x | x in rows && x.instance == r.instance && StrLeq(w.from7, x.day) && StrLeq(x.day, w.date) ::
         StrLeq(x.day, r.day)
  }

  /** With one report per instance and day, the snapshot is exactly the newest rows of the counted instances. */
  lemma SnapshotMeans(rows: seq<PingRow>, w: Window, r: PingRow)
    requires OneRowPerDay(rows)
    ensures r in Snapshot(rows, w) <==> Snapped(rows, w, r)
    ensures DistinctKeys(Snapshot(rows, w), InstanceOf())
  {
    hide Latest, StrLeq, ReportDays, Find;
    var snapshot, eligible := Snapshot(rows, w), EligibleRows(rows, w);
    LatestHolds(eligible, w.from7, w.date, r.instance);
    var found := Find(snapshot, InstanceOf(), r.instance);
    FindSound(snapshot, InstanceOf(), r.instance);
    if r in snapshot { FindDistinct(snapshot, InstanceOf(), r); }
    SameInstanceEligible(rows, w, r.instance);
    if Snapped(rows, w, r) {
      assert r in eligible && Within(w.from7, w.date)(r);
      StrLeqOrder(r.day, found.value.day, "");
    }
  }

  lemma SameInstanceEligible(rows: seq<PingRow>, w: Window, instance: string)
    ensures forall x: PingRow | x.instance == instance ::
              x in EligibleRows(rows, w) <==> x in rows && |ReportDays(rows, instance, w.from30, w.date)| >= 2
  {
    hide ReportDays;
  }

  // ---- Every figure of the network row ----

  /** Each figure is the sum, or the number, over the snapshot of the field it is named after. */
  lemma NetworkFigures(rows: seq<PingRow>, date: string)
    requires Aggregate(rows, date).Ok?
    ensures var n, s := Aggregate(rows, date).value.network, Snapshot(rows, WindowOf(date).value);
            && n.date == date
            && n.usersRegistered == SumOf((r: PingRow) => Num(r.body.users, "registered"), s)
            && n.usersActive7d == SumOf((r: PingRow) => Num(r.body.users, "active7d"), s)
            && n.usersActive30d == SumOf((r: PingRow) => Num(r.body.users, "active30d"), s)
            && n.messages7d == SumOf((r: PingRow) => Num(r.body.content, "messages7d"), s)
            && n.storageMib == SumOf((r: PingRow) => Num(r.body.content, "storageMiB"), s)
            && n.voiceInstances == |Filter((r: PingRow) => Field(r.body.features, "voice") == Flag(true), s)|
            && n.federationInstances == |Filter((r: PingRow) => Field(r.body.features, "federation") == Flag(true), s)|
            && n.usersActive1d
               == SumOf((r: PingRow) => Num(r.body.users, "active1d"), Filter((r: PingRow) => r.day == date, s))
  {
    hide Latest, EligibleRows, Filter, Num, Field, Versions, Countries, Clients, WindowOf, Sum;
    WindowIsOrdered(date);
    var s := Snapshot(rows, WindowOf(date).value);
    var day := Filter(DatedOn(date), s);
    SameSum(Users("registered"), (r: PingRow) => Num(r.body.users, "registered"), s);
    SameSum(Users("active7d"), (r: PingRow) => Num(r.body.users, "active7d"), s);
    SameSum(Users("active30d"), (r: PingRow) => Num(r.body.users, "active30d"), s);
    SameSum(Content("messages7d"), (r: PingRow) => Num(r.body.content, "messages7d"), s);
    SameSum(Content("storageMiB"), (r: PingRow) => Num(r.body.content, "storageMiB"), s);
    SameSum(Users("active1d"), (r: PingRow) => Num(r.body.users, "active1d"), day);
    FilterSame(Feature("voice"), (r: PingRow) => Field(r.body.features, "voice") == Flag(true), s);
    FilterSame(Feature("federation"), (r: PingRow) => Field(r.body.features, "federation") == Flag(true), s);
    FilterSame(DatedOn(date), (r: PingRow) => r.day == date, s);
  }

  lemma SameSum(f: PingRow -> int, g: PingRow -> int, s: seq<PingRow>)
    requires forall r :: f(r) == g(r)
    ensures SumOf(f, s) == SumOf(g, s)
  {
    assert Map(f, s) == Map(g, s);
  }

  // ---- Which dimension rows there are ----

  /** A value other than `other` has a row iff three or more snapshot rows carry it, and then just this row. */
  lemma RowIff(f: PingRow -> seq<Item>, keep: Entry -> bool, leq: (DimensionRow, DimensionRow) -> bool,
               p: PingRow -> bool, g: PingRow -> int, snapshot: seq<PingRow>, date: string, row: DimensionRow)
    requires row.dimension != "other"
    requires forall e: Entry :: e.key == row.dimension ==> (keep(e) <==> e.holders >= 3)
    requires forall r: PingRow :: |Filter(HasKey(row.dimension), f(r))| == if p(r) then 1 else 0
    requires forall r: PingRow :: SumOf(Amount(), Filter(HasKey(row.dimension), f(r))) == g(r)
    ensures row in Folded(TallyOf(ConcatMap(f, snapshot)), keep, leq, date) <==>
            |Filter(p, snapshot)| >= 3
            && row == DimensionRow(date, row.dimension, "", SumOf(g, snapshot), SumOf(g, snapshot))
  {
    hide SumOf, ConcatMap, TallyOf, Filter, Folded;
    var items, key := ConcatMap(f, snapshot), row.dimension;
    var entries := TallyOf(items);
    ItemsOfKey(f, key, p, g, snapshot);
    if row in Folded(entries, keep, leq, date) {
      FoldedRows(entries, keep, leq, date, row);
      var e :| e in entries && keep(e) && row == RowOf(date)(e);
      TallyKeys(items, e);
    }
    if |Filter(p, snapshot)| >= 3 {
      TallyFinds(items, key);
      FindSound(entries, EntryKey(), key);
      EntryOf(items, key);
      KeptHasRow(entries, keep, leq, date, Find(entries, EntryKey(), key).value);
    }
  }

  lemma EntryOf(items: seq<Item>, key: string)
    ensures var own := Filter(HasKey(key), items);
            own != [] ==> EntryFor(items, key) == Some(Entry(key, |own|, SumOf(Amount(), own)))
  {
  }

  lemma KeptHasRow(entries: seq<Entry>, keep: Entry -> bool, leq: (DimensionRow, DimensionRow) -> bool, date: string,
                   e: Entry)
    requires e in entries && keep(e)
    ensures RowOf(date)(e) in Folded(entries, keep, leq, date)
  {
    hide SumOf;
    var kept := Filter(keep, entries);
    var rows := Map(RowOf(date), kept);
    var i :| 0 <= i < |kept| && kept[i] == e;
    assert rows[i] in multiset(rows);
    assert rows[i] in multiset(Sort(leq, rows));
  }

  lemma VersionRow(s: seq<PingRow>, date: string, row: DimensionRow)
    requires row.dimension != "other"
    ensures var n := |Filter(OnVersion(row.dimension), s)|;
            row in Versions(s, date) <==> n >= 3 && row == DimensionRow(date, row.dimension, "", n, n)
  {
    hide SumOf, ConcatMap, Filter, TallyOf, Folded, ReleaseVersion;
    var key, p := row.dimension, OnVersion(row.dimension);
    forall r: PingRow
      ensures |Filter(HasKey(key), VersionItems()(r))| == if p(r) then 1 else 0
      ensures SumOf(Amount(), Filter(HasKey(key), VersionItems()(r))) == AsCount(p)(r)
    {
      OneItem(key, Item(ReleaseVersion(r.body.version), 1));
    }
    SumAsCount(p, s);
    RowIff(VersionItems(), Named(), ByCountThenName(), p, AsCount(p), s, date, row);
  }

  /** A version is named iff at least three instances of the snapshot run it, with their number as its count. */
  lemma VersionNamedIff(rows: seq<PingRow>, date: string, version: string, n: int)
    requires Aggregate(rows, date).Ok? && version != "other"
    ensures var s := Snapshot(rows, WindowOf(date).value);
            DimensionRow(date, version, "", n, n) in Aggregate(rows, date).value.versions <==>
            n == |Filter(OnVersion(version), s)| && n >= 3
    ensures forall row | row in Aggregate(rows, date).value.versions && row.dimension == version ::
              row == DimensionRow(date, version, "", row.count, row.count)
  {
    hide Filter, Versions, Countries, Clients, Network, Snapshot, WindowOf, OnVersion, InOrder;
    WindowIsOrdered(date);
    var s := Snapshot(rows, WindowOf(date).value);
    VersionRow(s, date, DimensionRow(date, version, "", n, n));
    forall row | row in Versions(s, date) && row.dimension == version
      ensures row == DimensionRow(date, version, "", row.count, row.count)
    {
      VersionRow(s, date, row);
    }
  }

  lemma CountryRow(s: seq<PingRow>, date: string, row: DimensionRow)
    requires row.dimension != "other"
    ensures var n := |Filter(InCountry(row.dimension), s)|;
            row in Countries(s, date) <==> n >= 3 && row == DimensionRow(date, row.dimension, "", n, n)
  {
    hide SumOf, ConcatMap, Filter, TallyOf, Folded;
    var key, p := row.dimension, InCountry(row.dimension);
    forall r: PingRow
      ensures |Filter(HasKey(key), CountryItems()(r))| == if p(r) then 1 else 0
      ensures SumOf(Amount(), Filter(HasKey(key), CountryItems()(r))) == AsCount(p)(r)
    {
      OneItem(key, Item(r.country, 1));
    }
    SumAsCount(p, s);
    RowIff(CountryItems(), Named(), ByCountThenName(), p, AsCount(p), s, date, row);
  }

  /** A country likewise. */
  lemma CountryNamedIff(rows: seq<PingRow>, date: string, country: string, n: int)
    requires Aggregate(rows, date).Ok? && country != "other"
    ensures var s := Snapshot(rows, WindowOf(date).value);
            DimensionRow(date, country, "", n, n) in Aggregate(rows, date).value.countries <==>
            n == |Filter(InCountry(country), s)| && n >= 3
    ensures forall row | row in Aggregate(rows, date).value.countries && row.dimension == country ::
              row == DimensionRow(date, country, "", row.count, row.count)
  {
    hide Filter, Versions, Countries, Clients, Network, Snapshot, WindowOf, InCountry, InOrder;
    WindowIsOrdered(date);
    var s := Snapshot(rows, WindowOf(date).value);
    CountryRow(s, date, DimensionRow(date, country, "", n, n));
    forall row | row in Countries(s, date) && row.dimension == country
      ensures row == DimensionRow(date, country, "", row.count, row.count)
    {
      CountryRow(s, date, row);
    }
  }

  lemma ClientRow(s: seq<PingRow>, date: string, row: DimensionRow)
    requires row.dimension in ["web", "desktop", "mobile"]
    ensures var users := SumOf(UsersOn(row.dimension), s);
            row in Clients(s, date) <==>
            |Filter(OnClient(row.dimension), s)| >= 3 && row == DimensionRow(date, row.dimension, "", users, users)
  {
    hide SumOf, ConcatMap, Filter, TallyOf, Folded, Num, KindItem;
    var kind := row.dimension;
    forall r: PingRow
      ensures |Filter(HasKey(kind), ClientItems()(r))| == if OnClient(kind)(r) then 1 else 0
      ensures SumOf(Amount(), Filter(HasKey(kind), ClientItems()(r))) == UsersOn(kind)(r)
    {
      ClientItemsOf(r, kind);
      KindAmount(r, kind);
      KindCount(r, kind);
    }
    RowIff(ClientItems(), Shared(), ByCount(), OnClient(kind), UsersOn(kind), s, date, row);
  }

  /** A client kind is named iff at least three instances of the snapshot report users on it, with all those users. */
  lemma ClientNamedIff(rows: seq<PingRow>, date: string, kind: string, n: int)
    requires Aggregate(rows, date).Ok? && kind in ["web", "desktop", "mobile"]
    ensures var s := Snapshot(rows, WindowOf(date).value);
            DimensionRow(date, kind, "", n, n) in Aggregate(rows, date).value.clients <==>
            n == SumOf((r: PingRow) => Num(r.body.clients, kind), s)
            && |Filter((r: PingRow) => Num(r.body.clients, kind) > 0, s)| >= 3
    ensures forall row | row in Aggregate(rows, date).value.clients && row.dimension == kind ::
              row == DimensionRow(date, kind, "", row.count, row.count)
  {
    hide Filter, SumOf, Versions, Countries, Clients, Network, Snapshot, WindowOf, Num, InOrder;
    WindowIsOrdered(date);
    var s := Snapshot(rows, WindowOf(date).value);
    SameSum(UsersOn(kind), (r: PingRow) => Num(r.body.clients, kind), s);
    FilterSame(OnClient(kind), (r: PingRow) => Num(r.body.clients, kind) > 0, s);
    ClientRow(s, date, DimensionRow(date, kind, "", n, n));
    forall row | row in Clients(s, date) && row.dimension == kind
      ensures row == DimensionRow(date, kind, "", row.count, row.count)
    {
      ClientRow(s, date, row);
    }
  }

  lemma KindCount(r: PingRow, kind: string)
    ensures |KindItem(r, kind)| == if OnClient(kind)(r) then 1 else 0
  {
    hide Num;
  }

  /** Nothing but the three kinds and `other` is ever a client row. */
  lemma ClientRowsAreKinds(rows: seq<PingRow>, date: string, row: DimensionRow)
    requires Aggregate(rows, date).Ok? && row in Aggregate(rows, date).value.clients
    ensures row.dimension in ["web", "desktop", "mobile", "other"]
  {
    hide Clients, Snapshot, WindowOf;
    if row.dimension != "other" { ClientKindOf(Snapshot(rows, WindowOf(date).value), WindowOf(date).value.date, row); }
  }

  // ---- The order of the rows ----

  /** Named rows by falling count and then by name, then one `other` row if anything folded. */
  lemma VersionsInOrder(rows: seq<PingRow>, date: string)
    requires Aggregate(rows, date).Ok?
    ensures Ranked(Aggregate(rows, date).value.versions)
    ensures Ranked(Aggregate(rows, date).value.countries)
  {
    hide Snapshot, WindowOf, Folded, ConcatMap, TallyOf, Ranked;
    var w := WindowOf(date).value;
    var s := Snapshot(rows, w);
    FoldRanked(ConcatMap(VersionItems(), s), w.date);
    FoldRanked(ConcatMap(CountryItems(), s), w.date);
  }

  ghost predicate Ranked(rows: seq<DimensionRow>) {
    && (forall i, j :: 0 <= i < j < |rows| && rows[j].dimension != "other" ==>
          rows[i].count > rows[j].count
          || (rows[i].count == rows[j].count && StrLess(rows[i].dimension, rows[j].dimension)))
    && (forall i :: 0 <= i < |rows| && rows[i].dimension == "other" ==> i == |rows| - 1 && rows[i].count > 0)
  }

  lemma FoldRanked(items: seq<Item>, date: string)
    ensures Ranked(Folded(TallyOf(items), Named(), ByCountThenName(), date))
  {
    hide TallyOf, SumOf, StrLess, StrLeq, Filter, Sort;
    var entries := TallyOf(items);
    var kept := Filter(Named(), entries);
    var named := Map(RowOf(date), kept);
    var sorted := Sort(ByCountThenName(), named);
    var other := OtherRow(date, SumOf(Total(), Filter(Small(Named()), entries)));
    TallyFinds(items, "");
    FilterDistinctKeys(Named(), entries);
    ByCountThenNameTotal();
    SortSorts(ByCountThenName(), named);
    PermutedDistinct(named, sorted, RowDimension());
    forall i | 0 <= i < |sorted| ensures sorted[i].dimension != "other" {
      assert sorted[i] in sorted;
      RowOfKept(named, kept, sorted, date, sorted[i]);
    }
    var rows := sorted + other;
    forall i, j | 0 <= i < j < |rows| && rows[j].dimension != "other"
      ensures rows[i].count > rows[j].count
              || (rows[i].count == rows[j].count && StrLess(rows[i].dimension, rows[j].dimension))
    {
      assert rows[i] == sorted[i] && rows[j] == sorted[j];
      assert ByCountThenName()(sorted[i], sorted[j]);
      assert RowDimension()(sorted[i]) != RowDimension()(sorted[j]);
      StrTotalLess(sorted[i].dimension, sorted[j].dimension);
    }
  }

  lemma StrTotalLess(a: string, b: string)
    ensures StrLeq(a, b) && a != b ==> StrLess(a, b)
  {
    StrTotal(a, b);
  }
}
