// The network snapshot of one day, from the pings the receiver exported.
module Telemetry {
  import opened Prelude
  import opened Sorting
  import opened Merge
  import opened Permutations
  import opened Dimensions
  import opened Tallies
  import opened Calendar

  const MAX_ROW_VALUE: int := 1_000_000_000

  /** A reported value of unknown type; `NotFinite` is NaN or an infinity. */
  datatype Value = Missing | Number(n: real) | NotFinite | Flag(on: bool) | Text(text: string) | Structure

  datatype PingBody = PingBody(
    version: Value, users: map<string, Value>, clients: map<string, Value>,
    content: map<string, Value>, features: map<string, Value>)

  datatype PingRow = PingRow(instance: string, day: string, country: string, schema: int, body: PingBody)

  datatype NetworkPoint = NetworkPoint(
    date: string, instances1d: int, instances7d: int, instances30d: int,
    usersRegistered: int, usersActive1d: int, usersActive7d: int, usersActive30d: int,
    messages7d: int, storageMib: int, voiceInstances: int, federationInstances: int)

  datatype TelemetryAggregate = TelemetryAggregate(
    network: NetworkPoint, versions: seq<DimensionRow>, countries: seq<DimensionRow>, clients: seq<DimensionRow>)

  // ---- Reading one row ----

  function Field(group: map<string, Value>, field: string): Value {
    if field in group then group[field] else Missing
  }

  /** `num`: anything but a finite number of at least zero reads as 0, and the rest is floored and capped. */
  function Num(group: map<string, Value>, field: string): (n: int)
    ensures 0 <= n <= MAX_ROW_VALUE
  {
    match Field(group, field)
    case Number(n) => if n < 0.0 then 0 else if n.Floor < MAX_ROW_VALUE then n.Floor else MAX_ROW_VALUE
    case _ => 0
  }

  predicate Enabled(group: map<string, Value>, field: string) {
    Field(group, field) == Flag(true)
  }

  function AfterDigits(s: string): (rest: string)
    ensures |rest| <= |s|
  {
    if s != [] && IsDigit(s[0]) then AfterDigits(s[1..]) else s
  }

  predicate StartsWithNumber(s: string) {
    s != [] && IsDigit(s[0])
  }

  predicate SuffixChar(c: char) {
    IsDigit(c) || 'A' <= c <= 'Z' || 'a' <= c <= 'z' || c == '.'
  }

  /** `/^\d+\.\d+\.\d+(-[0-9A-Za-z.]{1,16})?$/`. */
  predicate ReleaseShaped(s: string) {
    StartsWithNumber(s) &&
    var a := AfterDigits(s);
    a != [] && a[0] == '.' && StartsWithNumber(a[1..]) &&
    var b := AfterDigits(a[1..]);
    b != [] && b[0] == '.' && StartsWithNumber(b[1..]) &&
    var c := AfterDigits(b[1..]);
    c == [] || (c[0] == '-' && 1 <= |c| - 1 <= 16 && forall x | x in c[1..] :: SuffixChar(x))
  }

  function ReleaseVersion(value: Value): string {
    if value.Text? && ReleaseShaped(value.text) then value.text else OTHER
  }

  // ---- Windows and the latest row of each instance ----

  /** The days an aggregate looks at: thirty, seven and one day ending on `date`. */
  datatype Window = Window(from30: string, from7: string, date: string)

  function WindowOf(date: string): Result<Window, DateError> {
    var from30 :- AddDays(date, -29);
    var from7 :- AddDays(date, -6);
    Ok(Window(from30, from7, date))
  }

  predicate InOrder(w: Window) {
    StrLeq(w.from30, w.from7) && StrLeq(w.from7, w.date)
  }

  function Within(from: string, to: string): PingRow -> bool {
    (r: PingRow) => StrLeq(from, r.day) && StrLeq(r.day, to)
  }

  function InstanceOf(): PingRow -> string {
    (r: PingRow) => r.instance
  }

  function KeepLatest(latest: seq<PingRow>, row: PingRow, from: string, to: string): seq<PingRow> {
    if !Within(from, to)(row) then latest
    else
      var current := Find(latest, InstanceOf(), row.instance);
      if current.None? || StrLess(current.value.day, row.day) then Put(latest, InstanceOf(), row) else latest
  }

  /** `latestPerInstance`. */
  function Latest(rows: seq<PingRow>, from: string, to: string): seq<PingRow> {
    if rows == [] then []
    else KeepLatest(Latest(rows[..|rows| - 1], from, to), rows[|rows| - 1], from, to)
  }

  function ReportDays(rows: seq<PingRow>, instance: string, from: string, to: string): set<string> {
    set r | r in rows && r.instance == instance && Within(from, to)(r) :: r.day
  }

  /** Reported on at least two distinct days of the trailing thirty. */
  function Eligible(rows: seq<PingRow>, w: Window): PingRow -> bool {
    (r: PingRow) => |ReportDays(rows, r.instance, w.from30, w.date)| >= 2
  }

  function EligibleRows(rows: seq<PingRow>, w: Window): seq<PingRow> {
    Filter(Eligible(rows, w), rows)
  }

  function Snapshot(rows: seq<PingRow>, w: Window): seq<PingRow> {
    Latest(EligibleRows(rows, w), w.from7, w.date)
  }

  function DatedOn(date: string): PingRow -> bool {
    (r: PingRow) => r.day == date
  }

  // ---- The aggregate ----

  function Users(field: string): PingRow -> int {
    (r: PingRow) => Num(r.body.users, field)
  }

  function Content(field: string): PingRow -> int {
    (r: PingRow) => Num(r.body.content, field)
  }

  function Feature(field: string): PingRow -> bool {
    (r: PingRow) => Enabled(r.body.features, field)
  }

  function Network(snapshot: seq<PingRow>, within30: seq<PingRow>, date: string): NetworkPoint {
    var onDay := Filter(DatedOn(date), snapshot);
    NetworkPoint(
      date, |onDay|, |snapshot|, |within30|,
      SumOf(Users("registered"), snapshot), SumOf(Users("active1d"), onDay),
      SumOf(Users("active7d"), snapshot), SumOf(Users("active30d"), snapshot),
      SumOf(Content("messages7d"), snapshot), SumOf(Content("storageMiB"), snapshot),
      |Filter(Feature("voice"), snapshot)|, |Filter(Feature("federation"), snapshot)|)
  }

  function VersionItems(): PingRow -> seq<Item> {
    (r: PingRow) => [Item(ReleaseVersion(r.body.version), 1)]
  }

  function CountryItems(): PingRow -> seq<Item> {
    (r: PingRow) => [Item(r.country, 1)]
  }

  const KINDS: seq<string> := ["web", "desktop", "mobile"]

  function UsersOn(kind: string): PingRow -> int {
    (r: PingRow) => Num(r.body.clients, kind)
  }

  function KindItem(r: PingRow, kind: string): seq<Item> {
    if UsersOn(kind)(r) == 0 then [] else [Item(kind, UsersOn(kind)(r))]
  }

  function ClientItems(): PingRow -> seq<Item> {
    (r: PingRow) => KindItem(r, "web") + KindItem(r, "desktop") + KindItem(r, "mobile")
  }

  /** `foldSmall` keeps a value three instances report, unless it is `other` itself. */
  function Named(): Entry -> bool {
    (e: Entry) => e.key != OTHER && e.holders >= MIN_INSTANCES_PER_DIMENSION
  }

  function Shared(): Entry -> bool {
    (e: Entry) => e.holders >= MIN_INSTANCES_PER_DIMENSION
  }

  function ByCountThenName(): (DimensionRow, DimensionRow) -> bool {
    (a: DimensionRow, b: DimensionRow) => a.count > b.count || (a.count == b.count && StrLeq(a.dimension, b.dimension))
  }

  /** The clients' comparator has no tie-break. */
  function ByCount(): (DimensionRow, DimensionRow) -> bool {
    (a: DimensionRow, b: DimensionRow) => a.count >= b.count
  }

  function Versions(snapshot: seq<PingRow>, date: string): seq<DimensionRow> {
    Folded(TallyOf(ConcatMap(VersionItems(), snapshot)), Named(), ByCountThenName(), date)
  }

  function Countries(snapshot: seq<PingRow>, date: string): seq<DimensionRow> {
    Folded(TallyOf(ConcatMap(CountryItems(), snapshot)), Named(), ByCountThenName(), date)
  }

  function Clients(snapshot: seq<PingRow>, date: string): seq<DimensionRow> {
    Folded(TallyOf(ConcatMap(ClientItems(), snapshot)), Shared(), ByCount(), date)
  }

  function AggregateIn(rows: seq<PingRow>, w: Window): TelemetryAggregate {
    var snapshot := Snapshot(rows, w);
    TelemetryAggregate(
      Network(snapshot, Latest(EligibleRows(rows, w), w.from30, w.date), w.date),
      Versions(snapshot, w.date), Countries(snapshot, w.date), Clients(snapshot, w.date))
  }

  /** What `aggregateTelemetry` returns; a date it cannot place throws. */
  function Aggregate(rows: seq<PingRow>, date: string): Result<TelemetryAggregate, DateError> {
    var w :- WindowOf(date);
    Ok(AggregateIn(rows, w))
  }

  // ---- The loops ----

  method LatestPerInstance(rows: seq<PingRow>, from: string, to: string) returns (latest: seq<PingRow>)
    ensures latest == Latest(rows, from, to)
  {
    hide Find, Put;
    latest := [];
    for i := 0 to |rows|
      invariant latest == Latest(rows[..i], from, to)
    {
      assert rows[..i + 1][..i] == rows[..i];
      var row := rows[i];
      if StrLess(row.day, from) || StrLess(to, row.day) { continue; }
      var current := Find(latest, InstanceOf(), row.instance);
      if current.None? || StrLess(current.value.day, row.day) {
        latest := Put(latest, InstanceOf(), row);
      }
    }
    assert rows[..|rows|] == rows;
  }

  method DaysByInstance(rows: seq<PingRow>, from: string, to: string) returns (days: map<string, set<string>>)
    ensures forall i :: ReportDays(rows, i, from, to) == if i in days then days[i] else {}
  {
    hide StrLess;
    days := map[];
    for n := 0 to |rows|
      invariant forall i :: ReportDays(rows[..n], i, from, to) == if i in days then days[i] else {}
    {
      var row := rows[n];
      assert rows[..n + 1] == rows[..n] + [row];
      ghost var before := days;
      if !(StrLess(row.day, from) || StrLess(to, row.day)) {
        days := days[row.instance := (if row.instance in days then days[row.instance] else {}) + {row.day}];
      }
      forall i ensures ReportDays(rows[..n + 1], i, from, to) == if i in days then days[i] else {} {
        DaysStep(rows[..n], row, i, from, to);
      }
    }
    assert rows[..|rows|] == rows;
  }

  lemma DaysStep(rows: seq<PingRow>, row: PingRow, instance: string, from: string, to: string)
    ensures ReportDays(rows + [row], instance, from, to)
         == ReportDays(rows, instance, from, to)
            + (if row.instance == instance && Within(from, to)(row) then {row.day} else {})
  {
    hide StrLeq;
    var all := rows + [row];
    assert forall r :: r in all <==> r in rows || r == row;
  }

  method TallySnapshot(snapshot: seq<PingRow>)
    returns (versions: seq<Entry>, countries: seq<Entry>, clients: seq<Entry>)
    ensures versions == TallyOf(ConcatMap(VersionItems(), snapshot))
    ensures countries == TallyOf(ConcatMap(CountryItems(), snapshot))
    ensures clients == TallyOf(ConcatMap(ClientItems(), snapshot))
  {
    hide ConcatMap, TallyOf, Bump, Num, ReleaseVersion;
    NoItems();
    versions, countries, clients := [], [], [];
    for i := 0 to |snapshot|
      invariant versions == TallyOf(ConcatMap(VersionItems(), snapshot[..i]))
      invariant countries == TallyOf(ConcatMap(CountryItems(), snapshot[..i]))
      invariant clients == TallyOf(ConcatMap(ClientItems(), snapshot[..i]))
    {
      var row := snapshot[i];
      ghost var done := snapshot[..i];
      assert snapshot[..i + 1] == done + [row];
      ItemsStep(VersionItems(), done, row);
      ItemsStep(CountryItems(), done, row);
      ItemsStep(ClientItems(), done, row);
      TallyStep(ConcatMap(VersionItems(), done), Item(ReleaseVersion(row.body.version), 1));
      TallyStep(ConcatMap(CountryItems(), done), Item(row.country, 1));
      versions := Bump(versions, Item(ReleaseVersion(row.body.version), 1));
      countries := Bump(countries, Item(row.country, 1));
      ghost var items := ConcatMap(ClientItems(), done);
      clients := TallyKind(items, clients, row, "web");
      clients := TallyKind(items + KindItem(row, "web"), clients, row, "desktop");
      clients := TallyKind(items + KindItem(row, "web") + KindItem(row, "desktop"), clients, row, "mobile");
      assert items + ClientItems()(row)
          == items + KindItem(row, "web") + KindItem(row, "desktop") + KindItem(row, "mobile");
    }
    assert snapshot[..|snapshot|] == snapshot;
  }

  /** One client kind of one row. The two maps by kind always hold the same keys, so one entry carries both numbers. */
  method TallyKind(ghost items: seq<Item>, clients: seq<Entry>, row: PingRow, kind: string) returns (next: seq<Entry>)
    requires clients == TallyOf(items)
    ensures next == TallyOf(items + KindItem(row, kind))
  {
    hide TallyOf, Bump, Num;
    var users := Num(row.body.clients, kind);
    if users == 0 {
      assert items + [] == items;
      return clients;
    }
    TallyStep(items, Item(kind, users));
    next := Bump(clients, Item(kind, users));
  }

  lemma NoItems()
    ensures TallyOf([]) == []
    ensures ConcatMap(VersionItems(), []) == ConcatMap(CountryItems(), []) == ConcatMap(ClientItems(), []) == []
  {
  }

  lemma ItemsStep(f: PingRow -> seq<Item>, done: seq<PingRow>, row: PingRow)
    ensures ConcatMap(f, done + [row]) == ConcatMap(f, done) + f(row)
  {
    ConcatMapJoins(f, done, [row]);
    ConcatMapOne(f, row);
  }

  lemma TallyStep(items: seq<Item>, item: Item)
    ensures TallyOf(items + [item]) == Bump(TallyOf(items), item)
  {
    assert (items + [item])[..|items|] == items;
  }

  /** The folding loop of `foldSmall`, and of the client kinds with their own test and order. */
  method Fold(entries: seq<Entry>, keep: Entry -> bool, leq: (DimensionRow, DimensionRow) -> bool, date: string)
    returns (rows: seq<DimensionRow>)
    ensures rows == Folded(entries, keep, leq, date)
  {
    hide Filter, SumOf;
    var other := 0;
    var kept: seq<DimensionRow> := [];
    NoneFolded(keep, date);
    for i := 0 to |entries|
      invariant kept == Map(RowOf(date), Filter(keep, entries[..i]))
      invariant other == SumOf(Total(), Filter(Small(keep), entries[..i]))
    {
      var e := entries[i];
      FilterStep(keep, entries, i);
      FilterStep(Small(keep), entries, i);
      SumOfJoins(Total(), Filter(Small(keep), entries[..i]), [e]);
      SumOfOne(Total(), e);
      assert Filter(keep, entries[..i]) + [] == Filter(keep, entries[..i]);
      assert Filter(Small(keep), entries[..i]) + [] == Filter(Small(keep), entries[..i]);
      if !keep(e) {
        other := other + e.total;
      } else {
        kept := kept + [DimensionRow(date, e.key, "", e.total, e.total)];
        assert kept == Map(RowOf(date), Filter(keep, entries[..i]) + [e]);
      }
    }
    assert entries[..|entries|] == entries;
    rows := Sort(leq, kept);
    if other > 0 {
      rows := rows + [DimensionRow(date, OTHER, "", other, other)];
    } else {
      assert rows + [] == rows;
    }
  }

  lemma NoneFolded(keep: Entry -> bool, date: string)
    ensures Map(RowOf(date), Filter(keep, [])) == [] && SumOf(Total(), Filter(Small(keep), [])) == 0
  {
  }

  method AggregateTelemetry(rows: seq<PingRow>, date: string) returns (aggregate: Result<TelemetryAggregate, DateError>)
    ensures aggregate == Aggregate(rows, date)
  {
    hide Latest, Filter, SumOf, Folded, ReportDays, AddDays, TallyOf;
    var from30 := AddDays(date, -29);
    if from30.Err? {
      return Err(from30.error);
    }
    var from7 := AddDays(date, -6);
    if from7.Err? {
      return Err(from7.error);
    }
    ghost var w := Window(from30.value, from7.value, date);
    var days := DaysByInstance(rows, from30.value, date);
    var reportedTwice := (r: PingRow) => r.instance in days && |days[r.instance]| >= 2;
    var eligibleRows := Filter(reportedTwice, rows);
    FilterSame(reportedTwice, Eligible(rows, w), rows);
    var snapshot := LatestPerInstance(eligibleRows, from7.value, date);
    var within30 := LatestPerInstance(eligibleRows, from30.value, date);
    var versionCounts, countryCounts, clientCounts := TallySnapshot(snapshot);
    var versions := Fold(versionCounts, Named(), ByCountThenName(), date);
    var countries := Fold(countryCounts, Named(), ByCountThenName(), date);
    var clients := Fold(clientCounts, Shared(), ByCount(), date);
    aggregate := Ok(TelemetryAggregate(Network(snapshot, within30, date), versions, countries, clients));
  }

  lemma {:induction false} FilterSame<T>(p: T -> bool, q: T -> bool, s: seq<T>)
    requires forall x | x in s :: p(x) == q(x)
    ensures Filter(p, s) == Filter(q, s)
  {
    if s != [] {
      assert s[0] in s;
      FilterSame(p, q, s[1..]);
    }
  }
}
