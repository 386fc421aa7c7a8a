// The telemetry receiver's ping table and its export, and the backfill's chunked read of it.
module Export {
  import opened Prelude
  import opened Sorting
  import opened Calendar
  import opened Merge

  datatype Ping = Ping(instance: string, day: string, receivedAt: string, country: string, schema: int, body: string)

  const MAX_EXPORT_DAYS: int := 31
  const MAX_EXPORT_ROWS: int := 10_000
  const MAX_EXPORT_BYTES: int := 8 * 1024 * 1024
  const TELEMETRY_RETENTION_DAYS: int := 90
  const TELEMETRY_CHUNK_DAYS: int := 31

  // ---- Days the receiver takes ----

  /** `Date.parse` of midnight on a shaped day, in days: a day past the month's end rolls over. */
  function ParseDay(s: string): Option<int>
    requires IsoShape(s)
  {
    var c := Matched(s);
    if 1 <= c.month <= 12 && 1 <= c.day <= 31 then Some(MakeDay(c.year, c.month - 1, c.day)) else None
  }

  predicate IsCalendarDay(s: string)
    requires IsoShape(s)
  {
    ParseDay(s).Some? && IsoDate(ParseDay(s).value) == s
  }

  /** A date that exists, of the years 0000 to 9999. */
  predicate CalendarDay(s: string) {
    IsoShape(s) && ValidCivil(Matched(s))
  }

  function DayIn(s: string): int
    requires CalendarDay(s)
  {
    DayNumber(Matched(s))
  }

  lemma ShapeDetermines(s: string, t: string)
    requires CalendarDay(s) && CalendarDay(t) && Matched(s) == Matched(t)
    ensures s == t
  {
    MatchedText(s);
    MatchedText(t);
  }

  lemma ParseOfCalendarDay(s: string)
    requires CalendarDay(s)
    ensures ParseDay(s) == Some(DayIn(s)) && IsoDate(DayIn(s)) == s
  {
    hide DayFromYear, Leap, CivilOfDay, CivilText, Value2;
    CivilRoundTrip(Matched(s));
    MatchedText(s);
  }

  lemma CalendarDayAccepted(s: string)
    requires IsoShape(s)
    ensures IsCalendarDay(s) <==> CalendarDay(s)
  {
    hide DayFromYear, MonthStart, Leap, MonthLength, Value2;
    if CalendarDay(s) {
      ParseOfCalendarDay(s);
    } else if IsCalendarDay(s) {
      RoundTripMatches(ParseDay(s).value, s);
    }
  }

  /** Text order of the days is their calendar order. */
  lemma CalendarDayOrder(s: string, t: string)
    requires CalendarDay(s) && CalendarDay(t)
    ensures StrLeq(s, t) <==> DayIn(s) <= DayIn(t)
    ensures s == t <==> DayIn(s) == DayIn(t)
  {
    hide IsoShape, Matched, Leap, DayFromYear, DayNumber, StrLess;
    ShapeOrder(t, s);
    ShapeOrder(s, t);
    DayNumberOrder(Matched(s), Matched(t));
    DayNumberOrder(Matched(t), Matched(s));
    if Matched(s) == Matched(t) { ShapeDetermines(s, t); }
  }

  /** `daysBetween`, rounding milliseconds to days. */
  function DaysBetween(from: string, to: string): Option<int>
    requires IsoShape(from) && IsoShape(to)
  {
    match (ParseDay(from), ParseDay(to))
    case (Some(f), Some(t)) => Some((2 * (t * MS_PER_DAY - f * MS_PER_DAY) + MS_PER_DAY) / (2 * MS_PER_DAY))
    case _ => None
  }

  lemma RoundedDays(f: int, t: int)
    ensures (2 * (t * MS_PER_DAY - f * MS_PER_DAY) + MS_PER_DAY) / (2 * MS_PER_DAY) == t - f
  {
  }

  lemma SpanOfCalendarDays(from: string, to: string)
    requires CalendarDay(from) && CalendarDay(to)
    ensures DaysBetween(from, to) == Some(DayIn(to) - DayIn(from))
  {
    hide ParseDay, ValidCivil, Matched, DayNumber, IsoShape, IsoDate;
    ParseOfCalendarDay(from);
    ParseOfCalendarDay(to);
    RoundedDays(DayIn(from), DayIn(to));
  }

  /** What the export route serves: two existing days, in order, at most 31 of them inclusive. */
  predicate Served(from: string, to: string) {
    CalendarDay(from) && CalendarDay(to) && 0 <= DayIn(to) - DayIn(from) < MAX_EXPORT_DAYS
  }

  // ---- The table ----

  function ByDayInstance(): (Ping, Ping) -> bool {
    (a: Ping, b: Ping) => if a.day != b.day then StrLeq(a.day, b.day) else StrLeq(a.instance, b.instance)
  }

  predicate SameKey(a: Ping, b: Ping) {
    a.day == b.day && a.instance == b.instance
  }

  /** One row per instance and day, dated on days that exist. */
  predicate Table(pings: seq<Ping>) {
    && (forall i, j :: 0 <= i < j < |pings| ==> !SameKey(pings[i], pings[j]))
    && (forall i :: 0 <= i < |pings| ==> CalendarDay(pings[i].day))
  }

  /** `INSERT ... ON CONFLICT(instance, day) DO UPDATE`. */
  function UpsertRow(pings: seq<Ping>, p: Ping): seq<Ping> {
    if pings == [] then [p]
    else if SameKey(pings[0], p) then [p] + pings[1..]
    else [pings[0]] + UpsertRow(pings[1..], p)
  }

  function Since(day: string): Ping -> bool {
    (p: Ping) => StrLeq(day, p.day)
  }

  function InRange(from: string, to: string): Ping -> bool {
    (p: Ping) => StrLeq(from, p.day) && StrLeq(p.day, to)
  }

  /** `SELECT ... WHERE day >= from AND day <= to ORDER BY day, instance`. */
  function RangeRows(pings: seq<Ping>, from: string, to: string): seq<Ping> {
    Sort(ByDayInstance(), Filter(InRange(from, to), pings))
  }

  class PingStore {
    var pings: seq<Ping>

    constructor ()
      ensures pings == [] && Table(pings)
    {
      pings := [];
    }

    /** The last write of an instance and day wins; every other row stays. */
    method UpsertPing(p: Ping)
      requires Table(pings) && CalendarDay(p.day)
      modifies this
      ensures Table(pings)
      ensures forall q :: q in pings <==> q == p || (q in old(pings) && !SameKey(q, p))
    {
      UpsertRows(pings, p);
      pings := UpsertRow(pings, p);
    }

    method DeleteOlderThan(day: string) returns (gone: nat)
      requires Table(pings)
      modifies this
      ensures Table(pings) && gone == |old(pings)| - |pings|
      ensures forall q :: q in pings <==> q in old(pings) && !StrLess(q.day, day)
    {
      FilterTable(Since(day), pings);
      gone := |pings| - |Filter(Since(day), pings)|;
      pings := Filter(Since(day), pings);
    }
  }

  lemma {:induction false} UpsertRows(pings: seq<Ping>, p: Ping)
    requires Table(pings) && CalendarDay(p.day)
    ensures Table(UpsertRow(pings, p))
    ensures forall q :: q in UpsertRow(pings, p) <==> q == p || (q in pings && !SameKey(q, p))
  {
    hide CalendarDay;
    if pings != [] {
      assert forall q | q in pings[1..] :: !SameKey(q, pings[0]);
      if !SameKey(pings[0], p) {
        UpsertRows(pings[1..], p);
        var t := UpsertRow(pings[1..], p);
        assert forall i :: 0 <= i < |t| ==> t[i] in t;
      } else {
        assert forall q | q in pings[1..] :: !SameKey(q, p);
      }
    }
  }

  lemma {:induction false} FilterTable(p: Ping -> bool, pings: seq<Ping>)
    requires Table(pings)
    ensures Table(Filter(p, pings))
  {
    hide CalendarDay, SameKey;
    if pings != [] {
      FilterTable(p, pings[1..]);
      var t := Filter(p, pings[1..]);
      forall i | 0 <= i < |t| ensures !SameKey(pings[0], t[i]) {
        assert t[i] in pings[1..];
      }
    }
  }

  // ---- One export ----

  datatype Answer = Refused(status: int) | Exported(lines: seq<Ping>, truncated: bool)

  function Bytes(rows: seq<Ping>, size: Ping -> nat): nat {
    if rows == [] then 0 else Bytes(rows[..|rows| - 1], size) + size(rows[|rows| - 1]) + 1
  }

  lemma {:induction false} BytesOfPrefix(rows: seq<Ping>, size: Ping -> nat, n: nat)
    requires n <= |rows|
    ensures Bytes(rows[..n], size) <= Bytes(rows, size)
  {
    if n < |rows| {
      assert rows[..|rows| - 1][..n] == rows[..n];
      BytesOfPrefix(rows[..|rows| - 1], size, n);
    } else {
      assert rows[..n] == rows;
    }
  }

  /** Every line costs its own length and a newline. */
  lemma {:induction false} BytesCount(rows: seq<Ping>, size: Ping -> nat)
    ensures Bytes(rows, size) == Sum(Map((p: Ping) => size(p) as int, rows)) + |rows|
  {
    if rows != [] {
      var n := |rows| - 1;
      var lengths := Map((p: Ping) => size(p) as int, rows);
      BytesCount(rows[..n], size);
      assert lengths == Map((p: Ping) => size(p) as int, rows[..n]) + [size(rows[n]) as int];
      SumConcat(Map((p: Ping) => size(p) as int, rows[..n]), [size(rows[n]) as int]);
    }
  }

  predicate TooLarge(rows: seq<Ping>, size: Ping -> nat) {
    |rows| >= MAX_EXPORT_ROWS || Bytes(rows, size) > MAX_EXPORT_BYTES
  }

  /** `exportRange`. */
  function ExportRange(pings: seq<Ping>, from: string, to: string, limit: nat): (rows: seq<Ping>)
    ensures rows <= RangeRows(pings, from, to)
    ensures |rows| < limit ==> rows == RangeRows(pings, from, to)
  {
    var rows := RangeRows(pings, from, to);
    if |rows| <= limit then rows else rows[..limit]
  }

  /**
   * `handleExport`; `size` gives the encoded length of a row's line.
   * An answer not marked as truncated is the whole range, and it is marked exactly when the range is too large.
   */
  method HandleExport(pings: seq<Ping>, authorized: bool, from: string, to: string, size: Ping -> nat)
    returns (answer: Answer)
    ensures !authorized ==> answer == Refused(401)
    ensures authorized && !Served(from, to) ==> answer == Refused(400)
    ensures authorized && Served(from, to) ==>
              && answer.Exported?
              && (answer.truncated <==> TooLarge(RangeRows(pings, from, to), size))
              && (!answer.truncated ==> answer.lines == RangeRows(pings, from, to))
              && answer.lines <= RangeRows(pings, from, to)
              && |answer.lines| <= MAX_EXPORT_ROWS && Bytes(answer.lines, size) <= MAX_EXPORT_BYTES
    ensures authorized ==> (answer.Exported? <==>
              CalendarDay(from) && CalendarDay(to) && 0 <= DayIn(to) - DayIn(from) <= 30)
    ensures answer.Exported? ==>
              && (answer.truncated <==>
                    |RangeRows(pings, from, to)| >= 10_000 || Bytes(RangeRows(pings, from, to), size) > 8_388_608)
              && |answer.lines| <= 10_000 && Bytes(answer.lines, size) <= 8_388_608
  {
    hide RangeRows, CalendarDay, IsoShape, IsCalendarDay, DaysBetween, DayIn;
    if !authorized {
      return Refused(401);
    }
    ServedShape(from, to);
    if !IsoShape(from) || !IsoShape(to) {
      return Refused(400);
    }
    CalendarDayAccepted(from);
    CalendarDayAccepted(to);
    if !IsCalendarDay(from) || !IsCalendarDay(to) {
      return Refused(400);
    }
    SpanOfCalendarDays(from, to);
    var span := DaysBetween(from, to);
    if span.None? || span.value < 0 || span.value >= MAX_EXPORT_DAYS {
      return Refused(400);
    }
    var rows := ExportRange(pings, from, to, MAX_EXPORT_ROWS);
    answer := WithinBudget(rows, size);
    ghost var whole := RangeRows(pings, from, to);
    assert rows == whole[..|rows|];
    BytesOfPrefix(whole, size, |rows|);
    assert whole[..|whole|] == whole;
  }

  lemma ServedShape(from: string, to: string)
    ensures Served(from, to) ==> IsoShape(from) && IsoShape(to)
  {
  }

  /** The byte budget: lines are taken while they fit. */
  method WithinBudget(rows: seq<Ping>, size: Ping -> nat) returns (answer: Answer)
    requires |rows| <= MAX_EXPORT_ROWS
    ensures answer.Exported? && answer.lines <= rows && Bytes(answer.lines, size) <= MAX_EXPORT_BYTES
    ensures answer.truncated <==> TooLarge(rows, size)
    ensures !answer.truncated ==> answer.lines == rows
    ensures answer.lines == rows || Bytes(rows[..|answer.lines| + 1], size) > MAX_EXPORT_BYTES
  {
    var lines: seq<Ping> := [];
    var bytes := 0;
    for i := 0 to |rows|
      invariant lines == rows[..i] && bytes == Bytes(lines, size) <= MAX_EXPORT_BYTES
    {
      assert rows[..i + 1][..i] == rows[..i];
      BytesOfPrefix(rows, size, i + 1);
      var lineBytes := size(rows[i]) + 1;
      if bytes + lineBytes > MAX_EXPORT_BYTES {
        break;
      }
      bytes := bytes + lineBytes;
      lines := lines + [rows[i]];
    }
    assert |lines| == |rows| ==> lines == rows;
    var truncated := |lines| < |rows| || |rows| == MAX_EXPORT_ROWS;
    answer := Exported(lines, truncated);
  }

  // ---- The rows of a range ----

  lemma ByDayInstanceTotal()
    ensures TotalPreorder(ByDayInstance())
  {
    forall x: Ping, y: Ping ensures ByDayInstance()(x, y) || ByDayInstance()(y, x) {
      StrLeqOrder(x.day, y.day, "");
      StrLeqOrder(x.instance, y.instance, "");
    }
    forall x: Ping, y: Ping, z: Ping | ByDayInstance()(x, y) && ByDayInstance()(y, z)
      ensures ByDayInstance()(x, z)
    {
      hide StrLeq;
      StrLeqOrder(x.day, y.day, z.day);
      StrLeqOrder(y.day, z.day, x.day);
      StrLeqOrder(z.day, x.day, y.day);
      StrLeqOrder(x.instance, y.instance, z.instance);
    }
  }

  /** Rows the order cannot tell apart are one row. */
  lemma NoTies(pings: seq<Ping>)
    requires Table(pings)
    ensures forall x, y :: x in pings && y in pings && ByDayInstance()(x, y) && ByDayInstance()(y, x) ==> x == y
  {
    hide StrLeq, CalendarDay;
    forall x, y | x in pings && y in pings && ByDayInstance()(x, y) && ByDayInstance()(y, x) ensures x == y {
      StrLeqOrder(x.day, y.day, "");
      StrLeqOrder(x.instance, y.instance, "");
      var i, j :| 0 <= i < |pings| && pings[i] == x && 0 <= j < |pings| && pings[j] == y;
      assert !(i < j) && !(j < i);
    }
  }

  /** Every stored row of the range once, in (day, instance) order. */
  lemma RangeIsComplete(pings: seq<Ping>, from: string, to: string)
    requires Table(pings)
    ensures var rows := RangeRows(pings, from, to);
            && Sorted(ByDayInstance(), rows)
            && (forall i, j :: 0 <= i < j < |rows| ==> !SameKey(rows[i], rows[j]))
            && (forall p :: p in rows <==> p in pings && StrLeq(from, p.day) && StrLeq(p.day, to))
  {
    var kept, rows := Filter(InRange(from, to), pings), RangeRows(pings, from, to);
    ByDayInstanceTotal();
    SortSorts(ByDayInstance(), kept);
    FilterTable(InRange(from, to), pings);
    assert forall p :: p in rows <==> p in multiset(rows);
    assert forall p :: p in kept <==> p in multiset(kept);
    NoTies(kept);
    forall i, j | 0 <= i < j < |rows| ensures !SameKey(rows[i], rows[j]) {
      OneOfEach(kept, rows, i, j);
      assert rows[i] in rows && rows[j] in rows;
      SameKeyTies(rows[i], rows[j]);
    }
  }

  lemma SameKeyTies(x: Ping, y: Ping)
    ensures SameKey(x, y) ==> ByDayInstance()(x, y) && ByDayInstance()(y, x)
  {
    StrLeqOrder(x.instance, x.instance, "");
  }

  lemma OneOfEach(kept: seq<Ping>, rows: seq<Ping>, i: nat, j: nat)
    requires Table(kept) && multiset(rows) == multiset(kept) && i < j < |rows|
    ensures rows[i] != rows[j]
  {
    assert rows[i] in multiset(kept);
    CountInTable(kept, rows[i]);
    if rows[i] == rows[j] { TwiceInSeq(rows, i, j); }
  }

  lemma CountInTable(kept: seq<Ping>, p: Ping)
    requires Table(kept) && p in kept
    ensures multiset(kept)[p] == 1
  {
    var k :| 0 <= k < |kept| && kept[k] == p;
    assert kept == kept[..k] + [kept[k]] + kept[k + 1..];
    assert kept[k] !in kept[..k] && kept[k] !in kept[k + 1..];
  }

  lemma {:induction false} FilterSplits(p: Ping -> bool, q: Ping -> bool, r: Ping -> bool, pings: seq<Ping>)
    requires forall x | x in pings :: r(x) <==> p(x) || q(x)
    requires forall x | x in pings :: !(p(x) && q(x))
    ensures multiset(Filter(r, pings)) == multiset(Filter(p, pings)) + multiset(Filter(q, pings))
  {
    if pings != [] {
      FilterSplits(p, q, r, pings[1..]);
      assert pings[0] in pings;
    }
  }

  /** Adjoining ranges concatenate: nothing is lost or repeated at the seam. */
  lemma RangesJoin(pings: seq<Ping>, from: string, mid: string, next: string, to: string)
    requires Table(pings) && CalendarDay(from) && CalendarDay(mid) && CalendarDay(next) && CalendarDay(to)
    requires DayIn(from) <= DayIn(next) == DayIn(mid) + 1 <= DayIn(to) + 1
    ensures RangeRows(pings, from, to) == RangeRows(pings, from, mid) + RangeRows(pings, next, to)
  {
    hide CalendarDay, DayIn, StrLeq;
    var left, right, whole := RangeRows(pings, from, mid), RangeRows(pings, next, to), RangeRows(pings, from, to);
    RangeIsComplete(pings, from, mid);
    RangeIsComplete(pings, next, to);
    RangeIsComplete(pings, from, to);
    SeamSplits(pings, from, mid, next, to);
    FilterSplits(InRange(from, mid), InRange(next, to), InRange(from, to), pings);
    SeamSorted(left, right, mid, next);
    ByDayInstanceTotal();
    NoTies(pings);
    assert multiset(left + right) == multiset(whole);
    SortedSameElements(ByDayInstance(), whole, left + right);
  }

  lemma SeamSplits(pings: seq<Ping>, from: string, mid: string, next: string, to: string)
    requires Table(pings) && CalendarDay(from) && CalendarDay(mid) && CalendarDay(next) && CalendarDay(to)
    requires DayIn(from) <= DayIn(next) == DayIn(mid) + 1 <= DayIn(to) + 1
    ensures forall x | x in pings :: InRange(from, to)(x) <==> InRange(from, mid)(x) || InRange(next, to)(x)
    ensures forall x | x in pings :: !(InRange(from, mid)(x) && InRange(next, to)(x))
  {
    hide StrLeq, DayIn;
    forall x | x in pings
      ensures InRange(from, to)(x) <==> InRange(from, mid)(x) || InRange(next, to)(x)
      ensures !(InRange(from, mid)(x) && InRange(next, to)(x))
    {
      CalendarDayOrder(from, x.day);
      CalendarDayOrder(x.day, mid);
      CalendarDayOrder(next, x.day);
      CalendarDayOrder(x.day, to);
    }
  }

  lemma SeamSorted(left: seq<Ping>, right: seq<Ping>, mid: string, next: string)
    requires Sorted(ByDayInstance(), left) && Sorted(ByDayInstance(), right)
    requires CalendarDay(mid) && CalendarDay(next) && DayIn(mid) < DayIn(next)
    requires forall x | x in left :: StrLeq(x.day, mid)
    requires forall y | y in right :: StrLeq(next, y.day)
    ensures Sorted(ByDayInstance(), left + right)
  {
    hide StrLeq, CalendarDay, DayIn;
    CalendarDayOrder(mid, next);
    CalendarDayOrder(next, mid);
    forall i, j | 0 <= i < |left| && 0 <= j < |right| ensures ByDayInstance()(left[i], right[j]) {
      assert left[i] in left && right[j] in right;
      StrLeqOrder(left[i].day, mid, next);
      StrLeqOrder(left[i].day, next, right[j].day);
      StrLeqOrder(next, left[i].day, mid);
    }
  }

  lemma EmptyRange(pings: seq<Ping>, from: string, to: string)
    requires Table(pings) && CalendarDay(from) && CalendarDay(to) && DayIn(to) < DayIn(from)
    ensures RangeRows(pings, from, to) == []
  {
    RangeIsComplete(pings, from, to);
    var rows := RangeRows(pings, from, to);
    if rows != [] {
      assert rows[0] in rows;
      CalendarDayOrder(from, rows[0].day);
      CalendarDayOrder(rows[0].day, to);
    }
  }

  // ---- The chunked read ----

  datatype Request = Request(from: string, to: string)

  datatype FetchError = BadDate | Status(code: int) | Truncated(request: Request)

  /** The requests cover days `first` to `next - 1` with no gap or overlap, each within the receiver's limit. */
  predicate Tiles(requests: seq<Request>, first: int, next: int) {
    if requests == [] then first == next
    else
      var last := requests[|requests| - 1];
      && Served(last.from, last.to)
      && DayIn(last.to) == next - 1
      && Tiles(requests[..|requests| - 1], first, DayIn(last.from))
  }

  predicate Whole(pings: seq<Ping>, request: Request, size: Ping -> nat) {
    !TooLarge(RangeRows(pings, request.from, request.to), size)
  }

  /** The requests adjoin, starting on day `first`. */
  ghost predicate Adjoining(requests: seq<Request>, first: int) {
    exists next :: Tiles(requests, first, next)
  }

  function Back(today: string, days: int): string
    requires RealDate(today)
  {
    IsoDate(DayOf(today) - days)
  }

  lemma BackIsDay(today: string, days: int)
    requires RealDate(today) && 0 <= days < 100
    ensures AddDays(today, -days) == Ok(Back(today, days))
    ensures CalendarDay(Back(today, days)) && DayIn(Back(today, days)) == DayOf(today) - days
  {
    hide CivilText, CivilOfDay, DayFromYear, Leap, MonthLength, Matched;
    AddDaysSteps(today, -days);
    RealDateRange(today);
    YearsAscend(0, 100);
    YearInRange(DayOf(today) - days);
    TextMatches(CivilOfDay(DayOf(today) - days));
  }

  lemma NoDaysYet(pings: seq<Ping>, today: string)
    requires Table(pings) && RealDate(today)
    ensures RangeRows(pings, Back(today, 89), Back(today, 90)) == []
  {
    BackIsDay(today, 89);
    BackIsDay(today, 90);
    EmptyRange(pings, Back(today, 89), Back(today, 90));
  }

  lemma TilesStep(requests: seq<Request>, request: Request, first: int, next: int)
    requires Served(request.from, request.to) && DayIn(request.to) == next - 1
    requires Tiles(requests, first, DayIn(request.from))
    ensures Tiles(requests + [request], first, next)
  {
    assert (requests + [request])[..|requests|] == requests;
  }

  lemma ServedSpan(from: string, to: string)
    requires CalendarDay(from) && CalendarDay(to) && 0 <= DayIn(to) - DayIn(from) < 31
    ensures Served(from, to)
  {
    hide CalendarDay, DayIn;
  }

  lemma ChunkTiles(today: string, requests: seq<Request>, start: int, end: int)
    requires RealDate(today) && 1 <= end <= start <= 89 && start - end < 31
    requires Tiles(requests, DayOf(today) - 89, DayOf(today) - start)
    ensures var request := Request(Back(today, start), Back(today, end));
            Tiles(requests + [request], DayOf(today) - 89, DayOf(today) - (end - 1))
  {
    hide *;
    BackIsDay(today, start);
    BackIsDay(today, end);
    var request := Request(Back(today, start), Back(today, end));
    var t := DayOf(today);
    ServedSpan(request.from, request.to);
    TilesStep(requests, request, t - 89, t - (end - 1));
  }

  lemma ChunkJoins(pings: seq<Ping>, today: string, start: int, end: int)
    requires Table(pings) && RealDate(today) && 1 <= end <= start <= 89
    ensures RangeRows(pings, Back(today, 89), Back(today, end))
         == RangeRows(pings, Back(today, 89), Back(today, start + 1))
            + RangeRows(pings, Back(today, start), Back(today, end))
  {
    hide CalendarDay, DayIn, RealDate, DayOf, Back, RangeRows, Table;
    BackIsDay(today, 89);
    BackIsDay(today, start + 1);
    BackIsDay(today, start);
    BackIsDay(today, end);
    RangesJoin(pings, Back(today, 89), Back(today, start + 1), Back(today, start), Back(today, end));
  }

  /** One chunk over the wire: any answer but a complete one throws. */
  method FetchTelemetry(pings: seq<Ping>, size: Ping -> nat, request: Request)
    returns (rows: Result<seq<Ping>, FetchError>)
    ensures rows.Ok? <==> Served(request.from, request.to) && Whole(pings, request, size)
    ensures rows.Ok? ==> rows.value == RangeRows(pings, request.from, request.to)
  {
    var answer := HandleExport(pings, true, request.from, request.to, size);
    match answer
    case Refused(status) => rows := Err(Status(status));
    case Exported(lines, truncated) => rows := if truncated then Err(Truncated(request)) else Ok(lines);
  }

  /** The backfill's loop: 89 days before today up to yesterday, oldest chunk first. */
  method FetchWindow(pings: seq<Ping>, size: Ping -> nat, today: string)
    returns (window: Result<seq<Ping>, FetchError>, requests: seq<Request>)
    requires Table(pings)
    ensures !RealDate(today) ==> window == Err(BadDate) && requests == []
    ensures RealDate(today) ==>
              && Adjoining(requests, DayOf(today) - 89)
              && (window.Ok? <==> forall i :: 0 <= i < |requests| ==> Whole(pings, requests[i], size))
    ensures window.Ok? ==>
              && RealDate(today) && Tiles(requests, DayOf(today) - 89, DayOf(today))
              && window.value == RangeRows(pings, Back(today, 89), Back(today, 1))
  {
    hide RealDate, DayOf, AddDays, Back, CalendarDay, DayIn, RangeRows, TooLarge, Table, Tiles;
    requests := [];
    AddDaysSteps(today, 0);
    if AddDays(today, 0).Err? {
      return Err(BadDate), [];
    }
    NoDaysYet(pings, today);
    NoTiles(DayOf(today) - 89);
    var fetched: seq<Ping> := [];
    var start := TELEMETRY_RETENTION_DAYS - 1;
    while start >= 1
      invariant start in {89, 58, 27, -4}
      invariant Tiles(requests, DayOf(today) - 89, DayOf(today) - Open(start))
      invariant forall i :: 0 <= i < |requests| ==> Whole(pings, requests[i], size)
      invariant fetched == RangeRows(pings, Back(today, 89), Back(today, Open(start) + 1))
    {
      var end := if start - TELEMETRY_CHUNK_DAYS + 1 > 1 then start - TELEMETRY_CHUNK_DAYS + 1 else 1;
      BackIsDay(today, start);
      BackIsDay(today, end);
      ChunkTiles(today, requests, start, end);
      ChunkJoins(pings, today, start, end);
      var request := Request(AddDays(today, -start).value, AddDays(today, -end).value);
      requests := requests + [request];
      LastServed(requests, DayOf(today) - 89, DayOf(today) - (end - 1));
      var chunk := FetchTelemetry(pings, size, request);
      if chunk.Err? {
        assert !Whole(pings, requests[|requests| - 1], size);
        return Err(chunk.error), requests;
      }
      fetched := fetched + chunk.value;
      start := start - TELEMETRY_CHUNK_DAYS;
    }
    window := Ok(fetched);
  }

  /** The oldest offset not yet asked for; 0 is today, which is never asked for. */
  function Open(start: int): int {
    if start < 1 then 0 else start
  }

  lemma NoTiles(first: int)
    ensures Tiles([], first, first)
  {
  }

  lemma LastServed(requests: seq<Request>, first: int, next: int)
    requires requests != [] && Tiles(requests, first, next)
    ensures Served(requests[|requests| - 1].from, requests[|requests| - 1].to)
  {
  }
}
