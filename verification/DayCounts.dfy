// Dense day-by-day fills: `countByDay` (events per day) and the backfill's `cumulativeByDay` (running totals).
module DayCounts {
  import opened Prelude
  import opened Sorting
  import opened Calendar

  datatype CountedDay = CountedDay(date: string, count: nat)

  datatype CountPoint = CountPoint(date: string, total: nat)

  datatype FillError = BadDate(date: string) | Implausible(days: int)

  /** Longest reconstruction the backfill accepts. */
  const MAX_RECONSTRUCTED_DAYS := 20_000

  /** One row per day from day `from` on, each with the number of events dated that day. */
  function Counted(dates: seq<string>, from: int, n: nat): (rows: seq<CountedDay>)
    ensures |rows| == n
  {
    seq(n, k requires 0 <= k < n => CountedDay(IsoDate(from + k), multiset(dates)[IsoDate(from + k)]))
  }

  lemma CountedStep(dates: seq<string>, from: int, n: nat)
    ensures Counted(dates, from, n + 1)
         == Counted(dates, from, n) + [CountedDay(IsoDate(from + n), multiset(dates)[IsoDate(from + n)])]
    ensures CountsOf(Counted(dates, from, n + 1))
         == CountsOf(Counted(dates, from, n)) + [multiset(dates)[IsoDate(from + n)]]
  {
    hide IsoDate;
  }

  lemma TotalsStep(dates: seq<string>, from: int, n: nat)
    ensures Totals(dates, from, n + 1)
         == Totals(dates, from, n) + [CountPoint(IsoDate(from + n), CountUpTo(dates, from + n))]
  {
    hide IsoDate, CountUpTo;
  }

  predicate OnOrBefore(date: string, day: int) {
    RealDate(date) && DayOf(date) <= day
  }

  /** Events with a real date on or before `day`. */
  function CountUpTo(dates: seq<string>, day: int): nat {
    if dates == [] then 0 else (if OnOrBefore(dates[0], day) then 1 else 0) + CountUpTo(dates[1..], day)
  }

  function Totals(dates: seq<string>, from: int, n: nat): (rows: seq<CountPoint>)
    ensures |rows| == n
  {
    seq(n, k requires 0 <= k < n => CountPoint(IsoDate(from + k), CountUpTo(dates, from + k)))
  }

  function ByDate(): (string, string) -> bool {
    (a, b) => StrLeq(a, b)
  }

  lemma ByDateTotal()
    ensures TotalPreorder(ByDate())
  {
    forall x, y, z ensures ByDate()(x, y) || ByDate()(y, x)
      ensures ByDate()(x, y) && ByDate()(y, z) ==> ByDate()(x, z)
    {
      StrLeqOrder(x, y, z);
    }
  }

  function Earliest(dates: seq<string>): (d: string)
    requires dates != []
    ensures d in dates && forall e | e in dates :: StrLeq(d, e)
  {
    ByDateTotal();
    SortSorts(ByDate(), dates);
    var s := Sort(ByDate(), dates);
    SortedEnds(dates, s);
    s[0]
  }

  function Latest(dates: seq<string>): (d: string)
    requires dates != []
    ensures d in dates && forall e | e in dates :: StrLeq(e, d)
  {
    ByDateTotal();
    SortSorts(ByDate(), dates);
    var s := Sort(ByDate(), dates);
    SortedEnds(dates, s);
    s[|s| - 1]
  }

  lemma SortedEnds(dates: seq<string>, s: seq<string>)
    requires dates != [] && Sorted(ByDate(), s) && multiset(s) == multiset(dates)
    ensures |s| == |dates| && s[0] in dates && s[|s| - 1] in dates
    ensures forall e | e in dates :: StrLeq(s[0], e) && StrLeq(e, s[|s| - 1])
  {
    assert |s| == |multiset(s)| == |dates|;
    assert s[0] in multiset(dates) && s[|s| - 1] in multiset(dates);
    forall e | e in dates ensures StrLeq(s[0], e) && StrLeq(e, s[|s| - 1]) {
      assert e in multiset(s);
      var i :| 0 <= i < |s| && s[i] == e;
      assert i == 0 || ByDate()(s[0], s[i]);
      assert i == |s| - 1 || ByDate()(s[i], s[|s| - 1]);
      StrAsym(e, e);
    }
  }

  /** The per-day tally of the events between two dates, both included. */
  method Tally(dates: seq<string>, from: string, through: string) returns (perDay: map<string, nat>)
    ensures forall d :: d in perDay <==> d in dates && StrLeq(from, d) && StrLeq(d, through)
    ensures forall d | d in perDay :: perDay[d] == multiset(dates)[d]
  {
    perDay := map[];
    for i := 0 to |dates|
      invariant forall d :: d in perDay <==> d in dates[..i] && StrLeq(from, d) && StrLeq(d, through)
      invariant forall d | d in perDay :: perDay[d] == multiset(dates[..i])[d]
    {
      hide StrLess;
      assert dates[..i + 1] == dates[..i] + [dates[i]];
      var d := dates[i];
      if CompareStrings(d, from) < 0 || CompareStrings(d, through) > 0 {
        continue;
      }
      assert d !in perDay ==> multiset(dates[..i])[d] == 0;
      perDay := perDay[d := (if d in perDay then perDay[d] else 0) + 1];
    }
    assert dates[..|dates|] == dates;
  }

  /** The per-day tally of every event. */
  method TallyAll(dates: seq<string>) returns (perDay: map<string, nat>)
    ensures forall d :: d in perDay <==> d in dates
    ensures forall d | d in perDay :: perDay[d] == multiset(dates)[d]
  {
    perDay := map[];
    for i := 0 to |dates|
      invariant forall d :: d in perDay <==> d in dates[..i]
      invariant forall d | d in perDay :: perDay[d] == multiset(dates[..i])[d]
    {
      assert dates[..i + 1] == dates[..i] + [dates[i]];
      var d := dates[i];
      assert d !in perDay ==> multiset(dates[..i])[d] == 0;
      perDay := perDay[d := (if d in perDay then perDay[d] else 0) + 1];
    }
    assert dates[..|dates|] == dates;
  }

  method CountByDay(dates: seq<string>, from: string, through: string)
    returns (r: Result<seq<CountedDay>, FillError>)
    ensures r.Ok? <==> RealDate(from) && RealDate(through)
    ensures r.Ok? ==>
              var n := DayOf(through) - DayOf(from) + 1;
              r.value == Counted(dates, DayOf(from), if n < 0 then 0 else n)
  {
    hide RealDate, DayOf, IsoDate, UtcDayStart, DayFromYear, StrLess;
    var perDay := Tally(dates, from, through);
    UtcDayStartAccepts(through);
    UtcDayStartAccepts(from);
    var end := UtcDayStart(through);
    if end.Err? { return Err(BadDate(through)); }
    var start := UtcDayStart(from);
    if start.Err? { return Err(BadDate(from)); }
    var rows: seq<CountedDay> := [];
    var time := start.value;
    while time <= end.value
      invariant time == (DayOf(from) + |rows|) * MS_PER_DAY
      invariant |rows| == 0 || DayOf(from) + |rows| <= DayOf(through) + 1
      invariant rows == Counted(dates, DayOf(from), |rows|)
    {
      var day := DayOf(from) + |rows|;
      var date := IsoDate(time / MS_PER_DAY);
      BetweenReal(from, through, day);
      RealDateOrder(date, from);
      RealDateOrder(through, date);
      assert date !in perDay ==> multiset(dates)[date] == 0;
      CountedStep(dates, DayOf(from), |rows|);
      rows := rows + [CountedDay(date, if date in perDay then perDay[date] else 0)];
      time := time + MS_PER_DAY;
    }
    r := Ok(rows);
  }

  lemma BetweenReal(from: string, through: string, day: int)
    requires RealDate(from) && RealDate(through) && DayOf(from) <= day <= DayOf(through)
    ensures RealDate(IsoDate(day)) && DayOf(IsoDate(day)) == day
  {
    RealDateRange(from);
    RealDateRange(through);
    DayIsReal(day);
  }

  method CumulativeByDay(dates: seq<string>, through: string) returns (r: Result<seq<CountPoint>, FillError>)
    ensures dates == [] ==> r == Ok([])
    ensures dates != [] ==>
              var first, last := Earliest(dates), Latest(dates);
              && (r.Ok? <==> RealDate(first) && RealDate(last) && RealDate(through)
                             && SpanDays(first, last, through) <= 20_000)
              && (r.Err? ==> r.error == if !RealDate(first) then BadDate(first)
                                        else if !RealDate(last) then BadDate(last)
                                        else if !RealDate(through) then BadDate(through)
                                        else Implausible(SpanDays(first, last, through)))
              && (r.Ok? ==> SpanDays(first, last, through) > 0
                            && r.value == Totals(dates, DayOf(first), SpanDays(first, last, through)))
  {
    hide RealDate, DayOf, IsoDate, UtcDayStart, DayFromYear, StrLess, Totals, CountUpTo, Sort;
    var perDay := TallyAll(dates);
    if dates == [] { return Ok([]); }
    var first, last := Earliest(dates), Latest(dates);
    UtcDayStartAccepts(first);
    UtcDayStartAccepts(last);
    UtcDayStartAccepts(through);
    var startTime := UtcDayStart(first);
    if startTime.Err? { return Err(BadDate(first)); }
    var lastTime := UtcDayStart(last);
    if lastTime.Err? { return Err(BadDate(last)); }
    var throughTime := UtcDayStart(through);
    if throughTime.Err? { return Err(BadDate(through)); }
    var endTime := if lastTime.value > throughTime.value then lastTime.value else throughTime.value;
    var spanDays := (endTime - startTime.value) / MS_PER_DAY + 1;
    SpanIsWhole(first, last, through);
    if spanDays > MAX_RECONSTRUCTED_DAYS { return Err(Implausible(spanDays)); }
    var rows: seq<CountPoint> := [];
    var running := 0;
    var time := startTime.value;
    NothingBefore(dates);
    while time <= endTime
      invariant time == (DayOf(first) + |rows|) * MS_PER_DAY
      invariant |rows| <= spanDays
      invariant running == CountUpTo(dates, DayOf(first) + |rows| - 1)
      invariant rows == Totals(dates, DayOf(first), |rows|)
    {
      var day := DayOf(first) + |rows|;
      var date := IsoDate(time / MS_PER_DAY);
      BetweenReal(first, if DayOf(last) > DayOf(through) then last else through, day);
      NextDayCounts(dates, day);
      assert date !in perDay ==> multiset(dates)[date] == 0;
      running := running + if date in perDay then perDay[date] else 0;
      TotalsStep(dates, DayOf(first), |rows|);
      rows := rows + [CountPoint(date, running)];
      time := time + MS_PER_DAY;
    }
    r := Ok(rows);
  }

  /** Days from the first event to the later of the last event and `through`. */
  function SpanDays(first: string, last: string, through: string): int
    requires RealDate(first) && RealDate(last) && RealDate(through)
  {
    (if DayOf(last) > DayOf(through) then DayOf(last) else DayOf(through)) - DayOf(first) + 1
  }

  lemma SpanIsWhole(first: string, last: string, through: string)
    requires RealDate(first) && RealDate(last) && RealDate(through) && StrLeq(first, last)
    ensures SpanDays(first, last, through) > 0
    ensures var e := if DayOf(last) > DayOf(through) then DayOf(last) else DayOf(through);
            (e * MS_PER_DAY - DayOf(first) * MS_PER_DAY) / MS_PER_DAY + 1 == SpanDays(first, last, through)
  {
    RealDateOrder(last, first);
  }

  lemma {:induction false} CountZero(dates: seq<string>, day: int)
    requires forall d | d in dates && RealDate(d) :: DayOf(d) > day
    ensures CountUpTo(dates, day) == 0
  {
    if dates != [] {
      assert dates[0] in dates;
      CountZero(dates[1..], day);
    }
  }

  lemma NothingBefore(dates: seq<string>)
    requires dates != [] && RealDate(Earliest(dates))
    ensures CountUpTo(dates, DayOf(Earliest(dates)) - 1) == 0
  {
    forall d | d in dates && RealDate(d) ensures DayOf(d) >= DayOf(Earliest(dates)) {
      RealDateOrder(d, Earliest(dates));
    }
    CountZero(dates, DayOf(Earliest(dates)) - 1);
  }

  /** The running total grows by the day's own events. */
  lemma {:induction false} NextDayCounts(dates: seq<string>, day: int)
    requires RealDate(IsoDate(day)) && DayOf(IsoDate(day)) == day
    ensures CountUpTo(dates, day) == CountUpTo(dates, day - 1) + multiset(dates)[IsoDate(day)]
  {
    if dates != [] {
      hide RealDate, DayOf, IsoDate, StrLess;
      NextDayCounts(dates[1..], day);
      assert dates == [dates[0]] + dates[1..];
      if RealDate(dates[0]) { RealDateOrder(dates[0], IsoDate(day)); }
    }
  }

  lemma {:induction false} CountMonotone(dates: seq<string>, a: int, b: int)
    requires a <= b
    ensures CountUpTo(dates, a) <= CountUpTo(dates, b) <= |dates|
  {
    if dates != [] { CountMonotone(dates[1..], a, b); }
  }

  lemma {:induction false} CountAll(dates: seq<string>, day: int)
    ensures CountUpTo(dates, day) == |dates| <==> forall d | d in dates :: OnOrBefore(d, day)
  {
    if dates != [] {
      CountMonotone(dates[1..], day, day);
      CountAll(dates[1..], day);
      assert forall d :: d in dates <==> d == dates[0] || d in dates[1..];
    }
  }

  /** Totals never fall, and the last one is the event count exactly when every event has a real date. */
  lemma TotalsEnd(dates: seq<string>, through: string)
    requires dates != [] && RealDate(Earliest(dates)) && RealDate(Latest(dates)) && RealDate(through)
    ensures var first, n := Earliest(dates), SpanDays(Earliest(dates), Latest(dates), through);
            && n > 0
            && (forall i, j :: 0 <= i <= j < n ==>
                  Totals(dates, DayOf(first), n)[i].total <= Totals(dates, DayOf(first), n)[j].total)
            && (Totals(dates, DayOf(first), n)[n - 1].total == |dates| <==> forall d | d in dates :: RealDate(d))
  {
    hide RealDate, DayOf, IsoDate, UtcDayStart, DayFromYear, StrLess;
    var first, last := Earliest(dates), Latest(dates);
    SpanIsWhole(first, last, through);
    var n := SpanDays(first, last, through);
    forall i, j | 0 <= i <= j < n
      ensures Totals(dates, DayOf(first), n)[i].total <= Totals(dates, DayOf(first), n)[j].total
    {
      CountMonotone(dates, DayOf(first) + i, DayOf(first) + j);
    }
    CountAll(dates, DayOf(first) + n - 1);
    forall d | d in dates && RealDate(d) ensures OnOrBefore(d, DayOf(first) + n - 1) {
      RealDateOrder(last, d);
    }
  }

  /** An event on a shaped date of the calendar's gaps is neither counted nor refused. */
  lemma UnrealDateIsDropped()
    ensures var dates, through := ["2024-02-28", "2024-02-30", "2024-03-01"], "2024-03-01";
            && !RealDate(dates[1]) && RealDate(through)
            && RealDate(Earliest(dates)) && RealDate(Latest(dates))
            && var n := SpanDays(Earliest(dates), Latest(dates), through);
               && 0 < n <= MAX_RECONSTRUCTED_DAYS
               && Totals(dates, DayOf(Earliest(dates)), n)[n - 1].total < |dates|
  {
    hide DayOf, StrLess, StrLeq, Earliest, Latest, Totals;
    var dates, through := ["2024-02-28", "2024-02-30", "2024-03-01"], "2024-03-01";
    LeapYearShapes();
    EndsOfThree(dates[0], dates[1], dates[2]);
    TotalsEnd(dates, through);
    ThreeDays();
    var n := SpanDays(Earliest(dates), Latest(dates), through);
    assert dates[1] in dates;
    TotalsBounded(dates, DayOf(Earliest(dates)), n);
  }

  lemma LeapYearShapes()
    ensures RealDate("2024-02-28") && !RealDate("2024-02-30") && RealDate("2024-03-01")
    ensures StrLess("2024-02-28", "2024-02-30") && StrLess("2024-02-30", "2024-03-01")
    ensures Matched("2024-02-28") == Civil(2024, 2, 28) && Matched("2024-03-01") == Civil(2024, 3, 1)
  {
    hide StrLess, DayFromYear, DayOf;
    ShapeOrder("2024-02-28", "2024-02-30");
    ShapeOrder("2024-02-30", "2024-03-01");
  }

  lemma ThreeDays()
    requires RealDate("2024-02-28") && RealDate("2024-03-01")
    requires Matched("2024-02-28") == Civil(2024, 2, 28) && Matched("2024-03-01") == Civil(2024, 3, 1)
    ensures DayOf("2024-03-01") == DayOf("2024-02-28") + 2
  {
    hide Matched, RealDate, DayFromYear;
  }

  lemma EndsOfThree(a: string, b: string, c: string)
    requires StrLess(a, b) && StrLess(b, c)
    ensures Earliest([a, b, c]) == a && Latest([a, b, c]) == c
  {
    hide StrLess, Earliest, Latest;
    var dates := [a, b, c];
    assert dates[0] in dates && dates[2] in dates;
    StrTrans(a, b, c);
    StrLeqOrder(Earliest(dates), a, "");
    StrLeqOrder(Latest(dates), c, "");
    assert StrLess(a, b) ==> !StrLeq(b, a);
  }

  lemma TotalsBounded(dates: seq<string>, start: int, n: int)
    requires n > 0
    ensures Totals(dates, start, n)[n - 1].total <= |dates|
  {
    CountMonotone(dates, start + n - 1, start + n - 1);
  }

  function CountsOf(rows: seq<CountedDay>): seq<int> {
    seq(|rows|, i requires 0 <= i < |rows| => rows[i].count)
  }

  /** The running totals are the prefix sums of the daily counts over the same range. */
  lemma {:induction false} TotalsArePrefixSums(dates: seq<string>, through: string, n: nat)
    requires dates != [] && RealDate(Earliest(dates)) && RealDate(through)
    requires DayOf(Earliest(dates)) + n - 1 <= DayOf(through)
    ensures CountUpTo(dates, DayOf(Earliest(dates)) + n - 1)
         == Sum(CountsOf(Counted(dates, DayOf(Earliest(dates)), n)))
  {
    hide RealDate, DayOf, IsoDate, UtcDayStart, DayFromYear, StrLess, Counted, CountUpTo, Sort;
    var from := DayOf(Earliest(dates));
    if n == 0 {
      NothingBefore(dates);
    } else {
      TotalsArePrefixSums(dates, through, n - 1);
      BetweenReal(Earliest(dates), through, from + n - 1);
      NextDayCounts(dates, from + n - 1);
      CountedStep(dates, from, n - 1);
      SumConcat(CountsOf(Counted(dates, from, n - 1)), [multiset(dates)[IsoDate(from + n - 1)]]);
    }
  }
}
