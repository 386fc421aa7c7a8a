// ISO-week buckets of a dated series, and the two ways a bucket gets its value:
// event counts add up, gauges keep the last measured reading.
module Weekly {
  import opened Prelude
  import opened Sorting
  import opened Calendar
  import opened Merge

  /** A column beside the dates; None is "not measured". */
  type Column = seq<Option<int>>

  datatype WeekBucket = WeekBucket(monday: string, indices: seq<int>)

  function MondayText(date: string): string {
    match UtcMonday(date)
    case Ok(m) => m
    case Err(_) => ""
  }

  predicate AllReal(dates: seq<string>) {
    forall d | d in dates :: RealDate(d)
  }

  function AddIndex(buckets: seq<WeekBucket>, monday: string, i: int): seq<WeekBucket> {
    if buckets == [] then [WeekBucket(monday, [i])]
    else if buckets[0].monday == monday then [buckets[0].(indices := buckets[0].indices + [i])] + buckets[1..]
    else [buckets[0]] + AddIndex(buckets[1..], monday, i)
  }

  /** The `Map` from Monday to indices, in insertion order. */
  function Group(dates: seq<string>): seq<WeekBucket> {
    if dates == [] then []
    else
      var n := |dates| - 1;
      AddIndex(Group(dates[..n]), MondayText(dates[n]), n)
  }

  function ByMonday(): (WeekBucket, WeekBucket) -> bool {
    (a: WeekBucket, b: WeekBucket) => StrLeq(a.monday, b.monday)
  }

  function WeekBuckets(dates: seq<string>): seq<WeekBucket> {
    Sort(ByMonday(), Group(dates))
  }

  /** The error of the first date that is not real. */
  function FirstError(dates: seq<string>): DateError
    requires !AllReal(dates)
  {
    UtcMondayIsMonday(dates[0]);
    match UtcMonday(dates[0])
    case Err(e) => e
    case Ok(_) => FirstError(dates[1..])
  }

  lemma {:induction false} FirstErrorAt(dates: seq<string>, i: int)
    requires 0 <= i < |dates| && !RealDate(dates[i]) && forall j :: 0 <= j < i ==> RealDate(dates[j])
    ensures !AllReal(dates) && UtcMonday(dates[i]) == Err(FirstError(dates))
  {
    hide RealDate, UtcMonday, DayOf, MondayOf, IsoDate;
    assert dates[i] in dates;
    UtcMondayIsMonday(dates[0]);
    if i > 0 {
      var rest := dates[1..];
      assert rest[i - 1] == dates[i] && forall j :: 0 <= j < i - 1 ==> rest[j] == dates[j + 1];
      FirstErrorAt(rest, i - 1);
    }
  }

  method BucketWeeks(dates: seq<string>) returns (r: Result<seq<WeekBucket>, DateError>)
    ensures r.Ok? <==> AllReal(dates)
    ensures r.Ok? ==> r.value == WeekBuckets(dates)
    ensures r.Err? ==> r.error == FirstError(dates)
  {
    hide RealDate, UtcMonday, AddIndex, DayOf, Group, Sort, MondayOf, IsoDate, FirstError;
    GroupOfNone();
    var byMonday: seq<WeekBucket> := [];
    for i := 0 to |dates|
      invariant byMonday == Group(dates[..i])
      invariant forall j :: 0 <= j < i ==> RealDate(dates[j])
    {
      UtcMondayIsMonday(dates[i]);
      var monday := UtcMonday(dates[i]);
      if monday.Err? {
        FirstErrorAt(dates, i);
        return Err(monday.error);
      }
      assert dates[..i + 1][..i] == dates[..i];
      GroupStep(dates[..i + 1]);
      byMonday := AddIndex(byMonday, monday.value, i);
    }
    assert dates[..|dates|] == dates;
    r := Ok(Sort(ByMonday(), byMonday));
  }

  // ---- What the buckets hold ----

  ghost predicate Up(indices: seq<int>) {
    forall j, k :: 0 <= j < k < |indices| ==> indices[j] < indices[k]
  }

  /** `b` holds exactly the days of its week, in order. */
  ghost predicate HoldsWeek(dates: seq<string>, b: WeekBucket) {
    && b.indices != [] && Up(b.indices)
    && (forall k :: 0 <= k < |b.indices| ==>
          0 <= b.indices[k] < |dates| && MondayText(dates[b.indices[k]]) == b.monday)
    && (forall i :: 0 <= i < |dates| && MondayText(dates[i]) == b.monday ==> i in b.indices)
  }

  ghost predicate OneEach(buckets: seq<WeekBucket>) {
    forall j, k :: 0 <= j < k < |buckets| ==> buckets[j].monday != buckets[k].monday
  }

  function MondayKey(): WeekBucket -> string {
    (b: WeekBucket) => b.monday
  }

  function Position(buckets: seq<WeekBucket>, monday: string): (p: nat)
    ensures p <= |buckets| && (p < |buckets| ==> buckets[p].monday == monday)
    ensures forall q :: 0 <= q < p ==> buckets[q].monday != monday
  {
    if buckets == [] || buckets[0].monday == monday then 0 else 1 + Position(buckets[1..], monday)
  }

  ghost predicate Covers(buckets: seq<WeekBucket>, monday: string) {
    Position(buckets, monday) < |buckets|
  }

  lemma {:induction false} AddIndexAt(buckets: seq<WeekBucket>, monday: string, i: int)
    ensures var p := Position(buckets, monday);
            AddIndex(buckets, monday, i)
            == if p < |buckets| then buckets[p := buckets[p].(indices := buckets[p].indices + [i])]
               else buckets + [WeekBucket(monday, [i])]
  {
    if buckets != [] && buckets[0].monday != monday {
      var head, rest := buckets[0], buckets[1..];
      var p := Position(rest, monday);
      AddIndexAt(rest, monday, i);
      assert buckets == [head] + rest && Position(buckets, monday) == p + 1;
      if p < |rest| {
        var grown := rest[p].(indices := rest[p].indices + [i]);
        assert [head] + rest[p := grown] == buckets[p + 1 := grown];
      }
    }
  }

  lemma GroupOfNone()
    ensures Group([]) == []
  {
  }

  lemma GroupStep(dates: seq<string>)
    requires dates != []
    ensures Group(dates) == AddIndex(Group(dates[..|dates| - 1]), MondayText(dates[|dates| - 1]), |dates| - 1)
  {
  }

  lemma NewBucketHolds(dates: seq<string>, monday: string)
    requires dates != [] && MondayText(dates[|dates| - 1]) == monday
    requires forall i :: 0 <= i < |dates| - 1 ==> MondayText(dates[i]) != monday
    ensures HoldsWeek(dates, WeekBucket(monday, [|dates| - 1]))
  {
    hide MondayText;
  }

  lemma GrownBucketHolds(dates: seq<string>, b: WeekBucket)
    requires dates != [] && HoldsWeek(dates[..|dates| - 1], b)
    ensures HoldsWeek(dates, if MondayText(dates[|dates| - 1]) == b.monday
                             then b.(indices := b.indices + [|dates| - 1]) else b)
  {
    hide MondayText;
    var n := |dates| - 1;
    forall i | 0 <= i < n && MondayText(dates[i]) == b.monday ensures i in b.indices {
      assert dates[..n][i] == dates[i];
    }
  }

  lemma {:induction false} GroupHolds(dates: seq<string>)
    ensures OneEach(Group(dates))
    ensures forall k :: 0 <= k < |Group(dates)| ==> HoldsWeek(dates, Group(dates)[k])
    ensures forall i :: 0 <= i < |dates| ==> Covers(Group(dates), MondayText(dates[i]))
  {
    hide MondayText, Group, HoldsWeek, AddIndex;
    if dates == [] {
      GroupOfNone();
    } else {
      var n := |dates| - 1;
      var before, m := dates[..n], MondayText(dates[n]);
      var g := Group(before);
      GroupHolds(before);
      GroupStep(dates);
      AddIndexAt(g, m, n);
      var r, p := Group(dates), Position(g, m);
      forall i | 0 <= i < |dates| ensures Covers(r, MondayText(dates[i])) {
        var q := if i < n then Position(g, MondayText(before[i])) else p;
        assert r[q].monday == MondayText(dates[i]);
      }
      forall k | 0 <= k < |r| ensures HoldsWeek(dates, r[k]) {
        if k < |g| {
          GrownBucketHolds(dates, g[k]);
        } else {
          forall i | 0 <= i < n ensures MondayText(dates[i]) != m {
            assert Covers(g, MondayText(before[i]));
          }
          NewBucketHolds(dates, m);
        }
      }
    }
  }

  lemma ByMondayTotal()
    ensures TotalPreorder(ByMonday())
  {
    forall x: WeekBucket, y: WeekBucket, z: WeekBucket
      ensures ByMonday()(x, y) || ByMonday()(y, x)
      ensures ByMonday()(x, y) && ByMonday()(y, z) ==> ByMonday()(x, z)
    {
      StrLeqOrder(x.monday, y.monday, z.monday);
    }
  }

  /** Buckets come in strictly ascending weeks, hold exactly their days, and every day is in one. */
  lemma WeekBucketsHold(dates: seq<string>)
    ensures var w := WeekBuckets(dates);
            && (forall j, k :: 0 <= j < k < |w| ==> StrLess(w[j].monday, w[k].monday))
            && (forall k :: 0 <= k < |w| ==> HoldsWeek(dates, w[k]))
            && (forall i :: 0 <= i < |dates| ==> Covers(w, MondayText(dates[i])))
  {
    hide HoldsWeek, MondayText, Group;
    var g, w := Group(dates), WeekBuckets(dates);
    GroupHolds(dates);
    ByMondayTotal();
    SortSorts(ByMonday(), g);
    assert DistinctKeys(g, MondayKey()) by {
      assert forall j, k :: 0 <= j < k < |g| ==> MondayKey()(g[j]) != MondayKey()(g[k]);
    }
    PermutedDistinct(g, w, MondayKey());
    forall k | 0 <= k < |w| ensures HoldsWeek(dates, w[k]) {
      assert w[k] in multiset(g);
      var j :| 0 <= j < |g| && g[j] == w[k];
    }
    forall j, k | 0 <= j < k < |w| ensures StrLess(w[j].monday, w[k].monday) {
      assert ByMonday()(w[j], w[k]);
      StrTotal(w[j].monday, w[k].monday);
      assert MondayKey()(w[j]) != MondayKey()(w[k]);
    }
    forall i | 0 <= i < |dates| ensures Covers(w, MondayText(dates[i])) {
      var p := Position(g, MondayText(dates[i]));
      assert g[p] in multiset(w);
      var q :| 0 <= q < |w| && w[q] == g[p];
    }
  }

  // ---- Bucket values ----

  function ValueAt(values: Column, i: int): Option<int> {
    if 0 <= i < |values| then values[i] else None
  }

  function Plus(a: Option<int>, b: Option<int>): Option<int> {
    if a.None? then b else if b.None? then a else Some(a.value + b.value)
  }

  /** The measured values added up, None when nothing was measured. */
  function SumMeasured(values: Column): Option<int> {
    if values == [] then None
    else Plus(SumMeasured(values[..|values| - 1]), values[|values| - 1])
  }

  predicate Within(indices: seq<int>, n: nat) {
    forall k :: 0 <= k < |indices| ==> 0 <= indices[k] < n
  }

  function Picked(values: Column, indices: seq<int>): (r: Column)
    ensures |r| == |indices|
  {
    seq(|indices|, k requires 0 <= k < |indices| => ValueAt(values, indices[k]))
  }

  method SumColumn(values: Column) returns (total: Option<int>)
    ensures total == SumMeasured(values)
  {
    var sum, any := 0, false;
    for i := 0 to |values|
      invariant SumMeasured(values[..i]) == if any then Some(sum) else None
      invariant !any ==> sum == 0
    {
      assert values[..i + 1][..i] == values[..i];
      if values[i].Some? {
        sum, any := sum + values[i].value, true;
      }
    }
    assert values[..|values|] == values;
    total := if any then Some(sum) else None;
  }

  method SumBucket(values: Column, indices: seq<int>) returns (total: Option<int>)
    ensures total == SumMeasured(Picked(values, indices))
  {
    total := None;
    for k := 0 to |indices|
      invariant total == SumMeasured(Picked(values, indices)[..k])
    {
      var picked := Picked(values, indices);
      assert picked[..k + 1][..k] == picked[..k];
      var value := ValueAt(values, indices[k]);
      if value.None? { continue; }
      total := Some(if total.None? then value.value else total.value + value.value);
    }
    assert Picked(values, indices)[..|indices|] == Picked(values, indices);
  }

  datatype DatedValue = DatedValue(value: int, date: string)

  /** The measured value with the highest date, the later of two that share it. */
  function LastMeasured(dates: seq<string>, values: Column, indices: seq<int>): Option<DatedValue>
    requires Within(indices, |dates|)
  {
    if indices == [] then None
    else
      var n := |indices| - 1;
      var best := LastMeasured(dates, values, indices[..n]);
      var value := ValueAt(values, indices[n]);
      if value.None? || (best.Some? && StrLess(dates[indices[n]], best.value.date)) then best
      else Some(DatedValue(value.value, dates[indices[n]]))
  }

  function Value(d: Option<DatedValue>): Option<int> {
    match d
    case None => None
    case Some(v) => Some(v.value)
  }

  method LastBucket(dates: seq<string>, values: Column, indices: seq<int>) returns (latest: Option<int>)
    requires Within(indices, |dates|)
    ensures latest == Value(LastMeasured(dates, values, indices))
  {
    var latestDate: Option<string> := None;
    latest := None;
    for k := 0 to |indices|
      invariant LastMeasured(dates, values, indices[..k])
             == if latest.Some? && latestDate.Some? then Some(DatedValue(latest.value, latestDate.value)) else None
      invariant latest.Some? == latestDate.Some?
    {
      assert indices[..k + 1][..k] == indices[..k];
      var value := ValueAt(values, indices[k]);
      if value.None? { continue; }
      var date := dates[indices[k]];
      if latestDate.None? || CompareStrings(date, latestDate.value) >= 0 {
        StrAsym(date, if latestDate.Some? then latestDate.value else "");
        latestDate, latest := Some(date), value;
      }
    }
    assert indices[..|indices|] == indices;
  }

  function Mondays(buckets: seq<WeekBucket>): (r: seq<string>)
    ensures |r| == |buckets| && forall k :: 0 <= k < |r| ==> r[k] == buckets[k].monday
  {
    seq(|buckets|, k requires 0 <= k < |buckets| => buckets[k].monday)
  }

  function EventWeeks(buckets: seq<WeekBucket>, values: Column): (r: Column)
    ensures |r| == |buckets|
  {
    seq(|buckets|, k requires 0 <= k < |buckets| => SumMeasured(Picked(values, buckets[k].indices)))
  }

  function GaugeWeeks(dates: seq<string>, buckets: seq<WeekBucket>, values: Column): (r: Column)
    requires forall b | b in buckets :: Within(b.indices, |dates|)
    ensures |r| == |buckets|
  {
    seq(|buckets|, k requires 0 <= k < |buckets| => Value(LastMeasured(dates, values, buckets[k].indices)))
  }

  // ---- Totals are unchanged ----

  lemma PlusLaws(a: Option<int>, b: Option<int>, c: Option<int>)
    ensures Plus(a, b) == Plus(b, a) && Plus(Plus(a, b), c) == Plus(a, Plus(b, c))
  {
  }

  lemma {:induction false} SumMeasuredConcat(a: Column, b: Column)
    ensures SumMeasured(a + b) == Plus(SumMeasured(a), SumMeasured(b))
  {
    if b == [] {
      assert a + b == a;
    } else {
      var n := |b| - 1;
      assert (a + b)[..|a + b| - 1] == a + b[..n];
      SumMeasuredConcat(a, b[..n]);
    }
  }

  lemma {:induction false} NullIffUnmeasured(values: Column)
    ensures SumMeasured(values).None? <==> forall v | v in values :: v.None?
  {
    if values != [] {
      var n := |values| - 1;
      NullIffUnmeasured(values[..n]);
      assert values == values[..n] + [values[n]];
    }
  }

  lemma SumSingle(v: Option<int>)
    ensures SumMeasured([v]) == v
  {
    assert [v][..0] == [];
  }

  lemma {:induction false} AddIndexSum(buckets: seq<WeekBucket>, monday: string, i: int, values: Column)
    ensures SumMeasured(EventWeeks(AddIndex(buckets, monday, i), values))
         == Plus(SumMeasured(EventWeeks(buckets, values)), ValueAt(values, i))
  {
    var v := ValueAt(values, i);
    if buckets == [] {
      assert Picked(values, [i]) == [v];
      SumSingle(v);
      ConsSum(WeekBucket(monday, [i]), [], values);
      assert [WeekBucket(monday, [i])] == [WeekBucket(monday, [i])] + [];
    } else {
      var b, rest := buckets[0], buckets[1..];
      var h, t := SumMeasured(Picked(values, b.indices)), SumMeasured(EventWeeks(rest, values));
      assert buckets == [b] + rest;
      ConsSum(b, rest, values);
      if b.monday == monday {
        var grown := b.(indices := b.indices + [i]);
        assert Picked(values, grown.indices) == Picked(values, b.indices) + [v];
        SumMeasuredConcat(Picked(values, b.indices), [v]);
        SumSingle(v);
        ConsSum(grown, rest, values);
        PlusLaws(h, v, t);
        PlusLaws(v, t, h);
        PlusLaws(h, t, v);
      } else {
        AddIndexSum(rest, monday, i, values);
        ConsSum(b, AddIndex(rest, monday, i), values);
        PlusLaws(h, t, v);
      }
    }
  }

  lemma {:induction false} GroupSum(dates: seq<string>, values: Column)
    ensures SumMeasured(EventWeeks(Group(dates), values))
         == SumMeasured(if |values| <= |dates| then values else values[..|dates|])
  {
    hide Group, MondayText, EventWeeks, AddIndex;
    if dates == [] {
      GroupOfNone();
      NoWeeks(values);
      assert values[..0] == [];
    } else {
      var n := |dates| - 1;
      GroupSum(dates[..n], values);
      GroupStep(dates);
      AddIndexSum(Group(dates[..n]), MondayText(dates[n]), n, values);
      if n < |values| {
        assert values[..n + 1][..n] == values[..n];
        assert |values| == n + 1 ==> values[..n + 1] == values;
      }
    }
  }

  lemma NoWeeks(values: Column)
    ensures EventWeeks([], values) == []
  {
  }

  lemma ConsSum(b: WeekBucket, s: seq<WeekBucket>, values: Column)
    ensures SumMeasured(EventWeeks([b] + s, values))
         == Plus(SumMeasured(Picked(values, b.indices)), SumMeasured(EventWeeks(s, values)))
  {
    var x := SumMeasured(Picked(values, b.indices));
    assert EventWeeks([b] + s, values) == [x] + EventWeeks(s, values);
    SumMeasuredConcat([x], EventWeeks(s, values));
    SumSingle(x);
  }

  lemma {:induction false} InsertSum(leq: (WeekBucket, WeekBucket) -> bool, b: WeekBucket, s: seq<WeekBucket>,
                                        values: Column)
    ensures SumMeasured(EventWeeks(Insert(leq, b, s), values)) == SumMeasured(EventWeeks([b] + s, values))
  {
    hide EventWeeks, SumMeasured, Picked;
    if s != [] && !leq(b, s[0]) {
      var rest := s[1..];
      InsertSum(leq, b, rest, values);
      ConsSum(b, rest, values);
      ConsSum(s[0], Insert(leq, b, rest), values);
      ConsSum(s[0], rest, values);
      ConsSum(b, s, values);
      assert s == [s[0]] + rest;
      var x, y, z := SumMeasured(Picked(values, b.indices)), SumMeasured(Picked(values, s[0].indices)),
                     SumMeasured(EventWeeks(rest, values));
      PlusLaws(x, y, z);
      PlusLaws(y, x, z);
    }
  }

  lemma {:induction false} SortSum(leq: (WeekBucket, WeekBucket) -> bool, s: seq<WeekBucket>, values: Column)
    ensures SumMeasured(EventWeeks(Sort(leq, s), values)) == SumMeasured(EventWeeks(s, values))
  {
    if s != [] {
      SortSum(leq, s[1..], values);
      InsertSum(leq, s[0], Sort(leq, s[1..]), values);
      ConsSum(s[0], Sort(leq, s[1..]), values);
      ConsSum(s[0], s[1..], values);
      assert s == [s[0]] + s[1..];
    }
  }

  /** Weekly sums add up to the daily sum, in any date order. */
  lemma EventTotalUnchanged(dates: seq<string>, values: Column)
    requires |values| <= |dates|
    ensures SumMeasured(EventWeeks(WeekBuckets(dates), values)) == SumMeasured(values)
  {
    GroupSum(dates, values);
    SortSum(ByMonday(), Group(dates), values);
  }

  // ---- The newest reading is unchanged ----

  /** `newestMeasured`: the last index both arrays have whose value was measured. */
  function NewestMeasured(dates: seq<string>, values: Column): Option<DatedValue>
    decreases |values|
  {
    if values == [] then None
    else
      var n := |values| - 1;
      if n < |dates| && values[n].Some? then Some(DatedValue(values[n].value, dates[n]))
      else NewestMeasured(dates, values[..n])
  }

  method FindNewest(dates: seq<string>, values: Column) returns (r: Option<DatedValue>)
    ensures r == NewestMeasured(dates, values)
  {
    var n := if |dates| < |values| then |dates| else |values|;
    NewestSkips(dates, values, n);
    while n > 0
      invariant 0 <= n <= |dates| && n <= |values|
      invariant NewestMeasured(dates, values) == NewestMeasured(dates, values[..n])
    {
      n := n - 1;
      assert values[..n + 1][..n] == values[..n];
      if values[n].Some? {
        return Some(DatedValue(values[n].value, dates[n]));
      }
    }
    r := None;
  }

  lemma {:induction false} NewestSkips(dates: seq<string>, values: Column, n: nat)
    requires n <= |values| && forall i :: n <= i < |values| && i < |dates| ==> values[i].None?
    ensures NewestMeasured(dates, values) == NewestMeasured(dates, values[..n])
    decreases |values|
  {
    if n < |values| {
      NewestSkips(dates, values[..|values| - 1], n);
      assert values[..|values| - 1][..n] == values[..n];
    } else {
      assert values[..n] == values;
    }
  }

  lemma NewestIs(dates: seq<string>, values: Column, n: nat)
    requires n < |values| && n < |dates| && values[n].Some?
    requires forall i :: n < i < |values| && i < |dates| ==> values[i].None?
    ensures NewestMeasured(dates, values) == Some(DatedValue(values[n].value, dates[n]))
  {
    NewestSkips(dates, values, n + 1);
    assert values[..n + 1][n] == values[n];
  }

  ghost predicate AscendingDates(dates: seq<string>) {
    AllReal(dates) && forall i, j :: 0 <= i < j < |dates| ==> StrLeq(dates[i], dates[j])
  }

  /** In a bucket in date order, the reading kept is the one at the last measured index. */
  lemma {:induction false} LastMeasuredIs(dates: seq<string>, values: Column, indices: seq<int>, at: int)
    requires Within(indices, |dates|) && Up(indices)
    requires forall i, j :: 0 <= i < j < |dates| ==> StrLeq(dates[i], dates[j])
    requires at in indices && ValueAt(values, at).Some?
    requires forall i | i in indices && i > at :: ValueAt(values, i).None?
    ensures LastMeasured(dates, values, indices) == Some(DatedValue(ValueAt(values, at).value, dates[at]))
  {
    var n := |indices| - 1;
    if indices[n] == at {
      var best := LastMeasured(dates, values, indices[..n]);
      if best.Some? {
        LastMeasuredFrom(dates, values, indices[..n]);
        var i :| i in indices[..n] && dates[i] == best.value.date;
        assert i < at;
        assert StrLeq(dates[i], dates[at]);
      }
    } else {
      var k :| 0 <= k < |indices| && indices[k] == at;
      assert indices[n] > at && indices[..n][k] == at;
      LastMeasuredIs(dates, values, indices[..n], at);
    }
  }

  lemma {:induction false} LastMeasuredFrom(dates: seq<string>, values: Column, indices: seq<int>)
    requires Within(indices, |dates|)
    ensures LastMeasured(dates, values, indices).None? <==> forall i | i in indices :: ValueAt(values, i).None?
    ensures LastMeasured(dates, values, indices).Some? ==>
              exists i | i in indices :: dates[i] == LastMeasured(dates, values, indices).value.date
  {
    if indices != [] {
      var n := |indices| - 1;
      LastMeasuredFrom(dates, values, indices[..n]);
      assert indices == indices[..n] + [indices[n]];
      if LastMeasured(dates, values, indices[..n]).Some? {
        var i :| i in indices[..n] && dates[i] == LastMeasured(dates, values, indices[..n]).value.date;
        assert i in indices;
      }
    }
  }

  /** A gauge's newest reading survives weekly bucketing; only its date becomes the week's Monday. */
  lemma NewestUnchanged(dates: seq<string>, values: Column)
    requires AscendingDates(dates) && |values| <= |dates|
    ensures forall b | b in WeekBuckets(dates) :: Within(b.indices, |dates|)
    ensures var w := WeekBuckets(dates);
            var weekly := NewestMeasured(Mondays(w), GaugeWeeks(dates, w, values));
            var daily := NewestMeasured(dates, values);
            && Value(weekly) == Value(daily)
            && (daily.Some? ==> weekly == Some(DatedValue(daily.value.value, MondayText(daily.value.date))))
  {
    hide WeekBuckets, MondayText, RealDate, StrLess, LastMeasured, NewestMeasured, LastSome;
    var w := WeekBuckets(dates);
    WeekBucketsHold(dates);
    forall b | b in w ensures Within(b.indices, |dates|) {
      var k :| 0 <= k < |w| && w[k] == b;
      assert HoldsWeek(dates, w[k]);
    }
    if LastSome(values) >= 0 {
      NewestInItsWeek(dates, values, LastSome(values));
    } else {
      var gauge := GaugeWeeks(dates, w, values);
      NewestSkips(dates, values, 0);
      NewestOfNone(dates);
      NewestOfNone(Mondays(w));
      assert values[..0] == [] && gauge[..0] == [];
      forall j | 0 <= j < |w| ensures gauge[j].None? {
        LastMeasuredFrom(dates, values, w[j].indices);
      }
      NewestSkips(Mondays(w), gauge, 0);
    }
  }

  lemma NewestOfNone(dates: seq<string>)
    ensures NewestMeasured(dates, []) == None
  {
  }

  lemma NewestInItsWeek(dates: seq<string>, values: Column, at: int)
    requires AscendingDates(dates) && |values| <= |dates| && 0 <= at < |values| && values[at].Some?
    requires forall i :: at < i < |values| ==> values[i].None?
    requires forall b | b in WeekBuckets(dates) :: Within(b.indices, |dates|)
    ensures NewestMeasured(dates, values) == Some(DatedValue(values[at].value, dates[at]))
    ensures NewestMeasured(Mondays(WeekBuckets(dates)), GaugeWeeks(dates, WeekBuckets(dates), values))
         == Some(DatedValue(values[at].value, MondayText(dates[at])))
  {
    hide WeekBuckets, MondayText, RealDate, StrLess, LastMeasured, NewestMeasured;
    var w := WeekBuckets(dates);
    WeekBucketsHold(dates);
    NewestIs(dates, values, at);
    var k := Position(w, MondayText(dates[at]));
    assert Covers(w, MondayText(dates[at]));
    var b := w[k];
    assert HoldsWeek(dates, b) && at in b.indices;
    LastMeasuredIs(dates, values, b.indices, at);
    var gauge := GaugeWeeks(dates, w, values);
    forall j | k < j < |w| ensures gauge[j].None? {
      LaterWeekEmpty(dates, values, w[j], at);
    }
    NewestIs(Mondays(w), gauge, k);
  }

  function LastSome(values: Column): (at: int)
    ensures -1 <= at < |values| && (at >= 0 ==> values[at].Some?)
    ensures forall i :: at < i < |values| ==> values[i].None?
  {
    if values == [] then -1
    else if values[|values| - 1].Some? then |values| - 1
    else LastSome(values[..|values| - 1])
  }

  lemma LaterMonday(a: string, b: string)
    requires RealDate(a) && RealDate(b) && StrLeq(a, b)
    ensures !StrLess(MondayText(b), MondayText(a))
  {
    hide RealDate, UtcMonday, StrLess;
    UtcMondayMonotone(a, b);
  }

  lemma LaterWeekEmpty(dates: seq<string>, values: Column, b: WeekBucket, at: int)
    requires AscendingDates(dates) && |values| <= |dates| && 0 <= at < |values| && HoldsWeek(dates, b)
    requires StrLess(MondayText(dates[at]), b.monday)
    requires forall i :: at < i < |values| ==> values[i].None?
    ensures Within(b.indices, |dates|) && LastMeasured(dates, values, b.indices).None?
  {
    hide MondayText, RealDate, StrLess, LastMeasured;
    forall i | i in b.indices ensures ValueAt(values, i).None? {
      if i < at {
        assert StrLeq(dates[i], dates[at]);
        LaterMonday(dates[i], dates[at]);
      } else if i == at {
        StrAsym(b.monday, b.monday);
      }
    }
    LastMeasuredFrom(dates, values, b.indices);
  }

  // ---- Bucketing weekly data again ----

  /** The weeks as one bucket per entry. */
  function Singles(mondays: seq<string>): seq<WeekBucket> {
    seq(|mondays|, k requires 0 <= k < |mondays| => WeekBucket(mondays[k], [k]))
  }

  lemma {:induction false} AddNew(buckets: seq<WeekBucket>, monday: string, i: int)
    requires forall k :: 0 <= k < |buckets| ==> buckets[k].monday != monday
    ensures AddIndex(buckets, monday, i) == buckets + [WeekBucket(monday, [i])]
  {
    if buckets != [] { AddNew(buckets[1..], monday, i); }
  }

  lemma {:induction false} GroupOfMondays(mondays: seq<string>)
    requires forall j, k :: 0 <= j < k < |mondays| ==> StrLess(mondays[j], mondays[k])
    requires forall k :: 0 <= k < |mondays| ==> MondayText(mondays[k]) == mondays[k]
    ensures Group(mondays) == Singles(mondays)
  {
    hide MondayText, StrLess, AddIndex, Group;
    if mondays == [] {
      GroupOfNone();
    } else {
      GroupStep(mondays);
      var n := |mondays| - 1;
      GroupOfMondays(mondays[..n]);
      var before := Singles(mondays[..n]);
      forall k | 0 <= k < |before| ensures before[k].monday != mondays[n] {
        StrAsym(mondays[k], mondays[n]);
      }
      AddNew(Singles(mondays[..n]), mondays[n], n);
      assert Singles(mondays) == Singles(mondays[..n]) + [WeekBucket(mondays[n], [n])];
    }
  }

  lemma BucketsOfMondays(mondays: seq<string>)
    requires forall j, k :: 0 <= j < k < |mondays| ==> StrLess(mondays[j], mondays[k])
    requires forall k :: 0 <= k < |mondays| ==> MondayText(mondays[k]) == mondays[k]
    ensures WeekBuckets(mondays) == Singles(mondays)
  {
    GroupOfMondays(mondays);
    var s := Singles(mondays);
    forall j, k | 0 <= j < k < |s| ensures ByMonday()(s[j], s[k]) {
      StrAsym(mondays[j], mondays[k]);
    }
    SortOfSorted(ByMonday(), s);
  }

  lemma MondayOfMonday(date: string)
    requires RealDate(date) && RealDate(MondayText(date))
    ensures MondayText(MondayText(date)) == MondayText(date)
  {
    UtcMondayIsMonday(date);
    RealDateRange(date);
    var m := MondayOf(DayOf(date));
    MondayIsReal(date);
    DayIsReal(m);
    UtcMondayIsMonday(MondayText(date));
    MondayMonotone(DayOf(date), DayOf(date));
  }

  /** Bucketing a weekly series again moves nothing, for counts and for gauges. */
  lemma WeeklyTwice(dates: seq<string>, values: Column)
    requires AllReal(dates) && AllReal(Mondays(WeekBuckets(dates))) && |values| == |WeekBuckets(dates)|
    ensures var mondays := Mondays(WeekBuckets(dates));
            var again := WeekBuckets(mondays);
            && Mondays(again) == mondays
            && EventWeeks(again, values) == values
            && (forall b | b in again :: Within(b.indices, |mondays|))
            && GaugeWeeks(mondays, again, values) == values
  {
    hide WeekBuckets, MondayText, RealDate, StrLess;
    var mondays := Mondays(WeekBuckets(dates));
    WeekBucketsHold(dates);
    forall k | 0 <= k < |mondays| ensures MondayText(mondays[k]) == mondays[k] {
      var b := WeekBuckets(dates)[k];
      assert HoldsWeek(dates, b);
      var i := b.indices[0];
      assert dates[i] in dates && mondays[k] in mondays;
      MondayOfMonday(dates[i]);
    }
    BucketsOfMondays(mondays);
    var again := Singles(mondays);
    forall k | 0 <= k < |mondays|
      ensures EventWeeks(again, values)[k] == values[k]
      ensures Value(LastMeasured(mondays, values, again[k].indices)) == values[k]
    {
      assert Picked(values, [k]) == [values[k]];
      SumSingle(values[k]);
      assert [k][..0] == [];
    }
  }

  /** A weekly series can be bucketed again exactly when no Monday falls before year 0100. */
  lemma WeeklyAgainIff(dates: seq<string>)
    requires AllReal(dates)
    ensures AllReal(Mondays(WeekBuckets(dates)))
       <==> forall d | d in dates :: MondayOf(DayOf(d)) >= FIRST_DAY
  {
    hide WeekBuckets, RealDate, StrLess, MondayOf, DayOf, UtcMonday, DayFromYear;
    WeekBucketsHold(dates);
    var w := WeekBuckets(dates);
    forall d | d in dates ensures UtcMonday(d).Ok? && (RealDate(MondayText(d)) <==> MondayOf(DayOf(d)) >= FIRST_DAY) {
      MondayIsReal(d);
    }
    forall d | d in dates ensures MondayText(d) in Mondays(w) {
      var i :| 0 <= i < |dates| && dates[i] == d;
      assert Covers(w, MondayText(dates[i]));
      assert Mondays(w)[Position(w, MondayText(d))] == MondayText(d);
    }
    forall m | m in Mondays(w) ensures exists d :: d in dates && MondayText(d) == m {
      var k :| 0 <= k < |w| && Mondays(w)[k] == m;
      assert HoldsWeek(dates, w[k]);
      var i := w[k].indices[0];
      assert dates[i] in dates;
    }
  }
}
