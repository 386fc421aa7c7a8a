// The dashboard bundle, its weekly form, and the headline facts the served page states about it.
module Summary {
  import opened Prelude
  import opened Calendar
  import opened Weekly

  datatype Traffic = Traffic(dates: seq<string>, count: Column, uniques: Column)

  datatype Count = Count(dates: seq<string>, total: Column)

  datatype Repo = Repo(dates: seq<string>, subscribers: Column, openIssues: Column, downloadsTotal: Column,
                       downloadsApp: Column, downloadsUpdates: Column)

  datatype Workflows = Workflows(dates: seq<string>, runs: Column)

  /** The telemetry network series; every column is a gauge, `instances7d` the one the summary reads. */
  datatype Network = Network(dates: seq<string>, instances7d: Column, others: seq<Column>)

  datatype Dashboard = Dashboard(views: Traffic, clones: Traffic, stars: Count, forks: Count, contributors: Count,
                                 repo: Repo, workflows: Workflows, network: Network, releases: nat, downsampled: bool)

  datatype Facts = Facts(stars: Option<DatedValue>, forks: Option<DatedValue>, watchers: Option<DatedValue>,
                         contributors: Option<DatedValue>, viewsTotal: Option<int>, clonesTotal: Option<int>,
                         downloadsApp: Option<DatedValue>, releasesShipped: nat,
                         telemetryInstances: Option<DatedValue>, weekly: bool)

  function BuildSummary(data: Dashboard): Facts {
    Facts(NewestMeasured(data.stars.dates, data.stars.total),
          NewestMeasured(data.forks.dates, data.forks.total),
          NewestMeasured(data.repo.dates, data.repo.subscribers),
          NewestMeasured(data.contributors.dates, data.contributors.total),
          SumMeasured(data.views.count),
          SumMeasured(data.clones.count),
          NewestMeasured(data.repo.dates, data.repo.downloadsApp),
          data.releases,
          NewestMeasured(data.network.dates, data.network.instances7d),
          data.downsampled)
  }

  // ---- Weekly form ----

  /** `weekBuckets`, or the error of the first date that is not real. */
  function Buckets(dates: seq<string>): Result<seq<WeekBucket>, DateError> {
    if AllReal(dates) then Ok(WeekBuckets(dates)) else Err(FirstError(dates))
  }

  /** One gauge per bucket. */
  function Gauge(dates: seq<string>, values: Column): (r: Column)
    ensures |r| == |WeekBuckets(dates)|
  {
    BucketsWithin(dates);
    GaugeWeeks(dates, WeekBuckets(dates), values)
  }

  lemma BucketsWithin(dates: seq<string>)
    ensures forall b | b in WeekBuckets(dates) :: Within(b.indices, |dates|)
  {
    hide WeekBuckets, MondayText, StrLess;
    WeekBucketsHold(dates);
    var w := WeekBuckets(dates);
    forall b | b in w ensures Within(b.indices, |dates|) {
      var k :| 0 <= k < |w| && w[k] == b;
      assert HoldsWeek(dates, w[k]);
    }
  }

  function WeeklyTraffic(s: Traffic): Result<Traffic, DateError> {
    var b :- Buckets(s.dates);
    Ok(Traffic(Mondays(b), EventWeeks(b, s.count), EventWeeks(b, s.uniques)))
  }

  function WeeklyWorkflows(s: Workflows): Result<Workflows, DateError> {
    var b :- Buckets(s.dates);
    Ok(Workflows(Mondays(b), EventWeeks(b, s.runs)))
  }

  function WeeklyCount(s: Count): Result<Count, DateError> {
    var b :- Buckets(s.dates);
    Ok(Count(Mondays(b), Gauge(s.dates, s.total)))
  }

  function WeeklyRepo(s: Repo): Result<Repo, DateError> {
    var b :- Buckets(s.dates);
    Ok(Repo(Mondays(b), Gauge(s.dates, s.subscribers), Gauge(s.dates, s.openIssues), Gauge(s.dates, s.downloadsTotal),
            Gauge(s.dates, s.downloadsApp), Gauge(s.dates, s.downloadsUpdates)))
  }

  function WeeklyNetwork(s: Network): Result<Network, DateError> {
    var b :- Buckets(s.dates);
    Ok(Network(Mondays(b), Gauge(s.dates, s.instances7d),
               seq(|s.others|, k requires 0 <= k < |s.others| => Gauge(s.dates, s.others[k]))))
  }

  function DownsampleWeekly(data: Dashboard): Result<Dashboard, DateError> {
    var views :- WeeklyTraffic(data.views);
    var clones :- WeeklyTraffic(data.clones);
    var stars :- WeeklyCount(data.stars);
    var forks :- WeeklyCount(data.forks);
    var contributors :- WeeklyCount(data.contributors);
    var repo :- WeeklyRepo(data.repo);
    var workflows :- WeeklyWorkflows(data.workflows);
    var network :- WeeklyNetwork(data.network);
    Ok(Dashboard(views, clones, stars, forks, contributors, repo, workflows, network, data.releases, true))
  }

  // ---- The summary does not move ----

  /** A series in date order whose column is no longer than its dates. */
  ghost predicate Aligned(dates: seq<string>, values: Column) {
    AscendingDates(dates) && |values| <= |dates|
  }

  ghost predicate WellFormed(data: Dashboard) {
    && Aligned(data.views.dates, data.views.count) && Aligned(data.clones.dates, data.clones.count)
    && Aligned(data.stars.dates, data.stars.total) && Aligned(data.forks.dates, data.forks.total)
    && Aligned(data.contributors.dates, data.contributors.total)
    && Aligned(data.repo.dates, data.repo.subscribers) && Aligned(data.repo.dates, data.repo.downloadsApp)
    && Aligned(data.workflows.dates, data.workflows.runs)
    && Aligned(data.network.dates, data.network.instances7d)
  }

  /** The same reading, dated by the Monday of its week. */
  function OnMonday(d: Option<DatedValue>): Option<DatedValue> {
    match d
    case None => None
    case Some(v) => Some(DatedValue(v.value, MondayText(v.date)))
  }

  lemma NewestOnMonday(dates: seq<string>, values: Column)
    requires Aligned(dates, values)
    ensures NewestMeasured(Mondays(WeekBuckets(dates)), Gauge(dates, values)) == OnMonday(NewestMeasured(dates, values))
  {
    hide WeekBuckets, NewestMeasured, MondayText;
    NewestUnchanged(dates, values);
  }

  /** The weekly bundle states the same totals and the same newest readings as the daily one. */
  lemma SummaryUnmoved(data: Dashboard)
    requires WellFormed(data)
    ensures DownsampleWeekly(data).Ok?
    ensures var daily, weekly := BuildSummary(data), BuildSummary(DownsampleWeekly(data).value);
            && weekly.viewsTotal == daily.viewsTotal && weekly.clonesTotal == daily.clonesTotal
            && weekly.stars == OnMonday(daily.stars) && weekly.forks == OnMonday(daily.forks)
            && weekly.watchers == OnMonday(daily.watchers) && weekly.contributors == OnMonday(daily.contributors)
            && weekly.downloadsApp == OnMonday(daily.downloadsApp)
            && weekly.telemetryInstances == OnMonday(daily.telemetryInstances)
            && weekly.releasesShipped == daily.releasesShipped && weekly.weekly
  {
    hide WeekBuckets, NewestMeasured, MondayText, SumMeasured, EventWeeks, Gauge;
    EventTotalUnchanged(data.views.dates, data.views.count);
    EventTotalUnchanged(data.clones.dates, data.clones.count);
    NewestOnMonday(data.stars.dates, data.stars.total);
    NewestOnMonday(data.forks.dates, data.forks.total);
    NewestOnMonday(data.repo.dates, data.repo.subscribers);
    NewestOnMonday(data.contributors.dates, data.contributors.total);
    NewestOnMonday(data.repo.dates, data.repo.downloadsApp);
    NewestOnMonday(data.network.dates, data.network.instances7d);
  }

  /** A sum that is an event count stays, and so does the newest reading of every gauge: the columns no fact reads. */
  lemma OtherColumnsUnmoved(data: Dashboard)
    requires Aligned(data.views.dates, data.views.uniques) && Aligned(data.clones.dates, data.clones.uniques)
    requires Aligned(data.workflows.dates, data.workflows.runs)
    requires Aligned(data.repo.dates, data.repo.openIssues) && Aligned(data.repo.dates, data.repo.downloadsTotal)
    requires Aligned(data.repo.dates, data.repo.downloadsUpdates)
    requires forall values | values in data.network.others :: Aligned(data.network.dates, values)
    requires DownsampleWeekly(data).Ok?
    ensures var weekly := DownsampleWeekly(data).value;
            && SumMeasured(weekly.views.uniques) == SumMeasured(data.views.uniques)
            && SumMeasured(weekly.clones.uniques) == SumMeasured(data.clones.uniques)
            && SumMeasured(weekly.workflows.runs) == SumMeasured(data.workflows.runs)
            && SameNewest(data.repo.dates, data.repo.openIssues, weekly.repo.dates, weekly.repo.openIssues)
            && SameNewest(data.repo.dates, data.repo.downloadsTotal, weekly.repo.dates, weekly.repo.downloadsTotal)
            && SameNewest(data.repo.dates, data.repo.downloadsUpdates, weekly.repo.dates, weekly.repo.downloadsUpdates)
            && |weekly.network.others| == |data.network.others|
            && (forall k :: 0 <= k < |data.network.others| ==>
                  SameNewest(data.network.dates, data.network.others[k],
                             weekly.network.dates, weekly.network.others[k]))
  {
    hide WeekBuckets, NewestMeasured, MondayText, SumMeasured, EventWeeks, Gauge;
    EventTotalUnchanged(data.views.dates, data.views.uniques);
    EventTotalUnchanged(data.clones.dates, data.clones.uniques);
    EventTotalUnchanged(data.workflows.dates, data.workflows.runs);
    NewestOnMonday(data.repo.dates, data.repo.openIssues);
    NewestOnMonday(data.repo.dates, data.repo.downloadsTotal);
    NewestOnMonday(data.repo.dates, data.repo.downloadsUpdates);
    forall k | 0 <= k < |data.network.others|
      ensures SameNewest(data.network.dates, data.network.others[k], Mondays(WeekBuckets(data.network.dates)),
                         Gauge(data.network.dates, data.network.others[k]))
    {
      assert data.network.others[k] in data.network.others;
      NewestOnMonday(data.network.dates, data.network.others[k]);
    }
  }

  ghost predicate SameNewest(dates: seq<string>, values: Column, mondays: seq<string>, weekly: Column) {
    NewestMeasured(mondays, weekly) == OnMonday(NewestMeasured(dates, values))
  }

  // ---- Each fact from its own series ----

  ghost predicate MeasuredAt(dates: seq<string>, values: Column, i: int) {
    0 <= i < |dates| && i < |values| && values[i].Some?
  }

  /** The reading at the last measured date; none where nothing was measured. */
  ghost predicate IsNewest(dates: seq<string>, values: Column, reading: Option<DatedValue>) {
    if reading.None? then forall i :: !MeasuredAt(dates, values, i)
    else exists i :: MeasuredAt(dates, values, i) && (forall j :: MeasuredAt(dates, values, j) ==> j <= i)
                     && reading.value == DatedValue(values[i].value, dates[i])
  }

  lemma {:induction false} NewestIs(dates: seq<string>, values: Column)
    ensures IsNewest(dates, values, NewestMeasured(dates, values))
  {
    if values != [] {
      var n := |values| - 1;
      NewestIs(dates, values[..n]);
      if MeasuredAt(dates, values, n) {
        assert forall j :: MeasuredAt(dates, values, j) ==> j <= n;
      } else {
        assert forall i :: MeasuredAt(dates, values, i) <==> MeasuredAt(dates, values[..n], i);
        var reading := NewestMeasured(dates, values[..n]);
        if reading.Some? {
          var i :| MeasuredAt(dates, values[..n], i) && (forall j :: MeasuredAt(dates, values[..n], j) ==> j <= i)
                   && reading.value == DatedValue(values[..n][i].value, dates[i]);
          assert MeasuredAt(dates, values, i);
        }
      }
    }
  }

  /** What each headline states: the newest reading of its own series, or the sum of its own counts. */
  lemma FactsRead(data: Dashboard)
    ensures var f := BuildSummary(data);
            && IsNewest(data.stars.dates, data.stars.total, f.stars)
            && IsNewest(data.forks.dates, data.forks.total, f.forks)
            && IsNewest(data.repo.dates, data.repo.subscribers, f.watchers)
            && IsNewest(data.contributors.dates, data.contributors.total, f.contributors)
            && IsNewest(data.repo.dates, data.repo.downloadsApp, f.downloadsApp)
            && IsNewest(data.network.dates, data.network.instances7d, f.telemetryInstances)
            && f.viewsTotal == SumMeasured(data.views.count) && f.clonesTotal == SumMeasured(data.clones.count)
            && f.releasesShipped == data.releases && f.weekly == data.downsampled
  {
    hide IsNewest, NewestMeasured, SumMeasured;
    NewestIs(data.stars.dates, data.stars.total);
    NewestIs(data.forks.dates, data.forks.total);
    NewestIs(data.repo.dates, data.repo.subscribers);
    NewestIs(data.contributors.dates, data.contributors.total);
    NewestIs(data.repo.dates, data.repo.downloadsApp);
    NewestIs(data.network.dates, data.network.instances7d);
  }

  /** A weekly bucket is null exactly when every day of it is, in counts and in gauges alike. */
  lemma NullWeekIff(dates: seq<string>, values: Column, k: int)
    requires 0 <= k < |WeekBuckets(dates)|
    ensures var week := WeekBuckets(dates)[k];
            && (EventWeeks(WeekBuckets(dates), values)[k].None?
                <==> forall i | i in week.indices :: ValueAt(values, i).None?)
            && (Gauge(dates, values)[k].None? <==> forall i | i in week.indices :: ValueAt(values, i).None?)
  {
    hide WeekBuckets, SumMeasured, LastMeasured;
    BucketsWithin(dates);
    var week := WeekBuckets(dates)[k];
    assert week in WeekBuckets(dates);
    var picked := Picked(values, week.indices);
    NullIffUnmeasured(picked);
    LastMeasuredFrom(dates, values, week.indices);
    assert forall i | i in week.indices :: ValueAt(values, i) in picked by {
      forall i | i in week.indices ensures ValueAt(values, i) in picked {
        var j :| 0 <= j < |week.indices| && week.indices[j] == i;
        assert picked[j] == ValueAt(values, i);
      }
    }
    forall v | v in picked ensures exists i | i in week.indices :: ValueAt(values, i) == v {
      var j :| 0 <= j < |picked| && picked[j] == v;
      assert week.indices[j] in week.indices;
    }
  }

  // ---- Downsampling again ----

  ghost predicate FromYear101(dates: seq<string>) {
    AllReal(dates) && forall d | d in dates :: MondayOf(DayOf(d)) >= FIRST_DAY
  }

  lemma GaugeTwice(dates: seq<string>, values: Column)
    requires FromYear101(dates)
    ensures var mondays := Mondays(WeekBuckets(dates));
            && AllReal(mondays) && Mondays(WeekBuckets(mondays)) == mondays
            && Gauge(mondays, Gauge(dates, values)) == Gauge(dates, values)
            && EventWeeks(WeekBuckets(mondays), EventWeeks(WeekBuckets(dates), values))
               == EventWeeks(WeekBuckets(dates), values)
  {
    hide WeekBuckets, EventWeeks, GaugeWeeks, RealDate, MondayOf, DayOf;
    WeeklyAgainIff(dates);
    WeeklyTwice(dates, Gauge(dates, values));
    WeeklyTwice(dates, EventWeeks(WeekBuckets(dates), values));
  }

  ghost predicate AllFromYear101(data: Dashboard) {
    && FromYear101(data.views.dates) && FromYear101(data.clones.dates) && FromYear101(data.stars.dates)
    && FromYear101(data.forks.dates) && FromYear101(data.contributors.dates) && FromYear101(data.repo.dates)
    && FromYear101(data.workflows.dates) && FromYear101(data.network.dates)
  }

  lemma TrafficTwice(s: Traffic)
    requires FromYear101(s.dates)
    ensures WeeklyTraffic(s).Ok? && WeeklyTraffic(WeeklyTraffic(s).value) == WeeklyTraffic(s)
  {
    hide WeekBuckets, EventWeeks, RealDate;
    GaugeTwice(s.dates, s.count);
    GaugeTwice(s.dates, s.uniques);
  }

  lemma CountTwice(s: Count)
    requires FromYear101(s.dates)
    ensures WeeklyCount(s).Ok? && WeeklyCount(WeeklyCount(s).value) == WeeklyCount(s)
  {
    hide WeekBuckets, Gauge, RealDate;
    GaugeTwice(s.dates, s.total);
  }

  lemma RepoTwice(s: Repo)
    requires FromYear101(s.dates)
    ensures WeeklyRepo(s).Ok? && WeeklyRepo(WeeklyRepo(s).value) == WeeklyRepo(s)
  {
    hide WeekBuckets, Gauge, RealDate;
    GaugeTwice(s.dates, s.subscribers);
    GaugeTwice(s.dates, s.openIssues);
    GaugeTwice(s.dates, s.downloadsTotal);
    GaugeTwice(s.dates, s.downloadsApp);
    GaugeTwice(s.dates, s.downloadsUpdates);
  }

  lemma WorkflowsTwice(s: Workflows)
    requires FromYear101(s.dates)
    ensures WeeklyWorkflows(s).Ok? && WeeklyWorkflows(WeeklyWorkflows(s).value) == WeeklyWorkflows(s)
  {
    hide WeekBuckets, EventWeeks, RealDate;
    GaugeTwice(s.dates, s.runs);
  }

  lemma NetworkTwice(s: Network)
    requires FromYear101(s.dates)
    ensures WeeklyNetwork(s).Ok? && WeeklyNetwork(WeeklyNetwork(s).value) == WeeklyNetwork(s)
  {
    hide WeekBuckets, Gauge, RealDate;
    GaugeTwice(s.dates, s.instances7d);
    forall k | 0 <= k < |s.others|
      ensures Gauge(Mondays(WeekBuckets(s.dates)), Gauge(s.dates, s.others[k])) == Gauge(s.dates, s.others[k])
    {
      GaugeTwice(s.dates, s.others[k]);
    }
    assert WeeklyNetwork(WeeklyNetwork(s).value).value.others == WeeklyNetwork(s).value.others;
  }

  /** Downsampling a weekly bundle changes nothing in it. */
  lemma DownsampleTwice(data: Dashboard)
    requires AllFromYear101(data)
    ensures DownsampleWeekly(data).Ok? && DownsampleWeekly(DownsampleWeekly(data).value) == DownsampleWeekly(data)
  {
    hide WeeklyTraffic, WeeklyCount, WeeklyRepo, WeeklyWorkflows, WeeklyNetwork, FromYear101;
    TrafficTwice(data.views);
    TrafficTwice(data.clones);
    CountTwice(data.stars);
    CountTwice(data.forks);
    CountTwice(data.contributors);
    RepoTwice(data.repo);
    WorkflowsTwice(data.workflows);
    NetworkTwice(data.network);
  }
}
