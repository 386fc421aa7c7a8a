# Backspace: verified models of its scripts and shared rules

This project models the parts of Backspace that hold state, loops or arithmetic, and proves what they promise.

* **Metrics archive** (`Csv`, `Merge`, `Archive`, `Dimensions`, `DayCounts`, `Calendar`): the CSV printer and its
  quote-tracking parser, the calendar behind every date, the keyed merges of the daily collector (overwriting) and of the
  backfill (filling gaps), and the dense day fills.
* **Weekly bundle and summary** (`Weekly`, `Summary`): ISO-week downsampling, and the summary that reads either resolution.
* **Telemetry** (`Tallies`, `Permutations`, `Telemetry`, `TelemetryLaws`, `TelemetryWindows`, `TelemetryRows`, `Export`): the
  network snapshot of a day, the receiver's ping table and export, and the backfill's chunked read of it.
* **Directory hub** (`HubDocument`, `HubValidate`, `Hub`): document validation, hashes, the diff write with its
  same-hash shortcut, and housekeeping, over every run of pings.
* **Pull-request triage** (`Json`, `CanonicalJson`, `SourceDiff`, `SourceClasses`): canonical JSON text as an equality test,
  and the two diffs built on it.
* **Shared rules** (`Mentions`, `MentionLaws`, `HeldBits`): the mention scanner against its grammar, and the rule for
  permission bits an actor does not hold.
* **Push-to-talk** (`ActionLog`, `Portal`, `Keybinds`): the two shortcut backends as state machines over events in any order.
* **Paged fetches** (`Pagination`): following `rel="next"`.

Code that is expressions in TypeScript is a function here; loops are methods with invariants, proved equal to a function or
to the property itself; objects and tables that are updated in place are classes. A JavaScript `Map` or `Set` is its entries
in insertion order, because several results depend on that order. `Sorting` shows that a stable sort is unique, so nothing
depends on which algorithm `Array.prototype.sort` uses.

Where the source's comments and its code differ, the model follows the code:

* `scripts/directory-hub/src/store.ts:122-126` says that the worst outcome of a race between the read and the batch of an
  apply is a redundant write. `Hub.DiffIsRewriteIff` gives the exact condition under which a batch run on later tables ends
  where a full rewrite of them would. `Hub.LostRowStaysLost` shows a row that housekeeping drops in between and that every
  later ping with the same document leaves missing, and `Hub.RaceIsReachable` is a run in which it happens.
* `scripts/pr-triage/src/sources.ts:20-23` calls the comparison one of full canonical JSON. A number like `1e999` parses to an
  infinity and prints as `null`, so two different trees can share a text. `CanonicalJson.TextDecidesIffFinite`,
  `SourceDiff.CountsTreesIff` and `SourceDiff.RemovalsCountTreesIff` are the exact conditions; `SourceDiff.OverflowIsOverlooked`
  is a new executable entry that goes unreported and `SourceDiff.OverflowIsNotReported` a changed setting that does.
* `scripts/pr-triage/src/package-json.ts:36-38` recognises its own parse error by a text member `error`, so a well-formed file
  with such a member fails too: `SourceDiff.DiffPackageJson` says exactly when, `SourceDiff.ErrorMemberIsRefused` is an instance.
* `scripts/pr-triage/src/package-json.ts:63-73` tests keys with `in`, so a key added under a name every object inherits is
  not reported: `SourceDiff.ReportedIff` is the exact condition, `SourceDiff.AddedInheritedNameIsMissed` an instance.
* `scripts/metrics/src/backfill.ts:185-231` checks only the first and last event date. An event between them on a date that
  does not exist is dropped without an error: `DayCounts.TotalsEnd` says the last total is the event count exactly when every
  date is real, and `DayCounts.UnrealDateIsDropped` is such a list.
* `scripts/metrics/src/series.ts:166-206` round-trips every table of two or more columns with plain, distinct names. A
  one-column table survives exactly under the condition of `Csv.ParseFormatOneColumn`, since an empty field prints a blank
  line: `Csv.EmptyFieldIsLost`.
* `packages/desktop/src/keybindManager.ts:231-285` can leave a held action stuck after it is rebound. `Keybinds.ReleasableIff`
  says exactly which held actions any further input can release; `Keybinds.ReboundWithoutKeysSticks` and
  `Keybinds.ReboundToLowButtonSticks` are runs that end with one that none can.

## Model

| member | source | states |
|---|---|---|
| Csv.SplitRows | scripts/metrics/src/series.ts:35-93 | the character loop with its four variables returns the records of the recursive scanner, and fails exactly on an unclosed quote |
| Csv.SplitPrinted | scripts/metrics/src/series.ts:21-93 | printed lines of any fields, whatever commas, quotes, CR or LF they hold, are split back into those fields, blank lines aside |
| Csv.LineEndsAlike | scripts/metrics/src/series.ts:35-93 | outside quotes LF, CR LF and a lone CR, in any mix, split any text into the same records, errors included |
| Csv.ParseFailsIff | scripts/metrics/src/series.ts:166-189 | a text is refused exactly for an unclosed quote or for a record whose field count differs from the header's, and then the first such record is named; else every record becomes its row |
| Csv.ParseFormat | scripts/metrics/src/series.ts:166-206 | for two or more plain distinct columns, parsing what was printed gives the rows projected on the header, in stable first-column order |
| Csv.StoredOrder | scripts/metrics/src/series.ts:195-206 | that order is ascending in the first column, keeps ties in input order, and loses no row |
| Csv.FormatParseFormat | scripts/metrics/src/series.ts:166-206 | printing the parsed rows again gives the same bytes |
| Csv.ParseFormatOneColumn | scripts/metrics/src/series.ts:166-206 | a one-column table is read back iff no field is empty and the column has a name (or there are no rows) |
| Csv.EmptyFieldIsLost | scripts/metrics/src/series.ts:166-206 | one row with an empty field does not come back |
| Calendar.CivilRoundTrip | scripts/metrics/src/series.ts:117-127 | day number and calendar date determine each other |
| Calendar.DayNumberCounts | scripts/metrics/src/series.ts:117-127 | the next calendar date has the next day number, from 1970-01-01 on |
| Calendar.UtcDayStartAccepts | scripts/metrics/src/series.ts:117-127 | accepted are exactly the real dates of the years 0100 to 9999, at their UTC midnight |
| Calendar.RealDateOrder | scripts/metrics/src/series.ts:15-19 | byte order of real dates is their order in time, strictly |
| Calendar.AddDaysSteps | scripts/metrics/src/telemetry.ts:144-146 | stepping by whole days reaches exactly the date that many days away and steps back again, and throws iff the date is not real or the step leaves the time range |
| Calendar.UtcMondayIsMonday | scripts/metrics/src/bundle.ts:715-732 | the result is the one Monday at most six days back, for exactly the real dates |
| Calendar.UtcMondayMonotone | scripts/metrics/src/bundle.ts:715-732 | later dates have the same or a later Monday, in text order too |
| Merge.UpsertByKey | scripts/metrics/src/series.ts:220-272 | the Map loop with its if-absent skip equals the merge the laws are about |
| Merge.UpsertFinds | scripts/metrics/src/series.ts:220-272 | one row per key: overwriting keeps the last incoming, else the stored one; if-absent keeps the stored, else the first incoming |
| Archive.SeriesFile.MergeWrite | scripts/metrics/src/collect.ts:427-436 | read, merge and print leaves the file standing for the merged rows, projected on its header and strictly ascending |
| Archive.MergedPrints | scripts/metrics/src/backfill.ts:337-345 | printing a merge and reading it back loses nothing the next merge looks at |
| Archive.RunAscends | scripts/metrics/src/series.ts:220-232 | every run of collector and backfill writes leaves dates strictly ascending |
| Archive.RunGoverns | scripts/metrics/src/series.ts:220-232 | after any interleaving a date's row is the last collector's that covered it, else the original, else the first backfill's |
| Archive.WritersCommute | scripts/metrics/src/backfill.ts:337-345 | one collector write and one backfill write commute |
| Archive.WriteIdempotent | scripts/metrics/src/series.ts:220-232 | repeating a write changes nothing |
| Archive.ReleasesKeepTags | scripts/metrics/src/collect.ts:451-460 | releases keep one row per tag whatever days they share, and the printer's resort keeps date-then-tag order |
| Archive.ReleaseOrder | scripts/metrics/src/series.ts:285-287 | the releases file is by date and within a date by tag, strictly |
| Dimensions.UpsertFiled | scripts/metrics/src/series.ts:477-491 | every dimensional merge leaves one row per day and dimension, in file order |
| Dimensions.FileOrder | scripts/metrics/src/series.ts:376-388 | a written file is by day, within a day by falling count, within a count by dimension, strictly |
| Dimensions.UpsertIgnoresOrder | scripts/metrics/src/series.ts:376-491 | incoming rows in another order write the same file |
| Dimensions.MergeFillsWholeDays | scripts/metrics/src/backfill.ts:370-380 | a day's rows are left exactly as they were if the file had any, else are exactly the incoming set |
| DayCounts.CountByDay | scripts/metrics/src/series.ts:145-158 | one row per calendar day of the range with that date's number of events; fails exactly on an unreal end |
| DayCounts.CumulativeByDay | scripts/metrics/src/backfill.ts:185-231 | one row per day from the first event to the later of the last and `through`, each the number of real events up to it; when it fails, exactly |
| DayCounts.NextDayCounts | scripts/metrics/src/backfill.ts:225-229 | a day adds exactly the events dated on it |
| DayCounts.TotalsEnd | scripts/metrics/src/backfill.ts:185-231 | totals never fall, and the last is the event count iff every event date is real |
| DayCounts.UnrealDateIsDropped | scripts/metrics/src/backfill.ts:202-229 | an event on 2024-02-30 between two real dates is accepted and counted nowhere |
| DayCounts.TotalsArePrefixSums | scripts/metrics/src/series.ts:145-158 | the totals are the prefix sums of the per-day counts |
| Weekly.BucketWeeks | scripts/metrics/src/bundle.ts:755-769 | the grouping loop equals the bucket function, fails exactly on an unreal date, and then with the first one's error |
| Weekly.WeekBucketsHold | scripts/metrics/src/bundle.ts:755-769 | Mondays strictly ascend, each bucket holds exactly its week's indices in order, and every index has a bucket |
| Weekly.SumBucket | scripts/metrics/src/bundle.ts:794-802 | the loop is the sum of the measured picks |
| Weekly.NullIffUnmeasured | scripts/metrics/src/bundle.ts:794-802 | the sum is null iff nothing was measured |
| Weekly.LastBucket | scripts/metrics/src/bundle.ts:826-844 | the loop returns the value at the latest measured date |
| Weekly.FindNewest | scripts/metrics/src/summary.ts:127-138 | the backward loop finds the last measured value with its date |
| Weekly.SumColumn | scripts/metrics/src/summary.ts:175-184 | the loop is the sum of the measured values, null if none |
| Weekly.EventTotalUnchanged | scripts/metrics/src/bundle.ts:794-860 | the weekly sums of an event series add up to its daily sum, null included |
| Weekly.NewestUnchanged | scripts/metrics/src/bundle.ts:826-949 | the newest measured gauge value is the same before and after, dated on its Monday |
| Weekly.WeeklyTwice | scripts/metrics/src/bundle.ts:755-949 | weekly series bucketed again are unchanged |
| Weekly.WeeklyAgainIff | scripts/metrics/src/bundle.ts:715-732 | bucketing again is possible iff no week opens before the year 0100 |
| Summary.SummaryUnmoved | scripts/metrics/src/summary.ts:230-263 | a downsampled dashboard has the same traffic totals and the same newest counters and gauges |
| Summary.OtherColumnsUnmoved | scripts/metrics/src/bundle.ts:846-960 | weekly uniques and workflow runs add up to the daily ones, and every other gauge column keeps its newest reading on its Monday |
| Summary.FactsRead | scripts/metrics/src/summary.ts:230-263 | each headline is the last measured reading of its own series, with its date, or the total of its own counts |
| Summary.NullWeekIff | scripts/metrics/src/bundle.ts:794-844 | a week is null iff all its days are, for sums and for gauges |
| Summary.DownsampleTwice | scripts/metrics/src/bundle.ts:1055-1077 | downsampling a downsampled dashboard changes nothing, for dates from the year 0101 |
| Tallies.TallyFinds | scripts/metrics/src/telemetry.ts:252-266 | a tally has one entry per key with the number of its items and their sum |
| Tallies.TallyConserves | scripts/metrics/src/telemetry.ts:252-266 | the totals of a tally add up to everything counted |
| Tallies.FoldedConserves | scripts/metrics/src/telemetry.ts:184-198 | folding into `other` loses no count |
| Telemetry.LatestPerInstance | scripts/metrics/src/telemetry.ts:167-175 | the Map loop equals the snapshot function the laws are about |
| Telemetry.DaysByInstance | scripts/metrics/src/telemetry.ts:217-226 | each instance maps to exactly its distinct reporting days in the range |
| Telemetry.TallySnapshot | scripts/metrics/src/telemetry.ts:252-266 | one pass fills the version, country and client tallies of the snapshot |
| Telemetry.Fold | scripts/metrics/src/telemetry.ts:184-198 | the folding loop equals the kept entries sorted, followed by one `other` row if anything folded |
| Telemetry.AggregateTelemetry | scripts/metrics/src/telemetry.ts:213-282 | the whole computation equals the aggregate the laws are about, errors included |
| TelemetryLaws.LatestHolds | scripts/metrics/src/telemetry.ts:167-175 | one row per instance seen in the window, and none of its rows there is newer |
| TelemetryRows.SnapshotMeans | scripts/metrics/src/telemetry.ts:167-240 | the snapshot is exactly the newest in-window rows of instances with two reporting days in thirty |
| TelemetryRows.NumMeans | scripts/metrics/src/telemetry.ts:148-159 | a reported number counts as its floor, at least 0 and at most a billion; anything else counts 0 |
| TelemetryRows.NetworkFigures | scripts/metrics/src/telemetry.ts:230-250 | each figure of the network row is the sum, or the number of instances, of the reported field it is named after |
| TelemetryRows.VersionMeans | scripts/metrics/src/telemetry.ts:68-84 | a version is named iff it reads as three dotted numbers with at most a short pre-release suffix |
| TelemetryLaws.NamedFoldPermuted | scripts/metrics/src/telemetry.ts:184-198 | version and country rows do not depend on the order the counts came in |
| TelemetryLaws.OrderDoesNotMatter | scripts/metrics/src/telemetry.ts:213-282 | with one report per instance and day, row order does not change the network row, versions or countries, nor the merged clients file |
| TelemetryLaws.CountsAddUp | scripts/metrics/src/telemetry.ts:213-282 | version and country counts each sum to the seven-day instances, client counts to the snapshot's clamped client users |
| TelemetryWindows.InstanceCounts | scripts/metrics/src/telemetry.ts:230-241 | the three instance counts are numbers of distinct counted instances reporting in each window, and 1d <= 7d <= 30d |
| TelemetryWindows.DayUsers | scripts/metrics/src/telemetry.ts:231-243 | the one-day users are summed over exactly the counted instances' rows dated that day |
| TelemetryWindows.VersionsBacked | scripts/metrics/src/telemetry.ts:184-282 | a named version stands on exactly its count of distinct instances, at least three, each with two reporting days in thirty |
| TelemetryWindows.CountriesBacked | scripts/metrics/src/telemetry.ts:184-282 | a named country likewise |
| TelemetryWindows.ClientsBacked | scripts/metrics/src/telemetry.ts:268-279 | a named client kind is used on at least three such instances, and its count is their users of it |
| TelemetryRows.VersionNamedIff | scripts/metrics/src/telemetry.ts:184-282 | a version other than `other` has a row iff at least three instances of the snapshot run it, and the row counts them |
| TelemetryRows.CountryNamedIff | scripts/metrics/src/telemetry.ts:184-282 | a country likewise |
| TelemetryRows.ClientNamedIff | scripts/metrics/src/telemetry.ts:184-282 | a client kind has a row iff at least three instances of the snapshot report users on it, and the row sums those |
| TelemetryRows.ClientRowsAreKinds | scripts/metrics/src/telemetry.ts:252-282 | no other client row than web, desktop, mobile and `other` is written |
| TelemetryRows.VersionsInOrder | scripts/metrics/src/telemetry.ts:184-198 | named rows stand by falling count and then by name, with `other` last |
| TelemetryWindows.OtherIsNoVersion | scripts/metrics/src/telemetry.ts:68-84 | the bucket's name is no release version, so versions and bucket never collide |
| TelemetryWindows.WindowDecides | scripts/metrics/src/telemetry.ts:213-232 | an aggregate reads only rows of its trailing thirty days |
| TelemetryWindows.CollectorSeesEnough | scripts/metrics/src/collect.ts:325-329 | the 31-day fetch, in any order, publishes for both written days what the full history would |
| TelemetryWindows.PublishableDays | scripts/metrics/src/telemetry.ts:304-314 | kept are the candidates strictly after the oldest ping |
| TelemetryWindows.ExcludedIsEmpty | scripts/metrics/src/telemetry.ts:304-314 | every excluded day aggregates to zeros with no dimension row |
| Export.CalendarDayAccepted | scripts/telemetry-receiver/src/validate.ts:82-85 | the round trip through the rolling date parser accepts exactly the dates that exist |
| Export.PingStore.UpsertPing | scripts/telemetry-receiver/src/store.ts:35-43 | the last write of an instance and day replaces the earlier one, and every other row stays |
| Export.PingStore.DeleteOlderThan | scripts/telemetry-receiver/src/store.ts:81-84 | exactly the rows before the day go, and the result counts them |
| Export.HandleExport | scripts/telemetry-receiver/src/index.ts:100-146 | served are exactly ordered ranges of at most 31 existing days; the truncation mark is set iff the range exceeds the row or byte cap; unmarked means complete |
| Export.BytesCount | scripts/telemetry-receiver/src/index.ts:125-134 | the byte budget counts every line's length and one newline each |
| Export.WithinBudget | scripts/telemetry-receiver/src/index.ts:125-134 | the lines are the longest prefix the byte budget admits |
| Export.RangeIsComplete | scripts/telemetry-receiver/src/store.ts:58-78 | a range lists every stored row of its days once, by day and instance |
| Export.RangesJoin | scripts/telemetry-receiver/src/store.ts:58-78 | adjoining ranges concatenate to the whole range |
| Export.FetchWindow | scripts/metrics/src/backfill.ts:314-321 | the chunks tile the 89 days up to yesterday, each within the receiver's limit; the read succeeds iff none is cut, and is then every stored ping of the window once in order |
| Pagination.WalkPages | scripts/metrics/src/github.ts:218-252 | terminates, requests no URL twice, returns normally iff a chain of good pages and trusted links ends, and then with the chain's items in order; each error names its cause |
| Pagination.ChainAcyclic | scripts/metrics/src/github.ts:226-242 | such a chain has no repeated URL |
| Json.PrintInjective | scripts/pr-triage/src/sources.ts:35-42 | different normal trees print differently |
| CanonicalJson.CanonicalIsPrint | scripts/pr-triage/src/sources.ts:35-42 | the recursive text is the print of the value with keys sorted, -0 as 0 and an overflowed number as null |
| CanonicalJson.CanonicalIffEquivalent | scripts/pr-triage/src/sources.ts:35-42 | any two parsed values print alike iff they are the same tree up to key order, the sign of zero, and overflowed numbers read as null |
| CanonicalJson.SameTreeText | scripts/pr-triage/src/sources.ts:35-42 | the same parsed tree always prints alike, and values without overflowed numbers print alike only then |
| CanonicalJson.TextDecidesIffFinite | scripts/pr-triage/src/sources.ts:35-42 | a value's text tells it apart from every finite value iff none of its numbers overflowed |
| CanonicalJson.EquivalentLaws | scripts/pr-triage/src/package-json.ts:53-61 | that relation is an equivalence |
| SourceDiff.CountMissing | scripts/pr-triage/src/sources.ts:124 | the loop counts the difference of two sets |
| SourceDiff.DiffSources | scripts/pr-triage/src/sources.ts:114-134 | the loop fills the counters, concerns and removals, and fails exactly when one side does not parse |
| SourceDiff.UnmatchedIffNew | scripts/pr-triage/src/sources.ts:114-134 | an entry is unmatched iff it is equivalent to no base entry |
| SourceDiff.DiffCountsNew | scripts/pr-triage/src/sources.ts:114-134 | known, data and concerns together count exactly the new entries |
| SourceDiff.ConcernsInOrder | scripts/pr-triage/src/sources.ts:88-134 | the concerns are the new foreign or executable entries in file order |
| SourceClasses.KindIff | scripts/pr-triage/src/sources.ts:25-110 | known iff a file or archive with a checksum whose url is https on a listed host and path; data iff inline without `#!` start and script name; foreign iff any other file or archive; executable otherwise |
| SourceClasses.CountersMean | scripts/pr-triage/src/sources.ts:114-134 | the two counters count exactly the new known downloads and the new plain inline entries |
| SourceClasses.ConcernIff | scripts/pr-triage/src/sources.ts:114-134 | a concern is in the report iff a new entry that is neither gives it |
| SourceClasses.ConcernMeans | scripts/pr-triage/src/sources.ts:74-134 | a concern is foreign iff its entry is a file or archive that is not known, and then shows the entry's url if it has one |
| SourceClasses.ConcernLabelled | scripts/pr-triage/src/sources.ts:74-86 | any other concern is named by its type and the first of file name, url, path, first command and directory it has |
| SourceClasses.EntriesReadIff | scripts/pr-triage/src/sources.ts:44-62 | a list is read iff it is absent or an array of objects with a text `type`, and is then that array |
| SourceDiff.RemovedMeans | scripts/pr-triage/src/sources.ts:114-134 | the removal count is the number of distinct base entries no head entry is equivalent to |
| SourceDiff.CountsTreesIff | scripts/pr-triage/src/sources.ts:114-134 | the three counts are the number of new parsed trees, against every finite base, iff no head number overflowed |
| SourceDiff.RemovalsCountTreesIff | scripts/pr-triage/src/sources.ts:114-134 | the removal count is the number of vanished parsed trees, against every finite head, iff no base number overflowed |
| SourceDiff.OverflowIsOverlooked | scripts/pr-triage/src/sources.ts:114-134 | a new shell entry holding `1e999` beside one holding null is counted and reported nowhere |
| SourceDiff.ChangedSubKeys | scripts/pr-triage/src/package-json.ts:63-73 | base keys that changed, then head keys base lacks, each in object order |
| SourceDiff.ReportedIff | scripts/pr-triage/src/package-json.ts:63-73 | a key is reported iff one side lacks it or the values are not equivalent, and no inherited name hides that |
| SourceDiff.DiffersAsTrees | scripts/pr-triage/src/package-json.ts:53-73 | a reported difference is one of parsed trees, and without overflowed numbers every such difference is one |
| SourceDiff.OverflowIsNotReported | scripts/pr-triage/src/package-json.ts:53-73 | a key changed from null to an overflowed number is not reported |
| SourceDiff.AddedInheritedNameIsMissed | scripts/pr-triage/src/package-json.ts:63-73 | an added `toString` is not reported |
| SourceDiff.DiffPackageJson | scripts/pr-triage/src/package-json.ts:22-98 | scripts, pnpm settings and package manager, in that order; fails exactly when a side is no JSON, no object or has a text member `error`, the base first |
| SourceDiff.ErrorMemberIsRefused | scripts/pr-triage/src/package-json.ts:36-84 | the well-formed file `{"error":"x"}` is refused with its own text as the reason |
| SourceClasses.UnreadableIff | scripts/pr-triage/src/package-json.ts:22-50 | a package file cannot be compared iff it is no JSON, no object or has a text member `error` |
| SourceDiff.PackageManagerIff | scripts/pr-triage/src/package-json.ts:93-95 | the package manager is reported iff it was added, removed or is not equivalent, an absent file included |
| HubDocument.RowHashInjective | scripts/directory-hub/src/hash.ts:51-53 | row hashes agree iff all columns do |
| HubDocument.DocumentHashIff | scripts/directory-hub/src/hash.ts:62-70 | document hashes agree iff the content does, whatever the order of the spaces |
| HubValidate.ParsedSpaceBounded | scripts/directory-hub/src/validate.ts:136-159 | an accepted space is within every bound, and its images are on the document's origin |
| HubValidate.SpaceIff | scripts/directory-hub/src/validate.ts:124-159 | a raw space is accepted as a given row iff every column of it is the object's member of that name within its bounds, the color one of seven or none |
| HubValidate.SpaceAcceptedIff | scripts/directory-hub/src/validate.ts:124-159 | a raw space is accepted iff each member by itself meets its condition; an unlisted color refuses nothing |
| HubValidate.HeadIff | scripts/directory-hub/src/validate.ts:168-190 | the head is accepted with given instance columns iff the text is schema 1 of this origin, those columns are its members within bounds, and it lists at most 200 spaces |
| HubValidate.OriginMismatchIff | scripts/directory-hub/src/validate.ts:174-179 | a mismatch is found iff the schema is 1 and the origin parses to another one, whatever else is wrong |
| HubValidate.StoredIff | scripts/directory-hub/src/validate.ts:168-212 | a whole document is stored iff its head, every space in order and the uniqueness of ids are as the parsed text has them |
| HubValidate.ParseDocument | scripts/directory-hub/src/validate.ts:168-212 | returns a document iff the text is small enough and stands for exactly that document, column by column; when a mismatch is reported, exactly |
| Hub.Directory.ApplyDocument | scripts/directory-hub/src/store.ts:128-207 | the diff write ends in the state of a full rewrite, and the three counters count what it changed |
| Hub.CountedIff | scripts/directory-hub/src/store.ts:128-207 | a space counts as inserted iff the tables had no row of its id, as updated iff their row was another space |
| Hub.Directory.TouchOriginOk | scripts/directory-hub/src/store.ts:100-102 | an existing row gets the new time and keeps every other column; other rows and tables are untouched, and no row is made |
| Hub.Directory.HandlePing | scripts/directory-hub/src/index.ts:217-262 | shortcut or diff, a ping has the effect of the step that always rewrites, and its status |
| Hub.PingStatus | scripts/directory-hub/src/index.ts:217-262 | exactly when each of the five statuses is answered, with a ten second cooldown; only a 204 touches what is listed, and exactly 204 and 502 record the attempt |
| Hub.PingWritesOrigin | scripts/directory-hub/src/store.ts:100-160 | after a 204 the origin's row has the fetched hash and time and keeps the time it was first seen; other origins keep theirs |
| Hub.Directory.Scheduled | scripts/directory-hub/src/index.ts:339-342 | exactly the origins and attempts from the cutoff on and the spaces of kept origins survive, unchanged, and the result counts the expired origins, their spaces and the expired attempts |
| Hub.HashMatchesIff | scripts/directory-hub/src/index.ts:253-261 | the stored hash equals the fetched one iff the tables already hold exactly that document |
| Hub.ShortcutIsRewrite | scripts/directory-hub/src/index.ts:253-261 | on a matching hash the one-column write ends in the same state as a full apply |
| Hub.FullRewriteConsistent | scripts/directory-hub/src/store.ts:128-207 | an apply keeps hashes and rows in agreement and leaves exactly the document |
| Hub.PurgeConsistent | scripts/directory-hub/src/store.ts:261-267 | housekeeping keeps every row's origin and every hash |
| Hub.RunConsistent | scripts/directory-hub/src/index.ts:217-262 | over every run of non-overlapping pings and housekeeping, each hash is the hash of what is stored and no space lacks its origin |
| Hub.ListedExactly | scripts/directory-hub/src/index.ts:217-262 | a 204 leaves exactly the fetched document for that origin and other origins untouched |
| Hub.BatchEffect | scripts/directory-hub/src/store.ts:128-207 | the statements built from one read, run on any tables, delete the vanished ids, write the changed rows and leave the rest of them alone |
| Hub.DiffIsRewriteIff | scripts/directory-hub/src/store.ts:122-207 | on any later tables, that batch equals a full rewrite iff every row it skips is still the one it read and no unlisted row appeared |
| Hub.LostRowStaysLost | scripts/directory-hub/src/store.ts:122-126 | from consistent tables: an unchanged row purged between read and batch is missing afterwards while the hash matches, and stays so through every ping with that document |
| Hub.RaceIsReachable | scripts/directory-hub/src/store.ts:122-126 | one ping, thirty silent days, a rename and the cron between read and batch lead there |
| Mentions.SplitMentions | packages/shared/src/mentions.ts:43-61 | the loop over matches equals the recursive split |
| MentionLaws.MatchIsReading | packages/shared/src/mentions.ts:25-27 | the scanner matches at a place iff the text there reads as a fenced or inline code span, a token with an identifier, or a keyword standing alone |
| MentionLaws.MatchesScan | packages/shared/src/mentions.ts:25-48 | the matches are such readings, apart from each other, that cover every reading's start |
| MentionLaws.ScanIsUnique | packages/shared/src/mentions.ts:25-48 | and no other list of readings is |
| MentionLaws.MatchedIff | packages/shared/src/mentions.ts:25-48 | a reading, code included, is matched iff no earlier match covers its start |
| MentionLaws.MentionIsPartIff | packages/shared/src/mentions.ts:43-61 | a user, role or keyword is a part at a place iff it is spelled there and no earlier match covers the place |
| MentionLaws.CodeSpanHoldsNoMention | packages/shared/src/mentions.ts:25-61 | no mention part touches a code span that no earlier match covers |
| MentionLaws.PingsExactly | packages/shared/src/mentions.ts:70-79 | the ids and the everyone flag are exactly those spelled outside earlier matches |
| MentionLaws.CodeAlonePingsNobody | packages/shared/src/mentions.ts:25-79 | a message that is one code span pings nobody, whatever it holds |
| Mentions.SplitJoins | packages/shared/src/mentions.ts:43-61 | the parts' text and tokens joined are the content |
| Mentions.SplitTidy | packages/shared/src/mentions.ts:43-61 | no text part is empty and no two are adjacent |
| Mentions.MatchIsPart | packages/shared/src/mentions.ts:43-61 | every mention match becomes one part at its place |
| Mentions.PartIsMatch | packages/shared/src/mentions.ts:43-61 | every mention part is a match at its place |
| Mentions.NoMentionInCode | packages/shared/src/mentions.ts:25-61 | no mention part overlaps a matched code span |
| Mentions.TokenIsPartIff | packages/shared/src/mentions.ts:25-61 | a well-formed user or role token becomes its own part iff no matched code span contains it |
| Mentions.EveryTokenIsPart | packages/shared/src/mentions.ts:25-61 | in content without backticks every well-formed token does |
| Mentions.ParseMentions | packages/shared/src/mentions.ts:70-79 | the sets are exactly the ids of the parts |
| Mentions.AddsMassMention | packages/shared/src/mentions.ts:94-102 | true iff a mass mention or role appears that the old text lacked |
| Mentions.EditsNeverAdd | packages/shared/src/mentions.ts:94-102 | a chain of edits none of which adds one does not add one from first to last |
| HeldBits.RoleRefusalIff | packages/shared/src/permissions.ts:189-203 | which refusal, bit by bit; accepted iff no unheld bit switches |
| HeldBits.LockedIff | packages/shared/src/permissions.ts:183-191 | a bit is locked iff the actor lacks it and also lacks one of the defined permissions |
| HeldBits.OverrideRefusalIff | packages/shared/src/permissions.ts:189-225 | the same for the allow and deny bits of an override, a missing one being empty |
| HeldBits.EditsCompose | packages/shared/src/permissions.ts:189-203 | two accepted role edits compose into an accepted one, and each can be undone |
| HeldBits.OverridesCompose | packages/shared/src/permissions.ts:211-225 | two accepted override edits likewise |
| HeldBits.RunKeepsLocked | packages/shared/src/permissions.ts:189-225 | over any run of accepted edits, a bit no actor holds is unchanged in permissions, allow and deny |
| ActionLog.AlternatesPerAction | packages/desktop/src/globalShortcutsPortal.ts:186-206 | if every call changes what is held, each action's calls strictly alternate from a press |
| Portal.GlobalShortcutsPortal.SetList | packages/desktop/src/globalShortcutsPortal.ts:194-210 | the loops read the list and release exactly the held actions whose assignment changed |
| Portal.GlobalShortcutsPortal.Refresh | packages/desktop/src/globalShortcutsPortal.ts:105-123 | with one fetch out at most, a request taken is covered by the fetch just started or remembered for the next |
| Portal.GlobalShortcutsPortal.OnListSettled | packages/desktop/src/globalShortcutsPortal.ts:112-120 | after a turn of the loop, a fetch still out started after every request, and with none out an open portal shows a list that did |
| Portal.GlobalShortcutsPortal.Stop | packages/desktop/src/globalShortcutsPortal.ts:221-242 | everything held is released once |
| Portal.AssignmentsOfList | packages/desktop/src/globalShortcutsPortal.ts:194-201 | an action is assigned iff an entry names it, with the last such entry's trigger text |
| Portal.ListReleasesChanged | packages/desktop/src/globalShortcutsPortal.ts:202-208 | an action stays held iff it was held and its assignment is unchanged |
| Portal.PressesAlternate | packages/desktop/src/globalShortcutsPortal.ts:180-209 | over every run, each action's calls alternate from a press, and the held set is exactly what was last pressed |
| Portal.HeldIffActivated | packages/desktop/src/globalShortcutsPortal.ts:180-219 | over every run, an open portal holds an action iff it was activated and since then neither deactivated nor reassigned by a shown list |
| Portal.ShownIsLast | packages/desktop/src/globalShortcutsPortal.ts:194-210 | over every run, an open portal's assignments are those of the last list a waited-for reply carried |
| Portal.ClosedIff | packages/desktop/src/globalShortcutsPortal.ts:56-123 | over every run, the portal is closed iff a stop, a loss or a reply that is no list came |
| Portal.BoundIff | packages/desktop/src/globalShortcutsPortal.ts:56-103 | over every run, an open portal is bound iff a bind reply came after a start |
| Portal.RefreshesAreNotLost | packages/desktop/src/globalShortcutsPortal.ts:105-123 | over every run at most one fetch is out, and when none is, an open portal shows a list fetched after the latest request |
| Portal.FetchedAgainIff | packages/desktop/src/globalShortcutsPortal.ts:105-123 | over every run, a list that arrives at an open portal is fetched again iff it was requested since its fetch began |
| Portal.StopEndsTheCalls | packages/desktop/src/globalShortcutsPortal.ts:221-242 | a stop releases exactly what is held, and no later event calls an action |
| Keybinds.KeybindManager.UpdateKeybinds | packages/desktop/src/keybindManager.ts:142-163 | unbound actions are released, and the hook starts or stops with the list |
| Keybinds.KeybindManager.EvaluateKeybinds | packages/desktop/src/keybindManager.ts:243-253 | the loop presses each idle binding that fires, in order |
| Keybinds.KeybindManager.CheckReleases | packages/desktop/src/keybindManager.ts:266-276 | the loop releases exactly the held keyboard actions with a key up |
| Keybinds.KeybindManager.CheckMouseReleases | packages/desktop/src/keybindManager.ts:278-285 | the loop releases exactly the held actions bound to the button |
| Keybinds.FireHolds | packages/desktop/src/keybindManager.ts:243-264 | after a pass, held is what was held or has a firing binding |
| Keybinds.PressesAlternate | packages/desktop/src/keybindManager.ts:142-285 | over every run, each action's calls alternate from a press, the held set is what was last pressed, and a stopped hook holds nothing |
| Keybinds.HeldIffPressed | packages/desktop/src/keybindManager.ts:217-285 | while the configuration stands since the hook started and actions are unique, a keyboard binding is held iff all its keys are down |
| Keybinds.RestoredAfterChange | packages/desktop/src/keybindManager.ts:142-285 | after a change, the next mapped key-down restores one direction and the next mapped key-up the other |
| Keybinds.ReleasableIff | packages/desktop/src/keybindManager.ts:231-285 | after any run, some input run releases a held action iff its first binding has keys and no button, or a button above 2 |
| Keybinds.ReboundWithoutKeysSticks | packages/desktop/src/keybindManager.ts:266-276 | configured, pressed, then rebound without keys, an action stays held through all input |
| Keybinds.ReboundToLowButtonSticks | packages/desktop/src/keybindManager.ts:231-285 | rebound to button 1, with whatever keys, likewise |
| Keybinds.HeldIffButtonFired | packages/desktop/src/keybindManager.ts:231-285 | while the configuration stands since the hook started and actions are unique, a binding to a button above 2 is held iff a press of it with its keys down came after its last release |
| Keybinds.InertNeverHeld | packages/desktop/src/keybindManager.ts:231-264 | a binding to a button up to 2, or to neither button nor key, is never held while the configuration stands |

## Left out

- Strings are sequences of Unicode code points; UTF-16 code units, lone surrogates and where JavaScript's order differs from code-point order are not modelled.
- SHA-256 is taken as injective, and `JSON.parse`, the URL parser and `Date` arithmetic beyond UTC days are parameters or values; JSON numbers carry their printed text.
- Databases, HTTP, D-Bus, Electron, timers, rate limiters and bearer tokens: tables are maps or row lists under their stated conflict and cascade rules, and code between two awaits is one step.
- Overlapping applies for one origin: the hub invariant is for applies that do not overlap, and beyond that only `Hub.DiffIsRewriteIff` and `Hub.LostRowStaysLost` are claimed.
- Per-day conservation across repeated collector writes of dimension files: a merge never removes a row that a new aggregate lacks, so sums are claimed for one aggregate and for whole-day fills.
- Archive.SeriesFile.MergeWrite: is about columns of text; the conversion of numbers to text is not modelled, nor are object keys such as `__proto__` as column names.
- Dimensions.UpsertFiled: counts are integers, so the check that refuses non-finite counts has no case.
- Telemetry.TallySnapshot: the two maps by client kind always hold the same keys in the same order and are one map with two numbers here.
- Telemetry.AggregateTelemetry: a group of a ping body is a map from field name to value; groups that are no records read like empty ones.
- TelemetryLaws.OrderDoesNotMatter: needs one report per instance and day, which the receiver's table guarantees; with two, the first of equal days would count.
- Export.FetchWindow: the table stays as it is while the chunks are read, and every exported line parses; the parsing of NDJSON is left out.
- Pagination.WalkPages: each URL answers the same page throughout one walk, and the parsing of the `Link` header is left out.
- Keybinds.PressesAlternate: is about the calls the manager makes; whether a window is there to receive them is not modelled, nor is the Wayland branch that hands everything to the portal.
- Portal.RefreshesAreNotLost: the `status` callback is not modelled, so nothing is claimed of a ready status after a stop during start.
- Summary.SummaryUnmoved: peak days, measured-day counts, top referrer and path, the latest release and the date range are left out.
- The feed query, document fetching, dashboard assembly, HTML rendering, the byte budget of the bundle, issue and label handling, localisation and packaging add only small claims.
