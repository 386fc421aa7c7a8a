// The dated CSV series of the metrics archive: one file, two writers.
// The daily collector overwrites, the backfill only fills dates nobody recorded.
module Archive {
  import opened Prelude
  import opened Sorting
  import opened Merge
  import opened Csv

  function DateOf(): Row -> string {
    row => Cell(row, "date")
  }

  ghost predicate Ascending(rows: seq<Row>) {
    forall i, j :: 0 <= i < j < |rows| ==> StrLess(DateOf()(rows[i]), DateOf()(rows[j]))
  }

  /** What one process hands to one file: the collector writes with Overwrite, the backfill with IfAbsent. */
  datatype Write = Write(rows: seq<Row>, mode: Mode)

  function ApplyWrite(rows: seq<Row>, w: Write): seq<Row> {
    Upsert(rows, w.rows, DateOf(), w.mode, ByColumn("date"))
  }

  function Run(rows: seq<Row>, writes: seq<Write>): seq<Row>
    decreases |writes|
  {
    if writes == [] then rows else Run(ApplyWrite(rows, writes[0]), writes[1..])
  }

  /** The row of the last collector run that covered `date`. */
  function LastCollected(writes: seq<Write>, date: string): Option<Row> {
    if writes == [] then None
    else
      var w := writes[|writes| - 1];
      if w.mode.Overwrite? && FindLast(w.rows, DateOf(), date).Some? then FindLast(w.rows, DateOf(), date)
      else LastCollected(writes[..|writes| - 1], date)
  }

  /** The row of the first backfill that covered `date`. */
  function FirstFilled(writes: seq<Write>, date: string): Option<Row> {
    if writes == [] then None
    else if writes[0].mode.IfAbsent? && Find(writes[0].rows, DateOf(), date).Some? then
      Find(writes[0].rows, DateOf(), date)
    else FirstFilled(writes[1..], date)
  }

  lemma AscendingIffSortedDistinct(rows: seq<Row>)
    ensures Ascending(rows) <==> Sorted(ByColumn("date"), rows) && DistinctKeys(rows, DateOf())
  {
    forall i, j | 0 <= i < j < |rows|
      ensures StrLess(DateOf()(rows[i]), DateOf()(rows[j])) <==>
              ByColumn("date")(rows[i], rows[j]) && DateOf()(rows[i]) != DateOf()(rows[j])
    {
      StrTotal(DateOf()(rows[i]), DateOf()(rows[j]));
      StrAsym(DateOf()(rows[i]), DateOf()(rows[j]));
    }
  }

  lemma ApplyWriteAscends(rows: seq<Row>, w: Write)
    ensures Ascending(ApplyWrite(rows, w))
  {
    ByColumnTotal("date");
    SortSorts(ByColumn("date"), PutAll(PutAll([], DateOf(), rows, Overwrite), DateOf(), w.rows, w.mode));
    UpsertFinds(rows, w.rows, DateOf(), w.mode, ByColumn("date"), "");
    AscendingIffSortedDistinct(ApplyWrite(rows, w));
  }

  lemma ApplyFinds(rows: seq<Row>, w: Write, date: string)
    requires DistinctKeys(rows, DateOf())
    ensures DistinctKeys(ApplyWrite(rows, w), DateOf())
    ensures Find(ApplyWrite(rows, w), DateOf(), date)
         == if w.mode.Overwrite? then OrElse(FindLast(w.rows, DateOf(), date), Find(rows, DateOf(), date))
            else OrElse(Find(rows, DateOf(), date), Find(w.rows, DateOf(), date))
  {
    UpsertFinds(rows, w.rows, DateOf(), w.mode, ByColumn("date"), date);
    FindLastDistinct(rows, DateOf(), date);
  }

  lemma {:induction false} RunAscends(rows: seq<Row>, writes: seq<Write>)
    requires Ascending(rows) || writes != []
    ensures Ascending(Run(rows, writes))
    decreases |writes|
  {
    if writes != [] {
      ApplyWriteAscends(rows, writes[0]);
      RunAscends(ApplyWrite(rows, writes[0]), writes[1..]);
    }
  }

  lemma {:induction false} LastCollectedCons(writes: seq<Write>, date: string)
    requires writes != []
    ensures LastCollected(writes, date) == OrElse(LastCollected(writes[1..], date), LastCollected(writes[..1], date))
  {
    var n := |writes| - 1;
    if n > 0 {
      LastCollectedCons(writes[..n], date);
      assert writes[..n][1..] == writes[1..][..n - 1] && writes[..n][..1] == writes[..1];
    } else {
      assert writes[..1] == writes;
    }
  }

  /** Whatever the interleaving, a date's row is the last collected, else the stored, else the first filled one. */
  lemma {:induction false} RunGoverns(rows: seq<Row>, writes: seq<Write>, date: string)
    requires DistinctKeys(rows, DateOf())
    ensures Find(Run(rows, writes), DateOf(), date)
         == OrElse(LastCollected(writes, date), OrElse(Find(rows, DateOf(), date), FirstFilled(writes, date)))
    decreases |writes|
  {
    if writes != [] {
      var w := writes[0];
      ApplyFinds(rows, w, date);
      RunGoverns(ApplyWrite(rows, w), writes[1..], date);
      LastCollectedCons(writes, date);
      assert writes[..1] == [w] && LastCollected([w][..0], date) == None;
    }
  }

  lemma AscendingDetermined(a: seq<Row>, b: seq<Row>)
    requires Ascending(a) && Ascending(b)
    requires forall d :: Find(a, DateOf(), d) == Find(b, DateOf(), d)
    ensures a == b
  {
    ByColumnTotal("date");
    AscendingIffSortedDistinct(a);
    AscendingIffSortedDistinct(b);
    forall x, y | x in a && y in a && ByColumn("date")(x, y) && ByColumn("date")(y, x) ensures x == y {
      StrTotal(DateOf()(x), DateOf()(y));
      FindDistinct(a, DateOf(), x);
      FindDistinct(a, DateOf(), y);
    }
    SameFinds(ByColumn("date"), a, b, DateOf());
  }

  /** One collector write and one backfill write give the same file in either order. */
  lemma WritersCommute(rows: seq<Row>, collected: seq<Row>, filled: seq<Row>)
    requires DistinctKeys(rows, DateOf())
    ensures var c, b := Write(collected, Overwrite), Write(filled, IfAbsent);
            ApplyWrite(ApplyWrite(rows, c), b) == ApplyWrite(ApplyWrite(rows, b), c)
  {
    hide ApplyWrite, Find, FindLast;
    var c, b := Write(collected, Overwrite), Write(filled, IfAbsent);
    var rc, rb := ApplyWrite(rows, c), ApplyWrite(rows, b);
    forall d ensures Find(ApplyWrite(rc, b), DateOf(), d) == Find(ApplyWrite(rb, c), DateOf(), d) {
      ApplyFinds(rows, c, d);
      ApplyFinds(rows, b, d);
      ApplyFinds(rc, b, d);
      ApplyFinds(rb, c, d);
    }
    ApplyWriteAscends(rc, b);
    ApplyWriteAscends(rb, c);
    AscendingDetermined(ApplyWrite(rc, b), ApplyWrite(rb, c));
  }

  /** Running a collector write twice leaves what running it once left. */
  lemma WriteIdempotent(rows: seq<Row>, w: Write)
    ensures ApplyWrite(ApplyWrite(rows, w), w) == ApplyWrite(rows, w)
  {
    var once := ApplyWrite(rows, w);
    ApplyWriteAscends(rows, w);
    ApplyWriteAscends(once, w);
    AscendingIffSortedDistinct(once);
    forall d ensures Find(ApplyWrite(once, w), DateOf(), d) == Find(once, DateOf(), d) {
      UpsertFinds(rows, w.rows, DateOf(), w.mode, ByColumn("date"), d);
      UpsertFinds(once, w.rows, DateOf(), w.mode, ByColumn("date"), d);
      FindLastDistinct(once, DateOf(), d);
    }
    AscendingDetermined(ApplyWrite(once, w), once);
  }

  // ---- The file ----

  predicate DatedHeader(header: seq<string>) {
    |header| >= 2 && header[0] == "date" && Distinct(header) && forall k | k in header :: Plain(k)
  }

  function Projected(header: seq<string>, w: Write): Write {
    w.(rows := Map(Project(header), w.rows))
  }

  lemma ProjectKeepsDate(header: seq<string>, row: Row)
    requires DatedHeader(header)
    ensures DateOf()(Project(header)(row)) == DateOf()(row)
  {
    assert "date" in header;
  }

  function ProjectFound(header: seq<string>, found: Option<Row>): Option<Row> {
    match found
    case None => None
    case Some(row) => Some(Project(header)(row))
  }

  lemma {:induction false} ProjectFinds(header: seq<string>, rows: seq<Row>, d: string)
    requires DatedHeader(header)
    ensures Find(Map(Project(header), rows), DateOf(), d) == ProjectFound(header, Find(rows, DateOf(), d))
  {
    if rows != [] {
      hide Cell, Project;
      ProjectKeepsDate(header, rows[0]);
      assert Map(Project(header), rows)[1..] == Map(Project(header), rows[1..]);
      ProjectFinds(header, rows[1..], d);
    }
  }

  lemma {:induction false} ProjectFindsLast(header: seq<string>, rows: seq<Row>, d: string)
    requires DatedHeader(header)
    ensures FindLast(Map(Project(header), rows), DateOf(), d) == ProjectFound(header, FindLast(rows, DateOf(), d))
  {
    if rows != [] {
      hide Cell, Project;
      var n := |rows| - 1;
      ProjectKeepsDate(header, rows[n]);
      assert Map(Project(header), rows)[..n] == Map(Project(header), rows[..n]);
      ProjectFindsLast(header, rows[..n], d);
    }
  }

  lemma ProjectAscending(header: seq<string>, rows: seq<Row>)
    requires DatedHeader(header) && Ascending(rows)
    ensures Ascending(Map(Project(header), rows))
  {
    var p := Map(Project(header), rows);
    assert "date" in header;
    forall i, j | 0 <= i < j < |p| ensures StrLess(DateOf()(p[i]), DateOf()(p[j])) {
      assert DateOf()(p[i]) == DateOf()(rows[i]) && DateOf()(p[j]) == DateOf()(rows[j]);
    }
  }

  /** Dropping unnamed columns before or after the merge is the same. */
  lemma ProjectApply(header: seq<string>, rows: seq<Row>, w: Write)
    requires DatedHeader(header) && rows == Map(Project(header), rows) && DistinctKeys(rows, DateOf())
    ensures Map(Project(header), ApplyWrite(rows, w)) == ApplyWrite(rows, Projected(header, w))
  {
    var a, b := ApplyWrite(rows, w), ApplyWrite(rows, Projected(header, w));
    ApplyWriteAscends(rows, w);
    ApplyWriteAscends(rows, Projected(header, w));
    ProjectAscending(header, a);
    forall d ensures Find(Map(Project(header), a), DateOf(), d) == Find(b, DateOf(), d) {
      ProjectFinds(header, a, d);
      ProjectFinds(header, w.rows, d);
      ProjectFindsLast(header, w.rows, d);
      ProjectFindsLast(header, rows, d);
      UpsertFinds(rows, w.rows, DateOf(), w.mode, ByColumn("date"), d);
      UpsertFinds(rows, Projected(header, w).rows, DateOf(), w.mode, ByColumn("date"), d);
    }
    AscendingDetermined(Map(Project(header), a), b);
  }

  lemma ProjectTwice(header: seq<string>, rows: seq<Row>)
    ensures Map(Project(header), Map(Project(header), rows)) == Map(Project(header), rows)
  {
    forall i | 0 <= i < |rows|
      ensures Project(header)(Project(header)(rows[i])) == Project(header)(rows[i])
    {
    }
  }

  lemma StoredAscending(header: seq<string>, rows: seq<Row>)
    requires DatedHeader(header) && Ascending(rows)
    ensures Stored(header, rows) == Map(Project(header), rows)
  {
    AscendingIffSortedDistinct(rows);
    SortOfSorted(ByColumn("date"), rows);
  }

  lemma WriteIsUpsert(rows: seq<Row>, w: Write)
    ensures ApplyWrite(rows, w) == Upsert(rows, w.rows, DateOf(), w.mode, ByColumn("date"))
  {
  }

  /** Printing a merge: the text stands for the merged rows, projected. */
  lemma MergedPrints(header: seq<string>, rows: seq<Row>, w: Write)
    requires DatedHeader(header) && rows == Map(Project(header), rows) && Ascending(rows)
    ensures var next := ApplyWrite(rows, Projected(header, w));
            && FormatCsv(header, ApplyWrite(rows, w)) == FormatCsv(header, next)
            && FormatCsv(header, next).Ok?
            && next == Map(Project(header), next) && Ascending(next)
  {
    hide ApplyWrite;
    var merged := ApplyWrite(rows, w);
    ApplyWriteAscends(rows, w);
    AscendingIffSortedDistinct(rows);
    ProjectApply(header, rows, w);
    ProjectAscending(header, merged);
    ProjectTwice(header, merged);
    StoredAscending(header, merged);
    FormatStored(header, merged);
  }

  /** One dated CSV file: its text, absent before the first write, and the rows that text stands for. */
  class SeriesFile {
    const header: seq<string>
    var text: Option<string>
    ghost var rows: seq<Row>

    ghost predicate Valid()
      reads this
    {
      && DatedHeader(header)
      && rows == Map(Project(header), rows) && Ascending(rows)
      && (text.None? ==> rows == [])
      && (text.Some? ==> FormatCsv(header, rows) == Ok(text.value))
    }

    constructor (header: seq<string>)
      requires DatedHeader(header)
      ensures Valid() && rows == [] && this.header == header
    {
      this.header := header;
      text := None;
      rows := [];
    }

    /** `readCsv`: a written file always parses, to the rows it stands for. */
    method Read() returns (r: Result<seq<Row>, CsvError>)
      requires Valid()
      ensures r == Ok(rows)
    {
      match text
      case None => return Ok([]);
      case Some(t) =>
        ParseFormat(header, rows);
        StoredAscending(header, rows);
        r := ParseCsv(t);
    }

    /** `writeCsvSeries` (Overwrite) and `mergeIfAbsent` (IfAbsent): read, merge, print. */
    method MergeWrite(incoming: seq<Row>, mode: Mode)
      requires Valid()
      modifies this
      ensures Valid() && text.Some?
      ensures rows == ApplyWrite(old(rows), Projected(header, Write(incoming, mode)))
    {
      hide ApplyWrite, FormatCsv, ParseCsv, Project, Ascending, DatedHeader, Upsert;
      var existing := Read();
      var merged := UpsertByKey(existing.value, incoming, DateOf(), mode, ByColumn("date"));
      ghost var w := Write(incoming, mode);
      WriteIsUpsert(rows, w);
      MergedPrints(header, rows, w);
      text := Some(FormatCsv(header, merged).value);
      rows := ApplyWrite(rows, Projected(header, w));
    }
  }

  // ---- Releases ----

  function TagOf(): Row -> string {
    row => Cell(row, "tag")
  }

  /** `compareReleaseRows`: date, then tag. */
  function ByRelease(): (Row, Row) -> bool {
    (a, b) => if Cell(a, "date") != Cell(b, "date") then StrLeq(Cell(a, "date"), Cell(b, "date"))
              else StrLeq(Cell(a, "tag"), Cell(b, "tag"))
  }

  lemma ByReleaseTotal()
    ensures TotalPreorder(ByRelease())
  {
    forall x: Row, y: Row ensures ByRelease()(x, y) || ByRelease()(y, x) {
      StrLeqOrder(Cell(x, "date"), Cell(y, "date"), "");
      StrLeqOrder(Cell(x, "tag"), Cell(y, "tag"), "");
    }
    forall x: Row, y: Row, z: Row | ByRelease()(x, y) && ByRelease()(y, z) ensures ByRelease()(x, z) {
      hide StrLeq;
      StrLeqOrder(Cell(x, "date"), Cell(y, "date"), Cell(z, "date"));
      StrLeqOrder(Cell(y, "date"), Cell(z, "date"), Cell(x, "date"));
      StrLeqOrder(Cell(z, "date"), Cell(x, "date"), Cell(y, "date"));
      StrLeqOrder(Cell(x, "tag"), Cell(y, "tag"), Cell(z, "tag"));
    }
  }

  /** `releases.csv`: every tag keeps its own row, and the printer's sort by date leaves a day's tag order alone. */
  lemma ReleasesKeepTags(existing: seq<Row>, incoming: seq<Row>, mode: Mode, tag: string, header: seq<string>)
    requires DatedHeader(header)
    ensures var merged := Upsert(existing, incoming, TagOf(), mode, ByRelease());
            && DistinctKeys(merged, TagOf()) && Sorted(ByRelease(), merged)
            && Stored(header, merged) == Map(Project(header), merged)
            && (Find(merged, TagOf(), tag).Some? <==>
                  exists r :: (r in existing || r in incoming) && TagOf()(r) == tag)
  {
    var merged := Upsert(existing, incoming, TagOf(), mode, ByRelease());
    ByReleaseTotal();
    SortSorts(ByRelease(), PutAll(PutAll([], TagOf(), existing, Overwrite), TagOf(), incoming, mode));
    UpsertFinds(existing, incoming, TagOf(), mode, ByRelease(), tag);
    FindSound(incoming, TagOf(), tag);
    FindLastSound(incoming, TagOf(), tag);
    FindLastSound(existing, TagOf(), tag);
    forall i, j | 0 <= i < j < |merged| ensures ByColumn("date")(merged[i], merged[j]) {
      assert ByRelease()(merged[i], merged[j]);
      StrLeqOrder(Cell(merged[i], "date"), Cell(merged[j], "date"), "");
    }
    SortOfSorted(ByColumn("date"), merged);
  }

  /** The releases file by date, and within a date by tag. */
  lemma ReleaseOrder(existing: seq<Row>, incoming: seq<Row>, mode: Mode)
    ensures var merged := Upsert(existing, incoming, TagOf(), mode, ByRelease());
            forall i, j :: 0 <= i < j < |merged| ==>
              || StrLess(Cell(merged[i], "date"), Cell(merged[j], "date"))
              || (Cell(merged[i], "date") == Cell(merged[j], "date")
                  && StrLess(Cell(merged[i], "tag"), Cell(merged[j], "tag")))
  {
    hide StrLess;
    var merged := Upsert(existing, incoming, TagOf(), mode, ByRelease());
    ByReleaseTotal();
    SortSorts(ByRelease(), PutAll(PutAll([], TagOf(), existing, Overwrite), TagOf(), incoming, mode));
    UpsertFinds(existing, incoming, TagOf(), mode, ByRelease(), "");
    forall i, j | 0 <= i < j < |merged|
      ensures || StrLess(Cell(merged[i], "date"), Cell(merged[j], "date"))
              || (Cell(merged[i], "date") == Cell(merged[j], "date")
                  && StrLess(Cell(merged[i], "tag"), Cell(merged[j], "tag")))
    {
      assert ByRelease()(merged[i], merged[j]);
      assert TagOf()(merged[i]) != TagOf()(merged[j]);
      StrTotal(Cell(merged[i], "date"), Cell(merged[j], "date"));
      StrTotal(Cell(merged[i], "tag"), Cell(merged[j], "tag"));
    }
  }
}
