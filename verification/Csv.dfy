// The CSV printer and the single-pass, quote-tracking parser of the metrics archive.
module Csv {
  import opened Prelude
  import opened Sorting

  /** A row object; a missing key is `undefined` or `null`, which prints as the empty field. */
  type Row = map<string, string>

  datatype CsvError = NoColumns | Unterminated | FieldCount(row: nat)

  // ---- Printing ----

  predicate Special(c: char) {
    c == ',' || c == '"' || c == '\n' || c == '\r'
  }

  predicate Plain(s: string) {
    forall c | c in s :: !Special(c)
  }

  function Doubled(s: string): string {
    if s == [] then []
    else (if s[0] == '"' then "\"\"" else [s[0]]) + Doubled(s[1..])
  }

  function Quote(value: string): string {
    if Plain(value) then value else "\"" + Doubled(value) + "\""
  }

  function Cell(row: Row, key: string): string {
    if key in row then row[key] else ""
  }

  function Cells(header: seq<string>, row: Row): (cells: seq<string>)
    ensures |cells| == |header| && forall i :: 0 <= i < |header| ==> cells[i] == Cell(row, header[i])
  {
    seq(|header|, i requires 0 <= i < |header| => Cell(row, header[i]))
  }

  function PrintLine(cells: seq<string>): string {
    JoinCommas(Map(Quote, cells)) + "\n"
  }

  function PrintLines(lines: seq<seq<string>>): string {
    if lines == [] then "" else PrintLine(lines[0]) + PrintLines(lines[1..])
  }

  function ByColumn(key: string): (Row, Row) -> bool {
    (a, b) => StrLeq(Cell(a, key), Cell(b, key))
  }

  function CellsOf(header: seq<string>): Row -> seq<string> {
    row => Cells(header, row)
  }

  function FormatCsv(header: seq<string>, rows: seq<Row>): Result<string, CsvError> {
    if header == [] then Err(NoColumns)
    else Ok(JoinCommas(header) + "\n" + PrintLines(Map(CellsOf(header), Sort(ByColumn(header[0]), rows))))
  }

  // ---- Parsing ----

  datatype Scan = Scan(rows: seq<seq<string>>, fields: seq<string>, current: string,
                       inQuotes: bool, rowHasContent: bool)

  const START := Scan([], [], "", false, false)

  /** The scanner's state after reading `rest` from state `st`. */
  function ScanRest(rest: string, st: Scan): Scan
    decreases |rest|
  {
    if rest == [] then st
    else if st.inQuotes then
      if rest[0] == '"' then
        if |rest| > 1 && rest[1] == '"' then ScanRest(rest[2..], st.(current := st.current + "\""))
        else ScanRest(rest[1..], st.(inQuotes := false))
      else ScanRest(rest[1..], st.(current := st.current + [rest[0]]))
    else if rest[0] == '"' then ScanRest(rest[1..], st.(inQuotes := true, rowHasContent := true))
    else if rest[0] == ',' then
      ScanRest(rest[1..], st.(fields := st.fields + [st.current], current := "", rowHasContent := true))
    else if rest[0] == '\n' || rest[0] == '\r' then
      var skip := if rest[0] == '\r' && |rest| > 1 && rest[1] == '\n' then 2 else 1;
      ScanRest(rest[skip..], EndRow(st))
    else ScanRest(rest[1..], st.(current := st.current + [rest[0]], rowHasContent := true))
  }

  function EndRow(st: Scan): Scan {
    st.(rows := if st.rowHasContent then st.rows + [st.fields + [st.current]] else st.rows,
        fields := [], current := "", rowHasContent := false)
  }

  function RowsOf(text: string): Result<seq<seq<string>>, CsvError> {
    var st := ScanRest(text, START);
    if st.inQuotes then Err(Unterminated) else Ok(EndRow(st).rows)
  }

  method SplitRows(text: string) returns (r: Result<seq<seq<string>>, CsvError>)
    ensures r == RowsOf(text)
  {
    var rows: seq<seq<string>>, fields: seq<string>, current: string := [], [], "";
    var inQuotes, rowHasContent := false, false;
    var i := 0;
    while i < |text|
      invariant 0 <= i <= |text|
      invariant ScanRest(text[i..], Scan(rows, fields, current, inQuotes, rowHasContent)) == ScanRest(text, START)
    {
      var c := text[i];
      assert text[i..][0] == c && text[i..][1..] == text[i + 1..];
      assert i + 1 < |text| ==> text[i..][1] == text[i + 1] && text[i..][2..] == text[i + 2..];
      if inQuotes {
        if c == '"' {
          if i + 1 < |text| && text[i + 1] == '"' {
            current := current + "\"";
            i := i + 2;
          } else {
            inQuotes := false;
            i := i + 1;
          }
        } else {
          current := current + [c];
          i := i + 1;
        }
      } else if c == '"' {
        inQuotes, rowHasContent := true, true;
        i := i + 1;
      } else if c == ',' {
        fields := fields + [current];
        current, rowHasContent := "", true;
        i := i + 1;
      } else if c == '\n' || c == '\r' {
        if c == '\r' && i + 1 < |text| && text[i + 1] == '\n' {
          i := i + 1;
        }
        i := i + 1;
        if rowHasContent {
          fields := fields + [current];
          rows := rows + [fields];
        }
        fields, current, rowHasContent := [], "", false;
      } else {
        current, rowHasContent := current + [c], true;
        i := i + 1;
      }
    }
    if inQuotes {
      return Err(Unterminated);
    }
    if rowHasContent {
      fields := fields + [current];
      rows := rows + [fields];
    }
    r := Ok(rows);
  }

  /** The text with every CR LF and every lone CR outside quotes turned into a LF; a quote opens or closes. */
  function LineFeeds(text: string, quoted: bool): string
    decreases |text|
  {
    if text == "" then ""
    else if text[0] == '"' then "\"" + LineFeeds(text[1..], !quoted)
    else if text[0] != '\r' || quoted then [text[0]] + LineFeeds(text[1..], quoted)
    else "\n" + LineFeeds(text[if |text| > 1 && text[1] == '\n' then 2 else 1..], false)
  }

  lemma {:induction false} ScanLineFeeds(text: string, st: Scan)
    ensures ScanRest(LineFeeds(text, st.inQuotes), st) == ScanRest(text, st)
    decreases |text|
  {
    var lf := LineFeeds(text, st.inQuotes);
    if text != "" {
      assert lf != "" && lf[0] == if text[0] == '\r' && !st.inQuotes then '\n' else text[0];
      if st.inQuotes && text[0] == '"' {
        assert lf[1..] == LineFeeds(text[1..], false);
        if |text| > 1 && text[1] == '"' {
          assert lf[2..] == LineFeeds(text[2..], true) by {
            assert text[1..][1..] == text[2..];
            assert lf[1..][1..] == lf[2..];
          }
          ScanLineFeeds(text[2..], st.(current := st.current + "\""));
        } else {
          ScanLineFeeds(text[1..], st.(inQuotes := false));
        }
      } else if !st.inQuotes && text[0] == '\r' {
        var skip := if |text| > 1 && text[1] == '\n' then 2 else 1;
        assert lf[1..] == LineFeeds(text[skip..], false);
        ScanLineFeeds(text[skip..], EndRow(st));
      } else {
        assert lf[1..] == LineFeeds(text[1..], if text[0] == '"' then !st.inQuotes else st.inQuotes);
        ScanLineFeeds(text[1..], AfterChar(text[0], st));
      }
    }
  }

  /** The state after one character that is no quote inside quotes and no CR outside them. */
  function AfterChar(c: char, st: Scan): Scan {
    if st.inQuotes then st.(current := st.current + [c])
    else if c == '"' then st.(inQuotes := true, rowHasContent := true)
    else if c == ',' then st.(fields := st.fields + [st.current], current := "", rowHasContent := true)
    else if c == '\n' then EndRow(st)
    else st.(current := st.current + [c], rowHasContent := true)
  }

  /** Line ends may be LF, CR LF or CR in any mix: outside quotes they read alike. */
  lemma LineEndsAlike(text: string)
    ensures RowsOf(text) == RowsOf(LineFeeds(text, false))
  {
    ScanLineFeeds(text, START);
  }

  /** `row[key] = fields[i]` for each column in turn, so a repeated name keeps its last field. */
  function Assign(header: seq<string>, fields: seq<string>): (row: Row)
    requires |fields| == |header|
    ensures row.Keys == set k | k in header
  {
    if header == [] then map[]
    else
      var n := |header| - 1;
      assert header == header[..n] + [header[n]];
      Assign(header[..n], fields[..n])[header[n] := fields[n]]
  }

  function AssignAll(header: seq<string>, rows: seq<seq<string>>, index: nat): (r: Result<seq<Row>, CsvError>)
    ensures r.Ok? ==> |r.value| == |rows|
  {
    if rows == [] then Ok([])
    else if |rows[0]| != |header| then Err(FieldCount(index + 1))
    else match AssignAll(header, rows[1..], index + 1)
      case Ok(rest) => Ok([Assign(header, rows[0])] + rest)
      case Err(e) => Err(e)
  }

  function ParseCsv(text: string): Result<seq<Row>, CsvError> {
    match RowsOf(text)
    case Err(e) => Err(e)
    case Ok(rows) => if rows == [] then Ok([]) else AssignAll(rows[0], rows[1..], 0)
  }

  /** Record `k` is the first after the header to have another number of fields. */
  ghost predicate FirstMisfit(rows: seq<seq<string>>, k: int) {
    1 <= k < |rows| && |rows[k]| != |rows[0]| && forall j :: 1 <= j < k ==> |rows[j]| == |rows[0]|
  }

  lemma {:induction false} AssignAllFails(header: seq<string>, rows: seq<seq<string>>, index: nat)
    ensures var r := AssignAll(header, rows, index);
            && (r.Ok? <==> forall j :: 0 <= j < |rows| ==> |rows[j]| == |header|)
            && (r.Ok? ==> forall j :: 0 <= j < |rows| ==> r.value[j] == Assign(header, rows[j]))
            && (r.Err? ==> r.error.FieldCount? && index < r.error.row <= index + |rows|
                           && |rows[r.error.row - index - 1]| != |header|
                           && forall j :: 0 <= j < r.error.row - index - 1 ==> |rows[j]| == |header|)
  {
    hide Assign;
    if rows != [] {
      AssignAllFails(header, rows[1..], index + 1);
      forall j | 0 < j < |rows| ensures rows[1..][j - 1] == rows[j] {
      }
    }
  }

  /** A text is refused for an open quote, else for its first record of another width, which is named. */
  lemma ParseFailsIff(text: string)
    ensures ParseCsv(text) == Err(Unterminated) <==> RowsOf(text).Err?
    ensures RowsOf(text).Ok? ==>
              var rows, r := RowsOf(text).value, ParseCsv(text);
              && (forall k: nat :: r == Err(FieldCount(k)) <==> FirstMisfit(rows, k))
              && (r.Ok? <==> forall j :: 1 <= j < |rows| ==> |rows[j]| == |rows[0]|)
              && (r.Ok? ==> |r.value| == if rows == [] then 0 else |rows| - 1)
              && (r.Ok? ==> forall j :: 1 <= j < |rows| ==> r.value[j - 1] == Assign(rows[0], rows[j]))
  {
    hide Assign, AssignAll, ScanRest;
    if RowsOf(text).Ok? && RowsOf(text).value != [] {
      var rows := RowsOf(text).value;
      AssignAllFails(rows[0], rows[1..], 0);
      forall j | 0 < j < |rows| ensures rows[1..][j - 1] == rows[j] {
      }
    }
  }

  // ---- The parser reads back what the printer wrote ----

  lemma {:induction false} ScanDoubled(v: string, tail: string, st: Scan)
    requires st.inQuotes && (tail == "" || tail[0] != '"')
    ensures ScanRest(Doubled(v) + "\"" + tail, st) == ScanRest(tail, st.(current := st.current + v, inQuotes := false))
  {
    var rest := Doubled(v) + "\"" + tail;
    if v == [] {
      assert st.current + v == st.current;
      assert rest[1..] == tail;
      if tail == [] { assert |rest| == 1; }
    } else {
      var next := st.(current := st.current + [v[0]]);
      var k := if v[0] == '"' then 2 else 1;
      assert rest[k..] == Doubled(v[1..]) + "\"" + tail;
      ScanDoubled(v[1..], tail, next);
      assert next.current + v[1..] == st.current + v;
    }
  }

  lemma {:induction false} ScanPlain(v: string, tail: string, st: Scan)
    requires !st.inQuotes && Plain(v)
    ensures ScanRest(v + tail, st)
         == ScanRest(tail, st.(current := st.current + v, rowHasContent := st.rowHasContent || v != ""))
  {
    if v == [] {
      assert v + tail == tail && st.current + v == st.current;
    } else {
      assert v[0] in v;
      assert (v + tail)[1..] == v[1..] + tail;
      var next := st.(current := st.current + [v[0]], rowHasContent := true);
      ScanPlain(v[1..], tail, next);
      assert next.current + v[1..] == st.current + v;
    }
  }

  lemma ScanField(v: string, tail: string, st: Scan)
    requires !st.inQuotes && st.current == "" && (tail == "" || tail[0] != '"')
    ensures ScanRest(Quote(v) + tail, st)
         == ScanRest(tail, st.(current := v, rowHasContent := st.rowHasContent || v != ""))
  {
    assert st.current + v == v;
    if Plain(v) {
      ScanPlain(v, tail, st);
    } else {
      ScanQuoted(v, tail, st);
    }
  }

  lemma ScanQuoted(v: string, tail: string, st: Scan)
    requires !st.inQuotes && st.current == "" && (tail == "" || tail[0] != '"')
    ensures ScanRest("\"" + Doubled(v) + "\"" + tail, st) == ScanRest(tail, st.(current := v, rowHasContent := true))
  {
    hide Doubled, Plain;
    var rest := "\"" + Doubled(v) + "\"" + tail;
    var open := st.(inQuotes := true, rowHasContent := true);
    assert rest[1..] == Doubled(v) + "\"" + tail;
    assert ScanRest(rest, st) == ScanRest(rest[1..], open);
    ScanDoubled(v, tail, open);
    assert "" + v == v;
  }

  lemma ScanNewline(tail: string, st: Scan)
    requires !st.inQuotes
    ensures ScanRest("\n" + tail, st) == ScanRest(tail, EndRow(st))
  {
    assert ("\n" + tail)[1..] == tail;
  }

  lemma ScanComma(tail: string, st: Scan)
    requires !st.inQuotes
    ensures ScanRest("," + tail, st)
         == ScanRest(tail, st.(fields := st.fields + [st.current], current := "", rowHasContent := true))
  {
    assert ("," + tail)[1..] == tail;
  }

  lemma PrintLineCons(cells: seq<string>, tail: string)
    requires cells != []
    ensures PrintLine(cells) + tail
         == Quote(cells[0]) + (if |cells| == 1 then "\n" + tail else "," + (PrintLine(cells[1..]) + tail))
  {
    hide Quote;
    var quoted := Map(Quote, cells);
    if |cells| == 1 {
      assert JoinCommas(quoted) == Quote(cells[0]);
    } else {
      assert quoted[1..] == Map(Quote, cells[1..]);
      assert JoinCommas(quoted) == Quote(cells[0]) + "," + JoinCommas(quoted[1..]);
    }
  }

  /** One printed line is one row, except that a line holding a single empty field is blank and is skipped. */
  lemma {:induction false} ScanLine(cells: seq<string>, tail: string, st: Scan)
    requires cells != [] && !st.inQuotes && st.current == ""
    ensures var rows := if st.rowHasContent || cells != [""] then st.rows + [st.fields + cells] else st.rows;
            ScanRest(PrintLine(cells) + tail, st)
            == ScanRest(tail, st.(rows := rows, fields := [], rowHasContent := false))
    decreases |cells|
  {
    hide ScanRest, PrintLine, Quote;
    var v := cells[0];
    var after := st.(current := v, rowHasContent := st.rowHasContent || v != "");
    PrintLineCons(cells, tail);
    if |cells| == 1 {
      assert cells == [v];
      ScanField(v, "\n" + tail, st);
      ScanNewline(tail, after);
    } else {
      var rest := PrintLine(cells[1..]) + tail;
      ScanField(v, "," + rest, st);
      ScanComma(rest, after);
      ScanLine(cells[1..], tail, after.(fields := st.fields + [v], current := "", rowHasContent := true));
      assert st.fields + [v] + cells[1..] == st.fields + cells;
    }
  }

  function NotBlank(): seq<string> -> bool {
    cells => cells != [""]
  }

  lemma NoLines(st: Scan)
    requires st == Scan(st.rows, [], "", false, false)
    ensures ScanRest(PrintLines([]), st) == st && Filter(NotBlank(), []) == []
  {
  }

  lemma FilterFirst<T>(p: T -> bool, s: seq<T>)
    requires s != []
    ensures Filter(p, s) == (if p(s[0]) then [s[0]] else []) + Filter(p, s[1..])
  {
    assert [] + Filter(p, s[1..]) == Filter(p, s[1..]);
  }

  lemma {:induction false} ScanLines(lines: seq<seq<string>>, st: Scan)
    requires forall l | l in lines :: l != []
    requires st == Scan(st.rows, [], "", false, false)
    ensures ScanRest(PrintLines(lines), st) == st.(rows := st.rows + Filter(NotBlank(), lines))
  {
    hide ScanRest, PrintLine, Filter;
    if lines == [] {
      NoLines(st);
      assert st.rows + [] == st.rows;
    } else {
      FilterFirst(NotBlank(), lines);
      assert lines[0] in lines && forall l | l in lines[1..] :: l in lines;
      ScanLine(lines[0], PrintLines(lines[1..]), st);
      assert [] + lines[0] == lines[0];
      var next := st.(rows := if NotBlank()(lines[0]) then st.rows + [lines[0]] else st.rows);
      ScanLines(lines[1..], next);
      var kept := Filter(NotBlank(), lines[1..]);
      assert st.rows + [lines[0]] + kept == st.rows + ([lines[0]] + kept);
    }
  }

  /** Whatever commas, quotes, CR or LF the fields hold, the printed rows come back, blank lines apart. */
  lemma SplitPrinted(lines: seq<seq<string>>)
    requires forall l | l in lines :: l != []
    ensures RowsOf(PrintLines(lines)) == Ok(Filter(NotBlank(), lines))
  {
    ScanLines(lines, START);
    assert [] + Filter(NotBlank(), lines) == Filter(NotBlank(), lines);
  }

  // ---- Round trip ----

  /** The columns the header names; a field the row lacks is the empty string. */
  function Project(header: seq<string>): Row -> Row {
    row => map k | k in header :: Cell(row, k)
  }

  lemma {:induction false} AssignAt(header: seq<string>, fields: seq<string>, i: nat)
    requires Distinct(header) && |fields| == |header| && i < |header|
    ensures header[i] in Assign(header, fields) && Assign(header, fields)[header[i]] == fields[i]
  {
    var n := |header| - 1;
    if i < n {
      AssignAt(header[..n], fields[..n], i);
    }
  }

  lemma AssignCells(header: seq<string>, row: Row)
    requires Distinct(header)
    ensures Assign(header, Cells(header, row)) == Project(header)(row)
  {
    hide Assign, Cell;
    var a, b := Assign(header, Cells(header, row)), Project(header)(row);
    forall k | k in header ensures a[k] == b[k] {
      var i :| 0 <= i < |header| && header[i] == k;
      AssignAt(header, Cells(header, row), i);
    }
  }

  lemma {:induction false} AssignAllCells(header: seq<string>, rows: seq<Row>, index: nat)
    requires Distinct(header)
    ensures AssignAll(header, Map(CellsOf(header), rows), index) == Ok(Map(Project(header), rows))
  {
    if rows != [] {
      AssignCells(header, rows[0]);
      assert Map(CellsOf(header), rows)[1..] == Map(CellsOf(header), rows[1..]);
      AssignAllCells(header, rows[1..], index + 1);
      assert Map(Project(header), rows) == [Project(header)(rows[0])] + Map(Project(header), rows[1..]);
    } else {
      assert Map(Project(header), rows) == [];
    }
  }

  lemma ByColumnTotal(key: string)
    ensures TotalPreorder(ByColumn(key))
  {
    forall x: Row, y: Row ensures ByColumn(key)(x, y) || ByColumn(key)(y, x) {
      StrAsym(Cell(x, key), Cell(y, key));
    }
    forall x: Row, y: Row, z: Row | ByColumn(key)(x, y) && ByColumn(key)(y, z) ensures ByColumn(key)(x, z) {
      StrLeqTrans(Cell(x, key), Cell(y, key), Cell(z, key));
    }
  }

  lemma {:induction false} FilterKeepsAll<T>(p: T -> bool, s: seq<T>)
    requires forall x | x in s :: p(x)
    ensures Filter(p, s) == s
  {
    if s != [] {
      FilterKeepsAll(p, s[1..]);
    }
  }

  lemma {:induction false} FilterDrops<T>(p: T -> bool, s: seq<T>, x: T)
    requires x in s && !p(x)
    ensures |Filter(p, s)| < |s|
  {
    if s[0] != x {
      FilterDrops(p, s[1..], x);
    }
  }

  lemma PrintedHeader(header: seq<string>)
    requires forall k | k in header :: Plain(k)
    ensures PrintLine(header) == JoinCommas(header) + "\n"
  {
    assert Map(Quote, header) == header;
  }

  /** The archive's own rows, as `formatCsv` orders them. */
  function Stored(header: seq<string>, rows: seq<Row>): seq<Row>
    requires header != []
  {
    Map(Project(header), Sort(ByColumn(header[0]), rows))
  }

  /** The printed text is read back as its non-blank lines. */
  lemma FormatSplits(header: seq<string>, rows: seq<Row>)
    requires header != [] && forall k | k in header :: Plain(k)
    ensures FormatCsv(header, rows).Ok?
    ensures var lines := [header] + Map(CellsOf(header), Sort(ByColumn(header[0]), rows));
            RowsOf(FormatCsv(header, rows).value) == Ok(Filter(NotBlank(), lines))
  {
    var body := Map(CellsOf(header), Sort(ByColumn(header[0]), rows));
    var lines := [header] + body;
    PrintedHeader(header);
    assert lines[1..] == body;
    assert FormatCsv(header, rows).value == PrintLines(lines);
    forall l | l in lines ensures l != [] {
      if l != header { assert l in body; }
    }
    SplitPrinted(lines);
  }

  /** Two or more columns: parsing the printed file gives back every row, projected, in stable first-column order. */
  lemma ParseFormat(header: seq<string>, rows: seq<Row>)
    requires |header| >= 2 && Distinct(header) && forall k | k in header :: Plain(k)
    ensures FormatCsv(header, rows).Ok? && ParseCsv(FormatCsv(header, rows).value) == Ok(Stored(header, rows))
  {
    var sorted := Sort(ByColumn(header[0]), rows);
    var body := Map(CellsOf(header), sorted);
    var lines := [header] + body;
    FormatSplits(header, rows);
    forall l | l in lines ensures NotBlank()(l) {
      if l != header { assert l in body; }
    }
    FilterKeepsAll(NotBlank(), lines);
    assert lines[0] == header && lines[1..] == body;
    AssignAllCells(header, sorted, 0);
  }

  /** The order `Stored` gives: ascending in the first column, rows equal there in their input order. */
  lemma StoredOrder(header: seq<string>, rows: seq<Row>, row: Row)
    requires header != []
    ensures Sorted(ByColumn(header[0]), Stored(header, rows))
    ensures Ties(ByColumn(header[0]), row, Sort(ByColumn(header[0]), rows)) == Ties(ByColumn(header[0]), row, rows)
    ensures multiset(Sort(ByColumn(header[0]), rows)) == multiset(rows)
  {
    var leq := ByColumn(header[0]);
    ByColumnTotal(header[0]);
    SortSorts(leq, rows);
    SortStable(leq, rows, row);
    var sorted := Sort(leq, rows);
    forall i, j | 0 <= i < j < |sorted| ensures leq(Stored(header, rows)[i], Stored(header, rows)[j]) {
      assert leq(sorted[i], sorted[j]);
    }
  }

  lemma FormatStored(header: seq<string>, rows: seq<Row>)
    requires header != []
    ensures FormatCsv(header, Stored(header, rows)) == FormatCsv(header, rows)
  {
    var leq := ByColumn(header[0]);
    var sorted, stored := Sort(leq, rows), Stored(header, rows);
    StoredOrder(header, rows, map[]);
    SortOfSorted(leq, stored);
    forall i | 0 <= i < |sorted| ensures Cells(header, stored[i]) == Cells(header, sorted[i]) {
    }
    assert Map(CellsOf(header), stored) == Map(CellsOf(header), sorted);
  }

  /** Formatting what was parsed gives the same bytes again. */
  lemma FormatParseFormat(header: seq<string>, rows: seq<Row>)
    requires |header| >= 2 && Distinct(header) && forall k | k in header :: Plain(k)
    ensures FormatCsv(header, rows).Ok? && ParseCsv(FormatCsv(header, rows).value).Ok?
    ensures FormatCsv(header, ParseCsv(FormatCsv(header, rows).value).value) == FormatCsv(header, rows)
  {
    ParseFormat(header, rows);
    FormatStored(header, rows);
  }

  /** A single column survives exactly when no field is empty and the name is not (or there are no rows). */
  lemma ParseFormatOneColumn(name: string, rows: seq<Row>)
    requires Plain(name)
    ensures FormatCsv([name], rows).Ok?
    ensures ParseCsv(FormatCsv([name], rows).value) == Ok(Stored([name], rows))
       <==> (forall row | row in rows :: Cell(row, name) != "") && (name != "" || rows == [])
  {
    var sorted := Sort(ByColumn(name), rows);
    var body := Map(CellsOf([name]), sorted);
    var lines := [[name]] + body;
    FormatSplits([name], rows);
    hide FormatCsv, RowsOf, ByColumn, Sort, CellsOf, Cell, Plain;
    assert lines[0] == [name] && lines[1..] == body;
    SortKeepsRows(sorted, rows);
    if name == "" {
      assert Filter(NotBlank(), lines) == Filter(NotBlank(), body);
      assert rows == [] ==> Stored([name], rows) == [];
    } else {
      assert Filter(NotBlank(), lines) == [[name]] + Filter(NotBlank(), body);
      OneColumnBody(name, sorted);
    }
  }

  /** So a one-column table with an empty field does not come back. */
  lemma EmptyFieldIsLost(name: string)
    requires Plain(name)
    ensures var rows := [map[name := ""]];
            && FormatCsv([name], rows).Ok?
            && ParseCsv(FormatCsv([name], rows).value) != Ok(Stored([name], rows))
  {
    hide FormatCsv, ParseCsv, Stored;
    var rows := [map[name := ""]];
    ParseFormatOneColumn(name, rows);
    assert rows[0] in rows && Cell(rows[0], name) == "";
  }

  lemma SortKeepsRows(sorted: seq<Row>, rows: seq<Row>)
    requires multiset(sorted) == multiset(rows)
    ensures |sorted| == |rows| && forall row :: row in sorted <==> row in rows
  {
    assert |sorted| == |multiset(sorted)| == |rows|;
    assert forall row :: row in sorted <==> row in multiset(sorted);
    assert forall row :: row in rows <==> row in multiset(rows);
  }

  lemma OneColumnBody(name: string, rows: seq<Row>)
    ensures var kept := Filter(NotBlank(), Map(CellsOf([name]), rows));
            AssignAll([name], kept, 0) == Ok(Map(Project([name]), rows))
            <==> forall row | row in rows :: Cell(row, name) != ""
  {
    if row :| row in rows && Cell(row, name) == "" {
      BlankLine(name, rows, row);
    } else {
      NoBlankLine(name, rows);
      AssignAllCells([name], rows, 0);
    }
  }

  lemma BlankLine(name: string, rows: seq<Row>, row: Row)
    requires row in rows && Cell(row, name) == ""
    ensures |Filter(NotBlank(), Map(CellsOf([name]), rows))| < |rows|
  {
    var body := Map(CellsOf([name]), rows);
    var i :| 0 <= i < |rows| && rows[i] == row;
    assert body[i] == [""];
    FilterDrops(NotBlank(), body, body[i]);
  }

  lemma NoBlankLine(name: string, rows: seq<Row>)
    requires forall row | row in rows :: Cell(row, name) != ""
    ensures Filter(NotBlank(), Map(CellsOf([name]), rows)) == Map(CellsOf([name]), rows)
  {
    var body := Map(CellsOf([name]), rows);
    forall l | l in body ensures NotBlank()(l) {
      var i :| 0 <= i < |body| && body[i] == l;
      assert rows[i] in rows;
      assert l[0] == Cell(rows[i], name);
    }
    FilterKeepsAll(NotBlank(), body);
  }
}
