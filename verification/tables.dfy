/** `TextTable` and `ParamsTable` from the record formatting module: column
    widths, padded `'|'` grids and plain separator-joined lines. A row is given
    as its already-stringified cells, one per header. */
module Tables {
  import opened Results
  import opened Strings

  /** The `seperator` values the formatters pass: `'|'` draws a padded grid,
      `';'` and `'\t'` join the bare cells. */
  datatype Separator = Pipe | Semicolon | Tab {
    function Char(): char
    {
      match this
      case Pipe => '|'
      case Semicolon => ';'
      case Tab => '\t'
    }
  }

  const TextTableMaxWidth: nat := 20
  const ParamsTableMaxWidth: nat := 13

  function Min(a: nat, b: nat): nat { if a < b then a else b }

  /** Every row has one cell per column. */
  predicate Rectangular(rows: seq<seq<string>>, n: nat)
  {
    forall k :: 0 <= k < |rows| ==> |rows[k]| == n
  }

  /** `max([len(header)] + [len(cell) for each row's cell in column i])`. */
  function LongestCell(header: string, rows: seq<seq<string>>, i: nat): (m: nat)
    requires forall k :: 0 <= k < |rows| ==> i < |rows[k]|
    ensures m >= |header|
    ensures forall k :: 0 <= k < |rows| ==> m >= |rows[k][i]|
    ensures m == |header| || exists k :: 0 <= k < |rows| && m == |rows[k][i]|
  {
    if |rows| == 0 then |header|
    else
      var m := LongestCell(header, rows[..|rows| - 1], i);
      var c := |rows[|rows| - 1][i]|;
      if c > m then c else m
  }

  /** `calculate_column_widths`: one width per header, the longest of the header
      and the column's cells, capped at `maxWidth`. */
  function ColumnWidths(headers: seq<string>, rows: seq<seq<string>>, maxWidth: nat): (ws: seq<nat>)
    requires Rectangular(rows, |headers|)
    ensures |ws| == |headers|
    ensures forall i :: 0 <= i < |ws| ==> ws[i] <= maxWidth && Min(maxWidth, |headers[i]|) <= ws[i]
    ensures forall k, i :: 0 <= k < |rows| && 0 <= i < |ws| ==> Min(maxWidth, |rows[k][i]|) <= ws[i]
    ensures forall i :: 0 <= i < |ws| ==> ws[i] == Min(maxWidth, LongestCell(headers[i], rows, i))
    ensures forall i :: 0 <= i < |ws| && ws[i] < maxWidth ==>
              ws[i] == |headers[i]| || exists k :: 0 <= k < |rows| && ws[i] == |rows[k][i]|
    ensures forall i :: 0 <= i < |ws| && ws[i] == maxWidth ==>
              maxWidth <= |headers[i]| || exists k :: 0 <= k < |rows| && maxWidth <= |rows[k][i]|
  {
    seq(|headers|, i requires 0 <= i < |headers| => Min(maxWidth, LongestCell(headers[i], rows, i)))
  }

  /** Each cell padded to its column's width, as `"%-Ns"` does. */
  function PadCells(cells: seq<string>, widths: seq<nat>): seq<string>
    requires |cells| == |widths|
  {
    seq(|cells|, i requires 0 <= i < |cells| => PadRight(cells[i], widths[i]))
  }

  /** One line of a table: the format string built in `__str__` applied to a
      tuple of cells. */
  function FormatLine(sep: Separator, widths: seq<nat>, cells: seq<string>): string
    requires |cells| == |widths|
  {
    if sep == Pipe then "| " + Join(" | ", PadCells(cells, widths)) + " |\n"
    else Join([sep.Char()], cells) + "\n"
  }

  /** Every cell cut to `maxWidth` characters, as `str(value)[:max_column_width]`. */
  function TakeAll(cells: seq<string>, maxWidth: nat): (r: seq<string>)
    ensures |r| == |cells| && forall i :: 0 <= i < |cells| ==> r[i] == Take(cells[i], maxWidth)
  {
    seq(|cells|, i requires 0 <= i < |cells| => Take(cells[i], maxWidth))
  }

  /** The cells of a printed `';'` or tab line: the line without its final
      newline, split at the separator. */
  function LineCells(sep: Separator, line: string): seq<string>
  {
    if |line| == 0 then [] else Split(line[..|line| - 1], sep.Char())
  }

  /** The header line followed by one line per row, each row's cells cut to `maxWidth`. */
  function Lines(sep: Separator, widths: seq<nat>, headerCells: seq<string>,
                 rows: seq<seq<string>>, maxWidth: nat): (lines: seq<string>)
    requires |headerCells| == |widths| && Rectangular(rows, |widths|)
    ensures |lines| == |rows| + 1
  {
    [FormatLine(sep, widths, headerCells)]
    + seq(|rows|, k requires 0 <= k < |rows| => FormatLine(sep, widths, TakeAll(rows[k], maxWidth)))
  }

  // ---------------------------------------------------------------- TextTable

  /** A `TextTable`: headers (record attribute names), one row of cells per record. */
  datatype TextTable = TextTable(headers: seq<string>, rows: seq<seq<string>>,
                                 maxColumnWidth: nat, separator: Separator)
  {
    predicate Valid() { Rectangular(rows, |headers|) }
  }

  /** `TextTable(headers, rows)` with the constructor's defaults. */
  function NewTextTable(headers: seq<string>, rows: seq<seq<string>>, sep: Separator): TextTable
  {
    TextTable(headers, rows, TextTableMaxWidth, sep)
  }

  function TextTableWidths(t: TextTable): (ws: seq<nat>)
    requires t.Valid()
  {
    ColumnWidths(t.headers, t.rows, t.maxColumnWidth)
  }

  /** The header row of a `TextTable`: every header title-cased. */
  function Titles(headers: seq<string>): (ts: seq<string>)
    ensures |ts| == |headers|
    ensures forall i :: 0 <= i < |headers| ==> ts[i] == Title(headers[i])
  {
    seq(|headers|, i requires 0 <= i < |headers| => Title(headers[i]))
  }

  /** The lines of `str(TextTable)`: title-cased headers (never cut), then the rows. */
  function TextTableLines(t: TextTable): (lines: seq<string>)
    requires t.Valid()
  {
    var titles := Titles(t.headers);
    Lines(t.separator, TextTableWidths(t), titles, t.rows, t.maxColumnWidth)
  }

  function TextTableString(t: TextTable): string
    requires t.Valid()
  {
    Concat(TextTableLines(t))
  }

  // -------------------------------------------------------- line shape lemmas

  function SumWidths(ws: seq<nat>): nat
  {
    if |ws| == 0 then 0 else ws[0] + SumWidths(ws[1..])
  }

  function TotalLength(parts: seq<string>): nat
  {
    if |parts| == 0 then 0 else |parts[0]| + TotalLength(parts[1..])
  }

  /** The length every padded `'|'` line has for the given widths. */
  function PipeLineLength(ws: seq<nat>): nat
  {
    if |ws| == 0 then 5 else 5 + SumWidths(ws) + 3 * (|ws| - 1)
  }

  lemma {:induction false} JoinLength(sep: string, parts: seq<string>)
    requires |parts| > 0
    ensures |Join(sep, parts)| == TotalLength(parts) + |sep| * (|parts| - 1)
  {
    if |parts| > 1 {
      JoinLength(sep, parts[1..]);
    }
  }

  lemma {:induction false} TotalLengthOfWidths(parts: seq<string>, ws: seq<nat>)
    requires |parts| == |ws|
    requires forall i :: 0 <= i < |ws| ==> |parts[i]| == ws[i]
    ensures TotalLength(parts) == SumWidths(ws)
  {
    if |ws| > 0 {
      TotalLengthOfWidths(parts[1..], ws[1..]);
    }
  }

  /** A `'|'` line whose cells all fit their columns is exactly `PipeLineLength` long. */
  lemma PipeLineFits(widths: seq<nat>, cells: seq<string>)
    requires |cells| == |widths|
    requires forall i :: 0 <= i < |cells| ==> |cells[i]| <= widths[i]
    ensures |FormatLine(Pipe, widths, cells)| == PipeLineLength(widths)
  {
    var padded := PadCells(cells, widths);
    TotalLengthOfWidths(padded, widths);
    if |padded| > 0 {
      JoinLength(" | ", padded);
    }
  }

  /** A data line of a table keeps its columns when no cut cell is wider than
      its column: then every data line has the same length. */
  lemma {:induction false} PipeRowsSameLength(widths: seq<nat>, headerCells: seq<string>,
                                              rows: seq<seq<string>>, maxWidth: nat)
    requires |headerCells| == |widths| && Rectangular(rows, |widths|)
    requires forall k, i :: 0 <= k < |rows| && 0 <= i < |widths| ==> Min(maxWidth, |rows[k][i]|) <= widths[i]
    ensures forall k :: 1 <= k < |rows| + 1 ==>
              |Lines(Pipe, widths, headerCells, rows, maxWidth)[k]| == PipeLineLength(widths)
  {
    var lines := Lines(Pipe, widths, headerCells, rows, maxWidth);
    forall k | 1 <= k < |rows| + 1
      ensures |lines[k]| == PipeLineLength(widths)
    {
      var cut := TakeAll(rows[k - 1], maxWidth);
      assert lines[k] == FormatLine(Pipe, widths, cut);
      PipeLineFits(widths, cut);
    }
  }

  /** In a `'|'` `TextTable` every data line has the same length: each cut cell
      is padded to exactly its column's width. */
  lemma TextTableRowsAligned(t: TextTable)
    requires t.Valid() && t.separator == Pipe
    ensures var lines := TextTableLines(t);
            forall k :: 1 <= k < |lines| ==> |lines[k]| == PipeLineLength(TextTableWidths(t))
  {
    var titles := Titles(t.headers);
    PipeRowsSameLength(TextTableWidths(t), titles, t.rows, t.maxColumnWidth);
  }

  /** In a `'|'` `TextTable` the header line reads back as the title-cased
      headers and each data line as the record's values cut to the maximum
      width, each padded to its column's width, when no header or value holds
      a `'|'`. A cut value always fits its column, so its box is exactly two
      wider than the column. */
  lemma TextTablePipeLines(t: TextTable)
    requires t.Valid() && t.separator == Pipe && |t.headers| > 0
    requires forall i :: 0 <= i < |t.headers| ==> '|' !in t.headers[i]
    requires forall k, i :: 0 <= k < |t.rows| && 0 <= i < |t.headers| ==> '|' !in t.rows[k][i]
    ensures var lines, ws := TextTableLines(t), TextTableWidths(t);
            && PipeLineCells(lines[0])
               == BoxedCells(Titles(t.headers), ws)
            && forall k :: 0 <= k < |t.rows| ==>
                 && PipeLineCells(lines[k + 1]) == BoxedCells(TakeAll(t.rows[k], t.maxColumnWidth), ws)
                 && forall i :: 0 <= i < |t.headers| ==> |PipeLineCells(lines[k + 1])[i]| == ws[i] + 2
  {
    var lines, ws := TextTableLines(t), TextTableWidths(t);
    TextTablePipeHeader(t);
    forall k | 0 <= k < |t.rows|
      ensures PipeLineCells(lines[k + 1]) == BoxedCells(TakeAll(t.rows[k], t.maxColumnWidth), ws)
      ensures forall i :: 0 <= i < |t.headers| ==> |PipeLineCells(lines[k + 1])[i]| == ws[i] + 2
    {
      TextTablePipeRow(t, k);
    }
  }

  lemma TextTablePipeHeader(t: TextTable)
    requires t.Valid() && t.separator == Pipe && |t.headers| > 0
    requires forall i :: 0 <= i < |t.headers| ==> '|' !in t.headers[i]
    ensures PipeLineCells(TextTableLines(t)[0])
            == BoxedCells(Titles(t.headers), TextTableWidths(t))
  {
    var titles := Titles(t.headers);
    forall i | 0 <= i < |titles|
      ensures '|' !in titles[i]
    {
      TitleKeepsOut('|', t.headers[i]);
    }
    PipeLineSplits(TextTableWidths(t), titles);
  }

  lemma TextTablePipeRow(t: TextTable, k: nat)
    requires t.Valid() && t.separator == Pipe && |t.headers| > 0 && k < |t.rows|
    requires forall i :: 0 <= i < |t.headers| ==> '|' !in t.rows[k][i]
    ensures PipeLineCells(TextTableLines(t)[k + 1]) == BoxedCells(TakeAll(t.rows[k], t.maxColumnWidth), TextTableWidths(t))
    ensures forall i :: 0 <= i < |t.headers| ==> |PipeLineCells(TextTableLines(t)[k + 1])[i]| == TextTableWidths(t)[i] + 2
  {
    var ws := TextTableWidths(t);
    var cut := TakeAll(t.rows[k], t.maxColumnWidth);
    forall i | 0 <= i < |cut|
      ensures '|' !in cut[i] && |cut[i]| <= ws[i]
    {
      TakeKeepsOut('|', t.rows[k][i], t.maxColumnWidth);
    }
    assert TextTableLines(t)[k + 1] == FormatLine(Pipe, ws, cut);
    PipeLineSplits(ws, cut);
  }

  /** A plain (`';'` or tab) line splits back into its cells when no cell holds
      the separator. */
  lemma PlainLineCells(sep: Separator, widths: seq<nat>, cells: seq<string>)
    requires sep != Pipe && |cells| == |widths| && |cells| > 0
    requires forall i :: 0 <= i < |cells| ==> sep.Char() !in cells[i]
    ensures LineCells(sep, FormatLine(sep, widths, cells)) == cells
  {
    var line := FormatLine(sep, widths, cells);
    assert line[..|line| - 1] == Join([sep.Char()], cells);
    SplitJoin(cells, sep.Char());
  }

  /** The text between the bars of a printed `'|'` line, one piece per cell:
      the line without its final newline, split at `'|'`, without the empty
      pieces before the first bar and after the last. */
  function PipeLineCells(line: string): seq<string>
  {
    if |line| == 0 then []
    else
      var parts := Split(line[..|line| - 1], '|');
      if |parts| < 2 then [] else parts[1..|parts| - 1]
  }

  /** How a `'|'` line shows a cell: padded to its column's width, with one
      blank on either side. */
  function Boxed(cell: string, w: nat): string
  {
    " " + PadRight(cell, w) + " "
  }

  /** Each of `cells` boxed to its column's width. */
  function BoxedCells(cells: seq<string>, widths: seq<nat>): (r: seq<string>)
    requires |cells| == |widths|
    ensures |r| == |cells| && forall i :: 0 <= i < |cells| ==> r[i] == Boxed(cells[i], widths[i])
  {
    seq(|cells|, i requires 0 <= i < |cells| => Boxed(cells[i], widths[i]))
  }

  lemma {:induction false} JoinFramed(ps: seq<string>, framed: seq<string>)
    requires |ps| > 0 && |framed| == |ps|
    requires forall i :: 0 <= i < |ps| ==> framed[i] == " " + ps[i] + " "
    ensures " " + Join(" | ", ps) + " " == Join("|", framed)
  {
    if |ps| > 1 {
      JoinFramed(ps[1..], framed[1..]);
      var rest := Join(" | ", ps[1..]);
      assert " " + Join(" | ", ps) + " " == (" " + ps[0] + " ") + "|" + (" " + rest + " ");
    }
  }

  lemma PadKeepsOut(c: char, s: string, w: nat)
    requires c != ' ' && c !in s
    ensures c !in " " + PadRight(s, w) + " "
  {
    var r := PadRight(s, w);
    forall k | 0 <= k < |r|
      ensures r[k] != c
    {
      if k < |s| {
        assert r[k] == r[..|s|][k];
      }
    }
  }

  /** A `'|'` line splits back into its cells, each boxed to its column's
      width, when no cell holds a `'|'`. */
  lemma PipeLineSplits(widths: seq<nat>, cells: seq<string>)
    requires |cells| == |widths| && |cells| > 0
    requires forall i :: 0 <= i < |cells| ==> '|' !in cells[i]
    ensures PipeLineCells(FormatLine(Pipe, widths, cells)) == BoxedCells(cells, widths)
  {
    var padded := PadCells(cells, widths);
    var framed := BoxedCells(cells, widths);
    var line := FormatLine(Pipe, widths, cells);
    JoinFramed(padded, framed);
    var parts := [""] + framed + [""];
    assert parts[1..] == framed + [""];
    JoinSnoc("|", framed, "");
    assert Join("|", parts) == "|" + Join("|", framed) + "|";
    assert line[..|line| - 1] == Join("|", parts);
    forall i | 0 <= i < |parts|
      ensures '|' !in parts[i]
    {
      if 0 < i < |parts| - 1 {
        PadKeepsOut('|', cells[i - 1], widths[i - 1]);
      }
    }
    assert "|" == ['|'];
    SplitJoin(parts, '|');
    assert parts[1..|parts| - 1] == framed;
  }

  lemma TakeKeepsOut(c: char, s: string, n: nat)
    requires c !in s
    ensures c !in Take(s, n)
  {
    var r := Take(s, n);
    assert forall j :: 0 <= j < |r| ==> r[j] == s[j];
  }

  /** In a `';'` or tab `TextTable` a data line splits back into the record's
      values, each cut to the maximum width, and the header line into the
      title-cased headers, never cut. */
  lemma TextTablePlainLines(t: TextTable)
    requires t.Valid() && t.separator != Pipe && |t.headers| > 0
    requires forall i :: 0 <= i < |t.headers| ==> t.separator.Char() !in t.headers[i]
    requires forall k, i :: 0 <= k < |t.rows| && 0 <= i < |t.headers| ==> t.separator.Char() !in t.rows[k][i]
    ensures var lines := TextTableLines(t);
            && LineCells(t.separator, lines[0])
               == Titles(t.headers)
            && forall k :: 0 <= k < |t.rows| ==>
                 LineCells(t.separator, lines[k + 1]) == TakeAll(t.rows[k], t.maxColumnWidth)
  {
    TextTableHeaderCells(t);
    forall k | 0 <= k < |t.rows|
      ensures LineCells(t.separator, TextTableLines(t)[k + 1]) == TakeAll(t.rows[k], t.maxColumnWidth)
    {
      TextTableRowCells(t, k);
    }
  }

  lemma TextTableHeaderCells(t: TextTable)
    requires t.Valid() && t.separator != Pipe && |t.headers| > 0
    requires forall i :: 0 <= i < |t.headers| ==> t.separator.Char() !in t.headers[i]
    ensures LineCells(t.separator, TextTableLines(t)[0])
            == Titles(t.headers)
  {
    var titles := Titles(t.headers);
    forall i | 0 <= i < |titles|
      ensures t.separator.Char() !in titles[i]
    {
      TitleKeepsOut(t.separator.Char(), t.headers[i]);
    }
    PlainLineCells(t.separator, TextTableWidths(t), titles);
  }

  lemma TextTableRowCells(t: TextTable, k: nat)
    requires t.Valid() && t.separator != Pipe && |t.headers| > 0 && k < |t.rows|
    requires forall i :: 0 <= i < |t.headers| ==> t.separator.Char() !in t.rows[k][i]
    ensures LineCells(t.separator, TextTableLines(t)[k + 1]) == TakeAll(t.rows[k], t.maxColumnWidth)
  {
    var cut := TakeAll(t.rows[k], t.maxColumnWidth);
    forall i | 0 <= i < |cut|
      ensures t.separator.Char() !in cut[i]
    {
      TakeKeepsOut(t.separator.Char(), t.rows[k][i], t.maxColumnWidth);
    }
    PlainLineCells(t.separator, TextTableWidths(t), cut);
  }

  /** Title-casing changes only letters, so it never introduces `';'`, a tab or `'|'`. */
  lemma TitleKeepsOut(c: char, s: string)
    requires c == ';' || c == '\t' || c == '|'
    requires c !in s
    ensures c !in Title(s)
  {
    TitleAfterKeepsOut(c, s, false);
  }

  lemma {:induction false} TitleAfterKeepsOut(c: char, s: string, previousIsLetter: bool)
    requires c == ';' || c == '\t' || c == '|'
    requires c !in s
    ensures c !in TitleAfter(s, previousIsLetter)
  {
    if |s| > 0 {
      assert forall j :: 0 <= j < |s[1..]| ==> s[1..][j] == s[j + 1];
      TitleAfterKeepsOut(c, s[1..], IsLetter(s[0]));
    }
  }

  // -------------------------------------------------------------- ParamsTable

  /** What a `ParamsTable` reads of a record: the three fixed columns and the
      parameter set as its `(key, str(value))` items in dictionary order. */
  datatype ParamRecord = ParamRecord(recordLabel: string, version: string, mainFile: string,
                                     parameters: seq<(string, string)>)

  const FixedHeaders: seq<string> := ["label", "version", "main_file"]

  function Keys(ps: seq<(string, string)>): (ks: seq<string>)
    ensures |ks| == |ps| && forall i :: 0 <= i < |ps| ==> ks[i] == ps[i].0
  {
    seq(|ps|, i requires 0 <= i < |ps| => ps[i].0)
  }

  /** Every parameter key, row after row, each row's keys in order. */
  function AllKeys(rows: seq<ParamRecord>): seq<string>
  {
    if |rows| == 0 then [] else AllKeys(rows[..|rows| - 1]) + Keys(rows[|rows| - 1].parameters)
  }

  predicate NoDuplicates<T(==)>(s: seq<T>)
  {
    forall i, j :: 0 <= i < j < |s| ==> s[i] != s[j]
  }

  /** Position of the first occurrence of `x` in `s`. */
  function FirstIndex<T(==)>(s: seq<T>, x: T): (i: nat)
    requires x in s
    ensures i < |s| && s[i] == x && x !in s[..i]
  {
    if s[0] == x then 0 else 1 + FirstIndex(s[1..], x)
  }

  lemma {:induction false} FirstIndexExtend<T>(s: seq<T>, x: T, y: T)
    requires y in s
    ensures FirstIndex(s + [x], y) == FirstIndex(s, y)
  {
    if s[0] != y {
      assert (s + [x])[1..] == s[1..] + [x];
      FirstIndexExtend(s[1..], x, y);
    }
  }

  lemma {:induction false} FirstIndexLast<T>(s: seq<T>, x: T)
    requires x !in s
    ensures FirstIndex(s + [x], x) == |s|
  {
    if |s| > 0 {
      assert (s + [x])[1..] == s[1..] + [x];
      FirstIndexLast(s[1..], x);
    }
  }

  /** The list the `get_headers` loop builds from the items of `s` taken in
      order: an item is appended unless the list already holds it. */
  function Dedup<T(==)>(s: seq<T>): seq<T>
  {
    if |s| == 0 then []
    else
      var p := Dedup(s[..|s| - 1]);
      if s[|s| - 1] in p then p else p + [s[|s| - 1]]
  }

  /** The list holds every item once, in order of first appearance. */
  lemma DedupKeepsFirstOccurrences<T>(s: seq<T>)
    ensures var r := Dedup(s);
            && (forall i :: 0 <= i < |r| ==> r[i] in s)
            && (forall i :: 0 <= i < |s| ==> s[i] in r)
            && NoDuplicates(r)
            && forall i, j :: 0 <= i < j < |r| ==> FirstIndex(s, r[i]) < FirstIndex(s, r[j])
  {
    DedupSameItems(s);
    DedupNoDuplicates(s);
    DedupInOrder(s);
  }

  lemma {:induction false} DedupSameItems<T>(s: seq<T>)
    ensures forall x :: x in Dedup(s) <==> x in s
  {
    if |s| > 0 {
      var init := s[..|s| - 1];
      DedupSameItems(init);
      assert s == init + [s[|s| - 1]];
    }
  }

  lemma {:induction false} DedupNoDuplicates<T>(s: seq<T>)
    ensures NoDuplicates(Dedup(s))
  {
    if |s| > 0 {
      DedupNoDuplicates(s[..|s| - 1]);
    }
  }

  lemma {:induction false} DedupInOrder<T>(s: seq<T>)
    ensures var r := Dedup(s);
            && (forall i :: 0 <= i < |r| ==> r[i] in s)
            && forall i, j :: 0 <= i < j < |r| ==> FirstIndex(s, r[i]) < FirstIndex(s, r[j])
  {
    if |s| > 0 {
      var init := s[..|s| - 1];
      var x := s[|s| - 1];
      var p, r := Dedup(init), Dedup(s);
      DedupInOrder(init);
      DedupSameItems(init);
      assert s == init + [x];
      assert r == if x in p then p else p + [x];
      forall i | 0 <= i < |p|
        ensures r[i] == p[i] && p[i] in init && FirstIndex(s, p[i]) == FirstIndex(init, p[i])
      {
        assert p[i] in Dedup(init);
        assert p[i] in init;
        FirstIndexExtend(init, x, p[i]);
      }
      if x !in p {
        FirstIndexLast(init, x);
      }
      forall i, j | 0 <= i < j < |r|
        ensures FirstIndex(s, r[i]) < FirstIndex(s, r[j])
      {
        assert r[i] == p[i] && FirstIndex(s, r[i]) == FirstIndex(init, p[i]);
        if j < |p| {
          assert r[j] == p[j] && FirstIndex(s, r[j]) == FirstIndex(init, p[j]);
        } else {
          assert r[j] == x && FirstIndex(s, x) == |init|;
        }
      }
    }
  }

  lemma DedupMembers<T>(s: seq<T>)
    ensures forall x :: x in Dedup(s) <==> x in s
  {
    DedupKeepsFirstOccurrences(s);
    var r := Dedup(s);
    forall x | x in s
      ensures x in r
    {
      var i :| 0 <= i < |s| && s[i] == x;
    }
  }

  lemma {:induction false} DedupDistinct<T>(s: seq<T>)
    requires NoDuplicates(s)
    ensures Dedup(s) == s
  {
    if |s| > 0 {
      var init := s[..|s| - 1];
      var x := s[|s| - 1];
      DedupDistinct(init);
      assert x !in init by {
        forall j | 0 <= j < |init|
          ensures init[j] != x
        {
          assert init[j] == s[j];
        }
      }
      assert Dedup(s) == Dedup(init) + [x];
      assert init + [x] == s;
    }
  }

  lemma {:induction false} DedupExtends<T>(a: seq<T>, b: seq<T>)
    ensures |Dedup(a)| <= |Dedup(a + b)| && Dedup(a + b)[..|Dedup(a)|] == Dedup(a)
    decreases |b|
  {
    if |b| == 0 {
      assert a + b == a;
    } else {
      var b' := b[..|b| - 1];
      DedupExtends(a, b');
      assert (a + b)[..|a + b| - 1] == a + b';
      DedupGrows(a + b);
      var p1, p2, p3 := Dedup(a), Dedup(a + b'), Dedup(a + b);
      assert p3[..|p1|] == p3[..|p2|][..|p1|];
    }
  }

  /** One more item leaves the list built so far as a prefix. */
  lemma DedupGrows<T>(s: seq<T>)
    requires |s| > 0
    ensures var p := Dedup(s[..|s| - 1]);
            |p| <= |Dedup(s)| && Dedup(s)[..|p|] == p
  {
    var p := Dedup(s[..|s| - 1]);
    assert (p + [s[|s| - 1]])[..|p|] == p;
  }

  /** `get_headers`: the three fixed columns, then each parameter key not
      already present, in first-seen row/key order. */
  function GetHeaders(rows: seq<ParamRecord>): (hs: seq<string>)
    ensures |hs| >= 3 && hs[..3] == FixedHeaders
    ensures NoDuplicates(hs)
    ensures forall x :: x in hs <==> x in FixedHeaders || x in AllKeys(rows)
    ensures forall i, j :: 0 <= i < j < |hs| ==>
              FirstIndex(FixedHeaders + AllKeys(rows), hs[i]) < FirstIndex(FixedHeaders + AllKeys(rows), hs[j])
  {
    HeadersFacts(FixedHeaders + AllKeys(rows), FixedHeaders, AllKeys(rows));
    DedupKeepsFirstOccurrences(FixedHeaders + AllKeys(rows));
    Dedup(FixedHeaders + AllKeys(rows))
  }

  lemma HeadersFacts(all: seq<string>, fixed: seq<string>, keys: seq<string>)
    requires all == fixed + keys && NoDuplicates(fixed)
    ensures |Dedup(all)| >= |fixed| && Dedup(all)[..|fixed|] == fixed
    ensures forall x :: x in Dedup(all) <==> x in fixed || x in keys
  {
    DedupMembers(all);
    DedupDistinct(fixed);
    DedupExtends(fixed, keys);
  }

  /** `params.get(key)`: the value of the first item with that key. */
  function Lookup(ps: seq<(string, string)>, key: string): (v: Option<string>)
    ensures v.None? <==> key !in Keys(ps)
    ensures v.Some? ==> exists i :: 0 <= i < |ps| && ps[i] == (key, v.value)
  {
    if |ps| == 0 then None
    else if ps[0].0 == key then Some(ps[0].1)
    else
      assert Keys(ps) == [ps[0].0] + Keys(ps[1..]);
      Lookup(ps[1..], key)
  }

  lemma {:induction false} LookupDistinct(ps: seq<(string, string)>, j: nat)
    requires NoDuplicates(Keys(ps)) && j < |ps|
    ensures Lookup(ps, ps[j].0) == Some(ps[j].1)
  {
    if j > 0 {
      assert Keys(ps)[0] != Keys(ps)[j];
      assert Keys(ps[1..]) == Keys(ps)[1..];
      LookupDistinct(ps[1..], j - 1);
    }
  }

  function LookupOr(ps: seq<(string, string)>, key: string, default: string): string
  {
    match Lookup(ps, key)
    case Some(v) => v
    case None => default
  }

  /** The record attribute a fixed header names. */
  function Field(r: ParamRecord, h: string): string
  {
    if h == "label" then r.recordLabel else if h == "version" then r.version else r.mainFile
  }

  /** The cell `calculate_column_widths` measures: a fixed field, or
      `str(row.parameters.get(header))`, which is `'None'` for a missing key. */
  function WidthCell(r: ParamRecord, h: string): string
  {
    if h in FixedHeaders then Field(r, h) else LookupOr(r.parameters, h, "None")
  }

  /** The cells `__str__` prints for a row: the first three headers' fields,
      then `params.get(header, '')` for the rest. */
  function DisplayCells(r: ParamRecord, headers: seq<string>): (cells: seq<string>)
    requires |headers| >= 3
    ensures |cells| == |headers|
  {
    [r.recordLabel, r.version, r.mainFile]
    + seq(|headers| - 3, i requires 0 <= i < |headers| - 3 => LookupOr(r.parameters, headers[i + 3], ""))
  }

  /** A `ParamsTable` over a list of records. */
  datatype ParamsTable = ParamsTable(rows: seq<ParamRecord>, maxColumnWidth: nat, separator: Separator)

  /** `ParamsTable(rows, seperator=sep)` with the constructor's default width. */
  function NewParamsTable(rows: seq<ParamRecord>, sep: Separator): ParamsTable
  {
    ParamsTable(rows, ParamsTableMaxWidth, sep)
  }

  function ParamsWidthRows(t: ParamsTable, headers: seq<string>): (m: seq<seq<string>>)
    ensures Rectangular(m, |headers|) && |m| == |t.rows|
  {
    seq(|t.rows|, k requires 0 <= k < |t.rows| =>
      seq(|headers|, i requires 0 <= i < |headers| => WidthCell(t.rows[k], headers[i])))
  }

  function ParamsDisplayRows(t: ParamsTable, headers: seq<string>): (m: seq<seq<string>>)
    requires |headers| >= 3
    ensures Rectangular(m, |headers|) && |m| == |t.rows|
  {
    seq(|t.rows|, k requires 0 <= k < |t.rows| => DisplayCells(t.rows[k], headers))
  }

  function ParamsTableWidths(t: ParamsTable): (ws: seq<nat>)
    ensures |ws| == |GetHeaders(t.rows)|
  {
    var hs := GetHeaders(t.rows);
    ColumnWidths(hs, ParamsWidthRows(t, hs), t.maxColumnWidth)
  }

  /** The lines of `str(ParamsTable)`: the headers as they are, then the rows. */
  function ParamsTableLines(t: ParamsTable): (lines: seq<string>)
    ensures |lines| == |t.rows| + 1
  {
    var hs := GetHeaders(t.rows);
    Lines(t.separator, ParamsTableWidths(t), hs, ParamsDisplayRows(t, hs), t.maxColumnWidth)
  }

  function ParamsTableString(t: ParamsTable): string
  {
    Concat(ParamsTableLines(t))
  }

  /** A printed cell is never longer than the cell its column was measured by:
      the first three are the same field, the others print `''` where the
      width counted `'None'`. */
  lemma DisplayWithinWidthCell(t: ParamsTable, k: nat, i: nat)
    requires k < |t.rows| && i < |GetHeaders(t.rows)|
    ensures var hs := GetHeaders(t.rows);
            |DisplayCells(t.rows[k], hs)[i]| <= |ParamsWidthRows(t, hs)[k][i]|
  {
    var hs := GetHeaders(t.rows);
    assert ParamsWidthRows(t, hs)[k][i] == WidthCell(t.rows[k], hs[i]);
    if i < 3 {
      FixedCellWithin(t.rows[k], hs, i);
    } else {
      forall j | 0 <= j < 3
        ensures FixedHeaders[j] != hs[i]
      {
        assert hs[j] == FixedHeaders[j];
      }
      ParamCellWithin(t.rows[k], hs, i);
    }
  }

  lemma FixedCellWithin(r: ParamRecord, hs: seq<string>, i: nat)
    requires |hs| >= 3 && hs[..3] == FixedHeaders && i < 3
    ensures |DisplayCells(r, hs)[i]| <= |WidthCell(r, hs[i])|
  {
    assert hs[i] == FixedHeaders[i];
  }

  lemma ParamCellWithin(r: ParamRecord, hs: seq<string>, i: nat)
    requires 3 <= i < |hs|
    requires forall j :: 0 <= j < 3 ==> FixedHeaders[j] != hs[i]
    ensures |DisplayCells(r, hs)[i]| <= |WidthCell(r, hs[i])|
  {
    assert hs[i] !in FixedHeaders;
  }

  /** In a `'|'` `ParamsTable` every data line has the same length. */
  lemma ParamsTableRowsAligned(t: ParamsTable)
    requires t.separator == Pipe
    ensures var lines := ParamsTableLines(t);
            forall k :: 1 <= k < |lines| ==> |lines[k]| == PipeLineLength(ParamsTableWidths(t))
  {
    var hs := GetHeaders(t.rows);
    var ws := ParamsTableWidths(t);
    var shown := ParamsDisplayRows(t, hs);
    forall k, i | 0 <= k < |shown| && 0 <= i < |ws|
      ensures Min(t.maxColumnWidth, |shown[k][i]|) <= ws[i]
    {
      DisplayWithinWidthCell(t, k, i);
    }
    PipeRowsSameLength(ws, hs, shown, t.maxColumnWidth);
  }

  /** In a `'|'` `ParamsTable` the header line reads back as the headers, each
      padded to its column's width, when no header holds a `'|'`. */
  lemma ParamsTablePipeHeader(t: ParamsTable)
    requires t.separator == Pipe
    requires forall i :: 0 <= i < |GetHeaders(t.rows)| ==> '|' !in GetHeaders(t.rows)[i]
    ensures PipeLineCells(ParamsTableLines(t)[0]) == BoxedCells(GetHeaders(t.rows), ParamsTableWidths(t))
  {
    PipeLineSplits(ParamsTableWidths(t), GetHeaders(t.rows));
  }

  /** In a `'|'` `ParamsTable` a data line reads back as the cells shown for
      its record, each padded to its column's width, when no shown value
      holds a `'|'`. */
  lemma ParamsTablePipeLine(t: ParamsTable, k: nat)
    requires t.separator == Pipe && k < |t.rows|
    requires forall i :: 0 <= i < |GetHeaders(t.rows)| ==> '|' !in DisplayCells(t.rows[k], GetHeaders(t.rows))[i]
    ensures exists cells :: ShowsRecord(cells, GetHeaders(t.rows), t.rows[k], t.maxColumnWidth)
              && PipeLineCells(ParamsTableLines(t)[k + 1]) == BoxedCells(cells, ParamsTableWidths(t))
  {
    var hs := GetHeaders(t.rows);
    var ws := ParamsTableWidths(t);
    var shown := DisplayCells(t.rows[k], hs);
    var cut := TakeAll(shown, t.maxColumnWidth);
    forall i | 0 <= i < |cut|
      ensures '|' !in cut[i]
    {
      TakeKeepsOut('|', shown[i], t.maxColumnWidth);
    }
    assert ParamsTableLines(t)[k + 1] == FormatLine(Pipe, ws, cut);
    PipeLineSplits(ws, cut);
    ShownCells(t.rows[k], hs, t.maxColumnWidth);
  }

  /** The cells shown for record `r` under headers `hs`: its label, version
      and main file, then for each parameter column the record's value, or
      `''` when the record lacks that parameter; each cut to `maxWidth`. */
  predicate ShowsRecord(cells: seq<string>, hs: seq<string>, r: ParamRecord, maxWidth: nat)
  {
    && |hs| >= 3 && |cells| == |hs|
    && cells[..3] == [Take(r.recordLabel, maxWidth), Take(r.version, maxWidth), Take(r.mainFile, maxWidth)]
    && (forall i :: 3 <= i < |hs| && hs[i] !in Keys(r.parameters) ==> cells[i] == "")
    && (forall i, j :: (3 <= i < |hs| && 0 <= j < |r.parameters| && NoDuplicates(Keys(r.parameters))
                        && r.parameters[j].0 == hs[i]) ==> cells[i] == Take(r.parameters[j].1, maxWidth))
  }

  /** In a `';'` or tab `ParamsTable` a data line splits back into the cells
      shown for its record. */
  lemma ParamsTablePlainLine(t: ParamsTable, k: nat)
    requires t.separator != Pipe && k < |t.rows|
    requires forall i :: 0 <= i < |GetHeaders(t.rows)| ==>
               t.separator.Char() !in DisplayCells(t.rows[k], GetHeaders(t.rows))[i]
    ensures ShowsRecord(LineCells(t.separator, ParamsTableLines(t)[k + 1]), GetHeaders(t.rows),
                        t.rows[k], t.maxColumnWidth)
  {
    ParamsLineSplits(t, k);
    ShownCells(t.rows[k], GetHeaders(t.rows), t.maxColumnWidth);
  }

  lemma ParamsLineSplits(t: ParamsTable, k: nat)
    requires t.separator != Pipe && k < |t.rows|
    requires forall i :: 0 <= i < |GetHeaders(t.rows)| ==>
               t.separator.Char() !in DisplayCells(t.rows[k], GetHeaders(t.rows))[i]
    ensures LineCells(t.separator, ParamsTableLines(t)[k + 1])
            == TakeAll(DisplayCells(t.rows[k], GetHeaders(t.rows)), t.maxColumnWidth)
  {
    var hs := GetHeaders(t.rows);
    var ws := ParamsTableWidths(t);
    var shown := DisplayCells(t.rows[k], hs);
    var cut := TakeAll(shown, t.maxColumnWidth);
    forall i | 0 <= i < |cut|
      ensures t.separator.Char() !in cut[i]
    {
      TakeKeepsOut(t.separator.Char(), shown[i], t.maxColumnWidth);
    }
    assert ParamsTableLines(t)[k + 1] == FormatLine(t.separator, ws, cut);
    PlainLineCells(t.separator, ws, cut);
  }

  lemma ShownCells(r: ParamRecord, hs: seq<string>, maxWidth: nat)
    requires |hs| >= 3
    ensures ShowsRecord(TakeAll(DisplayCells(r, hs), maxWidth), hs, r, maxWidth)
  {
    var cells := TakeAll(DisplayCells(r, hs), maxWidth);
    ShownFixed(r, hs, maxWidth);
    forall i | 3 <= i < |hs| && hs[i] !in Keys(r.parameters)
      ensures cells[i] == ""
    {
      ShownMissing(r, hs, maxWidth, i);
    }
    forall i, j | 3 <= i < |hs| && 0 <= j < |r.parameters| && NoDuplicates(Keys(r.parameters))
                  && r.parameters[j].0 == hs[i]
      ensures cells[i] == Take(r.parameters[j].1, maxWidth)
    {
      ShownPresent(r, hs, maxWidth, i, j);
    }
  }

  lemma ShownFixed(r: ParamRecord, hs: seq<string>, maxWidth: nat)
    requires |hs| >= 3
    ensures TakeAll(DisplayCells(r, hs), maxWidth)[..3]
            == [Take(r.recordLabel, maxWidth), Take(r.version, maxWidth), Take(r.mainFile, maxWidth)]
  {
  }

  lemma ShownMissing(r: ParamRecord, hs: seq<string>, maxWidth: nat, i: nat)
    requires 3 <= i < |hs| && hs[i] !in Keys(r.parameters)
    ensures TakeAll(DisplayCells(r, hs), maxWidth)[i] == ""
  {
    DisplayCellAt(r, hs, i);
  }

  lemma ShownPresent(r: ParamRecord, hs: seq<string>, maxWidth: nat, i: nat, j: nat)
    requires 3 <= i < |hs| && j < |r.parameters| && NoDuplicates(Keys(r.parameters))
    requires r.parameters[j].0 == hs[i]
    ensures TakeAll(DisplayCells(r, hs), maxWidth)[i] == Take(r.parameters[j].1, maxWidth)
  {
    LookupDistinct(r.parameters, j);
    DisplayCellAt(r, hs, i);
  }

  lemma DisplayCellAt(r: ParamRecord, hs: seq<string>, i: nat)
    requires 3 <= i < |hs|
    ensures DisplayCells(r, hs)[i] == LookupOr(r.parameters, hs[i], "")
  {
    var fixed := [r.recordLabel, r.version, r.mainFile];
    var rest := seq(|hs| - 3, n requires 0 <= n < |hs| - 3 => LookupOr(r.parameters, hs[n + 3], ""));
    assert DisplayCells(r, hs) == fixed + rest;
    assert (fixed + rest)[i] == rest[i - 3];
  }
}
