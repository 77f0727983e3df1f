/**
 * `convertCSVToTableFormat` of src/extension-obsidian-backup.js: the run
 * of comma-separated lines around a line becomes a table. Every line of
 * the run is replaced by a row of `maxColumns` cells padded with spaces to
 * the column's display width, and a dash separator line is inserted under
 * the first line when the run has more than one line.
 */
module BackupCsv {
  import opened Text
  import ObsidianTable
  import opened BackupTable

  /** A line the conversion takes: it has a comma and no `|`. */
  predicate IsCsvLine(s: Str) {
    COMMA in s && PIPE !in s
  }

  // ---------------------------------------------------------------------
  // The run of CSV lines
  // ---------------------------------------------------------------------

  /** The first line of the run of CSV lines that ends at line `i`. */
  function CsvUp(doc: Doc, i: nat): (s: nat)
    requires i < |doc|
    ensures s <= i
    decreases i
  {
    if i > 0 && IsCsvLine(doc[i - 1]) then CsvUp(doc, i - 1) else i
  }

  /** The last line of the run of CSV lines that starts at line `i`. */
  function CsvDown(doc: Doc, i: nat): (e: nat)
    requires i < |doc|
    ensures i <= e < |doc|
    decreases |doc| - i
  {
    if i + 1 < |doc| && IsCsvLine(doc[i + 1]) then CsvDown(doc, i + 1) else i
  }

  lemma {:induction false} CsvUpRun(doc: Doc, i: nat)
    requires i < |doc|
    ensures var s := CsvUp(doc, i);
      (forall j :: s <= j < i ==> IsCsvLine(doc[j])) && (s == 0 || !IsCsvLine(doc[s - 1]))
    decreases i
  {
    if i > 0 && IsCsvLine(doc[i - 1]) {
      CsvUpRun(doc, i - 1);
    }
  }

  lemma {:induction false} CsvDownRun(doc: Doc, i: nat)
    requires i < |doc|
    ensures var e := CsvDown(doc, i);
      (forall j :: i < j <= e ==> IsCsvLine(doc[j])) && (e == |doc| - 1 || !IsCsvLine(doc[e + 1]))
    decreases |doc| - i
  {
    if i + 1 < |doc| && IsCsvLine(doc[i + 1]) {
      CsvDownRun(doc, i + 1);
    }
  }

  /**
   * The block around a CSV line is the maximal run of CSV lines holding
   * it: every line of it is a CSV line, and so is neither line next to it.
   */
  lemma CsvBlock(doc: Doc, k: nat)
    requires k < |doc| && IsCsvLine(doc[k])
    ensures var s, e := CsvUp(doc, k), CsvDown(doc, k);
      s <= k <= e < |doc| &&
      (forall j :: s <= j <= e ==> IsCsvLine(doc[j])) &&
      (s == 0 || !IsCsvLine(doc[s - 1])) && (e == |doc| - 1 || !IsCsvLine(doc[e + 1]))
  {
    CsvUpRun(doc, k);
    CsvDownRun(doc, k);
  }

  /** The two scanning loops. */
  method FindCsvBlock(doc: Doc, lineNumber: nat) returns (csvStartLine: nat, csvEndLine: nat)
    requires lineNumber < |doc|
    ensures csvStartLine == CsvUp(doc, lineNumber) && csvEndLine == CsvDown(doc, lineNumber)
  {
    csvStartLine := lineNumber;
    var i := lineNumber as int - 1;
    while i >= 0
      invariant -1 <= i < lineNumber && csvStartLine == i + 1
      invariant CsvUp(doc, lineNumber) == CsvUp(doc, csvStartLine)
    {
      var lineText := doc[i];
      if COMMA in lineText && PIPE !in lineText {
        csvStartLine := i;
      } else {
        break;
      }
      i := i - 1;
    }
    csvEndLine := lineNumber;
    var j := lineNumber + 1;
    while j < |doc|
      invariant lineNumber < j <= |doc| && csvEndLine == j - 1
      invariant CsvDown(doc, lineNumber) == CsvDown(doc, csvEndLine)
    {
      var lineText := doc[j];
      if COMMA in lineText && PIPE !in lineText {
        csvEndLine := j;
      } else {
        break;
      }
      j := j + 1;
    }
  }

  // ---------------------------------------------------------------------
  // Cells and widths
  // ---------------------------------------------------------------------

  /** `lineText.split(',').map(cell => cell.trim())`: nothing is dropped. */
  function CsvCells(s: Str): (cells: seq<Str>)
    ensures |cells| >= 1
  {
    ObsidianTable.TrimAll(Split(s, COMMA))
  }

  /**
   * `csvLines` for lines `[lo, hi)`. An entry is a row of the table
   * formatter that is never a separator row, so that its width arithmetic
   * (every cell raises its column) is the same definition.
   */
  function CsvRows(doc: Doc, lo: nat, hi: nat): (rows: seq<Row>)
    requires lo <= hi <= |doc|
    ensures |rows| == hi - lo
  {
    seq(hi - lo, j requires 0 <= j < hi - lo => Row(lo + j, CsvCells(doc[lo + j]), false))
  }

  lemma CsvRowsSnoc(doc: Doc, lo: nat, hi: nat)
    requires lo <= hi < |doc|
    ensures CsvRows(doc, lo, hi + 1) == CsvRows(doc, lo, hi) + [Row(hi, CsvCells(doc[hi]), false)]
  {
  }

  /** The loop over the block: it pushes to `csvLines`, tracks `maxColumns` and raises `columnWidths`. */
  method ParseCsv(doc: Doc, csvStartLine: nat, csvEndLine: nat)
    returns (csvLines: seq<Row>, maxColumns: nat, columnWidths: seq<nat>)
    requires csvStartLine <= csvEndLine < |doc|
    ensures csvLines == CsvRows(doc, csvStartLine, csvEndLine + 1)
    ensures maxColumns == MaxCols(csvLines) && columnWidths == RawWidths(csvLines)
  {
    csvLines, maxColumns, columnWidths := [], 0, [];
    var i := csvStartLine;
    while i <= csvEndLine
      invariant csvStartLine <= i <= csvEndLine + 1
      invariant csvLines == CsvRows(doc, csvStartLine, i)
      invariant maxColumns == MaxCols(csvLines) && columnWidths == RawWidths(csvLines)
    {
      var lineText := doc[i];
      var cells := ObsidianTable.TrimAll(Split(lineText, COMMA));
      var row := Row(i, cells, false);
      CsvRowsSnoc(doc, csvStartLine, i);
      MaxColsSnoc(csvLines, row);
      RawWidthsSnoc(csvLines, row);
      csvLines := csvLines + [row];
      maxColumns := Max(maxColumns, |cells|);
      columnWidths := RaiseWidths(columnWidths, cells);
      i := i + 1;
    }
  }

  // ---------------------------------------------------------------------
  // The lines written
  // ---------------------------------------------------------------------

  /** `cell + ' '.repeat(Math.max(0, padding))` */
  function CsvPadded(cell: Str, w: nat): Str {
    cell + Repeat(SPACE, Max(0, w - Width(cell)))
  }

  function CsvSegments(cells: seq<Str>, widths: seq<nat>): (segs: seq<Str>)
    ensures |segs| == |widths|
  {
    seq(|widths|, c requires 0 <= c < |widths| => [SPACE] + CsvPadded(CellOr(cells, c, []), widths[c]) + [SPACE])
  }

  /** `tableRow`: `|`, then ` paddedCell |` for each of the columns. */
  function CsvRowText(cells: seq<Str>, widths: seq<nat>): Str {
    Framed(CsvSegments(cells, widths))
  }

  function DashSegments(widths: seq<nat>): (segs: seq<Str>)
    ensures |segs| == |widths|
  {
    seq(|widths|, c requires 0 <= c < |widths| => [SPACE] + Repeat(DASH, widths[c]) + [SPACE])
  }

  /** What a replacement reads back as: the CSV cells, then empty cells up to `n` columns. */
  function CsvShown(cells: seq<Str>, n: nat): (shown: seq<Str>)
    ensures |shown| == n
  {
    seq(n, c requires 0 <= c < n => if c < |cells| then cells[c] else [])
  }

  /** What the separator line reads back as: a run of dashes per column. */
  function DashCells(widths: seq<nat>): (shown: seq<Str>)
    ensures |shown| == |widths|
  {
    seq(|widths|, c requires 0 <= c < |widths| => Repeat(DASH, widths[c]))
  }

  /** `'|' + columnWidths.map(width => ' ' + '-'.repeat(width) + ' ').join('|') + '|'` */
  function SeparatorText(widths: seq<nat>): Str {
    [PIPE] + (if widths == [] then [] else Join(DashSegments(widths), PIPE)) + [PIPE]
  }

  /**
   * What the edit callback does: a line inserted before `separator.line`
   * (when there is one), and every line of the run replaced, in order.
   */
  datatype Conversion = Conversion(separator: Option<Edit>, rows: seq<Edit>)

  function CsvEdits(rows: seq<Row>, widths: seq<nat>): (edits: seq<Edit>)
    ensures |edits| == |rows|
  {
    seq(|rows|, i requires 0 <= i < |rows| => Edit(rows[i].line, CsvRowText(rows[i].cells, widths)))
  }

  /** `convertCSVToTableFormat`: nothing unless the line has a comma and no `|`. */
  function Convert(doc: Doc, lineNumber: nat): Option<Conversion>
    requires lineNumber < |doc|
  {
    if !IsCsvLine(doc[lineNumber]) then None
    else Some(Converted(doc, CsvUp(doc, lineNumber), CsvDown(doc, lineNumber)))
  }

  /** The conversion of the run from line `s` to line `e`. */
  function Converted(doc: Doc, s: nat, e: nat): Conversion
    requires s <= e < |doc|
  {
    var rows := CsvRows(doc, s, e + 1);
    var widths := ColumnWidths(rows);
    Conversion(if s < e then Some(Edit(s + 1, SeparatorText(widths))) else None, CsvEdits(rows, widths))
  }

  /** The loop that builds `tableRow`. */
  method CsvRowLoop(cells: seq<Str>, maxColumns: nat, columnWidths: seq<nat>) returns (tableRow: Str)
    requires |columnWidths| == maxColumns
    ensures tableRow == CsvRowText(cells, columnWidths)
  {
    ghost var segs := CsvSegments(cells, columnWidths);
    FramedEmpty();
    tableRow := [PIPE];
    var colIndex := 0;
    while colIndex < maxColumns
      invariant 0 <= colIndex <= maxColumns
      invariant tableRow == Framed(segs[..colIndex])
    {
      var cell := CellOr(cells, colIndex, []);
      var cellWidth := GetStringWidth(cell);
      var padding := columnWidths[colIndex] as int - cellWidth as int;
      var paddedCell := cell + Repeat(SPACE, Max(0, padding));
      FramedPrefix(segs, colIndex);
      tableRow := tableRow + ([SPACE] + paddedCell + [SPACE]) + [PIPE];
      colIndex := colIndex + 1;
    }
    assert segs[..maxColumns] == segs;
  }

  /** `convertCSVToTableFormat` up to the edit. */
  method ConvertCsvToTableFormat(doc: Doc, lineNumber: nat) returns (r: Option<Conversion>)
    requires lineNumber < |doc|
    ensures r == Convert(doc, lineNumber)
  {
    var line := doc[lineNumber];
    if COMMA !in line || PIPE in line {
      return None;
    }
    var csvStartLine, csvEndLine := FindCsvBlock(doc, lineNumber);
    var csvLines, maxColumns, columnWidths := ParseCsv(doc, csvStartLine, csvEndLine);
    RawWidthsFit(csvLines);
    columnWidths := FillWidths(columnWidths, maxColumns);
    var separator, rowEdits := EditLoop(csvStartLine, csvEndLine, csvLines, maxColumns, columnWidths);
    ConvertedFrom(doc, csvStartLine, csvEndLine, csvLines, columnWidths);
    r := Some(Conversion(separator, rowEdits));
  }

  /** The conversion of a run, from the rows and widths that the method computes. */
  lemma ConvertedFrom(doc: Doc, s: nat, e: nat, rows: seq<Row>, widths: seq<nat>)
    requires s <= e < |doc| && rows == CsvRows(doc, s, e + 1) && widths == ColumnWidths(rows)
    ensures Converted(doc, s, e) ==
      Conversion(if s < e then Some(Edit(s + 1, SeparatorText(widths))) else None, CsvEdits(rows, widths))
  {
  }

  /** The raw widths never outnumber the columns. */
  lemma RawWidthsFit(rows: seq<Row>)
    ensures |RawWidths(rows)| <= MaxCols(rows)
  {
    ColumnWidthsAgree(rows);
  }

  /** The edit callback: the `forEach` over `csvLines` with its index. */
  method EditLoop(csvStartLine: nat, csvEndLine: nat, csvLines: seq<Row>, maxColumns: nat, columnWidths: seq<nat>)
    returns (separator: Option<Edit>, rowEdits: seq<Edit>)
    requires |columnWidths| == maxColumns && |csvLines| == csvEndLine - csvStartLine + 1
    requires forall i :: 0 <= i < |csvLines| ==> csvLines[i].line == csvStartLine + i
    ensures separator == if csvStartLine < csvEndLine then Some(Edit(csvStartLine + 1, SeparatorText(columnWidths))) else None
    ensures rowEdits == CsvEdits(csvLines, columnWidths)
  {
    ghost var edits := CsvEdits(csvLines, columnWidths);
    separator, rowEdits := None, [];
    var index := 0;
    while index < |csvLines|
      invariant 0 <= index <= |csvLines|
      invariant rowEdits == edits[..index]
      invariant separator == if index >= 2 then Some(Edit(csvStartLine + 1, SeparatorText(columnWidths))) else None
    {
      var row := csvLines[index];
      if index == 1 && csvStartLine == row.line - 1 {
        separator := Some(Edit(row.line, SeparatorText(columnWidths)));
      }
      var tableRow := CsvRowLoop(row.cells, maxColumns, columnWidths);
      assert edits[..index + 1] == edits[..index] + [Edit(row.line, tableRow)];
      rowEdits := rowEdits + [Edit(row.line, tableRow)];
      index := index + 1;
    }
    assert edits[..|csvLines|] == edits;
  }

  // ---------------------------------------------------------------------
  // What the conversion promises
  // ---------------------------------------------------------------------

  /**
   * Nothing happens off a CSV line. Otherwise every line of the run is
   * replaced, in order, and a separator goes in before the second line
   * exactly when the run has at least two lines.
   */
  lemma ConvertShape(doc: Doc, k: nat)
    requires k < |doc|
    ensures Convert(doc, k).None? <==> !IsCsvLine(doc[k])
    ensures IsCsvLine(doc[k]) ==>
      var s, e := CsvUp(doc, k), CsvDown(doc, k);
      var conv := Convert(doc, k).value;
      |conv.rows| == e - s + 1 &&
      (forall i :: 0 <= i < |conv.rows| ==> conv.rows[i].line == s + i) &&
      (conv.separator.Some? <==> e - s + 1 >= 2) &&
      (conv.separator.Some? ==> conv.separator.value.line == s + 1)
  {
  }

  /** Every CSV cell is trimmed and free of `|`, since the line has none. */
  lemma CsvCellsClean(s: Str)
    requires PIPE !in s
    ensures forall c :: 0 <= c < |CsvCells(s)| ==> IsTrimmed(CsvCells(s)[c]) && PIPE !in CsvCells(s)[c]
  {
    var pieces := Split(s, COMMA);
    forall c | 0 <= c < |pieces| ensures IsTrimmed(Trim(pieces[c])) && PIPE !in Trim(pieces[c]) {
      assert forall u :: u in pieces[c] ==> u in s by {
        SplitPiecesIn(s, COMMA, c);
      }
      TrimParts(pieces[c]);
      TrimWithout(pieces[c], PIPE);
    }
  }

  /** Every unit of a piece comes from the string. */
  lemma {:induction false} SplitPiecesIn(s: Str, sep: Unit, c: nat)
    requires c < |Split(s, sep)|
    ensures forall u :: u in Split(s, sep)[c] ==> u in s
  {
    if s != [] {
      var rest := Split(s[1..], sep);
      if s[0] == sep {
        if c > 0 { SplitPiecesIn(s[1..], sep, c - 1); }
      } else if c == 0 {
        SplitPiecesIn(s[1..], sep, 0);
      } else {
        SplitPiecesIn(s[1..], sep, c);
      }
    }
  }

  /** A padded CSV cell trims back to the cell. */
  lemma CsvSegmentTrim(cell: Str, w: nat)
    requires IsTrimmed(cell) && PIPE !in cell
    ensures var seg := [SPACE] + CsvPadded(cell, w) + [SPACE];
      Trim(seg) == cell && PIPE !in seg
  {
    var pad := Repeat(SPACE, Max(0, w - Width(cell)));
    assert [SPACE] + CsvPadded(cell, w) + [SPACE] == [SPACE] + cell + (pad + [SPACE]);
    assert AllWhitespace(pad + [SPACE]);
    TrimAround([SPACE], cell, pad + [SPACE]);
  }

  /** A padded CSV cell that fits its column is as wide as the column, with a space each side. */
  lemma CsvSegmentWidth(cell: Str, w: nat)
    requires Width(cell) <= w
    ensures Width([SPACE] + CsvPadded(cell, w) + [SPACE]) == w + 2
  {
    var pad := Repeat(SPACE, w - Width(cell));
    RepeatWidth(SPACE, w - Width(cell));
    WidthAppend(cell, pad);
    WidthAppend([SPACE], cell + pad);
    WidthAppend([SPACE] + (cell + pad), [SPACE]);
  }

  /**
   * The widths of lines `s` to `e`: one per column, each at least 3 and
   * at least as wide as every CSV cell of its column.
   */
  lemma CsvWidths(doc: Doc, s: nat, e: nat, i: nat)
    requires s <= e < |doc| && i <= e - s
    ensures var widths := ColumnWidths(CsvRows(doc, s, e + 1));
      var cells := CsvCells(doc[s + i]);
      1 <= |cells| <= |widths| == MaxCols(CsvRows(doc, s, e + 1)) &&
      (forall c :: 0 <= c < |widths| ==> 3 <= widths[c]) &&
      (forall c :: 0 <= c < |cells| ==> Width(cells[c]) <= widths[c])
  {
    var rows := CsvRows(doc, s, e + 1);
    assert rows[i] == Row(s + i, CsvCells(doc[s + i]), false);
    DataRowWidths(rows, i);
  }

  /** The widths of some rows cover all the cells of each data row, and are at least 3. */
  lemma DataRowWidths(rows: seq<Row>, i: nat)
    requires i < |rows| && !rows[i].isSep
    ensures var widths := ColumnWidths(rows);
      |rows[i].cells| <= |widths| == MaxCols(rows) &&
      (forall c :: 0 <= c < |widths| ==> 3 <= widths[c]) &&
      (forall c :: 0 <= c < |rows[i].cells| ==> Width(rows[i].cells[c]) <= widths[c])
  {
    ColumnWidthsAgree(rows);
    MaxColsBound(rows, i);
    ColumnWidthsFit(rows, i);
  }

  /**
   * Each replacement reads back, through the table parse, as one cell
   * per column: the CSV cells in order, then empty cells.
   */
  lemma CsvRowReadBack(cells: seq<Str>, widths: seq<nat>)
    requires forall c :: 0 <= c < |cells| ==> IsTrimmed(cells[c]) && PIPE !in cells[c]
    ensures LineCells(CsvRowText(cells, widths)) == CsvShown(cells, |widths|)
  {
    var segs := CsvSegments(cells, widths);
    var shown := CsvShown(cells, |widths|);
    forall c | 0 <= c < |widths| ensures PIPE !in segs[c] && Trim(segs[c]) == shown[c] {
      CsvSegmentTrim(CellOr(cells, c, []), widths[c]);
    }
    FramedReadBack(segs, shown);
  }

  /** Rows whose cells fit their columns come out equally wide, each column taking its width and three units. */
  lemma CsvRowWidth(cells: seq<Str>, widths: seq<nat>)
    requires |cells| <= |widths| && forall c :: 0 <= c < |cells| ==> Width(cells[c]) <= widths[c]
    ensures Width(CsvRowText(cells, widths)) == 1 + Total(widths) + 3 * |widths|
  {
    var segs := CsvSegments(cells, widths);
    forall c | 0 <= c < |widths| ensures Width(segs[c]) == widths[c] + 2 {
      CsvSegmentWidth(CellOr(cells, c, []), widths[c]);
    }
    FramedWidthAll(segs, widths, 2);
  }

  /**
   * Every replacement of a CSV line of lines `s` to `e` reads back as the
   * line's CSV cells padded with empty cells to `maxColumns`, and all of
   * them are equally wide.
   */
  lemma CsvRowShape(doc: Doc, s: nat, e: nat, i: nat)
    requires s <= e < |doc| && i <= e - s && IsCsvLine(doc[s + i])
    ensures var widths := ColumnWidths(CsvRows(doc, s, e + 1));
      var cells := CsvCells(doc[s + i]);
      LineCells(CsvRowText(cells, widths)) == CsvShown(cells, |widths|) &&
      Width(CsvRowText(cells, widths)) == 1 + Total(widths) + 3 * |widths|
  {
    CsvWidths(doc, s, e, i);
    CsvCellsClean(doc[s + i]);
    var widths := ColumnWidths(CsvRows(doc, s, e + 1));
    CsvRowReadBack(CsvCells(doc[s + i]), widths);
    CsvRowWidth(CsvCells(doc[s + i]), widths);
  }

  /** The separator line reads back as a separator row: one dash marker per column. */
  lemma SeparatorReadBack(widths: seq<nat>)
    requires widths != [] && forall c :: 0 <= c < |widths| ==> 1 <= widths[c]
    ensures SeparatorText(widths) == Framed(DashSegments(widths))
    ensures LineCells(SeparatorText(widths)) == DashCells(widths)
    ensures AllMarkers(LineCells(SeparatorText(widths)))
  {
    var segs := DashSegments(widths);
    FramedJoin(segs);
    var shown := DashCells(widths);
    forall c | 0 <= c < |widths| ensures PIPE !in segs[c] && Trim(segs[c]) == shown[c] {
      DashSegmentTrim(widths[c]);
    }
    FramedReadBack(segs, shown);
    forall c | 0 <= c < |shown| ensures ObsidianTable.IsMarker(shown[c]) {
      ObsidianTable.MarkerOfIsMarker(false, false, widths[c]);
      assert ObsidianTable.MarkerOf(false, false, widths[c]) == shown[c];
    }
  }

  /** The separator line is exactly as wide as every row of the run. */
  lemma SeparatorWidth(widths: seq<nat>)
    requires widths != []
    ensures Width(SeparatorText(widths)) == 1 + Total(widths) + 3 * |widths|
  {
    var segs := DashSegments(widths);
    forall c | 0 <= c < |widths| ensures Width(segs[c]) == widths[c] + 2 {
      DashSegmentWidth(widths[c]);
    }
    FramedWidthAll(segs, widths, 2);
    FramedJoin(segs);
  }

  lemma DashSegmentTrim(w: nat)
    requires 1 <= w
    ensures var seg := [SPACE] + Repeat(DASH, w) + [SPACE];
      PIPE !in seg && Trim(seg) == Repeat(DASH, w)
  {
    TrimAround([SPACE], Repeat(DASH, w), [SPACE]);
  }

  lemma DashSegmentWidth(w: nat)
    ensures Width([SPACE] + Repeat(DASH, w) + [SPACE]) == w + 2
  {
    var d := Repeat(DASH, w);
    RepeatWidth(DASH, w);
    WidthAppend([SPACE], d);
    WidthAppend([SPACE] + d, [SPACE]);
  }
}
