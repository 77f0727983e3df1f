/**
 * What the pipe-table formatter of src/extension-obsidian.js guarantees
 * about its output: the shape of each rendered cell, and that formatting
 * an already formatted table changes nothing.
 *
 * The idempotence argument re-parses every rendered row: it has exactly
 * one cell per column, each cell is the trimmed source cell (a data row)
 * or the rendered marker (a separator row), the separator flag is kept,
 * the column widths come out the same, and so every row renders to the
 * text it already has.
 */
module ObsidianTableProofs {
  import opened Text
  import opened ObsidianTable

  // ---------------------------------------------------------------------
  // Rows as the parse loop produces them
  // ---------------------------------------------------------------------

  /** A parsed row: at least one cell, cells trimmed and free of `|`, the separator flag of its cells. */
  predicate ParsedRow(r: Row) {
    && r.cells != []
    && r.isSep == IsSeparatorRow(r.cells)
    && forall c :: 0 <= c < |r.cells| ==> IsTrimmed(r.cells[c]) && PIPE !in r.cells[c]
  }

  lemma RowAtParsed(doc: Doc, i: nat)
    requires i < |doc| && RowAt(doc, i).Some?
    ensures ParsedRow(RowAt(doc, i).value)
  {
    SplitTableLineCells(doc[i]);
  }

  /** Every row of a block is the parsed row of its own line. */
  lemma BlockRow(doc: Doc, lo: nat, hi: nat, i: nat)
    requires lo <= hi <= |doc| && i < |ParseRows(doc, lo, hi)|
    ensures var r := ParseRows(doc, lo, hi)[i];
      && lo <= r.line < hi && RowAt(doc, r.line) == Some(r) && ParsedRow(r)
  {
    ParseRowsOwnLines(doc, lo, hi, i);
    var r := ParseRows(doc, lo, hi)[i];
    RowAtParsed(doc, r.line);
  }

  /** Every line of the block that has a row contributes it. */
  lemma {:induction false} CollectHas(lines: seq<Option<Row>>, lo: nat, hi: nat, k: nat)
    requires Indexed(lines)
    requires lo <= k < hi <= |lines| && lines[k].Some?
    ensures lines[k].value in Collect(lines, lo, hi)
    decreases hi - lo
  {
    if k < hi - 1 {
      CollectHas(lines, lo, hi - 1, k);
    }
  }

  lemma ParseRowsHas(doc: Doc, lo: nat, hi: nat, k: nat)
    requires lo <= k < hi <= |doc| && RowAt(doc, k).Some?
    ensures RowAt(doc, k).value in ParseRows(doc, lo, hi)
  {
    assert LineRows(doc)[k] == RowAt(doc, k);
    CollectHas(LineRows(doc), lo, hi, k);
  }

  // ---------------------------------------------------------------------
  // The rendered cells
  // ---------------------------------------------------------------------

  /** A rendered separator cell is the marker with the source cell's colons and `max(3, w)` units. */
  lemma SepSegmentMarker(cell: Str, w: nat)
    ensures var l, r := LeftColon(cell), RightColon(cell);
      && |OptColon(l)| + |OptColon(r)| < Max(3, w)
      && SepSegment(cell, w) == MarkerOf(l, r, Max(3, w) - |OptColon(l)| - |OptColon(r)|)
  {
    DashesMarker(LeftColon(cell), RightColon(cell), Max(3, w));
  }

  /** Replacing the end dashes of `n >= 3` dashes by the colons asked for leaves a marker of `n` units. */
  lemma DashesMarker(l: bool, r: bool, n: nat)
    requires n >= 3
    ensures var dashes := Repeat(DASH, n);
      && |OptColon(l)| + |OptColon(r)| < n
      && (if l && r then [COLON] + dashes[1..|dashes| - 1] + [COLON]
          else if l then [COLON] + dashes[1..]
          else if r then dashes[..|dashes| - 1] + [COLON]
          else dashes) == MarkerOf(l, r, n - |OptColon(l)| - |OptColon(r)|)
  {
    var dashes := Repeat(DASH, n);
    var k := n - |OptColon(l)| - |OptColon(r)|;
    if l && r {
      assert dashes[1..n - 1] == Repeat(DASH, k);
    } else if l {
      assert dashes[1..] == Repeat(DASH, k);
    } else if r {
      assert dashes[..n - 1] == Repeat(DASH, k);
    } else {
      assert OptColon(l) + dashes + OptColon(r) == dashes;
    }
  }

  /** A marker's units are colons and dashes; it starts (ends) with a colon exactly when it has that colon. */
  lemma MarkerUnits(l: bool, r: bool, k: nat)
    requires 1 <= k
    ensures var m := MarkerOf(l, r, k);
      && (forall i :: 0 <= i < |m| ==> m[i] == COLON || m[i] == DASH)
      && (m[0] == COLON <==> l) && (m[|m| - 1] == COLON <==> r)
  {
    var m := MarkerOf(l, r, k);
    var d := Repeat(DASH, k);
    forall i | 0 <= i < |m| ensures m[i] == COLON || m[i] == DASH {
      if |OptColon(l)| <= i < |m| - |OptColon(r)| {
        assert m[i] == d[i - |OptColon(l)|];
      }
    }
    assert m[0] == (if l then COLON else d[0]);
    assert m[|m| - 1] == (if r then COLON else d[k - 1]);
  }

  /** A marker holds no white space and no `|`, so stripping and trimming keep it. */
  lemma MarkerShape(l: bool, r: bool, k: nat)
    requires 1 <= k
    ensures var m := MarkerOf(l, r, k);
      && |m| == |OptColon(l)| + k + |OptColon(r)|
      && IsMarker(m) && RemoveWhitespace(m) == m && IsTrimmed(m) && PIPE !in m
  {
    var m := MarkerOf(l, r, k);
    MarkerOfIsMarker(l, r, k);
    MarkerUnits(l, r, k);
    RemoveWhitespaceKeeps(m);
  }

  /**
   * A rendered separator cell has exactly `max(3, w)` units, is a marker,
   * and holds no white space and no `|`.
   */
  lemma SepSegmentShape(cell: Str, w: nat)
    ensures |SepSegment(cell, w)| == Max(3, w)
    ensures IsMarker(SepSegment(cell, w))
    ensures RemoveWhitespace(SepSegment(cell, w)) == SepSegment(cell, w)
    ensures IsTrimmed(SepSegment(cell, w)) && PIPE !in SepSegment(cell, w)
  {
    var l, r := LeftColon(cell), RightColon(cell);
    SepSegmentMarker(cell, w);
    MarkerShape(l, r, Max(3, w) - |OptColon(l)| - |OptColon(r)|);
  }

  /** A rendered separator cell starts (ends) with `:` exactly when the source cell did. */
  lemma SepSegmentColons(cell: Str, w: nat)
    ensures LeftColon(SepSegment(cell, w)) == LeftColon(cell)
    ensures RightColon(SepSegment(cell, w)) == RightColon(cell)
  {
    var l, r := LeftColon(cell), RightColon(cell);
    var k := Max(3, w) - |OptColon(l)| - |OptColon(r)|;
    SepSegmentMarker(cell, w);
    MarkerUnits(l, r, k);
    MarkerShape(l, r, k);
  }

  /** A data cell renders as ` ` + padded cell + ` `, two units wider than its column. */
  lemma DataSegmentWidth(content: Str, w: nat)
    requires Width(content) <= w
    ensures Width([SPACE] + Padded(content, w) + [SPACE]) == w + 2
  {
    PaddedWidth(content, w);
    WidthAppend([SPACE], Padded(content, w));
    WidthAppend([SPACE] + Padded(content, w), [SPACE]);
    assert Width([SPACE]) == 1;
  }

  /** Trimming a rendered data cell gives back the trimmed content. */
  lemma DataCellReparse(content: Str, w: nat)
    requires IsTrimmed(content) && PIPE !in content
    ensures PIPE !in Padded(content, w)
    ensures Trim([SPACE] + Padded(content, w) + [SPACE]) == content
  {
    var pad := Padding(content, w);
    PaddingUnits(content, w);
    assert [SPACE] + Padded(content, w) + [SPACE] == [SPACE] + content + (pad + [SPACE]);
    assert AllWhitespace(pad + [SPACE]) by {
      forall i | 0 <= i < |pad| + 1 ensures IsWhitespace((pad + [SPACE])[i]) {
        if i < |pad| { assert (pad + [SPACE])[i] == pad[i]; }
      }
    }
    TrimAround([SPACE], content, pad + [SPACE]);
  }

  /** What re-parsing finds in rendered cell `c` of a parsed row. */
  function Reparsed(r: Row, c: nat, w: nat): Str {
    if r.isSep then SepSegment(CellAt(r.cells, c), w) else Trim(CellAt(r.cells, c))
  }

  lemma CellTextReparse(r: Row, c: nat, w: nat)
    requires ParsedRow(r)
    ensures PIPE !in CellText(r, c, w)
    ensures Trim([SPACE] + CellText(r, c, w) + [SPACE]) == Reparsed(r, c, w)
    ensures IsTrimmed(Reparsed(r, c, w)) && PIPE !in Reparsed(r, c, w)
  {
    var cell := CellAt(r.cells, c);
    if r.isSep {
      SepSegmentShape(cell, w);
      TrimAround([SPACE], SepSegment(cell, w), [SPACE]);
    } else {
      TrimParts(cell);
      TrimWithout(cell, PIPE);
      DataCellReparse(Trim(cell), w);
    }
  }

  // ---------------------------------------------------------------------
  // Re-parsing a rendered row
  // ---------------------------------------------------------------------

  /** The row a rendered row parses back into. */
  function ReRow(r: Row, widths: seq<nat>): Row {
    Row(r.line, TrimAll(Segments(r, widths)), r.isSep)
  }

  /** A rendered row has a `|` and splits into one trimmed piece per column. */
  lemma RenderRowSplit(r: Row, widths: seq<nat>)
    requires ParsedRow(r)
    ensures HasPipe(RenderRow(r, widths))
    ensures SplitTableLine(RenderRow(r, widths)) == Some(TrimAll(Segments(r, widths)))
  {
    var segs := Segments(r, widths);
    var line := RenderRow(r, widths);
    forall c | 0 <= c < |segs| ensures PIPE !in segs[c] {
      CellTextReparse(r, c, widths[c]);
    }
    SplitFramed(segs);
    var parts := [[]] + segs + [[]];
    if !HasPipe(line) {
      SplitWithout(line, PIPE);
      assert false;
    }
    var trimmed := TrimAll(parts);
    assert trimmed == [[]] + TrimAll(segs) + [[]];
    assert FirstKept(trimmed) == 1;
  }

  /** Cell `c` of the re-parsed row is the trimmed source cell, or the rendered marker. */
  lemma ReRowCell(r: Row, widths: seq<nat>, c: nat)
    requires ParsedRow(r) && c < |widths|
    ensures |ReRow(r, widths).cells| == |widths|
    ensures ReRow(r, widths).cells[c] == Reparsed(r, c, widths[c])
    ensures IsTrimmed(ReRow(r, widths).cells[c]) && PIPE !in ReRow(r, widths).cells[c]
  {
    CellTextReparse(r, c, widths[c]);
  }

  /** The re-parsed row is again a parsed row, with one cell per column and the same separator flag. */
  lemma ReRowParsed(r: Row, widths: seq<nat>)
    requires ParsedRow(r) && |r.cells| <= |widths|
    ensures ParsedRow(ReRow(r, widths))
  {
    var cells := ReRow(r, widths).cells;
    forall c | 0 <= c < |cells| ensures IsTrimmed(cells[c]) && PIPE !in cells[c] {
      ReRowCell(r, widths, c);
    }
    if r.isSep {
      forall c | 0 <= c < |cells| ensures IsMarker(RemoveWhitespace(cells[c])) {
        ReRowCell(r, widths, c);
        SepSegmentShape(CellAt(r.cells, c), widths[c]);
      }
    } else {
      var c :| 0 <= c < |r.cells| && !IsMarker(RemoveWhitespace(r.cells[c]));
      ReRowCell(r, widths, c);
      TrimAround([], r.cells[c], []);
      assert [] + r.cells[c] + [] == r.cells[c];
    }
  }

  /** A re-parsed row renders to the same text as the row it came from. */
  lemma ReRowRenders(r: Row, widths: seq<nat>)
    requires ParsedRow(r) && |r.cells| <= |widths|
    ensures RenderRow(ReRow(r, widths), widths) == RenderRow(r, widths)
  {
    var r' := ReRow(r, widths);
    forall c | 0 <= c < |widths| ensures CellText(r', c, widths[c]) == CellText(r, c, widths[c]) {
      ReRowCell(r, widths, c);
      var cell := CellAt(r.cells, c);
      if r.isSep {
        SepSegmentColons(cell, widths[c]);
      } else {
        TrimIdempotent(cell);
      }
    }
    assert Segments(r', widths) == Segments(r, widths);
  }

  /** A re-parsed data row measures the same in every column. */
  lemma ReRowDataWidth(r: Row, widths: seq<nat>, c: nat)
    requires ParsedRow(r) && c < |widths| && !r.isSep
    ensures DataWidth(ReRow(r, widths), c) == DataWidth(r, c)
  {
    ReRowCell(r, widths, c);
    TrimIdempotent(CellAt(r.cells, c));
  }

  // ---------------------------------------------------------------------
  // Re-parsing the rendered block
  // ---------------------------------------------------------------------

  function ReRows(rows: seq<Row>, widths: seq<nat>): (rs: seq<Row>)
    ensures |rs| == |rows|
  {
    seq(|rows|, i requires 0 <= i < |rows| => ReRow(rows[i], widths))
  }

  /** Every row is parsed and has no more cells than there are columns. */
  predicate FitRows(rows: seq<Row>, widths: seq<nat>) {
    forall i :: 0 <= i < |rows| ==> ParsedRow(rows[i]) && |rows[i].cells| <= |widths|
  }

  lemma ReRowsPrefix(rows: seq<Row>, widths: seq<nat>)
    requires rows != []
    ensures ReRows(rows, widths)[..|rows| - 1] == ReRows(rows[..|rows| - 1], widths)
  {
  }

  /** The columns of the re-parsed rows are as wide as those of the rows. */
  lemma {:induction false} ReRowsColWidth(rows: seq<Row>, widths: seq<nat>, c: nat)
    requires FitRows(rows, widths) && c < |widths|
    ensures ColWidth(ReRows(rows, widths), c) == ColWidth(rows, c)
  {
    if rows != [] {
      var p := rows[..|rows| - 1];
      var last := rows[|rows| - 1];
      ReRowsPrefix(rows, widths);
      ReRowsColWidth(p, widths, c);
      if !last.isSep {
        ReRowDataWidth(last, widths, c);
      }
    }
  }

  /** Every re-parsed row has one cell per column. */
  lemma {:induction false} ReRowsMaxCols(rows: seq<Row>, widths: seq<nat>)
    requires FitRows(rows, widths) && rows != []
    ensures MaxCols(ReRows(rows, widths)) == |widths|
  {
    var p := rows[..|rows| - 1];
    ReRowsPrefix(rows, widths);
    if p != [] {
      ReRowsMaxCols(p, widths);
    }
  }

  /** Re-parsing the rendered rows yields the same column widths. */
  lemma ReRowsWidths(rows: seq<Row>)
    requires rows != [] && forall i :: 0 <= i < |rows| ==> ParsedRow(rows[i])
    ensures var widths := Widths(rows, MaxCols(rows));
      && FitRows(rows, widths)
      && Widths(ReRows(rows, widths), MaxCols(ReRows(rows, widths))) == widths
  {
    var widths := Widths(rows, MaxCols(rows));
    forall i | 0 <= i < |rows| ensures |rows[i].cells| <= |widths| {
      MaxColsBound(rows, i);
    }
    ReRowsMaxCols(rows, widths);
    forall c | 0 <= c < |widths| ensures ColWidth(ReRows(rows, widths), c) == widths[c] {
      ReRowsColWidth(rows, widths, c);
    }
  }

  /** The row of a line, re-parsed after rendering. */
  function ReRowOf(x: Option<Row>, widths: seq<nat>): Option<Row> {
    match x
    case Some(r) => Some(ReRow(r, widths))
    case None => None
  }

  lemma ReRowsAppend(rows: seq<Row>, x: Option<Row>, widths: seq<nat>)
    ensures ReRows(rows + RowsOf(x), widths) == ReRows(rows, widths) + RowsOf(ReRowOf(x, widths))
  {
  }

  /** Collecting re-parsed lines gives the re-parsed collected rows. */
  lemma {:induction false} CollectAfter(lines: seq<Option<Row>>, lines': seq<Option<Row>>, lo: nat, hi: nat, widths: seq<nat>)
    requires Indexed(lines) && Indexed(lines')
    requires lo <= hi <= |lines| == |lines'|
    requires forall k :: lo <= k < hi ==> lines'[k] == ReRowOf(lines[k], widths)
    ensures Collect(lines', lo, hi) == ReRows(Collect(lines, lo, hi), widths)
    decreases hi - lo
  {
    if hi > lo {
      CollectAfter(lines, lines', lo, hi - 1, widths);
      ReRowsAppend(Collect(lines, lo, hi - 1), lines[hi - 1], widths);
    }
  }

  /** Line by line re-parsing gives the re-parsed rows of the block. */
  lemma ParseRowsAfter(doc: Doc, doc': Doc, lo: nat, hi: nat, widths: seq<nat>)
    requires lo <= hi <= |doc| == |doc'|
    requires forall k :: lo <= k < hi ==> RowAt(doc', k) == ReRowOf(RowAt(doc, k), widths)
    ensures ParseRows(doc', lo, hi) == ReRows(ParseRows(doc, lo, hi), widths)
  {
    var lines, lines' := LineRows(doc), LineRows(doc');
    forall k | lo <= k < hi ensures lines'[k] == ReRowOf(lines[k], widths) {
      assert lines[k] == RowAt(doc, k) && lines'[k] == RowAt(doc', k);
    }
    CollectAfter(lines, lines', lo, hi, widths);
  }

  // ---------------------------------------------------------------------
  // The document after the edits
  // ---------------------------------------------------------------------

  /** The rows name strictly increasing lines. */
  predicate LinesAscending(rows: seq<Row>) {
    forall i, j :: 0 <= i < j < |rows| ==> rows[i].line < rows[j].line
  }

  /** The rows of a block come in line order. */
  lemma ParseRowsAscending(doc: Doc, lo: nat, hi: nat)
    requires lo <= hi <= |doc|
    ensures LinesAscending(ParseRows(doc, lo, hi))
  {
    var rows := ParseRows(doc, lo, hi);
    forall i, j | 0 <= i < j < |rows| ensures rows[i].line < rows[j].line {
      ParseRowsOrdered(doc, lo, hi, i, j);
    }
  }

  /** The rows of a block: each from a `|` line of the document, parsed, in line order. */
  predicate ParsedBlock(doc: Doc, rows: seq<Row>) {
    && (forall i :: 0 <= i < |rows| ==> rows[i].line < |doc| && HasPipe(doc[rows[i].line]) && ParsedRow(rows[i]))
    && LinesAscending(rows)
  }

  lemma BlockParsed(doc: Doc, lo: nat, hi: nat)
    requires lo <= hi <= |doc|
    ensures ParsedBlock(doc, ParseRows(doc, lo, hi))
  {
    var rows := ParseRows(doc, lo, hi);
    ParseRowsAscending(doc, lo, hi);
    ParseRowsInDoc(doc, lo, hi);
    forall i | 0 <= i < |rows| ensures HasPipe(doc[rows[i].line]) && ParsedRow(rows[i]) {
      BlockRow(doc, lo, hi, i);
    }
  }

  /** The lines the rows come from. */
  function RowLines(rows: seq<Row>): set<nat> {
    set i | 0 <= i < |rows| :: rows[i].line
  }

  /**
   * `doc'` is `doc` with the rows formatted at `widths`: each row's line
   * holds the row's rendering, every other line is as it was.
   */
  predicate FormattedInto(doc: Doc, doc': Doc, rows: seq<Row>, widths: seq<nat>) {
    && |doc'| == |doc|
    && (forall i :: 0 <= i < |rows| ==> rows[i].line < |doc| && doc'[rows[i].line] == RenderRow(rows[i], widths))
    && (forall k :: 0 <= k < |doc| && k !in RowLines(rows) ==> doc'[k] == doc[k])
  }

  /** Applying the changing rendered rows formats the rows into the document. */
  lemma AppliedFormat(doc: Doc, rows: seq<Row>, widths: seq<nat>)
    requires RowsInDoc(doc, rows) && LinesAscending(rows)
    ensures EditsInRange(doc, Changed(doc, Rendered(rows, widths)))
    ensures FormattedInto(doc, ApplyEdits(doc, Changed(doc, Rendered(rows, widths))), rows, widths)
  {
    var reps := Rendered(rows, widths);
    assert Ascending(reps);
    ChangedAscending(doc, reps);
    var doc' := ApplyEdits(doc, Changed(doc, reps));
    forall i | 0 <= i < |rows| ensures doc'[rows[i].line] == RenderRow(rows[i], widths) {
      ApplyChanged(doc, reps, rows[i].line);
      assert reps[i].line == rows[i].line;
    }
    forall k | 0 <= k < |doc| && k !in RowLines(rows) ensures doc'[k] == doc[k] {
      ApplyChanged(doc, reps, k);
    }
  }

  /** Every row has at most as many cells as there are columns. */
  lemma CellsFit(rows: seq<Row>)
    ensures forall i :: 0 <= i < |rows| ==> |rows[i].cells| <= |Widths(rows, MaxCols(rows))|
  {
    forall i | 0 <= i < |rows| ensures |rows[i].cells| <= MaxCols(rows) {
      MaxColsBound(rows, i);
    }
  }

  /** Each line of a formatted block re-parses to its re-parsed row. */
  lemma RowAtAfter(doc: Doc, doc': Doc, lo: nat, hi: nat, widths: seq<nat>, k: nat)
    requires lo <= k < hi <= |doc|
    requires FormattedInto(doc, doc', ParseRows(doc, lo, hi), widths)
    requires forall i :: 0 <= i < |ParseRows(doc, lo, hi)| ==> |ParseRows(doc, lo, hi)[i].cells| <= |widths|
    ensures RowAt(doc', k) == ReRowOf(RowAt(doc, k), widths)
  {
    var rows := ParseRows(doc, lo, hi);
    if RowAt(doc, k).Some? {
      var r := RowAt(doc, k).value;
      RowAtParsed(doc, k);
      ParseRowsHas(doc, lo, hi, k);
      var i :| 0 <= i < |rows| && rows[i] == r;
      assert doc'[k] == RenderRow(r, widths);
      RenderRowSplit(r, widths);
      ReRowParsed(r, widths);
    } else {
      forall i | 0 <= i < |rows| ensures rows[i].line != k {
        BlockRow(doc, lo, hi, i);
      }
      assert k !in RowLines(rows);
    }
  }

  // ---------------------------------------------------------------------
  // The same block is found again
  // ---------------------------------------------------------------------

  /** The two documents have the same length and `|` on the same lines. */
  predicate SamePipes(doc: Doc, doc': Doc) {
    |doc'| == |doc| && forall j :: 0 <= j < |doc| ==> HasPipe(doc'[j]) == HasPipe(doc[j])
  }

  lemma {:induction false} ExtendUpSame(doc: Doc, doc': Doc, i: nat)
    requires i < |doc| && SamePipes(doc, doc')
    ensures ExtendUp(doc', i) == ExtendUp(doc, i)
  {
    if i > 0 && HasPipe(doc[i - 1]) {
      ExtendUpSame(doc, doc', i - 1);
    }
  }

  lemma {:induction false} BlockEndSame(doc: Doc, doc': Doc, k: nat)
    requires k < |doc| && SamePipes(doc, doc')
    ensures BlockEnd(doc', k) == BlockEnd(doc, k)
    decreases |doc| - k
  {
    if k + 1 < |doc| && HasPipe(doc[k + 1]) {
      BlockEndSame(doc, doc', k + 1);
    }
  }

  // ---------------------------------------------------------------------
  // Idempotence
  // ---------------------------------------------------------------------

  /** The rows of a formatted block are the re-parsed rows of the block. */
  lemma ReparsedBlock(doc: Doc, doc': Doc, start: nat, end: nat)
    requires start <= end < |doc|
    requires var rows := ParseRows(doc, start, end + 1);
      FormattedInto(doc, doc', rows, Widths(rows, MaxCols(rows)))
    ensures var rows := ParseRows(doc, start, end + 1);
      ParseRows(doc', start, end + 1) == ReRows(rows, Widths(rows, MaxCols(rows)))
  {
    var rows := ParseRows(doc, start, end + 1);
    var widths := Widths(rows, MaxCols(rows));
    CellsFit(rows);
    forall k | start <= k < end + 1 ensures RowAt(doc', k) == ReRowOf(RowAt(doc, k), widths) {
      RowAtAfter(doc, doc', start, end + 1, widths, k);
    }
    ParseRowsAfter(doc, doc', start, end + 1, widths);
  }

  /** Rows that already hold their renderings at their own widths yield no edit. */
  lemma NothingToChange(doc: Doc, rows: seq<Row>)
    requires RowsInDoc(doc, rows)
    requires forall i :: 0 <= i < |rows| ==> doc[rows[i].line] == RenderRow(rows[i], Widths(rows, MaxCols(rows)))
    ensures FormatRows(doc, rows) == []
  {
    ChangedNone(doc, Rendered(rows, Widths(rows, MaxCols(rows))));
  }

  /** Rows formatted into a document keep every line's `|` or lack of one. */
  lemma FormattedPipes(doc: Doc, doc': Doc, rows: seq<Row>, widths: seq<nat>)
    requires ParsedBlock(doc, rows) && FormattedInto(doc, doc', rows, widths)
    ensures SamePipes(doc, doc')
  {
    forall j | 0 <= j < |doc| ensures HasPipe(doc'[j]) == HasPipe(doc[j]) {
      if j in RowLines(rows) {
        var i :| 0 <= i < |rows| && rows[i].line == j;
        RenderRowSplit(rows[i], widths);
      }
    }
  }

  /** The re-parsed rows of formatted rows keep the widths and render as their lines already read. */
  lemma ReformatNothing(doc: Doc, doc': Doc, rows: seq<Row>)
    requires ParsedBlock(doc, rows) && rows != []
    requires FormattedInto(doc, doc', rows, Widths(rows, MaxCols(rows)))
    ensures RowsInDoc(doc', ReRows(rows, Widths(rows, MaxCols(rows))))
    ensures FormatParsed(doc', ReRows(rows, Widths(rows, MaxCols(rows)))) == []
  {
    var widths := Widths(rows, MaxCols(rows));
    ReRowsWidths(rows);
    var rows' := ReRows(rows, widths);
    forall i | 0 <= i < |rows'| ensures doc'[rows'[i].line] == RenderRow(rows'[i], widths) {
      ReRowRenders(rows[i], widths);
    }
    NothingToChange(doc', rows');
  }

  /** Formatting parsed rows formats them into the document and keeps every line's `|`. */
  lemma ParsedApplied(doc: Doc, rows: seq<Row>)
    requires ParsedBlock(doc, rows)
    ensures EditsInRange(doc, FormatRows(doc, rows))
    ensures var doc' := ApplyEdits(doc, FormatRows(doc, rows));
      FormattedInto(doc, doc', rows, Widths(rows, MaxCols(rows))) && SamePipes(doc, doc')
  {
    var widths := Widths(rows, MaxCols(rows));
    AppliedFormat(doc, rows, widths);
    FormattedPipes(doc, ApplyEdits(doc, FormatRows(doc, rows)), rows, widths);
  }

  /** A block with two rows and a separator row is edited by formatting its parsed rows. */
  lemma FormatBlockRows(doc: Doc, start: nat, end: nat)
    requires start <= end < |doc|
    requires |ParseRows(doc, start, end + 1)| >= 2
    requires HasSeparatorRow(ParseRows(doc, start, end + 1))
    ensures RowsInDoc(doc, ParseRows(doc, start, end + 1))
    ensures FormatBlock(doc, start, end) == FormatRows(doc, ParseRows(doc, start, end + 1))
  {
    ParseRowsInDoc(doc, start, end + 1);
  }

  /** Formatting the same block of a document its rows were formatted into makes no edit. */
  lemma FormattedBlockStable(doc: Doc, doc': Doc, start: nat, end: nat)
    requires start <= end < |doc|
    requires var rows := ParseRows(doc, start, end + 1);
      rows != [] && FormattedInto(doc, doc', rows, Widths(rows, MaxCols(rows)))
    ensures FormatBlock(doc', start, end) == []
  {
    var rows := ParseRows(doc, start, end + 1);
    BlockParsed(doc, start, end + 1);
    ReformatNothing(doc, doc', rows);
    ReparsedBlock(doc, doc', start, end);
  }

  /** `formatTableAtLine` is idempotent: formatting the formatted document again makes no edit. */
  lemma FormatIdempotent(doc: Doc, lineIndex: int)
    ensures EditsInRange(doc, FormatTable(doc, lineIndex))
    ensures FormatTable(ApplyEdits(doc, FormatTable(doc, lineIndex)), lineIndex) == []
  {
    if 0 <= lineIndex < |doc| {
      var start, end := BlockStart(doc, lineIndex), BlockEnd(doc, lineIndex);
      var rows := ParseRows(doc, start, end + 1);
      FormatTableBlock(doc, lineIndex);
      if |rows| >= 2 && HasSeparatorRow(rows) {
        FormatBlockAgain(doc, lineIndex);
      } else {
        FormatBlockNone(doc, start, end);
      }
    }
  }

  /** A block that is formatted is found again, and left alone, in the formatted document. */
  lemma FormatBlockAgain(doc: Doc, lineIndex: nat)
    requires lineIndex < |doc|
    requires var rows := ParseRows(doc, BlockStart(doc, lineIndex), BlockEnd(doc, lineIndex) + 1);
      |rows| >= 2 && HasSeparatorRow(rows)
    ensures EditsInRange(doc, FormatTable(doc, lineIndex))
    ensures FormatTable(ApplyEdits(doc, FormatTable(doc, lineIndex)), lineIndex) == []
  {
    var start, end := BlockStart(doc, lineIndex), BlockEnd(doc, lineIndex);
    FormatTableRows(doc, lineIndex);
    FormatRowsStable(doc, start, end);
    var doc' := ApplyEdits(doc, FormatRows(doc, ParseRows(doc, start, end + 1)));
    FormattedTableStable(doc, doc', lineIndex);
  }

  /** A block with two rows and a separator row: `formatTableAtLine` formats its parsed rows. */
  lemma FormatTableRows(doc: Doc, lineIndex: nat)
    requires lineIndex < |doc|
    requires var rows := ParseRows(doc, BlockStart(doc, lineIndex), BlockEnd(doc, lineIndex) + 1);
      |rows| >= 2 && HasSeparatorRow(rows)
    ensures var rows := ParseRows(doc, BlockStart(doc, lineIndex), BlockEnd(doc, lineIndex) + 1);
      RowsInDoc(doc, rows) && FormatTable(doc, lineIndex) == FormatRows(doc, rows)
  {
    FormatTableBlock(doc, lineIndex);
    FormatBlockRows(doc, BlockStart(doc, lineIndex), BlockEnd(doc, lineIndex));
  }

  /** When the block around a line is left alone in a document with `|` on the same lines, so is the line's table. */
  lemma FormattedTableStable(doc: Doc, doc': Doc, lineIndex: nat)
    requires lineIndex < |doc| && SamePipes(doc, doc')
    requires FormatBlock(doc', BlockStart(doc, lineIndex), BlockEnd(doc, lineIndex)) == []
    ensures FormatTable(doc', lineIndex) == []
  {
    SameBlock(doc, doc', lineIndex);
    FormatTableBlock(doc', lineIndex);
  }

  /** The edits of a formatted block stay in the document, keep `|` where it was, and leave the block formatted. */
  lemma FormatRowsStable(doc: Doc, start: nat, end: nat)
    requires start <= end < |doc|
    requires var rows := ParseRows(doc, start, end + 1);
      |rows| >= 2 && HasSeparatorRow(rows)
    ensures var rows := ParseRows(doc, start, end + 1);
      RowsInDoc(doc, rows) && EditsInRange(doc, FormatRows(doc, rows)) &&
      var doc' := ApplyEdits(doc, FormatRows(doc, rows));
      SamePipes(doc, doc') && FormatBlock(doc', start, end) == []
  {
    var rows := ParseRows(doc, start, end + 1);
    FormatRowsInto(doc, start, end);
    FormattedBlockStable(doc, ApplyEdits(doc, FormatRows(doc, rows)), start, end);
  }

  /** The edits of a formatted block stay in the document, keep `|` where it was, and format the rows into it. */
  lemma FormatRowsInto(doc: Doc, start: nat, end: nat)
    requires start <= end < |doc|
    ensures var rows := ParseRows(doc, start, end + 1);
      RowsInDoc(doc, rows) && EditsInRange(doc, FormatRows(doc, rows)) &&
      var doc' := ApplyEdits(doc, FormatRows(doc, rows));
      SamePipes(doc, doc') && FormattedInto(doc, doc', rows, Widths(rows, MaxCols(rows)))
  {
    BlockParsed(doc, start, end + 1);
    ParsedApplied(doc, ParseRows(doc, start, end + 1));
  }

  /** On a line of the document, `formatTableAtLine` formats the block around it. */
  lemma FormatTableBlock(doc: Doc, lineIndex: nat)
    requires lineIndex < |doc|
    ensures FormatTable(doc, lineIndex) == FormatBlock(doc, BlockStart(doc, lineIndex), BlockEnd(doc, lineIndex))
  {
  }

  /** A block without two rows and a separator row is left alone. */
  lemma FormatBlockNone(doc: Doc, start: nat, end: nat)
    requires start <= end < |doc|
    requires |ParseRows(doc, start, end + 1)| < 2 || !HasSeparatorRow(ParseRows(doc, start, end + 1))
    ensures FormatBlock(doc, start, end) == []
  {
    ParseRowsInDoc(doc, start, end + 1);
  }

  /** Documents with `|` on the same lines have the same block around each line. */
  lemma SameBlock(doc: Doc, doc': Doc, lineIndex: nat)
    requires lineIndex < |doc| && SamePipes(doc, doc')
    ensures BlockStart(doc', lineIndex) == BlockStart(doc, lineIndex)
    ensures BlockEnd(doc', lineIndex) == BlockEnd(doc, lineIndex)
  {
    ExtendUpSame(doc, doc', lineIndex);
    BlockEndSame(doc, doc', lineIndex);
  }
}
