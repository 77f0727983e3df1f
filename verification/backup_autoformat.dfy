/**
 * `autoFormatTableLine` of src/extension-obsidian-backup.js: a one-line
 * rewrite of a table row. It measures cells in code units, scans the block
 * as the runs of lines that contain `|`, and keeps a blank end piece when
 * the line does not really start (end) with `|`. Nothing in the extension
 * calls it.
 */
module BackupAutoFormat {
  import opened Text
  import ObsidianTable
  import opened BackupTable

  /** `text.trimLeft().startsWith('|')` */
  predicate LeadingPipe(text: Str) {
    StartsWith(TrimStart(text), [PIPE])
  }

  /** `text.trimRight().endsWith('|')` */
  predicate TrailingPipe(text: Str) {
    var t := TrimEnd(text);
    |t| > 0 && t[|t| - 1] == PIPE
  }

  /** `contentCells`: a blank end piece is dropped only on the side where the line has its `|`. */
  function AutoCells(text: Str): seq<Str> {
    var cells := ObsidianTable.TrimAll(Split(text, PIPE));
    var a := if cells[0] == [] && LeadingPipe(text) then cells[1..] else cells;
    if cells[|cells| - 1] == [] && TrailingPipe(text) && |a| > 0 then a[..|a| - 1] else a
  }

  /** Every cell of the rewrite is trimmed and free of `|`. */
  lemma AutoCellsClean(text: Str)
    ensures forall c :: 0 <= c < |AutoCells(text)| ==> IsTrimmed(AutoCells(text)[c]) && PIPE !in AutoCells(text)[c]
  {
    var pieces := Split(text, PIPE);
    var trimmed := ObsidianTable.TrimAll(pieces);
    forall i | 0 <= i < |trimmed| ensures IsTrimmed(trimmed[i]) && PIPE !in trimmed[i] {
      TrimParts(pieces[i]);
      TrimWithout(pieces[i], PIPE);
    }
    var cells := AutoCells(text);
    var a := if trimmed[0] == [] && LeadingPipe(text) then trimmed[1..] else trimmed;
    forall c | 0 <= c < |cells| ensures IsTrimmed(cells[c]) && PIPE !in cells[c] {
      assert cells[c] == a[c];
      assert trimmed[0] == [] && LeadingPipe(text) ==> a[c] == trimmed[c + 1];
    }
  }

  // ---------------------------------------------------------------------
  // Column widths in code units
  // ---------------------------------------------------------------------

  /** `cell.length` for each cell. */
  function Lengths(cells: seq<Str>): (r: seq<nat>)
    ensures |r| == |cells|
  {
    seq(|cells|, c requires 0 <= c < |cells| => |cells[c]|)
  }

  /** The cells of lines `[lo, hi)`, as the width loop splits them. */
  function CellLines(doc: Doc, lo: nat, hi: nat): (lines: seq<seq<Str>>)
    requires lo <= hi <= |doc|
    ensures |lines| == hi - lo
  {
    seq(hi - lo, j requires 0 <= j < hi - lo => LineCells(doc[lo + j]))
  }

  /** `columnWidths` after the given lines: raised by each line that is not all markers, in code units. */
  function LengthWidths(lines: seq<seq<Str>>): seq<nat> {
    if lines == [] then []
    else
      var p := LengthWidths(lines[..|lines| - 1]);
      var last := lines[|lines| - 1];
      if AllMarkers(last) then p else Raise(p, Lengths(last))
  }

  /**
   * A column's width is unset exactly when no line of cells that are not
   * all markers reaches the column; once set it is at least 3 and at
   * least the length of each cell of the column on such a line.
   */
  lemma {:induction false} LengthWidthsBound(lines: seq<seq<Str>>, c: nat)
    ensures var w := WidthAt(LengthWidths(lines), c);
      (w == 0 || 3 <= w) &&
      (forall j :: 0 <= j < |lines| && !AllMarkers(lines[j]) && c < |lines[j]| ==> |lines[j][c]| <= w) &&
      (w == 0 <==> forall j :: 0 <= j < |lines| && !AllMarkers(lines[j]) ==> |lines[j]| <= c)
  {
    if lines != [] {
      var p := lines[..|lines| - 1];
      var last := lines[|lines| - 1];
      LengthWidthsBound(p, c);
      assert forall j :: 0 <= j < |p| ==> lines[j] == p[j];
      var wp := WidthAt(LengthWidths(p), c);
      if !AllMarkers(last) {
        var r := Raise(LengthWidths(p), Lengths(last));
        assert WidthAt(r, c) == if c < |last| then RaiseCell(wp, |last[c]|) else wp;
      }
    }
  }

  lemma CellLinesSnoc(doc: Doc, lo: nat, hi: nat)
    requires lo <= hi < |doc|
    ensures CellLines(doc, lo, hi + 1) == CellLines(doc, lo, hi) + [LineCells(doc[hi])]
  {
  }

  /** The `forEach` over a data line's cells, in code units. */
  method RaiseLengths(columnWidths: seq<nat>, cells: seq<Str>) returns (r: seq<nat>)
    ensures r == Raise(columnWidths, Lengths(cells))
  {
    r := columnWidths;
    var colIndex := 0;
    while colIndex < |cells|
      invariant 0 <= colIndex <= |cells|
      invariant |r| == Max(|columnWidths|, colIndex)
      invariant forall d :: 0 <= d < |r| ==>
        r[d] == if d < colIndex then RaiseCell(WidthAt(columnWidths, d), |cells[d]|) else columnWidths[d]
    {
      var cellLength := |cells[colIndex]|;
      if colIndex >= |r| || r[colIndex] == 0 || cellLength > r[colIndex] {
        var w := Max(cellLength, 3);
        if colIndex < |r| {
          r := r[colIndex := w];
        } else {
          r := r + [w];
        }
      }
      colIndex := colIndex + 1;
    }
  }

  /** The loop over the block that computes `columnWidths`; no line is skipped as blank. */
  method BlockLengths(doc: Doc, tableStartLine: nat, tableEndLine: nat) returns (columnWidths: seq<nat>)
    requires tableStartLine <= tableEndLine < |doc|
    ensures columnWidths == LengthWidths(CellLines(doc, tableStartLine, tableEndLine + 1))
  {
    columnWidths := [];
    var i := tableStartLine;
    while i <= tableEndLine
      invariant tableStartLine <= i <= tableEndLine + 1
      invariant columnWidths == LengthWidths(CellLines(doc, tableStartLine, i))
    {
      var cellContent := LineCells(doc[i]);
      CellLinesSnoc(doc, tableStartLine, i);
      ghost var lines := CellLines(doc, tableStartLine, i + 1);
      assert lines[..|lines| - 1] == CellLines(doc, tableStartLine, i);
      if !AllMarkers(cellContent) {
        columnWidths := RaiseLengths(columnWidths, cellContent);
      }
      i := i + 1;
    }
  }

  // ---------------------------------------------------------------------
  // The rewritten line
  // ---------------------------------------------------------------------

  /** `s.padEnd(n)`: spaces up to `n` code units. */
  function PadEnd(s: Str, n: nat): Str {
    if |s| >= n then s else s + Repeat(SPACE, n - |s|)
  }

  /** `columnWidths[index] || 3` */
  function AutoTarget(widths: seq<nat>, c: nat): nat {
    if WidthAt(widths, c) == 0 then 3 else WidthAt(widths, c)
  }

  function AutoSegments(cells: seq<Str>, widths: seq<nat>): (segs: seq<Str>)
    ensures |segs| == |cells|
  {
    seq(|cells|, c requires 0 <= c < |cells| => [SPACE] + PadEnd(cells[c], AutoTarget(widths, c)) + [SPACE])
  }

  /** `'|' + formattedCells.join('|') + '|'`: `||` when there is no cell. */
  function AutoRow(segs: seq<Str>): Str {
    if segs == [] then [PIPE, PIPE] else Framed(segs)
  }

  /** With at least one segment, the framed row is the join between two pipes. */
  lemma AutoRowJoin(segs: seq<Str>)
    requires segs != []
    ensures AutoRow(segs) == [PIPE] + Join(segs, PIPE) + [PIPE]
  {
    FramedJoin(segs);
  }

  /** The rewrite of line `k`. */
  function AutoLine(doc: Doc, k: nat): Str
    requires k < |doc|
  {
    var s, e := ObsidianTable.BlockStart(doc, k), ObsidianTable.BlockEnd(doc, k);
    AutoRow(AutoSegments(AutoCells(doc[k]), LengthWidths(CellLines(doc, s, e + 1))))
  }

  /** The rewrite from the block bounds and the widths that the method computes. */
  lemma AutoLineFrom(doc: Doc, k: nat, s: nat, e: nat, widths: seq<nat>)
    requires k < |doc| && s == ObsidianTable.BlockStart(doc, k) && e == ObsidianTable.BlockEnd(doc, k)
    requires e < |doc| && widths == LengthWidths(CellLines(doc, s, e + 1))
    ensures AutoLine(doc, k) == AutoRow(AutoSegments(AutoCells(doc[k]), widths))
  {
  }

  /** The edit of `autoFormatTableLine`: none for a line without `|` or one already in shape. */
  function AutoFormat(doc: Doc, k: nat): Option<Edit>
    requires k < |doc|
  {
    if PIPE !in doc[k] then None
    else
      var line := AutoLine(doc, k);
      if line == doc[k] then None else Some(Edit(k, line))
  }

  /** `autoFormatTableLine` */
  method AutoFormatTableLine(doc: Doc, lineIndex: nat) returns (edit: Option<Edit>)
    requires lineIndex < |doc|
    ensures edit == AutoFormat(doc, lineIndex)
  {
    var text := doc[lineIndex];
    if PIPE !in text {
      return None;
    }
    var contentCells := AutoCells(text);
    var tableStartLine, tableEndLine := ObsidianTable.FindTableBlock(doc, lineIndex);
    var columnWidths := BlockLengths(doc, tableStartLine, tableEndLine);
    var formattedLine := AutoRow(AutoSegments(contentCells, columnWidths));
    AutoLineFrom(doc, lineIndex, tableStartLine, tableEndLine, columnWidths);
    if text != formattedLine {
      edit := Some(Edit(lineIndex, formattedLine));
    } else {
      edit := None;
    }
  }

  // ---------------------------------------------------------------------
  // What the rewrite promises
  // ---------------------------------------------------------------------

  /** A segment is the cell between two spaces, padded with spaces to the target or the cell's own length. */
  lemma PadSegment(cell: Str, t: nat)
    ensures var seg := [SPACE] + PadEnd(cell, t) + [SPACE];
      |seg| - 2 == Max(|cell|, t) && seg == [SPACE] + cell + Repeat(SPACE, Max(|cell|, t) - |cell|) + [SPACE]
  {
    if |cell| >= t {
      assert cell + Repeat(SPACE, 0) == cell;
    }
  }

  /**
   * Column `c` of the rewrite is the cell between two spaces, padded with
   * spaces to at least 3 units and at least the longest cell of its
   * column on any line of the block that is not all markers.
   */
  lemma AutoSegmentShape(lines: seq<seq<Str>>, cells: seq<Str>, c: nat)
    requires c < |cells|
    ensures var seg := AutoSegments(cells, LengthWidths(lines))[c];
      var n := |seg| - 2;
      3 <= n && |cells[c]| <= n &&
      (forall j :: 0 <= j < |lines| && !AllMarkers(lines[j]) && c < |lines[j]| ==> |lines[j][c]| <= n) &&
      seg == [SPACE] + cells[c] + Repeat(SPACE, n - |cells[c]|) + [SPACE]
  {
    LengthWidthsBound(lines, c);
    PadSegment(cells[c], AutoTarget(LengthWidths(lines), c));
  }

  /** Read back through the table parse, the rewrite gives the cells of the line, in order. */
  lemma AutoReadBack(doc: Doc, k: nat)
    requires k < |doc| && AutoCells(doc[k]) != []
    ensures LineCells(AutoLine(doc, k)) == AutoCells(doc[k])
  {
    var s, e := ObsidianTable.BlockStart(doc, k), ObsidianTable.BlockEnd(doc, k);
    var widths := LengthWidths(CellLines(doc, s, e + 1));
    AutoLineFrom(doc, k, s, e, widths);
    AutoCellsClean(doc[k]);
    AutoRowReadBack(AutoCells(doc[k]), widths);
  }

  /** Trimmed, pipe-free cells padded and framed read back as themselves. */
  lemma AutoRowReadBack(cells: seq<Str>, widths: seq<nat>)
    requires cells != [] && forall c :: 0 <= c < |cells| ==> IsTrimmed(cells[c]) && PIPE !in cells[c]
    ensures LineCells(AutoRow(AutoSegments(cells, widths))) == cells
  {
    var segs := AutoSegments(cells, widths);
    forall c | 0 <= c < |segs| ensures PIPE !in segs[c] && Trim(segs[c]) == cells[c] {
      PadEndTrim(cells[c], AutoTarget(widths, c));
    }
    FramedReadBack(segs, cells);
  }

  lemma PadEndTrim(cell: Str, n: nat)
    requires IsTrimmed(cell) && PIPE !in cell
    ensures var seg := [SPACE] + PadEnd(cell, n) + [SPACE];
      Trim(seg) == cell && PIPE !in seg
  {
    var pad := if |cell| >= n then [] else Repeat(SPACE, n - |cell|);
    assert PadEnd(cell, n) == cell + pad;
    assert [SPACE] + PadEnd(cell, n) + [SPACE] == [SPACE] + cell + (pad + [SPACE]);
    assert AllWhitespace(pad + [SPACE]);
    TrimAround([SPACE], cell, pad + [SPACE]);
  }

  /** The edit replaces line `k` with its rewrite exactly when the line has `|` and differs from it. */
  lemma AutoFormatEdit(doc: Doc, k: nat)
    requires k < |doc|
    ensures AutoFormat(doc, k).Some? <==> PIPE in doc[k] && AutoLine(doc, k) != doc[k]
    ensures AutoFormat(doc, k).Some? ==> AutoFormat(doc, k) == Some(Edit(k, AutoLine(doc, k)))
  {
  }
}
