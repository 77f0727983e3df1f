/**
 * The pipe-table formatter of src/extension-obsidian-backup.js.
 *
 * This edition differs from the other one: its block scan passes over
 * blank lines, it rewrites any block that holds a `|`, it always pads with
 * ideographic spaces, and its separator markers are two units wider than
 * the padded data. It also puts the cursor back into its cell after the
 * rewrite. Each loop of the source is a method proved equal to a
 * specification function; the properties are proved about the functions.
 */
module BackupTable {
  import opened Text
  import opened Selections
  import ObsidianTable

  function Min(a: int, b: int): int {
    if a <= b then a else b
  }

  // ---------------------------------------------------------------------
  // Display width and padding
  // ---------------------------------------------------------------------

  /** The full-width test of `getStringWidth`: U+3000 to U+9FFF, U+FF01 to U+FF60, U+FFE0 to U+FFE6. */
  predicate IsWide(u: Unit) {
    (0x3000 <= u <= 0x9FFF) || (0xFF01 <= u <= 0xFF60) || (0xFFE0 <= u <= 0xFFE6)
  }

  function UnitWidth(u: Unit): nat {
    if IsWide(u) then 2 else 1
  }

  /** The display width: 2 per full-width code unit, 1 per other one, 0 for the empty string. */
  function Width(s: Str): nat {
    if s == [] then 0 else Width(s[..|s| - 1]) + UnitWidth(s[|s| - 1])
  }

  lemma {:induction false} WidthBounds(s: Str)
    ensures |s| <= Width(s) <= 2 * |s|
    ensures Width(s) == 2 * |s| <==> forall i :: 0 <= i < |s| ==> IsWide(s[i])
    ensures Width(s) == |s| <==> forall i :: 0 <= i < |s| ==> !IsWide(s[i])
  {
    if s != [] {
      var p := s[..|s| - 1];
      WidthBounds(p);
      assert forall i :: 0 <= i < |p| ==> p[i] == s[i];
      if !IsWide(s[|s| - 1]) {
        assert !(forall i :: 0 <= i < |s| ==> IsWide(s[i]));
      } else {
        assert !(forall i :: 0 <= i < |s| ==> !IsWide(s[i]));
      }
    }
  }

  lemma {:induction false} WidthAppend(a: Str, b: Str)
    ensures Width(a + b) == Width(a) + Width(b)
  {
    if b != [] {
      WidthAppend(a, b[..|b| - 1]);
      assert (a + b)[..|a + b| - 1] == a + b[..|b| - 1];
    } else {
      assert a + b == a;
    }
  }

  /** `getStringWidth`: the loop over the code units. */
  method GetStringWidth(str: Str) returns (width: nat)
    ensures width == Width(str)
  {
    if str == [] { return 0; }
    width := 0;
    var i := 0;
    while i < |str|
      invariant 0 <= i <= |str|
      invariant width == Width(str[..i])
    {
      assert str[..i + 1][..i] == str[..i];
      var code := str[i];
      if (0x3000 <= code <= 0x9FFF) || (0xFF01 <= code <= 0xFF60) || (0xFFE0 <= code <= 0xFFE6) {
        width := width + 2;
      } else {
        width := width + 1;
      }
      i := i + 1;
    }
    assert str[..|str|] == str;
  }

  lemma {:induction false} RepeatWidth(u: Unit, n: nat)
    ensures Width(Repeat(u, n)) == if IsWide(u) then 2 * n else n
  {
    if n > 0 {
      RepeatWidth(u, n - 1);
      assert Repeat(u, n)[..n - 1] == Repeat(u, n - 1);
    }
  }

  /** `padString`: nothing when the target is reached; else `n / 2` ideographic spaces and a space when `n` is odd. */
  function Pad(str: Str, targetWidth: int): Str {
    PadBy(str, targetWidth - Width(str))
  }

  /** The string with `n` columns of padding, none when `n` is not positive. */
  function PadBy(str: Str, n: int): Str {
    if n <= 0 then str else str + (Repeat(IDEOGRAPHIC_SPACE, n / 2) + Repeat(SPACE, n % 2))
  }

  /**
   * The padded string starts with the string, adds only white space, and
   * is exactly as wide as the target when the string was narrower; a
   * string already as wide is returned unchanged.
   */
  lemma PadMeaning(str: Str, targetWidth: int)
    ensures targetWidth <= Width(str) ==> Pad(str, targetWidth) == str
    ensures Width(Pad(str, targetWidth)) == Max(targetWidth, Width(str))
    ensures StartsWith(Pad(str, targetWidth), str)
    ensures AllWhitespace(Pad(str, targetWidth)[|str|..]) && PIPE !in Pad(str, targetWidth)[|str|..]
  {
    if targetWidth > Width(str) {
      var n := targetWidth - Width(str);
      var pad := Repeat(IDEOGRAPHIC_SPACE, n / 2) + Repeat(SPACE, n % 2);
      PadAbove(str, targetWidth);
      ExtendedBy(str, pad);
    } else {
      ExtendedBy(str, []);
      assert str + [] == str;
    }
  }

  /** A string followed by more starts with the string, and what follows is the rest. */
  lemma ExtendedBy(str: Str, pad: Str)
    ensures StartsWith(str + pad, str) && (str + pad)[|str|..] == pad
  {
    assert (str + pad)[..|str|] == str;
  }

  lemma PadAbove(str: Str, targetWidth: int)
    requires targetWidth > Width(str)
    ensures var pad := Repeat(IDEOGRAPHIC_SPACE, (targetWidth - Width(str)) / 2) + Repeat(SPACE, (targetWidth - Width(str)) % 2);
      Pad(str, targetWidth) == str + pad && Width(str + pad) == targetWidth && AllWhitespace(pad) && PIPE !in pad
  {
    var n := targetWidth - Width(str);
    var full, half := n / 2, n % 2;
    PadWide(str, full, half);
    PadWhite(full, half);
    Halves(n);
    PadIs(str, targetWidth);
  }

  lemma Halves(n: nat)
    ensures 2 * (n / 2) + n % 2 == n
  {
  }

  lemma PadIs(str: Str, targetWidth: int)
    requires targetWidth > Width(str)
    ensures Pad(str, targetWidth) ==
      str + (Repeat(IDEOGRAPHIC_SPACE, (targetWidth - Width(str)) / 2) + Repeat(SPACE, (targetWidth - Width(str)) % 2))
  {
    PadByIs(str, targetWidth - Width(str));
  }

  lemma PadByIs(str: Str, n: int)
    requires n > 0
    ensures PadBy(str, n) == str + (Repeat(IDEOGRAPHIC_SPACE, n / 2) + Repeat(SPACE, n % 2))
  {
  }

  lemma PadWide(str: Str, full: nat, half: nat)
    ensures var pad := Repeat(IDEOGRAPHIC_SPACE, full) + Repeat(SPACE, half);
      Width(str + pad) == Width(str) + 2 * full + half
  {
    var a, b := Repeat(IDEOGRAPHIC_SPACE, full), Repeat(SPACE, half);
    RepeatWidth(IDEOGRAPHIC_SPACE, full);
    RepeatWidth(SPACE, half);
    WidthAppend(a, b);
    WidthAppend(str, a + b);
  }

  lemma PadWhite(full: nat, half: nat)
    ensures var pad := Repeat(IDEOGRAPHIC_SPACE, full) + Repeat(SPACE, half);
      AllWhitespace(pad) && PIPE !in pad
  {
    var pad := Repeat(IDEOGRAPHIC_SPACE, full) + Repeat(SPACE, half);
    assert forall i :: 0 <= i < |pad| ==> pad[i] == IDEOGRAPHIC_SPACE || pad[i] == SPACE;
  }

  /** `padString`: the while loop that grows the padding two columns at a time. */
  method PadString(str: Str, targetWidth: int) returns (r: Str)
    ensures r == Pad(str, targetWidth)
  {
    var currentWidth := GetStringWidth(str);
    var paddingNeeded := targetWidth - currentWidth;
    if paddingNeeded <= 0 { return str; }
    var padding: Str := [];
    var remainingWidth := paddingNeeded;
    while remainingWidth >= 2
      invariant 0 <= remainingWidth <= paddingNeeded && (paddingNeeded - remainingWidth) % 2 == 0
      invariant padding == Repeat(IDEOGRAPHIC_SPACE, (paddingNeeded - remainingWidth) / 2)
    {
      padding := padding + [IDEOGRAPHIC_SPACE];
      remainingWidth := remainingWidth - 2;
    }
    if remainingWidth == 1 {
      padding := padding + [SPACE];
    }
    assert padding == Repeat(IDEOGRAPHIC_SPACE, paddingNeeded / 2) + Repeat(SPACE, paddingNeeded % 2);
    r := str + padding;
  }

  // ---------------------------------------------------------------------
  // Block detection: the scans pass over blank lines
  // ---------------------------------------------------------------------

  /** `!lineText.trim()` */
  predicate Blank(s: Str) {
    Trim(s) == []
  }

  /** `lineText.trim().includes('|')` */
  predicate PipeLine(s: Str) {
    PIPE in Trim(s)
  }

  /** What the scans see in a line: blank, holding a `|`, or neither. */
  datatype LineKind = BlankLine | TableLine | OtherLine

  function KindOf(s: Str): LineKind {
    if PipeLine(s) then TableLine else if Blank(s) then BlankLine else OtherLine
  }

  function Kinds(doc: Doc): (ks: seq<LineKind>)
    ensures |ks| == |doc|
  {
    seq(|doc|, i requires 0 <= i < |doc| => KindOf(doc[i]))
  }

  predicate AllBlank(ks: seq<LineKind>, lo: nat, hi: nat)
    requires hi <= |ks|
  {
    forall l :: lo <= l < hi ==> ks[l] == BlankLine
  }

  /** The upward scan from line `i`, the block so far starting at line `start`. */
  function ScanUp(ks: seq<LineKind>, i: int, start: nat): (s: nat)
    requires -1 <= i < start <= |ks|
    ensures s <= start
    decreases i + 1
  {
    if i < 0 then start
    else
      match ks[i]
      case TableLine => ScanUp(ks, i - 1, i)
      case OtherLine => start
      case BlankLine => ScanUp(ks, i - 1, start)
  }

  /** The downward scan from line `i`, the block so far ending at line `end`. */
  function ScanDown(ks: seq<LineKind>, i: nat, end: nat): (e: nat)
    requires end < i <= |ks|
    ensures end <= e < |ks|
    decreases |ks| - i
  {
    if i == |ks| then end
    else
      match ks[i]
      case TableLine => ScanDown(ks, i + 1, i)
      case OtherLine => end
      case BlankLine => ScanDown(ks, i + 1, end)
  }

  function TableStart(doc: Doc, k: nat): nat
    requires k < |doc|
  {
    ScanUp(Kinds(doc), k as int - 1, k)
  }

  function TableEnd(doc: Doc, k: nat): nat
    requires k < |doc|
  {
    ScanDown(Kinds(doc), k + 1, k)
  }

  /** Scanning up from below a run of blank lines takes in no other line, and ends on a `|` line. */
  lemma {:induction false} ScanUpTakes(ks: seq<LineKind>, i: int, start: nat)
    requires -1 <= i < start <= |ks|
    requires AllBlank(ks, i + 1, start)
    ensures var s := ScanUp(ks, i, start);
      (forall j :: s <= j < start ==> ks[j] != OtherLine) && (s < start ==> ks[s] == TableLine)
    decreases i + 1
  {
    if i >= 0 && ks[i] == TableLine {
      ScanUpTakes(ks, i - 1, i);
    } else if i >= 0 && ks[i] == BlankLine {
      ScanUpTakes(ks, i - 1, start);
    }
  }

  /** No `|` line above the scanned block is reachable from it across blank lines. */
  lemma {:induction false} ScanUpStops(ks: seq<LineKind>, i: int, start: nat)
    requires -1 <= i < start <= |ks|
    requires AllBlank(ks, i + 1, start)
    ensures var s := ScanUp(ks, i, start);
      forall j :: 0 <= j < s && AllBlank(ks, j + 1, s) ==> ks[j] != TableLine
    decreases i + 1
  {
    if i >= 0 && ks[i] == TableLine {
      ScanUpStops(ks, i - 1, i);
    } else if i >= 0 && ks[i] == BlankLine {
      ScanUpStops(ks, i - 1, start);
    }
  }

  /** Scanning down from above a run of blank lines takes in no other line, and ends on a `|` line. */
  lemma {:induction false} ScanDownTakes(ks: seq<LineKind>, i: nat, end: nat)
    requires end < i <= |ks|
    requires AllBlank(ks, end + 1, i)
    ensures var e := ScanDown(ks, i, end);
      (forall j :: end < j <= e ==> ks[j] != OtherLine) && (end < e ==> ks[e] == TableLine)
    decreases |ks| - i
  {
    if i < |ks| && ks[i] == TableLine {
      ScanDownTakes(ks, i + 1, i);
    } else if i < |ks| && ks[i] == BlankLine {
      ScanDownTakes(ks, i + 1, end);
    }
  }

  /** No `|` line below the scanned block is reachable from it across blank lines. */
  lemma {:induction false} ScanDownStops(ks: seq<LineKind>, i: nat, end: nat)
    requires end < i <= |ks|
    requires AllBlank(ks, end + 1, i)
    ensures var e := ScanDown(ks, i, end);
      forall j :: e < j < |ks| && AllBlank(ks, e + 1, j) ==> ks[j] != TableLine
    decreases |ks| - i
  {
    if i < |ks| && ks[i] == TableLine {
      ScanDownStops(ks, i + 1, i);
    } else if i < |ks| && ks[i] == BlankLine {
      ScanDownStops(ks, i + 1, end);
    }
  }

  /**
   * The block around line `k`: it holds `k`; its other lines are blank or
   * hold a `|`; its first and last lines hold a `|` unless they are `k`; and
   * no `|` line outside it is reachable from it across blank lines.
   */
  lemma TableBlockShape(doc: Doc, k: nat)
    requires k < |doc|
    ensures var ks, s, e := Kinds(doc), TableStart(doc, k), TableEnd(doc, k);
      s <= k <= e < |doc| &&
      (forall j :: s <= j <= e && j != k ==> ks[j] != OtherLine) &&
      (s < k ==> ks[s] == TableLine) && (k < e ==> ks[e] == TableLine) &&
      (forall j :: 0 <= j < s && AllBlank(ks, j + 1, s) ==> ks[j] != TableLine) &&
      (forall j :: e < j < |doc| && AllBlank(ks, e + 1, j) ==> ks[j] != TableLine)
  {
    BlockAbove(doc, k);
    BlockBelow(doc, k);
  }

  /** The part of the block above line `k`. */
  lemma BlockAbove(doc: Doc, k: nat)
    requires k < |doc|
    ensures var ks, s := Kinds(doc), TableStart(doc, k);
      s <= k &&
      (forall j :: s <= j < k ==> ks[j] != OtherLine) && (s < k ==> ks[s] == TableLine) &&
      (forall j :: 0 <= j < s && AllBlank(ks, j + 1, s) ==> ks[j] != TableLine)
  {
    var ks := Kinds(doc);
    ScanUpTakes(ks, k as int - 1, k);
    ScanUpStops(ks, k as int - 1, k);
  }

  /** The part of the block below line `k`. */
  lemma BlockBelow(doc: Doc, k: nat)
    requires k < |doc|
    ensures var ks, e := Kinds(doc), TableEnd(doc, k);
      k <= e < |doc| &&
      (forall j :: k < j <= e ==> ks[j] != OtherLine) && (k < e ==> ks[e] == TableLine) &&
      (forall j :: e < j < |doc| && AllBlank(ks, e + 1, j) ==> ks[j] != TableLine)
  {
    var ks := Kinds(doc);
    ScanDownTakes(ks, k + 1, k);
    ScanDownStops(ks, k + 1, k);
  }

  /** The two scan loops of `formatTableAtLine`. */
  method FindTableBlock(doc: Doc, lineIndex: nat) returns (tableStartLine: nat, tableEndLine: nat)
    requires lineIndex < |doc|
    ensures tableStartLine == TableStart(doc, lineIndex) && tableEndLine == TableEnd(doc, lineIndex)
  {
    ghost var ks := Kinds(doc);
    tableStartLine := lineIndex;
    var i := lineIndex as int - 1;
    while i >= 0
      invariant -1 <= i < tableStartLine <= lineIndex
      invariant TableStart(doc, lineIndex) == ScanUp(ks, i, tableStartLine)
    {
      var lineText := Trim(doc[i]);
      assert ks[i] == KindOf(doc[i]);
      if PIPE in lineText {
        tableStartLine := i;
      } else if |lineText| > 0 {
        break;
      }
      i := i - 1;
    }
    tableEndLine := lineIndex;
    var k := lineIndex + 1;
    while k < |doc|
      invariant tableEndLine < k <= |doc|
      invariant TableEnd(doc, lineIndex) == ScanDown(ks, k, tableEndLine)
    {
      var lineText := Trim(doc[k]);
      assert ks[k] == KindOf(doc[k]);
      if PIPE in lineText {
        tableEndLine := k;
      } else if |lineText| > 0 {
        break;
      }
      k := k + 1;
    }
  }

  // ---------------------------------------------------------------------
  // Rows
  // ---------------------------------------------------------------------

  /** An entry of `tableLines`. */
  datatype Row = Row(line: nat, cells: seq<Str>, isSep: bool)

  /** Drop a blank first piece, then the last piece when the last of all the pieces is blank. */
  function ContentCells(cells: seq<Str>): (r: seq<Str>)
    requires |cells| >= 1
  {
    var afterFirst := if cells[0] == [] then cells[1..] else cells;
    if cells[|cells| - 1] == [] && |afterFirst| > 0 then afterFirst[..|afterFirst| - 1] else afterFirst
  }

  /** The trimmed pieces between the pipes, without the blank end pieces. */
  function LineCells(s: Str): seq<Str> {
    ContentCells(ObsidianTable.TrimAll(Split(s, PIPE)))
  }

  /** `contentCells.every(cell => cell.match(/^:?-+:?$/))` */
  predicate AllMarkers(cells: seq<Str>) {
    forall i :: 0 <= i < |cells| ==> ObsidianTable.IsMarker(cells[i])
  }

  /** The row a line of the block pushes: none for a blank line or a line without cells. */
  function RowAt(doc: Doc, i: nat): (r: Option<Row>)
    requires i < |doc|
    ensures r.Some? ==> r.value.line == i && r.value.cells != []
  {
    if Blank(doc[i]) then None
    else
      var cells := LineCells(doc[i]);
      if cells == [] then None else Some(Row(i, cells, AllMarkers(cells)))
  }

  function RowsOf(r: Option<Row>): seq<Row> {
    match r
    case Some(row) => [row]
    case None => []
  }

  /** The rows the parse loop pushes for lines `[lo, hi)`. */
  function ParseRows(doc: Doc, lo: nat, hi: nat): (rows: seq<Row>)
    requires lo <= hi <= |doc|
    ensures forall i :: 0 <= i < |rows| ==> lo <= rows[i].line < hi
    decreases hi - lo
  {
    if hi == lo then [] else ParseRows(doc, lo, hi - 1) + RowsOf(RowAt(doc, hi - 1))
  }

  /** Every cell the parse keeps is trimmed and holds no `|`. */
  lemma LineCellsTrimmed(s: Str)
    ensures forall c :: 0 <= c < |LineCells(s)| ==> IsTrimmed(LineCells(s)[c]) && PIPE !in LineCells(s)[c]
  {
    var pieces := Split(s, PIPE);
    var trimmed := ObsidianTable.TrimAll(pieces);
    forall i | 0 <= i < |trimmed| ensures IsTrimmed(trimmed[i]) && PIPE !in trimmed[i] {
      TrimParts(pieces[i]);
      TrimWithout(pieces[i], PIPE);
    }
    var cells := LineCells(s);
    var afterFirst := if trimmed[0] == [] then trimmed[1..] else trimmed;
    forall c | 0 <= c < |cells| ensures IsTrimmed(cells[c]) && PIPE !in cells[c] {
      assert cells[c] == afterFirst[c];
      assert trimmed[0] == [] ==> afterFirst[c] == trimmed[c + 1];
    }
  }

  /** `maxColumns` */
  function MaxCols(rows: seq<Row>): nat {
    if rows == [] then 0 else Max(MaxCols(rows[..|rows| - 1]), |rows[|rows| - 1].cells|)
  }

  lemma {:induction false} MaxColsBound(rows: seq<Row>, i: nat)
    requires i < |rows|
    ensures |rows[i].cells| <= MaxCols(rows)
  {
    var p := rows[..|rows| - 1];
    if i < |p| {
      assert rows[i] == p[i];
      MaxColsBound(p, i);
    }
  }

  // ---------------------------------------------------------------------
  // Column widths
  // ---------------------------------------------------------------------

  /**
   * `columnWidths` is a JavaScript array that starts empty and is written
   * at consecutive indices; it is modelled as a sequence, and a missing
   * entry reads as 0 (`!columnWidths[c]` holds for both).
   */
  function WidthAt(widths: seq<nat>, c: nat): nat {
    if c < |widths| then widths[c] else 0
  }

  /** One column of a data row: an unset or narrower column becomes `max(cellWidth, 3)`. */
  function RaiseCell(w: nat, cellWidth: nat): nat {
    if w == 0 || cellWidth > w then Max(cellWidth, 3) else w
  }

  /** `columnWidths` after the `forEach` over a data row whose cells measure `sizes`. */
  function Raise(widths: seq<nat>, sizes: seq<nat>): (r: seq<nat>)
    ensures |r| == Max(|widths|, |sizes|)
  {
    seq(Max(|widths|, |sizes|), c requires 0 <= c < Max(|widths|, |sizes|) =>
      if c < |sizes| then RaiseCell(WidthAt(widths, c), sizes[c]) else widths[c])
  }

  /** The display widths of a row's cells. */
  function Sizes(cells: seq<Str>): (r: seq<nat>)
    ensures |r| == |cells|
  {
    seq(|cells|, c requires 0 <= c < |cells| => Width(cells[c]))
  }

  /** `columnWidths` after the parse loop: raised by every data row in order. */
  function RawWidths(rows: seq<Row>): seq<nat> {
    if rows == [] then []
    else
      var p := RawWidths(rows[..|rows| - 1]);
      var last := rows[|rows| - 1];
      if last.isSep then p else Raise(p, Sizes(last.cells))
  }

  /** The fill loop: every unset column below `n` becomes 3. */
  function Filled(widths: seq<nat>, n: nat): (r: seq<nat>)
    ensures |r| == Max(|widths|, n)
  {
    seq(Max(|widths|, n), c requires 0 <= c < Max(|widths|, n) => if WidthAt(widths, c) == 0 then 3 else widths[c])
  }

  function ColumnWidths(rows: seq<Row>): seq<nat> {
    Filled(RawWidths(rows), MaxCols(rows))
  }

  /** The reference definition of a column's width: 3, widened to every data cell of the column. */
  function ColumnMax(rows: seq<Row>, c: nat): (w: nat)
    ensures w >= 3
  {
    if rows == [] then 3
    else
      var w := ColumnMax(rows[..|rows| - 1], c);
      var last := rows[|rows| - 1];
      if last.isSep || c >= |last.cells| then w else Max(w, Width(last.cells[c]))
  }

  /** Some data row has a cell in column `c`. */
  predicate HasDataCell(rows: seq<Row>, c: nat) {
    exists i :: 0 <= i < |rows| && !rows[i].isSep && c < |rows[i].cells|
  }

  /**
   * The raw array has an entry exactly for the columns some data row
   * reaches, and that entry is the reference width.
   */
  lemma {:induction false} RawWidthsAgree(rows: seq<Row>, c: nat)
    ensures c < |RawWidths(rows)| <==> HasDataCell(rows, c)
    ensures c < |RawWidths(rows)| ==> RawWidths(rows)[c] == ColumnMax(rows, c)
    ensures c >= |RawWidths(rows)| ==> ColumnMax(rows, c) == 3
  {
    if rows != [] {
      var p := rows[..|rows| - 1];
      var last := rows[|rows| - 1];
      RawWidthsAgree(p, c);
      if HasDataCell(p, c) {
        var i :| 0 <= i < |p| && !p[i].isSep && c < |p[i].cells|;
        assert rows[i] == p[i];
      }
      if HasDataCell(rows, c) && !(!last.isSep && c < |last.cells|) {
        var i :| 0 <= i < |rows| && !rows[i].isSep && c < |rows[i].cells|;
        assert i < |p| && p[i] == rows[i];
      }
    }
  }

  /**
   * After the fill there is a width for each of the `maxColumns` columns,
   * and it is the reference width: at least 3 and at least every data
   * cell of the column.
   */
  lemma ColumnWidthsAgree(rows: seq<Row>)
    ensures |ColumnWidths(rows)| == MaxCols(rows)
    ensures forall c :: 0 <= c < |ColumnWidths(rows)| ==> ColumnWidths(rows)[c] == ColumnMax(rows, c)
  {
    var raw := RawWidths(rows);
    if |raw| > 0 {
      RawWidthsAgree(rows, |raw| - 1);
      var i :| 0 <= i < |rows| && !rows[i].isSep && |raw| - 1 < |rows[i].cells|;
      MaxColsBound(rows, i);
    }
    forall c | 0 <= c < |ColumnWidths(rows)| ensures ColumnWidths(rows)[c] == ColumnMax(rows, c) {
      RawWidthsAgree(rows, c);
    }
  }

  /** No data cell is wider than the reference width of its column. */
  lemma {:induction false} ColumnMaxBound(rows: seq<Row>, c: nat, i: nat)
    requires i < |rows| && !rows[i].isSep && c < |rows[i].cells|
    ensures Width(rows[i].cells[c]) <= ColumnMax(rows, c)
  {
    var p := rows[..|rows| - 1];
    if i < |p| {
      assert rows[i] == p[i];
      ColumnMaxBound(p, c, i);
    }
  }

  /** A column wider than 3 is exactly as wide as one of its data cells. */
  lemma {:induction false} ColumnMaxAttained(rows: seq<Row>, c: nat)
    ensures ColumnMax(rows, c) == 3 ||
      exists i :: 0 <= i < |rows| && !rows[i].isSep && c < |rows[i].cells| && ColumnMax(rows, c) == Width(rows[i].cells[c])
  {
    if rows != [] {
      var p := rows[..|rows| - 1];
      ColumnMaxAttained(p, c);
      var w := ColumnMax(rows, c);
      if w != 3 && w == ColumnMax(p, c) {
        var i :| 0 <= i < |p| && !p[i].isSep && c < |p[i].cells| && w == Width(p[i].cells[c]);
        assert rows[i] == p[i];
      }
    }
  }

  lemma MaxColsSnoc(rows: seq<Row>, r: Row)
    ensures MaxCols(rows + [r]) == Max(MaxCols(rows), |r.cells|)
  {
    assert (rows + [r])[..|rows|] == rows;
  }

  lemma RawWidthsSnoc(rows: seq<Row>, r: Row)
    ensures RawWidths(rows + [r]) == if r.isSep then RawWidths(rows) else Raise(RawWidths(rows), Sizes(r.cells))
  {
    assert (rows + [r])[..|rows|] == rows;
  }

  // ---------------------------------------------------------------------
  // The parse loop and the width loops, as the source runs them
  // ---------------------------------------------------------------------

  /** The state of the parse loop after lines `[start, i)`. */
  predicate Parsed(doc: Doc, start: nat, i: nat, rows: seq<Row>, maxColumns: nat, columnWidths: seq<nat>)
    requires start <= i <= |doc|
  {
    rows == ParseRows(doc, start, i) && maxColumns == MaxCols(rows) && columnWidths == RawWidths(rows)
  }

  /** The loop over the block: it pushes the rows, tracks `maxColumns` and raises `columnWidths` as it goes. */
  method ParseBlock(doc: Doc, start: nat, end: nat) returns (rows: seq<Row>, maxColumns: nat, columnWidths: seq<nat>)
    requires start <= end < |doc|
    ensures Parsed(doc, start, end + 1, rows, maxColumns, columnWidths)
  {
    rows, maxColumns, columnWidths := [], 0, [];
    var i := start;
    while i <= end
      invariant start <= i <= end + 1
      invariant Parsed(doc, start, i, rows, maxColumns, columnWidths)
    {
      rows, maxColumns, columnWidths := ParseLine(doc, start, i, rows, maxColumns, columnWidths);
      i := i + 1;
    }
  }

  /** The cells of one line: split at `|`, trimmed, the empty first and last pieces dropped. */
  method ContentCellsOf(lineText: Str) returns (contentCells: seq<Str>)
    ensures contentCells == LineCells(lineText)
  {
    var cells := ObsidianTable.TrimAll(Split(lineText, PIPE));
    contentCells := cells;
    if cells[0] == [] {
      contentCells := contentCells[1..];
    }
    if cells[|cells| - 1] == [] {
      contentCells := if |contentCells| > 0 then contentCells[..|contentCells| - 1] else [];
    }
  }

  /** One line of the loop: a blank line is skipped; a line with cells pushes a row and, unless it is a separator row, raises the widths. */
  method ParseLine(doc: Doc, start: nat, i: nat, rows: seq<Row>, maxColumns: nat, columnWidths: seq<nat>)
    returns (rows': seq<Row>, maxColumns': nat, columnWidths': seq<nat>)
    requires start <= i < |doc|
    requires Parsed(doc, start, i, rows, maxColumns, columnWidths)
    ensures Parsed(doc, start, i + 1, rows', maxColumns', columnWidths')
  {
    assert ParseRows(doc, start, i + 1) == rows + RowsOf(RowAt(doc, i));
    rows', maxColumns', columnWidths' := rows, maxColumns, columnWidths;
    var lineText := doc[i];
    if Trim(lineText) == [] {
      assert rows + [] == rows;
      return;
    }
    var contentCells := ContentCellsOf(lineText);
    if |contentCells| > 0 {
      maxColumns' := Max(maxColumns, |contentCells|);
      var row := Row(i, contentCells, AllMarkers(contentCells));
      MaxColsSnoc(rows, row);
      RawWidthsSnoc(rows, row);
      rows' := rows + [row];
      if !row.isSep {
        columnWidths' := RaiseWidths(columnWidths, contentCells);
      }
    } else {
      assert rows + [] == rows;
    }
  }

  /** The `forEach` over a data row's cells: an unset or narrower column becomes `max(cellWidth, 3)`. */
  method RaiseWidths(columnWidths: seq<nat>, cells: seq<Str>) returns (r: seq<nat>)
    ensures r == Raise(columnWidths, Sizes(cells))
  {
    r := columnWidths;
    var colIndex := 0;
    while colIndex < |cells|
      invariant 0 <= colIndex <= |cells|
      invariant |r| == Max(|columnWidths|, colIndex)
      invariant forall d :: 0 <= d < |r| ==>
        r[d] == if d < colIndex then RaiseCell(WidthAt(columnWidths, d), Width(cells[d])) else columnWidths[d]
    {
      var cellWidth := GetStringWidth(cells[colIndex]);
      if colIndex >= |r| || r[colIndex] == 0 || cellWidth > r[colIndex] {
        var w := Max(cellWidth, 3);
        if colIndex < |r| {
          r := r[colIndex := w];
        } else {
          r := r + [w];
        }
      }
      colIndex := colIndex + 1;
    }
  }

  /** The loop that sets every unset column below `maxColumns` to 3. */
  method FillWidths(columnWidths: seq<nat>, maxColumns: nat) returns (r: seq<nat>)
    requires |columnWidths| <= maxColumns
    ensures r == Filled(columnWidths, maxColumns)
  {
    r := columnWidths;
    var i := 0;
    while i < maxColumns
      invariant 0 <= i <= maxColumns
      invariant |r| == Max(|columnWidths|, i)
      invariant forall d :: 0 <= d < |r| ==>
        r[d] == if d < i && WidthAt(columnWidths, d) == 0 then 3 else WidthAt(columnWidths, d)
    {
      if i >= |r| {
        r := r + [3];
      } else if r[i] == 0 {
        r := r[i := 3];
      }
      i := i + 1;
    }
  }

  // ---------------------------------------------------------------------
  // Rendering
  // ---------------------------------------------------------------------

  predicate StartsColon(cell: Str) {
    |cell| > 0 && cell[0] == COLON
  }

  predicate EndsColon(cell: Str) {
    |cell| > 0 && cell[|cell| - 1] == COLON
  }

  /** The separator cell for a column of width `w`, by alignment. */
  function SepMarker(cell: Str, w: nat): Str {
    if StartsColon(cell) && EndsColon(cell) then [COLON] + Repeat(DASH, Max(w, 1)) + [COLON]
    else if StartsColon(cell) then [COLON] + Repeat(DASH, Max(w + 1, 2))
    else if EndsColon(cell) then Repeat(DASH, Max(w + 1, 2)) + [COLON]
    else Repeat(DASH, Max(w + 2, 3))
  }

  /** `cells[c] || fallback`: a missing or empty cell reads as the fallback. */
  function CellOr(cells: seq<Str>, c: nat, fallback: Str): Str {
    if c < |cells| && cells[c] != [] then cells[c] else fallback
  }

  const PLAIN_MARKER: Str := [DASH, DASH, DASH]

  /** What stands between the two spaces of column `c`. */
  function SegmentText(r: Row, c: nat, w: nat): Str {
    if r.isSep then SepMarker(CellOr(r.cells, c, PLAIN_MARKER), w) else Pad(CellOr(r.cells, c, []), w)
  }

  function Segments(r: Row, widths: seq<nat>): (segs: seq<Str>)
    ensures |segs| == |widths|
  {
    seq(|widths|, c requires 0 <= c < |widths| => [SPACE] + SegmentText(r, c, widths[c]) + [SPACE])
  }

  /** `formattedLine`: `|`, then ` text |` for each of the columns. */
  function RenderRow(r: Row, widths: seq<nat>): Str {
    Framed(Segments(r, widths))
  }

  function Rendered(rows: seq<Row>, widths: seq<nat>): (reps: seq<Edit>)
    ensures |reps| == |rows|
    ensures forall i :: 0 <= i < |rows| ==> reps[i].line == rows[i].line
  {
    seq(|rows|, i requires 0 <= i < |rows| => Edit(rows[i].line, RenderRow(rows[i], widths)))
  }

  /** The replacements for the block `[start, end]`: every row re-rendered, kept when its line changes. */
  function FormatBlock(doc: Doc, start: nat, end: nat): seq<Edit>
    requires start <= end < |doc|
  {
    var rows := ParseRows(doc, start, end + 1);
    Changed(doc, Rendered(rows, ColumnWidths(rows)))
  }

  /** The replacements of `formatTableAtLine`: none for a line without `|` or while composing. */
  function FormatTable(doc: Doc, lineIndex: nat, composing: bool): seq<Edit>
    requires lineIndex < |doc|
  {
    if PIPE !in doc[lineIndex] || composing then []
    else FormatBlock(doc, TableStart(doc, lineIndex), TableEnd(doc, lineIndex))
  }

  // ---------------------------------------------------------------------
  // What a rendered row holds
  // ---------------------------------------------------------------------

  function Colons(cell: Str): nat {
    (if StartsColon(cell) then 1 else 0) + (if EndsColon(cell) then 1 else 0)
  }

  /** A marker is made of colons and dashes only: it is narrow, trimmed and holds no `|`. */
  lemma MarkerUnits(m: Str)
    requires ObsidianTable.IsMarker(m)
    ensures forall i :: 0 <= i < |m| ==> m[i] == COLON || m[i] == DASH
    ensures Width(m) == |m| && IsTrimmed(m) && PIPE !in m
  {
    assert forall i :: 0 <= i < |m| ==> m[i] == COLON || m[i] == DASH;
    WidthBounds(m);
  }

  /**
   * The separator cell keeps the alignment colons of the cell it replaces
   * and fills the rest of `max(w + 2, 3)` units with dashes; it is a marker
   * again, and rendering it a second time changes nothing.
   */
  lemma SepMarkerShape(cell: Str, w: nat)
    ensures var m := SepMarker(cell, w);
      m == ObsidianTable.MarkerOf(StartsColon(cell), EndsColon(cell), Max(w + 2, 3) - Colons(cell)) &&
      |m| == Width(m) == Max(w + 2, 3) && ObsidianTable.IsMarker(m) &&
      StartsColon(m) == StartsColon(cell) && EndsColon(m) == EndsColon(cell) &&
      SepMarker(m, w) == m
  {
    var l, r := StartsColon(cell), EndsColon(cell);
    var k := Max(w + 2, 3) - Colons(cell);
    var m := SepMarker(cell, w);
    SepMarkerOf(cell, w);
    ObsidianTable.MarkerOfIsMarker(l, r, k);
    MarkerUnits(m);
    MarkerColons(l, r, k);
    SepMarkerByColons(m, cell, w);
  }

  /** The separator cell is the marker with the cell's colons and `max(w + 2, 3)` units. */
  lemma SepMarkerOf(cell: Str, w: nat)
    ensures var m := SepMarker(cell, w);
      m == ObsidianTable.MarkerOf(StartsColon(cell), EndsColon(cell), Max(w + 2, 3) - Colons(cell)) &&
      |m| == Max(w + 2, 3)
  {
  }

  /** A marker starts (ends) with a colon exactly when it was built with one. */
  lemma MarkerColons(l: bool, r: bool, k: nat)
    requires k >= 1
    ensures var m := ObsidianTable.MarkerOf(l, r, k);
      StartsColon(m) == l && EndsColon(m) == r
  {
    var m := ObsidianTable.MarkerOf(l, r, k);
    assert m[0] == if l then COLON else DASH;
    assert m[|m| - 1] == if r then COLON else DASH;
  }

  /** The separator cell depends on the cell only through its colons. */
  lemma SepMarkerByColons(a: Str, b: Str, w: nat)
    requires StartsColon(a) == StartsColon(b) && EndsColon(a) == EndsColon(b)
    ensures SepMarker(a, w) == SepMarker(b, w)
  {
  }

  /** What column `c` of a rendered row reads back as once trimmed. */
  function Shown(r: Row, c: nat, w: nat): Str {
    if r.isSep then SepMarker(CellOr(r.cells, c, PLAIN_MARKER), w) else CellOr(r.cells, c, [])
  }

  /** What a rendered row reads back as, column by column. */
  function ShownRow(r: Row, widths: seq<nat>): (shown: seq<Str>)
    ensures |shown| == |widths|
  {
    seq(|widths|, c requires 0 <= c < |widths| => Shown(r, c, widths[c]))
  }

  /** The cells of a row hold no `|` and no white space at either end, as the parse leaves them. */
  predicate CleanCells(r: Row) {
    forall d :: 0 <= d < |r.cells| ==> IsTrimmed(r.cells[d]) && PIPE !in r.cells[d]
  }

  lemma SegmentTrim(r: Row, c: nat, w: nat)
    requires CleanCells(r)
    ensures var seg := [SPACE] + SegmentText(r, c, w) + [SPACE];
      Trim(seg) == Shown(r, c, w) && PIPE !in seg
  {
    if r.isSep {
      MarkerSegmentTrim(CellOr(r.cells, c, PLAIN_MARKER), w);
    } else {
      DataSegmentTrim(CellOr(r.cells, c, []), w);
    }
  }

  lemma MarkerSegmentTrim(cell: Str, w: nat)
    ensures var seg := [SPACE] + SepMarker(cell, w) + [SPACE];
      Trim(seg) == SepMarker(cell, w) && PIPE !in seg
  {
    var m := SepMarker(cell, w);
    SepMarkerShape(cell, w);
    MarkerUnits(m);
    TrimAround([SPACE], m, [SPACE]);
  }

  lemma DataSegmentTrim(cell: Str, w: nat)
    requires IsTrimmed(cell) && PIPE !in cell
    ensures var seg := [SPACE] + Pad(cell, w) + [SPACE];
      Trim(seg) == cell && PIPE !in seg
  {
    var text := Pad(cell, w);
    PadMeaning(cell, w);
    var rest := text[|cell|..];
    assert text == cell + rest;
    SpacedTrim(cell, rest);
  }

  /** A trimmed cell followed by white space, between two spaces, trims back to the cell. */
  lemma SpacedTrim(cell: Str, rest: Str)
    requires IsTrimmed(cell) && PIPE !in cell && AllWhitespace(rest) && PIPE !in rest
    ensures var seg := [SPACE] + (cell + rest) + [SPACE];
      Trim(seg) == cell && PIPE !in seg
  {
    assert [SPACE] + (cell + rest) + [SPACE] == [SPACE] + cell + (rest + [SPACE]);
    TrimAround([SPACE], cell, rest + [SPACE]);
  }

  /**
   * A rendered row reads back, through the same split and trim, as one
   * cell per width: the data cell (an empty one for a missing cell), or
   * the separator cell with the alignment colons of the original.
   */
  lemma RenderReadBack(r: Row, widths: seq<nat>)
    requires CleanCells(r)
    ensures LineCells(RenderRow(r, widths)) == ShownRow(r, widths)
  {
    var segs := Segments(r, widths);
    var shown := ShownRow(r, widths);
    forall c | 0 <= c < |segs| ensures PIPE !in segs[c] && Trim(segs[c]) == shown[c] {
      SegmentTrim(r, c, widths[c]);
    }
    FramedReadBack(segs, shown);
  }

  /** A framed row of `|`-free segments reads back as its trimmed segments. */
  lemma FramedReadBack(segs: seq<Str>, shown: seq<Str>)
    requires |segs| == |shown|
    requires forall c :: 0 <= c < |segs| ==> PIPE !in segs[c] && Trim(segs[c]) == shown[c]
    ensures LineCells(Framed(segs)) == shown
  {
    SplitFramed(segs);
    var pieces: seq<Str> := [[]] + segs + [[]];
    var trimmed := ObsidianTable.TrimAll(pieces);
    assert Trim([]) == [];
    assert trimmed == [[]] + shown + [[]] by {
      forall i | 0 <= i < |pieces| ensures trimmed[i] == ([[]] + shown + [[]])[i] {
        if 0 < i <= |segs| { assert pieces[i] == segs[i - 1]; }
      }
    }
    assert (shown + [[]])[..|shown|] == shown;
  }

  /** The parse leaves every cell trimmed and free of `|`. */
  lemma {:induction false} ParseRowsClean(doc: Doc, lo: nat, hi: nat)
    requires lo <= hi <= |doc|
    ensures forall i :: 0 <= i < |ParseRows(doc, lo, hi)| ==> CleanCells(ParseRows(doc, lo, hi)[i])
    decreases hi - lo
  {
    if hi > lo {
      ParseRowsClean(doc, lo, hi - 1);
      var added := RowsOf(RowAt(doc, hi - 1));
      RowAtClean(doc, hi - 1);
      CleanAppend(ParseRows(doc, lo, hi - 1), added);
    }
  }

  lemma RowAtClean(doc: Doc, i: nat)
    requires i < |doc|
    ensures forall j :: 0 <= j < |RowsOf(RowAt(doc, i))| ==> CleanCells(RowsOf(RowAt(doc, i))[j])
  {
    LineCellsTrimmed(doc[i]);
  }

  lemma CleanAppend(a: seq<Row>, b: seq<Row>)
    requires forall j :: 0 <= j < |a| ==> CleanCells(a[j])
    requires forall j :: 0 <= j < |b| ==> CleanCells(b[j])
    ensures forall j :: 0 <= j < |a + b| ==> CleanCells((a + b)[j])
  {
  }

  /** A separator row reads back as a separator row: every cell it shows is a marker. */
  lemma SeparatorReadBack(r: Row, widths: seq<nat>)
    requires CleanCells(r) && r.isSep
    ensures AllMarkers(LineCells(RenderRow(r, widths)))
  {
    RenderReadBack(r, widths);
    forall c | 0 <= c < |widths| ensures ObsidianTable.IsMarker(Shown(r, c, widths[c])) {
      SepMarkerShape(CellOr(r.cells, c, PLAIN_MARKER), widths[c]);
    }
  }

  // ---------------------------------------------------------------------
  // Alignment
  // ---------------------------------------------------------------------

  function Total(widths: seq<nat>): nat {
    if widths == [] then 0 else Total(widths[..|widths| - 1]) + widths[|widths| - 1]
  }

  /** The widths are wide enough for the row: each width is at least 1 and, on a data row, each cell fits. */
  predicate Fits(r: Row, widths: seq<nat>) {
    (forall c :: 0 <= c < |widths| ==> 1 <= widths[c]) &&
    (!r.isSep ==> forall c :: 0 <= c < |widths| && c < |r.cells| ==> Width(r.cells[c]) <= widths[c])
  }

  /** Column `c` takes its width and two spaces on a data row, its width and four units on a separator row. */
  lemma SegmentWidth(r: Row, widths: seq<nat>, c: nat)
    requires Fits(r, widths) && c < |widths|
    ensures Width(Segments(r, widths)[c]) == widths[c] + if r.isSep then 4 else 2
  {
    var text := SegmentText(r, c, widths[c]);
    if r.isSep {
      SepMarkerShape(CellOr(r.cells, c, PLAIN_MARKER), widths[c]);
    } else {
      PadMeaning(CellOr(r.cells, c, []), widths[c]);
    }
    WidthAppend([SPACE], text);
    WidthAppend([SPACE] + text, [SPACE]);
  }

  /** `n` times `k`, by repeated addition. */
  function Times(n: nat, k: nat): nat {
    if n == 0 then 0 else Times(n - 1, k) + k
  }

  lemma {:induction false} TimesProduct(n: nat, k: nat)
    ensures Times(n, k) == n * k
  {
    if n > 0 {
      TimesProduct(n - 1, k);
    }
  }

  /** A framed row whose segments are `extra` units wider than their columns. */
  lemma {:induction false} FramedWidth(segs: seq<Str>, widths: seq<nat>, extra: nat, n: nat)
    requires |segs| == |widths| && n <= |segs|
    requires forall c :: 0 <= c < |segs| ==> Width(segs[c]) == widths[c] + extra
    ensures Width(Framed(segs[..n])) == 1 + Total(widths[..n]) + Times(n, extra + 1)
  {
    if n == 0 {
      FramedEmpty();
      assert segs[..0] == [];
    } else {
      FramedWidth(segs, widths, extra, n - 1);
      FramedPrefix(segs, n - 1);
      var a := Framed(segs[..n - 1]);
      WidthAppend(a, segs[n - 1]);
      WidthAppend(a + segs[n - 1], [PIPE]);
      assert Width([PIPE]) == 1;
      assert widths[..n][..n - 1] == widths[..n - 1];
    }
  }

  /** The whole framed row: its width is the widths' total plus `extra + 1` units a column and the first `|`. */
  lemma FramedWidthAll(segs: seq<Str>, widths: seq<nat>, extra: nat)
    requires |segs| == |widths|
    requires forall c :: 0 <= c < |segs| ==> Width(segs[c]) == widths[c] + extra
    ensures Width(Framed(segs)) == 1 + Total(widths) + |widths| * (extra + 1)
  {
    FramedWidth(segs, widths, extra, |widths|);
    TimesProduct(|widths|, extra + 1);
    assert segs[..|widths|] == segs;
    assert widths[..|widths|] == widths;
  }

  /**
   * Every data row of a table comes out equally wide, and so does every
   * separator row; a separator column is two units wider than the data
   * column above it.
   */
  lemma RenderedWidth(r: Row, widths: seq<nat>)
    requires Fits(r, widths)
    ensures Width(RenderRow(r, widths)) == 1 + Total(widths) + |widths| * if r.isSep then 5 else 3
  {
    if r.isSep {
      SeparatorRowWidth(r, widths);
    } else {
      DataRowWidth(r, widths);
    }
  }

  lemma SeparatorRowWidth(r: Row, widths: seq<nat>)
    requires Fits(r, widths) && r.isSep
    ensures Width(RenderRow(r, widths)) == 1 + Total(widths) + |widths| * 5
  {
    var segs := Segments(r, widths);
    forall c | 0 <= c < |segs| ensures Width(segs[c]) == widths[c] + 4 {
      SegmentWidth(r, widths, c);
    }
    FramedWidthAll(segs, widths, 4);
  }

  lemma DataRowWidth(r: Row, widths: seq<nat>)
    requires Fits(r, widths) && !r.isSep
    ensures Width(RenderRow(r, widths)) == 1 + Total(widths) + |widths| * 3
  {
    var segs := Segments(r, widths);
    forall c | 0 <= c < |segs| ensures Width(segs[c]) == widths[c] + 2 {
      SegmentWidth(r, widths, c);
    }
    FramedWidthAll(segs, widths, 2);
  }

  /** The filled widths fit every row of the block. */
  lemma ColumnWidthsFit(rows: seq<Row>, i: nat)
    requires i < |rows| && !rows[i].isSep
    ensures Fits(rows[i], ColumnWidths(rows))
  {
    ColumnWidthsAgree(rows);
    forall c | 0 <= c < |ColumnWidths(rows)| && c < |rows[i].cells|
      ensures Width(rows[i].cells[c]) <= ColumnWidths(rows)[c]
    {
      ColumnMaxBound(rows, c, i);
    }
  }

  /** Each row of a formatted block reads back as `maxColumns` cells: its data cells, or markers for a separator row. */
  lemma FormattedRowCells(doc: Doc, start: nat, end: nat, i: nat)
    requires start <= end < |doc| && i < |ParseRows(doc, start, end + 1)|
    ensures var rows := ParseRows(doc, start, end + 1); var widths := ColumnWidths(rows);
      var text := RenderRow(rows[i], widths);
      |widths| == MaxCols(rows) &&
      LineCells(text) == ShownRow(rows[i], widths) &&
      (rows[i].isSep ==> AllMarkers(LineCells(text)))
  {
    var rows := ParseRows(doc, start, end + 1);
    var widths := ColumnWidths(rows);
    ColumnWidthsAgree(rows);
    ParseRowsClean(doc, start, end + 1);
    RenderReadBack(rows[i], widths);
    if rows[i].isSep {
      SeparatorReadBack(rows[i], widths);
    }
  }

  /** The rows of a formatted block line up: all data rows are equally wide, and so are all separator rows. */
  lemma FormattedRowWidth(rows: seq<Row>, i: nat)
    requires i < |rows|
    ensures var widths := ColumnWidths(rows);
      Width(RenderRow(rows[i], widths)) == 1 + Total(widths) + |widths| * if rows[i].isSep then 5 else 3
  {
    var widths := ColumnWidths(rows);
    ColumnWidthsAgree(rows);
    if !rows[i].isSep {
      ColumnWidthsFit(rows, i);
    }
    RenderedWidth(rows[i], widths);
  }

  /**
   * No edit for a line without `|` or while composing; otherwise the block
   * holds the line, and a row is replaced exactly when its rendering
   * differs from the line.
   */
  lemma FormatTableEdits(doc: Doc, lineIndex: nat, composing: bool)
    requires lineIndex < |doc|
    ensures PIPE !in doc[lineIndex] || composing ==> FormatTable(doc, lineIndex, composing) == []
    ensures PIPE in doc[lineIndex] && !composing ==>
      var s, e := TableStart(doc, lineIndex), TableEnd(doc, lineIndex);
      var rows := ParseRows(doc, s, e + 1);
      var reps := Rendered(rows, ColumnWidths(rows));
      var edits := FormatTable(doc, lineIndex, composing);
      s <= lineIndex <= e &&
      (forall x :: x in edits ==> x in reps && doc[x.line] != x.text) &&
      (forall x :: x in reps && doc[x.line] != x.text ==> x in edits)
  {
    if PIPE in doc[lineIndex] && !composing {
      var s, e := TableStart(doc, lineIndex), TableEnd(doc, lineIndex);
      var rows := ParseRows(doc, s, e + 1);
      ChangedKeeps(doc, Rendered(rows, ColumnWidths(rows)));
    }
  }

  // ---------------------------------------------------------------------
  // The edit callback and the command
  // ---------------------------------------------------------------------

  /** `formattedLine` for one entry of `tableLines`: the loop over the columns. */
  method RenderRowText(r: Row, maxColumns: nat, columnWidths: seq<nat>) returns (formattedLine: Str)
    requires |columnWidths| == maxColumns
    ensures formattedLine == RenderRow(r, columnWidths)
  {
    ghost var segs := Segments(r, columnWidths);
    FramedEmpty();
    formattedLine := [PIPE];
    var index := 0;
    while index < maxColumns
      invariant 0 <= index <= maxColumns
      invariant formattedLine == Framed(segs[..index])
    {
      var text: Str;
      if r.isSep {
        text := SepMarker(CellOr(r.cells, index, PLAIN_MARKER), columnWidths[index]);
      } else {
        text := PadString(CellOr(r.cells, index, []), columnWidths[index]);
      }
      FramedPrefix(segs, index);
      formattedLine := formattedLine + ([SPACE] + text + [SPACE]) + [PIPE];
      index := index + 1;
    }
    assert segs[..maxColumns] == segs;
  }

  /** The edit callback: each row rendered and replaced when it differs from its line. */
  method EditRows(doc: Doc, tableLines: seq<Row>, maxColumns: nat, columnWidths: seq<nat>) returns (edits: seq<Edit>)
    requires |columnWidths| == maxColumns
    requires forall i :: 0 <= i < |tableLines| ==> tableLines[i].line < |doc|
    ensures edits == Changed(doc, Rendered(tableLines, columnWidths))
  {
    ghost var reps := Rendered(tableLines, columnWidths);
    edits := [];
    var i := 0;
    while i < |tableLines|
      invariant 0 <= i <= |tableLines|
      invariant edits == Changed(doc, reps[..i])
    {
      var row := tableLines[i];
      var formattedLine := RenderRowText(row, maxColumns, columnWidths);
      assert reps[..i + 1][..i] == reps[..i];
      var currentLine := doc[row.line];
      if currentLine != formattedLine {
        edits := edits + [Edit(row.line, formattedLine)];
      }
      i := i + 1;
    }
    assert reps[..|tableLines|] == reps;
  }

  /**
   * `formatTableAtLine` up to the edit: the replacements, and the block it
   * found when it got that far.
   */
  method FormatTableAtLine(doc: Doc, lineIndex: nat, composing: bool)
    returns (edits: seq<Edit>, tableStartLine: nat, tableEndLine: nat)
    requires lineIndex < |doc|
    ensures edits == FormatTable(doc, lineIndex, composing)
    ensures PIPE in doc[lineIndex] && !composing ==>
      tableStartLine == TableStart(doc, lineIndex) && tableEndLine == TableEnd(doc, lineIndex)
  {
    var line := doc[lineIndex];
    if PIPE !in line || composing {
      return [], lineIndex, lineIndex;
    }
    tableStartLine, tableEndLine := FindTableBlock(doc, lineIndex);
    var tableLines, maxColumns, columnWidths := ParseBlock(doc, tableStartLine, tableEndLine);
    ColumnWidthsAgree(tableLines);
    columnWidths := FillWidths(columnWidths, maxColumns);
    edits := EditRows(doc, tableLines, maxColumns, columnWidths);
  }

  // ---------------------------------------------------------------------
  // The cursor after the edit
  // ---------------------------------------------------------------------

  /** Where piece `k` of a split line starts: each earlier piece and its `|`. */
  function CellOffset(cells: seq<Str>, k: nat): nat
    requires k <= |cells|
  {
    if k == 0 then 0 else CellOffset(cells, k - 1) + |cells[k - 1]| + 1
  }

  /** The new column of a cursor at column `ch` of a line of the block. */
  function RemapColumn(text: Str, ch: nat): Option<nat> {
    var beforeCursor := text[..Min(ch, |text|)];
    var before := Split(beforeCursor, PIPE);
    var cellIndex := |before| - 1;
    var cells := Split(text, PIPE);
    if cellIndex < |cells| then
      var relativePos := |Trim(before[cellIndex])|;
      Some(Min(CellOffset(cells, cellIndex) + 1 + Min(relativePos, |Trim(cells[cellIndex])|), |text|))
    else None
  }

  /** The cursor after the edit: moved on a line of the block, left alone elsewhere (`None`). */
  function RemapCursor(after: Doc, tableStartLine: nat, tableEndLine: nat, active: Position): Option<Position>
    requires active.line < |after|
  {
    if tableStartLine <= active.line <= tableEndLine then
      match RemapColumn(after[active.line], active.character)
      case Some(col) => Some(Position(active.line, col))
      case None => None
    else None
  }

  /** The `then` step: both texts it reads are the line as the edit left it. */
  method RestoreCursor(after: Doc, tableStartLine: nat, tableEndLine: nat, currentPosition: Position)
    returns (r: Option<Position>)
    requires currentPosition.line < |after|
    ensures r == RemapCursor(after, tableStartLine, tableEndLine, currentPosition)
  {
    r := None;
    if tableStartLine <= currentPosition.line <= tableEndLine {
      var currentChar := currentPosition.character;
      var currentLineText := after[currentPosition.line];
      var beforeCursor := currentLineText[..Min(currentChar, |currentLineText|)];
      var cellIndex := |Split(beforeCursor, PIPE)| - 1;
      var newLineText := after[currentPosition.line];
      var cells := Split(newLineText, PIPE);
      if cellIndex < |cells| {
        ghost var relative := Min(|Trim(Split(beforeCursor, PIPE)[cellIndex])|, |Trim(cells[cellIndex])|);
        var newPosition: nat := 0;
        var i := 0;
        while i <= cellIndex && i < |cells|
          invariant 0 <= i <= cellIndex + 1
          invariant i <= cellIndex ==> newPosition == CellOffset(cells, i)
          invariant i == cellIndex + 1 ==> newPosition == CellOffset(cells, cellIndex) + 1 + relative
        {
          if i == cellIndex {
            var cellStart := newPosition;
            var cellContent := Trim(cells[i]);
            var oldCellContent := Split(beforeCursor, PIPE)[cellIndex];
            var relativePos := |Trim(oldCellContent)|;
            newPosition := cellStart + 1 + Min(relativePos, |cellContent|);
          } else {
            newPosition := newPosition + |cells[i]| + 1;
          }
          i := i + 1;
        }
        r := Some(Position(currentPosition.line, Min(newPosition, |newLineText|)));
      }
    }
  }

  lemma {:induction false} CellOffsetCons(x: Str, rest: seq<Str>, k: nat)
    requires k <= |rest|
    ensures CellOffset([x] + rest, k + 1) == |x| + 1 + CellOffset(rest, k)
  {
    if k > 0 {
      CellOffsetCons(x, rest, k - 1);
      assert ([x] + rest)[k] == rest[k - 1];
    }
  }

  /** The pieces `before` of the text up to column `m` end inside piece `|before| - 1` of the pieces `cells` of the line. */
  predicate CursorPiece(before: seq<Str>, cells: seq<Str>, m: nat) {
    var k := |before| - 1;
    0 <= k < |cells| && StartsWith(cells[k], before[k]) && CellOffset(cells, k) + |before[k]| == m
  }

  /** The pieces of `[c] + s`, given the pieces `rest` of `s`, as `Split` builds them. */
  function SplitCons(c: Unit, rest: seq<Str>): seq<Str>
    requires |rest| >= 1
  {
    if c == PIPE then [[]] + rest else [[c] + rest[0]] + rest[1..]
  }

  /** Putting the same unit in front of the line and of the text before the cursor moves the cursor one on. */
  lemma CursorPieceCons(c: Unit, before: seq<Str>, cells: seq<Str>, m: nat)
    requires |before| >= 1 && CursorPiece(before, cells, m)
    ensures CursorPiece(SplitCons(c, before), SplitCons(c, cells), m + 1)
  {
    if c == PIPE {
      CursorPieceBar(before, cells, m);
    } else if |before| == 1 {
      CursorPieceFirst(c, before, cells, m);
    } else {
      CursorPieceLater(c, before, cells, m);
    }
  }

  /** A leading `|` adds an empty first piece to both. */
  lemma CursorPieceBar(before: seq<Str>, cells: seq<Str>, m: nat)
    requires |before| >= 1 && CursorPiece(before, cells, m)
    ensures CursorPiece([[]] + before, [[]] + cells, m + 1)
  {
    var k := |before| - 1;
    assert ([[]] + before)[k + 1] == before[k];
    assert ([[]] + cells)[k + 1] == cells[k];
    CellOffsetCons([], cells, k);
  }

  /** Another leading unit, with the cursor in the first piece: both first pieces grow by it. */
  lemma CursorPieceFirst(c: Unit, before: seq<Str>, cells: seq<Str>, m: nat)
    requires |before| == 1 && CursorPiece(before, cells, m)
    ensures CursorPiece([[c] + before[0]] + before[1..], [[c] + cells[0]] + cells[1..], m + 1)
  {
    var x, y := [c] + cells[0], [c] + before[0];
    assert x[..|y|] == [c] + cells[0][..|before[0]|];
  }

  /** Another leading unit, with the cursor in a later piece: that piece is unchanged and starts one later. */
  lemma CursorPieceLater(c: Unit, before: seq<Str>, cells: seq<Str>, m: nat)
    requires |before| > 1 && CursorPiece(before, cells, m)
    ensures CursorPiece([[c] + before[0]] + before[1..], [[c] + cells[0]] + cells[1..], m + 1)
  {
    var k := |before| - 1;
    var x := [c] + cells[0];
    assert ([x] + cells[1..])[k] == cells[k];
    assert ([[c] + before[0]] + before[1..])[k] == before[k];
    CellOffsetCons(x, cells[1..], k - 1);
    CellOffsetCons(cells[0], cells[1..], k - 1);
    assert cells == [cells[0]] + cells[1..];
  }

  /**
   * Splitting the text before column `m` gives the pieces of the whole
   * line up to the cursor: the last of them is the start of the piece the
   * cursor is in, and that piece begins where the earlier ones end.
   */
  lemma {:induction false} SplitBefore(text: Str, m: nat)
    requires m <= |text|
    ensures CursorPiece(Split(text[..m], PIPE), Split(text, PIPE), m)
  {
    if m > 0 {
      var t := text[1..];
      var b := text[..m];
      SplitBefore(t, m - 1);
      assert b[1..] == t[..m - 1] && b[0] == text[0];
      var before', cells' := Split(t[..m - 1], PIPE), Split(t, PIPE);
      assert Split(b, PIPE) == SplitCons(text[0], before');
      assert Split(text, PIPE) == SplitCons(text[0], cells');
      CursorPieceCons(text[0], before', cells', m - 1);
    }
  }

  /**
   * The cursor stays in its cell: the cell's index is the number of `|`
   * before the cursor, the edited line always has that cell, and the
   * cursor lands one past the cell's start plus as many units as the
   * trimmed text it had passed, never beyond the trimmed content of the
   * cell nor the end of the line.
   */
  lemma RemapColumnMeaning(text: Str, ch: nat)
    ensures var m := Min(ch, |text|); var k := CountUnit(text[..m], PIPE);
      var cells := Split(text, PIPE); var before := Split(text[..m], PIPE);
      k == |before| - 1 && k < |cells| &&
      CellOffset(cells, k) + |before[k]| == m && StartsWith(cells[k], before[k]) &&
      RemapColumn(text, ch).Some? && RemapColumn(text, ch).value <= |text| &&
      RemapColumn(text, ch).value <= CellOffset(cells, k) + 1 + |Trim(cells[k])| &&
      RemapColumn(text, ch).value == Min(CellOffset(cells, k) + 1 + Min(|Trim(before[k])|, |Trim(cells[k])|), |text|)
  {
    var m := Min(ch, |text|);
    SplitCount(text[..m], PIPE);
    SplitBefore(text, m);
  }
}
