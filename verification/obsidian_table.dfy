/**
 * The pipe-table formatter of src/extension-obsidian.js.
 *
 * Given a snapshot of the document and a line index, it finds the block of
 * `|` lines around the line (stopping at the first line without a `|`),
 * parses each line into trimmed cells, recognises the separator row,
 * measures every column with a full-width-aware width, pads the cells and
 * re-renders every row. The result is the list of lines whose text changes.
 * Each loop of the source is a method proved equal to a specification
 * function; the properties are proved about the functions.
 */
module ObsidianTable {
  import opened Text

  // ---------------------------------------------------------------------
  // Display width
  // ---------------------------------------------------------------------

  /** `isFullWidthChar`: CJK symbols, kana, ideographs and full-width forms. */
  predicate IsFullWidthChar(u: Unit) {
    (0x3000 <= u <= 0x30FF) || (0x4E00 <= u <= 0x9FFF) || (0xF900 <= u <= 0xFAFF) ||
    (0xFF01 <= u <= 0xFF60) || (0xFFE0 <= u <= 0xFFE6)
  }

  function UnitWidth(u: Unit): nat {
    if IsFullWidthChar(u) then 2 else 1
  }

  /** The display width of a string: 2 per full-width code unit, 1 per other one. */
  function Width(s: Str): nat {
    if s == [] then 0 else Width(s[..|s| - 1]) + UnitWidth(s[|s| - 1])
  }

  lemma {:induction false} WidthBounds(s: Str)
    ensures |s| <= Width(s) <= 2 * |s|
    ensures Width(s) == 2 * |s| <==> forall i :: 0 <= i < |s| ==> IsFullWidthChar(s[i])
  {
    if s != [] {
      var p := s[..|s| - 1];
      WidthBounds(p);
      if forall i :: 0 <= i < |s| ==> IsFullWidthChar(s[i]) {
        assert forall i :: 0 <= i < |p| ==> IsFullWidthChar(p[i]) by {
          forall i | 0 <= i < |p| ensures IsFullWidthChar(p[i]) { assert p[i] == s[i]; }
        }
      } else if IsFullWidthChar(s[|s| - 1]) {
        var i :| 0 <= i < |s| && !IsFullWidthChar(s[i]);
        assert p[i] == s[i];
      }
    }
  }

  lemma {:induction false} WidthAppend(a: Str, b: Str)
    ensures Width(a + b) == Width(a) + Width(b)
  {
    if b != [] {
      WidthAppend(a, b[..|b| - 1]);
      assert (a + b)[..|a + b| - 1] == a + b[..|b| - 1];
    } else {
      assert a + b == a;
    }
  }

  /** `getStringWidth`: sums the unit widths in a loop. */
  method GetStringWidth(str: Str) returns (width: nat)
    ensures width == Width(str)
    ensures |str| <= width <= 2 * |str|
  {
    WidthBounds(str);
    if str == [] { return 0; }
    width := 0;
    var i := 0;
    while i < |str|
      invariant 0 <= i <= |str|
      invariant width == Width(str[..i])
    {
      assert str[..i + 1][..i] == str[..i];
      width := width + (if IsFullWidthChar(str[i]) then 2 else 1);
      i := i + 1;
    }
    assert str[..|str|] == str;
  }

  // ---------------------------------------------------------------------
  // Padding
  // ---------------------------------------------------------------------

  /** Some code unit of `s` is full width. */
  predicate HasFullWidth(s: Str) {
    exists i :: 0 <= i < |s| && IsFullWidthChar(s[i])
  }

  /**
   * What `padCell` appends: nothing when the content already reaches the
   * target; otherwise ideographic spaces then at most one space when the
   * content has a full-width unit, and spaces only when it has none.
   */
  function Padding(content: Str, targetWidth: int): Str {
    var remain := targetWidth - Width(content);
    if remain <= 0 then []
    else if HasFullWidth(content) then Repeat(IDEOGRAPHIC_SPACE, remain / 2) + Repeat(SPACE, remain % 2)
    else Repeat(SPACE, remain)
  }

  function Padded(content: Str, targetWidth: int): Str {
    content + Padding(content, targetWidth)
  }

  lemma {:induction false} RepeatWidth(u: Unit, n: nat)
    ensures Width(Repeat(u, n)) == if IsFullWidthChar(u) then 2 * n else n
  {
    if n > 0 {
      RepeatWidth(u, n - 1);
      assert Repeat(u, n)[..n - 1] == Repeat(u, n - 1);
    }
  }

  /** The padding makes up exactly the missing width. */
  lemma PaddingWidth(content: Str, targetWidth: int)
    ensures Width(Padding(content, targetWidth)) == Max(targetWidth - Width(content), 0)
  {
    var remain := targetWidth - Width(content);
    if remain > 0 {
      if HasFullWidth(content) {
        var full, half := Repeat(IDEOGRAPHIC_SPACE, remain / 2), Repeat(SPACE, remain % 2);
        RepeatWidth(IDEOGRAPHIC_SPACE, remain / 2);
        RepeatWidth(SPACE, remain % 2);
        WidthAppend(full, half);
        assert Width(full) + Width(half) == remain;
      } else {
        RepeatWidth(SPACE, remain);
      }
    }
  }

  /** Padding reaches the target width exactly, and never shortens or changes the content. */
  lemma PaddedWidth(content: Str, targetWidth: int)
    ensures targetWidth <= Width(content) ==> Padded(content, targetWidth) == content
    ensures Width(Padded(content, targetWidth)) == Max(targetWidth, Width(content))
    ensures StartsWith(Padded(content, targetWidth), content)
  {
    var pad := Padding(content, targetWidth);
    PaddingWidth(content, targetWidth);
    WidthAppend(content, pad);
    assert Padded(content, targetWidth)[..|content|] == content;
    if targetWidth <= Width(content) {
      assert pad == [];
    }
  }

  /** The padding is white space, holds no `|`, and is plain spaces for content without a full-width unit. */
  lemma PaddingUnits(content: Str, targetWidth: int)
    ensures !HasFullWidth(content) ==> forall i :: 0 <= i < |Padding(content, targetWidth)| ==> Padding(content, targetWidth)[i] == SPACE
    ensures AllWhitespace(Padding(content, targetWidth)) && PIPE !in Padding(content, targetWidth)
  {
    var pad := Padding(content, targetWidth);
    forall i | 0 <= i < |pad| ensures pad[i] == SPACE || pad[i] == IDEOGRAPHIC_SPACE {
    }
  }

  /** `padCell`: the while loops that grow the padding. */
  method PadCell(content: Str, targetWidth: int) returns (r: Str)
    ensures r == Padded(content, targetWidth)
  {
    var current := GetStringWidth(content);
    var remain := targetWidth - current;
    if remain <= 0 { return content; }
    ghost var need := remain;
    var prefersFull := HasFullWidth(content);
    var pad: Str := [];
    if prefersFull {
      while remain >= 2
        invariant 0 <= remain <= need && (need - remain) % 2 == 0
        invariant pad == Repeat(IDEOGRAPHIC_SPACE, (need - remain) / 2)
      {
        pad := pad + [IDEOGRAPHIC_SPACE];
        remain := remain - 2;
      }
      assert remain == need % 2;
      ghost var full := pad;
      while remain > 0
        invariant 0 <= remain <= need % 2
        invariant pad == full + Repeat(SPACE, need % 2 - remain)
      {
        pad := pad + [SPACE];
        remain := remain - 1;
      }
    } else {
      while remain > 0
        invariant 0 <= remain <= need
        invariant pad == Repeat(SPACE, need - remain)
      {
        pad := pad + [SPACE];
        remain := remain - 1;
      }
    }
    r := content + pad;
  }

  // ---------------------------------------------------------------------
  // Row parsing
  // ---------------------------------------------------------------------

  predicate HasPipe(s: Str) {
    PIPE in s
  }

  function TrimAll(pieces: seq<Str>): (r: seq<Str>)
    ensures |r| == |pieces|
    ensures forall i :: 0 <= i < |r| ==> r[i] == Trim(pieces[i])
  {
    seq(|pieces|, i requires 0 <= i < |pieces| => Trim(pieces[i]))
  }

  /** Index of the first kept cell: a blank first piece is dropped. */
  function FirstKept(trimmed: seq<Str>): nat {
    if |trimmed| > 0 && trimmed[0] == [] then 1 else 0
  }

  /** One past the last kept cell: then a blank last piece is dropped. */
  function EndKept(trimmed: seq<Str>): (e: nat)
    ensures FirstKept(trimmed) <= e <= |trimmed|
    ensures |trimmed| - 2 <= e
  {
    if |trimmed| > FirstKept(trimmed) && trimmed[|trimmed| - 1] == [] then |trimmed| - 1 else |trimmed|
  }

  /** `splitTableLine`: `None` for a line without `|`, else the trimmed pieces between the pipes. */
  function SplitTableLine(line: Str): (r: Option<seq<Str>>)
    ensures r.None? <==> !HasPipe(line)
  {
    if !HasPipe(line) then None
    else
      var trimmed := TrimAll(Split(line, PIPE));
      Some(trimmed[FirstKept(trimmed)..EndKept(trimmed)])
  }

  /** The cells are trimmed, hold no `|`, and are the pieces between the pipes minus at most a blank one at each end. */
  lemma SplitTableLineCells(line: Str)
    requires HasPipe(line)
    ensures var cells := SplitTableLine(line).value;
      var parts := Split(line, PIPE);
      var lo := FirstKept(TrimAll(parts));
      && |parts| >= 2
      && |parts| - 2 <= |cells| && lo + |cells| <= |parts|
      && (forall i :: 0 <= i < |cells| ==> cells[i] == Trim(parts[lo + i]))
      && (forall i :: 0 <= i < |cells| ==> IsTrimmed(cells[i]) && PIPE !in cells[i])
  {
    var parts := Split(line, PIPE);
    SplitHasTwo(line, PIPE);
    var cells := SplitTableLine(line).value;
    var lo := FirstKept(TrimAll(parts));
    forall i | 0 <= i < |cells| ensures cells[i] == Trim(parts[lo + i]) && IsTrimmed(cells[i]) && PIPE !in cells[i] {
      TrimParts(parts[lo + i]);
      TrimWithout(parts[lo + i], PIPE);
    }
  }

  lemma {:induction false} SplitHasTwo(s: Str, sep: Unit)
    requires sep in s
    ensures |Split(s, sep)| >= 2
  {
    if s[0] != sep {
      assert sep in s[1..];
      SplitHasTwo(s[1..], sep);
    }
  }

  function OptColon(present: bool): Str {
    if present then [COLON] else []
  }

  /** The strings `/^:?-+:?$/` accepts, one per choice of colons and dash count. */
  function MarkerOf(left: bool, right: bool, dashes: nat): Str {
    OptColon(left) + Repeat(DASH, dashes) + OptColon(right)
  }

  /** `/^:?-+:?$/.test(s)`: optional colon, at least one dash, optional colon. */
  predicate IsMarker(s: Str) {
    var a := if |s| > 0 && s[0] == COLON then 1 else 0;
    var b := if |s| > a && s[|s| - 1] == COLON then 1 else 0;
    a + b < |s| && forall i :: a <= i < |s| - b ==> s[i] == DASH
  }

  /** Every string of the grammar `:?-+:?` is a marker. */
  lemma MarkerOfIsMarker(l: bool, r: bool, k: nat)
    requires 1 <= k
    ensures IsMarker(MarkerOf(l, r, k))
  {
    var s := MarkerOf(l, r, k);
    var d := Repeat(DASH, k);
    assert s[|OptColon(l)|] == d[0];
    assert s[|s| - 1 - |OptColon(r)|] == d[k - 1];
    var a := if |s| > 0 && s[0] == COLON then 1 else 0;
    var b := if |s| > a && s[|s| - 1] == COLON then 1 else 0;
    assert a == |OptColon(l)| && b == |OptColon(r)|;
    forall i | a <= i < |s| - b ensures s[i] == DASH {
      assert s[i] == d[i - a];
    }
  }

  /** Every marker is a string of the grammar `:?-+:?`. */
  lemma MarkerIsMarkerOf(s: Str) returns (l: bool, r: bool, k: nat)
    requires IsMarker(s)
    ensures 1 <= k && s == MarkerOf(l, r, k)
  {
    var a := if |s| > 0 && s[0] == COLON then 1 else 0;
    var b := if |s| > a && s[|s| - 1] == COLON then 1 else 0;
    l, r, k := a == 1, b == 1, |s| - a - b;
    var m := MarkerOf(l, r, k);
    assert |m| == |s|;
    forall i | 0 <= i < |s| ensures s[i] == m[i] {
      if a <= i < |s| - b {
        assert m[i] == Repeat(DASH, k)[i - a];
      }
    }
  }

  /** `IsMarker` accepts exactly the strings of the grammar `:?-+:?`. */
  lemma MarkerGrammar(s: Str)
    ensures IsMarker(s) <==> exists l: bool, r: bool, k: nat :: 1 <= k && s == MarkerOf(l, r, k)
  {
    if IsMarker(s) {
      var l, r, k := MarkerIsMarkerOf(s);
    }
    if exists l: bool, r: bool, k: nat :: 1 <= k && s == MarkerOf(l, r, k) {
      var l: bool, r: bool, k: nat :| 1 <= k && s == MarkerOf(l, r, k);
      MarkerOfIsMarker(l, r, k);
    }
  }

  /** `isSeparatorRow`: at least one cell, and each cell without its white space is a marker. */
  predicate IsSeparatorRow(cells: seq<Str>) {
    |cells| > 0 && forall i :: 0 <= i < |cells| ==> IsMarker(RemoveWhitespace(cells[i]))
  }

  // ---------------------------------------------------------------------
  // Block detection
  // ---------------------------------------------------------------------

  /** Walk up from a `|` line while the line above has a `|`. */
  function ExtendUp(doc: Doc, i: nat): (s: nat)
    requires i < |doc|
    ensures s <= i
    ensures forall j :: s <= j < i ==> HasPipe(doc[j])
    ensures s == 0 || !HasPipe(doc[s - 1])
  {
    if i > 0 && HasPipe(doc[i - 1]) then ExtendUp(doc, i - 1) else i
  }

  /** First line of the block; the line itself when it has no `|`. */
  function BlockStart(doc: Doc, k: nat): nat
    requires k < |doc|
  {
    if HasPipe(doc[k]) then ExtendUp(doc, k) else k
  }

  /** Last line of the block: walk down while the next line has a `|`. */
  function BlockEnd(doc: Doc, k: nat): (e: nat)
    requires k < |doc|
    ensures k <= e < |doc|
    ensures forall j :: k < j <= e ==> HasPipe(doc[j])
    ensures e + 1 == |doc| || !HasPipe(doc[e + 1])
    decreases |doc| - k
  {
    if k + 1 < |doc| && HasPipe(doc[k + 1]) then BlockEnd(doc, k + 1) else k
  }

  /** `findTableBlock`: the two scanning loops. */
  method FindTableBlock(doc: Doc, lineIndex: nat) returns (start: nat, end: nat)
    requires lineIndex < |doc|
    ensures start == BlockStart(doc, lineIndex) && end == BlockEnd(doc, lineIndex)
    ensures start <= lineIndex <= end < |doc|
    ensures forall j :: start <= j <= end && j != lineIndex ==> HasPipe(doc[j])
    ensures end + 1 == |doc| || !HasPipe(doc[end + 1])
    ensures HasPipe(doc[lineIndex]) ==> start == 0 || !HasPipe(doc[start - 1])
  {
    start, end := lineIndex, lineIndex;
    var i: int := lineIndex;
    while i >= 0
      invariant -1 <= i <= lineIndex
      invariant start == if i == lineIndex then lineIndex else i + 1
      invariant i < lineIndex ==> HasPipe(doc[lineIndex]) && ExtendUp(doc, lineIndex) == ExtendUp(doc, start)
    {
      if HasPipe(doc[i]) {
        start := i;
      } else {
        // a blank line and a text line both end the block
        break;
      }
      i := i - 1;
    }
    var k := lineIndex + 1;
    while k < |doc|
      invariant lineIndex + 1 <= k <= |doc|
      invariant end == k - 1
      invariant BlockEnd(doc, lineIndex) == BlockEnd(doc, end)
    {
      if HasPipe(doc[k]) {
        end := k;
      } else {
        break;
      }
      k := k + 1;
    }
  }

  // ---------------------------------------------------------------------
  // Rows of the block and column widths
  // ---------------------------------------------------------------------

  datatype Row = Row(line: nat, cells: seq<Str>, isSep: bool)

  /** The row a line contributes: none without a `|` or without cells. */
  function RowAt(doc: Doc, i: nat): (r: Option<Row>)
    requires i < |doc|
    ensures r.Some? ==> r.value.line == i && r.value.cells != []
  {
    if !HasPipe(doc[i]) then None
    else
      var cells := SplitTableLine(doc[i]).value;
      if |cells| == 0 then None else Some(Row(i, cells, IsSeparatorRow(cells)))
  }

  /** The row of every line of the document. */
  function LineRows(doc: Doc): (lines: seq<Option<Row>>)
    ensures |lines| == |doc|
    ensures forall i :: 0 <= i < |doc| ==> lines[i] == RowAt(doc, i)
    ensures Indexed(lines)
  {
    seq(|doc|, i requires 0 <= i < |doc| => RowAt(doc, i))
  }

  /** `lines` holds the row of every line of the document. */
  predicate RowsFor(doc: Doc, lines: seq<Option<Row>>) {
    && |lines| == |doc|
    && Indexed(lines)
    && forall k {:trigger RowAt(doc, k)} :: 0 <= k < |doc| ==> lines[k] == RowAt(doc, k)
  }

  /** Each line's row, when there is one, names that line and has cells. */
  predicate Indexed(lines: seq<Option<Row>>) {
    forall i :: 0 <= i < |lines| && lines[i].Some? ==> lines[i].value.line == i && lines[i].value.cells != []
  }

  function RowsOf(r: Option<Row>): seq<Row> {
    match r
    case Some(row) => [row]
    case None => []
  }

  /** The rows of lines `[lo, hi)`, in line order. */
  function Collect(lines: seq<Option<Row>>, lo: nat, hi: nat): (rows: seq<Row>)
    requires lo <= hi <= |lines|
    requires Indexed(lines)
    ensures |rows| <= hi - lo
    ensures forall i :: 0 <= i < |rows| ==> lo <= rows[i].line < hi
    decreases hi - lo
  {
    if hi == lo then [] else Collect(lines, lo, hi - 1) + RowsOf(lines[hi - 1])
  }

  /** Every row names a line of the document. */
  predicate RowsInDoc(doc: Doc, rows: seq<Row>) {
    forall i :: 0 <= i < |rows| ==> rows[i].line < |doc|
  }

  /** The rows the parse loop collects from lines `[lo, hi)` of the document. */
  function ParseRows(doc: Doc, lo: nat, hi: nat): seq<Row>
    requires lo <= hi <= |doc|
  {
    Collect(LineRows(doc), lo, hi)
  }

  /** One more line collected: its row, if any, is appended. */
  lemma CollectStep(lines: seq<Option<Row>>, lo: nat, hi: nat, rows: seq<Row>, added: Option<Row>)
    requires Indexed(lines) && lo < hi <= |lines|
    requires rows == Collect(lines, lo, hi - 1) && added == lines[hi - 1]
    ensures Collect(lines, lo, hi) == rows + RowsOf(added)
  {
  }

  /** Each collected row is the row of its own line, which lies in `[lo, hi)`. */
  lemma {:induction false} CollectOwnLines(lines: seq<Option<Row>>, lo: nat, hi: nat, i: nat)
    requires Indexed(lines)
    requires lo <= hi <= |lines| && i < |Collect(lines, lo, hi)|
    ensures var row := Collect(lines, lo, hi)[i]; lo <= row.line < hi && lines[row.line] == Some(row)
    decreases hi - lo
  {
    var p := Collect(lines, lo, hi - 1);
    var rows := p + RowsOf(lines[hi - 1]);
    assert rows == Collect(lines, lo, hi);
    if i < |p| {
      assert rows[i] == p[i];
      CollectOwnLines(lines, lo, hi - 1, i);
    }
  }

  /** The collected rows are in strictly increasing line order. */
  lemma {:induction false} CollectOrdered(lines: seq<Option<Row>>, lo: nat, hi: nat, i: nat, j: nat)
    requires Indexed(lines)
    requires lo <= hi <= |lines| && i < j < |Collect(lines, lo, hi)|
    ensures Collect(lines, lo, hi)[i].line < Collect(lines, lo, hi)[j].line
    decreases hi - lo
  {
    var p := Collect(lines, lo, hi - 1);
    var rows := p + RowsOf(lines[hi - 1]);
    assert rows == Collect(lines, lo, hi);
    assert rows[i] == p[i];
    if j < |p| {
      assert rows[j] == p[j];
      CollectOrdered(lines, lo, hi - 1, i, j);
    } else {
      CollectOwnLines(lines, lo, hi - 1, i);
    }
  }

  /** Each parsed row is the row of its own line, which lies in `[lo, hi)`. */
  lemma ParseRowsOwnLines(doc: Doc, lo: nat, hi: nat, i: nat)
    requires lo <= hi <= |doc| && i < |ParseRows(doc, lo, hi)|
    ensures var row := ParseRows(doc, lo, hi)[i]; lo <= row.line < hi && RowAt(doc, row.line) == Some(row)
  {
    CollectOwnLines(LineRows(doc), lo, hi, i);
  }

  /** Every parsed row names a line of the document. */
  lemma ParseRowsInDoc(doc: Doc, lo: nat, hi: nat)
    requires lo <= hi <= |doc|
    ensures RowsInDoc(doc, ParseRows(doc, lo, hi))
  {
  }

  /** The parsed rows are in strictly increasing line order. */
  lemma ParseRowsOrdered(doc: Doc, lo: nat, hi: nat, i: nat, j: nat)
    requires lo <= hi <= |doc| && i < j < |ParseRows(doc, lo, hi)|
    ensures ParseRows(doc, lo, hi)[i].line < ParseRows(doc, lo, hi)[j].line
  {
    CollectOrdered(LineRows(doc), lo, hi, i, j);
  }

  /** `maxCols`: the largest number of cells in a row. */
  function MaxCols(rows: seq<Row>): nat {
    if rows == [] then 0
    else Max(MaxCols(rows[..|rows| - 1]), |rows[|rows| - 1].cells|)
  }

  /** No row has more than `MaxCols` cells. */
  lemma {:induction false} MaxColsBound(rows: seq<Row>, i: nat)
    requires i < |rows|
    ensures |rows[i].cells| <= MaxCols(rows)
  {
    var p := rows[..|rows| - 1];
    if i < |p| {
      assert rows[i] == p[i];
      MaxColsBound(p, i);
    }
  }

  /** Some row has exactly `MaxCols` cells. */
  lemma {:induction false} MaxColsAttained(rows: seq<Row>)
    requires rows != []
    ensures exists i :: 0 <= i < |rows| && |rows[i].cells| == MaxCols(rows)
  {
    var p := rows[..|rows| - 1];
    if p != [] && MaxCols(rows) == MaxCols(p) && MaxCols(p) != |rows[|rows| - 1].cells| {
      MaxColsAttained(p);
      var i :| 0 <= i < |p| && |p[i].cells| == MaxCols(p);
      assert rows[i] == p[i];
    } else {
      assert |rows[|rows| - 1].cells| == MaxCols(rows);
    }
  }

  lemma MaxColsSnoc(rows: seq<Row>, r: Row)
    ensures MaxCols(rows + [r]) == Max(MaxCols(rows), |r.cells|)
  {
    assert (rows + [r])[..|rows|] == rows;
  }

  /** `r.cells[c] || ''` */
  function CellAt(cells: seq<Str>, c: nat): Str {
    if c < |cells| then cells[c] else []
  }

  /** The display width of a data row's trimmed cell `c` (a missing cell is empty). */
  function DataWidth(r: Row, c: nat): nat {
    Width(Trim(CellAt(r.cells, c)))
  }

  /** The width of column `c` after the rows: 3, raised to each data row's cell width. */
  function ColWidth(rows: seq<Row>, c: nat): (w: nat)
    ensures w >= 3
  {
    if rows == [] then 3
    else
      var w := ColWidth(rows[..|rows| - 1], c);
      var last := rows[|rows| - 1];
      if last.isSep || DataWidth(last, c) <= w then w else DataWidth(last, c)
  }

  /** One more row: a data row raises the column to its cell's width, a separator row leaves it. */
  lemma ColWidthSnoc(before: seq<Row>, r: Row, c: nat)
    ensures ColWidth(before + [r], c) ==
      if r.isSep || DataWidth(r, c) <= ColWidth(before, c) then ColWidth(before, c) else DataWidth(r, c)
  {
    assert (before + [r])[..|before|] == before;
  }

  /** No data cell is wider than its column. */
  lemma {:induction false} ColWidthBound(rows: seq<Row>, c: nat, i: nat)
    requires i < |rows| && !rows[i].isSep
    ensures DataWidth(rows[i], c) <= ColWidth(rows, c)
  {
    var p := rows[..|rows| - 1];
    if i < |p| {
      assert rows[i] == p[i];
      ColWidthBound(p, c, i);
    }
  }

  /** A column wider than 3 is exactly as wide as one of its data cells. */
  lemma {:induction false} ColWidthAttained(rows: seq<Row>, c: nat)
    ensures ColWidth(rows, c) == 3 ||
      exists i :: 0 <= i < |rows| && !rows[i].isSep && ColWidth(rows, c) == DataWidth(rows[i], c)
  {
    if rows != [] {
      var p := rows[..|rows| - 1];
      ColWidthAttained(p, c);
      var w := ColWidth(rows, c);
      if w != 3 {
        if w == ColWidth(p, c) {
          var i :| 0 <= i < |p| && !p[i].isSep && w == DataWidth(p[i], c);
          assert rows[i] == p[i];
        } else {
          assert !rows[|rows| - 1].isSep && w == DataWidth(rows[|rows| - 1], c);
        }
      }
    }
  }

  function Widths(rows: seq<Row>, n: nat): (w: seq<nat>)
    ensures |w| == n
  {
    seq(n, c requires 0 <= c < n => ColWidth(rows, c))
  }

  // ---------------------------------------------------------------------
  // Rendering
  // ---------------------------------------------------------------------

  /** The colon flags of a separator cell, read after removing its white space. */
  function LeftColon(cell: Str): bool {
    var raw := RemoveWhitespace(cell);
    |raw| > 0 && raw[0] == COLON
  }

  function RightColon(cell: Str): bool {
    var raw := RemoveWhitespace(cell);
    |raw| > 0 && raw[|raw| - 1] == COLON
  }

  /** The rendered separator cell: `max(3, w)` units, colons where the source cell had them. */
  function SepSegment(cell: Str, w: nat): Str {
    var left := LeftColon(cell);
    var right := RightColon(cell);
    var dashes := Repeat(DASH, Max(3, w));
    if left && right then [COLON] + dashes[1..|dashes| - 1] + [COLON]
    else if left then [COLON] + dashes[1..]
    else if right then dashes[..|dashes| - 1] + [COLON]
    else dashes
  }

  /** What stands between the two spaces of cell `c`. */
  function CellText(r: Row, c: nat, w: nat): Str {
    if r.isSep then SepSegment(CellAt(r.cells, c), w) else Padded(Trim(CellAt(r.cells, c)), w)
  }

  function Segments(r: Row, widths: seq<nat>): (segs: seq<Str>)
    ensures |segs| == |widths|
  {
    seq(|widths|, c requires 0 <= c < |widths| => [SPACE] + CellText(r, c, widths[c]) + [SPACE])
  }

  /** The rendered row: `|`, then ` text |` for each column. */
  function RenderRow(r: Row, widths: seq<nat>): Str {
    Framed(Segments(r, widths))
  }

  function Rendered(rows: seq<Row>, widths: seq<nat>): (reps: seq<Edit>)
    ensures |reps| == |rows|
    ensures forall i :: 0 <= i < |rows| ==> reps[i].line == rows[i].line
  {
    seq(|rows|, i requires 0 <= i < |rows| => Edit(rows[i].line, RenderRow(rows[i], widths)))
  }

  /** `rows.some(r => r.isSep)`. */
  predicate HasSeparatorRow(rows: seq<Row>) {
    rows != [] && (rows[|rows| - 1].isSep || HasSeparatorRow(rows[..|rows| - 1]))
  }

  /** The replacement lines `formatTableAtLine` hands to the editor. */
  function FormatTable(doc: Doc, lineIndex: int): seq<Edit> {
    if lineIndex < 0 || lineIndex >= |doc| then []
    else FormatBlock(doc, BlockStart(doc, lineIndex), BlockEnd(doc, lineIndex))
  }

  /** The edits for the block of lines `[start, end]`: none unless it has two rows and a separator row. */
  function FormatBlock(doc: Doc, start: nat, end: nat): seq<Edit>
    requires start <= end < |doc|
  {
    ParseRowsInDoc(doc, start, end + 1);
    FormatParsed(doc, ParseRows(doc, start, end + 1))
  }

  /** The edits for the parsed rows of a block: none unless there are two rows and a separator row. */
  function FormatParsed(doc: Doc, rows: seq<Row>): seq<Edit>
    requires RowsInDoc(doc, rows)
  {
    if |rows| < 2 || !HasSeparatorRow(rows) then [] else FormatRows(doc, rows)
  }

  /** The rows re-rendered at the common column widths, keeping the lines that change. */
  function FormatRows(doc: Doc, rows: seq<Row>): seq<Edit>
    requires RowsInDoc(doc, rows)
  {
    Changed(doc, Rendered(rows, Widths(rows, MaxCols(rows))))
  }

  // ---------------------------------------------------------------------
  // formatTableAtLine, as the source computes it
  // ---------------------------------------------------------------------

  /** The parse loop over the block: a row per line with cells, and `maxCols`.
    * `lines`, a ghost view of the row of every line, is what the loop is proved against. */
  method ParseBlock(doc: Doc, ghost lines: seq<Option<Row>>, start: nat, end: nat) returns (rows: seq<Row>, maxCols: nat)
    requires start <= end < |doc| && RowsFor(doc, lines)
    ensures Collected(lines, start, end + 1, rows, maxCols)
  {
    rows := [];
    maxCols := 0;
    var i := start;
    while i <= end
      invariant start <= i <= end + 1
      invariant Collected(lines, start, i, rows, maxCols)
    {
      rows, maxCols := ParseLine(doc, lines, start, i, rows, maxCols);
      i := i + 1;
    }
  }

  /** The state of the parse loop after the lines `[start, i)`. */
  predicate Collected(lines: seq<Option<Row>>, start: nat, i: nat, rows: seq<Row>, maxCols: nat) {
    start <= i <= |lines| && Indexed(lines) && rows == Collect(lines, start, i) && maxCols == MaxCols(rows)
  }

  /** The body of the parse loop: a line with a `|` and at least one cell pushes a row. */
  method ParseLine(doc: Doc, ghost lines: seq<Option<Row>>, start: nat, i: nat, rows: seq<Row>, maxCols: nat)
    returns (rows': seq<Row>, maxCols': nat)
    requires i < |doc| && RowsFor(doc, lines)
    requires Collected(lines, start, i, rows, maxCols)
    ensures Collected(lines, start, i + 1, rows', maxCols')
  {
    CollectStep(lines, start, i + 1, rows, RowAt(doc, i));
    rows', maxCols' := rows, maxCols;
    var text := doc[i];
    if HasPipe(text) {
      var cells := SplitTableLine(text);
      if cells.Some? && |cells.value| > 0 {
        var row := Row(i, cells.value, IsSeparatorRow(cells.value));
        assert RowsOf(RowAt(doc, i)) == [row];
        MaxColsSnoc(rows, row);
        rows' := rows + [row];
        maxCols' := Max(maxCols, |cells.value|);
        return;
      }
    }
    assert RowsOf(RowAt(doc, i)) == [];
    assert rows + [] == rows;
  }

  /** `colWidths`, filled with 3 and raised in place by every data row. */
  method ComputeColumnWidths(rows: seq<Row>, maxCols: nat) returns (colWidths: array<nat>)
    ensures fresh(colWidths)
    ensures colWidths[..] == Widths(rows, maxCols)
  {
    colWidths := new nat[maxCols](_ => 3);
    var ri := 0;
    while ri < |rows|
      invariant 0 <= ri <= |rows|
      invariant colWidths.Length == maxCols
      invariant colWidths[..] == Widths(rows[..ri], maxCols)
    {
      assert rows[..ri + 1] == rows[..ri] + [rows[ri]];
      RaiseColumnWidths(colWidths, rows[..ri], rows[ri]);
      ri := ri + 1;
    }
    assert rows[..|rows|] == rows;
  }

  /** The inner loop over the columns for one row: a data row raises each column to its cell's width. */
  method RaiseColumnWidths(colWidths: array<nat>, ghost before: seq<Row>, r: Row)
    requires colWidths[..] == Widths(before, colWidths.Length)
    modifies colWidths
    ensures colWidths[..] == Widths(before + [r], colWidths.Length)
  {
    ghost var after := before + [r];
    if r.isSep {
      forall d | 0 <= d < colWidths.Length ensures ColWidth(after, d) == ColWidth(before, d) {
        ColWidthSnoc(before, r, d);
      }
      return;
    }
    var c := 0;
    while c < colWidths.Length
      invariant 0 <= c <= colWidths.Length
      invariant forall d :: 0 <= d < c ==> colWidths[d] == ColWidth(after, d)
      invariant forall d :: c <= d < colWidths.Length ==> colWidths[d] == ColWidth(before, d)
    {
      RaiseColumn(colWidths, before, r, c);
      c := c + 1;
    }
  }

  /** One column of a data row: `Math.max(3, width)` replaces a narrower column width. */
  method RaiseColumn(colWidths: array<nat>, ghost before: seq<Row>, r: Row, c: nat)
    requires c < colWidths.Length && !r.isSep
    requires colWidths[c] == ColWidth(before, c)
    modifies colWidths
    ensures colWidths[..] == old(colWidths[..])[c := ColWidth(before + [r], c)]
  {
    var cell := Trim(CellAt(r.cells, c));
    var cw := GetStringWidth(cell);
    var w := Max(3, cw);
    if w > colWidths[c] {
      colWidths[c] := w;
    }
    ColWidthSnoc(before, r, c);
  }

  /** One row's text: `'|'` then `' ' + segment + ' |'` per column. */
  method RenderRowText(r: Row, colWidths: array<nat>) returns (out: Str)
    ensures out == RenderRow(r, colWidths[..])
  {
    ghost var segs := Segments(r, colWidths[..]);
    FramedEmpty();
    out := [PIPE];
    var c := 0;
    while c < colWidths.Length
      invariant 0 <= c <= colWidths.Length
      invariant out == Framed(segs[..c])
    {
      var seg: Str;
      if r.isSep {
        seg := SepSegment(CellAt(r.cells, c), colWidths[c]);
      } else {
        seg := PadCell(Trim(CellAt(r.cells, c)), colWidths[c]);
      }
      FramedPrefix(segs, c);
      out := out + ([SPACE] + seg + [SPACE]) + [PIPE];
      c := c + 1;
    }
    assert segs[..colWidths.Length] == segs;
  }

  /** `formatTableAtLine`: the replacements the editor is asked to apply. */
  method FormatTableAtLine(doc: Doc, lineIndex: int) returns (edits: seq<Edit>)
    ensures edits == FormatTable(doc, lineIndex)
  {
    if lineIndex < 0 || lineIndex >= |doc| { return []; }
    var start, end := FindTableBlock(doc, lineIndex);
    edits := FormatBlockAt(doc, start, end);
  }

  /** The part of `formatTableAtLine` after the block is found. */
  method FormatBlockAt(doc: Doc, start: nat, end: nat) returns (edits: seq<Edit>)
    requires start <= end < |doc|
    ensures edits == FormatBlock(doc, start, end)
  {
    var rows, maxCols := ParseBlock(doc, LineRows(doc), start, end);
    ParseRowsInDoc(doc, start, end + 1);
    if |rows| < 2 { return []; }
    if !HasSeparatorRow(rows) { return []; }
    var colWidths := ComputeColumnWidths(rows, maxCols);
    var replacements := RenderRows(rows, colWidths);
    ghost var widths := Widths(rows, MaxCols(rows));
    assert replacements == Rendered(rows, widths);
    edits := KeepChanged(doc, replacements);
    assert edits == FormatRows(doc, rows);
  }

  /** The `newLines` loop: one replacement per row. */
  method RenderRows(rows: seq<Row>, colWidths: array<nat>) returns (replacements: seq<Edit>)
    ensures replacements == Rendered(rows, colWidths[..])
  {
    replacements := [];
    var i := 0;
    while i < |rows|
      invariant 0 <= i <= |rows|
      invariant replacements == Rendered(rows, colWidths[..])[..i]
    {
      var out := RenderRowText(rows[i], colWidths);
      replacements := replacements + [Edit(rows[i].line, out)];
      i := i + 1;
    }
  }

  /** The edit callback: it replaces only the lines whose text differs. */
  method KeepChanged(doc: Doc, replacements: seq<Edit>) returns (edits: seq<Edit>)
    requires EditsInRange(doc, replacements)
    ensures edits == Changed(doc, replacements)
  {
    edits := [];
    var i := 0;
    while i < |replacements|
      invariant 0 <= i <= |replacements|
      invariant edits == Changed(doc, replacements[..i])
    {
      var rep := replacements[i];
      assert replacements[..i + 1][..i] == replacements[..i];
      if doc[rep.line] != rep.text {
        edits := edits + [rep];
      }
      i := i + 1;
    }
    assert replacements[..|replacements|] == replacements;
  }
}
