/**
 * `moveLineWithHierarchy` of src/extension-obsidian.js: the selected lines
 * and the deeper-indented lines under them move as one block past the line
 * above or below, re-indented to that line's indent when it is a list item.
 */
module ObsidianMove {
  import opened Text
  import opened Selections
  import ObsidianTable
  import ObsidianTableProofs

  datatype Direction = Up | Down

  /** A line taken into the block: not blank and indented deeper than the first selected line. */
  predicate IsChild(s: Str, indent: nat) {
    Trim(s) != [] && IndentLength(s) > indent
  }

  /** The last line of the block: the selection's last line, then the child lines under it. */
  function BlockEnd(doc: Doc, endLine: nat, indent: nat): (b: nat)
    requires endLine < |doc|
    ensures endLine <= b < |doc|
    decreases |doc| - endLine
  {
    if endLine + 1 < |doc| && IsChild(doc[endLine + 1], indent) then BlockEnd(doc, endLine + 1, indent) else endLine
  }

  /** The block takes in every child line below the selection and stops at the first other line. */
  lemma {:induction false} BlockEndRun(doc: Doc, endLine: nat, indent: nat)
    requires endLine < |doc|
    ensures var b := BlockEnd(doc, endLine, indent);
      (forall k :: endLine < k <= b ==> IsChild(doc[k], indent)) && (b == |doc| - 1 || !IsChild(doc[b + 1], indent))
    decreases |doc| - endLine
  {
    if endLine + 1 < |doc| && IsChild(doc[endLine + 1], indent) {
      BlockEndRun(doc, endLine + 1, indent);
    }
  }

  /** The loop that extends the block. */
  method ScanBlockEnd(doc: Doc, endLine: nat, indent: nat) returns (blockEndLine: nat)
    requires endLine < |doc|
    ensures blockEndLine == BlockEnd(doc, endLine, indent)
  {
    blockEndLine := endLine;
    var i := endLine + 1;
    while i < |doc|
      invariant endLine < i <= |doc| && blockEndLine == i - 1
      invariant BlockEnd(doc, endLine, indent) == BlockEnd(doc, blockEndLine, indent)
    {
      var line := doc[i];
      if Trim(line) == [] {
        break;
      }
      var lineIndent := IndentLength(line);
      if lineIndent <= indent {
        break;
      }
      blockEndLine := i;
      i := i + 1;
    }
  }

  /** `^\s*[-*+\d]|^\s*-\s\[`; the second alternative only matches where the first does. */
  predicate ListLine(s: Str) {
    var n := IndentLength(s);
    n < |s| && (s[n] == DASH || s[n] == STAR || s[n] == PLUS || IsDigit(s[n]))
  }

  /** The indent the block takes: that of the line it passes when that line is a list item, else its own. */
  function TargetIndent(doc: Doc, targetLine: int, current: nat): nat {
    if 0 <= targetLine < |doc| && Trim(doc[targetLine]) != [] && ListLine(doc[targetLine]) then IndentLength(doc[targetLine])
    else current
  }

  /** The indent change as written: `diff` spaces in front, or the first `-diff` units cut whatever they are. */
  function ReindentAsWritten(line: Str, diff: int): Str {
    if diff > 0 then Repeat(SPACE, diff) + line
    else if diff < 0 then (if -diff <= |line| then line[-diff..] else [])
    else line
  }

  /** The indent change as intended: a cut stops at the end of the line's own indent. */
  function Reindent(line: Str, diff: int): Str {
    if diff > 0 then Repeat(SPACE, diff) + line
    else if diff < 0 then line[(if -diff <= IndentLength(line) then -diff else IndentLength(line))..]
    else line
  }

  function ReindentLines(lines: seq<Str>, diff: int, asWritten: bool): (r: seq<Str>)
    ensures |r| == |lines|
  {
    seq(|lines|, i requires 0 <= i < |lines| => if asWritten then ReindentAsWritten(lines[i], diff) else Reindent(lines[i], diff))
  }

  /** The lines after a replaced range that ends at line `k`; a range running past the last line is clamped to the end, and the final newline of the new text leaves an empty line there. */
  function After(doc: Doc, k: nat): Doc {
    if k < |doc| then doc[k..] else [[]]
  }

  datatype Moved = Moved(doc: Doc, selection: Selection)

  /** The replacement of the block and the line it passes: that line now stands below the block (up) or above it (down). */
  function Rearrange(doc: Doc, dir: Direction, startLine: nat, blockEnd: nat, block: seq<Str>): Doc
    requires startLine <= blockEnd < |doc|
    requires dir == Up ==> startLine > 0
    requires dir == Down ==> blockEnd + 1 < |doc|
  {
    if dir == Up then doc[..startLine - 1] + block + [doc[startLine - 1]] + After(doc, blockEnd + 1)
    else doc[..startLine] + [doc[blockEnd + 1]] + block + After(doc, blockEnd + 2)
  }

  /** The selection after the move: the same columns, one line up or down. */
  function Shifted(sel: Selection, dir: Direction): Selection
    requires dir == Up ==> Start(sel).line > 0
  {
    var shift := if dir == Up then -1 else 1;
    Selection(Position(Start(sel).line + shift, Start(sel).character), Position(End(sel).line + shift, End(sel).character))
  }

  /** The line the block passes: the one above its first line, or the one below its last. */
  function TargetLine(dir: Direction, startLine: nat, blockEnd: nat): int {
    if dir == Up then startLine - 1 else blockEnd + 1
  }

  /** The indent change the block undergoes on its way past `target`. */
  function IndentChange(doc: Doc, target: int, current: nat): int {
    TargetIndent(doc, target, current) - current
  }

  /**
   * The move, with the re-indent as written or as intended. `None` where the
   * source does nothing: at the top or bottom of the document, and moving
   * down a block that reaches the last line, where the edit reads a line past
   * the end and fails.
   */
  function MoveWith(doc: Doc, sel: Selection, dir: Direction, asWritten: bool): Option<Moved>
    requires End(sel).line < |doc|
  {
    var startLine, endLine := Start(sel).line, End(sel).line;
    if (dir == Up && startLine == 0) || (dir == Down && endLine == |doc| - 1) then None
    else
      var current := IndentLength(doc[startLine]);
      MoveBlock(doc, sel, dir, asWritten, BlockEnd(doc, endLine, current), current)
  }

  /** The move once the block's last line and the indent of its first line are known. */
  function MoveBlock(doc: Doc, sel: Selection, dir: Direction, asWritten: bool, blockEnd: nat, current: nat): Option<Moved>
    requires Start(sel).line <= blockEnd < |doc|
    requires dir == Up ==> Start(sel).line > 0
  {
    var startLine := Start(sel).line;
    var target := TargetLine(dir, startLine, blockEnd);
    if target >= |doc| then None
    else
      var block := ReindentLines(doc[startLine..blockEnd + 1], IndentChange(doc, target, current), asWritten);
      Some(Moved(Rearrange(doc, dir, startLine, blockEnd, block), Shifted(sel, dir)))
  }

  function MoveLines(doc: Doc, sel: Selection, dir: Direction): Option<Moved>
    requires End(sel).line < |doc|
  {
    MoveWith(doc, sel, dir, false)
  }

  function MoveLinesAsWritten(doc: Doc, sel: Selection, dir: Direction): Option<Moved>
    requires End(sel).line < |doc|
  {
    MoveWith(doc, sel, dir, true)
  }

  /** The loop that collects the re-indented block. */
  method CollectBlock(doc: Doc, startLine: nat, blockEndLine: nat, diff: int) returns (lines: seq<Str>)
    requires startLine <= blockEndLine < |doc|
    ensures lines == ReindentLines(doc[startLine..blockEndLine + 1], diff, false)
  {
    lines := [];
    for i := startLine to blockEndLine + 1
      invariant |lines| == i - startLine
      invariant forall k :: 0 <= k < |lines| ==> lines[k] == Reindent(doc[startLine + k], diff)
    {
      var lineText := doc[i];
      if diff > 0 {
        lineText := Repeat(SPACE, diff) + lineText;
      } else if diff < 0 {
        var n := IndentLength(lineText);
        lineText := lineText[(if -diff <= n then -diff else n)..];
      }
      lines := lines + [lineText];
    }
  }

  /** The move part of `moveLineWithHierarchy`, with the re-indent as intended. */
  method MoveSelectedLines(doc: Doc, sel: Selection, dir: Direction) returns (r: Option<Moved>)
    requires End(sel).line < |doc|
    ensures r == MoveLines(doc, sel, dir)
  {
    var startLine, endLine := Start(sel).line, End(sel).line;
    if dir == Up && startLine == 0 {
      return None;
    }
    if dir == Down && endLine == |doc| - 1 {
      return None;
    }
    var currentIndent := IndentLength(doc[startLine]);
    var blockEndLine := ScanBlockEnd(doc, endLine, currentIndent);
    var targetLine := TargetLine(dir, startLine, blockEndLine);
    if targetLine >= |doc| {
      return None;
    }
    var targetIndent := TargetIndent(doc, targetLine, currentIndent);
    var diff := targetIndent as int - currentIndent;
    assert diff == IndentChange(doc, targetLine, currentIndent);
    var block := CollectBlock(doc, startLine, blockEndLine, diff);
    r := Some(Moved(Rearrange(doc, dir, startLine, blockEndLine, block), Shifted(sel, dir)));
    MoveWithBlock(doc, sel, dir, false, blockEndLine, currentIndent);
    MoveBlockIs(doc, sel, dir, false, blockEndLine, currentIndent, targetLine, diff, doc[startLine..blockEndLine + 1]);
  }

  /**
   * The whole command: the move, then, in the `then` step, the table around
   * the new active line formatted. Afterwards that table needs no further
   * formatting, and where the moved document needs none the command is the
   * plain move.
   */
  function MoveAndFormat(doc: Doc, sel: Selection, dir: Direction): (r: Option<Moved>)
    requires End(sel).line < |doc|
    ensures r.None? <==> MoveLines(doc, sel, dir).None?
    ensures r.Some? ==>
      var m := MoveLines(doc, sel, dir).value;
      r.value.selection == m.selection && |r.value.doc| == |m.doc| &&
      ObsidianTable.FormatTable(r.value.doc, m.selection.active.line) == []
    ensures r.Some? ==>
      var m := MoveLines(doc, sel, dir).value;
      ObsidianTable.FormatTable(m.doc, m.selection.active.line) == [] ==> r.value == m
  {
    match MoveLines(doc, sel, dir)
    case None => None
    case Some(m) =>
      ObsidianTableProofs.FormatIdempotent(m.doc, m.selection.active.line);
      Some(Moved(ApplyEdits(m.doc, ObsidianTable.FormatTable(m.doc, m.selection.active.line)), m.selection))
  }

  /** `moveLineWithHierarchy`: the move, then the format of the table at the new active line. */
  method MoveLineWithHierarchy(doc: Doc, sel: Selection, dir: Direction) returns (r: Option<Moved>)
    requires End(sel).line < |doc|
    ensures r == MoveAndFormat(doc, sel, dir)
  {
    r := MoveSelectedLines(doc, sel, dir);
    if r.Some? {
      var m := r.value;
      var edits := ObsidianTable.FormatTableAtLine(m.doc, m.selection.active.line);
      ObsidianTableProofs.FormatIdempotent(m.doc, m.selection.active.line);
      r := Some(Moved(ApplyEdits(m.doc, edits), m.selection));
    }
  }

  /** `MoveWith` away from the top and bottom of the document. */
  lemma MoveWithBlock(doc: Doc, sel: Selection, dir: Direction, asWritten: bool, blockEnd: nat, current: nat)
    requires End(sel).line < |doc|
    requires dir == Up ==> Start(sel).line > 0
    requires dir == Down ==> End(sel).line < |doc| - 1
    requires current == IndentLength(doc[Start(sel).line]) && blockEnd == BlockEnd(doc, End(sel).line, current)
    ensures MoveWith(doc, sel, dir, asWritten) == MoveBlock(doc, sel, dir, asWritten, blockEnd, current)
  {
  }

  /** `MoveBlock` where the passed line exists, with the line it passes, the indent change and the lines it moves named. */
  lemma MoveBlockIs(doc: Doc, sel: Selection, dir: Direction, asWritten: bool, blockEnd: nat, current: nat,
                    target: int, diff: int, lines: seq<Str>)
    requires Start(sel).line <= blockEnd < |doc|
    requires dir == Up ==> Start(sel).line > 0
    requires target == TargetLine(dir, Start(sel).line, blockEnd) && target < |doc|
    requires diff == IndentChange(doc, target, current) && lines == doc[Start(sel).line..blockEnd + 1]
    ensures MoveBlock(doc, sel, dir, asWritten, blockEnd, current) ==
      Some(Moved(Rearrange(doc, dir, Start(sel).line, blockEnd, ReindentLines(lines, diff, asWritten)), Shifted(sel, dir)))
  {
  }

  /** White space in front adds to the indent and leaves the text after it alone. */
  lemma IndentAfterWhite(a: Str, s: Str)
    requires AllWhitespace(a)
    ensures IndentLength(a + s) == |a| + IndentLength(s)
    ensures TrimStart(a + s) == TrimStart(s)
  {
    var n := IndentLength(s);
    var t := a + s;
    forall k | 0 <= k < |a| + n ensures InClass(t[k], Whitespace) {
      if k >= |a| {
        assert t[k] == s[k - |a|] == s[..n][k - |a|];
      }
    }
    if |a| + n < |t| {
      assert t[|a| + n] == s[n];
    }
    RunEndIs(t, 0, |a| + n, Whitespace);
    TrimStartIndent(t);
    TrimStartIndent(s);
    assert t[|a| + n..] == s[n..];
  }

  /** Cutting part of the indent leaves the rest of it and the text after it. */
  lemma IndentAfterCut(s: Str, k: nat)
    requires k <= IndentLength(s)
    ensures IndentLength(s[k..]) == IndentLength(s) - k
    ensures TrimStart(s[k..]) == TrimStart(s)
  {
    var n := IndentLength(s);
    var t := s[k..];
    forall j | 0 <= j < n - k ensures InClass(t[j], Whitespace) {
      assert t[j] == s[..n][k + j];
    }
    RunEndIs(t, 0, n - k, Whitespace);
    TrimStartIndent(t);
    TrimStartIndent(s);
    assert t[n - k..] == s[n..];
  }

  /** The intended re-indent moves the indent by `diff`, not below zero, and keeps everything after the indent. */
  lemma ReindentKeepsText(line: Str, diff: int)
    ensures TrimStart(Reindent(line, diff)) == TrimStart(line)
    ensures IndentLength(Reindent(line, diff)) == Max(0, IndentLength(line) + diff)
  {
    if diff > 0 {
      IndentAfterWhite(Repeat(SPACE, diff), line);
    } else if diff < 0 {
      var n := IndentLength(line);
      IndentAfterCut(line, if -diff <= n then -diff else n);
    }
  }

  /** Where the line has the indent the cut needs, both re-indents agree. */
  lemma ReindentAsWrittenAgrees(line: Str, diff: int)
    requires diff >= 0 || -diff <= IndentLength(line)
    ensures ReindentAsWritten(line, diff) == Reindent(line, diff)
  {
  }

  /** The three-line document of the counterexample below and the facts the move reads from it. */
  function LosesTextDoc(): Doc {
    [[DASH, SPACE, 0x61], [SPACE, SPACE, DASH, SPACE, 0x62], [0x63]]
  }

  lemma LosesTextSetting(asWritten: bool)
    ensures var doc := LosesTextDoc(); var sel := Selection(Position(1, 0), Position(2, 1));
      MoveWith(doc, sel, Up, asWritten) == MoveBlock(doc, sel, Up, asWritten, 2, 2) &&
      IndentChange(doc, 0, 2) == -2
  {
    var doc := LosesTextDoc();
    var a, b, c := doc[0], doc[1], doc[2];
    RunEndIs(a, 0, 0, Whitespace);
    RunEndIs(b, 0, 2, Whitespace);
    assert BlockEnd(doc, 2, 2) == 2;
    assert Trim(a) != [] by {
      TrimParts(a);
      assert !IsWhitespace(a[0]);
    }
    assert ListLine(a);
  }

  /**
   * As written, moving the lines "  - b" and "c" up past "- a" cuts two
   * units from "c" as well, and the line's text is lost.
   */
  lemma MoveAsWrittenLosesText()
    ensures var doc := LosesTextDoc();
      MoveLinesAsWritten(doc, Selection(Position(1, 0), Position(2, 1)), Up) ==
        Some(Moved([[DASH, SPACE, 0x62], [], doc[0], []], Selection(Position(0, 0), Position(1, 1))))
  {
    var doc := LosesTextDoc();
    LosesTextSetting(true);
    assert TargetLine(Up, 1, 2) == 0;
    assert MoveBlock(doc, Selection(Position(1, 0), Position(2, 1)), Up, true, 2, 2) ==
      Some(Moved(Rearrange(doc, Up, 1, 2, ReindentLines(doc[1..3], -2, true)), Shifted(Selection(Position(1, 0), Position(2, 1)), Up)));
    assert doc[1..3] == [doc[1], doc[2]];
    assert ReindentAsWritten(doc[1], -2) == [DASH, SPACE, 0x62];
    assert ReindentLines([doc[1], doc[2]], -2, true) == [[DASH, SPACE, 0x62], []];
    var sel := Selection(Position(1, 0), Position(2, 1));
    assert Start(sel) == sel.anchor && End(sel) == sel.active;
    assert Shifted(sel, Up) == Selection(Position(0, 0), Position(1, 1));
    assert Rearrange(doc, Up, 1, 2, [[DASH, SPACE, 0x62], []]) == [[DASH, SPACE, 0x62], []] + [doc[0]] + [[]];
    assert [[DASH, SPACE, 0x62], []] + [doc[0]] + [[]] == [[DASH, SPACE, 0x62], [], doc[0], []];
  }

  lemma KeepsTextBlock()
    ensures ReindentLines(LosesTextDoc()[1..3], -2, false) == [[DASH, SPACE, 0x62], LosesTextDoc()[2]]
  {
    var doc := LosesTextDoc();
    RunEndIs(doc[1], 0, 2, Whitespace);
    RunEndIs(doc[2], 0, 0, Whitespace);
    assert doc[1..3] == [doc[1], doc[2]];
    assert Reindent(doc[1], -2) == [DASH, SPACE, 0x62];
    assert Reindent(doc[2], -2) == doc[2];
  }

  /** The intended re-indent moves the same lines and keeps "c". */
  lemma MoveKeepsText()
    ensures var doc := LosesTextDoc();
      MoveLines(doc, Selection(Position(1, 0), Position(2, 1)), Up) ==
        Some(Moved([[DASH, SPACE, 0x62], doc[2], doc[0], []], Selection(Position(0, 0), Position(1, 1))))
  {
    var doc := LosesTextDoc();
    LosesTextSetting(false);
    assert TargetLine(Up, 1, 2) == 0;
    assert MoveBlock(doc, Selection(Position(1, 0), Position(2, 1)), Up, false, 2, 2) ==
      Some(Moved(Rearrange(doc, Up, 1, 2, ReindentLines(doc[1..3], -2, false)), Shifted(Selection(Position(1, 0), Position(2, 1)), Up)));
    KeepsTextBlock();
    var sel := Selection(Position(1, 0), Position(2, 1));
    assert Start(sel) == sel.anchor && End(sel) == sel.active;
    assert Shifted(sel, Up) == Selection(Position(0, 0), Position(1, 1));
    assert Rearrange(doc, Up, 1, 2, [[DASH, SPACE, 0x62], doc[2]]) == [[DASH, SPACE, 0x62], doc[2]] + [doc[0]] + [[]];
    assert [[DASH, SPACE, 0x62], doc[2]] + [doc[0]] + [[]] == [[DASH, SPACE, 0x62], doc[2], doc[0], []];
  }

  /** A run of child lines that ends where a line is not a child is the block. */
  lemma {:induction false} BlockEndStops(doc: Doc, endLine: nat, indent: nat, b: nat)
    requires endLine <= b < |doc|
    requires forall k :: endLine < k <= b ==> IsChild(doc[k], indent)
    requires b == |doc| - 1 || !IsChild(doc[b + 1], indent)
    ensures BlockEnd(doc, endLine, indent) == b
    decreases b - endLine
  {
    if endLine < b {
      assert IsChild(doc[endLine + 1], indent);
      BlockEndStops(doc, endLine + 1, indent, b);
    }
  }

  /** A zero indent change leaves the lines as they are. */
  lemma ReindentNone(lines: seq<Str>)
    ensures ReindentLines(lines, 0, false) == lines
  {
  }

  /** The document after moving the block of lines `s..b` up past line `s - 1` unchanged. */
  lemma UpArrangement(doc: Doc, s: nat, b: nat)
    requires 0 < s <= b && b + 1 < |doc|
    ensures var d := Rearrange(doc, Up, s, b, doc[s..b + 1]);
      |d| == |doc| && d[..s - 1] == doc[..s - 1] && d[s - 1..b] == doc[s..b + 1] &&
      d[b] == doc[s - 1] && d[b + 1..] == doc[b + 1..] &&
      forall k :: s - 1 <= k < b ==> d[k] == doc[k + 1]
  {
    var d := Rearrange(doc, Up, s, b, doc[s..b + 1]);
    assert d == doc[..s - 1] + doc[s..b + 1] + [doc[s - 1]] + doc[b + 1..];
  }

  /** Moving the restored block down again from its raised place puts line `s - 1` back above it. */
  lemma DownArrangement(doc: Doc, d: Doc, s: nat, b: nat)
    requires 0 < s <= b && b + 1 < |doc| && |d| == |doc|
    requires d[..s - 1] == doc[..s - 1] && d[s - 1..b] == doc[s..b + 1] && d[b] == doc[s - 1] && d[b + 1..] == doc[b + 1..]
    ensures Rearrange(d, Down, s - 1, b - 1, d[s - 1..b]) == doc
  {
    assert Rearrange(d, Down, s - 1, b - 1, d[s - 1..b]) == doc[..s - 1] + [doc[s - 1]] + doc[s..b + 1] + doc[b + 1..];
    assert doc[..s - 1] + [doc[s - 1]] + doc[s..b + 1] + doc[b + 1..] == doc[..s - 1] + doc[s - 1..b + 1] + doc[b + 1..];
  }

  /** The conditions of the round trip below: away from the edges, no indent change, and a passed line that is no child. */
  predicate Reversible(doc: Doc, sel: Selection)
    requires End(sel).line < |doc|
  {
    var s := Start(sel).line; var c := IndentLength(doc[s]);
    s > 0 && BlockEnd(doc, End(sel).line, c) + 1 < |doc| && !IsChild(doc[s - 1], c) && IndentChange(doc, s - 1, c) == 0
  }

  /** Under those conditions the move up takes the block of lines `s..b` unchanged above the line it passes. */
  lemma UpUnchanged(doc: Doc, sel: Selection, s: nat, b: nat)
    requires End(sel).line < |doc| && Reversible(doc, sel)
    requires s == Start(sel).line && b == BlockEnd(doc, End(sel).line, IndentLength(doc[s]))
    ensures MoveLines(doc, sel, Up) == Some(Moved(Rearrange(doc, Up, s, b, doc[s..b + 1]), Shifted(sel, Up)))
  {
    var c := IndentLength(doc[s]);
    MoveWithBlock(doc, sel, Up, false, b, c);
    MoveBlockIs(doc, sel, Up, false, b, c, s - 1, 0, doc[s..b + 1]);
    ReindentNone(doc[s..b + 1]);
  }

  /** Moving the raised block down again restores the document and the selection. */
  lemma DownRestores(doc: Doc, sel: Selection, s: nat, b: nat, d: Doc, raised: Selection)
    requires End(sel).line < |doc| && Reversible(doc, sel)
    requires s == Start(sel).line && b == BlockEnd(doc, End(sel).line, IndentLength(doc[s]))
    requires d == Rearrange(doc, Up, s, b, doc[s..b + 1]) && raised == Shifted(sel, Up)
    ensures End(raised).line < |d|
    ensures MoveLines(d, raised, Down) == Some(Moved(doc, Selection(Start(sel), End(sel))))
  {
    RaisedShape(doc, sel, s, b, d, raised);
    RaisedMoveLines(doc, sel, s, b, d, raised);
  }

  lemma RaisedMoveLines(doc: Doc, sel: Selection, s: nat, b: nat, d: Doc, raised: Selection)
    requires End(sel).line < |doc| && Reversible(doc, sel)
    requires s == Start(sel).line && b == BlockEnd(doc, End(sel).line, IndentLength(doc[s]))
    requires d == Rearrange(doc, Up, s, b, doc[s..b + 1]) && raised == Shifted(sel, Up)
    requires var c := IndentLength(doc[s]);
      |d| == |doc| && Start(raised).line == s - 1 && End(raised).line < |doc| - 1 &&
      IndentLength(d[s - 1]) == c && BlockEnd(d, End(raised).line, c) == b - 1
    ensures MoveLines(d, raised, Down) == Some(Moved(doc, Selection(Start(sel), End(sel))))
  {
    RaisedMove(doc, sel, s, b, d, raised);
    MoveBlockDown(d, raised, b - 1, IndentLength(doc[s]), Some(Moved(doc, Selection(Start(sel), End(sel)))));
  }

  /** The raised block starts one line higher, keeps its indent, and still ends where its child lines end. */
  lemma RaisedShape(doc: Doc, sel: Selection, s: nat, b: nat, d: Doc, raised: Selection)
    requires End(sel).line < |doc| && Reversible(doc, sel)
    requires s == Start(sel).line && b == BlockEnd(doc, End(sel).line, IndentLength(doc[s]))
    requires d == Rearrange(doc, Up, s, b, doc[s..b + 1]) && raised == Shifted(sel, Up)
    ensures var c := IndentLength(doc[s]);
      |d| == |doc| && Start(raised).line == s - 1 && End(raised).line < |doc| - 1 &&
      IndentLength(d[s - 1]) == c && BlockEnd(d, End(raised).line, c) == b - 1
  {
    var e := End(sel).line;
    var c := IndentLength(doc[s]);
    BlockEndRun(doc, e, c);
    UpArrangement(doc, s, b);
    assert Start(raised) == Position(s - 1, Start(sel).character);
    assert End(raised) == Position(e - 1, End(sel).character);
    assert d[s - 1] == doc[s];
    var lowered := End(raised).line;
    assert lowered == e - 1;
    forall k | lowered < k <= b - 1 ensures IsChild(d[k], c) {
      assert d[k] == doc[k + 1];
    }
    BlockEndStops(d, lowered, c, b - 1);
  }

  /** Moving the raised block down, with the block it was found to have, gives back the document and the selection. */
  lemma RaisedMove(doc: Doc, sel: Selection, s: nat, b: nat, d: Doc, raised: Selection)
    requires End(sel).line < |doc| && Reversible(doc, sel)
    requires s == Start(sel).line && b == BlockEnd(doc, End(sel).line, IndentLength(doc[s]))
    requires d == Rearrange(doc, Up, s, b, doc[s..b + 1]) && raised == Shifted(sel, Up)
    requires |d| == |doc| && Start(raised).line == s - 1 && End(raised).line < |doc| - 1
    ensures MoveBlock(d, raised, Down, false, b - 1, IndentLength(doc[s])) == Some(Moved(doc, Selection(Start(sel), End(sel))))
  {
    var c := IndentLength(doc[s]);
    BlockEndRun(doc, End(sel).line, c);
    UpArrangement(doc, s, b);
    assert IndentChange(d, b, c) == 0;
    assert Shifted(raised, Down) == Selection(Start(sel), End(sel));
    DownAgain(doc, d, raised, s, b, c, Selection(Start(sel), End(sel)));
  }

  /** Moving down a block whose lines were raised past line `s - 1`, with no indent change, puts that line back. */
  lemma DownAgain(doc: Doc, d: Doc, raised: Selection, s: nat, b: nat, c: nat, back: Selection)
    requires 0 < s <= b && b + 1 < |doc| && |d| == |doc|
    requires d[..s - 1] == doc[..s - 1] && d[s - 1..b] == doc[s..b + 1] && d[b] == doc[s - 1] && d[b + 1..] == doc[b + 1..]
    requires Start(raised).line == s - 1 && IndentChange(d, b, c) == 0 && Shifted(raised, Down) == back
    ensures MoveBlock(d, raised, Down, false, b - 1, c) == Some(Moved(doc, back))
  {
    MoveBlockIs(d, raised, Down, false, b - 1, c, b, 0, d[s - 1..b]);
    ReindentNone(d[s - 1..b]);
    DownArrangement(doc, d, s, b);
  }

  /**
   * Moving a block up and then down again restores the document and the
   * selection, when the move changes no indent, the line passed is not
   * deeper than the block's first line and the block does not reach the
   * last line.
   */
  lemma MoveUpThenDown(doc: Doc, sel: Selection)
    requires End(sel).line < |doc| && Reversible(doc, sel)
    ensures MoveLines(doc, sel, Up).Some?
    ensures var up := MoveLines(doc, sel, Up).value;
      End(up.selection).line < |up.doc| &&
      MoveLines(up.doc, up.selection, Down) == Some(Moved(doc, Selection(Start(sel), End(sel))))
  {
    var s := Start(sel).line;
    var b := BlockEnd(doc, End(sel).line, IndentLength(doc[s]));
    UpUnchanged(doc, sel, s, b);
    DownRestores(doc, sel, s, b, Rearrange(doc, Up, s, b, doc[s..b + 1]), Shifted(sel, Up));
  }

  /** Going down, a move whose block is known gives what `MoveBlock` gives. */
  lemma MoveBlockDown(doc: Doc, sel: Selection, blockEnd: nat, current: nat, r: Option<Moved>)
    requires End(sel).line < |doc| - 1
    requires current == IndentLength(doc[Start(sel).line]) && blockEnd == BlockEnd(doc, End(sel).line, current)
    requires MoveBlock(doc, sel, Down, false, blockEnd, current) == r
    ensures MoveLines(doc, sel, Down) == r
  {
    MoveWithBlock(doc, sel, Down, false, blockEnd, current);
  }

  /**
   * The move does nothing exactly at the top of the document going up, and
   * going down when the block, child lines included, reaches the last line.
   */
  lemma MoveNone(doc: Doc, sel: Selection, dir: Direction)
    requires End(sel).line < |doc|
    ensures MoveLines(doc, sel, dir).None? <==>
      (dir == Up && Start(sel).line == 0) ||
      (dir == Down && BlockEnd(doc, End(sel).line, IndentLength(doc[Start(sel).line])) == |doc| - 1)
  {
    var s, e := Start(sel).line, End(sel).line;
    var c := IndentLength(doc[s]);
    var b := BlockEnd(doc, e, c);
    if !((dir == Up && s == 0) || (dir == Down && e == |doc| - 1)) {
      MoveWithBlock(doc, sel, dir, false, b, c);
    }
  }
}
