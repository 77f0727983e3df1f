/**
 * The staged Shift+Cmd+Left selection of src/extension-obsidian.js: the
 * content after the leading element, then the line after its indent, then
 * the run of list items and headings around it at the same indent.
 */
module ObsidianSelect {
  import opened Text
  import opened Selections
  import opened ObsidianLines

  /** `^\s*[-*+\d]|^\s*-\s\[|^#{1,6}\s`; the middle alternative only matches where the first does. */
  predicate HierarchyLine(s: Str) {
    var n := IndentLength(s);
    var h := RunEnd(s, 0, Hash);
    (n < |s| && (IsBulletMarker(s[n]) || IsDigit(s[n]))) || (1 <= h <= 6 && h < |s| && IsWhitespace(s[h]))
  }

  /** A line the hierarchy stage takes in: not blank, at the indent of the cursor line, and an item or heading. */
  predicate SameLevel(s: Str, indent: nat) {
    Trim(s) != [] && IndentLength(s) == indent && HierarchyLine(s)
  }

  /** The first line of the run of same-level lines that ends at line `i`. */
  function HierStart(doc: Doc, i: nat, indent: nat): (s: nat)
    requires i < |doc|
    ensures s <= i
    decreases i
  {
    if i > 0 && SameLevel(doc[i - 1], indent) then HierStart(doc, i - 1, indent) else i
  }

  /** The last line of the run of same-level lines that starts at line `i`. */
  function HierEnd(doc: Doc, i: nat, indent: nat): (e: nat)
    requires i < |doc|
    ensures i <= e < |doc|
    decreases |doc| - i
  {
    if i + 1 < |doc| && SameLevel(doc[i + 1], indent) then HierEnd(doc, i + 1, indent) else i
  }

  /** The run above reaches back to the first line that is not at the same level, or to the top. */
  lemma {:induction false} HierStartRun(doc: Doc, i: nat, indent: nat)
    requires i < |doc|
    ensures var s := HierStart(doc, i, indent);
      (forall k :: s <= k < i ==> SameLevel(doc[k], indent)) && (s == 0 || !SameLevel(doc[s - 1], indent))
    decreases i
  {
    if i > 0 && SameLevel(doc[i - 1], indent) {
      HierStartRun(doc, i - 1, indent);
    }
  }

  /** The run below reaches on to the first line that is not at the same level, or to the bottom. */
  lemma {:induction false} HierEndRun(doc: Doc, i: nat, indent: nat)
    requires i < |doc|
    ensures var e := HierEnd(doc, i, indent);
      (forall k :: i < k <= e ==> SameLevel(doc[k], indent)) && (e == |doc| - 1 || !SameLevel(doc[e + 1], indent))
    decreases |doc| - i
  {
    if i + 1 < |doc| && SameLevel(doc[i + 1], indent) {
      HierEndRun(doc, i + 1, indent);
    }
  }

  /** The upward loop of the hierarchy stage. */
  method ScanUp(doc: Doc, line: nat, indent: nat) returns (startLine: nat)
    requires line < |doc|
    ensures startLine == HierStart(doc, line, indent)
  {
    startLine := line;
    var i := line as int - 1;
    while i >= 0
      invariant -1 <= i < line && startLine == i + 1
      invariant HierStart(doc, line, indent) == HierStart(doc, startLine, indent)
    {
      var lineText := doc[i];
      if Trim(lineText) == [] {
        break;
      }
      var lineIndent := IndentLength(lineText);
      if lineIndent != indent {
        break;
      }
      if HierarchyLine(lineText) {
        startLine := i;
      } else {
        break;
      }
      i := i - 1;
    }
  }

  /** The downward loop of the hierarchy stage. */
  method ScanDown(doc: Doc, line: nat, indent: nat) returns (endLine: nat)
    requires line < |doc|
    ensures endLine == HierEnd(doc, line, indent)
  {
    endLine := line;
    var i := line + 1;
    while i < |doc|
      invariant line < i <= |doc| && endLine == i - 1
      invariant HierEnd(doc, line, indent) == HierEnd(doc, endLine, indent)
    {
      var lineText := doc[i];
      if Trim(lineText) == [] {
        break;
      }
      var lineIndent := IndentLength(lineText);
      if lineIndent != indent {
        break;
      }
      if HierarchyLine(lineText) {
        endLine := i;
      } else {
        break;
      }
      i := i + 1;
    }
  }

  /** The early return: a checkbox or bullet element with nothing but white space after it. */
  predicate EmptiedElement(text: Str) {
    HeadingEnd(text).None? &&
    (BoxPrefixEnd(text).Some? || (OrderedEnd(text).None? && BulletEnd(text).Some?)) &&
    Trim(text[ContentStart(text)..]) == []
  }

  /** The selection of the hierarchy stage: from the start of its first line to the end of its last, the cursor at the top. */
  function HierarchySelection(doc: Doc, line: nat, indent: nat): Selection
    requires line < |doc|
  {
    var s, e := HierStart(doc, line, indent), HierEnd(doc, line, indent);
    Selection(Position(e, |doc[e]|), Position(s, 0))
  }

  /** The selection after one Shift+Cmd+Left. */
  function SelectLeft(doc: Doc, sel: Selection): Selection
    requires sel.active.line < |doc|
  {
    var line := sel.active.line;
    var text := doc[line];
    var cs := ContentStart(text);
    var indent := IndentLength(text);
    if EmptiedElement(text) then OnLine(line, |text|, indent)
    else if !IsEmpty(sel) && Start(sel).character == cs && End(sel).character == |text| then OnLine(line, |text|, indent)
    else if !IsEmpty(sel) && Start(sel).character == indent && End(sel).character == |text| then HierarchySelection(doc, line, indent)
    else OnLine(line, |text|, cs)
  }

  /** `obsidianMarkdown.smartSelectLeft`. */
  method SmartSelectLeft(doc: Doc, sel: Selection) returns (r: Selection)
    requires sel.active.line < |doc|
    ensures r == SelectLeft(doc, sel)
  {
    var line := sel.active.line;
    var text := doc[line];
    var contentStart := ContentStart(text);
    if EmptiedElement(text) {
      return OnLine(line, |text|, IndentLength(text));
    }
    var currentStart, currentEnd := Start(sel).character, End(sel).character;
    var lineIndent := IndentLength(text);
    if !IsEmpty(sel) && currentStart == contentStart && currentEnd == |text| {
      r := OnLine(line, |text|, lineIndent);
    } else if !IsEmpty(sel) && currentStart == lineIndent && currentEnd == |text| {
      var startLine := ScanUp(doc, line, lineIndent);
      var endLine := ScanDown(doc, line, lineIndent);
      r := Selection(Position(endLine, |doc[endLine]|), Position(startLine, 0));
    } else {
      r := OnLine(line, |text|, contentStart);
    }
  }

  /**
   * From a caret on a line whose element leaves text after it and sits
   * after its indent, three presses select the content, then the line
   * after its indent, then the run of same-level items around the line
   * (which `HierarchyStage` describes).
   */
  lemma SelectLeftStages(doc: Doc, p: Position)
    requires p.line < |doc|
    requires var text := doc[p.line];
      !EmptiedElement(text) && IndentLength(text) < ContentStart(text) < |text|
    ensures var text := doc[p.line];
      var first := SelectLeft(doc, Caret(p));
      first == OnLine(p.line, |text|, ContentStart(text)) &&
      SelectLeft(doc, first) == OnLine(p.line, |text|, IndentLength(text))
    ensures var text := doc[p.line]; var indent := IndentLength(text);
      SelectLeft(doc, OnLine(p.line, |text|, indent)) == HierarchySelection(doc, p.line, indent)
  {
  }

  /**
   * The hierarchy selection runs from the start of line `s` to the end of
   * line `e` around the line: every other line in between is at the same
   * level, and neither line next to the run is.
   */
  lemma HierarchyStage(doc: Doc, line: nat, indent: nat)
    requires line < |doc|
    ensures var s, e := HierStart(doc, line, indent), HierEnd(doc, line, indent);
      HierarchySelection(doc, line, indent) == Selection(Position(e, |doc[e]|), Position(s, 0)) &&
      s <= line <= e &&
      (forall k :: s <= k < line ==> SameLevel(doc[k], indent)) &&
      (forall k :: line < k <= e ==> SameLevel(doc[k], indent)) &&
      (s == 0 || !SameLevel(doc[s - 1], indent)) &&
      (e == |doc| - 1 || !SameLevel(doc[e + 1], indent))
  {
    HierStartRun(doc, line, indent);
    HierEndRun(doc, line, indent);
  }

  /**
   * When the element ends where the indent does (a line with no element
   * and no indent, say), the content selection is also the line selection,
   * so further presses keep it and never reach the hierarchy stage.
   */
  lemma SelectLeftFixedPoint(doc: Doc, line: nat)
    requires line < |doc| && ContentStart(doc[line]) == IndentLength(doc[line])
    ensures var text := doc[line]; var sel := OnLine(line, |text|, ContentStart(text));
      SelectLeft(doc, sel) == sel
  {
  }

  /** On an emptied checkbox or bullet every press selects from the indent to the end of the line. */
  lemma SelectLeftEmptied(doc: Doc, sel: Selection)
    requires sel.active.line < |doc| && EmptiedElement(doc[sel.active.line])
    ensures var text := doc[sel.active.line];
      SelectLeft(doc, sel) == OnLine(sel.active.line, |text|, IndentLength(text)) &&
      IndentLength(text) <= ContentStart(text) && AllWhitespace(text[ContentStart(text)..])
  {
    var text := doc[sel.active.line];
    TrimParts(text[ContentStart(text)..]);
  }
}
