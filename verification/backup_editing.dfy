/**
 * The two selection commands of src/extension-obsidian-backup.js:
 * `smartSelectLeft`, which widens a list item's selection stage by stage
 * (text, then marker and text, then the whole line, then a caret at the
 * line start), and `smartSelectAll`, which selects the inside of the
 * fenced code block around the cursor and, on a second press, the whole
 * document.
 */
module BackupEditing {
  import opened Text
  import opened Selections
  import ObsidianLines
  import ObsidianFences

  // ---------------------------------------------------------------------
  // The three item patterns of smartSelectLeft
  // ---------------------------------------------------------------------

  /** `^(\s*)(-\s+)`: a dash followed by white space, the run taken whole. */
  function DashEnd(s: Str): Option<nat> {
    var n := IndentLength(s);
    if n < |s| && s[n] == DASH then
      var w := RunEnd(s, n + 1, Whitespace);
      if n + 1 < w then Some(w) else None
    else None
  }

  /**
   * The end of the item prefix: the checkbox pattern
   * `^(\s*)(-\s\[[\sx]?\]\s*)` (with the `i` flag) first, then the dash
   * pattern, then `^(\s*)(\d+\.\s+)`.
   */
  function PrefixEnd(s: Str): Option<nat> {
    if ObsidianLines.BoxPrefixEnd(s).Some? then ObsidianLines.BoxPrefixEnd(s)
    else if DashEnd(s).Some? then DashEnd(s)
    else ObsidianLines.OrderedEnd(s)
  }

  /** The units from `i` up to `e` are all white space. */
  predicate BlankFrom(s: Str, i: nat, e: nat)
    requires i <= e <= |s|
  {
    forall k :: i <= k < e ==> IsWhitespace(s[k])
  }

  /** A greedy white-space run stops at `e`: nothing or a non-space unit follows. */
  predicate StopsAt(s: Str, e: nat)
    requires e <= |s|
  {
    e == |s| || !IsWhitespace(s[e])
  }

  /** `-\s\[[\sx]?\]\s*` matched from `n` to `e`, read off the pattern directly. */
  predicate BoxShape(s: Str, n: nat, e: nat) {
    n + 4 <= e <= |s| && s[n] == DASH && IsWhitespace(s[n + 1]) && s[n + 2] == LBRACKET &&
    ((s[n + 3] == RBRACKET && BlankFrom(s, n + 4, e)) ||
     (n + 5 <= e && ObsidianLines.IsBoxFill(s[n + 3]) && s[n + 4] == RBRACKET && BlankFrom(s, n + 5, e))) &&
    StopsAt(s, e)
  }

  /** `-\s+` matched from `n` to `e`. */
  predicate DashShape(s: Str, n: nat, e: nat) {
    n + 2 <= e <= |s| && s[n] == DASH && BlankFrom(s, n + 1, e) && StopsAt(s, e)
  }

  /** `\d+\.\s+` matched from `n` to `e`, the digits ending at `d`. */
  predicate NumberShape(s: Str, n: nat, d: nat, e: nat) {
    n < d && d + 2 <= e <= |s| && (forall k :: n <= k < d ==> IsDigit(s[k])) &&
    s[d] == DOT && BlankFrom(s, d + 1, e) && StopsAt(s, e)
  }

  /** The checkbox pattern matches, after the indent, exactly up to `e`. */
  lemma BoxPrefixEndExact(s: Str, e: nat)
    ensures ObsidianLines.BoxPrefixEnd(s) == Some(e) <==> BoxShape(s, IndentLength(s), e)
  {
    var n := IndentLength(s);
    if BoxShape(s, n, e) {
      if s[n + 3] == RBRACKET {
        RunEndIs(s, n + 4, e, Whitespace);
      } else {
        RunEndIs(s, n + 5, e, Whitespace);
      }
    }
  }

  /** The dash pattern matches, after the indent, exactly up to `e`. */
  lemma DashEndExact(s: Str, e: nat)
    ensures DashEnd(s) == Some(e) <==> DashShape(s, IndentLength(s), e)
  {
    var n := IndentLength(s);
    if DashShape(s, n, e) {
      RunEndIs(s, n + 1, e, Whitespace);
    }
  }

  /** The numbered pattern matches, after the indent, exactly up to `e`. */
  lemma OrderedEndExact(s: Str, e: nat)
    ensures ObsidianLines.OrderedEnd(s) == Some(e) <==> exists d :: NumberShape(s, IndentLength(s), d, e)
  {
    var n := IndentLength(s);
    if ObsidianLines.OrderedEnd(s) == Some(e) {
      assert NumberShape(s, n, RunEnd(s, n, Digit), e);
    }
    if d: nat :| NumberShape(s, n, d, e) {
      RunEndIs(s, n, d, Digit);
      RunEndIs(s, d + 1, e, Whitespace);
    }
  }

  /**
   * A matched prefix starts after the indent with `-` or a digit and ends
   * at least two units later, where its white space stops.
   */
  lemma PrefixEndBounds(s: Str)
    requires PrefixEnd(s).Some?
    ensures var n, e := IndentLength(s), PrefixEnd(s).value;
      n + 2 <= e <= |s| && (s[n] == DASH || IsDigit(s[n])) && StopsAt(s, e)
  {
  }

  // ---------------------------------------------------------------------
  // smartSelectLeft
  // ---------------------------------------------------------------------

  /**
   * The stage choice on a line of length `len` whose item prefix ends at
   * `prefixEnd` after an indent of `indent` units: the characters of the
   * selection's start and end decide, as in the source.
   */
  function Stage(line: nat, len: nat, indent: nat, prefixEnd: nat, sel: Selection): Selection {
    var currentSelStart, currentSelEnd := Start(sel).character, End(sel).character;
    if IsEmpty(sel) then OnLine(line, prefixEnd, len)
    else if currentSelStart == prefixEnd && currentSelEnd == len then OnLine(line, indent, len)
    else if currentSelStart == indent && currentSelEnd == len then OnLine(line, 0, len)
    else if currentSelStart == 0 && currentSelEnd == len then Caret(Position(line, 0))
    else OnLine(line, prefixEnd, len)
  }

  /**
   * `obsidianMarkdown.smartSelectLeft`: the next selection on an item line,
   * or `None` on any other line, where the host's `cursorLineStartSelect`
   * runs instead.
   */
  function SelectLeft(doc: Doc, sel: Selection): Option<Selection>
    requires sel.active.line < |doc|
  {
    var line := sel.active.line;
    var text := doc[line];
    match PrefixEnd(text)
    case Some(prefixEnd) => Some(Stage(line, |text|, IndentLength(text), prefixEnd, sel))
    case None => None
  }

  /**
   * The command falls back to the host exactly on lines no item pattern
   * matches; otherwise the new selection lies on the cursor line, runs to
   * its end or is the caret at its start, and begins at the line start, the
   * indent or the prefix end.
   */
  lemma SelectLeftShape(doc: Doc, sel: Selection)
    requires sel.active.line < |doc|
    ensures var text := doc[sel.active.line]; var r := SelectLeft(doc, sel);
      (r.None? <==> PrefixEnd(text).None?) &&
      (r.Some? ==>
        r.value.anchor.line == r.value.active.line == sel.active.line &&
        (r.value.active.character == |text| || r.value == Caret(Position(sel.active.line, 0))) &&
        r.value.anchor.character in {0, IndentLength(text), PrefixEnd(text).value})
  {
  }

  /**
   * On an item line with an indent and text after the prefix, four presses
   * from any caret on the line go text, marker and text, whole line, caret
   * at the line start, and the fifth starts the round again.
   */
  lemma {:induction false} SelectLeftCycle(doc: Doc, p: Position)
    requires p.line < |doc|
    requires var text := doc[p.line];
      PrefixEnd(text).Some? && PrefixEnd(text).value < |text| && 0 < IndentLength(text)
    ensures var text := doc[p.line]; var line := p.line;
      var indent, prefixEnd := IndentLength(text), PrefixEnd(text).value;
      var first := OnLine(line, prefixEnd, |text|);
      var second := OnLine(line, indent, |text|);
      var third := OnLine(line, 0, |text|);
      var fourth := Caret(Position(line, 0));
      SelectLeft(doc, Caret(p)) == Some(first) &&
      SelectLeft(doc, first) == Some(second) &&
      SelectLeft(doc, second) == Some(third) &&
      SelectLeft(doc, third) == Some(fourth) &&
      SelectLeft(doc, fourth) == Some(first)
  {
    PrefixEndBounds(doc[p.line]);
  }

  /**
   * Without an indent the marker-and-text selection is already the whole
   * line, the indent stage is tried before the whole-line stage, and so the
   * selection stays there and the caret stage is never reached.
   */
  lemma {:induction false} SelectLeftNoIndent(doc: Doc, line: nat)
    requires line < |doc|
    requires var text := doc[line];
      PrefixEnd(text).Some? && PrefixEnd(text).value < |text| && IndentLength(text) == 0
    ensures var text := doc[line]; var whole := OnLine(line, 0, |text|);
      SelectLeft(doc, OnLine(line, PrefixEnd(text).value, |text|)) == Some(whole) &&
      SelectLeft(doc, whole) == Some(whole)
  {
    PrefixEndBounds(doc[line]);
  }

  /**
   * On an item with nothing after its prefix (`- [ ] `, say) the first
   * stage is the empty selection at the line end, so every press from an
   * empty selection lands there again.
   */
  lemma {:induction false} SelectLeftBareItem(doc: Doc, p: Position)
    requires p.line < |doc|
    requires var text := doc[p.line]; PrefixEnd(text) == Some(|text|)
    ensures var text := doc[p.line]; var stuck := Caret(Position(p.line, |text|));
      SelectLeft(doc, Caret(p)) == Some(stuck) && SelectLeft(doc, stuck) == Some(stuck)
  {
  }

  /** A selection that matches no stage goes back to the text after the prefix. */
  lemma SelectLeftOther(doc: Doc, sel: Selection)
    requires sel.active.line < |doc|
    requires var text := doc[sel.active.line];
      (PrefixEnd(text).Some? && !IsEmpty(sel) &&
       !(End(sel).character == |text| && Start(sel).character in {0, IndentLength(text), PrefixEnd(text).value}))
    ensures var text := doc[sel.active.line];
      SelectLeft(doc, sel) == Some(OnLine(sel.active.line, PrefixEnd(text).value, |text|))
  {
  }

  // ---------------------------------------------------------------------
  // smartSelectAll
  // ---------------------------------------------------------------------

  /** The nearest line at or above line `i` that starts with "```". */
  function FenceAbove(doc: Doc, i: nat): (r: Option<nat>)
    requires i < |doc|
    ensures r.Some? ==> r.value <= i
  {
    if ObsidianFences.IsFenceLine(doc[i]) then Some(i)
    else if i == 0 then None
    else FenceAbove(doc, i - 1)
  }

  /** The first line from line `j` on that lies below line `start` and starts with "```". */
  function FenceBelow(doc: Doc, j: nat, start: nat): (r: Option<nat>)
    requires j <= |doc|
    ensures r.Some? ==> j <= r.value < |doc| && start < r.value
    decreases |doc| - j
  {
    if j == |doc| then None
    else if start < j && ObsidianFences.IsFenceLine(doc[j]) then Some(j)
    else FenceBelow(doc, j + 1, start)
  }

  /** The nearest fence line at or above is found, and no fence line lies between it and line `i`. */
  lemma {:induction false} FenceAboveMeaning(doc: Doc, i: nat)
    requires i < |doc|
    ensures match FenceAbove(doc, i)
      case Some(s) =>
        ObsidianFences.IsFenceLine(doc[s]) && forall k :: s < k <= i ==> !ObsidianFences.IsFenceLine(doc[k])
      case None => forall k :: 0 <= k <= i ==> !ObsidianFences.IsFenceLine(doc[k])
    decreases i
  {
    if !ObsidianFences.IsFenceLine(doc[i]) && i > 0 {
      FenceAboveMeaning(doc, i - 1);
    }
  }

  /** The first fence line below `start` from line `j` on is found, and none lies before it. */
  lemma {:induction false} FenceBelowMeaning(doc: Doc, j: nat, start: nat)
    requires j <= |doc|
    ensures match FenceBelow(doc, j, start)
      case Some(e) =>
        ObsidianFences.IsFenceLine(doc[e]) && forall k :: j <= k < e && start < k ==> !ObsidianFences.IsFenceLine(doc[k])
      case None => forall k :: j <= k < |doc| && start < k ==> !ObsidianFences.IsFenceLine(doc[k])
    decreases |doc| - j
  {
    if j < |doc| && !(start < j && ObsidianFences.IsFenceLine(doc[j])) {
      FenceBelowMeaning(doc, j + 1, start);
    }
  }

  /** What Cmd+A does. */
  datatype SelectAllResult =
    | Select(selection: Selection)  // the new editor selection
    | Keep                          // an empty block: the selection is left as it is
    | HostSelectAll                 // outside a block: the host's `editor.action.selectAll` runs

  /** The whole document, from its first unit to the end of its last line. */
  function WholeDocument(doc: Doc): Selection
    requires doc != []
  {
    Selection(Position(0, 0), Position(|doc| - 1, |doc[|doc| - 1]|))
  }

  /** The lines strictly between the fence lines `s` and `e`, from the start of the first to the end of the last. */
  function Inside(doc: Doc, s: nat, e: nat): Selection
    requires s + 1 < e < |doc|
  {
    Selection(Position(s + 1, 0), Position(e - 1, |doc[e - 1]|))
  }

  /** The result of `obsidianMarkdown.smartSelectAll`. */
  function SelectAll(doc: Doc, sel: Selection): SelectAllResult
    requires sel.active.line < |doc|
  {
    var line := sel.active.line;
    match FenceAbove(doc, line)
    case None => HostSelectAll
    case Some(s) =>
      match FenceBelow(doc, line, s)
      case None => HostSelectAll
      case Some(e) =>
        if Start(sel).line == s + 1 && End(sel).line == e - 1 && End(sel).character == |doc[e - 1]| then
          Select(WholeDocument(doc))
        else if s + 1 <= e - 1 then Select(Inside(doc, s, e))
        else Keep
  }

  /** `smartSelectAll`: the upward search for a fence, the downward search for its partner, and the choice. */
  method SmartSelectAll(doc: Doc, sel: Selection) returns (r: SelectAllResult)
    requires sel.active.line < |doc|
    ensures r == SelectAll(doc, sel)
  {
    var position := sel.active;
    var inCodeBlock := false;
    var codeBlockStart: int := -1;
    var codeBlockEnd: int := -1;
    var i: int := position.line;
    while i >= 0
      invariant -1 <= i <= position.line
      invariant !inCodeBlock && codeBlockStart == -1
      invariant FenceAbove(doc, position.line) == if i < 0 then None else FenceAbove(doc, i)
    {
      if StartsWith(doc[i], FENCE) {
        codeBlockStart := i;
        var j := position.line;
        while j < |doc|
          invariant position.line <= j <= |doc|
          invariant !inCodeBlock
          invariant FenceBelow(doc, position.line, i) == FenceBelow(doc, j, i)
        {
          if j > codeBlockStart && StartsWith(doc[j], FENCE) {
            codeBlockEnd := j;
            inCodeBlock := true;
            break;
          }
          j := j + 1;
        }
        break;
      }
      i := i - 1;
    }

    if inCodeBlock && codeBlockStart >= 0 && codeBlockEnd >= 0 {
      var blockStartLine, blockEndLine := codeBlockStart, codeBlockEnd;
      var isCodeContentSelected :=
        Start(sel).line == blockStartLine + 1 &&
        End(sel).line == blockEndLine - 1 &&
        End(sel).character == |doc[blockEndLine - 1]|;
      if isCodeContentSelected {
        r := Select(Selection(Position(0, 0), Position(|doc| - 1, |doc[|doc| - 1]|)));
      } else {
        var contentStartLine, contentEndLine := blockStartLine + 1, blockEndLine - 1;
        if contentStartLine <= contentEndLine {
          r := Select(Selection(Position(contentStartLine, 0), Position(contentEndLine, |doc[contentEndLine]|)));
        } else {
          r := Keep;
        }
      }
    } else {
      r := HostSelectAll;
    }
  }

  /**
   * The block the command finds: two fence lines `s` and `e` with the
   * cursor on the first or between them, and no fence line in between.
   */
  lemma BlockAround(doc: Doc, line: nat)
    requires line < |doc| && FenceAbove(doc, line).Some?
    requires FenceBelow(doc, line, FenceAbove(doc, line).value).Some?
    ensures var s := FenceAbove(doc, line).value; var e := FenceBelow(doc, line, s).value;
      s <= line < e < |doc| &&
      ObsidianFences.IsFenceLine(doc[s]) && ObsidianFences.IsFenceLine(doc[e]) &&
      forall k :: s < k < e ==> !ObsidianFences.IsFenceLine(doc[k])
  {
    var s := FenceAbove(doc, line).value;
    FenceAboveMeaning(doc, line);
    FenceBelowMeaning(doc, line, s);
  }

  /**
   * The host's select-all runs exactly when no fence line lies at or above
   * the cursor line with another one below it: "inside a block" means
   * between two fence lines, whichever block they belong to.
   */
  lemma SelectAllFallsBack(doc: Doc, sel: Selection)
    requires sel.active.line < |doc|
    ensures var line := sel.active.line;
      SelectAll(doc, sel) == HostSelectAll <==>
      !exists s, e :: 0 <= s <= line < e < |doc| &&
        ObsidianFences.IsFenceLine(doc[s]) && ObsidianFences.IsFenceLine(doc[e])
  {
    var line := sel.active.line;
    FenceAboveMeaning(doc, line);
    match FenceAbove(doc, line)
    case None =>
    case Some(s) =>
      FenceBelowMeaning(doc, line, s);
      if FenceBelow(doc, line, s).Some? {
        BlockAround(doc, line);
      } else {
        forall s', e | 0 <= s' <= line < e < |doc| && ObsidianFences.IsFenceLine(doc[s'])
          ensures !ObsidianFences.IsFenceLine(doc[e])
        {
          assert s' <= s;
        }
      }
  }

  /**
   * Inside a block, a first press selects the lines between its fences,
   * none of which is a fence line, or keeps the selection when there are
   * none.
   */
  lemma SelectAllFirst(doc: Doc, sel: Selection)
    requires sel.active.line < |doc| && SelectAll(doc, sel) != HostSelectAll
    requires var r := SelectAll(doc, sel); !(r.Select? && r.selection == WholeDocument(doc))
    ensures var line := sel.active.line; var s := FenceAbove(doc, line).value;
      var e := FenceBelow(doc, line, s).value;
      s <= line < e &&
      (s + 1 == e ==> SelectAll(doc, sel) == Keep) &&
      (s + 1 < e ==>
        SelectAll(doc, sel) == Select(Inside(doc, s, e)) &&
        forall k :: s < k < e ==> !ObsidianFences.IsFenceLine(doc[k]))
  {
    BlockAround(doc, sel.active.line);
  }

  /** With the inside of a block selected, the next press selects the whole document. */
  lemma SelectAllSecond(doc: Doc, s: nat, e: nat)
    requires s + 1 < e < |doc| && ObsidianFences.IsFenceLine(doc[s]) && ObsidianFences.IsFenceLine(doc[e])
    requires forall k :: s < k < e ==> !ObsidianFences.IsFenceLine(doc[k])
    ensures SelectAll(doc, Inside(doc, s, e)) == Select(WholeDocument(doc))
  {
    var inner := Inside(doc, s, e);
    FenceAboveFrom(doc, s, e - 1);
    FenceBelowFrom(doc, s, e, e - 1);
    assert Start(inner).line == s + 1 && End(inner) == Position(e - 1, |doc[e - 1]|);
  }

  /** From any line between a fence line `s` and the next one, the upward search stops at `s`. */
  lemma {:induction false} FenceAboveFrom(doc: Doc, s: nat, i: nat)
    requires s <= i < |doc| && ObsidianFences.IsFenceLine(doc[s])
    requires forall k :: s < k <= i ==> !ObsidianFences.IsFenceLine(doc[k])
    ensures FenceAbove(doc, i) == Some(s)
    decreases i
  {
    if i > s {
      FenceAboveFrom(doc, s, i - 1);
    }
  }

  /** From any line between a fence line `s` and the next one `e`, the downward search stops at `e`. */
  lemma {:induction false} FenceBelowFrom(doc: Doc, s: nat, e: nat, j: nat)
    requires j <= e < |doc| && s < e && ObsidianFences.IsFenceLine(doc[e])
    requires forall k :: j <= k < e && s < k ==> !ObsidianFences.IsFenceLine(doc[k])
    ensures FenceBelow(doc, j, s) == Some(e)
    decreases e - j
  {
    if j < e {
      FenceBelowFrom(doc, s, e, j + 1);
    }
  }
}
