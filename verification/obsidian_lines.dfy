/**
 * The line rules of src/extension-obsidian.js: smart Enter on list items,
 * the checkbox toggle with its cursor, indenting and outdenting lines, and
 * the content start that Cmd+Left moves to.
 *
 * Each regular expression of the source is a function that finds the same
 * match: greedy runs are `RunEnd`, and where backtracking could matter the
 * function says why it cannot.
 */
module ObsidianLines {
  import opened Text
  import opened ObsidianFences
  import Checkbox

  // ---------------------------------------------------------------------
  // List items
  // ---------------------------------------------------------------------

  predicate IsBulletMarker(u: Unit) {
    u == DASH || u == STAR || u == PLUS
  }

  /** `(x|X| )` */
  predicate IsBoxState(u: Unit) {
    u == LOWER_X || u == UPPER_X || u == SPACE
  }

  /** `[\.)]` */
  predicate IsNumberPunct(u: Unit) {
    u == DOT || u == RPAREN
  }

  datatype Kind = CheckboxItem(marker: Unit) | BulletItem(marker: Unit) | NumberedItem(num: nat, punct: Unit)

  /** A list item: its indent, its kind and the text after the marker. */
  datatype Item = Item(indent: Str, kind: Kind, content: Str)

  /**
   * `^(\s*)([-*+])\s+\[(x|X| )\]\s*(.*)$`. The runs cannot backtrack: each is
   * followed by a unit outside its class, and `(.*)$` needs the rest to be
   * free of line terminators wherever `\s*` stops.
   */
  function MatchCheckboxItem(s: Str): Option<Item> {
    var n := IndentLength(s);
    if n < |s| && IsBulletMarker(s[n]) then
      var w := RunEnd(s, n + 1, Whitespace);
      if n + 1 < w && w + 3 <= |s| && s[w] == LBRACKET && IsBoxState(s[w + 1]) && s[w + 2] == RBRACKET then
        var c := RunEnd(s, w + 3, Whitespace);
        if NoLineTerminator(s[c..]) then Some(Item(s[..n], CheckboxItem(s[n]), s[c..])) else None
      else None
    else None
  }

  /** `^(\s*)([-*+])\s+(.*)$` */
  function MatchBulletItem(s: Str): Option<Item> {
    var n := IndentLength(s);
    if n < |s| && IsBulletMarker(s[n]) then
      var c := RunEnd(s, n + 1, Whitespace);
      if n + 1 < c && NoLineTerminator(s[c..]) then Some(Item(s[..n], BulletItem(s[n]), s[c..])) else None
    else None
  }

  /** `^(\s*)(\d+)([\.)])\s+(.*)$`, with `parseInt(m[2], 10)` as the number. */
  function MatchNumberedItem(s: Str): Option<Item> {
    var n := IndentLength(s);
    var d := RunEnd(s, n, Digit);
    if n < d < |s| && IsNumberPunct(s[d]) then
      var c := RunEnd(s, d + 1, Whitespace);
      if d + 1 < c && NoLineTerminator(s[c..]) then
        Some(Item(s[..n], NumberedItem(DecimalValue(s[n..d]), s[d]), s[c..]))
      else None
    else None
  }

  /** The three patterns, tried in the order of the source. */
  function ItemOf(s: Str): Option<Item> {
    if MatchCheckboxItem(s).Some? then MatchCheckboxItem(s)
    else if MatchBulletItem(s).Some? then MatchBulletItem(s)
    else MatchNumberedItem(s)
  }

  // ---------------------------------------------------------------------
  // Smart Enter
  // ---------------------------------------------------------------------

  /** The indent an emptied item keeps: a tab or two spaces less; a single space or any other indent goes entirely. */
  function Dedent(indent: Str): Str {
    if indent == [] then []
    else if indent[0] == TAB then indent[1..]
    else if StartsWith(indent, [SPACE, SPACE]) then indent[2..]
    else []
  }

  /** The marker typed on the new line after a non-empty item. */
  function Continuation(kind: Kind): Str {
    match kind
    case CheckboxItem(m) => [m, SPACE, LBRACKET, SPACE, RBRACKET, SPACE]
    case BulletItem(m) => [m, SPACE]
    case NumberedItem(n, p) => DecimalString(n + 1) + [p, SPACE]
  }

  /** What Enter does at a cursor: a plain newline, a newline continued by a marker, or the line replaced before the newline. */
  datatype EnterAction = Newline | Continue(text: Str) | ClearLine(text: Str)

  /** The decision for a line outside a fence, the cursor being at `character`. */
  function EnterOnLine(s: Str, character: nat): EnterAction {
    match ItemOf(s)
    case None => Newline
    case Some(item) =>
      if Trim(item.content) == [] && character >= |s| then ClearLine(Dedent(item.indent))
      else Continue(Continuation(item.kind))
  }

  /** The decision for one cursor of `smartEnterCommand`. */
  function EnterAt(doc: Doc, line: int, character: nat): EnterAction {
    if line < 0 || line >= |doc| then Newline
    else if InFence(doc, line + 1) then Newline
    else EnterOnLine(doc[line], character)
  }

  datatype Pos = Pos(line: int, character: nat)

  function ContinuationOf(a: EnterAction): Option<Str> {
    if a.Continue? then Some(a.text) else None
  }

  /** The line replacement Enter makes at one cursor, if any. */
  function ClearEdit(pos: Pos, action: EnterAction): seq<Edit> {
    if action.ClearLine? && pos.line >= 0 then [Edit(pos.line as nat, action.text)] else []
  }

  /** The marker removals of all cursors, in cursor order. */
  function PreEdits(doc: Doc, cursors: seq<Pos>): seq<Edit> {
    if cursors == [] then []
    else
      var last := cursors[|cursors| - 1];
      PreEdits(doc, cursors[..|cursors| - 1]) + ClearEdit(last, EnterAt(doc, last.line, last.character))
  }

  /** The checks of one iteration: the line exists and lies outside a fence, then the item patterns. */
  method EnterActionAt(doc: Doc, pos: Pos) returns (action: EnterAction)
    ensures action == EnterAt(doc, pos.line, pos.character)
    ensures action.ClearLine? ==> 0 <= pos.line < |doc|
  {
    action := Newline;
    if 0 <= pos.line < |doc| {
      var inFence := IsInFencedCodeBlock(doc, pos.line);
      if !inFence {
        action := EnterOnLine(doc[pos.line], pos.character);
      }
    }
  }

  /** The texts typed after each cursor's newline, `None` where nothing follows it. */
  function Continuations(doc: Doc, cursors: seq<Pos>): (r: seq<Option<Str>>)
    ensures |r| == |cursors|
  {
    if cursors == [] then []
    else
      var last := cursors[|cursors| - 1];
      Continuations(doc, cursors[..|cursors| - 1]) + [ContinuationOf(EnterAt(doc, last.line, last.character))]
  }

  /** The loop of `smartEnterCommand` over the cursors, filling `preEdits` and `continuationTexts`. */
  method SmartEnterPlan(doc: Doc, cursors: seq<Pos>) returns (preEdits: seq<Edit>, continuations: seq<Option<Str>>)
    ensures continuations == Continuations(doc, cursors)
    ensures preEdits == PreEdits(doc, cursors)
  {
    preEdits := [];
    continuations := [];
    for i := 0 to |cursors|
      invariant continuations == Continuations(doc, cursors[..i])
      invariant preEdits == PreEdits(doc, cursors[..i])
    {
      var pos := cursors[i];
      var action := EnterActionAt(doc, pos);
      assert cursors[..i + 1][..i] == cursors[..i];
      if action.ClearLine? {
        preEdits := preEdits + [Edit(pos.line as nat, action.text)];
      }
      continuations := continuations + [ContinuationOf(action)];
    }
    assert cursors[..|cursors|] == cursors;
  }

  /** Each cursor gets the continuation its own line calls for. */
  lemma {:induction false} ContinuationsAt(doc: Doc, cursors: seq<Pos>)
    ensures forall i :: 0 <= i < |cursors| ==>
      Continuations(doc, cursors)[i] == ContinuationOf(EnterAt(doc, cursors[i].line, cursors[i].character))
  {
    if cursors != [] {
      var init := cursors[..|cursors| - 1];
      ContinuationsAt(doc, init);
      forall i | 0 <= i < |cursors|
        ensures Continuations(doc, cursors)[i] == ContinuationOf(EnterAt(doc, cursors[i].line, cursors[i].character))
      {
        if i < |init| {
          assert Continuations(doc, cursors)[i] == Continuations(doc, init)[i];
          assert init[i] == cursors[i];
        }
      }
    }
  }

  /** The markers the patterns accept. */
  predicate ValidKind(kind: Kind) {
    match kind
    case CheckboxItem(m) => IsBulletMarker(m)
    case BulletItem(m) => IsBulletMarker(m)
    case NumberedItem(_, p) => IsNumberPunct(p)
  }

  /** An item's indent is white space, and its content starts with something else. */
  lemma ItemParts(s: Str)
    requires ItemOf(s).Some?
    ensures AllWhitespace(ItemOf(s).value.indent) && |ItemOf(s).value.indent| < |s|
    ensures var c := ItemOf(s).value.content; c == [] || !IsWhitespace(c[0])
    ensures s[|s| - |ItemOf(s).value.content|..] == ItemOf(s).value.content
    ensures ValidKind(ItemOf(s).value.kind)
  {
  }

  lemma {:induction false} DedentShorter(indent: Str)
    requires AllWhitespace(indent)
    ensures AllWhitespace(Dedent(indent))
    ensures indent != [] ==> |Dedent(indent)| < |indent|
  {
  }

  /**
   * Enter empties a line exactly when it is an item with nothing after its
   * marker and the cursor is at the end; what is left is white space,
   * shorter than the line.
   */
  lemma EnterClears(s: Str, character: nat)
    ensures EnterOnLine(s, character).ClearLine? <==>
      ItemOf(s).Some? && ItemOf(s).value.content == [] && character >= |s|
    ensures EnterOnLine(s, character).ClearLine? ==>
      AllWhitespace(EnterOnLine(s, character).text) && |EnterOnLine(s, character).text| < |s|
  {
    if ItemOf(s).Some? {
      var item := ItemOf(s).value;
      ItemParts(s);
      TrimParts(item.content);
      if item.content != [] {
        assert !AllWhitespace(item.content);
      }
      DedentShorter(item.indent);
    }
  }

  /** `(...)$`: white space after the marker, then a content with no line terminator that does not start with white space. */
  predicate ItemTail(gap: Str, content: Str) {
    AllWhitespace(gap) && NoLineTerminator(content) && (content == [] || !IsWhitespace(content[0]))
  }

  /** White space over `s[i..j]`. */
  predicate WhiteBetween(s: Str, i: nat, j: nat)
    requires i <= j <= |s|
  {
    forall k :: i <= k < j ==> IsWhitespace(s[k])
  }

  /** `\s*(.*)$` from `i` stops at `c`: white space up to it, something else or the end at it, and no line terminator after. */
  predicate TailAt(s: Str, i: nat, c: nat) {
    i <= c <= |s| && WhiteBetween(s, i, c) && (c == |s| || !IsWhitespace(s[c])) && NoLineTerminator(s[c..])
  }

  /** A line laid out as a checkbox item (indent to `n`, marker, white space to `w`, box, content from `c`) is matched as one. */
  lemma CheckboxAt(s: Str, n: nat, w: nat, c: nat)
    requires n + 1 < w && w + 3 <= |s| && WhiteBetween(s, 0, n) && IsBulletMarker(s[n]) && WhiteBetween(s, n + 1, w)
    requires s[w] == LBRACKET && IsBoxState(s[w + 1]) && s[w + 2] == RBRACKET && TailAt(s, w + 3, c)
    ensures ItemOf(s) == Some(Item(s[..n], CheckboxItem(s[n]), s[c..]))
  {
    RunEndIs(s, 0, n, Whitespace);
    RunEndIs(s, n + 1, w, Whitespace);
    RunEndIs(s, w + 3, c, Whitespace);
    CheckboxMatched(s, n, w, c);
  }

  lemma CheckboxMatched(s: Str, n: nat, w: nat, c: nat)
    requires n + 1 < w && w + 3 <= |s| && IsBulletMarker(s[n])
    requires IndentLength(s) == n && RunEnd(s, n + 1, Whitespace) == w && RunEnd(s, w + 3, Whitespace) == c
    requires s[w] == LBRACKET && IsBoxState(s[w + 1]) && s[w + 2] == RBRACKET && NoLineTerminator(s[c..])
    ensures MatchCheckboxItem(s) == Some(Item(s[..n], CheckboxItem(s[n]), s[c..]))
  {
  }

  /** A line laid out as a bullet item whose content does not open with a box is matched as a bullet item. */
  lemma BulletAt(s: Str, n: nat, c: nat)
    requires n < |s| && WhiteBetween(s, 0, n) && IsBulletMarker(s[n]) && n + 1 < c && TailAt(s, n + 1, c)
    requires !(c + 3 <= |s| && s[c] == LBRACKET && IsBoxState(s[c + 1]) && s[c + 2] == RBRACKET)
    ensures ItemOf(s) == Some(Item(s[..n], BulletItem(s[n]), s[c..]))
  {
    RunEndIs(s, 0, n, Whitespace);
    RunEndIs(s, n + 1, c, Whitespace);
    BulletMatched(s, n, c);
  }

  lemma BulletMatched(s: Str, n: nat, c: nat)
    requires n < |s| && IsBulletMarker(s[n]) && n + 1 < c <= |s|
    requires IndentLength(s) == n && RunEnd(s, n + 1, Whitespace) == c && NoLineTerminator(s[c..])
    requires !(c + 3 <= |s| && s[c] == LBRACKET && IsBoxState(s[c + 1]) && s[c + 2] == RBRACKET)
    ensures ItemOf(s) == Some(Item(s[..n], BulletItem(s[n]), s[c..]))
  {
    assert MatchCheckboxItem(s).None?;
  }

  /** A line laid out as a numbered item is matched as one, with the value of its digits. */
  lemma NumberedAt(s: Str, n: nat, d: nat, c: nat)
    requires n < d < |s| && WhiteBetween(s, 0, n) && AllDigits(s[n..d]) && IsNumberPunct(s[d])
    requires d + 1 < c && TailAt(s, d + 1, c)
    ensures ItemOf(s) == Some(Item(s[..n], NumberedItem(DecimalValue(s[n..d]), s[d]), s[c..]))
  {
    assert IsDigit(s[n..d][0]);
    RunEndIs(s, 0, n, Whitespace);
    forall k | n <= k < d ensures InClass(s[k], Digit) {
      assert s[k] == s[n..d][k - n];
    }
    RunEndIs(s, n, d, Digit);
    RunEndIs(s, d + 1, c, Whitespace);
    NumberedMatched(s, n, d, c);
  }

  lemma NumberedMatched(s: Str, n: nat, d: nat, c: nat)
    requires n < d < |s| && AllDigits(s[n..d]) && IsNumberPunct(s[d]) && d + 1 < c <= |s|
    requires IndentLength(s) == n && RunEnd(s, n, Digit) == d && RunEnd(s, d + 1, Whitespace) == c
    requires NoLineTerminator(s[c..])
    ensures ItemOf(s) == Some(Item(s[..n], NumberedItem(DecimalValue(s[n..d]), s[d]), s[c..]))
  {
    assert IsDigit(s[n]);
    assert MatchCheckboxItem(s).None? && MatchBulletItem(s).None?;
  }

  /** The kind of the item a continuation starts: the same marker, the next number. */
  function NextKind(kind: Kind): Kind {
    match kind
    case NumberedItem(n, p) => NumberedItem(n + 1, p)
    case _ => kind
  }

  /** A continuation after the indent is an empty item of the next kind. */
  lemma ContinuationParses(indent: Str, kind: Kind)
    requires AllWhitespace(indent) && ValidKind(kind)
    ensures ItemOf(indent + Continuation(kind)) == Some(Item(indent, NextKind(kind), []))
  {
    match kind
    case CheckboxItem(m) => BoxContinuationParses(indent, m);
    case BulletItem(m) => BulletContinuationParses(indent, m);
    case NumberedItem(k, p) => NumberContinuationParses(indent, k, p);
  }

  lemma BoxContinuationParses(indent: Str, m: Unit)
    requires AllWhitespace(indent) && IsBulletMarker(m)
    ensures ItemOf(indent + Continuation(CheckboxItem(m))) == Some(Item(indent, CheckboxItem(m), []))
  {
    var s := indent + Continuation(CheckboxItem(m));
    var n := |indent|;
    assert s[..n] == indent;
    CheckboxAt(s, n, n + 2, n + 6);
  }

  lemma BulletContinuationParses(indent: Str, m: Unit)
    requires AllWhitespace(indent) && IsBulletMarker(m)
    ensures ItemOf(indent + Continuation(BulletItem(m))) == Some(Item(indent, BulletItem(m), []))
  {
    var s := indent + Continuation(BulletItem(m));
    BulletLine(indent, m);
    BulletAt(s, |indent|, |indent| + 2);
  }

  /** The layout facts of an indented bullet continuation. */
  lemma BulletLine(indent: Str, m: Unit)
    requires AllWhitespace(indent)
    ensures var s := indent + Continuation(BulletItem(m));
      |s| == |indent| + 2 && s[..|indent|] == indent && WhiteBetween(s, 0, |indent|)
      && s[|indent|] == m && TailAt(s, |indent| + 1, |indent| + 2)
  {
    var s := indent + Continuation(BulletItem(m));
    assert s[..|indent|] == indent;
    assert s[|indent| + 1] == SPACE;
  }

  lemma NumberContinuationParses(indent: Str, k: nat, p: Unit)
    requires AllWhitespace(indent) && IsNumberPunct(p)
    ensures ItemOf(indent + Continuation(NumberedItem(k, p))) == Some(Item(indent, NumberedItem(k + 1, p), []))
  {
    var digits := DecimalString(k + 1);
    var s := indent + digits + [p, SPACE];
    assert s == indent + Continuation(NumberedItem(k, p));
    var n := |indent|;
    var d := n + |digits|;
    assert s[..n] == indent && s[n..d] == digits;
    DecimalRoundTrip(k + 1);
    NumberedAt(s, n, d, d + 2);
  }

  /**
   * The line a continuation starts (the indent, which the editor repeats,
   * then the marker) is an empty item of the same kind, so pressing Enter
   * again at its end clears it: two Enters end a list.
   */
  lemma ContinuedItemClears(s: Str, character: nat)
    requires EnterOnLine(s, character).Continue?
    ensures var item := ItemOf(s).value;
      var next := item.indent + EnterOnLine(s, character).text;
      ItemOf(next) == Some(Item(item.indent, NextKind(item.kind), [])) &&
      EnterOnLine(next, |next|) == ClearLine(Dedent(item.indent))
  {
    ItemParts(s);
    ContinuationParses(ItemOf(s).value.indent, ItemOf(s).value.kind);
    TrimParts([]);
  }

  /** Every removal names a line of the document and leaves only white space, shorter than the line. */
  lemma {:induction false} PreEditsShape(doc: Doc, cursors: seq<Pos>)
    ensures EditsInRange(doc, PreEdits(doc, cursors))
    ensures forall i :: 0 <= i < |PreEdits(doc, cursors)| ==>
      var e := PreEdits(doc, cursors)[i];
      AllWhitespace(e.text) && |e.text| < |doc[e.line]|
  {
    if cursors != [] {
      var last := cursors[|cursors| - 1];
      PreEditsShape(doc, cursors[..|cursors| - 1]);
      if 0 <= last.line < |doc| && !InFence(doc, last.line + 1) {
        EnterClears(doc[last.line], last.character);
      }
    }
  }

  // ---------------------------------------------------------------------
  // toggleCheckbox
  // ---------------------------------------------------------------------

  /** `[xX]` when looking for a checked box, `\s` for an unchecked one. */
  predicate BoxMark(u: Unit, checked: bool) {
    if checked then u == LOWER_X || u == UPPER_X else IsWhitespace(u)
  }

  /** `/^(\s*-\s\[[xX]\]\s*)/` or `/^(\s*-\s\[\s\]\s*)/`: where the cursor goes after the toggle. */
  function BoxEnd(s: Str, checked: bool): Option<nat> {
    var n := IndentLength(s);
    if n + 5 <= |s| && s[n] == DASH && IsWhitespace(s[n + 1]) && s[n + 2] == LBRACKET &&
       BoxMark(s[n + 3], checked) && s[n + 4] == RBRACKET
    then Some(RunEnd(s, n + 5, Whitespace))
    else None
  }

  datatype Toggled = Toggled(line: Str, cursor: Option<nat>)

  /** `toggleCheckbox`: the rewritten line, and the cursor column after the box when the new line starts with one. */
  function ToggleCheckbox(s: Str): (r: Option<Toggled>)
    ensures r.None? <==> Checkbox.Toggle(s).None?
    ensures r.Some? && r.value.cursor.Some? ==> r.value.cursor.value <= |r.value.line|
  {
    match Checkbox.Toggle(s)
    case None => None
    case Some(t) => Some(Toggled(t, BoxEnd(t, Includes(s, Checkbox.UNCHECKED))))
  }

  const OPEN_BOX: Str := [DASH, SPACE, LBRACKET, SPACE, RBRACKET, SPACE]
  const DONE_BOX: Str := [DASH, SPACE, LBRACKET, LOWER_X, RBRACKET, SPACE]

  /** No `-` in white space, so a marker cannot start inside an indent. */
  lemma NoMarkerInIndent(s: Str, indent: Str, pat: Str)
    requires AllWhitespace(indent) && StartsWith(s, indent) && pat != [] && pat[0] == DASH
    ensures forall k :: 0 <= k < |indent| ==> !OccursAt(s, k, pat)
  {
    forall k | 0 <= k < |indent| ensures !OccursAt(s, k, pat) {
      assert s[k] == indent[k] && s[k] != DASH;
      if k + |pat| <= |s| {
        assert s[k..k + |pat|][0] == s[k];
      }
    }
  }

  /** After a box of the kind looked for, the cursor goes past the white space that follows it. */
  lemma BoxEndAfter(indent: Str, box: Str, text: Str, checked: bool)
    requires AllWhitespace(indent) && (text == [] || !IsWhitespace(text[0]))
    requires box == OPEN_BOX || box == DONE_BOX
    requires BoxMark(box[3], checked)
    ensures BoxEnd(indent + box + text, checked) == Some(|indent| + 6)
  {
    var s := indent + box + text;
    var n := |indent|;
    assert s[n] == DASH && s[n + 1] == SPACE && s[n + 2] == LBRACKET && s[n + 3] == box[3] && s[n + 4] == RBRACKET;
    assert s[n + 5] == SPACE && (n + 6 == |s| || s[n + 6] == text[0]);
    RunEndIs(s, 0, n, Whitespace);
    RunEndIs(s, n + 5, n + 6, Whitespace);
    BoxEndMatched(s, n, checked);
  }

  lemma BoxEndMatched(s: Str, n: nat, checked: bool)
    requires n + 6 <= |s| && IndentLength(s) == n && RunEnd(s, n + 5, Whitespace) == n + 6
    requires s[n] == DASH && IsWhitespace(s[n + 1]) && s[n + 2] == LBRACKET && BoxMark(s[n + 3], checked) && s[n + 4] == RBRACKET
    ensures BoxEnd(s, checked) == Some(n + 6)
  {
  }

  /** The open box after an indent is the first one. */
  lemma OpenBoxFirst(indent: Str, text: Str)
    requires AllWhitespace(indent)
    ensures IndexOf(indent + OPEN_BOX + text, Checkbox.UNCHECKED) == Some(|indent|)
  {
    var s := indent + OPEN_BOX + text;
    var n := |indent|;
    assert s[n..n + 5] == Checkbox.UNCHECKED;
    assert OccursAt(s, n, Checkbox.UNCHECKED);
    NoMarkerInIndent(s, indent, Checkbox.UNCHECKED);
    var r := IndexOf(s, Checkbox.UNCHECKED);
    assert r.Some? && r.value >= n;
  }

  /** Checking the box of `indent + "- [ ] " + text` writes an `x` and puts the cursor at the text. */
  lemma CheckCursor(indent: Str, text: Str)
    requires AllWhitespace(indent) && (text == [] || !IsWhitespace(text[0]))
    ensures ToggleCheckbox(indent + OPEN_BOX + text) == Some(Toggled(indent + DONE_BOX + text, Some(|indent| + 6)))
  {
    var s := indent + OPEN_BOX + text;
    var n := |indent|;
    OpenBoxFirst(indent, text);
    var t := indent + DONE_BOX + text;
    assert Checkbox.ReplaceAt(s, n, Checkbox.CHECKED) == t;
    BoxEndAfter(indent, DONE_BOX, text, true);
  }

  /** With no open box in the text, the line has none at all. */
  lemma NoOpenBox(indent: Str, text: Str)
    requires AllWhitespace(indent) && !Includes(text, Checkbox.UNCHECKED)
    ensures !Includes(indent + DONE_BOX + text, Checkbox.UNCHECKED)
  {
    var s := indent + DONE_BOX + text;
    var n := |indent|;
    NoMarkerInIndent(s, indent, Checkbox.UNCHECKED);
    forall k | n <= k <= |s| ensures !OccursAt(s, k, Checkbox.UNCHECKED) {
      if k < n + 6 {
        if k + 5 <= |s| {
          assert s[k..k + 5][0] == s[k] && s[k..k + 5][3] == s[k + 3];
          assert s[k] != DASH || s[k + 3] != SPACE;
        }
      } else if k + 5 <= |s| {
        assert s[k..k + 5] == text[k - n - 6..k - n - 1];
        assert !OccursAt(text, k - n - 6, Checkbox.UNCHECKED);
      }
    }
  }

  /** The done box after an indent is the first checked one. */
  lemma DoneBoxFirst(indent: Str, text: Str)
    requires AllWhitespace(indent)
    ensures Checkbox.FirstChecked(indent + DONE_BOX + text) == Some(|indent|)
  {
    var s := indent + DONE_BOX + text;
    var n := |indent|;
    assert s[n..n + 5] == Checkbox.CHECKED;
    assert Checkbox.CheckedAt(s, n);
    NoMarkerInIndent(s, indent, Checkbox.CHECKED);
    NoMarkerInIndent(s, indent, Checkbox.CHECKED_UPPER);
    var r := Checkbox.FirstChecked(s);
    assert r.Some? by {
      assert Includes(s, Checkbox.CHECKED);
    }
    assert r.value >= n;
  }

  /** Unchecking `indent + "- [x] " + text`, when the text holds no open box, restores it and puts the cursor at the text. */
  lemma UncheckCursor(indent: Str, text: Str)
    requires AllWhitespace(indent) && (text == [] || !IsWhitespace(text[0]))
    requires !Includes(text, Checkbox.UNCHECKED)
    ensures ToggleCheckbox(indent + DONE_BOX + text) == Some(Toggled(indent + OPEN_BOX + text, Some(|indent| + 6)))
  {
    NoOpenBox(indent, text);
    UncheckToggle(indent, text);
    BoxEndAfter(indent, OPEN_BOX, text, false);
  }

  /** The toggle turns the done box at the start of such a line into an open one. */
  lemma UncheckToggle(indent: Str, text: Str)
    requires AllWhitespace(indent) && !Includes(indent + DONE_BOX + text, Checkbox.UNCHECKED)
    ensures Checkbox.Toggle(indent + DONE_BOX + text) == Some(indent + OPEN_BOX + text)
  {
    DoneBoxFirst(indent, text);
    DoneToOpen(indent, text);
  }

  lemma DoneToOpen(indent: Str, text: Str)
    ensures |indent| + 5 <= |indent + DONE_BOX + text|
    ensures Checkbox.ReplaceAt(indent + DONE_BOX + text, |indent|, Checkbox.UNCHECKED) == indent + OPEN_BOX + text
  {
    var s := indent + DONE_BOX + text;
    var n := |indent|;
    assert s[..n] == indent && s[n + 5..] == [SPACE] + text;
  }

  // ---------------------------------------------------------------------
  // adjustIndent
  // ---------------------------------------------------------------------

  const INDENT_UNIT: Str := [SPACE, SPACE]

  /** Increase: two spaces in front. */
  function Indented(line: Str): Str {
    INDENT_UNIT + line
  }

  /** Decrease: a leading tab, else two leading spaces, else one leading space is removed. */
  function Outdented(line: Str): Str {
    if line != [] && line[0] == TAB then line[1..]
    else if StartsWith(line, INDENT_UNIT) then line[2..]
    else if line != [] && line[0] == SPACE then line[1..]
    else line
  }

  function Rewritten(line: Str, increase: bool): Str {
    if increase then Indented(line) else Outdented(line)
  }

  /** Outdenting undoes indenting. */
  lemma OutdentIndent(line: Str)
    ensures Outdented(Indented(line)) == line
  {
    assert Indented(line)[2..] == line;
  }

  /** Outdenting removes at most two units, all tab or space, from the front, and removes nothing exactly when the line does not start with either. */
  lemma OutdentedShape(line: Str)
    ensures var r := Outdented(line); var d := |line| - |r|;
      0 <= d <= 2 && line[d..] == r && (forall i :: 0 <= i < d ==> line[i] == TAB || line[i] == SPACE)
    ensures Outdented(line) == line <==> line == [] || (line[0] != TAB && line[0] != SPACE)
  {
  }

  /** The edit of one line: increasing always rewrites it, decreasing only when it changes. */
  function IndentEdit(doc: Doc, k: nat, increase: bool): seq<Edit>
    requires k < |doc|
  {
    if increase then [Edit(k, Indented(doc[k]))]
    else if Outdented(doc[k]) != doc[k] then [Edit(k, Outdented(doc[k]))]
    else []
  }

  /** The edits for lines `[lo, hi)`. */
  function IndentEdits(doc: Doc, lo: nat, hi: nat, increase: bool): seq<Edit>
    requires lo <= hi <= |doc|
    decreases hi - lo
  {
    if hi == lo then [] else IndentEdits(doc, lo, hi - 1, increase) + IndentEdit(doc, hi - 1, increase)
  }

  /** `adjustIndent` with a selection: every line from the first to the last selected one. */
  method AdjustIndentLines(doc: Doc, startLine: nat, endLine: nat, increase: bool) returns (edits: seq<Edit>)
    requires startLine <= endLine < |doc|
    ensures edits == IndentEdits(doc, startLine, endLine + 1, increase)
  {
    edits := [];
    var i := startLine;
    while i <= endLine
      invariant startLine <= i <= endLine + 1
      invariant edits == IndentEdits(doc, startLine, i, increase)
    {
      var line := doc[i];
      if increase {
        edits := edits + [Edit(i, Indented(line))];
      } else {
        var newLine := Outdented(line);
        if newLine != line {
          edits := edits + [Edit(i, newLine)];
        }
      }
      i := i + 1;
    }
  }

  /** Each edit names a line of `[lo, hi)` and carries that line rewritten. */
  predicate RewritesIn(doc: Doc, edits: seq<Edit>, lo: nat, hi: nat, increase: bool)
    requires hi <= |doc|
  {
    forall i :: 0 <= i < |edits| ==> lo <= edits[i].line < hi && edits[i].text == Rewritten(doc[edits[i].line], increase)
  }

  lemma {:induction false} IndentEditsLines(doc: Doc, lo: nat, hi: nat, increase: bool)
    requires lo <= hi <= |doc|
    ensures RewritesIn(doc, IndentEdits(doc, lo, hi, increase), lo, hi, increase)
    decreases hi - lo
  {
    if hi > lo {
      IndentEditsLines(doc, lo, hi - 1, increase);
      var prefix, last := IndentEdits(doc, lo, hi - 1, increase), IndentEdit(doc, hi - 1, increase);
      var edits := IndentEdits(doc, lo, hi, increase);
      assert edits == prefix + last;
      forall i | 0 <= i < |edits|
        ensures lo <= edits[i].line < hi && edits[i].text == Rewritten(doc[edits[i].line], increase)
      {
        if i < |prefix| {
          assert edits[i] == prefix[i];
        } else {
          assert edits[i] == last[i - |prefix|];
        }
      }
    }
  }

  /** The edits come in line order. */
  lemma {:induction false} IndentEditsAscending(doc: Doc, lo: nat, hi: nat, increase: bool)
    requires lo <= hi <= |doc|
    ensures Ascending(IndentEdits(doc, lo, hi, increase))
    decreases hi - lo
  {
    if hi > lo {
      IndentEditsAscending(doc, lo, hi - 1, increase);
      IndentEditsLines(doc, lo, hi - 1, increase);
      var prefix, last := IndentEdits(doc, lo, hi - 1, increase), IndentEdit(doc, hi - 1, increase);
      var edits := IndentEdits(doc, lo, hi, increase);
      assert edits == prefix + last;
      forall i, j | 0 <= i < j < |edits| ensures edits[i].line < edits[j].line {
        assert edits[i] == prefix[i];
        if j < |prefix| {
          assert edits[j] == prefix[j];
        } else {
          assert edits[j] == last[0] && last[0].line == hi - 1;
        }
      }
    }
  }

  predicate NoEditAt(edits: seq<Edit>, k: nat) {
    forall i :: 0 <= i < |edits| ==> edits[i].line != k
  }

  /** A line of the range without an edit is its own rewrite. */
  predicate UneditedKept(doc: Doc, edits: seq<Edit>, lo: nat, hi: nat, increase: bool)
    requires hi <= |doc|
  {
    forall k :: lo <= k < hi && NoEditAt(edits, k) ==> Rewritten(doc[k], increase) == doc[k]
  }

  /** No edit at `k` in a list means none in its tail. */
  lemma NoEditAtSuffix(a: seq<Edit>, b: seq<Edit>, k: nat)
    requires NoEditAt(a + b, k)
    ensures NoEditAt(b, k)
  {
    forall i | 0 <= i < |b| ensures b[i].line != k {
      assert b[i] == (a + b)[|a| + i];
    }
  }

  /** A line with no edit of its own is its own rewrite. */
  lemma IndentEditKept(doc: Doc, k: nat, increase: bool)
    requires k < |doc|
    ensures NoEditAt(IndentEdit(doc, k, increase), k) ==> Rewritten(doc[k], increase) == doc[k]
  {
    if Rewritten(doc[k], increase) != doc[k] {
      assert IndentEdit(doc, k, increase)[0].line == k;
    }
  }

  lemma {:induction false} IndentEditsCover(doc: Doc, lo: nat, hi: nat, increase: bool)
    requires lo <= hi <= |doc|
    ensures UneditedKept(doc, IndentEdits(doc, lo, hi, increase), lo, hi, increase)
    decreases hi - lo
  {
    if hi > lo {
      IndentEditsCover(doc, lo, hi - 1, increase);
      var prefix, last := IndentEdits(doc, lo, hi - 1, increase), IndentEdit(doc, hi - 1, increase);
      var edits := IndentEdits(doc, lo, hi, increase);
      assert edits == prefix + last;
      forall k | lo <= k < hi && NoEditAt(edits, k)
        ensures Rewritten(doc[k], increase) == doc[k]
      {
        if k < hi - 1 {
          forall i | 0 <= i < |prefix| ensures prefix[i].line != k {
            assert prefix[i] == edits[i];
          }
          assert NoEditAt(prefix, k);
        } else {
          NoEditAtSuffix(prefix, last, k);
          IndentEditKept(doc, k, increase);
        }
      }
    }
  }

  /** After the edits every line of the range is rewritten and every other line is kept. */
  lemma IndentEditsApplied(doc: Doc, lo: nat, hi: nat, increase: bool)
    requires lo <= hi <= |doc|
    ensures EditsInRange(doc, IndentEdits(doc, lo, hi, increase))
    ensures forall k :: 0 <= k < |doc| ==>
      ApplyEdits(doc, IndentEdits(doc, lo, hi, increase))[k] == if lo <= k < hi then Rewritten(doc[k], increase) else doc[k]
  {
    var edits := IndentEdits(doc, lo, hi, increase);
    IndentEditsLines(doc, lo, hi, increase);
    IndentEditsAscending(doc, lo, hi, increase);
    IndentEditsCover(doc, lo, hi, increase);
    forall k | 0 <= k < |doc|
      ensures ApplyEdits(doc, edits)[k] == if lo <= k < hi then Rewritten(doc[k], increase) else doc[k]
    {
      ApplyEditsAt(doc, edits, k);
      if !NoEditAt(edits, k) {
        var i :| 0 <= i < |edits| && edits[i].line == k;
      }
    }
  }

  /** Increasing then decreasing the indent of the same lines restores the document. */
  lemma IndentLinesRoundTrip(doc: Doc, lo: nat, hi: nat)
    requires lo <= hi <= |doc|
    ensures EditsInRange(doc, IndentEdits(doc, lo, hi, true))
    ensures var up := ApplyEdits(doc, IndentEdits(doc, lo, hi, true));
      EditsInRange(up, IndentEdits(up, lo, hi, false)) && ApplyEdits(up, IndentEdits(up, lo, hi, false)) == doc
  {
    IndentEditsApplied(doc, lo, hi, true);
    var up := ApplyEdits(doc, IndentEdits(doc, lo, hi, true));
    IndentEditsApplied(up, lo, hi, false);
    var down := ApplyEdits(up, IndentEdits(up, lo, hi, false));
    forall k | 0 <= k < |doc| ensures down[k] == doc[k] {
      OutdentIndent(doc[k]);
    }
  }

  /** The edit and the new cursor column of `adjustIndent` without a selection. */
  datatype IndentResult = IndentResult(edit: Option<Edit>, cursor: nat)

  /** Where the cursor goes when the line loses its leading units: as far left as they were long, not before column 0. */
  function OutdentedCursor(line: Str, cursor: nat): nat {
    var removed := |line| - |Outdented(line)|;
    if cursor >= removed then cursor - removed else 0
  }

  /** The column the decrease computes as written: both texts it compares are read after the edit, so nothing is subtracted. */
  function OutdentedCursorAsWritten(line: Str, cursor: nat): int {
    var after := Outdented(line);
    var readLine, originalLine := after, after;
    var diff := |originalLine| - |readLine|;
    Max(0, cursor - diff)
  }

  /**
   * `adjustIndent` on the cursor line, with the cursor of the decrease as
   * intended. Increasing always rewrites the line, and outdenting the result
   * gives the line back; decreasing rewrites it exactly when it starts with a
   * tab or a space, and keeps the cursor on its character.
   */
  function AdjustIndentAt(doc: Doc, line: nat, cursor: nat, increase: bool): (r: IndentResult)
    requires line < |doc|
    ensures r.edit.Some? ==> r.edit.value.line == line
    ensures r.edit.None? <==> !increase && (doc[line] == [] || (doc[line][0] != TAB && doc[line][0] != SPACE))
    ensures increase ==>
      r.edit.Some? && |r.edit.value.text| == |doc[line]| + 2 &&
      Outdented(r.edit.value.text) == doc[line] && r.cursor == cursor + 2
    ensures !increase ==>
      var after := if r.edit.Some? then r.edit.value.text else doc[line];
      |after| <= |doc[line]| <= |after| + 2 && after == doc[line][|doc[line]| - |after|..] && r.cursor <= cursor &&
      (|doc[line]| - |after| <= cursor < |doc[line]| ==> r.cursor < |after| && after[r.cursor] == doc[line][cursor])
  {
    var text := doc[line];
    OutdentedShape(text);
    OutdentIndent(text);
    if increase then IndentResult(Some(Edit(line, Indented(text))), cursor + 2)
    else IndentResult(if Outdented(text) != text then Some(Edit(line, Outdented(text))) else None, OutdentedCursor(text, cursor))
  }

  /** As written, the decrease never moves the cursor. */
  lemma OutdentedCursorAsWrittenStays(line: Str, cursor: nat)
    ensures OutdentedCursorAsWritten(line, cursor) == cursor
  {
  }

  /** On "  ab" with the cursor before `a`, the cursor as written ends after `b` instead of before `a`. */
  lemma OutdentedCursorAsWrittenJumps()
    ensures var line := [SPACE, SPACE, 0x61, 0x62];
      Outdented(line) == [0x61, 0x62] &&
      OutdentedCursorAsWritten(line, 2) == 2 == |Outdented(line)| && OutdentedCursor(line, 2) == 0
  {
    var line: Str := [SPACE, SPACE, 0x61, 0x62];
    assert StartsWith(line, INDENT_UNIT);
  }

  /** The corrected cursor stays on the same character, and undoes the increase's move. */
  lemma OutdentedCursorKeepsCharacter(line: Str, cursor: nat)
    ensures cursor < |line| && |line| - |Outdented(line)| <= cursor ==>
      OutdentedCursor(line, cursor) < |Outdented(line)| && Outdented(line)[OutdentedCursor(line, cursor)] == line[cursor]
    ensures OutdentedCursor(Indented(line), cursor + 2) == cursor
    ensures AdjustIndentAt([Indented(line)], 0, cursor + 2, false).cursor == cursor
  {
    OutdentedShape(line);
    OutdentIndent(line);
  }

  // ---------------------------------------------------------------------
  // Content start (Cmd+Left)
  // ---------------------------------------------------------------------

  /** `^(#{1,6}\s+)`: six hashes at most, and `#{1,6}` cannot give back a hash to the `\s+`. */
  function HeadingEnd(s: Str): Option<nat> {
    var h := RunEnd(s, 0, Hash);
    if 1 <= h <= 6 then
      var w := RunEnd(s, h, Whitespace);
      if h < w then Some(w) else None
    else None
  }

  /** `[\sx]` under the `i` flag. */
  predicate IsBoxFill(u: Unit) {
    IsWhitespace(u) || u == LOWER_X || u == UPPER_X
  }

  /** `^(\s*-\s\[[\sx]?\]\s*)` with the `i` flag: the optional fill is tried first, then left out. */
  function BoxPrefixEnd(s: Str): Option<nat> {
    var n := IndentLength(s);
    if n + 3 <= |s| && s[n] == DASH && IsWhitespace(s[n + 1]) && s[n + 2] == LBRACKET then
      if n + 5 <= |s| && IsBoxFill(s[n + 3]) && s[n + 4] == RBRACKET then Some(RunEnd(s, n + 5, Whitespace))
      else if n + 4 <= |s| && s[n + 3] == RBRACKET then Some(RunEnd(s, n + 4, Whitespace))
      else None
    else None
  }

  /** `^(\s*\d+\.\s+)` */
  function OrderedEnd(s: Str): Option<nat> {
    var n := IndentLength(s);
    var d := RunEnd(s, n, Digit);
    if n < d < |s| && s[d] == DOT then
      var w := RunEnd(s, d + 1, Whitespace);
      if d + 1 < w then Some(w) else None
    else None
  }

  /** `^(\s*[-*+]\s+)` */
  function BulletEnd(s: Str): Option<nat> {
    var n := IndentLength(s);
    if n < |s| && IsBulletMarker(s[n]) then
      var w := RunEnd(s, n + 1, Whitespace);
      if n + 1 < w then Some(w) else None
    else None
  }

  /** The end of `(>\s*)+` from `i`. */
  function QuoteRun(s: Str, i: nat): (j: nat)
    requires i <= |s|
    ensures i <= j <= |s|
    decreases |s| - i
  {
    if i < |s| && s[i] == GT then QuoteRun(s, RunEnd(s, i + 1, Whitespace)) else i
  }

  /** `^(>\s*)+` */
  function QuoteEnd(s: Str): Option<nat> {
    if s != [] && s[0] == GT then Some(QuoteRun(s, 0)) else None
  }

  /** `^(```\w*\s*)` */
  function CodeFenceEnd(s: Str): Option<nat> {
    if StartsWith(s, FENCE) then Some(RunEnd(s, RunEnd(s, 3, Word), Whitespace)) else None
  }

  /** The end of the leading element, trying the patterns in the order of the source. */
  function ElementEnd(s: Str): (r: Option<nat>)
    ensures r.Some? ==> 0 < r.value <= |s|
  {
    if HeadingEnd(s).Some? then HeadingEnd(s)
    else if BoxPrefixEnd(s).Some? then BoxPrefixEnd(s)
    else if OrderedEnd(s).Some? then OrderedEnd(s)
    else if BulletEnd(s).Some? then BulletEnd(s)
    else if QuoteEnd(s).Some? then QuoteEnd(s)
    else CodeFenceEnd(s)
  }

  /** `smartMoveLeft`: the column after the leading element, or 0. */
  function ContentStart(s: Str): (c: nat)
    ensures c <= |s|
  {
    match ElementEnd(s)
    case Some(e) => e
    case None => 0
  }

  /**
   * On the line a continuation starts, Cmd+Left goes to the end of the new
   * marker: for `-` boxes, for every bullet and for `.` numbers. (A `*` or
   * `+` box stops before the box, which only the `-` pattern covers, and a
   * `)` number has no pattern at all.)
   */
  lemma ContinuationContentStart(indent: Str, kind: Kind)
    requires AllWhitespace(indent)
    requires match kind
      case CheckboxItem(m) => m == DASH
      case BulletItem(m) => IsBulletMarker(m)
      case NumberedItem(_, p) => p == DOT
    ensures ContentStart(indent + Continuation(kind)) == |indent + Continuation(kind)|
  {
    match kind
    case CheckboxItem(m) => BoxContentStart(indent);
    case BulletItem(m) => BulletContentStart(indent, m);
    case NumberedItem(k, p) => NumberContentStart(indent, k);
  }

  /** The line after the indent is not a heading. */
  lemma NoHeading(indent: Str, rest: Str)
    requires AllWhitespace(indent) && rest != [] && rest[0] != HASH
    ensures RunEnd(indent + rest, 0, Hash) == 0
  {
    var s := indent + rest;
    if indent != [] {
      assert IsWhitespace(s[0]);
    } else {
      assert s[0] == rest[0];
    }
    RunEndIs(s, 0, 0, Hash);
  }

  lemma BoxContentStart(indent: Str)
    requires AllWhitespace(indent)
    ensures ContentStart(indent + Continuation(CheckboxItem(DASH))) == |indent| + 6
  {
    var s := indent + Continuation(CheckboxItem(DASH));
    var n := |indent|;
    assert s[n] == DASH && s[n + 1] == SPACE && s[n + 2] == LBRACKET && s[n + 3] == SPACE && s[n + 4] == RBRACKET && s[n + 5] == SPACE;
    RunEndIs(s, 0, n, Whitespace);
    NoHeading(indent, Continuation(CheckboxItem(DASH)));
    RunEndIs(s, n + 5, n + 6, Whitespace);
    BoxStartMatched(s, n);
  }

  lemma BulletContentStart(indent: Str, m: Unit)
    requires AllWhitespace(indent) && IsBulletMarker(m)
    ensures ContentStart(indent + Continuation(BulletItem(m))) == |indent| + 2
  {
    var s := indent + Continuation(BulletItem(m));
    var n := |indent|;
    assert s[n] == m && s[n + 1] == SPACE;
    RunEndIs(s, 0, n, Whitespace);
    NoHeading(indent, Continuation(BulletItem(m)));
    RunEndIs(s, n + 1, n + 2, Whitespace);
    RunEndIs(s, n, n, Digit);
    BulletStartMatched(s, n);
  }

  lemma NumberContentStart(indent: Str, k: nat)
    requires AllWhitespace(indent)
    ensures ContentStart(indent + Continuation(NumberedItem(k, DOT))) == |indent + Continuation(NumberedItem(k, DOT))|
  {
    var digits := DecimalString(k + 1);
    assert indent + digits + [DOT, SPACE] == indent + Continuation(NumberedItem(k, DOT));
    NumberStartAt(indent, digits);
  }

  /** The indent, digits, a dot and a space: the content starts at the end. */
  lemma NumberStartAt(indent: Str, digits: Str)
    requires AllWhitespace(indent) && digits != [] && AllDigits(digits)
    ensures ContentStart(indent + digits + [DOT, SPACE]) == |indent| + |digits| + 2
  {
    var s := indent + digits + [DOT, SPACE];
    var n := |indent|;
    var d := n + |digits|;
    assert s == indent + (digits + [DOT, SPACE]);
    assert s[d] == DOT && s[d + 1] == SPACE;
    RunEndIs(s, 0, n, Whitespace);
    NoHeading(indent, digits + [DOT, SPACE]);
    DigitRunEnd(indent, digits, [DOT, SPACE]);
    RunEndIs(s, d + 1, d + 2, Whitespace);
    OrderedStartMatched(s, n, d);
  }

  /** A run of digits after the indent ends where the digits end. */
  lemma DigitRunEnd(indent: Str, digits: Str, tail: Str)
    requires AllDigits(digits) && tail != [] && !InClass(tail[0], Digit)
    ensures RunEnd(indent + digits + tail, |indent|, Digit) == |indent| + |digits|
  {
    var s := indent + digits + tail;
    var n := |indent|;
    forall i | n <= i < n + |digits| ensures InClass(s[i], Digit) {
      assert s[i] == digits[i - n];
    }
    assert s[n + |digits|] == tail[0];
    RunEndIs(s, n, n + |digits|, Digit);
  }

  lemma BoxStartMatched(s: Str, n: nat)
    requires n + 6 == |s| && IndentLength(s) == n && RunEnd(s, 0, Hash) == 0 && RunEnd(s, n + 5, Whitespace) == n + 6
    requires s[n] == DASH && IsWhitespace(s[n + 1]) && s[n + 2] == LBRACKET && IsBoxFill(s[n + 3]) && s[n + 4] == RBRACKET
    ensures ContentStart(s) == |s|
  {
  }

  lemma BulletStartMatched(s: Str, n: nat)
    requires n + 2 == |s| && IndentLength(s) == n && RunEnd(s, 0, Hash) == 0 && RunEnd(s, n + 1, Whitespace) == n + 2
    requires RunEnd(s, n, Digit) == n && IsBulletMarker(s[n])
    ensures ContentStart(s) == |s|
  {
  }

  lemma OrderedStartMatched(s: Str, n: nat, d: nat)
    requires n < d && d + 2 == |s| && IndentLength(s) == n && RunEnd(s, 0, Hash) == 0
    requires RunEnd(s, n, Digit) == d && s[d] == DOT && RunEnd(s, d + 1, Whitespace) == d + 2
    ensures ContentStart(s) == |s|
  {
    assert IsDigit(s[n]);
  }
}
