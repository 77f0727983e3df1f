# markdown-inline-preview: a verified model of its text-editing core

This project is a Dafny model of the text-editing core of the VS Code
extension *markdown-inline-preview*. The extension makes the Markdown
editor behave somewhat like Obsidian. Two editions of the extension's
main file are modelled, and their behaviour is kept apart:
`src/extension-obsidian.js` (the current edition) and
`src/extension-obsidian-backup.js` (the older one).

The centre of both editions is a **pipe-table formatter**. Given the
document's lines and a line index, it:

- finds the block of `|` lines around the line;
- splits each row into trimmed cells and recognises the separator row
  (`---`, `:---`, `---:`, `:---:`, as in the "Tables (extension)" section
  of GitHub Flavored Markdown);
- measures every column with a width function that counts full-width
  code units twice;
- pads the cells, renders every row again, and replaces only the lines
  whose text changes.

The two formatters differ in many details, so each is its own module
(`ObsidianTable`, `BackupTable`). The older edition also converts a run
of comma-separated lines into a table (`BackupCsv`) and reformats a
single line as it is typed (`BackupAutoFormat`).

Around the formatters sit the line-level editing commands, each
modelled as a function of the document's lines (or of one line):

- smart Enter, which continues checkbox, bullet and numbered list items
  and clears an empty item;
- the checkbox toggle;
- indent and outdent;
- fence parity, fence pairing, and the automatic closing of a
  "```" fence;
- Cmd+Left, which moves the cursor to where a list line's content starts;
- the staged "smart select left" of both editions;
- the older edition's "smart select all", which selects a code block;
- moving a line together with its child lines (the hierarchy move),
  then formatting the table it lands in.

## How the model is built

- **Strings and documents.** A JavaScript string is a sequence of UTF-16
  code units. `length`, indexing, `substring` and `split` count code
  units, and both width functions add up a width per code unit. So a
  string is a `seq<Unit>`, where `Unit` is a 16-bit newtype. A document
  is a `seq<Str>` of lines. An edit is `Edit(line, text)`, the
  replacement of a whole line.
- **White space** is the set that JavaScript's `\s` and `trim` use. It
  includes U+3000 (the ideographic space), U+00A0, U+FEFF and
  U+2028/U+2029. Trimming is idempotent only with that set, because the
  formatter pads with U+3000.
- **Loops become methods.** Every loop of the source is a `method` with
  loop invariants. Examples are the width sum, the padding loops, the
  block scans, the parse loop, the column-width array, the rendering
  loops, the fence-pairing loop and the hierarchy scans. Each method is
  proved equal to a recursive specification function, and the
  properties are proved as lemmas about that function.
- **The obsidian column widths live in an `array`.** `colWidths` is
  filled with 3 and raised in place, as in the source.
- **Host calls become values.** A command returns the edits it asks the
  editor to make and the selection it sets, rather than calling the
  editor. The IME flag `isComposing` is a boolean parameter. The cursor
  that the host reports after an edit is a parameter too.

Points about the code worth knowing:

- **Cursor after a backup-edition format.** The `then` step reads the
  cursor line after the edit, both to count the cell the cursor is in
  (`src/extension-obsidian-backup.js:1375`) and to split it into cells
  (`:1379`), so `BackupTable.RemapCursor` takes the edited document only.
- **Blank lines and the shape guard.** Only the current edition stops a
  table at a blank line and requires two rows and a separator row. The
  backup edition scans across blank lines and formats any block.
- **Full-width padding in the current edition** is chosen per cell, from
  whether that cell holds a full-width code unit. It is not chosen per
  column.
- **Separator cells** have at least 3 units in both editions. In the
  current edition the separator cell has `max(3, w)` units, counting its
  colons. In the backup edition it has `max(w + 2, 3)` units.
- **A cursor line without `|`** stops the current edition's upward scan
  at once. The downward scan still extends the block. So
  `ObsidianTable.FindTableBlock` promises `|` on every line of the block
  except possibly the cursor line.
- **Moving a block down onto the last line** makes the source's
  `lineAt(targetLine)` throw. The model returns `None` for it, like the
  moves that return early.

Some behaviours that the proofs bring out:

- **A bare item in the backup smart select left.** On an item with
  nothing after its prefix (`- [ ] `), the first stage is an empty
  selection at the end of the line. Every later press lands there again
  (`BackupEditing.SelectLeftBareItem`).
- **"Inside a code block" in the backup smart select all** means between
  any two fence lines, whichever blocks they belong to
  (`BackupEditing.SelectAllFallsBack`).
- **A line with no element in the current smart select left.** When the
  element ends where the indent does, the content stage is already the
  line stage. The hierarchy stage is then never reached
  (`ObsidianSelect.SelectLeftFixedPoint`).

## Model

| member | source | states |
|---|---|---|
| Text.Repeat | src/extension-obsidian.js:603 | `'-'.repeat(n)` and the like: exactly `n` copies of the unit |
| Text.RunEnd | src/extension-obsidian.js:934-965 | the end of the longest run of a character class from `i`: every unit before it is in the class, the unit at it is not |
| Text.IndentLength | src/extension-obsidian.js:1302 | the leading white-space match: all white space, and the next unit (if any) is not |
| Text.TrimStartIndent | src/extension-obsidian-backup.js:1416 | `trimLeft` drops exactly the indent |
| Text.TrimEndShape | src/extension-obsidian-backup.js:1417 | `trimRight` removes a trailing white-space run and nothing else, leaving no white space at the end |
| Text.TrimParts | src/extension-obsidian.js:519 | `trim` gives a trimmed middle of the string after its indent, with only white space after it, and is empty exactly for an all-white-space string |
| Text.TrimAround | src/extension-obsidian.js:519 | white space added on both sides of a trimmed string trims away again |
| Text.TrimIdempotent | src/extension-obsidian.js:519 | trimming twice equals trimming once |
| Text.RemoveWhitespace | src/extension-obsidian.js:524 | `replace(/\s+/g, '')` leaves no white space and never lengthens |
| Text.RemoveWhitespaceKeeps | src/extension-obsidian.js:524 | a string without white space is left as it is |
| Text.Split | src/extension-obsidian.js:515 | `split` with a one-unit separator: at least one piece, none holding the separator |
| Text.JoinSplit | src/extension-obsidian.js:515 | joining the pieces with the separator gives back the string |
| Text.SplitJoin | src/extension-obsidian-backup.js:1480 | splitting a join of separator-free pieces gives back the pieces |
| Text.SplitCount | src/extension-obsidian-backup.js:1377 | a string splits into one piece more than it has separators |
| Text.CountUnit | src/extension-obsidian-backup.js:1377 | the number of separators, zero exactly when there is none |
| Text.SplitFramed | src/extension-obsidian.js:597-617 | a row `'\|' + segments joined by '\|' + '\|'` splits into an empty piece, the segments and an empty piece |
| Text.FramedJoin | src/extension-obsidian-backup.js:1480 | a framed row is the join of its segments between two pipes |
| Text.FramedPrefix | src/extension-obsidian.js:597-616 | the row built so far grows by one segment and one `\|` per column |
| Text.ApplyEdits | src/extension-obsidian.js:621-627 | applying line replacements keeps the number of lines |
| Text.ChangedKeeps | src/extension-obsidian.js:621-627 | the kept replacements are exactly those that differ from their line |
| Text.ApplyEditsAt | src/extension-obsidian.js:621-627 | with lines in increasing order, a named line gets its replacement text and every other line keeps its text |
| Text.ApplyChanged | src/extension-obsidian.js:621-627 | applying only the differing replacements still gives every named line its replacement and keeps the others |
| Text.ChangedNone | src/extension-obsidian-backup.js:1361-1368 | replacements that all match their lines leave nothing to apply |
| Text.IndexOf | src/extension-obsidian.js:767-768 | `indexOf`: found exactly when the pattern occurs, and then at its first occurrence |
| Text.IndexOfFrom | src/extension-obsidian.js:767-768 | the first occurrence at or after a position, or proof that there is none |
| Text.DecimalString | src/extension-obsidian.js:416-417 | the decimal numeral of a number: digits only, no leading zero |
| Text.DecimalRoundTrip | src/extension-obsidian.js:416-417 | reading the numeral back gives the number |
| Checkbox.FirstChecked | src/extension-obsidian.js:777 | the leftmost `- [x]` or `- [X]`, or proof that the line has neither |
| Checkbox.Toggle | src/extension-obsidian.js:767-786 | no rewrite exactly when the line has no `- [ ]`, `- [x]` or `- [X]`; a rewrite keeps the length |
| Checkbox.CheckThenUncheck | src/extension-obsidian.js:767-786 | toggling twice restores a line whose only `- [ ]` comes before any checked box |
| Checkbox.UncheckThenCheck | src/extension-obsidian.js:767-786 | toggling twice restores a line without `- [ ]` whose first checked box has a lower-case `x` |
| Checkbox.ToggleChangesOneUnit | src/extension-obsidian-backup.js:1133-1137 | a toggle changes exactly one code unit, the state inside the box it finds, between space and a mark |
| Checkbox.ReplaceOccurs | src/extension-obsidian.js:768 | writing a marker creates no overlapping marker elsewhere and keeps the markers away from it |
| Selections.Start | src/extension-obsidian.js:1054 | `selection.start`: the earlier of anchor and active |
| Selections.End | src/extension-obsidian.js:1055 | `selection.end`: the later of anchor and active |
| ObsidianTable.WidthBounds | src/extension-obsidian.js:464-489 | length ≤ width ≤ 2·length, with 2·length exactly when every unit is full-width |
| ObsidianTable.WidthAppend | src/extension-obsidian.js:481-489 | the width of a concatenation is the sum of the widths |
| ObsidianTable.GetStringWidth | src/extension-obsidian.js:481-489 | the loop returns the width, between the length and twice the length |
| ObsidianTable.RepeatWidth | src/extension-obsidian.js:502-507 | n copies of a unit are n or 2n wide |
| ObsidianTable.PaddingWidth | src/extension-obsidian.js:492-509 | the padding is exactly as wide as the missing width, and empty when nothing is missing |
| ObsidianTable.PaddedWidth | src/extension-obsidian.js:492-509 | content already wide enough comes back unchanged; otherwise the result starts with the content and reaches the target width exactly |
| ObsidianTable.PaddingUnits | src/extension-obsidian.js:497 | the padding is white space without `\|`, and plain spaces for content without a full-width unit |
| ObsidianTable.PadCell | src/extension-obsidian.js:492-509 | the while loops build the padded cell |
| ObsidianTable.TrimAll | src/extension-obsidian.js:519 | every cell is its piece trimmed |
| ObsidianTable.SplitTableLine | src/extension-obsidian.js:512-520 | `null` exactly for a line without `\|` |
| ObsidianTable.SplitTableLineCells | src/extension-obsidian.js:512-520 | the cells are the trimmed pieces between the pipes, minus at most one blank piece at each end, each trimmed and free of `\|` |
| ObsidianTable.SplitHasTwo | src/extension-obsidian.js:513-515 | a line with `\|` splits into at least two pieces |
| ObsidianTable.MarkerGrammar | src/extension-obsidian.js:522-525 | the separator test accepts exactly the strings of `:?-+:?` |
| ObsidianTable.MarkerOfIsMarker | src/extension-obsidian.js:524 | every string of the grammar passes the test |
| ObsidianTable.MarkerIsMarkerOf | src/extension-obsidian.js:524 | every string that passes the test is in the grammar |
| ObsidianTable.ExtendUp | src/extension-obsidian.js:533-543 | the upward scan covers only `\|` lines and stops below a line without `\|` or at the top |
| ObsidianTable.BlockEnd | src/extension-obsidian.js:546-555 | the downward scan covers only `\|` lines and stops above a line without `\|` or at the bottom |
| ObsidianTable.FindTableBlock | src/extension-obsidian.js:527-557 | start ≤ line ≤ end; every other line of the block has `\|`; the line after it has none; and when the cursor line has `\|`, neither has the line before |
| ObsidianTable.RowAt | src/extension-obsidian.js:568-577 | a line gives a row only when it has cells, and the row names that line |
| ObsidianTable.LineRows | src/extension-obsidian.js:568-577 | the row of every line, each indexed by its own line |
| ObsidianTable.Collect | src/extension-obsidian.js:568-577 | the rows of a range of lines lie in that range, at most one per line |
| ObsidianTable.CollectOwnLines | src/extension-obsidian.js:568-577 | each collected row is the row of its own line |
| ObsidianTable.CollectOrdered | src/extension-obsidian.js:568-577 | collected rows come in strictly increasing line order |
| ObsidianTable.ParseRowsOwnLines | src/extension-obsidian.js:568-577 | each parsed row of the block is the row of its own line, inside the block |
| ObsidianTable.ParseRowsInDoc | src/extension-obsidian.js:568-577 | every parsed row names a line of the document |
| ObsidianTable.ParseRowsOrdered | src/extension-obsidian.js:568-577 | parsed rows are in strictly increasing line order |
| ObsidianTable.MaxColsBound | src/extension-obsidian.js:576 | no row has more cells than `maxCols` |
| ObsidianTable.MaxColsAttained | src/extension-obsidian.js:576 | some row has exactly `maxCols` cells |
| ObsidianTable.MaxColsSnoc | src/extension-obsidian.js:576 | one more row raises `maxCols` to its cell count |
| ObsidianTable.ColWidth | src/extension-obsidian.js:584-592 | a column is at least 3 wide |
| ObsidianTable.ColWidthSnoc | src/extension-obsidian.js:587-591 | a data row raises a column to its cell's width; a separator row leaves it |
| ObsidianTable.ColWidthBound | src/extension-obsidian.js:584-592 | no data cell is wider than its column |
| ObsidianTable.ColWidthAttained | src/extension-obsidian.js:584-592 | a column wider than 3 is exactly as wide as one of its data cells |
| ObsidianTable.Widths | src/extension-obsidian.js:584-592 | one width per column |
| ObsidianTable.Segments | src/extension-obsidian.js:595-616 | one rendered segment per column, so every row has `maxCols` cells |
| ObsidianTable.Rendered | src/extension-obsidian.js:595-618 | one replacement per row, for that row's own line |
| ObsidianTable.ParseBlock | src/extension-obsidian.js:568-577 | the parse loop pushes the row of every line with cells, in order, and tracks `maxCols` |
| ObsidianTable.ParseLine | src/extension-obsidian.js:569-576 | one line of the parse loop keeps the loop invariant |
| ObsidianTable.ComputeColumnWidths | src/extension-obsidian.js:584-592 | the array filled with 3 and raised in place holds each column's width |
| ObsidianTable.RaiseColumnWidths | src/extension-obsidian.js:587-591 | the inner loop over one row raises the array to that row's widths |
| ObsidianTable.RaiseColumn | src/extension-obsidian.js:589-590 | `Math.max(3, width)` replaces one column's width and nothing else |
| ObsidianTable.RenderRowText | src/extension-obsidian.js:596-617 | the loop over the columns builds the row text |
| ObsidianTable.RenderRows | src/extension-obsidian.js:595-618 | the `newLines` loop gives one replacement per row |
| ObsidianTable.KeepChanged | src/extension-obsidian.js:621-627 | the edit callback keeps exactly the replacements that differ from their lines |
| ObsidianTable.FormatBlockAt | src/extension-obsidian.js:568-627 | the part after the block scan computes the block's edits |
| ObsidianTable.FormatTableAtLine | src/extension-obsidian.js:559-629 | `formatTableAtLine` computes the edits of `FormatTable`, about which idempotence and rendering are proved |
| ObsidianTableProofs.FormatIdempotent | src/extension-obsidian.js:559-629 | the edits stay in the document, and formatting the formatted document at the same line makes no edit |
| ObsidianTableProofs.FormatBlockAgain | src/extension-obsidian.js:559-629 | a formatted block is found again in the formatted document and left alone |
| ObsidianTableProofs.FormatBlockNone | src/extension-obsidian.js:578-581 | a block without two rows and a separator row gets no edit |
| ObsidianTableProofs.FormatTableBlock | src/extension-obsidian.js:562-566 | on a line of the document the command formats the block around that line |
| ObsidianTableProofs.FormatTableRows | src/extension-obsidian.js:578-627 | a block with two rows and a separator row is edited by formatting its parsed rows |
| ObsidianTableProofs.FormatBlockRows | src/extension-obsidian.js:578-627 | the same, for a block given by its bounds |
| ObsidianTableProofs.FormatRowsInto | src/extension-obsidian.js:595-627 | the edits stay in the document, keep `\|` on the same lines, and put every row's rendering on its line |
| ObsidianTableProofs.FormatRowsStable | src/extension-obsidian.js:595-627 | formatting the same block of the formatted document again makes no edit |
| ObsidianTableProofs.FormattedBlockStable | src/extension-obsidian.js:595-627 | a block whose rows were formatted into the document gives no further edit |
| ObsidianTableProofs.FormattedTableStable | src/extension-obsidian.js:527-557 | when the block is left alone in a document with `\|` on the same lines, so is the line's table |
| ObsidianTableProofs.SameBlock | src/extension-obsidian.js:527-557 | documents with `\|` on the same lines have the same block around each line |
| ObsidianTableProofs.ReparsedBlock | src/extension-obsidian.js:568-577 | the rows of a formatted block are the rows parsed back from its renderings |
| ObsidianTableProofs.ReformatNothing | src/extension-obsidian.js:595-627 | the parsed-back rows keep the widths and render as their lines already read |
| ObsidianTableProofs.NothingToChange | src/extension-obsidian.js:621-627 | rows that already hold their renderings give no edit |
| ObsidianTableProofs.FormattedPipes | src/extension-obsidian.js:595-618 | formatting keeps every line's `\|` or lack of one |
| ObsidianTableProofs.ParsedApplied | src/extension-obsidian.js:595-627 | formatting parsed rows puts each rendering on its line and keeps every `\|` |
| ObsidianTableProofs.AppliedFormat | src/extension-obsidian.js:621-627 | applying the differing renderings formats the rows into the document |
| ObsidianTableProofs.RenderRowSplit | src/extension-obsidian.js:512-520 | a rendered row has `\|` and splits back into one trimmed piece per column |
| ObsidianTableProofs.ReRowCell | src/extension-obsidian.js:512-520 | each cell of a parsed-back row is the trimmed source cell or the rendered marker |
| ObsidianTableProofs.ReRowParsed | src/extension-obsidian.js:568-577 | a parsed-back row is again a parsed row with the same separator flag |
| ObsidianTableProofs.ReRowRenders | src/extension-obsidian.js:595-617 | a parsed-back row renders to the same text |
| ObsidianTableProofs.ReRowDataWidth | src/extension-obsidian.js:584-592 | a parsed-back data row measures the same in every column |
| ObsidianTableProofs.ReRowsColWidth | src/extension-obsidian.js:584-592 | the parsed-back rows give the same column widths |
| ObsidianTableProofs.ReRowsMaxCols | src/extension-obsidian.js:576 | every parsed-back row has one cell per column |
| ObsidianTableProofs.ReRowsWidths | src/extension-obsidian.js:584-592 | parsing back the rendered rows gives the same widths |
| ObsidianTableProofs.ParseRowsAfter | src/extension-obsidian.js:568-577 | parsing the formatted lines gives the parsed-back rows of the block |
| ObsidianTableProofs.CollectAfter | src/extension-obsidian.js:568-577 | collecting parsed-back lines gives the parsed-back collected rows |
| ObsidianTableProofs.RowAtAfter | src/extension-obsidian.js:568-577 | each line of a formatted block parses to its parsed-back row |
| ObsidianTableProofs.ParseRowsAscending | src/extension-obsidian.js:568-577 | the block's rows come in line order |
| ObsidianTableProofs.BlockRow | src/extension-obsidian.js:568-577 | every row of a block is the parsed row of its own line |
| ObsidianTableProofs.ParseRowsHas | src/extension-obsidian.js:568-577 | every line of the block that has cells contributes its row |
| ObsidianTableProofs.CollectHas | src/extension-obsidian.js:568-577 | every line in range with a row contributes it |
| ObsidianTableProofs.CellsFit | src/extension-obsidian.js:584-592 | no row has more cells than there are columns |
| ObsidianTableProofs.SepSegmentShape | src/extension-obsidian.js:598-609 | a separator cell has exactly `max(3, w)` units, is a marker, and has no white space and no `\|` |
| ObsidianTableProofs.SepSegmentColons | src/extension-obsidian.js:598-609 | a separator cell starts (ends) with `:` exactly when the source cell did |
| ObsidianTableProofs.SepSegmentMarker | src/extension-obsidian.js:598-609 | a separator cell is the marker with the source cell's colons and `max(3, w)` units |
| ObsidianTableProofs.DashesMarker | src/extension-obsidian.js:603-608 | replacing the end dashes by the colons asked for leaves a marker of the same length |
| ObsidianTableProofs.MarkerUnits | src/extension-obsidian.js:524 | a marker is colons and dashes, with a colon at an end exactly when built with one |
| ObsidianTableProofs.MarkerShape | src/extension-obsidian.js:524 | a marker survives white-space stripping and trimming and has no `\|` |
| ObsidianTableProofs.DataSegmentWidth | src/extension-obsidian.js:610-616 | a data cell renders as `' ' + padCell(cell, w) + ' '`, w + 2 wide |
| ObsidianTableProofs.DataCellReparse | src/extension-obsidian.js:610-616 | trimming a rendered data cell gives back the cell |
| ObsidianTableProofs.CellTextReparse | src/extension-obsidian.js:596-616 | a rendered cell has no `\|` and trims back to its parsed-back cell |
| ObsidianFences.FenceLines | src/extension-obsidian.js:252-261 | the number of fence lines among the first n lines, at most n |
| ObsidianFences.InFenceParity | src/extension-obsidian.js:252-261 | the in-fence flag is set exactly after an odd number of fence lines |
| ObsidianFences.IsInFencedCodeBlock | src/extension-obsidian.js:252-261 | the loop's answer: the lines up to and including this one hold an odd number of fence lines |
| ObsidianFences.PairFencesInvariant | src/extension-obsidian.js:706-722 | every pair the loop closes is two consecutive fence lines, one pair per two fence lines |
| ObsidianFences.PairingSkip | src/extension-obsidian.js:706-722 | a line that is not a fence keeps the pairing |
| ObsidianFences.PairingOpen | src/extension-obsidian.js:710-713 | a fence line outside a block opens one |
| ObsidianFences.PairingClose | src/extension-obsidian.js:714-720 | a fence line inside a block closes it as a paired block |
| ObsidianFences.CodeBlocksPaired | src/extension-obsidian.js:700-728 | the decorated blocks are disjoint, each opens at a fence line outside a block with no fence in between, ends at the next fence or the last line, and there are ⌈fences/2⌉ of them |
| ObsidianFences.CodeBlockRanges | src/extension-obsidian.js:700-728 | the pairing loop with `inFence` and `fenceStart` computes those blocks |
| ObsidianFences.FenceCountFromBounds | src/extension-obsidian.js:140 | the global "```" match finds something exactly when "```" occurs, three units per match |
| ObsidianFences.FenceCountIncludes | src/extension-obsidian.js:140 | a line has matches exactly when it includes "```" |
| ObsidianFences.FenceCountRun | src/extension-obsidian.js:140 | a run of n backticks holds ⌊n/3⌋ matches |
| ObsidianFences.PrefixFence | src/extension-obsidian.js:146-147 | a match before the cursor is a match in the line |
| ObsidianFences.CountFencesBefore | src/extension-obsidian.js:136-153 | the counting loop counts the "```" matches before the cursor |
| ObsidianFences.CloseFenceEven | src/extension-obsidian.js:155-166 | after an odd count, inserting "\n\n```" at the line end closes the fence: an odd count up to the new empty line, an even count through the new fence, and the cursor at the start of the new empty line |
| ObsidianLines.EnterActionAt | src/extension-obsidian.js:279-333 | one cursor's decision; a line is cleared only when it exists |
| ObsidianLines.Continuations | src/extension-obsidian.js:279-424 | one continuation entry per cursor |
| ObsidianLines.SmartEnterPlan | src/extension-obsidian.js:279-424 | the loop fills `preEdits` and `continuationTexts` with `PreEdits` and `Continuations`, about which the clearing and continuation lemmas are proved |
| ObsidianLines.ContinuationsAt | src/extension-obsidian.js:279-424 | each cursor gets the continuation its own line calls for |
| ObsidianLines.PreEditsShape | src/extension-obsidian.js:307-319 | every cleared line exists and is replaced by white space shorter than itself |
| ObsidianLines.EnterClears | src/extension-obsidian.js:298-333 | Enter clears a line exactly when it is an item with nothing after its marker and the cursor is at its end; what is left is white space, shorter than the line |
| ObsidianLines.DedentShorter | src/extension-obsidian.js:307-319 | the dedent is white space and removes at least one unit from a non-empty indent |
| ObsidianLines.ItemParts | src/extension-obsidian.js:298-418 | an item's indent is white space, its content is the line's tail and starts with something else, its kind is valid |
| ObsidianLines.CheckboxAt | src/extension-obsidian.js:298 | a line laid out as a checkbox item parses as one |
| ObsidianLines.BulletAt | src/extension-obsidian.js:339-375 | a line laid out as a bullet item without a box parses as a bullet |
| ObsidianLines.NumberedAt | src/extension-obsidian.js:380-418 | a line laid out as a numbered item parses with the value of its digits |
| ObsidianLines.ContinuationParses | src/extension-obsidian.js:333-417 | the indent plus a continuation is an empty item of the next kind |
| ObsidianLines.BoxContinuationParses | src/extension-obsidian.js:333 | a checkbox continuation `m [ ] ` is an empty checkbox item |
| ObsidianLines.BulletContinuationParses | src/extension-obsidian.js:374 | a bullet continuation `m ` is an empty bullet item |
| ObsidianLines.NumberContinuationParses | src/extension-obsidian.js:416-417 | a numbered continuation is an empty item numbered one higher |
| ObsidianLines.ContinuedItemClears | src/extension-obsidian.js:298-424 | a second Enter on a fresh continuation clears it to the dedented indent: two Enters end a list |
| ObsidianLines.AdjustIndentAt | src/extension-obsidian.js:1246-1284 | the single-line path: increasing always rewrites the line, adds two units, outdents back to the line and moves the cursor by 2; decreasing rewrites exactly a line starting with a tab or a space, removes at most two leading units, keeps the rest, and keeps the cursor on its character (the intended cursor, see "## Findings") |
| ObsidianLines.ToggleCheckbox | src/extension-obsidian.js:759-786 | no rewrite exactly when the shared toggle finds no box; the cursor lies in the new line |
| ObsidianLines.BoxEndAfter | src/extension-obsidian.js:771-781 | after a box of the kind looked for, the cursor goes past the white space that follows it |
| ObsidianLines.CheckCursor | src/extension-obsidian.js:767-774 | checking `indent - [ ] text` writes an `x` and puts the cursor at the text |
| ObsidianLines.UncheckCursor | src/extension-obsidian.js:776-782 | unchecking `indent - [x] text` restores the open box and puts the cursor at the text |
| ObsidianLines.OpenBoxFirst | src/extension-obsidian.js:768 | the open box after the indent is the first one |
| ObsidianLines.DoneBoxFirst | src/extension-obsidian.js:777 | the checked box after the indent is the first checked one |
| ObsidianLines.OutdentIndent | src/extension-obsidian.js:1227-1240 | outdent undoes indent |
| ObsidianLines.OutdentedShape | src/extension-obsidian.js:1231-1239 | outdent removes at most two tab or space units from the front, and nothing exactly when the line starts with neither |
| ObsidianLines.AdjustIndentLines | src/extension-obsidian.js:1218-1244 | the loop over the selected lines builds the rewrite edits |
| ObsidianLines.IndentEditsApplied | src/extension-obsidian.js:1218-1244 | after the edits every selected line is rewritten and every other line is kept |
| ObsidianLines.IndentEditsAscending | src/extension-obsidian.js:1218-1244 | the edits come in line order |
| ObsidianLines.IndentEditsLines | src/extension-obsidian.js:1218-1244 | every edit names a selected line and holds its rewrite |
| ObsidianLines.IndentEditsCover | src/extension-obsidian.js:1218-1244 | every selected line without an edit already equals its rewrite |
| ObsidianLines.IndentLinesRoundTrip | src/extension-obsidian.js:1218-1244 | indenting then outdenting the same lines restores the document |
| ObsidianLines.OutdentedCursorAsWrittenStays | src/extension-obsidian.js:1277-1284 | as written, the cursor never moves after an outdent |
| ObsidianLines.OutdentedCursorAsWrittenJumps | src/extension-obsidian.js:1277-1284 | on "  ab" with the cursor before `a`, the cursor as written ends after `b` |
| ObsidianLines.OutdentedCursorKeepsCharacter | src/extension-obsidian.js:1246-1284 | the corrected cursor stays on the same character and undoes the indent's move of two |
| ObsidianLines.QuoteRun | src/extension-obsidian.js:934-965 | the end of the quote-marker run lies within the line |
| ObsidianLines.ElementEnd | src/extension-obsidian.js:934-965 | a leading element ends inside the line, after its start |
| ObsidianLines.ContentStart | src/extension-obsidian.js:925-970 | Cmd+Left's column lies within the line |
| ObsidianLines.ContinuationContentStart | src/extension-obsidian.js:934-965 | on a fresh `-` box, bullet or `.` number continuation, Cmd+Left goes to the end of the marker |
| ObsidianLines.BoxContentStart | src/extension-obsidian.js:934-965 | after the indent and `- [ ] ` the content starts six units on |
| ObsidianLines.BulletContentStart | src/extension-obsidian.js:934-965 | after the indent and a bullet marker with its space the content starts two units on |
| ObsidianLines.NumberContentStart | src/extension-obsidian.js:934-965 | after the indent and `n. ` the content starts at the end |
| ObsidianSelect.HierStart | src/extension-obsidian.js:1075-1085 | the first line of the same-level run is at or above the line |
| ObsidianSelect.HierEnd | src/extension-obsidian.js:1088-1098 | the last line of the same-level run is at or below the line |
| ObsidianSelect.HierStartRun | src/extension-obsidian.js:1075-1085 | every line of the run above is at the same level, and the line before it is not |
| ObsidianSelect.HierEndRun | src/extension-obsidian.js:1088-1098 | every line of the run below is at the same level, and the line after it is not |
| ObsidianSelect.ScanUp | src/extension-obsidian.js:1075-1085 | the upward loop finds the run's first line |
| ObsidianSelect.ScanDown | src/extension-obsidian.js:1088-1098 | the downward loop finds the run's last line |
| ObsidianSelect.SmartSelectLeft | src/extension-obsidian.js:975-1118 | the command returns the selection of the stage machine |
| ObsidianSelect.SelectLeftStages | src/extension-obsidian.js:1058-1117 | from a caret, presses select the content, then the line after its indent, then the same-level run |
| ObsidianSelect.HierarchyStage | src/extension-obsidian.js:1068-1107 | the hierarchy stage selects a maximal run of same-level lines around the line, start to end |
| ObsidianSelect.SelectLeftFixedPoint | src/extension-obsidian.js:1058-1068 | when the element ends at the indent, the content selection is kept on every press |
| ObsidianSelect.SelectLeftEmptied | src/extension-obsidian.js:1000-1038 | on an emptied checkbox or bullet every press selects from the indent to the line end |
| ObsidianMove.BlockEnd | src/extension-obsidian.js:1302-1312 | the block reaches from the selection's last line to at most the last line |
| ObsidianMove.BlockEndRun | src/extension-obsidian.js:1302-1312 | the block takes in every deeper line below the selection and stops at the first other line |
| ObsidianMove.BlockEndStops | src/extension-obsidian.js:1302-1312 | a run of deeper lines that ends at a shallower line is the block |
| ObsidianMove.ScanBlockEnd | src/extension-obsidian.js:1302-1312 | the loop finds the block's last line |
| ObsidianMove.ReindentLines | src/extension-obsidian.js:1348-1358 | one re-indented line per moved line |
| ObsidianMove.CollectBlock | src/extension-obsidian.js:1348-1358 | the loop collects the block re-indented as intended |
| ObsidianMove.ReindentKeepsText | src/extension-obsidian.js:1352-1356 | the intended re-indent moves the indent by the difference, never below zero, and keeps everything after the indent |
| ObsidianMove.ReindentAsWrittenAgrees | src/extension-obsidian.js:1352-1356 | where the line has the indent the cut needs, the code as written does the same |
| ObsidianMove.ReindentNone | src/extension-obsidian.js:1343-1356 | a zero indent change leaves the lines as they are |
| ObsidianMove.MoveSelectedLines | src/extension-obsidian.js:1289-1391 | the move part of the command returns `MoveLines`, the move with the intended re-indent |
| ObsidianMove.MoveAndFormat | src/extension-obsidian.js:1384-1395 | after the move, the table at the new active line is formatted: the selection and line count are the move's, that table needs no further formatting, and a move that leaves nothing to format is the plain move |
| ObsidianMove.MoveLineWithHierarchy | src/extension-obsidian.js:1289-1395 | the command returns `MoveAndFormat`: the move, then the format of the table at the new active line |
| ObsidianMove.MoveNone | src/extension-obsidian.js:1298-1299 | nothing moves exactly at the top going up, and going down when the block reaches the last line |
| ObsidianMove.MoveWithBlock | src/extension-obsidian.js:1302-1344 | away from the ends, the move takes the block found by the scan |
| ObsidianMove.MoveBlockIs | src/extension-obsidian.js:1314-1391 | the move swaps the re-indented block with the line it passes and shifts the selection by one |
| ObsidianMove.UpArrangement | src/extension-obsidian.js:1361-1371 | moving lines s..b up puts them one higher, the passed line after them, and keeps every other line |
| ObsidianMove.DownArrangement | src/extension-obsidian.js:1372-1383 | moving the raised block down puts the passed line back above it |
| ObsidianMove.UpUnchanged | src/extension-obsidian.js:1289-1391 | under the reversibility conditions the block goes up unchanged |
| ObsidianMove.DownRestores | src/extension-obsidian.js:1289-1391 | moving the raised block down restores the document and the selection |
| ObsidianMove.RaisedShape | src/extension-obsidian.js:1302-1340 | the raised block starts one line higher, keeps its indent and still ends where its child lines end |
| ObsidianMove.RaisedMove | src/extension-obsidian.js:1372-1391 | moving the raised block down gives back the document and the selection |
| ObsidianMove.MoveUpThenDown | src/extension-obsidian.js:1289-1391 | moving up then down restores the document and the selection, when the indent does not change, the passed line is not deeper and the block does not reach the last line |
| ObsidianMove.MoveAsWrittenLosesText | src/extension-obsidian.js:1354-1356 | as written, moving "  - b" and "c" up past "- a" turns "c" into an empty line |
| ObsidianMove.MoveKeepsText | src/extension-obsidian.js:1289-1391 | the intended re-indent moves the same lines and keeps "c" |
| BackupTable.WidthBounds | src/extension-obsidian-backup.js:1203-1218 | length ≤ width ≤ 2·length; 2·length exactly when all units are full-width, length exactly when none is |
| BackupTable.WidthAppend | src/extension-obsidian-backup.js:1203-1218 | the width of a concatenation is the sum of the widths |
| BackupTable.GetStringWidth | src/extension-obsidian-backup.js:1203-1218 | the loop returns the width |
| BackupTable.RepeatWidth | src/extension-obsidian-backup.js:1206-1207 | n copies of a unit are n or 2n wide |
| BackupTable.PadMeaning | src/extension-obsidian-backup.js:1221-1241 | a string already wide enough comes back unchanged; otherwise the string is followed by white space without `\|` and reaches the target exactly |
| BackupTable.PadAbove | src/extension-obsidian-backup.js:1221-1241 | with n missing, the padding is ⌊n/2⌋ U+3000 then one space iff n is odd, and the width is the target |
| BackupTable.PadString | src/extension-obsidian-backup.js:1221-1241 | the while loop builds the padded string |
| BackupTable.ScanUp | src/extension-obsidian-backup.js:1258-1266 | the upward scan's start is at or above the block so far |
| BackupTable.ScanDown | src/extension-obsidian-backup.js:1269-1277 | the downward scan's end is at or below the block so far |
| BackupTable.ScanUpTakes | src/extension-obsidian-backup.js:1258-1266 | the upward scan takes in only blank and `\|` lines and ends on a `\|` line |
| BackupTable.ScanUpStops | src/extension-obsidian-backup.js:1258-1266 | no `\|` line above is reachable from the block across blank lines |
| BackupTable.ScanDownTakes | src/extension-obsidian-backup.js:1269-1277 | the downward scan takes in only blank and `\|` lines and ends on a `\|` line |
| BackupTable.ScanDownStops | src/extension-obsidian-backup.js:1269-1277 | no `\|` line below is reachable from the block across blank lines |
| BackupTable.TableBlockShape | src/extension-obsidian-backup.js:1258-1277 | the block holds the line, its other lines are blank or have `\|`, its ends have `\|`, and no `\|` line outside it is reachable across blank lines |
| BackupTable.BlockAbove | src/extension-obsidian-backup.js:1258-1266 | the part of the block above the line |
| BackupTable.BlockBelow | src/extension-obsidian-backup.js:1269-1277 | the part of the block below the line |
| BackupTable.FindTableBlock | src/extension-obsidian-backup.js:1258-1277 | the two scan loops find that block |
| BackupTable.RowAt | src/extension-obsidian-backup.js:1284-1315 | a line gives a row only when it has cells, and the row names that line |
| BackupTable.ParseRows | src/extension-obsidian-backup.js:1284-1315 | every row of a range lies in that range |
| BackupTable.LineCellsTrimmed | src/extension-obsidian-backup.js:1288-1293 | every kept cell is trimmed and free of `\|` |
| BackupTable.ParseRowsClean | src/extension-obsidian-backup.js:1288-1293 | every cell of every parsed row is trimmed and free of `\|` |
| BackupTable.MaxColsBound | src/extension-obsidian-backup.js:1297 | no row has more cells than `maxColumns` |
| BackupTable.MaxColsSnoc | src/extension-obsidian-backup.js:1297 | one more row raises `maxColumns` to its cell count |
| BackupTable.Raise | src/extension-obsidian-backup.js:1307-1312 | the array after one data row covers the longer of the array and the row |
| BackupTable.Sizes | src/extension-obsidian-backup.js:1308 | one width per cell |
| BackupTable.Filled | src/extension-obsidian-backup.js:1317-1322 | the filled array covers at least `maxColumns` columns |
| BackupTable.ColumnMax | src/extension-obsidian-backup.js:1305-1322 | the reference width of a column is at least 3 |
| BackupTable.ColumnMaxBound | src/extension-obsidian-backup.js:1305-1322 | no data cell is wider than its column's reference width |
| BackupTable.ColumnMaxAttained | src/extension-obsidian-backup.js:1305-1322 | a column wider than 3 is exactly as wide as one of its data cells |
| BackupTable.RawWidthsAgree | src/extension-obsidian-backup.js:1305-1313 | the array has an entry exactly for the columns some data row reaches, and it is the reference width |
| BackupTable.RawWidthsSnoc | src/extension-obsidian-backup.js:1302-1313 | a separator row leaves the array; a data row raises it |
| BackupTable.ColumnWidthsAgree | src/extension-obsidian-backup.js:1305-1322 | after the fill, each of the `maxColumns` columns has its reference width |
| BackupTable.ColumnWidthsFit | src/extension-obsidian-backup.js:1305-1322 | the filled widths fit every data row |
| BackupTable.ParseBlock | src/extension-obsidian-backup.js:1284-1315 | the loop pushes the rows, tracks `maxColumns` and raises `columnWidths` |
| BackupTable.ParseLine | src/extension-obsidian-backup.js:1285-1314 | one line of the loop keeps the loop invariant, blank lines skipped |
| BackupTable.ContentCellsOf | src/extension-obsidian-backup.js:1288-1293 | a line's cells: split at `\|`, trimmed, empty first and last pieces dropped |
| BackupTable.RaiseWidths | src/extension-obsidian-backup.js:1305-1313 | the `forEach` raises an unset or narrower column to `max(cellWidth, 3)` |
| BackupTable.FillWidths | src/extension-obsidian-backup.js:1317-1322 | the loop sets every unset column to 3 |
| BackupTable.Segments | src/extension-obsidian-backup.js:1325-1359 | one segment per column |
| BackupTable.Rendered | src/extension-obsidian-backup.js:1325-1369 | one replacement per row, for its own line |
| BackupTable.SepMarkerShape | src/extension-obsidian-backup.js:1329-1349 | a separator cell keeps the source cell's colons, has `max(w + 2, 3)` units, is a marker, and renders to itself again |
| BackupTable.SepMarkerOf | src/extension-obsidian-backup.js:1329-1349 | a separator cell is the marker with the source cell's colons and `max(w + 2, 3)` units |
| BackupTable.SepMarkerByColons | src/extension-obsidian-backup.js:1329-1349 | a separator cell depends on the source cell only through its colons |
| BackupTable.MarkerUnits | src/extension-obsidian-backup.js:1302 | a marker is narrow colons and dashes, trimmed, without `\|` |
| BackupTable.ShownRow | src/extension-obsidian-backup.js:1325-1359 | a rendered row reads back as one cell per column |
| BackupTable.SegmentTrim | src/extension-obsidian-backup.js:1325-1359 | a rendered segment has no `\|` and trims to what the row shows |
| BackupTable.MarkerSegmentTrim | src/extension-obsidian-backup.js:1329-1349 | a rendered separator segment trims back to the marker |
| BackupTable.DataSegmentTrim | src/extension-obsidian-backup.js:1350-1359 | a rendered data segment trims back to the cell |
| BackupTable.RenderReadBack | src/extension-obsidian-backup.js:1288-1359 | a rendered row reads back, through the same split and trim, as its data cells (empty for missing ones) or its markers |
| BackupTable.FramedReadBack | src/extension-obsidian-backup.js:1288-1293 | a framed row of `\|`-free segments reads back as the trimmed segments |
| BackupTable.SeparatorReadBack | src/extension-obsidian-backup.js:1302 | a rendered separator row reads back as a separator row |
| BackupTable.SegmentWidth | src/extension-obsidian-backup.js:1325-1359 | a column takes its width and two units on a data row, its width and four on a separator row |
| BackupTable.RenderedWidth | src/extension-obsidian-backup.js:1325-1359 | every data row comes out equally wide, and so does every separator row |
| BackupTable.SeparatorRowWidth | src/extension-obsidian-backup.js:1329-1349 | a separator row's width from the column widths |
| BackupTable.DataRowWidth | src/extension-obsidian-backup.js:1350-1359 | a data row's width from the column widths |
| BackupTable.FormattedRowCells | src/extension-obsidian-backup.js:1284-1359 | each formatted row reads back as `maxColumns` cells, markers for a separator row |
| BackupTable.FormattedRowWidth | src/extension-obsidian-backup.js:1325-1359 | the rows of a formatted block line up |
| BackupTable.FormatTableEdits | src/extension-obsidian-backup.js:1244-1369 | no edit for a line without `\|` or while composing; otherwise the block holds the line and a row is replaced exactly when its rendering differs |
| BackupTable.RenderRowText | src/extension-obsidian-backup.js:1325-1359 | the loop over the columns builds the row text |
| BackupTable.EditRows | src/extension-obsidian-backup.js:1325-1369 | the edit callback replaces exactly the rows whose rendering differs |
| BackupTable.FormatTableAtLine | src/extension-obsidian-backup.js:1244-1369 | the command's edits and, when it gets that far, the block it found |
| BackupTable.RestoreCursor | src/extension-obsidian-backup.js:1371-1400 | the `then` step computes the remapped cursor from the edited line |
| BackupTable.SplitBefore | src/extension-obsidian-backup.js:1376-1389 | splitting the text before the cursor gives the pieces of the line up to the cursor |
| BackupTable.RemapColumnMeaning | src/extension-obsidian-backup.js:1373-1398 | the cell index is the number of `\|` before the cursor, that cell always exists, and the cursor lands within the cell's trimmed content and the line |
| BackupAutoFormat.AutoCellsClean | src/extension-obsidian-backup.js:1413-1426 | every cell of the rewrite is trimmed and free of `\|` |
| BackupAutoFormat.CellLines | src/extension-obsidian-backup.js:1454-1461 | one cell list per line of the block |
| BackupAutoFormat.LengthWidthsBound | src/extension-obsidian-backup.js:1454-1472 | a column's width is unset exactly when no non-separator line reaches it; once set it is at least 3 and at least each such cell's length |
| BackupAutoFormat.RaiseLengths | src/extension-obsidian-backup.js:1466-1471 | the `forEach` raises the widths by cell length in code units |
| BackupAutoFormat.BlockLengths | src/extension-obsidian-backup.js:1454-1472 | the loop over the block computes the widths, skipping no line as blank |
| BackupAutoFormat.AutoRowJoin | src/extension-obsidian-backup.js:1480 | the line is the segments joined between two pipes |
| BackupAutoFormat.AutoFormatTableLine | src/extension-obsidian-backup.js:1405-1492 | the command returns the edit of `AutoFormat`, about which read-back and segment shape are proved |
| BackupAutoFormat.PadSegment | src/extension-obsidian-backup.js:1477 | a segment is the cell padded with spaces to the target or its own length, between two spaces |
| BackupAutoFormat.AutoSegmentShape | src/extension-obsidian-backup.js:1475-1478 | each segment pads its cell to at least 3 and at least the longest cell of its column on a non-separator line |
| BackupAutoFormat.AutoReadBack | src/extension-obsidian-backup.js:1405-1480 | the rewritten line reads back, through the table parse, as the line's own cells in order |
| BackupAutoFormat.AutoRowReadBack | src/extension-obsidian-backup.js:1475-1480 | trimmed `\|`-free cells padded and framed read back as themselves |
| BackupAutoFormat.AutoFormatEdit | src/extension-obsidian-backup.js:1410-1491 | the line is replaced by its rewrite exactly when it has `\|` and differs from it |
| BackupCsv.CsvUp | src/extension-obsidian-backup.js:1506-1514 | the run's first line is at or above the line |
| BackupCsv.CsvDown | src/extension-obsidian-backup.js:1516-1524 | the run's last line is at or below the line |
| BackupCsv.CsvUpRun | src/extension-obsidian-backup.js:1506-1514 | every line above in the run is a CSV line, and the one before it is not |
| BackupCsv.CsvDownRun | src/extension-obsidian-backup.js:1516-1524 | every line below in the run is a CSV line, and the one after it is not |
| BackupCsv.CsvBlock | src/extension-obsidian-backup.js:1502-1524 | the block is the maximal run of CSV lines holding the line |
| BackupCsv.FindCsvBlock | src/extension-obsidian-backup.js:1502-1524 | the two loops find that run |
| BackupCsv.CsvCells | src/extension-obsidian-backup.js:1533 | split at `,` and trimmed: at least one cell, nothing dropped |
| BackupCsv.CsvCellsClean | src/extension-obsidian-backup.js:1500-1533 | every CSV cell is trimmed and, on a line without `\|`, free of `\|` |
| BackupCsv.CsvRows | src/extension-obsidian-backup.js:1526-1543 | one row per line of the run |
| BackupCsv.ParseCsv | src/extension-obsidian-backup.js:1526-1543 | the loop pushes the rows, tracks `maxColumns` and raises the widths |
| BackupCsv.RawWidthsFit | src/extension-obsidian-backup.js:1535-1542 | the raw widths never outnumber the columns |
| BackupCsv.CsvRowLoop | src/extension-obsidian-backup.js:1563-1570 | the loop builds the row text |
| BackupCsv.EditLoop | src/extension-obsidian-backup.js:1553-1577 | a separator before the second line exactly when the run has two lines, and one replacement per row |
| BackupCsv.ConvertCsvToTableFormat | src/extension-obsidian-backup.js:1495-1577 | the command returns `Convert`, about which the row shape, read-back and widths are proved |
| BackupCsv.ConvertShape | src/extension-obsidian-backup.js:1495-1577 | nothing happens off a CSV line; otherwise every line of the run is replaced in order, and a separator goes in before the second line exactly when the run has two lines or more |
| BackupCsv.CsvWidths | src/extension-obsidian-backup.js:1533-1550 | one width per column, each at least 3 and at least every CSV cell of the column |
| BackupCsv.DataRowWidths | src/extension-obsidian-backup.js:1533-1550 | the widths cover all cells of each row and are at least 3 |
| BackupCsv.CsvSegmentTrim | src/extension-obsidian-backup.js:1563-1570 | a padded CSV cell trims back to the cell |
| BackupCsv.CsvSegmentWidth | src/extension-obsidian-backup.js:1563-1570 | a padded CSV cell that fits is exactly the column width plus two spaces |
| BackupCsv.CsvRowReadBack | src/extension-obsidian-backup.js:1563-1570 | each replacement reads back as the CSV cells in order, then empty cells |
| BackupCsv.CsvRowWidth | src/extension-obsidian-backup.js:1563-1570 | rows whose cells fit come out equally wide |
| BackupCsv.CsvRowShape | src/extension-obsidian-backup.js:1526-1570 | every replacement reads back as its line's cells padded to `maxColumns` empty cells, all equally wide |
| BackupCsv.SeparatorReadBack | src/extension-obsidian-backup.js:1556-1560 | the separator line reads back as a separator row, one dash marker per column |
| BackupCsv.SeparatorWidth | src/extension-obsidian-backup.js:1556-1560 | the separator line is exactly as wide as every row |
| BackupEditing.BoxPrefixEndExact | src/extension-obsidian-backup.js:434 | the checkbox pattern matches, after the indent, exactly up to a given end |
| BackupEditing.DashEndExact | src/extension-obsidian-backup.js:435 | the dash pattern matches, after the indent, exactly up to a given end |
| BackupEditing.OrderedEndExact | src/extension-obsidian-backup.js:436 | the numbered pattern matches, after the indent, exactly up to a given end |
| BackupEditing.PrefixEndBounds | src/extension-obsidian-backup.js:434-436 | a prefix starts with `-` or a digit and ends at least two units on, where its white space stops |
| BackupEditing.SelectLeftShape | src/extension-obsidian-backup.js:425-601 | the host fallback exactly when no pattern matches; otherwise a selection on the cursor line ending at its end (or the caret at its start) and starting at 0, the indent or the prefix end |
| BackupEditing.SelectLeftCycle | src/extension-obsidian-backup.js:438-488 | with an indent: text, marker and text, whole line, caret at 0, then the round starts again |
| BackupEditing.SelectLeftNoIndent | src/extension-obsidian-backup.js:438-488 | without an indent the whole-line selection is a fixed point |
| BackupEditing.SelectLeftBareItem | src/extension-obsidian-backup.js:438-488 | on an item with nothing after its prefix every press lands on the caret at the line end |
| BackupEditing.SelectLeftOther | src/extension-obsidian-backup.js:438-488 | any other selection goes back to the text after the prefix |
| BackupEditing.FenceAbove | src/extension-obsidian-backup.js:618-622 | the upward search stops at or above the cursor line |
| BackupEditing.FenceBelow | src/extension-obsidian-backup.js:624-631 | the downward search stops below the opening fence |
| BackupEditing.FenceAboveMeaning | src/extension-obsidian-backup.js:618-622 | the nearest fence line at or above is found, or there is none |
| BackupEditing.FenceBelowMeaning | src/extension-obsidian-backup.js:624-631 | the first fence line below is found, or there is none |
| BackupEditing.SmartSelectAll | src/extension-obsidian-backup.js:605-674 | the command returns `SelectAll`, the three-way choice proved to fall back exactly outside a pair of fence lines |
| BackupEditing.BlockAround | src/extension-obsidian-backup.js:618-634 | the block found is two fence lines around the cursor line with no fence between them |
| BackupEditing.SelectAllFallsBack | src/extension-obsidian-backup.js:636-672 | the host's select-all runs exactly when no fence line at or above the cursor has another below it |
| BackupEditing.SelectAllFirst | src/extension-obsidian-backup.js:636-672 | a first press selects the lines between the fences, or keeps the selection when there are none |
| BackupEditing.SelectAllSecond | src/extension-obsidian-backup.js:636-672 | with the inside of a block selected, the next press selects the whole document |

## Left out

- Decoration painting, the decoration caches, CodeLens, completion, and
  all event wiring and debouncing. These are host UI calls. The model
  returns edits and selections instead of calling the editor.
- `isComposing` is a boolean parameter of `BackupTable.FormatTableAtLine`.
  The IME guess that sets it is not modelled.
- The cursor position that the host reports after an edit is a
  parameter of `BackupTable.RestoreCursor`.
- The `setTimeout` follow-up at `src/extension-obsidian-backup.js:1579-1588`
  is left out. It re-formats the table after a CSV conversion, and its
  effect depends on timing.
- `BackupCsv.ConvertCsvToTableFormat` returns its insert and its
  replacements as one `Conversion` value. The host applies them in one
  batch, in coordinates from before the batch, and that merging is not
  modelled.
- `moveCompletedTaskToBottom` (`src/extension-obsidian.js:812-908`) is
  left out. It issues an insert and a delete in one batch, so its effect
  depends on how the host merges edits.
- The newer `smartSelectAll` at `src/extension-obsidian.js:1136` is not
  modelled. The older edition's command is modelled.
- The `executeCommand` fallbacks (`cursorLineStartSelect`, `selectAll`,
  `tab`, `outdent`, `type`) are results such as `HostSelectAll` or
  `None`. What the host then does is not modelled.
- The `Date.now()` double-click guard, font detection and the settings
  reads are not modelled. They depend on the clock and on configuration.
- The call to the undefined `convertCSVToTable` is not modelled. It
  would throw at run time.
- Numbers are unbounded. The numbered-list counter is not limited to
  JavaScript's safe integers.
- `ObsidianTable.ParseBlock` takes a ghost view of every line's row,
  which its loop is proved against. The source has no such value.
- ObsidianMove.MoveLineWithHierarchy: moving a block down when its last
  line is the document's last line gives `None`. The source's `lineAt`
  throws there instead.
- ObsidianMove.MoveLineWithHierarchy: re-indents with the intended
  `Reindent`, not the `substring(-indentDiff)` cut at
  `src/extension-obsidian.js:1354-1356`; the second row of "## Findings"
  shows where they differ (`MoveLinesAsWritten`, `MoveAsWrittenLosesText`).
- ObsidianMove.MoveAndFormat: the selection after the format is the one
  the move set. How the host shifts a selection when a line under it is
  replaced is not modelled, and the `try`/`catch` around the format has
  nothing to catch in the model.
- ObsidianLines.AdjustIndentAt: returns the intended cursor after a
  decrease, `OutdentedCursor`, not the unmoved cursor the code computes at
  `src/extension-obsidian.js:1277-1284`; the first row of "## Findings"
  shows where they differ (`OutdentedCursorAsWritten`,
  `OutdentedCursorAsWrittenJumps`).

## Findings

| source | as written | input that shows it | evidently intended | confidence | as-written member | corrected member |
|---|---|---|---|---|---|---|
| src/extension-obsidian.js:1277-1284 | after an outdent, `line` and `originalLine` are both read after the edit, so `diff` is 0 and the cursor never moves | the line "  ab" with the cursor at 2, before `a`: the line becomes "ab" and the cursor stays at 2, after `b` | move the cursor back by the units removed, so that it stays on the same character | not executed | ObsidianLines.OutdentedCursorAsWrittenJumps | ObsidianLines.OutdentedCursorKeepsCharacter |
| src/extension-obsidian.js:1354-1356 | a negative indent change cuts `-diff` units from every moved line, white space or not | the lines "- a", "  - b", "c"; select lines 1–2 and move up: the change is −2, so "c" becomes "" | remove at most the line's own indent and keep the text after it | not executed | ObsidianMove.MoveAsWrittenLosesText | ObsidianMove.MoveKeepsText |
