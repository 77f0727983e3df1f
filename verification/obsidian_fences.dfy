/**
 * Fenced code blocks in src/extension-obsidian.js.
 *
 * Three scans look for "```": `isInFencedCodeBlock` flips a flag at every
 * line that starts with a fence, `updateCodeBlockDecorations` pairs those
 * lines into code-block ranges, and the change listener counts the "```"
 * occurrences before a freshly typed fence to decide whether to close it.
 */
module ObsidianFences {
  import opened Text
  import opened Selections

  /** A line that opens or closes a fenced block: it starts with "```". */
  predicate IsFenceLine(s: Str) {
    StartsWith(s, FENCE)
  }

  // ---------------------------------------------------------------------
  // isInFencedCodeBlock
  // ---------------------------------------------------------------------

  /** The number of fence lines among the first `n` lines. */
  function FenceLines(doc: Doc, n: nat): (c: nat)
    requires n <= |doc|
    ensures c <= n
  {
    if n == 0 then 0 else FenceLines(doc, n - 1) + (if IsFenceLine(doc[n - 1]) then 1 else 0)
  }

  /** The flag after the first `n` lines: it flips at each fence line. */
  function InFence(doc: Doc, n: nat): bool
    requires n <= |doc|
  {
    if n == 0 then false else InFence(doc, n - 1) != IsFenceLine(doc[n - 1])
  }

  /** The flag is set exactly when an odd number of fence lines has been seen. */
  lemma {:induction false} InFenceParity(doc: Doc, n: nat)
    requires n <= |doc|
    ensures InFence(doc, n) <==> FenceLines(doc, n) % 2 == 1
  {
    if n > 0 {
      InFenceParity(doc, n - 1);
    }
  }

  /** `isInFencedCodeBlock`: the line is inside a fence when the lines up to and including it hold an odd number of fence lines. */
  method IsInFencedCodeBlock(doc: Doc, lineIndex: nat) returns (inFence: bool)
    requires lineIndex < |doc|
    ensures inFence == InFence(doc, lineIndex + 1)
    ensures inFence <==> FenceLines(doc, lineIndex + 1) % 2 == 1
  {
    inFence := false;
    var i := 0;
    while i <= lineIndex
      invariant 0 <= i <= lineIndex + 1
      invariant inFence == InFence(doc, i)
    {
      if StartsWith(doc[i], FENCE) {
        inFence := !inFence;
      }
      i := i + 1;
    }
    InFenceParity(doc, lineIndex + 1);
  }

  // ---------------------------------------------------------------------
  // Code-block ranges (updateCodeBlockDecorations)
  // ---------------------------------------------------------------------

  /** A decorated code block: whole lines `first` to `last`. */
  datatype CodeBlock = CodeBlock(first: nat, last: nat)

  /** The state of the pairing loop: the closed blocks and the line of the open fence, if any. */
  datatype Pairing = Pairing(blocks: seq<CodeBlock>, open: Option<nat>)

  /** The pairing loop over the first `n` lines: a fence line opens a block, the next one closes it. */
  function PairFences(doc: Doc, n: nat): Pairing
    requires n <= |doc|
  {
    if n == 0 then Pairing([], None)
    else
      var p := PairFences(doc, n - 1);
      if !IsFenceLine(doc[n - 1]) then p
      else if p.open.None? then Pairing(p.blocks, Some(n - 1))
      else Pairing(p.blocks + [CodeBlock(p.open.value, n - 1)], None)
  }

  /** The decorated blocks: the paired ones, and a fence left open runs to the last line. */
  function CodeBlocks(doc: Doc): seq<CodeBlock> {
    var p := PairFences(doc, |doc|);
    if p.open.Some? then p.blocks + [CodeBlock(p.open.value, |doc| - 1)] else p.blocks
  }

  /** No line strictly between `lo` and `hi` is a fence line. */
  predicate NoFenceBetween(doc: Doc, lo: nat, hi: nat)
    requires hi <= |doc|
  {
    forall k :: lo < k < hi ==> !IsFenceLine(doc[k])
  }

  /** A closed block: two fence lines with none between, and the first one opens a fence. */
  predicate PairedBlock(doc: Doc, b: CodeBlock)
  {
    b.first < b.last < |doc| && IsFenceLine(doc[b.first]) && IsFenceLine(doc[b.last]) &&
    NoFenceBetween(doc, b.first, b.last) && !InFence(doc, b.first)
  }

  /** The blocks follow each other without overlapping. */
  predicate Disjoint(blocks: seq<CodeBlock>) {
    forall i, j :: 0 <= i < j < |blocks| ==> blocks[i].last < blocks[j].first
  }

  /** What the pairing loop keeps after `n` lines. */
  predicate PairingInvariant(doc: Doc, n: nat, p: Pairing)
    requires n <= |doc|
  {
    (forall i :: 0 <= i < |p.blocks| ==> PairedBlock(doc, p.blocks[i]) && p.blocks[i].last < n) &&
    Disjoint(p.blocks) &&
    |p.blocks| == FenceLines(doc, n) / 2 &&
    (p.open.Some? <==> InFence(doc, n)) &&
    (p.open.Some? ==>
      p.open.value < n && IsFenceLine(doc[p.open.value]) && !InFence(doc, p.open.value) &&
      NoFenceBetween(doc, p.open.value, n) &&
      forall i :: 0 <= i < |p.blocks| ==> p.blocks[i].last < p.open.value)
  }

  /** Every pair the loop closes is two consecutive fence lines, and one pair is closed per two fence lines. */
  lemma {:induction false} PairFencesInvariant(doc: Doc, n: nat)
    requires n <= |doc|
    ensures PairingInvariant(doc, n, PairFences(doc, n))
  {
    if n > 0 {
      PairFencesInvariant(doc, n - 1);
      var p := PairFences(doc, n - 1);
      if !IsFenceLine(doc[n - 1]) {
        PairingSkip(doc, n, p);
      } else if p.open.None? {
        PairingOpen(doc, n, p);
      } else {
        PairingClose(doc, n, p);
      }
    }
  }

  /** A line that is not a fence keeps the pairing as it is. */
  lemma PairingSkip(doc: Doc, n: nat, p: Pairing)
    requires 0 < n <= |doc| && !IsFenceLine(doc[n - 1])
    requires PairingInvariant(doc, n - 1, p)
    ensures PairingInvariant(doc, n, p)
  {
  }

  /** A fence line outside a block opens one. */
  lemma PairingOpen(doc: Doc, n: nat, p: Pairing)
    requires 0 < n <= |doc| && IsFenceLine(doc[n - 1]) && p.open.None?
    requires PairingInvariant(doc, n - 1, p)
    ensures PairingInvariant(doc, n, Pairing(p.blocks, Some(n - 1)))
  {
    InFenceParity(doc, n - 1);
    InFenceParity(doc, n);
  }

  /** A fence line inside a block closes it, and the closed block is paired. */
  lemma PairingClose(doc: Doc, n: nat, p: Pairing)
    requires 0 < n <= |doc| && IsFenceLine(doc[n - 1]) && p.open.Some?
    requires PairingInvariant(doc, n - 1, p)
    ensures PairingInvariant(doc, n, Pairing(p.blocks + [CodeBlock(p.open.value, n - 1)], None))
  {
    InFenceParity(doc, n - 1);
    InFenceParity(doc, n);
    var b := CodeBlock(p.open.value, n - 1);
    assert PairedBlock(doc, b);
  }

  /** Every decorated block starts at an opening fence line; the closed ones end at the next fence line. */
  lemma CodeBlocksPaired(doc: Doc)
    ensures Disjoint(CodeBlocks(doc))
    ensures forall i :: 0 <= i < |CodeBlocks(doc)| ==> CodeBlocks(doc)[i].first <= CodeBlocks(doc)[i].last < |doc|
    ensures forall i :: 0 <= i < |CodeBlocks(doc)| ==>
      var b := CodeBlocks(doc)[i];
      IsFenceLine(doc[b.first]) && !InFence(doc, b.first) && NoFenceBetween(doc, b.first, b.last) &&
      (IsFenceLine(doc[b.last]) || b.last == |doc| - 1)
    ensures |CodeBlocks(doc)| == (FenceLines(doc, |doc|) + 1) / 2
  {
    PairFencesInvariant(doc, |doc|);
    InFenceParity(doc, |doc|);
    var p := PairFences(doc, |doc|);
    if p.open.Some? {
      var blocks := CodeBlocks(doc);
      assert blocks == p.blocks + [CodeBlock(p.open.value, |doc| - 1)];
      forall k | p.open.value < k < |doc| - 1 ensures !IsFenceLine(doc[k]) {
      }
    }
  }

  /** `updateCodeBlockDecorations`: the pairing loop with `inFence` and `fenceStart`. */
  method CodeBlockRanges(doc: Doc) returns (ranges: seq<CodeBlock>)
    ensures ranges == CodeBlocks(doc)
  {
    ranges := [];
    var inFence := false;
    var fenceStart := -1;
    var i := 0;
    while i < |doc|
      invariant 0 <= i <= |doc|
      invariant inFence <==> fenceStart >= 0
      invariant PairFences(doc, i) == Pairing(ranges, if inFence then Some(fenceStart as nat) else None)
    {
      if StartsWith(doc[i], FENCE) {
        if !inFence {
          inFence := true;
          fenceStart := i;
        } else {
          ranges := ranges + [CodeBlock(fenceStart as nat, i)];
          inFence := false;
          fenceStart := -1;
        }
      }
      i := i + 1;
    }
    if inFence && fenceStart >= 0 {
      ranges := ranges + [CodeBlock(fenceStart as nat, |doc| - 1)];
    }
  }

  // ---------------------------------------------------------------------
  // Closing a typed fence
  // ---------------------------------------------------------------------

  /** The matches of `/```/g` from index `i` on: leftmost first, never overlapping. */
  function FenceCountFrom(s: Str, i: nat): (c: nat)
    requires i <= |s|
    decreases |s| - i
  {
    if OccursAt(s, i, FENCE) then 1 + FenceCountFrom(s, i + 3)
    else if i < |s| then FenceCountFrom(s, i + 1)
    else 0
  }

  /** `(s.match(/```/g) || []).length` */
  function FenceCount(s: Str): nat {
    FenceCountFrom(s, 0)
  }

  /** Counting from `i` finds a match exactly when "```" occurs at or after `i`, and each match uses three units. */
  lemma {:induction false} FenceCountFromBounds(s: Str, i: nat)
    requires i <= |s|
    ensures 3 * FenceCountFrom(s, i) <= |s| - i
    ensures FenceCountFrom(s, i) > 0 <==> exists k :: i <= k <= |s| && OccursAt(s, k, FENCE)
    decreases |s| - i
  {
    if OccursAt(s, i, FENCE) {
      FenceCountFromBounds(s, i + 3);
    } else if i < |s| {
      FenceCountFromBounds(s, i + 1);
      if exists k :: i <= k <= |s| && OccursAt(s, k, FENCE) {
        var k :| i <= k <= |s| && OccursAt(s, k, FENCE);
        assert k != i;
      }
    }
  }

  /** The global match finds something exactly when the string includes "```". */
  lemma FenceCountIncludes(s: Str)
    ensures 3 * FenceCount(s) <= |s|
    ensures FenceCount(s) > 0 <==> Includes(s, FENCE)
  {
    FenceCountFromBounds(s, 0);
  }

  /** In a run of backticks, every three make one match. */
  lemma {:induction false} FenceCountRun(n: nat, i: nat)
    requires i <= n
    ensures FenceCountFrom(Repeat(BACKTICK, n), i) == (n - i) / 3
    decreases n - i
  {
    var s := Repeat(BACKTICK, n);
    if i + 3 <= n {
      assert OccursAt(s, i, FENCE);
      FenceCountRun(n, i + 3);
    } else {
      assert !OccursAt(s, i, FENCE);
      if i < n {
        FenceCountRun(n, i + 1);
      }
    }
  }

  /** A match in a prefix is a match in the whole line. */
  lemma PrefixFence(s: Str, j: nat)
    requires j <= |s|
    ensures FenceCount(s[..j]) > 0 ==> FenceCount(s) > 0
  {
    FenceCountIncludes(s[..j]);
    FenceCountIncludes(s);
    if FenceCount(s[..j]) > 0 {
      var k :| 0 <= k <= j && OccursAt(s[..j], k, FENCE);
      assert s[..j][k..k + 3] == s[k..k + 3];
      assert OccursAt(s, k, FENCE);
    }
  }

  /** The matches in the first `n` whole lines. */
  function FencesInLines(doc: Doc, n: nat): nat
    requires n <= |doc|
  {
    if n == 0 then 0 else FencesInLines(doc, n - 1) + FenceCount(doc[n - 1])
  }

  /** `s.substring(0, character)`: the index is clamped to the length. */
  function Before(s: Str, character: nat): Str {
    s[..if character < |s| then character else |s|]
  }

  /** The matches before the cursor: all lines above, and the cursor line up to the cursor. */
  function FencesBefore(doc: Doc, line: nat, character: nat): nat
    requires line < |doc|
  {
    FencesInLines(doc, line) + FenceCount(Before(doc[line], character))
  }

  /** The counting loop of the change listener. */
  method CountFencesBefore(doc: Doc, line: nat, character: nat) returns (codeBlockCount: nat)
    requires line < |doc|
    ensures codeBlockCount == FencesBefore(doc, line, character)
  {
    codeBlockCount := 0;
    var i := 0;
    while i <= line
      invariant 0 <= i <= line + 1
      invariant codeBlockCount == if i <= line then FencesInLines(doc, i) else FencesBefore(doc, line, character)
    {
      var lineText := doc[i];
      var matches := FenceCount(lineText);
      if matches > 0 {
        if i < line {
          codeBlockCount := codeBlockCount + matches;
        } else {
          var beforeMatches := FenceCount(Before(lineText, character));
          codeBlockCount := codeBlockCount + beforeMatches;
        }
      } else if i == line {
        PrefixFence(lineText, |Before(lineText, character)|);
        assert Before(lineText, character) == lineText[..|Before(lineText, character)|];
      }
      i := i + 1;
    }
  }

  /** The change listener closes a typed fence when it is the odd one. */
  predicate ClosesFence(doc: Doc, line: nat, character: nat)
    requires line < |doc|
  {
    FencesBefore(doc, line, character) % 2 == 1
  }

  /** A document after an edit, with the cursor the `then` step sets. */
  datatype Closed = Closed(doc: Doc, cursor: Position)

  /** The edit that closes it: an empty line and a fence line after the cursor line; the cursor goes to the empty line. */
  function CloseFence(doc: Doc, line: nat): (r: Closed)
    requires line < |doc|
  {
    Closed(doc[..line + 1] + [[], FENCE] + doc[line + 1..], Position(line + 1, 0))
  }

  lemma {:induction false} FencesInLinesPrefix(a: Doc, b: Doc, n: nat)
    requires n <= |a| && n <= |b| && a[..n] == b[..n]
    ensures FencesInLines(a, n) == FencesInLines(b, n)
  {
    if n > 0 {
      assert a[..n - 1] == b[..n - 1] by {
        assert a[..n - 1] == a[..n][..n - 1];
        assert b[..n - 1] == b[..n][..n - 1];
      }
      assert a[n - 1] == a[..n][n - 1] == b[..n][n - 1] == b[n - 1];
      FencesInLinesPrefix(a, b, n - 1);
    }
  }

  /**
   * With the cursor at the end of its line, closing an odd fence leaves an
   * even number of "```" in the lines up to the inserted fence line, and the
   * inserted empty line sits between the two.
   */
  lemma CloseFenceEven(doc: Doc, line: nat, character: nat)
    requires line < |doc| && character >= |doc[line]|
    requires ClosesFence(doc, line, character)
    ensures |CloseFence(doc, line).doc| == |doc| + 2
    ensures CloseFence(doc, line).doc[line + 1] == [] && IsFenceLine(CloseFence(doc, line).doc[line + 2])
    ensures FencesInLines(CloseFence(doc, line).doc, line + 3) % 2 == 0
    ensures FencesInLines(CloseFence(doc, line).doc, line + 2) % 2 == 1
    ensures var c := CloseFence(doc, line); c.cursor.line < |c.doc| && c.doc[c.cursor.line] == [] && c.cursor.character == 0
  {
    var r := CloseFence(doc, line).doc;
    assert Before(doc[line], character) == doc[line];
    FencesInLinesPrefix(doc, r, line + 1);
    assert FenceCount([]) == 0;
    assert OccursAt(FENCE, 0, FENCE);
    assert FenceCountFrom(FENCE, 3) == 0;
    assert r[line + 1] == [] && r[line + 2] == FENCE;
  }
}
