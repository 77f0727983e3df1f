/**
 * Text primitives shared by both editions of the extension.
 *
 * A JavaScript string is a sequence of UTF-16 code units: `length`,
 * indexing, `substring` and `split` all count code units, and both width
 * functions of the extension sum a width per code unit. So a string is
 * modelled here as a `seq<Unit>`, a `Unit` being one 16-bit code unit.
 */
module Text {

  newtype Unit = x: int | 0 <= x < 0x1_0000

  type Str = seq<Unit>

  datatype Option<T> = None | Some(value: T)

  const TAB: Unit := 0x09
  const SPACE: Unit := 0x20
  const HASH: Unit := 0x23
  const RPAREN: Unit := 0x29
  const STAR: Unit := 0x2A
  const PLUS: Unit := 0x2B
  const COMMA: Unit := 0x2C
  const DASH: Unit := 0x2D
  const DOT: Unit := 0x2E
  const DIGIT_ZERO: Unit := 0x30
  const COLON: Unit := 0x3A
  const GT: Unit := 0x3E
  const UPPER_X: Unit := 0x58
  const LBRACKET: Unit := 0x5B
  const RBRACKET: Unit := 0x5D
  const BACKTICK: Unit := 0x60
  const LOWER_X: Unit := 0x78
  const PIPE: Unit := 0x7C
  const IDEOGRAPHIC_SPACE: Unit := 0x3000

  /** "```", the fence marker. */
  const FENCE: Str := [BACKTICK, BACKTICK, BACKTICK]

  /** The white space of JavaScript: what `\s` matches and what `trim` removes. */
  predicate IsWhitespace(u: Unit) {
    (0x09 <= u <= 0x0D) || u == 0x20 || u == 0xA0 || u == 0x1680 ||
    (0x2000 <= u <= 0x200A) || u == 0x2028 || u == 0x2029 || u == 0x202F ||
    u == 0x205F || u == 0x3000 || u == 0xFEFF
  }

  /** The code units that a JavaScript `.` does not match. */
  predicate IsLineTerminator(u: Unit) {
    u == 0x0A || u == 0x0D || u == 0x2028 || u == 0x2029
  }

  /** `\d` */
  predicate IsDigit(u: Unit) {
    0x30 <= u <= 0x39
  }

  /** `\w` */
  predicate IsWordUnit(u: Unit) {
    IsDigit(u) || (0x41 <= u <= 0x5A) || (0x61 <= u <= 0x7A) || u == 0x5F
  }

  predicate AllWhitespace(s: Str) {
    forall i :: 0 <= i < |s| ==> IsWhitespace(s[i])
  }

  predicate NoLineTerminator(s: Str) {
    forall i :: 0 <= i < |s| ==> !IsLineTerminator(s[i])
  }

  /** A string with no white space at either end, as `trim` leaves it. */
  predicate IsTrimmed(s: Str) {
    s == [] || (!IsWhitespace(s[0]) && !IsWhitespace(s[|s| - 1]))
  }

  function StartsWith(s: Str, prefix: Str): bool {
    |prefix| <= |s| && s[..|prefix|] == prefix
  }

  function Repeat(u: Unit, n: nat): (r: Str)
    ensures |r| == n
    ensures forall i :: 0 <= i < n ==> r[i] == u
  {
    if n == 0 then [] else Repeat(u, n - 1) + [u]
  }

  // ---------------------------------------------------------------------
  // Character classes and maximal runs (the greedy `\s*`, `\d+`, `#{1,6}`)
  // ---------------------------------------------------------------------

  datatype Class = Whitespace | Digit | Word | Hash | Backtick

  predicate InClass(u: Unit, c: Class) {
    match c
    case Whitespace => IsWhitespace(u)
    case Digit => IsDigit(u)
    case Word => IsWordUnit(u)
    case Hash => u == HASH
    case Backtick => u == BACKTICK
  }

  /** The end of the longest run of class `c` starting at `i`. */
  function RunEnd(s: Str, i: nat, c: Class): (j: nat)
    requires i <= |s|
    ensures i <= j <= |s|
    ensures forall k :: i <= k < j ==> InClass(s[k], c)
    ensures j == |s| || !InClass(s[j], c)
    decreases |s| - i
  {
    if i < |s| && InClass(s[i], c) then RunEnd(s, i + 1, c) else i
  }

  /** A run of class `c` from `i` to `j` that cannot be extended is the longest one. */
  lemma RunEndIs(s: Str, i: nat, j: nat, c: Class)
    requires i <= j <= |s|
    requires forall k :: i <= k < j ==> InClass(s[k], c)
    requires j == |s| || !InClass(s[j], c)
    ensures RunEnd(s, i, c) == j
  {
  }

  /** Length of the white space run that begins the string, the indent the source measures with a leading-white-space match. */
  function IndentLength(s: Str): (n: nat)
    ensures n <= |s| && AllWhitespace(s[..n])
    ensures n == |s| || !IsWhitespace(s[n])
  {
    RunEnd(s, 0, Whitespace)
  }

  // ---------------------------------------------------------------------
  // String.prototype.trim and the `replace(/\s+/g, '')` idiom
  // ---------------------------------------------------------------------

  /** `s.trimStart()` */
  function TrimStart(s: Str): Str {
    if s != [] && IsWhitespace(s[0]) then TrimStart(s[1..]) else s
  }

  /** `s.trimEnd()` */
  function TrimEnd(s: Str): Str {
    if s != [] && IsWhitespace(s[|s| - 1]) then TrimEnd(s[..|s| - 1]) else s
  }

  /** `s.trim()`: the string without the white space at either end. */
  function Trim(s: Str): Str {
    TrimEnd(TrimStart(s))
  }

  /** A string of white space alone trims to nothing from the start. */
  lemma {:induction false} TrimStartWhite(s: Str)
    requires AllWhitespace(s)
    ensures TrimStart(s) == []
  {
    if s != [] {
      TrimStartWhite(s[1..]);
    }
  }

  /** `trimStart` of white space followed by a string that does not start with white space. */
  lemma {:induction false} TrimStartAfter(a: Str, rest: Str)
    requires AllWhitespace(a)
    requires rest == [] || !IsWhitespace(rest[0])
    ensures TrimStart(a + rest) == rest
  {
    if a == [] {
      assert a + rest == rest;
    } else {
      assert (a + rest)[1..] == a[1..] + rest;
      TrimStartAfter(a[1..], rest);
    }
  }

  /** `trimStart` drops exactly the indent. */
  lemma TrimStartIndent(s: Str)
    ensures TrimStart(s) == s[IndentLength(s)..]
  {
    var n := IndentLength(s);
    assert s == s[..n] + s[n..];
    TrimStartAfter(s[..n], s[n..]);
  }

  /** `trimEnd` removes the trailing white space run and nothing else. */
  lemma {:induction false} TrimEndShape(s: Str)
    ensures |TrimEnd(s)| <= |s|
    ensures TrimEnd(s) == s[..|TrimEnd(s)|]
    ensures AllWhitespace(s[|TrimEnd(s)|..])
    ensures TrimEnd(s) == [] || !IsWhitespace(TrimEnd(s)[|TrimEnd(s)| - 1])
  {
    if s != [] && IsWhitespace(s[|s| - 1]) {
      var p := s[..|s| - 1];
      TrimEndShape(p);
      var k := |TrimEnd(s)|;
      assert s[k..] == p[k..] + [s[|s| - 1]];
    }
  }

  /** The trimmed string is the middle of `s` after its indent, with white space only after it. */
  lemma TrimParts(s: Str)
    ensures IsTrimmed(Trim(s))
    ensures IndentLength(s) + |Trim(s)| <= |s|
    ensures Trim(s) == s[IndentLength(s)..IndentLength(s) + |Trim(s)|]
    ensures AllWhitespace(s[IndentLength(s) + |Trim(s)|..])
    ensures Trim(s) == [] <==> AllWhitespace(s)
  {
    var n := IndentLength(s);
    var t := s[n..];
    var r := Trim(s);
    TrimStartIndent(s);
    TrimEndShape(t);
    assert s[n + |r|..] == t[|r|..];
    if r != [] {
      assert r[0] == s[n];
    }
    if r == [] {
      assert t[0..] == t;
      assert s[..|s|] == s;
    }
  }

  /** `trimEnd` of a string that does not end with white space, followed by white space. */
  lemma {:induction false} TrimEndBefore(r: Str, b: Str)
    requires AllWhitespace(b)
    requires r == [] || !IsWhitespace(r[|r| - 1])
    ensures TrimEnd(r + b) == r
  {
    if b == [] {
      assert r + b == r;
    } else {
      assert (r + b)[..|r + b| - 1] == r + b[..|b| - 1];
      TrimEndBefore(r, b[..|b| - 1]);
    }
  }

  /** Trimming ignores white space added around a trimmed string. */
  lemma TrimAround(a: Str, r: Str, b: Str)
    requires AllWhitespace(a) && AllWhitespace(b) && IsTrimmed(r)
    ensures Trim(a + r + b) == r
  {
    assert a + r + b == a + (r + b);
    if r == [] {
      assert r + b == b;
      assert AllWhitespace(a + b);
      TrimStartWhite(a + b);
    } else {
      TrimStartAfter(a, r + b);
      TrimEndBefore(r, b);
    }
  }

  lemma TrimIdempotent(s: Str)
    ensures Trim(Trim(s)) == Trim(s)
  {
    TrimParts(s);
    TrimAround([], Trim(s), []);
    assert [] + Trim(s) + [] == Trim(s);
  }

  /** Trimming adds no code unit. */
  lemma TrimWithout(s: Str, u: Unit)
    requires u !in s
    ensures u !in Trim(s)
  {
    TrimParts(s);
  }

  /** `s.replace(/\s+/g, '')`: every white space unit removed. */
  function RemoveWhitespace(s: Str): (r: Str)
    ensures |r| <= |s|
    ensures forall k :: 0 <= k < |r| ==> !IsWhitespace(r[k])
  {
    if s == [] then []
    else if IsWhitespace(s[|s| - 1]) then RemoveWhitespace(s[..|s| - 1])
    else RemoveWhitespace(s[..|s| - 1]) + [s[|s| - 1]]
  }

  lemma {:induction false} RemoveWhitespaceKeeps(s: Str)
    requires forall k :: 0 <= k < |s| ==> !IsWhitespace(s[k])
    ensures RemoveWhitespace(s) == s
  {
    if s != [] {
      RemoveWhitespaceKeeps(s[..|s| - 1]);
      assert s == s[..|s| - 1] + [s[|s| - 1]];
    }
  }

  // ---------------------------------------------------------------------
  // String.prototype.split on one code unit, and its inverse
  // ---------------------------------------------------------------------

  /** `s.split(sep)` for a one-unit separator: the pieces between separators. */
  function Split(s: Str, sep: Unit): (parts: seq<Str>)
    ensures |parts| >= 1
    ensures forall i :: 0 <= i < |parts| ==> sep !in parts[i]
  {
    if s == [] then [[]]
    else
      var rest := Split(s[1..], sep);
      if s[0] == sep then [[]] + rest
      else [[s[0]] + rest[0]] + rest[1..]
  }

  /** Without a separator there is one piece, the whole string. */
  lemma {:induction false} SplitWithout(s: Str, sep: Unit)
    requires sep !in s
    ensures Split(s, sep) == [s]
  {
    if s != [] {
      assert sep !in s[1..];
      SplitWithout(s[1..], sep);
      assert [s[0]] + s[1..] == s;
    }
  }

  /** `parts.join(sep)` */
  function Join(parts: seq<Str>, sep: Unit): Str
    requires |parts| >= 1
  {
    if |parts| == 1 then parts[0] else parts[0] + [sep] + Join(parts[1..], sep)
  }

  /** Joining the pieces gives back the string. */
  lemma {:induction false} JoinSplit(s: Str, sep: Unit)
    ensures Join(Split(s, sep), sep) == s
  {
    if s != [] {
      JoinSplit(s[1..], sep);
      var rest := Split(s[1..], sep);
      if s[0] == sep {
        assert Split(s, sep)[1..] == rest;
      } else {
        var parts := Split(s, sep);
        if |rest| == 1 {
          assert parts == [[s[0]] + rest[0]];
        } else {
          assert parts[1..] == rest[1..];
          assert Join(parts, sep) == [s[0]] + (rest[0] + [sep] + Join(rest[1..], sep));
        }
        assert s == [s[0]] + s[1..];
      }
    }
  }

  /** A piece free of the separator, then the separator, splits off as the first piece. */
  lemma {:induction false} SplitCons(x: Str, sep: Unit, y: Str)
    requires sep !in x
    ensures Split(x + [sep] + y, sep) == [x] + Split(y, sep)
  {
    if x == [] {
      assert [] + [sep] + y == [sep] + y;
      assert ([sep] + y)[1..] == y;
    } else {
      var s := x + [sep] + y;
      assert s[1..] == x[1..] + [sep] + y;
      SplitCons(x[1..], sep, y);
      assert [x[0]] + x[1..] == x;
    }
  }

  /** `a.split(sep)` where `a` is `p0 + sep + p1 + ... + sep + pn`. */
  lemma {:induction false} SplitJoin(parts: seq<Str>, sep: Unit)
    requires |parts| >= 1
    requires forall i :: 0 <= i < |parts| ==> sep !in parts[i]
    ensures Split(Join(parts, sep), sep) == parts
  {
    if |parts| > 1 {
      SplitJoin(parts[1..], sep);
      SplitCons(parts[0], sep, Join(parts[1..], sep));
      assert [parts[0]] + parts[1..] == parts;
    } else {
      SplitWithout(parts[0], sep);
    }
  }

  /** Appending a piece to the list appends a separator and the piece. */
  lemma {:induction false} JoinAppend(parts: seq<Str>, x: Str, sep: Unit)
    requires |parts| >= 1
    ensures Join(parts + [x], sep) == Join(parts, sep) + [sep] + x
  {
    if |parts| > 1 {
      JoinAppend(parts[1..], x, sep);
      assert (parts + [x])[1..] == parts[1..] + [x];
    } else {
      assert (parts + [x])[1..] == [x];
    }
  }

  /**
   * A table row as both formatters print it: a `|`, then each segment
   * followed by a `|`. It is the join of the segments with an empty piece
   * at either end, so `Split` gives those pieces back.
   */
  function Framed(segments: seq<Str>): Str {
    Join([[]] + segments + [[]], PIPE)
  }

  lemma FramedEmpty()
    ensures Framed([]) == [PIPE]
  {
    var none: seq<Str> := [];
    var ps: seq<Str> := [[], []];
    assert [[]] + none + [[]] == ps;
    assert ps[1..] == [[]];
    assert Join(ps, PIPE) == [] + [PIPE] + Join([[]], PIPE);
  }

  lemma FramedAppend(segments: seq<Str>, x: Str)
    ensures Framed(segments + [x]) == Framed(segments) + x + [PIPE]
  {
    var ps := [[]] + segments;
    assert [[]] + (segments + [x]) + [[]] == (ps + [x]) + [[]];
    JoinAppend(ps + [x], [], PIPE);
    JoinAppend(ps, x, PIPE);
    JoinAppend(ps, [], PIPE);
    assert [[]] + segments + [[]] == ps + [[]];
  }

  /** With at least one segment, a framed row is the join of the segments between two pipes. */
  lemma FramedJoin(segments: seq<Str>)
    requires segments != []
    ensures Framed(segments) == [PIPE] + Join(segments, PIPE) + [PIPE]
  {
    var e: Str := [];
    var rest := segments + [e];
    assert [[]] + segments + [[]] == [e] + rest;
    JoinCons(e, rest, PIPE);
    JoinAppend(segments, e, PIPE);
    PipesAround(Join(segments, PIPE));
  }

  lemma PipesAround(j: Str)
    ensures [] + [PIPE] + (j + [PIPE] + []) == [PIPE] + j + [PIPE]
  {
  }

  /** Putting a piece in front of the list puts it and a separator in front of the join. */
  lemma JoinCons(x: Str, parts: seq<Str>, sep: Unit)
    requires |parts| >= 1
    ensures Join([x] + parts, sep) == x + [sep] + Join(parts, sep)
  {
    assert ([x] + parts)[1..] == parts;
  }

  /** Framing one more segment of a sequence, the step of a loop that renders a row. */
  lemma FramedPrefix(segments: seq<Str>, c: nat)
    requires c < |segments|
    ensures Framed(segments[..c + 1]) == Framed(segments[..c]) + segments[c] + [PIPE]
  {
    FramedAppend(segments[..c], segments[c]);
    assert segments[..c + 1] == segments[..c] + [segments[c]];
  }

  /** A framed row splits into an empty piece, the segments, and an empty piece. */
  lemma SplitFramed(segments: seq<Str>)
    requires forall i :: 0 <= i < |segments| ==> PIPE !in segments[i]
    ensures Split(Framed(segments), PIPE) == [[]] + segments + [[]]
  {
    var ps := [[]] + segments + [[]];
    forall i | 0 <= i < |ps| ensures PIPE !in ps[i] {
      if 0 < i < |ps| - 1 { assert ps[i] == segments[i - 1]; }
    }
    SplitJoin(ps, PIPE);
  }

  // ---------------------------------------------------------------------
  // Documents and line edits
  // ---------------------------------------------------------------------

  /** A snapshot of an editor's lines. */
  type Doc = seq<Str>

  /** Replace the whole text of one line. */
  datatype Edit = Edit(line: nat, text: Str)

  predicate EditsInRange(doc: Doc, edits: seq<Edit>) {
    forall i :: 0 <= i < |edits| ==> edits[i].line < |doc|
  }

  /** The document after the edits, applied in order. */
  function ApplyEdits(doc: Doc, edits: seq<Edit>): (r: Doc)
    requires EditsInRange(doc, edits)
    ensures |r| == |doc|
    decreases |edits|
  {
    if edits == [] then doc else ApplyEdits(doc[edits[0].line := edits[0].text], edits[1..])
  }

  /** The replacements kept by the edit callback: those that change the line. */
  function Changed(doc: Doc, reps: seq<Edit>): seq<Edit>
    requires EditsInRange(doc, reps)
  {
    if reps == [] then []
    else
      var p := reps[..|reps| - 1];
      var last := reps[|reps| - 1];
      Changed(doc, p) + (if doc[last.line] == last.text then [] else [last])
  }

  /** Exactly the replacements that differ from their line are kept, in order. */
  lemma {:induction false} ChangedKeeps(doc: Doc, reps: seq<Edit>)
    requires EditsInRange(doc, reps)
    ensures forall e :: e in Changed(doc, reps) ==> e in reps && doc[e.line] != e.text
    ensures forall e :: e in reps && doc[e.line] != e.text ==> e in Changed(doc, reps)
  {
    if reps != [] {
      var p := reps[..|reps| - 1];
      var last := reps[|reps| - 1];
      assert reps == p + [last];
      ChangedKeeps(doc, p);
    }
  }

  /** The edits name strictly increasing lines. */
  predicate Ascending(edits: seq<Edit>) {
    forall i, j :: 0 <= i < j < |edits| ==> edits[i].line < edits[j].line
  }

  /** With strictly increasing lines, a line named by an edit ends with that edit's text, any other line keeps its own. */
  lemma {:induction false} ApplyEditsAt(doc: Doc, edits: seq<Edit>, k: nat)
    requires EditsInRange(doc, edits) && Ascending(edits) && k < |doc|
    ensures forall i :: 0 <= i < |edits| && edits[i].line == k ==> ApplyEdits(doc, edits)[k] == edits[i].text
    ensures (forall i :: 0 <= i < |edits| ==> edits[i].line != k) ==> ApplyEdits(doc, edits)[k] == doc[k]
    decreases |edits|
  {
    if edits != [] {
      var d := doc[edits[0].line := edits[0].text];
      var rest := edits[1..];
      assert forall i :: 0 <= i < |rest| ==> rest[i] == edits[i + 1];
      ApplyEditsAt(d, rest, k);
      if edits[0].line == k {
        assert forall i :: 0 <= i < |rest| ==> rest[i].line != k;
      }
      forall i | 0 <= i < |edits| && edits[i].line == k
        ensures ApplyEdits(doc, edits)[k] == edits[i].text
      {
        if i > 0 {
          assert rest[i - 1].line == k;
        }
      }
    }
  }

  /** Keeping only the changing replacements preserves the order of their lines. */
  lemma {:induction false} ChangedAscending(doc: Doc, reps: seq<Edit>)
    requires EditsInRange(doc, reps) && Ascending(reps)
    ensures EditsInRange(doc, Changed(doc, reps)) && Ascending(Changed(doc, reps))
  {
    if reps != [] {
      var p := reps[..|reps| - 1];
      var last := reps[|reps| - 1];
      ChangedAscending(doc, p);
      var kept := Changed(doc, p);
      var tail := if doc[last.line] == last.text then [] else [last];
      assert Changed(doc, reps) == kept + tail;
      assert forall i :: 0 <= i < |p| ==> p[i] == reps[i];
      ChangedBelow(doc, p, last.line);
      AscendingAppend(kept, tail);
      InRangeAppend(doc, kept, tail);
    }
  }

  /** The kept replacements name lines below any bound that all the replacements are below. */
  lemma ChangedBelow(doc: Doc, reps: seq<Edit>, bound: nat)
    requires EditsInRange(doc, reps)
    requires forall i :: 0 <= i < |reps| ==> reps[i].line < bound
    ensures forall i :: 0 <= i < |Changed(doc, reps)| ==> Changed(doc, reps)[i].line < bound
  {
    ChangedKeeps(doc, reps);
    var kept := Changed(doc, reps);
    forall i | 0 <= i < |kept| ensures kept[i].line < bound {
      assert kept[i] in reps;
    }
  }

  /** Two ascending lists, the first wholly before the second, make an ascending list. */
  lemma AscendingAppend(a: seq<Edit>, b: seq<Edit>)
    requires Ascending(a) && Ascending(b) && |b| <= 1
    requires forall i :: 0 <= i < |a| ==> forall j :: 0 <= j < |b| ==> a[i].line < b[j].line
    ensures Ascending(a + b)
  {
  }

  lemma InRangeAppend(doc: Doc, a: seq<Edit>, b: seq<Edit>)
    requires EditsInRange(doc, a) && EditsInRange(doc, b)
    ensures EditsInRange(doc, a + b)
  {
  }

  /**
   * Applying the changing replacements of an ascending list gives each named
   * line its replacement text and leaves every other line as it was.
   */
  lemma ApplyChanged(doc: Doc, reps: seq<Edit>, k: nat)
    requires EditsInRange(doc, reps) && Ascending(reps) && k < |doc|
    ensures EditsInRange(doc, Changed(doc, reps))
    ensures forall i :: 0 <= i < |reps| && reps[i].line == k ==> ApplyEdits(doc, Changed(doc, reps))[k] == reps[i].text
    ensures (forall i :: 0 <= i < |reps| ==> reps[i].line != k) ==> ApplyEdits(doc, Changed(doc, reps))[k] == doc[k]
  {
    var kept := Changed(doc, reps);
    ChangedAscending(doc, reps);
    ChangedKeeps(doc, reps);
    ApplyEditsAt(doc, kept, k);
    forall i | 0 <= i < |reps| && reps[i].line == k
      ensures ApplyEdits(doc, kept)[k] == reps[i].text
    {
      if doc[k] != reps[i].text {
        assert reps[i] in kept;
      } else {
        forall j | 0 <= j < |kept| ensures kept[j].line != k {
          assert kept[j] in reps;
        }
      }
    }
    if forall i :: 0 <= i < |reps| ==> reps[i].line != k {
      forall j | 0 <= j < |kept| ensures kept[j].line != k {
        assert kept[j] in reps;
      }
    }
  }

  /** Replacements that all match their lines leave nothing to apply. */
  lemma {:induction false} ChangedNone(doc: Doc, reps: seq<Edit>)
    requires EditsInRange(doc, reps)
    requires forall i :: 0 <= i < |reps| ==> doc[reps[i].line] == reps[i].text
    ensures Changed(doc, reps) == []
  {
    if reps != [] {
      ChangedNone(doc, reps[..|reps| - 1]);
    }
  }

  function Max(a: int, b: int): int {
    if a >= b then a else b
  }

  // ---------------------------------------------------------------------
  // Counting and finding
  // ---------------------------------------------------------------------

  function CountUnit(s: Str, u: Unit): (n: nat)
    ensures n <= |s|
    ensures n == 0 <==> u !in s
  {
    if s == [] then 0
    else CountUnit(s[..|s| - 1], u) + (if s[|s| - 1] == u then 1 else 0)
  }

  /** Prepending a unit adds one to the count when it is the unit counted. */
  lemma {:induction false} CountUnitCons(v: Unit, s: Str, u: Unit)
    ensures CountUnit([v] + s, u) == (if v == u then 1 else 0) + CountUnit(s, u)
  {
    if s == [] {
      assert ([v] + s)[..0] == [];
    } else {
      CountUnitCons(v, s[..|s| - 1], u);
      assert ([v] + s)[..|s|] == [v] + s[..|s| - 1];
    }
  }

  /** A string splits into one piece more than it holds separators. */
  lemma {:induction false} SplitCount(s: Str, sep: Unit)
    ensures |Split(s, sep)| == CountUnit(s, sep) + 1
  {
    if s != [] {
      SplitCount(s[1..], sep);
      CountUnitCons(s[0], s[1..], sep);
      assert s == [s[0]] + s[1..];
    }
  }

  /** `pat` occurs at index `k` of `s`. */
  predicate OccursAt(s: Str, k: nat, pat: Str) {
    k + |pat| <= |s| && s[k..k + |pat|] == pat
  }

  predicate Includes(s: Str, pat: Str) {
    exists k :: 0 <= k <= |s| && OccursAt(s, k, pat)
  }

  /** The index of the first occurrence of `pat` at or after `from`. */
  function IndexOfFrom(s: Str, pat: Str, from: nat): (r: Option<nat>)
    requires from <= |s|
    ensures r.Some? ==> from <= r.value <= |s| && OccursAt(s, r.value, pat)
    ensures r.Some? ==> forall k :: from <= k < r.value ==> !OccursAt(s, k, pat)
    ensures r.None? ==> forall k :: from <= k <= |s| ==> !OccursAt(s, k, pat)
    decreases |s| - from
  {
    if OccursAt(s, from, pat) then Some(from)
    else if from == |s| then None
    else IndexOfFrom(s, pat, from + 1)
  }

  /** `s.indexOf(pat)`, with `None` for -1. */
  function IndexOf(s: Str, pat: Str): (r: Option<nat>)
    ensures r.Some? <==> Includes(s, pat)
    ensures r.Some? ==> OccursAt(s, r.value, pat) && forall k :: 0 <= k < r.value ==> !OccursAt(s, k, pat)
  {
    IndexOfFrom(s, pat, 0)
  }

  // ---------------------------------------------------------------------
  // Decimal numerals (`parseInt(m, 10)` and `${n}`)
  // ---------------------------------------------------------------------

  predicate AllDigits(s: Str) {
    forall i :: 0 <= i < |s| ==> IsDigit(s[i])
  }

  /** The value of a string of decimal digits. */
  function DecimalValue(s: Str): nat
    requires AllDigits(s)
  {
    if s == [] then 0 else 10 * DecimalValue(s[..|s| - 1]) + (s[|s| - 1] - DIGIT_ZERO) as nat
  }

  /** The decimal numeral of `n`, without leading zeros. */
  function DecimalString(n: nat): (r: Str)
    ensures r != [] && AllDigits(r)
    ensures |r| > 1 ==> r[0] != DIGIT_ZERO
  {
    if n < 10 then [DIGIT_ZERO + n as Unit]
    else DecimalString(n / 10) + [DIGIT_ZERO + (n % 10) as Unit]
  }

  lemma {:induction false} DecimalRoundTrip(n: nat)
    ensures DecimalValue(DecimalString(n)) == n
  {
    var r := DecimalString(n);
    if n >= 10 {
      DecimalRoundTrip(n / 10);
      assert r[..|r| - 1] == DecimalString(n / 10);
    }
  }
}
