/**
 * Editor positions and selections as the commands of both editions read
 * them: a selection has an anchor and an active end, and its start and end
 * are the two ends in document order.
 */
module Selections {

  datatype Position = Position(line: nat, character: nat)

  datatype Selection = Selection(anchor: Position, active: Position)

  /** `p` comes no later than `q` in the document. */
  predicate NotAfter(p: Position, q: Position) {
    p.line < q.line || (p.line == q.line && p.character <= q.character)
  }

  function Start(s: Selection): (p: Position)
    ensures p == s.anchor || p == s.active
    ensures NotAfter(p, s.anchor) && NotAfter(p, s.active)
  {
    if NotAfter(s.anchor, s.active) then s.anchor else s.active
  }

  function End(s: Selection): (p: Position)
    ensures p == s.anchor || p == s.active
    ensures NotAfter(s.anchor, p) && NotAfter(s.active, p)
  {
    if NotAfter(s.anchor, s.active) then s.active else s.anchor
  }

  predicate IsEmpty(s: Selection) {
    s.anchor == s.active
  }

  /** A caret: the empty selection at `p`. */
  function Caret(p: Position): Selection {
    Selection(p, p)
  }

  /** The selection from `from` to `to` on one line, anchored at `from`. */
  function OnLine(line: nat, from: nat, to: nat): Selection {
    Selection(Position(line, from), Position(line, to))
  }
}
