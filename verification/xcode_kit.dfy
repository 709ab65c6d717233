/**
 * Text positions and ranges of the host editor, and the `endLine` helper
 * (Common/XcodeKit.swift).
 *
 * The editor's `XCSourceTextPosition` and `XCSourceTextRange` are reference
 * objects; here they are plain records. Line and column are zero-based.
 */
module XcodeKit {

  /** A zero-based (line, column) position; the column counts characters. */
  datatype Position = Position(line: nat, column: nat)

  /** A selection: the span from `start` to `end`. */
  datatype TextRange = TextRange(start: Position, end: Position)

  /** The exclusive bound of the lines a range ending at `p` touches: a range
      that ends at column 0 of a line does not reach into that line. */
  function EndLine(p: Position): (r: nat)
    ensures p.column == 0 ==> r == p.line
    ensures p.column != 0 ==> r == p.line + 1
  {
    match p.column
    case 0 => p.line
    case _ => p.line + 1
  }

  /** `endLine` is the line itself or the one after it. */
  lemma EndLineBounds(p: Position)
    ensures p.line <= EndLine(p) <= p.line + 1
    ensures EndLine(p) == p.line <==> p.column == 0
  {
  }

  /** `endLine` sees only the line and whether the column is zero. */
  lemma EndLineDependsOnLineAndZeroColumn(p: Position, q: Position)
    requires p.line == q.line
    requires p.column == 0 <==> q.column == 0
    ensures EndLine(p) == EndLine(q)
  {
  }

  /** Line `k` lies below `endLine` exactly when a range ending at `p` has a
      character on line `k` before `p`, or ends beyond line `k`. */
  lemma EndLineCoversTouchedLines(p: Position, k: nat)
    ensures k < EndLine(p) <==> k < p.line || (k == p.line && 0 < p.column)
  {
  }
}
