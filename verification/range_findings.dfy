/**
 * Corrected counterparts of the two multi-line branches of the range
 * accessor whose behaviour departs from what they evidently mean, with the
 * inputs that show the departure.
 *
 * - The multi-line read takes the tail of line `end.line - 1` from
 *   `end.column` where the text between the two positions runs up to
 *   `end.column` of line `end.line`.
 * - The multi-line write removes the start line as soon as the spliced line
 *   comes out empty, so its descending removals then land one line too far.
 */
module RangeFindings {
  import opened Strings
  import opened XcodeKit
  import opened LineArray
  import opened RangeAccess

  /** The character offset of `p` in the text the lines join into. */
  function TextOffset(lines: Lines, p: Position): nat
    requires p.line <= |lines|
  {
    |Joined(lines[..p.line])| + p.column
  }

  /** The text between two positions: on one line the characters between the
      columns; across lines the start line from `start.column`, every line
      strictly between, and the end line up to `end.column`. */
  function ReadRangeIntended(lines: Lines, range: TextRange): (r: string)
    requires Writable(lines, range)
    ensures var s, e := range.start, range.end;
            var p := PadTo(lines, e.line + 1);
            TextOffset(p, s) <= TextOffset(p, e) <= |Joined(p)|
            && r == Joined(p)[TextOffset(p, s)..TextOffset(p, e)]
  {
    var s, e := range.start, range.end;
    var p := PadTo(lines, e.line + 1);
    if s.line == e.line then
      ReadIntendedSingleLine(lines, range);
      var text := LineAt(lines, s.line);
      SubstringWith(text, IndicesOf(text, s.column, e.column))
    else
      ReadIntendedMultiLine(lines, range);
      SubstringFrom(LineAt(lines, s.line), s.column)
      + Joined(p[s.line + 1..e.line])
      + SubstringTo(LineAt(lines, e.line), e.column)
  }

  /** Slicing `a + b + c + d + f` from inside `b` to inside `d` gives the
      tail of `b`, all of `c`, and the head of `d`. */
  lemma SliceAcross(a: string, b: string, c: string, d: string, f: string, i: nat, j: nat)
    requires i <= |b| && j <= |d|
    ensures var x := a + b + c + d + f;
            |a| + i <= |a| + |b| + |c| + j <= |x|
            && x[|a| + i..|a| + |b| + |c| + j] == b[i..] + c + d[..j]
  {
    var x := a + b + c + d + f;
    var y := b[i..] + c + d[..j];
    assert |x[|a| + i..|a| + |b| + |c| + j]| == |y|;
    forall k | 0 <= k < |y|
      ensures x[|a| + i + k] == y[k]
    {
    }
  }

  /** Slicing `a + b + f` inside `b` is slicing `b`. */
  lemma SliceWithin(a: string, b: string, f: string, i: nat, j: nat)
    requires i <= j <= |b|
    ensures var x := a + b + f;
            |a| + j <= |x| && x[|a| + i..|a| + j] == b[i..j]
  {
    var x := a + b + f;
    forall k | i <= k < j
      ensures x[|a| + k] == b[k]
    {
    }
  }

  /** The single-line intended read is a slice of the joined text. */
  lemma ReadIntendedSingleLine(lines: Lines, range: TextRange)
    requires Writable(lines, range)
    requires range.start.line == range.end.line
    ensures var s, e := range.start, range.end;
            var p := PadTo(lines, e.line + 1);
            TextOffset(p, s) <= TextOffset(p, e) <= |Joined(p)|
            && Joined(p)[TextOffset(p, s)..TextOffset(p, e)] == LineAt(lines, s.line)[s.column..e.column]
  {
    var s := range.start.line;
    var p := PadTo(lines, s + 1);
    assert p[s] == LineAt(lines, s);
    JoinedAround(p, s);
    SliceWithin(Joined(p[..s]), p[s], Joined(p[s + 1..]), range.start.column, range.end.column);
  }

  /** The multi-line intended read is a slice of the joined text. */
  lemma ReadIntendedMultiLine(lines: Lines, range: TextRange)
    requires Writable(lines, range)
    requires range.start.line < range.end.line
    ensures var s, e := range.start, range.end;
            var p := PadTo(lines, e.line + 1);
            TextOffset(p, s) <= TextOffset(p, e) <= |Joined(p)|
            && Joined(p)[TextOffset(p, s)..TextOffset(p, e)]
               == LineAt(lines, s.line)[s.column..] + Joined(p[s.line + 1..e.line])
                  + LineAt(lines, e.line)[..e.column]
  {
    var s, e := range.start.line, range.end.line;
    var p := PadTo(lines, e + 1);
    assert p[s] == LineAt(lines, s) && p[e] == LineAt(lines, e);
    var a, b, c, d, f := Joined(p[..s]), p[s], Joined(p[s + 1..e]), p[e], Joined(p[e + 1..]);
    JoinedAroundTwo(p, s, e);
    assert Joined(p) == a + b + c + d + f;
    JoinedPrefixAround(p, s, e);
    assert TextOffset(p, range.start) == |a| + range.start.column;
    assert TextOffset(p, range.end) == |a| + |b| + |c| + range.end.column;
    SliceAcross(a, b, c, d, f, range.start.column, range.end.column);
  }

  /** On ["abc", "def"] the range (0,1)-(1,2) spans "bcde", yet the read as
      written returns "bcc": the tail of line 0 from column 1, then the tail
      of line 0 again from column 2. */
  lemma ReadRangeMultiLineCounterexample()
    ensures var lines, range := ["abc", "def"], TextRange(Position(0, 1), Position(1, 2));
            && ReadRange(lines, range) == "bcc"
            && ReadRangeIntended(lines, range) == "bcde"
  {
    var lines, range := ["abc", "def"], TextRange(Position(0, 1), Position(1, 2));
    assert lines[0..1] == ["abc"];
    assert ReadRange(lines, range) == "bc" + Joined([]) + "c";
    var p := PadTo(lines, 2);
    assert p == lines;
    assert p[1..1] == [];
    assert ReadRangeIntended(lines, range) == "bc" + Joined([]) + "de";
  }

  /** The range write with the evident intent of its multi-line branch:
      remove lines `end.line` down to `start.line + 1` first, then store the
      spliced line at `start.line` (which removes it when it is empty). */
  function WriteRangeIntended(lines: Lines, range: TextRange, newValue: string): (r: Edit)
    requires Writable(lines, range)
    ensures r.range.start == range.start
    ensures r.range.end == Position(range.start.line, range.start.column + |newValue|)
    ensures r.lines == Collapsed(lines, range, newValue)
  {
    var s, e := range.start, range.end;
    var updated := TextRange(s, Position(s.line, s.column + |newValue|));
    var spliced := Splice(lines, range, newValue);
    if s.line == e.line then
      WriteRangeCollapses(lines, range, newValue);
      Edit(SetLine(lines, s.line, spliced), updated)
    else
      IntendedMultiLineCollapses(lines, range, newValue);
      Edit(SetLine(DeleteDescending(lines, s.line + 1, e.line + 1), s.line, spliced), updated)
  }

  /** Removing the consumed lines before storing the spliced line collapses
      the span whether or not the spliced line is empty. */
  lemma IntendedMultiLineCollapses(lines: Lines, range: TextRange, newValue: string)
    requires Writable(lines, range)
    requires range.start.line < range.end.line
    ensures var s, e := range.start.line, range.end.line;
            SetLine(DeleteDescending(lines, s + 1, e + 1), s, Splice(lines, range, newValue))
              == Collapsed(lines, range, newValue)
  {
    DeleteThenSetLine(lines, range.start.line, range.end.line, Splice(lines, range, newValue));
  }

  /** Writing "" to lines `e` down to `s + 1` and then storing `x` at line
      `s` leaves the lines before `s`, then `x` unless it is empty, then the
      lines after `e`. */
  lemma DeleteThenSetLine(lines: Lines, s: nat, e: nat, x: string)
    requires s < e
    ensures var p := PadTo(lines, e + 1);
            SetLine(DeleteDescending(lines, s + 1, e + 1), s, x)
              == p[..s] + (if x == "" then [] else [x]) + p[e + 1..]
  {
    DeleteDescendingCuts(lines, s + 1, e + 1);
    SetLineAfterCut(PadTo(lines, e + 1), DeleteDescending(lines, s + 1, e + 1), s, e, x);
  }

  /** Storing `x` at line `s` of an array whose lines `s + 1 ..= e` were cut
      leaves the lines before `s`, then `x` unless it is empty, then the
      lines after `e`. */
  lemma SetLineAfterCut(p: Lines, rest: Lines, s: nat, e: nat, x: string)
    requires s < e < |p|
    requires rest == Cut(p, s + 1, e + 1)
    ensures SetLine(rest, s, x) == p[..s] + (if x == "" then [] else [x]) + p[e + 1..]
  {
    SetLineInRange(rest, s, x);
    assert rest[..s] == p[..s];
    assert rest[s + 1..] == p[e + 1..];
  }

  /** Writing a line that exists keeps the lines around it. */
  lemma SetLineInRange(lines: Lines, offset: nat, value: string)
    requires offset < |lines|
    ensures SetLine(lines, offset, value)
            == lines[..offset] + (if value == "" then [] else [value]) + lines[offset + 1..]
  {
    if value != "" {
      assert lines[offset := value] == lines[..offset] + [value] + lines[offset + 1..];
    }
  }

  /** The write as written and the intended write agree on every single-line
      range and whenever the spliced line is non-empty, in particular
      whenever the new text is non-empty. */
  lemma WriteRangeAgreesWithIntended(lines: Lines, range: TextRange, newValue: string)
    requires Writable(lines, range)
    requires range.start.line == range.end.line || Splice(lines, range, newValue) != ""
    ensures WriteRange(lines, range, newValue) == WriteRangeIntended(lines, range, newValue)
  {
    WriteRangeCollapses(lines, range, newValue);
  }

  /** On ["a\n", "b"], replacing the whole text (0,0)-(1,1) by "" should
      leave no lines; the write as written leaves ["b"]. */
  lemma WriteRangeEmptySpliceCounterexample()
    ensures var lines, range := ["a\n", "b"], TextRange(Position(0, 0), Position(1, 1));
            && WriteRange(lines, range, "").lines == ["b"]
            && WriteRangeIntended(lines, range, "").lines == []
  {
    var lines, range := ["a\n", "b"], TextRange(Position(0, 0), Position(1, 1));
    assert Splice(lines, range, "") == "";
    WriteRangeEmptySpliceShifts(lines, range, "");
    assert PadTo(lines, 3) == lines + [""];
    assert PadTo(lines, 2) == lines;
  }
}
