/**
 * Reading and replacing the text of a selection range
 * (the `subscript(range:)` accessor of Common/SourceTextBuffer.swift).
 *
 * Both directions are built on the line accessor of `LineArray`. A write
 * splices the replacement into the start line, removes the consumed lines
 * from the last one down, and then moves the selection's end to just after
 * the inserted text.
 */
module RangeAccess {
  import opened Strings
  import opened XcodeKit
  import opened LineArray

  /** The lines after a range write, and the selection as the write leaves it. */
  datatype Edit = Edit(lines: Lines, range: TextRange)

  /** What a range read needs to avoid a trap: columns inside their lines, and
      for a multi-line range a forward span whose slice `start.line ..< end.line`
      lies within the array (the collection's slice subscript checks its bounds
      against `endIndex`). The last line the read touches is `end.line - 1`. */
  predicate Readable(lines: Lines, range: TextRange)
  {
    var s, e := range.start, range.end;
    if s.line == e.line then
      s.column <= e.column <= |LineAt(lines, s.line)|
    else
      && s.line < e.line <= |lines|
      && s.column <= |lines[s.line]|
      && e.column <= |lines[e.line - 1]|
  }

  /** The range read (`self[range: range]` get), as written: on a single line
      the characters between the two columns; across lines the tail of the
      first line of the slice `start.line ..< end.line`, the lines strictly
      inside the slice, and the tail of the slice's last line (line
      `end.line - 1`) from `end.column`. */
  function ReadRange(lines: Lines, range: TextRange): (r: string)
    requires Readable(lines, range)
    ensures range.start.line == range.end.line ==>
              r == LineAt(lines, range.start.line)[range.start.column..range.end.column]
    ensures range.start.line < range.end.line ==>
              var s, e := range.start, range.end;
              r == lines[s.line][s.column..]
                   + Joined(if s.line + 1 < e.line then lines[s.line + 1..e.line - 1] else [])
                   + lines[e.line - 1][e.column..]
  {
    var s, e := range.start, range.end;
    if s.line == e.line then
      var text := LineAt(lines, s.line);
      SubstringWith(text, IndicesOf(text, s.column, e.column))
    else
      var texts := lines[s.line..e.line];
      var startText := SubstringFrom(texts[0], s.column);
      var lastText := SubstringFrom(texts[|texts| - 1], e.column);
      var withoutLast := texts[..|texts| - 1];
      assert withoutLast == lines[s.line..e.line - 1];
      var inner := if |withoutLast| == 0 then withoutLast else withoutLast[1..];
      assert s.line + 1 < e.line ==> inner == lines[s.line + 1..e.line - 1];
      startText + Joined(inner) + lastText
  }

  /** What a range write needs to avoid a trap: a forward span whose columns
      lie inside the start and end lines as the line getter reads them. */
  predicate Writable(lines: Lines, range: TextRange)
  {
    var s, e := range.start, range.end;
    && s.line <= e.line
    && s.column <= |LineAt(lines, s.line)|
    && e.column <= |LineAt(lines, e.line)|
    && (s.line == e.line ==> s.column <= e.column)
  }

  /** The line a write leaves at `start.line`: the start line before
      `start.column`, the new text, and the end line from `end.column` on. */
  function Splice(lines: Lines, range: TextRange, newValue: string): string
    requires Writable(lines, range)
  {
    SubstringTo(LineAt(lines, range.start.line), range.start.column)
    + newValue
    + SubstringFrom(LineAt(lines, range.end.line), range.end.column)
  }

  /** Writes "" to lines `hi - 1` down to `lo`, in that order; each write
      removes its line. */
  function DeleteDescending(lines: Lines, lo: nat, hi: nat): Lines
    decreases hi
  {
    if hi <= lo then lines
    else DeleteDescending(SetLine(lines, hi - 1, ""), lo, hi - 1)
  }

  /** The range write (`self[range: range] = newValue`), as written. On one
      line it replaces the characters between the columns; across lines it
      stores the spliced line at `start.line` and then writes "" to lines
      `end.line` down to `start.line + 1`. Either way the selection's end is
      then reset to `start` plus the length of the new text. */
  function WriteRange(lines: Lines, range: TextRange, newValue: string): (r: Edit)
    requires Writable(lines, range)
    ensures r.range.start == range.start
    ensures r.range.end.line == range.start.line
    ensures r.range.end.column == range.start.column + |newValue|
  {
    var s, e := range.start, range.end;
    var updated := TextRange(s, Position(s.line, s.column + |newValue|));
    if s.line == e.line then
      var text := LineAt(lines, s.line);
      var replaced := ReplacingCharacters(text, IndicesOf(text, s.column, e.column), newValue);
      Edit(SetLine(lines, s.line, replaced), updated)
    else
      var startText := LineAt(lines, s.line);
      var lastText := LineAt(lines, e.line);
      var first := SubstringTo(startText, s.column) + newValue + SubstringFrom(lastText, e.column);
      Edit(DeleteDescending(SetLine(lines, s.line, first), s.line + 1, e.line + 1), updated)
  }

  /** The lines of a collapsed span: every line before `start.line`, the
      spliced line unless it is empty, and every line after `end.line`,
      reading missing lines as empty. */
  function Collapsed(lines: Lines, range: TextRange, newValue: string): Lines
    requires Writable(lines, range)
  {
    var p := PadTo(lines, range.end.line + 1);
    var spliced := Splice(lines, range, newValue);
    p[..range.start.line] + (if spliced == "" then [] else [spliced]) + p[range.end.line + 1..]
  }

  /** Writing "" to lines `hi - 1` down to `lo` removes exactly those
      lines from the array padded to reach them. */
  lemma {:induction false} DeleteDescendingCuts(lines: Lines, lo: nat, hi: nat)
    requires lo < hi
    ensures DeleteDescending(lines, lo, hi) == Cut(PadTo(lines, hi), lo, hi)
    decreases hi
  {
    var p := PadTo(lines, hi);
    var last := hi - 1;
    var once := SetLine(lines, last, "");
    SetLinePadsTo(lines, last, "");
    assert once == Cut(p, last, hi);
    assert DeleteDescending(lines, lo, hi) == DeleteDescending(once, lo, last);
    if last > lo {
      DeleteDescendingCuts(once, lo, last);
      assert PadTo(once, last) == once;
      assert DeleteDescending(once, lo, last) == Cut(once, lo, last);
      CutBelowCut(p, lo, hi);
    }
  }

  /** Cutting line `to - 1` and then `from ..< to - 1` cuts `from ..< to`. */
  lemma CutBelowCut(p: Lines, from: nat, to: nat)
    requires from < to <= |p|
    ensures Cut(Cut(p, to - 1, to), from, to - 1) == Cut(p, from, to)
  {
    var a := Cut(Cut(p, to - 1, to), from, to - 1);
    var b := Cut(p, from, to);
    assert |a| == |b|;
    forall k | 0 <= k < |a|
      ensures a[k] == b[k]
    {
    }
  }

  /** Overwriting line `s` and then cutting `s + 1 ..< e + 1` keeps the
      lines before `s`, the new line, and the lines after `e`. */
  lemma CutAfterUpdate(p: Lines, s: nat, e: nat, x: string)
    requires s < e < |p|
    ensures Cut(p[s := x], s + 1, e + 1) == p[..s] + [x] + p[e + 1..]
  {
    var a := Cut(p[s := x], s + 1, e + 1);
    var b := p[..s] + [x] + p[e + 1..];
    assert |a| == |b|;
    forall k | 0 <= k < |a|
      ensures a[k] == b[k]
    {
    }
  }

  /** Cutting line `s`, then `s + 1 ..< e + 1` of what is left, keeps line
      `s + 1` between the lines before `s` and those after `e + 1`. */
  lemma CutTwice(p: Lines, s: nat, e: nat)
    requires s < e && e + 2 <= |p|
    ensures Cut(Cut(p, s, s + 1), s + 1, e + 1) == p[..s] + [p[s + 1]] + p[e + 2..]
  {
    var a := Cut(Cut(p, s, s + 1), s + 1, e + 1);
    var b := p[..s] + [p[s + 1]] + p[e + 2..];
    assert |a| == |b|;
    forall k | 0 <= k < |a|
      ensures a[k] == b[k]
    {
    }
  }

  /** The lines a multi-line write leaves: the spliced line stored at
      `start.line`, then the descending removals. */
  lemma WriteRangeMultiLineUnfolds(lines: Lines, range: TextRange, newValue: string)
    requires Writable(lines, range)
    requires range.start.line < range.end.line
    ensures var s, e := range.start.line, range.end.line;
            WriteRange(lines, range, newValue).lines
              == DeleteDescending(SetLine(lines, s, Splice(lines, range, newValue)), s + 1, e + 1)
  {
  }

  /** A single-line write stores the spliced line at `start.line`, or
      removes that line when the spliced line is empty. */
  lemma WriteRangeSingleLine(lines: Lines, range: TextRange, newValue: string)
    requires Writable(lines, range)
    requires range.start.line == range.end.line
    ensures WriteRange(lines, range, newValue).lines
            == SetLine(lines, range.start.line, Splice(lines, range, newValue))
  {
  }

  /** A write whose spliced line is non-empty, or any single-line write,
      collapses the span `start.line ..= end.line` into the spliced line
      and leaves the other lines in order. */
  lemma WriteRangeCollapses(lines: Lines, range: TextRange, newValue: string)
    requires Writable(lines, range)
    requires range.start.line == range.end.line || Splice(lines, range, newValue) != ""
    ensures WriteRange(lines, range, newValue).lines == Collapsed(lines, range, newValue)
  {
    var s, e := range.start.line, range.end.line;
    var spliced := Splice(lines, range, newValue);
    var p := PadTo(lines, e + 1);
    assert Collapsed(lines, range, newValue)
           == p[..s] + (if spliced == "" then [] else [spliced]) + p[e + 1..];
    if s == e {
      WriteRangeSingleLine(lines, range, newValue);
      SetLinePadsTo(lines, s, spliced);
      if spliced != "" {
        UpdateIsSplice(p, s, spliced);
      }
    } else {
      WriteRangeMultiLineUnfolds(lines, range, newValue);
      DeleteDescendingCuts(SetLine(lines, s, spliced), s + 1, e + 1);
      PadAfterWrite(lines, s, spliced, e + 1);
      CutAfterUpdate(p, s, e, spliced);
    }
  }

  /** Overwriting element `s` is splicing the new element between the parts around it. */
  lemma UpdateIsSplice(p: Lines, s: nat, x: string)
    requires s < |p|
    ensures p[s := x] == p[..s] + [x] + p[s + 1..]
  {
  }

  /** When every line the write touches exists and the spliced line is
      non-empty, the array shrinks by `end.line - start.line`. */
  lemma WriteRangeShrinks(lines: Lines, range: TextRange, newValue: string)
    requires Writable(lines, range)
    requires range.end.line < |lines|
    requires Splice(lines, range, newValue) != ""
    ensures |WriteRange(lines, range, newValue).lines| == |lines| - (range.end.line - range.start.line)
  {
    WriteRangeCollapses(lines, range, newValue);
  }

  /** As written, a multi-line write whose spliced line is empty removes the
      start line first, so the descending writes of "" then hit the lines
      one further on: line `start.line + 1` survives, and lines `start.line`
      and `start.line + 2 ..= end.line + 1` go. */
  lemma WriteRangeEmptySpliceShifts(lines: Lines, range: TextRange, newValue: string)
    requires Writable(lines, range)
    requires range.start.line < range.end.line
    requires Splice(lines, range, newValue) == ""
    ensures var s, e := range.start.line, range.end.line;
            var p := PadTo(lines, e + 2);
            WriteRange(lines, range, newValue).lines == p[..s] + [p[s + 1]] + p[e + 2..]
  {
    var s, e := range.start.line, range.end.line;
    WriteRangeMultiLineUnfolds(lines, range, newValue);
    RemoveThenDeleteDescending(lines, s, e);
  }

  /** Removing line `s` and then writing "" to lines `e` down to `s + 1`
      keeps only line `s + 1` of the lines `s ..= e + 1`. */
  lemma RemoveThenDeleteDescending(lines: Lines, s: nat, e: nat)
    requires s < e
    ensures var p := PadTo(lines, e + 2);
            DeleteDescending(SetLine(lines, s, ""), s + 1, e + 1) == p[..s] + [p[s + 1]] + p[e + 2..]
  {
    RemoveThenCut(lines, s, e);
    CutTwice(PadTo(lines, e + 2), s, e);
  }

  /** Removing line `s` and then writing "" to lines `e` down to `s + 1`
      cuts line `s` and then `s + 1 ..< e + 1` from the padded array. */
  lemma RemoveThenCut(lines: Lines, s: nat, e: nat)
    requires s < e
    ensures var p := PadTo(lines, e + 2);
            DeleteDescending(SetLine(lines, s, ""), s + 1, e + 1) == Cut(Cut(p, s, s + 1), s + 1, e + 1)
  {
    DeleteDescendingCuts(SetLine(lines, s, ""), s + 1, e + 1);
    PadAfterRemove(lines, s, e + 1);
  }

  /** Reading the selection a write leaves behind gives back the new text. */
  lemma WriteThenReadBack(lines: Lines, range: TextRange, newValue: string)
    requires Writable(lines, range)
    ensures var w := WriteRange(lines, range, newValue);
            Readable(w.lines, w.range) && ReadRange(w.lines, w.range) == newValue
  {
    var s := range.start;
    var spliced := Splice(lines, range, newValue);
    var w := WriteRange(lines, range, newValue);
    if spliced != "" {
      CollapsedKeepsSplice(lines, range, newValue);
      SpliceHoldsNewValue(lines, range, newValue);
      assert LineAt(w.lines, s.line) == spliced;
    } else {
      assert s.column == 0 && newValue == "";
    }
  }

  /** A write that keeps its spliced line stores it at `start.line`. */
  lemma CollapsedKeepsSplice(lines: Lines, range: TextRange, newValue: string)
    requires Writable(lines, range)
    requires Splice(lines, range, newValue) != ""
    ensures var w := WriteRange(lines, range, newValue).lines;
            range.start.line < |w| && w[range.start.line] == Splice(lines, range, newValue)
  {
    WriteRangeCollapses(lines, range, newValue);
    var p := PadTo(lines, range.end.line + 1);
    assert |p[..range.start.line]| == range.start.line;
  }

  /** The spliced line holds the new text from `start.column` on. */
  lemma SpliceHoldsNewValue(lines: Lines, range: TextRange, newValue: string)
    requires Writable(lines, range)
    ensures var x, c := Splice(lines, range, newValue), range.start.column;
            c + |newValue| <= |x| && x[c..c + |newValue|] == newValue
  {
  }

  /** A multi-line read never looks at line `end.line`: changing it changes
      nothing read. */
  lemma ReadRangeIgnoresEndLine(lines: Lines, range: TextRange, other: string)
    requires Readable(lines, range)
    requires range.start.line < range.end.line < |lines|
    ensures Readable(lines[range.end.line := other], range)
    ensures ReadRange(lines[range.end.line := other], range) == ReadRange(lines, range)
  {
    var e := range.end.line;
    var changed := lines[e := other];
    assert changed[range.start.line..e] == lines[range.start.line..e];
  }

  /** Replacing (0,1)-(2,2) of ["abc", "def", "ghi"] with "Z" leaves the
      single line "aZi". */
  lemma WriteRangeCollapseExample()
    ensures WriteRange(["abc", "def", "ghi"], TextRange(Position(0, 1), Position(2, 2)), "Z").lines == ["aZi"]
  {
    var range := TextRange(Position(0, 1), Position(2, 2));
    var lines := ["abc", "def", "ghi"];
    assert Splice(lines, range, "Z") == "aZi";
    WriteRangeCollapses(lines, range, "Z");
  }
}
