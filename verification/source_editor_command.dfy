/**
 * The "Generate UUID" editor command (GenerateUUID/SourceEditorCommand.swift):
 * render one UUID in the style the document's content type calls for, then
 * write that same text over every selection, in list order.
 *
 * The buffer, its selections and its content type come in as values; the
 * command's effect on them is returned, together with the error it reports
 * to its completion handler.
 */
module SourceEditorCommand {
  import opened XcodeKit
  import opened LineArray
  import opened RangeAccess
  import opened UuidStyle

  datatype Option<T> = None | Some(value: T)

  /** The lines after writing every selection, and the selections as the
      writes leave them. */
  datatype Applied = Applied(lines: Lines, selections: seq<TextRange>)

  /** What the command hands back to the editor: the buffer's lines and
      selections, and the error passed to the completion handler. */
  datatype Completion = Completion(lines: Lines, selections: seq<TextRange>, error: Option<string>)

  /** Each selection, in turn, is writable in the buffer the earlier writes
      leave; selections are used with their original coordinates. */
  predicate WritableInTurn(lines: Lines, selections: seq<TextRange>, text: string)
    decreases |selections|
  {
    || |selections| == 0
    || (&& Writable(lines, selections[0])
        && WritableInTurn(WriteRange(lines, selections[0], text).lines, selections[1..], text))
  }

  /** Writes `text` over each selection in list order: a left fold of the
      range write. */
  function WriteEach(lines: Lines, selections: seq<TextRange>, text: string): (r: Applied)
    requires WritableInTurn(lines, selections, text)
    ensures |r.selections| == |selections|
    ensures forall i :: 0 <= i < |selections| ==>
              && r.selections[i].start == selections[i].start
              && r.selections[i].end == Position(selections[i].start.line, selections[i].start.column + |text|)
    ensures |selections| == 0 ==> r.lines == lines
    decreases |selections|
  {
    if |selections| == 0 then Applied(lines, [])
    else
      var first := WriteRange(lines, selections[0], text);
      var rest := WriteEach(first.lines, selections[1..], text);
      Applied(rest.lines, [first.range] + rest.selections)
  }

  /** The text the command inserts: the UUID in the style its content type picks. */
  function CommandText(uuid: Uuid, uti: Uti, conformsTo: Conformance): (r: string)
    ensures Matches(SourceCode, uti, conformsTo) || Matches(Playground, uti, conformsTo)
              || Matches(PlaygroundPage, uti, conformsTo)
            ==> r == DoubleQuote + uuid.uuidString + DoubleQuote
    ensures !(Matches(SourceCode, uti, conformsTo) || Matches(Playground, uti, conformsTo)
              || Matches(PlaygroundPage, uti, conformsTo))
            ==> r == uuid.uuidString
  {
    Description(uuid, StyleFor(uti, conformsTo))
  }

  /** `perform(with:completionHandler:)`: format once, write every selection
      with that one text, and complete without an error. */
  function Perform(lines: Lines, selections: seq<TextRange>, uuid: Uuid, uti: Uti, conformsTo: Conformance)
    : (c: Completion)
    requires WritableInTurn(lines, selections, CommandText(uuid, uti, conformsTo))
    ensures c.error == None
    ensures c.lines == WriteEach(lines, selections, CommandText(uuid, uti, conformsTo)).lines
    ensures |c.selections| == |selections|
    ensures forall i :: 0 <= i < |selections| ==>
              && c.selections[i].start == selections[i].start
              && c.selections[i].end.line == selections[i].start.line
              && c.selections[i].end.column
                 == selections[i].start.column + |CommandText(uuid, uti, conformsTo)|
    ensures |selections| == 0 ==> c.lines == lines
  {
    var text := CommandText(uuid, uti, conformsTo);
    var applied := WriteEach(lines, selections, text);
    Completion(applied.lines, applied.selections, None)
  }

  /** Writing one selection is one range write. */
  lemma WriteEachSingle(lines: Lines, selection: TextRange, text: string)
    requires Writable(lines, selection)
    ensures WritableInTurn(lines, [selection], text)
    ensures WriteEach(lines, [selection], text) == Applied(WriteRange(lines, selection, text).lines,
                                                          [WriteRange(lines, selection, text).range])
  {
    assert [selection][1..] == [];
  }

  /** Writing `a + b` is writing `a`, then writing `b` over the result: the
      selections are applied strictly in list order, none adjusted for the
      line shifts of the ones before it. */
  lemma {:induction false} WriteEachAppend(lines: Lines, a: seq<TextRange>, b: seq<TextRange>, text: string)
    ensures WritableInTurn(lines, a + b, text) <==>
              WritableInTurn(lines, a, text) && WritableInTurn(WriteEach(lines, a, text).lines, b, text)
    ensures WritableInTurn(lines, a + b, text) ==>
              WriteEach(lines, a + b, text).lines == WriteEach(WriteEach(lines, a, text).lines, b, text).lines
    decreases |a|
  {
    if |a| == 0 {
      assert a + b == b;
    } else {
      assert (a + b)[0] == a[0];
      assert (a + b)[1..] == a[1..] + b;
      if Writable(lines, a[0]) {
        WriteEachAppend(WriteRange(lines, a[0], text).lines, a[1..], b, text);
      }
    }
  }

  /** With one selection, the selection the command leaves behind reads back
      as the formatted UUID. */
  lemma PerformOneSelectionReadsBack(lines: Lines, selection: TextRange, uuid: Uuid, uti: Uti,
                                     conformsTo: Conformance)
    requires Writable(lines, selection)
    ensures WritableInTurn(lines, [selection], CommandText(uuid, uti, conformsTo))
    ensures var c := Perform(lines, [selection], uuid, uti, conformsTo);
            && Readable(c.lines, c.selections[0])
            && ReadRange(c.lines, c.selections[0]) == Description(uuid, StyleFor(uti, conformsTo))
  {
    var text := CommandText(uuid, uti, conformsTo);
    WriteEachSingle(lines, selection, text);
    WriteThenReadBack(lines, selection, text);
  }
}
