/**
 * The line array of a source buffer, read and written by line offset
 * (the `Lines` collection of Common/SourceTextBuffer.swift).
 *
 * The host's mutable array of lines is a sequence of strings, each holding
 * its own line terminator. Reading past the end yields the empty string;
 * writing past the end first pads with empty lines; writing the empty
 * string removes the line instead of blanking it.
 */
module LineArray {

  /** The buffer's text, one string per line. */
  type Lines = seq<string>

  /** The line at `offset`, or "" when there is no such line (`self[offset]` get). */
  function LineAt(lines: Lines, offset: nat): (r: string)
    ensures offset < |lines| ==> r == lines[offset]
    ensures |lines| <= offset ==> r == ""
  {
    if offset < |lines| then lines[offset] else ""
  }

  /** `n` empty lines. */
  function Empties(n: nat): (r: Lines)
    ensures |r| == n
    ensures forall k :: 0 <= k < n ==> r[k] == ""
  {
    seq(n, _ => "")
  }

  /** `lines` extended with empty lines to at least `n` lines; every line
      reads as it did through `LineAt`. */
  function PadTo(lines: Lines, n: nat): (r: Lines)
    ensures |r| == if n <= |lines| then |lines| else n
    ensures forall k :: 0 <= k < |r| ==> r[k] == LineAt(lines, k)
  {
    if n <= |lines| then lines else lines + Empties(n - |lines|)
  }

  /** `lines` without the lines at offsets `from ..< to`. */
  function Cut(lines: Lines, from: nat, to: nat): (r: Lines)
    requires from <= to <= |lines|
    ensures |r| == |lines| - (to - from)
    ensures forall k :: 0 <= k < |r| ==> r[k] == lines[if k < from then k else k + (to - from)]
  {
    lines[..from] + lines[to..]
  }

  /** The result of `self[offset] = value`: pad with `offset - count + 1`
      empty lines when `offset` is at or past the end, then remove line
      `offset` if `value` is empty and overwrite it otherwise. */
  function SetLine(lines: Lines, offset: nat, value: string): (r: Lines)
    ensures value != "" ==> |r| == (if offset < |lines| then |lines| else offset + 1)
    ensures value != "" ==>
              forall k :: 0 <= k < |r| ==> r[k] == (if k == offset then value else LineAt(lines, k))
    ensures value == "" ==> |r| == (if offset < |lines| then |lines| - 1 else offset)
    ensures value == "" ==>
              forall k :: 0 <= k < |r| ==> r[k] == LineAt(lines, if k < offset then k else k + 1)
  {
    var padded := if offset >= |lines| then lines + Empties(offset - |lines| + 1) else lines;
    if value == "" then Cut(padded, offset, offset + 1) else padded[offset := value]
  }

  /** The offset one past the last stored line (`endIndex`); reads from it on are padding. */
  function EndIndex(lines: Lines): (n: nat)
    ensures n == |lines|
    ensures forall k :: n <= k ==> LineAt(lines, k) == ""
  {
    |lines|
  }

  /** The offset after `i` (`index(after:)`); `i` must be a line of the array. */
  function IndexAfter(lines: Lines, i: nat): (j: nat)
    requires i < EndIndex(lines)
    ensures j == i + 1
    ensures j <= EndIndex(lines)
  {
    i + 1
  }

  /** The offset before `i` (`index(before:)`); `i` must be a valid index past the first. */
  function IndexBefore(lines: Lines, i: nat): (j: nat)
    requires 0 < i <= EndIndex(lines)
    ensures j == i - 1
    ensures j < EndIndex(lines)
  {
    i - 1
  }

  /** Stepping forward then back returns to the same line. */
  lemma IndexBeforeAfter(lines: Lines, i: nat)
    requires i < EndIndex(lines)
    ensures IndexBefore(lines, IndexAfter(lines, i)) == i
  {
  }

  /** After a non-empty write, the written line reads back and every other
      offset reads as before, including those past the end. */
  lemma ReadAfterWrite(lines: Lines, offset: nat, value: string, k: nat)
    requires value != ""
    ensures LineAt(SetLine(lines, offset, value), k) == if k == offset then value else LineAt(lines, k)
  {
  }

  /** After writing "", every offset at or past the removed one reads the line
      that followed it: later lines shift down by one. */
  lemma ReadAfterRemove(lines: Lines, offset: nat, k: nat)
    ensures LineAt(SetLine(lines, offset, ""), k) == LineAt(lines, if k < offset then k else k + 1)
  {
  }

  /** A non-empty write past the end appends `offset - count` empty lines and
      then the value. */
  lemma WritePastEndAppends(lines: Lines, offset: nat, value: string)
    requires |lines| <= offset
    requires value != ""
    ensures SetLine(lines, offset, value) == lines + Empties(offset - |lines|) + [value]
  {
    var r := SetLine(lines, offset, value);
    var expected := lines + Empties(offset - |lines|) + [value];
    assert |r| == |expected|;
    forall k | 0 <= k < |r|
      ensures r[k] == expected[k]
    {
    }
  }

  /** The padding `SetLine` applies is `PadTo` to one line past `offset`. */
  lemma SetLinePadsTo(lines: Lines, offset: nat, value: string)
    ensures value != "" ==> SetLine(lines, offset, value) == PadTo(lines, offset + 1)[offset := value]
    ensures value == "" ==> SetLine(lines, offset, value) == Cut(PadTo(lines, offset + 1), offset, offset + 1)
  {
  }

  /** Padding after a non-empty write is padding before it, with the written line in place. */
  lemma PadAfterWrite(lines: Lines, offset: nat, value: string, n: nat)
    requires value != ""
    requires offset < n
    ensures PadTo(SetLine(lines, offset, value), n) == PadTo(lines, n)[offset := value]
  {
    var a := PadTo(SetLine(lines, offset, value), n);
    var b := PadTo(lines, n)[offset := value];
    assert |a| == |b|;
    forall k | 0 <= k < |a|
      ensures a[k] == b[k]
    {
      ReadAfterWrite(lines, offset, value, k);
    }
  }

  /** Padding after a removal is the removal from the array padded one line further. */
  lemma PadAfterRemove(lines: Lines, offset: nat, n: nat)
    requires offset <= n
    ensures PadTo(SetLine(lines, offset, ""), n) == Cut(PadTo(lines, n + 1), offset, offset + 1)
  {
    var a := PadTo(SetLine(lines, offset, ""), n);
    var b := Cut(PadTo(lines, n + 1), offset, offset + 1);
    assert |a| == |b|;
    forall k | 0 <= k < |a|
      ensures a[k] == b[k]
    {
      ReadAfterRemove(lines, offset, k);
    }
  }
}
