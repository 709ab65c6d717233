# GenerateUUID source-editor extension: line-array text model

This project models the core of an Xcode source-editor extension whose one
command, "Generate UUID", renders a UUID and writes it over every selection
in the current document. The UUID is wrapped in double quotes when the
document is source code or a playground, and written bare otherwise.

The model covers these pieces:

- **Strings** (`strings.dfy`): the offset-based string helpers
  `index(offsetBy:)`, `indicesOf(start:end:)`, `substring(fromOffset:)` and
  `substring(toOffset:)`, plus Foundation's `substring(with:)`,
  `replacingCharacters(in:with:)` and `joined()` as the buffer code uses them.
- **XcodeKit** (`xcode_kit.dfy`): positions and selection ranges as records,
  and the `endLine` helper on a position.
- **LineArray** (`line_array.dfy`): the buffer's lines as a `seq<string>`,
  with the offset subscript, `endIndex`, `index(after:)` and
  `index(before:)`. Reading past the end gives `""`. Writing past the end
  pads with empty lines first. Writing `""` removes the line.
- **RangeAccess** (`range_access.dfy`): the range subscript.
  - The read returns the text of a selection.
  - The write splices new text into the start line, then writes `""` to the
    consumed lines from the last one down. It then resets the selection's
    end to just after the inserted text.
- **RangeFindings** (`range_findings.dfy`): corrected versions of the two
  multi-line branches that do not do what they evidently mean (see
  "## Findings").
- **UuidStyle** (`uuid_style.dfy`): the quoted and simple expression styles,
  the rendering `String(uuid:style:)`, `description(style:)`, and the choice
  of style from the document's Uniform Type Identifier.
- **SourceEditorCommand** (`source_editor_command.dfy`): `perform` as a left
  fold of the range write over the selection list, with text formatted once.

Everything is a pure function. A write returns the new lines and the
updated selection, where the Swift code mutates the host's line array and
the selection object in place. A trap in the Swift code is a precondition
here:

- an out-of-range character offset;
- a range whose lower bound exceeds its upper bound;
- a collection slice past `endIndex`.

The standard library's slice subscript checks its bounds against
`endIndex`. So a multi-line read requires `end.line` to be at most the line
count. A multi-line write goes through the padding line accessor instead,
so it has no such requirement.

What a multi-line read evidently means is the text that ends with the end
line up to `end.column`. The code reads the slice
`start.line ..< end.line` and ends with the tail of line `end.line - 1` from
`end.column`. `ReadRange` follows the code. The intended reading is
`RangeFindings.ReadRangeIntended`. The UUID is formatted once per
invocation, before the loop, and every selection receives that one text.

## Model

| member | source | states |
|---|---|---|
| Strings.IndexOffsetBy | Common/String.swift:15-18 | for `n` from 0 to the length of `s` the index splits `s` so that exactly `n` characters precede it |
| Strings.IndicesOf | Common/String.swift:26-29 | for `start <= end`, both within `s`, the range has `start` characters before it and spans `end - start` characters |
| Strings.SubstringFrom | Common/String.swift:35-38 | the result has the length of `s` minus `offset`, and its `k`-th character is `s[offset + k]` |
| Strings.SubstringTo | Common/String.swift:44-47 | the result has length `offset` and agrees with `s` on every one of its positions |
| Strings.SubstringToFromRoundTrip | Common/String.swift:35-47 | the text before an offset followed by the text from it gives back the whole string |
| Strings.SubstringWith | Common/SourceTextBuffer.swift:83-85 | the characters inside an index range: its length is the range's width and its `k`-th character is `s[lower + k]` |
| Strings.JoinedAppend | Common/SourceTextBuffer.swift:94-96 | `joined()` with no separator distributes over concatenation of the parts: joining `a + b` is joining `a`, then joining `b` |
| Strings.ReplacingCharacters | Common/SourceTextBuffer.swift:119-121 | text before the range is kept, the replacement follows, then the text after the range; the length grows by the replacement's length less the range's width |
| XcodeKit.EndLine | Common/XcodeKit.swift:14-24 | column 0 gives the position's own line; any other column gives the next line |
| XcodeKit.EndLineBounds | Common/XcodeKit.swift:14-24 | `line <= endLine <= line + 1`, with `endLine == line` exactly when the column is 0 |
| XcodeKit.EndLineDependsOnLineAndZeroColumn | Common/XcodeKit.swift:16-23 | two positions on the same line that agree on whether the column is 0 have the same `endLine` |
| XcodeKit.EndLineCoversTouchedLines | Common/XcodeKit.swift:14-24 | line `k` is below `endLine` exactly when a range ending at the position reaches into line `k` |
| LineArray.LineAt | Common/SourceTextBuffer.swift:166-176 | an offset below the count reads the stored line; any other offset reads `""` and never fails |
| LineArray.SetLine | Common/SourceTextBuffer.swift:178-197 | a non-empty write makes the length `max(count, offset + 1)`, stores the value at `offset` and leaves every other offset reading as before; writing `""` makes the length `count - 1` (offset in range) or `offset` (past the end) and shifts later lines down by one |
| LineArray.EndIndex | Common/SourceTextBuffer.swift:151-154 | the end index is the line count, and every offset from it on reads as `""` |
| LineArray.IndexAfter | Common/SourceTextBuffer.swift:200-208 | from a line of the array, the next index is the one immediately after it, and it is at most `endIndex` |
| LineArray.IndexBefore | Common/SourceTextBuffer.swift:211-218 | from a valid index past the first, the previous index is the one immediately before it, and it is a line of the array |
| LineArray.IndexBeforeAfter | Common/SourceTextBuffer.swift:205-218 | stepping forward and then back returns to the same line |
| LineArray.ReadAfterWrite | Common/SourceTextBuffer.swift:178-197 | after a non-empty write the line reads back as written and every other offset, past the end included, reads as before |
| LineArray.ReadAfterRemove | Common/SourceTextBuffer.swift:189-192 | after writing `""`, offsets below it read as before and each offset at or past it reads the line that followed it |
| LineArray.WritePastEndAppends | Common/SourceTextBuffer.swift:180-196 | a non-empty write at `offset >= count` appends `offset - count` empty lines and then the value, giving length `offset + 1` |
| LineArray.SetLinePadsTo | Common/SourceTextBuffer.swift:180-196 | the write pads to `offset + 1` lines, then overwrites or removes line `offset` |
| RangeAccess.ReadRange | Common/SourceTextBuffer.swift:76-98 | single line: the characters `[start.column, end.column)` of the line; multi-line: the tail of line `start.line` from `start.column`, the lines strictly inside the slice `start.line ..< end.line`, then the tail of line `end.line - 1` from `end.column` |
| RangeAccess.ReadRangeIgnoresEndLine | Common/SourceTextBuffer.swift:87-96 | changing line `end.line` never changes what a multi-line read returns |
| RangeAccess.WriteRange | Common/SourceTextBuffer.swift:100-111 | after every write the selection keeps its start; its end is on the start line at `start.column` plus the length of `newValue` |
| RangeAccess.DeleteDescendingCuts | Common/SourceTextBuffer.swift:130-133 | writing `""` to lines `end.line` down to `start.line + 1` removes exactly those lines from the array padded to reach them |
| RangeAccess.WriteRangeSingleLine | Common/SourceTextBuffer.swift:115-121 | a single-line write is the line write, at `start.line`, of the line's head up to `start.column`, then `newValue`, then its tail from `end.column`; so an empty result removes the line |
| RangeAccess.WriteRangeCollapses | Common/SourceTextBuffer.swift:113-133 | on one line, or across lines whenever the spliced line is non-empty, the result is the lines before `start.line`, then the line `startLine[..start.column] + newValue + endLine[end.column..]` (dropped if empty), then the lines after `end.line` |
| RangeAccess.WriteRangeShrinks | Common/SourceTextBuffer.swift:123-133 | when every line touched exists and the spliced line is non-empty, the length shrinks by `end.line - start.line` |
| RangeAccess.WriteRangeEmptySpliceShifts | Common/SourceTextBuffer.swift:123-133 | across lines with an empty spliced line, line `start.line + 1` survives and lines `start.line` and `start.line + 2 ..= end.line + 1` are removed |
| RangeAccess.WriteThenReadBack | Common/SourceTextBuffer.swift:74-135 | reading the selection a write leaves behind returns exactly the text written |
| RangeAccess.WriteRangeCollapseExample | Common/SourceTextBuffer.swift:123-133 | replacing (0,1)-(2,2) of `["abc", "def", "ghi"]` by `"Z"` leaves the single line `"aZi"` |
| RangeFindings.ReadRangeIntended | Common/SourceTextBuffer.swift:87-96 | the corrected read returns exactly the slice of the joined text between the character offsets of `start` and `end` |
| RangeFindings.ReadRangeMultiLineCounterexample | Common/SourceTextBuffer.swift:87-96 | on `["abc", "def"]` with range (0,1)-(1,2) the read as written gives `"bcc"`; the corrected read gives `"bcde"` |
| RangeFindings.WriteRangeIntended | Common/SourceTextBuffer.swift:123-133 | the corrected write keeps the selection rule and always collapses the span into the spliced line, dropping it when empty |
| RangeFindings.IntendedMultiLineCollapses | Common/SourceTextBuffer.swift:123-133 | removing the consumed lines before storing the spliced line collapses the span whether or not the spliced line is empty |
| RangeFindings.WriteRangeAgreesWithIntended | Common/SourceTextBuffer.swift:113-133 | the write as written equals the corrected write on every single-line range and whenever the spliced line is non-empty |
| RangeFindings.WriteRangeEmptySpliceCounterexample | Common/SourceTextBuffer.swift:123-133 | replacing the whole text of `["a\n", "b"]`, range (0,0)-(1,1), by `""` leaves `["b"]` as written and no lines corrected |
| UuidStyle.FromUuid | GenerateUUID/UUID.Style.swift:48-58 | `.simple` yields the UUID text; `.quoted(q)` yields a text as long as the UUID text plus twice `q`, that starts and ends with `q` and holds the UUID text in between |
| UuidStyle.DefaultStyleIsSimple | GenerateUUID/UUID.Style.swift:48 | without a style argument the UUID text is written bare |
| UuidStyle.FromUuidInjective | GenerateUUID/UUID.Style.swift:50-57 | in a fixed style, equal renderings come from equal UUID texts |
| UuidStyle.Description | GenerateUUID/UUID.Style.swift:21-24 | `description(style:)` is the rendering `String(uuid:style:)` |
| UuidStyle.StyleFor | GenerateUUID/UUID.Style.swift:30-42 | the style is `.quoted("\"")` exactly when the type conforms to `public.source-code`, `com.apple.dt.playground` or `com.apple.dt.playgroundpage`, and `.simple` for every other type |
| UuidStyle.StyleExamples | GenerateUUID/UUID.Style.swift:30-42 | with conformance taken as equality, `public.source-code` gets the UUID in double quotes and `com.example.other` gets it bare |
| SourceEditorCommand.WriteEach | GenerateUUID/SourceEditorCommand.swift:19-22 | every selection, each with its original coordinates, ends on its start line at `start.column` plus the length of the text; no selections leave the lines unchanged |
| SourceEditorCommand.CommandText | GenerateUUID/SourceEditorCommand.swift:17 | the text inserted is the UUID text between double quotes when the document's type conforms to source code, a playground or a playground page, and the bare UUID text otherwise |
| SourceEditorCommand.Perform | GenerateUUID/SourceEditorCommand.swift:14-25 | the command completes with no error; the one formatted text goes to every selection in list order; every selection ends on its start line at `start.column` plus the length of the text; with no selections the lines are unchanged |
| SourceEditorCommand.WriteEachSingle | GenerateUUID/SourceEditorCommand.swift:19-22 | one selection is one range write |
| SourceEditorCommand.WriteEachAppend | GenerateUUID/SourceEditorCommand.swift:19-22 | writing `a + b` is writing `a` and then `b` over the result, with no coordinate adjustment between them; the same holds for the trap-free condition |
| SourceEditorCommand.PerformOneSelectionReadsBack | GenerateUUID/SourceEditorCommand.swift:14-25 | with one selection, the selection left behind reads back as the formatted UUID |

## Left out

- `XCSourceTextBuffer`, `XCSourceTextRange` and the `as!` casts on the host's arrays: the lines are a `seq<string>`, and positions and ranges are records.
- The `unowned` back-reference from the line collection to its buffer, the buffer's initialisers, and its `selections` and `contentUTI` accessors: these are object plumbing with no behaviour beyond handing values over, and the model passes those values in directly.
- `startIndex`: it is the constant 0.
- `UTI.conforms(to:)` and its `~=` pattern operator: `UTTypeConformsTo` is a system call. It is a parameter `conformsTo(value, pattern)`, and `UuidStyle.Matches` applies it the way the `~=` operator does.
- `UUID()` and Foundation's `uuidString` rendering: the UUID is random and its text is produced by the system. The UUID is an opaque string parameter.
- Unicode grapheme clusters: a Swift `Character` is one element of the string, and `characters.count` is the string's length.
- Negative line or column numbers: positions are natural numbers. Swift would trap on a negative offset anyway.
- The completion-handler callback: its argument is the `error` field of the returned `Completion`.
- LineArray.IndexAfter: the requirement `i < endIndex` comes from the documented precondition. The Swift function returns `i + 1` without checking it.
- LineArray.IndexBefore: the requirement `0 < i <= endIndex` comes from the documented precondition. The Swift function returns `i - 1` without checking it.

## Findings

| source | as written | input that shows it | evidently intended | confidence | as-written member | corrected member |
|---|---|---|---|---|---|---|
| Common/SourceTextBuffer.swift:89-92 | a multi-line read slices lines `start.line ..< end.line` and ends with the tail of line `end.line - 1` from `end.column`. Line `end.line` is never read, and with two lines the start line's text is read twice | lines `["abc", "def"]`, range (0,1)-(1,2): the read returns `"bcc"` | the text between the two positions, `"bcde"`: the start line from `start.column`, the lines between, then line `end.line` up to `end.column` | high; not executed | RangeAccess.ReadRange, shown by RangeFindings.ReadRangeMultiLineCounterexample | RangeFindings.ReadRangeIntended |
| Common/SourceTextBuffer.swift:128-133 | a multi-line write stores the spliced line first. When that line is empty the store removes line `start.line`, and the descending writes of `""` then remove lines one past the ones consumed | lines `["a\n", "b"]`, the whole text (0,0)-(1,1), new text `""`: the result is `["b"]` | the whole text goes: no lines | high; not executed | RangeAccess.WriteRange, shown by RangeFindings.WriteRangeEmptySpliceCounterexample | RangeFindings.WriteRangeIntended |

The command itself still uses `RangeAccess.WriteRange`, as the code does.
`RangeFindings.WriteRangeAgreesWithIntended` shows the two writes agree on
any non-empty text. A rendered UUID is never empty, so the command is not
affected.
