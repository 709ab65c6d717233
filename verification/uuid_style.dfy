/**
 * How a UUID is rendered into a document (GenerateUUID/UUID.Style.swift):
 * bare, or wrapped in a quotation string on both sides, the style chosen
 * from the document's content type.
 *
 * The UUID is kept opaque: only its `uuidString` rendering is modelled, as
 * a plain string. Whether one Uniform Type Identifier conforms to another is
 * a system query; it is a parameter here.
 */
module UuidStyle {

  /** A UUID, seen only through its textual rendering. */
  datatype Uuid = Uuid(uuidString: string)

  /** A Uniform Type Identifier naming a content type. */
  datatype Uti = Uti(text: string)

  /** How the UUID text is written out. */
  datatype ExpressionStyle = Simple | Quoted(quotation: string)

  /** Type identifier conformance: `conformsTo(value, pattern)` holds when
      `value` conforms to `pattern`. */
  type Conformance = (Uti, Uti) -> bool

  const SourceCode := Uti("public.source-code")
  const Playground := Uti("com.apple.dt.playground")
  const PlaygroundPage := Uti("com.apple.dt.playgroundpage")
  const DoubleQuote := "\""

  /** A `case` pattern of a switch over type identifiers matches a value
      when the value conforms to the pattern. */
  predicate Matches(pattern: Uti, value: Uti, conformsTo: Conformance)
  {
    conformsTo(value, pattern)
  }

  /** The text of `uuid` in `style` (`String.init(uuid:style:)`), bare by default. */
  function FromUuid(uuid: Uuid, style: ExpressionStyle := Simple): (r: string)
    ensures style.Simple? ==> r == uuid.uuidString
    ensures style.Quoted? ==>
              var q := style.quotation;
              && |r| == |uuid.uuidString| + 2 * |q|
              && r[..|q|] == q
              && r[|q|..|r| - |q|] == uuid.uuidString
              && r[|r| - |q|..] == q
  {
    match style
    case Simple => uuid.uuidString
    case Quoted(quote) => quote + uuid.uuidString + quote
  }

  /** The UUID's text in `style` (`description(style:)`). */
  function Description(uuid: Uuid, style: ExpressionStyle): (r: string)
    ensures r == FromUuid(uuid, style)
  {
    FromUuid(uuid, style)
  }

  /** The style for a document of type `uti` (`expressionStyle(for:)`):
      double-quoted for source code and playgrounds, bare otherwise. */
  function StyleFor(uti: Uti, conformsTo: Conformance): (r: ExpressionStyle)
    ensures r == Quoted(DoubleQuote) <==>
              Matches(SourceCode, uti, conformsTo)
              || Matches(Playground, uti, conformsTo)
              || Matches(PlaygroundPage, uti, conformsTo)
    ensures r != Quoted(DoubleQuote) ==> r == Simple
  {
    if Matches(SourceCode, uti, conformsTo)
       || Matches(Playground, uti, conformsTo)
       || Matches(PlaygroundPage, uti, conformsTo)
    then Quoted(DoubleQuote)
    else Simple
  }

  /** Without an explicit style the UUID is written bare. */
  lemma DefaultStyleIsSimple(uuid: Uuid)
    ensures FromUuid(uuid) == uuid.uuidString
  {
  }

  /** Rendering in a fixed style loses nothing: distinct UUID texts stay distinct. */
  lemma FromUuidInjective(a: Uuid, b: Uuid, style: ExpressionStyle)
    requires FromUuid(a, style) == FromUuid(b, style)
    ensures a == b
  {
    if style.Quoted? {
      var r, q := FromUuid(a, style), style.quotation;
      assert a.uuidString == r[|q|..|r| - |q|] == b.uuidString;
    }
  }

  /** With conformance read as equality of identifiers, a source-code
      document gets the UUID in double quotes and any other type gets it bare. */
  lemma StyleExamples(uuid: Uuid)
    ensures var sameType := (value: Uti, pattern: Uti) => value == pattern;
            && FromUuid(uuid, StyleFor(SourceCode, sameType)) == "\"" + uuid.uuidString + "\""
            && FromUuid(uuid, StyleFor(Uti("com.example.other"), sameType)) == uuid.uuidString
  {
    var sameType := (value: Uti, pattern: Uti) => value == pattern;
    assert Matches(SourceCode, SourceCode, sameType);
    var other := Uti("com.example.other");
    assert other.text != SourceCode.text && other.text != Playground.text && other.text != PlaygroundPage.text;
  }
}
