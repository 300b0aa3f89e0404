/** The text the styled stream writer produces, for any indentation string; lidig_json
    uses the empty one (a single line) or a tab. */
module JsonText {
  import opened Bytes
  import opened JsonValue
  import opened JsonNumbers
  import opened JsonStrings

  const TRUE_TEXT: Bytes := [116, 114, 117, 101]
  const FALSE_TEXT: Bytes := [102, 97, 108, 115, 101]
  const NULL_TEXT: Bytes := [110, 117, 108, 108]

  /** The writer's settings: the indentation, and how a double is printed. */
  datatype Style = Style(indentation: Bytes, ofReal: real -> Bytes)

  function ColonSymbol(st: Style): Bytes {
    if st.indentation == [] then [COLON] else [SPACE, COLON, SPACE]
  }

  /** writeIndent: a new line, unless there is no indentation. */
  function Break(st: Style, indent: Bytes): Bytes {
    if st.indentation == [] then [] else [LF] + indent
  }

  /** What writeValue appends, given indentString_ and indented_. */
  function ValueText(v: Value, st: Style, indent: Bytes, indented: bool): Bytes
    decreases v, 0
  {
    match v
    case Null => NULL_TEXT
    case Int(i) => IntText(i)
    case UInt(u) => Digits(u)
    case Real(r) => st.ofReal(r)
    case Str(s) => Quoted(s)
    case Bool(b) => if b then TRUE_TEXT else FALSE_TEXT
    case Array(es) =>
      if es == [] then [91, 93] else
      (if indented then [] else Break(st, indent)) + [91] + ElementsText(es, st, indent)
    case Object(ms) =>
      if ms == [] then [123, 125] else
      (if indented then [] else Break(st, indent)) + [123] + MembersText(ms, st, indent)
  }

  /** The elements, each on its own line, and the closing bracket. */
  function ElementsText(es: seq<Value>, st: Style, indent: Bytes): Bytes
    requires es != []
    decreases es, 1
  {
    Break(st, indent + st.indentation) + ValueText(es[0], st, indent + st.indentation, true) +
    (if |es| == 1 then Break(st, indent) + [93] else [COMMA] + ElementsText(es[1..], st, indent))
  }

  /** The members in key order, each on its own line, and the closing brace. */
  function MembersText(ms: seq<Member>, st: Style, indent: Bytes): Bytes
    requires ms != []
    decreases ms, 1
  {
    Break(st, indent + st.indentation) + Quoted(ms[0].key) + ColonSymbol(st) +
    ValueText(ms[0].value, st, indent + st.indentation, false) +
    (if |ms| == 1 then Break(st, indent) + [125] else [COMMA] + MembersText(ms[1..], st, indent))
  }

  /** write: the whole document. */
  function DocumentText(v: Value, st: Style): Bytes {
    ValueText(v, st, [], true)
  }
}
