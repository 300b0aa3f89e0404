/** lidig_json: a value to text, on a single line or indented by tabs, and text to a value. */
module JsonLibrary {
  import opened Bytes
  import opened JsonValue
  import opened JsonText
  import JsonGrammar
  import JsonReader
  import JsonRoundTrip
  import JsonExact
  import JsonWriter

  /** The builder's settings; `ofReal` prints a double. */
  function StyleOf(singleLine: bool, ofReal: real -> Bytes): Style {
    Style(if singleLine then [] else [TAB], ofReal)
  }

  /** value_to_string. */
  method ValueToString(root: Value, singleLine: bool, ofReal: real -> Bytes) returns (text: Bytes)
    requires IntegersFit(root)
    ensures text == DocumentText(root, StyleOf(singleLine, ofReal))
  {
    var writer := new JsonWriter.Writer(StyleOf(singleLine, ofReal));
    writer.Write(root);
    text := writer.out;
  }

  /** What must come of a text written from `v`, whose doubles read back: the value restored, or
      the reader's exception if the value is past its limits; and the value itself exactly if
      that is writable and nested no deeper than the stack limit. */
  ghost predicate GivesBack(v: Value, r: JsonReader.Outcome, root: Value) {
    && (if JsonRoundTrip.Accepted(v, 1) then r == JsonReader.Read && root == JsonRoundTrip.Restored(v)
        else r == JsonReader.Thrown)
    && (JsonExact.Ordered(v) ==>
          (r == JsonReader.Read && root == v <==>
           JsonExact.Writable(v) && JsonExact.Height(v) <= JsonGrammar.STACK_LIMIT))
  }

  /** The reader's outcome is what the grammar makes of the text. */
  ghost predicate AsGrammar(spec: JsonGrammar.Result, r: JsonReader.Outcome, root: Value) {
    (r == JsonReader.Read <==> spec.Good?) && (r == JsonReader.Thrown <==> spec.Thrown?) &&
    (spec.Good? ==> root == spec.value)
  }

  lemma Given(v: Value, st: Style, toDouble: Bytes -> Option<real>, r: JsonReader.Outcome, root: Value)
    requires JsonRoundTrip.Printable(v, st, toDouble) && JsonRoundTrip.AllSpace(st.indentation)
    requires AsGrammar(JsonGrammar.Parse(DocumentText(v, st), toDouble), r, root)
    ensures GivesBack(v, r, root)
  {
    hide JsonGrammar.Parse, DocumentText, JsonRoundTrip.Accepted, JsonRoundTrip.Restored, JsonExact.Ordered,
         JsonExact.Writable, JsonExact.Height;
    JsonRoundTrip.DocumentReads(v, st, toDouble);
    if JsonExact.Ordered(v) {
      JsonExact.RoundTripExactly(v, st, toDouble);
    }
  }

  /** string_to_value: what the grammar makes of the text. A text that was written from a value,
      on a single line or indented by white space, gives that back as GivesBack says. */
  method StringToValue(text: Bytes, toDouble: Bytes -> Option<real>) returns (r: JsonReader.Outcome, root: Value)
    ensures AsGrammar(JsonGrammar.Parse(text, toDouble), r, root)
    ensures forall v: Value, st: Style {:trigger DocumentText(v, st)} ::
              JsonRoundTrip.Printable(v, st, toDouble) && JsonRoundTrip.AllSpace(st.indentation) &&
              text == DocumentText(v, st) ==>
              GivesBack(v, r, root)
  {
    hide JsonGrammar.Parse, DocumentText, JsonRoundTrip.Printable, JsonRoundTrip.AllSpace, GivesBack;
    var reader := new JsonReader.Reader(text, toDouble);
    r := reader.Parse();
    root := reader.value;
    forall v: Value, st: Style |
        JsonRoundTrip.Printable(v, st, toDouble) && JsonRoundTrip.AllSpace(st.indentation) &&
          text == DocumentText(v, st)
      ensures GivesBack(v, r, root)
    {
      Given(v, st, toDouble, r, root);
    }
  }
}
