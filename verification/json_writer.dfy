/** The styled stream writer as it runs: it appends to its stream and edits the current
    indentation in place. Comments are kept but there are none, so every array that is not
    empty is written over several lines, and childValues_ stays empty. */
module JsonWriter {
  import opened Bytes
  import opened JsonValue
  import opened JsonNumbers
  import opened JsonStrings
  import opened JsonText

  ghost function MemberText(m: Member, st: Style, outer: Bytes): Bytes {
    Break(st, outer + st.indentation) + Quoted(m.key) + ColonSymbol(st) +
    ValueText(m.value, st, outer + st.indentation, false)
  }

  ghost function ElementText(e: Value, st: Style, outer: Bytes): Bytes {
    Break(st, outer + st.indentation) + ValueText(e, st, outer + st.indentation, true)
  }

  lemma MembersFrom(ms: seq<Member>, it: nat, st: Style, outer: Bytes)
    requires it < |ms|
    ensures MembersText(ms[it..], st, outer) == MemberText(ms[it], st, outer) +
            if it + 1 == |ms| then Break(st, outer) + [125] else [COMMA] + MembersText(ms[it + 1..], st, outer)
  {
    assert ms[it..][1..] == ms[it + 1..];
  }

  lemma ElementsFrom(es: seq<Value>, index: nat, st: Style, outer: Bytes)
    requires index < |es|
    ensures ElementsText(es[index..], st, outer) == ElementText(es[index], st, outer) +
            if index + 1 == |es| then Break(st, outer) + [93] else [COMMA] + ElementsText(es[index + 1..], st, outer)
  {
    assert es[index..][1..] == es[index + 1..];
  }

  lemma Regroup(a: Bytes, b: Bytes, c: Bytes, d: Bytes)
    ensures a + b + c + d == a + (b + c + d) == a + (b + (c + d))
  {
  }

  lemma Regroup5(a: Bytes, b: Bytes, c: Bytes, d: Bytes, e: Bytes)
    ensures a + b + c + d + e == a + (b + c + d + e)
  {
  }

  class Writer {
    const style: Style
    /** The stream, and the indentation of the line being written. */
    var out: Bytes
    var indentString: Bytes
    /** Whether the cursor already stands where a value may start. */
    var indented: bool

    constructor (style: Style)
      ensures this.style == style && out == []
    {
      this.style := style;
      out := [];
      indentString := [];
      indented := false;
    }

    method PushValue(value: Bytes)
      modifies `out
      ensures out == old(out) + value
    {
      out := out + value;
    }

    method WriteIndent()
      modifies `out
      ensures out == old(out) + Break(style, indentString)
    {
      if style.indentation != [] {
        out := out + [LF] + indentString;
        assert out == old(out) + ([LF] + indentString);
      }
    }

    method WriteWithIndent(value: Bytes)
      modifies `out, `indented
      ensures !indented
      ensures out == old(out) + (if old(indented) then [] else Break(style, indentString)) + value
    {
      if !indented {
        WriteIndent();
      }
      out := out + value;
      indented := false;
    }

    method Indent()
      modifies `indentString
      ensures indentString == old(indentString) + style.indentation
    {
      indentString := indentString + style.indentation;
    }

    method Unindent(ghost outer: Bytes)
      requires indentString == outer + style.indentation
      modifies `indentString
      ensures indentString == outer
    {
      indentString := indentString[..|indentString| - |style.indentation|];
    }

    /** writeValue: the stream grows by exactly the value's text. */
    method WriteValue(value: Value)
      requires IntegersFit(value)
      modifies `out, `indented, `indentString
      ensures out == old(out) + ValueText(value, style, indentString, old(indented))
      ensures indentString == old(indentString)
      ensures !old(indented) ==> !indented
      decreases value, 1
    {
      hide Quoted, Digits, IntText, MembersText, ElementsText;
      match value {
        case Null => PushValue(NULL_TEXT);
        case Int(i) =>
          var text := IntToString(i);
          PushValue(text);
        case UInt(u) =>
          var text := UIntToString(u);
          PushValue(text);
        case Real(r) => PushValue(style.ofReal(r));
        case Str(s) =>
          var text := ValueToQuotedString(s);
          PushValue(text);
        case Bool(b) => PushValue(if b then TRUE_TEXT else FALSE_TEXT);
        case Array(es) =>
          if es == [] {
            PushValue([91, 93]);
          } else {
            ghost var opening := if indented then [] else Break(style, indentString);
            WriteArrayValue(es, value);
            Regroup(old(out), opening, [91], ElementsText(es, style, indentString));
          }
        case Object(ms) =>
          if ms == [] {
            PushValue([123, 125]);
          } else {
            ghost var opening := if indented then [] else Break(style, indentString);
            WriteObjectValue(ms, value);
            Regroup(old(out), opening, [123], MembersText(ms, style, indentString));
          }
      }
    }

    /** The object case of writeValue. */
    method WriteObjectValue(ms: seq<Member>, ghost value: Value)
      requires value == Object(ms) && ms != [] && IntegersFit(value)
      modifies `out, `indented, `indentString
      ensures out == old(out) + (if old(indented) then [] else Break(style, indentString)) + [123] +
                     MembersText(ms, style, indentString)
      ensures indentString == old(indentString) && !indented
      decreases value, 0
    {
      hide Quoted, ValueText, MembersText, Break;
      WriteWithIndent([123]);
      ghost var start, outer := out, indentString;
      ghost var all := MembersText(ms, style, outer);
      Indent();
      var it := 0;
      assert ms[0..] == ms;
      while true
        invariant 0 <= it < |ms| && !indented && indentString == outer + style.indentation
        invariant out + MembersText(ms[it..], style, outer) == start + all
        decreases |ms| - it
      {
        ghost var before := out;
        MembersFrom(ms, it, style, outer);
        var name := ValueToQuotedString(ms[it].key);
        WriteWithIndent(name);
        out := out + (if style.indentation == [] then [COLON] else [SPACE, COLON, SPACE]);
        WriteValue(ms[it].value);
        ghost var text := MemberText(ms[it], style, outer);
        assert out == before + text by {
          Regroup5(before, Break(style, indentString), Quoted(ms[it].key), ColonSymbol(style),
                   ValueText(ms[it].value, style, indentString, false));
        }
        it := it + 1;
        if it == |ms| {
          Regroup(before, text, Break(style, outer), [125]);
          break;
        }
        Regroup(before, text, [COMMA], MembersText(ms[it..], style, outer));
        out := out + [COMMA];
      }
      Unindent(outer);
      WriteWithIndent([125]);
    }

    /** writeArrayValue, for an array that is not empty. */
    method WriteArrayValue(es: seq<Value>, ghost value: Value)
      requires value == Array(es) && es != [] && IntegersFit(value)
      modifies `out, `indented, `indentString
      ensures out == old(out) + (if old(indented) then [] else Break(style, indentString)) + [91] +
                     ElementsText(es, style, indentString)
      ensures indentString == old(indentString) && !indented
      decreases value, 0
    {
      hide ValueText, ElementsText, Break;
      WriteWithIndent([91]);
      ghost var start, outer := out, indentString;
      ghost var all := ElementsText(es, style, outer);
      Indent();
      var index := 0;
      assert es[0..] == es;
      while true
        invariant 0 <= index < |es| && !indented && indentString == outer + style.indentation
        invariant out + ElementsText(es[index..], style, outer) == start + all
        decreases |es| - index
      {
        ghost var before := out;
        ElementsFrom(es, index, style, outer);
        if !indented {
          WriteIndent();
        }
        indented := true;
        WriteValue(es[index]);
        indented := false;
        ghost var text := ElementText(es[index], style, outer);
        assert out == before + text;
        index := index + 1;
        if index == |es| {
          Regroup(before, text, Break(style, outer), [93]);
          break;
        }
        Regroup(before, text, [COMMA], ElementsText(es[index..], style, outer));
        out := out + [COMMA];
      }
      Unindent(outer);
      WriteWithIndent([93]);
    }

    /** write: the stream, empty before, holds the document's text. */
    method Write(root: Value)
      requires IntegersFit(root)
      modifies this
      ensures out == old(out) + DocumentText(root, style)
    {
      indented := true;
      indentString := [];
      WriteValue(root);
    }
  }
}
