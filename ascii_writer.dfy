/** The ASCII archive writer (include/mist/ascii_writer.hpp). The output
    stream is the string `out` the writer appends to; indentation is
    tracked in `indentLevel` and every line starts with
    indentLevel * indentSize spaces. Each writer call is also described
    as a value of WriterCall, so a whole sequence of calls has a pure
    rendering the class methods are proved against. */
module AsciiWriting {
  import opened Text

  /** An arithmetic value. Integers are rendered by std::to_string; a
      floating value is represented by the text `<< setprecision(15)`
      produces for it, which the model does not compute. */
  datatype Scalar = IntVal(i: int) | FloatVal(rendered: string)

  /** One call on the writer. The fixed-size and dynamic write_array
      overloads emit the same text, so one call covers both. */
  datatype WriterCall =
    | ScalarCall(name: string, value: Scalar)
    | StringCall(name: string, text: string)
    | ArrayCall(name: string, values: seq<Scalar>)
    | BeginNamed(name: string)
    | BeginAnonymous
    | End

  // ---------------------------------------------------------------------
  // format_value and escape_string
  // ---------------------------------------------------------------------

  /** format_value on a floating value: ".0" is appended when the rendered
      text has neither '.' nor 'e'. */
  function FormatFloat(rendered: string): (r: string)
    ensures '.' in r || 'e' in r
    ensures ('.' in rendered || 'e' in rendered) ==> r == rendered
    ensures !('.' in rendered || 'e' in rendered) ==> r == rendered + ".0"
  {
    if '.' !in rendered && 'e' !in rendered then
      assert (rendered + ".0")[|rendered|] == '.';
      rendered + ".0"
    else rendered
  }

  /** format_value */
  function FormatValue(v: Scalar): string
  {
    match v
    case IntVal(i) => IntToString(i)
    case FloatVal(rendered) => FormatFloat(rendered)
  }

  /** Formatting a floating value twice changes nothing more: the output
      of format_value already carries its decimal point. */
  lemma FormatFloatIdempotent(rendered: string)
    ensures FormatFloat(FormatFloat(rendered)) == FormatFloat(rendered)
  {
  }

  /** The characters escape_string replaces. */
  predicate NeedsEscape(c: char)
  {
    c == '\\' || c == '"' || c == '\n' || c == '\t' || c == '\r'
  }

  /** The letter that follows the backslash in an escape. */
  function EscapeLetter(c: char): char
  {
    if c == '\n' then 'n' else if c == '\t' then 't' else if c == '\r' then 'r' else c
  }

  /** The two-character escape of one character, or the character. */
  function EscapeChar(c: char): string
  {
    if NeedsEscape(c) then ['\\', EscapeLetter(c)] else [c]
  }

  /** escape_string, character by character. */
  function Escaped(s: string): (r: string)
  {
    if s == [] then [] else Escaped(s[..|s| - 1]) + EscapeChar(s[|s| - 1])
  }

  /** escape_string */
  method EscapeString(s: string) returns (r: string)
    ensures r == Escaped(s)
  {
    r := [];
    for i := 0 to |s|
      invariant r == Escaped(s[..i])
    {
      assert s[..i + 1][..i] == s[..i];
      var c := s[i];
      if c == '\\' {
        r := r + "\\\\";
      } else if c == '"' {
        r := r + "\\\"";
      } else if c == '\n' {
        r := r + "\\n";
      } else if c == '\t' {
        r := r + "\\t";
      } else if c == '\r' {
        r := r + "\\r";
      } else {
        r := r + [c];
      }
    }
    assert s[..|s|] == s;
  }

  /** An escaped string never spans lines, and escaping only grows the
      text. */
  lemma {:induction false} EscapedOneLine(s: string)
    ensures '\n' !in Escaped(s) && '\r' !in Escaped(s) && '\t' !in Escaped(s)
    ensures |Escaped(s)| >= |s|
    decreases |s|
  {
    if s != [] {
      EscapedOneLine(s[..|s| - 1]);
    }
  }

  /** escape_string leaves a string unchanged exactly when it holds none
      of the five escaped characters. */
  lemma {:induction false} EscapedIdentity(s: string)
    ensures Escaped(s) == s <==> forall i :: 0 <= i < |s| ==> !NeedsEscape(s[i])
    decreases |s|
  {
    if s != [] {
      var p, c := s[..|s| - 1], s[|s| - 1];
      EscapedIdentity(p);
      EscapedOneLine(p);
      assert s == p + [c];
      if Escaped(s) == s {
        assert !NeedsEscape(c);
        assert Escaped(p) == p;
      }
      if forall i :: 0 <= i < |s| ==> !NeedsEscape(s[i]) {
        assert !NeedsEscape(c);
        assert forall i :: 0 <= i < |p| ==> !NeedsEscape(p[i]) by {
          forall i | 0 <= i < |p| ensures !NeedsEscape(p[i]) {
            assert p[i] == s[i];
          }
        }
      }
    }
  }

  // ---------------------------------------------------------------------
  // The text of each call
  // ---------------------------------------------------------------------

  /** n spaces; write_indent's loop writes none when n is not positive. */
  function Spaces(n: int): (r: string)
    ensures |r| == if n > 0 then n else 0
    ensures forall i :: 0 <= i < |r| ==> r[i] == ' '
  {
    if n <= 0 then [] else Spaces(n - 1) + " "
  }

  /** The prefix write_indent writes at a level. */
  function Indent(level: int, size: int): string
  {
    Spaces(level * size)
  }

  /** The values of an array, each formatted, joined by ", ". */
  function Joined(values: seq<Scalar>): string
  {
    if values == [] then []
    else if |values| == 1 then FormatValue(values[0])
    else Joined(values[..|values| - 1]) + ", " + FormatValue(values[|values| - 1])
  }

  lemma JoinedSnoc(values: seq<Scalar>, i: nat)
    requires i < |values|
    ensures Joined(values[..i + 1]) == Joined(values[..i]) + (if i > 0 then ", " else "") + FormatValue(values[i])
  {
    assert values[..i + 1][..i] == values[..i];
    if i == 0 {
      assert values[..0] == [];
    }
  }

  /** The indent level after a call: begin_group increments it, end_group
      decrements it, every other call leaves it. */
  function LevelAfter(level: int, call: WriterCall): int
  {
    match call
    case BeginNamed(_) => level + 1
    case BeginAnonymous => level + 1
    case End => level - 1
    case _ => level
  }

  /** The line write_scalar writes. */
  function ScalarText(level: int, size: int, name: string, v: Scalar): string
  {
    Indent(level, size) + name + " = " + FormatValue(v) + "\n"
  }

  /** The line write_string writes: the escaped text between quotes. */
  function StringText(level: int, size: int, name: string, text: string): string
  {
    Indent(level, size) + name + " = \"" + Escaped(text) + "\"\n"
  }

  /** The line write_array writes. */
  function ArrayText(level: int, size: int, name: string, values: seq<Scalar>): string
  {
    Indent(level, size) + name + " = [" + Joined(values) + "]\n"
  }

  /** The line begin_group(name) writes. */
  function BeginText(level: int, size: int, name: string): string
  {
    Indent(level, size) + name + " {\n"
  }

  /** The line begin_group() writes. */
  function AnonymousText(level: int, size: int): string
  {
    Indent(level, size) + "{\n"
  }

  /** The line end_group() writes at a given level: the level is
      decremented before indenting. */
  function EndText(level: int, size: int): string
  {
    Indent(level - 1, size) + "}\n"
  }

  /** The text one call appends at a given level. */
  function LineOf(level: int, size: int, call: WriterCall): string
  {
    match call
    case ScalarCall(name, v) => ScalarText(level, size, name, v)
    case StringCall(name, text) => StringText(level, size, name, text)
    case ArrayCall(name, values) => ArrayText(level, size, name, values)
    case BeginNamed(name) => BeginText(level, size, name)
    case BeginAnonymous => AnonymousText(level, size)
    case End => EndText(level, size)
  }

  /** The level after a sequence of calls. */
  function FinalLevel(level: int, calls: seq<WriterCall>): int
    decreases |calls|
  {
    if calls == [] then level else FinalLevel(LevelAfter(level, calls[0]), calls[1..])
  }

  /** The text a sequence of calls appends. */
  function Render(level: int, size: int, calls: seq<WriterCall>): string
    decreases |calls|
  {
    if calls == [] then [] else LineOf(level, size, calls[0]) + Render(LevelAfter(level, calls[0]), size, calls[1..])
  }

  /** Group openings minus group closings. */
  function NetDepth(calls: seq<WriterCall>): int
  {
    if calls == [] then 0
    else
      (match calls[0] case BeginNamed(_) => 1 case BeginAnonymous => 1 case End => -1 case _ => 0)
      + NetDepth(calls[1..])
  }

  // ---------------------------------------------------------------------
  // Properties of rendering
  // ---------------------------------------------------------------------

  /** The level moves by the net depth of the calls. */
  lemma {:induction false} FinalLevelIsNetDepth(level: int, calls: seq<WriterCall>)
    ensures FinalLevel(level, calls) == level + NetDepth(calls)
    decreases |calls|
  {
    if calls != [] {
      FinalLevelIsNetDepth(LevelAfter(level, calls[0]), calls[1..]);
    }
  }

  /** Rendering a concatenation renders the second part at the level the
      first part leaves. */
  lemma {:induction false} RenderAppend(level: int, size: int, a: seq<WriterCall>, b: seq<WriterCall>)
    ensures Render(level, size, a + b) == Render(level, size, a) + Render(FinalLevel(level, a), size, b)
    ensures FinalLevel(level, a + b) == FinalLevel(FinalLevel(level, a), b)
    decreases |a|
  {
    if a != [] {
      assert (a + b)[0] == a[0] && (a + b)[1..] == a[1..] + b;
      RenderAppend(LevelAfter(level, a[0]), size, a[1..], b);
    } else {
      assert a + b == b;
    }
  }

  /** A group around a balanced body: the opening line at the outer
      level, the body one level deeper, and the closing brace back at the
      outer indent; the level is restored afterwards. */
  lemma GroupRendering(level: int, size: int, name: string, body: seq<WriterCall>)
    requires NetDepth(body) == 0
    ensures Render(level, size, [BeginNamed(name)] + body + [End]) ==
            Indent(level, size) + name + " {\n" + Render(level + 1, size, body) + Indent(level, size) + "}\n"
    ensures FinalLevel(level, [BeginNamed(name)] + body + [End]) == level
  {
    var open := [BeginNamed(name)];
    RenderAppend(level, size, open, body);
    RenderAppend(level, size, open + body, [End]);
    FinalLevelIsNetDepth(level + 1, body);
    assert FinalLevel(level, open) == level + 1;
    assert Render(level, size, open) == Indent(level, size) + name + " {\n";
    assert Render(level, size, [End]) == LineOf(level, size, End);
  }

  lemma DecimalExamples()
    ensures IntToString(42) == "42" && IntToString(64) == "64" && IntToString(32) == "32"
  {
    assert NatToString(42) == NatToString(4) + [DigitChar(2)];
    assert NatToString(64) == NatToString(6) + [DigitChar(4)];
    assert NatToString(32) == NatToString(3) + [DigitChar(2)];
  }

  /** The line the archive tests expect for a scalar: "iteration = 42". */
  lemma ScalarLineExample()
    ensures ScalarText(0, 4, "iteration", IntVal(42)) == "iteration = 42\n"
  {
    DecimalExamples();
  }

  /** The line the archive tests expect for an array:
      "resolution = [64, 64, 32]". */
  lemma ArrayLineExample()
    ensures ArrayText(0, 4, "resolution", [IntVal(64), IntVal(64), IntVal(32)]) == "resolution = [64, 64, 32]\n"
  {
    DecimalExamples();
    var vs := [IntVal(64), IntVal(64), IntVal(32)];
    assert vs[..1] == [IntVal(64)] && vs[..2][..1] == vs[..1] && vs[..2] == [IntVal(64), IntVal(64)];
    assert Joined(vs[..1]) == "64";
    assert Joined(vs[..2]) == "64, 64";
    assert Joined(vs) == "64, 64, 32";
  }

  /** Indentation and the ".0" rule: a float rendered "1" is written
      "1.0" one level deep, and a closing brace returns to level 0. */
  lemma IndentExamples()
    ensures ScalarText(1, 4, "x", FloatVal("1")) == "    x = 1.0\n"
    ensures BeginText(0, 4, "physics") == "physics {\n"
    ensures EndText(1, 4) == "}\n"
  {
    assert Spaces(4) == "    " by {
      assert Spaces(1) == " " && Spaces(2) == "  " && Spaces(3) == "   ";
    }
  }

  // ---------------------------------------------------------------------
  // The writer
  // ---------------------------------------------------------------------

  /** ascii_writer */
  class Writer {
    var out: string
    const indentSize: int
    var indentLevel: int

    /** ascii_writer(os, indent_size = 4); `out` holds what has been
        written to the stream through this writer. */
    constructor (indentSize: int)
      ensures out == [] && this.indentSize == indentSize && indentLevel == 0
    {
      out := [];
      this.indentSize := indentSize;
      indentLevel := 0;
    }

    /** write_indent */
    method WriteIndent()
      modifies this
      ensures out == old(out) + Indent(indentLevel, indentSize)
      ensures indentLevel == old(indentLevel)
    {
      var n := indentLevel * indentSize;
      var i := 0;
      while i < n
        invariant n <= 0 ==> i == 0
        invariant n > 0 ==> 0 <= i <= n
        invariant out == old(out) + Spaces(i)
        invariant indentLevel == old(indentLevel)
        decreases n - i
      {
        out := out + " ";
        i := i + 1;
      }
    }

    /** write_scalar(name, value) */
    method WriteScalar(name: string, value: Scalar)
      modifies this
      ensures out == old(out) + ScalarText(old(indentLevel), indentSize, name, value)
      ensures indentLevel == old(indentLevel)
    {
      WriteIndent();
      out := out + name + " = " + FormatValue(value) + "\n";
    }

    /** write_string(name, value) */
    method WriteString(name: string, value: string)
      modifies this
      ensures out == old(out) + StringText(old(indentLevel), indentSize, name, value)
      ensures indentLevel == old(indentLevel)
    {
      WriteIndent();
      var escaped := EscapeString(value);
      out := out + name + " = \"" + escaped + "\"\n";
    }

    /** write_array(name, value), both overloads. */
    method WriteArray(name: string, values: seq<Scalar>)
      modifies this
      ensures out == old(out) + ArrayText(old(indentLevel), indentSize, name, values)
      ensures indentLevel == old(indentLevel)
    {
      WriteIndent();
      out := out + name + " = [";
      ghost var head := out;
      WriteValues(values);
      out := out + "]\n";
      assert out == head + (Joined(values) + "]\n");
    }

    /** The loop of write_array: the formatted values separated by ", ". */
    method WriteValues(values: seq<Scalar>)
      modifies this
      ensures out == old(out) + Joined(values)
      ensures indentLevel == old(indentLevel)
    {
      for i := 0 to |values|
        invariant out == old(out) + Joined(values[..i])
        invariant indentLevel == old(indentLevel)
      {
        var separator := if i > 0 then ", " else "";
        var text := FormatValue(values[i]);
        JoinedSnoc(values, i);
        out := out + separator + text;
      }
      assert values[..|values|] == values;
    }

    /** begin_group(name) */
    method BeginGroup(name: string)
      modifies this
      ensures out == old(out) + BeginText(old(indentLevel), indentSize, name)
      ensures indentLevel == old(indentLevel) + 1
    {
      WriteIndent();
      out := out + name + " {\n";
      indentLevel := indentLevel + 1;
    }

    /** begin_group() */
    method BeginAnonymousGroup()
      modifies this
      ensures out == old(out) + AnonymousText(old(indentLevel), indentSize)
      ensures indentLevel == old(indentLevel) + 1
    {
      WriteIndent();
      out := out + "{\n";
      indentLevel := indentLevel + 1;
    }

    /** end_group() */
    method EndGroup()
      modifies this
      ensures out == old(out) + EndText(old(indentLevel), indentSize)
      ensures indentLevel == old(indentLevel) - 1
    {
      indentLevel := indentLevel - 1;
      WriteIndent();
      out := out + "}\n";
    }
  }
}
