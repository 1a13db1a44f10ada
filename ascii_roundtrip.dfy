/** What the ASCII writer emits, the ASCII reader reads back, line by
    line: scalars, strings, fixed and dynamic arrays. Positions are
    absolute indices into the stream text; every line lemma starts from a
    good stream at the beginning of any run of whitespace that precedes
    the line (the end of the previous line and the indent) and ends on
    the line's closing '\n', which the next read skips. */
module ArchiveRoundTrip {
  import opened Wrappers
  import opened Text
  import opened AsciiWriting
  import opened AsciiReading

  /** A good stream at position p. */
  function At(p: nat): Cursor
  {
    Cursor(p, false, false)
  }

  /** Equal positions give the same cursor. */
  lemma {:induction false} AtSame(x: nat, y: nat)
    requires x == y
    ensures At(x) == At(y)
  {
  }

  /** Peeking and getting at a position inside the text. */
  lemma {:induction false} CharAt(text: string, p: nat)
    requires p < |text|
    ensures PeekOf(text, At(p)) == (text[p], At(p))
    ensures GetOf(text, At(p)) == (text[p], At(p + 1))
  {
  }

  /** expect_char at a position holding the expected character. */
  lemma {:induction false} ExpectAt(text: string, p: nat, ch: char, group: string)
    requires p < |text| && text[p] == ch
    ensures ExpectCharOf(text, At(p), ch, group) == Parsed(Success(()), At(p + 1))
  {
    CharAt(text, p);
  }

  /** Equal positions hold the same text. */
  lemma {:induction false} HoldsSame(text: string, x: nat, y: nat, s: string)
    requires x == y && Holds(text, x, s)
    ensures Holds(text, y, s)
  {
  }

  /** The text holds s at position p. (Defined in two steps so that one
      unfolding tells the solver only where s ends.) */
  predicate Holds(text: string, p: nat, s: string)
    decreases |s|, 1
  {
    p + |s| <= |text| && (s == [] || HoldsFirst(text, p, s))
  }

  /** The first character of s is at p and the rest of s follows it. */
  predicate HoldsFirst(text: string, p: nat, s: string)
    requires p + |s| <= |text| && s != []
    decreases |s|, 0
  {
    text[p] == s[0] && Holds(text, p + 1, s[1..])
  }

  predicate AllSpace(s: string)
  {
    forall i :: 0 <= i < |s| ==> IsSpace(s[i])
  }

  lemma {:induction false} HoldsSplit(text: string, p: nat, a: string, b: string)
    requires Holds(text, p, a + b)
    ensures Holds(text, p, a) && Holds(text, p + |a|, b)
    decreases |a|
  {
    if a == [] {
      assert a + b == b;
    } else {
      assert (a + b)[1..] == a[1..] + b;
      HoldsSplit(text, p + 1, a[1..], b);
    }
  }

  /** HoldsSplit, with the position where b starts given as q. */
  lemma {:induction false} HoldsSplitAt(text: string, p: nat, a: string, b: string, q: nat)
    requires Holds(text, p, a + b) && q == p + |a|
    ensures Holds(text, p, a) && Holds(text, q, b)
  {
    HoldsSplit(text, p, a, b);
  }

  lemma {:induction false} HoldsChar(text: string, p: nat, s: string, k: nat)
    requires Holds(text, p, s) && k < |s|
    ensures text[p + k] == s[k]
    decreases k
  {
    if k > 0 {
      HoldsChar(text, p + 1, s[1..], k - 1);
    }
  }

  /** HoldsChar at a position given by name. */
  lemma {:induction false} HoldsCharAt(text: string, p: nat, s: string, k: nat, x: nat)
    requires Holds(text, p, s) && k < |s| && x == p + k
    ensures x < |text| && text[x] == s[k]
  {
    HoldsChar(text, p, s, k);
  }

  lemma {:induction false} HoldsSlice(text: string, p: nat, s: string)
    requires Holds(text, p, s)
    ensures text[p..p + |s|] == s
  {
    forall k | 0 <= k < |s|
      ensures text[p..p + |s|][k] == s[k]
    {
      HoldsChar(text, p, s, k);
    }
  }

  lemma {:induction false} SpacesAreSpace(n: int)
    ensures AllSpace(Spaces(n))
  {
  }

  // ---------------------------------------------------------------------
  // Lexical steps
  // ---------------------------------------------------------------------

  /** skip_whitespace stops at the first non-space character. */
  lemma {:induction false} SkipWsTo(text: string, p: nat, n: nat)
    requires p + n < |text| && !IsSpace(text[p + n])
    requires forall k :: p <= k < p + n ==> IsSpace(text[k])
    ensures SkipWs(text, At(p)) == At(p + n)
    decreases n
  {
    assert PeekOf(text, At(p)) == (text[p], At(p));
    if n > 0 {
      assert GetOf(text, At(p)) == (text[p], At(p + 1));
      SkipWsTo(text, p + 1, n - 1);
    }
  }

  /** skip_whitespace on a character that is not whitespace stays put. */
  lemma {:induction false} SkipWsAt(text: string, p: nat)
    requires p < |text| && !IsSpace(text[p])
    ensures SkipWs(text, At(p)) == At(p)
  {
    assert PeekOf(text, At(p)) == (text[p], At(p));
  }

  /** skip_whitespace_and_comments stops there too when no comment
      starts. */
  lemma {:induction false} SkipWsCommentsTo(text: string, p: nat, n: nat)
    requires p + n < |text| && !IsSpace(text[p + n]) && text[p + n] != '#'
    requires forall k :: p <= k < p + n ==> IsSpace(text[k])
    ensures SkipWsComments(text, At(p)) == At(p + n)
  {
    SkipWsTo(text, p, n);
    assert PeekOf(text, At(p + n)) == (text[p + n], At(p + n));
  }

  /** The identifier loop collects the maximal run of identifier
      characters. */
  lemma {:induction false} IdentRunTo(text: string, p: nat, n: nat, acc: string)
    requires p + n < |text| && !IsIdentChar(text[p + n])
    requires forall k :: p <= k < p + n ==> IsIdentChar(text[k])
    ensures IdentRun(text, At(p), acc) == (acc + text[p..p + n], At(p + n))
    decreases n
  {
    if n > 0 {
      assert PeekOf(text, At(p)) == (text[p], At(p));
      assert GetOf(text, At(p)) == (text[p], At(p + 1));
      assert IdentRun(text, At(p), acc) == IdentRun(text, At(p + 1), acc + [text[p]]);
      IdentRunTo(text, p + 1, n - 1, acc + [text[p]]);
      assert acc + [text[p]] + text[p + 1..p + n] == acc + text[p..p + n];
    } else {
      assert PeekOf(text, At(p)) == (text[p], At(p));
      assert IdentRun(text, At(p), acc) == (acc, At(p));
      assert acc + text[p..p] == acc;
    }
  }

  /** The token loop collects the maximal run of numeric characters. */
  lemma {:induction false} TokenRunTo(text: string, p: nat, n: nat, acc: string)
    requires p + n < |text| && !IsTokenChar(text[p + n])
    requires forall k :: p <= k < p + n ==> IsTokenChar(text[k])
    ensures TokenRun(text, At(p), acc) == (acc + text[p..p + n], At(p + n))
    decreases n
  {
    if n > 0 {
      assert PeekOf(text, At(p)) == (text[p], At(p));
      assert GetOf(text, At(p)) == (text[p], At(p + 1));
      assert TokenRun(text, At(p), acc) == TokenRun(text, At(p + 1), acc + [text[p]]);
      TokenRunTo(text, p + 1, n - 1, acc + [text[p]]);
      assert acc + [text[p]] + text[p + 1..p + n] == acc + text[p..p + n];
    } else {
      assert PeekOf(text, At(p)) == (text[p], At(p));
      assert TokenRun(text, At(p), acc) == (acc, At(p));
      assert acc + text[p..p] == acc;
    }
  }

  /** read_value<int> on to_string(i) followed by a non-numeric
      character returns i. */
  lemma {:induction false} ReadIntAt(text: string, p: nat, i: int, group: string)
    requires Holds(text, p, IntToString(i))
    requires p + |IntToString(i)| < |text| && !IsTokenChar(text[p + |IntToString(i)|])
    ensures ReadValueOf(text, At(p), group, Integral) == Parsed(Success(IntVal(i)), At(p + |IntToString(i)|))
  {
    var s := IntToString(i);
    forall k | p <= k < p + |s|
      ensures IsTokenChar(text[k])
    {
      HoldsChar(text, p, s, k - p);
    }
    TokenRunTo(text, p, |s|, []);
    HoldsSlice(text, p, s);
    assert [] + text[p..p + |s|] == s;
    assert TokenRun(text, At(p), []) == (s, At(p + |s|));
    ParseIntToString(i);
  }

  /** read_value<double> returns the formatted text of a float whose
      rendering consists of numeric characters. */
  lemma {:induction false} ReadFloatAt(text: string, p: nat, rendered: string, group: string)
    requires forall k :: 0 <= k < |rendered| ==> IsTokenChar(rendered[k])
    requires Holds(text, p, FormatFloat(rendered))
    requires p + |FormatFloat(rendered)| < |text| && !IsTokenChar(text[p + |FormatFloat(rendered)|])
    ensures ReadValueOf(text, At(p), group, Floating) ==
            Parsed(Success(FloatVal(FormatFloat(rendered))), At(p + |FormatFloat(rendered)|))
  {
    var s := FormatFloat(rendered);
    forall k | p <= k < p + |s|
      ensures IsTokenChar(text[k])
    {
      HoldsChar(text, p, s, k - p);
      if k - p >= |rendered| {
        assert s == rendered + ".0";
      }
    }
    TokenRunTo(text, p, |s|, []);
    HoldsSlice(text, p, s);
    assert [] + text[p..p + |s|] == s;
    assert TokenRun(text, At(p), []) == (s, At(p + |s|));
  }

  // ---------------------------------------------------------------------
  // Escaping and the quoted-string loop
  // ---------------------------------------------------------------------

  lemma {:induction false} EscapedAppend(a: string, b: string)
    ensures Escaped(a + b) == Escaped(a) + Escaped(b)
    decreases |b|
  {
    if b == [] {
      assert a + b == a;
    } else {
      var b' := b[..|b| - 1];
      var last := EscapeChar(b[|b| - 1]);
      EscapedAppend(a, b');
      assert (a + b)[..|a + b| - 1] == a + b';
      assert (a + b)[|a + b| - 1] == b[|b| - 1];
      calc {
        Escaped(a + b);
        Escaped(a + b') + last;
        Escaped(a) + Escaped(b') + last;
        Escaped(a) + (Escaped(b') + last);
        Escaped(a) + Escaped(b);
      }
    }
  }

  /** Escaping, read from the front. */
  lemma {:induction false} EscapedCons(s: string)
    requires s != []
    ensures Escaped(s) == EscapeChar(s[0]) + Escaped(s[1..])
  {
    var one := [s[0]];
    EscapedAppend(one, s[1..]);
    assert one + s[1..] == s;
    assert one[..0] == [] && one[0] == s[0];
    calc {
      Escaped(one);
      Escaped([]) + EscapeChar(s[0]);
      [] + EscapeChar(s[0]);
      EscapeChar(s[0]);
    }
  }

  /** The quoted-string loop undoes escape_string: on the escaped text
      followed by the closing quote it collects the original string and
      stops just after the quote. */
  lemma {:induction false} QuotedBodyUnescapes(text: string, p: nat, s: string, acc: string)
    requires Holds(text, p, Escaped(s) + "\"")
    ensures QuotedBody(text, At(p), acc) == (acc + s, At(p + |Escaped(s)| + 1))
    decreases |s|
  {
    var e := Escaped(s);
    if s == [] {
      HoldsChar(text, p, e + "\"", 0);
      assert GetOf(text, At(p)) == ('"', At(p + 1));
      assert acc + s == acc;
    } else {
      var c := s[0];
      EscapedCons(s);
      var head := EscapeChar(c);
      var rest := Escaped(s[1..]);
      assert e + "\"" == head + (rest + "\"");
      HoldsSplit(text, p, head, rest + "\"");
      HoldsChar(text, p, head, 0);
      if NeedsEscape(c) {
        HoldsChar(text, p, head, 1);
        assert Unescape(EscapeLetter(c)) == c;
      }
      QuotedBodyUnescapes(text, p + |head|, s[1..], acc + [c]);
      assert acc + [c] + s[1..] == acc + s;
    }
  }

  /** read_quoted_string on a quoted escaped string returns the string:
      the escape/unescape round trip. */
  lemma {:induction false} QuotedStringRoundTrip(text: string, p: nat, s: string, group: string)
    requires Holds(text, p, "\"" + Escaped(s) + "\"")
    ensures ReadQuotedStringOf(text, At(p), group) == Parsed(Success(s), At(p + |Escaped(s)| + 2))
  {
    HoldsChar(text, p, "\"" + Escaped(s) + "\"", 0);
    assert GetOf(text, At(p)) == ('"', At(p + 1));
    assert "\"" + Escaped(s) + "\"" == "\"" + (Escaped(s) + "\"");
    HoldsSplit(text, p, "\"", Escaped(s) + "\"");
    assert ExpectCharOf(text, At(p), '"', group) == Parsed(Success(()), At(p + 1));
    QuotedBodyUnescapes(text, p + 1, s, []);
    assert [] + s == s;
  }

  /** read_string after its field head: the quoted string. */
  lemma {:induction false} StringValueAt(text: string, c: Cursor, group: string, name: string, q: nat, s: string)
    requires Within(text, c) && FieldHeadOf(text, c, group, name) == Parsed(Success(()), At(q))
    requires Holds(text, q, "\"" + Escaped(s) + "\"")
    ensures ReadStringOf(text, c, group, name) == Parsed(Success(s), At(q + |Escaped(s)| + 2))
  {
    QuotedStringRoundTrip(text, q, s, group);
  }

  // ---------------------------------------------------------------------
  // How the readers compose their stages
  // ---------------------------------------------------------------------

  lemma {:induction false} ScalarFieldGlue(text: string, c: Cursor, group: string, name: string, kind: NumberKind, q: Cursor)
    requires Within(text, c) && FieldHeadOf(text, c, group, name) == Parsed(Success(()), q)
    ensures ReadScalarOf(text, c, group, name, kind) == ReadValueOf(text, q, group, kind)
  {
  }


  lemma {:induction false} FixedArrayGlue(text: string, c: Cursor, group: string, name: string, kind: NumberKind, n: nat,
                       q: Cursor, b: Cursor, xs: seq<Scalar>, d: Cursor, e: Cursor)
    requires Within(text, c) && FieldHeadOf(text, c, group, name) == Parsed(Success(()), q)
    requires ExpectCharOf(text, q, '[', group) == Parsed(Success(()), b)
    requires FixedElems(text, b, group, kind, 0, n, []) == Parsed(Success(xs), d)
    requires ExpectCharOf(text, SkipWs(text, d), ']', group) == Parsed(Success(()), e)
    ensures ReadFixedArrayOf(text, c, group, name, kind, n) == Parsed(Success(xs), e)
  {
  }

  lemma {:induction false} DynamicArrayGlueEmpty(text: string, c: Cursor, group: string, name: string, kind: NumberKind,
                                                 q: Cursor, b: Cursor, c1: Cursor)
    requires Within(text, c) && FieldHeadOf(text, c, group, name) == Parsed(Success(()), q)
    requires ExpectCharOf(text, q, '[', group) == Parsed(Success(()), b)
    requires PeekOf(text, SkipWs(text, b)) == (']', c1)
    ensures ReadDynamicArrayOf(text, c, group, name, kind) == Parsed(Success([]), GetOf(text, c1).1)
  {
  }

  lemma {:induction false} DynamicArrayGlue(text: string, c: Cursor, group: string, name: string, kind: NumberKind,
                                            q: Cursor, b: Cursor, ch: char, c1: Cursor)
    requires Within(text, c) && FieldHeadOf(text, c, group, name) == Parsed(Success(()), q)
    requires ExpectCharOf(text, q, '[', group) == Parsed(Success(()), b)
    requires PeekOf(text, SkipWs(text, b)) == (ch, c1) && ch != ']'
    ensures ReadDynamicArrayOf(text, c, group, name, kind) == DynElems(text, c1, group, kind, [])
  {
  }

  lemma {:induction false} DynElemsStep(text: string, c: Cursor, group: string, kind: NumberKind, acc: seq<Scalar>,
                     v: Scalar, c1: Cursor, ch: char, c3: Cursor)
    requires Within(text, c) && ReadValueOf(text, SkipWs(text, c), group, kind) == Parsed(Success(v), c1)
    requires PeekOf(text, SkipWs(text, c1)) == (ch, c3) && (ch == ',' || ch == ']')
    ensures DynElems(text, c, group, kind, acc)
         == if ch == ',' then DynElems(text, GetOf(text, c3).1, group, kind, acc + [v])
            else Parsed(Success(acc + [v]), GetOf(text, c3).1)
  {
  }

  lemma {:induction false} FixedElemsStep(text: string, c: Cursor, group: string, kind: NumberKind, i: nat, n: nat, acc: seq<Scalar>,
                       v: Scalar, c1: Cursor, c2: Cursor)
    requires Within(text, c) && i < n && ReadValueOf(text, SkipWs(text, c), group, kind) == Parsed(Success(v), c1)
    requires i < n - 1 ==> ExpectCharOf(text, SkipWs(text, c1), ',', group) == Parsed(Success(()), c2)
    requires i == n - 1 ==> c2 == SkipWs(text, c1)
    requires Within(text, c2)
    ensures FixedElems(text, c, group, kind, i, n, acc) == FixedElems(text, c2, group, kind, i + 1, n, acc + [v])
  {
  }

  // ---------------------------------------------------------------------
  // Field lines
  // ---------------------------------------------------------------------

  /** Leading whitespace, then a name, then a character that cannot
      continue it: read_identifier after skipping returns the name. */
  lemma {:induction false} NameAt(text: string, p: nat, lead: string, name: string, group: string)
    requires AllSpace(lead) && Holds(text, p, lead) && IsIdentifier(name) && Holds(text, p + |lead|, name)
    requires p + |lead| + |name| < |text| && !IsIdentChar(text[p + |lead| + |name|])
    ensures ReadIdentifierOf(text, SkipWsComments(text, At(p)), group) == Parsed(Success(name), At(p + |lead| + |name|))
  {
    var q := p + |lead|;
    HoldsChar(text, q, name, 0);
    assert IsIdentChar(name[0]);
    SpaceRun(text, p, lead);
    SkipWsCommentsTo(text, p, |lead|);
    IdentCharRun(text, q, name);
    IdentRunTo(text, q, |name|, []);
    HoldsSlice(text, q, name);
    assert [] + text[q..q + |name|] == name;
  }

  lemma {:induction false} SpaceRun(text: string, p: nat, lead: string)
    requires AllSpace(lead) && Holds(text, p, lead)
    ensures forall k :: p <= k < p + |lead| ==> IsSpace(text[k])
  {
    forall k | p <= k < p + |lead|
      ensures IsSpace(text[k])
    {
      HoldsChar(text, p, lead, k - p);
    }
  }

  lemma {:induction false} IdentCharRun(text: string, p: nat, name: string)
    requires IsIdentifier(name) && Holds(text, p, name)
    ensures forall k :: p <= k < p + |name| ==> IsIdentChar(text[k])
  {
    forall k | p <= k < p + |name|
      ensures IsIdentChar(text[k])
    {
      HoldsChar(text, p, name, k - p);
    }
  }

  /** " = " before a non-space character: the '=' is found and the
      whitespace after it skipped. */
  lemma {:induction false} EqualsAt(text: string, p: nat, group: string)
    requires Holds(text, p, " = ") && p + 3 < |text| && !IsSpace(text[p + 3])
    ensures ExpectCharOf(text, SkipWs(text, At(p)), '=', group) == Parsed(Success(()), At(p + 2))
    ensures SkipWs(text, At(p + 2)) == At(p + 3)
  {
    HoldsChar(text, p, " = ", 0);
    HoldsChar(text, p, " = ", 1);
    HoldsChar(text, p, " = ", 2);
    SkipWsTo(text, p, 1);
    assert GetOf(text, At(p + 1)) == ('=', At(p + 2));
    SkipWsTo(text, p + 2, 1);
  }

  /** The head of a field line in the text at p: leading whitespace, the
      name and " = ". */
  predicate FieldText(text: string, p: nat, lead: string, name: string)
  {
    AllSpace(lead) && IsIdentifier(name) && Holds(text, p, lead) && Holds(text, p + |lead|, name) &&
    Holds(text, p + |lead| + |name|, " = ")
  }

  /** Where the value of a field line starts. */
  function ValueStart(p: nat, lead: string, name: string): nat
  {
    p + |lead| + |name| + 3
  }

  /** The head of a field line followed by a character that is not
      whitespace: the name is found and the cursor left on the value. */
  lemma {:induction false} FieldHeadAt(text: string, p: nat, lead: string, name: string, group: string)
    requires FieldText(text, p, lead, name)
    requires ValueStart(p, lead, name) < |text| && !IsSpace(text[ValueStart(p, lead, name)])
    ensures FieldHeadOf(text, At(p), group, name) == Parsed(Success(()), At(ValueStart(p, lead, name)))
  {
    var q := p + |lead| + |name|;
    HoldsChar(text, q, " = ", 0);
    NameAt(text, p, lead, name, group);
    EqualsAt(text, q, group);
    AtSame(q + 3, ValueStart(p, lead, name));
  }

  /** A field line cut into its head and its value. */
  lemma {:induction false} FieldLinePieces(text: string, p: nat, lead: string, name: string, value: string)
    requires AllSpace(lead) && IsIdentifier(name)
    requires Holds(text, p, lead + name + " = " + value)
    ensures FieldText(text, p, lead, name) && Holds(text, ValueStart(p, lead, name), value)
  {
    HoldsSplitAt(text, p, lead + name + " = ", value, ValueStart(p, lead, name));
    HoldsSplit(text, p, lead + name, " = ");
    HoldsSplit(text, p, lead, name);
  }

  /** A scalar line, cut after its " = ". */
  lemma {:induction false} ScalarLineShape(lead: string, level: int, size: int, name: string, v: Scalar)
    ensures lead + ScalarText(level, size, name, v)
         == (lead + Indent(level, size)) + name + " = " + (FormatValue(v) + "\n")
  {
  }

  /** A scalar line cut into its head and its value, which ends where the
      line's newline is. */
  lemma {:induction false} ScalarLinePieces(text: string, p: nat, lead: string, level: int, size: int, name: string, v: Scalar)
    requires AllSpace(lead) && IsIdentifier(name)
    requires Holds(text, p, lead + ScalarText(level, size, name, v))
    ensures var lead' := lead + Indent(level, size);
            var e := ValueStart(p, lead', name) + |FormatValue(v)|;
            FieldText(text, p, lead', name) && Holds(text, ValueStart(p, lead', name), FormatValue(v)) &&
            e < |text| && text[e] == '\n' && e == p + |lead| + |ScalarText(level, size, name, v)| - 1
  {
    var lead' := lead + Indent(level, size);
    var f := FormatValue(v);
    var q := ValueStart(p, lead', name);
    SpacesAreSpace(level * size);
    ScalarLineShape(lead, level, size, name, v);
    FieldLinePieces(text, p, lead', name, f + "\n");
    HoldsSplit(text, q, f, "\n");
    HoldsChar(text, q + |f|, "\n", 0);
  }

  /** An integer field line written by write_scalar is read back by
      read_scalar under the same name with the same value. */
  lemma {:induction false} ScalarLineRoundTrip(text: string, p: nat, lead: string, level: int, size: int, name: string, i: int, group: string)
    requires AllSpace(lead) && IsIdentifier(name)
    requires Holds(text, p, lead + ScalarText(level, size, name, IntVal(i)))
    ensures var line := ScalarText(level, size, name, IntVal(i));
            ReadScalarOf(text, At(p), group, name, Integral) == Parsed(Success(IntVal(i)), At(p + |lead| + |line| - 1))
  {
    var lead' := lead + Indent(level, size);
    var q := ValueStart(p, lead', name);
    ScalarLinePieces(text, p, lead, level, size, name, IntVal(i));
    HoldsChar(text, q, IntToString(i), 0);
    assert IsTokenChar(IntToString(i)[0]);
    FieldHeadAt(text, p, lead', name, group);
    ReadIntAt(text, q, i, group);
    ScalarFieldGlue(text, At(p), group, name, Integral, At(q));
    AtSame(q + |IntToString(i)|, p + |lead| + |ScalarText(level, size, name, IntVal(i))| - 1);
  }

  /** A floating field line is read back as the formatted text, so
      writing the value read produces the same line again. */
  lemma {:induction false} FloatLineRoundTrip(text: string, p: nat, lead: string, level: int, size: int, name: string, rendered: string, group: string)
    requires AllSpace(lead) && IsIdentifier(name) && rendered != []
    requires forall k :: 0 <= k < |rendered| ==> IsTokenChar(rendered[k])
    requires Holds(text, p, lead + ScalarText(level, size, name, FloatVal(rendered)))
    ensures var line := ScalarText(level, size, name, FloatVal(rendered));
            var r := ReadScalarOf(text, At(p), group, name, Floating);
            r == Parsed(Success(FloatVal(FormatFloat(rendered))), At(p + |lead| + |line| - 1)) &&
            ScalarText(level, size, name, r.out.value) == line
  {
    var lead' := lead + Indent(level, size);
    var q := ValueStart(p, lead', name);
    var f := FormatFloat(rendered);
    ScalarLinePieces(text, p, lead, level, size, name, FloatVal(rendered));
    HoldsChar(text, q, f, 0);
    assert f[0] == rendered[0] && IsTokenChar(rendered[0]);
    FieldHeadAt(text, p, lead', name, group);
    ReadFloatAt(text, q, rendered, group);
    ScalarFieldGlue(text, At(p), group, name, Floating, At(q));
    AtSame(q + |f|, p + |lead| + |ScalarText(level, size, name, FloatVal(rendered))| - 1);
    FormatFloatIdempotent(rendered);
  }

  /** A string line, cut after its " = ". */
  lemma {:induction false} StringLineShape(lead: string, level: int, size: int, name: string, s: string)
    ensures lead + StringText(level, size, name, s)
         == (lead + Indent(level, size)) + name + " = " + ("\"" + Escaped(s) + "\"" + "\n")
  {
    var e := Escaped(s);
    var i := Indent(level, size);
    assert " = \"" == " = " + "\"";
    assert "\"\n" == "\"" + "\n";
    calc {
      lead + StringText(level, size, name, s);
      lead + (i + name + " = \"" + e + "\"\n");
      lead + (i + name + (" = " + "\"") + e + ("\"" + "\n"));
      (lead + i) + name + " = " + ("\"" + e + "\"" + "\n");
    }
  }

  /** A string line cut into its head and its quoted value, which ends
      before the line's newline. */
  lemma {:induction false} StringLinePieces(text: string, p: nat, lead: string, level: int, size: int, name: string, s: string)
    requires AllSpace(lead) && IsIdentifier(name)
    requires Holds(text, p, lead + StringText(level, size, name, s))
    ensures var lead' := lead + Indent(level, size);
            FieldText(text, p, lead', name) && Holds(text, ValueStart(p, lead', name), "\"" + Escaped(s) + "\"") &&
            ValueStart(p, lead', name) + |Escaped(s)| + 2 == p + |lead| + |StringText(level, size, name, s)| - 1
  {
    var lead' := lead + Indent(level, size);
    var quoted := "\"" + Escaped(s) + "\"";
    SpacesAreSpace(level * size);
    StringLineShape(lead, level, size, name, s);
    FieldLinePieces(text, p, lead', name, quoted + "\n");
    HoldsSplit(text, ValueStart(p, lead', name), quoted, "\n");
  }

  /** read_string on a field head and a quoted escaped string returns the
      string. */
  lemma {:induction false} StringFieldRead(text: string, p: nat, lead: string, name: string, s: string, group: string)
    requires FieldText(text, p, lead, name) && Holds(text, ValueStart(p, lead, name), "\"" + Escaped(s) + "\"")
    ensures ReadStringOf(text, At(p), group, name) == Parsed(Success(s), At(ValueStart(p, lead, name) + |Escaped(s)| + 2))
  {
    var q := ValueStart(p, lead, name);
    HoldsChar(text, q, "\"" + Escaped(s) + "\"", 0);
    FieldHeadAt(text, p, lead, name, group);
    StringValueAt(text, At(p), group, name, q, s);
  }

  /** A string field line written by write_string is read back by
      read_string under the same name with the same string, whatever
      characters it holds. */
  lemma {:induction false} StringLineRoundTrip(text: string, p: nat, lead: string, level: int, size: int, name: string, s: string, group: string)
    requires AllSpace(lead) && IsIdentifier(name)
    requires Holds(text, p, lead + StringText(level, size, name, s))
    ensures var line := StringText(level, size, name, s);
            ReadStringOf(text, At(p), group, name) == Parsed(Success(s), At(p + |lead| + |line| - 1))
  {
    var lead' := lead + Indent(level, size);
    StringLinePieces(text, p, lead, level, size, name, s);
    StringFieldRead(text, p, lead', name, s, group);
    AtSame(ValueStart(p, lead', name) + |Escaped(s)| + 2, p + |lead| + |StringText(level, size, name, s)| - 1);
  }

  // ---------------------------------------------------------------------
  // Array lines
  // ---------------------------------------------------------------------

  /** Whitespace, then a character that is not: skip_whitespace ends on it. */
  lemma {:induction false} SkipLeadTo(text: string, p: nat, lead: string)
    requires AllSpace(lead) && Holds(text, p, lead)
    requires p + |lead| < |text| && !IsSpace(text[p + |lead|])
    ensures SkipWs(text, At(p)) == At(p + |lead|)
  {
    SpaceRun(text, p, lead);
    SkipWsTo(text, p, |lead|);
  }

  /** Three consecutive pieces of text. */
  lemma {:induction false} Pieces3(text: string, p: nat, a: string, b: string, c: string)
    requires Holds(text, p, a + b + c)
    ensures Holds(text, p, a) && Holds(text, p + |a|, b) && Holds(text, p + |a| + |b|, c)
  {
    HoldsSplit(text, p, a + b, c);
    HoldsSplit(text, p, a, b);
  }

  /** A value whose whole text the reader's numeric token takes: an
      integer read as int, or a non-empty numeric rendering read as
      floating point. */
  predicate Readable(v: Scalar, kind: NumberKind)
  {
    match v
    case IntVal(_) => kind == Integral
    case FloatVal(r) => kind == Floating && r != [] && forall k :: 0 <= k < |r| ==> IsTokenChar(r[k])
  }

  predicate AllReadable(vs: seq<Scalar>, kind: NumberKind)
  {
    forall k :: 0 <= k < |vs| ==> Readable(vs[k], kind)
  }

  /** The value the reader returns for v: a floating value comes back as
      the text format_value wrote. */
  function Normal(v: Scalar): Scalar
  {
    match v
    case IntVal(_) => v
    case FloatVal(r) => FloatVal(FormatFloat(r))
  }

  function Normals(vs: seq<Scalar>): (r: seq<Scalar>)
    ensures |r| == |vs|
    decreases |vs|
  {
    if vs == [] then [] else [Normal(vs[0])] + Normals(vs[1..])
  }

  /** The text of a readable value is a non-empty numeric token. */
  lemma {:induction false} ReadableText(v: Scalar, kind: NumberKind)
    requires Readable(v, kind)
    ensures FormatValue(v) != [] && forall k :: 0 <= k < |FormatValue(v)| ==> IsTokenChar(FormatValue(v)[k])
  {
    match v
    case IntVal(_) =>
    case FloatVal(r) =>
      forall k | 0 <= k < |FormatFloat(r)|
        ensures IsTokenChar(FormatFloat(r)[k])
      {
        if k >= |r| {
          assert FormatFloat(r) == r + ".0";
        }
      }
  }

  /** The value read back is written the same way as the value written. */
  lemma {:induction false} NormalText(v: Scalar)
    ensures FormatValue(Normal(v)) == FormatValue(v)
  {
    match v
    case IntVal(_) =>
    case FloatVal(r) => FormatFloatIdempotent(r);
  }

  /** read_value on the text f of a readable value followed by a
      character that ends the token. */
  lemma {:induction false} ValueAt(text: string, p: nat, v: Scalar, f: string, kind: NumberKind, group: string)
    requires Readable(v, kind) && f == FormatValue(v) && Holds(text, p, f)
    requires p + |f| < |text| && !IsTokenChar(text[p + |f|])
    ensures ReadValueOf(text, At(p), group, kind) == Parsed(Success(Normal(v)), At(p + |f|))
  {
    match v
    case IntVal(i) => ReadIntAt(text, p, i, group);
    case FloatVal(r) => ReadFloatAt(text, p, r, group);
  }

  lemma {:induction false} Regroup(a: string, b: string, c: string)
    ensures a + b + c == a + (b + c)
  {
  }

  /** One unfolding of Joined at the back. */
  lemma {:induction false} JoinedBack(vs: seq<Scalar>)
    requires |vs| > 1
    ensures Joined(vs) == Joined(vs[..|vs| - 1]) + ", " + FormatValue(vs[|vs| - 1])
  {
  }

  /** Joining, read from the front. */
  lemma {:induction false} JoinedCons(v: Scalar, rest: seq<Scalar>)
    requires rest != []
    ensures Joined([v] + rest) == FormatValue(v) + ", " + Joined(rest)
    decreases |rest|
  {
    var vs := [v] + rest;
    var last := FormatValue(rest[|rest| - 1]);
    JoinedBack(vs);
    assert vs[|vs| - 1] == rest[|rest| - 1];
    if |rest| == 1 {
      assert vs[..1] == [v];
      assert Joined([v]) == FormatValue(v);
      assert Joined(rest) == last;
    } else {
      var init := rest[..|rest| - 1];
      var a := FormatValue(v) + ", ";
      var j := Joined(init);
      JoinedCons(v, init);
      assert vs[..|vs| - 1] == [v] + init;
      JoinedBack(rest);
      assert Joined(vs) == a + j + ", " + last;
      assert Joined(rest) == j + ", " + last;
      Regroup(a + j, ", ", last);
      Regroup(a, j, ", " + last);
      Regroup(j, ", ", last);
    }
  }

  /** The first character of joined values is the first character of the
      first value. */
  lemma {:induction false} JoinedStart(vs: seq<Scalar>, kind: NumberKind)
    requires vs != [] && AllReadable(vs, kind)
    ensures Joined(vs) != [] && IsTokenChar(Joined(vs)[0])
    decreases |vs|
  {
    ReadableText(vs[0], kind);
    if |vs| > 1 {
      var init := vs[..|vs| - 1];
      assert init[0] == vs[0];
      JoinedStart(init, kind);
      assert Joined(vs) == Joined(init) + ", " + FormatValue(vs[|vs| - 1]);
    }
  }

  /** Writing the values read back gives the same text. */
  lemma {:induction false} JoinedNormals(vs: seq<Scalar>)
    ensures Joined(Normals(vs)) == Joined(vs)
    decreases |vs|
  {
    if |vs| == 1 {
      NormalText(vs[0]);
    } else if |vs| > 1 {
      var v := vs[0];
      var rest := vs[1..];
      JoinedNormals(rest);
      NormalText(v);
      JoinedCons(Normal(v), Normals(rest));
      JoinedCons(v, rest);
      assert [v] + rest == vs;
    }
  }

  /** One array element: optional whitespace, the value's text f, then
      a separator that is neither whitespace nor part of a number. */
  lemma {:induction false} ElementAt(text: string, p: nat, lead: string, v: Scalar, f: string, kind: NumberKind, sep: char,
                                     group: string, q: nat, e: nat)
    requires q == p + |lead| && e == q + |f|
    requires AllSpace(lead) && Holds(text, p, lead) && Readable(v, kind) && f == FormatValue(v)
    requires Holds(text, q, f) && e < |text| && text[e] == sep
    requires !IsSpace(sep) && !IsTokenChar(sep)
    ensures SkipWs(text, At(p)) == At(q)
    ensures ReadValueOf(text, At(q), group, kind) == Parsed(Success(Normal(v)), At(e))
    ensures SkipWs(text, At(e)) == At(e)
  {
    assert f != [] && IsTokenChar(f[0]) by {
      ReadableText(v, kind);
    }
    HoldsChar(text, q, f, 0);
    SkipLeadTo(text, p, lead);
    SkipWsTo(text, e, 0);
    ValueAt(text, q, v, f, kind, group);
  }

  /** Joined values and the closing bracket: the first value, then ',',
      then the rest after a space. */
  lemma {:induction false} JoinedHead(lead: string, vs: seq<Scalar>)
    requires |vs| > 1
    ensures lead + Joined(vs) + "]" == lead + FormatValue(vs[0]) + ("," + (" " + Joined(vs[1..]) + "]"))
  {
    JoinedCons(vs[0], vs[1..]);
    assert [vs[0]] + vs[1..] == vs;
    CommaRegroup(lead, FormatValue(vs[0]), Joined(vs[1..]));
  }

  lemma {:induction false} CommaRegroup(lead: string, a: string, b: string)
    ensures lead + (a + ", " + b) + "]" == lead + a + ("," + (" " + b + "]"))
  {
    assert ", " == "," + " ";
  }

  lemma {:induction false} ReadableCons(vs: seq<Scalar>, kind: NumberKind)
    requires vs != [] && AllReadable(vs, kind)
    ensures AllReadable(vs[1..], kind) && Readable(vs[0], kind)
  {
    assert forall k :: 0 <= k < |vs| - 1 ==> vs[1..][k] == vs[k + 1];
  }

  /** The pieces of joined values and the closing bracket: leading
      whitespace, the first value, its separator and, after more than one
      value, the rest. */
  lemma {:induction false} ElementPieces(text: string, p: nat, lead: string, vs: seq<Scalar>, e: nat)
    requires vs != [] && Holds(text, p, lead + Joined(vs) + "]") && e == p + |lead| + |FormatValue(vs[0])|
    ensures Holds(text, p, lead) && Holds(text, p + |lead|, FormatValue(vs[0])) && e < |text|
    ensures text[e] == if |vs| == 1 then ']' else ','
    ensures |vs| > 1 ==> Holds(text, e + 1, " " + Joined(vs[1..]) + "]")
  {
    var f := FormatValue(vs[0]);
    if |vs| == 1 {
      assert lead + Joined(vs) + "]" == (lead + f) + "]";
      HoldsSplitAt(text, p, lead + f, "]", e);
      HoldsChar(text, e, "]", 0);
    } else {
      var tail := " " + Joined(vs[1..]) + "]";
      JoinedHead(lead, vs);
      HoldsSplitAt(text, p, lead + f, "," + tail, e);
      HoldsSplitAt(text, e, ",", tail, e + 1);
      HoldsChar(text, e, ",", 0);
    }
    HoldsSplit(text, p, lead, f);
  }

  /** Joined readable values and the closing bracket, after whitespace
      lead, at position p. */
  predicate ElementsAt(text: string, p: nat, lead: string, vs: seq<Scalar>, kind: NumberKind)
  {
    AllSpace(lead) && vs != [] && AllReadable(vs, kind) && Holds(text, p, lead + Joined(vs) + "]")
  }

  /** Where the first of the values ends. */
  function FirstEnd(p: nat, lead: string, vs: seq<Scalar>): nat
    requires vs != []
  {
    p + |lead| + |FormatValue(vs[0])|
  }

  /** Where the joined values end, before the closing bracket. */
  function JoinedEnd(p: nat, lead: string, vs: seq<Scalar>): nat
  {
    p + |lead| + |Joined(vs)|
  }

  /** The character after the first value. */
  function Separator(vs: seq<Scalar>): char
  {
    if |vs| == 1 then ']' else ','
  }

  /** The first value is read by read_value, and the whitespace skip
      after it stays put. */
  lemma {:induction false} ElementValue(text: string, p: nat, lead: string, vs: seq<Scalar>, kind: NumberKind, group: string)
    requires ElementsAt(text, p, lead, vs, kind)
    ensures ReadValueOf(text, SkipWs(text, At(p)), group, kind) == Parsed(Success(Normal(vs[0])), At(FirstEnd(p, lead, vs)))
    ensures SkipWs(text, At(FirstEnd(p, lead, vs))) == At(FirstEnd(p, lead, vs))
  {
    var e := FirstEnd(p, lead, vs);
    ReadableCons(vs, kind);
    ElementPieces(text, p, lead, vs, e);
    ElementAt(text, p, lead, vs[0], FormatValue(vs[0]), kind, Separator(vs), group, p + |lead|, e);
  }

  /** The separator follows the first value. */
  lemma {:induction false} ElementSeparator(text: string, p: nat, lead: string, vs: seq<Scalar>, kind: NumberKind, group: string)
    requires ElementsAt(text, p, lead, vs, kind)
    ensures FirstEnd(p, lead, vs) < |text|
    ensures PeekOf(text, At(FirstEnd(p, lead, vs))) == (Separator(vs), At(FirstEnd(p, lead, vs)))
    ensures GetOf(text, At(FirstEnd(p, lead, vs))) == (Separator(vs), At(FirstEnd(p, lead, vs) + 1))
    ensures ExpectCharOf(text, At(FirstEnd(p, lead, vs)), Separator(vs), group)
         == Parsed(Success(()), At(FirstEnd(p, lead, vs) + 1))
  {
    var e := FirstEnd(p, lead, vs);
    ElementPieces(text, p, lead, vs, e);
    CharAt(text, e);
    ExpectAt(text, e, Separator(vs), group);
  }

  /** After the last value come the closing bracket. */
  lemma {:induction false} ElementLast(p: nat, lead: string, vs: seq<Scalar>)
    requires |vs| == 1
    ensures JoinedEnd(p, lead, vs) == FirstEnd(p, lead, vs)
  {
  }

  /** After a value that is not the last come a comma, a space and the
      remaining values. */
  lemma {:induction false} ElementNext(text: string, p: nat, lead: string, vs: seq<Scalar>, kind: NumberKind, q: nat)
    requires ElementsAt(text, p, lead, vs, kind) && |vs| > 1 && q == FirstEnd(p, lead, vs) + 1
    ensures ElementsAt(text, q, " ", vs[1..], kind)
    ensures JoinedEnd(p, lead, vs) == JoinedEnd(q, " ", vs[1..])
  {
    var e := FirstEnd(p, lead, vs);
    ReadableCons(vs, kind);
    ElementPieces(text, p, lead, vs, e);
    JoinedHead(lead, vs);
  }

  /** The values read back, one at the front and then the rest. */
  lemma {:induction false} NormalsAfter(acc: seq<Scalar>, vs: seq<Scalar>)
    requires vs != []
    ensures acc + [Normal(vs[0])] + Normals(vs[1..]) == acc + Normals(vs)
  {
    assert Normals(vs) == [Normal(vs[0])] + Normals(vs[1..]);
  }

  /** The value read back from a single value. */
  lemma {:induction false} NormalsOne(acc: seq<Scalar>, vs: seq<Scalar>)
    requires |vs| == 1
    ensures acc + [Normal(vs[0])] == acc + Normals(vs)
  {
    assert vs[1..] == [];
    assert Normals(vs) == [Normal(vs[0])] + Normals(vs[1..]);
  }

  /** The dynamic read_array loop stops at the closing bracket after the
      last value. */
  lemma {:induction false} DynElemsLast(text: string, p: nat, lead: string, vs: seq<Scalar>, kind: NumberKind,
                                        acc: seq<Scalar>, group: string)
    requires ElementsAt(text, p, lead, vs, kind) && |vs| == 1
    ensures DynElems(text, At(p), group, kind, acc) == Parsed(Success(acc + [Normal(vs[0])]), At(FirstEnd(p, lead, vs) + 1))
  {
    ElementValue(text, p, lead, vs, kind, group);
    ElementSeparator(text, p, lead, vs, kind, group);
    DynElemsStep(text, At(p), group, kind, acc, Normal(vs[0]), At(FirstEnd(p, lead, vs)), ']', At(FirstEnd(p, lead, vs)));
  }

  /** The dynamic read_array loop goes on after the comma. */
  lemma {:induction false} DynElemsMore(text: string, p: nat, lead: string, vs: seq<Scalar>, kind: NumberKind,
                                        acc: seq<Scalar>, group: string)
    requires ElementsAt(text, p, lead, vs, kind) && |vs| > 1
    ensures FirstEnd(p, lead, vs) < |text|
    ensures DynElems(text, At(p), group, kind, acc) == DynElems(text, At(FirstEnd(p, lead, vs) + 1), group, kind, acc + [Normal(vs[0])])
  {
    ElementValue(text, p, lead, vs, kind, group);
    ElementSeparator(text, p, lead, vs, kind, group);
    DynElemsStep(text, At(p), group, kind, acc, Normal(vs[0]), At(FirstEnd(p, lead, vs)), ',', At(FirstEnd(p, lead, vs)));
  }

  /** The dynamic read_array loop over joined values and the closing
      bracket collects every value and consumes the bracket. */
  lemma {:induction false} DynElemsRead(text: string, p: nat, lead: string, vs: seq<Scalar>, kind: NumberKind,
                                        acc: seq<Scalar>, group: string)
    requires ElementsAt(text, p, lead, vs, kind)
    ensures DynElems(text, At(p), group, kind, acc) == Parsed(Success(acc + Normals(vs)), At(JoinedEnd(p, lead, vs) + 1))
    decreases |vs|
  {
    if |vs| == 1 {
      ElementLast(p, lead, vs);
      DynElemsLast(text, p, lead, vs, kind, acc, group);
      NormalsOne(acc, vs);
    } else {
      var q := FirstEnd(p, lead, vs) + 1;
      ElementNext(text, p, lead, vs, kind, q);
      DynElemsMore(text, p, lead, vs, kind, acc, group);
      DynElemsRead(text, q, " ", vs[1..], kind, acc + [Normal(vs[0])], group);
      NormalsAfter(acc, vs);
    }
  }

  /** The fixed-size read_array loop stops after its last value, before
      the closing bracket. */
  lemma {:induction false} FixedElemsLast(text: string, p: nat, lead: string, vs: seq<Scalar>, kind: NumberKind,
                                          i: nat, n: nat, acc: seq<Scalar>, group: string)
    requires ElementsAt(text, p, lead, vs, kind) && |vs| == 1 && i + 1 == n
    ensures FixedElems(text, At(p), group, kind, i, n, acc) == Parsed(Success(acc + [Normal(vs[0])]), At(FirstEnd(p, lead, vs)))
  {
    var e := FirstEnd(p, lead, vs);
    ElementValue(text, p, lead, vs, kind, group);
    ElementSeparator(text, p, lead, vs, kind, group);
    FixedElemsStep(text, At(p), group, kind, i, n, acc, Normal(vs[0]), At(e), At(e));
  }

  /** The fixed-size read_array loop goes on after the comma. */
  lemma {:induction false} FixedElemsMore(text: string, p: nat, lead: string, vs: seq<Scalar>, kind: NumberKind,
                                          i: nat, n: nat, acc: seq<Scalar>, group: string)
    requires ElementsAt(text, p, lead, vs, kind) && |vs| > 1 && i + |vs| == n
    ensures FirstEnd(p, lead, vs) < |text|
    ensures FixedElems(text, At(p), group, kind, i, n, acc)
         == FixedElems(text, At(FirstEnd(p, lead, vs) + 1), group, kind, i + 1, n, acc + [Normal(vs[0])])
  {
    var e := FirstEnd(p, lead, vs);
    ElementValue(text, p, lead, vs, kind, group);
    ElementSeparator(text, p, lead, vs, kind, group);
    FixedElemsStep(text, At(p), group, kind, i, n, acc, Normal(vs[0]), At(e), At(e + 1));
  }

  /** The fixed-size read_array loop, started with as many elements to go
      as the text holds, collects them all and stops before the bracket. */
  lemma {:induction false} FixedElemsRead(text: string, p: nat, lead: string, vs: seq<Scalar>, kind: NumberKind,
                                          i: nat, n: nat, acc: seq<Scalar>, group: string)
    requires ElementsAt(text, p, lead, vs, kind) && i + |vs| == n
    ensures FixedElems(text, At(p), group, kind, i, n, acc) == Parsed(Success(acc + Normals(vs)), At(JoinedEnd(p, lead, vs)))
    decreases |vs|
  {
    if |vs| == 1 {
      ElementLast(p, lead, vs);
      FixedElemsLast(text, p, lead, vs, kind, i, n, acc, group);
      NormalsOne(acc, vs);
    } else {
      var q := FirstEnd(p, lead, vs) + 1;
      ElementNext(text, p, lead, vs, kind, q);
      FixedElemsMore(text, p, lead, vs, kind, i, n, acc, group);
      FixedElemsRead(text, q, " ", vs[1..], kind, i + 1, n, acc + [Normal(vs[0])], group);
      NormalsAfter(acc, vs);
    }
  }

  /** An array line with body text j between its brackets. */
  function ArrayLine(level: int, size: int, name: string, j: string): string
  {
    Indent(level, size) + name + " = [" + j + "]\n"
  }

  /** An array line, cut after its " = ". */
  lemma {:induction false} ArrayLineShape(lead: string, level: int, size: int, name: string, j: string)
    ensures lead + ArrayLine(level, size, name, j)
         == (lead + Indent(level, size)) + name + " = " + ("[" + (j + "]") + "\n")
  {
    var i := Indent(level, size);
    assert " = [" == " = " + "[";
    assert "]\n" == "]" + "\n";
    calc {
      lead + ArrayLine(level, size, name, j);
      lead + (i + name + " = [" + j + "]\n");
      lead + (i + name + (" = " + "[") + j + ("]" + "\n"));
      (lead + i) + name + " = " + ("[" + (j + "]") + "\n");
    }
  }

  /** An array line cut into its head and its bracketed values, which end
      before the line's newline. */
  lemma {:induction false} ArrayLinePieces(text: string, p: nat, lead: string, level: int, size: int, name: string, j: string)
    requires AllSpace(lead) && IsIdentifier(name)
    requires Holds(text, p, lead + ArrayLine(level, size, name, j))
    ensures var lead' := lead + Indent(level, size);
            FieldText(text, p, lead', name) && Holds(text, ValueStart(p, lead', name), "[" + (j + "]")) &&
            ValueStart(p, lead', name) + |j| + 2 == p + |lead| + |ArrayLine(level, size, name, j)| - 1
  {
    var lead' := lead + Indent(level, size);
    SpacesAreSpace(level * size);
    ArrayLineShape(lead, level, size, name, j);
    FieldLinePieces(text, p, lead', name, "[" + (j + "]") + "\n");
    HoldsSplit(text, ValueStart(p, lead', name), "[" + (j + "]"), "\n");
  }

  /** The head of an array field and its opening bracket are read,
      leaving the values and the closing bracket. */
  lemma {:induction false} ArrayHead(text: string, p: nat, lead: string, name: string, rest: string, group: string)
    requires FieldText(text, p, lead, name) && Holds(text, ValueStart(p, lead, name), "[" + rest)
    ensures var v := ValueStart(p, lead, name);
            FieldHeadOf(text, At(p), group, name) == Parsed(Success(()), At(v)) &&
            ExpectCharOf(text, At(v), '[', group) == Parsed(Success(()), At(v + 1)) &&
            Holds(text, v + 1, rest)
  {
    var v := ValueStart(p, lead, name);
    HoldsSplitAt(text, v, "[", rest, v + 1);
    HoldsChar(text, v, "[", 0);
    FieldHeadAt(text, p, lead, name, group);
    ExpectAt(text, v, '[', group);
  }

  /** The std::vector read_array on "[]": no values. */
  lemma {:induction false} DynamicArrayEmpty(text: string, p: nat, lead: string, name: string, kind: NumberKind, group: string)
    requires FieldText(text, p, lead, name) && Holds(text, ValueStart(p, lead, name), "[" + ([] + "]"))
    ensures ReadDynamicArrayOf(text, At(p), group, name, kind) == Parsed(Success([]), At(ValueStart(p, lead, name) + 2))
  {
    var v := ValueStart(p, lead, name);
    ArrayHead(text, p, lead, name, [] + "]", group);
    HoldsChar(text, v + 1, [] + "]", 0);
    SkipWsTo(text, v + 1, 0);
    CharAt(text, v + 1);
    DynamicArrayGlueEmpty(text, At(p), group, name, kind, At(v), At(v + 1), At(v + 1));
  }

  /** Joined values and a closing bracket start with the first value,
      which is neither whitespace nor the closing bracket. */
  lemma {:induction false} ValuesOpen(vs: seq<Scalar>, kind: NumberKind)
    requires vs != [] && AllReadable(vs, kind)
    ensures var r := Joined(vs) + "]"; r != [] && r[0] != ']' && !IsSpace(r[0])
  {
    JoinedStart(vs, kind);
    assert (Joined(vs) + "]")[0] == Joined(vs)[0];
  }

  /** Joined values and a closing bracket are where the element loop
      expects them. */
  lemma {:induction false} ValuesElements(text: string, b: nat, vs: seq<Scalar>, kind: NumberKind)
    requires vs != [] && AllReadable(vs, kind) && Holds(text, b, Joined(vs) + "]")
    ensures ElementsAt(text, b, [], vs, kind)
  {
    assert [] + Joined(vs) == Joined(vs);
    assert Holds(text, b, [] + Joined(vs) + "]");
  }

  /** The std::vector read_array on a bracket and a character that is
      neither whitespace nor the closing bracket: the head and the bracket
      are read, and the element loop starts on that character. */
  lemma {:induction false} DynamicArrayStart(text: string, p: nat, lead: string, name: string, rest: string,
                                             kind: NumberKind, group: string)
    requires FieldText(text, p, lead, name) && Holds(text, ValueStart(p, lead, name), "[" + rest)
    requires rest != [] && rest[0] != ']' && !IsSpace(rest[0])
    ensures ReadDynamicArrayOf(text, At(p), group, name, kind)
         == DynElems(text, At(ValueStart(p, lead, name) + 1), group, kind, [])
  {
    var v := ValueStart(p, lead, name);
    var b := v + 1;
    ArrayHead(text, p, lead, name, rest, group);
    HoldsCharAt(text, b, rest, 0, b);
    SkipWsAt(text, b);
    CharAt(text, b);
    DynamicArrayGlue(text, At(p), group, name, kind, At(v), At(b), text[b], At(b));
  }

  /** The std::vector read_array on bracketed values: every value, and
      the cursor after the closing bracket. */
  lemma {:induction false} DynamicArrayValues(text: string, p: nat, lead: string, name: string, vs: seq<Scalar>,
                                              kind: NumberKind, group: string)
    requires FieldText(text, p, lead, name) && vs != [] && AllReadable(vs, kind)
    requires Holds(text, ValueStart(p, lead, name), "[" + (Joined(vs) + "]"))
    ensures ReadDynamicArrayOf(text, At(p), group, name, kind)
         == Parsed(Success(Normals(vs)), At(JoinedEnd(ValueStart(p, lead, name) + 1, [], vs) + 1))
  {
    var b := ValueStart(p, lead, name) + 1;
    ValuesOpen(vs, kind);
    DynamicArrayStart(text, p, lead, name, Joined(vs) + "]", kind, group);
    ArrayHead(text, p, lead, name, Joined(vs) + "]", group);
    ValuesElements(text, b, vs, kind);
    DynElemsRead(text, b, [], vs, kind, [], group);
    assert [] + Normals(vs) == Normals(vs);
  }

  /** A dynamic array line written by write_array is read back by the
      std::vector read_array, the empty array "[]" included, and the values
      read are written the same way again. */
  lemma {:induction false} DynamicArrayLineRoundTrip(text: string, p: nat, lead: string, level: int, size: int, name: string,
                                  vs: seq<Scalar>, kind: NumberKind, group: string)
    requires AllSpace(lead) && IsIdentifier(name) && AllReadable(vs, kind)
    requires Holds(text, p, lead + ArrayText(level, size, name, vs))
    ensures var line := ArrayText(level, size, name, vs);
            var r := ReadDynamicArrayOf(text, At(p), group, name, kind);
            r == Parsed(Success(Normals(vs)), At(p + |lead| + |line| - 1)) &&
            ArrayText(level, size, name, r.out.value) == line
  {
    var lead' := lead + Indent(level, size);
    var j := Joined(vs);
    var v := ValueStart(p, lead', name);
    assert ArrayText(level, size, name, vs) == ArrayLine(level, size, name, j);
    ArrayLinePieces(text, p, lead, level, size, name, j);
    if vs == [] {
      DynamicArrayEmpty(text, p, lead', name, kind, group);
      assert Normals(vs) == [];
      AtSame(v + 2, p + |lead| + |ArrayText(level, size, name, vs)| - 1);
    } else {
      DynamicArrayValues(text, p, lead', name, vs, kind, group);
      AtSame(JoinedEnd(v + 1, [], vs) + 1, p + |lead| + |ArrayText(level, size, name, vs)| - 1);
    }
    JoinedNormals(vs);
  }

  /** The fixed-size read_array loop over N joined values collects them
      all and stops before the closing bracket. */
  lemma {:induction false} FixedElemsAll(text: string, b: nat, vs: seq<Scalar>, kind: NumberKind, group: string)
    requires AllReadable(vs, kind) && Holds(text, b, Joined(vs) + "]")
    ensures FixedElems(text, At(b), group, kind, 0, |vs|, []) == Parsed(Success(Normals(vs)), At(JoinedEnd(b, [], vs)))
  {
    if vs == [] {
      assert FixedElems(text, At(b), group, kind, 0, 0, []) == Parsed(Success([]), At(b));
      AtSame(b, JoinedEnd(b, [], vs));
    } else {
      ValuesElements(text, b, vs, kind);
      FixedElemsRead(text, b, [], vs, kind, 0, |vs|, [], group);
      assert [] + Normals(vs) == Normals(vs);
    }
  }

  /** The vec_t<T, N> read_array on N bracketed values: every value, and
      the cursor after the closing bracket. */
  lemma {:induction false} FixedArrayValues(text: string, p: nat, lead: string, name: string, vs: seq<Scalar>,
                                            kind: NumberKind, group: string)
    requires FieldText(text, p, lead, name) && AllReadable(vs, kind)
    requires Holds(text, ValueStart(p, lead, name), "[" + (Joined(vs) + "]"))
    ensures ReadFixedArrayOf(text, At(p), group, name, kind, |vs|)
         == Parsed(Success(Normals(vs)), At(JoinedEnd(ValueStart(p, lead, name) + 1, [], vs) + 1))
  {
    var v := ValueStart(p, lead, name);
    var b := v + 1;
    var d := JoinedEnd(b, [], vs);
    ArrayHead(text, p, lead, name, Joined(vs) + "]", group);
    FixedElemsAll(text, b, vs, kind, group);
    HoldsCharAt(text, b, Joined(vs) + "]", |Joined(vs)|, d);
    SkipWsAt(text, d);
    ExpectAt(text, d, ']', group);
    FixedArrayGlue(text, At(p), group, name, kind, |vs|, At(v), At(b), Normals(vs), At(d), At(d + 1));
  }

  /** A fixed-size array line whose length is the array's size N is read
      back by the vec_t<T, N> read_array, and the values read are written
      the same way again. */
  lemma {:induction false} FixedArrayLineRoundTrip(text: string, p: nat, lead: string, level: int, size: int, name: string,
                                vs: seq<Scalar>, kind: NumberKind, group: string)
    requires AllSpace(lead) && IsIdentifier(name) && AllReadable(vs, kind)
    requires Holds(text, p, lead + ArrayText(level, size, name, vs))
    ensures var line := ArrayText(level, size, name, vs);
            var r := ReadFixedArrayOf(text, At(p), group, name, kind, |vs|);
            r == Parsed(Success(Normals(vs)), At(p + |lead| + |line| - 1)) &&
            ArrayText(level, size, name, r.out.value) == line
  {
    var lead' := lead + Indent(level, size);
    var j := Joined(vs);
    var v := ValueStart(p, lead', name);
    assert ArrayText(level, size, name, vs) == ArrayLine(level, size, name, j);
    ArrayLinePieces(text, p, lead, level, size, name, j);
    FixedArrayValues(text, p, lead', name, vs, kind, group);
    AtSame(JoinedEnd(v + 1, [], vs) + 1, p + |lead| + |ArrayText(level, size, name, vs)| - 1);
    JoinedNormals(vs);
  }
}
