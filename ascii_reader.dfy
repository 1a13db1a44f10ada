/** The ASCII archive reader (include/mist/ascii_reader.hpp).

    The std::istream it reads is an InputStream object: the text, a read
    position and the eof and fail flags, with peek / get / tellg / seekg
    as the standard library defines them for an input stream (an
    unformatted input operation on a stream that is not good sets the
    failbit; reaching the end sets the eofbit; `is_` tests the failbit).
    Every reading operation is specified by a pure function from the
    text and a Cursor (the stream's position and flags) to the value read
    (or the runtime_error thrown) and the cursor afterwards; the methods
    of Reader are proved against those functions. */
module AsciiReading {
  import opened Wrappers
  import opened Text
  import opened AsciiWriting

  /** static_cast<char>(traits::eof()) for a signed char: the character
      peek_char and get_char return at the end of the stream or on a
      failed stream. */
  const EOF: char := '\U{FF}'

  /** The stream's read position and state bits. */
  datatype Cursor = Cursor(pos: nat, eof: bool, fail: bool) {
    predicate Good() {
      !eof && !fail
    }
  }

  predicate Within(text: string, c: Cursor)
  {
    c.pos <= |text|
  }

  /** A measure every consuming step lowers: characters left, then the
      failbit. */
  function Rank(text: string, c: Cursor): nat
    requires Within(text, c)
  {
    2 * (|text| - c.pos) + (if c.fail then 0 else 1)
  }

  /** What a read produced, and where the stream is afterwards. */
  datatype Parsed<T> = Parsed(out: Result<T, ReadError>, cur: Cursor)

  /** Which name read_... expected: a field or a group. */
  datatype NameKind = Field | Group

  /** The runtime_errors the reader throws. */
  datatype ReadError =
    | NameMismatch(kind: NameKind, expected: string, found: string, group: string)
    | UnexpectedChar(wanted: char, got: char, group: string)
    | MissingIdentifier(group: string)
    | MissingNumber(group: string)
    | BadNumber(token: string, group: string)
    | BadSeparator(separator: char)

  /** The arithmetic type read_value<T> converts to. */
  datatype NumberKind = Integral | Floating

  /** The what() text of each error. */
  function Message(e: ReadError): string
  {
    match e
    case NameMismatch(kind, expected, found, group) =>
      (if kind == Field then "Expected field '" else "Expected group '") + expected + "' but found '" + found +
      "' in group '" + group + "'"
    case UnexpectedChar(expected, found, group) =>
      "Expected '" + [expected] + "' but found '" + [found] + "' in group '" + group + "'"
    case MissingIdentifier(group) => "Expected identifier in group '" + group + "'"
    case MissingNumber(group) => "Expected numeric value in group '" + group + "'"
    case BadNumber(token, group) => "Failed to parse value '" + token + "' in group '" + group + "'"
    case BadSeparator(found) => "Expected ',' or ']' but found '" + [found] + "'"
  }

  /** t occurs in s at index i. */
  predicate OccursAt(s: string, t: string, i: int)
  {
    0 <= i <= |s| - |t| && s[i..i + |t|] == t
  }

  ghost predicate ContainsText(s: string, t: string)
  {
    exists i :: OccursAt(s, t, i)
  }

  /** A name mismatch reports the expected name, the name found and the
      current group path. */
  lemma MismatchMessageNames(kind: NameKind, expected: string, found: string, group: string)
    ensures var m := Message(NameMismatch(kind, expected, found, group));
            ContainsText(m, expected) && ContainsText(m, found) && ContainsText(m, group)
  {
    var head := if kind == Field then "Expected field '" else "Expected group '";
    var m := Message(NameMismatch(kind, expected, found, group));
    var i := |head|;
    var j := i + |expected| + |"' but found '"|;
    var k := j + |found| + |"' in group '"|;
    assert m == head + expected + "' but found '" + found + "' in group '" + group + "'";
    assert OccursAt(m, expected, i);
    assert OccursAt(m, found, j);
    assert OccursAt(m, group, k);
  }

  // ---------------------------------------------------------------------
  // The stream operations
  // ---------------------------------------------------------------------

  /** istream::peek */
  function PeekOf(text: string, c: Cursor): (r: (char, Cursor))
    requires Within(text, c)
    ensures Within(text, r.1) && r.1.pos == c.pos && Rank(text, r.1) <= Rank(text, c)
  {
    if !c.Good() then (EOF, c.(fail := true))
    else if c.pos == |text| then (EOF, c.(eof := true))
    else (text[c.pos], c)
  }

  /** istream::get */
  function GetOf(text: string, c: Cursor): (r: (char, Cursor))
    requires Within(text, c)
    ensures Within(text, r.1) && r.1.pos >= c.pos && Rank(text, r.1) <= Rank(text, c)
    ensures !c.fail ==> Rank(text, r.1) < Rank(text, c)
  {
    if !c.Good() then (EOF, c.(fail := true))
    else if c.pos == |text| then (EOF, c.(eof := true, fail := true))
    else (text[c.pos], c.(pos := c.pos + 1))
  }

  /** istream::tellg: -1 on a stream that is not good (and the failbit
      is then set). */
  function TellOf(text: string, c: Cursor): (r: (int, Cursor))
    requires Within(text, c)
    ensures Within(text, r.1) && r.1.pos == c.pos
  {
    if !c.Good() then (-1 as int, c.(fail := true)) else (c.pos, c)
  }

  /** istream::seekg(pos): clears the eofbit, then moves only when the
      failbit is clear; a position outside the text sets the failbit. */
  function SeekOf(text: string, c: Cursor, p: int): (r: Cursor)
    requires Within(text, c)
    ensures Within(text, r)
  {
    var c1 := c.(eof := false);
    if c1.fail then c1
    else if 0 <= p <= |text| then c1.(pos := p)
    else c1.(fail := true)
  }

  // ---------------------------------------------------------------------
  // Lexical specification
  // ---------------------------------------------------------------------

  /** skip_whitespace */
  function SkipWs(text: string, c: Cursor): (r: Cursor)
    requires Within(text, c)
    ensures Within(text, r) && r.pos >= c.pos
    decreases Rank(text, c)
  {
    if c.fail then c
    else
      var (ch, c1) := PeekOf(text, c);
      if IsSpace(ch) then SkipWs(text, GetOf(text, c1).1) else c1
  }

  /** The comment loop: get characters up to and including '\n'. */
  function SkipLine(text: string, c: Cursor): (r: Cursor)
    requires Within(text, c)
    ensures Within(text, r) && r.pos >= c.pos
    ensures c.Good() && c.pos < |text| ==> r.pos > c.pos
    decreases Rank(text, c)
  {
    if c.fail then c
    else
      var (ch, c1) := GetOf(text, c);
      if ch != '\n' then SkipLine(text, c1) else c1
  }

  /** skip_whitespace_and_comments */
  function SkipWsComments(text: string, c: Cursor): (r: Cursor)
    requires Within(text, c)
    ensures Within(text, r) && r.pos >= c.pos
    decreases Rank(text, c)
  {
    if c.fail then c
    else
      var c1 := SkipWs(text, c);
      var (ch, c2) := PeekOf(text, c1);
      if ch == '#' then SkipWsComments(text, SkipLine(text, c2)) else c2
  }

  /** The loop of read_identifier, collecting onto acc. */
  function IdentRun(text: string, c: Cursor, acc: string): (r: (string, Cursor))
    requires Within(text, c)
    ensures Within(text, r.1) && r.1.pos >= c.pos
    decreases Rank(text, c)
  {
    if c.fail then (acc, c)
    else
      var (ch, c1) := PeekOf(text, c);
      if IsIdentChar(ch) then
        var (g, c2) := GetOf(text, c1);
        IdentRun(text, c2, acc + [g])
      else (acc, c1)
  }

  /** read_identifier */
  function ReadIdentifierOf(text: string, c: Cursor, group: string): (r: Parsed<string>)
    requires Within(text, c)
    ensures Within(text, r.cur) && r.cur.pos >= c.pos
  {
    var (s, c1) := IdentRun(text, c, []);
    if s == [] then Parsed(Failure(MissingIdentifier(group)), c1) else Parsed(Success(s), c1)
  }

  /** The loop of read_value, collecting onto acc. */
  function TokenRun(text: string, c: Cursor, acc: string): (r: (string, Cursor))
    requires Within(text, c)
    ensures Within(text, r.1) && r.1.pos - c.pos == |r.0| - |acc|
    decreases Rank(text, c)
  {
    if c.fail then (acc, c)
    else
      var (ch, c1) := PeekOf(text, c);
      if IsTokenChar(ch) then
        var (g, c2) := GetOf(text, c1);
        TokenRun(text, c2, acc + [g])
      else (acc, c1)
  }

  /** read_value<T>: the token, then `>>` into T. A floating value is
      delivered as the token handed to `>>`. */
  function ReadValueOf(text: string, c: Cursor, group: string, kind: NumberKind): (r: Parsed<Scalar>)
    requires Within(text, c)
    ensures Within(text, r.cur) && r.cur.pos >= c.pos
    ensures r.out.Success? ==> r.cur.pos > c.pos
  {
    var (token, c1) := TokenRun(text, c, []);
    if token == [] then Parsed(Failure(MissingNumber(group)), c1)
    else if kind == Floating then Parsed(Success(FloatVal(token)), c1)
    else
      match ParseInt(token)
      case None => Parsed(Failure(BadNumber(token, group)), c1)
      case Some(i) => Parsed(Success(IntVal(i)), c1)
  }

  /** expect_char */
  function ExpectCharOf(text: string, c: Cursor, expected: char, group: string): (r: Parsed<()>)
    requires Within(text, c)
    ensures Within(text, r.cur) && r.cur.pos >= c.pos
  {
    var (ch, c1) := GetOf(text, c);
    if ch != expected then Parsed(Failure(UnexpectedChar(expected, ch, group)), c1) else Parsed(Success(()), c1)
  }

  /** The character a backslash escape stands for. */
  function Unescape(x: char): char
  {
    if x == 'n' then '\n' else if x == 't' then '\t' else if x == 'r' then '\r' else x
  }

  /** The loop of read_quoted_string, collecting onto acc. */
  function QuotedBody(text: string, c: Cursor, acc: string): (r: (string, Cursor))
    requires Within(text, c)
    ensures Within(text, r.1) && r.1.pos >= c.pos
    decreases Rank(text, c)
  {
    if c.fail then (acc, c)
    else
      var (ch, c1) := GetOf(text, c);
      if ch == '"' then (acc, c1)
      else if ch == '\\' then
        var (next, c2) := GetOf(text, c1);
        QuotedBody(text, c2, acc + [Unescape(next)])
      else QuotedBody(text, c1, acc + [ch])
  }

  /** read_quoted_string */
  function ReadQuotedStringOf(text: string, c: Cursor, group: string): (r: Parsed<string>)
    requires Within(text, c)
    ensures Within(text, r.cur) && r.cur.pos >= c.pos
  {
    var e := ExpectCharOf(text, c, '"', group);
    if e.out.Failure? then Parsed(Failure(e.out.error), e.cur)
    else
      var (s, c1) := QuotedBody(text, e.cur, []);
      Parsed(Success(s), c1)
  }

  // ---------------------------------------------------------------------
  // Fields, arrays and groups
  // ---------------------------------------------------------------------

  /** The common head of read_scalar, read_string and read_array: the
      name (which must be the expected one), then '=' with whitespace
      around it. */
  function FieldHeadOf(text: string, c: Cursor, group: string, name: string): (r: Parsed<()>)
    requires Within(text, c)
    ensures Within(text, r.cur) && r.cur.pos >= c.pos
  {
    var c1 := SkipWsComments(text, c);
    var id := ReadIdentifierOf(text, c1, group);
    if id.out.Failure? then Parsed(Failure(id.out.error), id.cur)
    else if id.out.value != name then Parsed(Failure(NameMismatch(Field, name, id.out.value, group)), id.cur)
    else
      var e := ExpectCharOf(text, SkipWs(text, id.cur), '=', group);
      if e.out.Failure? then e else Parsed(Success(()), SkipWs(text, e.cur))
  }

  /** read_scalar(name, value) */
  function ReadScalarOf(text: string, c: Cursor, group: string, name: string, kind: NumberKind): (r: Parsed<Scalar>)
    requires Within(text, c)
    ensures Within(text, r.cur) && r.cur.pos >= c.pos
  {
    var h := FieldHeadOf(text, c, group, name);
    if h.out.Failure? then Parsed(Failure(h.out.error), h.cur) else ReadValueOf(text, h.cur, group, kind)
  }

  /** read_string(name, value) */
  function ReadStringOf(text: string, c: Cursor, group: string, name: string): (r: Parsed<string>)
    requires Within(text, c)
    ensures Within(text, r.cur) && r.cur.pos >= c.pos
  {
    var h := FieldHeadOf(text, c, group, name);
    if h.out.Failure? then Parsed(Failure(h.out.error), h.cur) else ReadQuotedStringOf(text, h.cur, group)
  }

  /** The loop of the fixed-size read_array from element i on. */
  function FixedElems(text: string, c: Cursor, group: string, kind: NumberKind, i: nat, n: nat, acc: seq<Scalar>)
    : (r: Parsed<seq<Scalar>>)
    requires Within(text, c)
    ensures Within(text, r.cur) && r.cur.pos >= c.pos
    decreases n - i
  {
    if i >= n then Parsed(Success(acc), c)
    else
      var v := ReadValueOf(text, SkipWs(text, c), group, kind);
      if v.out.Failure? then Parsed(Failure(v.out.error), v.cur)
      else
        var c2 := SkipWs(text, v.cur);
        if i < n - 1 then
          var e := ExpectCharOf(text, c2, ',', group);
          if e.out.Failure? then Parsed(Failure(e.out.error), e.cur)
          else FixedElems(text, e.cur, group, kind, i + 1, n, acc + [v.out.value])
        else FixedElems(text, c2, group, kind, i + 1, n, acc + [v.out.value])
  }

  /** read_array(name, vec_t<T, N>&) with N = n. */
  function ReadFixedArrayOf(text: string, c: Cursor, group: string, name: string, kind: NumberKind, n: nat)
    : (r: Parsed<seq<Scalar>>)
    requires Within(text, c)
    ensures Within(text, r.cur) && r.cur.pos >= c.pos
  {
    var h := FieldHeadOf(text, c, group, name);
    if h.out.Failure? then Parsed(Failure(h.out.error), h.cur)
    else
      var b := ExpectCharOf(text, h.cur, '[', group);
      if b.out.Failure? then Parsed(Failure(b.out.error), b.cur)
      else
        var xs := FixedElems(text, b.cur, group, kind, 0, n, []);
        if xs.out.Failure? then xs
        else
          var e := ExpectCharOf(text, SkipWs(text, xs.cur), ']', group);
          if e.out.Failure? then Parsed(Failure(e.out.error), e.cur) else Parsed(xs.out, e.cur)
  }

  /** The `while (true)` loop of the dynamic read_array. */
  function DynElems(text: string, c: Cursor, group: string, kind: NumberKind, acc: seq<Scalar>)
    : (r: Parsed<seq<Scalar>>)
    requires Within(text, c)
    ensures Within(text, r.cur) && r.cur.pos >= c.pos
    decreases |text| - c.pos
  {
    var v := ReadValueOf(text, SkipWs(text, c), group, kind);
    if v.out.Failure? then Parsed(Failure(v.out.error), v.cur)
    else
      var (ch, c3) := PeekOf(text, SkipWs(text, v.cur));
      if ch == ',' then DynElems(text, GetOf(text, c3).1, group, kind, acc + [v.out.value])
      else if ch == ']' then Parsed(Success(acc + [v.out.value]), GetOf(text, c3).1)
      else Parsed(Failure(BadSeparator(ch)), c3)
  }

  /** read_array(name, std::vector<T>&) */
  function ReadDynamicArrayOf(text: string, c: Cursor, group: string, name: string, kind: NumberKind)
    : (r: Parsed<seq<Scalar>>)
    requires Within(text, c)
    ensures Within(text, r.cur) && r.cur.pos >= c.pos
  {
    var h := FieldHeadOf(text, c, group, name);
    if h.out.Failure? then Parsed(Failure(h.out.error), h.cur)
    else
      var b := ExpectCharOf(text, h.cur, '[', group);
      if b.out.Failure? then Parsed(Failure(b.out.error), b.cur)
      else
        var (ch, c1) := PeekOf(text, SkipWs(text, b.cur));
        if ch == ']' then Parsed(Success([]), GetOf(text, c1).1)
        else DynElems(text, c1, group, kind, [])
  }

  /** The group path after entering the named group `name`. */
  function ChildPath(group: string, name: string): string
  {
    if group == [] then name else group + "/" + name
  }

  /** The group path and the stack of enclosing paths. */
  datatype Groups = Groups(current: string, stack: seq<string>)

  /** The path and stack after begin_group(name): the old path is pushed
      and the name appended to it. */
  function PushNamed(g: Groups, name: string): Groups
  {
    Groups(ChildPath(g.current, name), g.stack + [g.current])
  }

  /** The path and stack after begin_group(): "[]" is appended. */
  function PushAnonymous(g: Groups): Groups
  {
    Groups(g.current + "[]", g.stack + [g.current])
  }

  /** begin_group(name): the path and stack change only on success. */
  function BeginGroupOf(text: string, c: Cursor, g: Groups, name: string): (r: Parsed<Groups>)
    requires Within(text, c)
    ensures Within(text, r.cur) && r.cur.pos >= c.pos
  {
    var id := ReadIdentifierOf(text, SkipWsComments(text, c), g.current);
    if id.out.Failure? then Parsed(Failure(id.out.error), id.cur)
    else if id.out.value != name then Parsed(Failure(NameMismatch(Group, name, id.out.value, g.current)), id.cur)
    else
      var e := ExpectCharOf(text, SkipWs(text, id.cur), '{', g.current);
      if e.out.Failure? then Parsed(Failure(e.out.error), e.cur)
      else Parsed(Success(PushNamed(g, name)), e.cur)
  }

  /** begin_group() */
  function BeginAnonymousGroupOf(text: string, c: Cursor, g: Groups): (r: Parsed<Groups>)
    requires Within(text, c)
    ensures Within(text, r.cur) && r.cur.pos >= c.pos
  {
    var e := ExpectCharOf(text, SkipWsComments(text, c), '{', g.current);
    if e.out.Failure? then Parsed(Failure(e.out.error), e.cur)
    else Parsed(Success(PushAnonymous(g)), e.cur)
  }

  /** The path and stack end_group leaves. */
  function PopGroup(g: Groups): Groups
  {
    if g.stack == [] then g else Groups(g.stack[|g.stack| - 1], g.stack[..|g.stack| - 1])
  }

  /** end_group() */
  function EndGroupOf(text: string, c: Cursor, g: Groups): (r: Parsed<Groups>)
    requires Within(text, c)
    ensures Within(text, r.cur) && r.cur.pos >= c.pos
  {
    var e := ExpectCharOf(text, SkipWsComments(text, c), '}', g.current);
    if e.out.Failure? then Parsed(Failure(e.out.error), e.cur) else Parsed(Success(PopGroup(g)), e.cur)
  }

  /** The scanning loop of count_groups: depth-0 '{' are counted, a
      depth-0 '}' or the end character stops it. */
  function ScanGroups(text: string, c: Cursor, depth: nat, count: nat): (r: (nat, Cursor))
    requires Within(text, c)
    ensures Within(text, r.1) && r.0 >= count
    decreases Rank(text, c)
  {
    if c.fail then (count, c)
    else
      var (ch, c2) := PeekOf(text, SkipWsComments(text, c));
      if ch == '{' then ScanGroups(text, GetOf(text, c2).1, depth + 1, if depth == 0 then count + 1 else count)
      else if ch == '}' then
        if depth == 0 then (count, c2) else ScanGroups(text, GetOf(text, c2).1, depth - 1, count)
      else if ch == EOF then (count, c2)
      else ScanGroups(text, GetOf(text, c2).1, depth, count)
  }

  /** One round of the scan, after whitespace, comments and the peek. */
  lemma ScanGroupsStep(text: string, c: Cursor, depth: nat, count: nat, ch: char, c2: Cursor)
    requires Within(text, c) && !c.fail
    requires (ch, c2) == PeekOf(text, SkipWsComments(text, c))
    ensures Within(text, c2) && Rank(text, c2) <= Rank(text, c)
    ensures ch == '{' ==>
      ScanGroups(text, c, depth, count) == ScanGroups(text, GetOf(text, c2).1, depth + 1, if depth == 0 then count + 1 else count)
    ensures ch == '}' && depth > 0 ==>
      ScanGroups(text, c, depth, count) == ScanGroups(text, GetOf(text, c2).1, depth - 1, count)
    ensures (ch == '}' && depth == 0) || ch == EOF ==> ScanGroups(text, c, depth, count) == (count, c2)
    ensures ch != '{' && ch != '}' && ch != EOF ==>
      !c2.fail && ScanGroups(text, c, depth, count) == ScanGroups(text, GetOf(text, c2).1, depth, count)
  {
  }

  /** count_groups(name): on success the stream is sought back to where
      the group's name starts. */
  function CountGroupsOf(text: string, c: Cursor, group: string, name: string): (r: Parsed<nat>)
    requires Within(text, c)
    ensures Within(text, r.cur)
  {
    var (start, c1) := TellOf(text, SkipWsComments(text, c));
    var id := ReadIdentifierOf(text, c1, group);
    if id.out.Failure? then Parsed(Failure(id.out.error), id.cur)
    else if id.out.value != name then Parsed(Failure(NameMismatch(Group, name, id.out.value, group)), id.cur)
    else
      var e := ExpectCharOf(text, SkipWs(text, id.cur), '{', group);
      if e.out.Failure? then Parsed(Failure(e.out.error), e.cur)
      else
        var (count, c3) := ScanGroups(text, e.cur, 0, 0);
        Parsed(Success(count), SeekOf(text, c3, start))
  }

  // ---------------------------------------------------------------------
  // Error paths
  // ---------------------------------------------------------------------

  /** The read failed with a name mismatch. */
  predicate IsNameMismatch<T>(r: Result<T, ReadError>)
  {
    r.Failure? && r.error.NameMismatch?
  }

  /** The identifier loop only appends identifier characters to acc. */
  lemma {:induction false} IdentRunExtends(text: string, c: Cursor, acc: string)
    requires Within(text, c)
    ensures acc <= IdentRun(text, c, acc).0
    ensures forall i :: |acc| <= i < |IdentRun(text, c, acc).0| ==> IsIdentChar(IdentRun(text, c, acc).0[i])
    decreases Rank(text, c)
  {
    if !c.fail {
      var (ch, c1) := PeekOf(text, c);
      if IsIdentChar(ch) {
        var (g, c2) := GetOf(text, c1);
        assert g == ch;
        IdentRunExtends(text, c2, acc + [g]);
      }
    }
  }

  /** read_identifier fails, with MissingIdentifier and without moving,
      exactly when the stream is not at an identifier character; otherwise
      it returns a non-empty run of identifier characters starting with
      that one. */
  lemma ReadIdentifierFails(text: string, c: Cursor, group: string)
    requires Within(text, c)
    ensures var r := ReadIdentifierOf(text, c, group);
            r.out.Failure? <==> !(c.Good() && c.pos < |text| && IsIdentChar(text[c.pos]))
    ensures var r := ReadIdentifierOf(text, c, group);
            r.out.Failure? ==> r.out.error == MissingIdentifier(group) && r.cur.pos == c.pos
    ensures var r := ReadIdentifierOf(text, c, group);
            r.out.Success? ==>
              c.pos < |text| && r.out.value != [] && r.out.value[0] == text[c.pos] &&
              forall i :: 0 <= i < |r.out.value| ==> IsIdentChar(r.out.value[i])
  {
    if !c.fail {
      var (ch, c1) := PeekOf(text, c);
      if IsIdentChar(ch) {
        var (g, c2) := GetOf(text, c1);
        assert [] + [g] == [g];
        assert IdentRun(text, c, []) == IdentRun(text, c2, [g]);
        IdentRunExtends(text, c2, [g]);
      }
    }
  }

  /** read_value fails only for a missing or an unparsable number. */
  lemma ReadValueErrors(text: string, c: Cursor, group: string, kind: NumberKind)
    requires Within(text, c)
    ensures var r := ReadValueOf(text, c, group, kind);
            r.out.Failure? ==> r.out.error == MissingNumber(group) || r.out.error.BadNumber?
  {
  }

  /** The fixed-size array loop fails only for a missing or unparsable
      value or a missing ','. */
  lemma {:induction false} FixedElemsErrors(text: string, c: Cursor, group: string, kind: NumberKind, i: nat, n: nat,
                                            acc: seq<Scalar>)
    requires Within(text, c)
    ensures var r := FixedElems(text, c, group, kind, i, n, acc);
            r.out.Failure? ==>
              r.out.error == MissingNumber(group) || r.out.error.BadNumber? ||
              (r.out.error.UnexpectedChar? && r.out.error.wanted == ',')
    decreases n - i
  {
    if i < n {
      var v := ReadValueOf(text, SkipWs(text, c), group, kind);
      ReadValueErrors(text, SkipWs(text, c), group, kind);
      if v.out.Success? {
        var c2 := SkipWs(text, v.cur);
        if i < n - 1 {
          var e := ExpectCharOf(text, c2, ',', group);
          if e.out.Success? {
            FixedElemsErrors(text, e.cur, group, kind, i + 1, n, acc + [v.out.value]);
          }
        } else {
          FixedElemsErrors(text, c2, group, kind, i + 1, n, acc + [v.out.value]);
        }
      }
    }
  }

  /** After a value, a character other than ',' and ']' ends the dynamic
      array loop with BadSeparator of that character. */
  lemma DynElemsBadSeparator(text: string, c: Cursor, group: string, kind: NumberKind, acc: seq<Scalar>)
    requires Within(text, c)
    ensures var v := ReadValueOf(text, SkipWs(text, c), group, kind);
            v.out.Success? ==>
              var (ch, c3) := PeekOf(text, SkipWs(text, v.cur));
              ch != ',' && ch != ']' ==> DynElems(text, c, group, kind, acc) == Parsed(Failure(BadSeparator(ch)), c3)
  {
  }

  /** The dynamic array loop fails only for a missing or unparsable value
      or for a separator that is neither ',' nor ']'. */
  lemma {:induction false} DynElemsErrors(text: string, c: Cursor, group: string, kind: NumberKind, acc: seq<Scalar>)
    requires Within(text, c)
    ensures var r := DynElems(text, c, group, kind, acc);
            r.out.Failure? ==>
              r.out.error == MissingNumber(group) || r.out.error.BadNumber? ||
              (r.out.error.BadSeparator? && r.out.error.separator != ',' && r.out.error.separator != ']')
    decreases |text| - c.pos
  {
    var v := ReadValueOf(text, SkipWs(text, c), group, kind);
    ReadValueErrors(text, SkipWs(text, c), group, kind);
    if v.out.Success? {
      var (ch, c3) := PeekOf(text, SkipWs(text, v.cur));
      if ch == ',' {
        DynElemsErrors(text, GetOf(text, c3).1, group, kind, acc + [v.out.value]);
      }
    }
  }

  /** The head of the field readers fails with a name mismatch exactly
      when the identifier after whitespace and comments is not the
      expected name, and then reports the expected name, the name found
      and the group, stopping just after the name. */
  lemma FieldHeadNameMismatch(text: string, c: Cursor, group: string, name: string)
    requires Within(text, c)
    ensures var id := ReadIdentifierOf(text, SkipWsComments(text, c), group);
            IsNameMismatch(FieldHeadOf(text, c, group, name).out) <==> id.out.Success? && id.out.value != name
    ensures var id := ReadIdentifierOf(text, SkipWsComments(text, c), group);
            id.out.Success? && id.out.value != name ==>
              FieldHeadOf(text, c, group, name) == Parsed(Failure(NameMismatch(Field, name, id.out.value, group)), id.cur)
  {
  }

  /** read_scalar and read_string pass a failed head on, and fail with a
      name mismatch only through it. */
  lemma ScalarStringHead(text: string, c: Cursor, group: string, name: string, kind: NumberKind)
    requires Within(text, c)
    ensures var h := FieldHeadOf(text, c, group, name);
            (IsNameMismatch(ReadScalarOf(text, c, group, name, kind).out) <==> IsNameMismatch(h.out)) &&
            (IsNameMismatch(ReadStringOf(text, c, group, name).out) <==> IsNameMismatch(h.out))
    ensures var h := FieldHeadOf(text, c, group, name);
            h.out.Failure? ==>
              ReadScalarOf(text, c, group, name, kind) == Parsed(Failure(h.out.error), h.cur) &&
              ReadStringOf(text, c, group, name) == Parsed(Failure(h.out.error), h.cur)
  {
    var h := FieldHeadOf(text, c, group, name);
    if h.out.Success? {
      ReadValueErrors(text, h.cur, group, kind);
    }
  }

  /** Both read_array pass a failed head on, and fail with a name mismatch
      only through it. */
  lemma ArraysHead(text: string, c: Cursor, group: string, name: string, kind: NumberKind, n: nat)
    requires Within(text, c)
    ensures var h := FieldHeadOf(text, c, group, name);
            (IsNameMismatch(ReadFixedArrayOf(text, c, group, name, kind, n).out) <==> IsNameMismatch(h.out)) &&
            (IsNameMismatch(ReadDynamicArrayOf(text, c, group, name, kind).out) <==> IsNameMismatch(h.out))
    ensures var h := FieldHeadOf(text, c, group, name);
            h.out.Failure? ==>
              ReadFixedArrayOf(text, c, group, name, kind, n) == Parsed(Failure(h.out.error), h.cur) &&
              ReadDynamicArrayOf(text, c, group, name, kind) == Parsed(Failure(h.out.error), h.cur)
  {
    var h := FieldHeadOf(text, c, group, name);
    if h.out.Success? {
      var b := ExpectCharOf(text, h.cur, '[', group);
      if b.out.Success? {
        FixedElemsErrors(text, b.cur, group, kind, 0, n, []);
        var (ch, c1) := PeekOf(text, SkipWs(text, b.cur));
        DynElemsErrors(text, c1, group, kind, []);
      }
    }
  }

  /** begin_group(name) and count_groups(name) fail with a name mismatch
      exactly when the identifier after whitespace and comments is not the
      expected group name, and then report it with the current group. */
  lemma GroupNameMismatch(text: string, c: Cursor, g: Groups, name: string)
    requires Within(text, c)
    ensures var id := ReadIdentifierOf(text, SkipWsComments(text, c), g.current);
            var mismatch := id.out.Success? && id.out.value != name;
            (IsNameMismatch(BeginGroupOf(text, c, g, name).out) <==> mismatch) &&
            (IsNameMismatch(CountGroupsOf(text, c, g.current, name).out) <==> mismatch)
    ensures var id := ReadIdentifierOf(text, SkipWsComments(text, c), g.current);
            id.out.Success? && id.out.value != name ==>
              BeginGroupOf(text, c, g, name) == Parsed(Failure(NameMismatch(Group, name, id.out.value, g.current)), id.cur) &&
              CountGroupsOf(text, c, g.current, name).out == Failure(NameMismatch(Group, name, id.out.value, g.current))
  {
    var c0 := SkipWsComments(text, c);
    var (start, c1) := TellOf(text, c0);
    assert c1 == c0 || (c1 == c0.(fail := true) && !c0.Good());
    ReadIdentifierFails(text, c0, g.current);
    ReadIdentifierFails(text, c1, g.current);
  }

  // ---------------------------------------------------------------------
  // The stream and the reader
  // ---------------------------------------------------------------------

  /** The std::istream the reader holds a reference to. */
  class InputStream {
    const text: string
    var pos: nat
    var eof: bool
    var fail: bool

    constructor (text: string)
      ensures this.text == text && pos == 0 && !eof && !fail
    {
      this.text := text;
      pos := 0;
      eof := false;
      fail := false;
    }

    function State(): Cursor
      reads this
    {
      Cursor(pos, eof, fail)
    }

    predicate Valid()
      reads this
    {
      pos <= |text|
    }

    /** peek */
    method Peek() returns (ch: char)
      requires Valid()
      modifies this
      ensures Valid() && (ch, State()) == PeekOf(text, old(State()))
    {
      if eof || fail {
        fail := true;
        ch := EOF;
      } else if pos == |text| {
        eof := true;
        ch := EOF;
      } else {
        ch := text[pos];
      }
    }

    /** get */
    method Get() returns (ch: char)
      requires Valid()
      modifies this
      ensures Valid() && (ch, State()) == GetOf(text, old(State()))
    {
      if eof || fail {
        fail := true;
        ch := EOF;
      } else if pos == |text| {
        eof, fail := true, true;
        ch := EOF;
      } else {
        ch := text[pos];
        pos := pos + 1;
      }
    }

    /** tellg */
    method Tell() returns (p: int)
      requires Valid()
      modifies this
      ensures Valid() && (p, State()) == TellOf(text, old(State()))
    {
      if eof || fail {
        fail := true;
        p := -1;
      } else {
        p := pos;
      }
    }

    /** seekg */
    method Seek(p: int)
      requires Valid()
      modifies this
      ensures Valid() && State() == SeekOf(text, old(State()), p)
    {
      eof := false;
      if !fail {
        if 0 <= p <= |text| {
          pos := p;
        } else {
          fail := true;
        }
      }
    }
  }

  /** ascii_reader */
  class Reader {
    const input: InputStream
    var currentGroup: string
    var groupStack: seq<string>

    constructor (input: InputStream)
      ensures this.input == input && currentGroup == [] && groupStack == []
    {
      this.input := input;
      currentGroup := [];
      groupStack := [];
    }

    function GroupState(): Groups
      reads this
    {
      Groups(currentGroup, groupStack)
    }

    /** skip_whitespace */
    method SkipWhitespace()
      requires input.Valid()
      modifies input
      ensures input.Valid() && input.State() == SkipWs(input.text, old(input.State()))
    {
      ghost var goal := SkipWs(input.text, input.State());
      while !input.fail
        invariant input.Valid() && SkipWs(input.text, input.State()) == goal
        decreases Rank(input.text, input.State())
      {
        var ch := input.Peek();
        if !IsSpace(ch) {
          return;
        }
        ch := input.Get();
      }
    }

    /** skip_whitespace_and_comments */
    method SkipWhitespaceAndComments()
      requires input.Valid()
      modifies input
      ensures input.Valid() && input.State() == SkipWsComments(input.text, old(input.State()))
    {
      ghost var goal := SkipWsComments(input.text, input.State());
      while !input.fail
        invariant input.Valid() && SkipWsComments(input.text, input.State()) == goal
        decreases Rank(input.text, input.State())
      {
        SkipWhitespace();
        var ch := input.Peek();
        if ch != '#' {
          return;
        }
        ghost var lineGoal := SkipLine(input.text, input.State());
        while !input.fail
          invariant input.Valid() && SkipLine(input.text, input.State()) == lineGoal
          decreases Rank(input.text, input.State())
        {
          ch := input.Get();
          if ch == '\n' {
            break;
          }
        }
      }
    }

    /** expect_char */
    method ExpectChar(expected: char) returns (r: Result<(), ReadError>)
      requires input.Valid()
      modifies input
      ensures input.Valid() && Parsed(r, input.State()) == ExpectCharOf(input.text, old(input.State()), expected, currentGroup)
    {
      var ch := input.Get();
      if ch != expected {
        return Failure(UnexpectedChar(expected, ch, currentGroup));
      }
      return Success(());
    }

    /** read_identifier */
    method ReadIdentifier() returns (r: Result<string, ReadError>)
      requires input.Valid()
      modifies input
      ensures input.Valid() && Parsed(r, input.State()) == ReadIdentifierOf(input.text, old(input.State()), currentGroup)
    {
      ghost var goal := IdentRun(input.text, input.State(), []);
      var result := [];
      while !input.fail
        invariant input.Valid() && IdentRun(input.text, input.State(), result) == goal
        decreases Rank(input.text, input.State())
      {
        var ch := input.Peek();
        if !IsIdentChar(ch) {
          break;
        }
        ch := input.Get();
        result := result + [ch];
      }
      if result == [] {
        return Failure(MissingIdentifier(currentGroup));
      }
      return Success(result);
    }

    /** read_value<T> */
    method ReadValue(kind: NumberKind) returns (r: Result<Scalar, ReadError>)
      requires input.Valid()
      modifies input
      ensures input.Valid() && Parsed(r, input.State()) == ReadValueOf(input.text, old(input.State()), currentGroup, kind)
    {
      ghost var goal := TokenRun(input.text, input.State(), []);
      var token := [];
      while !input.fail
        invariant input.Valid() && TokenRun(input.text, input.State(), token) == goal
        decreases Rank(input.text, input.State())
      {
        var ch := input.Peek();
        if !IsTokenChar(ch) {
          break;
        }
        ch := input.Get();
        token := token + [ch];
      }
      if token == [] {
        return Failure(MissingNumber(currentGroup));
      }
      if kind == Floating {
        return Success(FloatVal(token));
      }
      match ParseInt(token)
      case None => r := Failure(BadNumber(token, currentGroup));
      case Some(i) => r := Success(IntVal(i));
    }

    /** read_quoted_string */
    method ReadQuotedString() returns (r: Result<string, ReadError>)
      requires input.Valid()
      modifies input
      ensures input.Valid() && Parsed(r, input.State()) == ReadQuotedStringOf(input.text, old(input.State()), currentGroup)
    {
      var open := ExpectChar('"');
      if open.Failure? {
        return Failure(open.error);
      }
      ghost var goal := QuotedBody(input.text, input.State(), []);
      var result := [];
      while !input.fail
        invariant input.Valid() && QuotedBody(input.text, input.State(), result) == goal
        decreases Rank(input.text, input.State())
      {
        var ch := input.Get();
        if ch == '"' {
          break;
        } else if ch == '\\' {
          var next := input.Get();
          result := result + [Unescape(next)];
        } else {
          result := result + [ch];
        }
      }
      return Success(result);
    }

    /** The name check and '=' shared by the field readers. */
    method FieldHead(name: string) returns (r: Result<(), ReadError>)
      requires input.Valid()
      modifies input
      ensures input.Valid() && Parsed(r, input.State()) == FieldHeadOf(input.text, old(input.State()), currentGroup, name)
    {
      SkipWhitespaceAndComments();
      var fieldName := ReadIdentifier();
      if fieldName.Failure? {
        return Failure(fieldName.error);
      }
      if fieldName.value != name {
        return Failure(NameMismatch(Field, name, fieldName.value, currentGroup));
      }
      SkipWhitespace();
      r := ExpectChar('=');
      if r.Failure? {
        return;
      }
      SkipWhitespace();
    }

    /** read_scalar */
    method ReadScalar(name: string, kind: NumberKind) returns (r: Result<Scalar, ReadError>)
      requires input.Valid()
      modifies input
      ensures input.Valid() && Parsed(r, input.State()) == ReadScalarOf(input.text, old(input.State()), currentGroup, name, kind)
    {
      var h := FieldHead(name);
      if h.Failure? {
        return Failure(h.error);
      }
      r := ReadValue(kind);
    }

    /** read_string */
    method ReadString(name: string) returns (r: Result<string, ReadError>)
      requires input.Valid()
      modifies input
      ensures input.Valid() && Parsed(r, input.State()) == ReadStringOf(input.text, old(input.State()), currentGroup, name)
    {
      var h := FieldHead(name);
      if h.Failure? {
        return Failure(h.error);
      }
      r := ReadQuotedString();
    }

    /** read_array(name, vec_t<T, N>&) with N = n. */
    method ReadFixedArray(name: string, kind: NumberKind, n: nat) returns (r: Result<seq<Scalar>, ReadError>)
      requires input.Valid()
      modifies input
      ensures input.Valid() && Parsed(r, input.State()) == ReadFixedArrayOf(input.text, old(input.State()), currentGroup, name, kind, n)
    {
      var h := FieldHead(name);
      if h.Failure? {
        return Failure(h.error);
      }
      var open := ExpectChar('[');
      if open.Failure? {
        return Failure(open.error);
      }
      ghost var goal := FixedElems(input.text, input.State(), currentGroup, kind, 0, n, []);
      var values := [];
      for i := 0 to n
        invariant input.Valid() && FixedElems(input.text, input.State(), currentGroup, kind, i, n, values) == goal
      {
        SkipWhitespace();
        var v := ReadValue(kind);
        if v.Failure? {
          return Failure(v.error);
        }
        values := values + [v.value];
        SkipWhitespace();
        if i < n - 1 {
          var comma := ExpectChar(',');
          if comma.Failure? {
            return Failure(comma.error);
          }
        }
      }
      SkipWhitespace();
      var close := ExpectChar(']');
      if close.Failure? {
        return Failure(close.error);
      }
      return Success(values);
    }

    /** read_array(name, std::vector<T>&) */
    method ReadDynamicArray(name: string, kind: NumberKind) returns (r: Result<seq<Scalar>, ReadError>)
      requires input.Valid()
      modifies input
      ensures input.Valid() && Parsed(r, input.State()) == ReadDynamicArrayOf(input.text, old(input.State()), currentGroup, name, kind)
    {
      var h := FieldHead(name);
      if h.Failure? {
        return Failure(h.error);
      }
      var open := ExpectChar('[');
      if open.Failure? {
        return Failure(open.error);
      }
      var values := [];
      SkipWhitespace();
      var ch := input.Peek();
      if ch == ']' {
        ch := input.Get();
        return Success([]);
      }
      ghost var goal := DynElems(input.text, input.State(), currentGroup, kind, []);
      while true
        invariant input.Valid() && DynElems(input.text, input.State(), currentGroup, kind, values) == goal
        decreases |input.text| - input.pos
      {
        SkipWhitespace();
        var v := ReadValue(kind);
        if v.Failure? {
          return Failure(v.error);
        }
        values := values + [v.value];
        SkipWhitespace();
        ch := input.Peek();
        if ch == ',' {
          ch := input.Get();
        } else if ch == ']' {
          ch := input.Get();
          return Success(values);
        } else {
          return Failure(BadSeparator(ch));
        }
      }
    }

    /** begin_group(name) */
    method BeginGroup(name: string) returns (r: Result<(), ReadError>)
      requires input.Valid()
      modifies this, input
      ensures input.Valid()
      ensures var spec := BeginGroupOf(input.text, old(input.State()), old(GroupState()), name);
              input.State() == spec.cur && r.Success? == spec.out.Success? &&
              GroupState() == (if spec.out.Success? then spec.out.value else old(GroupState())) &&
              (r.Failure? ==> r.error == spec.out.error)
    {
      SkipWhitespaceAndComments();
      var fieldName := ReadIdentifier();
      if fieldName.Failure? {
        return Failure(fieldName.error);
      }
      if fieldName.value != name {
        return Failure(NameMismatch(Group, name, fieldName.value, currentGroup));
      }
      SkipWhitespace();
      r := ExpectChar('{');
      if r.Failure? {
        return;
      }
      var previous := currentGroup;
      currentGroup := if currentGroup == [] then name else currentGroup + "/" + name;
      groupStack := groupStack + [previous];
    }

    /** begin_group() */
    method BeginAnonymousGroup() returns (r: Result<(), ReadError>)
      requires input.Valid()
      modifies this, input
      ensures input.Valid()
      ensures var spec := BeginAnonymousGroupOf(input.text, old(input.State()), old(GroupState()));
              input.State() == spec.cur && r.Success? == spec.out.Success? &&
              GroupState() == (if spec.out.Success? then spec.out.value else old(GroupState())) &&
              (r.Failure? ==> r.error == spec.out.error)
    {
      SkipWhitespaceAndComments();
      r := ExpectChar('{');
      if r.Failure? {
        return;
      }
      var previous := currentGroup;
      currentGroup := currentGroup + "[]";
      groupStack := groupStack + [previous];
    }

    /** end_group() */
    method EndGroup() returns (r: Result<(), ReadError>)
      requires input.Valid()
      modifies this, input
      ensures input.Valid()
      ensures var spec := EndGroupOf(input.text, old(input.State()), old(GroupState()));
              input.State() == spec.cur && r.Success? == spec.out.Success? &&
              GroupState() == (if spec.out.Success? then spec.out.value else old(GroupState())) &&
              (r.Failure? ==> r.error == spec.out.error)
    {
      SkipWhitespaceAndComments();
      r := ExpectChar('}');
      if r.Failure? {
        return;
      }
      if groupStack != [] {
        currentGroup := groupStack[|groupStack| - 1];
        groupStack := groupStack[..|groupStack| - 1];
      }
    }

    /** count_groups(name) */
    method CountGroups(name: string) returns (r: Result<nat, ReadError>)
      requires input.Valid()
      modifies input
      ensures input.Valid() && Parsed(r, input.State()) == CountGroupsOf(input.text, old(input.State()), currentGroup, name)
    {
      SkipWhitespaceAndComments();
      var start := input.Tell();
      var fieldName := ReadIdentifier();
      if fieldName.Failure? {
        return Failure(fieldName.error);
      }
      if fieldName.value != name {
        return Failure(NameMismatch(Group, name, fieldName.value, currentGroup));
      }
      SkipWhitespace();
      var open := ExpectChar('{');
      if open.Failure? {
        return Failure(open.error);
      }
      var count := ScanForGroups();
      input.Seek(start);
      return Success(count);
    }

    /** The scanning loop of count_groups. */
    method ScanForGroups() returns (count: nat)
      requires input.Valid()
      modifies input
      ensures input.Valid() && (count, input.State()) == ScanGroups(input.text, old(input.State()), 0, 0)
    {
      count := 0;
      var depth: nat := 0;
      ghost var goal := ScanGroups(input.text, input.State(), 0, 0);
      while !input.fail
        invariant input.Valid() && ScanGroups(input.text, input.State(), depth, count) == goal
        decreases Rank(input.text, input.State())
      {
        var stop;
        stop, depth, count := ScanOne(depth, count);
        if stop {
          return;
        }
      }
    }

    /** One pass of the scanning loop of count_groups: either the scan
        stops here, or it goes on from the new position with the new depth
        and count to the same end. */
    method ScanOne(depth: nat, count: nat) returns (stop: bool, depth': nat, count': nat)
      requires input.Valid() && !input.fail
      modifies input
      ensures input.Valid()
      ensures stop ==> count' == count && (count, input.State()) == ScanGroups(input.text, old(input.State()), depth, count)
      ensures !stop ==>
        Rank(input.text, input.State()) < Rank(input.text, old(input.State())) &&
        ScanGroups(input.text, input.State(), depth', count') == ScanGroups(input.text, old(input.State()), depth, count)
    {
      depth', count' := depth, count;
      ghost var c0 := input.State();
      SkipWhitespaceAndComments();
      var ch := input.Peek();
      ScanGroupsStep(input.text, c0, depth, count, ch, input.State());
      stop := false;
      if ch == '{' {
        ch := input.Get();
        if depth == 0 {
          count' := count + 1;
        }
        depth' := depth + 1;
      } else if ch == '}' {
        if depth == 0 {
          stop := true;
          return;
        }
        ch := input.Get();
        depth' := depth - 1;
      } else if ch == EOF {
        stop := true;
      } else {
        ch := input.Get();
      }
    }
  }
}
