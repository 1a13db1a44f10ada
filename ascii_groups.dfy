/** Groups in the ASCII archive: the group path the reader keeps, the
    group lines the writer emits read back by begin_group and end_group,
    and count_groups over a group of element groups. */
module ArchiveGroups {
  import opened Wrappers
  import opened Text
  import opened AsciiWriting
  import opened AsciiReading
  import opened ArchiveRoundTrip

  // ---------------------------------------------------------------------
  // The group path
  // ---------------------------------------------------------------------

  /** end_group undoes either begin_group: the path and the stack are
      back to what they were. With nothing pushed it changes nothing. */
  lemma PopUndoesPush(g: Groups, name: string)
    ensures PopGroup(PushNamed(g, name)) == g
    ensures PopGroup(PushAnonymous(g)) == g
    ensures g.stack == [] ==> PopGroup(g) == g
  {
  }

  /** The groups after begin_group(names[0]), ..., begin_group(names[k-1]),
      in that order, from g. */
  function PushAll(g: Groups, names: seq<string>): Groups
  {
    if names == [] then g else PushNamed(PushAll(g, names[..|names| - 1]), names[|names| - 1])
  }

  /** names[0] + "/" + ... + "/" + names[k-1]. */
  function JoinPath(names: seq<string>): string
  {
    if names == [] then ""
    else if |names| == 1 then names[0]
    else JoinPath(names[..|names| - 1]) + "/" + names[|names| - 1]
  }

  /** Entering the named groups names in turn from the top level gives the
      path of their names joined by '/', with one saved path per level,
      the top level's first; every read identifier is non-empty. */
  lemma {:induction false} NestedPath(names: seq<string>)
    requires forall i :: 0 <= i < |names| ==> names[i] != ""
    ensures PushAll(Groups("", []), names).current == JoinPath(names)
    ensures names != [] ==> PushAll(Groups("", []), names).current != ""
    ensures |PushAll(Groups("", []), names).stack| == |names|
    ensures names != [] ==> PushAll(Groups("", []), names).stack[0] == ""
  {
    if names != [] {
      var front := names[..|names| - 1];
      NestedPath(front);
      var g := PushAll(Groups("", []), front);
      assert PushAll(Groups("", []), names) == PushNamed(g, names[|names| - 1]);
      if front != [] {
        assert g.current != "";
      }
    }
  }

  // ---------------------------------------------------------------------
  // Group lines
  // ---------------------------------------------------------------------

  /** A begin_group(name) line written by the writer is entered by the
      reader's begin_group(name): the path gets the name and the stream
      stops after the '{'. */
  lemma {:induction false} BeginGroupLineRoundTrip(text: string, p: nat, lead: string, level: int, size: int,
                                                   name: string, g: Groups)
    requires AllSpace(lead) && IsIdentifier(name)
    requires Holds(text, p, lead + BeginText(level, size, name))
    ensures BeginGroupOf(text, At(p), g, name)
         == Parsed(Success(PushNamed(g, name)), At(p + |lead| + |BeginText(level, size, name)| - 1))
  {
    var lead' := lead + Indent(level, size);
    var e := p + |lead'| + |name|;
    var f := e + 1;
    assert lead + BeginText(level, size, name) == lead' + name + " {\n";
    Pieces3(text, p, lead', name, " {\n");
    HoldsCharAt(text, e, " {\n", 0, e);
    HoldsCharAt(text, e, " {\n", 1, f);
    SpacesAreSpace(level * size);
    NameAt(text, p, lead', name, g.current);
    SkipWsTo(text, e, 1);
    ExpectAt(text, f, '{', g.current);
  }

  /** A begin_group() line is entered by the reader's begin_group(). */
  lemma {:induction false} AnonymousGroupLineRoundTrip(text: string, p: nat, lead: string, level: int, size: int, g: Groups)
    requires AllSpace(lead)
    requires Holds(text, p, lead + AnonymousText(level, size))
    ensures BeginAnonymousGroupOf(text, At(p), g)
         == Parsed(Success(PushAnonymous(g)), At(p + |lead| + |AnonymousText(level, size)| - 1))
  {
    var lead' := lead + Indent(level, size);
    var q := p + |lead'|;
    assert lead + AnonymousText(level, size) == lead' + "{\n";
    HoldsSplitAt(text, p, lead', "{\n", q);
    HoldsCharAt(text, q, "{\n", 0, q);
    SpacesAreSpace(level * size);
    SpaceRun(text, p, lead');
    SkipWsCommentsTo(text, p, |lead'|);
    ExpectAt(text, q, '{', g.current);
  }

  /** An end_group() line is left by the reader's end_group(): the path
      pops back. */
  lemma {:induction false} EndGroupLineRoundTrip(text: string, p: nat, lead: string, level: int, size: int, g: Groups)
    requires AllSpace(lead)
    requires Holds(text, p, lead + EndText(level, size))
    ensures EndGroupOf(text, At(p), g) == Parsed(Success(PopGroup(g)), At(p + |lead| + |EndText(level, size)| - 1))
  {
    var lead' := lead + Indent(level - 1, size);
    var q := p + |lead'|;
    assert lead + EndText(level, size) == lead' + "}\n";
    HoldsSplitAt(text, p, lead', "}\n", q);
    HoldsCharAt(text, q, "}\n", 0, q);
    SpacesAreSpace((level - 1) * size);
    SpaceRun(text, p, lead');
    SkipWsCommentsTo(text, p, |lead'|);
    ExpectAt(text, q, '}', g.current);
  }

  // ---------------------------------------------------------------------
  // Braces at depth 0
  // ---------------------------------------------------------------------

  /** s, scanned from brace depth d, ends at depth e: it holds no '#' and
      no end character, and no '}' at depth 0. */
  predicate Nested(s: string, d: nat, e: nat)
    decreases |s|
  {
    if s == [] then d == e
    else
      s[0] != '#' && s[0] != EOF &&
      if s[0] == '{' then Nested(s[1..], d + 1, e)
      else if s[0] == '}' then d > 0 && Nested(s[1..], d - 1, e)
      else Nested(s[1..], d, e)
  }

  /** The '{' of s that open at depth 0, scanning from depth d; a '}' at
      depth 0 ends the scan. */
  function TopOpens(s: string, d: nat): nat
    decreases |s|
  {
    if s == [] then 0
    else if s[0] == '{' then (if d == 0 then 1 else 0) + TopOpens(s[1..], d + 1)
    else if s[0] == '}' then (if d == 0 then 0 else TopOpens(s[1..], d - 1))
    else TopOpens(s[1..], d)
  }

  /** A brace-balanced text: from depth 0 back to depth 0. */
  predicate Balanced(s: string)
  {
    Nested(s, 0, 0)
  }

  lemma {:induction false} BracesAppend(a: string, b: string, d: nat, e: nat, f: nat)
    requires Nested(a, d, e) && Nested(b, e, f)
    ensures Nested(a + b, d, f)
    ensures TopOpens(a + b, d) == TopOpens(a, d) + TopOpens(b, e)
    decreases |a|
  {
    if a == [] {
      assert a + b == b;
    } else {
      assert (a + b)[0] == a[0] && (a + b)[1..] == a[1..] + b;
      if a[0] == '{' {
        BracesAppend(a[1..], b, d + 1, e, f);
      } else if a[0] == '}' {
        BracesAppend(a[1..], b, d - 1, e, f);
      } else {
        BracesAppend(a[1..], b, d, e, f);
      }
    }
  }

  /** A text that never closes below its starting depth, started deeper,
      opens nothing at depth 0. */
  lemma {:induction false} BracesDeeper(s: string, d: nat, e: nat, k: nat)
    requires Nested(s, d, e) && k > 0
    ensures Nested(s, d + k, e + k) && TopOpens(s, d + k) == 0
    decreases |s|
  {
    if s != [] {
      if s[0] == '{' {
        BracesDeeper(s[1..], d + 1, e, k);
      } else if s[0] == '}' {
        BracesDeeper(s[1..], d - 1, e, k);
      } else {
        BracesDeeper(s[1..], d, e, k);
      }
    }
  }

  /** Whitespace moves no brace depth. */
  lemma {:induction false} SpaceNested(s: string, d: nat)
    requires AllSpace(s)
    ensures Nested(s, d, d) && TopOpens(s, d) == 0
    decreases |s|
  {
    if s != [] {
      assert IsSpace(s[0]);
      SpaceNested(s[1..], d);
    }
  }

  /** One element group: whitespace, then a balanced body in braces. */
  function Element(gap: string, body: string): string
  {
    gap + "{" + body + "}"
  }

  /** An element group opens one group at depth 0 and returns there. */
  lemma {:induction false} ElementOpensOne(gap: string, body: string)
    requires AllSpace(gap) && Balanced(body)
    ensures Nested(Element(gap, body), 0, 0) && TopOpens(Element(gap, body), 0) == 1
  {
    var inner := body + "}";
    BracesDeeper(body, 0, 0, 1);
    assert Nested("}", 1, 0) && TopOpens("}", 1) == 0 by {
      assert "}"[1..] == [];
    }
    BracesAppend(body, "}", 1, 1, 0);
    var braced := "{" + inner;
    assert braced[0] == '{' && braced[1..] == inner;
    SpaceNested(gap, 0);
    BracesAppend(gap, braced, 0, 0, 0);
    assert Element(gap, body) == gap + braced;
  }

  /** Element groups one after another. */
  function Elements(gaps: seq<string>, bodies: seq<string>): string
    requires |gaps| == |bodies|
    decreases |bodies|
  {
    if bodies == [] then []
    else Elements(gaps[..|gaps| - 1], bodies[..|bodies| - 1]) + Element(gaps[|gaps| - 1], bodies[|bodies| - 1])
  }

  /** k element groups open k groups at depth 0 and return there. */
  lemma {:induction false} ElementsOpen(gaps: seq<string>, bodies: seq<string>)
    requires |gaps| == |bodies|
    requires forall i :: 0 <= i < |gaps| ==> AllSpace(gaps[i]) && Balanced(bodies[i])
    ensures Nested(Elements(gaps, bodies), 0, 0) && TopOpens(Elements(gaps, bodies), 0) == |bodies|
    decreases |bodies|
  {
    if bodies != [] {
      var n := |bodies| - 1;
      ElementsOpen(gaps[..n], bodies[..n]);
      ElementOpensOne(gaps[n], bodies[n]);
      BracesAppend(Elements(gaps[..n], bodies[..n]), Element(gaps[n], bodies[n]), 0, 0, 0);
    }
  }

  // ---------------------------------------------------------------------
  // The count_groups scan over text
  // ---------------------------------------------------------------------

  /** Whitespace is skipped before the scan looks at a character. */
  lemma {:induction false} ScanSpace(text: string, q: nat, d: nat, count: nat)
    requires q < |text| && IsSpace(text[q])
    ensures ScanGroups(text, At(q), d, count) == ScanGroups(text, At(q + 1), d, count)
  {
    CharAt(text, q);
    assert SkipWs(text, At(q)) == SkipWs(text, At(q + 1));
    assert SkipWsComments(text, At(q)) == SkipWsComments(text, At(q + 1));
  }

  /** A '{' is taken and the depth goes up; it counts at depth 0. */
  lemma ScanOpen(text: string, q: nat, d: nat, count: nat)
    requires q < |text| && text[q] == '{'
    ensures ScanGroups(text, At(q), d, count) == ScanGroups(text, At(q + 1), d + 1, if d == 0 then count + 1 else count)
  {
  }

  /** A '}' below depth 0 is taken and the depth goes down. */
  lemma ScanClose(text: string, q: nat, d: nat, count: nat)
    requires q < |text| && text[q] == '}' && d > 0
    ensures ScanGroups(text, At(q), d, count) == ScanGroups(text, At(q + 1), d - 1, count)
  {
  }

  /** A '}' at depth 0 ends the scan in front of it. */
  lemma ScanStop(text: string, q: nat, count: nat)
    requires q < |text| && text[q] == '}'
    ensures ScanGroups(text, At(q), 0, count) == (count, At(q))
  {
  }

  /** Any other character is taken. */
  lemma ScanOther(text: string, q: nat, d: nat, count: nat)
    requires q < |text| && !IsSpace(text[q])
    requires text[q] != '#' && text[q] != EOF && text[q] != '{' && text[q] != '}'
    ensures ScanGroups(text, At(q), d, count) == ScanGroups(text, At(q + 1), d, count)
  {
  }

  /** The first character of a text and the text after it. */
  lemma {:induction false} HoldsFront(text: string, p: nat, s: string, rest: string)
    requires Holds(text, p, s + rest) && s != []
    ensures p < |text| && text[p] == s[0] && Holds(text, p + 1, s[1..] + rest)
  {
    assert (s + rest)[0] == s[0] && (s + rest)[1..] == s[1..] + rest;
  }

  /** The depth after one character, from depth d. */
  function Deeper(c: char, d: nat): nat
    requires c != '}' || d > 0
  {
    if c == '{' then d + 1 else if c == '}' then d - 1 else d
  }

  /** Whether one character opens a group at depth 0. */
  function Counted(c: char, d: nat): nat
  {
    if c == '{' && d == 0 then 1 else 0
  }

  /** Nested and TopOpens, one character at a time. */
  lemma {:induction false} NestedFront(s: string, d: nat, e: nat)
    requires s != [] && Nested(s, d, e)
    ensures s[0] != '#' && s[0] != EOF && (s[0] != '}' || d > 0)
    ensures Nested(s[1..], Deeper(s[0], d), e)
    ensures TopOpens(s, d) == Counted(s[0], d) + TopOpens(s[1..], Deeper(s[0], d))
  {
  }

  /** One step of the scan, whatever the character c at p. */
  lemma {:induction false} ScanStep(text: string, p: nat, c: char, d: nat, count: nat, q: nat, d': nat, count': nat)
    requires p < |text| && c == text[p] && c != '#' && c != EOF && (c != '}' || d > 0)
    requires q == p + 1 && d' == Deeper(c, d) && count' == count + Counted(c, d)
    ensures ScanGroups(text, At(p), d, count) == ScanGroups(text, At(q), d', count')
  {
    if IsSpace(c) {
      ScanSpace(text, p, d, count);
    } else if c == '{' {
      ScanOpen(text, p, d, count);
    } else if c == '}' {
      ScanClose(text, p, d, count);
    } else {
      ScanOther(text, p, d, count);
    }
  }

  /** The scan over a text that returns to depth 0 right before a '}'
      counts the text's depth-0 '{' and stops in front of that '}'. */
  lemma {:induction false} ScanCounts(text: string, p: nat, s: string, d: nat, count: nat)
    requires Holds(text, p, s + "}") && Nested(s, d, 0)
    ensures ScanGroups(text, At(p), d, count) == (count + TopOpens(s, d), At(p + |s|))
    decreases |s|
  {
    if s == [] {
      assert s + "}" == "}";
      HoldsCharAt(text, p, "}", 0, p);
      ScanStop(text, p, count);
    } else {
      var q := p + 1;
      HoldsFront(text, p, s, "}");
      NestedFront(s, d, 0);
      var c := s[0];
      var d' := Deeper(c, d);
      var count' := count + Counted(c, d);
      ScanStep(text, p, c, d, count, q, d', count');
      ScanCounts(text, q, s[1..], d', count');
      AtSame(q + |s[1..]|, p + |s|);
    }
  }

  /** count_groups(name) on a named group whose body returns to depth 0
      before its closing '}': the depth-0 groups of the body are
      counted, and the stream is back where the name starts. */
  lemma {:induction false} CountGroupsReads(text: string, p: nat, lead: string, name: string, body: string, group: string)
    requires AllSpace(lead) && IsIdentifier(name) && Nested(body, 0, 0)
    requires Holds(text, p, lead + name + " {" + (body + "}"))
    ensures CountGroupsOf(text, At(p), group, name) == Parsed(Success(TopOpens(body, 0)), At(p + |lead|))
  {
    var q := p + |lead|;
    var e := q + |name|;
    var f := e + 1;
    var b := e + 2;
    assert lead + name + " {" + (body + "}") == lead + name + (" {" + (body + "}"));
    Pieces3(text, p, lead, name, " {" + (body + "}"));
    HoldsCharAt(text, e, " {" + (body + "}"), 0, e);
    HoldsCharAt(text, e, " {" + (body + "}"), 1, f);
    HoldsSplitAt(text, e, " {", body + "}", b);
    HoldsCharAt(text, q, name, 0, q);
    SpaceRun(text, p, lead);
    SkipWsCommentsTo(text, p, |lead|);
    NameAt(text, p, lead, name, group);
    SkipWsTo(text, e, 1);
    ExpectAt(text, f, '{', group);
    ScanCounts(text, b, body, 0, 0);
  }

  /** count_groups on a group of k element groups returns k, as
      deserialize relies on when it sizes a vector of compound values. */
  lemma {:induction false} CountElementGroups(text: string, p: nat, lead: string, name: string,
                                              gaps: seq<string>, bodies: seq<string>, tail: string, group: string)
    requires AllSpace(lead) && IsIdentifier(name) && AllSpace(tail) && |gaps| == |bodies|
    requires forall i :: 0 <= i < |gaps| ==> AllSpace(gaps[i]) && Balanced(bodies[i])
    requires Holds(text, p, lead + name + " {" + (Elements(gaps, bodies) + tail + "}"))
    ensures CountGroupsOf(text, At(p), group, name) == Parsed(Success(|bodies|), At(p + |lead|))
  {
    var body := Elements(gaps, bodies) + tail;
    ElementsOpen(gaps, bodies);
    SpaceNested(tail, 0);
    BracesAppend(Elements(gaps, bodies), tail, 0, 0, 0);
    CountGroupsReads(text, p, lead, name, body, group);
  }
}
