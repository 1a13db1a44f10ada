/** Character classes and decimal integer text shared by the ASCII writer
    and reader: the C library's isspace / isdigit / isalnum on the "C"
    locale, std::to_string on integers, and `istringstream >> int` on a
    token. Characters stand for the bytes of the stream, so only the
    ASCII range is classified; every other character is in no class. */
module Text {
  import opened Wrappers

  /** std::isspace: space, \t, \n, \v, \f, \r. */
  predicate IsSpace(c: char)
  {
    c == ' ' || c == '\t' || c == '\n' || c == '\U{0B}' || c == '\U{0C}' || c == '\r'
  }

  /** std::isdigit */
  predicate IsDigit(c: char)
  {
    '0' <= c <= '9'
  }

  /** std::isalnum */
  predicate IsAlnum(c: char)
  {
    IsDigit(c) || 'a' <= c <= 'z' || 'A' <= c <= 'Z'
  }

  /** A character an identifier may contain. */
  predicate IsIdentChar(c: char)
  {
    IsAlnum(c) || c == '_'
  }

  /** A character a numeric token may contain. */
  predicate IsTokenChar(c: char)
  {
    IsDigit(c) || c == '.' || c == '-' || c == '+' || c == 'e' || c == 'E'
  }

  predicate IsIdentifier(s: string)
  {
    |s| > 0 && forall i :: 0 <= i < |s| ==> IsIdentChar(s[i])
  }

  predicate AllDigits(s: string)
  {
    forall i :: 0 <= i < |s| ==> IsDigit(s[i])
  }

  function DigitChar(d: nat): (c: char)
    requires d < 10
    ensures IsDigit(c)
  {
    (d + '0' as int) as char
  }

  function DigitValue(c: char): (d: nat)
    requires IsDigit(c)
    ensures d < 10 && DigitChar(d) == c
  {
    (c as int - '0' as int)
  }

  /** Decimal digits of a natural number, most significant first, with no
      leading zeros. */
  function NatToString(n: nat): (r: string)
    ensures |r| > 0 && AllDigits(r)
    ensures |r| > 1 ==> r[0] != '0'
    decreases n
  {
    if n < 10 then [DigitChar(n)] else NatToString(n / 10) + [DigitChar(n % 10)]
  }

  /** std::to_string on an integer: an optional '-' then the digits. */
  function IntToString(i: int): (r: string)
    ensures |r| > 0
    ensures forall k :: 0 <= k < |r| ==> IsTokenChar(r[k])
    ensures r[0] == '-' <==> i < 0
  {
    if i < 0 then "-" + NatToString(-i) else NatToString(i)
  }

  /** The value of a run of decimal digits. */
  function DigitsValue(s: string): (n: nat)
    requires AllDigits(s)
  {
    if s == [] then 0 else DigitsValue(s[..|s| - 1]) * 10 + DigitValue(s[|s| - 1])
  }

  /** Length of the longest prefix of s made of digits. */
  function DigitRun(s: string): (k: nat)
    ensures k <= |s| && AllDigits(s[..k])
    ensures k < |s| ==> !IsDigit(s[k])
  {
    if s == [] || !IsDigit(s[0]) then 0
    else
      var k := 1 + DigitRun(s[1..]);
      assert s[..k] == [s[0]] + s[1..][..k - 1];
      k
  }

  /** `istringstream(token) >> i` for an int: an optional sign, then the
      longest run of digits, which must not be empty; what follows the
      digits is left unread. None is the stream's failbit. */
  function ParseInt(token: string): Option<int>
  {
    var signed := |token| > 0 && (token[0] == '-' || token[0] == '+');
    var body := if signed then token[1..] else token;
    var k := DigitRun(body);
    if k == 0 then None
    else
      var magnitude: int := DigitsValue(body[..k]);
      Some(if signed && token[0] == '-' then -magnitude else magnitude)
  }

  // ---------------------------------------------------------------------
  // Properties
  // ---------------------------------------------------------------------

  /** The digits of n read back as n. */
  lemma {:induction false} NatToStringValue(n: nat)
    ensures DigitsValue(NatToString(n)) == n
    decreases n
  {
    var s := NatToString(n);
    if n >= 10 {
      NatToStringValue(n / 10);
      assert s[..|s| - 1] == NatToString(n / 10);
    }
  }

  /** A string of digits is its own longest digit run when nothing else
      follows it. */
  lemma {:induction false} DigitRunOfDigits(s: string)
    requires AllDigits(s)
    ensures DigitRun(s) == |s|
    decreases |s|
  {
    if s != [] {
      DigitRunOfDigits(s[1..]);
    }
  }

  /** to_string then `>>` returns the integer: the integer round trip of
      the ASCII archive. */
  lemma ParseIntToString(i: int)
    ensures ParseInt(IntToString(i)) == Some(i)
  {
    var s := IntToString(i);
    if i < 0 {
      NatToStringValue(-i);
      DigitRunOfDigits(NatToString(-i));
      assert s[1..] == NatToString(-i);
      assert s[1..][..|s| - 1] == NatToString(-i);
    } else {
      NatToStringValue(i);
      DigitRunOfDigits(NatToString(i));
      assert s[0] != '-' && s[0] != '+';
      assert NatToString(i)[..|NatToString(i)|] == NatToString(i);
    }
  }

  /** to_string is injective: distinct integers are written differently. */
  lemma IntToStringInjective(i: int, j: int)
    requires IntToString(i) == IntToString(j)
    ensures i == j
  {
    ParseIntToString(i);
    ParseIntToString(j);
  }

  /** `>>` on tokens the reader collects: "+7", "-12", "3.5" and "1e5"
      read the leading integer; "-", "." and "e3" set the failbit. */
  lemma ParseIntExamples()
    ensures ParseInt("+7") == Some(7) && ParseInt("-12") == Some(-12)
    ensures ParseInt("3.5") == Some(3) && ParseInt("1e5") == Some(1)
    ensures ParseInt("-") == None && ParseInt(".") == None && ParseInt("e3") == None
  {
    assert "+7"[1..] == "7" && "7"[1..] == [] && DigitRun("7") == 1 && "7"[..1] == "7";
    assert "-12"[1..] == "12" && "12"[1..] == "2" && "2"[1..] == [];
    assert DigitRun("12") == 2 && "12"[..2] == "12" && "12"[..1] == "1";
    assert DigitsValue("12") == 12;
    assert "3.5"[1..] == ".5" && DigitRun(".5") == 0 && "3.5"[..1] == "3";
    assert "1e5"[1..] == "e5" && DigitRun("e5") == 0 && "1e5"[..1] == "1";
    assert "3"[..0] == [] && "1"[..0] == [];
    assert "-"[1..] == [];
  }
}
