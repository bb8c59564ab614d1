/** The TOML string escaper (images/controller/internal/backend/seaweedfs/postgres.go) against a lexer for basic
    strings written from the String section of TOML v1.0.0. Characters are Unicode scalar
    values. */
module TomlString {
  import opened GoStrings
  import opened Wrappers

  const BACKSPACE := '\U{08}'
  const FORM_FEED := '\U{0C}'
  const DELETE := '\U{7F}'

  function HexDigit(d: nat): char
    requires d < 16
  {
    if d < 10 then ('0' as int + d) as char else ('A' as int + d - 10) as char
  }

  /** Go's `%04X`. */
  function Hex4(n: nat): string
    requires n < 0x1_0000
  {
    [HexDigit(n / 4096), HexDigit(n / 256 % 16), HexDigit(n / 16 % 16), HexDigit(n % 16)]
  }

  function EscapeChar(c: char): string {
    if c == '\\' then "\\\\"
    else if c == '"' then "\\\""
    else if c == BACKSPACE then "\\b"
    else if c == '\t' then "\\t"
    else if c == '\n' then "\\n"
    else if c == FORM_FEED then "\\f"
    else if c == '\r' then "\\r"
    else if c < ' ' || c == DELETE then "\\u" + Hex4(c as int)
    else [c]
  }

  function Escape(s: string): string {
    if s == [] then [] else EscapeChar(s[0]) + Escape(s[1..])
  }

  lemma {:induction false} EscapeOfAppend(s: string, c: char)
    ensures Escape(s + [c]) == Escape(s) + EscapeChar(c)
  {
    if s == [] {
      assert (s + [c])[1..] == [];
    } else {
      assert (s + [c])[1..] == s[1..] + [c];
      EscapeOfAppend(s[1..], c);
    }
  }

  method TomlBasicEscape(s: GoString) returns (b: string)
    ensures b == Escape(Runes(s))
  {
    b := "";
    ghost var text := Runes(s);
    for i := 0 to |s|
      invariant b == Escape(text[..i])
    {
      var r := if s[i].Rune? then s[i].c else REPLACEMENT;
      assert text[..i + 1] == text[..i] + [r];
      EscapeOfAppend(text[..i], r);
      if r == '\\' {
        b := b + "\\\\";
      } else if r == '"' {
        b := b + "\\\"";
      } else if r == BACKSPACE {
        b := b + "\\b";
      } else if r == '\t' {
        b := b + "\\t";
      } else if r == '\n' {
        b := b + "\\n";
      } else if r == FORM_FEED {
        b := b + "\\f";
      } else if r == '\r' {
        b := b + "\\r";
      } else if r < ' ' || r == DELETE {
        b := b + ("\\u" + Hex4(r as int));
      } else {
        b := b + [r];
      }
    }
    assert text[..|s|] == text;
  }

  /** Text without a quote, a backslash or a control character is left as it is. */
  lemma {:induction false} PlainTextStays(s: string)
    requires forall i :: 0 <= i < |s| ==> s[i] != '"' && s[i] != '\\' && ' ' <= s[i] && s[i] != '\U{7F}'
    ensures Escape(s) == s
  {
    if s != [] {
      PlainTextStays(s[1..]);
    }
  }

  /** How long an escape is: two characters for the seven with a short form, six for the other control
      characters, one for all the rest. */
  lemma EscapeLength(c: char)
    ensures |EscapeChar(c)| ==
            if c in {'\\', '"', '\U{08}', '\t', '\n', '\U{0C}', '\r'} then 2
            else if c as int < 32 || c as int == 127 then 6 else 1
  {
  }

  // --- The lexer -----------------------------------------------------------------

  function HexValue(c: char): Option<nat> {
    if '0' <= c <= '9' then Some(c as int - '0' as int)
    else if 'A' <= c <= 'F' then Some(c as int - 'A' as int + 10)
    else if 'a' <= c <= 'f' then Some(c as int - 'a' as int + 10)
    else None
  }

  /** The number that `count` hexadecimal digits at the front spell. */
  function HexNumber(s: string, count: nat): Option<nat> {
    if count == 0 then Some(0)
    else if |s| < count then None
    else
      match (HexNumber(s, count - 1), HexValue(s[count - 1]))
      case (Some(n), Some(d)) => Some(16 * n + d)
      case _ => None
  }

  predicate IsScalar(n: nat) {
    n < 0xD800 || 0xE000 <= n < 0x11_0000
  }

  datatype Lexed = Lexed(value: string, rest: string)

  /** One escape sequence, after its backslash. */
  datatype Unescaped = Unescaped(c: char, size: nat)

  function LexEscape(s: string): (r: Option<Unescaped>)
    ensures r.Some? ==> r.value.size <= |s|
  {
    if s == [] then None
    else if s[0] == 'b' then Some(Unescaped(BACKSPACE, 1))
    else if s[0] == 't' then Some(Unescaped('\t', 1))
    else if s[0] == 'n' then Some(Unescaped('\n', 1))
    else if s[0] == 'f' then Some(Unescaped(FORM_FEED, 1))
    else if s[0] == 'r' then Some(Unescaped('\r', 1))
    else if s[0] == '"' then Some(Unescaped('"', 1))
    else if s[0] == '\\' then Some(Unescaped('\\', 1))
    else if s[0] == 'u' || s[0] == 'U' then
      var count := if s[0] == 'u' then 4 else 8;
      if |s| < 1 + count then None
      else
        match HexNumber(s[1..], count)
        case None => None
        case Some(n) => if IsScalar(n) then Some(Unescaped(n as char, 1 + count)) else None
    else None
  }

  /** Characters that may stand for themselves. */
  predicate IsPlain(c: char) {
    c != '"' && c != '\\' && (c == '\t' || (c >= ' ' && c != DELETE))
  }

  /** The rest of a basic string, after its opening quote. */
  function LexBody(s: string): Option<Lexed>
    decreases |s|
  {
    if s == [] then None
    else if s[0] == '"' then Some(Lexed("", s[1..]))
    else if s[0] == '\\' then
      match LexEscape(s[1..])
      case None => None
      case Some(u) =>
        match LexBody(s[1 + u.size..])
        case None => None
        case Some(l) => Some(Lexed([u.c] + l.value, l.rest))
    else if IsPlain(s[0]) then
      match LexBody(s[1..])
      case None => None
      case Some(l) => Some(Lexed([s[0]] + l.value, l.rest))
    else None
  }

  function LexBasicString(s: string): Option<Lexed> {
    if s != [] && s[0] == '"' then LexBody(s[1..]) else None
  }

  // --- The round trip ---------------------------------------------------------------

  lemma HexDigitValue(d: nat)
    requires d < 16
    ensures HexValue(HexDigit(d)) == Some(d)
  {
  }

  /** The four digits, from the front, spell longer and longer prefixes of the number. */
  lemma HexPrefixes(n: nat)
    requires n < 0x1_0000
    ensures n / 4096 < 16
    ensures 16 * (n / 4096) + n / 256 % 16 == n / 256
    ensures 16 * (n / 256) + n / 16 % 16 == n / 16
    ensures 16 * (n / 16) + n % 16 == n
  {
    assert n / 256 / 16 == n / 4096 && n / 16 / 16 == n / 256;
  }

  lemma HexStep(s: string, count: nat, n: nat, d: nat)
    requires count < |s| && d < 16 && s[count] == HexDigit(d) && HexNumber(s, count) == Some(n)
    ensures HexNumber(s, count + 1) == Some(16 * n + d)
  {
    HexDigitValue(d);
  }

  lemma Hex4Value(n: nat, rest: string)
    requires n < 0x1_0000
    ensures HexNumber(Hex4(n) + rest, 4) == Some(n)
  {
    var s := Hex4(n) + rest;
    HexPrefixes(n);
    HexStep(s, 0, 0, n / 4096);
    HexStep(s, 1, n / 4096, n / 256 % 16);
    HexStep(s, 2, n / 256, n / 16 % 16);
    HexStep(s, 3, n / 16, n % 16);
  }

  /** One character and what lexes after it. */
  function Prepended(c: char, l: Option<Lexed>): Option<Lexed> {
    match l
    case None => None
    case Some(lexed) => Some(Lexed([c] + lexed.value, lexed.rest))
  }

  lemma PairLexes(e: string, c: char, rest: string)
    requires |e| == 2 && e[0] == '\\' && LexEscape([e[1]] + rest) == Some(Unescaped(c, 1))
    ensures LexBody(e + rest) == Prepended(c, LexBody(rest))
  {
    var s := e + rest;
    assert s[1..] == [e[1]] + rest;
    assert s[2..] == rest;
  }

  lemma CodeLexes(c: char, rest: string)
    requires c < ' ' || c == DELETE
    ensures LexBody("\\u" + Hex4(c as int) + rest) == Prepended(c, LexBody(rest))
  {
    var n := c as int;
    var s := "\\u" + Hex4(n) + rest;
    assert s[1..][1..] == Hex4(n) + rest;
    Hex4Value(n, rest);
    assert LexEscape(s[1..]) == Some(Unescaped(c, 5));
    assert s[6..] == rest;
  }

  lemma PlainLexes(c: char, rest: string)
    requires IsPlain(c)
    ensures LexBody([c] + rest) == Prepended(c, LexBody(rest))
  {
    assert ([c] + rest)[1..] == rest;
  }

  /** One escaped character lexes back to itself and leaves the text after it alone. */
  lemma EscapedCharLexes(c: char, rest: string)
    ensures LexBody(EscapeChar(c) + rest) == Prepended(c, LexBody(rest))
  {
    var e := EscapeChar(c);
    if |e| == 1 {
      PlainLexes(c, rest);
    } else if |e| == 2 {
      PairLexes(e, c, rest);
    } else {
      CodeLexes(c, rest);
    }
  }

  lemma {:induction false} EscapedBodyLexes(v: string, rest: string)
    ensures LexBody(Escape(v) + "\"" + rest) == Some(Lexed(v, rest))
  {
    if v == [] {
      assert Escape(v) + "\"" + rest == "\"" + rest;
    } else {
      var tail := Escape(v[1..]) + "\"" + rest;
      EscapedBodyLexes(v[1..], rest);
      assert Escape(v) + "\"" + rest == EscapeChar(v[0]) + tail;
      EscapedCharLexes(v[0], tail);
      assert [v[0]] + v[1..] == v;
    }
  }

  lemma QuotedLexes(body: string)
    ensures LexBasicString("\"" + body) == LexBody(body)
  {
    assert ("\"" + body)[1..] == body;
  }

  /** A value embedded between quotes reads back exactly, whatever it contains, and the text after
      the closing quote is untouched: no value can end its string early or run on. */
  lemma EscapeRoundTrip(v: string, rest: string)
    ensures LexBasicString("\"" + Escape(v) + "\"" + rest) == Some(Lexed(v, rest))
  {
    var body := Escape(v) + "\"" + rest;
    EscapedBodyLexes(v, rest);
    QuotedLexes(body);
    assert "\"" + Escape(v) + "\"" + rest == "\"" + body;
  }

  /** For an arbitrary Go string: the text always lexes as one basic string with the remainder untouched,
      and its value is the string itself exactly when that is valid UTF-8. */
  lemma EscapeRoundTripIff(s: GoString, rest: string)
    ensures var lexed := LexBasicString("\"" + Escape(Runes(s)) + "\"" + rest);
            && lexed.Some? && lexed.value.rest == rest
            && (FromRunes(lexed.value.value) == s <==> IsValid(s))
  {
    EscapeRoundTrip(Runes(s), rest);
    ValidIff(s);
  }
}
