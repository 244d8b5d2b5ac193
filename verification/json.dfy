/** The small part of JSON (RFC 8259) the program relies on: the string
    literal that `serde_json` writes for a Rust string (section 7 of RFC 8259,
    with `serde_json`'s choice of escapes), a reader for such literals, and the
    value shapes that occur in an alert payload. */
module Json {

  import opened Wrappers

  /** JSON values as they occur in an alert payload: strings and `null`. */
  datatype Value = Null | Str(s: string)

  /** `serde_json`'s `Value::from(Option<String>)`: `None` becomes `null`. */
  function FromOption(o: Option<string>): (v: Value)
    ensures v.Null? <==> o.None?
    ensures o.Some? ==> v == Str(o.value)
  {
    match o
    case None => Null
    case Some(s) => Str(s)
  }

  function HexDigit(d: nat): (c: char)
    requires d < 16
  {
    "0123456789abcdef"[d]
  }

  predicate IsHexDigit(c: char)
  {
    '0' <= c <= '9' || 'a' <= c <= 'f' || 'A' <= c <= 'F'
  }

  function HexValue(c: char): (d: nat)
    requires IsHexDigit(c)
    ensures d < 16
  {
    if '0' <= c <= '9' then (c as int) - ('0' as int)
    else if 'a' <= c <= 'f' then (c as int) - ('a' as int) + 10
    else (c as int) - ('A' as int) + 10
  }

  /** The letter of the two-character escape `serde_json` uses for `c`, if
      any: quote, backslash, and the control characters backspace, form feed,
      line feed, carriage return and tab. */
  function ShortEscapeLetter(c: char): Option<char>
  {
    if c == '"' then Some('"')
    else if c == '\\' then Some('\\')
    else if c == '\U{8}' then Some('b')
    else if c == '\U{C}' then Some('f')
    else if c == '\n' then Some('n')
    else if c == '\r' then Some('r')
    else if c == '\t' then Some('t')
    else None
  }

  /** The character a two-character escape `\x` stands for (section 7 of
      RFC 8259), if `x` is one of the eight escape letters. */
  function ShortEscapeChar(letter: char): Option<char>
  {
    if letter == '"' then Some('"')
    else if letter == '\\' then Some('\\')
    else if letter == '/' then Some('/')
    else if letter == 'b' then Some('\U{8}')
    else if letter == 'f' then Some('\U{C}')
    else if letter == 'n' then Some('\n')
    else if letter == 'r' then Some('\r')
    else if letter == 't' then Some('\t')
    else None
  }

  /** The escape `serde_json` writes for one character: a two-character
      escape where there is one, `\u00xx` with lower-case hex for the other
      control characters, and the character itself otherwise (non-ASCII text
      is written unescaped). */
  function EscapeChar(c: char): (e: string)
    ensures 1 <= |e| <= 6
    ensures forall i :: 0 <= i < |e| ==> (e[i] as int) >= 0x20
    ensures |e| == 1 <==> (c != '"' && c != '\\' && (c as int) >= 0x20)
    ensures |e| == 1 ==> e == [c]
  {
    match ShortEscapeLetter(c)
    case Some(letter) => ['\\', letter]
    case None =>
      if (c as int) < 0x20 then "\\u00" + [HexDigit((c as int) / 16), HexDigit((c as int) % 16)]
      else [c]
  }

  /** The characters between the quotes of the literal for `s`. */
  function EscapeBody(s: string): (body: string)
    ensures |s| <= |body| <= 6 * |s|
    ensures forall i :: 0 <= i < |body| ==> (body[i] as int) >= 0x20
    decreases |s|
  {
    if |s| == 0 then []
    else
      var head, tail := EscapeChar(s[0]), EscapeBody(s[1..]);
      assert forall i :: |head| <= i < |head + tail| ==> (head + tail)[i] == tail[i - |head|];
      head + tail
  }

  /** `serde_json::json!(s).to_string()`: the quoted, escaped literal. It is
      one line: it never holds a raw line break or other control character. */
  function Quote(s: string): (lit: string)
    ensures |lit| >= 2 && lit[0] == '"' && lit[|lit| - 1] == '"'
    ensures forall i :: 0 <= i < |lit| ==> (lit[i] as int) >= 0x20
    ensures '\n' !in lit
  {
    var body := EscapeBody(s);
    var lit := "\"" + body + "\"";
    assert forall i :: 1 <= i < |lit| - 1 ==> lit[i] == body[i - 1];
    assert forall i :: 0 <= i < |lit| ==> (lit[i] as int) >= 0x20;
    lit
  }

  // ------------------------------------------------------------------ reading

  function Prepend(c: char, rest: Option<string>): Option<string>
  {
    match rest
    case Some(r) => Some([c] + r)
    case None => None
  }

  /** Decode the characters between the quotes of a JSON string literal
      (section 7 of RFC 8259). A `\u` escape naming a surrogate code unit is
      refused rather than paired: no literal written by `Quote` has one. */
  function Unescape(t: string): Option<string>
    decreases |t|
  {
    if |t| == 0 then Some([])
    else if t[0] == '\\' then
      if |t| < 2 then None
      else if ShortEscapeChar(t[1]).Some? then Prepend(ShortEscapeChar(t[1]).value, Unescape(t[2..]))
      else if t[1] == 'u' && |t| >= 6
        && IsHexDigit(t[2]) && IsHexDigit(t[3]) && IsHexDigit(t[4]) && IsHexDigit(t[5]) then
        var v := ((HexValue(t[2]) * 16 + HexValue(t[3])) * 16 + HexValue(t[4])) * 16 + HexValue(t[5]);
        if 0xD800 <= v < 0xE000 then None else Prepend(v as char, Unescape(t[6..]))
      else None
    else if t[0] == '"' || (t[0] as int) < 0x20 then None
    else Prepend(t[0], Unescape(t[1..]))
  }

  /** Read a JSON string literal; `None` when it is not one. */
  function Unquote(lit: string): Option<string>
  {
    if |lit| >= 2 && lit[0] == '"' && lit[|lit| - 1] == '"' then Unescape(lit[1..|lit| - 1])
    else None
  }

  /** Reading one escaped character back consumes exactly its escape. */
  lemma UnescapeChar(c: char, rest: string)
    ensures Unescape(EscapeChar(c) + rest) == Prepend(c, Unescape(rest))
  {
    var e := EscapeChar(c);
    var t := e + rest;
    if ShortEscapeLetter(c).Some? {
      assert ShortEscapeChar(ShortEscapeLetter(c).value) == Some(c);
      assert t[0] == '\\' && t[1] == ShortEscapeLetter(c).value;
      assert t[2..] == rest;
    } else if (c as int) < 0x20 {
      UnescapeHex(c, rest);
    } else {
      assert t[0] == c;
      assert t[1..] == rest;
    }
  }

  lemma UnescapeHex(c: char, rest: string)
    requires ShortEscapeLetter(c).None? && (c as int) < 0x20
    ensures Unescape(EscapeChar(c) + rest) == Prepend(c, Unescape(rest))
  {
    var v := c as int;
    var t := EscapeChar(c) + rest;
    assert t[0] == '\\' && t[1] == 'u' && t[2] == '0' && t[3] == '0';
    assert t[4] == HexDigit(v / 16) && t[5] == HexDigit(v % 16);
    assert HexValue(HexDigit(v / 16)) == v / 16;
    assert HexValue(HexDigit(v % 16)) == v % 16;
    assert ShortEscapeChar('u').None?;
    assert t[6..] == rest;
  }

  /** Escaping loses nothing: the body decodes back to the original text. */
  lemma {:induction false} UnescapeEscapeBody(s: string)
    ensures Unescape(EscapeBody(s)) == Some(s)
    decreases |s|
  {
    if |s| > 0 {
      UnescapeEscapeBody(s[1..]);
      UnescapeChar(s[0], EscapeBody(s[1..]));
      assert [s[0]] + s[1..] == s;
    }
  }

  /** Every argument rendered as a literal is read back unchanged, so the
      rendering is unambiguous whatever whitespace or quotes it holds. */
  lemma UnquoteQuote(s: string)
    ensures Unquote(Quote(s)) == Some(s)
  {
    var lit := Quote(s);
    assert lit[1..|lit| - 1] == EscapeBody(s);
    UnescapeEscapeBody(s);
  }

  /** Text with no quote, backslash or control character is written between
      quotes as is (`"false"` for the command `false`). */
  lemma {:induction false} QuotePlain(s: string)
    requires forall i :: 0 <= i < |s| ==> s[i] != '"' && s[i] != '\\' && (s[i] as int) >= 0x20
    ensures Quote(s) == "\"" + s + "\""
  {
    EscapeBodyPlain(s);
  }

  lemma {:induction false} EscapeBodyPlain(s: string)
    requires forall i :: 0 <= i < |s| ==> s[i] != '"' && s[i] != '\\' && (s[i] as int) >= 0x20
    ensures EscapeBody(s) == s
    decreases |s|
  {
    if |s| > 0 {
      assert forall i :: 0 <= i < |s[1..]| ==> s[1..][i] == s[i + 1];
      EscapeBodyPlain(s[1..]);
      assert [s[0]] + s[1..] == s;
    }
  }
}
