/**
 Escaping for MySQL string literals, byte by byte (a byte is a char here).
 */
module SqlEscape {
  import opened GoStrings

  const NUL: char := '\0'
  const CTRL_Z: char := '\U{1A}'

  /** The letter written after the backslash, for the bytes that are escaped. */
  function EscapeLetter(c: char): Option<char> {
    if c == NUL then Some('0')
    else if c == '\n' then Some('n')
    else if c == '\r' then Some('r')
    else if c == '\\' then Some('\\')
    else if c == '\'' then Some('\'')
    else if c == '"' then Some('"')
    else if c == CTRL_Z then Some('Z')
    else None
  }

  function EscapeOf(s: string): string {
    if s == "" then ""
    else (match EscapeLetter(s[0]) case None => [s[0]] case Some(e) => ['\\', e]) + EscapeOf(s[1..])
  }

  method Escape(sql: string) returns (dest: string)
    ensures dest == EscapeOf(sql)
  {
    dest := "";
    for i := 0 to |sql|
      invariant dest + EscapeOf(sql[i..]) == EscapeOf(sql)
    {
      var escape := EscapeLetter(sql[i]);
      if escape.Some? {
        dest := dest + ['\\', escape.value];
      } else {
        dest := dest + [sql[i]];
      }
      assert sql[i..][1..] == sql[i + 1..];
    }
  }

  /** What a MySQL literal makes of `\c` (String Literals, MySQL reference manual). */
  function Unescaped(c: char): string {
    if c == '0' then [NUL]
    else if c == 'n' then "\n"
    else if c == 'r' then "\r"
    else if c == 't' then "\t"
    else if c == 'b' then ['\U{8}']
    else if c == 'Z' then [CTRL_Z]
    else if c == '%' || c == '_' then ['\\', c]
    else [c]
  }

  /** The value of a literal body between `quote` characters; None if the literal ends or breaks inside it. */
  function DecodeLiteral(body: string, quote: char): Option<string> {
    if body == "" then Some("")
    else if body[0] == '\\' then
      if |body| == 1 then None
      else
        var rest := DecodeLiteral(body[2..], quote);
        if rest.None? then None else Some(Unescaped(body[1]) + rest.value)
    else if body[0] == quote then None
    else
      var rest := DecodeLiteral(body[1..], quote);
      if rest.None? then None else Some([body[0]] + rest.value)
  }

  /** A byte that may stand by itself in a literal: no quote, backslash, line break, NUL or Control-Z. */
  predicate Harmless(c: char) {
    c !in {'\'', '"', '\\', '\n', '\r', '\0', '\U{1A}'}
  }

  /** Every byte is harmless or is the letter of an escape sequence, and no escape is cut off. */
  predicate CleanBody(body: string) {
    if body == "" then true
    else if body[0] == '\\' then
      |body| >= 2 && body[1] in {'0', 'n', 'r', 'Z', '\\', '\'', '"'} && CleanBody(body[2..])
    else Harmless(body[0]) && CleanBody(body[1..])
  }

  /** Every byte string survives escaping, inside either kind of quotes. */
  lemma {:induction false} DecodeEscape(s: string, quote: char)
    requires quote == '\'' || quote == '"'
    ensures DecodeLiteral(EscapeOf(s), quote) == Some(s)
  {
    if s != "" {
      DecodeEscape(s[1..], quote);
      var e, rest := EscapeOf(s), EscapeOf(s[1..]);
      if EscapeLetter(s[0]).Some? {
        assert e[2..] == rest;
      } else {
        assert e[1..] == rest;
      }
      assert s == [s[0]] + s[1..];
    }
  }

  lemma {:induction false} EscapeIsClean(s: string)
    ensures CleanBody(EscapeOf(s)) && |s| <= |EscapeOf(s)| <= 2 * |s|
  {
    if s != "" {
      EscapeIsClean(s[1..]);
      var e, rest := EscapeOf(s), EscapeOf(s[1..]);
      if EscapeLetter(s[0]).Some? {
        assert e[2..] == rest;
      } else {
        assert e[1..] == rest;
      }
    }
  }
}
