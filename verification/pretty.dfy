/** The indented text `Json::prettify` produces for a canonical tree: the
    layout of PHP's `json_encode` with pretty printing, unescaped slashes and
    unescaped Unicode. Four spaces per level, `": "` between key and value,
    one element or member per line, `[]` and `{}` for empty containers. */
module Pretty {
  import opened JsonValue
  import opened Wrappers

  /** Lower-case hexadecimal digit of `n`. */
  function HexDigit(n: nat): (c: char)
    requires n < 16
    ensures HexValue(c) == n
  {
    if n < 10 then ('0' as int + n) as char else ('a' as int + n - 10) as char
  }

  /** Value of a hexadecimal digit of either case, or -1 for any other character. */
  function HexValue(c: char): (v: int)
    ensures -1 <= v < 16
    ensures v == -1 <==> !('0' <= c <= '9' || 'a' <= c <= 'f' || 'A' <= c <= 'F')
  {
    if '0' <= c <= '9' then c as int - '0' as int
    else if 'a' <= c <= 'f' then c as int - 'a' as int + 10
    else if 'A' <= c <= 'F' then c as int - 'A' as int + 10
    else -1
  }

  /** A character a string literal holds as itself: not a quote, not a
      backslash, not a control character, not a line or paragraph separator. */
  predicate PlainChar(c: char)
  {
    c != '"' && c != '\\' && c as int >= 0x20 && c as int != 0x2028 && c as int != 0x2029
  }

  /** How one character is written inside a JSON string literal. */
  function EscapeChar(c: char): (e: string)
    ensures 1 <= |e| <= 6
    ensures e[0] != '"'
    ensures |e| == 1 <==> e == [c]
    ensures e == [c] <==> PlainChar(c)
    ensures !PlainChar(c) ==> e[0] == '\\'
  {
    if c == '"' then ['\\', '"']
    else if c == '\\' then ['\\', '\\']
    else if c as int == 0x08 then ['\\', 'b']
    else if c as int == 0x0C then ['\\', 'f']
    else if c == '\n' then ['\\', 'n']
    else if c == '\r' then ['\\', 'r']
    else if c == '\t' then ['\\', 't']
    else if c as int < 0x20 then ['\\', 'u', '0', '0', HexDigit(c as int / 16), HexDigit(c as int % 16)]
    else if c as int == 0x2028 then ['\\', 'u', '2', '0', '2', '8']
    else if c as int == 0x2029 then ['\\', 'u', '2', '0', '2', '9']
    else [c]
  }

  /** The body of a JSON string literal for `s`, without the quotes. */
  function Escape(s: string): (e: string)
    ensures |e| >= |s|
    ensures Unescape(e) == Some(s)
  {
    if s == [] then []
    else
      var rest := Escape(s[1..]);
      UnescapeEscapeChar(s[0], rest);
      assert [s[0]] + s[1..] == s;
      EscapeChar(s[0]) + rest
  }

  /** Reading back the body of a string literal the way a JSON decoder does:
      `None` when an escape is malformed or names a surrogate code unit. */
  function Unescape(e: string): (r: Option<string>)
    decreases |e|
  {
    if e == [] then Some([])
    else if e[0] != '\\' then Prepend(e[0], Unescape(e[1..]))
    else if |e| < 2 then None
    else if ShortEscapeValue(e[1]).Some? then Prepend(ShortEscapeValue(e[1]).value, Unescape(e[2..]))
    else if e[1] == 'u' && |e| >= 6 && HexValue(e[2]) >= 0 && HexValue(e[3]) >= 0
            && HexValue(e[4]) >= 0 && HexValue(e[5]) >= 0 then
      var v := ((HexValue(e[2]) * 16 + HexValue(e[3])) * 16 + HexValue(e[4])) * 16 + HexValue(e[5]);
      if 0xD800 <= v < 0xE000 then None else Prepend(v as char, Unescape(e[6..]))
    else None
  }

  /** The character a two-character escape `\x` stands for. */
  function ShortEscapeValue(x: char): Option<char>
  {
    if x == '"' || x == '\\' || x == '/' then Some(x)
    else if x == 'b' then Some(0x08 as char)
    else if x == 'f' then Some(0x0C as char)
    else if x == 'n' then Some('\n')
    else if x == 'r' then Some('\r')
    else if x == 't' then Some('\t')
    else None
  }

  /** `c` in front of a decoded string; a failure stays a failure. */
  function Prepend(c: char, r: Option<string>): (p: Option<string>)
    ensures p.Some? <==> r.Some?
    ensures p.Some? ==> p.value == [c] + r.value
  {
    match r
    case None => None
    case Some(s) => Some([c] + s)
  }

  /** A control character without a short escape reads back from `\u00xx`. */
  lemma UnescapeHexEscape(c: char, rest: string)
    requires c as int < 0x20 && c as int != 0x08 && c as int != 0x0C && c != '\n' && c != '\r' && c != '\t'
    ensures Unescape(EscapeChar(c) + rest) == Prepend(c, Unescape(rest))
  {
    var e := EscapeChar(c) + rest;
    assert EscapeChar(c) == ['\\', 'u', '0', '0', HexDigit(c as int / 16), HexDigit(c as int % 16)];
    assert e[6..] == rest;
    assert HexValue(e[4]) == c as int / 16 && HexValue(e[5]) == c as int % 16;
  }

  /** A two-character escape `\x` reads back as `c`. */
  lemma UnescapeShortEscape(c: char, x: char, rest: string)
    requires EscapeChar(c) == ['\\', x] && ShortEscapeValue(x) == Some(c)
    ensures Unescape(EscapeChar(c) + rest) == Prepend(c, Unescape(rest))
  {
    var e := ['\\', x] + rest;
    assert e[0] == '\\' && e[1] == x;
    assert e[2..] == rest;
  }

  /** One escaped character reads back as itself, whatever follows it. */
  lemma UnescapeEscapeChar(c: char, rest: string)
    ensures Unescape(EscapeChar(c) + rest) == Prepend(c, Unescape(rest))
  {
    if c == '"' {
      UnescapeShortEscape(c, '"', rest);
    } else if c == '\\' {
      UnescapeShortEscape(c, '\\', rest);
    } else if c as int == 0x08 {
      UnescapeShortEscape(c, 'b', rest);
    } else if c as int == 0x0C {
      UnescapeShortEscape(c, 'f', rest);
    } else if c == '\n' {
      UnescapeShortEscape(c, 'n', rest);
    } else if c == '\r' {
      UnescapeShortEscape(c, 'r', rest);
    } else if c == '\t' {
      UnescapeShortEscape(c, 't', rest);
    } else if c as int < 0x20 {
      UnescapeHexEscape(c, rest);
    } else if c as int == 0x2028 || c as int == 0x2029 {
      var e := EscapeChar(c) + rest;
      assert e[6..] == rest;
    } else {
      assert EscapeChar(c) == [c];
      assert ([c] + rest)[1..] == rest;
    }
  }

  /** Two strings with the same literal are the same string. */
  lemma QuoteInjective(s: string, u: string)
    requires Quote(s) == Quote(u)
    ensures s == u
  {
    assert Escape(s) == Quote(s)[1..|Quote(s)| - 1];
    assert Escape(u) == Quote(u)[1..|Quote(u)| - 1];
  }

  /** A string of plain characters is written as itself. */
  lemma {:induction false} EscapePlain(s: string)
    requires forall i :: 0 <= i < |s| ==> PlainChar(s[i])
    ensures Escape(s) == s
  {
    if s != [] {
      EscapePlain(s[1..]);
      assert s == [s[0]] + s[1..];
    }
  }

  /** A string literal: the escaped text between double quotes. */
  function Quote(s: string): string
  {
    ['"'] + Escape(s) + ['"']
  }

  /** The indentation of nesting level `level`. */
  function Indent(level: nat): (r: string)
    ensures |r| == 4 * level
    ensures forall i :: 0 <= i < |r| ==> r[i] == ' '
  {
    seq(4 * level, _ => ' ')
  }

  /** Rendering of `j` when it starts at nesting level `level`. */
  function Render(j: Json, level: nat): string
  {
    match j
    case Null => "null"
    case Bool(b) => if b then "true" else "false"
    case Number(lit) => lit
    case Str(s) => Quote(s)
    case Arr(xs) =>
      if |xs| == 0 then "[]"
      else "[\n" + RenderItems(xs, level + 1) + "\n" + Indent(level) + "]"
    case Obj(ms) =>
      if |ms| == 0 then "{}"
      else "{\n" + RenderMembers(ms, level + 1) + "\n" + Indent(level) + "}"
  }

  /** The lines of a non-empty array's elements, joined by `",\n"`. */
  function RenderItems(xs: seq<Json>, level: nat): string
    requires |xs| > 0
  {
    Indent(level) + Render(xs[0], level)
    + if |xs| == 1 then "" else ",\n" + RenderItems(xs[1..], level)
  }

  /** The lines of a non-empty object's members, joined by `",\n"`. */
  function RenderMembers(ms: seq<Member>, level: nat): string
    requires |ms| > 0
  {
    Indent(level) + Quote(ms[0].key) + ": " + Render(ms[0].value, level)
    + if |ms| == 1 then "" else ",\n" + RenderMembers(ms[1..], level)
  }

  /** `Json::prettify`: the rendering of a whole document. */
  function Prettify(j: Json): (r: string)
    ensures j == Obj([]) ==> r == "{}"
    ensures j == Arr([]) ==> r == "[]"
  {
    Render(j, 0)
  }
}
