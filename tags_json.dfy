/**
 * The `tags` column of the FAQ table: a JSON array of strings, written with
 * Python's `json.dumps` defaults (`ensure_ascii=True`, separator `", "`) and
 * read back with `json.loads` (core/faq.py `_serialize_tags`, `_parse_tags`).
 */
module TagsJson {
  import opened Wrappers
  import opened Text

  // ---------------------------------------------------------------- writing

  /** The hex digit of `n`, in lower case as json.dumps writes it. */
  function HexDigit(n: nat): char
    requires n < 16
  {
    if n < 10 then ('0' as int + n) as char else ('a' as int + n - 10) as char
  }

  /** Four hex digits of a 16-bit code unit. */
  function Hex4(n: nat): string
    requires n < 0x10000
  {
    [HexDigit(n / 0x1000), HexDigit(n / 0x100 % 16), HexDigit(n / 0x10 % 16), HexDigit(n % 16)]
  }

  function UnitEscape(n: nat): string
    requires n < 0x10000
  {
    "\\u" + Hex4(n)
  }

  predicate IsPrintableAscii(c: char) { ' ' <= c <= '~' }

  /**
   * The JSON escape of one character: the short forms for quote, backslash
   * and five control characters, the character itself for the rest of
   * printable ASCII, `\uXXXX` otherwise, as a UTF-16 surrogate pair above
   * U+FFFF.
   */
  function EscapeChar(c: char): string
  {
    if c == '"' then "\\\""
    else if c == '\\' then "\\\\"
    else if c == '\n' then "\\n"
    else if c == '\r' then "\\r"
    else if c == '\t' then "\\t"
    else if c == '\U{8}' then "\\b"
    else if c == '\U{c}' then "\\f"
    else if IsPrintableAscii(c) then [c]
    else if c as int < 0x10000 then UnitEscape(c as int)
    else
      var v := c as int - 0x10000;
      UnitEscape(0xD800 + v / 0x400) + UnitEscape(0xDC00 + v % 0x400)
  }

  function Escape(s: string): string
  {
    if s == [] then [] else EscapeChar(s[0]) + Escape(s[1..])
  }

  /** `json.dumps(s)` for one string. */
  function Quote(s: string): string
  {
    "\"" + Escape(s) + "\""
  }

  function QuoteAll(tags: seq<string>): (r: seq<string>)
    ensures |r| == |tags| && forall k :: 0 <= k < |tags| ==> r[k] == Quote(tags[k])
  {
    if tags == [] then [] else [Quote(tags[0])] + QuoteAll(tags[1..])
  }

  /** `_serialize_tags`: `json.dumps(tags) if tags else "[]"`. */
  function Serialize(tags: seq<string>): string
  {
    if tags == [] then "[]" else "[" + Join(QuoteAll(tags), ", ") + "]"
  }

  // ---------------------------------------------------------------- reading

  predicate IsJsonSpace(c: char) { c == ' ' || c == '\t' || c == '\n' || c == '\r' }

  function SkipWs(s: string): (r: string)
    ensures |r| <= |s| && r == s[|s| - |r|..]
    ensures r == [] || !IsJsonSpace(r[0])
  {
    if s != [] && IsJsonSpace(s[0]) then SkipWs(s[1..]) else s
  }

  function HexValue(c: char): Option<nat>
  {
    if '0' <= c <= '9' then Some(c as int - '0' as int)
    else if 'a' <= c <= 'f' then Some(c as int - 'a' as int + 10)
    else if 'A' <= c <= 'F' then Some(c as int - 'A' as int + 10)
    else None
  }

  /** The value of four hex digits at the front of `s`, if they are there. */
  function Hex4Value(s: string): (r: Option<nat>)
    ensures r.Some? ==> r.value < 0x10000
  {
    if |s| < 4 then None
    else match (HexValue(s[0]), HexValue(s[1]), HexValue(s[2]), HexValue(s[3]))
      case (Some(a), Some(b), Some(c), Some(d)) =>
        if a < 16 && b < 16 && c < 16 && d < 16 then Some(a * 0x1000 + b * 0x100 + c * 0x10 + d) else None
      case _ => None
  }

  /**
   * One escape sequence, the backslash already consumed: the character it
   * stands for and what follows it. A lone surrogate has no `char` here and
   * is refused.
   */
  function ParseEscape(s: string): (r: Option<(char, string)>)
    ensures r.Some? ==> |r.value.1| < |s|
  {
    if s == [] then None
    else if s[0] == '"' then Some(('"', s[1..]))
    else if s[0] == '\\' then Some(('\\', s[1..]))
    else if s[0] == '/' then Some(('/', s[1..]))
    else if s[0] == 'n' then Some(('\n', s[1..]))
    else if s[0] == 'r' then Some(('\r', s[1..]))
    else if s[0] == 't' then Some(('\t', s[1..]))
    else if s[0] == 'b' then Some(('\U{8}', s[1..]))
    else if s[0] == 'f' then Some(('\U{c}', s[1..]))
    else if s[0] == 'u' then
      match Hex4Value(s[1..])
      case None => None
      case Some(v) =>
        if v < 0xD800 || 0xDFFF < v then Some((v as char, s[5..]))
        else if v <= 0xDBFF && |s| >= 11 && s[5] == '\\' && s[6] == 'u' then
          match Hex4Value(s[7..])
          case Some(w) =>
            if 0xDC00 <= w <= 0xDFFF then Some(((0x10000 + (v - 0xD800) * 0x400 + (w - 0xDC00)) as char, s[11..]))
            else None
          case None => None
        else None
    else None
  }

  /** The rest of a string literal, the opening quote already consumed. */
  function ParseStringBody(s: string): (r: Option<(string, string)>)
    ensures r.Some? ==> |r.value.1| < |s|
  {
    if s == [] then None
    else if s[0] == '"' then Some(([], s[1..]))
    else if s[0] == '\\' then
      match ParseEscape(s[1..])
      case None => None
      case Some((c, rest)) =>
        match ParseStringBody(rest)
        case None => None
        case Some((v, tail)) => Some(([c] + v, tail))
    else
      match ParseStringBody(s[1..])
      case None => None
      case Some((v, tail)) => Some(([s[0]] + v, tail))
  }

  /** `"a", "b"]` and what may follow it: the strings, if the array closes the text. */
  function ParseElements(u: string): Option<seq<string>>
    decreases |u|
  {
    if u == [] || u[0] != '"' then None
    else
      match ParseStringBody(u[1..])
      case None => None
      case Some((v, rest)) =>
        var w := SkipWs(rest);
        if w == [] then None
        else if w[0] == ']' then (if SkipWs(w[1..]) == [] then Some([v]) else None)
        else if w[0] == ',' then
          match ParseElements(SkipWs(w[1..]))
          case None => None
          case Some(vs) => Some([v] + vs)
        else None
  }

  /** A whole JSON document that is an array of strings. */
  function ParseArray(s: string): Option<seq<string>>
  {
    var t := SkipWs(s);
    if t == [] || t[0] != '[' then None
    else
      var u := SkipWs(t[1..]);
      if u != [] && u[0] == ']' then (if SkipWs(u[1..]) == [] then Some([]) else None)
      else ParseElements(u)
  }

  /** `_parse_tags`: `[]` for empty text and for text `json.loads` refuses. */
  function ParseTags(text: string): (r: seq<string>)
  {
    if text == [] then [] else ParseArray(text).GetOr([])
  }
}
