/**
 * What the tag column codec guarantees: reading back what was written gives
 * the same list of tags, and the written text is printable ASCII.
 */
module TagsJsonFacts {
  import opened Wrappers
  import opened Text
  import opened TagsJson


  lemma HexDigitValue(n: nat)
    requires n < 16
    ensures HexValue(HexDigit(n)) == Some(n)
  {
  }

  lemma Hex4RoundTrip(n: nat, rest: string)
    requires n < 0x10000
    ensures Hex4Value(Hex4(n) + rest) == Some(n)
  {
    var s := Hex4(n) + rest;
    var a, b, c, d := n / 0x1000, n / 0x100 % 16, n / 0x10 % 16, n % 16;
    Hex4Digits(n);
    assert s[0] == HexDigit(a) && s[1] == HexDigit(b) && s[2] == HexDigit(c) && s[3] == HexDigit(d);
    Hex4ValueOfDigits(s, a, b, c, d);
  }

  /** The four hex digits of `n` weigh back to `n`. */
  lemma Hex4Digits(n: nat)
    requires n < 0x10000
    ensures n / 0x1000 < 16 && n == n / 0x1000 * 0x1000 + n / 0x100 % 16 * 0x100 + n / 0x10 % 16 * 0x10 + n % 16
  {
    var a, b, c, d := n / 0x1000, n / 0x100 % 16, n / 0x10 % 16, n % 16;
    assert n / 0x100 == a * 16 + b;
    assert n / 0x10 == (n / 0x100) * 16 + c;
    assert n == (n / 0x10) * 16 + d;
  }

  /** Four hex digits at the front of `s` are read as their weighted sum. */
  lemma Hex4ValueOfDigits(s: string, a: nat, b: nat, c: nat, d: nat)
    requires a < 16 && b < 16 && c < 16 && d < 16 && |s| >= 4
    requires s[0] == HexDigit(a) && s[1] == HexDigit(b) && s[2] == HexDigit(c) && s[3] == HexDigit(d)
    ensures Hex4Value(s) == Some(a * 0x1000 + b * 0x100 + c * 0x10 + d)
  {
    HexDigitValue(a);
    HexDigitValue(b);
    HexDigitValue(c);
    HexDigitValue(d);
  }

  lemma UnitEscapeRead(n: nat, rest: string)
    requires n < 0x10000
    ensures (UnitEscape(n) + rest)[0] == '\\' && (UnitEscape(n) + rest)[1] == 'u'
    ensures Hex4Value((UnitEscape(n) + rest)[2..]) == Some(n)
    ensures (UnitEscape(n) + rest)[6..] == rest
  {
    assert (UnitEscape(n) + rest)[2..] == Hex4(n) + rest;
    Hex4RoundTrip(n, rest);
  }

  /** A surrogate pair splits and recombines to the same code point. */
  lemma SurrogateArithmetic(c: int)
    requires 0x10000 <= c <= 0x10FFFF
    ensures var v := c - 0x10000;
      0xD800 <= 0xD800 + v / 0x400 <= 0xDBFF && 0xDC00 <= 0xDC00 + v % 0x400 <= 0xDFFF
      && 0x10000 + v / 0x400 * 0x400 + v % 0x400 == c
  {
  }

  /** The characters written as themselves. */
  lemma RawCharRoundTrip(c: char)
    requires IsPrintableAscii(c) && c != '"' && c != '\\'
    ensures EscapeChar(c) == [c]
  {
  }

  /** The characters with a two-character escape. */
  lemma ShortEscapeRoundTrip(c: char, rest: string)
    requires c == '"' || c == '\\' || c == '\n' || c == '\r' || c == '\t' || c == '\U{8}' || c == '\U{c}'
    ensures |EscapeChar(c)| == 2 && EscapeChar(c)[0] == '\\'
    ensures ParseEscape(EscapeChar(c)[1..] + rest) == Some((c, rest))
  {
    var e := EscapeChar(c)[1..] + rest;
    assert e[1..] == rest;
  }

  /** The other characters of the Basic Multilingual Plane: `\uXXXX`. */
  lemma UnitEscapeRoundTrip(c: char, rest: string)
    requires !IsPrintableAscii(c) && c as int < 0x10000
    requires !(c == '"' || c == '\\' || c == '\n' || c == '\r' || c == '\t' || c == '\U{8}' || c == '\U{c}')
    ensures EscapeChar(c) == UnitEscape(c as int)
    ensures ParseEscape(UnitEscape(c as int)[1..] + rest) == Some((c, rest))
  {
    UnitEscapeRead(c as int, rest);
    var e := UnitEscape(c as int) + rest;
    assert UnitEscape(c as int)[1..] + rest == e[1..];
    assert e[1..][1..] == e[2..];
    assert e[1..][5..] == rest;
  }

  /** What `ParseEscape` sees after the backslash of `\uXXXX`, followed by `rest`. */
  lemma UnitEscapeAfterSlash(n: nat, rest: string)
    requires n < 0x10000
    ensures var t := (UnitEscape(n) + rest)[1..];
      |t| >= 5 && t[0] == 'u' && Hex4Value(t[1..]) == Some(n) && t[5..] == rest
  {
    UnitEscapeRead(n, rest);
    SuffixSlices(UnitEscape(n) + rest, 1, 1);
    SuffixSlices(UnitEscape(n) + rest, 1, 5);
  }

  /** `ParseEscape` on `uHHHH\uLLLL` with a high and a low surrogate, then `rest`. */
  lemma PairParse(t: string, hi: nat, lo: nat, rest: string)
    requires 0xD800 <= hi <= 0xDBFF && 0xDC00 <= lo <= 0xDFFF
    requires |t| >= 11 && t[0] == 'u' && t[5] == '\\' && t[6] == 'u' && t[11..] == rest
    requires Hex4Value(t[1..]) == Some(hi) && Hex4Value(t[7..]) == Some(lo)
    ensures ParseEscape(t) == Some(((0x10000 + (hi - 0xD800) * 0x400 + (lo - 0xDC00)) as char, rest))
  {
  }

  /** The text after the backslash of two `\uXXXX` escapes, then `rest`. */
  lemma PairShape(hi: nat, lo: nat, rest: string)
    requires hi < 0x10000 && lo < 0x10000
    ensures var t := (UnitEscape(hi) + (UnitEscape(lo) + rest))[1..];
      |t| >= 11 && t[0] == 'u' && t[5] == '\\' && t[6] == 'u' && t[11..] == rest
      && Hex4Value(t[1..]) == Some(hi) && Hex4Value(t[7..]) == Some(lo)
  {
    var t := (UnitEscape(hi) + (UnitEscape(lo) + rest))[1..];
    UnitEscapeAfterSlash(hi, UnitEscape(lo) + rest);
    UnitEscapeRead(lo, rest);
    SuffixSlices(t, 5, 2);
    SuffixSlices(t, 5, 6);
  }

  /** A high and a low surrogate escape read back as the one character they encode. */
  lemma PairRead(hi: nat, lo: nat, rest: string)
    requires 0xD800 <= hi <= 0xDBFF && 0xDC00 <= lo <= 0xDFFF
    ensures ParseEscape((UnitEscape(hi) + (UnitEscape(lo) + rest))[1..])
      == Some(((0x10000 + (hi - 0xD800) * 0x400 + (lo - 0xDC00)) as char, rest))
  {
    PairShape(hi, lo, rest);
    PairParse((UnitEscape(hi) + (UnitEscape(lo) + rest))[1..], hi, lo, rest);
  }

  lemma SliceOfConcat(a: string, b: string, rest: string)
    requires a != []
    ensures (a + b)[1..] + rest == (a + (b + rest))[1..]
  {
  }

  /** The surrogate pair of `c` reads back as `c`. */
  lemma PairReadAs(c: char, hi: nat, lo: nat, rest: string)
    requires 0xD800 <= hi <= 0xDBFF && 0xDC00 <= lo <= 0xDFFF
    requires c as int == 0x10000 + (hi - 0xD800) * 0x400 + (lo - 0xDC00)
    ensures ParseEscape((UnitEscape(hi) + (UnitEscape(lo) + rest))[1..]) == Some((c, rest))
  {
    PairRead(hi, lo, rest);
  }

  /** Characters above U+FFFF: a surrogate pair of `\uXXXX` escapes. */
  lemma PairEscapeRoundTrip(c: char, rest: string)
    requires c as int >= 0x10000
    ensures ParseEscape(EscapeChar(c)[1..] + rest) == Some((c, rest))
  {
    var v := c as int - 0x10000;
    var hi, lo := 0xD800 + v / 0x400, 0xDC00 + v % 0x400;
    SurrogateArithmetic(c as int);
    PairEscapeIs(c, hi, lo);
    SliceOfConcat(UnitEscape(hi), UnitEscape(lo), rest);
    PairReadAs(c, hi, lo, rest);
  }

  /** The escape of a character above U+FFFF is its two surrogate escapes. */
  lemma PairEscapeIs(c: char, hi: nat, lo: nat)
    requires c as int >= 0x10000
    requires hi == 0xD800 + (c as int - 0x10000) / 0x400 && lo == 0xDC00 + (c as int - 0x10000) % 0x400
    requires hi < 0x10000 && lo < 0x10000
    ensures EscapeChar(c) == UnitEscape(hi) + UnitEscape(lo)
  {
  }

  lemma EscapeCharRoundTrip(c: char, rest: string)
    ensures EscapeChar(c) != []
    ensures EscapeChar(c)[0] == '\\' ==> ParseEscape(EscapeChar(c)[1..] + rest) == Some((c, rest))
    ensures EscapeChar(c)[0] != '\\' ==> EscapeChar(c) == [c] && c != '"'
  {
    if c == '"' || c == '\\' || c == '\n' || c == '\r' || c == '\t' || c == '\U{8}' || c == '\U{c}' {
      ShortEscapeRoundTrip(c, rest);
    } else if IsPrintableAscii(c) {
      RawCharRoundTrip(c);
    } else if c as int < 0x10000 {
      UnitEscapeRoundTrip(c, rest);
    } else {
      PairEscapeRoundTrip(c, rest);
    }
  }

  lemma {:induction false} StringBodyRoundTrip(s: string, rest: string)
    ensures ParseStringBody(Escape(s) + "\"" + rest) == Some((s, rest))
  {
    if s == [] {
      assert (Escape(s) + "\"" + rest)[1..] == rest;
    } else {
      var more := Escape(s[1..]) + "\"" + rest;
      var ec := EscapeChar(s[0]);
      assert Escape(s) + "\"" + rest == ec + more;
      EscapeCharRoundTrip(s[0], more);
      StringBodyRoundTrip(s[1..], rest);
      BodyStep(s[0], ec, more, s[1..], rest);
      assert [s[0]] + s[1..] == s;
    }
  }

  /** The escaped form of one character, then the rest of the string body. */
  lemma BodyStep(c: char, ec: string, more: string, v: string, rest: string)
    requires ec != []
    requires ec[0] == '\\' ==> ParseEscape(ec[1..] + more) == Some((c, more))
    requires ec[0] != '\\' ==> ec == [c] && c != '"'
    requires ParseStringBody(more) == Some((v, rest))
    ensures ParseStringBody(ec + more) == Some(([c] + v, rest))
  {
    var e := ec + more;
    if ec[0] == '\\' {
      assert e[1..] == ec[1..] + more;
    } else {
      assert e[1..] == more;
    }
  }

  lemma SkipWsNone(x: string)
    requires x != [] && !IsJsonSpace(x[0])
    ensures SkipWs(x) == x && SkipWs(" " + x) == x
  {
    assert (" " + x)[1..] == x;
  }

  /** `]` closes the text and `,` is not whitespace. */
  lemma Delimiters(rest: string)
    requires rest != [] && rest[0] == ','
    ensures SkipWs("]") == "]" && SkipWs([]) == [] && "]"[1..] == [] && SkipWs(rest) == rest
  {
  }

  /** One step of `ParseElements` on an element followed by a comma. */
  lemma ElementsStep(u: string, v: string, rest: string)
    requires u != [] && u[0] == '"' && ParseStringBody(u[1..]) == Some((v, rest))
    requires rest != [] && rest[0] == ','
    ensures ParseElements(SkipWs(rest[1..])).Some? ==> ParseElements(u) == Some([v] + ParseElements(SkipWs(rest[1..])).value)
    ensures ParseElements(SkipWs(rest[1..])).None? ==> ParseElements(u).None?
  {
    Delimiters(rest);
  }

  /** One step of `ParseElements` on the last element. */
  lemma ElementsStepLast(u: string, v: string)
    requires u != [] && u[0] == '"' && ParseStringBody(u[1..]) == Some((v, "]"))
    ensures ParseElements(u) == Some([v])
  {
    Delimiters(",");
  }

  /** How `"t"` followed by `tail` splits up. */
  lemma QuoteShape(t: string, tail: string)
    ensures var u := Quote(t) + tail; u[0] == '"' && u[1..] == Escape(t) + "\"" + tail
  {
  }

  /** The last element: `"t"]`. */
  lemma ElementsLast(t: string)
    ensures ParseElements(Quote(t) + "]") == Some([t])
  {
    QuoteShape(t, "]");
    StringBodyRoundTrip(t, "]");
    ElementsStepLast(Quote(t) + "]", t);
  }

  lemma CommaShape(j: string)
    requires j != [] && !IsJsonSpace(j[0])
    ensures (", " + j)[0] == ',' && SkipWs((", " + j)[1..]) == j
  {
    assert (", " + j)[1..] == " " + j;
    SkipWsNone(j);
  }

  /** An element followed by more: `"t", ` then the rest of the array. */
  lemma ElementsCons(t: string, j: string)
    requires j != [] && j[0] == '"'
    ensures ParseElements(j).Some? ==> ParseElements(Quote(t) + (", " + j)) == Some([t] + ParseElements(j).value)
    ensures ParseElements(j).None? ==> ParseElements(Quote(t) + (", " + j)).None?
  {
    QuoteShape(t, ", " + j);
    StringBodyRoundTrip(t, ", " + j);
    CommaShape(j);
    ElementsStep(Quote(t) + (", " + j), t, ", " + j);
  }

  lemma QuoteAllShape(tags: seq<string>)
    requires tags != []
    ensures QuoteAll(tags)[0] == Quote(tags[0]) && QuoteAll(tags)[1..] == QuoteAll(tags[1..])
  {
  }

  lemma SingleShape(tags: seq<string>)
    requires |tags| == 1
    ensures Join(QuoteAll(tags), ", ") + "]" == Quote(tags[0]) + "]" && tags == [tags[0]]
  {
    QuoteAllShape(tags);
  }

  /** The quoted tags joined up, seen as the first tag and the rest. */
  lemma JoinShape(tags: seq<string>)
    requires |tags| > 1
    ensures Join(QuoteAll(tags), ", ") + "]" == Quote(tags[0]) + (", " + (Join(QuoteAll(tags[1..]), ", ") + "]"))
  {
    QuoteAllShape(tags);
    JoinFirst(QuoteAll(tags), ", ", "]");
  }

  lemma {:induction false} ElementsRoundTrip(tags: seq<string>)
    requires tags != []
    ensures ParseElements(Join(QuoteAll(tags), ", ") + "]") == Some(tags)
    decreases |tags|
  {
    if |tags| == 1 {
      SingleShape(tags);
      ElementsLast(tags[0]);
    } else {
      JoinShape(tags);
      JoinStartsWithQuote(tags[1..]);
      ElementsCons(tags[0], Join(QuoteAll(tags[1..]), ", ") + "]");
      ElementsRoundTrip(tags[1..]);
      ConsTail(tags);
    }
  }

  lemma JoinStartsWithQuote(tags: seq<string>)
    requires tags != []
    ensures (Join(QuoteAll(tags), ", ") + "]")[0] == '"'
  {
    var q := QuoteAll(tags);
    assert q[0] == Quote(tags[0]);
    if |tags| > 1 {
      assert Join(q, ", ") == q[0] + ", " + Join(q[1..], ", ");
    }
  }

  /** `_parse_tags(_serialize_tags(tags)) == tags` for every list of tags. */
  lemma ParseSerialize(tags: seq<string>)
    ensures ParseTags(Serialize(tags)) == tags
  {
    var s := Serialize(tags);
    if tags != [] {
      var body := Join(QuoteAll(tags), ", ") + "]";
      assert s == "[" + body;
      assert s[1..] == body;
      JoinStartsWithQuote(tags);
      SkipWsNone(body);
      ElementsRoundTrip(tags);
    }
  }

  /** `_serialize_tags([]) == "[]"`, and empty or malformed text reads as no tags. */
  lemma EdgeCases(text: string)
    requires SkipWs(text) == [] || SkipWs(text)[0] != '['
    ensures Serialize([]) == "[]" && ParseTags("") == [] && ParseTags(text) == []
  {
  }

  // ---------------------------------------------------------------- ASCII output

  predicate AllPrintableAscii(s: string) {
    forall k :: 0 <= k < |s| ==> IsPrintableAscii(s[k])
  }

  lemma UnitEscapeAscii(n: nat)
    requires n < 0x10000
    ensures AllPrintableAscii(UnitEscape(n))
  {
  }

  lemma ConcatAscii(a: string, b: string)
    requires AllPrintableAscii(a) && AllPrintableAscii(b)
    ensures AllPrintableAscii(a + b)
  {
  }

  lemma EscapeCharAscii(c: char)
    ensures AllPrintableAscii(EscapeChar(c))
  {
    if c == '"' || c == '\\' || c == '\n' || c == '\r' || c == '\t' || c == '\U{8}' || c == '\U{c}' || IsPrintableAscii(c) {
    } else if c as int < 0x10000 {
      UnitEscapeAscii(c as int);
    } else {
      var v := c as int - 0x10000;
      SurrogateArithmetic(c as int);
      UnitEscapeAscii(0xD800 + v / 0x400);
      UnitEscapeAscii(0xDC00 + v % 0x400);
      ConcatAscii(UnitEscape(0xD800 + v / 0x400), UnitEscape(0xDC00 + v % 0x400));
    }
  }

  lemma {:induction false} EscapeAscii(s: string)
    ensures AllPrintableAscii(Escape(s))
  {
    if s != [] {
      EscapeCharAscii(s[0]);
      EscapeAscii(s[1..]);
    }
  }

  lemma {:induction false} JoinAscii(parts: seq<string>, sep: string)
    requires AllPrintableAscii(sep)
    requires forall k :: 0 <= k < |parts| ==> AllPrintableAscii(parts[k])
    ensures AllPrintableAscii(Join(parts, sep))
  {
    if |parts| > 1 {
      JoinAscii(parts[1..], sep);
    }
  }

  /** With `ensure_ascii`, the stored tags column is printable ASCII whatever the tags are. */
  lemma SerializeAscii(tags: seq<string>)
    ensures AllPrintableAscii(Serialize(tags))
  {
    var q := QuoteAll(tags);
    forall k | 0 <= k < |q| ensures AllPrintableAscii(q[k]) {
      EscapeAscii(tags[k]);
    }
    JoinAscii(q, ", ");
  }
}
