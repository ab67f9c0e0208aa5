/** What the reader makes of escapes and comments, against RFC 8259 and RFC 3629 rather than against the functions
    that scan and decode. */
module JsonDecoding {
  import opened Wrappers
  import opened JsonValue
  import opened JsonText
  import opened JsonGrammar

  // ----- UTF-8 (RFC 3629, section 3) -----

  predicate Continues(c: char) { 0x80 <= c as int < 0xC0 }

  /** The six payload bits of a continuation byte. */
  function Payload(c: char): nat
    requires Continues(c)
  {
    c as int - 0x80
  }

  /** The code point that the bytes stand for: a lead byte, which gives their number, and continuation bytes. */
  function Utf8(s: string): Option<nat> {
    if |s| == 1 && s[0] as int < 0x80 then Some(s[0] as int)
    else if |s| == 2 && 0xC0 <= s[0] as int < 0xE0 && Continues(s[1]) then
      Some((s[0] as int - 0xC0) * 64 + Payload(s[1]))
    else if |s| == 3 && 0xE0 <= s[0] as int < 0xF0 && Continues(s[1]) && Continues(s[2]) then
      Some(((s[0] as int - 0xE0) * 64 + Payload(s[1])) * 64 + Payload(s[2]))
    else if |s| == 4 && 0xF0 <= s[0] as int < 0xF8 && Continues(s[1]) && Continues(s[2]) && Continues(s[3]) then
      Some((((s[0] as int - 0xF0) * 64 + Payload(s[1])) * 64 + Payload(s[2])) * 64 + Payload(s[3]))
    else None
  }

  /** The shortest form there is. */
  function Utf8Length(cp: nat): nat {
    if cp < 0x80 then 1 else if cp < 0x800 then 2 else if cp < 0x10000 then 3 else 4
  }

  /** Every code point is written in UTF-8, in its shortest form. */
  lemma WritesUtf8(cp: nat)
    requires cp <= 0x10FFFF
    ensures Utf8(CodePointToUTF8(cp)) == Some(cp) && |CodePointToUTF8(cp)| == Utf8Length(cp)
  {
    SixBitGroups(cp);
  }

  lemma SixBitGroups(cp: nat)
    ensures cp / 0x40 == 64 * (cp / 0x1000) + cp / 0x40 % 0x40 && cp / 0x1000 == 64 * (cp / 0x40000) + cp / 0x1000 % 0x40
    ensures cp == 64 * (cp / 0x40) + cp % 0x40
  {
    assert cp / 0x40 / 0x40 == cp / 0x1000 && cp / 0x1000 / 0x40 == cp / 0x40000;
  }

  // ----- \u escapes (RFC 8259, section 7) -----

  /** A hexadecimal digit, in lower or in upper case. */
  function HexChar(v: nat, lower: bool): char
    requires v < 16
  {
    if lower then "0123456789abcdef"[v] else "0123456789ABCDEF"[v]
  }

  /** Four digits of a number, each in its own case. */
  function FourHex(n: nat, lower: seq<bool>): (s: string)
    requires n < 0x10000 && |lower| == 4
    ensures |s| == 4
  {
    [HexChar(n / 0x1000, lower[0]), HexChar(n / 0x100 % 16, lower[1]), HexChar(n / 0x10 % 16, lower[2]), HexChar(n % 16, lower[3])]
  }

  lemma HexCharReads(v: nat, lower: bool)
    requires v < 16
    ensures IsHex(HexChar(v, lower)) && HexValue(HexChar(v, lower)) == v
  {
    match v
    case 0 => case 1 => case 2 => case 3 => case 4 => case 5 => case 6 => case 7 =>
    case 8 => case 9 => case 10 => case 11 => case 12 => case 13 => case 14 => case 15 =>
  }

  lemma HexAfter(s: string, k: nat, v: nat, digit: nat, lower: bool)
    requires k < |s| && Hex(s, k) == Ok(v) && digit < 16 && s[k] == HexChar(digit, lower)
    ensures Hex(s, k + 1) == Ok(16 * v + digit)
  {
    HexCharReads(digit, lower);
  }

  lemma FourHexReads(n: nat, lower: seq<bool>, rest: string)
    requires n < 0x10000 && |lower| == 4
    ensures UnicodeEscape(FourHex(n, lower) + rest) == Ok(n)
  {
    DigitsOf(n);
    FourReads(FourHex(n, lower) + rest, n / 0x1000, n / 0x100 % 16, n / 0x10 % 16, n % 16, lower);
  }

  lemma FourReads(s: string, a: nat, b: nat, c: nat, d: nat, lower: seq<bool>)
    requires a < 16 && b < 16 && c < 16 && d < 16 && |lower| == 4 && |s| >= 4
    requires s[0] == HexChar(a, lower[0]) && s[1] == HexChar(b, lower[1])
    requires s[2] == HexChar(c, lower[2]) && s[3] == HexChar(d, lower[3])
    ensures UnicodeEscape(s) == Ok(16 * (16 * (16 * a + b) + c) + d)
  {
    HexAfter(s, 0, 0, a, lower[0]);
    HexAfter(s, 1, a, b, lower[1]);
    HexAfter(s, 2, 16 * a + b, c, lower[2]);
    HexAfter(s, 3, 16 * (16 * a + b) + c, d, lower[3]);
  }

  lemma DigitsOf(n: nat)
    ensures 16 * (16 * (16 * (n / 0x1000) + n / 0x100 % 16) + n / 0x10 % 16) + n % 16 == n
  {
    assert n / 0x100 == 16 * (n / 0x1000) + n / 0x100 % 16 && n / 0x10 == 16 * (n / 0x100) + n / 0x10 % 16;
  }

  predicate HighSurrogate(u: nat) { 0xD800 <= u <= 0xDBFF }

  /** A code point as an escape: four digits, or those of a surrogate pair. */
  function EscapeOf(cp: nat, lower: seq<bool>, lower': seq<bool>): string
    requires cp <= 0x10FFFF && |lower| == |lower'| == 4
  {
    if cp < 0x10000 then "\\u" + FourHex(cp, lower)
    else PairOf((cp - 0x10000) / 0x400, (cp - 0x10000) % 0x400, lower, lower')
  }

  lemma OneEscapeReads(u: nat, lower: seq<bool>, rest: string)
    requires u < 0x10000 && |lower| == 4 && !HighSurrogate(u)
    ensures CodePoint(FourHex(u, lower) + rest) == Ok((u, rest))
  {
    FourHexReads(u, lower, rest);
    assert (FourHex(u, lower) + rest)[4..] == rest;
  }

  lemma PairReads(x: nat, y: nat, lower: seq<bool>, lower': seq<bool>, rest: string)
    requires x < 0x400 && y < 0x400 && |lower| == |lower'| == 4
    ensures CodePoint(FourHex(0xD800 + x, lower) + ("\\u" + FourHex(0xDC00 + y, lower')) + rest)
         == Ok((0x10000 + 0x400 * x + y, rest))
  {
    var high, low := FourHex(0xD800 + x, lower), FourHex(0xDC00 + y, lower');
    var s := high + ("\\u" + low) + rest;
    assert s == high + ("\\u" + low + rest);
    FourHexReads(0xD800 + x, lower, "\\u" + low + rest);
    assert s[4] == '\\' && s[5] == 'u' && s[6..] == low + rest && s[10..] == rest;
    FourHexReads(0xDC00 + y, lower', rest);
    PairIs(s, x, y);
  }

  lemma PairIs(s: string, x: nat, y: nat)
    requires x < 0x400 && y < 0x400 && |s| >= 10 && s[4] == '\\' && s[5] == 'u'
    requires UnicodeEscape(s) == Ok(0xD800 + x) && UnicodeEscape(s[6..]) == Ok(0xDC00 + y)
    ensures CodePoint(s) == Ok((0x10000 + 0x400 * x + y, s[10..]))
  {
    LowBits(x, 0x36);
    LowBits(y, 0x37);
  }

  lemma LowBits(x: nat, k: nat)
    requires x < 0x400
    ensures (0x400 * k + x) % 0x400 == x
  {
  }

  /** An escape stands for its code point, written in UTF-8, with digits in either case; a lone second half of a pair
      is taken for a code point like any other. */
  lemma EscapeReads(cp: nat, lower: seq<bool>, lower': seq<bool>, rest: string)
    requires cp <= 0x10FFFF && |lower| == |lower'| == 4 && !HighSurrogate(cp)
    ensures Unescape(EscapeOf(cp, lower, lower') + rest) == Prepend(CodePointToUTF8(cp), Unescape(rest))
    ensures Utf8(CodePointToUTF8(cp)) == Some(cp)
  {
    WritesUtf8(cp);
    if cp < 0x10000 { ShortOneReads(cp, lower, lower', rest); } else { LongOneReads(cp, lower, lower', rest); }
  }

  lemma ShortOneReads(cp: nat, lower: seq<bool>, lower': seq<bool>, rest: string)
    requires cp < 0x10000 && |lower| == |lower'| == 4 && !HighSurrogate(cp)
    ensures Unescape(EscapeOf(cp, lower, lower') + rest) == Prepend(CodePointToUTF8(cp), Unescape(rest))
  {
    OneEscapeReads(cp, lower, rest);
    BackslashU(FourHex(cp, lower), cp, rest);
  }

  lemma LongOneReads(cp: nat, lower: seq<bool>, lower': seq<bool>, rest: string)
    requires 0x10000 <= cp <= 0x10FFFF && |lower| == |lower'| == 4
    ensures Unescape(EscapeOf(cp, lower, lower') + rest) == Prepend(CodePointToUTF8(cp), Unescape(rest))
  {
    EscapedPair(cp, lower, lower');
    PairEscapeReads((cp - 0x10000) / 0x400, (cp - 0x10000) % 0x400, lower, lower', rest);
  }

  lemma EscapedPair(cp: nat, lower: seq<bool>, lower': seq<bool>)
    requires 0x10000 <= cp <= 0x10FFFF && |lower| == |lower'| == 4
    ensures var x, y := (cp - 0x10000) / 0x400, (cp - 0x10000) % 0x400;
      && x < 0x400 && y < 0x400 && 0x10000 + 0x400 * x + y == cp
      && EscapeOf(cp, lower, lower') == PairOf(x, y, lower, lower')
  {
  }

  function PairOf(x: nat, y: nat, lower: seq<bool>, lower': seq<bool>): string
    requires x < 0x400 && y < 0x400 && |lower| == |lower'| == 4
  {
    "\\u" + FourHex(0xD800 + x, lower) + ("\\u" + FourHex(0xDC00 + y, lower'))
  }

  lemma PairEscapeReads(x: nat, y: nat, lower: seq<bool>, lower': seq<bool>, rest: string)
    requires x < 0x400 && y < 0x400 && |lower| == |lower'| == 4
    ensures Unescape(PairOf(x, y, lower, lower') + rest)
         == Prepend(CodePointToUTF8(0x10000 + 0x400 * x + y), Unescape(rest))
  {
    var high, low := FourHex(0xD800 + x, lower), "\\u" + FourHex(0xDC00 + y, lower');
    PairReads(x, y, lower, lower', rest);
    BackslashU(high + low, 0x10000 + 0x400 * x + y, rest);
    assert "\\u" + (high + low) == "\\u" + high + low;
  }

  lemma BackslashU(digits: string, cp: nat, rest: string)
    requires CodePoint(digits + rest) == Ok((cp, rest))
    ensures Unescape("\\u" + digits + rest) == Prepend(CodePointToUTF8(cp), Unescape(rest))
  {
    assert ("\\u" + digits + rest)[2..] == digits + rest;
  }

  /** A small e with an acute accent. */
  lemma AcuteE()
    ensures Unescape("\\u00e9") == Ok([0xC3 as char, 0xA9 as char])
  {
    var lower := [true, true, true, true];
    assert FourHex(0xE9, lower) == "00e9";
    assert EscapeOf(0xE9, lower, lower) + "" == "\\u00e9";
    EscapeReads(0xE9, lower, lower, "");
    assert CodePointToUTF8(0xE9) + "" == [0xC3 as char, 0xA9 as char];
  }

  /** The other escapes of RFC 8259, section 7. */
  function Escapes(): map<char, char> {
    map['"' := '"', '\\' := '\\', '/' := '/', 'b' := '\U{8}', 'f' := '\U{C}', 'n' := '\n', 'r' := '\r', 't' := '\t']
  }

  /** Every other character behind a backslash is an error. */
  lemma ShortEscapeReads(c: char, rest: string)
    requires c != 'u'
    ensures Unescape(['\\', c] + rest)
         == if c in Escapes() then Prepend([Escapes()[c]], Unescape(rest)) else Err(BadEscape)
  {
    assert (['\\', c] + rest)[2..] == rest;
  }

  // ----- Words and punctuation (RFC 8259, sections 2 and 3) -----

  lemma WordsAre(rest: string)
    ensures Scan('t', "rue" + rest) == (tokenTrue, rest) && Scan('f', "alse" + rest) == (tokenFalse, rest)
    ensures Scan('n', "ull" + rest) == (tokenNull, rest)
  {
    assert ("rue" + rest)[3..] == rest && ("alse" + rest)[4..] == rest && ("ull" + rest)[3..] == rest;
  }

  lemma PunctuationIs(rest: string)
    ensures Scan('{', rest) == (tokenObjectBegin, rest) && Scan('}', rest) == (tokenObjectEnd, rest)
    ensures Scan('[', rest) == (tokenArrayBegin, rest) && Scan(']', rest) == (tokenArrayEnd, rest)
    ensures Scan(',', rest) == (tokenArraySeparator, rest) && Scan(':', rest) == (tokenMemberSeparator, rest)
  {
  }

  // ----- Comments -----

  /** There is no end of a C comment in the text. */
  ghost predicate NoEnd(s: string) { forall k :: 0 <= k < |s| - 1 ==> !(s[k] == '*' && s[k + 1] == '/') }

  /** A C comment ends at the first end there is, and not at all without one. */
  lemma {:induction false} CommentEndsFirst(body: string, rest: string)
    requires NoEnd(body)
    ensures CStyleEnd(body + "*/" + rest) == (true, rest)
    ensures CStyleEnd(body) == (false, "")
  {
    var s := body + "*/" + rest;
    if body == "" {
      assert s[2..] == rest;
    } else {
      assert s[1..] == body[1..] + "*/" + rest;
      CommentEndsFirst(body[1..], rest);
    }
  }

  predicate IsLineEnd(c: char) { c == '\r' || c == '\n' }

  /** A line comment ends with its line, or with the text. */
  lemma {:induction false} LineEndsFirst(line: string, c: char, rest: string)
    requires (forall k :: 0 <= k < |line| ==> !IsLineEnd(line[k])) && IsLineEnd(c)
    ensures LineEnd(line + [c] + rest) == rest
    ensures LineEnd(line) == ""
  {
    var s := line + [c] + rest;
    if line == "" {
      assert s[1..] == rest;
    } else {
      assert s[1..] == line[1..] + [c] + rest;
      LineEndsFirst(line[1..], c, rest);
    }
  }

  /** A comment in front of a text is one token of it. */
  lemma CommentIsToken(comment: string, rest: string)
    requires |comment| >= 2 && comment[0] == '/' && CommentEnd(comment[1..] + rest) == (true, rest)
    ensures Lexed(comment + rest) == [Token(tokenComment, comment)] + Lexed(rest)
  {
    var s := comment + rest;
    assert s[0] == '/' && s[1..] == comment[1..] + rest && s[..|s| - |rest|] == comment;
    assert ReadToken(s) == (Token(tokenComment, comment), rest);
  }

  /** Where comments are allowed, one in front of a document makes no difference; otherwise it is an error. */
  lemma CommentIsSkipped(comment: string, doc: string, root: Value, f: Features)
    requires |comment| >= 2 && comment[0] == '/' && CommentEnd(comment[1..] + doc) == (true, doc)
    ensures f.allowComments ==> Parse(comment + doc, root, f) == Parse(doc, root, f)
    ensures !f.allowComments ==> !Parse(comment + doc, root, f).ok
  {
    CommentIsToken(comment, doc);
    if f.allowComments {
      TokenIsSkipped(Token(tokenComment, comment), Lexed(doc), root, f);
    } else {
      TokenIsRefused(Token(tokenComment, comment), Lexed(doc), root, f);
    }
  }

  lemma TokenIsSkipped(token: Token, ts: seq<Token>, root: Value, f: Features)
    requires token.kind == tokenComment && f.allowComments
    ensures ReadValue([token] + ts, root, f) == ReadValue(ts, root, f)
    ensures ParseTokens([token] + ts, root, f) == ParseTokens(ts, root, f)
  {
    assert SkipCommentTokens([token] + ts, true) == SkipCommentTokens(ts, true);
  }

  lemma TokenIsRefused(token: Token, ts: seq<Token>, root: Value, f: Features)
    requires token.kind == tokenComment && !f.allowComments
    ensures !ParseTokens([token] + ts, root, f).ok
  {
    assert ReadValue([token] + ts, root, f) == ReadAtom([token] + ts, root, f);
  }

  lemma CStyleIsSkipped(body: string, doc: string, root: Value, f: Features)
    requires NoEnd(body)
    ensures f.allowComments ==> Parse("/*" + body + "*/" + doc, root, f) == Parse(doc, root, f)
    ensures !f.allowComments ==> !Parse("/*" + body + "*/" + doc, root, f).ok
  {
    var comment := "/*" + body + "*/";
    assert comment[1..] + doc == "*" + (body + "*/" + doc);
    CommentEndsFirst(body, doc);
    CommentIsSkipped(comment, doc, root, f);
  }

  lemma LineIsSkipped(line: string, c: char, doc: string, root: Value, f: Features)
    requires (forall k :: 0 <= k < |line| ==> !IsLineEnd(line[k])) && IsLineEnd(c)
    ensures f.allowComments ==> Parse("//" + line + [c] + doc, root, f) == Parse(doc, root, f)
    ensures !f.allowComments ==> !Parse("//" + line + [c] + doc, root, f).ok
  {
    var comment := "//" + line + [c];
    assert comment[1..] + doc == "/" + (line + [c] + doc);
    LineEndsFirst(line, c, doc);
    CommentIsSkipped(comment, doc, root, f);
  }
}
