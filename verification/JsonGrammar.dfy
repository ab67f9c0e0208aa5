/** What json_reader.cpp makes of the characters ahead of it: tokens, decoded strings and numbers, and values. */
module JsonGrammar {
  import opened Wrappers
  import opened JsonValue
  import opened JsonText

  datatype TokenType =
    | tokenEndOfStream
    | tokenObjectBegin
    | tokenObjectEnd
    | tokenArrayBegin
    | tokenArrayEnd
    | tokenString
    | tokenNumber
    | tokenTrue
    | tokenFalse
    | tokenNull
    | tokenArraySeparator
    | tokenMemberSeparator
    | tokenComment
    | tokenError

  datatype Token = Token(kind: TokenType, text: string)

  /** The messages of addError. */
  datatype Message =
    | EmptyEscape      // Empty escape sequence in string
    | BadEscape        // Bad escape sequence in string
    | FourDigits       // Bad unicode escape sequence in string: four digits expected.
    | HexExpected      // Bad unicode escape sequence in string: hexadecimal digit expected.
    | SixExpected      // additional six characters expected to parse unicode surrogate pair.
    | SecondHalf       // expecting another \\u token to begin the second half of a unicode surrogate pair
    | ValueExpected    // Syntax error: value, object or array expected.
    | NotANumber       // '...' is not a number.
    | MissingColon     // Missing ':' after object member name
    | MissingComma     // Missing ',' or '}' in object declaration
    | MissingEnd       // Missing '}' or object member name
    | NotARoot         // A valid JSON document must be either an array or an object value.

  predicate IsTail(r: string, s: string) { |r| <= |s| && s[|s| - |r|..] == r }

  /** Behind the quote that ends a string, or nothing. */
  function StringEnd(s: string): (r: (bool, string))
    ensures IsTail(r.1, s) && (r.0 ==> |r.1| < |s| && s[|s| - |r.1| - 1] == '"')
  {
    if s == "" then (false, "")
    else if s[0] == '"' then (true, s[1..])
    else if s[0] == '\\' && |s| > 1 then StringEnd(s[2..])
    else StringEnd(s[1..])
  }

  predicate ClosesComment(s: string) { |s| > 1 && s[0] == '*' && s[1] == '/' }

  function CStyleEnd(s: string): (r: (bool, string))
    ensures IsTail(r.1, s)
  {
    if ClosesComment(s) then (true, s[2..])
    else if s == "" then (false, "")
    else CStyleEnd(s[1..])
  }

  function LineEnd(s: string): (r: string)
    ensures IsTail(r, s)
  {
    if s == "" then "" else if s[0] == '\r' || s[0] == '\n' then s[1..] else LineEnd(s[1..])
  }

  /** Behind the '/' of a comment. */
  function CommentEnd(s: string): (r: (bool, string))
    ensures IsTail(r.1, s)
  {
    if s == "" then (false, "")
    else if s[0] == '*' then CStyleEnd(s[1..])
    else if s[0] == '/' then (true, LineEnd(s[1..]))
    else (false, s[1..])
  }

  function NumberEnd(s: string): (r: string)
    ensures IsTail(r, s)
  {
    if s == "" || !IsNumberChar(s[0]) then s else NumberEnd(s[1..])
  }

  /** Behind the first character of a word, which must go on like this. */
  function WordEnd(s: string, pattern: string): (r: (bool, string))
    ensures IsTail(r.1, s)
  {
    if pattern <= s then (true, s[|pattern|..]) else (false, s)
  }

  /** The token that starts with this character, and what is behind it. */
  function Scan(c: char, s: string): (r: (TokenType, string))
    ensures IsTail(r.1, s)
  {
    if c == '{' then (tokenObjectBegin, s)
    else if c == '}' then (tokenObjectEnd, s)
    else if c == '[' then (tokenArrayBegin, s)
    else if c == ']' then (tokenArrayEnd, s)
    else if c == '"' then var e := StringEnd(s); (if e.0 then tokenString else tokenError, e.1)
    else if c == '/' then var e := CommentEnd(s); (if e.0 then tokenComment else tokenError, e.1)
    else if IsDigit(c) || c == '-' then (tokenNumber, NumberEnd(s))
    else if c == 't' then var e := WordEnd(s, "rue"); (if e.0 then tokenTrue else tokenError, e.1)
    else if c == 'f' then var e := WordEnd(s, "alse"); (if e.0 then tokenFalse else tokenError, e.1)
    else if c == 'n' then var e := WordEnd(s, "ull"); (if e.0 then tokenNull else tokenError, e.1)
    else if c == ',' then (tokenArraySeparator, s)
    else if c == ':' then (tokenMemberSeparator, s)
    else if c == NUL then (tokenEndOfStream, s)
    else (tokenError, s)
  }

  /** The next token and the characters behind it. */
  function ReadToken(s: string): (r: (Token, string))
    ensures |r.1| <= |s| && (SkipSpaces(s) != "" ==> |r.1| < |s|)
  {
    var u := SkipSpaces(s);
    if u == "" then (Token(tokenEndOfStream, ""), "")
    else
      var r := Scan(u[0], u[1..]);
      (Token(r.0, u[..|u| - |r.1|]), r.1)
  }

  /** All tokens of a text. A NUL is one that looks like the end of the text. */
  function Lexed(s: string): (ts: seq<Token>)
    decreases |s|
  {
    if SkipSpaces(s) == "" then [] else [ReadToken(s).0] + Lexed(ReadToken(s).1)
  }

  /** What readToken gives with these tokens ahead, and what it leaves. */
  function Head(ts: seq<Token>): Token {
    if ts == [] then Token(tokenEndOfStream, "") else ts[0]
  }

  function Tail(ts: seq<Token>): seq<Token> {
    if ts == [] then [] else ts[1..]
  }

  function PastComments(ts: seq<Token>): (r: seq<Token>)
    ensures |r| <= |ts|
  {
    if Head(ts).kind == tokenComment then PastComments(Tail(ts)) else ts
  }

  /** Comments are skipped where they are allowed. */
  function SkipCommentTokens(ts: seq<Token>, allowComments: bool): (r: seq<Token>)
    ensures |r| <= |ts|
  {
    if allowComments then PastComments(ts) else ts
  }

  // ----- Strings -----

  datatype Result<T> = Ok(value: T) | Err(message: Message)


  predicate IsHex(c: char) { IsDigit(c) || 'a' <= c <= 'f' || 'A' <= c <= 'F' }

  function HexValue(c: char): (v: nat)
    requires IsHex(c)
    ensures v < 16
  {
    if IsDigit(c) then c as int - 48 else if 'a' <= c then c as int - 87 else c as int - 55
  }

  /** The number of k hexadecimal digits. */
  function Hex(s: string, k: nat): (r: Result<nat>)
    requires k <= |s|
  {
    if k == 0 then Ok(0)
    else match Hex(s, k - 1)
      case Err(m) => Err(m)
      case Ok(v) => if IsHex(s[k - 1]) then Ok(16 * v + HexValue(s[k - 1])) else Err(HexExpected)
  }

  function UnicodeEscape(s: string): (r: Result<nat>) {
    if |s| < 4 then Err(FourDigits) else Hex(s, 4)
  }

  /** A code point behind "\\u" and what follows it. The second half of a pair is not checked to be one. */
  function CodePoint(s: string): (r: Result<(nat, string)>)
    ensures r.Ok? ==> |r.value.1| < |s| && IsTail(r.value.1, s)
  {
    match UnicodeEscape(s)
    case Err(m) => Err(m)
    case Ok(u) =>
      if !(0xD800 <= u <= 0xDBFF) then Ok((u, s[4..]))
      else if |s| - 4 < 6 then Err(SixExpected)
      else if s[4] != '\\' || s[5] != 'u' then Err(SecondHalf)
      else match UnicodeEscape(s[6..])
        case Err(m) => Err(m)
        case Ok(low) => Ok((0x10000 + (u % 0x400) * 0x400 + low % 0x400, s[10..]))
  }

  function Byte(n: nat): char
    requires n < 256
  {
    n as char
  }

  function CodePointToUTF8(cp: nat): (r: string) {
    if cp <= 0x7F then [Byte(cp)]
    else if cp <= 0x7FF then [Byte(0xC0 + cp / 0x40), Byte(0x80 + cp % 0x40)]
    else if cp <= 0xFFFF then [Byte(0xE0 + cp / 0x1000), Byte(0x80 + cp / 0x40 % 0x40), Byte(0x80 + cp % 0x40)]
    else if cp <= 0x10FFFF then
      [Byte(0xF0 + cp / 0x40000), Byte(0x80 + cp / 0x1000 % 0x40), Byte(0x80 + cp / 0x40 % 0x40), Byte(0x80 + cp % 0x40)]
    else ""
  }

  /** The character of a short escape. */
  function ShortEscape(c: char): (r: string) {
    if c == '"' || c == '/' || c == '\\' then [c]
    else if c == 'b' then "\U{8}"
    else if c == 'f' then "\U{C}"
    else if c == 'n' then "\n"
    else if c == 'r' then "\r"
    else if c == 't' then "\t"
    else ""
  }

  function Prepend(d: string, r: Result<string>): Result<string> {
    match r
    case Ok(s) => Ok(d + s)
    case Err(m) => Err(m)
  }

  /** The characters between the quotes, decoded. */
  function Unescape(s: string): (r: Result<string>)
    decreases |s|
  {
    if s == "" || s[0] == '"' then Ok("")
    else if s[0] != '\\' then Prepend([s[0]], Unescape(s[1..]))
    else if |s| == 1 then Err(EmptyEscape)
    else if s[1] == 'u' then
      match CodePoint(s[2..])
      case Err(m) => Err(m)
      case Ok((cp, rest)) => Prepend(CodePointToUTF8(cp), Unescape(rest))
    else if ShortEscape(s[1]) == "" then Err(BadEscape)
    else Prepend(ShortEscape(s[1]), Unescape(s[2..]))
  }

  function DecodeString(text: string): (r: Result<string>) {
    if |text| < 2 then Err(BadEscape) else Unescape(text[1..|text| - 1])
  }

  // ----- Numbers -----

  datatype Digits = Whole(value: nat) | TooBig | NotDigit

  /** The loop of decodeNumber over the digits. */
  function ReadDigits(s: string, value: nat, threshold: nat): (r: Digits) {
    if s == "" then Whole(value)
    else if !IsDigit(s[0]) then NotDigit
    else if value >= threshold then TooBig
    else ReadDigits(s[1..], value * 10 + (s[0] as int - 48), threshold)
  }

  function Threshold(isNegative: bool): nat {
    (if isNegative then MAX_INT + 1 else MAX_UINT) / 10
  }

  predicate LooksDouble(s: string) {
    exists k :: 0 <= k < |s| && (s[k] == '.' || s[k] == 'e' || s[k] == 'E' || s[k] == '+' || (s[k] == '-' && k > 0))
  }

  /** What scanning a text for a double gives is not part of the model. */
  type Scanner = string -> Option<string>

  function DecodeDouble(s: string, scan: Scanner): Option<Value> {
    match scan(s)
    case None => None
    case Some(shown) => Some(Real(shown))
  }

  function Number(n: int): Value { if n <= MAX_INT then Int(n) else UInt(n) }

  function DecodeNumber(s: string, scan: Scanner): (r: Option<Value>) {
    if LooksDouble(s) then DecodeDouble(s, scan)
    else
      var isNegative := s != "" && s[0] == '-';
      match ReadDigits(if isNegative then s[1..] else s, 0, Threshold(isNegative))
      case NotDigit => None
      case TooBig => DecodeDouble(s, scan)
      case Whole(value) => Some(if isNegative then Int(0 - value) else Number(value))
  }

  // ----- Values -----

  datatype Features = Features(allowComments: bool, strictRoot: bool, scan: Scanner)

  /** What a read leaves: success, the tokens ahead, the value read into, and the errors added. */
  datatype Read = Read(ok: bool, rest: seq<Token>, node: Value, errors: seq<Message>)

  /** Behind the next token of the kind, or behind the end of the document. */
  function Recover(ts: seq<Token>, skipUntil: TokenType): (r: seq<Token>)
    ensures |r| <= |ts|
  {
    if Head(ts).kind == skipUntil || Head(ts).kind == tokenEndOfStream then Tail(ts) else Recover(Tail(ts), skipUntil)
  }

  function ReadValue(ts: seq<Token>, node: Value, f: Features): (r: Read)
    ensures |r.rest| <= |ts| && (r.ok ==> |r.rest| < |ts|)
    ensures r.ok <==> r.errors == []
    decreases |ts|, 2
  {
    var us := SkipCommentTokens(ts, f.allowComments);
    if Head(us).kind == tokenObjectBegin then ReadMembers(Tail(us), [], "", f)
    else if Head(us).kind == tokenArrayBegin then ReadArray(Tail(us), f)
    else ReadAtom(us, node, f)
  }

  /** A value of one token. */
  function ReadAtom(ts: seq<Token>, node: Value, f: Features): (r: Read)
    ensures r.rest == Tail(ts) && (r.ok ==> ts != [])
    ensures r.ok <==> r.errors == []
  {
    match Head(ts).kind
    case tokenNumber =>
      (match DecodeNumber(Head(ts).text, f.scan)
       case None => Read(false, Tail(ts), node, [NotANumber])
       case Some(v) => Read(true, Tail(ts), v, []))
    case tokenString =>
      (match DecodeString(Head(ts).text)
       case Err(m) => Read(false, Tail(ts), node, [m])
       case Ok(decoded) => Read(true, Tail(ts), Str(decoded), []))
    case tokenTrue => Read(true, Tail(ts), Bool(true), [])
    case tokenFalse => Read(true, Tail(ts), Bool(false), [])
    case tokenNull => Read(true, Tail(ts), Null, [])
    case _ => Read(false, Tail(ts), node, [ValueExpected])
  }

  /** The loop of readObject, with the members so far and the name read last. */
  function ReadMembers(ts: seq<Token>, members: seq<Member>, name: string, f: Features): (r: Read)
    ensures |r.rest| <= |ts| && (r.ok ==> |r.rest| < |ts|)
    ensures r.ok <==> r.errors == []
    decreases |ts|, 1
  {
    var us := PastComments(ts);
    if Head(us).kind == tokenObjectEnd && name == "" then Read(true, Tail(us), Obj(members), [])
    else if Head(us).kind != tokenString then
      Read(false, Recover(Tail(us), tokenObjectEnd), Obj(members), [MissingEnd])
    else match DecodeString(Head(us).text)
      case Err(m) => Read(false, Recover(Tail(us), tokenObjectEnd), Obj(members), [m])
      case Ok(key) => ReadMember(Tail(us), members, key, f)
  }

  /** One turn of that loop, behind the name. */
  function ReadMember(ts: seq<Token>, members: seq<Member>, name: string, f: Features): (r: Read)
    ensures |r.rest| <= |ts| && (r.ok ==> |r.rest| < |ts|)
    ensures r.ok <==> r.errors == []
    decreases |ts|, 1
  {
    if Head(ts).kind != tokenMemberSeparator then
      Read(false, Recover(Tail(ts), tokenObjectEnd), Obj(members), [MissingColon])
    else ReadMemberValue(Tail(ts), members, name, f)
  }

  function ReadMemberValue(ts: seq<Token>, members: seq<Member>, name: string, f: Features): (r: Read)
    ensures |r.rest| <= |ts| && (r.ok ==> |r.rest| < |ts|)
    ensures r.ok <==> r.errors == []
    decreases |ts|, 3
  {
    var r := ReadValue(ts, Lookup(members, CString(name)), f);
    var members' := Put(members, CString(name), r.node);
    if !r.ok then Read(false, Recover(r.rest, tokenObjectEnd), Obj(members'), r.errors)
    else ReadComma(r.rest, members', name, f)
  }

  /** The end of that turn, behind the value. */
  function ReadComma(ts: seq<Token>, members: seq<Member>, name: string, f: Features): (r: Read)
    ensures |r.rest| <= |ts| && (r.ok ==> |r.rest| < |ts|)
    ensures r.ok <==> r.errors == []
    decreases |ts|, 1
  {
    if Head(ts).kind != tokenObjectEnd && Head(ts).kind != tokenArraySeparator && Head(ts).kind != tokenComment then
      Read(false, Recover(Tail(ts), tokenObjectEnd), Obj(members), [MissingComma])
    else
      var us := PastComments(ts);
      if Head(us).kind == tokenObjectEnd then Read(true, Tail(us), Obj(members), [])
      else ReadMembers(Tail(us), members, name, f)
  }

  function ReadArray(ts: seq<Token>, f: Features): (r: Read)
    ensures |r.rest| <= |ts| && (r.ok ==> |r.rest| < |ts|)
    ensures r.ok <==> r.errors == []
    decreases |ts|, 4
  {
    if Head(ts).kind == tokenArrayEnd then Read(true, Tail(ts), Arr([]), []) else ReadItems(ts, [], f)
  }

  /** The loop of readArray. Any token that does not end the array separates its items. */
  function ReadItems(ts: seq<Token>, slots: seq<Slot>, f: Features): (r: Read)
    ensures |r.rest| <= |ts| && (r.ok ==> |r.rest| < |ts|)
    ensures r.ok <==> r.errors == []
    decreases |ts|, 3
  {
    var r := ReadValue(ts, Null, f);
    var slots' := slots + [Present(r.node)];
    if !r.ok then Read(false, Recover(r.rest, tokenArrayEnd), Arr(slots'), r.errors)
    else ReadSeparator(r.rest, slots', f)
  }

  function ReadSeparator(ts: seq<Token>, slots: seq<Slot>, f: Features): (r: Read)
    ensures |r.rest| <= |ts| && (r.ok ==> |r.rest| < |ts|)
    ensures r.ok <==> r.errors == []
    decreases |ts|, 4
  {
    var us := PastComments(ts);
    if Head(us).kind == tokenArrayEnd then Read(true, Tail(us), Arr(slots), []) else ReadItems(Tail(us), slots, f)
  }

  predicate IsRoot(v: Value) { v.Arr? || v.Obj? }

  /** False comes with an error and true without one, for every document. */
  function ParseTokens(ts: seq<Token>, root: Value, f: Features): (r: Read)
    ensures r.ok <==> r.errors == []
  {
    var r := ReadValue(ts, root, f);
    var rest := Tail(SkipCommentTokens(r.rest, f.allowComments));
    if f.strictRoot && !IsRoot(r.node) then Read(false, rest, r.node, r.errors + [NotARoot])
    else Read(r.ok, rest, r.node, r.errors)
  }

  function Parse(doc: string, root: Value, f: Features): (r: Read) { ParseTokens(Lexed(doc), root, f) }
}
