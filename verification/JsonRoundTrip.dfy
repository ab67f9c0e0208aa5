/** What the reader makes of a text that spells out a value, and of any text at all. */
module JsonRoundTrip {
  import opened Wrappers
  import opened Sequences
  import opened JsonValue
  import opened JsonText
  import opened JsonGrammar

  // ----- Tokens -----

  function Kind(l: Lexeme): TokenType {
    match l
    case ObjBegin => tokenObjectBegin
    case ObjEnd => tokenObjectEnd
    case ArrBegin => tokenArrayBegin
    case ArrEnd => tokenArrayEnd
    case Comma => tokenArraySeparator
    case Colon => tokenMemberSeparator
    case LNull => tokenNull
    case LTrue => tokenTrue
    case LFalse => tokenFalse
    case LString(_) => tokenString
    case LNumber(_) => tokenNumber
    case LReal(_) => tokenNumber
  }

  /** Escapes keep every quote inside the string. */
  lemma {:induction false} StringEndOfEscaped(s: string, rest: string)
    ensures StringEnd(Escaped(s) + "\"" + rest) == (true, rest)
  {
    if s == "" {
      assert Escaped(s) + "\"" + rest == "\"" + rest;
    } else {
      StringEndOfEscaped(s[1..], rest);
      var more := Escaped(s[1..]) + "\"" + rest;
      assert Escaped(s) + "\"" + rest == Escape(s[0]) + more;
      StringEndPastEscape(s[0], more);
    }
  }

  lemma StringEndPastEscape(c: char, more: string)
    ensures StringEnd(Escape(c) + more) == StringEnd(more)
  {
    var e := Escape(c);
    if |e| == 1 {
      assert (e + more)[1..] == more;
    } else if |e| == 2 {
      assert (e + more)[0] == '\\' && (e + more)[2..] == more;
    } else {
      assert e[0] == '\\' && |e| == 6;
      assert (e + more)[2..] == e[2..] + more;
      SkipsPlain(e[2..], more);
    }
  }

  lemma {:induction false} SkipsPlain(a: string, more: string)
    requires forall c :: c in a ==> c != '"' && c != '\\'
    ensures StringEnd(a + more) == StringEnd(more)
  {
    if a == "" {
      assert a + more == more;
    } else {
      assert (a + more)[0] == a[0] && (a + more)[1..] == a[1..] + more;
      assert a[0] in a && forall c :: c in a[1..] ==> c in a;
      SkipsPlain(a[1..], more);
    }
  }

  lemma {:induction false} NumberEndPast(a: string, rest: string)
    requires (forall c :: c in a ==> IsNumberChar(c)) && NoNumberAhead(rest)
    ensures NumberEnd(a + rest) == rest
  {
    if a == "" {
      assert a + rest == rest;
    } else {
      assert (a + rest)[0] == a[0] && (a + rest)[1..] == a[1..] + rest;
      assert a[0] in a && forall c :: c in a[1..] ==> c in a;
      NumberEndPast(a[1..], rest);
    }
  }

  lemma NumberText(n: int)
    ensures var s := Text(LNumber(n));
            && s != ""
            && (if n < 0 then s[0] == '-' && s[1..] == Decimal(-n) else IsDigit(s[0]) && s == Decimal(n))
            && (forall c :: c in s[1..] ==> IsDigit(c))
  {
    var s := Text(LNumber(n));
    if n >= 0 {
      assert s[0] in Decimal(n);
      forall c | c in s[1..] ensures IsDigit(c) {
        assert c in Decimal(n);
      }
    }
  }

  lemma ScanPunct(l: Lexeme, rest: string)
    requires l.ObjBegin? || l.ObjEnd? || l.ArrBegin? || l.ArrEnd? || l.Comma? || l.Colon?
    ensures Scan(Text(l)[0], Text(l)[1..] + rest) == (Kind(l), rest)
  {
    assert Text(l)[1..] + rest == rest;
  }

  lemma ScanWord(l: Lexeme, rest: string)
    requires l.LNull? || l.LTrue? || l.LFalse?
    ensures Scan(Text(l)[0], Text(l)[1..] + rest) == (Kind(l), rest)
  {
    var w := Text(l)[1..];
    assert (w + rest)[|w|..] == rest && w <= w + rest;
    assert w == if l.LNull? then "ull" else if l.LTrue? then "rue" else "alse";
  }

  lemma ScanString(s: string, rest: string)
    ensures Scan('"', Quoted(s)[1..] + rest) == (tokenString, rest)
  {
    assert Quoted(s)[1..] + rest == Escaped(s) + "\"" + rest;
    StringEndOfEscaped(s, rest);
  }

  lemma ScanNumber(n: int, rest: string)
    requires NoNumberAhead(rest)
    ensures Text(LNumber(n)) != ""
    ensures Scan(Text(LNumber(n))[0], Text(LNumber(n))[1..] + rest) == (tokenNumber, rest)
  {
    NumberText(n);
    NumberEndPast(Text(LNumber(n))[1..], rest);
  }

  lemma ScanReal(s: string, rest: string)
    requires NumberLike(s) && NoNumberAhead(rest)
    ensures Scan(s[0], s[1..] + rest) == (tokenNumber, rest)
  {
    NumberEndPast(s[1..], rest);
  }

  lemma ScanSpelled(l: Lexeme, rest: string)
    requires Scans(l) && (IsNumber(l) ==> NoNumberAhead(rest))
    ensures Text(l) != "" && Scan(Text(l)[0], Text(l)[1..] + rest) == (Kind(l), rest)
  {
    match l
    case LString(s) => ScanString(s, rest);
    case LNumber(n) => ScanNumber(n, rest);
    case LReal(shown) => ScanReal(shown, rest);
    case LNull => ScanWord(l, rest);
    case LTrue => ScanWord(l, rest);
    case LFalse => ScanWord(l, rest);
    case _ => ScanPunct(l, rest);
  }

  /** The token of a lexeme. */
  function TokenOf(l: Lexeme): Token { Token(Kind(l), Text(l)) }

  function TokensOf(x: seq<Lexeme>): (ts: seq<Token>) {
    if x == [] then [] else [TokenOf(x[0])] + TokensOf(x[1..])
  }

  /** The reader finds the lexeme that a text starts with. */
  lemma TokenSpelled(s: string, l: Lexeme)
    requires Starts(s, l) && Scans(l)
    ensures SkipSpaces(s) != "" && ReadToken(s) == (TokenOf(l), After(s, l))
  {
    ScanSpelled(l, After(s, l));
    Sliced(SkipSpaces(s), Text(l), Kind(l), After(s, l));
  }

  lemma Sliced(u: string, text: string, kind: TokenType, rest: string)
    requires text != "" && text <= u && rest == u[|text|..] && Scan(text[0], text[1..] + rest) == (kind, rest)
    ensures Scan(u[0], u[1..]) == (kind, rest) && u[..|u| - |rest|] == text
  {
    assert u[0] == text[0] && u[1..] == text[1..] + rest;
  }

  ghost predicate AllScan(x: seq<Lexeme>) { forall k :: 0 <= k < |x| ==> Scans(x[k]) }

  /** The tokens of a text that spells out lexemes are theirs. */
  lemma {:induction false} SpellsLexed(s: string, x: seq<Lexeme>)
    requires Spells(s, x) && AllScan(x)
    ensures Lexed(s) == TokensOf(x)
    decreases |x|
  {
    if x != [] {
      TokenSpelled(s, x[0]);
      SpellsLexed(After(s, x[0]), x[1..]);
    }
  }

  lemma TokensCons(l: Lexeme, rest: seq<Lexeme>)
    ensures TokensOf([l] + rest) == [TokenOf(l)] + TokensOf(rest)
    ensures Head(TokensOf([l] + rest)) == TokenOf(l) && Tail(TokensOf([l] + rest)) == TokensOf(rest)
  {
    assert ([l] + rest)[1..] == rest;
  }

  // ----- Strings and numbers -----

  lemma UnescapeEscape(c: char, more: string)
    requires c != NUL
    ensures Unescape(Escape(c) + more) == Prepend([c], Unescape(more))
  {
    var e := Escape(c);
    var s := e + more;
    if |e| == 1 {
      assert s[0] == c && s[1..] == more;
    } else if |e| == 2 {
      assert s[0] == '\\' && s[1] == e[1] && s[2..] == more && ShortEscape(e[1]) == [c];
    } else {
      var digits := ['0', '0', HexDigit(c as int / 16), HexDigit(c as int % 16)];
      assert e == "\\u" + digits;
      assert s[0] == '\\' && s[1] == 'u' && s[2..] == digits + more;
      HexOfControl(c, more);
    }
  }

  lemma HexOfControl(c: char, more: string)
    requires IsControl(c)
    ensures var digits := ['0', '0', HexDigit(c as int / 16), HexDigit(c as int % 16)];
            CodePoint(digits + more) == Ok((c as int, more)) && CodePointToUTF8(c as int) == [c]
  {
    var s := ['0', '0', HexDigit(c as int / 16), HexDigit(c as int % 16)] + more;
    assert s[0] == '0' && s[1] == '0' && s[2] == HexDigit(c as int / 16) && s[3] == HexDigit(c as int % 16);
    assert HexValue(HexDigit(c as int / 16)) == c as int / 16 && HexValue(HexDigit(c as int % 16)) == c as int % 16;
    assert Hex(s, 1) == Ok(0) && Hex(s, 2) == Ok(0) && Hex(s, 3) == Ok(c as int / 16);
    assert Hex(s, 4) == Ok(c as int);
    assert s[4..] == more;
  }

  lemma {:induction false} UnescapeEscaped(s: string)
    requires NUL !in s
    ensures Unescape(Escaped(s)) == Ok(s)
  {
    if s != "" {
      UnescapeEscape(s[0], Escaped(s[1..]));
      UnescapeEscaped(s[1..]);
      assert s == [s[0]] + s[1..];
    }
  }

  /** Decoding undoes quoting for every string without a NUL. */
  lemma QuotedDecodes(s: string)
    requires NUL !in s
    ensures DecodeString(Quoted(s)) == Ok(s)
  {
    UnescapeEscaped(s);
    assert Quoted(s)[1..|Quoted(s)| - 1] == Escaped(s);
  }

  lemma {:induction false} DigitsAppend(a: string, b: string, value: nat, threshold: nat)
    ensures ReadDigits(a + b, value, threshold)
         == match ReadDigits(a, value, threshold)
            case Whole(v) => ReadDigits(b, v, threshold)
            case other => other
  {
    if a == "" {
      assert a + b == b;
    } else {
      assert (a + b)[0] == a[0] && (a + b)[1..] == a[1..] + b;
      if IsDigit(a[0]) && value < threshold {
        DigitsAppend(a[1..], b, value * 10 + (a[0] as int - 48), threshold);
      }
    }
  }

  /** The digits of a number read back as the number exactly when it is below ten times the threshold. */
  lemma {:induction false} DecimalReads(n: nat, threshold: nat)
    requires threshold > 0
    ensures ReadDigits(Decimal(n), 0, threshold) == if n < 10 * threshold then Whole(n) else TooBig
  {
    var d := [Digit(n % 10)];
    if n < 10 {
      assert "" + d == d && d[1..] == "";
    } else {
      DecimalReads(n / 10, threshold);
      DigitsAppend(Decimal(n / 10), d, 0, threshold);
      assert d[1..] == "";
    }
  }

  predicate InRange(n: int) { -2147483639 <= n <= 4294967289 }

  lemma DigitsAreNotDouble(n: int)
    ensures !LooksDouble(Text(LNumber(n)))
  {
    NumberText(n);
    var s := Text(LNumber(n));
    forall k | 0 <= k < |s|
      ensures !(s[k] == '.' || s[k] == 'e' || s[k] == 'E' || s[k] == '+' || (s[k] == '-' && k > 0))
    {
      assert k > 0 ==> s[k] == s[1..][k - 1] && s[k] in s[1..];
    }
  }

  /** A printed integer comes back as an integer, the one printed, exactly in this range. */
  lemma IntegerDecodesIff(n: int, scan: Scanner)
    ensures Text(LNumber(n)) != ""
    ensures InRange(n) ==> DecodeNumber(Text(LNumber(n)), scan) == Some(Number(n))
    ensures !InRange(n) ==> DecodeNumber(Text(LNumber(n)), scan) == DecodeDouble(Text(LNumber(n)), scan)
  {
    NumberText(n);
    DigitsAreNotDouble(n);
    assert Threshold(true) == 214748364 && Threshold(false) == 429496729;
    if n < 0 {
      DecimalReads(-n, Threshold(true));
    } else {
      DecimalReads(n, Threshold(false));
    }
  }

  // ----- Values -----

  /** What a printed value reads back as: small unsigned integers are signed, absent array slots are null, and
      a string ends at its first NUL. */
  function Norm(v: Value): (r: Value)
    decreases v, 1, 0
  {
    match v
    case Int(i) => Number(i)
    case UInt(u) => Number(u)
    case Str(s) => Str(CString(s))
    case Arr(slots) => Arr(NormSlots(v, |slots|))
    case Obj(members) => Obj(NormMembers(v, |members|))
    case _ => v
  }

  function NormSlots(v: Value, n: nat): (r: seq<Slot>)
    requires v.Arr? && n <= |v.slots|
    ensures |r| == n
    decreases v, 0, n
  {
    if n == 0 then []
    else NormSlots(v, n - 1) + [Present(match v.slots[n - 1] case Absent => Null case Present(item) => Norm(item))]
  }

  function NormMembers(v: Value, n: nat): (r: seq<Member>)
    requires v.Obj? && n <= |v.members|
    ensures |r| == n && forall k :: 0 <= k < n ==> r[k].key == v.members[k].key
    decreases v, 0, n
  {
    if n == 0 then []
    else NormMembers(v, n - 1) + [Member(v.members[n - 1].key, Norm(v.members[n - 1].value))]
  }

  /** The members of every object are in the order of their keys, as a std::map keeps them. */
  ghost predicate Keyed(v: Value) {
    match v
    case Arr(slots) => forall k :: 0 <= k < |slots| && slots[k].Present? ==> Keyed(slots[k].value)
    case Obj(members) => Ordered(members) && forall k :: 0 <= k < |members| ==> Keyed(members[k].value)
    case _ => true
  }

  /** Every integer in it is in range, and every double is what scanning its text gives. */
  ghost predicate Faithful(v: Value, scan: Scanner) {
    match v
    case Int(i) => InRange(i)
    case UInt(u) => InRange(u)
    case Real(shown) => DecodeNumber(shown, scan) == Some(v)
    case Arr(slots) => forall k :: 0 <= k < |slots| && slots[k].Present? ==> Faithful(slots[k].value, scan)
    case Obj(members) => forall k :: 0 <= k < |members| ==> Faithful(members[k].value, scan)
    case _ => true
  }

  /** What reading the lexemes of a value gives; None is an error. The members of an object may come in any order
      and under repeated keys: each is put among those before it. */
  function Got(v: Value, scan: Scanner): (r: Option<Value>)
    decreases v, 1, 0
  {
    match v
    case Int(i) => DecodeNumber(Text(LNumber(i)), scan)
    case UInt(u) => DecodeNumber(Text(LNumber(u)), scan)
    case Real(shown) => DecodeNumber(shown, scan)
    case Str(s) => Some(Str(CString(s)))
    case Arr(slots) =>
      (match GotSlots(v, |slots|, scan) case None => None case Some(read) => Some(Arr(read)))
    case Obj(members) =>
      (match GotMembers(v, |members|, scan) case None => None case Some(read) => Some(Obj(read)))
    case _ => Some(v)
  }

  function GotSlots(v: Value, n: nat, scan: Scanner): (r: Option<seq<Slot>>)
    requires v.Arr? && n <= |v.slots|
    decreases v, 0, n
  {
    if n == 0 then Some([])
    else
      var item := match v.slots[n - 1] case Absent => Some(Null) case Present(item) => Got(item, scan);
      match GotSlots(v, n - 1, scan)
      case None => None
      case Some(slots) => if item.None? then None else Some(slots + [Present(item.value)])
  }

  function GotMembers(v: Value, n: nat, scan: Scanner): (r: Option<seq<Member>>)
    requires v.Obj? && n <= |v.members|
    decreases v, 0, n
  {
    if n == 0 then Some([])
    else
      var value := Got(v.members[n - 1].value, scan);
      match GotMembers(v, n - 1, scan)
      case None => None
      case Some(members) => if value.None? then None else Some(Put(members, CString(v.members[n - 1].key), value.value))
  }

  /** The read succeeds with this value and stops before the rest, or it fails. */
  ghost predicate Gives(r: Read, got: Option<Value>, rest: seq<Lexeme>) {
    match got
    case None => !r.ok
    case Some(v) => r == Read(true, TokensOf(rest), v, [])
  }

  lemma AtomRead(l: Lexeme, rest: seq<Lexeme>, node: Value, f: Features)
    requires l.LNull? || l.LTrue? || l.LFalse? || IsNumber(l) || (l.LString? && NUL !in l.s)
    ensures Gives(ReadValue(TokensOf([l] + rest), node, f), AtomOf(l, f.scan), rest)
  {
    TokensCons(l, rest);
    TokenRead([TokenOf(l)] + TokensOf(rest), l, rest, node, f);
    NoBracket([TokenOf(l)] + TokensOf(rest), node, f);
  }

  lemma NoBracket(ts: seq<Token>, node: Value, f: Features)
    requires Head(ts).kind != tokenComment && Head(ts).kind != tokenObjectBegin && Head(ts).kind != tokenArrayBegin
    ensures ReadValue(ts, node, f) == ReadAtom(ts, node, f)
  {
  }

  lemma TokenRead(ts: seq<Token>, l: Lexeme, rest: seq<Lexeme>, node: Value, f: Features)
    requires Head(ts) == TokenOf(l) && Tail(ts) == TokensOf(rest)
    requires l.LNull? || l.LTrue? || l.LFalse? || IsNumber(l) || (l.LString? && NUL !in l.s)
    ensures Gives(ReadAtom(ts, node, f), AtomOf(l, f.scan), rest)
  {
    if l.LString? {
      QuotedDecodes(l.s);
    }
  }

  function AtomOf(l: Lexeme, scan: Scanner): Option<Value> {
    match l
    case LNull => Some(Null)
    case LTrue => Some(Bool(true))
    case LFalse => Some(Bool(false))
    case LString(s) => Some(Str(s))
    case _ => DecodeNumber(Text(l), scan)
  }

  /** Reading the lexemes of a value gives what it gives, and on success stops right behind them. */
  lemma {:induction false} ReadEmitted(v: Value, rest: seq<Lexeme>, node: Value, f: Features)
    ensures Gives(ReadValue(TokensOf(Emit(v, rest)), node, f), Got(v, f.scan), rest)
    decreases v, 1, 0
  {
    match v
    case Arr(slots) =>
      TokensCons(ArrBegin, EmitItems(v, 0, [ArrEnd] + rest));
      ArrayEmitted(v, rest, f);
    case Obj(members) =>
      TokensCons(ObjBegin, EmitMembers(v, 0, [ObjEnd] + rest));
      ObjectEmitted(v, rest, f);
    case _ =>
      AtomEmitted(v, rest, node, f);
  }

  lemma AtomEmitted(v: Value, rest: seq<Lexeme>, node: Value, f: Features)
    requires !v.Arr? && !v.Obj?
    ensures Gives(ReadValue(TokensOf(Emit(v, rest)), node, f), Got(v, f.scan), rest)
  {
    AtomLexemeIs(v, rest, f.scan);
    AtomRead(AtomLexeme(v), rest, node, f);
  }

  function AtomLexeme(v: Value): Lexeme
    requires !v.Arr? && !v.Obj?
  {
    match v
    case Null => LNull
    case Int(i) => LNumber(i)
    case UInt(u) => LNumber(u)
    case Real(shown) => LReal(shown)
    case Bool(b) => if b then LTrue else LFalse
    case Str(t) => LString(CString(t))
  }

  lemma AtomLexemeIs(v: Value, rest: seq<Lexeme>, scan: Scanner)
    requires !v.Arr? && !v.Obj?
    ensures Emit(v, rest) == [AtomLexeme(v)] + rest && Got(v, scan) == AtomOf(AtomLexeme(v), scan)
  {
  }

  lemma {:induction false} ObjectEmitted(v: Value, rest: seq<Lexeme>, f: Features)
    requires v.Obj?
    ensures Gives(ReadMembers(TokensOf(EmitMembers(v, 0, [ObjEnd] + rest)), [], "", f), Got(v, f.scan), rest)
    decreases v, 0, |v.members| + 1
  {
    if v.members == [] {
      EmptyObject(f, rest);
    } else {
      MembersEmitted(v, 0, [], "", rest, f);
    }
  }

  lemma {:induction false} ArrayEmitted(v: Value, rest: seq<Lexeme>, f: Features)
    requires v.Arr?
    ensures Gives(ReadArray(TokensOf(EmitItems(v, 0, [ArrEnd] + rest)), f), Got(v, f.scan), rest)
    decreases v, 0, |v.slots| + 1
  {
    if v.slots == [] {
      TokensCons(ArrEnd, rest);
    } else {
      NoEmptyArray(v.slots[0], EmitItems(v, 1, [ArrEnd] + rest));
      ItemsEmitted(v, 0, [], rest, f);
    }
  }

  /** An item never starts with the bracket that would make the array look empty. */
  lemma NoEmptyArray(slot: Slot, rest: seq<Lexeme>)
    ensures EmitItem(slot, rest) != [] && EmitItem(slot, rest)[0] != ArrEnd
    ensures Head(TokensOf(EmitItem(slot, rest))).kind != tokenArrayEnd
  {
    if slot.Present? {
      FirstOfValue(slot.value, rest);
    }
    TokensCons(EmitItem(slot, rest)[0], EmitItem(slot, rest)[1..]);
  }

  lemma FirstOfValue(v: Value, rest: seq<Lexeme>)
    ensures Emit(v, rest) != [] && Emit(v, rest)[0] != ArrEnd
  {
  }

  lemma SeparatorRead(slots: seq<Slot>, f: Features, l: Lexeme, rest: seq<Lexeme>)
    requires l == ArrEnd || l == Comma
    ensures ReadSeparator(TokensOf([l] + rest), slots, f)
         == if l == ArrEnd then Read(true, TokensOf(rest), Arr(slots), []) else ReadItems(TokensOf(rest), slots, f)
  {
    TokensCons(l, rest);
  }

  /** One turn of the loop of readArray. */
  lemma ItemRead(ts: seq<Token>, slots: seq<Slot>, got: Option<Value>, f: Features, l: Lexeme, rest: seq<Lexeme>)
    requires Gives(ReadValue(ts, Null, f), got, [l] + rest) && (l == ArrEnd || l == Comma)
    ensures match got
            case None => !ReadItems(ts, slots, f).ok
            case Some(item) =>
              ReadItems(ts, slots, f)
              == if l == ArrEnd then Read(true, TokensOf(rest), Arr(slots + [Present(item)]), [])
                 else ReadItems(TokensOf(rest), slots + [Present(item)], f)
  {
    if got.Some? {
      SeparatorRead(slots + [Present(got.value)], f, l, rest);
    }
  }

  function GotItem(slot: Slot, scan: Scanner): Option<Value> {
    match slot
    case Absent => Some(Null)
    case Present(item) => Got(item, scan)
  }

  lemma {:induction false} SlotsFail(v: Value, k: nat, n: nat, scan: Scanner)
    requires v.Arr? && k <= n <= |v.slots| && GotSlots(v, k, scan).None?
    ensures GotSlots(v, n, scan).None?
  {
    if k < n {
      SlotsFail(v, k, n - 1, scan);
    }
  }

  lemma NextSlot(v: Value, k: nat, slots: seq<Slot>, scan: Scanner)
    requires v.Arr? && k < |v.slots| && GotSlots(v, k, scan) == Some(slots)
    ensures GotSlots(v, k + 1, scan)
         == match GotItem(v.slots[k], scan)
            case None => None
            case Some(item) => Some(slots + [Present(item)])
  {
  }

  /** The items from the k-th on, behind the ones before it, give the array. */
  ghost predicate ItemsGive(v: Value, k: nat, slots: seq<Slot>, rest: seq<Lexeme>, f: Features)
    requires v.Arr? && k < |v.slots|
  {
    Gives(ReadItems(TokensOf(ItemOn(v, k, [ArrEnd] + rest)), slots, f), Got(v, f.scan), rest)
  }

  lemma ArrayGot(v: Value, scan: Scanner)
    requires v.Arr?
    ensures Got(v, scan) == match GotSlots(v, |v.slots|, scan) case None => None case Some(read) => Some(Arr(read))
  {
  }

  lemma LastItemGives(v: Value, k: nat, slots: seq<Slot>, rest: seq<Lexeme>, f: Features)
    requires v.Arr? && k + 1 == |v.slots| && GotSlots(v, k, f.scan) == Some(slots)
    requires Gives(ReadValue(TokensOf(ItemOn(v, k, [ArrEnd] + rest)), Null, f), GotItem(v.slots[k], f.scan), [ArrEnd] + rest)
    ensures ItemsGive(v, k, slots, rest, f)
  {
    NextSlot(v, k, slots, f.scan);
    ItemRead(TokensOf(ItemOn(v, k, [ArrEnd] + rest)), slots, GotItem(v.slots[k], f.scan), f, ArrEnd, rest);
    ArrayGot(v, f.scan);
  }

  lemma NextItemGives(v: Value, k: nat, slots: seq<Slot>, rest: seq<Lexeme>, f: Features)
    requires v.Arr? && k + 1 < |v.slots| && GotSlots(v, k, f.scan) == Some(slots)
    requires var more := [Comma] + ItemOn(v, k + 1, [ArrEnd] + rest);
             Gives(ReadValue(TokensOf(ItemOn(v, k, [ArrEnd] + rest)), Null, f), GotItem(v.slots[k], f.scan), more)
    requires var read := GotSlots(v, k + 1, f.scan);
             read.Some? ==> ItemsGive(v, k + 1, read.value, rest, f)
    ensures ItemsGive(v, k, slots, rest, f)
  {
    var got := GotItem(v.slots[k], f.scan);
    NextSlot(v, k, slots, f.scan);
    ItemRead(TokensOf(ItemOn(v, k, [ArrEnd] + rest)), slots, got, f, Comma, ItemOn(v, k + 1, [ArrEnd] + rest));
    if got.None? {
      SlotsFail(v, k + 1, |v.slots|, f.scan);
      ArrayGot(v, f.scan);
    }
  }

  lemma {:induction false} ItemsEmitted(v: Value, k: nat, slots: seq<Slot>, rest: seq<Lexeme>, f: Features)
    requires v.Arr? && k < |v.slots| && GotSlots(v, k, f.scan) == Some(slots)
    ensures ItemsGive(v, k, slots, rest, f)
    decreases v, 0, |v.slots| - k
  {
    ItemEmitted(v.slots[k], EmitItems(v, k + 1, [ArrEnd] + rest), f);
    if k + 1 == |v.slots| {
      LastItemGives(v, k, slots, rest, f);
    } else {
      var read := GotSlots(v, k + 1, f.scan);
      if read.Some? {
        ItemsEmitted(v, k + 1, read.value, rest, f);
      }
      NextItemGives(v, k, slots, rest, f);
    }
  }

  lemma {:induction false} ItemEmitted(slot: Slot, more: seq<Lexeme>, f: Features)
    ensures Gives(ReadValue(TokensOf(EmitItem(slot, more)), Null, f), GotItem(slot, f.scan), more)
    decreases slot, 2, 0
  {
    match slot
    case Absent => AtomRead(LNull, more, Null, f);
    case Present(item) => ReadEmitted(item, more, Null, f);
  }

  /** The lexemes from an item on. */
  function ItemOn(v: Value, k: nat, rest: seq<Lexeme>): seq<Lexeme>
    requires v.Arr? && k < |v.slots|
  {
    EmitItem(v.slots[k], EmitItems(v, k + 1, rest))
  }

  /** The name of a member and the colon; then its value is read into what is under the name. */
  lemma NameRead(members: seq<Member>, name: string, key: string, value: seq<Lexeme>, f: Features,
                 got: Option<Value>, more: seq<Lexeme>)
    requires NUL !in key && Gives(ReadValue(TokensOf(value), Lookup(members, key), f), got, more)
    ensures var r := ReadMembers(TokensOf([LString(key)] + ([Colon] + value)), members, name, f);
            match got
            case None => !r.ok
            case Some(v) => r == ReadComma(TokensOf(more), Put(members, key, v), key, f)
  {
    TokensCons(LString(key), [Colon] + value);
    QuotedDecodes(key);
    ColonRead(members, key, value, f, got, more);
  }

  lemma ColonRead(members: seq<Member>, key: string, value: seq<Lexeme>, f: Features,
                  got: Option<Value>, more: seq<Lexeme>)
    requires NUL !in key && Gives(ReadValue(TokensOf(value), Lookup(members, key), f), got, more)
    ensures var r := ReadMember(TokensOf([Colon] + value), members, key, f);
            match got
            case None => !r.ok
            case Some(v) => r == ReadComma(TokensOf(more), Put(members, key, v), key, f)
  {
    TokensCons(Colon, value);
    assert CString(key) == key;
  }

  lemma CommaRead(members: seq<Member>, name: string, f: Features, l: Lexeme, rest: seq<Lexeme>)
    requires l == ObjEnd || l == Comma
    ensures ReadComma(TokensOf([l] + rest), members, name, f)
         == if l == ObjEnd then Read(true, TokensOf(rest), Obj(members), [])
            else ReadMembers(TokensOf(rest), members, name, f)
  {
    TokensCons(l, rest);
  }

  lemma EmptyObject(f: Features, rest: seq<Lexeme>)
    ensures ReadMembers(TokensOf([ObjEnd] + rest), [], "", f) == Read(true, TokensOf(rest), Obj([]), [])
  {
    TokensCons(ObjEnd, rest);
  }

  /** One turn of the loop of readObject. */
  lemma MemberRead(members: seq<Member>, name: string, key: string, value: seq<Lexeme>, f: Features,
                   got: Option<Value>, l: Lexeme, rest: seq<Lexeme>)
    requires NUL !in key && (l == ObjEnd || l == Comma)
    requires Gives(ReadValue(TokensOf(value), Lookup(members, key), f), got, [l] + rest)
    ensures var r := ReadMembers(TokensOf([LString(key)] + ([Colon] + value)), members, name, f);
            match got
            case None => !r.ok
            case Some(v) =>
              var members' := Put(members, key, v);
              r == if l == ObjEnd then Read(true, TokensOf(rest), Obj(members'), [])
                   else ReadMembers(TokensOf(rest), members', key, f)
  {
    NameRead(members, name, key, value, f, got, [l] + rest);
    if got.Some? {
      CommaRead(Put(members, key, got.value), key, f, l, rest);
    }
  }

  /** The lexemes from a member on. */
  function MemberOn(v: Value, k: nat, rest: seq<Lexeme>): seq<Lexeme>
    requires v.Obj? && k < |v.members|
  {
    EmitMember(v.members[k], EmitMembers(v, k + 1, rest))
  }

  lemma {:induction false} MembersFail(v: Value, k: nat, n: nat, scan: Scanner)
    requires v.Obj? && k <= n <= |v.members| && GotMembers(v, k, scan).None?
    ensures GotMembers(v, n, scan).None?
  {
    if k < n {
      MembersFail(v, k, n - 1, scan);
    }
  }

  /** The members from the k-th on, behind the ones before it, give the object. */
  ghost predicate MembersGive(v: Value, k: nat, members: seq<Member>, name: string, rest: seq<Lexeme>, f: Features)
    requires v.Obj? && k < |v.members|
  {
    Gives(ReadMembers(TokensOf(MemberOn(v, k, [ObjEnd] + rest)), members, name, f), Got(v, f.scan), rest)
  }

  /** The value of the k-th member is read into whatever is under its key. */
  ghost predicate ValueGives(v: Value, k: nat, members: seq<Member>, rest: seq<Lexeme>, f: Features)
    requires v.Obj? && k < |v.members|
  {
    var m, more := v.members[k], EmitMembers(v, k + 1, [ObjEnd] + rest);
    Gives(ReadValue(TokensOf(Emit(m.value, more)), Lookup(members, CString(m.key)), f), Got(m.value, f.scan), more)
  }

  lemma LastMemberGives(v: Value, k: nat, members: seq<Member>, name: string, rest: seq<Lexeme>, f: Features)
    requires v.Obj? && k + 1 == |v.members| && GotMembers(v, k, f.scan) == Some(members)
    requires ValueGives(v, k, members, rest, f)
    ensures MembersGive(v, k, members, name, rest, f)
  {
    var m, more, got := v.members[k], EmitMembers(v, k + 1, [ObjEnd] + rest), Got(v.members[k].value, f.scan);
    assert more == [ObjEnd] + rest;
    MemberRead(members, name, CString(m.key), Emit(m.value, more), f, got, ObjEnd, rest);
    NextMemberGot(v, k, members, f.scan);
    ObjectGot(v, f.scan);
  }

  lemma ObjectGot(v: Value, scan: Scanner)
    requires v.Obj?
    ensures Got(v, scan) == match GotMembers(v, |v.members|, scan) case None => None case Some(read) => Some(Obj(read))
  {
  }

  lemma NextMemberGives(v: Value, k: nat, members: seq<Member>, name: string, rest: seq<Lexeme>, f: Features)
    requires v.Obj? && k + 1 < |v.members| && GotMembers(v, k, f.scan) == Some(members)
    requires ValueGives(v, k, members, rest, f)
    requires var read := GotMembers(v, k + 1, f.scan);
             read.Some? ==> MembersGive(v, k + 1, read.value, CString(v.members[k].key), rest, f)
    ensures MembersGive(v, k, members, name, rest, f)
  {
    var m, more, got := v.members[k], EmitMembers(v, k + 1, [ObjEnd] + rest), Got(v.members[k].value, f.scan);
    assert more == [Comma] + MemberOn(v, k + 1, [ObjEnd] + rest);
    MemberRead(members, name, CString(m.key), Emit(m.value, more), f, got, Comma, MemberOn(v, k + 1, [ObjEnd] + rest));
    NextMemberGot(v, k, members, f.scan);
    if got.None? {
      MembersFail(v, k + 1, |v.members|, f.scan);
      ObjectGot(v, f.scan);
    }
  }

  lemma NextMemberGot(v: Value, k: nat, members: seq<Member>, scan: Scanner)
    requires v.Obj? && k < |v.members| && GotMembers(v, k, scan) == Some(members)
    ensures var m := v.members[k];
            var got := Got(m.value, scan);
            GotMembers(v, k + 1, scan) == if got.None? then None else Some(Put(members, CString(m.key), got.value))
  {
  }

  lemma {:induction false} MembersEmitted(
      v: Value, k: nat, members: seq<Member>, name: string, rest: seq<Lexeme>, f: Features)
    requires v.Obj? && k < |v.members| && GotMembers(v, k, f.scan) == Some(members)
    ensures MembersGive(v, k, members, name, rest, f)
    decreases v, 0, |v.members| - k
  {
    var m := v.members[k];
    ReadEmitted(m.value, EmitMembers(v, k + 1, [ObjEnd] + rest), Lookup(members, CString(m.key)), f);
    if k + 1 == |v.members| {
      LastMemberGives(v, k, members, name, rest, f);
    } else {
      var read := GotMembers(v, k + 1, f.scan);
      if read.Some? {
        MembersEmitted(v, k + 1, read.value, CString(m.key), rest, f);
      }
      NextMemberGives(v, k, members, name, rest, f);
    }
  }

  /** Each lexeme of a value is scanned as one token. */
  lemma {:induction false} EmitsScan(v: Value, rest: seq<Lexeme>)
    requires Shown(v) && AllScan(rest)
    ensures AllScan(Emit(v, rest))
    decreases v, 1, 0
  {
    match v
    case Arr(slots) => ItemsScan(v, 0, [ArrEnd] + rest);
    case Obj(members) => MembersScan(v, 0, [ObjEnd] + rest);
    case _ =>
  }

  lemma {:induction false} ItemsScan(v: Value, k: nat, rest: seq<Lexeme>)
    requires v.Arr? && Shown(v) && k <= |v.slots| && AllScan(rest)
    ensures AllScan(EmitItems(v, k, rest))
    decreases v, 0, |v.slots| - k
  {
    if k < |v.slots| {
      ItemsScan(v, k + 1, rest);
      if v.slots[k].Present? {
        EmitsScan(v.slots[k].value, EmitItems(v, k + 1, rest));
      }
    }
  }

  lemma {:induction false} MembersScan(v: Value, k: nat, rest: seq<Lexeme>)
    requires v.Obj? && Shown(v) && k <= |v.members| && AllScan(rest)
    ensures AllScan(EmitMembers(v, k, rest))
    decreases v, 0, |v.members| - k
  {
    if k < |v.members| {
      MembersScan(v, k + 1, rest);
      EmitsScan(v.members[k].value, EmitMembers(v, k + 1, rest));
    }
  }

  // ----- When the value is restored -----

  lemma {:induction false} GotSlotAt(v: Value, n: nat, k: nat, scan: Scanner)
    requires v.Arr? && k < n <= |v.slots| && GotSlots(v, n, scan).Some?
    ensures |GotSlots(v, n, scan).value| == n
    ensures GotItem(v.slots[k], scan).Some?
    ensures GotSlots(v, n, scan).value[k] == Present(GotItem(v.slots[k], scan).value)
  {
    if k + 1 < n {
      GotSlotAt(v, n - 1, k, scan);
    } else if n > 1 {
      GotSlotAt(v, n - 1, 0, scan);
    }
  }

  /** Members whose keys are in order stay where they are. */
  lemma {:induction false} GotInPlace(v: Value, n: nat, scan: Scanner)
    requires v.Obj? && Ordered(v.members) && n <= |v.members| && GotMembers(v, n, scan).Some?
    ensures InPlace(v, n, GotMembers(v, n, scan).value, scan)
  {
    if n > 0 {
      GotInPlace(v, n - 1, scan);
      OneMoreInPlace(v, n - 1, GotMembers(v, n - 1, scan).value, scan);
    }
  }

  ghost predicate InPlace(v: Value, n: nat, ms: seq<Member>, scan: Scanner)
    requires v.Obj? && n <= |v.members|
  {
    && |ms| == n
    && forall k :: 0 <= k < n ==>
         && Got(v.members[k].value, scan).Some?
         && ms[k] == Member(v.members[k].key, Got(v.members[k].value, scan).value)
  }

  lemma OneMoreInPlace(v: Value, n: nat, ms: seq<Member>, scan: Scanner)
    requires v.Obj? && Ordered(v.members) && n < |v.members| && InPlace(v, n, ms, scan)
    requires Got(v.members[n].value, scan).Some?
    ensures InPlace(v, n + 1, Put(ms, CString(v.members[n].key), Got(v.members[n].value, scan).value), scan)
  {
    LastInOrder(v, n, ms);
    PutLast(ms, v.members[n].key, Got(v.members[n].value, scan).value);
  }

  lemma LastInOrder(v: Value, n: nat, ms: seq<Member>)
    requires v.Obj? && Ordered(v.members) && |ms| == n < |v.members|
    requires forall k :: 0 <= k < n ==> ms[k].key == v.members[k].key
    ensures CString(v.members[n].key) == v.members[n].key
    ensures forall k :: 0 <= k < n ==> Less(ms[k].key, v.members[n].key)
  {
  }

  lemma {:induction false} SlotsRestored(v: Value, n: nat, scan: Scanner)
    requires v.Arr? && n <= |v.slots|
    requires forall k :: 0 <= k < n ==> GotItem(v.slots[k], scan) == Some(Norm(Item(v.slots[k])))
    ensures GotSlots(v, n, scan) == Some(NormSlots(v, n))
  {
    if n > 0 {
      SlotsRestored(v, n - 1, scan);
    }
  }

  lemma {:induction false} MembersRestored(v: Value, n: nat, scan: Scanner)
    requires v.Obj? && Ordered(v.members) && n <= |v.members|
    requires forall k :: 0 <= k < n ==> Got(v.members[k].value, scan) == Some(Norm(v.members[k].value))
    ensures GotMembers(v, n, scan) == Some(NormMembers(v, n))
  {
    if n > 0 {
      var m := v.members[n - 1];
      MembersRestored(v, n - 1, scan);
      LastInOrder(v, n - 1, NormMembers(v, n - 1));
      PutLast(NormMembers(v, n - 1), m.key, Norm(m.value));
    }
  }

  /** Reading gives the value back exactly when every number in it survives. */
  lemma {:induction false} GotIsNormIff(v: Value, scan: Scanner)
    requires Keyed(v)
    ensures Got(v, scan) == Some(Norm(v)) <==> Faithful(v, scan)
    decreases v
  {
    match v
    case Int(i) => IntegerDecodesIff(i, scan);
    case UInt(u) => IntegerDecodesIff(u, scan);
    case Arr(slots) =>
      forall k | 0 <= k < |slots|
        ensures GotItem(slots[k], scan) == Some(Norm(Item(slots[k])))
           <==> (slots[k].Present? ==> Faithful(slots[k].value, scan))
      {
        if slots[k].Present? {
          GotIsNormIff(slots[k].value, scan);
        }
      }
      ArrayIsNormIff(v, scan);
    case Obj(members) =>
      forall k | 0 <= k < |members|
        ensures Got(members[k].value, scan) == Some(Norm(members[k].value)) <==> Faithful(members[k].value, scan)
      {
        GotIsNormIff(members[k].value, scan);
      }
      ObjectIsNormIff(v, scan);
    case _ =>
  }

  lemma ArrayIsNormIff(v: Value, scan: Scanner)
    requires v.Arr?
    ensures Got(v, scan) == Some(Norm(v))
       <==> forall k :: 0 <= k < |v.slots| ==> GotItem(v.slots[k], scan) == Some(Norm(Item(v.slots[k])))
  {
    if Got(v, scan) == Some(Norm(v)) {
      forall k | 0 <= k < |v.slots| ensures GotItem(v.slots[k], scan) == Some(Norm(Item(v.slots[k]))) {
        GotSlotAt(v, |v.slots|, k, scan);
        NormSlotAt(v, |v.slots|, k);
      }
    }
    if forall k :: 0 <= k < |v.slots| ==> GotItem(v.slots[k], scan) == Some(Norm(Item(v.slots[k]))) {
      SlotsRestored(v, |v.slots|, scan);
    }
  }

  lemma ObjectIsNormIff(v: Value, scan: Scanner)
    requires v.Obj? && Ordered(v.members)
    ensures Got(v, scan) == Some(Norm(v))
       <==> forall k :: 0 <= k < |v.members| ==> Got(v.members[k].value, scan) == Some(Norm(v.members[k].value))
  {
    if Got(v, scan) == Some(Norm(v)) {
      forall k | 0 <= k < |v.members| ensures Got(v.members[k].value, scan) == Some(Norm(v.members[k].value)) {
        GotInPlace(v, |v.members|, scan);
        NormMemberAt(v, |v.members|, k);
      }
    }
    if forall k :: 0 <= k < |v.members| ==> Got(v.members[k].value, scan) == Some(Norm(v.members[k].value)) {
      MembersRestored(v, |v.members|, scan);
    }
  }

  /** What parsing such a text gives: the value read, or an error. */
  lemma ParseEmitted(doc: string, v: Value, root: Value, f: Features)
    requires Shown(v) && Spells(doc, Tokens(v))
    ensures var r := Parse(doc, root, f);
            match Got(v, f.scan)
            case None => !r.ok
            case Some(w) => r.node == w && (r.ok <==> (f.strictRoot ==> IsRoot(w)))
  {
    EmitsScan(v, []);
    SpellsLexed(doc, Tokens(v));
    ReadEmitted(v, [], root, f);
    RootRead(TokensOf(Tokens(v)), Got(v, f.scan), root, f);
  }

  lemma RootRead(ts: seq<Token>, got: Option<Value>, root: Value, f: Features)
    requires Gives(ReadValue(ts, root, f), got, [])
    ensures var r := ParseTokens(ts, root, f);
            match got
            case None => !r.ok
            case Some(w) => r.node == w && (r.ok <==> (f.strictRoot ==> IsRoot(w)))
  {
  }

  lemma NormKeepsRoot(v: Value)
    ensures IsRoot(Norm(v)) <==> IsRoot(v)
  {
  }

  /** Parsing any text that spells out a value restores the value exactly when its integers are from
      -2147483639 to 4294967289 and its doubles survive, and a strict reader also wants an array or object. */
  lemma ParseSpelledIff(doc: string, v: Value, root: Value, f: Features)
    requires Shown(v) && Keyed(v) && Spells(doc, Tokens(v))
    ensures var r := Parse(doc, root, f);
            && (r.ok && r.node == Norm(v) <==> Faithful(v, f.scan) && (f.strictRoot ==> IsRoot(v)))
            && (Faithful(v, f.scan) ==> r.node == Norm(v))
  {
    ParseEmitted(doc, v, root, f);
    GotIsNormIff(v, f.scan);
    NormKeepsRoot(v);
  }

  // ----- Members in any order -----

  /** The value read last under the key. */
  function LastUnder(v: Value, n: nat, key: string, scan: Scanner): Option<Value>
    requires v.Obj? && n <= |v.members|
  {
    if n == 0 then None
    else if CString(v.members[n - 1].key) == key then Got(v.members[n - 1].value, scan)
    else LastUnder(v, n - 1, key, scan)
  }

  /** Under the key there is one member, with this value, or none. */
  ghost predicate HoldsOne(ms: seq<Member>, key: string, value: Option<Value>) {
    && (forall m :: m in ms && m.key == key ==> value == Some(m.value))
    && (value.Some? ==> Member(key, value.value) in ms && Lookup(ms, key) == value.value)
  }

  lemma PutHoldsOne(ms: seq<Member>, key: string, value: Option<Value>, put: string, v: Value)
    requires Ordered(ms) && NUL !in put && HoldsOne(ms, key, value)
    ensures Ordered(Put(ms, put, v)) && HoldsOne(Put(ms, put, v), key, if put == key then Some(v) else value)
  {
    PutKeepsOrder(ms, put, v);
  }

  /** Under every key of the document there is one member, with the value read last, in the order of the keys. */
  lemma {:induction false} LastMemberWins(v: Value, n: nat, key: string, scan: Scanner)
    requires v.Obj? && n <= |v.members| && GotMembers(v, n, scan).Some?
    ensures Ordered(GotMembers(v, n, scan).value)
    ensures HoldsOne(GotMembers(v, n, scan).value, key, LastUnder(v, n, key, scan))
  {
    if n > 0 {
      var m := v.members[n - 1];
      LastMemberWins(v, n - 1, key, scan);
      PutHoldsOne(GotMembers(v, n - 1, scan).value, key, LastUnder(v, n - 1, key, scan), CString(m.key), Got(m.value, scan).value);
    }
  }

  lemma {:induction false} SomeUnder(v: Value, n: nat, key: string, scan: Scanner)
    requires v.Obj? && n <= |v.members| && GotMembers(v, n, scan).Some?
    ensures LastUnder(v, n, key, scan).Some? <==> exists k :: 0 <= k < n && CString(v.members[k].key) == key
  {
    if n > 0 {
      SomeUnder(v, n - 1, key, scan);
      assert GotMembers(v, n - 1, scan).Some? && Got(v.members[n - 1].value, scan).Some?;
      if CString(v.members[n - 1].key) != key && LastUnder(v, n, key, scan).Some? {
        var k :| 0 <= k < n - 1 && CString(v.members[k].key) == key;
      }
    }
  }

  /** An object that is parsed successfully, its members in any order and under repeated keys: it holds exactly the
      keys of the document, in their order, each with the value that comes last. */
  lemma ParsedMembers(doc: string, v: Value, root: Value, f: Features, key: string)
    requires v.Obj? && Shown(v) && Spells(doc, Tokens(v)) && Parse(doc, root, f).ok
    ensures Parse(doc, root, f).node.Obj? && Ordered(Parse(doc, root, f).node.members)
    ensures HoldsOne(Parse(doc, root, f).node.members, key, LastUnder(v, |v.members|, key, f.scan))
    ensures LastUnder(v, |v.members|, key, f.scan).Some?
       <==> exists k :: 0 <= k < |v.members| && CString(v.members[k].key) == key
  {
    ParseEmitted(doc, v, root, f);
    LastMemberWins(v, |v.members|, key, f.scan);
    SomeUnder(v, |v.members|, key, f.scan);
  }

  /** Whatever the value, doubles and all: two texts that spell it out are parsed alike. */
  lemma ParsedAlike(a: string, b: string, v: Value, root: Value, f: Features)
    requires Shown(v) && Spells(a, Tokens(v)) && Spells(b, Tokens(v))
    ensures Parse(a, root, f) == Parse(b, root, f)
  {
    EmitsScan(v, []);
    SpellsLexed(a, Tokens(v));
    SpellsLexed(b, Tokens(v));
  }

  /** A text spells out at most one value, up to what printing does not keep. */
  lemma SpellsOne(doc: string, v: Value, w: Value, scan: Scanner)
    requires Shown(v) && Keyed(v) && Faithful(v, scan) && Spells(doc, Tokens(v))
    requires Shown(w) && Keyed(w) && Faithful(w, scan) && Spells(doc, Tokens(w))
    ensures Norm(v) == Norm(w)
  {
    var f := Features(true, false, scan);
    ParseSpelledIff(doc, v, Null, f);
    ParseSpelledIff(doc, w, Null, f);
  }

  /** What is read back prints as what was printed. */
  lemma {:induction false} NormKeepsTokens(v: Value, rest: seq<Lexeme>)
    ensures Emit(Norm(v), rest) == Emit(v, rest)
    decreases v, 1, 0
  {
    match v
    case Arr(slots) => NormKeepsItems(v, 0, [ArrEnd] + rest);
    case Obj(members) => NormKeepsMembers(v, 0, [ObjEnd] + rest);
    case _ =>
  }

  lemma {:induction false} NormSlotAt(v: Value, n: nat, k: nat)
    requires v.Arr? && k < n <= |v.slots|
    ensures NormSlots(v, n)[k] == Present(Norm(Item(v.slots[k])))
  {
    if k + 1 < n {
      NormSlotAt(v, n - 1, k);
    }
  }

  lemma {:induction false} NormMemberAt(v: Value, n: nat, k: nat)
    requires v.Obj? && k < n <= |v.members|
    ensures NormMembers(v, n)[k] == Member(v.members[k].key, Norm(v.members[k].value))
  {
    if k + 1 < n {
      NormMemberAt(v, n - 1, k);
    }
  }

  lemma {:induction false} NormKeepsItems(v: Value, k: nat, rest: seq<Lexeme>)
    requires v.Arr? && k <= |v.slots|
    ensures EmitItems(Norm(v), k, rest) == EmitItems(v, k, rest)
    decreases v, 0, |v.slots| - k
  {
    if k < |v.slots| {
      NormKeepsItems(v, k + 1, rest);
      NormSlotAt(v, |v.slots|, k);
      if v.slots[k].Present? {
        NormKeepsTokens(v.slots[k].value, EmitItems(v, k + 1, rest));
      }
    }
  }

  lemma {:induction false} NormKeepsMembers(v: Value, k: nat, rest: seq<Lexeme>)
    requires v.Obj? && k <= |v.members|
    ensures EmitMembers(Norm(v), k, rest) == EmitMembers(v, k, rest)
    decreases v, 0, |v.members| - k
  {
    if k < |v.members| {
      NormKeepsMembers(v, k + 1, rest);
      NormMemberAt(v, |v.members|, k);
      NormKeepsTokens(v.members[k].value, EmitMembers(v, k + 1, rest));
    }
  }
}
