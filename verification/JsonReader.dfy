/** json_reader.cpp: the class Reader. Comments are skipped and not collected. */
module JsonReader {
  import opened Wrappers
  import opened Sequences
  import opened JsonValue
  import opened JsonText
  import opened JsonGrammar

  /** A token as the reader holds it: its type and where it starts and ends. */
  datatype Span = Span(kind: TokenType, start: nat, end: nat)

  /** The scanner: a cursor in the document. */
  class Reader {
    const features_: Features
    var document_: string
    var current_: nat
    var nodes_: seq<Value>
    var errors_: seq<Message>
    ghost var Tokens: seq<Token>     // the tokens ahead

    constructor (features: Features)
      ensures features_ == features
    {
      features_ := features;
      document_, current_, nodes_, errors_ := "", 0, [], [];
    }

    predicate Valid()
      reads this
    {
      current_ <= |document_|
    }

    /** The characters ahead. */
    function Remaining(): string
      requires Valid()
      reads this
    {
      document_[current_..]
    }

    /** The ghost field is the tokens of the characters ahead. */
    ghost predicate Ready()
      reads this
    {
      Valid() && forall s :: s == Remaining() ==> Tokens == Lexed(s)
    }

    predicate Within(t: Span)
      reads this
    {
      t.start <= t.end <= |document_|
    }

    /** The token that stands there. */
    function TokenAt(t: Span): Token
      requires Within(t)
      reads this
    {
      Token(t.kind, document_[t.start..t.end])
    }

    // ----- Characters -----

    method getNextChar() returns (c: char)
      requires Valid()
      modifies this`current_
      ensures Valid()
      ensures if old(Remaining()) == "" then c == NUL && Remaining() == ""
              else c == old(Remaining())[0] && Remaining() == old(Remaining())[1..]
    {
      if current_ == |document_| {
        return NUL;
      }
      c := document_[current_];
      current_ := current_ + 1;
    }

    /** The character at the cursor; the terminating NUL at the end. */
    function Peek(): char
      requires Valid()
      reads this
    {
      if current_ == |document_| then NUL else document_[current_]
    }

    method skipSpaces()
      requires Valid()
      modifies this`current_
      ensures Valid() && Remaining() == SkipSpaces(old(Remaining()))
    {
      while current_ != |document_|
        invariant Valid() && SkipSpaces(Remaining()) == SkipSpaces(old(Remaining()))
        decreases |document_| - current_
      {
        if !IsSpace(document_[current_]) {
          break;
        }
        current_ := current_ + 1;
      }
    }

    method match_(pattern: string) returns (ok: bool)
      requires Valid()
      modifies this`current_
      ensures Valid() && (ok, Remaining()) == WordEnd(old(Remaining()), pattern)
    {
      if |document_| - current_ < |pattern| {
        return false;
      }
      var index := |pattern|;
      while index > 0
        invariant 0 <= index <= |pattern|
        invariant forall k :: index <= k < |pattern| ==> document_[current_ + k] == pattern[k]
      {
        index := index - 1;
        if document_[current_ + index] != pattern[index] {
          assert Remaining()[index] != pattern[index];
          return false;
        }
      }
      assert pattern == Remaining()[..|pattern|];
      current_ := current_ + |pattern|;
      ok := true;
    }

    method readCStyleComment() returns (ok: bool)
      requires Valid()
      modifies this`current_
      ensures Valid() && (ok, Remaining()) == CStyleEnd(old(Remaining()))
    {
      ghost var end := CStyleEnd(Remaining());
      while current_ != |document_|
        invariant Valid() && CStyleEnd(Remaining()) == end
        decreases |document_| - current_
      {
        ghost var before := Remaining();
        var c := getNextChar();
        if c == '*' && Peek() == '/' {
          assert ClosesComment(before) && Remaining()[0] == '/' && end == (true, before[2..]);
          assert Remaining()[1..] == before[2..];
          break;
        }
        assert !ClosesComment(before) && Remaining() == before[1..];
        assert CStyleEnd(before) == CStyleEnd(Remaining());
      }
      var last := getNextChar();
      ok := last == '/';
    }

    method readCppStyleComment() returns (ok: bool)
      requires Valid()
      modifies this`current_
      ensures Valid() && ok && Remaining() == LineEnd(old(Remaining()))
    {
      while current_ != |document_|
        invariant Valid() && LineEnd(Remaining()) == LineEnd(old(Remaining()))
        decreases |document_| - current_
      {
        ghost var before := Remaining();
        var c := getNextChar();
        if c == '\r' || c == '\n' {
          assert LineEnd(before) == Remaining();
          return true;
        }
      }
      ok := true;
    }

    method readComment() returns (ok: bool)
      requires Valid()
      modifies this`current_
      ensures Valid() && (ok, Remaining()) == CommentEnd(old(Remaining()))
    {
      var c := getNextChar();
      ok := false;
      if c == '*' {
        ok := readCStyleComment();
      } else if c == '/' {
        ok := readCppStyleComment();
      }
    }

    method readNumber()
      requires Valid()
      modifies this`current_
      ensures Valid() && Remaining() == NumberEnd(old(Remaining()))
    {
      while current_ != |document_|
        invariant Valid() && NumberEnd(Remaining()) == NumberEnd(old(Remaining()))
        decreases |document_| - current_
      {
        if !IsNumberChar(document_[current_]) {
          break;
        }
        current_ := current_ + 1;
      }
    }

    method readString() returns (ok: bool)
      requires Valid()
      modifies this`current_
      ensures Valid() && (ok, Remaining()) == StringEnd(old(Remaining()))
    {
      var c := NUL;
      while current_ != |document_|
        invariant Valid() && StringEnd(Remaining()) == StringEnd(old(Remaining()))
        invariant c != '"'
        decreases |document_| - current_
      {
        ghost var before := Remaining();
        c := getNextChar();
        if c == '\\' {
          ghost var inner := Remaining();
          var _ := getNextChar();
          assert inner != "" ==> before[2..] == inner[1..];
        } else if c == '"' {
          return true;
        }
      }
      ok := false;
    }

    // ----- Tokens -----

    /** What follows the first character of a token. */
    method scan(c: char) returns (kind: TokenType)
      requires Valid()
      modifies this`current_
      ensures Valid() && (kind, Remaining()) == Scan(c, old(Remaining()))
    {
      var ok := true;
      if c == '{' {
        kind := tokenObjectBegin;
      } else if c == '}' {
        kind := tokenObjectEnd;
      } else if c == '[' {
        kind := tokenArrayBegin;
      } else if c == ']' {
        kind := tokenArrayEnd;
      } else if c == '"' {
        kind := tokenString;
        ok := readString();
      } else if c == '/' {
        kind := tokenComment;
        ok := readComment();
      } else if IsDigit(c) || c == '-' {
        kind := tokenNumber;
        readNumber();
      } else if c == 't' {
        kind := tokenTrue;
        ok := match_("rue");
      } else if c == 'f' {
        kind := tokenFalse;
        ok := match_("alse");
      } else if c == 'n' {
        kind := tokenNull;
        ok := match_("ull");
      } else if c == ',' {
        kind := tokenArraySeparator;
      } else if c == ':' {
        kind := tokenMemberSeparator;
      } else if c == NUL {
        kind := tokenEndOfStream;
      } else {
        kind, ok := tokenError, false;
      }
      if !ok {
        kind := tokenError;
      }
    }

    /** The next token; it never fails. */
    method readToken() returns (token: Span)
      requires Ready()
      modifies this`current_, this`Tokens
      ensures Ready() && Within(token) && TokenAt(token) == Head(old(Tokens)) && Tokens == Tail(old(Tokens))
      ensures token.kind == tokenNumber ==> token.start < token.end
      ensures token.kind == tokenString ==> token.start + 2 <= token.end
    {
      assert Tokens == Lexed(Remaining());
      skipSpaces();
      var start := current_;
      assert (SkipSpaces(old(Remaining())) == "") <==> (Remaining() == "");
      var kind := readNonSpace();
      token := Span(kind, start, current_);
      Tokens := Tail(Tokens);
      assert Tokens == Lexed(Remaining());
    }

    method readNonSpace() returns (kind: TokenType)
      requires Valid() && SkipSpaces(Remaining()) == Remaining()
      modifies this`current_
      ensures Valid() && old(current_) <= current_
      ensures (Token(kind, document_[old(current_)..current_]), Remaining()) == ReadToken(old(Remaining()))
      ensures kind == tokenNumber ==> old(current_) < current_
      ensures kind == tokenString ==> old(current_) + 2 <= current_
    {
      ghost var ahead := Remaining();
      var c := getNextChar();
      kind := scan(c);
      assert |Remaining()| <= |ahead|;
      assert document_[old(current_)..current_] == ahead[..|ahead| - |Remaining()|];
    }

    method skipCommentTokens() returns (token: Span)
      requires Ready()
      modifies this`current_, this`Tokens
      ensures var us := SkipCommentTokens(old(Tokens), features_.allowComments);
              Ready() && Within(token) && TokenAt(token) == Head(us) && Tokens == Tail(us)
      ensures token.kind == tokenNumber ==> token.start < token.end
      ensures token.kind == tokenString ==> token.start + 2 <= token.end
    {
      token := readToken();
      if features_.allowComments {
        FirstAndRest(old(Tokens));
        token := skipComments(token);
      }
    }

    /** Reads on while the token is a comment. */
    method skipComments(first: Span) returns (token: Span)
      requires Ready() && Within(first)
      requires first.kind == tokenNumber ==> first.start < first.end
      requires first.kind == tokenString ==> first.start + 2 <= first.end
      modifies this`current_, this`Tokens
      ensures var us := PastComments([TokenAt(first)] + old(Tokens));
              Ready() && Within(token) && TokenAt(token) == Head(us) && Tokens == Tail(us)
      ensures token.kind == tokenNumber ==> token.start < token.end
      ensures token.kind == tokenString ==> token.start + 2 <= token.end
    {
      token := first;
      ghost var us := [TokenAt(first)] + Tokens;
      assert Tail(us) == Tokens;
      while token.kind == tokenComment
        invariant Ready() && Within(token) && TokenAt(token) == Head(us) && Tokens == Tail(us)
        invariant PastComments(us) == PastComments([TokenAt(first)] + old(Tokens))
        invariant token.kind == tokenNumber ==> token.start < token.end
        invariant token.kind == tokenString ==> token.start + 2 <= token.end
        decreases |us|
      {
        us := Tail(us);
        token := readToken();
      }
    }

    lemma FirstAndRest(ts: seq<Token>)
      ensures Head(PastComments([Head(ts)] + Tail(ts))) == Head(PastComments(ts))
      ensures Tail(PastComments([Head(ts)] + Tail(ts))) == Tail(PastComments(ts))
    {
      if ts != [] {
        assert [Head(ts)] + Tail(ts) == ts;
      } else {
        assert [Head(ts)] + Tail(ts) == [Head(ts)];
      }
    }

    // ----- Errors -----

    method addError(message: Message) returns (ok: bool)
      modifies this`errors_
      ensures !ok && errors_ == old(errors_) + [message]
    {
      errors_ := errors_ + [message];
      ok := false;
    }

    method recoverFromError(skipUntilToken: TokenType) returns (ok: bool)
      requires Ready()
      modifies this`current_, this`Tokens
      ensures Ready() && !ok && Tokens == Recover(old(Tokens), skipUntilToken)
    {
      ghost var ahead := Tokens;
      while true
        invariant Ready() && Recover(Tokens, skipUntilToken) == Recover(ahead, skipUntilToken)
        decreases |Tokens|
      {
        var skip := readToken();
        if skip.kind == skipUntilToken || skip.kind == tokenEndOfStream {
          break;
        }
      }
      ok := false;
    }

    method addErrorAndRecover(message: Message, skipUntilToken: TokenType) returns (ok: bool)
      requires Ready()
      modifies this`current_, this`Tokens, this`errors_
      ensures Ready() && !ok && Tokens == Recover(old(Tokens), skipUntilToken)
      ensures errors_ == old(errors_) + [message]
    {
      var _ := addError(message);
      ok := recoverFromError(skipUntilToken);
    }

    // ----- Numbers -----

    method isDouble(token: Span) returns (r: bool)
      requires Within(token)
      ensures r == LooksDouble(TokenAt(token).text)
    {
      ghost var s := TokenAt(token).text;
      r := false;
      var inspect := token.start;
      while inspect != token.end
        invariant token.start <= inspect <= token.end
        invariant r == LooksDouble(s[..inspect - token.start])
        decreases token.end - inspect
      {
        var c := document_[inspect];
        assert c == s[inspect - token.start];
        ghost var k := inspect - token.start;
        assert s[..k + 1] == s[..k] + [c];
        r := r || c == '.' || c == 'e' || c == 'E' || c == '+' || (c == '-' && inspect != token.start);
        DoubleSnoc(s[..k], c);
        inspect := inspect + 1;
      }
      assert s[..token.end - token.start] == s;
    }

    lemma DoubleSnoc(s: string, c: char)
      ensures LooksDouble(s + [c])
         <==> LooksDouble(s) || c == '.' || c == 'e' || c == 'E' || c == '+' || (c == '-' && s != "")
    {
      var t := s + [c];
      assert t[|s|] == c && forall k :: 0 <= k < |s| ==> t[k] == s[k];
    }

    /** The digits of a number; the 32-bit value never wraps around. */
    method readDigits(from: nat, end: nat, threshold: nat) returns (r: Digits)
      requires from <= end <= |document_| && 10 * threshold <= MAX_UINT
      ensures r == ReadDigits(document_[from..end], 0, threshold)
    {
      var current: nat, value: nat := from, 0;
      while current < end
        invariant from <= current <= end && value <= MAX_UINT
        invariant ReadDigits(document_[current..end], value, threshold) == ReadDigits(document_[from..end], 0, threshold)
      {
        ghost var s := document_[current..end];
        var c := document_[current];
        current := current + 1;
        assert s[0] == c && s[1..] == document_[current..end];
        if !IsDigit(c) {
          return NotDigit;
        }
        if value >= threshold {
          return TooBig;
        }
        var unwrapped := value * 10 + (c as int - 48);
        value := unwrapped % (MAX_UINT + 1);
        assert value == unwrapped;
      }
      assert document_[current..end] == "";
      r := Whole(value);
    }

    method decodeDouble(token: Span) returns (ok: bool)
      requires Within(token) && nodes_ != []
      modifies this`nodes_, this`errors_
      ensures Decoded(old(nodes_), old(errors_), DecodeDouble(TokenAt(token).text, features_.scan), ok)
    {
      match features_.scan(document_[token.start..token.end])
      case None =>
        ok := addError(NotANumber);
      case Some(shown) =>
        setCurrentValue(Real(shown));
        ok := true;
    }

    /** A decoded value is the current one now; without one there is one more error. */
    ghost predicate Decoded(nodes: seq<Value>, errors: seq<Message>, decoded: Option<Value>, ok: bool)
      requires nodes != []
      reads this
    {
      match decoded
      case None => !ok && nodes_ == nodes && errors_ == errors + [NotANumber]
      case Some(v) => ok && Replaced(nodes, v) && errors_ == errors
    }

    /** The stack with this value on top. */
    ghost predicate Replaced(nodes: seq<Value>, v: Value)
      requires nodes != []
      reads this
    {
      nodes_ != [] && Init(nodes_) == Init(nodes) && currentValue() == v
    }

    method setCurrentValue(v: Value)
      requires nodes_ != []
      modifies this`nodes_
      ensures Replaced(old(nodes_), v)
    {
      nodes_ := nodes_[|nodes_| - 1 := v];
    }

    function currentValue(): Value
      requires nodes_ != []
      reads this
    {
      Last(nodes_)
    }

    method decodeNumber(token: Span) returns (ok: bool)
      requires Within(token) && token.start < token.end && nodes_ != []
      modifies this`nodes_, this`errors_
      ensures Decoded(old(nodes_), old(errors_), DecodeNumber(TokenAt(token).text, features_.scan), ok)
    {
      var double := isDouble(token);
      if double {
        ok := decodeDouble(token);
        return;
      }
      var isNegative := document_[token.start] == '-';
      var threshold := (if isNegative then MAX_INT + 1 else MAX_UINT) / 10;
      var current := if isNegative then token.start + 1 else token.start;
      assert TokenAt(token).text[1..] == document_[token.start + 1..token.end];
      var digits := readDigits(current, token.end, threshold);
      match digits
      case NotDigit =>
        ok := addError(NotANumber);
      case TooBig =>
        ok := decodeDouble(token);
      case Whole(value) =>
        setCurrentValue(if isNegative then Int(0 - value) else if value <= MAX_INT then Int(value) else UInt(value));
        ok := true;
    }

    // ----- Strings -----

    /** Four hexadecimal digits from a position on. */
    method decodeUnicodeEscapeSequence(from: nat, end: nat) returns (current: nat, r: Result<nat>)
      requires from <= end <= |document_|
      ensures r == UnicodeEscape(document_[from..end]) && (r.Ok? ==> current == from + 4 <= end)
    {
      current := from;
      if end - current < 4 {
        return current, Err(FourDigits);
      }
      ghost var s := document_[from..end];
      var unicode := 0;
      var index := 0;
      while index < 4
        invariant 0 <= index <= 4 && current == from + index
        invariant Hex(s, index) == Ok(unicode)
      {
        var c := document_[current];
        assert c == s[index];
        current := current + 1;
        if !IsHex(c) {
          HexStays(s, index + 1, 4);
          return current, Err(HexExpected);
        }
        unicode := 16 * unicode + HexValue(c);
        index := index + 1;
      }
      r := Ok(unicode);
    }

    lemma {:induction false} HexStays(s: string, k: nat, n: nat)
      requires k <= n <= |s| && Hex(s, k).Err?
      ensures Hex(s, n) == Hex(s, k)
    {
      if k < n {
        HexStays(s, k, n - 1);
      }
    }

    method decodeUnicodeCodePoint(from: nat, end: nat) returns (current: nat, r: Result<nat>)
      requires from <= end <= |document_|
      ensures from <= current <= end || r.Err?
      ensures CodePoint(document_[from..end])
           == match r
              case Err(m) => Err(m)
              case Ok(cp) => Ok((cp, document_[current..end]))
    {
      ghost var s := document_[from..end];
      current, r := decodeUnicodeEscapeSequence(from, end);
      if r.Ok? && 0xD800 <= r.value <= 0xDBFF {
        var unicode := r.value;
        if end - current < 6 {
          return current, Err(SixExpected);
        }
        assert document_[current] == s[4] && document_[current + 1] == s[5];
        if document_[current] != '\\' || document_[current + 1] != 'u' {
          return current, Err(SecondHalf);
        }
        assert document_[current + 2..end] == s[6..];
        current, r := decodeUnicodeEscapeSequence(current + 2, end);
        if r.Ok? {
          r := Ok(0x10000 + (unicode % 0x400) * 0x400 + r.value % 0x400);
          assert document_[current..end] == s[10..];
        }
      } else if r.Ok? {
        assert document_[current..end] == s[4..];
      }
    }

    /** The characters between the quotes of a string token, decoded. */
    method decodeStringTo(token: Span) returns (r: Result<string>)
      requires Within(token) && token.start + 2 <= token.end
      ensures r == DecodeString(TokenAt(token).text)
    {
      var decoded := "";
      var current, end := token.start + 1, token.end - 1;
      ghost var all := Unescape(document_[current..end]);
      assert TokenAt(token).text[1..|TokenAt(token).text| - 1] == document_[current..end];
      assert all == Prepend("", all) by {
        assert all.Ok? ==> "" + all.value == all.value;
      }
      while current != end
        invariant token.start + 1 <= current <= end
        invariant all == Prepend(decoded, Unescape(document_[current..end]))
        decreases end - current
      {
        if document_[current] == '"' {
          break;
        }
        var piece: Result<string>;
        piece, current := decodePiece(current, end);
        if piece.Err? {
          return Err(piece.message);
        }
        PrependTwice(decoded, piece.value, Unescape(document_[current..end]));
        decoded := decoded + piece.value;
      }
      assert decoded + "" == decoded;
      r := Ok(decoded);
    }

    lemma PrependTwice(a: string, b: string, r: Result<string>)
      ensures Prepend(a, Prepend(b, r)) == Prepend(a + b, r)
    {
      if r.Ok? {
        assert a + (b + r.value) == (a + b) + r.value;
      }
    }

    /** One character or escape. */
    method decodePiece(from: nat, end: nat) returns (piece: Result<string>, current: nat)
      requires from < end <= |document_| && document_[from] != '"'
      ensures piece.Ok? ==> from < current <= end
      ensures Unescape(document_[from..end])
           == match piece
              case Err(m) => Err(m)
              case Ok(p) => Prepend(p, Unescape(document_[current..end]))
    {
      ghost var s := document_[from..end];
      current := from + 1;
      if document_[from] != '\\' {
        assert document_[current..end] == s[1..];
        return Ok([document_[from]]), current;
      }
      if current == end {
        return Err(EmptyEscape), current;
      }
      var escape := document_[current];
      assert escape == s[1];
      current := current + 1;
      assert document_[current..end] == s[2..];
      if escape == 'u' {
        var unicode: Result<nat>;
        current, unicode := decodeUnicodeCodePoint(current, end);
        if unicode.Ok? {
          piece := Ok(CodePointToUTF8(unicode.value));
        } else {
          piece := Err(unicode.message);
        }
      } else if ShortEscape(escape) == "" {
        piece := Err(BadEscape);
      } else {
        piece := Ok(ShortEscape(escape));
      }
    }

    method decodeString(token: Span) returns (ok: bool)
      requires Within(token) && token.kind == tokenString && token.start + 2 <= token.end && nodes_ != []
      modifies this`nodes_, this`errors_
      ensures match DecodeString(TokenAt(token).text)
              case Err(m) => !ok && nodes_ == old(nodes_) && errors_ == old(errors_) + [m]
              case Ok(s) => ok && Replaced(old(nodes_), Str(s)) && errors_ == old(errors_)
    {
      var decoded := decodeStringTo(token);
      if decoded.Err? {
        ok := addError(decoded.message);
      } else {
        setCurrentValue(Str(decoded.value));
        ok := true;
      }
    }

    // ----- Values -----

    /** The state after a read of the grammar: its outcome, and the stack at its entry depth. */
    ghost predicate Done(r: Read, ok: bool, nodes: seq<Value>, errors: seq<Message>)
      requires nodes != []
      reads this
    {
      && Ready()
      && ok == r.ok
      && Tokens == r.rest
      && Replaced(nodes, r.node)
      && errors_ == errors + r.errors
    }

    method readValue() returns (ok: bool)
      requires Ready() && nodes_ != []
      modifies this`current_, this`Tokens, this`nodes_, this`errors_
      ensures Done(ReadValue(old(Tokens), old(currentValue()), features_), ok, old(nodes_), old(errors_))
      decreases |Tokens|, 2
    {
      var token := skipCommentTokens();
      if token.kind == tokenObjectBegin {
        ok := readObject();
      } else if token.kind == tokenArrayBegin {
        ok := readArray();
      } else {
        ok := readAtom(token);
      }
    }

    method readAtom(token: Span) returns (ok: bool)
      requires Ready() && nodes_ != [] && Within(token)
      requires token.kind == tokenNumber ==> token.start < token.end
      requires token.kind == tokenString ==> token.start + 2 <= token.end
      modifies this`nodes_, this`errors_
      ensures forall ts :: Head(ts) == TokenAt(token) && Tail(ts) == Tokens
                ==> Done(ReadAtom(ts, old(currentValue()), features_), ok, old(nodes_), old(errors_))
    {
      ok := true;
      match token.kind
      case tokenNumber =>
        ok := decodeNumber(token);
      case tokenString =>
        ok := decodeString(token);
      case tokenTrue =>
        setCurrentValue(Bool(true));
      case tokenFalse =>
        setCurrentValue(Bool(false));
      case tokenNull =>
        setCurrentValue(Null);
      case _ =>
        ok := addError(ValueExpected);
    }

    /** The child's value is read on top of the stack, and stored back when it is popped. */
    method readChild(node: Value) returns (ok: bool, child: Value)
      requires Ready() && nodes_ != []
      modifies this`current_, this`Tokens, this`nodes_, this`errors_
      ensures var r := ReadValue(old(Tokens), node, features_);
              && Ready() && ok == r.ok && Tokens == r.rest && child == r.node
              && nodes_ == old(nodes_) && errors_ == old(errors_) + r.errors
      decreases |Tokens|, 3
    {
      nodes_ := nodes_ + [node];
      ok := readValue();
      child := currentValue();
      nodes_ := Init(nodes_);
    }

    lemma OnlyBracketEndsArray(c: char, s: string)
      ensures Scan(c, s).0 == tokenArrayEnd <==> c == ']'
    {
    }

    lemma LexedSkips(s: string)
      ensures Lexed(SkipSpaces(s)) == Lexed(s)
      ensures SkipSpaces(s) != "" && SkipSpaces(s)[0] == ']' <==> Head(Lexed(s)).kind == tokenArrayEnd
    {
      var u := SkipSpaces(s);
      assert SkipSpaces(u) == u;
      if u != "" {
        OnlyBracketEndsArray(u[0], u[1..]);
        assert Head(Lexed(s)) == ReadToken(s).0 == ReadToken(u).0;
      }
    }

    /** Skips spaces and looks at the character behind them. */
    method startsWithBracket() returns (r: bool)
      requires Ready()
      modifies this`current_
      ensures Ready() && r == (Head(Tokens).kind == tokenArrayEnd)
    {
      assert Tokens == Lexed(Remaining());
      LexedSkips(Remaining());
      skipSpaces();
      r := Peek() == ']';
    }

    method readArray() returns (ok: bool)
      requires Ready() && nodes_ != []
      modifies this`current_, this`Tokens, this`nodes_, this`errors_
      ensures Done(ReadArray(old(Tokens), features_), ok, old(nodes_), old(errors_))
      decreases |Tokens|, 6
    {
      setCurrentValue(Arr([]));
      var closed := startsWithBracket();
      if closed {
        var _ := readToken();
        return true;
      }
      ok := readItems();
    }

    /** The loop of readArray. */
    method readItems() returns (ok: bool)
      requires Ready() && nodes_ != [] && currentValue() == Arr([])
      modifies this`current_, this`Tokens, this`nodes_, this`errors_
      ensures Done(ReadItems(old(Tokens), [], features_), ok, old(nodes_), old(errors_))
      decreases |Tokens|, 5
    {
      ghost var nodes, errors, r := nodes_, errors_, ReadItems(Tokens, [], features_);
      var slots: seq<Slot> := [];
      while true
        invariant Ready() && Replaced(nodes, Arr(slots)) && errors_ == errors
        invariant ReadItems(Tokens, slots, features_) == r && |Tokens| <= |old(Tokens)|
        decreases |Tokens|
      {
        var done;
        done, ok, slots := readItem(slots);
        if done {
          return;
        }
      }
    }

    /** One turn of that loop: the array is finished or goes on. */
    method readItem(slots: seq<Slot>) returns (done: bool, ok: bool, slots': seq<Slot>)
      requires Ready() && nodes_ != [] && currentValue() == Arr(slots)
      modifies this`current_, this`Tokens, this`nodes_, this`errors_
      ensures var r := ReadItems(old(Tokens), slots, features_);
              if done then Done(r, ok, old(nodes_), old(errors_))
              else
                && Ready() && r == ReadItems(Tokens, slots', features_) && |Tokens| < |old(Tokens)|
                && Replaced(old(nodes_), Arr(slots')) && errors_ == old(errors_)
      decreases |Tokens|, 4
    {
      var item;
      done := true;
      ok, item := readChild(Null);
      slots' := slots + [Present(item)];
      setCurrentValue(Arr(slots'));
      if !ok {
        ok := recoverFromError(tokenArrayEnd);
        return;
      }
      assert errors_ == old(errors_) && Replaced(old(nodes_), Arr(slots'));
      done := readSeparator(slots');
    }

    /** The token behind an item: whether it ends the array. Anything else goes on. */
    method readSeparator(slots: seq<Slot>) returns (ends: bool)
      requires Ready()
      modifies this`current_, this`Tokens
      ensures var r := ReadSeparator(old(Tokens), slots, features_);
              Ready() && |Tokens| <= |old(Tokens)|
              && if ends then r == Read(true, Tokens, Arr(slots), []) else r == ReadItems(Tokens, slots, features_)
    {
      FirstAndRest(Tokens);
      var token := readToken();
      token := skipComments(token);
      // No token is a separator and the end of the array at once: the source's badTokenType is always false.
      assert !(token.kind == tokenArraySeparator && token.kind == tokenArrayEnd);
      ends := token.kind == tokenArrayEnd;
    }

    method readObject() returns (ok: bool)
      requires Ready() && nodes_ != []
      modifies this`current_, this`Tokens, this`nodes_, this`errors_
      ensures Done(ReadMembers(old(Tokens), [], "", features_), ok, old(nodes_), old(errors_))
      decreases |Tokens|, 5
    {
      ghost var nodes, errors, r := nodes_, errors_, ReadMembers(Tokens, [], "", features_);
      var name, members := "", [];
      setCurrentValue(Obj(members));
      while true
        invariant Ready() && errors_ == errors && Replaced(nodes, Obj(members))
        invariant ReadMembers(Tokens, members, name, features_) == r && |Tokens| <= |old(Tokens)|
        decreases |Tokens|
      {
        var done;
        done, ok, name := readName(members, name);
        if done {
          return;
        }
        done, ok, members := readMember(members, name);
        if done {
          return;
        }
      }
    }

    /** The start of a turn of the loop of readObject: the object is finished or a name is read. */
    method readName(members: seq<Member>, name: string) returns (done: bool, ok: bool, name': string)
      requires Ready() && nodes_ != [] && currentValue() == Obj(members)
      modifies this`current_, this`Tokens, this`errors_
      ensures var r := ReadMembers(old(Tokens), members, name, features_);
              if done then Done(r, ok, old(nodes_), old(errors_))
              else Ready() && r == ReadMember(Tokens, members, name', features_) && errors_ == old(errors_)
                   && |Tokens| < |old(Tokens)|
    {
      FirstAndRest(Tokens);
      var tokenName := readToken();
      tokenName := skipComments(tokenName);
      if tokenName.kind == tokenObjectEnd && name == "" {
        return true, true, name;
      }
      if tokenName.kind != tokenString {
        ok := addErrorAndRecover(MissingEnd, tokenObjectEnd);
        return true, ok, name;
      }
      var decoded := decodeStringTo(tokenName);
      if decoded.Err? {
        ok := addErrorAndRecover(decoded.message, tokenObjectEnd);
        return true, ok, name;
      }
      return false, true, decoded.value;
    }

    /** One turn of the loop of readObject, behind the name: the object is finished or goes on. */
    method readMember(members: seq<Member>, name: string) returns (done: bool, ok: bool, members': seq<Member>)
      requires Ready() && nodes_ != [] && currentValue() == Obj(members)
      modifies this`current_, this`Tokens, this`nodes_, this`errors_
      ensures var r := ReadMember(old(Tokens), members, name, features_);
              if done then Done(r, ok, old(nodes_), old(errors_))
              else
                && Ready() && r == ReadMembers(Tokens, members', name, features_) && |Tokens| < |old(Tokens)|
                && Replaced(old(nodes_), Obj(members')) && errors_ == old(errors_)
      decreases |Tokens|, 5
    {
      members', done := members, true;
      var colon := readToken();
      if colon.kind != tokenMemberSeparator {
        ok := addErrorAndRecover(MissingColon, tokenObjectEnd);
        return;
      }
      done, ok, members' := readMemberValue(members, name);
    }

    method readMemberValue(members: seq<Member>, name: string) returns (done: bool, ok: bool, members': seq<Member>)
      requires Ready() && nodes_ != [] && currentValue() == Obj(members)
      modifies this`current_, this`Tokens, this`nodes_, this`errors_
      ensures var r := ReadMemberValue(old(Tokens), members, name, features_);
              if done then Done(r, ok, old(nodes_), old(errors_))
              else
                && Ready() && r == ReadMembers(Tokens, members', name, features_) && |Tokens| < |old(Tokens)|
                && Replaced(old(nodes_), Obj(members')) && errors_ == old(errors_)
      decreases |Tokens|, 4
    {
      var value;
      ok, value := readChild(Lookup(members, CString(name)));
      done := true;
      members' := Put(members, CString(name), value);
      setCurrentValue(Obj(members'));
      if !ok {
        ok := recoverFromError(tokenObjectEnd);
        return;
      }
      assert errors_ == old(errors_) && Replaced(old(nodes_), Obj(members'));
      done, ok := readComma(members', name);
    }

    /** The end of that turn, behind the value. */
    method readComma(members: seq<Member>, name: string) returns (done: bool, ok: bool)
      requires Ready() && nodes_ != [] && currentValue() == Obj(members)
      modifies this`current_, this`Tokens, this`errors_
      ensures var r := ReadComma(old(Tokens), members, name, features_);
              if done then Done(r, ok, old(nodes_), old(errors_))
              else Ready() && r == ReadMembers(Tokens, members, name, features_) && errors_ == old(errors_)
                   && |Tokens| < |old(Tokens)|
    {
      FirstAndRest(Tokens);
      done, ok := true, true;
      var comma := readToken();
      if comma.kind != tokenObjectEnd && comma.kind != tokenArraySeparator && comma.kind != tokenComment {
        ok := addErrorAndRecover(MissingComma, tokenObjectEnd);
        return;
      }
      comma := skipComments(comma);
      done := comma.kind == tokenObjectEnd;
    }

    /** Parses a document into the root: false comes with an error and true without, the cursor stays in the
        document, and one node is left, the root. */
    method parse(document: string, root: Value) returns (successful: bool, root': Value)
      modifies this
      ensures var r := Parse(document, root, features_);
              && successful == r.ok && root' == r.node && errors_ == r.errors
              && document_ == document && Ready() && Tokens == r.rest && nodes_ == [root']
      ensures successful <==> errors_ == []
    {
      document_, current_, errors_, nodes_ := document, 0, [], [root];
      Tokens := Lexed(document);
      assert Remaining() == document;
      successful, root' := parseTokens();
    }

    method parseTokens() returns (successful: bool, root': Value)
      requires Ready() && |nodes_| == 1 && errors_ == []
      modifies this`current_, this`Tokens, this`nodes_, this`errors_
      ensures var r := ParseTokens(old(Tokens), old(nodes_[0]), features_);
              && Ready() && successful == r.ok && root' == r.node && errors_ == r.errors
              && Tokens == r.rest && nodes_ == [root']
      ensures successful <==> errors_ == []
    {
      successful := readValue();
      var _ := skipCommentTokens();
      root' := currentValue();
      if features_.strictRoot && !IsRoot(root') {
        successful := addError(NotARoot);
      }
    }
  }
}
