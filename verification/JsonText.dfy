/** The values of json_value.cpp as far as they are printed and parsed. A C++ string is a string of chars
    below 256; where the source hands on a C string, what follows the first NUL is lost. */
module JsonValue {

  const NUL: char := '\0'

  /** A double is represented by the text that prints for it; an array slot below the highest may be absent. */
  datatype Value =
    | Null
    | Int(i: int)
    | UInt(u: nat)
    | Real(shown: string)
    | Bool(b: bool)
    | Str(s: string)
    | Arr(slots: seq<Slot>)
    | Obj(members: seq<Member>)

  datatype Slot = Absent | Present(value: Value)

  datatype Member = Member(key: string, value: Value)

  const MAX_INT: nat := 0x7FFF_FFFF
  const MAX_UINT: nat := 0xFFFF_FFFF

  function CString(s: string): (r: string)
    ensures NUL !in r && r <= s
    ensures NUL !in s ==> r == s
  {
    if s == "" || s[0] == NUL then "" else [s[0]] + CString(s[1..])
  }

  /** strcmp is negative. */
  predicate Less(a: string, b: string) {
    b != "" && (a == "" || a[0] < b[0] || (a[0] == b[0] && Less(a[1..], b[1..])))
  }

  /** The members of an object are in the order of their keys, which are C strings. */
  ghost predicate Ordered(ms: seq<Member>) {
    && (forall i, j :: 0 <= i < j < |ms| ==> Less(ms[i].key, ms[j].key))
    && (forall i :: 0 <= i < |ms| ==> NUL !in ms[i].key)
  }

  /** The value under a key that is there, or the null that is put there. */
  function Lookup(ms: seq<Member>, key: string): Value {
    if ms == [] then Null else if ms[0].key == key then ms[0].value else Lookup(ms[1..], key)
  }

  function Put(ms: seq<Member>, key: string, value: Value): seq<Member> {
    if ms == [] || Less(key, ms[0].key) then [Member(key, value)] + ms
    else if ms[0].key == key then [Member(key, value)] + ms[1..]
    else [ms[0]] + Put(ms[1..], key, value)
  }

  function Item(slot: Slot): Value {
    if slot.Present? then slot.value else Null
  }

  lemma {:induction false} LessIrreflexive(a: string)
    ensures !Less(a, a)
  {
    if a != "" {
      LessIrreflexive(a[1..]);
    }
  }

  lemma {:induction false} LessTransitive(a: string, b: string, c: string)
    requires Less(a, b) && Less(b, c)
    ensures Less(a, c)
  {
    if a != "" && a[0] == b[0] == c[0] {
      LessTransitive(a[1..], b[1..], c[1..]);
    }
  }

  lemma {:induction false} LessTotal(a: string, b: string)
    requires a != b
    ensures Less(a, b) || Less(b, a)
  {
    if a != "" && b != "" && a[0] == b[0] {
      assert a == [a[0]] + a[1..] && b == [b[0]] + b[1..];
      LessTotal(a[1..], b[1..]);
    }
  }

  /** A key above all others goes to the end. */
  lemma {:induction false} PutLast(ms: seq<Member>, key: string, value: Value)
    requires forall i :: 0 <= i < |ms| ==> Less(ms[i].key, key)
    ensures Put(ms, key, value) == ms + [Member(key, value)]
    ensures Lookup(ms, key) == Null
  {
    LessIrreflexive(key);
    if ms != [] {
      assert Less(ms[0].key, key);
      if Less(key, ms[0].key) {
        LessTransitive(key, ms[0].key, key);
      }
      PutLast(ms[1..], key, value);
      assert ms == [ms[0]] + ms[1..];
    }
  }

  /** All keys are above this one. */
  ghost predicate Above(ms: seq<Member>, key: string) { forall m :: m in ms ==> Less(key, m.key) && m.key != key }

  lemma AboveFirst(ms: seq<Member>, key: string)
    requires Ordered(ms) && ms != [] && (key == ms[0].key || Less(key, ms[0].key))
    ensures Above(ms[1..], key)
  {
    forall m | m in ms[1..] ensures Less(key, m.key) && m.key != key {
      var k :| 0 <= k < |ms| - 1 && ms[1..][k] == m;
      assert Less(ms[0].key, ms[k + 1].key);
      if key != ms[0].key {
        LessTransitive(key, ms[0].key, m.key);
      }
      LessIrreflexive(key);
    }
  }

  /** Putting keeps the order and every other member, and makes the key's value the one that is found. */
  lemma {:induction false} PutKeepsOrder(ms: seq<Member>, key: string, value: Value)
    requires Ordered(ms) && NUL !in key
    ensures Ordered(Put(ms, key, value)) && Lookup(Put(ms, key, value), key) == value
    ensures forall m :: m in Put(ms, key, value) <==> (m in ms && m.key != key) || m == Member(key, value)
    ensures forall k :: k != key ==> Lookup(Put(ms, key, value), k) == Lookup(ms, k)
  {
    PutKeepsOthers(ms, key, value);
    if ms != [] && !Less(key, ms[0].key) && ms[0].key != key {
      LessTotal(key, ms[0].key);
      PutKeepsOrder(ms[1..], key, value);
      PutBelow(ms, key, value);
    } else if ms != [] {
      LessIrreflexive(key);
      AboveFirst(ms, key);
      assert ms == [ms[0]] + ms[1..];
      if ms[0].key == key {
        OrderedCons(Member(key, value), ms[1..]);
      } else {
        OrderedCons(Member(key, value), ms);
      }
    }
  }

  lemma PutBelow(ms: seq<Member>, key: string, value: Value)
    requires Ordered(ms) && ms != [] && Less(ms[0].key, key)
    requires Ordered(Put(ms[1..], key, value))
    requires forall m :: m in Put(ms[1..], key, value) <==> (m in ms[1..] && m.key != key) || m == Member(key, value)
    ensures Ordered([ms[0]] + Put(ms[1..], key, value)) && ms[0].key != key
    ensures forall m :: m in [ms[0]] + Put(ms[1..], key, value) <==> (m in ms && m.key != key) || m == Member(key, value)
  {
    LessIrreflexive(key);
    AboveFirst(ms, ms[0].key);
    assert ms == [ms[0]] + ms[1..];
    OrderedCons(ms[0], Put(ms[1..], key, value));
  }

  lemma {:induction false} PutKeepsOthers(ms: seq<Member>, key: string, value: Value)
    ensures forall k :: k != key ==> Lookup(Put(ms, key, value), k) == Lookup(ms, k)
  {
    if ms != [] && !Less(key, ms[0].key) && ms[0].key != key {
      PutKeepsOthers(ms[1..], key, value);
    }
  }

  lemma OrderedCons(m: Member, ms: seq<Member>)
    requires Ordered(ms) && NUL !in m.key && forall x :: x in ms ==> Less(m.key, x.key)
    ensures Ordered([m] + ms)
  {
  }
}

/** What json_writer.cpp writes for a value: its lexemes, their text, and the texts that spell them out. */
module JsonText {
  import opened JsonValue

  predicate IsSpace(c: char) { c == ' ' || c == '\t' || c == '\r' || c == '\n' }

  predicate IsDigit(c: char) { '0' <= c <= '9' }

  predicate IsNumberChar(c: char) { IsDigit(c) || c == '.' || c == 'e' || c == 'E' || c == '+' || c == '-' }

  predicate IsControl(c: char) { '\0' < c <= '\U{1F}' }

  function Digit(v: int): (c: char)
    requires 0 <= v < 10
    ensures IsDigit(c) && c as int == '0' as int + v
  {
    (48 + v) as char
  }

  function HexDigit(v: int): (c: char)
    requires 0 <= v < 16
  {
    if v < 10 then Digit(v) else (55 + v) as char
  }

  function Decimal(n: nat): (r: string)
    ensures r != "" && forall c :: c in r ==> IsDigit(c)
  {
    (if n < 10 then "" else Decimal(n / 10)) + [Digit(n % 10)]
  }

  function Escape(c: char): (r: string)
    ensures r != ""
  {
    if c == '"' then "\\\""
    else if c == '\\' then "\\\\"
    else if c == '\U{8}' then "\\b"
    else if c == '\U{C}' then "\\f"
    else if c == '\n' then "\\n"
    else if c == '\r' then "\\r"
    else if c == '\t' then "\\t"
    else if IsControl(c) then "\\u00" + [HexDigit(c as int / 16), HexDigit(c as int % 16)]
    else [c]
  }

  function Escaped(s: string): (r: string) {
    if s == "" then "" else Escape(s[0]) + Escaped(s[1..])
  }

  function Quoted(s: string): (r: string)
    ensures |r| >= 2
  {
    "\"" + Escaped(s) + "\""
  }

  datatype Lexeme =
    | ObjBegin | ObjEnd | ArrBegin | ArrEnd | Comma | Colon
    | LNull | LTrue | LFalse
    | LString(s: string)
    | LNumber(n: int)
    | LReal(shown: string)

  function Text(l: Lexeme): (r: string) {
    match l
    case ObjBegin => "{"
    case ObjEnd => "}"
    case ArrBegin => "["
    case ArrEnd => "]"
    case Comma => ","
    case Colon => ":"
    case LNull => "null"
    case LTrue => "true"
    case LFalse => "false"
    case LString(s) => Quoted(s)
    case LNumber(n) => if n < 0 then "-" + Decimal(-n) else Decimal(n)
    case LReal(shown) => shown
  }

  predicate IsNumber(l: Lexeme) { l.LNumber? || l.LReal? }

  /** The lexemes of a value, followed by others. */
  function Emit(v: Value, rest: seq<Lexeme>): (r: seq<Lexeme>)
    decreases v, 1, 0
  {
    match v
    case Null => [LNull] + rest
    case Int(i) => [LNumber(i)] + rest
    case UInt(u) => [LNumber(u)] + rest
    case Real(shown) => [LReal(shown)] + rest
    case Bool(b) => [if b then LTrue else LFalse] + rest
    case Str(s) => [LString(CString(s))] + rest
    case Arr(slots) => [ArrBegin] + EmitItems(v, 0, [ArrEnd] + rest)
    case Obj(members) => [ObjBegin] + EmitMembers(v, 0, [ObjEnd] + rest)
  }

  /** The items from one on, each but the first after a comma. An absent one reads as null. */
  function EmitItems(v: Value, k: nat, rest: seq<Lexeme>): (r: seq<Lexeme>)
    requires v.Arr? && k <= |v.slots|
    decreases v, 0, |v.slots| - k
  {
    if k == |v.slots| then rest
    else if k > 0 then [Comma] + EmitItem(v.slots[k], EmitItems(v, k + 1, rest))
    else EmitItem(v.slots[k], EmitItems(v, k + 1, rest))
  }

  function EmitItem(slot: Slot, rest: seq<Lexeme>): (r: seq<Lexeme>)
    decreases slot, 2, 0
  {
    match slot
    case Absent => [LNull] + rest
    case Present(item) => Emit(item, rest)
  }

  function EmitMembers(v: Value, k: nat, rest: seq<Lexeme>): (r: seq<Lexeme>)
    requires v.Obj? && k <= |v.members|
    decreases v, 0, |v.members| - k
  {
    if k == |v.members| then rest
    else if k > 0 then [Comma] + EmitMember(v.members[k], EmitMembers(v, k + 1, rest))
    else EmitMember(v.members[k], EmitMembers(v, k + 1, rest))
  }

  function EmitMember(m: Member, rest: seq<Lexeme>): (r: seq<Lexeme>)
    decreases m, 2, 0
  {
    [LString(CString(m.key))] + ([Colon] + Emit(m.value, rest))
  }

  /** The lexemes of a value. */
  function Tokens(v: Value): (r: seq<Lexeme>) { Emit(v, []) }

  /** A text that is scanned as one number: a printed double that is neither infinite nor a NaN. */
  predicate NumberLike(s: string) {
    s != "" && (IsDigit(s[0]) || s[0] == '-') && forall k :: 0 <= k < |s| ==> IsNumberChar(s[k])
  }

  predicate Scans(l: Lexeme) { l.LReal? ==> NumberLike(l.shown) }

  /** The values the printers are for: 32-bit integers, and doubles that print as numbers. */
  ghost predicate Shown(v: Value) {
    match v
    case Int(i) => -(MAX_INT as int) - 1 <= i <= MAX_UINT
    case UInt(u) => u <= MAX_UINT
    case Real(shown) => NumberLike(shown)
    case Arr(slots) => forall k :: 0 <= k < |slots| && slots[k].Present? ==> Shown(slots[k].value)
    case Obj(members) => forall k :: 0 <= k < |members| ==> Shown(members[k].value)
    case _ => true
  }

  // ----- The texts that spell out a sequence of lexemes -----

  function SkipSpaces(s: string): (r: string)
    ensures |r| <= |s| && (r != "" ==> !IsSpace(r[0]))
    ensures s != "" && !IsSpace(s[0]) ==> r == s
  {
    if s == "" || !IsSpace(s[0]) then s else SkipSpaces(s[1..])
  }

  predicate NoNumberAhead(s: string) { s == "" || !IsNumberChar(s[0]) }

  /** After any space comes the lexeme, and no number's character right behind a number. */
  predicate Starts(s: string, l: Lexeme) {
    var t := SkipSpaces(s);
    Text(l) != "" && Text(l) <= t && (IsNumber(l) ==> NoNumberAhead(t[|Text(l)|..]))
  }

  function After(s: string, l: Lexeme): (r: string)
    requires Starts(s, l)
  {
    SkipSpaces(s)[|Text(l)|..]
  }

  /** The lexemes in order with any space before, between and behind them. */
  predicate Spells(s: string, lexemes: seq<Lexeme>)
    decreases |lexemes|
  {
    if lexemes == [] then SkipSpaces(s) == ""
    else Starts(s, lexemes[0]) && Spells(After(s, lexemes[0]), lexemes[1..])
  }

  lemma {:induction false} SkipSpacesAppend(a: string, b: string)
    ensures SkipSpaces(a + b) == if SkipSpaces(a) == "" then SkipSpaces(b) else SkipSpaces(a) + b
  {
    if a == "" {
      assert a + b == b;
    } else if IsSpace(a[0]) {
      SkipSpacesAppend(a[1..], b);
      assert (a + b)[1..] == a[1..] + b;
    }
  }

  lemma StartsAppend(a: string, l: Lexeme, b: string)
    requires Starts(a, l) && (IsNumber(l) && After(a, l) == "" ==> NoNumberAhead(b))
    ensures Starts(a + b, l) && After(a + b, l) == After(a, l) + b
  {
    SkipSpacesAppend(a, b);
    var t, n := SkipSpaces(a), |Text(l)|;
    assert t != "";
    assert (t + b)[n..] == t[n..] + b;
    assert Text(l) <= t + b;
  }

  predicate EndsInNumber(x: seq<Lexeme>) { x != [] && IsNumber(x[|x| - 1]) }

  lemma SpellsCons(s: string, l: Lexeme, x: seq<Lexeme>)
    ensures Spells(s, [l] + x) <==> Starts(s, l) && Spells(After(s, l), x)
  {
    assert ([l] + x)[1..] == x;
  }

  lemma SpellsNonEmpty(s: string, x: seq<Lexeme>)
    requires Spells(s, x) && x != []
    ensures s != ""
  {
  }

  lemma PutInFront(a: string, l: Lexeme, b: string, x: seq<Lexeme>)
    requires Starts(a, l) && (IsNumber(l) && After(a, l) == "" ==> NoNumberAhead(b))
    requires Spells(After(a, l) + b, x)
    ensures Spells(a + b, [l] + x)
  {
    StartsAppend(a, l, b);
    SpellsCons(a + b, l, x);
  }

  lemma Uncons<T>(x: seq<T>, y: seq<T>)
    requires x != []
    ensures x + y == [x[0]] + (x[1..] + y)
  {
  }

  lemma NumberNotAtEnd(a: string, x: seq<Lexeme>, b: string)
    requires x != [] && Spells(a, x) && (EndsInNumber(x) ==> NoNumberAhead(b))
    ensures IsNumber(x[0]) && After(a, x[0]) == "" ==> NoNumberAhead(b)
    ensures EndsInNumber(x[1..]) ==> NoNumberAhead(b)
  {
    if |x| > 1 {
      SpellsNonEmpty(After(a, x[0]), x[1..]);
    }
  }

  /** Texts can be put one after the other unless this puts a number's character right behind a number. */
  lemma {:induction false} SpellsAppend(a: string, x: seq<Lexeme>, b: string, y: seq<Lexeme>)
    requires Spells(a, x) && Spells(b, y)
    requires EndsInNumber(x) ==> NoNumberAhead(b)
    ensures Spells(a + b, x + y)
    decreases |x|
  {
    if x == [] {
      SkipSpacesAppend(a, b);
      assert x + y == y;
      SpellsSkip(a + b, b, y);
    } else {
      NumberNotAtEnd(a, x, b);
      SpellsAppend(After(a, x[0]), x[1..], b, y);
      PutInFront(a, x[0], b, x[1..] + y);
      Uncons(x, y);
    }
  }

  lemma SpellsSkip(s: string, t: string, x: seq<Lexeme>)
    requires SkipSpaces(s) == SkipSpaces(t)
    ensures Spells(s, x) <==> Spells(t, x)
  {
  }
}
