/** json_writer.cpp: printing numbers and strings, and the two printers of comment-free values. */
module JsonWriter {
  import opened Sequences
  import opened JsonValue
  import opened JsonText

  // ----- Numbers and strings -----

  /** n has at most k decimal digits. */
  lemma {:induction false} DecimalLength(n: nat, k: nat)
    requires n < Power10(k) && k > 0
    ensures |Decimal(n)| <= k
  {
    if n >= 10 {
      DecimalLength(n / 10, k - 1);
    }
  }

  function Power10(k: nat): nat { if k == 0 then 1 else 10 * Power10(k - 1) }

  lemma TenDigits(value: nat)
    requires value <= MAX_UINT
    ensures |Decimal(value)| <= 10
  {
    assert Power10(5) == 100000;
    assert Power10(10) == 10000000000;
    DecimalLength(value, 10);
  }

  /** Writes a terminated number backwards from a position in the buffer. */
  method uintToString(value: nat, buffer: array<char>, top: nat) returns (current: nat)
    requires value <= MAX_UINT && 11 <= top <= buffer.Length
    modifies buffer
    ensures top - 11 <= current < top && buffer[current..top - 1] == Decimal(value) && buffer[top - 1] == NUL
  {
    TenDigits(value);
    var last := top - 1;
    buffer[last] := NUL;
    current := last - 1;
    buffer[current] := Digit(value % 10);
    var rest := value / 10;
    while rest != 0
      invariant 0 <= current < last && buffer[last] == NUL && rest >= 0
      invariant DigitsBefore(rest) + buffer[current..last] == Decimal(value)
      decreases rest
    {
      ghost var digits := buffer[current..last];
      Regroup(DigitsBefore(rest / 10), [Digit(rest % 10)], digits);
      current := current - 1;
      buffer[current] := Digit(rest % 10);
      assert buffer[current..last] == [Digit(rest % 10)] + digits;
      rest := rest / 10;
    }
  }

  /** The digits still to be written; none for 0. */
  function DigitsBefore(n: nat): string { if n == 0 then "" else Decimal(n) }

  method valueToString(value: int) returns (r: string)
    requires -(MAX_INT as int) - 1 <= value <= MAX_UINT
    ensures r == Text(LNumber(value))
  {
    var buffer := new char[32](_ => NUL);
    var isNegative := value < 0;
    var current := uintToString(if isNegative then -value else value, buffer, 32);
    if isNegative {
      ghost var digits := buffer[current..31];
      current := current - 1;
      buffer[current] := '-';
      assert buffer[current..31] == "-" + digits;
    }
    r := buffer[current..31];
  }

  predicate NeedsEscape(c: char) {
    c == '"' || c == '\\' || c == '\U{8}' || c == '\U{C}' || c == '\n' || c == '\r' || c == '\t' || IsControl(c)
  }

  lemma {:induction false} NothingEscaped(s: string)
    requires forall c :: c in s ==> !NeedsEscape(c)
    ensures Escaped(s) == s
  {
    if s != "" {
      assert s[0] in s && forall c :: c in s[1..] ==> c in s;
      NothingEscaped(s[1..]);
      assert s == [s[0]] + s[1..];
    }
  }

  lemma {:induction false} EscapedAppend(a: string, b: string)
    ensures Escaped(a + b) == Escaped(a) + Escaped(b)
  {
    if a == "" {
      assert a + b == b;
    } else {
      assert (a + b)[0] == a[0] && (a + b)[1..] == a[1..] + b;
      EscapedAppend(a[1..], b);
      Regroup(Escape(a[0]), Escaped(a[1..]), Escaped(b));
    }
  }

  /** The characters before the first NUL, quoted; without any to escape they are copied at once. */
  method valueToQuotedString(value: string) returns (r: string)
    ensures r == Quoted(CString(value))
  {
    var s := CString(value);
    if forall c | c in s :: !NeedsEscape(c) {
      NothingEscaped(s);
      return "\"" + s + "\"";
    }
    var body := escapeEach(s);
    r := "\"" + body + "\"";
  }

  method escapeEach(s: string) returns (r: string)
    ensures r == Escaped(s)
  {
    r := "";
    var c := 0;
    while c < |s|
      invariant 0 <= c <= |s| && r == Escaped(s[..c])
    {
      EscapedSnoc(s, c);
      r := r + Escape(s[c]);
      c := c + 1;
    }
    assert s[..c] == s;
  }

  lemma EscapedSnoc(s: string, c: nat)
    requires c < |s|
    ensures Escaped(s[..c + 1]) == Escaped(s[..c]) + Escape(s[c])
  {
    assert s[..c + 1] == s[..c] + [s[c]];
    EscapedAppend(s[..c], [s[c]]);
    assert Escaped([s[c]]) == Escape(s[c]) + Escaped([]);
  }

  // ----- The lexemes of a value, one after the other -----

  lemma {:induction false} EmitRest(v: Value, rest: seq<Lexeme>)
    ensures Emit(v, rest) == Tokens(v) + rest
    decreases v, 1, 0
  {
    match v
    case Arr(slots) =>
      ItemsRest(v, 0, [ArrEnd], rest);
      assert [ArrEnd] + [] == [ArrEnd];
    case Obj(members) =>
      MembersRest(v, 0, [ObjEnd], rest);
      assert [ObjEnd] + [] == [ObjEnd];
    case _ =>
  }

  lemma {:induction false} ItemsRest(v: Value, k: nat, x: seq<Lexeme>, rest: seq<Lexeme>)
    requires v.Arr? && k <= |v.slots|
    ensures EmitItems(v, k, x + rest) == EmitItems(v, k, x) + rest
    decreases v, 0, |v.slots| - k
  {
    if k < |v.slots| {
      ItemsRest(v, k + 1, x, rest);
      ItemRest(v.slots[k], EmitItems(v, k + 1, x), rest);
    }
  }

  lemma {:induction false} ItemRest(slot: Slot, x: seq<Lexeme>, rest: seq<Lexeme>)
    ensures EmitItem(slot, x + rest) == EmitItem(slot, x) + rest
    decreases slot, 2, 0
  {
    if slot.Present? {
      EmitRest(slot.value, x);
      EmitRest(slot.value, x + rest);
    }
  }

  lemma {:induction false} MembersRest(v: Value, k: nat, x: seq<Lexeme>, rest: seq<Lexeme>)
    requires v.Obj? && k <= |v.members|
    ensures EmitMembers(v, k, x + rest) == EmitMembers(v, k, x) + rest
    decreases v, 0, |v.members| - k
  {
    if k < |v.members| {
      MembersRest(v, k + 1, x, rest);
      EmitRest(v.members[k].value, EmitMembers(v, k + 1, x));
      EmitRest(v.members[k].value, EmitMembers(v, k + 1, x) + rest);
    }
  }

  // ----- FastWriter -----

  function Piece(l: Lexeme, yaml: bool): string { if l == Colon && yaml then ": " else Text(l) }

  /** The texts of the lexemes without anything between them; in YAML mode a colon is followed by a space. */
  function Flat(x: seq<Lexeme>, yaml: bool): (r: string) {
    if x == [] then "" else Piece(x[0], yaml) + Flat(x[1..], yaml)
  }

  lemma FlatCons(l: Lexeme, x: seq<Lexeme>, yaml: bool)
    ensures Flat([l] + x, yaml) == Piece(l, yaml) + Flat(x, yaml)
  {
    assert ([l] + x)[1..] == x;
  }

  lemma {:induction false} FlatAppend(x: seq<Lexeme>, y: seq<Lexeme>, yaml: bool)
    ensures Flat(x + y, yaml) == Flat(x, yaml) + Flat(y, yaml)
  {
    if x == [] {
      assert x + y == y;
    } else {
      FlatAppend(x[1..], y, yaml);
      Uncons(x, y);
      FlatCons(x[0], x[1..] + y, yaml);
      Regroup(Piece(x[0], yaml), Flat(x[1..], yaml), Flat(y, yaml));
    }
  }

  lemma FlatValue(v: Value, rest: seq<Lexeme>, yaml: bool)
    ensures Flat(Emit(v, rest), yaml) == Flat(Tokens(v), yaml) + Flat(rest, yaml)
  {
    EmitRest(v, rest);
    FlatAppend(Tokens(v), rest, yaml);
  }

  class FastWriter {
    var document_: string
    var yamlCompatiblityEnabled_: bool

    constructor ()
      ensures document_ == "" && !yamlCompatiblityEnabled_
    {
      document_, yamlCompatiblityEnabled_ := "", false;
    }

    method enableYAMLCompatibility()
      modifies this`yamlCompatiblityEnabled_
      ensures yamlCompatiblityEnabled_
    {
      yamlCompatiblityEnabled_ := true;
    }

    method write(root: Value) returns (r: string)
      requires Shown(root)
      modifies this`document_
      ensures r == Flat(Tokens(root), yamlCompatiblityEnabled_) + "\n"
    {
      document_ := "";
      writeValue(root);
      document_ := document_ + "\n";
      r := document_;
    }

    method append(text: string, ghost l: Lexeme, ghost rest: seq<Lexeme>)
      requires text == Piece(l, yamlCompatiblityEnabled_)
      modifies this`document_
      ensures document_ + Flat(rest, yamlCompatiblityEnabled_)
           == old(document_) + Flat([l] + rest, yamlCompatiblityEnabled_)
    {
      FlatCons(l, rest, yamlCompatiblityEnabled_);
      Regroup(document_, text, Flat(rest, yamlCompatiblityEnabled_));
      document_ := document_ + text;
    }

    method writeValue(value: Value)
      requires Shown(value)
      modifies this`document_
      ensures document_ == old(document_) + Flat(Tokens(value), yamlCompatiblityEnabled_)
      decreases value, 2, 0
    {
      match value
      case Null =>
        append("null", LNull, []);
      case Int(i) =>
        var text := valueToString(i);
        append(text, LNumber(i), []);
      case UInt(u) =>
        var text := valueToString(u);
        append(text, LNumber(u), []);
      case Real(shown) =>
        append(shown, LReal(shown), []);
      case Str(s) =>
        var text := valueToQuotedString(s);
        append(text, LString(CString(s)), []);
      case Bool(b) =>
        append(if b then "true" else "false", if b then LTrue else LFalse, []);
      case Arr(slots) =>
        writeArray(value);
      case Obj(members) =>
        writeObject(value);
    }

    method writeArray(value: Value)
      requires value.Arr? && Shown(value)
      modifies this`document_
      ensures document_ == old(document_) + Flat(Tokens(value), yamlCompatiblityEnabled_)
      decreases value, 1, 0
    {
      ghost var end := [ArrEnd] + [];
      assert Tokens(value) == [ArrBegin] + EmitItems(value, 0, end);
      append("[", ArrBegin, EmitItems(value, 0, end));
      var index := 0;
      while index < |value.slots|
        invariant 0 <= index <= |value.slots|
        invariant document_ + Flat(EmitItems(value, index, end), yamlCompatiblityEnabled_)
               == old(document_) + Flat(Tokens(value), yamlCompatiblityEnabled_)
      {
        writeItemAt(value, index, end);
        index := index + 1;
      }
      append("]", ArrEnd, []);
    }

    method writeItemAt(value: Value, index: nat, ghost end: seq<Lexeme>)
      requires value.Arr? && Shown(value) && index < |value.slots|
      modifies this`document_
      ensures document_ + Flat(EmitItems(value, index + 1, end), yamlCompatiblityEnabled_)
           == old(document_) + Flat(EmitItems(value, index, end), yamlCompatiblityEnabled_)
      decreases value, 0, 0
    {
      ghost var rest := EmitItems(value, index + 1, end);
      if index > 0 {
        append(",", Comma, EmitItem(value.slots[index], rest));
      }
      writeItem(value.slots[index], rest);
    }

    /** An absent item is the null value. */
    method writeItem(slot: Slot, ghost rest: seq<Lexeme>)
      requires slot.Present? ==> Shown(slot.value)
      modifies this`document_
      ensures document_ + Flat(rest, yamlCompatiblityEnabled_)
           == old(document_) + Flat(EmitItem(slot, rest), yamlCompatiblityEnabled_)
      decreases slot, 3, 0
    {
      match slot
      case Absent =>
        append("null", LNull, rest);
      case Present(item) =>
        FlatValue(item, rest, yamlCompatiblityEnabled_);
        Regroup(document_, Flat(Tokens(item), yamlCompatiblityEnabled_), Flat(rest, yamlCompatiblityEnabled_));
        writeValue(item);
    }

    method writeObject(value: Value)
      requires value.Obj? && Shown(value)
      modifies this`document_
      ensures document_ == old(document_) + Flat(Tokens(value), yamlCompatiblityEnabled_)
      decreases value, 1, 0
    {
      ghost var end := [ObjEnd] + [];
      assert Tokens(value) == [ObjBegin] + EmitMembers(value, 0, end);
      append("{", ObjBegin, EmitMembers(value, 0, end));
      var it := 0;
      while it < |value.members|
        invariant 0 <= it <= |value.members|
        invariant document_ + Flat(EmitMembers(value, it, end), yamlCompatiblityEnabled_)
               == old(document_) + Flat(Tokens(value), yamlCompatiblityEnabled_)
      {
        writeMemberAt(value, it, end);
        it := it + 1;
      }
      append("}", ObjEnd, []);
    }

    method writeMemberAt(value: Value, it: nat, ghost end: seq<Lexeme>)
      requires value.Obj? && Shown(value) && it < |value.members|
      modifies this`document_
      ensures document_ + Flat(EmitMembers(value, it + 1, end), yamlCompatiblityEnabled_)
           == old(document_) + Flat(EmitMembers(value, it, end), yamlCompatiblityEnabled_)
      decreases value, 0, 0
    {
      ghost var rest := EmitMembers(value, it + 1, end);
      if it > 0 {
        append(",", Comma, EmitMember(value.members[it], rest));
      }
      writeMember(value.members[it], rest);
    }

    method writeMember(m: Member, ghost rest: seq<Lexeme>)
      requires Shown(m.value)
      modifies this`document_
      ensures document_ + Flat(rest, yamlCompatiblityEnabled_)
           == old(document_) + Flat(EmitMember(m, rest), yamlCompatiblityEnabled_)
      decreases m, 3, 0
    {
      var name := valueToQuotedString(m.key);
      append(name, LString(CString(m.key)), [Colon] + Emit(m.value, rest));
      append(if yamlCompatiblityEnabled_ then ": " else ":", Colon, Emit(m.value, rest));
      FlatValue(m.value, rest, yamlCompatiblityEnabled_);
      Regroup(document_, Flat(Tokens(m.value), yamlCompatiblityEnabled_), Flat(rest, yamlCompatiblityEnabled_));
      writeValue(m.value);
    }
  }

  // ----- What FastWriter writes spells out the value -----

  /** What may follow a value: nothing, or a lexeme that is no value. */
  ghost predicate Closes(x: seq<Lexeme>) {
    x == [] || x[0] == Comma || x[0] == ArrEnd || x[0] == ObjEnd
  }

  lemma TextStarts(l: Lexeme)
    requires Scans(l)
    ensures Text(l) != "" && !IsSpace(Text(l)[0])
  {
    if l.LNumber? && l.n >= 0 {
      assert Text(l)[0] in Decimal(l.n);
    }
  }

  lemma StartsThere(l: Lexeme, more: string)
    requires Scans(l)
    requires IsNumber(l) ==> NoNumberAhead(more)
    ensures Starts(Text(l) + more, l) && After(Text(l) + more, l) == more
  {
    TextStarts(l);
    var s := Text(l) + more;
    assert s != "" && s[0] == Text(l)[0];
    assert s[|Text(l)|..] == more;
  }

  lemma ClosesWell(x: seq<Lexeme>, yaml: bool)
    requires Closes(x)
    ensures NoNumberAhead(Flat(x, yaml))
  {
  }

  lemma ConsSpells(l: Lexeme, x: seq<Lexeme>, yaml: bool)
    requires Scans(l)
    requires Spells(Flat(x, yaml), x) && (IsNumber(l) ==> Closes(x))
    ensures Spells(Flat([l] + x, yaml), [l] + x)
  {
    FlatCons(l, x, yaml);
    if IsNumber(l) {
      ClosesWell(x, yaml);
    }
    if l == Colon && yaml {
      ColonSpells(Flat(x, yaml), x);
    } else {
      StartsThere(l, Flat(x, yaml));
      SpellsCons(Text(l) + Flat(x, yaml), l, x);
    }
  }

  /** A colon with a space behind it. */
  lemma ColonSpells(more: string, x: seq<Lexeme>)
    requires Spells(more, x)
    ensures Spells(": " + more, [Colon] + x)
  {
    assert (" " + more)[1..] == more;
    SpellsSkip(" " + more, more, x);
    StartsThere(Colon, " " + more);
    assert ": " + more == ":" + (" " + more);
    SpellsCons(": " + more, Colon, x);
  }

  lemma {:induction false} ValueSpells(v: Value, rest: seq<Lexeme>, yaml: bool)
    requires Shown(v) && Closes(rest) && Spells(Flat(rest, yaml), rest)
    ensures Spells(Flat(Emit(v, rest), yaml), Emit(v, rest))
    decreases v, 1, 0
  {
    match v
    case Null => ConsSpells(LNull, rest, yaml);
    case Int(i) => ConsSpells(LNumber(i), rest, yaml);
    case UInt(u) => ConsSpells(LNumber(u), rest, yaml);
    case Real(shown) => ConsSpells(LReal(shown), rest, yaml);
    case Bool(b) => ConsSpells(if b then LTrue else LFalse, rest, yaml);
    case Str(s) => ConsSpells(LString(CString(s)), rest, yaml);
    case Arr(slots) =>
      ConsSpells(ArrEnd, rest, yaml);
      ItemsSpell(v, 0, [ArrEnd] + rest, yaml);
      ConsSpells(ArrBegin, EmitItems(v, 0, [ArrEnd] + rest), yaml);
    case Obj(members) =>
      ConsSpells(ObjEnd, rest, yaml);
      MembersSpell(v, 0, [ObjEnd] + rest, yaml);
      ConsSpells(ObjBegin, EmitMembers(v, 0, [ObjEnd] + rest), yaml);
  }

  lemma {:induction false} ItemsSpell(v: Value, k: nat, rest: seq<Lexeme>, yaml: bool)
    requires v.Arr? && Shown(v) && k <= |v.slots| && Closes(rest) && Spells(Flat(rest, yaml), rest)
    ensures Spells(Flat(EmitItems(v, k, rest), yaml), EmitItems(v, k, rest))
    ensures k > 0 ==> Closes(EmitItems(v, k, rest))
    decreases v, 0, |v.slots| - k
  {
    if k < |v.slots| {
      var more := EmitItems(v, k + 1, rest);
      ItemsSpell(v, k + 1, rest, yaml);
      match v.slots[k] {
        case Absent => ConsSpells(LNull, more, yaml);
        case Present(item) => ValueSpells(item, more, yaml);
      }
      ConsSpells(Comma, EmitItem(v.slots[k], more), yaml);
    }
  }

  lemma {:induction false} MembersSpell(v: Value, k: nat, rest: seq<Lexeme>, yaml: bool)
    requires v.Obj? && Shown(v) && k <= |v.members| && Closes(rest) && Spells(Flat(rest, yaml), rest)
    ensures Spells(Flat(EmitMembers(v, k, rest), yaml), EmitMembers(v, k, rest))
    ensures k > 0 ==> Closes(EmitMembers(v, k, rest))
    decreases v, 0, |v.members| - k
  {
    if k < |v.members| {
      var m, more := v.members[k], EmitMembers(v, k + 1, rest);
      MembersSpell(v, k + 1, rest, yaml);
      ValueSpells(m.value, more, yaml);
      ConsSpells(Colon, Emit(m.value, more), yaml);
      ConsSpells(LString(CString(m.key)), [Colon] + Emit(m.value, more), yaml);
      ConsSpells(Comma, EmitMember(m, more), yaml);
    }
  }

  /** The document of FastWriter spells out its value. */
  lemma FastSpells(v: Value, yaml: bool)
    requires Shown(v)
    ensures Spells(Flat(Tokens(v), yaml) + "\n", Tokens(v))
  {
    ValueSpells(v, [], yaml);
    SpellsAppend(Flat(Tokens(v), yaml), Tokens(v), "\n", []);
    assert Tokens(v) + [] == Tokens(v);
  }
}
