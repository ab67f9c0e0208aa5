/** json_writer.cpp: the printer that indents, for comment-free values. */
module JsonStyledWriter {
  import opened Sequences
  import opened JsonValue
  import opened JsonText
  import opened JsonWriter

  /** A value that prints as one piece: no array or object with something in it. */
  predicate Simple(v: Value) { !(v.Arr? && v.slots != []) && !(v.Obj? && v.members != []) }

  function ItemTokens(slot: Slot): seq<Lexeme> { EmitItem(slot, []) }

  predicate Blank(s: string) { forall k :: 0 <= k < |s| ==> IsSpace(s[k]) }

  lemma {:induction false} BlankSpells(s: string)
    requires Blank(s)
    ensures Spells(s, [])
  {
    if s != "" {
      BlankSpells(s[1..]);
    }
  }

  /** A new line and the indentation, without what is already there. */
  function IndentAfter(document: string, indentation: string): string {
    if document == "" || document[|document| - 1] == '\n' then indentation
    else if document[|document| - 1] == ' ' then ""
    else "\n" + indentation
  }

  function TotalLength(texts: seq<string>): nat {
    if texts == [] then 0 else TotalLength(texts[..|texts| - 1]) + |texts[|texts| - 1]|
  }

  lemma NoNumberInSpace(s: string)
    requires Blank(s)
    ensures NoNumberAhead(s)
  {
    assert s != "" ==> IsSpace(s[0]);
  }

  lemma PieceSpells(l: Lexeme)
    requires Scans(l)
    ensures Spells(Text(l), [l])
  {
    StartsThere(l, "");
    assert Text(l) + "" == Text(l);
  }

  lemma PairSpells(a: Lexeme, b: Lexeme)
    requires !IsNumber(a) && !IsNumber(b)
    ensures Spells(Text(a) + Text(b), [a, b])
  {
    PieceSpells(a);
    PieceSpells(b);
    SpellsAppend(Text(a), [a], Text(b), [b]);
    assert [a] + [b] == [a, b];
  }

  /** A lexeme with spaces around it. */
  lemma PaddedSpells(a: string, l: Lexeme, b: string)
    requires !IsNumber(l) && Blank(a) && Blank(b)
    ensures Spells(a + Text(l) + b, [l])
  {
    PieceSpells(l);
    BlankSpells(a);
    BlankSpells(b);
    SpellsAppend(a, [], Text(l), [l]);
    assert [] + [l] == [l] && [l] + [] == [l];
    SpellsAppend(a + Text(l), [l], b, []);
  }

  class StyledWriter {
    var document_: string
    var childValues_: seq<string>
    var addChildValues_: bool
    var indentString_: string
    const rightMargin_: nat
    const indentSize_: nat
    ghost var Written: seq<Lexeme>     // what the document spells out

    ghost predicate Valid()
      reads this
    {
      Spells(document_, Written) && Blank(indentString_)
    }

    constructor ()
      ensures rightMargin_ == 74 && indentSize_ == 3
    {
      document_, childValues_, addChildValues_, indentString_ := "", [], false, "";
      rightMargin_, indentSize_ := 74, 3;
      Written := [];
    }

    /** Adds to the document. */
    method emit(text: string, ghost x: seq<Lexeme>)
      requires Valid() && Spells(text, x) && (EndsInNumber(Written) ==> NoNumberAhead(text))
      modifies this`document_, this`Written
      ensures Valid() && Written == old(Written) + x && document_ == old(document_) + text
    {
      SpellsAppend(document_, Written, text, x);
      document_ := document_ + text;
      Written := Written + x;
    }

    method pushValue(text: string, ghost x: seq<Lexeme>)
      requires Valid() && Spells(text, x) && !EndsInNumber(Written)
      modifies this`document_, this`Written, this`childValues_
      ensures Pushed(old(document_), old(Written), old(childValues_), x)
    {
      if addChildValues_ {
        childValues_ := childValues_ + [text];
      } else {
        emit(text, x);
      }
    }

    /** The lexemes went to the document, or as one more text to the child values. */
    ghost predicate Pushed(document: string, written: seq<Lexeme>, children: seq<string>, x: seq<Lexeme>)
      reads this
    {
      && Valid()
      && if addChildValues_
         then document_ == document && Written == written && |childValues_| == |children| + 1
              && children <= childValues_ && Spells(childValues_[|children|], x)
         else Written == written + x
    }

    method writeIndent()
      requires Valid()
      modifies this`document_, this`Written
      ensures Valid() && Written == old(Written)
      ensures document_ == old(document_) + IndentAfter(old(document_), indentString_)
    {
      var space := indentString_;
      if document_ != "" {
        var last := document_[|document_| - 1];
        if last == ' ' {
          assert document_ + "" == document_;
          return;
        }
        if last != '\n' {
          space := "\n" + space;
        }
      }
      BlankSpells(space);
      NoNumberInSpace(space);
      assert Written + [] == Written;
      emit(space, []);
    }

    method writeWithIndent(text: string, ghost x: seq<Lexeme>)
      requires Valid() && Spells(text, x) && !EndsInNumber(Written)
      modifies this`document_, this`Written
      ensures Valid() && Written == old(Written) + x
    {
      writeIndent();
      emit(text, x);
    }

    method indent()
      requires Blank(indentString_)
      modifies this`indentString_
      ensures indentString_ == old(indentString_) + seq(indentSize_, _ => ' ') && Blank(indentString_)
    {
      indentString_ := indentString_ + seq(indentSize_, _ => ' ');
    }

    method unindent()
      requires Blank(indentString_) && |indentString_| >= indentSize_
      modifies this`indentString_
      ensures indentString_ == old(indentString_)[..|old(indentString_)| - indentSize_] && Blank(indentString_)
    {
      indentString_ := indentString_[..|indentString_| - indentSize_];
    }

    method write(root: Value) returns (r: string)
      requires Shown(root)
      modifies this
      ensures Spells(r, Tokens(root)) && indentString_ == ""
    {
      document_, addChildValues_, indentString_, Written := "", false, "", [];
      writeValue(root);
      BlankSpells("\n");
      emit("\n", []);
      assert [] + Tokens(root) + [] == Tokens(root);
      r := document_;
    }

    method writeValue(value: Value)
      requires Valid() && Shown(value) && !EndsInNumber(Written) && (addChildValues_ ==> Simple(value))
      modifies this
      ensures addChildValues_ == old(addChildValues_) && indentString_ == old(indentString_)
      ensures Pushed(old(document_), old(Written), old(childValues_), Tokens(value))
      decreases value, 4
    {
      if value.Arr? {
        writeArrayValue(value);
      } else if value.Obj? {
        writeObjectValue(value);
      } else {
        var text, l := atomText(value);
        PieceSpells(l);
        pushValue(text, [l]);
      }
    }

    /** The text of a value of one lexeme. */
    method atomText(value: Value) returns (text: string, ghost l: Lexeme)
      requires Shown(value) && !value.Arr? && !value.Obj?
      ensures Tokens(value) == [l] && text == Text(l) && Scans(l)
    {
      match value
      case Null =>
        text, l := "null", LNull;
      case Int(i) =>
        text := valueToString(i);
        l := LNumber(i);
      case UInt(u) =>
        text := valueToString(u);
        l := LNumber(u);
      case Real(shown) =>
        text, l := shown, LReal(shown);
      case Str(s) =>
        text := valueToQuotedString(s);
        l := LString(CString(s));
      case Bool(b) =>
        text, l := if b then "true" else "false", if b then LTrue else LFalse;
    }

    method writeArrayValue(value: Value)
      requires Valid() && value.Arr? && Shown(value) && !EndsInNumber(Written) && (addChildValues_ ==> Simple(value))
      modifies this
      ensures addChildValues_ == old(addChildValues_) && indentString_ == old(indentString_)
      ensures Pushed(old(document_), old(Written), old(childValues_), Tokens(value))
      decreases value, 3
    {
      assert Tokens(value) == [ArrBegin] + EmitItems(value, 0, [ArrEnd] + []);
      if value.slots == [] {
        PairSpells(ArrBegin, ArrEnd);
        assert [ArrBegin] + ([ArrEnd] + []) == [ArrBegin, ArrEnd];
        pushValue("[]", [ArrBegin, ArrEnd]);
      } else {
        var multiLine := isMultineArray(value);
        if multiLine {
          writeLines(value);
        } else {
          // The assertion that there is one child string for each item.
          assert |childValues_| == |value.slots|;
          writeOneLine(value);
        }
      }
    }

    method writeObjectValue(value: Value)
      requires Valid() && value.Obj? && Shown(value) && !EndsInNumber(Written) && (addChildValues_ ==> Simple(value))
      modifies this
      ensures addChildValues_ == old(addChildValues_) && indentString_ == old(indentString_)
      ensures Pushed(old(document_), old(Written), old(childValues_), Tokens(value))
      decreases value, 3
    {
      assert Tokens(value) == [ObjBegin] + EmitMembers(value, 0, [ObjEnd] + []);
      if value.members == [] {
        PairSpells(ObjBegin, ObjEnd);
        assert [ObjBegin] + ([ObjEnd] + []) == [ObjBegin, ObjEnd];
        pushValue("{}", [ObjBegin, ObjEnd]);
      } else {
        writeMembers(value);
      }
    }

    /** An absent item is the null value. */
    method writeItem(slot: Slot)
      requires Valid() && (slot.Present? ==> Shown(slot.value)) && !EndsInNumber(Written)
      requires addChildValues_ ==> Simple(Item(slot))
      modifies this
      ensures addChildValues_ == old(addChildValues_) && indentString_ == old(indentString_)
      ensures Pushed(old(document_), old(Written), old(childValues_), ItemTokens(slot))
      decreases slot, 5
    {
      match slot
      case Absent =>
        PieceSpells(LNull);
        pushValue("null", [LNull]);
      case Present(item) =>
        writeValue(item);
    }

    /** The child strings of an array: one for each item so far. */
    ghost predicate Collected(value: Value, n: nat)
      requires value.Arr? && n <= |value.slots|
      reads this
    {
      |childValues_| == n && forall k :: 0 <= k < n ==> Spells(childValues_[k], ItemTokens(value.slots[k]))
    }

    /** Whether an array takes several lines; otherwise, and maybe even then, its items have been printed. */
    method isMultineArray(value: Value) returns (isMultiLine: bool)
      requires Valid() && value.Arr? && Shown(value) && !EndsInNumber(Written) && !addChildValues_
      modifies this
      ensures Valid() && document_ == old(document_) && Written == old(Written) && indentString_ == old(indentString_)
      ensures !addChildValues_ && (Collected(value, |value.slots|) || (isMultiLine && childValues_ == []))
      ensures isMultiLine
         <==> || |value.slots| * 3 >= rightMargin_
              || (exists k :: 0 <= k < |value.slots| && !Simple(Item(value.slots[k])))
              || 4 + (|value.slots| - 1) * 2 + TotalLength(childValues_) >= rightMargin_
      decreases value, 2
    {
      var size := |value.slots|;
      isMultiLine := size * 3 >= rightMargin_;
      childValues_ := [];
      var index := 0;
      while index < size && !isMultiLine
        invariant 0 <= index <= size
        invariant !isMultiLine ==> size * 3 < rightMargin_ && forall k :: 0 <= k < index ==> Simple(Item(value.slots[k]))
        invariant isMultiLine ==> size * 3 >= rightMargin_ || exists k :: 0 <= k < size && !Simple(Item(value.slots[k]))
      {
        isMultiLine := !Simple(Item(value.slots[index]));
        index := index + 1;
      }
      if !isMultiLine {
        var lineLength := collect(value);
        isMultiLine := lineLength >= rightMargin_;
      }
    }

    method collect(value: Value) returns (lineLength: int)
      requires Valid() && value.Arr? && Shown(value) && !EndsInNumber(Written) && !addChildValues_ && childValues_ == []
      requires forall k :: 0 <= k < |value.slots| ==> Simple(Item(value.slots[k]))
      modifies this
      ensures Valid() && document_ == old(document_) && Written == old(Written) && indentString_ == old(indentString_)
      ensures !addChildValues_ && Collected(value, |value.slots|)
      ensures lineLength == 4 + (|value.slots| - 1) * 2 + TotalLength(childValues_)
      decreases value, 1
    {
      addChildValues_ := true;
      lineLength := 4 + (|value.slots| - 1) * 2;
      var index := 0;
      while index < |value.slots|
        invariant 0 <= index <= |value.slots| && addChildValues_ && Valid() && Collected(value, index)
        invariant document_ == old(document_) && Written == old(Written) && indentString_ == old(indentString_)
        invariant lineLength == 4 + (|value.slots| - 1) * 2 + TotalLength(childValues_)
      {
        collectItem(value, index);
        lineLength := lineLength + |childValues_[index]|;
        index := index + 1;
      }
      addChildValues_ := false;
    }

    method collectItem(value: Value, index: nat)
      requires Valid() && value.Arr? && Shown(value) && !EndsInNumber(Written) && index < |value.slots|
      requires addChildValues_ && Simple(Item(value.slots[index])) && Collected(value, index)
      modifies this
      ensures Valid() && document_ == old(document_) && Written == old(Written) && indentString_ == old(indentString_)
      ensures addChildValues_ && Collected(value, index + 1)
      ensures TotalLength(childValues_) == old(TotalLength(childValues_)) + |childValues_[index]|
      decreases value, 0
    {
      ghost var before := childValues_;
      writeItem(value.slots[index]);
      assert childValues_[..|childValues_| - 1] == before;
    }

    /** A bracket, comma or colon, after which a value may come; any number behind it ends there. */
    method punctuate(text: string, ghost l: Lexeme, ghost rest: seq<Lexeme>)
      requires Valid() && Spells(text, [l]) && !IsNumber(l) && NoNumberAhead(text)
      modifies this`document_, this`Written
      ensures Valid() && Written + rest == old(Written) + ([l] + rest) && !EndsInNumber(Written)
    {
      Regroup(Written, [l], rest);
      emit(text, [l]);
    }

    method punctuateWithIndent(text: string, ghost l: Lexeme, ghost rest: seq<Lexeme>)
      requires Valid() && Spells(text, [l]) && !IsNumber(l) && NoNumberAhead(text)
      modifies this`document_, this`Written
      ensures Valid() && Written + rest == old(Written) + ([l] + rest) && !EndsInNumber(Written)
    {
      writeIndent();
      punctuate(text, l, rest);
    }

    /** The items on one line. */
    method writeOneLine(value: Value)
      requires Valid() && value.Arr? && !EndsInNumber(Written) && !addChildValues_ && Collected(value, |value.slots|)
      modifies this`document_, this`Written
      ensures Valid() && Written == old(Written) + Tokens(value)
    {
      ghost var end := [ArrEnd] + [];
      ArrayTokens(value, end);
      PaddedSpells("", ArrBegin, " ");
      punctuate("[ ", ArrBegin, EmitItems(value, 0, end));
      writeItemsInLine(value, end);
      assert Written + end == old(Written) + Tokens(value);
      PaddedSpells(" ", ArrEnd, "");
      punctuate(" ]", ArrEnd, []);
      assert Written + [] == Written;
    }

    method writeItemsInLine(value: Value, ghost end: seq<Lexeme>)
      requires Valid() && value.Arr? && !EndsInNumber(Written) && Collected(value, |value.slots|)
      modifies this`document_, this`Written
      ensures Valid() && Written + end == old(Written) + EmitItems(value, 0, end)
    {
      var index := 0;
      while index < |value.slots|
        invariant 0 <= index <= |value.slots| && Valid() && (index == 0 ==> !EndsInNumber(Written))
        invariant Written + EmitItems(value, index, end) == old(Written) + EmitItems(value, 0, end)
      {
        writeInLine(value, index, end);
        index := index + 1;
      }
    }

    method writeInLine(value: Value, index: nat, ghost end: seq<Lexeme>)
      requires Valid() && value.Arr? && index < |value.slots| && Collected(value, |value.slots|)
      requires index == 0 ==> !EndsInNumber(Written)
      modifies this`document_, this`Written
      ensures Valid() && Written + EmitItems(value, index + 1, end) == old(Written) + EmitItems(value, index, end)
    {
      ghost var rest := EmitItems(value, index + 1, end);
      if index > 0 {
        PaddedSpells("", Comma, " ");
        punctuate(", ", Comma, EmitItem(value.slots[index], rest));
      }
      Itemized(Written, value.slots[index], rest);
      emit(childValues_[index], ItemTokens(value.slots[index]));
    }

    method writeLines(value: Value)
      requires Valid() && value.Arr? && Shown(value) && !EndsInNumber(Written) && !addChildValues_ && value.slots != []
      requires Collected(value, |value.slots|) || childValues_ == []
      modifies this
      ensures Valid() && Written == old(Written) + Tokens(value)
      ensures !addChildValues_ && indentString_ == old(indentString_)
      decreases value, 2
    {
      ghost var end := [ArrEnd] + [];
      ArrayTokens(value, end);
      PieceSpells(ArrBegin);
      punctuateWithIndent("[", ArrBegin, EmitItems(value, 0, end));
      indent();
      writeItemLines(value, childValues_ != [], end);
      assert Written + end == old(Written) + Tokens(value);
      unindent();
      assert indentString_ == old(indentString_);
      PieceSpells(ArrEnd);
      punctuateWithIndent("]", ArrEnd, []);
      assert Written + [] == Written;
    }

    method writeItemLines(value: Value, hasChildValue: bool, ghost end: seq<Lexeme>)
      requires Valid() && value.Arr? && Shown(value) && !EndsInNumber(Written) && !addChildValues_
      requires hasChildValue ==> Collected(value, |value.slots|)
      modifies this
      ensures Valid() && !addChildValues_ && indentString_ == old(indentString_)
      ensures Written + end == old(Written) + ItemsOn(value, 0, end)
      decreases value, 1
    {
      var index := 0;
      while index < |value.slots|
        invariant 0 <= index <= |value.slots| && Valid() && !addChildValues_ && indentString_ == old(indentString_)
        invariant index < |value.slots| ==> !EndsInNumber(Written)
        invariant hasChildValue ==> Collected(value, |value.slots|)
        invariant Written + ItemsOn(value, index, end) == old(Written) + ItemsOn(value, 0, end)
      {
        writeLine(value, index, hasChildValue, end);
        index := index + 1;
      }
    }

    /** One item on its own line, and the comma if there are more. */
    method writeLine(value: Value, index: nat, hasChildValue: bool, ghost end: seq<Lexeme>)
      requires Valid() && value.Arr? && Shown(value) && index < |value.slots| && !EndsInNumber(Written) && !addChildValues_
      requires hasChildValue ==> Collected(value, |value.slots|)
      modifies this
      ensures Valid() && !addChildValues_ && indentString_ == old(indentString_)
      ensures index + 1 < |value.slots| ==> !EndsInNumber(Written)
      ensures Written + ItemsOn(value, index + 1, end) == old(Written) + ItemsOn(value, index, end)
      ensures hasChildValue ==> Collected(value, |value.slots|)
      decreases value, 0
    {
      ghost var rest := EmitItems(value, index + 1, end);
      Itemized(Written, value.slots[index], rest);
      if hasChildValue {
        writeWithIndent(childValues_[index], ItemTokens(value.slots[index]));
      } else {
        writeIndent();
        writeItem(value.slots[index]);
      }
      if index + 1 < |value.slots| {
        PieceSpells(Comma);
        punctuate(",", Comma, ItemsOn(value, index + 1, end));
      }
    }

    method writeMembers(value: Value)
      requires Valid() && value.Obj? && Shown(value) && !EndsInNumber(Written) && !addChildValues_ && value.members != []
      modifies this
      ensures Valid() && Written == old(Written) + Tokens(value)
      ensures !addChildValues_ && indentString_ == old(indentString_)
      decreases value, 2
    {
      ghost var end := [ObjEnd] + [];
      ObjectTokens(value, end);
      PieceSpells(ObjBegin);
      punctuateWithIndent("{", ObjBegin, EmitMembers(value, 0, end));
      indent();
      writeMemberLines(value, end);
      assert Written + end == old(Written) + Tokens(value);
      unindent();
      assert indentString_ == old(indentString_);
      PieceSpells(ObjEnd);
      punctuateWithIndent("}", ObjEnd, []);
      assert Written + [] == Written;
    }

    method writeMemberLines(value: Value, ghost end: seq<Lexeme>)
      requires Valid() && value.Obj? && Shown(value) && !EndsInNumber(Written) && !addChildValues_
      modifies this
      ensures Valid() && !addChildValues_ && indentString_ == old(indentString_)
      ensures Written + end == old(Written) + MembersOn(value, 0, end)
      decreases value, 1
    {
      var it := 0;
      while it < |value.members|
        invariant 0 <= it <= |value.members| && Valid() && !addChildValues_ && indentString_ == old(indentString_)
        invariant it < |value.members| ==> !EndsInNumber(Written)
        invariant Written + MembersOn(value, it, end) == old(Written) + MembersOn(value, 0, end)
      {
        writeMember(value.members[it], EmitMembers(value, it + 1, end));
        it := it + 1;
        if it < |value.members| {
          PieceSpells(Comma);
          punctuate(",", Comma, MembersOn(value, it, end));
        }
      }
    }

    method writeMember(m: Member, ghost rest: seq<Lexeme>)
      requires Valid() && Shown(m.value) && !EndsInNumber(Written) && !addChildValues_
      modifies this
      ensures Valid() && !addChildValues_ && indentString_ == old(indentString_)
      ensures Written + rest == old(Written) + EmitMember(m, rest)
      decreases m, 5
    {
      writeName(m.key, Emit(m.value, rest));
      EmitRest(m.value, rest);
      Regroup(Written, Tokens(m.value), rest);
      writeValue(m.value);
    }

    method writeName(key: string, ghost rest: seq<Lexeme>)
      requires Valid() && !EndsInNumber(Written)
      modifies this`document_, this`Written
      ensures Valid() && Written + rest == old(Written) + ([LString(CString(key))] + ([Colon] + rest))
      ensures !EndsInNumber(Written)
    {
      var text := valueToQuotedString(key);
      PieceSpells(LString(CString(key)));
      punctuateWithIndent(text, LString(CString(key)), [Colon] + rest);
      PaddedSpells(" ", Colon, " ");
      punctuate(" : ", Colon, rest);
    }
  }

  /** The lexemes from an item on, behind its comma. */
  function ItemsOn(v: Value, k: nat, end: seq<Lexeme>): seq<Lexeme>
    requires v.Arr? && k <= |v.slots|
  {
    if k < |v.slots| then EmitItem(v.slots[k], EmitItems(v, k + 1, end)) else end
  }

  function MembersOn(v: Value, k: nat, end: seq<Lexeme>): seq<Lexeme>
    requires v.Obj? && k <= |v.members|
  {
    if k < |v.members| then EmitMember(v.members[k], EmitMembers(v, k + 1, end)) else end
  }

  lemma ArrayTokens(v: Value, end: seq<Lexeme>)
    requires v.Arr? && end == [ArrEnd] + []
    ensures Tokens(v) == [ArrBegin] + EmitItems(v, 0, end) && EmitItems(v, |v.slots|, end) == end
  {
  }

  lemma ObjectTokens(v: Value, end: seq<Lexeme>)
    requires v.Obj? && end == [ObjEnd] + []
    ensures Tokens(v) == [ObjBegin] + EmitMembers(v, 0, end) && EmitMembers(v, |v.members|, end) == end
  {
  }

  lemma Itemized(w: seq<Lexeme>, slot: Slot, rest: seq<Lexeme>)
    ensures (w + ItemTokens(slot)) + rest == w + EmitItem(slot, rest)
  {
    ItemRest(slot, [], rest);
    assert [] + rest == rest;
    Regroup(w, ItemTokens(slot), rest);
  }
}
