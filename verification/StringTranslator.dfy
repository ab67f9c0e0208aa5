/** StringTranslator.cpp: DecodeURL and EncodeURL on a system whose path delimiter is '/'. A char is the
    8-bit pattern it holds. */
module StringTranslator {
  import opened Wrappers
  import opened Sequences

  type Byte = b: int | 0 <= b < 256
  type Text = seq<Byte>

  const NUL: Byte := 0
  const SLASH: Byte := 47
  const DOT: Byte := 46
  const PERCENT: Byte := 37
  const QUESTION: Byte := 63

  /** What a call returns: the text written, or one of the two error codes. */
  datatype Outcome = Written(text: Text) | BadURLFormat | NotEnoughSpace

  // ----- Percent-coding: RFC 3986, section 2.1 -----

  predicate IsXDigit(c: Byte) { 48 <= c <= 57 || 65 <= c <= 70 || 97 <= c <= 102 }

  function HexValue(c: Byte): (v: Byte)
    requires IsXDigit(c)
    ensures v < 16
  {
    if c <= 57 then c - 48 else if c <= 70 then c - 55 else c - 87
  }

  /** The first character a source stands for, and what follows it; None when it is malformed. */
  function First(src: Text): (r: Option<(Byte, Text)>)
    requires src != []
    ensures r.Some? ==> |r.value.1| < |src|
  {
    if src[0] == PERCENT then
      if |src| < 3 || !IsXDigit(src[1]) || !IsXDigit(src[2]) then None
      else Some((16 * HexValue(src[1]) + HexValue(src[2]), src[3..]))
    else if src[0] == NUL then None
    else Some((src[0], src[1..]))
  }

  /** The percent-decoded source. */
  function PctDecode(src: Text): (r: Option<Text>)
    decreases |src|
  {
    if src == [] then Some([])
    else match First(src)
      case None => None
      case Some((c, rest)) =>
        match PctDecode(rest)
        case None => None
        case Some(text) => Some([c] + text)
  }

  /** A hexadecimal digit in lower or in upper case. */
  function HexChar(v: int, lower: bool): (c: Byte)
    requires 0 <= v < 16
  {
    if v < 10 then '0' as int + v else (if lower then 'a' else 'A') as int + v - 10
  }

  lemma XDigitIs(c: Byte)
    ensures IsXDigit(c) <==> exists v, lower :: 0 <= v < 16 && c == HexChar(v, lower)
  {
    if IsXDigit(c) {
      assert c == HexChar(HexValue(c), c >= 97);
    }
  }

  /** A code of two digits, each in either case, stands for its octet; a '%' without two digits is malformed. */
  lemma CodeDecodes(high: int, low: int, lower: bool, lower': bool, rest: Text)
    requires 0 <= high < 16 && 0 <= low < 16
    ensures PctDecode([PERCENT, HexChar(high, lower), HexChar(low, lower')] + rest)
         == match PctDecode(rest)
            case None => None
            case Some(text) => Some([16 * high + low] + text)
  {
    var src := [PERCENT, HexChar(high, lower), HexChar(low, lower')] + rest;
    assert src[3..] == rest;
  }

  lemma MalformedCode(src: Text)
    requires src != [] && src[0] == PERCENT
    ensures PctDecode(src).Some? ==> |src| >= 3 && IsXDigit(src[1]) && IsXDigit(src[2])
  {
  }

  // ----- What DecodeURL does with the decoded characters -----

  /** The buffer written so far and the count of dots in a row since the last '/'. */
  datatype Buffer = Buffer(text: Text, dots: nat)

  /** After a '/' followed by nothing but dots, the dots and the '/' are at the end of the buffer. */
  ghost predicate DotsAtEnd(b: Buffer) {
    && (b.dots > 0 ==> |b.text| > b.dots && b.text[|b.text| - b.dots - 1] == SLASH)
    && (forall k :: |b.text| - b.dots <= k < |b.text| && k >= 0 ==> b.text[k] == DOT)
  }

  /** One decoded character outside the query. */
  function Put(b: Buffer, c: Byte): (r: Buffer)
    requires DotsAtEnd(b) && (b.text == [] ==> c == SLASH)
    ensures DotsAtEnd(r) && r.text != [] && |r.text| <= |b.text| + 1
  {
    var text := if c == SLASH && 0 < b.dots <= 2 then b.text[..|b.text| - (b.dots + 1)] else b.text;
    var dots :=
      if c != DOT then 0
      else if b.dots == 0 && text[|text| - 1] == SLASH then 1
      else if b.dots > 0 && text[|text| - 1] == DOT then b.dots + 1
      else b.dots;
    Buffer(text + [c], dots)
  }

  /** The trailing "." or ".." is cut off, wherever the text has got to since. */
  function Finish(b: Buffer): (r: Text)
    requires b.dots <= |b.text|
  {
    if b.dots <= 2 then b.text[..|b.text| - b.dots] else b.text
  }

  /** Query text goes after the path's buffer, whose count of dots is left as it was at the '?'. */
  function WithQuery(b: Buffer, query: Text): (t: Text)
    requires b.dots <= |b.text|
  {
    Finish(b.(text := b.text + query))
  }

  /** The decoding loop from a given buffer on. */
  function Decode(src: Text, destLen: nat, b: Buffer, inQuery: bool): (r: Outcome)
    requires b.dots <= |b.text| && (!inQuery ==> DotsAtEnd(b))
    requires b.text == [] ==> !inQuery && (src == [] || src[0] == SLASH)
    decreases |src|
  {
    if src == [] then Written(Finish(b))
    else if |b.text| == destLen then NotEnoughSpace
    else match First(src)
      case None => BadURLFormat
      case Some((c, rest)) =>
        if inQuery || src[0] == QUESTION then Decode(rest, destLen, b.(text := b.text + [c]), true)
        else Decode(rest, destLen, Put(b, c), false)
  }

  function DecodeURL(src: Text, destLen: nat): (r: Outcome) {
    if src == [] || src[0] != SLASH then BadURLFormat else Decode(src, destLen, Buffer([], 0), false)
  }

  // ----- The specification: segments -----

  /** The segments of a path that starts with '/': what stands between one '/' and the next. */
  function Segments(d: Text): (segs: seq<Text>)
    ensures |segs| > 0
  {
    if |d| <= 1 then [[]] else Extend(Segments(d[..|d| - 1]), d[|d| - 1])
  }

  function Extend(segs: seq<Text>, c: Byte): (r: seq<Text>)
    requires segs != []
    ensures r != []
  {
    if c == SLASH then segs + [[]] else Init(segs) + [Last(segs) + [c]]
  }

  predicate IsDotSegment(seg: Text) { seg == [DOT] || seg == [DOT, DOT] }

  predicate AllDots(seg: Text) { forall k :: 0 <= k < |seg| ==> seg[k] == DOT }

  /** The segments, each after its '/'. */
  function Flat(segs: seq<Text>): (d: Text) {
    if segs == [] then [] else Flat(Init(segs)) + [SLASH] + Last(segs)
  }

  function DropDots(segs: seq<Text>): (r: seq<Text>) {
    if segs == [] then []
    else DropDots(Init(segs)) + (if IsDotSegment(Last(segs)) then [] else [Last(segs)])
  }

  /** The path with every "." and ".." segment dropped, or emptied if it is the last. */
  function Clean(d: Text): (r: Text) {
    var segs := Segments(d);
    Flat(DropDots(Init(segs))) + [SLASH] + (if IsDotSegment(Last(segs)) then [] else Last(segs))
  }

  /** The buffer that stands for a decoded path. */
  function BufferOf(d: Text): (b: Buffer)
    ensures b.dots <= |b.text|
  {
    if d == [] then Buffer([], 0) else Filled(Flat(DropDots(Init(Segments(d)))), Last(Segments(d)))
  }

  function Filled(kept: Text, last: Text): (b: Buffer)
    ensures b.dots <= |b.text|
  {
    Buffer(kept + [SLASH] + last, if AllDots(last) then |last| else 0)
  }

  lemma FlatSnoc(segs: seq<Text>, seg: Text)
    ensures Flat(segs + [seg]) == Flat(segs) + [SLASH] + seg
  {
    assert Init(segs + [seg]) == segs && Last(segs + [seg]) == seg;
  }

  lemma DropDotsSnoc(segs: seq<Text>, seg: Text)
    ensures DropDots(segs + [seg]) == DropDots(segs) + (if IsDotSegment(seg) then [] else [seg])
  {
    assert Init(segs + [seg]) == segs && Last(segs + [seg]) == seg;
  }

  /** The segments determine the path and are its maximal runs without a '/'. */
  lemma {:induction false} FlatSegments(d: Text)
    requires d != [] && d[0] == SLASH
    ensures Flat(Segments(d)) == d
    ensures SLASH !in Last(Segments(d))
    ensures forall k :: 0 <= k < |Segments(d)| ==> SLASH !in Segments(d)[k]
  {
    if |d| > 1 {
      FlatSegments(Init(d));
      var segs, c := Segments(Init(d)), Last(d);
      InitLast(d);
      if c == SLASH {
        FlatSnoc(segs, []);
      } else {
        InitLast(segs);
        FlatSnoc(Init(segs), Last(segs));
        FlatSnoc(Init(segs), Last(segs) + [c]);
      }
    }
  }

  lemma SegmentsSnoc(d: Text, c: Byte)
    requires d != []
    ensures Segments(d + [c]) == Extend(Segments(d), c)
  {
    assert (d + [c])[..|d + [c]| - 1] == d;
  }

  lemma DotSegmentIs(seg: Text)
    ensures IsDotSegment(seg) <==> AllDots(seg) && 0 < |seg| <= 2
  {
  }

  lemma AllDotsSnoc(seg: Text, c: Byte)
    ensures AllDots(seg + [c]) <==> AllDots(seg) && c == DOT
  {
    assert (seg + [c])[|seg|] == c;
    assert forall k :: 0 <= k < |seg| ==> (seg + [c])[k] == seg[k];
  }

  lemma ShapeOf(kept: Text, last: Text)
    ensures DotsAtEnd(Filled(kept, last))
  {
    var text := kept + [SLASH] + last;
    assert text[|text| - |last| - 1] == SLASH;
    assert forall k :: 0 <= k < |last| ==> text[|kept| + 1 + k] == last[k];
    forall k | |kept| + 1 <= k < |text| && AllDots(last) ensures text[k] == DOT {
      assert text[k] == last[k - |kept| - 1];
    }
  }

  lemma BufferShape(d: Text)
    ensures DotsAtEnd(BufferOf(d)) && (BufferOf(d).text == [] <==> d == [])
  {
    if d != [] {
      ShapeOf(Flat(DropDots(Init(Segments(d)))), Last(Segments(d)));
    }
  }

  /** A character put after the last '/' and what follows it. */
  lemma PutAfter(kept: Text, last: Text, c: Byte)
    requires SLASH !in last
    requires DotsAtEnd(Filled(kept, last))
    ensures Put(Filled(kept, last), c)
         == if c != SLASH then Filled(kept, last + [c])
            else Filled(if IsDotSegment(last) then kept else kept + [SLASH] + last, [])
  {
    DotSegmentIs(last);
    AllDotsSnoc(last, c);
    var text := kept + [SLASH] + last;
    if c == SLASH {
      if IsDotSegment(last) {
        assert text[..|text| - (|last| + 1)] == kept;
      }
    } else {
      assert text + [c] == kept + [SLASH] + (last + [c]);
      if last == [] {
        assert text[|text| - 1] == SLASH;
      } else {
        assert text[|text| - 1] == Last(last);
      }
    }
  }

  lemma KeptExtend(segs: seq<Text>, c: Byte)
    requires segs != []
    ensures Last(Extend(segs, c)) == if c == SLASH then [] else Last(segs) + [c]
    ensures Flat(DropDots(Init(Extend(segs, c))))
         == var kept := Flat(DropDots(Init(segs)));
            if c == SLASH && !IsDotSegment(Last(segs)) then kept + [SLASH] + Last(segs) else kept
  {
    if c == SLASH {
      assert Init(segs + [[]]) == segs;
      InitLast(segs);
      DropDotsSnoc(Init(segs), Last(segs));
      if IsDotSegment(Last(segs)) {
        assert DropDots(Init(segs)) + [] == DropDots(Init(segs));
      } else {
        FlatSnoc(DropDots(Init(segs)), Last(segs));
      }
    } else {
      assert Init(Extend(segs, c)) == Init(segs);
    }
  }

  /** The loop keeps in its buffer exactly what the segments read so far call for. */
  lemma PutTracks(d: Text, c: Byte)
    requires if d == [] then c == SLASH else d[0] == SLASH
    requires DotsAtEnd(BufferOf(d)) && (BufferOf(d).text == [] <==> d == [])
    ensures Put(BufferOf(d), c) == BufferOf(d + [c])
  {
    if d == [] {
      assert [] + [c] == [c];
    } else {
      SegmentsSnoc(d, c);
      FlatSegments(d);
      KeptExtend(Segments(d), c);
      PutAfter(Flat(DropDots(Init(Segments(d)))), Last(Segments(d)), c);
    }
  }

  lemma FinishAfter(kept: Text, last: Text)
    ensures Finish(Filled(kept, last))
         == kept + [SLASH] + if IsDotSegment(last) then [] else last
  {
    DotSegmentIs(last);
  }

  lemma FinishIsClean(d: Text)
    requires d != []
    ensures Finish(BufferOf(d)) == Clean(d)
  {
    FinishAfter(Flat(DropDots(Init(Segments(d)))), Last(Segments(d)));
  }

  // ----- What DecodeURL accepts and writes -----

  /** No prefix of the decoded text fills the destination while more is to come. */
  ghost predicate Room(d: Text, more: Text, destLen: nat) {
    forall k :: 0 <= k < |more| ==> |BufferOf(d + more[..k]).text| < destLen
  }

  lemma RoomCons(d: Text, c: Byte, more: Text, destLen: nat)
    ensures Room(d, [c] + more, destLen) <==> |BufferOf(d).text| < destLen && Room(d + [c], more, destLen)
  {
    assert forall k :: 0 <= k <= |more| ==> d + ([c] + more)[..k + 1] == d + [c] + more[..k];
    assert d + ([c] + more)[..0] == d;
    if Room(d, [c] + more, destLen) {
      forall k | 0 <= k < |more| ensures |BufferOf(d + [c] + more[..k]).text| < destLen {
        assert |BufferOf(d + ([c] + more)[..k + 1]).text| < destLen;
      }
    }
    if |BufferOf(d).text| < destLen && Room(d + [c], more, destLen) {
      forall k | 0 <= k < |[c] + more| ensures |BufferOf(d + ([c] + more)[..k]).text| < destLen {
        if k > 0 {
          assert d + ([c] + more)[..(k - 1) + 1] == d + [c] + more[..k - 1];
        }
      }
    }
  }

  /** Query text is copied as it decodes. */
  lemma {:induction false} DecodeQuery(src: Text, destLen: nat, b: Buffer)
    requires b.dots <= |b.text| <= destLen && b.text != []
    ensures Decode(src, destLen, b, true).Written?
       <==> PctDecode(src).Some? && |b.text| + |PctDecode(src).value| <= destLen
    ensures Decode(src, destLen, b, true).Written?
       ==> Decode(src, destLen, b, true).text == Finish(b.(text := b.text + PctDecode(src).value))
    decreases |src|
  {
    if src == [] {
      assert b.text + [] == b.text;
    } else if |b.text| < destLen && First(src).Some? {
      var (c, rest) := First(src).value;
      DecodeQuery(rest, destLen, b.(text := b.text + [c]));
      if PctDecode(rest).Some? {
        assert b.text + [c] + PctDecode(rest).value == b.text + ([c] + PctDecode(rest).value);
      }
    }
  }

  /** A path ends the source or is followed by a raw '?'. */
  predicate Cut(path: Text, query: Text) {
    QUESTION !in path && (query != [] ==> query[0] == QUESTION)
  }

  lemma FirstOfPath(path: Text, query: Text)
    requires Cut(path, query) && path != []
    ensures First(path + query).Some? <==> First(path).Some?
    ensures First(path).Some? ==> Cut(First(path).value.1, query)
    ensures First(path).Some?
      ==> First(path + query) == Some((First(path).value.0, First(path).value.1 + query))
  {
    var src := path + query;
    if path[0] == PERCENT && First(path).Some? {
      assert src[3..] == path[3..] + query;
    } else {
      assert src[1..] == path[1..] + query;
    }
  }

  lemma DecodeAtCut(d: Text, query: Text, destLen: nat)
    requires Cut([], query) && d != []
    requires DotsAtEnd(BufferOf(d)) && BufferOf(d).text != [] && |BufferOf(d).text| <= destLen
    ensures var r := Decode(query, destLen, BufferOf(d), false);
            && (r.Written? <==> PctDecode(query).Some? && |BufferOf(d).text| + |PctDecode(query).value| <= destLen)
            && (r.Written? ==> r.text == WithQuery(BufferOf(d), PctDecode(query).value))
  {
    var b := BufferOf(d);
    if query == [] {
      assert b.text + [] == b.text;
    } else if |b.text| < destLen {
      assert Decode(query, destLen, b, false) == Decode(query, destLen, b, true);
      DecodeQuery(query, destLen, b);
    }
  }

  lemma DecodeUnfolds(path: Text, query: Text, destLen: nat, b: Buffer)
    requires Cut(path, query) && path != [] && First(path).Some?
    requires DotsAtEnd(b) && |b.text| < destLen
    requires b.text == [] ==> path[0] == SLASH
    ensures var (c, rest) := First(path).value;
            Decode(path + query, destLen, b, false) == Decode(rest + query, destLen, Put(b, c), false)
  {
    FirstOfPath(path, query);
  }

  lemma DecodeOne(d: Text, path: Text, query: Text, destLen: nat)
    requires Cut(path, query) && path != []
    requires d == [] ==> path[0] == SLASH
    requires d != [] ==> d[0] == SLASH
    requires DotsAtEnd(BufferOf(d)) && (BufferOf(d).text == [] <==> d == [])
    requires |BufferOf(d).text| < destLen && First(path).Some?
    ensures var (c, rest) := First(path).value;
            && DotsAtEnd(BufferOf(d + [c]))
            && 0 < |BufferOf(d + [c]).text| <= destLen
            && Decode(path + query, destLen, BufferOf(d), false)
            == Decode(rest + query, destLen, BufferOf(d + [c]), false)
  {
    DecodeUnfolds(path, query, destLen, BufferOf(d));
    PutTracks(d, First(path).value.0);
    BufferShape(d + [First(path).value.0]);
  }

  ghost predicate Accepts(d: Text, path: Text, query: Text, destLen: nat) {
    && PctDecode(path).Some?
    && PctDecode(query).Some?
    && Room(d, PctDecode(path).value, destLen)
    && |BufferOf(d + PctDecode(path).value).text| + |PctDecode(query).value| <= destLen
  }

  /** The outcome for a source of this path and query, of whose path d has been decoded before. */
  ghost predicate Decides(r: Outcome, d: Text, path: Text, query: Text, destLen: nat) {
    if Accepts(d, path, query, destLen)
    then r == Written(WithQuery(BufferOf(d + PctDecode(path).value), PctDecode(query).value))
    else !r.Written?
  }

  lemma DecidesCons(r: Outcome, d: Text, path: Text, query: Text, destLen: nat)
    requires path != [] && First(path).Some?
    requires |BufferOf(d).text| < destLen
    requires Decides(r, d + [First(path).value.0], First(path).value.1, query, destLen)
    ensures Decides(r, d, path, query, destLen)
  {
    var (c, rest) := First(path).value;
    if PctDecode(rest).Some? {
      RoomCons(d, c, PctDecode(rest).value, destLen);
      assert d + [c] + PctDecode(rest).value == d + ([c] + PctDecode(rest).value);
    }
  }

  lemma FullRefuses(d: Text, path: Text, query: Text, destLen: nat)
    requires path != [] && |BufferOf(d).text| >= destLen
    ensures !Accepts(d, path, query, destLen)
  {
    if PctDecode(path).Some? {
      var more := PctDecode(path).value;
      assert more != [] && d + more[..0] == d;
    }
  }

  /** The whole loop, from a buffer that stands for the path decoded so far. */
  lemma {:induction false} DecodePath(d: Text, path: Text, query: Text, destLen: nat)
    requires Cut(path, query)
    requires d == [] ==> path != [] && path[0] == SLASH
    requires d != [] ==> d[0] == SLASH
    requires DotsAtEnd(BufferOf(d)) && (BufferOf(d).text == [] <==> d == [])
    requires |BufferOf(d).text| <= destLen
    ensures Decides(Decode(path + query, destLen, BufferOf(d), false), d, path, query, destLen)
    decreases |path|
  {
    if path == [] {
      assert path + query == query && d + [] == d;
      DecodeAtCut(d, query, destLen);
    } else if |BufferOf(d).text| == destLen {
      FullRefuses(d, path, query, destLen);
    } else {
      FirstOfPath(path, query);
      if First(path).Some? {
        var (c, rest) := First(path).value;
        DecodeOne(d, path, query, destLen);
        DecodePath(d + [c], rest, query, destLen);
        DecidesCons(Decode(rest + query, destLen, BufferOf(d + [c]), false), d, path, query, destLen);
      }
    }
  }

  /** Whatever the source, up to its first raw '?' and from there on. */
  lemma DecodeURLExactly(path: Text, query: Text, destLen: nat)
    requires Cut(path, query)
    ensures if path != [] && path[0] == SLASH
            then Decides(DecodeURL(path + query, destLen), [], path, query, destLen)
            else DecodeURL(path + query, destLen) == BadURLFormat
  {
    if path != [] && path[0] == SLASH {
      DecodePath([], path, query, destLen);
    }
  }

  /** Without a raw '?', the decoded text is what is written, cleaned of its dot segments. */
  lemma DecodeURLIsClean(src: Text, destLen: nat)
    requires QUESTION !in src
    ensures DecodeURL(src, destLen).Written?
       <==> src != [] && src[0] == SLASH && PctDecode(src).Some? && FitsInto(PctDecode(src).value, destLen)
    ensures DecodeURL(src, destLen).Written? ==> DecodeURL(src, destLen).text == Clean(PctDecode(src).value)
  {
    assert src + [] == src;
    DecodeURLExactly(src, [], destLen);
    if src != [] && src[0] == SLASH && PctDecode(src).Some? {
      var d := PctDecode(src).value;
      assert d != [];
      FinishIsClean(d);
      WithNoQuery(BufferOf(d));
      assert [] + d == d && PctDecode([]) == Some([]);
      assert Accepts([], src, [], destLen) <==> FitsInto(d, destLen);
    }
  }

  lemma WithNoQuery(b: Buffer)
    requires b.dots <= |b.text|
    ensures WithQuery(b, []) == Finish(b)
  {
    assert b.text + [] == b.text;
  }

  /** The text the loop holds never outgrows the destination. */
  ghost predicate FitsInto(d: Text, destLen: nat) {
    Room([], d, destLen) && |BufferOf(d).text| <= destLen
  }

  lemma {:induction false} BufferNeverOutgrows(d: Text)
    requires d == [] || d[0] == SLASH
    ensures |BufferOf(d).text| <= |d|
  {
    if d != [] {
      BufferNeverOutgrows(Init(d));
      InitLast(d);
      BufferShape(Init(d));
      PutTracks(Init(d), Last(d));
    }
  }

  /** A destination as long as the decoded text always has the room. */
  lemma DecodedLengthFits(d: Text, destLen: nat)
    requires d != [] && d[0] == SLASH && |d| <= destLen
    ensures FitsInto(d, destLen)
  {
    BufferNeverOutgrows(d);
    forall k | 0 <= k < |d| ensures |BufferOf([] + d[..k]).text| < destLen {
      assert [] + d[..k] == d[..k];
      BufferNeverOutgrows(d[..k]);
    }
  }

  /** The dots pending at a raw '?' are cut off the end of the query. */
  lemma DotsBeforeQuery()
    ensures DecodeURL([SLASH, DOT, QUESTION, 97], 4) == Written([SLASH, DOT, QUESTION])
  {
    var src: Text := [SLASH, DOT, QUESTION, 97];
    assert src[1..] == [DOT, QUESTION, 97] && src[1..][1..] == [QUESTION, 97];
    assert Put(Buffer([], 0), SLASH) == Buffer([SLASH], 0);
    assert Put(Buffer([SLASH], 0), DOT) == Buffer([SLASH, DOT], 1);
    DotThenQuery();
    assert Decode([DOT, QUESTION, 97], 4, Buffer([SLASH], 0), false) == Written([SLASH, DOT, QUESTION]);
  }

  lemma DotThenQuery()
    ensures Decode([QUESTION, 97], 4, Buffer([SLASH, DOT], 1), false) == Written([SLASH, DOT, QUESTION])
  {
    assert [QUESTION, 97][1..] == [97];
    assert Decode([97], 4, Buffer([SLASH, DOT, QUESTION], 1), true) == Written([SLASH, DOT, QUESTION]) by {
      assert Decode([], 4, Buffer([SLASH, DOT, QUESTION, 97], 1), true) == Written([SLASH, DOT, QUESTION]);
    }
  }

  /** Exactly when path and query come out side by side: no dots are pending at the '?'. */
  lemma QueryIsKeptIff(d: Text, query: Text)
    requires d != [] && d[0] == SLASH
    requires query != [] && query[0] == QUESTION
    ensures WithQuery(BufferOf(d), query) == Clean(d) + query <==> !IsDotSegment(Last(Segments(d)))
  {
    DotSegmentIs(Last(Segments(d)));
    BufferShape(d);
    FinishIsClean(d);
    var b := BufferOf(d);
    if IsDotSegment(Last(Segments(d))) {
      var n := |b.text| - b.dots;
      assert WithQuery(b, query)[n] == DOT && (b.text[..n] + query)[n] == QUESTION;
    }
  }

  // ----- Segments of a cleaned path -----

  ghost predicate NoSlashes(segs: seq<Text>) { forall k :: 0 <= k < |segs| ==> SLASH !in segs[k] }

  predicate NoDotSegment(segs: seq<Text>) { forall k :: 0 <= k < |segs| ==> !IsDotSegment(segs[k]) }

  lemma {:induction false} SegmentsAppend(d: Text, tail: Text)
    requires d != [] && SLASH !in tail
    ensures Segments(d + tail) == Init(Segments(d)) + [Last(Segments(d)) + tail]
  {
    if tail == [] {
      assert d + tail == d && Last(Segments(d)) + tail == Last(Segments(d));
      InitLast(Segments(d));
    } else {
      SegmentsAppend(d, Init(tail));
      InitLast(tail);
      assert d + tail == d + Init(tail) + [Last(tail)];
      SegmentsSnoc(d + Init(tail), Last(tail));
      var segs := Init(Segments(d)) + [Last(Segments(d)) + Init(tail)];
      assert Init(segs) == Init(Segments(d));
      assert Last(segs) + [Last(tail)] == Last(Segments(d)) + tail;
    }
  }

  /** Segments and Flat are inverse to each other. */
  lemma {:induction false} SegmentsOfFlat(segs: seq<Text>)
    requires segs != [] && NoSlashes(segs)
    ensures Segments(Flat(segs)) == segs
  {
    var before, last := Init(segs), Last(segs);
    InitLast(segs);
    var d := Flat(before) + [SLASH];
    if before == [] {
      assert d == [SLASH];
      assert Segments(d) == [[]];
    } else {
      SegmentsOfFlat(before);
      SegmentsSnoc(Flat(before), SLASH);
    }
    assert Segments(d) == before + [[]];
    SegmentsAppend(d, last);
    assert Init(before + [[]]) == before && [] + last == last;
  }

  lemma {:induction false} DropDotsKeeps(segs: seq<Text>)
    requires NoSlashes(segs)
    ensures NoSlashes(DropDots(segs)) && NoDotSegment(DropDots(segs))
    ensures |DropDots(segs)| <= |segs|
    ensures |DropDots(segs)| == |segs| <==> NoDotSegment(segs)
    ensures NoDotSegment(segs) ==> DropDots(segs) == segs
  {
    if segs != [] {
      DropDotsKeeps(Init(segs));
      InitLast(segs);
      assert NoDotSegment(segs) <==> NoDotSegment(Init(segs)) && !IsDotSegment(Last(segs));
    }
  }

  /** The segments of a cleaned path: the others, and an empty last one where a dot segment was last. */
  lemma CleanSegments(d: Text)
    requires d != [] && d[0] == SLASH
    ensures var segs := Segments(d);
            Segments(Clean(d)) == DropDots(Init(segs)) + [if IsDotSegment(Last(segs)) then [] else Last(segs)]
    ensures NoDotSegment(Segments(Clean(d)))
    ensures Clean(d) == d <==> NoDotSegment(Segments(d))
  {
    FlatSegments(d);
    var segs := Segments(d);
    InitLast(segs);
    DropDotsKeeps(Init(segs));
    var last := if IsDotSegment(Last(segs)) then [] else Last(segs);
    FlatSnoc(DropDots(Init(segs)), last);
    SegmentsOfFlat(DropDots(Init(segs)) + [last]);
    assert NoDotSegment(segs) <==> NoDotSegment(Init(segs)) && !IsDotSegment(Last(segs));
  }

  // ----- EncodeURL -----

  /** The illegal characters of URLs: space CR LF TAB < > # % { } | \\ ^ ~ [ ] ` ; ? @ = & $ and the double quote. */
  const ILLEGAL: seq<Byte> :=
    [32, 13, 10, 9, 60, 62, 35, 37, 123, 125, 124, 92, 94, 126, 91, 93, 96, 59, 63, 64, 61, 38, 36, 34]

  predicate Escapes(c: Byte) { c > 127 || c in ILLEGAL }

  /** What is copied as it is: letters, digits, the marks ! ' ( ) * + , - . / : and _, DEL, and the control characters
      but TAB, LF and CR. */
  lemma CopiedIs(c: Byte)
    ensures !Escapes(c)
       <==> || 'a' as int <= c <= 'z' as int || 'A' as int <= c <= 'Z' as int || '\'' as int <= c <= ':' as int
            || c == '!' as int || c == '_' as int
            || c == 127 || (c < 32 && c != 9 && c != 10 && c != 13)
  {
  }

  function HexDigit(v: int): (c: Byte)
    requires 0 <= v < 16
    ensures IsXDigit(c) && HexValue(c) == v
  {
    if v < 10 then 48 + v else 55 + v
  }

  /** What is written for one character. A number below 16 prints as one digit, so its third byte is the
      terminating NUL. */
  function Enc(c: Byte): (r: Text)
    ensures |r| == if Escapes(c) then 3 else 1
  {
    if !Escapes(c) then [c]
    else if c < 16 then [PERCENT, HexDigit(c), NUL]
    else [PERCENT, HexDigit(c / 16), HexDigit(c % 16)]
  }

  function Encoded(s: Text): (r: Text) {
    if s == [] then [] else Enc(s[0]) + Encoded(s[1..])
  }

  lemma {:induction false} EncodedAppend(s: Text, t: Text)
    ensures Encoded(s + t) == Encoded(s) + Encoded(t)
  {
    if s == [] {
      assert s + t == t;
    } else {
      assert (s + t)[0] == s[0] && (s + t)[1..] == s[1..] + t;
      EncodedAppend(s[1..], t);
      assert Encoded(s) == Enc(s[0]) + Encoded(s[1..]);
    }
  }

  /** The characters whose coding does not decode: NUL is copied, and TAB, LF and CR print as one digit. */
  predicate Spoils(c: Byte) { c == NUL || c == 9 || c == 10 || c == 13 }

  lemma FirstOfEnc(c: Byte, rest: Text)
    ensures Enc(c) + rest != [] && (SLASH == (Enc(c) + rest)[0] <==> c == SLASH) && QUESTION !in Enc(c)
    ensures First(Enc(c) + rest) == if Spoils(c) then None else Some((c, rest))
  {
    var src := Enc(c) + rest;
    if Escapes(c) {
      assert src[0] == PERCENT && src[1] == Enc(c)[1] && src[2] == Enc(c)[2] && src[3..] == rest;
      assert c == 16 * (c / 16) + c % 16;
    } else {
      assert src[0] == c && src[1..] == rest;
    }
  }

  lemma {:induction false} EncodedDecodes(s: Text)
    ensures PctDecode(Encoded(s)) == if (exists k :: 0 <= k < |s| && Spoils(s[k])) then None else Some(s)
    ensures QUESTION !in Encoded(s)
    ensures |s| <= |Encoded(s)|
    ensures s != [] ==> Encoded(s) != [] && (Encoded(s)[0] == SLASH <==> s[0] == SLASH)
  {
    if s != [] {
      FirstOfEnc(s[0], Encoded(s[1..]));
      EncodedDecodes(s[1..]);
      assert s == [s[0]] + s[1..];
      if Spoils(s[0]) {
        assert PctDecode(Encoded(s)) == None;
      } else if k :| 0 <= k < |s| && Spoils(s[k]) {
        assert Spoils(s[1..][k - 1]);
      } else {
        assert forall k :: 0 <= k < |s| - 1 ==> s[1..][k] == s[k + 1];
      }
    }
  }

  /** Exactly when decoding undoes encoding, for every source and every destination with room for it. */
  lemma EncodeThenDecode(s: Text, destLen: nat)
    requires |s| <= destLen
    ensures DecodeURL(Encoded(s), destLen) == Written(s)
       <==> && s != [] && s[0] == SLASH
            && (forall k :: 0 <= k < |s| ==> !Spoils(s[k]))
            && NoDotSegment(Segments(s))
  {
    EncodedDecodes(s);
    DecodeURLIsClean(Encoded(s), destLen);
    if s != [] && s[0] == SLASH {
      CleanSegments(s);
      DecodedLengthFits(s, destLen);
    }
  }

  // ----- The two calls -----

  const OS_BAD_URL_FORMAT := -100
  const OS_NOT_ENOUGH_SPACE := -101

  /** The decoding loop over the destination's bytes: what it has written so far is the buffer of Decode. */
  method DecodeURLInto(src: Text, dest: array<Byte>, inDestLen: nat) returns (r: int)
    requires inDestLen <= dest.Length
    modifies dest
    ensures dest[inDestLen..] == old(dest[inDestLen..])
    ensures match DecodeURL(src, inDestLen)
            case Written(text) => r == |text| <= inDestLen && dest[..r] == text
            case BadURLFormat => r == OS_BAD_URL_FORMAT
            case NotEnoughSpace => r == OS_NOT_ENOUGH_SPACE
  {
    if src == [] || src[0] != SLASH {
      return OS_BAD_URL_FORMAT;
    }
    var at, written, dots, inQuery := 0, 0, 0, false;
    assert src[0..] == src && dest[..0] == [];
    while at < |src|
      invariant 0 <= at <= |src| && written <= inDestLen && 0 <= dots <= written
      invariant !inQuery ==> DotsAtEnd(Buffer(dest[..written], dots))
      invariant written == 0 ==> at == 0 && !inQuery
      invariant DecodeURL(src, inDestLen) == Decode(src[at..], inDestLen, Buffer(dest[..written], dots), inQuery)
      invariant dest[inDestLen..] == old(dest[inDestLen..])
    {
      if written == inDestLen {
        return OS_NOT_ENOUGH_SPACE;
      }
      ghost var b := Buffer(dest[..written], dots);
      inQuery := inQuery || src[at] == QUESTION;
      var bad, c, next := ReadOne(src, at);
      if bad {
        return OS_BAD_URL_FORMAT;
      }
      at := next;
      if inQuery {
        dest[written] := c;
        assert dest[..written + 1] == b.text + [c];
        written := written + 1;
      } else {
        written, dots := PutInto(dest, written, dots, c);
        assert dest[inDestLen..] == old(dest[inDestLen..]);
      }
    }
    assert src[at..] == [];
    if dots <= 2 {
      assert dest[..written][..written - dots] == dest[..written - dots];
      written := written - dots;
    }
    return written;
  }

  /** One character of the source, decoded if it is a code, and the place behind it. */
  method ReadOne(src: Text, at: nat) returns (bad: bool, c: Byte, next: nat)
    requires at < |src|
    ensures bad == First(src[at..]).None?
    ensures !bad ==> at < next <= |src| && First(src[at..]) == Some((c, src[next..]))
  {
    bad, c, next := false, src[at], at + 1;
    if src[at] == PERCENT {
      if |src| - at < 3 || !IsXDigit(src[at + 1]) || !IsXDigit(src[at + 2]) {
        bad := true;
      } else {
        c, next := 16 * HexValue(src[at + 1]) + HexValue(src[at + 2]), at + 3;
      }
    } else if src[at] == NUL {
      bad := true;
    }
  }

  /** One decoded character outside the query, backing up over "." and "..". */
  method PutInto(dest: array<Byte>, at: nat, dots: nat, c: Byte) returns (written: nat, dots': nat)
    requires at < dest.Length && DotsAtEnd(Buffer(dest[..at], dots)) && (at == 0 ==> c == SLASH)
    modifies dest
    ensures 0 < written <= at + 1
    ensures Buffer(dest[..written], dots') == Put(Buffer(old(dest[..at]), dots), c)
    ensures forall k :: at < k < dest.Length ==> dest[k] == old(dest[k])
  {
    written, dots' := at, dots;
    if c == SLASH && 0 < dots <= 2 {
      assert dots < |dest[..at]|;
      written := written - (dots + 1);
      assert dest[..at][..written] == dest[..written];
    }
    ghost var text := dest[..written];
    dest[written] := c;
    if dest[written] == DOT {
      assert written > 0 && text[written - 1] == dest[written - 1];
      if dots' == 0 && dest[written - 1] == SLASH {
        dots' := dots' + 1;
      } else if dots' > 0 && dest[written - 1] == DOT {
        dots' := dots' + 1;
      }
    } else {
      dots' := 0;
    }
    assert dest[..written + 1] == text + [c];
    written := written + 1;
  }

  /** The codes of the first n characters end exactly at inDestLen with one whose print leaves its terminating
      NUL behind it. A number below 16 prints as one digit, and its NUL is the third byte of its code. */
  predicate Overruns(src: Text, n: nat, inDestLen: nat)
    requires n <= |src|
  {
    exists k :: 0 <= k < n && OverrunsAt(src, k, inDestLen)
  }

  predicate OverrunsAt(src: Text, k: nat, inDestLen: nat)
    requires k < |src|
  {
    |Encoded(src[..k + 1])| == inDestLen && Escapes(src[k]) && src[k] >= 16
  }

  lemma {:induction false} EncodedGrows(src: Text, j: nat, k: nat)
    requires j <= k <= |src|
    ensures |Encoded(src[..j])| <= |Encoded(src[..k])|
  {
    if j < k {
      EncodedGrows(src, j, k - 1);
      EncodedStep(src, k - 1);
    }
  }

  /** Once a code does not fit, none ends at inDestLen any more. */
  lemma NoLaterOverrun(src: Text, at: nat, inDestLen: nat)
    requires at < |src| && |Encoded(src[..at + 1])| > inDestLen
    ensures Overruns(src, at, inDestLen) <==> Overruns(src, |src|, inDestLen)
  {
    forall k | at <= k < |src| ensures !OverrunsAt(src, k, inDestLen) {
      EncodedGrows(src, at + 1, k + 1);
    }
  }

  /** Writes the coded source, or as many whole characters' codes as fit. The destination needs one byte more
      than inDestLen, and this byte becomes NUL, exactly when a code that leaves a NUL behind it ends there. */
  method EncodeURL(src: Text, dest: array<Byte>, inDestLen: nat) returns (r: int)
    requires inDestLen <= dest.Length && (Overruns(src, |src|, inDestLen) ==> inDestLen < dest.Length)
    modifies dest
    ensures if |Encoded(src)| <= inDestLen then r == |Encoded(src)| && dest[..r] == Encoded(src)
            else r == OS_NOT_ENOUGH_SPACE && exists k :: HoldsPrefix(dest[..inDestLen], src, k)
    ensures dest[inDestLen..] == Behind(old(dest[inDestLen..]), Overruns(src, |src|, inDestLen))
  {
    var at: nat, written: nat := 0, 0;
    assert src[..0] == [] && dest[..0] == [];
    while at < |src|
      invariant at <= |src| && written <= inDestLen
      invariant dest[..written] == Encoded(src[..at])
      invariant dest[inDestLen..] == Behind(old(dest[inDestLen..]), Overruns(src, at, inDestLen))
    {
      EncodedStep(src, at);
      if written == inDestLen || (Escapes(src[at]) && inDestLen - written < 3) {
        assert dest[..inDestLen][..written] == dest[..written];
        assert HoldsPrefix(dest[..inDestLen], src, at);
        NoLaterOverrun(src, at, inDestLen);
        return OS_NOT_ENOUGH_SPACE;
      }
      written := EncodeOne(src, dest, inDestLen, at, written);
      at := at + 1;
    }
    assert src[..at] == src;
    return written;
  }

  /** What is behind the destination: as it was, or with a NUL right behind it. */
  function Behind(before: Text, overrun: bool): Text
    requires overrun ==> before != []
  {
    if overrun then before[0 := NUL] else before
  }

  /** One turn of the loop, with room for the code. */
  method EncodeOne(src: Text, dest: array<Byte>, inDestLen: nat, at: nat, written: nat) returns (written': nat)
    requires inDestLen <= dest.Length && (Overruns(src, |src|, inDestLen) ==> inDestLen < dest.Length)
    requires at < |src| && written + |Enc(src[at])| <= inDestLen
    requires dest[..written] == Encoded(src[..at])
    modifies dest
    ensures written' <= inDestLen && dest[..written'] == Encoded(src[..at + 1])
    ensures dest[inDestLen..] == Behind(old(dest[inDestLen..]), OverrunsAt(src, at, inDestLen))
  {
    EncodedStep(src, at);
    if Escapes(src[at]) {
      assert OverrunsAt(src, at, inDestLen) ==> Overruns(src, |src|, inDestLen);
      written' := written + 3;
      PutEscape(dest, written, src[at], inDestLen);
    } else {
      written' := written + 1;
      PutPlain(dest, written, src[at], inDestLen);
    }
  }

  /** The code of an octet, and what printing it does behind the end of the room. */
  method PutEscape(dest: array<Byte>, at: nat, c: Byte, ghost end: nat)
    requires at + 3 <= end <= dest.Length && (c >= 16 && at + 3 == end ==> end < dest.Length)
    requires Escapes(c)
    modifies dest
    ensures dest[..at + 3] == old(dest[..at]) + Enc(c)
    ensures dest[end..] == Behind(old(dest[end..]), c >= 16 && at + 3 == end)
  {
    ghost var behind := dest[at + 3..];
    PrintPercentHex(dest, at, c);
    BehindFurther(dest[at + 3..], behind, c >= 16, end - (at + 3));
  }

  method PutPlain(dest: array<Byte>, at: nat, c: Byte, ghost end: nat)
    requires at < end <= dest.Length
    modifies dest
    ensures dest[..at + 1] == old(dest[..at]) + [c] && dest[end..] == old(dest[end..])
  {
    dest[at] := c;
  }

  lemma BehindFurther(after: Text, before: Text, overrun: bool, d: nat)
    requires (overrun ==> before != []) && after == Behind(before, overrun) && d <= |before|
    ensures after[d..] == Behind(before[d..], overrun && d == 0)
  {
  }

  lemma EncodedStep(src: Text, at: nat)
    requires at < |src|
    ensures Encoded(src[..at + 1]) == Encoded(src[..at]) + Enc(src[at])
    ensures |Encoded(src[..at + 1])| <= |Encoded(src)|
  {
    assert src[..at + 1] == src[..at] + [src[at]] && src == src[..at + 1] + src[at + 1..];
    EncodedAppend(src[..at], [src[at]]);
    EncodedAppend(src[..at + 1], src[at + 1..]);
    assert Encoded([src[at]]) == Enc(src[at]);
  }

  /** The codes of the first k characters are in place, and the next one's does not fit. */
  ghost predicate HoldsPrefix(held: Text, src: Text, k: nat) {
    && k < |src|
    && |Encoded(src[..k])| <= |held| < |Encoded(src[..k + 1])|
    && held[..|Encoded(src[..k])|] == Encoded(src[..k])
  }

  /** The print of a '%', the number in hexadecimal and a terminating NUL. */
  method PrintPercentHex(dest: array<Byte>, at: nat, c: Byte)
    requires Escapes(c) && at + 3 <= dest.Length
    requires at + 3 == dest.Length ==> c < 16
    modifies dest
    ensures dest[..at + 3] == old(dest[..at]) + Enc(c)
    ensures dest[at + 3..] == Behind(old(dest[at + 3..]), c >= 16)
  {
    dest[at] := PERCENT;
    if c < 16 {
      dest[at + 1], dest[at + 2] := HexDigit(c), NUL;
    } else {
      dest[at + 1], dest[at + 2], dest[at + 3] := HexDigit(c / 16), HexDigit(c % 16), NUL;
    }
  }

  /** A space coded into a destination of three bytes: the NUL falls behind it. */
  lemma SpaceOverruns()
    ensures Encoded([32]) == [PERCENT, 50, 48] && Overruns([32], 1, 3)
  {
    var src: Text := [32];
    assert Encoded(src) == Enc(32) + Encoded(src[1..]);
    assert src[..0 + 1] == src && OverrunsAt(src, 0, 3);
  }
}
