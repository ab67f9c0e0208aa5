/** base64.c: the encoder and the decoder. A char is the 8-bit pattern it holds; the source masks every
    shift, so whether char is signed does not matter. The two tables are parameters of the code and of its
    proofs, which use only that they are inverse to each other. */
module Base64 {
  import opened Sequences

  type Byte = bv8
  type Table = Byte -> Byte

  const PAD: Byte := 61

  /** basis_64: A to Z, a to z, 0 to 9, + and /. */
  function Basis64(x: Byte): (c: Byte) {
    if x < 26 then x + 65
    else if x < 52 then x + 71
    else if x < 62 then x - 4
    else if x == 62 then 43
    else 47
  }

  /** pr2six: the place of a character in the alphabet, and 64 for every other character. */
  function Pr2Six(c: Byte): (x: Byte) {
    if 65 <= c <= 90 then c - 65
    else if 97 <= c <= 122 then c - 71
    else if 48 <= c <= 57 then c + 4
    else if c == 43 then 62
    else if c == 47 then 63
    else 64
  }

  /** The decoder's table undoes the encoder's, and neither the padding nor NUL is in the alphabet. */
  ghost predicate Inverse(basis: Table, six: Table) {
    && (forall x :: x < 64 ==> six(basis(x)) == x)
    && six(PAD) == 64 && six(0) == 64
  }

  lemma TablesInverse()
    ensures Inverse(Basis64, Pr2Six)
  {
    forall x: Byte | x < 64
      ensures Pr2Six(Basis64(x)) == x
    {
    }
  }

  /** Eight characters of the alphabet in a row. */
  function Row(x: Byte): seq<Byte> {
    [Basis64(x), Basis64(x + 1), Basis64(x + 2), Basis64(x + 3),
     Basis64(x + 4), Basis64(x + 5), Basis64(x + 6), Basis64(x + 7)]
  }

  /** The alphabet of table 1 of RFC 4648, in ASCII. */
  lemma Alphabet()
    ensures Row(0) == [65, 66, 67, 68, 69, 70, 71, 72]            // ABCDEFGH
    ensures Row(8) == [73, 74, 75, 76, 77, 78, 79, 80]            // IJKLMNOP
    ensures Row(16) == [81, 82, 83, 84, 85, 86, 87, 88]           // QRSTUVWX
    ensures Row(24) == [89, 90, 97, 98, 99, 100, 101, 102]        // YZabcdef
    ensures Row(32) == [103, 104, 105, 106, 107, 108, 109, 110]   // ghijklmn
    ensures Row(40) == [111, 112, 113, 114, 115, 116, 117, 118]   // opqrstuv
    ensures Row(48) == [119, 120, 121, 122, 48, 49, 50, 51]       // wxyz0123
    ensures Row(56) == [52, 53, 54, 55, 56, 57, 43, 47]           // 456789+/
  {
  }

  /** The decoder takes a character for its place in the alphabet, and every other character for 64. */
  lemma OnlyAlphabet(c: Byte, x: Byte)
    ensures x < 64 ==> (Pr2Six(c) == x <==> Basis64(x) == c)
    ensures (forall y: Byte :: y < 64 ==> Basis64(y) != c) ==> Pr2Six(c) == 64
  {
    TablesInverse();
    if Pr2Six(c) < 64 {
      BackAgain(c);
    }
  }

  lemma BackAgain(c: Byte)
    requires Pr2Six(c) < 64
    ensures Basis64(Pr2Six(c)) == c
  {
  }

  // ----- The specification: RFC 4648, section 4 -----

  /** A 24-bit group made of three octets. */
  function Group(a: Byte, b: Byte, c: Byte): bv24 {
    ((a as bv24) << 16) | ((b as bv24) << 8) | (c as bv24)
  }

  /** The k-th of the four 6-bit groups of a 24-bit group. */
  function Sextet(group: bv24, k: nat): (x: Byte)
    requires k < 4
    ensures x < 64
  {
    if k == 0 then ((group >> 18) & 63) as Byte
    else if k == 1 then ((group >> 12) & 63) as Byte
    else if k == 2 then ((group >> 6) & 63) as Byte
    else (group & 63) as Byte
  }

  function InTurn(x0: bv24, x1: bv24, x2: bv24, x3: bv24): bv24 { (x0 << 18) | (x1 << 12) | (x2 << 6) | x3 }

  /** The four groups one after the other are the three octets one after the other. */
  lemma SextetsJoin(a: Byte, b: Byte, c: Byte)
    ensures var g := Group(a, b, c);
      InTurn(Sextet(g, 0) as bv24, Sextet(g, 1) as bv24, Sextet(g, 2) as bv24, Sextet(g, 3) as bv24)
      == ((a as bv24) << 16) | ((b as bv24) << 8) | (c as bv24)
  {
  }

  type Sextets = q: seq<Byte> | forall i :: 0 <= i < |q| ==> q[i] < 64

  function FourSextets(a: Byte, b: Byte, c: Byte): (q: Sextets)
    ensures |q| == 4
  {
    var g := Group(a, b, c);
    [Sextet(g, 0), Sextet(g, 1), Sextet(g, 2), Sextet(g, 3)]
  }

  /** Four 6-bit groups for three octets; one or two octets at the end are filled with zero bits. */
  function Split(s: seq<Byte>): (q: Sextets) {
    if s == [] then []
    else if |s| == 1 then FourSextets(s[0], 0, 0)[..2]
    else if |s| == 2 then FourSextets(s[0], s[1], 0)[..3]
    else FourSextets(s[0], s[1], s[2]) + Split(s[3..])
  }

  /** Every entry of q looked up in a table. */
  function LookUp(table: Table, q: seq<Byte>): (t: seq<Byte>)
    ensures |t| == |q|
    ensures forall i :: 0 <= i < |q| ==> t[i] == table(q[i])
  {
    seq(|q|, i requires 0 <= i < |q| => table(q[i]))
  }

  function Pads(n: nat): (t: seq<Byte>) {
    if n % 3 == 0 then [] else if n % 3 == 1 then [PAD, PAD] else [PAD]
  }

  /** The 6-bit groups as characters, padded to whole groups of four. */
  function Encoded(basis: Table, s: seq<Byte>): (t: seq<Byte>) {
    LookUp(basis, Split(s)) + Pads(|s|)
  }

  /** Three of the test vectors in section 10 of RFC 4648: "f", "fo" and "foo". */
  lemma Vectors()
    ensures Encoded(Basis64, [102]) == [90, 103, 61, 61]         // Zg==
    ensures Encoded(Basis64, [102, 111]) == [90, 109, 56, 61]    // Zm8=
    ensures Encoded(Basis64, [102, 111, 111]) == [90, 109, 57, 118]  // Zm9v
  {
    assert Split([102]) == [25, 32];
    assert Split([102, 111]) == [25, 38, 60];
    assert FourSextets(102, 111, 111) == [25, 38, 61, 47];
    assert [102, 111, 111][3..] == [];
    assert Split([102, 111, 111]) == [25, 38, 61, 47];
  }

  /** How many characters of the alphabet the text starts with. */
  function ValidPrefix(six: Table, t: seq<Byte>): (n: nat)
    ensures n <= |t|
    ensures forall i :: 0 <= i < n ==> six(t[i]) <= 63
    ensures n < |t| ==> six(t[n]) > 63
  {
    if t == [] || six(t[0]) > 63 then 0 else 1 + ValidPrefix(six, t[1..])
  }

  function ThreeBytes(x0: Byte, x1: Byte, x2: Byte, x3: Byte): (s: seq<Byte>)
    ensures |s| == 3
  {
    [(x0 << 2) | (x1 >> 4), (x1 << 4) | (x2 >> 2), (x2 << 6) | x3]
  }

  /** What the decoder makes of a run of 6-bit groups: a single one at the end is ignored. */
  function Joined(q: seq<Byte>): (s: seq<Byte>) {
    if |q| > 4 then ThreeBytes(q[0], q[1], q[2], q[3]) + Joined(q[4..])
    else if |q| == 4 then ThreeBytes(q[0], q[1], q[2], q[3])
    else if |q| == 3 then ThreeBytes(q[0], q[1], q[2], 0)[..2]
    else if |q| == 2 then ThreeBytes(q[0], q[1], 0, 0)[..1]
    else []
  }

  /** What the decoder makes of a text: its leading run of alphabet characters counts. */
  function Decoded(six: Table, t: seq<Byte>): (s: seq<Byte>)
    ensures |s| == DecodedLen(ValidPrefix(six, t))
  {
    JoinedLength(LookUp(six, t[..ValidPrefix(six, t)]));
    Joined(LookUp(six, t[..ValidPrefix(six, t)]))
  }

  // ----- The round trip -----

  /** The decoder undoes one group, whole or filled up. */
  lemma GroupRoundTrip(a: Byte, b: Byte, c: Byte)
    ensures var g := Group(a, b, c);
      && (Sextet(g, 0) << 2) | (Sextet(g, 1) >> 4) == a
      && (Sextet(g, 1) << 4) | (Sextet(g, 2) >> 2) == b
      && (Sextet(g, 2) << 6) | Sextet(g, 3) == c
  {
  }

  lemma JoinFour(a: Byte, b: Byte, c: Byte)
    ensures var q := FourSextets(a, b, c);
      ThreeBytes(q[0], q[1], q[2], q[3]) == [a, b, c]
      && ThreeBytes(q[0], q[1], q[2], 0)[..2] == [a, b]
      && ThreeBytes(q[0], q[1], 0, 0)[..1] == [a]
  {
    GroupRoundTrip(a, b, c);
  }

  lemma {:induction false} JoinSplit(s: seq<Byte>)
    ensures Joined(Split(s)) == s
    decreases |s|
  {
    if |s| == 1 {
      JoinFour(s[0], 0, 0);
    } else if |s| == 2 {
      JoinFour(s[0], s[1], 0);
    } else if |s| >= 3 {
      JoinFour(s[0], s[1], s[2]);
      JoinSplit(s[3..]);
      JoinedGroup(FourSextets(s[0], s[1], s[2]), Split(s[3..]));
      assert s == [s[0], s[1], s[2]] + s[3..];
    }
  }

  lemma JoinedGroup(four: seq<Byte>, rest: seq<Byte>)
    requires |four| == 4
    ensures Joined(four + rest) == ThreeBytes(four[0], four[1], four[2], four[3]) + Joined(rest)
  {
    if rest == [] {
      assert four + rest == four;
    } else {
      assert (four + rest)[4..] == rest;
    }
  }

  lemma LookUpBack(basis: Table, six: Table, q: Sextets)
    requires Inverse(basis, six)
    ensures LookUp(six, LookUp(basis, q)) == q
  {
    forall i | 0 <= i < |q|
      ensures six(basis(q[i])) == q[i]
    {
      assert q[i] < 64;
    }
  }

  lemma {:induction false} ValidPrefixOf(six: Table, t: seq<Byte>, rest: seq<Byte>)
    requires forall i :: 0 <= i < |t| ==> six(t[i]) <= 63
    requires rest != [] && six(rest[0]) > 63
    ensures ValidPrefix(six, t + rest) == |t|
  {
    if t != [] {
      assert t[0] == (t + rest)[0] && (t + rest)[1..] == t[1..] + rest;
      ValidPrefixOf(six, t[1..], rest);
    } else {
      assert t + rest == rest;
    }
  }

  /** The padding or the NUL ends the run of alphabet characters. */
  lemma EncodedPrefix(basis: Table, six: Table, s: seq<Byte>)
    requires Inverse(basis, six)
    ensures ValidPrefix(six, Encoded(basis, s) + [0]) == |Split(s)|
    ensures (Encoded(basis, s) + [0])[..|Split(s)|] == LookUp(basis, Split(s))
  {
    var q := Split(s);
    var core, rest := LookUp(basis, q), Pads(|s|) + [0];
    forall i | 0 <= i < |core|
      ensures six(core[i]) <= 63
    {
      assert q[i] < 64;
    }
    ValidPrefixOf(six, core, rest);
    assert Encoded(basis, s) + [0] == core + rest;
  }

  /** Decoding an encoded byte string gives the string back, for every string of every length. */
  lemma RoundTrip(basis: Table, six: Table, s: seq<Byte>)
    requires Inverse(basis, six)
    ensures Decoded(six, Encoded(basis, s) + [0]) == s
  {
    EncodedPrefix(basis, six, s);
    LookUpBack(basis, six, Split(s));
    JoinSplit(s);
  }

  // ----- Lengths -----

  function Base64encode_len(len: nat): (n: nat) {
    (len + 2) / 3 * 4 + 1
  }

  function DecodedLen(n: nat): (r: nat) {
    (n + 3) / 4 * 3 - (if n % 4 == 0 then 0 else 4 - n % 4)
  }

  lemma {:induction false} JoinedLength(q: seq<Byte>)
    ensures |Joined(q)| == DecodedLen(|q|)
    decreases |q|
  {
    if |q| > 4 {
      JoinedLength(q[4..]);
      Minus4(|q|);
    }
  }

  lemma Minus4(n: nat)
    requires n >= 4
    ensures DecodedLen(n) == 3 + DecodedLen(n - 4)
  {
  }

  lemma {:induction false} SplitLength(s: seq<Byte>)
    ensures |Split(s)| == |s| / 3 * 4 + (if |s| % 3 == 0 then 0 else |s| % 3 + 1)
    decreases |s|
  {
    if |s| >= 3 {
      SplitLength(s[3..]);
      Minus3(|s|);
    }
  }

  lemma Minus3(n: nat)
    requires n >= 3
    ensures (n - 3) / 3 == n / 3 - 1 && (n - 3) % 3 == n % 3
  {
  }

  /** The length function is exact: data characters, padding to whole groups of four, and the NUL. */
  lemma EncodedLength(basis: Table, s: seq<Byte>)
    ensures |Encoded(basis, s)| + 1 == Base64encode_len(|s|)
    ensures |Encoded(basis, s)| % 4 == 0
  {
    SplitLength(s);
    assert |Encoded(basis, s)| == |Split(s)| + |Pads(|s|)|;
    PaddedLength(|s| / 3, |s| % 3);
  }

  lemma PaddedLength(q: nat, r: nat)
    requires r < 3
    ensures var n := 4 * q + (if r == 0 then 0 else 4);
            n % 4 == 0 && (3 * q + r + 2) / 3 * 4 == n
  {
    assert (3 * q + r + 2) / 3 == if r == 0 then q else q + 1;
  }

  /** The two lengths agree: what was encoded has the length it is decoded to. */
  lemma LengthsAgree(basis: Table, six: Table, s: seq<Byte>)
    requires Inverse(basis, six)
    ensures DecodedLen(ValidPrefix(six, Encoded(basis, s) + [0])) == |s|
  {
    EncodedPrefix(basis, six, s);
    JoinSplit(s);
    JoinedLength(Split(s));
  }

  // ----- The encoder -----

  lemma EncoderBits(a: Byte, b: Byte, c: Byte)
    ensures var q := FourSextets(a, b, c);
      && (a >> 2) & 0x3F == q[0]
      && ((a & 0x3) << 4) | ((b & 0xF0) >> 4) == q[1]
      && ((b & 0xF) << 2) | ((c & 0xC0) >> 6) == q[2]
      && c & 0x3F == q[3]
  {
  }

  lemma EncoderTailBits(a: Byte, b: Byte)
    ensures (a & 0x3) << 4 == FourSextets(a, 0, 0)[1]
    ensures (b & 0xF) << 2 == FourSextets(a, b, 0)[2]
  {
  }

  method PutFour(encoded: array<Byte>, p: nat, c0: Byte, c1: Byte, c2: Byte, c3: Byte)
    requires p + 4 <= encoded.Length
    modifies encoded
    ensures encoded[..p + 4] == old(encoded[..p]) + [c0, c1, c2, c3]
    ensures forall k :: p + 4 <= k < encoded.Length ==> encoded[k] == old(encoded[k])
  {
    encoded[p] := c0;
    encoded[p + 1] := c1;
    encoded[p + 2] := c2;
    encoded[p + 3] := c3;
  }

  /** The body of the encoder's loop: three octets become four characters. */
  method EncodeGroup(basis: Table, encoded: array<Byte>, p: nat, a: Byte, b: Byte, c: Byte)
    requires p + 4 <= encoded.Length
    modifies encoded
    ensures encoded[..p + 4] == old(encoded[..p]) + LookUp(basis, FourSextets(a, b, c))
    ensures forall k :: p + 4 <= k < encoded.Length ==> encoded[k] == old(encoded[k])
  {
    EncoderBits(a, b, c);
    PutFour(encoded, p,
      basis((a >> 2) & 0x3F),
      basis(((a & 0x3) << 4) | ((b & 0xF0) >> 4)),
      basis(((b & 0xF) << 2) | ((c & 0xC0) >> 6)),
      basis(c & 0x3F));
  }

  lemma EncodedStep(basis: Table, s: seq<Byte>, i: nat)
    requires i + 3 <= |s|
    ensures Encoded(basis, s[i..]) == LookUp(basis, FourSextets(s[i], s[i + 1], s[i + 2])) + Encoded(basis, s[i + 3..])
  {
    assert s[i..][3..] == s[i + 3..];
    assert Split(s[i..]) == FourSextets(s[i], s[i + 1], s[i + 2]) + Split(s[i + 3..]);
    Minus3(|s[i..]|);
  }

  /** Writes the encoded form and a NUL, and returns how many characters that is. */
  method Base64encode(basis: Table, encoded: array<Byte>, string': seq<Byte>) returns (n: nat)
    requires encoded.Length >= Base64encode_len(|string'|)
    modifies encoded
    ensures n == Base64encode_len(|string'|)
    ensures encoded[..n] == Encoded(basis, string') + [0]
    ensures forall k :: n <= k < encoded.Length ==> encoded[k] == old(encoded[k])
  {
    EncodedLength(basis, string');
    var p, i := EncodeGroups(basis, encoded, string');
    p := EncodeLast(basis, encoded, p, string'[i..]);
    encoded[p] := 0;
    n := p + 1;
  }

  /** The encoder's loop: whole groups, until fewer than three octets are left. */
  method EncodeGroups(basis: Table, encoded: array<Byte>, string': seq<Byte>) returns (p: nat, i: nat)
    requires |Encoded(basis, string')| <= encoded.Length
    modifies encoded
    ensures i <= |string'| < i + 3
    ensures encoded.Length >= p && encoded[..p] + Encoded(basis, string'[i..]) == Encoded(basis, string')
    ensures forall k :: p <= k < encoded.Length ==> encoded[k] == old(encoded[k])
  {
    p, i := 0, 0;
    assert string'[0..] == string';
    while i < |string'| - 2
      invariant 0 <= i <= |string'| && p <= encoded.Length
      invariant encoded[..p] + Encoded(basis, string'[i..]) == Encoded(basis, string')
      invariant forall k :: p <= k < encoded.Length ==> encoded[k] == old(encoded[k])
    {
      EncodedStep(basis, string', i);
      ghost var before, rest := encoded[..p], Encoded(basis, string'[i + 3..]);
      ghost var four := LookUp(basis, FourSextets(string'[i], string'[i + 1], string'[i + 2]));
      assert before + (four + rest) == before + four + rest;
      EncodeGroup(basis, encoded, p, string'[i], string'[i + 1], string'[i + 2]);
      p := p + 4;
      i := i + 3;
    }
  }

  /** What is left after the loop: no octet, one or two. */
  method EncodeLast(basis: Table, encoded: array<Byte>, p: nat, rest: seq<Byte>) returns (q: nat)
    requires |rest| < 3 && p + |Encoded(basis, rest)| <= encoded.Length
    modifies encoded
    ensures q == p + |Encoded(basis, rest)|
    ensures encoded[..q] == old(encoded[..p]) + Encoded(basis, rest)
    ensures forall k :: q <= k < encoded.Length ==> encoded[k] == old(encoded[k])
  {
    q := p;
    EncodedLength(basis, rest);
    if |rest| > 0 {
      var a := rest[0];
      if |rest| == 1 {
        EncoderBits(a, 0, 0);
        EncoderTailBits(a, 0);
        PutFour(encoded, p, basis((a >> 2) & 0x3F), basis((a & 0x3) << 4), PAD, PAD);
      } else {
        var b := rest[1];
        EncoderBits(a, b, 0);
        EncoderTailBits(a, b);
        PutFour(encoded, p,
          basis((a >> 2) & 0x3F), basis(((a & 0x3) << 4) | ((b & 0xF0) >> 4)), basis((b & 0xF) << 2), PAD);
      }
      q := p + 4;
    }
  }

  // ----- The decoder -----

  /** The text holds a character outside the alphabet; in C, at least its terminating NUL. */
  predicate Terminated(six: Table, t: seq<Byte>) { ValidPrefix(six, t) < |t| }

  method CountValid(six: Table, bufcoded: seq<Byte>) returns (nprbytes: nat)
    requires Terminated(six, bufcoded)
    ensures nprbytes == ValidPrefix(six, bufcoded)
  {
    nprbytes := 0;
    while six(bufcoded[nprbytes]) <= 63
      invariant nprbytes <= ValidPrefix(six, bufcoded)
      decreases ValidPrefix(six, bufcoded) - nprbytes
    {
      nprbytes := nprbytes + 1;
    }
  }

  method Base64decode_len(six: Table, bufcoded: seq<Byte>) returns (n: nat)
    requires Terminated(six, bufcoded)
    ensures n == (ValidPrefix(six, bufcoded) + 3) / 4 * 3 + 1
    ensures n > |Decoded(six, bufcoded)|
  {
    var nprbytes := CountValid(six, bufcoded);
    n := (nprbytes + 3) / 4 * 3 + 1;
  }

  /** The body of the decoder's loop: four characters become three octets. */
  method DecodeGroup(six: Table, bufplain: array<Byte>, out: nat, c0: Byte, c1: Byte, c2: Byte, c3: Byte)
    requires out + 3 <= bufplain.Length
    modifies bufplain
    ensures bufplain[..out + 3] == old(bufplain[..out]) + ThreeBytes(six(c0), six(c1), six(c2), six(c3))
  {
    bufplain[out] := (six(c0) << 2) | (six(c1) >> 4);
    bufplain[out + 1] := (six(c1) << 4) | (six(c2) >> 2);
    bufplain[out + 2] := (six(c2) << 6) | six(c3);
  }

  lemma JoinedShort(six: Table, t: seq<Byte>)
    requires |t| <= 4
    ensures var j := Joined(LookUp(six, t));
            && |j| == (if t == [] then 0 else |t| - 1)
            && (|t| > 1 ==> j[0] == (six(t[0]) << 2) | (six(t[1]) >> 4))
            && (|t| > 2 ==> j[1] == (six(t[1]) << 4) | (six(t[2]) >> 2))
            && (|t| > 3 ==> j[2] == (six(t[2]) << 6) | six(t[3]))
  {
  }

  /** The last group of up to four characters. */
  method DecodeTail(six: Table, bufplain: array<Byte>, p: nat, bufin: seq<Byte>) returns (out: nat)
    requires |bufin| <= 4 && p + |Joined(LookUp(six, bufin))| <= bufplain.Length
    modifies bufplain
    ensures out == p + |Joined(LookUp(six, bufin))|
    ensures bufplain[..out] == old(bufplain[..p]) + Joined(LookUp(six, bufin))
  {
    JoinedShort(six, bufin);
    out := p;
    if |bufin| > 1 {
      bufplain[out] := (six(bufin[0]) << 2) | (six(bufin[1]) >> 4);
      out := out + 1;
    }
    if |bufin| > 2 {
      bufplain[out] := (six(bufin[1]) << 4) | (six(bufin[2]) >> 2);
      out := out + 1;
    }
    if |bufin| > 3 {
      bufplain[out] := (six(bufin[2]) << 6) | six(bufin[3]);
      out := out + 1;
    }
  }

  lemma JoinedStep(six: Table, t: seq<Byte>, i: nat)
    requires i + 4 <= |t|
    ensures Joined(LookUp(six, t[i..])) ==
      ThreeBytes(six(t[i]), six(t[i + 1]), six(t[i + 2]), six(t[i + 3])) + Joined(LookUp(six, t[i + 4..]))
  {
    var four := [six(t[i]), six(t[i + 1]), six(t[i + 2]), six(t[i + 3])];
    assert LookUp(six, t[i..]) == four + LookUp(six, t[i + 4..]);
    JoinedGroup(four, LookUp(six, t[i + 4..]));
  }

  /** Writes what the leading run of alphabet characters decodes to and a NUL, and returns its length. */
  method Base64decode(six: Table, bufplain: array<Byte>, bufcoded: seq<Byte>) returns (nbytesdecoded: int)
    requires Terminated(six, bufcoded)
    requires bufplain.Length >= (ValidPrefix(six, bufcoded) + 3) / 4 * 3 + 1
    modifies bufplain
    ensures nbytesdecoded == |Decoded(six, bufcoded)|
    ensures bufplain[..nbytesdecoded] == Decoded(six, bufcoded)
    ensures bufplain[nbytesdecoded] == 0
  {
    var nprbytes := CountValid(six, bufcoded);
    var t := bufcoded[..nprbytes];
    JoinedLength(LookUp(six, t));
    nbytesdecoded := (nprbytes + 3) / 4 * 3;
    var out, bufin, groups := DecodeGroups(six, bufplain, t);
    nprbytes := nprbytes - bufin;
    LastGroup(|t|, nprbytes, groups);
    out := DecodeTail(six, bufplain, out, t[bufin..]);
    bufplain[out] := 0;
    nbytesdecoded := nbytesdecoded - (4 - nprbytes) % 4;
  }

  method DecodeAt(six: Table, bufplain: array<Byte>, out: nat, t: seq<Byte>, bufin: nat)
    requires bufin + 4 <= |t| && out <= bufplain.Length
    requires |bufplain[..out] + Joined(LookUp(six, t[bufin..]))| <= bufplain.Length
    modifies bufplain
    ensures out + 3 <= bufplain.Length
    ensures bufplain[..out + 3] + Joined(LookUp(six, t[bufin + 4..]))
         == old(bufplain[..out]) + Joined(LookUp(six, t[bufin..]))
  {
    JoinedStep(six, t, bufin);
    Regroup(bufplain[..out], ThreeBytes(six(t[bufin]), six(t[bufin + 1]), six(t[bufin + 2]), six(t[bufin + 3])),
            Joined(LookUp(six, t[bufin + 4..])));
    DecodeGroup(six, bufplain, out, t[bufin], t[bufin + 1], t[bufin + 2], t[bufin + 3]);
  }

  /** The decoder's loop: whole groups, until at most four characters are left. */
  method DecodeGroups(six: Table, bufplain: array<Byte>, t: seq<Byte>)
    returns (out: nat, bufin: nat, ghost groups: nat)
    requires |Joined(LookUp(six, t))| <= bufplain.Length
    modifies bufplain
    ensures bufin <= |t| <= bufin + 4 && bufin == 4 * groups && (bufin < |t| || bufin == |t| == 0)
    ensures out <= bufplain.Length && bufplain[..out] + Joined(LookUp(six, t[bufin..])) == Joined(LookUp(six, t))
  {
    out, bufin, groups := 0, 0, 0;
    assert t[0..] == t;
    while |t| - bufin > 4
      invariant bufin == 4 * groups && (bufin < |t| || bufin == |t| == 0) && out <= bufplain.Length
      invariant bufplain[..out] + Joined(LookUp(six, t[bufin..])) == Joined(LookUp(six, t))
    {
      DecodeAt(six, bufplain, out, t, bufin);
      out := out + 3;
      bufin := bufin + 4;
      groups := groups + 1;
    }
  }

  lemma LastGroup(n: nat, r: nat, k: nat)
    requires r <= 4 && n == r + 4 * k && (r == 0 ==> n == 0)
    ensures (n + 3) / 4 * 3 - (4 - r) % 4 == DecodedLen(n)
  {
    assert (n + 3) / 4 == k + (if r == 0 then 0 else 1);
  }

  /** Encoding into a buffer of the length the encoder asks for and decoding it again returns the bytes. */
  method EncodeThenDecode(s: seq<Byte>) returns (r: seq<Byte>)
    ensures r == s
  {
    TablesInverse();
    var coded := new Byte[Base64encode_len(|s|)];
    var n := Base64encode(Basis64, coded, s);
    EncodedPrefix(Basis64, Pr2Six, s);
    RoundTrip(Basis64, Pr2Six, s);
    var size := Base64decode_len(Pr2Six, coded[..n]);
    var plain := new Byte[size];
    var m := Base64decode(Pr2Six, plain, coded[..n]);
    r := plain[..m];
  }
}
