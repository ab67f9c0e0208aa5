/** md5.c: the streaming part of MD5. The block transform is a parameter; nothing below depends on it. */
module Md5 {

  const TWO29 := 0x2000_0000
  const TWO32 := 0x1_0000_0000
  const TWO64 := 0x1_0000_0000_0000_0000

  type Byte = b: int | 0 <= b < 256
  type Word = w: int | 0 <= w < TWO32
  type State = s: seq<Word> | |s| == 4 witness [0, 0, 0, 0]
  type Transform = (State, seq<Byte>) -> State

  const INIT: State := [0x67452301, 0xefcdab89, 0x98badcfe, 0x10325476]

  // ----- The specification: padding, length and chaining of RFC 1321, sections 3.1 to 3.5 -----

  /** The transform applied to the full 64-byte blocks of m, one after the other. */
  function Fold(f: Transform, s: State, m: seq<Byte>): State
    decreases |m|
  {
    if |m| < 64 then s else Fold(f, f(s, m[..64]), m[64..])
  }

  /** What is left of m after its full blocks. */
  function Rest(m: seq<Byte>): (r: seq<Byte>)
    ensures |r| < 64
    decreases |m|
  {
    if |m| < 64 then m else Rest(m[64..])
  }

  function Zeros(n: nat): (z: seq<Byte>)
    ensures |z| == n
  {
    seq(n, _ => 0)
  }

  /** How many padding bytes bring a length to 56 modulo 64, at least one. */
  function PadLen(n: nat): (p: nat) {
    if n % 64 < 56 then 56 - n % 64 else 120 - n % 64
  }

  /** Little-endian bytes of a sequence of words. */
  function EncodeWords(ws: seq<Word>): (bs: seq<Byte>)
    ensures |bs| == 4 * |ws|
  {
    if ws == [] then []
    else [ws[0] % 256, ws[0] / 256 % 256, ws[0] / 65536 % 256, ws[0] / 16777216 % 256] + EncodeWords(ws[1..])
  }

  function Join(a: Byte, b: Byte, c: Byte, d: Byte): (w: Word) {
    var b', c', d': int := b, c, d;
    a + 256 * b' + 65536 * c' + 16777216 * d'
  }

  function DecodeWords(bs: seq<Byte>): (ws: seq<Word>)
    requires |bs| % 4 == 0
    ensures |ws| == |bs| / 4
  {
    if bs == [] then [] else [Join(bs[0], bs[1], bs[2], bs[3])] + DecodeWords(bs[4..])
  }

  /** The 64-bit bit count of a message of n bytes, low word first. */
  function BitCount(n: nat): (ws: seq<Word>) {
    [8 * n % TWO32, 8 * n / TWO32 % TWO32]
  }

  function Padded(m: seq<Byte>): (p: seq<Byte>) {
    m + [0x80] + Zeros(PadLen(|m|) - 1) + EncodeWords(BitCount(|m|))
  }

  function Digest(f: Transform, m: seq<Byte>): (d: seq<Byte>) {
    EncodeWords(Fold(f, INIT, Padded(m)))
  }

  // ----- Facts about the specification -----

  /** Taking more input is the same as taking it from where the full blocks of m end. */
  lemma {:induction false} Resume(f: Transform, s: State, m: seq<Byte>, x: seq<Byte>)
    ensures Fold(f, s, m + x) == Fold(f, Fold(f, s, m), Rest(m) + x)
    ensures Rest(m + x) == Rest(Rest(m) + x)
    decreases |m|
  {
    if |m| >= 64 {
      assert (m + x)[..64] == m[..64] && (m + x)[64..] == m[64..] + x;
      Resume(f, f(s, m[..64]), m[64..], x);
    }
  }

  lemma {:induction false} RestLength(m: seq<Byte>)
    ensures |Rest(m)| == |m| % 64
    decreases |m|
  {
    if |m| >= 64 {
      RestLength(m[64..]);
      Minus64(|m|);
    }
  }

  lemma Minus64(n: nat)
    requires n >= 64
    ensures (n - 64) % 64 == n % 64
  {
  }

  /** The padding is the shortest one allowed: between 1 and 64 bytes, to 56 modulo 64. */
  lemma PadLenIsLeast(n: nat, p: nat)
    ensures 1 <= PadLen(n) <= 64 && (n + PadLen(n)) % 64 == 56
    ensures 1 <= p < PadLen(n) ==> (n + p) % 64 != 56
  {
    var q, r := n / 64, n % 64;
    assert n + PadLen(n) == 64 * (if r < 56 then q else q + 1) + 56;
    if 1 <= p < PadLen(n) {
      assert n + p == if r + p < 64 then 64 * q + (r + p) else 64 * (q + 1) + (r + p - 64);
    }
  }

  /** The padded message is whole blocks, starts with the message and ends with its bit count. */
  lemma PaddedShape(m: seq<Byte>)
    ensures |Padded(m)| % 64 == 0 && m <= Padded(m)
    ensures DecodeWords(Padded(m)[|Padded(m)| - 8..]) == BitCount(|m|)
  {
    PadLenIsLeast(|m|, 0);
    Add8(|m| + PadLen(|m|));
    AppendShape(m, [0x80], Zeros(PadLen(|m|) - 1), EncodeWords(BitCount(|m|)));
    DecodeEncode(BitCount(|m|));
  }

  lemma Add8(n: nat)
    requires n % 64 == 56
    ensures (n + 8) % 64 == 0
  {
  }

  lemma AppendShape(a: seq<Byte>, b: seq<Byte>, c: seq<Byte>, d: seq<Byte>)
    ensures a <= a + b + c + d && (a + b + c + d)[|a + b + c + d| - |d|..] == d
  {
  }

  /** Different messages of less than 2^61 bytes have different padded forms. */
  lemma PaddedInjective(m: seq<Byte>, n: seq<Byte>)
    requires Padded(m) == Padded(n) && 8 * |m| < TWO64 && 8 * |n| < TWO64
    ensures m == n
  {
    PaddedShape(m);
    PaddedShape(n);
    BitCountValue(|m|);
    BitCountValue(|n|);
    assert m == Padded(m)[..|m|] && n == Padded(n)[..|n|];
  }

  lemma Split32(x: int, q: int, r: int)
    requires x == q * TWO32 + r && 0 <= r < TWO32
    ensures x / TWO32 == q && x % TWO32 == r
  {
  }

  lemma BitCountValue(n: nat)
    requires 8 * n < TWO64
    ensures BitCount(n)[1] * TWO32 + BitCount(n)[0] == 8 * n
  {
    assert 0 <= 8 * n / TWO32 < TWO32;
  }

  lemma WordBytes(w: Word)
    ensures w % 256 + 256 * (w / 256 % 256) + 65536 * (w / 65536 % 256) + 16777216 * (w / 16777216 % 256) == w
  {
    assert w / 65536 == w / 256 / 256 && w / 16777216 == w / 65536 / 256;
  }

  lemma {:induction false} DecodeEncode(ws: seq<Word>)
    ensures DecodeWords(EncodeWords(ws)) == ws
  {
    if ws != [] {
      var bs := EncodeWords(ws);
      WordBytes(ws[0]);
      assert bs[4..] == EncodeWords(ws[1..]);
      DecodeEncode(ws[1..]);
    }
  }

  // ----- The constants and layout of RFC 1321, independently of the functions above -----

  /** The initial state as section 3.3 lists it: the bytes of the words A to D, low-order byte first. */
  lemma InitialBytes()
    ensures EncodeWords(INIT) == [0x01, 0x23, 0x45, 0x67, 0x89, 0xab, 0xcd, 0xef,
                                  0xfe, 0xdc, 0xba, 0x98, 0x76, 0x54, 0x32, 0x10]
  {
    assert EncodeWords(INIT[3..]) == [0x76, 0x54, 0x32, 0x10];
    assert INIT[2..][1..] == INIT[3..] && INIT[1..][1..] == INIT[2..];
    assert EncodeWords(INIT[2..]) == [0xfe, 0xdc, 0xba, 0x98] + EncodeWords(INIT[3..]);
    assert EncodeWords(INIT[1..]) == [0x89, 0xab, 0xcd, 0xef] + EncodeWords(INIT[2..]);
    assert EncodeWords(INIT) == [0x01, 0x23, 0x45, 0x67] + EncodeWords(INIT[1..]);
  }

  /** The number that bytes stand for, low-order byte first. */
  function Little(bs: seq<Byte>): nat {
    if bs == [] then 0 else bs[0] + 256 * Little(bs[1..])
  }

  lemma LittleFour(a: Byte, b: Byte, c: Byte, d: Byte, rest: seq<Byte>)
    ensures Little([a, b, c, d] + rest) == Join(a, b, c, d) + TWO32 * Little(rest)
  {
    assert [a, b, c, d] + rest == [a] + ([b] + ([c] + ([d] + rest)));
    LittleCons(d, rest);
    LittleCons(c, [d] + rest);
    LittleCons(b, [c] + ([d] + rest));
    LittleCons(a, [b] + ([c] + ([d] + rest)));
  }

  lemma LittleCons(b: Byte, rest: seq<Byte>)
    ensures Little([b] + rest) == b + 256 * Little(rest)
  {
    assert ([b] + rest)[1..] == rest;
  }

  /** Words are written low-order byte first, and low-order word first. */
  lemma WordsAreLittle(low: Word, high: Word)
    ensures Little(EncodeWords([low])) == low
    ensures Little(EncodeWords([low, high])) == low + TWO32 * high
  {
    var one, other, both: seq<Word> := [low], [high], [low, high];
    LittleWords(one);
    LittleWords(other);
    LittleWords(both);
    assert both[1..] == other;
  }

  lemma LittleWords(ws: seq<Word>)
    requires ws != []
    ensures Little(EncodeWords(ws)) == ws[0] + TWO32 * Little(EncodeWords(ws[1..]))
  {
    LittleWord(ws[0], EncodeWords(ws[1..]));
  }

  lemma LittleWord(w: Word, rest: seq<Byte>)
    ensures Little([w % 256, w / 256 % 256, w / 65536 % 256, w / 16777216 % 256] + rest) == w + TWO32 * Little(rest)
  {
    WordBytes(w);
    LittleFour(w % 256, w / 256 % 256, w / 65536 % 256, w / 16777216 % 256, rest);
  }

  /** Behind the message: one byte 0x80, zeros, and in the last eight bytes its number of bits modulo 2^64. */
  lemma PaddingBytes(m: seq<Byte>)
    ensures |m| + 9 <= |Padded(m)|
    ensures Padded(m)[|m|] == 0x80
    ensures forall k :: |m| < k < |Padded(m)| - 8 ==> Padded(m)[k] == 0
    ensures Little(Padded(m)[|Padded(m)| - 8..]) == 8 * |m| % TWO64
  {
    var n, zeros, count := |m|, Zeros(PadLen(|m|) - 1), EncodeWords(BitCount(|m|));
    AppendShape(m, [0x80], zeros, count);
    WordsAreLittle(BitCount(n)[0], BitCount(n)[1]);
    BitsAre(8 * n);
    forall k | n < k < |Padded(m)| - 8
      ensures Padded(m)[k] == 0
    {
      assert Padded(m)[k] == (m + [0x80] + zeros)[k] == zeros[k - n - 1];
    }
  }

  lemma BitsAre(bits: nat)
    ensures bits % TWO32 + TWO32 * (bits / TWO32 % TWO32) == bits % TWO64
  {
    var q, r := bits / TWO32, bits % TWO32;
    var h, l := q / TWO32, q % TWO32;
    assert bits == h * TWO64 + (l * TWO32 + r);
    Mod64(bits, h, l * TWO32 + r);
  }

  lemma Mod64(x: nat, q: nat, r: nat)
    requires x == q * TWO64 + r && r < TWO64
    ensures x % TWO64 == r
  {
  }

  /** The state after blocks of 64 bytes: the transform of the last one and of the state before it. */
  function Chain(f: Transform, s: State, blocks: seq<seq<Byte>>): State {
    if blocks == [] then s else f(Chain(f, s, blocks[..|blocks| - 1]), blocks[|blocks| - 1])
  }

  lemma {:induction false} FoldIsChain(f: Transform, s: State, blocks: seq<seq<Byte>>)
    requires forall b :: b in blocks ==> |b| == 64
    ensures Fold(f, s, Concat(blocks)) == Chain(f, s, blocks)
    ensures |Concat(blocks)| % 64 == 0
  {
    if blocks != [] {
      var before, last := blocks[..|blocks| - 1], blocks[|blocks| - 1];
      FoldIsChain(f, s, before);
      Resume(f, s, Concat(before), last);
      RestLength(Concat(before));
      assert Rest(Concat(before)) + last == last && last[..64] == last && last[64..] == [];
      Minus64(|Concat(blocks)|);
    }
  }

  lemma ByteWord(a: Byte, b: Byte, c: Byte, d: Byte)
    ensures var w := Join(a, b, c, d);
      w % 256 == a && w / 256 % 256 == b && w / 65536 % 256 == c && w / 16777216 % 256 == d
  {
    LowByte(a, b + 256 * c + 65536 * d);
    LowByte(b, c + 256 * d);
    LowByte(c, d);
    Quarters(Join(a, b, c, d));
  }

  lemma LowByte(a: Byte, high: nat)
    ensures (a + 256 * high) % 256 == a && (a + 256 * high) / 256 == high
  {
  }

  lemma Quarters(w: nat)
    ensures w / 65536 == w / 256 / 256 && w / 16777216 == w / 256 / 256 / 256
  {
  }

  lemma {:induction false} EncodeDecode(bs: seq<Byte>)
    requires |bs| % 4 == 0
    ensures EncodeWords(DecodeWords(bs)) == bs
    decreases |bs|
  {
    if bs != [] {
      ByteWord(bs[0], bs[1], bs[2], bs[3]);
      EncodeDecode(bs[4..]);
      var ws := DecodeWords(bs);
      assert ws[0] == Join(bs[0], bs[1], bs[2], bs[3]) && ws[1..] == DecodeWords(bs[4..]);
      assert bs == [bs[0], bs[1], bs[2], bs[3]] + bs[4..];
    }
  }

  // ----- Counting bits in two words -----

  /** The block position read off the low count word. */
  lemma IndexOfCount(n: nat)
    ensures 8 * n % TWO32 / 8 % 64 == n % 64
  {
    var k, r := n / TWO29, n % TWO29;
    Split32(8 * n, k, 8 * r);
    Split64(n, k * 0x80_0000 + r / 64, r % 64);
  }

  lemma Split64(x: int, q: int, r: int)
    requires x == q * 64 + r && 0 <= r < 64
    ensures x / 64 == q && x % 64 == r
  {
  }

  /** The two-word addition with carry of MD5_Update. */
  function Count0(c0: Word, n: Word): Word { (c0 + 8 * n % TWO32) % TWO32 }

  function Count1(c0: Word, c1: Word, n: Word): Word {
    var carried := if Count0(c0, n) < 8 * n % TWO32 then (c1 + 1) % TWO32 else c1;
    (carried + n / TWO29) % TWO32
  }

  /** The low words: an overflow shows as a sum below either summand. */
  lemma LowSum(c0: Word, l: Word)
    ensures (c0 + l) % TWO32 == if c0 + l >= TWO32 then c0 + l - TWO32 else c0 + l
    ensures (c0 + l) % TWO32 < l <==> c0 + l >= TWO32
  {
    if c0 + l >= TWO32 { Split32(c0 + l, 1, c0 + l - TWO32); } else { Split32(c0 + l, 0, c0 + l); }
  }

  lemma ModAbsorbs(a: nat, b: nat)
    ensures (a % TWO32 + b) % TWO32 == (a + b) % TWO32
  {
    var q, r := (a % TWO32 + b) / TWO32, (a % TWO32 + b) % TWO32;
    Split32(a + b, q + a / TWO32, r);
  }

  lemma CountAdds(m: nat, n: Word)
    ensures Count0(BitCount(m)[0], n) == BitCount(m + n)[0]
    ensures Count1(BitCount(m)[0], BitCount(m)[1], n) == BitCount(m + n)[1]
  {
    var q, c0 := 8 * m / TWO32, 8 * m % TWO32;
    var h, l := n / TWO29, 8 * (n % TWO29);
    Split32(8 * n, h, l);
    LowSum(c0, l);
    var carry := if c0 + l >= TWO32 then 1 else 0;
    Split32(8 * (m + n), q + h + carry, c0 + l - carry * TWO32);
    ModAbsorbs(q, 1);
    ModAbsorbs(q, h);
    ModAbsorbs(q + 1, h);
  }

  // ----- The streaming code -----

  /** How many bytes of an update of n bytes are left for the buffer, when index bytes were in it. */
  function TailLen(index: nat, n: nat): (t: nat)
    requires index < 64
    ensures t <= n
    ensures n < 64 - index ==> t == n
  {
    if n < 64 - index then n else (n - (64 - index)) % 64
  }

  /** The 32-bit loop counter of MD5_Update plus 63 does not wrap at the last test of the loop. */
  predicate NoWrap(index: nat, n: Word)
    requires index < 64
  {
    n >= 64 - index ==> n - TailLen(index, n) + 63 < TWO32
  }

  lemma EmptyMessage(f: Transform)
    ensures Fold(f, INIT, []) == INIT && Rest([]) == [] && BitCount(0) == [0, 0]
  {
  }

  class Context {
    const transform: Transform
    var state: State
    var count0: Word
    var count1: Word
    const buffer: array<Byte>

    /** The context stands for the message m: its full blocks are folded into the state, its tail is in the
        buffer and its bit count in the two words. */
    ghost predicate Absorbed(m: seq<Byte>)
      reads this, buffer
    {
      && buffer.Length == 64
      && state == Fold(transform, INIT, m)
      && buffer[..|Rest(m)|] == Rest(m)
      && count0 == BitCount(|m|)[0]
      && count1 == BitCount(|m|)[1]
    }

    constructor (transform: Transform)
      ensures Absorbed([]) && fresh(buffer)
      ensures this.transform == transform
    {
      this.transform := transform;
      buffer := new Byte[64];
      count0, count1 := 0, 0;
      state := INIT;
      new;
      EmptyMessage(transform);
    }

    /** MD5_memcpy into the buffer. */
    method Copy(index: nat, input: seq<Byte>)
      requires index + |input| <= buffer.Length
      modifies buffer
      ensures buffer[..] == old(buffer[..index]) + input + old(buffer[index + |input|..])
    {
      for k := 0 to |input|
        invariant buffer[..] == old(buffer[..index]) + input[..k] + old(buffer[index + k..])
      {
        buffer[index + k] := input[k];
      }
    }

    /** The part of MD5_Update that transforms: the first block is completed in the buffer, which holds the
        rest r, and the others are taken straight from the input. Returns how much input that used. */
    method TransformAll(input: seq<Byte>, index: nat, ghost r: seq<Byte>) returns (i: Word)
      requires |input| < TWO32 && index == |r| < 64 && NoWrap(index, |input|)
      requires buffer.Length == 64 && buffer[..index] == r
      modifies this`state, buffer
      ensures i <= |input| && state == Fold(transform, old(state), r + input)
      ensures i == 0 ==> buffer[..index] == r && Rest(r + input) == r + input
      ensures i > 0 ==> Rest(r + input) == input[i..]
    {
      var inputLen: Word := |input|;
      var partLen := 64 - index;
      if inputLen >= partLen {
        Copy(index, input[..partLen]);
        assert buffer[..] == (r + input)[..64] && (r + input)[64..] == input[partLen..];
        state := transform(state, buffer[..]);
        i := partLen;
        while (i + 63) % TWO32 < inputLen
          invariant partLen <= i <= inputLen && (i - partLen) % 64 == 0
          invariant Fold(transform, state, input[i..]) == Fold(transform, old(state), r + input)
          invariant Rest(input[i..]) == Rest(r + input)
          decreases inputLen - i
        {
          GuardIsExact(index, inputLen, i);
          assert input[i..][..64] == input[i..i + 64] && input[i..][64..] == input[i + 64..];
          state := transform(state, input[i..i + 64]);
          i := i + 64;
        }
        GuardIsExact(index, inputLen, i);
      } else {
        i := 0;
      }
    }

    /** MD5_Update: whatever has been absorbed, followed by the input. */
    method Update(input: seq<Byte>, ghost m: seq<Byte>)
      requires Absorbed(m) && |input| < TWO32 && NoWrap(|Rest(m)|, |input|)
      modifies this, buffer
      ensures Absorbed(m + input)
    {
      var index := count0 / 8 % 64;
      IndexOfCount(|m|);
      RestLength(m);
      CountUp(|input|, |m|);
      Resume(transform, INIT, m, input);
      var i := TransformAll(input, index, Rest(m));
      if i > 0 {
        index := 0;
      }
      Copy(index, input[i..]);
      assert buffer[..|Rest(m + input)|] == Rest(m + input);
    }

    /** The two-word bit count. */
    method CountUp(inputLen: Word, ghost n: nat)
      requires count0 == BitCount(n)[0] && count1 == BitCount(n)[1]
      modifies this`count0, this`count1
      ensures count0 == BitCount(n + inputLen)[0] && count1 == BitCount(n + inputLen)[1]
    {
      CountAdds(n, inputLen);
      count0 := (count0 + 8 * inputLen % TWO32) % TWO32;
      if count0 < 8 * inputLen % TWO32 {
        count1 := (count1 + 1) % TWO32;
      }
      count1 := (count1 + inputLen / TWO29) % TWO32;
    }

    /** MD5_Final: pads, appends the bit count, and returns the digest of everything absorbed. */
    method Final(ghost m: seq<Byte>) returns (digest: seq<Byte>)
      requires Absorbed(m)
      modifies this, buffer
      ensures digest == Digest(transform, m)
      ensures state == [0, 0, 0, 0] && count0 == 0 && count1 == 0 && forall k :: 0 <= k < 64 ==> buffer[k] == 0
    {
      var bits := Encode([count0, count1]);
      var index := count0 / 8 % 64;
      IndexOfCount(|m|);
      var padLen := if index < 56 then 56 - index else 120 - index;
      assert padLen == PadLen(|m|);
      PadLenIsLeast(|m|, 0);
      var padding := PADDING[..padLen];
      SmallUpdate(|Rest(m)|, padLen);
      Update(padding, m);
      SmallUpdate(|Rest(m + padding)|, 8);
      Update(bits, m + padding);
      PaddingThenBits(m, padding, bits);
      digest := Encode(state);
      Zeroize();
    }

    method Zeroize()
      requires buffer.Length == 64
      modifies this, buffer
      ensures state == [0, 0, 0, 0] && count0 == 0 && count1 == 0 && forall k :: 0 <= k < 64 ==> buffer[k] == 0
    {
      state := [0, 0, 0, 0];
      count0, count1 := 0, 0;
      for k := 0 to buffer.Length
        modifies buffer
        invariant forall j :: 0 <= j < k ==> buffer[j] == 0
      {
        buffer[k] := 0;
      }
    }
  }

  /** The source's PADDING array. */
  const PADDING: seq<Byte> := [0x80] + Zeros(63)

  lemma PaddingThenBits(m: seq<Byte>, padding: seq<Byte>, bits: seq<Byte>)
    requires 1 <= PadLen(|m|) <= 64 && padding == PADDING[..PadLen(|m|)] && bits == EncodeWords(BitCount(|m|))
    ensures m + padding + bits == Padded(m)
  {
    assert padding == [0x80] + Zeros(PadLen(|m|) - 1);
  }

  /** The Encode loop. */
  method Encode(input: seq<Word>) returns (output: seq<Byte>)
    ensures output == EncodeWords(input)
  {
    output := [];
    for i := 0 to |input|
      invariant output + EncodeWords(input[i..]) == EncodeWords(input)
    {
      var w := input[i];
      var bytes: seq<Byte> := [w % 256, w / 256 % 256, w / 65536 % 256, w / 16777216 % 256];
      assert EncodeWords(input[i..]) == bytes + EncodeWords(input[i + 1..]);
      output := output + bytes;
    }
  }

  /** The Decode loop, with which the transform reads its block. */
  method Decode(input: seq<Byte>) returns (output: seq<Word>)
    requires |input| % 4 == 0
    ensures output == DecodeWords(input)
  {
    output := [];
    var j := 0;
    while j < |input|
      invariant 0 <= j <= |input| && (|input| - j) % 4 == 0
      invariant output + DecodeWords(input[j..]) == DecodeWords(input)
    {
      DecodeStep(input, j);
      output := output + [Join(input[j], input[j + 1], input[j + 2], input[j + 3])];
      j := j + 4;
    }
  }

  lemma DecodeStep(input: seq<Byte>, j: nat)
    requires j + 4 <= |input| && (|input| - j) % 4 == 0
    ensures DecodeWords(input[j..]) ==
      [Join(input[j], input[j + 1], input[j + 2], input[j + 3])] + DecodeWords(input[j + 4..])
  {
    assert input[j..][4..] == input[j + 4..];
  }

  /** The loop goes on exactly while a whole block is left, unless the counter wraps. */
  lemma GuardIsExact(index: nat, n: Word, i: Word)
    requires index < 64 && n >= 64 - index && NoWrap(index, n)
    requires 64 - index <= i <= n && (i - (64 - index)) % 64 == 0
    ensures (i + 63) % TWO32 < n <==> i + 64 <= n
    ensures i + 64 > n ==> i + TailLen(index, n) == n
  {
    var q, t := (n - (64 - index)) / 64, TailLen(index, n);
    var k := (i - (64 - index)) / 64;
    assert i == 64 - index + 64 * k && n == 64 - index + 64 * q + t;
    if i + 64 > n {
      assert k == q;
    }
  }

  /** Updates of up to 2^32 - 64 bytes never wrap the counter. */
  lemma ShortEnough(index: nat, n: Word)
    requires index < 64 && n <= TWO32 - 64
    ensures NoWrap(index, n)
  {
  }

  lemma SmallUpdate(index: nat, n: Word)
    requires index < 64 && n <= 64
    ensures NoWrap(index, n)
  {
  }

  /** When the counter would wrap, the loop test passes although less than a block of input is left: the
      condition on the length of one update is exact. */
  lemma WrapReadsPast(index: nat, n: Word)
    requires index < 64 && !NoWrap(index, n)
    ensures var i := n - TailLen(index, n); (i + 63) % TWO32 < n && i + 64 > n
  {
    var i := n - TailLen(index, n);
    assert i + 63 - TWO32 < 64 - index;
    Split32(i + 63, 1, i + 63 - TWO32);
  }

  /** An update of 2^32 - 1 bytes with one byte in the buffer is such a case. */
  lemma WrapHappens()
    ensures !NoWrap(1, TWO32 - 1)
    ensures (TWO32 - 1 + 63) % TWO32 < TWO32 - 1 && TailLen(1, TWO32 - 1) == 0
  {
  }

  // ----- Any sequence of updates -----

  function Concat(chunks: seq<seq<Byte>>): seq<Byte> {
    if chunks == [] then [] else Concat(chunks[..|chunks| - 1]) + chunks[|chunks| - 1]
  }

  lemma ConcatStep(chunks: seq<seq<Byte>>, k: nat)
    requires k < |chunks|
    ensures Concat(chunks[..k + 1]) == Concat(chunks[..k]) + chunks[k]
  {
    assert chunks[..k + 1][..k] == chunks[..k];
  }

  /** However a message is cut into updates, the digest is the digest of the message. */
  method HashChunks(transform: Transform, chunks: seq<seq<Byte>>) returns (digest: seq<Byte>)
    requires forall c :: c in chunks ==> |c| <= TWO32 - 64
    ensures digest == Digest(transform, Concat(chunks))
  {
    var context := new Context(transform);
    ghost var m := [];
    for k := 0 to |chunks|
      modifies context, context.buffer
      invariant m == Concat(chunks[..k])
      invariant context.Absorbed(m)
    {
      assert chunks[k] in chunks;
      ShortEnough(|Rest(m)|, |chunks[k]|);
      context.Update(chunks[k], m);
      ConcatStep(chunks, k);
      m := m + chunks[k];
    }
    assert chunks[..|chunks|] == chunks;
    digest := context.Final(m);
  }
}
