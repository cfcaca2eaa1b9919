/**
 The MD5 of the consistent-hash ring: the unrolled block function against the 64-step loop, the
 padding against section 3.1 of RFC 1321, and the digest bytes against the words they come from.
 */
module Md5 {
  import opened Bytes
  import ConsistentHash

  type Word = x: int | 0 <= x < TWO_32

  // table T, a row for each round
  const T1: seq<Word> := [
    0xD76AA478, 0xE8C7B756, 0x242070DB, 0xC1BDCEEE, 0xF57C0FAF, 0x4787C62A, 0xA8304613, 0xFD469501,
    0x698098D8, 0x8B44F7AF, 0xFFFF5BB1, 0x895CD7BE, 0x6B901122, 0xFD987193, 0xA679438E, 0x49B40821]

  const T2: seq<Word> := [
    0xF61E2562, 0xC040B340, 0x265E5A51, 0xE9B6C7AA, 0xD62F105D, 0x02441453, 0xD8A1E681, 0xE7D3FBC8,
    0x21E1CDE6, 0xC33707D6, 0xF4D50D87, 0x455A14ED, 0xA9E3E905, 0xFCEFA3F8, 0x676F02D9, 0x8D2A4C8A]

  const T3: seq<Word> := [
    0xFFFA3942, 0x8771F681, 0x6D9D6122, 0xFDE5380C, 0xA4BEEA44, 0x4BDECFA9, 0xF6BB4B60, 0xBEBFBC70,
    0x289B7EC6, 0xEAA127FA, 0xD4EF3085, 0x04881D05, 0xD9D4D039, 0xE6DB99E5, 0x1FA27CF8, 0xC4AC5665]

  const T4: seq<Word> := [
    0xF4292244, 0x432AFF97, 0xAB9423A7, 0xFC93A039, 0x655B59C3, 0x8F0CCC92, 0xFFEFF47D, 0x85845DD1,
    0x6FA87E4F, 0xFE2CE6E0, 0xA3014314, 0x4E0811A1, 0xF7537E82, 0xBD3AF235, 0x2AD7D2BB, 0xEB86D391]

  const T := T1 + T2 + T3 + T4

  /** Table S: each round uses its four shifts in turn. */
  function S(i: nat): (s: nat)
    requires i < 64
    ensures 0 < s < 32
  {
    var k := i % 4;
    if i < 16 then (if k == 0 then 7 else if k == 1 then 12 else if k == 2 then 17 else 22)
    else if i < 32 then (if k == 0 then 5 else if k == 1 then 9 else if k == 2 then 14 else 20)
    else if i < 48 then (if k == 0 then 4 else if k == 1 then 11 else if k == 2 then 16 else 23)
    else (if k == 0 then 6 else if k == 1 then 10 else if k == 2 then 15 else 21)
  }

  /** Table X: which word of the block each step uses, by the stride of its round. */
  function X(i: nat): (k: nat)
    requires i < 64
    ensures k < 16
  {
    if i < 16 then i
    else if i < 32 then (5 * i + 1) % 16
    else if i < 48 then (3 * i + 5) % 16
    else 7 * i % 16
  }

  lemma TableSize()
    ensures |T| == 64
  {
  }

  // ---- one step ---------------------------------------------------------------------------------

  function Add(x: Word, y: Word): Word {
    (x + y) % TWO_32
  }

  function Bits(x: Word): bv32 {
    x as bv32
  }

  function Value(b: bv32): Word {
    b as int
  }

  function F(x: Word, y: Word, z: Word): Word {
    Value((Bits(x) & Bits(y)) | (!Bits(x) & Bits(z)))
  }

  function G(x: Word, y: Word, z: Word): Word {
    Value((Bits(x) & Bits(z)) | (Bits(y) & !Bits(z)))
  }

  function H(x: Word, y: Word, z: Word): Word {
    Value(Bits(x) ^ Bits(y) ^ Bits(z))
  }

  function I(x: Word, y: Word, z: Word): Word {
    Value(Bits(y) ^ (Bits(x) | !Bits(z)))
  }

  /** Whether a word has the bit that `mask` has. */
  predicate Has(x: bv32, mask: bv32) {
    x & mask != 0
  }

  predicate OneBit(mask: bv32) {
    mask != 0 && mask & (mask - 1) == 0
  }

  lemma ChoiceBits(x: bv32, y: bv32, z: bv32, m: bv32)
    requires OneBit(m)
    ensures Has((x & y) | (!x & z), m) <==> if Has(x, m) then Has(y, m) else Has(z, m)
  {
  }

  lemma ParityBits(x: bv32, y: bv32, z: bv32, m: bv32)
    requires OneBit(m)
    ensures Has(x ^ y ^ z, m) <==> (Has(x, m) != Has(y, m)) != Has(z, m)
  {
  }

  lemma OddBits(x: bv32, y: bv32, z: bv32, m: bv32)
    requires OneBit(m)
    ensures Has(y ^ (x | !z), m) <==> Has(y, m) != (Has(x, m) || !Has(z, m))
  {
  }

  lemma BitsOfValue(b: bv32)
    ensures Bits(Value(b)) == b
  {
  }

  lemma OtherChoiceBits(x: bv32, y: bv32, z: bv32, m: bv32)
    requires OneBit(m)
    ensures Has((x & z) | (y & !z), m) <==> if Has(z, m) then Has(x, m) else Has(y, m)
  {
  }

  /** A choice by the first word. */
  lemma FBitByBit(x: Word, y: Word, z: Word, m: bv32)
    requires OneBit(m)
    ensures Has(Bits(F(x, y, z)), m) <==> if Has(Bits(x), m) then Has(Bits(y), m) else Has(Bits(z), m)
  {
    hide Bits, Value, Has, OneBit;
    var a, b, c := Bits(x), Bits(y), Bits(z);
    BitsOfValue((a & b) | (!a & c));
    ChoiceBits(a, b, c, m);
  }

  /** A choice by the third. */
  lemma GBitByBit(x: Word, y: Word, z: Word, m: bv32)
    requires OneBit(m)
    ensures Has(Bits(G(x, y, z)), m) <==> if Has(Bits(z), m) then Has(Bits(x), m) else Has(Bits(y), m)
  {
    hide Bits, Value, Has, OneBit;
    var a, b, c := Bits(x), Bits(y), Bits(z);
    BitsOfValue((a & c) | (b & !c));
    OtherChoiceBits(a, b, c, m);
  }

  /** Parity. */
  lemma HBitByBit(x: Word, y: Word, z: Word, m: bv32)
    requires OneBit(m)
    ensures Has(Bits(H(x, y, z)), m) <==> (Has(Bits(x), m) != Has(Bits(y), m)) != Has(Bits(z), m)
  {
    hide Bits, Value, Has, OneBit;
    var a, b, c := Bits(x), Bits(y), Bits(z);
    assert H(x, y, z) == Value(a ^ b ^ c);
    BitsOfValue(a ^ b ^ c);
    ParityBits(a, b, c, m);
  }

  /** The second, turned by the first or the third's complement. */
  lemma IBitByBit(x: Word, y: Word, z: Word, m: bv32)
    requires OneBit(m)
    ensures Has(Bits(I(x, y, z)), m) <==> Has(Bits(y), m) != (Has(Bits(x), m) || !Has(Bits(z), m))
  {
    hide Bits, Value, Has, OneBit;
    var a, b, c := Bits(x), Bits(y), Bits(z);
    BitsOfValue(b ^ (a | !c));
    OddBits(a, b, c, m);
  }

  function Rotate(x: Word, s: nat): Word
    requires 0 < s < 32
  {
    Value((Bits(x) << s) | (Bits(x) >> (32 - s)))
  }

  /** The auxiliary function of step `i`'s round. */
  function Aux(i: nat, x: Word, y: Word, z: Word): Word {
    if i < 16 then F(x, y, z) else if i < 32 then G(x, y, z) else if i < 48 then H(x, y, z) else I(x, y, z)
  }

  /** The new value of the first register: `FF`, `GG`, `HH` or `II` by the round of `i`. */
  function Mix(a: Word, b: Word, c: Word, d: Word, x: Word, i: nat): Word
    requires i < 64
  {
    TableSize();
    Add(b, Rotate(Add(Add(Add(Aux(i, b, c, d), a), x), T[i]), S(i)))
  }

  // ---- the block function ---------------------------------------------------------------------------

  datatype Regs = Regs(a: Word, b: Word, c: Word, d: Word)

  /** One step of the plain loop: mix the first register, then rotate the four. */
  function PlainStep(r: Regs, x: seq<Word>, i: nat): Regs
    requires i < 64 && |x| == 16
  {
    Regs(r.d, Mix(r.a, r.b, r.c, r.d, x[X(i)], i), r.b, r.c)
  }

  /** The first `n` steps of the plain loop. */
  function Plain(r: Regs, x: seq<Word>, n: nat): Regs
    requires n <= 64 && |x| == 16
  {
    if n == 0 then r else PlainStep(Plain(r, x, n - 1), x, n - 1)
  }

  /** The new chaining value after a block. */
  function Block(state: Regs, x: seq<Word>): Regs
    requires |x| == 16
  {
    var r := Plain(state, x, 64);
    Regs(Add(state.a, r.a), Add(state.b, r.b), Add(state.c, r.c), Add(state.d, r.d))
  }

  /** Four plain steps, written with the registers in place and the arguments rotated instead. */
  lemma FourSteps(r: Regs, x: seq<Word>, i: nat)
    requires |x| == 16 && i + 4 <= 64
    ensures var a := Mix(r.a, r.b, r.c, r.d, x[X(i)], i);
            var d := Mix(r.d, a, r.b, r.c, x[X(i + 1)], i + 1);
            var c := Mix(r.c, d, a, r.b, x[X(i + 2)], i + 2);
            var b := Mix(r.b, c, d, a, x[X(i + 3)], i + 3);
            PlainStep(PlainStep(PlainStep(PlainStep(r, x, i), x, i + 1), x, i + 2), x, i + 3) == Regs(a, b, c, d)
  {
    hide Mix, X;
  }

  /** The words of a 64-byte block, least significant byte first. */
  function Words(bytes: seq<byte>): (x: seq<Word>)
    requires |bytes| == 64
    ensures |x| == 16
  {
    seq(16, k requires 0 <= k < 16 => WordAt(bytes, 4 * k))
  }

  function WordAt(bytes: seq<byte>, at: nat): Word
    requires at + 4 <= |bytes|
  {
    var b0: int, b1: int, b2: int, b3: int := bytes[at], bytes[at + 1], bytes[at + 2], bytes[at + 3];
    b0 + 256 * b1 + 0x1_0000 * b2 + 0x100_0000 * b3
  }

  // ---- padding ----------------------------------------------------------------------------------------

  const LIMIT := 0x1000_0000  // bytes: eight times as many still fit an int

  /** The bit length in eight bytes, least significant first. */
  function LengthBytes(bits: nat): (l: seq<byte>)
    ensures |l| == 8
  {
    [bits % 256, bits / 0x100 % 256, bits / 0x1_0000 % 256, bits / 0x100_0000 % 256,
     bits / 0x1_0000_0000 % 256, bits / 0x100_0000_0000 % 256,
     bits / 0x1_0000_0000_0000 % 256, bits / 0x100_0000_0000_0000 % 256]
  }

  /** The fill between a message of `n` bytes and its length: none at all when n mod 64 is 56. */
  function Fill(n: nat): (f: seq<byte>)
    ensures (n + |f|) % 64 == 56
  {
    if n % 64 == 56 then [] else [0x80] + Zeros((119 - n % 64) % 64)
  }

  function Padded(m: seq<byte>): seq<byte> {
    m + Fill(|m|) + LengthBytes(8 * |m|)
  }

  /** The padding of section 3.1 of RFC 1321: always at least the one bit. */
  function RfcPadded(m: seq<byte>): seq<byte> {
    m + ([0x80] + Zeros((119 - |m| % 64) % 64)) + LengthBytes(8 * |m|)
  }

  lemma PaddedIsWhole(m: seq<byte>)
    ensures |Padded(m)| % 64 == 0
  {
    hide LengthBytes, Fill;
  }

  /** In bits and in bytes: when the zero fill is complete. */
  lemma FillCount(n: nat, zeros: nat)
    requires zeros <= (119 - n % 64) % 64
    ensures 8 * (n + 1 + zeros) % 512 == 448 <==> zeros == (119 - n % 64) % 64
    ensures 8 * n % 512 == 448 <==> n % 64 == 56
  {
    BitsOfBytes(n);
    BitsOfBytes(n + 1 + zeros);
    var q, r := n / 64, n % 64;
    assert (n + 1 + zeros) % 64 == (r + 1 + zeros) % 64 by {
      assert n + 1 + zeros == 64 * q + (r + 1 + zeros);
    }
  }

  lemma BitsOfBytes(n: nat)
    ensures 8 * n % 512 == 8 * (n % 64)
  {
    assert 8 * n == 512 * (n / 64) + 8 * (n % 64);
  }

  /** The code pads as the RFC does exactly for the other lengths. */
  lemma PaddingDeviates(m: seq<byte>)
    ensures Padded(m) == RfcPadded(m) <==> |m| % 64 != 56
  {
    if |m| % 64 == 56 {
      assert |Padded(m)| < |RfcPadded(m)|;
    }
  }

  lemma LengthBytesTell(x: nat)
    requires x < 0x1_0000_0000
    ensures WordAt(LengthBytes(x), 0) == x
  {
    var b1, b2, b3 := x / 0x100, x / 0x1_0000, x / 0x100_0000;
    assert b1 / 256 == b2 && b2 / 256 == b3 && b3 < 256;
    assert LengthBytes(x)[..4] == [x % 256, b1 % 256, b2 % 256, b3 % 256];
    assert LengthBytes(x)[..4][3] == LengthBytes(x)[3];
  }

  /** No two messages are padded to the same bytes, in spite of the missing one bit. */
  lemma PaddingIsInjective(m: seq<byte>, k: seq<byte>)
    requires |m| < LIMIT && |k| < LIMIT && Padded(m) == Padded(k)
    ensures m == k
  {
    hide LengthBytes, Fill;
    var p := Padded(m);
    assert p[|p| - 8..] == LengthBytes(8 * |m|);
    assert p[|p| - 8..] == LengthBytes(8 * |k|) by { assert Padded(k)[|Padded(k)| - 8..] == LengthBytes(8 * |k|); }
    LengthBytesTell(8 * |m|);
    LengthBytesTell(8 * |k|);
    assert p[..|m|] == m;
    assert Padded(k)[..|k|] == k;
  }

  // ---- the whole digest -------------------------------------------------------------------------------

  const INITIAL := Regs(0x67452301, 0xEFCDAB89, 0x98BADCFE, 0x10325476)

  /** The chaining value after all the blocks. */
  function Chain(state: Regs, data: seq<byte>): Regs
    requires |data| % 64 == 0
    decreases |data|
  {
    if data == [] then state else Chain(Block(state, Words(FirstBlock(data))), OtherBlocks(data))
  }

  function FirstBlock(data: seq<byte>): (b: seq<byte>)
    requires |data| % 64 == 0 && data != []
    ensures |b| == 64
  {
    data[..64]
  }

  function OtherBlocks(data: seq<byte>): (b: seq<byte>)
    requires |data| % 64 == 0 && data != []
    ensures |b| % 64 == 0 && |b| < |data|
  {
    data[64..]
  }

  /** The bytes of a word up to its last non-zero one, least significant first. */
  function Trimmed(n: nat): seq<byte> {
    if n == 0 then [] else [n % 256] + Trimmed(n / 256)
  }

  function DigestOf(r: Regs): seq<byte> {
    Trimmed(r.a) + Trimmed(r.b) + Trimmed(r.c) + Trimmed(r.d)
  }

  function WordOf(r: Regs, h: nat): Word
    requires h < 4
  {
    if h == 0 then r.a else if h == 1 then r.b else if h == 2 then r.c else r.d
  }

  lemma TrimmedLength(n: Word)
    ensures |Trimmed(n)| <= 4
    ensures |Trimmed(n)| == 4 <==> n >= 0x100_0000
    ensures |Trimmed(n)| == 4 ==> WordAt(Trimmed(n), 0) == n
  {
    var n1, n2, n3, n4 := n / 256, n / 0x1_0000, n / 0x100_0000, n / 0x1_0000_0000;
    assert n1 / 256 == n2 && n2 / 256 == n3 && n3 / 256 == n4 == 0;
    assert Trimmed(n3) == if n3 == 0 then [] else [n3 % 256];
    assert Trimmed(n2) == if n2 == 0 then [] else [n2 % 256] + Trimmed(n3);
    assert Trimmed(n1) == if n1 == 0 then [] else [n1 % 256] + Trimmed(n2);
    assert Trimmed(n) == if n == 0 then [] else [n % 256] + Trimmed(n1);
  }

  /** A digest has the sixteen bytes that the ring reads exactly when every word is at least 2^24. */
  lemma DigestIsFull(r: Regs)
    ensures |DigestOf(r)| == 16 <==>
              r.a >= 0x100_0000 && r.b >= 0x100_0000 && r.c >= 0x100_0000 && r.d >= 0x100_0000
    ensures |DigestOf(r)| <= 16
  {
    hide Trimmed;
    TrimmedLength(r.a);
    TrimmedLength(r.b);
    TrimmedLength(r.c);
    TrimmedLength(r.d);
  }

  /** The ring's hash of a full digest gives the state words back. */
  lemma RingReadsWords(r: Regs, h: nat)
    requires h < 4 && |DigestOf(r)| == 16
    ensures ConsistentHash.Point(DigestOf(r), h) == WordOf(r, h)
  {
    hide Trimmed;
    DigestIsFull(r);
    TrimmedLength(r.a);
    TrimmedLength(r.b);
    TrimmedLength(r.c);
    TrimmedLength(r.d);
    var w := WordOf(r, h);
    assert DigestOf(r)[4 * h..4 * h + 4] == Trimmed(w);
    var d := DigestOf(r)[4 * h..4 * h + 4];
    assert d[0] == DigestOf(r)[4 * h] && d[1] == DigestOf(r)[1 + 4 * h];
    assert d[2] == DigestOf(r)[2 + 4 * h] && d[3] == DigestOf(r)[3 + 4 * h];
  }

  // ---- the class --------------------------------------------------------------------------------------

  class MD5 {
    var data: seq<byte>
    var state: Regs

    constructor ()
      ensures data == [] && state == INITIAL
    {
      data, state := [], INITIAL;
    }

    method ResetVector()
      modifies this
      ensures data == [] && state == INITIAL
    {
      data, state := [], INITIAL;
    }

    /** Four rounds of sixteen unrolled steps, then add to the state. */
    method CalculateBlock(input: seq<byte>)
      requires |input| == 64
      modifies this`state
      ensures state == Block(old(state), Words(input))
    {
      hide Mix, X, Words, Plain;
      var a, b, c, d := state.a, state.b, state.c, state.d;
      var x := Words(input);
      var i := 0;
      PlainStart(state, x);
      while i < 64
        invariant 0 <= i <= 64 && i % 4 == 0 && state == old(state)
        invariant Regs(a, b, c, d) == Plain(state, x, i)
      {
        FourSteps(Regs(a, b, c, d), x, i);
        PlainFourMore(state, x, i);
        a := Mix(a, b, c, d, x[X(i)], i);
        d := Mix(d, a, b, c, x[X(i + 1)], i + 1);
        c := Mix(c, d, a, b, x[X(i + 2)], i + 2);
        b := Mix(b, c, d, a, x[X(i + 3)], i + 3);
        i := i + 4;
      }
      state := Regs(Add(state.a, a), Add(state.b, b), Add(state.c, c), Add(state.d, d));
    }

    method String2BitStream(src: seq<byte>)
      modifies this`data
      ensures data == old(data) + src
    {
      for i := 0 to |src|
        invariant data == old(data) + src[..i]
      {
        data := data + [src[i]];
      }
      assert src[..|src|] == src;
    }

    method Padding()
      requires |data| < LIMIT
      modifies this`data
      ensures data == Padded(old(data))
    {
      hide LengthBytes;
      ghost var m := data;
      var fileBitSize := 8 * |data|;
      var newSize := fileBitSize;
      FillCount(|m|, 0);
      if newSize % 512 != 448 {
        data := data + [0x80];
        newSize := newSize + 8;
        ghost var zeros, wanted := 0, (119 - |m| % 64) % 64;
        while newSize % 512 != 448
          invariant newSize == 8 * |data| && zeros <= wanted
          invariant data == m + [0x80] + Zeros(zeros)
          decreases wanted - zeros
        {
          FillCount(|m|, zeros);
          data := data + [0];
          newSize := newSize + 8;
          zeros := zeros + 1;
        }
        FillCount(|m|, zeros);
        assert data == m + ([0x80] + Zeros(wanted));
      }
      assert data == m + Fill(|m|);
      var temp := LengthBytes(fileBitSize);
      for i := 0 to 8
        invariant data == m + Fill(|m|) + temp[..i]
      {
        data := data + [temp[i]];
      }
      assert temp[..8] == temp;
    }

    /** Block after block; the size is a multiple of 64, so the loop stops exactly at the end. */
    method Compute()
      requires |data| % 64 == 0
      modifies this`state
      ensures state == Chain(old(state), data)
    {
      hide Block, Words;
      var i := 0;
      assert data[0..] == data;
      while i != |data|
        invariant 0 <= i <= |data| && i % 64 == 0
        invariant Chain(state, data[i..]) == Chain(old(state), data)
        decreases |data| - i
      {
        assert data[i..][..64] == data[i..i + 64] && data[i..][64..] == data[i + 64..];
        CalculateBlock(data[i..i + 64]);
        i := i + 64;
      }
    }

    method GenDigest() returns (result: seq<byte>)
      ensures result == DigestOf(state)
    {
      result := [];
      ghost var parts := [Trimmed(state.a), Trimmed(state.b), Trimmed(state.c), Trimmed(state.d)];
      for i := 0 to 4
        invariant result == (if i == 0 then [] else if i == 1 then parts[0] else if i == 2 then parts[0] + parts[1]
                             else if i == 3 then parts[0] + parts[1] + parts[2] else DigestOf(state))
      {
        ghost var before := result;
        var n: nat := WordOf(state, i);
        while n != 0
          invariant before + Trimmed(WordOf(state, i)) == result + Trimmed(n)
        {
          result := result + [n % 256];
          n := n / 256;
        }
        assert result == before + parts[i];
      }
    }

    method Digest(src: seq<byte>) returns (result: seq<byte>)
      requires |src| < LIMIT
      modifies this
      ensures |Padded(src)| % 64 == 0 && result == DigestOf(Chain(INITIAL, Padded(src)))
    {
      hide DigestOf, Chain, Padded;
      ResetVector();
      String2BitStream(src);
      assert data == src by { assert [] + src == src; }
      Padding();
      PaddedIsWhole(src);
      Compute();
      result := GenDigest();
    }
  }

  /** The digest that the ring's `md5` gives. */
  function Md5Of(src: seq<byte>): seq<byte> {
    PaddedIsWhole(src);
    DigestOf(Chain(INITIAL, Padded(src)))
  }

  /** The chaining value behind it. */
  function StateOf(src: seq<byte>): Regs {
    PaddedIsWhole(src);
    Chain(INITIAL, Padded(src))
  }

  predicate AllWordsLarge(r: Regs) {
    r.a >= 0x100_0000 && r.b >= 0x100_0000 && r.c >= 0x100_0000 && r.d >= 0x100_0000
  }

  /** Every word that the ring hashes an address's points from is large. */
  ghost predicate LargeFor(groups: nat, a: ConsistentHash.Address) {
    forall i :: 0 <= i < groups ==> AllWordsLarge(StateOf(a + ConsistentHash.Decimal(i)))
  }

  /** The ring of this MD5 can be built without reading past a digest exactly if all the words hashed are large. */
  lemma RingIsReadableExactly(groups: nat, addrs: seq<ConsistentHash.Address>)
    ensures ConsistentHash.FullDigests(Md5Of, groups, addrs) <==> forall a <- addrs :: LargeFor(groups, a)
  {
    hide LargeFor, Md5Of;
    forall a | a in addrs
      ensures ConsistentHash.FullFor(Md5Of, groups, a) <==> LargeFor(groups, a)
    {
      FullForExactly(groups, a);
    }
  }

  lemma FullForExactly(groups: nat, a: ConsistentHash.Address)
    ensures ConsistentHash.FullFor(Md5Of, groups, a) <==> LargeFor(groups, a)
  {
    hide DigestOf, Chain, Padded, AllWordsLarge;
    forall i | 0 <= i < groups
      ensures |Md5Of(a + ConsistentHash.Decimal(i))| >= 16 <==> AllWordsLarge(StateOf(a + ConsistentHash.Decimal(i)))
    {
      DigestIsLong(StateOf(a + ConsistentHash.Decimal(i)));
    }
  }

  lemma DigestIsLong(r: Regs)
    ensures |DigestOf(r)| >= 16 <==> AllWordsLarge(r)
  {
    hide DigestOf;
    DigestIsFull(r);
  }

  /** Minimal disruption for the ring as the program builds it, with its own MD5. */
  lemma MinimalDisruptionOfMd5(groups: nat, addrs: seq<ConsistentHash.Address>, x: ConsistentHash.Address,
                               ring: ConsistentHash.Ring, ring': ConsistentHash.Ring, key: nat)
    requires forall a <- addrs :: LargeFor(groups, a)
    ensures ConsistentHash.FullDigests(Md5Of, groups, addrs)
    ensures ConsistentHash.FullDigests(Md5Of, groups, ConsistentHash.Without(addrs, x))
    ensures && ConsistentHash.IsRing(Md5Of, groups, addrs, ring)
            && ConsistentHash.IsRing(Md5Of, groups, ConsistentHash.Without(addrs, x), ring')
            && ring != map[] && ConsistentHash.Owner(ring, key) != x ==>
              ring' != map[] && ConsistentHash.Owner(ring', key) == ConsistentHash.Owner(ring, key)
  {
    hide LargeFor, Md5Of;
    RingIsReadableExactly(groups, addrs);
    ConsistentHash.WithoutIsListed(addrs, x);
    if && ConsistentHash.IsRing(Md5Of, groups, addrs, ring)
       && ConsistentHash.IsRing(Md5Of, groups, ConsistentHash.Without(addrs, x), ring') && ring != map[] {
      ConsistentHash.MinimalDisruption(Md5Of, groups, addrs, x, ring, ring', key);
    }
  }

  lemma PlainStart(r: Regs, x: seq<Word>)
    requires |x| == 16
    ensures Plain(r, x, 0) == r
  {
  }

  lemma PlainFourMore(r: Regs, x: seq<Word>, i: nat)
    requires |x| == 16 && i + 4 <= 64
    ensures Plain(r, x, i + 4)
         == PlainStep(PlainStep(PlainStep(PlainStep(Plain(r, x, i), x, i), x, i + 1), x, i + 2), x, i + 3)
  {
    hide PlainStep;
    assert Plain(r, x, i + 4) == PlainStep(Plain(r, x, i + 3), x, i + 3);
    assert Plain(r, x, i + 3) == PlainStep(Plain(r, x, i + 2), x, i + 2);
    assert Plain(r, x, i + 2) == PlainStep(Plain(r, x, i + 1), x, i + 1);
    assert Plain(r, x, i + 1) == PlainStep(Plain(r, x, i), x, i);
  }
}
