/** The MD5 message digest as RFC 1321 describes it, sections 3.1 to 3.5. */
module Rfc1321 {
  import opened Words
  import opened Md5Step
  import opened Blocks

  /** The four registers A, B, C, D. */
  datatype Registers = Registers(a: uint32, b: uint32, c: uint32, d: uint32)

  const IV := Registers(0x67452301, 0xefcdab89, 0x98badcfe, 0x10325476)

  /** The table T of section 3.4, indexed from 0, a row for each round. */
  function T(i: nat): uint32
    requires i < 64
  {
    if i < 16 then T1(i) else if i < 32 then T2(i - 16) else if i < 48 then T3(i - 32) else T4(i - 48)
  }

  function T1(i: nat): uint32
    requires i < 16
  {
    match i
    case 0 => 0xd76aa478 case 1 => 0xe8c7b756 case 2 => 0x242070db case 3 => 0xc1bdceee
    case 4 => 0xf57c0faf case 5 => 0x4787c62a case 6 => 0xa8304613 case 7 => 0xfd469501
    case 8 => 0x698098d8 case 9 => 0x8b44f7af case 10 => 0xffff5bb1 case 11 => 0x895cd7be
    case 12 => 0x6b901122 case 13 => 0xfd987193 case 14 => 0xa679438e case 15 => 0x49b40821
  }

  function T2(i: nat): uint32
    requires i < 16
  {
    match i
    case 0 => 0xf61e2562 case 1 => 0xc040b340 case 2 => 0x265e5a51 case 3 => 0xe9b6c7aa
    case 4 => 0xd62f105d case 5 => 0x02441453 case 6 => 0xd8a1e681 case 7 => 0xe7d3fbc8
    case 8 => 0x21e1cde6 case 9 => 0xc33707d6 case 10 => 0xf4d50d87 case 11 => 0x455a14ed
    case 12 => 0xa9e3e905 case 13 => 0xfcefa3f8 case 14 => 0x676f02d9 case 15 => 0x8d2a4c8a
  }

  function T3(i: nat): uint32
    requires i < 16
  {
    match i
    case 0 => 0xfffa3942 case 1 => 0x8771f681 case 2 => 0x6d9d6122 case 3 => 0xfde5380c
    case 4 => 0xa4beea44 case 5 => 0x4bdecfa9 case 6 => 0xf6bb4b60 case 7 => 0xbebfbc70
    case 8 => 0x289b7ec6 case 9 => 0xeaa127fa case 10 => 0xd4ef3085 case 11 => 0x04881d05
    case 12 => 0xd9d4d039 case 13 => 0xe6db99e5 case 14 => 0x1fa27cf8 case 15 => 0xc4ac5665
  }

  function T4(i: nat): uint32
    requires i < 16
  {
    match i
    case 0 => 0xf4292244 case 1 => 0x432aff97 case 2 => 0xab9423a7 case 3 => 0xfc93a039
    case 4 => 0x655b59c3 case 5 => 0x8f0ccc92 case 6 => 0xffeff47d case 7 => 0x85845dd1
    case 8 => 0x6fa87e4f case 9 => 0xfe2ce6e0 case 10 => 0xa3014314 case 11 => 0x4e0811a1
    case 12 => 0xf7537e82 case 13 => 0xbd3af235 case 14 => 0x2ad7d2bb case 15 => 0xeb86d391
  }

  /** The bit function of the round that step i belongs to. */
  function Function(i: nat, x: uint32, y: uint32, z: uint32): uint32 {
    if i < 16 then F(x, y, z) else if i < 32 then G(x, y, z) else if i < 48 then H(x, y, z) else I(x, y, z)
  }

  /** The index of the message word that step i reads. */
  function WordIndex(i: nat): (k: nat)
    ensures k < 16
  {
    if i < 16 then i else if i < 32 then (1 + 5 * i) % 16 else if i < 48 then (5 + 3 * i) % 16 else (7 * i) % 16
  }

  function Shift(i: nat): (s: nat)
    ensures s < 32
  {
    if i < 16 then Pick(i, 7, 12, 17, 22)
    else if i < 32 then Pick(i, 5, 9, 14, 20)
    else if i < 48 then Pick(i, 4, 11, 16, 23)
    else Pick(i, 6, 10, 15, 21)
  }

  function Pick(i: nat, s0: nat, s1: nat, s2: nat, s3: nat): nat {
    if i % 4 == 0 then s0 else if i % 4 == 1 then s1 else if i % 4 == 2 then s2 else s3
  }

  /** One operation on the message word w: the first register is replaced, then the registers rotate by one. */
  function Operation(i: nat, r: Registers, w: uint32): Registers
    requires i < 64
  {
    Registers(r.d, Mix(r.a, Function(i, r.b, r.c, r.d), r.b, w, Shift(i), T(i)), r.b, r.c)
  }

  function Step(i: nat, r: Registers, x: seq<uint32>): Registers
    requires i < 64 && |x| == 16
  {
    Operation(i, r, x[WordIndex(i)])
  }

  /** The registers after the first n of the 64 operations. */
  function Rounds(n: nat, r: Registers, x: seq<uint32>): Registers
    requires n <= 64 && |x| == 16
  {
    if n == 0 then r else Step(n - 1, Rounds(n - 1, r, x), x)
  }

  /** The n bytes of v, low-order byte first. */
  function LittleEndian(v: nat, n: nat): (s: seq<byte>)
    ensures |s| == n
  {
    if n == 0 then [] else [v % 0x100] + LittleEndian(v / 0x100, n - 1)
  }

  function Word(b0: byte, b1: byte, b2: byte, b3: byte): uint32 {
    var v3: int := b3;
    var v2: int := b2 + 0x100 * v3;
    var v1: int := b1 + 0x100 * v2;
    b0 + 0x100 * v1
  }

  /** The words of a byte sequence, four bytes each, low-order byte first. */
  function WordsOf(m: seq<byte>): (x: seq<uint32>)
    ensures |x| == |m| / 4
  {
    seq(|m| / 4, i requires 0 <= i < |m| / 4 =>
      Word(m[4 * i], m[4 * i + 1], m[4 * i + 2], m[4 * i + 3]))
  }

  function BytesOf(x: seq<uint32>): (m: seq<byte>)
    ensures |m| == 4 * |x|
  {
    if x == [] then [] else LittleEndian(x[0], 4) + BytesOf(x[1..])
  }

  /** All 64 operations on one block, then the addition of the registers saved before. */
  function Compress(r: Registers, block: Block): Registers {
    var q := Rounds(64, r, WordsOf(block));
    Registers(Add(r.a, q.a), Add(r.b, q.b), Add(r.c, q.c), Add(r.d, q.d))
  }

  function Zeros(n: nat): (s: seq<byte>)
    ensures |s| == n
  {
    seq(n, _ => 0)
  }

  /** Section 3.1 and 3.2: a one bit, zeros to 56 bytes modulo 64, then the length in bits modulo 2^64. */
  function Pad(m: seq<byte>): seq<byte> {
    m + [0x80] + Zeros((55 - |m|) % 64) + LittleEndian(8 * |m| % 0x1_0000_0000_0000_0000, 8)
  }

  /** Section 3.5: the registers in the order A, B, C, D, each with its low-order byte first. */
  function RegisterBytes(r: Registers): (m: seq<byte>)
    ensures |m| == 16
  {
    BytesOf([r.a, r.b, r.c, r.d])
  }

  function Digest(m: seq<byte>): (d: seq<byte>)
    ensures |d| == 16
  {
    RegisterBytes(FoldBlocks(Compress, IV, Pad(m)))
  }

  /** Padding ends on a block boundary, so no byte of it is ignored. */
  lemma PadFillsBlocks(m: seq<byte>)
    ensures |Pad(m)| % 64 == 0 && m <= Pad(m)
  {
    var z := (55 - |m|) % 64;
    assert |Pad(m)| == |m| + 9 + z;
    var q := (55 - |m|) / 64;
    assert |m| + 9 + z == 64 * (1 - q);
    DivModUnique(|Pad(m)|, 64, 1 - q, 0);
  }

  /** The words of a block determine its bytes. */
  lemma {:induction false} BytesOfWordsOf(m: seq<byte>)
    requires |m| % 4 == 0
    ensures BytesOf(WordsOf(m)) == m
    decreases |m|
  {
    if m == [] {
    } else {
      assert WordsOf(m)[1..] == WordsOf(m[4..]);
      BytesOfWordsOf(m[4..]);
      LittleEndianWord(m[0], m[1], m[2], m[3]);
      assert m == [m[0], m[1], m[2], m[3]] + m[4..];
    }
  }

  lemma LittleEndianWord(b0: byte, b1: byte, b2: byte, b3: byte)
    ensures LittleEndian(Word(b0, b1, b2, b3), 4) == [b0, b1, b2, b3]
  {
    var v3: int := b3;
    var v2: int := b2 + 0x100 * v3;
    var v1: int := b1 + 0x100 * v2;
    var v0: int := b0 + 0x100 * v1;
    assert LittleEndian(v3, 1) == [b3];
    assert LittleEndian(v2, 2) == [b2] + LittleEndian(v3, 1);
    assert LittleEndian(v1, 3) == [b1] + LittleEndian(v2, 2);
    assert LittleEndian(v0, 4) == [b0] + LittleEndian(v1, 3);
  }

  /** Two words written one after the other, low word first, are their 64-bit value. */
  lemma LittleEndianPair(lo: uint32, hi: uint32)
    ensures BytesOf([lo, hi]) == LittleEndian(lo + WORD * hi, 8)
  {
    Pow2Values();
    LittleEndianSplit(lo, hi, 4);
    assert BytesOf([lo, hi]) == LittleEndian(lo, 4) + BytesOf([hi]);
    assert BytesOf([hi]) == LittleEndian(hi, 4) + BytesOf([]);
  }

  lemma {:induction false} LittleEndianSplit(lo: nat, hi: nat, n: nat)
    requires lo < Pow2(8 * n)
    ensures LittleEndian(lo + Pow2(8 * n) * hi, n + 4) == LittleEndian(lo, n) + LittleEndian(hi, 4)
  {
    hide LittleEndian, Pow2;
    var v := lo + Pow2(8 * n) * hi;
    LittleEndianNext(lo, n);
    LittleEndianNext(v, n + 4);
    if n == 0 {
      PowerZero();
      assert v == hi;
    } else {
      NextPower(n);
      ShiftByte(lo, Pow2(8 * (n - 1)), hi);
      LittleEndianSplit(lo / 0x100, hi, n - 1);
    }
  }

  lemma LittleEndianNext(v: nat, n: nat)
    ensures LittleEndian(v, n) == if n == 0 then [] else [v % 0x100] + LittleEndian(v / 0x100, n - 1)
  {
  }

  lemma PowerZero()
    ensures Pow2(0) == 1
  {
  }

  lemma NextPower(n: nat)
    requires n > 0
    ensures Pow2(8 * n) == 0x100 * Pow2(8 * (n - 1))
  {
    Pow2Values();
    Pow2Add(8, 8 * (n - 1));
  }

  lemma ShiftByte(lo: nat, p: nat, hi: nat)
    requires lo < 0x100 * p
    ensures (lo + (0x100 * p) * hi) % 0x100 == lo % 0x100
    ensures (lo + (0x100 * p) * hi) / 0x100 == lo / 0x100 + p * hi
  {
    MulAssoc(0x100, p, hi);
    var t := p * hi;
    assert (0x100 * p) * hi == 0x100 * t;
  }

  /** The inverse of one operation: rotates the registers back, subtracts, rotates right. */
  function Unstep(i: nat, r: Registers, x: seq<uint32>): Registers
    requires i < 64 && |x| == 16
  {
    Registers(Unmix(r.b, Function(i, r.c, r.d, r.a), r.c, x[WordIndex(i)], Shift(i), T(i)), r.c, r.d, r.a)
  }

  function Unrounds(n: nat, r: Registers, x: seq<uint32>): Registers
    requires n <= 64 && |x| == 16
  {
    if n == 0 then r else Unrounds(n - 1, Unstep(n - 1, r, x), x)
  }

  lemma StepInverse(i: nat, r: Registers, x: seq<uint32>)
    requires i < 64 && |x| == 16
    ensures Unstep(i, Step(i, r, x), x) == r
    ensures Step(i, Unstep(i, r, x), x) == r
  {
    MixInverse(r.a, Function(i, r.b, r.c, r.d), r.b, x[WordIndex(i)], Shift(i), T(i));
    MixInverse(r.b, Function(i, r.c, r.d, r.a), r.c, x[WordIndex(i)], Shift(i), T(i));
  }

  /** For every block, the 64 operations before the final additions are a bijection on the registers. */
  lemma {:induction false} RoundsInverse(n: nat, r: Registers, x: seq<uint32>)
    requires n <= 64 && |x| == 16
    ensures Unrounds(n, Rounds(n, r, x), x) == r
    ensures Rounds(n, Unrounds(n, r, x), x) == r
  {
    if n == 0 {
    } else {
      StepInverse(n - 1, Rounds(n - 1, r, x), x);
      RoundsInverse(n - 1, r, x);
      StepInverse(n - 1, r, x);
      RoundsInverse(n - 1, Unstep(n - 1, r, x), x);
    }
  }

  /** Compression can be taken back: subtracting the registers saved before the 64 operations leaves their result, and
      undoing the operations gives the saved registers again. */
  lemma CompressInverse(r: Registers, block: Block)
    ensures
      var c := Compress(r, block);
      Unrounds(64, Registers(Sub(c.a, r.a), Sub(c.b, r.b), Sub(c.c, r.c), Sub(c.d, r.d)), WordsOf(block)) == r
  {
    hide Rounds, Unrounds, WordsOf, Add, Sub;
    var q := Rounds(64, r, WordsOf(block));
    SubFirst(r.a, q.a);
    SubFirst(r.b, q.b);
    SubFirst(r.c, q.c);
    SubFirst(r.d, q.d);
    RoundsInverse(64, r, WordsOf(block));
  }

  lemma SubFirst(x: uint32, y: uint32)
    ensures Sub(Add(x, y), x) == y
  {
  }

  /** The order in which the rounds of section 3.4 read the words. */
  lemma WordOrder(i: nat)
    requires i < 16
    ensures WordIndex(i) == i
    ensures WordIndex(16 + i) == (1 + 5 * i) % 16
    ensures WordIndex(32 + i) == (5 + 3 * i) % 16
    ensures WordIndex(48 + i) == (7 * i) % 16
  {
    ModShift(1 + 5 * i, 5, 16);
    ModShift(5 + 3 * i, 6, 16);
    ModShift(7 * i, 21, 16);
  }

  /** The number of a byte sequence, low-order byte first. */
  function LittleEndianValue(s: seq<byte>): nat {
    if s == [] then 0 else s[0] + 0x100 * LittleEndianValue(s[1..])
  }

  lemma {:induction false} LittleEndianRoundTrip(v: nat, n: nat)
    requires v < Pow2(8 * n)
    ensures LittleEndianValue(LittleEndian(v, n)) == v
  {
    if n > 0 {
      NextPower(n);
      hide Pow2;
      LittleEndianRoundTrip(v / 0x100, n - 1);
      assert LittleEndian(v, n)[1..] == LittleEndian(v / 0x100, n - 1);
    }
  }

  /** What padding adds: the byte 0x80, zero bytes, and the length in bits modulo 2^64 as eight bytes, low-order byte
      first; as little as fills the last block. */
  lemma PaddingAdded(m: seq<byte>)
    ensures |m| + 9 <= |Pad(m)| < |m| + 73 && |Pad(m)| % 64 == 0
    ensures Pad(m)[..|m|] == m && Pad(m)[|m|] == 0x80
    ensures forall j :: |m| < j < |Pad(m)| - 8 ==> Pad(m)[j] == 0
    ensures LittleEndianValue(Pad(m)[|Pad(m)| - 8..]) == 8 * |m| % 0x1_0000_0000_0000_0000
  {
    PadFillsBlocks(m);
    var length := LittleEndian(8 * |m| % 0x1_0000_0000_0000_0000, 8);
    assert Pad(m)[|Pad(m)| - 8..] == length;
    EightBytes();
    LittleEndianRoundTrip(8 * |m| % 0x1_0000_0000_0000_0000, 8);
  }

  lemma EightBytes()
    ensures Pow2(64) == 0x1_0000_0000_0000_0000
  {
    Pow2Values();
    Pow2Add(32, 32);
  }
}
