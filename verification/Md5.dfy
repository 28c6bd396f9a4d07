/** The class MD5 of md5.cpp.  Its methods are proved against MdContext, a hashing context without buffers and
    words, and MdContext is proved to compute the digest of RFC 1321 however its input is cut into pieces. */
module Md5 {
  import opened Words
  import opened Md5Step
  import opened Blocks
  import opened Rfc1321
  import opened MdContext

  const S11 := 7
  const S12 := 12
  const S13 := 17
  const S14 := 22
  const S21 := 5
  const S22 := 9
  const S23 := 14
  const S24 := 20
  const S31 := 4
  const S32 := 11
  const S33 := 16
  const S34 := 23
  const S41 := 6
  const S42 := 10
  const S43 := 15
  const S44 := 21

  /** The wrapped loop test of update never misjudges the last position it is asked about. */
  predicate LoopTestFits(index: nat, length: uint32)
    requires index < 64
  {
    length < 64 - index || length - (length - (64 - index)) % 64 + 64 < WORD
  }

  lemma LoopTestAt(index: nat, length: uint32, i: uint32)
    requires index < 64 && 64 - index <= i <= length && (i - (64 - index)) % 64 == 0
    requires LoopTestFits(index, length)
    ensures Add(i, 64) <= length <==> i + 64 <= length
  {
    var first := 64 - index;
    var q, e := (i - first) / 64, (length - first) / 64;
    assert i - first == 64 * q && length - first == 64 * e + (length - first) % 64;
    assert q <= e;
  }

  /** LoopTestFits is exact: it holds if and only if `i + blocksize <= length`, computed in 32 bits, has its
      mathematical value at every i the loop of update can reach. */
  lemma LoopTestFitsExactly(index: nat, length: uint32)
    requires index < 64
    ensures LoopTestFits(index, length) <==>
      forall i: uint32 :: 64 - index <= i <= length && (i - (64 - index)) % 64 == 0 ==>
        (Add(i, 64) <= length <==> i + 64 <= length)
  {
    var first := 64 - index;
    if first <= length {
      var d := length - first;
      var last: uint32 := length - d % 64;
      DivModUnique(last - first, 64, d / 64, 0);
      if LoopTestFits(index, length) {
        forall i: uint32 {:trigger Add(i, 64)} | first <= i <= length && (i - first) % 64 == 0
          ensures Add(i, 64) <= length <==> i + 64 <= length
        {
          LoopTestAt(index, length, i);
        }
      } else {
        assert Add(last, 64) == last + 64 - WORD;
      }
    }
  }

  /** Where the loop of update stands after n turns, if it makes as many; 32-bit addition wraps. */
  function LoopPosition(first: uint32, n: nat): uint32 {
    if n == 0 then first else Add(LoopPosition(first, n - 1), 64)
  }

  /** The test of the loop, after the buffer with `index` bytes has been filled and n turns have been made. */
  predicate GoesOn(index: nat, length: uint32, n: nat)
    requires index < 64
  {
    Add(LoopPosition(64 - index, n), 64) <= length
  }

  lemma {:induction false} LoopPositionAligned(first: uint32, n: nat) returns (z: int)
    ensures LoopPosition(first, n) == first + 64 * z
    ensures first + 64 * n < WORD ==> z == n
  {
    if n == 0 {
      z := 0;
    } else {
      z := LoopPositionAligned(first, n - 1);
      z := if first + 64 * z + 64 < WORD then z + 1 else z + 1 - 0x400_0000;
    }
  }

  /** The last position that is not behind the end of the input. */
  lemma LastPosition(index: nat, length: uint32) returns (e: nat)
    requires index < 64 && 64 - index <= length
    ensures 64 - index + 64 * e <= length < 128 - index + 64 * e
    ensures LoopTestFits(index, length) <==> 128 - index + 64 * e < WORD
  {
    e := (length - (64 - index)) / 64;
  }

  /** If the last position in the input is within 64 of 2^32, the test holds at every position the loop wraps to. */
  lemma NeverEnds(index: nat, length: uint32, n: nat)
    requires index < 64 && !LoopTestFits(index, length)
    ensures GoesOn(index, length, n)
  {
    hide LoopPosition;
    var e := LastPosition(index, length);
    var z := LoopPositionAligned(64 - index, n);
    assert z < e ==> 64 - index + 64 * z + 64 <= length;
  }

  /** The loop of update comes to an end if and only if LoopTestFits. */
  lemma LoopEndsExactly(index: nat, length: uint32)
    requires index < 64
    ensures LoopTestFits(index, length) <==> exists n :: !GoesOn(index, length, n)
  {
    hide GoesOn, LoopPosition;
    if !LoopTestFits(index, length) {
      forall n ensures GoesOn(index, length, n) {
        NeverEnds(index, length, n);
      }
    } else if length < 64 - index {
      StopsAt(index, length, 0);
    } else {
      var e := LastPosition(index, length);
      StopsAt(index, length, e);
    }
  }

  lemma StopsAt(index: nat, length: uint32, e: nat)
    requires index < 64 && length < 128 - index + 64 * e < WORD
    ensures !GoesOn(index, length, e)
  {
    hide LoopPosition;
    var z := LoopPositionAligned(64 - index, e);
  }

  /** On a new object a single update of 2^32 - 64 bytes does not end. */
  lemma EndlessUpdate()
    ensures !LoopTestFits(0, 0xffff_ffc0) && forall n :: GoesOn(0, 0xffff_ffc0, n)
  {
    forall n ensures GoesOn(0, 0xffff_ffc0, n) {
      NeverEnds(0, 0xffff_ffc0, n);
    }
  }

  // Byte order: what the masks, shifts and ors of encode and decode compute.

  lemma MaskLowByte(x: uint32)
    ensures And(x, 0xff) == x % 0x100
  {
    Pow2Values();
    AndMask(32, 8, x, 0x100);
  }

  lemma EncodedWord(w: uint32)
    ensures [And(w, 0xff), And(Shr(w, 8), 0xff), And(Shr(w, 16), 0xff), And(Shr(w, 24), 0xff)] == LittleEndian(w, 4)
  {
    Pow2Values();
    ShrValue(w, 8);
    ShrValue(w, 16);
    ShrValue(w, 24);
    MaskLowByte(w);
    MaskLowByte(Shr(w, 8));
    MaskLowByte(Shr(w, 16));
    MaskLowByte(Shr(w, 24));
    var v1 := w / 0x100;
    var v2 := v1 / 0x100;
    var v3 := v2 / 0x100;
    assert v2 == w / 0x1_0000 && v3 == w / 0x100_0000;
    assert LittleEndian(v3, 1) == [v3 % 0x100];
    assert LittleEndian(v2, 2) == [v2 % 0x100] + LittleEndian(v3, 1);
    assert LittleEndian(v1, 3) == [v1 % 0x100] + LittleEndian(v2, 2);
  }

  lemma OrAbove(a: byte, n: nat, b: nat, p: nat)
    requires n <= 24 && p == Pow2(n) && b < p && 0x100 * p <= WORD && a < Pow2(32 - n)
    ensures b + a * p < 0x100 * p
    ensures Bitwise((p, q) => p || q, 32, b, Shl(a, n)) == b + a * p
  {
    MulMonotone(a, 0xff, p);
    MulMonotone(0, a, p);
    var s := a * p;
    ShlValue(a, n);
    DivModUnique(s, WORD, 0, s);
    DisjointOr(32, n, a, b);
  }

  lemma DecodedWord(b0: byte, b1: byte, b2: byte, b3: byte)
    ensures Or(Or(Or(b0, Shl(b1, 8)), Shl(b2, 16)), Shl(b3, 24)) == Word(b0, b1, b2, b3)
  {
    Pow2Values();
    OrAbove(b1, 8, b0, 0x100);
    OrAbove(b2, 16, Or(b0, Shl(b1, 8)), 0x1_0000);
    OrAbove(b3, 24, Or(Or(b0, Shl(b1, 8)), Shl(b2, 16)), 0x100_0000);
  }

  /** decode: little-endian bytes into words. */
  method Decode(output: array<uint32>, input: seq<byte>)
    requires |input| % 4 == 0 && output.Length == |input| / 4
    modifies output
    ensures output[..] == WordsOf(input)
  {
    hide Or, Shl, Word;
    var i, j := 0, 0;
    while j < |input|
      invariant j == 4 * i <= |input|
      invariant forall k :: 0 <= k < i ==> output[k] == WordsOf(input)[k]
    {
      DecodedWord(input[j], input[j + 1], input[j + 2], input[j + 3]);
      output[i] := Or(Or(Or(input[j], Shl(input[j + 1], 8)), Shl(input[j + 2], 16)), Shl(input[j + 3], 24));
      i, j := i + 1, j + 4;
    }
  }

  /** encode: words into little-endian bytes. */
  method Encode(output: array<byte>, input: seq<uint32>)
    requires output.Length == 4 * |input|
    modifies output
    ensures output[..] == BytesOf(input)
  {
    hide And, Shr, LittleEndian;
    var i, j := 0, 0;
    while j < output.Length
      invariant j == 4 * i <= output.Length
      invariant output[..j] == BytesOf(input[..i])
    {
      EncodedWord(input[i]);
      MaskLowByte(input[i]);
      MaskLowByte(Shr(input[i], 8));
      MaskLowByte(Shr(input[i], 16));
      MaskLowByte(Shr(input[i], 24));
      BytesOfAppend(input[..i], input[i]);
      assert input[..i + 1] == input[..i] + [input[i]];
      ghost var done := output[..j];
      output[j] := And(input[i], 0xff);
      output[j + 1] := And(Shr(input[i], 8), 0xff);
      output[j + 2] := And(Shr(input[i], 16), 0xff);
      output[j + 3] := And(Shr(input[i], 24), 0xff);
      assert output[..j] == done;
      assert output[..j + 4] == done + LittleEndian(input[i], 4);
      i, j := i + 1, j + 4;
    }
    assert input[..i] == input;
    assert output[..j] == output[..];
  }

  lemma {:induction false} BytesOfAppend(x: seq<uint32>, w: uint32)
    ensures BytesOf(x + [w]) == BytesOf(x) + LittleEndian(w, 4)
  {
    if x == [] {
      assert BytesOf([w]) == LittleEndian(w, 4) + BytesOf([]);
    } else {
      assert (x + [w])[1..] == x[1..] + [w];
      BytesOfAppend(x[1..], w);
    }
  }

  // The 64 unrolled steps, round by round.

  lemma FourSteps(n: nat, r: Registers, x: seq<uint32>)
    requires n + 4 <= 64 && |x| == 16
    ensures Rounds(n + 4, r, x) == Step(n + 3, Step(n + 2, Step(n + 1, Step(n, Rounds(n, r, x), x), x), x), x)
  {
    hide Step;
    assert Rounds(n + 1, r, x) == Step(n, Rounds(n, r, x), x);
    assert Rounds(n + 2, r, x) == Step(n + 1, Rounds(n + 1, r, x), x);
    assert Rounds(n + 3, r, x) == Step(n + 2, Rounds(n + 2, r, x), x);
  }

  method Round1(ghost r: Registers, x: seq<uint32>, a0: uint32, b0: uint32, c0: uint32, d0: uint32)
    returns (a: uint32, b: uint32, c: uint32, d: uint32)
    requires |x| == 16
    requires Registers(a0, b0, c0, d0) == Rounds(0, r, x)
    ensures Registers(a, b, c, d) == Rounds(16, r, x)
  {
    a, b, c, d := a0, b0, c0, d0;
    a := FF(a, b, c, d, x[0], S11, 0xd76aa478);
    d := FF(d, a, b, c, x[1], S12, 0xe8c7b756);
    c := FF(c, d, a, b, x[2], S13, 0x242070db);
    b := FF(b, c, d, a, x[3], S14, 0xc1bdceee);
    FourSteps(0, r, x);
    a := FF(a, b, c, d, x[4], S11, 0xf57c0faf);
    d := FF(d, a, b, c, x[5], S12, 0x4787c62a);
    c := FF(c, d, a, b, x[6], S13, 0xa8304613);
    b := FF(b, c, d, a, x[7], S14, 0xfd469501);
    FourSteps(4, r, x);
    a := FF(a, b, c, d, x[8], S11, 0x698098d8);
    d := FF(d, a, b, c, x[9], S12, 0x8b44f7af);
    c := FF(c, d, a, b, x[10], S13, 0xffff5bb1);
    b := FF(b, c, d, a, x[11], S14, 0x895cd7be);
    FourSteps(8, r, x);
    a := FF(a, b, c, d, x[12], S11, 0x6b901122);
    d := FF(d, a, b, c, x[13], S12, 0xfd987193);
    c := FF(c, d, a, b, x[14], S13, 0xa679438e);
    b := FF(b, c, d, a, x[15], S14, 0x49b40821);
    FourSteps(12, r, x);
  }

  lemma WordsOfRound2()
    ensures WordIndex(16) == 1 && WordIndex(17) == 6 && WordIndex(18) == 11 && WordIndex(19) == 0
    ensures WordIndex(20) == 5 && WordIndex(21) == 10 && WordIndex(22) == 15 && WordIndex(23) == 4
    ensures WordIndex(24) == 9 && WordIndex(25) == 14 && WordIndex(26) == 3 && WordIndex(27) == 8
    ensures WordIndex(28) == 13 && WordIndex(29) == 2 && WordIndex(30) == 7 && WordIndex(31) == 12
  {
  }

  method Round2(ghost r: Registers, x: seq<uint32>, a0: uint32, b0: uint32, c0: uint32, d0: uint32)
    returns (a: uint32, b: uint32, c: uint32, d: uint32)
    requires |x| == 16
    requires Registers(a0, b0, c0, d0) == Rounds(16, r, x)
    ensures Registers(a, b, c, d) == Rounds(32, r, x)
  {
    a, b, c, d := a0, b0, c0, d0;
    WordsOfRound2();
    a := GG(a, b, c, d, x[1], S21, 0xf61e2562);
    d := GG(d, a, b, c, x[6], S22, 0xc040b340);
    c := GG(c, d, a, b, x[11], S23, 0x265e5a51);
    b := GG(b, c, d, a, x[0], S24, 0xe9b6c7aa);
    FourSteps(16, r, x);
    a := GG(a, b, c, d, x[5], S21, 0xd62f105d);
    d := GG(d, a, b, c, x[10], S22, 0x02441453);
    c := GG(c, d, a, b, x[15], S23, 0xd8a1e681);
    b := GG(b, c, d, a, x[4], S24, 0xe7d3fbc8);
    FourSteps(20, r, x);
    a := GG(a, b, c, d, x[9], S21, 0x21e1cde6);
    d := GG(d, a, b, c, x[14], S22, 0xc33707d6);
    c := GG(c, d, a, b, x[3], S23, 0xf4d50d87);
    b := GG(b, c, d, a, x[8], S24, 0x455a14ed);
    FourSteps(24, r, x);
    a := GG(a, b, c, d, x[13], S21, 0xa9e3e905);
    d := GG(d, a, b, c, x[2], S22, 0xfcefa3f8);
    c := GG(c, d, a, b, x[7], S23, 0x676f02d9);
    b := GG(b, c, d, a, x[12], S24, 0x8d2a4c8a);
    FourSteps(28, r, x);
  }

  lemma WordsOfRound3()
    ensures WordIndex(32) == 5 && WordIndex(33) == 8 && WordIndex(34) == 11 && WordIndex(35) == 14
    ensures WordIndex(36) == 1 && WordIndex(37) == 4 && WordIndex(38) == 7 && WordIndex(39) == 10
    ensures WordIndex(40) == 13 && WordIndex(41) == 0 && WordIndex(42) == 3 && WordIndex(43) == 6
    ensures WordIndex(44) == 9 && WordIndex(45) == 12 && WordIndex(46) == 15 && WordIndex(47) == 2
  {
  }

  method Round3(ghost r: Registers, x: seq<uint32>, a0: uint32, b0: uint32, c0: uint32, d0: uint32)
    returns (a: uint32, b: uint32, c: uint32, d: uint32)
    requires |x| == 16
    requires Registers(a0, b0, c0, d0) == Rounds(32, r, x)
    ensures Registers(a, b, c, d) == Rounds(48, r, x)
  {
    a, b, c, d := a0, b0, c0, d0;
    WordsOfRound3();
    a := HH(a, b, c, d, x[5], S31, 0xfffa3942);
    d := HH(d, a, b, c, x[8], S32, 0x8771f681);
    c := HH(c, d, a, b, x[11], S33, 0x6d9d6122);
    b := HH(b, c, d, a, x[14], S34, 0xfde5380c);
    FourSteps(32, r, x);
    a := HH(a, b, c, d, x[1], S31, 0xa4beea44);
    d := HH(d, a, b, c, x[4], S32, 0x4bdecfa9);
    c := HH(c, d, a, b, x[7], S33, 0xf6bb4b60);
    b := HH(b, c, d, a, x[10], S34, 0xbebfbc70);
    FourSteps(36, r, x);
    a := HH(a, b, c, d, x[13], S31, 0x289b7ec6);
    d := HH(d, a, b, c, x[0], S32, 0xeaa127fa);
    c := HH(c, d, a, b, x[3], S33, 0xd4ef3085);
    b := HH(b, c, d, a, x[6], S34, 0x04881d05);
    FourSteps(40, r, x);
    a := HH(a, b, c, d, x[9], S31, 0xd9d4d039);
    d := HH(d, a, b, c, x[12], S32, 0xe6db99e5);
    c := HH(c, d, a, b, x[15], S33, 0x1fa27cf8);
    b := HH(b, c, d, a, x[2], S34, 0xc4ac5665);
    FourSteps(44, r, x);
  }

  lemma WordsOfRound4()
    ensures WordIndex(48) == 0 && WordIndex(49) == 7 && WordIndex(50) == 14 && WordIndex(51) == 5
    ensures WordIndex(52) == 12 && WordIndex(53) == 3 && WordIndex(54) == 10 && WordIndex(55) == 1
    ensures WordIndex(56) == 8 && WordIndex(57) == 15 && WordIndex(58) == 6 && WordIndex(59) == 13
    ensures WordIndex(60) == 4 && WordIndex(61) == 11 && WordIndex(62) == 2 && WordIndex(63) == 9
  {
  }

  method Round4(ghost r: Registers, x: seq<uint32>, a0: uint32, b0: uint32, c0: uint32, d0: uint32)
    returns (a: uint32, b: uint32, c: uint32, d: uint32)
    requires |x| == 16
    requires Registers(a0, b0, c0, d0) == Rounds(48, r, x)
    ensures Registers(a, b, c, d) == Rounds(64, r, x)
  {
    a, b, c, d := a0, b0, c0, d0;
    WordsOfRound4();
    a := II(a, b, c, d, x[0], S41, 0xf4292244);
    d := II(d, a, b, c, x[7], S42, 0x432aff97);
    c := II(c, d, a, b, x[14], S43, 0xab9423a7);
    b := II(b, c, d, a, x[5], S44, 0xfc93a039);
    FourSteps(48, r, x);
    a := II(a, b, c, d, x[12], S41, 0x655b59c3);
    d := II(d, a, b, c, x[3], S42, 0x8f0ccc92);
    c := II(c, d, a, b, x[10], S43, 0xffeff47d);
    b := II(b, c, d, a, x[1], S44, 0x85845dd1);
    FourSteps(52, r, x);
    a := II(a, b, c, d, x[8], S41, 0x6fa87e4f);
    d := II(d, a, b, c, x[15], S42, 0xfe2ce6e0);
    c := II(c, d, a, b, x[6], S43, 0xa3014314);
    b := II(b, c, d, a, x[13], S44, 0x4e0811a1);
    FourSteps(56, r, x);
    a := II(a, b, c, d, x[4], S41, 0xf7537e82);
    d := II(d, a, b, c, x[11], S42, 0xbd3af235);
    c := II(c, d, a, b, x[2], S43, 0x2ad7d2bb);
    b := II(b, c, d, a, x[9], S44, 0xeb86d391);
    FourSteps(60, r, x);
  }

  method MemCpy(dst: array<byte>, at: nat, src: seq<byte>)
    requires at + |src| <= dst.Length
    modifies dst
    ensures dst[..at + |src|] == old(dst[..at]) + src
    ensures dst[at + |src|..] == old(dst[at + |src|..])
  {
    forall k | 0 <= k < |src| {
      dst[at + k] := src[k];
    }
  }

  lemma PaddingPrefix(index: nat, padLen: nat)
    requires index < 64 && padLen == if index < 56 then 56 - index else 120 - index
    ensures padLen <= 64 && PADDING[..padLen] == PaddingFor(index)
  {
    if index < 56 {
      DivModUnique(55 - index, 64, 0, 55 - index);
    } else {
      DivModUnique(55 - index, 64, -1, 119 - index);
    }
  }

  class MD5 {
    var finalized: bool
    const buffer: array<byte>   // bytes that did not fill the last block
    const count: array<uint32>  // 64-bit counter of bits, low word first
    const state: array<uint32>
    const digest: array<byte>

    ghost predicate Valid()
      reads this
    {
      buffer.Length == 64 && count.Length == 2 && state.Length == 4 && digest.Length == 16 &&
      buffer != digest && count != state
    }

    ghost function Chain(): Registers
      reads this, state
      requires Valid()
    {
      Registers(state[0], state[1], state[2], state[3])
    }

    /** What the object stands for: the counter as one number and the buffer as the bytes still waiting in it. */
    ghost function View(): Context<Registers>
      reads this, buffer, count, state, digest
      requires Valid()
    {
      CounterLowWord(count[0], count[1]);
      Context(finalized, count[0] + WORD * count[1], buffer[..count[0] / 8 % 64], Chain(), digest[..])
    }

    constructor ()
      ensures Valid() && View() == Initial(IV, digest[..])
      ensures fresh(buffer) && fresh(count) && fresh(state) && fresh(digest)
    {
      buffer, count, state, digest := new byte[64], new uint32[2], new uint32[4], new byte[16];
      new;
      Init();
    }

    /** The constructor from a text: one update with all of it, then finalize. */
    constructor OfText(text: seq<byte>)
      requires |text| < WORD && LoopTestFits(0, |text|)
      ensures Valid() && finalized && digest[..] == Digest(text)
      ensures fresh(buffer) && fresh(count) && fresh(state) && fresh(digest)
    {
      buffer, count, state, digest := new byte[64], new uint32[2], new uint32[4], new byte[16];
      new;
      Init();
      ghost var before := digest[..];
      Update(text);
      Finalize();
      PiecewiseDigest(before, [text]);
      OnePiece(Compress, Initial(IV, before), text);
    }

    method Init()
      requires Valid()
      modifies this`finalized, count, state
      ensures Valid() && View() == Initial(IV, digest[..])
    {
      finalized := false;
      count[0], count[1] := 0, 0;
      state[0] := 0x67452301;
      state[1] := 0xefcdab89;
      state[2] := 0x98badcfe;
      state[3] := 0x10325476;
    }

    method Transform(block: Block)
      requires Valid()
      modifies state
      ensures Chain() == Compress(old(Chain()), block)
    {
      var a, b, c, d := state[0], state[1], state[2], state[3];
      var x := new uint32[16];
      Decode(x, block);
      ghost var r := Chain();
      a, b, c, d := Round1(r, x[..], a, b, c, d);
      a, b, c, d := Round2(r, x[..], a, b, c, d);
      a, b, c, d := Round3(r, x[..], a, b, c, d);
      a, b, c, d := Round4(r, x[..], a, b, c, d);
      state[0] := Add(state[0], a);
      state[1] := Add(state[1], b);
      state[2] := Add(state[2], c);
      state[3] := Add(state[3], d);
    }

    /** Adds 8 * length to the 64-bit counter; the carry shows as a low word smaller than what was added. */
    method AddToCount(length: uint32)
      requires Valid()
      modifies count
      ensures count[0] + WORD * count[1] == (old(count[0] + WORD * count[1]) + 8 * length) % M64
    {
      ghost var lo, hi := count[0], count[1];
      CounterSum(lo, hi, length);
      count[0] := Add(count[0], Shl(length, 3));
      if count[0] < Shl(length, 3) {
        count[1] := Add(count[1], 1);
      }
      count[1] := Add(count[1], Shr(length, 29));
    }

    /** The loop of update: one transform for every whole block from position `first` on. */
    method TransformBlocks(input: seq<byte>, first: uint32) returns (i: uint32)
      requires Valid() && 1 <= first <= 64 && first <= |input| < WORD && LoopTestFits(64 - first, |input|)
      modifies state
      ensures first <= i <= |input| < i + 64 && (i - first) % 64 == 0
      ensures Chain() == FoldBlocks(Compress, old(Chain()), input[first..i])
    {
      hide Compress, FoldBlocks, Tail, Add, LoopTestFits;
      i := first;
      FoldShort(Compress, Chain(), input[first..first]);
      LoopTestAt(64 - first, |input|, i);
      while Add(i, 64) <= |input|
        invariant first <= i <= |input| && (i - first) % 64 == 0
        invariant Add(i, 64) <= |input| <==> i + 64 <= |input|
        invariant Chain() == FoldBlocks(Compress, old(Chain()), input[first..i])
        decreases |input| - i
      {
        Transform(input[i..i + 64]);
        FoldSlice(Compress, old(Chain()), input, first, i);
        i := i + 64;
        LoopTestAt(64 - first, |input|, i);
      }
    }

    /** All of update but the counter: `waiting` bytes are in the buffer. */
    method Feed(input: seq<byte>, waiting: nat)
      requires Valid() && |input| < WORD && waiting < 64 && LoopTestFits(waiting, |input|)
      modifies buffer, state
      ensures Chain() == FoldBlocks(Compress, old(Chain()), old(buffer[..waiting]) + input)
      ensures
        var rest := Tail(old(buffer[..waiting]) + input);
        buffer[..|rest|] == rest
    {
      hide Compress, FoldBlocks, Tail, LoopTestFits;
      ghost var r, pending := Chain(), buffer[..waiting];
      var index, firstpart := waiting, 64 - waiting;
      var i: uint32;
      if |input| >= firstpart {
        MemCpy(buffer, index, input[..firstpart]);
        ghost var block := pending + input[..firstpart];
        assert buffer[..] == block;
        Transform(buffer[..]);
        assert Chain() == Compress(r, block);
        i := TransformBlocks(input, firstpart);
        BlocksThenTail(Compress, r, pending, input, i);
        index := 0;
        assert buffer[..index] + input[i..] == input[i..];
      } else {
        i := 0;
        FoldShort(Compress, r, pending + input);
        assert buffer[..index] + input[i..] == pending + input;
      }
      MemCpy(buffer, index, input[i..]);
    }

    method Update(input: seq<byte>)
      requires Valid() && |input| < WORD
      requires LoopTestFits(|View().pending|, |input|)
      modifies buffer, count, state
      ensures Valid() && View() == Absorb(Compress, old(View()), input)
    {
      hide Compress, FoldBlocks, Tail, LoopTestFits, Add;
      var index := count[0] / 8 % 64;
      ghost var before := View();
      CounterLowWord(count[0], count[1]);
      AddToCount(|input|);
      Feed(input, index);
      CounterLowWord(count[0], count[1]);
      ConsistentAfter(Compress, before, input);
    }

    method StoreDigest()
      requires Valid()
      modifies digest
      ensures View() == old(View()).(digest := RegisterBytes(old(View()).state))
    {
      assert state[..] == [state[0], state[1], state[2], state[3]];
      Encode(digest, state[..]);
    }

    method Finalize()
      requires Valid()
      modifies this`finalized, buffer, count, state, digest
      ensures Valid() && View() == Finish(Compress, RegisterBytes, old(View()))
      ensures finalized && (!old(finalized) ==> count[0] == count[1] == 0 && forall k :: 0 <= k < 64 ==> buffer[k] == 0)
    {
      if !finalized {
        ghost var before := View();
        CounterLowWord(count[0], count[1]);
        var bits := new byte[8];
        Encode(bits, count[..]);
        assert count[..] == [count[0], count[1]];
        LittleEndianPair(count[0], count[1]);
        assert bits[..] == LittleEndian(before.bits, 8);
        var index := count[0] / 8 % 64;
        var padLen := if index < 56 then 56 - index else 120 - index;
        PaddingPrefix(index, padLen);
        assert View() == before;
        Update(PADDING[..padLen]);
        assert View() == Absorb(Compress, before, PaddingFor(|before.pending|));
        assert bits[..] == LittleEndian(before.bits, 8);
        CounterLowWord(count[0], count[1]);
        Update(bits[..]);
        StoreDigest();
        ClearContext();
      }
    }

    /** The end of finalize: buffer and count are zeroed and the object is marked. */
    method ClearContext()
      requires Valid()
      modifies this`finalized, buffer, count
      ensures Valid() && View() == old(View()).(finalized := true, bits := 0, pending := [])
      ensures finalized && count[0] == count[1] == 0 && forall k :: 0 <= k < 64 ==> buffer[k] == 0
    {
      forall k | 0 <= k < 64 {
        buffer[k] := 0;
      }
      count[0], count[1] := 0, 0;
      finalized := true;
    }

    /** The lower-case hexadecimal digest, or the empty string before finalize. */
    method HexDigest() returns (s: seq<byte>)
      requires Valid()
      ensures s == HexOf(View())
      ensures s == if finalized then Hex(digest[..]) else []
    {
      if !finalized {
        return [];
      }
      var buf := new byte[33];
      var i := 0;
      while i < 16
        invariant 0 <= i <= 16
        invariant buf[..2 * i] == Hex(digest[..i])
      {
        ghost var done := buf[..2 * i];
        buf[2 * i], buf[2 * i + 1] := HexDigit(digest[i] / 16), HexDigit(digest[i] % 16);
        HexAppend(digest[..i], digest[i]);
        assert digest[..i + 1] == digest[..i] + [digest[i]];
        assert buf[..2 * (i + 1)] == done + [HexDigit(digest[i] / 16), HexDigit(digest[i] % 16)];
        i := i + 1;
      }
      buf[32] := 0;
      assert digest[..16] == digest[..];
      s := buf[..32];
    }
  }

  /** Each piece in turn fits after the bytes that are waiting. */
  predicate AllFit(waiting: nat, pieces: seq<seq<byte>>)
    requires waiting < 64
    decreases |pieces|
  {
    pieces == [] ||
    (|pieces[0]| < WORD && LoopTestFits(waiting, |pieces[0]|) && AllFit((waiting + |pieces[0]|) % 64, pieces[1..]))
  }

  /** Feeding an object any pieces, one update for each, and finalizing it gives the digest of RFC 1321 of their
      concatenation. */
  method DigestOfPieces(pieces: seq<seq<byte>>) returns (md5: MD5)
    requires AllFit(0, pieces)
    ensures md5.Valid() && md5.finalized && md5.digest[..] == Digest(Concat(pieces))
  {
    hide Absorb, LoopTestFits, Finish;
    md5 := new MD5();
    ghost var start := md5.View();
    var i := 0;
    while i < |pieces|
      invariant 0 <= i <= |pieces| && md5.Valid() && AllFit(|md5.View().pending|, pieces[i..])
      invariant AbsorbAll(Compress, md5.View(), pieces[i..]) == AbsorbAll(Compress, start, pieces)
    {
      AbsorbedPending(Compress, md5.View(), pieces[i]);
      md5.Update(pieces[i]);
      assert pieces[i..][1..] == pieces[i + 1..];
      i := i + 1;
    }
    PiecewiseDigest(start.digest, pieces);
    FinishFinalizes(Compress, RegisterBytes, md5.View());
    md5.Finalize();
  }

  /** The free function md5. */
  method Md5Of(str: seq<byte>) returns (s: seq<byte>)
    requires |str| < WORD && LoopTestFits(0, |str|)
    ensures s == Md5Hex(str)
  {
    var md5 := new MD5.OfText(str);
    s := md5.HexDigest();
  }
}
