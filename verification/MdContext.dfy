/** A hashing context in which input arrives in pieces, and its agreement with the one-shot digest of RFC 1321.
    R is the type of the chaining value and f the compression function. */
module MdContext {
  import opened Words
  import opened Blocks
  import opened Rfc1321

  /** bits counts modulo 2^64; pending is the input since the last whole block. */
  datatype Context<R> = Context(finalized: bool, bits: uint64, pending: seq<byte>, state: R, digest: seq<byte>)

  predicate Consistent<R>(c: Context<R>) {
    |c.pending| == c.bits / 8 % 64
  }

  function Initial<R>(iv: R, digest: seq<byte>): Context<R> { Context(false, 0, [], iv, digest) }

  function Absorb<R>(f: (R, Block) -> R, c: Context<R>, input: seq<byte>): Context<R> {
    var m := c.pending + input;
    c.(bits := (c.bits + 8 * |input|) % M64, pending := Tail(m), state := FoldBlocks(f, c.state, m))
  }

  function AbsorbAll<R>(f: (R, Block) -> R, c: Context<R>, pieces: seq<seq<byte>>): Context<R>
    decreases |pieces|
  {
    if pieces == [] then c else AbsorbAll(f, Absorb(f, c, pieces[0]), pieces[1..])
  }

  function Concat(pieces: seq<seq<byte>>): seq<byte> {
    if pieces == [] then [] else pieces[0] + Concat(pieces[1..])
  }

  const PADDING: seq<byte> := [0x80] + Zeros(63)

  /** The padding that takes a message with `pending` bytes in its last block to 56 bytes modulo 64. */
  function PaddingFor(pending: nat): seq<byte> { [0x80] + Zeros((55 - pending) % 64) }

  /** The context after padding, length and the output of the chaining value, which is then kept for good. */
  function Finish<R>(f: (R, Block) -> R, output: R -> seq<byte>, c: Context<R>): Context<R> {
    if c.finalized then c
    else
      var padded := Absorb(f, Absorb(f, c, PaddingFor(|c.pending|)), LittleEndian(c.bits, 8));
      Context(true, 0, [], padded.state, output(padded.state))
  }

  /** The context after the bytes `fed`: the class invariant of MD5 between init and finalize. */
  ghost predicate Holds<R>(f: (R, Block) -> R, iv: R, c: Context<R>, fed: seq<byte>) {
    c.bits == 8 * |fed| % M64 && c.pending == Tail(fed) && c.state == FoldBlocks(f, iv, fed)
  }

  // Remainders modulo 64 and modulo 2^64.

  lemma ModAdd(x: nat, y: nat, m: nat)
    requires m > 0
    ensures (x % m + y) % m == (x + y) % m
  {
    assert x == m * (x / m) + x % m;
    ModShift(x % m + y, x / m, m);
  }

  lemma EighthMod(bits: nat)
    ensures (bits % M64) / 8 % 64 == bits / 8 % 64
  {
    var k := bits / M64;
    assert bits / 8 == (bits % M64) / 8 + 0x2000_0000_0000_0000 * k;
    ModShift((bits % M64) / 8, 0x80_0000_0000_0000 * k, 64);
  }

  /** The low word of the counter alone gives the number of waiting bytes. */
  lemma CounterLowWord(lo: uint32, hi: uint32)
    ensures (lo + WORD * hi) / 8 % 64 == lo / 8 % 64
    ensures lo + WORD * hi < M64
  {
    ModShift(lo / 8, 0x80_0000 * hi, 64);
    assert (lo + WORD * hi) / 8 == lo / 8 + 0x2000_0000 * hi;
  }

  lemma ConsistentAfter<R>(f: (R, Block) -> R, c: Context<R>, input: seq<byte>)
    requires Consistent(c)
    ensures Consistent(Absorb(f, c, input))
  {
    EighthMod(c.bits + 8 * |input|);
    assert (c.bits + 8 * |input|) / 8 == c.bits / 8 + |input|;
    ModAdd(c.bits / 8, |input|, 64);
  }

  lemma HighWordSum(hi: uint32, q: uint32, c: nat)
    requires c <= 1
    ensures Add(if c == 1 then Add(hi, 1) else hi, q) == (hi + q + c) % WORD
  {
  }

  lemma CarryShows(lo: uint32, s: uint32)
    ensures Add(lo, s) < s <==> lo + s >= WORD
    ensures lo + s == Add(lo, s) + (if lo + s >= WORD then WORD else 0)
  {
  }

  lemma JoinWords(low: uint32, high: nat)
    ensures low + WORD * (high % WORD) == (low + WORD * high) % M64
  {
    var q, t := high / WORD, high % WORD;
    assert low + WORD * high == q * M64 + (low + WORD * t);
    DivModUnique(low + WORD * high, M64, q, low + WORD * t);
  }

  /** The two-word addition of update, carry included. */
  lemma CounterSum(lo: uint32, hi: uint32, length: uint32)
    ensures
      var low := Add(lo, Shl(length, 3));
      var carried := if low < Shl(length, 3) then Add(hi, 1) else hi;
      low + WORD * Add(carried, Shr(length, 29)) == (lo + WORD * hi + 8 * length) % M64
  {
    var s: uint32, q: uint32 := 8 * length % WORD, length / 0x2000_0000;
    hide Shl, Shr, Add;
    BitsOfLength(length);
    CarryShows(lo, s);
    var c := if lo + s >= WORD then 1 else 0;
    HighWordSum(hi, q, c);
    JoinWords(Add(lo, s), hi + q + c);
    assert Add(lo, s) + WORD * (hi + q + c) == lo + WORD * hi + 8 * length;
  }

  /** The shifts of length are the two words of 8 * length. */
  lemma BitsOfLength(length: uint32)
    ensures Shl(length, 3) == 8 * length % WORD && Shr(length, 29) == length / 0x2000_0000
    ensures 8 * length == Shl(length, 3) + WORD * Shr(length, 29)
  {
    hide Shl, Shr, Pow2;
    SmallPowers();
    ShlValue(length, 3);
    ShrValue(length, 29);
  }

  lemma SmallPowers()
    ensures Pow2(3) == 8 && Pow2(29) == 0x2000_0000
  {
    Pow2Values();
    Pow2Add(5, 24);
    assert Pow2(5) == 32;
  }

  // Input in pieces.

  /** Every update keeps the invariant, for the bytes fed before followed by the new ones. */
  lemma AbsorbHolds<R>(f: (R, Block) -> R, iv: R, c: Context<R>, fed: seq<byte>, input: seq<byte>)
    requires Holds(f, iv, c, fed)
    ensures Holds(f, iv, Absorb(f, c, input), fed + input)
    ensures Absorb(f, c, input).finalized == c.finalized
  {
    FoldInTwo(f, iv, fed, input);
    ModAdd(8 * |fed|, 8 * |input|, M64);
  }

  lemma {:induction false} AbsorbAllHolds<R>(f: (R, Block) -> R, iv: R, c: Context<R>, fed: seq<byte>,
                                             pieces: seq<seq<byte>>)
    requires Holds(f, iv, c, fed)
    ensures Holds(f, iv, AbsorbAll(f, c, pieces), fed + Concat(pieces))
    ensures AbsorbAll(f, c, pieces).finalized == c.finalized
    decreases |pieces|
  {
    if pieces == [] {
      assert fed + Concat(pieces) == fed;
    } else {
      AbsorbHolds(f, iv, c, fed, pieces[0]);
      AbsorbAllHolds(f, iv, Absorb(f, c, pieces[0]), fed + pieces[0], pieces[1..]);
      assert fed + Concat(pieces) == fed + pieces[0] + Concat(pieces[1..]);
    }
  }

  lemma Flatten<T>(a: seq<T>, b: seq<T>, c: seq<T>, d: seq<T>)
    ensures a + (b + c) + d == a + b + c + d
  {
  }

  lemma PaddedMessage(fed: seq<byte>, pending: nat, bits: nat)
    requires pending == |fed| % 64 && bits == 8 * |fed| % M64
    ensures fed + PaddingFor(pending) + LittleEndian(bits, 8) == Pad(fed)
  {
    ModShift(55 - |fed|, |fed| / 64, 64);
    assert 64 * (|fed| / 64) + (55 - |fed|) == 55 - pending;
    Flatten(fed, [0x80], Zeros((55 - |fed|) % 64), LittleEndian(bits, 8));
  }

  lemma FinishFoldsPadded<R>(f: (R, Block) -> R, iv: R, output: R -> seq<byte>, c: Context<R>, fed: seq<byte>)
    requires Holds(f, iv, c, fed) && !c.finalized
    ensures Finish(f, output, c).digest == output(FoldBlocks(f, iv, Pad(fed)))
  {
    var pad, length := PaddingFor(|c.pending|), LittleEndian(c.bits, 8);
    AbsorbHolds(f, iv, c, fed, pad);
    AbsorbHolds(f, iv, Absorb(f, c, pad), fed + pad, length);
    PaddedMessage(fed, |c.pending|, c.bits);
  }

  lemma PiecesFoldPadded<R>(f: (R, Block) -> R, iv: R, output: R -> seq<byte>, digest: seq<byte>,
                            pieces: seq<seq<byte>>)
    ensures Finish(f, output, AbsorbAll(f, Initial(iv, digest), pieces)).digest ==
            output(FoldBlocks(f, iv, Pad(Concat(pieces))))
  {
    var fed: seq<byte> := [];
    assert Holds(f, iv, Initial(iv, digest), fed);
    AbsorbAllHolds(f, iv, Initial(iv, digest), fed, pieces);
    assert fed + Concat(pieces) == Concat(pieces);
    FinishFoldsPadded(f, iv, output, AbsorbAll(f, Initial(iv, digest), pieces), Concat(pieces));
  }

  /** For every cutting of the input into pieces, update by update and finalize give the one-shot digest. */
  lemma PiecewiseDigest(digest: seq<byte>, pieces: seq<seq<byte>>)
    ensures Finish(Compress, RegisterBytes, AbsorbAll(Compress, Initial(IV, digest), pieces)).digest ==
            Digest(Concat(pieces))
  {
    PiecesFoldPadded(Compress, IV, RegisterBytes, digest, pieces);
  }

  lemma OnePiece<R>(f: (R, Block) -> R, c: Context<R>, input: seq<byte>)
    ensures AbsorbAll(f, c, [input]) == Absorb(f, c, input) && Concat([input]) == input
  {
    assert AbsorbAll(f, Absorb(f, c, input), []) == Absorb(f, c, input);
    assert Concat([input]) == input + Concat([]);
  }

  /** How many bytes wait after an update. */
  lemma AbsorbedPending<R>(f: (R, Block) -> R, c: Context<R>, input: seq<byte>)
    ensures |Absorb(f, c, input).pending| == (|c.pending| + |input|) % 64
  {
  }

  lemma FinishFinalizes<R>(f: (R, Block) -> R, output: R -> seq<byte>, c: Context<R>)
    ensures Finish(f, output, c).finalized
  {
  }

  // Hexadecimal digests.

  function HexDigit(n: nat): byte
    requires n < 16
  {
    if n < 10 then 48 + n else 87 + n
  }

  function Hex(m: seq<byte>): (s: seq<byte>)
    ensures |s| == 2 * |m|
  {
    if m == [] then [] else [HexDigit(m[0] / 16), HexDigit(m[0] % 16)] + Hex(m[1..])
  }

  function HexOf<R>(c: Context<R>): seq<byte> { if c.finalized then Hex(c.digest) else [] }

  /** The string md5 returns for a text. */
  function Md5Hex(m: seq<byte>): (s: seq<byte>)
    ensures |s| == 32
  {
    Hex(Digest(m))
  }

  lemma {:induction false} HexAppend(m: seq<byte>, b: byte)
    ensures Hex(m + [b]) == Hex(m) + [HexDigit(b / 16), HexDigit(b % 16)]
  {
    if m == [] {
      assert Hex([b]) == [HexDigit(b / 16), HexDigit(b % 16)] + Hex([]);
    } else {
      assert (m + [b])[1..] == m[1..] + [b];
      HexAppend(m[1..], b);
    }
  }

  /** The two characters of byte i, high half first: 0 to 9 are 48 to 57, a to f are 97 to 102. */
  lemma {:induction false} HexAt(m: seq<byte>, i: nat)
    requires i < |m|
    ensures Hex(m)[2 * i] == if m[i] / 16 < 10 then 48 + m[i] / 16 else 97 + (m[i] / 16 - 10)
    ensures Hex(m)[2 * i + 1] == if m[i] % 16 < 10 then 48 + m[i] % 16 else 97 + (m[i] % 16 - 10)
  {
    if i > 0 {
      HexAt(m[1..], i - 1);
    }
  }

  predicate LowerHex(c: byte) { 48 <= c <= 57 || 97 <= c <= 102 }

  function DigitValue(c: byte): (n: nat)
    requires LowerHex(c)
    ensures n < 16
  {
    if c <= 57 then c - 48 else c - 87
  }

  function Unhex(s: seq<byte>): seq<byte>
    requires |s| % 2 == 0 && forall c :: c in s ==> LowerHex(c)
  {
    if s == [] then [] else [16 * DigitValue(s[0]) + DigitValue(s[1])] + Unhex(s[2..])
  }

  /** Hexadecimal output is lower-case digits only and loses nothing. */
  lemma {:induction false} HexRoundTrip(m: seq<byte>)
    ensures forall c :: c in Hex(m) ==> LowerHex(c)
    ensures Unhex(Hex(m)) == m
  {
    if m == [] {
    } else {
      HexRoundTrip(m[1..]);
      DigitRoundTrip(m[0] / 16);
      DigitRoundTrip(m[0] % 16);
      hide HexDigit, LowerHex, DigitValue;
      assert Hex(m)[2..] == Hex(m[1..]);
      assert Unhex(Hex(m)) == [16 * (m[0] / 16) + m[0] % 16] + Unhex(Hex(m[1..]));
      assert [m[0]] + m[1..] == m;
    }
  }

  lemma DigitRoundTrip(n: nat)
    requires n < 16
    ensures LowerHex(HexDigit(n)) && DigitValue(HexDigit(n)) == n
  {
  }

  /** A call of update or of finalize. */
  datatype Call = Update(input: seq<byte>) | Finalize

  function Perform<R>(f: (R, Block) -> R, output: R -> seq<byte>, c: Context<R>, calls: seq<Call>): Context<R>
    decreases |calls|
  {
    if calls == [] then c
    else
      var next := if calls[0].Finalize? then Finish(f, output, c) else Absorb(f, c, calls[0].input);
      Perform(f, output, next, calls[1..])
  }

  /** After finalize no sequence of calls changes the digest that is printed. */
  lemma {:induction false} DigestIsFinal<R>(f: (R, Block) -> R, output: R -> seq<byte>, c: Context<R>,
                                            calls: seq<Call>)
    requires c.finalized
    ensures Perform(f, output, c, calls).finalized && HexOf(Perform(f, output, c, calls)) == HexOf(c)
    decreases |calls|
  {
    if calls == [] {
    } else {
      var next := if calls[0].Finalize? then Finish(f, output, c) else Absorb(f, c, calls[0].input);
      DigestIsFinal(f, output, next, calls[1..]);
    }
  }
}
