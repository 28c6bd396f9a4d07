/** The operations of RFC 1321 on words written as hexadecimal digits, where they can be calculated. */
module HexWords {
  import opened Words
  import opened Md5Step
  import opened Blocks
  import opened Rfc1321

  /** The function of three bits that a round applies at every position. */
  predicate Choice(round: nat, x: bool, y: bool, z: bool) {
    if round == 0 then if x then y else z
    else if round == 1 then if z then x else y
    else if round == 2 then (x == y) == z
    else y != (x || !z)
  }

  function Bits(round: nat, n: nat, x: nat, y: nat, z: nat): nat
    decreases n
  {
    if n == 0 then 0
    else 2 * Bits(round, n - 1, x / 2, y / 2, z / 2) + One(Choice(round, x % 2 == 1, y % 2 == 1, z % 2 == 1))
  }

  function One(b: bool): nat { if b then 1 else 0 }

  lemma {:induction false} BitsBit(round: nat, n: nat, x: nat, y: nat, z: nat, k: nat)
    requires k < n
    ensures Bit(Bits(round, n, x, y, z), k) == Choice(round, Bit(x, k), Bit(y, k), Bit(z, k))
    decreases n
  {
    hide Choice;
    if k > 0 {
      BitsBit(round, n - 1, x / 2, y / 2, z / 2, k - 1);
      assert Bits(round, n, x, y, z) / 2 == Bits(round, n - 1, x / 2, y / 2, z / 2);
    }
  }

  lemma {:induction false} BitsBelow(round: nat, n: nat, x: nat, y: nat, z: nat)
    ensures Bits(round, n, x, y, z) < Pow2(n)
    decreases n
  {
    if n > 0 {
      BitsBelow(round, n - 1, x / 2, y / 2, z / 2);
    }
  }

  lemma {:induction false} SameBits(n: nat, x: nat, y: nat)
    requires x < Pow2(n) && y < Pow2(n) && forall k: nat | k < n :: Bit(x, k) == Bit(y, k)
    ensures x == y
  {
    if n > 0 {
      forall k: nat | k < n - 1 ensures Bit(x / 2, k) == Bit(y / 2, k) {
        assert Bit(x, k + 1) == Bit(y, k + 1);
      }
      SameBits(n - 1, x / 2, y / 2);
      assert Bit(x, 0) == Bit(y, 0);
    }
  }

  lemma FunctionIsBits(i: nat, x: uint32, y: uint32, z: uint32)
    requires i < 64
    ensures Function(i, x, y, z) == Bits(i / 16, 32, x, y, z)
  {
    hide Bits, F, G, H, I, Bit;
    Pow2Values();
    forall k: nat | k < 32 ensures Bit(Function(i, x, y, z), k) == Bit(Bits(i / 16, 32, x, y, z), k) {
      FunctionsByPosition(x, y, z, k);
      BitsBit(i / 16, 32, x, y, z, k);
    }
    BitsBelow(i / 16, 32, x, y, z);
    SameBits(32, Function(i, x, y, z), Bits(i / 16, 32, x, y, z));
  }

  type digit = x: int | 0 <= x < 16

  /** A word by its hexadecimal digits, the highest first. */
  datatype Hex = Hex(h7: digit, h6: digit, h5: digit, h4: digit, h3: digit, h2: digit, h1: digit, h0: digit)

  function Value(w: Hex): uint32 {
    w.h0 + 0x10 * w.h1 + 0x100 * w.h2 + 0x1000 * w.h3 + 0x1_0000 * w.h4 + 0x10_0000 * w.h5 + 0x100_0000 * w.h6 +
    0x1000_0000 * w.h7
  }

  function DigitChoice(round: nat, x: digit, y: digit, z: digit): digit {
    8 * One(Choice(round, x >= 8, y >= 8, z >= 8)) + 4 * One(Choice(round, x % 8 >= 4, y % 8 >= 4, z % 8 >= 4)) +
    2 * One(Choice(round, x % 4 >= 2, y % 4 >= 2, z % 4 >= 2)) + One(Choice(round, x % 2 == 1, y % 2 == 1, z % 2 == 1))
  }

  function HexChoice(round: nat, x: Hex, y: Hex, z: Hex): Hex {
    Hex(DigitChoice(round, x.h7, y.h7, z.h7), DigitChoice(round, x.h6, y.h6, z.h6),
        DigitChoice(round, x.h5, y.h5, z.h5), DigitChoice(round, x.h4, y.h4, z.h4),
        DigitChoice(round, x.h3, y.h3, z.h3), DigitChoice(round, x.h2, y.h2, z.h2),
        DigitChoice(round, x.h1, y.h1, z.h1), DigitChoice(round, x.h0, y.h0, z.h0))
  }

  lemma OneBit(round: nat, n: nat, x: nat, y: nat, z: nat, p: bool, q: bool, r: bool)
    ensures Bits(round, n + 1, 2 * x + One(p), 2 * y + One(q), 2 * z + One(r)) ==
            2 * Bits(round, n, x, y, z) + One(Choice(round, p, q, r))
  {
    hide Choice;
    assert (2 * x + One(p)) / 2 == x && (2 * y + One(q)) / 2 == y && (2 * z + One(r)) / 2 == z;
  }

  function AppendTwo(v: nat, p: bool, q: bool): nat { 2 * (2 * v + One(p)) + One(q) }

  lemma TwoBits(round: nat, n: nat, x: nat, y: nat, z: nat, p: bool, q: bool, r: bool, p': bool, q': bool, r': bool)
    ensures Bits(round, n + 2, AppendTwo(x, p, p'), AppendTwo(y, q, q'), AppendTwo(z, r, r')) ==
            AppendTwo(Bits(round, n, x, y, z), Choice(round, p, q, r), Choice(round, p', q', r'))
  {
    hide Choice, Bits, One;
    OneBit(round, n, x, y, z, p, q, r);
    OneBit(round, n + 1, 2 * x + One(p), 2 * y + One(q), 2 * z + One(r), p', q', r');
  }

  lemma DigitParts(d: digit, v: nat)
    ensures 16 * v + d == AppendTwo(AppendTwo(v, d >= 8, d % 8 >= 4), d % 4 >= 2, d % 2 == 1)
  {
  }

  lemma ChoiceParts(round: nat, x: digit, y: digit, z: digit, v: nat)
    ensures 16 * v + DigitChoice(round, x, y, z) ==
      AppendTwo(AppendTwo(v, Choice(round, x >= 8, y >= 8, z >= 8), Choice(round, x % 8 >= 4, y % 8 >= 4, z % 8 >= 4)),
                Choice(round, x % 4 >= 2, y % 4 >= 2, z % 4 >= 2), Choice(round, x % 2 == 1, y % 2 == 1, z % 2 == 1))
  {
    hide Choice, One;
  }

  lemma OneDigit(round: nat, n: nat, x: digit, y: digit, z: digit, x': nat, y': nat, z': nat)
    ensures Bits(round, n + 4, 16 * x' + x, 16 * y' + y, 16 * z' + z) ==
            16 * Bits(round, n, x', y', z') + DigitChoice(round, x, y, z)
  {
    hide Choice, Bits, One, AppendTwo, DigitChoice;
    DigitParts(x, x');
    DigitParts(y, y');
    DigitParts(z, z');
    ChoiceParts(round, x, y, z, Bits(round, n, x', y', z'));
    TwoBits(round, n, x', y', z', x >= 8, y >= 8, z >= 8, x % 8 >= 4, y % 8 >= 4, z % 8 >= 4);
    TwoBits(round, n + 2, AppendTwo(x', x >= 8, x % 8 >= 4), AppendTwo(y', y >= 8, y % 8 >= 4),
            AppendTwo(z', z >= 8, z % 8 >= 4), x % 4 >= 2, y % 4 >= 2, z % 4 >= 2, x % 2 == 1, y % 2 == 1, z % 2 == 1);
  }

  /** The number of the n highest digits. */
  function Front(w: Hex, n: nat): nat
    requires n <= 8
  {
    if n == 0 then 0 else 16 * Front(w, n - 1) + At(w, n)
  }

  function At(w: Hex, n: nat): digit
    requires 1 <= n <= 8
  {
    match n
    case 1 => w.h7 case 2 => w.h6 case 3 => w.h5 case 4 => w.h4
    case 5 => w.h3 case 6 => w.h2 case 7 => w.h1 case 8 => w.h0
  }

  lemma {:induction false} FrontChoice(round: nat, x: Hex, y: Hex, z: Hex, n: nat)
    requires n <= 8
    ensures Bits(round, 4 * n, Front(x, n), Front(y, n), Front(z, n)) == Front(HexChoice(round, x, y, z), n)
  {
    hide DigitChoice, Bits, HexChoice, At;
    if n == 0 {
      NoBits(round);
    } else {
      FrontChoice(round, x, y, z, n - 1);
      OneDigit(round, 4 * (n - 1), At(x, n), At(y, n), At(z, n), Front(x, n - 1), Front(y, n - 1), Front(z, n - 1));
      ChoiceAt(round, x, y, z, n);
    }
  }

  lemma NoBits(round: nat)
    ensures Bits(round, 0, 0, 0, 0) == 0
  {
  }

  lemma ChoiceAt(round: nat, x: Hex, y: Hex, z: Hex, n: nat)
    requires 1 <= n <= 8
    ensures At(HexChoice(round, x, y, z), n) == DigitChoice(round, At(x, n), At(y, n), At(z, n))
  {
    hide DigitChoice;
  }

  lemma FrontIsValue(w: Hex)
    ensures Front(w, 8) == Value(w)
  {
    assert Front(w, 1) == w.h7;
    assert Front(w, 2) == 0x10 * w.h7 + w.h6;
    assert Front(w, 3) == 16 * Front(w, 2) + w.h5;
    assert Front(w, 4) == 16 * Front(w, 3) + w.h4;
    assert Front(w, 5) == 16 * Front(w, 4) + w.h3;
    assert Front(w, 6) == 16 * Front(w, 5) + w.h2;
    assert Front(w, 7) == 16 * Front(w, 6) + w.h1;
  }

  lemma FunctionOfDigits(i: nat, x: Hex, y: Hex, z: Hex)
    requires i < 64
    ensures Function(i, Value(x), Value(y), Value(z)) == Value(HexChoice(i / 16, x, y, z))
  {
    hide Bits, Front, Value, HexChoice, Function;
    FunctionIsBits(i, Value(x), Value(y), Value(z));
    FrontIsValue(x);
    FrontIsValue(y);
    FrontIsValue(z);
    FrontIsValue(HexChoice(i / 16, x, y, z));
    FrontChoice(i / 16, x, y, z, 8);
  }

  /** Rotation by arithmetic: the low part moves up by p = 2^n, the high part comes in at the bottom. */
  lemma RotateValue(x: uint32, n: nat, p: nat, q: nat)
    requires n <= 32 && p == Pow2(n) && q == Pow2(32 - n)
    ensures RotateLeft(x, n) == x % q * p + x / q
  {
    hide RotateLeft, Pow2;
    Pow2Values();
    Pow2Add(n, 32 - n);
    QuotientBelow(x, p, q);
    RotateSplit(x, n, x / q, x % q);
  }

  lemma QuotientBelow(x: nat, p: nat, q: nat)
    requires q > 0 && x < p * q
    ensures x / q < p && x % q < q && x == x / q * q + x % q
  {
    assert x == q * (x / q) + x % q;
    if x / q >= p {
      MulMonotone(p, x / q, q);
    }
  }

  /** The powers of two that rotations use. */
  function Power(n: nat): nat
    requires n <= 32
  {
    match n
    case 0 => 0x1 case 1 => 0x2 case 2 => 0x4 case 3 => 0x8 case 4 => 0x10 case 5 => 0x20
    case 6 => 0x40 case 7 => 0x80 case 8 => 0x100 case 9 => 0x200 case 10 => 0x400 case 11 => 0x800
    case 12 => 0x1000 case 13 => 0x2000 case 14 => 0x4000 case 15 => 0x8000 case 16 => 0x10000 case 17 => 0x20000
    case 18 => 0x40000 case 19 => 0x80000 case 20 => 0x100000 case 21 => 0x200000 case 22 => 0x400000 case 23 => 0x800000
    case 24 => 0x1000000 case 25 => 0x2000000 case 26 => 0x4000000 case 27 => 0x8000000 case 28 => 0x10000000 case 29 => 0x20000000
    case 30 => 0x40000000 case 31 => 0x80000000 case 32 => 0x100000000
  }

  lemma PowerIs(n: nat)
    requires n <= 32
    ensures Power(n) == Pow2(n)
  {
    if n > 0 {
      PowerIs(n - 1);
    }
  }

  function State(a: Hex, b: Hex, c: Hex, d: Hex): Registers { Registers(Value(a), Value(b), Value(c), Value(d)) }

  lemma AddThree(a: uint32, f: uint32, x: uint32, t: uint32)
    ensures Add(Add(Add(a, f), x), t) == (a + f + x + t) % WORD
  {
    AddMod(a + f, x);
    AddMod(a + f + x, t);
  }

  lemma AddMod(s: nat, y: nat)
    ensures (s % WORD + y) % WORD == (s + y) % WORD
  {
    assert s == WORD * (s / WORD) + s % WORD;
    ModShift(s % WORD + y, s / WORD, WORD);
  }

  /** Operation i with the message word w makes v out of four words. */
  ghost predicate Makes(i: nat, w: uint32, a: Hex, b: Hex, c: Hex, d: Hex, v: Hex)
    requires i < 64
  {
    Mix(Value(a), Function(i, Value(b), Value(c), Value(d)), Value(b), w, Shift(i), T(i)) == Value(v)
  }

  /** Its arithmetic: f is the value of the bit function, k the constant, and the sum without its carry c has the bits
      hi and lo, which rotation swaps; e is the carry of the last addition. */
  lemma Sum(i: nat, w: uint32, a: Hex, b: Hex, f: Hex, k: nat, c: nat, p: nat, q: nat, hi: nat, lo: nat, e: nat, v: Hex)
    requires i < 64 && T(i) == k && Power(Shift(i)) == p && Power(32 - Shift(i)) == q
    requires Value(a) + Value(f) + w + k == c * 0x1_0000_0000 + hi * q + lo && hi < p && lo < q
    requires lo * p + hi + Value(b) == e * 0x1_0000_0000 + Value(v)
    ensures Mix(Value(a), Value(f), Value(b), w, Shift(i), T(i)) == Value(v)
  {
    hide T, Shift, RotateLeft, Pow2, Power, Value;
    AddThree(Value(a), Value(f), w, T(i));
    PowerIs(Shift(i));
    PowerIs(32 - Shift(i));
    TwoParts(Shift(i), p, q, hi, lo);
    CarryOff(Value(a) + Value(f) + w + k, c, hi * q + lo);
    CarryOff(lo * p + hi + Value(b), e, Value(v));
  }

  lemma CarryOff(sum: nat, carry: nat, x: uint32)
    requires sum == carry * 0x1_0000_0000 + x
    ensures sum % WORD == x
  {
    DivModUnique(sum, WORD, carry, x);
  }

  lemma TwoParts(n: nat, p: nat, q: nat, hi: nat, lo: nat)
    requires n <= 32 && p == Pow2(n) && q == Pow2(32 - n) && hi < p && lo < q
    ensures hi * q + lo < WORD && lo * p + hi < WORD && RotateLeft(hi * q + lo, n) == lo * p + hi
  {
    hide RotateLeft, Pow2;
    Pow2Values();
    Pow2Add(n, 32 - n);
    SplitArithmetic(p, q, hi, lo);
    MulMonotone(hi + 1, p, q);
    assert (hi + 1) * q == hi * q + q;
    RotateSplit(hi * q + lo, n, hi, lo);
  }

  lemma Certify(i: nat, w: uint32, a: Hex, b: Hex, c: Hex, d: Hex, f: Hex, k: nat, c': nat,
                p: nat, q: nat, hi: nat, lo: nat, e: nat, v: Hex)
    requires i < 64 && HexChoice(i / 16, b, c, d) == f && T(i) == k && Power(Shift(i)) == p && Power(32 - Shift(i)) == q
    requires Value(a) + Value(f) + w + k == c' * 0x1_0000_0000 + hi * q + lo && hi < p && lo < q
    requires lo * p + hi + Value(b) == e * 0x1_0000_0000 + Value(v)
    ensures Makes(i, w, a, b, c, d, v)
  {
    hide T, Shift, Power, Value, HexChoice, Function, Mix;
    FunctionOfDigits(i, b, c, d);
    Sum(i, w, a, b, f, k, c', p, q, hi, lo, e, v);
  }

  lemma Operate(i: nat, x: seq<uint32>, a: Hex, b: Hex, c: Hex, d: Hex, v: Hex)
    requires i < 64 && |x| == 16 && Rounds(i, IV, x) == State(a, b, c, d)
    requires Makes(i, x[WordIndex(i)], a, b, c, d, v)
    ensures Rounds(i + 1, IV, x) == State(d, v, b, c)
  {
    hide Value, Function, T, Shift, WordIndex, Mix;
    assert Rounds(i + 1, IV, x) == Step(i, Rounds(i, IV, x), x);
    hide Rounds;
  }
}
