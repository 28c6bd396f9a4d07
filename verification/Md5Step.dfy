/** The bit functions of md5.cpp and the four step functions, which add, rotate and add again. */
module Md5Step {
  import opened Words

  function F(x: uint32, y: uint32, z: uint32): uint32 { Or(And(x, y), And(Not(x), z)) }

  function G(x: uint32, y: uint32, z: uint32): uint32 { Or(And(x, z), And(y, Not(z))) }

  function H(x: uint32, y: uint32, z: uint32): uint32 { Xor(Xor(x, y), z) }

  function I(x: uint32, y: uint32, z: uint32): uint32 { Xor(y, Or(x, Not(z))) }

  /** F chooses y or z by x, G chooses x or y by z, H is the parity, I is y flipped where x holds or z does not. */
  lemma FunctionsByPosition(x: uint32, y: uint32, z: uint32, k: nat)
    requires k < 32
    ensures Bit(F(x, y, z), k) == if Bit(x, k) then Bit(y, k) else Bit(z, k)
    ensures Bit(G(x, y, z), k) == if Bit(z, k) then Bit(x, k) else Bit(y, k)
    ensures Bit(H(x, y, z), k) == ((Bit(x, k) == Bit(y, k)) == Bit(z, k))
    ensures Bit(I(x, y, z), k) == (Bit(y, k) != (Bit(x, k) || !Bit(z, k)))
  {
    var and, or, xor, not := (p, q) => p && q, (p, q) => p || q, (p, q) => p != q, (p: bool, q: bool) => !p;
    BitwiseBit(not, 32, x, 0, k);
    BitwiseBit(not, 32, z, 0, k);
    BitwiseBit(and, 32, x, y, k);
    BitwiseBit(and, 32, Not(x), z, k);
    BitwiseBit(and, 32, x, z, k);
    BitwiseBit(and, 32, y, Not(z), k);
    BitwiseBit(or, 32, And(x, y), And(Not(x), z), k);
    BitwiseBit(or, 32, And(x, z), And(y, Not(z)), k);
    BitwiseBit(xor, 32, x, y, k);
    BitwiseBit(xor, 32, Xor(x, y), z, k);
    BitwiseBit(or, 32, x, Not(z), k);
    BitwiseBit(xor, 32, y, Or(x, Not(z)), k);
  }

  function RotateLeft(x: uint32, n: nat): uint32
    requires n <= 32
  {
    Or(Shl(x, n), Shr(x, 32 - n))
  }

  function RotateRight(x: uint32, n: nat): uint32
    requires n <= 32
  {
    Or(Shr(x, n), Shl(x, 32 - n))
  }

  function FF(a: uint32, b: uint32, c: uint32, d: uint32, x: uint32, s: nat, ac: uint32): uint32
    requires s <= 32
  {
    Add(RotateLeft(Add(Add(Add(a, F(b, c, d)), x), ac), s), b)
  }

  function GG(a: uint32, b: uint32, c: uint32, d: uint32, x: uint32, s: nat, ac: uint32): uint32
    requires s <= 32
  {
    Add(RotateLeft(Add(Add(Add(a, G(b, c, d)), x), ac), s), b)
  }

  function HH(a: uint32, b: uint32, c: uint32, d: uint32, x: uint32, s: nat, ac: uint32): uint32
    requires s <= 32
  {
    Add(RotateLeft(Add(Add(Add(a, H(b, c, d)), x), ac), s), b)
  }

  function II(a: uint32, b: uint32, c: uint32, d: uint32, x: uint32, s: nat, ac: uint32): uint32
    requires s <= 32
  {
    Add(RotateLeft(Add(Add(Add(a, I(b, c, d)), x), ac), s), b)
  }

  lemma SplitArithmetic(p: nat, q: nat, hi: nat, lo: nat)
    requires p * q == WORD && hi < p && lo < q
    ensures (hi * q + lo) / q == hi
    ensures ((hi * q + lo) * p) % WORD == lo * p
    ensures lo * p + hi < WORD
  {
    DivModUnique(hi * q + lo, q, hi, lo);
    assert lo * p + p <= WORD by {
      MulMonotone(lo + 1, q, p);
      assert (lo + 1) * p == lo * p + p;
    }
    assert (hi * q + lo) * p == hi * WORD + lo * p by {
      assert (hi * q + lo) * p == (hi * q) * p + lo * p;
      MulAssoc(hi, q, p);
    }
    DivModUnique((hi * q + lo) * p, WORD, hi, lo * p);
  }

  /** A word splits at position 32 - n into halves that rotation swaps. */
  lemma RotateSplit(x: uint32, n: nat, hi: nat, lo: nat)
    requires n <= 32 && hi < Pow2(n) && lo < Pow2(32 - n)
    requires x == hi * Pow2(32 - n) + lo
    ensures RotateLeft(x, n) == RotateRight(x, 32 - n) == lo * Pow2(n) + hi
  {
    Pow2Values();
    Pow2Add(n, 32 - n);
    SplitArithmetic(Pow2(n), Pow2(32 - n), hi, lo);
    ShlValue(x, n);
    ShrValue(x, 32 - n);
    DisjointOr(32, n, lo, hi);
    assert Shl(x, n) == lo * Pow2(n) && Shr(x, 32 - n) == hi;
  }

  /** Rotation left by n and rotation right by n undo each other. */
  lemma RotateInverse(x: uint32, n: nat)
    requires n <= 32
    ensures RotateRight(RotateLeft(x, n), n) == x
    ensures RotateLeft(RotateRight(x, n), n) == x
  {
    RotateRoundTrip(x, n);
    RotateRoundTrip(x, 32 - n);
  }

  lemma RotateRoundTrip(x: uint32, n: nat)
    requires n <= 32
    ensures RotateRight(RotateLeft(x, n), n) == x
    ensures RotateLeft(RotateRight(x, 32 - n), 32 - n) == x
  {
    var hi, lo := SplitWord(x, n);
    RotateSplit(x, n, hi, lo);
    RotateSplit(RotateLeft(x, n), 32 - n, lo, hi);
  }

  lemma SplitWord(x: uint32, n: nat) returns (hi: nat, lo: nat)
    requires n <= 32
    ensures hi < Pow2(n) && lo < Pow2(32 - n) && x == hi * Pow2(32 - n) + lo
  {
    Pow2Values();
    Pow2Add(n, 32 - n);
    var p, q := Pow2(n), Pow2(32 - n);
    hi, lo := SplitByQuotient(x, p, q);
  }

  lemma SplitByQuotient(x: nat, p: nat, q: nat) returns (hi: nat, lo: nat)
    requires q > 0 && x < p * q
    ensures hi < p && lo < q && x == hi * q + lo
  {
    hi, lo := x / q, x % q;
    assert x == q * hi + lo;
    if hi < 0 {
      MulMonotone(hi, -1, q);
      assert false;
    }
    if hi >= p {
      MulMonotone(p, hi, q);
      assert false;
    }
  }

  /** The common shape of FF, GG, HH and II, with f for the value of the bit function, and its inverse in a. */
  function Mix(a: uint32, f: uint32, b: uint32, x: uint32, s: nat, ac: uint32): uint32
    requires s <= 32
  {
    Add(RotateLeft(Add(Add(Add(a, f), x), ac), s), b)
  }

  function Unmix(r: uint32, f: uint32, b: uint32, x: uint32, s: nat, ac: uint32): uint32
    requires s <= 32
  {
    Sub(Sub(Sub(RotateRight(Sub(r, b), s), ac), x), f)
  }

  lemma AddSub(x: uint32, y: uint32)
    ensures Sub(Add(x, y), y) == x
    ensures Add(Sub(x, y), y) == x
  {
  }

  lemma MixInverse(a: uint32, f: uint32, b: uint32, x: uint32, s: nat, ac: uint32)
    requires s <= 32
    ensures Unmix(Mix(a, f, b, x, s, ac), f, b, x, s, ac) == a
    ensures Mix(Unmix(a, f, b, x, s, ac), f, b, x, s, ac) == a
  {
    var t := Add(Add(Add(a, f), x), ac);
    RotateInverse(t, s);
    AddSub(RotateLeft(t, s), b);
    AddSub(Add(Add(a, f), x), ac);
    AddSub(Add(a, f), x);
    AddSub(a, f);
    var u := RotateRight(Sub(a, b), s);
    AddSub(Sub(Sub(u, ac), x), f);
    AddSub(Sub(u, ac), x);
    AddSub(u, ac);
    RotateInverse(Sub(a, b), s);
    AddSub(a, b);
  }
}
