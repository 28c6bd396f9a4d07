/** Bytes, 32-bit words and the C++ operators on them.  `unsigned int` wraps modulo 2^32, a shift is a
    multiplication or a division by a power of two, and the bitwise operators work position by position. */
module Words {
  const WORD := 0x1_0000_0000
  const M64 := 0x1_0000_0000_0000_0000

  type byte = x: int | 0 <= x < 0x100
  type uint32 = x: int | 0 <= x < 0x1_0000_0000
  type uint64 = x: int | 0 <= x < 0x1_0000_0000_0000_0000

  /** A number converted to a 32-bit int. */
  function AsInt32(n: nat): (i: int)
    ensures n < 0x8000_0000 ==> i == n
    ensures -0x8000_0000 <= i < 0x8000_0000
  {
    if n % WORD < 0x8000_0000 then n % WORD else n % WORD - WORD
  }

  function Pow2(n: nat): (r: nat)
    ensures r > 0
  {
    if n == 0 then 1 else 2 * Pow2(n - 1)
  }

  lemma {:induction false} Pow2Add(m: nat, n: nat)
    ensures Pow2(m + n) == Pow2(m) * Pow2(n)
  {
    if m == 0 {
    } else {
      Pow2Add(m - 1, n);
      assert Pow2(m + n) == 2 * Pow2(m - 1 + n);
      MulAssoc(2, Pow2(m - 1), Pow2(n));
    }
  }

  lemma Pow2Values()
    ensures Pow2(8) == 0x100 && Pow2(16) == 0x1_0000 && Pow2(24) == 0x100_0000 && Pow2(32) == 0x1_0000_0000
  {
    Pow2Add(8, 8);
    Pow2Add(16, 8);
    Pow2Add(16, 16);
    assert Pow2(8) == 0x100 by { assert Pow2(4) == 16; Pow2Add(4, 4); }
  }

  /** The bit of weight 2^k. */
  predicate Bit(x: nat, k: nat) {
    if k == 0 then x % 2 == 1 else Bit(x / 2, k - 1)
  }

  /** The number whose n low bits are op of the bits of x and y in the same position. */
  function Bitwise(op: (bool, bool) -> bool, n: nat, x: nat, y: nat): (r: nat)
    ensures r < Pow2(n)
  {
    if n == 0 then 0
    else 2 * Bitwise(op, n - 1, x / 2, y / 2) + (if op(x % 2 == 1, y % 2 == 1) then 1 else 0)
  }

  lemma {:induction false} BitwiseBit(op: (bool, bool) -> bool, n: nat, x: nat, y: nat, k: nat)
    requires k < n
    ensures Bit(Bitwise(op, n, x, y), k) == op(Bit(x, k), Bit(y, k))
  {
    if k == 0 {
    } else {
      BitwiseBit(op, n - 1, x / 2, y / 2, k - 1);
      assert Bitwise(op, n, x, y) / 2 == Bitwise(op, n - 1, x / 2, y / 2);
    }
  }

  function Bitwise32(op: (bool, bool) -> bool, x: uint32, y: uint32): uint32 {
    Pow2Values();
    Bitwise(op, 32, x, y)
  }

  function And(x: uint32, y: uint32): uint32 { Bitwise32((p, q) => p && q, x, y) }

  function Or(x: uint32, y: uint32): uint32 { Bitwise32((p, q) => p || q, x, y) }

  function Xor(x: uint32, y: uint32): uint32 { Bitwise32((p, q) => p != q, x, y) }

  function Not(x: uint32): uint32 { Bitwise32((p, q) => !p, x, 0) }

  function Add(x: uint32, y: uint32): uint32 { (x + y) % WORD }

  function Sub(x: uint32, y: uint32): uint32 { (x - y) % WORD }

  /** Shifts move the bits by one position n times; the bits pushed out at either end are lost. */
  function Shl(x: uint32, n: nat): uint32
    decreases n
  {
    if n == 0 then x else Shl((2 * x) % WORD, n - 1)
  }

  function Shr(x: uint32, n: nat): uint32
    decreases n
  {
    if n == 0 then x else Shr(x / 2, n - 1)
  }

  /** A left shift multiplies by 2^n modulo 2^32. */
  lemma {:induction false} ShlValue(x: uint32, n: nat)
    ensures Shl(x, n) == (x * Pow2(n)) % WORD
    decreases n
  {
    if n == 0 {
    } else {
      ShlValue((2 * x) % WORD, n - 1);
      DoubledMod(x, Pow2(n - 1), WORD);
    }
  }

  lemma DoubledMod(x: nat, p: nat, m: nat)
    requires m > 0
    ensures (x * (2 * p)) % m == ((2 * x) % m * p) % m
  {
    var q, r := (2 * x) / m, (2 * x) % m;
    assert 2 * x == m * q + r;
    assert x * (2 * p) == (2 * x) * p == (m * q + r) * p == m * q * p + r * p;
    MulAssoc(m, q, p);
    ModShift(r * p, q * p, m);
  }

  /** A right shift divides by 2^n. */
  lemma {:induction false} ShrValue(x: uint32, n: nat)
    ensures Shr(x, n) == x / Pow2(n)
    decreases n
  {
    if n == 0 {
    } else {
      ShrValue(x / 2, n - 1);
      var p := Pow2(n - 1);
      var q, r := (x / 2) / p, (x / 2) % p;
      assert x / 2 == p * q + r;
      assert x == q * (2 * p) + (2 * r + x % 2) by { assert q * (2 * p) == 2 * (p * q); }
      DivModUnique(x, 2 * p, q, 2 * r + x % 2);
    }
  }

  // Arithmetic that the solver is not left to find.

  lemma MulAssoc(x: int, y: int, z: int)
    ensures (x * y) * z == x * (y * z)
  {
  }

  lemma MulMonotone(x: int, y: int, m: nat)
    requires x <= y
    ensures m * x <= m * y && x * m <= y * m
  {
  }

  /** Quotient and remainder are determined by the division equation. */
  lemma DivModUnique(x: int, m: int, q: int, r: int)
    requires x == q * m + r && 0 <= r < m
    ensures x / m == q && x % m == r
  {
    var d := x / m - q;
    assert x == m * (x / m) + x % m;
    assert m * d == r - x % m by { assert m * (x / m) - q * m == m * d; }
    if d >= 1 {
      MulMonotone(1, d, m);
    } else if d <= -1 {
      MulMonotone(d, -1, m);
    }
  }

  lemma ModShift(x: int, k: int, m: nat)
    requires m > 0
    ensures (m * k + x) % m == x % m
  {
    var q, r := x / m, x % m;
    assert m * k + x == (q + k) * m + r by { assert (q + k) * m == m * q + m * k; }
    DivModUnique(m * k + x, m, q + k, r);
  }

  /** Or of numbers that share no bit is their sum: a in the positions from n up, b in those below. */
  lemma {:induction false} DisjointOr(w: nat, n: nat, a: nat, b: nat)
    requires n <= w && b < Pow2(n) && a < Pow2(w - n)
    ensures Bitwise((p, q) => p || q, w, a * Pow2(n), b) == a * Pow2(n) + b
    ensures Bitwise((p, q) => p || q, w, b, a * Pow2(n)) == a * Pow2(n) + b
  {
    if n == 0 {
      OrZero(w, a);
    } else {
      MulAssoc(2, a, Pow2(n - 1));
      var s := a * Pow2(n - 1);
      assert a * Pow2(n) == 2 * s;
      DisjointOr(w - 1, n - 1, a, b / 2);
      assert (2 * s) / 2 == s && (2 * s) % 2 == 0;
    }
  }

  lemma {:induction false} OrZero(w: nat, a: nat)
    requires a < Pow2(w)
    ensures Bitwise((p, q) => p || q, w, a, 0) == a
    ensures Bitwise((p, q) => p || q, w, 0, a) == a
  {
    if w == 0 {
    } else {
      OrZero(w - 1, a / 2);
    }
  }

  lemma AndOddMask(w: nat, x: nat, m: nat)
    requires w > 0 && m > 0
    ensures Bitwise((p, q) => p && q, w, x, 2 * m - 1) == 2 * Bitwise((p, q) => p && q, w - 1, x / 2, m - 1) + x % 2
  {
    assert (2 * m - 1) / 2 == m - 1 && (2 * m - 1) % 2 == 1;
  }

  lemma {:induction false} AndZero(w: nat, x: nat)
    ensures Bitwise((p, q) => p && q, w, x, 0) == 0
  {
    if w == 0 {
    } else {
      AndZero(w - 1, x / 2);
    }
  }

  /** And with 2^n - 1 keeps the n low bits. */
  lemma {:induction false} AndMask(w: nat, n: nat, x: nat, m: nat)
    requires n <= w && m == Pow2(n)
    ensures Bitwise((p, q) => p && q, w, x, m - 1) == x % m
    decreases n
  {
    if n == 0 {
      AndZero(w, x);
      DivModUnique(x, 1, x, 0);
    } else {
      var h := Pow2(n - 1);
      AndMask(w - 1, n - 1, x / 2, h);
      AndOddMask(w, x, h);
      ModHalf(x, h);
      assert m == 2 * h;
    }
  }

  lemma ModHalf(x: nat, m: nat)
    requires m > 0
    ensures x % (2 * m) == 2 * ((x / 2) % m) + x % 2
  {
    var q, r := (x / 2) / m, (x / 2) % m;
    assert x / 2 == m * q + r;
    assert x == q * (2 * m) + (2 * r + x % 2) by { assert q * (2 * m) == 2 * (m * q); }
    DivModUnique(x, 2 * m, q, 2 * r + x % 2);
  }
}
