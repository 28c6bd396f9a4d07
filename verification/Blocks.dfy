/** Byte sequences cut into 64-byte blocks, and the iteration of a compression function over them.  The function
    is a parameter, so nothing here depends on what it computes. */
module Blocks {
  import opened Words

  type Block = b: seq<byte> | |b| == 64 witness seq(64, _ => 0)

  /** Folds the whole blocks of m one after the other; bytes that do not fill a block are ignored. */
  function FoldBlocks<R>(f: (R, Block) -> R, r: R, m: seq<byte>): R
    decreases |m|
  {
    if |m| < 64 then r else FoldBlocks(f, f(r, m[..64]), m[64..])
  }

  /** The bytes of m after its last whole block. */
  function Tail(m: seq<byte>): (t: seq<byte>)
    ensures |t| == |m| % 64
  {
    m[|m| - |m| % 64..]
  }

  lemma {:induction false} FoldConcat<R>(f: (R, Block) -> R, r: R, m: seq<byte>, n: seq<byte>)
    requires |m| % 64 == 0
    ensures FoldBlocks(f, r, m + n) == FoldBlocks(f, FoldBlocks(f, r, m), n)
    decreases |m|
  {
    if m == [] {
      assert m + n == n;
    } else {
      assert (m + n)[..64] == m[..64];
      assert (m + n)[64..] == m[64..] + n;
      FoldConcat(f, f(r, m[..64]), m[64..], n);
    }
  }

  lemma LastBlock(length: nat, n: nat)
    requires n % 64 == 0 && n <= length < n + 64
    ensures length % 64 == length - n
  {
    DivModUnique(length, 64, n / 64, length - n);
  }

  lemma FoldShort<R>(f: (R, Block) -> R, r: R, m: seq<byte>)
    requires |m| < 64
    ensures FoldBlocks(f, r, m) == r && Tail(m) == m
  {
    DivModUnique(|m|, 64, 0, |m|);
  }

  lemma FoldOne<R>(f: (R, Block) -> R, r: R, b: Block)
    ensures FoldBlocks(f, r, b) == f(r, b)
  {
    assert b[..64] == b;
    assert FoldBlocks(f, r, b) == FoldBlocks(f, f(r, b[..64]), b[64..]);
    FoldShort(f, f(r, b), b[64..]);
  }

  /** Folding up to n and then one block is folding up to n + 64. */
  lemma FoldNext<R>(f: (R, Block) -> R, r: R, m: seq<byte>, n: nat)
    requires n % 64 == 0 && n + 64 <= |m|
    ensures FoldBlocks(f, r, m[..n + 64]) == f(FoldBlocks(f, r, m[..n]), m[n..n + 64])
  {
    assert m[..n + 64] == m[..n] + m[n..n + 64];
    FoldConcat(f, r, m[..n], m[n..n + 64]);
    FoldOne(f, FoldBlocks(f, r, m[..n]), m[n..n + 64]);
  }

  lemma FoldWhole<R>(f: (R, Block) -> R, r: R, m: seq<byte>, n: nat)
    requires n % 64 == 0 && n <= |m| < n + 64
    ensures FoldBlocks(f, r, m[..n]) == FoldBlocks(f, r, m) && m[n..] == Tail(m)
  {
    LastBlock(|m|, n);
    assert m == m[..n] + m[n..];
    FoldConcat(f, r, m[..n], m[n..]);
    FoldShort(f, FoldBlocks(f, r, m[..n]), m[n..]);
  }

  lemma Slices<T>(s: seq<T>, a: nat, b: nat, c: nat)
    requires a <= b <= c <= |s|
    ensures s[a..][..b - a] == s[a..b] && s[a..][..c - a] == s[a..c] && s[a..][b - a..c - a] == s[b..c]
  {
  }

  lemma FoldSlice<R>(f: (R, Block) -> R, r: R, input: seq<byte>, first: nat, i: nat)
    requires first <= i && i + 64 <= |input| && (i - first) % 64 == 0
    ensures f(FoldBlocks(f, r, input[first..i]), input[i..i + 64]) == FoldBlocks(f, r, input[first..i + 64])
    ensures (i + 64 - first) % 64 == 0
  {
    Slices(input, first, i, i + 64);
    FoldNext(f, r, input[first..], i - first);
    ModShift(i - first, 1, 64);
  }

  /** Filling up a block, going on block by block and keeping the rest is folding the whole message. */
  lemma BlocksThenTail<R>(f: (R, Block) -> R, r: R, pending: seq<byte>, input: seq<byte>, i: nat)
    requires |pending| < 64 && 64 - |pending| <= i <= |input| < i + 64 && (i - (64 - |pending|)) % 64 == 0
    ensures
      var first := 64 - |pending|;
      FoldBlocks(f, f(r, pending + input[..first]), input[first..i]) == FoldBlocks(f, r, pending + input)
    ensures input[i..] == Tail(pending + input)
  {
    var first, n := 64 - |pending|, |pending| + i;
    var block, all := pending + input[..first], pending + input;
    ModShift(i - first, 1, 64);
    assert n == 64 + (i - first);
    assert all[..n] == block + input[first..i];
    assert all[n..] == input[i..];
    FoldConcat(f, r, block, input[first..i]);
    FoldOne(f, r, block);
    FoldWhole(f, r, all, n);
  }

  lemma Regroup<T>(m: seq<T>, n: seq<T>, k: nat)
    requires k <= |m|
    ensures m + n == m[..k] + (m[k..] + n)
  {
  }

  lemma TailOfConcat(front: seq<byte>, t: seq<byte>)
    requires |front| % 64 == 0
    ensures Tail(front + t) == Tail(t)
  {
    ModShift(|t|, |front| / 64, 64);
    assert |front + t| == 64 * (|front| / 64) + |t|;
  }

  /** Folding m and then its tail followed by n is folding m followed by n. */
  lemma FoldInTwo<R>(f: (R, Block) -> R, r: R, m: seq<byte>, n: seq<byte>)
    ensures FoldBlocks(f, r, m + n) == FoldBlocks(f, FoldBlocks(f, r, m), Tail(m) + n)
    ensures Tail(m + n) == Tail(Tail(m) + n)
  {
    var k := |m| - |m| % 64;
    assert k % 64 == 0;
    var front, t := m[..k], Tail(m) + n;
    FoldWhole(f, r, m, k);
    Regroup(m, n, k);
    FoldConcat(f, r, front, t);
    TailOfConcat(front, t);
  }
}
