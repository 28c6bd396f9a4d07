/** Names and contents of parts: decimal names, paths, what FileSys::Write leaves in a file, and the division of a
    file into parts of two bytes. */
module Parts {
  import opened Words

  /** std::string and file contents. */
  type Str = seq<byte>

  // Part names: to_string of the index.

  function Decimal(n: nat): (s: Str)
    ensures |s| >= 1 && forall i :: 0 <= i < |s| ==> 48 <= s[i] <= 57
  {
    if n < 10 then [48 + n] else Decimal(n / 10) + [48 + n % 10]
  }

  function Number(s: Str): nat
    requires forall i :: 0 <= i < |s| ==> 48 <= s[i] <= 57
  {
    if s == [] then 0 else 10 * Number(s[..|s| - 1]) + (s[|s| - 1] - 48)
  }

  lemma {:induction false} DecimalRoundTrip(n: nat)
    ensures Number(Decimal(n)) == n
  {
    if n < 10 {
      assert Number([]) == 0 && [48 + n][..0] == [];
    } else {
      DecimalRoundTrip(n / 10);
      var d := Decimal(n / 10);
      assert Decimal(n)[..|Decimal(n)| - 1] == d;
    }
  }

  predicate Digits(s: Str) { forall i :: 0 <= i < |s| ==> 48 <= s[i] <= 57 }

  lemma NextDigit(m: nat, d: nat)
    requires m > 0 && d < 10
    ensures Decimal(10 * m + d) == Decimal(m) + [48 + d]
  {
    assert (10 * m + d) / 10 == m && (10 * m + d) % 10 == d;
  }

  /** Decimal writes the canonical numeral: every digit string without a leading zero is the numeral of its number. */
  lemma {:induction false} DecimalIsCanonical(s: Str)
    requires s != [] && Digits(s) && (|s| == 1 || s[0] != 48)
    ensures Decimal(Number(s)) == s
    ensures |s| == 1 ==> Number(s) == s[0] - 48
    ensures |s| > 1 ==> Number(s) > 0
  {
    hide Decimal, Number;
    var front, d := s[..|s| - 1], s[|s| - 1] - 48;
    LastDigit(s);
    if |s| == 1 {
      OneDigit(d);
    } else {
      DecimalIsCanonical(front);
      NextDigit(Number(front), d);
    }
  }

  lemma LastDigit(s: Str)
    requires s != [] && Digits(s)
    ensures
      var front, d := s[..|s| - 1], s[|s| - 1] - 48;
      s == front + [48 + d] && Number(s) == 10 * Number(front) + d && (|s| == 1 ==> Number(front) == 0)
  {
  }

  lemma OneDigit(d: nat)
    requires d < 10
    ensures Decimal(d) == [48 + d]
  {
  }

  /** The numeral of n begins with no zero unless n is zero. */
  lemma {:induction false} NoLeadingZero(n: nat)
    ensures Decimal(n)[0] == 48 <==> n == 0
    ensures n < 10 ==> Decimal(n) == [48 + n]
  {
    if n >= 10 {
      NoLeadingZero(n / 10);
    }
  }

  const DOT: byte := 46
  const SLASH: byte := 47

  /** What LsDir counts: entries whose name does not start with a dot. */
  predicate Visible(name: Str) {
    name == [] || name[0] != DOT
  }

  /** Names of parts are injective in the index, visible, and free of slashes. */
  lemma PartNames(i: nat, j: nat)
    ensures Decimal(i) == Decimal(j) ==> i == j
    ensures Visible(Decimal(i)) && SLASH !in Decimal(i) && Decimal(i)[0] != 46 && 47 !in Decimal(i)
  {
    DecimalRoundTrip(i);
    DecimalRoundTrip(j);
    assert Decimal(i)[0] >= 48;
  }

  /** `usr_dir + usr + "/tmp/" + file_sign + '/' + to_string(part_index)`; [116, 109, 112] is "tmp". */
  function PartPath(usrDir: Str, usr: Str, sign: Str, index: nat): Str {
    usrDir + (usr + ([SLASH, 116, 109, 112, SLASH] + (sign + ([SLASH] + Decimal(index)))))
  }

  /** The path spelled out, with the bytes of "/tmp/". */
  lemma PathOfPart(usrDir: Str, usr: Str, sign: Str, index: nat)
    ensures PartPath(usrDir, usr, sign, index) == usrDir + usr + [47, 116, 109, 112, 47] + sign + [47] + Decimal(index)
  {
  }

  /** Where a slash-free name ends is visible in a string that goes on with a slash. */
  lemma {:induction false} SlashSplit(a: Str, x: Str, b: Str, y: Str)
    requires SLASH !in a && SLASH !in b
    requires a + ([SLASH] + x) == b + ([SLASH] + y)
    ensures a == b && x == y
    decreases |a|
  {
    var s, t := a + ([SLASH] + x), b + ([SLASH] + y);
    assert s[0] == if a == [] then SLASH else a[0];
    assert t[0] == if b == [] then SLASH else b[0];
    assert s[1..] == if a == [] then x else a[1..] + ([SLASH] + x);
    assert t[1..] == if b == [] then y else b[1..] + ([SLASH] + y);
    if a != [] {
      SlashSplit(a[1..], x, b[1..], y);
      assert a == [a[0]] + a[1..] && b == [b[0]] + b[1..];
    }
  }

  /** Paths of parts tell users, signatures and indices apart as long as names and signatures have no slash. */
  lemma PartPathInjective(usrDir: Str, u: Str, s: Str, i: nat, u': Str, s': Str, i': nat)
    requires SLASH !in u && SLASH !in u' && SLASH !in s && SLASH !in s'
    requires PartPath(usrDir, u, s, i) == PartPath(usrDir, u', s', i')
    ensures u == u' && s == s' && i == i'
  {
    var tmp := [116, 109, 112, SLASH];
    var x, x' := s + ([SLASH] + Decimal(i)), s' + ([SLASH] + Decimal(i'));
    assert PartPath(usrDir, u, s, i)[|usrDir|..] == u + ([SLASH] + (tmp + x));
    assert PartPath(usrDir, u', s', i')[|usrDir|..] == u' + ([SLASH] + (tmp + x'));
    SlashSplit(u, tmp + x, u', tmp + x');
    assert (tmp + x)[4..] == x && (tmp + x')[4..] == x';
    SlashSplit(s, Decimal(i), s', Decimal(i'));
    PartNames(i, i');
  }

  // FileSys::Write.

  const WRITE_LEN := 4096

  predicate NulFree(s: Str) { 0 !in s }

  /** c_str(): the bytes before the first NUL. */
  function CString(s: Str): (c: Str)
    ensures |c| <= |s| && NulFree(c)
  {
    if s == [] || s[0] == 0 then [] else [s[0]] + CString(s[1..])
  }

  /** What the loop of Write sends to the file with `len` bytes to go: it never advances in s. */
  function Written(s: Str, len: nat): (w: Str)
    requires len <= |s|
    ensures |w| == len
  {
    if len > WRITE_LEN then s[..WRITE_LEN] + Written(s, len - WRITE_LEN) else s[..len]
  }

  /** Byte i of the result is byte i mod 4096 of the string. */
  lemma {:induction false} WrittenRepeats(s: Str, len: nat, i: nat)
    requires i < len <= |s|
    ensures i % 4096 < |s| && Written(s, len)[i] == s[i % 4096]
  {
    if len > WRITE_LEN && i >= WRITE_LEN {
      WrittenRepeats(s, len - WRITE_LEN, i - WRITE_LEN);
      ModShift(i - WRITE_LEN, 1, WRITE_LEN);
    }
  }

  predicate Periodic(s: Str) {
    forall i :: WRITE_LEN <= i < |s| ==> s[i] == s[i % WRITE_LEN]
  }

  lemma SmallRemainder(i: nat)
    requires i < WRITE_LEN
    ensures i % WRITE_LEN == i
  {
  }

  /** What the loop sends is the string exactly when every byte past 4096 repeats the byte it is congruent to. */
  lemma WrittenFaithful(s: Str)
    ensures Written(s, |s|) == s <==> Periodic(s)
    ensures |s| <= WRITE_LEN ==> Periodic(s)
  {
    hide Written;
    var w := Written(s, |s|);
    forall i | 0 <= i < |s| ensures w[i] == s[i % WRITE_LEN] {
      WrittenRepeats(s, |s|, i);
    }
    if Periodic(s) {
      forall i | 0 <= i < |s| ensures w[i] == s[i] {
        if i < WRITE_LEN {
          SmallRemainder(i);
        }
      }
      assert w == s;
    }
  }

  /** Opening without O_TRUNC: what lies behind the bytes written stays. */
  function Overlay(w: Str, was: Str): Str {
    if |was| <= |w| then w else w + was[|w|..]
  }

  /** The content of a file after Write has stored `body` over `was`. */
  function Stored(body: Str, was: Str): Str {
    var s := CString(body);
    Overlay(Written(s, |s|), was)
  }

  /** The bytes before the first NUL: a prefix without NUL, followed by a NUL or by nothing. */
  lemma {:induction false} CStringIsPrefix(s: Str)
    ensures CString(s) <= s && 0 !in CString(s)
    ensures |CString(s)| < |s| ==> s[|CString(s)|] == 0
    ensures CString(s) == s <==> NulFree(s)
  {
    if s == [] || s[0] == 0 {
    } else {
      CStringIsPrefix(s[1..]);
      assert s == [s[0]] + s[1..];
      assert NulFree(s) <==> NulFree(s[1..]);
    }
  }

  /** Write leaves exactly the body in a file that held `was` if and only if the bytes before its first NUL are
      4096-periodic and either there is no NUL and the old file is not longer than the body, or the old file is as
      long as the body and ends like it from the first NUL on. */
  lemma StoredFaithfully(body: Str, was: Str)
    ensures
      var c := CString(body);
      Stored(body, was) == body <==>
        Periodic(c) &&
        ((NulFree(body) && |was| <= |body|) || (|was| == |body| && was[|c|..] == body[|c|..]))
  {
    var c := CString(body);
    var w := Written(c, |c|);
    hide Written, CString, NulFree, Periodic;
    CStringIsPrefix(body);
    WrittenFaithful(c);
    assert body == c + body[|c|..];
    if |was| > |c| {
      var f := w + was[|c|..];
      assert f[..|c|] == w && f[|c|..] == was[|c|..];
      assert body[..|c|] == c;
      assert |was| == |body| && NulFree(body) ==> |c| == |body|;
    }
  }

  /** Byte by byte: Write puts the repeated string at the front and leaves what lies behind it. */
  lemma StoredBytes(body: Str, was: Str, i: nat)
    ensures
      var n := |CString(body)|;
      |Stored(body, was)| == (if n >= |was| then n else |was|) &&
      (i < n ==> Stored(body, was)[i] == body[i % 4096]) &&
      (n <= i < |was| ==> Stored(body, was)[i] == was[i])
  {
    hide Written, CString, NulFree;
    var c := CString(body);
    CStringIsPrefix(body);
    if i < |c| {
      WrittenRepeats(c, |c|, i);
      assert c[i % 4096] == body[i % 4096];
    }
  }

  /** On a new file: Write stores a body faithfully if and only if it has no NUL and is 4096-periodic. */
  lemma StoredOnNewFile(body: Str)
    ensures Stored(body, []) == body <==> NulFree(body) && Periodic(body)
    ensures |body| <= 4096 ==> (Stored(body, []) == body <==> 0 !in body)
  {
    hide Stored, CString, NulFree, Periodic;
    StoredFaithfully(body, []);
    CStringIsPrefix(body);
    WrittenFaithful(body);
  }

  /** Two bodies a request may carry that are not stored: a NUL byte, and a byte over a longer old file. */
  lemma NotStored()
    ensures Stored([0], []) == [] && Periodic([0])
    ensures Stored([1], [2, 3]) == [1, 3] && NulFree([1]) && Periodic([1])
  {
    assert CString([1]) == [1] + CString([]);
  }

  /** Storing a body a second time changes nothing. */
  lemma StoredTwice(body: Str, was: Str)
    ensures Stored(body, Stored(body, was)) == Stored(body, was)
  {
    hide Written, CString;
    var c := CString(body);
    var w := Written(c, |c|);
    if |was| > |w| {
      assert (w + was[|w|..])[|w|..] == was[|w|..];
    }
  }

  /** A short body without NULs is stored as it is, on a new file or over itself. */
  lemma StoredExactly(body: Str)
    requires NulFree(body) && |body| <= WRITE_LEN
    ensures Stored(body, []) == body && Stored(body, body) == body
  {
    hide Stored, CString, NulFree, Periodic;
    CStringIsPrefix(body);
    WrittenFaithful(body);
    StoredFaithfully(body, []);
    StoredFaithfully(body, body);
  }

  // The division of a file.

  const PART := 2

  /** A file has half as many parts as bytes, rounded down, and one more; each holds two bytes, the last one the byte
      that is left, if any. */
  lemma TwoByteParts(c: Str, i: nat)
    ensures PartCount(c) == |c| / 2 + 1
    ensures 2 * i + 2 <= |c| ==> Slice(c, i) == c[2 * i..2 * i + 2]
    ensures 2 * i + 1 == |c| ==> Slice(c, i) == [c[2 * i]]
    ensures 2 * i >= |c| ==> Slice(c, i) == []
  {
  }

  function PartCount(c: Str): nat { |c| / PART + 1 }

  /** The bytes the i-th fread of two bytes delivers. */
  function Slice(c: Str, i: nat): (s: Str)
    ensures |s| <= PART
  {
    if PART * i + PART <= |c| then c[PART * i..PART * i + PART]
    else if PART * i <= |c| then c[PART * i..]
    else []
  }

  /** The names of the parts below n. */
  ghost function Names(n: nat): set<Str> {
    if n == 0 then {} else Names(n - 1) + {Decimal(n - 1)}
  }

  lemma {:induction false} NameBelow(n: nat, i: nat)
    ensures Decimal(i) in Names(n) <==> i < n
  {
    if n == 0 {
    } else {
      NameBelow(n - 1, i);
      PartNames(i, n - 1);
    }
  }

  /** The index a name stands for. */
  lemma {:induction false} IndexOf(n: nat, name: Str) returns (i: nat)
    requires name in Names(n)
    ensures i < n && Decimal(i) == name
  {
    if name == Decimal(n - 1) {
      i := n - 1;
    } else {
      i := IndexOf(n - 1, name);
    }
  }

  lemma {:induction false} NamesCount(n: nat)
    ensures |Names(n)| == n
  {
    if n == 0 {
    } else {
      NamesCount(n - 1);
      NameBelow(n - 1, n - 1);
    }
  }

  lemma SubsetCount<T>(a: set<T>, b: set<T>)
    requires a <= b
    ensures |a| <= |b| && (|a| == |b| <==> a == b)
  {
    assert |b| == |a| + |b - a| by { assert b == a + (b - a); }
  }

  ghost predicate HasAll(m: map<Str, Str>, n: nat) {
    forall i: nat | i < n :: Decimal(i) in m.Keys
  }

  lemma HasAllNames(m: map<Str, Str>, n: nat)
    ensures HasAll(m, n) <==> Names(n) <= m.Keys
  {
    if HasAll(m, n) {
      forall name | name in Names(n) ensures name in m.Keys {
        var i := IndexOf(n, name);
        assert Decimal(i) in m.Keys;
      }
    }
    if Names(n) <= m.Keys {
      forall i: nat | i < n ensures Decimal(i) in m.Keys {
        NameBelow(n, i);
      }
    }
  }

  /** Counting entries decides completeness: with names below n only, there are n entries exactly when every
      index below n has its part. */
  lemma CountDecides(m: map<Str, Str>, n: nat)
    requires m.Keys <= Names(n)
    ensures |m| <= n
    ensures |m| == n <==> HasAll(m, n)
    ensures |m| == n <==> m.Keys == Names(n)
  {
    NamesCount(n);
    SubsetCount(m.Keys, Names(n));
    HasAllNames(m, n);
    assert |m| == |m.Keys|;
  }

  /** Parts 0 to n - 1 of c, each under its decimal name. */
  ghost function PartsBelow(c: Str, n: nat): map<Str, Str> {
    if n == 0 then map[] else PartsBelow(c, n - 1)[Decimal(n - 1) := Slice(c, n - 1)]
  }

  lemma {:induction false} PartsBelowAt(c: Str, n: nat)
    ensures PartsBelow(c, n).Keys == Names(n)
    ensures forall i: nat | i < n :: Decimal(i) in PartsBelow(c, n) && PartsBelow(c, n)[Decimal(i)] == Slice(c, i)
  {
    if n == 0 {
    } else {
      PartsBelowAt(c, n - 1);
      forall i: nat | i < n
        ensures Decimal(i) in PartsBelow(c, n) && PartsBelow(c, n)[Decimal(i)] == Slice(c, i)
      {
        PartNames(i, n - 1);
      }
    }
  }

  /** The directory of a complete file. */
  ghost function AllParts(c: Str): map<Str, Str> { PartsBelow(c, PartCount(c)) }

  /** Every entry is the part of c its name stands for. */
  ghost predicate PartsOf(m: map<Str, Str>, c: Str) {
    m.Keys <= Names(PartCount(c)) &&
    forall i: nat | i < PartCount(c) && Decimal(i) in m :: m[Decimal(i)] == Slice(c, i)
  }

  lemma SliceOfNulFree(c: Str, i: nat)
    requires NulFree(c)
    ensures NulFree(Slice(c, i))
  {
  }

  lemma AddPart(m: map<Str, Str>, c: Str, k: nat)
    requires PartsOf(m, c) && k < PartCount(c)
    ensures PartsOf(m[Decimal(k) := Slice(c, k)], c)
  {
    var m' := m[Decimal(k) := Slice(c, k)];
    NameBelow(PartCount(c), k);
    forall i: nat | i < PartCount(c) && Decimal(i) in m' ensures m'[Decimal(i)] == Slice(c, i) {
      PartNames(i, k);
    }
  }

  lemma AllVisible(m: map<Str, Str>, n: nat)
    requires m.Keys <= Names(n)
    ensures |set name | name in m && Visible(name)| == |m|
  {
    forall name | name in m ensures Visible(name) {
      var i := IndexOf(n, name);
      PartNames(i, i);
    }
    assert (set name | name in m && Visible(name)) == m.Keys;
    assert |m| == |m.Keys|;
  }

  /** A directory of parts of c is complete exactly when it has as many entries as c has parts. */
  lemma CompleteParts(m: map<Str, Str>, c: Str)
    requires PartsOf(m, c)
    ensures |m| <= PartCount(c) && (|m| == PartCount(c) <==> m == AllParts(c))
  {
    var n := PartCount(c);
    CountDecides(m, n);
    PartsBelowAt(c, n);
    CountDecides(AllParts(c), n);
    if |m| == n {
      forall name | name in m ensures m[name] == AllParts(c)[name] {
        var i := IndexOf(n, name);
      }
    }
  }

  /** The parts 0 to n - 1 one after the other. */
  ghost function Assemble(m: map<Str, Str>, n: nat): Str
    requires HasAll(m, n)
  {
    if n == 0 then [] else Assemble(m, n - 1) + m[Decimal(n - 1)]
  }

  lemma {:induction false} AssemblePrefix(c: Str, n: nat)
    requires n <= PartCount(c)
    ensures HasAll(AllParts(c), n)
    ensures Assemble(AllParts(c), n) == c[..if PART * n <= |c| then PART * n else |c|]
  {
    PartsBelowAt(c, PartCount(c));
    hide Decimal, Slice, PartsBelow;
    if n == 0 {
    } else {
      AssemblePrefix(c, n - 1);
      assert AllParts(c)[Decimal(n - 1)] == Slice(c, n - 1);
      NextSlice(c, n - 1);
    }
  }

  lemma NextSlice(c: Str, i: nat)
    requires i < PartCount(c)
    ensures PART * i <= |c|
    ensures c[..PART * i] + Slice(c, i) == c[..if PART * (i + 1) <= |c| then PART * (i + 1) else |c|]
  {
  }

  /** Put together in index order, the parts of a file are the file. */
  lemma AssembleAll(c: Str)
    ensures HasAll(AllParts(c), PartCount(c)) && Assemble(AllParts(c), PartCount(c)) == c
  {
    AssemblePrefix(c, PartCount(c));
    assert c[..|c|] == c;
  }

  /** A directory has one entry for each two bytes of c, and one for what is left. */
  ghost predicate HoldsFile(m: map<Str, Str>, c: Str) {
    |m| == |c| / 2 + 1 &&
    forall i: nat | i < |c| / 2 + 1 ::
      Decimal(i) in m && m[Decimal(i)] == if 2 * i + 2 <= |c| then c[2 * i..2 * i + 2] else c[2 * i..]
  }

  lemma AllPartsHoldFile(c: Str)
    ensures HoldsFile(AllParts(c), c)
  {
    hide Decimal, AllParts;
    AllPartsAre(c, 0);
    forall i: nat | i < |c| / 2 + 1
      ensures Decimal(i) in AllParts(c)
      ensures AllParts(c)[Decimal(i)] == if 2 * i + 2 <= |c| then c[2 * i..2 * i + 2] else c[2 * i..]
    {
      AllPartsAre(c, i);
    }
  }

  lemma AllPartsAre(c: Str, i: nat)
    requires i < |c| / 2 + 1
    ensures |AllParts(c)| == |c| / 2 + 1 && Decimal(i) in AllParts(c)
    ensures AllParts(c)[Decimal(i)] == if 2 * i + 2 <= |c| then c[2 * i..2 * i + 2] else c[2 * i..]
  {
    hide Decimal;
    var n := PartCount(c);
    PartsBelowAt(c, n);
    CountDecides(AllParts(c), n);
    assert Decimal(i) in AllParts(c);
  }

  /** `shard == part_num.size()` converts shard to int and then to size_t: no directory of fewer than 2^63 entries has
      as many as a shard from 2^31 on. */
  lemma AsSizeExtendsSign(shard: uint32)
    ensures shard < 0x8000_0000 ==> AsSize(shard) == shard
    ensures shard >= 0x8000_0000 ==> AsSize(shard) == 0xffff_ffff_0000_0000 + shard
    ensures AsSize(shard) == AsInt32(shard) % M64
  {
  }

  /** size_t of an `int` made from a uint32, as in `shard == part_num.size()`. */
  function AsSize(shard: uint32): nat {
    if shard < 0x8000_0000 then shard else 0x1_0000_0000_0000_0000 - (WORD - shard)
  }
}
