/** The wire format primitives the generated code relies on, from the Protocol Buffers Encoding guide: base 128
    varints, tags, and length-delimited records. */
module Wire {
  import opened Words

  datatype Option<+T> = None | Some(value: T)

  /** The runtime refuses lengths from INT_MAX - 15 on, to keep 16 bytes beyond a buffer addressable by an int. */
  const MAX_LENGTH := 0x7fff_fff0

  /** Seven bits a byte, low-order group first; every byte but the last has its top bit set. */
  function Varint(v: nat): (s: seq<byte>)
    ensures |s| >= 1
  {
    if v < 0x80 then [v] else [0x80 + v % 0x80] + Varint(v / 0x80)
  }

  datatype Read<+T> = Read(value: T, rest: seq<byte>)

  /** Reads a varint of at most `limit` bytes; none if the input ends or no last byte is among them. */
  function ReadVarint(m: seq<byte>, limit: nat): (r: Option<Read<nat>>)
    ensures r.Some? ==> |r.value.rest| < |m|
  {
    if limit == 0 || m == [] then None
    else if m[0] < 0x80 then Some(Read(m[0], m[1..]))
    else
      match ReadVarint(m[1..], limit - 1)
      case None => None
      case Some(r) => Some(Read(m[0] - 0x80 + 0x80 * r.value, r.rest))
  }

  /** Reading undoes writing, whatever follows, if the limit leaves room for the groups of v. */
  lemma {:induction false} VarintRoundTrip(v: nat, rest: seq<byte>, limit: nat)
    requires 0 < limit && v < Power128(limit)
    ensures ReadVarint(Varint(v) + rest, limit) == Some(Read(v, rest))
    decreases limit
  {
    if v < 0x80 {
      assert ([v] + rest)[1..] == rest;
    } else {
      assert limit > 1;
      assert (Varint(v) + rest)[1..] == Varint(v / 0x80) + rest;
      VarintRoundTrip(v / 0x80, rest, limit - 1);
    }
  }

  /** The number of a sequence of seven-bit groups, low-order group first. */
  function Groups(s: seq<byte>): nat {
    if s == [] then 0 else s[0] % 0x80 + 0x80 * Groups(s[1..])
  }

  /** A varint ends at its first byte below 0x80. */
  predicate IsVarint(s: seq<byte>) {
    s != [] && s[|s| - 1] < 0x80 && forall i :: 0 <= i < |s| - 1 ==> s[i] >= 0x80
  }

  /** What is written is a varint whose groups make up v, and the shortest one: its last group is not zero unless it is
      the only one. */
  lemma {:induction false} VarintBytes(v: nat)
    ensures IsVarint(Varint(v)) && Groups(Varint(v)) == v
    ensures |Varint(v)| > 1 ==> Varint(v)[|Varint(v)| - 1] != 0
    ensures v > 0 ==> Varint(v)[|Varint(v)| - 1] != 0
  {
    hide Groups, IsVarint;
    if v < 0x80 {
      LastGroup(v);
    } else {
      VarintBytes(v / 0x80);
      FrontGroup(0x80 + v % 0x80, Varint(v / 0x80));
    }
  }

  lemma LastGroup(b: byte)
    ensures IsVarint([b]) <==> b < 0x80
    ensures Groups([b]) == b % 0x80
  {
    assert Groups([b]) == b % 0x80 + 0x80 * Groups([]);
  }

  lemma FrontGroup(b: byte, s: seq<byte>)
    requires IsVarint(s) && b >= 0x80
    ensures IsVarint([b] + s) && Groups([b] + s) == b - 0x80 + 0x80 * Groups(s)
    ensures ([b] + s)[|s|] == s[|s| - 1]
  {
    var t := [b] + s;
    assert t[1..] == s;
    assert forall i :: 1 <= i < |t| ==> t[i] == s[i - 1];
  }

  /** What is read, from any input: the varint at its front, if it has at most `limit` bytes. */
  lemma {:induction false} ReadVarintExactly(m: seq<byte>, limit: nat, n: nat)
    requires n <= |m| && IsVarint(m[..n])
    ensures ReadVarint(m, limit) == if n <= limit then Some(Read(Groups(m[..n]), m[n..])) else None
    decreases n
  {
    assert m[0] == m[..n][0];
    if limit == 0 {
    } else if n == 1 {
      assert m[0] < 0x80;
      assert m[..1][1..] == [];
      assert Groups(m[..1]) == m[0] % 0x80 + 0x80 * Groups([]);
    } else {
      assert m[..n][1..] == m[1..][..n - 1];
      var t := m[1..][..n - 1];
      forall i | 0 <= i < |t| - 1 ensures t[i] >= 0x80 {
        assert t[i] == m[..n][i + 1];
      }
      ReadVarintExactly(m[1..], limit - 1, n - 1);
      assert m[1..][n - 1..] == m[n..];
      assert Groups(m[..n]) == m[0] % 0x80 + 0x80 * Groups(m[..n][1..]);
    }
  }

  /** Nothing is read if no byte of the input is below 0x80. */
  lemma {:induction false} NoVarint(m: seq<byte>, limit: nat)
    requires forall i :: 0 <= i < |m| ==> m[i] >= 0x80
    ensures ReadVarint(m, limit) == None
  {
    if limit > 0 && m != [] {
      NoVarint(m[1..], limit - 1);
    }
  }

  function Power128(n: nat): (p: nat)
    ensures p > 0
  {
    if n == 0 then 1 else 0x80 * Power128(n - 1)
  }

  lemma Power128Values()
    ensures Power128(5) == 0x8_0000_0000 && Power128(10) == 0x40_0000_0000_0000_0000
  {
    assert Power128(5) == 0x80 * 0x80 * 0x80 * 0x80 * 0x80 by {
      assert Power128(2) == 0x4000;
      assert Power128(4) == 0x1000_0000;
    }
    assert Power128(7) == 0x80 * 0x80 * Power128(5);
    assert Power128(9) == 0x80 * 0x80 * Power128(7);
  }

  /** The number of bytes WireFormatLite::UInt32Size counts, by comparison instead of by logarithm. */
  function UInt32Size(v: uint32): nat {
    if v < 0x80 then 1 else if v < 0x4000 then 2 else if v < 0x20_0000 then 3 else if v < 0x1000_0000 then 4 else 5
  }

  lemma UInt32SizeCorrect(v: uint32)
    ensures UInt32Size(v) == |Varint(v)|
  {
    var v1 := v / 0x80;
    var v2 := v1 / 0x80;
    var v3 := v2 / 0x80;
    var v4 := v3 / 0x80;
    assert |Varint(v4)| == 1;
    assert v3 >= 0x80 ==> |Varint(v3)| == 1 + |Varint(v4)|;
    assert v2 >= 0x80 ==> |Varint(v2)| == 1 + |Varint(v3)|;
    assert v1 >= 0x80 ==> |Varint(v1)| == 1 + |Varint(v2)|;
  }

  /** What a record carries, by wire type. */
  datatype Payload = Number(value: uint64) | Fixed64(bytes: seq<byte>) | Bytes(bytes: seq<byte>) | Fixed32(bytes: seq<byte>)

  datatype Record = Record(number: nat, payload: Payload)

  /** Field numbers have 29 bits, fixed payloads 8 or 4 bytes, and lengths 31 bits. */
  predicate WellFormed(r: Record) {
    0 < r.number < 0x2000_0000 &&
    match r.payload
    case Number(_) => true
    case Fixed64(b) => |b| == 8
    case Bytes(b) => |b| < MAX_LENGTH
    case Fixed32(b) => |b| == 4
  }

  function WireType(p: Payload): nat {
    match p
    case Number(_) => 0
    case Fixed64(_) => 1
    case Bytes(_) => 2
    case Fixed32(_) => 5
  }

  function EncodePayload(p: Payload): seq<byte> {
    match p
    case Number(v) => Varint(v)
    case Fixed64(b) => b
    case Bytes(b) => Varint(|b|) + b
    case Fixed32(b) => b
  }

  function Encode(r: Record): (s: seq<byte>)
    ensures |s| >= 1
  {
    Varint(8 * r.number + WireType(r.payload)) + EncodePayload(r.payload)
  }

  function EncodeAll(rs: seq<Record>): seq<byte> {
    if rs == [] then [] else Encode(rs[0]) + EncodeAll(rs[1..])
  }

  function Take(m: seq<byte>, n: nat): Option<Read<seq<byte>>> {
    if n <= |m| then Some(Read(m[..n], m[n..])) else None
  }

  function ReadTag(m: seq<byte>): (r: Option<Read<nat>>)
    ensures r.Some? ==> |r.value.rest| < |m| && r.value.value < WORD
  {
    match ReadVarint(m, 5)
    case None => None
    case Some(r) => Some(Read(r.value % WORD, r.rest))
  }

  function ReadVarint32(m: seq<byte>): (r: Option<Read<nat>>)
    ensures r.Some? ==> |r.value.rest| < |m| && r.value.value < WORD
  {
    match ReadVarint(m, 10)
    case None => None
    case Some(r) => Some(Read(r.value % WORD, r.rest))
  }

  function ReadVarint64(m: seq<byte>): (r: Option<Read<nat>>)
    ensures r.Some? ==> |r.value.rest| < |m| && r.value.value < M64
  {
    match ReadVarint(m, 10)
    case None => None
    case Some(r) => Some(Read(r.value % M64, r.rest))
  }

  function ReadBytes(m: seq<byte>): (r: Option<Read<seq<byte>>>)
    ensures r.Some? ==> |r.value.rest| < |m|
  {
    match ReadVarint(m, 5)
    case None => None
    case Some(r) => if r.value < MAX_LENGTH then Take(r.rest, r.value) else None
  }

  /** The payload after a tag; groups, the unassigned wire types and field number 0 are errors. */
  function ReadPayload(tag: uint32, m: seq<byte>): (r: Option<Read<Payload>>)
    ensures r.Some? ==> |r.value.rest| <= |m|
  {
    if tag / 8 == 0 then None
    else if tag % 8 == 0 then
      match ReadVarint64(m)
      case None => None
      case Some(r) => Some(Read(Number(r.value), r.rest))
    else if tag % 8 == 1 then
      match Take(m, 8)
      case None => None
      case Some(r) => Some(Read(Fixed64(r.value), r.rest))
    else if tag % 8 == 2 then
      match ReadBytes(m)
      case None => None
      case Some(r) => Some(Read(Bytes(r.value), r.rest))
    else if tag % 8 == 5 then
      match Take(m, 4)
      case None => None
      case Some(r) => Some(Read(Fixed32(r.value), r.rest))
    else None
  }

  /** Tags are varints of at most five bytes and numbers of at most ten, cut to 32 or 64 bits; a length has at most five
      bytes and is below 2^31 - 16, and its bytes must be there. */
  lemma PrimitivesExactly(m: seq<byte>, n: nat)
    requires n <= |m| && IsVarint(m[..n])
    ensures ReadTag(m) == if n <= 5 then Some(Read(Groups(m[..n]) % 0x1_0000_0000, m[n..])) else None
    ensures ReadVarint32(m) == if n <= 10 then Some(Read(Groups(m[..n]) % 0x1_0000_0000, m[n..])) else None
    ensures ReadVarint64(m) == if n <= 10 then Some(Read(Groups(m[..n]) % 0x1_0000_0000_0000_0000, m[n..])) else None
    ensures
      var length := Groups(m[..n]);
      ReadBytes(m) ==
        if n <= 5 && length < 0x7fff_fff0 && length <= |m| - n then Some(Read(m[n..n + length], m[n + length..])) else None
  {
    hide ReadVarint, Groups, IsVarint;
    ReadVarintExactly(m, 5, n);
    ReadVarintExactly(m, 10, n);
    var length := Groups(m[..n]);
    if length <= |m| - n {
      assert m[n..][..length] == m[n..n + length] && m[n..][length..] == m[n + length..];
    }
  }

  /** The low three bits of a tag tell the kind of payload; groups, which have the bits 3 and 4, are errors here, and so
      are the bits 6 and 7 and the field number 0. */
  lemma PayloadExactly(tag: uint32, m: seq<byte>)
    ensures tag < 8 || tag % 8 in {3, 4, 6, 7} ==> ReadPayload(tag, m) == None
    ensures tag >= 8 && tag % 8 == 0 ==>
      ReadPayload(tag, m) == match ReadVarint64(m) case None => None case Some(r) => Some(Read(Number(r.value), r.rest))
    ensures tag >= 8 && tag % 8 == 1 ==>
      ReadPayload(tag, m) == if |m| < 8 then None else Some(Read(Fixed64(m[..8]), m[8..]))
    ensures tag >= 8 && tag % 8 == 2 ==>
      ReadPayload(tag, m) == match ReadBytes(m) case None => None case Some(r) => Some(Read(Bytes(r.value), r.rest))
    ensures tag >= 8 && tag % 8 == 5 ==>
      ReadPayload(tag, m) == if |m| < 4 then None else Some(Read(Fixed32(m[..4]), m[4..]))
  {
    hide ReadVarint64, ReadBytes;
  }

  /** The bytes of a record. */
  lemma RecordBytes(n: nat, v: uint64, b: seq<byte>)
    ensures Encode(Record(n, Number(v))) == Varint(8 * n) + Varint(v)
    ensures Encode(Record(n, Fixed64(b))) == Varint(8 * n + 1) + b
    ensures Encode(Record(n, Bytes(b))) == Varint(8 * n + 2) + Varint(|b|) + b
    ensures Encode(Record(n, Fixed32(b))) == Varint(8 * n + 5) + b
  {
    hide Varint;
    Associate(Varint(8 * n + 2), Varint(|b|), b);
  }

  lemma FrontAndRest<T>(b: seq<T>, rest: seq<T>)
    ensures (b + rest)[..|b|] == b && (b + rest)[|b|..] == rest
  {
  }

  lemma Associate<T>(a: seq<T>, b: seq<T>, c: seq<T>)
    ensures a + b + c == a + (b + c)
  {
  }

  lemma BytesRoundTrip(b: seq<byte>, rest: seq<byte>)
    requires |b| < MAX_LENGTH
    ensures ReadBytes(Varint(|b|) + b + rest) == Some(Read(b, rest))
  {
    hide Varint, ReadVarint;
    Power128Values();
    Associate(Varint(|b|), b, rest);
    VarintRoundTrip(|b|, b + rest, 5);
    FrontAndRest(b, rest);
  }

  lemma PayloadRoundTrip(r: Record, rest: seq<byte>)
    requires WellFormed(r)
    ensures ReadPayload(8 * r.number + WireType(r.payload), EncodePayload(r.payload) + rest) ==
            Some(Read(r.payload, rest))
  {
    hide Varint, ReadVarint, ReadBytes;
    var tag := 8 * r.number + WireType(r.payload);
    assert tag / 8 == r.number && tag % 8 == WireType(r.payload);
    match r.payload {
      case Number(v) =>
        Power128Values();
        VarintRoundTrip(v, rest, 10);
      case Bytes(b) =>
        BytesRoundTrip(b, rest);
      case Fixed64(b) =>
        FrontAndRest(b, rest);
      case Fixed32(b) =>
        FrontAndRest(b, rest);
    }
  }

  /** A record that was written is read back whole, tag first, whatever follows it. */
  lemma RecordRoundTrip(r: Record, rest: seq<byte>)
    requires WellFormed(r)
    ensures ReadTag(Encode(r) + rest) ==
            Some(Read(8 * r.number + WireType(r.payload), EncodePayload(r.payload) + rest))
    ensures ReadPayload(8 * r.number + WireType(r.payload), EncodePayload(r.payload) + rest) ==
            Some(Read(r.payload, rest))
  {
    hide Varint, ReadVarint, EncodePayload, ReadPayload;
    Power128Values();
    var tag := 8 * r.number + WireType(r.payload);
    Associate(Varint(tag), EncodePayload(r.payload), rest);
    VarintRoundTrip(tag, EncodePayload(r.payload) + rest, 5);
    PayloadRoundTrip(r, rest);
  }
}
