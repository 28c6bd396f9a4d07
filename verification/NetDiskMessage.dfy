/** The values a NetDiskRequest holds, and what its bytes mean: a message is parsed by applying its records in order. */
module NetDiskMessage {
  import opened Words
  import opened Wire

  /** present holds the numbers of the fields whose has-bit is set; unknown are the records no field takes, in the order they arrived. */
  datatype Message = Message(
    present: set<nat>, opType: uint32, shard: uint32, partIndex: uint32,
    partSign: seq<byte>, fileName: seq<byte>, fileSign: seq<byte>, usr: seq<byte>, body: seq<byte>,
    unknown: seq<Record>)

  const EMPTY := Message({}, 0, 0, 0, [], [], [], [], [], [])

  predicate Has(m: Message, n: nat) {
    n in m.present
  }

  function NumberOf(m: Message, n: nat): uint32
    requires 1 <= n <= 8
  {
    match n case 1 => m.opType case 2 => m.shard case 3 => m.partIndex case _ => 0
  }

  function BytesOf(m: Message, n: nat): seq<byte>
    requires 1 <= n <= 8
  {
    match n
    case 4 => m.partSign case 5 => m.fileName case 6 => m.fileSign case 7 => m.usr case 8 => m.body
    case _ => []
  }

  /** A field that is not there has its default value, there are eight fields, and unknown records are unknown. */
  predicate Canonical(m: Message) {
    (forall n | 1 <= n <= 8 :: !Has(m, n) ==> NumberOf(m, n) == 0 && BytesOf(m, n) == []) &&
    (forall n :: n in m.present ==> 1 <= n <= 8) &&
    forall u :: u in m.unknown ==> WellFormed(u) && Slot(u) == 0
  }

  /** Lengths on the wire are 32-bit integers. */
  predicate Serializable(m: Message) {
    forall n | 1 <= n <= 8 :: |BytesOf(m, n)| < MAX_LENGTH
  }

  /** The field a record sets; 0 if its number or its wire type belongs to no field. */
  function Slot(r: Record): (n: nat)
    ensures n <= 8
  {
    if 1 <= r.number <= 3 && r.payload.Number? then r.number
    else if 4 <= r.number <= 8 && r.payload.Bytes? then r.number
    else 0
  }

  function SetNumber(m: Message, n: nat, v: uint32): Message
    requires 1 <= n <= 3
  {
    var m' := m.(present := m.present + {n});
    match n case 1 => m'.(opType := v) case 2 => m'.(shard := v) case 3 => m'.(partIndex := v)
  }

  function SetBytes(m: Message, n: nat, b: seq<byte>): Message
    requires 4 <= n <= 8
  {
    var m' := m.(present := m.present + {n});
    match n
    case 4 => m'.(partSign := b) case 5 => m'.(fileName := b) case 6 => m'.(fileSign := b)
    case 7 => m'.(usr := b) case 8 => m'.(body := b)
  }

  /** A record sets its field; a record no field takes is kept. */
  function Apply(m: Message, r: Record): Message {
    if Slot(r) == 0 then m.(unknown := m.unknown + [r])
    else if Slot(r) <= 3 then SetNumber(m, Slot(r), r.payload.value % WORD)
    else SetBytes(m, Slot(r), r.payload.bytes)
  }

  function ApplyAll(m: Message, rs: seq<Record>): Message
    decreases |rs|
  {
    if rs == [] then m else ApplyAll(Apply(m, rs[0]), rs[1..])
  }

  /** Ended at the end of the input; Stopped at an end-group tag or at tag 0, with the bytes after it unread. */
  datatype Outcome = Failed | Ended(message: Message) | Stopped(message: Message, tag: uint32, rest: seq<byte>)

  function Parse(m: Message, data: seq<byte>): Outcome
    decreases |data|
  {
    if data == [] then Ended(m)
    else
      match ReadTag(data)
      case None => Failed
      case Some(t) =>
        if t.value % 8 == 4 || t.value == 0 then Stopped(m, t.value, t.rest)
        else
          match ReadPayload(t.value, t.rest)
          case None => Failed
          case Some(p) => Parse(Apply(m, Record(t.value / 8, p.value)), p.rest)
  }

  function FieldRecord(m: Message, n: nat): seq<Record>
    requires 1 <= n <= 8
  {
    if !Has(m, n) then []
    else [Record(n, if n <= 3 then Number(NumberOf(m, n)) else Bytes(BytesOf(m, n)))]
  }

  /** The records of fields 1 to k. */
  function FieldRecords(m: Message, k: nat): seq<Record>
    requires k <= 8
  {
    if k == 0 then [] else FieldRecords(m, k - 1) + FieldRecord(m, k)
  }

  /** The records of a message: its fields by number, then the unknown ones. */
  function Records(m: Message): seq<Record> { FieldRecords(m, 8) + m.unknown }

  function Serialize(m: Message): seq<byte> { EncodeAll(Records(m)) }

  /** MergeFrom: fields that are present in `from` win, unknown records are added. */
  function Merge(m: Message, from: Message): Message {
    Message(
      m.present + from.present,
      if Has(from, 1) then from.opType else m.opType,
      if Has(from, 2) then from.shard else m.shard,
      if Has(from, 3) then from.partIndex else m.partIndex,
      if Has(from, 4) then from.partSign else m.partSign,
      if Has(from, 5) then from.fileName else m.fileName,
      if Has(from, 6) then from.fileSign else m.fileSign,
      if Has(from, 7) then from.usr else m.usr,
      if Has(from, 8) then from.body else m.body,
      m.unknown + from.unknown)
  }

  // Parsing what was written.

  /** Parsing a written record applies it and goes on with what follows. */
  lemma ParseRecord(m: Message, r: Record, rest: seq<byte>)
    requires WellFormed(r)
    ensures Parse(m, Encode(r) + rest) == Parse(Apply(m, r), rest)
  {
    hide Encode, EncodePayload, ReadTag, ReadPayload, Apply;
    RecordRoundTrip(r, rest);
    var tag := 8 * r.number + WireType(r.payload);
    assert tag / 8 == r.number && tag % 8 == WireType(r.payload) && tag % 8 != 4 && tag != 0;
    assert Encode(r) + rest != [];
  }

  lemma {:induction false} ParseRecords(m: Message, rs: seq<Record>, rest: seq<byte>)
    requires forall r :: r in rs ==> WellFormed(r)
    ensures Parse(m, EncodeAll(rs) + rest) == Parse(ApplyAll(m, rs), rest)
    decreases |rs|
  {
    hide Encode, Parse, Apply, WellFormed;
    if rs == [] {
      assert EncodeAll(rs) + rest == rest;
    } else {
      Associate(Encode(rs[0]), EncodeAll(rs[1..]), rest);
      ParseRecord(m, rs[0], EncodeAll(rs[1..]) + rest);
      ParseRecords(Apply(m, rs[0]), rs[1..], rest);
    }
  }

  // What a sequence of records does to each field.

  datatype Field = Field(present: bool, number: uint32, bytes: seq<byte>)

  function FieldOf(m: Message, n: nat): Field
    requires 1 <= n <= 8
  {
    Field(Has(m, n), NumberOf(m, n), BytesOf(m, n))
  }

  function FieldSet(r: Record): Field
    requires Slot(r) != 0
  {
    if Slot(r) <= 3 then Field(true, r.payload.value % WORD, []) else Field(true, 0, r.payload.bytes)
  }

  lemma ApplyField(m: Message, r: Record, n: nat)
    requires 1 <= n <= 8
    ensures FieldOf(Apply(m, r), n) == if Slot(r) == n then FieldSet(r) else FieldOf(m, n)
    ensures Apply(m, r).unknown == m.unknown + if Slot(r) == 0 then [r] else []
    ensures Apply(m, r).present == m.present + if Slot(r) == 0 then {} else {Slot(r)}
  {
  }

  /** The records that set field n, in order. */
  function Select(rs: seq<Record>, n: nat): seq<Record> {
    if rs == [] then [] else (if Slot(rs[0]) == n then [rs[0]] else []) + Select(rs[1..], n)
  }

  lemma {:induction false} SelectSlot(rs: seq<Record>, n: nat)
    ensures forall r :: r in Select(rs, n) ==> Slot(r) == n
  {
    if rs == [] {
    } else {
      SelectSlot(rs[1..], n);
    }
  }

  ghost function LastField(f: Field, s: seq<Record>): Field {
    if s == [] || Slot(s[|s| - 1]) == 0 then f else FieldSet(s[|s| - 1])
  }

  lemma LastFieldStep(f: Field, r: Record, s: seq<Record>, n: nat)
    requires n != 0 && forall r' :: r' in s ==> Slot(r') == n
    ensures LastField(if Slot(r) == n then FieldSet(r) else f, s) ==
            LastField(f, (if Slot(r) == n then [r] else []) + s)
  {
    hide FieldSet, Slot;
    if s == [] {
      assert [r] + s == [r] && [] + s == s;
    } else {
      assert s[|s| - 1] in s;
      assert ([r] + s)[|s|] == s[|s| - 1];
      assert [] + s == s;
    }
  }

  /** Last one wins: a field ends up as the last record for it says, and is untouched if there is none. */
  lemma {:induction false} LastOneWins(m: Message, rs: seq<Record>, n: nat)
    requires 1 <= n <= 8
    ensures FieldOf(ApplyAll(m, rs), n) == LastField(FieldOf(m, n), Select(rs, n))
    decreases |rs|
  {
    hide Apply, FieldOf, FieldSet, LastField;
    if rs == [] {
      LastFieldOfNone(FieldOf(m, n));
    } else {
      ApplyField(m, rs[0], n);
      LastOneWins(Apply(m, rs[0]), rs[1..], n);
      SelectSlot(rs[1..], n);
      LastFieldStep(FieldOf(m, n), rs[0], Select(rs[1..], n), n);
    }
  }

  lemma LastFieldOfNone(f: Field)
    ensures LastField(f, []) == f
  {
  }

  /** Unknown records are kept in order, and records add no numbers but those of fields. */
  lemma {:induction false} UnknownKept(m: Message, rs: seq<Record>)
    ensures ApplyAll(m, rs).unknown == m.unknown + Select(rs, 0)
    ensures forall n :: n in ApplyAll(m, rs).present ==> n in m.present || 1 <= n <= 8
    ensures m.present <= ApplyAll(m, rs).present
    decreases |rs|
  {
    hide Apply, FieldOf, FieldSet;
    if rs == [] {
      assert m.unknown + [] == m.unknown;
    } else {
      ApplyField(m, rs[0], 1);
      UnknownKept(Apply(m, rs[0]), rs[1..]);
      Associate(m.unknown, if Slot(rs[0]) == 0 then [rs[0]] else [], Select(rs[1..], 0));
    }
  }

  /** A message is its fields and its unknown records. */
  lemma FieldsDetermine(m: Message, m': Message)
    requires forall n | 1 <= n <= 8 :: FieldOf(m, n) == FieldOf(m', n)
    requires m.unknown == m'.unknown
    requires forall n | n !in {1, 2, 3, 4, 5, 6, 7, 8} :: n in m.present <==> n in m'.present
    ensures m == m'
  {
    hide FieldOf;
    assert FieldOf(m, 1) == FieldOf(m', 1) && FieldOf(m, 2) == FieldOf(m', 2) && FieldOf(m, 3) == FieldOf(m', 3);
    assert FieldOf(m, 4) == FieldOf(m', 4) && FieldOf(m, 5) == FieldOf(m', 5) && FieldOf(m, 6) == FieldOf(m', 6);
    assert FieldOf(m, 7) == FieldOf(m', 7) && FieldOf(m, 8) == FieldOf(m', 8);
    FieldsOf(m);
    FieldsOf(m');
    forall n: nat ensures n in m.present <==> n in m'.present {
      if 1 <= n <= 8 {
        PresentField(m, n);
        PresentField(m', n);
      } else {
        assert n !in {1, 2, 3, 4, 5, 6, 7, 8};
      }
    }
    assert m.present == m'.present;
  }

  lemma PresentField(m: Message, n: nat)
    requires 1 <= n <= 8
    ensures FieldOf(m, n).present <==> n in m.present
  {
  }

  lemma FieldsOf(m: Message)
    ensures FieldOf(m, 1).number == m.opType && FieldOf(m, 2).number == m.shard && FieldOf(m, 3).number == m.partIndex
    ensures FieldOf(m, 4).bytes == m.partSign && FieldOf(m, 5).bytes == m.fileName
    ensures FieldOf(m, 6).bytes == m.fileSign && FieldOf(m, 7).bytes == m.usr && FieldOf(m, 8).bytes == m.body
  {
  }

  /** Records may be reordered freely as long as those for one field, and the unknown ones, keep their order. */
  lemma Reordering(m: Message, rs: seq<Record>, rs': seq<Record>)
    requires forall n | 0 <= n <= 8 :: Select(rs, n) == Select(rs', n)
    ensures ApplyAll(m, rs) == ApplyAll(m, rs')
  {
    hide Select, FieldOf, ApplyAll, LastField;
    forall n | 1 <= n <= 8 ensures FieldOf(ApplyAll(m, rs), n) == FieldOf(ApplyAll(m, rs'), n) {
      LastOneWins(m, rs, n);
      LastOneWins(m, rs', n);
    }
    assert Select(rs, 0) == Select(rs', 0);
    UnknownKept(m, rs);
    UnknownKept(m, rs');
    FieldsDetermine(ApplyAll(m, rs), ApplyAll(m, rs'));
  }

  /** On the wire: the bytes of the reordered records parse to the same message. */
  lemma ReorderedBytes(m: Message, rs: seq<Record>, rs': seq<Record>)
    requires forall r :: r in rs + rs' ==> WellFormed(r)
    requires forall n | 0 <= n <= 8 :: Select(rs, n) == Select(rs', n)
    ensures Parse(m, EncodeAll(rs)) == Parse(m, EncodeAll(rs')) == Ended(ApplyAll(m, rs))
  {
    forall r | r in rs ensures WellFormed(r) { assert r in rs + rs'; }
    forall r | r in rs' ensures WellFormed(r) { assert r in rs + rs'; }
    hide Select, EncodeAll, WellFormed;
    ParseRecords(m, rs, []);
    ParseRecords(m, rs', []);
    assert EncodeAll(rs) + [] == EncodeAll(rs) && EncodeAll(rs') + [] == EncodeAll(rs');
    Reordering(m, rs, rs');
  }

  /** Two records for different fields, or one of them unknown, may change places; two different unknown records
      may not, because unknown records are kept in the order they arrived. */
  lemma SwapExactly(m: Message, r: Record, r': Record)
    requires WellFormed(r) && WellFormed(r')
    ensures Slot(r) != Slot(r') ==> Parse(m, Encode(r) + Encode(r')) == Parse(m, Encode(r') + Encode(r))
    ensures Slot(r) == Slot(r') == 0 ==>
      (Parse(m, Encode(r) + Encode(r')) == Parse(m, Encode(r') + Encode(r)) <==> r == r')
  {
    hide Encode, Parse, WellFormed, Select, EncodeAll, ApplyAll, Slot;
    var rs, rs' := [r, r'], [r', r];
    TwoRecords(r, r');
    TwoRecords(r', r);
    ParseRecords(m, rs, []);
    ParseRecords(m, rs', []);
    EndOfInput(ApplyAll(m, rs));
    EndOfInput(ApplyAll(m, rs'));
    assert EncodeAll(rs) + [] == EncodeAll(rs) && EncodeAll(rs') + [] == EncodeAll(rs');
    if Slot(r) != Slot(r') {
      forall n | 0 <= n <= 8 ensures Select(rs, n) == Select(rs', n) {
        SelectTwo(r, r', n);
        SelectTwo(r', r, n);
      }
      Reordering(m, rs, rs');
    } else if Slot(r) == 0 {
      SelectTwo(r, r', 0);
      SelectTwo(r', r, 0);
      UnknownKept(m, rs);
      UnknownKept(m, rs');
      assert (m.unknown + ([r] + [r']))[|m.unknown|] == r && (m.unknown + ([r'] + [r]))[|m.unknown|] == r';
    }
  }

  lemma EndOfInput(m: Message)
    ensures Parse(m, []) == Ended(m)
  {
  }

  lemma TwoRecords(r: Record, r': Record)
    ensures EncodeAll([r, r']) == Encode(r) + Encode(r')
  {
    hide Encode;
    assert [r, r'][1..] == [r'] && [r'][1..] == [];
    assert EncodeAll([r']) == Encode(r') + EncodeAll([]);
  }

  lemma SelectTwo(r: Record, r': Record, n: nat)
    ensures Select([r, r'], n) == (if Slot(r) == n then [r] else []) + (if Slot(r') == n then [r'] else [])
  {
    hide Slot;
    assert [r, r'][1..] == [r'] && [r'][1..] == [];
    assert Select([r'], n) == (if Slot(r') == n then [r'] else []) + Select([], n);
  }

  // Serialization, parsing and merging of whole messages.

  lemma {:induction false} SelectConcat(rs: seq<Record>, rs': seq<Record>, n: nat)
    ensures Select(rs + rs', n) == Select(rs, n) + Select(rs', n)
  {
    hide Slot;
    if rs == [] {
      assert rs + rs' == rs';
    } else {
      assert (rs + rs')[1..] == rs[1..] + rs';
      SelectConcat(rs[1..], rs', n);
      Associate(if Slot(rs[0]) == n then [rs[0]] else [], Select(rs[1..], n), Select(rs', n));
    }
  }

  lemma {:induction false} SelectUnknown(rs: seq<Record>, n: nat)
    requires forall r :: r in rs ==> Slot(r) == 0
    ensures Select(rs, n) == if n == 0 then rs else []
  {
    if rs == [] {
    } else {
      SelectUnknown(rs[1..], n);
    }
  }

  lemma SelectField(m: Message, k: nat, n: nat)
    requires 1 <= k <= 8
    ensures Select(FieldRecord(m, k), n) == if k == n then FieldRecord(m, k) else []
  {
  }

  lemma SelectTwoFields(rs: seq<Record>, m: Message, k: nat, n: nat)
    requires 1 <= k <= 8
    ensures Select(rs + FieldRecord(m, k), n) == Select(rs, n) + if k == n then FieldRecord(m, k) else []
  {
    hide Select, FieldRecord;
    SelectConcat(rs, FieldRecord(m, k), n);
    SelectField(m, k, n);
  }

  lemma {:induction false} SelectFields(m: Message, k: nat, n: nat)
    requires k <= 8
    ensures Select(FieldRecords(m, k), n) == if 1 <= n <= k then FieldRecord(m, n) else []
  {
    hide Select, FieldRecord;
    if k == 0 {
      SelectUnknown([], n);
    } else {
      SelectFields(m, k - 1, n);
      SelectTwoFields(FieldRecords(m, k - 1), m, k, n);
    }
  }

  lemma SelectRecords(m: Message, n: nat)
    requires Canonical(m) && n <= 8
    ensures Select(Records(m), n) == if n == 0 then m.unknown else FieldRecord(m, n)
  {
    hide Select, FieldRecord, FieldRecords;
    SelectFields(m, 8, n);
    SelectConcat(FieldRecords(m, 8), m.unknown, n);
    SelectUnknown(m.unknown, n);
  }

  lemma MergeField(m: Message, from: Message, n: nat)
    requires 1 <= n <= 8
    ensures FieldOf(Merge(m, from), n) == if Has(from, n) then FieldOf(from, n) else FieldOf(m, n)
  {
  }

  lemma LastFieldOfMessage(f: Field, m: Message, n: nat)
    requires 1 <= n <= 8
    ensures LastField(f, FieldRecord(m, n)) == if Has(m, n) then FieldOf(m, n) else f
  {
  }

  lemma RecordsMerge(m: Message, from: Message)
    requires Canonical(from)
    ensures ApplyAll(m, Records(from)) == Merge(m, from)
  {
    hide Records, ApplyAll, Select, Merge, FieldOf, Canonical, LastField, FieldRecord, Has;
    forall n | 1 <= n <= 8 ensures FieldOf(ApplyAll(m, Records(from)), n) == FieldOf(Merge(m, from), n) {
      LastOneWins(m, Records(from), n);
      SelectRecords(from, n);
      LastFieldOfMessage(FieldOf(m, n), from, n);
      MergeField(m, from, n);
    }
    UnknownKept(m, Records(from));
    SelectRecords(from, 0);
    MergeRest(m, from);
    FieldsDetermine(ApplyAll(m, Records(from)), Merge(m, from));
  }

  lemma MergeRest(m: Message, from: Message)
    requires Canonical(from)
    ensures Merge(m, from).unknown == m.unknown + from.unknown
    ensures forall n | n !in {1, 2, 3, 4, 5, 6, 7, 8} :: n in Merge(m, from).present <==> n in m.present
  {
  }

  lemma RecordsWellFormed(m: Message)
    requires Canonical(m) && Serializable(m)
    ensures forall r :: r in Records(m) ==> WellFormed(r)
  {
    hide Canonical, Serializable;
    FieldRecordsWellFormed(m, 8);
    assert forall u :: u in m.unknown ==> WellFormed(u) by { CanonicalUnknown(m); }
  }

  lemma CanonicalUnknown(m: Message)
    requires Canonical(m)
    ensures forall u :: u in m.unknown ==> WellFormed(u)
  {
  }

  lemma {:induction false} FieldRecordsWellFormed(m: Message, k: nat)
    requires Serializable(m) && k <= 8
    ensures forall r :: r in FieldRecords(m, k) ==> WellFormed(r)
  {
    if k == 0 {
    } else {
      FieldRecordsWellFormed(m, k - 1);
    }
  }

  /** Parsing the serialization of a message into another is merging it. */
  lemma ParseSerialized(m: Message, from: Message, rest: seq<byte>)
    requires Canonical(from) && Serializable(from)
    ensures Parse(m, Serialize(from) + rest) == Parse(Merge(m, from), rest)
  {
    hide Records, Parse, Merge, EncodeAll, WellFormed;
    RecordsWellFormed(from);
    ParseRecords(m, Records(from), rest);
    RecordsMerge(m, from);
  }

  lemma MergeIntoEmpty(m: Message)
    requires Canonical(m)
    ensures Merge(EMPTY, m) == m
  {
    hide FieldOf;
    forall n | 1 <= n <= 8 ensures FieldOf(Merge(EMPTY, m), n) == FieldOf(m, n) {
      MergeField(EMPTY, m, n);
      DefaultField(m, n);
    }
    MergeRest(EMPTY, m);
    assert EMPTY.unknown + m.unknown == m.unknown;
    assert forall n :: n in m.present ==> 1 <= n <= 8;
    hide Merge, Canonical;
    FieldsDetermine(Merge(EMPTY, m), m);
  }

  lemma DefaultField(m: Message, n: nat)
    requires 1 <= n <= 8 && Canonical(m)
    ensures !Has(m, n) ==> FieldOf(m, n) == FieldOf(EMPTY, n)
  {
  }

  /** Every message comes back from its bytes with the same has-bits and field values. */
  lemma RoundTrip(m: Message)
    requires Canonical(m) && Serializable(m)
    ensures Parse(EMPTY, Serialize(m)) == Ended(m)
  {
    hide Serialize, Merge;
    ParseSerialized(EMPTY, m, []);
    assert Serialize(m) + [] == Serialize(m);
    MergeIntoEmpty(m);
  }

  /** The bytes of two messages in a row are parsed as the merge of the second into the first. */
  lemma ConcatenationMerges(m: Message, m': Message)
    requires Canonical(m) && Serializable(m) && Canonical(m') && Serializable(m')
    ensures Parse(EMPTY, Serialize(m) + Serialize(m')) == Ended(Merge(m, m'))
  {
    hide Serialize, Merge, Canonical;
    ParseSerialized(EMPTY, m, Serialize(m'));
    MergeIntoEmpty(m);
    ParseSerialized(m, m', []);
    assert Serialize(m') + [] == Serialize(m');
  }

  /** Applying any record keeps messages canonical, so whatever is parsed can be serialized and parsed again. */
  lemma ApplyCanonical(m: Message, r: Record)
    requires Canonical(m) && (Slot(r) == 0 ==> WellFormed(r))
    ensures Canonical(Apply(m, r))
  {
    forall n | 1 <= n <= 8
      ensures !Has(Apply(m, r), n) ==> NumberOf(Apply(m, r), n) == 0 && BytesOf(Apply(m, r), n) == []
    {
      ApplyField(m, r, n);
      assert FieldOf(Apply(m, r), n) == if Slot(r) == n then FieldSet(r) else FieldOf(m, n);
    }
    ApplyField(m, r, 1);
  }

  lemma SetCanonical(m: Message, n: nat, v: uint32, b: seq<byte>, r: Record)
    requires Canonical(m)
    ensures 1 <= n <= 3 ==> Canonical(SetNumber(m, n, v))
    ensures 4 <= n <= 8 ==> Canonical(SetBytes(m, n, b))
    ensures WellFormed(r) && Slot(r) == 0 ==> Canonical(m.(unknown := m.unknown + [r]))
  {
    if 1 <= n <= 3 {
      ApplyCanonical(m, Record(n, Number(v)));
    } else if 4 <= n <= 8 {
      ApplyCanonical(m, Record(n, Bytes(b)));
    }
    if WellFormed(r) && Slot(r) == 0 {
      ApplyCanonical(m, r);
    }
  }

  lemma MergeCanonical(m: Message, from: Message)
    requires Canonical(m) && Canonical(from)
    ensures Canonical(Merge(m, from))
  {
    forall n | 1 <= n <= 8
      ensures !Has(Merge(m, from), n) ==> NumberOf(Merge(m, from), n) == 0 && BytesOf(Merge(m, from), n) == []
    {
      MergeField(m, from, n);
      assert FieldOf(Merge(m, from), n) == if Has(from, n) then FieldOf(from, n) else FieldOf(m, n);
    }
  }

  lemma ReadPayloadWellFormed(tag: uint32, m: seq<byte>)
    requires ReadPayload(tag, m).Some?
    ensures WellFormed(Record(tag / 8, ReadPayload(tag, m).value.value))
    ensures tag % 8 == WireType(ReadPayload(tag, m).value.value)
  {
  }

  lemma {:induction false} ParseCanonical(m: Message, data: seq<byte>)
    requires Canonical(m)
    ensures Parse(m, data).Failed? || Canonical(Parse(m, data).message)
    decreases |data|
  {
    hide Canonical, Apply, ReadTag, ReadPayload, WellFormed;
    if data != [] && ReadTag(data).Some? {
      var t := ReadTag(data).value;
      if t.value % 8 != 4 && t.value != 0 && ReadPayload(t.value, t.rest).Some? {
        var p := ReadPayload(t.value, t.rest).value;
        ReadPayloadWellFormed(t.value, t.rest);
        ApplyCanonical(m, Record(t.value / 8, p.value));
        ParseCanonical(Apply(m, Record(t.value / 8, p.value)), p.rest);
      }
    }
  }

  lemma ApplySerializable(m: Message, r: Record)
    requires Serializable(m) && WellFormed(r)
    ensures Serializable(Apply(m, r))
  {
    hide Apply;
    forall n | 1 <= n <= 8 ensures |BytesOf(Apply(m, r), n)| < MAX_LENGTH {
      ApplyField(m, r, n);
      assert FieldOf(Apply(m, r), n).bytes == if Slot(r) == n then FieldSet(r).bytes else BytesOf(m, n);
    }
  }

  lemma {:induction false} ParseSerializable(m: Message, data: seq<byte>)
    requires Serializable(m)
    ensures Parse(m, data).Failed? || Serializable(Parse(m, data).message)
    decreases |data|
  {
    hide Serializable, Apply, ReadTag, ReadPayload, WellFormed;
    if data != [] && ReadTag(data).Some? {
      var t := ReadTag(data).value;
      if t.value % 8 != 4 && t.value != 0 && ReadPayload(t.value, t.rest).Some? {
        var p := ReadPayload(t.value, t.rest).value;
        ReadPayloadWellFormed(t.value, t.rest);
        ApplySerializable(m, Record(t.value / 8, p.value));
        ParseSerializable(Apply(m, Record(t.value / 8, p.value)), p.rest);
      }
    }
  }

  /** Whatever order the records of a message arrived in: what was parsed is parsed again from its serialization. */
  lemma ParsedRoundTrip(data: seq<byte>)
    requires Parse(EMPTY, data).Ended?
    ensures
      var m := Parse(EMPTY, data).message;
      |m.body| < MAX_LENGTH && Parse(EMPTY, Serialize(m)) == Ended(m)
  {
    hide Parse, Serialize, Canonical, FieldRecords;
    EmptyMessage();
    ParseCanonical(EMPTY, data);
    ParseSerializable(EMPTY, data);
    var m := Parse(EMPTY, data).message;
    RoundTrip(m);
    assert |BytesOf(m, 8)| < MAX_LENGTH;
  }

  lemma EmptyMessage()
    ensures Canonical(EMPTY) && Serializable(EMPTY)
  {
  }

  // One turn of the parser, by the kind of tag it meets.

  lemma ParseNumberField(m: Message, data: seq<byte>, n: nat)
    requires data != [] && ReadTag(data).Some? && 1 <= n <= 3 && ReadTag(data).value.value == 8 * n
    ensures
      match ReadVarint32(ReadTag(data).value.rest)
      case None => Parse(m, data) == Failed
      case Some(v) => Parse(m, data) == Parse(SetNumber(m, n, v.value), v.rest)
  {
    hide ReadTag, ReadVarint;
    var rest := ReadTag(data).value.rest;
    if ReadVarint(rest, 10).Some? {
      TruncateTwice(ReadVarint(rest, 10).value.value);
    }
  }

  lemma TruncateTwice(v: nat)
    ensures v % M64 % WORD == v % WORD
  {
    assert v == WORD * (WORD * (v / M64)) + v % M64;
    ModShift(v % M64, WORD * (v / M64), WORD);
  }

  lemma ParseBytesField(m: Message, data: seq<byte>, n: nat)
    requires data != [] && ReadTag(data).Some? && 4 <= n <= 8 && ReadTag(data).value.value == 8 * n + 2
    ensures
      match ReadBytes(ReadTag(data).value.rest)
      case None => Parse(m, data) == Failed
      case Some(b) => Parse(m, data) == Parse(SetBytes(m, n, b.value), b.rest)
  {
    hide ReadTag, ReadBytes;
  }

  lemma ParseStops(m: Message, data: seq<byte>)
    requires data != []
    ensures ReadTag(data) == None ==> Parse(m, data) == Failed
    ensures ReadTag(data).Some? ==>
      var t := ReadTag(data).value;
      t.value % 8 == 4 || t.value == 0 ==> Parse(m, data) == Stopped(m, t.value, t.rest)
  {
    hide ReadTag;
  }

  /** No field takes the tag: it is not 8 n for n from 1 to 3 nor 8 n + 2 for n from 4 to 8. */
  predicate NoField(tag: uint32) {
    !(1 <= tag / 8 <= 3 && tag % 8 == 0) && !(4 <= tag / 8 <= 8 && tag % 8 == 2)
  }

  lemma ParseUnknownField(m: Message, data: seq<byte>)
    requires data != [] && ReadTag(data).Some?
    requires
      var tag := ReadTag(data).value.value;
      NoField(tag) && tag % 8 != 4 && tag != 0
    ensures
      var t := ReadTag(data).value;
      match ReadPayload(t.value, t.rest)
      case None => Parse(m, data) == Failed
      case Some(p) =>
        var r := Record(t.value / 8, p.value);
        WellFormed(r) && Slot(r) == 0 && Parse(m, data) == Parse(m.(unknown := m.unknown + [r]), p.rest)
  {
    hide ReadTag;
    var t := ReadTag(data).value;
    if ReadPayload(t.value, t.rest).Some? {
      ReadPayloadWellFormed(t.value, t.rest);
      hide ReadPayload;
    }
  }

  // The bytes of a message, field by field.

  lemma {:induction false} EncodeAllConcat(rs: seq<Record>, rs': seq<Record>)
    ensures EncodeAll(rs + rs') == EncodeAll(rs) + EncodeAll(rs')
  {
    hide Encode;
    if rs == [] {
      assert rs + rs' == rs';
    } else {
      assert (rs + rs')[1..] == rs[1..] + rs';
      EncodeAllConcat(rs[1..], rs');
      Associate(Encode(rs[0]), EncodeAll(rs[1..]), EncodeAll(rs'));
    }
  }

  function FieldBytes(m: Message, n: nat): seq<byte>
    requires 1 <= n <= 8
  {
    if !Has(m, n) then []
    else if n <= 3 then Varint(8 * n) + Varint(NumberOf(m, n))
    else Varint(8 * n + 2) + (Varint(|BytesOf(m, n)|) + BytesOf(m, n))
  }

  /** The bytes of the fields 1 to k. */
  function SerializedFields(m: Message, k: nat): seq<byte>
    requires k <= 8
  {
    EncodeAll(FieldRecords(m, k))
  }

  lemma EncodeOne(r: Record)
    ensures EncodeAll([r]) == Encode(r) && EncodeAll([]) == []
  {
    hide Encode;
    assert [r][1..] == [];
    assert EncodeAll([r]) == Encode(r) + EncodeAll([]);
  }

  /** The bytes of the record of a number field, and of a byte field. */
  lemma EncodeField(m: Message, k: nat)
    requires 1 <= k <= 8 && Has(m, k)
    ensures FieldRecord(m, k) == [FieldRecord(m, k)[0]] && Encode(FieldRecord(m, k)[0]) == FieldBytes(m, k)
  {
    hide Varint, NumberOf, BytesOf;
    if k <= 3 {
      assert FieldRecord(m, k)[0] == Record(k, Number(NumberOf(m, k)));
    } else {
      assert FieldRecord(m, k)[0] == Record(k, Bytes(BytesOf(m, k)));
    }
  }

  lemma FieldRecordBytes(m: Message, k: nat)
    requires 1 <= k <= 8
    ensures EncodeAll(FieldRecord(m, k)) == FieldBytes(m, k)
  {
    hide EncodeAll, Encode, Varint, NumberOf, BytesOf;
    if Has(m, k) {
      EncodeField(m, k);
      EncodeOne(FieldRecord(m, k)[0]);
    } else {
      EncodeOne(Record(1, Number(0)));
    }
  }

  lemma NextField(m: Message, k: nat)
    requires 1 <= k <= 8
    ensures SerializedFields(m, k) == SerializedFields(m, k - 1) + FieldBytes(m, k)
  {
    hide EncodeAll, FieldRecord, FieldBytes;
    EncodeAllConcat(FieldRecords(m, k - 1), FieldRecord(m, k));
    FieldRecordBytes(m, k);
  }

  lemma SerializedParts(m: Message)
    ensures SerializedFields(m, 0) == [] && Serialize(m) == SerializedFields(m, 8) + EncodeAll(m.unknown)
  {
    EncodeAllConcat(FieldRecords(m, 8), m.unknown);
  }

  /** The bytes of a field that carries b after a tag below 0x80. */
  function Tagged(m: Message, n: nat, tag: byte, b: seq<byte>): seq<byte> { if n in m.present then [tag] + b else [] }

  function Delimited(b: seq<byte>): seq<byte> { Varint(|b|) + b }

  lemma FieldLayout(m: Message)
    ensures FieldBytes(m, 1) == Tagged(m, 1, 8, Varint(m.opType))
    ensures FieldBytes(m, 2) == Tagged(m, 2, 16, Varint(m.shard))
    ensures FieldBytes(m, 3) == Tagged(m, 3, 24, Varint(m.partIndex))
    ensures FieldBytes(m, 4) == Tagged(m, 4, 34, Delimited(m.partSign))
    ensures FieldBytes(m, 5) == Tagged(m, 5, 42, Delimited(m.fileName))
    ensures FieldBytes(m, 6) == Tagged(m, 6, 50, Delimited(m.fileSign))
    ensures FieldBytes(m, 7) == Tagged(m, 7, 58, Delimited(m.usr))
    ensures FieldBytes(m, 8) == Tagged(m, 8, 66, Delimited(m.body))
  {
    SmallVarint(8);
    SmallVarint(16);
    SmallVarint(24);
    SmallVarint(34);
    SmallVarint(42);
    SmallVarint(50);
    SmallVarint(58);
    SmallVarint(66);
    hide Varint;
  }

  lemma SmallVarint(v: nat)
    requires v < 0x80
    ensures Varint(v) == [v]
  {
  }

  /** The serialization spelled out: the fields that are there, each behind its tag and in order of number, and then the
      unknown records. */
  lemma SerializationLayout(m: Message)
    ensures Serialize(m) ==
      Tagged(m, 1, 8, Varint(m.opType)) + Tagged(m, 2, 16, Varint(m.shard)) + Tagged(m, 3, 24, Varint(m.partIndex)) +
      Tagged(m, 4, 34, Delimited(m.partSign)) + Tagged(m, 5, 42, Delimited(m.fileName)) +
      Tagged(m, 6, 50, Delimited(m.fileSign)) + Tagged(m, 7, 58, Delimited(m.usr)) +
      Tagged(m, 8, 66, Delimited(m.body)) + EncodeAll(m.unknown)
  {
    hide SerializedFields, FieldBytes, Serialize, Tagged, Delimited, EncodeAll;
    FieldLayout(m);
    SerializedParts(m);
    NextField(m, 1);
    NextField(m, 2);
    NextField(m, 3);
    NextField(m, 4);
    NextField(m, 5);
    NextField(m, 6);
    NextField(m, 7);
    NextField(m, 8);
    assert [] + FieldBytes(m, 1) == FieldBytes(m, 1);
  }

  /** The size of field n: tag, number or length, and the bytes. */
  function FieldSize(m: Message, n: nat): nat
    requires 1 <= n <= 8
  {
    if !Has(m, n) then 0 else if n <= 3 then 1 + |Varint(NumberOf(m, n))| else 1 + |Varint(|BytesOf(m, n)|)| + |BytesOf(m, n)|
  }

  lemma FieldSizeCorrect(m: Message, n: nat)
    requires 1 <= n <= 8
    ensures FieldSize(m, n) == |FieldBytes(m, n)|
  {
    assert |Varint(8 * n)| == 1 && |Varint(8 * n + 2)| == 1;
  }

  /** The sizes of the eight fields and of the unknown records add up to the length of the serialization. */
  lemma SizesAddUp(m: Message)
    ensures |Serialize(m)| ==
      FieldSize(m, 1) + FieldSize(m, 2) + FieldSize(m, 3) + FieldSize(m, 4) +
      FieldSize(m, 5) + FieldSize(m, 6) + FieldSize(m, 7) + FieldSize(m, 8) + |EncodeAll(m.unknown)|
  {
    hide SerializedFields, FieldSize, FieldBytes, Serialize;
    SerializedParts(m);
    NextField(m, 1);
    NextField(m, 2);
    NextField(m, 3);
    NextField(m, 4);
    NextField(m, 5);
    NextField(m, 6);
    NextField(m, 7);
    NextField(m, 8);
    FieldSizeCorrect(m, 1);
    FieldSizeCorrect(m, 2);
    FieldSizeCorrect(m, 3);
    FieldSizeCorrect(m, 4);
    FieldSizeCorrect(m, 5);
    FieldSizeCorrect(m, 6);
    FieldSizeCorrect(m, 7);
    FieldSizeCorrect(m, 8);
  }

  /** All required fields are there. */
  predicate Complete(m: Message) {
    forall n | 1 <= n <= 8 :: Has(m, n)
  }
}
