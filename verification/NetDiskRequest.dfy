/** The generated class NetDiskRequest of NetDisk.pb.cc, over the values of NetDiskMessage. */
module NetDiskRequest {
  import opened Words
  import opened Wire
  import opened NetDiskMessage

  /** The word _has_bits_[0], as the set of the positions of its one bits. */
  type HasBits = set<nat>

  const BIT_PART_SIGN := 0
  const BIT_FILE_NAME := 1
  const BIT_FILE_SIGN := 2
  const BIT_USR := 3
  const BIT_BODY := 4
  const BIT_OP_TYPE := 5
  const BIT_SHARD := 6
  const BIT_PART_INDEX := 7

  /** The mask 0xff of all required fields. */
  const REQUIRED: HasBits := {0, 1, 2, 3, 4, 5, 6, 7}

  /** The bit of field n, by its number in NetDisk.proto. */
  function BitOf(n: nat): nat
    requires 1 <= n <= 8
  {
    match n
    case 1 => BIT_OP_TYPE case 2 => BIT_SHARD case 3 => BIT_PART_INDEX case 4 => BIT_PART_SIGN
    case 5 => BIT_FILE_NAME case 6 => BIT_FILE_SIGN case 7 => BIT_USR case 8 => BIT_BODY
  }

  /** The fields whose bit is set. */
  function Fields(h: HasBits): set<nat> {
    set n: nat | 1 <= n <= 8 && BitOf(n) in h
  }

  lemma AddBit(h: HasBits, n: nat)
    requires 1 <= n <= 8
    ensures Fields(h + {BitOf(n)}) == Fields(h) + {n}
  {
  }

  lemma FieldsOr(h: HasBits, k: HasBits)
    ensures Fields(h + k) == Fields(h) + Fields(k)
  {
  }

  lemma FieldBits(h: HasBits)
    ensures 1 in Fields(h) <==> BIT_OP_TYPE in h
    ensures 2 in Fields(h) <==> BIT_SHARD in h
    ensures 3 in Fields(h) <==> BIT_PART_INDEX in h
    ensures 4 in Fields(h) <==> BIT_PART_SIGN in h
    ensures 5 in Fields(h) <==> BIT_FILE_NAME in h
    ensures 6 in Fields(h) <==> BIT_FILE_SIGN in h
    ensures 7 in Fields(h) <==> BIT_USR in h
    ensures 8 in Fields(h) <==> BIT_BODY in h
  {
  }

  lemma AllRequired(h: HasBits)
    ensures REQUIRED <= h <==> forall n: nat | 1 <= n <= 8 :: n in Fields(h)
  {
    if forall n: nat | 1 <= n <= 8 :: n in Fields(h) {
      assert 1 in Fields(h) && 2 in Fields(h) && 3 in Fields(h) && 4 in Fields(h);
      assert 5 in Fields(h) && 6 in Fields(h) && 7 in Fields(h) && 8 in Fields(h);
    }
  }

  /** The case of the parser's switch a tag falls into; 0 for handle_unusual. */
  function FieldOfTag(tag: uint32): nat {
    match tag / 8
    case 1 => if tag % 0x100 == 8 then 1 else 0
    case 2 => if tag % 0x100 == 16 then 2 else 0
    case 3 => if tag % 0x100 == 24 then 3 else 0
    case 4 => if tag % 0x100 == 34 then 4 else 0
    case 5 => if tag % 0x100 == 42 then 5 else 0
    case 6 => if tag % 0x100 == 50 then 6 else 0
    case 7 => if tag % 0x100 == 58 then 7 else 0
    case 8 => if tag % 0x100 == 66 then 8 else 0
    case _ => 0
  }

  lemma TagsOfFields(tag: uint32)
    ensures
      var n := FieldOfTag(tag);
      if n == 0 then NoField(tag) else if n <= 3 then tag == 8 * n else n <= 8 && tag == 8 * n + 2
  {
  }

  /** How _InternalParse returns: at the end of the input, at a tag that ends the message, or with a null pointer. */
  datatype End = AtEnd | AtTag(tag: uint32, rest: seq<byte>) | Error

  class NetDiskRequest {
    var hasBits: HasBits
    var opType: uint32
    var shard: uint32
    var partIndex: uint32
    var partSign: seq<byte>
    var fileName: seq<byte>
    var fileSign: seq<byte>
    var usr: seq<byte>
    var body: seq<byte>
    var unknown: seq<Record>
    var cachedSize: int

    ghost function View(): Message
      reads this
    {
      Message(Fields(hasBits), opType, shard, partIndex, partSign, fileName, fileSign, usr, body, unknown)
    }

    ghost predicate Valid()
      reads this
    {
      Canonical(View())
    }

    constructor ()
      ensures Valid() && View() == EMPTY
    {
      hasBits, opType, shard, partIndex := {}, 0, 0, 0;
      partSign, fileName, fileSign, usr, body := [], [], [], [], [];
      unknown := [];
      cachedSize := 0;
    }

    method SetOpType(v: uint32)
      requires Valid()
      modifies this
      ensures Valid() && View() == SetNumber(old(View()), 1, v)
    {
      hide Fields, Canonical;
      AddBit(hasBits, 1);
      SetCanonical(View(), 1, v, [], Record(1, Number(0)));
      hasBits := hasBits + {BIT_OP_TYPE};
      opType := v;
    }

    method SetShard(v: uint32)
      requires Valid()
      modifies this
      ensures Valid() && View() == SetNumber(old(View()), 2, v)
    {
      hide Fields, Canonical;
      AddBit(hasBits, 2);
      SetCanonical(View(), 2, v, [], Record(2, Number(0)));
      hasBits := hasBits + {BIT_SHARD};
      shard := v;
    }

    method SetPartIndex(v: uint32)
      requires Valid()
      modifies this
      ensures Valid() && View() == SetNumber(old(View()), 3, v)
    {
      hide Fields, Canonical;
      AddBit(hasBits, 3);
      SetCanonical(View(), 3, v, [], Record(3, Number(0)));
      hasBits := hasBits + {BIT_PART_INDEX};
      partIndex := v;
    }

    method SetPartSign(b: seq<byte>)
      requires Valid()
      modifies this
      ensures Valid() && View() == SetBytes(old(View()), 4, b)
    {
      hide Fields, Canonical;
      AddBit(hasBits, 4);
      SetCanonical(View(), 4, 0, b, Record(4, Number(0)));
      hasBits := hasBits + {BIT_PART_SIGN};
      partSign := b;
    }

    method SetFileName(b: seq<byte>)
      requires Valid()
      modifies this
      ensures Valid() && View() == SetBytes(old(View()), 5, b)
    {
      hide Fields, Canonical;
      AddBit(hasBits, 5);
      SetCanonical(View(), 5, 0, b, Record(5, Number(0)));
      hasBits := hasBits + {BIT_FILE_NAME};
      fileName := b;
    }

    method SetFileSign(b: seq<byte>)
      requires Valid()
      modifies this
      ensures Valid() && View() == SetBytes(old(View()), 6, b)
    {
      hide Fields, Canonical;
      AddBit(hasBits, 6);
      SetCanonical(View(), 6, 0, b, Record(6, Number(0)));
      hasBits := hasBits + {BIT_FILE_SIGN};
      fileSign := b;
    }

    method SetUsr(b: seq<byte>)
      requires Valid()
      modifies this
      ensures Valid() && View() == SetBytes(old(View()), 7, b)
    {
      hide Fields, Canonical;
      AddBit(hasBits, 7);
      SetCanonical(View(), 7, 0, b, Record(7, Number(0)));
      hasBits := hasBits + {BIT_USR};
      usr := b;
    }

    method SetBody(b: seq<byte>)
      requires Valid()
      modifies this
      ensures Valid() && View() == SetBytes(old(View()), 8, b)
    {
      hide Fields, Canonical;
      AddBit(hasBits, 8);
      SetCanonical(View(), 8, 0, b, Record(8, Number(0)));
      hasBits := hasBits + {BIT_BODY};
      body := b;
    }

    /** The message while the parser runs: `bits` are the has-bits it keeps aside until its loop ends. */
    ghost function Pending(bits: HasBits): Message
      reads this
    {
      View().(present := Fields(hasBits + bits))
    }

    /** Cases 1 to 3 of the switch; none if the varint is malformed. */
    method TakeNumber(n: nat, rest: seq<byte>, bits: HasBits) returns (ptr: Option<seq<byte>>, bits': HasBits)
      requires 1 <= n <= 3 && Canonical(Pending(bits))
      modifies this
      ensures Canonical(Pending(bits'))
      ensures
        match ReadVarint32(rest)
        case None => ptr == None
        case Some(v) => ptr == Some(v.rest) && Pending(bits') == SetNumber(old(Pending(bits)), n, v.value)
    {
      hide ReadVarint32, Canonical, Fields, BitOf;
      ghost var m := Pending(bits);
      AddBit(hasBits + bits, n);
      assert hasBits + (bits + {BitOf(n)}) == hasBits + bits + {BitOf(n)};
      assert hasBits + {BitOf(n)} + bits == hasBits + bits + {BitOf(n)};
      bits' := bits + {BitOf(n)};
      var v := ReadVarint32(rest);
      var x := if v == None then 0 else v.value.value;
      match n {
        case 1 => opType := x;
        case 2 => shard := x;
        case 3 => partIndex := x;
      }
      SetCanonical(m, n, x, [], Record(n, Number(0)));
      assert Pending(bits') == SetNumber(m, n, x);
      ptr := if v == None then None else Some(v.value.rest);
    }

    /** Cases 4 to 8 of the switch, which set their has-bit at once. */
    method TakeBytes(n: nat, rest: seq<byte>, bits: HasBits) returns (ptr: Option<seq<byte>>)
      requires 4 <= n <= 8 && Canonical(Pending(bits))
      modifies this
      ensures Canonical(Pending(bits))
      ensures
        match ReadBytes(rest)
        case None => ptr == None
        case Some(b) => ptr == Some(b.rest) && Pending(bits) == SetBytes(old(Pending(bits)), n, b.value)
    {
      hide ReadBytes, Canonical, Fields, BitOf;
      ghost var m := Pending(bits);
      AddBit(hasBits + bits, n);
      assert hasBits + (bits + {BitOf(n)}) == hasBits + bits + {BitOf(n)};
      assert hasBits + {BitOf(n)} + bits == hasBits + bits + {BitOf(n)};
      hasBits := hasBits + {BitOf(n)};
      var b := ReadBytes(rest);
      if b == None {
        SetCanonical(m, n, 0, BytesOf(m, n), Record(n, Number(0)));
        assert Pending(bits) == SetBytes(m, n, BytesOf(m, n));
        return None;
      }
      match n {
        case 4 => partSign := b.value.value;
        case 5 => fileName := b.value.value;
        case 6 => fileSign := b.value.value;
        case 7 => usr := b.value.value;
        case 8 => body := b.value.value;
      }
      SetCanonical(m, n, 0, b.value.value, Record(n, Number(0)));
      assert Pending(bits) == SetBytes(m, n, b.value.value);
      ptr := Some(b.value.rest);
    }

    /** handle_unusual past its test for end tags: the record is kept. */
    method TakeUnknown(tag: uint32, rest: seq<byte>) returns (ptr: Option<seq<byte>>)
      modifies this`unknown
      ensures
        match ReadPayload(tag, rest)
        case None => ptr == None && unknown == old(unknown)
        case Some(p) => ptr == Some(p.rest) && unknown == old(unknown) + [Record(tag / 8, p.value)]
    {
      var p := ReadPayload(tag, rest);
      if p == None {
        return None;
      }
      unknown := unknown + [Record(tag / 8, p.value.value)];
      ptr := Some(p.value.rest);
    }

    method InternalParse(data: seq<byte>) returns (end: End)
      requires Valid()
      modifies this
      ensures Valid()
      ensures
        match end
        case AtEnd => Parse(old(View()), data) == Ended(View())
        case AtTag(tag, rest) => Parse(old(View()), data) == Stopped(View(), tag, rest)
        case Error => Parse(old(View()), data) == Failed
    {
      hide Parse, Canonical, ReadTag, ReadVarint32, ReadBytes, ReadPayload, WellFormed, Slot, Fields, FieldOfTag,
           SetNumber, SetBytes;
      var ptr := data;
      var bits: HasBits := {};
      end := AtEnd;
      assert hasBits + bits == hasBits;
      ghost var was := View();
      while ptr != []
        invariant Canonical(Pending(bits)) && Parse(was, data) == Parse(Pending(bits), ptr)
        invariant end == AtEnd
        decreases |ptr|
      {
        ghost var m := Pending(bits);
        ParseStops(m, ptr);
        var t := ReadTag(ptr);
        ParseStops(m, ptr);
        if t == None {
          end := Error;
          break;
        }
        var tag: uint32, rest := t.value.value, t.value.rest;
        var n := FieldOfTag(tag);
        TagsOfFields(tag);
        var next: Option<seq<byte>>;
        if 1 <= n <= 3 {
          ParseNumberField(m, ptr, n);
          next, bits := TakeNumber(n, rest, bits);
        } else if n != 0 {
          ParseBytesField(m, ptr, n);
          next := TakeBytes(n, rest, bits);
        } else {
          if tag % 8 == 4 || tag == 0 {
            end := AtTag(tag, rest);
            break;
          }
          ParseUnknownField(m, ptr);
          next := TakeUnknown(tag, rest);
          if next != None {
            SetCanonical(m, 0, 0, [], unknown[|unknown| - 1]);
          }
        }
        if next == None {
          end := Error;
          break;
        }
        ptr := next.value;
      }
      EndOfInput(Pending(bits));
      hasBits := hasBits + bits;
    }

    method InternalSerialize() returns (target: seq<byte>)
      ensures target == Serialize(View())
    {
      hide SerializedFields, Varint, Serialize;
      SerializedParts(View());
      target := [];
      NextField(View(), 1);
      if BIT_OP_TYPE in hasBits {
        target := WriteUInt32ToArray(1, opType, target);
      }
      assert target == SerializedFields(View(), 1);
      NextField(View(), 2);
      if BIT_SHARD in hasBits {
        target := WriteUInt32ToArray(2, shard, target);
      }
      assert target == SerializedFields(View(), 2);
      NextField(View(), 3);
      if BIT_PART_INDEX in hasBits {
        target := WriteUInt32ToArray(3, partIndex, target);
      }
      assert target == SerializedFields(View(), 3);
      NextField(View(), 4);
      if BIT_PART_SIGN in hasBits {
        target := WriteStringMaybeAliased(4, partSign, target);
      }
      assert target == SerializedFields(View(), 4);
      NextField(View(), 5);
      if BIT_FILE_NAME in hasBits {
        target := WriteStringMaybeAliased(5, fileName, target);
      }
      assert target == SerializedFields(View(), 5);
      NextField(View(), 6);
      if BIT_FILE_SIGN in hasBits {
        target := WriteStringMaybeAliased(6, fileSign, target);
      }
      assert target == SerializedFields(View(), 6);
      NextField(View(), 7);
      if BIT_USR in hasBits {
        target := WriteStringMaybeAliased(7, usr, target);
      }
      assert target == SerializedFields(View(), 7);
      NextField(View(), 8);
      if BIT_BODY in hasBits {
        target := WriteStringMaybeAliased(8, body, target);
      }
      assert target == SerializedFields(View(), 8);
      if unknown != [] {
        target := target + EncodeAll(unknown);
      }
    }

    /** RequiredFieldsByteSizeFallback: adds up the fields that are there. */
    method RequiredFieldsByteSizeFallback() returns (total: nat)
      requires Serializable(View())
      ensures total + |EncodeAll(unknown)| == |Serialize(View())|
    {
      hide FieldSize, Serialize, Serializable, Fields, StringSize;
      ghost var m := View();
      FieldSizes(m);
      SizesAddUp(m);
      FieldBits(hasBits);
      total := 0;
      if BIT_PART_SIGN in hasBits {
        total := total + 1 + StringSize(partSign);
      }
      if BIT_FILE_NAME in hasBits {
        total := total + 1 + StringSize(fileName);
      }
      if BIT_FILE_SIGN in hasBits {
        total := total + 1 + StringSize(fileSign);
      }
      if BIT_USR in hasBits {
        total := total + 1 + StringSize(usr);
      }
      if BIT_BODY in hasBits {
        total := total + 1 + StringSize(body);
      }
      assert total == FieldSize(m, 4) + FieldSize(m, 5) + FieldSize(m, 6) + FieldSize(m, 7) + FieldSize(m, 8);
      if BIT_OP_TYPE in hasBits {
        total := total + 1 + UInt32Size(opType);
      }
      if BIT_SHARD in hasBits {
        total := total + 1 + UInt32Size(shard);
      }
      if BIT_PART_INDEX in hasBits {
        total := total + 1 + UInt32Size(partIndex);
      }
    }

    /** ByteSizeLong: with all eight fields there it does not look at single bits. */
    method ByteSizeLong() returns (total: nat)
      requires Serializable(View())
      modifies this`cachedSize
      ensures total == |Serialize(View())| && cachedSize == AsInt32(total)
    {
      hide FieldSize, Serialize;
      if REQUIRED <= hasBits {
        FieldSizes(View());
        SizesAddUp(View());
        AllRequired(hasBits);
        total := 1 + StringSize(partSign);
        total := total + 1 + StringSize(fileName);
        total := total + 1 + StringSize(fileSign);
        total := total + 1 + StringSize(usr);
        total := total + 1 + StringSize(body);
        total := total + 1 + UInt32Size(opType);
        total := total + 1 + UInt32Size(shard);
        total := total + 1 + UInt32Size(partIndex);
      } else {
        total := RequiredFieldsByteSizeFallback();
      }
      if unknown != [] {
        total := total + |EncodeAll(unknown)|;
      }
      cachedSize := AsInt32(total);
    }

    /** Clear, first group: a string is emptied only if its bit is set. */
    method ClearStrings()
      modifies this`partSign, this`fileName, this`fileSign, this`usr, this`body
      ensures partSign == if BIT_PART_SIGN in hasBits then [] else old(partSign)
      ensures fileName == if BIT_FILE_NAME in hasBits then [] else old(fileName)
      ensures fileSign == if BIT_FILE_SIGN in hasBits then [] else old(fileSign)
      ensures usr == if BIT_USR in hasBits then [] else old(usr)
      ensures body == if BIT_BODY in hasBits then [] else old(body)
    {
      if BIT_PART_SIGN in hasBits {
        partSign := [];
      }
      if BIT_FILE_NAME in hasBits {
        fileName := [];
      }
      if BIT_FILE_SIGN in hasBits {
        fileSign := [];
      }
      if BIT_USR in hasBits {
        usr := [];
      }
      if BIT_BODY in hasBits {
        body := [];
      }
    }

    /** Clear, group by group; the three numbers are reset together if any of their bits is set. */
    method Clear()
      requires Valid()
      modifies this
      ensures Valid() && View() == EMPTY && cachedSize == old(cachedSize)
    {
      hide Fields, Canonical, AnyString, AnyNumber;
      AbsentFields(View());
      FieldBits(hasBits);
      EmptyCanonical();
      GroupBits(hasBits);
      if AnyString(hasBits) {
        ClearStrings();
      }
      assert partSign == fileName == fileSign == usr == body == [];
      if AnyNumber(hasBits) {
        opType, shard, partIndex := 0, 0, 0;
      }
      hasBits, unknown := {}, [];
      NoBits();
    }

    /** MergeFrom, the strings. */
    method MergeStrings(from: NetDiskRequest, bits: HasBits)
      requires from != this
      modifies this`partSign, this`fileName, this`fileSign, this`usr, this`body
      ensures partSign == if BIT_PART_SIGN in bits then from.partSign else old(partSign)
      ensures fileName == if BIT_FILE_NAME in bits then from.fileName else old(fileName)
      ensures fileSign == if BIT_FILE_SIGN in bits then from.fileSign else old(fileSign)
      ensures usr == if BIT_USR in bits then from.usr else old(usr)
      ensures body == if BIT_BODY in bits then from.body else old(body)
    {
      if BIT_PART_SIGN in bits {
        partSign := from.partSign;
      }
      if BIT_FILE_NAME in bits {
        fileName := from.fileName;
      }
      if BIT_FILE_SIGN in bits {
        fileSign := from.fileSign;
      }
      if BIT_USR in bits {
        usr := from.usr;
      }
      if BIT_BODY in bits {
        body := from.body;
      }
    }

    /** MergeFrom, the numbers. */
    method MergeNumbers(from: NetDiskRequest, bits: HasBits)
      requires from != this
      modifies this`opType, this`shard, this`partIndex
      ensures opType == if BIT_OP_TYPE in bits then from.opType else old(opType)
      ensures shard == if BIT_SHARD in bits then from.shard else old(shard)
      ensures partIndex == if BIT_PART_INDEX in bits then from.partIndex else old(partIndex)
    {
      if BIT_OP_TYPE in bits {
        opType := from.opType;
      }
      if BIT_SHARD in bits {
        shard := from.shard;
      }
      if BIT_PART_INDEX in bits {
        partIndex := from.partIndex;
      }
    }

    method MergeFrom(from: NetDiskRequest)
      requires Valid() && from.Valid() && from != this
      modifies this
      ensures Valid() && View() == Merge(old(View()), from.View()) && cachedSize == old(cachedSize)
    {
      hide Fields, Canonical, AnyField;
      MergeCanonical(View(), from.View());
      FieldsOr(hasBits, from.hasBits);
      FieldBits(from.hasBits);
      NoFields(from.hasBits);
      var bits := from.hasBits;
      unknown := unknown + from.unknown;
      if AnyField(bits) {
        MergeStrings(from, bits);
        MergeNumbers(from, bits);
        hasBits := hasBits + bits;
      } else {
        assert Fields(hasBits) == Fields(hasBits) + Fields(bits);
      }
    }

    method CopyFrom(from: NetDiskRequest)
      requires Valid() && from.Valid()
      modifies this
      ensures Valid() && View() == old(from.View())
    {
      if from == this {
        return;
      }
      Clear();
      MergeFrom(from);
      MergeIntoEmpty(from.View());
    }

    /** IsInitialized: whether all required fields are there. */
    method IsInitialized() returns (b: bool)
      ensures b <==> Complete(View())
    {
      hide Fields;
      AllRequired(hasBits);
      assert Complete(View()) <==> forall n: nat | 1 <= n <= 8 :: n in Fields(hasBits) by {
        if Complete(View()) {
          forall n: nat | 1 <= n <= 8 ensures n in Fields(hasBits) {
            assert Has(View(), n);
          }
        }
      }
      b := REQUIRED <= hasBits;
    }
  }

  // The group tests of the generated code, by their masks 0x1f, 0xe0 and 0xff.

  predicate AnyString(h: HasBits) { h * {0, 1, 2, 3, 4} != {} }

  predicate AnyNumber(h: HasBits) { h * {5, 6, 7} != {} }

  predicate AnyField(h: HasBits) { h * REQUIRED != {} }

  lemma GroupBits(h: HasBits)
    ensures !AnyString(h) ==>
      BIT_PART_SIGN !in h && BIT_FILE_NAME !in h && BIT_FILE_SIGN !in h && BIT_USR !in h && BIT_BODY !in h
    ensures !AnyNumber(h) ==> BIT_OP_TYPE !in h && BIT_SHARD !in h && BIT_PART_INDEX !in h
  {
    assert forall k :: k in h && k in {0, 1, 2, 3, 4} ==> k in h * {0, 1, 2, 3, 4};
    assert forall k :: k in h && k in {5, 6, 7} ==> k in h * {5, 6, 7};
  }

  lemma NoBits()
    ensures Fields({}) == {}
  {
  }

  lemma NoFields(bits: HasBits)
    ensures !AnyField(bits) ==> Fields(bits) == {}
  {
    if !AnyField(bits) {
      forall n: nat | 1 <= n <= 8 ensures n !in Fields(bits) {
        assert BitOf(n) !in bits * REQUIRED;
      }
    }
  }

  lemma EmptyCanonical()
    ensures Canonical(EMPTY)
  {
  }

  function StringSize(s: seq<byte>): nat
    requires |s| < MAX_LENGTH
  {
    UInt32Size(|s|) + |s|
  }

  function WriteUInt32ToArray(n: nat, v: uint32, target: seq<byte>): seq<byte> { target + (Varint(8 * n) + Varint(v)) }

  function WriteStringMaybeAliased(n: nat, s: seq<byte>, target: seq<byte>): seq<byte> {
    target + (Varint(8 * n + 2) + (Varint(|s|) + s))
  }

  /** The size functions of the runtime count the bytes of each field that is there. */
  lemma FieldSizes(m: Message)
    requires Serializable(m)
    ensures FieldSize(m, 1) == if Has(m, 1) then 1 + UInt32Size(m.opType) else 0
    ensures FieldSize(m, 2) == if Has(m, 2) then 1 + UInt32Size(m.shard) else 0
    ensures FieldSize(m, 3) == if Has(m, 3) then 1 + UInt32Size(m.partIndex) else 0
    ensures |m.partSign| < MAX_LENGTH && FieldSize(m, 4) == if Has(m, 4) then 1 + StringSize(m.partSign) else 0
    ensures |m.fileName| < MAX_LENGTH && FieldSize(m, 5) == if Has(m, 5) then 1 + StringSize(m.fileName) else 0
    ensures |m.fileSign| < MAX_LENGTH && FieldSize(m, 6) == if Has(m, 6) then 1 + StringSize(m.fileSign) else 0
    ensures |m.usr| < MAX_LENGTH && FieldSize(m, 7) == if Has(m, 7) then 1 + StringSize(m.usr) else 0
    ensures |m.body| < MAX_LENGTH && FieldSize(m, 8) == if Has(m, 8) then 1 + StringSize(m.body) else 0
  {
    assert forall n | 1 <= n <= 8 :: |BytesOf(m, n)| < MAX_LENGTH;
    assert BytesOf(m, 4) == m.partSign && BytesOf(m, 5) == m.fileName && BytesOf(m, 6) == m.fileSign;
    assert BytesOf(m, 7) == m.usr && BytesOf(m, 8) == m.body;
    hide Varint, UInt32Size;
    UInt32SizeCorrect(m.opType);
    UInt32SizeCorrect(m.shard);
    UInt32SizeCorrect(m.partIndex);
    UInt32SizeCorrect(|m.partSign|);
    UInt32SizeCorrect(|m.fileName|);
    UInt32SizeCorrect(|m.fileSign|);
    UInt32SizeCorrect(|m.usr|);
    UInt32SizeCorrect(|m.body|);
  }

  lemma AbsentFields(m: Message)
    requires Canonical(m)
    ensures 1 !in m.present ==> m.opType == 0
    ensures 2 !in m.present ==> m.shard == 0
    ensures 3 !in m.present ==> m.partIndex == 0
    ensures 4 !in m.present ==> m.partSign == []
    ensures 5 !in m.present ==> m.fileName == []
    ensures 6 !in m.present ==> m.fileSign == []
    ensures 7 !in m.present ==> m.usr == []
    ensures 8 !in m.present ==> m.body == []
  {
    assert forall n | 1 <= n <= 8 :: !Has(m, n) ==> NumberOf(m, n) == 0 && BytesOf(m, n) == [];
    assert NumberOf(m, 1) == m.opType && NumberOf(m, 2) == m.shard && NumberOf(m, 3) == m.partIndex;
    assert BytesOf(m, 4) == m.partSign && BytesOf(m, 5) == m.fileName && BytesOf(m, 6) == m.fileSign;
    assert BytesOf(m, 7) == m.usr && BytesOf(m, 8) == m.body;
  }
}
