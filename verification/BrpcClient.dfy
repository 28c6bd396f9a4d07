/** The client's upload loop and the service behind it, with the requests going over the wire in between. */
module BrpcClient {
  import opened Words
  import opened Parts
  import opened UploadSteps
  import opened UploadRpc
  import opened ClientPass
  import opened NetDiskRequest
  import NetDiskMessage
  import Wire
  import Md5
  import MdContext

  /** MSG_TYPE of public.h. */
  const UPLOAD := 5
  const DOWNLOAD := 6

  /** The message that carries an upload request. */
  function MessageOf(r: Request): NetDiskMessage.Message {
    NetDiskMessage.Message({1, 2, 3, 4, 5, 6, 7, 8}, UPLOAD, r.shard, r.partIndex,
                           r.partSign, r.fileName, r.fileSign, r.usr, r.body, [])
  }

  /** An upload request on the wire, byte by byte: op_type is 5, and each text follows its tag and its length. */
  lemma UploadBytes(r: Request)
    ensures NetDiskMessage.Serialize(MessageOf(r)) ==
      [8, 5] + ([16] + Wire.Varint(r.shard)) + ([24] + Wire.Varint(r.partIndex)) +
      ([34] + (Wire.Varint(|r.partSign|) + r.partSign)) + ([42] + (Wire.Varint(|r.fileName|) + r.fileName)) +
      ([50] + (Wire.Varint(|r.fileSign|) + r.fileSign)) + ([58] + (Wire.Varint(|r.usr|) + r.usr)) +
      ([66] + (Wire.Varint(|r.body|) + r.body))
  {
    NetDiskMessage.SmallVarint(5);
    hide Wire.Varint, NetDiskMessage.Serialize;
    NetDiskMessage.SerializationLayout(MessageOf(r));
    assert [8] + [5] == [8, 5];
    WithoutUnknown(NetDiskMessage.Serialize(MessageOf(r)));
  }

  lemma WithoutUnknown(s: seq<byte>)
    ensures Wire.EncodeAll([]) == [] && s + [] == s
  {
  }

  function RequestOf(m: NetDiskMessage.Message): Request {
    Request(m.usr, m.fileSign, m.fileName, m.partSign, m.body, m.shard, m.partIndex)
  }

  /** The runtime takes messages of fewer than 2^31 bytes. */
  predicate Sendable(r: Request) {
    |r.usr| < Wire.MAX_LENGTH && |r.fileName| < Wire.MAX_LENGTH && |r.fileSign| < Wire.MAX_LENGTH &&
    |r.partSign| < Wire.MAX_LENGTH && |r.body| < Wire.MAX_LENGTH &&
    |NetDiskMessage.Serialize(MessageOf(r))| < 0x8000_0000
  }

  /** This much room is left for names in a message. */
  const MAX_NAMES := 0x7fff_ff00

  /** What the client sends fits: a part and two hexadecimal sums beside the two names. */
  lemma PartsAreSendable(r: Request)
    requires |r.usr| + |r.fileName| < MAX_NAMES && |r.fileSign| == |r.partSign| == 32 && |r.body| <= PART
    ensures Sendable(r)
  {
    hide NetDiskMessage.Serialize, Wire.Varint, NetDiskMessage.FieldSize;
    var m := MessageOf(r);
    NetDiskMessage.SizesAddUp(m);
    forall n | 1 <= n <= 8
      ensures NetDiskMessage.FieldSize(m, n) <= 6 + |NetDiskMessage.BytesOf(m, n)|
    {
      FieldFits(m, n);
    }
  }

  lemma FieldFits(m: NetDiskMessage.Message, n: nat)
    requires 1 <= n <= 8 && |NetDiskMessage.BytesOf(m, n)| < WORD
    ensures NetDiskMessage.FieldSize(m, n) <= 6 + |NetDiskMessage.BytesOf(m, n)|
  {
    hide Wire.Varint;
    if n <= 3 {
      Wire.UInt32SizeCorrect(NetDiskMessage.NumberOf(m, n));
    } else {
      Wire.UInt32SizeCorrect(|NetDiskMessage.BytesOf(m, n)|);
    }
  }

  /** A request survives the wire. */
  lemma WireKeepsRequests(r: Request)
    requires Sendable(r)
    ensures NetDiskMessage.Parse(NetDiskMessage.EMPTY, NetDiskMessage.Serialize(MessageOf(r))) ==
            NetDiskMessage.Ended(MessageOf(r))
    ensures RequestOf(MessageOf(r)) == r
  {
    hide NetDiskMessage.Parse, NetDiskMessage.Serialize;
    NetDiskMessage.RoundTrip(MessageOf(r));
  }

  /** doUploadFile's request for one part, field by field. */
  method BuildRequest(r: Request) returns (m: NetDiskRequest)
    ensures fresh(m) && m.Valid() && m.View() == MessageOf(r)
  {
    hide NetDiskMessage.Canonical, NetDiskRequest.Valid, Fields;
    m := new NetDiskRequest();
    m.SetOpType(UPLOAD);
    m.SetShard(r.shard);
    m.SetPartIndex(r.partIndex);
    m.SetPartSign(r.partSign);
    m.SetFileName(r.fileName);
    m.SetFileSign(r.fileSign);
    m.SetUsr(r.usr);
    m.SetBody(r.body);
  }

  /** NetDiskServiceImpl::Send for the bytes of a request. */
  method Receive(server: UploadRpc, wire: seq<byte>, faults: Pc -> Fault) returns (response: Response)
    requires NetDiskMessage.Parse(NetDiskMessage.EMPTY, wire).Ended?
    modifies server.fs, server.sql
    ensures
      var m := NetDiskMessage.Parse(NetDiskMessage.EMPTY, wire).message;
      var (s', t') := Serve(server.fs.md5sum, old(server.View()), Thread(RequestOf(m), MkFiles), faults);
      if m.opType == 5 then
        server.View() == s' &&
        response == if t'.pc.response.res then Response(true, "upload success") else t'.pc.response
      else
        server.View() == old(server.View()) &&
        response == if m.opType == 6 then Response(false, "") else Response(false, "op not support")
  {
    hide Serve, NetDiskMessage.Parse, NetDiskMessage.Canonical, Fields;
    NetDiskMessage.ParsedRoundTrip(wire);
    var request := new NetDiskRequest();
    var end := request.InternalParse(wire);
    if request.opType == UPLOAD {
      var r := Request(request.usr, request.fileSign, request.fileName, request.partSign, request.body,
                       request.shard, request.partIndex);
      assert r == RequestOf(request.View());
      response := server.Do(r, faults);
    } else if request.opType == DOWNLOAD {
      response := Response(false, "");
    } else {
      response := Response(false, "op not support");
    }
    if response.res {
      response := Response(true, "upload success");
    }
  }

  method Send(server: UploadRpc, r: Request) returns (response: Response)
    requires Sendable(r)
    modifies server.fs, server.sql
    ensures server.View() == Serve(server.fs.md5sum, old(server.View()), Thread(r, MkFiles), NoFaults).0
  {
    hide Serve, NetDiskMessage.Parse, NetDiskMessage.Serialize, NetDiskMessage.Canonical;
    var message := BuildRequest(r);
    var wire := message.InternalSerialize();
    WireKeepsRequests(r);
    response := Receive(server, wire, NoFaults);
  }

  /** doUploadFile: the server ends as after one pass over all parts. */
  method DoUploadFile(server: UploadRpc, file: Str, fileName: Str, usr: Str)
    requires forall m :: server.fs.md5sum(m) == MdContext.Md5Hex(m)
    requires |usr| + |fileName| < MAX_NAMES
    modifies server.fs, server.sql
    ensures server.View() == SendFrom(server.fs.md5sum, old(server.View()), file, usr, fileName, 0)
    ensures
      NulFree(file) && |file| < 0x8000_0000 && usr in old(server.fs.homes) &&
      LeftOver(server.fs.md5sum, old(server.View()), file, usr) ==>
        var sign := MdContext.Md5Hex(file);
        sign in server.fs.published && server.fs.published[sign] == AllParts(file) && Place(usr, sign) in server.fs.links
  {
    hide Serve, MdContext.Md5Hex, CString, Slice, AllParts, LeftOver;
    var h := server.fs.md5sum;
    var fileMd5 := h(file);
    var size := AsInt32(|file|);
    var shard := (if size >= 0 then size / PART else -(-size / PART)) + 1;
    ShardsOfSmall(file);
    var partIndex := 0;
    while partIndex < shard
      invariant 0 <= partIndex
      invariant SendFrom(h, server.View(), file, usr, fileName, partIndex) ==
                SendFrom(h, old(server.View()), file, usr, fileName, 0)
      decreases shard - partIndex
    {
      var buffer := Slice(file, partIndex);
      var body := CString(buffer);
      var md5Val := Md5.Md5Of(body);
      var r := Request(usr, fileMd5, fileName, md5Val, body, shard, partIndex);
      assert r == PartRequest(h, file, usr, fileName, partIndex);
      PartsAreSendable(r);
      var response := Send(server, r);
      partIndex := partIndex + 1;
    }
    if NulFree(file) && |file| < 0x8000_0000 && usr in old(server.fs.homes) &&
       LeftOver(h, old(server.View()), file, usr) {
      PassPublishes(h, old(server.View()), file, usr, fileName);
    }
  }
}
