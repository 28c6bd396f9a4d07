/** The first pass of the client's loop for any file, NUL bytes included, and how passes change SignMap. */
module PassCounts {
  import opened Words
  import opened Parts
  import opened UploadSteps
  import opened UploadLinks
  import opened UploadSequential
  import opened ClientPass

  /** One more use of a signature, under the file name of its first use. */
  function OneMore(rows: map<Str, Row>, sign: Str, fileName: Str): map<Str, Row> {
    if sign in rows then rows[sign := Row(rows[sign].fileName, rows[sign].reference + 1)]
    else rows[sign := Row(fileName, 1)]
  }

  lemma CountUseRows(s: Server, r: Request)
    ensures CountUse(s, r).rows == OneMore(s.rows, r.fileSign, r.fileName)
  {
  }

  /** What the requests for the parts below n carry: each part up to its first NUL. */
  ghost function BodiesBelow(c: Str, n: nat): map<Str, Str> {
    if n == 0 then map[] else BodiesBelow(c, n - 1)[Decimal(n - 1) := CString(Slice(c, n - 1))]
  }

  lemma {:induction false} BodiesBelowAt(c: Str, n: nat)
    ensures BodiesBelow(c, n).Keys == Names(n)
    ensures forall i: nat | i < n :: Decimal(i) in BodiesBelow(c, n) && BodiesBelow(c, n)[Decimal(i)] == CString(Slice(c, i))
  {
    hide CString, Slice;
    if n > 0 {
      BodiesBelowAt(c, n - 1);
      forall i: nat | i < n
        ensures Decimal(i) in BodiesBelow(c, n) && BodiesBelow(c, n)[Decimal(i)] == CString(Slice(c, i))
      {
        PartNames(i, n - 1);
      }
    }
  }

  /** Before part i of a first upload nothing has been counted, and exactly the bodies of the parts below i are staged. */
  ghost predicate FirstUpload(h: Hash, s: Server, c: Str, usr: Str, i: nat, rows: map<Str, Row>) {
    usr in s.homes && s.rows == rows && h(c) !in s.published && Entries(s, Place(usr, h(c))) == BodiesBelow(c, i)
  }

  /** After the last one: published, linked and counted. */
  ghost predicate FirstUploaded(h: Hash, s: Server, c: Str, usr: Str, fileName: Str, rows: map<Str, Row>) {
    h(c) in s.published && s.published[h(c)] == BodiesBelow(c, PartCount(c)) && Place(usr, h(c)) in s.links &&
    s.rows == OneMore(rows, h(c), fileName)
  }

  lemma BodiesBelowCount(c: Str, i: nat, r: Request, s: Server)
    requires PlaceOf(r) in s.staging && s.staging[PlaceOf(r)] == BodiesBelow(c, i)
    ensures Arrived(s, r) == i
  {
    hide BodiesBelow;
    BodiesBelowAt(c, i);
    AllVisible(BodiesBelow(c, i), i);
    CountDecides(BodiesBelow(c, i), i);
  }

  lemma SendFirst(h: Hash, s: Server, c: Str, usr: Str, fileName: Str, i: nat, rows: map<Str, Row>)
    requires i < PartCount(c) == Shards(c) < 0x8000_0000 && FirstUpload(h, s, c, usr, i, rows)
    ensures
      var (s', t') := Serve(h, s, Thread(PartRequest(h, c, usr, fileName, i), MkFiles), NoFaults);
      t'.pc.response.res &&
      if i + 1 < PartCount(c) then FirstUpload(h, s', c, usr, i + 1, rows)
      else FirstUploaded(h, s', c, usr, fileName, rows)
  {
    hide Serve, Arrived, CountUse, Decimal, CString, NulFree, Shards, OneMore, Received;
    var r := PartRequest(h, c, usr, fileName, i);
    CStringIsPrefix(Slice(c, i));
    BodyIsShort(c, i);
    NotStagedYet(c, i, s, r);
    ReceivedExactly(h, s, r);
    ServePart(h, s, r);
    var s1 := Uploaded(s, r, r.body);
    assert s1.staging[PlaceOf(r)] == BodiesBelow(c, i + 1);
    BodiesBelowCount(c, i + 1, r, s1);
    CountUseRows(AddLink(Publish(s1, r), r), r);
    UseChangesRows(Publish(s1, r), r);
  }

  lemma BodyIsShort(c: Str, i: nat)
    ensures NulFree(CString(Slice(c, i))) && |CString(Slice(c, i))| <= WRITE_LEN
  {
  }

  lemma NotStagedYet(c: Str, i: nat, s: Server, r: Request)
    requires r.partIndex == i && Entries(s, PlaceOf(r)) == BodiesBelow(c, i)
    ensures !Staged(s, r)
  {
    hide BodiesBelow, Decimal;
    BodiesBelowAt(c, i);
    NameBelow(i, i);
  }

  lemma {:induction false} SendAllFirst(h: Hash, s: Server, c: Str, usr: Str, fileName: Str, i: nat, rows: map<Str, Row>)
    requires i < PartCount(c) == Shards(c) < 0x8000_0000 && FirstUpload(h, s, c, usr, i, rows)
    ensures FirstUploaded(h, SendFrom(h, s, c, usr, fileName, i), c, usr, fileName, rows)
    decreases PartCount(c) - i
  {
    hide Serve, FirstUpload, FirstUploaded, PartRequest, Shards;
    ShardsOfSmall(c);
    var s' := Serve(h, s, Thread(PartRequest(h, c, usr, fileName, i), MkFiles), NoFaults).0;
    SendFirst(h, s, c, usr, fileName, i, rows);
    assert SendFrom(h, s, c, usr, fileName, i) == SendFrom(h, s', c, usr, fileName, i + 1);
    if i + 1 < PartCount(c) {
      SendAllFirst(h, s', c, usr, fileName, i + 1, rows);
    }
  }

  /** The first pass for a file of fewer than 2^31 bytes, with or without NUL bytes: it publishes a directory that holds
      each two bytes of the file up to their first NUL, links the user, and counts one use; a new row bears the name the
      client gave. */
  lemma FirstPass(h: Hash, s: Server, c: Str, usr: Str, fileName: Str)
    requires |c| < 0x8000_0000 && usr in s.homes && h(c) !in s.published && Place(usr, h(c)) !in s.staging
    ensures
      var s' := SendFrom(h, s, c, usr, fileName, 0);
      h(c) in s'.published && |s'.published[h(c)]| == |c| / 2 + 1 &&
      (forall i: nat | i < |c| / 2 + 1 ::
        Decimal(i) in s'.published[h(c)] &&
        s'.published[h(c)][Decimal(i)] == CString(if 2 * i + 2 <= |c| then c[2 * i..2 * i + 2] else c[2 * i..])) &&
      Place(usr, h(c)) in s'.links &&
      s'.rows == if h(c) in s.rows then s.rows[h(c) := Row(s.rows[h(c)].fileName, s.rows[h(c)].reference + 1)]
                 else s.rows[h(c) := Row(fileName, 1)]
  {
    hide SendFrom, Shards, CString, Decimal, BodiesBelow;
    ShardsOfSmall(c);
    assert BodiesBelow(c, 0) == map[] by { NoBodies(c); }
    SendAllFirst(h, s, c, usr, fileName, 0, s.rows);
    var n := PartCount(c);
    BodiesBelowAt(c, n);
    CountDecides(BodiesBelow(c, n), n);
  }

  lemma NoBodies(c: Str)
    ensures BodiesBelow(c, 0) == map[]
  {
  }

  lemma {:induction false} SendPublished(h: Hash, s: Server, c: Str, usr: Str, fileName: Str, i: nat)
    requires usr in s.homes && h(c) in s.published && i <= PartCount(c) == Shards(c)
    ensures
      var s' := SendFrom(h, s, c, usr, fileName, i);
      s'.published == s.published && s'.staging == s.staging &&
      Reference(s', h(c)) == Reference(s, h(c)) + (PartCount(c) - i)
    decreases PartCount(c) - i
  {
    hide Serve, Shards, CountUse, AddLink, PartCount;
    if i < PartCount(c) {
      ShardsOfSmall(c);
      var r := PartRequest(h, c, usr, fileName, i);
      var s1 := s.(filesDirs := s.filesDirs + {usr});
      ServePublished(h, s, r);
      UseChangesRows(s1, r);
      UseCounts(s1, r);
      SendPublished(h, CountUse(AddLink(s1, r), r), c, usr, fileName, i + 1);
    }
  }

  lemma UseCounts(s: Server, r: Request)
    ensures Reference(CountUse(AddLink(s, r), r), r.fileSign) == Reference(s, r.fileSign) + 1
  {
  }

  /** A pass for a file that is published already counts a use for every part it sends. */
  lemma LaterPassCountsEveryPart(h: Hash, s: Server, c: Str, usr: Str, fileName: Str)
    requires |c| < 0x8000_0000 && usr in s.homes && h(c) in s.published
    ensures
      var s' := SendFrom(h, s, c, usr, fileName, 0);
      s'.published == s.published && s'.staging == s.staging &&
      Reference(s', h(c)) == Reference(s, h(c)) + |c| / 2 + 1
  {
    hide SendFrom, Shards;
    ShardsOfSmall(c);
    SendPublished(h, s, c, usr, fileName, 0);
  }
}
