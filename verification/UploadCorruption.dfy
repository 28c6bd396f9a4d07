/** Sequential uploads whose bodies may be damaged on the way: which of them publish the file. */
module UploadCorruption {
  import opened Parts
  import opened UploadSteps
  import opened UploadSafety
  import opened UploadSequential
  import opened UploadVerdicts

  /** A request for a part of a file in the catalogue that carries any body. */
  ghost predicate Announces(h: Hash, cat: Catalogue, r: Request) {
    r.fileSign in cat &&
    var c := cat[r.fileSign];
    r.shard == PartCount(c) && PartCount(c) < 0x8000_0000 && r.partIndex < r.shard && r.partSign == h(Slice(c, r.partIndex))
  }

  /** The sum announced for a file is that of the part of c its name stands for. */
  ghost predicate SumOf(h: Hash, c: Str, name: Str, partSign: Str) {
    forall i: nat | i < PartCount(c) :: Decimal(i) == name ==> partSign == h(Slice(c, i))
  }

  /** Staged files have the names of parts, and the sums of these parts were announced for them. */
  ghost predicate StagedAnnounced(h: Hash, cat: Catalogue, y: History) {
    (forall p, name :: InStage(y.server, p, name) ==> p.sign in cat && name in Names(PartCount(cat[p.sign]))) &&
    forall k :: k in y.staged ==> k.place.sign in cat && SumOf(h, cat[k.place.sign], k.name, y.staged[k].partSign)
  }

  /** Published directories have exactly the names of the parts. */
  ghost predicate PublishedAnnounced(h: Hash, cat: Catalogue, y: History) {
    forall sign :: sign in y.server.published ==>
      sign in cat && sign in y.published && DirAnnounced(h, cat[sign], y.server.published[sign], y.published[sign])
  }

  ghost predicate DirAnnounced(h: Hash, c: Str, dir: map<Str, Str>, last: map<Str, Verdict>) {
    dir.Keys == Names(PartCount(c)) && forall name :: name in last ==> SumOf(h, c, name, last[name].partSign)
  }

  lemma OwnSumOf(h: Hash, cat: Catalogue, r: Request)
    requires Announces(h, cat, r)
    ensures r.fileSign in cat
    ensures SumOf(h, cat[r.fileSign], PartOf(r), r.partSign) && PartOf(r) in Names(PartCount(cat[r.fileSign]))
  {
    var c := cat[r.fileSign];
    NameBelow(PartCount(c), r.partIndex);
    forall i: nat | i < PartCount(c) && Decimal(i) == PartOf(r) ensures r.partSign == h(Slice(c, i)) {
      PartNames(i, r.partIndex);
    }
  }

  lemma RecordStagedAnnounced(h: Hash, cat: Catalogue, y: History, r: Request)
    requires StagedAnnounced(h, cat, y) && Announces(h, cat, r)
    ensures StagedAnnounced(h, cat, Record(h, y, r, NoFaults))
  {
    hide Serve, Decimal, Reaches, PublishedFrom, Announces, SumOf, VerdictsOf, Names;
    var t, y' := Thread(r, MkFiles), Record(h, y, r, NoFaults);
    ServeFiles(h, y.server, t, NoFaults);
    OwnSumOf(h, cat, r);
  }

  /** A directory is published only when it has the names of all parts. */
  lemma RecordPublishes(h: Hash, cat: Catalogue, y: History, r: Request)
    requires StagedAnnounced(h, cat, y) && Announces(h, cat, r)
    requires NewlyPublished(y.server, Record(h, y, r, NoFaults).server, r)
    ensures
      var y' := Record(h, y, r, NoFaults);
      r.fileSign in y'.published && DirAnnounced(h, cat[r.fileSign], y'.server.published[r.fileSign], y'.published[r.fileSign])
  {
    hide Serve, Decimal, Reaches, SumOf, Received, Names, StageFrom, PublishedFrom, Publish, CountUse, AddLink, Visible;
    var s, y', n := y.server, Record(h, y, r, NoFaults), PartCount(cat[r.fileSign]);
    RecordStagedAnnounced(h, cat, y, r);
    ServeFiles(h, s, Thread(r, MkFiles), NoFaults);
    ReachesOnly(h, s, r);
    ServePart(h, s, r);
    AnswerExactly(h, s, r);
    OwnSumOf(h, cat, r);
    var s1, dir := Uploaded(s, r, Received(h, s, r)), y'.server.published[r.fileSign];
    assert dir == s1.staging[PlaceOf(r)];
    forall name | name in dir ensures name in Names(n) {
      if name != PartOf(r) {
        assert InStage(s, PlaceOf(r), name);
      }
    }
    AllVisible(dir, n);
    assert Arrived(s1, r) == |dir| == n;
    CountDecides(dir, n);
  }

  lemma RecordPublishedAnnounced(h: Hash, cat: Catalogue, y: History, r: Request)
    requires StagedAnnounced(h, cat, y) && PublishedAnnounced(h, cat, y) && Announces(h, cat, r)
    ensures PublishedAnnounced(h, cat, Record(h, y, r, NoFaults))
  {
    hide Serve, Decimal, Reaches, Names, StageFrom, DirAnnounced, VerdictsOf, StagedAnnounced;
    var s, y' := y.server, Record(h, y, r, NoFaults);
    ServeFiles(h, s, Thread(r, MkFiles), NoFaults);
    if NewlyPublished(s, y'.server, r) {
      RecordPublishes(h, cat, y, r);
    }
  }

  lemma {:induction false} RecordAllAnnounced(h: Hash, cat: Catalogue, y: History, rs: seq<Served>)
    requires StagedAnnounced(h, cat, y) && PublishedAnnounced(h, cat, y) && Calm(rs)
    requires forall i | 0 <= i < |rs| :: Announces(h, cat, rs[i].request)
    ensures PublishedAnnounced(h, cat, RecordAll(h, y, rs))
    decreases |rs|
  {
    hide Record, StagedAnnounced, PublishedAnnounced, Announces;
    if rs == [] {
    } else {
      var r := rs[0].request;
      RecordStagedAnnounced(h, cat, y, r);
      RecordPublishedAnnounced(h, cat, y, r);
      RecordAllAnnounced(h, cat, Record(h, y, r, NoFaults), rs[1..]);
    }
  }

  /** No file of the directory is another content with the sum of the part it stands for. */
  ghost predicate NoCollision(h: Hash, c: Str, dir: map<Str, Str>) {
    forall i: nat | i < PartCount(c) && Decimal(i) in dir ::
      h(dir[Decimal(i)]) == h(Slice(c, i)) ==> dir[Decimal(i)] == Slice(c, i)
  }

  lemma SumsAreParts(h: Hash, c: Str, dir: map<Str, Str>, last: map<Str, Verdict>)
    requires DirAnnounced(h, c, dir, last) && dir.Keys == last.Keys && NoCollision(h, c, dir)
    ensures dir == AllParts(c) <==> forall name :: name in dir ==> h(dir[name]) == last[name].partSign
  {
    hide Decimal, Slice, Names, PartsBelow;
    var n := PartCount(c);
    PartsBelowAt(c, n);
    forall name | name in dir
      ensures name in AllParts(c) && (dir[name] == AllParts(c)[name] <==> h(dir[name]) == last[name].partSign)
    {
      var i := IndexOf(n, name);
      assert SumOf(h, c, name, last[name].partSign);
      assert Decimal(i) in AllParts(c) && AllParts(c)[Decimal(i)] == Slice(c, i);
    }
  }

  /** Every run without failing calls in which requests announce the parts of their files, with bodies that may have
      been damaged: a published directory is the file if and only if the last answer about each part was true. */
  lemma PublishedIffAccepted(h: Hash, cat: Catalogue, users: set<Str>, rs: seq<Served>, sign: Str)
    requires Calm(rs) && forall i | 0 <= i < |rs| :: Announces(h, cat, rs[i].request)
    requires
      var dirs := RecordAll(h, Fresh(users), rs).server.published;
      sign in dirs && (sign in cat ==> NoCollision(h, cat[sign], dirs[sign]))
    ensures
      var y := RecordAll(h, Fresh(users), rs);
      sign in cat && sign in y.published && y.published[sign].Keys == Names(PartCount(cat[sign])) &&
      (y.server.published[sign] == AllParts(cat[sign]) <==>
        forall name :: name in y.published[sign] ==> y.published[sign][name].res)
  {
    hide RecordAll, Announces, AllParts, NoCollision;
    var y := RecordAll(h, Fresh(users), rs);
    RecordAllAnnounced(h, cat, Fresh(users), rs);
    PublishedIsVerifiedExactly(h, users, rs, sign);
    SumsAreParts(h, cat[sign], y.server.published[sign], y.published[sign]);
  }
}
