/** Sequential runs of arbitrary requests: what the last answer about a part says about the file that is kept. */
module UploadVerdicts {
  import opened Parts
  import opened UploadSteps
  import opened UploadLinks
  import opened UploadSequential

  /** The request gets as far as the call of Write. */
  predicate Reaches(h: Hash, s: Server, t: Thread, faults: Pc -> Fault)
    decreases Rank(t.pc)
  {
    if t.pc.Write? then true
    else if t.pc.Done? then false
    else
      StepDescends(h, s, t, faults(t.pc));
      var (s', t') := Step(h, s, t, faults(t.pc));
      Reaches(h, s', t', faults)
  }

  predicate AfterWrite(pc: Pc) {
    match pc
    case SumNew => true case List => true case Move => true
    case Link(speed) => !speed case Select(speed) => !speed case Insert(speed) => !speed case Update(speed) => !speed
    case _ => false
  }

  /** The sum of the new file has been compared. */
  predicate Verified(pc: Pc) { AfterWrite(pc) && !pc.SumNew? }

  predicate InStage(s: Server, p: Place, name: Str) { p in s.staging && name in s.staging[p] }

  /** s' has no staged file but those of s, with the same content; the file of r may be an exception. */
  ghost predicate StageFrom(s: Server, s': Server, r: Request) {
    forall p, name :: InStage(s', p, name) && !(p == PlaceOf(r) && name == PartOf(r)) ==>
      InStage(s, p, name) && s'.staging[p][name] == s.staging[p][name]
  }

  /** s' has the published directories of s, and perhaps the staged one of r. */
  ghost predicate PublishedFrom(s: Server, s': Server, r: Request) {
    (forall sign :: sign in s.published ==>
      sign in s'.published && (sign != r.fileSign ==> s'.published[sign] == s.published[sign])) &&
    (forall sign :: sign in s'.published && sign !in s.published ==> sign == r.fileSign) &&
    (NewlyPublished(s, s', r) ==>
      forall name :: name in s'.published[r.fileSign] && name != PartOf(r) ==>
        InStage(s, PlaceOf(r), name) && s'.published[r.fileSign][name] == s.staging[PlaceOf(r)][name])
  }

  /** A directory is published that was not, or replaces another one. */
  ghost predicate NewlyPublished(s: Server, s': Server, r: Request) {
    r.fileSign in s'.published &&
    (r.fileSign in s.published ==> s'.published[r.fileSign] != s.published[r.fileSign])
  }

  ghost predicate OwnUnchanged(s: Server, s': Server, r: Request) {
    !NewlyPublished(s, s', r) && (Staged(s', r) ==> Staged(s, r) && Content(s', r) == Content(s, r))
  }

  /** The file of r, where it is kept now, has the sum the request announced. */
  ghost predicate OwnSum(h: Hash, s: Server, s': Server, r: Request) {
    (Staged(s', r) ==> h(Content(s', r)) == r.partSign) &&
    (NewlyPublished(s, s', r) && PartOf(r) in s'.published[r.fileSign] ==>
      h(s'.published[r.fileSign][PartOf(r)]) == r.partSign)
  }

  lemma StepFiles(h: Hash, s: Server, t: Thread, f: Fault)
    ensures
      var (s', t') := Step(h, s, t, f);
      var r := t.request;
      StageFrom(s, s', r) && PublishedFrom(s, s', r) &&
      (!t.pc.Delete? && !t.pc.Write? && !t.pc.Move? ==> OwnUnchanged(s, s', r)) &&
      (!t.pc.Move? ==> !NewlyPublished(s, s', r)) &&
      (t.pc.Move? && (Staged(s, r) ==> h(Content(s, r)) == r.partSign) ==> OwnSum(h, s, s', r))
  {
    hide Step, Stored, Decimal;
    StepEffect(h, s, t, f);
  }

  lemma StepPc(h: Hash, s: Server, t: Thread, f: Fault)
    ensures
      var t' := Step(h, s, t, f).1;
      t'.request == t.request &&
      (AfterWrite(t.pc) ==> AfterWrite(t'.pc) || t'.pc.Done?) &&
      (AfterWrite(t.pc) && !t.pc.List? && !t.pc.SumNew? ==> !t'.pc.Move?) &&
      (!AfterWrite(t.pc) && !t.pc.Write? ==> !AfterWrite(t'.pc)) &&
      (t.pc.Delete? ==> t'.pc.Write?) &&
      (t.pc.SumNew? ==>
        if t'.pc.Done? then !t'.pc.response.res else t'.pc.List? && Md5Sum(h, s, t.request) == t.request.partSign) &&
      (t.pc.Write? ==> if t'.pc.Done? then !t'.pc.response.res else t'.pc.SumNew?)
  {
    hide Md5Sum, AsSize, Arrived, WritePart, DeletePart, Publish, Reject, LinkFailed, LinkDone;
  }

  lemma StageCompose(s: Server, s1: Server, s': Server, r: Request)
    requires StageFrom(s, s1, r) && StageFrom(s1, s', r)
    ensures StageFrom(s, s', r)
  {
    hide Decimal;
    forall p, name | InStage(s', p, name) && !(p == PlaceOf(r) && name == PartOf(r))
      ensures InStage(s, p, name) && s'.staging[p][name] == s.staging[p][name]
    {
      assert InStage(s1, p, name);
    }
  }

  lemma PublishedCompose(s: Server, s1: Server, s': Server, r: Request)
    requires StageFrom(s, s1, r) && PublishedFrom(s, s1, r) && PublishedFrom(s1, s', r)
    ensures PublishedFrom(s, s', r)
  {
    hide Decimal;
    if NewlyPublished(s, s', r) && !NewlyPublished(s, s1, r) {
      forall name | name in s'.published[r.fileSign] && name != PartOf(r)
        ensures InStage(s, PlaceOf(r), name) && s'.published[r.fileSign][name] == s.staging[PlaceOf(r)][name]
      {
        assert InStage(s1, PlaceOf(r), name);
      }
    }
  }

  lemma OwnSumCompose(h: Hash, s: Server, s1: Server, s': Server, r: Request)
    requires PublishedFrom(s, s1, r) && PublishedFrom(s1, s', r) && OwnSum(h, s1, s', r)
    requires NewlyPublished(s, s1, r) ==> OwnSum(h, s, s1, r)
    ensures OwnSum(h, s, s', r)
  {
    hide Decimal;
  }

  /** Serving a request touches no file but its own, and if the answer is true its file has the announced sum. */
  lemma {:induction false} ServeFiles(h: Hash, s: Server, t: Thread, faults: Pc -> Fault)
    requires Verified(t.pc) && Staged(s, t.request) ==> h(Content(s, t.request)) == t.request.partSign
    ensures
      var (s', t') := Serve(h, s, t, faults);
      var r := t.request;
      StageFrom(s, s', r) && PublishedFrom(s, s', r) &&
      (!Reaches(h, s, t, faults) && !AfterWrite(t.pc) ==> OwnUnchanged(s, s', r)) &&
      ((Reaches(h, s, t, faults) || AfterWrite(t.pc)) && t'.pc.response.res ==> OwnSum(h, s, s', r))
    decreases Rank(t.pc)
  {
    hide Step, StageFrom, PublishedFrom, Decimal;
    var r := t.request;
    StageRefl(s, r);
    if !t.pc.Done? {
      var (s1, t1) := Step(h, s, t, faults(t.pc));
      var (s', t') := Serve(h, s1, t1, faults);
      StepDescends(h, s, t, faults(t.pc));
      StepFiles(h, s, t, faults(t.pc));
      StepPc(h, s, t, faults(t.pc));
      ServeFiles(h, s1, t1, faults);
      StageCompose(s, s1, s', r);
      PublishedCompose(s, s1, s', r);
      if ((Reaches(h, s, t, faults) || AfterWrite(t.pc)) && t'.pc.response.res) {
        OwnSumCompose(h, s, s1, s', r);
      }
    }
  }

  lemma StageRefl(s: Server, r: Request)
    ensures StageFrom(s, s, r) && PublishedFrom(s, s, r) && OwnUnchanged(s, s, r)
  {
  }

  // What the answer to a request without faults says.

  lemma {:induction false} LinkingDoesNotReach(h: Hash, s: Server, t: Thread, faults: Pc -> Fault)
    requires IsInFlight(t) || t.pc.Done?
    ensures !Reaches(h, s, t, faults)
    decreases Rank(t.pc)
  {
    hide Md5Sum, AsSize, Arrived, WritePart, DeletePart, Publish, Decimal;
    if !t.pc.Done? {
      StepDescends(h, s, t, faults(t.pc));
      var (s', t') := Step(h, s, t, faults(t.pc));
      LinkingDoesNotReach(h, s', t', faults);
    }
  }

  /** Without faults, only registered users get as far as Write, and only until the signature is published. */
  lemma ReachesOnly(h: Hash, s: Server, r: Request)
    requires Reaches(h, s, Thread(r, MkFiles), NoFaults)
    ensures r.usr in s.homes && r.fileSign !in s.published
  {
    hide Md5Sum, AsSize, Arrived, WritePart, DeletePart, Publish, Decimal, Reaches;
    ReachesStep(h, s, Thread(r, MkFiles), NoFaults);
    if r.usr in s.homes {
      var s1 := s.(filesDirs := s.filesDirs + {r.usr});
      ReachesStep(h, s1, Thread(r, CheckPublished), NoFaults);
      if r.fileSign in s.published {
        LinkingDoesNotReach(h, s1, Thread(r, Link(true)), NoFaults);
      }
    } else {
      LinkingDoesNotReach(h, s, Thread(r, Reject("create usr files dir failed")), NoFaults);
    }
  }

  lemma ReachesStep(h: Hash, s: Server, t: Thread, faults: Pc -> Fault)
    requires !t.pc.Write? && !t.pc.Done?
    ensures
      var (s', t') := Step(h, s, t, faults(t.pc));
      Reaches(h, s, t, faults) == Reaches(h, s', t', faults)
  {
    hide Step;
  }

  // Verdicts over a sequential run.

  /** The last request to reach Write for a part: what it announced, and whether it was answered true. */
  datatype Verdict = Verdict(partSign: Str, res: bool)

  datatype StagedFile = StagedFile(place: Place, name: Str)

  datatype History = History(server: Server, staged: map<StagedFile, Verdict>, published: map<Str, map<Str, Verdict>>)

  /** The verdicts of the files of a directory that was staged at p. */
  ghost function VerdictsOf(staged: map<StagedFile, Verdict>, p: Place, dir: map<Str, Str>): map<Str, Verdict> {
    map name | name in dir.Keys && StagedFile(p, name) in staged :: staged[StagedFile(p, name)]
  }

  /** One request served to its end.  A verdict belongs to a file and goes where the file goes. */
  ghost function Record(h: Hash, y: History, r: Request, faults: Pc -> Fault): History {
    var t := Thread(r, MkFiles);
    var (s', t') := Serve(h, y.server, t, faults);
    if !Reaches(h, y.server, t, faults) then y.(server := s')
    else
      var staged := y.staged[StagedFile(PlaceOf(r), PartOf(r)) := Verdict(r.partSign, t'.pc.response.res)];
      if NewlyPublished(y.server, s', r) then
        History(s', staged, y.published[r.fileSign := VerdictsOf(staged, PlaceOf(r), s'.published[r.fileSign])])
      else History(s', staged, y.published)
  }

  datatype Served = Served(request: Request, faults: Pc -> Fault)

  ghost function RecordAll(h: Hash, y: History, rs: seq<Served>): History
    decreases |rs|
  {
    if rs == [] then y else RecordAll(h, Record(h, y, rs[0].request, rs[0].faults), rs[1..])
  }

  function Fresh(users: set<Str>): History {
    History(Server(users, {}, {}, map[], map[], {}, map[]), map[], map[])
  }

  /** The answer true means that the file has the announced sum; without faults the answer false means it has not. */
  ghost predicate Matches(h: Hash, content: Str, v: Verdict, calm: bool) {
    (v.res ==> h(content) == v.partSign) && (calm && h(content) == v.partSign ==> v.res)
  }

  ghost predicate StagedTruthful(h: Hash, y: History, calm: bool) {
    forall p, name :: InStage(y.server, p, name) ==>
      StagedFile(p, name) in y.staged && Matches(h, y.server.staging[p][name], y.staged[StagedFile(p, name)], calm)
  }

  ghost predicate PublishedTruthful(h: Hash, y: History, calm: bool) {
    forall sign :: sign in y.server.published ==>
      sign in y.published && DirTruthful(h, y.server.published[sign], y.published[sign], calm)
  }

  /** Each file of a directory has its verdict, and there are no others. */
  ghost predicate DirTruthful(h: Hash, dir: map<Str, Str>, verdicts: map<Str, Verdict>, calm: bool) {
    dir.Keys == verdicts.Keys && forall name :: name in dir ==> Matches(h, dir[name], verdicts[name], calm)
  }

  ghost predicate Truthful(h: Hash, y: History, calm: bool) {
    StagedTruthful(h, y, calm) && PublishedTruthful(h, y, calm)
  }

  /** The verdict a request leaves suits its file, wherever that file is then. */
  lemma OwnVerdict(h: Hash, s: Server, r: Request, faults: Pc -> Fault, calm: bool)
    requires Reaches(h, s, Thread(r, MkFiles), faults) && (calm ==> faults == NoFaults)
    ensures
      var (s', t') := Serve(h, s, Thread(r, MkFiles), faults);
      var v := Verdict(r.partSign, t'.pc.response.res);
      (Staged(s', r) ==> Matches(h, Content(s', r), v, calm)) &&
      (NewlyPublished(s, s', r) && PartOf(r) in s'.published[r.fileSign] ==>
        Matches(h, s'.published[r.fileSign][PartOf(r)], v, calm))
  {
    hide Serve, Decimal, Reaches, StageFrom, PublishedFrom;
    ServeFiles(h, s, Thread(r, MkFiles), faults);
    if calm {
      ReachesOnly(h, s, r);
      AnswerExactly(h, s, r);
    }
  }

  lemma RecordStaged(h: Hash, y: History, r: Request, faults: Pc -> Fault, calm: bool)
    requires Truthful(h, y, calm) && (calm ==> faults == NoFaults)
    ensures StagedTruthful(h, Record(h, y, r, faults), calm)
  {
    hide Serve, Decimal, Reaches, PublishedFrom, Matches, PublishedTruthful, VerdictsOf;
    var t := Thread(r, MkFiles);
    var y' := Record(h, y, r, faults);
    ServeFiles(h, y.server, t, faults);
    if Reaches(h, y.server, t, faults) {
      OwnVerdict(h, y.server, r, faults, calm);
    }
    forall p, name | InStage(y'.server, p, name)
      ensures StagedFile(p, name) in y'.staged
      ensures Matches(h, y'.server.staging[p][name], y'.staged[StagedFile(p, name)], calm)
    {
      if p == PlaceOf(r) && name == PartOf(r) {
        assert Staged(y'.server, r);
      } else {
        assert InStage(y.server, p, name);
      }
      if !Reaches(h, y.server, t, faults) {
        assert InStage(y.server, p, name);
      }
    }
  }

  lemma NewDirTruthful(h: Hash, y: History, r: Request, faults: Pc -> Fault, calm: bool)
    requires StagedTruthful(h, y, calm) && (calm ==> faults == NoFaults)
    requires NewlyPublished(y.server, Record(h, y, r, faults).server, r)
    ensures
      var y' := Record(h, y, r, faults);
      r.fileSign in y'.published &&
      DirTruthful(h, y'.server.published[r.fileSign], y'.published[r.fileSign], calm)
  {
    hide Serve, Decimal, Reaches, Matches, StageFrom;
    var s, t, y' := y.server, Thread(r, MkFiles), Record(h, y, r, faults);
    ServeFiles(h, s, t, faults);
    assert Reaches(h, s, t, faults);
    OwnVerdict(h, s, r, faults, calm);
    var dir := y'.server.published[r.fileSign];
    forall name | name in dir
      ensures StagedFile(PlaceOf(r), name) in y'.staged
      ensures Matches(h, dir[name], y'.staged[StagedFile(PlaceOf(r), name)], calm)
    {
      if name != PartOf(r) {
        assert InStage(s, PlaceOf(r), name);
      }
    }
  }

  lemma RecordPublished(h: Hash, y: History, r: Request, faults: Pc -> Fault, calm: bool)
    requires Truthful(h, y, calm) && (calm ==> faults == NoFaults)
    ensures PublishedTruthful(h, Record(h, y, r, faults), calm)
  {
    hide Serve, Decimal, Reaches, StageFrom, DirTruthful, VerdictsOf, StagedTruthful;
    var t := Thread(r, MkFiles);
    var s, y' := y.server, Record(h, y, r, faults);
    var s' := y'.server;
    ServeFiles(h, s, t, faults);
    if NewlyPublished(s, s', r) {
      NewDirTruthful(h, y, r, faults, calm);
    }
    forall sign | sign in s'.published
      ensures sign in y'.published && DirTruthful(h, s'.published[sign], y'.published[sign], calm)
    {
      if !(sign == r.fileSign && NewlyPublished(s, s', r)) {
        assert sign in s.published && s'.published[sign] == s.published[sign];
      }
    }
  }

  ghost predicate Calm(rs: seq<Served>) {
    forall i | 0 <= i < |rs| :: rs[i].faults == NoFaults
  }

  lemma {:induction false} RecordAllTruthful(h: Hash, y: History, rs: seq<Served>, calm: bool)
    requires Truthful(h, y, calm) && (calm ==> Calm(rs))
    ensures Truthful(h, RecordAll(h, y, rs), calm)
    decreases |rs|
  {
    hide Record, StagedTruthful, PublishedTruthful;
    if rs == [] {
    } else {
      RecordStaged(h, y, rs[0].request, rs[0].faults, calm);
      RecordPublished(h, y, rs[0].request, rs[0].faults, calm);
      RecordAllTruthful(h, Record(h, y, rs[0].request, rs[0].faults), rs[1..], calm);
    }
  }

  /** Over every sequential run, honest or not and with any faults: a staged or published file whose last request to
      reach Write was answered true has the sum that request announced.  If no call failed in the run, the answer was
      true if and only if the file has that sum. */
  lemma AnswersAreTruthful(h: Hash, users: set<Str>, rs: seq<Served>)
    ensures Truthful(h, RecordAll(h, Fresh(users), rs), false)
    ensures Calm(rs) ==> Truthful(h, RecordAll(h, Fresh(users), rs), true)
  {
    RecordAllTruthful(h, Fresh(users), rs, false);
    if Calm(rs) {
      RecordAllTruthful(h, Fresh(users), rs, true);
    }
  }

  /** When rejected parts are published: in a run without failing calls, every file of a published directory, however
      many there are, has the sum announced for it if and only if the last answer about each of them was true. */
  lemma PublishedIsVerifiedExactly(h: Hash, users: set<Str>, rs: seq<Served>, sign: Str)
    requires Calm(rs) && sign in RecordAll(h, Fresh(users), rs).server.published
    ensures
      var y := RecordAll(h, Fresh(users), rs);
      sign in y.published && y.published[sign].Keys == y.server.published[sign].Keys &&
      var dir, last := y.server.published[sign], y.published[sign];
      (forall name :: name in dir ==> h(dir[name]) == last[name].partSign) <==> (forall name :: name in last ==> last[name].res)
  {
    hide RecordAll;
    AnswersAreTruthful(h, users, rs);
    var y := RecordAll(h, Fresh(users), rs);
    assert DirTruthful(h, y.server.published[sign], y.published[sign], true);
  }
}
