/** Requests served one after the other without faults: what each does, and how the run counts. */
module UploadSequential {
  import opened Parts
  import opened UploadSteps
  import opened UploadLinks

  lemma ServeStep(h: Hash, s: Server, t: Thread, faults: Pc -> Fault)
    requires !t.pc.Done?
    ensures
      var (s', t') := Step(h, s, t, faults(t.pc));
      Serve(h, s, t, faults) == Serve(h, s', t', faults)
  {
    hide Step;
  }

  lemma ServeDone(h: Hash, s: Server, t: Thread, faults: Pc -> Fault)
    requires t.pc.Done?
    ensures Serve(h, s, t, faults) == (s, t)
  {
  }

  // The equations of Serve, call by call, for the calls that make directories and links and for
  // the old copy of a part.

  lemma AtMkUsr(h: Hash, s: Server, r: Request, faults: Pc -> Fault)
    ensures
      var f := faults(MkUsr);
      Serve(h, s, Thread(r, MkUsr), faults) ==
        if f.fail then Serve(h, s, Thread(r, Reject("create usr dir or usr file dir failed")), faults)
        else Serve(h, s.(homes := s.homes + {r.usr}), Thread(r, MkTmp), faults)
  {
    hide Serve;
    ServeStep(h, s, Thread(r, MkUsr), faults);
  }

  lemma AtMkTmp(h: Hash, s: Server, r: Request, faults: Pc -> Fault)
    ensures
      var f := faults(MkTmp);
      Serve(h, s, Thread(r, MkTmp), faults) ==
        if f.fail || r.usr !in s.homes then Serve(h, s, Thread(r, Reject("create usr dir or usr file dir failed")), faults)
        else Serve(h, s.(tmpDirs := s.tmpDirs + {r.usr}), Thread(r, MkStage), faults)
  {
    hide Serve;
    ServeStep(h, s, Thread(r, MkTmp), faults);
  }

  lemma AtMkStage(h: Hash, s: Server, r: Request, faults: Pc -> Fault)
    ensures
      var f := faults(MkStage);
      Serve(h, s, Thread(r, MkStage), faults) ==
        if f.fail || r.usr !in s.tmpDirs then Serve(h, s, Thread(r, Reject("create usr dir or usr file dir failed")), faults)
        else Serve(h, if PlaceOf(r) in s.staging then s else SetStage(s, PlaceOf(r), map[]), Thread(r, CheckPart), faults)
  {
    hide Serve;
    ServeStep(h, s, Thread(r, MkStage), faults);
  }

  lemma AtCheckPart(h: Hash, s: Server, r: Request, faults: Pc -> Fault)
    ensures Serve(h, s, Thread(r, CheckPart), faults) ==
            Serve(h, s, Thread(r, if !faults(CheckPart).fail && Staged(s, r) then SumOld else Write), faults)
  {
    hide Serve, Decimal;
    ServeStep(h, s, Thread(r, CheckPart), faults);
  }

  lemma AtSumOld(h: Hash, s: Server, r: Request, faults: Pc -> Fault)
    ensures Serve(h, s, Thread(r, SumOld), faults) ==
      if faults(SumOld).fail then Serve(h, s, Thread(r, Reject("cal md5 failed")), faults)
      else Serve(h, s, Thread(r, if Md5Sum(h, s, r) == r.partSign then Write else Delete), faults)
  {
    hide Serve, Decimal;
    ServeStep(h, s, Thread(r, SumOld), faults);
  }

  lemma AtDelete(h: Hash, s: Server, r: Request, faults: Pc -> Fault)
    ensures Serve(h, s, Thread(r, Delete), faults) ==
            Serve(h, if faults(Delete).fail then s else DeletePart(s, r), Thread(r, Write), faults)
  {
    hide Serve, Decimal;
    ServeStep(h, s, Thread(r, Delete), faults);
  }

  lemma AtLink(h: Hash, s: Server, r: Request, speed: bool, faults: Pc -> Fault)
    ensures
      var f := faults(Link(speed));
      Serve(h, s, Thread(r, Link(speed)), faults) ==
        if f.fail || r.usr !in s.filesDirs then Serve(h, s, Thread(r, LinkFailed(speed)), faults)
        else Serve(h, AddLink(s, r), Thread(r, Select(speed)), faults)
  {
    hide Serve;
    ServeStep(h, s, Thread(r, Link(speed)), faults);
  }

  lemma AtSelect(h: Hash, s: Server, r: Request, speed: bool, faults: Pc -> Fault)
    ensures
      var f := faults(Select(speed));
      Serve(h, s, Thread(r, Select(speed)), faults) ==
        if f.fail then Serve(h, s, Thread(r, LinkFailed(speed)), faults)
        else Serve(h, s, Thread(r, if r.fileSign in s.rows then Update(speed) else Insert(speed)), faults)
  {
    hide Serve;
    ServeStep(h, s, Thread(r, Select(speed)), faults);
  }

  lemma AtInsert(h: Hash, s: Server, r: Request, speed: bool, faults: Pc -> Fault)
    ensures
      var f := faults(Insert(speed));
      Serve(h, s, Thread(r, Insert(speed)), faults) ==
        if f.fail || r.fileSign in s.rows then (s, Thread(r, LinkFailed(speed)))
        else (InsertRow(s, r), Thread(r, LinkDone(speed)))
  {
    hide Serve;
    ServeStep(h, s, Thread(r, Insert(speed)), faults);
    var (s', t') := Step(h, s, Thread(r, Insert(speed)), faults(Insert(speed)));
    ServeDone(h, s', t', faults);
  }

  lemma AtUpdate(h: Hash, s: Server, r: Request, speed: bool, faults: Pc -> Fault)
    ensures
      var f := faults(Update(speed));
      Serve(h, s, Thread(r, Update(speed)), faults) ==
        if f.fail then (s, Thread(r, LinkFailed(speed)))
        else (IncrementRow(s, r), Thread(r, LinkDone(speed)))
  {
    hide Serve;
    ServeStep(h, s, Thread(r, Update(speed)), faults);
    var (s', t') := Step(h, s, Thread(r, Update(speed)), faults(Update(speed)));
    ServeDone(h, s', t', faults);
  }

  /** What is staged at a place; nothing if it does not exist yet. */
  function Entries(s: Server, p: Place): map<Str, Str> { if p in s.staging then s.staging[p] else map[] }

  /** The server with the directories of the user, and the part of r in its place with `content`. */
  function Uploaded(s: Server, r: Request, content: Str): Server {
    s.(filesDirs := s.filesDirs + {r.usr}, tmpDirs := s.tmpDirs + {r.usr},
       staging := s.staging[PlaceOf(r) := Entries(s, PlaceOf(r))[PartOf(r) := content]])
  }

  /** The server with one more use of the signature of r counted. */
  function CountUse(s: Server, r: Request): Server {
    if r.fileSign in s.rows then IncrementRow(s, r) else InsertRow(s, r)
  }

  /** The directories made on the way to CheckPart. */
  function MakeDirs(s: Server, r: Request): Server {
    s.(filesDirs := s.filesDirs + {r.usr}, tmpDirs := s.tmpDirs + {r.usr},
       staging := s.staging[PlaceOf(r) := Entries(s, PlaceOf(r))])
  }

  lemma ToCheckPart(h: Hash, s: Server, r: Request)
    requires r.usr in s.homes && r.fileSign !in s.published
    ensures Serve(h, s, Thread(r, MkFiles), NoFaults) == Serve(h, MakeDirs(s, r), Thread(r, CheckPart), NoFaults)
  {
    hide Serve, Md5Sum, AsSize, Arrived, WritePart, DeletePart, Publish, Decimal;
    ServeStep(h, s, Thread(r, MkFiles), NoFaults);
    var s1 := s.(filesDirs := s.filesDirs + {r.usr});
    ServeStep(h, s1, Thread(r, CheckPublished), NoFaults);
    ServeStep(h, s1, Thread(r, MkUsr), NoFaults);
    assert s1.homes + {r.usr} == s1.homes;
    ServeStep(h, s1, Thread(r, MkTmp), NoFaults);
    var s2 := s1.(tmpDirs := s1.tmpDirs + {r.usr});
    ServeStep(h, s2, Thread(r, MkStage), NoFaults);
    assert PlaceOf(r) in s.staging ==> s.staging[PlaceOf(r) := s.staging[PlaceOf(r)]] == s.staging;
  }

  /** What Write finds: a staged file with the announced sum is kept until then, any other one is deleted. */
  function Kept(h: Hash, s: Server, r: Request): Str {
    if Staged(s, r) && h(Content(s, r)) == r.partSign then Content(s, r) else []
  }

  /** What the file of the part holds after Write. */
  function Received(h: Hash, s: Server, r: Request): Str { Stored(r.body, Kept(h, s, r)) }

  const PART_SIGN_ERROR := Done(Response(false, "part sign check error"), NotCalled)

  lemma DeletedThenWritten(s: Server, r: Request, content: Str)
    requires PlaceOf(r) in s.staging
    ensures
      var d := DeletePart(s, r);
      PlaceOf(r) in d.staging && !Staged(d, r) && WithFile(d, r, content) == WithFile(s, r, content)
  {
    hide Stored, Decimal;
    var d := DeletePart(s, r);
    assert d.staging[PlaceOf(r)][PartOf(r) := content] == s.staging[PlaceOf(r)][PartOf(r) := content];
    var m := s.staging[PlaceOf(r)][PartOf(r) := content];
    assert d.staging[PlaceOf(r) := m] == s.staging[PlaceOf(r) := m];
  }

  /** The server with `content` in the file of the part, in a place that is there. */
  function WithFile(s: Server, r: Request, content: Str): Server
    requires PlaceOf(r) in s.staging
  {
    s.(staging := s.staging[PlaceOf(r) := s.staging[PlaceOf(r)][PartOf(r) := content]])
  }

  lemma WriteIs(s: Server, r: Request)
    requires PlaceOf(r) in s.staging
    ensures WritePart(s, r) == WithFile(s, r, Stored(r.body, if Staged(s, r) then Content(s, r) else []))
    ensures forall content {:trigger WithFile(s, r, content)} ::
      Staged(WithFile(s, r, content), r) && Content(WithFile(s, r, content), r) == content
  {
    hide Stored, Decimal;
  }

  /** From Write to the answer that the sum is wrong, or to List. */
  lemma FromWrite(h: Hash, s: Server, r: Request, content: Str)
    requires PlaceOf(r) in s.staging && content == Stored(r.body, if Staged(s, r) then Content(s, r) else [])
    ensures
      var s' := WithFile(s, r, content);
      Serve(h, s, Thread(r, Write), NoFaults) ==
        if h(content) == r.partSign then Serve(h, s', Thread(r, List), NoFaults) else (s', Thread(r, PART_SIGN_ERROR))
  {
    hide Serve, AsSize, Arrived, WritePart, DeletePart, Publish, Stored, Decimal, WithFile, Staged, Content;
    var s' := WithFile(s, r, content);
    WriteIs(s, r);
    ServeStep(h, s, Thread(r, Write), NoFaults);
    ServeStep(h, s', Thread(r, SumNew), NoFaults);
    ServeDone(h, s', Thread(r, PART_SIGN_ERROR), NoFaults);
  }

  /** From CheckPart on: whether the part was absent, there, or there with another sum, the file is what Received says. */
  lemma FromCheckPart(h: Hash, s: Server, r: Request)
    requires PlaceOf(r) in s.staging
    ensures
      var content := Received(h, s, r);
      var s' := WithFile(s, r, content);
      Serve(h, s, Thread(r, CheckPart), NoFaults) ==
        if h(content) == r.partSign then Serve(h, s', Thread(r, List), NoFaults) else (s', Thread(r, PART_SIGN_ERROR))
  {
    hide Serve, AsSize, Arrived, WritePart, DeletePart, Publish, Stored, Decimal, WithFile;
    var content := Received(h, s, r);
    ServeStep(h, s, Thread(r, CheckPart), NoFaults);
    if Staged(s, r) {
      ServeStep(h, s, Thread(r, SumOld), NoFaults);
      if h(Content(s, r)) != r.partSign {
        ServeStep(h, s, Thread(r, Delete), NoFaults);
        DeletedThenWritten(s, r, content);
        FromWrite(h, DeletePart(s, r), r, content);
        return;
      }
    }
    FromWrite(h, s, r, content);
  }

  /** linkToUsr without faults. */
  lemma FromLink(h: Hash, s: Server, r: Request, speed: bool)
    requires r.usr in s.filesDirs
    ensures Serve(h, s, Thread(r, Link(speed)), NoFaults) ==
            (CountUse(AddLink(s, r), r), Thread(r, LinkDone(speed)))
  {
    hide Serve, LinkDone, LinkFailed;
    AtLink(h, s, r, speed, NoFaults);
    var s1 := AddLink(s, r);
    AtSelect(h, s1, r, speed, NoFaults);
    AtInsert(h, s1, r, speed, NoFaults);
    AtUpdate(h, s1, r, speed, NoFaults);
  }

  /** From List on: the last part publishes and links, any other part is simply kept. */
  lemma FromList(h: Hash, s: Server, r: Request)
    requires r.usr in s.filesDirs
    ensures Serve(h, s, Thread(r, List), NoFaults) ==
      if AsSize(r.shard) == Arrived(s, r) then
        (CountUse(AddLink(Publish(s, r), r), r), Thread(r, LinkDone(false)))
      else (s, Thread(r, Done(Response(true, "success"), NotCalled)))
  {
    hide Serve, Md5Sum, AsSize, Arrived, WritePart, DeletePart, Decimal;
    ServeStep(h, s, Thread(r, List), NoFaults);
    if AsSize(r.shard) == Arrived(s, r) {
      ServeStep(h, s, Thread(r, Move), NoFaults);
      FromLink(h, Publish(s, r), r, false);
    } else {
      ServeDone(h, s, Thread(r, Done(Response(true, "success"), NotCalled)), NoFaults);
    }
  }

  /** Every request of a registered user for a signature that is not published, right or wrong: afterwards the file
      of the part is what Received says and no other file is changed.  The answer is false exactly if the sum of that
      file is not the announced one; otherwise the last part publishes, links and counts. */
  lemma ServePart(h: Hash, s: Server, r: Request)
    requires r.usr in s.homes && r.fileSign !in s.published
    ensures
      var content := Received(h, s, r);
      var s1 := Uploaded(s, r, content);
      Serve(h, s, Thread(r, MkFiles), NoFaults) ==
        if h(content) != r.partSign then (s1, Thread(r, PART_SIGN_ERROR))
        else if AsSize(r.shard) == Arrived(s1, r) then (CountUse(AddLink(Publish(s1, r), r), r), Thread(r, LinkDone(false)))
        else (s1, Thread(r, Done(Response(true, "success"), NotCalled)))
  {
    hide Serve, AsSize, Arrived, Publish, CountUse, AddLink, Decimal, Received;
    var g, content := MakeDirs(s, r), Received(h, s, r);
    ToCheckPart(h, s, r);
    ReceivedLater(h, s, r);
    FromCheckPart(h, g, r);
    UploadedIs(s, r, content);
    FromList(h, Uploaded(s, r, content), r);
  }

  lemma ReceivedLater(h: Hash, s: Server, r: Request)
    ensures Received(h, MakeDirs(s, r), r) == Received(h, s, r)
  {
    hide Stored, Decimal;
  }

  lemma UploadedIs(s: Server, r: Request, content: Str)
    ensures WithFile(MakeDirs(s, r), r, content) == Uploaded(s, r, content)
  {
    hide Decimal;
    var m := Entries(s, PlaceOf(r));
    assert s.staging[PlaceOf(r) := m][PlaceOf(r) := m[PartOf(r) := content]] == s.staging[PlaceOf(r) := m[PartOf(r) := content]];
  }

  /** The answer to such a request is true if and only if the file it leaves has the sum it announced, and until it is
      published the file is where the request put it. */
  lemma AnswerExactly(h: Hash, s: Server, r: Request)
    requires r.usr in s.homes && r.fileSign !in s.published
    ensures
      var (s', t') := Serve(h, s, Thread(r, MkFiles), NoFaults);
      var content := Received(h, s, r);
      (t'.pc.response.res <==> h(content) == r.partSign) &&
      if r.fileSign in s'.published then
        t'.pc.response.res && PlaceOf(r) !in s'.staging &&
        s'.published[r.fileSign] == Entries(s, PlaceOf(r))[PartOf(r) := content]
      else Staged(s', r) && s'.staging[PlaceOf(r)] == Entries(s, PlaceOf(r))[PartOf(r) := content]
  {
    hide Serve, AsSize, Arrived, Decimal, Received;
    ServePart(h, s, r);
    var s1 := Uploaded(s, r, Received(h, s, r));
    PublishedByUse(AddLink(Publish(s1, r), r), r);
  }

  lemma PublishedByUse(s: Server, r: Request)
    ensures CountUse(s, r).published == s.published && CountUse(s, r).staging == s.staging
  {
  }

  /** A short body without NUL and with the announced sum is received exactly, unless two contents share the sum. */
  lemma ReceivedExactly(h: Hash, s: Server, r: Request)
    requires NulFree(r.body) && |r.body| <= WRITE_LEN && r.partSign == h(r.body)
    requires Staged(s, r) && h(Content(s, r)) == r.partSign ==> Content(s, r) == r.body
    ensures Received(h, s, r) == r.body
  {
    hide Stored, NulFree;
    StoredExactly(r.body);
  }

  /** Sending a request again, if its signature is not published then, does nothing and gets the same answer, if and
      only if its file has the announced sum or is what Write leaves on a new file.  (Otherwise the file is deleted,
      because its sum is wrong, and written again without the rest of an older file.)  If its signature is published,
      sending it again only counts one more use. */
  lemma ResendExactly(h: Hash, s: Server, r: Request)
    requires r.usr in s.homes && r.fileSign !in s.published
    ensures
      var (s1, t1) := Serve(h, s, Thread(r, MkFiles), NoFaults);
      var content := Received(h, s, r);
      if r.fileSign in s1.published then
        Serve(h, s1, Thread(r, MkFiles), NoFaults) == (CountUse(s1, r), Thread(r, LinkDone(true)))
      else
        Serve(h, s1, Thread(r, MkFiles), NoFaults) == (s1, t1) <==>
          (h(content) == r.partSign || content == Stored(r.body, []))
  {
    hide Serve, AsSize, Arrived, CountUse, Decimal, Received, Stored;
    var content := Received(h, s, r);
    var s1 := Uploaded(s, r, content);
    ServePart(h, s, r);
    if h(content) == r.partSign && AsSize(r.shard) == Arrived(s1, r) {
      var s2 := CountUse(AddLink(Publish(s1, r), r), r);
      PublishedByUse(AddLink(Publish(s1, r), r), r);
      LinkedByUse(Publish(s1, r), r);
      ServePublished(h, s2, r);
    } else {
      var again := Received(h, s1, r);
      ServePart(h, s1, r);
      ReceivedAgain(h, s, r);
      UploadedTwice(s, r, content, again);
    }
  }

  lemma LinkedByUse(s: Server, r: Request)
    ensures
      var s' := CountUse(AddLink(s, r), r);
      AddLink(s', r) == s' && s'.homes == s.homes &&
      (r.usr in s.filesDirs ==> s'.(filesDirs := s'.filesDirs + {r.usr}) == s')
  {
    var s' := CountUse(AddLink(s, r), r);
    assert s'.links + {PlaceOf(r)} == s'.links;
    assert r.usr in s.filesDirs ==> s'.filesDirs + {r.usr} == s'.filesDirs;
  }

  lemma ReceivedAgain(h: Hash, s: Server, r: Request)
    ensures
      var content := Received(h, s, r);
      Received(h, Uploaded(s, r, content), r) == if h(content) == r.partSign then content else Stored(r.body, [])
  {
    hide Stored, Decimal;
    StoredTwice(r.body, Kept(h, s, r));
  }

  lemma UploadedTwice(s: Server, r: Request, content: Str, again: Str)
    ensures Uploaded(Uploaded(s, r, content), r, again) == Uploaded(s, r, again)
    ensures Uploaded(s, r, again) == Uploaded(s, r, content) <==> again == content
  {
    hide Decimal;
    var s1 := Uploaded(s, r, content);
    var p, m := PlaceOf(r), Entries(s, PlaceOf(r));
    assert m[PartOf(r) := content][PartOf(r) := again] == m[PartOf(r) := again];
    assert s.staging[p := m[PartOf(r) := content]][p := m[PartOf(r) := again]] == s.staging[p := m[PartOf(r) := again]];
    assert s1.filesDirs + {r.usr} == s1.filesDirs && s1.tmpDirs + {r.usr} == s1.tmpDirs;
    assert Uploaded(s, r, again).staging[p][PartOf(r)] == again && s1.staging[p][PartOf(r)] == content;
  }

  /** The instant path: a published signature is linked and counted, whatever the request carries. */
  lemma ServePublished(h: Hash, s: Server, r: Request)
    requires r.usr in s.homes && r.fileSign in s.published
    ensures
      var s1 := s.(filesDirs := s.filesDirs + {r.usr});
      Serve(h, s, Thread(r, MkFiles), NoFaults) == (CountUse(AddLink(s1, r), r), Thread(r, LinkDone(true)))
  {
    hide Serve, Md5Sum, AsSize, Arrived, WritePart, DeletePart, Publish, CountUse, AddLink, Decimal;
    ServeStep(h, s, Thread(r, MkFiles), NoFaults);
    var s1 := s.(filesDirs := s.filesDirs + {r.usr});
    ServeStep(h, s1, Thread(r, CheckPublished), NoFaults);
    FromLink(h, s1, r, true);
  }

  // Sequential runs are runs.

  /** The calls of the i-th request from where it stands to its end. */
  function Calls(h: Hash, s: Server, t: Thread, faults: Pc -> Fault, i: nat): seq<Action>
    decreases Rank(t.pc)
  {
    if t.pc.Done? then []
    else
      StepDescends(h, s, t, faults(t.pc));
      var (s', t') := Step(h, s, t, faults(t.pc));
      [Act(i, faults(t.pc))] + Calls(h, s', t', faults, i)
  }

  /** Serving a request is one of the runs of the concurrent system. */
  lemma {:induction false} ServeIsRun(h: Hash, s: Server, ts: seq<Thread>, t: Thread, faults: Pc -> Fault)
    ensures
      var (s', t') := Serve(h, s, t, faults);
      Run(h, System(s, ts + [t]), Calls(h, s, t, faults, |ts|)) == System(s', ts + [t'])
    decreases Rank(t.pc)
  {
    hide Step;
    if !t.pc.Done? {
      var f := faults(t.pc);
      StepDescends(h, s, t, f);
      var (s1, t1) := Step(h, s, t, f);
      ServeIsRun(h, s1, ts, t1, faults);
      assert (ts + [t])[|ts| := t1] == ts + [t1];
      var rest := Calls(h, s1, t1, faults, |ts|);
      assert ([Act(|ts|, f)] + rest)[1..] == rest;
    }
  }

  /** Requests served one after the other. */
  function ServeAll(h: Hash, y: System, rs: seq<Request>): System
    decreases |rs|
  {
    if rs == [] then y
    else
      var (s', t') := Serve(h, y.server, Thread(rs[0], MkFiles), NoFaults);
      ServeAll(h, System(s', y.threads + [t']), rs[1..])
  }

  ghost predicate Consistent(y: System) { Counted(y) && LinksHaveCalls(y) }

  lemma ServeKeepsConsistent(h: Hash, y: System, r: Request)
    requires Consistent(y)
    ensures
      var (s', t') := Serve(h, y.server, Thread(r, MkFiles), NoFaults);
      Consistent(System(s', y.threads + [t']))
  {
    hide Serve, Run, Calls, Counted, LinksHaveCalls;
    var t := Thread(r, MkFiles);
    var y1 := Perform(h, y, Arrive(r));
    PerformKeepsCounted(h, y, Arrive(r));
    PerformKeepsLinks(h, y, Arrive(r));
    var calls := Calls(h, y.server, t, NoFaults, |y.threads|);
    ServeIsRun(h, y.server, y.threads, t, NoFaults);
    ReferenceCountsCalls(h, y1, calls);
    RunKeepsLinks(h, y1, calls);
  }

  /** Without faults and with nobody else at work, linkToUsr does not fail. */
  lemma {:induction false} LinkNeverFails(h: Hash, s: Server, t: Thread)
    requires t.pc.MkFiles? || t.request.usr in s.filesDirs || (t.pc.Done? && !IsFailed(t))
    requires t.pc.Insert? ==> t.request.fileSign !in s.rows
    requires !IsFailed(t)
    ensures !IsFailed(Serve(h, s, t, NoFaults).1)
    decreases Rank(t.pc)
  {
    hide Md5Sum, AsSize, Arrived, WritePart, DeletePart, Publish, Decimal;
    if !t.pc.Done? {
      StepDescends(h, s, t, NO_FAULT);
      FilesOnlyDirs(s, t.request);
      var (s1, t1) := Step(h, s, t, NO_FAULT);
      LinkNeverFails(h, s1, t1);
    }
  }

  lemma FilesOnlyDirs(s: Server, r: Request)
    ensures DeletePart(s, r).filesDirs == Publish(s, r).filesDirs == s.filesDirs
    ensures PlaceOf(r) in s.staging ==> WritePart(s, r).filesDirs == s.filesDirs
  {
  }

  lemma {:induction false} OpenAppend(ts: seq<Thread>, t: Thread, sign: Str)
    requires CountOpen(ts, sign) == 0 && !IsFailed(t) && !IsInFlight(t)
    ensures CountOpen(ts + [t], sign) == 0
  {
    if ts == [] {
      assert [t][1..] == [] && ts + [t] == [t];
      assert CountOpen([t], sign) == CountOpen([], sign);
    } else {
      assert (ts + [t])[1..] == ts[1..] + [t];
      OpenAppend(ts[1..], t, sign);
    }
  }

  lemma {:induction false} ServeAllLinks(h: Hash, y: System, rs: seq<Request>, sign: Str)
    requires Consistent(y) && CountOpen(y.threads, sign) == 0
    ensures Consistent(ServeAll(h, y, rs)) && CountOpen(ServeAll(h, y, rs).threads, sign) == 0
    decreases |rs|
  {
    hide Serve, Consistent, IsFailed;
    if rs == [] {
    } else {
      var t := Thread(rs[0], MkFiles);
      var (s', t') := Serve(h, y.server, t, NoFaults);
      ServeKeepsConsistent(h, y, rs[0]);
      NotFailedYet(t);
      LinkNeverFails(h, y.server, t);
      OpenAppend(y.threads, t', sign);
      ServeAllLinks(h, System(s', y.threads + [t']), rs[1..], sign);
    }
  }

  lemma NotFailedYet(t: Thread)
    ensures t.pc.MkFiles? ==> !IsFailed(t)
  {
  }

  /** In sequential runs without faults, the users holding a link never exceed the reference. */
  lemma SequentialLinkersAreCounted(h: Hash, users: set<Str>, rs: seq<Request>, sign: Str)
    ensures
      var y := ServeAll(h, System(Server(users, {}, {}, map[], map[], {}, map[]), []), rs);
      |Linkers(y.server, sign)| <= Reference(y.server, sign)
  {
    hide ServeAll;
    var start := System(Server(users, {}, {}, map[], map[], {}, map[]), []);
    ServeAllLinks(h, start, rs, sign);
    LinkersBound(ServeAll(h, start, rs), sign);
  }

  // Rejected parts.

  /** A part is not removed when its sum is wrong: for every two-part file, a wrong first part is answered false, and
      when the second part arrives the wrong one is published with it. */
  lemma RejectedPartIsPublished(h: Hash, s: Server, bad: Request, good: Request)
    requires bad.usr == good.usr && bad.fileSign == good.fileSign && bad.shard == good.shard == 2
    requires bad.partIndex == 0 && good.partIndex == 1
    requires bad.usr in s.homes && bad.fileSign !in s.published && PlaceOf(bad) !in s.staging
    requires h(Stored(bad.body, [])) != bad.partSign && h(Stored(good.body, [])) == good.partSign
    ensures
      var (s1, t1) := Serve(h, s, Thread(bad, MkFiles), NoFaults);
      var (s2, t2) := Serve(h, s1, Thread(good, MkFiles), NoFaults);
      t1.pc.response == Response(false, "part sign check error") && t2.pc.response.res &&
      good.fileSign in s2.published &&
      s2.published[good.fileSign] == map[Decimal(0) := Stored(bad.body, []), Decimal(1) := Stored(good.body, [])]
  {
    hide Serve, AsSize, Arrived, CountUse, Decimal, Visible, Stored;
    PartNames(0, 1);
    ServePart(h, s, bad);
    var s1 := Uploaded(s, bad, Stored(bad.body, []));
    ServePart(h, s1, good);
    var s2 := Uploaded(s1, good, Stored(good.body, []));
    assert s2.staging[PlaceOf(good)] == map[Decimal(0) := Stored(bad.body, []), Decimal(1) := Stored(good.body, [])];
    TwoEntries(s2, good);
    PublishedByUse(AddLink(Publish(s2, good), good), good);
  }

  lemma TwoEntries(s: Server, r: Request)
    requires PlaceOf(r) in s.staging && s.staging[PlaceOf(r)].Keys == {Decimal(0), Decimal(1)}
    ensures Arrived(s, r) == 2 == AsSize(2)
  {
    PartNames(0, 1);
    PartNames(1, 0);
    assert (set name | name in s.staging[PlaceOf(r)] && Visible(name)) == {Decimal(0), Decimal(1)};
  }
}
