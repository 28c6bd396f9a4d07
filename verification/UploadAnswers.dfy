/** The answer of UploadRpc::Do in terms of what the caller can know: the server before the request, the request, and
    which of its calls failed. */
module UploadAnswers {
  import opened Parts
  import opened UploadSteps
  import opened UploadSequential

  /** linkToUsr returns -1: the link cannot be made, or the SELECT, or the INSERT or UPDATE that follows it fails. */
  predicate LinkFails(s: Server, r: Request, speed: bool, faults: Pc -> Fault) {
    faults(Link(speed)).fail || faults(Select(speed)).fail ||
    (if r.fileSign in s.rows then faults(Update(speed)).fail else faults(Insert(speed)).fail)
  }

  function AnswerOf(r: (Server, Thread)): Response
    requires r.1.pc.Done?
  {
    r.1.pc.response
  }

  lemma AnswerFromLink(h: Hash, s: Server, r: Request, speed: bool, faults: Pc -> Fault)
    requires r.usr in s.filesDirs
    ensures AnswerOf(Serve(h, s, Thread(r, Link(speed)), faults)) ==
      if LinkFails(s, r, speed, faults) then Response(false, if speed then "speed upload link failed" else "link failed")
      else Response(true, if speed then "file already in server, speed" else "success")
  {
    hide Serve;
    var s1 := AddLink(s, r);
    AtLink(h, s, r, speed, faults);
    AtSelect(h, s1, r, speed, faults);
    AtInsert(h, s1, r, speed, faults);
    AtUpdate(h, s1, r, speed, faults);
    ServeDone(h, s, Thread(r, LinkFailed(speed)), faults);
    ServeDone(h, s1, Thread(r, LinkFailed(speed)), faults);
  }

  /** The answer from allPartArrived on. */
  function LateAnswer(s: Server, r: Request, faults: Pc -> Fault): Response {
    if AsSize(r.shard) != (if faults(List).fail then 0 else Arrived(s, r)) then Response(true, "success")
    else if faults(Move).noise then Response(false, "mv failed")
    else if LinkFails(s, r, false, faults) then Response(false, "link failed")
    else Response(true, "success")
  }

  lemma SameLink(s: Server, r: Request, faults: Pc -> Fault)
    ensures Publish(s, r).filesDirs == s.filesDirs
    ensures LinkFails(Publish(s, r), r, false, faults) == LinkFails(s, r, false, faults)
  {
  }

  lemma AnswerFromList(h: Hash, s: Server, r: Request, faults: Pc -> Fault)
    requires r.usr in s.filesDirs
    ensures AnswerOf(Serve(h, s, Thread(r, List), faults)) == LateAnswer(s, r, faults)
  {
    hide Serve, Md5Sum, AsSize, Arrived, WritePart, DeletePart, Publish, LinkFails;
    ServeStep(h, s, Thread(r, List), faults);
    if AsSize(r.shard) == (if faults(List).fail then 0 else Arrived(s, r)) {
      ServeStep(h, s, Thread(r, Move), faults);
      var s' := if faults(Move).fail then s else Publish(s, r);
      SameLink(s, r, faults);
      if faults(Move).noise {
        ServeDone(h, s', Thread(r, Reject("mv failed")), faults);
      } else {
        AnswerFromLink(h, s', r, false, faults);
      }
    } else {
      ServeDone(h, s, Thread(r, Done(Response(true, "success"), NotCalled)), faults);
    }
  }

  lemma AnswerFromWrite(h: Hash, s: Server, r: Request, faults: Pc -> Fault)
    requires r.usr in s.filesDirs && PlaceOf(r) in s.staging
    ensures
      var content := Stored(r.body, if Staged(s, r) then Content(s, r) else []);
      AnswerOf(Serve(h, s, Thread(r, Write), faults)) ==
        if faults(Write).fail then Response(false, "write file failed")
        else if faults(SumNew).fail then Response(false, "cal md5 failed")
        else if h(content) != r.partSign then Response(false, "part sign check error")
        else LateAnswer(WithFile(s, r, content), r, faults)
  {
    hide Serve, AsSize, Arrived, WritePart, DeletePart, Publish, Stored, Decimal, WithFile, Staged, Content, LateAnswer;
    var content := Stored(r.body, if Staged(s, r) then Content(s, r) else []);
    var s' := WithFile(s, r, content);
    WriteIs(s, r);
    ServeStep(h, s, Thread(r, Write), faults);
    if faults(Write).fail {
      ServeDone(h, s, Thread(r, Reject("write file failed")), faults);
    } else {
      ServeStep(h, s', Thread(r, SumNew), faults);
      ServeDone(h, s', Thread(r, Reject("cal md5 failed")), faults);
      ServeDone(h, s', Thread(r, Reject("part sign check error")), faults);
      FilesDirsStay(s, r, content);
      AnswerFromList(h, s', r, faults);
    }
  }

  lemma FilesDirsStay(s: Server, r: Request, content: Str)
    requires PlaceOf(r) in s.staging
    ensures WithFile(s, r, content).filesDirs == s.filesDirs
  {
  }

  /** The old copy of the part is looked at, and perhaps deleted, before Write; failing to look at it or to delete it is
      not noticed. */
  lemma AnswerFromCheckPart(h: Hash, s: Server, r: Request, faults: Pc -> Fault)
    requires r.usr in s.filesDirs && PlaceOf(r) in s.staging
    ensures
      var seen := Staged(s, r) && !faults(CheckPart).fail;
      var deleted := seen && h(Content(s, r)) != r.partSign && !faults(Delete).fail;
      var content := Stored(r.body, if Staged(s, r) && !deleted then Content(s, r) else []);
      AnswerOf(Serve(h, s, Thread(r, CheckPart), faults)) ==
        if seen && faults(SumOld).fail then Response(false, "cal md5 failed")
        else if faults(Write).fail then Response(false, "write file failed")
        else if faults(SumNew).fail then Response(false, "cal md5 failed")
        else if h(content) != r.partSign then Response(false, "part sign check error")
        else LateAnswer(WithFile(s, r, content), r, faults)
  {
    hide Serve, WritePart, Stored, Decimal, WithFile, LateAnswer, DeletePart;
    AtCheckPart(h, s, r, faults);
    if Staged(s, r) && !faults(CheckPart).fail {
      AtSumOld(h, s, r, faults);
      if faults(SumOld).fail {
        ServeDone(h, s, Thread(r, Reject("cal md5 failed")), faults);
        return;
      }
      if h(Content(s, r)) != r.partSign {
        AtDelete(h, s, r, faults);
        if !faults(Delete).fail {
          DeletedThenWritten(s, r, Stored(r.body, []));
          FilesDirsDeleted(s, r);
          AnswerFromWrite(h, DeletePart(s, r), r, faults);
          return;
        }
      }
    }
    AnswerFromWrite(h, s, r, faults);
  }

  lemma FilesDirsDeleted(s: Server, r: Request)
    ensures DeletePart(s, r).filesDirs == s.filesDirs
  {
  }

  /** The answer to any request, for every pattern of failing calls. */
  lemma AnswerToEveryRequest(h: Hash, s: Server, r: Request, faults: Pc -> Fault)
    ensures
      var seen := Staged(s, r) && !faults(CheckPart).fail;
      var deleted := seen && h(Content(s, r)) != r.partSign && !faults(Delete).fail;
      var content := Stored(r.body, if Staged(s, r) && !deleted then Content(s, r) else []);
      AnswerOf(Serve(h, s, Thread(r, MkFiles), faults)) ==
        if faults(MkFiles).fail || r.usr !in s.homes then Response(false, "create usr files dir failed")
        else if r.fileSign in s.published && !faults(CheckPublished).fail then
          if LinkFails(s, r, true, faults) then Response(false, "speed upload link failed")
          else Response(true, "file already in server, speed")
        else if faults(MkUsr).fail || faults(MkTmp).fail || faults(MkStage).fail then
          Response(false, "create usr dir or usr file dir failed")
        else if seen && faults(SumOld).fail then Response(false, "cal md5 failed")
        else if faults(Write).fail then Response(false, "write file failed")
        else if faults(SumNew).fail then Response(false, "cal md5 failed")
        else if h(content) != r.partSign then Response(false, "part sign check error")
        else LateAnswer(Uploaded(s, r, content), r, faults)
  {
    hide Serve, Stored, Decimal, WithFile, LateAnswer, Md5Sum, AsSize, Arrived, WritePart, DeletePart, Publish;
    ServeStep(h, s, Thread(r, MkFiles), faults);
    if faults(MkFiles).fail || r.usr !in s.homes {
      ServeDone(h, s, Thread(r, Reject("create usr files dir failed")), faults);
      return;
    }
    var s1 := s.(filesDirs := s.filesDirs + {r.usr});
    ServeStep(h, s1, Thread(r, CheckPublished), faults);
    if r.fileSign in s.published && !faults(CheckPublished).fail {
      AnswerFromLink(h, s1, r, true, faults);
      return;
    }
    ToCheckPartOrFail(h, s, r, faults);
    if !(faults(MkUsr).fail || faults(MkTmp).fail || faults(MkStage).fail) {
      var g := MakeDirs(s, r);
      SameFile(s, r);
      AnswerFromCheckPart(h, g, r, faults);
      var seen := Staged(s, r) && !faults(CheckPart).fail;
      var deleted := seen && h(Content(s, r)) != r.partSign && !faults(Delete).fail;
      UploadedIs(s, r, Stored(r.body, if Staged(s, r) && !deleted then Content(s, r) else []));
    }
  }

  lemma SameFile(s: Server, r: Request)
    ensures
      var g := MakeDirs(s, r);
      r.usr in g.filesDirs && PlaceOf(r) in g.staging && (Staged(g, r) <==> Staged(s, r)) &&
      (Staged(s, r) ==> Content(g, r) == Content(s, r))
  {
    hide Decimal;
  }

  lemma ToCheckPartOrFail(h: Hash, s: Server, r: Request, faults: Pc -> Fault)
    requires r.usr in s.homes
    ensures
      var served := Serve(h, s.(filesDirs := s.filesDirs + {r.usr}), Thread(r, MkUsr), faults);
      if faults(MkUsr).fail || faults(MkTmp).fail || faults(MkStage).fail then
        AnswerOf(served) == Response(false, "create usr dir or usr file dir failed")
      else served == Serve(h, MakeDirs(s, r), Thread(r, CheckPart), faults)
  {
    hide Serve, Decimal;
    var rejected := Thread(r, Reject("create usr dir or usr file dir failed"));
    var s1 := s.(filesDirs := s.filesDirs + {r.usr});
    AtMkUsr(h, s1, r, faults);
    ServeDone(h, s1, rejected, faults);
    assert s1.homes + {r.usr} == s1.homes;
    AtMkTmp(h, s1, r, faults);
    var s2 := s1.(tmpDirs := s1.tmpDirs + {r.usr});
    ServeDone(h, s2, rejected, faults);
    AtMkStage(h, s2, r, faults);
    assert PlaceOf(r) in s.staging ==> s.staging[PlaceOf(r) := s.staging[PlaceOf(r)]] == s.staging;
  }

  /** A user who is not registered is turned away, and nothing changes. */
  lemma UnregisteredChangesNothing(h: Hash, s: Server, r: Request, faults: Pc -> Fault)
    requires r.usr !in s.homes
    ensures Serve(h, s, Thread(r, MkFiles), faults) ==
            (s, Thread(r, Done(Response(false, "create usr files dir failed"), NotCalled)))
  {
    hide Serve, Md5Sum, AsSize, Arrived, WritePart, DeletePart, Publish, Decimal;
    ServeStep(h, s, Thread(r, MkFiles), faults);
    ServeDone(h, s, Thread(r, Reject("create usr files dir failed")), faults);
  }
}
