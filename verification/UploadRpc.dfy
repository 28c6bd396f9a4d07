/** The class UploadRpc of upload_rpc.cpp on top of FileSys and SignMap.  `faults` says, for every call, whether it
    fails; the object's state and the answer are those of the step machine run to its end. */
module UploadRpc {
  import opened Parts
  import opened UploadSteps
  import opened UploadSequential
  import opened FileSys

  class UploadRpc {
    const fs: FileSys
    const sql: SignMap

    constructor (md5sum: Hash, users: set<Str>)
      ensures fresh(fs) && fresh(sql) && fs.md5sum == md5sum
      ensures View() == Server(users, {}, {}, map[], map[], {}, map[])
    {
      fs := new FileSys(md5sum, users);
      sql := new SignMap();
    }

    ghost function View(): Server
      reads fs, sql
    {
      Server(fs.homes, fs.filesDirs, fs.tmpDirs, fs.staging, fs.published, fs.links, sql.rows)
    }

    /** What is left to happen when request r is about to make the call `pc`. */
    ghost function Left(r: Request, pc: Pc, faults: Pc -> Fault): (Server, Thread)
      reads fs, sql
    {
      Serve(fs.md5sum, View(), Thread(r, pc), faults)
    }

    /** allPartArrived: a directory that cannot be listed counts as empty. */
    method AllPartArrived(r: Request, fail: bool) returns (b: bool)
      ensures b == (AsSize(r.shard) == if fail then 0 else Arrived(View(), r))
    {
      var rc, partNum := fs.LsDir(PlaceOf(r), fail);
      if rc == 0 {
        assert (set name | name in fs.staging[PlaceOf(r)] && Visible(name)) == VisibleNames(fs.staging[PlaceOf(r)].Keys);
        assert |multiset(partNum)| == |partNum|;
      }
      b := AsSize(r.shard) == |partNum|;
    }

    /** linkToUsr, with addSignMap: 0 if the call completed its INSERT or UPDATE. */
    method LinkToUsr(r: Request, speed: bool, faults: Pc -> Fault) returns (rc: int)
      modifies fs`links, sql
      ensures old(Left(r, Link(speed), faults)) ==
              (View(), Thread(r, if rc == 0 then LinkDone(speed) else LinkFailed(speed)))
    {
      hide Serve, LinkFailed, LinkDone;
      var h := fs.md5sum;
      AtLink(h, View(), r, speed, faults);
      rc := fs.Link(PlaceOf(r), faults(Link(speed)).fail);
      if rc != 0 {
        ServeDone(h, View(), Thread(r, LinkFailed(speed)), faults);
        return -1;
      }
      AtSelect(h, View(), r, speed, faults);
      var found: bool;
      rc, found := sql.Select(r.fileSign, faults(Select(speed)).fail);
      if rc != 0 {
        ServeDone(h, View(), Thread(r, LinkFailed(speed)), faults);
        return -1;
      }
      if !found {
        AtInsert(h, View(), r, speed, faults);
        rc := sql.Insert(r.fileSign, r.fileName, faults(Insert(speed)).fail);
      } else {
        AtUpdate(h, View(), r, speed, faults);
        rc := sql.Increment(r.fileSign, faults(Update(speed)).fail);
      }
    }

    /** The answer to a request whose next call is `pc`, and the state it leaves, are those of serving it to its end. */
    twostate predicate Answered(r: Request, pc: Pc, faults: Pc -> Fault, response: Response)
      reads fs, sql
    {
      var (s', t') := old(Left(r, pc, faults));
      View() == s' && response == t'.pc.response
    }

    /** The end of Do, from allPartArrived on. */
    method Finish(r: Request, faults: Pc -> Fault) returns (response: Response)
      modifies fs, sql
      ensures Answered(r, List, faults, response)
    {
      hide Serve, Md5Sum, AsSize, Arrived, WritePart, DeletePart, Decimal;
      var h := fs.md5sum;
      ServeStep(h, View(), Thread(r, List), faults);
      var all := AllPartArrived(r, faults(List).fail);
      if all {
        ServeStep(h, View(), Thread(r, Move), faults);
        var silent := fs.Move(PlaceOf(r), faults(Move));
        if !silent {
          ServeDone(h, View(), Thread(r, Reject("mv failed")), faults);
          return Response(false, "mv failed");
        }
        var rc := LinkToUsr(r, false, faults);
        if rc != 0 {
          return Response(false, "link failed");
        }
      } else {
        ServeDone(h, View(), Thread(r, Done(Response(true, "success"), NotCalled)), faults);
      }
      response := Response(true, "success");
    }

    /** The middle of Do: an old copy of the part is compared, the body is written and compared. */
    method Receive(r: Request, faults: Pc -> Fault) returns (response: Response)
      requires |r.body| < 0x8000_0000
      modifies fs, sql
      ensures Answered(r, CheckPart, faults, response)
    {
      hide Serve, Decimal, Reject;
      var h, p, name := fs.md5sum, PlaceOf(r), PartOf(r);
      AtCheckPart(h, View(), r, faults);
      var there := fs.ExistFile(p, name, faults(CheckPart).fail);
      var rc: int;
      if there {
        AtSumOld(h, View(), r, faults);
        var curMd5: Str;
        rc, curMd5 := fs.Md5Sum(p, name, faults(SumOld).fail);
        if rc != 0 {
          ServeDone(h, View(), Thread(r, Reject("cal md5 failed")), faults);
          return Response(false, "cal md5 failed");
        }
        if curMd5 != r.partSign {
          AtDelete(h, View(), r, faults);
          rc := fs.DeleteFile(p, name, faults(Delete).fail);
        }
      }
      response := Store(r, faults);
    }

    method Store(r: Request, faults: Pc -> Fault) returns (response: Response)
      requires |r.body| < 0x8000_0000
      modifies fs, sql
      ensures Answered(r, Write, faults, response)
    {
      hide Serve, AsSize, Arrived, Publish, Stored, Decimal;
      var h, p, name := fs.md5sum, PlaceOf(r), PartOf(r);
      ServeStep(h, View(), Thread(r, Write), faults);
      var rc := fs.Write(r.body, p, name, faults(Write).fail);
      if rc != 0 {
        ServeDone(h, View(), Thread(r, Reject("write file failed")), faults);
        return Response(false, "write file failed");
      }
      ServeStep(h, View(), Thread(r, SumNew), faults);
      var curMd5: Str;
      rc, curMd5 := fs.Md5Sum(p, name, faults(SumNew).fail);
      if rc != 0 {
        ServeDone(h, View(), Thread(r, Reject("cal md5 failed")), faults);
        return Response(false, "cal md5 failed");
      }
      if curMd5 != r.partSign {
        ServeDone(h, View(), Thread(r, Reject("part sign check error")), faults);
        return Response(false, "part sign check error");
      }
      response := Finish(r, faults);
    }

    /** The staging directory is made, level by level. */
    method MakeStage(r: Request, faults: Pc -> Fault) returns (response: Response)
      requires |r.body| < 0x8000_0000
      modifies fs, sql
      ensures Answered(r, MkUsr, faults, response)
    {
      hide Serve;
      var h := fs.md5sum;
      ghost var rejected := Thread(r, Reject("create usr dir or usr file dir failed"));
      AtMkUsr(h, View(), r, faults);
      var rc := fs.Mkdir(Home(r.usr), faults(MkUsr).fail);
      if rc == 0 {
        AtMkTmp(h, View(), r, faults);
        rc := fs.Mkdir(TmpDir(r.usr), faults(MkTmp).fail);
        if rc == 0 {
          AtMkStage(h, View(), r, faults);
          rc := fs.Mkdir(Stage(PlaceOf(r)), faults(MkStage).fail);
        }
      }
      if rc != 0 {
        ServeDone(h, View(), rejected, faults);
        return Response(false, "create usr dir or usr file dir failed");
      }
      response := Receive(r, faults);
    }

    /** UploadRpc::Do. */
    method Do(r: Request, faults: Pc -> Fault) returns (response: Response)
      requires |r.body| < 0x8000_0000
      modifies fs, sql
      ensures Answered(r, MkFiles, faults, response)
    {
      hide Serve, Md5Sum, AsSize, Arrived, WritePart, DeletePart, Publish, Decimal;
      var h := fs.md5sum;
      ServeStep(h, View(), Thread(r, MkFiles), faults);
      var rc := fs.Mkdir(FilesDir(r.usr), faults(MkFiles).fail);
      if rc != 0 {
        ServeDone(h, View(), Thread(r, Reject("create usr files dir failed")), faults);
        return Response(false, "create usr files dir failed");
      }
      ServeStep(h, View(), Thread(r, CheckPublished), faults);
      var there := fs.ExistDir(r.fileSign, faults(CheckPublished).fail);
      if there {
        rc := LinkToUsr(r, true, faults);
        if rc != 0 {
          return Response(false, "speed upload link failed");
        }
        return Response(true, "file already in server, speed");
      }
      response := MakeStage(r, faults);
    }
  }
}
