/** What the server does with an upload request, one file-system call or SQL statement at a time. */
module UploadSteps {
  import opened Words
  import opened Parts

  /** The md5sum program: file content to hexadecimal digest. */
  type Hash = Str -> Str

  datatype Row = Row(fileName: Str, reference: nat)

  /** Where the parts of one user's upload of one signature are staged: usr_dir/usr/tmp/sign. */
  datatype Place = Place(usr: Str, sign: Str)

  /** The disk below usr_dir and files_dir, and the table SignMap. */
  datatype Server = Server(
    homes: set<Str>,                        // usr_dir/usr
    filesDirs: set<Str>,                    // usr_dir/usr/files
    tmpDirs: set<Str>,                      // usr_dir/usr/tmp
    staging: map<Place, map<Str, Str>>,     // usr_dir/usr/tmp/sign, with the files in it
    published: map<Str, map<Str, Str>>,     // files_dir/sign, with the files in it
    links: set<Place>,                      // usr_dir/usr/files/sign, a link to files_dir/sign
    rows: map<Str, Row>)                    // SignMap, by its primary key sign

  datatype Request = Request(usr: Str, fileSign: Str, fileName: Str, partSign: Str, body: Str,
                             shard: uint32, partIndex: uint32)

  function PlaceOf(r: Request): Place { Place(r.usr, r.fileSign) }

  function PartOf(r: Request): Str { Decimal(r.partIndex) }

  /** How linkToUsr ended, if it was called at all. */
  datatype LinkCall = NotCalled | Failed | Linked

  datatype Response = Response(res: bool, body: string)

  /** The next call of UploadRpc::Do.  In linkToUsr, `speed` tells the call for a file that is already published from
      the call after the last part. */
  datatype Pc =
    | MkFiles | CheckPublished
    | MkUsr | MkTmp | MkStage
    | CheckPart | SumOld | Delete
    | Write | SumNew | List | Move
    | Link(speed: bool) | Select(speed: bool) | Insert(speed: bool) | Update(speed: bool)
    | Done(response: Response, link: LinkCall)

  /** fail: the call fails and has no effect; noise: the shell command printed something. */
  datatype Fault = Fault(fail: bool, noise: bool)

  const NO_FAULT := Fault(false, false)

  /** A request being served. */
  datatype Thread = Thread(request: Request, pc: Pc)

  function Reject(body: string): (pc: Pc)
    ensures pc.Done? && pc.response == Response(false, body) && pc.link == NotCalled
  {
    Done(Response(false, body), NotCalled)
  }

  function LinkFailed(speed: bool): (pc: Pc)
    ensures pc.Done? && !pc.response.res && pc.link == Failed
  {
    Done(Response(false, if speed then "speed upload link failed" else "link failed"), Failed)
  }

  function LinkDone(speed: bool): (pc: Pc)
    ensures pc.Done? && pc.response.res && pc.link == Linked
  {
    Done(Response(true, if speed then "file already in server, speed" else "success"), Linked)
  }

  /** The staged file a request is about. */
  predicate Staged(s: Server, r: Request) {
    PlaceOf(r) in s.staging && PartOf(r) in s.staging[PlaceOf(r)]
  }

  function Content(s: Server, r: Request): Str
    requires Staged(s, r)
  {
    s.staging[PlaceOf(r)][PartOf(r)]
  }

  /** Md5Sum: without a file the command prints nothing. */
  function Md5Sum(h: Hash, s: Server, r: Request): Str {
    if Staged(s, r) then h(Content(s, r)) else []
  }

  function SetStage(s: Server, p: Place, m: map<Str, Str>): Server {
    s.(staging := s.staging[p := m])
  }

  function WritePart(s: Server, r: Request): Server
    requires PlaceOf(r) in s.staging
  {
    SetStage(s, PlaceOf(r), s.staging[PlaceOf(r)][PartOf(r) := Stored(r.body, if Staged(s, r) then Content(s, r) else [])])
  }

  function DeletePart(s: Server, r: Request): Server {
    if Staged(s, r) then SetStage(s, PlaceOf(r), s.staging[PlaceOf(r)] - {PartOf(r)}) else s
  }

  /** LsDir and size(): no entries if the directory cannot be opened. */
  function Arrived(s: Server, r: Request): nat {
    if PlaceOf(r) in s.staging then |set name | name in s.staging[PlaceOf(r)] && Visible(name)| else 0
  }

  /** files_dir/sign is there and has entries. */
  predicate Occupied(published: map<Str, map<Str, Str>>, sign: Str) {
    sign in published && published[sign] != map[]
  }

  /** `mv` into files_dir: nothing happens if the source is not there or the target is; an empty target is replaced. */
  function Publish(s: Server, r: Request): Server {
    if PlaceOf(r) in s.staging && !Occupied(s.published, r.fileSign) then
      s.(published := s.published[r.fileSign := s.staging[PlaceOf(r)]], staging := s.staging - {PlaceOf(r)})
    else s
  }

  function InsertRow(s: Server, r: Request): Server {
    s.(rows := s.rows[r.fileSign := Row(r.fileName, 1)])
  }

  /** An UPDATE that matches no row succeeds too. */
  function IncrementRow(s: Server, r: Request): Server {
    if r.fileSign in s.rows then
      s.(rows := s.rows[r.fileSign := s.rows[r.fileSign].(reference := s.rows[r.fileSign].reference + 1)])
    else s
  }

  function AddLink(s: Server, r: Request): Server { s.(links := s.links + {PlaceOf(r)}) }

  /** One call of a request. */
  function Step(h: Hash, s: Server, t: Thread, f: Fault): (Server, Thread) {
    var r := t.request;
    match t.pc
    case MkFiles =>
      if f.fail || r.usr !in s.homes then (s, t.(pc := Reject("create usr files dir failed")))
      else (s.(filesDirs := s.filesDirs + {r.usr}), t.(pc := CheckPublished))
    case CheckPublished =>
      (s, t.(pc := if !f.fail && r.fileSign in s.published then Link(true) else MkUsr))
    case MkUsr =>
      if f.fail then (s, t.(pc := Reject("create usr dir or usr file dir failed")))
      else (s.(homes := s.homes + {r.usr}), t.(pc := MkTmp))
    case MkTmp =>
      if f.fail || r.usr !in s.homes then (s, t.(pc := Reject("create usr dir or usr file dir failed")))
      else (s.(tmpDirs := s.tmpDirs + {r.usr}), t.(pc := MkStage))
    case MkStage =>
      if f.fail || r.usr !in s.tmpDirs then (s, t.(pc := Reject("create usr dir or usr file dir failed")))
      else (if PlaceOf(r) in s.staging then s else SetStage(s, PlaceOf(r), map[]), t.(pc := CheckPart))
    case CheckPart =>
      (s, t.(pc := if !f.fail && Staged(s, r) then SumOld else Write))
    case SumOld =>
      if f.fail then (s, t.(pc := Reject("cal md5 failed")))
      else (s, t.(pc := if Md5Sum(h, s, r) == r.partSign then Write else Delete))
    case Delete =>
      (if f.fail then s else DeletePart(s, r), t.(pc := Write))
    case Write =>
      if f.fail || PlaceOf(r) !in s.staging then (s, t.(pc := Reject("write file failed")))
      else (WritePart(s, r), t.(pc := SumNew))
    case SumNew =>
      if f.fail then (s, t.(pc := Reject("cal md5 failed")))
      else (s, t.(pc := if Md5Sum(h, s, r) == r.partSign then List else Reject("part sign check error")))
    case List =>
      var arrived := if f.fail then 0 else Arrived(s, r);
      (s, t.(pc := if AsSize(r.shard) == arrived then Move else Done(Response(true, "success"), NotCalled)))
    case Move =>
      (if f.fail then s else Publish(s, r), t.(pc := if f.noise then Reject("mv failed") else Link(false)))
    case Link(speed) =>
      if f.fail || r.usr !in s.filesDirs then (s, t.(pc := LinkFailed(speed)))
      else (AddLink(s, r), t.(pc := Select(speed)))
    case Select(speed) =>
      if f.fail then (s, t.(pc := LinkFailed(speed)))
      else (s, t.(pc := if r.fileSign in s.rows then Update(speed) else Insert(speed)))
    case Insert(speed) =>
      if f.fail || r.fileSign in s.rows then (s, t.(pc := LinkFailed(speed)))
      else (InsertRow(s, r), t.(pc := LinkDone(speed)))
    case Update(speed) =>
      if f.fail then (s, t.(pc := LinkFailed(speed)))
      else (IncrementRow(s, r), t.(pc := LinkDone(speed)))
    case Done(_, _) => (s, t)
  }

  /** Calls still to come, at most. */
  function Rank(pc: Pc): nat {
    match pc
    case MkFiles => 16 case CheckPublished => 15
    case MkUsr => 14 case MkTmp => 13 case MkStage => 12
    case CheckPart => 11 case SumOld => 10 case Delete => 9
    case Write => 8 case SumNew => 7 case List => 6 case Move => 5
    case Link(_) => 4 case Select(_) => 3 case Insert(_) => 2 case Update(_) => 1
    case Done(_, _) => 0
  }

  lemma StepDescends(h: Hash, s: Server, t: Thread, f: Fault)
    ensures t.pc.Done? || Rank(Step(h, s, t, f).1.pc) < Rank(t.pc)
    ensures Step(h, s, t, f).1.request == t.request
  {
    hide Md5Sum, AsSize, Arrived, WritePart, DeletePart, Publish, IncrementRow, InsertRow, SetStage, AddLink, Staged,
         Reject, LinkFailed, LinkDone;
  }

  /** Only four calls touch what is staged or published. */
  lemma StepEffect(h: Hash, s: Server, t: Thread, f: Fault)
    ensures
      var s', r := Step(h, s, t, f).0, t.request;
      match t.pc
      case MkStage => s' == s || (PlaceOf(r) !in s.staging && s' == SetStage(s, PlaceOf(r), map[]))
      case Delete => s' == s || s' == DeletePart(s, r)
      case Write => s' == s || (PlaceOf(r) in s.staging && s' == WritePart(s, r))
      case Move => s' == s || s' == Publish(s, r)
      case _ => s'.staging == s.staging && s'.published == s.published
  {
    hide Md5Sum, AsSize, Arrived, WritePart, DeletePart, Publish, Reject, LinkFailed, LinkDone;
  }

  // Concurrent runs.

  /** All requests that ever arrived, in order of arrival; those that are not done may be interrupted for good. */
  datatype System = System(server: Server, threads: seq<Thread>)

  /** A user registers, a request arrives, or the i-th request makes its next call. */
  datatype Action = Register(usr: Str) | Arrive(request: Request) | Act(i: nat, fault: Fault)

  function Perform(h: Hash, y: System, a: Action): System {
    match a
    case Register(usr) => y.(server := y.server.(homes := y.server.homes + {usr}))
    case Arrive(r) => y.(threads := y.threads + [Thread(r, MkFiles)])
    case Act(i, f) =>
      if i < |y.threads| then
        var (s, t) := Step(h, y.server, y.threads[i], f);
        System(s, y.threads[i := t])
      else y
  }

  function Run(h: Hash, y: System, actions: seq<Action>): System
    decreases |actions|
  {
    if actions == [] then y else Run(h, Perform(h, y, actions[0]), actions[1..])
  }

  const START := System(Server({}, {}, {}, map[], map[], {}, map[]), [])

  // Sequential runs: one request at a time, with a fault for each of its calls.

  function Serve(h: Hash, s: Server, t: Thread, faults: Pc -> Fault): (r: (Server, Thread))
    ensures r.1.pc.Done? && r.1.request == t.request
    decreases Rank(t.pc)
  {
    if t.pc.Done? then (s, t)
    else
      StepDescends(h, s, t, faults(t.pc));
      var (s', t') := Step(h, s, t, faults(t.pc));
      Serve(h, s', t', faults)
  }

  function NoFaults(pc: Pc): Fault { NO_FAULT }
}
