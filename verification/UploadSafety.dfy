/** Safety of publication: in every interleaving of honest requests, a published directory is the named file. */
module UploadSafety {
  import opened Parts
  import opened UploadSteps

  /** Which content each signature of the run stands for; that this is a function is the absence of collisions. */
  type Catalogue = map<Str, Str>

  /** Signatures are those of their contents, contents have no NUL and fewer than 2^31 bytes. */
  ghost predicate Sound(h: Hash, cat: Catalogue) {
    forall s :: s in cat ==> h(cat[s]) == s && NulFree(cat[s]) && |cat[s]| < 0x8000_0000
  }

  /** The request the client sends for one part of a file in the catalogue. */
  ghost predicate Honest(h: Hash, cat: Catalogue, r: Request) {
    r.fileSign in cat &&
    var c := cat[r.fileSign];
    r.shard == PartCount(c) && r.partIndex < r.shard && r.body == Slice(c, r.partIndex) && r.partSign == h(r.body)
  }

  ghost predicate HonestAction(h: Hash, cat: Catalogue, a: Action) {
    a.Arrive? ==> Honest(h, cat, a.request)
  }

  /** Staged parts are parts of the named file. */
  ghost predicate StagingOk(cat: Catalogue, s: Server) {
    forall p :: p in s.staging ==> p.sign in cat && PartsOf(s.staging[p], cat[p.sign])
  }

  /** Published directories are whole files. */
  ghost predicate PublishedOk(cat: Catalogue, s: Server) {
    forall sign :: sign in s.published ==> sign in cat && s.published[sign] == AllParts(cat[sign])
  }

  /** What a request relies on between two of its calls, until its signature is published: the old part it has found
      is still there, it never deletes, and the directory it is about to move is complete. */
  ghost predicate ThreadOk(cat: Catalogue, s: Server, t: Thread) {
    var r := t.request;
    r.fileSign in cat &&
    (r.fileSign in s.published ||
     (!t.pc.Delete? &&
      (t.pc.SumOld? ==> Staged(s, r)) &&
      (t.pc.Move? ==> PlaceOf(r) in s.staging && s.staging[PlaceOf(r)] == AllParts(cat[r.fileSign]))))
  }

  ghost predicate Safe(h: Hash, cat: Catalogue, y: System) {
    StagingOk(cat, y.server) && PublishedOk(cat, y.server) &&
    forall i | 0 <= i < |y.threads| :: Honest(h, cat, y.threads[i].request) && ThreadOk(cat, y.server, y.threads[i])
  }

  // One step of an honest request.

  /** An honest part is stored exactly, on a new file or over the copy that is there. */
  lemma HonestWrite(h: Hash, cat: Catalogue, s: Server, r: Request)
    requires Sound(h, cat) && Honest(h, cat, r) && StagingOk(cat, s) && PlaceOf(r) in s.staging
    ensures WritePart(s, r) == SetStage(s, PlaceOf(r), s.staging[PlaceOf(r)][PartOf(r) := r.body])
    ensures StagingOk(cat, WritePart(s, r))
    ensures Staged(s, r) ==> Content(s, r) == r.body
  {
    var c, m := cat[r.fileSign], s.staging[PlaceOf(r)];
    assert PartsOf(m, c);
    SliceOfNulFree(c, r.partIndex);
    StoredExactly(r.body);
    if Staged(s, r) {
      assert m[Decimal(r.partIndex)] == Slice(c, r.partIndex);
    }
    AddPart(m, c, r.partIndex);
  }

  /** Counting the entries tells an honest request whether the staged directory is complete. */
  lemma HonestCount(h: Hash, cat: Catalogue, s: Server, r: Request)
    requires Sound(h, cat) && Honest(h, cat, r) && StagingOk(cat, s)
    ensures AsSize(r.shard) > 0
    ensures AsSize(r.shard) == Arrived(s, r) <==>
      PlaceOf(r) in s.staging && s.staging[PlaceOf(r)] == AllParts(cat[r.fileSign])
  {
    var c := cat[r.fileSign];
    assert AsSize(r.shard) == PartCount(c) > 0;
    if PlaceOf(r) in s.staging {
      AllVisible(s.staging[PlaceOf(r)], PartCount(c));
      CompleteParts(s.staging[PlaceOf(r)], c);
    }
  }

  /** What other requests may rely on when a step takes s to s'. */
  ghost predicate Undisturbed(s: Server, s': Server) {
    (forall sign :: sign in s.published ==> sign in s'.published) &&
    (forall p :: p in s.staging && p.sign !in s'.published ==>
      p in s'.staging && s.staging[p].Keys <= s'.staging[p].Keys)
  }

  ghost predicate Good(cat: Catalogue, s: Server) { StagingOk(cat, s) && PublishedOk(cat, s) }

  lemma NewStage(cat: Catalogue, s: Server, r: Request)
    requires Good(cat, s) && r.fileSign in cat && PlaceOf(r) !in s.staging
    ensures Good(cat, SetStage(s, PlaceOf(r), map[])) && Undisturbed(s, SetStage(s, PlaceOf(r), map[]))
  {
    assert PartsOf(map[], cat[r.fileSign]);
    hide PartsOf, AllParts;
  }

  lemma DeleteKeeps(cat: Catalogue, s: Server, r: Request)
    requires Good(cat, s) && r.fileSign in s.published
    ensures Good(cat, DeletePart(s, r)) && Undisturbed(s, DeletePart(s, r))
  {
    hide AllParts, Names;
    if Staged(s, r) {
      var m := s.staging[PlaceOf(r)];
      assert PartsOf(m, cat[r.fileSign]);
      assert PartsOf(m - {PartOf(r)}, cat[r.fileSign]);
    }
  }

  lemma WriteKeeps(h: Hash, cat: Catalogue, s: Server, r: Request)
    requires Good(cat, s) && Sound(h, cat) && Honest(h, cat, r) && PlaceOf(r) in s.staging
    ensures Good(cat, WritePart(s, r)) && Undisturbed(s, WritePart(s, r))
  {
    hide PartsOf, AllParts, Honest, Sound, StagingOk;
    HonestWrite(h, cat, s, r);
  }

  lemma PublishKeeps(cat: Catalogue, s: Server, r: Request)
    requires Good(cat, s) && r.fileSign in cat
    requires r.fileSign !in s.published ==> PlaceOf(r) in s.staging && s.staging[PlaceOf(r)] == AllParts(cat[r.fileSign])
    ensures Good(cat, Publish(s, r)) && Undisturbed(s, Publish(s, r))
  {
    hide PartsOf, AllParts;
    AllPartsKeys(cat[r.fileSign]);
  }

  lemma StepKeepsServer(h: Hash, cat: Catalogue, s: Server, t: Thread, f: Fault)
    requires Sound(h, cat) && Good(cat, s)
    requires Honest(h, cat, t.request) && ThreadOk(cat, s, t)
    ensures
      var s' := Step(h, s, t, f).0;
      Good(cat, s') && Undisturbed(s, s')
  {
    hide PartsOf, AllParts, Step, SetStage, DeletePart, WritePart, Publish, Staged;
    var r := t.request;
    assert r.fileSign in cat;
    StepEffect(h, s, t, f);
    match t.pc {
      case MkStage =>
        if PlaceOf(r) !in s.staging {
          NewStage(cat, s, r);
        }
      case Write =>
        if PlaceOf(r) in s.staging {
          WriteKeeps(h, cat, s, r);
        }
      case Delete =>
        DeleteKeeps(cat, s, r);
      case Move =>
        PublishKeeps(cat, s, r);
      case _ =>
    }
  }

  /** The request itself may rely on what ThreadOk says after its step. */
  lemma StepKeepsThread(h: Hash, cat: Catalogue, s: Server, t: Thread, f: Fault)
    requires Sound(h, cat) && Good(cat, s)
    requires Honest(h, cat, t.request) && ThreadOk(cat, s, t)
    ensures ThreadOk(cat, Step(h, s, t, f).0, Step(h, s, t, f).1)
  {
    hide PartsOf, AllParts, Md5Sum, AsSize, Arrived, DeletePart, Publish, WritePart;
    var r := t.request;
    StepKeepsServer(h, cat, s, t, f);
    match t.pc {
      case SumOld =>
        if Staged(s, r) {
          HonestSum(h, cat, s, r);
        }
      case List =>
        HonestCount(h, cat, s, r);
      case _ =>
    }
  }

  lemma HonestSum(h: Hash, cat: Catalogue, s: Server, r: Request)
    requires Sound(h, cat) && Honest(h, cat, r) && StagingOk(cat, s) && Staged(s, r)
    ensures Md5Sum(h, s, r) == r.partSign
  {
    HonestWrite(h, cat, s, r);
  }

  /** A step of one request takes nothing from under another. */
  lemma OthersKeep(h: Hash, cat: Catalogue, s: Server, s': Server, t: Thread)
    requires Sound(h, cat) && Good(cat, s) && Good(cat, s') && Undisturbed(s, s')
    requires ThreadOk(cat, s, t)
    ensures ThreadOk(cat, s', t)
  {
    hide AllParts;
    var r := t.request;
    if r.fileSign !in s'.published && t.pc.Move? {
      var m, m', c := s.staging[PlaceOf(r)], s'.staging[PlaceOf(r)], cat[r.fileSign];
      assert PartsOf(m', c) && PartsOf(m, c);
      StillComplete(m, m', c);
    }
  }

  lemma StillComplete(m: map<Str, Str>, m': map<Str, Str>, c: Str)
    requires PartsOf(m, c) && PartsOf(m', c) && m == AllParts(c) && m.Keys <= m'.Keys
    ensures m' == AllParts(c)
  {
    CompleteParts(m, c);
    CompleteParts(m', c);
    SubsetCount(m.Keys, m'.Keys);
    assert |m| == |m.Keys| && |m'| == |m'.Keys|;
  }

  lemma PerformKeepsSafe(h: Hash, cat: Catalogue, y: System, a: Action)
    requires Sound(h, cat) && Safe(h, cat, y) && HonestAction(h, cat, a)
    ensures Safe(h, cat, Perform(h, y, a))
  {
    hide Honest, Sound, StagingOk, PublishedOk, Undisturbed, ThreadOk, Step;
    var y' := Perform(h, y, a);
    match a {
      case Register(usr) =>
        HomesDoNotMatter(cat, y.server, y'.server);
        forall i | 0 <= i < |y.threads| ensures ThreadOk(cat, y'.server, y'.threads[i]) {
          SameFilesThread(cat, y.server, y'.server, y.threads[i]);
        }
      case Arrive(r) =>
        NewThread(h, cat, y.server, r);
      case Act(i, f) =>
        if i < |y.threads| {
          var t := y.threads[i];
          StepDescends(h, y.server, t, f);
          StepKeepsServer(h, cat, y.server, t, f);
          StepKeepsThread(h, cat, y.server, t, f);
          forall j | 0 <= j < |y.threads| && j != i ensures ThreadOk(cat, y'.server, y'.threads[j]) {
            OthersKeep(h, cat, y.server, y'.server, y.threads[j]);
          }
        }
    }
  }

  lemma HomesDoNotMatter(cat: Catalogue, s: Server, s': Server)
    requires s.staging == s'.staging && s.published == s'.published
    ensures StagingOk(cat, s) ==> StagingOk(cat, s')
    ensures PublishedOk(cat, s) ==> PublishedOk(cat, s')
  {
  }

  lemma SameFilesThread(cat: Catalogue, s: Server, s': Server, t: Thread)
    requires s.staging == s'.staging && s.published == s'.published && ThreadOk(cat, s, t)
    ensures ThreadOk(cat, s', t)
  {
  }

  lemma NewThread(h: Hash, cat: Catalogue, s: Server, r: Request)
    requires Honest(h, cat, r)
    ensures ThreadOk(cat, s, Thread(r, MkFiles))
  {
  }

  /** The invariant holds in every interleaving of honest requests, with any faults, retries and interruptions. */
  lemma {:induction false} RunIsSafe(h: Hash, cat: Catalogue, y: System, actions: seq<Action>)
    requires Sound(h, cat) && Safe(h, cat, y)
    requires forall a :: a in actions ==> HonestAction(h, cat, a)
    ensures Safe(h, cat, Run(h, y, actions))
    decreases |actions|
  {
    hide Safe, HonestAction, Perform, Sound;
    if actions == [] {
    } else {
      assert actions[0] in actions;
      PerformKeepsSafe(h, cat, y, actions[0]);
      RunIsSafe(h, cat, Perform(h, y, actions[0]), actions[1..]);
    }
  }

  /** In every such run from the empty server, whatever is published is exactly the parts 0 to shard - 1, and put
      together in index order they are the content whose signature the directory bears. */
  lemma PublishedIsTheFile(h: Hash, cat: Catalogue, actions: seq<Action>, sign: Str)
    requires Sound(h, cat) && forall a :: a in actions ==> HonestAction(h, cat, a)
    requires sign in Run(h, START, actions).server.published
    ensures sign in cat && h(cat[sign]) == sign
    ensures
      var m, n := Run(h, START, actions).server.published[sign], PartCount(cat[sign]);
      m != map[] && m.Keys == Names(n) && HasAll(m, n) && Assemble(m, n) == cat[sign] && HoldsFile(m, cat[sign])
  {
    hide AllParts, Run;
    RunIsSafe(h, cat, START, actions);
    var c := cat[sign];
    AssembleAll(c);
    AllPartsKeys(c);
    AllPartsHoldFile(c);
  }

  lemma AllPartsKeys(c: Str)
    ensures AllParts(c).Keys == Names(PartCount(c)) && HasAll(AllParts(c), PartCount(c)) && AllParts(c) != map[]
  {
    PartsBelowAt(c, PartCount(c));
    NameBelow(PartCount(c), 0);
    assert Decimal(0) in AllParts(c);
  }

  // What is published stays, whoever sends what.

  /** The directory is there afterwards, and the same unless it was empty. */
  ghost predicate Stays(s: Server, s': Server, sign: Str)
    requires sign in s.published
  {
    sign in s'.published && (s'.published[sign] == s.published[sign] || s.published[sign] == map[])
  }

  lemma PerformKeepsPublished(h: Hash, y: System, a: Action, sign: Str)
    requires sign in y.server.published
    ensures Stays(y.server, Perform(h, y, a).server, sign)
  {
    hide Md5Sum, AsSize, Arrived, Step;
    if a.Act? && a.i < |y.threads| {
      StepEffect(h, y.server, y.threads[a.i], a.fault);
    }
  }

  /** In every run, honest or not, a published directory is there for good, and if it is not empty it never changes. */
  lemma {:induction false} PublishedForever(h: Hash, y: System, actions: seq<Action>, sign: Str)
    requires sign in y.server.published
    ensures Stays(y.server, Run(h, y, actions).server, sign)
    decreases |actions|
  {
    hide Perform;
    if actions == [] {
    } else {
      PerformKeepsPublished(h, y, actions[0], sign);
      PublishedForever(h, Perform(h, y, actions[0]), actions[1..], sign);
    }
  }

  // Counting entries, for requests that agree on the number of parts and on nothing else.

  ghost predicate IndicesBelow(a: Action, p: Place, n: nat) {
    a.Arrive? && PlaceOf(a.request) == p ==> a.request.partIndex < n
  }

  ghost predicate NamesBelow(y: System, p: Place, n: nat) {
    (p in y.server.staging ==> y.server.staging[p].Keys <= Names(n)) &&
    forall i | 0 <= i < |y.threads| :: PlaceOf(y.threads[i].request) == p ==> y.threads[i].request.partIndex < n
  }

  lemma PerformKeepsNames(h: Hash, y: System, a: Action, p: Place, n: nat)
    requires NamesBelow(y, p, n) && IndicesBelow(a, p, n)
    ensures NamesBelow(Perform(h, y, a), p, n)
  {
    hide Step, Decimal, Stored;
    if a.Act? && a.i < |y.threads| {
      var t := y.threads[a.i];
      StepEffect(h, y.server, t, a.fault);
      StepDescends(h, y.server, t, a.fault);
      NameBelow(n, t.request.partIndex);
    }
  }

  lemma {:induction false} RunKeepsNames(h: Hash, y: System, actions: seq<Action>, p: Place, n: nat)
    requires NamesBelow(y, p, n) && forall a :: a in actions ==> IndicesBelow(a, p, n)
    ensures NamesBelow(Run(h, y, actions), p, n)
    decreases |actions|
  {
    hide NamesBelow, IndicesBelow, Perform;
    if actions == [] {
    } else {
      assert actions[0] in actions;
      PerformKeepsNames(h, y, actions[0], p, n);
      RunKeepsNames(h, Perform(h, y, actions[0]), actions[1..], p, n);
    }
  }

  /** In every run, honest or not, whose requests for a place use indices below n: the place has n visible entries
      exactly when the part of every index below n is there. */
  lemma CountMeansComplete(h: Hash, actions: seq<Action>, r: Request, n: nat)
    requires n > 0 && forall a :: a in actions ==> IndicesBelow(a, PlaceOf(r), n)
    ensures
      var s, p := Run(h, START, actions).server, PlaceOf(r);
      Arrived(s, r) == n <==> p in s.staging && HasAll(s.staging[p], n)
  {
    hide Run, HasAll;
    RunKeepsNames(h, START, actions, PlaceOf(r), n);
    var s, p := Run(h, START, actions).server, PlaceOf(r);
    if p in s.staging {
      AllVisible(s.staging[p], n);
      CountDecides(s.staging[p], n);
    }
  }
}
