/** Concurrent uploads that come to an end: when all requests for the parts of a file have been answered, in whatever
    order their calls were made, the file is published and its user is linked. */
module UploadCompletion {
  import opened Parts
  import opened UploadSteps
  import opened UploadLinks
  import opened UploadSafety

  predicate Of(t: Thread, p: Place) { PlaceOf(t.request) == p }

  /** Published, and linked for the user of p. */
  ghost predicate Finished(s: Server, p: Place) { p.sign in s.published && p in s.links }

  /** A request for p that will publish and link, or that has only to link. */
  predicate Finishing(s: Server, t: Thread, p: Place) {
    Of(t, p) && p.usr in s.filesDirs && (t.pc.Move? || (t.pc.Link? && p.sign in s.published))
  }

  /** What a request has achieved before it finishes: behind Write its part is staged. */
  predicate OnItsWay(s: Server, t: Thread) {
    (!t.pc.MkFiles? && !t.pc.Done? ==> t.request.usr in s.filesDirs) &&
    match t.pc
    case MkFiles => true case CheckPublished => true case MkUsr => true case MkTmp => true
    case MkStage => t.request.usr in s.tmpDirs
    case CheckPart => PlaceOf(t.request) in s.staging
    case Write => PlaceOf(t.request) in s.staging
    case SumOld => Staged(s, t.request)
    case SumNew => Staged(s, t.request)
    case List => Staged(s, t.request)
    case Done(_, _) => Staged(s, t.request)
    case _ => false
  }

  predicate Complete(s: Server, p: Place, n: nat) { p in s.staging && |s.staging[p]| == n }

  predicate AboutToCount(t: Thread) { t.pc.SumNew? || t.pc.List? }

  /** All requests for p are on their way, and if all parts are staged, one of them is going to see it. */
  ghost predicate Uploading(y: System, p: Place, n: nat) {
    (forall i | 0 <= i < |y.threads| :: Of(y.threads[i], p) ==> OnItsWay(y.server, y.threads[i])) &&
    (Complete(y.server, p, n) && (exists i :: 0 <= i < |y.threads| && Of(y.threads[i], p) && y.threads[i].pc.Done?) ==>
      exists i :: 0 <= i < |y.threads| && Of(y.threads[i], p) && AboutToCount(y.threads[i]))
  }

  ghost predicate SomeFinishing(y: System, p: Place) {
    exists i :: 0 <= i < |y.threads| && Finishing(y.server, y.threads[i], p)
  }

  ghost predicate Progressing(y: System, p: Place, n: nat) {
    p.usr in y.server.homes && (Finished(y.server, p) || SomeFinishing(y, p) || Uploading(y, p, n))
  }

  // What a step leaves to the other requests.

  /** Directories, links and published files are not taken away. */
  ghost predicate Grows(s: Server, s': Server) {
    s.homes <= s'.homes && s.filesDirs <= s'.filesDirs && s.tmpDirs <= s'.tmpDirs && s.links <= s'.links &&
    s.published.Keys <= s'.published.Keys
  }

  ghost predicate StageGrows(s: Server, s': Server, p: Place) {
    p in s.staging ==> p in s'.staging && s.staging[p].Keys <= s'.staging[p].Keys
  }

  predicate SameStage(s: Server, s': Server, p: Place) {
    if p in s.staging then p in s'.staging && s'.staging[p] == s.staging[p] else p !in s'.staging
  }

  lemma FilesOnlyStaged(s: Server, r: Request)
    ensures
      var d, p := DeletePart(s, r), Publish(s, r);
      d.(staging := s.staging) == s && p.(staging := s.staging, published := s.published) == s &&
      s.published.Keys <= p.published.Keys
    ensures PlaceOf(r) in s.staging ==> WritePart(s, r).(staging := s.staging) == s
  {
    hide Stored, Decimal;
  }

  predicate DirsOf(s: Server, s': Server) {
    s'.homes == s.homes && s'.filesDirs == s.filesDirs && s'.tmpDirs == s.tmpDirs
  }

  lemma SameDirs(s: Server, r: Request)
    ensures DirsOf(s, DeletePart(s, r)) && DirsOf(s, Publish(s, r)) && DirsOf(s, SetStage(s, PlaceOf(r), map[]))
    ensures PlaceOf(r) in s.staging ==> DirsOf(s, WritePart(s, r))
    ensures DirsOf(s, AddLink(s, r)) && DirsOf(s, InsertRow(s, r)) && DirsOf(s, IncrementRow(s, r))
  {
    hide Stored, Decimal;
  }

  lemma StepDirs(h: Hash, s: Server, t: Thread, f: Fault)
    ensures
      var s' := Step(h, s, t, f).0;
      s.homes <= s'.homes && s.filesDirs <= s'.filesDirs && s.tmpDirs <= s'.tmpDirs
  {
    hide Md5Sum, AsSize, Arrived, WritePart, DeletePart, Publish, SetStage, AddLink, InsertRow, IncrementRow,
         Reject, LinkFailed, LinkDone, Staged;
    SameDirs(s, t.request);
  }

  lemma StepGrows(h: Hash, s: Server, t: Thread, f: Fault)
    ensures Grows(s, Step(h, s, t, f).0)
  {
    hide Step, DeletePart, WritePart, Publish;
    FilesOnlyStaged(s, t.request);
    StepDirs(h, s, t, f);
    StepLinks(h, s, t, f, PlaceOf(t.request));
    StepEffect(h, s, t, f);
  }

  lemma StepElsewhere(h: Hash, s: Server, t: Thread, f: Fault, p: Place)
    requires !Of(t, p)
    ensures SameStage(s, Step(h, s, t, f).0, p)
  {
    hide Step, Stored, Decimal;
    StepEffect(h, s, t, f);
  }

  lemma StillOnItsWay(s: Server, s': Server, t: Thread, p: Place)
    requires Of(t, p) && OnItsWay(s, t) && Grows(s, s') && StageGrows(s, s', p)
    ensures OnItsWay(s', t)
  {
    hide Decimal;
  }

  // A step of a request for p.

  /** Making the place does not complete it, and only Write adds to it. */
  lemma OwnStage(h: Hash, cat: Catalogue, s: Server, t: Thread, p: Place)
    requires Sound(h, cat) && Good(cat, s) && Honest(h, cat, t.request) && OnItsWay(s, t) && Of(t, p)
    ensures
      var (s', t') := Step(h, s, t, NO_FAULT);
      StageGrows(s, s', p) && (t.pc.Write? || t.pc.MkStage? || SameStage(s, s', p)) &&
      (t.pc.MkStage? ==> SameStage(s, s', p) || (p in s'.staging && s'.staging[p] == map[]))
  {
    hide Step, Stored, Decimal, AllParts, PartsOf;
    StepEffect(h, s, t, NO_FAULT);
  }

  /** A request on its way stays on it or is going to finish; it ends only when it has counted and parts are missing. */
  lemma OwnStep(h: Hash, cat: Catalogue, s: Server, t: Thread, p: Place)
    requires Sound(h, cat) && Good(cat, s) && Honest(h, cat, t.request)
    requires OnItsWay(s, t) && Of(t, p) && p.usr in s.homes && !t.pc.Done?
    ensures
      var (s', t') := Step(h, s, t, NO_FAULT);
      Finishing(s', t', p) ||
      (OnItsWay(s', t') && (t.pc.Write? ==> t'.pc.SumNew?) && (t.pc.SumNew? ==> t'.pc.List?) &&
       (t.pc.List? ==> !Complete(s', p, PartCount(cat[p.sign]))) && (t'.pc.Done? ==> t.pc.List?))
  {
    hide Sound, Honest, StagingOk, PublishedOk, Md5Sum, AsSize, Arrived, WritePart, DeletePart, Publish, Decimal,
         AllParts, PartsOf;
    var r := t.request;
    match t.pc {
      case SumOld =>
        HonestSum(h, cat, s, r);
      case Write =>
        HonestWrite(h, cat, s, r);
        StagedAfterWrite(s, r);
      case SumNew =>
        HonestSum(h, cat, s, r);
      case List =>
        HonestCount(h, cat, s, r);
        CountOfParts(h, cat, s, r);
      case _ =>
    }
  }

  lemma StagedAfterWrite(s: Server, r: Request)
    requires PlaceOf(r) in s.staging
    ensures Staged(WritePart(s, r), r) && WritePart(s, r).filesDirs == s.filesDirs
  {
    hide Stored, Decimal;
  }

  lemma CountOfParts(h: Hash, cat: Catalogue, s: Server, r: Request)
    requires Sound(h, cat) && Honest(h, cat, r) && StagingOk(cat, s) && PlaceOf(r) in s.staging
    ensures Complete(s, PlaceOf(r), PartCount(cat[r.fileSign])) <==> s.staging[PlaceOf(r)] == AllParts(cat[r.fileSign])
  {
    hide AllParts;
    CompleteParts(s.staging[PlaceOf(r)], cat[r.fileSign]);
  }

  /** A request that is finishing does so. */
  lemma FinishingStep(h: Hash, cat: Catalogue, s: Server, t: Thread, p: Place)
    requires Good(cat, s) && ThreadOk(cat, s, t) && Finishing(s, t, p)
    ensures
      var (s', t') := Step(h, s, t, NO_FAULT);
      Finished(s', p) || Finishing(s', t', p)
  {
    hide StagingOk, PublishedOk, AllParts;
  }

  // Every step of the system.

  /** A request for p that is still uploading makes a step. */
  lemma UploadingStep(h: Hash, cat: Catalogue, y: System, i: nat, p: Place)
    requires Sound(h, cat) && Safe(h, cat, y) && p.sign in cat && p.usr in y.server.homes
    requires Uploading(y, p, PartCount(cat[p.sign])) && i < |y.threads| && Of(y.threads[i], p)
    ensures Progressing(Perform(h, y, Act(i, NO_FAULT)), p, PartCount(cat[p.sign]))
  {
    hide Step, Sound, Honest, StagingOk, PublishedOk, ThreadOk, OnItsWay, StageGrows, Finishing, SameStage, Complete;
    var n, t, y' := PartCount(cat[p.sign]), y.threads[i], Perform(h, y, Act(i, NO_FAULT));
    var s, s', t' := y.server, y'.server, y'.threads[i];
    StepDescends(h, s, t, NO_FAULT);
    if t.pc.Done? {
      DoneStays(h, s, t, NO_FAULT);
      assert y'.threads == y.threads;
      return;
    }
    OwnStep(h, cat, s, t, p);
    OwnStage(h, cat, s, t, p);
    StepGrows(h, s, t, NO_FAULT);
    if Finishing(s', t', p) {
      return;
    }
    forall j | 0 <= j < |y'.threads| && Of(y'.threads[j], p) ensures OnItsWay(s', y'.threads[j]) {
      if j != i {
        StillOnItsWay(s, s', y.threads[j], p);
      }
    }
    if Complete(s', p, n) && exists j :: 0 <= j < |y'.threads| && Of(y'.threads[j], p) && y'.threads[j].pc.Done? {
      var j :| 0 <= j < |y'.threads| && Of(y'.threads[j], p) && y'.threads[j].pc.Done?;
      if AboutToCount(t') {
        assert Of(y'.threads[i], p);
      } else {
        CompleteBefore(s, s', p, n, t.pc.MkStage?);
        assert y.threads[j].pc.Done?;
        var k :| 0 <= k < |y.threads| && Of(y.threads[k], p) && AboutToCount(y.threads[k]);
        assert y'.threads[k] == y.threads[k];
      }
    }
  }

  lemma CompleteBefore(s: Server, s': Server, p: Place, n: nat, made: bool)
    requires SameStage(s, s', p) || (made && p in s'.staging && s'.staging[p] == map[])
    requires Complete(s', p, n) && n > 0
    ensures Complete(s, p, n)
  {
  }

  lemma DoneStays(h: Hash, s: Server, t: Thread, f: Fault)
    requires t.pc.Done?
    ensures Step(h, s, t, f) == (s, t)
  {
  }

  /** A request for another place makes a step, with or without a fault. */
  lemma OtherStep(h: Hash, y: System, i: nat, f: Fault, p: Place, n: nat)
    requires Uploading(y, p, n) && i < |y.threads| && !Of(y.threads[i], p) && p.usr in y.server.homes
    ensures Progressing(Perform(h, y, Act(i, f)), p, n)
  {
    hide Step, OnItsWay, Finishing;
    var t, y' := y.threads[i], Perform(h, y, Act(i, f));
    StepDescends(h, y.server, t, f);
    StepGrows(h, y.server, t, f);
    StepElsewhere(h, y.server, t, f, p);
    forall j | 0 <= j < |y'.threads| && Of(y'.threads[j], p) ensures OnItsWay(y'.server, y'.threads[j]) {
      StillOnItsWay(y.server, y'.server, y.threads[j], p);
    }
    if exists j :: 0 <= j < |y'.threads| && Of(y'.threads[j], p) && y'.threads[j].pc.Done? {
      var j :| 0 <= j < |y'.threads| && Of(y'.threads[j], p) && y'.threads[j].pc.Done?;
      assert y.threads[j].pc.Done?;
      if Complete(y.server, p, n) {
        var k :| 0 <= k < |y.threads| && Of(y.threads[k], p) && AboutToCount(y.threads[k]);
        assert y'.threads[k] == y.threads[k];
      }
    }
  }

  /** The fault of a call for p, if a is one, is no fault. */
  ghost predicate CalmAction(y: System, a: Action, p: Place) {
    a.Act? && a.i < |y.threads| && Of(y.threads[a.i], p) ==> a.fault == NO_FAULT
  }

  lemma ActProgresses(h: Hash, cat: Catalogue, y: System, i: nat, f: Fault, p: Place)
    requires Sound(h, cat) && Safe(h, cat, y) && p.sign in cat && i < |y.threads|
    requires CalmAction(y, Act(i, f), p) && Progressing(y, p, PartCount(cat[p.sign]))
    ensures Progressing(Perform(h, y, Act(i, f)), p, PartCount(cat[p.sign]))
  {
    hide Step, Sound, Honest, StagingOk, PublishedOk, ThreadOk, Uploading;
    var t, y' := y.threads[i], Perform(h, y, Act(i, f));
    StepGrows(h, y.server, t, f);
    if Finished(y.server, p) {
    } else if SomeFinishing(y, p) {
      var j :| 0 <= j < |y.threads| && Finishing(y.server, y.threads[j], p);
      if i == j {
        FinishingStep(h, cat, y.server, t, p);
        assert Finished(y'.server, p) || Finishing(y'.server, y'.threads[i], p);
      } else {
        assert Finishing(y'.server, y'.threads[j], p);
      }
    } else if Of(t, p) {
      UploadingStep(h, cat, y, i, p);
    } else {
      OtherStep(h, y, i, f, p, PartCount(cat[p.sign]));
    }
  }

  lemma RegisterProgresses(h: Hash, y: System, usr: Str, p: Place, n: nat)
    requires Progressing(y, p, n)
    ensures Progressing(Perform(h, y, Register(usr)), p, n)
  {
    hide Staged;
    var y' := Perform(h, y, Register(usr));
    if SomeFinishing(y, p) {
      var j :| 0 <= j < |y.threads| && Finishing(y.server, y.threads[j], p);
      assert Finishing(y'.server, y'.threads[j], p);
    } else if Uploading(y, p, n) {
      forall i | 0 <= i < |y.threads| && Of(y.threads[i], p) ensures OnItsWay(y'.server, y'.threads[i]) {
        StillOnItsWay(y.server, y'.server, y.threads[i], p);
      }
    }
  }

  lemma ArriveProgresses(h: Hash, y: System, r: Request, p: Place, n: nat)
    requires Progressing(y, p, n)
    ensures Progressing(Perform(h, y, Arrive(r)), p, n)
  {
    hide Staged, Complete;
    var y' := Perform(h, y, Arrive(r));
    assert forall i | 0 <= i < |y.threads| :: y'.threads[i] == y.threads[i];
    if SomeFinishing(y, p) {
      var j :| 0 <= j < |y.threads| && Finishing(y.server, y.threads[j], p);
      assert Finishing(y'.server, y'.threads[j], p);
    } else if Uploading(y, p, n) {
      if Complete(y'.server, p, n) && exists j :: 0 <= j < |y'.threads| && Of(y'.threads[j], p) && y'.threads[j].pc.Done? {
        var j :| 0 <= j < |y'.threads| && Of(y'.threads[j], p) && y'.threads[j].pc.Done?;
        assert y.threads[j].pc.Done?;
        var k :| 0 <= k < |y.threads| && Of(y.threads[k], p) && AboutToCount(y.threads[k]);
        assert y'.threads[k] == y.threads[k];
      }
    }
  }

  /** No call of a request for p fails in the run; others may. */
  ghost predicate CalmRun(h: Hash, y: System, actions: seq<Action>, p: Place)
    decreases |actions|
  {
    actions == [] || (CalmAction(y, actions[0], p) && CalmRun(h, Perform(h, y, actions[0]), actions[1..], p))
  }

  lemma {:induction false} RunProgresses(h: Hash, cat: Catalogue, y: System, actions: seq<Action>, p: Place)
    requires Sound(h, cat) && Safe(h, cat, y) && forall a :: a in actions ==> HonestAction(h, cat, a)
    requires p.sign in cat && CalmRun(h, y, actions, p) && Progressing(y, p, PartCount(cat[p.sign]))
    ensures Progressing(Run(h, y, actions), p, PartCount(cat[p.sign]))
    decreases |actions|
  {
    hide Sound, Safe, HonestAction, Progressing, Perform, CalmAction;
    if actions == [] {
    } else {
      var a := actions[0];
      assert a in actions;
      PerformKeepsSafe(h, cat, y, a);
      match a {
        case Register(usr) => RegisterProgresses(h, y, usr, p, PartCount(cat[p.sign]));
        case Arrive(r) => ArriveProgresses(h, y, r, p, PartCount(cat[p.sign]));
        case Act(i, f) =>
          if i < |y.threads| {
            ActProgresses(h, cat, y, i, f, p);
          } else {
            NoSuchRequest(h, y, i, f);
          }
      }
      RunProgresses(h, cat, Perform(h, y, a), actions[1..], p);
    }
  }

  lemma NoSuchRequest(h: Hash, y: System, i: nat, f: Fault)
    requires i >= |y.threads|
    ensures Perform(h, y, Act(i, f)) == y
  {
  }

  /** All requests for p have been answered, and there was one for each of n parts. */
  ghost predicate AllAnswered(y: System, p: Place, n: nat) {
    (forall i | 0 <= i < |y.threads| :: Of(y.threads[i], p) ==> y.threads[i].pc.Done?) &&
    forall k: nat | k < n :: HasRequest(y, p, k)
  }

  ghost predicate HasRequest(y: System, p: Place, k: nat) {
    exists i :: 0 <= i < |y.threads| && Of(y.threads[i], p) && y.threads[i].request.partIndex == k
  }

  lemma AnsweredIsFinished(h: Hash, cat: Catalogue, y: System, p: Place)
    requires Safe(h, cat, y) && p.sign in cat
    requires Progressing(y, p, PartCount(cat[p.sign])) && AllAnswered(y, p, PartCount(cat[p.sign]))
    ensures Finished(y.server, p)
  {
    hide Staged, Honest, ThreadOk, StagingOk, PublishedOk;
    var n, s := PartCount(cat[p.sign]), y.server;
    if !Finished(s, p) {
      assert Uploading(y, p, n);
      assert HasRequest(y, p, 0);
      var i :| 0 <= i < |y.threads| && Of(y.threads[i], p) && y.threads[i].request.partIndex == 0;
      forall k: nat | k < n ensures InPlace(s, p, k) {
        assert HasRequest(y, p, k);
        var j :| 0 <= j < |y.threads| && Of(y.threads[j], p) && y.threads[j].request.partIndex == k;
        OwnInPlace(s, y.threads[j]);
      }
      AllInPlace(cat, s, p);
    }
  }

  predicate InPlace(s: Server, p: Place, k: nat) { p in s.staging && Decimal(k) in s.staging[p] }

  lemma OwnInPlace(s: Server, t: Thread)
    requires OnItsWay(s, t) && t.pc.Done?
    ensures InPlace(s, PlaceOf(t.request), t.request.partIndex)
  {
  }

  lemma AllInPlace(cat: Catalogue, s: Server, p: Place)
    requires StagingOk(cat, s) && p.sign in cat && forall k: nat | k < PartCount(cat[p.sign]) :: InPlace(s, p, k)
    ensures Complete(s, p, PartCount(cat[p.sign]))
  {
    hide Decimal, PartsOf;
    var m, n := s.staging, PartCount(cat[p.sign]);
    assert InPlace(s, p, 0);
    assert PartsOf(m[p], cat[p.sign]);
    KeysOf(m[p], cat[p.sign]);
    forall k: nat | k < n ensures Decimal(k) in m[p].Keys {
      assert InPlace(s, p, k);
    }
    CountDecides(m[p], n);
  }

  lemma KeysOf(m: map<Str, Str>, c: Str)
    requires PartsOf(m, c)
    ensures m.Keys <= Names(PartCount(c))
  {
  }

  /** Let honest uploads be interrupted in any state, with any faults.  From then on let honest requests of any users
      be served in any interleaving, and let no call fail for those of one registered user and one file; calls of
      others may fail.  When each part of the file has had such a request and all of them have been answered, the file
      is published and the user is linked to it. */
  lemma UploadsComplete(h: Hash, cat: Catalogue, before: seq<Action>, actions: seq<Action>, p: Place)
    requires Sound(h, cat) && p.sign in cat
    requires forall a :: a in before ==> HonestAction(h, cat, a)
    requires forall a :: a in actions ==> HonestAction(h, cat, a)
    requires
      var restart := System(Run(h, START, before).server, []);
      p.usr in restart.server.homes && CalmRun(h, restart, actions, p) &&
      AllAnswered(Run(h, restart, actions), p, PartCount(cat[p.sign]))
    ensures
      var s := Run(h, System(Run(h, START, before).server, []), actions).server;
      p in s.links && p.sign in s.published && s.published[p.sign] == AllParts(cat[p.sign]) &&
      HoldsFile(s.published[p.sign], cat[p.sign]) &&
      HasAll(s.published[p.sign], PartCount(cat[p.sign])) &&
      Assemble(s.published[p.sign], PartCount(cat[p.sign])) == cat[p.sign]
  {
    hide Run, CalmRun, HonestAction, AllAnswered, Sound, Honest, ThreadOk, AllParts, PartsOf;
    var restart := System(Run(h, START, before).server, []);
    RunIsSafe(h, cat, START, before);
    assert Safe(h, cat, restart);
    RunIsSafe(h, cat, restart, actions);
    assert Uploading(restart, p, PartCount(cat[p.sign]));
    RunProgresses(h, cat, restart, actions, p);
    AnsweredIsFinished(h, cat, Run(h, restart, actions), p);
    AssembleAll(cat[p.sign]);
    AllPartsHoldFile(cat[p.sign]);
  }
}
