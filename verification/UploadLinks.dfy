/** The reference counts of SignMap against the calls of linkToUsr and the links of users, in every run. */
module UploadLinks {
  import opened Parts
  import opened UploadSteps

  /** A call of linkToUsr for a signature has returned 0. */
  predicate IsLinked(t: Thread) { t.pc.Done? && t.pc.link == Linked }

  predicate IsFailed(t: Thread) { t.pc.Done? && t.pc.link == Failed }

  predicate IsInFlight(t: Thread) { t.pc.Link? || t.pc.Select? || t.pc.Insert? || t.pc.Update? }

  function CountLinked(ts: seq<Thread>, sign: Str): nat {
    if ts == [] then 0
    else (if IsLinked(ts[0]) && ts[0].request.fileSign == sign then 1 else 0) + CountLinked(ts[1..], sign)
  }

  /** Calls for the signature that have failed or have not returned. */
  function CountOpen(ts: seq<Thread>, sign: Str): nat {
    if ts == [] then 0
    else (if (IsFailed(ts[0]) || IsInFlight(ts[0])) && ts[0].request.fileSign == sign then 1 else 0) +
         CountOpen(ts[1..], sign)
  }

  function Reference(s: Server, sign: Str): nat {
    if sign in s.rows then s.rows[sign].reference else 0
  }

  /** The users with a link to a signature. */
  ghost function Linkers(s: Server, sign: Str): set<Str> {
    set p: Place | p in s.links && p.sign == sign :: p.usr
  }

  /** A thread that may have made the link of its user. */
  predicate MayHaveLinked(t: Thread, p: Place) {
    PlaceOf(t.request) == p && (IsLinked(t) || IsFailed(t) || IsInFlight(t))
  }

  ghost predicate Counted(y: System) {
    (forall sign :: Reference(y.server, sign) == CountLinked(y.threads, sign)) &&
    (forall sign :: sign in y.server.rows <==> CountLinked(y.threads, sign) > 0) &&
    (forall i | 0 <= i < |y.threads| :: y.threads[i].pc.Update? ==> y.threads[i].request.fileSign in y.server.rows)
  }

  ghost predicate LinksHaveCalls(y: System) {
    forall p :: p in y.server.links ==> exists i :: 0 <= i < |y.threads| && MayHaveLinked(y.threads[i], p)
  }

  // Counting over threads when one of them changes.

  function One(b: bool): nat { if b then 1 else 0 }

  lemma {:induction false} CountLinkedUpdate(ts: seq<Thread>, i: nat, t: Thread, sign: Str)
    requires i < |ts|
    ensures CountLinked(ts[i := t], sign) + One(IsLinked(ts[i]) && ts[i].request.fileSign == sign) ==
            CountLinked(ts, sign) + One(IsLinked(t) && t.request.fileSign == sign)
  {
    if i == 0 {
      assert ts[0 := t][1..] == ts[1..];
    } else {
      assert ts[i := t][1..] == ts[1..][i - 1 := t];
      CountLinkedUpdate(ts[1..], i - 1, t, sign);
    }
  }

  lemma {:induction false} CountLinkedAppend(ts: seq<Thread>, t: Thread, sign: Str)
    ensures CountLinked(ts + [t], sign) == CountLinked(ts, sign) + One(IsLinked(t) && t.request.fileSign == sign)
  {
    if ts == [] {
      assert [t][1..] == [] && ts + [t] == [t];
      assert CountLinked([t], sign) == One(IsLinked(t) && t.request.fileSign == sign) + CountLinked([], sign);
    } else {
      assert (ts + [t])[1..] == ts[1..] + [t];
      CountLinkedAppend(ts[1..], t, sign);
    }
  }

  lemma FilesOnly(s: Server, r: Request)
    ensures DeletePart(s, r).rows == Publish(s, r).rows == s.rows
    ensures DeletePart(s, r).links == Publish(s, r).links == s.links
    ensures PlaceOf(r) in s.staging ==> WritePart(s, r).rows == s.rows && WritePart(s, r).links == s.links
  {
  }

  /** Only a successful INSERT or UPDATE changes the table, and exactly the call that made it becomes linked. */
  lemma StepRows(h: Hash, s: Server, t: Thread, f: Fault)
    requires t.pc.Update? ==> t.request.fileSign in s.rows
    ensures
      var (s', t') := Step(h, s, t, f);
      var sign := t.request.fileSign;
      if IsLinked(t') && !IsLinked(t) then
        sign in s'.rows && Reference(s', sign) == Reference(s, sign) + 1 &&
        forall other :: other != sign ==> (other in s'.rows <==> other in s.rows) && Reference(s', other) == Reference(s, other)
      else s'.rows == s.rows
    ensures
      var (s', t') := Step(h, s, t, f);
      (IsLinked(t) ==> IsLinked(t')) && (t'.pc.Update? ==> t.request.fileSign in s'.rows) &&
      forall sign :: sign in s.rows ==> sign in s'.rows
  {
    hide Md5Sum, AsSize, Arrived, WritePart, DeletePart, Publish, Reject, LinkFailed, LinkDone;
    FilesOnly(s, t.request);
  }

  lemma ActKeepsCounted(h: Hash, y: System, i: nat, f: Fault)
    requires Counted(y) && i < |y.threads|
    ensures Counted(Perform(h, y, Act(i, f)))
  {
    hide Step;
    var y', t := Perform(h, y, Act(i, f)), y.threads[i];
    var t' := Step(h, y.server, t, f).1;
    StepRows(h, y.server, t, f);
    StepDescends(h, y.server, t, f);
    forall sign
      ensures Reference(y'.server, sign) == CountLinked(y'.threads, sign)
      ensures sign in y'.server.rows <==> CountLinked(y'.threads, sign) > 0
    {
      CountLinkedUpdate(y.threads, i, t', sign);
    }
  }

  lemma PerformKeepsCounted(h: Hash, y: System, a: Action)
    requires Counted(y)
    ensures Counted(Perform(h, y, a))
  {
    match a {
      case Register(usr) =>
      case Arrive(r) =>
        forall sign ensures CountLinked(y.threads + [Thread(r, MkFiles)], sign) == CountLinked(y.threads, sign) {
          CountLinkedAppend(y.threads, Thread(r, MkFiles), sign);
        }
      case Act(i, f) =>
        if i < |y.threads| {
          ActKeepsCounted(h, y, i, f);
        }
    }
  }

  /** In every interleaving of calls, failing ones included, the reference of a signature is the number of calls of
      linkToUsr that completed their INSERT or UPDATE, and its row exists exactly when there is such a call. */
  lemma {:induction false} ReferenceCountsCalls(h: Hash, y: System, actions: seq<Action>)
    requires Counted(y)
    ensures Counted(Run(h, y, actions))
    decreases |actions|
  {
    hide Counted, Perform;
    if actions == [] {
    } else {
      PerformKeepsCounted(h, y, actions[0]);
      ReferenceCountsCalls(h, Perform(h, y, actions[0]), actions[1..]);
    }
  }

  // Links.

  lemma LinksOnly(s: Server, r: Request)
    ensures AddLink(s, r).links == s.links + {PlaceOf(r)}
    ensures SetStage(s, PlaceOf(r), map[]).links == InsertRow(s, r).links == IncrementRow(s, r).links == s.links
  {
  }

  /** A link is made by the call of Link only. */
  lemma StepAddsLink(h: Hash, s: Server, t: Thread, f: Fault)
    ensures
      var (s', t') := Step(h, s, t, f);
      s'.links == s.links || (t.pc.Link? && t'.pc.Select? && s'.links == s.links + {PlaceOf(t.request)})
  {
    hide Md5Sum, AsSize, Arrived, WritePart, DeletePart, Publish, Reject, LinkFailed, LinkDone, Staged,
         SetStage, AddLink, InsertRow, IncrementRow;
    FilesOnly(s, t.request);
    LinksOnly(s, t.request);
  }

  lemma StepLinks(h: Hash, s: Server, t: Thread, f: Fault, p: Place)
    ensures
      var (s', t') := Step(h, s, t, f);
      p in s'.links ==> p in s.links || MayHaveLinked(t', p)
    ensures MayHaveLinked(t, p) ==> MayHaveLinked(Step(h, s, t, f).1, p)
    ensures s.links <= Step(h, s, t, f).0.links
  {
    hide Step;
    StepAddsLink(h, s, t, f);
    StepDescends(h, s, t, f);
    StepKeepsCall(h, s, t, f);
  }

  lemma StepKeepsCall(h: Hash, s: Server, t: Thread, f: Fault)
    ensures
      var t' := Step(h, s, t, f).1;
      IsLinked(t) || IsFailed(t) || IsInFlight(t) ==> IsLinked(t') || IsFailed(t') || IsInFlight(t')
  {
    hide Md5Sum, AsSize, Arrived, WritePart, DeletePart, Publish, SetStage, AddLink, InsertRow, IncrementRow;
  }

  lemma PerformKeepsLinks(h: Hash, y: System, a: Action)
    requires LinksHaveCalls(y)
    ensures LinksHaveCalls(Perform(h, y, a))
  {
    hide Step, MayHaveLinked;
    var y' := Perform(h, y, a);
    forall p | p in y'.server.links ensures exists i :: 0 <= i < |y'.threads| && MayHaveLinked(y'.threads[i], p) {
      if a.Act? && a.i < |y.threads| {
        StepLinks(h, y.server, y.threads[a.i], a.fault, p);
        if p in y.server.links {
          var i :| 0 <= i < |y.threads| && MayHaveLinked(y.threads[i], p);
          assert MayHaveLinked(y'.threads[i], p);
        } else {
          assert MayHaveLinked(y'.threads[a.i], p);
        }
      } else {
        var i :| 0 <= i < |y.threads| && MayHaveLinked(y.threads[i], p);
        assert y'.threads[i] == y.threads[i];
      }
    }
  }

  lemma {:induction false} RunKeepsLinks(h: Hash, y: System, actions: seq<Action>)
    requires LinksHaveCalls(y)
    ensures LinksHaveCalls(Run(h, y, actions))
    decreases |actions|
  {
    hide LinksHaveCalls, Perform;
    if actions == [] {
    } else {
      PerformKeepsLinks(h, y, actions[0]);
      RunKeepsLinks(h, Perform(h, y, actions[0]), actions[1..]);
    }
  }

  /** The users of the calls for a signature. */
  ghost function Callers(ts: seq<Thread>, sign: Str): set<Str> {
    if ts == [] then {}
    else
      (if (IsLinked(ts[0]) || IsFailed(ts[0]) || IsInFlight(ts[0])) && ts[0].request.fileSign == sign
       then {ts[0].request.usr} else {}) + Callers(ts[1..], sign)
  }

  lemma {:induction false} CallersCount(ts: seq<Thread>, sign: Str)
    ensures |Callers(ts, sign)| <= CountLinked(ts, sign) + CountOpen(ts, sign)
  {
    if ts == [] {
    } else {
      CallersCount(ts[1..], sign);
      var first := Callers(ts, sign) - Callers(ts[1..], sign);
      SubsetCount(first, {ts[0].request.usr});
      SubsetCount(Callers(ts, sign), first + Callers(ts[1..], sign));
    }
  }

  lemma {:induction false} CallerIn(ts: seq<Thread>, i: nat, p: Place)
    requires i < |ts| && MayHaveLinked(ts[i], p)
    ensures p.usr in Callers(ts, p.sign)
  {
    if i > 0 {
      CallerIn(ts[1..], i - 1, p);
    }
  }

  lemma LinkersBound(y: System, sign: Str)
    requires Counted(y) && LinksHaveCalls(y)
    ensures |Linkers(y.server, sign)| <= Reference(y.server, sign) + CountOpen(y.threads, sign)
  {
    forall u | u in Linkers(y.server, sign) ensures u in Callers(y.threads, sign) {
      var p: Place :| p in y.server.links && p.sign == sign && p.usr == u;
      var i :| 0 <= i < |y.threads| && MayHaveLinked(y.threads[i], p);
      CallerIn(y.threads, i, p);
    }
    SubsetCount(Linkers(y.server, sign), Callers(y.threads, sign));
    CallersCount(y.threads, sign);
  }

  /** In every run, the users holding a link to a signature are at most its reference plus the calls of linkToUsr
      for it that failed or have not returned. */
  lemma LinkersAreCounted(h: Hash, actions: seq<Action>, sign: Str)
    ensures
      var y := Run(h, START, actions);
      |Linkers(y.server, sign)| <= Reference(y.server, sign) + CountOpen(y.threads, sign)
  {
    hide Run;
    ReferenceCountsCalls(h, START, actions);
    RunKeepsLinks(h, START, actions);
    LinkersBound(Run(h, START, actions), sign);
  }

  // File names in the table.

  lemma RowsOnly(s: Server, r: Request, sign: Str)
    requires sign in s.rows
    ensures sign in InsertRow(s, r).rows && sign in IncrementRow(s, r).rows
    ensures IncrementRow(s, r).rows[sign].fileName == s.rows[sign].fileName
    ensures sign != r.fileSign ==> InsertRow(s, r).rows[sign] == s.rows[sign]
  {
  }

  lemma NewRow(s: Server, r: Request, sign: Str)
    requires sign !in s.rows
    ensures sign !in IncrementRow(s, r).rows
    ensures sign in InsertRow(s, r).rows ==> sign == r.fileSign && InsertRow(s, r).rows[sign].fileName == r.fileName
  {
  }

  /** A step keeps the file name of every row; a row it adds is for the signature of its request, with the file name of
      its request, and the request's call has completed. */
  lemma StepNames(h: Hash, s: Server, t: Thread, f: Fault, sign: Str)
    ensures
      var (s', t') := Step(h, s, t, f);
      if sign in s.rows then sign in s'.rows && s'.rows[sign].fileName == s.rows[sign].fileName
      else sign in s'.rows ==>
        sign == t.request.fileSign && s'.rows[sign].fileName == t.request.fileName && IsLinked(t')
    ensures IsLinked(t) ==> IsLinked(Step(h, s, t, f).1)
  {
    hide Md5Sum, AsSize, Arrived, WritePart, DeletePart, Publish, Reject, LinkFailed, LinkDone, Staged,
         SetStage, InsertRow, IncrementRow;
    FilesOnly(s, t.request);
    SameRows(s, t.request);
    if sign in s.rows {
      RowsOnly(s, t.request, sign);
    } else {
      NewRow(s, t.request, sign);
    }
  }

  lemma SameRows(s: Server, r: Request)
    ensures SetStage(s, PlaceOf(r), map[]).rows == s.rows
  {
  }

  /** The request has been counted, and gave the row of its signature its file name. */
  predicate Named(t: Thread, sign: Str, fileName: Str) {
    IsLinked(t) && t.request.fileSign == sign && t.request.fileName == fileName
  }

  ghost predicate RowsNamed(y: System) {
    forall sign :: sign in y.server.rows ==>
      exists i :: 0 <= i < |y.threads| && Named(y.threads[i], sign, y.server.rows[sign].fileName)
  }

  lemma PerformKeepsNames(h: Hash, y: System, a: Action)
    requires RowsNamed(y)
    ensures RowsNamed(Perform(h, y, a))
    ensures forall sign :: sign in y.server.rows ==>
      sign in Perform(h, y, a).server.rows && Perform(h, y, a).server.rows[sign].fileName == y.server.rows[sign].fileName
  {
    hide Step, IsLinked;
    var y' := Perform(h, y, a);
    forall sign | sign in y.server.rows
      ensures sign in y'.server.rows && y'.server.rows[sign].fileName == y.server.rows[sign].fileName
    {
      if a.Act? && a.i < |y.threads| {
        StepNames(h, y.server, y.threads[a.i], a.fault, sign);
      }
    }
    forall sign | sign in y'.server.rows
      ensures exists i :: 0 <= i < |y'.threads| && Named(y'.threads[i], sign, y'.server.rows[sign].fileName)
    {
      if a.Act? && a.i < |y.threads| {
        StepNames(h, y.server, y.threads[a.i], a.fault, sign);
        StepDescends(h, y.server, y.threads[a.i], a.fault);
      }
      if sign in y.server.rows {
        var i :| 0 <= i < |y.threads| && Named(y.threads[i], sign, y.server.rows[sign].fileName);
        assert Named(y'.threads[i], sign, y'.server.rows[sign].fileName);
      } else {
        assert Named(y'.threads[a.i], sign, y'.server.rows[sign].fileName);
      }
    }
  }

  lemma {:induction false} RunKeepsNames(h: Hash, y: System, actions: seq<Action>)
    requires RowsNamed(y)
    ensures RowsNamed(Run(h, y, actions))
    ensures forall sign :: sign in y.server.rows ==>
      sign in Run(h, y, actions).server.rows &&
      Run(h, y, actions).server.rows[sign].fileName == y.server.rows[sign].fileName
    decreases |actions|
  {
    hide RowsNamed, Perform;
    if actions == [] {
    } else {
      PerformKeepsNames(h, y, actions[0]);
      RunKeepsNames(h, Perform(h, y, actions[0]), actions[1..]);
    }
  }

  /** In every run, each row bears the file name of a request for its signature whose call of linkToUsr has completed,
      and however the run goes on, it keeps that name. */
  lemma RowsKeepTheirNames(h: Hash, before: seq<Action>, actions: seq<Action>, sign: Str)
    requires sign in Run(h, START, before).server.rows
    ensures
      var y := Run(h, START, before);
      var y' := Run(h, y, actions);
      var fileName := y.server.rows[sign].fileName;
      sign in y'.server.rows && y'.server.rows[sign].fileName == fileName &&
      exists i :: 0 <= i < |y.threads| && y.threads[i].request.fileSign == sign &&
        y.threads[i].request.fileName == fileName && IsLinked(y.threads[i])
  {
    hide Run, IsLinked;
    RunKeepsNames(h, START, before);
    var y := Run(h, START, before);
    RunKeepsNames(h, y, actions);
    var i :| 0 <= i < |y.threads| && Named(y.threads[i], sign, y.server.rows[sign].fileName);
  }
}
