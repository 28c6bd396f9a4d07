/** One pass of the client's upload loop, part after part, over the server without faults. */
module ClientPass {
  import opened Words
  import opened Parts
  import opened UploadSteps
  import opened UploadSafety
  import opened UploadSequential

  /** `int size` halved toward zero, plus one. */
  function Shards(c: Str): int {
    var size := AsInt32(|c|);
    (if size >= 0 then size / PART else -(-size / PART)) + 1
  }

  lemma ShardsOfSmall(c: Str)
    ensures Shards(c) < WORD
    ensures |c| < 0x8000_0000 ==> Shards(c) == PartCount(c)
    ensures |c| >= 0x8000_0000 ==> Shards(c) < PartCount(c)
  {
  }

  /** How many requests a pass sends: size and shard are ints, so a file between 2 and 4 gigabytes gets a negative size,
      which is halved toward zero. */
  lemma ShardsExactly(c: Str)
    ensures |c| < 0x8000_0000 ==> Shards(c) == |c| / 2 + 1
    ensures 0x8000_0000 <= |c| < 0x1_0000_0000 ==> Shards(c) == 1 - (0x1_0000_0000 - |c|) / 2
    ensures 0x8000_0000 <= |c| <= 0xffff_fffe ==> Shards(c) <= 0
  {
  }

  /** The request for part i: body and part_sign see the bytes up to a NUL. */
  function PartRequest(h: Hash, c: Str, usr: Str, fileName: Str, i: uint32): Request
    requires 0 <= i < Shards(c)
  {
    ShardsOfSmall(c);
    var body := CString(Slice(c, i));
    Request(usr, h(c), fileName, h(body), body, Shards(c), i)
  }

  /** The server after the parts from i on have been sent. */
  function SendFrom(h: Hash, s: Server, c: Str, usr: Str, fileName: Str, i: nat): Server
    decreases Shards(c) - i
  {
    if i >= Shards(c) then s
    else
      ShardsOfSmall(c);
      var r := PartRequest(h, c, usr, fileName, i);
      SendFrom(h, Serve(h, s, Thread(r, MkFiles), NoFaults).0, c, usr, fileName, i + 1)
  }

  /** What interrupted uploads of c may have left: parts of c in the user's staging place, or the published file. */
  ghost predicate LeftOver(h: Hash, s: Server, c: Str, usr: Str) {
    var p := Place(usr, h(c));
    (p in s.staging ==> PartsOf(s.staging[p], c)) &&
    (h(c) in s.published ==> s.published[h(c)] == AllParts(c))
  }

  /** Interrupted uploads of any users, with any faults, retries and interleavings, leave what LeftOver allows. */
  lemma RunsLeaveOver(h: Hash, cat: Catalogue, actions: seq<Action>, c: Str, usr: Str)
    requires Sound(h, cat) && forall a :: a in actions ==> HonestAction(h, cat, a)
    requires h(c) in cat ==> cat[h(c)] == c
    ensures LeftOver(h, Run(h, START, actions).server, c, usr)
  {
    hide Run, Sound, HonestAction, PartsOf, AllParts;
    RunIsSafe(h, cat, START, actions);
  }

  /** After the parts below i: published and linked, or those parts are staged and something is missing. */
  ghost predicate Progress(h: Hash, s: Server, c: Str, usr: Str, i: nat) {
    var p := Place(usr, h(c));
    usr in s.homes && LeftOver(h, s, c, usr) &&
    (i > 0 ==>
      if h(c) in s.published then p in s.links
      else p in s.staging && HasAll(s.staging[p], i) && |s.staging[p]| != PartCount(c))
  }

  lemma HasOneMore(m: map<Str, Str>, i: nat, content: Str)
    requires HasAll(m, i)
    ensures HasAll(m[Decimal(i) := content], i + 1)
  {
    var m' := m[Decimal(i) := content];
    forall j: nat | j < i + 1 ensures Decimal(j) in m'.Keys {
      if j < i {
        assert Decimal(j) in m.Keys;
      }
    }
  }

  lemma UseChangesRows(s: Server, r: Request)
    ensures
      var s' := CountUse(AddLink(s, r), r);
      s'.homes == s.homes && s'.staging == s.staging && s'.published == s.published && PlaceOf(r) in s'.links
  {
  }

  lemma SendOne(h: Hash, s: Server, c: Str, usr: Str, fileName: Str, i: nat)
    requires NulFree(c) && |c| < 0x8000_0000 && i < PartCount(c) && Progress(h, s, c, usr, i)
    requires Shards(c) == PartCount(c)
    ensures Progress(h, Serve(h, s, Thread(PartRequest(h, c, usr, fileName, i), MkFiles), NoFaults).0, c, usr, i + 1)
  {
    hide Serve, AllParts, Arrived, CountUse, AddLink, Decimal, CString, NulFree, PartsOf, HasAll, Shards;
    var r := PartRequest(h, c, usr, fileName, i);
    SliceOfNulFree(c, i);
    CStringIsPrefix(Slice(c, i));
    assert r.body == Slice(c, i);
    if h(c) in s.published {
      var s1 := s.(filesDirs := s.filesDirs + {usr});
      ServePublished(h, s, r);
      UseChangesRows(s1, r);
    } else {
      SendNew(h, s, c, r, i);
    }
  }

  /** The directory of the upload once part i is in it. */
  ghost function WithPart(s: Server, p: Place, c: Str, i: nat): map<Str, Str> {
    Entries(s, p)[Decimal(i) := Slice(c, i)]
  }

  lemma WithPartOk(h: Hash, s: Server, c: Str, usr: Str, i: nat)
    requires i < PartCount(c) && Progress(h, s, c, usr, i) && h(c) !in s.published
    ensures
      var m := WithPart(s, Place(usr, h(c)), c, i);
      PartsOf(m, c) && HasAll(m, i + 1) && |set name | name in m && Visible(name)| == |m| <= PartCount(c) &&
      (|m| == PartCount(c) <==> m == AllParts(c))
  {
    var p := Place(usr, h(c));
    var m0 := Entries(s, p);
    assert PartsOf(m0, c);
    assert HasAll(m0, i);
    hide PartsOf, HasAll, AllParts;
    AddPart(m0, c, i);
    HasOneMore(m0, i, Slice(c, i));
    CompleteParts(WithPart(s, p, c, i), c);
    KeysOfParts(WithPart(s, p, c, i), c);
    AllVisible(WithPart(s, p, c, i), PartCount(c));
  }

  lemma KeysOfParts(m: map<Str, Str>, c: Str)
    requires PartsOf(m, c)
    ensures m.Keys <= Names(PartCount(c))
  {
  }

  lemma StagedIsSlice(h: Hash, s: Server, c: Str, r: Request)
    requires LeftOver(h, s, c, r.usr) && r.fileSign == h(c) && r.partIndex < PartCount(c) && Staged(s, r)
    ensures Content(s, r) == Slice(c, r.partIndex)
  {
    assert PartsOf(s.staging[PlaceOf(r)], c);
  }

  lemma SendNew(h: Hash, s: Server, c: Str, r: Request, i: nat)
    requires i < PartCount(c) < 0x8000_0000 && Progress(h, s, c, r.usr, i) && h(c) !in s.published
    requires r.fileSign == h(c) && r.partIndex == i && r.shard == PartCount(c)
    requires r.body == Slice(c, i) && NulFree(r.body) && r.partSign == h(r.body)
    ensures Progress(h, Serve(h, s, Thread(r, MkFiles), NoFaults).0, c, r.usr, i + 1)
  {
    hide Serve, AllParts, CountUse, AddLink, Decimal, NulFree, PartsOf, HasAll, Visible;
    var p := PlaceOf(r);
    var s1 := Uploaded(s, r, r.body);
    if Staged(s, r) {
      StagedIsSlice(h, s, c, r);
    }
    ReceivedExactly(h, s, r);
    ServePart(h, s, r);
    WithPartOk(h, s, c, r.usr, i);
    var m := s1.staging[p];
    assert m == WithPart(s, p, c, i);
    assert Arrived(s1, r) == |m| && AsSize(r.shard) == PartCount(c);
    if |m| == PartCount(c) {
      UseChangesRows(Publish(s1, r), r);
    }
  }

  lemma {:induction false} SendRest(h: Hash, s: Server, c: Str, usr: Str, fileName: Str, i: nat)
    requires NulFree(c) && |c| < 0x8000_0000 && i <= PartCount(c) && Progress(h, s, c, usr, i)
    ensures Progress(h, SendFrom(h, s, c, usr, fileName, i), c, usr, PartCount(c))
    decreases PartCount(c) - i
  {
    hide Serve, Progress, NulFree, PartRequest;
    ShardsOfSmall(c);
    if i < PartCount(c) {
      SendOne(h, s, c, usr, fileName, i);
      SendRest(h, Serve(h, s, Thread(PartRequest(h, c, usr, fileName, i), MkFiles), NoFaults).0, c, usr, fileName, i + 1);
    }
  }

  /** One full pass by a registered user, from any honest state interrupted uploads left, ends with the signature
      published, its content the file, and the user linked. */
  lemma PassPublishes(h: Hash, s: Server, c: Str, usr: Str, fileName: Str)
    requires NulFree(c) && |c| < 0x8000_0000 && usr in s.homes && LeftOver(h, s, c, usr)
    ensures
      var s' := SendFrom(h, s, c, usr, fileName, 0);
      h(c) in s'.published && s'.published[h(c)] == AllParts(c) && HoldsFile(s'.published[h(c)], c) &&
      HasAll(s'.published[h(c)], PartCount(c)) && Assemble(s'.published[h(c)], PartCount(c)) == c &&
      Place(usr, h(c)) in s'.links
  {
    hide SendFrom, AllParts, Assemble, HasAll, PartsOf;
    SendRest(h, s, c, usr, fileName, 0);
    AssembleAll(c);
    AllPartsHoldFile(c);
    var s', p := SendFrom(h, s, c, usr, fileName, 0), Place(usr, h(c));
    if h(c) !in s'.published {
      KeysOfParts(s'.staging[p], c);
      CountDecides(s'.staging[p], PartCount(c));
    }
  }

  // What a pass cannot do.

  /** For one upload, only names below k and contents without NUL. */
  ghost predicate Small(s: Server, p: Place, k: nat) {
    (p in s.staging ==> SmallDir(s.staging[p], k)) && (p.sign in s.published ==> SmallDir(s.published[p.sign], k))
  }

  ghost predicate SmallDir(m: map<Str, Str>, k: nat) {
    m.Keys <= Names(k) && forall name :: name in m ==> NulFree(m[name])
  }

  lemma {:induction false} WrittenNulFree(s: Str, len: nat)
    requires len <= |s| && NulFree(s)
    ensures NulFree(Written(s, len))
  {
    if len > WRITE_LEN {
      WrittenNulFree(s, len - WRITE_LEN);
    }
  }

  lemma StoredNulFree(body: Str, was: Str)
    requires NulFree(was)
    ensures NulFree(Stored(body, was))
  {
    var s := CString(body);
    WrittenNulFree(s, |s|);
  }

  lemma WriteSmall(s: Server, r: Request, k: nat)
    requires Small(s, PlaceOf(r), k) && r.partIndex < k && PlaceOf(r) in s.staging
    ensures Small(WritePart(s, r), PlaceOf(r), k)
  {
    hide Stored;
    NameBelow(k, r.partIndex);
    StoredNulFree(r.body, if Staged(s, r) then Content(s, r) else []);
  }

  lemma StepSmall(h: Hash, s: Server, t: Thread, f: Fault, k: nat)
    requires Small(s, PlaceOf(t.request), k) && t.request.partIndex < k
    ensures Small(Step(h, s, t, f).0, PlaceOf(t.request), k)
  {
    hide Step, Stored, Decimal, WritePart;
    StepEffect(h, s, t, f);
    var r := t.request;
    if t.pc.Write? && PlaceOf(r) in s.staging {
      WriteSmall(s, r, k);
    }
  }

  lemma {:induction false} ServeSmall(h: Hash, s: Server, t: Thread, faults: Pc -> Fault, k: nat)
    requires Small(s, PlaceOf(t.request), k) && t.request.partIndex < k
    ensures Small(Serve(h, s, t, faults).0, PlaceOf(t.request), k)
    decreases Rank(t.pc)
  {
    hide Step, Small;
    if !t.pc.Done? {
      StepDescends(h, s, t, faults(t.pc));
      StepSmall(h, s, t, faults(t.pc), k);
      var (s', t') := Step(h, s, t, faults(t.pc));
      ServeSmall(h, s', t', faults, k);
    }
  }

  lemma {:induction false} SendSmall(h: Hash, s: Server, c: Str, usr: Str, fileName: Str, i: nat)
    requires Shards(c) >= 0 && Small(s, Place(usr, h(c)), Shards(c))
    ensures Small(SendFrom(h, s, c, usr, fileName, i), Place(usr, h(c)), Shards(c))
    decreases Shards(c) - i
  {
    hide Serve, Small;
    if i < Shards(c) {
      ShardsOfSmall(c);
      var t := Thread(PartRequest(h, c, usr, fileName, i), MkFiles);
      ServeSmall(h, s, t, NoFaults, Shards(c));
      SendSmall(h, Serve(h, s, t, NoFaults).0, c, usr, fileName, i + 1);
    }
  }

  lemma NulInParts(c: Str)
    requires SmallDir(AllParts(c), PartCount(c))
    ensures NulFree(c)
  {
    forall j | 0 <= j < |c| ensures c[j] != 0 {
      var i := j / PART;
      PartsBelowAt(c, PartCount(c));
      assert AllParts(c)[Decimal(i)] == Slice(c, i);
      assert Slice(c, i)[j - PART * i] == c[j];
      assert Decimal(i) in AllParts(c);
    }
  }

  lemma NamesMonotone(m: nat, n: nat)
    requires Names(m) <= Names(n)
    ensures m <= n
  {
    NamesCount(m);
    NamesCount(n);
    SubsetCount(Names(m), Names(n));
  }

  /** On a server that knows nothing of the file, one pass publishes it faithfully exactly when it has no NUL byte and
      its size is an `int`. */
  lemma PassExactly(h: Hash, s: Server, c: Str, usr: Str, fileName: Str)
    requires usr in s.homes && h(c) !in s.published && Place(usr, h(c)) !in s.staging
    ensures
      var s' := SendFrom(h, s, c, usr, fileName, 0);
      (h(c) in s'.published && s'.published[h(c)] == AllParts(c)) <==> NulFree(c) && |c| < 0x8000_0000
  {
    var s' := SendFrom(h, s, c, usr, fileName, 0);
    hide AllParts, SmallDir, NulFree, Serve, PartRequest, Names;
    if NulFree(c) && |c| < 0x8000_0000 {
      PassPublishes(h, s, c, usr, fileName);
    } else if Shards(c) > 0 && h(c) in s'.published && s'.published[h(c)] == AllParts(c) {
      hide SendFrom;
      SendSmall(h, s, c, usr, fileName, 0);
      ShardsOfSmall(c);
      PartsBelowKeys(c);
      SmallKeys(AllParts(c), Shards(c));
      NamesMonotone(PartCount(c), Shards(c));
      NulInParts(c);
    }
  }

  lemma PartsBelowKeys(c: Str)
    ensures AllParts(c).Keys == Names(PartCount(c))
  {
    PartsBelowAt(c, PartCount(c));
  }

  lemma SmallKeys(m: map<Str, Str>, k: nat)
    requires SmallDir(m, k)
    ensures m.Keys <= Names(k)
  {
  }
}
