/** The file-system calls of file_sys.cpp and the shell commands of public.cpp on the server's disk, and the table
    SignMap behind mmsql.cpp.  `fail` makes a call fail without effect. */
module FileSys {
  import opened Parts
  import opened UploadSteps

  /** The directories Mkdir is asked for. */
  datatype Dir = Home(usr: Str) | FilesDir(usr: Str) | TmpDir(usr: Str) | Stage(place: Place)

  /** write(2) at position `pos` of a file. */
  function WriteAt(file: Str, pos: nat, chunk: Str): (f: Str)
    requires pos <= |file|
  {
    file[..pos] + chunk + if pos + |chunk| < |file| then file[pos + |chunk|..] else []
  }

  lemma OverlayNext(done: Str, was: Str, chunk: Str)
    ensures |done| <= |Overlay(done, was)|
    ensures WriteAt(Overlay(done, was), |done|, chunk) == Overlay(done + chunk, was)
  {
    assert Overlay(done, was)[..|done|] == done;
    if |done| + |chunk| < |was| {
      assert Overlay(done, was)[|done| + |chunk|..] == was[|done| + |chunk|..];
    }
  }

  lemma OverlayNothing(was: Str)
    ensures Overlay([], was) == was
  {
  }

  lemma LastChunkOf(s: Str, len: nat)
    requires len <= |s| && len <= WRITE_LEN
    ensures Written(s, len) == s[..len]
  {
  }

  lemma NextChunk(done: Str, s: Str, len: nat)
    requires WRITE_LEN < len <= |s|
    ensures done + s[..WRITE_LEN] + Written(s, len - WRITE_LEN) == done + Written(s, len)
  {
  }

  /** The loop of Write on a file that holds `was`: chunks of 4096 bytes that all start at s. */
  method WriteChunks(s: Str, was: Str) returns (file: Str)
    ensures file == Overlay(Written(s, |s|), was)
  {
    hide Written, Overlay, WriteAt;
    file := was;
    var len, pos := |s|, 0;
    ghost var done: Str := [];
    OverlayNothing(was);
    while len > WRITE_LEN
      invariant 0 <= len <= |s| && |done| == pos
      invariant done + Written(s, len) == Written(s, |s|)
      invariant file == Overlay(done, was)
    {
      OverlayNext(done, was, s[..WRITE_LEN]);
      NextChunk(done, s, len);
      file := WriteAt(file, pos, s[..WRITE_LEN]);
      done := done + s[..WRITE_LEN];
      len, pos := len - WRITE_LEN, pos + WRITE_LEN;
    }
    LastChunkOf(s, len);
    OverlayNext(done, was, s[..len]);
    file := WriteAt(file, pos, s[..len]);
  }

  ghost function VisibleNames(names: set<Str>): set<Str> {
    set name | name in names && Visible(name)
  }

  lemma NextName(seen: set<Str>, name: Str)
    requires name !in seen
    ensures name !in VisibleNames(seen)
    ensures VisibleNames(seen + {name}) == VisibleNames(seen) + if Visible(name) then {name} else {}
  {
  }

  lemma NoNames()
    ensures VisibleNames({}) == {}
  {
  }

  lemma ListedExactly(res: seq<Str>, names: set<Str>)
    requires multiset(res) == multiset(VisibleNames(names))
    ensures forall name :: name in res <==> name in names && (name == [] || name[0] != 46)
  {
    forall name ensures name in res <==> name in names && (name == [] || name[0] != 46) {
      assert name in res <==> name in multiset(res);
      assert name in multiset(res) <==> name in VisibleNames(names);
    }
  }

  class FileSys {
    const md5sum: Hash
    var homes: set<Str>
    var filesDirs: set<Str>
    var tmpDirs: set<Str>
    var staging: map<Place, map<Str, Str>>
    var published: map<Str, map<Str, Str>>
    var links: set<Place>

    constructor (md5sum: Hash, users: set<Str>)
      ensures this.md5sum == md5sum && homes == users && filesDirs == tmpDirs == {}
      ensures staging == map[] && published == map[] && links == {}
    {
      this.md5sum := md5sum;
      homes, filesDirs, tmpDirs := users, {}, {};
      staging, published, links := map[], map[], {};
    }

    /** mkdir(2); a directory that is there already is no error, a missing parent is. */
    method Mkdir(d: Dir, fail: bool) returns (rc: int)
      modifies this`homes, this`filesDirs, this`tmpDirs, this`staging
      ensures
        var ok := !fail &&
          match d
          case Home(_) => true
          case FilesDir(u) => u in old(homes)
          case TmpDir(u) => u in old(homes)
          case Stage(p) => p.usr in old(tmpDirs);
        rc == (if ok then 0 else -1) &&
        homes == (if ok && d.Home? then old(homes) + {d.usr} else old(homes)) &&
        filesDirs == (if ok && d.FilesDir? then old(filesDirs) + {d.usr} else old(filesDirs)) &&
        tmpDirs == (if ok && d.TmpDir? then old(tmpDirs) + {d.usr} else old(tmpDirs)) &&
        staging == if ok && d.Stage? && d.place !in old(staging) then old(staging)[d.place := map[]] else old(staging)
    {
      if fail {
        return -1;
      }
      match d {
        case Home(u) =>
          homes := homes + {u};
        case FilesDir(u) =>
          if u !in homes {
            return -1;
          }
          filesDirs := filesDirs + {u};
        case TmpDir(u) =>
          if u !in homes {
            return -1;
          }
          tmpDirs := tmpDirs + {u};
        case Stage(p) =>
          if p.usr !in tmpDirs {
            return -1;
          }
          if p !in staging {
            staging := staging[p := map[]];
          }
      }
      rc := 0;
    }

    method ExistDir(sign: Str, fail: bool) returns (b: bool)
      ensures b == (!fail && sign in published)
    {
      b := !fail && sign in published;
    }

    method ExistFile(p: Place, name: Str, fail: bool) returns (b: bool)
      ensures b == (!fail && p in staging && name in staging[p])
    {
      b := !fail && p in staging && name in staging[p];
    }

    /** readdir until the end, keeping the names that do not start with a dot. */
    method LsDir(p: Place, fail: bool) returns (rc: int, res: seq<Str>)
      ensures rc == if fail || p !in staging then -1 else 0
      ensures rc != 0 ==> res == []
      ensures rc == 0 ==> multiset(res) == multiset(VisibleNames(staging[p].Keys))
      ensures rc == 0 ==> forall name :: name in res <==> name in staging[p] && (name == [] || name[0] != 46)
    {
      hide VisibleNames, Visible;
      res := [];
      if fail || p !in staging {
        return -1, [];
      }
      var left := staging[p].Keys;
      ghost var seen: set<Str> := {};
      NoNames();
      while left != {}
        invariant left !! seen && left + seen == staging[p].Keys
        invariant multiset(res) == multiset(VisibleNames(seen))
        decreases left
      {
        var name :| name in left;
        NextName(seen, name);
        if Visible(name) {
          res := res + [name];
        }
        left := left - {name};
        seen := seen + {name};
      }
      assert seen == staging[p].Keys;
      ListedExactly(res, seen);
      rc := 0;
    }

    /** open without O_TRUNC, then the chunks. */
    method Write(str: Str, p: Place, name: Str, fail: bool) returns (rc: int)
      requires |str| < 0x8000_0000
      modifies this`staging
      ensures
        if fail || p !in old(staging) then rc == -1 && staging == old(staging)
        else
          var was := if name in old(staging)[p] then old(staging)[p][name] else [];
          rc == 0 && staging == old(staging)[p := old(staging)[p][name := Stored(str, was)]]
    {
      if fail || p !in staging {
        return -1;
      }
      var file := WriteChunks(CString(str), if name in staging[p] then staging[p][name] else []);
      staging := staging[p := staging[p][name := file]];
      rc := 0;
    }

    method DeleteFile(p: Place, name: Str, fail: bool) returns (rc: int)
      modifies this`staging
      ensures
        if fail || p !in old(staging) || name !in old(staging)[p] then rc == -1 && staging == old(staging)
        else rc == 0 && staging == old(staging)[p := old(staging)[p] - {name}]
    {
      if fail || p !in staging || name !in staging[p] {
        return -1;
      }
      staging := staging[p := staging[p] - {name}];
      rc := 0;
    }

    /** symlink(2) of files_dir/sign into the files of a user; a link that is there already is no error. */
    method Link(p: Place, fail: bool) returns (rc: int)
      modifies this`links
      ensures
        if fail || p.usr !in filesDirs then rc == -1 && links == old(links)
        else rc == 0 && links == old(links) + {p}
    {
      if fail || p.usr !in filesDirs {
        return -1;
      }
      links := links + {p};
      rc := 0;
    }

    /** Md5Sum of public.cpp; without the file the command has no output. */
    method Md5Sum(p: Place, name: Str, fail: bool) returns (rc: int, md5: Str)
      ensures rc == if fail then -1 else 0
      ensures !fail ==> md5 == if p in staging && name in staging[p] then md5sum(staging[p][name]) else []
    {
      if fail {
        return -1, [];
      }
      rc, md5 := 0, if p in staging && name in staging[p] then md5sum(staging[p][name]) else [];
    }

    /** `mv usr_dir/usr/tmp/sign files_dir`, which replaces an empty target; `silent` is that it printed nothing. */
    method Move(p: Place, f: Fault) returns (silent: bool)
      modifies this`staging, this`published
      ensures silent == !f.noise
      ensures
        if !f.fail && p in old(staging) && (p.sign in old(published) ==> old(published)[p.sign] == map[]) then
          published == old(published)[p.sign := old(staging)[p]] && staging == old(staging) - {p}
        else published == old(published) && staging == old(staging)
    {
      if !f.fail && p in staging && !Occupied(published, p.sign) {
        published := published[p.sign := staging[p]];
        staging := staging - {p};
      }
      silent := !f.noise;
    }
  }

  class SignMap {
    var rows: map<Str, Row>

    constructor ()
      ensures rows == map[]
    {
      rows := map[];
    }

    /** SELECT by sign and the fetch of its result. */
    method Select(sign: Str, fail: bool) returns (rc: int, found: bool)
      ensures rc == (if fail then -1 else 0) && (rc == 0 ==> found == (sign in rows))
    {
      rc, found := if fail then -1 else 0, sign in rows;
    }

    /** INSERT of a row with reference 1; sign is the primary key. */
    method Insert(sign: Str, fileName: Str, fail: bool) returns (rc: int)
      modifies this
      ensures
        if fail || sign in old(rows) then rc == -1 && rows == old(rows)
        else rc == 0 && rows == old(rows)[sign := Row(fileName, 1)]
    {
      if fail || sign in rows {
        return -1;
      }
      rows := rows[sign := Row(fileName, 1)];
      rc := 0;
    }

    /** UPDATE reference = reference + 1 where sign matches. */
    method Increment(sign: Str, fail: bool) returns (rc: int)
      modifies this
      ensures rc == if fail then -1 else 0
      ensures
        rows == if !fail && sign in old(rows)
                then old(rows)[sign := old(rows)[sign].(reference := old(rows)[sign].reference + 1)] else old(rows)
    {
      if fail {
        return -1;
      }
      if sign in rows {
        rows := rows[sign := rows[sign].(reference := rows[sign].reference + 1)];
      }
      rc := 0;
    }
  }
}
