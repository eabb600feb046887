/** The inbound tick: list and copy the files of the remote server, process the copies, delete on the
    server what was copied (internal/incoming/odfi). Others may add and remove files there at any moment. */
module Inbound {
  import opened Text
  import opened Disk

  /** Where the remote copy of a file lies, and where the deletion of its local copy strikes: the
      local copy goes by the last element of the path alone. */
  function LocalPath(dir: string, remote: Path): Path
    requires remote != []
  {
    [dir, remote[|remote| - 1]]
  }

  /** The deletion strikes the file that was copied exactly if the listing is flat. */
  lemma DeletesItselfIffFlat(dir: string, remote: Path)
    requires |remote| >= 2 && remote[0] == dir
    ensures LocalPath(dir, remote) == remote <==> |remote| == 2
  {
    assert |remote| == 2 ==> remote == [remote[0], remote[1]];
  }

  function WithoutLeadingSpace(bs: Bytes): Bytes {
    if bs != [] && IsSpace(bs[0]) then WithoutLeadingSpace(bs[1..]) else bs
  }

  function WithoutTrailingSpace(bs: Bytes): Bytes {
    if bs != [] && IsSpace(bs[|bs| - 1]) then WithoutTrailingSpace(bs[..|bs| - 1]) else bs
  }

  /** The white space of the C locale. */
  predicate IsSpace(b: byte) {
    b == 32 || 9 <= b <= 13
  }

  function TrimSpace(bs: Bytes): Bytes {
    WithoutTrailingSpace(WithoutLeadingSpace(bs))
  }

  /** Tab, line feed, vertical tab, form feed, carriage return and space. */
  const WHITE_SPACE: set<byte> := {9, 10, 11, 12, 13, 32}

  predicate Blank(bs: Bytes) {
    forall b | b in bs :: b in WHITE_SPACE
  }

  /** Without white space at either end. */
  predicate Tight(bs: Bytes) {
    bs == [] || (bs[0] !in WHITE_SPACE && bs[|bs| - 1] !in WHITE_SPACE)
  }

  lemma {:induction false} LeadingSpace(bs: Bytes) returns (a: Bytes)
    ensures bs == a + WithoutLeadingSpace(bs) && Blank(a)
    ensures WithoutLeadingSpace(bs) != [] ==> WithoutLeadingSpace(bs)[0] !in WHITE_SPACE
  {
    a := [];
    if bs != [] && IsSpace(bs[0]) {
      var rest := LeadingSpace(bs[1..]);
      a := [bs[0]] + rest;
      assert bs == [bs[0]] + (rest + WithoutLeadingSpace(bs[1..]));
      assert WithoutLeadingSpace(bs) == WithoutLeadingSpace(bs[1..]);
    }
  }

  lemma {:induction false} TrailingSpace(bs: Bytes) returns (c: Bytes)
    ensures bs == WithoutTrailingSpace(bs) + c && Blank(c)
    ensures WithoutTrailingSpace(bs) != [] ==>
            WithoutTrailingSpace(bs)[|WithoutTrailingSpace(bs)| - 1] !in WHITE_SPACE
  {
    c := [];
    if bs != [] && IsSpace(bs[|bs| - 1]) {
      var rest := TrailingSpace(bs[..|bs| - 1]);
      c := rest + [bs[|bs| - 1]];
      assert bs == WithoutTrailingSpace(bs[..|bs| - 1]) + rest + [bs[|bs| - 1]];
      assert WithoutTrailingSpace(bs) == WithoutTrailingSpace(bs[..|bs| - 1]);
    }
  }

  ghost predicate Trims(bs: Bytes, a: Bytes, m: Bytes, c: Bytes) {
    bs == a + m + c && Blank(a) && Tight(m) && Blank(c)
  }

  /** Trimming cuts white space off both ends and nothing else. */
  lemma TrimSpaceCuts(bs: Bytes)
    ensures exists a, c :: Trims(bs, a, TrimSpace(bs), c)
  {
    var a := LeadingSpace(bs);
    var rest := WithoutLeadingSpace(bs);
    var c := TrailingSpace(rest);
    var m := TrimSpace(bs);
    assert m != [] ==> m[0] == rest[0];
    assert a + (m + c) == a + m + c;
    assert Trims(bs, a, m, c);
  }

  lemma BlankOutside(bs: Bytes, a: Bytes, m: Bytes, c: Bytes)
    requires Trims(bs, a, m, c)
    ensures forall k | 0 <= k < |a| || |a| + |m| <= k < |bs| :: bs[k] in WHITE_SPACE
    ensures m == bs[|a|..|a| + |m|]
  {
    assert forall k | 0 <= k < |a| :: bs[k] == a[k] && a[k] in a;
    assert forall k | |a| + |m| <= k < |bs| :: bs[k] == c[k - |a| - |m|] && c[k - |a| - |m|] in c;
  }

  /** That leaves one possibility. */
  lemma TrimmedOnce(bs: Bytes, a: Bytes, m: Bytes, c: Bytes, b: Bytes, n: Bytes, d: Bytes)
    requires Trims(bs, a, m, c) && Trims(bs, b, n, d)
    ensures m == n
  {
    BlankOutside(bs, a, m, c);
    BlankOutside(bs, b, n, d);
    if m == [] || n == [] {
      NotBlank(bs, a, m, c);
      NotBlank(bs, b, n, d);
    } else {
      assert bs[|a|] == m[0] && bs[|b|] == n[0];
      assert bs[|a| + |m| - 1] == m[|m| - 1] && bs[|b| + |n| - 1] == n[|n| - 1];
      assert |a| == |b| && |a| + |m| == |b| + |n|;
    }
  }

  lemma NotBlank(bs: Bytes, a: Bytes, m: Bytes, c: Bytes)
    requires Trims(bs, a, m, c)
    ensures m == [] <==> Blank(bs)
  {
    if m != [] { assert bs[|a|] == m[0]; assert bs[|a|] in bs; }
  }

  /** Every path of the set once, in some order. */
  predicate Lists(q: seq<Path>, s: set<Path>) {
    && (forall p | p in q :: p in s) && (forall p | p in s :: p in q)
    && (forall i, j | 0 <= i < j < |q| :: q[i] != q[j])
  }

  lemma {:induction false} ListExists(s: set<Path>)
    ensures exists q :: Lists(q, s)
  {
    if s == {} {
      assert Lists([], s);
    } else {
      var x :| x in s;
      ListExists(s - {x});
      var q :| Lists(q, s - {x});
      assert Lists(q + [x], s);
    }
  }

  /** The agents leave hidden files out of their listings. */
  predicate Visible(p: Path) {
    p != [] && (p[|p| - 1] == [] || p[|p| - 1][0] != '.')
  }

  lemma HiddenByDot(dir: string, n: string)
    ensures Visible([dir, "." + n]) == false && (n != "" && !("." <= n) ==> Visible([dir, n]))
  {
    assert ("." + n)[0] == '.';
    if n != "" && n[0] == '.' { assert n[..1] == "."; assert "." <= n; }
  }

  datatype Deleted = Gone | NotThere | DeleteFails

  /** The server. `history` has every file that ever was there: no name is used for a second one.
      `removed` logs what this program deleted, `taken` what others did, `faults` counts what went wrong
      in dealing with the server. Behind a retrying agent an error that is not worth a retry counts for none. */
  class Server {
    const retries: bool
    var files: map<Path, Bytes>
    var history: map<Path, Bytes>
    var removed: set<Path>
    ghost var taken: set<Path>
    ghost var faults: nat

    ghost predicate Valid()
      reads this
    {
      && (forall p | p in history :: |p| == 2)
      && files.Keys == history.Keys - removed - taken && removed + taken <= history.Keys
      && (forall p | p in files :: files[p] == history[p])
    }

    /** Files keep their contents, and what is gone stays gone. */
    twostate predicate Grew()
      reads this
    {
      && old(faults) <= faults && old(removed) <= removed && old(taken) <= taken
      && old(history.Keys) <= history.Keys
      && (forall p | p in old(history) :: history[p] == old(history)[p])
    }

    constructor (retries: bool)
      ensures Valid() && this.retries == retries
    {
      this.retries := retries;
      files, history, removed, taken, faults := map[], map[], {}, {}, 0;
    }

    /** What an agent that says all is well can be trusted with since the old state. */
    twostate predicate Trusted()
      reads this
    {
      !retries || faults == old(faults)
    }

    /** Something went wrong since the old state, or somebody else removed a file. */
    twostate predicate Harmed()
      reads this
    {
      old(faults) < faults || taken != old(taken)
    }

    /** Only other people added and removed files. */
    twostate predicate Undisturbed()
      reads this
    {
      Grew() && removed == old(removed)
    }

    /** What happens on the server before the next request. */
    method Elapse()
      requires Valid()
      modifies this
      ensures Valid() && Undisturbed() && faults == old(faults)
    {
      var others: map<Path, Bytes> := *;
      var arrived := map p | p in others && p !in history && |p| == 2 :: others[p];
      var leaving: set<Path> := *;
      files, history := (files + arrived) - leaving, history + arrived;
      taken := taken + leaving * (history.Keys - removed);
    }

    method List(dir: string) returns (paths: Option<seq<Path>>)
      requires Valid()
      modifies this
      ensures Valid() && Undisturbed()
      ensures paths.Some? ==> forall p | p in paths.value :: p in files && p[0] == dir
      ensures paths.Some? && Trusted() ==> forall p | p in files && p[0] == dir && Visible(p) :: p in paths.value
      ensures paths.None? ==> old(faults) < faults
    {
      Elapse();
      var fails: bool := *;
      var worthRetry: bool := *;
      if fails {
        faults := faults + 1;
        return if retries && !worthRetry then Some([]) else None;
      }
      var here := set p | p in files && p[0] == dir && Visible(p);
      ListExists(here);
      var q: seq<Path> :| Lists(q, here);
      return Some(q);
    }

    method ReadFile(path: Path) returns (contents: Option<Bytes>)
      requires Valid()
      modifies this
      ensures Valid() && Undisturbed()
      ensures contents.Some? ==> path in history && contents.value == history[path]
      ensures contents.None? && path in old(files) ==> Harmed()
    {
      Elapse();
      var fails: bool := *;
      if fails { faults := faults + 1; }
      if fails || path !in files { return None; }
      return Some(files[path]);
    }

    /** A failing delete may have had its effect. Behind a retrying agent a failure, and a file that
        is not there, may pass for success. */
    method Delete(path: Path) returns (r: Deleted)
      requires Valid() && path in history
      modifies this
      ensures Valid() && Grew()
      ensures removed == old(removed) || removed == old(removed) + {path}
      ensures r == DeleteFails ==> old(faults) < faults
      ensures r != DeleteFails && Trusted() ==> path !in files
      ensures r == Gone && !retries ==> path in old(files)
      ensures r == NotThere ==> !retries && (path in old(files) ==> Harmed())
    {
      Elapse();
      var fails: bool := *;
      var lost: bool := *;
      var worthRetry: bool := *;
      if fails { faults := faults + 1; }
      var there := path in files;
      if there && (!fails || lost) {
        files, removed := files - {path}, removed + {path};
      }
      if fails {
        r := if retries && !worthRetry then Gone else DeleteFails;
      } else {
        r := if there || retries then Gone else NotThere;
      }
    }
  }

  // Copying

  /** The temporary directory of one tick. */
  class Downloaded {
    var files: map<Path, Bytes>

    constructor ()
      ensures files == map[]
    {
      files := map[];
    }

    method ReadDir(dir: string) returns (paths: Option<seq<Path>>)
      ensures paths.Some? ==> forall p :: p in paths.value <==> p in files && In(p, [dir])
      ensures paths.Some? ==> forall i, j | 0 <= i < j < |paths.value| :: paths.value[i] != paths.value[j]
    {
      var fails: bool := *;
      if fails { return None; }
      var here := set p | p in files && p != [] && p[0] == dir;
      ListExists(here);
      var q: seq<Path> :| Lists(q, here);
      return Some(q);
    }
  }

  predicate In(p: Path, dirs: seq<string>) {
    p != [] && p[0] in dirs
  }

  /** The copies of `paths` were added, in full. */
  ghost predicate Copied(before: map<Path, Bytes>, after: map<Path, Bytes>, paths: seq<Path>,
      history: map<Path, Bytes>)
  {
    && (forall p :: p in after <==> p in before || p in paths)
    && (forall p | p in paths :: p in history && after[p] == history[p])
    && (forall p | p in before && p !in paths :: after[p] == before[p])
  }

  lemma CopiedOneMore(before: map<Path, Bytes>, after: map<Path, Bytes>, paths: seq<Path>, h0: map<Path, Bytes>,
      h1: map<Path, Bytes>, p: Path)
    requires Copied(before, after, paths, h0) && p in h1
    requires forall q | q in h0 :: q in h1 && h1[q] == h0[q]
    ensures Copied(before, after[p := h1[p]], paths + [p], h1)
  {
  }

  /** One file: whether it arrived whole, and whether closing it failed, which stops the rest. */
  method CopyFile(server: Server, local: Downloaded, dir: string, path: Path) returns (whole: bool, stop: bool)
    requires server.Valid() && path != []
    modifies server, local
    ensures server.Valid() && server.Undisturbed()
    ensures whole ==>
        path in server.history && local.files == old(local.files)[LocalPath(dir, path) := server.history[path]]
    ensures !whole && path in old(server.files) ==> server.Harmed()
    ensures stop ==> !whole
  {
    var createFails: bool := *;
    if createFails {
      server.faults := server.faults + 1;
      return false, false;
    }
    local.files := local.files[LocalPath(dir, path) := []];
    var contents := server.ReadFile(path);
    if contents.None? { return false, false; }
    var copied: Bytes := *;
    var copyFails: bool := *;
    local.files := local.files[LocalPath(dir, path) := if copyFails then copied else contents.value];
    stop := *;
    whole := !copyFails && !stop;
    if !whole { server.faults := server.faults + 1; }
  }

  /** Copies every path it can; without an error, all of them in full; an error has a cause. */
  method SaveFilepaths(server: Server, local: Downloaded, dir: string, paths: seq<Path>) returns (ok: bool)
    requires server.Valid() && forall p | p in paths :: p in server.files && |p| == 2 && p[0] == dir
    modifies server, local
    ensures server.Valid() && server.Undisturbed()
    ensures ok ==> Copied(old(local.files), local.files, paths, server.history)
    ensures !ok ==> server.Harmed()
  {
    ok := true;
    for i := 0 to |paths|
      invariant server.Valid() && server.Undisturbed()
      invariant ok ==> Copied(old(local.files), local.files, paths[..i], server.history)
      invariant !server.Harmed() ==> forall p | p in paths :: p in server.files
      invariant !ok ==> server.Harmed()
    {
      ghost var had, history := local.files, server.history;
      assert paths[i] in paths;
      DeletesItselfIffFlat(dir, paths[i]);
      var whole, stop := CopyFile(server, local, dir, paths[i]);
      TakeNext(paths, i);
      if ok && whole { CopiedOneMore(old(local.files), had, paths[..i], history, server.history, paths[i]); }
      ok := ok && whole;
      if stop { return false; }
    }
    assert paths[..|paths|] == paths;
  }

  function Elements(dirs: seq<string>): set<string> {
    set d | d in dirs
  }

  /** What was copied came from the server, whole, and was not gone before. */
  ghost predicate Snapshot(local: map<Path, Bytes>, history: map<Path, Bytes>, dirs: set<string>, gone: set<Path>) {
    forall p | p in local :: p in history && p != [] && p[0] in dirs && local[p] == history[p] && p !in gone
  }

  /** No visible file that was there before is missing, unless others took it. */
  ghost predicate Complete(local: map<Path, Bytes>, dirs: set<string>, earlier: map<Path, Bytes>, taken: set<Path>) {
    forall p | p in earlier && p != [] && p[0] in dirs && Visible(p) :: p in local || p in taken
  }

  /** Everything copied is there still. */
  ghost predicate OnServer(local: map<Path, Bytes>, files: map<Path, Bytes>) {
    forall p | p in local :: p in files
  }

  /** Lists one directory of the server and copies what it shows. */
  method CopyDir(server: Server, local: Downloaded, dir: string, ghost done: set<string>,
                 ghost earlier: map<Path, Bytes>, ghost gone: set<Path>)
    returns (ok: bool)
    requires server.Valid() && forall p | p in earlier :: p in server.files || p in server.taken
    requires Snapshot(local.files, server.history, done, gone) && gone <= server.removed + server.taken
    modifies server, local
    ensures server.Valid() && server.Undisturbed()
    ensures ok ==> Snapshot(local.files, server.history, done + {dir}, gone)
    ensures ok && server.Trusted() && Complete(old(local.files), done, earlier, old(server.taken)) ==>
        Complete(local.files, done + {dir}, earlier, server.taken)
    ensures !ok ==> server.Harmed()
  {
    var paths := server.List(dir);
    if paths.None? { return false; }
    forall p | p in paths.value ensures |p| == 2 && p[0] == dir { assert p in server.history; }
    ok := SaveFilepaths(server, local, dir, paths.value);
  }

  /** Copies the three directories of an agent, in this order, up to the first that fails. */
  method CopyFilesFromRemote(server: Server, dirs: seq<string>) returns (local: Downloaded?)
    requires server.Valid() && |dirs| == 3
    modifies server
    ensures server.Valid() && server.Undisturbed()
    ensures local != null ==>
        fresh(local) && Snapshot(local.files, server.history, Elements(dirs), old(server.removed + server.taken))
    ensures local != null && server.Trusted() ==> Complete(local.files, Elements(dirs), old(server.files), server.taken)
    ensures local == null ==> server.Harmed()
  {
    ghost var earlier, gone := server.files, server.removed + server.taken;
    var setupFails: bool := *;
    if setupFails {
      server.faults := server.faults + 1;
      return null;
    }
    local := new Downloaded();
    var ok := CopyDir(server, local, dirs[0], {}, earlier, gone);
    if !ok { return null; }
    ok := CopyDir(server, local, dirs[1], {dirs[0]}, earlier, gone);
    if !ok { return null; }
    ok := CopyDir(server, local, dirs[2], {dirs[0], dirs[1]}, earlier, gone);
    if !ok { return null; }
    ThreeDirectories(dirs);
  }

  lemma ThreeDirectories(dirs: seq<string>)
    requires |dirs| == 3
    ensures Elements(dirs) == {dirs[0], dirs[1]} + {dirs[2]}
  {
  }

  // Processing

  datatype Parsed = Good | HeaderMissing | Broken

  datatype Handling = Handling(tick: nat, processor: nat, path: Path, contents: Bytes)
  datatype Record = Record(tick: nat, path: Path, contents: Bytes)

  predicate Parses(parse: Bytes -> Parsed, contents: Bytes) {
    parse(TrimSpace(contents)) != Broken
  }

  /** The processors and the audit trail: `offered` logs what every processor was given, `handled`
      what it took without an error, `audited` what was saved, `faults` counts their errors. */
  class Surroundings {
    const processors: nat
    const audits: bool
    ghost var tick: nat
    ghost var offered: set<Handling>
    ghost var handled: set<Handling>
    ghost var audited: set<Record>
    ghost var faults: nat

    constructor (processors: nat, audits: bool)
      ensures this.processors == processors && this.audits == audits
    {
      this.processors, this.audits := processors, audits;
      tick, offered, handled, audited, faults := 0, {}, {}, {}, 0;
    }

    twostate predicate Grew()
      reads this
    {
      && tick == old(tick) && old(faults) <= faults
      && old(offered) <= offered && old(handled) <= handled && old(audited) <= audited
    }

    method Handle(i: nat, path: Path, contents: Bytes) returns (ok: bool)
      modifies this
      ensures Grew() && audited == old(audited)
      ensures Handling(tick, i, path, contents) in offered
      ensures if ok then Handling(tick, i, path, contents) in handled else old(faults) < faults
    {
      ok := *;
      offered := offered + {Handling(tick, i, path, contents)};
      if ok {
        handled := handled + {Handling(tick, i, path, contents)};
      } else {
        faults := faults + 1;
      }
    }

    /** Every processor gets the file, whatever the ones before made of it. */
    method HandleAll(path: Path, contents: Bytes) returns (ok: bool)
      modifies this
      ensures Grew() && audited == old(audited)
      ensures forall i: nat | i < processors :: Handling(tick, i, path, contents) in offered
      ensures ok ==> forall i: nat | i < processors :: Handling(tick, i, path, contents) in handled
      ensures !ok ==> old(faults) < faults
    {
      ok := true;
      for i := 0 to processors
        invariant Grew() && audited == old(audited)
        invariant forall j: nat | j < i :: Handling(tick, j, path, contents) in offered
        invariant ok ==> forall j: nat | j < i :: Handling(tick, j, path, contents) in handled
        invariant !ok ==> old(faults) < faults
      {
        var fine := Handle(i, path, contents);
        ok := ok && fine;
      }
    }

    /** Nothing is saved for an empty file, and that is no error. */
    method Save(path: Path, contents: Bytes) returns (ok: bool)
      modifies this
      ensures Grew() && (ok && contents != [] ==> Record(tick, path, contents) in audited)
      ensures !ok ==> old(faults) < faults && contents != []
    {
      if |contents| == 0 { return true; }
      ok := *;
      if ok {
        audited := audited + {Record(tick, path, contents)};
      } else {
        faults := faults + 1;
      }
    }

    /** The file was taken by every processor in this tick, and saved if it should be. */
    ghost predicate Processed(path: Path, contents: Bytes)
      reads this
    {
      && (forall i: nat | i < processors :: Handling(tick, i, path, TrimSpace(contents)) in handled)
      && (audits && TrimSpace(contents) != [] ==> Record(tick, path, TrimSpace(contents)) in audited)
    }

    /** An error has one of two causes: the file does not parse, or something failed. */
    method ProcessFile(path: Path, contents: Bytes, parse: Bytes -> Parsed) returns (ok: bool)
      modifies this
      ensures Grew()
      ensures ok ==> Parses(parse, contents) && Processed(path, contents)
      ensures ok ==> parse(TrimSpace(contents)) == Good || parse(TrimSpace(contents)) == HeaderMissing
      ensures !ok && Parses(parse, contents) ==> old(faults) < faults
      ensures !ok && (parse(TrimSpace(contents)) == Good || parse(TrimSpace(contents)) == HeaderMissing) ==>
          old(faults) < faults
    {
      var readFails: bool := *;
      if readFails {
        faults := faults + 1;
        return false;
      }
      var bs := TrimSpace(contents);
      if parse(bs) == Broken { return false; }
      if audits {
        var saved := Save(path, bs);
        if !saved { return false; }
      }
      ok := HandleAll(path, bs);
    }
  }

  ghost predicate AllParse(parse: Bytes -> Parsed, files: map<Path, Bytes>, dirs: seq<string>) {
    forall p | p in files && In(p, dirs) :: Parses(parse, files[p])
  }

  /** Processes every file of one local directory, whatever happens to the ones before. */
  method ProcessDir(sur: Surroundings, local: Downloaded, dir: string, parse: Bytes -> Parsed) returns (ok: bool)
    modifies sur
    ensures sur.Grew()
    ensures ok ==> AllParse(parse, local.files, [dir])
    ensures ok ==> forall p | p in local.files && In(p, [dir]) :: sur.Processed(p, local.files[p])
    ensures !ok && AllParse(parse, local.files, [dir]) ==> old(sur.faults) < sur.faults
  {
    var paths := local.ReadDir(dir);
    if paths.None? {
      sur.faults := sur.faults + 1;
      return false;
    }
    ok := true;
    for i := 0 to |paths.value|
      invariant sur.Grew()
      invariant ok ==> forall j | 0 <= j < i :: Parses(parse, local.files[paths.value[j]])
      invariant ok ==> forall j | 0 <= j < i :: sur.Processed(paths.value[j], local.files[paths.value[j]])
      invariant !ok && AllParse(parse, local.files, [dir]) ==> old(sur.faults) < sur.faults
    {
      assert paths.value[i] in paths.value;
      var fine := sur.ProcessFile(paths.value[i], local.files[paths.value[i]], parse);
      ok := ok && fine;
    }
  }

  method ProcessFiles(sur: Surroundings, local: Downloaded, dirs: seq<string>, parse: Bytes -> Parsed)
      returns (ok: bool)
    modifies sur
    ensures sur.Grew()
    ensures ok ==> AllParse(parse, local.files, dirs)
    ensures ok ==> forall p | p in local.files && In(p, dirs) :: sur.Processed(p, local.files[p])
    ensures !ok && AllParse(parse, local.files, dirs) ==> old(sur.faults) < sur.faults
  {
    ok := true;
    for d := 0 to |dirs|
      invariant sur.Grew()
      invariant ok ==> AllParse(parse, local.files, dirs[..d])
      invariant ok ==> forall p | p in local.files && In(p, dirs[..d]) :: sur.Processed(p, local.files[p])
      invariant !ok && AllParse(parse, local.files, dirs) ==> old(sur.faults) < sur.faults
    {
      TakeNext(dirs, d);
      var fine := ProcessDir(sur, local, dirs[d], parse);
      ok := ok && fine;
    }
    assert dirs[..|dirs|] == dirs;
  }

  // Deleting on the server

  /** Only copies' remote files were deleted, since `before`. */
  ghost predicate OnlyCopied(before: set<Path>, after: set<Path>, copied: map<Path, Bytes>) {
    forall p | p in after :: p in before || p in copied
  }

  /** Deletes the remote file of every local one; one that is gone already is no error. */
  method DeleteFilesOnRemote(server: Server, local: Downloaded, dir: string) returns (ok: bool)
    requires server.Valid() && forall p | p in local.files :: p in server.history
    modifies server
    ensures server.Valid() && server.Grew() && OnlyCopied(old(server.removed), server.removed, local.files)
    ensures ok && server.Trusted() ==> forall p | p in local.files && In(p, [dir]) :: p !in server.files
    ensures !ok ==> old(server.faults) < server.faults
  {
    var paths := local.ReadDir(dir);
    if paths.None? {
      server.faults := server.faults + 1;
      return false;
    }
    ok := DeleteEach(server, paths.value);
  }

  /** The loop over the local files. */
  method DeleteEach(server: Server, paths: seq<Path>) returns (ok: bool)
    requires server.Valid() && forall p | p in paths :: p in server.history
    modifies server
    ensures server.Valid() && server.Grew()
    ensures forall p | p in server.removed :: p in old(server.removed) || p in paths
    ensures ok && server.Trusted() ==> forall p | p in paths :: p !in server.files
    ensures !ok ==> old(server.faults) < server.faults
  {
    ok := true;
    for i := 0 to |paths|
      invariant server.Valid() && server.Grew()
      invariant forall p | p in server.removed :: p in old(server.removed) || p in paths
      invariant ok && server.Trusted() ==> forall j | 0 <= j < i :: paths[j] !in server.files
      invariant !ok ==> old(server.faults) < server.faults
    {
      var r := server.Delete(paths[i]);
      ok := ok && r != DeleteFails;
    }
  }

  method Cleanup(server: Server, local: Downloaded, dirs: seq<string>) returns (ok: bool)
    requires server.Valid() && forall p | p in local.files :: p in server.history
    modifies server
    ensures server.Valid() && server.Grew() && OnlyCopied(old(server.removed), server.removed, local.files)
    ensures ok && server.Trusted() ==> forall p | p in local.files && In(p, dirs) :: p !in server.files
    ensures !ok ==> old(server.faults) < server.faults
  {
    ok := true;
    for d := 0 to |dirs|
      invariant server.Valid() && server.Grew() && OnlyCopied(old(server.removed), server.removed, local.files)
      invariant ok && server.Trusted() ==> forall p | p in local.files && In(p, dirs[..d]) :: p !in server.files
      invariant !ok ==> old(server.faults) < server.faults
    {
      TakeNext(dirs, d);
      var fine := DeleteFilesOnRemote(server, local, dirs[d]);
      ok := ok && fine;
    }
    assert dirs[..|dirs|] == dirs;
  }

  /** Only remote files of empty copies in these directories were deleted, since `before`. */
  ghost predicate OnlyEmpty(before: set<Path>, after: set<Path>, copied: map<Path, Bytes>, dirs: seq<string>) {
    forall p | p in after :: p in before || (p in copied && copied[p] == [] && In(p, dirs))
  }

  /** Every empty file of the directories was still on the server. */
  ghost predicate EmptyOnesThere(files: map<Path, Bytes>, dirs: seq<string>, there: map<Path, Bytes>) {
    forall p | p in files && In(p, dirs) && files[p] == [] :: p in there
  }

  /** Deletes the remote file if the local one is empty; here one that is gone already is an error. */
  method DeleteIfEmpty(server: Server, path: Path, contents: Bytes) returns (ok: bool)
    requires server.Valid() && path in server.history
    modifies server
    ensures server.Valid() && server.Grew()
    ensures server.removed == old(server.removed) || (contents == [] && server.removed == old(server.removed) + {path})
    ensures ok && contents == [] && !server.retries ==> path in old(server.files)
    ensures !ok ==> contents == []
    ensures !ok && (server.retries || path in old(server.files)) ==> server.Harmed()
  {
    if |contents| != 0 { return true; }
    var r := server.Delete(path);
    ok := r == Gone;
  }

  method DeleteEmptyFiles(server: Server, local: Downloaded, dir: string) returns (ok: bool)
    requires server.Valid() && forall p | p in local.files :: p in server.history
    modifies server
    ensures server.Valid() && server.Grew() && OnlyEmpty(old(server.removed), server.removed, local.files, [dir])
    ensures ok && !server.retries ==> EmptyOnesThere(local.files, [dir], old(server.files))
    ensures !ok && (server.retries || EmptyOnesThere(local.files, [dir], old(server.files))) ==>
        server.Harmed()
  {
    var paths := local.ReadDir(dir);
    if paths.None? {
      server.faults := server.faults + 1;
      return false;
    }
    ok := DeleteEmptyOnes(server, local.files, paths.value);
  }

  ghost predicate EmptyThere(copied: map<Path, Bytes>, paths: seq<Path>, there: map<Path, Bytes>) {
    forall p | p in paths && p in copied && copied[p] == [] :: p in there
  }

  /** What is there of `paths` was there before; if nothing was harmed, it is just as much. */
  ghost predicate Remain(paths: seq<Path>, before: map<Path, Bytes>, now: map<Path, Bytes>, harmed: bool) {
    forall p | p in paths :: (p in now ==> p in before) && (p in before ==> p in now || harmed)
  }

  /** The loop over the local files. */
  method DeleteEmptyOnes(server: Server, copied: map<Path, Bytes>, paths: seq<Path>) returns (ok: bool)
    requires server.Valid() && forall p | p in paths :: p in copied && p in server.history
    requires forall i, j | 0 <= i < j < |paths| :: paths[i] != paths[j]
    modifies server
    ensures server.Valid() && server.Grew()
    ensures forall p | p in server.removed :: p in old(server.removed) || (p in paths && copied[p] == [])
    ensures ok && !server.retries ==> EmptyThere(copied, paths, old(server.files))
    ensures !ok && (server.retries || EmptyThere(copied, paths, old(server.files))) ==> server.Harmed()
  {
    ok := true;
    ghost var files := server.files;
    for i := 0 to |paths|
      invariant server.Valid() && server.Grew()
      invariant forall p | p in server.removed :: p in old(server.removed) || (p in paths && copied[p] == [])
      invariant Remain(paths[i..], files, server.files, server.Harmed())
      invariant ok && !server.retries ==> EmptyThere(copied, paths[..i], files)
      invariant !ok && (server.retries || EmptyThere(copied, paths[..i], files)) ==> server.Harmed()
    {
      NextPath(paths, i);
      var fine := DeleteIfEmpty(server, paths[i], copied[paths[i]]);
      ok := ok && fine;
    }
    assert paths[..|paths|] == paths;
  }

  lemma NextPath(paths: seq<Path>, i: nat)
    requires i < |paths| && forall i, j | 0 <= i < j < |paths| :: paths[i] != paths[j]
    ensures paths[..i + 1] == paths[..i] + [paths[i]] && paths[i] in paths[i..] && paths[i] in paths
    ensures forall p | p in paths[i + 1..] :: p in paths[i..] && p != paths[i]
  {
  }

  method CleanupEmptyFiles(server: Server, local: Downloaded, dirs: seq<string>) returns (ok: bool)
    requires server.Valid() && forall p | p in local.files :: p in server.history
    requires forall i, j | 0 <= i < j < |dirs| :: dirs[i] != dirs[j]
    modifies server
    ensures server.Valid() && server.Grew() && OnlyEmpty(old(server.removed), server.removed, local.files, dirs)
    ensures ok && !server.retries ==> EmptyOnesThere(local.files, dirs, old(server.files))
    ensures !ok && (server.retries || EmptyOnesThere(local.files, dirs, old(server.files))) ==> server.Harmed()
  {
    ok := true;
    ghost var files, there := server.files, EmptyOnesThere(local.files, dirs, server.files);
    ghost var copied, removed, taken := local.files, server.removed, server.taken;
    for d := 0 to |dirs|
      invariant server.Valid() && server.Grew()
      invariant OnlyEmpty(old(server.removed), server.removed, copied, dirs[..d])
      invariant ok && !server.retries ==> EmptyOnesThere(copied, dirs[..d], files)
      invariant !ok && (server.retries || there) ==> server.Harmed()
    {
      assert dirs[d] in dirs && dirs[d] !in dirs[..d];
      StillThere(copied, dirs, dirs[..d], dirs[d], files, server.files, removed, server.removed, taken,
                 server.taken);
      ghost var before := server.removed;
      var fine := DeleteEmptyFiles(server, local, dirs[d]);
      OneMoreDirectory(copied, dirs, d, files, removed, before, server.removed);
      ok := ok && fine;
    }
    assert dirs[..|dirs|] == dirs;
  }

  lemma OneMoreDirectory(copied: map<Path, Bytes>, dirs: seq<string>, d: nat, files: map<Path, Bytes>,
                         removed0: set<Path>, removed1: set<Path>, removed2: set<Path>)
    requires d < |dirs|
    requires OnlyEmpty(removed0, removed1, copied, dirs[..d]) && OnlyEmpty(removed1, removed2, copied, [dirs[d]])
    ensures OnlyEmpty(removed0, removed2, copied, dirs[..d + 1])
    ensures EmptyOnesThere(copied, dirs[..d], files) && EmptyOnesThere(copied, [dirs[d]], files) ==>
            EmptyOnesThere(copied, dirs[..d + 1], files)
  {
    TakeNext(dirs, d);
  }

  /** Deleting in the directories done so far leaves this one as it was, but for what others take. */
  lemma StillThere(local: map<Path, Bytes>, dirs: seq<string>, done: seq<string>, dir: string,
                   before: map<Path, Bytes>, now: map<Path, Bytes>, removed0: set<Path>, removed1: set<Path>,
                   taken0: set<Path>, taken1: set<Path>)
    requires dir in dirs && dir !in done && OnlyEmpty(removed0, removed1, local, done)
    requires removed0 <= removed1 && taken0 <= taken1
    requires forall p | p in local :: p in before <==> p !in removed0 && p !in taken0
    requires forall p | p in local :: p in now <==> p !in removed1 && p !in taken1
    ensures EmptyOnesThere(local, [dir], now) ==> EmptyOnesThere(local, [dir], before)
    ensures EmptyOnesThere(local, dirs, before) ==> EmptyOnesThere(local, [dir], now) || taken0 != taken1
  {
  }

  // The tick

  datatype Config = Config(dirs: seq<string>, keepRemoteFiles: bool, removeZeroByteFiles: bool)

  predicate ProperConfig(config: Config) {
    |config.dirs| == 3 && forall i, j | 0 <= i < j < 3 :: config.dirs[i] != config.dirs[j]
  }

  ghost predicate NoneEmpty(files: map<Path, Bytes>) {
    forall p | p in files :: files[p] != []
  }

  /** Without a fault, and if nobody else removes a file, it fails exactly if both deletions are on, an
      empty file was copied and the agent does not retry: the second deletion finds it gone. */
  method DeleteRemote(server: Server, local: Downloaded, config: Config) returns (ok: bool)
    requires server.Valid() && ProperConfig(config)
    requires forall p | p in local.files :: p in server.history && In(p, config.dirs)
    modifies server
    ensures server.Valid() && server.Grew() && OnlyCopied(old(server.removed), server.removed, local.files)
    ensures config.keepRemoteFiles ==> OnlyEmpty(old(server.removed), server.removed, local.files, config.dirs)
    ensures ok && !config.keepRemoteFiles && server.Trusted() ==> forall p | p in local.files :: p !in server.files
    ensures !server.Harmed() && OnServer(local.files, old(server.files)) ==>
              (ok <==>
                  server.retries || config.keepRemoteFiles || !config.removeZeroByteFiles || NoneEmpty(local.files))
  {
    ok := true;
    if !config.keepRemoteFiles {
      ok := Cleanup(server, local, config.dirs);
      if !ok { return; }
    }
    if config.removeZeroByteFiles {
      ok := CleanupEmptyFiles(server, local, config.dirs);
    }
  }

  /** What a tick does with its copies: set up the audit trail, process, and delete what it should. */
  method HandleCopies(server: Server, sur: Surroundings, local: Downloaded, config: Config, parse: Bytes -> Parsed)
    returns (ok: bool)
    requires server.Valid() && ProperConfig(config)
    requires forall p | p in local.files :: p in server.history && In(p, config.dirs)
    modifies server, sur
    ensures server.Valid() && server.Grew() && sur.Grew()
    ensures forall p | p in server.removed && p !in old(server.removed) :: p in local.files
              && sur.Processed(p, local.files[p]) && (config.keepRemoteFiles ==> local.files[p] == [])
    ensures ok ==> forall p | p in local.files :: sur.Processed(p, local.files[p])
    ensures ok && server.Trusted() && !config.keepRemoteFiles ==> forall p | p in local.files :: p !in server.files
    ensures !server.Harmed() && sur.faults == old(sur.faults) && OnServer(local.files, old(server.files)) ==>
              (ok <==> AllParse(parse, local.files, config.dirs)
                       && (server.retries || config.keepRemoteFiles || !config.removeZeroByteFiles ||
                           NoneEmpty(local.files)))
  {
    var auditFails: bool := *;
    if auditFails {
      sur.faults := sur.faults + 1;
      return false;
    }
    ok := ProcessFiles(sur, local, config.dirs, parse);
    if !ok { return; }
    ok := DeleteRemote(server, local, config);
  }

  /** A tick loses nothing: whatever it deletes on the server it has copied whole and handed to every
      processor without an error, and saved if it should be, all in this tick, whether or not it fails,
      whatever the agent hides and whatever others remove. If it succeeds, then, unless a retrying agent has
      hidden a fault, all visible files that were there when it began and that nobody else took were
      handled, and are gone if it is to delete. If nothing goes wrong and nobody else removes a file it
      succeeds, unless a file does not parse or an empty one is to be deleted twice by an agent that does
      not retry. */
  method Tick(server: Server, sur: Surroundings, config: Config, parse: Bytes -> Parsed)
    returns (ok: bool, ghost copied: map<Path, Bytes>)
    requires server.Valid() && ProperConfig(config)
    modifies server, sur
    ensures server.Valid() && server.Grew() && sur.tick == old(sur.tick) + 1
    ensures forall p | p in server.removed && p !in old(server.removed) ::
              && p in server.history && In(p, config.dirs) && sur.Processed(p, server.history[p])
              && (config.keepRemoteFiles ==> server.history[p] == [])
    ensures ok && server.Trusted() ==>
              forall p | p in old(server.files) && In(p, config.dirs) && Visible(p) && p !in server.taken ::
              && p in server.history && sur.Processed(p, server.history[p])
              && (!config.keepRemoteFiles ==> p !in server.files)
    ensures !server.Harmed() && sur.faults == old(sur.faults) ==>
              && (forall p | p in old(server.files) && In(p, config.dirs) && Visible(p) ::
                    p in copied && copied[p] == old(server.files)[p])
              && (ok <==> AllParse(parse, copied, config.dirs)
                          && (server.retries || config.keepRemoteFiles || !config.removeZeroByteFiles ||
                              NoneEmpty(copied)))
  {
    sur.tick := sur.tick + 1;
    copied := map[];
    var agentFails: bool := *;
    if agentFails {
      server.faults := server.faults + 1;
      ok := false;
      return;
    }
    var local := CopyFilesFromRemote(server, config.dirs);
    if local == null {
      ok := false;
      return;
    }
    copied := local.files;
    ok := HandleCopies(server, sur, local, config, parse);
  }
}
