/** What requests and cutoffs of a shard do to the storage tree (internal/pipeline/merging.go),
    and that on one shard's directories they do what the Pending module says. */
module Cutoff {
  import opened Text
  import opened Calendar
  import opened Disk
  import opened Paths
  import opened Pending

  const MERGABLE := "mergable"
  const UPLOADED := "uploaded"

  function PendingDir(shard: string): Path { [MERGABLE, shard] }

  /** The name a cutoff gives the isolated directory, from the local time to the second. */
  function DirName(shard: string, at: Civil): (n: string)
    requires Valid(at)
    ensures |n| >= 16 && n != MERGABLE
  {
    shard + "-" + Format(at)
  }

  /** Directory names determine the shard and the second. */
  lemma DirNamesDiffer(s1: string, at1: Civil, s2: string, at2: Civil)
    requires Valid(at1) && Valid(at2)
    ensures DirName(s1, at1) == DirName(s2, at2) <==> s1 == s2 && at1 == at2
  {
    var a, b := DirName(s1, at1), DirName(s2, at2);
    if a == b {
      assert |s1| == |s2|;
      assert a[..|s1|] == s1 && b[..|s2|] == s2;
      assert a[|s1| + 1..] == Format(at1) && b[|s2| + 1..] == Format(at2);
      ParseFormat(at1);
      ParseFormat(at2);
    }
  }

  /** For one shard, string order on directory names is the order of time. */
  lemma DirNamesOrder(shard: string, a: Civil, b: Civil)
    requires Valid(a) && Valid(b)
    ensures Less(DirName(shard, a), DirName(shard, b)) <==> Earlier(a, b)
    ensures Less(DirName(shard, a), DirName(shard, b)) <==> Seconds(a) < Seconds(b)
  {
    LessAfterPrefix(shard + "-", Format(a), Format(b));
    FormatOrder(a, b);
    SecondsOrder(a, b);
  }

  // Requests

  /** Where the file of a request goes: the ID may have slashes, so it may lead out of the shard. */
  function PathOf(shard: string, x: string, ext: string): (p: Path)
    ensures p != []
  {
    Folder(PendingDir(shard), x) + [Base(x) + ext]
  }

  /** This is what joining the pending directory and the name gives. */
  lemma PathOfIsJoin(shard: string, x: string, ext: string)
    requires '/' !in ext && |ext| > 2
    ensures PathOf(shard, x, ext) == Join(PendingDir(shard), x + ext)
  {
    JoinExtended(PendingDir(shard), x, ext);
  }

  function AchPath(shard: string, id: string): Path { PathOf(shard, Stem(id), ".ach") }
  function JsonPath(shard: string, id: string): Path { PathOf(shard, Stem(id), ".json") }
  function CanceledPath(shard: string, id: string): Path { PathOf(shard, Stem(id), ".ach" + ".canceled") }

  /** The file X.ach lies under that name in the pending directory of its shard exactly if X has
      no slash. */
  lemma InPlaceIffFlat(shard: string, x: string)
    ensures PathOf(shard, x, ".ach") == PendingDir(shard) + [AchName(x)] <==> '/' !in x
  {
    if '/' !in x {
      FlatPaths(shard, x);
    } else {
      var p, q := PathOf(shard, x, ".ach"), PendingDir(shard) + [AchName(x)];
      assert p[|p| - 1] == Base(x) + ".ach" && q[|q| - 1] == AchName(x);
      assert '/' in AchName(x) && '/' !in Base(x) + ".ach";
    }
  }

  lemma Reassociate(a: string, b: string, c: string)
    ensures a + (b + c) == a + b + c
  {
  }

  lemma FlatPaths(shard: string, x: string)
    requires '/' !in x
    ensures PathOf(shard, x, ".ach") == PendingDir(shard) + [AchName(x)]
    ensures PathOf(shard, x, ".json") == PendingDir(shard) + [JsonName(x)]
    ensures PathOf(shard, x, ".ach" + ".canceled") == PendingDir(shard) + [CanceledName(x)]
  {
    FoldersOfFlat(x);
    Reassociate(x, ".ach", ".canceled");
  }

  function XferTree(t: Tree, shard: string, id: string, data: Bytes, opts: Option<Bytes>): Result {
    var written := t.WriteFile(AchPath(shard, id), data);
    if !written.ok || opts.None? then written
    else Result(written.tree.WriteFile(JsonPath(shard, id), opts.value).tree, true)
  }

  function CancelTree(t: Tree, shard: string, id: string): Result {
    t.ReplaceFile(AchPath(shard, id), CanceledPath(shard, id))
  }

  /** The cancel response is positive if either file opened and the replacement went through. */
  predicate CancelSuccessful(t: Tree, shard: string, id: string) {
    && (t.Opens(AchPath(shard, id)) || t.Opens(CanceledPath(shard, id)))
    && CancelTree(t, shard, id).ok
  }

  function RequestTree(t: Tree, shard: string, r: Request): Result {
    match r
    case Xfer(id, data, opts) => XferTree(t, shard, id, data, opts)
    case Cancel(id) => CancelTree(t, shard, id)
  }

  // Cutoffs

  function IsolateTree(t: Tree, shard: string, at: Civil): Result
    requires Valid(at)
  {
    t.ReplaceDir(PendingDir(shard), [DirName(shard, at)])
  }

  /** A merged file as it is saved beside its inputs. */
  datatype Saved = Saved(name: string, data: Bytes, opts: Option<Bytes>)

  /** `None` stands for a merged file that could not be rendered. */
  function SaveTree(t: Tree, dir: string, file: Option<Saved>): Result {
    if file.None? then Result(t, false)
    else
      var written := t.WriteFile([dir, UPLOADED, AchName(file.value.name)], file.value.data);
      if !written.ok || file.value.opts.None? then written
      else written.tree.WriteFile([dir, UPLOADED, JsonName(file.value.name)], file.value.opts.value)
  }

  /** Every file is tried, whatever happened to the one before. */
  function SaveAllTree(t: Tree, dir: string, files: seq<Option<Saved>>): Result {
    if files == [] then Result(t, true)
    else
      var before := SaveAllTree(t, dir, files[..|files| - 1]);
      var last := SaveTree(before.tree, dir, files[|files| - 1]);
      Result(last.tree, before.ok && last.ok)
  }

  /** A cutoff goes on if the isolation went through and its directory can be listed. */
  predicate Isolated(isolated: Result, dir: string) {
    isolated.ok && [dir] in isolated.tree.dirs
  }

  /** The part of a cutoff after the isolation. */
  function FinishTree(isolated: Tree, dir: string, agentFound: bool, files: seq<Option<Saved>>): Tree {
    var kept := if files == [] then isolated.RmdirAll([dir]) else isolated;
    var made := kept.MkdirAll([dir, UPLOADED]).tree;
    if agentFound then SaveAllTree(made, dir, files).tree else made
  }

  /** The tree after a cutoff. No upload result appears in it: the merged files are saved under
      uploaded/ before the first upload. */
  function CutoffTree(t: Tree, shard: string, at: Civil, agentFound: bool, files: seq<Option<Saved>>): Tree
    requires Valid(at)
  {
    var isolated, dir := IsolateTree(t, shard, at), DirName(shard, at);
    if Isolated(isolated, dir) then FinishTree(isolated.tree, dir, agentFound, files) else isolated.tree
  }

  // The shape of the storage root: pending files two levels down, isolated files one level down,
  // merged files beside them.

  predicate Placed(p: Path) {
    (|p| == 3 && (p[0] == MERGABLE || p[1] == UPLOADED)) || (|p| == 2 && p[0] != MERGABLE)
  }

  ghost predicate Shape(t: Tree) {
    && (forall p | p in t.files :: Placed(p))
    && (forall d | d in t.dirs && |d| >= 1 && d[0] == MERGABLE :: |d| <= 2)
  }

  ghost predicate Layout(t: Tree) {
    IsTree(t) && Shape(t)
  }

  /** The same files everywhere but below `root`. */
  ghost predicate SameOutside(t: Tree, u: Tree, root: Path) {
    forall p: Path | !(root <= p) ::
      && (p in u.files <==> p in t.files)
      && (p in t.files ==> u.files[p] == t.files[p])
  }

  lemma PrefixOfLonger(root: Path, d: Path, n: string)
    ensures root <= d + [n] <==> root <= d || root == d + [n]
  {
    if root <= d + [n] && |root| <= |d| {
      assert root == (d + [n])[..|root|];
    }
  }

  lemma FilesOutside(t: Tree, u: Tree, root: Path, d: Path)
    requires SameOutside(t, u, root) && !(root <= d) && forall n :: d + [n] != root
    ensures u.FilesIn(d) == t.FilesIn(d)
  {
    forall n ensures !(root <= d + [n]) { PrefixOfLonger(root, d, n); }
  }

  /** The pending directory of a shard with its two ancestors. */
  function PendingDirs(shard: string): set<Path> {
    {[], [MERGABLE], PendingDir(shard)}
  }

  lemma PendingReady(t: Tree, shard: string)
    requires Shape(t)
    ensures t.MkdirAll(PendingDir(shard)) == Result(t.(dirs := t.dirs + PendingDirs(shard)), true)
    ensures Shape(t.(dirs := t.dirs + PendingDirs(shard)))
  {
    var d := PendingDir(shard);
    assert d[..0] == [] && d[..1] == [MERGABLE] && d[..2] == d;
    assert forall i | 0 <= i <= |d| :: d[..i] !in t.files;
    forall p | p in Ancestors(d) ensures p in PendingDirs(shard) {
      var i :| 0 <= i <= |d| && p == d[..i];
      assert i == 0 || i == 1 || i == 2;
    }
    assert Ancestors(d) == PendingDirs(shard);
  }

  lemma FilesAfterPut(t: Tree, dirs: set<Path>, d: Path, n: string, data: Bytes)
    ensures Tree(t.files[d + [n] := data], dirs).FilesIn(d) == t.FilesIn(d)[n := data]
  {
    assert forall m :: (d + [m])[|d|] == m;
  }

  lemma FilesAfterRemove(t: Tree, dirs: set<Path>, d: Path, n: string)
    ensures Tree(t.files - {d + [n]}, dirs).FilesIn(d) == t.FilesIn(d) - {n}
  {
    assert forall m :: (d + [m])[|d|] == m;
  }

  /** What writing one file into the pending directory leaves. */
  ghost function PutTree(t: Tree, shard: string, n: string, data: Bytes): Tree {
    Tree(t.files[PendingDir(shard) + [n] := data], t.dirs + PendingDirs(shard))
  }

  lemma PutExact(t: Tree, shard: string, n: string, data: Bytes)
    requires Layout(t)
    ensures t.WriteFile(PendingDir(shard) + [n], data) == Result(PutTree(t, shard, n, data), true)
    ensures Layout(PutTree(t, shard, n, data))
  {
    var d := PendingDir(shard);
    assert Parent(d + [n]) == d;
    PendingReady(t, shard);
    WriteFileKeepsTree(t, d + [n], data);
    assert |d + [n]| == 3;
  }

  /** `u` is `t` with the pending directory of the shard made to hold `files`. */
  ghost predicate PendingBecomes(t: Tree, u: Tree, shard: string, files: Dir) {
    && Layout(u)
    && SameOutside(t, u, PendingDir(shard))
    && u.dirs == t.dirs + PendingDirs(shard)
    && u.FilesIn(PendingDir(shard)) == files
  }

  lemma PutRefines(t: Tree, shard: string, n: string, data: Bytes)
    requires Layout(t)
    ensures PendingBecomes(t, PutTree(t, shard, n, data), shard, t.FilesIn(PendingDir(shard))[n := data])
  {
    PutExact(t, shard, n, data);
    FilesAfterPut(t, t.dirs + PendingDirs(shard), PendingDir(shard), n, data);
  }

  lemma PendingBecomesTwice(t: Tree, u: Tree, v: Tree, shard: string, d1: Dir, d2: Dir)
    requires PendingBecomes(t, u, shard, d1) && PendingBecomes(u, v, shard, d2)
    ensures PendingBecomes(t, v, shard, d2)
  {
  }

  /** What queueing leaves. */
  ghost function QueuedTree(t: Tree, shard: string, id: string, data: Bytes, opts: Option<Bytes>): Tree {
    var u := PutTree(t, shard, AchName(Stem(id)), data);
    if opts.None? then u else PutTree(u, shard, JsonName(Stem(id)), opts.value)
  }

  lemma XferExact(t: Tree, shard: string, id: string, data: Bytes, opts: Option<Bytes>)
    requires Layout(t) && '/' !in id
    ensures XferTree(t, shard, id, data, opts) == Result(QueuedTree(t, shard, id, data, opts), true)
  {
    FlatStem(id);
    FlatPaths(shard, Stem(id));
    PutExact(t, shard, AchName(Stem(id)), data);
    if opts.Some? {
      PutExact(PutTree(t, shard, AchName(Stem(id)), data), shard, JsonName(Stem(id)), opts.value);
    }
  }

  lemma QueuedTreeRefines(t: Tree, shard: string, id: string, data: Bytes, opts: Option<Bytes>)
    requires Layout(t)
    ensures PendingBecomes(t, QueuedTree(t, shard, id, data, opts), shard,
                           Queued(t.FilesIn(PendingDir(shard)), id, data, opts))
  {
    var a, j, before := AchName(Stem(id)), JsonName(Stem(id)), t.FilesIn(PendingDir(shard));
    PutRefines(t, shard, a, data);
    if opts.Some? {
      var u := PutTree(t, shard, a, data);
      PutRefines(u, shard, j, opts.value);
      PendingBecomesTwice(t, u, PutTree(u, shard, j, opts.value), shard, before[a := data],
          before[a := data][j := opts.value]);
    }
  }

  /** Queueing always succeeds and acts on the pending directory as Pending.Queued does. */
  lemma XferRefines(t: Tree, shard: ShardName, id: string, data: Bytes, opts: Option<Bytes>)
    requires Layout(t) && '/' !in id
    ensures Refines(t, XferTree(t, shard, id, data, opts), shard, Xfer(id, data, opts))
  {
    XferExact(t, shard, id, data, opts);
    QueuedTreeRefines(t, shard, id, data, opts);
  }

  ghost predicate Refines(t: Tree, r: Result, shard: string, q: Request) {
    r.ok && PendingBecomes(t, r.tree, shard, Handle(t.FilesIn(PendingDir(shard)), q))
  }

  /** What a cancel leaves. */
  ghost function CanceledTree(t: Tree, shard: string, id: string): Tree {
    var src, dst := PendingDir(shard) + [AchName(Stem(id))], PendingDir(shard) + [CanceledName(Stem(id))];
    Tree(if src in t.files then (t.files - {src})[dst := t.files[src]] else t.files[dst := []],
         t.dirs + PendingDirs(shard))
  }

  lemma CancelExact(t: Tree, shard: string, id: string)
    requires Layout(t) && '/' !in id
    ensures CancelTree(t, shard, id) == Result(CanceledTree(t, shard, id), true)
    ensures Layout(CanceledTree(t, shard, id))
  {
    var d := PendingDir(shard);
    var src, dst := d + [AchName(Stem(id))], d + [CanceledName(Stem(id))];
    FlatStem(id);
    FlatPaths(shard, Stem(id));
    assert Parent(dst) == d && |src| == |dst| == 3 && src[0] == dst[0] == MERGABLE;
    PendingReady(t, shard);
    ReplaceFileKeepsTree(t, src, dst);
    var made := t.(dirs := t.dirs + PendingDirs(shard));
    assert src !in made.dirs && dst !in made.dirs;
    if src !in made.files {
      assert !made.Blocked(src) by {
        assert forall i | 0 <= i <= 3 :: src[..i] !in made.files by { assert src[..3] == src; }
      }
    }
  }

  /** Canceling always goes through and acts on the pending directory as Pending.Canceled does. */
  lemma CancelRefines(t: Tree, shard: ShardName, id: string)
    requires Layout(t) && '/' !in id
    ensures Refines(t, CancelTree(t, shard, id), shard, Cancel(id))
  {
    CancelExact(t, shard, id);
    CanceledFilesIn(t, shard, id);
  }

  lemma CanceledFilesIn(t: Tree, shard: string, id: string)
    ensures CanceledTree(t, shard, id).FilesIn(PendingDir(shard)) == Canceled(t.FilesIn(PendingDir(shard)), id)
    ensures SameOutside(t, CanceledTree(t, shard, id), PendingDir(shard))
  {
    var d, dirs := PendingDir(shard), t.dirs + PendingDirs(shard);
    var ach, gone := AchName(Stem(id)), CanceledName(Stem(id));
    if d + [ach] in t.files {
      FilesAfterRemove(t, dirs, d, ach);
      FilesAfterPut(Tree(t.files - {d + [ach]}, dirs), dirs, d, gone, t.files[d + [ach]]);
    } else {
      FilesAfterPut(t, dirs, d, gone, []);
    }
  }

  lemma RequestRefines(t: Tree, shard: ShardName, q: Request)
    requires Layout(t) && '/' !in q.id
    ensures Refines(t, RequestTree(t, shard, q), shard, q)
  {
    match q
    case Xfer(id, data, opts) => XferRefines(t, shard, id, data, opts);
    case Cancel(id) => CancelRefines(t, shard, id);
  }

  /** A cancel is reported successful exactly if the file or its canceled form is pending and no
      two dots stand in a row in the shard or the file name: Open refuses those. */
  lemma CancelReport(t: Tree, shard: ShardName, id: string)
    requires Layout(t) && '/' !in id
    ensures CancelSuccessful(t, shard, id) <==>
            && (AchName(Stem(id)) in t.FilesIn(PendingDir(shard)) ||
                CanceledName(Stem(id)) in t.FilesIn(PendingDir(shard)))
            && !Contains(shard, "..") && !Contains(AchName(Stem(id)), "..")
  {
    FlatStem(id);
    FlatPaths(shard, Stem(id));
    CancelExact(t, shard, id);
    OpensPending(t, shard, AchName(Stem(id)));
    OpensPending(t, shard, CanceledName(Stem(id)));
    MarkerAddsNoDots(AchName(Stem(id)));
  }

  lemma OpensPending(t: Tree, shard: string, n: string)
    requires Layout(t)
    ensures t.Opens(PendingDir(shard) + [n]) <==>
            n in t.FilesIn(PendingDir(shard)) && !Contains(shard, "..") && !Contains(n, "..")
  {
    var p := PendingDir(shard) + [n];
    assert p[0] == MERGABLE && p[1] == shard && p[2] == n && |p| == 3;
    assert !Contains(MERGABLE, "..") by {
      assert forall i | 0 <= i < |MERGABLE| :: MERGABLE[i] != '.';
      forall i | 0 <= i <= |MERGABLE| ensures !OccursAt(MERGABLE, "..", i) {
        if i + 2 <= |MERGABLE| { assert MERGABLE[i..i + 2][0] == MERGABLE[i]; }
      }
    }
  }

  lemma MarkerAddsNoDots(a: string)
    requires a != [] && a[|a| - 1] != '.'
    ensures Contains(a + ".canceled", "..") <==> Contains(a, "..")
  {
    var c := a + ".canceled";
    if Contains(a, "..") { ContainsGrows(a, ".canceled", ".."); }
    if i :| 0 <= i <= |c| && OccursAt(c, "..", i) {
      assert c[i] == c[i..i + 2][0] && c[i + 1] == c[i..i + 2][1];
      assert forall j | |a| < j < |c| :: c[j] != '.';
      assert c[|a| - 1] == a[|a| - 1];
      assert i + 2 <= |a|;
      assert a[i..i + 2] == c[i..i + 2];
      assert OccursAt(a, "..", i);
    }
  }

  // IDs with slashes

  /** The file goes directly into the pending directory of some shard. */
  predicate Lands(shard: string, x: string) {
    var folder := Folder(PendingDir(shard), x);
    |folder| == 2 && folder[0] == MERGABLE
  }

  lemma LandingShard(shard: ShardName, x: string)
    requires Lands(shard, x)
    ensures Plain(Folder(PendingDir(shard), x)[1])
  {
    CleanIsCleaned(PendingDir(shard), Folders(x));
  }

  /** The shard whose pending directory the file goes into. */
  function LandsIn(shard: ShardName, r: Request): ShardName
    requires Lands(shard, Stem(r.id))
  {
    LandingShard(shard, Stem(r.id));
    Folder(PendingDir(shard), Stem(r.id))[1]
  }

  /** The same request by the plain name of the file there. */
  function LandsAs(r: Request): (q: Request)
    ensures '/' !in q.id && Stem(q.id) == Base(Stem(r.id)) && q == r.(id := q.id)
  {
    TrimAppended(Base(Stem(r.id)), ".ach");
    r.(id := AchName(Base(Stem(r.id))))
  }

  /** A request whose ID lands in some pending directory is the request for that shard and file. */
  lemma LandingIsRequest(t: Tree, shard: ShardName, r: Request)
    requires Lands(shard, Stem(r.id))
    ensures RequestTree(t, shard, r) == RequestTree(t, LandsIn(shard, r), LandsAs(r))
    ensures CancelSuccessful(t, shard, r.id) <==> CancelSuccessful(t, LandsIn(shard, r), LandsAs(r).id)
  {
    LandingPath(shard, r, ".ach");
    LandingPath(shard, r, ".json");
    LandingPath(shard, r, ".ach" + ".canceled");
    SamePathsSameTree(t, shard, r, LandsIn(shard, r), LandsAs(r));
  }

  lemma LandingPath(shard: ShardName, r: Request, ext: string)
    requires Lands(shard, Stem(r.id))
    ensures PathOf(LandsIn(shard, r), Stem(LandsAs(r).id), ext) == PathOf(shard, Stem(r.id), ext)
  {
    FoldersOfFlat(Base(Stem(r.id)));
  }

  lemma SamePathsSameTree(t: Tree, s1: string, r1: Request, s2: string, r2: Request)
    requires r2 == r1.(id := r2.id)
    requires AchPath(s1, r1.id) == AchPath(s2, r2.id) && JsonPath(s1, r1.id) == JsonPath(s2, r2.id)
    requires CanceledPath(s1, r1.id) == CanceledPath(s2, r2.id)
    ensures RequestTree(t, s1, r1) == RequestTree(t, s2, r2)
    ensures CancelSuccessful(t, s1, r1.id) <==> CancelSuccessful(t, s2, r2.id)
  {
  }

  /** Down and up again: an ID with a detour is the plain one, also for a cancel. */
  lemma DetourIsPlain(t: Tree, shard: ShardName, detour: string, x: string, r: Request)
    requires Plain(detour) && '/' !in x && r.id == AchName(detour + "/" + ".." + "/" + x)
    ensures RequestTree(t, shard, r) == RequestTree(t, shard, r.(id := AchName(x)))
    ensures CancelSuccessful(t, shard, r.id) <==> CancelSuccessful(t, shard, AchName(x))
  {
    TrimAppended(detour + "/" + ".." + "/" + x, ".ach");
    ComesBack(PendingDir(shard), detour, x);
    LandingIsRequest(t, shard, r);
  }

  /** A request without a slash stays what it is. */
  lemma FlatLands(shard: ShardName, r: Request)
    requires '/' !in r.id
    ensures Lands(shard, Stem(r.id)) && LandsIn(shard, r) == shard && Stem(LandsAs(r).id) == Stem(r.id)
  {
    FlatStem(r.id);
    FoldersOfFlat(Stem(r.id));
  }

  // Isolation and saving

  /** The same files everywhere but below the pending directory and the isolated one. */
  ghost predicate SameOutsideBoth(t: Tree, u: Tree, shard: string, dir: string) {
    forall p: Path | !(PendingDir(shard) <= p) && !([dir] <= p) ::
      && (p in u.files <==> p in t.files)
      && (p in t.files ==> u.files[p] == t.files[p])
  }

  ghost predicate RootsGrowBy(t: Tree, u: Tree, dir: string) {
    forall d | d in u.dirs && |d| == 1 :: d in t.dirs || d == [dir]
  }

  /** A cutoff moves the pending files to a directory of a new name: none is lost, changed or
      copied, nothing else moves, and the next window starts empty. */
  ghost predicate MovesWindow(t: Tree, u: Tree, shard: string, dir: string) {
    && Layout(u)
    && [dir] in u.dirs && u.DirNames([dir]) == {} && PendingDir(shard) !in u.dirs
    && u.FilesIn([dir]) == t.FilesIn(PendingDir(shard))
    && u.FilesIn(PendingDir(shard)) == map[]
    && SameOutsideBoth(t, u, shard, dir)
    && RootsGrowBy(t, u, dir)
  }

  /** What isolation does depends on whether the pending directory and the target exist: a taken
      name fails the cutoff, unless nothing is pending; then the old directory is taken again. */
  lemma IsolateOutcome(t: Tree, shard: ShardName, at: Civil)
    requires Layout(t) && Valid(at)
    ensures var r, dir := IsolateTree(t, shard, at), DirName(shard, at);
            if [dir] !in t.dirs then r.ok && MovesWindow(t, r.tree, shard, dir)
            else r == Result(t, PendingDir(shard) !in t.dirs)
  {
    var src, dir := PendingDir(shard), DirName(shard, at);
    IsolationPaths(t, shard, dir);
    if [dir] in t.dirs {
      assert t.dirs + {[dir]} == t.dirs;
    } else if src in t.dirs {
      IsolateMoves(t, shard, dir);
    } else {
      IsolateNothing(t, shard, dir);
    }
  }

  lemma IsolateNothing(t: Tree, shard: string, dir: string)
    requires Layout(t) && [dir] !in t.dirs && PendingDir(shard) !in t.dirs && dir != MERGABLE
    ensures MovesWindow(t, t.(dirs := t.dirs + {[dir]}), shard, dir)
  {
    var u := t.(dirs := t.dirs + {[dir]});
    IsolationPaths(t, shard, dir);
    MkdirAllKeepsTree(t, [dir]);
    NothingPending(t, shard);
    NothingPendingIn(u, t, shard);
    NewDirectory(t, u, dir);
    NoSubdirectory(t, u, dir);
  }

  lemma NoSubdirectory(t: Tree, u: Tree, dir: string)
    requires Layout(t) && [dir] !in t.dirs && u.dirs == t.dirs + {[dir]}
    ensures u.DirNames([dir]) == {}
  {
    InDirectory(u, [dir]);
    forall n ensures [dir] + [n] !in u.dirs {
      assert Parent([dir] + [n]) == [dir];
    }
    assert forall n :: n !in u.DirNames([dir]);
  }

  lemma NothingPendingIn(u: Tree, t: Tree, shard: string)
    requires u.files == t.files && t.FilesIn(PendingDir(shard)) == map[]
    ensures u.FilesIn(PendingDir(shard)) == map[]
  {
  }

  lemma IsolationPaths(t: Tree, shard: string, dir: string)
    requires Layout(t)
    ensures PendingDir(shard) !in t.files && [dir] !in t.files
    ensures !t.Blocked(PendingDir(shard))
    ensures t.MkdirAll([dir]) == Result(t.(dirs := t.dirs + {[dir]}), true)
  {
    var dst := [dir];
    assert dst[..0] == [] && dst[..1] == dst;
    assert forall i | 0 <= i <= |dst| :: |dst[..i]| < 2;
    assert forall i | 0 <= i <= 2 :: PendingDir(shard)[..i] !in t.files;
    forall p | p in Ancestors(dst) ensures p in {[], dst} {
      var i :| 0 <= i <= 1 && p == dst[..i];
      assert i == 0 || i == 1;
    }
    assert Ancestors(dst) == {[], dst};
    assert t.dirs + Ancestors(dst) == t.dirs + {dst};
  }

  lemma NothingPending(t: Tree, shard: string)
    requires Layout(t) && PendingDir(shard) !in t.dirs
    ensures t.FilesIn(PendingDir(shard)) == map[]
  {
    forall n ensures PendingDir(shard) + [n] !in t.files {
      assert Parent(PendingDir(shard) + [n]) == PendingDir(shard);
    }
  }

  lemma NewDirectory(t: Tree, u: Tree, dir: string)
    requires Layout(t) && [dir] !in t.dirs && u.files == t.files
    ensures u.FilesIn([dir]) == map[]
  {
    forall n ensures [dir] + [n] !in t.files {
      assert Parent([dir] + [n]) == [dir];
    }
  }

  /** The files and directories after the move, path by path. */
  ghost predicate MovedBelow(t: Tree, u: Tree, src: Path, dst: Path) {
    && (forall p {:trigger p in u.files} :: p in u.files <==>
        if dst <= p then Moved(dst, src, p) in t.files else p in t.files && !(src <= p))
    && (forall p {:trigger u.files[p]} | p in u.files ::
        u.files[p] == t.files[if dst <= p then Moved(dst, src, p) else p])
    && (forall d {:trigger d in u.dirs} :: d in u.dirs <==>
        if dst <= d then Moved(dst, src, d) in t.dirs else d in t.dirs && !(src <= d))
  }

  lemma RenameMovesBelow(t: Tree, src: Path, dst: Path)
    requires IsTree(t) && !t.Exists(dst) && t.Rename(src, dst).ok && src in t.dirs
    ensures MovedBelow(t, t.Rename(src, dst).tree, src, dst)
  {
    NothingBelowNew(t, dst);
    var u := t.Rename(src, dst).tree;
    assert src !in t.files;
    forall p ensures p in u.files <==> if dst <= p then Moved(dst, src, p) in t.files else p in t.files && !(src <= p) {
      MoveFilesAt(t.files, src, dst, p);
    }
    forall p | p in u.files ensures u.files[p] == t.files[if dst <= p then Moved(dst, src, p) else p] {
      MoveFilesAt(t.files, src, dst, p);
    }
    forall d ensures d in u.dirs <==> if dst <= d then Moved(dst, src, d) in t.dirs else d in t.dirs && !(src <= d) {
      MoveDirsAt(t.dirs, src, dst, d);
    }
  }

  lemma IsolateMoves(t: Tree, shard: string, dir: string)
    requires Layout(t) && dir != MERGABLE
    requires [dir] !in t.dirs && PendingDir(shard) in t.dirs
    ensures t.Rename(PendingDir(shard), [dir]).ok
    ensures MovesWindow(t, t.Rename(PendingDir(shard), [dir]).tree, shard, dir)
  {
    var src, dst := PendingDir(shard), [dir];
    assert Parent(dst) == [];
    IsolationPaths(t, shard, dir);
    RenameKeepsTree(t, src, dst);
    var u := t.Rename(src, dst).tree;
    assert t.Rename(src, dst).ok;
    RenameMovesBelow(t, src, dst);
    MovedWindow(t, u, shard, dir);
  }

  lemma MovedWindow(t: Tree, u: Tree, shard: string, dir: string)
    requires Layout(t) && IsTree(u) && dir != MERGABLE && PendingDir(shard) in t.dirs
    requires MovedBelow(t, u, PendingDir(shard), [dir])
    ensures MovesWindow(t, u, shard, dir)
  {
    MovedRoot(t, u, shard, dir);
    MovedFilesIn(t, u, PendingDir(shard), [dir]);
    MovedShape(t, u, shard, dir);
    MovedOutside(t, u, shard, dir);
  }

  lemma MovedRoot(t: Tree, u: Tree, shard: string, dir: string)
    requires MovedBelow(t, u, PendingDir(shard), [dir]) && PendingDir(shard) in t.dirs && Shape(t) && dir != MERGABLE
    ensures [dir] in u.dirs && u.DirNames([dir]) == {} && PendingDir(shard) !in u.dirs
  {
    var src, dst := PendingDir(shard), [dir];
    assert Moved(dst, src, dst) == src;
    InDirectory(u, dst);
    forall n ensures dst + [n] !in u.dirs {
      assert Moved(dst, src, dst + [n]) == src + [n] && (src + [n])[0] == MERGABLE && |src + [n]| == 3;
      assert dst <= dst + [n];
    }
    assert forall n :: n !in u.DirNames(dst);
  }

  lemma MovedOutside(t: Tree, u: Tree, shard: string, dir: string)
    requires MovedBelow(t, u, PendingDir(shard), [dir])
    ensures SameOutsideBoth(t, u, shard, dir)
  {
    forall p: Path | !(PendingDir(shard) <= p) && !([dir] <= p)
      ensures (p in u.files <==> p in t.files) && (p in t.files ==> u.files[p] == t.files[p])
    {
    }
  }

  lemma MovedFilesIn(t: Tree, u: Tree, src: Path, dst: Path)
    requires MovedBelow(t, u, src, dst) && !(src <= dst) && !(dst <= src)
    ensures u.FilesIn(dst) == t.FilesIn(src)
    ensures u.FilesIn(src) == map[]
  {
    forall n ensures Moved(dst, src, dst + [n]) == src + [n] && dst <= dst + [n] { }
    forall n ensures src + [n] != dst && src <= src + [n] { }
    forall n ensures !(dst <= src + [n]) { PrefixOfLonger(dst, src, n); }
  }

  lemma MovedShape(t: Tree, u: Tree, shard: string, dir: string)
    requires Shape(t) && MovedBelow(t, u, PendingDir(shard), [dir]) && dir != MERGABLE
    ensures Shape(u) && RootsGrowBy(t, u, dir)
  {
    var src, dst := PendingDir(shard), [dir];
    forall p | p in u.files ensures Placed(p) {
      if dst <= p {
        var from := Moved(dst, src, p);
        assert from in t.files && from[0] == MERGABLE && |from| == |p| + 1;
        assert p[0] == dir;
      } else {
        assert p in t.files;
      }
    }
    forall d | d in u.dirs && |d| >= 1 && d[0] == MERGABLE ensures |d| <= 2 {
      assert forall e: Path | dst <= e :: e[0] == dir;
      assert d in t.dirs;
    }
    forall d | d in u.dirs && |d| == 1 ensures d in t.dirs || d == [dir] {
      if !(dst <= d) { assert d in t.dirs; }
    }
  }

  lemma NothingBelowNew(t: Tree, dst: Path)
    requires IsTree(t) && !t.Exists(dst)
    ensures forall p | p in t.files :: !(dst <= p)
    ensures forall d | d in t.dirs :: !(dst <= d)
  {
    forall p | p in t.files ensures !(dst <= p) {
      if dst <= p { NothingBelow(t, dst, p); }
    }
    forall d | d in t.dirs ensures !(dst <= d) {
      if dst <= d { NothingBelow(t, dst, d); }
    }
  }

  /** Nothing changes but below the directory for the merged files. */
  ghost predicate Saves(t: Tree, u: Tree, dir: string) {
    && Layout(u)
    && t.dirs <= u.dirs <= t.dirs + {[dir], [dir, UPLOADED]}
    && forall p: Path | !([dir, UPLOADED] < p) ::
         && (p in u.files <==> p in t.files)
         && (p in t.files ==> u.files[p] == t.files[p])
  }

  lemma UploadedAncestors(dir: string)
    ensures Ancestors([dir, UPLOADED]) == {[], [dir], [dir, UPLOADED]}
  {
    var d := [dir, UPLOADED];
    assert d[..0] == [] && d[..1] == [dir] && d[..2] == d;
    forall p | p in Ancestors(d) ensures p in {[], [dir], d} {
      var i :| 0 <= i <= 2 && p == d[..i];
      assert i == 0 || i == 1 || i == 2;
    }
  }

  lemma MkdirSaves(t: Tree, dir: string)
    requires Layout(t) && dir != MERGABLE
    ensures Saves(t, t.MkdirAll([dir, UPLOADED]).tree, dir)
  {
    UploadedAncestors(dir);
    MkdirAllKeepsTree(t, [dir, UPLOADED]);
  }

  lemma WriteSaves(t: Tree, dir: string, n: string, data: Bytes)
    requires Layout(t) && dir != MERGABLE
    ensures Saves(t, t.WriteFile([dir, UPLOADED, n], data).tree, dir)
  {
    var p := [dir, UPLOADED, n];
    assert Parent(p) == [dir, UPLOADED] && [dir, UPLOADED] < p && |p| == 3;
    WriteFileKeepsTree(t, p, data);
    MkdirSaves(t, dir);
  }

  lemma SavesTwice(t: Tree, u: Tree, v: Tree, dir: string)
    requires Saves(t, u, dir) && Saves(u, v, dir)
    ensures Saves(t, v, dir)
  {
  }

  lemma SaveTreeSaves(t: Tree, dir: string, file: Option<Saved>)
    requires Layout(t) && dir != MERGABLE
    ensures Saves(t, SaveTree(t, dir, file).tree, dir)
  {
    if file.Some? {
      WriteSaves(t, dir, AchName(file.value.name), file.value.data);
      var u := t.WriteFile([dir, UPLOADED, AchName(file.value.name)], file.value.data).tree;
      if file.value.opts.Some? {
        WriteSaves(u, dir, JsonName(file.value.name), file.value.opts.value);
        SavesTwice(t, u, u.WriteFile([dir, UPLOADED, JsonName(file.value.name)], file.value.opts.value).tree, dir);
      }
    }
  }

  lemma {:induction false} SaveAllSaves(t: Tree, dir: string, files: seq<Option<Saved>>)
    requires Layout(t) && dir != MERGABLE
    ensures Saves(t, SaveAllTree(t, dir, files).tree, dir)
  {
    if files != [] {
      var u := SaveAllTree(t, dir, files[..|files| - 1]).tree;
      SaveAllSaves(t, dir, files[..|files| - 1]);
      SaveTreeSaves(u, dir, files[|files| - 1]);
      SavesTwice(t, u, SaveAllTree(t, dir, files).tree, dir);
    }
  }

  lemma SavesFilesIn(t: Tree, u: Tree, dir: string, d: Path)
    requires Saves(t, u, dir) && !([dir, UPLOADED] <= d)
    ensures u.FilesIn(d) == t.FilesIn(d)
  {
    forall n ensures !([dir, UPLOADED] < d + [n]) { PrefixOfLonger([dir, UPLOADED], d, n); }
  }

  /** `u` is `t` with at most the directory emptied out. */
  ghost predicate OnlyEmpties(t: Tree, u: Tree, dir: string) {
    && Layout(u)
    && u.dirs <= t.dirs
    && forall p: Path | !([dir] <= p) ::
         && (p in u.files <==> p in t.files)
         && (p in t.files ==> u.files[p] == t.files[p])
  }

  lemma RemoveEmpties(t: Tree, dir: string)
    requires Layout(t)
    ensures OnlyEmpties(t, t.RmdirAll([dir]), dir)
  {
    RmdirAllKeepsTree(t, [dir]);
  }

  lemma RemovedFiles(t: Tree, dir: string)
    ensures t.RmdirAll([dir]).FilesIn([dir]) == map[]
  {
    forall n ensures [dir] <= [dir] + [n] { }
  }

  lemma PendingApart(shard: string, dir: string)
    requires dir != MERGABLE
    ensures forall n :: !([dir] <= PendingDir(shard) + [n])
  {
    forall n ensures !([dir] <= PendingDir(shard) + [n]) { assert (PendingDir(shard) + [n])[0] == MERGABLE; }
  }

  lemma EmptiesKeepPending(t: Tree, u: Tree, shard: string, dir: string)
    requires OnlyEmpties(t, u, dir) && dir != MERGABLE
    ensures u.FilesIn(PendingDir(shard)) == t.FilesIn(PendingDir(shard))
  {
    PendingApart(shard, dir);
  }

  /** What a whole cutoff leaves: the isolated directory holds the window's files, or nothing if
      there was nothing to merge; the next window is empty; nothing else changed. */
  ghost predicate Finished(t: Tree, u: Tree, shard: string, dir: string, anyMerged: bool) {
    && Layout(u)
    && u.FilesIn([dir]) == (if anyMerged then t.FilesIn(PendingDir(shard)) else map[])
    && u.FilesIn(PendingDir(shard)) == map[] && PendingDir(shard) !in u.dirs
    && [dir] in u.dirs && u.DirNames([dir]) <= {UPLOADED}
    && SameOutsideBoth(t, u, shard, dir)
    && RootsGrowBy(t, u, dir)
  }

  /** Under a directory name not yet taken, a cutoff moves the window and leaves the rest. */
  lemma CutoffRefines(t: Tree, shard: ShardName, at: Civil, agentFound: bool, files: seq<Option<Saved>>)
    requires Layout(t) && Valid(at) && [DirName(shard, at)] !in t.dirs
    ensures Finished(t, CutoffTree(t, shard, at, agentFound, files), shard, DirName(shard, at), files != [])
  {
    var dir := DirName(shard, at);
    IsolateOutcome(t, shard, at);
    var isolated := IsolateTree(t, shard, at).tree;
    var kept := if files == [] then isolated.RmdirAll([dir]) else isolated;
    RemoveEmpties(isolated, dir);
    RemovedFiles(isolated, dir);
    FinishSaves(kept, dir, agentFound, files);
    AfterIsolation(t, isolated, kept, CutoffTree(t, shard, at, agentFound, files), shard, dir, files != []);
  }

  lemma FinishSaves(kept: Tree, dir: string, agentFound: bool, files: seq<Option<Saved>>)
    requires Layout(kept) && dir != MERGABLE
    ensures var made := kept.MkdirAll([dir, UPLOADED]).tree;
            var u := if agentFound then SaveAllTree(made, dir, files).tree else made;
            Saves(kept, u, dir) && [dir] in u.dirs
  {
    var made := kept.MkdirAll([dir, UPLOADED]).tree;
    MkdirSaves(kept, dir);
    MadeDirectory(kept, dir);
    if agentFound {
      SaveAllSaves(made, dir, files);
      SavesTwice(kept, made, SaveAllTree(made, dir, files).tree, dir);
    }
  }

  lemma MadeDirectory(t: Tree, dir: string)
    requires Layout(t)
    ensures [dir] in t.MkdirAll([dir, UPLOADED]).tree.dirs
  {
    var d := [dir, UPLOADED];
    UploadedAncestors(dir);
    if i :| 0 <= i <= |d| && d[..i] in t.files {
      assert Placed(d[..i]);
      assert d[..i] == d && Parent(d) == [dir];
    }
  }

  lemma AfterIsolation(t: Tree, isolated: Tree, kept: Tree, u: Tree, shard: string, dir: string, anyMerged: bool)
    requires dir != MERGABLE && MovesWindow(t, isolated, shard, dir)
    requires OnlyEmpties(isolated, kept, dir) && Saves(kept, u, dir)
    requires kept.FilesIn([dir]) == (if anyMerged then isolated.FilesIn([dir]) else map[]) && [dir] in u.dirs
    ensures Finished(t, u, shard, dir, anyMerged)
  {
    SavesFilesIn(kept, u, dir, [dir]);
    PendingStaysEmpty(isolated, kept, u, shard, dir);
    StillOutside(t, isolated, kept, u, shard, dir);
    FewDirs(t, isolated, kept, u, shard, dir);
  }

  lemma FewDirs(t: Tree, isolated: Tree, kept: Tree, u: Tree, shard: string, dir: string)
    requires dir != MERGABLE && kept.dirs <= isolated.dirs && u.dirs <= kept.dirs + {[dir], [dir, UPLOADED]}
    requires RootsGrowBy(t, isolated, dir) && isolated.DirNames([dir]) == {} && PendingDir(shard) !in isolated.dirs
    ensures RootsGrowBy(t, u, dir) && u.DirNames([dir]) <= {UPLOADED} && PendingDir(shard) !in u.dirs
  {
    OnlyUploaded(isolated, u, dir);
  }

  lemma StillOutside(t: Tree, isolated: Tree, kept: Tree, u: Tree, shard: string, dir: string)
    requires SameOutsideBoth(t, isolated, shard, dir) && OnlyEmpties(isolated, kept, dir) && Saves(kept, u, dir)
    ensures SameOutsideBoth(t, u, shard, dir)
  {
    forall p: Path | !(PendingDir(shard) <= p) && !([dir] <= p)
      ensures (p in u.files <==> p in t.files) && (p in t.files ==> u.files[p] == t.files[p])
    {
      UploadedBelow(dir, p);
    }
  }

  lemma UploadedBelow(dir: string, p: Path)
    ensures [dir, UPLOADED] <= p ==> [dir] <= p
  {
  }

  lemma OnlyUploaded(isolated: Tree, u: Tree, dir: string)
    requires isolated.DirNames([dir]) == {} && u.dirs <= isolated.dirs + {[dir], [dir, UPLOADED]}
    ensures u.DirNames([dir]) <= {UPLOADED}
  {
    InDirectory(isolated, [dir]);
    InDirectory(u, [dir]);
    forall n | n in u.DirNames([dir]) ensures n == UPLOADED {
      assert [dir] + [n] !in isolated.dirs;
    }
  }

  lemma PendingStaysEmpty(isolated: Tree, kept: Tree, u: Tree, shard: string, dir: string)
    requires dir != MERGABLE && isolated.FilesIn(PendingDir(shard)) == map[]
    requires OnlyEmpties(isolated, kept, dir) && Saves(kept, u, dir)
    ensures u.FilesIn(PendingDir(shard)) == map[]
  {
    EmptiesKeepPending(isolated, kept, shard, dir);
    SavesFilesIn(kept, u, dir, PendingDir(shard));
  }
}
