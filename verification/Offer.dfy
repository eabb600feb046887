/** What a cutoff takes from the window before it: the files it offers to merging and the ones its
    mapping reads (internal/pipeline/merging.go). */
module Offer {
  import opened Text
  import opened Calendar
  import opened Disk
  import opened Paths
  import opened Pending
  import opened Cutoff
  import opened Cleanup
  import opened Attribution
  import opened Merging

  /** The pending directory holds what the requests of a window left, and the name the next cutoff
      will take is free. */
  ghost predicate Ready(t: Tree, shard: ShardName, at: Civil, w: seq<Request>)
    requires Valid(at)
  {
    && Layout(t) && Flat(w)
    && t.FilesIn(PendingDir(shard)) == HandleAll(w)
    && [DirName(shard, at)] !in t.dirs
  }

  lemma KeysAreFileNames(t: Tree, d: Path)
    ensures t.FilesIn(d).Keys == t.FileNames(d)
  {
    InDirectory(t, d);
  }

  lemma CanceledInWindow(t: Tree, shard: ShardName, at: Civil, w: seq<Request>)
    requires Valid(at) && Ready(t, shard, at, w)
    ensures IsolateTree(t, shard, at).tree.FileNames([DirName(shard, at)]) == HandleAll(w).Keys
    ensures CanceledIn(t, shard, at) == CanceledFiles(HandleAll(w).Keys)
  {
    IsolateOutcome(t, shard, at);
    KeysAreFileNames(IsolateTree(t, shard, at).tree, [DirName(shard, at)]);
  }

  /** The files at the top of the isolated directory that the acceptor, asked about their paths, lets
      through to merging. */
  function Offered(t: Tree, shard: ShardName, at: Civil): set<string>
    requires Valid(at)
  {
    var dir := DirName(shard, at);
    Admitted(dir, CanceledIn(t, shard, at), IsolateTree(t, shard, at).tree.FileNames([dir]))
  }

  /** The files it would let through below, under uploaded/, if merging reads on there. */
  function OfferedBelow(t: Tree, shard: ShardName, at: Civil): set<string>
    requires Valid(at)
  {
    var dir := DirName(shard, at);
    Admitted(dir + "/" + UPLOADED, CanceledIn(t, shard, at), IsolateTree(t, shard, at).tree.FileNames([dir, UPLOADED]))
  }

  /** The stamp adds no mark to the name of the shard. */
  lemma StampHasNoDot(shard: string, at: Civil, mark: string)
    requires Valid(at) && mark != [] && mark[0] == '.' && '-' !in mark
    ensures Contains(DirName(shard, at), mark) <==> Contains(shard, mark)
  {
    ContainsApart(shard, '-', Format(at), mark);
    assert "-" == ['-'];
    if i :| 0 <= i <= 15 && OccursAt(Format(at), mark, i) {
      assert Format(at)[i..i + |mark|][0] == Format(at)[i] == '.';
    }
  }

  lemma DirectoryMarkedAsShard(shard: string, at: Civil, w: seq<Request>)
    requires Valid(at)
    ensures forall x :: Marked(DirName(shard, at), x, ".canceled") == Marked(shard, x, ".canceled")
    ensures Mergeable(DirName(shard, at), w) == Mergeable(shard, w)
  {
    StampHasNoDot(shard, at, ".ach");
    StampHasNoDot(shard, at, ".canceled");
  }

  /** A cutoff offers merging exactly the mergeable files of its window, as the name of the shard and
      the IDs have it; there are no directories below for it to read on in. */
  lemma OfferedInWindow(t: Tree, shard: ShardName, at: Civil, w: seq<Request>)
    requires Valid(at) && Ready(t, shard, at, w)
    ensures Offered(t, shard, at) == Mergeable(shard, w)
    ensures IsolateTree(t, shard, at).tree.DirNames([DirName(shard, at)]) == {}
  {
    IsolateOutcome(t, shard, at);
    CanceledInWindow(t, shard, at, w);
    AdmittedInWindow(DirName(shard, at), w);
    DirectoryMarkedAsShard(shard, at, w);
  }

  function SurvivingStems(w: seq<Request>): set<string> {
    set x | x in QueuedStems(w) - CanceledStems(w) && !Contains(x, ".canceled")
  }

  /** X.ach for every X queued and not canceled that does not contain ".canceled". */
  function Survivors(w: seq<Request>): set<string> {
    set x | x in SurvivingStems(w) :: AchName(x)
  }

  lemma NotJson(x: string)
    ensures !HasSuffix(AchName(x), ".json") && HasSuffix(JsonName(x), ".json")
  {
    TrimAppended(x, ".json");
    assert AchName(x)[|x| + 3] == 'h';
    if |x| >= 1 { assert AchName(x)[|x| - 1..][4] == 'h'; }
  }

  /** The mapping reads exactly the surviving files of the window, if anything was merged. */
  lemma MappedInWindow(t: Tree, shard: ShardName, at: Civil, w: seq<Request>, files: seq<Option<Saved>>)
    requires Valid(at) && Ready(t, shard, at, w)
    ensures MappedNames(CutoffTree(t, shard, at, true, files), DirName(shard, at), CanceledIn(t, shard, at))
         == if files == [] then {} else Survivors(w)
  {
    var u, dir := CutoffTree(t, shard, at, true, files), DirName(shard, at);
    CanceledInWindow(t, shard, at, w);
    CutoffRefines(t, shard, at, true, files);
    KeysAreFileNames(u, [dir]);
    AcceptedNames(w);
    MergeableButJson("", w);
  }

  /** Asked about bare names the acceptor sees no directory. */
  lemma AcceptedNames(w: seq<Request>)
    requires Flat(w)
    ensures (set n | n in HandleAll(w).Keys && Accepts(CanceledFiles(HandleAll(w).Keys), n)) == Mergeable("", w)
  {
    AdmittedInWindow("", w);
    DirectoryDoesNotMatter("");
    forall n | n in HandleAll(w).Keys ensures SameVerdict("", CanceledFiles(HandleAll(w).Keys), n) {
      WindowNames(w, n);
      var x :| (x in QueuedStems(w) || x in CanceledStems(w)) &&
          (n == AchName(x) || n == JsonName(x) || n == CanceledName(x));
      FlatName(w, x);
    }
  }

  lemma MergeableButJson(dir: string, w: seq<Request>)
    ensures (set n | n in Mergeable(dir, w) && !HasSuffix(n, ".json"))
         == if Contains(dir, ".canceled") then {} else Survivors(w)
  {
    forall x ensures !HasSuffix(AchName(x), ".json") && HasSuffix(JsonName(x), ".json") { NotJson(x); }
  }

  /** Options files aside, the mapping reads what merging was offered, except that for a shard whose
      name contains ".canceled" merging is offered nothing. */
  lemma OfferedIsMapped(t: Tree, shard: ShardName, at: Civil, w: seq<Request>, files: seq<Option<Saved>>)
    requires Valid(at) && Ready(t, shard, at, w) && files != []
    ensures (set n | n in Offered(t, shard, at) && !HasSuffix(n, ".json"))
            == MappedNames(CutoffTree(t, shard, at, true, files), DirName(shard, at), CanceledIn(t, shard, at))
            <==> !Contains(shard, ".canceled") || Survivors(w) == {}
  {
    OfferedInWindow(t, shard, at, w);
    MappedInWindow(t, shard, at, w, files);
    MergeableButJson(shard, w);
  }

  /** The inputs the mapping reads, in order, are the surviving files. */
  lemma {:induction false} ReadAllNames(t: Tree, codec: Codec, dir: string, names: seq<string>)
    requires ReadAll(t, codec, dir, names).Some?
    ensures var inputs := ReadAll(t, codec, dir, names).value;
            |inputs| == |names| && forall i | 0 <= i < |names| ::
              && inputs[i].name == names[i] && ReadInput(t, codec, dir, names[i]).Some?
              && inputs[i].keys == Keys(ReadInput(t, codec, dir, names[i]).value)
  {
    if names != [] { ReadAllNames(t, codec, dir, names[..|names| - 1]); }
  }

  // What the mapping needs

  lemma {:induction false} ReadAllIff(t: Tree, codec: Codec, dir: string, names: seq<string>)
    ensures ReadAll(t, codec, dir, names).Some? <==> forall n | n in names :: ReadInput(t, codec, dir, n).Some?
  {
    if names != [] {
      var before, n := names[..|names| - 1], names[|names| - 1];
      assert names == before + [n];
      ReadAllIff(t, codec, dir, before);
    }
  }

  lemma {:induction false} NameBeforeDot(x: string, tail: string)
    requires '.' !in tail
    ensures BeforeLastDot(x + "." + tail) == x
  {
    var n := x + "." + tail;
    assert n[|x|] == '.';
    if tail == [] {
      assert n[..|n| - 1] == x;
    } else {
      assert n[..|n| - 1] == x + "." + tail[..|tail| - 1];
      NameBeforeDot(x, tail[..|tail| - 1]);
    }
  }

  /** Open refuses two dots in a row; options lie beside the file. */
  predicate Readable(codec: Codec, shard: string, d: Dir, x: string) {
    && AchName(x) in d && !Contains(shard, "..") && !Contains(AchName(x), "..")
    && (JsonName(x) in d ==> codec.validOpts(d[JsonName(x)]))
    && codec.parse(d[AchName(x)], if JsonName(x) in d then Some(d[JsonName(x)]) else None).Some?
  }

  lemma DotsBesideExtension(x: string, ext: string)
    requires |ext| > 1 && ext[0] == '.' && forall i | 1 <= i < |ext| :: ext[i] != '.'
    ensures Contains(x + ext, "..") <==> Contains(x, "..") || (x != [] && x[|x| - 1] == '.')
  {
    var s := x + ext;
    if Contains(x, "..") { ContainsGrows(x, ext, ".."); }
    if x != [] && x[|x| - 1] == '.' { assert s[|x| - 1..|x| + 1] == ".."; assert OccursAt(s, "..", |x| - 1); }
    if i :| 0 <= i <= |s| && OccursAt(s, "..", i) {
      assert s[i..i + 2][0] == s[i] == '.' && s[i..i + 2][1] == s[i + 1] == '.';
      if i + 1 < |x| { assert x[i..i + 2] == s[i..i + 2]; assert OccursAt(x, "..", i); }
    }
  }

  lemma OpensInDirectory(u: Tree, shard: string, at: Civil, n: string)
    requires Valid(at)
    ensures u.Opens([DirName(shard, at), n]) <==>
            u.Exists([DirName(shard, at), n]) && !Contains(shard, "..") && !Contains(n, "..")
  {
    var p := [DirName(shard, at), n];
    StampHasNoDot(shard, at, "..");
    assert p[0] == DirName(shard, at) && p[1] == n;
  }

  /** The directory holds the files `d` and nothing else but, perhaps, uploaded/. */
  ghost predicate Holds(u: Tree, dir: string, d: Dir) {
    u.FilesIn([dir]) == d && u.DirNames([dir]) <= {UPLOADED}
  }

  lemma HeldFile(u: Tree, dir: string, d: Dir, n: string)
    requires Holds(u, dir, d) && n != UPLOADED
    ensures [dir, n] in u.files <==> n in d
    ensures n in d ==> u.files[[dir, n]] == d[n]
    ensures u.Exists([dir, n]) <==> n in d
  {
    assert [dir] + [n] == [dir, n];
    InDirectory(u, [dir]);
  }

  lemma ReadIffReadable(u: Tree, codec: Codec, shard: string, at: Civil, d: Dir, x: string)
    requires Valid(at) && Holds(u, DirName(shard, at), d) && AchName(x) in d
    ensures ReadInput(u, codec, DirName(shard, at), AchName(x)).Some? <==> Readable(codec, shard, d, x)
    ensures Readable(codec, shard, d, x) ==>
            ReadInput(u, codec, DirName(shard, at), AchName(x)) ==
            codec.parse(d[AchName(x)], if JsonName(x) in d then Some(d[JsonName(x)]) else None)
  {
    var dir, n, m := DirName(shard, at), AchName(x), JsonName(x);
    assert n[|n| - 1] == 'h' && m[|m| - 1] == 'n' && UPLOADED[|UPLOADED| - 1] == 'd';
    HeldFile(u, dir, d, n);
    HeldFile(u, dir, d, m);
    assert n == x + "." + "ach";
    NameBeforeDot(x, "ach");
    DotsBesideExtension(x, ".ach");
    DotsBesideExtension(x, ".json");
    OpensInDirectory(u, shard, at, n);
    OpensInDirectory(u, shard, at, m);
  }

  /** Whether a cutoff gets its mapping: if something was merged, every surviving file of the window
      has to be readable. */
  lemma MappingInWindow(t: Tree, codec: Codec, shard: ShardName, at: Civil, w: seq<Request>,
                        files: seq<Option<Saved>>)
    requires Valid(at) && Ready(t, shard, at, w)
    ensures var u := CutoffTree(t, shard, at, true, files);
            MappingInputs(u, codec, DirName(shard, at), CanceledIn(t, shard, at)).Some?
            <==> files == [] || AllReadable(codec, shard, w)
  {
    var u, dir := CutoffTree(t, shard, at, true, files), DirName(shard, at);
    var names := MappedNames(u, dir, CanceledIn(t, shard, at));
    CutoffRefines(t, shard, at, true, files);
    MappedInWindow(t, shard, at, w, files);
    ReadAllIff(u, codec, dir, Ascending(names));
    if files != [] {
      forall x | x in SurvivingStems(w)
        ensures ReadInput(u, codec, dir, AchName(x)).Some? <==> Readable(codec, shard, HandleAll(w), x)
      {
        WindowContents(w, x);
        ReadIffReadable(u, codec, shard, at, HandleAll(w), x);
      }
      assert names == Survivors(w);
    }
  }

  ghost predicate AllReadable(codec: Codec, shard: string, w: seq<Request>) {
    forall x | x in SurvivingStems(w) :: Readable(codec, shard, HandleAll(w), x)
  }

  // What is saved, and what cleanup makes of it

  /** Room for merged files: nothing but a directory can be in the way, and it is not. */
  ghost predicate Roomy(t: Tree, dir: string) {
    Layout(t) && [dir, UPLOADED] !in t.files && forall n :: [dir, UPLOADED, n] !in t.dirs
  }

  lemma WriteLands(t: Tree, dir: string, n: string, data: Bytes)
    requires Roomy(t, dir) && dir != MERGABLE
    ensures var r := t.WriteFile([dir, UPLOADED, n], data);
            r.ok && Roomy(r.tree, dir) && r.tree.files.Keys == t.files.Keys + {[dir, UPLOADED, n]}
  {
    var d, p := [dir, UPLOADED], [dir, UPLOADED, n];
    assert Parent(p) == d;
    UploadedAncestors(dir);
    WriteSaves(t, dir, n, data);
    assert d[..0] == [] && d[..1] == [dir] && d[..2] == d;
    assert !Placed([]) && !Placed([dir]);
  }

  /** The names under which merged files are saved. */
  function SavedNames(files: seq<Option<Saved>>): set<string> {
    (set f | f in files && f.Some? :: AchName(f.value.name))
    + (set f | f in files && f.Some? && f.value.opts.Some? :: JsonName(f.value.name))
  }

  function Below(dir: string, names: set<string>): set<Path> {
    set n | n in names :: [dir, UPLOADED, n]
  }

  predicate AllRendered(files: seq<Option<Saved>>) {
    forall f | f in files :: f.Some?
  }

  /** Saving fails only for a file that could not be rendered, and adds just the names it should. */
  ghost predicate SavesAll(t: Tree, r: Result, dir: string, files: seq<Option<Saved>>) {
    && (r.ok <==> AllRendered(files))
    && Roomy(r.tree, dir)
    && r.tree.files.Keys == t.files.Keys + Below(dir, SavedNames(files))
  }

  lemma SavedOne(dir: string, file: Option<Saved>)
    ensures Below(dir, SavedNames([file])) ==
            if file.None? then {}
            else if file.value.opts.None? then {[dir, UPLOADED, AchName(file.value.name)]}
            else {[dir, UPLOADED, AchName(file.value.name)], [dir, UPLOADED, JsonName(file.value.name)]}
    ensures AllRendered([file]) <==> file.Some?
  {
    assert file in [file];
    assert SavedNames([file]) ==
           if file.None? then {}
           else if file.value.opts.None? then {AchName(file.value.name)}
           else {AchName(file.value.name), JsonName(file.value.name)};
  }

  lemma SaveLands(t: Tree, dir: string, file: Option<Saved>)
    requires Roomy(t, dir) && dir != MERGABLE
    ensures SavesAll(t, SaveTree(t, dir, file), dir, [file])
  {
    SavedOne(dir, file);
    if file.Some? {
      WriteLands(t, dir, AchName(file.value.name), file.value.data);
      var u := t.WriteFile([dir, UPLOADED, AchName(file.value.name)], file.value.data).tree;
      if file.value.opts.Some? { WriteLands(u, dir, JsonName(file.value.name), file.value.opts.value); }
    }
  }

  lemma SavedMore(dir: string, before: seq<Option<Saved>>, file: Option<Saved>)
    ensures Below(dir, SavedNames(before + [file])) == Below(dir, SavedNames(before)) + Below(dir, SavedNames([file]))
    ensures AllRendered(before + [file]) <==> AllRendered(before) && AllRendered([file])
  {
    assert forall f :: f in before + [file] <==> f in before || f in [file];
    assert SavedNames(before + [file]) == SavedNames(before) + SavedNames([file]);
  }

  lemma {:induction false} SaveAllLands(t: Tree, dir: string, files: seq<Option<Saved>>)
    requires Roomy(t, dir) && dir != MERGABLE
    ensures SavesAll(t, SaveAllTree(t, dir, files), dir, files)
  {
    if files != [] {
      var n := |files| - 1;
      assert files == files[..n] + [files[n]];
      SaveAllLands(t, dir, files[..n]);
      SaveLands(SaveAllTree(t, dir, files[..n]).tree, dir, files[n]);
      SavedMore(dir, files[..n], files[n]);
      assert files[n] in [files[n]];
    }
  }

  lemma IsolatedIsRoomy(t: Tree, shard: ShardName, at: Civil, w: seq<Request>)
    requires Valid(at) && Ready(t, shard, at, w)
    ensures var dir := DirName(shard, at);
            Roomy(IsolateTree(t, shard, at).tree.MkdirAll([dir, UPLOADED]).tree, dir)
  {
    var u, dir := IsolateTree(t, shard, at).tree, DirName(shard, at);
    IsolateOutcome(t, shard, at);
    InDirectory(u, [dir]);
    assert [dir] + [UPLOADED] == [dir, UPLOADED];
    NoRequestNamesUploaded(w);
    assert UPLOADED !in u.FilesIn([dir]);
    forall n ensures [dir, UPLOADED, n] !in u.dirs {
      assert Parent([dir, UPLOADED, n]) == [dir, UPLOADED] && UPLOADED !in u.DirNames([dir]);
    }
    UploadedAncestors(dir);
    MkdirSaves(u, dir);
  }

  lemma NoRequestNamesUploaded(w: seq<Request>)
    ensures UPLOADED !in HandleAll(w)
  {
    forall x ensures UPLOADED != AchName(x) && UPLOADED != JsonName(x) && UPLOADED != CanceledName(x) {
      assert AchName(x)[|x| + 3] == 'h' && JsonName(x)[|x| + 4] == 'n' && |CanceledName(x)| >= 13;
    }
    if UPLOADED in HandleAll(w) { WindowNames(w, UPLOADED); }
  }

  /** The last file saved under a name, and the last one with options. */
  predicate LastSaved(files: seq<Option<Saved>>, n: string, i: nat) {
    && i < |files| && files[i].Some? && files[i].value.name == n
    && forall j | i < j < |files| && files[j].Some? :: files[j].value.name != n
  }

  predicate LastSavedOptions(files: seq<Option<Saved>>, n: string, i: nat) {
    && i < |files| && files[i].Some? && files[i].value.name == n && files[i].value.opts.Some?
    && forall j | i < j < |files| && files[j].Some? && files[j].value.opts.Some? :: files[j].value.name != n
  }

  predicate FileIs(t: Tree, p: Path, data: Bytes) {
    p in t.files && t.files[p] == data
  }

  predicate Keeps(t: Tree, u: Tree, p: Path) {
    p in t.files ==> FileIs(u, p, t.files[p])
  }

  lemma WriteHolds(t: Tree, dir: string, n: string, data: Bytes, m: string)
    requires Roomy(t, dir) && dir != MERGABLE
    ensures var u := t.WriteFile([dir, UPLOADED, n], data).tree;
            FileIs(u, [dir, UPLOADED, n], data) && (m != n ==> Keeps(t, u, [dir, UPLOADED, m]))
  {
    WriteLands(t, dir, n, data);
    assert [dir, UPLOADED, m][2] == m && [dir, UPLOADED, n][2] == n;
  }

  lemma SaveHolds(t: Tree, dir: string, file: Saved, n: string)
    requires Roomy(t, dir) && dir != MERGABLE
    ensures var u, a, j := SaveTree(t, dir, Some(file)).tree, [dir, UPLOADED, AchName(n)], [dir, UPLOADED, JsonName(n)];
            && (if n == file.name then FileIs(u, a, file.data) else Keeps(t, u, a))
            && (if n == file.name && file.opts.Some? then FileIs(u, j, file.opts.value) else Keeps(t, u, j))
  {
    NamesDiffer(n, file.name);
    NamesDiffer(file.name, n);
    WriteLands(t, dir, AchName(file.name), file.data);
    WriteHolds(t, dir, AchName(file.name), file.data, AchName(n));
    WriteHolds(t, dir, AchName(file.name), file.data, JsonName(n));
    if file.opts.Some? {
      var u := t.WriteFile([dir, UPLOADED, AchName(file.name)], file.data).tree;
      WriteHolds(u, dir, JsonName(file.name), file.opts.value, AchName(n));
      WriteHolds(u, dir, JsonName(file.name), file.opts.value, JsonName(n));
    }
  }

  /** Under each name lie the contents of the last file saved under it, and the last options. */
  ghost predicate HoldsSaved(u: Tree, dir: string, files: seq<Option<Saved>>, n: string, i: nat) {
    && (LastSaved(files, n, i) ==> FileIs(u, [dir, UPLOADED, AchName(n)], files[i].value.data))
    && (LastSavedOptions(files, n, i) ==> FileIs(u, [dir, UPLOADED, JsonName(n)], files[i].value.opts.value))
  }

  lemma HoldsSavedMore(t: Tree, dir: string, before: seq<Option<Saved>>, last: Option<Saved>, n: string, i: nat)
    requires Roomy(t, dir) && dir != MERGABLE && HoldsSaved(t, dir, before, n, i)
    ensures HoldsSaved(SaveTree(t, dir, last).tree, dir, before + [last], n, i)
  {
    var files := before + [last];
    if last.Some? { SaveHolds(t, dir, last.value, n); }
    if i < |before| {
      assert files[i] == before[i] && files[|before|] == last;
      assert forall j | i < j < |before| :: files[j] == before[j];
    }
  }

  lemma {:induction false} SavedContents(t: Tree, dir: string, files: seq<Option<Saved>>, n: string, i: nat)
    requires Roomy(t, dir) && dir != MERGABLE
    ensures HoldsSaved(SaveAllTree(t, dir, files).tree, dir, files, n, i)
  {
    if files != [] {
      var k := |files| - 1;
      SavedContents(t, dir, files[..k], n, i);
      SaveAllLands(t, dir, files[..k]);
      HoldsSavedMore(SaveAllTree(t, dir, files[..k]).tree, dir, files[..k], files[k], n, i);
      assert files == files[..k] + [files[k]];
    }
  }

  /** So a cutoff that found its agent leaves each merged file under uploaded/ as it was rendered. */
  lemma UploadedHold(t: Tree, shard: ShardName, at: Civil, w: seq<Request>, files: seq<Option<Saved>>, n: string,
                     i: nat)
    requires Valid(at) && Ready(t, shard, at, w)
    ensures HoldsSaved(CutoffTree(t, shard, at, true, files), DirName(shard, at), files, n, i)
  {
    var v, dir := IsolateTree(t, shard, at).tree, DirName(shard, at);
    if files != [] {
      IsolateOutcome(t, shard, at);
      IsolatedIsRoomy(t, shard, at, w);
      SavedContents(v.MkdirAll([dir, UPLOADED]).tree, dir, files, n, i);
    }
  }

  /** In a directory just isolated there is nothing where merged files will be. */
  lemma NoUploadsYet(t: Tree, dir: string)
    requires Layout(t) && t.DirNames([dir]) == {}
    ensures t.MkdirAll([dir, UPLOADED]).tree.FileNames([dir, UPLOADED]) == {}
    ensures t.RmdirAll([dir]).MkdirAll([dir, UPLOADED]).tree.FileNames([dir, UPLOADED]) == {}
  {
    var d := [dir, UPLOADED];
    InDirectory(t, [dir]);
    assert [dir] + [UPLOADED] == d;
    assert d !in t.dirs by { assert UPLOADED !in t.DirNames([dir]); }
    forall n ensures d + [n] !in t.files { assert Parent(d + [n]) == d; }
    InDirectory(t.MkdirAll(d).tree, d);
    InDirectory(t.RmdirAll([dir]).MkdirAll(d).tree, d);
  }

  lemma SavedListed(made: Tree, dir: string, files: seq<Option<Saved>>)
    requires Roomy(made, dir) && dir != MERGABLE && made.FileNames([dir, UPLOADED]) == {}
    ensures SaveAllTree(made, dir, files).tree.FileNames([dir, UPLOADED]) == SavedNames(files)
  {
    var u := SaveAllTree(made, dir, files).tree;
    SaveAllLands(made, dir, files);
    InDirectory(made, [dir, UPLOADED]);
    InDirectory(u, [dir, UPLOADED]);
    forall n ensures n in u.FileNames([dir, UPLOADED]) <==> n in SavedNames(files) {
      var p := [dir, UPLOADED, n];
      assert [dir, UPLOADED] + [n] == p && p[2] == n;
      assert n !in made.FileNames([dir, UPLOADED]);
    }
  }

  /** What a cutoff leaves under uploaded/. */
  lemma UploadedNames(t: Tree, shard: ShardName, at: Civil, w: seq<Request>, agentFound: bool,
                      files: seq<Option<Saved>>)
    requires Valid(at) && Ready(t, shard, at, w)
    ensures CutoffTree(t, shard, at, agentFound, files).FileNames([DirName(shard, at), UPLOADED])
         == if agentFound then SavedNames(files) else {}
  {
    var v, dir := IsolateTree(t, shard, at).tree, DirName(shard, at);
    IsolateOutcome(t, shard, at);
    NoUploadsYet(v, dir);
    if agentFound && files != [] {
      IsolatedIsRoomy(t, shard, at, w);
      SavedListed(v.MkdirAll([dir, UPLOADED]).tree, dir, files);
    }
  }

  predicate AnySaved(files: seq<Option<Saved>>) {
    exists f :: f in files && f.Some?
  }

  lemma SavedNamesOfSome(files: seq<Option<Saved>>)
    ensures SavedNames(files) != {} <==> AnySaved(files)
  {
    if f :| f in files && f.Some? { assert AchName(f.value.name) in SavedNames(files); }
  }

  /** What a file under uploaded/ stands for: the merged files are saved whether or not any of them is
      uploaded afterwards. So cleanup removes the directory of a cutoff exactly if it is old enough, an
      agent was found and some merged file could be rendered, whatever became of the uploads. */
  lemma EligibleIffSaved(t: Tree, shard: ShardName, at: Civil, w: seq<Request>, agentFound: bool,
                         files: seq<Option<Saved>>, cutoff: int)
    requires Valid(at) && Ready(t, shard, at, w)
    ensures DirName(shard, at) in Eligible(CutoffTree(t, shard, at, agentFound, files), shard, cutoff)
            <==> agentFound && AnySaved(files) && Seconds(at) * NANOS <= cutoff
  {
    var u, dir := CutoffTree(t, shard, at, agentFound, files), DirName(shard, at);
    UploadedNames(t, shard, at, w, agentFound, files);
    SavedNamesOfSome(files);
    CutoffRefines(t, shard, at, agentFound, files);
    RootListed(u, dir);
    IsolatedNameReadsBack(shard, at);
  }

  lemma RootListed(u: Tree, dir: string)
    requires [dir] in u.dirs
    ensures dir in u.DirNames([])
  {
    InDirectory(u, []);
    assert [] + [dir] == [dir];
  }

  // Two cutoffs in one second

  /** Directory names resolve one second. A second cutoff of a shard within it, with no request in
      between, takes the directory of the first and offers the same files to merging again; and if
      merging reads on below, the merged files of the first cutoff as well. */
  lemma SameSecondOffersAgain(t: Tree, shard: ShardName, at: Civil, w: seq<Request>, agentFound: bool,
                              files: seq<Option<Saved>>)
    requires Valid(at) && Ready(t, shard, at, w) && files != []
    ensures var u := CutoffTree(t, shard, at, agentFound, files);
            && Offered(u, shard, at) == Mergeable(shard, w)
            && OfferedBelow(u, shard, at) == Admitted(DirName(shard, at) + "/" + UPLOADED,
                CanceledFiles(HandleAll(w).Keys), if agentFound then SavedNames(files) else {})
  {
    var u, dir := CutoffTree(t, shard, at, agentFound, files), DirName(shard, at);
    CutoffRefines(t, shard, at, agentFound, files);
    IsolateOutcome(u, shard, at);
    KeysAreFileNames(u, [dir]);
    UploadedIsNotCanceled(u.FileNames([dir]), u.DirNames([dir]));
    UploadedNames(t, shard, at, w, agentFound, files);
    AdmittedInWindow(dir, w);
    DirectoryMarkedAsShard(shard, at, w);
  }

  lemma UploadedIsNotCanceled(files: set<string>, dirs: set<string>)
    requires dirs <= {UPLOADED}
    ensures CanceledFiles(files + dirs) == CanceledFiles(files)
  {
    assert !HasSuffix(UPLOADED, ".canceled");
  }

  /** That is every merged file that could be saved, unless its name or the shard has ".canceled" in it
      or its name was canceled as an ID. */
  lemma MergedOfferedBelow(shard: ShardName, at: Civil, w: seq<Request>, files: seq<Option<Saved>>, file: Saved)
    requires Valid(at) && Some(file) in files && '/' !in file.name
    ensures AchName(file.name) in
              Admitted(DirName(shard, at) + "/" + UPLOADED, CanceledFiles(HandleAll(w).Keys), SavedNames(files))
            <==> !Marked(shard, file.name, ".canceled") && file.name !in CanceledStems(w)
  {
    var dir, n := DirName(shard, at), AchName(file.name);
    assert n in SavedNames(files);
    AcceptsPath(CanceledFiles(HandleAll(w).Keys), dir + "/" + UPLOADED, n);
    ContainsApart(dir, '/', UPLOADED, ".canceled");
    NotInShort(UPLOADED, ".canceled");
    StampHasNoDot(shard, at, ".canceled");
    ExtensionsDoNotHide(file.name);
    InCanceledFiles(HandleAll(w).Keys, n);
    WindowContents(w, file.name);
    assert "/" == ['/'];
  }
}
