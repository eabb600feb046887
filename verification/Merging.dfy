/** The merging of one shard over its storage (internal/pipeline/merging.go). Reading, rendering,
    merging and uploading ACH files belong to other libraries and enter as function parameters. */
module Merging {
  import opened Text
  import opened Calendar
  import opened Disk
  import opened Paths
  import opened Pending
  import opened Cutoff
  import opened Attribution

  /** The ACH library as far as it is used: every function may fail. */
  datatype Codec = Codec(
    parse: (Bytes, Option<Bytes>) -> Option<ACHFile>,
    validOpts: Bytes -> bool,
    render: ACHFile -> Option<Bytes>,
    optsOf: ACHFile -> Option<Bytes>,
    hash: Bytes -> string)

  type Flatten = Option<ACHFile -> Option<ACHFile>>
  type Upload = (nat, ACHFile) -> Option<string>

  /** Merging a directory of the tree, with the names its acceptor takes for canceled. */
  type MergeDir = (Tree, string, set<string>) -> MergeResult

  datatype MergeResult = MergeResult(files: seq<ACHFile>, ok: bool)
  datatype CancelResponse = CancelResponse(fileID: string, successful: bool)

  /** `Panicked` stands for a lookup in an index that could not be built. */
  datatype Outcome = Nil | Failed | Panicked

  // What a cutoff reads back

  function BeforeLastDot(n: string): string {
    if '.' !in n then n
    else if n[|n| - 1] == '.' then n[..|n| - 1]
    else BeforeLastDot(n[..|n| - 1])
  }

  datatype OptsRead = NoOpts | GoodOpts(data: Bytes) | BadOpts

  function ReadOpts(t: Tree, codec: Codec, dir: string, n: string): OptsRead {
    var p := [dir, BeforeLastDot(n) + ".json"];
    if !t.Opens(p) then NoOpts
    else if p in t.files && codec.validOpts(t.files[p]) then GoodOpts(t.files[p])
    else BadOpts
  }

  function ReadInput(t: Tree, codec: Codec, dir: string, n: string): Option<ACHFile> {
    var p := [dir, n];
    if !t.Opens(p) || p !in t.files then None
    else match ReadOpts(t, codec, dir, n)
      case NoOpts => codec.parse(t.files[p], None)
      case GoodOpts(opts) => codec.parse(t.files[p], Some(opts))
      case BadOpts => None
  }

  /** The files the mapping reads: what merging accepts, except options files. */
  predicate Mapped(canceled: set<string>, n: string) {
    !HasSuffix(n, ".json") && Accepts(canceled, n)
  }

  function MappedNames(t: Tree, dir: string, canceled: set<string>): set<string> {
    set n | n in t.FileNames([dir]) && Mapped(canceled, n)
  }

  /** The accepted files in directory order with their keys, unless one cannot be read. */
  ghost function ReadAll(t: Tree, codec: Codec, dir: string, names: seq<string>): Option<seq<Input>> {
    if names == [] then Some([])
    else
      var before, n := ReadAll(t, codec, dir, names[..|names| - 1]), names[|names| - 1];
      var file := ReadInput(t, codec, dir, n);
      if before.None? || file.None? then None else Some(before.value + [Input(n, Keys(file.value))])
  }

  ghost function MappingInputs(t: Tree, codec: Codec, dir: string, canceled: set<string>): Option<seq<Input>> {
    if [dir] !in t.dirs then None else ReadAll(t, codec, dir, Ascending(MappedNames(t, dir, canceled)))
  }

  // What a cutoff writes and reports

  function FlattenOne(flatten: Flatten, f: ACHFile): ACHFile {
    if flatten.Some? && flatten.value(f).Some? then flatten.value(f).value else f
  }

  function FlattenAll(flatten: Flatten, fs: seq<ACHFile>): (r: seq<ACHFile>)
    ensures |r| == |fs| && forall i | 0 <= i < |r| :: r[i] == FlattenOne(flatten, fs[i])
  {
    seq(|fs|, i requires 0 <= i < |fs| => FlattenOne(flatten, fs[i]))
  }

  predicate FlattensAll(flatten: Flatten, fs: seq<ACHFile>) {
    flatten.Some? ==> forall f | f in fs :: flatten.value(f).Some?
  }

  /** A merged file is saved under the hash of its contents. */
  function SavedAs(codec: Codec, f: ACHFile): Option<Saved> {
    var data := codec.render(f);
    if data.None? then None else Some(Saved(codec.hash(data.value), data.value, codec.optsOf(f)))
  }

  function SavedAll(codec: Codec, fs: seq<ACHFile>): (r: seq<Option<Saved>>)
    ensures |r| == |fs| && forall i | 0 <= i < |r| :: r[i] == SavedAs(codec, fs[i])
  {
    seq(|fs|, i requires 0 <= i < |fs| => SavedAs(codec, fs[i]))
  }

  /** The files whose callback succeeded, under the filenames it returned. */
  function UploadAll(upload: Upload, shard: string, fs: seq<ACHFile>): seq<MergedFile> {
    if fs == [] then []
    else
      var n := |fs| - 1;
      var before, filename := UploadAll(upload, shard, fs[..n]), upload(n, fs[n]);
      if filename.Some? then before + [MergedFile([], filename.value, fs[n], shard)] else before
  }

  predicate UploadsAll(upload: Upload, fs: seq<ACHFile>) {
    fs == [] || (UploadsAll(upload, fs[..|fs| - 1]) && upload(|fs| - 1, fs[|fs| - 1]).Some?)
  }

  predicate AnyEntry(merged: seq<MergedFile>) {
    exists i | 0 <= i < |merged| :: Keys(merged[i].file) != []
  }

  /** What the merge library hands a cutoff: it runs on the isolated directory. */
  function MergedIn(t: Tree, shard: string, at: Civil, mergeDir: MergeDir): MergeResult
    requires Valid(at)
  {
    mergeDir(IsolateTree(t, shard, at).tree, DirName(shard, at), CanceledIn(t, shard, at))
  }

  function CanceledIn(t: Tree, shard: string, at: Civil): set<string>
    requires Valid(at)
  {
    CanceledFiles(IsolateTree(t, shard, at).tree.ChildNames([DirName(shard, at)]))
  }

  /** The tree just before the merged files are saved. */
  function MadeTree(isolated: Tree, dir: string, nothing: bool): Tree {
    (if nothing then isolated.RmdirAll([dir]) else isolated).MkdirAll([dir, UPLOADED]).tree
  }

  /** Nothing went wrong in a cutoff, the mapping of its inputs aside. */
  predicate AllWell(codec: Codec, flatten: Flatten, upload: Upload, made: Tree, dir: string, r: MergeResult) {
    var files := FlattenAll(flatten, r.files);
    && r.ok && FlattensAll(flatten, r.files)
    && SaveAllTree(made, dir, SavedAll(codec, files)).ok
    && UploadsAll(upload, files)
  }

  /** The result of a cutoff once its files are uploaded: each upload with the inputs the search
      finds for it. Without a mapping, the first lookup panics. */
  ghost predicate Reported(inputs: Option<seq<Input>>, uploaded: seq<MergedFile>, well: bool,
      merged: seq<MergedFile>, outcome: Outcome)
  {
    match inputs
    case None => if AnyEntry(uploaded) then outcome == Panicked else merged == uploaded && outcome == Failed
    case Some(ins) =>
      && outcome == (if well then Nil else Failed)
      && |merged| == |uploaded|
      && forall i | 0 <= i < |merged| ::
           merged[i] == uploaded[i].(inputFilepaths := Attribute(BuildIndex(ins), OutputKeys(uploaded))[i])
  }

  class FilesystemMerging {
    const storage: Filesystem
    const shard: ShardName
    const codec: Codec
    const flatten: Flatten

    constructor (storage: Filesystem, shard: ShardName, codec: Codec, flatten: Flatten)
      ensures this.storage == storage && this.shard == shard && this.codec == codec && this.flatten == flatten
    {
      this.storage, this.shard, this.codec, this.flatten := storage, shard, codec, flatten;
    }

    /** `rendered` is the Nacha form of the file, if it could be written. */
    method HandleXfer(id: string, rendered: Option<Bytes>, opts: Option<Bytes>) returns (ok: bool)
      requires storage.Valid()
      modifies storage
      ensures storage.Valid()
      ensures if rendered.None? then !ok && storage.State() == old(storage.State())
              else Result(storage.State(), ok) == XferTree(old(storage.State()), shard, id, rendered.value, opts)
    {
      if rendered.None? { return false; }
      ok := storage.WriteFile(AchPath(shard, id), rendered.value);
      if !ok { return; }
      if opts.Some? {
        var _ := storage.WriteFile(JsonPath(shard, id), opts.value);
      }
    }

    method HandleCancel(id: string) returns (out: CancelResponse, ok: bool)
      requires storage.Valid()
      modifies storage
      ensures storage.Valid()
      ensures Result(storage.State(), ok) == CancelTree(old(storage.State()), shard, id)
      ensures out == CancelResponse(id, CancelSuccessful(old(storage.State()), shard, id))
    {
      var path := AchPath(shard, id);
      var canceledPath := CanceledPath(shard, id);
      var originalFileWasFound := storage.State().Opens(path);
      var canceledFileWasFound := false;
      if !originalFileWasFound {
        canceledFileWasFound := storage.State().Opens(canceledPath);
      }
      ok := storage.ReplaceFile(path, canceledPath);
      out := CancelResponse(id, (originalFileWasFound || canceledFileWasFound) && ok);
    }

    method GetCanceledFiles(dir: string) returns (out: Option<seq<string>>)
      requires storage.Valid()
      ensures out.Some? <==> [dir] in storage.dirs
      ensures out.Some? ==> forall n :: n in out.value <==> n in CanceledFiles(storage.State().ChildNames([dir]))
    {
      var matches := storage.Glob([dir], ".canceled");
      if matches.None? { return None; }
      GlobTwoParts(storage.State(), dir, ".canceled", matches.value);
      var names := TrimMatches(matches.value);
      TrimAllIsCanceled(storage.State(), dir, matches.value);
      return Some(names);
    }

    /** The files of a directory no canceled file's path begins with. */
    method GetNonCanceledMatches(dir: string) returns (out: Option<seq<string>>)
      requires storage.Valid()
      ensures out.Some? <==> [dir] in storage.dirs
      ensures out.Some? ==> forall p :: p in out.value <==>
                exists n :: n in NonCanceled(storage.State().ChildNames([dir])) && p == dir + "/" + n
    {
      var positive := storage.Glob([dir], ".ach");
      if positive.None? { return None; }
      var negative := storage.Glob([dir], ".canceled");
      if negative.None? { return None; }
      GlobTwoParts(storage.State(), dir, ".ach", positive.value);
      GlobTwoParts(storage.State(), dir, ".canceled", negative.value);
      var paths := KeepUnshadowed(positive.value, negative.value);
      UnshadowedIsNonCanceled(storage.State(), dir, positive.value, negative.value);
      return Some(paths);
    }

    /** The index of the input files, or null if the directory or an accepted file cannot be read. */
    method BuildDirMapping(dir: string, canceledFiles: seq<string>) returns (tree: TreeMap?)
      requires storage.Valid()
      ensures tree == null <==> MappingInputs(storage.State(), codec, dir, Names(canceledFiles)).None?
      ensures tree != null ==> fresh(tree)
      ensures tree != null ==>
          tree.entries == BuildIndex(MappingInputs(storage.State(), codec, dir, Names(canceledFiles)).value)
    {
      var fds := storage.ReadDir([dir]);
      if fds.None? { return null; }
      ListedInOrder(storage.State(), dir, Names(canceledFiles), fds.value);
      tree := IndexListing(dir, canceledFiles, fds.value);
    }

    /** The loop over the listing. */
    method IndexListing(dir: string, canceledFiles: seq<string>, fds: seq<DirEntry>) returns (tree: TreeMap?)
      requires storage.Valid()
      ensures var inputs := ReadAll(storage.State(), codec, dir, MappedOf(Names(canceledFiles), fds));
              && (tree == null <==> inputs.None?)
              && (tree != null ==> fresh(tree) && tree.entries == BuildIndex(inputs.value))
    {
      ghost var t, canceled := storage.State(), Names(canceledFiles);
      var index := new TreeMap();
      for i := 0 to |fds|
        invariant Indexed(t, codec, dir, canceled, fds[..i], index.entries)
      {
        assert fds[..i + 1] == fds[..i] + [fds[i]];
        IndexMore(t, codec, dir, canceled, fds[..i], fds[i], index.entries);
        var path := fds[i].name;
        if fds[i].isDir || !Mapped(Names(canceledFiles), path) { continue; }
        var file := ReadInput(storage.State(), codec, dir, path);
        if file.None? {
          UnreadableFails(t, codec, dir, canceled, fds, i + 1);
          return null;
        }
        AccumulateMappings(index, file.value, path);
      }
      assert fds[..|fds|] == fds;
      return index;
    }

    method SaveMergedFile(dir: string, file: ACHFile) returns (ok: bool)
      requires storage.Valid()
      modifies storage
      ensures storage.Valid() && Result(storage.State(), ok) ==
          SaveTree(old(storage.State()), dir, SavedAs(codec, file))
    {
      var data := codec.render(file);
      if data.None? { return false; }
      var name := codec.hash(data.value);
      ok := storage.WriteFile([dir, UPLOADED, AchName(name)], data.value);
      if ok && codec.optsOf(file).Some? {
        ok := storage.WriteFile([dir, UPLOADED, JsonName(name)], codec.optsOf(file).value);
      }
    }

    /** The first loop of a cutoff: flatten each merged file, or keep it as it is, and save it. */
    method FlattenAndSave(dir: string, files: seq<ACHFile>) returns (flattened: seq<ACHFile>, ok: bool)
      requires storage.Valid()
      modifies storage
      ensures storage.Valid() && flattened == FlattenAll(flatten, files)
      ensures |flattened| == |files| && (flatten.None? ==> flattened == files)
      ensures flatten.Some? ==> forall i | 0 <= i < |files| ::
          flattened[i] == match flatten.value(files[i]) { case Some(flat) => flat case None => files[i] }
      ensures var saved := SaveAllTree(old(storage.State()), dir, SavedAll(codec, flattened));
              storage.State() == saved.tree && (ok <==> saved.ok && FlattensAll(flatten, files))
    {
      flattened, ok := [], true;
      ghost var start, saved := storage.State(), true;
      for i := 0 to |files|
        invariant storage.Valid() && flattened == FlattenAll(flatten, files[..i])
        invariant Result(storage.State(), saved) == SaveAllTree(start, dir, SavedAll(codec, flattened))
        invariant ok <==> saved && FlattensAll(flatten, files[..i])
      {
        assert files[..i + 1] == files[..i] + [files[i]];
        FlattenMore(flatten, files[..i], files[i]);
        SaveMore(start, codec, dir, flattened, FlattenOne(flatten, files[i]));
        var file := files[i];
        if flatten.Some? {
          if flatten.value(file).None? {
            ok := false;
          } else {
            file := flatten.value(file).value;
          }
        }
        flattened := flattened + [file];
        var written := SaveMergedFile(dir, file);
        saved := saved && written;
        ok := ok && written;
      }
      assert files[..|files|] == files;
    }

    /** The second loop: hand each file to the callback and keep the ones it took. */
    method UploadEach(upload: Upload, files: seq<ACHFile>) returns (merged: seq<MergedFile>, ok: bool)
      ensures merged == UploadAll(upload, shard, files)
      ensures ok <==> UploadsAll(upload, files)
    {
      merged, ok := [], true;
      for i := 0 to |files|
        invariant merged == UploadAll(upload, shard, files[..i])
        invariant ok <==> UploadsAll(upload, files[..i])
      {
        assert files[..i + 1] == files[..i] + [files[i]];
        UploadMore(upload, shard, files[..i], files[i]);
        var filename := upload(i, files[i]);
        if filename.None? {
          ok := false;
        } else {
          merged := merged + [MergedFile([], filename.value, files[i], shard)];
        }
      }
      assert files[..|files|] == files;
    }

    /** A whole cutoff at the local time `now`. Storage ends as CutoffTree says, whatever the
        uploads do; the returned files are the uploaded ones with their inputs. */
    method WithEachMerged(now: Civil, mergeDir: MergeDir, agentFound: bool, upload: Upload)
      returns (merged: seq<MergedFile>, outcome: Outcome)
      requires storage.Valid() && Valid(now)
      modifies storage
      ensures storage.Valid()
      ensures storage.State() == Outbound(old(storage.State()), now, mergeDir, agentFound)
      ensures Reports(old(storage.State()), now, mergeDir, agentFound, upload, merged, outcome)
    {
      ghost var t, at := storage.State(), now;
      var dir := DirName(shard, now);
      var ok := storage.ReplaceDir(PendingDir(shard), [dir]);
      if !ok { return [], Failed; }
      var canceledFiles := GetCanceledFiles(dir);
      if canceledFiles.None? { return [], Failed; }
      assert Names(canceledFiles.value) == CanceledIn(t, shard, at);
      var result := mergeDir(storage.State(), dir, Names(canceledFiles.value));
      if |result.files| == 0 { storage.RmdirAll([dir]); }
      var _ := storage.MkdirAll([dir, UPLOADED]);
      if !agentFound { return [], Failed; }
      ghost var made := storage.State();
      var files, saved := FlattenAndSave(dir, result.files);
      var uploaded, sent := UploadEach(upload, files);
      var index := BuildDirMapping(dir, canceledFiles.value);
      UploadedWithoutInputs(upload, shard, files);
      merged, outcome := SearchInputs(index, MappingInputs(storage.State(), codec, dir, CanceledIn(t, shard, at)),
                                      uploaded, result.ok && saved && sent);
    }

    /** The tree a cutoff of this shard leaves. */
    ghost function Outbound(t: Tree, now: Civil, mergeDir: MergeDir, agentFound: bool): Tree
      requires Valid(now)
    {
      CutoffTree(t, shard, now, agentFound, SavedAll(codec,
          FlattenAll(flatten, MergedIn(t, shard, now, mergeDir).files)))
    }

    /** What a cutoff of this shard returns. */
    ghost predicate Reports(t: Tree, now: Civil, mergeDir: MergeDir, agentFound: bool, upload: Upload,
                            merged: seq<MergedFile>, outcome: Outcome)
      requires Valid(now)
    {
      var dir, isolated, r := DirName(shard, now), IsolateTree(t, shard, now), MergedIn(t, shard, now, mergeDir);
      if !Isolated(isolated, dir) || !agentFound then merged == [] && outcome == Failed
      else Reported(MappingInputs(Outbound(t, now, mergeDir, true), codec, dir, CanceledIn(t, shard, now)),
                    UploadAll(upload, shard, FlattenAll(flatten, r.files)),
                    AllWell(codec, flatten, upload, MadeTree(isolated.tree, dir, r.files == []), dir, r),
                    merged, outcome)
    }
  }

  function Names(s: seq<string>): set<string> {
    set n | n in s
  }

  /** The search over the uploaded files; a lookup without an index panics. */
  method SearchInputs(index: TreeMap?, ghost inputs: Option<seq<Input>>, uploaded: seq<MergedFile>, well: bool)
    returns (merged: seq<MergedFile>, outcome: Outcome)
    requires index == null <==> inputs.None?
    requires index != null ==> index.entries == BuildIndex(inputs.value)
    requires forall m | m in uploaded :: m.inputFilepaths == []
    modifies index
    ensures Reported(inputs, uploaded, well, merged, outcome)
  {
    if index == null {
      return uploaded, if AnyEntry(uploaded) then Panicked else Failed;
    }
    merged := FindInputFilepaths(index, uploaded);
    outcome := if well then Nil else Failed;
    forall i | 0 <= i < |uploaded|
      ensures merged[i] == uploaded[i].(inputFilepaths := Attribute(BuildIndex(inputs.value), OutputKeys(uploaded))[i])
    {
      assert uploaded[i].inputFilepaths == [];
      assert (set p | p in uploaded[i].inputFilepaths) + Found(BuildIndex(inputs.value), OutputKeys(uploaded), i)
          == Found(BuildIndex(inputs.value), OutputKeys(uploaded), i);
    }
  }

  lemma FlattenMore(flatten: Flatten, fs: seq<ACHFile>, f: ACHFile)
    ensures FlattenAll(flatten, fs + [f]) == FlattenAll(flatten, fs) + [FlattenOne(flatten, f)]
    ensures FlattensAll(flatten, fs + [f]) <==> FlattensAll(flatten, fs) && (flatten.Some? ==> flatten.value(f).Some?)
  {
    assert forall g :: g in fs + [f] <==> g in fs || g == f;
  }

  lemma SaveMore(t: Tree, codec: Codec, dir: string, fs: seq<ACHFile>, f: ACHFile)
    ensures var before := SaveAllTree(t, dir, SavedAll(codec, fs));
            var last := SaveTree(before.tree, dir, SavedAs(codec, f));
            SaveAllTree(t, dir, SavedAll(codec, fs + [f])) == Result(last.tree, before.ok && last.ok)
  {
    assert SavedAll(codec, fs + [f])[..|fs|] == SavedAll(codec, fs);
  }

  lemma UploadMore(upload: Upload, shard: string, fs: seq<ACHFile>, f: ACHFile)
    ensures var filename := upload(|fs|, f);
            && UploadAll(upload, shard, fs + [f]) ==
                 (if filename.Some? then UploadAll(upload, shard, fs) + [MergedFile([], filename.value, f, shard)]
                  else UploadAll(upload, shard, fs))
            && (UploadsAll(upload, fs + [f]) <==> UploadsAll(upload, fs) && filename.Some?)
  {
    var more := fs + [f];
    assert more[..|fs|] == fs && more[|fs|] == f;
  }

  lemma {:induction false} UploadedWithoutInputs(upload: Upload, shard: string, fs: seq<ACHFile>)
    ensures forall m | m in UploadAll(upload, shard, fs) :: m.inputFilepaths == []
  {
    if fs != [] { UploadedWithoutInputs(upload, shard, fs[..|fs| - 1]); }
  }

  // The mapping loop

  /** The names of a listing the mapping reads, in its order. */
  function MappedOf(canceled: set<string>, entries: seq<DirEntry>): seq<string> {
    if entries == [] then []
    else
      var e := entries[|entries| - 1];
      MappedOf(canceled, entries[..|entries| - 1]) + (if !e.isDir && Mapped(canceled, e.name) then [e.name] else [])
  }

  lemma {:induction false} MappedOfMembers(canceled: set<string>, entries: seq<DirEntry>)
    ensures forall n :: n in MappedOf(canceled, entries) <==> DirEntry(n, false) in entries && Mapped(canceled, n)
  {
    if entries != [] {
      var rest := entries[..|entries| - 1];
      assert entries == rest + [entries[|entries| - 1]];
      MappedOfMembers(canceled, rest);
    }
  }

  lemma {:induction false} MappedOfSorted(canceled: set<string>, entries: seq<DirEntry>)
    requires forall i, j | 0 <= i < j < |entries| :: Less(entries[i].name, entries[j].name)
    ensures StrictlySorted(MappedOf(canceled, entries))
  {
    if entries != [] {
      var rest := entries[..|entries| - 1];
      MappedOfSorted(canceled, rest);
      MappedOfMembers(canceled, rest);
      var before := MappedOf(canceled, rest);
      forall i | 0 <= i < |before| ensures Less(before[i], entries[|entries| - 1].name) {
        assert before[i] in before;
        var j :| 0 <= j < |rest| && rest[j] == DirEntry(before[i], false);
      }
    }
  }

  lemma ListedInOrder(t: Tree, dir: string, canceled: set<string>, entries: seq<DirEntry>)
    requires IsListing(t, [dir], entries)
    ensures MappedOf(canceled, entries) == Ascending(MappedNames(t, dir, canceled))
  {
    MappedOfMembers(canceled, entries);
    MappedOfSorted(canceled, entries);
    AscendingUnique(MappedOf(canceled, entries), MappedNames(t, dir, canceled));
  }

  ghost predicate Indexed(t: Tree, codec: Codec, dir: string, canceled: set<string>, seen: seq<DirEntry>,
      index: Index)
  {
    var inputs := ReadAll(t, codec, dir, MappedOf(canceled, seen));
    inputs.Some? && index == BuildIndex(inputs.value)
  }

  lemma ReadMore(t: Tree, codec: Codec, dir: string, names: seq<string>, n: string)
    ensures var before, file := ReadAll(t, codec, dir, names), ReadInput(t, codec, dir, n);
            ReadAll(t, codec, dir, names + [n]) ==
            if before.None? || file.None? then None else Some(before.value + [Input(n, Keys(file.value))])
  {
    assert (names + [n])[..|names|] == names;
  }

  lemma MappedMore(canceled: set<string>, seen: seq<DirEntry>, e: DirEntry)
    ensures MappedOf(canceled, seen + [e]) ==
            if !e.isDir && Mapped(canceled, e.name) then MappedOf(canceled, seen) + [e.name]
                else MappedOf(canceled, seen)
  {
    assert (seen + [e])[..|seen|] == seen;
  }

  /** One entry of the listing: skipped, read and added to the index, or unreadable. */
  lemma IndexMore(t: Tree, codec: Codec, dir: string, canceled: set<string>, seen: seq<DirEntry>, e: DirEntry,
      index: Index)
    requires Indexed(t, codec, dir, canceled, seen, index)
    ensures var file := ReadInput(t, codec, dir, e.name);
            if e.isDir || !Mapped(canceled, e.name) then Indexed(t, codec, dir, canceled, seen + [e], index)
            else if file.Some? then Indexed(t, codec, dir, canceled, seen + [e],
                index + Label(Keys(file.value), e.name))
            else ReadAll(t, codec, dir, MappedOf(canceled, seen + [e])).None?
  {
    var names := MappedOf(canceled, seen);
    var inputs, file := ReadAll(t, codec, dir, names).value, ReadInput(t, codec, dir, e.name);
    MappedMore(canceled, seen, e);
    ReadMore(t, codec, dir, names, e.name);
    if file.Some? { BuildMore(inputs, Input(e.name, Keys(file.value))); }
  }

  lemma BuildMore(inputs: seq<Input>, last: Input)
    ensures BuildIndex(inputs + [last]) == BuildIndex(inputs) + Label(last.keys, last.name)
  {
    assert (inputs + [last])[..|inputs|] == inputs;
  }

  /** One unreadable file fails the whole mapping. */
  lemma {:induction false} UnreadableFails(t: Tree, codec: Codec, dir: string, canceled: set<string>,
      entries: seq<DirEntry>, i: nat)
    requires i <= |entries| && ReadAll(t, codec, dir, MappedOf(canceled, entries[..i])).None?
    ensures ReadAll(t, codec, dir, MappedOf(canceled, entries)).None?
    decreases |entries|
  {
    if i == |entries| {
      assert entries[..i] == entries;
    } else {
      var before, e := entries[..|entries| - 1], entries[|entries| - 1];
      assert before[..i] == entries[..i] && entries == before + [e];
      UnreadableFails(t, codec, dir, canceled, before, i);
      MappedMore(canceled, before, e);
      ReadMore(t, codec, dir, MappedOf(canceled, before), e.name);
    }
  }

  method TrimMatches(matches: seq<Path>) returns (out: seq<string>)
    requires TwoParts(matches)
    ensures out == TrimAll(matches)
  {
    out := [];
    for i := 0 to |matches|
      invariant out == TrimAll(matches[..i])
    {
      assert matches[..i + 1][..i] == matches[..i];
      out := out + [TrimSuffix(matches[i][1], ".canceled")];
    }
    assert matches[..|matches|] == matches;
  }

  /** The nested loop over both lists of matches. */
  method KeepUnshadowed(positive: seq<Path>, negative: seq<Path>) returns (out: seq<string>)
    requires TwoParts(positive) && TwoParts(negative)
    ensures out == Unshadowed(positive, negative)
  {
    out := [];
    for i := 0 to |positive|
      invariant out == Unshadowed(positive[..i], negative)
    {
      assert positive[..i + 1][..i] == positive[..i];
      var exclude := false;
      for j := 0 to |negative|
        invariant !exclude && forall k | 0 <= k < j :: !(Relative(positive[i]) <= Relative(negative[k]))
      {
        if Relative(positive[i]) <= Relative(negative[j]) {
          exclude := true;
          break;
        }
      }
      if !exclude { out := out + [Relative(positive[i])]; }
    }
    assert positive[..|positive|] == positive;
  }

  lemma GlobTwoParts(t: Tree, dir: string, suffix: string, matches: seq<Path>)
    requires IsGlob(t, [dir], suffix, matches)
    ensures TwoParts(matches)
  {
  }

  predicate TwoParts(paths: seq<Path>) {
    forall p | p in paths :: |p| == 2
  }

  function TrimAll(matches: seq<Path>): seq<string>
    requires TwoParts(matches)
  {
    if matches == [] then []
    else TrimAll(matches[..|matches| - 1]) + [TrimSuffix(matches[|matches| - 1][1], ".canceled")]
  }

  function Relative(p: Path): string
    requires |p| == 2
  {
    p[0] + "/" + p[1]
  }

  predicate Shadows(negative: seq<Path>, p: Path)
    requires |p| == 2 && TwoParts(negative)
  {
    exists k | 0 <= k < |negative| :: Relative(p) <= Relative(negative[k])
  }

  function Unshadowed(positive: seq<Path>, negative: seq<Path>): seq<string>
    requires TwoParts(positive) && TwoParts(negative)
  {
    if positive == [] then []
    else
      var p := positive[|positive| - 1];
      Unshadowed(positive[..|positive| - 1], negative) + (if Shadows(negative, p) then [] else [Relative(p)])
  }

  lemma {:induction false} TrimAllMembers(matches: seq<Path>)
    requires TwoParts(matches)
    ensures forall p | p in matches :: TrimSuffix(p[1], ".canceled") in TrimAll(matches)
    ensures forall n | n in TrimAll(matches) :: exists p :: p in matches && n == TrimSuffix(p[1], ".canceled")
  {
    if matches != [] {
      var rest := matches[..|matches| - 1];
      assert matches == rest + [matches[|matches| - 1]];
      TrimAllMembers(rest);
    }
  }

  lemma TrimAllIsCanceled(t: Tree, dir: string, matches: seq<Path>)
    requires IsGlob(t, [dir], ".canceled", matches)
    ensures forall n :: n in TrimAll(matches) <==> n in CanceledFiles(t.ChildNames([dir]))
  {
    TrimAllMembers(matches);
    forall n | n in CanceledFiles(t.ChildNames([dir])) ensures n in TrimAll(matches) {
      var m :| m in t.ChildNames([dir]) && HasSuffix(m, ".canceled") && n == TrimSuffix(m, ".canceled");
      assert ([dir] + [m])[1] == m;
    }
  }

  lemma {:induction false} UnshadowedMembers(positive: seq<Path>, negative: seq<Path>)
    requires TwoParts(positive) && TwoParts(negative)
    ensures forall p | p in positive && !Shadows(negative, p) :: Relative(p) in Unshadowed(positive, negative)
    ensures forall r | r in Unshadowed(positive, negative) ::
              exists p :: p in positive && !Shadows(negative, p) && r == Relative(p)
  {
    if positive != [] {
      var rest := positive[..|positive| - 1];
      assert positive == rest + [positive[|positive| - 1]];
      UnshadowedMembers(rest, negative);
    }
  }

  lemma RelativePrefix(dir: string, n: string, m: string)
    ensures Relative([dir, n]) <= Relative([dir, m]) <==> n <= m
  {
    var a, b := Relative([dir, n]), Relative([dir, m]);
    assert a[|dir| + 1..] == n && b[|dir| + 1..] == m;
    if n <= m {
      assert m == n + m[|n|..];
      assert b == a + m[|n|..];
    }
    if a <= b {
      assert b[..|a|] == a;
      assert m[..|n|] == b[|dir| + 1..|a|] == n;
    }
  }

  lemma ShadowsIsShadowed(t: Tree, dir: string, negative: seq<Path>, n: string)
    requires IsGlob(t, [dir], ".canceled", negative)
    ensures Shadows(negative, [dir, n]) <==> Shadowed(t.ChildNames([dir]), n)
  {
    if k :| 0 <= k < |negative| && Relative([dir, n]) <= Relative(negative[k]) {
      assert negative[k] in negative;
      assert negative[k] == [dir, negative[k][1]];
      RelativePrefix(dir, n, negative[k][1]);
    }
    if m :| m in t.ChildNames([dir]) && HasSuffix(m, ".canceled") && n <= m {
      RelativePrefix(dir, n, m);
      assert [dir] + [m] == [dir, m];
      var k :| 0 <= k < |negative| && negative[k] == [dir, m];
    }
  }

  lemma UnshadowedIsNonCanceled(t: Tree, dir: string, positive: seq<Path>, negative: seq<Path>)
    requires IsGlob(t, [dir], ".ach", positive) && IsGlob(t, [dir], ".canceled", negative)
    ensures forall r :: r in Unshadowed(positive, negative) <==>
              exists n :: n in NonCanceled(t.ChildNames([dir])) && r == Relative([dir, n])
  {
    var names := t.ChildNames([dir]);
    forall n ensures n in NonCanceled(names) <==> [dir, n] in positive && !Shadows(negative, [dir, n]) {
      PositiveName(t, dir, positive, n);
      ShadowsIsShadowed(t, dir, negative, n);
    }
    UnshadowedInDir(dir, positive, negative);
  }

  lemma UnshadowedInDir(dir: string, positive: seq<Path>, negative: seq<Path>)
    requires TwoParts(negative) && forall p | p in positive :: |p| == 2 && p[0] == dir
    ensures forall r :: r in Unshadowed(positive, negative) <==>
              exists n :: [dir, n] in positive && !Shadows(negative, [dir, n]) && r == Relative([dir, n])
  {
    UnshadowedMembers(positive, negative);
    forall r | r in Unshadowed(positive, negative)
      ensures exists n :: [dir, n] in positive && !Shadows(negative, [dir, n]) && r == Relative([dir, n])
    {
      var p :| p in positive && !Shadows(negative, p) && r == Relative(p);
      assert p == [dir, p[1]];
    }
  }

  lemma PositiveName(t: Tree, dir: string, positive: seq<Path>, n: string)
    requires IsGlob(t, [dir], ".ach", positive)
    ensures [dir, n] in positive <==> n in t.ChildNames([dir]) && HasSuffix(n, ".ach")
  {
    assert [dir] + [n] == [dir, n] && [dir, n][1] == n;
  }
}
