/** The storage chest over a directory tree (internal/storage/filesystem.go): every operation as
    a function on trees, the class whose methods apply them in place, and the tree laws. */
module Disk {
  import opened Text

  newtype byte = x: int | 0 <= x < 256
  type Bytes = seq<byte>
  type Path = seq<string>

  datatype Result = Result(tree: Tree, ok: bool)

  /** A directory tree below the storage root `[]`. */
  datatype Tree = Tree(files: map<Path, Bytes>, dirs: set<Path>) {

    predicate Exists(p: Path) { p in files || p in dirs }

    /** A path that runs through a regular file. */
    predicate Blocked(p: Path) {
      exists i | 0 <= i <= |p| :: p[..i] in files
    }

    function MkdirAll(p: Path): Result {
      if Blocked(p) then Result(this, false) else Result(this.(dirs := dirs + Ancestors(p)), true)
    }

    /** Opening for writing creates or truncates; it fails on a directory. */
    function Write(p: Path, data: Bytes): Result {
      if p in dirs then Result(this, false) else Result(this.(files := files[p := data]), true)
    }

    /** os.Rename: an existing target directory, a missing target parent, a move of a directory
        onto a file and a move into itself are errors. */
    function Rename(src: Path, dst: Path): Result {
      if src == [] || dst == [] || !Exists(src) || dst in dirs || Parent(dst) !in dirs then Result(this, false)
      else if src in files then Result(this.(files := (files - {src})[dst := files[src]]), true)
      else if dst in files || src <= dst then Result(this, false)
      else Result(Tree(MoveFiles(files, src, dst), MoveDirs(dirs, src, dst)), true)
    }

    function WriteFile(p: Path, data: Bytes): Result
      requires p != []
    {
      var made := MkdirAll(Parent(p));
      if made.ok then made.tree.Write(p, data) else made
    }

    /** A missing old file leaves an empty new one behind. */
    function ReplaceFile(src: Path, dst: Path): Result
      requires src != [] && dst != []
    {
      var made := MkdirAll(Parent(dst));
      if !made.ok then made
      else if !made.tree.Exists(src) && !made.tree.Blocked(src) then made.tree.Write(dst, [])
      else made.tree.Rename(src, dst)
    }

    /** A missing old directory leaves the new one in place, created if need be. */
    function ReplaceDir(src: Path, dst: Path): Result {
      if !Exists(src) && !Blocked(src) then MkdirAll(dst) else Rename(src, dst)
    }

    function RmdirAll(p: Path): Tree {
      Tree(map q | q in files && !(p <= q) :: files[q], set d | d in dirs && !(p <= d))
    }

    /** Open refuses any path with two dots in a row; a directory opens too. */
    predicate Opens(p: Path) {
      Exists(p) && forall i | 0 <= i < |p| :: !Contains(p[i], "..")
    }

    function FileNames(d: Path): set<string> {
      set p | p in files && |p| == |d| + 1 && d <= p :: p[|d|]
    }

    function DirNames(d: Path): set<string> {
      set p | p in dirs && |p| == |d| + 1 && d <= p :: p[|d|]
    }

    function ChildNames(d: Path): set<string> {
      FileNames(d) + DirNames(d)
    }

    /** The regular files of one directory, by name. */
    ghost function FilesIn(d: Path): (m: map<string, Bytes>)
      ensures forall n :: n in m <==> d + [n] in files
      ensures forall n | n in m :: m[n] == files[d + [n]]
    {
      InDirectory(this, d);
      var found := map n | n in FileNames(d) :: files[d + [n]];
      assert IsFilesIn(d, found);
      var m :| IsFilesIn(d, m);
      m
    }

    ghost predicate IsFilesIn(d: Path, m: map<string, Bytes>) {
      && (forall n :: n in m <==> d + [n] in files)
      && (forall n | n in m :: m[n] == files[d + [n]])
    }
  }

  const EMPTY: Tree := Tree(map[], {[]})

  function Parent(p: Path): Path
    requires p != []
  {
    p[..|p| - 1]
  }

  function Ancestors(p: Path): set<Path> {
    set i | 0 <= i <= |p| :: p[..i]
  }

  function Moved(src: Path, dst: Path, p: Path): Path
    requires src <= p
  {
    dst + p[|src|..]
  }

  function MoveFiles(files: map<Path, Bytes>, src: Path, dst: Path): map<Path, Bytes> {
    (map p | p in files && !(src <= p) :: files[p])
    + (map q | q in (set p | p in files && src <= p :: Moved(src, dst, p)) && dst <= q
               && Moved(dst, src, q) in files :: files[Moved(dst, src, q)])
  }

  function MoveDirs(dirs: set<Path>, src: Path, dst: Path): set<Path> {
    (set d | d in dirs && !(src <= d)) + (set d | d in dirs && src <= d :: Moved(src, dst, d))
  }

  lemma InDirectory(t: Tree, d: Path)
    ensures forall n :: n in t.FileNames(d) <==> d + [n] in t.files
    ensures forall n :: n in t.DirNames(d) <==> d + [n] in t.dirs
  {
    forall n
      ensures n in t.FileNames(d) <==> d + [n] in t.files
      ensures n in t.DirNames(d) <==> d + [n] in t.dirs
    {
      assert (d + [n])[|d|] == n;
      forall p: Path | |p| == |d| + 1 && d <= p && p[|d|] == n ensures p == d + [n] { }
    }
  }

  /** Every entry hangs off a directory, and nothing is both a file and a directory. */
  ghost predicate IsTree(t: Tree) {
    && [] in t.dirs
    && (forall p | p in t.files :: p != [] && Parent(p) in t.dirs && p !in t.dirs)
    && (forall d | d in t.dirs && d != [] :: Parent(d) in t.dirs)
  }

  // Every operation keeps the tree a tree.

  lemma AncestorsClosed(p: Path)
    ensures [] in Ancestors(p) && p in Ancestors(p)
    ensures forall d | d in Ancestors(p) && d != [] :: Parent(d) in Ancestors(p)
  {
    assert p[..0] == [] && p[..|p|] == p;
    forall d | d in Ancestors(p) && d != [] ensures Parent(d) in Ancestors(p) {
      assert Parent(d) == p[..|d| - 1];
    }
  }

  lemma MkdirAllKeepsTree(t: Tree, p: Path)
    requires IsTree(t)
    ensures IsTree(t.MkdirAll(p).tree)
    ensures t.MkdirAll(p).ok ==> p in t.MkdirAll(p).tree.dirs
  {
    AncestorsClosed(p);
  }

  lemma WriteFileKeepsTree(t: Tree, p: Path, data: Bytes)
    requires IsTree(t) && p != []
    ensures IsTree(t.WriteFile(p, data).tree)
  {
    MkdirAllKeepsTree(t, Parent(p));
  }

  /** The file at `q` after a directory move is the one that was at the path it moved from:
      a move keeps every file and copies none. */
  lemma MoveFilesAt(files: map<Path, Bytes>, src: Path, dst: Path, q: Path)
    ensures var came := dst <= q && Moved(dst, src, q) in files;
            && (q in MoveFiles(files, src, dst) <==> came || (q in files && !(src <= q)))
            && (q in MoveFiles(files, src, dst) ==>
                MoveFiles(files, src, dst)[q] == files[if came then Moved(dst, src, q) else q])
  {
    if dst <= q {
      var p := Moved(dst, src, q);
      assert src <= p && Moved(src, dst, p) == q;
    }
  }

  lemma MoveDirsAt(dirs: set<Path>, src: Path, dst: Path, q: Path)
    requires forall d | d in dirs :: !(dst <= d)
    ensures q in MoveDirs(dirs, src, dst) <==>
            if dst <= q then Moved(dst, src, q) in dirs else q in dirs && !(src <= q)
  {
    forall d | d in dirs && src <= d ensures Moved(dst, src, Moved(src, dst, d)) == d { }
    if dst <= q {
      assert src <= Moved(dst, src, q) && Moved(src, dst, Moved(dst, src, q)) == q;
    }
  }

  /** Nothing lies below a path that does not exist. */
  lemma {:induction false} NothingBelow(t: Tree, p: Path, q: Path)
    requires IsTree(t) && p <= q && t.Exists(q)
    ensures p == q || p in t.dirs
    decreases |q|
  {
    if p != q {
      assert q != [] && p <= Parent(q);
      NothingBelow(t, p, Parent(q));
    }
  }

  lemma RenameKeepsTree(t: Tree, src: Path, dst: Path)
    requires IsTree(t)
    ensures IsTree(t.Rename(src, dst).tree)
  {
    var r := t.Rename(src, dst);
    if r.ok && src in t.dirs {
      forall p | p in t.files ensures !(dst <= p) {
        if dst <= p { NothingBelow(t, dst, p); }
      }
      forall d | d in t.dirs ensures !(dst <= d) {
        if dst <= d { NothingBelow(t, dst, d); }
      }
      forall p | p in r.tree.files
        ensures p != [] && Parent(p) in r.tree.dirs && p !in r.tree.dirs
      {
        MoveFilesAt(t.files, src, dst, p);
        MoveDirsAt(t.dirs, src, dst, p);
        MovedParent(t, src, dst, p);
      }
      forall d | d in r.tree.dirs && d != [] ensures Parent(d) in r.tree.dirs {
        MoveDirsAt(t.dirs, src, dst, d);
        MovedParent(t, src, dst, d);
      }
      MoveDirsAt(t.dirs, src, dst, []);
    }
  }

  lemma MovedParent(t: Tree, src: Path, dst: Path, q: Path)
    requires IsTree(t) && src in t.dirs && src != [] && dst != []
    requires Parent(dst) in t.dirs && !(src <= dst)
    requires forall d | d in t.dirs :: !(dst <= d)
    requires q != [] && if dst <= q then t.Exists(Moved(dst, src, q)) else t.Exists(q) && !(src <= q)
    ensures Parent(q) in MoveDirs(t.dirs, src, dst)
  {
    MoveDirsAt(t.dirs, src, dst, Parent(q));
    if dst < q {
      assert Parent(Moved(dst, src, q)) == Moved(dst, src, Parent(q));
    } else if dst == q {
      assert src <= Parent(dst) ==> src <= dst;
    } else {
      assert src <= Parent(q) ==> src <= q;
      assert dst <= Parent(q) ==> dst <= q;
    }
  }

  lemma ReplaceFileKeepsTree(t: Tree, src: Path, dst: Path)
    requires IsTree(t) && src != [] && dst != []
    ensures IsTree(t.ReplaceFile(src, dst).tree)
  {
    MkdirAllKeepsTree(t, Parent(dst));
    RenameKeepsTree(t.MkdirAll(Parent(dst)).tree, src, dst);
  }

  lemma RmdirAllKeepsTree(t: Tree, p: Path)
    requires IsTree(t) && p != []
    ensures IsTree(t.RmdirAll(p))
  {
    assert forall q: Path | q != [] :: p <= Parent(q) ==> p <= q;
  }

  datatype DirEntry = DirEntry(name: string, isDir: bool)

  /** A listing shows every child once, in ascending order. */
  predicate IsListing(t: Tree, d: Path, entries: seq<DirEntry>) {
    && (forall i, j | 0 <= i < j < |entries| :: Less(entries[i].name, entries[j].name))
    && (forall e | e in entries :: e.name in if e.isDir then t.DirNames(d) else t.FileNames(d))
    && (forall n | n in t.FileNames(d) :: DirEntry(n, false) in entries)
    && (forall n | n in t.DirNames(d) :: DirEntry(n, true) in entries)
  }

  lemma ListingExists(t: Tree, d: Path)
    requires IsTree(t)
    ensures exists entries :: IsListing(t, d, entries)
  {
    InDirectory(t, d);
    var dirs := t.DirNames(d);
    var names := Ascending(t.ChildNames(d));
    var entries := Tagged(names, dirs);
    TaggedNames(names, dirs);
    assert IsListing(t, d, entries);
  }

  lemma TaggedNames(names: seq<string>, dirs: set<string>)
    ensures forall n | n in names :: DirEntry(n, n in dirs) in Tagged(names, dirs)
    ensures forall e | e in Tagged(names, dirs) :: e.name in names && e.isDir == (e.name in dirs)
  {
    var entries := Tagged(names, dirs);
    forall n | n in names ensures DirEntry(n, n in dirs) in entries {
      var i :| 0 <= i < |names| && names[i] == n;
      assert entries[i] == DirEntry(n, n in dirs);
    }
    forall e | e in entries ensures e.name in names && e.isDir == (e.name in dirs) {
      var i :| 0 <= i < |entries| && entries[i] == e;
      assert names[i] in names;
    }
  }

  ghost function Tagged(names: seq<string>, dirs: set<string>): (r: seq<DirEntry>)
    ensures |r| == |names| && forall i | 0 <= i < |r| :: r[i] == DirEntry(names[i], names[i] in dirs)
  {
    seq(|names|, i requires 0 <= i < |names| => DirEntry(names[i], names[i] in dirs))
  }

  const READDIR_CHUNK_SIZE := 512

  /** The chest over a directory of the host. */
  class Filesystem {
    var files: map<Path, Bytes>
    var dirs: set<Path>

    function State(): Tree reads this { Tree(files, dirs) }

    ghost predicate Valid() reads this { IsTree(State()) }

    constructor ()
      ensures Valid() && State() == EMPTY
    {
      files, dirs := map[], {[]};
    }

    method MkdirAll(path: Path) returns (ok: bool)
      requires Valid()
      modifies this
      ensures Valid() && Result(State(), ok) == old(State()).MkdirAll(path)
    {
      MkdirAllKeepsTree(State(), path);
      ok := !State().Blocked(path);
      if ok { dirs := dirs + Ancestors(path); }
    }

    method Write(path: Path, data: Bytes) returns (ok: bool)
      modifies this
      ensures Result(State(), ok) == old(State()).Write(path, data)
    {
      ok := path !in dirs;
      if ok { files := files[path := data]; }
    }

    method WriteFile(path: Path, data: Bytes) returns (ok: bool)
      requires Valid() && path != []
      modifies this
      ensures Valid() && Result(State(), ok) == old(State()).WriteFile(path, data)
    {
      WriteFileKeepsTree(State(), path, data);
      ok := MkdirAll(Parent(path));
      if ok { ok := Write(path, data); }
    }

    method Rename(src: Path, dst: Path) returns (ok: bool)
      requires Valid()
      modifies this
      ensures Valid() && Result(State(), ok) == old(State()).Rename(src, dst)
    {
      RenameKeepsTree(State(), src, dst);
      if src == [] || dst == [] || !State().Exists(src) || dst in dirs || Parent(dst) !in dirs {
        return false;
      }
      if src in files {
        files := (files - {src})[dst := files[src]];
        return true;
      }
      if dst in files || src <= dst {
        return false;
      }
      files, dirs := MoveFiles(files, src, dst), MoveDirs(dirs, src, dst);
      return true;
    }

    method ReplaceFile(src: Path, dst: Path) returns (ok: bool)
      requires Valid() && src != [] && dst != []
      modifies this
      ensures Valid() && Result(State(), ok) == old(State()).ReplaceFile(src, dst)
    {
      ReplaceFileKeepsTree(State(), src, dst);
      ok := MkdirAll(Parent(dst));
      if ok {
        if !State().Exists(src) && !State().Blocked(src) {
          ok := Write(dst, []);
        } else {
          ok := Rename(src, dst);
        }
      }
    }

    method ReplaceDir(src: Path, dst: Path) returns (ok: bool)
      requires Valid()
      modifies this
      ensures Valid() && Result(State(), ok) == old(State()).ReplaceDir(src, dst)
    {
      if !State().Exists(src) && !State().Blocked(src) {
        ok := MkdirAll(dst);
      } else {
        ok := Rename(src, dst);
      }
    }

    method RmdirAll(path: Path)
      requires Valid() && path != []
      modifies this
      ensures Valid() && State() == old(State()).RmdirAll(path)
    {
      RmdirAllKeepsTree(State(), path);
      files := map q | q in files && !(path <= q) :: files[q];
      dirs := set d | d in dirs && !(path <= d);
    }

    method ReadDir(path: Path) returns (entries: Option<seq<DirEntry>>)
      requires Valid()
      ensures entries.Some? <==> path in dirs
      ensures entries.Some? ==> IsListing(State(), path, entries.value)
    {
      if path !in dirs { return None; }
      ListingExists(State(), path);
      var listing: seq<DirEntry> :| IsListing(State(), path, listing);
      return Some(listing);
    }

    /** Reads the names of a directory in chunks, in whatever order the host gives them, and
        keeps those with the suffix (the pattern is a star and then the suffix). */
    method Glob(path: Path, suffix: string) returns (matches: Option<seq<Path>>)
      requires Valid()
      ensures matches.Some? <==> path in dirs
      ensures matches.Some? ==> IsGlob(State(), path, suffix, matches.value)
    {
      if path !in dirs { return None; }
      NamesExist(State(), path);
      var names: seq<string> :| HostNames(State(), path, names);
      var out: seq<Path> := [];
      var done := 0;
      while done < |names|
        invariant done <= |names| && out == Matching(path, names[..done], suffix)
      {
        var end := if done + READDIR_CHUNK_SIZE < |names| then done + READDIR_CHUNK_SIZE else |names|;
        while done < end
          invariant done <= end <= |names| && out == Matching(path, names[..done], suffix)
        {
          assert names[..done + 1][..done] == names[..done];
          if HasSuffix(names[done], suffix) { out := out + [path + [names[done]]]; }
          done := done + 1;
        }
      }
      assert names[..done] == names;
      MatchingIsGlob(State(), path, names, suffix);
      return Some(out);
    }
  }

  predicate HostNames(t: Tree, d: Path, names: seq<string>) {
    && (forall n | n in names :: n in t.ChildNames(d))
    && (forall n | n in t.ChildNames(d) :: n in names)
  }

  lemma NamesExist(t: Tree, d: Path)
    ensures exists names :: HostNames(t, d, names)
  {
    assert HostNames(t, d, Ascending(t.ChildNames(d)));
  }

  function Matching(d: Path, names: seq<string>, suffix: string): seq<Path> {
    if names == [] then []
    else
      var n := names[|names| - 1];
      Matching(d, names[..|names| - 1], suffix) + (if HasSuffix(n, suffix) then [d + [n]] else [])
  }

  /** The children of a directory whose names end in the suffix, in some order. */
  ghost predicate IsGlob(t: Tree, d: Path, suffix: string, matches: seq<Path>) {
    && (forall p | p in matches ::
        |p| == |d| + 1 && p[..|d|] == d && p[|d|] in t.ChildNames(d) && HasSuffix(p[|d|], suffix))
    && (forall n | n in t.ChildNames(d) && HasSuffix(n, suffix) :: d + [n] in matches)
  }

  lemma {:induction false} MatchingMembers(d: Path, names: seq<string>, suffix: string)
    ensures forall p | p in Matching(d, names, suffix) ::
              |p| == |d| + 1 && p[..|d|] == d && p[|d|] in names && HasSuffix(p[|d|], suffix)
    ensures forall n | n in names && HasSuffix(n, suffix) :: d + [n] in Matching(d, names, suffix)
  {
    if names != [] {
      var rest := names[..|names| - 1];
      assert names == rest + [names[|names| - 1]];
      MatchingMembers(d, rest, suffix);
    }
  }

  lemma MatchingIsGlob(t: Tree, d: Path, names: seq<string>, suffix: string)
    requires HostNames(t, d, names)
    ensures IsGlob(t, d, suffix, Matching(d, names, suffix))
  {
    MatchingMembers(d, names, suffix);
  }
}
