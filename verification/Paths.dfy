/** Paths made from names that callers choose: filepath.Join splits them at slashes and cleans empty
    components and dots away (internal/pipeline/merging.go). */
module Paths {
  import opened Disk
  import opened Pending

  /** One component that joining leaves as it is. */
  predicate Plain(c: string) {
    c != "" && c != "." && c != ".." && '/' !in c
  }

  /** Shards are named in the configuration, by one path component each. */
  type ShardName = s: string | Plain(s) witness "S"

  /** The components of a slash-separated path before the last one. */
  function Folders(s: string): (r: seq<string>)
    ensures forall c | c in r :: '/' !in c
  {
    if s == [] then []
    else
      var before := s[..|s| - 1];
      if s[|s| - 1] == '/' then Folders(before) + [Base(before)] else Folders(before)
  }

  function Parts(s: string): seq<string> {
    Folders(s) + [Base(s)]
  }

  function Push(p: Path, c: string): Path {
    if c == "" || c == "." then p
    else if c == ".." && p != [] && p[|p| - 1] != ".." then p[..|p| - 1]
    else p + [c]
  }

  function Clean(base: Path, parts: seq<string>): Path {
    if parts == [] then base else Push(Clean(base, parts[..|parts| - 1]), parts[|parts| - 1])
  }

  function Join(base: Path, name: string): Path {
    Clean(base, Parts(name))
  }

  /** The directory a name leads to. */
  function Folder(base: Path, name: string): Path {
    Clean(base, Folders(name))
  }

  function JoinParts(parts: seq<string>): string {
    if parts == [] then [] else JoinParts(parts[..|parts| - 1]) + parts[|parts| - 1] + "/"
  }

  /** The components are what lies between the slashes. */
  lemma {:induction false} PartsAre(s: string)
    ensures s == JoinParts(Folders(s)) + Base(s) && '/' !in Base(s)
    ensures forall c | c in Folders(s) :: '/' !in c
  {
    if s != [] {
      var n := |s| - 1;
      PartsAre(s[..n]);
      assert s == s[..n] + [s[n]];
      if s[n] == '/' {
        var before := Folders(s[..n]);
        assert (before + [Base(s[..n])])[..|before|] == before;
        assert JoinParts(Folders(s)) == JoinParts(before) + Base(s[..n]) + "/";
        assert s == JoinParts(Folders(s));
      } else {
        assert Base(s) == Base(s[..n]) + [s[n]];
      }
    }
  }

  lemma {:induction false} CleanFrom(base: Path, a: seq<string>, b: seq<string>)
    ensures Clean(base, a + b) == Clean(Clean(base, a), b)
    decreases |b|
  {
    if b == [] {
      assert a + b == a;
    } else {
      var n := |b| - 1;
      assert (a + b)[..|a + b| - 1] == a + b[..n];
      CleanFrom(base, a, b[..n]);
    }
  }

  /** The rules of cleaning: an empty component and a dot go, two dots go with what is before them, and
      a path where nothing of that is left stays as it is. Between them they say what cleaning gives. */
  lemma CleanRules(base: Path, a: seq<string>, c: string, b: seq<string>)
    ensures Clean(base, a + [""] + b) == Clean(base, a + ["."] + b) == Clean(base, a + b)
    ensures Plain(c) ==> Clean(base, a + [c, ".."] + b) == Clean(base, a + b)
  {
    CleanFrom(base, a + [""], b);
    CleanFrom(base, a + ["."], b);
    CleanFrom(base, a + [c, ".."], b);
    CleanFrom(base, a, [""]);
    CleanFrom(base, a, ["."]);
    CleanFrom(base, a, [c, ".."]);
    CleanFrom(base, a, b);
    CleanTwo(Clean(base, a), c, "..");
    CleanOne(Clean(base, a), "");
    CleanOne(Clean(base, a), ".");
  }

  lemma CleanOne(base: Path, c: string)
    ensures Clean(base, [c]) == Push(base, c)
  {
    assert [c][..0] == [];
  }

  lemma {:induction false} CleanedStays(p: Path)
    requires Cleaned(p)
    ensures Clean([], p) == p
  {
    if p != [] {
      assert p == p[..|p| - 1] + [p[|p| - 1]];
      CleanedStays(p[..|p| - 1]);
    }
  }

  lemma OneMoreChar(s: string, ch: char)
    ensures Folders(s + [ch]) == if ch == '/' then Folders(s) + [Base(s)] else Folders(s)
    ensures Base(s + [ch]) == if ch == '/' then [] else Base(s) + [ch]
  {
    assert (s + [ch])[..|s|] == s;
  }

  lemma {:induction false} FoldersOfLonger(s: string, e: string)
    requires forall i | 0 <= i < |e| :: e[i] != '/'
    ensures Folders(s + e) == Folders(s) && Base(s + e) == Base(s) + e
    decreases |e|
  {
    if e == [] {
      assert s + e == s;
    } else {
      var n := |e| - 1;
      FoldersOfLonger(s, e[..n]);
      OneMoreChar(s + e[..n], e[n]);
      LastOff(s, e);
      LastOff(Base(s), e);
    }
  }

  lemma LastOff(s: string, e: string)
    requires e != []
    ensures s + e == s + e[..|e| - 1] + [e[|e| - 1]]
  {
  }

  lemma FoldersOfFlat(s: string)
    requires '/' !in s
    ensures Folders(s) == [] && Base(s) == s
  {
    FoldersOfLonger("", s);
    assert "" + s == s;
  }

  lemma {:induction false} FoldersOfPath(a: string, b: string)
    ensures Folders(a + "/" + b) == Folders(a) + [Base(a)] + Folders(b) && Base(a + "/" + b) == Base(b)
    decreases |b|
  {
    if b == [] {
      OneMoreChar(a, '/');
      assert a + "/" + b == a + ['/'];
    } else {
      var n := |b| - 1;
      assert a + "/" + b == a + "/" + b[..n] + [b[n]] && b == b[..n] + [b[n]];
      FoldersOfPath(a, b[..n]);
      OneMoreChar(a + "/" + b[..n], b[n]);
      OneMoreChar(b[..n], b[n]);
    }
  }

  /** A name with an extension keeps its last component, whatever leads up to it. */
  lemma JoinExtended(base: Path, x: string, ext: string)
    requires '/' !in ext && |ext| > 2
    ensures Join(base, x + ext) == Folder(base, x) + [Base(x) + ext]
  {
    FoldersOfLonger(x, ext);
    assert Parts(x + ext)[..|Folders(x)|] == Folders(x);
  }

  /** No component is empty, a dot or has a slash, and two dots stand at the front only. */
  predicate Cleaned(p: Path) {
    && (forall i | 0 <= i < |p| :: p[i] != "" && p[i] != "." && '/' !in p[i])
    && (forall i | 0 < i < |p| && p[i] == ".." :: p[i - 1] == "..")
  }

  lemma {:induction false} CleanIsCleaned(base: Path, parts: seq<string>)
    requires Cleaned(base) && forall c | c in parts :: '/' !in c
    ensures Cleaned(Clean(base, parts))
  {
    if parts != [] { CleanIsCleaned(base, parts[..|parts| - 1]); }
  }

  /** Up and down again: a name that climbs out of one directory into a sibling. */
  lemma ClimbsToSibling(parent: Path, dir: string, sibling: string, name: string)
    requires Plain(dir) && Plain(sibling) && '/' !in name
    ensures Folder(parent + [dir], ".." + "/" + sibling + "/" + name) == parent + [sibling]
    ensures Base(".." + "/" + sibling + "/" + name) == name
  {
    TwoFolders("..", sibling, name);
    CleanTwo(parent + [dir], "..", sibling);
  }

  /** Down and up again: a name that comes back to where it started. */
  lemma ComesBack(base: Path, detour: string, name: string)
    requires Plain(detour) && '/' !in name
    ensures Folder(base, detour + "/" + ".." + "/" + name) == base
    ensures Base(detour + "/" + ".." + "/" + name) == name
  {
    TwoFolders(detour, "..", name);
    CleanTwo(base, detour, "..");
  }

  lemma TwoFolders(a: string, b: string, name: string)
    requires '/' !in a && '/' !in b && '/' !in name
    ensures Folders(a + "/" + b + "/" + name) == [a, b] && Base(a + "/" + b + "/" + name) == name
  {
    FoldersOfFlat(a);
    FoldersOfFlat(b);
    FoldersOfFlat(name);
    FoldersOfPath(a, b);
    FoldersOfPath(a + "/" + b, name);
  }

  lemma CleanTwo(base: Path, a: string, b: string)
    ensures Clean(base, [a, b]) == Push(Push(base, a), b)
  {
    assert [a, b][..1] == [a] && [a][..0] == [];
    assert Clean(base, [a]) == Push(base, a);
  }
}
