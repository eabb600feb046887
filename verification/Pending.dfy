/** The pending directory of one cutoff window, as a map from names to contents: what queueing
    and canceling do to it, and which of its names the next cutoff merges
    (internal/pipeline/merging.go). */
module Pending {
  import opened Text
  import opened Disk

  type Dir = map<string, Bytes>

  /** Requests against one shard between two cutoffs. */
  datatype Request =
    | Xfer(id: string, data: Bytes, opts: Option<Bytes>)
    | Cancel(id: string)

  function Stem(id: string): (x: string)
    ensures id == x || id == AchName(x)
  {
    TrimSuffix(id, ".ach")
  }

  function AchName(stem: string): string { stem + ".ach" }
  function JsonName(stem: string): string { stem + ".json" }
  function CanceledName(stem: string): string { AchName(stem) + ".canceled" }

  function Queued(d: Dir, id: string, data: Bytes, opts: Option<Bytes>): Dir {
    var written := d[AchName(Stem(id)) := data];
    if opts.Some? then written[JsonName(Stem(id)) := opts.value] else written
  }

  /** The file is renamed if it is there; otherwise an empty marker takes its place. */
  function Canceled(d: Dir, id: string): Dir {
    var ach, gone := AchName(Stem(id)), CanceledName(Stem(id));
    if ach in d then (d - {ach})[gone := d[ach]] else d[gone := []]
  }

  function Handle(d: Dir, r: Request): Dir {
    match r
    case Xfer(id, data, opts) => Queued(d, id, data, opts)
    case Cancel(id) => Canceled(d, id)
  }

  function HandleAll(w: seq<Request>): Dir {
    if w == [] then map[] else Handle(HandleAll(w[..|w| - 1]), w[|w| - 1])
  }

  // Which names a cutoff merges

  function CanceledFiles(names: set<string>): set<string> {
    set n | n in names && HasSuffix(n, ".canceled") :: TrimSuffix(n, ".canceled")
  }

  /** The last element of a slash-separated path. */
  function Base(path: string): (r: string)
    ensures '/' !in r && ('/' !in path ==> r == path)
  {
    if path == [] || path[|path| - 1] == '/' then [] else Base(path[..|path| - 1]) + [path[|path| - 1]]
  }

  /** Merging asks about paths, which begin with the isolated directory; the mapping asks about names. */
  predicate Accepts(canceled: set<string>, path: string) {
    && !Contains(path, ".canceled")
    && Base(path) !in canceled
    && Contains(path, ".ach")
  }

  /** The names in a directory that the acceptor admits, asked about their paths. */
  function Admitted(dir: string, canceled: set<string>, names: set<string>): set<string> {
    set n | n in names && Accepts(canceled, dir + "/" + n)
  }

  /** What it admits of a directory that holds a window. */
  function AdmittedIn(dir: string, w: seq<Request>): set<string> {
    Admitted(dir, CanceledFiles(HandleAll(w).Keys), HandleAll(w).Keys)
  }

  /** The mark stands in the name of the directory or in the ID. */
  predicate Marked(dir: string, x: string, mark: string) {
    Contains(dir, mark) || Contains(x, mark)
  }

  /** Of a path the acceptor reads both parts for its marks, and the name alone for cancellation. */
  lemma AcceptsPath(canceled: set<string>, dir: string, n: string)
    requires '/' !in n
    ensures Accepts(canceled, dir + "/" + n) <==>
            !Marked(dir, n, ".canceled") && n !in canceled && Marked(dir, n, ".ach")
  {
    BaseOfPath(dir + "/", n);
    ContainsApart(dir, '/', n, ".ach");
    ContainsApart(dir, '/', n, ".canceled");
    assert "/" == ['/'];
  }

  predicate SameVerdict(dir: string, canceled: set<string>, n: string) {
    Accepts(canceled, dir + "/" + n) == Accepts(canceled, n)
  }

  /** Whether it is asked about a path or a name makes no difference exactly for directories with
      neither mark. */
  lemma DirectoryDoesNotMatter(dir: string)
    ensures (forall canceled, n | '/' !in n :: SameVerdict(dir, canceled, n))
            <==> !Contains(dir, ".ach") && !Contains(dir, ".canceled")
  {
    if !Contains(dir, ".ach") && !Contains(dir, ".canceled") {
      forall canceled, n | '/' !in n ensures SameVerdict(dir, canceled, n) { AcceptsPath(canceled, dir, n); }
    } else if Contains(dir, ".canceled") {
      AcceptsPath({}, dir, "a.ach");
      NotInShort("a.ach", ".canceled");
      assert OccursAt("a.ach", ".ach", 1);
      assert !SameVerdict(dir, {}, "a.ach");
    } else {
      AcceptsPath({}, dir, "a");
      NotInShort("a", ".canceled");
      NotInShort("a", ".ach");
      assert !SameVerdict(dir, {}, "a");
    }
  }

  lemma NotInShort(s: string, p: string)
    requires |s| < |p|
    ensures !Contains(s, p)
  {
  }

  lemma {:induction false} BaseOfPath(dir: string, n: string)
    requires '/' !in n && (dir == [] || dir[|dir| - 1] == '/')
    ensures Base(dir + n) == n
  {
    if n == [] {
      assert dir + n == dir;
    } else {
      assert (dir + n)[..|dir + n| - 1] == dir + n[..|n| - 1];
      BaseOfPath(dir, n[..|n| - 1]);
    }
  }

  /** The last element is what follows the last slash. */
  lemma {:induction false} BaseIs(path: string) returns (dir: string)
    ensures path == dir + Base(path) && (dir == [] || dir[|dir| - 1] == '/')
  {
    if path == [] || path[|path| - 1] == '/' {
      dir := path;
    } else {
      var n := |path| - 1;
      dir := BaseIs(path[..n]);
      assert path == path[..n] + [path[n]];
    }
  }

  // The files of a window, by stem

  function QueuedStems(w: seq<Request>): set<string> {
    set r | r in w && r.Xfer? :: Stem(r.id)
  }

  function QueuedWithOpts(w: seq<Request>): set<string> {
    set r | r in w && r.Xfer? && r.opts.Some? :: Stem(r.id)
  }

  function CanceledStems(w: seq<Request>): set<string> {
    set r | r in w && r.Cancel? :: Stem(r.id)
  }

  /** No directory separator: an ID with one would leave the flat pending directory. */
  predicate Flat(w: seq<Request>) {
    forall r | r in w :: '/' !in r.id
  }

  lemma NamesDiffer(x: string, y: string)
    ensures AchName(x) == AchName(y) <==> x == y
    ensures JsonName(x) == JsonName(y) <==> x == y
    ensures CanceledName(x) == CanceledName(y) <==> x == y
    ensures AchName(x) != JsonName(y) && AchName(x) != CanceledName(y) && JsonName(x) != CanceledName(y)
  {
    var a, j, c := AchName(x), JsonName(y), CanceledName(y);
    TrimAppended(x, ".ach");  TrimAppended(y, ".ach");
    TrimAppended(x, ".json"); TrimAppended(y, ".json");
    TrimAppended(AchName(x), ".canceled"); TrimAppended(AchName(y), ".canceled");
    assert a[|a| - 1] == 'h' && j[|j| - 1] == 'n' && c[|c| - 1] == 'd';
    assert JsonName(x)[|x| + 4] == 'n';
  }

  lemma StemsOfLonger(w: seq<Request>, r: Request)
    ensures QueuedStems(w + [r]) == QueuedStems(w) + (if r.Xfer? then {Stem(r.id)} else {})
    ensures QueuedWithOpts(w + [r]) == QueuedWithOpts(w) + (if r.Xfer? && r.opts.Some? then {Stem(r.id)} else {})
    ensures CanceledStems(w + [r]) == CanceledStems(w) + (if r.Cancel? then {Stem(r.id)} else {})
  {
    assert forall q :: q in w + [r] <==> q in w || q == r;
  }

  /** What one request does to the names of one ID. */
  lemma HandleNames(d: Dir, r: Request, x: string)
    ensures var own := x == Stem(r.id);
            && (AchName(x) in Handle(d, r) <==> if own then r.Xfer? else AchName(x) in d)
            && (CanceledName(x) in Handle(d, r) <==> CanceledName(x) in d || (own && r.Cancel?))
            && (JsonName(x) in Handle(d, r) <==> JsonName(x) in d || (own && r.Xfer? && r.opts.Some?))
  {
    NamesDiffer(x, Stem(r.id));
    NamesDiffer(Stem(r.id), x);
  }

  /** What the pending directory holds after any window, name by name. */
  lemma {:induction false} WindowContents(w: seq<Request>, x: string)
    ensures CanceledName(x) in HandleAll(w) <==> x in CanceledStems(w)
    ensures JsonName(x) in HandleAll(w) <==> x in QueuedWithOpts(w)
    ensures x !in CanceledStems(w) ==> (AchName(x) in HandleAll(w) <==> x in QueuedStems(w))
    ensures AchName(x) in HandleAll(w) ==> x in QueuedStems(w)
  {
    if w != [] {
      var v, r := w[..|w| - 1], w[|w| - 1];
      assert w == v + [r];
      WindowContents(v, x);
      StemsOfLonger(v, r);
      HandleNames(HandleAll(v), r, x);
    }
  }

  /** The last request of the window that queues X, and the last that queues it with options. */
  predicate LastQueued(w: seq<Request>, x: string, i: nat) {
    && i < |w| && w[i].Xfer? && Stem(w[i].id) == x
    && forall j | i < j < |w| :: !(w[j].Xfer? && Stem(w[j].id) == x)
  }

  predicate LastOptions(w: seq<Request>, x: string, i: nat) {
    && i < |w| && w[i].Xfer? && Stem(w[i].id) == x && w[i].opts.Some?
    && forall j | i < j < |w| :: !(w[j].Xfer? && Stem(w[j].id) == x && w[j].opts.Some?)
  }

  /** X.ach holds what was last queued for X, and X.json the options last queued for X, be it with an
      earlier file, or one canceled since. */
  lemma {:induction false} WindowData(w: seq<Request>, x: string, i: nat)
    ensures LastQueued(w, x, i) && AchName(x) in HandleAll(w) ==> HandleAll(w)[AchName(x)] == w[i].data
    ensures LastOptions(w, x, i) ==> JsonName(x) in HandleAll(w) && HandleAll(w)[JsonName(x)] == w[i].opts.value
  {
    if w != [] {
      var n := |w| - 1;
      var v, r := w[..n], w[n];
      WindowData(v, x, i);
      NamesDiffer(x, Stem(r.id));
      NamesDiffer(Stem(r.id), x);
      if i < n {
        assert v[i] == w[i] && forall j | i < j < n :: v[j] == w[j];
        assert LastQueued(w, x, i) ==> LastQueued(v, x, i);
        assert LastOptions(w, x, i) ==> LastOptions(v, x, i);
      }
    }
  }

  /** Nothing else is in it. */
  lemma {:induction false} WindowNames(w: seq<Request>, n: string)
    requires n in HandleAll(w)
    ensures exists x :: (x in QueuedStems(w) || x in CanceledStems(w))
                        && (n == AchName(x) || n == JsonName(x) || n == CanceledName(x))
  {
    var v, r := w[..|w| - 1], w[|w| - 1];
    assert w == v + [r];
    StemsOfLonger(v, r);
    if n in HandleAll(v) {
      WindowNames(v, n);
    } else {
      assert n == AchName(Stem(r.id)) || n == JsonName(Stem(r.id)) || n == CanceledName(Stem(r.id));
    }
  }

  lemma ExtensionsDoNotHide(x: string)
    ensures Contains(AchName(x), ".canceled") <==> Contains(x, ".canceled")
    ensures Contains(JsonName(x), ".canceled") <==> Contains(x, ".canceled")
    ensures Contains(JsonName(x), ".ach") <==> Contains(x, ".ach")
    ensures Contains(AchName(x), ".ach") && Contains(CanceledName(x), ".canceled")
  {
    ExtensionDoesNotStraddle(x, ".ach", ".canceled");
    ExtensionDoesNotStraddle(x, ".json", ".canceled");
    ExtensionDoesNotStraddle(x, ".json", ".ach");
    assert ".json"[0..4] == ".jso" && ".json"[1..5] == "json";
    assert OccursAt(AchName(x), ".ach", |x|);
    assert OccursAt(CanceledName(x), ".canceled", |AchName(x)|);
  }

  /** X.ach for every X queued and not canceled in the window, whichever came first. */
  function Uncanceled(w: seq<Request>): set<string> {
    set x | x in QueuedStems(w) - CanceledStems(w) :: AchName(x)
  }

  /** The exact set a cutoff merges from a directory: X.ach for every X queued and not canceled unless
      X or the directory contains ".canceled"; also X.json, the validation options, for every X queued
      with options if X or the directory contains ".ach", and neither ".canceled". */
  function Mergeable(dir: string, w: seq<Request>): set<string> {
    (set x | x in QueuedStems(w) - CanceledStems(w) && !Marked(dir, x, ".canceled") :: AchName(x))
    + (set x | x in QueuedWithOpts(w) && Marked(dir, x, ".ach") && !Marked(dir, x, ".canceled") :: JsonName(x))
  }

  lemma AdmittedInWindow(dir: string, w: seq<Request>)
    requires Flat(w)
    ensures AdmittedIn(dir, w) == Mergeable(dir, w)
  {
    var names := HandleAll(w).Keys;
    forall n | n in AdmittedIn(dir, w) ensures n in Mergeable(dir, w) {
      WindowNames(w, n);
      var x :| (x in QueuedStems(w) || x in CanceledStems(w)) &&
          (n == AchName(x) || n == JsonName(x) || n == CanceledName(x));
      AdmittedName(dir, w, x, n);
    }
    forall x | x in QueuedStems(w) - CanceledStems(w) && !Marked(dir, x, ".canceled")
      ensures AchName(x) in AdmittedIn(dir, w)
    {
      AdmittedName(dir, w, x, AchName(x));
    }
    forall x | x in QueuedWithOpts(w) && Marked(dir, x, ".ach") && !Marked(dir, x, ".canceled")
      ensures JsonName(x) in AdmittedIn(dir, w)
    {
      QueuedWithOptsIsQueued(w);
      AdmittedName(dir, w, x, JsonName(x));
    }
  }

  lemma QueuedWithOptsIsQueued(w: seq<Request>)
    ensures QueuedWithOpts(w) <= QueuedStems(w)
  {
    forall x | x in QueuedWithOpts(w) ensures x in QueuedStems(w) {
      var r :| r in w && r.Xfer? && r.opts.Some? && Stem(r.id) == x;
    }
  }

  /** A cutoff merges exactly what was queued and not canceled if and only if no surviving ID is marked
      ".canceled", itself or by the directory, and no ID queued with options is marked ".ach" without it. */
  lemma MergesExactlyTheUncanceled(dir: string, w: seq<Request>)
    requires Flat(w)
    ensures AdmittedIn(dir, w) == Uncanceled(w) <==>
            && (forall x | x in QueuedStems(w) - CanceledStems(w) :: !Marked(dir, x, ".canceled"))
            && (forall x | x in QueuedWithOpts(w) :: Marked(dir, x, ".ach") ==> Marked(dir, x, ".canceled"))
  {
    AdmittedInWindow(dir, w);
    if Mergeable(dir, w) == Uncanceled(w) {
      forall x | x in QueuedStems(w) - CanceledStems(w) ensures !Marked(dir, x, ".canceled") {
        assert AchName(x) in Mergeable(dir, w);
        NamesAllDiffer(x);
      }
      forall x | x in QueuedWithOpts(w) ensures Marked(dir, x, ".ach") ==> Marked(dir, x, ".canceled") {
        NamesAllDiffer(x);
        assert JsonName(x) !in Uncanceled(w);
        assert Marked(dir, x, ".ach") && !Marked(dir, x, ".canceled") ==> JsonName(x) in Mergeable(dir, w);
      }
    }
  }

  lemma NamesAllDiffer(x: string)
    ensures forall y :: AchName(x) == AchName(y) ==> x == y
    ensures forall y :: AchName(x) != JsonName(y) && AchName(y) != JsonName(x)
  {
    forall y
      ensures AchName(x) == AchName(y) ==> x == y
      ensures AchName(x) != JsonName(y) && AchName(y) != JsonName(x)
    {
      NamesDiffer(x, y);
      NamesDiffer(y, x);
    }
  }

  lemma AdmittedName(dir: string, w: seq<Request>, x: string, n: string)
    requires Flat(w) && (x in QueuedStems(w) || x in CanceledStems(w))
    requires n == AchName(x) || n == JsonName(x) || n == CanceledName(x)
    ensures n in AdmittedIn(dir, w) <==>
            !Marked(dir, x, ".canceled")
            && ((n == AchName(x) && x in QueuedStems(w) - CanceledStems(w))
                || (n == JsonName(x) && x in QueuedWithOpts(w) && Marked(dir, x, ".ach")))
  {
    var names := HandleAll(w).Keys;
    WindowContents(w, x);
    ExtensionsDoNotHide(x);
    FlatName(w, x);
    AcceptsPath(CanceledFiles(names), dir, n);
    InCanceledFiles(names, n);
    NamesDiffer(x, x);
    if n == JsonName(x) { OptionsNotCanceled(w, x); }
  }

  lemma FlatName(w: seq<Request>, x: string)
    requires Flat(w) && (x in QueuedStems(w) || x in CanceledStems(w))
    ensures '/' !in AchName(x) && '/' !in JsonName(x) && '/' !in CanceledName(x)
  {
    var r :| r in w && Stem(r.id) == x;
    FlatStem(r.id);
  }

  lemma FlatStem(id: string)
    requires '/' !in id
    ensures '/' !in Stem(id)
  {
    var x := Stem(id);
    assert x == id[..|x|];
    assert forall i | 0 <= i < |x| :: x[i] == id[i];
  }

  lemma InCanceledFiles(names: set<string>, n: string)
    ensures n in CanceledFiles(names) <==> n + ".canceled" in names
  {
    TrimAppended(n, ".canceled");
  }

  /** No request cancels an options file. */
  lemma OptionsNotCanceled(w: seq<Request>, x: string)
    ensures JsonName(x) + ".canceled" !in HandleAll(w)
  {
    var m := JsonName(x) + ".canceled";
    assert m[|m| - 1] == 'd' && m[|m| - 10] == 'n';
    forall y ensures m != AchName(y) && m != JsonName(y) && m != CanceledName(y) {
      assert AchName(y)[|y| + 3] == 'h' && JsonName(y)[|y| + 4] == 'n' && CanceledName(y)[|y| + 3] == 'h';
    }
    if m in HandleAll(w) { WindowNames(w, m); }
  }

  // Canceling

  /** A cancel finds a file or a marker exactly when its ID was queued or canceled in the window. */
  lemma CancelFinds(w: seq<Request>, x: string)
    ensures AchName(x) in HandleAll(w) || CanceledName(x) in HandleAll(w)
            <==> x in QueuedStems(w) || x in CanceledStems(w)
  {
    WindowContents(w, x);
  }

  /** A repeated cancel changes no name, but it truncates the canceled file. */
  lemma CancelTwice(d: Dir, id: string)
    ensures Canceled(Canceled(d, id), id).Keys == Canceled(d, id).Keys
    ensures Canceled(Canceled(d, id), id)[CanceledName(Stem(id))] == []
  {
    NamesDiffer(Stem(id), Stem(id));
  }

  /** After a cancel, no later request of the window brings the ID back into the merge. */
  lemma CancelSticks(dir: string, w: seq<Request>, id: string, later: seq<Request>)
    requires Flat(w + [Cancel(id)] + later)
    ensures AchName(Stem(id)) !in AdmittedIn(dir, w + [Cancel(id)] + later)
  {
    var all := w + [Cancel(id)] + later;
    assert all[|w|] == Cancel(id);
    assert Stem(id) in CanceledStems(all);
    WindowContents(all, Stem(id));
    AdmittedInWindow(dir, all);
    NamesAllDiffer(Stem(id));
  }

  // The listing that skips canceled files by prefix

  predicate Shadowed(names: set<string>, n: string) {
    exists m | m in names :: HasSuffix(m, ".canceled") && n <= m
  }

  function NonCanceled(names: set<string>): set<string> {
    set n | n in names && HasSuffix(n, ".ach") && !Shadowed(names, n)
  }

  /** The overlap of the two extensions: X.ach is a prefix of Y.ach.canceled only if X is Y or
      the whole of X.ach already begins Y. */
  lemma Overlap(x: string, y: string)
    ensures AchName(x) <= CanceledName(y) <==> x == y || AchName(x) <= y
  {
    var n, m := AchName(x), CanceledName(y);
    assert m == y + ".ach.canceled";
    if n <= m {
      assert forall j | 0 <= j < |n| :: m[j] == n[j];
      assert n[|x|] == '.' && n[|x| + 1] == 'a';
      assert forall j | |x| < j < |n| :: n[j] != '.';
      assert m[|y|] == '.' && m[|y| + 4] == '.' && m[|y| + 5] == 'c';
      assert forall j | |y| < j < |m| && m[j] == '.' :: j == |y| + 4;
      assert |x| == |y| ==> x == n[..|x|] == m[..|x|] == y;
    }
    if AchName(x) <= y { assert y <= m; }
    if x == y { assert n <= m; }
  }

  predicate BeginsCanceled(w: seq<Request>, x: string) {
    exists y | y in CanceledStems(w) :: AchName(x) <= y
  }

  /** What the prefix listing keeps: a file survives unless it was canceled itself or some
      canceled ID begins with its whole name. */
  lemma NonCanceledInWindow(w: seq<Request>)
    ensures NonCanceled(HandleAll(w).Keys) ==
            set x | x in QueuedStems(w) - CanceledStems(w) && !BeginsCanceled(w, x) :: AchName(x)
  {
    var names := HandleAll(w).Keys;
    forall x | x in QueuedStems(w) || x in CanceledStems(w)
      ensures AchName(x) in NonCanceled(names) <==>
              x in QueuedStems(w) - CanceledStems(w) && !BeginsCanceled(w, x)
    {
      WindowContents(w, x);
      TrimAppended(x, ".ach");
      ShadowedInWindow(w, x);
      if x in CanceledStems(w) { Overlap(x, x); }
    }
    forall n | n in NonCanceled(names)
      ensures exists x :: (x in QueuedStems(w) || x in CanceledStems(w)) && n == AchName(x)
    {
      WindowNames(w, n);
      var x :| (x in QueuedStems(w) || x in CanceledStems(w)) &&
          (n == AchName(x) || n == JsonName(x) || n == CanceledName(x));
      assert n[|n| - 1] == 'h';
      assert JsonName(x)[|x| + 4] == 'n';
    }
  }

  lemma ShadowedInWindow(w: seq<Request>, x: string)
    ensures Shadowed(HandleAll(w).Keys, AchName(x)) <==>
            exists y | y in CanceledStems(w) :: x == y || AchName(x) <= y
  {
    var names := HandleAll(w).Keys;
    if Shadowed(names, AchName(x)) {
      var m :| m in names && HasSuffix(m, ".canceled") && AchName(x) <= m;
      WindowNames(w, m);
      var y :| (y in QueuedStems(w) || y in CanceledStems(w)) &&
          (m == AchName(y) || m == JsonName(y) || m == CanceledName(y));
      assert m[|m| - 1] == 'd';
      assert JsonName(y)[|y| + 4] == 'n';
      WindowContents(w, y);
      Overlap(x, y);
    }
    if y :| y in CanceledStems(w) && (x == y || AchName(x) <= y) {
      WindowContents(w, y);
      Overlap(x, y);
      TrimAppended(AchName(y), ".canceled");
      assert CanceledName(y) in names;
    }
  }

  predicate PlainStems(w: seq<Request>) {
    forall x | x in QueuedStems(w) + CanceledStems(w) :: !Contains(x, ".ach") && !Contains(x, ".canceled")
  }

  /** For a directory and IDs without an inner ".ach" or ".canceled" the prefix listing, the acceptor and
      the plain reading (queued and not canceled) agree on every window. */
  lemma PrefixListingIsAcceptor(dir: string, w: seq<Request>)
    requires Flat(w) && PlainStems(w) && !Contains(dir, ".ach") && !Contains(dir, ".canceled")
    ensures NonCanceled(HandleAll(w).Keys) == AdmittedIn(dir, w) == Uncanceled(w)
  {
    QueuedWithOptsIsQueued(w);
    MergesExactlyTheUncanceled(dir, w);
    NonCanceledInWindow(w);
    forall x | x in QueuedStems(w) ensures !BeginsCanceled(w, x) { PlainBeginsNothing(w, x); }
  }

  lemma PlainBeginsNothing(w: seq<Request>, x: string)
    requires PlainStems(w)
    ensures !BeginsCanceled(w, x)
  {
    forall y | y in CanceledStems(w) ensures !(AchName(x) <= y) {
      if AchName(x) <= y { BeginsContains(x, y); }
    }
  }

  lemma BeginsContains(x: string, y: string)
    requires AchName(x) <= y
    ensures Contains(y, ".ach")
  {
    assert y[..|x| + 4] == AchName(x);
    assert y[|x|..|x| + 4] == AchName(x)[|x|..];
    assert OccursAt(y, ".ach", |x|);
  }

  /** The prefix listing is the plain reading exactly if no canceled ID begins with the whole name of a
      surviving file. */
  lemma PrefixListingIffPlain(w: seq<Request>)
    ensures NonCanceled(HandleAll(w).Keys) == Uncanceled(w) <==>
            forall x | x in QueuedStems(w) - CanceledStems(w) :: !BeginsCanceled(w, x)
  {
    NonCanceledInWindow(w);
    if NonCanceled(HandleAll(w).Keys) == Uncanceled(w) {
      forall x | x in QueuedStems(w) - CanceledStems(w) ensures !BeginsCanceled(w, x) {
        assert AchName(x) in Uncanceled(w);
        NamesAllDiffer(x);
      }
    }
  }

  /** And it is what the acceptor admits exactly if, moreover, its exceptions and those of the acceptor
      coincide and no options file is admitted. */
  lemma PrefixListingIffAcceptor(dir: string, w: seq<Request>)
    requires Flat(w)
    ensures NonCanceled(HandleAll(w).Keys) == AdmittedIn(dir, w) <==>
            && (forall x | x in QueuedStems(w) - CanceledStems(w) ::
                  BeginsCanceled(w, x) <==> Marked(dir, x, ".canceled"))
            && (forall x | x in QueuedWithOpts(w) :: Marked(dir, x, ".ach") ==> Marked(dir, x, ".canceled"))
  {
    AdmittedInWindow(dir, w);
    NonCanceledInWindow(w);
    if NonCanceled(HandleAll(w).Keys) == Mergeable(dir, w) {
      forall x | x in QueuedStems(w) - CanceledStems(w) ensures BeginsCanceled(w, x) <==> Marked(dir, x, ".canceled") {
        NamesAllDiffer(x);
        assert !Marked(dir, x, ".canceled") ==> AchName(x) in Mergeable(dir, w);
        assert !BeginsCanceled(w, x) ==> AchName(x) in NonCanceled(HandleAll(w).Keys);
      }
      forall x | x in QueuedWithOpts(w) ensures Marked(dir, x, ".ach") ==> Marked(dir, x, ".canceled") {
        NamesAllDiffer(x);
        assert JsonName(x) !in NonCanceled(HandleAll(w).Keys);
        assert Marked(dir, x, ".ach") && !Marked(dir, x, ".canceled") ==> JsonName(x) in Mergeable(dir, w);
      }
    }
  }

  /** For instance a surviving file whose whole name begins a canceled ID is merged, yet missing from
      the prefix listing. */
  lemma InnerExtensionHides(dir: string, w: seq<Request>, x: string, y: string)
    requires Flat(w) && x in QueuedStems(w) - CanceledStems(w) && !Marked(dir, x, ".canceled")
    requires y in CanceledStems(w) && AchName(x) <= y
    ensures AchName(x) in AdmittedIn(dir, w) && AchName(x) !in NonCanceled(HandleAll(w).Keys)
  {
    AdmittedInWindow(dir, w);
    ShadowedInWindow(w, x);
  }

  lemma InnerExtensionWitness(dir: string)
    requires !Contains(dir, ".canceled")
    ensures var w := [Xfer("a", [], None), Cancel("a.ach.b")];
            "a.ach" in AdmittedIn(dir, w) && "a.ach" !in NonCanceled(HandleAll(w).Keys)
  {
    assert "a.ach.b"[3..] == "ch.b";
    assert !HasSuffix("a.ach.b", ".ach") && !HasSuffix("a", ".ach");
    assert AchName("a") == "a.ach";
    TwoRequests(dir, "a", "a.ach.b");
  }

  lemma TwoRequests(dir: string, x: string, y: string)
    requires '/' !in x && '/' !in y && Stem(x) == x && Stem(y) == y
    requires !Marked(dir, x, ".canceled") && AchName(x) <= y
    ensures var w := [Xfer(x, [], None), Cancel(y)];
            AchName(x) in AdmittedIn(dir, w) && AchName(x) !in NonCanceled(HandleAll(w).Keys)
  {
    var w := [Xfer(x, [], None), Cancel(y)];
    assert w[0] in w && w[1] in w;
    assert forall r :: r in w ==> r == w[0] || r == w[1];
    assert x in QueuedStems(w) && y in CanceledStems(w) && x !in CanceledStems(w);
    InnerExtensionHides(dir, w, x, y);
  }
}
