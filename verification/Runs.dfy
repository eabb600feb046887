/** Whole runs of one storage: requests, cutoffs and cleanups of any number of shards in any order
    (internal/pipeline/merging.go, internal/pipeline/cleanup.go). */
module Runs {
  import opened Text
  import opened Calendar
  import opened Disk
  import opened Paths
  import opened Pending
  import opened Cutoff
  import opened Cleanup
  import opened Offer

  /** What a cutoff merged is left open: `files` are the merged files as it saves them. */
  datatype Op =
    | Ask(shard: ShardName, request: Request)
    | CutoffAt(shard: ShardName, at: Time, agentFound: bool, files: seq<Option<Saved>>)
    | Cleaning(shard: ShardName, cutoff: int)

  function Step(t: Tree, op: Op): Tree {
    match op
    case Ask(shard, request) => RequestTree(t, shard, request).tree
    case CutoffAt(shard, at, agentFound, files) => CutoffTree(t, shard, at, agentFound, files)
    case Cleaning(shard, cutoff) => Swept(t, shard, cutoff)
  }

  function Storage(ops: seq<Op>): Tree {
    if ops == [] then EMPTY else Step(Storage(ops[..|ops| - 1]), ops[|ops| - 1])
  }

  /** The requests of a shard since its last cutoff. */
  function Window(ops: seq<Op>, shard: string): seq<Request> {
    if ops == [] then []
    else
      var before, op := Window(ops[..|ops| - 1], shard), ops[|ops| - 1];
      if op.shard != shard then before
      else match op
        case Ask(_, request) => before + [request]
        case CutoffAt(_, _, _, _) => []
        case Cleaning(_, _) => before
  }

  predicate IsCut(ops: seq<Op>, c: int) {
    0 <= c < |ops| && ops[c].CutoffAt?
  }

  function DirAt(op: Op): string
    requires op.CutoffAt?
  {
    DirName(op.shard, op.at)
  }

  /** No shard has two cutoffs in one second. */
  ghost predicate DistinctSeconds(ops: seq<Op>) {
    forall i, j | IsCut(ops, i) && IsCut(ops, j) && i != j && ops[i].shard == ops[j].shard :: ops[i].at != ops[j].at
  }

  /** No ID has a slash. */
  predicate FlatRun(ops: seq<Op>) {
    forall op | op in ops && op.Ask? :: '/' !in op.request.id
  }

  ghost predicate Regular(ops: seq<Op>) {
    FlatRun(ops) && DistinctSeconds(ops)
  }

  predicate Removes(t: Tree, op: Op, dir: string) {
    op.Cleaning? && dir in Eligible(t, op.shard, op.cutoff)
  }

  /** The directory of the cutoff at `c` was not removed, neither at once, for want of merged files,
      nor later by a cleanup. */
  predicate Kept(ops: seq<Op>, c: nat)
    requires IsCut(ops, c)
    decreases |ops|
  {
    var before, op := ops[..|ops| - 1], ops[|ops| - 1];
    if c == |ops| - 1 then op.files != []
    else Kept(before, c) && !Removes(Storage(before), op, DirAt(ops[c]))
  }

  /** What the directory of the cutoff at `c` holds: the window before it, until it is removed. */
  function Archive(ops: seq<Op>, c: nat): Dir
    requires IsCut(ops, c)
  {
    if Kept(ops, c) then HandleAll(Window(ops[..c], ops[c].shard)) else map[]
  }

  lemma ArchiveOfLast(before: seq<Op>, op: Op)
    requires op.CutoffAt?
    ensures Archive(before + [op], |before|) == if op.files == [] then map[] else HandleAll(Window(before, op.shard))
  {
    TakeOfMore(before, op, |before|);
    assert before[..|before|] == before;
  }

  lemma ArchiveOfEarlier(before: seq<Op>, op: Op, c: nat)
    requires IsCut(before, c)
    ensures Archive(before + [op], c) ==
            if Removes(Storage(before), op, DirAt(before[c])) then map[] else Archive(before, c)
  {
    var ops := before + [op];
    TakeOfMore(before, op, c);
    TakeOfMore(before, op, |before|);
    assert before[..|before|] == before && ops[c] == before[c];
  }

  lemma TakeOfMore<T>(s: seq<T>, x: T, c: nat)
    requires c <= |s|
    ensures (s + [x])[..c] == s[..c]
  {
  }

  ghost predicate Rooted(ops: seq<Op>, t: Tree) {
    forall d | d in t.dirs && |d| == 1 :: d[0] == MERGABLE || exists c :: IsCut(ops, c) && d[0] == DirAt(ops[c])
  }

  ghost predicate PendingAccounted(ops: seq<Op>, t: Tree) {
    forall s :: t.FilesIn(PendingDir(s)) == HandleAll(Window(ops, s))
  }

  ghost predicate ArchivesAccounted(ops: seq<Op>, t: Tree) {
    forall c: nat | IsCut(ops, c) :: t.FilesIn([DirAt(ops[c])]) == Archive(ops, c)
  }

  /** Where every file is: the pending directory of each shard holds what its window left, the
      directory of each cutoff what its archive says, and there is no other directory. */
  ghost predicate Accounted(ops: seq<Op>, t: Tree) {
    Layout(t) && Rooted(ops, t) && PendingAccounted(ops, t) && ArchivesAccounted(ops, t)
  }

  lemma {:induction false} EveryFileAccounted(ops: seq<Op>)
    requires Regular(ops)
    ensures Accounted(ops, Storage(ops))
  {
    if ops == [] {
      assert forall s, n :: PendingDir(s) + [n] !in EMPTY.files;
    } else {
      var before, op := ops[..|ops| - 1], ops[|ops| - 1];
      assert ops == before + [op];
      FewerDistinct(before, op);
      EveryFileAccounted(before);
      match op
      case Ask(_, _) => AskAccounted(before, Storage(before), op);
      case CutoffAt(_, _, _, _) => CutoffAccounted(before, Storage(before), op);
      case Cleaning(_, _) => CleanAccounted(before, Storage(before), op);
    }
  }

  lemma FewerDistinct(before: seq<Op>, op: Op)
    requires Regular(before + [op])
    ensures Regular(before) && (op.Ask? ==> '/' !in op.request.id)
    ensures op.CutoffAt? ==> forall c | IsCut(before, c) :: DirAt(before[c]) != DirAt(op)
  {
    var ops := before + [op];
    assert forall q :: q in ops <==> q in before || q == op;
    assert forall c | IsCut(before, c) :: IsCut(ops, c) && ops[c] == before[c];
    if op.CutoffAt? {
      assert IsCut(ops, |before|);
      forall c | IsCut(before, c) ensures DirAt(before[c]) != DirAt(op) {
        DirNamesDiffer(before[c].shard, before[c].at, op.shard, op.at);
      }
    }
  }

  lemma {:induction false} FlatWindow(ops: seq<Op>, shard: string)
    requires FlatRun(ops)
    ensures Flat(Window(ops, shard))
  {
    if ops != [] {
      assert ops[|ops| - 1] in ops;
      assert forall op | op in ops[..|ops| - 1] :: op in ops;
      FlatWindow(ops[..|ops| - 1], shard);
    }
  }

  lemma WindowMore(before: seq<Op>, op: Op, s: string)
    ensures Window(before + [op], s) ==
            if op.shard != s || op.Cleaning? then Window(before, s)
            else if op.Ask? then Window(before, s) + [op.request]
            else []
  {
    assert (before + [op])[..|before|] == before;
  }

  lemma HandleMore(w: seq<Request>, r: Request)
    ensures HandleAll(w + [r]) == Handle(HandleAll(w), r)
  {
    assert (w + [r])[..|w|] == w;
  }

  lemma RootedMore(before: seq<Op>, op: Op, t: Tree, u: Tree)
    requires Rooted(before, t)
    requires forall d | d in u.dirs && |d| == 1 ::
        d in t.dirs || d[0] == MERGABLE || (op.CutoffAt? && d[0] == DirAt(op))
    ensures Rooted(before + [op], u)
  {
    var ops := before + [op];
    assert ops[|before|] == op;
    forall d | d in u.dirs && |d| == 1 ensures d[0] == MERGABLE || exists c :: IsCut(ops, c) && d[0] == DirAt(ops[c]) {
      if d in t.dirs && d[0] != MERGABLE {
        var c :| IsCut(before, c) && d[0] == DirAt(before[c]);
        assert ops[c] == before[c];
      } else if d[0] != MERGABLE {
        assert IsCut(ops, |before|);
      }
    }
  }

  /** Archives change only by removal, and a cutoff adds its own. */
  lemma ArchivesMore(before: seq<Op>, op: Op, t: Tree, u: Tree)
    requires t == Storage(before) && ArchivesAccounted(before, t)
    requires forall c: nat | IsCut(before, c) ::
               u.FilesIn([DirAt(before[c])]) == if Removes(t, op, DirAt(before[c])) then map[]
                   else t.FilesIn([DirAt(before[c])])
    requires op.CutoffAt? ==> u.FilesIn([DirAt(op)]) == if op.files == [] then map[]
        else HandleAll(Window(before, op.shard))
    ensures ArchivesAccounted(before + [op], u)
  {
    var ops := before + [op];
    forall c: nat | IsCut(ops, c) ensures u.FilesIn([DirAt(ops[c])]) == Archive(ops, c) {
      if c == |before| {
        ArchiveOfLast(before, op);
      } else {
        assert IsCut(before, c) && ops[c] == before[c];
        ArchiveOfEarlier(before, op, c);
      }
    }
  }

  lemma AskAccounted(before: seq<Op>, t: Tree, op: Op)
    requires t == Storage(before) && Accounted(before, t) && op.Ask? && '/' !in op.request.id
    ensures Accounted(before + [op], Step(t, op))
  {
    RequestRefines(t, op.shard, op.request);
    AskMoves(before, t, Step(t, op), op);
  }

  lemma AskMoves(before: seq<Op>, t: Tree, u: Tree, op: Op)
    requires t == Storage(before) && Accounted(before, t) && op.Ask?
    requires PendingBecomes(t, u, op.shard, Handle(t.FilesIn(PendingDir(op.shard)), op.request))
    ensures Accounted(before + [op], u)
  {
    AskLeaves(t, u, op.shard);
    AskRoots(before, t, u, op);
    AskPending(before, t, u, op);
    AskKeepsArchives(before, t, u, op);
  }

  lemma AskRoots(before: seq<Op>, t: Tree, u: Tree, op: Op)
    requires Rooted(before, t) && op.Ask? && u.dirs == t.dirs + PendingDirs(op.shard)
    ensures Rooted(before + [op], u)
  {
    RootedMore(before, op, t, u);
  }

  lemma AskKeepsArchives(before: seq<Op>, t: Tree, u: Tree, op: Op)
    requires t == Storage(before) && ArchivesAccounted(before, t) && op.Ask?
    requires forall dir | dir != MERGABLE :: u.FilesIn([dir]) == t.FilesIn([dir])
    ensures ArchivesAccounted(before + [op], u)
  {
    forall c: nat | IsCut(before, c)
      ensures u.FilesIn([DirAt(before[c])]) == if Removes(t, op, DirAt(before[c])) then map[]
          else t.FilesIn([DirAt(before[c])])
    {
      assert DirAt(before[c]) != MERGABLE;
    }
    ArchivesMore(before, op, t, u);
  }

  lemma AskPending(before: seq<Op>, t: Tree, u: Tree, op: Op)
    requires PendingAccounted(before, t) && op.Ask?
    requires u.FilesIn(PendingDir(op.shard)) == Handle(t.FilesIn(PendingDir(op.shard)), op.request)
    requires forall s | s != op.shard :: u.FilesIn(PendingDir(s)) == t.FilesIn(PendingDir(s))
    ensures PendingAccounted(before + [op], u)
  {
    forall s ensures u.FilesIn(PendingDir(s)) == HandleAll(Window(before + [op], s)) {
      WindowMore(before, op, s);
      if s == op.shard { HandleMore(Window(before, s), op.request); }
    }
  }

  /** A request touches no directory but the pending one of its shard. */
  lemma AskLeaves(t: Tree, u: Tree, shard: string)
    requires SameOutside(t, u, PendingDir(shard))
    ensures forall s | s != shard :: u.FilesIn(PendingDir(s)) == t.FilesIn(PendingDir(s))
    ensures forall dir | dir != MERGABLE :: u.FilesIn([dir]) == t.FilesIn([dir])
  {
    forall s | s != shard ensures u.FilesIn(PendingDir(s)) == t.FilesIn(PendingDir(s)) {
      PendingDirsApart(shard, s);
      FilesOutside(t, u, PendingDir(shard), PendingDir(s));
    }
    forall dir | dir != MERGABLE ensures u.FilesIn([dir]) == t.FilesIn([dir]) {
      PendingNotRoot(shard, dir);
      FilesOutside(t, u, PendingDir(shard), [dir]);
    }
  }

  lemma PendingDirsApart(s1: string, s2: string)
    requires s1 != s2
    ensures !(PendingDir(s1) <= PendingDir(s2)) && forall n :: PendingDir(s2) + [n] != PendingDir(s1)
  {
    assert PendingDir(s1)[1] == s1 && PendingDir(s2)[1] == s2;
    assert forall n :: |PendingDir(s2) + [n]| == 3;
  }

  lemma PendingNotRoot(shard: string, dir: string)
    requires dir != MERGABLE
    ensures !(PendingDir(shard) <= [dir]) && !([dir] <= PendingDir(shard))
    ensures forall n :: [dir] + [n] != PendingDir(shard) && PendingDir(shard) + [n] != [dir]
  {
    assert forall n :: ([dir] + [n])[0] == dir && PendingDir(shard)[0] == MERGABLE;
    assert forall n :: |PendingDir(shard) + [n]| == 3;
  }

  lemma FreshName(before: seq<Op>, t: Tree, op: Op)
    requires Rooted(before, t) && op.CutoffAt?
    requires forall c | IsCut(before, c) :: DirAt(before[c]) != DirAt(op)
    ensures [DirAt(op)] !in t.dirs
  {
  }

  lemma CutoffAccounted(before: seq<Op>, t: Tree, op: Op)
    requires t == Storage(before) && Accounted(before, t) && op.CutoffAt?
    requires forall c | IsCut(before, c) :: DirAt(before[c]) != DirAt(op)
    ensures Accounted(before + [op], Step(t, op))
  {
    FreshName(before, t, op);
    CutoffRefines(t, op.shard, op.at, op.agentFound, op.files);
    CutoffMoves(before, t, Step(t, op), op);
  }

  lemma CutoffMoves(before: seq<Op>, t: Tree, u: Tree, op: Op)
    requires t == Storage(before) && Accounted(before, t) && op.CutoffAt?
    requires forall c | IsCut(before, c) :: DirAt(before[c]) != DirAt(op)
    requires Finished(t, u, op.shard, DirAt(op), op.files != [])
    ensures Accounted(before + [op], u)
  {
    CutoffLeaves(t, u, op.shard, DirAt(op));
    RootedMore(before, op, t, u);
    CutoffPending(before, t, u, op);
    ArchivesMore(before, op, t, u);
  }

  lemma CutoffPending(before: seq<Op>, t: Tree, u: Tree, op: Op)
    requires PendingAccounted(before, t) && op.CutoffAt?
    requires u.FilesIn(PendingDir(op.shard)) == map[]
    requires forall s | s != op.shard :: u.FilesIn(PendingDir(s)) == t.FilesIn(PendingDir(s))
    ensures PendingAccounted(before + [op], u)
  {
    forall s ensures u.FilesIn(PendingDir(s)) == HandleAll(Window(before + [op], s)) {
      WindowMore(before, op, s);
    }
  }

  /** A cutoff touches no directory but the pending one of its shard and its own. */
  lemma CutoffLeaves(t: Tree, u: Tree, shard: string, dir: string)
    requires SameOutsideBoth(t, u, shard, dir) && dir != MERGABLE
    ensures forall s | s != shard :: u.FilesIn(PendingDir(s)) == t.FilesIn(PendingDir(s))
    ensures forall d | d != MERGABLE && d != dir :: u.FilesIn([d]) == t.FilesIn([d])
  {
    forall s | s != shard ensures u.FilesIn(PendingDir(s)) == t.FilesIn(PendingDir(s)) {
      PendingDirsApart(shard, s);
      PendingNotRoot(s, dir);
      FilesOutsideBoth(t, u, shard, dir, PendingDir(s));
    }
    forall d | d != MERGABLE && d != dir ensures u.FilesIn([d]) == t.FilesIn([d]) {
      PendingNotRoot(shard, d);
      RootsApart(dir, d);
      FilesOutsideBoth(t, u, shard, dir, [d]);
    }
  }

  lemma RootsApart(d1: string, d2: string)
    requires d1 != d2
    ensures !([d1] <= [d2]) && forall n :: [d2] + [n] != [d1]
  {
    assert [d1][0] == d1 && [d2][0] == d2;
    assert forall n :: |[d2] + [n]| == 2;
  }

  lemma FilesOutsideBoth(t: Tree, u: Tree, shard: string, dir: string, d: Path)
    requires SameOutsideBoth(t, u, shard, dir) && !(PendingDir(shard) <= d) && !([dir] <= d)
    requires forall n :: d + [n] != PendingDir(shard) && d + [n] != [dir]
    ensures u.FilesIn(d) == t.FilesIn(d)
  {
    forall n ensures !(PendingDir(shard) <= d + [n]) && !([dir] <= d + [n]) {
      PrefixOfLonger(PendingDir(shard), d, n);
      PrefixOfLonger([dir], d, n);
    }
  }

  lemma CleanAccounted(before: seq<Op>, t: Tree, op: Op)
    requires t == Storage(before) && Accounted(before, t) && op.Cleaning?
    ensures Accounted(before + [op], Step(t, op))
  {
    var u := Step(t, op);
    SweptKeepsTree(t, Eligible(t, op.shard, op.cutoff));
    RootedMore(before, op, t, u);
    MergableUntouched(t, op.shard, op.cutoff);
    forall s ensures u.FilesIn(PendingDir(s)) == HandleAll(Window(before + [op], s)) {
      WindowMore(before, op, s);
    }
    forall c: nat | IsCut(before, c)
      ensures u.FilesIn([DirAt(before[c])]) == if Removes(t, op, DirAt(before[c])) then map[]
          else t.FilesIn([DirAt(before[c])])
    {
      SweptDirectory(t, op.shard, op.cutoff, DirAt(before[c]));
    }
    ArchivesMore(before, op, t, u);
  }

  lemma SweptDirectory(t: Tree, shard: string, cutoff: int, dir: string)
    ensures Swept(t, shard, cutoff).FilesIn([dir]) == if dir in Eligible(t, shard, cutoff) then map[]
        else t.FilesIn([dir])
  {
    if dir in Eligible(t, shard, cutoff) {
      forall n ensures Under(Eligible(t, shard, cutoff), [dir] + [n]) { }
    } else {
      SweptKeeps(t, shard, cutoff, [dir]);
    }
  }

  // What follows for every run

  /** A cutoff offers merging exactly what was queued since the last one and not canceled since,
      in either order, as far as the acceptor reads the names of the shard and the files right. */
  lemma CutoffOffersWindow(ops: seq<Op>, op: Op)
    requires Regular(ops + [op]) && op.CutoffAt?
    ensures Ready(Storage(ops), op.shard, op.at, Window(ops, op.shard))
    ensures Offered(Storage(ops), op.shard, op.at) == Mergeable(op.shard, Window(ops, op.shard))
  {
    FewerDistinct(ops, op);
    EveryFileAccounted(ops);
    FlatWindow(ops, op.shard);
    FreshName(ops, Storage(ops), op);
    OfferedInWindow(Storage(ops), op.shard, op.at, Window(ops, op.shard));
  }

  /** Exactly when that is what was queued and not canceled: no surviving ID and, unless nothing
      survives, not the shard contains ".canceled", and no ID queued with options, nor the shard if there
      is one, contains ".ach" without it. */
  lemma CutoffMergesTheUncanceled(ops: seq<Op>, op: Op)
    requires Regular(ops + [op]) && op.CutoffAt?
    ensures var w, shard := Window(ops, op.shard), op.shard;
            Offered(Storage(ops), shard, op.at) == Uncanceled(w) <==>
            && (forall x | x in QueuedStems(w) - CanceledStems(w) :: !Marked(shard, x, ".canceled"))
            && (forall x | x in QueuedWithOpts(w) :: Marked(shard, x, ".ach") ==> Marked(shard, x, ".canceled"))
  {
    CutoffOffersWindow(ops, op);
    FewerDistinct(ops, op);
    FlatWindow(ops, op.shard);
    AdmittedInWindow(op.shard, Window(ops, op.shard));
    MergesExactlyTheUncanceled(op.shard, Window(ops, op.shard));
  }

  /** The files of a window outlive its cutoff exactly if something was merged; otherwise, be it that
      merging failed, they are gone, pending or archived. */
  lemma WindowKeptIffMerged(ops: seq<Op>, op: Op)
    requires Regular(ops + [op]) && op.CutoffAt?
    ensures Storage(ops + [op]).FilesIn(PendingDir(op.shard)) == map[]
    ensures Storage(ops + [op]).FilesIn([DirAt(op)]) == HandleAll(Window(ops, op.shard)) <==>
            op.files != [] || Window(ops, op.shard) == []
    ensures op.files == [] ==> Storage(ops + [op]).FilesIn([DirAt(op)]) == map[]
  {
    EveryFileAccounted(ops + [op]);
    ArchiveOfLast(ops, op);
    WindowMore(ops, op, op.shard);
    assert IsCut(ops + [op], |ops|) && (ops + [op])[|ops|] == op;
    NonemptyWindow(Window(ops, op.shard));
  }

  lemma NonemptyWindow(w: seq<Request>)
    ensures HandleAll(w) == map[] <==> w == []
  {
    if w != [] {
      var d, r := HandleAll(w[..|w| - 1]), w[|w| - 1];
      assert AchName(Stem(r.id)) in Handle(d, r) || CanceledName(Stem(r.id)) in Handle(d, r);
    }
  }

  /** Distinct seconds are needed: after any run, a second cutoff of a shard in the second of the
      first one offers all of its files to merging again, and below them what the first saved. */
  lemma SameSecondRepeats(ops: seq<Op>, op: Op)
    requires Regular(ops + [op]) && op.CutoffAt? && op.files != []
    ensures Offered(Storage(ops + [op]), op.shard, op.at) == Mergeable(op.shard, Window(ops, op.shard))
    ensures OfferedBelow(Storage(ops + [op]), op.shard, op.at) ==
            Admitted(DirAt(op) + "/" + UPLOADED, CanceledFiles(HandleAll(Window(ops, op.shard)).Keys),
                     if op.agentFound then SavedNames(op.files) else {})
  {
    CutoffOffersWindow(ops, op);
    assert (ops + [op])[..|ops|] == ops;
    SameSecondOffersAgain(Storage(ops), op.shard, op.at, Window(ops, op.shard), op.agentFound, op.files);
  }

  /** In every run a cancel is reported successful exactly if its ID was queued or canceled since the
      last cutoff, and no two dots stand in a row in the names. */
  lemma CancelReportInRun(ops: seq<Op>, shard: ShardName, id: string)
    requires Regular(ops) && '/' !in id
    ensures CancelSuccessful(Storage(ops), shard, id) <==>
            && Stem(id) in QueuedStems(Window(ops, shard)) + CanceledStems(Window(ops, shard))
            && !Contains(shard, "..") && !Contains(AchName(Stem(id)), "..")
  {
    EveryFileAccounted(ops);
    CancelReport(Storage(ops), shard, id);
    CancelFinds(Window(ops, shard), Stem(id));
  }

  // Conservation

  /** All requests of a shard in a run, over all its windows. */
  function Asks(ops: seq<Op>, shard: string): seq<Request> {
    if ops == [] then []
    else
      var before, op := Asks(ops[..|ops| - 1], shard), ops[|ops| - 1];
      if op.Ask? && op.shard == shard then before + [op.request] else before
  }

  predicate NoCut(ops: seq<Op>, shard: string) {
    forall op | op in ops :: op.CutoffAt? ==> op.shard != shard
  }

  lemma {:induction false} WindowGoesOn(a: seq<Op>, b: seq<Op>, shard: string)
    requires NoCut(b, shard)
    ensures Window(a + b, shard) == Window(a, shard) + Asks(b, shard)
    decreases |b|
  {
    if b == [] {
      assert a + b == a;
    } else {
      var n := |b| - 1;
      assert (a + b)[..|a| + n] == a + b[..n] && b == b[..n] + [b[n]];
      WindowGoesOn(a, b[..n], shard);
    }
  }

  function Cancels(w: seq<Request>, x: string): nat {
    if w == [] then 0
    else
      var r := w[|w| - 1];
      Cancels(w[..|w| - 1], x) + if r.Cancel? && Stem(r.id) == x then 1 else 0
  }

  /** A queued file with its contents; renamed by its first cancel, emptied by the second. */
  predicate Holds(d: Dir, x: string, data: Bytes, cancels: nat) {
    if cancels == 0 then AchName(x) in d && d[AchName(x)] == data
    else AchName(x) !in d && CanceledName(x) in d && d[CanceledName(x)] == if cancels == 1 then data else []
  }

  lemma HoldsOn(d: Dir, r: Request, x: string, data: Bytes, cancels: nat)
    requires Holds(d, x, data, cancels) && (r.Xfer? ==> Stem(r.id) != x)
    ensures Holds(Handle(d, r), x, data, cancels + if r.Cancel? && Stem(r.id) == x then 1 else 0)
  {
    NamesDiffer(x, Stem(r.id));
    NamesDiffer(Stem(r.id), x);
  }

  lemma {:induction false} FileInWindow(w: seq<Request>, r: Request, later: seq<Request>)
    requires r.Xfer? && Stem(r.id) !in QueuedStems(later)
    ensures Holds(HandleAll(w + [r] + later), Stem(r.id), r.data, Cancels(later, Stem(r.id)))
    decreases |later|
  {
    var x := Stem(r.id);
    if later == [] {
      assert w + [r] + later == w + [r];
      HandleMore(w, r);
      NamesDiffer(x, x);
    } else {
      var n := |later| - 1;
      assert w + [r] + later == w + [r] + later[..n] + [later[n]] && later == later[..n] + [later[n]];
      StemsOfLonger(later[..n], later[n]);
      FileInWindow(w, r, later[..n]);
      HandleMore(w + [r] + later[..n], later[n]);
      HoldsOn(HandleAll(w + [r] + later[..n]), later[n], x, r.data, Cancels(later[..n], x));
    }
  }

  /** The request at `i` queues a file, and `c` is the next cutoff of its shard, if there is one. */
  ghost predicate Journey(ops: seq<Op>, i: nat, c: nat) {
    && i < c <= |ops| && ops[i].Ask? && ops[i].request.Xfer?
    && NoCut(ops[i + 1..c], ops[i].shard)
    && (c < |ops| ==> ops[c].CutoffAt? && ops[c].shard == ops[i].shard)
    && forall k | 0 <= k < |ops| && k != i && ops[k].Ask? && ops[k].request.Xfer? ::
         Stem(ops[k].request.id) != Stem(ops[i].request.id)
  }

  /** The directory the file is in. */
  ghost function Place(ops: seq<Op>, i: nat, c: nat): Path
    requires Journey(ops, i, c)
  {
    if c < |ops| then [DirAt(ops[c])] else PendingDir(ops[i].shard)
  }

  /** Conservation: a queued file stays in the pending directory up to the next cutoff of its shard
      and in that cutoff's directory after it, with the contents its cancels leave, until the
      directory is removed because nothing was merged or by cleanup. */
  lemma Conserved(ops: seq<Op>, i: nat, c: nat)
    requires Regular(ops) && Journey(ops, i, c)
    ensures var files := Storage(ops).FilesIn(Place(ops, i, c));
            if c == |ops| || Kept(ops, c)
            then Holds(files, Stem(ops[i].request.id), ops[i].request.data,
                Cancels(Asks(ops[i + 1..c], ops[i].shard), Stem(ops[i].request.id)))
            else files == map[]
  {
    EveryFileAccounted(ops);
    JourneyHolds(ops, i, c);
    if c == |ops| { assert ops[..c] == ops; }
  }

  lemma JourneyHolds(ops: seq<Op>, i: nat, c: nat)
    requires Journey(ops, i, c)
    ensures Holds(HandleAll(Window(ops[..c], ops[i].shard)), Stem(ops[i].request.id), ops[i].request.data,
                  Cancels(Asks(ops[i + 1..c], ops[i].shard), Stem(ops[i].request.id)))
  {
    var shard, r, rest := ops[i].shard, ops[i].request, ops[i + 1..c];
    JourneyWindow(ops, i, c);
    LaterAsks(rest, shard, Stem(r.id));
    FileInWindow(Window(ops[..i], shard), r, Asks(rest, shard));
  }

  lemma JourneyWindow(ops: seq<Op>, i: nat, c: nat)
    requires Journey(ops, i, c)
    ensures Window(ops[..c], ops[i].shard) ==
            Window(ops[..i], ops[i].shard) + [ops[i].request] + Asks(ops[i + 1..c], ops[i].shard)
  {
    assert ops[..c] == ops[..i] + [ops[i]] + ops[i + 1..c];
    WindowMore(ops[..i], ops[i], ops[i].shard);
    WindowGoesOn(ops[..i] + [ops[i]], ops[i + 1..c], ops[i].shard);
  }

  lemma {:induction false} LaterAsks(ops: seq<Op>, shard: string, x: string)
    requires forall op | op in ops && op.Ask? && op.request.Xfer? :: Stem(op.request.id) != x
    ensures x !in QueuedStems(Asks(ops, shard))
  {
    if ops != [] {
      var n := |ops| - 1;
      LaterAsks(ops[..n], shard, x);
      if ops[n].Ask? && ops[n].shard == shard { StemsOfLonger(Asks(ops[..n], shard), ops[n].request); }
    }
  }

  // No second copy

  predicate AskedAt(ops: seq<Op>, k: int, shard: string, r: Request) {
    0 <= k < |ops| && ops[k].Ask? && ops[k].shard == shard && ops[k].request == r
  }

  /** A request of a window was made after the last cutoff of its shard. */
  lemma {:induction false} WindowRequest(ops: seq<Op>, shard: string, r: Request)
    requires r in Window(ops, shard)
    ensures exists k :: AskedAt(ops, k, shard, r) && NoCut(ops[k + 1..], shard)
  {
    var n := |ops| - 1;
    var before, op := ops[..n], ops[n];
    if op.Ask? && op.shard == shard && op.request == r {
      assert AskedAt(ops, n, shard, r) && ops[n + 1..] == [];
    } else {
      WindowRequest(before, shard, r);
      var k :| AskedAt(before, k, shard, r) && NoCut(before[k + 1..], shard);
      NoCutLonger(before, op, k + 1, shard);
      assert before + [op] == ops;
      assert AskedAt(ops, k, shard, r);
    }
  }

  lemma NoCutLonger(before: seq<Op>, op: Op, k: nat, shard: string)
    requires k <= |before| && NoCut(before[k..], shard) && (op.CutoffAt? ==> op.shard != shard)
    ensures NoCut((before + [op])[k..], shard)
  {
    assert (before + [op])[k..] == before[k..] + [op];
  }

  lemma QueuedRequest(ops: seq<Op>, shard: string, x: string)
    requires x in QueuedStems(Window(ops, shard))
    ensures exists k: nat :: QueuedAt(ops, k, x) && ops[k].shard == shard && NoCut(ops[k + 1..], shard)
  {
    var r :| r in Window(ops, shard) && r.Xfer? && Stem(r.id) == x;
    WindowRequest(ops, shard, r);
    var k: nat :| AskedAt(ops, k, shard, r) && NoCut(ops[k + 1..], shard);
    assert QueuedAt(ops, k, x);
  }

  predicate QueuedAt(ops: seq<Op>, k: nat, x: string) {
    k < |ops| && ops[k].Ask? && ops[k].request.Xfer? && Stem(ops[k].request.id) == x
  }

  /** No two requests of the run queue the same file, not even for different shards. */
  ghost predicate QueuedOnce(ops: seq<Op>, x: string) {
    forall k: nat, l: nat | QueuedAt(ops, k, x) && QueuedAt(ops, l, x) :: k == l
  }

  /** If the file is in the window of the cutoff at `c`, then that is the first cutoff after it. */
  lemma QueuedBefore(ops: seq<Op>, c: nat, shard: string, x: string)
    requires c <= |ops| && x in QueuedStems(Window(ops[..c], shard))
    ensures exists k: nat :: k < c && QueuedAt(ops, k, x) && ops[k].shard == shard && NoCut(ops[k + 1..c], shard)
  {
    QueuedRequest(ops[..c], shard, x);
    var k: nat :| QueuedAt(ops[..c], k, x) && ops[..c][k].shard == shard && NoCut(ops[..c][k + 1..], shard);
    assert ops[..c][k + 1..] == ops[k + 1..c];
    assert QueuedAt(ops, k, x);
  }

  /** A file queued once in a run is in the window of at most one cutoff. */
  lemma OneWindow(ops: seq<Op>, c1: nat, c2: nat, x: string)
    requires QueuedOnce(ops, x) && IsCut(ops, c1) && IsCut(ops, c2)
    requires x in QueuedStems(Window(ops[..c1], ops[c1].shard)) && x in QueuedStems(Window(ops[..c2], ops[c2].shard))
    ensures c1 == c2
  {
    QueuedBefore(ops, c1, ops[c1].shard, x);
    QueuedBefore(ops, c2, ops[c2].shard, x);
    var k1: nat :| k1 < c1 && QueuedAt(ops, k1, x) && ops[k1].shard == ops[c1].shard &&
        NoCut(ops[k1 + 1..c1], ops[c1].shard);
    var k2: nat :| k2 < c2 && QueuedAt(ops, k2, x) && ops[k2].shard == ops[c2].shard &&
        NoCut(ops[k2 + 1..c2], ops[c2].shard);
    assert k1 == k2;
    NoCutBetween(ops, k1, c1, ops[c1].shard);
    NoCutBetween(ops, k2, c2, ops[c2].shard);
  }

  lemma NoCutBetween(ops: seq<Op>, k: nat, c: nat, shard: string)
    requires k < c <= |ops| && NoCut(ops[k + 1..c], shard)
    ensures forall d | k < d < c && ops[d].CutoffAt? :: ops[d].shard != shard
  {
    forall d | k < d < c && ops[d].CutoffAt? ensures ops[d].shard != shard {
      assert ops[k + 1..c][d - k - 1] == ops[d];
    }
  }

  /** The files the cutoff at `c` offers to merging. */
  function OfferedAt(ops: seq<Op>, c: nat): set<string>
    requires IsCut(ops, c)
  {
    Offered(Storage(ops[..c]), ops[c].shard, ops[c].at)
  }

  /** Over a whole run with distinct cutoff seconds, a file queued once is offered to merging by at
      most one cutoff, of whatever shard. */
  lemma OfferedAtMostOnce(ops: seq<Op>, c1: nat, c2: nat, x: string)
    requires Regular(ops) && QueuedOnce(ops, x) && IsCut(ops, c1) && IsCut(ops, c2)
    requires AchName(x) in OfferedAt(ops, c1) && AchName(x) in OfferedAt(ops, c2)
    ensures c1 == c2
  {
    OfferedIsQueued(ops, c1, x);
    OfferedIsQueued(ops, c2, x);
    OneWindow(ops, c1, c2, x);
  }

  lemma OfferedIsQueued(ops: seq<Op>, c: nat, x: string)
    requires Regular(ops) && IsCut(ops, c)
    requires AchName(x) in OfferedAt(ops, c)
    ensures x in QueuedStems(Window(ops[..c], ops[c].shard)) - CanceledStems(Window(ops[..c], ops[c].shard))
  {
    PrefixDistinct(ops, c);
    CutoffOffersWindow(ops[..c], ops[c]);
    NamesAllDiffer(x);
  }

  lemma PrefixDistinct(ops: seq<Op>, c: nat)
    requires Regular(ops) && c < |ops|
    ensures Regular(ops[..c] + [ops[c]])
  {
    assert ops[..c] + [ops[c]] == ops[..c + 1];
    assert forall i | IsCut(ops[..c + 1], i) :: IsCut(ops, i) && ops[..c + 1][i] == ops[i];
  }

  /** A marker left by canceling a file that never came is empty. */
  lemma {:induction false} MarkerIsEmpty(w: seq<Request>, x: string)
    requires x !in QueuedStems(w) && CanceledName(x) in HandleAll(w)
    ensures HandleAll(w)[CanceledName(x)] == []
  {
    var v, r := w[..|w| - 1], w[|w| - 1];
    assert w == v + [r];
    StemsOfLonger(v, r);
    WindowContents(v, x);
    NamesDiffer(x, Stem(r.id));
    NamesDiffer(Stem(r.id), x);
    if CanceledName(x) in HandleAll(v) { MarkerIsEmpty(v, x); }
  }

  ghost predicate IsPending(ops: seq<Op>, p: Path) {
    |p| == 3 && p[0] == MERGABLE && p[2] in HandleAll(Window(ops, p[1]))
  }

  ghost predicate IsArchived(ops: seq<Op>, p: Path, c: nat) {
    IsCut(ops, c) && |p| == 2 && p[0] == DirAt(ops[c]) && p[1] in Archive(ops, c)
  }

  ghost predicate IsMergedFile(ops: seq<Op>, p: Path, c: nat) {
    IsCut(ops, c) && |p| == 3 && p[0] == DirAt(ops[c]) && p[1] == UPLOADED
  }

  /** There are only files of windows, pending or archived, and merged files beside the archives. */
  lemma KindsOfFiles(ops: seq<Op>, p: Path)
    requires Regular(ops) && p in Storage(ops).files
    ensures IsPending(ops, p) || (exists c: nat :: IsArchived(ops, p, c)) || (exists c: nat :: IsMergedFile(ops, p, c))
  {
    EveryFileAccounted(ops);
    if p[0] == MERGABLE {
      PendingKind(ops, Storage(ops), p);
    } else {
      ArchivedKind(ops, Storage(ops), p);
    }
  }

  lemma PendingKind(ops: seq<Op>, t: Tree, p: Path)
    requires Layout(t) && PendingAccounted(ops, t) && p in t.files && p[0] == MERGABLE
    ensures IsPending(ops, p)
  {
    assert Placed(p);
    assert p == PendingDir(p[1]) + [p[2]];
  }

  lemma ArchivedKind(ops: seq<Op>, t: Tree, p: Path)
    requires Layout(t) && Rooted(ops, t) && ArchivesAccounted(ops, t) && p in t.files && p[0] != MERGABLE
    ensures (exists c: nat :: IsArchived(ops, p, c)) || (exists c: nat :: IsMergedFile(ops, p, c))
  {
    assert Placed(p);
    RootIsCut(ops, t, p);
    var c: nat :| IsCut(ops, c) && p[0] == DirAt(ops[c]);
    if |p| == 2 {
      InArchive(ops, t, p, c);
    } else {
      assert IsMergedFile(ops, p, c);
    }
  }

  lemma InArchive(ops: seq<Op>, t: Tree, p: Path, c: nat)
    requires ArchivesAccounted(ops, t) && p in t.files && |p| == 2 && IsCut(ops, c) && p[0] == DirAt(ops[c])
    ensures IsArchived(ops, p, c)
  {
    assert p == [DirAt(ops[c])] + [p[1]];
    assert p[1] in t.FilesIn([DirAt(ops[c])]);
  }

  lemma RootIsCut(ops: seq<Op>, t: Tree, p: Path)
    requires Layout(t) && Rooted(ops, t) && p in t.files && p[0] != MERGABLE
    ensures exists c: nat :: IsCut(ops, c) && p[0] == DirAt(ops[c])
  {
    RootOfFile(t, p);
    var d := [p[0]];
    assert d in t.dirs && |d| == 1;
  }

  lemma RootOfFile(t: Tree, p: Path)
    requires Layout(t) && p in t.files
    ensures [p[0]] in t.dirs
  {
    assert Placed(p);
    var d := Parent(p);
    if |p| == 2 {
      assert d == [p[0]];
    } else {
      assert d == [p[0], p[1]] && Parent(d) == [p[0]];
    }
  }

  /** The last component of a path, if it is not that of a merged file. */
  predicate Named(p: Path, n: string) {
    (|p| == 3 && p[0] == MERGABLE && p[2] == n) || (|p| == 2 && p[1] == n)
  }

  /** While a queued file is in its place, no other directory has a file of its name, and of its
      canceled name there are only empty markers: isolation moves and never copies. */
  lemma NoSecondCopy(ops: seq<Op>, i: nat, c: nat, p: Path)
    requires Regular(ops) && Journey(ops, i, c)
    requires p in Storage(ops).files && p != [] && Parent(p) != Place(ops, i, c)
    ensures !Named(p, AchName(Stem(ops[i].request.id)))
    ensures Named(p, CanceledName(Stem(ops[i].request.id))) ==> Storage(ops).files[p] == []
  {
    EveryFileAccounted(ops);
    KindsOfFiles(ops, p);
    if IsPending(ops, p) {
      PendingElsewhere(ops, Storage(ops), i, c, p);
    } else if a: nat :| IsArchived(ops, p, a) {
      ArchivedElsewhere(ops, Storage(ops), i, c, p, a);
    }
  }

  lemma PendingElsewhere(ops: seq<Op>, t: Tree, i: nat, c: nat, p: Path)
    requires PendingAccounted(ops, t) && Journey(ops, i, c)
    requires p in t.files && IsPending(ops, p) && Parent(p) != Place(ops, i, c)
    ensures !Named(p, AchName(Stem(ops[i].request.id)))
    ensures Named(p, CanceledName(Stem(ops[i].request.id))) ==> t.files[p] == []
  {
    assert Parent(p) == PendingDir(p[1]) && p == PendingDir(p[1]) + [p[2]];
    NotInWindow(ops, i, c, |ops|, p[1]);
    assert ops[..|ops|] == ops;
    FileOfWindow(t, PendingDir(p[1]), Window(ops, p[1]), p[2], Stem(ops[i].request.id));
  }

  lemma ArchivedElsewhere(ops: seq<Op>, t: Tree, i: nat, c: nat, p: Path, a: nat)
    requires ArchivesAccounted(ops, t) && Journey(ops, i, c)
    requires p in t.files && IsArchived(ops, p, a) && Parent(p) != Place(ops, i, c)
    ensures !Named(p, AchName(Stem(ops[i].request.id)))
    ensures Named(p, CanceledName(Stem(ops[i].request.id))) ==> t.files[p] == []
  {
    ArchivedFile(ops, t, p, a);
    OtherArchive(ops, i, c, a);
    FileOfWindow(t, [DirAt(ops[a])], Window(ops[..a], ops[a].shard), p[1], Stem(ops[i].request.id));
  }

  lemma ArchivedFile(ops: seq<Op>, t: Tree, p: Path, a: nat)
    requires ArchivesAccounted(ops, t) && IsArchived(ops, p, a)
    ensures Parent(p) == [DirAt(ops[a])] && p == [DirAt(ops[a])] + [p[1]]
    ensures t.FilesIn([DirAt(ops[a])]) == HandleAll(Window(ops[..a], ops[a].shard))
  {
    ArchiveIsWindow(ops, a, p[1]);
  }

  lemma OtherArchive(ops: seq<Op>, i: nat, c: nat, a: nat)
    requires Journey(ops, i, c) && IsCut(ops, a) && [DirAt(ops[a])] != Place(ops, i, c)
    ensures Stem(ops[i].request.id) !in QueuedStems(Window(ops[..a], ops[a].shard))
  {
    NotInWindow(ops, i, c, a, ops[a].shard);
  }

  lemma ArchiveIsWindow(ops: seq<Op>, a: nat, n: string)
    requires IsCut(ops, a) && n in Archive(ops, a)
    ensures Archive(ops, a) == HandleAll(Window(ops[..a], ops[a].shard))
  {
  }

  lemma FileOfWindow(t: Tree, d: Path, w: seq<Request>, n: string, x: string)
    requires t.FilesIn(d) == HandleAll(w) && x !in QueuedStems(w) && d + [n] in t.files
    ensures n != AchName(x)
    ensures n == CanceledName(x) ==> t.files[d + [n]] == []
  {
    assert n in t.FilesIn(d) && t.FilesIn(d)[n] == t.files[d + [n]];
    WindowContents(w, x);
    if n == CanceledName(x) { MarkerIsEmpty(w, x); }
  }

  /** A file queued once in the run is in no window but the one it was queued in. */
  lemma NotInWindow(ops: seq<Op>, i: nat, c: nat, a: nat, shard: string)
    requires Journey(ops, i, c) && a <= |ops| && (a < |ops| ==> IsCut(ops, a) && ops[a].shard == shard)
    ensures Stem(ops[i].request.id) in QueuedStems(Window(ops[..a], shard)) ==> a == c && shard == ops[i].shard
  {
    var x := Stem(ops[i].request.id);
    if x in QueuedStems(Window(ops[..a], shard)) {
      QueuedBefore(ops, a, shard, x);
      var k: nat :| k < a && QueuedAt(ops, k, x) && ops[k].shard == shard && NoCut(ops[k + 1..a], shard);
      assert k == i;
      NoCutBetween(ops, i, a, shard);
      NoCutBetween(ops, i, c, shard);
    }
  }

  // Any run: IDs with slashes, cutoffs that are refused

  /** A cutoff that finds its name taken and something pending fails and changes nothing. */
  predicate Refused(t: Tree, op: Op) {
    op.CutoffAt? && [DirAt(op)] in t.dirs && PendingDir(op.shard) in t.dirs
  }

  /** What an operation comes to: a request goes to the shard its ID leads to, a refused cutoff is none. */
  function Effective(t: Tree, op: Op): seq<Op> {
    if op.Ask? && Lands(op.shard, Stem(op.request.id)) then [Ask(LandsIn(op.shard, op.request), LandsAs(op.request))]
    else if Refused(t, op) then []
    else [op]
  }

  function Normal(ops: seq<Op>): seq<Op> {
    if ops == [] then []
    else Normal(ops[..|ops| - 1]) + Effective(Storage(ops[..|ops| - 1]), ops[|ops| - 1])
  }

  lemma EffectiveStep(t: Tree, op: Op)
    ensures var e := Effective(t, op);
            |e| <= 1 && Step(t, op) == if e == [] then t else Step(t, e[0])
  {
    if op.Ask? && Lands(op.shard, Stem(op.request.id)) { LandingIsRequest(t, op.shard, op.request); }
  }

  /** Every run leaves what its normal form leaves. So all results about regular runs hold of every run
      whose normal form is regular. */
  lemma {:induction false} NormalRun(ops: seq<Op>)
    ensures Storage(Normal(ops)) == Storage(ops)
  {
    if ops != [] {
      var before, op := ops[..|ops| - 1], ops[|ops| - 1];
      NormalRun(before);
      EffectiveStep(Storage(before), op);
      var e := Effective(Storage(before), op);
      if e == [] {
        assert Normal(before) + e == Normal(before);
      } else {
        assert Normal(before) + e == Normal(before) + [e[0]];
        StorageMore(Normal(before), e[0]);
      }
    }
  }

  lemma StorageMore(before: seq<Op>, op: Op)
    ensures Storage(before + [op]) == Step(Storage(before), op)
  {
    TakeOfMore(before, op, |before|);
    assert before[..|before|] == before;
  }

  /** The normal form has no refused cutoffs and no IDs that lead directly into a pending directory by a
      detour. */
  lemma {:induction false} NormalIsNormal(ops: seq<Op>, i: nat)
    requires i < |Normal(ops)|
    ensures !Refused(Storage(Normal(ops)[..i]), Normal(ops)[i])
    ensures Normal(ops)[i].Ask? && Lands(Normal(ops)[i].shard, Stem(Normal(ops)[i].request.id)) ==>
            '/' !in Normal(ops)[i].request.id
  {
    var before, op := ops[..|ops| - 1], ops[|ops| - 1];
    if i < |Normal(before)| {
      NormalIsNormal(before, i);
      assert Normal(ops)[..i] == Normal(before)[..i];
    } else {
      NormalRun(before);
      assert Normal(ops)[..i] == Normal(before) && Normal(ops)[i] == Effective(Storage(before), op)[0];
    }
  }

  predicate AllLand(ops: seq<Op>) {
    forall op | op in ops && op.Ask? :: Lands(op.shard, Stem(op.request.id))
  }

  /** The normal form has no slashes exactly if every ID leads directly into some pending directory. */
  lemma {:induction false} NormalFlatIffAllLand(ops: seq<Op>)
    ensures FlatRun(Normal(ops)) <==> AllLand(ops)
  {
    if ops != [] {
      var before, op := ops[..|ops| - 1], ops[|ops| - 1];
      NormalFlatIffAllLand(before);
      assert forall q :: q in ops <==> q in before || q == op;
      var e := Effective(Storage(before), op);
      assert forall q :: q in Normal(ops) <==> q in Normal(before) || q in e;
      if op.Ask? && !Lands(op.shard, Stem(op.request.id)) {
        assert op in e;
        if '/' !in op.request.id { FlatLands(op.shard, op.request); }
      }
    }
  }

  /** Any run whose IDs lead into pending directories: where every file is. */
  lemma EveryRunAccounted(ops: seq<Op>)
    requires AllLand(ops) && DistinctSeconds(Normal(ops))
    ensures Accounted(Normal(ops), Storage(ops))
  {
    NormalFlatIffAllLand(ops);
    NormalRun(ops);
    EveryFileAccounted(Normal(ops));
  }

  /** In any such run a cancel is reported successful exactly if the file its ID leads to was queued or
      canceled, under whatever ID, since the last cutoff of the shard it leads to. */
  lemma CancelReportInEveryRun(ops: seq<Op>, shard: ShardName, id: string)
    requires AllLand(ops) && DistinctSeconds(Normal(ops)) && Lands(shard, Stem(id))
    ensures var home, x := LandsIn(shard, Cancel(id)), Base(Stem(id));
            CancelSuccessful(Storage(ops), shard, id) <==>
            && x in QueuedStems(Window(Normal(ops), home)) + CanceledStems(Window(Normal(ops), home))
            && !Contains(home, "..") && !Contains(AchName(x), "..")
  {
    NormalFlatIffAllLand(ops);
    NormalRun(ops);
    LandingIsRequest(Storage(ops), shard, Cancel(id));
    CancelReportInRun(Normal(ops), LandsIn(shard, Cancel(id)), LandsAs(Cancel(id)).id);
  }

  /** In any such run a cutoff of its own second offers what was queued, under whatever IDs, for the
      files of its shard and not canceled since the last one. */
  lemma CutoffOffersInEveryRun(ops: seq<Op>, op: Op)
    requires AllLand(ops) && DistinctSeconds(Normal(ops) + [op]) && op.CutoffAt?
    ensures Offered(Storage(ops), op.shard, op.at) == Mergeable(op.shard, Window(Normal(ops), op.shard))
  {
    NormalFlatIffAllLand(ops);
    NormalRun(ops);
    assert FlatRun(Normal(ops) + [op]);
    CutoffOffersWindow(Normal(ops), op);
  }

  // What slashes do to the plain reading

  function Sideways(shard: string, x: string): string {
    ".." + "/" + shard + "/" + x
  }

  lemma SidewaysLands(s: ShardName, t: ShardName, x: string, r: Request)
    requires '/' !in x && r.id == AchName(Sideways(t, x))
    ensures Lands(s, Stem(r.id)) && LandsIn(s, r) == t && LandsAs(r) == r.(id := AchName(x))
  {
    TrimAppended(Sideways(t, x), ".ach");
    assert PendingDir(s) == [MERGABLE] + [s] && PendingDir(t) == [MERGABLE] + [t];
    ClimbsToSibling([MERGABLE], s, t, x);
  }

  function Queue(shard: ShardName, x: string, data: Bytes): Op {
    Ask(shard, Xfer(AchName(x), data, None))
  }

  /** Two different IDs, one for each of two shards, can be the same file: it is then offered by two
      cutoffs of the one shard, and by the second although nothing was queued for that shard. Neither
      offers it if the file or the shard has ".canceled" in its name. */
  lemma SlashOffersTwice(s: ShardName, t: ShardName, x: string, data: Bytes, cut: Op, second: Time)
    requires '/' !in x
    requires cut.CutoffAt? && cut.shard == t && cut.at != second
    ensures AchName(x) in Offered(Storage([Queue(t, x, data)]), t, cut.at) <==> !Marked(t, x, ".canceled")
    ensures s != t ==> Window([Queue(t, x, data)] + [cut] + [Queue(s, Sideways(t, x), data)], t) == []
    ensures AchName(x) in Offered(Storage([Queue(t, x, data)] + [cut] + [Queue(s, Sideways(t, x), data)]), t, second)
            <==> !Marked(t, x, ".canceled")
  {
    var here, there, next := Queue(t, x, data), Queue(s, Sideways(t, x), data), CutoffAt(t, second, true, []);
    TrimAppended(x, ".ach");
    TwoCutoffsRegular(here, cut, here, next);
    FewerDistinct([here] + [cut] + [here], next);
    FewerDistinct([here] + [cut], here);
    OneRequestOffered([], here, cut);
    assert [] + [here] == [here];
    WindowMore([here], cut, t);
    WindowMore([here] + [cut], there, t);
    OneRequestOffered([here] + [cut], here, next);
    SidewaysStores([here] + [cut], s, t, x, data);
  }

  lemma SidewaysStores(before: seq<Op>, s: ShardName, t: ShardName, x: string, data: Bytes)
    requires '/' !in x
    ensures Storage(before + [Queue(s, Sideways(t, x), data)]) == Storage(before + [Queue(t, x, data)])
  {
    var here, there := Queue(t, x, data), Queue(s, Sideways(t, x), data);
    SidewaysLands(s, t, x, there.request);
    LandingIsRequest(Storage(before), s, there.request);
    StorageMore(before, here);
    StorageMore(before, there);
  }

  lemma TwoCutoffsRegular(a: Op, c1: Op, b: Op, c2: Op)
    requires a.Ask? && b.Ask? && '/' !in a.request.id && '/' !in b.request.id
    requires c1.CutoffAt? && c2.CutoffAt? && c1.at != c2.at
    ensures Regular([a] + [c1] + [b] + [c2])
  {
    var ops := [a] + [c1] + [b] + [c2];
    assert forall op :: op in ops <==> op == a || op == c1 || op == b || op == c2;
    assert forall i | IsCut(ops, i) :: i == 1 || i == 3;
  }

  /** Right after a cutoff or at the start, a single queued file is the whole window. The next cutoff
      offers it exactly if neither it nor its shard has ".canceled" in its name. */
  lemma OneRequestOffered(before: seq<Op>, op: Op, cut: Op)
    requires op.Ask? && op.request.Xfer? && op.request.opts.None? && '/' !in op.request.id
    requires Window(before, op.shard) == []
    requires cut.CutoffAt? && cut.shard == op.shard && Regular(before + [op] + [cut])
    ensures AchName(Stem(op.request.id)) in Offered(Storage(before + [op]), op.shard, cut.at)
            <==> !Marked(op.shard, Stem(op.request.id), ".canceled")
  {
    CutoffOffersWindow(before + [op], cut);
    WindowMore(before, op, op.shard);
    OneMergeable(op.shard, op.request);
    assert [] + [op.request] == [op.request];
  }

  lemma OneMergeable(dir: string, r: Request)
    requires r.Xfer?
    ensures AchName(Stem(r.id)) in Mergeable(dir, [r]) <==> !Marked(dir, Stem(r.id), ".canceled")
  {
    assert r in [r];
    assert Stem(r.id) in QueuedStems([r]) - CanceledStems([r]);
    NamesAllDiffer(Stem(r.id));
  }
}
