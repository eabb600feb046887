/** The encrypting chest over the plain one (internal/storage/encryption.go): contents are disfigured
    on their way in and revealed on their way out, everything else passes through. */
module Encrypted {
  import opened Text
  import opened Disk
  import opened Paths
  import opened Pending
  import opened Cutoff

  /** A randomized cipher: disfiguring takes a nonce, revealing may fail. */
  datatype Cipher = Cipher(disfigure: (Bytes, nat) -> Bytes, recover: Bytes -> Option<Bytes>)

  ghost predicate Sound(c: Cipher) {
    forall b: Bytes, nonce: nat :: c.recover(c.disfigure(b, nonce)) == Some(b)
  }

  datatype ChestOp =
    | WriteFile(path: Path, data: Bytes, nonce: nat)
    | ReplaceFile(src: Path, dst: Path)
    | ReplaceDir(src: Path, dst: Path)
    | MkdirAll(path: Path)
    | RmdirAll(path: Path)

  predicate Proper(op: ChestOp) {
    match op
    case WriteFile(p, _, _) => p != []
    case ReplaceFile(src, dst) => src != [] && dst != []
    case ReplaceDir(_, _) => true
    case MkdirAll(_) => true
    case RmdirAll(p) => p != []
  }

  function PlainStep(t: Tree, op: ChestOp): Result
    requires Proper(op)
  {
    match op
    case WriteFile(p, data, _) => t.WriteFile(p, data)
    case ReplaceFile(src, dst) => t.ReplaceFile(src, dst)
    case ReplaceDir(src, dst) => t.ReplaceDir(src, dst)
    case MkdirAll(p) => t.MkdirAll(p)
    case RmdirAll(p) => Result(t.RmdirAll(p), true)
  }

  function EncryptedStep(c: Cipher, t: Tree, op: ChestOp): Result
    requires Proper(op)
  {
    if op.WriteFile? then t.WriteFile(op.path, c.disfigure(op.data, op.nonce)) else PlainStep(t, op)
  }

  /** What Open hands out: the encrypting chest reads the file whole, so a directory does not open. */
  function Opened(c: Cipher, t: Tree, p: Path): Option<Bytes> {
    if t.Opens(p) && p in t.files then c.recover(t.files[p]) else None
  }

  function PlainOpened(t: Tree, p: Path): Option<Bytes> {
    if t.Opens(p) && p in t.files then Some(t.files[p]) else None
  }

  /** The contents of a file, whether or not Open refuses its path. */
  function Revealed(c: Cipher, t: Tree, p: Path): Option<Bytes> {
    if p in t.files then c.recover(t.files[p]) else None
  }

  /** The same file, or none, at every path for which `changed` is false. */
  ghost predicate SameBut(t: Tree, u: Tree, changed: Path -> bool) {
    forall p | !changed(p) :: (p in u.files <==> p in t.files) && (p in t.files ==> u.files[p] == t.files[p])
  }

  /** A write that goes through reveals what was written, at that path and no other. */
  lemma WriteReveals(c: Cipher, t: Tree, p: Path, data: Bytes, nonce: nat)
    requires Sound(c) && p != []
    ensures var r := EncryptedStep(c, t, WriteFile(p, data, nonce));
            && (r.ok <==> p !in t.dirs && !t.Blocked(Parent(p)))
            && (r.ok ==> Revealed(c, r.tree, p) == Some(data))
            && SameBut(t, r.tree, q => q == p && r.ok)
  {
    AncestorsAreShorter(p);
  }

  /** A replacement of a file takes its contents along, as they are. */
  lemma ReplaceReveals(c: Cipher, t: Tree, src: Path, dst: Path)
    requires src in t.files && src != [] && dst != [] && src != dst && IsTree(t)
    ensures var r := EncryptedStep(c, t, ReplaceFile(src, dst));
            && (r.ok <==> dst !in t.dirs && !t.Blocked(Parent(dst)))
            && (r.ok ==> Revealed(c, r.tree, dst) == Revealed(c, t, src) && src !in r.tree.files)
            && SameBut(t, r.tree, q => (q == src || q == dst) && r.ok)
  {
    AncestorsAreShorter(dst);
    AncestorsClosed(Parent(dst));
    if !t.Blocked(Parent(dst)) { NotAnAncestor(t, Parent(dst), src); }
  }

  lemma AncestorsAreShorter(p: Path)
    requires p != []
    ensures forall q | q in Ancestors(Parent(p)) :: |q| < |p|
  {
  }

  lemma NotAnAncestor(t: Tree, p: Path, q: Path)
    requires !t.Blocked(p) && q in t.files
    ensures q !in Ancestors(p)
  {
  }

  /** A directory that moves takes everything below along, as it is. */
  lemma DirectoryMoves(c: Cipher, t: Tree, src: Path, dst: Path, s: Path)
    requires src in t.dirs && EncryptedStep(c, t, ReplaceDir(src, dst)).ok && IsTree(t)
    ensures var u := EncryptedStep(c, t, ReplaceDir(src, dst)).tree;
            (dst + s in u.files <==> src + s in t.files) && Revealed(c, u, dst + s) == Revealed(c, t, src + s)
  {
    DirectoryRenamed(t, src, dst);
    NothingThere(t, dst);
    BelowMoves(t.files, src, dst, s);
  }

  lemma DirectoryMovesAlone(c: Cipher, t: Tree, src: Path, dst: Path)
    requires src in t.dirs && EncryptedStep(c, t, ReplaceDir(src, dst)).ok && IsTree(t)
    ensures SameBut(t, EncryptedStep(c, t, ReplaceDir(src, dst)).tree, q => src <= q || dst <= q)
  {
    DirectoryRenamed(t, src, dst);
    OthersStay(t.files, src, dst);
  }

  lemma DirectoryRenamed(t: Tree, src: Path, dst: Path)
    requires src in t.dirs && t.ReplaceDir(src, dst).ok && IsTree(t)
    ensures t.ReplaceDir(src, dst).tree.files == MoveFiles(t.files, src, dst) && !t.Exists(dst)
  {
    assert t.Exists(src) && src !in t.files;
  }

  lemma BelowMoves(files: map<Path, Bytes>, src: Path, dst: Path, s: Path)
    requires forall q | q in files :: !(dst <= q)
    ensures dst + s in MoveFiles(files, src, dst) <==> src + s in files
    ensures src + s in files ==> MoveFiles(files, src, dst)[dst + s] == files[src + s]
  {
    MoveFilesAt(files, src, dst, dst + s);
    assert (dst + s)[|dst|..] == s;
  }

  lemma OthersStay(files: map<Path, Bytes>, src: Path, dst: Path)
    ensures forall q | !(src <= q || dst <= q) ::
              && (q in MoveFiles(files, src, dst) <==> q in files)
              && (q in files ==> MoveFiles(files, src, dst)[q] == files[q])
  {
    forall q | !(src <= q || dst <= q)
      ensures (q in MoveFiles(files, src, dst) <==> q in files)
      ensures q in files ==> MoveFiles(files, src, dst)[q] == files[q]
    {
      MoveFilesAt(files, src, dst, q);
    }
  }

  lemma NothingThere(t: Tree, dst: Path)
    requires IsTree(t) && !t.Exists(dst)
    ensures forall q | q in t.files :: !(dst <= q)
  {
    forall q | q in t.files ensures !(dst <= q) {
      if dst <= q { NothingBelow(t, dst, q); }
    }
  }

  lemma DirectoryGoes(c: Cipher, t: Tree, p: Path)
    requires p != []
    ensures var u := EncryptedStep(c, t, RmdirAll(p)).tree;
            (forall q :: q in u.files ==> !(p <= q)) && SameBut(t, u, q => p <= q)
  {
  }

  lemma DirectoryIsMade(c: Cipher, t: Tree, p: Path)
    ensures var r := EncryptedStep(c, t, MkdirAll(p));
            && (r.ok <==> !t.Blocked(p)) && r.tree.files == t.files
            && (r.ok ==> forall i | 0 <= i <= |p| :: p[..i] in r.tree.dirs)
  {
  }

  /** Same names, and the encrypted contents reveal the plain ones. */
  ghost predicate SameFiles(c: Cipher, f: map<Path, Bytes>, e: map<Path, Bytes>) {
    (forall p :: p in f <==> p in e) && (forall p | p in f :: c.recover(e[p]) == Some(f[p]))
  }

  ghost predicate Simulates(c: Cipher, plain: Tree, enc: Tree) {
    plain.dirs == enc.dirs && SameFiles(c, plain.files, enc.files)
  }

  /** All that a reader can see agrees. */
  lemma SimulationIsSeen(c: Cipher, plain: Tree, enc: Tree, p: Path)
    requires Simulates(c, plain, enc)
    ensures Opened(c, enc, p) == PlainOpened(plain, p)
    ensures enc.FileNames(p) == plain.FileNames(p) && enc.DirNames(p) == plain.DirNames(p)
  {
  }

  lemma SameBlocked(c: Cipher, plain: Tree, enc: Tree, p: Path)
    requires Simulates(c, plain, enc)
    ensures plain.Blocked(p) == enc.Blocked(p) && plain.Exists(p) == enc.Exists(p)
  {
  }

  lemma MkdirAllSimulates(c: Cipher, plain: Tree, enc: Tree, p: Path)
    requires Simulates(c, plain, enc)
    ensures plain.MkdirAll(p).ok == enc.MkdirAll(p).ok && Simulates(c, plain.MkdirAll(p).tree, enc.MkdirAll(p).tree)
  {
    SameBlocked(c, plain, enc, p);
  }

  lemma WriteSimulates(c: Cipher, plain: Tree, enc: Tree, p: Path, data: Bytes, hidden: Bytes)
    requires Simulates(c, plain, enc) && c.recover(hidden) == Some(data)
    ensures plain.Write(p, data).ok == enc.Write(p, hidden).ok
    ensures Simulates(c, plain.Write(p, data).tree, enc.Write(p, hidden).tree)
  {
  }

  lemma MoveFilesSame(c: Cipher, f: map<Path, Bytes>, e: map<Path, Bytes>, src: Path, dst: Path)
    requires SameFiles(c, f, e)
    ensures SameFiles(c, MoveFiles(f, src, dst), MoveFiles(e, src, dst))
  {
    forall q ensures q in MoveFiles(f, src, dst) <==> q in MoveFiles(e, src, dst) {
      MoveFilesAt(f, src, dst, q);
      MoveFilesAt(e, src, dst, q);
    }
    forall q | q in MoveFiles(f, src, dst)
      ensures c.recover(MoveFiles(e, src, dst)[q]) == Some(MoveFiles(f, src, dst)[q])
    {
      MoveFilesAt(f, src, dst, q);
      MoveFilesAt(e, src, dst, q);
    }
  }

  lemma RenameSimulates(c: Cipher, plain: Tree, enc: Tree, src: Path, dst: Path)
    requires Simulates(c, plain, enc)
    ensures plain.Rename(src, dst).ok == enc.Rename(src, dst).ok
    ensures Simulates(c, plain.Rename(src, dst).tree, enc.Rename(src, dst).tree)
  {
    SameBlocked(c, plain, enc, src);
    MoveFilesSame(c, plain.files, enc.files, src, dst);
  }

  /** Once the directory of the new name is made, the old name is found to be missing. */
  predicate Misses(t: Tree, op: ChestOp)
    requires Proper(op)
  {
    op.ReplaceFile? &&
    var made := t.MkdirAll(Parent(op.dst));
    made.ok && !made.tree.Exists(op.src) && !made.tree.Blocked(op.src)
  }

  lemma StepSimulates(c: Cipher, plain: Tree, enc: Tree, op: ChestOp)
    requires Sound(c) && Simulates(c, plain, enc) && Proper(op) && !Misses(plain, op)
    ensures PlainStep(plain, op).ok == EncryptedStep(c, enc, op).ok
    ensures Simulates(c, PlainStep(plain, op).tree, EncryptedStep(c, enc, op).tree)
  {
    match op
    case WriteFile(p, data, nonce) =>
      MkdirAllSimulates(c, plain, enc, Parent(p));
      WriteSimulates(c, plain.MkdirAll(Parent(p)).tree, enc.MkdirAll(Parent(p)).tree, p, data,
          c.disfigure(data, nonce));
    case ReplaceFile(src, dst) =>
      MkdirAllSimulates(c, plain, enc, Parent(dst));
      SameBlocked(c, plain.MkdirAll(Parent(dst)).tree, enc.MkdirAll(Parent(dst)).tree, src);
      RenameSimulates(c, plain.MkdirAll(Parent(dst)).tree, enc.MkdirAll(Parent(dst)).tree, src, dst);
    case ReplaceDir(src, dst) =>
      SameBlocked(c, plain, enc, src);
      MkdirAllSimulates(c, plain, enc, dst);
      RenameSimulates(c, plain, enc, src, dst);
    case MkdirAll(p) => MkdirAllSimulates(c, plain, enc, p);
    case RmdirAll(p) =>
  }

  function PlainRun(t: Tree, ops: seq<ChestOp>): Tree
    requires forall op | op in ops :: Proper(op)
  {
    if ops == [] then t else PlainStep(PlainRun(t, ops[..|ops| - 1]), ops[|ops| - 1]).tree
  }

  function EncryptedRun(c: Cipher, t: Tree, ops: seq<ChestOp>): Tree
    requires forall op | op in ops :: Proper(op)
  {
    if ops == [] then t else EncryptedStep(c, EncryptedRun(c, t, ops[..|ops| - 1]), ops[|ops| - 1]).tree
  }

  /** Every replacement of the run finds its file. */
  predicate AllReplace(t: Tree, ops: seq<ChestOp>)
    requires forall op | op in ops :: Proper(op)
  {
    if ops == [] then true
    else
      var before, op := ops[..|ops| - 1], ops[|ops| - 1];
      assert op in ops;
      AllReplace(t, before) && !Misses(PlainRun(t, before), op)
  }

  /** Over every sequence of writes, moves, removals and replacements of existing files, whatever the
      nonces, the encrypted chest shows the same names and opens to the same contents. */
  lemma {:induction false} EncryptedChestSimulates(c: Cipher, plain: Tree, enc: Tree, ops: seq<ChestOp>)
    requires Sound(c) && Simulates(c, plain, enc)
    requires (forall op | op in ops :: Proper(op)) && AllReplace(plain, ops)
    ensures Simulates(c, PlainRun(plain, ops), EncryptedRun(c, enc, ops))
  {
    if ops != [] {
      var before := ops[..|ops| - 1];
      EncryptedChestSimulates(c, plain, enc, before);
      StepSimulates(c, PlainRun(plain, before), EncryptedRun(c, enc, before), ops[|ops| - 1]);
    }
  }

  /** The replacement of a missing file writes an empty one past the cipher. It keeps the simulation
      exactly if the empty contents reveal as empty. */
  lemma MissingReplacement(c: Cipher, plain: Tree, enc: Tree, src: Path, dst: Path)
    requires Simulates(c, plain, enc) && src != [] && dst != [] && Misses(plain, ReplaceFile(src, dst))
    requires dst !in plain.MkdirAll(Parent(dst)).tree.dirs
    ensures Simulates(c, plain.ReplaceFile(src, dst).tree, enc.ReplaceFile(src, dst).tree) <==>
        c.recover([]) == Some([])
  {
    var p, e := plain.MkdirAll(Parent(dst)).tree, enc.MkdirAll(Parent(dst)).tree;
    MkdirAllSimulates(c, plain, enc, Parent(dst));
    SameBlocked(c, p, e, src);
    assert plain.ReplaceFile(src, dst).tree.files[dst] == [] && enc.ReplaceFile(src, dst).tree.files[dst] == [];
  }

  /** The encrypting chest over a directory of the host. */
  class EncryptedChest {
    const underlying: Filesystem
    const crypt: Option<Cipher>

    constructor (underlying: Filesystem, crypt: Option<Cipher>)
      ensures this.underlying == underlying && this.crypt == crypt
    {
      this.underlying, this.crypt := underlying, crypt;
    }

    method Open(path: Path) returns (contents: Option<Bytes>)
      ensures contents == if crypt.Some? then Opened(crypt.value, underlying.State(), path)
          else PlainOpened(underlying.State(), path)
    {
      if !underlying.State().Opens(path) || path !in underlying.files { return None; }
      var bs := underlying.files[path];
      contents := if crypt.Some? then crypt.value.recover(bs) else Some(bs);
    }

    /** Every operation that changes the chest; without a cipher, it is the plain one. */
    method Apply(op: ChestOp) returns (ok: bool)
      requires underlying.Valid() && Proper(op)
      modifies underlying
      ensures underlying.Valid()
      ensures Result(underlying.State(), ok) ==
              if crypt.Some? then EncryptedStep(crypt.value, old(underlying.State()), op)
                  else PlainStep(old(underlying.State()), op)
    {
      match op
      case WriteFile(path, data, nonce) =>
        var contents := if crypt.Some? then crypt.value.disfigure(data, nonce) else data;
        ok := underlying.WriteFile(path, contents);
      case ReplaceFile(src, dst) => ok := underlying.ReplaceFile(src, dst);
      case ReplaceDir(src, dst) => ok := underlying.ReplaceDir(src, dst);
      case MkdirAll(path) => ok := underlying.MkdirAll(path);
      case RmdirAll(path) =>
        underlying.RmdirAll(path);
        ok := true;
    }
  }

  lemma MissStepSimulates(c: Cipher, plain: Tree, enc: Tree, op: ChestOp)
    requires Simulates(c, plain, enc) && Proper(op) && Misses(plain, op) && c.recover([]) == Some([])
    ensures PlainStep(plain, op).ok == EncryptedStep(c, enc, op).ok
    ensures Simulates(c, PlainStep(plain, op).tree, EncryptedStep(c, enc, op).tree)
  {
    var p, e := plain.MkdirAll(Parent(op.dst)).tree, enc.MkdirAll(Parent(op.dst)).tree;
    MkdirAllSimulates(c, plain, enc, Parent(op.dst));
    SameBlocked(c, p, e, op.src);
    WriteSimulates(c, p, e, op.dst, [], []);
  }

  /** So if empty contents reveal as empty, the simulation holds over every sequence of operations. */
  lemma {:induction false} EncryptedChestSimulatesAll(c: Cipher, plain: Tree, enc: Tree, ops: seq<ChestOp>)
    requires Sound(c) && c.recover([]) == Some([]) && Simulates(c, plain, enc)
    requires forall op | op in ops :: Proper(op)
    ensures Simulates(c, PlainRun(plain, ops), EncryptedRun(c, enc, ops))
  {
    if ops != [] {
      var before, op := ops[..|ops| - 1], ops[|ops| - 1];
      EncryptedChestSimulatesAll(c, plain, enc, before);
      assert op in ops;
      if Misses(PlainRun(plain, before), op) {
        MissStepSimulates(c, PlainRun(plain, before), EncryptedRun(c, enc, before), op);
      } else {
        StepSimulates(c, PlainRun(plain, before), EncryptedRun(c, enc, before), op);
      }
    }
  }

  /** So on encrypted storage a cancel is reported differently: if the file has not come, a second
      cancel finds the marker of the first exactly if the empty contents can be revealed. */
  lemma SecondCancelFinds(c: Cipher, t: Tree, shard: ShardName, id: string)
    requires Layout(t) && '/' !in id && AchName(Stem(id)) !in t.FilesIn(PendingDir(shard))
    requires !Contains(shard, "..") && !Contains(AchName(Stem(id)), "..")
    ensures var u := CancelTree(t, shard, id).tree;
            && CancelSuccessful(u, shard, id)
            && (Opened(c, u, PendingDir(shard) + [CanceledName(Stem(id))]).Some? <==> c.recover([]).Some?)
  {
    var u, marker := CancelTree(t, shard, id).tree, PendingDir(shard) + [CanceledName(Stem(id))];
    CancelRefines(t, shard, id);
    NamesDiffer(Stem(id), Stem(id));
    assert u.FilesIn(PendingDir(shard))[CanceledName(Stem(id))] == [];
    CancelReport(u, shard, id);
    MarkerAddsNoDots(AchName(Stem(id)));
    OpensPending(u, shard, CanceledName(Stem(id)));
    assert u.files[marker] == [];
  }
}
