/** The cleanup of old isolated directories (internal/pipeline/cleanup.go). */
module Cleanup {
  import opened Text
  import opened Calendar
  import opened Disk
  import opened Cutoff

  const NANOS := 1_000_000_000

  /** The name pattern of one shard: its name, a hyphen and a stamp, and nothing else. */
  predicate Matches(shard: string, name: string) {
    shard + "-" <= name && IsStamp(name[|shard| + 1..])
  }

  function StampOf(shard: string, name: string): (s: string)
    requires Matches(shard, name)
    ensures IsStamp(s)
  {
    name[|shard| + 1..]
  }

  /** The time up to which a run cleans, in nanoseconds. */
  function CutoffTime(now: int, retention: int): int {
    now - retention
  }

  /** The time in a name, read as if it were UTC, is not after the cutoff (in nanoseconds). */
  predicate OldEnough(shard: string, name: string, cutoff: int)
    requires Matches(shard, name)
  {
    var at := Parse(StampOf(shard, name));
    at.Some? && Seconds(at.value) * NANOS <= cutoff
  }

  /** The directories one run removes. */
  function Eligible(t: Tree, shard: string, cutoff: int): set<string> {
    set n | n in t.DirNames([]) && Matches(shard, n) && OldEnough(shard, n, cutoff)
            && t.FileNames([n, UPLOADED]) != {}
  }

  function MatchingNames(t: Tree, shard: string): set<string> {
    set n | n in t.DirNames([]) && Matches(shard, n)
  }

  /** The directories a run counts as errors: their stamp is no time. */
  function Unreadable(t: Tree, shard: string): set<string> {
    set n | n in t.DirNames([]) && Matches(shard, n) && Parse(StampOf(shard, n)).None?
  }

  predicate Under(names: set<string>, p: Path) {
    p != [] && p[0] in names
  }

  function RemoveDirs(t: Tree, names: set<string>): Tree {
    Tree(map p | p in t.files && !Under(names, p) :: t.files[p], set d | d in t.dirs && !Under(names, d))
  }

  function Swept(t: Tree, shard: string, cutoff: int): Tree {
    RemoveDirs(t, Eligible(t, shard, cutoff))
  }

  datatype Run = Run(tree: Tree, deleted: nat, errors: nat)

  /** What a run should do: remove the eligible directories, count them and the unreadable ones. */
  function Sweep(t: Tree, shard: string, cutoff: int): Run {
    Run(Swept(t, shard, cutoff), |Eligible(t, shard, cutoff)|, |Unreadable(t, shard)|)
  }

  /** The name isolation prints matches the shard's pattern and reads back as the same time. */
  lemma IsolatedNameReadsBack(shard: string, at: Civil)
    requires Valid(at)
    ensures Matches(shard, DirName(shard, at))
    ensures StampOf(shard, DirName(shard, at)) == Format(at)
    ensures Parse(StampOf(shard, DirName(shard, at))) == Some(at)
  {
    var n := DirName(shard, at);
    assert n[|shard| + 1..] == Format(at);
    assert n[..|shard| + 1] == shard + "-";
    ParseFormat(at);
  }

  /** A name that matches and parses is one that isolation prints. */
  lemma MatchingNameIsPrinted(shard: string, n: string)
    requires Matches(shard, n) && Parse(StampOf(shard, n)).Some?
    ensures n == DirName(shard, Parse(StampOf(shard, n)).value)
  {
    FormatParse(StampOf(shard, n));
  }

  /** Two shards never look at the same directory, even if one name extends the other. */
  lemma ShardsDisjoint(s1: string, s2: string, n: string)
    requires Matches(s1, n) && Matches(s2, n)
    ensures s1 == s2
  {
    assert s1 == n[..|s1|] && s2 == n[..|s2|];
  }

  lemma DeletionsDisjoint(t: Tree, s1: string, s2: string, c1: int, c2: int)
    requires s1 != s2
    ensures Eligible(t, s1, c1) !! Eligible(t, s2, c2)
  {
    forall n | n in Eligible(t, s1, c1) && n in Eligible(t, s2, c2) ensures false {
      ShardsDisjoint(s1, s2, n);
    }
  }

  /** No run of any shard touches a pending file. */
  lemma MergableUntouched(t: Tree, shard: string, cutoff: int)
    ensures forall p | p in t.files && p != [] && p[0] == MERGABLE :: p in Swept(t, shard, cutoff).files
    ensures forall s :: Swept(t, shard, cutoff).FilesIn(PendingDir(s)) == t.FilesIn(PendingDir(s))
  {
    assert MERGABLE !in Eligible(t, shard, cutoff);
    forall s ensures Swept(t, shard, cutoff).FilesIn(PendingDir(s)) == t.FilesIn(PendingDir(s)) {
      SweptKeeps(t, shard, cutoff, PendingDir(s));
    }
  }

  lemma SweptKeeps(t: Tree, shard: string, cutoff: int, d: Path)
    requires d != [] && d[0] !in Eligible(t, shard, cutoff)
    ensures Swept(t, shard, cutoff).FilesIn(d) == t.FilesIn(d)
  {
    forall n ensures (d + [n])[0] == d[0] { }
  }

  lemma SweptKeepsTree(t: Tree, names: set<string>)
    requires IsTree(t)
    ensures IsTree(RemoveDirs(t, names))
  {
    forall p: Path | p != [] && !Under(names, p) ensures !Under(names, Parent(p)) {
      assert |p| > 1 ==> Parent(p)[0] == p[0];
    }
  }

  /** At the same cutoff a second run removes nothing: no directory is eligible any more. */
  lemma SecondRunIdle(t: Tree, shard: string, cutoff: int)
    ensures Eligible(Swept(t, shard, cutoff), shard, cutoff) == {}
    ensures Swept(Swept(t, shard, cutoff), shard, cutoff) == Swept(t, shard, cutoff)
  {
    var u := Swept(t, shard, cutoff);
    InDirectory(u, []);
    InDirectory(t, []);
    forall n ensures n !in Eligible(u, shard, cutoff) {
      assert [] + [n] == [n];
      assert u.FileNames([n, UPLOADED]) <= t.FileNames([n, UPLOADED]);
      assert n in Eligible(t, shard, cutoff) ==> [n] !in u.dirs;
    }
  }

  // Age

  /** The civil second of an instant (in nanoseconds) in a zone `offset` seconds east of UTC. */
  ghost function LocalTime(instant: int, offset: int): Civil
    requires 0 <= (instant + offset * NANOS) / NANOS <= Seconds(END_OF_YEAR_9999)
  {
    CivilAt((instant + offset * NANOS) / NANOS)
  }

  /** Names carry local time but are read as UTC. A directory isolated at `instant` is old enough
      exactly from the whole local second on, so its real age at deletion exceeds the retention
      plus the zone offset less one second; east of Greenwich nothing goes more than a second early. */
  lemma AgeAtDeletion(shard: string, instant: int, offset: int, now: int, retention: int)
    requires 0 <= (instant + offset * NANOS) / NANOS <= Seconds(END_OF_YEAR_9999)
    ensures Matches(shard, DirName(shard, LocalTime(instant, offset)))
    ensures OldEnough(shard, DirName(shard, LocalTime(instant, offset)), CutoffTime(now, retention)) <==>
            now - instant >= retention + offset * NANOS - (instant + offset * NANOS) % NANOS
    ensures OldEnough(shard, DirName(shard, LocalTime(instant, offset)), CutoffTime(now, retention)) ==>
            now - instant > retention + offset * NANOS - NANOS
    ensures offset >= 0 && OldEnough(shard, DirName(shard, LocalTime(instant, offset)), CutoffTime(now, retention)) ==>
            now - instant > retention - NANOS
  {
    IsolatedNameReadsBack(shard, LocalTime(instant, offset));
  }

  /** West of Greenwich a directory can go hours early: five hours west, with a day's retention,
      one isolated nineteen hours ago at a whole second is already old enough. */
  lemma WestGoesEarly(shard: string)
    ensures var hour := 3600 * NANOS;
            var instant := 63_000_000_000 * NANOS;
            && 0 <= (instant - 5 * hour) / NANOS <= Seconds(END_OF_YEAR_9999)
            && OldEnough(shard, DirName(shard, LocalTime(instant, -5 * 3600)),
                CutoffTime(instant + 19 * hour, 24 * hour))
  {
    var instant := 63_000_000_000 * NANOS;
    assert Seconds(END_OF_YEAR_9999) >= 63_000_000_000 by {
      LateYears(9999);
    }
    AgeAtDeletion(shard, instant, -5 * 3600, instant + 19 * 3600 * NANOS, 24 * 3600 * NANOS);
  }

  lemma {:induction false} LateYears(y: nat)
    ensures DaysBeforeYear(y) >= 365 * y
  {
    if y > 0 { LateYears(y - 1); }
  }

  datatype Stats = Stats(totalDirectories: nat, eligibleForDeletion: nat)

  class CleanupService {
    const storage: Filesystem
    const shard: string

    constructor (storage: Filesystem, shard: string)
      ensures this.storage == storage && this.shard == shard
    {
      this.storage, this.shard := storage, shard;
    }

    /** `None` is the error of a stamp that is no time; both callers have matched the name. */
    method ShouldDeleteDirectory(dirName: string, cutoff: int) returns (r: Option<bool>)
      requires storage.Valid() && Matches(shard, dirName)
      ensures r.None? <==> Parse(StampOf(shard, dirName)).None?
      ensures r.Some? ==> (r.value <==>
          OldEnough(shard, dirName, cutoff) && storage.State().FileNames([dirName, UPLOADED]) != {})
    {
      var dirTime := Parse(StampOf(shard, dirName));
      if dirTime.None? { return None; }
      if Seconds(dirTime.value) * NANOS > cutoff { return Some(false); }
      var entries := storage.ReadDir([dirName, UPLOADED]);
      InDirectory(storage.State(), [dirName, UPLOADED]);
      if entries.None? {
        assert storage.State().FileNames([dirName, UPLOADED]) == {} by {
          forall n ensures [dirName, UPLOADED] + [n] !in storage.files {
            assert Parent([dirName, UPLOADED] + [n]) == [dirName, UPLOADED];
          }
        }
        return Some(false);
      }
      var hasUploadedFiles := false;
      for i := 0 to |entries.value|
        invariant !hasUploadedFiles && forall j | 0 <= j < i :: entries.value[j].isDir
      {
        if !entries.value[i].isDir {
          hasUploadedFiles := true;
          break;
        }
      }
      return Some(hasUploadedFiles);
    }

    /** The switch over one entry of the root listing. */
    method CleanEntry(entry: DirEntry, cutoff: int) returns (deleted: bool, failed: bool)
      requires storage.Valid()
      modifies storage
      ensures storage.Valid()
      ensures deleted <==> Doomed(old(storage.State()), shard, cutoff, entry)
      ensures failed <==> Odd(shard, entry)
      ensures storage.State() == if deleted then old(storage.State()).RmdirAll([entry.name]) else old(storage.State())
    {
      deleted, failed := false, false;
      if entry.isDir && Matches(shard, entry.name) {
        var shouldDelete := ShouldDeleteDirectory(entry.name, cutoff);
        if shouldDelete.None? {
          failed := true;
        } else if shouldDelete.value {
          storage.RmdirAll([entry.name]);
          deleted := true;
        }
      }
    }

    /** Removes exactly the eligible directories, and counts them and the unreadable ones. */
    method RunCleanup(now: int, retention: int) returns (deletedCount: nat, errorCount: nat)
      requires storage.Valid()
      modifies storage
      ensures storage.Valid()
      ensures Run(storage.State(), deletedCount, errorCount) ==
          Sweep(old(storage.State()), shard, CutoffTime(now, retention))
    {
      ghost var before := storage.State();
      var cutoff := CutoffTime(now, retention);
      deletedCount, errorCount := 0, 0;
      var entries := storage.ReadDir([]);
      if entries.None? {
        assert false;
        return;
      }
      for i := 0 to |entries.value|
        invariant storage.Valid()
        invariant Run(storage.State(), deletedCount, errorCount) == CleanAll(before, shard, cutoff, entries.value[..i])
      {
        assert entries.value[..i + 1][..i] == entries.value[..i];
        var deleted, failed := CleanEntry(entries.value[i], cutoff);
        if deleted { deletedCount := deletedCount + 1; }
        if failed { errorCount := errorCount + 1; }
      }
      CleanAllIsSweep(before, shard, cutoff, entries.value);
    }

    /** `None` is the error of a matching directory whose stamp is no time. */
    method GetStats(now: int, retention: int) returns (stats: Option<Stats>)
      requires storage.Valid()
      ensures stats.None? <==> Unreadable(storage.State(), shard) != {}
      ensures stats.Some? ==>
          stats.value.eligibleForDeletion == |Eligible(storage.State(), shard, CutoffTime(now, retention))|
      ensures stats.Some? ==> stats.value.totalDirectories == |MatchingNames(storage.State(), shard)|
    {
      ghost var t := storage.State();
      var cutoff := CutoffTime(now, retention);
      var total, eligible := 0, 0;
      var entries := storage.ReadDir([]);
      assert entries.Some?;
      if entries.None? { return None; }
      for i := 0 to |entries.value|
        invariant CountProgress(t, shard, cutoff, entries.value[..i], total, eligible)
      {
        var entry := entries.value[i];
        CountStep(t, shard, cutoff, entries.value, i, total, eligible);
        if !entry.isDir || !Matches(shard, entry.name) { continue; }
        total := total + 1;
        var shouldDelete := ShouldDeleteDirectory(entry.name, cutoff);
        if shouldDelete.None? {
          assert entry in entries.value && entry.name in Unreadable(t, shard);
          return None;
        }
        if shouldDelete.value { eligible := eligible + 1; }
      }
      SeenAll(t, shard, cutoff, entries.value);
      return Some(Stats(total, eligible));
    }
  }

  // The loops: what has been seen of a listing of the root.

  predicate Ours(shard: string, e: DirEntry) {
    e.isDir && Matches(shard, e.name)
  }

  predicate Doomed(t: Tree, shard: string, cutoff: int, e: DirEntry) {
    Ours(shard, e) && OldEnough(shard, e.name, cutoff) && t.FileNames([e.name, UPLOADED]) != {}
  }

  predicate Odd(shard: string, e: DirEntry) {
    Ours(shard, e) && Parse(StampOf(shard, e.name)).None?
  }

  ghost function SeenMatching(shard: string, entries: seq<DirEntry>): set<string> {
    set e | e in entries && Ours(shard, e) :: e.name
  }

  ghost function SeenEligible(t: Tree, shard: string, cutoff: int, entries: seq<DirEntry>): set<string> {
    set e | e in entries && Doomed(t, shard, cutoff, e) :: e.name
  }

  ghost function SeenUnreadable(shard: string, entries: seq<DirEntry>): set<string> {
    set e | e in entries && Odd(shard, e) :: e.name
  }

  function Plus(s: set<string>, n: string, really: bool): set<string> {
    if really then s + {n} else s
  }

  lemma SeenOne(t: Tree, shard: string, cutoff: int, entries: seq<DirEntry>, i: nat)
    requires i < |entries| && IsListing(t, [], entries)
    ensures var e, before, after := entries[i], entries[..i], entries[..i + 1];
            && SeenMatching(shard, after) == Plus(SeenMatching(shard, before), e.name, Ours(shard, e))
            && SeenEligible(t, shard, cutoff, after) == Plus(SeenEligible(t, shard, cutoff, before), e.name,
                Doomed(t, shard, cutoff, e))
            && SeenUnreadable(shard, after) == Plus(SeenUnreadable(shard, before), e.name, Odd(shard, e))
            && e.name !in SeenMatching(shard, before)
            && e.name !in SeenEligible(t, shard, cutoff, before)
            && e.name !in SeenUnreadable(shard, before)
  {
    assert entries[..i + 1] == entries[..i] + [entries[i]];
    forall e | e in entries[..i] ensures e.name != entries[i].name {
      var j :| 0 <= j < i && entries[j] == e;
      LessIrreflexive(e.name);
    }
  }

  lemma SeenAll(t: Tree, shard: string, cutoff: int, entries: seq<DirEntry>)
    requires IsListing(t, [], entries)
    ensures SeenEligible(t, shard, cutoff, entries[..|entries|]) == Eligible(t, shard, cutoff)
    ensures SeenUnreadable(shard, entries[..|entries|]) == Unreadable(t, shard)
    ensures SeenMatching(shard, entries[..|entries|]) == MatchingNames(t, shard)
  {
    assert entries[..|entries|] == entries;
    forall n | n in t.DirNames([]) ensures DirEntry(n, true) in entries { }
  }

  /** One entry judged on the tree the ones before it left. */
  ghost function CleanOne(r: Run, shard: string, cutoff: int, e: DirEntry): Run {
    if Doomed(r.tree, shard, cutoff, e) then Run(r.tree.RmdirAll([e.name]), r.deleted + 1, r.errors)
    else Run(r.tree, r.deleted, if Odd(shard, e) then r.errors + 1 else r.errors)
  }

  ghost function CleanAll(t: Tree, shard: string, cutoff: int, entries: seq<DirEntry>): Run {
    if entries == [] then Run(t, 0, 0)
    else CleanOne(CleanAll(t, shard, cutoff, entries[..|entries| - 1]), shard, cutoff, entries[|entries| - 1])
  }

  /** A run that has removed the directories `gone` and counted the errors `bad`. */
  ghost function After(t: Tree, gone: set<string>, bad: set<string>): Run {
    Run(RemoveDirs(t, gone), |gone|, |bad|)
  }

  lemma CleanOneIs(t: Tree, gone: set<string>, bad: set<string>, shard: string, cutoff: int, e: DirEntry)
    requires e.name !in gone && e.name !in bad
    ensures CleanOne(After(t, gone, bad), shard, cutoff, e) ==
            After(t, Plus(gone, e.name, Doomed(t, shard, cutoff, e)), Plus(bad, e.name, Odd(shard, e)))
  {
    UploadedUnchanged(t, gone, e.name);
    RemoveMore(t, gone, e.name);
  }

  lemma {:induction false} CleanAllSees(t: Tree, shard: string, cutoff: int, entries: seq<DirEntry>, i: nat)
    requires i <= |entries| && IsListing(t, [], entries)
    ensures CleanAll(t, shard, cutoff, entries[..i]) ==
            After(t, SeenEligible(t, shard, cutoff, entries[..i]), SeenUnreadable(shard, entries[..i]))
  {
    if i == 0 {
      SeenNothing(t, shard, cutoff);
    } else {
      CleanAllSees(t, shard, cutoff, entries, i - 1);
      assert entries[..i][..i - 1] == entries[..i - 1];
      SeenOne(t, shard, cutoff, entries, i - 1);
      CleanOneIs(t, SeenEligible(t, shard, cutoff, entries[..i - 1]), SeenUnreadable(shard, entries[..i - 1]),
                 shard, cutoff, entries[i - 1]);
    }
  }

  lemma SeenNothing(t: Tree, shard: string, cutoff: int)
    ensures SeenEligible(t, shard, cutoff, []) == {} && SeenUnreadable(shard, []) == {}
    ensures RemoveDirs(t, {}) == t
  {
  }

  lemma CleanAllIsSweep(t: Tree, shard: string, cutoff: int, entries: seq<DirEntry>)
    requires IsListing(t, [], entries)
    ensures CleanAll(t, shard, cutoff, entries[..|entries|]) == Sweep(t, shard, cutoff)
  {
    CleanAllSees(t, shard, cutoff, entries, |entries|);
    SeenAll(t, shard, cutoff, entries);
  }

  ghost predicate CountProgress(t: Tree, shard: string, cutoff: int, seen: seq<DirEntry>, total: nat, eligible: nat) {
    && total == |SeenMatching(shard, seen)|
    && eligible == |SeenEligible(t, shard, cutoff, seen)|
    && SeenUnreadable(shard, seen) == {}
  }

  lemma CountStep(t: Tree, shard: string, cutoff: int, entries: seq<DirEntry>, i: nat, total: nat, eligible: nat)
    requires i < |entries| && IsListing(t, [], entries)
    requires CountProgress(t, shard, cutoff, entries[..i], total, eligible)
    ensures var e := entries[i];
            !Odd(shard, e) ==>
              CountProgress(t, shard, cutoff, entries[..i + 1],
                if Ours(shard, e) then total + 1 else total,
                if Doomed(t, shard, cutoff, e) then eligible + 1 else eligible)
  {
    SeenOne(t, shard, cutoff, entries, i);
  }

  lemma RemoveMore(t: Tree, gone: set<string>, n: string)
    ensures RemoveDirs(t, gone).RmdirAll([n]) == RemoveDirs(t, gone + {n})
  {
    forall p: Path ensures [n] <= p <==> p != [] && p[0] == n { }
  }

  lemma UploadedUnchanged(t: Tree, gone: set<string>, n: string)
    requires n !in gone
    ensures RemoveDirs(t, gone).FileNames([n, UPLOADED]) == t.FileNames([n, UPLOADED])
  {
    forall p: Path | [n, UPLOADED] <= p ensures p[0] == n { }
  }
}
