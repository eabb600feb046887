/** The acceptance protocol: any number of receivers share the files table, and messages may be
    delivered more than once (internal/pipeline/file_receiver.go, internal/files/repo_files.go). */
module Receiver {
  import opened Text
  import opened Disk
  import opened Paths
  import opened Pending
  import opened Runs

  /** Where the processing of a delivery stands. `Waiting` is also where it is put back by an error
      or a crash; `Owner` has inserted the row, `Failing` is about to delete it again. */
  datatype Phase = Waiting | Taken | Owner | Failing | Done | Finished

  datatype Delivery = Delivery(fileID: string, shardKey: string, valid: bool, receiver: nat, phase: Phase, acks: nat)

  /** `rows` is the files table, unique by file ID; `accepted` logs the accepts that succeeded. */
  datatype State = State(autoCommit: bool, rows: map<string, string>, deliveries: seq<Delivery>, accepted: seq<string>)

  datatype Action =
    | Arrive(fileID: string, shardKey: string, valid: bool, receiver: nat)
    | Start(k: nat)
    | Refuse(k: nat)
    | Skip(k: nat)
    | Record(k: nat)
    | RecordLost(k: nat)
    | Accept(k: nat)
    | AcceptFails(k: nat)
    | Cleanup(k: nat)
    | CleanupFails(k: nat)
    | Ack(k: nat)
    | Crash(receiver: nat)

  function Init(autoCommit: bool): State {
    State(autoCommit, map[], [], [])
  }

  predicate At(s: State, k: nat, phase: Phase) {
    k < |s.deliveries| && s.deliveries[k].phase == phase
  }

  function Move(s: State, k: nat, phase: Phase): State
    requires k < |s.deliveries|
  {
    s.(deliveries := s.deliveries[k := s.deliveries[k].(phase := phase)])
  }

  function Insert(s: State, k: nat): map<string, string>
    requires k < |s.deliveries|
  {
    var d := s.deliveries[k];
    if d.fileID in s.rows then s.rows else s.rows[d.fileID := d.shardKey]
  }

  /** DELETE … WHERE file_id = ? AND shard_key = ? */
  function Delete(s: State, k: nat): map<string, string>
    requires k < |s.deliveries|
  {
    var d := s.deliveries[k];
    if d.fileID in s.rows && s.rows[d.fileID] == d.shardKey then s.rows - {d.fileID} else s.rows
  }

  function Dropped(d: Delivery): Delivery {
    if d.phase == Finished then d else d.(phase := Waiting)
  }

  function AfterCrash(s: State, receiver: nat): (r: seq<Delivery>)
    ensures |r| == |s.deliveries|
    ensures forall k | 0 <= k < |r| :: r[k] == if s.deliveries[k].receiver == receiver then Dropped(s.deliveries[k])
        else s.deliveries[k]
  {
    seq(|s.deliveries|, k requires 0 <= k < |s.deliveries| =>
      if s.deliveries[k].receiver == receiver then Dropped(s.deliveries[k]) else s.deliveries[k])
  }

  /** One atomic step; an action that is not possible changes nothing. */
  function Step(s: State, a: Action): State {
    match a
    case Arrive(id, key, valid, r) => s.(deliveries := s.deliveries + [Delivery(id, key, valid, r, Waiting, 0)])
    case Start(k) =>
      if At(s, k, Waiting) && s.deliveries[k].acks == 0 then
        var d := s.deliveries[k].(phase := Taken, acks := if s.autoCommit then 1 else 0);
        s.(deliveries := s.deliveries[k := d])
      else s
    case Refuse(k) => if At(s, k, Taken) then Move(s, k, Waiting) else s
    case Skip(k) => if At(s, k, Taken) && !s.deliveries[k].valid then Move(s, k, Done) else s
    case Record(k) =>
      if At(s, k, Taken) && s.deliveries[k].valid then
        Move(s, k, if s.deliveries[k].fileID in s.rows then Done else Owner).(rows := Insert(s, k))
      else s
    case RecordLost(k) =>
      if At(s, k, Taken) && s.deliveries[k].valid then Move(s, k, Waiting).(rows := Insert(s, k)) else s
    case Accept(k) =>
      if At(s, k, Owner) then Move(s, k, Done).(accepted := s.accepted + [s.deliveries[k].fileID]) else s
    case AcceptFails(k) => if At(s, k, Owner) then Move(s, k, Failing) else s
    case Cleanup(k) => if At(s, k, Failing) then Move(s, k, Waiting).(rows := Delete(s, k)) else s
    case CleanupFails(k) => if At(s, k, Failing) then Move(s, k, Waiting) else s
    case Ack(k) =>
      if At(s, k, Done) then
        var d := s.deliveries[k];
        s.(deliveries := s.deliveries[k := d.(phase := Finished, acks := if s.autoCommit then d.acks else d.acks + 1)])
      else s
    case Crash(r) => s.(deliveries := AfterCrash(s, r))
  }

  function After(s: State, actions: seq<Action>): State {
    if actions == [] then s else Step(After(s, actions[..|actions| - 1]), actions[|actions| - 1])
  }

  // What every step keeps

  predicate Owns(d: Delivery) {
    d.phase == Owner || d.phase == Failing
  }

  /** Whoever owns a row sees it under its own shard key. */
  ghost predicate OwnersSee(s: State) {
    forall k | 0 <= k < |s.deliveries| && Owns(s.deliveries[k]) ::
      s.deliveries[k].valid && s.deliveries[k].fileID in s.rows &&
          s.rows[s.deliveries[k].fileID] == s.deliveries[k].shardKey
  }

  ghost predicate OwnersDiffer(s: State) {
    forall k, l | 0 <= k < l < |s.deliveries| && Owns(s.deliveries[k]) && Owns(s.deliveries[l]) ::
      s.deliveries[k].fileID != s.deliveries[l].fileID
  }

  ghost predicate Owned(s: State) {
    OwnersSee(s) && OwnersDiffer(s)
  }

  /** The row of an accepted file has no owner left to delete it. */
  ghost predicate AcceptedHeld(s: State) {
    forall id | id in s.accepted ::
      id in s.rows && forall k | 0 <= k < |s.deliveries| && Owns(s.deliveries[k]) :: s.deliveries[k].fileID != id
  }

  ghost predicate AcceptedOnce(s: State) {
    forall i, j | 0 <= i < j < |s.accepted| :: s.accepted[i] != s.accepted[j]
  }

  /** An ack leaves its delivery finished, and without auto commit only an ack does. */
  ghost predicate AcksFit(s: State) {
    forall k | 0 <= k < |s.deliveries| ::
      && s.deliveries[k].acks <= 1
      && (!s.autoCommit ==> (s.deliveries[k].acks == 1 <==> s.deliveries[k].phase == Finished))
  }

  ghost predicate Inv(s: State) {
    Owned(s) && AcceptedHeld(s) && AcceptedOnce(s) && AcksFit(s)
  }

  lemma StepKeepsOwned(s: State, a: Action)
    requires Owned(s)
    ensures Owned(Step(s, a))
  {
    StepKeepsDiffering(s, a);
    StepKeepsSeeing(s, a);
  }

  lemma StepKeepsDiffering(s: State, a: Action)
    requires Owned(s)
    ensures OwnersDiffer(Step(s, a))
  {
  }

  lemma StepKeepsSeeing(s: State, a: Action)
    requires Owned(s)
    ensures OwnersSee(Step(s, a))
  {
  }

  lemma StepKeepsAccepted(s: State, a: Action)
    requires Owned(s) && AcceptedHeld(s) && AcceptedOnce(s)
    ensures AcceptedHeld(Step(s, a)) && AcceptedOnce(Step(s, a))
  {
  }

  lemma StepKeepsAcks(s: State, a: Action)
    requires AcksFit(s)
    ensures AcksFit(Step(s, a))
  {
  }

  lemma {:induction false} AlwaysInv(autoCommit: bool, actions: seq<Action>)
    ensures var s := After(Init(autoCommit), actions); Inv(s) && s.autoCommit == autoCommit
  {
    if actions != [] {
      var before, a := After(Init(autoCommit), actions[..|actions| - 1]), actions[|actions| - 1];
      AlwaysInv(autoCommit, actions[..|actions| - 1]);
      StepKeepsOwned(before, a);
      StepKeepsAccepted(before, a);
      StepKeepsAcks(before, a);
    }
  }

  /** Under any interleaving of deliveries, duplicates, failures and crashes, with auto commit or
      without, no file ID is accepted twice and no delivery acked twice. */
  lemma AcceptedAndAckedAtMostOnce(autoCommit: bool, actions: seq<Action>)
    ensures var s := After(Init(autoCommit), actions);
            && (forall i, j | 0 <= i < j < |s.accepted| :: s.accepted[i] != s.accepted[j])
            && (forall k | 0 <= k < |s.deliveries| :: s.deliveries[k].acks <= 1)
  {
    AlwaysInv(autoCommit, actions);
  }

  // Nothing valid is acked away

  predicate Settled(d: Delivery) {
    d.phase == Done || d.phase == Finished
  }

  /** A valid delivery of the ID that is still to come or under way. */
  predicate Hopeful(s: State, l: int, fileID: string) {
    0 <= l < |s.deliveries| && s.deliveries[l].fileID == fileID && s.deliveries[l].valid && !Settled(s.deliveries[l])
  }

  ghost predicate Secured(s: State, fileID: string) {
    fileID in s.rows || exists l :: Hopeful(s, l, fileID)
  }

  ghost predicate Safe(s: State) {
    forall k | 0 <= k < |s.deliveries| && Settled(s.deliveries[k]) && s.deliveries[k].valid ::
        Secured(s, s.deliveries[k].fileID)
  }

  /** A step may take away a row or settle a delivery, but never both hopes of a file at once. */
  lemma StepKeepsSecured(s: State, a: Action, fileID: string)
    requires Owned(s) && Secured(s, fileID)
    ensures Secured(Step(s, a), fileID)
  {
    var u := Step(s, a);
    if fileID in s.rows {
      if a.Cleanup? && At(s, a.k, Failing) && s.deliveries[a.k].fileID == fileID { assert Hopeful(u, a.k, fileID); }
    } else {
      var l :| Hopeful(s, l, fileID);
      assert fileID in u.rows || Hopeful(u, l, fileID);
    }
  }

  lemma StepKeepsSafe(s: State, a: Action)
    requires Owned(s) && Safe(s)
    ensures Safe(Step(s, a))
  {
    var u := Step(s, a);
    forall k | 0 <= k < |u.deliveries| && Settled(u.deliveries[k]) && u.deliveries[k].valid
      ensures Secured(u, u.deliveries[k].fileID)
    {
      if k < |s.deliveries| && Settled(s.deliveries[k]) {
        StepKeepsSecured(s, a, u.deliveries[k].fileID);
      } else {
        SettlesRecorded(s, a, k);
      }
    }
  }

  /** A valid delivery settles only while its row is there. */
  lemma SettlesRecorded(s: State, a: Action, k: nat)
    requires Owned(s) && k < |Step(s, a).deliveries|
    requires Settled(Step(s, a).deliveries[k]) && Step(s, a).deliveries[k].valid
    requires k < |s.deliveries| ==> !Settled(s.deliveries[k])
    ensures Step(s, a).deliveries[k].fileID in Step(s, a).rows
  {
  }

  lemma {:induction false} AlwaysSafe(autoCommit: bool, actions: seq<Action>)
    ensures Safe(After(Init(autoCommit), actions))
  {
    if actions != [] {
      AlwaysSafe(autoCommit, actions[..|actions| - 1]);
      AlwaysInv(autoCommit, actions[..|actions| - 1]);
      StepKeepsSafe(After(Init(autoCommit), actions[..|actions| - 1]), actions[|actions| - 1]);
    }
  }

  /** Without auto commit, once a delivery of a valid file is acked, the row of the file is there or
      another valid delivery of the same ID is not acked yet. */
  lemma AckedMeansRecorded(actions: seq<Action>, k: nat)
    requires k < |After(Init(false), actions).deliveries|
    requires var d := After(Init(false), actions).deliveries[k]; d.acks > 0 && d.valid
    ensures var s := After(Init(false), actions);
            || s.deliveries[k].fileID in s.rows
            || exists l | 0 <= l < |s.deliveries| && l != k ::
                 s.deliveries[l].fileID == s.deliveries[k].fileID && s.deliveries[l].valid && s.deliveries[l].acks == 0
  {
    var s := After(Init(false), actions);
    AlwaysInv(false, actions);
    AlwaysSafe(false, actions);
    assert Secured(s, s.deliveries[k].fileID);
    if l :| Hopeful(s, l, s.deliveries[k].fileID) { assert s.deliveries[l].acks == 0; }
  }

  /** With auto commit that fails: a message is acked before its row is tried. */
  lemma AutoCommitLoses(fileID: string, shardKey: string)
    ensures var s := After(Init(true), [Arrive(fileID, shardKey, true, 0), Start(0), Refuse(0)]);
            |s.deliveries| == 1 && s.deliveries[0].acks == 1 && s.rows == map[]
  {
    var arrive, start, refuse := Arrive(fileID, shardKey, true, 0), Start(0), Refuse(0);
    assert [arrive, start, refuse][..2] == [arrive, start] && [arrive, start][..1] == [arrive] && [arrive][..0] == [];
    assert After(Init(true), [arrive]) == Step(Init(true), arrive);
    assert After(Init(true), [arrive, start]) == Step(Step(Init(true), arrive), start);
  }

  // What was recorded was accepted, unless something intervened

  /** The row of a file that was accepted, or that its owner is about to hand over or to delete. */
  ghost predicate Attended(s: State, fileID: string) {
    || fileID in s.accepted
    || exists k :: 0 <= k < |s.deliveries| && Owns(s.deliveries[k]) && s.deliveries[k].fileID == fileID
  }

  ghost predicate AllAttended(s: State) {
    forall fileID | fileID in s.rows :: Attended(s, fileID)
  }

  /** What leaves a row behind that nobody attends to. */
  predicate Abandons(a: Action) {
    a.Crash? || a.CleanupFails? || a.RecordLost?
  }

  lemma StepKeepsAttended(s: State, a: Action)
    requires Owned(s) && AllAttended(s) && !Abandons(a)
    ensures AllAttended(Step(s, a))
  {
    forall fileID | fileID in Step(s, a).rows ensures Attended(Step(s, a), fileID) {
      if fileID !in s.rows {
        NewRowIsOwned(s, a, fileID);
      } else if fileID !in s.accepted {
        var k :| 0 <= k < |s.deliveries| && Owns(s.deliveries[k]) && s.deliveries[k].fileID == fileID;
        OwnerAttends(s, a, k);
      } else {
        AcceptedStays(s, a);
      }
    }
  }

  lemma AcceptedStays(s: State, a: Action)
    ensures forall id | id in s.accepted :: id in Step(s, a).accepted
  {
  }

  lemma NewRowIsOwned(s: State, a: Action, fileID: string)
    requires fileID !in s.rows && fileID in Step(s, a).rows && !Abandons(a)
    ensures Attended(Step(s, a), fileID)
  {
    var u := Step(s, a);
    assert a.Record? && a.k < |u.deliveries| && Owns(u.deliveries[a.k]) && u.deliveries[a.k].fileID == fileID;
  }

  lemma OwnerAttends(s: State, a: Action, k: nat)
    requires OwnersSee(s) && k < |s.deliveries| && Owns(s.deliveries[k]) && !Abandons(a)
    requires s.deliveries[k].fileID in Step(s, a).rows
    ensures Attended(Step(s, a), s.deliveries[k].fileID)
  {
    var u, id := Step(s, a), s.deliveries[k].fileID;
    assert id in u.accepted || (k < |u.deliveries| && Owns(u.deliveries[k]) && u.deliveries[k].fileID == id);
  }

  /** As long as no receiver crashes, no deletion of a row fails and no insert fails after its effect,
      every recorded file was accepted, or its owner still has to hand it over or to delete its row. */
  lemma {:induction false} RecordedIsAccepted(autoCommit: bool, actions: seq<Action>)
    requires forall a | a in actions :: !Abandons(a)
    ensures AllAttended(After(Init(autoCommit), actions))
  {
    if actions != [] {
      var before, a := actions[..|actions| - 1], actions[|actions| - 1];
      assert actions == before + [a];
      RecordedIsAccepted(autoCommit, before);
      AlwaysInv(autoCommit, before);
      StepKeepsAttended(After(Init(autoCommit), before), a);
    }
  }

  /** The winner of a file up to the point where something intervenes, and the next delivery of the same
      message, which finds the row and is acked. */
  ghost function Intervention(fileID: string, shardKey: string, how: seq<Action>): seq<Action> {
    [Arrive(fileID, shardKey, true, 0), Start(0)] + how + [Start(0), Record(0), Ack(0)]
  }

  lemma AfterTwo(s: State, a: Action, b: Action)
    ensures After(s, [a, b]) == Step(Step(s, a), b)
  {
    assert [a, b] == [a] + [b];
    AfterOne(s, a);
    AfterMore(s, [a], b);
  }

  lemma AfterThree(s: State, a: Action, b: Action, c: Action)
    ensures After(s, [a, b, c]) == Step(Step(Step(s, a), b), c)
  {
    assert [a, b, c] == [a, b] + [c];
    AfterTwo(s, a, b);
    AfterMore(s, [a, b], c);
  }

  predicate Intervenes(how: seq<Action>) {
    || how == [Record(0), Crash(0)]
    || how == [Record(0), AcceptFails(0), CleanupFails(0)]
    || how == [RecordLost(0)]
  }

  lemma LeavesTheRow(fileID: string, shardKey: string, how: seq<Action>)
    requires Intervenes(how)
    ensures After(State(false, map[], [Delivery(fileID, shardKey, true, 0, Taken, 0)], []), how) ==
            State(false, map[fileID := shardKey], [Delivery(fileID, shardKey, true, 0, Waiting, 0)], [])
  {
    var s := State(false, map[], [Delivery(fileID, shardKey, true, 0, Taken, 0)], []);
    if how == [RecordLost(0)] {
      AfterOne(s, RecordLost(0));
    } else if how == [Record(0), Crash(0)] {
      AfterTwo(s, Record(0), Crash(0));
    } else {
      CleanupLeavesTheRow(fileID, shardKey);
    }
  }

  lemma CleanupLeavesTheRow(fileID: string, shardKey: string)
    ensures After(State(false, map[], [Delivery(fileID, shardKey, true, 0, Taken, 0)], []),
                  [Record(0), AcceptFails(0), CleanupFails(0)]) ==
            State(false, map[fileID := shardKey], [Delivery(fileID, shardKey, true, 0, Waiting, 0)], [])
  {
    var s := State(false, map[], [Delivery(fileID, shardKey, true, 0, Taken, 0)], []);
    AfterThree(s, Record(0), AcceptFails(0), CleanupFails(0));
  }

  lemma TakesTheFile(fileID: string, shardKey: string)
    ensures After(Init(false), [Arrive(fileID, shardKey, true, 0), Start(0)]) ==
            State(false, map[], [Delivery(fileID, shardKey, true, 0, Taken, 0)], [])
  {
    AfterTwo(Init(false), Arrive(fileID, shardKey, true, 0), Start(0));
  }

  lemma FindsTheRow(fileID: string, shardKey: string)
    ensures After(State(false, map[fileID := shardKey], [Delivery(fileID, shardKey, true, 0, Waiting, 0)], []),
                  [Start(0), Record(0), Ack(0)]) ==
            State(false, map[fileID := shardKey], [Delivery(fileID, shardKey, true, 0, Finished, 1)], [])
  {
    var s := State(false, map[fileID := shardKey], [Delivery(fileID, shardKey, true, 0, Waiting, 0)], []);
    AfterThree(s, Start(0), Record(0), Ack(0));
  }

  /** Each of the three is enough to lose a file for good: it is acked and recorded, but never accepted. */
  lemma InterventionLoses(fileID: string, shardKey: string, how: seq<Action>)
    requires Intervenes(how)
    ensures After(Init(false), Intervention(fileID, shardKey, how)) ==
            State(false, map[fileID := shardKey], [Delivery(fileID, shardKey, true, 0, Finished, 1)], [])
  {
    var first, last := [Arrive(fileID, shardKey, true, 0), Start(0)], [Start(0), Record(0), Ack(0)];
    TakesTheFile(fileID, shardKey);
    LeavesTheRow(fileID, shardKey, how);
    FindsTheRow(fileID, shardKey);
    AfterBoth(Init(false), first, how);
    AfterBoth(Init(false), first + how, last);
  }

  // One receiver at a time

  datatype Fault = NoFault | BeforeEffect | AfterEffect
  datatype Recorded = Inserted | UniqueViolation | DbError

  /** The table that all receivers share. A failing statement may or may not have had its effect. */
  class FilesTable {
    var rows: map<string, string>

    constructor ()
      ensures rows == map[]
    {
      rows := map[];
    }

    method Record(fileID: string, shardKey: string, fault: Fault) returns (r: Recorded)
      modifies this
      ensures rows == if fault == BeforeEffect || fileID in old(rows) then old(rows) else old(rows)[fileID := shardKey]
      ensures r == if fault != NoFault then DbError else if fileID in old(rows) then UniqueViolation else Inserted
    {
      if fault == BeforeEffect { return DbError; }
      var taken := fileID in rows;
      if !taken { rows := rows[fileID := shardKey]; }
      r := if fault == AfterEffect then DbError else if taken then UniqueViolation else Inserted;
    }

    method Cleanup(fileID: string, shardKey: string, fault: Fault) returns (ok: bool)
      modifies this
      ensures rows == if fault != BeforeEffect && fileID in old(rows) && old(rows)[fileID] == shardKey
                      then old(rows) - {fileID} else old(rows)
      ensures ok <==> fault == NoFault
    {
      if fault != BeforeEffect && fileID in rows && rows[fileID] == shardKey { rows := rows - {fileID}; }
      ok := fault == NoFault;
    }
  }

  datatype QueuedFile = QueuedFile(fileID: string, shardKey: string, valid: bool)

  /** What a message turns out to hold; `FileUnread` is a queued file that did not parse. */
  datatype Message = Unrevealed | NoEvent | Unhandled | FileUnread | CancelFile(fileID: string, shardKey: string)
      | QueueFile(file: QueuedFile)

  datatype Lookup = Name(name: string) | NoRows | LookupFails

  /** What the surroundings do during one message. */
  datatype Surroundings = Surroundings(lookup: Lookup, recordFault: Fault, acceptOk: bool, cleanupFault: Fault,
    cancelRecorded: bool, cancelOk: bool, cancelAnnounced: bool)

  /** The shard of a key: by the mapping, by its own name, or the default one. */
  function Aggregator(shards: set<string>, default: string, shardKey: string, lookup: Lookup): Option<string> {
    if lookup.LookupFails? then None
    else
      var shardName := if lookup.NoRows? || lookup.name == "" then shardKey else lookup.name;
      if shardName in shards then Some(shardName)
      else if default in shards then Some(default)
      else None
  }

  /** The shard `s` is the one for a key: it is known and has the name the mapping gives for the key, or
      the key itself if the mapping has no name for it; failing that, it is the default shard. */
  ghost predicate Serves(shards: set<string>, default: string, shardKey: string, lookup: Lookup, s: string) {
    && s in shards && !lookup.LookupFails?
    && (lookup.Name? && lookup.name != "" ==> s == lookup.name || (s == default && lookup.name !in shards))
    && (lookup.NoRows? || lookup == Name("") ==> s == shardKey || (s == default && shardKey !in shards))
  }

  ghost predicate Served(shards: set<string>, default: string, shardKey: string, lookup: Lookup) {
    exists s :: Serves(shards, default, shardKey, lookup, s)
  }

  lemma FindsTheShard(shards: set<string>, default: string, shardKey: string, lookup: Lookup)
    ensures forall s :: Aggregator(shards, default, shardKey, lookup) == Some(s) <==>
                        Serves(shards, default, shardKey, lookup, s)
  {
  }

  lemma AfterOne(s: State, a: Action)
    ensures After(s, [a]) == Step(s, a)
  {
    assert [a][..0] == [];
  }

  lemma AfterMore(s: State, actions: seq<Action>, a: Action)
    ensures After(s, actions + [a]) == Step(After(s, actions), a)
  {
    assert (actions + [a])[..|actions|] == actions;
  }

  lemma {:induction false} AfterBoth(s: State, a: seq<Action>, b: seq<Action>)
    ensures After(s, a + b) == After(After(s, a), b)
    decreases |b|
  {
    if b == [] {
      assert a + b == a;
    } else {
      var n := |b| - 1;
      assert a + b == a + b[..n] + [b[n]] && b == b[..n] + [b[n]];
      AfterBoth(s, a, b[..n]);
      AfterMore(s, a + b[..n], b[n]);
      AfterMore(After(s, a), b[..n], b[n]);
    }
  }

  /** Whether processing a file ends in an error, and whether its shard accepts it, given the table. */
  ghost predicate Fails(shards: set<string>, default: string, file: QueuedFile, env: Surroundings,
      rows: map<string, string>)
  {
    || file.fileID == "" || file.shardKey == ""
    || (file.valid && (|| !Served(shards, default, file.shardKey, env.lookup)
                       || env.recordFault != NoFault
                       || (file.fileID !in rows && !env.acceptOk)))
  }

  ghost predicate Wins(shards: set<string>, default: string, file: QueuedFile, env: Surroundings,
                       rows: map<string, string>)
  {
    file.valid && !Fails(shards, default, file, env, rows) && file.fileID !in rows
  }

  ghost predicate CancelFails(shards: set<string>, default: string, fileID: string, shardKey: string,
                              env: Surroundings) {
    || fileID == "" || shardKey == ""
    || (Served(shards, default, shardKey, env.lookup)
        && !(env.cancelRecorded && env.cancelOk && env.cancelAnnounced))
  }

  ghost predicate MessageFails(shards: set<string>, default: string, msg: Message, env: Surroundings,
      rows: map<string, string>)
  {
    match msg
    case Unrevealed => true
    case NoEvent => false
    case Unhandled => true
    case FileUnread => true
    case CancelFile(fileID, shardKey) => CancelFails(shards, default, fileID, shardKey, env)
    case QueueFile(file) => Fails(shards, default, file, env, rows)
  }

  /** The delivery `k` of the protocol is this file. */
  ghost predicate Delivers(s: State, k: nat, file: QueuedFile) {
    && k < |s.deliveries|
    && s.deliveries[k].fileID == file.fileID && s.deliveries[k].shardKey == file.shardKey &&
        s.deliveries[k].valid == file.valid
  }

  class FileReceiver {
    const table: FilesTable
    const shards: set<string>
    const defaultShard: string
    const autoCommit: bool

    constructor (table: FilesTable, shards: set<string>, defaultShard: string, autoCommit: bool)
      ensures this.table == table && this.shards == shards && this.defaultShard == defaultShard &&
          this.autoCommit == autoCommit
    {
      this.table, this.shards, this.defaultShard, this.autoCommit := table, shards, defaultShard, autoCommit;
    }

    /** Whatever the surroundings do, processing a file takes steps of the protocol for its own
        delivery: it is done if there is no error, and waits for another delivery otherwise. `into` is
        the shard that accepted it. An invalid file is done without an error. */
    method ProcessACHFile(file: QueuedFile, env: Surroundings, ghost s: State, ghost k: nat)
      returns (err: bool, accepted: bool, into: Option<string>, ghost trace: seq<Action>)
      requires table.rows == s.rows && Delivers(s, k, file) && At(s, k, Taken)
      modifies table
      ensures table.rows == After(s, trace).rows
      ensures After(s, trace).accepted == s.accepted + (if accepted then [file.fileID] else [])
      ensures After(s, trace).deliveries == s.deliveries[k := s.deliveries[k].(phase := if err then Waiting else Done)]
      ensures After(s, trace).autoCommit == s.autoCommit
      ensures err == Fails(shards, defaultShard, file, env, old(table.rows))
      ensures accepted == Wins(shards, defaultShard, file, env, old(table.rows))
      ensures into.Some? <==> accepted
      ensures accepted ==> Serves(shards, defaultShard, file.shardKey, env.lookup, into.value)
      ensures file.fileID != "" && file.shardKey != "" && !file.valid ==> !err && !accepted
    {
      accepted, into, trace := false, None, [];
      if file.fileID == "" || file.shardKey == "" {
        trace := [Refuse(k)];
        return true, false, None, trace;
      }
      if !file.valid {
        trace := [Skip(k)];
        return false, false, None, trace;
      }
      FindsTheShard(shards, defaultShard, file.shardKey, env.lookup);
      var agg := Aggregator(shards, defaultShard, file.shardKey, env.lookup);
      if agg.None? {
        trace := [Refuse(k)];
        return true, false, None, trace;
      }
      assert Serves(shards, defaultShard, file.shardKey, env.lookup, agg.value);
      var recorded := table.Record(file.fileID, file.shardKey, env.recordFault);
      if recorded == DbError {
        trace := [if env.recordFault == AfterEffect then RecordLost(k) else Refuse(k)];
        return true, false, None, trace;
      }
      trace := [Record(k)];
      if recorded == UniqueViolation {
        return false, false, None, trace;
      }
      ghost var rest;
      accepted, rest := AcceptFile(file, env, After(s, trace), k);
      AfterBoth(s, trace, rest);
      return !accepted, accepted, if accepted then agg else None, trace + rest;
    }

    /** The winner hands the file to its shard, and deletes the row again if that fails. */
    method AcceptFile(file: QueuedFile, env: Surroundings, ghost s: State, ghost k: nat)
      returns (accepted: bool, ghost trace: seq<Action>)
      requires table.rows == s.rows && Delivers(s, k, file) && At(s, k, Owner)
      modifies table
      ensures accepted == env.acceptOk
      ensures table.rows == After(s, trace).rows
      ensures After(s, trace).accepted == s.accepted + (if accepted then [file.fileID] else [])
      ensures After(s, trace).deliveries ==
          s.deliveries[k := s.deliveries[k].(phase := if accepted then Done else Waiting)]
      ensures After(s, trace).autoCommit == s.autoCommit
    {
      if env.acceptOk {
        trace := [Accept(k)];
        return true, trace;
      }
      var _ := table.Cleanup(file.fileID, file.shardKey, env.cleanupFault);
      var last := if env.cleanupFault == BeforeEffect then CleanupFails(k) else Cleanup(k);
      AfterMore(s, [AcceptFails(k)], last);
      return false, [AcceptFails(k)] + [last];
    }

    /** A message with a queued file, from its start to its ack. */
    method ProcessQueueFile(file: QueuedFile, env: Surroundings, ghost s: State, ghost k: nat)
      returns (err: bool, accepted: bool, into: Option<string>, ghost trace: seq<Action>)
      requires table.rows == s.rows && s.autoCommit == autoCommit
      requires Delivers(s, k, file) && At(s, k, Waiting) && s.deliveries[k].acks == 0
      modifies table
      ensures table.rows == After(s, trace).rows
      ensures err == Fails(shards, defaultShard, file, env, old(table.rows))
      ensures accepted == Wins(shards, defaultShard, file, env, old(table.rows))
      ensures into.Some? <==> accepted
      ensures accepted ==> Serves(shards, defaultShard, file.shardKey, env.lookup, into.value)
      ensures After(s, trace).accepted == s.accepted + (if accepted then [file.fileID] else [])
      ensures At(After(s, trace), k, if err then Waiting else Finished)
      ensures After(s, trace).deliveries[k].acks == if autoCommit || !err then 1 else 0
    {
      ghost var rest;
      AfterOne(s, Start(k));
      err, accepted, into, rest := ProcessACHFile(file, env, After(s, [Start(k)]), k);
      AfterBoth(s, [Start(k)], rest);
      trace := [Start(k)] + rest;
      if !err {
        AfterMore(s, trace, Ack(k));
        trace := trace + [Ack(k)];
      }
    }

    /** A whole message: how often it is acked, whether an error comes back, how many events about
        an invalid file are produced, and for a queued file the protocol steps it amounts to. */
    method ProcessMessage(msg: Message, env: Surroundings, ghost s: State, ghost k: nat)
      returns (acks: nat, err: bool, invalid: nat, accepted: bool, into: Option<string>, ghost trace: seq<Action>)
      requires table.rows == s.rows && s.autoCommit == autoCommit
      requires msg.QueueFile? ==> Delivers(s, k, msg.file) && At(s, k, Waiting) && s.deliveries[k].acks == 0
      modifies table
      ensures table.rows == After(s, trace).rows
      ensures accepted <==> msg.QueueFile? && Wins(shards, defaultShard, msg.file, env, old(table.rows))
      ensures into.Some? <==> accepted
      ensures accepted ==> Serves(shards, defaultShard, msg.file.shardKey, env.lookup, into.value)
      ensures err == MessageFails(shards, defaultShard, msg, env, old(table.rows))
      ensures msg.QueueFile? && msg.file.fileID != "" && msg.file.shardKey != "" && !msg.file.valid ==>
          !err && acks == 1 && invalid == 0
      ensures After(s, trace).accepted == s.accepted + (if accepted then [msg.file.fileID] else [])
      ensures !msg.QueueFile? ==> trace == []
      ensures msg.QueueFile? ==> At(After(s, trace), k, if err then Waiting else Finished)
      ensures msg.QueueFile? ==> After(s, trace).deliveries[k].acks == acks
      ensures acks == if autoCommit || (!err && msg != NoEvent) then 1 else 0
      ensures invalid == if err && (msg.QueueFile? || msg == FileUnread) then 1 else 0
    {
      acks, err, invalid, accepted, into, trace := 0, true, 0, false, None, [];
      var committed := autoCommit;
      if committed { acks := acks + 1; }
      match msg
      case Unrevealed =>
      case NoEvent => err := false;
      case Unhandled =>
      case FileUnread => invalid := 1;
      case CancelFile(fileID, shardKey) =>
        var asked, recorded, canceled, responded;
        err, asked, recorded, canceled, responded := CancelACHFile(fileID, shardKey, env);
        if !err && !committed { acks := acks + 1; }
      case QueueFile(file) =>
        err, accepted, into, trace := ProcessQueueFile(file, env, s, k);
        if err {
          invalid := 1;
        } else if !committed {
          acks := acks + 1;
        }
    }

    /** A cancel is recorded, then asked of the shard, then announced; each may fail and stops the rest.
        A response is put out only after all three. Without a shard to ask nothing happens; `asked` is
        that shard. */
    method CancelACHFile(fileID: string, shardKey: string, env: Surroundings)
      returns (err: bool, asked: Option<string>, recorded: bool, canceled: bool, responded: bool)
      ensures err == CancelFails(shards, defaultShard, fileID, shardKey, env)
      ensures asked.Some? <==> recorded
      ensures recorded ==> Serves(shards, defaultShard, shardKey, env.lookup, asked.value)
      ensures recorded <==>
          fileID != "" && shardKey != "" && env.cancelRecorded && Served(shards, defaultShard, shardKey, env.lookup)
      ensures canceled <==> recorded && env.cancelOk
      ensures responded <==> canceled && env.cancelAnnounced
      ensures !err && !responded ==> !recorded && !Served(shards, defaultShard, shardKey, env.lookup)
    {
      if fileID == "" || shardKey == "" { return true, None, false, false, false; }
      FindsTheShard(shards, defaultShard, shardKey, env.lookup);
      var agg := Aggregator(shards, defaultShard, shardKey, env.lookup);
      if agg.None? { return false, None, false, false, false; }
      assert Serves(shards, defaultShard, shardKey, env.lookup, agg.value);
      if !env.cancelRecorded { return true, None, false, false, false; }
      if !env.cancelOk { return true, agg, true, false, false; }
      return !env.cancelAnnounced, agg, true, true, env.cancelAnnounced;
    }
  }

  // Over whole runs of the storage

  /** The IDs a run of the storage queues, in order. */
  function QueuedIDs(ops: seq<Op>): seq<string> {
    if ops == [] then []
    else
      var before, op := QueuedIDs(ops[..|ops| - 1]), ops[|ops| - 1];
      if op.Ask? && op.request.Xfer? then before + [op.request.id] else before
  }

  lemma {:induction false} QueuedPosition(ops: seq<Op>, k: nat)
    requires k < |ops| && ops[k].Ask? && ops[k].request.Xfer?
    ensures |QueuedIDs(ops[..k])| < |QueuedIDs(ops)| && QueuedIDs(ops)[|QueuedIDs(ops[..k])|] == ops[k].request.id
    decreases |ops|
  {
    var n := |ops| - 1;
    if k < n {
      QueuedPosition(ops[..n], k);
      assert ops[..n][..k] == ops[..k];
    }
  }

  lemma LaterPosition(ops: seq<Op>, k: nat, l: nat)
    requires k < l <= |ops| && ops[k].Ask? && ops[k].request.Xfer?
    ensures |QueuedIDs(ops[..k])| < |QueuedIDs(ops[..l])|
  {
    assert ops[..l][..k] == ops[..k];
    QueuedPosition(ops[..l], k);
  }

  lemma DistinctIDsQueuedOnce(ops: seq<Op>, x: string)
    requires forall i, j | 0 <= i < j < |QueuedIDs(ops)| :: Stem(QueuedIDs(ops)[i]) != Stem(QueuedIDs(ops)[j])
    ensures QueuedOnce(ops, x)
  {
    forall k: nat, l: nat | QueuedAt(ops, k, x) && QueuedAt(ops, l, x) ensures k == l {
      QueuedPosition(ops, k);
      QueuedPosition(ops, l);
      if k < l { LaterPosition(ops, k, l); }
      if l < k { LaterPosition(ops, l, k); }
    }
  }

  lemma QueuedMore(before: seq<Op>, op: Op)
    ensures QueuedIDs(before + [op]) ==
            if op.Ask? && op.request.Xfer? then QueuedIDs(before) + [op.request.id] else QueuedIDs(before)
  {
    assert (before + [op])[..|before|] == before;
  }

  /** The normal form queues as many files, though maybe under other IDs. */
  lemma {:induction false} NormalQueues(ops: seq<Op>)
    ensures |QueuedIDs(Normal(ops))| == |QueuedIDs(ops)|
  {
    if ops != [] {
      var before, op := ops[..|ops| - 1], ops[|ops| - 1];
      NormalQueues(before);
      var e := Effective(Storage(before), op);
      if e == [] {
        assert Normal(before) + e == Normal(before);
      } else {
        assert Normal(before) + e == Normal(before) + [e[0]];
        QueuedMore(Normal(before), e[0]);
      }
    }
  }

  predicate Accepts(s: State, a: Action) {
    a.Accept? && At(s, a.k, Owner)
  }

  /** Receivers and storage in one machine: the accept of a receiver is the request that queues the
      file; what else happens to the storage is canceling, cutoffs and cleanup. */
  datatype Joint = Joint(receivers: State, ops: seq<Op>)

  datatype JointAction =
    | Receive(action: Action, shard: ShardName, data: Bytes, opts: Option<Bytes>)
    | Operate(op: Op)

  function JointStep(j: Joint, a: JointAction): Joint {
    match a
    case Receive(action, shard, data, opts) =>
      var ops := if Accepts(j.receivers, action)
                 then j.ops + [Ask(shard, Xfer(j.receivers.deliveries[action.k].fileID, data, opts))] else j.ops;
      Joint(Step(j.receivers, action), ops)
    case Operate(op) => if op.Ask? && op.request.Xfer? then j else j.(ops := j.ops + [op])
  }

  function JointRun(autoCommit: bool, actions: seq<JointAction>): Joint {
    if actions == [] then Joint(Init(autoCommit), [])
    else JointStep(JointRun(autoCommit, actions[..|actions| - 1]), actions[|actions| - 1])
  }

  function ReceiverActions(actions: seq<JointAction>): seq<Action> {
    if actions == [] then []
    else
      var before, a := ReceiverActions(actions[..|actions| - 1]), actions[|actions| - 1];
      if a.Receive? then before + [a.action] else before
  }

  lemma OnlyAcceptsAccept(s: State, a: Action)
    ensures Step(s, a).accepted == if Accepts(s, a) then s.accepted + [s.deliveries[a.k].fileID] else s.accepted
  {
  }

  lemma JointStepQueues(j: Joint, a: JointAction)
    requires QueuedIDs(j.ops) == j.receivers.accepted
    ensures QueuedIDs(JointStep(j, a).ops) == JointStep(j, a).receivers.accepted
  {
    if a.Receive? {
      OnlyAcceptsAccept(j.receivers, a.action);
      if Accepts(j.receivers, a.action) {
        QueuedMore(j.ops, Ask(a.shard, Xfer(j.receivers.deliveries[a.action.k].fileID, a.data, a.opts)));
      }
    } else {
      QueuedMore(j.ops, a.op);
    }
  }

  lemma JointStepReceives(j: Joint, a: JointAction)
    ensures JointStep(j, a).receivers == if a.Receive? then Step(j.receivers, a.action) else j.receivers
  {
  }

  /** The receivers run as on their own, and the storage queues exactly what they accepted. */
  lemma {:induction false} JointQueuesAccepted(autoCommit: bool, actions: seq<JointAction>)
    ensures JointRun(autoCommit, actions).receivers == After(Init(autoCommit), ReceiverActions(actions))
    ensures QueuedIDs(JointRun(autoCommit, actions).ops) == JointRun(autoCommit, actions).receivers.accepted
  {
    if actions != [] {
      var before, a := actions[..|actions| - 1], actions[|actions| - 1];
      JointQueuesAccepted(autoCommit, before);
      var j := JointRun(autoCommit, before);
      assert JointRun(autoCommit, actions) == JointStep(j, a);
      JointStepQueues(j, a);
      JointStepReceives(j, a);
      if a.Receive? { AfterMore(Init(autoCommit), ReceiverActions(before), a.action); }
    }
  }

  /** The request the i-th action makes by accepting a file. */
  ghost predicate AcceptsAt(autoCommit: bool, actions: seq<JointAction>, i: nat, op: Op) {
    && i < |actions| && actions[i].Receive? && actions[i].action.Accept?
    && var s := JointRun(autoCommit, actions[..i]).receivers;
       var k := actions[i].action.k;
       At(s, k, Owner)
       && op == Ask(actions[i].shard, Xfer(s.deliveries[k].fileID, actions[i].data, actions[i].opts))
  }

  /** Every file in the storage was queued by an accept: for its shard, with its contents and options. */
  lemma {:induction false} QueuedAsAccepted(autoCommit: bool, actions: seq<JointAction>, op: Op)
    requires op in JointRun(autoCommit, actions).ops && op.Ask? && op.request.Xfer?
    ensures exists i: nat :: AcceptsAt(autoCommit, actions, i, op)
  {
    var n := |actions| - 1;
    var before, a := actions[..n], actions[n];
    var j := JointRun(autoCommit, before);
    if op in j.ops {
      QueuedAsAccepted(autoCommit, before, op);
      var i: nat :| AcceptsAt(autoCommit, before, i, op);
      assert before[..i] == actions[..i];
      assert AcceptsAt(autoCommit, actions, i, op);
    } else {
      assert AcceptsAt(autoCommit, actions, n, op);
    }
  }

  predicate Queues(op: Op) {
    op.Ask? && op.request.Xfer?
  }

  /** What a run does besides queueing, and what the machine is told to do besides. */
  function Others(ops: seq<Op>): seq<Op> {
    if ops == [] then []
    else
      var before, op := Others(ops[..|ops| - 1]), ops[|ops| - 1];
      if Queues(op) then before else before + [op]
  }

  function Operated(actions: seq<JointAction>): seq<Op> {
    if actions == [] then []
    else
      var before, a := Operated(actions[..|actions| - 1]), actions[|actions| - 1];
      if a.Operate? && !Queues(a.op) then before + [a.op] else before
  }

  lemma OthersMore(ops: seq<Op>, op: Op)
    ensures Others(ops + [op]) == if Queues(op) then Others(ops) else Others(ops) + [op]
  {
    assert (ops + [op])[..|ops|] == ops;
  }

  /** Canceling, cutoffs and cleanup happen to the storage as they come, in order. */
  lemma {:induction false} OthersAsOperated(autoCommit: bool, actions: seq<JointAction>)
    ensures Others(JointRun(autoCommit, actions).ops) == Operated(actions)
  {
    if actions != [] {
      var before, a := actions[..|actions| - 1], actions[|actions| - 1];
      var j := JointRun(autoCommit, before);
      OthersAsOperated(autoCommit, before);
      if a.Operate? {
        OthersMore(j.ops, a.op);
      } else if Accepts(j.receivers, a.action) {
        OthersMore(j.ops, Ask(a.shard, Xfer(j.receivers.deliveries[a.action.k].fileID, a.data, a.opts)));
      }
    }
  }

  /** Different IDs lead to files of different names. */
  ghost predicate NamesDifferToo(ops: seq<Op>) {
    NormalQueues(ops);
    forall i, j | 0 <= i < j < |QueuedIDs(ops)| && QueuedIDs(ops)[i] != QueuedIDs(ops)[j] ::
      Stem(QueuedIDs(Normal(ops))[i]) != Stem(QueuedIDs(Normal(ops))[j])
  }

  /** Under that condition each file is queued once. */
  lemma AcceptedQueuedOnce(autoCommit: bool, actions: seq<JointAction>, x: string)
    requires NamesDifferToo(JointRun(autoCommit, actions).ops)
    ensures QueuedOnce(Normal(JointRun(autoCommit, actions).ops), x)
  {
    var ops := JointRun(autoCommit, actions).ops;
    JointQueuesAccepted(autoCommit, actions);
    AcceptedAndAckedAtMostOnce(autoCommit, ReceiverActions(actions));
    NormalQueues(ops);
    DistinctIDsQueuedOnce(Normal(ops), x);
  }

  /** Over every run of receivers and storage together, each ID is offered to merging at most once,
      provided IDs lead into pending directories and to names that differ if the IDs do, and the
      cutoffs of a shard that go through fall in distinct seconds. */
  lemma AcceptedIDsOfferedOnce(autoCommit: bool, actions: seq<JointAction>, c1: nat, c2: nat, x: string)
    requires var ops := JointRun(autoCommit, actions).ops;
             && AllLand(ops) && NamesDifferToo(ops) && DistinctSeconds(Normal(ops))
             && IsCut(Normal(ops), c1) && IsCut(Normal(ops), c2)
             && AchName(x) in OfferedAt(Normal(ops), c1) && AchName(x) in OfferedAt(Normal(ops), c2)
    ensures c1 == c2
  {
    var ops := JointRun(autoCommit, actions).ops;
    AcceptedQueuedOnce(autoCommit, actions, x);
    NormalFlatIffAllLand(ops);
    OfferedAtMostOnce(Normal(ops), c1, c2, x);
  }
}
