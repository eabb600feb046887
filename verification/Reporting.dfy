/** The upload reports of whole runs: every cutoff that succeeds with its events (internal/pipeline/aggregate.go,
    internal/pipeline/merging.go). */
module Reporting {
  import opened Text
  import opened Disk
  import opened Pending
  import opened Attribution
  import opened MergeContract
  import opened Merging
  import opened Aggregator
  import opened Runs
  import Receiver

  /** A cutoff that succeeded: with what it merged, how uploads and sends went, and what it returned. */
  datatype Report = Report(merging: FilesystemMerging, mergeDir: MergeDir, upload: Upload, send: Send,
                           merged: seq<MergedFile>)

  /** The step merged and saved what the report says. */
  predicate MergesAs(t: Tree, op: Op, r: Report) {
    && op.CutoffAt? && r.merging.shard == op.shard && op.agentFound
    && op.files == SavedAll(r.merging.codec, Outputs(r.merging, t, op.at, r.mergeDir))
  }

  /** The cutoff at `c` of the run went as the report says. */
  ghost predicate ReportOf(ops: seq<Op>, c: nat, r: Report)
    requires IsCut(ops, c)
  {
    && MergesAs(Storage(ops[..c]), ops[c], r)
    && r.merging.Reports(Storage(ops[..c]), ops[c].at, r.mergeDir, true, r.upload, r.merged, Nil)
  }

  predicate Names(r: Report, x: string) {
    exists e | e in EmitAll(r.send, r.merged).sent :: e.fileID == x
  }

  ghost function InputsAt(ops: seq<Op>, c: nat, r: Report): Option<seq<Input>>
    requires IsCut(ops, c)
  {
    InputsOf(r.merging, Storage(ops[..c]), ops[c].at, r.mergeDir)
  }

  function OutputsAt(ops: seq<Op>, c: nat, r: Report): seq<ACHFile>
    requires IsCut(ops, c)
  {
    Outputs(r.merging, Storage(ops[..c]), ops[c].at, r.mergeDir)
  }

  /** The run goes on with what the cutoff leaves. */
  lemma ReportIsStep(ops: seq<Op>, c: nat, r: Report)
    requires IsCut(ops, c) && MergesAs(Storage(ops[..c]), ops[c], r)
    ensures Storage(ops[..c + 1]) == r.merging.Outbound(Storage(ops[..c]), ops[c].at, r.mergeDir, true)
  {
    assert ops[..c + 1] == ops[..c] + [ops[c]];
    StorageMore(ops[..c], ops[c]);
    StepIsOutbound(Storage(ops[..c]), ops[c], r);
  }

  lemma StepIsOutbound(t: Tree, op: Op, r: Report)
    requires MergesAs(t, op, r)
    ensures Step(t, op) == r.merging.Outbound(t, op.at, r.mergeDir, true)
  {
  }

  /** An event names a file queued and not canceled since the last cutoff of its shard. */
  lemma ReportedIsQueued(ops: seq<Op>, c: nat, r: Report, x: string)
    requires Regular(ops) && IsCut(ops, c) && ReportOf(ops, c, r) && Names(r, x)
    ensures var w := Window(ops[..c], ops[c].shard); x in QueuedStems(w) - CanceledStems(w)
  {
    var t, at, w := Storage(ops[..c]), ops[c].at, Window(ops[..c], ops[c].shard);
    PrefixDistinct(ops, c);
    CutoffOffersWindow(ops[..c], ops[c]);
    var e :| e in EmitAll(r.send, r.merged).sent && e.fileID == x;
    WindowEventsAreTruthful(r.merging, t, at, w, r.mergeDir, r.upload, r.send, r.merged, e);
  }

  /** Over a whole run, the events that name a file queued once come from one cutoff. */
  lemma ReportedByOneCutoff(ops: seq<Op>, c1: nat, r1: Report, c2: nat, r2: Report, x: string)
    requires Regular(ops) && QueuedOnce(ops, x) && IsCut(ops, c1) && IsCut(ops, c2)
    requires ReportOf(ops, c1, r1) && ReportOf(ops, c2, r2) && Names(r1, x) && Names(r2, x)
    ensures c1 == c2
  {
    ReportedIsQueued(ops, c1, r1, x);
    ReportedIsQueued(ops, c2, r2, x);
    OneWindow(ops, c1, c2, x);
  }

  /** So over every run of receivers and storage together, each accepted file is reported by at most one
      cutoff, under the conditions it takes for it to be offered by one. */
  lemma AcceptedReportedOnce(autoCommit: bool, actions: seq<Receiver.JointAction>, c1: nat, r1: Report, c2: nat,
                             r2: Report, x: string)
    requires var ops := Receiver.JointRun(autoCommit, actions).ops;
             && AllLand(ops) && Receiver.NamesDifferToo(ops) && DistinctSeconds(Normal(ops))
             && IsCut(Normal(ops), c1) && ReportOf(Normal(ops), c1, r1) && Names(r1, x)
             && IsCut(Normal(ops), c2) && ReportOf(Normal(ops), c2, r2) && Names(r2, x)
    ensures c1 == c2
  {
    var ops := Receiver.JointRun(autoCommit, actions).ops;
    Receiver.AcceptedQueuedOnce(autoCommit, actions, x);
    NormalFlatIffAllLand(ops);
    ReportedByOneCutoff(Normal(ops), c1, r1, c2, r2, x);
  }

  // Nothing goes unreported

  lemma {:induction false} ListedIsTried(merged: seq<MergedFile>, i: nat, name: string)
    requires i < |merged| && name in merged[i].inputFilepaths
    ensures EventFor(merged[i], name) in AllEvents(merged)
  {
    var n := |merged| - 1;
    if i == n {
      var k :| 0 <= k < |merged[i].inputFilepaths| && merged[i].inputFilepaths[k] == name;
      assert EventsOf(merged[i])[k] == EventFor(merged[i], name);
    } else {
      ListedIsTried(merged[..n], i, name);
    }
  }

  /** An input with an entry no other input has, and that it has once, is listed for some output. */
  lemma OwnEntryListed(inputs: seq<Input>, outs: seq<seq<Key>>, j: nat, k: Key)
    requires KeepsEntries(inputs, outs) && DistinctNames(inputs)
    requires j < |inputs| && k in inputs[j].keys && Total(InputKeys(inputs))[k] <= 1
    ensures exists i: nat :: i < |outs| && inputs[j].name in Attribute(BuildIndex(inputs), outs)[i]
  {
    TotalAtLeast(InputKeys(inputs), j, k);
    assert multiset(InputKeys(inputs)[j])[k] >= 1;
    TotalHasOwner(outs, k);
    var i: nat :| i < |outs| && k in outs[i];
    forall l | j < l < |inputs| ensures k !in inputs[l].keys {
      if k in inputs[l].keys { OneOwner(InputKeys(inputs), j, l, k); }
    }
    forall l: nat | l < i ensures k !in outs[l] {
      if k in outs[l] { OneOwner(outs, l, i, k); }
    }
    assert LastWith(inputs, k, j) && !InEarlier(outs, i, k);
    ListedIff(inputs, outs, i, j);
  }

  /** The event for it goes out if no send fails. */
  lemma OwnEntryReported(inputs: seq<Input>, upload: Upload, shard: string, fs: seq<ACHFile>, merged: seq<MergedFile>,
                         send: Send, j: nat, k: Key)
    requires Reported(Some(inputs), UploadAll(upload, shard, fs), true, merged, Nil) && UploadsAll(upload, fs)
    requires KeepsEntries(inputs, KeysOf(fs)) && DistinctNames(inputs) && EmitAll(send, merged).ok
    requires j < |inputs| && k in inputs[j].keys && Total(InputKeys(inputs))[k] <= 1
    ensures exists e | e in EmitAll(send, merged).sent :: e.fileID == TrimSuffix(Base(inputs[j].name), ".ach")
  {
    var up, outs := UploadAll(upload, shard, fs), KeysOf(fs);
    OwnEntryListed(inputs, outs, j, k);
    var i: nat :| i < |outs| && inputs[j].name in Attribute(BuildIndex(inputs), outs)[i];
    OutputsInOrder(upload, shard, fs);
    AllUploaded(upload, shard, fs);
    assert merged[i] == up[i].(inputFilepaths := Attribute(BuildIndex(inputs), outs)[i]);
    ListedIsTried(merged, i, inputs[j].name);
    EmitAllEvents(send, merged);
    assert EventFor(merged[i], inputs[j].name) in EmitAll(send, merged).sent;
  }

  /** If no send failed and merging kept the entries, every input of a cutoff that succeeded is named by
      an event, provided it has an entry that occurs once among the inputs. */
  lemma EveryInputReported(ops: seq<Op>, c: nat, r: Report, j: nat, k: Key)
    requires Regular(ops) && IsCut(ops, c) && ReportOf(ops, c, r) && EmitAll(r.send, r.merged).ok
    requires InputsAt(ops, c, r).Some? && j < |InputsAt(ops, c, r).value|
    requires var inputs := InputsAt(ops, c, r).value;
             && KeepsEntries(inputs, KeysOf(OutputsAt(ops, c, r)))
             && k in inputs[j].keys && Total(InputKeys(inputs))[k] <= 1
    ensures var x := TrimSuffix(Base(InputsAt(ops, c, r).value[j].name), ".ach");
            InputsAt(ops, c, r).value[j].name == AchName(x) && Names(r, x)
  {
    var t, w := Storage(ops[..c]), Window(ops[..c], ops[c].shard);
    var inputs, fs := InputsAt(ops, c, r).value, OutputsAt(ops, c, r);
    PrefixDistinct(ops, c);
    CutoffOffersWindow(ops[..c], ops[c]);
    InputsSurvive(r.merging, t, ops[c].at, w, r.mergeDir);
    assert inputs[j] in inputs;
    SurvivorID(w, inputs[j].name);
    OwnEntryReported(inputs, r.upload, r.merging.shard, fs, r.merged, r.send, j, k);
  }
}
