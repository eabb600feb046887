/** The cutoff of one shard and the events it emits (internal/pipeline/aggregate.go). */
module Aggregator {
  import opened Text
  import opened Calendar
  import opened Disk
  import opened Paths
  import opened Pending
  import opened Cutoff
  import opened Attribution
  import opened MergeContract
  import opened Merging
  import opened Offer

  datatype FileUploaded = FileUploaded(fileID: string, shardKey: string, filename: string)

  /** The emitter: whether it takes the n-th event of a cutoff. */
  type Send = (nat, FileUploaded) -> bool

  function EventFor(m: MergedFile, path: string): FileUploaded {
    FileUploaded(TrimSuffix(Base(path), ".ach"), m.shard, m.uploadedFilename)
  }

  /** One event for each input of one uploaded file. */
  function EventsOf(m: MergedFile): (r: seq<FileUploaded>)
    ensures |r| == |m.inputFilepaths| && forall k | 0 <= k < |r| :: r[k] == EventFor(m, m.inputFilepaths[k])
  {
    seq(|m.inputFilepaths|, k requires 0 <= k < |m.inputFilepaths| => EventFor(m, m.inputFilepaths[k]))
  }

  function AllEvents(merged: seq<MergedFile>): seq<FileUploaded> {
    if merged == [] then [] else AllEvents(merged[..|merged| - 1]) + EventsOf(merged[|merged| - 1])
  }

  /** What became of the events so far: the ones taken, the number tried, and whether all went well. */
  datatype Emission = Emission(sent: seq<FileUploaded>, tried: nat, ok: bool)

  /** A refused event stops none of the later ones. */
  function EmitOne(send: Send, log: Emission, e: FileUploaded): Emission {
    if send(log.tried, e) then Emission(log.sent + [e], log.tried + 1, log.ok)
    else Emission(log.sent, log.tried + 1, false)
  }

  function EmitEach(send: Send, log: Emission, events: seq<FileUploaded>): Emission {
    if events == [] then log
    else EmitOne(send, EmitEach(send, log, events[..|events| - 1]), events[|events| - 1])
  }

  function EmitAll(send: Send, merged: seq<MergedFile>): Emission {
    if merged == [] then Emission([], 0, true)
    else EmitEach(send, EmitAll(send, merged[..|merged| - 1]), EventsOf(merged[|merged| - 1]))
  }

  /** The inner loop: the events of one uploaded file. */
  method EmitInputs(m: MergedFile, send: Send, log: Emission) returns (after: Emission)
    ensures after == EmitEach(send, log, EventsOf(m))
  {
    after := log;
    for k := 0 to |m.inputFilepaths|
      invariant after == EmitEach(send, log, EventsOf(m)[..k])
    {
      assert EventsOf(m)[..k + 1][..k] == EventsOf(m)[..k];
      after := EmitOne(send, after, EventFor(m, m.inputFilepaths[k]));
    }
    assert EventsOf(m)[..|m.inputFilepaths|] == EventsOf(m);
  }

  /** Tries an event for every input of every uploaded file, in order. */
  method EmitFilesUploaded(merged: seq<MergedFile>, send: Send) returns (log: Emission)
    ensures log == EmitAll(send, merged)
    ensures log.tried == |AllEvents(merged)| && (log.ok <==> Takes(send, AllEvents(merged)))
    ensures exists at :: Picks(send, AllEvents(merged), log.sent, at)
  {
    EmitsWhatIsTaken(send, merged);
    log := Emission([], 0, true);
    for i := 0 to |merged|
      invariant log == EmitAll(send, merged[..i])
    {
      assert merged[..i + 1][..i] == merged[..i];
      log := EmitInputs(merged[i], send, log);
    }
    assert merged[..|merged|] == merged;
  }

  class ShardAggregator {
    const merger: FilesystemMerging

    constructor (merger: FilesystemMerging)
      ensures this.merger == merger
    {
      this.merger := merger;
    }

    /** A cutoff of the schedule: events go out only if the whole of it succeeded, and events that
        fail to go out do not make it fail. */
    method WithEachFile(now: Civil, mergeDir: MergeDir, agentFound: bool, upload: Upload, send: Send)
      returns (sent: seq<FileUploaded>, outcome: Outcome, ghost merged: seq<MergedFile>)
      requires merger.storage.Valid() && Valid(now)
      modifies merger.storage
      ensures merger.storage.Valid()
      ensures merger.storage.State() == merger.Outbound(old(merger.storage.State()), now, mergeDir, agentFound)
      ensures merger.Reports(old(merger.storage.State()), now, mergeDir, agentFound, upload, merged, outcome)
      ensures sent == if outcome == Nil then EmitAll(send, merged).sent else []
      ensures if outcome == Nil then exists at :: Picks(send, AllEvents(merged), sent, at) else sent == []
    {
      var files;
      files, outcome := merger.WithEachMerged(now, mergeDir, agentFound, upload);
      merged, sent := files, [];
      if outcome == Nil {
        var log := EmitFilesUploaded(files, send);
        sent := log.sent;
      }
    }

    /** A manual cutoff is the same, and replies once with the error of the cutoff, not of the
        events. A panic takes the process down before the reply. */
    method ManualCutoff(now: Civil, mergeDir: MergeDir, agentFound: bool, upload: Upload, send: Send)
      returns (sent: seq<FileUploaded>, replies: seq<Outcome>, ghost merged: seq<MergedFile>, ghost outcome: Outcome)
      requires merger.storage.Valid() && Valid(now)
      modifies merger.storage
      ensures merger.storage.Valid()
      ensures merger.storage.State() == merger.Outbound(old(merger.storage.State()), now, mergeDir, agentFound)
      ensures merger.Reports(old(merger.storage.State()), now, mergeDir, agentFound, upload, merged, outcome)
      ensures sent == if outcome == Nil then EmitAll(send, merged).sent else []
      ensures if outcome == Nil then exists at :: Picks(send, AllEvents(merged), sent, at) else sent == []
      ensures replies == if outcome == Panicked then [] else [outcome]
    {
      var files, result := merger.WithEachMerged(now, mergeDir, agentFound, upload);
      merged, outcome := files, result;
      sent, replies := [], [];
      if result == Failed {
        replies := [Failed];
      } else if result == Nil {
        var log := EmitFilesUploaded(files, send);
        sent, replies := log.sent, [Nil];
      }
    }
  }

  // What the events say

  ghost predicate Extends(before: Emission, after: Emission, events: seq<FileUploaded>) {
    && after.tried == before.tried + |events|
    && (forall e | e in after.sent :: e in before.sent || e in events)
    && (after.ok ==> before.ok && after.sent == before.sent + events)
  }

  lemma {:induction false} EmitEachExtends(send: Send, log: Emission, events: seq<FileUploaded>)
    ensures Extends(log, EmitEach(send, log, events), events)
  {
    if events != [] {
      var n := |events| - 1;
      assert events == events[..n] + [events[n]];
      EmitEachExtends(send, log, events[..n]);
    }
  }

  /** Only events of the uploaded files go out; if no send failed, all of them, in order. */
  lemma {:induction false} EmitAllEvents(send: Send, merged: seq<MergedFile>)
    ensures Extends(Emission([], 0, true), EmitAll(send, merged), AllEvents(merged))
  {
    if merged != [] {
      var n := |merged| - 1;
      EmitAllEvents(send, merged[..n]);
      EmitEachExtends(send, EmitAll(send, merged[..n]), EventsOf(merged[n]));
    }
  }

  function EventLists(merged: seq<MergedFile>): (r: seq<seq<FileUploaded>>)
    ensures |r| == |merged| && forall i | 0 <= i < |r| :: r[i] == EventsOf(merged[i])
  {
    seq(|merged|, i requires 0 <= i < |merged| => EventsOf(merged[i]))
  }

  /** The events are those of the first output, input by input, then those of the next. */
  lemma {:induction false} EventsInOrder(merged: seq<MergedFile>)
    ensures Joins(AllEvents(merged), EventLists(merged))
  {
    if merged != [] {
      var n := |merged| - 1;
      EventsInOrder(merged[..n]);
      JoinsMore(AllEvents(merged[..n]), EventLists(merged[..n]), EventsOf(merged[n]));
      assert EventLists(merged) == EventLists(merged[..n]) + [EventsOf(merged[n])];
    }
  }

  predicate Rising(at: seq<nat>, bound: nat) {
    && (forall i | 0 <= i < |at| :: at[i] < bound)
    && (forall i, j | 0 <= i < j < |at| :: at[i] < at[j])
  }

  /** What went out is what the emitter took, in order: `at` lists the numbers of the taken events. */
  ghost predicate Picks(send: Send, events: seq<FileUploaded>, sent: seq<FileUploaded>, at: seq<nat>) {
    && |at| == |sent| && Rising(at, |events|)
    && (forall i | 0 <= i < |at| :: sent[i] == events[at[i]])
    && (forall n: nat | n < |events| :: n in at <==> send(n, events[n]))
  }

  /** The numbers of the events the emitter takes. */
  function TakenNumbers(send: Send, events: seq<FileUploaded>): seq<nat> {
    if events == [] then []
    else
      var n := |events| - 1;
      TakenNumbers(send, events[..n]) + (if send(n, events[n]) then [n] else [])
  }

  lemma {:induction false} TakenInOrder(send: Send, events: seq<FileUploaded>)
    ensures Rising(TakenNumbers(send, events), |events|)
  {
    if events != [] { TakenInOrder(send, events[..|events| - 1]); }
  }

  lemma {:induction false} TakenIff(send: Send, events: seq<FileUploaded>, m: nat)
    requires m < |events|
    ensures m in TakenNumbers(send, events) <==> send(m, events[m])
    decreases |events|
  {
    var n := |events| - 1;
    TakenInOrder(send, events[..n]);
    if m < n {
      TakenIff(send, events[..n], m);
    }
  }

  function Chosen(events: seq<FileUploaded>, at: seq<nat>): (r: seq<FileUploaded>)
    requires Rising(at, |events|)
    ensures |r| == |at| && forall i | 0 <= i < |r| :: r[i] == events[at[i]]
  {
    seq(|at|, i requires 0 <= i < |at| => events[at[i]])
  }

  ghost predicate Takes(send: Send, events: seq<FileUploaded>) {
    forall n: nat | n < |events| :: send(n, events[n])
  }

  ghost predicate Emitted(send: Send, events: seq<FileUploaded>, log: Emission) {
    TakenInOrder(send, events);
    && log.tried == |events| && (log.ok <==> Takes(send, events))
    && log.sent == Chosen(events, TakenNumbers(send, events))
  }

  lemma EmittedPicks(send: Send, events: seq<FileUploaded>, log: Emission)
    requires Emitted(send, events, log)
    ensures Picks(send, events, log.sent, TakenNumbers(send, events))
  {
    TakenInOrder(send, events);
    forall n: nat | n < |events| ensures n in TakenNumbers(send, events) <==> send(n, events[n]) {
      TakenIff(send, events, n);
    }
  }

  lemma EarlierEvents(send: Send, events: seq<FileUploaded>, e: FileUploaded)
    ensures (events + [e])[..|events|] == events && (events + [e])[|events|] == e
    ensures Takes(send, events + [e]) <==> Takes(send, events) && send(|events|, e)
  {
    var all := events + [e];
    assert all[..|events|] == events;
    if Takes(send, all) {
      forall n: nat | n < |events| ensures send(n, events[n]) { assert send(n, all[n]); }
      assert send(|events|, all[|events|]);
    }
  }

  lemma EmittedOneMore(send: Send, events: seq<FileUploaded>, log: Emission, e: FileUploaded)
    requires Emitted(send, events, log)
    ensures Emitted(send, events + [e], EmitOne(send, log, e))
  {
    EarlierEvents(send, events, e);
    TakenInOrder(send, events);
    TakenInOrder(send, events + [e]);
    assert EmitOne(send, log, e).sent == Chosen(events + [e], TakenNumbers(send, events + [e]));
  }

  lemma {:induction false} EmittedEach(send: Send, events: seq<FileUploaded>, log: Emission, more: seq<FileUploaded>)
    requires Emitted(send, events, log)
    ensures Emitted(send, events + more, EmitEach(send, log, more))
    decreases |more|
  {
    if more == [] {
      assert events + more == events;
    } else {
      var n := |more| - 1;
      assert events + more == events + more[..n] + [more[n]];
      EmittedEach(send, events, log, more[..n]);
      EmittedOneMore(send, events + more[..n], EmitEach(send, log, more[..n]), more[n]);
    }
  }

  /** For every emitter: each event is tried once, in order, under its own number; what goes out is just
      what the emitter takes, and all is well exactly if it takes every one. A refused event stops no
      later one. */
  lemma {:induction false} EmitsWhatIsTaken(send: Send, merged: seq<MergedFile>)
    ensures Emitted(send, AllEvents(merged), EmitAll(send, merged))
    ensures exists at :: Picks(send, AllEvents(merged), EmitAll(send, merged).sent, at)
  {
    if merged != [] {
      var n := |merged| - 1;
      EmitsWhatIsTaken(send, merged[..n]);
      EmittedEach(send, AllEvents(merged[..n]), EmitAll(send, merged[..n]), EventsOf(merged[n]));
    }
    EmittedPicks(send, AllEvents(merged), EmitAll(send, merged));
  }

  lemma {:induction false} EventHasOutput(merged: seq<MergedFile>, e: FileUploaded) returns (i: nat, k: nat)
    requires e in AllEvents(merged)
    ensures i < |merged| && k < |merged[i].inputFilepaths| && e == EventFor(merged[i], merged[i].inputFilepaths[k])
  {
    var n := |merged| - 1;
    if e in EventsOf(merged[n]) {
      i := n;
      k :| k < |EventsOf(merged[n])| && EventsOf(merged[n])[k] == e;
    } else {
      i, k := EventHasOutput(merged[..n], e);
    }
  }

  /** Every uploaded file comes from a callback that returned its filename. */
  ghost predicate FromCallback(upload: Upload, shard: string, fs: seq<ACHFile>, m: MergedFile, at: nat) {
    at < |fs| && m.file == fs[at] && m.shard == shard && upload(at, fs[at]) == Some(m.uploadedFilename)
  }

  lemma {:induction false} UploadedCallback(upload: Upload, shard: string, fs: seq<ACHFile>, i: nat)
    requires i < |UploadAll(upload, shard, fs)|
    ensures exists at: nat :: FromCallback(upload, shard, fs, UploadAll(upload, shard, fs)[i], at)
  {
    var n := |fs| - 1;
    var before := UploadAll(upload, shard, fs[..n]);
    var m := UploadAll(upload, shard, fs)[i];
    if i < |before| {
      UploadedCallback(upload, shard, fs[..n], i);
      assert m == before[i];
      var at: nat :| FromCallback(upload, shard, fs[..n], m, at);
      assert FromCallback(upload, shard, fs, m, at);
    } else {
      assert FromCallback(upload, shard, fs, m, n);
    }
  }

  /** The event is about an input of the window with an entry of the output it names. */
  ghost predicate Truthful(e: FileUploaded, shard: string, inputs: seq<Input>, upload: Upload, fs: seq<ACHFile>,
      j: nat, at: nat)
  {
    && j < |inputs| && at < |fs|
    && e == FileUploaded(TrimSuffix(Base(inputs[j].name), ".ach"), shard, e.filename)
    && upload(at, fs[at]) == Some(e.filename)
    && Share(inputs[j].keys, Keys(fs[at]))
  }

  /** Whatever the cutoff returned, an event that may go out for it is truthful. */
  lemma EventsAreTruthful(inputs: seq<Input>, upload: Upload, shard: string, fs: seq<ACHFile>, well: bool,
                          merged: seq<MergedFile>, outcome: Outcome, e: FileUploaded)
    requires Reported(Some(inputs), UploadAll(upload, shard, fs), well, merged, outcome) && e in AllEvents(merged)
    ensures exists j: nat, at: nat :: Truthful(e, shard, inputs, upload, fs, j, at)
  {
    var i, k := EventHasOutput(merged, e);
    ListedIsTruthful(inputs, upload, shard, fs, well, merged, outcome, i, merged[i].inputFilepaths[k]);
  }

  lemma ListedIsTruthful(inputs: seq<Input>, upload: Upload, shard: string, fs: seq<ACHFile>, well: bool,
                         merged: seq<MergedFile>, outcome: Outcome, i: nat, name: string)
    requires Reported(Some(inputs), UploadAll(upload, shard, fs), well, merged, outcome)
    requires i < |merged| && name in merged[i].inputFilepaths
    ensures exists j: nat, at: nat :: Truthful(EventFor(merged[i], name), shard, inputs, upload, fs, j, at)
  {
    var up := UploadAll(upload, shard, fs);
    var outs := OutputKeys(up);
    UploadedCallback(upload, shard, fs, i);
    var at: nat :| FromCallback(upload, shard, fs, up[i], at);
    assert merged[i] == up[i].(inputFilepaths := Attribute(BuildIndex(inputs), outs)[i]);
    FoundIsShared(inputs, outs, i, name);
    var j: nat :| j < |inputs| && inputs[j].name == name && Share(inputs[j].keys, outs[i]);
    assert Truthful(EventFor(merged[i], name), shard, inputs, upload, fs, j, at);
  }

  lemma FoundIsShared(inputs: seq<Input>, outs: seq<seq<Key>>, i: nat, name: string)
    requires i < |outs| && name in Attribute(BuildIndex(inputs), outs)[i]
    ensures exists j: nat :: j < |inputs| && inputs[j].name == name && Share(inputs[j].keys, outs[i])
  {
    var index := BuildIndex(inputs);
    assert name in Found(index, outs, i);
    var k :| k in outs[i] && k in index && !InEarlier(outs, i, k) && index[k] == name;
    IndexNamesLast(inputs, k);
    var j: nat :| LastWith(inputs, k, j);
    assert Share(inputs[j].keys, outs[i]);
  }

  // The events of one window

  /** The inputs a cutoff reads back. */
  ghost function InputsOf(m: FilesystemMerging, t: Tree, at: Civil, mergeDir: MergeDir): Option<seq<Input>>
    requires Valid(at)
  {
    MappingInputs(m.Outbound(t, at, mergeDir, true), m.codec, DirName(m.shard, at), CanceledIn(t, m.shard, at))
  }

  /** The files a cutoff uploads. */
  function Outputs(m: FilesystemMerging, t: Tree, at: Civil, mergeDir: MergeDir): seq<ACHFile>
    requires Valid(at)
  {
    FlattenAll(m.flatten, MergedIn(t, m.shard, at, mergeDir).files)
  }

  /** Each input is a file queued and not canceled in the window, each once. */
  lemma InputsSurvive(m: FilesystemMerging, t: Tree, at: Civil, w: seq<Request>, mergeDir: MergeDir)
    requires Valid(at) && Ready(t, m.shard, at, w) && InputsOf(m, t, at, mergeDir).Some?
    ensures var inputs := InputsOf(m, t, at, mergeDir).value;
            && DistinctNames(inputs)
            && (forall i | i in inputs :: i.name in Survivors(w))
            && (Outputs(m, t, at, mergeDir) != [] ==> forall n | n in Survivors(w) ::
                exists i :: i in inputs && i.name == n)
  {
    var files := Outputs(m, t, at, mergeDir);
    var u, canceled := m.Outbound(t, at, mergeDir, true), CanceledIn(t, m.shard, at);
    MappedInWindow(t, m.shard, at, w, SavedAll(m.codec, files));
    var names := Ascending(MappedNames(u, DirName(m.shard, at), canceled));
    ReadAllNames(u, m.codec, DirName(m.shard, at), names);
    NamesInOrder(InputsOf(m, t, at, mergeDir).value, names);
  }

  /** What is uploaded is what merging gave, flattened where that is asked for and succeeds. */
  lemma OutputsFlattened(m: FilesystemMerging, t: Tree, at: Civil, mergeDir: MergeDir)
    requires Valid(at)
    ensures var merged, fs := MergedIn(t, m.shard, at, mergeDir).files, Outputs(m, t, at, mergeDir);
            && |fs| == |merged| && (m.flatten.None? ==> fs == merged)
            && (m.flatten.Some? ==> forall i | 0 <= i < |fs| ::
                  fs[i] == match m.flatten.value(merged[i]) { case Some(flat) => flat case None => merged[i] })
  {
    var merged, fs := MergedIn(t, m.shard, at, mergeDir).files, Outputs(m, t, at, mergeDir);
    assert m.flatten.None? ==> forall i | 0 <= i < |fs| :: fs[i] == merged[i];
  }

  /** Every output that can be rendered is kept under the hash of its contents; the file of that name
      has contents of that hash, those of an output. */
  lemma OutputsKeptUnderHash(m: FilesystemMerging, t: Tree, at: Civil, w: seq<Request>, mergeDir: MergeDir, i: nat)
    requires Valid(at) && Ready(t, m.shard, at, w)
    requires i < |Outputs(m, t, at, mergeDir)| && m.codec.render(Outputs(m, t, at, mergeDir)[i]).Some?
    ensures var fs, u := Outputs(m, t, at, mergeDir), m.Outbound(t, at, mergeDir, true);
            var n := m.codec.hash(m.codec.render(fs[i]).value);
            var p := [DirName(m.shard, at), UPLOADED, AchName(n)];
            && p in u.files && m.codec.hash(u.files[p]) == n
            && exists j :: 0 <= j < |fs| && m.codec.render(fs[j]) == Some(u.files[p])
  {
    var fs := Outputs(m, t, at, mergeDir);
    var files, n := SavedAll(m.codec, fs), m.codec.hash(m.codec.render(fs[i]).value);
    var j := LastOfName(files, n, i);
    UploadedHold(t, m.shard, at, w, files, n, j);
    assert files[j] == SavedAs(m.codec, fs[j]);
  }

  lemma {:induction false} LastOfName(files: seq<Option<Saved>>, n: string, i: nat) returns (j: nat)
    requires i < |files| && files[i].Some? && files[i].value.name == n
    ensures LastSaved(files, n, j)
    decreases |files| - i
  {
    if LastSaved(files, n, i) {
      j := i;
    } else {
      var k :| i < k < |files| && files[k].Some? && files[k].value.name == n;
      j := LastOfName(files, n, k);
    }
  }

  /** The input is the file X.ach of the window, read with the options X.json if there are any. */
  ghost predicate ReadFrom(codec: Codec, d: Dir, x: string, input: Input) {
    && AchName(x) in d && input.name == AchName(x)
    && var file := codec.parse(d[AchName(x)], if JsonName(x) in d then Some(d[JsonName(x)]) else None);
       file.Some? && input.keys == Keys(file.value)
  }

  /** What is read back of a window: each input has the keys of its file as it was queued, and they come
      in the order of their names. */
  lemma InputsRead(m: FilesystemMerging, t: Tree, at: Civil, w: seq<Request>, mergeDir: MergeDir)
    requires Valid(at) && Ready(t, m.shard, at, w) && InputsOf(m, t, at, mergeDir).Some?
    ensures var inputs := InputsOf(m, t, at, mergeDir).value;
            && (forall i | 0 <= i < |inputs| ::
                  exists x :: x in SurvivingStems(w) && ReadFrom(m.codec, HandleAll(w), x, inputs[i]))
            && (forall i, j | 0 <= i < j < |inputs| :: Less(inputs[i].name, inputs[j].name))
  {
    var files, dir := SavedAll(m.codec, Outputs(m, t, at, mergeDir)), DirName(m.shard, at);
    var u, inputs := m.Outbound(t, at, mergeDir, true), InputsOf(m, t, at, mergeDir).value;
    var names := Ascending(MappedNames(u, dir, CanceledIn(t, m.shard, at)));
    MappedInWindow(t, m.shard, at, w, files);
    CutoffRefines(t, m.shard, at, true, files);
    ReadAllNames(u, m.codec, dir, names);
    forall i | 0 <= i < |inputs|
      ensures exists x :: x in SurvivingStems(w) && ReadFrom(m.codec, HandleAll(w), x, inputs[i])
    {
      assert names[i] in names;
      var x :| x in SurvivingStems(w) && names[i] == AchName(x);
      WindowContents(w, x);
      ReadIffReadable(u, m.codec, m.shard, at, HandleAll(w), x);
      assert ReadFrom(m.codec, HandleAll(w), x, inputs[i]);
    }
  }

  lemma NamesInOrder(inputs: seq<Input>, names: seq<string>)
    requires |inputs| == |names| && forall i | 0 <= i < |names| :: inputs[i].name == names[i]
    requires StrictlySorted(names)
    ensures DistinctNames(inputs)
    ensures forall i | i in inputs :: i.name in names
    ensures forall n | n in names :: exists i :: i in inputs && i.name == n
  {
    forall i, j | 0 <= i < j < |inputs| ensures inputs[i].name != inputs[j].name {
      LessIrreflexive(names[i]);
    }
    forall n | n in names ensures exists i :: i in inputs && i.name == n {
      var k :| 0 <= k < |names| && names[k] == n;
      assert inputs[k] in inputs;
    }
  }

  /** The event for a surviving file carries the queued ID without its extension. */
  lemma SurvivorID(w: seq<Request>, n: string)
    requires Flat(w) && n in Survivors(w)
    ensures var x := TrimSuffix(Base(n), ".ach"); n == AchName(x) && x in QueuedStems(w) - CanceledStems(w)
  {
    var x :| x in QueuedStems(w) - CanceledStems(w) && n == AchName(x);
    FlatName(w, x);
    TrimAppended(x, ".ach");
  }

  /** Every event of a window names a file queued and not canceled in it, under the filename some
      callback returned for an output that shares an entry with that file. */
  lemma WindowEventsAreTruthful(m: FilesystemMerging, t: Tree, at: Civil, w: seq<Request>, mergeDir: MergeDir,
                                upload: Upload, send: Send, merged: seq<MergedFile>, e: FileUploaded)
    requires Valid(at) && Ready(t, m.shard, at, w)
    requires m.Reports(t, at, mergeDir, true, upload, merged, Nil) && e in EmitAll(send, merged).sent
    ensures InputsOf(m, t, at, mergeDir).Some? && e.fileID in QueuedStems(w) - CanceledStems(w)
    ensures exists j: nat, k: nat ::
              && Truthful(e, m.shard, InputsOf(m, t, at, mergeDir).value, upload, Outputs(m, t, at, mergeDir), j, k)
              && InputsOf(m, t, at, mergeDir).value[j].name == AchName(e.fileID)
  {
    var inputs, fs := InputsOf(m, t, at, mergeDir).value, Outputs(m, t, at, mergeDir);
    EmitAllEvents(send, merged);
    assert exists well :: Reported(Some(inputs), UploadAll(upload, m.shard, fs), well, merged, Nil);
    var well :| Reported(Some(inputs), UploadAll(upload, m.shard, fs), well, merged, Nil);
    EventsAreTruthful(inputs, upload, m.shard, fs, well, merged, Nil, e);
    var j: nat, k: nat :| Truthful(e, m.shard, inputs, upload, fs, j, k);
    InputsSurvive(m, t, at, w, mergeDir);
    assert inputs[j] in inputs;
    SurvivorID(w, inputs[j].name);
  }

  ghost predicate ExactlyOnce(events: seq<FileUploaded>, e: FileUploaded) {
    exists k | 0 <= k < |events| :: events[k] == e && forall l | 0 <= l < |events| && events[l] == e :: l == k
  }

  function KeysOf(fs: seq<ACHFile>): (r: seq<seq<Key>>)
    ensures |r| == |fs| && forall i | 0 <= i < |r| :: r[i] == Keys(fs[i])
  {
    seq(|fs|, i requires 0 <= i < |fs| => Keys(fs[i]))
  }

  /** If every callback succeeded, every file is reported, under the filename it got. */
  lemma {:induction false} AllUploaded(upload: Upload, shard: string, fs: seq<ACHFile>)
    requires UploadsAll(upload, fs)
    ensures |UploadAll(upload, shard, fs)| == |fs|
    ensures forall i: nat | i < |fs| :: FromCallback(upload, shard, fs, UploadAll(upload, shard, fs)[i], i)
  {
    if fs != [] {
      var n := |fs| - 1;
      AllUploaded(upload, shard, fs[..n]);
      var before, all := UploadAll(upload, shard, fs[..n]), UploadAll(upload, shard, fs);
      forall i: nat | i < |fs| ensures FromCallback(upload, shard, fs, all[i], i) {
        if i < n {
          assert FromCallback(upload, shard, fs[..n], before[i], i);
          assert all[i] == before[i];
        }
      }
    }
  }

  /** The events of one output: one for each listed name, no two alike. */
  lemma ListedOnce(w: seq<Request>, r: MergedFile, names: set<string>, x: string)
    requires Flat(w) && names <= Survivors(w) && r.inputFilepaths == Ascending(names)
    ensures var e := FileUploaded(x, r.shard, r.uploadedFilename);
            if AchName(x) in names then ExactlyOnce(EventsOf(r), e) else e !in EventsOf(r)
  {
    var e, ps := FileUploaded(x, r.shard, r.uploadedFilename), r.inputFilepaths;
    forall k | 0 <= k < |ps| ensures EventsOf(r)[k] == e <==> ps[k] == AchName(x) {
      assert ps[k] in names;
      SurvivorID(w, ps[k]);
      EventNames(w, r, ps[k], x);
    }
    if AchName(x) in names {
      var k :| 0 <= k < |ps| && ps[k] == AchName(x);
      forall l | 0 <= l < |ps| && EventsOf(r)[l] == e ensures l == k {
        LessIrreflexive(ps[k]);
      }
    }
  }

  lemma EventNames(w: seq<Request>, r: MergedFile, n: string, x: string)
    requires Flat(w) && n in Survivors(w)
    ensures EventFor(r, n) == FileUploaded(x, r.shard, r.uploadedFilename) <==> n == AchName(x)
  {
    SurvivorID(w, n);
    NamesDiffer(x, TrimSuffix(Base(n), ".ach"));
  }

  /** If every callback succeeded, merging keeps entries and no entry repeats, output `i` lists
      exactly the inputs it shares an entry with. */
  lemma ListedShares(inputs: seq<Input>, upload: Upload, shard: string, fs: seq<ACHFile>, merged: seq<MergedFile>,
      i: nat, j: nat)
    requires Reported(Some(inputs), UploadAll(upload, shard, fs), true, merged, Nil) && UploadsAll(upload, fs)
    requires KeepsEntries(inputs, KeysOf(fs)) && UniqueKeys(inputs) && DistinctNames(inputs)
    requires i < |fs| && j < |inputs|
    ensures |merged| == |fs| && FromCallback(upload, shard, fs, merged[i], i)
    ensures var names := Found(BuildIndex(inputs), KeysOf(fs), i);
            merged[i].inputFilepaths == Ascending(names)
            && (inputs[j].name in names <==> Share(inputs[j].keys, Keys(fs[i])))
  {
    var up, outs := UploadAll(upload, shard, fs), KeysOf(fs);
    AllUploaded(upload, shard, fs);
    OutputsInOrder(upload, shard, fs);
    assert merged[i] == up[i].(inputFilepaths := Attribute(BuildIndex(inputs), outs)[i]);
    assert FromCallback(upload, shard, fs, up[i], i);
    UploadedAll(outs);
    ListedIffShared(inputs, outs, outs, i, j);
  }

  lemma OutputsInOrder(upload: Upload, shard: string, fs: seq<ACHFile>)
    requires UploadsAll(upload, fs)
    ensures OutputKeys(UploadAll(upload, shard, fs)) == KeysOf(fs)
  {
    AllUploaded(upload, shard, fs);
    forall i: nat | i < |fs| ensures Keys(UploadAll(upload, shard, fs)[i].file) == Keys(fs[i]) {
      assert FromCallback(upload, shard, fs, UploadAll(upload, shard, fs)[i], i);
    }
  }

  lemma FoundSurvives(inputs: seq<Input>, outs: seq<seq<Key>>, i: nat, w: seq<Request>)
    requires i < |outs| && forall x | x in inputs :: x.name in Survivors(w)
    ensures Found(BuildIndex(inputs), outs, i) <= Survivors(w)
  {
    forall n | n in Found(BuildIndex(inputs), outs, i) ensures n in Survivors(w) {
      assert n in Attribute(BuildIndex(inputs), outs)[i];
      FoundIsShared(inputs, outs, i, n);
      var j: nat :| j < |inputs| && inputs[j].name == n && Share(inputs[j].keys, outs[i]);
      assert inputs[j] in inputs;
    }
  }

  lemma CountOnce(events: seq<FileUploaded>, e: FileUploaded)
    requires ExactlyOnce(events, e)
    ensures multiset(events)[e] == 1
  {
    var k :| 0 <= k < |events| && events[k] == e && forall l | 0 <= l < |events| && events[l] == e :: l == k;
    assert events == events[..k] + [e] + events[k + 1..];
    assert e !in events[..k] && e !in events[k + 1..];
  }

  /** One if the output went out under this filename and shares an entry with these keys. */
  ghost function OneIfSharing(keys: seq<Key>, upload: Upload, fs: seq<ACHFile>, filename: string, i: nat): nat
    requires i < |fs|
  {
    if upload(i, fs[i]) == Some(filename) && Share(keys, Keys(fs[i])) then 1 else 0
  }

  /** How many of the first `n` outputs do. */
  ghost function SharingOutputs(keys: seq<Key>, upload: Upload, fs: seq<ACHFile>, filename: string, n: nat): nat
    requires n <= |fs|
  {
    if n == 0 then 0
    else SharingOutputs(keys, upload, fs, filename, n - 1) + OneIfSharing(keys, upload, fs, filename, n - 1)
  }

  /** The same conditions for every output of a cutoff: it lists just the inputs it shares an entry with. */
  ghost predicate ListsSharers(w: seq<Request>, shard: string, input: Input, upload: Upload, fs: seq<ACHFile>,
      merged: seq<MergedFile>, i: nat)
  {
    && i < |fs| && i < |merged| && FromCallback(upload, shard, fs, merged[i], i)
    && exists names :: names <= Survivors(w) && merged[i].inputFilepaths == Ascending(names)
                       && (input.name in names <==> Share(input.keys, Keys(fs[i])))
  }

  lemma OutputCount(w: seq<Request>, shard: string, input: Input, upload: Upload, fs: seq<ACHFile>,
                    merged: seq<MergedFile>, i: nat, x: string, filename: string)
    requires Flat(w) && input.name == AchName(x) && ListsSharers(w, shard, input, upload, fs, merged, i)
    ensures multiset(EventsOf(merged[i]))[FileUploaded(x, shard, filename)] ==
            OneIfSharing(input.keys, upload, fs, filename, i)
  {
    var e := FileUploaded(x, shard, filename);
    if merged[i].uploadedFilename == filename {
      var names :| names <= Survivors(w) && merged[i].inputFilepaths == Ascending(names)
                   && (input.name in names <==> Share(input.keys, Keys(fs[i])));
      ListedOnce(w, merged[i], names, x);
      if AchName(x) in names { CountOnce(EventsOf(merged[i]), e); }
    } else {
      OtherFilename(merged[i], e);
    }
  }

  lemma OtherFilename(m: MergedFile, e: FileUploaded)
    requires m.uploadedFilename != e.filename
    ensures e !in EventsOf(m)
  {
  }

  lemma AllEventsNext(merged: seq<MergedFile>, n: nat, e: FileUploaded)
    requires n < |merged|
    ensures multiset(AllEvents(merged[..n + 1]))[e] == multiset(AllEvents(merged[..n]))[e] +
        multiset(EventsOf(merged[n]))[e]
  {
    assert merged[..n + 1][..n] == merged[..n];
  }

  function CountIn(m: MergedFile, e: FileUploaded): nat {
    multiset(EventsOf(m))[e]
  }

  function CountFirst(merged: seq<MergedFile>, n: nat, e: FileUploaded): nat
    requires n <= |merged|
  {
    if n == 0 then 0 else CountFirst(merged, n - 1, e) + CountIn(merged[n - 1], e)
  }

  lemma {:induction false} CountAdds(merged: seq<MergedFile>, n: nat, e: FileUploaded)
    requires n <= |merged|
    ensures multiset(AllEvents(merged[..n]))[e] == CountFirst(merged, n, e)
  {
    if n > 0 {
      CountAdds(merged, n - 1, e);
      AllEventsNext(merged, n - 1, e);
    }
  }

  lemma {:induction false} CountShares(keys: seq<Key>, upload: Upload, fs: seq<ACHFile>, merged: seq<MergedFile>,
      n: nat, e: FileUploaded)
    requires n <= |fs| == |merged|
    requires forall i: nat | i < n :: CountIn(merged[i], e) == OneIfSharing(keys, upload, fs, e.filename, i)
    ensures CountFirst(merged, n, e) == SharingOutputs(keys, upload, fs, e.filename, n)
  {
    if n > 0 { CountShares(keys, upload, fs, merged, n - 1, e); }
  }

  lemma ListedCount(w: seq<Request>, shard: string, input: Input, upload: Upload, fs: seq<ACHFile>,
                    merged: seq<MergedFile>, x: string, filename: string)
    requires Flat(w) && input.name == AchName(x) && |fs| == |merged|
    requires forall i: nat | i < |fs| :: ListsSharers(w, shard, input, upload, fs, merged, i)
    ensures multiset(AllEvents(merged))[FileUploaded(x, shard, filename)] ==
            SharingOutputs(input.keys, upload, fs, filename, |fs|)
  {
    var e := FileUploaded(x, shard, filename);
    forall i: nat | i < |fs|
      ensures CountIn(merged[i], e) == OneIfSharing(input.keys, upload, fs, filename, i)
    {
      OutputCount(w, shard, input, upload, fs, merged, i, x, filename);
    }
    CountShares(input.keys, upload, fs, merged, |fs|, e);
    CountAdds(merged, |fs|, e);
    assert merged[..|fs|] == merged;
  }

  lemma SentCount(w: seq<Request>, inputs: seq<Input>, upload: Upload, shard: string, fs: seq<ACHFile>,
                  merged: seq<MergedFile>, j: nat, filename: string)
    requires Reported(Some(inputs), UploadAll(upload, shard, fs), true, merged, Nil) && UploadsAll(upload, fs)
    requires KeepsEntries(inputs, KeysOf(fs)) && UniqueKeys(inputs) && DistinctNames(inputs) && j < |inputs|
    requires Flat(w) && (forall x | x in inputs :: x.name in Survivors(w))
    ensures var x := TrimSuffix(Base(inputs[j].name), ".ach");
            && inputs[j].name == AchName(x) && x in QueuedStems(w) - CanceledStems(w)
            && multiset(AllEvents(merged))[FileUploaded(x, shard, filename)] ==
               SharingOutputs(inputs[j].keys, upload, fs, filename, |fs|)
  {
    assert inputs[j] in inputs;
    SurvivorID(w, inputs[j].name);
    OutputsListSharers(w, inputs, upload, shard, fs, merged, j);
    ListedCount(w, shard, inputs[j], upload, fs, merged, TrimSuffix(Base(inputs[j].name), ".ach"), filename);
  }

  /** After a cutoff without an error, if merging kept every entry and none repeats and every send succeeds:
      for each input, under the queued ID without its extension, and each filename, the events sent are as
      many as the outputs uploaded under that filename that share an entry with the input. So each sharing
      pair has exactly one event, and nothing else is sent. */
  lemma OneEventPerShare(m: FilesystemMerging, t: Tree, at: Civil, w: seq<Request>, mergeDir: MergeDir,
                         upload: Upload, send: Send, merged: seq<MergedFile>, j: nat, filename: string)
    requires Valid(at) && Ready(t, m.shard, at, w) && m.Reports(t, at, mergeDir, true, upload, merged, Nil)
    requires InputsOf(m, t, at, mergeDir).Some? && j < |InputsOf(m, t, at, mergeDir).value|
    requires var inputs := InputsOf(m, t, at, mergeDir).value;
             KeepsEntries(inputs, KeysOf(Outputs(m, t, at, mergeDir))) && UniqueKeys(inputs)
    requires EmitAll(send, merged).ok
    ensures var input, fs := InputsOf(m, t, at, mergeDir).value[j], Outputs(m, t, at, mergeDir);
            var x := TrimSuffix(Base(input.name), ".ach");
            && input.name == AchName(x) && x in QueuedStems(w) - CanceledStems(w)
            && multiset(EmitAll(send, merged).sent)[FileUploaded(x, m.shard, filename)] ==
               SharingOutputs(input.keys, upload, fs, filename, |fs|)
  {
    InputsSurvive(m, t, at, w, mergeDir);
    SentCount(w, InputsOf(m, t, at, mergeDir).value, upload, m.shard, Outputs(m, t, at, mergeDir), merged, j, filename);
    EmitAllEvents(send, merged);
  }

  lemma OutputsListSharers(w: seq<Request>, inputs: seq<Input>, upload: Upload, shard: string, fs: seq<ACHFile>,
                           merged: seq<MergedFile>, j: nat)
    requires Reported(Some(inputs), UploadAll(upload, shard, fs), true, merged, Nil) && UploadsAll(upload, fs)
    requires KeepsEntries(inputs, KeysOf(fs)) && UniqueKeys(inputs) && DistinctNames(inputs) && j < |inputs|
    requires forall x | x in inputs :: x.name in Survivors(w)
    ensures |merged| == |fs| && forall i: nat | i < |fs| :: ListsSharers(w, shard, inputs[j], upload, fs, merged, i)
  {
    AllUploaded(upload, shard, fs);
    forall i: nat | i < |fs| ensures ListsSharers(w, shard, inputs[j], upload, fs, merged, i) {
      ListedShares(inputs, upload, shard, fs, merged, i, j);
      FoundSurvives(inputs, KeysOf(fs), i, w);
      var names := Found(BuildIndex(inputs), KeysOf(fs), i);
      assert names <= Survivors(w) && merged[i].inputFilepaths == Ascending(names)
             && (inputs[j].name in names <==> Share(inputs[j].keys, Keys(fs[i])));
    }
  }

  // When a cutoff succeeds

  predicate HasEntries(f: ACHFile, b: nat) {
    b < |f.batches| && f.batches[b].entries != []
  }

  lemma SomeKey(f: ACHFile)
    ensures Keys(f) != [] <==> exists b: nat :: HasEntries(f, b)
  {
    if Keys(f) != [] {
      KeyHasEntry(f.batches, Keys(f)[0]);
      var i, j :| Makes(f.batches, Keys(f)[0], i, j);
      assert HasEntries(f, i);
    }
    if b: nat :| HasEntries(f, b) {
      KeyMade(f.batches, MakeKey(f.batches[b].header, f.batches[b].entries[0]), b, 0);
    }
  }

  /** Some uploaded file has an entry. */
  lemma {:induction false} UploadedEntries(upload: Upload, shard: string, fs: seq<ACHFile>)
    ensures AnyEntry(UploadAll(upload, shard, fs)) <==>
            exists i: nat, b: nat :: i < |fs| && upload(i, fs[i]).Some? && HasEntries(fs[i], b)
  {
    if fs != [] {
      var n: nat := |fs| - 1;
      var before, all := UploadAll(upload, shard, fs[..n]), UploadAll(upload, shard, fs);
      UploadedEntries(upload, shard, fs[..n]);
      SomeKey(fs[n]);
      assert AnyEntry(all) <==> AnyEntry(before) || (upload(n, fs[n]).Some? && Keys(fs[n]) != []) by {
        if i :| 0 <= i < |before| && Keys(before[i].file) != [] { assert Keys(all[i].file) != []; }
        if upload(n, fs[n]).Some? && Keys(fs[n]) != [] { assert Keys(all[|before|].file) != []; }
        if i :| 0 <= i < |all| && Keys(all[i].file) != [] { assert i < |before| ==> Keys(before[i].file) != []; }
      }
    }
  }

  /** A cutoff of a window succeeds exactly if merging, flattening, rendering and every upload do and, if
      anything was merged, every surviving file of the window can be read back. It panics exactly if one
      cannot and an output that was uploaded has an entry. */
  lemma CutoffSucceedsIff(m: FilesystemMerging, t: Tree, at: Civil, w: seq<Request>, mergeDir: MergeDir,
                          upload: Upload, merged: seq<MergedFile>, outcome: Outcome)
    requires Valid(at) && Ready(t, m.shard, at, w) && m.Reports(t, at, mergeDir, true, upload, merged, outcome)
    ensures var r, fs := MergedIn(t, m.shard, at, mergeDir), Outputs(m, t, at, mergeDir);
            && (outcome == Nil <==>
                && r.ok && FlattensAll(m.flatten, r.files) && AllRendered(SavedAll(m.codec, fs))
                && UploadsAll(upload, fs) && (fs == [] || AllReadable(m.codec, m.shard, w)))
            && (outcome == Panicked <==>
                !AllReadable(m.codec, m.shard, w)
                && exists i: nat, b: nat :: i < |fs| && upload(i, fs[i]).Some? && HasEntries(fs[i], b))
  {
    var r, fs := MergedIn(t, m.shard, at, mergeDir), Outputs(m, t, at, mergeDir);
    var v, dir := IsolateTree(t, m.shard, at).tree, DirName(m.shard, at);
    IsolateOutcome(t, m.shard, at);
    MappingInWindow(t, m.codec, m.shard, at, w, SavedAll(m.codec, fs));
    if fs != [] {
      IsolatedIsRoomy(t, m.shard, at, w);
      SaveAllLands(MadeTree(v, dir, false), dir, SavedAll(m.codec, fs));
    }
    UploadedEntries(upload, m.shard, fs);
  }

  // The contract on merging can be met

  /** The accepted files of a directory as they are read back, in order. */
  ghost function ParsedAll(t: Tree, codec: Codec, dir: string, names: seq<string>): Option<seq<ACHFile>> {
    if names == [] then Some([])
    else
      var before, file := ParsedAll(t, codec, dir, names[..|names| - 1]), ReadInput(t, codec, dir, names[|names| - 1]);
      if before.None? || file.None? then None else Some(before.value + [file.value])
  }

  lemma {:induction false} ParsedHaveKeys(t: Tree, codec: Codec, dir: string, names: seq<string>)
    ensures ParsedAll(t, codec, dir, names).Some? <==> ReadAll(t, codec, dir, names).Some?
    ensures ParsedAll(t, codec, dir, names).Some? ==>
              InputKeys(ReadAll(t, codec, dir, names).value) == KeysOf(ParsedAll(t, codec, dir, names).value)
    ensures ParsedAll(t, codec, dir, names).Some? ==> |ParsedAll(t, codec, dir, names).value| == |names|
  {
    if names != [] { ParsedHaveKeys(t, codec, dir, names[..|names| - 1]); }
  }

  lemma ReadsSame(v: Tree, u: Tree, codec: Codec, dir: string, n: string)
    requires Saves(v, u, dir)
    ensures ReadInput(u, codec, dir, n) == ReadInput(v, codec, dir, n)
  {
    OpensSame(v, u, dir, n);
    var json := BeforeLastDot(n) + ".json";
    OpensSame(v, u, dir, json);
    assert json[|json| - 1] == 'n' && UPLOADED[|UPLOADED| - 1] == 'd';
  }

  lemma OpensSame(v: Tree, u: Tree, dir: string, n: string)
    requires Saves(v, u, dir)
    ensures [dir, n] in u.files <==> [dir, n] in v.files
    ensures [dir, n] in v.files ==> u.files[[dir, n]] == v.files[[dir, n]]
    ensures n != UPLOADED ==> (u.Opens([dir, n]) <==> v.Opens([dir, n]))
    ensures [dir, n] in v.files ==> (u.Opens([dir, n]) <==> v.Opens([dir, n]))
  {
    assert !([dir, UPLOADED] < [dir, n]);
    assert [dir, n] == [dir, UPLOADED] ==> [dir, n][1] == UPLOADED;
  }

  lemma {:induction false} ReadAllSame(v: Tree, u: Tree, codec: Codec, dir: string, names: seq<string>)
    requires Saves(v, u, dir)
    ensures ReadAll(u, codec, dir, names) == ReadAll(v, codec, dir, names)
  {
    if names != [] {
      ReadAllSame(v, u, codec, dir, names[..|names| - 1]);
      ReadsSame(v, u, codec, dir, names[|names| - 1]);
    }
  }

  /** The files merging is offered, options aside, by their paths. */
  function ToMerge(t: Tree, dir: string, canceled: set<string>): set<string> {
    set n | n in Admitted(dir, canceled, t.FileNames([dir])) && !HasSuffix(n, ".json")
  }

  /** Merging that hands on the files it is offered as they are, or none if one cannot be read. */
  ghost function CopyThrough(codec: Codec): MergeDir {
    (t, dir, canceled) =>
      var fs := ParsedAll(t, codec, dir, Ascending(ToMerge(t, dir, canceled)));
      if fs.None? then MergeResult([], false) else MergeResult(fs.value, true)
  }

  lemma CopiedFiles(m: FilesystemMerging, t: Tree, at: Civil)
    requires Valid(at) && m.flatten == None
    ensures var v, dir, canceled := IsolateTree(t, m.shard, at).tree, DirName(m.shard, at), CanceledIn(t, m.shard, at);
            var fs := ParsedAll(v, m.codec, dir, Ascending(ToMerge(v, dir, canceled)));
            Outputs(m, t, at, CopyThrough(m.codec)) == if fs.None? then [] else fs.value
  {
    var files := MergedIn(t, m.shard, at, CopyThrough(m.codec)).files;
    assert FlattenAll(m.flatten, files) == files;
  }

  lemma ToMergeIsMapped(t: Tree, shard: ShardName, at: Civil, w: seq<Request>)
    requires Valid(at) && Ready(t, shard, at, w)
    ensures var v, dir, canceled := IsolateTree(t, shard, at).tree, DirName(shard, at), CanceledIn(t, shard, at);
            ToMerge(v, dir, canceled) == if Contains(shard, ".canceled") then {} else MappedNames(v, dir, canceled)
  {
    OfferedInWindow(t, shard, at, w);
    MergeableButJson(shard, w);
    CanceledInWindow(t, shard, at, w);
    AcceptedNames(w);
    MergeableButJson("", w);
  }

  /** For every window of every shard, merging that hands on the files it is offered keeps every entry
      of those the mapping reads. */
  lemma CopyThroughKeepsEntries(m: FilesystemMerging, t: Tree, at: Civil, w: seq<Request>)
    requires Valid(at) && Ready(t, m.shard, at, w) && m.flatten == None
    ensures InputsOf(m, t, at, CopyThrough(m.codec)).Some?
    ensures KeepsEntries(InputsOf(m, t, at, CopyThrough(m.codec)).value,
                         KeysOf(Outputs(m, t, at, CopyThrough(m.codec))))
  {
    var fs, u := Outputs(m, t, at, CopyThrough(m.codec)), m.Outbound(t, at, CopyThrough(m.codec), true);
    var dir, canceled := DirName(m.shard, at), CanceledIn(t, m.shard, at);
    if fs == [] {
      NothingMapped(m, t, at, w);
    } else {
      CopiedFiles(m, t, at);
      ToMergeIsMapped(t, m.shard, at, w);
      CutoffKeepsFiles(t, m.shard, at, SavedAll(m.codec, fs));
      ReadBack(IsolateTree(t, m.shard, at).tree, u, m.codec, dir, canceled, fs);
    }
  }

  lemma NothingMapped(m: FilesystemMerging, t: Tree, at: Civil, w: seq<Request>)
    requires Valid(at) && Ready(t, m.shard, at, w) && Outputs(m, t, at, CopyThrough(m.codec)) == []
    ensures InputsOf(m, t, at, CopyThrough(m.codec)) == Some([])
  {
    MappedInWindow(t, m.shard, at, w, []);
    CutoffRefines(t, m.shard, at, true, []);
    assert SavedAll(m.codec, []) == [];
  }

  lemma ReadBack(v: Tree, u: Tree, codec: Codec, dir: string, canceled: set<string>, fs: seq<ACHFile>)
    requires Saves(v, u, dir) && [dir] in u.dirs && u.FileNames([dir]) == v.FileNames([dir])
    requires ParsedAll(v, codec, dir, Ascending(MappedNames(v, dir, canceled))) == Some(fs)
    ensures MappingInputs(u, codec, dir, canceled).Some?
    ensures InputKeys(MappingInputs(u, codec, dir, canceled).value) == KeysOf(fs)
  {
    assert MappedNames(u, dir, canceled) == MappedNames(v, dir, canceled);
    var names := Ascending(MappedNames(v, dir, canceled));
    ReadAllSame(v, u, codec, dir, names);
    ParsedHaveKeys(v, codec, dir, names);
  }

  /** A cutoff that merged something changes no isolated file. */
  lemma CutoffKeepsFiles(t: Tree, shard: ShardName, at: Civil, files: seq<Option<Saved>>)
    requires Valid(at) && Layout(t) && [DirName(shard, at)] !in t.dirs && files != []
    ensures var v, u, dir := IsolateTree(t, shard, at).tree, CutoffTree(t, shard, at, true, files), DirName(shard, at);
            Saves(v, u, dir) && [dir] in u.dirs && u.FileNames([dir]) == v.FileNames([dir])
  {
    var v, u, dir := IsolateTree(t, shard, at).tree, CutoffTree(t, shard, at, true, files), DirName(shard, at);
    IsolateOutcome(t, shard, at);
    FinishSaves(v, dir, true, files);
    CutoffRefines(t, shard, at, true, files);
    KeysAreFileNames(u, [dir]);
    KeysAreFileNames(v, [dir]);
  }
}
