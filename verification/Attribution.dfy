/** Which input files went into which uploaded file: the key index, its destructive search,
    and what the search means (internal/pipeline/merging.go). */
module Attribution {
  import opened Text

  type Key = string

  datatype Batch = Batch(header: string, entries: seq<string>)
  datatype ACHFile = ACHFile(batches: seq<Batch>)

  const KEY_WIDTH := 87

  function Spaces(n: nat): (s: string)
    ensures |s| == n
  {
    if n == 0 then [] else " " + Spaces(n - 1)
  }

  /** The verb %87.87s: cut after 87 characters, filled up with spaces on the left. */
  function Pad(header: string): (s: string)
    ensures |s| == KEY_WIDTH
    ensures |header| >= KEY_WIDTH ==> s == header[..KEY_WIDTH]
  {
    if |header| >= KEY_WIDTH then header[..KEY_WIDTH] else Spaces(KEY_WIDTH - |header|) + header
  }

  function MakeKey(header: string, entry: string): Key {
    Pad(header) + entry
  }

  /** A batch header record is 94 characters, the last 7 of them the batch number (Nacha Operating
      Rules, Appendix Three, company/batch header record, field 13). Keys ignore exactly those. */
  lemma KeyDropsBatchNumber(h1: string, e1: string, h2: string, e2: string)
    requires |h1| == |h2| == 94
    ensures MakeKey(h1, e1) == MakeKey(h2, e2) <==> h1[..94 - 7] == h2[..94 - 7] && e1 == e2
  {
    var a, b := MakeKey(h1, e1), MakeKey(h2, e2);
    assert a[..KEY_WIDTH] == Pad(h1) && a[KEY_WIDTH..] == e1;
    assert b[..KEY_WIDTH] == Pad(h2) && b[KEY_WIDTH..] == e2;
  }

  function BatchKeys(b: Batch): seq<Key> {
    seq(|b.entries|, i requires 0 <= i < |b.entries| => MakeKey(b.header, b.entries[i]))
  }

  function BatchesKeys(bs: seq<Batch>): seq<Key> {
    if bs == [] then [] else BatchesKeys(bs[..|bs| - 1]) + BatchKeys(bs[|bs| - 1])
  }

  function Keys(f: ACHFile): seq<Key> {
    BatchesKeys(f.batches)
  }

  function EntryLists(bs: seq<Batch>): (r: seq<seq<string>>)
    ensures |r| == |bs| && forall i | 0 <= i < |r| :: r[i] == bs[i].entries
  {
    seq(|bs|, i requires 0 <= i < |bs| => bs[i].entries)
  }

  /** Entry `j` of batch `i` has its key in its place: 87 characters of the header and the entry. */
  predicate KeyInPlace(keys: seq<Key>, bs: seq<Batch>, i: nat, j: nat)
    requires i < |bs| && j < |bs[i].entries|
  {
    var at, b := Offset(EntryLists(bs), i) + j, bs[i];
    at < |keys| && (|b.header| >= 87 ==> keys[at] == b.header[..87] + b.entries[j])
  }

  /** One key for each entry, batch by batch. */
  ghost predicate KeyPerEntry(keys: seq<Key>, bs: seq<Batch>) {
    && |keys| == Offset(EntryLists(bs), |bs|)
    && forall i: nat, j: nat | i < |bs| && j < |bs[i].entries| :: KeyInPlace(keys, bs, i, j)
  }

  function KeyLists(bs: seq<Batch>): (r: seq<seq<Key>>)
    ensures |r| == |bs| && forall i | 0 <= i < |r| :: r[i] == BatchKeys(bs[i])
  {
    seq(|bs|, i requires 0 <= i < |bs| => BatchKeys(bs[i]))
  }

  lemma {:induction false} KeysJoined(bs: seq<Batch>)
    ensures Joins(BatchesKeys(bs), KeyLists(bs))
  {
    if bs != [] {
      var n := |bs| - 1;
      KeysJoined(bs[..n]);
      JoinsMore(BatchesKeys(bs[..n]), KeyLists(bs[..n]), BatchKeys(bs[n]));
      assert KeyLists(bs) == KeyLists(bs[..n]) + [BatchKeys(bs[n])];
    }
  }

  lemma KeyOfLongHeader(b: Batch, j: nat)
    requires j < |b.entries|
    ensures |BatchKeys(b)| == |b.entries|
    ensures |b.header| >= 87 ==> BatchKeys(b)[j] == b.header[..87] + b.entries[j]
  {
    assert BatchKeys(b)[j] == MakeKey(b.header, b.entries[j]);
  }

  lemma SamePlaces(bs: seq<Batch>, i: nat)
    requires i <= |bs|
    ensures Offset(EntryLists(bs), i) == Offset(KeyLists(bs), i)
  {
    SameOffset(EntryLists(bs), KeyLists(bs), i);
  }

  lemma KeysInOrder(f: ACHFile)
    ensures KeyPerEntry(Keys(f), f.batches)
  {
    var bs := f.batches;
    KeysJoined(bs);
    SamePlaces(bs, |bs|);
    forall i: nat, j: nat | i < |bs| && j < |bs[i].entries| ensures KeyInPlace(Keys(f), bs, i, j) {
      SamePlaces(bs, i);
      KeyOfLongHeader(bs[i], j);
      JoinsAt(Keys(f), KeyLists(bs), i, j);
    }
  }

  predicate Makes(bs: seq<Batch>, k: Key, i: nat, j: nat) {
    i < |bs| && j < |bs[i].entries| && k == MakeKey(bs[i].header, bs[i].entries[j])
  }

  /** So a key is one of the file's exactly if one of its entries makes it. */
  lemma {:induction false} KeyHasEntry(bs: seq<Batch>, k: Key)
    ensures k in BatchesKeys(bs) <==> exists i, j :: Makes(bs, k, i, j)
  {
    if bs != [] {
      var n := |bs| - 1;
      KeyHasEntry(bs[..n], k);
      if i, j :| Makes(bs, k, i, j) { KeyMade(bs, k, i, j); }
      if i, j :| Makes(bs[..n], k, i, j) { assert Makes(bs, k, i, j); }
      if k in BatchKeys(bs[n]) {
        var j :| 0 <= j < |BatchKeys(bs[n])| && BatchKeys(bs[n])[j] == k;
        assert Makes(bs, k, n, j);
      }
    }
  }

  lemma {:induction false} KeyMade(bs: seq<Batch>, k: Key, i: nat, j: nat)
    requires Makes(bs, k, i, j)
    ensures k in BatchesKeys(bs)
  {
    var n := |bs| - 1;
    if i < n {
      KeyMade(bs[..n], k, i, j);
    } else {
      assert BatchKeys(bs[n])[j] == k;
    }
  }

  /** The same file with its batches numbered anew. */
  ghost predicate Renumbered(f: ACHFile, g: ACHFile) {
    && |f.batches| == |g.batches|
    && forall i | 0 <= i < |f.batches| ::
         && f.batches[i].entries == g.batches[i].entries
         && |f.batches[i].header| == |g.batches[i].header| == 94
         && f.batches[i].header[..87] == g.batches[i].header[..87]
  }

  lemma {:induction false} RenumberingKeepsKeys(f: ACHFile, g: ACHFile)
    requires Renumbered(f, g)
    ensures Keys(f) == Keys(g)
    decreases |f.batches|
  {
    var n := |f.batches|;
    if n > 0 {
      RenumberingKeepsKeys(ACHFile(f.batches[..n - 1]), ACHFile(g.batches[..n - 1]));
      assert BatchKeys(f.batches[n - 1]) == BatchKeys(g.batches[n - 1]);
    }
  }

  // The index

  type Index = map<Key, string>

  datatype Input = Input(name: string, keys: seq<Key>)

  function Label(keys: seq<Key>, name: string): Index {
    map k | k in keys :: name
  }

  /** The index over accepted files in directory order: a later file takes a key over. */
  function BuildIndex(inputs: seq<Input>): Index {
    if inputs == [] then map[]
    else var last := inputs[|inputs| - 1];
      BuildIndex(inputs[..|inputs| - 1]) + Label(last.keys, last.name)
  }

  ghost predicate LastWith(inputs: seq<Input>, k: Key, j: int) {
    0 <= j < |inputs| && k in inputs[j].keys && forall i | j < i < |inputs| :: k !in inputs[i].keys
  }

  /** A key is indexed iff some accepted file has it, under the last such file. */
  lemma {:induction false} IndexNamesLast(inputs: seq<Input>, k: Key)
    ensures k in BuildIndex(inputs) <==> exists j :: LastWith(inputs, k, j)
    ensures forall j | LastWith(inputs, k, j) :: k in BuildIndex(inputs) && BuildIndex(inputs)[k] == inputs[j].name
  {
    var n := |inputs|;
    if n > 0 {
      var rest := inputs[..n - 1];
      IndexNamesLast(rest, k);
      if k in inputs[n - 1].keys {
        assert LastWith(inputs, k, n - 1);
      } else {
        SameLast(inputs, k);
        if j :| LastWith(rest, k, j) { assert LastWith(inputs, k, j); }
        forall j | LastWith(inputs, k, j) ensures k in BuildIndex(inputs) && BuildIndex(inputs)[k] == inputs[j].name {
          assert LastWith(rest, k, j);
        }
      }
    }
  }

  lemma SameLast(inputs: seq<Input>, k: Key)
    requires inputs != [] && k !in inputs[|inputs| - 1].keys
    ensures forall j :: LastWith(inputs, k, j) <==> LastWith(inputs[..|inputs| - 1], k, j)
    ensures forall j | LastWith(inputs, k, j) :: inputs[j] == inputs[..|inputs| - 1][j]
  {
    var rest := inputs[..|inputs| - 1];
    forall j ensures LastWith(inputs, k, j) <==> LastWith(rest, k, j) {
      if LastWith(inputs, k, j) { assert j != |inputs| - 1; }
    }
  }

  // What the search should find

  ghost predicate InEarlier(outs: seq<seq<Key>>, i: nat, k: Key) {
    exists j | 0 <= j < i && j < |outs| :: k in outs[j]
  }

  /** The files owning a key of output `i` that no earlier output has. */
  ghost function Found(index: Index, outs: seq<seq<Key>>, i: nat): set<string>
    requires i < |outs|
  {
    set k | k in outs[i] && k in index && !InEarlier(outs, i, k) :: index[k]
  }

  ghost function Attribute(index: Index, outs: seq<seq<Key>>): seq<seq<string>> {
    seq(|outs|, i requires 0 <= i < |outs| => Ascending(Found(index, outs, i)))
  }

  function AllKeys(outs: seq<seq<Key>>): set<Key> {
    set i, k | 0 <= i < |outs| && k in outs[i] :: k
  }

  // Sorting and compacting a list of names

  function Insert(s: seq<string>, x: string): seq<string> {
    if s == [] then [x] else if Less(s[0], x) then [s[0]] + Insert(s[1..], x) else [x] + s
  }

  function Sort(s: seq<string>): seq<string> {
    if s == [] then [] else Insert(Sort(s[1..]), s[0])
  }

  /** Replaces runs of equal names by one. */
  function Compact(s: seq<string>): seq<string> {
    if |s| < 2 then s
    else if s[0] == s[1] then Compact(s[1..])
    else [s[0]] + Compact(s[1..])
  }

  ghost predicate Sorted(s: seq<string>) {
    forall i, j | 0 <= i < j < |s| :: AtMost(s[i], s[j])
  }

  lemma {:induction false} InsertKeepsNames(s: seq<string>, x: string)
    ensures forall y :: y in Insert(s, x) <==> y in s || y == x
  {
    if s != [] {
      assert s == [s[0]] + s[1..];
      if Less(s[0], x) { InsertKeepsNames(s[1..], x); }
    }
  }

  lemma {:induction false} InsertSorts(s: seq<string>, x: string)
    requires Sorted(s)
    ensures Sorted(Insert(s, x))
  {
    if s != [] && Less(s[0], x) {
      InsertSorts(s[1..], x);
      InsertKeepsNames(s[1..], x);
      var r := Insert(s[1..], x);
      forall i | 0 <= i < |r| ensures AtMost(s[0], r[i]) {
        assert r[i] in r;
      }
    } else if s != [] {
      LessTotal(s[0], x);
      forall i | 0 < i < |s| ensures AtMost(x, s[i]) {
        assert AtMost(s[0], s[i]);
        if x != s[0] && s[i] != s[0] { LessTransitive(x, s[0], s[i]); }
      }
    }
  }

  lemma {:induction false} SortSorts(s: seq<string>)
    ensures Sorted(Sort(s)) && forall y :: y in Sort(s) <==> y in s
  {
    if s != [] {
      assert s == [s[0]] + s[1..];
      SortSorts(s[1..]);
      InsertSorts(Sort(s[1..]), s[0]);
      InsertKeepsNames(Sort(s[1..]), s[0]);
    }
  }

  lemma {:induction false} CompactSorted(s: seq<string>)
    requires Sorted(s)
    ensures StrictlySorted(Compact(s)) && forall x :: x in Compact(s) <==> x in s
    ensures s != [] ==> Compact(s) != [] && Compact(s)[0] == s[0]
  {
    if |s| >= 2 {
      assert s == [s[0]] + s[1..];
      CompactSorted(s[1..]);
      if s[0] != s[1] {
        var r := Compact(s[1..]);
        forall i | 0 <= i < |r| ensures Less(s[0], r[i]) {
          assert Less(s[0], s[1]);
          if i > 0 { LessTransitive(s[0], r[0], r[i]); }
        }
      }
    }
  }

  lemma SortCompact(s: seq<string>, names: set<string>)
    requires forall x :: x in s <==> x in names
    ensures Compact(Sort(s)) == Ascending(names)
  {
    SortSorts(s);
    CompactSorted(Sort(s));
    AscendingUnique(Compact(Sort(s)), names);
  }

  // The code

  /** The third-party ordered map, as far as it is used. */
  class TreeMap {
    var entries: Index

    constructor ()
      ensures entries == map[]
    {
      entries := map[];
    }

    method Set(key: Key, value: string)
      modifies this
      ensures entries == old(entries)[key := value]
    {
      entries := entries[key := value];
    }

    method Del(key: Key)
      modifies this
      ensures entries == old(entries) - {key}
    {
      entries := entries - {key};
    }
  }

  ghost predicate Labeled(before: Index, now: Index, keys: seq<Key>, name: string) {
    now == before + Label(keys, name)
  }

  lemma LabelOne(before: Index, now: Index, keys: seq<Key>, k: Key, name: string)
    requires Labeled(before, now, keys, name)
    ensures Labeled(before, now[k := name], keys + [k], name)
  {
    assert forall x :: x in keys + [k] <==> x in keys || x == k;
  }

  /** Adds every entry of one input file to the index. */
  method AccumulateMappings(tree: TreeMap, file: ACHFile, filename: string)
    modifies tree
    ensures tree.entries == old(tree.entries) + Label(Keys(file), filename)
  {
    ghost var done: seq<Key> := [];
    for i := 0 to |file.batches|
      invariant done == BatchesKeys(file.batches[..i])
      invariant Labeled(old(tree.entries), tree.entries, done, filename)
    {
      var batch := file.batches[i];
      assert file.batches[..i + 1][..i] == file.batches[..i];
      ghost var before, keys := done, BatchKeys(batch);
      for m := 0 to |batch.entries|
        invariant done == before + keys[..m]
        invariant Labeled(old(tree.entries), tree.entries, done, filename)
      {
        LabelOne(old(tree.entries), tree.entries, done, keys[m], filename);
        tree.Set(MakeKey(batch.header, batch.entries[m]), filename);
        done := done + [keys[m]];
      }
    }
    assert file.batches[..|file.batches|] == file.batches;
  }

  datatype MergedFile = MergedFile(inputFilepaths: seq<string>, uploadedFilename: string, file: ACHFile, shard: string)

  ghost function OutputKeys(merged: seq<MergedFile>): (r: seq<seq<Key>>)
    ensures |r| == |merged| && forall i | 0 <= i < |r| :: r[i] == Keys(merged[i].file)
  {
    seq(|merged|, i requires 0 <= i < |merged| => Keys(merged[i].file))
  }

  /** What the search has found in `done` keys, starting from `start` paths. */
  ghost predicate Taken(start: seq<string>, before: Index, now: Index, done: seq<Key>, paths: seq<string>) {
    && now == before - (set k | k in done)
    && forall x :: x in paths <==> x in start || exists k :: k in done && k in before && before[k] == x
  }

  lemma TakeOne(start: seq<string>, before: Index, now: Index, done: seq<Key>, paths: seq<string>, key: Key)
    requires Taken(start, before, now, done, paths)
    ensures Taken(start, before, now - {key}, done + [key], if key in now then paths + [now[key]] else paths)
  {
    assert forall k :: k in done + [key] <==> k in done || k == key;
    var more := if key in now then paths + [now[key]] else paths;
    forall x ensures x in more <==> x in start || exists k :: k in done + [key] && k in before && before[k] == x {
      if k: Key :| k in done + [key] && k in before && before[k] == x {
        assert k in done || k == key;
      }
      if key in now && x == now[key] { assert key in done + [key]; }
    }
  }

  lemma TakeMore(start: seq<string>, t0: Index, t1: Index, t2: Index, d1: seq<Key>, d2: seq<Key>, p1: seq<string>,
      p2: seq<string>)
    requires Taken(start, t0, t1, d1, p1) && Taken(p1, t1, t2, d2, p2)
    ensures Taken(start, t0, t2, d1 + d2, p2)
  {
    var all := d1 + d2;
    assert forall k :: k in all <==> k in d1 || k in d2;
    forall x ensures x in p2 <==> x in start || exists k :: k in all && k in t0 && t0[k] == x {
      if k: Key :| k in all && k in t0 && t0[k] == x {
        assert k in d1 || (k in d2 && k in t1);
      }
    }
  }

  /** The search over the entries of one batch: takes each key it finds out of the index. */
  method TakeBatch(tree: TreeMap, batch: Batch, start: seq<string>) returns (paths: seq<string>)
    modifies tree
    ensures Taken(start, old(tree.entries), tree.entries, BatchKeys(batch), paths)
  {
    paths := start;
    ghost var keys := BatchKeys(batch);
    for m := 0 to |batch.entries|
      invariant Taken(start, old(tree.entries), tree.entries, keys[..m], paths)
    {
      var key := MakeKey(batch.header, batch.entries[m]);
      TakeOne(start, old(tree.entries), tree.entries, keys[..m], paths, key);
      assert keys[..m + 1] == keys[..m] + [key];
      if key in tree.entries {
        paths := paths + [tree.entries[key]];
        tree.Del(key);
      } else {
        assert tree.entries - {key} == tree.entries;
      }
    }
    assert keys[..|batch.entries|] == keys;
  }

  /** The search over all batches of one output. */
  method TakeKeys(tree: TreeMap, file: ACHFile, start: seq<string>) returns (paths: seq<string>)
    modifies tree
    ensures Taken(start, old(tree.entries), tree.entries, Keys(file), paths)
  {
    paths := start;
    for j := 0 to |file.batches|
      invariant Taken(start, old(tree.entries), tree.entries, BatchesKeys(file.batches[..j]), paths)
    {
      assert file.batches[..j + 1][..j] == file.batches[..j];
      ghost var before, had := tree.entries, paths;
      paths := TakeBatch(tree, file.batches[j], paths);
      TakeMore(start, old(tree.entries), before, tree.entries, BatchesKeys(file.batches[..j]),
          BatchKeys(file.batches[j]), had, paths);
    }
    assert file.batches[..|file.batches|] == file.batches;
  }

  /** The destructive search over all outputs gives each the files the specification names (after
      those it already had), in strictly ascending order, and leaves the index without any key
      of an output. */
  method FindInputFilepaths(tree: TreeMap, merged: seq<MergedFile>) returns (out: seq<MergedFile>)
    modifies tree
    ensures |out| == |merged|
    ensures forall i | 0 <= i < |merged| :: Attributed(old(tree.entries), OutputKeys(merged), i, merged[i], out[i])
    ensures tree.entries == old(tree.entries) - AllKeys(OutputKeys(merged))
  {
    ghost var index, outs := tree.entries, OutputKeys(merged);
    out := [];
    for i := 0 to |merged|
      invariant |out| == i
      invariant forall j | 0 <= j < i :: Attributed(index, outs, j, merged[j], out[j])
      invariant tree.entries == index - AllKeys(outs[..i])
    {
      ghost var entries := tree.entries;
      var paths := TakeKeys(tree, merged[i].file, merged[i].inputFilepaths);
      OneOutput(index, entries, tree.entries, outs, i, merged[i], paths);
      out := out + [merged[i].(inputFilepaths := Compact(Sort(paths)))];
    }
    assert outs[..|merged|] == outs;
  }

  ghost predicate Attributed(index: Index, outs: seq<seq<Key>>, i: nat, m: MergedFile, r: MergedFile)
    requires i < |outs|
  {
    r == m.(inputFilepaths := Ascending((set p | p in m.inputFilepaths) + Found(index, outs, i)))
  }

  lemma OneOutput(index: Index, entries: Index, now: Index, outs: seq<seq<Key>>, i: nat, m: MergedFile,
      paths: seq<string>)
    requires i < |outs| && entries == index - AllKeys(outs[..i])
    requires Taken(m.inputFilepaths, entries, now, outs[i], paths)
    ensures Attributed(index, outs, i, m, m.(inputFilepaths := Compact(Sort(paths))))
    ensures now == index - AllKeys(outs[..i + 1])
  {
    EarlierKeys(outs, i);
    FoundPaths(index, entries, outs, i, m, paths);
    SortCompact(paths, (set p | p in m.inputFilepaths) + Found(index, outs, i));
    AllKeysMore(outs, i);
    RemovedTwice(index, AllKeys(outs[..i]), set k | k in outs[i]);
  }

  lemma RemovedTwice(index: Index, a: set<Key>, b: set<Key>)
    ensures index - a - b == index - (a + b)
  {
  }

  lemma EarlierKeys(outs: seq<seq<Key>>, i: nat)
    requires i < |outs|
    ensures forall k :: k in AllKeys(outs[..i]) <==> InEarlier(outs, i, k)
  {
    forall k ensures k in AllKeys(outs[..i]) <==> InEarlier(outs, i, k) {
      if k in AllKeys(outs[..i]) {
        var j :| 0 <= j < i && k in outs[..i][j];
        assert k in outs[j];
      }
      if j :| 0 <= j < i && j < |outs| && k in outs[j] {
        assert k in outs[..i][j];
      }
    }
  }

  lemma FoundPaths(index: Index, entries: Index, outs: seq<seq<Key>>, i: nat, m: MergedFile, paths: seq<string>)
    requires i < |outs| && entries == index - AllKeys(outs[..i])
    requires forall k :: k in AllKeys(outs[..i]) <==> InEarlier(outs, i, k)
    requires forall x :: x in paths <==>
        x in m.inputFilepaths || exists k :: k in outs[i] && k in entries && entries[k] == x
    ensures forall x :: x in paths <==> x in (set p | p in m.inputFilepaths) + Found(index, outs, i)
  {
    assert forall k :: k in entries <==> k in index && !InEarlier(outs, i, k);
  }

  lemma AllKeysMore(outs: seq<seq<Key>>, i: nat)
    requires i < |outs|
    ensures AllKeys(outs[..i + 1]) == AllKeys(outs[..i]) + (set k | k in outs[i])
  {
    var some, more := outs[..i], outs[..i + 1];
    assert more[i] == outs[i];
    assert forall j | 0 <= j < i :: more[j] == some[j];
  }
}
