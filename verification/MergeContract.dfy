/** What the attribution means when merging keeps entries: the merge library is not part of this
    model and enters as a contract on the multiset of keys. */
module MergeContract {
  import opened Attribution

  /** All keys of several files, with multiplicity. */
  function Total(files: seq<seq<Key>>): multiset<Key> {
    if files == [] then multiset{} else Total(files[..|files| - 1]) + multiset(files[|files| - 1])
  }

  function InputKeys(inputs: seq<Input>): (r: seq<seq<Key>>)
    ensures |r| == |inputs| && forall i | 0 <= i < |r| :: r[i] == inputs[i].keys
  {
    seq(|inputs|, i requires 0 <= i < |inputs| => inputs[i].keys)
  }

  /** Merging and flattening lose and invent no entry. */
  ghost predicate KeepsEntries(inputs: seq<Input>, merged: seq<seq<Key>>) {
    Total(merged) == Total(InputKeys(inputs))
  }

  /** The outputs that were uploaded are some of the merged ones, in order. */
  ghost predicate Uploaded(merged: seq<seq<Key>>, outs: seq<seq<Key>>) {
    if merged == [] then outs == []
    else
      var n := |merged| - 1;
      || Uploaded(merged[..n], outs)
      || (outs != [] && outs[|outs| - 1] == merged[n] && Uploaded(merged[..n], outs[..|outs| - 1]))
  }

  ghost predicate UniqueKeys(inputs: seq<Input>) {
    forall k :: Total(InputKeys(inputs))[k] <= 1
  }

  /** A directory has no two files of one name. */
  ghost predicate DistinctNames(inputs: seq<Input>) {
    forall i, j | 0 <= i < j < |inputs| :: inputs[i].name != inputs[j].name
  }

  lemma {:induction false} UploadedTotal(merged: seq<seq<Key>>, outs: seq<seq<Key>>)
    requires Uploaded(merged, outs)
    ensures Total(outs) <= Total(merged)
  {
    if merged != [] {
      var n := |merged| - 1;
      if Uploaded(merged[..n], outs) {
        UploadedTotal(merged[..n], outs);
      } else {
        UploadedTotal(merged[..n], outs[..|outs| - 1]);
      }
    }
  }

  lemma {:induction false} TotalAtLeast(files: seq<seq<Key>>, i: nat, k: Key)
    requires i < |files|
    ensures multiset(files[i])[k] <= Total(files)[k]
  {
    var n := |files| - 1;
    if i < n { TotalAtLeast(files[..n], i, k); }
  }

  lemma {:induction false} TotalOfTwo(files: seq<seq<Key>>, i: nat, j: nat, k: Key)
    requires i < j < |files|
    ensures multiset(files[i])[k] + multiset(files[j])[k] <= Total(files)[k]
  {
    var n := |files| - 1;
    if j < n { TotalOfTwo(files[..n], i, j, k); } else { TotalAtLeast(files[..n], i, k); }
  }

  lemma {:induction false} TotalHasOwner(files: seq<seq<Key>>, k: Key)
    requires k in Total(files)
    ensures exists i :: 0 <= i < |files| && k in files[i]
  {
    var n := |files| - 1;
    if k in files[n] {
      assert 0 <= n < |files| && k in files[n];
    } else {
      assert k !in multiset(files[n]);
      TotalHasOwner(files[..n], k);
      var i :| 0 <= i < n && k in files[..n][i];
      assert k in files[i];
    }
  }

  /** In a file list where no key occurs twice, a key has one owner. */
  lemma OneOwner(files: seq<seq<Key>>, i: nat, j: nat, k: Key)
    requires Total(files)[k] <= 1 && i < |files| && j < |files| && k in files[i] && k in files[j]
    ensures i == j
  {
    assert multiset(files[i])[k] >= 1 && multiset(files[j])[k] >= 1;
    if i < j { TotalOfTwo(files, i, j, k); }
    if j < i { TotalOfTwo(files, j, i, k); }
  }

  /** Without any assumption on the keys: an input is listed for an output exactly if some key
      of the output is in no earlier output and that input is the last one with it. */
  lemma ListedIff(inputs: seq<Input>, outs: seq<seq<Key>>, i: nat, j: nat)
    requires DistinctNames(inputs) && i < |outs| && j < |inputs|
    ensures inputs[j].name in Attribute(BuildIndex(inputs), outs)[i] <==>
            exists k :: k in outs[i] && LastWith(inputs, k, j) && !InEarlier(outs, i, k)
  {
    var index := BuildIndex(inputs);
    if k :| k in outs[i] && LastWith(inputs, k, j) && !InEarlier(outs, i, k) {
      IndexNamesLast(inputs, k);
      assert inputs[j].name in Found(index, outs, i);
    }
    if inputs[j].name in Found(index, outs, i) {
      var k :| k in outs[i] && k in index && !InEarlier(outs, i, k) && index[k] == inputs[j].name;
      IndexNamesLast(inputs, k);
      var l :| LastWith(inputs, k, l);
      assert l == j;
    }
  }

  ghost predicate Share(a: seq<Key>, b: seq<Key>) {
    exists k :: k in a && k in b
  }

  /** Under the contract and with every key once: an input is listed for an uploaded output
      exactly if they share an entry. */
  lemma ListedIffShared(inputs: seq<Input>, merged: seq<seq<Key>>, outs: seq<seq<Key>>, i: nat, j: nat)
    requires KeepsEntries(inputs, merged) && Uploaded(merged, outs)
    requires UniqueKeys(inputs) && DistinctNames(inputs)
    requires i < |outs| && j < |inputs|
    ensures inputs[j].name in Attribute(BuildIndex(inputs), outs)[i] <==> Share(inputs[j].keys, outs[i])
  {
    UploadedTotal(merged, outs);
    ListedIff(inputs, outs, i, j);
    if k :| k in inputs[j].keys && k in outs[i] {
      assert Total(outs)[k] <= 1;
      forall l | j < l < |inputs| ensures k !in inputs[l].keys {
        if k in inputs[l].keys { OneOwner(InputKeys(inputs), j, l, k); }
      }
      if InEarlier(outs, i, k) {
        var l :| 0 <= l < i && l < |outs| && k in outs[l];
        OneOwner(outs, l, i, k);
      }
      assert LastWith(inputs, k, j) && !InEarlier(outs, i, k);
    }
  }

  /** Nothing goes unreported: if every merged file was uploaded, each input with an entry is
      listed for some output, and each of its entries is in exactly one output. */
  lemma EveryInputListed(inputs: seq<Input>, merged: seq<seq<Key>>, j: nat, k: Key)
    requires KeepsEntries(inputs, merged) && UniqueKeys(inputs) && DistinctNames(inputs)
    requires j < |inputs| && k in inputs[j].keys
    ensures exists i :: 0 <= i < |merged| && k in merged[i]
                        && inputs[j].name in Attribute(BuildIndex(inputs), merged)[i]
    ensures forall i, l | 0 <= i < |merged| && 0 <= l < |merged| && k in merged[i] && k in merged[l] :: i == l
  {
    TotalAtLeast(InputKeys(inputs), j, k);
    assert multiset(InputKeys(inputs)[j])[k] >= 1;
    TotalHasOwner(merged, k);
    var i :| 0 <= i < |merged| && k in merged[i];
    UploadedAll(merged);
    ListedIffShared(inputs, merged, merged, i, j);
    assert Share(inputs[j].keys, merged[i]);
    forall i, l | 0 <= i < |merged| && 0 <= l < |merged| && k in merged[i] && k in merged[l] ensures i == l {
      OneOwner(merged, i, l, k);
    }
  }

  lemma {:induction false} UploadedAll(merged: seq<seq<Key>>)
    ensures Uploaded(merged, merged)
  {
    if merged != [] { UploadedAll(merged[..|merged| - 1]); }
  }

  /** A key that occurs twice, even in one file, can be spread over two outputs; then only the
      first of them lists the file. */
  lemma RepeatedKeyListedOnce(k: Key, name: string)
    ensures var inputs := [Input(name, [k, k])];
            var outs := [[k], [k]];
            && KeepsEntries(inputs, outs) && DistinctNames(inputs)
            && Share(inputs[0].keys, outs[1])
            && name !in Attribute(BuildIndex(inputs), outs)[1]
  {
    var inputs := [Input(name, [k, k])];
    var outs := [[k], [k]];
    assert outs[..1] == [[k]] && outs[..1][..0] == [];
    assert Total(outs) == Total([[k]]) + multiset{k};
    assert Total([[k]]) == Total([]) + multiset{k} by { assert [[k]][..0] == []; }
    assert InputKeys(inputs) == [[k, k]] && [[k, k]][..0] == [];
    assert Total([[k, k]]) == Total([]) + multiset([k, k]);
    assert k in inputs[0].keys && k in outs[1] && k in outs[0];
    assert InEarlier(outs, 1, k);
  }
}
