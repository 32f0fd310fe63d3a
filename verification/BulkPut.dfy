/** Preparing records and grouping them for bulk puts (`_prepare_put_item`,
    `_group_for_bulk_put`). */
module BulkPut {
  import opened Common
  import opened Grouping

  /** A record; putting it stamps it in place. */
  class RecordModel {
    const id: string
    const partitionKey: string
    var created: Option<int>
    var updated: Option<int>

    constructor (id: string, partitionKey: string, created: Option<int>, updated: Option<int>)
      ensures this.id == id && this.partitionKey == partitionKey
      ensures this.created == created && this.updated == updated
    {
      this.id, this.partitionKey := id, partitionKey;
      this.created, this.updated := created, updated;
    }
  }

  /** The JSON form of a record at the time it was prepared. */
  datatype Doc = Doc(id: string, key: string, created: Option<int>, updated: Option<int>)

  type Group = (string, seq<Doc>)

  method PreparePutItem(model: RecordModel) returns (item: Doc)
    modifies model
    ensures old(model.created).None? ==> model.created.Some? && model.updated == old(model.updated)
    ensures old(model.created).Some? ==> model.created == old(model.created) && model.updated.Some?
    ensures item == Doc(model.id, model.partitionKey, model.created, model.updated)
  {
    var now: int := *;
    if model.created.None? {
      model.created := Some(now);
    } else {
      model.updated := Some(now);
    }
    item := Doc(model.id, model.partitionKey, model.created, model.updated);
  }

  // ---------------------------------------------------------------- runs of equal keys

  /** A non-empty run of docs with one key. */
  ghost predicate IsRun(run: seq<Doc>) {
    run != [] && forall d :: d in run ==> d.key == run[0].key
  }

  /** What `groupby` yields: runs that are maximal because neighbours have different keys. */
  ghost predicate MaximalRuns(runs: seq<seq<Doc>>) {
    && (forall run :: run in runs ==> IsRun(run))
    && (forall i, j :: 0 <= i && j == i + 1 && j < |runs| && runs[i] != [] && runs[j] != [] ==>
          runs[i][0].key != runs[j][0].key)
  }

  function WithKey(key: string, parts: seq<seq<Doc>>): seq<Group> {
    seq(|parts|, i requires 0 <= i < |parts| => (key, parts[i]))
  }

  /** The groups of one run. */
  function GroupsOfRun(run: seq<Doc>, size: nat): seq<Group> {
    if run == [] then [] else WithKey(run[0].key, Grouped(run, size))
  }

  /** The groups that the nested generator loop yields for the prepared runs. */
  function GroupsOf(runs: seq<seq<Doc>>, size: nat): seq<Group> {
    if runs == [] then [] else GroupsOf(runs[..|runs| - 1], size) + GroupsOfRun(runs[|runs| - 1], size)
  }

  ghost function Items(gs: seq<Group>): seq<seq<Doc>> {
    seq(|gs|, i requires 0 <= i < |gs| => gs[i].1)
  }

  lemma RunItems(run: seq<Doc>, size: nat)
    requires size > 0
    ensures Flatten(Items(GroupsOfRun(run, size))) == run
  {
    GroupedKeepsAll(run, size);
    assert Items(GroupsOfRun(run, size)) == Grouped(run, size);
  }

  lemma ItemsAppend(a: seq<Group>, b: seq<Group>)
    ensures Items(a + b) == Items(a) + Items(b)
  {
  }

  /** The groups hold the docs in order; a group size of 0 drops them all. */
  lemma {:induction false} GroupsKeepAll(runs: seq<seq<Doc>>, size: nat)
    ensures size > 0 ==> Flatten(Items(GroupsOf(runs, size))) == Flatten(runs)
    ensures size == 0 ==> GroupsOf(runs, size) == []
  {
    if runs != [] {
      var front, last := runs[..|runs| - 1], runs[|runs| - 1];
      GroupsKeepAll(front, size);
      if size > 0 {
        RunItems(last, size);
        ItemsAppend(GroupsOf(front, size), GroupsOfRun(last, size));
        FlattenAppend(Items(GroupsOf(front, size)), Items(GroupsOfRun(last, size)));
      }
    } else {
      assert Items([]) == [];
    }
  }

  ghost predicate GroupOk(g: Group, size: nat) {
    1 <= |g.1| <= size && forall d :: d in g.1 ==> d.key == g.0
  }

  /** Each group holds between 1 and `size` docs, all with the key of the group. */
  lemma {:induction false} GroupsWellFormed(runs: seq<seq<Doc>>, size: nat)
    requires forall run :: run in runs ==> IsRun(run)
    ensures forall g :: g in GroupsOf(runs, size) ==> GroupOk(g, size)
  {
    if runs != [] {
      var last := runs[|runs| - 1];
      GroupsWellFormed(runs[..|runs| - 1], size);
      GroupedElements(last, size);
      forall g | g in GroupsOfRun(last, size)
        ensures GroupOk(g, size)
      {
        assert g.1 in Grouped(last, size) && IsRun(last);
      }
    }
  }

  lemma GroupsNext(runs: seq<seq<Doc>>, size: nat, i: nat)
    requires i < |runs|
    ensures GroupsOf(runs[..i + 1], size) == GroupsOf(runs[..i], size) + GroupsOfRun(runs[i], size)
  {
    var upTo := runs[..i + 1];
    assert upTo[..i] == runs[..i] && upTo[i] == runs[i];
  }

  /** A run of length r yields exactly r / size groups, rounded up. */
  lemma RunGroupCount(run: seq<Doc>, size: nat)
    requires size > 0 && run != []
    ensures |GroupsOfRun(run, size)| == (|run| + size - 1) / size
  {
    GroupedCount(run, size);
  }

  /** The groups of the `i`-th run follow those of the runs before it. */
  lemma GroupsOfRunInPlace(runs: seq<seq<Doc>>, size: nat, i: nat)
    requires i < |runs|
    ensures GroupsOf(runs[..i], size) + GroupsOfRun(runs[i], size) <= GroupsOf(runs, size)
  {
    GroupsNext(runs, size, i);
    GroupsPrefix(runs, size, i + 1);
  }

  lemma {:induction false} GroupsPrefix(runs: seq<seq<Doc>>, size: nat, i: nat)
    requires i <= |runs|
    ensures GroupsOf(runs[..i], size) <= GroupsOf(runs, size)
  {
    if i == |runs| {
      assert runs[..i] == runs;
    } else {
      GroupsPrefix(runs[..|runs| - 1], size, i);
      assert runs[..|runs| - 1][..i] == runs[..i];
    }
  }

  // ---------------------------------------------------------------- the generator

  /** The time stamps of a record. */
  datatype Stamps = Stamps(created: Option<int>, updated: Option<int>)

  /** What preparing promises about the doc of the `i`-th model, whose stamps were `was[i]`. */
  ghost predicate PreparedDoc(models: seq<RecordModel>, was: seq<Stamps>, i: nat, d: Doc)
    requires i < |models| == |was|
  {
    && d.id == models[i].id && d.key == models[i].partitionKey
    && d.created.Some?
    && (was[i].created.Some? ==> d.created == was[i].created && d.updated.Some?)
    && (models[i] !in models[..i] && was[i].created.None? ==> d.updated == was[i].updated)
  }

  /** The first `|docs|` models have been prepared into `docs`; models that occur only later
      are as they were, and no creation time was overwritten. */
  ghost predicate PreparedSoFar(models: seq<RecordModel>, was: seq<Stamps>, docs: seq<Doc>)
    reads models
  {
    && |docs| <= |models| == |was|
    && (forall k :: 0 <= k < |docs| ==> PreparedDoc(models, was, k, docs[k]))
    && (forall k :: |docs| <= k < |models| && models[k] !in models[..|docs|] ==>
          Stamps(models[k].created, models[k].updated) == was[k])
    && (forall k :: 0 <= k < |models| && was[k].created.Some? ==> models[k].created == was[k].created)
  }

  method GroupsOfOneRun(key: string, run: seq<Doc>, size: nat) returns (groups: seq<Group>)
    requires IsRun(run) && run[0].key == key
    ensures groups == GroupsOfRun(run, size)
  {
    groups := [];
    var parts := Grouped(run, size);
    for p := 0 to |parts|
      invariant groups == WithKey(key, parts[..p])
    {
      assert WithKey(key, parts[..p + 1]) == WithKey(key, parts[..p]) + [(key, parts[p])];
      groups := groups + [(key, parts[p])];
    }
    assert parts[..|parts|] == parts;
  }

  /** The runs so far and their groups; the last run, if any, does not have the key `next`. */
  ghost predicate RunsSoFar(runs: seq<seq<Doc>>, docs: seq<Doc>, groups: seq<Group>, size: nat, next: Option<string>) {
    && MaximalRuns(runs)
    && Flatten(runs) == docs
    && groups == GroupsOf(runs, size)
    && (runs != [] && runs[|runs| - 1] != [] && next.Some? ==> runs[|runs| - 1][0].key != next.value)
  }

  lemma MaximalRunsSnoc(runs: seq<seq<Doc>>, run: seq<Doc>)
    requires MaximalRuns(runs) && IsRun(run)
    requires runs != [] && runs[|runs| - 1] != [] ==> runs[|runs| - 1][0].key != run[0].key
    ensures MaximalRuns(runs + [run])
  {
    var more := runs + [run];
    forall r | r in more
      ensures IsRun(r)
    {
      assert r in runs || r == run;
    }
  }

  lemma GroupsSnoc(runs: seq<seq<Doc>>, run: seq<Doc>, size: nat)
    ensures GroupsOf(runs + [run], size) == GroupsOf(runs, size) + GroupsOfRun(run, size)
  {
    assert (runs + [run])[..|runs|] == runs;
  }

  lemma RunsSnoc(runs: seq<seq<Doc>>, docs: seq<Doc>, groups: seq<Group>, size: nat, run: seq<Doc>,
                 next: Option<string>)
    requires IsRun(run) && RunsSoFar(runs, docs, groups, size, Some(run[0].key))
    requires next.Some? ==> run[0].key != next.value
    ensures RunsSoFar(runs + [run], docs + run, groups + GroupsOfRun(run, size), size, next)
  {
    FlattenSnoc(runs, run);
    MaximalRunsSnoc(runs, run);
    GroupsSnoc(runs, run, size);
  }

  function StampsOf(models: seq<RecordModel>): seq<Stamps>
    reads models
  {
    seq(|models|, i requires 0 <= i < |models| reads models => Stamps(models[i].created, models[i].updated))
  }

  function KeyAt(models: seq<RecordModel>, i: nat): Option<string> {
    if i < |models| then Some(models[i].partitionKey) else None
  }

  method PrepareNext(models: seq<RecordModel>, ghost was: seq<Stamps>, ghost docs: seq<Doc>, model: RecordModel)
    returns (item: Doc)
    requires PreparedSoFar(models, was, docs) && |docs| < |models| && model == models[|docs|]
    modifies models
    ensures PreparedSoFar(models, was, docs + [item]) && item.key == model.partitionKey
  {
    item := PreparePutItem(model);
    ghost var i := |docs|;
    assert models[..i + 1] == models[..i] + [model];
    assert PreparedDoc(models, was, i, item);
  }

  /** The comprehension over one run: prepares models as long as the key stays the same. */
  method PrepareRun(models: seq<RecordModel>, ghost was: seq<Stamps>, docs: seq<Doc>) returns (run: seq<Doc>)
    requires PreparedSoFar(models, was, docs) && |docs| < |models|
    modifies models
    ensures PreparedSoFar(models, was, docs + run)
    ensures IsRun(run) && run[0].key == models[|docs|].partitionKey
    ensures KeyAt(models, |docs + run|) != Some(run[0].key)
  {
    var key := models[|docs|].partitionKey;
    run := [];
    var i := |docs|;
    while i < |models| && models[i].partitionKey == key
      invariant i == |docs| + |run| <= |models|
      invariant run == [] ==> i < |models| && models[i].partitionKey == key
      invariant PreparedSoFar(models, was, docs + run)
      invariant forall d :: d in run ==> d.key == key
    {
      var item := PrepareNext(models, was, docs + run, models[i]);
      assert docs + (run + [item]) == docs + run + [item];
      run := run + [item];
      i := i + 1;
    }
  }

  /** `_group_for_bulk_put`: consecutive models with equal partition keys are prepared
      together and their docs cut into groups of at most `size`. `docs` are the prepared docs
      in input order, `runs` the runs that `groupby` makes of them. */
  method GroupForBulkPut(models: seq<RecordModel>, size: nat)
    returns (groups: seq<Group>, docs: seq<Doc>, runs: seq<seq<Doc>>)
    modifies models
    ensures PreparedSoFar(models, old(StampsOf(models)), docs) && |docs| == |models|
    ensures MaximalRuns(runs) && Flatten(runs) == docs
    ensures groups == GroupsOf(runs, size)
  {
    groups, docs, runs := [], [], [];
    ghost var was := StampsOf(models);
    while |docs| < |models|
      invariant PreparedSoFar(models, was, docs)
      invariant RunsSoFar(runs, docs, groups, size, KeyAt(models, |docs|))
      decreases |models| - |docs|
    {
      var run := PrepareRun(models, was, docs);
      var parts := GroupsOfOneRun(run[0].key, run, size);
      RunsSnoc(runs, docs, groups, size, run, KeyAt(models, |docs + run|));
      docs := docs + run;
      groups := groups + parts;
      runs := runs + [run];
    }
  }
}
