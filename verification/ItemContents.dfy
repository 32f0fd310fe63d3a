/** What the records of the create-items task hold, in terms of the items that the create function
    yields. */
module ItemContents {
  import opened Common
  import opened ItemRecords
  import opened ItemStream
  import QP = QueueProtocol

  /** The create function yields the item for the message. */
  ghost predicate Yields(c: Config, m: QP.MsgId, item: Item) {
    c.contentOf(m).Event? && c.create(c.contentOf(m).url).Items? && item in c.create(c.contentOf(m).url).items
  }

  /** The record of the item itself. */
  predicate ShowsItem(r: Record, item: Item) {
    && r.StacItem? && r.stacId == item.collectionId + "/" + item.id
    && r.version == item.version && r.body == item.body
  }

  /** The record of its update by a run. */
  predicate ShowsUpdate(r: Record, item: Item, runId: string) {
    && r.ItemUpdated? && r.stacId == item.collectionId + "/" + item.id
    && r.version == Some(if item.version.None? then "" else item.version.value) && r.runId == runId
  }

  /** The partition key and record id of the item record. */
  function ItemKey(item: Item): Key {
    (item.collectionId + "/" + item.id,
     item.collectionId + ":" + item.id + ":" + (if item.version.None? then "None" else item.version.value)
       + ":StacItem")
  }

  /** Those of the update record. */
  function UpdateKey(item: Item): Key {
    (item.collectionId + "/" + item.id,
     item.collectionId + ":" + item.id + ":" + (if item.version.None? then "" else item.version.value)
       + ":ItemUpdated")
  }

  lemma RecordShows(item: Item, runId: string)
    requires ValidItem(item)
    ensures ShowsItem(ItemRecord(item), item) && KeyOf(ItemRecord(item)) == ItemKey(item)
    ensures ShowsUpdate(UpdateRecord(item, runId), item, runId) && KeyOf(UpdateRecord(item, runId)) == UpdateKey(item)
  {
    ValidItemMeans(item);
    var start := item.collectionId + ":" + item.id + ":";
    assert IdPrefix(StacId(item)) == start;
    assert ":" + "StacItem" == ":StacItem" && ":" + "ItemUpdated" == ":ItemUpdated";
    Assoc(start, VersionText(item.version), ":StacItem");
    Assoc(start, VersionText(Recorded(item.version)), ":ItemUpdated");
  }

  /** Worker `w` received `m` and was to put this record for an item of it. */
  ghost predicate PutFor(c: Config, run: seq<QP.Event>, k: Key, r: Record, w: QP.WorkerId, m: QP.MsgId, item: Item) {
    && QP.Receive(w, m) in run && Yields(c, m, item)
    && ((ShowsItem(r, item) && k == ItemKey(item)) || (ShowsUpdate(r, item, c.runOf(w)) && k == UpdateKey(item)))
  }

  ghost predicate HasOrigin(c: Config, run: seq<QP.Event>, k: Key, r: Record) {
    exists w, m, item :: PutFor(c, run, k, r, w, m, item)
  }

  ghost predicate StoreHasOrigins(c: Config, run: seq<QP.Event>, store: Store) {
    forall k :: k in store ==> HasOrigin(c, run, k, store[k])
  }

  ghost predicate BusyReceived(run: seq<QP.Event>, s: QP.State) {
    forall w :: w in s.busy ==> QP.Receive(w, s.busy[w].msg) in run
  }

  lemma OriginLater(c: Config, front: seq<QP.Event>, e: QP.Event, k: Key, r: Record)
    requires HasOrigin(c, front, k, r)
    ensures HasOrigin(c, front + [e], k, r)
  {
    var w, m, item :| PutFor(c, front, k, r, w, m, item);
    assert PutFor(c, front + [e], k, r, w, m, item);
  }

  /** The records of a plan show the items of the message. */
  lemma PlanShows(c: Config, run: seq<QP.Event>, w: QP.WorkerId, m: QP.MsgId, i: nat)
    requires QP.Receive(w, m) in run
    requires PlanFor(c, m, c.runOf(w)).Puts? && i < |PlanFor(c, m, c.runOf(w)).records|
    ensures var r := PlanFor(c, m, c.runOf(w)).records[i]; HasOrigin(c, run, KeyOf(r), r)
  {
    var items := ProcessMessage(c.create, c.contentOf(m)).items;
    var r := PlanFor(c, m, c.runOf(w)).records[i];
    var item := items[if i < |items| then i else i - |items|];
    assert ValidItem(item);
    RecordShows(item, c.runOf(w));
    assert item in items && Yields(c, m, item);
    assert r == if i < |items| then ItemRecord(item) else UpdateRecord(item, c.runOf(w));
    assert PutFor(c, run, KeyOf(r), r, w, m, item);
  }

  lemma OriginsStep(c: Config, front: seq<QP.Event>, s: State, e: QP.Event)
    requires StoreHasOrigins(c, front, s.store) && BusyReceived(front, s.q) && Enabled(c, s, e)
    ensures StoreHasOrigins(c, front + [e], Apply(c, s, e).store)
    ensures BusyReceived(front + [e], Apply(c, s, e).q)
  {
    var after := Apply(c, s, e).store;
    forall k | k in after
      ensures HasOrigin(c, front + [e], k, after[k])
    {
      if k in s.store && after[k] == s.store[k] {
        OriginLater(c, front, e, k, after[k]);
      } else {
        var d := s.q.busy[e.w];
        PlanShows(c, front, e.w, d.msg, d.done);
        OriginLater(c, front, e, k, after[k]);
      }
    }
  }

  lemma {:induction false} Origins(c: Config, run: seq<QP.Event>)
    requires After(c, run).Some?
    ensures StoreHasOrigins(c, run, After(c, run).value.store) && BusyReceived(run, After(c, run).value.q)
  {
    if run != [] {
      var front := run[..|run| - 1];
      Origins(c, front);
      OriginsStep(c, front, After(c, front).value, run[|run| - 1]);
      assert run == front + [run[|run| - 1]];
    }
  }

  /** Every record in the store, in every run: it was put for an item that the create function yields
      for a message; an item record under that item's key has its body and version, an update record
      has its version and the run id of a worker that received the message. */
  lemma RecordOrigin(c: Config, run: seq<QP.Event>, k: Key)
    requires After(c, run).Some? && k in After(c, run).value.store
    ensures exists w, m, item :: PutFor(c, run, k, After(c, run).value.store[k], w, m, item)
  {
    Origins(c, run);
    assert HasOrigin(c, run, k, After(c, run).value.store[k]);
  }

  ghost predicate SameKeyParts(x: Item, y: Item) {
    x.collectionId == y.collectionId && x.id == y.id && VersionText(x.version) == VersionText(y.version)
  }

  /** No message that was received has another item with this collection, id and version. */
  ghost predicate OnlyItem(c: Config, run: seq<QP.Event>, item: Item) {
    forall w, m, x :: QP.Receive(w, m) in run && Yields(c, m, x) && SameKeyParts(x, item) ==> x == item
  }

  /** An item of a passed message is in the store, with its own body unless another received item has
      its collection, id and version. */
  lemma ItemStored(c: Config, run: seq<QP.Event>, m: QP.MsgId, item: Item)
    requires After(c, run).Some? && m in After(c, run).value.q.passed && Yields(c, m, item)
    ensures var store := After(c, run).value.store;
      && ItemKey(item) in store && UpdateKey(item) in store
      && (OnlyItem(c, run, item) ==> ShowsItem(store[ItemKey(item)], item))
  {
    var store := After(c, run).value.store;
    var k := ItemKey(item);
    ItemsArePaired(c, run, m, item);
    RecordShows(item, "");
    RecordOrigin(c, run, k);
    var w, n, x :| PutFor(c, run, k, store[k], w, n, x);
    StoredValid(c, run, k);
    SameParts(store[k], item, x);
  }

  lemma StoredValid(c: Config, run: seq<QP.Event>, k: Key)
    requires After(c, run).Some? && k in After(c, run).value.store
    ensures KeyOf(After(c, run).value.store[k]) == k
  {
    Effects(c, run);
    var s := After(c, run).value;
    var m, i := Writer(c, s, k);
  }

  /** The record under the key of an item belongs to an item with the same parts. */
  lemma SameParts(r: Record, item: Item, x: Item)
    requires ValidItem(item) && KeyOf(r) == ItemKey(item)
    requires (ShowsItem(r, x) && ItemKey(item) == ItemKey(x)) || r.ItemUpdated?
    ensures ShowsItem(r, x) && SameKeyParts(x, item)
  {
    RecordShows(item, "");
    KeyDetermines(r, ItemRecord(item));
    assert x.collectionId + "/" + x.id == item.collectionId + "/" + item.id;
    ValidItemMeans(item);
    ValidItemMeans(x);
  }

  // ---------------------------------------------------------------- creation that fails

  /** The create function raises for the message. */
  ghost predicate CreationFails(c: Config, m: QP.MsgId) {
    c.contentOf(m).Event? && c.create(c.contentOf(m).url).CreateFails?
  }

  ghost predicate ErrorsPut(c: Config, s: State) {
    && (forall w :: w in s.q.busy && CreationFails(c, s.q.busy[w].msg) ==>
          s.q.busy[w].done <= 1
          && (s.q.busy[w].done == 1 ==> (s.q.busy[w].msg, s.q.busy[w].dequeueCount) in s.errorPuts))
    && (forall m :: m in s.q.passed && CreationFails(c, m) ==> exists n :: (m, n) in s.errorPuts)
    && (forall f :: f in s.errorPuts ==> CreationFails(c, f.0))
  }

  lemma ErrorsPutStep(c: Config, s: State, e: QP.Event)
    requires ErrorsPut(c, s) && Enabled(c, s, e)
    ensures ErrorsPut(c, Apply(c, s, e))
  {
    var s' := Apply(c, s, e);
    forall m | m in s'.q.passed && CreationFails(c, m)
      ensures exists n :: (m, n) in s'.errorPuts
    {
      if m in s.q.passed {
        var n :| (m, n) in s.errorPuts;
        assert (m, n) in s'.errorPuts;
      } else {
        assert (m, s.q.busy[e.w].dequeueCount) in s'.errorPuts;
      }
    }
  }

  lemma {:induction false} ErrorsAlways(c: Config, run: seq<QP.Event>)
    requires After(c, run).Some?
    ensures ErrorsPut(c, After(c, run).value)
  {
    if run != [] {
      ErrorsAlways(c, run[..|run| - 1]);
      ErrorsPutStep(c, After(c, run[..|run| - 1]).value, run[|run| - 1]);
    }
  }

  /** A message for which the create function raises can pass, and leaves an error record and no other
      when it does; one with unreadable content, or for which the function asks to wait, never passes. */
  lemma FailedCreation(c: Config, run: seq<QP.Event>, m: QP.MsgId)
    requires After(c, run).Some?
    ensures var s := After(c, run).value;
      && (m in s.q.passed && CreationFails(c, m) ==> exists n :: (m, n) in s.errorPuts)
      && (forall n :: (m, n) in s.errorPuts ==> CreationFails(c, m))
      && (c.contentOf(m).Malformed? || c.create(c.contentOf(m).url).Waits? ==> m !in s.q.passed)
  {
    ErrorsAlways(c, run);
    Effects(c, run);
  }

  lemma FailingPasses(c: Config, s: State, w: QP.WorkerId, m: QP.MsgId, deleted: bool)
    requires CreationFails(c, m) && w !in s.q.busy && m in s.q.queue && s.q.queue[m].visible
    ensures var after := From(c, s, Fragment(w, m, 1, QP.Finish(w, deleted)));
      after.Some? && m in after.value.q.passed && after.value.store == s.store
      && (m in after.value.q.queue <==> !deleted)
  {
    FragmentRuns(c, s, w, m, 1, QP.Finish(w, deleted));
  }
}
