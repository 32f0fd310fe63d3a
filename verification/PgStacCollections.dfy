/** The rows of a load when the same id may occur in several collections: the database keeps a row for
    each collection and id, while `unique_items` compares ids alone. */
module PgStacCollections {
  import opened Common
  import opened Grouping
  import opened PgStac

  /** The collection in the JSON of a line. */
  type CollectionOf = string -> string

  datatype Key = Key(collection: string, id: string)

  type Rows = map<Key, Item>

  function KeyOf(collectionOf: CollectionOf, x: Item): Key {
    Key(collectionOf(x.line), x.id)
  }

  /** Upserting items one after the other. */
  function Upsert(rows: Rows, collectionOf: CollectionOf, items: seq<Item>): Rows {
    if items == [] then rows
    else
      var last := items[|items| - 1];
      Upsert(rows, collectionOf, items[..|items| - 1])[KeyOf(collectionOf, last) := last]
  }

  /** Loading blocks one after the other, each deduplicated. */
  function UpsertBlocks(rows: Rows, collectionOf: CollectionOf, blocks: seq<seq<Item>>): Rows {
    if blocks == [] then rows
    else
      var k := |blocks| - 1;
      Upsert(UpsertBlocks(rows, collectionOf, blocks[..k]), collectionOf, Unique(blocks[k]))
  }

  ghost predicate SameAt(r: Rows, s: Rows, key: Key) {
    (key in r <==> key in s) && (key in r ==> r[key] == s[key])
  }

  ghost predicate RowIs(rows: Rows, collectionOf: CollectionOf, x: Item) {
    KeyOf(collectionOf, x) in rows && rows[KeyOf(collectionOf, x)] == x
  }

  ghost predicate HasKey(collectionOf: CollectionOf, items: seq<Item>, key: Key) {
    exists x :: x in items && KeyOf(collectionOf, x) == key
  }

  lemma {:induction false} UpsertStores(rows: Rows, collectionOf: CollectionOf, items: seq<Item>)
    requires DistinctIds(items)
    ensures forall x :: x in items ==> RowIs(Upsert(rows, collectionOf, items), collectionOf, x)
  {
    if items != [] {
      var front, last := items[..|items| - 1], items[|items| - 1];
      assert items == front + [last];
      UpsertStores(rows, collectionOf, front);
    }
  }

  lemma {:induction false} UpsertOther(rows: Rows, collectionOf: CollectionOf, items: seq<Item>, key: Key)
    requires !HasKey(collectionOf, items, key)
    ensures SameAt(Upsert(rows, collectionOf, items), rows, key)
  {
    if items != [] {
      var front, last := items[..|items| - 1], items[|items| - 1];
      assert last in items && forall x :: x in front ==> x in items;
      UpsertOther(rows, collectionOf, front, key);
    }
  }

  /** The block loads `block[i]` into the row of the key: it is the first item with the id, and it has
      the collection. */
  ghost predicate Loads(collectionOf: CollectionOf, block: seq<Item>, i: int, key: Key) {
    IsFirst(block, i) && KeyOf(collectionOf, block[i]) == key
  }

  ghost predicate LoadsKey(collectionOf: CollectionOf, block: seq<Item>, key: Key) {
    exists i :: Loads(collectionOf, block, i, key)
  }

  /** What a block leaves in the row of a key: the first item with the id if that has the collection,
      and otherwise what was there, even if later items of the block have the key. */
  lemma BlockRow(rows: Rows, collectionOf: CollectionOf, block: seq<Item>, key: Key)
    ensures var after := Upsert(rows, collectionOf, Unique(block));
      && (forall i :: Loads(collectionOf, block, i, key) ==> key in after && after[key] == block[i])
      && (!LoadsKey(collectionOf, block, key) ==> SameAt(after, rows, key))
  {
    var u := Unique(block);
    UniqueDistinct(block);
    UpsertStores(rows, collectionOf, u);
    forall i | Loads(collectionOf, block, i, key)
      ensures RowIs(Upsert(rows, collectionOf, u), collectionOf, block[i])
    {
      UniqueMeans(block, block[i]);
    }
    if !LoadsKey(collectionOf, block, key) {
      forall x | x in u
        ensures KeyOf(collectionOf, x) != key
      {
        UniqueMeans(block, x);
        var i :| IsFirst(block, i) && block[i] == x;
        assert !Loads(collectionOf, block, i, key);
      }
      UpsertOther(rows, collectionOf, u, key);
    }
  }

  /** An item that is not the first of its id in the block is dropped, and so is its whole row, if and
      only if the first one of its id has another collection. */
  lemma DroppedRow(collectionOf: CollectionOf, block: seq<Item>, first: int, j: nat)
    requires IsFirst(block, first) && j < |block| && block[j].id == block[first].id
    ensures IsFirst(block, j) <==> j == first
    ensures LoadsKey(collectionOf, block, KeyOf(collectionOf, block[j])) <==>
            collectionOf(block[j].line) == collectionOf(block[first].line)
  {
    var key := KeyOf(collectionOf, block[j]);
    if LoadsKey(collectionOf, block, key) {
      var i :| Loads(collectionOf, block, i, key);
      assert block[i].id == block[first].id;
    } else {
      assert !Loads(collectionOf, block, first, key);
    }
  }

  /** Item `i` of block `k` is loaded into the row of the key, and no later block loads it. */
  ghost predicate IsLastLoad(collectionOf: CollectionOf, blocks: seq<seq<Item>>, k: int, i: int, key: Key) {
    && 0 <= k < |blocks| && Loads(collectionOf, blocks[k], i, key)
    && forall l :: k < l < |blocks| ==> !LoadsKey(collectionOf, blocks[l], key)
  }

  ghost predicate NoneLoads(collectionOf: CollectionOf, blocks: seq<seq<Item>>, key: Key) {
    forall k :: 0 <= k < |blocks| ==> !LoadsKey(collectionOf, blocks[k], key)
  }

  /** A row stays when no block loads its key. */
  lemma {:induction false} UnloadedRow(rows: Rows, collectionOf: CollectionOf, blocks: seq<seq<Item>>, key: Key)
    requires NoneLoads(collectionOf, blocks, key)
    ensures SameAt(UpsertBlocks(rows, collectionOf, blocks), rows, key)
  {
    if blocks != [] {
      var n := |blocks| - 1;
      UnloadedRow(rows, collectionOf, blocks[..n], key);
      BlockRow(UpsertBlocks(rows, collectionOf, blocks[..n]), collectionOf, blocks[n], key);
    }
  }

  /** Otherwise it is the item that the last block loading the key put there. */
  lemma {:induction false} LoadedRow(rows: Rows, collectionOf: CollectionOf, blocks: seq<seq<Item>>, k: nat, i: nat,
                                     key: Key)
    requires IsLastLoad(collectionOf, blocks, k, i, key)
    ensures key in UpsertBlocks(rows, collectionOf, blocks)
    ensures UpsertBlocks(rows, collectionOf, blocks)[key] == blocks[k][i]
  {
    var n := |blocks| - 1;
    BlockRow(UpsertBlocks(rows, collectionOf, blocks[..n]), collectionOf, blocks[n], key);
    if k < n {
      LoadedRow(rows, collectionOf, blocks[..n], k, i, key);
    }
  }

  lemma {:induction false} LastLoadExists(collectionOf: CollectionOf, blocks: seq<seq<Item>>, key: Key)
    returns (k: nat, i: nat)
    requires !NoneLoads(collectionOf, blocks, key)
    ensures IsLastLoad(collectionOf, blocks, k, i, key)
  {
    var n := |blocks| - 1;
    if LoadsKey(collectionOf, blocks[n], key) {
      k := n;
      i :| Loads(collectionOf, blocks[n], i, key);
    } else {
      k, i := LastLoadExists(collectionOf, blocks[..n], key);
    }
  }

  /** The row of a key after all blocks: that of the last block whose first item with the id has the
      collection, and what was there before if there is no such block. */
  lemma FinalKeyRow(rows: Rows, collectionOf: CollectionOf, blocks: seq<seq<Item>>, key: Key)
    ensures NoneLoads(collectionOf, blocks, key) ==> SameAt(UpsertBlocks(rows, collectionOf, blocks), rows, key)
    ensures !NoneLoads(collectionOf, blocks, key) ==> exists k, i ::
              IsLastLoad(collectionOf, blocks, k, i, key)
              && key in UpsertBlocks(rows, collectionOf, blocks)
              && UpsertBlocks(rows, collectionOf, blocks)[key] == blocks[k][i]
  {
    if NoneLoads(collectionOf, blocks, key) {
      UnloadedRow(rows, collectionOf, blocks, key);
    } else {
      var k, i := LastLoadExists(collectionOf, blocks, key);
      LoadedRow(rows, collectionOf, blocks, k, i, key);
    }
  }

  // ---------------------------------------------------------------- when nothing is lost

  ghost predicate DistinctKeys(collectionOf: CollectionOf, items: seq<Item>) {
    forall i, j :: 0 <= i < j < |items| ==> KeyOf(collectionOf, items[i]) != KeyOf(collectionOf, items[j])
  }

  lemma DistinctKeysParts(collectionOf: CollectionOf, a: seq<Item>, b: seq<Item>)
    requires DistinctKeys(collectionOf, a + b)
    ensures DistinctKeys(collectionOf, a) && DistinctKeys(collectionOf, b)
    ensures forall i, j :: 0 <= i < |a| && 0 <= j < |b| ==> KeyOf(collectionOf, a[i]) != KeyOf(collectionOf, b[j])
  {
    var s := a + b;
    assert forall i | 0 <= i < |a| :: s[i] == a[i];
    assert forall j | 0 <= j < |b| :: s[|a| + j] == b[j];
  }

  ghost predicate AllStored(rows: Rows, collectionOf: CollectionOf, items: seq<Item>) {
    forall x :: x in items ==> RowIs(rows, collectionOf, x)
  }

  ghost predicate NoneStored(rows: Rows, collectionOf: CollectionOf, items: seq<Item>) {
    forall x :: x in items ==> !RowIs(rows, collectionOf, x)
  }

  lemma DistinctAreFirst(block: seq<Item>)
    ensures DistinctIds(block) <==> forall i :: 0 <= i < |block| ==> IsFirst(block, i)
  {
    if forall i :: 0 <= i < |block| ==> IsFirst(block, i) {
      forall i, j | 0 <= i < j < |block|
        ensures block[i].id != block[j].id
      {
        assert IsFirst(block, j);
      }
    }
  }

  lemma OneStored(rows: Rows, collectionOf: CollectionOf, block: seq<Item>, i: nat)
    requires i < |block| && DistinctKeys(collectionOf, block) && NoneStored(rows, collectionOf, block)
    ensures RowIs(Upsert(rows, collectionOf, Unique(block)), collectionOf, block[i]) <==> IsFirst(block, i)
  {
    var key := KeyOf(collectionOf, block[i]);
    BlockRow(rows, collectionOf, block, key);
    assert block[i] in block;
    assert IsFirst(block, i) ==> Loads(collectionOf, block, i, key);
    assert forall k :: Loads(collectionOf, block, k, key) ==> k == i;
  }

  /** One block of items with different keys. */
  lemma BlockStoresAll(rows: Rows, collectionOf: CollectionOf, block: seq<Item>)
    requires DistinctKeys(collectionOf, block) && NoneStored(rows, collectionOf, block)
    ensures AllStored(Upsert(rows, collectionOf, Unique(block)), collectionOf, block) <==> DistinctIds(block)
  {
    DistinctAreFirst(block);
    forall i | 0 <= i < |block|
      ensures block[i] in block
      ensures RowIs(Upsert(rows, collectionOf, Unique(block)), collectionOf, block[i]) <==> IsFirst(block, i)
    {
      OneStored(rows, collectionOf, block, i);
    }
  }

  /** A load leaves the rows of keys alone that none of its items has. */
  lemma {:induction false} OtherKeys(rows: Rows, collectionOf: CollectionOf, blocks: seq<seq<Item>>, x: Item)
    requires forall y :: y in Flatten(blocks) ==> KeyOf(collectionOf, y) != KeyOf(collectionOf, x)
    ensures RowIs(UpsertBlocks(rows, collectionOf, blocks), collectionOf, x) <==> RowIs(rows, collectionOf, x)
  {
    if blocks != [] {
      var k := |blocks| - 1;
      OtherKeys(rows, collectionOf, blocks[..k], x);
      OtherBlock(UpsertBlocks(rows, collectionOf, blocks[..k]), collectionOf, blocks[k], x);
    }
  }

  lemma OtherBlock(rows: Rows, collectionOf: CollectionOf, block: seq<Item>, x: Item)
    requires forall y :: y in block ==> KeyOf(collectionOf, y) != KeyOf(collectionOf, x)
    ensures RowIs(Upsert(rows, collectionOf, Unique(block)), collectionOf, x) <==> RowIs(rows, collectionOf, x)
  {
    var key := KeyOf(collectionOf, x);
    BlockRow(rows, collectionOf, block, key);
    forall i | 0 <= i < |block|
      ensures !Loads(collectionOf, block, i, key)
    {
      assert block[i] in block;
    }
  }

  ghost predicate BlocksDistinct(blocks: seq<seq<Item>>) {
    forall k :: 0 <= k < |blocks| ==> DistinctIds(blocks[k])
  }

  lemma KeysDiffer(collectionOf: CollectionOf, a: seq<Item>, b: seq<Item>, x: Item, y: Item)
    requires DistinctKeys(collectionOf, a + b) && x in a && y in b
    ensures KeyOf(collectionOf, x) != KeyOf(collectionOf, y)
  {
    DistinctKeysParts(collectionOf, a, b);
    var i, j :| 0 <= i < |a| && a[i] == x && 0 <= j < |b| && b[j] == y;
  }

  lemma LastBlockStores(rows: Rows, collectionOf: CollectionOf, front: seq<Item>, last: seq<Item>, after: Rows)
    requires DistinctKeys(collectionOf, front + last)
    requires after == Upsert(rows, collectionOf, Unique(last)) && NoneStored(rows, collectionOf, last)
    ensures AllStored(after, collectionOf, front + last) <==>
            AllStored(rows, collectionOf, front) && DistinctIds(last)
  {
    DistinctKeysParts(collectionOf, front, last);
    BlockStoresAll(rows, collectionOf, last);
    forall x | x in front
      ensures RowIs(after, collectionOf, x) <==> RowIs(rows, collectionOf, x)
    {
      forall y | y in last
        ensures KeyOf(collectionOf, y) != KeyOf(collectionOf, x)
      {
        KeysDiffer(collectionOf, front, last, x, y);
      }
      OtherBlock(rows, collectionOf, last, x);
    }
    assert forall x :: x in front + last <==> x in front || x in last;
  }

  /** Items with different keys, none of them stored before, are all stored if and only if no block has
      two of the same id: two collections that share an id lose rows exactly when they meet in a
      block. */
  lemma {:induction false} EveryKeyStored(rows: Rows, collectionOf: CollectionOf, blocks: seq<seq<Item>>)
    requires DistinctKeys(collectionOf, Flatten(blocks)) && NoneStored(rows, collectionOf, Flatten(blocks))
    ensures AllStored(UpsertBlocks(rows, collectionOf, blocks), collectionOf, Flatten(blocks)) <==>
            BlocksDistinct(blocks)
  {
    if blocks != [] {
      var k := |blocks| - 1;
      var front, last := Flatten(blocks[..k]), blocks[k];
      var before := UpsertBlocks(rows, collectionOf, blocks[..k]);
      DistinctKeysParts(collectionOf, front, last);
      EveryKeyStored(rows, collectionOf, blocks[..k]);
      forall x | x in last
        ensures !RowIs(before, collectionOf, x)
      {
        forall y | y in front
          ensures KeyOf(collectionOf, y) != KeyOf(collectionOf, x)
        {
          KeysDiffer(collectionOf, front, last, y, x);
        }
        OtherKeys(rows, collectionOf, blocks[..k], x);
      }
      LastBlockStores(before, collectionOf, front, last, UpsertBlocks(rows, collectionOf, blocks));
      assert BlocksDistinct(blocks) <==> BlocksDistinct(blocks[..k]) && DistinctIds(last);
    }
  }

  /** The same for the groups of an ingest. */
  lemma GroupsStoreAll(rows: Rows, collectionOf: CollectionOf, items: seq<Item>, n: nat)
    requires DistinctKeys(collectionOf, items) && NoneStored(rows, collectionOf, items)
    ensures AllStored(UpsertBlocks(rows, collectionOf, Groups(items, n)), collectionOf, items) <==>
            BlocksDistinct(Groups(items, n))
  {
    assert Flatten(Groups(items, n)) == items by {
      if n > 0 {
        GroupedKeepsAll(items, n);
      } else {
        FlattenSnoc([], items);
        assert [] + [items] == [items] && Flatten<Item>([]) + items == items;
      }
    }
    EveryKeyStored(rows, collectionOf, Groups(items, n));
  }

  // ---------------------------------------------------------------- one collection

  /** The table by ids shows the rows: a key has one if its id has one of that collection. */
  ghost predicate Shows(t: Table, rows: Rows, collectionOf: CollectionOf) {
    && (forall key :: key in rows <==> key.id in t && collectionOf(t[key.id].line) == key.collection)
    && (forall key :: key in rows ==> rows[key] == t[key.id])
  }

  /** Each id of the items has its one collection. */
  ghost predicate AtHome(home: string -> string, collectionOf: CollectionOf, items: seq<Item>) {
    forall x :: x in items ==> collectionOf(x.line) == home(x.id)
  }

  ghost predicate TableAtHome(home: string -> string, collectionOf: CollectionOf, t: Table) {
    forall id :: id in t ==> collectionOf(t[id].line) == home(id)
  }

  lemma {:induction false} ShowsLoad(t: Table, rows: Rows, collectionOf: CollectionOf, home: string -> string,
                                     items: seq<Item>)
    requires Shows(t, rows, collectionOf) && TableAtHome(home, collectionOf, t) && AtHome(home, collectionOf, items)
    ensures Shows(Load(t, items), Upsert(rows, collectionOf, items), collectionOf)
    ensures TableAtHome(home, collectionOf, Load(t, items))
  {
    if items != [] {
      var front, last := items[..|items| - 1], items[|items| - 1];
      assert last in items && forall x :: x in front ==> x in items;
      ShowsLoad(t, rows, collectionOf, home, front);
    }
  }

  /** When each id has one collection, the table by ids shows the rows after every load. */
  lemma {:induction false} TableShowsRows(t: Table, rows: Rows, collectionOf: CollectionOf, home: string -> string,
                                          blocks: seq<seq<Item>>)
    requires Shows(t, rows, collectionOf) && TableAtHome(home, collectionOf, t)
    requires AtHome(home, collectionOf, Flatten(blocks))
    ensures Shows(LoadGroups(t, blocks), UpsertBlocks(rows, collectionOf, blocks), collectionOf)
    ensures TableAtHome(home, collectionOf, LoadGroups(t, blocks))
  {
    if blocks != [] {
      var k := |blocks| - 1;
      TableShowsRows(t, rows, collectionOf, home, blocks[..k]);
      assert AtHome(home, collectionOf, blocks[k]);
      UniqueAtHome(home, collectionOf, blocks[k]);
      ShowsLoad(LoadGroups(t, blocks[..k]), UpsertBlocks(rows, collectionOf, blocks[..k]), collectionOf, home,
                Unique(blocks[k]));
    }
  }

  lemma UniqueAtHome(home: string -> string, collectionOf: CollectionOf, block: seq<Item>)
    requires AtHome(home, collectionOf, block)
    ensures AtHome(home, collectionOf, Unique(block))
  {
    forall x | x in Unique(block)
      ensures x in block
    {
      UniqueMeans(block, x);
    }
  }
}
