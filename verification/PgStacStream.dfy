/** What a retried load from a one-shot iterator leaves in the table. */
module PgStacStream {
  import opened Common
  import opened PgStac

  /** The first item with an id. */
  function First(items: seq<Item>, id: string): Item
    requires HasId(items, id)
  {
    var front, last := items[..|items| - 1], items[|items| - 1];
    if HasId(front, id) then First(front, id) else last
  }

  /** The row of an id, if there is one. */
  function Row(t: Table, id: string): Option<Item> {
    if id in t then Some(t[id]) else None
  }

  lemma HasIdFront(items: seq<Item>, k: nat, id: string)
    requires k <= |items| && HasId(items[..k], id)
    ensures HasId(items, id)
  {
    var i :| 0 <= i < k && items[..k][i].id == id;
    assert items[i].id == id;
  }

  lemma HasIdSplit(items: seq<Item>, k: nat, id: string)
    requires k <= |items|
    ensures HasId(items, id) <==> HasId(items[..k], id) || HasId(items[k..], id)
  {
    if i :| 0 <= i < |items| && items[i].id == id {
      assert if i < k then items[..k][i].id == id else items[k..][i - k].id == id;
    }
    if i :| 0 <= i < |items| - k && items[k..][i].id == id {
      assert items[k + i].id == id;
    }
  }

  lemma {:induction false} FirstIsFirst(items: seq<Item>, i: int)
    requires IsFirst(items, i)
    ensures HasId(items, items[i].id) && First(items, items[i].id) == items[i]
  {
    var front, last := items[..|items| - 1], items[|items| - 1];
    assert items == front + [last];
    IsFirstSnoc(front, last, i);
    if i < |front| {
      FirstIsFirst(front, i);
    }
  }

  lemma {:induction false} FirstOfFront(items: seq<Item>, k: nat, id: string)
    requires k <= |items| && HasId(items[..k], id)
    ensures HasId(items, id) && First(items, id) == First(items[..k], id)
  {
    HasIdFront(items, k, id);
    if k < |items| {
      var front := items[..|items| - 1];
      assert front[..k] == items[..k];
      FirstOfFront(front, k, id);
    } else {
      assert items[..k] == items;
    }
  }

  lemma {:induction false} FirstHere(items: seq<Item>, j: nat)
    requires j < |items|
    ensures HasId(items[j..], items[j].id) && First(items[j..], items[j].id) == items[j]
  {
    assert items[j..][0] == items[j];
    FirstIsFirst(items[j..], 0);
  }

  /** The stored part of what was taken has the first item of each id it reaches. */
  lemma StoredRow(t: Table, items: seq<Item>, stored: nat, id: string)
    requires stored <= |Unique(items)|
    ensures HasId(Unique(items)[..stored], id) ==> HasId(items, id)
    ensures Row(Load(t, Unique(items)[..stored]), id) ==
            if HasId(Unique(items)[..stored], id) then Some(First(items, id)) else Row(t, id)
  {
    var u := Unique(items);
    var part := u[..stored];
    if HasId(part, id) {
      var k :| 0 <= k < |part| && part[k].id == id;
      var x := u[k];
      UniqueDistinct(items);
      assert DistinctIds(part);
      LoadMeans(t, part);
      assert x in part && x in u;
      UniqueMeans(items, x);
      var i :| IsFirst(items, i) && items[i] == x;
      FirstIsFirst(items, i);
    } else {
      LoadOther(t, part, id);
    }
  }

  /** A load of deduplicated items leaves the first item of each id. */
  lemma LoadUniqueRow(t: Table, items: seq<Item>, id: string)
    ensures Row(Load(t, Unique(items)), id) == if HasId(items, id) then Some(First(items, id)) else Row(t, id)
  {
    var u := Unique(items);
    assert u[..|u|] == u;
    StoredRow(t, items, |u|, id);
    UniqueIds(items, id);
  }

  /** The row of an id after a retry: its first item among those the retry took, else the item
      the first attempt stored, else the row the table had. */
  function RetryRow(t: Table, items: seq<Item>, taken: nat, stored: nat, id: string): Option<Item>
    requires taken <= |items| && stored <= |Unique(items[..taken])|
  {
    if HasId(items[taken..], id) then Some(First(items[taken..], id))
    else if HasId(Unique(items[..taken])[..stored], id) then
      (StoredRow(t, items[..taken], stored, id); HasIdFront(items, taken, id); Some(First(items, id)))
    else Row(t, id)
  }

  lemma AfterRetryRow(t: Table, items: seq<Item>, taken: nat, stored: nat, id: string)
    requires taken <= |items| && stored <= |Unique(items[..taken])|
    ensures Row(AfterStreamRetry(t, items, taken, stored), id) == RetryRow(t, items, taken, stored, id)
  {
    StoredRow(t, items[..taken], stored, id);
    LoadUniqueRow(Load(t, Unique(items[..taken])[..stored]), items[taken..], id);
    if HasId(Unique(items[..taken])[..stored], id) {
      FirstOfFront(items, taken, id);
    }
  }

  lemma RowsDecide(t: Table, u: Table)
    ensures t == u <==> forall id :: Row(t, id) == Row(u, id)
  {
    if forall id :: Row(t, id) == Row(u, id) {
      forall id
        ensures SameRow(t, u, id)
      {
        assert Row(t, id) == Row(u, id);
      }
      SameTables(t, u);
    }
  }

  /** The retry leaves the first item of this id. */
  ghost predicate RetryKeeps(t: Table, items: seq<Item>, taken: nat, stored: nat, id: string)
    requires taken <= |items| && stored <= |Unique(items[..taken])| && HasId(items, id)
  {
    if HasId(items[taken..], id) then First(items[taken..], id) == First(items, id)
    else HasId(Unique(items[..taken])[..stored], id) || Row(t, id) == Some(First(items, id))
  }

  /** For every table and input, repeated ids included: a retried load from an iterator leaves the
      table of one clean load if and only if every id of the input is kept. That is, where the id
      comes up in the retry, it does so with its first item of the whole input; where it does not,
      its first item had been stored, or was in the table before. */
  lemma StreamRetryComplete(t: Table, items: seq<Item>, taken: nat, stored: nat)
    requires taken <= |items| && stored <= |Unique(items[..taken])|
    ensures AfterStreamRetry(t, items, taken, stored) == Load(t, Unique(items)) <==>
            forall id :: HasId(items, id) ==> RetryKeeps(t, items, taken, stored, id)
  {
    RowsDecide(AfterStreamRetry(t, items, taken, stored), Load(t, Unique(items)));
    forall id
      ensures Row(AfterStreamRetry(t, items, taken, stored), id) == Row(Load(t, Unique(items)), id) <==>
              (HasId(items, id) ==> RetryKeeps(t, items, taken, stored, id))
    {
      AfterRetryRow(t, items, taken, stored, id);
      LoadUniqueRow(t, items, id);
      HasIdSplit(items, taken, id);
      StoredRow(t, items[..taken], stored, id);
    }
  }

  /** An item taken from the iterator and not stored, whose id does not come again, is in
      neither attempt. */
  lemma StreamRetryLoses(t: Table, items: seq<Item>, taken: nat, stored: nat, id: string)
    requires taken <= |items| && stored <= |Unique(items[..taken])|
    requires HasId(items[..taken], id) && !HasId(Unique(items[..taken])[..stored], id) && !HasId(items[taken..], id)
    ensures SameRow(AfterStreamRetry(t, items, taken, stored), t, id)
  {
    AfterRetryRow(t, items, taken, stored, id);
  }

  ghost predicate RetryClean(t: Table, items: seq<Item>, taken: nat, stored: nat) {
    taken <= |items| && stored <= |Unique(items[..taken])| ==>
      AfterStreamRetry(t, items, taken, stored) == Load(t, Unique(items))
  }

  /** What a caller can check before a call without a group size: the retry is harmless wherever
      the connection breaks if and only if the table already holds every item of the input. */
  lemma StreamRetrySafe(t: Table, items: seq<Item>)
    ensures (forall taken, stored :: RetryClean(t, items, taken, stored)) <==>
            forall x :: x in items ==> Row(t, x.id) == Some(x)
  {
    if forall taken, stored :: RetryClean(t, items, taken, stored) {
      forall j | 0 <= j < |items|
        ensures Row(t, items[j].id) == Some(items[j])
      {
        HarmlessMeansStored(t, items, j);
      }
    }
    if forall x :: x in items ==> Row(t, x.id) == Some(x) {
      forall taken, stored
        ensures RetryClean(t, items, taken, stored)
      {
        StoredMeansHarmless(t, items, taken, stored);
      }
    }
  }

  lemma HarmlessMeansStored(t: Table, items: seq<Item>, j: nat)
    requires j < |items| && RetryClean(t, items, |items|, 0) && RetryClean(t, items, j, |Unique(items[..j])|)
    ensures Row(t, items[j].id) == Some(items[j])
  {
    var id, clean := items[j].id, Load(t, Unique(items));
    FirstHere(items, j);
    AfterRetryRow(t, items, j, |Unique(items[..j])|, id);
    assert Row(clean, id) == Some(items[j]);
    assert items[..|items|] == items && items[|items|..] == [] && Unique(items)[..0] == [];
    assert AfterStreamRetry(t, items, |items|, 0) == t;
  }

  lemma StoredMeansHarmless(t: Table, items: seq<Item>, taken: nat, stored: nat)
    requires forall x :: x in items ==> Row(t, x.id) == Some(x)
    ensures RetryClean(t, items, taken, stored)
  {
    if taken <= |items| && stored <= |Unique(items[..taken])| {
      LoadsNothing(t, items, items);
      LoadsNothing(t, items, items[..taken]);
      LoadsNothing(t, items, items[taken..]);
      LoadNothingNew(t, Unique(items[..taken])[..stored]);
    }
  }

  lemma LoadsNothing(t: Table, items: seq<Item>, part: seq<Item>)
    requires forall x :: x in items ==> Row(t, x.id) == Some(x)
    requires forall x :: x in part ==> x in items
    ensures forall x :: x in Unique(part) ==> x.id in t && t[x.id] == x
    ensures Load(t, Unique(part)) == t
  {
    forall x | x in Unique(part)
      ensures x.id in t && t[x.id] == x
    {
      UniqueMeans(part, x);
      assert x in items && Row(t, x.id) == Some(x);
    }
    LoadNothingNew(t, Unique(part));
  }

  /** Two items with one id around another one. Everything read had been stored, and yet the
      retry, which has seen nothing, lets the second overwrite the first. */
  lemma RetryOverwrites(a: Item, b: Item, a': Item)
    requires a.id == a'.id != b.id && a != a'
    ensures var items := [a, b, a'];
      && |Unique(items[..1])| == 1
      && AfterStreamRetry(map[], items, 1, 1) != Load(map[], Unique(items))
  {
    var items := [a, b, a'];
    assert items[..1] == [a] && items[1..] == [b, a'];
    assert [a][..0] == [] && Unique([]) == [];
    assert !HasId([], a.id);
    assert Unique([a]) == [a];
    AfterRetryRow(map[], items, 1, 1, a.id);
    LoadUniqueRow(map[], items, a.id);
    FirstIsFirst(items, 0);
    assert IsFirst([b, a'], 1);
    FirstIsFirst([b, a'], 1);
  }
}
