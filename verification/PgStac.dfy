/** Loading items into the database in groups, with first-wins deduplication inside a group
    and one retry on a broken connection (`PgSTAC.ingest_items`, upsert mode). */
module PgStac {
  import opened Common
  import opened Grouping

  /** One line of input: the id its JSON carries and the line itself. */
  datatype Item = Item(id: string, line: string)

  type Table = map<string, Item>

  datatype Outcome = Loaded | ConnectionError | OtherError

  predicate HasId(items: seq<Item>, id: string) {
    exists i :: 0 <= i < |items| && items[i].id == id
  }

  /** The items whose id no earlier item has. */
  function Unique(items: seq<Item>): seq<Item> {
    if items == [] then []
    else
      var front, last := items[..|items| - 1], items[|items| - 1];
      Unique(front) + if HasId(front, last.id) then [] else [last]
  }

  /** Upserting items one after the other. */
  function Load(t: Table, items: seq<Item>): Table {
    if items == [] then t
    else
      var last := items[|items| - 1];
      Load(t, items[..|items| - 1])[last.id := last]
  }

  ghost predicate DistinctIds(items: seq<Item>) {
    forall i, j :: 0 <= i < j < |items| ==> items[i].id != items[j].id
  }

  /** `items[i]` is the first item with its id. */
  ghost predicate IsFirst(items: seq<Item>, i: int) {
    0 <= i < |items| && forall k :: 0 <= k < i ==> items[k].id != items[i].id
  }

  /** `unique_items`: the generator with its growing `seen` set. */
  method UniqueItems(items: seq<Item>) returns (out: seq<Item>)
    ensures out == Unique(items)
  {
    out := [];
    var seen: set<string> := {};
    for i := 0 to |items|
      invariant out == Unique(items[..i])
      invariant forall id :: id in seen <==> HasId(items[..i], id)
    {
      var item := items[i];
      assert items[..i + 1][..i] == items[..i];
      forall id
        ensures HasId(items[..i + 1], id) <==> HasId(items[..i], id) || id == item.id
      {
        if HasId(items[..i], id) {
          var k :| 0 <= k < i && items[..i][k].id == id;
          assert items[..i + 1][k].id == id;
        }
        assert items[..i + 1][i] == item;
        if HasId(items[..i + 1], id) && id != item.id {
          var k :| 0 <= k < i + 1 && items[..i + 1][k].id == id;
          assert items[..i][k].id == id;
        }
      }
      if item.id !in seen {
        seen := seen + {item.id};
        out := out + [item];
      }
    }
    assert items[..|items|] == items;
  }

  lemma {:induction false} UniqueIds(items: seq<Item>, id: string)
    ensures HasId(Unique(items), id) <==> HasId(items, id)
  {
    if items != [] {
      var front, last := items[..|items| - 1], items[|items| - 1];
      UniqueIds(front, id);
      assert items == front + [last];
      HasIdAppend(front, last, id);
      HasIdAppend(Unique(front), last, id);
      assert Unique(front) + [] == Unique(front);
    }
  }

  lemma {:induction false} UniqueDistinct(items: seq<Item>)
    ensures DistinctIds(Unique(items))
  {
    if items != [] {
      var front, last := items[..|items| - 1], items[|items| - 1];
      UniqueDistinct(front);
      UniqueIds(front, last.id);
    }
  }

  lemma IsFirstSnoc(front: seq<Item>, last: Item, i: int)
    ensures IsFirst(front + [last], i) <==> IsFirst(front, i) || (i == |front| && !HasId(front, last.id))
  {
    var items := front + [last];
    assert items[|front|] == last;
    assert forall k | 0 <= k < |front| :: items[k] == front[k];
  }

  /** Deduplication keeps exactly the items that are the first with their id. */
  lemma {:induction false} UniqueMeans(items: seq<Item>, x: Item)
    ensures x in Unique(items) <==> exists i :: IsFirst(items, i) && items[i] == x
  {
    if items != [] {
      var front, last := items[..|items| - 1], items[|items| - 1];
      UniqueMeans(front, x);
      assert items == front + [last];
      forall i
        ensures IsFirst(items, i) <==> IsFirst(front, i) || (i == |front| && !HasId(front, last.id))
      {
        IsFirstSnoc(front, last, i);
      }
      if i :| IsFirst(front, i) && front[i] == x {
        assert IsFirst(items, i) && items[i] == x;
      }
    }
  }

  /** What is kept of a front comes first, so the kept items are in input order. */
  lemma {:induction false} UniqueInOrder(items: seq<Item>, k: nat)
    requires k <= |items|
    ensures Unique(items[..k]) <= Unique(items)
  {
    if k < |items| {
      var front := items[..|items| - 1];
      assert front[..k] == items[..k];
      UniqueInOrder(front, k);
    } else {
      assert items[..k] == items;
    }
  }

  lemma HasIdAppend(s: seq<Item>, x: Item, id: string)
    ensures HasId(s + [x], id) <==> HasId(s, id) || x.id == id
  {
    var t := s + [x];
    assert t[|s|] == x;
    assert forall i | 0 <= i < |s| :: t[i] == s[i];
  }

  /** What a load of items with distinct ids leaves in the table. */
  lemma {:induction false} LoadMeans(t: Table, items: seq<Item>)
    requires DistinctIds(items)
    ensures forall x :: x in items ==> x.id in Load(t, items) && Load(t, items)[x.id] == x
    ensures forall id :: !HasId(items, id) ==> (id in Load(t, items) <==> id in t)
    ensures forall id :: !HasId(items, id) && id in t ==> Load(t, items)[id] == t[id]
  {
    if items != [] {
      var front, last := items[..|items| - 1], items[|items| - 1];
      LoadMeans(t, front);
      assert items == front + [last];
      forall id
        ensures HasId(items, id) <==> HasId(front, id) || last.id == id
      {
        HasIdAppend(front, last, id);
      }
    }
  }

  lemma {:induction false} LoadAppend(t: Table, a: seq<Item>, b: seq<Item>)
    ensures Load(t, a + b) == Load(Load(t, a), b)
  {
    if b == [] {
      assert a + b == a;
    } else {
      var front := b[..|b| - 1];
      LoadAppend(t, a, front);
      assert (a + b)[..|a + b| - 1] == a + front;
    }
  }

  /** A row the load does not touch stays, whatever the items. */
  lemma {:induction false} LoadOther(t: Table, items: seq<Item>, id: string)
    requires !HasId(items, id)
    ensures id in Load(t, items) <==> id in t
    ensures id in t ==> Load(t, items)[id] == t[id]
  {
    if items != [] {
      var front := items[..|items| - 1];
      assert !HasId(front, id) by {
        assert forall i | 0 <= i < |front| :: front[i] == items[i];
      }
      LoadOther(t, front, id);
    }
  }

  ghost predicate SameRow(t: Table, u: Table, id: string) {
    (id in t <==> id in u) && (id in t ==> t[id] == u[id])
  }

  lemma SameTables(t: Table, u: Table)
    requires forall id :: SameRow(t, u, id)
    ensures t == u
  {
    assert forall id :: SameRow(t, u, id) ==> (id in t <==> id in u);
  }

  /** A load brings two tables together at the ids it touches and keeps their agreement. */
  lemma {:induction false} LoadAgree(t: Table, u: Table, items: seq<Item>, id: string)
    requires HasId(items, id) || SameRow(t, u, id)
    ensures SameRow(Load(t, items), Load(u, items), id)
  {
    if items != [] {
      var front, last := items[..|items| - 1], items[|items| - 1];
      if last.id != id {
        assert items == front + [last];
        HasIdAppend(front, last, id);
        LoadAgree(t, u, front, id);
      }
    }
  }

  lemma {:induction false} LoadNothingNew(t: Table, items: seq<Item>)
    requires forall x :: x in items ==> x.id in t && t[x.id] == x
    ensures Load(t, items) == t
  {
    if items != [] {
      LoadNothingNew(t, items[..|items| - 1]);
    }
  }

  /** Upserting a prefix and then everything is upserting everything; more generally two
      prefixes amount to the longer one. */
  lemma LoadTwoPrefixes(t: Table, items: seq<Item>, k: nat, l: nat)
    requires DistinctIds(items) && k <= |items| && l <= |items|
    ensures Load(Load(t, items[..k]), items[..l]) == Load(t, items[..Max(k, l)])
  {
    var a, b := items[..k], items[..l];
    if k <= l {
      forall id
        ensures SameRow(Load(Load(t, a), b), Load(t, b), id)
      {
        if !HasId(b, id) {
          assert !HasId(a, id) by {
            assert forall i | 0 <= i < k :: a[i] == b[i];
          }
          LoadOther(t, a, id);
        }
        LoadAgree(Load(t, a), t, b, id);
      }
      SameTables(Load(Load(t, a), b), Load(t, b));
    } else {
      LoadMeans(t, a);
      assert forall i | 0 <= i < l :: b[i] == a[i] && a[i] in a;
      LoadNothingNew(Load(t, a), b);
    }
  }

  /** `after` is `before` with an initial part of `items` upserted. */
  ghost predicate PartLoaded(before: Table, items: seq<Item>, after: Table) {
    exists k: nat :: k <= |items| && after == Load(before, items[..k])
  }

  /** Two partial loads of the same items leave a partial load. */
  lemma PartLoadedTwice(t: Table, items: seq<Item>, u: Table, v: Table)
    requires DistinctIds(items) && PartLoaded(t, items, u) && PartLoaded(u, items, v)
    ensures PartLoaded(t, items, v)
  {
    var k: nat :| k <= |items| && u == Load(t, items[..k]);
    var l: nat :| l <= |items| && v == Load(u, items[..l]);
    LoadTwoPrefixes(t, items, k, l);
    assert Max(k, l) <= |items| && v == Load(t, items[..Max(k, l)]);
  }

  /** After a partial load, a complete one leaves the table that one clean load leaves. */
  lemma PartThenAll(t: Table, items: seq<Item>, u: Table)
    requires DistinctIds(items) && PartLoaded(t, items, u)
    ensures Load(u, items) == Load(t, items)
  {
    var k: nat :| k <= |items| && u == Load(t, items[..k]);
    LoadTwoPrefixes(t, items, k, |items|);
    assert items[..|items|] == items;
  }

  // ---------------------------------------------------------------- the groups of one ingest

  /** Loading groups one after the other, each deduplicated. */
  function LoadGroups(t: Table, gs: seq<seq<Item>>): Table {
    if gs == [] then t else Load(LoadGroups(t, gs[..|gs| - 1]), Unique(gs[|gs| - 1]))
  }

  lemma {:induction false} LoadGroupsCons(t: Table, g: seq<Item>, gs: seq<seq<Item>>)
    ensures LoadGroups(t, [g] + gs) == LoadGroups(Load(t, Unique(g)), gs)
  {
    var all := [g] + gs;
    var front := all[..|gs|];
    assert LoadGroups(t, all) == Load(LoadGroups(t, front), Unique(all[|gs|]));
    if gs == [] {
      assert front == [];
    } else {
      assert front == [g] + gs[..|gs| - 1];
      LoadGroupsCons(t, g, gs[..|gs| - 1]);
    }
  }

  /** The loader calls for one group that was tried once or twice. */
  function Attempts(group: seq<Item>, tries: nat): seq<seq<Item>> {
    if tries == 2 then [Unique(group), Unique(group)] else [Unique(group)]
  }

  /** The loader calls for the groups `gs` when the `i`-th was tried `tries[i]` times. */
  function LoadLog(gs: seq<seq<Item>>, tries: seq<nat>): seq<seq<Item>>
    requires |gs| == |tries|
  {
    if gs == [] then []
    else LoadLog(gs[..|gs| - 1], tries[..|gs| - 1]) + Attempts(gs[|gs| - 1], tries[|gs| - 1])
  }

  /** Since `before`, the loader was called for the first `|tries|` groups in order, once or
      twice each, and every call for a group got the same items. */
  ghost predicate Logged(before: seq<seq<Item>>, after: seq<seq<Item>>, gs: seq<seq<Item>>, tries: seq<nat>) {
    && |tries| <= |gs|
    && (forall n :: n in tries ==> 1 <= n <= 2)
    && after == before + LoadLog(gs[..|tries|], tries)
  }

  lemma LoggedSnoc(before: seq<seq<Item>>, mid: seq<seq<Item>>, gs: seq<seq<Item>>, tries: seq<nat>, n: nat)
    requires Logged(before, mid, gs, tries) && |tries| < |gs| && 1 <= n <= 2
    ensures Logged(before, mid + Attempts(gs[|tries|], n), gs, tries + [n])
  {
    var i := |tries|;
    assert gs[..i + 1][..i] == gs[..i] && (tries + [n])[..i] == tries;
    assert LoadLog(gs[..i + 1], tries + [n]) == LoadLog(gs[..i], tries) + Attempts(gs[i], n);
  }

  lemma LoadGroupsNext(t: Table, gs: seq<seq<Item>>, i: nat)
    requires i < |gs|
    ensures LoadGroups(t, gs[..i + 1]) == Load(LoadGroups(t, gs[..i]), Unique(gs[i]))
  {
    assert gs[..i + 1][..i] == gs[..i];
  }

  /** The table after a failure: some groups complete and a part of the next one. */
  ghost predicate StoppedIn(before: Table, gs: seq<seq<Item>>, done: nat, after: Table)
    requires done < |gs|
  {
    PartLoaded(LoadGroups(before, gs[..done]), Unique(gs[done]), after)
  }

  /** The loader was called since `before`, and its last call ended with `o`. */
  ghost predicate EndedWith(before: seq<Outcome>, after: seq<Outcome>, o: Outcome) {
    before < after && after[|after| - 1] == o
  }

  /** The database and a log of the item sequences its loader was given and of how the calls ended. */
  class PgStac {
    var table: Table
    ghost var loads: seq<seq<Item>>
    ghost var outcomes: seq<Outcome>

    /** The loader: an upsert of the items that may fail after any of them. */
    method LoadItems(items: seq<Item>) returns (o: Outcome)
      modifies this
      ensures loads == old(loads) + [items] && outcomes == old(outcomes) + [o]
      ensures o.Loaded? ==> table == Load(old(table), items)
      ensures PartLoaded(old(table), items, table)
    {
      var done: nat :| done <= |items|;
      o := *;
      if o.Loaded? {
        done := |items|;
      }
      assert items[..|items|] == items;
      table := Load(table, items[..done]);
      loads, outcomes := loads + [items], outcomes + [o];
    }

    /** `_with_connection_retry` around one load of a group. The group is a tuple, so a second
        attempt sees the same items. */
    method WithConnectionRetry(group: seq<Item>, retries: nat) returns (o: Outcome, ghost tries: nat)
      requires retries <= 1
      modifies this
      decreases 1 - retries
      ensures 1 <= tries <= 2 - retries
      ensures loads == old(loads) + Attempts(group, tries)
      ensures EndedWith(old(outcomes), outcomes, o) && |outcomes| == |old(outcomes)| + tries
      ensures tries == 2 <==> retries == 0 && outcomes[|old(outcomes)|].ConnectionError?
      ensures o.Loaded? ==> table == Load(old(table), Unique(group))
      ensures PartLoaded(old(table), Unique(group), table)
    {
      var u := UniqueItems(group);
      UniqueDistinct(group);
      o := LoadItems(u);
      tries := 1;
      if o.ConnectionError? {
        if retries >= 1 {
          return;
        }
        ghost var part := table;
        o, tries := WithConnectionRetry(group, retries + 1);
        tries := tries + 1;
        PartLoadedTwice(old(table), u, part, table);
        PartThenAll(old(table), u, part);
      }
    }

    /** `ingest_items` on a re-iterable input; size 0 stands for None, both mean one group.
        `done` groups were loaded; when the outcome is an error the next one failed. */
    method IngestItems(items: seq<Item>, insertGroupSize: nat)
      returns (o: Outcome, done: nat, ghost tries: seq<nat>)
      modifies this
      ensures Logged(old(loads), loads, Groups(items, insertGroupSize), tries)
      ensures o.Loaded? ==> done == |tries| == |Groups(items, insertGroupSize)|
      ensures o.Loaded? ==> table == LoadGroups(old(table), Groups(items, insertGroupSize))
      ensures !o.Loaded? ==> done + 1 == |tries| && StoppedIn(old(table), Groups(items, insertGroupSize), done, table)
      ensures old(outcomes) <= outcomes && (!o.Loaded? ==> EndedWith(old(outcomes), outcomes, o))
    {
      var gs := Groups(items, insertGroupSize);
      tries := [];
      done := 0;
      o := Loaded;
      assert loads + [] == loads;
      while done < |gs|
        invariant 0 <= done <= |gs| && |tries| == done && o.Loaded?
        invariant Logged(old(loads), loads, gs, tries)
        invariant table == LoadGroups(old(table), gs[..done])
        invariant old(outcomes) <= outcomes
      {
        ghost var mid := loads;
        ghost var n;
        o, n := WithConnectionRetry(gs[done], 0);
        LoggedSnoc(old(loads), mid, gs, tries, n);
        LoadGroupsNext(old(table), gs, done);
        tries := tries + [n];
        if !o.Loaded? {
          return;
        }
        done := done + 1;
      }
      assert gs[..|gs|] == gs;
    }

    /** The loader fed from a one-shot iterator over `rest`: it takes some items, of which the
        generator passes on the first of each id, and stores some of those. */
    method LoadFromIterator(rest: seq<Item>) returns (o: Outcome, taken: nat, stored: nat)
      modifies this
      ensures taken <= |rest| && stored <= |Unique(rest[..taken])|
      ensures table == Load(old(table), Unique(rest[..taken])[..stored])
      ensures o.Loaded? ==> taken == |rest| && stored == |Unique(rest)|
      ensures outcomes == old(outcomes) + [o]
    {
      taken :| taken <= |rest|;
      o := *;
      if o.Loaded? {
        taken := |rest|;
      }
      assert rest[..|rest|] == rest;
      var u := UniqueItems(rest[..taken]);
      stored :| stored <= |u|;
      if o.Loaded? {
        stored := |u|;
      }
      table := Load(table, u[..stored]);
      outcomes := outcomes + [o];
    }

    /** `ingest_items` without a group size when the input is a one-shot iterator: the single
        group is the iterator itself, and a retry goes on where the first attempt stopped taking,
        with nothing seen yet. `more` and `moreStored` tell what the retry took and stored. */
    method IngestIterator(items: seq<Item>)
      returns (o: Outcome, retried: bool, taken: nat, stored: nat, more: nat, moreStored: nat)
      modifies this
      ensures taken <= |items| && stored <= |Unique(items[..taken])|
      ensures more <= |items| - taken && moreStored <= |Unique(items[taken..][..more])|
      ensures table == AfterTwoParts(old(table), items, taken, stored, more, moreStored)
      ensures o.Loaded? && !retried ==> table == Load(old(table), Unique(items))
      ensures o.Loaded? && retried ==> table == AfterStreamRetry(old(table), items, taken, stored)
      ensures EndedWith(old(outcomes), outcomes, o) && |outcomes| == |old(outcomes)| + if retried then 2 else 1
      ensures retried <==> outcomes[|old(outcomes)|].ConnectionError?
    {
      retried, more, moreStored := false, 0, 0;
      o, taken, stored := LoadFromIterator(items);
      var rest := items[taken..];
      if o.ConnectionError? {
        retried := true;
        o, more, moreStored := LoadFromIterator(rest);
        assert rest[..|rest|] == rest;
        if o.Loaded? {
          assert Unique(rest[..more])[..moreStored] == Unique(rest);
        }
      } else if o.Loaded? {
        assert items[..|items|] == items;
        assert Unique(items[..taken])[..stored] == Unique(items);
      }
      assert !retried ==> rest[..0] == [] && Unique(rest[..0])[..0] == [];
    }

    /** `ingest_items` on a file handle, as `ingest_item_paths` calls it: with a group size the
        groups are tuples taken from the handle, otherwise the group is the handle. */
    method IngestHandle(items: seq<Item>, insertGroupSize: nat) returns (o: Outcome, retried: bool)
      modifies this
      ensures o.Loaded? && (insertGroupSize != 0 || !retried) ==>
                table == LoadGroups(old(table), Groups(items, insertGroupSize))
      ensures !o.Loaded? && insertGroupSize != 0 ==> exists done: nat ::
                done < |Groups(items, insertGroupSize)|
                && StoppedIn(old(table), Groups(items, insertGroupSize), done, table)
      ensures o.Loaded? && retried ==> insertGroupSize == 0 && exists taken: nat, stored: nat ::
                taken <= |items| && stored <= |Unique(items[..taken])|
                && table == AfterStreamRetry(old(table), items, taken, stored)
      ensures old(outcomes) <= outcomes && (!o.Loaded? ==> EndedWith(old(outcomes), outcomes, o))
    {
      if insertGroupSize != 0 {
        var done;
        ghost var tries;
        o, done, tries := IngestItems(items, insertGroupSize);
        retried := false;
      } else {
        var taken, stored, more, moreStored;
        o, retried, taken, stored, more, moreStored := IngestIterator(items);
        OneGroup(old(table), items);
      }
    }
  }

  lemma OneGroup(t: Table, items: seq<Item>)
    ensures LoadGroups(t, [items]) == Load(t, Unique(items))
  {
    LoadGroupsCons(t, items, []);
    assert [items] + [] == [items];
  }

  /** The table when a first attempt took `taken` items and stored the first `stored` unique ones
      of them, and a second attempt took `more` of the rest and stored `moreStored`. */
  function AfterTwoParts(t: Table, items: seq<Item>, taken: nat, stored: nat, more: nat, moreStored: nat): Table
    requires taken <= |items| && stored <= |Unique(items[..taken])|
    requires more <= |items| - taken && moreStored <= |Unique(items[taken..][..more])|
  {
    Load(Load(t, Unique(items[..taken])[..stored]), Unique(items[taken..][..more])[..moreStored])
  }

  /** The table when the connection broke after `taken` items, of which the first `stored`
      unique ones were stored, and the retry loaded the rest. */
  function AfterStreamRetry(t: Table, items: seq<Item>, taken: nat, stored: nat): Table
    requires taken <= |items| && stored <= |Unique(items[..taken])|
  {
    Load(Load(t, Unique(items[..taken])[..stored]), Unique(items[taken..]))
  }

  function Groups(items: seq<Item>, insertGroupSize: nat): seq<seq<Item>> {
    if insertGroupSize != 0 then Grouped(items, insertGroupSize) else [items]
  }
}
