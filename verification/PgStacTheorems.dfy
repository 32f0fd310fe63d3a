/** What `PgStac.IngestItems` leaves in the table. */
module PgStacTheorems {
  import opened Common
  import opened Grouping
  import opened PgStac

  /** The block of `n` that holds position `i`. */
  function Block(i: nat, n: nat): nat
    requires n > 0
  {
    if i < n then 0 else 1 + Block(i - n, n)
  }

  lemma {:induction false} BlockIsQuotient(i: nat, n: nat)
    requires n > 0
    ensures Block(i, n) == i / n
  {
    DivStep(i, n);
    if i >= n {
      BlockIsQuotient(i - n, n);
    }
  }

  /** `items[i]` is the first item with its id inside the last block of `n` that has the id. */
  ghost predicate IsFinal(items: seq<Item>, n: nat, i: int)
    requires n > 0
  {
    && 0 <= i < |items|
    && (forall j :: 0 <= j < |items| && items[j].id == items[i].id ==> Block(j, n) <= Block(i, n))
    && (forall j :: 0 <= j < i && items[j].id == items[i].id ==> Block(j, n) < Block(i, n))
  }

  /** Block by block: deduplicate, then upsert. */
  function Ingested(t: Table, items: seq<Item>, n: nat): Table
    requires n > 0
    decreases |items|
  {
    if items == [] then t
    else
      var m := Min(n, |items|);
      Ingested(Load(t, Unique(items[..m])), items[m..], n)
  }

  /** That is what `IngestItems` does with the groups. */
  lemma {:induction false} IngestedIsGroups(t: Table, items: seq<Item>, n: nat)
    requires n > 0
    ensures LoadGroups(t, Groups(items, n)) == Ingested(t, items, n)
    decreases |items|
  {
    if items != [] {
      var m := Min(n, |items|);
      LoadGroupsCons(t, items[..m], Grouped(items[m..], n));
      IngestedIsGroups(Load(t, Unique(items[..m])), items[m..], n);
    }
  }

  lemma NotInParts(items: seq<Item>, m: nat, id: string)
    requires m <= |items| && !HasId(items, id)
    ensures !HasId(items[..m], id) && !HasId(items[m..], id)
  {
    assert forall i | 0 <= i < m :: items[..m][i] == items[i];
    assert forall i | 0 <= i < |items| - m :: items[m..][i] == items[m + i];
  }

  lemma {:induction false} IngestedOther(t: Table, items: seq<Item>, n: nat, id: string)
    requires n > 0 && !HasId(items, id)
    ensures SameRow(Ingested(t, items, n), t, id)
    decreases |items|
  {
    if items != [] {
      var m := Min(n, |items|);
      NotInParts(items, m, id);
      UniqueIds(items[..m], id);
      LoadOther(t, Unique(items[..m]), id);
      IngestedOther(Load(t, Unique(items[..m])), items[m..], n, id);
    }
  }

  lemma InFirstBlock(items: seq<Item>, n: nat, i: int)
    requires n > 0 && IsFinal(items, n, i) && i < Min(n, |items|)
    ensures var m := Min(n, |items|);
      IsFirst(items[..m], i) && items[..m][i] == items[i] && !HasId(items[m..], items[i].id)
  {
    var m := Min(n, |items|);
    assert Block(i, n) == 0;
    forall j | 0 <= j < |items| - m
      ensures items[m..][j] == items[m + j] && Block(m + j, n) > 0
    {
    }
  }

  lemma InLaterBlock(items: seq<Item>, n: nat, i: int)
    requires n > 0 && n <= i < |items|
    ensures IsFinal(items[n..], n, i - n) <==> IsFinal(items, n, i)
  {
    var rest := items[n..];
    assert Block(i, n) == 1 + Block(i - n, n);
    forall j | 0 <= j < |rest|
      ensures rest[j] == items[j + n] && Block(j + n, n) == 1 + Block(j, n)
    {
    }
    forall j | n <= j < |items|
      ensures items[j] == rest[j - n] && Block(j, n) == 1 + Block(j - n, n)
    {
    }
  }

  /** The final row of an id is its first occurrence within the last block that contains it. */
  lemma {:induction false} FinalRow(t: Table, items: seq<Item>, n: nat, i: int)
    requires n > 0 && IsFinal(items, n, i)
    ensures items[i].id in Ingested(t, items, n) && Ingested(t, items, n)[items[i].id] == items[i]
    decreases |items|
  {
    var m := Min(n, |items|);
    var next := Load(t, Unique(items[..m]));
    if i < m {
      InFirstBlock(items, n, i);
      UniqueMeans(items[..m], items[i]);
      UniqueDistinct(items[..m]);
      LoadMeans(t, Unique(items[..m]));
      IngestedOther(next, items[m..], n, items[i].id);
    } else {
      InLaterBlock(items, n, i);
      FinalRow(next, items[n..], n, i - n);
    }
  }

  lemma {:induction false} FirstExists(items: seq<Item>, id: string) returns (i: int)
    requires HasId(items, id)
    ensures IsFirst(items, i) && items[i].id == id
  {
    var front, last := items[..|items| - 1], items[|items| - 1];
    assert items == front + [last];
    if HasId(front, id) {
      i := FirstExists(front, id);
      IsFirstSnoc(front, last, i);
    } else {
      HasIdAppend(front, last, id);
      IsFirstSnoc(front, last, |front|);
      i := |front|;
    }
  }

  /** Every id of the input has such an occurrence. */
  lemma {:induction false} FinalExists(items: seq<Item>, n: nat, id: string) returns (i: int)
    requires n > 0 && HasId(items, id)
    ensures IsFinal(items, n, i) && items[i].id == id
    decreases |items|
  {
    var m := Min(n, |items|);
    var block, rest := items[..m], items[m..];
    if HasId(rest, id) {
      var k := FinalExists(rest, n, id);
      i := k + n;
      InLaterBlock(items, n, i);
    } else {
      var k :| 0 <= k < |items| && items[k].id == id;
      assert forall j | m <= j < |items| :: rest[j - m] == items[j];
      assert block[k].id == id;
      i := FirstExists(block, id);
      assert forall j | 0 <= j < m :: block[j] == items[j];
    }
  }

  /** The table after an ingest without failures, row by row. */
  lemma FinalTable(t: Table, items: seq<Item>, n: nat, id: string)
    requires n > 0
    ensures !HasId(items, id) ==> SameRow(Ingested(t, items, n), t, id)
    ensures HasId(items, id) ==> exists i ::
              IsFinal(items, n, i) && items[i].id == id
              && id in Ingested(t, items, n) && Ingested(t, items, n)[id] == items[i]
  {
    if HasId(items, id) {
      var i := FinalExists(items, n, id);
      FinalRow(t, items, n, i);
    } else {
      IngestedOther(t, items, n, id);
    }
  }

  /** Ingesting the same input again changes nothing. */
  lemma IngestTwice(t: Table, items: seq<Item>, n: nat)
    requires n > 0
    ensures Ingested(Ingested(t, items, n), items, n) == Ingested(t, items, n)
  {
    var u := Ingested(t, items, n);
    forall id
      ensures SameRow(Ingested(u, items, n), u, id)
    {
      if HasId(items, id) {
        var i := FinalExists(items, n, id);
        FinalRow(t, items, n, i);
        FinalRow(u, items, n, i);
      } else {
        IngestedOther(u, items, n, id);
      }
    }
    SameTables(Ingested(u, items, n), u);
  }

  lemma {:induction false} UniqueOfDistinct(items: seq<Item>)
    requires DistinctIds(items)
    ensures Unique(items) == items
  {
    if items != [] {
      var front := items[..|items| - 1];
      UniqueOfDistinct(front);
      assert !HasId(front, items[|items| - 1].id) by {
        assert forall i | 0 <= i < |front| :: front[i] == items[i];
      }
    }
  }

  lemma DistinctPart(items: seq<Item>, lo: nat, hi: nat)
    requires lo <= hi <= |items| && DistinctIds(items)
    ensures DistinctIds(items[lo..hi])
  {
    var part := items[lo..hi];
    assert forall i | 0 <= i < |part| :: part[i] == items[lo + i];
  }

  lemma DistinctParts(items: seq<Item>, m: nat)
    requires m <= |items| && DistinctIds(items)
    ensures DistinctIds(items[..m]) && DistinctIds(items[m..])
    ensures Unique(items[..m]) == items[..m] && Unique(items[m..]) == items[m..]
    ensures items[..m] + items[m..] == items
  {
    var a, b := items[..m], items[m..];
    DistinctPart(items, 0, m);
    DistinctPart(items, m, |items|);
    assert items[0..m] == a && items[m..|items|] == b;
    UniqueOfDistinct(a);
    UniqueOfDistinct(b);
  }

  /** With distinct ids the group size does not matter. */
  lemma {:induction false} GroupSizeIrrelevant(t: Table, items: seq<Item>, n: nat)
    requires n > 0 && DistinctIds(items)
    ensures Ingested(t, items, n) == Load(t, items)
    decreases |items|
  {
    if items != [] {
      var m := Min(n, |items|);
      DistinctParts(items, m);
      GroupSizeIrrelevant(Load(t, items[..m]), items[m..], n);
      LoadAppend(t, items[..m], items[m..]);
    }
  }
}
