/** What an ingest of prepared chunks leaves in the database. */
module NdjsonTheorems {
  import opened Common
  import opened NdjsonText
  import opened NdjsonPool
  import opened PgStac
  import opened PgStacTheorems
  import opened NdjsonLoad
  import opened NdjsonIngest

  /** The items in a text: those of its lines that parse. */
  function TextItems(idOf: IdOf, text: string): seq<Item> {
    Parsable(idOf, ItemLines(Universal(text)))
  }

  ghost predicate InText(idOf: IdOf, texts: seq<string>, x: Item) {
    exists text :: text in texts && x in TextItems(idOf, text)
  }

  /** An item of one of the uris that the chunks stand for. */
  ghost predicate ItemIn(src: Source, all: multiset<Prepared>, x: Item) {
    exists c :: c in all && x in TextItems(src.idOf, src.textOf(c.uri))
  }

  ghost predicate Stored(t: Table, x: Item) {
    x.id in t && t[x.id] == x
  }

  /** No id has two different items. */
  ghost predicate OneItemPerId(src: Source, all: multiset<Prepared>) {
    forall x, y :: ItemIn(src, all, x) && ItemIn(src, all, y) && x.id == y.id ==> x == y
  }

  /** Chunks that share a file have the same text. */
  ghost predicate Agreeing(src: Source, all: multiset<Prepared>) {
    forall c, d :: c in all && d in all && c.preparedPath == d.preparedPath ==> src.textOf(c.uri) == src.textOf(d.uri)
  }

  lemma DifferAgree(src: Source, all: multiset<Prepared>)
    requires PathsDiffer(all)
    ensures Agreeing(src, all)
  {
    forall c, d | c in all && d in all && c.preparedPath == d.preparedPath
      ensures c == d
    {
      if c != d {
        assert TwoOf(all, c, d);
      }
    }
  }

  lemma TwiceIn(chunks: multiset<Prepared>, c: Prepared)
    requires TwoOf(chunks + multiset{c}, c, c)
    ensures c in chunks
  {
    assert multiset{c, c}[c] == 2;
  }

  lemma PathsDifferAdd(chunks: multiset<Prepared>, c: Prepared)
    requires PathsDiffer(chunks) && forall d :: d in chunks ==> d.preparedPath != c.preparedPath
    ensures PathsDiffer(chunks + multiset{c})
  {
    forall d, e | TwoOf(chunks + multiset{c}, d, e)
      ensures d.preparedPath != e.preparedPath
    {
      assert multiset{d, e}[d] > 0 && multiset{d, e}[e] > 0;
      if d != c && e != c {
        assert TwoOf(chunks, d, e) by {
          assert multiset{d, e}[c] == 0;
        }
      } else if d == c && e == c {
        TwiceIn(chunks, c);
        assert false;
      }
    }
  }

  lemma {:induction false} ChunkUris(src: Source, uris: seq<string>, fates: seq<Fate>, c: Prepared)
    requires |uris| == |fates| && c in DoneChunks(Outcomes(src, uris, fates))
    ensures exists i :: 0 <= i < |uris| && c == ChunkOf(src, uris[i])
  {
    if uris != [] {
      var k := |uris| - 1;
      OutcomesSnoc(src, uris, fates);
      if c in DoneChunks(Outcomes(src, uris[..k], fates[..k])) {
        ChunkUris(src, uris[..k], fates[..k], c);
        var i :| 0 <= i < k && c == ChunkOf(src, uris[..k][i]);
        assert c == ChunkOf(src, uris[i]);
      } else {
        assert c == ChunkOf(src, uris[k]);
      }
    }
  }

  /** The chunk of a uri whose preparation succeeds: its path and the number of its lines. */
  predicate ChunkAt(src: Source, uri: string, fate: Fate, c: Prepared) {
    fate.Prepares? && c.uri == uri && c.preparedPath == src.pathOf(uri) && c.lineCount == |Lines(src.textOf(uri))|
  }

  ghost predicate SomeChunk(src: Source, uris: seq<string>, fates: seq<Fate>, c: Prepared)
    requires |uris| == |fates|
  {
    exists i :: 0 <= i < |uris| && ChunkAt(src, uris[i], fates[i], c)
  }

  lemma SomeChunkSnoc(src: Source, uris: seq<string>, fates: seq<Fate>, c: Prepared)
    requires |uris| == |fates| > 0
    ensures var k := |uris| - 1;
      SomeChunk(src, uris, fates, c) <==> SomeChunk(src, uris[..k], fates[..k], c) || ChunkAt(src, uris[k], fates[k], c)
  {
    var k := |uris| - 1;
    if i :| 0 <= i < k && ChunkAt(src, uris[..k][i], fates[..k][i], c) {
      assert ChunkAt(src, uris[i], fates[i], c);
    }
    if i :| 0 <= i < |uris| && ChunkAt(src, uris[i], fates[i], c) && i < k {
      assert ChunkAt(src, uris[..k][i], fates[..k][i], c);
    }
  }

  /** The chunks of a call are those of the uris whose preparation succeeds. */
  lemma {:induction false} ChunksMean(src: Source, uris: seq<string>, fates: seq<Fate>, c: Prepared)
    requires |uris| == |fates|
    ensures c in Chunks(src, uris, fates) <==> exists i :: 0 <= i < |uris| && ChunkAt(src, uris[i], fates[i], c)
  {
    if uris == [] {
      assert Outcomes(src, uris, fates) == [];
    } else {
      var k := |uris| - 1;
      ChunksMean(src, uris[..k], fates[..k], c);
      SomeChunkSnoc(src, uris, fates, c);
      OutcomesSnoc(src, uris, fates);
    }
  }

  /** When the uris of a call have pairwise different paths, no two of its chunks share a file. */
  lemma DistinctPaths(src: Source, uris: seq<string>, fates: seq<Fate>)
    requires |uris| == |fates|
    requires forall i, j :: 0 <= i < j < |uris| ==> src.pathOf(uris[i]) != src.pathOf(uris[j])
    ensures PathsDiffer(Chunks(src, uris, fates)) && Agreeing(src, Chunks(src, uris, fates))
  {
    DistinctPathsDiffer(src, uris, fates);
    DifferAgree(src, Chunks(src, uris, fates));
  }

  lemma {:induction false} DistinctPathsDiffer(src: Source, uris: seq<string>, fates: seq<Fate>)
    requires |uris| == |fates|
    requires forall i, j :: 0 <= i < j < |uris| ==> src.pathOf(uris[i]) != src.pathOf(uris[j])
    ensures PathsDiffer(Chunks(src, uris, fates))
  {
    if uris == [] {
      assert Outcomes(src, uris, fates) == [];
      forall c, d
        ensures !TwoOf(multiset{}, c, d)
      {
        assert multiset{c, d}[c] > 0;
      }
    } else {
      var k := |uris| - 1;
      DistinctPathsDiffer(src, uris[..k], fates[..k]);
      OutcomesSnoc(src, uris, fates);
      var front := DoneChunks(Outcomes(src, uris[..k], fates[..k]));
      if fates[k].Prepares? {
        var c := ChunkOf(src, uris[k]);
        forall d | d in front
          ensures d.preparedPath != c.preparedPath
        {
          ChunkUris(src, uris[..k], fates[..k], d);
        }
        PathsDifferAdd(multiset(front), c);
        assert multiset(front + [c]) == multiset(front) + multiset{c};
      } else {
        assert front + [] == front;
      }
    }
  }

  // ---------------------------------------------------------------- the items of a flush

  lemma InTextSnoc(idOf: IdOf, front: seq<string>, last: string, x: Item)
    ensures InText(idOf, front + [last], x) <==> InText(idOf, front, x) || x in TextItems(idOf, last)
  {
    assert forall t :: t in front + [last] <==> t in front || t == last;
  }

  lemma AllLinesSnoc(idOf: IdOf, front: seq<string>, last: string, x: Item)
    requires x in Parsable(idOf, AllItemLines(front)) <==> InText(idOf, front, x)
    ensures x in Parsable(idOf, AllItemLines(front + [last])) <==> InText(idOf, front + [last], x)
  {
    var lines := ItemLines(Universal(last));
    assert (front + [last])[..|front|] == front;
    assert AllItemLines(front + [last]) == AllItemLines(front) + lines;
    ParsableConcat(idOf, AllItemLines(front), lines);
    InTextSnoc(idOf, front, last, x);
  }

  lemma {:induction false} AllLinesItems(idOf: IdOf, texts: seq<string>, x: Item)
    ensures x in Parsable(idOf, AllItemLines(texts)) <==> InText(idOf, texts, x)
  {
    if texts != [] {
      var front, last := texts[..|texts| - 1], texts[|texts| - 1];
      assert texts == front + [last];
      AllLinesItems(idOf, front, x);
      AllLinesSnoc(idOf, front, last, x);
    }
  }

  /** The lines of a flush that parse carry the items of the texts that were read. */
  lemma FlushItems(idOf: IdOf, texts: seq<string>, x: Item)
    requires idOf("").None?
    ensures x in Parsable(idOf, FlushLines(texts)) <==> InText(idOf, texts, x)
  {
    var content := Concatenated(PreparedTexts(texts));
    ParsableNonBlank(idOf, FlushLines(texts));
    FileLinesNonBlank(content);
    ItemLinesKept(texts);
    AllLinesItems(idOf, texts, x);
  }

  lemma ReadItemsIn(src: Source, all: multiset<Prepared>, group: seq<Prepared>, texts: seq<string>, x: Item)
    requires ReadFrom(src, all, group, texts) && InText(src.idOf, texts, x)
    ensures ItemIn(src, all, x)
  {
    var text :| text in texts && x in TextItems(src.idOf, text);
    var i :| 0 <= i < |texts| && texts[i] == text;
    assert WrittenBy(src, all, group[i].preparedPath, text);
  }

  /** A row is as before, or an item of the call. */
  ghost predicate RowOfCall(src: Source, all: multiset<Prepared>, before: Table, after: Table, id: string) {
    SameRow(after, before, id) || (id in after && after[id].id == id && ItemIn(src, all, after[id]))
  }

  lemma StepRow(before: Table, after: Table, src: Source, all: multiset<Prepared>, group: seq<Prepared>,
                texts: seq<string>, ok: bool, n: nat, id: string)
    requires n > 0 && src.idOf("").None? && Step(before, after, src, all, group, texts, ok, n)
    ensures RowOfCall(src, all, before, after, id)
  {
    var lines := FlushLines(texts);
    var items := ParsedFront(src.idOf, lines);
    ParsedFrontMeans(src.idOf, lines);
    assert PartIngested(before, items, n, after);
    PartRow(before, items, n, after, id);
    if !SameRow(after, before, id) {
      FlushItems(src.idOf, texts, after[id]);
      ReadItemsIn(src, all, group, texts, after[id]);
    }
  }

  /** An ingest stores an item if its id has no other item. */
  lemma IngestStores(before: Table, items: seq<Item>, n: nat, x: Item)
    requires n > 0 && x in items && forall y :: y in items && y.id == x.id ==> y == x
    ensures Stored(Ingested(before, items, n), x)
  {
    var k :| 0 <= k < |items| && items[k] == x;
    FinalTable(before, items, n, x.id);
    assert HasId(items, x.id);
    var i :| IsFinal(items, n, i) && items[i].id == x.id && Ingested(before, items, n)[x.id] == items[i];
    assert items[i] in items;
  }

  /** A successful flush stores every item it read, if no id has two different items. */
  lemma StepStores(before: Table, after: Table, src: Source, all: multiset<Prepared>, group: seq<Prepared>,
                   texts: seq<string>, n: nat, x: Item)
    requires n > 0 && src.idOf("").None? && Step(before, after, src, all, group, texts, true, n)
    requires OneItemPerId(src, all) && InText(src.idOf, texts, x)
    ensures Stored(after, x)
  {
    var lines := FlushLines(texts);
    var items := ParseAll(src.idOf, lines).value;
    ParsedFrontMeans(src.idOf, lines);
    FlushItems(src.idOf, texts, x);
    ReadItemsIn(src, all, group, texts, x);
    forall y | y in items && y.id == x.id
      ensures y == x
    {
      FlushItems(src.idOf, texts, y);
      ReadItemsIn(src, all, group, texts, y);
    }
    IngestStores(before, items, n, x);
  }

  lemma {:induction false} StepsRow(before: Table, after: Table, src: Source, all: multiset<Prepared>,
                                    flushes: seq<seq<Prepared>>, texts: seq<seq<string>>, oks: seq<bool>, n: nat,
                                    id: string)
    requires n > 0 && src.idOf("").None? && |flushes| == |texts| == |oks|
    requires Steps(before, after, src, all, flushes, texts, oks, n)
    ensures RowOfCall(src, all, before, after, id)
    decreases |flushes|
  {
    if flushes != [] {
      var k := |flushes| - 1;
      var mid :| Steps(before, mid, src, all, flushes[..k], texts[..k], oks[..k], n)
                 && Step(mid, after, src, all, flushes[k], texts[k], oks[k], n);
      StepsRow(before, mid, src, all, flushes[..k], texts[..k], oks[..k], n, id);
      StepRow(mid, after, src, all, flushes[k], texts[k], oks[k], n, id);
    }
  }

  lemma StaysStored(mid: Table, after: Table, src: Source, all: multiset<Prepared>, x: Item)
    requires Stored(mid, x) && RowOfCall(src, all, mid, after, x.id)
    requires OneItemPerId(src, all) && ItemIn(src, all, x)
    ensures Stored(after, x)
  {
  }

  /** What a successful flush stored is there after all later ones. */
  lemma {:induction false} StepsStore(before: Table, after: Table, src: Source, all: multiset<Prepared>,
                                      flushes: seq<seq<Prepared>>, texts: seq<seq<string>>, oks: seq<bool>, n: nat,
                                      j: nat, x: Item)
    requires n > 0 && src.idOf("").None? && |flushes| == |texts| == |oks| && j < |flushes|
    requires Steps(before, after, src, all, flushes, texts, oks, n)
    requires OneItemPerId(src, all) && ItemIn(src, all, x) && oks[j] && InText(src.idOf, texts[j], x)
    ensures Stored(after, x)
    decreases |flushes|
  {
    var k := |flushes| - 1;
    var mid :| Steps(before, mid, src, all, flushes[..k], texts[..k], oks[..k], n)
               && Step(mid, after, src, all, flushes[k], texts[k], oks[k], n);
    if j == k {
      StepStores(mid, after, src, all, flushes[k], texts[k], n, x);
    } else {
      StepsStore(before, mid, src, all, flushes[..k], texts[..k], oks[..k], n, j, x);
      StepRow(mid, after, src, all, flushes[k], texts[k], oks[k], n, x.id);
      StaysStored(mid, after, src, all, x);
    }
  }

  lemma {:induction false} StepsRead(before: Table, after: Table, src: Source, all: multiset<Prepared>,
                                     flushes: seq<seq<Prepared>>, texts: seq<seq<string>>, oks: seq<bool>, n: nat,
                                     j: nat)
    requires n > 0 && |flushes| == |texts| == |oks| && j < |flushes|
    requires Steps(before, after, src, all, flushes, texts, oks, n)
    ensures ReadFrom(src, all, flushes[j], texts[j]) && (oks[j] ==> |texts[j]| == |flushes[j]|)
    decreases |flushes|
  {
    var k := |flushes| - 1;
    var mid :| Steps(before, mid, src, all, flushes[..k], texts[..k], oks[..k], n)
               && Step(mid, after, src, all, flushes[k], texts[k], oks[k], n);
    if j < k {
      StepsRead(before, mid, src, all, flushes[..k], texts[..k], oks[..k], n, j);
    }
  }

  // ---------------------------------------------------------------- what the call stores

  /** A call that ended, with some chunks possibly unread or queued. */
  ghost predicate Ended(before: Table, after: Table, src: Source, all: multiset<Prepared>, target: int, log: Log,
                        pending: multiset<Prepared>, queued: seq<Prepared>)
  {
    && target > 0 && src.idOf("").None?
    && Recorded(log) && Steps(before, after, src, all, log.flushes, log.texts, log.oks, target)
    && Balance(all, pending, log.flushes, queued)
  }

  lemma {:induction false} FlattenMember<T>(ss: seq<seq<T>>, j: nat, x: T)
    requires j < |ss| && x in ss[j]
    ensures x in Flatten(ss)
  {
    var k := |ss| - 1;
    if j < k {
      FlattenMember(ss[..k], j, x);
    }
  }

  lemma FlushedInAll(all: multiset<Prepared>, pending: multiset<Prepared>, flushes: seq<seq<Prepared>>,
                     queued: seq<Prepared>, j: nat, c: Prepared)
    requires Balance(all, pending, flushes, queued) && j < |flushes| && c in flushes[j]
    ensures c in all
  {
    FlattenMember(flushes, j, c);
    assert c in Flatten(flushes) + queued;
    assert c in pending + multiset(Flatten(flushes) + queued);
  }

  /** The items of a chunk in a successful flush are stored, whatever other flushes did. */
  lemma FlushedStored(before: Table, after: Table, src: Source, all: multiset<Prepared>, target: nat, log: Log,
                      pending: multiset<Prepared>, queued: seq<Prepared>, j: nat, c: Prepared, x: Item)
    requires Ended(before, after, src, all, target, log, pending, queued)
    requires OneItemPerId(src, all) && Agreeing(src, all)
    requires j < |log.flushes| && log.oks[j] && c in log.flushes[j] && x in TextItems(src.idOf, src.textOf(c.uri))
    ensures Stored(after, x)
  {
    FlushedInAll(all, pending, log.flushes, queued, j, c);
    StepsRead(before, after, src, all, log.flushes, log.texts, log.oks, target, j);
    var i :| 0 <= i < |log.flushes[j]| && log.flushes[j][i] == c;
    assert WrittenBy(src, all, c.preparedPath, log.texts[j][i]);
    assert log.texts[j][i] in log.texts[j];
    assert ItemIn(src, all, x);
    StepsStore(before, after, src, all, log.flushes, log.texts, log.oks, target, j, x);
  }

  lemma {:induction false} UriFrom(flushes: seq<seq<Prepared>>, oks: seq<bool>, ok: bool, u: string)
    requires |flushes| == |oks| && u in UrisWhere(flushes, oks, ok)
    ensures exists j, c :: 0 <= j < |flushes| && oks[j] == ok && c in flushes[j] && c.uri == u
  {
    var k := |flushes| - 1;
    if u in UrisWhere(flushes[..k], oks[..k], ok) {
      UriFrom(flushes[..k], oks[..k], ok, u);
      var j, c :| 0 <= j < k && oks[..k][j] == ok && c in flushes[..k][j] && c.uri == u;
      assert oks[j] == ok && c in flushes[j];
    } else {
      var i :| 0 <= i < |flushes[k]| && flushes[k][i].uri == u;
      assert flushes[k][i] in flushes[k];
    }
  }

  /** Whatever failed: the items of every uri in the success list are in the table, if no id has two
      different items; and a row that is not as before is an item of the call. */
  lemma SuccessUrisStored(before: Table, after: Table, src: Source, all: multiset<Prepared>, target: nat, log: Log,
                          pending: multiset<Prepared>, queued: seq<Prepared>)
    requires Ended(before, after, src, all, target, log, pending, queued)
    requires OneItemPerId(src, all) && Agreeing(src, all)
    ensures forall u, x :: u in log.success && x in TextItems(src.idOf, src.textOf(u)) ==> Stored(after, x)
    ensures forall id :: RowOfCall(src, all, before, after, id)
  {
    forall u, x | u in log.success && x in TextItems(src.idOf, src.textOf(u))
      ensures Stored(after, x)
    {
      UriFrom(log.flushes, log.oks, true, u);
      var j: nat, c :| j < |log.flushes| && log.oks[j] && c in log.flushes[j] && c.uri == u;
      FlushedStored(before, after, src, all, target, log, pending, queued, j, c, x);
    }
    forall id
      ensures RowOfCall(src, all, before, after, id)
    {
      StepsRow(before, after, src, all, log.flushes, log.texts, log.oks, target, id);
    }
  }

  lemma {:induction false} InSomeFlush<T>(ss: seq<seq<T>>, x: T)
    requires x in Flatten(ss)
    ensures exists j :: 0 <= j < |ss| && x in ss[j]
  {
    var k := |ss| - 1;
    if x !in ss[k] {
      InSomeFlush(ss[..k], x);
      var j :| 0 <= j < k && x in ss[..k][j];
      assert x in ss[j];
    }
  }

  /** After a call in which every preparation was read and every flush succeeded, all items are in the
      table if and only if no id has two different items. */
  lemma EveryItemStored(before: Table, after: Table, src: Source, all: multiset<Prepared>, target: nat, log: Log)
    requires Ended(before, after, src, all, target, log, multiset{}, []) && forall ok :: ok in log.oks ==> ok
    requires Agreeing(src, all)
    ensures (forall x :: ItemIn(src, all, x) ==> Stored(after, x)) <==> OneItemPerId(src, all)
    ensures forall id :: RowOfCall(src, all, before, after, id)
  {
    if OneItemPerId(src, all) {
      forall x | ItemIn(src, all, x)
        ensures Stored(after, x)
      {
        var c :| c in all && x in TextItems(src.idOf, src.textOf(c.uri));
        assert Flatten(log.flushes) + [] == Flatten(log.flushes);
        InSomeFlush(log.flushes, c);
        var j: nat :| j < |log.flushes| && c in log.flushes[j];
        assert log.oks[j] in log.oks;
        FlushedStored(before, after, src, all, target, log, multiset{}, [], j, c, x);
      }
    }
    forall id
      ensures RowOfCall(src, all, before, after, id)
    {
      StepsRow(before, after, src, all, log.flushes, log.texts, log.oks, target, id);
    }
  }

  /** The table depends neither on the completion order nor on the target: two such calls over the
      same chunks, with one item for each id, leave the same table. */
  lemma CompletionOrderIrrelevant(before: Table, src: Source, all: multiset<Prepared>, a: Table, targetA: nat,
                                  logA: Log, b: Table, targetB: nat, logB: Log)
    requires Ended(before, a, src, all, targetA, logA, multiset{}, []) && forall ok :: ok in logA.oks ==> ok
    requires Ended(before, b, src, all, targetB, logB, multiset{}, []) && forall ok :: ok in logB.oks ==> ok
    requires OneItemPerId(src, all) && Agreeing(src, all)
    ensures a == b
  {
    EveryItemStored(before, a, src, all, targetA, logA);
    EveryItemStored(before, b, src, all, targetB, logB);
    forall id
      ensures SameRow(a, b, id)
    {
      assert RowOfCall(src, all, before, a, id) && RowOfCall(src, all, before, b, id);
      if !SameRow(a, before, id) {
        assert Stored(b, a[id]);
      } else if !SameRow(b, before, id) {
        assert Stored(a, b[id]);
      }
    }
    SameTables(a, b);
  }
}
