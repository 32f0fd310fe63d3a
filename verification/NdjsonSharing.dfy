/** Chunks that are prepared in one file: when every order of preparation stores all items. */
module NdjsonSharing {
  import opened Common
  import opened Text
  import opened NdjsonText
  import opened NdjsonPool
  import opened PgStac
  import opened PgStacTheorems
  import opened NdjsonLoad
  import opened NdjsonIngest
  import opened NdjsonTheorems

  /** The files after these preparations, one after the other. */
  function FilesOf(src: Source, order: seq<Prepared>): map<string, string> {
    if order == [] then map[]
    else FilesAfter(src, FilesOf(src, order[..|order| - 1]), Done(order[|order| - 1]))
  }

  /** The text that the last of the preparations at the path wrote. */
  function TextAt(src: Source, order: seq<Prepared>, path: string): string {
    if order == [] then ""
    else
      var last := order[|order| - 1];
      if last.preparedPath == path then src.textOf(last.uri) else TextAt(src, order[..|order| - 1], path)
  }

  function TextsAt(src: Source, order: seq<Prepared>, group: seq<Prepared>): seq<string> {
    seq(|group|, i requires 0 <= i < |group| => TextAt(src, order, group[i].preparedPath))
  }

  /** The file of each chunk is there and holds that text and a newline. */
  lemma {:induction false} FilesHoldLast(src: Source, order: seq<Prepared>, c: Prepared)
    requires c in order
    ensures c.preparedPath in FilesOf(src, order)
    ensures FilesOf(src, order)[c.preparedPath] == TextAt(src, order, c.preparedPath) + [NL]
  {
    var front, last := order[..|order| - 1], order[|order| - 1];
    if last.preparedPath != c.preparedPath {
      assert order == front + [last];
      FilesHoldLast(src, front, c);
    }
  }

  lemma {:induction false} TextAtFrom(src: Source, order: seq<Prepared>, c: Prepared) returns (e: Prepared)
    requires c in order
    ensures e in order && e.preparedPath == c.preparedPath
    ensures TextAt(src, order, c.preparedPath) == src.textOf(e.uri)
  {
    var front, last := order[..|order| - 1], order[|order| - 1];
    if last.preparedPath == c.preparedPath {
      e := last;
    } else {
      assert order == front + [last];
      e := TextAtFrom(src, front, c);
    }
  }

  /** No two different chunks are prepared in one file. */
  ghost predicate OwnFiles(group: seq<Prepared>) {
    forall c, d :: c in group && d in group && c.preparedPath == d.preparedPath ==> c == d
  }

  /** A text that has lines to load, no blank one among them, and all of them parse. */
  ghost predicate Clean(idOf: IdOf, text: string) {
    !HasBlank(text) && ParseAll(idOf, ItemLines(Universal(text))).Some?
  }

  ghost predicate CleanChunks(src: Source, group: seq<Prepared>) {
    forall c :: c in group ==> Clean(src.idOf, src.textOf(c.uri))
  }

  ghost predicate ItemOf(src: Source, c: Prepared, x: Item) {
    x in TextItems(src.idOf, src.textOf(c.uri))
  }

  /** An id has one item, and that item is in one chunk. */
  ghost predicate IdsApart(src: Source, group: seq<Prepared>) {
    forall c, d, x, y :: c in group && d in group && ItemOf(src, c, x) && ItemOf(src, d, y) && x.id == y.id ==>
      x == y && c == d
  }

  /** A flush of the group after preparations in this order can be read and stores every item. */
  ghost predicate StoresAll(t: Table, src: Source, order: seq<Prepared>, group: seq<Prepared>, n: nat)
    requires n > 0
  {
    var items := ParseAll(src.idOf, FlushLines(TextsAt(src, order, group)));
    && items.Some?
    && forall c, x :: c in group && ItemOf(src, c, x) ==> Stored(Ingested(t, items.value, n), x)
  }

  lemma CleanMeans(idOf: IdOf, text: string)
    requires idOf("").None? && Clean(idOf, text)
    ensures Part(text) != "" && TextItems(idOf, text) != []
  {
    PartEnds(text);
    ItemLinesPrepared(text);
    ItemLinesStrip(Universal(text + [NL]));
    NonBlankIsAll(Lines(Part(text)));
    ParsedFrontMeans(idOf, ItemLines(Universal(text)));
  }

  lemma {:induction false} CleanLines(idOf: IdOf, texts: seq<string>)
    requires forall text :: text in texts ==> Clean(idOf, text)
    ensures ParseAll(idOf, AllItemLines(texts)).Some?
  {
    if texts != [] {
      var front, last := texts[..|texts| - 1], texts[|texts| - 1];
      assert last in texts && forall text :: text in front ==> text in texts;
      CleanLines(idOf, front);
      ParseConcat(idOf, AllItemLines(front), ItemLines(Universal(last)));
    }
  }

  /** Clean texts can be flushed together in any order. */
  lemma CleanFlush(idOf: IdOf, texts: seq<string>)
    requires idOf("").None? && forall text :: text in texts ==> Clean(idOf, text)
    ensures ParseAll(idOf, FlushLines(texts)).Some?
    ensures forall x :: x in ParseAll(idOf, FlushLines(texts)).value <==> InText(idOf, texts, x)
  {
    CleanLines(idOf, texts);
    forall i | 0 <= i < |texts|
      ensures Fits(texts, i)
    {
      CleanMeans(idOf, texts[i]);
    }
    ReadableChunks(idOf, texts);
    ParsedFrontMeans(idOf, FlushLines(texts));
    forall x
      ensures x in ParseAll(idOf, FlushLines(texts)).value <==> InText(idOf, texts, x)
    {
      FlushItems(idOf, texts, x);
    }
  }

  lemma SameMembers(order: seq<Prepared>, group: seq<Prepared>)
    requires multiset(order) == multiset(group)
    ensures forall c :: c in order <==> c in group
  {
    assert forall c :: c in order <==> c in multiset(order);
    assert forall c :: c in group <==> c in multiset(group);
  }

  /** What is read of a group after preparations in some order are texts of its chunks. */
  lemma ReadTexts(src: Source, order: seq<Prepared>, group: seq<Prepared>)
    requires multiset(order) == multiset(group)
    ensures forall text :: text in TextsAt(src, order, group) ==> exists e :: e in group && text == src.textOf(e.uri)
  {
    SameMembers(order, group);
    forall text | text in TextsAt(src, order, group)
      ensures exists e :: e in group && text == src.textOf(e.uri)
    {
      var i :| 0 <= i < |group| && text == TextAt(src, order, group[i].preparedPath);
      var e := TextAtFrom(src, order, group[i]);
    }
  }

  lemma OwnText(src: Source, order: seq<Prepared>, group: seq<Prepared>, c: Prepared)
    requires multiset(order) == multiset(group) && OwnFiles(group) && c in group
    ensures src.textOf(c.uri) in TextsAt(src, order, group)
  {
    SameMembers(order, group);
    var e := TextAtFrom(src, order, c);
    var i :| 0 <= i < |group| && group[i] == c;
    assert TextsAt(src, order, group)[i] == TextAt(src, order, c.preparedPath);
  }

  lemma OwnFilesStore(t: Table, src: Source, order: seq<Prepared>, group: seq<Prepared>, n: nat)
    requires n > 0 && src.idOf("").None? && CleanChunks(src, group) && IdsApart(src, group)
    requires multiset(order) == multiset(group) && OwnFiles(group)
    ensures StoresAll(t, src, order, group, n)
  {
    var texts := TextsAt(src, order, group);
    ReadTexts(src, order, group);
    CleanFlush(src.idOf, texts);
    var items := ParseAll(src.idOf, FlushLines(texts)).value;
    forall c, x | c in group && ItemOf(src, c, x)
      ensures Stored(Ingested(t, items, n), x)
    {
      OwnText(src, order, group, c);
      assert InText(src.idOf, texts, x);
      forall y | y in items && y.id == x.id
        ensures y == x
      {
        var text :| text in texts && y in TextItems(src.idOf, text);
        var e :| e in group && text == src.textOf(e.uri);
        assert ItemOf(src, e, y);
      }
      IngestStores(t, items, n, x);
    }
  }

  /** An order in which `group[i]` is prepared last. */
  function WithLast(group: seq<Prepared>, i: nat): seq<Prepared>
    requires i < |group|
  {
    RemoveAt(group, i) + [group[i]]
  }

  /** When `d` is prepared last, nothing that is read carries an item of another chunk in its file. */
  lemma OverwrittenUnread(src: Source, group: seq<Prepared>, c: Prepared, i: nat, text: string, y: Item)
    requires i < |group| && c in group && c != group[i] && c.preparedPath == group[i].preparedPath
    requires text in TextsAt(src, WithLast(group, i), group) && y in TextItems(src.idOf, text)
    ensures exists e :: e in group && e != c && ItemOf(src, e, y)
  {
    var order, d := WithLast(group, i), group[i];
    RemoveAtMultiset(group, i);
    SameMembers(order, group);
    var k :| 0 <= k < |group| && text == TextAt(src, order, group[k].preparedPath);
    if group[k].preparedPath == d.preparedPath {
      assert ItemOf(src, d, y);
    } else {
      var e := TextAtFrom(src, order, group[k]);
      assert ItemOf(src, e, y);
    }
  }

  lemma SharedFileLoses(t: Table, src: Source, group: seq<Prepared>, n: nat, c: Prepared, i: nat)
    requires n > 0 && src.idOf("").None? && CleanChunks(src, group) && IdsApart(src, group)
    requires i < |group| && c in group && c != group[i] && c.preparedPath == group[i].preparedPath
    requires forall x :: ItemOf(src, c, x) ==> !Stored(t, x)
    ensures !StoresAll(t, src, WithLast(group, i), group, n)
    ensures multiset(WithLast(group, i)) == multiset(group)
  {
    var order := WithLast(group, i);
    var texts := TextsAt(src, order, group);
    RemoveAtMultiset(group, i);
    ReadTexts(src, order, group);
    CleanFlush(src.idOf, texts);
    CleanMeans(src.idOf, src.textOf(c.uri));
    var items, x := ParseAll(src.idOf, FlushLines(texts)).value, TextItems(src.idOf, src.textOf(c.uri))[0];
    assert ItemOf(src, c, x);
    forall y | y in items
      ensures y.id != x.id
    {
      var text :| text in texts && y in TextItems(src.idOf, text);
      OverwrittenUnread(src, group, c, i, text, y);
    }
    PartRow(t, items, n, Ingested(t, items, n), x.id);
    assert !Stored(Ingested(t, items, n), x);
  }

  /** A flush stores every item in every order of preparation, if and only if no two different chunks
      of it share a file; for chunks that can be read, with different ids, and not stored before. */
  lemma EveryOrderStores(t: Table, src: Source, group: seq<Prepared>, n: nat)
    requires n > 0 && src.idOf("").None? && CleanChunks(src, group) && IdsApart(src, group)
    requires forall c, x :: c in group && ItemOf(src, c, x) ==> !Stored(t, x)
    ensures (forall order :: multiset(order) == multiset(group) ==> StoresAll(t, src, order, group, n)) <==>
            OwnFiles(group)
  {
    if OwnFiles(group) {
      forall order | multiset(order) == multiset(group)
        ensures StoresAll(t, src, order, group, n)
      {
        OwnFilesStore(t, src, order, group, n);
      }
    } else {
      var c, d :| c in group && d in group && c.preparedPath == d.preparedPath && c != d;
      var i: nat :| i < |group| && group[i] == d;
      SharedFileLoses(t, src, group, n, c, i);
    }
  }

  // ---------------------------------------------------------------- when nothing fails

  ghost predicate AllClean(src: Source, all: multiset<Prepared>) {
    forall c :: c in all ==> Clean(src.idOf, src.textOf(c.uri))
  }

  lemma ReadsClean(src: Source, all: multiset<Prepared>, group: seq<Prepared>, texts: seq<string>)
    requires ReadFrom(src, all, group, texts) && AllClean(src, all)
    ensures forall text :: text in texts ==> Clean(src.idOf, text)
  {
    forall text | text in texts
      ensures Clean(src.idOf, text)
    {
      var i :| 0 <= i < |texts| && texts[i] == text;
      assert WrittenBy(src, all, group[i].preparedPath, text);
    }
  }

  lemma {:induction false} NoneFailed(flushes: seq<seq<Prepared>>, oks: seq<bool>)
    requires |flushes| == |oks| && forall k :: 0 <= k < |oks| ==> oks[k]
    ensures UrisWhere(flushes, oks, false) == []
  {
    if flushes != [] {
      NoneFailed(flushes[..|flushes| - 1], oks[..|oks| - 1]);
    }
  }

  /** If no two chunks share a file, every chunk can be read and no call of the loader fails, then every
      flush succeeds, and no uri is reported as failed. */
  lemma EveryFlushSucceeds(before: Shown, after: Shown, src: Source, all: multiset<Prepared>, target: nat, log: Log)
    requires Recorded(log) && Loads(before, after, src, all, target, log) && src.idOf("").None?
    requires PathsDiffer(all) && AllClean(src, all)
    requires forall i :: |before.outcomes| <= i < |after.outcomes| ==> after.outcomes[i].Loaded?
    ensures (forall ok :: ok in log.oks ==> ok) && log.failed == []
  {
    forall k | 0 <= k < |log.oks|
      ensures log.oks[k]
    {
      assert ReadFrom(src, all, log.flushes[k], log.texts[k]);
      ReadsClean(src, all, log.flushes[k], log.texts[k]);
      CleanFlush(src.idOf, log.texts[k]);
    }
    NoneFailed(log.flushes, log.oks);
  }

  // ---------------------------------------------------------------- two uris with one file

  /** The part of a uri after its last slash. */
  function BaseName(uri: string): string {
    var parts := Split(uri, '/');
    parts[|parts| - 1]
  }

  lemma BaseOf(dir: string, name: string)
    requires '/' !in name
    ensures BaseName(dir + ['/'] + name) == name
  {
    SplitConcat(dir, name, '/');
    SplitFree(name, '/');
  }

  const UriA: string := "/d/a" + ['/'] + "x.ndjson"
  const UriB: string := "/d/b" + ['/'] + "x.ndjson"

  /** Two local files with the same name and one item each. */
  const TwoFiles: Source :=
    Source(BaseName, uri => if uri == UriA then "a" else "b", line => if line == "" then None else Some(line))

  lemma OneLine(x: char)
    requires x != NL && x != CR
    ensures Clean(TwoFiles.idOf, [x]) && TextItems(TwoFiles.idOf, [x]) == [Item([x], [x])]
  {
    OnePart(x);
    NoReturns([x]);
    SplitFree([x], NL);
    var idOf, lines := TwoFiles.idOf, [[x]];
    assert lines[1..] == [] && NonBlank(lines) == lines;
    assert idOf([x]) == Some([x]);
    assert Parsable(idOf, lines[1..]) == [] && Parsable(idOf, lines) == [Item([x], [x])] + Parsable(idOf, lines[1..]);
  }

  /** Both are prepared in one file: the flush reads the one that was prepared last twice, succeeds,
      and leaves the row of the other as it was. */
  lemma SameNameLoses(t: Table, n: nat)
    requires n > 0
    ensures var a, b := ChunkOf(TwoFiles, UriA), ChunkOf(TwoFiles, UriB);
      var ab := ParseAll(TwoFiles.idOf, FlushLines(TextsAt(TwoFiles, [a, b], [a, b])));
      var ba := ParseAll(TwoFiles.idOf, FlushLines(TextsAt(TwoFiles, [b, a], [a, b])));
      && a.preparedPath == b.preparedPath == "x.ndjson"
      && ab.Some? && SameRow(Ingested(t, ab.value, n), t, "a") && Stored(Ingested(t, ab.value, n), Item("b", "b"))
      && ba.Some? && SameRow(Ingested(t, ba.value, n), t, "b") && Stored(Ingested(t, ba.value, n), Item("a", "a"))
  {
    var a, b := ChunkOf(TwoFiles, UriA), ChunkOf(TwoFiles, UriB);
    BaseOf("/d/a", "x.ndjson");
    BaseOf("/d/b", "x.ndjson");
    assert UriA != UriB by {
      assert UriA[3] == 'a' && UriB[3] == 'b';
    }
    assert TextsAt(TwoFiles, [a, b], [a, b]) == ["b", "b"];
    assert TextsAt(TwoFiles, [b, a], [a, b]) == ["a", "a"];
    SameTextTwice(t, 'b', 'a', n);
    SameTextTwice(t, 'a', 'b', n);
  }

  lemma SameTextTwice(t: Table, x: char, other: char, n: nat)
    requires n > 0 && x != NL && x != CR && other != x
    ensures var items := ParseAll(TwoFiles.idOf, FlushLines([[x], [x]]));
      && items.Some? && SameRow(Ingested(t, items.value, n), t, [other])
      && Stored(Ingested(t, items.value, n), Item([x], [x]))
  {
    var texts := [[x], [x]];
    OneLine(x);
    CleanFlush(TwoFiles.idOf, texts);
    var items := ParseAll(TwoFiles.idOf, FlushLines(texts)).value;
    assert texts[0] in texts && forall text :: text in texts ==> text == [x];
    assert InText(TwoFiles.idOf, texts, Item([x], [x]));
    IngestStores(t, items, n, Item([x], [x]));
    PartRow(t, items, n, Ingested(t, items, n), [other]);
  }
}
