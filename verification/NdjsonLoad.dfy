/** Loading the concatenated file of a flush: from its lines to the rows of the database
    (`ingest_item_paths` on `PgSTAC.ingest_items`, upsert mode). */
module NdjsonLoad {
  import opened Common
  import opened Text
  import opened NdjsonText
  import opened Grouping
  import opened PgStac
  import opened PgStacTheorems

  /** The id in the JSON of a line; None where parsing the line or finding the id raises. */
  type IdOf = string -> Option<string>

  /** Iterating over a file: its lines, without an empty one after the last newline. */
  function FileLines(content: string): seq<string> {
    var parts := Lines(content);
    if parts[|parts| - 1] == "" then parts[..|parts| - 1] else parts
  }

  /** The items of some lines; None if some line raises. */
  function ParseAll(idOf: IdOf, lines: seq<string>): Option<seq<Item>> {
    if lines == [] then Some([])
    else
      var rest := ParseAll(idOf, lines[1..]);
      if idOf(lines[0]).None? || rest.None? then None
      else Some([Item(idOf(lines[0]).value, lines[0])] + rest.value)
  }

  lemma {:induction false} ParseConcat(idOf: IdOf, a: seq<string>, b: seq<string>)
    ensures var x, y := ParseAll(idOf, a), ParseAll(idOf, b);
      ParseAll(idOf, a + b) == if x.None? || y.None? then None else Some(x.value + y.value)
  {
    var y := ParseAll(idOf, b);
    if a == [] {
      assert a + b == b;
      assert y.Some? ==> [] + y.value == y.value;
    } else {
      ParseConcat(idOf, a[1..], b);
      assert (a + b)[1..] == a[1..] + b;
      var x := ParseAll(idOf, a[1..]);
      if idOf(a[0]).Some? && x.Some? && y.Some? {
        Assoc([Item(idOf(a[0]).value, a[0])], x.value, y.value);
      }
    }
  }

  lemma ParseSnoc(idOf: IdOf, lines: seq<string>, line: string)
    requires ParseAll(idOf, lines).Some?
    ensures ParseAll(idOf, lines + [line]) ==
            if idOf(line).None? then None else Some(ParseAll(idOf, lines).value + [Item(idOf(line).value, line)])
  {
    ParseConcat(idOf, lines, [line]);
    assert [line][1..] == [] && ParseAll(idOf, []) == Some([]);
    if idOf(line).Some? {
      var item := Item(idOf(line).value, line);
      assert [item] + [] == [item];
    }
  }

  lemma ParseFront(idOf: IdOf, lines: seq<string>, i: nat)
    requires i <= |lines| && ParseAll(idOf, lines[..i]).None?
    ensures ParseAll(idOf, lines).None?
  {
    assert lines == lines[..i] + lines[i..];
    ParseConcat(idOf, lines[..i], lines[i..]);
  }

  lemma {:induction false} ParsedLines(idOf: IdOf, lines: seq<string>)
    requires idOf("").None? && ParseAll(idOf, lines).Some?
    ensures NonBlank(lines) == lines
  {
    if lines != [] {
      ParsedLines(idOf, lines[1..]);
    }
  }

  lemma FileLinesNonBlank(content: string)
    ensures NonBlank(FileLines(content)) == ItemLines(content)
  {
    var parts := Lines(content);
    if parts[|parts| - 1] == "" {
      var front := parts[..|parts| - 1];
      NonBlankConcat(front, [""]);
      assert parts == front + [""];
      assert [""][1..] == [] && NonBlank([""]) == [];
      assert NonBlank(front) + [] == NonBlank(front);
    }
  }

  /** A file can be read to the end if and only if no line of it is blank and every item line
      parses. */
  lemma ReadableMeans(idOf: IdOf, content: string)
    requires idOf("").None?
    ensures ParseAll(idOf, FileLines(content)).Some? <==>
            FileLines(content) == ItemLines(content) && ParseAll(idOf, ItemLines(content)).Some?
  {
    FileLinesNonBlank(content);
    if ParseAll(idOf, FileLines(content)).Some? {
      ParsedLines(idOf, FileLines(content));
    }
  }

  /** What a chunk contributes to the file of its flush. */
  function Part(text: string): string {
    Strip(Universal(text + [NL]), NL)
  }

  function PartLines(texts: seq<string>): seq<string> {
    if texts == [] then [] else PartLines(texts[..|texts| - 1]) + Lines(Part(texts[|texts| - 1]))
  }

  /** The lines of the file are those of the parts, one after the other. */
  lemma {:induction false} LinesOfParts(texts: seq<string>)
    requires texts != []
    ensures Lines(Concatenated(PreparedTexts(texts))) == PartLines(texts)
    ensures |PreparedTexts(texts)| == |texts|
  {
    var front, last := texts[..|texts| - 1], texts[|texts| - 1];
    var files := PreparedTexts(texts);
    if front == [] {
      assert PreparedTexts(front) == [] && |files| == 1;
      assert PartLines(front) == [];
    } else {
      LinesOfParts(front);
      assert files[..|files| - 1] == PreparedTexts(front);
      SplitConcat(Concatenated(PreparedTexts(front)), Part(last), NL);
    }
  }

  lemma {:induction false} LastLine(s: string)
    ensures Lines(s)[|Lines(s)| - 1] == "" <==> s == "" || s[|s| - 1] == NL
  {
    if s != "" {
      var front := s[..|s| - 1];
      if s[|s| - 1] == NL {
        SplitConcat(front, "", NL);
        assert s == front + [NL] + "";
      } else {
        LastLineGrows(front, s[|s| - 1]);
        assert s == front + [s[|s| - 1]];
      }
    }
  }

  lemma AttachLast(x: char, parts: seq<string>)
    requires parts != [] && parts[|parts| - 1] != ""
    ensures var r := Attach(x, parts, NL); r[|r| - 1] != ""
  {
    var r := Attach(x, parts, NL);
    if x == NL {
      assert r[|r| - 1] == parts[|parts| - 1];
    } else if |parts| == 1 {
      assert r == [[x] + parts[0]];
    } else {
      assert r[|r| - 1] == parts[|parts| - 1];
    }
  }

  lemma {:induction false} LastLineGrows(s: string, c: char)
    requires c != NL
    ensures Lines(s + [c])[|Lines(s + [c])| - 1] != ""
  {
    if s == "" {
      assert s + [c] == [c];
      SplitFree([c], NL);
    } else {
      LastLineGrows(s[1..], c);
      assert s + [c] == [s[0]] + (s[1..] + [c]);
      SplitCons(s[0], s[1..] + [c], NL);
      AttachLast(s[0], Lines(s[1..] + [c]));
    }
  }

  lemma {:induction false} StrippedEnds(s: string)
    ensures RStrip(s, NL) == "" || RStrip(s, NL)[|RStrip(s, NL)| - 1] != NL
  {
    if s != "" && s[|s| - 1] == NL {
      StrippedEnds(s[..|s| - 1]);
    }
  }

  lemma PartEnds(text: string)
    ensures var lines := Lines(Part(text)); lines[|lines| - 1] == "" <==> Part(text) == ""
    ensures Part(text) == "" ==> Lines(Part(text)) == [""]
  {
    StrippedEnds(LStrip(Universal(text + [NL]), NL));
    LastLine(Part(text));
  }

  lemma {:induction false} NonBlankIsAll(lines: seq<string>)
    ensures NonBlank(lines) == lines <==> "" !in lines
  {
    if lines != [] {
      NonBlankIsAll(lines[1..]);
      BlankOrNot(lines);
      BlankOrNot(lines[1..]);
    }
  }

  ghost predicate HasBlank(text: string) {
    "" in Lines(Part(text))
  }

  lemma {:induction false} BlankInParts(texts: seq<string>)
    ensures "" in PartLines(texts) <==> exists t :: t in texts && HasBlank(t)
  {
    if texts != [] {
      var front, last := texts[..|texts| - 1], texts[|texts| - 1];
      BlankInParts(front);
      assert texts == front + [last];
      assert forall t :: t in texts <==> t in front || t == last;
      assert HasBlank(last) <==> "" in Lines(Part(last));
    }
  }

  /** The chunk leaves no blank line in the file: if nothing is left of it, it is the last, and
      otherwise it has no blank line inside. */
  ghost predicate Fits(texts: seq<string>, i: int)
    requires 0 <= i < |texts|
  {
    if Part(texts[i]) == "" then i == |texts| - 1 else !HasBlank(texts[i])
  }

  lemma FrontFits(texts: seq<string>)
    requires texts != []
    ensures var front := texts[..|texts| - 1];
      "" !in PartLines(front) <==> forall i :: 0 <= i < |front| ==> Fits(texts, i)
  {
    var front := texts[..|texts| - 1];
    BlankInParts(front);
    forall i | 0 <= i < |front|
      ensures Fits(texts, i) <==> !HasBlank(front[i])
    {
      PartEnds(texts[i]);
    }
    assert (exists t :: t in front && HasBlank(t)) <==> exists i :: 0 <= i < |front| && HasBlank(front[i]);
  }

  lemma AllFit(texts: seq<string>, n: nat)
    requires n + 1 == |texts|
    ensures (forall i :: 0 <= i < |texts| ==> Fits(texts, i)) <==>
            (forall i :: 0 <= i < n ==> Fits(texts, i)) && Fits(texts, n)
  {
  }

  /** Without its last line if that is empty. */
  lemma BlankFront(front: seq<string>, lines: seq<string>)
    requires lines != []
    ensures var all, last := front + lines, lines[|lines| - 1];
      all[|all| - 1] == last
      && (last != "" ==> ("" in all <==> "" in front || "" in lines))
      && (lines == [""] ==> all[..|all| - 1] == front)
  {
    var all := front + lines;
    if lines == [""] {
      assert all[..|all| - 1] == front;
    }
  }

  lemma NoBlankLine(texts: seq<string>)
    requires texts != []
    ensures "" !in FileLines(Concatenated(PreparedTexts(texts))) <==> forall i :: 0 <= i < |texts| ==> Fits(texts, i)
  {
    var n := |texts| - 1;
    var front, lines, content := PartLines(texts[..n]), Lines(Part(texts[n])), Concatenated(PreparedTexts(texts));
    LinesOfParts(texts);
    PartEnds(texts[n]);
    FrontFits(texts);
    BlankFront(front, lines);
    assert Lines(content) == front + lines;
    assert "" in FileLines(content) <==> "" in front || (Part(texts[n]) != "" && "" in lines);
    AllFit(texts, n);
  }

  /** The chunks of a flush can be read to the end if and only if every item line parses and every
      chunk fits: a blank line inside a chunk, or an empty chunk before another, fails the flush. */
  lemma ReadableChunks(idOf: IdOf, texts: seq<string>)
    requires idOf("").None?
    ensures ParseAll(idOf, FileLines(Concatenated(PreparedTexts(texts)))).Some? <==>
            ParseAll(idOf, AllItemLines(texts)).Some? && forall i :: 0 <= i < |texts| ==> Fits(texts, i)
  {
    var content := Concatenated(PreparedTexts(texts));
    ReadableMeans(idOf, content);
    ItemLinesKept(texts);
    FileLinesNonBlank(content);
    NonBlankIsAll(FileLines(content));
    if texts != [] {
      NoBlankLine(texts);
    } else {
      assert PreparedTexts(texts) == [] && Lines("") == [""];
    }
  }

  /** The stripped part of a prepared chunk of one item line, and of an empty one. */
  lemma OnePart(item: char)
    requires item != NL && item != CR
    ensures Strip(Universal([item] + [NL]), NL) == [item]
    ensures Strip(Universal("" + [NL]), NL) == ""
  {
    var text, blank := [item] + [NL], "" + [NL];
    NoReturns(text);
    NoReturns(blank);
    assert LStrip(text, NL) == text;
    assert text[..|text| - 1] == [item] && RStrip([item], NL) == [item];
    assert blank[1..] == "" && LStrip(blank, NL) == LStrip("", NL) == "";
  }

  /** An empty chunk between two others leaves a blank line, so their flush cannot be read. */
  lemma EmptyChunkUnreadable(idOf: IdOf)
    requires idOf("").None?
    ensures ParseAll(idOf, FileLines(Concatenated(PreparedTexts(["a", "", "b"])))).None?
  {
    var files := ["a" + [NL], "" + [NL], "b" + [NL]];
    assert PreparedTexts(["a", "", "b"]) == files by {
      assert ["a", "", "b"][..2] == ["a", ""] && ["a", ""][..1] == ["a"] && ["a"][..0] == [];
      assert PreparedTexts(["a"]) == ["a" + [NL]];
    }
    OnePart('a');
    OnePart('b');
    assert files[..2] == ["a" + [NL], "" + [NL]] && files[..2][..1] == ["a" + [NL]];
    assert Concatenated(files[..2][..1]) == "a";
    assert Concatenated(files[..2]) == "a" + [NL] + "";
    var content := "a" + [NL] + "" + [NL] + "b";
    assert Concatenated(files) == content;
    SplitFree("a", NL);
    SplitFree("", NL);
    SplitFree("b", NL);
    SplitConcat("a", "", NL);
    SplitConcat("a" + [NL] + "", "b", NL);
    assert Lines(content) == ["a", "", "b"];
    assert FileLines(content)[1..][0] == "";
    assert ParseAll(idOf, FileLines(content)[1..]).None?;
  }

  /** The items before the first line that raises. */
  function ParsedFront(idOf: IdOf, lines: seq<string>): seq<Item> {
    if lines == [] || idOf(lines[0]).None? then []
    else [Item(idOf(lines[0]).value, lines[0])] + ParsedFront(idOf, lines[1..])
  }

  /** The items of all lines that parse. */
  function Parsable(idOf: IdOf, lines: seq<string>): seq<Item> {
    if lines == [] then []
    else
      (if idOf(lines[0]).None? then [] else [Item(idOf(lines[0]).value, lines[0])]) + Parsable(idOf, lines[1..])
  }

  lemma {:induction false} ParsedFrontMeans(idOf: IdOf, lines: seq<string>)
    ensures ParseAll(idOf, lines).Some? ==>
              ParseAll(idOf, lines).value == ParsedFront(idOf, lines) == Parsable(idOf, lines)
    ensures forall x :: x in ParsedFront(idOf, lines) ==> x in Parsable(idOf, lines)
  {
    if lines != [] {
      ParsedFrontMeans(idOf, lines[1..]);
    }
  }

  lemma {:induction false} ParsableNonBlank(idOf: IdOf, lines: seq<string>)
    requires idOf("").None?
    ensures Parsable(idOf, NonBlank(lines)) == Parsable(idOf, lines)
  {
    if lines != [] {
      ParsableNonBlank(idOf, lines[1..]);
      if lines[0] != "" {
        var all := NonBlank(lines);
        assert all == [lines[0]] + NonBlank(lines[1..]);
        assert all[0] == lines[0] && all[1..] == NonBlank(lines[1..]);
      } else {
        assert [] + NonBlank(lines[1..]) == NonBlank(lines[1..]);
        assert [] + Parsable(idOf, lines[1..]) == Parsable(idOf, lines[1..]);
      }
    }
  }

  lemma {:induction false} FrontConcat(idOf: IdOf, a: seq<string>, line: string, b: seq<string>)
    requires ParseAll(idOf, a).Some? && idOf(line).None?
    ensures ParsedFront(idOf, a + [line] + b) == ParseAll(idOf, a).value
  {
    if a == [] {
      assert (a + [line] + b)[0] == line;
    } else {
      FrontConcat(idOf, a[1..], line, b);
      assert (a + [line] + b)[1..] == a[1..] + [line] + b;
    }
  }

  /** Reads lines up to the first that raises. */
  method ReadItems(idOf: IdOf, lines: seq<string>) returns (items: seq<Item>, raises: bool)
    ensures raises <==> ParseAll(idOf, lines).None?
    ensures !raises ==> ParseAll(idOf, lines) == Some(items)
    ensures items == ParsedFront(idOf, lines)
  {
    items := [];
    for i := 0 to |lines|
      invariant ParseAll(idOf, lines[..i]) == Some(items)
    {
      assert lines[..i + 1] == lines[..i] + [lines[i]];
      ParseSnoc(idOf, lines[..i], lines[i]);
      var id := idOf(lines[i]);
      if id.None? {
        ParseFront(idOf, lines, i + 1);
        FrontConcat(idOf, lines[..i], lines[i], lines[i + 1..]);
        assert lines == lines[..i] + [lines[i]] + lines[i + 1..];
        return items, true;
      }
      items := items + [Item(id.value, lines[i])];
    }
    assert lines[..|lines|] == lines;
    ParsedFrontMeans(idOf, lines);
    return items, false;
  }

  /** `after` is `before` with some whole blocks of the items ingested, and a part of the next. */
  ghost predicate PartIngested(before: Table, items: seq<Item>, n: nat, after: Table)
    requires n > 0
  {
    || after == Ingested(before, items, n)
    || exists done: nat :: done < |Groups(items, n)| && StoppedIn(before, Groups(items, n), done, after)
  }

  lemma NothingIngested(t: Table, items: seq<Item>, n: nat)
    requires n > 0
    ensures PartIngested(t, items, n, t)
  {
    var gs := Groups(items, n);
    if items != [] {
      assert gs[..0] == [] && Unique(gs[0])[..0] == [];
      assert PartLoaded(t, Unique(gs[0]), t) by {
        assert t == Load(t, Unique(gs[0])[..0]);
      }
      assert StoppedIn(t, gs, 0, t);
    }
  }

  /** The row of an id is as before, or one of the items. */
  ghost predicate RowFrom(before: Table, after: Table, items: seq<Item>, id: string) {
    SameRow(after, before, id) || (id in after && after[id].id == id && after[id] in items)
  }

  lemma {:induction false} LoadRow(t: Table, items: seq<Item>, id: string)
    ensures RowFrom(t, Load(t, items), items, id)
  {
    if items != [] {
      var front := items[..|items| - 1];
      LoadRow(t, front, id);
      assert forall x :: x in front ==> x in items;
    }
  }

  lemma RowsOnTop(t: Table, mid: Table, after: Table, part: seq<Item>, items: seq<Item>, id: string)
    requires RowFrom(t, mid, items, id) && RowFrom(mid, after, part, id)
    requires forall x :: x in part ==> x in items
    ensures RowFrom(t, after, items, id)
  {
  }

  lemma UniqueIn(items: seq<Item>)
    ensures forall x :: x in Unique(items) ==> x in items
  {
    forall x | x in Unique(items)
      ensures x in items
    {
      UniqueMeans(items, x);
    }
  }

  lemma {:induction false} GroupsRow(t: Table, gs: seq<seq<Item>>, items: seq<Item>, id: string)
    requires forall g, x :: g in gs && x in g ==> x in items
    ensures RowFrom(t, LoadGroups(t, gs), items, id)
  {
    if gs != [] {
      var front, last := gs[..|gs| - 1], gs[|gs| - 1];
      assert last in gs && forall g :: g in front ==> g in gs;
      GroupsRow(t, front, items, id);
      UniqueIn(last);
      LoadRow(LoadGroups(t, front), Unique(last), id);
      RowsOnTop(t, LoadGroups(t, front), LoadGroups(t, gs), Unique(last), items, id);
    }
  }

  lemma StoppedRow(t: Table, gs: seq<seq<Item>>, done: nat, after: Table, items: seq<Item>, id: string)
    requires done < |gs| && StoppedIn(t, gs, done, after) && forall g, x :: g in gs && x in g ==> x in items
    ensures RowFrom(t, after, items, id)
  {
    var mid, u := LoadGroups(t, gs[..done]), Unique(gs[done]);
    var k: nat :| k <= |u| && after == Load(mid, u[..k]);
    GroupsRow(t, gs[..done], items, id);
    UniqueIn(gs[done]);
    LoadRow(mid, u[..k], id);
    assert gs[done] in gs && forall x :: x in u[..k] ==> x in u;
    RowsOnTop(t, mid, after, u[..k], items, id);
  }

  /** After an ingest or a part of one, each row is as before or one of the items. */
  lemma PartRow(before: Table, items: seq<Item>, n: nat, after: Table, id: string)
    requires n > 0 && PartIngested(before, items, n, after)
    ensures RowFrom(before, after, items, id)
  {
    var gs := Groups(items, n);
    GroupedElements(items, n);
    if after == Ingested(before, items, n) {
      IngestedIsGroups(before, items, n);
      GroupsRow(before, gs, items, id);
    } else {
      var done: nat :| done < |gs| && StoppedIn(before, gs, done, after);
      StoppedRow(before, gs, done, after, items, id);
    }
  }

  lemma {:induction false} ParsableConcat(idOf: IdOf, a: seq<string>, b: seq<string>)
    ensures Parsable(idOf, a + b) == Parsable(idOf, a) + Parsable(idOf, b)
  {
    if a == [] {
      assert a + b == b;
    } else {
      ParsableConcat(idOf, a[1..], b);
      assert (a + b)[1..] == a[1..] + b;
      Assoc(if idOf(a[0]).None? then [] else [Item(idOf(a[0]).value, a[0])], Parsable(idOf, a[1..]),
            Parsable(idOf, b));
    }
  }

  /** The database was called, and its last call failed. */
  ghost predicate Refused(before: seq<Outcome>, after: seq<Outcome>) {
    before < after && !after[|after| - 1].Loaded?
  }

  /** `ingest_item_paths` on the contents of the prepared files. A line that raises fails the call at
      the latest after the items before it; a negative group size is refused. */
  method IngestItemPaths(db: PgStac, idOf: IdOf, files: seq<string>, insertGroupSize: int) returns (ok: bool)
    modifies db
    ensures ok ==> insertGroupSize >= 0 && ParseAll(idOf, FileLines(Concatenated(files))).Some?
    ensures ok && insertGroupSize > 0 ==>
              db.table == Ingested(old(db.table), ParseAll(idOf, FileLines(Concatenated(files))).value, insertGroupSize)
    ensures !ok && insertGroupSize > 0 ==>
              PartIngested(old(db.table), ParsedFront(idOf, FileLines(Concatenated(files))), insertGroupSize, db.table)
    ensures insertGroupSize < 0 ==> db.table == old(db.table)
    ensures old(db.outcomes) <= db.outcomes
    ensures !ok && insertGroupSize >= 0 && ParseAll(idOf, FileLines(Concatenated(files))).Some? ==>
              Refused(old(db.outcomes), db.outcomes)
  {
    var content, count := ConcatenateFiles(files);
    if insertGroupSize < 0 {
      return false;
    }
    var items, raises := ReadItems(idOf, FileLines(content));
    ghost var before := db.table;
    var o, retried := db.IngestHandle(items, insertGroupSize);
    ok := o.Loaded? && !raises;
    if insertGroupSize > 0 {
      IngestedIsGroups(before, items, insertGroupSize);
    }
  }
}
