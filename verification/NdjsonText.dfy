/** The text side of an ingest: preparing chunk files and concatenating them
    (`prepare_chunk`, `ingest_item_paths`). */
module NdjsonText {
  import opened Common
  import opened Text

  const NL: char := '\n'
  const CR: char := '\r'

  /** Reading a file in text mode turns "\r\n" and a lone "\r" into "\n". */
  function Universal(s: string): string {
    if s == "" then ""
    else if s[0] != CR then [s[0]] + Universal(s[1..])
    else if |s| > 1 && s[1] == NL then [NL] + Universal(s[2..])
    else [NL] + Universal(s[1..])
  }

  /** The number of carriage returns that no newline follows. */
  function LoneReturns(s: string): nat {
    if s == "" then 0
    else (if s[0] == CR && !(|s| > 1 && s[1] == NL) then 1 else 0) + LoneReturns(s[1..])
  }

  function Lines(s: string): seq<string> {
    Split(s, NL)
  }

  function NonBlank(lines: seq<string>): seq<string> {
    if lines == [] then []
    else (if lines[0] == "" then [] else [lines[0]]) + NonBlank(lines[1..])
  }

  /** The lines of a file that carry an item. */
  function ItemLines(s: string): seq<string> {
    NonBlank(Lines(s))
  }

  lemma {:induction false} NonBlankConcat(a: seq<string>, b: seq<string>)
    ensures NonBlank(a + b) == NonBlank(a) + NonBlank(b)
  {
    if a == [] {
      assert a + b == b;
    } else {
      NonBlankConcat(a[1..], b);
      assert (a + b)[1..] == a[1..] + b;
      Assoc(if a[0] == "" then [] else [a[0]], NonBlank(a[1..]), NonBlank(b));
    }
  }

  lemma ItemLinesConcat(a: string, b: string)
    ensures ItemLines(a + [NL] + b) == ItemLines(a) + ItemLines(b)
  {
    SplitConcat(a, b, NL);
    NonBlankConcat(Lines(a), Lines(b));
  }

  lemma ItemLinesNewline(a: string)
    ensures ItemLines(a + [NL]) == ItemLines(a)
    ensures ItemLines([NL] + a) == ItemLines(a)
  {
    ItemLinesConcat(a, "");
    assert a + [NL] + "" == a + [NL];
    ItemLinesConcat("", a);
    assert "" + [NL] + a == [NL] + a;
    assert ItemLines("") == [];
  }

  lemma {:induction false} ItemLinesLStrip(s: string)
    ensures ItemLines(LStrip(s, NL)) == ItemLines(s)
  {
    if s != "" && s[0] == NL {
      ItemLinesLStrip(s[1..]);
      ItemLinesNewline(s[1..]);
      assert [NL] + s[1..] == s;
    }
  }

  lemma {:induction false} ItemLinesRStrip(s: string)
    ensures ItemLines(RStrip(s, NL)) == ItemLines(s)
  {
    if s != "" && s[|s| - 1] == NL {
      ItemLinesRStrip(s[..|s| - 1]);
      ItemLinesNewline(s[..|s| - 1]);
      assert s[..|s| - 1] + [NL] == s;
    }
  }

  lemma ItemLinesStrip(s: string)
    ensures ItemLines(Strip(s, NL)) == ItemLines(s)
  {
    ItemLinesLStrip(s);
    ItemLinesRStrip(LStrip(s, NL));
  }

  /** What a newline appended to `s` is translated to: it may complete a "\r\n". */
  function Appended(s: string): string {
    if s != "" && s[|s| - 1] == CR then "" else [NL]
  }

  lemma UniversalStep(s: string, k: nat)
    requires s != "" && k == if s[0] == CR && |s| > 1 && s[1] == NL then 2 else 1
    ensures Universal(s) == [if s[0] == CR then NL else s[0]] + Universal(s[k..])
  {
  }

  lemma AppendedStep(s: string, k: nat)
    requires s != "" && s != [CR] && k == if s[0] == CR && s[1] == NL then 2 else 1
    ensures Appended(s) == Appended(s[k..])
  {
    assert s == s[..k] + s[k..];
  }

  /** A newline after one carriage return completes it. */
  lemma UniversalReturn()
    ensures Universal([CR] + [NL]) == [NL] && Universal([CR]) == [NL]
  {
    var t := [CR] + [NL];
    UniversalStep(t, 2);
    UniversalStep([CR], 1);
    assert t[2..] == "" && [CR][1..] == "";
  }

  lemma NewlineStep(s: string, k: nat)
    requires s != "" && s != [CR] && k == if s[0] == CR && s[1] == NL then 2 else 1
    requires Universal(s[k..] + [NL]) == Universal(s[k..]) + Appended(s[k..])
    ensures Universal(s + [NL]) == Universal(s) + Appended(s)
  {
    var t, c := s + [NL], [if s[0] == CR then NL else s[0]];
    UniversalStep(t, k);
    UniversalStep(s, k);
    AppendedStep(s, k);
    assert t[k..] == s[k..] + [NL];
    Assoc(c, Universal(s[k..]), Appended(s));
  }

  lemma {:induction false} UniversalNewline(s: string)
    ensures Universal(s + [NL]) == Universal(s) + Appended(s)
  {
    if s == "" {
      assert s + [NL] == [NL] && [NL][1..] == "";
    } else if s == [CR] {
      UniversalReturn();
    } else {
      var k := if s[0] == CR && s[1] == NL then 2 else 1;
      UniversalNewline(s[k..]);
      NewlineStep(s, k);
    }
  }

  lemma ItemLinesPrepared(text: string)
    ensures ItemLines(Universal(text + [NL])) == ItemLines(Universal(text))
  {
    UniversalNewline(text);
    ItemLinesNewline(Universal(text));
    assert Universal(text) + "" == Universal(text);
  }

  // ---------------------------------------------------------------- preparing a chunk

  /** The loop of `prepare_chunk` over the split text. */
  method PrepareChunk(text: string) returns (prepared: string, lineCount: nat)
    ensures prepared == text + [NL]
    ensures lineCount == |Lines(text)|
  {
    prepared, lineCount := "", 0;
    var lines := Lines(text);
    while lineCount < |lines|
      invariant lineCount <= |lines|
      invariant prepared == if lineCount == 0 then "" else Join(lines[..lineCount], NL) + [NL]
    {
      var line := lines[lineCount];
      if lineCount > 0 {
        JoinConcat(lines[..lineCount], [line], NL);
      }
      assert lines[..lineCount + 1] == lines[..lineCount] + [line];
      lineCount := lineCount + 1;
      prepared := prepared + (line + [NL]);
    }
    assert lines[..|lines|] == lines;
    JoinSplit(text, NL);
  }

  lemma LinesCons(x: char, s: string)
    ensures |Lines([x] + s)| == |Lines(s)| + if x == NL then 1 else 0
  {
    SplitCons(x, s, NL);
  }

  lemma {:induction false} SplitTranslated(s: string)
    ensures |Lines(Universal(s))| == |Lines(s)| + LoneReturns(s)
  {
    if s != "" {
      LinesCons(s[0], s[1..]);
      assert [s[0]] + s[1..] == s;
      if s[0] == CR && |s| > 1 && s[1] == NL {
        var rest := s[2..];
        SplitTranslated(rest);
        assert s[1..][1..] == rest && s[1..] == [NL] + rest;
        LinesCons(NL, rest);
        LinesCons(NL, Universal(rest));
      } else {
        SplitTranslated(s[1..]);
        LinesCons(if s[0] == CR then NL else s[0], Universal(s[1..]));
      }
    }
  }

  function Blanks(lines: seq<string>): nat {
    if lines == [] then 0 else (if lines[0] == "" then 1 else 0) + Blanks(lines[1..])
  }

  lemma {:induction false} BlankOrNot(lines: seq<string>)
    ensures Blanks(lines) + |NonBlank(lines)| == |lines|
  {
    if lines != [] {
      BlankOrNot(lines[1..]);
    }
  }

  /** The recorded line count bounds the items of the chunk as read back if and only if the text
      has no more lone carriage returns than blank lines as read back; it bounds all lines read
      back if and only if there is no lone carriage return at all. */
  lemma LineCountBound(text: string)
    ensures |ItemLines(Universal(text))| <= |Lines(text)| <==>
            LoneReturns(text) <= Blanks(Lines(Universal(text)))
    ensures |Lines(Universal(text))| <= |Lines(text)| <==> LoneReturns(text) == 0
  {
    SplitTranslated(text);
    BlankOrNot(Lines(Universal(text)));
  }

  lemma {:induction false} NoReturns(s: string)
    requires CR !in s
    ensures Universal(s) == s && LoneReturns(s) == 0
  {
    if s != "" {
      NoReturns(s[1..]);
    }
  }

  /** A text without carriage returns is read back as it was written, and its line count is the
      number of its lines and bounds its items. */
  lemma LineCountWithoutReturns(text: string)
    requires CR !in text
    ensures |ItemLines(Universal(text))| <= |Lines(Universal(text))| == |Lines(text)|
  {
    NoReturns(text);
    LineCountBound(text);
  }

  /** A chunk of one line by its count, of which two items are read back. */
  lemma LineCountExceeded()
    ensures |Lines(['a', CR, 'b'])| == 1
    ensures ItemLines(Universal(['a', CR, 'b'])) == ["a", "b"]
  {
    var text, tail := ['a', CR, 'b'], [CR, 'b'];
    assert text[1..] == tail && tail[1..] == "b" && "b"[1..] == "";
    assert Universal("b") == "b";
    assert Universal(tail) == [NL] + "b";
    assert Universal(text) == "a" + [NL] + "b";
    SplitFree(text, NL);
    SplitFree("a", NL);
    SplitFree("b", NL);
    SplitConcat("a", "b", NL);
    assert Lines("a" + [NL] + "b") == ["a", "b"];
    assert ["a", "b"][1..] == ["b"] && ["b"][1..] == [];
  }

  // ---------------------------------------------------------------- one file for the database

  /** The content that `ingest_item_paths` writes for the prepared files. */
  function Concatenated(files: seq<string>): string {
    if files == [] then ""
    else
      var part := Strip(Universal(files[|files| - 1]), NL);
      if |files| == 1 then part else Concatenated(files[..|files| - 1]) + [NL] + part
  }

  method ConcatenateFiles(files: seq<string>) returns (target: string, pathCount: nat)
    ensures target == Concatenated(files)
    ensures pathCount == |files|
  {
    target, pathCount := "", 0;
    while pathCount < |files|
      invariant pathCount <= |files|
      invariant target == Concatenated(files[..pathCount])
    {
      assert files[..pathCount + 1][..pathCount] == files[..pathCount];
      var source := Universal(files[pathCount]);
      if pathCount > 0 {
        target := target + [NL];
      }
      target := target + Strip(source, NL);
      pathCount := pathCount + 1;
    }
    assert files[..|files|] == files;
  }

  /** The item lines of several chunk texts, in order. */
  function AllItemLines(texts: seq<string>): seq<string> {
    if texts == [] then []
    else AllItemLines(texts[..|texts| - 1]) + ItemLines(Universal(texts[|texts| - 1]))
  }

  function PreparedTexts(texts: seq<string>): seq<string> {
    if texts == [] then []
    else PreparedTexts(texts[..|texts| - 1]) + [texts[|texts| - 1] + [NL]]
  }

  /** Preparation, stripping and joining neither lose, add, merge nor reorder an item line. */
  lemma {:induction false} ItemLinesKept(texts: seq<string>)
    ensures ItemLines(Concatenated(PreparedTexts(texts))) == AllItemLines(texts)
    ensures |PreparedTexts(texts)| == |texts|
  {
    if texts != [] {
      var front, last := texts[..|texts| - 1], texts[|texts| - 1];
      var files := PreparedTexts(front);
      ItemLinesKept(front);
      assert PreparedTexts(texts)[..|files|] == files;
      ItemLinesPrepared(last);
      ItemLinesStrip(Universal(last + [NL]));
      ItemLinesConcat(Concatenated(files), Strip(Universal(last + [NL]), NL));
    }
  }
}
