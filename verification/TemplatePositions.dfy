/** What templating does to each position of a nested dictionary, and to the text of one string. */
module TemplatePositions {
  import opened Common
  import opened TemplateText
  import opened TemplateSubst
  import opened TemplateDict

  /** The value at a position: at each step the index of an entry or of a list element. */
  function At(v: Value, path: seq<nat>): Option<Value>
    decreases |path|
  {
    if path == [] then Some(v)
    else
      match v
      case Dict(es) => if path[0] < |es| then At(es[path[0]].val, path[1..]) else None
      case List(items) => if path[0] < |items| then At(items[path[0]], path[1..]) else None
      case _ => None
  }

  /** The position exists and lies inside no list that is an element of a list; `element` tells whether
      `v` is one itself. */
  predicate Reached(v: Value, path: seq<nat>, element: bool)
    decreases |path|
  {
    path == [] ||
    match v
    case Dict(es) => path[0] < |es| && Reached(es[path[0]].val, path[1..], false)
    case List(items) => !element && path[0] < |items| && Reached(items[path[0]], path[1..], true)
    case _ => false
  }

  /** The value at the position is an element of a list. */
  predicate IsElement(v: Value, path: seq<nat>, element: bool)
    decreases |path|
  {
    if path == [] then element
    else
      match v
      case Dict(es) => path[0] < |es| && IsElement(es[path[0]].val, path[1..], false)
      case List(items) => path[0] < |items| && IsElement(items[path[0]], path[1..], true)
      case _ => false
  }

  ghost predicate SameKeys(es: seq<Entry>, rs: seq<Entry>) {
    |es| == |rs| && forall i :: 0 <= i < |es| ==> rs[i].key == es[i].key
  }

  /** What becomes of a value: a string is what `template_str` makes of it, a dictionary keeps its keys
      in order, a list its length, a list in a list everything, and so does any other value. */
  ghost predicate Templated(x: Value, y: Value, element: bool, get: Resolver) {
    match x
    case Str(s) => ApplyAll(FindAll(s), s, get) == Ok(y)
    case Dict(es) => y.Dict? && SameKeys(es, y.entries)
    case List(items) => if element then y == x else y.List? && |y.items| == |items|
    case _ => y == x
  }

  lemma {:induction false} EntriesTemplated(es: seq<Entry>, rs: seq<Entry>, get: Resolver)
    requires Substitute(es, get) == Ok(rs)
    ensures SameKeys(es, rs)
    ensures forall i :: 0 <= i < |es| ==> SubstValue(es[i].val, get) == Ok(rs[i].val)
  {
    if es != [] {
      var rest := Substitute(es[1..], get).value;
      EntriesTemplated(es[1..], rest, get);
      assert forall i | 1 <= i < |es| :: rs[i] == rest[i - 1] && es[i] == es[1..][i - 1];
    }
  }

  lemma {:induction false} ItemsTemplated(items: seq<Value>, rs: seq<Value>, get: Resolver)
    requires SubstItems(items, get) == Ok(rs)
    ensures |rs| == |items| && forall i :: 0 <= i < |items| ==> SubstItem(items[i], get) == Ok(rs[i])
  {
    if items != [] {
      var rest := SubstItems(items[1..], get).value;
      ItemsTemplated(items[1..], rest, get);
      assert forall i | 1 <= i < |items| :: rs[i] == rest[i - 1] && items[i] == items[1..][i - 1];
    }
  }

  function SubstAt(v: Value, element: bool, get: Resolver): Outcome<Value> {
    if element then SubstItem(v, get) else SubstValue(v, get)
  }

  /** How each kind of value is templated. */
  lemma SubstAtMeans(v: Value, element: bool, get: Resolver)
    ensures var r := SubstAt(v, element, get);
      match v
      case Dict(es) =>
        var x := Substitute(es, get);
        r == if x.Err? then Err else Ok(Dict(x.value))
      case List(items) =>
        var x := SubstItems(items, get);
        r == if element then Ok(v) else if x.Err? then Err else Ok(List(x.value))
      case Str(s) => r == ApplyAll(FindAll(s), s, get)
      case _ => r == Ok(v)
  {
    assert SubstAt(v, element, get) == if element && v.List? then Ok(v) else SubstValue(v, get);
  }

  lemma {:induction false} ValueTemplated(v: Value, w: Value, path: seq<nat>, element: bool, get: Resolver)
    requires SubstAt(v, element, get) == Ok(w) && Reached(v, path, element)
    ensures At(v, path).Some? && At(w, path).Some?
    ensures Templated(At(v, path).value, At(w, path).value, IsElement(v, path, element), get)
    decreases |path|
  {
    SubstAtMeans(v, element, get);
    match v {
      case Dict(es) =>
        EntriesTemplated(es, w.entries, get);
        if path != [] {
          ValueTemplated(es[path[0]].val, w.entries[path[0]].val, path[1..], false, get);
        }
      case List(items) =>
        if !element {
          ItemsTemplated(items, w.items, get);
          if path != [] {
            ValueTemplated(items[path[0]], w.items[path[0]], path[1..], true, get);
          }
        }
      case _ =>
    }
  }

  /** Every reached position of the result is templated as its kind of value says. */
  lemma EveryPosition(d: seq<Entry>, rs: seq<Entry>, get: Resolver, path: seq<nat>)
    requires Substitute(d, get) == Ok(rs) && Reached(Dict(d), path, false)
    ensures At(Dict(d), path).Some? && At(Dict(rs), path).Some?
    ensures Templated(At(Dict(d), path).value, At(Dict(rs), path).value, IsElement(Dict(d), path, false), get)
  {
    ValueTemplated(Dict(d), Dict(rs), path, false, get);
  }

  // ---------------------------------------------------------------- failures

  /** `template_str` raises for the string at the position. */
  ghost predicate RaisesAt(v: Value, path: seq<nat>, element: bool, get: Resolver) {
    Reached(v, path, element) && At(v, path).Some? && At(v, path).value.Str? &&
    var s := At(v, path).value.s;
    ApplyAll(FindAll(s), s, get).Err?
  }

  lemma {:induction false} EntriesFail(es: seq<Entry>, get: Resolver)
    ensures Substitute(es, get).Err? <==> exists i :: 0 <= i < |es| && SubstValue(es[i].val, get).Err?
  {
    if es != [] {
      EntriesFail(es[1..], get);
      assert forall i | 1 <= i < |es| :: es[i] == es[1..][i - 1];
      assert forall i | 0 <= i < |es[1..]| :: es[1..][i] == es[i + 1];
    }
  }

  lemma {:induction false} ItemsFail(items: seq<Value>, get: Resolver)
    ensures SubstItems(items, get).Err? <==> exists i :: 0 <= i < |items| && SubstItem(items[i], get).Err?
  {
    if items != [] {
      ItemsFail(items[1..], get);
      assert forall i | 1 <= i < |items| :: items[i] == items[1..][i - 1];
      assert forall i | 0 <= i < |items[1..]| :: items[1..][i] == items[i + 1];
    }
  }

  lemma RaisesBelow(v: Value, i: nat, path: seq<nat>, element: bool, get: Resolver)
    requires v.Dict? || (v.List? && !element)
    requires v.Dict? ==> i < |v.entries| && RaisesAt(v.entries[i].val, path, false, get)
    requires v.List? ==> i < |v.items| && RaisesAt(v.items[i], path, true, get)
    ensures RaisesAt(v, [i] + path, element, get)
  {
    assert ([i] + path)[1..] == path;
  }

  lemma {:induction false} FailsSomewhere(v: Value, element: bool, get: Resolver) returns (path: seq<nat>)
    requires SubstAt(v, element, get).Err?
    ensures RaisesAt(v, path, element, get)
    decreases v
  {
    path := [];
    SubstAtMeans(v, element, get);
    match v {
      case Dict(es) =>
        EntriesFail(es, get);
        var i: nat :| i < |es| && SubstValue(es[i].val, get).Err?;
        var rest := FailsSomewhere(es[i].val, false, get);
        path := [i] + rest;
        RaisesBelow(v, i, rest, element, get);
      case List(items) =>
        ItemsFail(items, get);
        var i: nat :| i < |items| && SubstItem(items[i], get).Err?;
        var rest := FailsSomewhere(items[i], true, get);
        path := [i] + rest;
        RaisesBelow(v, i, rest, element, get);
      case _ =>
    }
  }

  /** Templating fails if and only if `template_str` raises for the string at some reached position. */
  lemma FailsExactly(d: seq<Entry>, get: Resolver)
    ensures Substitute(d, get).Err? <==> exists path :: RaisesAt(Dict(d), path, false, get)
  {
    if Substitute(d, get).Err? {
      var path := FailsSomewhere(Dict(d), false, get);
    } else if path :| RaisesAt(Dict(d), path, false, get) {
      EveryPosition(d, Substitute(d, get).value, get, path);
    }
  }

  // ---------------------------------------------------------------- nothing is left to resolve

  lemma {:induction false} WellFormedAt(v: Value, path: seq<nat>, element: bool)
    requires Reached(v, path, element) && ((element && v.List?) || WellFormedValue(v))
    ensures At(v, path).Some?
    ensures At(v, path).value.Str? ==> WellFormedString(At(v, path).value.s)
    decreases |path|
  {
    if path != [] {
      match v {
        case Dict(es) =>
          WellFormedEntry(es, path[0]);
          WellFormedAt(es[path[0]].val, path[1..], false);
        case List(items) =>
          WellFormedElement(items, path[0]);
          WellFormedAt(items[path[0]], path[1..], true);
      }
    }
  }

  lemma {:induction false} WellFormedEntry(es: seq<Entry>, i: nat)
    requires WellFormedEntries(es) && i < |es|
    ensures WellFormedValue(es[i].val)
  {
    if i > 0 {
      WellFormedEntry(es[1..], i - 1);
    }
  }

  lemma {:induction false} WellFormedElement(items: seq<Value>, i: nat)
    requires WellFormedItems(items) && i < |items|
    ensures items[i].List? || WellFormedValue(items[i])
  {
    if i > 0 {
      WellFormedElement(items[1..], i - 1);
    }
  }

  ghost predicate AnswersAll(get: Resolver) {
    StringResolver(get) && forall raw :: get(raw).Found?
  }

  lemma {:induction false} NoHolesLeft(ps: seq<Piece>, get: Resolver)
    requires AnswersAll(get)
    ensures Holes(SubstAll(ps, get)) == []
  {
    if ps != [] {
      var rest := SubstAll(ps[1..], get);
      NoHolesLeft(ps[1..], get);
      if ps[0].Hole? {
        assert get(ps[0].raw).Found?;
        SubstAllChars(get(ps[0].raw).v.s, rest, get);
      } else {
        SubstAllCons(ps[0], rest, get);
      }
    }
  }

  lemma NoneRaises(raws: seq<string>, get: Resolver)
    requires AnswersAll(get)
    ensures !AnyRaises(raws, get)
  {
    forall r | r in raws
      ensures !get(r).Raises?
    {
      assert get(r).Found?;
    }
  }

  /** When every placeholder is answered with a string, templating succeeds, and no string at a reached
      position has a placeholder left. */
  lemma NothingLeft(d: seq<Entry>, get: Resolver, path: seq<nat>)
    requires WellFormedEntries(d) && AnswersAll(get) && Reached(Dict(d), path, false)
    ensures Substitute(d, get).Ok?
    ensures At(Dict(d), path).Some? && At(Dict(Substitute(d, get).value), path).Some?
    ensures At(Dict(d), path).value.Str? ==>
              var y := At(Dict(Substitute(d, get).value), path).value; y.Str? && FindAll(y.s) == []
  {
    if Substitute(d, get).Err? {
      FailsExactly(d, get);
      var p :| RaisesAt(Dict(d), p, false, get);
      WellFormedAt(Dict(d), p, false);
      StringAnswered(At(Dict(d), p).value.s, get);
      assert false;
    }
    EveryPosition(d, Substitute(d, get).value, get, path);
    WellFormedAt(Dict(d), path, false);
    if At(Dict(d), path).value.Str? {
      StringAnswered(At(Dict(d), path).value.s, get);
    }
  }

  lemma StringAnswered(s: string, get: Resolver)
    requires WellFormedString(s) && AnswersAll(get)
    ensures var r := ApplyAll(FindAll(s), s, get); r.Ok? && r.value.Str? && FindAll(r.value.s) == []
  {
    var ps :| WellFormed(ps) && Render(ps) == s;
    TemplateStrOfStrings(ps, get);
    NoneRaises(Holes(ps), get);
    SubstAllWellFormed(ps, get);
    FindAllHoles(SubstAll(ps, get));
    NoHolesLeft(ps, get);
  }

  // ---------------------------------------------------------------- the text of one string

  /** The texts with the others between them. */
  function Weave(texts: seq<string>, between: seq<string>): string
    requires |texts| == |between| + 1
  {
    if between == [] then texts[0] else texts[0] + between[0] + Weave(texts[1..], between[1..])
  }

  function Marks(raws: seq<string>): (r: seq<string>)
    ensures |r| == |raws|
  {
    if raws == [] then [] else [Mark(raws[0])] + Marks(raws[1..])
  }

  function Values(raws: seq<string>, get: Resolver): (r: seq<string>)
    ensures |r| == |raws|
  {
    if raws == [] then [] else [ValueText(raws[0], get)] + Values(raws[1..], get)
  }

  /** What stands for a placeholder: the string of the resolver, or the placeholder itself. */
  function ValueText(raw: string, get: Resolver): string {
    if get(raw).Found? && get(raw).v.Str? then get(raw).v.s else Mark(raw)
  }

  function Pieces(texts: seq<string>, raws: seq<string>): seq<Piece>
    requires |texts| == |raws| + 1
  {
    if raws == [] then Chars(texts[0]) else Chars(texts[0]) + ([Hole(raws[0])] + Pieces(texts[1..], raws[1..]))
  }

  ghost predicate PlainTexts(texts: seq<string>) {
    forall t :: t in texts ==> '$' !in t
  }

  ghost predicate CleanRaws(raws: seq<string>) {
    forall r :: r in raws ==> CleanRaw(r)
  }

  ghost predicate PiecesOk(texts: seq<string>, raws: seq<string>, get: Resolver)
    requires |texts| == |raws| + 1
  {
    var ps := Pieces(texts, raws);
    && WellFormed(ps) && Holes(ps) == raws
    && Render(ps) == Weave(texts, Marks(raws))
    && Render(SubstAll(ps, get)) == Weave(texts, Values(raws, get))
  }

  lemma PiecesNext(texts: seq<string>, raws: seq<string>, get: Resolver)
    requires |texts| == |raws| + 1 && raws != [] && '$' !in texts[0] && CleanRaw(raws[0])
    requires PiecesOk(texts[1..], raws[1..], get)
    ensures PiecesOk(texts, raws, get)
  {
    var rest := Pieces(texts[1..], raws[1..]);
    WeavesNext(texts, raws, get);
    HolePieces(texts[0], raws[0], rest, get);
    assert Pieces(texts, raws) == Chars(texts[0]) + ([Hole(raws[0])] + rest);
    assert [raws[0]] + raws[1..] == raws;
  }

  lemma WeavesNext(texts: seq<string>, raws: seq<string>, get: Resolver)
    requires |texts| == |raws| + 1 && raws != []
    ensures Weave(texts, Marks(raws)) == texts[0] + Mark(raws[0]) + Weave(texts[1..], Marks(raws[1..]))
    ensures Weave(texts, Values(raws, get)) ==
            texts[0] + ValueText(raws[0], get) + Weave(texts[1..], Values(raws[1..], get))
  {
    WeaveCons(texts, Mark(raws[0]), Marks(raws[1..]));
    WeaveCons(texts, ValueText(raws[0], get), Values(raws[1..], get));
  }

  lemma WeaveCons(texts: seq<string>, x: string, rest: seq<string>)
    requires |texts| == |rest| + 2
    ensures Weave(texts, [x] + rest) == texts[0] + x + Weave(texts[1..], rest)
  {
    assert ([x] + rest)[1..] == rest;
  }

  lemma {:induction false} PiecesMean(texts: seq<string>, raws: seq<string>, get: Resolver)
    requires |texts| == |raws| + 1 && PlainTexts(texts) && CleanRaws(raws)
    ensures PiecesOk(texts, raws, get)
  {
    assert texts[0] in texts;
    if raws == [] {
      RenderChars(texts[0]);
      CharsOnly(texts[0], get);
    } else {
      assert raws[0] in raws && PlainTexts(texts[1..]) && CleanRaws(raws[1..]);
      PiecesMean(texts[1..], raws[1..], get);
      PiecesNext(texts, raws, get);
    }
  }

  lemma CharsOnly(t: string, get: Resolver)
    requires '$' !in t
    ensures WellFormed(Chars(t)) && SubstAll(Chars(t), get) == Chars(t)
  {
    assert Chars(t) + [] == Chars(t);
    WellFormedChars(t, []);
    SubstAllChars(t, [], get);
  }

  /** A text and a placeholder before other pieces. */
  lemma HolePieces(t: string, raw: string, ps: seq<Piece>, get: Resolver)
    requires '$' !in t && CleanRaw(raw) && WellFormed(ps)
    ensures var all := Chars(t) + ([Hole(raw)] + ps);
      && WellFormed(all) && Holes(all) == [raw] + Holes(ps)
      && Render(all) == t + Mark(raw) + Render(ps)
      && Render(SubstAll(all, get)) ==
         t + ValueText(raw, get) + Render(SubstAll(ps, get))
  {
    var tail := [Hole(raw)] + ps;
    assert tail[1..] == ps;
    WellFormedChars(t, tail);
    SubstAllChars(t, tail, get);
    SubstAllCons(Hole(raw), ps, get);
    HoleText(raw, ps, get);
    AfterText(t, tail, Mark(raw), Render(ps));
    AfterText(t, SubstAll(tail, get), ValueText(raw, get), Render(SubstAll(ps, get)));
  }

  lemma AfterText(t: string, ps: seq<Piece>, a: string, b: string)
    requires Render(ps) == a + b
    ensures Render(Chars(t) + ps) == t + a + b
  {
    RenderConcat(Chars(t), ps);
    RenderChars(t);
    Assoc(t, a, b);
  }

  lemma HoleText(raw: string, ps: seq<Piece>, get: Resolver)
    ensures Render([Hole(raw)] + ps) == Mark(raw) + Render(ps)
    ensures Render(Replaced(Hole(raw), get) + SubstAll(ps, get)) ==
            ValueText(raw, get) + Render(SubstAll(ps, get))
  {
    RenderCons(Hole(raw), ps);
    RenderConcat(Replaced(Hole(raw), get), SubstAll(ps, get));
    RenderCons(Hole(raw), []);
    if get(raw).Found? && get(raw).v.Str? {
      RenderChars(get(raw).v.s);
    }
  }

  /** A string of texts and placeholders, none of which raises or has a value other than a string or
      None: the result is the texts with the strings for the placeholders between them. */
  lemma WovenTemplate(texts: seq<string>, raws: seq<string>, get: Resolver)
    requires |texts| == |raws| + 1 && PlainTexts(texts) && CleanRaws(raws) && PlainStrings(get)
    requires forall r :: r in raws ==> get(r).NotFound? || (get(r).Found? && (get(r).v.Str? || get(r).v.Null?))
    ensures var s := Weave(texts, Marks(raws));
      ApplyAll(FindAll(s), s, get) == Ok(Str(Weave(texts, Values(raws, get))))
  {
    PiecesMean(texts, raws, get);
    TemplateStrMeans(Pieces(texts, raws), get);
    NothingDecides(raws, get);
  }

  /** The first of the placeholders that raises, or has a value that is neither a string nor None, decides
      alone: the template raises, or becomes that value. */
  lemma DecidedTemplate(texts: seq<string>, raws: seq<string>, get: Resolver, i: nat)
    requires |texts| == |raws| + 1 && PlainTexts(texts) && CleanRaws(raws) && PlainStrings(get) && i < |raws|
    requires forall j :: 0 <= j < i ==>
               get(raws[j]).NotFound? || (get(raws[j]).Found? && (get(raws[j]).v.Str? || get(raws[j]).v.Null?))
    requires get(raws[i]).Raises? || (get(raws[i]).Found? && !get(raws[i]).v.Str? && !get(raws[i]).v.Null?)
    ensures var s := Weave(texts, Marks(raws));
      ApplyAll(FindAll(s), s, get) == if get(raws[i]).Raises? then Err else Ok(get(raws[i]).v)
  {
    PiecesMean(texts, raws, get);
    TemplateStrMeans(Pieces(texts, raws), get);
    FirstDecides(raws, get, i);
  }

  lemma {:induction false} FirstDecides(raws: seq<string>, get: Resolver, i: nat)
    requires i < |raws|
    requires forall j :: 0 <= j < i ==>
               get(raws[j]).NotFound? || (get(raws[j]).Found? && (get(raws[j]).v.Str? || get(raws[j]).v.Null?))
    requires get(raws[i]).Raises? || (get(raws[i]).Found? && !get(raws[i]).v.Str? && !get(raws[i]).v.Null?)
    ensures Decision(raws, get) == Some(if get(raws[i]).Raises? then Err else Ok(get(raws[i]).v))
  {
    if i > 0 {
      assert forall j | 0 <= j < |raws| - 1 :: raws[1..][j] == raws[j + 1];
      FirstDecides(raws[1..], get, i - 1);
    }
  }

  lemma {:induction false} NothingDecides(raws: seq<string>, get: Resolver)
    requires forall r :: r in raws ==> get(r).NotFound? || (get(r).Found? && (get(r).v.Str? || get(r).v.Null?))
    ensures Decision(raws, get).None?
  {
    if raws != [] {
      assert raws[0] in raws && forall r :: r in raws[1..] ==> r in raws;
      NothingDecides(raws[1..], get);
    }
  }

  // ---------------------------------------------------------------- quotation marks

  lemma {:induction false} CloseAtEnd(raw: string)
    requires '}' !in raw
    ensures CloseIndex(raw + "}}") == |raw|
  {
    CloseAfter(raw, "");
    assert raw + "}}" + "" == raw + "}}";
  }

  lemma {:induction false} NoDollar(s: string)
    requires '$' !in s
    ensures FindAll(s) == []
  {
    if s != "" {
      assert |s| >= 3 ==> s[..3][0] == s[0];
      NoDollar(s[1..]);
    }
  }

  /** What stands in the braces is a placeholder if and only if it has no quotation mark; so a template
      like local.file("x") in double quotes stays as it is. */
  lemma QuotedIsNone(raw: string, get: Resolver)
    requires '$' !in raw && '}' !in raw
    ensures FindAll(Mark(raw)) == if '"' in raw then [] else [raw]
    ensures '"' in raw ==> ApplyAll(FindAll(Mark(raw)), Mark(raw), get) == Ok(Str(Mark(raw)))
  {
    var s := Mark(raw);
    if '"' in raw {
      CloseAtEnd(raw);
      assert s[3..] == raw + "}}" && s[3..3 + |raw|] == raw;
      assert MatchHere(s).None?;
      NoDollar(s[1..]);
    } else {
      MatchMark(raw, "");
      assert Mark(raw) + "" == s;
      assert s[|raw| + 5..] == "";
    }
  }

  /** The example of the documentation. */
  lemma LocalFileStays(get: Resolver)
    ensures var s := Mark(" local.file(\"x\") "); ApplyAll(FindAll(s), s, get) == Ok(Str(s))
  {
    var raw := " local.file(\"x\") ";
    assert raw[12] == '"';
    QuotedIsNone(raw, get);
  }
}
