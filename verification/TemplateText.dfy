/** Placeholders inside one string: finding and replacing them (`template_str`). */
module TemplateText {
  import opened Common

  /** Values of configuration dictionaries; `Opaque` is any other object. A dictionary is its
      entries in insertion order. */
  datatype Value =
    | Null
    | Bool(b: bool)
    | Num(n: int)
    | Str(s: string)
    | List(items: seq<Value>)
    | Dict(entries: seq<Entry>)
    | Opaque(tag: int)

  datatype Entry = Entry(key: string, val: Value)

  /** What `get_value` does for a placeholder: returns None, returns a value, or raises. A
      resolver is applied to the text between the braces; trimming it and splitting it into a
      path is part of the resolver. */
  datatype Resolution = NotFound | Found(v: Value) | Raises

  type Resolver = string -> Resolution

  datatype Outcome<+T> = Ok(value: T) | Err

  // ---------------------------------------------------------------- the regular expression

  /** The position of the first "}}", or the length of `t` when there is none. */
  function CloseIndex(t: string): (i: nat)
    ensures i <= |t|
  {
    if |t| < 2 then |t| else if t[..2] == "}}" then 0 else 1 + CloseIndex(t[1..])
  }

  /** The text of a placeholder that starts at the beginning of `s`: everything up to the first
      "}}", if it has no quotation mark. */
  function MatchHere(s: string): Option<string> {
    if |s| < 3 || s[..3] != "${{" then None
    else
      var e := CloseIndex(s[3..]);
      if e + 3 == |s| || '"' in s[3..3 + e] then None else Some(s[3..3 + e])
  }

  lemma CloseIndexInside(t: string)
    ensures CloseIndex(t) < |t| ==> CloseIndex(t) + 2 <= |t|
  {
    if |t| >= 2 && t[..2] != "}}" {
      CloseIndexInside(t[1..]);
      if |t[1..]| < 2 {
        assert CloseIndex(t) == |t|;
      }
    }
  }

  /** The texts of all placeholders, left to right and without overlaps. */
  function FindAll(s: string): seq<string> {
    if s == "" then []
    else
      match MatchHere(s)
      case None => FindAll(s[1..])
      case Some(raw) =>
        CloseIndexInside(s[3..]);
        [raw] + FindAll(s[|raw| + 5..])
  }

  /** The whole placeholder with the text `raw`. */
  function Mark(raw: string): string {
    "${{" + raw + "}}"
  }

  /** `s.replace(pat, val)` for a non-empty pattern. */
  function Replace(s: string, pat: string, val: string): string
    requires pat != ""
  {
    if |s| < |pat| then s
    else if s[..|pat|] == pat then val + Replace(s[|pat|..], pat, val)
    else [s[0]] + Replace(s[1..], pat, val)
  }

  /** The rest of the loop of `template_str`: `raws` are the placeholders still to resolve. */
  function ApplyAll(raws: seq<string>, newV: string, get: Resolver): Outcome<Value> {
    if raws == [] then Ok(Str(newV))
    else
      match get(raws[0])
      case NotFound => ApplyAll(raws[1..], newV, get)
      case Raises => Err
      case Found(v) =>
        if v.Str? then ApplyAll(raws[1..], Replace(newV, Mark(raws[0]), v.s), get)
        else if v.Null? then ApplyAll(raws[1..], newV, get)
        else Ok(v)
  }

  /** `template_str`. */
  method TemplateStr(v: string, get: Resolver) returns (r: Outcome<Value>)
    ensures r == ApplyAll(FindAll(v), v, get)
  {
    var newV := v;
    var raws := FindAll(v);
    for i := 0 to |raws|
      invariant ApplyAll(raws[i..], newV, get) == ApplyAll(raws, v, get)
    {
      assert raws[i..][0] == raws[i] && raws[i..][1..] == raws[i + 1..];
      match get(raws[i]) {
        case NotFound =>
        case Raises =>
          return Err;
        case Found(newValue) =>
          if newValue.Str? {
            newV := Replace(newV, Mark(raws[i]), newValue.s);
          } else if !newValue.Null? {
            return Ok(newValue);
          }
      }
    }
    return Ok(Str(newV));
  }

  // ---------------------------------------------------------------- well-formed templates

  /** A string seen as characters and placeholders. */
  datatype Piece = Chr(c: char) | Hole(raw: string)

  function RenderPiece(p: Piece): string {
    match p
    case Chr(c) => [c]
    case Hole(raw) => Mark(raw)
  }

  function Render(ps: seq<Piece>): string {
    if ps == [] then "" else RenderPiece(ps[0]) + Render(ps[1..])
  }

  /** The text of a placeholder has no '$', '}' or '"'. */
  predicate CleanRaw(raw: string) {
    '$' !in raw && '}' !in raw && '"' !in raw
  }

  /** Placeholders are clean, and a '$' outside of them is followed neither by '{' nor by a
      placeholder. */
  ghost predicate WellFormed(ps: seq<Piece>) {
    ps == [] ||
    (&& (ps[0].Hole? ==> CleanRaw(ps[0].raw))
     && (ps[0] == Chr('$') && |ps| > 1 ==> ps[1].Chr? && ps[1].c != '{')
     && WellFormed(ps[1..]))
  }

  function Holes(ps: seq<Piece>): seq<string> {
    if ps == [] then [] else (if ps[0].Hole? then [ps[0].raw] else []) + Holes(ps[1..])
  }

  function Chars(t: string): seq<Piece> {
    if t == "" then [] else [Chr(t[0])] + Chars(t[1..])
  }

  lemma RenderCons(p: Piece, ps: seq<Piece>)
    ensures Render([p] + ps) == RenderPiece(p) + Render(ps)
  {
    assert ([p] + ps)[1..] == ps;
  }

  lemma RenderHead(ps: seq<Piece>)
    requires ps != []
    ensures Render(ps) == RenderPiece(ps[0]) + Render(ps[1..])
  {
  }

  lemma {:induction false} RenderConcat(a: seq<Piece>, b: seq<Piece>)
    ensures Render(a + b) == Render(a) + Render(b)
  {
    if a == [] {
      assert a + b == b;
    } else {
      var head, tail := RenderPiece(a[0]), Render(a[1..]);
      RenderConcat(a[1..], b);
      RenderHead(a);
      RenderHead(a + b);
      assert (a + b)[1..] == a[1..] + b;
      Assoc(head, tail, Render(b));
    }
  }

  lemma {:induction false} RenderChars(t: string)
    ensures Render(Chars(t)) == t
    ensures Holes(Chars(t)) == []
    ensures forall i :: 0 <= i < |Chars(t)| ==> Chars(t)[i].Chr? && Chars(t)[i].c in t
  {
    if t != "" {
      RenderChars(t[1..]);
      assert Chars(t)[1..] == Chars(t[1..]);
    }
  }

  lemma {:induction false} CloseAfter(raw: string, rest: string)
    requires '}' !in raw
    ensures CloseIndex(raw + "}}" + rest) == |raw|
  {
    var t := raw + "}}" + rest;
    if raw == "" {
      assert t[..2] == "}}";
    } else {
      CloseAfter(raw[1..], rest);
      assert t[1..] == raw[1..] + "}}" + rest;
      assert t[..2][0] == raw[0];
    }
  }

  lemma MatchMark(raw: string, rest: string)
    requires CleanRaw(raw)
    ensures MatchHere(Mark(raw) + rest) == Some(raw)
    ensures (Mark(raw) + rest)[|raw| + 5..] == rest
  {
    var s := Mark(raw) + rest;
    CloseAfter(raw, rest);
    assert s[..3] == "${{";
    assert s[3..] == raw + "}}" + rest;
    assert s[3..3 + |raw|] == raw;
  }

  /** After a '$' outside placeholders the string goes on with something else than '{'. */
  lemma NotAMark(ps: seq<Piece>)
    requires WellFormed(ps) && ps != [] && ps[0].Chr?
    ensures var s := Render(ps); s[0] == ps[0].c && s[1..] == Render(ps[1..])
    ensures var s := Render(ps); |s| < 2 || s[..2] != "${"
  {
    var s := Render(ps);
    assert s[1..] == Render(ps[1..]);
    if ps[0].c == '$' && |ps| > 1 {
      assert Render(ps[1..])[0] == ps[1].c;
      assert s[1] == ps[1].c;
    }
  }

  /** The regular expression finds exactly the placeholders of a well-formed template. */
  lemma {:induction false} FindAllHoles(ps: seq<Piece>)
    requires WellFormed(ps)
    ensures FindAll(Render(ps)) == Holes(ps)
  {
    if ps != [] {
      var s := Render(ps);
      FindAllHoles(ps[1..]);
      match ps[0] {
        case Chr(c) =>
          NotAMark(ps);
          assert MatchHere(s).None? by {
            if |s| >= 3 {
              assert s[..3][..2] == s[..2];
            }
          }
        case Hole(raw) =>
          MatchMark(raw, Render(ps[1..]));
      }
    }
  }

  // ---------------------------------------------------------------- replacing a placeholder

  function SubstOne(ps: seq<Piece>, r: string, t: string): seq<Piece> {
    if ps == [] then []
    else (if ps[0] == Hole(r) then Chars(t) else [ps[0]]) + SubstOne(ps[1..], r, t)
  }

  lemma {:induction false} ReplaceSkips(x: string, rest: string, r: string, t: string)
    requires '$' !in x
    ensures Replace(x + rest, Mark(r), t) == x + Replace(rest, Mark(r), t)
  {
    if x == "" {
      assert x + rest == rest;
    } else {
      var s := x + rest;
      ReplaceSkips(x[1..], rest, r, t);
      assert s[1..] == x[1..] + rest;
      assert s[0] == x[0] && Mark(r)[0] == '$';
      if |s| >= |Mark(r)| {
        assert s[..|Mark(r)|][0] == x[0];
      }
    }
  }

  /** A placeholder starts with the pattern of another one only when they are the same. */
  lemma MarksDiffer(raw: string, r: string, rest: string)
    requires CleanRaw(raw) && CleanRaw(r)
    requires |Mark(raw) + rest| >= |Mark(r)| && (Mark(raw) + rest)[..|Mark(r)|] == Mark(r)
    ensures raw == r
  {
    var s := Mark(raw) + rest;
    MatchMark(raw, rest);
    assert s == Mark(r) + s[|Mark(r)|..];
    MatchMark(r, s[|Mark(r)|..]);
  }

  /** A character where the pattern does not start is kept. */
  lemma ReplaceNext(x: char, rest: string, r: string, t: string)
    requires var s := [x] + rest; |s| >= |Mark(r)| ==> s[..|Mark(r)|] != Mark(r)
    ensures Replace([x] + rest, Mark(r), t) == [x] + Replace(rest, Mark(r), t)
  {
    assert ([x] + rest)[1..] == rest;
  }

  lemma ReplaceAtMark(raw: string, rest: string, r: string, t: string)
    requires CleanRaw(raw) && CleanRaw(r)
    ensures Replace(Mark(raw) + rest, Mark(r), t) ==
            (if raw == r then t else Mark(raw)) + Replace(rest, Mark(r), t)
  {
    var s := Mark(raw) + rest;
    if raw == r {
      assert s[..|Mark(r)|] == Mark(r) && s[|Mark(r)|..] == rest;
    } else {
      var tail := "{{" + raw + "}}";
      assert Mark(raw) == ['$'] + tail;
      if |s| >= |Mark(r)| && s[..|Mark(r)|] == Mark(r) {
        MarksDiffer(raw, r, rest);
      }
      ReplaceSkips(tail, rest, r, t);
      ReplaceNext('$', tail + rest, r, t);
      assert s == ['$'] + (tail + rest);
      Assoc(['$'], tail, Replace(rest, Mark(r), t));
    }
  }

  lemma ReplaceAtChr(ps: seq<Piece>, r: string, t: string)
    requires WellFormed(ps) && ps != [] && ps[0].Chr?
    ensures Replace(Render(ps), Mark(r), t) == [ps[0].c] + Replace(Render(ps[1..]), Mark(r), t)
  {
    var s := Render(ps);
    NotAMark(ps);
    if |s| >= |Mark(r)| {
      assert Mark(r)[..2] == "${";
      assert s[..|Mark(r)|][..2] == s[..2];
    } else {
      assert |s[1..]| < |Mark(r)|;
      assert [s[0]] + s[1..] == s;
    }
  }

  /** Replacing the text of a placeholder replaces exactly the placeholders with that text. */
  lemma {:induction false} ReplaceIsSubst(ps: seq<Piece>, r: string, t: string)
    requires WellFormed(ps) && CleanRaw(r)
    ensures Replace(Render(ps), Mark(r), t) == Render(SubstOne(ps, r, t))
  {
    if ps != [] {
      var rest := ps[1..];
      ReplaceIsSubst(rest, r, t);
      var head := if ps[0] == Hole(r) then Chars(t) else [ps[0]];
      RenderConcat(head, SubstOne(rest, r, t));
      RenderChars(t);
      RenderCons(ps[0], []);
      match ps[0] {
        case Chr(c) => ReplaceAtChr(ps, r, t);
        case Hole(raw) => ReplaceAtMark(raw, Render(rest), r, t);
      }
    }
  }

  lemma {:induction false} WellFormedChars(t: string, ps: seq<Piece>)
    requires '$' !in t && WellFormed(ps)
    ensures WellFormed(Chars(t) + ps)
  {
    if t == "" {
      assert Chars(t) + ps == ps;
    } else {
      WellFormedChars(t[1..], ps);
      var all := Chars(t) + ps;
      assert all[0] == Chr(t[0]) && all[1..] == Chars(t[1..]) + ps;
    }
  }

  lemma {:induction false} WellFormedSubst(ps: seq<Piece>, r: string, t: string)
    requires WellFormed(ps) && '$' !in t
    ensures WellFormed(SubstOne(ps, r, t))
  {
    if ps != [] {
      var rest := SubstOne(ps[1..], r, t);
      WellFormedSubst(ps[1..], r, t);
      if ps[0] == Hole(r) {
        WellFormedChars(t, rest);
      } else {
        assert ([ps[0]] + rest)[1..] == rest;
        if ps[0] == Chr('$') && |ps| > 1 {
          assert rest[0] == ps[1];
        }
      }
    }
  }
}
