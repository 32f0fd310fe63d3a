/** What `template_str` computes on a well-formed template, and templating in phases. */
module TemplateSubst {
  import opened Common
  import opened TemplateText

  /** A resolver whose values are all strings without '$'. It may also decline or raise. */
  ghost predicate StringResolver(get: Resolver) {
    forall raw :: get(raw).Found? ==> get(raw).v.Str? && '$' !in get(raw).v.s
  }

  function Replaced(p: Piece, get: Resolver): seq<Piece> {
    if p.Hole? && get(p.raw).Found? && get(p.raw).v.Str? then Chars(get(p.raw).v.s) else [p]
  }

  /** All placeholders replaced at once; the unresolved ones stay. */
  function SubstAll(ps: seq<Piece>, get: Resolver): seq<Piece> {
    if ps == [] then [] else Replaced(ps[0], get) + SubstAll(ps[1..], get)
  }

  /** Only the placeholders whose text is in `raws` replaced. */
  function SubstIn(ps: seq<Piece>, raws: seq<string>, get: Resolver): seq<Piece> {
    if ps == [] then []
    else (if ps[0].Hole? && ps[0].raw in raws then Replaced(ps[0], get) else [ps[0]]) + SubstIn(ps[1..], raws, get)
  }

  ghost predicate AnyRaises(raws: seq<string>, get: Resolver) {
    exists r :: r in raws && get(r).Raises?
  }

  // ---------------------------------------------------------------- one string

  lemma SubstInCons(p: Piece, ps: seq<Piece>, raws: seq<string>, get: Resolver)
    ensures SubstIn([p] + ps, raws, get) ==
            (if p.Hole? && p.raw in raws then Replaced(p, get) else [p]) + SubstIn(ps, raws, get)
  {
    assert ([p] + ps)[1..] == ps;
  }

  lemma {:induction false} SubstInChars(t: string, ps: seq<Piece>, raws: seq<string>, get: Resolver)
    ensures SubstIn(Chars(t) + ps, raws, get) == Chars(t) + SubstIn(ps, raws, get)
  {
    if t == "" {
      assert Chars(t) + ps == ps;
    } else {
      var tail := Chars(t[1..]);
      SubstInChars(t[1..], ps, raws, get);
      assert Chars(t) + ps == [Chr(t[0])] + (tail + ps);
      SubstInCons(Chr(t[0]), tail + ps, raws, get);
      Assoc([Chr(t[0])], tail, SubstIn(ps, raws, get));
    }
  }

  /** Replacing one placeholder and then the others is replacing them all. */
  lemma {:induction false} SubstInStep(ps: seq<Piece>, raws: seq<string>, get: Resolver, t: string)
    requires raws != [] && get(raws[0]) == Found(Str(t))
    ensures SubstIn(SubstOne(ps, raws[0], t), raws[1..], get) == SubstIn(ps, raws, get)
  {
    if ps != [] {
      var r, rest := raws[0], raws[1..];
      var tail := SubstOne(ps[1..], r, t);
      SubstInStep(ps[1..], raws, get, t);
      assert forall x :: x in raws <==> x == r || x in rest;
      if ps[0] == Hole(r) {
        SubstInChars(t, tail, rest, get);
      } else {
        SubstInCons(ps[0], tail, rest, get);
      }
    }
  }

  lemma {:induction false} SubstInSkip(ps: seq<Piece>, raws: seq<string>, get: Resolver)
    requires raws != [] && !(get(raws[0]).Found? && get(raws[0]).v.Str?)
    ensures SubstIn(ps, raws[1..], get) == SubstIn(ps, raws, get)
  {
    if ps != [] {
      SubstInSkip(ps[1..], raws, get);
      assert forall x :: x in raws <==> x == raws[0] || x in raws[1..];
    }
  }

  lemma {:induction false} SubstInNone(ps: seq<Piece>, get: Resolver)
    ensures SubstIn(ps, [], get) == ps
  {
    if ps != [] {
      SubstInNone(ps[1..], get);
    }
  }

  lemma {:induction false} SubstInHoles(ps: seq<Piece>, raws: seq<string>, get: Resolver)
    requires forall h :: h in Holes(ps) ==> h in raws
    ensures SubstIn(ps, raws, get) == SubstAll(ps, get)
  {
    if ps != [] {
      SubstInHoles(ps[1..], raws, get);
    }
  }

  /** A resolver whose strings have no '$'. Its other values may be of any kind. */
  ghost predicate PlainStrings(get: Resolver) {
    forall raw :: get(raw).Found? && get(raw).v.Str? ==> '$' !in get(raw).v.s
  }

  /** The first placeholder that decides the result alone: one that raises, or one whose value is
      neither a string nor None, which then replaces the whole template. */
  function Decision(raws: seq<string>, get: Resolver): Option<Outcome<Value>> {
    if raws == [] then None
    else
      match get(raws[0])
      case Raises => Some(Err)
      case Found(v) => if v.Str? || v.Null? then Decision(raws[1..], get) else Some(Ok(v))
      case NotFound => Decision(raws[1..], get)
  }

  lemma {:induction false} DecisionOfStrings(raws: seq<string>, get: Resolver)
    requires StringResolver(get)
    ensures Decision(raws, get) == if AnyRaises(raws, get) then Some(Err) else None
  {
    if raws != [] {
      DecisionOfStrings(raws[1..], get);
      assert forall x :: x in raws <==> x == raws[0] || x in raws[1..];
    }
  }

  /** The loop over any placeholders, on a well-formed string. */
  lemma {:induction false} ApplyAllMeans(raws: seq<string>, ps: seq<Piece>, get: Resolver)
    requires WellFormed(ps) && PlainStrings(get) && forall r :: r in raws ==> CleanRaw(r)
    ensures ApplyAll(raws, Render(ps), get) ==
            if Decision(raws, get).Some? then Decision(raws, get).value else Ok(Str(Render(SubstIn(ps, raws, get))))
  {
    if raws == [] {
      SubstInNone(ps, get);
    } else {
      var r, rest := raws[0], raws[1..];
      var g := get(r);
      if g.Found? && g.v.Str? {
        ReplaceIsSubst(ps, r, g.v.s);
        WellFormedSubst(ps, r, g.v.s);
        ApplyAllMeans(rest, SubstOne(ps, r, g.v.s), get);
        SubstInStep(ps, raws, get, g.v.s);
      } else if g.NotFound? || (g.Found? && g.v.Null?) {
        ApplyAllMeans(rest, ps, get);
        SubstInSkip(ps, raws, get);
      }
    }
  }

  lemma {:induction false} HolesAreClean(ps: seq<Piece>)
    requires WellFormed(ps)
    ensures forall h :: h in Holes(ps) ==> CleanRaw(h)
  {
    if ps != [] {
      HolesAreClean(ps[1..]);
    }
  }

  /** On a well-formed template, unless some placeholder decides the result alone,
      `template_str` replaces every placeholder with a string value, all occurrences at once and
      nothing else. */
  lemma TemplateStrMeans(ps: seq<Piece>, get: Resolver)
    requires WellFormed(ps) && PlainStrings(get)
    ensures ApplyAll(FindAll(Render(ps)), Render(ps), get) ==
            if Decision(Holes(ps), get).Some? then Decision(Holes(ps), get).value
            else Ok(Str(Render(SubstAll(ps, get))))
  {
    FindAllHoles(ps);
    HolesAreClean(ps);
    ApplyAllMeans(Holes(ps), ps, get);
    SubstInHoles(ps, Holes(ps), get);
  }

  /** With string values only, it raises exactly when some placeholder raises. */
  lemma TemplateStrOfStrings(ps: seq<Piece>, get: Resolver)
    requires WellFormed(ps) && StringResolver(get)
    ensures ApplyAll(FindAll(Render(ps)), Render(ps), get) ==
            if AnyRaises(Holes(ps), get) then Err else Ok(Str(Render(SubstAll(ps, get))))
  {
    TemplateStrMeans(ps, get);
    DecisionOfStrings(Holes(ps), get);
  }

  lemma {:induction false} SubstAllWellFormed(ps: seq<Piece>, get: Resolver)
    requires WellFormed(ps) && StringResolver(get)
    ensures WellFormed(SubstAll(ps, get))
  {
    if ps != [] {
      var rest := SubstAll(ps[1..], get);
      SubstAllWellFormed(ps[1..], get);
      if ps[0].Hole? && get(ps[0].raw).Found? {
        WellFormedChars(get(ps[0].raw).v.s, rest);
      } else {
        assert ([ps[0]] + rest)[1..] == rest;
        if ps[0] == Chr('$') && |ps| > 1 {
          assert rest[0] == ps[1];
        }
      }
    }
  }

  // ---------------------------------------------------------------- two phases

  /** The first of two resolvers that has a value: `MultiTemplater` of two. */
  function Combine(a: Resolver, b: Resolver): Resolver {
    raw => if a(raw).NotFound? || a(raw) == Found(Null) then b(raw) else a(raw)
  }

  lemma SubstAllCons(p: Piece, ps: seq<Piece>, get: Resolver)
    ensures SubstAll([p] + ps, get) == Replaced(p, get) + SubstAll(ps, get)
    ensures Holes([p] + ps) == (if p.Hole? then [p.raw] else []) + Holes(ps)
  {
    assert ([p] + ps)[1..] == ps;
  }

  lemma {:induction false} SubstAllChars(t: string, ps: seq<Piece>, get: Resolver)
    ensures SubstAll(Chars(t) + ps, get) == Chars(t) + SubstAll(ps, get)
    ensures Holes(Chars(t) + ps) == Holes(ps)
  {
    if t == "" {
      assert Chars(t) + ps == ps;
    } else {
      var tail := Chars(t[1..]);
      SubstAllChars(t[1..], ps, get);
      Assoc([Chr(t[0])], tail, ps);
      SubstAllCons(Chr(t[0]), tail + ps, get);
      Assoc([Chr(t[0])], tail, SubstAll(ps, get));
    }
  }

  lemma {:induction false} SubstTwice(ps: seq<Piece>, a: Resolver, b: Resolver)
    requires StringResolver(a) && StringResolver(b) && !AnyRaises(Holes(ps), a)
    ensures SubstAll(SubstAll(ps, a), b) == SubstAll(ps, Combine(a, b))
  {
    if ps != [] {
      var rest := SubstAll(ps[1..], a);
      RaisesCons(ps, a);
      SubstTwice(ps[1..], a, b);
      if ps[0].Hole? && a(ps[0].raw).Found? {
        SubstAllChars(a(ps[0].raw).v.s, rest, b);
      } else {
        SubstAllCons(ps[0], rest, b);
      }
    }
  }

  /** What raises in one of two phases raises in the combination, and conversely. */
  lemma {:induction false} RaisesTwice(ps: seq<Piece>, a: Resolver, b: Resolver)
    requires StringResolver(a) && StringResolver(b)
    ensures AnyRaises(Holes(ps), a) || AnyRaises(Holes(SubstAll(ps, a)), b) <==>
            AnyRaises(Holes(ps), Combine(a, b))
  {
    if ps != [] {
      var rest := SubstAll(ps[1..], a);
      RaisesTwice(ps[1..], a, b);
      RaisesCons(ps, a);
      RaisesCons(ps, Combine(a, b));
      if ps[0].Hole? && a(ps[0].raw).Found? {
        SubstAllChars(a(ps[0].raw).v.s, rest, b);
      } else {
        var all := [ps[0]] + rest;
        assert all[1..] == rest;
        RaisesCons(all, b);
      }
    }
  }

  lemma RaisesCons(ps: seq<Piece>, get: Resolver)
    requires ps != []
    ensures AnyRaises(Holes(ps), get) <==>
            (ps[0].Hole? && get(ps[0].raw).Raises?) || AnyRaises(Holes(ps[1..]), get)
  {
    var rest := Holes(ps[1..]);
    assert forall x :: x in Holes(ps) <==> (ps[0].Hole? && x == ps[0].raw) || x in rest;
  }

  /** `template_str` as a function. */
  function TemplateString(v: string, get: Resolver): Outcome<Value> {
    ApplyAll(FindAll(v), v, get)
  }

  ghost predicate WellFormedString(s: string) {
    exists ps :: WellFormed(ps) && Render(ps) == s
  }

  /** Templating a well-formed string yields a well-formed string or raises; a second phase
      then does what one phase with the combined resolver does. */
  lemma TwoPhasesString(s: string, a: Resolver, b: Resolver)
    requires WellFormedString(s) && StringResolver(a) && StringResolver(b)
    ensures var r := TemplateString(s, a);
      && (r.Ok? ==> r.value.Str? && WellFormedString(r.value.s))
      && TemplateString(s, Combine(a, b)) == if r.Ok? then TemplateString(r.value.s, b) else Err
  {
    var ps :| WellFormed(ps) && Render(ps) == s;
    var c := Combine(a, b);
    TemplateStrOfStrings(ps, a);
    TemplateStrOfStrings(ps, c);
    RaisesTwice(ps, a, b);
    if !AnyRaises(Holes(ps), a) {
      SubstAllWellFormed(ps, a);
      TemplateStrOfStrings(SubstAll(ps, a), b);
      SubstTwice(ps, a, b);
    }
  }

  lemma {:induction false} ApplyAllSame(raws: seq<string>, v: string, f: Resolver, g: Resolver)
    requires forall raw :: f(raw) == g(raw)
    ensures ApplyAll(raws, v, f) == ApplyAll(raws, v, g)
  {
    if raws != [] {
      match f(raws[0])
      case NotFound => ApplyAllSame(raws[1..], v, f, g);
      case Raises =>
      case Found(x) =>
        if x.Str? {
          ApplyAllSame(raws[1..], Replace(v, Mark(raws[0]), x.s), f, g);
        } else {
          ApplyAllSame(raws[1..], v, f, g);
        }
    }
  }

  lemma {:induction false} ApplyAllNothing(raws: seq<string>, v: string, get: Resolver)
    requires forall raw :: get(raw).NotFound?
    ensures ApplyAll(raws, v, get) == Ok(Str(v))
  {
    if raws != [] {
      ApplyAllNothing(raws[1..], v, get);
    }
  }
}
