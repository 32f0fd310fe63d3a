/** Templating nested dictionaries (`template_dict`) with one or several templaters. */
module TemplateDict {
  import opened Common
  import opened TemplateText
  import opened TemplateSubst

  // ---------------------------------------------------------------- the specification

  /** `_substitute` on the entries of a dictionary. */
  function Substitute(es: seq<Entry>, get: Resolver): Outcome<seq<Entry>>
    decreases es
  {
    if es == [] then Ok([])
    else
      var v := SubstValue(es[0].val, get);
      var rest := Substitute(es[1..], get);
      if v.Err? || rest.Err? then Err else Ok([Entry(es[0].key, v.value)] + rest.value)
  }

  function SubstValue(v: Value, get: Resolver): Outcome<Value>
    decreases v, 0
  {
    match v
    case Dict(es) =>
      var r := Substitute(es, get);
      if r.Err? then Err else Ok(Dict(r.value))
    case List(items) =>
      var r := SubstItems(items, get);
      if r.Err? then Err else Ok(List(r.value))
    case Str(s) => TemplateString(s, get)
    case _ => Ok(v)
  }

  /** A list element: dictionaries and strings are templated, lists inside lists are not. */
  function SubstItem(x: Value, get: Resolver): Outcome<Value>
    decreases x, 1
  {
    if x.List? then Ok(x) else SubstValue(x, get)
  }

  function SubstItems(items: seq<Value>, get: Resolver): Outcome<seq<Value>>
    decreases items
  {
    if items == [] then Ok([])
    else
      var x := SubstItem(items[0], get);
      var rest := SubstItems(items[1..], get);
      if x.Err? || rest.Err? then Err else Ok([x.value] + rest.value)
  }

  // ---------------------------------------------------------------- the loops

  lemma {:induction false} SubstituteConcat(a: seq<Entry>, b: seq<Entry>, get: Resolver)
    ensures Substitute(a + b, get) ==
            if Substitute(a, get).Err? || Substitute(b, get).Err? then Err
            else Ok(Substitute(a, get).value + Substitute(b, get).value)
  {
    if a == [] {
      assert a + b == b;
      if Substitute(b, get).Ok? {
        assert [] + Substitute(b, get).value == Substitute(b, get).value;
      }
    } else {
      SubstituteConcat(a[1..], b, get);
      assert (a + b)[0] == a[0] && (a + b)[1..] == a[1..] + b;
      var v := SubstValue(a[0].val, get);
      if v.Ok? && Substitute(a[1..], get).Ok? && Substitute(b, get).Ok? {
        Assoc([Entry(a[0].key, v.value)], Substitute(a[1..], get).value, Substitute(b, get).value);
      }
    }
  }

  lemma SubstituteSnoc(es: seq<Entry>, e: Entry, get: Resolver)
    ensures var v := SubstValue(e.val, get);
      Substitute(es + [e], get) ==
      if Substitute(es, get).Err? || v.Err? then Err else Ok(Substitute(es, get).value + [Entry(e.key, v.value)])
  {
    SubstituteConcat(es, [e], get);
    assert [e][1..] == [] && Substitute([], get) == Ok([]);
    if SubstValue(e.val, get).Ok? {
      var one := [Entry(e.key, SubstValue(e.val, get).value)];
      assert one + [] == one;
    }
  }

  lemma SubstituteNext(es: seq<Entry>, i: nat, get: Resolver)
    requires i < |es|
    ensures es[..i + 1] == es[..i] + [es[i]]
    ensures Substitute(es[..i] + [es[i]], get).Err? ==> Substitute(es, get).Err?
  {
    var front := es[..i + 1];
    assert front == es[..i] + [es[i]];
    SubstituteFront(es, i + 1, get);
  }

  lemma SubstituteFront(es: seq<Entry>, i: nat, get: Resolver)
    requires i <= |es|
    ensures Substitute(es[..i], get).Err? ==> Substitute(es, get).Err?
  {
    assert es == es[..i] + es[i..];
    SubstituteConcat(es[..i], es[i..], get);
  }

  lemma {:induction false} SubstItemsConcat(a: seq<Value>, b: seq<Value>, get: Resolver)
    ensures SubstItems(a + b, get) ==
            if SubstItems(a, get).Err? || SubstItems(b, get).Err? then Err
            else Ok(SubstItems(a, get).value + SubstItems(b, get).value)
  {
    if a == [] {
      assert a + b == b;
      if SubstItems(b, get).Ok? {
        assert [] + SubstItems(b, get).value == SubstItems(b, get).value;
      }
    } else {
      SubstItemsConcat(a[1..], b, get);
      assert (a + b)[0] == a[0] && (a + b)[1..] == a[1..] + b;
      var x := SubstItem(a[0], get);
      if x.Ok? && SubstItems(a[1..], get).Ok? && SubstItems(b, get).Ok? {
        Assoc([x.value], SubstItems(a[1..], get).value, SubstItems(b, get).value);
      }
    }
  }

  lemma SubstItemsSnoc(items: seq<Value>, x: Value, get: Resolver)
    ensures SubstItems(items + [x], get) ==
            if SubstItems(items, get).Err? || SubstItem(x, get).Err? then Err
            else Ok(SubstItems(items, get).value + [SubstItem(x, get).value])
  {
    SubstItemsConcat(items, [x], get);
    assert [x][1..] == [] && SubstItems([], get) == Ok([]);
    if SubstItem(x, get).Ok? {
      assert [SubstItem(x, get).value] + [] == [SubstItem(x, get).value];
    }
  }

  lemma SubstItemsNext(items: seq<Value>, i: nat, get: Resolver)
    requires i < |items|
    ensures items[..i + 1] == items[..i] + [items[i]]
    ensures SubstItems(items[..i] + [items[i]], get).Err? ==> SubstItems(items, get).Err?
  {
    var front := items[..i + 1];
    assert front == items[..i] + [items[i]];
    SubstItemsFront(items, i + 1, get);
  }

  lemma SubstItemsFront(items: seq<Value>, i: nat, get: Resolver)
    requires i <= |items|
    ensures SubstItems(items[..i], get).Err? ==> SubstItems(items, get).Err?
  {
    assert items == items[..i] + items[i..];
    SubstItemsConcat(items[..i], items[i..], get);
  }

  /** `template_dict`. */
  method TemplateDictionary(d: seq<Entry>, get: Resolver) returns (r: Outcome<seq<Entry>>)
    ensures r == Substitute(d, get)
    decreases d
  {
    var result: seq<Entry> := [];
    for i := 0 to |d|
      invariant Substitute(d[..i], get) == Ok(result)
    {
      var k, v := d[i].key, d[i].val;
      SubstituteSnoc(d[..i], d[i], get);
      SubstituteNext(d, i, get);
      match v {
        case Dict(es) =>
          var sub := TemplateDictionary(es, get);
          if sub.Err? {
            return Err;
          }
          result := result + [Entry(k, Dict(sub.value))];
        case List(items) =>
          var newList := TemplateList(items, get);
          if newList.Err? {
            return Err;
          }
          result := result + [Entry(k, List(newList.value))];
        case Str(s) =>
          var t := TemplateStr(s, get);
          if t.Err? {
            return Err;
          }
          result := result + [Entry(k, t.value)];
        case _ =>
          result := result + [Entry(k, v)];
      }
    }
    assert d[..|d|] == d;
    r := Ok(result);
  }

  method TemplateList(items: seq<Value>, get: Resolver) returns (r: Outcome<seq<Value>>)
    ensures r == SubstItems(items, get)
    decreases items
  {
    var newList: seq<Value> := [];
    for i := 0 to |items|
      invariant SubstItems(items[..i], get) == Ok(newList)
    {
      SubstItemsSnoc(items[..i], items[i], get);
      SubstItemsNext(items, i, get);
      match items[i] {
        case Dict(es) =>
          var sub := TemplateDictionary(es, get);
          if sub.Err? {
            return Err;
          }
          newList := newList + [Dict(sub.value)];
        case Str(s) =>
          var t := TemplateStr(s, get);
          if t.Err? {
            return Err;
          }
          newList := newList + [t.value];
        case other =>
          newList := newList + [other];
      }
    }
    assert items[..|items|] == items;
    r := Ok(newList);
  }

  // ---------------------------------------------------------------- phases

  /** Every string that templating touches is a well-formed template. */
  ghost predicate WellFormedEntries(es: seq<Entry>)
    decreases es
  {
    es == [] || (WellFormedValue(es[0].val) && WellFormedEntries(es[1..]))
  }

  ghost predicate WellFormedValue(v: Value)
    decreases v
  {
    match v
    case Dict(es) => WellFormedEntries(es)
    case List(items) => WellFormedItems(items)
    case Str(s) => WellFormedString(s)
    case _ => true
  }

  ghost predicate WellFormedItems(items: seq<Value>)
    decreases items
  {
    items == [] || ((items[0].List? || WellFormedValue(items[0])) && WellFormedItems(items[1..]))
  }

  lemma {:induction false} TwoPhasesEntries(es: seq<Entry>, a: Resolver, b: Resolver)
    requires WellFormedEntries(es) && StringResolver(a) && StringResolver(b)
    ensures var r := Substitute(es, a);
      && (r.Ok? ==> WellFormedEntries(r.value))
      && Substitute(es, Combine(a, b)) == if r.Ok? then Substitute(r.value, b) else Err
    decreases es
  {
    if es != [] {
      TwoPhasesValue(es[0].val, a, b);
      TwoPhasesEntries(es[1..], a, b);
      var v, rest := SubstValue(es[0].val, a), Substitute(es[1..], a);
      if v.Ok? && rest.Ok? {
        var e := Entry(es[0].key, v.value);
        assert ([e] + rest.value)[1..] == rest.value;
      }
    }
  }

  lemma {:induction false} TwoPhasesValue(v: Value, a: Resolver, b: Resolver)
    requires WellFormedValue(v) && StringResolver(a) && StringResolver(b)
    ensures var r := SubstValue(v, a);
      && (r.Ok? ==> WellFormedValue(r.value) && (r.value.List? <==> v.List?))
      && SubstValue(v, Combine(a, b)) == if r.Ok? then SubstValue(r.value, b) else Err
    decreases v
  {
    match v
    case Dict(es) => TwoPhasesEntries(es, a, b);
    case List(items) => TwoPhasesItems(items, a, b);
    case Str(s) => TwoPhasesString(s, a, b);
    case _ =>
  }

  lemma {:induction false} TwoPhasesItems(items: seq<Value>, a: Resolver, b: Resolver)
    requires WellFormedItems(items) && StringResolver(a) && StringResolver(b)
    ensures var r := SubstItems(items, a);
      && (r.Ok? ==> WellFormedItems(r.value))
      && SubstItems(items, Combine(a, b)) == if r.Ok? then SubstItems(r.value, b) else Err
    decreases items
  {
    if items != [] {
      if !items[0].List? {
        TwoPhasesValue(items[0], a, b);
      }
      TwoPhasesItems(items[1..], a, b);
      var x, rest := SubstItem(items[0], a), SubstItems(items[1..], a);
      if x.Ok? && rest.Ok? {
        assert ([x.value] + rest.value)[1..] == rest.value;
      }
    }
  }

  // ---------------------------------------------------------------- several templaters

  /** Templating with one templater after the other. */
  function Phases(es: seq<Entry>, ts: seq<Resolver>): Outcome<seq<Entry>>
    decreases |ts|
  {
    if ts == [] then Ok(es)
    else
      var r := Substitute(es, ts[0]);
      if r.Err? then Err else Phases(r.value, ts[1..])
  }

  /** The first resolution that is not None. */
  function FirstMatch(ts: seq<Resolver>, raw: string): Resolution {
    if ts == [] then NotFound
    else if ts[0](raw).NotFound? || ts[0](raw) == Found(Null) then FirstMatch(ts[1..], raw)
    else ts[0](raw)
  }

  /** `MultiTemplater.get_value`. */
  method MultiGetValue(ts: seq<Resolver>, raw: string) returns (r: Resolution)
    ensures r == FirstMatch(ts, raw)
  {
    for i := 0 to |ts|
      invariant FirstMatch(ts[i..], raw) == FirstMatch(ts, raw)
    {
      assert ts[i..][0] == ts[i] && ts[i..][1..] == ts[i + 1..];
      var v := ts[i](raw);
      if !(v.NotFound? || v == Found(Null)) {
        return v;
      }
    }
    r := NotFound;
  }

  /** The templater at this position has a value for the placeholder, or raises. */
  predicate Answers(t: Resolver, raw: string) {
    match t(raw)
    case NotFound => false
    case Found(v) => !v.Null?
    case Raises => true
  }

  lemma {:induction false} NobodyAnswers(ts: seq<Resolver>, raw: string)
    requires forall i :: 0 <= i < |ts| ==> !Answers(ts[i], raw)
    ensures FirstMatch(ts, raw) == NotFound
  {
    if ts != [] {
      assert forall i | 0 <= i < |ts| - 1 :: ts[1..][i] == ts[i + 1];
      NobodyAnswers(ts[1..], raw);
    }
  }

  /** The first templater that answers decides; without one there is no value. */
  lemma {:induction false} FirstMatchMeans(ts: seq<Resolver>, raw: string, i: nat)
    requires i <= |ts| && forall j :: 0 <= j < i ==> !Answers(ts[j], raw)
    ensures i == |ts| ==> FirstMatch(ts, raw) == NotFound
    ensures i < |ts| && Answers(ts[i], raw) ==> FirstMatch(ts, raw) == ts[i](raw)
  {
    if i == |ts| {
      NobodyAnswers(ts, raw);
    } else if i > 0 {
      assert forall j | 0 <= j < |ts| - 1 :: ts[1..][j] == ts[j + 1];
      FirstMatchMeans(ts[1..], raw, i - 1);
    }
  }

  function Multi(ts: seq<Resolver>): Resolver {
    raw => FirstMatch(ts, raw)
  }

  ghost predicate StringResolvers(ts: seq<Resolver>) {
    forall i :: 0 <= i < |ts| ==> StringResolver(ts[i])
  }

  lemma {:induction false} MultiStrings(ts: seq<Resolver>)
    requires StringResolvers(ts)
    ensures StringResolver(Multi(ts))
  {
    if ts != [] {
      var t, rest := ts[0], ts[1..];
      assert StringResolvers(rest) by {
        assert forall i | 0 <= i < |rest| :: rest[i] == ts[i + 1];
      }
      MultiStrings(rest);
      forall raw | FirstMatch(ts, raw).Found?
        ensures FirstMatch(ts, raw).v.Str? && '$' !in FirstMatch(ts, raw).v.s
      {
        assert StringResolver(t);
        assert Multi(rest)(raw) == FirstMatch(rest, raw);
      }
    }
  }

  lemma {:induction false} SameEntries(es: seq<Entry>, f: Resolver, g: Resolver)
    requires forall raw :: f(raw) == g(raw)
    ensures Substitute(es, f) == Substitute(es, g)
    decreases es
  {
    if es != [] {
      SameValue(es[0].val, f, g);
      SameEntries(es[1..], f, g);
    }
  }

  lemma {:induction false} SameValue(v: Value, f: Resolver, g: Resolver)
    requires forall raw :: f(raw) == g(raw)
    ensures SubstValue(v, f) == SubstValue(v, g)
    decreases v
  {
    match v
    case Dict(es) => SameEntries(es, f, g);
    case List(items) => SameItems(items, f, g);
    case Str(s) => ApplyAllSame(FindAll(s), s, f, g);
    case _ =>
  }

  lemma {:induction false} SameItems(items: seq<Value>, f: Resolver, g: Resolver)
    requires forall raw :: f(raw) == g(raw)
    ensures SubstItems(items, f) == SubstItems(items, g)
    decreases items
  {
    if items != [] {
      SameValue(items[0], f, g);
      SameItems(items[1..], f, g);
    }
  }

  lemma {:induction false} NothingEntries(es: seq<Entry>, get: Resolver)
    requires forall raw :: get(raw).NotFound?
    ensures Substitute(es, get) == Ok(es)
    decreases es
  {
    if es != [] {
      NothingValue(es[0].val, get);
      NothingEntries(es[1..], get);
      assert [es[0]] + es[1..] == es;
    }
  }

  lemma {:induction false} NothingValue(v: Value, get: Resolver)
    requires forall raw :: get(raw).NotFound?
    ensures SubstValue(v, get) == Ok(v)
    decreases v
  {
    match v
    case Dict(es) => NothingEntries(es, get);
    case List(items) => NothingItems(items, get);
    case Str(s) => ApplyAllNothing(FindAll(s), s, get);
    case _ =>
  }

  lemma {:induction false} NothingItems(items: seq<Value>, get: Resolver)
    requires forall raw :: get(raw).NotFound?
    ensures SubstItems(items, get) == Ok(items)
    decreases items
  {
    if items != [] {
      NothingValue(items[0], get);
      NothingItems(items[1..], get);
      assert [items[0]] + items[1..] == items;
    }
  }

  /** Templating in phases, one templater after the other, gives the same dictionary or the
      same failure as templating once with the first match of all of them. */
  lemma {:induction false} PhasesAreOnePass(es: seq<Entry>, ts: seq<Resolver>)
    requires WellFormedEntries(es) && StringResolvers(ts)
    ensures Phases(es, ts) == Substitute(es, Multi(ts))
    decreases |ts|
  {
    if ts == [] {
      NothingEntries(es, Multi(ts));
    } else {
      var t, rest := ts[0], ts[1..];
      assert StringResolver(t);
      assert StringResolvers(rest) by {
        assert forall i | 0 <= i < |rest| :: rest[i] == ts[i + 1];
      }
      MultiStrings(rest);
      TwoPhasesEntries(es, t, Multi(rest));
      SameEntries(es, Combine(t, Multi(rest)), Multi(ts));
      if Substitute(es, t).Ok? {
        PhasesAreOnePass(Substitute(es, t).value, rest);
      }
    }
  }

  /** No placeholder is answered by two of the templaters. */
  ghost predicate Disjoint(ts: seq<Resolver>) {
    forall raw, i, j :: 0 <= i < j < |ts| ==> ts[i](raw).NotFound? || ts[j](raw).NotFound?
  }

  lemma {:induction false} FirstMatchIsAny(ts: seq<Resolver>, raw: string)
    requires StringResolvers(ts)
    ensures FirstMatch(ts, raw).NotFound? <==> forall i :: 0 <= i < |ts| ==> ts[i](raw).NotFound?
    ensures !FirstMatch(ts, raw).NotFound? ==> exists i :: 0 <= i < |ts| && ts[i](raw) == FirstMatch(ts, raw)
  {
    if ts != [] {
      var rest := ts[1..];
      assert forall i | 0 <= i < |rest| :: rest[i] == ts[i + 1];
      FirstMatchIsAny(rest, raw);
      assert StringResolver(ts[0]);
    }
  }

  /** Every templater of `ts` is one of `us`. */
  ghost predicate Among(ts: seq<Resolver>, us: seq<Resolver>) {
    forall i :: 0 <= i < |ts| ==> IsOneOf(ts[i], us)
  }

  ghost predicate IsOneOf(t: Resolver, us: seq<Resolver>) {
    exists j :: 0 <= j < |us| && us[j] == t
  }

  /** The order of the phases does not matter when no placeholder is answered twice. */
  lemma PhaseOrderIrrelevant(es: seq<Entry>, ts: seq<Resolver>, us: seq<Resolver>)
    requires WellFormedEntries(es) && StringResolvers(ts) && StringResolvers(us)
    requires Disjoint(us) && Among(ts, us) && Among(us, ts)
    ensures Phases(es, ts) == Phases(es, us)
  {
    forall raw
      ensures Multi(ts)(raw) == Multi(us)(raw)
    {
      SameFirstMatch(ts, us, raw);
    }
    PhasesAreOnePass(es, ts);
    PhasesAreOnePass(es, us);
    SameEntries(es, Multi(ts), Multi(us));
  }

  lemma SameFirstMatch(ts: seq<Resolver>, us: seq<Resolver>, raw: string)
    requires StringResolvers(ts) && StringResolvers(us)
    requires Disjoint(us) && Among(ts, us) && Among(us, ts)
    ensures FirstMatch(ts, raw) == FirstMatch(us, raw)
  {
    FirstMatchIsAny(ts, raw);
    FirstMatchIsAny(us, raw);
    if !FirstMatch(ts, raw).NotFound? {
      var i :| 0 <= i < |ts| && ts[i](raw) == FirstMatch(ts, raw);
      assert IsOneOf(ts[i], us);
      var k :| 0 <= k < |us| && us[k] == ts[i];
      assert !us[k](raw).NotFound?;
      var j :| 0 <= j < |us| && us[j](raw) == FirstMatch(us, raw);
      assert k == j;
    } else {
      forall j | 0 <= j < |us|
        ensures us[j](raw).NotFound?
      {
        assert IsOneOf(us[j], ts);
      }
    }
  }
}
