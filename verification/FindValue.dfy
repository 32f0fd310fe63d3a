/** Looking up a path in a nested dictionary (`find_value`). */
module FindValue {
  import opened Common
  import opened TemplateText

  /** One part of a path: a key, with the index when it has the form "key[index]". */
  datatype Seg = Seg(head: string, index: Option<nat>)

  /** The result of a lookup: a value, None, or one of the exceptions. */
  datatype Lookup = Got(v: Value) | Missing | TemplateError | ValueError | EmptyPath

  /** `d.get(key)`: None for a missing key. */
  function Get(es: seq<Entry>, key: string): Value {
    if es == [] then Null else if es[0].key == key then es[0].val else Get(es[1..], key)
  }

  predicate AllDicts(items: seq<Value>) {
    forall i :: 0 <= i < |items| ==> items[i].Dict?
  }

  /** What a path may end in: anything but None and foreign objects. */
  predicate IsFinal(v: Value) {
    !v.Null? && !v.Opaque?
  }

  /** `_fetch`. An index of 0 is falsy and therefore ignored. */
  function Fetch(es: seq<Entry>, path: seq<Seg>, strict: bool): Lookup
    decreases |path|, 1, 0
  {
    if path == [] then EmptyPath
    else
      var v := Get(es, path[0].head);
      if v.Null? then (if strict then TemplateError else Missing)
      else if path[0].index.Some? && path[0].index.value != 0 then
        var k := path[0].index.value;
        if !v.List? || |v.items| <= k then TemplateError else Descend(v.items[k], path[1..])
      else Descend(v, path[1..])
  }

  /** The rest of `_fetch` once the value of the first part is known. */
  function Descend(v: Value, tail: seq<Seg>): Lookup
    decreases |tail|, 2, 0
  {
    if tail == [] then (if IsFinal(v) then Got(v) else ValueError)
    else
      match v
      case Dict(es) => Fetch(es, tail, true)
      case List(items) =>
        if items == [] || !AllDicts(items) then TemplateError else FetchEach(items, tail)
      case _ => ValueError
  }

  /** The comprehension over a list of dictionaries; the first failure ends it. */
  function FetchEach(items: seq<Value>, tail: seq<Seg>): (r: Lookup)
    requires AllDicts(items)
    ensures r.Got? ==> r.v.List? && |r.v.items| == |items|
    decreases |tail|, 1, 1 + |items|
  {
    if items == [] then Got(List([]))
    else
      var x := Fetch(items[0].entries, tail, true);
      if !x.Got? then x
      else
        var rest := FetchEach(items[1..], tail);
        if rest.Got? then Got(List([x.v] + rest.v.items)) else rest
  }

  /** `find_value`. */
  function FindValue(data: seq<Entry>, path: seq<Seg>, strict: bool): Lookup {
    Fetch(data, path, strict)
  }

  // ---------------------------------------------------------------- properties

  /** A strict lookup never yields None, so the two branches of the code that look for None
      among the values of a list are dead. */
  lemma {:induction false} StrictNeverMissing(es: seq<Entry>, path: seq<Seg>)
    ensures !Fetch(es, path, true).Missing?
    decreases |path|, 1, 0
  {
    if path != [] {
      var v := Get(es, path[0].head);
      DescendNeverMissing(v, path[1..]);
      if v.List? && path[0].index.Some? && path[0].index.value < |v.items| {
        DescendNeverMissing(v.items[path[0].index.value], path[1..]);
      }
    }
  }

  lemma {:induction false} DescendNeverMissing(v: Value, tail: seq<Seg>)
    ensures !Descend(v, tail).Missing?
    decreases |tail|, 2, 0
  {
    if tail != [] {
      match v
      case Dict(es) => StrictNeverMissing(es, tail);
      case List(items) =>
        if AllDicts(items) {
          EachNeverMissing(items, tail);
        }
      case _ =>
    }
  }

  lemma {:induction false} EachNeverMissing(items: seq<Value>, tail: seq<Seg>)
    requires AllDicts(items)
    ensures !FetchEach(items, tail).Missing?
    decreases |tail|, 1, 1 + |items|
  {
    if items != [] {
      StrictNeverMissing(items[0].entries, tail);
      EachNeverMissing(items[1..], tail);
    }
  }

  /** Outside of strict lookups None means just that the first key is missing. */
  lemma MissingMeans(es: seq<Entry>, path: seq<Seg>)
    requires path != []
    ensures Fetch(es, path, false).Missing? <==> Get(es, path[0].head).Null?
    ensures !Get(es, path[0].head).Null? ==> Fetch(es, path, false) == Fetch(es, path, true)
  {
    StrictNeverMissing(es, path);
  }

  /** A value that a longer path can continue from: a dictionary or a non-empty list of
      dictionaries. */
  predicate Continues(v: Value) {
    v.Dict? || (v.List? && v.items != [] && AllDicts(v.items))
  }

  /** Lookup is compositional: when `p` leads to a dictionary, the longer path `p + q` is the
      strict lookup of `q` in it; when `p` leads to a non-empty list of dictionaries, whether
      one value of the data or collected from several, it is the strict lookup of `q` in each. */
  lemma {:induction false} Compositional(es: seq<Entry>, p: seq<Seg>, q: seq<Seg>, strict: bool)
    requires q != []
    requires Fetch(es, p, strict).Got? && Continues(Fetch(es, p, strict).v)
    ensures Fetch(es, p + q, strict) == Descend(Fetch(es, p, strict).v, q)
    decreases |p|, 1, 0
  {
    assert (p + q)[0] == p[0] && (p + q)[1..] == p[1..] + q;
    var v := Get(es, p[0].head);
    if p[0].index.Some? && p[0].index.value != 0 {
      DescendCompositional(v.items[p[0].index.value], p[1..], q);
    } else {
      DescendCompositional(v, p[1..], q);
    }
  }

  lemma {:induction false} DescendCompositional(w: Value, p: seq<Seg>, q: seq<Seg>)
    requires q != []
    requires Descend(w, p).Got? && Continues(Descend(w, p).v)
    ensures Descend(w, p + q) == Descend(Descend(w, p).v, q)
    decreases |p|, 2, 0
  {
    if p == [] {
      assert p + q == q;
    } else {
      match w
      case Dict(es) => Compositional(es, p, q, true);
      case List(items) => EachCompositional(items, p, q);
    }
  }

  lemma {:induction false} EachCompositional(items: seq<Value>, p: seq<Seg>, q: seq<Seg>)
    requires q != [] && AllDicts(items)
    requires FetchEach(items, p).Got? && AllDicts(FetchEach(items, p).v.items)
    ensures FetchEach(items, p + q) == FetchEach(FetchEach(items, p).v.items, q)
    decreases |p|, 1, 1 + |items|
  {
    if items != [] {
      var x := Fetch(items[0].entries, p, true);
      var vals := FetchEach(items[1..], p).v.items;
      var all := FetchEach(items, p).v.items;
      assert all == [x.v] + vals;
      assert all[0] == x.v && all[1..] == vals;
      assert AllDicts(vals) by {
        assert forall i | 0 <= i < |vals| :: vals[i] == all[i + 1];
      }
      Compositional(items[0].entries, p, q, true);
      EachCompositional(items[1..], p, q);
    }
  }

  /** What the element-wise lookup yields, position by position. */
  lemma {:induction false} EachMeans(items: seq<Value>, q: seq<Seg>)
    requires AllDicts(items)
    ensures FetchEach(items, q).Got? <==>
            forall i :: 0 <= i < |items| ==> Fetch(items[i].entries, q, true).Got?
    ensures FetchEach(items, q).Got? ==>
            forall i :: 0 <= i < |items| ==> FetchEach(items, q).v.items[i] == Fetch(items[i].entries, q, true).v
  {
    if items != [] {
      var rest := items[1..];
      EachMeans(rest, q);
      assert forall i | 0 <= i < |rest| :: rest[i] == items[i + 1];
      assert forall i | 1 <= i < |items| :: items[i] == rest[i - 1];
    }
  }

  /** An index of at least 1 within bounds selects the element it names, whatever follows it. An
      index of 0 is as none; so at the end of a path, "[0]" returns the whole list where the
      documentation has the first element. */
  lemma IndexSelects(es: seq<Entry>, key: string, k: nat, tail: seq<Seg>, strict: bool)
    requires Get(es, key).List? && k < |Get(es, key).items|
    ensures var items, r := Get(es, key).items, Fetch(es, [Seg(key, Some(k))] + tail, strict);
      && (k >= 1 ==> r == Descend(items[k], tail))
      && (k == 0 ==> r == Fetch(es, [Seg(key, None)] + tail, strict) == Descend(List(items), tail))
      && (tail == [] && IsFinal(items[k]) ==> (r == Got(items[k]) <==> k >= 1))
  {
    var v := Get(es, key);
    assert v.items[k] != v;
    assert ([Seg(key, Some(k))] + tail)[1..] == tail && ([Seg(key, None)] + tail)[1..] == tail;
  }

  /** An index of at least 1 fails on anything but a list that is long enough. */
  lemma IndexFails(es: seq<Entry>, key: string, k: nat, tail: seq<Seg>, strict: bool)
    requires k >= 1 && !Get(es, key).Null?
    requires Get(es, key).List? ==> |Get(es, key).items| <= k
    ensures Fetch(es, [Seg(key, Some(k))] + tail, strict) == TemplateError
  {
  }
}
