/** What `find_value` returns, read off the nested dictionaries alone. */
module FindPaths {
  import opened Common
  import opened TemplateText
  import opened Lookups = FindValue

  /** A dictionary has each key once. */
  ghost predicate DistinctKeys(es: seq<Entry>) {
    forall i, j :: 0 <= i < j < |es| ==> es[i].key != es[j].key
  }

  ghost predicate Absent(es: seq<Entry>, key: string) {
    forall i :: 0 <= i < |es| ==> es[i].key != key
  }

  /** `d.get` finds the value of the key, or None. */
  lemma {:induction false} GetMeans(es: seq<Entry>, key: string)
    requires DistinctKeys(es)
    ensures forall i :: 0 <= i < |es| && es[i].key == key ==> Get(es, key) == es[i].val
    ensures Absent(es, key) ==> Get(es, key) == Null
  {
    if es != [] {
      var rest := es[1..];
      assert forall i | 0 <= i < |rest| :: rest[i] == es[i + 1];
      GetMeans(rest, key);
      assert forall i | 1 <= i < |es| :: es[i] == rest[i - 1];
    }
  }

  /** The entry of the key has the value. */
  ghost predicate Holds(es: seq<Entry>, key: string, v: Value) {
    DistinctKeys(es) && exists i :: 0 <= i < |es| && es[i] == Entry(key, v)
  }

  lemma HoldsGet(es: seq<Entry>, key: string, v: Value)
    requires Holds(es, key, v)
    ensures Get(es, key) == v
  {
    GetMeans(es, key);
    var i :| 0 <= i < |es| && es[i] == Entry(key, v);
  }

  /** `v` lies under the keys of nested dictionaries. */
  ghost predicate Under(es: seq<Entry>, keys: seq<string>, v: Value)
    decreases |keys|
  {
    keys != [] &&
    if |keys| == 1 then Holds(es, keys[0], v)
    else exists sub :: Holds(es, keys[0], Dict(sub)) && Under(sub, keys[1..], v)
  }

  /** The parts of a path without indices. */
  function Plain(keys: seq<string>): seq<Seg> {
    if keys == [] then [] else [Seg(keys[0], None)] + Plain(keys[1..])
  }

  /** A value of a template: a dictionary, a list, a string, a number or a truth value. */
  predicate TemplateValue(v: Value) {
    v.Dict? || v.List? || v.Str? || v.Num? || v.Bool?
  }

  lemma {:induction false} FetchUnder(es: seq<Entry>, keys: seq<string>, v: Value, strict: bool)
    requires Under(es, keys, v) && !v.Null?
    ensures Fetch(es, Plain(keys), strict) == if TemplateValue(v) then Got(v) else ValueError
    decreases |keys|
  {
    var path := Plain(keys);
    assert path[0] == Seg(keys[0], None) && path[1..] == Plain(keys[1..]);
    if |keys| == 1 {
      HoldsGet(es, keys[0], v);
      assert Plain(keys[1..]) == [];
    } else {
      var sub :| Holds(es, keys[0], Dict(sub)) && Under(sub, keys[1..], v);
      HoldsGet(es, keys[0], Dict(sub));
      FetchUnder(sub, keys[1..], v, true);
    }
  }

  /** A value under keys of nested dictionaries is what their path finds, strict or not; any other
      object there raises. */
  lemma FindsNested(data: seq<Entry>, keys: seq<string>, v: Value, strict: bool)
    requires Under(data, keys, v) && !v.Null?
    ensures FindValue(data, Plain(keys), strict) == if TemplateValue(v) then Got(v) else ValueError
  {
    FetchUnder(data, keys, v, strict);
  }

  /** The key is not in the dictionary, or its value is null. */
  ghost predicate Lacks(es: seq<Entry>, key: string) {
    DistinctKeys(es) && (Absent(es, key) || Holds(es, key, Null))
  }

  lemma LacksGet(es: seq<Entry>, key: string)
    requires Lacks(es, key)
    ensures Get(es, key) == Null
  {
    GetMeans(es, key);
    if Holds(es, key, Null) {
      HoldsGet(es, key, Null);
    }
  }

  /** A missing first key is None unless the lookup is strict. */
  lemma FirstKeyMissing(data: seq<Entry>, path: seq<Seg>, strict: bool)
    requires path != [] && Lacks(data, path[0].head)
    ensures FindValue(data, path, strict) == if strict then TemplateError else Missing
  {
    LacksGet(data, path[0].head);
  }

  /** A missing later key raises in any case, and so does a key below something that is neither a
      dictionary nor a non-empty list of dictionaries. */
  lemma LaterKeyMissing(data: seq<Entry>, keys: seq<string>, v: Value, path: seq<Seg>, strict: bool)
    requires Under(data, keys, v) && path != []
    ensures v.Dict? && Lacks(v.entries, path[0].head) ==> FindValue(data, Plain(keys) + path, strict) == TemplateError
    ensures v.Str? || v.Num? || v.Bool? || v.Opaque? ==> FindValue(data, Plain(keys) + path, strict) == ValueError
    ensures v.List? && (v.items == [] || exists x :: x in v.items && !x.Dict?) ==>
              FindValue(data, Plain(keys) + path, strict) == TemplateError
  {
    if !v.Null? {
      DescendsUnder(data, keys, v, path, strict);
    }
    if v.List? && v.items != [] && exists x :: x in v.items && !x.Dict? {
      var x :| x in v.items && !x.Dict?;
      assert !AllDicts(v.items);
    }
    if v.Dict? && Lacks(v.entries, path[0].head) {
      FirstKeyMissing(v.entries, path, true);
    }
  }

  /** What follows the keys is looked up in the value under them. */
  lemma {:induction false} DescendsUnder(es: seq<Entry>, keys: seq<string>, v: Value, path: seq<Seg>, strict: bool)
    requires Under(es, keys, v) && !v.Null?
    ensures FindValue(es, Plain(keys) + path, strict) == Descend(v, path)
    decreases |keys|
  {
    var all := Plain(keys) + path;
    assert all[0] == Seg(keys[0], None) && all[1..] == Plain(keys[1..]) + path;
    if |keys| == 1 {
      HoldsGet(es, keys[0], v);
      assert Plain(keys[1..]) + path == path;
    } else {
      var sub :| Holds(es, keys[0], Dict(sub)) && Under(sub, keys[1..], v);
      HoldsGet(es, keys[0], Dict(sub));
      DescendsUnder(sub, keys[1..], v, path, true);
      var rest := Plain(keys[1..]) + path;
      assert rest != [];
      assert FindValue(es, all, strict) == Descend(Dict(sub), rest);
      assert Descend(Dict(sub), rest) == Fetch(sub, rest, true);
    }
  }

  /** The `i`-th of the dictionaries has the `i`-th of the values under the keys. */
  ghost predicate EachUnder(items: seq<Value>, keys: seq<string>, vs: seq<Value>) {
    |vs| == |items| && forall i :: 0 <= i < |items| ==>
      items[i].Dict? && Under(items[i].entries, keys, vs[i]) && TemplateValue(vs[i])
  }

  lemma {:induction false} FetchesEach(items: seq<Value>, keys: seq<string>, vs: seq<Value>)
    requires EachUnder(items, keys, vs)
    ensures AllDicts(items) && FetchEach(items, Plain(keys)) == Got(List(vs))
  {
    if items != [] {
      FetchUnder(items[0].entries, keys, vs[0], true);
      FetchesEach(items[1..], keys, vs[1..]);
      assert [vs[0]] + vs[1..] == vs;
    }
  }

  /** A path that goes on below a list of dictionaries collects the values of all of them. */
  lemma FindsInList(data: seq<Entry>, keys: seq<string>, items: seq<Value>, more: seq<string>, vs: seq<Value>,
                    strict: bool)
    requires Under(data, keys, List(items)) && items != [] && more != [] && EachUnder(items, more, vs)
    ensures FindValue(data, Plain(keys) + Plain(more), strict) == Got(List(vs))
  {
    DescendsUnder(data, keys, List(items), Plain(more), strict);
    FetchesEach(items, more, vs);
  }

  /** An index of at least 1 picks the dictionary in which the path goes on; one of 0 picks none, and
      all dictionaries of the list are searched. */
  lemma FindsAtIndex(data: seq<Entry>, key: string, items: seq<Value>, k: nat, more: seq<string>, vs: seq<Value>,
                     strict: bool)
    requires Holds(data, key, List(items)) && k < |items| && more != [] && EachUnder(items, more, vs)
    ensures FindValue(data, [Seg(key, Some(k))] + Plain(more), strict) == if k >= 1 then Got(vs[k]) else Got(List(vs))
  {
    HoldsGet(data, key, List(items));
    IndexSelects(data, key, k, Plain(more), strict);
    FetchUnder(items[k].entries, more, vs[k], true);
    FetchesEach(items, more, vs);
  }
}
