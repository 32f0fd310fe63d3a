/** Definitions that several modules share. */
module Common {

  datatype Option<+T> = None | Some(value: T)

  ghost predicate NoDup<T>(s: seq<T>) {
    forall i, j :: 0 <= i < j < |s| ==> s[i] != s[j]
  }

  function Min(a: int, b: int): int {
    if a < b then a else b
  }

  function Max(a: int, b: int): int {
    if a < b then b else a
  }

  function Flatten<T>(ss: seq<seq<T>>): seq<T> {
    if ss == [] then [] else Flatten(ss[..|ss| - 1]) + ss[|ss| - 1]
  }

  lemma FlattenSnoc<T>(ss: seq<seq<T>>, s: seq<T>)
    ensures Flatten(ss + [s]) == Flatten(ss) + s
  {
    assert (ss + [s])[..|ss|] == ss;
  }

  lemma {:induction false} FlattenAppend<T>(a: seq<seq<T>>, b: seq<seq<T>>)
    ensures Flatten(a + b) == Flatten(a) + Flatten(b)
  {
    if b == [] {
      assert a + b == a;
    } else {
      FlattenAppend(a, b[..|b| - 1]);
      assert (a + b)[..|a + b| - 1] == a + b[..|b| - 1];
    }
  }

  lemma {:induction false} FlattenCons<T>(g: seq<T>, gs: seq<seq<T>>)
    ensures Flatten([g] + gs) == g + Flatten(gs)
  {
    if gs == [] {
      assert [g][..0] == [];
    } else {
      var front, last := gs[..|gs| - 1], gs[|gs| - 1];
      FlattenCons(g, front);
      assert ([g] + gs)[..|gs|] == [g] + front;
    }
  }

  /** A duplicate-free sequence has as many elements as the set of its elements. */
  lemma {:induction false} NoDupSize<T>(s: seq<T>)
    requires NoDup(s)
    ensures |set x | x in s| == |s|
  {
    if s != [] {
      var front := s[..|s| - 1];
      NoDupSize(front);
      assert (set x | x in s) == (set x | x in front) + {s[|s| - 1]};
    } else {
      assert (set x | x in s) == {};
    }
  }

  lemma PrefixNoDup<T>(s: seq<T>, t: seq<T>)
    requires s <= t && NoDup(t)
    ensures NoDup(s)
  {
    assert forall i | 0 <= i < |s| :: s[i] == t[i];
  }

  lemma DisjointUnionSize<T>(a: set<T>, b: set<T>)
    requires a !! b
    ensures |a + b| == |a| + |b|
  {
  }

  function RemoveAt<T>(s: seq<T>, i: nat): seq<T>
    requires i < |s|
  {
    s[..i] + s[i + 1..]
  }

  lemma RemoveAtMembers<T>(s: seq<T>, i: nat)
    requires i < |s| && NoDup(s)
    ensures NoDup(RemoveAt(s, i))
    ensures forall x :: x in RemoveAt(s, i) <==> x in s && x != s[i]
  {
    var rest := RemoveAt(s, i);
    forall x | x in s && x != s[i]
      ensures x in rest
    {
      var j :| 0 <= j < |s| && s[j] == x;
      assert rest[if j < i then j else j - 1] == x;
    }
  }

  lemma NoDupAppend<T>(s: seq<T>, t: seq<T>)
    requires NoDup(s) && NoDup(t)
    requires forall x :: x in s ==> x !in t
    ensures NoDup(s + t)
  {
    var u := s + t;
    forall i, j | 0 <= i < j < |u|
      ensures u[i] != u[j]
    {
      if i < |s| <= j {
        assert s[i] in s && t[j - |s|] in t;
      }
    }
  }

  lemma SubsetSize<T>(a: set<T>, b: set<T>)
    requires a <= b
    ensures |a| <= |b|
  {
    assert b == a + (b - a);
  }

  lemma RemoveAtMultiset<T>(s: seq<T>, i: nat)
    requires i < |s|
    ensures multiset(s) == multiset(RemoveAt(s, i)) + multiset{s[i]}
  {
    assert s == s[..i] + [s[i]] + s[i + 1..];
  }

  lemma Assoc<T>(a: seq<T>, b: seq<T>, c: seq<T>)
    ensures a + (b + c) == a + b + c
  {
  }

  /** The parts without the empty ones at the end. */
  function TrimEnd(parts: seq<string>): seq<string> {
    if parts != [] && parts[|parts| - 1] == "" then TrimEnd(parts[..|parts| - 1]) else parts
  }

  /** The parts without the empty ones at the start. */
  function TrimStart(parts: seq<string>): seq<string> {
    if parts != [] && parts[0] == "" then TrimStart(parts[1..]) else parts
  }

  lemma {:induction false} TrimEndMeans(parts: seq<string>)
    ensures TrimEnd(parts) <= parts
    ensures TrimEnd(parts) != [] ==> TrimEnd(parts)[|TrimEnd(parts)| - 1] != ""
    ensures TrimEnd(parts) == parts <==> parts == [] || parts[|parts| - 1] != ""
  {
    if parts != [] && parts[|parts| - 1] == "" {
      TrimEndMeans(parts[..|parts| - 1]);
    }
  }

  lemma {:induction false} TrimStartMeans(parts: seq<string>)
    ensures |TrimStart(parts)| <= |parts| && TrimStart(parts) == parts[|parts| - |TrimStart(parts)|..]
    ensures TrimStart(parts) != [] ==> TrimStart(parts)[0] != ""
    ensures TrimStart(parts) == parts <==> parts == [] || parts[0] != ""
  {
    if parts != [] && parts[0] == "" {
      TrimStartMeans(parts[1..]);
    }
  }
}
