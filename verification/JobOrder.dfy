/** Ordering the jobs of a workflow by their dependencies (`sort_jobs`), with the topological
    sort of the graph library written out. */
module JobOrder {
  import opened Common

  /** `needs` is what `get_dependencies` returns: empty for None, one element for a string. */
  datatype Job = Job(id: Option<string>, needs: seq<string>)

  type Edge = (string, string)

  // ---------------------------------------------------------------- paths and cycles

  ghost predicate IsPath(es: set<Edge>, p: seq<string>) {
    forall i :: 0 <= i < |p| - 1 ==> (p[i], p[i + 1]) in es
  }

  ghost predicate IsCycle(es: set<Edge>, p: seq<string>) {
    |p| >= 2 && IsPath(es, p) && p[0] == p[|p| - 1]
  }

  ghost predicate Cyclic(es: set<Edge>) {
    exists p :: IsCycle(es, p)
  }

  ghost predicate Before(s: seq<string>, u: string, v: string) {
    exists i, j :: 0 <= i < j < |s| && s[i] == u && s[j] == v
  }

  /** Every edge whose target is in `s` has its source earlier in `s`. */
  ghost predicate Respects(es: set<Edge>, s: seq<string>) {
    forall e :: e in es && e.1 in s ==> Before(s, e.0, e.1)
  }

  lemma {:induction false} PathGoesForward(es: set<Edge>, s: seq<string>, p: seq<string>) returns (i: nat, j: nat)
    requires NoDup(s) && Respects(es, s)
    requires |p| >= 2 && IsPath(es, p) && forall v :: v in p ==> v in s
    ensures i < j < |s| && s[i] == p[0] && s[j] == p[|p| - 1]
  {
    var n := |p|;
    assert (p[n - 2], p[n - 1]) in es && p[n - 1] in p;
    var k: nat, l: nat :| k < l < |s| && s[k] == p[n - 2] && s[l] == p[n - 1];
    if n == 2 {
      i, j := k, l;
    } else {
      var i', j' := PathGoesForward(es, s, p[..n - 1]);
      i, j := i', l;
    }
  }

  /** A complete order that respects the edges excludes cycles. */
  lemma OrderExcludesCycles(es: set<Edge>, s: seq<string>)
    requires NoDup(s) && Respects(es, s) && forall e :: e in es ==> e.1 in s
    ensures !Cyclic(es)
  {
    forall p | IsCycle(es, p)
      ensures false
    {
      forall v | v in p
        ensures v in s
      {
        var k :| 0 <= k < |p| && p[k] == v;
        if k == 0 {
          assert (p[|p| - 2], p[|p| - 1]) in es;
        } else {
          assert (p[k - 1], p[k]) in es;
        }
      }
      var i, j := PathGoesForward(es, s, p);
    }
  }

  ghost predicate HasPredecessor(es: set<Edge>, rest: set<string>, v: string) {
    exists u :: u in rest && (u, v) in es
  }

  /** A path of any length can be built backwards inside `rest`. */
  lemma {:induction false} LongPath(es: set<Edge>, rest: set<string>, n: nat) returns (p: seq<string>)
    requires rest != {} && forall v :: v in rest ==> HasPredecessor(es, rest, v)
    ensures |p| == n + 1 && IsPath(es, p) && forall v :: v in p ==> v in rest
  {
    if n == 0 {
      var v :| v in rest;
      p := [v];
    } else {
      var q := LongPath(es, rest, n - 1);
      assert q[0] in q;
      var u :| u in rest && (u, q[0]) in es;
      p := [u] + q;
      forall i | 0 <= i < |p| - 1
        ensures (p[i], p[i + 1]) in es
      {
        if i > 0 {
          assert (q[i - 1], q[i]) in es;
        }
      }
    }
  }

  /** If every node of a non-empty set has a predecessor in the set, there is a cycle. */
  lemma BlockedMeansCycle(es: set<Edge>, rest: set<string>)
    requires rest != {} && forall v :: v in rest ==> HasPredecessor(es, rest, v)
    ensures Cyclic(es)
  {
    var p := LongPath(es, rest, |rest|);
    if NoDup(p) {
      NoDupSize(p);
      SubsetSize((set x | x in p), rest);
      assert false;
    }
    var i, j :| 0 <= i < j < |p| && p[i] == p[j];
    var c := p[i..j + 1];
    forall k | 0 <= k < |c| - 1
      ensures (c[k], c[k + 1]) in es
    {
      assert c[k] == p[i + k] && c[k + 1] == p[i + k + 1];
    }
    assert IsCycle(es, c);
  }

  // ---------------------------------------------------------------- the graph

  function EdgesInto(es: set<Edge>, v: string): set<Edge> {
    set e | e in es && e.1 == v
  }

  function Neighbors(edges: seq<Edge>, u: string): seq<string> {
    if edges == [] then []
    else Neighbors(edges[..|edges| - 1], u) + if edges[|edges| - 1].0 == u then [edges[|edges| - 1].1] else []
  }

  lemma {:induction false} NeighborsOf(edges: seq<Edge>, u: string)
    requires NoDup(edges)
    ensures forall v :: v in Neighbors(edges, u) <==> (u, v) in edges
    ensures NoDup(Neighbors(edges, u))
  {
    if edges != [] {
      var front, e := edges[..|edges| - 1], edges[|edges| - 1];
      NeighborsOf(front, u);
      assert edges == front + [e];
    }
  }

  /** The state of the sort: `s` holds the nodes sorted or queued so far, `removed` the edges
      taken out of the graph, `indegree` the positive numbers of remaining edges into the rest. */
  ghost predicate KahnInv(nodes: seq<string>, es: set<Edge>, removed: set<Edge>, s: seq<string>,
                          indegree: map<string, nat>)
  {
    && NoDup(s)
    && (forall v :: v in s ==> v in nodes)
    && (forall e :: e in removed ==> e in es && e.0 in s)
    && (forall v :: v in indegree <==> v in nodes && v !in s)
    && (forall v :: v in indegree ==> indegree[v] == |EdgesInto(es - removed, v)| > 0)
    && (forall v :: v in s ==> EdgesInto(es - removed, v) == {})
    && Respects(es, s)
  }

  lemma RespectsSnoc(es: set<Edge>, s: seq<string>, v: string)
    requires Respects(es, s)
    requires forall e :: e in es && e.1 == v ==> e.0 in s
    ensures Respects(es, s + [v])
  {
    var t := s + [v];
    forall e | e in es && e.1 in t
      ensures Before(t, e.0, e.1)
    {
      if e.1 == v {
        var i :| 0 <= i < |s| && s[i] == e.0;
        assert t[i] == e.0 && t[|s|] == v;
      } else {
        assert e.1 in s;
        var i, j :| 0 <= i < j < |s| && s[i] == e.0 && s[j] == e.1;
        assert t[i] == e.0 && t[j] == e.1;
      }
    }
  }

  function Decremented(indegree: map<string, nat>, v: string): map<string, nat>
    requires v in indegree && indegree[v] > 0
  {
    if indegree[v] == 1 then indegree - {v} else indegree[v := indegree[v] - 1]
  }

  lemma EdgesIntoWithout(es: set<Edge>, e: Edge, v: string)
    ensures EdgesInto(es - {e}, v) == EdgesInto(es, v) - (if v == e.1 then {e} else {})
  {
  }

  lemma RemoveSize<T>(s: set<T>, x: T)
    requires x in s
    ensures |s - {x}| == |s| - 1
  {
  }

  lemma RemoveCount(es: set<Edge>, removed: set<Edge>, e: Edge, v: string)
    requires e in es && e !in removed
    ensures v != e.1 ==> EdgesInto(es - (removed + {e}), v) == EdgesInto(es - removed, v)
    ensures |EdgesInto(es - (removed + {e}), e.1)| == |EdgesInto(es - removed, e.1)| - 1
    ensures |EdgesInto(es - removed, e.1)| > 0
  {
    assert es - (removed + {e}) == es - removed - {e};
    EdgesIntoWithout(es - removed, e, v);
    EdgesIntoWithout(es - removed, e, e.1);
    assert e in EdgesInto(es - removed, e.1);
    RemoveSize(EdgesInto(es - removed, e.1), e);
  }

  /** The last edge into a node lets it be queued. */
  lemma QueueNode(es: set<Edge>, removed: set<Edge>, s: seq<string>, v: string)
    requires Respects(es, s) && forall e :: e in removed ==> e.0 in s
    requires EdgesInto(es - removed, v) == {}
    ensures Respects(es, s + [v])
  {
    forall e | e in es && e.1 == v
      ensures e.0 in s
    {
      assert e !in EdgesInto(es - removed, v);
    }
    RespectsSnoc(es, s, v);
  }

  /** Removing one edge out of a sorted node keeps the state; its target is queued when it was
      the last edge into it. */
  lemma RemoveEdge(nodes: seq<string>, es: set<Edge>, removed: set<Edge>, s: seq<string>,
                   indegree: map<string, nat>, e: Edge)
    requires KahnInv(nodes, es, removed, s, indegree)
    requires e in es && e !in removed && e.0 in s && e.1 in nodes
    ensures e.1 in indegree && indegree[e.1] > 0
    ensures KahnInv(nodes, es, removed + {e}, if indegree[e.1] == 1 then s + [e.1] else s,
                    Decremented(indegree, e.1))
  {
    RemoveCount(es, removed, e, e.1);
    forall v
      ensures v != e.1 ==> EdgesInto(es - (removed + {e}), v) == EdgesInto(es - removed, v)
    {
      RemoveCount(es, removed, e, v);
    }
    if indegree[e.1] == 1 {
      QueueNode(es, removed + {e}, s, e.1);
    }
  }

  function Queued(zero: seq<string>, indegree: map<string, nat>, v: string): seq<string>
    requires v in indegree
  {
    if indegree[v] == 1 then zero + [v] else zero
  }

  lemma RemoveChild(nodes: seq<string>, es: set<Edge>, removed: set<Edge>, sorted: seq<string>, zero: seq<string>,
                    indegree: map<string, nat>, e: Edge)
    requires KahnInv(nodes, es, removed, sorted + zero, indegree)
    requires e in es && e !in removed && e.0 in sorted && e.1 in nodes
    ensures e.1 in indegree && indegree[e.1] > 0
    ensures KahnInv(nodes, es, removed + {e}, sorted + Queued(zero, indegree, e.1), Decremented(indegree, e.1))
  {
    RemoveEdge(nodes, es, removed, sorted + zero, indegree, e);
    assert sorted + zero + [e.1] == sorted + (zero + [e.1]);
  }

  /** The edges whose source is in `s`. */
  ghost function OutOf(es: set<Edge>, s: seq<string>): set<Edge> {
    set e | e in es && e.0 in s
  }

  lemma OutOfSnoc(es: set<Edge>, s: seq<string>, k: nat)
    requires k < |s|
    ensures OutOf(es, s[..k + 1]) == OutOf(es, s[..k]) + OutOf(es, [s[k]])
  {
    assert s[..k + 1] == s[..k] + [s[k]];
  }

  lemma OutOfAppend(es: set<Edge>, s: seq<string>, t: seq<string>)
    ensures OutOf(es, s + t) == OutOf(es, s) + OutOf(es, t)
  {
  }

  /** The edges from `u` to the first `j` of its neighbors. */
  ghost function EdgesTo(u: string, vs: seq<string>): set<Edge> {
    set v | v in vs :: (u, v)
  }

  lemma EdgesToSnoc(u: string, vs: seq<string>, j: nat)
    requires j < |vs|
    ensures EdgesTo(u, vs[..j + 1]) == EdgesTo(u, vs[..j]) + {(u, vs[j])}
  {
    assert vs[..j + 1] == vs[..j] + [vs[j]];
  }

  lemma KahnSize(nodes: seq<string>, es: set<Edge>, removed: set<Edge>, s: seq<string>, indegree: map<string, nat>)
    requires KahnInv(nodes, es, removed, s, indegree)
    ensures |s| <= |nodes|
  {
    SizeBound(s, nodes);
  }

  lemma KahnDone(nodes: seq<string>, es: set<Edge>, order: seq<string>, indegree: map<string, nat>)
    requires KahnInv(nodes, es, OutOf(es, order), order, indegree)
    requires forall e :: e in es ==> e.0 in nodes && e.1 in nodes
    ensures indegree == map[] <==> !Cyclic(es)
    ensures indegree == map[] ==> NoDup(order) && Respects(es, order) && forall v :: v in order <==> v in nodes
  {
    if indegree == map[] {
      assert forall v :: v !in indegree;
      OrderExcludesCycles(es, order);
    } else {
      Blocked(nodes, es, order, indegree);
    }
  }

  /** Before the `k`-th node of a generation is taken out, none of its edges is. */
  lemma GenerationNode(nodes: seq<string>, es: set<Edge>, removed: set<Edge>, order: seq<string>,
                       generation: seq<string>, zero: seq<string>, indegree: map<string, nat>, k: nat)
    requires KahnInv(nodes, es, removed, order + generation + zero, indegree)
    requires k < |generation|
    requires removed == OutOf(es, order) + OutOf(es, generation[..k])
    ensures generation[k] in order + generation
    ensures forall e :: e in removed ==> e.0 != generation[k]
    ensures removed + OutOf(es, [generation[k]]) == OutOf(es, order) + OutOf(es, generation[..k + 1])
  {
    OutOfSnoc(es, generation, k);
    var s := order + generation + zero;
    assert s[|order| + k] == generation[k] && (order + generation)[|order| + k] == generation[k];
    assert forall i | 0 <= i < k :: generation[i] == s[|order| + i];
    assert forall i | 0 <= i < |order| :: order[i] == s[i];
  }

  /** The directed graph: nodes and edges in insertion order, without repetitions. */
  class DiGraph {
    var nodes: seq<string>
    var edges: seq<Edge>

    ghost predicate Valid()
      reads this
    {
      && NoDup(nodes)
      && NoDup(edges)
      && (forall e :: e in edges ==> e.0 in nodes && e.1 in nodes)
    }

    ghost function EdgeSet(): set<Edge>
      reads this
    {
      set e | e in edges
    }

    constructor ()
      ensures Valid() && nodes == [] && edges == []
    {
      nodes, edges := [], [];
    }

    method AddNode(n: string)
      requires Valid()
      modifies this
      ensures Valid() && edges == old(edges)
      ensures nodes == if n in old(nodes) then old(nodes) else old(nodes) + [n]
      ensures old(nodes) <= nodes && n in nodes
    {
      if n !in nodes {
        nodes := nodes + [n];
      }
    }

    method AddEdge(u: string, v: string)
      requires Valid()
      modifies this
      ensures Valid()
      ensures forall n :: n in nodes <==> n in old(nodes) || n == u || n == v
      ensures old(nodes) <= nodes
      ensures edges == if (u, v) in old(edges) then old(edges) else old(edges) + [(u, v)]
      ensures EdgeSet() == old(EdgeSet()) + {(u, v)}
    {
      AddNode(u);
      AddNode(v);
      if (u, v) !in edges {
        edges := edges + [(u, v)];
      }
    }

    /** The generations of the topological sort, flattened; None where the library raises. */
    method TopologicalSort() returns (r: Option<seq<string>>)
      requires Valid()
      ensures r.Some? <==> !Cyclic(EdgeSet())
      ensures r.Some? ==> NoDup(r.value) && Respects(EdgeSet(), r.value)
      ensures r.Some? ==> forall v :: v in r.value <==> v in nodes
    {
      ghost var es := EdgeSet();
      var indegree: map<string, nat>, zeroIndegree := InDegrees();
      var order: seq<string> := [];
      assert order + zeroIndegree == zeroIndegree && OutOf(es, order) == {};
      while zeroIndegree != []
        invariant KahnInv(nodes, es, OutOf(es, order), order + zeroIndegree, indegree)
        decreases |nodes| - |order|
      {
        var thisGeneration := zeroIndegree;
        KahnSize(nodes, es, OutOf(es, order), order + thisGeneration, indegree);
        indegree, zeroIndegree := RemoveGeneration(order, thisGeneration, indegree);
        order := order + thisGeneration;
      }
      assert order + [] == order;
      KahnDone(nodes, es, order, indegree);
      if indegree != map[] {
        return None;
      }
      return Some(order);
    }

    /** Takes one generation out of the graph and returns the next one. */
    method RemoveGeneration(ghost order: seq<string>, thisGeneration: seq<string>, indegree0: map<string, nat>)
      returns (indegree: map<string, nat>, zeroIndegree: seq<string>)
      requires Valid()
      requires KahnInv(nodes, EdgeSet(), OutOf(EdgeSet(), order), order + thisGeneration, indegree0)
      ensures KahnInv(nodes, EdgeSet(), OutOf(EdgeSet(), order + thisGeneration),
                      order + thisGeneration + zeroIndegree, indegree)
    {
      ghost var es, sorted := EdgeSet(), order + thisGeneration;
      ghost var removed := OutOf(es, order);
      indegree, zeroIndegree := indegree0, [];
      assert sorted + [] == sorted && removed + OutOf(es, thisGeneration[..0]) == removed;
      for k := 0 to |thisGeneration|
        invariant removed == OutOf(es, order) + OutOf(es, thisGeneration[..k])
        invariant KahnInv(nodes, es, removed, sorted + zeroIndegree, indegree)
      {
        var node := thisGeneration[k];
        GenerationNode(nodes, es, removed, order, thisGeneration, zeroIndegree, indegree, k);
        indegree, zeroIndegree := RemoveNode(node, indegree, zeroIndegree, sorted, removed);
        removed := removed + OutOf(es, [node]);
      }
      assert thisGeneration[..|thisGeneration|] == thisGeneration;
      OutOfAppend(es, order, thisGeneration);
    }

    /** The in-degrees that are positive and, in insertion order, the nodes of in-degree 0. */
    method InDegrees() returns (indegree: map<string, nat>, zeroIndegree: seq<string>)
      requires Valid()
      ensures KahnInv(nodes, EdgeSet(), {}, zeroIndegree, indegree)
    {
      indegree, zeroIndegree := map[], [];
      var es := set e | e in edges;
      for i := 0 to |nodes|
        invariant NoDup(zeroIndegree)
        invariant forall v :: v in zeroIndegree <==> v in nodes[..i] && EdgesInto(es, v) == {}
        invariant forall v :: v in indegree <==> v in nodes[..i] && EdgesInto(es, v) != {}
        invariant forall v :: v in indegree ==> indegree[v] == |EdgesInto(es, v)|
      {
        var v := nodes[i];
        assert nodes[..i + 1] == nodes[..i] + [v];
        var d := |EdgesInto(es, v)|;
        if d > 0 {
          indegree := indegree[v := d];
        } else {
          zeroIndegree := zeroIndegree + [v];
        }
      }
      assert nodes[..|nodes|] == nodes;
      assert es - {} == es;
      forall e | e in es
        ensures e.1 !in zeroIndegree
      {
        assert e in EdgesInto(es, e.1);
      }
    }

    /** Takes the edges out of `node` out of the graph, one neighbor at a time. */
    method RemoveNode(node: string, indegree0: map<string, nat>, zero0: seq<string>, ghost sorted: seq<string>,
                      ghost removed0: set<Edge>)
      returns (indegree: map<string, nat>, zeroIndegree: seq<string>)
      requires Valid()
      requires KahnInv(nodes, EdgeSet(), removed0, sorted + zero0, indegree0)
      requires node in sorted && forall e :: e in removed0 ==> e.0 != node
      ensures KahnInv(nodes, EdgeSet(), removed0 + OutOf(EdgeSet(), [node]), sorted + zeroIndegree, indegree)
    {
      ghost var es := EdgeSet();
      ghost var removed := removed0;
      indegree, zeroIndegree := indegree0, zero0;
      var children := Neighbors(edges, node);
      NeighborsOf(edges, node);
      for j := 0 to |children|
        invariant removed == removed0 + EdgesTo(node, children[..j])
        invariant KahnInv(nodes, es, removed, sorted + zeroIndegree, indegree)
      {
        var child := children[j];
        assert child in children && (node, child) in es;
        assert child !in children[..j];
        EdgesToSnoc(node, children, j);
        RemoveChild(nodes, es, removed, sorted, zeroIndegree, indegree, (node, child));
        zeroIndegree := Queued(zeroIndegree, indegree, child);
        indegree := Decremented(indegree, child);
        removed := removed + {(node, child)};
      }
      assert children[..|children|] == children;
      assert EdgesTo(node, children) == OutOf(es, [node]);
    }
  }

  lemma SizeBound(s: seq<string>, nodes: seq<string>)
    requires NoDup(s) && forall v :: v in s ==> v in nodes
    ensures |s| <= |nodes|
  {
    NoDupSize(s);
    SubsetSize((set v | v in s), (set v | v in nodes));
    SetOfSeqSize(nodes);
  }

  lemma {:induction false} SetOfSeqSize(s: seq<string>)
    ensures |set v | v in s| <= |s|
  {
    if s != [] {
      var front := s[..|s| - 1];
      SetOfSeqSize(front);
      assert (set v | v in s) == (set v | v in front) + {s[|s| - 1]};
    }
  }

  /** When no node of in-degree 0 is left but some nodes are, they contain a cycle. */
  lemma Blocked(nodes: seq<string>, es: set<Edge>, order: seq<string>, indegree: map<string, nat>)
    requires KahnInv(nodes, es, OutOf(es, order), order, indegree) && indegree != map[]
    requires forall e :: e in es ==> e.0 in nodes
    ensures Cyclic(es)
  {
    forall v | v in indegree.Keys
      ensures HasPredecessor(es, indegree.Keys, v)
    {
      var into := EdgesInto(es - OutOf(es, order), v);
      assert into != {};
      var e :| e in into;
      assert e.0 in indegree;
    }
    BlockedMeansCycle(es, indegree.Keys);
  }

  // ---------------------------------------------------------------- sorting the jobs

  function Index(s: seq<string>, x: string): (i: nat)
    ensures x in s ==> i < |s| && s[i] == x
    ensures i <= |s| && x !in s[..i]
  {
    if s == [] || s[0] == x then 0
    else
      var i := 1 + Index(s[1..], x);
      assert s[..i] == [s[0]] + s[1..][..i - 1];
      i
  }

  lemma BeforeIndex(s: seq<string>, u: string, v: string)
    requires NoDup(s) && Before(s, u, v)
    ensures Index(s, u) < Index(s, v)
  {
    var i, j :| 0 <= i < j < |s| && s[i] == u && s[j] == v;
    assert Index(s, u) == i && Index(s, v) == j;
  }

  /** Inserts `j`, which came after all of `s`, behind the elements of no greater key. */
  function Insert(s: seq<Job>, j: Job, key: Job -> int): seq<Job> {
    if s == [] || key(s[|s| - 1]) <= key(j) then s + [j]
    else Insert(s[..|s| - 1], j, key) + [s[|s| - 1]]
  }

  /** The built-in stable sort. */
  function StableSort(s: seq<Job>, key: Job -> int): seq<Job> {
    if s == [] then [] else Insert(StableSort(s[..|s| - 1], key), s[|s| - 1], key)
  }

  ghost predicate SortedBy(s: seq<Job>, key: Job -> int) {
    forall i, j :: 0 <= i < j < |s| ==> key(s[i]) <= key(s[j])
  }

  function WithKey(s: seq<Job>, key: Job -> int, k: int): seq<Job> {
    if s == [] then []
    else WithKey(s[..|s| - 1], key, k) + if key(s[|s| - 1]) == k then [s[|s| - 1]] else []
  }

  lemma WithKeySnoc(s: seq<Job>, j: Job, key: Job -> int, k: int)
    ensures WithKey(s + [j], key, k) == WithKey(s, key, k) + if key(j) == k then [j] else []
  {
    assert (s + [j])[..|s|] == s;
  }

  lemma {:induction false} InsertMultiset(s: seq<Job>, j: Job, key: Job -> int)
    ensures multiset(Insert(s, j, key)) == multiset(s) + multiset{j}
  {
    if s != [] && key(s[|s| - 1]) > key(j) {
      InsertMultiset(s[..|s| - 1], j, key);
      assert s == s[..|s| - 1] + [s[|s| - 1]];
    }
  }

  lemma {:induction false} InsertSorted(s: seq<Job>, j: Job, key: Job -> int)
    requires SortedBy(s, key)
    ensures SortedBy(Insert(s, j, key), key)
    ensures s != [] ==> key(Insert(s, j, key)[|Insert(s, j, key)| - 1]) == Max(key(s[|s| - 1]), key(j))
  {
    if s != [] && key(s[|s| - 1]) > key(j) {
      InsertSorted(s[..|s| - 1], j, key);
    }
  }

  lemma {:induction false} InsertStable(s: seq<Job>, j: Job, key: Job -> int, k: int)
    ensures WithKey(Insert(s, j, key), key, k) == WithKey(s, key, k) + if key(j) == k then [j] else []
  {
    if s == [] || key(s[|s| - 1]) <= key(j) {
      WithKeySnoc(s, j, key, k);
    } else {
      var front, last := s[..|s| - 1], s[|s| - 1];
      InsertStable(front, j, key, k);
      WithKeySnoc(Insert(front, j, key), last, key, k);
    }
  }

  lemma {:induction false} StableSortSorted(s: seq<Job>, key: Job -> int)
    ensures SortedBy(StableSort(s, key), key)
  {
    if s != [] {
      StableSortSorted(s[..|s| - 1], key);
      InsertSorted(StableSort(s[..|s| - 1], key), s[|s| - 1], key);
    }
  }

  lemma {:induction false} StableSortMultiset(s: seq<Job>, key: Job -> int)
    ensures multiset(StableSort(s, key)) == multiset(s)
  {
    if s != [] {
      StableSortMultiset(s[..|s| - 1], key);
      InsertMultiset(StableSort(s[..|s| - 1], key), s[|s| - 1], key);
      assert s == s[..|s| - 1] + [s[|s| - 1]];
    }
  }

  lemma {:induction false} StableSortStable(s: seq<Job>, key: Job -> int, k: int)
    ensures WithKey(StableSort(s, key), key, k) == WithKey(s, key, k)
  {
    if s != [] {
      StableSortStable(s[..|s| - 1], key, k);
      InsertStable(StableSort(s[..|s| - 1], key), s[|s| - 1], key, k);
    }
  }

  function WithId(s: seq<Job>, id: Option<string>): seq<Job> {
    if s == [] then []
    else WithId(s[..|s| - 1], id) + if s[|s| - 1].id == id then [s[|s| - 1]] else []
  }

  lemma {:induction false} WithIdIsWithKey(s: seq<Job>, ids: seq<string>, key: Job -> int, id: string)
    requires forall j :: j in s ==> j.id.Some? && j.id.value in ids && key(j) == Index(ids, j.id.value)
    requires id in ids
    ensures WithId(s, Some(id)) == WithKey(s, key, Index(ids, id))
  {
    if s != [] {
      WithIdIsWithKey(s[..|s| - 1], ids, key, id);
    }
  }

  /** The edges of the dependency graph: from each listed dependency to the job. */
  ghost function DependencyEdges(jobs: seq<Job>): set<Edge> {
    set j, d | j in jobs && j.id.Some? && d in j.needs :: (d, j.id.value)
  }

  /** Each name but the first is the id of a job that needs the one before it, and the last is the first. */
  ghost predicate NeedsCycle(jobs: seq<Job>, p: seq<string>) {
    && |p| >= 2 && p[0] == p[|p| - 1]
    && forall i :: 0 <= i < |p| - 1 ==> NeededBy(jobs, p[i], p[i + 1])
  }

  ghost predicate NeededBy(jobs: seq<Job>, d: string, id: string) {
    exists j :: j in jobs && j.id == Some(id) && d in j.needs
  }

  /** The graph has a cycle exactly when jobs need each other in a circle. */
  lemma CyclicMeans(jobs: seq<Job>)
    ensures Cyclic(DependencyEdges(jobs)) <==> exists p :: NeedsCycle(jobs, p)
  {
    assert forall d, id :: (d, id) in DependencyEdges(jobs) <==> NeededBy(jobs, d, id);
    if p :| IsCycle(DependencyEdges(jobs), p) {
      assert NeedsCycle(jobs, p);
    }
    if p :| NeedsCycle(jobs, p) {
      assert IsCycle(DependencyEdges(jobs), p);
    }
  }

  /** The edges of one job to the first dependencies of its list. */
  ghost function JobEdges(id: string, needs: seq<string>): set<Edge> {
    set d | d in needs :: (d, id)
  }

  lemma JobEdgesSnoc(id: string, needs: seq<string>, k: nat)
    requires k < |needs|
    ensures JobEdges(id, needs[..k + 1]) == JobEdges(id, needs[..k]) + {(needs[k], id)}
  {
    assert needs[..k + 1] == needs[..k] + [needs[k]];
  }

  lemma DependencyEdgesSnoc(jobs: seq<Job>, i: nat)
    requires i < |jobs| && jobs[i].id.Some?
    ensures DependencyEdges(jobs[..i + 1]) ==
            DependencyEdges(jobs[..i]) + JobEdges(jobs[i].id.value, jobs[i].needs)
  {
    assert jobs[..i + 1] == jobs[..i] + [jobs[i]];
  }

  datatype SortResult = Sorted(jobs: seq<Job>) | MissingId | Unfeasible

  /** `sort_jobs`. A dependency may name no job of the list; it is a node all the same. */
  method SortJobs(jobs: seq<Job>) returns (r: SortResult)
    ensures r.MissingId? <==> exists j :: j in jobs && j.id.None?
    ensures !r.MissingId? ==> (r.Sorted? <==> !Cyclic(DependencyEdges(jobs)))
    ensures r.Sorted? ==> multiset(r.jobs) == multiset(jobs)
    ensures r.Sorted? ==> DependenciesFirst(r.jobs)
    ensures r.Sorted? ==> forall j :: j in jobs ==> WithId(r.jobs, j.id) == WithId(jobs, j.id)
  {
    var g := new DiGraph();
    for i := 0 to |jobs|
      invariant g.Valid() && fresh(g)
      invariant forall j :: j in jobs[..i] ==> j.id.Some? && j.id.value in g.nodes
      invariant g.EdgeSet() == DependencyEdges(jobs[..i])
    {
      var job := jobs[i];
      if job.id.None? {
        assert job in jobs;
        return MissingId;
      }
      assert jobs[..i + 1] == jobs[..i] + [job];
      g.AddNode(job.id.value);
      AddDependencies(g, job.id.value, job.needs);
      DependencyEdgesSnoc(jobs, i);
    }
    assert jobs[..|jobs|] == jobs;
    var order := g.TopologicalSort();
    if order.None? {
      return Unfeasible;
    }
    var ids := order.value;
    var key := (j: Job) => if j.id.Some? then Index(ids, j.id.value) else 0;
    StableSortSorted(jobs, key);
    StableSortMultiset(jobs, key);
    var sorted := StableSort(jobs, key);
    OrderedByIndex(jobs, sorted, ids, key);
    forall j | j in jobs
      ensures WithId(sorted, j.id) == WithId(jobs, j.id)
    {
      assert forall x | x in sorted :: x in multiset(jobs);
      WithIdIsWithKey(jobs, ids, key, j.id.value);
      WithIdIsWithKey(sorted, ids, key, j.id.value);
      StableSortStable(jobs, key, Index(ids, j.id.value));
    }
    r := Sorted(sorted);
  }

  method AddDependencies(g: DiGraph, id: string, needs: seq<string>)
    requires g.Valid() && id in g.nodes
    modifies g
    ensures g.Valid() && old(g.nodes) <= g.nodes
    ensures g.EdgeSet() == old(g.EdgeSet()) + JobEdges(id, needs)
  {
    for k := 0 to |needs|
      invariant g.Valid() && old(g.nodes) <= g.nodes
      invariant g.EdgeSet() == old(g.EdgeSet()) + JobEdges(id, needs[..k])
    {
      JobEdgesSnoc(id, needs, k);
      g.AddEdge(needs[k], id);
    }
    assert needs[..|needs|] == needs;
  }

  /** Every dependency that names a job of the list stands before all jobs that need it. */
  ghost predicate DependenciesFirst(jobs: seq<Job>) {
    forall i, k :: 0 <= i < |jobs| && 0 <= k < |jobs| && jobs[k].id.Some? && jobs[k].id.value in jobs[i].needs ==> k < i
  }

  lemma OrderedByIndex(jobs: seq<Job>, sorted: seq<Job>, ids: seq<string>, key: Job -> int)
    requires forall j :: j in jobs ==> j.id.Some? && j.id.value in ids && key(j) == Index(ids, j.id.value)
    requires NoDup(ids) && Respects(DependencyEdges(jobs), ids)
    requires SortedBy(sorted, key) && multiset(sorted) == multiset(jobs)
    ensures DependenciesFirst(sorted)
  {
    forall i, k | 0 <= i < |sorted| && 0 <= k < |sorted| && sorted[k].id.Some? && sorted[k].id.value in sorted[i].needs
      ensures k < i
    {
      assert sorted[i] in multiset(jobs) && sorted[k] in multiset(jobs);
      var u, v := sorted[k].id.value, sorted[i].id.value;
      assert (u, v) in DependencyEdges(jobs);
      BeforeIndex(ids, u, v);
    }
  }
}
