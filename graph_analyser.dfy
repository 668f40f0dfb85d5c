/** The loop finder behind `find_cycles` (native/graph_analyser/src/lib.rs).
    It takes relationship triples, builds petgraph's directed graph, takes the
    self-loop edges out, asks Johnson's algorithm for the simple cycles, turns
    every node cycle into a cycle of relationship ids in canonical rotation and
    appends every self-loop as a one-element cycle.

    petgraph is modelled by the `Graph` value: node weights by index, and the
    edges in the order they were added. Johnson's algorithm comes from another
    library and is a function parameter of `FindCycles`. */
module GraphAnalyser {
  import opened Wrappers
  import opened Strings

  /** A relationship triple `(rel_id, src_id, dst_id)`. */
  datatype Rel = Rel(id: string, src: string, dst: string)

  /** A petgraph edge: source and target node indices, and the relationship id as weight. */
  datatype Edge = Edge(src: nat, dst: nat, weight: string)

  /** petgraph's `DiGraph<String, String>`. Node `i` has weight `nodes[i]`;
      `edges` is in insertion order, which is also the order in which
      petgraph's `find_edge` meets a node's outgoing edges, newest first. */
  datatype Graph = Graph(nodes: seq<string>, edges: seq<Edge>)

  /** The error `find_cycles` returns when a cycle step has no relationship. */
  const EdgeNotFound := "Edge not found in relationship map"

  // ---------------------------------------------------------------------
  // Sequences

  predicate Distinct<T(==)>(s: seq<T>)
  {
    forall i, j :: 0 <= i < j < |s| ==> s[i] != s[j]
  }

  /** The position of the first occurrence of `x` in `s`. */
  function FirstIndex<T(==)>(s: seq<T>, x: T): (k: nat)
    requires x in s
    ensures k < |s| && s[k] == x
    ensures forall j :: 0 <= j < k ==> s[j] != x
  {
    if s[0] == x then 0 else 1 + FirstIndex(s[1..], x)
  }

  lemma FirstIndexSnoc<T>(s: seq<T>, y: T, x: T)
    requires x in s
    ensures FirstIndex(s + [y], x) == FirstIndex(s, x)
  {
    var f, g := FirstIndex(s + [y], x), FirstIndex(s, x);
    assert (s + [y])[g] == x;
    assert s[f] == x;
  }

  /** In a sequence without repetitions the first index is the only one. */
  lemma FirstIndexOfDistinct<T>(s: seq<T>, k: nat)
    requires Distinct(s) && k < |s|
    ensures FirstIndex(s, s[k]) == k
  {
  }

  function Reverse<T>(s: seq<T>): (r: seq<T>)
  {
    if s == [] then [] else [s[|s| - 1]] + Reverse(s[..|s| - 1])
  }

  lemma {:induction false} ReverseMultiset<T>(s: seq<T>)
    ensures multiset(Reverse(s)) == multiset(s)
  {
    if s != [] {
      ReverseMultiset(s[..|s| - 1]);
      assert s == s[..|s| - 1] + [s[|s| - 1]];
    }
  }

  lemma ReverseSnoc<T>(s: seq<T>, x: T)
    ensures Reverse(s + [x]) == [x] + Reverse(s)
  {
    assert (s + [x])[..|s|] == s;
  }

  // ---------------------------------------------------------------------
  // Node indexing (lib.rs:17-26)

  /** The ids in the order the first loop meets them: `src`, then `dst`, triple by triple. */
  function Endpoints(rels: seq<Rel>): (e: seq<string>)
    ensures |e| == 2 * |rels|
    ensures forall k :: 0 <= k < |rels| ==> e[2 * k] == rels[k].src && e[2 * k + 1] == rels[k].dst
  {
    if rels == [] then []
    else Endpoints(rels[..|rels| - 1]) + [rels[|rels| - 1].src, rels[|rels| - 1].dst]
  }

  lemma EndpointsAt(rels: seq<Rel>, j: nat)
    requires j < 2 * |rels|
    ensures Endpoints(rels)[j] == if j % 2 == 0 then rels[j / 2].src else rels[j / 2].dst
  {
    var k := j / 2;
    if j % 2 == 0 { assert j == 2 * k; } else { assert j == 2 * k + 1; }
  }

  /** `s` with every repeated element after its first occurrence dropped. */
  function Dedup<T(==)>(s: seq<T>): (r: seq<T>)
    ensures Distinct(r)
    ensures forall i :: 0 <= i < |r| ==> r[i] in s
    ensures forall x :: x in s ==> x in r
  {
    if s == [] then []
    else
      var d := Dedup(s[..|s| - 1]);
      assert forall x :: x in s ==> x in s[..|s| - 1] || x == s[|s| - 1] by {
        assert s == s[..|s| - 1] + [s[|s| - 1]];
      }
      if s[|s| - 1] in d then d else d + [s[|s| - 1]]
  }

  lemma DedupSnoc<T>(s: seq<T>, x: T)
    ensures Dedup(s + [x]) == if x in Dedup(s) then Dedup(s) else Dedup(s) + [x]
  {
    assert (s + [x])[..|s|] == s;
  }

  /** Dedup keeps the elements in the order of their first occurrence in `s`. */
  lemma {:induction false} DedupOrder<T>(s: seq<T>)
    ensures forall i, j :: 0 <= i < j < |Dedup(s)| ==>
              FirstIndex(s, Dedup(s)[i]) < FirstIndex(s, Dedup(s)[j])
  {
    if s != [] {
      var p, x := s[..|s| - 1], s[|s| - 1];
      assert s == p + [x];
      DedupOrder(p);
      var d := Dedup(p);
      forall i | 0 <= i < |d| ensures FirstIndex(s, d[i]) == FirstIndex(p, d[i]) {
        FirstIndexSnoc(p, x, d[i]);
      }
      if x !in d {
        assert x !in p;
        assert FirstIndex(s, x) == |p| by {
          assert s[|p|] == x;
          forall j | 0 <= j < |p| ensures s[j] != x { assert s[j] == p[j]; }
        }
      }
    }
  }

  /** The node weights in index order, as `graph.add_node` assigns the indices. */
  function NodeOrder(rels: seq<Rel>): seq<string>
  {
    Dedup(Endpoints(rels))
  }

  /** Every id that is a source or target gets exactly one node, and the
      indices follow first appearance, `src` before `dst` (lib.rs:17-26). */
  lemma NodeOrderSpec(rels: seq<Rel>)
    ensures Distinct(NodeOrder(rels))
    ensures forall x :: x in NodeOrder(rels) <==>
              exists k :: 0 <= k < |rels| && (rels[k].src == x || rels[k].dst == x)
    ensures forall i, j :: 0 <= i < j < |NodeOrder(rels)| ==>
              FirstIndex(Endpoints(rels), NodeOrder(rels)[i]) < FirstIndex(Endpoints(rels), NodeOrder(rels)[j])
  {
    var e := Endpoints(rels);
    DedupOrder(e);
    forall x ensures x in e <==> exists k :: 0 <= k < |rels| && (rels[k].src == x || rels[k].dst == x) {
      if x in e {
        var j := FirstIndex(e, x);
        EndpointsAt(rels, j);
      }
    }
  }

  /** Every triple's endpoints are nodes. */
  lemma NodesCover(rels: seq<Rel>)
    ensures forall k :: 0 <= k < |rels| ==> rels[k].src in NodeOrder(rels) && rels[k].dst in NodeOrder(rels)
  {
    var e := Endpoints(rels);
    forall k | 0 <= k < |rels| ensures rels[k].src in e && rels[k].dst in e {
      assert e[2 * k] == rels[k].src;
    }
  }

  // ---------------------------------------------------------------------
  // The relationship map (lib.rs:27)

  function Key(r: Rel): (string, string)
  {
    (r.src, r.dst)
  }

  /** `rel_map` after the first loop: each triple overwrites its `(src, dst)` entry. */
  function RelMapOf(rels: seq<Rel>): map<(string, string), string>
  {
    if rels == [] then map[]
    else RelMapOf(rels[..|rels| - 1])[Key(rels[|rels| - 1]) := rels[|rels| - 1].id]
  }

  lemma {:induction false} RelMapHasKeys(rels: seq<Rel>)
    ensures forall k :: 0 <= k < |rels| ==> Key(rels[k]) in RelMapOf(rels)
  {
    if rels != [] {
      var p := rels[..|rels| - 1];
      RelMapHasKeys(p);
      assert forall k :: 0 <= k < |p| ==> rels[k] == p[k];
    }
  }

  lemma {:induction false} RelMapOnlyKeys(rels: seq<Rel>)
    ensures forall q :: q in RelMapOf(rels) ==> exists k :: 0 <= k < |rels| && Key(rels[k]) == q
  {
    if rels != [] {
      var p := rels[..|rels| - 1];
      RelMapOnlyKeys(p);
      forall q | q in RelMapOf(rels) ensures exists k :: 0 <= k < |rels| && Key(rels[k]) == q {
        if q in RelMapOf(p) {
          var k :| 0 <= k < |p| && Key(p[k]) == q;
          assert rels[k] == p[k];
        } else {
          assert Key(rels[|rels| - 1]) == q;
        }
      }
    }
  }

  lemma {:induction false} RelMapLast(rels: seq<Rel>)
    ensures forall k :: 0 <= k < |rels| && (forall j :: k < j < |rels| ==> Key(rels[j]) != Key(rels[k])) ==>
              Key(rels[k]) in RelMapOf(rels) && RelMapOf(rels)[Key(rels[k])] == rels[k].id
  {
    if rels != [] {
      var p := rels[..|rels| - 1];
      RelMapLast(p);
      forall k | 0 <= k < |rels| - 1 ensures rels[k] == p[k] { }
      RelMapHasKeys(rels);
    }
  }

  /** `rel_map` has an entry for exactly the pairs that occur, and for several
      triples with the same pair it holds the id of the last one. */
  lemma RelMapLastWins(rels: seq<Rel>)
    ensures forall k :: 0 <= k < |rels| ==> Key(rels[k]) in RelMapOf(rels)
    ensures forall p :: p in RelMapOf(rels) ==> exists k :: 0 <= k < |rels| && Key(rels[k]) == p
    ensures forall k :: 0 <= k < |rels| && (forall j :: k < j < |rels| ==> Key(rels[j]) != Key(rels[k])) ==>
              RelMapOf(rels)[Key(rels[k])] == rels[k].id
  {
    RelMapHasKeys(rels);
    RelMapOnlyKeys(rels);
    RelMapLast(rels);
  }

  /** `index` maps every node weight, and only those, to its position. */
  ghost predicate IndexOf(index: map<string, nat>, nodes: seq<string>)
  {
    (forall x :: x in index <==> x in nodes) &&
    (forall x :: x in index ==> index[x] < |nodes| && nodes[index[x]] == x)
  }

  lemma IndexOfSnoc(index: map<string, nat>, nodes: seq<string>, x: string)
    requires IndexOf(index, nodes) && x !in index
    ensures IndexOf(index[x := |nodes|], nodes + [x])
  {
    var index', nodes' := index[x := |nodes|], nodes + [x];
    forall y | y in index' ensures index'[y] < |nodes'| && nodes'[index'[y]] == y {
      if y != x { assert nodes'[index[y]] == nodes[index[y]]; }
    }
  }

  lemma IndexIsFirst(index: map<string, nat>, nodes: seq<string>, x: string)
    requires IndexOf(index, nodes) && Distinct(nodes) && x in nodes
    ensures x in index && index[x] == FirstIndex(nodes, x)
  {
    FirstIndexOfDistinct(nodes, index[x]);
  }

  /** One more triple adds its `src`, then its `dst`, each if it is new. */
  lemma NodeOrderStep(rels: seq<Rel>, i: nat)
    requires i < |rels|
    ensures var n := NodeOrder(rels[..i]);
            var n' := if rels[i].src in n then n else n + [rels[i].src];
            NodeOrder(rels[..i + 1]) == if rels[i].dst in n' then n' else n' + [rels[i].dst]
    ensures RelMapOf(rels[..i + 1]) == RelMapOf(rels[..i])[Key(rels[i]) := rels[i].id]
  {
    var e := Endpoints(rels[..i]);
    EndpointsStep(rels, i);
    DedupSnoc(e, rels[i].src);
    DedupSnoc(e + [rels[i].src], rels[i].dst);
    RelMapStep(rels, i);
  }

  lemma EndpointsStep(rels: seq<Rel>, i: nat)
    requires i < |rels|
    ensures Endpoints(rels[..i + 1]) == (Endpoints(rels[..i]) + [rels[i].src]) + [rels[i].dst]
  {
    var p := rels[..i + 1];
    assert p[..|p| - 1] == rels[..i] && p[|p| - 1] == rels[i];
  }

  lemma RelMapStep(rels: seq<Rel>, i: nat)
    requires i < |rels|
    ensures RelMapOf(rels[..i + 1]) == RelMapOf(rels[..i])[Key(rels[i]) := rels[i].id]
  {
    var p := rels[..i + 1];
    assert p[..|p| - 1] == rels[..i] && p[|p| - 1] == rels[i];
  }


  /** One `if !node_indices.contains_key(..)` block of the first loop (lib.rs:19-26):
      a new id gets the next node index. */
  method AddNode(index: map<string, nat>, nodes: seq<string>, x: string)
    returns (index': map<string, nat>, nodes': seq<string>)
    requires IndexOf(index, nodes)
    ensures IndexOf(index', nodes')
    ensures nodes' == if x in nodes then nodes else nodes + [x]
  {
    index', nodes' := index, nodes;
    if x !in index {
      IndexOfSnoc(index, nodes, x);
      index' := index[x := |nodes|];
      nodes' := nodes + [x];
    }
  }

  /** The first loop of `find_cycles` (lib.rs:17-28): node indices in first
      appearance order and the relationship map. */
  method AddNodes(rels: seq<Rel>) returns (nodes: seq<string>, index: map<string, nat>, relMap: map<(string, string), string>)
    ensures nodes == NodeOrder(rels)
    ensures IndexOf(index, nodes)
    ensures relMap == RelMapOf(rels)
  {
    nodes, index, relMap := [], map[], map[];
    var i := 0;
    while i < |rels|
      invariant 0 <= i <= |rels|
      invariant nodes == NodeOrder(rels[..i])
      invariant IndexOf(index, nodes)
      invariant relMap == RelMapOf(rels[..i])
    {
      var r := rels[i];
      NodeOrderStep(rels, i);
      index, nodes := AddNode(index, nodes, r.src);
      index, nodes := AddNode(index, nodes, r.dst);
      relMap := relMap[(r.src, r.dst) := r.id];
      i := i + 1;
    }
    assert rels[..i] == rels;
  }

  // ---------------------------------------------------------------------
  // Edges (lib.rs:31-35)

  predicate Covers(nodes: seq<string>, rels: seq<Rel>)
  {
    forall k :: 0 <= k < |rels| ==> rels[k].src in nodes && rels[k].dst in nodes
  }

  /** The edge `graph.add_edge` adds for one triple. */
  function EdgeFor(nodes: seq<string>, r: Rel): Edge
    requires r.src in nodes && r.dst in nodes
  {
    Edge(FirstIndex(nodes, r.src), FirstIndex(nodes, r.dst), r.id)
  }

  /** One edge per triple, parallel edges included, in triple order. */
  function EdgesOf(nodes: seq<string>, rels: seq<Rel>): (edges: seq<Edge>)
    requires Covers(nodes, rels)
  {
    seq(|rels|, k requires 0 <= k < |rels| => EdgeFor(nodes, rels[k]))
  }

  /** The graph `find_cycles` builds before it looks at self-loops. */
  function InitialGraph(rels: seq<Rel>): Graph
  {
    NodesCover(rels);
    Graph(NodeOrder(rels), EdgesOf(NodeOrder(rels), rels))
  }

  /** The `k`-th graph edge joins the nodes of the `k`-th triple, and
      `rel_map` has an entry for that pair of ids (lib.rs:27, 31-35). */
  lemma EdgeHasRelEntry(rels: seq<Rel>, k: nat)
    requires k < |rels|
    ensures var g := InitialGraph(rels);
            k < |g.edges| && g.edges[k].src < |g.nodes| && g.edges[k].dst < |g.nodes| &&
            (g.nodes[g.edges[k].src], g.nodes[g.edges[k].dst]) == Key(rels[k]) &&
            Key(rels[k]) in RelMapOf(rels)
  {
    RelMapHasKeys(rels);
  }

  /** The second loop of `find_cycles` (lib.rs:31-35): every id of a triple
      is in `index`, so each lookup succeeds. */
  method AddEdges(rels: seq<Rel>, nodes: seq<string>, index: map<string, nat>) returns (edges: seq<Edge>)
    requires Distinct(nodes) && Covers(nodes, rels)
    requires IndexOf(index, nodes)
    ensures edges == EdgesOf(nodes, rels)
  {
    edges := [];
    var i := 0;
    while i < |rels|
      invariant 0 <= i <= |rels|
      invariant |edges| == i
      invariant forall k :: 0 <= k < i ==> edges[k] == EdgeFor(nodes, rels[k])
    {
      var r := rels[i];
      IndexIsFirst(index, nodes, r.src);
      IndexIsFirst(index, nodes, r.dst);
      edges := edges + [Edge(index[r.src], index[r.dst], r.id)];
      i := i + 1;
    }
  }

  // ---------------------------------------------------------------------
  // Self-loops (lib.rs:37-51)

  predicate IsSelfAt(e: Edge, n: nat)
  {
    e.src == n && e.dst == n
  }

  /** `graph.neighbors(n).any(|x| x == n)`: node `n` has an edge to itself. */
  predicate HasSelfEdge(edges: seq<Edge>, n: nat)
  {
    exists k | 0 <= k < |edges| :: IsSelfAt(edges[k], n)
  }

  /** The nodes below `n` that have a self-loop, in index order. */
  function SelfNodesBelow(edges: seq<Edge>, n: nat): (r: seq<nat>)
    ensures forall i, j :: 0 <= i < j < |r| ==> r[i] < r[j]
    ensures forall x: nat :: x in r <==> x < n && HasSelfEdge(edges, x)
  {
    if n == 0 then []
    else
      var p := SelfNodesBelow(edges, n - 1);
      assert forall i :: 0 <= i < |p| ==> p[i] in p;
      p + (if HasSelfEdge(edges, n - 1) then [n - 1] else [])
  }

  /** `self_cycles_vec` (lib.rs:38-41): the nodes with a self-loop, in index order. */
  function SelfLoopNodes(g: Graph): seq<nat>
  {
    SelfNodesBelow(g.edges, |g.nodes|)
  }

  /** The weights of the self-loops at `n`, in insertion order. */
  function SelfWeightsAt(edges: seq<Edge>, n: nat): seq<string>
  {
    if edges == [] then []
    else
      var e := edges[|edges| - 1];
      SelfWeightsAt(edges[..|edges| - 1], n) + (if IsSelfAt(e, n) then [e.weight] else [])
  }

  /** The weights of all self-loops, in insertion order. */
  function SelfLoopWeights(edges: seq<Edge>): seq<string>
  {
    if edges == [] then []
    else
      var e := edges[|edges| - 1];
      SelfLoopWeights(edges[..|edges| - 1]) + (if e.src == e.dst then [e.weight] else [])
  }

  /** `edges` without the self-loops at the nodes in `s`, order kept. */
  function Without(edges: seq<Edge>, s: seq<nat>): seq<Edge>
  {
    if edges == [] then []
    else
      var e := edges[|edges| - 1];
      Without(edges[..|edges| - 1], s) + (if e.src == e.dst && e.src in s then [] else [e])
  }

  /** `edges` without any self-loop, order kept. */
  function NonSelf(edges: seq<Edge>): (r: seq<Edge>)
    ensures forall k :: 0 <= k < |r| ==> r[k].src != r[k].dst && r[k] in edges
  {
    if edges == [] then []
    else
      var e := edges[|edges| - 1];
      var p := edges[..|edges| - 1];
      assert forall x :: x in p ==> x in edges;
      NonSelf(p) + (if e.src == e.dst then [] else [e])
  }

  /** petgraph's `find_edge(n, n)`: the newest self-loop at `n`, if any. */
  function FindSelfEdge(edges: seq<Edge>, n: nat): (r: Option<nat>)
    ensures r.Some? ==> r.value < |edges| && IsSelfAt(edges[r.value], n) &&
                        forall k :: r.value < k < |edges| ==> !IsSelfAt(edges[k], n)
    ensures r.None? ==> forall k :: 0 <= k < |edges| ==> !IsSelfAt(edges[k], n)
  {
    if edges == [] then None
    else if IsSelfAt(edges[|edges| - 1], n) then Some(|edges| - 1)
    else
      var p := edges[..|edges| - 1];
      assert forall k :: 0 <= k < |p| ==> p[k] == edges[k];
      FindSelfEdge(p, n)
  }

  /** petgraph's `remove_edge`, seen through a node's adjacency list: the
      sequence stands for the order `find_edge` walks the edges, which the
      removal keeps; petgraph's own edge storage is swap-removed instead. */
  function RemoveEdge(edges: seq<Edge>, j: nat): seq<Edge>
    requires j < |edges|
  {
    edges[..j] + edges[j + 1..]
  }

  lemma {:induction false} SelfWeightsAtConcat(a: seq<Edge>, b: seq<Edge>, n: nat)
    ensures SelfWeightsAt(a + b, n) == SelfWeightsAt(a, n) + SelfWeightsAt(b, n)
  {
    if b == [] {
      assert a + b == a;
    } else {
      assert (a + b)[..|a + b| - 1] == a + b[..|b| - 1];
      SelfWeightsAtConcat(a, b[..|b| - 1], n);
    }
  }

  lemma {:induction false} WithoutConcat(a: seq<Edge>, b: seq<Edge>, s: seq<nat>)
    ensures Without(a + b, s) == Without(a, s) + Without(b, s)
  {
    if b == [] {
      assert a + b == a;
    } else {
      assert (a + b)[..|a + b| - 1] == a + b[..|b| - 1];
      WithoutConcat(a, b[..|b| - 1], s);
    }
  }

  lemma {:induction false} NoSelfAt(edges: seq<Edge>, n: nat)
    requires forall k :: 0 <= k < |edges| ==> !IsSelfAt(edges[k], n)
    ensures SelfWeightsAt(edges, n) == []
    ensures Without(edges, [n]) == edges
  {
    if edges != [] {
      NoSelfAt(edges[..|edges| - 1], n);
    }
  }

  lemma SingleEdge(e: Edge, n: nat)
    ensures SelfWeightsAt([e], n) == if IsSelfAt(e, n) then [e.weight] else []
    ensures Without([e], [n]) == if IsSelfAt(e, n) then [] else [e]
  {
    assert [e][..0] == [];
  }

  /** Removing the newest self-loop at `n` takes the last weight off
      `SelfWeightsAt`. */
  lemma RemoveNewestSelfWeights(edges: seq<Edge>, n: nat, j: nat)
    requires j < |edges| && IsSelfAt(edges[j], n)
    requires forall k :: j < k < |edges| ==> !IsSelfAt(edges[k], n)
    ensures SelfWeightsAt(edges, n) == SelfWeightsAt(RemoveEdge(edges, j), n) + [edges[j].weight]
  {
    var a, e, b := edges[..j], edges[j], edges[j + 1..];
    assert edges == a + ([e] + b);
    assert RemoveEdge(edges, j) == a + b;
    NoSelfAt(b, n);
    SingleEdge(e, n);
    SelfWeightsAtConcat([e], b, n);
    assert SelfWeightsAt([e] + b, n) == [e.weight];
    SelfWeightsAtConcat(a, [e] + b, n);
    SelfWeightsAtConcat(a, b, n);
  }

  /** Removing the newest self-loop at `n` leaves every other edge where it was. */
  lemma RemoveNewestSelfKeeps(edges: seq<Edge>, n: nat, j: nat)
    requires j < |edges| && IsSelfAt(edges[j], n)
    requires forall k :: j < k < |edges| ==> !IsSelfAt(edges[k], n)
    ensures Without(RemoveEdge(edges, j), [n]) == Without(edges, [n])
  {
    var a, e, b := edges[..j], edges[j], edges[j + 1..];
    assert edges == a + ([e] + b);
    assert RemoveEdge(edges, j) == a + b;
    NoSelfAt(b, n);
    SingleEdge(e, n);
    WithoutConcat([e], b, [n]);
    assert Without([e] + b, [n]) == b;
    WithoutConcat(a, [e] + b, [n]);
    WithoutConcat(a, b, [n]);
  }

  /** One round of the inner `while` (lib.rs:47-50): taking out the edge
      `find_edge` returns moves its weight to the front of the reversed
      self-loop weights and leaves the other edges alone. */
  lemma RemoveSelfStep(edges: seq<Edge>, n: nat, j: nat)
    requires FindSelfEdge(edges, n) == Some(j)
    ensures j < |edges| && |RemoveEdge(edges, j)| < |edges|
    ensures Reverse(SelfWeightsAt(edges, n)) == [edges[j].weight] + Reverse(SelfWeightsAt(RemoveEdge(edges, j), n))
    ensures Without(RemoveEdge(edges, j), [n]) == Without(edges, [n])
  {
    RemoveNewestSelfWeights(edges, n, j);
    RemoveNewestSelfKeeps(edges, n, j);
    ReverseSnoc(SelfWeightsAt(RemoveEdge(edges, j), n), edges[j].weight);
  }

  lemma {:induction false} WithoutNothing(edges: seq<Edge>)
    ensures Without(edges, []) == edges
  {
    if edges != [] {
      WithoutNothing(edges[..|edges| - 1]);
    }
  }

  lemma {:induction false} WithoutWithout(edges: seq<Edge>, s: seq<nat>, n: nat)
    ensures Without(Without(edges, s), [n]) == Without(edges, s + [n])
  {
    if edges != [] {
      var p, e := edges[..|edges| - 1], edges[|edges| - 1];
      WithoutWithout(p, s, n);
      WithoutConcat(Without(p, s), if e.src == e.dst && e.src in s then [] else [e], [n]);
      assert [e][..0] == [];
    }
  }

  lemma {:induction false} SelfWeightsAtWithout(edges: seq<Edge>, s: seq<nat>, n: nat)
    requires n !in s
    ensures SelfWeightsAt(Without(edges, s), n) == SelfWeightsAt(edges, n)
  {
    if edges != [] {
      var p, e := edges[..|edges| - 1], edges[|edges| - 1];
      SelfWeightsAtWithout(p, s, n);
      SelfWeightsAtConcat(Without(p, s), if e.src == e.dst && e.src in s then [] else [e], n);
      assert [e][..0] == [];
    }
  }

  /** Once every node with a self-loop is in `s`, `Without` leaves no self-loop. */
  lemma {:induction false} WithoutAllSelf(edges: seq<Edge>, s: seq<nat>)
    requires forall k :: 0 <= k < |edges| && edges[k].src == edges[k].dst ==> edges[k].src in s
    ensures Without(edges, s) == NonSelf(edges)
  {
    if edges != [] {
      WithoutAllSelf(edges[..|edges| - 1], s);
    }
  }

  /** The removed self-loop weights: node by node in the order of `ns`, and at
      each node newest first, as the `while let` loop finds them. */
  function RemovedOrder(edges: seq<Edge>, ns: seq<nat>): seq<string>
  {
    if ns == [] then []
    else RemovedOrder(edges, ns[..|ns| - 1]) + Reverse(SelfWeightsAt(edges, ns[|ns| - 1]))
  }

  /** The `while let` loop (lib.rs:47-50): take the self-loops at `node` out
      one `find_edge` at a time, newest first, and record their weights. */
  method RemoveSelfEdgesAt(g: Graph, node: nat) returns (g': Graph, here: seq<string>)
    ensures g'.nodes == g.nodes
    ensures g'.edges == Without(g.edges, [node])
    ensures here == Reverse(SelfWeightsAt(g.edges, node))
  {
    g', here := g, [];
    var found := FindSelfEdge(g'.edges, node);
    while found.Some?
      invariant g'.nodes == g.nodes
      invariant found == FindSelfEdge(g'.edges, node)
      invariant Reverse(SelfWeightsAt(g.edges, node)) == here + Reverse(SelfWeightsAt(g'.edges, node))
      invariant Without(g'.edges, [node]) == Without(g.edges, [node])
      decreases |g'.edges|
    {
      var j := found.value;
      var w := g'.edges[j].weight;
      RemoveSelfStep(g'.edges, node, j);
      ghost var h0 := here;
      g' := g'.(edges := RemoveEdge(g'.edges, j));
      here := here + [w];
      assert h0 + ([w] + Reverse(SelfWeightsAt(g'.edges, node))) == here + Reverse(SelfWeightsAt(g'.edges, node));
      found := FindSelfEdge(g'.edges, node);
    }
    NoSelfAt(g'.edges, node);
  }

  /** Handling node `ns[i]` after the nodes before it. */
  lemma RemovalStep(edges: seq<Edge>, ns: seq<nat>, i: nat)
    requires forall i, j :: 0 <= i < j < |ns| ==> ns[i] < ns[j]
    requires i < |ns|
    ensures Without(Without(edges, ns[..i]), [ns[i]]) == Without(edges, ns[..i + 1])
    ensures RemovedOrder(edges, ns[..i + 1]) ==
            RemovedOrder(edges, ns[..i]) + Reverse(SelfWeightsAt(Without(edges, ns[..i]), ns[i]))
  {
    var s, node := ns[..i], ns[i];
    assert ns[..i + 1] == s + [node];
    assert node !in s;
    WithoutWithout(edges, s, node);
    SelfWeightsAtWithout(edges, s, node);
    assert (s + [node])[..|s|] == s;
  }

  /** The removal loop (lib.rs:43-51) over the nodes of `ns`. */
  method RemoveSelfEdges(g: Graph, ns: seq<nat>) returns (g': Graph, removed: seq<string>)
    requires forall i, j :: 0 <= i < j < |ns| ==> ns[i] < ns[j]
    ensures g'.nodes == g.nodes
    ensures g'.edges == Without(g.edges, ns)
    ensures removed == RemovedOrder(g.edges, ns)
  {
    g', removed := g, [];
    WithoutNothing(g.edges);
    var i := 0;
    while i < |ns|
      invariant 0 <= i <= |ns|
      invariant g'.nodes == g.nodes
      invariant g'.edges == Without(g.edges, ns[..i])
      invariant removed == RemovedOrder(g.edges, ns[..i])
    {
      var here;
      RemovalStep(g.edges, ns, i);
      g', here := RemoveSelfEdgesAt(g', ns[i]);
      removed := removed + here;
      i := i + 1;
    }
    assert ns[..i] == ns;
  }

  // ---------------------------------------------------------------------
  // Every self-loop relationship is reported once

  /** The ids of the relationships that are self-loops, in input order. */
  function SelfLoopIds(rels: seq<Rel>): seq<string>
  {
    if rels == [] then []
    else
      var r := rels[|rels| - 1];
      SelfLoopIds(rels[..|rels| - 1]) + (if r.src == r.dst then [r.id] else [])
  }

  lemma {:induction false} SelfLoopWeightsSnoc(a: seq<Edge>, e: Edge)
    ensures SelfLoopWeights(a + [e]) == SelfLoopWeights(a) + (if e.src == e.dst then [e.weight] else [])
  {
    assert (a + [e])[..|a|] == a;
  }

  lemma {:induction false} SelfWeightsAtSnoc(a: seq<Edge>, e: Edge, n: nat)
    ensures SelfWeightsAt(a + [e], n) == SelfWeightsAt(a, n) + (if IsSelfAt(e, n) then [e.weight] else [])
  {
    assert (a + [e])[..|a|] == a;
  }

  lemma {:induction false} WithoutSnoc(a: seq<Edge>, e: Edge, s: seq<nat>)
    ensures Without(a + [e], s) == Without(a, s) + (if e.src == e.dst && e.src in s then [] else [e])
  {
    assert (a + [e])[..|a|] == a;
  }

  lemma MultisetStep(a: seq<string>, b: seq<string>, c: seq<string>, x: seq<string>, y: seq<string>, z: seq<string>)
    requires multiset(a) == multiset(b) + multiset(c)
    requires multiset(x) == multiset(y) + multiset(z)
    ensures multiset(a + x) == multiset(b + y) + multiset(c + z)
  {
  }

  /** One more edge, a self-loop at `n`, keeps the split of `SelfLoopsSplitAt`. */
  lemma SelfLoopsSplitStepAt(p: seq<Edge>, e: Edge, n: nat)
    requires IsSelfAt(e, n)
    requires multiset(SelfLoopWeights(p)) ==
             multiset(SelfWeightsAt(p, n)) + multiset(SelfLoopWeights(Without(p, [n])))
    ensures multiset(SelfLoopWeights(p + [e])) ==
            multiset(SelfWeightsAt(p + [e], n)) + multiset(SelfLoopWeights(Without(p + [e], [n])))
  {
    var w := Without(p, [n]);
    SelfLoopWeightsSnoc(p, e);
    SelfWeightsAtSnoc(p, e, n);
    WithoutSnoc(p, e, [n]);
    assert Without(p + [e], [n]) == w;
    MultisetStep(SelfLoopWeights(p), SelfWeightsAt(p, n), SelfLoopWeights(w), [e.weight], [e.weight], []);
    assert SelfLoopWeights(w) + [] == SelfLoopWeights(w);
  }

  /** One more edge, not a self-loop at `n`, keeps the split of `SelfLoopsSplitAt`. */
  lemma SelfLoopsSplitStepOther(p: seq<Edge>, e: Edge, n: nat)
    requires !IsSelfAt(e, n)
    requires multiset(SelfLoopWeights(p)) ==
             multiset(SelfWeightsAt(p, n)) + multiset(SelfLoopWeights(Without(p, [n])))
    ensures multiset(SelfLoopWeights(p + [e])) ==
            multiset(SelfWeightsAt(p + [e], n)) + multiset(SelfLoopWeights(Without(p + [e], [n])))
  {
    var w := Without(p, [n]);
    SelfLoopWeightsSnoc(p, e);
    SelfWeightsAtSnoc(p, e, n);
    WithoutSnoc(p, e, [n]);
    assert Without(p + [e], [n]) == w + [e];
    SelfLoopWeightsSnoc(w, e);
    var x := if e.src == e.dst then [e.weight] else [];
    MultisetStep(SelfLoopWeights(p), SelfWeightsAt(p, n), SelfLoopWeights(w), x, [], x);
    assert SelfWeightsAt(p, n) + [] == SelfWeightsAt(p, n);
  }

  /** The self-loops of `edges` are those at `n` and those left after removing them. */
  lemma {:induction false} SelfLoopsSplitAt(edges: seq<Edge>, n: nat)
    ensures multiset(SelfLoopWeights(edges)) ==
            multiset(SelfWeightsAt(edges, n)) + multiset(SelfLoopWeights(Without(edges, [n])))
  {
    if edges != [] {
      var p, e := edges[..|edges| - 1], edges[|edges| - 1];
      assert edges == p + [e];
      SelfLoopsSplitAt(p, n);
      if IsSelfAt(e, n) {
        SelfLoopsSplitStepAt(p, e, n);
      } else {
        SelfLoopsSplitStepOther(p, e, n);
      }
    }
  }

  lemma {:induction false} RemovedMultiset(edges: seq<Edge>, ns: seq<nat>)
    requires forall i, j :: 0 <= i < j < |ns| ==> ns[i] < ns[j]
    ensures multiset(SelfLoopWeights(edges)) ==
            multiset(RemovedOrder(edges, ns)) + multiset(SelfLoopWeights(Without(edges, ns)))
  {
    if ns == [] {
      WithoutNothing(edges);
    } else {
      var q, n := ns[..|ns| - 1], ns[|ns| - 1];
      assert ns == q + [n];
      RemovedMultiset(edges, q);
      assert n !in q;
      SelfLoopsSplitAt(Without(edges, q), n);
      SelfWeightsAtWithout(edges, q, n);
      WithoutWithout(edges, q, n);
      ReverseMultiset(SelfWeightsAt(edges, n));
    }
  }

  lemma {:induction false} NonSelfHasNoSelfLoops(edges: seq<Edge>)
    ensures SelfLoopWeights(NonSelf(edges)) == []
  {
    if edges != [] {
      var p, e := edges[..|edges| - 1], edges[|edges| - 1];
      NonSelfHasNoSelfLoops(p);
      if e.src != e.dst {
        assert NonSelf(edges) == NonSelf(p) + [e];
        SelfLoopWeightsSnoc(NonSelf(p), e);
      } else {
        assert NonSelf(edges) == NonSelf(p) + [];
        assert NonSelf(edges) == NonSelf(p);
      }
    }
  }

  lemma {:induction false} SelfLoopWeightsOfEdges(nodes: seq<string>, rels: seq<Rel>)
    requires Distinct(nodes) && Covers(nodes, rels)
    ensures SelfLoopWeights(EdgesOf(nodes, rels)) == SelfLoopIds(rels)
  {
    if rels != [] {
      var p, r := rels[..|rels| - 1], rels[|rels| - 1];
      SelfLoopWeightsOfEdges(nodes, p);
      var edges := EdgesOf(nodes, rels);
      assert edges == EdgesOf(nodes, p) + [EdgeFor(nodes, r)];
      SelfLoopWeightsSnoc(EdgesOf(nodes, p), EdgeFor(nodes, r));
      assert nodes[FirstIndex(nodes, r.src)] == r.src && nodes[FirstIndex(nodes, r.dst)] == r.dst;
    }
  }

  /** The edges of the built graph stay within its nodes. */
  lemma InitialGraphWellFormed(rels: seq<Rel>)
    ensures var g := InitialGraph(rels);
            Distinct(g.nodes) &&
            forall k :: 0 <= k < |g.edges| ==> g.edges[k].src < |g.nodes| && g.edges[k].dst < |g.nodes|
  {
  }

  /** After the removal loop the graph holds exactly the edges that are not self-loops. */
  lemma StrippedIsNonSelf(rels: seq<Rel>)
    ensures var g := InitialGraph(rels);
            Without(g.edges, SelfLoopNodes(g)) == NonSelf(g.edges)
  {
    var g := InitialGraph(rels);
    InitialGraphWellFormed(rels);
    var ns := SelfLoopNodes(g);
    forall k | 0 <= k < |g.edges| && g.edges[k].src == g.edges[k].dst ensures g.edges[k].src in ns {
      assert IsSelfAt(g.edges[k], g.edges[k].src);
    }
    WithoutAllSelf(g.edges, ns);
  }

  /** The self-loop weights in the order `find_cycles` appends them. */
  ghost function SelfLoopRemovalOrder(rels: seq<Rel>): seq<string>
  {
    var g := InitialGraph(rels);
    RemovedOrder(g.edges, SelfLoopNodes(g))
  }

  /** Each self-loop relationship is taken out of the graph, and so reported,
      exactly once (lib.rs:38-51, 114-116). */
  lemma SelfLoopsReported(rels: seq<Rel>)
    ensures multiset(SelfLoopRemovalOrder(rels)) == multiset(SelfLoopIds(rels))
  {
    var g := InitialGraph(rels);
    var ns := SelfLoopNodes(g);
    RemovedMultiset(g.edges, ns);
    StrippedIsNonSelf(rels);
    NonSelfHasNoSelfLoops(g.edges);
    NodesCover(rels);
    SelfLoopWeightsOfEdges(g.nodes, rels);
  }

  // ---------------------------------------------------------------------
  // Node cycles to relationship ids (lib.rs:63-89)

  predicate CycleInRange(c: seq<nat>, n: nat)
  {
    forall i :: 0 <= i < |c| ==> c[i] < n
  }

  /** The `(src, dst)` ids of the `i`-th step of a node cycle, wrapping round. */
  function StepKey(nodes: seq<string>, c: seq<nat>, i: nat): (string, string)
    requires CycleInRange(c, |nodes|) && i < |c|
  {
    (nodes[c[i]], nodes[c[(i + 1) % |c|]])
  }

  /** The relationship ids along a node cycle, or `None` if a step has no relationship. */
  function RelIdsOfCycle(nodes: seq<string>, relMap: map<(string, string), string>, c: seq<nat>): Option<seq<string>>
    requires CycleInRange(c, |nodes|)
  {
    if forall i :: 0 <= i < |c| ==> StepKey(nodes, c, i) in relMap
    then Some(seq(|c|, i requires 0 <= i < |c| && StepKey(nodes, c, i) in relMap => relMap[StepKey(nodes, c, i)]))
    else None
  }

  /** The inner `for` loop (lib.rs:74-89): a node cycle of length n becomes n
      relationship ids, the i-th being that of the step from node i to node i+1
      mod n; a missing step is the error. */
  method ConvertCycle(nodes: seq<string>, relMap: map<(string, string), string>, c: seq<nat>) returns (r: Option<seq<string>>)
    requires CycleInRange(c, |nodes|)
    ensures r.Some? <==> forall i :: 0 <= i < |c| ==> StepKey(nodes, c, i) in relMap
    ensures r.Some? ==> |r.value| == |c| && forall i :: 0 <= i < |c| ==> r.value[i] == relMap[StepKey(nodes, c, i)]
    ensures r == RelIdsOfCycle(nodes, relMap, c)
  {
    var ids := [];
    var i := 0;
    while i < |c|
      invariant 0 <= i <= |c|
      invariant |ids| == i
      invariant forall k :: 0 <= k < i ==> StepKey(nodes, c, k) in relMap && ids[k] == relMap[StepKey(nodes, c, k)]
    {
      var src, dst := nodes[c[i]], nodes[c[(i + 1) % |c|]];
      assert StepKey(nodes, c, i) == (src, dst);
      if (src, dst) in relMap {
        ids := ids + [relMap[(src, dst)]];
      } else {
        return None;
      }
      i := i + 1;
    }
    r := Some(ids);
    assert ids == RelIdsOfCycle(nodes, relMap, c).value;
  }

  /** What the collecting loop (lib.rs:70-111) produces: the canonical rotation
      of every non-empty converted cycle, or the error for the first cycle
      that cannot be converted. */
  function Collected(nodes: seq<string>, relMap: map<(string, string), string>, cycles: seq<seq<nat>>): Result<seq<seq<string>>, string>
    requires forall j :: 0 <= j < |cycles| ==> CycleInRange(cycles[j], |nodes|)
  {
    if cycles == [] then Ok([])
    else
      match Collected(nodes, relMap, cycles[..|cycles| - 1])
      case Err(e) => Err(e)
      case Ok(acc) =>
        match RelIdsOfCycle(nodes, relMap, cycles[|cycles| - 1])
        case None => Err(EdgeNotFound)
        case Some(ids) => Ok(if ids == [] then acc else acc + [Canonical(ids)])
  }

  /** Collecting fails, with the one error `find_cycles` has, exactly when some
      cycle cannot be converted. */
  lemma {:induction false} CollectedOkIff(nodes: seq<string>, relMap: map<(string, string), string>, cycles: seq<seq<nat>>)
    requires forall j :: 0 <= j < |cycles| ==> CycleInRange(cycles[j], |nodes|)
    ensures Collected(nodes, relMap, cycles).Ok? <==>
            forall j :: 0 <= j < |cycles| ==> RelIdsOfCycle(nodes, relMap, cycles[j]).Some?
    ensures Collected(nodes, relMap, cycles).Err? ==> Collected(nodes, relMap, cycles).error == EdgeNotFound
  {
    if cycles != [] {
      var p := cycles[..|cycles| - 1];
      assert forall j :: 0 <= j < |p| ==> p[j] == cycles[j];
      CollectedOkIff(nodes, relMap, p);
    }
  }

  /** A cycle of relationship ids as `find_cycles` emits it: non-empty,
      starting at its smallest id, and unchanged by another rotation. */
  ghost predicate IsCanonicalCycle(c: seq<string>)
  {
    c != [] && Canonical(c) == c && forall j :: 0 <= j < |c| ==> StrLe(c[0], c[j])
  }

  /** Every collected cycle is canonical. */
  lemma {:induction false} CollectedCanonical(nodes: seq<string>, relMap: map<(string, string), string>, cycles: seq<seq<nat>>)
    requires forall j :: 0 <= j < |cycles| ==> CycleInRange(cycles[j], |nodes|)
    ensures Collected(nodes, relMap, cycles).Ok? ==>
            forall k :: 0 <= k < |Collected(nodes, relMap, cycles).value| ==>
              IsCanonicalCycle(Collected(nodes, relMap, cycles).value[k])
  {
    if cycles != [] {
      var p := cycles[..|cycles| - 1];
      assert forall j :: 0 <= j < |p| ==> p[j] == cycles[j];
      CollectedCanonical(nodes, relMap, p);
      var r := Collected(nodes, relMap, cycles);
      if r.Ok? {
        var acc := Collected(nodes, relMap, p).value;
        var ids := RelIdsOfCycle(nodes, relMap, cycles[|cycles| - 1]).value;
        if ids != [] {
          CanonicalCycleOf(ids);
          CanonicalSnoc(acc, Canonical(ids));
          assert r.value == acc + [Canonical(ids)];
        } else {
          assert r.value == acc;
        }
      }
    }
  }

  lemma CanonicalSnoc(acc: seq<seq<string>>, c: seq<string>)
    requires forall k :: 0 <= k < |acc| ==> IsCanonicalCycle(acc[k])
    requires IsCanonicalCycle(c)
    ensures forall k :: 0 <= k < |acc + [c]| ==> IsCanonicalCycle((acc + [c])[k])
  {
  }

  lemma CanonicalCycleOf(ids: seq<string>)
    requires ids != []
    ensures IsCanonicalCycle(Canonical(ids))
  {
    CanonicalIdempotent(ids);
  }

  /** The collecting loop (lib.rs:70-111) over the cycles Johnson's algorithm yields. */
  method CollectCycles(nodes: seq<string>, relMap: map<(string, string), string>, cycles: seq<seq<nat>>)
    returns (r: Result<seq<seq<string>>, string>)
    requires forall j :: 0 <= j < |cycles| ==> CycleInRange(cycles[j], |nodes|)
    ensures r == Collected(nodes, relMap, cycles)
  {
    var all := [];
    var i := 0;
    while i < |cycles|
      invariant 0 <= i <= |cycles|
      invariant Collected(nodes, relMap, cycles[..i]) == Ok(all)
    {
      assert cycles[..i + 1][..i] == cycles[..i];
      var ids := ConvertCycle(nodes, relMap, cycles[i]);
      if ids.None? {
        CollectedOkIff(nodes, relMap, cycles);
        return Err(EdgeNotFound);
      }
      if ids.value != [] {
        all := all + [Canonical(ids.value)];
      }
      i := i + 1;
    }
    assert cycles[..i] == cycles;
    r := Ok(all);
  }

  // ---------------------------------------------------------------------
  // find_cycles

  /** A graph with node weights `nodes` and `edges` has an edge `a -> b`. */
  predicate HasEdge(edges: seq<Edge>, a: nat, b: nat)
  {
    exists k :: 0 <= k < |edges| && edges[k].src == a && edges[k].dst == b
  }

  /** A cycle Johnson's algorithm may report for `g`: non-empty, and each
      consecutive pair, wrapping round, is an edge of `g`. */
  predicate FollowsEdges(g: Graph, c: seq<nat>)
  {
    c != [] && CycleInRange(c, |g.nodes|) &&
    forall i :: 0 <= i < |c| ==> StepIsEdge(g, c, i)
  }

  /** The `i`-th step of node cycle `c`, wrapping round, is an edge of `g`. */
  predicate StepIsEdge(g: Graph, c: seq<nat>, i: nat)
    requires i < |c|
  {
    HasEdge(g.edges, c[i], c[(i + 1) % |c|])
  }

  /** The `Option` argument `find_cycles` hands to Johnson's algorithm (lib.rs:53-57). */
  function SelfArg(ns: seq<nat>): Option<seq<nat>>
  {
    if ns == [] then None else Some(ns)
  }

  /** The graph Johnson's algorithm searches: all edges but the self-loops. */
  ghost function StrippedGraph(rels: seq<Rel>): Graph
  {
    var g := InitialGraph(rels);
    Graph(g.nodes, NonSelf(g.edges))
  }

  /** The cycles Johnson's algorithm returns for the stripped graph. */
  ghost function OracleCycles(rels: seq<Rel>, johnson: (Graph, Option<seq<nat>>) -> seq<seq<nat>>): seq<seq<nat>>
  {
    johnson(StrippedGraph(rels), SelfArg(SelfLoopNodes(InitialGraph(rels))))
  }

  /** Johnson's algorithm returns node indices of the graph it was given
      (`index_to_uuid[&idx]` would panic otherwise). */
  ghost predicate OracleInRange(rels: seq<Rel>, johnson: (Graph, Option<seq<nat>>) -> seq<seq<nat>>)
  {
    forall j :: 0 <= j < |OracleCycles(rels, johnson)| ==> CycleInRange(OracleCycles(rels, johnson)[j], |NodeOrder(rels)|)
  }

  /** The one-node cycle `[n]` that rustworkx's Johnson's algorithm reports for
      each node `n` of its `self_cycles` argument. */
  ghost predicate ReportedSelfCycle(rels: seq<Rel>, c: seq<nat>)
  {
    |c| == 1 && c[0] in SelfLoopNodes(InitialGraph(rels))
  }

  /** Johnson's algorithm returns only cycles of the graph it was given and
      the one-node cycles of the `self_cycles` nodes. */
  ghost predicate OracleSound(rels: seq<Rel>, johnson: (Graph, Option<seq<nat>>) -> seq<seq<nat>>)
  {
    forall j :: 0 <= j < |OracleCycles(rels, johnson)| ==>
      FollowsEdges(StrippedGraph(rels), OracleCycles(rels, johnson)[j]) ||
      ReportedSelfCycle(rels, OracleCycles(rels, johnson)[j])
  }

  function Singletons(ids: seq<string>): (r: seq<seq<string>>)
    ensures |r| == |ids| && forall i :: 0 <= i < |ids| ==> r[i] == [ids[i]]
  {
    seq(|ids|, i requires 0 <= i < |ids| => [ids[i]])
  }

  /** What `find_cycles` returns: the collected cycles, then one singleton per
      removed self-loop. */
  ghost function FindCyclesSpec(rels: seq<Rel>, johnson: (Graph, Option<seq<nat>>) -> seq<seq<nat>>): Result<seq<seq<string>>, string>
    requires OracleInRange(rels, johnson)
  {
    match Collected(NodeOrder(rels), RelMapOf(rels), OracleCycles(rels, johnson))
    case Err(e) => Err(e)
    case Ok(cs) => Ok(cs + Singletons(SelfLoopRemovalOrder(rels)))
  }

  /** The first part of `find_cycles` (lib.rs:14-35): the graph, its node
      order, and the relationship map. */
  method BuildGraph(rels: seq<Rel>) returns (graph: Graph, relMap: map<(string, string), string>)
    ensures graph == InitialGraph(rels) && graph.nodes == NodeOrder(rels)
    ensures relMap == RelMapOf(rels)
  {
    var nodes, index;
    nodes, index, relMap := AddNodes(rels);
    NodesCover(rels);
    var edges := AddEdges(rels, nodes, index);
    graph := Graph(nodes, edges);
  }

  /** The last loop of `find_cycles` (lib.rs:114-116). */
  method AppendSingletons(all: seq<seq<string>>, removed: seq<string>) returns (out: seq<seq<string>>)
    ensures out == all + Singletons(removed)
  {
    out := all;
    var i := 0;
    while i < |removed|
      invariant 0 <= i <= |removed|
      invariant out == all + Singletons(removed[..i])
    {
      assert Singletons(removed[..i + 1]) == Singletons(removed[..i]) + [[removed[i]]];
      out := out + [[removed[i]]];
      i := i + 1;
    }
    assert removed[..i] == removed;
  }

  /** The graph left once the self-loops are gone is the stripped graph. */
  lemma StrippedGraphIs(rels: seq<Rel>, g: Graph)
    requires g.nodes == InitialGraph(rels).nodes
    requires g.edges == Without(InitialGraph(rels).edges, SelfLoopNodes(InitialGraph(rels)))
    ensures g == StrippedGraph(rels)
  {
    StrippedIsNonSelf(rels);
  }

  /** `find_cycles` (lib.rs:11-119), with Johnson's algorithm as the parameter `johnson`. */
  method FindCycles(rels: seq<Rel>, johnson: (Graph, Option<seq<nat>>) -> seq<seq<nat>>)
    returns (r: Result<seq<seq<string>>, string>)
    requires OracleInRange(rels, johnson)
    ensures r == FindCyclesSpec(rels, johnson)
  {
    var graph, relMap := BuildGraph(rels);
    var nodes := graph.nodes;
    var selfCycles := SelfLoopNodes(graph);
    var removed;
    graph, removed := RemoveSelfEdges(graph, selfCycles);
    StrippedGraphIs(rels, graph);
    var cycles := johnson(graph, SelfArg(selfCycles));
    assert cycles == OracleCycles(rels, johnson);
    var all := CollectCycles(nodes, relMap, cycles);
    if all.Err? {
      return Err(all.error);
    }
    var out := AppendSingletons(all.value, removed);
    r := Ok(out);
  }

  /** Each step of a cycle of the stripped graph has a `rel_map` entry. */
  lemma StepHasRelEntry(rels: seq<Rel>, c: seq<nat>, i: nat)
    requires FollowsEdges(StrippedGraph(rels), c) && i < |c|
    ensures StepKey(InitialGraph(rels).nodes, c, i) in RelMapOf(rels)
  {
    var g := InitialGraph(rels);
    var a, b := c[i], c[(i + 1) % |c|];
    assert StepIsEdge(StrippedGraph(rels), c, i);
    var ns := NonSelf(g.edges);
    var k :| 0 <= k < |ns| && ns[k].src == a && ns[k].dst == b;
    var k' :| 0 <= k' < |g.edges| && g.edges[k'] == ns[k];
    EdgeHasRelEntry(rels, k');
  }

  /** A node with a self-loop still has its `(x, x)` pair in `rel_map`: the
      self-loop edges leave the graph, not the map. */
  lemma SelfNodeHasRelEntry(rels: seq<Rel>, n: nat)
    requires n in SelfLoopNodes(InitialGraph(rels))
    ensures n < |InitialGraph(rels).nodes|
    ensures (InitialGraph(rels).nodes[n], InitialGraph(rels).nodes[n]) in RelMapOf(rels)
  {
    var g := InitialGraph(rels);
    assert n < |g.nodes| && HasSelfEdge(g.edges, n);
    var k :| 0 <= k < |g.edges| && IsSelfAt(g.edges[k], n);
    assert |g.edges| == |rels|;
    EdgeHasRelEntry(rels, k);
  }

  /** The one step of a reported self-cycle `[n]` is `(n, n)`, which has a
      `rel_map` entry. */
  lemma SelfCycleHasRelEntry(rels: seq<Rel>, c: seq<nat>)
    requires ReportedSelfCycle(rels, c)
    ensures CycleInRange(c, |InitialGraph(rels).nodes|)
    ensures RelIdsOfCycle(InitialGraph(rels).nodes, RelMapOf(rels), c).Some?
  {
    var nodes := InitialGraph(rels).nodes;
    SelfNodeHasRelEntry(rels, c[0]);
    assert StepKey(nodes, c, 0) in RelMapOf(rels);
    forall i | 0 <= i < |c| ensures StepKey(nodes, c, i) in RelMapOf(rels) {
      assert i == 0;
    }
  }

  /** Every step of a cycle of the stripped graph has a `rel_map` entry. */
  lemma FollowingCycleHasRelEntries(rels: seq<Rel>, c: seq<nat>)
    requires FollowsEdges(StrippedGraph(rels), c)
    ensures CycleInRange(c, |InitialGraph(rels).nodes|)
    ensures RelIdsOfCycle(InitialGraph(rels).nodes, RelMapOf(rels), c).Some?
  {
    var nodes := InitialGraph(rels).nodes;
    assert StrippedGraph(rels).nodes == nodes;
    forall i | 0 <= i < |c| ensures StepKey(nodes, c, i) in RelMapOf(rels) {
      StepHasRelEntry(rels, c, i);
    }
  }

  /** Every step of a cycle Johnson's algorithm may report has a `rel_map` entry. */
  lemma SoundCycleHasRelEntries(rels: seq<Rel>, c: seq<nat>)
    requires FollowsEdges(StrippedGraph(rels), c) || ReportedSelfCycle(rels, c)
    ensures CycleInRange(c, |InitialGraph(rels).nodes|)
    ensures RelIdsOfCycle(InitialGraph(rels).nodes, RelMapOf(rels), c).Some?
  {
    if FollowsEdges(StrippedGraph(rels), c) {
      FollowingCycleHasRelEntries(rels, c);
    } else {
      SelfCycleHasRelEntry(rels, c);
    }
  }

  /** The "Edge not found" error cannot happen when Johnson's algorithm reports
      only cycles of the graph it was given and the self-cycles it was handed:
      every edge of the graph came from a triple, and every triple has a
      `rel_map` entry (lib.rs:31-35, 53-60, 81-88). */
  lemma EdgeNotFoundUnreachable(rels: seq<Rel>, johnson: (Graph, Option<seq<nat>>) -> seq<seq<nat>>)
    requires OracleInRange(rels, johnson) && OracleSound(rels, johnson)
    ensures FindCyclesSpec(rels, johnson).Ok?
  {
    var nodes := InitialGraph(rels).nodes;
    var cycles := OracleCycles(rels, johnson);
    var relMap := RelMapOf(rels);
    forall j | 0 <= j < |cycles| ensures RelIdsOfCycle(nodes, relMap, cycles[j]).Some? {
      SoundCycleHasRelEntries(rels, cycles[j]);
    }
    CollectedOkIff(nodes, relMap, cycles);
  }

  /** On success the output is the canonical non-self cycles followed by one
      singleton per self-loop relationship, each self-loop exactly once
      (lib.rs:91-116). */
  lemma FindCyclesOutput(rels: seq<Rel>, johnson: (Graph, Option<seq<nat>>) -> seq<seq<nat>>)
    requires OracleInRange(rels, johnson)
    ensures var r := FindCyclesSpec(rels, johnson);
            var m := |SelfLoopIds(rels)|;
            r.Ok? ==>
              |r.value| >= m &&
              r.value[|r.value| - m..] == Singletons(SelfLoopRemovalOrder(rels)) &&
              multiset(SelfLoopRemovalOrder(rels)) == multiset(SelfLoopIds(rels)) &&
              forall k :: 0 <= k < |r.value| - m ==> IsCanonicalCycle(r.value[k])
  {
    SelfLoopsReported(rels);
    var removed := SelfLoopRemovalOrder(rels);
    assert |removed| == |multiset(removed)|;
    CollectedCanonical(NodeOrder(rels), RelMapOf(rels), OracleCycles(rels, johnson));
  }

  // ---------------------------------------------------------------------
  // Self-loops reported twice

  /** What rustworkx's Johnson's algorithm yields for its `self_cycles`
      argument: `[n]` for each listed node. On a graph whose only cycles are
      self-loops this is its whole output. */
  function SelfCyclesOnly(g: Graph, selfCycles: Option<seq<nat>>): seq<seq<nat>>
  {
    match selfCycles
    case None => []
    case Some(ns) => seq(|ns|, i requires 0 <= i < |ns| => [ns[i]])
  }

  /** The ids of the one-element cycles of `cs`, in order. */
  function SingletonIds(cs: seq<seq<string>>): seq<string>
  {
    if cs == [] then []
    else SingletonIds(cs[..|cs| - 1]) + (if |cs[|cs| - 1]| == 1 then [cs[|cs| - 1][0]] else [])
  }

  lemma {:induction false} SingletonIdsConcat(a: seq<seq<string>>, b: seq<seq<string>>)
    ensures SingletonIds(a + b) == SingletonIds(a) + SingletonIds(b)
  {
    if b == [] {
      assert a + b == a;
    } else {
      assert (a + b)[..|a + b| - 1] == a + b[..|b| - 1];
      SingletonIdsConcat(a, b[..|b| - 1]);
    }
  }

  lemma {:induction false} SingletonIdsOfSingletons(ids: seq<string>)
    ensures SingletonIds(Singletons(ids)) == ids
  {
    if ids != [] {
      var p := ids[..|ids| - 1];
      assert Singletons(ids)[..|ids| - 1] == Singletons(p);
      SingletonIdsOfSingletons(p);
      assert ids == p + [ids[|ids| - 1]];
    }
  }

  lemma {:induction false} SingletonIdsNone(cs: seq<seq<string>>)
    requires forall k :: 0 <= k < |cs| ==> |cs[k]| != 1
    ensures SingletonIds(cs) == []
  {
    if cs != [] {
      SingletonIdsNone(cs[..|cs| - 1]);
    }
  }

  /** The input with the single self-loop `x -> x`, relationship `id`. */
  function OneLoop(id: string, x: string): seq<Rel>
  {
    [Rel(id, x, x)]
  }

  /** As written, a single self-loop comes out twice: Johnson's algorithm
      reports `[0]` for the `self_cycles` node, the collecting loop turns it
      into `[id]` through the `rel_map` entry the removal left behind, and the
      last loop appends `[id]` again. */
  lemma DoubleReport(id: string, x: string)
    ensures var rels := OneLoop(id, x);
            OracleInRange(rels, SelfCyclesOnly) && OracleSound(rels, SelfCyclesOnly) &&
            SelfLoopIds(rels) == [id] &&
            FindCyclesSpec(rels, SelfCyclesOnly) == Ok([[id], [id]]) &&
            SingletonIds(FindCyclesSpec(rels, SelfCyclesOnly).value) == [id, id]
  {
    OneLoopPieces(id, x);
    FindCyclesSpecOf(OneLoop(id, x), SelfCyclesOnly, [[id]], [id]);
    AppendOneSingleton(id);
    TwoSingletons(id);
  }

  /** `FindCyclesSpec` from its two parts. */
  lemma FindCyclesSpecOf(rels: seq<Rel>, johnson: (Graph, Option<seq<nat>>) -> seq<seq<nat>>,
                         cs: seq<seq<string>>, removed: seq<string>)
    requires OracleInRange(rels, johnson)
    requires Collected(NodeOrder(rels), RelMapOf(rels), OracleCycles(rels, johnson)) == Ok(cs)
    requires SelfLoopRemovalOrder(rels) == removed
    ensures FindCyclesSpec(rels, johnson) == Ok(cs + Singletons(removed))
  {
  }

  lemma AppendOneSingleton(id: string)
    ensures [[id]] + Singletons([id]) == [[id], [id]]
  {
    assert Singletons([id]) == [[id]];
  }

  lemma TwoSingletons(id: string)
    ensures SingletonIds([[id], [id]]) == [id, id]
  {
    var out := [[id], [id]];
    assert out[..1] == [[id]] && out[..1][..0] == [];
    assert SingletonIds(out[..1]) == [id];
    assert SingletonIds(out) == SingletonIds(out[..1]) + [id];
  }

  /** The facts about `OneLoop` that `find_cycles` combines. */
  lemma OneLoopPieces(id: string, x: string)
    ensures OracleInRange(OneLoop(id, x), SelfCyclesOnly) && OracleSound(OneLoop(id, x), SelfCyclesOnly)
    ensures Collected(NodeOrder(OneLoop(id, x)), RelMapOf(OneLoop(id, x)), OracleCycles(OneLoop(id, x), SelfCyclesOnly)) == Ok([[id]])
    ensures SelfLoopRemovalOrder(OneLoop(id, x)) == [id] && SelfLoopIds(OneLoop(id, x)) == [id]
  {
    OneLoopOracle(id, x);
    SelfLoopCollected(x, id);
  }

  /** What the search reports for `OneLoop`, and that it is a sound report. */
  lemma OneLoopOracle(id: string, x: string)
    ensures NodeOrder(OneLoop(id, x)) == [x]
    ensures OracleCycles(OneLoop(id, x), SelfCyclesOnly) == [[0]]
    ensures OracleInRange(OneLoop(id, x), SelfCyclesOnly) && OracleSound(OneLoop(id, x), SelfCyclesOnly)
    ensures SelfLoopRemovalOrder(OneLoop(id, x)) == [id]
    ensures RelMapOf(OneLoop(id, x)) == map[(x, x) := id] && SelfLoopIds(OneLoop(id, x)) == [id]
  {
    OneLoopGraph(id, x);
    OneLoopCycles(id, x);
    OneLoopSearch(id, x);
    OneSelfCycleOracle(OneLoop(id, x), SelfCyclesOnly);
  }

  /** What the self-cycles-only search yields for `OneLoop`. */
  lemma OneLoopSearch(id: string, x: string)
    ensures SelfLoopNodes(InitialGraph(OneLoop(id, x))) == [0]
    ensures OracleCycles(OneLoop(id, x), SelfCyclesOnly) == [[0]]
  {
    OneLoopGraph(id, x);
    OneLoopCycles(id, x);
    assert SelfArg([0]) == Some([0]);
    var cs := SelfCyclesOnly(StrippedGraph(OneLoop(id, x)), Some([0]));
    assert |cs| == 1 && cs[0] == [0];
    assert cs == [[0]];
  }

  /** A search that reports just the one-node cycle of node 0, itself a
      self-loop node, is in range and sound. */
  lemma OneSelfCycleOracle(rels: seq<Rel>, johnson: (Graph, Option<seq<nat>>) -> seq<seq<nat>>)
    requires |NodeOrder(rels)| > 0 && SelfLoopNodes(InitialGraph(rels)) == [0]
    requires OracleCycles(rels, johnson) == [[0]]
    ensures OracleInRange(rels, johnson) && OracleSound(rels, johnson)
  {
    var c: seq<nat> := [0];
    assert ReportedSelfCycle(rels, c);
    assert CycleInRange(c, |NodeOrder(rels)|);
  }

  /** The graph, map and self-loop list `find_cycles` builds for `OneLoop`. */
  lemma OneLoopGraph(id: string, x: string)
    ensures InitialGraph(OneLoop(id, x)) == Graph([x], [Edge(0, 0, id)])
    ensures RelMapOf(OneLoop(id, x)) == map[(x, x) := id]
    ensures SelfLoopIds(OneLoop(id, x)) == [id]
  {
    OneLoopNodes(id, x);
    OneLoopEdges(id, x);
    var rels := OneLoop(id, x);
    assert rels[..0] == [];
  }

  lemma OneLoopNodes(id: string, x: string)
    ensures NodeOrder(OneLoop(id, x)) == [x]
  {
    var rels := OneLoop(id, x);
    assert rels[..0] == [];
    assert Endpoints(rels) == [x, x];
    DedupTwice(x);
  }

  lemma DedupTwice(x: string)
    ensures Dedup([x, x]) == [x]
  {
    DedupSnoc([], x);
    assert [] + [x] == [x];
    DedupSnoc([x], x);
    assert [x] + [x] == [x, x];
  }

  lemma OneLoopEdges(id: string, x: string)
    requires NodeOrder(OneLoop(id, x)) == [x]
    ensures Covers([x], OneLoop(id, x))
    ensures EdgesOf([x], OneLoop(id, x)) == [Edge(0, 0, id)]
  {
    NodesCover(OneLoop(id, x));
    assert FirstIndex([x], x) == 0;
  }


  /** The self-loop node, stripped edges and removed ids of `OneLoop`'s graph. */
  lemma OneLoopCycles(id: string, x: string)
    ensures SelfLoopNodes(Graph([x], [Edge(0, 0, id)])) == [0]
    ensures NonSelf([Edge(0, 0, id)]) == []
    ensures RemovedOrder([Edge(0, 0, id)], [0]) == [id]
  {
    var es := [Edge(0, 0, id)];
    OneLoopSelfNodes(id);
    OneLoopRemoved(id);
    assert es[..0] == [];
  }

  lemma OneLoopSelfNodes(id: string)
    ensures SelfNodesBelow([Edge(0, 0, id)], 1) == [0]
  {
    var es := [Edge(0, 0, id)];
    assert IsSelfAt(es[0], 0);
    assert HasSelfEdge(es, 0);
    assert SelfNodesBelow(es, 0) == [];
  }

  lemma OneLoopRemoved(id: string)
    ensures RemovedOrder([Edge(0, 0, id)], [0]) == [id]
  {
    var es := [Edge(0, 0, id)];
    assert es[..0] == [];
    assert SelfWeightsAt(es[..0], 0) == [];
    assert SelfWeightsAt(es, 0) == [id];
    assert Reverse([id]) == [id] by {
      assert [id][1..] == [];
    }
    assert [0][..0] == [];
  }

  /** The one-node graph `[x]` with the self-loop `id`: the cycle `[0]` is
      collected as `[id]`. */
  lemma SelfLoopCollected(x: string, id: string)
    ensures Collected([x], map[(x, x) := id], [[0]]) == Ok([[id]])
  {
    var m := map[(x, x) := id];
    assert StepKey([x], [0], 0) == (x, x);
    var ids := RelIdsOfCycle([x], m, [0]);
    assert ids.Some? && |ids.value| == 1 && ids.value[0] == id;
    assert ids.value == [id];
    assert FirstMinIndex([id]) == 0;
    assert [id][0..] + [id][..0] == [id];
    CollectedOne([x], m, [0], [id]);
  }

  /** `Collected` over a single cycle whose ids were found. */
  lemma CollectedOne(nodes: seq<string>, relMap: map<(string, string), string>, c: seq<nat>, ids: seq<string>)
    requires CycleInRange(c, |nodes|)
    requires RelIdsOfCycle(nodes, relMap, c) == Some(ids) && ids != []
    ensures Collected(nodes, relMap, [c]) == Ok([Canonical(ids)])
  {
    var cs := [c];
    assert cs[..0] == [] && cs[|cs| - 1] == c;
    assert Collected(nodes, relMap, cs[..0]) == Ok([]);
    assert [] + [Canonical(ids)] == [Canonical(ids)];
  }

  /** The oracle's cycles without the one-node ones, which the last loop
      reports anyway. */
  function DropSelfCycles(cycles: seq<seq<nat>>): (r: seq<seq<nat>>)
    ensures forall k :: 0 <= k < |r| ==> |r[k]| != 1 && r[k] in cycles
    ensures forall j :: 0 <= j < |cycles| && |cycles[j]| != 1 ==> cycles[j] in r
  {
    if cycles == [] then []
    else
      var p := cycles[..|cycles| - 1];
      var c := cycles[|cycles| - 1];
      assert forall x :: x in p ==> x in cycles;
      assert forall j :: 0 <= j < |p| ==> p[j] == cycles[j];
      DropSelfCycles(p) + (if |c| == 1 then [] else [c])
  }

  /** Every cycle kept by `DropSelfCycles` has its indices in range. */
  lemma DroppedInRange(rels: seq<Rel>, johnson: (Graph, Option<seq<nat>>) -> seq<seq<nat>>)
    requires OracleInRange(rels, johnson)
    ensures var d := DropSelfCycles(OracleCycles(rels, johnson));
            forall k :: 0 <= k < |d| ==> CycleInRange(d[k], |NodeOrder(rels)|)
  {
    var cycles := OracleCycles(rels, johnson);
    var d := DropSelfCycles(cycles);
    forall k | 0 <= k < |d| ensures CycleInRange(d[k], |NodeOrder(rels)|) {
      var j :| 0 <= j < |cycles| && cycles[j] == d[k];
    }
  }

  /** `find_cycles` as evidently intended: the self-loops are reported by the
      last loop only, so the one-node cycles of the search are left out. */
  ghost function FindCyclesIntended(rels: seq<Rel>, johnson: (Graph, Option<seq<nat>>) -> seq<seq<nat>>): Result<seq<seq<string>>, string>
    requires OracleInRange(rels, johnson)
  {
    DroppedInRange(rels, johnson);
    match Collected(NodeOrder(rels), RelMapOf(rels), DropSelfCycles(OracleCycles(rels, johnson)))
    case Err(e) => Err(e)
    case Ok(cs) => Ok(cs + Singletons(SelfLoopRemovalOrder(rels)))
  }

  /** Collecting cycles none of which has one node gives no one-element cycle. */
  lemma {:induction false} CollectedLengths(nodes: seq<string>, relMap: map<(string, string), string>, cycles: seq<seq<nat>>)
    requires forall j :: 0 <= j < |cycles| ==> CycleInRange(cycles[j], |nodes|)
    requires forall j :: 0 <= j < |cycles| ==> |cycles[j]| != 1
    ensures Collected(nodes, relMap, cycles).Ok? ==>
            forall k :: 0 <= k < |Collected(nodes, relMap, cycles).value| ==> |Collected(nodes, relMap, cycles).value[k]| != 1
  {
    if cycles != [] {
      var p := cycles[..|cycles| - 1];
      assert forall j :: 0 <= j < |p| ==> p[j] == cycles[j];
      CollectedLengths(nodes, relMap, p);
    }
  }

  /** In the intended `find_cycles`, the one-element cycles of the output are
      exactly the self-loop relationships, each once. */
  lemma IntendedReportsOnce(rels: seq<Rel>, johnson: (Graph, Option<seq<nat>>) -> seq<seq<nat>>)
    requires OracleInRange(rels, johnson)
    ensures var r := FindCyclesIntended(rels, johnson);
            r.Ok? ==> multiset(SingletonIds(r.value)) == multiset(SelfLoopIds(rels))
  {
    DroppedInRange(rels, johnson);
    var nodes, relMap := NodeOrder(rels), RelMapOf(rels);
    var cycles := DropSelfCycles(OracleCycles(rels, johnson));
    CollectedLengths(nodes, relMap, cycles);
    var c := Collected(nodes, relMap, cycles);
    if c.Ok? {
      var removed := SelfLoopRemovalOrder(rels);
      SingletonIdsConcat(c.value, Singletons(removed));
      SingletonIdsNone(c.value);
      SingletonIdsOfSingletons(removed);
      SelfLoopsReported(rels);
    }
  }

  /** The intended `find_cycles` cannot fail either. */
  lemma IntendedNeverFails(rels: seq<Rel>, johnson: (Graph, Option<seq<nat>>) -> seq<seq<nat>>)
    requires OracleInRange(rels, johnson) && OracleSound(rels, johnson)
    ensures FindCyclesIntended(rels, johnson).Ok?
  {
    DroppedInRange(rels, johnson);
    var nodes, relMap := InitialGraph(rels).nodes, RelMapOf(rels);
    var all := OracleCycles(rels, johnson);
    var cycles := DropSelfCycles(all);
    forall k | 0 <= k < |cycles| ensures RelIdsOfCycle(nodes, relMap, cycles[k]).Some? {
      var j :| 0 <= j < |all| && all[j] == cycles[k];
      SoundCycleHasRelEntries(rels, all[j]);
    }
    CollectedOkIff(nodes, relMap, cycles);
  }

  /** The corrected result reports a single self-loop once: `[[id]]`. */
  lemma IntendedSingleReport(id: string, x: string)
    ensures OracleInRange(OneLoop(id, x), SelfCyclesOnly) &&
            FindCyclesIntended(OneLoop(id, x), SelfCyclesOnly) == Ok([[id]])
  {
    OneLoopIntendedPieces(id, x);
    FindCyclesIntendedOf(OneLoop(id, x), SelfCyclesOnly, [], [id]);
    OnlySingleton(id);
  }

  lemma OnlySingleton(id: string)
    ensures [] + Singletons([id]) == [[id]]
  {
    assert Singletons([id]) == [[id]];
  }

  /** `FindCyclesIntended` from its two parts. */
  lemma FindCyclesIntendedOf(rels: seq<Rel>, johnson: (Graph, Option<seq<nat>>) -> seq<seq<nat>>,
                             cs: seq<seq<string>>, removed: seq<string>)
    requires OracleInRange(rels, johnson)
    requires (DroppedInRange(rels, johnson);
              Collected(NodeOrder(rels), RelMapOf(rels), DropSelfCycles(OracleCycles(rels, johnson))) == Ok(cs))
    requires SelfLoopRemovalOrder(rels) == removed
    ensures FindCyclesIntended(rels, johnson) == Ok(cs + Singletons(removed))
  {
  }

  /** With the one-node cycle dropped nothing is left to collect for `OneLoop`. */
  lemma OneLoopIntendedPieces(id: string, x: string)
    ensures OracleInRange(OneLoop(id, x), SelfCyclesOnly)
    ensures (DroppedInRange(OneLoop(id, x), SelfCyclesOnly);
             Collected(NodeOrder(OneLoop(id, x)), RelMapOf(OneLoop(id, x)), DropSelfCycles(OracleCycles(OneLoop(id, x), SelfCyclesOnly))) == Ok([]))
    ensures SelfLoopRemovalOrder(OneLoop(id, x)) == [id]
  {
    OneLoopOracle(id, x);
    DropOneSelfCycle();
  }

  lemma DropOneSelfCycle()
    ensures DropSelfCycles([[0]]) == []
  {
    assert [[0]][..0] == [];
  }
}
