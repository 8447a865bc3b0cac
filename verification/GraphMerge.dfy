/**
  `graph_merge`: merging one graph into another in place, with a log of what was touched.
 */
module GraphMerge {
  import opened Basics
  import opened KnowledgeGraph

  const GRAPH_FIELD_SEP := "<SEP>"

  // ----- What merging means, element by element

  function Weight(e: Edge): real {
    if e.weight.Some? then e.weight.value else 0.0
  }

  function CombineNodes(x: Node, y: Node): Node {
    x.(description := x.description + GRAPH_FIELD_SEP + y.description, sourceId := x.sourceId + y.sourceId)
  }

  function CombineEdges(x: Edge, y: Edge): Edge {
    x.(weight := Some(Weight(x) + Weight(y)),
       description := x.description + GRAPH_FIELD_SEP + y.description,
       keywords := x.keywords + y.keywords,
       sourceId := x.sourceId + y.sourceId)
  }

  function NodeAt(a: map<string, Node>, b: map<string, Node>, n: string): Node
    requires n in a || n in b
  {
    if n !in b then a[n] else if n !in a then b[n] else CombineNodes(a[n], b[n])
  }

  function EdgeAt(a: map<Pair, Edge>, b: map<Pair, Edge>, k: Pair): Edge
    requires k in a || k in b
  {
    if k !in b then a[k] else if k !in a then b[k] else CombineEdges(a[k], b[k])
  }

  function MergeNodes(a: map<string, Node>, b: map<string, Node>): (r: map<string, Node>)
    ensures r.Keys == a.Keys + b.Keys
  {
    map n | n in a.Keys + b.Keys :: NodeAt(a, b, n)
  }

  function MergeEdges(a: map<Pair, Edge>, b: map<Pair, Edge>): (r: map<Pair, Edge>)
    ensures r.Keys == a.Keys + b.Keys
  {
    map k | k in a.Keys + b.Keys :: EdgeAt(a, b, k)
  }

  lemma MergeOneMoreNode(a: map<string, Node>, b: map<string, Node>, n: string, x: Node)
    requires n !in b
    ensures MergeNodes(a, b[n := x]) == MergeNodes(a, b)[n := if n in a then CombineNodes(a[n], x) else x]
    ensures n in MergeNodes(a, b) <==> n in a
    ensures n in a ==> MergeNodes(a, b)[n] == a[n]
  {
  }

  lemma MergeOneMoreEdge(a: map<Pair, Edge>, b: map<Pair, Edge>, k: Pair, x: Edge)
    requires k !in b
    ensures MergeEdges(a, b[k := x]) == MergeEdges(a, b)[k := if k in a then CombineEdges(a[k], x) else x]
    ensures k in MergeEdges(a, b) <==> k in a
    ensures k in a ==> MergeEdges(a, b)[k] == a[k]
  {
  }

  function Ranked(nodes: map<string, Node>, edges: map<Pair, Edge>): (r: map<string, Node>)
    ensures r.Keys == nodes.Keys
  {
    WithRanks(nodes, n => Degree(edges, n))
  }

  function WithRanks(nodes: map<string, Node>, rank: string -> int): (r: map<string, Node>)
    ensures r.Keys == nodes.Keys
  {
    map n | n in nodes :: nodes[n].(rank := Some(rank(n)))
  }

  function Sources(s: Option<seq<string>>): seq<string> {
    if s.Some? then s.value else []
  }

  function Merged(g1: Graph, g2: Graph): Graph {
    var edges := MergeEdges(g1.edges, g2.edges);
    Graph(Ranked(MergeNodes(g1.nodes, g2.nodes), edges), edges, Some(Sources(g1.sourceId) + Sources(g2.sourceId)))
  }

  // ----- The code

  class GraphObject {
    var nodes: map<string, Node>
    var edges: map<Pair, Edge>
    var sourceId: Option<seq<string>>

    constructor (g: Graph)
      ensures Value() == g
    {
      nodes, edges, sourceId := g.nodes, g.edges, g.sourceId;
    }

    ghost function Value(): Graph
      reads this
    {
      Graph(nodes, edges, sourceId)
    }
  }

  class GraphChange {
    var removedNodes: set<string>
    var addedUpdatedNodes: set<string>
    var removedEdges: set<Pair>
    var addedUpdatedEdges: set<Pair>

    constructor ()
      ensures removedNodes == {} && addedUpdatedNodes == {} && removedEdges == {} && addedUpdatedEdges == {}
    {
      removedNodes, addedUpdatedNodes, removedEdges, addedUpdatedEdges := {}, {}, {}, {};
    }
  }

  /** An edge that both graphs have can be merged only if the first graph's edge has a weight. */
  predicate Mergeable(e1: map<Pair, Edge>, e2: map<Pair, Edge>) {
    forall k :: k in e1 && k in e2 ==> e1[k].weight.Some?
  }

  /** One node of the second graph. */
  method MergeNode(g1: GraphObject, change: GraphChange, name: string, attr: Node,
                   ghost base: map<string, Node>, ghost done: map<string, Node>)
    requires name !in done && g1.nodes == MergeNodes(base, done)
    modifies g1`nodes, change`addedUpdatedNodes
    ensures g1.nodes == MergeNodes(base, done[name := attr])
    ensures change.addedUpdatedNodes == old(change.addedUpdatedNodes) + {name}
  {
    MergeOneMoreNode(base, done, name, attr);
    change.addedUpdatedNodes := change.addedUpdatedNodes + {name};
    if name !in g1.nodes {
      g1.nodes := g1.nodes[name := attr];
    } else {
      var node := g1.nodes[name];
      node := node.(description := node.description + GRAPH_FIELD_SEP + attr.description);
      node := node.(sourceId := node.sourceId + attr.sourceId);
      g1.nodes := g1.nodes[name := node];
    }
  }

  /** The node loop; the two graphs may be the same object. */
  method MergeNodesInto(g1: GraphObject, g2: GraphObject, change: GraphChange)
    modifies g1`nodes, change`addedUpdatedNodes
    ensures g1.nodes == MergeNodes(old(g1.nodes), old(g2.nodes))
    ensures change.addedUpdatedNodes == old(change.addedUpdatedNodes) + old(g2.nodes).Keys
  {
    var todo := g2.nodes.Keys;
    ghost var done: map<string, Node> := map[];
    assert g1.nodes == MergeNodes(g1.nodes, done);
    while todo != {}
      invariant todo <= old(g2.nodes).Keys && done == old(g2.nodes) - todo
      invariant g1.nodes == MergeNodes(old(g1.nodes), done)
      invariant change.addedUpdatedNodes == old(change.addedUpdatedNodes) + done.Keys
    {
      var name :| name in todo;
      ghost var attr := old(g2.nodes)[name];
      assert g2.nodes[name] == attr by { MergeOneMoreNode(old(g1.nodes), done, name, attr); }
      MergeNode(g1, change, name, g2.nodes[name], old(g1.nodes), done);
      todo, done := todo - {name}, done[name := attr];
    }
    assert done == old(g2.nodes);
  }

  method AbsorbEdge(edge: Edge, attr: Edge) returns (r: Edge)
    requires edge.weight.Some?
    ensures r == CombineEdges(edge, attr)
  {
    r := edge;
    r := r.(weight := Some(r.weight.value + if attr.weight.Some? then attr.weight.value else 0.0));
    r := r.(description := r.description + GRAPH_FIELD_SEP + attr.description);
    r := r.(keywords := r.keywords + attr.keywords);
    r := r.(sourceId := r.sourceId + attr.sourceId);
  }

  lemma EitherOrder(k: Pair)
    requires Normal(k)
    ensures GetFromTo(k.0, k.1) == k && GetFromTo(k.1, k.0) == k
  {
    FromToIdentifiesEdges(k.0, k.1, k.1, k.0);
  }

  /**
    One edge of the second graph, handed out with its end points in either order.  A common edge
    without a weight in the first graph raises a key error after it has been logged.
   */
  method MergeEdge(g1: GraphObject, change: GraphChange, key: Pair, attr: Edge,
                   ghost base: map<Pair, Edge>, ghost done: map<Pair, Edge>) returns (ok: bool)
    requires Normal(key) && key !in done && g1.edges == MergeEdges(base, done)
    modifies g1`edges, change`addedUpdatedEdges
    ensures ok <==> (key in base ==> base[key].weight.Some?)
    ensures g1.edges == if ok then MergeEdges(base, done[key := attr]) else old(g1.edges)
    ensures change.addedUpdatedEdges == old(change.addedUpdatedEdges) + {key}
  {
    MergeOneMoreEdge(base, done, key, attr);
    var flip: bool := *;
    var source, target := if flip then key.1 else key.0, if flip then key.0 else key.1;
    var slot := GetFromTo(source, target);
    assert slot == key by { EitherOrder(key); }
    change.addedUpdatedEdges := change.addedUpdatedEdges + {slot};
    if slot !in g1.edges {
      g1.edges := g1.edges[slot := attr];
    } else {
      if g1.edges[slot].weight.None? {
        return false;
      }
      var edge := AbsorbEdge(g1.edges[slot], attr);
      g1.edges := g1.edges[slot := edge];
    }
    return true;
  }

  ghost predicate PartOf(a: map<Pair, Edge>, b: map<Pair, Edge>) {
    forall k :: k in a ==> k in b && a[k] == b[k]
  }

  /** Where a merge breaks off: the edges in done are merged, and edge k has no weight in the first graph. */
  ghost predicate BreaksOffAt(e1: map<Pair, Edge>, e2: map<Pair, Edge>, done: map<Pair, Edge>, k: Pair) {
    k in e1 && k in e2 && k !in done && e1[k].weight.None?
  }

  /** The edge loop; the two graphs may be the same object. */
  method MergeEdgesInto(g1: GraphObject, g2: GraphObject, change: GraphChange)
    returns (ok: bool, ghost done: map<Pair, Edge>, ghost last: Pair)
    requires forall k {:trigger Normal(k)} :: k in g2.edges ==> Normal(k)
    modifies g1`edges, change`addedUpdatedEdges
    ensures ok <==> Mergeable(old(g1.edges), old(g2.edges))
    ensures PartOf(done, old(g2.edges)) && g1.edges == MergeEdges(old(g1.edges), done)
    ensures ok ==> done == old(g2.edges) && change.addedUpdatedEdges == old(change.addedUpdatedEdges) + done.Keys
    ensures !ok ==> BreaksOffAt(old(g1.edges), old(g2.edges), done, last)
                    && change.addedUpdatedEdges == old(change.addedUpdatedEdges) + done.Keys + {last}
  {
    var todo := g2.edges.Keys;
    done, last := map[], ("", "");
    assert g1.edges == MergeEdges(g1.edges, done);
    while todo != {}
      invariant todo <= old(g2.edges).Keys && done == old(g2.edges) - todo
      invariant g1.edges == MergeEdges(old(g1.edges), done)
      invariant forall k :: k in old(g1.edges) && k in done ==> old(g1.edges)[k].weight.Some?
      invariant change.addedUpdatedEdges == old(change.addedUpdatedEdges) + done.Keys
    {
      var key :| key in todo;
      ghost var attr := old(g2.edges)[key];
      assert g2.edges[key] == attr by { MergeOneMoreEdge(old(g1.edges), done, key, attr); }
      last := key;
      ok := MergeEdge(g1, change, key, g2.edges[key], old(g1.edges), done);
      if !ok {
        return;
      }
      todo, done := todo - {key}, done[key := attr];
    }
    ok := true;
    assert done == old(g2.edges);
  }

  method RankNodes(g1: GraphObject)
    modifies g1`nodes
    ensures g1.nodes == Ranked(old(g1.nodes), g1.edges)
  {
    var todo := g1.nodes.Keys;
    while todo != {}
      invariant todo <= g1.nodes.Keys == old(g1.nodes).Keys
      invariant forall n :: n in g1.nodes ==>
                  g1.nodes[n] == (if n in todo then old(g1.nodes)[n] else Ranked(old(g1.nodes), g1.edges)[n])
    {
      var n :| n in todo;
      todo := todo - {n};
      g1.nodes := g1.nodes[n := g1.nodes[n].(rank := Some(Degree(g1.edges, n)))];
    }
  }

  /**
    Merges graph g2 into g1 in place.  A common edge without a weight in the first graph breaks the
    merge off with all nodes and some edges merged, ranks and sources as they were.
   */
  method Merge(g1: GraphObject, g2: GraphObject, change: GraphChange)
    returns (ok: bool, ghost done: map<Pair, Edge>, ghost last: Pair)
    requires WellFormed(g1.Value()) && WellFormed(g2.Value())
    modifies g1, change
    ensures ok <==> Mergeable(old(g1.edges), old(g2.edges))
    ensures ok ==> g1.Value() == Merged(old(g1.Value()), old(g2.Value())) && WellFormed(g1.Value())
    ensures ok ==> change.addedUpdatedEdges == old(change.addedUpdatedEdges) + old(g2.edges).Keys
    ensures !ok ==> g1.nodes == MergeNodes(old(g1.nodes), old(g2.nodes)) && g1.sourceId == old(g1.sourceId)
    ensures !ok ==> BreaksOffAt(old(g1.edges), old(g2.edges), done, last)
    ensures !ok ==> PartOf(done, old(g2.edges)) && g1.edges == MergeEdges(old(g1.edges), done)
    ensures !ok ==> change.addedUpdatedEdges == old(change.addedUpdatedEdges) + done.Keys + {last}
    ensures change.addedUpdatedNodes == old(change.addedUpdatedNodes) + old(g2.nodes).Keys
    ensures change.removedNodes == old(change.removedNodes) && change.removedEdges == old(change.removedEdges)
  {
    MergeNodesInto(g1, g2, change);
    ok, done, last := MergeEdgesInto(g1, g2, change);
    if !ok {
      return;
    }
    RankNodes(g1);
    if g1.sourceId.None? {
      g1.sourceId := Some([]);
    }
    g1.sourceId := Some(g1.sourceId.value + if g2.sourceId.Some? then g2.sourceId.value else []);
    MergedIsWellFormed(old(g1.Value()), old(g2.Value()));
  }

  lemma MergedIsWellFormed(g1: Graph, g2: Graph)
    requires WellFormed(g1) && WellFormed(g2)
    ensures WellFormed(Merged(g1, g2))
  {
  }

  // ----- The change log is exact

  /** Nodes that are new or whose attributes differ, the rank included. */
  function ChangedNodes(g: Graph, h: Graph): set<string> {
    set n | n in h.nodes && (n !in g.nodes || g.nodes[n] != h.nodes[n])
  }

  function ChangedEdges(g: Graph, h: Graph): set<Pair> {
    set k | k in h.edges && (k !in g.edges || g.edges[k] != h.edges[k])
  }

  /** An edge of a graph touches only nodes of that graph, so it leaves the degrees of others alone. */
  lemma DegreeOutside(g1: Graph, g2: Graph, n: string)
    requires WellFormed(g2) && n !in g2.nodes
    ensures Degree(MergeEdges(g1.edges, g2.edges), n) == Degree(g1.edges, n)
  {
    var merged := MergeEdges(g1.edges, g2.edges);
    assert (set k | k in merged && Touches(k, n)) == (set k | k in g1.edges && Touches(k, n));
  }

  /**
    The log names exactly the nodes and edges that changed, if and only if every node outside the
    second graph carried its degree as its rank before.  Nothing is ever dropped.
   */
  lemma ChangeLogIsExactIff(g1: Graph, g2: Graph)
    requires WellFormed(g1) && WellFormed(g2)
    ensures ChangedEdges(g1, Merged(g1, g2)) == g2.edges.Keys
    ensures ChangedNodes(g1, Merged(g1, g2)) == g2.nodes.Keys <==>
            forall n :: StaleRank(g1, n) ==> n in g2.nodes
    ensures g1.nodes.Keys <= Merged(g1, g2).nodes.Keys && g1.edges.Keys <= Merged(g1, g2).edges.Keys
  {
    ChangedEdgesAre(g1, g2);
    ChangedNodesAre(g1, g2);
    var changed := ChangedNodes(g1, Merged(g1, g2));
    assert changed == g2.nodes.Keys <==> forall n :: StaleRank(g1, n) ==> n in g2.nodes;
  }

  lemma ChangedEdgesAre(g1: Graph, g2: Graph)
    ensures ChangedEdges(g1, Merged(g1, g2)) == g2.edges.Keys
  {
    forall k ensures k in ChangedEdges(g1, Merged(g1, g2)) <==> k in g2.edges {
      EdgeChanges(g1, g2, k);
    }
  }

  lemma ChangedNodesAre(g1: Graph, g2: Graph)
    requires WellFormed(g2)
    ensures forall n :: n in ChangedNodes(g1, Merged(g1, g2)) <==> n in g2.nodes || StaleRank(g1, n)
  {
    forall n ensures n in ChangedNodes(g1, Merged(g1, g2)) <==> n in g2.nodes || StaleRank(g1, n) {
      NodeChanges(g1, g2, n);
    }
  }

  /** The rank of a node is not its degree. */
  predicate StaleRank(g: Graph, n: string) {
    n in g.nodes && g.nodes[n].rank != Some(Degree(g.edges, n))
  }

  /** An entity that has not been ranked yet, merged with nothing: it changes and the log does not say so. */
  lemma StaleRankIsNotLogged()
    ensures var g := Graph(map["a" := Node("", [], None, map[])], map[], None);
            && WellFormed(g) && WellFormed(EmptyGraph)
            && ChangedNodes(g, Merged(g, EmptyGraph)) == {"a"} && EmptyGraph.nodes.Keys == {}
  {
    var g := Graph(map["a" := Node("", [], None, map[])], map[], None);
    forall n ensures n in ChangedNodes(g, Merged(g, EmptyGraph)) <==> n == "a" {
      NodeChanges(g, EmptyGraph, n);
    }
  }

  lemma EdgeChanges(g1: Graph, g2: Graph, k: Pair)
    ensures k in ChangedEdges(g1, Merged(g1, g2)) <==> k in g2.edges
  {
    if k in g1.edges && k in g2.edges {
      assert |CombineEdges(g1.edges[k], g2.edges[k]).description| > |g1.edges[k].description|;
    }
  }

  lemma NodeChanges(g1: Graph, g2: Graph, n: string)
    requires WellFormed(g2)
    ensures n in ChangedNodes(g1, Merged(g1, g2)) <==> n in g2.nodes || StaleRank(g1, n)
  {
    if n in g1.nodes && n in g2.nodes {
      assert |CombineNodes(g1.nodes[n], g2.nodes[n]).description| > |g1.nodes[n].description|;
    } else if n in g1.nodes {
      DegreeOutside(g1, g2, n);
    }
  }

  /** After a merge every rank is a degree again, so logs of later merges are exact. */
  lemma LogsStayExact(g1: Graph, g2: Graph, g3: Graph)
    requires WellFormed(g1) && WellFormed(g2) && WellFormed(g3)
    ensures ChangedNodes(Merged(g1, g2), Merged(Merged(g1, g2), g3)) == g3.nodes.Keys
    ensures ChangedEdges(Merged(g1, g2), Merged(Merged(g1, g2), g3)) == g3.edges.Keys
  {
    ChangeLogIsExactIff(Merged(g1, g2), g3);
  }

  /** The ranks of some nodes, added up; a node without a rank counts as zero. */
  ghost function SumOfRanks(ns: set<string>, nodes: map<string, Node>): int {
    if ns == {} then 0
    else
      var n := Pick(ns);
      (if n in nodes && nodes[n].rank.Some? then nodes[n].rank.value else 0) + SumOfRanks(ns - {n}, nodes)
  }

  lemma {:induction false} RanksAreDegrees(ns: set<string>, nodes: map<string, Node>, edges: map<Pair, Edge>)
    requires forall n :: n in ns ==> n in nodes && nodes[n].rank == Some(Degree(edges, n))
    ensures SumOfRanks(ns, nodes) == SumOfDegrees(ns, edges)
  {
    if ns != {} {
      RanksAreDegrees(ns - {Pick(ns)}, nodes, edges);
    }
  }

  /** After a merge the ranks of all nodes add up to twice the number of edges. */
  lemma RanksAddUp(g1: Graph, g2: Graph)
    requires WellFormed(g1) && WellFormed(g2)
    ensures var h := Merged(g1, g2); SumOfRanks(h.nodes.Keys, h.nodes) == 2 * |h.edges|
  {
    var h := Merged(g1, g2);
    MergedIsWellFormed(g1, g2);
    RanksAreDegrees(h.nodes.Keys, h.nodes, h.edges);
    DegreesAddUp(h.nodes.Keys, h.edges);
  }

  /**
    A merged node or edge: that of the only graph that has it, apart from the rank; or else the first
    graph's with its text continued, after a separator, by that of the second.
   */
  lemma MergedElements(g1: Graph, g2: Graph, n: string, k: Pair)
    ensures var h := Merged(g1, g2);
            && (n in h.nodes <==> n in g1.nodes || n in g2.nodes) && (k in h.edges <==> k in g1.edges || k in g2.edges)
            && (n in g1.nodes && n !in g2.nodes ==> h.nodes[n].(rank := None) == g1.nodes[n].(rank := None))
            && (n !in g1.nodes && n in g2.nodes ==> h.nodes[n].(rank := None) == g2.nodes[n].(rank := None))
            && (n in g1.nodes && n in g2.nodes ==>
                  && h.nodes[n].description == g1.nodes[n].description + "<SEP>" + g2.nodes[n].description
                  && h.nodes[n].sourceId == g1.nodes[n].sourceId + g2.nodes[n].sourceId
                  && h.nodes[n].other == g1.nodes[n].other)
            && (k in g1.edges && k !in g2.edges ==> h.edges[k] == g1.edges[k])
            && (k !in g1.edges && k in g2.edges ==> h.edges[k] == g2.edges[k])
            && (k in g1.edges && k in g2.edges ==>
                  && h.edges[k].weight == Some((if g1.edges[k].weight.Some? then g1.edges[k].weight.value else 0.0)
                                               + if g2.edges[k].weight.Some? then g2.edges[k].weight.value else 0.0)
                  && h.edges[k].description == g1.edges[k].description + "<SEP>" + g2.edges[k].description
                  && h.edges[k].keywords == g1.edges[k].keywords + g2.edges[k].keywords
                  && h.edges[k].sourceId == g1.edges[k].sourceId + g2.edges[k].sourceId
                  && h.edges[k].other == g1.edges[k].other)
            && h.sourceId == Some((if g1.sourceId.Some? then g1.sourceId.value else [])
                                  + if g2.sourceId.Some? then g2.sourceId.value else [])
  {
  }

  // ----- What is conserved

  function WeightAt(edges: map<Pair, Edge>, k: Pair): real {
    if k in edges then Weight(edges[k]) else 0.0
  }

  /** Sum of the weights of the edges whose keys are in ks. */
  ghost function SumWeights(ks: set<Pair>, edges: map<Pair, Edge>): real {
    if ks == {} then 0.0 else WeightAt(edges, Pick(ks)) + SumWeights(ks - {Pick(ks)}, edges)
  }

  ghost function TotalWeight(edges: map<Pair, Edge>): real { SumWeights(edges.Keys, edges) }

  lemma {:induction false} SumWithout(ks: set<Pair>, edges: map<Pair, Edge>, k: Pair)
    requires k in ks
    ensures SumWeights(ks, edges) == WeightAt(edges, k) + SumWeights(ks - {k}, edges)
  {
    var p := Pick(ks);
    if p != k {
      SumWithout(ks - {p}, edges, k);
      SumWithout(ks - {k}, edges, p);
      assert ks - {p} - {k} == ks - {k} - {p};
    }
  }

  lemma {:induction false} SumOverMore(ks: set<Pair>, edges: map<Pair, Edge>)
    requires edges.Keys <= ks
    ensures SumWeights(ks, edges) == TotalWeight(edges)
    decreases |ks|
  {
    if k :| k in ks && k !in edges {
      SumWithout(ks, edges, k);
      SumOverMore(ks - {k}, edges);
    } else {
      assert ks == edges.Keys;
    }
  }

  lemma {:induction false} SumOfSums(ks: set<Pair>, m: map<Pair, Edge>, a: map<Pair, Edge>, b: map<Pair, Edge>)
    requires forall k :: k in ks ==> WeightAt(m, k) == WeightAt(a, k) + WeightAt(b, k)
    ensures SumWeights(ks, m) == SumWeights(ks, a) + SumWeights(ks, b)
  {
    if ks != {} {
      SumOfSums(ks - {Pick(ks)}, m, a, b);
    }
  }

  lemma WeightIsConserved(e1: map<Pair, Edge>, e2: map<Pair, Edge>)
    ensures TotalWeight(MergeEdges(e1, e2)) == TotalWeight(e1) + TotalWeight(e2)
  {
    var ks := e1.Keys + e2.Keys;
    SumOfSums(ks, MergeEdges(e1, e2), e1, e2);
    SumOverMore(ks, e1);
    SumOverMore(ks, e2);
  }

  function NodeSources(g: Graph, n: string): multiset<string> {
    if n in g.nodes then multiset(g.nodes[n].sourceId) else multiset{}
  }

  function EdgeSources(g: Graph, k: Pair): multiset<string> {
    if k in g.edges then multiset(g.edges[k].sourceId) else multiset{}
  }

  /** Merging adds up edge weights and the source multisets of every node, edge and the graph. */
  lemma MergeConserves(g1: Graph, g2: Graph)
    ensures TotalWeight(Merged(g1, g2).edges) == TotalWeight(g1.edges) + TotalWeight(g2.edges)
    ensures forall n :: NodeSources(Merged(g1, g2), n) == NodeSources(g1, n) + NodeSources(g2, n)
    ensures forall k :: EdgeSources(Merged(g1, g2), k) == EdgeSources(g1, k) + EdgeSources(g2, k)
    ensures multiset(Sources(Merged(g1, g2).sourceId)) ==
            multiset(Sources(g1.sourceId)) + multiset(Sources(g2.sourceId))
  {
    WeightIsConserved(g1.edges, g2.edges);
  }

  // ----- Merging is associative

  lemma CombineIsAssociative(x: Node, y: Node, z: Node, a: Edge, b: Edge, c: Edge)
    ensures CombineNodes(CombineNodes(x, y), z) == CombineNodes(x, CombineNodes(y, z))
    ensures CombineEdges(CombineEdges(a, b), c) == CombineEdges(a, CombineEdges(b, c))
  {
    JoinIsAssociative(x.description, y.description, z.description);
    JoinIsAssociative(a.description, b.description, c.description);
    assert (x.sourceId + y.sourceId) + z.sourceId == x.sourceId + (y.sourceId + z.sourceId);
    assert (a.sourceId + b.sourceId) + c.sourceId == a.sourceId + (b.sourceId + c.sourceId);
    assert (a.keywords + b.keywords) + c.keywords == a.keywords + (b.keywords + c.keywords);
  }

  lemma JoinIsAssociative(s: string, t: string, u: string)
    ensures (s + GRAPH_FIELD_SEP + t) + GRAPH_FIELD_SEP + u == s + GRAPH_FIELD_SEP + (t + GRAPH_FIELD_SEP + u)
  {
  }

  lemma MergeEdgesAssociates(a: map<Pair, Edge>, b: map<Pair, Edge>, c: map<Pair, Edge>)
    ensures MergeEdges(MergeEdges(a, b), c) == MergeEdges(a, MergeEdges(b, c))
  {
    var l, r := MergeEdges(MergeEdges(a, b), c), MergeEdges(a, MergeEdges(b, c));
    assert l.Keys == r.Keys;
    forall k | k in l ensures l[k] == r[k] {
      if k in a && k in b && k in c {
        var x: Node := Node("", [], None, map[]);
        CombineIsAssociative(x, x, x, a[k], b[k], c[k]);
      }
    }
  }

  /** The merged node, whatever rank its parts carry. */
  lemma NodeAssociates(a: map<string, Node>, b: map<string, Node>, c: map<string, Node>,
                       l: map<string, Node>, r: map<string, Node>, n: string, i: int, j: int)
    requires (n in l <==> n in a || n in b) && (n in l ==> l[n] == NodeAt(a, b, n).(rank := Some(i)))
    requires (n in r <==> n in b || n in c) && (n in r ==> r[n] == NodeAt(b, c, n).(rank := Some(j)))
    requires n in l || n in c
    ensures NodeAt(l, c, n).(rank := None) == NodeAt(a, r, n).(rank := None)
  {
    if n in a && n in b && n in c {
      var x := Edge(None, "", [], [], map[]);
      CombineIsAssociative(a[n], b[n], c[n], x, x, x);
    }
  }

  lemma MergedNodeAssociates(a: map<string, Node>, b: map<string, Node>, c: map<string, Node>,
                             ab: string -> int, bc: string -> int, n: string)
    requires n in a || n in b || n in c
    ensures var l, r := WithRanks(MergeNodes(a, b), ab), WithRanks(MergeNodes(b, c), bc);
            MergeNodes(l, c)[n].(rank := None) == MergeNodes(a, r)[n].(rank := None)
  {
    var l, r := WithRanks(MergeNodes(a, b), ab), WithRanks(MergeNodes(b, c), bc);
    NodeAssociates(a, b, c, l, r, n, ab(n), bc(n));
  }

  lemma SameUpToRanks(x: map<string, Node>, y: map<string, Node>, rank: string -> int)
    requires x.Keys == y.Keys
    requires forall n :: n in x ==> x[n].(rank := None) == y[n].(rank := None)
    ensures WithRanks(x, rank) == WithRanks(y, rank)
  {
    forall n | n in x ensures WithRanks(x, rank)[n] == WithRanks(y, rank)[n] {
      assert x[n].(rank := Some(rank(n))) == x[n].(rank := None).(rank := Some(rank(n)));
      assert y[n].(rank := Some(rank(n))) == y[n].(rank := None).(rank := Some(rank(n)));
    }
  }

  lemma MergeNodesAssociates(a: map<string, Node>, b: map<string, Node>, c: map<string, Node>,
                             ab: string -> int, bc: string -> int, abc: string -> int)
    ensures WithRanks(MergeNodes(WithRanks(MergeNodes(a, b), ab), c), abc) ==
            WithRanks(MergeNodes(a, WithRanks(MergeNodes(b, c), bc)), abc)
  {
    var x, y := MergeNodes(WithRanks(MergeNodes(a, b), ab), c), MergeNodes(a, WithRanks(MergeNodes(b, c), bc));
    assert x.Keys == y.Keys;
    forall n | n in x ensures x[n].(rank := None) == y[n].(rank := None) {
      MergedNodeAssociates(a, b, c, ab, bc, n);
    }
    SameUpToRanks(x, y, abc);
  }

  lemma MergedNodesAssociate(g1: Graph, g2: Graph, g3: Graph)
    ensures Merged(Merged(g1, g2), g3).nodes == Merged(g1, Merged(g2, g3)).nodes
  {
    MergeEdgesAssociates(g1.edges, g2.edges, g3.edges);
    var ab, bc := MergeEdges(g1.edges, g2.edges), MergeEdges(g2.edges, g3.edges);
    var abc := MergeEdges(ab, g3.edges);
    MergeNodesAssociates(g1.nodes, g2.nodes, g3.nodes, n => Degree(ab, n), n => Degree(bc, n), n => Degree(abc, n));
  }

  lemma SourcesAssociate(a: seq<string>, b: seq<string>, c: seq<string>)
    ensures (a + b) + c == a + (b + c)
  {
  }

  /** Merging three graphs gives one result however the merges are grouped, ranks included. */
  lemma MergeIsAssociative(g1: Graph, g2: Graph, g3: Graph)
    ensures Merged(Merged(g1, g2), g3) == Merged(g1, Merged(g2, g3))
  {
    var l, r := Merged(Merged(g1, g2), g3), Merged(g1, Merged(g2, g3));
    assert l.edges == r.edges by { MergeEdgesAssociates(g1.edges, g2.edges, g3.edges); }
    assert l.nodes == r.nodes by { MergedNodesAssociate(g1, g2, g3); }
    assert l.sourceId == r.sourceId by {
      SourcesAssociate(Sources(g1.sourceId), Sources(g2.sourceId), Sources(g3.sourceId));
    }
  }
}
