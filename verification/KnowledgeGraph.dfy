/** The knowledge graph shared by merging, storing and rebuilding (repos/ragflow/graphrag/utils.py). */
module KnowledgeGraph {
  import opened Basics

  /** Attributes of an entity; `other` stands for those that no operation here looks at. */
  datatype Node = Node(description: string, sourceId: seq<string>, rank: Option<int>, other: map<string, string>)

  datatype Edge = Edge(weight: Option<real>, description: string, keywords: seq<string>,
                       sourceId: seq<string>, other: map<string, string>)

  type Pair = (string, string)

  /** An undirected graph: an edge is stored under its normalised pair of end points. */
  datatype Graph = Graph(nodes: map<string, Node>, edges: map<Pair, Edge>, sourceId: Option<seq<string>>)

  const EmptyGraph := Graph(map[], map[], None)

  /** Python's order on strings, by code points. */
  predicate Less(a: string, b: string) {
    b != [] && (a == [] || a[0] < b[0] || (a[0] == b[0] && Less(a[1..], b[1..])))
  }

  lemma {:induction false} LessIsTotal(a: string, b: string)
    ensures a == b || Less(a, b) || Less(b, a)
    ensures !(Less(a, b) && Less(b, a))
  {
    if a != [] && b != [] && a[0] == b[0] {
      LessIsTotal(a[1..], b[1..]);
      assert a == [a[0]] + a[1..] && b == [b[0]] + b[1..];
    }
  }

  predicate Agree(a: string, b: string, i: nat)
    requires i <= |a| && i <= |b|
  {
    forall j :: 0 <= j < i ==> a[j] == b[j]
  }

  /** a is before b exactly if it is a proper prefix of b, or smaller at the first position where they differ. */
  lemma {:induction false} LessIsLexicographic(a: string, b: string)
    ensures Less(a, b) <==> exists i :: 0 <= i <= |a| && i < |b| && Agree(a, b, i) && (i == |a| || a[i] < b[i])
  {
    if a != [] && b != [] && a[0] == b[0] {
      var a', b' := a[1..], b[1..];
      LessIsLexicographic(a', b');
      if Less(a, b) {
        var i :| 0 <= i <= |a'| && i < |b'| && Agree(a', b', i) && (i == |a'| || a'[i] < b'[i]);
        assert Agree(a, b, i + 1) by {
          assert forall j :: 0 < j <= i ==> a[j] == a'[j - 1] && b[j] == b'[j - 1];
        }
      }
      if i :| 0 <= i <= |a| && i < |b| && Agree(a, b, i) && (i == |a| || a[i] < b[i]) {
        assert Agree(a', b', i - 1);
      }
    } else if a == [] || (b != [] && a[0] < b[0]) {
      assert b != [] ==> Agree(a, b, 0);
    }
  }

  function GetFromTo(node1: string, node2: string): Pair {
    if Less(node1, node2) then (node1, node2) else (node2, node1)
  }

  /** Two pairs have one normal form exactly when they join the same two nodes. */
  lemma FromToIdentifiesEdges(a: string, b: string, c: string, d: string)
    ensures GetFromTo(a, b) == GetFromTo(c, d) <==> (a, b) == (c, d) || (a, b) == (d, c)
    ensures GetFromTo(a, b).0 == GetFromTo(a, b).1 || Less(GetFromTo(a, b).0, GetFromTo(a, b).1)
    ensures GetFromTo(GetFromTo(a, b).0, GetFromTo(a, b).1) == GetFromTo(a, b)
  {
    LessIsTotal(a, b);
    LessIsTotal(c, d);
  }

  predicate Normal(k: Pair) { k == GetFromTo(k.0, k.1) }

  predicate WellFormed(g: Graph) {
    && (forall k {:trigger Normal(k)} :: k in g.edges ==> Normal(k))
    && (forall k :: k in g.edges ==> k.0 in g.nodes && k.1 in g.nodes)
  }

  predicate Touches(k: Pair, n: string) { k.0 == n || k.1 == n }

  /** Number of edge ends at a node: a self-loop counts twice. */
  function Degree(edges: map<Pair, Edge>, n: string): nat {
    |set k | k in edges && Touches(k, n)| + if (n, n) in edges then 1 else 0
  }

  /** A new edge raises the degrees of its two ends by one each: that of a self-loop by two. */
  lemma DegreeOfOneMore(edges: map<Pair, Edge>, k: Pair, e: Edge, n: string)
    requires k !in edges
    ensures Degree(map[], n) == 0
    ensures Degree(edges[k := e], n) ==
            Degree(edges, n) + (if k.0 == n then 1 else 0) + (if k.1 == n then 1 else 0)
  {
    var more := edges[k := e];
    var before, after := set j | j in edges && Touches(j, n), set j | j in more && Touches(j, n);
    assert after == before + if Touches(k, n) then {k} else {};
    var none: map<Pair, Edge> := map[];
    assert (set j | j in none && Touches(j, n)) == {};
    assert (n, n) in more <==> (n, n) in edges || k == (n, n);
  }

  /** The degrees of some nodes, added up. */
  ghost function SumOfDegrees(ns: set<string>, edges: map<Pair, Edge>): nat {
    if ns == {} then 0
    else
      var n := Pick(ns);
      Degree(edges, n) + SumOfDegrees(ns - {n}, edges)
  }

  lemma {:induction false} SumOfOneMore(ns: set<string>, edges: map<Pair, Edge>, k: Pair, e: Edge)
    requires k !in edges
    ensures SumOfDegrees(ns, edges[k := e]) ==
            SumOfDegrees(ns, edges) + (if k.0 in ns then 1 else 0) + (if k.1 in ns then 1 else 0)
  {
    if ns != {} {
      var n := Pick(ns);
      SumOfOneMore(ns - {n}, edges, k, e);
      DegreeOfOneMore(edges, k, e, n);
    }
  }

  lemma {:induction false} SumOfNone(ns: set<string>)
    ensures SumOfDegrees(ns, map[]) == 0
  {
    if ns != {} {
      SumOfNone(ns - {Pick(ns)});
      DegreeOfOneMore(map[], ("", ""), Edge(None, "", [], [], map[]), Pick(ns));
    }
  }

  /** All degrees add up to twice the number of edges. */
  lemma {:induction false} DegreesAddUp(ns: set<string>, edges: map<Pair, Edge>)
    requires forall k :: k in edges ==> k.0 in ns && k.1 in ns
    ensures SumOfDegrees(ns, edges) == 2 * |edges|
    decreases |edges|
  {
    if edges == map[] {
      SumOfNone(ns);
    } else {
      var k :| k in edges;
      var rest := edges - {k};
      assert edges == rest[k := edges[k]];
      DegreesAddUp(ns, rest);
      SumOfOneMore(ns, rest, k, edges[k]);
    }
  }
}
