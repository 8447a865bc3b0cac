/**
  Storing a graph as one induced subgraph per source and rebuilding it from those subgraphs
  (repos/ragflow/graphrag/utils.py, `set_graph` and `rebuild_graph`).

  The main result is the round trip: whatever the order in which the store returns the subgraphs and
  whichever sources are excluded, the rebuilt graph is the original one restricted to the sources read.
 */
module GraphShards {
  import opened Basics
  import opened KnowledgeGraph

  datatype Kind = WholeGraph | Subgraph | OtherKind

  /** A chunk of the document store; `content` stands for the graph that its JSON text denotes. */
  datatype Chunk = Chunk(kind: Kind, content: Graph, sourceId: seq<string>)

  /** The `exclude_rebuild` argument: nothing, one source, or a list of sources. */
  datatype Exclusion = ExcludeNone | ExcludeOne(source: string) | ExcludeAll(sources: seq<string>)

  const PAGE := 256
  const PAGES := 1024
  const BULK := 4

  // ----- What a stored subgraph is

  predicate HasSource(g: Graph, n: string, s: string) {
    n in g.nodes && s in g.nodes[n].sourceId
  }

  predicate ShareSource(g: Graph, k: Pair, s: string) {
    HasSource(g, k.0, s) && HasSource(g, k.1, s)
  }

  /** The subgraph induced by the nodes of one source. */
  function Shard(g: Graph, s: string): Graph {
    Graph(map n | n in g.nodes && HasSource(g, n, s) :: g.nodes[n].(sourceId := [s]),
          map k | k in g.edges && ShareSource(g, k, s) :: g.edges[k],
          Some([s]))
  }

  function ShardChunk(g: Graph, s: string): Chunk { Chunk(Subgraph, Shard(g, s), [s]) }

  function ShardChunks(g: Graph, order: seq<string>): (r: seq<Chunk>)
    ensures |r| == |order|
  {
    if order == [] then [] else ShardChunks(g, order[..|order| - 1]) + [ShardChunk(g, order[|order| - 1])]
  }

  lemma ShardsSnoc(g: Graph, order: seq<string>, s: string)
    ensures ShardChunks(g, order + [s]) == ShardChunks(g, order) + [ShardChunk(g, s)]
  {
    assert (order + [s])[..|order|] == order;
  }

  // ----- Storing

  class DocStore {
    var chunks: seq<Chunk>
    // how many batches the store has refused
    ghost var refusals: nat

    constructor ()
      ensures chunks == [] && refusals == 0
    {
      chunks, refusals := [], 0;
    }

    method DeleteGraphs()
      modifies this`chunks
      ensures chunks == Others(old(chunks))
    {
      ghost var before := chunks;
      var kept := [];
      for i := 0 to |chunks|
        invariant chunks == before && kept == Others(before[..i])
      {
        assert before[..i + 1][..i] == before[..i];
        if chunks[i].kind == OtherKind {
          kept := kept + [chunks[i]];
        }
      }
      assert before[..|before|] == before;
      chunks := kept;
    }

    /** Deletes entity and relation chunks. */
    method DeleteEntries(removed: Chunk -> bool)
      modifies this`chunks
      ensures chunks == Retained(old(chunks), removed)
    {
      ghost var before := chunks;
      var kept := [];
      for i := 0 to |chunks|
        invariant chunks == before && kept == Retained(before[..i], removed)
      {
        assert before[..i + 1][..i] == before[..i];
        if !(chunks[i].kind == OtherKind && removed(chunks[i])) {
          kept := kept + [chunks[i]];
        }
      }
      assert before[..|before|] == before;
      chunks := kept;
    }

    /** Appends a batch, or refuses it whole. */
    method Insert(batch: seq<Chunk>) returns (ok: bool)
      modifies this
      ensures chunks == if ok then old(chunks) + batch else old(chunks)
      ensures refusals == old(refusals) + if ok then 0 else 1
    {
      ok := *;
      if ok {
        chunks := chunks + batch;
      } else {
        refusals := refusals + 1;
      }
    }
  }

  /** The chunks that are neither a whole graph nor a subgraph. */
  function Others(chunks: seq<Chunk>): seq<Chunk> {
    if chunks == [] then []
    else
      var n := |chunks| - 1;
      Others(chunks[..n]) + if chunks[n].kind == OtherKind then [chunks[n]] else []
  }

  /** The chunks left when some entity and relation chunks are deleted. */
  function Retained(chunks: seq<Chunk>, removed: Chunk -> bool): seq<Chunk> {
    if chunks == [] then []
    else
      var n := |chunks| - 1;
      Retained(chunks[..n], removed)
      + if chunks[n].kind == OtherKind && removed(chunks[n]) then [] else [chunks[n]]
  }

  /** Neither graph nor subgraph chunks. */
  predicate NoGraphs(chunks: seq<Chunk>) { forall i :: 0 <= i < |chunks| ==> chunks[i].kind == OtherKind }

  /** What is left in the store before the new chunks are inserted. */
  function Emptied(chunks: seq<Chunk>, removed: Chunk -> bool): seq<Chunk> { Retained(Others(chunks), removed) }

  /** Exactly the chunks that are neither graph nor subgraph are left, as often as they were there. */
  lemma {:induction false} OthersAre(chunks: seq<Chunk>, c: Chunk)
    ensures multiset(Others(chunks))[c] == if c.kind.WholeGraph? || c.kind.Subgraph? then 0 else multiset(chunks)[c]
  {
    if chunks != [] {
      var n := |chunks| - 1;
      OthersAre(chunks[..n], c);
      assert multiset(chunks) == multiset(chunks[..n]) + multiset{chunks[n]} by {
        assert chunks == chunks[..n] + [chunks[n]];
      }
    }
  }

  /** And of these, exactly those that are not to be removed. */
  lemma {:induction false} RetainedAre(chunks: seq<Chunk>, removed: Chunk -> bool, c: Chunk)
    ensures multiset(Retained(chunks, removed))[c] ==
            if !c.kind.WholeGraph? && !c.kind.Subgraph? && removed(c) then 0 else multiset(chunks)[c]
  {
    if chunks != [] {
      var n := |chunks| - 1;
      RetainedAre(chunks[..n], removed, c);
      assert multiset(chunks) == multiset(chunks[..n]) + multiset{chunks[n]} by {
        assert chunks == chunks[..n] + [chunks[n]];
      }
    }
  }

  /** Before the insertion: graph and subgraph chunks are gone, entries to be removed too, and nothing else. */
  lemma EmptiedAre(chunks: seq<Chunk>, removed: Chunk -> bool, c: Chunk)
    ensures multiset(Emptied(chunks, removed))[c] ==
            if c.kind.WholeGraph? || c.kind.Subgraph? || removed(c) then 0 else multiset(chunks)[c]
  {
    OthersAre(chunks, c);
    RetainedAre(Others(chunks), removed, c);
  }

  /** The graph chunk and the subgraph chunks that replace those of earlier versions. */
  function GraphChunks(g: Graph): seq<Chunk>
    requires g.sourceId.Some?
  {
    [Chunk(WholeGraph, g, g.sourceId.value)] + ShardChunks(g, g.sourceId.value)
  }

  method BuildShard(g: Graph, source: string) returns (chunk: Chunk)
    ensures chunk == ShardChunk(g, source)
  {
    var members := set n | n in g.nodes && source in g.nodes[n].sourceId;
    var subgraph := Graph(map n | n in members :: g.nodes[n].(sourceId := [source]),
                          map k | k in g.edges && k.0 in members && k.1 in members :: g.edges[k],
                          Some([source]));
    assert subgraph.nodes == Shard(g, source).nodes && subgraph.edges == Shard(g, source).edges;
    chunk := Chunk(Subgraph, subgraph, [source]);
  }

  method BuildChunks(g: Graph) returns (chunks: seq<Chunk>)
    requires g.sourceId.Some?
    ensures chunks == GraphChunks(g)
  {
    var sources := g.sourceId.value;
    chunks := [Chunk(WholeGraph, g, sources)];
    for i := 0 to |sources|
      invariant chunks == [Chunk(WholeGraph, g, sources)] + ShardChunks(g, sources[..i])
    {
      assert sources[..i + 1][..i] == sources[..i];
      var chunk := BuildShard(g, sources[i]);
      chunks := chunks + [chunk];
    }
    assert sources[..|sources|] == sources;
  }

  /** Inserts in batches; the first refused batch ends the call. */
  method InsertAll(store: DocStore, chunks: seq<Chunk>) returns (ok: bool)
    modifies store
    ensures store.refusals == old(store.refusals) + if ok then 0 else 1
    ensures ok ==> store.chunks == old(store.chunks) + chunks
    ensures !ok ==> exists m :: 0 <= m * 4 < |chunks| && store.chunks == old(store.chunks) + chunks[..m * 4]
  {
    var b := 0;
    while b * BULK < |chunks|
      invariant 0 <= b && store.chunks == old(store.chunks) + chunks[..Min(b * BULK, |chunks|)]
      invariant store.refusals == old(store.refusals)
      decreases |chunks| - b * BULK
    {
      var upper := Min((b + 1) * BULK, |chunks|);
      ok := store.Insert(chunks[b * BULK..upper]);
      if !ok {
        return;
      }
      assert chunks[..b * BULK] + chunks[b * BULK..upper] == chunks[..upper];
      b := b + 1;
    }
    ok := true;
  }

  /**
    `set_graph`.  Earlier graph and subgraph chunks are gone in any case, and so are the entries of
    removed nodes and edges; the new graph and subgraph chunks and the entries of updated nodes and
    edges are inserted in batches, and the first refused batch ends the call with an exception.
   */
  method SetGraph(store: DocStore, g: Graph, removed: Chunk -> bool, updates: seq<Chunk>) returns (ok: bool)
    requires g.sourceId.Some? && NoGraphs(updates)
    modifies store
    ensures store.refusals == old(store.refusals) + if ok then 0 else 1
    ensures ok ==> store.chunks == Emptied(old(store.chunks), removed) + (GraphChunks(g) + updates)
    ensures !ok ==> exists m :: 0 <= m * 4 < |GraphChunks(g) + updates|
                      && store.chunks == Emptied(old(store.chunks), removed) + (GraphChunks(g) + updates)[..m * 4]
  {
    store.DeleteGraphs();
    store.DeleteEntries(removed);
    var chunks := BuildChunks(g);
    ok := InsertAll(store, chunks + updates);
  }

  // ----- Rebuilding

  predicate Excluded(x: Exclusion, ids: seq<string>) {
    match x
    case ExcludeNone => false
    case ExcludeOne(s) => s in ids
    case ExcludeAll(ss) => exists i :: 0 <= i < |ss| && ss[i] in ids
  }

  /** Attributes of y over those of x, as `nx.compose` takes them. */
  function UpdateNode(x: Node, y: Node): Node {
    Node(y.description, y.sourceId, if y.rank.Some? then y.rank else x.rank, x.other + y.other)
  }

  function UpdateEdge(x: Edge, y: Edge): Edge {
    Edge(if y.weight.Some? then y.weight else x.weight, y.description, y.keywords, y.sourceId, x.other + y.other)
  }

  /** `nx.compose` followed by joining the source lists of common nodes and of the graphs. */
  function Compose(g: Graph, h: Graph): Graph {
    Graph(
      map n | n in g.nodes.Keys + h.nodes.Keys ::
        if n !in h.nodes then g.nodes[n] else if n !in g.nodes then h.nodes[n]
        else UpdateNode(g.nodes[n], h.nodes[n]).(sourceId := g.nodes[n].sourceId + h.nodes[n].sourceId),
      map k | k in g.edges.Keys + h.edges.Keys ::
        if k !in h.edges then g.edges[k] else if k !in g.edges then h.edges[k]
        else UpdateEdge(g.edges[k], h.edges[k]),
      if g.sourceId.Some? && h.sourceId.Some? then Some(g.sourceId.value + h.sourceId.value) else h.sourceId)
  }

  /** The graph accumulated over the chunks read so far. */
  function Accumulate(read: seq<Chunk>, x: Exclusion): Graph {
    if read == [] then EmptyGraph
    else
      var n := |read| - 1;
      var before := Accumulate(read[..n], x);
      if Excluded(x, read[n].sourceId) then before else Compose(before, read[n].content)
  }

  lemma AccumulateSnoc(read: seq<Chunk>, d: Chunk, x: Exclusion)
    ensures Accumulate(read + [d], x) ==
            if Excluded(x, d.sourceId) then Accumulate(read, x) else Compose(Accumulate(read, x), d.content)
  {
    assert (read + [d])[..|read|] == read;
  }

  /** A chunk is left out exactly if one of its sources is the one, or among those, to be excluded. */
  lemma LeftOutIff(read: seq<Chunk>, d: Chunk, x: Exclusion)
    ensures var out := (x.ExcludeOne? && x.source in d.sourceId)
                       || (x.ExcludeAll? && exists s :: s in x.sources && s in d.sourceId);
            Accumulate(read + [d], x) ==
            if out then Accumulate(read, x) else Compose(Accumulate(read, x), d.content)
  {
    AccumulateSnoc(read, d, x);
    if x.ExcludeAll? {
      if s :| s in x.sources && s in d.sourceId {
        var i :| 0 <= i < |x.sources| && x.sources[i] == s;
      }
      if i :| 0 <= i < |x.sources| && x.sources[i] in d.sourceId {
        assert x.sources[i] in x.sources;
      }
    }
  }

  /** Composing: nodes and edges of both; where both have one, the second's attributes win and sources are joined. */
  lemma ComposedElements(g: Graph, h: Graph, n: string, k: Pair)
    ensures var c := Compose(g, h);
            && (n in c.nodes <==> n in g.nodes || n in h.nodes) && (k in c.edges <==> k in g.edges || k in h.edges)
            && (n in g.nodes && n !in h.nodes ==> c.nodes[n] == g.nodes[n])
            && (n !in g.nodes && n in h.nodes ==> c.nodes[n] == h.nodes[n])
            && (n in g.nodes && n in h.nodes ==>
                  && c.nodes[n].description == h.nodes[n].description
                  && c.nodes[n].sourceId == g.nodes[n].sourceId + h.nodes[n].sourceId
                  && c.nodes[n].rank == (if h.nodes[n].rank.Some? then h.nodes[n].rank else g.nodes[n].rank)
                  && c.nodes[n].other == g.nodes[n].other + h.nodes[n].other)
            && (k in g.edges && k !in h.edges ==> c.edges[k] == g.edges[k])
            && (k !in g.edges && k in h.edges ==> c.edges[k] == h.edges[k])
            && (k in g.edges && k in h.edges ==>
                  && c.edges[k].description == h.edges[k].description && c.edges[k].keywords == h.edges[k].keywords
                  && c.edges[k].weight == (if h.edges[k].weight.Some? then h.edges[k].weight else g.edges[k].weight)
                  && c.edges[k].sourceId == h.edges[k].sourceId
                  && c.edges[k].other == g.edges[k].other + h.edges[k].other)
  {
  }

  predicate LessEq(a: string, b: string) { a == b || Less(a, b) }

  function InsertSorted(a: string, s: seq<string>): seq<string> {
    if s == [] || LessEq(a, s[0]) then [a] + s else [s[0]] + InsertSorted(a, s[1..])
  }

  function Sort(s: seq<string>): seq<string> {
    if s == [] then [] else InsertSorted(s[0], Sort(s[1..]))
  }

  /** What `rebuild_graph` makes of the accumulated graph. */
  function Finish(g: Graph): Option<Graph> {
    if g.nodes == map[] then None
    else Some(g.(sourceId := Some(Sort(if g.sourceId.Some? then g.sourceId.value else []))))
  }

  /** The part of a result list that the paging loop can reach. */
  function Reachable<T>(hits: seq<T>): seq<T> { hits[..Min(|hits|, PAGES * PAGE)] }

  method AddPage(graph: Graph, page: seq<Chunk>, exclude: Exclusion, ghost before: seq<Chunk>) returns (g: Graph)
    requires graph == Accumulate(before, exclude)
    ensures g == Accumulate(before + page, exclude)
  {
    g := graph;
    assert before + page[..0] == before;
    for i := 0 to |page|
      invariant g == Accumulate(before + page[..i], exclude)
    {
      var d := page[i];
      AccumulateSnoc(before + page[..i], d, exclude);
      assert before + page[..i + 1] == before + page[..i] + [d];
      if !Excluded(exclude, d.sourceId) {
        g := Compose(g, d.content);
      }
    }
    assert page[..|page|] == page;
  }

  /** Reads the subgraph chunks page by page, in the order in which the store returns them. */
  method RebuildGraph(hits: seq<Chunk>, exclude: Exclusion) returns (r: Option<Graph>)
    ensures r == Finish(Accumulate(Reachable(hits), exclude))
  {
    var graph := EmptyGraph;
    var p := 0;
    while p < PAGES
      invariant 0 <= p <= PAGES
      invariant graph == Accumulate(hits[..Min(|hits|, p * PAGE)], exclude)
    {
      var lo, hi := Min(|hits|, p * PAGE), Min(|hits|, (p + 1) * PAGE);
      var page := hits[lo..hi];
      if |page| == 0 {
        assert lo == |hits| == Min(|hits|, PAGES * PAGE);
        break;
      }
      graph := AddPage(graph, page, exclude, hits[..lo]);
      assert hits[..lo] + page == hits[..hi];
      p := p + 1;
    }
    if graph.nodes == map[] {
      return None;
    }
    return Some(graph.(sourceId := Some(Sort(if graph.sourceId.Some? then graph.sourceId.value else []))));
  }

  // ----- The round trip

  /** The sources in order that are not excluded. */
  function Kept(order: seq<string>, x: Exclusion): seq<string> {
    if order == [] then []
    else
      var n := |order| - 1;
      Kept(order[..n], x) + if Excluded(x, [order[n]]) then [] else [order[n]]
  }

  /** The sources in order that node n has. */
  function SourcesOf(g: Graph, n: string, order: seq<string>): seq<string> {
    if order == [] then []
    else
      var m := |order| - 1;
      SourcesOf(g, n, order[..m]) + if HasSource(g, n, order[m]) then [order[m]] else []
  }

  predicate NodeRemains(g: Graph, n: string, order: seq<string>) {
    exists i :: 0 <= i < |order| && HasSource(g, n, order[i])
  }

  predicate EdgeRemains(g: Graph, k: Pair, order: seq<string>) {
    exists i :: 0 <= i < |order| && ShareSource(g, k, order[i])
  }

  /**
    The graph restricted to a list of sources: the nodes that have one of them, each listing exactly
    those, and the edges whose end points have one in common; all other attributes as they were.
   */
  function Restrict(g: Graph, order: seq<string>): Graph {
    Graph(map n | n in g.nodes && NodeRemains(g, n, order) :: g.nodes[n].(sourceId := SourcesOf(g, n, order)),
          map k | k in g.edges && EdgeRemains(g, k, order) :: g.edges[k],
          if order == [] then None else Some(order))
  }

  lemma RemainsStep(g: Graph, n: string, k: Pair, order: seq<string>, s: string)
    ensures NodeRemains(g, n, order + [s]) <==> NodeRemains(g, n, order) || HasSource(g, n, s)
    ensures EdgeRemains(g, k, order + [s]) <==> EdgeRemains(g, k, order) || ShareSource(g, k, s)
    ensures SourcesOf(g, n, order + [s]) == SourcesOf(g, n, order) + if HasSource(g, n, s) then [s] else []
  {
    var longer := order + [s];
    assert longer[..|order|] == order && longer[|order|] == s;
    if NodeRemains(g, n, order) {
      var i :| 0 <= i < |order| && HasSource(g, n, order[i]);
      assert HasSource(g, n, longer[i]);
    }
    if EdgeRemains(g, k, order) {
      var i :| 0 <= i < |order| && ShareSource(g, k, order[i]);
      assert ShareSource(g, k, longer[i]);
    }
  }

  lemma {:induction false} NoSourcesIffGone(g: Graph, n: string, order: seq<string>)
    ensures SourcesOf(g, n, order) == [] <==> !NodeRemains(g, n, order)
  {
    if order != [] {
      var m := |order| - 1;
      NoSourcesIffGone(g, n, order[..m]);
      RemainsStep(g, n, ("", ""), order[..m], order[m]);
      assert order[..m] + [order[m]] == order;
    }
  }

  lemma UpdateWithSame(x: Node, a: seq<string>, b: seq<string>, e: Edge)
    ensures UpdateNode(x.(sourceId := a), x.(sourceId := b)) == x.(sourceId := b)
    ensures UpdateEdge(e, e) == e
  {
    assert x.other + x.other == x.other && e.other + e.other == e.other;
  }

  lemma ComposeShardNode(g: Graph, order: seq<string>, s: string, n: string)
    ensures var l, r := Compose(Restrict(g, order), Shard(g, s)).nodes, Restrict(g, order + [s]).nodes;
            (n in l <==> n in r) && (n in l ==> l[n] == r[n])
  {
    RemainsStep(g, n, ("", ""), order, s);
    NoSourcesIffGone(g, n, order);
    if n in g.nodes {
      UpdateWithSame(g.nodes[n], SourcesOf(g, n, order), [s], Edge(None, "", [], [], map[]));
    }
  }

  lemma ComposeShardEdge(g: Graph, order: seq<string>, s: string, k: Pair)
    ensures var l, r := Compose(Restrict(g, order), Shard(g, s)).edges, Restrict(g, order + [s]).edges;
            (k in l <==> k in r) && (k in l ==> l[k] == r[k])
  {
    RemainsStep(g, "", k, order, s);
    if k in g.edges {
      UpdateWithSame(Node("", [], None, map[]), [], [], g.edges[k]);
    }
  }

  lemma EqualMaps<K, V>(l: map<K, V>, r: map<K, V>)
    requires forall k :: (k in l <==> k in r)
    requires forall k :: k in l && k in r ==> l[k] == r[k]
    ensures l == r
  {
  }

  lemma ComposeShardNodes(g: Graph, order: seq<string>, s: string)
    ensures Compose(Restrict(g, order), Shard(g, s)).nodes == Restrict(g, order + [s]).nodes
  {
    var l, r := Compose(Restrict(g, order), Shard(g, s)).nodes, Restrict(g, order + [s]).nodes;
    forall n ensures (n in l <==> n in r) && (n in l && n in r ==> l[n] == r[n]) {
      ComposeShardNode(g, order, s, n);
    }
    EqualMaps(l, r);
  }

  lemma ComposeShardEdges(g: Graph, order: seq<string>, s: string)
    ensures Compose(Restrict(g, order), Shard(g, s)).edges == Restrict(g, order + [s]).edges
  {
    var l, r := Compose(Restrict(g, order), Shard(g, s)).edges, Restrict(g, order + [s]).edges;
    forall k ensures (k in l <==> k in r) && (k in l && k in r ==> l[k] == r[k]) {
      ComposeShardEdge(g, order, s, k);
    }
    EqualMaps(l, r);
  }

  /** Composing with one more subgraph restricts to one more source. */
  lemma ComposeShard(g: Graph, order: seq<string>, s: string)
    ensures Compose(Restrict(g, order), Shard(g, s)) == Restrict(g, order + [s])
  {
    ComposeShardNodes(g, order, s);
    ComposeShardEdges(g, order, s);
    assert order == [] ==> order + [s] == [s];
  }

  /** Reading the subgraphs in any order accumulates the restriction to the sources not excluded. */
  lemma {:induction false} AccumulateShards(g: Graph, order: seq<string>, x: Exclusion)
    ensures Accumulate(ShardChunks(g, order), x) == Restrict(g, Kept(order, x))
  {
    if order == [] {
      assert Restrict(g, []) == EmptyGraph;
    } else {
      var n := |order| - 1;
      AccumulateShards(g, order[..n], x);
      assert ShardChunks(g, order)[..n] == ShardChunks(g, order[..n]);
      assert Kept(order[..n], x) + [] == Kept(order[..n], x);
      ComposeShard(g, Kept(order[..n], x), order[n]);
    }
  }

  lemma {:induction false} ShardsOfPrefix(g: Graph, order: seq<string>, n: nat)
    requires n <= |order|
    ensures ShardChunks(g, order)[..n] == ShardChunks(g, order[..n])
  {
    if n < |order| {
      var m := |order| - 1;
      ShardsOfPrefix(g, order[..m], n);
      assert order[..m][..n] == order[..n];
      assert ShardChunks(g, order)[..n] == ShardChunks(g, order[..m])[..n];
    } else {
      assert order[..n] == order;
    }
  }

  lemma {:induction false} KeptCounts(order: seq<string>, x: Exclusion, s: string)
    ensures multiset(Kept(order, x))[s] == if Excluded(x, [s]) then 0 else multiset(order)[s]
  {
    if order != [] {
      var n := |order| - 1;
      KeptCounts(order[..n], x, s);
      assert order == order[..n] + [order[n]];
      assert multiset(order) == multiset(order[..n]) + multiset{order[n]};
      assert multiset(Kept(order, x)) ==
             multiset(Kept(order[..n], x)) + if Excluded(x, [order[n]]) then multiset{} else multiset{order[n]};
    }
  }

  lemma {:induction false} SourcesOfMembers(g: Graph, n: string, order: seq<string>, s: string)
    ensures s in SourcesOf(g, n, order) <==> s in order && HasSource(g, n, s)
  {
    if order != [] {
      var m := |order| - 1;
      SourcesOfMembers(g, n, order[..m], s);
      assert order == order[..m] + [order[m]];
    }
  }

  // ----- The final sort

  predicate Ascending(s: seq<string>) {
    |s| < 2 || (LessEq(s[0], s[1]) && Ascending(s[1..]))
  }

  lemma {:induction false} InsertSortedIsSorted(a: string, s: seq<string>)
    requires Ascending(s)
    ensures Ascending(InsertSorted(a, s)) && multiset(InsertSorted(a, s)) == multiset(s) + multiset{a}
    ensures InsertSorted(a, s)[0] == a || (s != [] && InsertSorted(a, s)[0] == s[0])
  {
    if s != [] && !LessEq(a, s[0]) {
      LessIsTotal(a, s[0]);
      InsertSortedIsSorted(a, s[1..]);
      var tail := InsertSorted(a, s[1..]);
      assert InsertSorted(a, s)[1..] == tail;
      assert s == [s[0]] + s[1..];
    } else {
      assert InsertSorted(a, s)[1..] == s;
    }
  }

  /** Neighbours in an ascending list are equal or in order. */
  lemma {:induction false} AscendingAt(s: seq<string>, i: nat)
    requires Ascending(s) && i + 1 < |s|
    ensures s[i] == s[i + 1] || Less(s[i], s[i + 1])
  {
    if i > 0 {
      AscendingAt(s[1..], i - 1);
    }
  }

  lemma {:induction false} SortIsSorted(s: seq<string>)
    ensures Ascending(Sort(s)) && multiset(Sort(s)) == multiset(s)
  {
    if s != [] {
      SortIsSorted(s[1..]);
      InsertSortedIsSorted(s[0], Sort(s[1..]));
      assert s == [s[0]] + s[1..];
    }
  }

  // ----- The theorem

  /** The sources of the graph that a rebuild does not exclude. */
  predicate Remaining(g: Graph, x: Exclusion, s: string)
    requires g.sourceId.Some?
  {
    s in g.sourceId.value && !Excluded(x, [s])
  }

  ghost predicate NodeStays(g: Graph, x: Exclusion, n: string)
    requires g.sourceId.Some?
  {
    exists s :: Remaining(g, x, s) && HasSource(g, n, s)
  }

  ghost predicate EdgeStays(g: Graph, x: Exclusion, k: Pair)
    requires g.sourceId.Some?
  {
    exists s :: Remaining(g, x, s) && ShareSource(g, k, s)
  }

  /** The sources listed are those of node n that remain. */
  ghost predicate ListsRemaining(g: Graph, x: Exclusion, n: string, ids: seq<string>)
    requires g.sourceId.Some?
  {
    forall s :: s in ids <==> Remaining(g, x, s) && HasSource(g, n, s)
  }

  /** What a rebuilt graph is, whatever the order of reading. */
  ghost predicate IsRebuilt(g: Graph, x: Exclusion, h: Graph)
    requires g.sourceId.Some?
  {
    && (forall n :: n in h.nodes <==> n in g.nodes && NodeStays(g, x, n))
    && (forall n :: n in h.nodes && n in g.nodes ==>
          h.nodes[n].(sourceId := g.nodes[n].sourceId) == g.nodes[n]
          && ListsRemaining(g, x, n, h.nodes[n].sourceId))
    && (forall k :: k in h.edges <==> k in g.edges && EdgeStays(g, x, k))
    && (forall k :: k in h.edges && k in g.edges ==> h.edges[k] == g.edges[k])
    && h.sourceId.Some? && Ascending(h.sourceId.value)
    && multiset(h.sourceId.value) == multiset(Kept(g.sourceId.value, x))
  }

  /**
    A rebuilt graph in terms of the sources to be excluded: exactly the nodes and edges that have a source
    left, the sources listed being exactly those left, all other attributes as they were.
   */
  lemma RebuiltExcludes(g: Graph, x: Exclusion, out: string -> bool, h: Graph)
    requires g.sourceId.Some? && IsRebuilt(g, x, h)
    requires forall s :: out(s) <==> (x.ExcludeOne? && s == x.source) || (x.ExcludeAll? && s in x.sources)
    ensures forall s :: s in h.sourceId.value <==> s in g.sourceId.value && !out(s)
    ensures forall i :: 0 <= i < |h.sourceId.value| - 1 ==>
              h.sourceId.value[i] == h.sourceId.value[i + 1] || Less(h.sourceId.value[i], h.sourceId.value[i + 1])
    ensures forall n :: n in h.nodes <==>
              n in g.nodes && exists s :: s in g.sourceId.value && !out(s) && s in g.nodes[n].sourceId
    ensures forall n, s :: n in h.nodes && n in g.nodes ==>
              (s in h.nodes[n].sourceId <==> s in g.sourceId.value && !out(s) && s in g.nodes[n].sourceId)
    ensures forall n :: n in h.nodes && n in g.nodes ==>
              h.nodes[n].(sourceId := []) == g.nodes[n].(sourceId := [])
    ensures forall k :: k in h.edges <==>
              k in g.edges && k.0 in g.nodes && k.1 in g.nodes
              && exists s :: s in g.sourceId.value && !out(s)
                  && s in g.nodes[k.0].sourceId && s in g.nodes[k.1].sourceId
    ensures forall k :: k in h.edges && k in g.edges ==> h.edges[k] == g.edges[k]
  {
    forall s ensures Remaining(g, x, s) <==> s in g.sourceId.value && !out(s) {
      RemainingIff(g, x, s);
    }
    forall i | 0 <= i < |h.sourceId.value| - 1
      ensures h.sourceId.value[i] == h.sourceId.value[i + 1] || Less(h.sourceId.value[i], h.sourceId.value[i + 1])
    {
      AscendingAt(h.sourceId.value, i);
    }
    KeptOfReordering(g, g.sourceId.value, x);
    var kept := Kept(g.sourceId.value, x);
    forall s ensures s in h.sourceId.value <==> s in g.sourceId.value && !out(s) {
      assert s in h.sourceId.value <==> multiset(h.sourceId.value)[s] > 0;
      assert s in kept <==> multiset(kept)[s] > 0;
    }
    forall n ensures n in h.nodes <==>
                     n in g.nodes && exists s :: s in g.sourceId.value && !out(s) && s in g.nodes[n].sourceId
    {
      if n in g.nodes { NodeStaysIff(g, x, out, n); }
    }
    forall n, s | n in h.nodes && n in g.nodes
      ensures s in h.nodes[n].sourceId <==> s in g.sourceId.value && !out(s) && s in g.nodes[n].sourceId
    {
      assert ListsRemaining(g, x, n, h.nodes[n].sourceId);
    }
    forall k ensures k in h.edges <==>
                     k in g.edges && k.0 in g.nodes && k.1 in g.nodes
                     && exists s :: s in g.sourceId.value && !out(s)
                                    && s in g.nodes[k.0].sourceId && s in g.nodes[k.1].sourceId
    {
      EdgeStaysIff(g, x, out, k);
    }
  }

  lemma RemainingIff(g: Graph, x: Exclusion, s: string)
    requires g.sourceId.Some?
    ensures Remaining(g, x, s) <==>
            s in g.sourceId.value && !(x.ExcludeOne? && s == x.source) && !(x.ExcludeAll? && s in x.sources)
  {
    if x.ExcludeAll? && s in x.sources {
      var i :| 0 <= i < |x.sources| && x.sources[i] == s;
      assert x.sources[i] in [s];
    }
  }

  lemma NodeStaysIff(g: Graph, x: Exclusion, out: string -> bool, n: string)
    requires g.sourceId.Some? && n in g.nodes
    requires forall s :: Remaining(g, x, s) <==> s in g.sourceId.value && !out(s)
    ensures NodeStays(g, x, n) <==> exists s :: s in g.sourceId.value && !out(s) && s in g.nodes[n].sourceId
  {
    if s :| s in g.sourceId.value && !out(s) && s in g.nodes[n].sourceId {
      assert Remaining(g, x, s) && HasSource(g, n, s);
    }
  }

  lemma EdgeStaysIff(g: Graph, x: Exclusion, out: string -> bool, k: Pair)
    requires g.sourceId.Some?
    requires forall s :: Remaining(g, x, s) <==> s in g.sourceId.value && !out(s)
    ensures EdgeStays(g, x, k) <==>
            k.0 in g.nodes && k.1 in g.nodes
            && exists s :: s in g.sourceId.value && !out(s) && s in g.nodes[k.0].sourceId && s in g.nodes[k.1].sourceId
  {
    if k.0 in g.nodes && k.1 in g.nodes {
      if s :| s in g.sourceId.value && !out(s) && s in g.nodes[k.0].sourceId && s in g.nodes[k.1].sourceId {
        assert Remaining(g, x, s) && ShareSource(g, k, s);
      }
    }
  }

  /** What a rebuild returns: nothing exactly when no node has a source left. */
  ghost predicate IsRebuildOf(g: Graph, x: Exclusion, r: Option<Graph>)
    requires g.sourceId.Some?
  {
    && (r.None? <==> forall n :: n in g.nodes ==> !NodeStays(g, x, n))
    && (r.Some? ==> IsRebuilt(g, x, r.value))
  }

  /** Order of reading does not matter for what is kept. */
  lemma KeptOfReordering(g: Graph, order: seq<string>, x: Exclusion)
    requires g.sourceId.Some? && multiset(order) == multiset(g.sourceId.value)
    ensures forall s :: s in Kept(order, x) <==> Remaining(g, x, s)
    ensures multiset(Kept(order, x)) == multiset(Kept(g.sourceId.value, x))
  {
    var kept := Kept(order, x);
    forall s ensures s in kept <==> Remaining(g, x, s) {
      KeptCounts(order, x, s);
      assert s in kept <==> multiset(kept)[s] > 0;
      assert s in g.sourceId.value <==> multiset(g.sourceId.value)[s] > 0;
    }
    forall s ensures multiset(kept)[s] == multiset(Kept(g.sourceId.value, x))[s] {
      KeptCounts(order, x, s);
      KeptCounts(g.sourceId.value, x, s);
    }
  }

  lemma RestrictedNodes(g: Graph, x: Exclusion, kept: seq<string>, n: string)
    requires g.sourceId.Some? && forall s :: s in kept <==> Remaining(g, x, s)
    ensures NodeRemains(g, n, kept) <==> NodeStays(g, x, n)
    ensures ListsRemaining(g, x, n, SourcesOf(g, n, kept))
  {
    if NodeRemains(g, n, kept) {
      var i :| 0 <= i < |kept| && HasSource(g, n, kept[i]);
      assert kept[i] in kept;
    }
    if s :| Remaining(g, x, s) && HasSource(g, n, s) {
      assert s in kept;
    }
    forall s ensures s in SourcesOf(g, n, kept) <==> Remaining(g, x, s) && HasSource(g, n, s) {
      SourcesOfMembers(g, n, kept, s);
    }
  }

  lemma RestrictedEdges(g: Graph, x: Exclusion, kept: seq<string>, k: Pair)
    requires g.sourceId.Some? && forall s :: s in kept <==> Remaining(g, x, s)
    ensures EdgeRemains(g, k, kept) <==> EdgeStays(g, x, k)
  {
    if EdgeRemains(g, k, kept) {
      var i :| 0 <= i < |kept| && ShareSource(g, k, kept[i]);
      assert kept[i] in kept;
    }
    if s :| Remaining(g, x, s) && ShareSource(g, k, s) {
      assert s in kept;
    }
  }

  /** What the paging loop makes of the subgraphs in some order, including those beyond its reach. */
  lemma RebuiltFromShards(g: Graph, order: seq<string>, x: Exclusion)
    ensures Finish(Accumulate(Reachable(ShardChunks(g, order)), x)) ==
            Finish(Restrict(g, Kept(Reachable(order), x)))
  {
    ShardsOfPrefix(g, order, Min(|order|, PAGES * PAGE));
    AccumulateShards(g, Reachable(order), x);
  }

  /** Sets the node set of a restriction beside the sources that remain. */
  lemma RestrictedIsEmptyIff(g: Graph, x: Exclusion, kept: seq<string>)
    requires g.sourceId.Some? && forall s :: s in kept <==> Remaining(g, x, s)
    ensures forall n :: n in Restrict(g, kept).nodes <==> n in g.nodes && NodeStays(g, x, n)
    ensures Restrict(g, kept).nodes == map[] <==> forall n :: n in g.nodes ==> !NodeStays(g, x, n)
  {
    forall n ensures n in Restrict(g, kept).nodes <==> n in g.nodes && NodeStays(g, x, n) {
      RestrictedNodes(g, x, kept, n);
    }
    var nodes := Restrict(g, kept).nodes;
    if nodes != map[] {
      var n :| n in nodes;
      assert NodeStays(g, x, n);
    }
  }

  /**
    The round trip: as long as the subgraphs fit into the pages read, a rebuild from the stored
    subgraphs in any order yields the original graph minus the excluded sources, or nothing when no
    node has a source left.
   */
  lemma RoundTrip(g: Graph, order: seq<string>, x: Exclusion)
    requires g.sourceId.Some? && multiset(order) == multiset(g.sourceId.value) && |order| <= PAGES * PAGE
    ensures IsRebuildOf(g, x, Finish(Accumulate(Reachable(ShardChunks(g, order)), x)))
  {
    KeptOfReordering(g, order, x);
    FinishedRestriction(g, x, Kept(order, x));
    assert Reachable(order) == order;
    RebuiltFromShards(g, order, x);
  }

  lemma FinishedRestriction(g: Graph, x: Exclusion, kept: seq<string>)
    requires g.sourceId.Some? && forall s :: s in kept <==> Remaining(g, x, s)
    requires multiset(kept) == multiset(Kept(g.sourceId.value, x))
    ensures IsRebuildOf(g, x, Finish(Restrict(g, kept)))
  {
    RestrictedIsEmptyIff(g, x, kept);
    if Restrict(g, kept).nodes != map[] {
      RestrictIsRebuilt(g, x, kept);
    }
  }

  lemma RestrictIsRebuilt(g: Graph, x: Exclusion, kept: seq<string>)
    requires g.sourceId.Some? && forall s :: s in kept <==> Remaining(g, x, s)
    requires multiset(kept) == multiset(Kept(g.sourceId.value, x)) && Restrict(g, kept).nodes != map[]
    ensures Finish(Restrict(g, kept)).Some? && IsRebuilt(g, x, Finish(Restrict(g, kept)).value)
  {
    var h := Finish(Restrict(g, kept)).value;
    SortIsSorted(kept);
    RestrictedIsEmptyIff(g, x, kept);
    forall n | n in h.nodes && n in g.nodes ensures ListsRemaining(g, x, n, h.nodes[n].sourceId) {
      RestrictedNodes(g, x, kept, n);
    }
    forall k ensures k in h.edges <==> k in g.edges && EdgeStays(g, x, k) {
      RestrictedEdges(g, x, kept, k);
    }
  }

  lemma LosslessRebuild(g: Graph, h: Graph)
    requires g.sourceId.Some? && IsRebuilt(g, ExcludeNone, h)
    ensures h.nodes.Keys == g.nodes.Keys <==> forall n :: n in g.nodes ==> NodeStays(g, ExcludeNone, n)
    ensures h.edges == g.edges <==> forall k :: k in g.edges ==> EdgeStays(g, ExcludeNone, k)
  {
    assert h.nodes.Keys <= g.nodes.Keys && h.edges.Keys <= g.edges.Keys;
    if forall k :: k in g.edges ==> EdgeStays(g, ExcludeNone, k) {
      EqualMaps(h.edges, g.edges);
    }
  }

  /** Without exclusions nothing is lost exactly when every node and every edge lies in some source. */
  lemma LosslessIff(g: Graph, order: seq<string>)
    requires g.sourceId.Some? && multiset(order) == multiset(g.sourceId.value) && |order| <= PAGES * PAGE
    requires g.nodes != map[]
    ensures var r := Finish(Accumulate(Reachable(ShardChunks(g, order)), ExcludeNone));
            r.Some? && r.value.nodes.Keys == g.nodes.Keys && r.value.edges == g.edges <==>
            && (forall n :: n in g.nodes ==> NodeStays(g, ExcludeNone, n))
            && (forall k :: k in g.edges ==> EdgeStays(g, ExcludeNone, k))
  {
    RoundTrip(g, order, ExcludeNone);
    var r := Finish(Accumulate(Reachable(ShardChunks(g, order)), ExcludeNone));
    if r.Some? {
      LosslessRebuild(g, r.value);
    } else {
      var n :| n in g.nodes;
      assert !NodeStays(g, ExcludeNone, n);
    }
  }

  /** Two entities of different sources, and a relation between them. */
  function AcrossSources(): Graph {
    Graph(map["a" := Node("", ["1"], None, map[]), "b" := Node("", ["2"], None, map[])],
          map[("a", "b") := Edge(None, "", [], ["1", "2"], map[])], Some(["1", "2"]))
  }

  /** The relation does not survive a rebuild, whatever the order of reading. */
  lemma EdgeAcrossSourcesIsLost(order: seq<string>)
    requires multiset(order) == multiset(AcrossSources().sourceId.value)
    ensures WellFormed(AcrossSources()) && ("a", "b") in AcrossSources().edges
    ensures var r := Finish(Accumulate(Reachable(ShardChunks(AcrossSources(), order)), ExcludeNone));
            r.Some? ==> ("a", "b") !in r.value.edges
  {
    var g := AcrossSources();
    assert |order| == |multiset(order)| == 2;
    forall s ensures !ShareSource(g, ("a", "b"), s) {
      assert "1"[0] != "2"[0];
    }
    LostEdge(g, order, ("a", "b"));
    assert Normal(("a", "b")) by { assert Less("a", "b"); }
  }

  lemma LostEdge(g: Graph, order: seq<string>, k: Pair)
    requires g.sourceId.Some? && multiset(order) == multiset(g.sourceId.value) && |order| <= PAGES * PAGE
    requires forall s :: !ShareSource(g, k, s)
    ensures var r := Finish(Accumulate(Reachable(ShardChunks(g, order)), ExcludeNone));
            r.Some? ==> k !in r.value.edges
  {
    assert !EdgeStays(g, ExcludeNone, k);
    RoundTrip(g, order, ExcludeNone);
    var r := Finish(Accumulate(Reachable(ShardChunks(g, order)), ExcludeNone));
    assert IsRebuildOf(g, ExcludeNone, r);
  }

  /** The subgraph chunks of a store, in store order. */
  function Hits(chunks: seq<Chunk>): seq<Chunk> {
    if chunks == [] then []
    else
      var n := |chunks| - 1;
      Hits(chunks[..n]) + if chunks[n].kind == Subgraph then [chunks[n]] else []
  }

  lemma HitsSnoc(chunks: seq<Chunk>, c: Chunk)
    ensures Hits(chunks + [c]) == Hits(chunks) + if c.kind == Subgraph then [c] else []
  {
    assert (chunks + [c])[..|chunks|] == chunks;
  }

  lemma {:induction false} EmptiedHasNoGraphs(chunks: seq<Chunk>, removed: Chunk -> bool)
    ensures NoGraphs(Others(chunks)) && NoGraphs(Emptied(chunks, removed))
  {
    if chunks != [] {
      EmptiedHasNoGraphs(chunks[..|chunks| - 1], removed);
    }
    RetainedHasNoGraphs(Others(chunks), removed);
  }

  lemma {:induction false} RetainedHasNoGraphs(chunks: seq<Chunk>, removed: Chunk -> bool)
    requires NoGraphs(chunks)
    ensures NoGraphs(Retained(chunks, removed))
  {
    if chunks != [] {
      RetainedHasNoGraphs(chunks[..|chunks| - 1], removed);
    }
  }

  lemma {:induction false} HitsWithEntries(chunks: seq<Chunk>, entries: seq<Chunk>)
    requires NoGraphs(entries)
    ensures Hits(chunks + entries) == Hits(chunks)
  {
    if entries == [] {
      assert chunks + entries == chunks;
    } else {
      var n := |entries| - 1;
      HitsWithEntries(chunks, entries[..n]);
      HitsSnoc(chunks + entries[..n], entries[n]);
      ConcatLast(chunks, entries);
    }
  }

  lemma {:induction false} HitsOfSubgraphs(chunks: seq<Chunk>, more: seq<Chunk>)
    requires forall i :: 0 <= i < |more| ==> more[i].kind == Subgraph
    ensures Hits(chunks + more) == Hits(chunks) + more
  {
    if more == [] {
      assert chunks + more == chunks;
    } else {
      var n := |more| - 1;
      HitsOfSubgraphs(chunks, more[..n]);
      HitsSnoc(chunks + more[..n], more[n]);
      ConcatLast(chunks, more);
      ConcatLast(Hits(chunks), more);
    }
  }

  lemma HitsOfShards(chunks: seq<Chunk>, g: Graph, order: seq<string>)
    ensures Hits(chunks + ShardChunks(g, order)) == Hits(chunks) + ShardChunks(g, order)
  {
    forall i | 0 <= i < |order| ensures ShardChunks(g, order)[i].kind == Subgraph {
      ShardAt(g, order, i);
    }
    HitsOfSubgraphs(chunks, ShardChunks(g, order));
  }

  /** After a complete call the store holds one whole graph, which is the graph with its sources. */
  lemma WholeGraphStored(before: seq<Chunk>, removed: Chunk -> bool, g: Graph, updates: seq<Chunk>)
    requires g.sourceId.Some? && NoGraphs(updates)
    ensures var chunks, at := Emptied(before, removed) + (GraphChunks(g) + updates), |Emptied(before, removed)|;
            && at < |chunks| && chunks[at].content == g && chunks[at].sourceId == g.sourceId.value
            && forall i :: 0 <= i < |chunks| ==> (chunks[i].kind.WholeGraph? <==> i == at)
  {
    EmptiedHasNoGraphs(before, removed);
    var chunks, at := Emptied(before, removed) + (GraphChunks(g) + updates), |Emptied(before, removed)|;
    var n := |g.sourceId.value|;
    forall i | 0 <= i < |chunks| ensures chunks[i].kind.WholeGraph? <==> i == at {
      if i < at {
        assert chunks[i] == Emptied(before, removed)[i];
      } else if at < i <= at + n {
        assert chunks[i] == ShardChunks(g, g.sourceId.value)[i - at - 1];
        ShardAt(g, g.sourceId.value, i - at - 1);
      } else if i > at + n {
        assert chunks[i] == updates[i - at - 1 - n];
      }
    }
  }

  /** How many of the sources have their subgraph among the first m chunks. */
  function SourcesStored(g: Graph, m: nat): (n: nat)
    requires g.sourceId.Some?
    ensures n <= |g.sourceId.value|
  {
    if m == 0 then 0 else Min(m - 1, |g.sourceId.value|)
  }

  /** After a call of `set_graph`, complete or broken off, the store holds exactly these subgraphs. */
  lemma HitsAfterSet(before: seq<Chunk>, removed: Chunk -> bool, g: Graph, updates: seq<Chunk>, m: nat)
    requires g.sourceId.Some? && NoGraphs(updates) && m <= |GraphChunks(g) + updates|
    ensures Hits(Emptied(before, removed) + (GraphChunks(g) + updates)[..m]) ==
            ShardChunks(g, g.sourceId.value[..SourcesStored(g, m)])
  {
    var all, n := GraphChunks(g), |GraphChunks(g)|;
    EmptiedHasNoGraphs(before, removed);
    var base := Emptied(before, removed);
    if m == 0 {
      assert base + (all + updates)[..0] == [] + base;
      HitsWithEntries([], base);
    } else if m <= n {
      assert (all + updates)[..m] == all[..m];
      HitsAfterGraphs(base, g, m);
    } else {
      assert (all + updates)[..m] == all + updates[..m - n] && all[..n] == all;
      assert base + (all + updates[..m - n]) == base + all + updates[..m - n];
      HitsWithEntries(base + all, updates[..m - n]);
      HitsAfterGraphs(base, g, n);
    }
  }

  lemma HitsAfterGraphs(base: seq<Chunk>, g: Graph, m: nat)
    requires g.sourceId.Some? && NoGraphs(base) && 0 < m <= |GraphChunks(g)|
    ensures Hits(base + GraphChunks(g)[..m]) == ShardChunks(g, g.sourceId.value[..m - 1])
  {
    var sources, whole := g.sourceId.value, Chunk(WholeGraph, g, g.sourceId.value);
    ShardsOfPrefix(g, sources, m - 1);
    assert base + GraphChunks(g)[..m] == (base + [whole]) + ShardChunks(g, sources[..m - 1]);
    HitsOfShards(base + [whole], g, sources[..m - 1]);
    HitsSnoc(base, whole);
    HitsWithEntries([], base);
    assert [] + base == base;
  }

  lemma {:induction false} ShardAt(g: Graph, order: seq<string>, i: nat)
    requires i < |order|
    ensures ShardChunks(g, order)[i] == ShardChunk(g, order[i])
  {
    if i < |order| - 1 {
      ShardAt(g, order[..|order| - 1], i);
    }
  }

  function Without<T>(s: seq<T>, i: nat): (r: seq<T>)
    requires i < |s|
    ensures |r| == |s| - 1
  {
    s[..i] + s[i + 1..]
  }

  lemma CountWithout<T>(s: seq<T>, i: nat)
    requires i < |s|
    ensures multiset(s) == multiset(Without(s, i)) + multiset{s[i]}
  {
    assert s == s[..i] + [s[i]] + s[i + 1..];
  }

  lemma ShardsWithout(g: Graph, order: seq<string>, i: nat)
    requires i < |order|
    ensures ShardChunks(g, Without(order, i)) == Without(ShardChunks(g, order), i)
  {
    forall k | 0 <= k < |order| - 1
      ensures ShardChunks(g, Without(order, i))[k] == Without(ShardChunks(g, order), i)[k]
    {
      ShardAt(g, Without(order, i), k);
      ShardAt(g, order, if k < i then k else k + 1);
    }
  }

  /** Finds the last element of s in a reordering t of it, and takes it away on both sides. */
  lemma MatchLast<T>(s: seq<T>, t: seq<T>) returns (i: nat)
    requires multiset(s) == multiset(t) && s != []
    ensures i < |t| && t[i] == s[|s| - 1] && multiset(s[..|s| - 1]) == multiset(Without(t, i))
  {
    var m := |s| - 1;
    assert s[m] in multiset(s) && s[m] in t;
    i :| 0 <= i < |t| && t[i] == s[m];
    CountWithout(t, i);
    CountWithout(s, m);
    assert Without(s, m) == s[..m];
    assert multiset(s[..m]) == multiset(s) - multiset{s[m]};
  }

  lemma SnocWithout<T>(s: seq<T>, t: seq<T>, i: nat)
    requires i < |t| && multiset(s) == multiset(Without(t, i))
    ensures multiset(s + [t[i]]) == multiset(t)
  {
    CountWithout(t, i);
  }

  /** Whatever order the store returns the subgraphs in, it is their order for some order of the sources. */
  lemma {:induction false} ReorderedShards(g: Graph, sources: seq<string>, hits: seq<Chunk>)
    returns (order: seq<string>)
    requires multiset(hits) == multiset(ShardChunks(g, sources))
    ensures multiset(order) == multiset(sources) && hits == ShardChunks(g, order)
    decreases |hits|
  {
    if hits == [] {
      assert |hits| == |multiset(hits)| == |ShardChunks(g, sources)|;
      order := [];
    } else {
      var m := |hits| - 1;
      var i := MatchLast(hits, ShardChunks(g, sources));
      ShardsWithout(g, sources, i);
      var shorter := ReorderedShards(g, Without(sources, i), hits[..m]);
      SnocWithout(shorter, sources, i);
      order := shorter + [sources[i]];
      assert hits == ShardChunks(g, order) by {
        ShardAt(g, sources, i);
        ShardsSnoc(g, shorter, sources[i]);
        assert hits == hits[..m] + [hits[m]];
      }
    }
  }

  /** The graph as if it had only its first n sources. */
  function FirstSources(g: Graph, n: nat): Graph
    requires g.sourceId.Some? && n <= |g.sourceId.value|
  {
    g.(sourceId := Some(g.sourceId.value[..n]))
  }

  /** A subgraph depends on nodes and edges alone. */
  lemma {:induction false} SameShards(g: Graph, h: Graph, order: seq<string>)
    requires g.nodes == h.nodes && g.edges == h.edges
    ensures ShardChunks(g, order) == ShardChunks(h, order)
  {
    if order != [] {
      var n := |order| - 1;
      SameShards(g, h, order[..n]);
      SameShard(g, h, order[n]);
    }
  }

  lemma SameShard(g: Graph, h: Graph, s: string)
    requires g.nodes == h.nodes && g.edges == h.edges
    ensures Shard(g, s) == Shard(h, s)
  {
    assert forall n :: HasSource(g, n, s) <==> HasSource(h, n, s);
    assert forall k :: ShareSource(g, k, s) <==> ShareSource(h, k, s);
    assert Shard(g, s).nodes == Shard(h, s).nodes;
    assert Shard(g, s).edges == Shard(h, s).edges;
  }

  /**
    The round trip through the store, when a call of `set_graph` has got as far as its first m chunks: a
    rebuild from the store's subgraph chunks, returned in any order, is the stored graph, as far as its
    sources were stored, minus the excluded ones.
   */
  lemma BrokenOffRoundTrip(before: seq<Chunk>, removed: Chunk -> bool, g: Graph, updates: seq<Chunk>, m: nat,
                           hits: seq<Chunk>, x: Exclusion)
    requires g.sourceId.Some? && NoGraphs(updates) && m <= |GraphChunks(g) + updates|
    requires SourcesStored(g, m) <= PAGES * PAGE
    requires multiset(hits) == multiset(Hits(Emptied(before, removed) + (GraphChunks(g) + updates)[..m]))
    ensures IsRebuildOf(FirstSources(g, SourcesStored(g, m)), x, Finish(Accumulate(Reachable(hits), x)))
  {
    var n := SourcesStored(g, m);
    var h := FirstSources(g, n);
    HitsAfterSet(before, removed, g, updates, m);
    SameShards(g, h, h.sourceId.value);
    var order := ReorderedShards(h, h.sourceId.value, hits);
    assert |order| == |multiset(order)| == n;
    RoundTrip(h, order, x);
  }

  /**
    The round trip through the store: after a complete `set_graph`, a rebuild from the store's subgraph
    chunks, returned in any order, is the stored graph minus the excluded sources.
   */
  lemma StoreRoundTrip(before: seq<Chunk>, removed: Chunk -> bool, g: Graph, updates: seq<Chunk>, hits: seq<Chunk>,
                       x: Exclusion)
    requires g.sourceId.Some? && |g.sourceId.value| <= 1024 * 256 && NoGraphs(updates)
    requires multiset(hits) == multiset(Hits(Emptied(before, removed) + (GraphChunks(g) + updates)))
    ensures IsRebuildOf(g, x, Finish(Accumulate(Reachable(hits), x)))
  {
    var all := GraphChunks(g) + updates;
    assert all[..|all|] == all && g.sourceId.value[..|g.sourceId.value|] == g.sourceId.value;
    assert FirstSources(g, SourcesStored(g, |all|)) == g;
    BrokenOffRoundTrip(before, removed, g, updates, |all|, hits, x);
  }
}
