/**
  The RAPTOR tree builder (repos/ragflow/rag/raptor.py): chunks are clustered, every cluster is
  summarised into a new chunk, and the summaries form the next layer, until one chunk is left.

  Clustering, summarising and cancellation are left open: they may do anything their callers can
  observe of them.  The results are about what the layer loop makes of any such behaviour.
 */
module Raptor {
  import opened Basics

  datatype Chunk = Chunk(text: string, embedding: seq<real>)

  /** How a call ends: with the chunks, or with an exception. */
  datatype Outcome =
    | Built(chunks: seq<Chunk>, layers: seq<Layer>, labels: seq<nat>)
    | TooShort             // at most one chunk given: the empty list
    | AssertionFailed      // an empty cluster, or fewer summaries than clusters
    | Aborted              // cancelled, out of time, an error in a library, or too many errors
    | NoClustering         // no admissible number of clusters, or a chunk without a label

  datatype Layer = Layer(start: nat, end: nat) {
    function Size(): int { end - start }
  }

  predicate Usable(c: Chunk) { c.text != "" && c.embedding != [] }

  function Filter(input: seq<Chunk>): seq<Chunk> {
    if input == [] then []
    else
      var n := |input| - 1;
      Filter(input[..n]) + if Usable(input[n]) then [input[n]] else []
  }

  /** Exactly the chunks with a text and an embedding are kept; when all have both, the whole input is. */
  lemma {:induction false} FilterIs(input: seq<Chunk>, c: Chunk)
    ensures c in Filter(input) <==> c in input && c.text != "" && c.embedding != []
    ensures (forall i :: 0 <= i < |input| ==> input[i].text != "" && input[i].embedding != []) ==>
              Filter(input) == input
  {
    if input != [] {
      var n := |input| - 1;
      FilterIs(input[..n], c);
      assert input == input[..n] + [input[n]];
    }
  }

  // ----- Layers and parents

  /** The layers tile the chunk list up to end, each smaller than the one before. */
  ghost predicate Tiles(layers: seq<Layer>, leaves: nat, end: nat) {
    && layers != [] && layers[0] == Layer(0, leaves) && layers[|layers| - 1].end == end
    && (forall i :: 0 <= i < |layers| ==> layers[i].start <= layers[i].end)
    && (forall i :: 0 <= i < |layers| - 1 ==> StepsDown(layers, i))
  }

  predicate StepsDown(layers: seq<Layer>, i: nat)
    requires i < |layers| - 1
  {
    Consecutive(layers[i], layers[i + 1])
  }

  predicate Consecutive(l: Layer, m: Layer) { l.end == m.start && m.Size() < l.Size() && l.Size() >= 2 }

  /** The cluster summaries of one layer, in the order in which they were finished. */
  ghost predicate Finished(order: seq<nat>, n: nat) {
    Distinct(order) && forall k :: 0 <= k < |order| ==> order[k] < n
  }

  lemma FinishedFits(order: seq<nat>, n: nat)
    requires Finished(order, n)
    ensures |order| <= n
    ensures |order| == n ==> forall c :: 0 <= c < n ==> c in order
  {
    RangeContents(n);
    DistinctFits(order, Range(n));
  }

  /**
    Every chunk of a layer that is followed by a complete one has its parent there, and two of them
    share it exactly when they have the same label.
   */
  ghost predicate ParentsIn(parent: map<nat, nat>, labels: seq<nat>, l: Layer, m: Layer) {
    && (forall i :: l.start <= i < l.end ==> i in parent && m.start <= parent[i] < m.end)
    && (l.end <= |labels|)
    && (forall i, j :: l.start <= i < l.end && l.start <= j < l.end ==>
          (parent[i] == parent[j] <==> labels[i] == labels[j]))
    && (forall p :: m.start <= p < m.end ==> HasChild(parent, l, p))
  }

  ghost predicate HasChild(parent: map<nat, nat>, l: Layer, p: nat) {
    exists i :: l.start <= i < l.end && i in parent && parent[i] == p
  }

  // ----- One tree

  /** The end of the chain of parents. */
  function Root(parent: map<nat, nat>, i: nat, n: nat): nat
    requires forall k :: k in parent ==> k < parent[k] < n
    decreases n - i
  {
    if i in parent then Root(parent, parent[i], n) else i
  }

  /** When all chunks before m have a later parent, every chunk hangs from one that is not before m. */
  lemma {:induction false} RootsAreLast(parent: map<nat, nat>, i: nat, m: nat, n: nat)
    requires i < n && (forall k :: k in parent ==> k < parent[k] < n)
    requires forall k :: 0 <= k < m ==> k in parent
    ensures m <= Root(parent, i, n) < n
    decreases n - i
  {
    if i in parent {
      RootsAreLast(parent, parent[i], m, n);
    }
  }

  // ----- The state of the layer loop

  ghost predicate TreeSoFar(layers: seq<Layer>, labels: seq<nat>, parent: map<nat, nat>, leaves: nat,
                            start: nat, end: nat)
  {
    && Tiles(layers, leaves, end) && layers[|layers| - 1].start == start && |labels| == start
    && (forall k :: k in parent <==> 0 <= k < start)
    && (forall k :: k in parent ==> k < parent[k] < end)
    && (forall l :: 0 <= l < |layers| - 1 ==> ParentsAbove(layers, labels, parent, l))
  }

  ghost predicate ParentsAbove(layers: seq<Layer>, labels: seq<nat>, parent: map<nat, nat>, l: nat)
    requires l < |layers| - 1
  {
    ParentsIn(parent, labels, layers[l], layers[l + 1])
  }

  /** The parents of one layer: the summaries of its clusters, which were appended in the given order. */
  ghost function NewParents(start: nat, end: nat, lbls: seq<nat>, order: seq<nat>): map<nat, nat>
    requires start <= end && |lbls| == end - start && forall i :: 0 <= i < |lbls| ==> lbls[i] in order
  {
    map i: nat | start <= i < end :: ParentOf(start, end, lbls, order, i)
  }

  ghost function ParentOf(start: nat, end: nat, lbls: seq<nat>, order: seq<nat>, i: nat): nat
    requires start <= i < end && |lbls| == end - start && forall k :: 0 <= k < |lbls| ==> lbls[k] in order
  {
    end + Find(order, lbls[i - start])
  }

  /** What clustering a layer completely requires. */
  ghost predicate Clustered(size: int, lbls: seq<nat>, n: nat, order: seq<nat>) {
    && |lbls| == size && n < size && Finished(order, n) && |order| == n
    && (forall i :: 0 <= i < |lbls| ==> lbls[i] < n)
    && (forall c :: 0 <= c < n ==> c in lbls)
  }

  lemma LabelsFinished(size: int, lbls: seq<nat>, n: nat, order: seq<nat>)
    requires Clustered(size, lbls, n, order)
    ensures forall i :: 0 <= i < |lbls| ==> lbls[i] in order
  {
    FinishedFits(order, n);
  }

  lemma NewParentsAt(parent: map<nat, nat>, start: nat, end: nat, lbls: seq<nat>, order: seq<nat>, i: nat)
    requires start <= i < end && |lbls| == end - start && forall i :: 0 <= i < |lbls| ==> lbls[i] in order
    ensures var all := parent + NewParents(start, end, lbls, order);
            i in all && all[i] == end + Find(order, lbls[i - start])
  {
    assert NewParents(start, end, lbls, order)[i] == ParentOf(start, end, lbls, order, i);
  }

  predicate Labelled(labels: seq<nat>, l: Layer, c: nat)
    requires l.end <= |labels|
  {
    exists i :: l.start <= i < l.end && labels[i] == c
  }

  /** When summaries are appended in the order of their clusters' completion, labels decide parents. */
  lemma ParentsByOrder(all: map<nat, nat>, labels: seq<nat>, l: Layer, m: Layer, order: seq<nat>)
    requires l.end <= |labels| && m.end == m.start + |order| && Distinct(order)
    requires forall i :: l.start <= i < l.end ==>
               i in all && labels[i] in order && all[i] == m.start + Find(order, labels[i])
    requires forall k :: 0 <= k < |order| ==> Labelled(labels, l, order[k])
    ensures ParentsIn(all, labels, l, m)
  {
    forall p | m.start <= p < m.end ensures HasChild(all, l, p) {
      var c := order[p - m.start];
      assert Labelled(labels, l, c);
      var i :| l.start <= i < l.end && labels[i] == c;
      assert all[i] == p;
    }
  }

  /** The summaries of a completely clustered layer are the parents of its chunks. */
  lemma NewestParents(parent: map<nat, nat>, labels: seq<nat>, start: nat, end: nat, lbls: seq<nat>, n: nat,
                      order: seq<nat>)
    requires start <= end && Clustered(end - start, lbls, n, order) && |labels| == start
    ensures forall i :: 0 <= i < |lbls| ==> lbls[i] in order
    ensures ParentsIn(parent + NewParents(start, end, lbls, order), labels + lbls, Layer(start, end),
                      Layer(end, end + n))
  {
    LabelsFinished(end - start, lbls, n, order);
    var all, l := parent + NewParents(start, end, lbls, order), Layer(start, end);
    var both := labels + lbls;
    forall i | start <= i < end ensures i in all && both[i] in order && all[i] == end + Find(order, both[i]) {
      assert both[i] == lbls[i - start];
      NewParentsAt(parent, start, end, lbls, order, i);
    }
    forall k | 0 <= k < |order| ensures Labelled(both, l, order[k]) {
      assert order[k] in lbls;
      var i :| 0 <= i < |lbls| && lbls[i] == order[k];
      assert both[start + i] == order[k];
    }
    ParentsByOrder(all, both, l, Layer(end, end + n), order);
  }

  /** Parents found earlier are untouched by those of a later layer. */
  lemma OlderParents(parent: map<nat, nat>, more: map<nat, nat>, labels: seq<nat>, lbls: seq<nat>, l: Layer, m: Layer)
    requires ParentsIn(parent, labels, l, m)
    requires forall i :: l.start <= i < l.end ==> i !in more
    ensures ParentsIn(parent + more, labels + lbls, l, m)
  {
    forall p | m.start <= p < m.end ensures HasChild(parent + more, l, p) {
      assert HasChild(parent, l, p);
      var i :| l.start <= i < l.end && i in parent && parent[i] == p;
      assert (parent + more)[i] == p;
    }
  }

  /** One complete layer more. */
  lemma GrowTree(layers: seq<Layer>, labels: seq<nat>, parent: map<nat, nat>, leaves: nat, start: nat, end: nat,
                 lbls: seq<nat>, n: nat, order: seq<nat>)
    requires TreeSoFar(layers, labels, parent, leaves, start, end)
    requires end - start >= 2 && Clustered(end - start, lbls, n, order)
    ensures forall i :: 0 <= i < |lbls| ==> lbls[i] in order
    ensures TreeSoFar(layers + [Layer(end, end + n)], labels + lbls, parent + NewParents(start, end, lbls, order),
                      leaves, end, end + n)
  {
    LabelsFinished(end - start, lbls, n, order);
    var ps := NewParents(start, end, lbls, order);
    NewestParents(parent, labels, start, end, lbls, n, order);
    var m := |layers| - 1;
    var grown := layers + [Layer(end, end + n)];
    assert layers[m] == Layer(start, end);
    forall l | 0 <= l < |grown| - 1
      ensures ParentsAbove(grown, labels + lbls, parent + ps, l) && StepsDown(grown, l)
    {
      if l < m {
        assert StepsDown(layers, l) && ParentsAbove(layers, labels, parent, l);
        OlderParents(parent, ps, labels, lbls, layers[l], layers[l + 1]);
      }
    }
  }

  // ----- Which chunks a summary was made from

  /** A summary that was made: the positions of the chunks it was made from, and the chunk it became. */
  datatype Entry = Entry(members: seq<nat>, summary: Chunk)

  /** The positions of the chunks with label c, when the first of them is at start. */
  function Members(lbls: seq<nat>, start: nat, c: nat): seq<nat> {
    if lbls == [] then []
    else
      var n := |lbls| - 1;
      Members(lbls[..n], start, c) + if lbls[n] == c then [start + n] else []
  }

  lemma {:induction false} MembersAre(lbls: seq<nat>, start: nat, c: nat, i: nat)
    ensures i in Members(lbls, start, c) <==> start <= i < start + |lbls| && lbls[i - start] == c
  {
    if lbls != [] {
      MembersAre(lbls[..|lbls| - 1], start, c, i);
    }
  }

  lemma PairOfChunks(start: nat)
    ensures Members([0, 0], start, 0) == [start, start + 1]
  {
    assert [0, 0][..1] == [0] && [0][..0] == [];
    assert Members([0], start, 0) == [start];
  }

  lemma EmptyCluster(lbls: seq<nat>, start: nat, c: nat)
    ensures Members(lbls, start, c) == [] <==> c !in lbls
  {
    if Members(lbls, start, c) != [] {
      MembersAre(lbls, start, c, Members(lbls, start, c)[0]);
    }
    if c in lbls {
      var k :| 0 <= k < |lbls| && lbls[k] == c;
      MembersAre(lbls, start, c, start + k);
    }
  }

  function Summaries(log: seq<Entry>): seq<Chunk> {
    seq(|log|, k requires 0 <= k < |log| => log[k].summary)
  }

  /** The summary that became chunk number leaves + k was made from exactly the chunks whose parent it is. */
  ghost predicate MadeFromChildren(parent: map<nat, nat>, log: seq<Entry>, leaves: nat, k: nat)
    requires k < |log|
  {
    forall i :: i in log[k].members <==> i in parent && parent[i] == leaves + k
  }

  ghost predicate AllMadeFromChildren(parent: map<nat, nat>, log: seq<Entry>, leaves: nat) {
    forall k :: 0 <= k < |log| ==> MadeFromChildren(parent, log, leaves, k)
  }

  /** The summaries of one layer: entry k is that of cluster order[k]. */
  ghost predicate SummariesOf(entries: seq<Entry>, lbls: seq<nat>, start: nat, order: seq<nat>) {
    |entries| == |order| && forall k :: 0 <= k < |entries| ==> entries[k].members == Members(lbls, start, order[k])
  }

  lemma NewEntry(parent: map<nat, nat>, start: nat, end: nat, lbls: seq<nat>, order: seq<nat>, k: nat, i: nat)
    requires start <= end && |lbls| == end - start && k < |order| && Distinct(order)
    requires forall j :: 0 <= j < |lbls| ==> lbls[j] in order
    requires forall j :: j in parent ==> parent[j] < end
    ensures var all := parent + NewParents(start, end, lbls, order);
            i in Members(lbls, start, order[k]) <==> i in all && all[i] == end + k
  {
    MembersAre(lbls, start, order[k], i);
    if start <= i < end {
      NewParentsAt(parent, start, end, lbls, order, i);
    }
  }

  /** One complete layer more, made from the layer below it. */
  lemma LayerMadeFromChildren(parent: map<nat, nat>, log: seq<Entry>, leaves: nat, start: nat, end: nat,
                              lbls: seq<nat>, order: seq<nat>, entries: seq<Entry>)
    requires AllMadeFromChildren(parent, log, leaves) && end == leaves + |log| && start <= end
    requires |lbls| == end - start && Distinct(order) && forall j :: 0 <= j < |lbls| ==> lbls[j] in order
    requires forall j :: j in parent <==> 0 <= j < start
    requires forall j :: j in parent ==> parent[j] < end
    requires SummariesOf(entries, lbls, start, order)
    ensures AllMadeFromChildren(parent + NewParents(start, end, lbls, order), log + entries, leaves)
  {
    var all := parent + NewParents(start, end, lbls, order);
    forall k | 0 <= k < |log + entries| ensures MadeFromChildren(all, log + entries, leaves, k) {
      if k < |log| {
        assert MadeFromChildren(parent, log, leaves, k);
        forall i | start <= i < end ensures i in all && all[i] >= end {
          NewParentsAt(parent, start, end, lbls, order, i);
        }
      } else {
        forall i ensures i in (log + entries)[k].members <==> i in all && all[i] == leaves + k {
          NewEntry(parent, start, end, lbls, order, k - |log|, i);
        }
      }
    }
  }

  // ----- The loop invariant

  /** A complete tree below two last chunks that were not summarised. */
  ghost predicate PairAtTheEnd(layers: seq<Layer>, labels: seq<nat>, parent: map<nat, nat>, leaves: nat, end: nat,
                               log: seq<Entry>)
  {
    && |layers| >= 2 && 2 <= end == |labels| && labels[end - 2..] == [0, 0]
    && TreeSoFar(layers[..|layers| - 1], labels[..end - 2], parent, leaves, end - 2, end)
    && AllMadeFromChildren(parent, log, leaves)
  }

  /** A complete tree so far, or one skipped cluster that ends the loop; `log` are the summaries made. */
  ghost predicate Going(skipped: nat, layers: seq<Layer>, labels: seq<nat>, parent: map<nat, nat>, leaves: nat,
                        start: nat, end: nat, log: seq<Entry>)
  {
    && Tiles(layers, leaves, end) && layers[|layers| - 1].start == start && |labels| == start
    && end == leaves + |log|
    && (skipped == 0 ==> TreeSoFar(layers, labels, parent, leaves, start, end) && (start == end <==> leaves == 0)
                         && AllMadeFromChildren(parent, log, leaves))
    && (skipped > 0 ==> skipped == 1 && start == end && PairAtTheEnd(layers, labels, parent, leaves, end, log))
  }

  /** The same at the end of the loop. */
  ghost predicate Ended(skipped: nat, layers: seq<Layer>, labels: seq<nat>, parent: map<nat, nat>, leaves: nat, n: nat,
                        log: seq<Entry>)
    requires layers != []
  {
    var last := layers[|layers| - 1];
    && Going(skipped, layers, labels, parent, leaves, last.start, n, log)
    && last.Size() == if leaves == 0 || skipped > 0 then 0 else 1
  }

  lemma NoLayerYet(n: nat)
    ensures Going(0, [Layer(0, n)], [], map[], n, 0, n, [])
  {
  }

  lemma LayerDone(layers: seq<Layer>, labels: seq<nat>, parent: map<nat, nat>, leaves: nat, start: nat, end: nat,
                  log: seq<Entry>, lbls: seq<nat>, n: nat, order: seq<nat>, entries: seq<Entry>)
    returns (grown: map<nat, nat>)
    requires Going(0, layers, labels, parent, leaves, start, end, log) && end - start >= 2 && |lbls| == end - start
    requires Clustered(end - start, lbls, n, order) || (end - start == 2 && n == 1 && order == [])
    requires SummariesOf(entries, lbls, start, order) && (end - start == 2 ==> lbls == [0, 0])
    ensures |order| <= n
    ensures Going(n - |order|, layers + [Layer(end, end + |order|)], labels + lbls, grown, leaves, end, end + |order|,
                  log + entries)
  {
    if |order| == n {
      GrowTree(layers, labels, parent, leaves, start, end, lbls, n, order);
      LayerMadeFromChildren(parent, log, leaves, start, end, lbls, order, entries);
      assert n > 0 by {
        assert lbls[0] < n;
      }
      grown := parent + NewParents(start, end, lbls, order);
    } else {
      EmptyLastLayer(layers, leaves, start, end);
      grown := parent;
      var more, all := layers + [Layer(end, end)], labels + lbls;
      assert more[..|layers|] == layers && all[..start] == labels && all[start..] == lbls;
      assert log + entries == log;
    }
  }

  // ----- The code

  datatype Attempt = Made | Skipped | Raised

  class TreeBuilder {
    const maxCluster: int
    const maxErrors: nat
    var errorCount: nat
    // the summaries made so far, in the order in which they were finished
    ghost var log: seq<Entry>
    // how often something was cancelled or raised from outside, a chunk got no label, a cluster no chunk
    ghost var aborts: nat
    ghost var unlabelled: nat
    ghost var emptied: nat

    constructor (maxCluster: int, maxErrors: int)
      ensures this.maxCluster == maxCluster && this.maxErrors == (if maxErrors < 1 then 1 else maxErrors)
      ensures errorCount == 0 && log == [] && aborts == 0 && unlabelled == 0 && emptied == 0
    {
      this.maxCluster := maxCluster;
      this.maxErrors := if maxErrors < 1 then 1 else maxErrors;
      errorCount, log, aborts, unlabelled, emptied := 0, [], 0, 0, 0;
    }

    /** Whether the task has been cancelled, or a library raises. */
    method Disturbed() returns (yes: bool)
      modifies this`aborts
      ensures aborts == old(aborts) + if yes then 1 else 0
    {
      yes := *;
      if yes {
        aborts := aborts + 1;
      }
    }

    /** `_get_optimal_clusters`: some number below both bounds; none exists if that leaves only zero. */
    method PickClusters(size: nat) returns (disturbed: bool, ok: bool, n: nat)
      modifies this`aborts
      ensures disturbed <==> aborts > old(aborts)
      ensures aborts >= old(aborts) && (ok <==> !disturbed && 1 < Min(maxCluster, size))
      ensures ok ==> 1 <= n < Min(maxCluster, size)
    {
      disturbed, ok, n := false, false, 0;
      var k := 1;
      while k < Min(maxCluster, size)
        invariant aborts == old(aborts) && !disturbed
      {
        disturbed := Disturbed();
        if disturbed {
          return;
        }
        k := k + 1;
      }
      if 1 < Min(maxCluster, size) {
        ok, n := true, *;
        if !(1 <= n < Min(maxCluster, size)) {
          n := 1;
        }
      }
    }

    /** A label below n for every chunk, all zero for one cluster; a chunk may end up without one. */
    method PickLabels(size: nat, n: nat) returns (ok: bool, lbls: seq<nat>)
      requires n > 0 && size > 0
      modifies this`unlabelled, this`emptied
      ensures unlabelled >= old(unlabelled) && (ok <==> unlabelled == old(unlabelled))
      ensures ok ==> |lbls| == size && forall i :: 0 <= i < |lbls| ==> lbls[i] < n
      ensures emptied >= old(emptied)
      ensures ok ==> (emptied == old(emptied) <==> forall c :: 0 <= c < n ==> c in lbls)
      ensures !ok ==> emptied == old(emptied)
    {
      if n == 1 {
        lbls := seq(size, _ => 0);
        assert lbls[0] == 0;
        return true, lbls;
      }
      lbls := *;
      ok := |lbls| == size && forall i :: 0 <= i < |lbls| ==> lbls[i] < n;
      if !ok {
        unlabelled := unlabelled + 1;
      } else if exists c :: 0 <= c < n && c !in lbls {
        emptied := emptied + 1;
      }
    }

    /** The chunks of cluster c, collected by index. */
    method Collect(lbls: seq<nat>, start: nat, c: nat) returns (members: seq<nat>)
      ensures members == Members(lbls, start, c)
    {
      members := [];
      for i := 0 to |lbls|
        invariant members == Members(lbls[..i], start, c)
      {
        assert lbls[..i + 1][..i] == lbls[..i];
        if lbls[i] == c {
          members := members + [i + start];
        }
      }
      assert lbls[..|lbls|] == lbls;
    }

    /** Collects the chunks of every cluster; one that is empty fails an assertion. */
    method CollectClusters(lbls: seq<nat>, start: nat, n: nat) returns (ok: bool, clusters: seq<seq<nat>>)
      ensures ok <==> forall c :: 0 <= c < n ==> c in lbls
      ensures ok ==> |clusters| == n && forall c :: 0 <= c < n ==> clusters[c] == Members(lbls, start, c)
    {
      clusters := [];
      for c := 0 to n
        invariant forall k :: 0 <= k < c ==> k in lbls
        invariant |clusters| == c && forall k :: 0 <= k < c ==> clusters[k] == Members(lbls, start, k)
      {
        var members := Collect(lbls, start, c);
        EmptyCluster(lbls, start, c);
        if |members| == 0 {
          return false, clusters;
        }
        clusters := clusters + [members];
      }
      return true, clusters;
    }

    /** `summarize`: makes a chunk of some others, or counts an error and raises when there are too many. */
    method Summarize(members: seq<nat>) returns (r: Attempt, c: Chunk)
      modifies this`errorCount, this`log, this`aborts
      ensures r.Made? <==> aborts == old(aborts) && errorCount == old(errorCount)
      ensures r.Skipped? <==> aborts == old(aborts) && errorCount == old(errorCount) + 1 && errorCount < maxErrors
      ensures r.Raised? <==> (aborts == old(aborts) + 1 && errorCount == old(errorCount))
                             || (aborts == old(aborts) && errorCount == old(errorCount) + 1 && errorCount >= maxErrors)
      ensures log == if r.Made? then old(log) + [Entry(members, c)] else old(log)
    {
      c := *;
      var disturbed := Disturbed();
      var fails: bool := *;
      if disturbed {
        return Raised, c;
      }
      if fails {
        errorCount := errorCount + 1;
        if errorCount >= maxErrors {
          return Raised, c;
        }
        return Skipped, c;
      }
      log := log + [Entry(members, c)];
      return Made, c;
    }

    /** One task per cluster; they finish in any order and append their summaries as they do. */
    method SummarizeClusters(chunks: seq<Chunk>, clusters: seq<seq<nat>>)
      returns (ok: bool, all: seq<Chunk>, ghost order: seq<nat>, ghost entries: seq<Entry>)
      modifies this`errorCount, this`log, this`aborts
      ensures errorCount >= old(errorCount) && aborts >= old(aborts)
      ensures ok <==> aborts == old(aborts) && (errorCount == old(errorCount) || errorCount < maxErrors)
      ensures Finished(order, |clusters|) && |entries| == |order| && all == chunks + Summaries(entries)
      ensures forall k :: 0 <= k < |order| ==> entries[k].members == clusters[order[k]]
      ensures ok ==> errorCount == old(errorCount) + |clusters| - |order| && log == old(log) + entries
    {
      ok, all, order, entries := true, chunks, [], [];
      var todo := Range(|clusters|);
      RangeContents(|clusters|);
      while todo != {}
        invariant Finished(order, |clusters|) && |entries| == |order| && all == chunks + Summaries(entries)
        invariant forall k :: 0 <= k < |order| ==> entries[k].members == clusters[order[k]]
        invariant forall c :: c in todo ==> c < |clusters| && c !in order
        invariant errorCount == old(errorCount) + |clusters| - |order| - |todo| && log == old(log) + entries
        invariant errorCount >= old(errorCount) && aborts == old(aborts)
        invariant errorCount == old(errorCount) || errorCount < maxErrors
      {
        var c :| c in todo;
        var attempt, summary := Summarize(clusters[c]);
        if attempt.Raised? {
          ok := false;
          return;
        }
        if attempt.Made? {
          all := all + [summary];
          DistinctConcat(order, [c]);
          order, entries := order + [c], entries + [Entry(clusters[c], summary)];
        }
        todo := todo - {c};
      }
    }

    /**
      One round of the layer loop: cluster the chunks from start to end, summarise every cluster.  It
      succeeds exactly if nothing is disturbed, every chunk has a label and every cluster a chunk, and
      no cluster is skipped, except that a pair may be skipped as long as the errors stay below the cap.
     */
    method ClusterLayer(chunks: seq<Chunk>, start: nat, end: nat)
      returns (failure: seq<Outcome>, all: seq<Chunk>, lbls: seq<nat>,
               ghost n: nat, ghost order: seq<nat>, ghost entries: seq<Entry>)
      requires start + 2 <= end == |chunks|
      modifies this
      ensures aborts >= old(aborts) && unlabelled >= old(unlabelled) && emptied >= old(emptied)
      ensures errorCount >= old(errorCount)
      ensures failure == [] <==>
              && aborts == old(aborts) && unlabelled == old(unlabelled) && emptied == old(emptied)
              && (end - start > 2 ==> 1 < maxCluster && errorCount == old(errorCount))
              && (errorCount == old(errorCount) || errorCount < maxErrors)
      ensures failure == [] || failure == [Aborted] || failure == [NoClustering] || failure == [AssertionFailed]
      ensures failure == [Aborted] <==>
              aborts > old(aborts) || (errorCount > old(errorCount) && errorCount >= maxErrors)
      ensures failure == [NoClustering] <==>
              aborts == old(aborts) && end - start > 2 && (maxCluster <= 1 || unlabelled > old(unlabelled))
      ensures failure == [AssertionFailed] ==> emptied > old(emptied) || errorCount > old(errorCount)
      ensures failure == [] ==> all == chunks + Summaries(entries) && |lbls| == end - start
      ensures failure == [] ==> errorCount == old(errorCount) + n - |order| && log == old(log) + entries
      ensures failure == [] ==> Clustered(end - start, lbls, n, order) || (end - start == 2 && n == 1 && order == [])
      ensures failure == [] ==> SummariesOf(entries, lbls, start, order) && (end - start == 2 ==> lbls == [0, 0])
    {
      failure, all, order, entries := [], chunks, [], [];
      n, lbls := 1, [0, 0];
      var disturbed := Disturbed();
      if disturbed {
        failure := [Aborted];
        return;
      }
      var clusters := [[start, start + 1]];
      if end - start != 2 {
        failure, lbls, clusters := LabelLayer(start, end);
        if failure != [] {
          return;
        }
        n := |clusters|;
      } else {
        PairOfChunks(start);
      }
      var done;
      done, all, order, entries := SummarizeClusters(chunks, clusters);
      FinishedFits(order, n);
      if !done {
        failure := [Aborted];
      } else if end - start != 2 && |all| - end != |clusters| {
        failure := [AssertionFailed];
      }
    }

    /** The part of a round that finds the clusters of a layer of more than two chunks. */
    method LabelLayer(start: nat, end: nat)
      returns (failure: seq<Outcome>, lbls: seq<nat>, clusters: seq<seq<nat>>)
      requires start + 2 < end
      modifies this`aborts, this`unlabelled, this`emptied
      ensures aborts >= old(aborts) && unlabelled >= old(unlabelled) && emptied >= old(emptied)
      ensures failure == [] <==>
              aborts == old(aborts) && unlabelled == old(unlabelled) && emptied == old(emptied) && 1 < maxCluster
      ensures failure == [] || failure == [Aborted] || failure == [NoClustering] || failure == [AssertionFailed]
      ensures failure == [Aborted] <==> aborts > old(aborts)
      ensures failure == [NoClustering] <==>
              aborts == old(aborts) && (maxCluster <= 1 || unlabelled > old(unlabelled))
      ensures failure == [AssertionFailed] ==> emptied > old(emptied)
      ensures failure == [] ==> |lbls| == end - start && 0 < |clusters| < end - start
      ensures failure == [] ==> forall i :: 0 <= i < |lbls| ==> lbls[i] < |clusters|
      ensures failure == [] ==>
                forall c :: 0 <= c < |clusters| ==> c in lbls && clusters[c] == Members(lbls, start, c)
    {
      lbls, clusters := [], [];
      var disturbed, ok, count := PickClusters(end - start);
      if disturbed {
        return [Aborted], lbls, clusters;
      }
      if !ok {
        return [NoClustering], lbls, clusters;
      }
      ok, lbls := PickLabels(end - start, count);
      if !ok {
        return [NoClustering], lbls, clusters;
      }
      ok, clusters := CollectClusters(lbls, start, count);
      return if ok then [] else [AssertionFailed], lbls, clusters;
    }

    /**
      `__call__`.  Of a run that returns normally: the layers tile the chunks and shrink, there is a
      label for every chunk below the last layer, and with no cluster skipped every chunk but the
      last has one parent, in the next layer, shared by exactly its cluster.  At most one cluster
      can have been skipped, and only in a last layer of two chunks.  The chunks are the usable ones of
      the input followed by the summaries made, each of them from exactly its children.  As long as
      nothing is disturbed, labels are complete and no cluster is skipped, a call returns normally
      exactly if more than one cluster is allowed or there are at most two chunks.
     */
    method Build(input: seq<Chunk>) returns (r: Outcome, ghost parent: map<nat, nat>)
      modifies this
      ensures r.TooShort? <==> |input| <= 1
      ensures r.Built? ==> aborts == old(aborts) && unlabelled == old(unlabelled) && emptied == old(emptied)
      ensures r.Built? ==> errorCount == old(errorCount) || errorCount == old(errorCount) + 1 < maxErrors
      ensures |input| > 1 && errorCount == old(errorCount) ==>
                aborts == old(aborts) && unlabelled == old(unlabelled) && emptied == old(emptied) ==>
                  (r.Built? <==> 1 < maxCluster || |Filter(input)| <= 2)
      ensures r.Aborted? ==> aborts > old(aborts) || (errorCount > old(errorCount) && errorCount >= maxErrors)
      ensures r.NoClustering? ==> unlabelled > old(unlabelled) || (maxCluster <= 1 && |Filter(input)| > 2)
      ensures r.AssertionFailed? ==> emptied > old(emptied) || errorCount > old(errorCount)
      ensures r.Built? ==> r.layers != [] && old(log) <= log
      ensures r.Built? ==> r.chunks == Filter(input) + Summaries(log[|old(log)|..])
      ensures r.Built? && (forall i :: 0 <= i < |input| ==> input[i].text != "" && input[i].embedding != []) ==>
                input <= r.chunks
      ensures r.Built? ==> Ended(errorCount - old(errorCount), r.layers, r.labels, parent, |Filter(input)|, |r.chunks|,
                                 log[|old(log)|..])
    {
      parent := map[];
      if |input| <= 1 {
        return TooShort, parent;
      }
      var chunks := Keep(input);
      r, parent := BuildLayers(chunks);
    }

    /** The layer loop, from the chunks that are kept. */
    method BuildLayers(leaves: seq<Chunk>) returns (r: Outcome, ghost parent: map<nat, nat>)
      modifies this
      ensures !r.TooShort? && (r.Built? ==> old(log) <= log)
      ensures r.Built? ==> aborts == old(aborts) && unlabelled == old(unlabelled) && emptied == old(emptied)
      ensures r.Built? ==> errorCount == old(errorCount) || errorCount == old(errorCount) + 1 < maxErrors
      ensures errorCount == old(errorCount) && aborts == old(aborts) ==>
                unlabelled == old(unlabelled) && emptied == old(emptied) ==>
                  (r.Built? <==> 1 < maxCluster || |leaves| <= 2)
      ensures r.Aborted? ==> aborts > old(aborts) || (errorCount > old(errorCount) && errorCount >= maxErrors)
      ensures r.NoClustering? ==> unlabelled > old(unlabelled) || (maxCluster <= 1 && |leaves| > 2)
      ensures r.AssertionFailed? ==> emptied > old(emptied) || errorCount > old(errorCount)
      ensures r.Built? ==> r.layers != [] && r.chunks == leaves + Summaries(log[|old(log)|..])
      ensures r.Built? ==> Ended(errorCount - old(errorCount), r.layers, r.labels, parent, |leaves|, |r.chunks|,
                                 log[|old(log)|..])
    {
      parent := map[];
      var chunks := leaves;
      var layers := [Layer(0, |chunks|)];
      var start, end := 0, |chunks|;
      var labels: seq<nat> := [];
      ghost var made: seq<Entry> := [];
      NoLayerYet(|chunks|);
      while end - start > 1
        invariant start <= end == |chunks| && log == old(log) + made
        invariant errorCount == old(errorCount) || errorCount == old(errorCount) + 1 < maxErrors
        invariant aborts == old(aborts) && unlabelled == old(unlabelled) && emptied == old(emptied)
        invariant end - start <= |leaves| && (1 < maxCluster || |leaves| <= 2 || end - start == |leaves|)
        invariant chunks == leaves + Summaries(made)
        invariant Going(errorCount - old(errorCount), layers, labels, parent, |leaves|, start, end, made)
        decreases end - start
      {
        var failure, all, lbls;
        ghost var entries;
        failure, all, lbls, parent, entries := GrowLayer(chunks, start, end, layers, labels, parent, |leaves|, made);
        if failure != [] {
          return failure[0], parent;
        }
        made := made + entries;
        labels := labels + lbls;
        layers := layers + [Layer(end, |all|)];
        chunks := all;
        start, end := end, |all|;
      }
      return Built(chunks, layers, labels), parent;
    }

    /** A round of the loop, with what it does to the tree. */
    method GrowLayer(chunks: seq<Chunk>, start: nat, end: nat, ghost layers: seq<Layer>, ghost labels: seq<nat>,
                     ghost parent: map<nat, nat>, ghost leaves: nat, ghost made: seq<Entry>)
      returns (failure: seq<Outcome>, all: seq<Chunk>, lbls: seq<nat>,
               ghost grown: map<nat, nat>, ghost entries: seq<Entry>)
      requires start + 2 <= end == |chunks| && Going(0, layers, labels, parent, leaves, start, end, made)
      modifies this
      ensures aborts >= old(aborts) && unlabelled >= old(unlabelled) && emptied >= old(emptied)
      ensures errorCount >= old(errorCount)
      ensures failure == [] <==>
              && aborts == old(aborts) && unlabelled == old(unlabelled) && emptied == old(emptied)
              && (end - start > 2 ==> 1 < maxCluster && errorCount == old(errorCount))
              && (errorCount == old(errorCount) || errorCount < maxErrors)
      ensures failure == [] || failure == [Aborted] || failure == [NoClustering] || failure == [AssertionFailed]
      ensures failure == [Aborted] ==>
                aborts > old(aborts) || (errorCount > old(errorCount) && errorCount >= maxErrors)
      ensures failure == [NoClustering] ==> end - start > 2 && (maxCluster <= 1 || unlabelled > old(unlabelled))
      ensures failure == [AssertionFailed] ==> emptied > old(emptied) || errorCount > old(errorCount)
      ensures failure == [] ==> all == chunks + Summaries(entries) && log == old(log) + entries
      ensures failure == [] ==> |all| - end < end - start && errorCount <= old(errorCount) + 1
      ensures failure == [] ==> Going(errorCount - old(errorCount), layers + [Layer(end, |all|)], labels + lbls, grown,
                                      leaves, end, |all|, made + entries)
    {
      ghost var n, order;
      failure, all, lbls, n, order, entries := ClusterLayer(chunks, start, end);
      if failure == [] {
        grown := LayerDone(layers, labels, parent, leaves, start, end, made, lbls, n, order, entries);
        assert |all| == end + |order|;
      } else {
        grown := parent;
      }
    }

    method Keep(input: seq<Chunk>) returns (kept: seq<Chunk>)
      ensures kept == Filter(input)
      ensures (forall i :: 0 <= i < |input| ==> input[i].text != "" && input[i].embedding != []) ==> kept == input
    {
      if input != [] { FilterIs(input, input[0]); }
      kept := [];
      for i := 0 to |input|
        invariant kept == Filter(input[..i])
      {
        assert input[..i + 1][..i] == input[..i];
        if Usable(input[i]) {
          kept := kept + [input[i]];
        }
      }
      assert input[..|input|] == input;
    }
  }

  /** A pair whose summary was skipped leaves an empty last layer. */
  lemma EmptyLastLayer(layers: seq<Layer>, leaves: nat, start: nat, end: nat)
    requires Tiles(layers, leaves, end) && layers[|layers| - 1] == Layer(start, end) && end - start == 2
    ensures Tiles(layers + [Layer(end, end)], leaves, end)
  {
    var more := layers + [Layer(end, end)];
    forall i | 0 <= i < |more| - 1 ensures StepsDown(more, i) {
      if i < |layers| - 1 {
        assert StepsDown(layers, i);
      }
    }
  }

  /** A tree built without skipping has all its chunks below the last one. */
  lemma BuiltTreeHasOneRoot(layers: seq<Layer>, labels: seq<nat>, parent: map<nat, nat>, leaves: nat, n: nat,
                            log: seq<Entry>, i: nat)
    requires layers != [] && Ended(0, layers, labels, parent, leaves, n, log) && i < n
    ensures forall k :: k in parent ==> k < parent[k] < n
    ensures Root(parent, i, n) == n - 1
  {
    RootsAreLast(parent, i, n - 1, n);
  }

  /** With a pair skipped at the end, every chunk is below one of the last two. */
  lemma SkippedTreeHasTwoRoots(layers: seq<Layer>, labels: seq<nat>, parent: map<nat, nat>, leaves: nat, n: nat,
                               log: seq<Entry>, i: nat)
    requires layers != [] && Ended(1, layers, labels, parent, leaves, n, log) && i < n
    ensures forall k :: k in parent ==> k < parent[k] < n
    ensures Root(parent, i, n) == n - 2 || Root(parent, i, n) == n - 1
  {
    RootsAreLast(parent, i, n - 2, n);
  }

  /** Layers shrink, so there are at most as many layers after the first as it has chunks. */
  lemma {:induction false} LayersShrink(layers: seq<Layer>, leaves: nat, end: nat, l: nat)
    requires Tiles(layers, leaves, end) && l < |layers|
    ensures layers[l].Size() <= leaves - l
  {
    if l > 0 {
      assert StepsDown(layers, l - 1);
      LayersShrink(layers, leaves, end, l - 1);
    }
  }
}
