/**
  N-hop path growth (repos/ragflow/graphrag/utils.py, `is_continuous_subsequence` and
  `merge_tuples`): tuples of vertices grow by one edge per round, a tuple that has come back to one
  of its own vertices is kept as it is, and so is one that no edge may extend.

  The main results say exactly which tuples there are after any number of rounds, and that the
  growth stops by itself.
 */
module PathGrowth {
  import opened Basics

  function Last<V>(t: seq<V>): V
    requires t != []
  {
    t[|t| - 1]
  }

  /** a is immediately followed by b somewhere in s. */
  ghost predicate Follows<V>(a: V, b: V, s: seq<V>) {
    exists i :: 0 <= i < |s| - 1 && s[i] == a && s[i + 1] == b
  }

  /** The last vertex has been visited before. */
  predicate Closed<V(==)>(t: seq<V>)
    requires t != []
  {
    Last(t) in t[..|t| - 1]
  }

  /** The code's test for an edge that may extend a tuple: it continues it and is not yet used. */
  ghost predicate Usable<V>(e: (V, V), t: seq<V>)
    requires t != []
  {
    e.0 == Last(t) && !Follows(e.0, e.1, t) && !Follows(e.1, e.0, t)
  }

  ghost predicate NonEmptyTuples<V>(list: seq<seq<V>>) {
    forall i :: 0 <= i < |list| ==> list[i] != []
  }

  ghost function Extensions<V>(t: seq<V>, edges: seq<(V, V)>): (r: seq<seq<V>>)
    requires t != []
    ensures NonEmptyTuples(r)
  {
    if edges == [] then []
    else
      var n := |edges| - 1;
      var before := Extensions(t, edges[..n]);
      if Usable(edges[n], t) then before + [t + [edges[n].1]] else before
  }

  ghost function Grow<V>(t: seq<V>, edges: seq<(V, V)>): (r: seq<seq<V>>)
    requires t != []
    ensures NonEmptyTuples(r)
  {
    if Closed(t) || Extensions(t, edges) == [] then [t] else Extensions(t, edges)
  }

  /** One round of growth. */
  ghost function Merge<V>(list: seq<seq<V>>, edges: seq<(V, V)>): (r: seq<seq<V>>)
    requires NonEmptyTuples(list)
    ensures NonEmptyTuples(r)
  {
    if list == [] then [] else Merge(list[..|list| - 1], edges) + Grow(Last(list), edges)
  }

  ghost function EdgeTuples<V>(edges: seq<(V, V)>): (r: seq<seq<V>>)
    ensures NonEmptyTuples(r)
  {
    seq(|edges|, i requires 0 <= i < |edges| => [edges[i].0, edges[i].1])
  }

  /** Growth from single edges, k rounds long. */
  ghost function Iterate<V>(edges: seq<(V, V)>, k: nat): (r: seq<seq<V>>)
    ensures NonEmptyTuples(r)
  {
    if k == 0 then EdgeTuples(edges) else Merge(Iterate(edges, k - 1), edges)
  }

  // ----- The code

  method FindAllIndexes<V(==)>(tup: seq<V>, value: V) returns (indexes: seq<nat>)
    ensures forall i :: i in indexes <==> 0 <= i < |tup| && tup[i] == value
  {
    indexes := [];
    var start := 0;
    while start < |tup|
      invariant 0 <= start <= |tup|
      invariant forall i :: i in indexes <==> 0 <= i < start && tup[i] == value
    {
      var index := start;
      while index < |tup| && tup[index] != value
        invariant start <= index <= |tup|
        invariant forall i :: start <= i < index ==> tup[i] != value
      {
        index := index + 1;
      }
      if index == |tup| {
        break;
      }
      indexes := indexes + [index];
      start := index + 1;
    }
  }

  method IsContinuousSubsequence<V(==)>(subseq: (V, V), s: seq<V>) returns (found: bool)
    ensures found <==> Follows(subseq.0, subseq.1, s)
  {
    var indexList := FindAllIndexes(s, subseq.0);
    for n := 0 to |indexList|
      invariant forall m :: 0 <= m < n ==> !(indexList[m] < |s| - 1 && s[indexList[m] + 1] == subseq.1)
    {
      var idx := indexList[n];
      assert idx in indexList;
      if idx != |s| - 1 {
        if s[idx + 1] == subseq.1 {
          return true;
        }
      }
    }
    return false;
  }

  /** The inner loop: all one-edge extensions of a tuple, and whether there is any. */
  method ExtendTuple<V(==)>(tup: seq<V>, list2: seq<(V, V)>) returns (extended: seq<seq<V>>, matched: bool)
    requires tup != []
    ensures extended == Extensions(tup, list2) && (matched <==> extended != [])
  {
    extended, matched := [], false;
    for m := 0 to |list2|
      invariant extended == Extensions(tup, list2[..m]) && (matched <==> extended != [])
    {
      var edge := list2[m];
      assert list2[..m + 1][..m] == list2[..m];
      if edge.0 == tup[|tup| - 1] {
        var forward := IsContinuousSubsequence(edge, tup);
        var backward := IsContinuousSubsequence((edge.1, edge.0), tup);
        if !(forward || backward) {
          matched := true;
          extended := extended + [tup + [edge.1]];
        }
      }
    }
    assert list2[..|list2|] == list2;
  }

  method MergeTuples<V(==)>(list1: seq<seq<V>>, list2: seq<(V, V)>) returns (result: seq<seq<V>>)
    requires NonEmptyTuples(list1)
    ensures result == Merge(list1, list2)
  {
    result := [];
    for n := 0 to |list1|
      invariant result == Merge(list1[..n], list2)
    {
      var tup := list1[n];
      assert list1[..n + 1][..n] == list1[..n];
      var lastElement := tup[|tup| - 1];
      if lastElement in tup[..|tup| - 1] {
        result := result + [tup];
      } else {
        var extended, matched := ExtendTuple(tup, list2);
        result := result + extended;
        if !matched {
          assert result + [] == result;
          result := result + [tup];
        }
      }
    }
    assert list1[..|list1|] == list1;
  }

  // ----- What the tuples are

  predicate IsWalk<V(==)>(t: seq<V>, edges: seq<(V, V)>) {
    |t| >= 2 && forall i :: 0 <= i < |t| - 1 ==> (t[i], t[i + 1]) in edges
  }

  /** All vertices but possibly the last are distinct. */
  ghost predicate SimpleUpToLast<V>(t: seq<V>) {
    forall i, j :: 0 <= i < j < |t| - 1 ==> t[i] != t[j]
  }

  ghost predicate NeverStepsBack<V>(t: seq<V>) {
    forall i :: 0 <= i < |t| - 2 ==> t[i] != t[i + 2]
  }

  ghost predicate Trail<V>(t: seq<V>, edges: seq<(V, V)>) {
    IsWalk(t, edges) && SimpleUpToLast(t) && NeverStepsBack(t)
  }

  /** No edge leads on from the end of t, except straight back. */
  ghost predicate Stuck<V>(t: seq<V>, edges: seq<(V, V)>)
    requires |t| >= 2
  {
    forall e :: e in edges && e.0 == Last(t) ==> e.1 == t[|t| - 2]
  }

  ghost predicate Finished<V>(t: seq<V>, edges: seq<(V, V)>)
    requires |t| >= 2
  {
    Closed(t) || Stuck(t, edges)
  }

  /** On an open trail the edge-reuse test amounts to not stepping straight back. */
  lemma UsableIffNotBack<V>(e: (V, V), t: seq<V>, edges: seq<(V, V)>)
    requires Trail(t, edges) && !Closed(t)
    ensures Usable(e, t) <==> e.0 == Last(t) && e.1 != t[|t| - 2]
  {
    assert forall i :: 0 <= i < |t| - 1 ==> t[i] in t[..|t| - 1];
    if e.0 == Last(t) && e.1 == t[|t| - 2] {
      assert t[|t| - 2] == e.1 && t[|t| - 2 + 1] == e.0;
    }
  }

  /** A trail never uses an undirected edge twice. */
  lemma TrailUsesEdgesOnce<V>(t: seq<V>, edges: seq<(V, V)>, i: nat, j: nat)
    requires Trail(t, edges) && i < j < |t| - 1
    ensures (t[i], t[i + 1]) != (t[j], t[j + 1]) && (t[i], t[i + 1]) != (t[j + 1], t[j])
  {
    assert i + 2 < |t| && t[i] != t[i + 2];
  }

  // ----- One round

  lemma {:induction false} InExtensions<V>(t: seq<V>, edges: seq<(V, V)>, x: seq<V>)
    requires t != []
    ensures x in Extensions(t, edges) <==> exists e :: e in edges && Usable(e, t) && x == t + [e.1]
  {
    if edges != [] {
      var n := |edges| - 1;
      InExtensions(t, edges[..n], x);
      assert edges == edges[..n] + [edges[n]];
    }
  }

  lemma {:induction false} MergeSource<V>(list: seq<seq<V>>, edges: seq<(V, V)>, x: seq<V>) returns (i: nat)
    requires NonEmptyTuples(list) && x in Merge(list, edges)
    ensures i < |list| && x in Grow(list[i], edges)
  {
    i := |list| - 1;
    if x !in Grow(list[i], edges) {
      i := MergeSource(list[..i], edges, x);
    }
  }

  lemma {:induction false} MergeTarget<V>(list: seq<seq<V>>, edges: seq<(V, V)>, i: nat, x: seq<V>)
    requires NonEmptyTuples(list) && i < |list| && x in Grow(list[i], edges)
    ensures x in Merge(list, edges)
  {
    if i < |list| - 1 {
      MergeTarget(list[..|list| - 1], edges, i, x);
    }
  }

  /** What an open trail grows into. */
  lemma GrowTrail<V>(t: seq<V>, edges: seq<(V, V)>, x: seq<V>)
    requires Trail(t, edges)
    ensures x in Grow(t, edges) <==>
            if Finished(t, edges) then x == t
            else |x| == |t| + 1 && x[..|t|] == t && Trail(x, edges)
  {
    InExtensions(t, edges, x);
    if !Closed(t) {
      forall e ensures Usable(e, t) <==> e.0 == Last(t) && e.1 != t[|t| - 2] {
        UsableIffNotBack(e, t, edges);
      }
      if Stuck(t, edges) {
        NoExtensions(t, edges);
      } else {
        var e :| e in edges && e.0 == Last(t) && e.1 != t[|t| - 2];
        InExtensions(t, edges, t + [e.1]);
        ExtendTrail(t, edges, x);
      }
    }
  }

  lemma NoExtensions<V>(t: seq<V>, edges: seq<(V, V)>)
    requires t != [] && forall e :: e in edges ==> !Usable(e, t)
    ensures Extensions(t, edges) == []
  {
    if Extensions(t, edges) != [] {
      InExtensions(t, edges, Extensions(t, edges)[0]);
    }
  }

  /** One-vertex extensions of an open trail that are trails. */
  lemma ExtendTrail<V>(t: seq<V>, edges: seq<(V, V)>, x: seq<V>)
    requires Trail(t, edges) && !Closed(t)
    ensures (exists e :: e in edges && e.0 == Last(t) && e.1 != t[|t| - 2] && x == t + [e.1]) <==>
            |x| == |t| + 1 && x[..|t|] == t && Trail(x, edges)
  {
    var n := |t|;
    if |x| == n + 1 && x[..n] == t {
      assert forall i :: 0 <= i < n ==> x[i] == t[i];
      assert x == t + [x[n]];
      assert forall i :: 0 <= i < n - 1 ==> t[i] in t[..n - 1];
      if Trail(x, edges) {
        assert (x[n - 1], x[n - 1 + 1]) in edges;
        assert x[n - 2] != x[n - 2 + 2];
      }
    }
  }

  // ----- Any number of rounds

  /** What a tuple present after k rounds must be. */
  ghost predicate PresentAfter<V>(t: seq<V>, edges: seq<(V, V)>, k: nat) {
    Trail(t, edges) && (|t| == k + 2 || (|t| < k + 2 && Finished(t, edges)))
  }

  /**
    After k rounds there are exactly the trails of k + 1 edges and the shorter trails that came back
    to themselves or lead nowhere but back.
   */
  lemma TuplesAfterRounds<V>(edges: seq<(V, V)>, k: nat, t: seq<V>)
    ensures t in Iterate(edges, k) <==> PresentAfter(t, edges, k)
  {
    if t in Iterate(edges, k) { TuplesAreTrails(edges, k, t); }
    if PresentAfter(t, edges, k) { TrailsAreTuples(edges, k, t); }
  }

  ghost predicate AllPresent<V>(list: seq<seq<V>>, edges: seq<(V, V)>, k: nat) {
    forall i :: 0 <= i < |list| ==> PresentAfter(list[i], edges, k)
  }

  lemma TuplesAreTrails<V>(edges: seq<(V, V)>, k: nat, t: seq<V>)
    requires t in Iterate(edges, k)
    ensures PresentAfter(t, edges, k)
  {
    AllTuplesAreTrails(edges, k);
  }

  lemma {:induction false} AllTuplesAreTrails<V>(edges: seq<(V, V)>, k: nat)
    ensures AllPresent(Iterate(edges, k), edges, k)
  {
    if k == 0 {
      forall i | 0 <= i < |edges| ensures PresentAfter(EdgeTuples(edges)[i], edges, 0) {
        TuplesAtStart(edges, EdgeTuples(edges)[i]);
      }
    } else {
      AllTuplesAreTrails(edges, k - 1);
      MergeIsPresent(Iterate(edges, k - 1), edges, k);
    }
  }

  lemma MergeIsPresent<V>(list: seq<seq<V>>, edges: seq<(V, V)>, k: nat)
    requires k > 0 && NonEmptyTuples(list) && AllPresent(list, edges, k - 1)
    ensures AllPresent(Merge(list, edges), edges, k)
  {
    var merged := Merge(list, edges);
    forall i | 0 <= i < |merged| ensures PresentAfter(merged[i], edges, k) {
      var m := MergeSource(list, edges, merged[i]);
      GrowPresent(edges, k, list[m], merged[i]);
    }
  }

  lemma {:induction false} TrailsAreTuples<V>(edges: seq<(V, V)>, k: nat, t: seq<V>)
    requires PresentAfter(t, edges, k)
    ensures t in Iterate(edges, k)
  {
    if k == 0 {
      TuplesAtStart(edges, t);
    } else {
      var u := GrownFrom(edges, k, t);
      TrailsAreTuples(edges, k - 1, u);
      var i: nat :| i < |Iterate(edges, k - 1)| && Iterate(edges, k - 1)[i] == u;
      MergeTarget(Iterate(edges, k - 1), edges, i, t);
    }
  }

  lemma GrowPresent<V>(edges: seq<(V, V)>, k: nat, u: seq<V>, t: seq<V>)
    requires k > 0 && PresentAfter(u, edges, k - 1) && t in Grow(u, edges)
    ensures PresentAfter(t, edges, k)
  {
    GrowTrail(u, edges, t);
  }

  lemma TuplesAtStart<V>(edges: seq<(V, V)>, t: seq<V>)
    ensures t in EdgeTuples(edges) <==> PresentAfter(t, edges, 0)
  {
    if PresentAfter(t, edges, 0) {
      assert (t[0], t[0 + 1]) in edges;
      var i :| 0 <= i < |edges| && edges[i] == (t[0], t[1]);
      assert EdgeTuples(edges)[i] == t;
    }
    if t in EdgeTuples(edges) {
      var i :| 0 <= i < |edges| && EdgeTuples(edges)[i] == t;
      assert edges[i] in edges;
    }
  }

  /** The tuple of the round before that a tuple comes from. */
  lemma GrownFrom<V>(edges: seq<(V, V)>, k: nat, t: seq<V>) returns (u: seq<V>)
    requires k > 0 && PresentAfter(t, edges, k)
    ensures PresentAfter(u, edges, k - 1)
    ensures t in Grow(u, edges)
  {
    if |t| == k + 2 {
      u := t[..k + 1];
      PrefixOfTrail(t, edges);
    } else {
      u := t;
    }
    GrowTrail(u, edges, t);
  }

  lemma PrefixOfTrail<V>(t: seq<V>, edges: seq<(V, V)>)
    requires Trail(t, edges) && |t| >= 3
    ensures var u := t[..|t| - 1]; Trail(u, edges) && !Finished(u, edges)
  {
    var n := |t| - 1;
    var u := t[..n];
    assert forall i :: 0 <= i < n ==> u[i] == t[i];
    assert (t[n - 1], t[n - 1 + 1]) in edges;
    assert t[n - 2] != t[n - 2 + 2];
  }

  // ----- No tuple is produced twice

  lemma {:induction false} ExtensionsDistinct<V>(t: seq<V>, edges: seq<(V, V)>)
    requires t != [] && Distinct(edges)
    ensures Distinct(Extensions(t, edges))
  {
    if edges != [] {
      var n := |edges| - 1;
      ExtensionsDistinct(t, edges[..n]);
      if Usable(edges[n], t) {
        var x := t + [edges[n].1];
        InExtensions(t, edges[..n], x);
        forall e | e in edges[..n] && Usable(e, t) ensures t + [e.1] != x {
          assert (t + [e.1])[|t|] == e.1;
        }
        DistinctConcat(Extensions(t, edges[..n]), [x]);
      }
    }
  }

  /** Different tuples of one round have no successor in common. */
  lemma GrowInjective<V>(edges: seq<(V, V)>, k: nat, u: seq<V>, v: seq<V>, x: seq<V>)
    requires PresentAfter(u, edges, k) && PresentAfter(v, edges, k)
    requires x in Grow(u, edges) && x in Grow(v, edges)
    ensures u == v
  {
    GrowTrail(u, edges, x);
    GrowTrail(v, edges, x);
  }

  lemma {:induction false} MergeDistinct<V>(list: seq<seq<V>>, edges: seq<(V, V)>, k: nat)
    requires NonEmptyTuples(list) && Distinct(edges) && Distinct(list) && AllPresent(list, edges, k)
    ensures Distinct(Merge(list, edges))
  {
    if list != [] {
      var n := |list| - 1;
      MergeDistinct(list[..n], edges, k);
      ExtensionsDistinct(list[n], edges);
      GrowIsNew(list, edges, k);
      DistinctConcat(Merge(list[..n], edges), Grow(list[n], edges));
    }
  }

  /** What the last tuple grows into has not been produced before. */
  lemma GrowIsNew<V>(list: seq<seq<V>>, edges: seq<(V, V)>, k: nat)
    requires list != [] && NonEmptyTuples(list) && Distinct(list) && AllPresent(list, edges, k)
    ensures var n := |list| - 1;
            forall i :: 0 <= i < |Grow(list[n], edges)| ==> Grow(list[n], edges)[i] !in Merge(list[..n], edges)
  {
    var n := |list| - 1;
    var before, last := Merge(list[..n], edges), Grow(list[n], edges);
    forall i | 0 <= i < |last| ensures last[i] !in before {
      if last[i] in before {
        var m := MergeSource(list[..n], edges, last[i]);
        GrowInjective(edges, k, list[..n][m], list[n], last[i]);
      }
    }
  }

  lemma EdgeTuplesDistinct<V>(edges: seq<(V, V)>)
    requires Distinct(edges)
    ensures Distinct(EdgeTuples(edges))
  {
    forall i, j | 0 <= i < j < |edges| ensures EdgeTuples(edges)[i] != EdgeTuples(edges)[j] {
      assert EdgeTuples(edges)[i][0] == edges[i].0 && EdgeTuples(edges)[i][1] == edges[i].1;
      assert EdgeTuples(edges)[j][0] == edges[j].0 && EdgeTuples(edges)[j][1] == edges[j].1;
    }
  }

  /** From distinct edges, no round produces a tuple twice. */
  lemma {:induction false} TuplesAreDistinct<V>(edges: seq<(V, V)>, k: nat)
    requires Distinct(edges)
    ensures Distinct(Iterate(edges, k))
  {
    if k == 0 {
      EdgeTuplesDistinct(edges);
    } else {
      TuplesAreDistinct(edges, k - 1);
      AllTuplesAreTrails(edges, k - 1);
      MergeDistinct(Iterate(edges, k - 1), edges, k - 1);
    }
  }

  // ----- Growth stops

  ghost function Vertices<V>(edges: seq<(V, V)>): set<V> {
    (set e | e in edges :: e.0) + (set e | e in edges :: e.1)
  }

  /** A trail has at most one vertex more than the graph, and one that long is closed. */
  lemma TrailLength<V>(t: seq<V>, edges: seq<(V, V)>)
    requires Trail(t, edges)
    ensures |t| <= |Vertices(edges)| + 1
    ensures |t| == |Vertices(edges)| + 1 ==> Closed(t)
  {
    var n := |t| - 1;
    forall i | 0 <= i < |t| ensures t[i] in Vertices(edges) {
      var e := if i < n then (t[i], t[i + 1]) else (t[i - 1], t[i - 1 + 1]);
      assert e in edges;
    }
    DistinctFits(t[..n], Vertices(edges));
  }

  ghost predicate AllStay<V>(list: seq<seq<V>>, edges: seq<(V, V)>)
    requires NonEmptyTuples(list)
  {
    forall i :: 0 <= i < |list| ==> Grow(list[i], edges) == [list[i]]
  }

  lemma {:induction false} MergeKeeps<V>(list: seq<seq<V>>, edges: seq<(V, V)>, n: nat)
    requires NonEmptyTuples(list) && AllStay(list, edges) && n <= |list|
    ensures Merge(list[..n], edges) == list[..n]
  {
    if n > 0 {
      MergeKeeps(list, edges, n - 1);
      MergeNext(list, edges, n - 1);
      assert Grow(list[n - 1], edges) == [list[n - 1]];
    }
  }

  lemma MergeNext<V>(list: seq<seq<V>>, edges: seq<(V, V)>, n: nat)
    requires NonEmptyTuples(list) && n < |list|
    ensures list[..n + 1] == list[..n] + [list[n]]
    ensures Merge(list[..n + 1], edges) == Merge(list[..n], edges) + Grow(list[n], edges)
  {
    assert list[..n + 1][..n] == list[..n] && Last(list[..n + 1]) == list[n];
  }

  lemma GrowFinished<V>(t: seq<V>, edges: seq<(V, V)>)
    requires Trail(t, edges) && Finished(t, edges)
    ensures Grow(t, edges) == [t]
  {
    if !Closed(t) {
      forall e | e in edges ensures !Usable(e, t) {
        UsableIffNotBack(e, t, edges);
      }
      NoExtensions(t, edges);
    }
  }

  /**
    From round |V| - 1 on nothing changes any more, and the tuples are exactly the finished trails.
   */
  lemma GrowthStops<V>(edges: seq<(V, V)>, k: nat)
    requires k + 1 >= |Vertices(edges)|
    ensures Iterate(edges, k + 1) == Iterate(edges, k)
    ensures forall t :: t in Iterate(edges, k) <==> |t| >= 2 && Trail(t, edges) && Finished(t, edges)
  {
    var list := Iterate(edges, k);
    forall t ensures t in list <==> |t| >= 2 && Trail(t, edges) && Finished(t, edges) {
      PresentAtTheEnd(edges, k, t);
    }
    forall i | 0 <= i < |list| ensures Grow(list[i], edges) == [list[i]] {
      PresentAtTheEnd(edges, k, list[i]);
      GrowFinished(list[i], edges);
    }
    MergeKeeps(list, edges, |list|);
    assert list[..|list|] == list;
  }

  lemma PresentAtTheEnd<V>(edges: seq<(V, V)>, k: nat, t: seq<V>)
    requires k + 1 >= |Vertices(edges)|
    ensures t in Iterate(edges, k) <==> |t| >= 2 && Trail(t, edges) && Finished(t, edges)
  {
    TuplesAfterRounds(edges, k, t);
    if Trail(t, edges) { TrailLength(t, edges); }
  }
}
