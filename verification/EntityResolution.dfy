/**
  Entity resolution (repos/ragflow/graphrag/entity_resolution.py): nodes of one type are paired up, a
  language model says which pairs are the same entity, and the connected groups of accepted pairs are
  merged.

  The model's replies are arbitrary.  The main result is that whatever they are, every group that is
  merged has one entity type and contains a node of the new subgraph.
 */
module EntityResolution {
  import opened Basics

  type Pair = (string, string)

  /** Nodes with their attributes. */
  type Nodes = map<string, map<string, string>>

  const BATCH := 100

  function EntityType(g: Nodes, n: string): string {
    if n in g && "entity_type" in g[n] then g[n]["entity_type"] else "-"
  }

  // ----- Candidate pairs

  function OfType(g: Nodes, nodes: seq<string>, t: string): seq<string> {
    if nodes == [] then []
    else
      var n := |nodes| - 1;
      OfType(g, nodes[..n], t) + if EntityType(g, nodes[n]) == t then [nodes[n]] else []
  }

  method ClusterByType(g: Nodes, nodes: seq<string>) returns (clusters: map<string, seq<string>>)
    ensures forall t :: t in clusters <==> OfType(g, nodes, t) != []
    ensures forall t :: t in clusters ==> clusters[t] == OfType(g, nodes, t)
  {
    clusters := map[];
    for k := 0 to |nodes|
      invariant forall t :: t in clusters <==> OfType(g, nodes[..k], t) != []
      invariant forall t :: t in clusters ==> clusters[t] == OfType(g, nodes[..k], t)
    {
      var node := nodes[k];
      var t := EntityType(g, node);
      assert nodes[..k + 1][..k] == nodes[..k];
      forall u ensures OfType(g, nodes[..k + 1], u) == OfType(g, nodes[..k], u) + if t == u then [node] else [] { }
      clusters := clusters[t := (if t in clusters then clusters[t] else []) + [node]];
    }
    assert nodes[..|nodes|] == nodes;
  }

  lemma {:induction false} OfTypeMembers(g: Nodes, nodes: seq<string>, t: string, x: string)
    ensures x in OfType(g, nodes, t) <==> x in nodes && EntityType(g, x) == t
  {
    if nodes != [] {
      var n := |nodes| - 1;
      OfTypeMembers(g, nodes[..n], t, x);
      assert nodes == nodes[..n] + [nodes[n]];
    }
  }

  lemma {:induction false} OfTypeDistinct(g: Nodes, nodes: seq<string>, t: string)
    requires Distinct(nodes)
    ensures Distinct(OfType(g, nodes, t))
  {
    if nodes != [] {
      var n := |nodes| - 1;
      OfTypeDistinct(g, nodes[..n], t);
      OfTypeMembers(g, nodes[..n], t, nodes[n]);
      assert nodes[n] !in nodes[..n];
      if EntityType(g, nodes[n]) == t {
        DistinctConcat(OfType(g, nodes[..n], t), [nodes[n]]);
      }
    }
  }

  predicate Eligible(a: string, b: string, subgraph: set<string>, similar: (string, string) -> bool) {
    (a in subgraph || b in subgraph) && similar(a, b)
  }

  /** f(0), f(1) and so on up to f(n - 1), one after the other. */
  function Flat<T>(f: nat -> seq<T>, n: nat): seq<T> {
    if n == 0 then [] else Flat(f, n - 1) + f(n - 1)
  }

  lemma {:induction false} InFlat<T>(f: nat -> seq<T>, n: nat, p: T) returns (k: nat)
    requires p in Flat(f, n)
    ensures k < n && p in f(k)
  {
    k := n - 1;
    if p !in f(k) {
      k := InFlat(f, n - 1, p);
    }
  }

  lemma {:induction false} FlatHas<T>(f: nat -> seq<T>, n: nat, k: nat, p: T)
    requires k < n && p in f(k)
    ensures p in Flat(f, n)
  {
    if k < n - 1 {
      FlatHas(f, n - 1, k, p);
    }
  }

  lemma {:induction false} FlatOfNothing<T>(f: nat -> seq<T>, n: nat)
    requires forall k :: 0 <= k < n ==> f(k) == []
    ensures Flat(f, n) == []
  {
    if n > 0 {
      FlatOfNothing(f, n - 1);
    }
  }

  /** The question about positions x and y, if there is one. */
  function Cell(v: seq<string>, x: nat, y: nat, subgraph: set<string>, similar: (string, string) -> bool): seq<Pair> {
    if x < y < |v| && Eligible(v[x], v[y], subgraph, similar) then [(v[x], v[y])] else []
  }

  function Cells(v: seq<string>, x: nat, subgraph: set<string>, similar: (string, string) -> bool): nat -> seq<Pair> {
    (y: nat) => Cell(v, x, y, subgraph, similar)
  }

  function Rows(v: seq<string>, subgraph: set<string>, similar: (string, string) -> bool): nat -> seq<Pair> {
    (x: nat) => Flat(Cells(v, x, subgraph, similar), |v|)
  }

  /** The questions about the nodes v of one type, in the order of the nested scan. */
  function Questions(v: seq<string>, subgraph: set<string>, similar: (string, string) -> bool): seq<Pair> {
    Flat(Rows(v, subgraph, similar), |v|)
  }

  lemma FlatOneMore<T>(f: nat -> seq<T>, n: nat, part: seq<T>)
    requires f(n) == part
    ensures Flat(f, n + 1) == Flat(f, n) + part
  {
  }

  /** A position is not paired with itself or with earlier ones. */
  lemma NoEarlierCells(v: seq<string>, x: nat, subgraph: set<string>, similar: (string, string) -> bool)
    ensures Flat(Cells(v, x, subgraph, similar), x + 1) == []
  {
    forall y | 0 <= y < x + 1 ensures Cells(v, x, subgraph, similar)(y) == [] {
      assert Cell(v, x, y, subgraph, similar) == [];
    }
    FlatOfNothing(Cells(v, x, subgraph, similar), x + 1);
  }

  /** The inner loop: the pairs with position i first. */
  method CandidateRow(v: seq<string>, i: nat, subgraph: set<string>, similar: (string, string) -> bool)
    returns (row: seq<Pair>)
    requires i < |v|
    ensures row == Rows(v, subgraph, similar)(i)
  {
    row := [];
    ghost var cells := Cells(v, i, subgraph, similar);
    NoEarlierCells(v, i, subgraph, similar);
    for j := i + 1 to |v|
      invariant row == Flat(cells, j)
    {
      FlatOneMore(cells, j, Cell(v, i, j, subgraph, similar));
      if (v[i] in subgraph || v[j] in subgraph) && similar(v[i], v[j]) {
        row := row + [(v[i], v[j])];
      } else {
        assert row + [] == row;
      }
    }
    assert Rows(v, subgraph, similar)(i) == Flat(cells, |v|);
  }

  method Candidates(v: seq<string>, subgraph: set<string>, similar: (string, string) -> bool) returns (pairs: seq<Pair>)
    ensures pairs == Questions(v, subgraph, similar)
  {
    pairs := [];
    for i := 0 to |v|
      invariant pairs == Flat(Rows(v, subgraph, similar), i)
    {
      var row := CandidateRow(v, i, subgraph, similar);
      pairs := pairs + row;
    }
  }

  ghost predicate PairAt(v: seq<string>, x: int, y: int, p: Pair) {
    0 <= x < y < |v| && p == (v[x], v[y])
  }

  /** Every question is an eligible pair of positions. */
  lemma QuestionIsPair(v: seq<string>, subgraph: set<string>, similar: (string, string) -> bool, p: Pair)
    returns (x: nat, y: nat)
    requires p in Questions(v, subgraph, similar)
    ensures PairAt(v, x, y, p) && Eligible(p.0, p.1, subgraph, similar)
  {
    x := InFlat(Rows(v, subgraph, similar), |v|, p);
    y := InFlat(Cells(v, x, subgraph, similar), |v|, p);
  }

  /** Every eligible pair of positions is a question. */
  lemma PairIsQuestion(v: seq<string>, subgraph: set<string>, similar: (string, string) -> bool, x: nat, y: nat)
    requires x < y < |v| && Eligible(v[x], v[y], subgraph, similar)
    ensures (v[x], v[y]) in Questions(v, subgraph, similar)
  {
    FlatHas(Cells(v, x, subgraph, similar), |v|, y, (v[x], v[y]));
    FlatHas(Rows(v, subgraph, similar), |v|, x, (v[x], v[y]));
  }

  /** What a pair asked about is: two different nodes of one type, one of them new, that look similar. */
  ghost predicate Candidate(g: Nodes, nodes: seq<string>, subgraph: set<string>,
                            similar: (string, string) -> bool, p: Pair)
  {
    && p.0 in nodes && p.1 in nodes && p.0 != p.1 && EntityType(g, p.0) == EntityType(g, p.1)
    && (p.0 in subgraph || p.1 in subgraph) && similar(p.0, p.1)
  }

  lemma PairOfCluster(g: Nodes, nodes: seq<string>, t: string, x: nat, y: nat)
    requires Distinct(nodes) && x < y < |OfType(g, nodes, t)|
    ensures var v := OfType(g, nodes, t);
            && v[x] in nodes && v[y] in nodes && v[x] != v[y]
            && EntityType(g, v[x]) == t && EntityType(g, v[y]) == t
  {
    var v := OfType(g, nodes, t);
    OfTypeMembers(g, nodes, t, v[x]);
    OfTypeMembers(g, nodes, t, v[y]);
    OfTypeDistinct(g, nodes, t);
  }

  /** a is somewhere before b. */
  ghost predicate Precedes(v: seq<string>, a: string, b: string) {
    exists x, y :: PairAt(v, x, y, (a, b))
  }

  lemma PrecedesSnoc(v: seq<string>, c: string, a: string, b: string)
    ensures Precedes(v + [c], a, b) <==> Precedes(v, a, b) || (a in v && b == c)
  {
    var w := v + [c];
    if Precedes(v, a, b) {
      var x, y :| PairAt(v, x, y, (a, b));
      assert PairAt(w, x, y, (a, b));
    }
    if a in v && b == c {
      var x :| 0 <= x < |v| && v[x] == a;
      assert PairAt(w, x, |v|, (a, b));
    }
    if Precedes(w, a, b) {
      var x, y :| PairAt(w, x, y, (a, b));
      assert v[x] == a;
      assert y < |v| ==> PairAt(v, x, y, (a, b));
    }
  }

  /** The nodes of one type keep their order. */
  lemma {:induction false} OfTypeOrder(g: Nodes, nodes: seq<string>, t: string, a: string, b: string)
    ensures Precedes(OfType(g, nodes, t), a, b) <==>
            Precedes(nodes, a, b) && EntityType(g, a) == t && EntityType(g, b) == t
  {
    if nodes != [] {
      var n := |nodes| - 1;
      OfTypeOrder(g, nodes[..n], t, a, b);
      OfTypeMembers(g, nodes[..n], t, a);
      PrecedesSnoc(nodes[..n], nodes[n], a, b);
      var before := OfType(g, nodes[..n], t);
      PrecedesSnoc(before, nodes[n], a, b);
      assert nodes == nodes[..n] + [nodes[n]];
      assert OfType(g, nodes, t) == if EntityType(g, nodes[n]) == t then before + [nodes[n]] else before;
    }
  }

  /** The questions about one type are exactly its candidates, in the order of the nodes. */
  lemma QuestionsAreCandidates(g: Nodes, nodes: seq<string>, subgraph: set<string>, similar: (string, string) -> bool,
                               t: string, p: Pair)
    requires Distinct(nodes)
    ensures p in Questions(OfType(g, nodes, t), subgraph, similar) <==>
            Candidate(g, nodes, subgraph, similar, p) && EntityType(g, p.0) == t && Precedes(nodes, p.0, p.1)
  {
    var v := OfType(g, nodes, t);
    OfTypeOrder(g, nodes, t, p.0, p.1);
    if p in Questions(v, subgraph, similar) {
      var x, y := QuestionIsPair(v, subgraph, similar, p);
      PairOfCluster(g, nodes, t, x, y);
      assert Precedes(v, p.0, p.1);
    }
    if Eligible(p.0, p.1, subgraph, similar) && Precedes(v, p.0, p.1) {
      var x, y :| PairAt(v, x, y, (p.0, p.1));
      PairIsQuestion(v, subgraph, similar, x, y);
    }
  }

  // ----- Batches

  function BatchCount(n: nat): nat { (n + BATCH - 1) / BATCH }

  /** Batch number k of a list of questions. */
  function Batch(pairs: seq<Pair>, k: nat): (b: seq<Pair>)
    requires k < BatchCount(|pairs|)
    ensures 0 < |b| <= BATCH
  {
    pairs[k * BATCH..Min((k + 1) * BATCH, |pairs|)]
  }

  method Batches(pairs: seq<Pair>) returns (batches: seq<seq<Pair>>)
    ensures |batches| == BatchCount(|pairs|)
    ensures forall k :: 0 <= k < |batches| ==> batches[k] == Batch(pairs, k)
  {
    batches := [];
    var i := 0;
    while i < |pairs|
      invariant i == |batches| * BATCH && |batches| <= BatchCount(|pairs|)
      invariant forall k :: 0 <= k < |batches| ==> batches[k] == Batch(pairs, k)
    {
      batches := batches + [pairs[i..Min(i + BATCH, |pairs|)]];
      i := i + BATCH;
    }
  }

  /** No question is lost: each is in the batch that its position says. */
  lemma QuestionHasBatch(pairs: seq<Pair>, i: nat)
    requires i < |pairs|
    ensures i / 100 < BatchCount(|pairs|) && i % 100 < |Batch(pairs, i / 100)|
    ensures Batch(pairs, i / 100)[i % 100] == pairs[i]
  {
    var k, m := i / BATCH, i % BATCH;
    assert i == k * BATCH + m && k < BatchCount(|pairs|);
    var lo, hi := k * BATCH, Min((k + 1) * BATCH, |pairs|);
    assert m < hi - lo && pairs[lo..hi][m] == pairs[lo + m];
  }

  // ----- Replies

  /** What the two patterns find in a record of a reply: a number, zero if none, and a word. */
  datatype Record = Record(number: nat, word: string)

  function Lower(s: string): string {
    seq(|s|, i requires 0 <= i < |s| => if 'A' <= s[i] <= 'Z' then s[i] - 'A' + 'a' else s[i])
  }

  /** Yes counts in any mixture of capital and small letters. */
  lemma YesInAnyCase(w: string)
    ensures Lower(w) == "yes" <==>
            |w| == 3 && (w[0] == 'y' || w[0] == 'Y') && (w[1] == 'e' || w[1] == 'E') && (w[2] == 's' || w[2] == 'S')
  {
    if |w| == 3 {
      var l := Lower(w);
      assert l == [l[0], l[1], l[2]] && "yes" == ['y', 'e', 's'];
      LowerOne(w[0], 'y', 'Y');
      LowerOne(w[1], 'e', 'E');
      LowerOne(w[2], 's', 'S');
    }
  }

  lemma LowerOne(c: char, small: char, capital: char)
    requires 'A' <= capital <= 'Z' && small == capital - 'A' + 'a'
    ensures (if 'A' <= c <= 'Z' then c - 'A' + 'a' else c) == small <==> c == small || c == capital
  {
  }

  predicate Accepts(r: Record, questions: nat) {
    0 < r.number <= questions && Lower(r.word) == "yes"
  }

  /** The question numbers answered with yes. */
  method ProcessResults(questions: nat, records: seq<Record>) returns (answers: seq<nat>)
    ensures forall k :: k in answers <==>
              exists i :: 0 <= i < |records| && Accepts(records[i], questions) && records[i].number == k
    ensures forall k :: k in answers ==> 1 <= k <= questions
  {
    answers := [];
    for n := 0 to |records|
      invariant forall k :: k in answers <==>
                  exists i :: 0 <= i < n && Accepts(records[i], questions) && records[i].number == k
    {
      var record := records[n];
      if record.number > questions {
        continue;
      }
      if record.number != 0 && record.word != "" {
        if Lower(record.word) == "yes" {
          answers := answers + [record.number];
        }
      }
    }
  }

  /** Question number k of a batch was answered with yes. */
  ghost predicate SaysYes(reply: seq<Record>, batch: seq<Pair>, p: Pair) {
    exists i :: 0 <= i < |reply| && Accepts(reply[i], |batch|) && batch[reply[i].number - 1] == p
  }

  /** Adds the pairs of a batch that the reply says yes to; a reply that fails to arrive is empty. */
  method ResolveBatch(batch: seq<Pair>, reply: seq<Record>, accepted: set<Pair>) returns (r: set<Pair>)
    ensures forall p :: p in r <==> p in accepted || SaysYes(reply, batch, p)
    ensures forall p :: p in r ==> p in accepted || p in batch
  {
    r := accepted;
    var answers := ProcessResults(|batch|, reply);
    forall m | 0 <= m < |answers| ensures 1 <= answers[m] <= |batch| {
      assert answers[m] in answers;
    }
    for k := 0 to |answers|
      invariant forall p :: p in r <==> p in accepted || exists m :: 0 <= m < k && batch[answers[m] - 1] == p
    {
      assert answers[k] in answers;
      r := r + {batch[answers[k] - 1]};
    }
    forall p ensures SaysYes(reply, batch, p) <==> exists m :: 0 <= m < |answers| && batch[answers[m] - 1] == p {
      if m :| 0 <= m < |answers| && batch[answers[m] - 1] == p {
        assert answers[m] in answers;
      }
      if SaysYes(reply, batch, p) {
        var i :| 0 <= i < |reply| && Accepts(reply[i], |batch|) && batch[reply[i].number - 1] == p;
        assert reply[i].number in answers;
      }
    }
  }

  /** What the replies to the batches of one type accept, up to batch number n. */
  ghost predicate AcceptedBefore(pairs: seq<Pair>, reply: nat -> seq<Record>, n: nat, p: Pair)
    requires n <= BatchCount(|pairs|)
  {
    exists k :: 0 <= k < n && SaysYes(reply(k), Batch(pairs, k), p)
  }

  /** What the replies to all batches of one type accept. */
  ghost predicate AcceptedOf(pairs: seq<Pair>, reply: nat -> seq<Record>, p: Pair) {
    AcceptedBefore(pairs, reply, BatchCount(|pairs|), p)
  }

  /** All batches of one type. */
  method ResolveType(v: seq<string>, subgraph: set<string>, similar: (string, string) -> bool,
                     reply: nat -> seq<Record>, accepted: set<Pair>) returns (r: set<Pair>)
    ensures forall p :: p in r <==> p in accepted || AcceptedOf(Questions(v, subgraph, similar), reply, p)
  {
    r := accepted;
    var pairs := Candidates(v, subgraph, similar);
    var batches := Batches(pairs);
    for n := 0 to |batches|
      invariant forall p :: p in r <==> p in accepted || AcceptedBefore(pairs, reply, n, p)
    {
      ghost var before := r;
      r := ResolveBatch(batches[n], reply(n), r);
      forall p ensures p in r <==> p in accepted || AcceptedBefore(pairs, reply, n + 1, p) {
        assert p in r <==> p in before || SaysYes(reply(n), Batch(pairs, n), p);
        assert p in before <==> p in accepted || AcceptedBefore(pairs, reply, n, p);
      }
    }
  }

  /** Some type has a batch whose reply says yes to the pair. */
  ghost predicate Accepted(g: Nodes, nodes: seq<string>, subgraph: set<string>, similar: (string, string) -> bool,
                           reply: string -> nat -> seq<Record>, p: Pair)
  {
    exists t :: AcceptedOf(Questions(OfType(g, nodes, t), subgraph, similar), reply(t), p)
  }

  /** The pairs to merge, from the replies to every batch of every type. */
  method Resolve(g: Nodes, nodes: seq<string>, subgraph: set<string>, similar: (string, string) -> bool,
                 reply: string -> nat -> seq<Record>)
    returns (accepted: set<Pair>)
    ensures forall p :: p in accepted <==> Accepted(g, nodes, subgraph, similar, reply, p)
  {
    accepted := {};
    var clusters := ClusterByType(g, nodes);
    var todo := clusters.Keys;
    while todo != {}
      invariant todo <= clusters.Keys
      invariant forall p :: p in accepted <==>
                  exists t :: t in clusters.Keys - todo
                              && AcceptedOf(Questions(OfType(g, nodes, t), subgraph, similar), reply(t), p)
    {
      var t :| t in todo;
      accepted := ResolveType(clusters[t], subgraph, similar, reply(t), accepted);
      todo := todo - {t};
    }
    forall t, p | AcceptedOf(Questions(OfType(g, nodes, t), subgraph, similar), reply(t), p) ensures t in clusters {
      NothingToAccept(subgraph, similar, reply(t), p);
    }
  }

  lemma NothingToAccept(subgraph: set<string>, similar: (string, string) -> bool, reply: nat -> seq<Record>, p: Pair)
    ensures !AcceptedOf(Questions([], subgraph, similar), reply, p)
  {
    assert Questions([], subgraph, similar) == [];
    assert BatchCount(0) == 0;
  }

  /** Whatever the replies say, every accepted pair is a candidate. */
  lemma AcceptedAreCandidates(g: Nodes, nodes: seq<string>, subgraph: set<string>, similar: (string, string) -> bool,
                              reply: string -> nat -> seq<Record>, p: Pair)
    requires Distinct(nodes) && Accepted(g, nodes, subgraph, similar, reply, p)
    ensures Candidate(g, nodes, subgraph, similar, p)
  {
    var t :| AcceptedOf(Questions(OfType(g, nodes, t), subgraph, similar), reply(t), p);
    var pairs := Questions(OfType(g, nodes, t), subgraph, similar);
    var k :| 0 <= k < BatchCount(|pairs|) && SaysYes(reply(t)(k), Batch(pairs, k), p);
    assert p in Batch(pairs, k) && p in pairs;
    QuestionsAreCandidates(g, nodes, subgraph, similar, t, p);
  }

  /** A yes, in small or capital letters, to the question at position i of a type's list gets that pair accepted. */
  lemma YesIsAccepted(g: Nodes, nodes: seq<string>, subgraph: set<string>, similar: (string, string) -> bool,
                      reply: string -> nat -> seq<Record>, t: string, i: nat, m: nat)
    requires i < |Questions(OfType(g, nodes, t), subgraph, similar)| && m < |reply(t)(i / 100)|
    requires var r := reply(t)(i / 100)[m];
             && r.number == i % 100 + 1 && |r.word| == 3
             && r.word[0] in "yY" && r.word[1] in "eE" && r.word[2] in "sS"
    ensures Accepted(g, nodes, subgraph, similar, reply, Questions(OfType(g, nodes, t), subgraph, similar)[i])
  {
    var pairs := Questions(OfType(g, nodes, t), subgraph, similar);
    YesCounts(pairs, i, reply(t)(i / 100), m);
    assert AcceptedOf(pairs, reply(t), pairs[i]);
  }

  lemma YesCounts(pairs: seq<Pair>, i: nat, reply: seq<Record>, m: nat)
    requires i < |pairs| && m < |reply| && reply[m].number == i % 100 + 1 && |reply[m].word| == 3
    requires reply[m].word[0] in "yY" && reply[m].word[1] in "eE" && reply[m].word[2] in "sS"
    ensures i / 100 < BatchCount(|pairs|) && SaysYes(reply, Batch(pairs, i / 100), pairs[i])
  {
    QuestionHasBatch(pairs, i);
    YesInAnyCase(reply[m].word);
    var b := Batch(pairs, i / 100);
    assert Accepts(reply[m], |b|) && b[reply[m].number - 1] == pairs[i];
  }

  /** And behind every accepted pair is such a yes: to question i of type t, in record m of the reply. */
  lemma AcceptedByYes(g: Nodes, nodes: seq<string>, subgraph: set<string>, similar: (string, string) -> bool,
                      reply: string -> nat -> seq<Record>, p: Pair) returns (t: string, i: nat, m: nat)
    requires Accepted(g, nodes, subgraph, similar, reply, p)
    ensures var pairs := Questions(OfType(g, nodes, t), subgraph, similar);
            i < |pairs| && pairs[i] == p
    ensures m < |reply(t)(i / 100)|
    ensures var r := reply(t)(i / 100)[m];
            && r.number == i % 100 + 1 && |r.word| == 3
            && r.word[0] in "yY" && r.word[1] in "eE" && r.word[2] in "sS"
  {
    t :| AcceptedOf(Questions(OfType(g, nodes, t), subgraph, similar), reply(t), p);
    var pairs := Questions(OfType(g, nodes, t), subgraph, similar);
    var k :| 0 <= k < BatchCount(|pairs|) && SaysYes(reply(t)(k), Batch(pairs, k), p);
    i, m := YesInBatch(pairs, k, reply(t)(k), p);
  }

  lemma YesInBatch(pairs: seq<Pair>, k: nat, reply: seq<Record>, p: Pair) returns (i: nat, m: nat)
    requires k < BatchCount(|pairs|) && SaysYes(reply, Batch(pairs, k), p)
    ensures i < |pairs| && pairs[i] == p && i / 100 == k && m < |reply| && reply[m].number == i % 100 + 1
    ensures var word := reply[m].word; |word| == 3 && word[0] in "yY" && word[1] in "eE" && word[2] in "sS"
  {
    m :| 0 <= m < |reply| && Accepts(reply[m], |Batch(pairs, k)|) && Batch(pairs, k)[reply[m].number - 1] == p;
    i := k * 100 + (reply[m].number - 1);
    YesInAnyCase(reply[m].word);
  }

  // ----- Groups

  predicate Joined(accepted: set<Pair>, a: string, b: string) { (a, b) in accepted || (b, a) in accepted }

  ghost predicate Path(accepted: set<Pair>, p: seq<string>) {
    forall i :: 0 <= i < |p| - 1 ==> Joined(accepted, p[i], p[i + 1])
  }

  ghost predicate Linked(accepted: set<Pair>, a: string, b: string) {
    exists p :: |p| > 0 && p[0] == a && p[|p| - 1] == b && Path(accepted, p)
  }

  /** A connected component of the graph whose edges are the accepted pairs. */
  ghost predicate Component(accepted: set<Pair>, c: set<string>) {
    && (exists e :: e in accepted && e.0 in c)
    && (forall a, b :: a in c && Joined(accepted, a, b) ==> b in c)
    && (forall a, b :: a in c && b in c ==> Linked(accepted, a, b))
  }

  lemma {:induction false} PathKeepsType(g: Nodes, accepted: set<Pair>, p: seq<string>)
    requires |p| > 0 && Path(accepted, p)
    requires forall e :: e in accepted ==> EntityType(g, e.0) == EntityType(g, e.1)
    ensures EntityType(g, p[0]) == EntityType(g, p[|p| - 1])
  {
    if |p| > 1 {
      assert Joined(accepted, p[0], p[0 + 1]);
      PathKeepsType(g, accepted, p[1..]);
    }
  }

  lemma {:induction false} PathStaysInside(accepted: set<Pair>, c: set<string>, p: seq<string>)
    requires |p| > 0 && Path(accepted, p) && p[0] in c
    requires forall a, b :: a in c && Joined(accepted, a, b) ==> b in c
    ensures p[|p| - 1] in c
  {
    if |p| > 1 {
      assert Joined(accepted, p[0], p[0 + 1]);
      PathStaysInside(accepted, c, p[1..]);
    }
  }

  lemma PathsJoin(accepted: set<Pair>, p: seq<string>, q: seq<string>)
    requires |p| > 0 && |q| > 0 && p[|p| - 1] == q[0] && Path(accepted, p) && Path(accepted, q)
    ensures var r := p + q[1..]; Path(accepted, r) && r[0] == p[0] && r[|r| - 1] == q[|q| - 1]
  {
    var r := p + q[1..];
    forall i | 0 <= i < |r| - 1 ensures Joined(accepted, r[i], r[i + 1]) {
      if i < |p| - 1 {
        assert Joined(accepted, p[i], p[i + 1]);
      } else {
        var k := i - (|p| - 1);
        assert Joined(accepted, q[k], q[k + 1]);
      }
    }
  }

  lemma LinkedIsTransitive(accepted: set<Pair>, a: string, b: string, c: string)
    requires Linked(accepted, a, b) && Linked(accepted, b, c)
    ensures Linked(accepted, a, c)
  {
    var p :| |p| > 0 && p[0] == a && p[|p| - 1] == b && Path(accepted, p);
    var q :| |q| > 0 && q[0] == b && q[|q| - 1] == c && Path(accepted, q);
    PathsJoin(accepted, p, q);
  }

  lemma LinkedIsSymmetric(accepted: set<Pair>, a: string, b: string)
    requires Linked(accepted, a, b)
    ensures Linked(accepted, b, a)
  {
    var p :| |p| > 0 && p[0] == a && p[|p| - 1] == b && Path(accepted, p);
    var q := seq(|p|, i requires 0 <= i < |p| => p[|p| - 1 - i]);
    forall i | 0 <= i < |q| - 1 ensures Joined(accepted, q[i], q[i + 1]) {
      var k := |p| - 2 - i;
      assert Joined(accepted, p[k], p[k + 1]);
    }
    assert Path(accepted, q) && q[0] == b && q[|q| - 1] == a;
  }

  lemma JoinedIsLinked(accepted: set<Pair>, a: string, b: string)
    requires Joined(accepted, a, b)
    ensures Linked(accepted, a, b)
  {
    var p := [a, b];
    assert Path(accepted, p) && p[0] == a && p[|p| - 1] == b;
  }

  /** No accepted pair is lost: some group has both of its nodes. */
  lemma PairIsInGroup(accepted: set<Pair>, e: Pair) returns (c: set<string>)
    requires e in accepted
    ensures Component(accepted, c) && e.0 in c && e.1 in c
  {
    var ends := (set p | p in accepted :: p.0) + (set p | p in accepted :: p.1);
    c := set x | x in ends && Linked(accepted, e.0, x);
    assert Path(accepted, [e.0]) && [e.0][0] == e.0;
    assert Joined(accepted, e.0, e.1);
    JoinedIsLinked(accepted, e.0, e.1);
    forall a, b | a in c && Joined(accepted, a, b) ensures b in c {
      JoinedIsLinked(accepted, a, b);
      LinkedIsTransitive(accepted, e.0, a, b);
    }
    forall a, b | a in c && b in c ensures Linked(accepted, a, b) {
      LinkedIsSymmetric(accepted, e.0, a);
      LinkedIsTransitive(accepted, a, e.0, b);
    }
  }

  /** Two groups with a node in common are one. */
  lemma ComponentsAreDisjoint(accepted: set<Pair>, c: set<string>, d: set<string>, x: string)
    requires Component(accepted, c) && Component(accepted, d) && x in c && x in d
    ensures c == d
  {
    forall y ensures y in c <==> y in d {
      if y in c {
        assert Linked(accepted, x, y);
        var p :| |p| > 0 && p[0] == x && p[|p| - 1] == y && Path(accepted, p);
        PathStaysInside(accepted, d, p);
      }
      if y in d {
        assert Linked(accepted, x, y);
        var p :| |p| > 0 && p[0] == x && p[|p| - 1] == y && Path(accepted, p);
        PathStaysInside(accepted, c, p);
      }
    }
  }

  /**
    Whatever was accepted among the candidates, every group sent to merging has a single entity type,
    at least two nodes, and at least one node of the new subgraph.
   */
  lemma GroupsAreSound(g: Nodes, nodes: seq<string>, subgraph: set<string>, similar: (string, string) -> bool,
                       accepted: set<Pair>, c: set<string>)
    requires forall p :: p in accepted ==> Candidate(g, nodes, subgraph, similar, p)
    requires Component(accepted, c)
    ensures forall a, b :: a in c && b in c ==>
              (if a in g && "entity_type" in g[a] then g[a]["entity_type"] else "-") ==
              (if b in g && "entity_type" in g[b] then g[b]["entity_type"] else "-")
    ensures exists a, b :: a in c && b in c && a != b
    ensures exists a :: a in c && a in subgraph && a in nodes
  {
    forall a, b | a in c && b in c ensures EntityType(g, a) == EntityType(g, b) {
      assert Linked(accepted, a, b);
      var p :| |p| > 0 && p[0] == a && p[|p| - 1] == b && Path(accepted, p);
      PathKeepsType(g, accepted, p);
    }
    var e :| e in accepted && e.0 in c;
    assert Joined(accepted, e.0, e.1);
    assert Candidate(g, nodes, subgraph, similar, e);
    assert e.0 in c && e.1 in c && e.0 != e.1;
  }

  /** The groups that any replies lead to are sound. */
  lemma GroupsOfAnyReplies(g: Nodes, nodes: seq<string>, subgraph: set<string>, similar: (string, string) -> bool,
                           reply: string -> nat -> seq<Record>, accepted: set<Pair>, c: set<string>)
    requires Distinct(nodes) && Component(accepted, c)
    requires forall p :: p in accepted <==> Accepted(g, nodes, subgraph, similar, reply, p)
    ensures forall a, b :: a in c && b in c ==>
              (if a in g && "entity_type" in g[a] then g[a]["entity_type"] else "-") ==
              (if b in g && "entity_type" in g[b] then g[b]["entity_type"] else "-")
    ensures exists a, b :: a in c && b in c && a != b
    ensures exists a :: a in c && a in subgraph && a in nodes
  {
    forall p | p in accepted ensures Candidate(g, nodes, subgraph, similar, p) {
      AcceptedAreCandidates(g, nodes, subgraph, similar, reply, p);
    }
    GroupsAreSound(g, nodes, subgraph, similar, accepted, c);
  }
}
