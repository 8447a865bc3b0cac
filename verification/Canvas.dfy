/**
  The scheduler of agent canvases (repos/ragflow/agent/canvas.py, `Canvas.run`): a list of component
  ids is worked off in batches; a batch is first thinned out, its survivors are run, and each of them
  may append further ids.  Streaming components wait in a queue until their content is complete.

  Components are opaque: what they produce, whether they fail and where they branch to is arbitrary.
 */
module Canvas {
  import opened Basics

  datatype Kind =
    | Begin | UserFillUp | Message | Categorize | Switch
    | Iteration | Loop | IterationItem | LoopItem | ExitLoop | Other

  /** What a component is: the ids its inputs refer to, its successors, its enclosing iteration, its start. */
  datatype Component = Component(kind: Kind, refs: seq<string>, downstream: seq<string>,
                                 parent: Option<string>, start: string)

  /** The components of a canvas, and the ids whose text contains "userfillup". */
  datatype Design = Design(comp: string -> Component, fillUpId: string -> bool)

  // ----- Thinning out a batch

  predicate Unconditional(k: Kind) { k.Begin? || k.UserFillUp? }

  /** Whether the component c may run after the components in prefix. */
  predicate Keeps(d: Design, prefix: seq<string>, c: string) {
    || Unconditional(d.comp(c).kind)
    || d.fillUpId(if prefix == [] then c else prefix[0])
    || forall i :: 0 <= i < |d.comp(c).refs| ==> d.comp(c).refs[i] in prefix
  }

  /** The members of a batch that stay, each judged against what has stayed before it. */
  function Survivors(d: Design, prefix: seq<string>, batch: seq<string>): seq<string>
    decreases |batch|
  {
    if batch == [] then []
    else if Keeps(d, prefix, batch[0]) then [batch[0]] + Survivors(d, prefix + [batch[0]], batch[1..])
    else Survivors(d, prefix, batch[1..])
  }

  /** Everything the component at position i refers to comes before it. */
  predicate DependenciesMet(d: Design, path: seq<string>, i: nat)
    requires i < |path|
  {
    || d.comp(path[i]).kind.Begin? || d.comp(path[i]).kind.UserFillUp?
    || forall k :: 0 <= k < |d.comp(path[i]).refs| ==> d.comp(path[i]).refs[k] in path[..i]
  }

  /** Unless the path starts with a fill-up component, all from position start on have their dependencies met. */
  ghost predicate Ordered(d: Design, path: seq<string>, start: nat) {
    path != [] && !d.fillUpId(path[0]) ==> forall i :: start <= i < |path| ==> DependenciesMet(d, path, i)
  }

  /** In a path that does not start with a fill-up component, every survivor has its dependencies met. */
  lemma {:induction false} SurvivorsAreSafe(d: Design, prefix: seq<string>, batch: seq<string>, i: nat)
    requires var path := prefix + Survivors(d, prefix, batch);
             |prefix| <= i < |path| && !d.fillUpId(path[0])
    ensures DependenciesMet(d, prefix + Survivors(d, prefix, batch), i)
    decreases |batch|
  {
    var path := prefix + Survivors(d, prefix, batch);
    if batch == [] {
    } else if Keeps(d, prefix, batch[0]) {
      var longer := prefix + [batch[0]];
      assert path == longer + Survivors(d, longer, batch[1..]);
      if i == |prefix| {
        assert path[..i] == prefix && path[i] == batch[0];
      } else {
        SurvivorsAreSafe(d, longer, batch[1..], i);
      }
    } else {
      SurvivorsAreSafe(d, prefix, batch[1..], i);
    }
  }

  /** The survivors are a subsequence of the batch; `at` gives their positions. */
  lemma {:induction false} SurvivorsAreInOrder(d: Design, prefix: seq<string>, batch: seq<string>)
    returns (at: seq<nat>)
    ensures |at| == |Survivors(d, prefix, batch)|
    ensures forall k :: 0 <= k < |at| ==> at[k] < |batch| && batch[at[k]] == Survivors(d, prefix, batch)[k]
    ensures forall j, k :: 0 <= j < k < |at| ==> at[j] < at[k]
    decreases |batch|
  {
    if batch == [] {
      at := [];
    } else if Keeps(d, prefix, batch[0]) {
      var rest := SurvivorsAreInOrder(d, prefix + [batch[0]], batch[1..]);
      at := [0] + seq(|rest|, k requires 0 <= k < |rest| => rest[k] + 1);
    } else {
      var rest := SurvivorsAreInOrder(d, prefix, batch[1..]);
      at := seq(|rest|, k requires 0 <= k < |rest| => rest[k] + 1);
    }
  }

  function Dropped(d: Design, prefix: seq<string>, batch: seq<string>): seq<string>
    decreases |batch|
  {
    if batch == [] then []
    else if Keeps(d, prefix, batch[0]) then Dropped(d, prefix + [batch[0]], batch[1..])
    else [batch[0]] + Dropped(d, prefix, batch[1..])
  }

  /** One more member of a batch is judged against the survivors so far. */
  lemma {:induction false} JudgeNext(d: Design, prefix: seq<string>, a: seq<string>, c: string)
    ensures var kept := Keeps(d, prefix + Survivors(d, prefix, a), c);
            && Survivors(d, prefix, a + [c]) == Survivors(d, prefix, a) + (if kept then [c] else [])
            && Dropped(d, prefix, a + [c]) == Dropped(d, prefix, a) + (if kept then [] else [c])
    decreases |a|
  {
    if a == [] {
      assert a + [c] == [c] && prefix + [] == prefix;
    } else {
      assert (a + [c])[1..] == a[1..] + [c] && (a + [c])[0] == a[0];
      if Keeps(d, prefix, a[0]) {
        JudgeNext(d, prefix + [a[0]], a[1..], c);
        assert prefix + [a[0]] + Survivors(d, prefix + [a[0]], a[1..]) == prefix + Survivors(d, prefix, a);
      } else {
        JudgeNext(d, prefix, a[1..], c);
      }
    }
  }

  /** How often x occurs in s. */
  function Count(s: seq<string>, x: string): nat {
    if s == [] then 0 else Count(s[..|s| - 1], x) + if s[|s| - 1] == x then 1 else 0
  }

  lemma {:induction false} CountConcat(a: seq<string>, b: seq<string>, x: string)
    ensures Count(a + b, x) == Count(a, x) + Count(b, x)
  {
    if b == [] {
      assert a + b == a;
    } else {
      var n := |b| - 1;
      CountConcat(a, b[..n], x);
      assert (a + b)[..|a| + n] == a + b[..n];
    }
  }

  /**
    The next member of a batch is dropped exactly if it is neither begin nor a fill-up, the path does not
    start with a fill-up, and it refers to something that is neither in the prefix nor has stayed.
   */
  lemma DroppedIff(d: Design, prefix: seq<string>, batch: seq<string>, m: nat)
    requires m < |batch|
    ensures var before, c := prefix + Survivors(d, prefix, batch[..m]), batch[m];
            var unmet := && !d.comp(c).kind.Begin? && !d.comp(c).kind.UserFillUp?
                         && !d.fillUpId((before + [c])[0])
                         && exists i :: 0 <= i < |d.comp(c).refs| && d.comp(c).refs[i] !in before;
            && Survivors(d, prefix, batch[..m + 1]) == Survivors(d, prefix, batch[..m]) + (if unmet then [] else [c])
            && Dropped(d, prefix, batch[..m + 1]) == Dropped(d, prefix, batch[..m]) + (if unmet then [c] else [])
  {
    assert batch[..m + 1] == batch[..m] + [batch[m]];
    JudgeNext(d, prefix, batch[..m], batch[m]);
  }

  /** When everything is referred to by what comes before it, nothing is dropped. */
  lemma {:induction false} NothingDropped(d: Design, prefix: seq<string>, batch: seq<string>)
    requires forall i :: |prefix| <= i < |prefix + batch| ==> DependenciesMet(d, prefix + batch, i)
    ensures Survivors(d, prefix, batch) == batch && Dropped(d, prefix, batch) == []
    decreases |batch|
  {
    if batch != [] {
      var all, longer := prefix + batch, prefix + [batch[0]];
      assert all == longer + batch[1..] && all[..|prefix|] == prefix && all[|prefix|] == batch[0];
      assert DependenciesMet(d, all, |prefix|);
      assert Keeps(d, prefix, batch[0]);
      NothingDropped(d, longer, batch[1..]);
      assert batch == [batch[0]] + batch[1..];
    }
  }

  /** A path that starts with a fill-up component drops nothing. */
  lemma {:induction false} FillUpKeepsAll(d: Design, prefix: seq<string>, batch: seq<string>)
    requires prefix + batch != [] && d.fillUpId((prefix + batch)[0])
    ensures Survivors(d, prefix, batch) == batch && Dropped(d, prefix, batch) == []
    decreases |batch|
  {
    if batch != [] {
      assert Keeps(d, prefix, batch[0]);
      assert prefix + [batch[0]] + batch[1..] == prefix + batch;
      FillUpKeepsAll(d, prefix + [batch[0]], batch[1..]);
      assert batch == [batch[0]] + batch[1..];
    }
  }

  /** Every member of a batch either stays or is dropped. */
  lemma {:induction false} StayOrDrop(d: Design, prefix: seq<string>, batch: seq<string>, x: string)
    ensures Count(Survivors(d, prefix, batch), x) + Count(Dropped(d, prefix, batch), x) == Count(batch, x)
    decreases |batch|
  {
    if batch != [] {
      var n := |batch| - 1;
      assert batch == batch[..n] + [batch[n]];
      StayOrDrop(d, prefix, batch[..n], x);
      JudgeNext(d, prefix, batch[..n], batch[n]);
      CountConcat(Survivors(d, prefix, batch[..n]), [batch[n]], x);
      CountConcat(Dropped(d, prefix, batch[..n]), [batch[n]], x);
      assert forall s: seq<string> :: s + [] == s;
      assert Count([batch[n]], x) == if batch[n] == x then 1 else 0;
    }
  }

  // ----- Appending successors

  /** What one run of a component came to; `still` tells which components are streaming at its end. */
  datatype Result = Result(failed: bool, goto: seq<string>, hasDefault: bool, streaming: bool,
                           ended: bool, next: seq<string>, still: string -> bool)

  /** Appends ids one by one, leaving out one that repeats the current last id. */
  function Extended(path: seq<string>, ids: seq<string>): (r: seq<string>)
    ensures path <= r
    decreases |ids|
  {
    if ids == [] then path
    else if path != [] && path[|path| - 1] == ids[0] then Extended(path, ids[1..])
    else Extended(path + [ids[0]], ids[1..])
  }

  function ParentKind(d: Design, c: string): Kind {
    if d.comp(c).parent.Some? then d.comp(d.comp(c).parent.value).kind else Other
  }

  function ParentDownstream(d: Design, c: string): seq<string> {
    if d.comp(c).parent.Some? then d.comp(d.comp(c).parent.value).downstream else []
  }

  /** The ids that a component hands over to. */
  function Successors(d: Design, c: string, r: Result): seq<string> {
    var k := d.comp(c).kind;
    if (k.IterationItem? || k.LoopItem?) && r.ended then ParentDownstream(d, c)
    else if k.Categorize? || k.Switch? then r.next
    else if k.Iteration? || k.Loop? then [d.comp(c).start]
    else if k.ExitLoop? && ParentKind(d, c).Loop? then ParentDownstream(d, c)
    else if d.comp(c).downstream == [] && d.comp(c).parent.Some? then [d.comp(d.comp(c).parent.value).start]
    else d.comp(c).downstream
  }

  /** What each kind of component hands over to. */
  lemma SuccessorsByKind(d: Design, c: string, r: Result)
    ensures var me, ids := d.comp(c), Successors(d, c, r);
            var k, enclosing := me.kind, me.parent;
            && (k.Iteration? || k.Loop? ==> ids == [me.start])
            && (k.Categorize? || k.Switch? ==> ids == r.next)
            && ((k.IterationItem? || k.LoopItem?) && r.ended && enclosing.Some? ==>
                  ids == d.comp(enclosing.value).downstream)
            && (k.ExitLoop? && enclosing.Some? && d.comp(enclosing.value).kind.Loop? ==>
                  ids == d.comp(enclosing.value).downstream)
            && (k.Begin? || k.UserFillUp? || k.Message? || k.Other?
                || ((k.IterationItem? || k.LoopItem?) && !r.ended)
                || (k.ExitLoop? && (enclosing.None? || !d.comp(enclosing.value).kind.Loop?)) ==>
                  ids == if me.downstream == [] && enclosing.Some? then [d.comp(enclosing.value).start]
                         else me.downstream)
  {
  }

  /** Nothing but the ids is appended, and none right after itself. */
  lemma {:induction false} ExtendedOnlyAdds(path: seq<string>, ids: seq<string>, i: nat)
    requires |path| <= i < |Extended(path, ids)|
    ensures Extended(path, ids)[i] in ids && (i > 0 ==> Extended(path, ids)[i] != Extended(path, ids)[i - 1])
    decreases |ids|
  {
    if path != [] && path[|path| - 1] == ids[0] {
      ExtendedOnlyAdds(path, ids[1..], i);
    } else if i > |path| {
      ExtendedOnlyAdds(path + [ids[0]], ids[1..], i);
    } else {
      assert path + [ids[0]] <= Extended(path + [ids[0]], ids[1..]);
    }
  }

  /** Each id is found at the end of the path as it was or after it, in the order of the ids. */
  lemma {:induction false} ExtendedHasAll(path: seq<string>, ids: seq<string>, k: nat) returns (i: nat)
    requires k < |ids|
    ensures i < |Extended(path, ids)| && i + 1 >= |path| && Extended(path, ids)[i] == ids[k]
    ensures i + 1 == |Extended(path, ids[..k + 1])|
    decreases |ids|
  {
    var one := if path != [] && path[|path| - 1] == ids[0] then path else path + [ids[0]];
    assert one <= Extended(one, ids[1..]) == Extended(path, ids);
    assert ids[..k + 1][1..] == ids[1..][..k];
    if k == 0 {
      i := |one| - 1;
    } else {
      i := ExtendedHasAll(one, ids[1..], k - 1);
    }
  }

  /** The path after a component: an error branch replaces its ordinary successors. */
  function NextPath(d: Design, path: seq<string>, c: string, r: Result): (p: seq<string>)
    ensures path <= p
  {
    if r.failed && r.goto != [] then path + r.goto else Extended(path, Successors(d, c, r))
  }

  /** A failure that neither branches nor has a default value ends the run. */
  predicate Fatal(r: Result) { r.failed && r.goto == [] && !r.hasDefault }

  ghost predicate SomeFatal(results: seq<Result>) { exists k :: 0 <= k < |results| && Fatal(results[k]) }

  /** The path after the components ids have been processed in turn. */
  function PathAfter(d: Design, path: seq<string>, ids: seq<string>, results: seq<Result>): (p: seq<string>)
    requires |ids| == |results|
    ensures path <= p
    decreases |ids|
  {
    if ids == [] then path
    else
      var n := |ids| - 1;
      NextPath(d, PathAfter(d, path, ids[..n], results[..n]), ids[n], results[n])
  }

  lemma PathAfterOneMore(d: Design, path: seq<string>, ids: seq<string>, results: seq<Result>, c: string, r: Result)
    requires |ids| == |results|
    ensures PathAfter(d, path, ids + [c], results + [r]) == NextPath(d, PathAfter(d, path, ids, results), c, r)
  {
    assert (ids + [c])[..|ids|] == ids && (results + [r])[..|results|] == results;
  }

  lemma FatalOneMore(results: seq<Result>, r: Result)
    ensures SomeFatal(results + [r]) <==> SomeFatal(results) || Fatal(r)
  {
    var longer := results + [r];
    assert longer[|results|] == r;
    if SomeFatal(results) {
      var k :| 0 <= k < |results| && Fatal(results[k]);
      assert Fatal(longer[k]);
    }
  }

  /** What a component hands over to, or branches to on a failure, is found at the end of the path or after it. */
  lemma {:induction false} HandedOn(d: Design, path: seq<string>, ids: seq<string>, results: seq<Result>, k: nat,
                                    c: string) returns (i: nat)
    requires |ids| == |results| && k < |ids|
    requires c in if results[k].failed && results[k].goto != [] then results[k].goto
                  else Successors(d, ids[k], results[k])
    ensures i < |PathAfter(d, path, ids, results)| && i + 1 >= |path| && PathAfter(d, path, ids, results)[i] == c
    decreases |ids|
  {
    var n := |ids| - 1;
    var before, r := PathAfter(d, path, ids[..n], results[..n]), results[n];
    if k < n {
      i := HandedOn(d, path, ids[..n], results[..n], k, c);
    } else if r.failed && r.goto != [] {
      var j :| 0 <= j < |r.goto| && r.goto[j] == c;
      i := |before| + j;
    } else {
      var next := Successors(d, ids[n], r);
      var j :| 0 <= j < |next| && next[j] == c;
      i := ExtendedHasAll(before, next, j);
    }
  }

  /** Nothing else is appended. */
  lemma {:induction false} AppendedBy(d: Design, path: seq<string>, ids: seq<string>, results: seq<Result>, i: nat)
    returns (k: nat)
    requires |ids| == |results| && |path| <= i < |PathAfter(d, path, ids, results)|
    ensures k < |ids|
    ensures PathAfter(d, path, ids, results)[i] in
            if results[k].failed && results[k].goto != [] then results[k].goto else Successors(d, ids[k], results[k])
    decreases |ids|
  {
    var n := |ids| - 1;
    var before, r := PathAfter(d, path, ids[..n], results[..n]), results[n];
    if i < |before| {
      k := AppendedBy(d, path, ids[..n], results[..n], i);
    } else {
      k := n;
      if !(r.failed && r.goto != []) {
        ExtendedOnlyAdds(before, Successors(d, ids[n], r), i);
      }
    }
  }

  // ----- Events

  datatype Event = Started(id: string) | Finished(id: string) | EnclosingFinished(id: string)

  /** How many times the start of x has been announced. */
  function Starts(events: seq<Event>, x: string): nat {
    if events == [] then 0 else Starts(events[..|events| - 1], x) + if events[|events| - 1] == Started(x) then 1 else 0
  }

  /** How many times x itself has been reported as finished. */
  function Finishes(events: seq<Event>, x: string): nat {
    if events == [] then 0
    else Finishes(events[..|events| - 1], x) + if events[|events| - 1] == Event.Finished(x) then 1 else 0
  }

  lemma EventAppended(events: seq<Event>, e: Event, x: string)
    ensures Starts(events + [e], x) == Starts(events, x) + if e == Started(x) then 1 else 0
    ensures Finishes(events + [e], x) == Finishes(events, x) + if e == Event.Finished(x) then 1 else 0
  {
    assert (events + [e])[..|events|] == events;
  }

  /** What remains queued when the complete components at the front are taken off. */
  function StillQueued(partials: seq<string>, streaming: string -> bool): seq<string> {
    if partials == [] || streaming(partials[0]) then partials else StillQueued(partials[1..], streaming)
  }

  /** What a processed component leaves of the queue: a message lets complete components go. */
  function LeftQueued(d: Design, c: string, partials: seq<string>, r: Result): seq<string> {
    if d.comp(c).kind.Message? then StillQueued(partials, r.still) else partials
  }

  /** The reports of the ends of these components. */
  function ReportsOf(ids: seq<string>): seq<Event> {
    seq(|ids|, i requires 0 <= i < |ids| => Event.Finished(ids[i]))
  }

  predicate Reports(k: Kind) { !k.Iteration? && !k.Loop? }

  predicate Queues(d: Design, c: string, streaming: bool, error: bool) {
    Reports(d.comp(c).kind) && streaming && !error
  }

  /** What the processing of c itself reports: its end unless it is queued, and that of its iteration. */
  function OwnReports(d: Design, c: string, r: Result, error: bool): seq<Event> {
    var k := d.comp(c).kind;
    (if Reports(k) && !Queues(d, c, r.streaming, error) then [Event.Finished(c)] else [])
    + if (k.IterationItem? || k.LoopItem?) && r.ended && d.comp(c).parent.Some?
      then [EnclosingFinished(d.comp(c).parent.value)] else []
  }

  /** The k-th member that entered the queue was reported as event number served[k], after the one before. */
  ghost predicate ServedAt(events: seq<Event>, queued: seq<string>, served: seq<nat>, k: nat)
    requires k < |served| <= |queued|
  {
    && served[k] < |events| && events[served[k]] == Event.Finished(queued[k])
    && (k > 0 ==> served[k - 1] < served[k])
  }

  /**
    The queue is served first in, first out: the members that left it are the first that entered it,
    and their reports come in that order.
   */
  ghost predicate Served(events: seq<Event>, partials: seq<string>, queued: seq<string>, served: seq<nat>) {
    && |served| <= |queued| && partials == queued[|served|..]
    && (forall k :: 0 <= k < |served| ==> ServedAt(events, queued, served, k))
  }

  lemma ServedAppended(events: seq<Event>, e: Event, partials: seq<string>, queued: seq<string>, served: seq<nat>)
    requires Served(events, partials, queued, served)
    ensures Served(events + [e], partials, queued, served)
  {
    forall k | 0 <= k < |served| ensures ServedAt(events + [e], queued, served, k) {
      assert ServedAt(events, queued, served, k);
    }
  }

  lemma ServedQueued(events: seq<Event>, partials: seq<string>, queued: seq<string>, served: seq<nat>, c: string)
    requires Served(events, partials, queued, served)
    ensures Served(events, partials + [c], queued + [c], served)
  {
    forall k | 0 <= k < |served| ensures ServedAt(events, queued + [c], served, k) {
      assert ServedAt(events, queued, served, k);
    }
  }

  lemma ServedNext(events: seq<Event>, partials: seq<string>, queued: seq<string>, served: seq<nat>)
    requires Served(events, partials, queued, served) && partials != []
    ensures Served(events + [Event.Finished(partials[0])], partials[1..], queued, served + [|events|])
  {
    var events', served' := events + [Event.Finished(partials[0])], served + [|events|];
    forall k | 0 <= k < |served'| ensures ServedAt(events', queued, served', k) {
      if k < |served| {
        assert ServedAt(events, queued, served, k);
      } else if k > 0 {
        assert ServedAt(events, queued, served, k - 1);
      }
    }
  }

  /** How many reports of x are due: one per time it was processed, unless it is an iteration or a loop. */
  function Due(d: Design, processed: seq<string>, x: string): nat {
    if d.comp(x).kind.Iteration? || d.comp(x).kind.Loop? then 0 else Count(processed, x)
  }

  /** Reports of x so far and its places in the queue make up the reports due. */
  ghost predicate BalancedAt(d: Design, events: seq<Event>, partials: seq<string>, processed: seq<string>, x: string) {
    Finishes(events, x) + Count(partials, x) == Due(d, processed, x)
  }

  ghost predicate Balanced(d: Design, events: seq<Event>, partials: seq<string>, processed: seq<string>) {
    forall x :: BalancedAt(d, events, partials, processed, x)
  }

  ghost predicate SameStarts(before: seq<Event>, after: seq<Event>) {
    forall x :: Starts(before, x) == Starts(after, x)
  }

  lemma {:induction false} NoStartsAppended(events: seq<Event>, more: seq<Event>)
    requires forall i :: 0 <= i < |more| ==> !more[i].Started?
    ensures SameStarts(events, events + more)
  {
    if more == [] {
      assert events + more == events;
    } else {
      var n := |more| - 1;
      NoStartsAppended(events, more[..n]);
      assert events + more == events + more[..n] + [more[n]];
      forall x ensures Starts(events, x) == Starts(events + more, x) {
        EventAppended(events + more[..n], more[n], x);
      }
    }
  }

  lemma SameStartsJoin(a: seq<Event>, b: seq<Event>, c: seq<Event>)
    requires SameStarts(a, b) && SameStarts(b, c)
    ensures SameStarts(a, c)
  {
    forall x ensures Starts(a, x) == Starts(c, x) {
      assert Starts(a, x) == Starts(b, x);
    }
  }

  ghost predicate AnnouncedAt(before: seq<Event>, after: seq<Event>, ids: seq<string>, x: string) {
    Starts(after, x) == Starts(before, x) + Count(ids, x)
  }

  /** The starts of exactly these ids have been announced in between. */
  ghost predicate Announced(before: seq<Event>, after: seq<Event>, ids: seq<string>) {
    forall x :: AnnouncedAt(before, after, ids, x)
  }

  lemma AnnounceOne(before: seq<Event>, after: seq<Event>, ids: seq<string>, c: string)
    requires Announced(before, after, ids)
    ensures Announced(before, after + [Started(c)], ids + [c])
  {
    forall x ensures AnnouncedAt(before, after + [Started(c)], ids + [c], x) {
      assert AnnouncedAt(before, after, ids, x);
      EventAppended(after, Started(c), x);
      CountAppended(ids, c, x);
    }
  }

  lemma CountAppended(s: seq<string>, c: string, x: string)
    ensures Count(s + [c], x) == Count(s, x) + if c == x then 1 else 0
  {
    assert (s + [c])[..|s|] == s;
  }

  lemma BalancedDrain(d: Design, events: seq<Event>, partials: seq<string>, processed: seq<string>)
    requires Balanced(d, events, partials, processed) && partials != []
    ensures Balanced(d, events + [Event.Finished(partials[0])], partials[1..], processed)
  {
    forall x ensures BalancedAt(d, events + [Event.Finished(partials[0])], partials[1..], processed, x) {
      assert BalancedAt(d, events, partials, processed, x);
      EventAppended(events, Event.Finished(partials[0]), x);
      assert partials == [partials[0]] + partials[1..];
      CountConcat([partials[0]], partials[1..], x);
      CountAppended([], partials[0], x);
    }
  }

  /** One more component is processed: reported, queued, or of a kind that does not report. */
  lemma BalancedStep(d: Design, events: seq<Event>, partials: seq<string>, processed: seq<string>, c: string,
                     report: bool, queue: bool)
    requires Balanced(d, events, partials, processed)
    requires (report || queue <==> Reports(d.comp(c).kind)) && !(report && queue)
    ensures Balanced(d, if report then events + [Event.Finished(c)] else events,
                     if queue then partials + [c] else partials, processed + [c])
  {
    var events' := if report then events + [Event.Finished(c)] else events;
    var partials' := if queue then partials + [c] else partials;
    forall x ensures BalancedAt(d, events', partials', processed + [c], x) {
      assert BalancedAt(d, events, partials, processed, x);
      BalancedStepAt(d, events, partials, processed, c, report, queue, x);
    }
  }

  lemma BalancedStepAt(d: Design, events: seq<Event>, partials: seq<string>, processed: seq<string>, c: string,
                       report: bool, queue: bool, x: string)
    requires BalancedAt(d, events, partials, processed, x)
    requires (report || queue <==> Reports(d.comp(c).kind)) && !(report && queue)
    ensures BalancedAt(d, if report then events + [Event.Finished(c)] else events,
                       if queue then partials + [c] else partials, processed + [c], x)
  {
    var one := if c == x then 1 else 0;
    assert Finishes(events + [Event.Finished(c)], x) == Finishes(events, x) + one by {
      EventAppended(events, Event.Finished(c), x);
    }
    assert Count(partials + [c], x) == Count(partials, x) + one by { CountAppended(partials, c, x); }
    assert Count(processed + [c], x) == Count(processed, x) + one by { CountAppended(processed, c, x); }
  }

  lemma BalancedOther(d: Design, events: seq<Event>, partials: seq<string>, processed: seq<string>, e: Event)
    requires Balanced(d, events, partials, processed) && !e.Finished?
    ensures Balanced(d, events + [e], partials, processed)
  {
    forall x ensures BalancedAt(d, events + [e], partials, processed, x) {
      assert BalancedAt(d, events, partials, processed, x);
      EventAppended(events, e, x);
    }
  }

  // ----- The code

  datatype Status = Continues | Completed | Failed | AwaitingInput | Interrupted

  /** The components of a kind-filtered part of a path, in order. */
  function OfKind(d: Design, ids: seq<string>, fillUp: bool): seq<string> {
    if ids == [] then []
    else
      var n := |ids| - 1;
      OfKind(d, ids[..n], fillUp) + if d.comp(ids[n]).kind.UserFillUp? == fillUp then [ids[n]] else []
  }

  /** A path for the next run: the components that wait for input, then the others. */
  function FillUpsFirst(d: Design, pending: seq<string>): seq<string> {
    OfKind(d, pending, true) + OfKind(d, pending, false)
  }

  /** The path that a run starts with: "begin" is added unless the path ends in a fill-up component. */
  function StartPath(d: Design, before: seq<string>): (p: seq<string>)
    ensures p != []
  {
    if before == [] || !d.fillUpId(before[|before| - 1]) then before + ["begin"] else before
  }

  lemma {:induction false} OfKindMembers(d: Design, ids: seq<string>, fillUp: bool, c: string)
    ensures c in OfKind(d, ids, fillUp) <==> c in ids && d.comp(c).kind.UserFillUp? == fillUp
  {
    if ids != [] {
      var n := |ids| - 1;
      OfKindMembers(d, ids[..n], fillUp, c);
      assert ids == ids[..n] + [ids[n]];
    }
  }

  /**
    What a run works off that resumes after waiting for input, when ids tell which components are
    fill-ups.  It starts at its last position, so its first round runs a single component: the last of
    the pending ones if all of them are fill-ups, and otherwise "begin", which is added.
   */
  lemma ResumedRun(d: Design, pending: seq<string>)
    requires NeedsInput(d, pending) && forall c :: d.fillUpId(c) <==> d.comp(c).kind.UserFillUp?
    ensures var before, start := FillUpsFirst(d, pending), StartPath(d, FillUpsFirst(d, pending));
            var n := |start| - 1;
            && (forall c :: c in pending <==> c in before)
            && Survivors(d, start[..n], start[n..]) == [start[n]]
            && (if forall k :: 0 <= k < |pending| ==> d.comp(pending[k]).kind.UserFillUp?
                then start == before && start[n] in pending
                else start == before + ["begin"])
  {
    var first, second := OfKind(d, pending, true), OfKind(d, pending, false);
    forall c ensures c in pending <==> c in first + second {
      OfKindMembers(d, pending, true, c);
      OfKindMembers(d, pending, false, c);
    }
    var k :| 0 <= k < |pending| && d.comp(pending[k]).kind.UserFillUp?;
    OfKindMembers(d, pending, true, pending[k]);
    OfKindMembers(d, pending, true, first[0]);
    if second == [] {
      OfKindMembers(d, pending, true, first[|first| - 1]);
      forall i | 0 <= i < |pending| ensures d.comp(pending[i]).kind.UserFillUp? {
        OfKindMembers(d, pending, false, pending[i]);
      }
    } else {
      var last := second[|second| - 1];
      OfKindMembers(d, pending, false, last);
      var i :| 0 <= i < |pending| && pending[i] == last;
    }
    var start := StartPath(d, first + second);
    assert d.fillUpId(start[0]);
    LoneSurvivor(d, start);
  }

  /** Nothing is dropped from a path that starts with a fill-up component. */
  lemma LoneSurvivor(d: Design, path: seq<string>)
    requires path != [] && d.fillUpId(path[0])
    ensures Survivors(d, path[..|path| - 1], path[|path| - 1..]) == [path[|path| - 1]]
  {
    var n := |path| - 1;
    assert path[n..] == [path[n]] && path[n..][1..] == [];
    assert Keeps(d, path[..n], path[n]);
  }

  lemma {:induction false} OfKindCounts(d: Design, ids: seq<string>, fillUp: bool, x: string)
    ensures Count(OfKind(d, ids, fillUp), x) == if d.comp(x).kind.UserFillUp? == fillUp then Count(ids, x) else 0
  {
    if ids != [] {
      var n := |ids| - 1;
      OfKindCounts(d, ids[..n], fillUp, x);
      CountConcat(OfKind(d, ids[..n], fillUp), if d.comp(ids[n]).kind.UserFillUp? == fillUp then [ids[n]] else [], x);
      CountAppended([], ids[n], x);
    }
  }

  /** Components of one sort keep their order; `at` gives their positions. */
  lemma {:induction false} OfKindInOrder(d: Design, ids: seq<string>, fillUp: bool) returns (at: seq<nat>)
    ensures |at| == |OfKind(d, ids, fillUp)|
    ensures forall k :: 0 <= k < |at| ==> at[k] < |ids| && ids[at[k]] == OfKind(d, ids, fillUp)[k]
    ensures forall j, k :: 0 <= j < k < |at| ==> at[j] < at[k]
  {
    if ids == [] {
      at := [];
    } else {
      var n := |ids| - 1;
      var before := OfKindInOrder(d, ids[..n], fillUp);
      at := before + if d.comp(ids[n]).kind.UserFillUp? == fillUp then [n] else [];
      forall k | 0 <= k < |at| ensures at[k] < |ids| && ids[at[k]] == OfKind(d, ids, fillUp)[k] {
        if k < |before| {
          assert ids[..n][before[k]] == OfKind(d, ids[..n], fillUp)[k];
        }
      }
    }
  }

  /** Nothing is lost or added when the pending part is put in order. */
  lemma FillUpsFirstKeepsAll(d: Design, pending: seq<string>, x: string)
    ensures Count(FillUpsFirst(d, pending), x) == Count(pending, x)
  {
    CountConcat(OfKind(d, pending, true), OfKind(d, pending, false), x);
    OfKindCounts(d, pending, true, x);
    OfKindCounts(d, pending, false, x);
  }

  /** Every announced start has led to processing or to being dropped. */
  ghost predicate StartsSettled(events: seq<Event>, processed: seq<string>, dropped: seq<string>) {
    forall x :: Starts(events, x) == Count(processed, x) + Count(dropped, x)
  }

  /** The dependencies of a position depend on the path up to it. */
  lemma DependenciesKept(d: Design, p: seq<string>, q: seq<string>, i: nat)
    requires i < |p| && p <= q && DependenciesMet(d, p, i)
    ensures DependenciesMet(d, q, i)
  {
    assert p[..i] == q[..i];
  }

  lemma ReportsAreNoStarts(d: Design, first: seq<Event>, before: seq<Event>, taken: seq<string>, c: string, r: Result,
                           error: bool)
    requires SameStarts(first, before)
    ensures SameStarts(first, before + ReportsOf(taken) + OwnReports(d, c, r, error))
  {
    var more := ReportsOf(taken) + OwnReports(d, c, r, error);
    NoStartsAppended(before, more);
    assert before + more == before + ReportsOf(taken) + OwnReports(d, c, r, error);
    SameStartsJoin(first, before, before + more);
  }

  /** The state after the components of path0 from idx up to i have been processed. */
  ghost predicate Progress(d: Design, path0: seq<string>, idx: nat, i: nat, processed0: seq<string>,
                           path: seq<string>, processed: seq<string>, results: seq<Result>, error: bool)
  {
    && idx <= i <= |path0| && |results| == i - idx
    && processed == processed0 + path0[idx..i]
    && path == PathAfter(d, path0, path0[idx..i], results)
    && (error <==> SomeFatal(results))
  }

  lemma ProgressStep(d: Design, path0: seq<string>, idx: nat, i: nat, processed0: seq<string>,
                     path: seq<string>, processed: seq<string>, results: seq<Result>, error: bool, r: Result)
    requires Progress(d, path0, idx, i, processed0, path, processed, results, error) && i < |path0|
    ensures Progress(d, path0, idx, i + 1, processed0, NextPath(d, path, path0[i], r), processed + [path0[i]],
                     results + [r], error || Fatal(r))
  {
    assert path0[idx..i + 1] == path0[idx..i] + [path0[i]];
    PathAfterOneMore(d, path0, path0[idx..i], results, path0[i], r);
    FatalOneMore(results, r);
  }

  /** The path during a scan that has reached member m of the batch. */
  lemma ScanStep(prefix: seq<string>, stayed: seq<string>, batch: seq<string>, m: nat)
    requires m < |batch|
    ensures var path, i := prefix + stayed + batch[m..], |prefix| + |stayed|;
            && path[i] == batch[m] && path[..i] == prefix + stayed
            && path[..i] + path[i + 1..] == prefix + stayed + batch[m + 1..]
            && path == prefix + (stayed + [batch[m]]) + batch[m + 1..]
    ensures batch[..m + 1] == batch[..m] + [batch[m]]
  {
  }

  class CanvasRun {
    const d: Design
    var path: seq<string>
    var idx: nat
    var partials: seq<string>
    var error: bool
    var events: seq<Event>
    // the path before the first batch; what has been processed and dropped since; the queue's history
    ghost var base: seq<string>
    ghost var processed: seq<string>
    ghost var dropped: seq<string>
    ghost var queued: seq<string>
    ghost var served: seq<nat>
    // what was observed of components that have run, in order, and how often a cancellation was seen
    ghost var observed: seq<Result>
    ghost var cancellations: nat

    /**
      Every processed component that reports its end has done so or waits in the queue, and the queue
      is served first in, first out.
     */
    ghost predicate Accounted()
      reads this
    {
      Balanced(d, events, partials, processed) && Served(events, partials, queued, served)
    }

    /** The frozen part of the path: what was there, then everything processed, dependencies met. */
    ghost predicate PathKept()
      reads this
    {
      idx <= |path| && path[..idx] == base + processed && Ordered(d, base + processed, |base|)
    }

    /** The start of a run: unless the path ends in a fill-up component, it continues at "begin". */
    constructor (d: Design, before: seq<string>)
      ensures this.d == d && idx + 1 == |path| && !error && events == []
      ensures path == StartPath(d, before)
      ensures base == path[..idx] && processed == [] && dropped == [] && partials == []
      ensures Valid()
    {
      this.d := d;
      var start := if before == [] || !d.fillUpId(before[|before| - 1]) then before + ["begin"] else before;
      path, idx, partials, error, events := start, |start| - 1, [], false, [];
      base, processed, dropped, queued, served := start[..|start| - 1], [], [], [], [];
      observed, cancellations := [], 0;
    }

    /** The scan over the inputs of the component at position i. */
    method MayRun(i: nat) returns (runs: bool)
      requires i < |path|
      ensures runs <==>
              || d.comp(path[i]).kind.Begin? || d.comp(path[i]).kind.UserFillUp? || d.fillUpId(path[0])
              || forall k :: 0 <= k < |d.comp(path[i]).refs| ==> d.comp(path[i]).refs[k] in path[..i]
      ensures runs <==> Keeps(d, path[..i], path[i])
    {
      var c := d.comp(path[i]);
      if Unconditional(c.kind) {
        return true;
      }
      assert path[0] == if path[..i] == [] then path[i] else path[..i][0];
      for k := 0 to |c.refs|
        invariant d.fillUpId(path[0]) || forall j :: 0 <= j < k ==> c.refs[j] in path[..i]
      {
        if c.refs[k] !in path[..i] && !d.fillUpId(path[0]) {
          return false;
        }
      }
      return true;
    }

    /** `_run_batch`: removes components from the path while scanning it, and dispatches the others. */
    method RunBatch(f: nat) returns (dispatched: seq<string>)
      requires f <= |path|
      modifies this`path, this`dropped
      ensures dispatched == Survivors(d, old(path)[..f], old(path)[f..])
      ensures path == old(path)[..f] + dispatched
      ensures dropped == old(dropped) + Dropped(d, old(path)[..f], old(path)[f..])
    {
      ghost var prefix, batch := path[..f], path[f..];
      ghost var m := 0;
      dispatched := [];
      var i, t := f, |path|;
      while i < t
        invariant 0 <= m <= |batch| && i == f + |dispatched| && t == |path| == i + |batch| - m
        invariant dispatched == Survivors(d, prefix, batch[..m])
        invariant dropped == old(dropped) + Dropped(d, prefix, batch[..m])
        invariant path == prefix + dispatched + batch[m..]
        decreases t - i
      {
        ScanStep(prefix, dispatched, batch, m);
        JudgeNext(d, prefix, batch[..m], batch[m]);
        var runs := MayRun(i);
        if runs {
          dispatched := dispatched + [path[i]];
          i := i + 1;
        } else {
          dropped := dropped + [path[i]];
          path := path[..i] + path[i + 1..];
          t := t - 1;
        }
        m := m + 1;
      }
      assert batch[..|batch|] == batch;
    }

    /** Reports the component at the front of the queue. */
    method ReportFirst()
      requires Accounted() && partials != []
      modifies this`partials, this`events, this`served
      ensures Accounted() && partials == old(partials)[1..]
      ensures events == old(events) + [Event.Finished(old(partials)[0])]
    {
      BalancedDrain(d, events, partials, processed);
      ServedNext(events, partials, queued, served);
      served := served + [|events|];
      events := events + [Event.Finished(partials[0])];
      partials := partials[1..];
    }

    /** After a message: reports the queued components that are complete, up to the first that is not. */
    method DrainPartials(streaming: string -> bool) returns (ghost n: nat)
      requires Accounted()
      modifies this`partials, this`events, this`served
      ensures Accounted()
      ensures n <= |old(partials)| && partials == old(partials)[n..] == StillQueued(old(partials), streaming)
      ensures events == old(events) + ReportsOf(old(partials)[..n])
      ensures forall k :: 0 <= k < n ==> !streaming(old(partials)[k])
      ensures partials != [] ==> streaming(partials[0])
    {
      n := 0;
      while partials != []
        invariant Accounted()
        invariant n <= |old(partials)| && partials == old(partials)[n..]
        invariant StillQueued(partials, streaming) == StillQueued(old(partials), streaming)
        invariant events == old(events) + ReportsOf(old(partials)[..n])
        invariant forall k :: 0 <= k < n ==> !streaming(old(partials)[k])
        decreases |partials|
      {
        if streaming(partials[0]) {
          break;
        }
        assert ReportsOf(old(partials)[..n + 1]) == ReportsOf(old(partials)[..n]) + [Event.Finished(partials[0])];
        ReportFirst();
        n := n + 1;
      }
    }

    /** Reports the end of a component, or queues it while its content is streaming. */
    method FinishOrQueue(c: string, streaming: bool)
      requires Accounted()
      modifies this`partials, this`events, this`queued, this`processed
      ensures Accounted() && processed == old(processed) + [c]
      ensures partials == old(partials) + if Queues(d, c, streaming, error) then [c] else []
      ensures events == old(events) +
              if Reports(d.comp(c).kind) && !Queues(d, c, streaming, error) then [Event.Finished(c)] else []
      ensures if d.comp(c).kind.Iteration? || d.comp(c).kind.Loop?
              then partials == old(partials) && events == old(events)
              else if streaming && !error then partials == old(partials) + [c] && events == old(events)
              else partials == old(partials) && events == old(events) + [Event.Finished(c)]
    {
      BalancedStep(d, events, partials, processed, c, Reports(d.comp(c).kind) && !Queues(d, c, streaming, error),
                   Queues(d, c, streaming, error));
      processed := processed + [c];
      if Reports(d.comp(c).kind) {
        if streaming && !error {
          ServedQueued(events, partials, queued, served, c);
          partials := partials + [c];
          queued := queued + [c];
        } else {
          ServedAppended(events, Event.Finished(c), partials, queued, served);
          events := events + [Event.Finished(c)];
        }
      }
    }

    /** At the end of an iteration, the component enclosing it is reported as finished. */
    method FinishEnclosing(parent: string)
      requires Accounted()
      modifies this`events
      ensures Accounted() && events == old(events) + [EnclosingFinished(parent)]
    {
      BalancedOther(d, events, partials, processed, EnclosingFinished(parent));
      ServedAppended(events, EnclosingFinished(parent), partials, queued, served);
      events := events + [EnclosingFinished(parent)];
    }

    /** The reports of a component that has run: its own end, and that of the iteration it ends. */
    method Report(id: string, r: Result)
      requires Accounted()
      modifies this`partials, this`events, this`queued, this`processed
      ensures Accounted() && processed == old(processed) + [id]
      ensures partials == old(partials) + if Queues(d, id, r.streaming, error) then [id] else []
      ensures events == old(events) + OwnReports(d, id, r, error)
      ensures if (d.comp(id).kind.IterationItem? || d.comp(id).kind.LoopItem?) && r.ended && d.comp(id).parent.Some?
              then old(events) < events && events[|events| - 1] == EnclosingFinished(d.comp(id).parent.value)
              else forall i :: |old(events)| <= i < |events| ==> events[i] == Event.Finished(id)
    {
      var kind := d.comp(id).kind;
      FinishOrQueue(id, r.streaming);
      if (kind.IterationItem? || kind.LoopItem?) && r.ended && d.comp(id).parent.Some? {
        FinishEnclosing(d.comp(id).parent.value);
      }
    }

    method AppendPath(c: string)
      requires path != []
      modifies this`path
      ensures path == Extended(old(path), [c])
    {
      if path[|path| - 1] != c {
        path := path + [c];
      }
    }

    method ExtendPath(ids: seq<string>)
      requires path != []
      modifies this`path
      ensures path == Extended(old(path), ids)
    {
      for k := 0 to |ids|
        invariant path != [] && Extended(path, ids[k..]) == Extended(old(path), ids)
      {
        AppendPath(ids[k]);
      }
    }

    /** What a component has come to; a message has consumed its own stream. */
    method Observe(kind: Kind) returns (r: Result)
      modifies this`observed
      ensures observed == old(observed) + [r] && (kind.Message? ==> !r.streaming)
    {
      r := *;
      if kind.Message? {
        r := r.(streaming := false);
      }
      observed := observed + [r];
    }

    /** Whether the task has been cancelled. */
    method IsCanceled() returns (yes: bool)
      modifies this`cancellations
      ensures cancellations == old(cancellations) + if yes then 1 else 0
    {
      yes := *;
      if yes {
        cancellations := cancellations + 1;
      }
    }

    /**
      The post-processing of one component of a batch.  A message first lets n complete components
      leave the queue; then the component itself reports its end or is queued, and hands over.
     */
    method ProcessNode(i: nat) returns (r: Result, ghost n: nat)
      requires i < |path| && Accounted()
      modifies this`path, this`partials, this`error, this`events, this`queued, this`served, this`processed,
               this`observed
      ensures Accounted() && processed == old(processed) + [old(path)[i]]
      ensures path == NextPath(d, old(path), old(path)[i], r)
      ensures error <==> old(error) || Fatal(r)
      ensures observed == old(observed) + [r] && (d.comp(old(path)[i]).kind.Message? ==> !r.streaming)
      ensures n <= |old(partials)| && old(partials)[n..] == LeftQueued(d, old(path)[i], old(partials), r)
      ensures if d.comp(old(path)[i]).kind.Message?
              then && (forall k :: 0 <= k < n ==> !r.still(old(partials)[k]))
                   && (n < |old(partials)| ==> r.still(old(partials)[n]))
              else n == 0
      ensures r.failed && r.goto != [] ==> path == old(path) + r.goto
      ensures partials == old(partials)[n..] +
              if Queues(d, old(path)[i], r.streaming, error) then [old(path)[i]] else []
      ensures events == old(events) + ReportsOf(old(partials)[..n]) + OwnReports(d, old(path)[i], r, error)
    {
      var id := path[i];
      var kind := d.comp(id).kind;
      r := Observe(kind);
      n := 0;
      if kind.Message? {
        n := DrainPartials(r.still);
      }
      var otherBranch := false;
      if r.failed {
        if r.goto != [] {
          path := path + r.goto;
          otherBranch := true;
        } else if !r.hasDefault {
          error := true;
        }
      }
      Report(id, r);
      if !otherBranch {
        ExtendPath(Successors(d, id, r));
      }
    }

    /** Announces the components of the next batch. */
    method Announce()
      requires idx <= |path| && Accounted()
      modifies this`events
      ensures Accounted() && Announced(old(events), events, path[idx..])
    {
      for i := idx to |path|
        invariant Accounted() && Announced(old(events), events, path[idx..i])
      {
        BalancedOther(d, events, partials, processed, Started(path[i]));
        ServedAppended(events, Started(path[i]), partials, queued, served);
        AnnounceOne(old(events), events, path[idx..i], path[i]);
        assert path[idx..i + 1] == path[idx..i] + [path[i]];
        events := events + [Started(path[i])];
      }
      assert path[idx..|path|] == path[idx..];
    }

    /** Post-processes the components of a batch in turn; their successors go to the end of the path. */
    method PostProcess(to: nat) returns (ghost results: seq<Result>)
      requires idx <= to == |path| && Accounted() && !error
      modifies this`path, this`partials, this`error, this`events, this`queued, this`served, this`processed,
               this`observed
      ensures Accounted() && processed == old(processed) + old(path)[idx..]
      ensures |results| == to - idx && path == PathAfter(d, old(path), old(path)[idx..], results)
      ensures observed == old(observed) + results
      ensures error <==> SomeFatal(results)
      ensures SameStarts(old(events), events)
    {
      results := [];
      ghost var first := events;
      assert Progress(d, path, idx, idx, processed, path, processed, results, error);
      for i := idx to to
        invariant Accounted() && SameStarts(first, events) && observed == old(observed) + results
        invariant Progress(d, old(path), idx, i, old(processed), path, processed, results, error)
      {
        ghost var path', processed', error' := path, processed, error;
        assert i < |path| && path[i] == old(path)[i];
        ghost var r := ProcessQuietly(i, first);
        ProgressStep(d, old(path), idx, i, old(processed), path', processed', results, error', r);
        JoinResults(old(observed), results, [r]);
        results := results + [r];
      }
      assert old(path)[idx..to] == old(path)[idx..];
    }

    /** Processing a component announces no start. */
    method ProcessQuietly(i: nat, ghost first: seq<Event>) returns (ghost r: Result)
      requires i < |path| && Accounted() && SameStarts(first, events)
      modifies this`path, this`partials, this`error, this`events, this`queued, this`served, this`processed,
               this`observed
      ensures Accounted() && processed == old(processed) + [old(path)[i]] && SameStarts(first, events)
      ensures path == NextPath(d, old(path), old(path)[i], r) && (error <==> old(error) || Fatal(r))
      ensures observed == old(observed) + [r]
    {
      ghost var n;
      r, n := ProcessNode(i);
      ReportsAreNoStarts(d, first, old(events), old(partials)[..n], old(path)[i], r, error);
    }

    /** The invariant at the head of the scheduling loop. */
    ghost predicate Valid()
      reads this
    {
      !error && Accounted() && PathKept() && StartsSettled(events, processed, dropped)
    }

    /** Thins out the announced batch, runs what is left of it, and post-processes it. */
    method WorkBatch(ghost events0: seq<Event>) returns (to: nat, ghost turn: Turn)
      requires !error && Accounted() && PathKept() && idx < |path|
      requires StartsSettled(events0, processed, dropped) && Announced(events0, events, path[idx..])
      modifies this`path, this`dropped, this`partials, this`error, this`events, this`queued, this`served,
               this`processed, this`observed
      ensures Accounted() && StartsSettled(events, processed, dropped) && processed == old(processed) + turn.batch
      ensures IsTurn(d, turn) && turn.prefix == old(path)[..idx] && turn.rest == old(path)[idx..]
      ensures to == idx + |turn.batch| && path == turn.prefix + turn.batch + turn.pending
      ensures turn.prefix + turn.batch == base + processed
      ensures error <==> SomeFatal(turn.results)
      ensures observed == old(observed) + turn.results
      ensures Ordered(d, base + processed, |base|)
    {
      ghost var prefix, rest, mid := path[..idx], path[idx..], events;
      assert prefix + rest == path;
      ghost var batch := RunBatch(idx);
      ghost var thinned := path;
      assert path[idx..] == batch;
      to := |path|;
      ghost var results := PostProcess(to);
      turn := TurnMade(d, prefix, rest, batch, results, path);
      RoundDone(d, base, rest, thinned, path, events0, old(processed), old(dropped), mid, events, processed, dropped);
    }

    /**
      One round of the scheduling loop.  A failing batch leaves the path as it was before that batch;
      pending fill-up components end the run with the pending part of the path only.
     */
    method Round() returns (status: Status, ghost turn: Turn)
      requires Valid() && idx < |path|
      modifies this`path, this`idx, this`dropped, this`partials, this`error, this`events, this`queued, this`served,
               this`processed, this`observed, this`cancellations
      ensures Accounted() && Ordered(d, base + processed, |base|)
      ensures status.Interrupted? <==> cancellations > old(cancellations)
      ensures cancellations >= old(cancellations)
      ensures status.Interrupted? ==> path == old(path) && processed == old(processed) && idx == old(idx)
      ensures observed == if status.Interrupted? then old(observed) else old(observed) + turn.results
      ensures !status.Interrupted? ==> processed == old(processed) + turn.batch && IsTurn(d, turn)
      ensures !status.Interrupted? ==> turn.prefix == base + old(processed) && turn.rest == old(path)[old(idx)..]
      ensures !status.Interrupted? ==> status == Verdict(d, turn)
      ensures !status.Interrupted? ==> path == PathLeft(d, turn) && idx == IndexLeft(d, turn)
      ensures status.Continues? ==> Valid() && path[idx..] == turn.pending
    {
      turn := Turn([], [], [], [], []);
      Announce();
      assert PathKept() && StartsSettled(old(events), processed, dropped);
      var cancelled := IsCanceled();
      if cancelled {
        return Interrupted, turn;
      }
      status, turn := AnnouncedRound(old(events));
    }

    /** A round after its batch has been announced. */
    method AnnouncedRound(ghost events0: seq<Event>) returns (status: Status, ghost turn: Turn)
      requires !error && Accounted() && PathKept() && idx < |path|
      requires StartsSettled(events0, processed, dropped) && Announced(events0, events, path[idx..])
      modifies this`path, this`idx, this`dropped, this`partials, this`error, this`events, this`queued, this`served,
               this`processed, this`observed
      ensures Accounted() && Ordered(d, base + processed, |base|)
      ensures processed == old(processed) + turn.batch && IsTurn(d, turn)
      ensures turn.prefix == base + old(processed) && turn.rest == old(path)[old(idx)..]
      ensures observed == old(observed) + turn.results
      ensures status == Verdict(d, turn) && path == PathLeft(d, turn) && idx == IndexLeft(d, turn)
      ensures status.Continues? ==> Valid() && path[idx..] == turn.pending
    {
      var to;
      to, turn := WorkBatch(events0);
      status := Conclude(to, turn);
      TurnSlices(turn);
    }

    /** The end of a round whose batch reaches up to position to. */
    method Conclude(to: nat, ghost turn: Turn) returns (status: Status)
      requires idx == |turn.prefix| && to == idx + |turn.batch| && path == turn.prefix + turn.batch + turn.pending
      requires error <==> SomeFatal(turn.results)
      modifies this`path, this`idx
      ensures status == Verdict(d, turn) && path == PathLeft(d, turn) && idx == IndexLeft(d, turn)
    {
      TurnSlices(turn);
      if error {
        path := path[..idx];
        return Failed;
      }
      idx := to;
      var pending := path[idx..];
      if NeedsInput(d, pending) {
        path := FillUpsFirst(d, pending);
        return AwaitingInput;
      }
      return Continues;
    }

    /**
      `run`, for at most the given number of rounds; `turns` are the rounds that were worked off.  Every
      position is processed in exactly one of them, in order, and stays; a run that completes keeps the
      whole path, one that fails keeps what was there before its last round, the only one with a fatal
      result.
     */
    method Run(rounds: nat) returns (status: Status, ghost turns: seq<Turn>)
      requires Valid() && processed == [] && |base| == idx
      modifies this`path, this`idx, this`dropped, this`partials, this`error, this`events, this`queued, this`served,
               this`processed, this`observed, this`cancellations
      ensures Accounted() && Ordered(d, base + processed, |base|)
      ensures status.Completed? || status.Continues? ==> Valid()
      ensures processed == Worked(turns) && Chain(d, base, old(path)[old(idx)..], turns)
      ensures observed == old(observed) + Results(turns)
      ensures status.Interrupted? <==> cancellations > old(cancellations)
      ensures RunEnds(d, base, old(path)[old(idx)..], turns, status, path, idx)
      ensures status.Continues? ==> |turns| == rounds
    {
      status, turns := Continues, [];
      ghost var rest := path[idx..];
      for k := 0 to rounds
        invariant Valid() && Midway(rest, turns) && |turns| == k
        invariant observed == old(observed) + Results(turns) && cancellations == old(cancellations)
      {
        if idx >= |path| {
          break;
        }
        ghost var turn;
        status, turn := NextTurn(rest, turns, old(observed));
        if status.Interrupted? {
          return;
        }
        turns := turns + [turn];
        if !status.Continues? {
          return;
        }
      }
      status := EndRun(rest, turns);
    }

    /** After the last round: a run with nothing left to work off is complete. */
    method EndRun(ghost rest: seq<string>, ghost turns: seq<Turn>) returns (status: Status)
      requires Valid() && Midway(rest, turns)
      modifies this`path
      ensures Valid() && path == old(path) && status == if idx == |path| then Completed else Continues
      ensures RunEnds(d, base, rest, turns, status, path, idx)
    {
      Between(d, base, rest, turns, path, idx);
      if idx >= |path| {
        path := path[..idx];
        status := Completed;
      } else {
        status := Continues;
      }
    }

    /** Between two rounds: what was processed, and what is still to be worked off. */
    ghost predicate Midway(rest: seq<string>, turns: seq<Turn>)
      reads this
    {
      && processed == Worked(turns) && Chain(d, base, rest, turns) && GoesOn(d, turns)
      && idx <= |path| && path[..idx] == base + Worked(turns) && path[idx..] == Pending(rest, turns)
    }

    /** One round of a run, as its next turn. */
    method NextTurn(ghost rest: seq<string>, ghost turns: seq<Turn>, ghost before: seq<Result>)
      returns (status: Status, ghost turn: Turn)
      requires Valid() && Midway(rest, turns) && idx < |path| && observed == before + Results(turns)
      modifies this`path, this`idx, this`dropped, this`partials, this`error, this`events, this`queued, this`served,
               this`processed, this`observed, this`cancellations
      ensures Accounted() && Ordered(d, base + processed, |base|)
      ensures cancellations >= old(cancellations) && (status.Interrupted? <==> cancellations > old(cancellations))
      ensures status.Interrupted? ==> Midway(rest, turns) && idx < |path| && observed == before + Results(turns)
      ensures !status.Interrupted? ==> status == Verdict(d, turn)
      ensures !status.Interrupted? ==> path == PathLeft(d, turn) && idx == IndexLeft(d, turn)
      ensures !status.Interrupted? ==> turn.prefix == base + Worked(turns) && Chain(d, base, rest, turns + [turn])
      ensures !status.Interrupted? ==> processed == Worked(turns + [turn])
      ensures !status.Interrupted? ==> observed == before + Results(turns + [turn])
      ensures status.Continues? ==> Valid() && Midway(rest, turns + [turn])
      ensures !status.Continues? ==>
                RunEnds(d, base, rest, if status.Interrupted? then turns else turns + [turn], status, path, idx)
    {
      status, turn := Round();
      if status.Interrupted? {
        Between(d, base, rest, turns, path, idx);
      } else {
        TurnStops(d, base, rest, turns, turn);
        ChainOneMore(d, base, rest, turns, turn);
        JoinResults(before, Results(turns), turn.results);
      }
    }
  }

  /** A pending component waits for input. */
  predicate NeedsInput(d: Design, pending: seq<string>) {
    exists k :: 0 <= k < |pending| && d.comp(pending[k]).kind.UserFillUp?
  }

  /**
    One round: the path before and from the position it started at, the survivors of its batch, what
    each of them came to, and what they appended.
   */
  datatype Turn = Turn(prefix: seq<string>, rest: seq<string>, batch: seq<string>, results: seq<Result>,
                       pending: seq<string>)

  lemma TurnSlices(t: Turn)
    ensures var path, to := t.prefix + t.batch + t.pending, |t.prefix| + |t.batch|;
            path[..|t.prefix|] == t.prefix && path[..to] == t.prefix + t.batch && path[to..] == t.pending
  {
  }

  ghost predicate IsTurn(d: Design, t: Turn) {
    && t.rest != [] && t.batch == Survivors(d, t.prefix, t.rest) && |t.results| == |t.batch|
    && PathAfter(d, t.prefix + t.batch, t.batch, t.results) == t.prefix + t.batch + t.pending
  }

  lemma TurnMade(d: Design, prefix: seq<string>, rest: seq<string>, batch: seq<string>, results: seq<Result>,
                 path: seq<string>) returns (t: Turn)
    requires rest != [] && batch == Survivors(d, prefix, rest) && |results| == |batch|
    requires path == PathAfter(d, prefix + batch, batch, results)
    ensures t == Turn(prefix, rest, batch, results, path[|prefix + batch|..])
    ensures IsTurn(d, t) && path == prefix + batch + t.pending
  {
    t := Turn(prefix, rest, batch, results, path[|prefix + batch|..]);
    assert path[..|prefix + batch|] == prefix + batch;
  }

  /**
    What a component of a round hands over to, or branches to on a failure, is worked off in the next
    round, unless it repeats the last component of this one.
   */
  lemma HandedOnIsPending(d: Design, t: Turn, k: nat, c: string)
    requires IsTurn(d, t) && k < |t.batch|
    requires var r := t.results[k];
             c in if r.failed && r.goto != [] then r.goto else Successors(d, t.batch[k], r)
    ensures c in t.pending || c == t.batch[|t.batch| - 1]
  {
    var i := HandedOn(d, t.prefix + t.batch, t.batch, t.results, k, c);
    var n := |t.prefix + t.batch|;
    if i >= n {
      assert (t.prefix + t.batch + t.pending)[i] == t.pending[i - n];
    }
  }

  /** Whatever is worked off in the next round was handed on by a component of this one. */
  lemma PendingWasHandedOn(d: Design, t: Turn, i: nat) returns (k: nat)
    requires IsTurn(d, t) && i < |t.pending|
    ensures k < |t.batch|
    ensures var r := t.results[k];
            t.pending[i] in if r.failed && r.goto != [] then r.goto else Successors(d, t.batch[k], r)
  {
    k := AppendedBy(d, t.prefix + t.batch, t.batch, t.results, |t.prefix + t.batch| + i);
  }

  /** How a round ends, from the results of its components and what they appended. */
  ghost function Verdict(d: Design, t: Turn): Status {
    if SomeFatal(t.results) then Failed else if NeedsInput(d, t.pending) then AwaitingInput else Continues
  }

  /** The path that a round leaves. */
  ghost function PathLeft(d: Design, t: Turn): seq<string> {
    if Verdict(d, t).Failed? then t.prefix
    else if Verdict(d, t).AwaitingInput? then FillUpsFirst(d, t.pending)
    else t.prefix + t.batch + t.pending
  }

  ghost function IndexLeft(d: Design, t: Turn): nat {
    if Verdict(d, t).Failed? then |t.prefix| else |t.prefix| + |t.batch|
  }

  /** What the rounds processed, in order. */
  function Worked(turns: seq<Turn>): seq<string> {
    if turns == [] then [] else Worked(turns[..|turns| - 1]) + turns[|turns| - 1].batch
  }

  /** What the components came to that the rounds processed, in order. */
  function Results(turns: seq<Turn>): seq<Result> {
    if turns == [] then [] else Results(turns[..|turns| - 1]) + turns[|turns| - 1].results
  }

  /** What is still to be worked off after some rounds. */
  function Pending(rest: seq<string>, turns: seq<Turn>): seq<string> {
    if turns == [] then rest else turns[|turns| - 1].pending
  }

  /**
    Round k starts after what the rounds before it processed, works off what the last of them appended,
    and lets the run go on unless it is the last.
   */
  ghost predicate Link(d: Design, base: seq<string>, rest: seq<string>, turns: seq<Turn>, k: nat)
    requires k < |turns|
  {
    && IsTurn(d, turns[k])
    && turns[k].prefix == base + Worked(turns[..k]) && turns[k].rest == Pending(rest, turns[..k])
    && (k < |turns| - 1 ==> Verdict(d, turns[k]).Continues?)
  }

  ghost predicate Chain(d: Design, base: seq<string>, rest: seq<string>, turns: seq<Turn>) {
    forall k :: 0 <= k < |turns| ==> Link(d, base, rest, turns, k)
  }

  lemma JoinResults(a: seq<Result>, b: seq<Result>, c: seq<Result>)
    ensures (a + b) + c == a + (b + c)
  {
  }

  ghost predicate GoesOn(d: Design, turns: seq<Turn>) {
    turns != [] ==> Verdict(d, turns[|turns| - 1]).Continues?
  }

  lemma ChainOneMore(d: Design, base: seq<string>, rest: seq<string>, turns: seq<Turn>, t: Turn)
    requires Chain(d, base, rest, turns) && GoesOn(d, turns)
    requires IsTurn(d, t) && t.prefix == base + Worked(turns) && t.rest == Pending(rest, turns)
    ensures Chain(d, base, rest, turns + [t])
    ensures Worked(turns + [t]) == Worked(turns) + t.batch && Pending(rest, turns + [t]) == t.pending
    ensures Results(turns + [t]) == Results(turns) + t.results
  {
    var more := turns + [t];
    assert more[..|turns|] == turns;
    forall k | 0 <= k < |more| ensures Link(d, base, rest, more, k) {
      if k < |turns| {
        assert Link(d, base, rest, turns, k);
        assert more[..k] == turns[..k];
      }
    }
  }

  ghost predicate StopsBetweenTurns(d: Design, base: seq<string>, rest: seq<string>, turns: seq<Turn>,
                                    path: seq<string>, idx: nat)
  {
    var worked, pending := base + Worked(turns), Pending(rest, turns);
    GoesOn(d, turns) && pending != [] && path == worked + pending && idx == |worked|
  }

  /** How a whole run ends, after a chain of rounds from the start base + rest. */
  ghost predicate RunEnds(d: Design, base: seq<string>, rest: seq<string>, turns: seq<Turn>, status: Status,
                          path: seq<string>, idx: nat)
  {
    var worked := base + Worked(turns);
    match status
    case Completed => GoesOn(d, turns) && Pending(rest, turns) == [] && path == worked && idx == |path|
    case Continues => StopsBetweenTurns(d, base, rest, turns, path, idx)
    case Interrupted => StopsBetweenTurns(d, base, rest, turns, path, idx)
    case Failed =>
      && turns != [] && SomeFatal(turns[|turns| - 1].results)
      && path == base + Worked(turns[..|turns| - 1]) && idx == |path|
    case AwaitingInput =>
      && turns != [] && Verdict(d, turns[|turns| - 1]).AwaitingInput?
      && path == FillUpsFirst(d, Pending(rest, turns)) && idx == |worked|
  }

  lemma Between(d: Design, base: seq<string>, rest: seq<string>, turns: seq<Turn>, path: seq<string>, idx: nat)
    requires GoesOn(d, turns) && idx <= |path|
    requires path[..idx] == base + Worked(turns) && path[idx..] == Pending(rest, turns)
    ensures idx < |path| ==> StopsBetweenTurns(d, base, rest, turns, path, idx)
    ensures idx == |path| ==> path[..idx] == path && RunEnds(d, base, rest, turns, Completed, path, idx)
  {
    assert path == path[..idx] + path[idx..];
  }

  /** A run that its last round stops. */
  lemma TurnStops(d: Design, base: seq<string>, rest: seq<string>, turns: seq<Turn>, t: Turn)
    requires t.prefix == base + Worked(turns)
    ensures !Verdict(d, t).Continues? ==>
              RunEnds(d, base, rest, turns + [t], Verdict(d, t), PathLeft(d, t), IndexLeft(d, t))
  {
    assert (turns + [t])[..|turns|] == turns;
    assert (base + Worked(turns)) + t.batch == base + (Worked(turns) + t.batch);
  }

  /**
    No round before the last has a result that failed without a branch and without a default value, and
    the last one has one exactly when the run fails; the run waits for input exactly when otherwise the
    last round has left a fill-up component pending.
   */
  lemma OnlyLastTurnIsFatal(d: Design, base: seq<string>, rest: seq<string>, turns: seq<Turn>, status: Status,
                            path: seq<string>, idx: nat, k: nat)
    requires Chain(d, base, rest, turns) && RunEnds(d, base, rest, turns, status, path, idx) && k < |turns|
    ensures var t := turns[k];
            var fatal := exists j :: 0 <= j < |t.results| && t.results[j].failed && t.results[j].goto == []
                                     && !t.results[j].hasDefault;
            var waits := exists j :: 0 <= j < |t.pending| && d.comp(t.pending[j]).kind.UserFillUp?;
            && (fatal <==> status.Failed? && k == |turns| - 1)
            && (waits && !fatal <==> status.AwaitingInput? && k == |turns| - 1)
  {
    assert Link(d, base, rest, turns, k);
    var t := turns[k];
    if j :| 0 <= j < |t.results| && t.results[j].failed && t.results[j].goto == [] && !t.results[j].hasDefault {
      assert Fatal(t.results[j]);
    }
  }

  /** Over a whole run, an announced component is not run exactly if it refers to something not run before it. */
  lemma DroppedInRun(d: Design, base: seq<string>, rest: seq<string>, turns: seq<Turn>, k: nat, m: nat)
    requires Chain(d, base, rest, turns) && k < |turns| && m < |turns[k].rest|
    ensures var before := base + Worked(turns[..k]) + Survivors(d, base + Worked(turns[..k]), turns[k].rest[..m]);
            var c := turns[k].rest[m];
            var unmet := && !d.comp(c).kind.Begin? && !d.comp(c).kind.UserFillUp?
                         && !d.fillUpId((before + [c])[0])
                         && exists i :: 0 <= i < |d.comp(c).refs| && d.comp(c).refs[i] !in before;
            && turns[k].batch == Survivors(d, base + Worked(turns[..k]), turns[k].rest)
            && Survivors(d, base + Worked(turns[..k]), turns[k].rest[..m + 1]) ==
               Survivors(d, base + Worked(turns[..k]), turns[k].rest[..m]) + (if unmet then [] else [c])
  {
    assert Link(d, base, rest, turns, k);
    DroppedIff(d, base + Worked(turns[..k]), turns[k].rest, m);
  }

  /** The batch of round k has its own place in what was processed, right after the rounds before it. */
  lemma {:induction false} BatchInPlace(turns: seq<Turn>, k: nat)
    requires k < |turns|
    ensures var at, n := |Worked(turns[..k])|, |turns[k].batch|;
            at + n <= |Worked(turns)| && Worked(turns)[at..at + n] == turns[k].batch
    decreases |turns|
  {
    var m := |turns| - 1;
    var before := Worked(turns[..m]);
    if k < m {
      BatchInPlace(turns[..m], k);
      assert turns[..m][..k] == turns[..k];
      var at, n := |Worked(turns[..k])|, |turns[k].batch|;
      assert (before + turns[m].batch)[at..at + n] == before[at..at + n];
    } else {
      assert (before + turns[m].batch)[|before|..] == turns[m].batch;
    }
  }

  /** What a round does to the frozen part of the path. */
  lemma RoundKeepsPath(d: Design, base: seq<string>, processed: seq<string>, batch: seq<string>,
                       thinned: seq<string>, path: seq<string>)
    requires thinned == base + processed + Survivors(d, base + processed, batch) && thinned <= path
    requires Ordered(d, base + processed, |base|)
    ensures thinned == base + (processed + Survivors(d, base + processed, batch))
    ensures path[..|thinned|] == thinned && path[..|base + processed|] == base + processed
    ensures Ordered(d, thinned, |base|)
  {
    var prefix := base + processed;
    if thinned != [] && !d.fillUpId(thinned[0]) {
      forall i | |base| <= i < |thinned| ensures DependenciesMet(d, thinned, i) {
        if i < |prefix| {
          DependenciesKept(d, prefix, thinned, i);
        } else {
          SurvivorsAreSafe(d, prefix, batch, i);
        }
      }
    }
  }

  /** Both together: the path, and the balance of announced starts. */
  lemma RoundDone(d: Design, base: seq<string>, batch: seq<string>, thinned: seq<string>, path: seq<string>,
                  events0: seq<Event>, processed0: seq<string>, dropped0: seq<string>, mid: seq<Event>,
                  events: seq<Event>, processed: seq<string>, dropped: seq<string>)
    requires thinned == base + processed0 + Survivors(d, base + processed0, batch) && thinned <= path
    requires Ordered(d, base + processed0, |base|) && StartsSettled(events0, processed0, dropped0)
    requires Announced(events0, mid, batch) && SameStarts(mid, events)
    requires processed == processed0 + Survivors(d, base + processed0, batch)
    requires dropped == dropped0 + Dropped(d, base + processed0, batch)
    ensures thinned == base + processed && path[..|thinned|] == thinned
    ensures path[..|base + processed0|] == base + processed0
    ensures Ordered(d, base + processed, |base|) && StartsSettled(events, processed, dropped)
  {
    RoundKeepsPath(d, base, processed0, batch, thinned, path);
    RoundSettles(events0, processed0, dropped0, mid, events, processed, dropped, d, base + processed0, batch);
  }

  lemma RoundSettles(events0: seq<Event>, processed0: seq<string>, dropped0: seq<string>, mid: seq<Event>,
                     events: seq<Event>, processed: seq<string>, dropped: seq<string>,
                     d: Design, prefix: seq<string>, batch: seq<string>)
    requires StartsSettled(events0, processed0, dropped0)
    requires Announced(events0, mid, batch) && SameStarts(mid, events)
    requires processed == processed0 + Survivors(d, prefix, batch) && dropped == dropped0 + Dropped(d, prefix, batch)
    ensures StartsSettled(events, processed, dropped)
  {
    forall x ensures Starts(events, x) == Count(processed, x) + Count(dropped, x) {
      assert AnnouncedAt(events0, mid, batch, x);
      StayOrDrop(d, prefix, batch, x);
      CountConcat(processed0, Survivors(d, prefix, batch), x);
      CountConcat(dropped0, Dropped(d, prefix, batch), x);
    }
  }
}
