/** The event sweep of `SummarizeEntries`, proved against `Share` and `Measure`. */
module BuildTimeReport {
  import opened IntervalMeasure
  import opened Basics

  class Target {
    const start: real
    const end: real
    var weightedDuration: real

    constructor (start: real, end: real)
      ensures this.start == start && this.end == end && weightedDuration == 0.0
    {
      this.start, this.end, this.weightedDuration := start, end, 0.0;
    }
  }

  datatype Event = Event(time: real, isStop: bool, target: Target)

  function Start(t: Target): Event { Event(t.start, false, t) }

  function Stop(t: Target): Event { Event(t.end, true, t) }

  /** The sort key (time, action name): at equal times "start" sorts before "stop". */
  predicate KeyLeq(e: Event, f: Event) {
    e.time < f.time || (e.time == f.time && (e.isStop ==> f.isStop))
  }

  predicate Sorted(s: seq<Event>) {
    forall i, j :: 0 <= i < j < |s| ==> KeyLeq(s[i], s[j])
  }

  function Spans(entries: seq<Target>): seq<Span> {
    seq(|entries|, i requires 0 <= i < |entries| => Span(entries[i].start, entries[i].end))
  }

  /** What a call reports, or the exception it ends with. */
  datatype Report =
    | Summary(earliest: real, latest: real, totalCpuTime: real, weightedTotal: real, warned: bool)
    | IndexError
    | KeyError(target: Target)

  // ----- Building and sorting the event list

  /** The events of the entries, in the order in which they are appended. */
  function Events(entries: seq<Target>): seq<Event> {
    if entries == [] then []
    else
      var n := |entries| - 1;
      Events(entries[..n]) + [Start(entries[n])] + [Stop(entries[n])]
  }

  lemma {:induction false} EventsOfEntries(entries: seq<Target>)
    ensures forall e :: e in Events(entries) ==>
              e.target in entries && (e == Start(e.target) || e == Stop(e.target))
    ensures forall t :: t in entries ==> Start(t) in Events(entries) && Stop(t) in Events(entries)
  {
    if entries != [] {
      var n := |entries| - 1;
      EventsOfEntries(entries[..n]);
      assert entries == entries[..n] + [entries[n]];
    }
  }

  lemma {:induction false} EventsAreDistinct(entries: seq<Target>)
    requires Distinct(entries)
    ensures Distinct(Events(entries))
  {
    if entries != [] {
      var n := |entries| - 1;
      EventsAreDistinct(entries[..n]);
      EventsOfEntries(entries[..n]);
      DistinctConcat(Events(entries[..n]), [Start(entries[n])]);
      DistinctConcat(Events(entries[..n]) + [Start(entries[n])], [Stop(entries[n])]);
    }
  }

  /** The running minimum of the start times, as the code keeps it from its initial value -1. */
  function Earliest(entries: seq<Target>): real {
    if entries == [] then -1.0
    else
      var n := |entries| - 1;
      var before := Earliest(entries[..n]);
      if before < 0.0 || entries[n].start < before then entries[n].start else before
  }

  function CpuTime(entries: seq<Target>): real {
    if entries == [] then 0.0
    else
      var n := |entries| - 1;
      CpuTime(entries[..n]) + (entries[n].end - entries[n].start)
  }

  /** All end times and all start times, added up. */
  function EndTimes(entries: seq<Target>): real {
    if entries == [] then 0.0 else entries[0].end + EndTimes(entries[1..])
  }

  function StartTimes(entries: seq<Target>): real {
    if entries == [] then 0.0 else entries[0].start + StartTimes(entries[1..])
  }

  /** The summed durations, from the left, are all end times minus all start times. */
  lemma {:induction false} CpuTimeIs(entries: seq<Target>)
    ensures CpuTime(entries) == EndTimes(entries) - StartTimes(entries)
  {
    if entries != [] {
      var n := |entries| - 1;
      CpuTimeIs(entries[..n]);
      TimesOfOneMore(entries[..n], entries[n]);
      assert entries == entries[..n] + [entries[n]];
    }
  }

  lemma {:induction false} TimesOfOneMore(entries: seq<Target>, t: Target)
    ensures EndTimes(entries + [t]) == EndTimes(entries) + t.end
    ensures StartTimes(entries + [t]) == StartTimes(entries) + t.start
  {
    var more := entries + [t];
    if entries == [] {
      assert more[1..] == [];
    } else {
      TimesOfOneMore(entries[1..], t);
      assert more[1..] == entries[1..] + [t] && more[0] == entries[0];
    }
  }

  ghost predicate IsMinStart(entries: seq<Target>, x: real) {
    && (exists i :: 0 <= i < |entries| && entries[i].start == x)
    && (forall i :: 0 <= i < |entries| ==> x <= entries[i].start)
  }

  /**
    The value -1 doubles as "not set", so the earliest start is found exactly when no start time is
    negative or the last entry happens to be a minimum.
   */
  lemma {:induction false} EarliestIsMinimumIff(entries: seq<Target>)
    requires entries != []
    ensures IsMinStart(entries, Earliest(entries)) <==>
            (forall i :: 0 <= i < |entries| ==> 0.0 <= entries[i].start)
            || IsMinStart(entries, entries[|entries| - 1].start)
    ensures (forall i :: 0 <= i < |entries| ==> 0.0 <= entries[i].start) ==> Earliest(entries) >= 0.0
  {
    var n := |entries| - 1;
    var init := entries[..n];
    assert forall i :: 0 <= i < n ==> entries[i] == init[i];
    if init != [] {
      EarliestIsMinimumIff(init);
      assert Earliest(init) < 0.0 || Earliest(init) == Earliest(entries) || entries[n].start == Earliest(entries);
      var i := EarliestOccurs(init);
      assert entries[i].start == Earliest(init);
    }
  }

  /** Two entries, the earlier one first, both before zero: the second takes the place of the first. */
  lemma EarliestIsMissed(a: Target, b: Target)
    requires a.start == -2.0 && b.start == -1.0
    ensures Earliest([a, b]) == -1.0 && !IsMinStart([a, b], Earliest([a, b]))
  {
    assert [a, b][..1] == [a] && [a][..0] == [];
    assert Earliest([a]) == -2.0;
    assert [a, b][0].start < -1.0;
  }

  lemma {:induction false} EarliestOccurs(entries: seq<Target>) returns (i: nat)
    requires entries != []
    ensures i < |entries| && entries[i].start == Earliest(entries)
  {
    i := |entries| - 1;
    if i > 0 && Earliest(entries) != entries[i].start {
      i := EarliestOccurs(entries[..i]);
    }
  }

  method CollectEvents(entries: seq<Target>)
    returns (earliest: real, latest: real, totalCpuTime: real, evs: seq<Event>)
    ensures earliest == Earliest(entries) && totalCpuTime == CpuTime(entries) && evs == Events(entries)
    ensures forall i :: 0 <= i < |entries| ==> entries[i].end <= latest
    ensures 0.0 <= latest && (latest == 0.0 || exists i :: 0 <= i < |entries| && entries[i].end == latest)
  {
    earliest, latest, totalCpuTime, evs := -1.0, 0.0, 0.0, [];
    for k := 0 to |entries|
      invariant earliest == Earliest(entries[..k]) && totalCpuTime == CpuTime(entries[..k])
      invariant evs == Events(entries[..k])
      invariant forall i :: 0 <= i < k ==> entries[i].end <= latest
      invariant 0.0 <= latest && (latest == 0.0 || exists i :: 0 <= i < k && entries[i].end == latest)
    {
      var target := entries[k];
      assert entries[..k + 1][..k] == entries[..k];
      if earliest < 0.0 || target.start < earliest {
        earliest := target.start;
      }
      if target.end > latest {
        latest := target.end;
      }
      totalCpuTime := totalCpuTime + (target.end - target.start);
      evs := evs + [Start(target)];
      evs := evs + [Stop(target)];
    }
    assert entries[..|entries|] == entries;
  }

  function InsertEvent(e: Event, s: seq<Event>): (r: seq<Event>)
    requires Sorted(s)
    ensures Sorted(r) && |r| == |s| + 1
    ensures forall x :: x in r ==> x == e || x in s
    ensures e in r && forall x :: x in s ==> x in r
    ensures Distinct(s) && e !in s ==> Distinct(r)
  {
    if s == [] then [e]
    else
      var n := |s| - 1;
      assert s == s[..n] + [s[n]];
      if KeyLeq(s[n], e) then s + [e]
      else
        var r := InsertEvent(e, s[..n]);
        assert forall x :: x in s[..n] ==> KeyLeq(x, s[n]);
        assert forall x :: x in r ==> KeyLeq(x, s[n]);
        assert Distinct(s) && e !in s ==> s[n] !in r;
        r + [s[n]]
  }

  /** A stable sort by key, standing for Python's `list.sort`. */
  function SortEvents(s: seq<Event>): (r: seq<Event>)
    ensures Sorted(r) && |r| == |s|
    ensures forall x :: x in r ==> x in s
    ensures forall x :: x in s ==> x in r
    ensures Distinct(s) ==> Distinct(r)
  {
    if s == [] then []
    else
      var n := |s| - 1;
      assert s == s[..n] + [s[n]];
      InsertEvent(s[n], SortEvents(s[..n]))
  }

  // ----- What the sorted event list says about the running tasks

  /** Where the start and the stop of each entry are in the event list, and whose each event is. */
  datatype Index = Index(starts: seq<nat>, stops: seq<nat>, owner: seq<nat>)

  /** The start and the stop of entry k are where ix says. */
  ghost predicate Placed(entries: seq<Target>, evs: seq<Event>, ix: Index, k: nat)
    requires |ix.starts| == |entries| && |ix.stops| == |entries| && k < |entries|
  {
    && ix.starts[k] < |evs| && evs[ix.starts[k]] == Start(entries[k])
    && ix.stops[k] < |evs| && evs[ix.stops[k]] == Stop(entries[k])
  }

  /** Event p is the start or the stop of its owner. */
  ghost predicate Owned(entries: seq<Target>, evs: seq<Event>, ix: Index, p: nat)
    requires |ix.starts| == |entries| && |ix.stops| == |entries| && |ix.owner| == |evs| && p < |evs|
  {
    ix.owner[p] < |entries| && p == if evs[p].isStop then ix.stops[ix.owner[p]] else ix.starts[ix.owner[p]]
  }

  /** evs holds the start and the stop of every entry, once each, in key order. */
  ghost predicate Schedule(entries: seq<Target>, evs: seq<Event>, ix: Index) {
    && Distinct(entries) && Sorted(evs)
    && |ix.starts| == |entries| && |ix.stops| == |entries| && |ix.owner| == |evs|
    && (forall k :: 0 <= k < |entries| ==> Placed(entries, evs, ix, k))
    && (forall p :: 0 <= p < |evs| ==> Owned(entries, evs, ix, p))
  }

  ghost predicate HasBoth(evs: seq<Event>, t: Target) { Start(t) in evs && Stop(t) in evs }

  ghost predicate IsOf(entries: seq<Target>, e: Event) {
    e.target in entries && (e == Start(e.target) || e == Stop(e.target))
  }

  lemma SortedEventsOfEntries(entries: seq<Target>)
    requires Distinct(entries)
    ensures var evs := SortEvents(Events(entries));
            && Distinct(evs)
            && (forall k :: 0 <= k < |entries| ==> HasBoth(evs, entries[k]))
            && (forall p :: 0 <= p < |evs| ==> IsOf(entries, evs[p]))
  {
    var evs := SortEvents(Events(entries));
    EventsOfEntries(entries);
    EventsAreDistinct(entries);
    forall k | 0 <= k < |entries| ensures HasBoth(evs, entries[k]) {
      assert entries[k] in entries;
    }
    forall p | 0 <= p < |evs| ensures IsOf(entries, evs[p]) {
      assert evs[p] in evs;
    }
  }

  lemma ScheduleExists(entries: seq<Target>) returns (ix: Index)
    requires Distinct(entries)
    ensures Schedule(entries, SortEvents(Events(entries)), ix)
  {
    var evs := SortEvents(Events(entries));
    SortedEventsOfEntries(entries);
    ix := MakeIndex(entries, evs);
  }

  lemma MakeIndex(entries: seq<Target>, evs: seq<Event>) returns (ix: Index)
    requires Distinct(entries) && Distinct(evs) && Sorted(evs)
    requires forall k :: 0 <= k < |entries| ==> HasBoth(evs, entries[k])
    requires forall p :: 0 <= p < |evs| ==> IsOf(entries, evs[p])
    ensures Schedule(entries, evs, ix)
  {
    ix := Index(
      seq(|entries|, k requires 0 <= k < |entries| && HasBoth(evs, entries[k]) => Find(evs, Start(entries[k]))),
      seq(|entries|, k requires 0 <= k < |entries| && HasBoth(evs, entries[k]) => Find(evs, Stop(entries[k]))),
      seq(|evs|, p requires 0 <= p < |evs| && IsOf(entries, evs[p]) => Find(entries, evs[p].target)));
    forall k | 0 <= k < |entries| ensures Placed(entries, evs, ix, k) {
      assert HasBoth(evs, entries[k]);
    }
    forall p | 0 <= p < |evs| ensures Owned(entries, evs, ix, p) {
      assert IsOf(entries, evs[p]);
      assert Placed(entries, evs, ix, ix.owner[p]);
    }
  }

  lemma EmptySchedule(entries: seq<Target>, evs: seq<Event>, ix: Index)
    requires Schedule(entries, evs, ix)
    ensures evs == [] <==> entries == []
  {
    if evs != [] { assert Owned(entries, evs, ix, 0); }
    if entries != [] { assert Placed(entries, evs, ix, 0); }
  }

  /** Entry k has started and not stopped within the first j events. */
  predicate Runs(ix: Index, k: nat, j: nat)
    requires k < |ix.starts| && k < |ix.stops|
  {
    ix.starts[k] < j <= ix.stops[k]
  }

  /** The tasks that have started and not stopped within the first j events. */
  ghost function RunningAt(entries: seq<Target>, ix: Index, j: nat): set<Target>
    requires |ix.starts| == |entries| && |ix.stops| == |entries|
  {
    set k | 0 <= k < |entries| && Runs(ix, k, j) :: entries[k]
  }

  lemma RunningAtIff(entries: seq<Target>, ix: Index, j: nat, k: nat)
    requires |ix.starts| == |entries| && |ix.stops| == |entries|
    requires Distinct(entries) && k < |entries|
    ensures entries[k] in RunningAt(entries, ix, j) <==> Runs(ix, k, j)
  {
    if entries[k] in RunningAt(entries, ix, j) {
      var i :| 0 <= i < |entries| && Runs(ix, i, j) && entries[i] == entries[k];
      assert i == k;
    }
  }

  /** An event is over before the next one in the list. */
  lemma TimeOrder(evs: seq<Event>, p: nat, q: nat)
    requires Sorted(evs) && p <= q < |evs|
    ensures KeyLeq(evs[p], evs[q]) && evs[p].time <= evs[q].time
  {
  }

  /** A task stops after its start exactly when it is not inverted. */
  lemma StopAfterStart(entries: seq<Target>, evs: seq<Event>, ix: Index, k: nat)
    requires Schedule(entries, evs, ix) && k < |entries|
    ensures ix.starts[k] < ix.stops[k] <==> entries[k].start <= entries[k].end
  {
    assert Placed(entries, evs, ix, k);
    if ix.starts[k] <= ix.stops[k] {
      TimeOrder(evs, ix.starts[k], ix.stops[k]);
    } else {
      TimeOrder(evs, ix.stops[k], ix.starts[k]);
    }
  }

  /** Each task fills or avoids the time between consecutive events, and fills it iff it runs. */
  lemma BetweenEvents(entries: seq<Target>, evs: seq<Event>, ix: Index, j: nat, k: nat)
    requires Schedule(entries, evs, ix) && 0 < j < |evs| && k < |entries|
    ensures Runs(ix, k, j) ==> entries[k].start <= evs[j - 1].time && evs[j].time <= entries[k].end
    ensures !Runs(ix, k, j) ==> entries[k].end <= evs[j - 1].time || evs[j].time <= entries[k].start
  {
    var p, q := ix.starts[k], ix.stops[k];
    assert Placed(entries, evs, ix, k);
    if p < j { TimeOrder(evs, p, j - 1); } else { TimeOrder(evs, j, p); }
    if q < j { TimeOrder(evs, q, j - 1); } else { TimeOrder(evs, j, q); }
  }

  lemma {:induction false} RunningCountsTasks(entries: seq<Target>, running: set<Target>, a: real)
    requires Distinct(entries)
    requires forall t :: t in running ==> t in entries
    requires forall k :: 0 <= k < |entries| ==> (entries[k] in running <==> entries[k].start <= a < entries[k].end)
    ensures Running(Spans(entries), a) == |running|
    decreases |entries|
  {
    if entries == [] {
      assert running == {};
    } else {
      var t, rest := entries[0], entries[1..];
      assert Spans(entries)[1..] == Spans(rest);
      assert t !in rest && entries == [t] + rest;
      RunningCountsTasks(rest, running - {t}, a);
    }
  }

  lemma UniformBetweenEvents(entries: seq<Target>, evs: seq<Event>, ix: Index, j: nat)
    requires Schedule(entries, evs, ix) && 0 < j < |evs|
    ensures Uniform(Spans(entries), evs[j - 1].time, evs[j].time)
  {
    var a, b, ts := evs[j - 1].time, evs[j].time, Spans(entries);
    forall i | 0 <= i < |ts| ensures Fills(ts[i], a, b) || Avoids(ts[i], a, b) {
      BetweenEvents(entries, evs, ix, j, i);
    }
  }

  lemma RunningBetweenEvents(entries: seq<Target>, evs: seq<Event>, ix: Index, j: nat)
    requires Schedule(entries, evs, ix) && 0 < j < |evs|
    requires evs[j - 1].time < evs[j].time
    ensures Running(Spans(entries), evs[j - 1].time) == |RunningAt(entries, ix, j)|
  {
    var a, running := evs[j - 1].time, RunningAt(entries, ix, j);
    forall k | 0 <= k < |entries|
      ensures entries[k] in running <==> entries[k].start <= a < entries[k].end
    {
      BetweenEvents(entries, evs, ix, j, k);
      RunningAtIff(entries, ix, j, k);
    }
    RunningCountsTasks(entries, running, a);
  }

  /** The time between two events is charged at one over the size of the running map. */
  lemma ShareBetweenEvents(entries: seq<Target>, evs: seq<Event>, ix: Index, j: nat)
    requires Schedule(entries, evs, ix) && 0 < j < |evs|
    ensures evs[j - 1].time <= evs[j].time
    ensures Share(Spans(entries), evs[j - 1].time, evs[j].time, 0) ==
            Rate(evs[j - 1].time, evs[j].time, |RunningAt(entries, ix, j)|)
  {
    TimeOrder(evs, j - 1, j);
    if evs[j - 1].time < evs[j].time {
      UniformBetweenEvents(entries, evs, ix, j);
      RunningBetweenEvents(entries, evs, ix, j);
    }
    ShareIsRate(Spans(entries), evs[j - 1].time, evs[j].time, |RunningAt(entries, ix, j)|);
  }

  /** The running set one event later. */
  lemma RunningAfterEvent(entries: seq<Target>, evs: seq<Event>, ix: Index, j: nat)
    requires Schedule(entries, evs, ix) && j < |evs|
    ensures var k, before := ix.owner[j], RunningAt(entries, ix, j);
            && Owned(entries, evs, ix, j) && Placed(entries, evs, ix, k) && evs[j].target == entries[k]
            && RunningAt(entries, ix, j + 1) == (
                 if evs[j].isStop then before - {entries[k]}
                 else if ix.stops[k] < j then before else before + {entries[k]})
  {
    assert Owned(entries, evs, ix, j);
    assert Placed(entries, evs, ix, ix.owner[j]);
    var k, before, after := ix.owner[j], RunningAt(entries, ix, j), RunningAt(entries, ix, j + 1);
    var expected := if evs[j].isStop then before - {entries[k]}
                    else if ix.stops[k] < j then before else before + {entries[k]};
    forall i | 0 <= i < |entries| ensures entries[i] in after <==> entries[i] in expected {
      RunningAtIff(entries, ix, j, i);
      RunningAtIff(entries, ix, j + 1, i);
      assert Placed(entries, evs, ix, i);
    }
    assert forall t :: t in after || t in expected ==> t in entries;
  }

  lemma StopsAfterEvent(entries: seq<Target>, evs: seq<Event>, ix: Index, j: nat)
    requires Schedule(entries, evs, ix) && j < |evs|
    ensures forall i :: 0 <= i < |entries| ==>
              (ix.stops[i] < j + 1 <==> ix.stops[i] < j || (evs[j].isStop && entries[i] == evs[j].target))
  {
    assert Owned(entries, evs, ix, j) && Placed(entries, evs, ix, ix.owner[j]);
    forall i | 0 <= i < |entries|
      ensures ix.stops[i] < j + 1 <==> ix.stops[i] < j || (evs[j].isStop && entries[i] == evs[j].target)
    {
      assert Placed(entries, evs, ix, i);
    }
  }

  // ----- The sweep

  /** The clock w advances before event j at one over the number of running tasks. */
  ghost predicate PacedAt(entries: seq<Target>, evs: seq<Event>, ix: Index, w: real -> real, j: nat)
    requires |ix.starts| == |entries| && |ix.stops| == |entries| && 0 < j < |evs|
  {
    w(evs[j].time) == w(evs[j - 1].time) + Rate(evs[j - 1].time, evs[j].time, |RunningAt(entries, ix, j)|)
  }

  ghost predicate Paced(entries: seq<Target>, evs: seq<Event>, ix: Index, w: real -> real)
    requires Schedule(entries, evs, ix) && evs != []
  {
    w(evs[0].time) == 0.0 && forall j :: 0 < j < |evs| ==> PacedAt(entries, evs, ix, w, j)
  }

  /** What the clock w advances while the entries in done run, summed in entry order. */
  ghost function Elapsed(entries: seq<Target>, done: set<Target>, w: real -> real): real {
    if entries == [] then 0.0
    else (if entries[0] in done then w(entries[0].end) - w(entries[0].start) else 0.0)
         + Elapsed(entries[1..], done, w)
  }

  lemma {:induction false} ElapsedOneMore(entries: seq<Target>, done: set<Target>, t: Target, w: real -> real)
    requires Distinct(entries) && t !in done
    ensures Elapsed(entries, done + {t}, w) ==
            Elapsed(entries, done, w) + if t in entries then w(t.end) - w(t.start) else 0.0
  {
    if entries != [] {
      assert entries == [entries[0]] + entries[1..];
      ElapsedOneMore(entries[1..], done, t, w);
    }
  }

  lemma {:induction false} ElapsedNone(entries: seq<Target>, w: real -> real)
    ensures Elapsed(entries, {}, w) == 0.0
  {
    if entries != [] { ElapsedNone(entries[1..], w); }
  }

  /** Charged so far: the entries whose stop event is among the first j events. */
  ghost predicate Settled(entries: seq<Target>, ix: Index, w: real -> real, j: nat, done: set<Target>)
    requires |ix.stops| == |entries|
    reads entries
  {
    && (forall t :: t in done ==> t in entries)
    && (forall k :: 0 <= k < |entries| ==> (entries[k] in done <==> ix.stops[k] < j))
    && (forall k :: 0 <= k < |entries| && entries[k] in done ==>
          && entries[k].start <= entries[k].end
          && entries[k].weightedDuration == w(entries[k].end) - w(entries[k].start))
  }

  ghost predicate Tracked(entries: seq<Target>, ix: Index, w: real -> real, j: nat, running: map<Target, real>)
    requires |ix.starts| == |entries| && |ix.stops| == |entries|
  {
    && running.Keys == RunningAt(entries, ix, j)
    && forall t :: t in running ==> running[t] == w(t.start)
  }

  /** One round of the scan, at event j and with the clock already advanced to that event. */
  method HandleEvent(entries: seq<Target>, evs: seq<Event>, ghost ix: Index, ghost w: real -> real, j: nat,
                     running: map<Target, real>, lastWeightedTime: real, total: real, ghost done: set<Target>)
    returns (running': map<Target, real>, total': real, found: bool, ghost done': set<Target>)
    requires Schedule(entries, evs, ix) && j < |evs| && lastWeightedTime == w(evs[j].time)
    requires Tracked(entries, ix, w, j, running) && Settled(entries, ix, w, j, done)
    requires total == Elapsed(entries, done, w)
    modifies entries
    ensures !found ==> evs[j].target in entries && evs[j].target.end < evs[j].target.start
    ensures found ==> Tracked(entries, ix, w, j + 1, running') && Settled(entries, ix, w, j + 1, done')
    ensures found ==> total' == Elapsed(entries, done', w)
  {
    ghost var k := ix.owner[j];
    RunningAfterEvent(entries, evs, ix, j);
    RunningAtIff(entries, ix, j, k);
    StopAfterStart(entries, evs, ix, k);
    StopsAfterEvent(entries, evs, ix, j);
    var target := evs[j].target;
    running', total', found, done' := running, total, true, done;
    if !evs[j].isStop {
      running' := running[target := lastWeightedTime];
    } else if target in running {
      var weightedDuration := lastWeightedTime - running[target];
      target.weightedDuration := weightedDuration;
      total' := total + weightedDuration;
      running' := running - {target};
      done' := done + {target};
      ElapsedOneMore(entries, done, target, w);
    } else {
      found := false;
    }
  }

  /** Accumulates weighted time up to event j, n tasks being in the running map. */
  method AdvanceClock(entries: seq<Target>, evs: seq<Event>, ghost ix: Index, ghost w: real -> real, j: nat, n: nat,
                      lastTime: real, lastWeightedTime: real) returns (t: real)
    requires Schedule(entries, evs, ix) && j < |evs| && Paced(entries, evs, ix, w)
    requires n == |RunningAt(entries, ix, j)|
    requires lastTime == evs[if j == 0 then 0 else j - 1].time && lastWeightedTime == w(lastTime)
    ensures t == w(evs[j].time)
  {
    assert j > 0 ==> PacedAt(entries, evs, ix, w, j);
    assert j == 0 ==> RunningAt(entries, ix, j) == {};
    t := lastWeightedTime;
    if n > 0 {
      t := t + (evs[j].time - lastTime) / n as real;
    }
  }

  /**
    Scans all start/stop events.  The scan meets a stop event whose task is not in the running map
    exactly when some entry ends before it starts; otherwise every task is charged what the clock
    advances while it runs, the total is the sum of those charges, and no task is left running.
   */
  method Sweep(entries: seq<Target>, evs: seq<Event>, ghost ix: Index, ghost w: real -> real)
    returns (weightedTotal: real, missing: seq<Target>)
    requires Schedule(entries, evs, ix) && evs != [] && Paced(entries, evs, ix, w)
    modifies entries
    ensures missing == [] <==> forall k :: 0 <= k < |entries| ==> entries[k].start <= entries[k].end
    ensures missing != [] ==> missing[0] in entries && missing[0].end < missing[0].start
    ensures missing == [] ==> forall k :: 0 <= k < |entries| ==>
              entries[k].weightedDuration == w(entries[k].end) - w(entries[k].start)
    ensures missing == [] ==> weightedTotal == Elapsed(entries, (set t | t in entries), w)
  {
    ghost var done: set<Target> := {};
    var running: map<Target, real> := map[];
    var lastTime := evs[0].time;
    var lastWeightedTime := 0.0;
    weightedTotal, missing := 0.0, [];
    NothingYet(entries, evs, ix, w);
    var j := 0;
    while j < |evs|
      invariant 0 <= j <= |evs|
      invariant lastTime == evs[if j == 0 then 0 else j - 1].time && lastWeightedTime == w(lastTime)
      invariant Tracked(entries, ix, w, j, running) && Settled(entries, ix, w, j, done)
      invariant weightedTotal == Elapsed(entries, done, w)
    {
      var time := evs[j].time;
      lastWeightedTime := AdvanceClock(entries, evs, ix, w, j, |running|, lastTime, lastWeightedTime) by {
        assert |running| == |running.Keys| == |RunningAt(entries, ix, j)|;
      }
      var found;
      running, weightedTotal, found, done :=
        HandleEvent(entries, evs, ix, w, j, running, lastWeightedTime, weightedTotal, done);
      if !found {
        missing := [evs[j].target];
        InvertedEntry(entries, evs[j].target);
        return;
      }
      lastTime := time;
      j := j + 1;
    }
    AllSettled(entries, evs, ix, w, done);
    assert running.Keys == {};
  }

  lemma NothingYet(entries: seq<Target>, evs: seq<Event>, ix: Index, w: real -> real)
    requires Schedule(entries, evs, ix)
    ensures Tracked(entries, ix, w, 0, map[]) && Settled(entries, ix, w, 0, {})
    ensures Elapsed(entries, {}, w) == 0.0
  {
    ElapsedNone(entries, w);
    forall k | 0 <= k < |entries| ensures !Runs(ix, k, 0) {
      assert Placed(entries, evs, ix, k);
    }
  }

  lemma InvertedEntry(entries: seq<Target>, t: Target)
    requires t in entries && t.end < t.start
    ensures !forall k :: 0 <= k < |entries| ==> entries[k].start <= entries[k].end
  {
    var k := Find(entries, t);
  }

  lemma AllSettled(entries: seq<Target>, evs: seq<Event>, ix: Index, w: real -> real, done: set<Target>)
    requires Schedule(entries, evs, ix) && Settled(entries, ix, w, |evs|, done)
    ensures done == set t | t in entries
    ensures forall k :: 0 <= k < |entries| ==> entries[k].start <= entries[k].end
    ensures forall k :: 0 <= k < |entries| ==>
              entries[k].weightedDuration == w(entries[k].end) - w(entries[k].start)
    ensures RunningAt(entries, ix, |evs|) == {}
  {
    forall k | 0 <= k < |entries| ensures entries[k] in done && !Runs(ix, k, |evs|) {
      assert Placed(entries, evs, ix, k);
    }
  }

  // ----- The sweep's clock is the charge accumulated since the first event

  ghost function Clock(ts: seq<Span>, origin: real): real -> real {
    t => Share(ts, origin, t, 0)
  }

  lemma ClockIsPaced(entries: seq<Target>, evs: seq<Event>, ix: Index)
    requires Schedule(entries, evs, ix) && evs != []
    ensures Paced(entries, evs, ix, Clock(Spans(entries), evs[0].time))
  {
    var ts, w := Spans(entries), Clock(Spans(entries), evs[0].time);
    forall j | 0 < j < |evs| ensures PacedAt(entries, evs, ix, w, j) {
      TimeOrder(evs, 0, j - 1);
      ShareBetweenEvents(entries, evs, ix, j);
      ShareSplit(ts, evs[0].time, evs[j - 1].time, evs[j].time, 0);
    }
  }

  /** Between a start and an end after the origin, the clock advances by the charge. */
  lemma ClockDifference(ts: seq<Span>, origin: real, a: real, b: real)
    requires origin <= a <= b
    ensures Clock(ts, origin)(b) - Clock(ts, origin)(a) == Share(ts, a, b, 0)
  {
    ShareSplit(ts, origin, a, b, 0);
  }

  lemma {:induction false} ElapsedIsTotalCharge(es: seq<Target>, done: set<Target>, ts: seq<Span>, origin: real)
    requires forall k :: 0 <= k < |es| ==> es[k] in done && origin <= es[k].start <= es[k].end
    ensures Elapsed(es, done, Clock(ts, origin)) == TotalCharge(Spans(es), ts)
  {
    if es != [] {
      assert Spans(es)[1..] == Spans(es[1..]);
      ElapsedIsTotalCharge(es[1..], done, ts, origin);
      ClockDifference(ts, origin, es[0].start, es[0].end);
    }
  }

  /** No entry ends before it starts. */
  predicate WellFormed(entries: seq<Target>) {
    forall k :: 0 <= k < |entries| ==> entries[k].start <= entries[k].end
  }

  /** Every task carries its charge, which lies between an even split of its duration and all of it. */
  ghost predicate AllCharged(entries: seq<Target>)
    reads entries
  {
    forall k :: 0 <= k < |entries| ==>
      && entries[k].weightedDuration == Share(Spans(entries), entries[k].start, entries[k].end, 0)
      && (entries[k].end - entries[k].start) / |entries| as real <= entries[k].weightedDuration
      && entries[k].weightedDuration <= entries[k].end - entries[k].start
  }

  lemma ChargesAreBounded(entries: seq<Target>)
    requires WellFormed(entries)
    requires forall k :: 0 <= k < |entries| ==>
               entries[k].weightedDuration == Share(Spans(entries), entries[k].start, entries[k].end, 0)
    ensures AllCharged(entries)
  {
    forall k | 0 <= k < |entries|
      ensures (entries[k].end - entries[k].start) / |entries| as real <= entries[k].weightedDuration
      ensures entries[k].weightedDuration <= entries[k].end - entries[k].start
    {
      OwnShareBounds(Spans(entries), k, entries[k].start, entries[k].end);
    }
  }

  /** What the sweep leaves in the tasks, read as charges. */
  lemma ClockChargesTasks(entries: seq<Target>, evs: seq<Event>, ix: Index)
    requires Schedule(entries, evs, ix) && evs != [] && WellFormed(entries)
    requires var w := Clock(Spans(entries), evs[0].time);
             forall k :: 0 <= k < |entries| ==>
               entries[k].weightedDuration == w(entries[k].end) - w(entries[k].start)
    ensures AllCharged(entries)
    ensures Elapsed(entries, (set t | t in entries), Clock(Spans(entries), evs[0].time)) ==
            TotalCharge(Spans(entries), Spans(entries))
  {
    var ts, origin := Spans(entries), evs[0].time;
    forall k | 0 <= k < |entries|
      ensures origin <= entries[k].start
      ensures entries[k].weightedDuration == Share(ts, entries[k].start, entries[k].end, 0)
    {
      assert Placed(entries, evs, ix, k);
      TimeOrder(evs, 0, ix.starts[k]);
      ClockDifference(ts, origin, entries[k].start, entries[k].end);
    }
    ChargesAreBounded(entries);
    ElapsedIsTotalCharge(entries, (set t | t in entries), ts, origin);
  }

  /** The charges of some entries together lie between an even split of their durations and all of them. */
  lemma {:induction false} TotalBounds(us: seq<Target>, entries: seq<Target>)
    requires WellFormed(entries) && entries != [] && forall t :: t in us ==> t in entries
    ensures (EndTimes(us) - StartTimes(us)) / |entries| as real <= TotalCharge(Spans(us), Spans(entries))
    ensures TotalCharge(Spans(us), Spans(entries)) <= EndTimes(us) - StartTimes(us)
  {
    if us != [] {
      var k := Find(entries, us[0]);
      assert Spans(us)[1..] == Spans(us[1..]);
      TotalBounds(us[1..], entries);
      OwnShareBounds(Spans(entries), k, us[0].start, us[0].end);
      var n := |entries| as real;
      SumOverN(us[0].end - us[0].start, EndTimes(us[1..]) - StartTimes(us[1..]), n);
    }
  }

  lemma SumOverN(x: real, y: real, n: real)
    requires n > 0.0
    ensures (x + y) / n == x / n + y / n
  {
  }

  /** The weighted total is at most the CPU time, and at least its part per entry. */
  lemma CpuTimeBounds(entries: seq<Target>)
    requires WellFormed(entries) && entries != []
    ensures var total := TotalCharge(Spans(entries), Spans(entries));
            CpuTime(entries) / |entries| as real <= total <= CpuTime(entries)
  {
    CpuTimeIs(entries);
    TotalBounds(entries, entries);
  }

  lemma TotalIsBusyTime(entries: seq<Target>, latest: real)
    requires entries != [] && WellFormed(entries)
    requires forall k :: 0 <= k < |entries| ==> 0.0 <= entries[k].start && entries[k].end <= latest
    ensures var ts, earliest := Spans(entries), Earliest(entries);
            && TotalCharge(ts, ts) == Measure(ts, earliest, latest) <= latest - earliest
            && (TotalCharge(ts, ts) == latest - earliest <==> forall t :: earliest <= t < latest ==> Busy(ts, t))
  {
    EarliestIsMinimumIff(entries);
    assert Earliest(entries) <= entries[0].start <= entries[0].end <= latest;
    Conservation(Spans(entries), Earliest(entries), latest);
  }

  /**
    The report of a list of build steps.  Without entries the first event does not exist; an entry
    that ends before it starts makes its stop event miss it in the running map; otherwise every step
    gets its charge.  When time stamps are not negative, the total is the time during which
    anything ran, and reaches the length of the build exactly when there was no idle instant.
   */
  method SummarizeEntries(entries: seq<Target>) returns (r: Report)
    requires Distinct(entries)
    modifies entries
    ensures r.IndexError? <==> entries == []
    ensures r.KeyError? <==> !WellFormed(entries)
    ensures r.KeyError? ==> r.target in entries && r.target.end < r.target.start
    ensures r.Summary? ==> AllCharged(entries) && r.weightedTotal == TotalCharge(Spans(entries), Spans(entries))
    ensures r.Summary? ==> r.earliest == Earliest(entries) && r.totalCpuTime == CpuTime(entries)
    ensures r.Summary? ==> r.totalCpuTime / |entries| as real <= r.weightedTotal <= r.totalCpuTime
    ensures r.Summary? ==> 0.0 <= r.latest && forall k :: 0 <= k < |entries| ==> entries[k].end <= r.latest
    ensures r.Summary? ==> r.latest == 0.0 || exists k :: 0 <= k < |entries| && entries[k].end == r.latest
    ensures r.Summary? ==> (r.warned <==> r.latest - r.earliest - r.weightedTotal > 500.0
                                          || r.weightedTotal - (r.latest - r.earliest) > 500.0)
    ensures r.Summary? && (forall k :: 0 <= k < |entries| ==> 0.0 <= entries[k].start) ==>
              && r.weightedTotal == Measure(Spans(entries), r.earliest, r.latest) <= r.latest - r.earliest
              && (r.weightedTotal == r.latest - r.earliest <==>
                  forall t :: r.earliest <= t < r.latest ==> Busy(Spans(entries), t))
  {
    var earliest, latest, totalCpuTime, evs := CollectEvents(entries);
    ghost var ix := ScheduleExists(entries);
    evs := SortEvents(evs);
    EmptySchedule(entries, evs, ix);
    if |evs| == 0 {
      return IndexError;
    }
    ClockIsPaced(entries, evs, ix);
    var weightedTotal, missing := Sweep(entries, evs, ix, Clock(Spans(entries), evs[0].time));
    if missing != [] {
      ghost var k := Find(entries, missing[0]);
      return KeyError(missing[0]);
    }
    ClockChargesTasks(entries, evs, ix);
    CpuTimeBounds(entries);
    var length := latest - earliest;
    r := Summary(earliest, latest, totalCpuTime, weightedTotal,
                 length - weightedTotal > 500.0 || weightedTotal - length > 500.0);
    if forall k :: 0 <= k < |entries| ==> 0.0 <= entries[k].start {
      TotalIsBusyTime(entries, latest);
    }
  }
}
