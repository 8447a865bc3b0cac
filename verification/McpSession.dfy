/**
  The request protocol of an MCP tool session (repos/ragflow/common/mcp_tool_call_conn.py): clients
  put requests into one queue, a worker answers them one at a time, and closing drains the queue.

  Everything runs on the session's own event loop, so the program is a set of atomic blocks between
  suspension points; putting into an unbounded queue does not suspend.  `State` and `Step` describe
  those blocks as transitions, `Session` gives their code, and the theorems are about every
  interleaving.
 */
module McpSession {
  import opened Basics

  /** What is put into a request's result queue: a server result, an exception, or the closing notice. */
  datatype Answer = Result(request: nat, value: int) | Fault(request: nat, code: int) | ClosingNotice

  datatype Worker = Waiting | Busy(request: nat) | Stopped

  /** How a call has ended, if it has. */
  datatype Call = Pending | Returned(a: Answer) | Raised(a: Answer) | TimedOut | Rejected

  /**
    `submitted` and `taken` record the requests put into and taken out of the queue, in order;
    `abandoned` those whose worker was cancelled while serving them.
   */
  datatype State = State(closed: bool, queue: seq<nat>, worker: Worker, results: map<nat, seq<Answer>>,
                         calls: map<nat, Call>, submitted: seq<nat>, taken: seq<nat>, abandoned: set<nat>)

  const Initial := State(false, [], Waiting, map[], map[], [], [], {})

  datatype Step =
    | CallServer(request: nat)           // a client calls
    | Receive(request: nat)              // a client gets its result
    | GiveUp(request: nat)               // a client's wait times out
    | Take                               // the worker takes the next request
    | Poll                               // the worker's wait for a request times out
    | Reply(answer: Answer)              // the worker has the outcome of its request
    | CancelWorker                       // the worker is cancelled
    | RestartWorker                      // the session falls back to its error-reporting loop
    | Close                              // the session is closed

  // ----- Transitions

  /** The worker's loop condition, checked before every wait. */
  function LoopHead(closed: bool): Worker { if closed then Stopped else Waiting }

  function Put(results: map<nat, seq<Answer>>, r: nat, a: Answer): map<nat, seq<Answer>> {
    results[r := (if r in results then results[r] else []) + [a]]
  }

  function PutNotices(results: map<nat, seq<Answer>>, rs: seq<nat>): map<nat, seq<Answer>>
    decreases |rs|
  {
    if rs == [] then results else PutNotices(Put(results, rs[0], ClosingNotice), rs[1..])
  }

  /** Only an ordinary exception is raised in the client; anything else is returned as its result. */
  function EndOfCall(a: Answer): Call {
    if a.Fault? then Raised(a) else Returned(a)
  }

  predicate Enabled(s: State, step: Step) {
    match step
    case CallServer(r) => r !in s.calls
    case Receive(r) => r in s.calls && s.calls[r].Pending? && r in s.results && s.results[r] != []
    case GiveUp(r) => r in s.calls && s.calls[r].Pending?
    case Take => s.worker.Waiting? && s.queue != []
    case Poll => s.worker.Waiting?
    case Reply(a) => s.worker.Busy? && !a.ClosingNotice? && a.request == s.worker.request
    case CancelWorker => !s.worker.Stopped?
    case RestartWorker => s.worker.Stopped?
    case Close => true
  }

  function Apply(s: State, step: Step): State
    requires Enabled(s, step)
  {
    match step
    case CallServer(r) =>
      if s.closed then s.(calls := s.calls[r := Rejected])
      else s.(calls := s.calls[r := Pending], queue := s.queue + [r], submitted := s.submitted + [r])
    case Receive(r) => s.(calls := s.calls[r := EndOfCall(s.results[r][0])])
    case GiveUp(r) => s.(calls := s.calls[r := TimedOut])
    case Take => s.(queue := s.queue[1..], worker := Busy(s.queue[0]), taken := s.taken + [s.queue[0]])
    case Poll => s.(worker := LoopHead(s.closed))
    case Reply(a) => s.(results := Put(s.results, s.worker.request, a), worker := LoopHead(s.closed))
    case CancelWorker =>
      s.(worker := Stopped, abandoned := if s.worker.Busy? then s.abandoned + {s.worker.request} else s.abandoned)
    case RestartWorker => s.(worker := LoopHead(s.closed))
    case Close =>
      if s.closed then s
      else s.(closed := true, results := PutNotices(s.results, s.queue), taken := s.taken + s.queue, queue := [])
  }

  // ----- The invariant

  predicate Queued(s: State, r: nat) { r in s.queue }

  predicate InHand(s: State, r: nat) { s.worker.Busy? && s.worker.request == r }

  predicate Answered(s: State, r: nat) { r in s.results }

  predicate Abandoned(s: State, r: nat) { r in s.abandoned }

  /** Exactly one of four. */
  predicate ExactlyOne(a: bool, b: bool, c: bool, d: bool) {
    (if a then 1 else 0) + (if b then 1 else 0) + (if c then 1 else 0) + (if d then 1 else 0) == 1
  }

  /** Where a submitted request is, and that nothing happens to others. */
  ghost predicate Accounted(s: State, r: nat) {
    if r in s.submitted then ExactlyOne(Queued(s, r), InHand(s, r), Answered(s, r), Abandoned(s, r))
    else !Queued(s, r) && !InHand(s, r) && !Answered(s, r) && !Abandoned(s, r)
  }

  /** A request has at most one answer, and that answer is its own. */
  ghost predicate AnsweredOnce(s: State, r: nat) {
    r in s.results ==> |s.results[r]| == 1 && (s.results[r][0].ClosingNotice? || s.results[r][0].request == r)
  }

  /** How a call ends depends on its own answer alone. */
  ghost predicate CallIsRight(s: State, r: nat) {
    && (r in s.submitted <==> r in s.calls && !s.calls[r].Rejected?)
    && (r in s.calls && (s.calls[r].Returned? || s.calls[r].Raised?) ==>
          r in s.results && |s.results[r]| == 1 && s.calls[r] == EndOfCall(s.results[r][0]))
  }

  ghost predicate Inv(s: State) {
    && s.submitted == s.taken + s.queue && Distinct(s.submitted)
    && (s.closed ==> s.queue == [])
    && (forall r :: Accounted(s, r))
    && (forall r :: AnsweredOnce(s, r))
    && (forall r :: CallIsRight(s, r))
  }

  lemma {:induction false} NoticesPut(results: map<nat, seq<Answer>>, rs: seq<nat>, r: nat)
    requires Distinct(rs) && (forall i :: 0 <= i < |rs| ==> rs[i] !in results)
    ensures r in PutNotices(results, rs) <==> r in results || r in rs
    ensures r in results ==> PutNotices(results, rs)[r] == results[r]
    ensures r in rs ==> PutNotices(results, rs)[r] == [ClosingNotice]
    decreases |rs|
  {
    if rs != [] {
      NoticesPut(Put(results, rs[0], ClosingNotice), rs[1..], r);
      assert rs == [rs[0]] + rs[1..];
    }
  }

  // ----- Every step keeps it

  lemma CallServerInv(s: State, r: nat)
    requires Inv(s) && Enabled(s, CallServer(r))
    ensures Inv(Apply(s, CallServer(r)))
  {
    var t := Apply(s, CallServer(r));
    assert CallIsRight(s, r) && Accounted(s, r);
    assert t.submitted == t.taken + t.queue;
    forall q ensures Accounted(t, q) && AnsweredOnce(t, q) && CallIsRight(t, q) {
      assert Accounted(s, q) && AnsweredOnce(s, q) && CallIsRight(s, q);
    }
  }

  lemma ClientInv(s: State, step: Step)
    requires Inv(s) && Enabled(s, step) && (step.Receive? || step.GiveUp?)
    ensures Inv(Apply(s, step))
  {
    var t := Apply(s, step);
    forall q ensures Accounted(t, q) && AnsweredOnce(t, q) && CallIsRight(t, q) {
      assert Accounted(s, q) && AnsweredOnce(s, q) && CallIsRight(s, q);
    }
  }

  lemma TakeInv(s: State)
    requires Inv(s) && Enabled(s, Take)
    ensures Inv(Apply(s, Take))
  {
    var t := Apply(s, Take);
    assert t.taken + t.queue == s.taken + s.queue;
    TakenIsGone(s);
    forall q ensures Accounted(t, q) && AnsweredOnce(t, q) && CallIsRight(t, q) {
      assert Accounted(s, q) && AnsweredOnce(s, q) && CallIsRight(s, q);
    }
  }

  /** The request at the head of the queue is there only once. */
  lemma TakenIsGone(s: State)
    requires s.submitted == s.taken + s.queue && Distinct(s.submitted) && s.queue != []
    ensures s.queue[0] !in s.queue[1..] && forall r :: r in s.queue <==> r == s.queue[0] || r in s.queue[1..]
    ensures s.queue[0] in s.submitted
  {
    assert s.queue == [s.queue[0]] + s.queue[1..];
    var n := |s.taken|;
    assert s.submitted[n] == s.queue[0];
    forall i | 0 <= i < |s.queue[1..]| ensures s.queue[1..][i] != s.queue[0] {
      assert s.submitted[n + 1 + i] == s.queue[1..][i];
    }
  }

  lemma WorkerInv(s: State, step: Step)
    requires Inv(s) && Enabled(s, step)
    requires step.Poll? || step.Reply? || step.CancelWorker? || step.RestartWorker?
    ensures Inv(Apply(s, step))
  {
    var t := Apply(s, step);
    if s.worker.Busy? { assert Accounted(s, s.worker.request); }
    forall q ensures Accounted(t, q) && AnsweredOnce(t, q) && CallIsRight(t, q) {
      assert Accounted(s, q) && AnsweredOnce(s, q) && CallIsRight(s, q);
    }
  }

  lemma CloseInv(s: State)
    requires Inv(s)
    ensures Inv(Apply(s, Close))
  {
    var t := Apply(s, Close);
    if !s.closed {
      assert t.taken + t.queue == s.submitted;
      QueueIsUnanswered(s);
      forall q ensures Accounted(t, q) && AnsweredOnce(t, q) && CallIsRight(t, q) {
        NoticesPut(s.results, s.queue, q);
        assert Accounted(s, q) && AnsweredOnce(s, q) && CallIsRight(s, q);
      }
    }
  }

  lemma QueueIsUnanswered(s: State)
    requires Inv(s)
    ensures Distinct(s.queue)
    ensures forall i :: 0 <= i < |s.queue| ==> s.queue[i] in s.submitted && s.queue[i] !in s.results
  {
    var n := |s.taken|;
    assert forall i :: 0 <= i < |s.queue| ==> s.queue[i] == s.submitted[n + i];
    forall i | 0 <= i < |s.queue| ensures s.queue[i] in s.submitted && s.queue[i] !in s.results {
      assert Accounted(s, s.queue[i]) && Queued(s, s.queue[i]);
    }
  }

  lemma StepInv(s: State, step: Step)
    requires Inv(s) && Enabled(s, step)
    ensures Inv(Apply(s, step))
  {
    match step
    case CallServer(r) => CallServerInv(s, r);
    case Receive(_) => ClientInv(s, step);
    case GiveUp(_) => ClientInv(s, step);
    case Take => TakeInv(s);
    case Poll => WorkerInv(s, step);
    case Reply(_) => WorkerInv(s, step);
    case CancelWorker => WorkerInv(s, step);
    case RestartWorker => WorkerInv(s, step);
    case Close => CloseInv(s);
  }

  // ----- Every interleaving

  predicate Possible(s: State, steps: seq<Step>)
    decreases |steps|
  {
    steps == [] || (Enabled(s, steps[0]) && Possible(Apply(s, steps[0]), steps[1..]))
  }

  function Run(s: State, steps: seq<Step>): State
    requires Possible(s, steps)
    decreases |steps|
  {
    if steps == [] then s else Run(Apply(s, steps[0]), steps[1..])
  }

  lemma {:induction false} RunInv(s: State, steps: seq<Step>)
    requires Inv(s) && Possible(s, steps)
    ensures Inv(Run(s, steps))
    decreases |steps|
  {
    if steps != [] {
      StepInv(s, steps[0]);
      RunInv(Apply(s, steps[0]), steps[1..]);
    }
  }

  /** What a step never takes back: submissions, answers, ended calls, being closed. */
  ghost predicate Later(s: State, t: State) {
    && s.submitted <= t.submitted && s.taken <= t.taken
    && (forall r :: r in s.results ==> r in t.results && t.results[r] == s.results[r])
    && (forall r :: r in s.calls && !s.calls[r].Pending? ==> r in t.calls && t.calls[r] == s.calls[r])
    && (s.closed ==> t.closed && t.submitted == s.submitted && t.queue == [])
  }

  lemma StepIsLater(s: State, step: Step)
    requires Inv(s) && Enabled(s, step)
    ensures Later(s, Apply(s, step))
  {
    var t := Apply(s, step);
    if step.Close? && !s.closed {
      QueueIsUnanswered(s);
      forall r ensures r in s.results ==> r in t.results && t.results[r] == s.results[r] {
        NoticesPut(s.results, s.queue, r);
      }
    }
    if s.worker.Busy? {
      assert Accounted(s, s.worker.request);
    }
  }

  lemma LaterIsTransitive(s: State, t: State, u: State)
    requires Later(s, t) && Later(t, u)
    ensures Later(s, u)
  {
    forall r | r in s.results ensures r in u.results && u.results[r] == s.results[r] {
      assert r in t.results;
    }
    forall r | r in s.calls && !s.calls[r].Pending? ensures r in u.calls && u.calls[r] == s.calls[r] {
      assert r in t.calls && !t.calls[r].Pending?;
    }
  }

  lemma {:induction false} RunIsLater(s: State, steps: seq<Step>)
    requires Inv(s) && Possible(s, steps)
    ensures Later(s, Run(s, steps))
    decreases |steps|
  {
    if steps != [] {
      StepInv(s, steps[0]);
      StepIsLater(s, steps[0]);
      RunIsLater(Apply(s, steps[0]), steps[1..]);
      LaterIsTransitive(s, Apply(s, steps[0]), Run(s, steps));
    }
  }

  lemma InitialInv()
    ensures Inv(Initial)
  {
  }

  /**
    Over every interleaving: each submitted request is in exactly one of four places; it has at most
    one answer, its own; requests leave the queue in the order of submission; once closed, the queue
    stays empty and nothing more is submitted, and what was answered or ended stays so.
   */
  lemma EveryInterleavingIsSafe(before: seq<Step>, after: seq<Step>)
    requires Possible(Initial, before) && Possible(Run(Initial, before), after)
    ensures var s, t := Run(Initial, before), Run(Run(Initial, before), after);
            && (forall r :: r in t.submitted ==>
                  (if r in t.queue then 1 else 0) + (if t.worker.Busy? && t.worker.request == r then 1 else 0)
                  + (if r in t.results then 1 else 0) + (if r in t.abandoned then 1 else 0) == 1)
            && (forall r :: r in t.results ==>
                  |t.results[r]| == 1 && (t.results[r][0].ClosingNotice? || t.results[r][0].request == r))
            && t.taken <= t.submitted && Distinct(t.submitted)
            && Later(s, t)
  {
    InitialInv();
    RunInv(Initial, before);
    RunInv(Run(Initial, before), after);
    RunIsLater(Run(Initial, before), after);
    var t := Run(Run(Initial, before), after);
    forall r | r in t.submitted ensures ExactlyOne(Queued(t, r), InHand(t, r), Answered(t, r), Abandoned(t, r)) {
      assert Accounted(t, r);
    }
    forall r | r in t.results
      ensures |t.results[r]| == 1 && (t.results[r][0].ClosingNotice? || t.results[r][0].request == r)
    {
      assert AnsweredOnce(t, r);
    }
  }

  /**
    A call raises exactly when its answer is an exception.  The closing notice is none, so a call
    drained by `close` returns the notice as if it were a result.
   */
  lemma CallRaisesIffFault(steps: seq<Step>, r: nat)
    requires Possible(Initial, steps)
    ensures var s := Run(Initial, steps);
            r in s.calls && (s.calls[r].Returned? || s.calls[r].Raised?) ==>
              && r in s.results && s.results[r] == [s.calls[r].a]
              && (s.calls[r].Raised? <==> s.calls[r].a.Fault?)
  {
    InitialInv();
    RunInv(Initial, steps);
    assert CallIsRight(Run(Initial, steps), r);
  }

  // ----- The worker goes on

  /**
    Over every interleaving: if the worker has not been cancelled since the session began or since it
    was last started again, that it has stopped means that the session is closed.
   */
  lemma {:induction false} StoppedMeansClosed(steps: seq<Step>, n: nat)
    requires Possible(Initial, steps) && n <= |steps| && (n == 0 || steps[n - 1].RestartWorker?)
    requires forall i :: n <= i < |steps| ==> !steps[i].CancelWorker?
    ensures Run(Initial, steps).worker.Stopped? ==> Run(Initial, steps).closed
    decreases |steps|
  {
    if steps != [] {
      var m := |steps| - 1;
      assert steps == steps[..m] + [steps[m]];
      RunSplit(Initial, steps[..m], [steps[m]]);
      OneStep(Run(Initial, steps[..m]), steps[m]);
      if n <= m {
        StoppedMeansClosed(steps[..m], n);
      }
    }
  }

  /** So in an open session with requests in the queue, the worker can take the next one or is busy with one. */
  lemma QueueIsServed(steps: seq<Step>, n: nat)
    requires Possible(Initial, steps) && n <= |steps| && (n == 0 || steps[n - 1].RestartWorker?)
    requires forall i :: n <= i < |steps| ==> !steps[i].CancelWorker?
    requires !Run(Initial, steps).closed && Run(Initial, steps).queue != []
    ensures Enabled(Run(Initial, steps), Take) || Run(Initial, steps).worker.Busy?
  {
    StoppedMeansClosed(steps, n);
  }

  lemma OneMoreBefore(s: State, step: Step, steps: seq<Step>)
    requires Enabled(s, step) && Possible(Apply(s, step), steps)
    ensures Possible(s, [step] + steps) && Run(s, [step] + steps) == Run(Apply(s, step), steps)
  {
    assert ([step] + steps)[1..] == steps;
  }

  /** A request that the worker has in hand or that is answered can be brought to the end of its call. */
  lemma AnswerCanArrive(s: State, r: nat) returns (more: seq<Step>)
    requires Inv(s) && r in s.calls && s.calls[r].Pending? && (InHand(s, r) || Answered(s, r))
    ensures Possible(s, more) && r in Run(s, more).calls
    ensures Run(s, more).calls[r].Returned? || Run(s, more).calls[r].Raised?
    ensures forall i :: 0 <= i < |more| ==> more[i].Reply? || more[i] == Receive(r)
  {
    assert Accounted(s, r) && AnsweredOnce(s, r) && CallIsRight(s, r);
    if Answered(s, r) {
      more := [Receive(r)];
      OneStep(s, Receive(r));
    } else {
      var reply := Reply(Result(r, 0));
      OneStep(Apply(s, reply), Receive(r));
      OneMoreBefore(s, reply, [Receive(r)]);
      more := [reply] + [Receive(r)];
    }
  }

  /** While the worker goes on, every request in the queue gets its turn. */
  lemma {:induction false} CallCanEnd(s: State, r: nat) returns (more: seq<Step>)
    requires Inv(s) && r in s.calls && s.calls[r].Pending? && r !in s.abandoned && (s.worker.Stopped? ==> s.closed)
    ensures Possible(s, more) && r in Run(s, more).calls
    ensures Run(s, more).calls[r].Returned? || Run(s, more).calls[r].Raised?
    ensures forall i :: 0 <= i < |more| ==> more[i].Reply? || more[i].Take? || more[i] == Receive(r)
    decreases |s.queue|, s.worker.Busy?
  {
    assert Accounted(s, r) && CallIsRight(s, r);
    if r !in s.queue {
      more := AnswerCanArrive(s, r);
    } else {
      var step := if s.worker.Busy? then Reply(Result(s.worker.request, 0)) else Take;
      StepInv(s, step);
      assert Accounted(s, if s.worker.Busy? then s.worker.request else r);
      var rest := CallCanEnd(Apply(s, step), r);
      OneMoreBefore(s, step, rest);
      more := [step] + rest;
    }
  }

  /**
    No call is stuck: over every interleaving, unless the worker was cancelled, a waiting call whose
    request has not been abandoned can be brought to its end by the worker and its own client alone.
   */
  lemma NoCallIsStuck(steps: seq<Step>, n: nat, r: nat) returns (more: seq<Step>)
    requires Possible(Initial, steps) && n <= |steps| && (n == 0 || steps[n - 1].RestartWorker?)
    requires forall i :: n <= i < |steps| ==> !steps[i].CancelWorker?
    requires var s := Run(Initial, steps); r in s.calls && s.calls[r].Pending? && r !in s.abandoned
    ensures Possible(Run(Initial, steps), more)
    ensures var t := Run(Run(Initial, steps), more);
            r in t.calls && (t.calls[r].Returned? || t.calls[r].Raised?)
    ensures forall i :: 0 <= i < |more| ==> more[i].Reply? || more[i].Take? || more[i] == Receive(r)
  {
    InitialInv();
    RunInv(Initial, steps);
    StoppedMeansClosed(steps, n);
    more := CallCanEnd(Run(Initial, steps), r);
  }

  /** The worker checks whether the session is closed before every wait, and only then. */
  lemma StopsWhenClosed(s: State, step: Step)
    requires Enabled(s, step) && (step.Reply? || step.Poll? || step.RestartWorker?)
    ensures Apply(s, step).worker == if s.closed then Stopped else Waiting
  {
  }

  /** A call is accepted exactly when the session is open: its request is then the last of the queue. */
  lemma AcceptedIffOpen(before: seq<Step>, r: nat)
    requires Possible(Initial, before) && Enabled(Run(Initial, before), CallServer(r))
    ensures var s, t := Run(Initial, before), Apply(Run(Initial, before), CallServer(r));
            && t.calls[r] == (if s.closed then Rejected else Pending)
            && t.queue == (if s.closed then s.queue else s.queue + [r])
            && (r in t.submitted <==> !s.closed)
  {
    InitialInv();
    RunInv(Initial, before);
    assert CallIsRight(Run(Initial, before), r);
  }

  /** What the worker has as the outcome of its request is that request's answer from then on. */
  lemma ReplyIsDelivered(before: seq<Step>, a: Answer, after: seq<Step>)
    requires Possible(Initial, before) && Enabled(Run(Initial, before), Reply(a))
    requires Possible(Apply(Run(Initial, before), Reply(a)), after)
    ensures var t := Run(Apply(Run(Initial, before), Reply(a)), after);
            && a.request in t.results && t.results[a.request] == [a]
            && (a.request in t.calls && (t.calls[a.request].Returned? || t.calls[a.request].Raised?) ==>
                  t.calls[a.request] == if a.Fault? then Raised(a) else Returned(a))
  {
    var s := Run(Initial, before);
    InitialInv();
    RunInv(Initial, before);
    assert Accounted(s, a.request);
    StepInv(s, Reply(a));
    var t := Apply(s, Reply(a));
    assert [] + [a] == [a];
    RunIsLater(t, after);
    RunInv(t, after);
    assert CallIsRight(Run(t, after), a.request);
  }

  // ----- Which calls get the closing notice

  lemma {:induction false} RunSplit(s: State, a: seq<Step>, b: seq<Step>)
    requires Possible(s, a + b)
    ensures Possible(s, a) && Possible(Run(s, a), b) && Run(s, a + b) == Run(Run(s, a), b)
    decreases |a|
  {
    if a == [] {
      assert a + b == b;
    } else {
      assert (a + b)[0] == a[0] && (a + b)[1..] == a[1..] + b;
      RunSplit(Apply(s, a[0]), a[1..], b);
    }
  }

  predicate GotNotice(s: State, r: nat) { r in s.results && s.results[r] == [ClosingNotice] }

  /** Closed, and the closing notice was given to exactly the requests in drained. */
  ghost predicate Notified(s: State, drained: seq<nat>) {
    s.closed && forall r :: GotNotice(s, r) <==> r in drained
  }

  /** Before closing nobody has the notice. */
  ghost predicate NoNotices(s: State) { !s.closed ==> forall r :: !GotNotice(s, r) }

  /** Only the first closing hands out notices. */
  lemma SameNotices(s: State, step: Step, r: nat)
    requires Inv(s) && Enabled(s, step) && (step == Close ==> s.closed)
    ensures GotNotice(Apply(s, step), r) <==> GotNotice(s, r)
  {
    if step.Reply? && r == s.worker.request {
      assert Accounted(s, r);
      assert Apply(s, step).results[r][0] == step.answer;
    }
  }

  lemma StepNoNotices(s: State, step: Step)
    requires Inv(s) && Enabled(s, step) && NoNotices(s)
    ensures NoNotices(Apply(s, step))
  {
    var t := Apply(s, step);
    if !t.closed {
      forall r ensures !GotNotice(t, r) {
        assert !GotNotice(s, r);
        SameNotices(s, step, r);
      }
    }
  }

  lemma {:induction false} RunNoNotices(s: State, steps: seq<Step>)
    requires Inv(s) && Possible(s, steps) && NoNotices(s)
    ensures NoNotices(Run(s, steps))
    decreases |steps|
  {
    if steps != [] {
      StepInv(s, steps[0]);
      StepNoNotices(s, steps[0]);
      RunNoNotices(Apply(s, steps[0]), steps[1..]);
    }
  }

  /** Closing gives the notice to exactly what is in the queue. */
  lemma CloseNotifies(s: State)
    requires Inv(s) && !s.closed && NoNotices(s)
    ensures Notified(Apply(s, Close), s.queue)
  {
    var t := Apply(s, Close);
    QueueIsUnanswered(s);
    forall r ensures GotNotice(t, r) <==> r in s.queue {
      NoticesPut(s.results, s.queue, r);
      assert !GotNotice(s, r);
    }
  }

  lemma {:induction false} NoticesStay(s: State, steps: seq<Step>, drained: seq<nat>)
    requires Inv(s) && Possible(s, steps) && Notified(s, drained)
    ensures Notified(Run(s, steps), drained)
    decreases |steps|
  {
    if steps != [] {
      var t := Apply(s, steps[0]);
      StepInv(s, steps[0]);
      forall r ensures GotNotice(t, r) <==> r in drained {
        assert GotNotice(s, r) <==> r in drained;
        SameNotices(s, steps[0], r);
      }
      NoticesStay(t, steps[1..], drained);
    }
  }

  /**
    In every run in which the session is closed, a call that has ended with an answer ended with the
    closing notice, as its result, if and only if it was in the queue when closing began.
   */
  lemma DrainedIffQueuedAtClose(before: seq<Step>, after: seq<Step>, r: nat)
    requires Possible(Initial, before + [Close] + after)
    requires Possible(Initial, before) && !Run(Initial, before).closed
    ensures var s, t := Run(Initial, before), Run(Initial, before + [Close] + after);
            && (GotNotice(t, r) <==> r in s.queue)
            && (r in t.calls && (t.calls[r].Returned? || t.calls[r].Raised?) ==>
                  (t.calls[r] == Returned(ClosingNotice) <==> r in s.queue))
  {
    var s, closed := Run(Initial, before), Apply(Run(Initial, before), Close);
    assert before + [Close] + after == before + ([Close] + after);
    RunSplit(Initial, before, [Close] + after);
    assert ([Close] + after)[0] == Close && ([Close] + after)[1..] == after;
    assert Possible(closed, after);
    InitialInv();
    RunInv(Initial, before);
    RunNoNotices(Initial, before);
    CloseNotifies(s);
    CloseInv(s);
    NoticesStay(closed, after, s.queue);
    var t := Run(closed, after);
    assert t == Run(s, [Close] + after);
    RunInv(closed, after);
    assert GotNotice(t, r) <==> r in s.queue;
    assert CallIsRight(t, r) && AnsweredOnce(t, r);
  }

  /** Wherever there is a closing notice, the session was closed with that request in its queue. */
  lemma {:induction false} NoticeComesFromClose(steps: seq<Step>, r: nat) returns (k: nat)
    requires Possible(Initial, steps) && GotNotice(Run(Initial, steps), r)
    ensures k < |steps| && steps[k] == Close && Possible(Initial, steps[..k])
    ensures !Run(Initial, steps[..k]).closed && r in Run(Initial, steps[..k]).queue
  {
    InitialInv();
    if steps == [] {
      assert false;
    } else {
      var n := |steps| - 1;
      assert steps == steps[..n] + [steps[n]];
      RunSplit(Initial, steps[..n], [steps[n]]);
      var s := Run(Initial, steps[..n]);
      RunInv(Initial, steps[..n]);
      assert Possible(s, [steps[n]]) && Run(s, [steps[n]]) == Apply(s, steps[n]) by { OneStep(s, steps[n]); }
      if GotNotice(s, r) {
        k := NoticeComesFromClose(steps[..n], r);
        assert steps[..n][..k] == steps[..k];
      } else {
        k := n;
        NewNotice(s, steps[n], r);
      }
    }
  }

  /** A call that ended with the notice was in the queue when some step of the run closed the session. */
  lemma NoticedCallWasQueued(steps: seq<Step>, r: nat) returns (k: nat)
    requires Possible(Initial, steps)
    requires r in Run(Initial, steps).calls && Run(Initial, steps).calls[r] == Returned(ClosingNotice)
    ensures k < |steps| && steps[k] == Close && Possible(Initial, steps[..k])
    ensures !Run(Initial, steps[..k]).closed && r in Run(Initial, steps[..k]).queue
  {
    InitialInv();
    RunInv(Initial, steps);
    assert CallIsRight(Run(Initial, steps), r);
    k := NoticeComesFromClose(steps, r);
  }

  lemma OneStep(s: State, step: Step)
    requires Possible(s, [step])
    ensures Run(s, [step]) == Apply(s, step)
  {
    assert [step][1..] == [];
    assert Run(Apply(s, step), []) == Apply(s, step);
  }

  lemma NewNotice(s: State, step: Step, r: nat)
    requires Inv(s) && Enabled(s, step) && !GotNotice(s, r) && GotNotice(Apply(s, step), r)
    ensures step == Close && !s.closed && r in s.queue
  {
    if step == Close && !s.closed {
      QueueIsUnanswered(s);
      NoticesPut(s.results, s.queue, r);
    } else {
      SameNotices(s, step, r);
    }
  }

  /** Such a run: submit, close, receive. */
  lemma DrainedCallReturnsNotice()
    ensures var steps := [CallServer(1), Close, Receive(1)];
            Possible(Initial, steps) && Run(Initial, steps).calls == map[1 := Returned(ClosingNotice)]
  {
    var s1 := Apply(Initial, CallServer(1));
    assert s1.queue == [1];
    var s2 := Apply(s1, Close);
    assert [1][1..] == [] && [] + [ClosingNotice] == [ClosingNotice];
    assert PutNotices(s1.results, [1]) == PutNotices(map[1 := [ClosingNotice]], []);
    var s3 := Apply(s2, Receive(1));
    assert Possible(s3, []);
    assert Possible(s2, [Receive(1)]) && Run(s2, [Receive(1)]) == s3;
    assert [Close, Receive(1)][1..] == [Receive(1)];
    assert Possible(s1, [Close, Receive(1)]) && Run(s1, [Close, Receive(1)]) == s3;
    assert [CallServer(1), Close, Receive(1)][1..] == [Close, Receive(1)];
  }

  // ----- The code of the atomic blocks

  class Session {
    var closed: bool
    var queue: seq<nat>
    var results: map<nat, seq<Answer>>
    // where the worker and the clients are, and the history of the queue
    var worker: Worker
    var calls: map<nat, Call>
    ghost var submitted: seq<nat>
    ghost var taken: seq<nat>
    ghost var abandoned: set<nat>

    ghost function St(): State
      reads this
    {
      State(closed, queue, worker, results, calls, submitted, taken, abandoned)
    }

    constructor ()
      ensures St() == Initial
    {
      closed, queue, results, worker, calls := false, [], map[], Waiting, map[];
      submitted, taken, abandoned := [], [], {};
    }

    /** `_call_mcp_server` up to its wait. */
    method CallServer(r: nat)
      requires Inv(St()) && r !in calls
      modifies this
      ensures St() == Apply(old(St()), Step.CallServer(r)) && Inv(St())
    {
      StepInv(St(), Step.CallServer(r));
      if closed {
        calls := calls[r := Rejected];
        return;
      }
      queue := queue + [r];
      calls := calls[r := Pending];
      submitted := submitted + [r];
    }

    /** `_call_mcp_server` after its wait. */
    method Receive(r: nat)
      requires Inv(St()) && Enabled(St(), Step.Receive(r))
      modifies this
      ensures St() == Apply(old(St()), Step.Receive(r)) && Inv(St())
    {
      StepInv(St(), Step.Receive(r));
      var result := results[r][0];
      if result.Fault? {
        calls := calls[r := Raised(result)];
      } else {
        calls := calls[r := Returned(result)];
      }
    }

    /** `_process_mcp_tasks` from the end of its wait for a request to the server call. */
    method Take()
      requires Inv(St()) && Enabled(St(), Step.Take)
      modifies this
      ensures St() == Apply(old(St()), Step.Take) && Inv(St())
    {
      StepInv(St(), Step.Take);
      worker := Busy(queue[0]);
      taken := taken + [queue[0]];
      queue := queue[1..];
    }

    /** `_process_mcp_tasks` from the end of the server call to the next wait. */
    method Reply(a: Answer)
      requires Inv(St()) && Enabled(St(), Step.Reply(a))
      modifies this
      ensures St() == Apply(old(St()), Step.Reply(a)) && Inv(St())
    {
      StepInv(St(), Step.Reply(a));
      var r := worker.request;
      results := results[r := (if r in results then results[r] else []) + [a]];
      worker := if closed then Stopped else Waiting;
    }

    /** `close` up to stopping the event loop: every queued request gets the closing notice. */
    method Close()
      requires Inv(St())
      modifies this
      ensures St() == Apply(old(St()), Step.Close) && Inv(St())
      ensures closed && queue == []
    {
      StepInv(St(), Step.Close);
      if closed {
        return;
      }
      closed := true;
      while queue != []
        invariant closed && worker == old(worker) && calls == old(calls)
        invariant submitted == old(submitted) && abandoned == old(abandoned)
        invariant taken + queue == old(taken) + old(queue)
        invariant PutNotices(results, queue) == PutNotices(old(results), old(queue))
        decreases |queue|
      {
        var r := queue[0];
        assert queue == [r] + queue[1..];
        queue := queue[1..];
        taken := taken + [r];
        results := results[r := (if r in results then results[r] else []) + [ClosingNotice]];
      }
    }
  }
}
