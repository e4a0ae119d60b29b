/**
  What holds of every run of the worker pool: completeness of an error-free cell, a record log that says the same as
  the collected results, workers that are never more than fully used, and progress to the end.
 */
module PoolGuarantees {
  import opened Common
  import opened Replay
  import opened SessionEvidence
  import opened CellSummary
  import opened WorkerPool

  // ---- completeness ------------------------------------------------------------------------

  ghost predicate OwnSessions(ids: seq<string>, results: seq<seq<Request>>) {
    |results| == |ids| && forall k, r :: 0 <= k < |results| && r in results[k] ==> r.sessionId == ids[k]
  }

  lemma {:induction false} ProjectFlatten(ids: seq<string>, results: seq<seq<Request>>, s: string)
    requires OwnSessions(ids, results) && Distinct(ids)
    ensures s !in ids ==> Project(Flatten(results), s) == []
    ensures forall k :: 0 <= k < |ids| && ids[k] == s ==> Project(Flatten(results), s) == results[k]
  {
    if results == [] {
    } else {
      var head, tail := results[0], results[1..];
      forall k: int, r: Request | 0 <= k < |tail| && r in tail[k] ensures r.sessionId == ids[1..][k] {
        assert r in results[k + 1];
      }
      assert Distinct(ids[1..]);
      ProjectFlatten(ids[1..], tail, s);
      FilterAppend(InSession(s), head, Flatten(tail));
      if ids[0] == s {
        FilterAll(InSession(s), head);
        assert s !in ids[1..];
      } else {
        FilterNone(InSession(s), head);
      }
    }
  }

  lemma GoodOwnsSessions(job: Job, s: State)
    requires Good(job, s)
    ensures OwnSessions(SessionIds(job.trajectories), s.results)
  {
    hide RequestId;
    forall k: int, r: Request | 0 <= k < |s.results| && r in s.results[k]
      ensures r.sessionId == SessionIds(job.trajectories)[k]
    {
      var t :| 0 <= t < |s.results[k]| && s.results[k][t] == r;
      assert s.results[k][t] == RequestAt(job.trajectories[k], t, job.maxOutput, r.outcome);
    }
  }

  lemma FinishedIds(job: Job, s: State, k: nat)
    requires Good(job, s) && Finished(job, s) && k < |job.trajectories|
    ensures Ids(s.results[k]) == ExpectedTurns(job.trajectories[k])
  {
    hide RequestId, OutputBudget, SentHistory;
    assert forall i :: 0 <= i < |s.workers| ==> !Holds(s.workers[i], k);
    var t := job.trajectories[k];
    assert |s.results[k]| == Turns(t);
    forall n | 0 <= n < Turns(t) ensures s.results[k][n].requestId == RequestId(t.sessionId, n) {
      assert s.results[k][n] == RequestAt(t, n, job.maxOutput, s.results[k][n].outcome);
    }
  }

  /**
    For every schedule: the finished cell passes the completeness check exactly when its sessions are distinct, each
    has a turn, and no request reported an error. Interleaving alone can neither break nor repair it.
   */
  lemma EverySchedulePassesUnlessErrors(job: Job, start: real, events: seq<Event>, s: State)
    requires Reaches(job, start, events, s) && Finished(job, s)
    ensures VerdictOf(job.trajectories, CellRequests(s)).Passed() <==>
              Distinct(SessionIds(job.trajectories))
              && (forall t :: t in job.trajectories ==> Turns(t) > 0)
              && (forall r :: r in CellRequests(s) ==> ErrorText(r) == "")
  {
    hide VerdictOf, ExpectedTurns;
    ReachableIsGood(job, start, events, s);
    PassesIffComplete(job.trajectories, CellRequests(s));
    GoodOwnsSessions(job, s);
    var ids := SessionIds(job.trajectories);
    if Distinct(ids) {
      forall t | t in job.trajectories ensures Observed(CellRequests(s), t.sessionId) == ExpectedTurns(t) {
        var k :| 0 <= k < |job.trajectories| && job.trajectories[k] == t;
        ProjectFlatten(ids, s.results, t.sessionId);
        assert ids[k] == t.sessionId;
        FinishedIds(job, s, k);
      }
      forall r | r in CellRequests(s) ensures r.sessionId in ids {
        FlattenMember(s.results, r);
      }
    }
  }

  // ---- the shared record log -------------------------------------------------------------------

  ghost predicate LogAgrees(job: Job, s: State) {
    |s.results| == |job.trajectories|
    && (forall k :: 0 <= k < |s.results| ==> Project(s.log, job.trajectories[k].sessionId) == s.results[k])
    && (forall r :: r in s.log ==> r.sessionId in SessionIds(job.trajectories))
  }

  lemma StepKeepsLog(job: Job, s: State, e: Event)
    requires Distinct(SessionIds(job.trajectories)) && LogAgrees(job, s) && Enabled(job, s, e)
    ensures LogAgrees(job, Apply(job, s, e))
  {
    hide OutputBudget, SentHistory, RequestId;
    if e.Receive? {
      var k := s.workers[e.worker].session;
      var r := RequestAt(job.trajectories[k], s.workers[e.worker].turn, job.maxOutput, e.outcome);
      ProjectNext(s.log, r);
      assert SessionIds(job.trajectories)[k] == r.sessionId;
      forall j | 0 <= j < |s.results| && j != k ensures job.trajectories[j].sessionId != r.sessionId {
        assert SessionIds(job.trajectories)[j] == job.trajectories[j].sessionId;
      }
    }
  }

  lemma {:induction false} ReachableLogAgrees(job: Job, start: real, events: seq<Event>, s: State)
    requires Distinct(SessionIds(job.trajectories)) && Reaches(job, start, events, s)
    ensures LogAgrees(job, s)
    decreases |events|
  {
    if events == [] {
    } else {
      var last := |events| - 1;
      var before :| Reaches(job, start, events[..last], before)
        && Enabled(job, before, events[last]) && s == Apply(job, before, events[last]);
      ReachableLogAgrees(job, start, events[..last], before);
      StepKeepsLog(job, before, events[last]);
    }
  }

  /** At any moment the interleaved log gets the verdict that the collected results would get. */
  lemma LogAndResultsAgree(job: Job, start: real, events: seq<Event>, s: State)
    requires Distinct(SessionIds(job.trajectories)) && Reaches(job, start, events, s)
    ensures forall id :: Project(s.log, id) == Project(CellRequests(s), id)
    ensures VerdictOf(job.trajectories, s.log).Passed() <==> VerdictOf(job.trajectories, CellRequests(s)).Passed()
  {
    hide VerdictOf;
    ReachableIsGood(job, start, events, s);
    ReachableLogAgrees(job, start, events, s);
    GoodOwnsSessions(job, s);
    var ids := SessionIds(job.trajectories);
    forall id ensures Project(s.log, id) == Project(CellRequests(s), id) {
      ProjectFlatten(ids, s.results, id);
      if id in ids {
        var k :| 0 <= k < |ids| && ids[k] == id;
      } else {
        FilterNone(InSession(id), s.log);
      }
    }
    VerdictIgnoresInterleaving(job.trajectories, s.log, CellRequests(s));
  }

  // ---- utilisation --------------------------------------------------------------------------------

  /** The successful requests of one worker lie one after another, all before `until`. */
  ghost predicate Sequential(ran: seq<Request>, until: real) {
    ran == []
    || (var last := ran[|ran| - 1];
        if last.outcome.Failed? then Sequential(ran[..|ran| - 1], until)
        else last.outcome.served.started <= last.outcome.served.completed <= until
             && Sequential(ran[..|ran| - 1], last.outcome.served.started))
  }

  lemma {:induction false} SequentialLater(ran: seq<Request>, until: real, later: real)
    requires Sequential(ran, until) && until <= later
    ensures Sequential(ran, later)
  {
    if ran != [] && ran[|ran| - 1].outcome.Failed? {
      SequentialLater(ran[..|ran| - 1], until, later);
    }
  }

  /** What a worker may have been doing up to now: everything answered lies before its open request. */
  function BusyUntil(s: State, i: nat): real
    requires i < |s.workers|
  {
    if s.workers[i].Waiting? then s.workers[i].started else s.now
  }

  ghost predicate WorkersSequential(s: State) {
    |s.workers| == |s.ran|
    && forall i :: 0 <= i < |s.workers| ==> BusyUntil(s, i) <= s.now && Sequential(s.ran[i], BusyUntil(s, i))
  }

  lemma StepKeepsSequential(job: Job, s: State, e: Event)
    requires WorkersSequential(s) && Enabled(job, s, e)
    ensures WorkersSequential(Apply(job, s, e))
  {
    hide RequestAt;
    var after := Apply(job, s, e);
    forall i | 0 <= i < |after.workers|
      ensures BusyUntil(after, i) <= after.now && Sequential(after.ran[i], BusyUntil(after, i))
    {
      if i != e.worker || !e.Receive? {
        SequentialLater(s.ran[i], BusyUntil(s, i), BusyUntil(after, i));
      } else {
        var w := s.workers[i];
        var r := RequestAt(job.trajectories[w.session], w.turn, job.maxOutput, e.outcome);
        OutcomeOf(job.trajectories[w.session], w.turn, job.maxOutput, e.outcome);
        assert after.ran[i] == s.ran[i] + [r] && after.ran[i][..|s.ran[i]|] == s.ran[i];
        SequentialLater(s.ran[i], w.started, after.now);
      }
    }
  }

  lemma OutcomeOf(t: Trajectory, k: nat, maxOutput: int, outcome: Outcome)
    requires k < Turns(t)
    ensures RequestAt(t, k, maxOutput, outcome).outcome == outcome
  {
  }

  function ElapsedOf(parts: seq<seq<Request>>): seq<real> {
    MapSeq((part: seq<Request>) => TotalElapsed(part), parts)
  }

  /** The time booked on sessions is the time booked on workers. */
  ghost predicate TimeConserved(s: State) {
    SumReal(ElapsedOf(s.results)) == SumReal(ElapsedOf(s.ran))
    && |s.workers| == |s.ran|
  }

  lemma BookTime(parts: seq<seq<Request>>, i: nat, r: Request)
    requires i < |parts|
    ensures SumReal(ElapsedOf(parts[i := parts[i] + [r]])) == SumReal(ElapsedOf(parts)) + Elapsed(r)
  {
    var extended := parts[i] + [r];
    assert extended[..|extended| - 1] == parts[i];
    assert ElapsedOf(parts[i := extended]) == ElapsedOf(parts)[i := TotalElapsed(extended)];
    SumRealUpdate(ElapsedOf(parts), i, TotalElapsed(extended));
  }

  lemma StepKeepsTime(job: Job, s: State, e: Event)
    requires TimeConserved(s) && Enabled(job, s, e)
    ensures TimeConserved(Apply(job, s, e))
  {
    hide RequestAt;
    if e.Receive? {
      var w := s.workers[e.worker];
      var r := RequestAt(job.trajectories[w.session], w.turn, job.maxOutput, e.outcome);
      BookTime(s.results, w.session, r);
      BookTime(s.ran, e.worker, r);
    }
  }

  ghost predicate Answered(parts: seq<seq<Request>>, r: Request) {
    exists k :: 0 <= k < |parts| && r in parts[k]
  }

  /** Every request that a worker played is among the collected results. */
  ghost predicate SameRequests(s: State) {
    |s.workers| == |s.ran| && forall r :: Answered(s.ran, r) ==> Answered(s.results, r)
  }

  lemma StepKeepsRequests(job: Job, s: State, e: Event)
    requires SameRequests(s) && Enabled(job, s, e)
    ensures SameRequests(Apply(job, s, e))
  {
    hide RequestAt;
    if e.Receive? {
      var after := Apply(job, s, e);
      var w := s.workers[e.worker];
      forall r | Answered(after.ran, r) ensures Answered(after.results, r) {
        var i :| 0 <= i < |after.ran| && r in after.ran[i];
        if r !in after.results[w.session] {
          assert r in s.ran[i];
          assert Answered(s.ran, r);
          var k :| 0 <= k < |s.results| && r in s.results[k];
          assert r in after.results[k];
        }
      }
    }
  }

  ghost predicate Clocked(s: State) {
    WorkersSequential(s) && TimeConserved(s) && SameRequests(s)
  }

  lemma {:induction false} ZeroElapsed(n: nat)
    ensures SumReal(ElapsedOf(seq(n, i => []))) == 0.0
  {
    if n == 0 {
    } else {
      ZeroElapsed(n - 1);
      var parts: seq<seq<Request>> := seq(n, i => []);
      assert ElapsedOf(parts)[1..] == ElapsedOf(seq(n - 1, i => []));
    }
  }

  lemma {:induction false} ReachableIsClocked(job: Job, start: real, events: seq<Event>, s: State)
    requires Reaches(job, start, events, s)
    ensures Clocked(s)
    decreases |events|
  {
    if events == [] {
      ZeroElapsed(WorkerCount(job));
      ZeroElapsed(|job.trajectories|);
    } else {
      var last := |events| - 1;
      var before :| Reaches(job, start, events[..last], before)
        && Enabled(job, before, events[last]) && s == Apply(job, before, events[last]);
      ReachableIsClocked(job, start, events[..last], before);
      StepKeepsSequential(job, before, events[last]);
      StepKeepsTime(job, before, events[last]);
      StepKeepsRequests(job, before, events[last]);
    }
  }

  ghost predicate Within(requests: seq<Request>, low: real, high: real) {
    forall r :: r in requests && r.outcome.Success? ==>
      low <= r.outcome.served.started && r.outcome.served.completed <= high
  }

  /** One worker cannot be busy for longer than the window that contains its requests. */
  lemma {:induction false} WorkerBound(ran: seq<Request>, until: real, low: real, high: real)
    requires Sequential(ran, until) && low <= high && Within(ran, low, high)
    ensures TotalElapsed(ran) <= high - low
    ensures until <= high && low <= until ==> TotalElapsed(ran) <= until - low
    decreases |ran|
  {
    if ran == [] {
    } else {
      var front, last := ran[..|ran| - 1], ran[|ran| - 1];
      assert last in ran && forall r :: r in front ==> r in ran;
      if last.outcome.Failed? {
        WorkerBound(front, until, low, high);
      } else {
        WorkerBound(front, last.outcome.served.started, low, high);
      }
    }
  }

  /** `n` times `x`, as a sum. */
  ghost function Times(n: nat, x: real): real {
    if n == 0 then 0.0 else Times(n - 1, x) + x
  }

  lemma {:induction false} TimesIsProduct(n: nat, x: real)
    ensures Times(n, x) == n as real * x
  {
    if n == 0 {
    } else {
      TimesIsProduct(n - 1, x);
      OneMore((n - 1) as real, x);
    }
  }

  lemma OneMore(n: real, x: real)
    ensures (n + 1.0) * x == n * x + x
  {
  }

  lemma {:induction false} AllWorkersBound(ran: seq<seq<Request>>, bound: real)
    requires forall i :: 0 <= i < |ran| ==> TotalElapsed(ran[i]) <= bound
    ensures SumReal(ElapsedOf(ran)) <= Times(|ran|, bound)
  {
    hide TotalElapsed;
    if ran == [] {
    } else {
      AllWorkersBound(ran[1..], bound);
      assert ElapsedOf(ran)[1..] == ElapsedOf(ran[1..]);
    }
  }

  lemma {:induction false} ElapsedFlatten(parts: seq<seq<Request>>)
    ensures TotalElapsed(Flatten(parts)) == SumReal(ElapsedOf(parts))
  {
    if parts == [] {
    } else {
      ElapsedFlatten(parts[1..]);
      ElapsedAppend(parts[0], Flatten(parts[1..]));
      assert ElapsedOf(parts)[1..] == ElapsedOf(parts[1..]);
    }
  }

  lemma {:induction false} ElapsedAppend(a: seq<Request>, b: seq<Request>)
    ensures TotalElapsed(a + b) == TotalElapsed(a) + TotalElapsed(b)
  {
    if b == [] {
      assert a + b == a;
    } else {
      assert (a + b)[..|a + b| - 1] == a + b[..|b| - 1];
      ElapsedAppend(a, b[..|b| - 1]);
    }
  }

  lemma WindowContains(job: Job, start: real, events: seq<Event>, s: State, low: real, high: real)
    requires Reaches(job, start, events, s)
    requires Within(CellRequests(s), low, high) && low <= high
    ensures SumReal(ElapsedOf(s.ran)) <= Times(|s.ran|, high - low)
  {
    hide RequestAt, Reaches, TotalElapsed, Times;
    ReachableIsClocked(job, start, events, s);
    forall i | 0 <= i < |s.ran| ensures TotalElapsed(s.ran[i]) <= high - low {
      forall r | r in s.ran[i] ensures r in CellRequests(s) {
        assert Answered(s.ran, r);
        FlattenMember(s.results, r);
      }
      WorkerBound(s.ran[i], BusyUntil(s, i), low, high);
    }
    AllWorkersBound(s.ran, high - low);
  }

  lemma NothingServed(requests: seq<Request>)
    requires Successes(requests) == []
    ensures Within(requests, 0.0, 0.0)
  {
    AllSuccessful(requests);
  }

  lemma WindowIsSpan(requests: seq<Request>)
    requires Successes(requests) != []
    ensures forall r :: r in Successes(requests) ==> r.outcome.Success?
    ensures var served := Successes(requests);
            Window(requests) == LatestCompletion(served) - EarliestStart(served)
            && Within(requests, EarliestStart(served), LatestCompletion(served))
            && served[0] in requests
  {
    AllSuccessful(requests);
    ExtremesBound(Successes(requests));
    assert Successes(requests)[0] in Successes(requests);
  }

  /** At any moment of any run, the successful requests took at most `workers` times the window they span. */
  lemma ElapsedIsBounded(job: Job, start: real, events: seq<Event>, s: State)
    requires Reaches(job, start, events, s)
    ensures 0.0 <= Window(CellRequests(s))
    ensures TotalElapsed(CellRequests(s)) <= WorkerCount(job) as real * Window(CellRequests(s))
  {
    hide RequestAt, Reaches, Good, SessionsOwned, ResultsAreReplays, IsReplay, WorkersSequential, SameRequests,
      TotalElapsed, Times, Flatten;
    ReachableShape(job, start, events, s);
    ReachableIsClocked(job, start, events, s);
    var all := CellRequests(s);
    ElapsedFlatten(s.results);
    if Successes(all) == [] {
      NothingServed(all);
      WindowContains(job, start, events, s, 0.0, 0.0);
      TimesIsProduct(|s.ran|, 0.0);
    } else {
      WindowIsSpan(all);
      var served := Successes(all);
      var low, high := EarliestStart(served), LatestCompletion(served);
      SuccessesAreTimed(job, start, events, s, served[0]);
      WindowContains(job, start, events, s, low, high);
      TimesIsProduct(|s.ran|, high - low);
    }
  }

  lemma ReachableShape(job: Job, start: real, events: seq<Event>, s: State)
    requires Reaches(job, start, events, s)
    ensures Shape(job, s)
  {
    ReachableIsGood(job, start, events, s);
  }

  lemma {:induction false} SuccessesAreTimed(job: Job, start: real, events: seq<Event>, s: State, r: Request)
    requires Reaches(job, start, events, s) && r in CellRequests(s) && r.outcome.Success?
    ensures r.outcome.served.started <= r.outcome.served.firstTokenAt <= r.outcome.served.completed
    decreases |events|
  {
    hide RequestAt;
    FlattenMember(s.results, r);
    if events == [] {
      assert false;
    } else {
      var last := |events| - 1;
      var e := events[last];
      var before :| Reaches(job, start, events[..last], before)
        && Enabled(job, before, e) && s == Apply(job, before, e);
      var k :| 0 <= k < |s.results| && r in s.results[k];
      if k < |before.results| && r in before.results[k] {
        FlattenMember(before.results, r);
        SuccessesAreTimed(job, start, events[..last], before, r);
      } else {
        var w := before.workers[e.worker];
        OutcomeOf(job.trajectories[w.session], w.turn, job.maxOutput, e.outcome);
      }
    }
  }

  /** The reported mean concurrency never exceeds the offered concurrency, nor its utilisation one hundred percent. */
  lemma UtilizationIsBounded(job: Job, start: real, events: seq<Event>, s: State)
    requires Reaches(job, start, events, s)
    ensures MeanInFlight(CellRequests(s)).Some? ==>
              0.0 <= MeanInFlight(CellRequests(s)).value <= WorkerCount(job) as real <= job.concurrency as real
    ensures UtilizationPct(CellRequests(s), job.concurrency).Some? ==>
              UtilizationPct(CellRequests(s), job.concurrency).value <= 100.0
  {
    hide Reaches, Window, TotalElapsed;
    ElapsedIsBounded(job, start, events, s);
    ElapsedIsNonnegative(job, start, events, s);
    var total, window := TotalElapsed(CellRequests(s)), Window(CellRequests(s));
    if window > 0.0 {
      RatioBound(total, window, WorkerCount(job) as real);
      if job.concurrency > 0 {
        PercentBound(total / window, job.concurrency as real);
      }
    }
  }

  lemma RatioBound(total: real, window: real, limit: real)
    requires window > 0.0 && 0.0 <= total <= limit * window
    ensures 0.0 <= total / window <= limit
  {
  }

  lemma PercentBound(mean: real, offered: real)
    requires offered > 0.0 && mean <= offered
    ensures 100.0 * mean / offered <= 100.0
  {
  }

  lemma ElapsedIsNonnegative(job: Job, start: real, events: seq<Event>, s: State)
    requires Reaches(job, start, events, s)
    ensures TotalElapsed(CellRequests(s)) >= 0.0
  {
    forall r | r in CellRequests(s) ensures Elapsed(r) >= 0.0 {
      if r.outcome.Success? {
        SuccessesAreTimed(job, start, events, s, r);
      }
    }
    NonnegativeSum(CellRequests(s));
  }

  lemma {:induction false} NonnegativeSum(requests: seq<Request>)
    requires forall r :: r in requests ==> Elapsed(r) >= 0.0
    ensures TotalElapsed(requests) >= 0.0
  {
    if requests == [] {
    } else {
      NonnegativeSum(requests[..|requests| - 1]);
    }
  }

  // ---- progress ----------------------------------------------------------------------------------

  /** Moves still to come on a worker's own session. */
  function WorkLeft(job: Job, w: Worker): nat {
    match w
    case Idle => 0
    case Between(k, turn) => if k < |job.trajectories| && turn <= Turns(job.trajectories[k])
                             then 2 * (Turns(job.trajectories[k]) - turn) + 1 else 0
    case Waiting(k, turn, _) => if k < |job.trajectories| && turn < Turns(job.trajectories[k])
                                then 2 * (Turns(job.trajectories[k]) - turn) else 0
  }

  function WorkersLeft(job: Job, workers: seq<Worker>): nat {
    if workers == [] then 0 else WorkLeft(job, workers[0]) + WorkersLeft(job, workers[1..])
  }

  function QueueLeft(job: Job, next: nat): nat
    decreases |job.trajectories| - next
  {
    if next >= |job.trajectories| then 0 else 2 * Turns(job.trajectories[next]) + 2 + QueueLeft(job, next + 1)
  }

  function MovesLeft(job: Job, s: State): nat {
    QueueLeft(job, s.next) + WorkersLeft(job, s.workers)
  }

  lemma {:induction false} WorkersLeftUpdate(job: Job, workers: seq<Worker>, i: nat, w: Worker)
    requires i < |workers|
    ensures WorkersLeft(job, workers[i := w]) == WorkersLeft(job, workers) - WorkLeft(job, workers[i]) + WorkLeft(job, w)
  {
    if i == 0 {
    } else {
      assert workers[i := w][1..] == workers[1..][i - 1 := w];
      WorkersLeftUpdate(job, workers[1..], i - 1, w);
    }
  }

  /** Every event uses up exactly one move: a run takes two per turn and two per session, whatever its order. */
  lemma StepUsesOneMove(job: Job, s: State, e: Event)
    requires Good(job, s) && Enabled(job, s, e)
    ensures MovesLeft(job, Apply(job, s, e)) == MovesLeft(job, s) - 1
  {
    hide RequestAt, AssistantPositions;
    WorkersLeftUpdate(job, s.workers, e.worker, Apply(job, s, e).workers[e.worker]);
  }

  lemma {:induction false} RunLength(job: Job, start: real, events: seq<Event>, s: State)
    requires Reaches(job, start, events, s)
    ensures |events| + MovesLeft(job, s) == MovesLeft(job, Initial(job, start))
    decreases |events|
  {
    if events == [] {
    } else {
      var last := |events| - 1;
      var before :| Reaches(job, start, events[..last], before)
        && Enabled(job, before, events[last]) && s == Apply(job, before, events[last]);
      RunLength(job, start, events[..last], before);
      ReachableIsGood(job, start, events[..last], before);
      StepUsesOneMove(job, before, events[last]);
    }
  }

  /** No reachable state is stuck before the pool has finished. */
  lemma NeverStuck(job: Job, start: real, events: seq<Event>, s: State)
    requires Reaches(job, start, events, s) && job.concurrency > 0 && !Finished(job, s)
    ensures exists e :: Enabled(job, s, e)
  {
    hide Reaches, RequestAt, AssistantPositions, ResultsAreReplays, IsReplay;
    ReachableIsGood(job, start, events, s);
    if i :| 0 <= i < |s.workers| && !s.workers[i].Idle? {
      var w := s.workers[i];
      if w.Waiting? {
        assert Enabled(job, s, Receive(i, s.now, Failed("lost")));
      } else if w.turn < Turns(job.trajectories[w.session]) {
        assert Enabled(job, s, Send(i, s.now));
      } else {
        assert Enabled(job, s, Release(i));
      }
    } else {
      assert Enabled(job, s, Take(0));
    }
  }
}
