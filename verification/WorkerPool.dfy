/**
  The measured cell as a worker pool. Sessions wait in submission order; each of `min(concurrency, sessions)` workers
  takes one, plays its turns one after another and only then takes the next. When a request is sent, when it is
  answered and which worker moves next are arbitrary: a run is any sequence of enabled events.
 */
module WorkerPool {
  import opened Common
  import opened Replay

  datatype Job = Job(trajectories: seq<Trajectory>, maxOutput: int, concurrency: nat)

  datatype Worker =
    | Idle
    | Between(session: nat, turn: nat)
    | Waiting(session: nat, turn: nat, started: real)

  /**
    `results` are the futures, one per session; `log` is the shared record file, in the order of the answers; `ran`
    is what each worker has had answered.
   */
  datatype State = State(now: real, next: nat, workers: seq<Worker>, results: seq<seq<Request>>,
                         log: seq<Request>, ran: seq<seq<Request>>)

  datatype Event =
    | Take(worker: nat)
    | Send(worker: nat, at: real)
    | Receive(worker: nat, at: real, outcome: Outcome)
    | Release(worker: nat)

  function WorkerCount(job: Job): nat {
    Min(job.concurrency, |job.trajectories|)
  }

  function Initial(job: Job, now: real): State {
    State(now, 0, seq(WorkerCount(job), i => Idle), seq(|job.trajectories|, i => []), [],
          seq(WorkerCount(job), i => []))
  }

  /** A successful answer was started when its request was sent and completed before the worker moves on. */
  ghost predicate Timed(outcome: Outcome, started: real, at: real) {
    outcome.Success? ==>
      outcome.served.started == started
      && started <= outcome.served.firstTokenAt <= outcome.served.completed <= at
  }

  ghost predicate Enabled(job: Job, s: State, e: Event) {
    && e.worker < |s.workers|
    && var w := s.workers[e.worker];
       match e
       case Take(_) => w.Idle? && s.next < |job.trajectories|
       case Send(_, at) =>
         w.Between? && w.session < |job.trajectories| && w.turn < Turns(job.trajectories[w.session]) && s.now <= at
       case Receive(_, at, outcome) =>
         w.Waiting? && w.session < |job.trajectories| && w.session < |s.results|
         && w.turn < Turns(job.trajectories[w.session]) && e.worker < |s.ran|
         && s.now <= at && Timed(outcome, w.started, at)
       case Release(_) =>
         w.Between? && w.session < |job.trajectories| && w.turn == Turns(job.trajectories[w.session])
  }

  ghost function Apply(job: Job, s: State, e: Event): State
    requires Enabled(job, s, e)
  {
    var w := s.workers[e.worker];
    match e
    case Take(i) => s.(next := s.next + 1, workers := s.workers[i := Between(s.next, 0)])
    case Send(i, at) => s.(now := at, workers := s.workers[i := Waiting(w.session, w.turn, at)])
    case Receive(i, at, outcome) =>
      var r := RequestAt(job.trajectories[w.session], w.turn, job.maxOutput, outcome);
      s.(now := at,
         workers := s.workers[i := Between(w.session, w.turn + 1)],
         results := s.results[w.session := s.results[w.session] + [r]],
         log := s.log + [r],
         ran := s.ran[i := s.ran[i] + [r]])
    case Release(i) => s.(workers := s.workers[i := Idle])
  }

  /** Everything has been taken and given back: the pool's `with` block ends here. */
  ghost predicate Finished(job: Job, s: State) {
    s.next == |job.trajectories| && forall i :: 0 <= i < |s.workers| ==> s.workers[i].Idle?
  }

  /** The requests of the cell: the futures' results in submission order. */
  function CellRequests(s: State): seq<Request> {
    Flatten(s.results)
  }

  // ---- runs -----------------------------------------------------------------------------

  ghost predicate Reaches(job: Job, start: real, events: seq<Event>, s: State)
    decreases |events|
  {
    if events == [] then s == Initial(job, start)
    else
      var last := |events| - 1;
      exists before :: Reaches(job, start, events[..last], before)
        && Enabled(job, before, events[last]) && s == Apply(job, before, events[last])
  }

  // ---- the invariant -----------------------------------------------------------------------

  ghost predicate Holds(w: Worker, session: nat) {
    !w.Idle? && w.session == session
  }

  ghost predicate Shape(job: Job, s: State) {
    && |s.workers| == |s.ran| == WorkerCount(job)
    && |s.results| == |job.trajectories| && s.next <= |job.trajectories|
  }

  /** A session is untouched before it is taken, in the hands of one worker, or fully played. */
  ghost predicate SessionsOwned(job: Job, s: State)
    requires Shape(job, s)
  {
    && (forall i :: 0 <= i < |s.workers| && !s.workers[i].Idle? ==>
          s.workers[i].session < s.next
          && s.workers[i].turn == |s.results[s.workers[i].session]| <= Turns(job.trajectories[s.workers[i].session])
          && (s.workers[i].Waiting? ==> s.workers[i].turn < Turns(job.trajectories[s.workers[i].session])))
    && (forall i, j :: 0 <= i < j < |s.workers| && !s.workers[i].Idle? && !s.workers[j].Idle? ==>
          s.workers[i].session != s.workers[j].session)
    && (forall k :: s.next <= k < |s.results| ==> s.results[k] == [])
    && (forall k :: 0 <= k < s.next ==>
          |s.results[k]| == Turns(job.trajectories[k]) || exists i :: 0 <= i < |s.workers| && Holds(s.workers[i], k))
  }

  /** What a session has so far is its own replay, turn by turn. */
  ghost predicate ResultsAreReplays(job: Job, s: State) {
    && |s.results| == |job.trajectories|
    && forall k :: 0 <= k < |s.results| ==> IsReplay(job, k, s.results[k])
  }

  ghost predicate IsReplay(job: Job, k: nat, session: seq<Request>)
    requires k < |job.trajectories|
  {
    forall t :: 0 <= t < |session| ==>
      t < Turns(job.trajectories[k])
      && session[t] == RequestAt(job.trajectories[k], t, job.maxOutput, session[t].outcome)
  }

  ghost predicate Good(job: Job, s: State) {
    Shape(job, s) && SessionsOwned(job, s) && ResultsAreReplays(job, s)
  }

  lemma InitialIsGood(job: Job, now: real)
    ensures Good(job, Initial(job, now))
  {
  }

  lemma TakeKeepsGood(job: Job, s: State, i: nat)
    requires Good(job, s) && Enabled(job, s, Take(i))
    ensures Good(job, Apply(job, s, Take(i)))
  {
    var after := Apply(job, s, Take(i));
    forall k | 0 <= k < after.next
      ensures |after.results[k]| == Turns(job.trajectories[k])
              || exists j :: 0 <= j < |after.workers| && Holds(after.workers[j], k)
    {
      if k == s.next {
        assert Holds(after.workers[i], k);
      } else if |s.results[k]| != Turns(job.trajectories[k]) {
        var j :| 0 <= j < |s.workers| && Holds(s.workers[j], k);
        assert Holds(after.workers[j], k);
      }
    }
  }

  lemma MoveKeepsOwners(job: Job, s: State, after: State, i: nat)
    requires Good(job, s) && Shape(job, after) && after.next == s.next
    requires i < |s.workers| && !s.workers[i].Idle? && !after.workers[i].Idle?
    requires after.workers[i].session == s.workers[i].session
    requires forall j :: 0 <= j < |s.workers| && j != i ==> after.workers[j] == s.workers[j]
    requires forall k :: 0 <= k < |s.results| && k != s.workers[i].session ==> after.results[k] == s.results[k]
    ensures forall k :: 0 <= k < after.next ==>
              |after.results[k]| == Turns(job.trajectories[k])
              || exists j :: 0 <= j < |after.workers| && Holds(after.workers[j], k)
  {
    forall k | 0 <= k < after.next
      ensures |after.results[k]| == Turns(job.trajectories[k])
              || exists j :: 0 <= j < |after.workers| && Holds(after.workers[j], k)
    {
      if k == s.workers[i].session {
        assert Holds(after.workers[i], k);
      } else if |s.results[k]| != Turns(job.trajectories[k]) {
        var j :| 0 <= j < |s.workers| && Holds(s.workers[j], k);
        assert Holds(after.workers[j], k);
      }
    }
  }

  lemma SendKeepsGood(job: Job, s: State, i: nat, at: real)
    requires Good(job, s) && Enabled(job, s, Send(i, at))
    ensures Good(job, Apply(job, s, Send(i, at)))
  {
    MoveKeepsOwners(job, s, Apply(job, s, Send(i, at)), i);
  }

  lemma ReceiveKeepsGood(job: Job, s: State, i: nat, at: real, outcome: Outcome)
    requires Good(job, s) && Enabled(job, s, Receive(i, at, outcome))
    ensures Good(job, Apply(job, s, Receive(i, at, outcome)))
  {
    hide RequestAt;
    var after := Apply(job, s, Receive(i, at, outcome));
    MoveKeepsOwners(job, s, after, i);
    ResultsExtend(job, s, s.workers[i].session, outcome);
  }

  lemma ResultsExtend(job: Job, s: State, k: nat, outcome: Outcome)
    requires ResultsAreReplays(job, s) && k < |s.results| && |s.results[k]| < Turns(job.trajectories[k])
    ensures var r := RequestAt(job.trajectories[k], |s.results[k]|, job.maxOutput, outcome);
            r.outcome == outcome
            && ResultsAreReplays(job, s.(results := s.results[k := s.results[k] + [r]]))
  {
    var n := |s.results[k]|;
    var r := RequestAt(job.trajectories[k], n, job.maxOutput, outcome);
    assert r.outcome == outcome;
    hide RequestAt;
    var session := s.results[k] + [r];
    assert IsReplay(job, k, s.results[k]);
    forall t | 0 <= t < |session|
      ensures t < Turns(job.trajectories[k])
              && session[t] == RequestAt(job.trajectories[k], t, job.maxOutput, session[t].outcome)
    {
      if t < n {
        assert session[t] == s.results[k][t];
      } else {
        assert session[t] == r;
      }
    }
    assert IsReplay(job, k, session);
    hide IsReplay;
    var after := s.(results := s.results[k := session]);
    forall j | 0 <= j < |after.results| ensures IsReplay(job, j, after.results[j]) {
      assert j != k ==> IsReplay(job, j, s.results[j]);
    }
  }

  lemma ReleaseKeepsGood(job: Job, s: State, i: nat)
    requires Good(job, s) && Enabled(job, s, Release(i))
    ensures Good(job, Apply(job, s, Release(i)))
  {
    var after := Apply(job, s, Release(i));
    forall k | 0 <= k < after.next
      ensures |after.results[k]| == Turns(job.trajectories[k])
              || exists j :: 0 <= j < |after.workers| && Holds(after.workers[j], k)
    {
      if |s.results[k]| != Turns(job.trajectories[k]) {
        var j :| 0 <= j < |s.workers| && Holds(s.workers[j], k);
        assert Holds(after.workers[j], k);
      }
    }
  }

  /** Every event keeps the invariant. */
  lemma StepKeepsGood(job: Job, s: State, e: Event)
    requires Good(job, s) && Enabled(job, s, e)
    ensures Good(job, Apply(job, s, e))
  {
    match e
    case Take(i) => TakeKeepsGood(job, s, i);
    case Send(i, at) => SendKeepsGood(job, s, i, at);
    case Receive(i, at, outcome) => ReceiveKeepsGood(job, s, i, at, outcome);
    case Release(i) => ReleaseKeepsGood(job, s, i);
  }

  lemma {:induction false} ReachableIsGood(job: Job, start: real, events: seq<Event>, s: State)
    requires Reaches(job, start, events, s)
    ensures Good(job, s)
    decreases |events|
  {
    if events == [] {
      InitialIsGood(job, start);
    } else {
      var last := |events| - 1;
      var before :| Reaches(job, start, events[..last], before)
        && Enabled(job, before, events[last]) && s == Apply(job, before, events[last]);
      ReachableIsGood(job, start, events[..last], before);
      StepKeepsGood(job, before, events[last]);
    }
  }

  // ---- how many requests are in flight --------------------------------------------------------------

  /** There is one worker for each session up to the concurrency, so no more requests are ever in flight. */
  lemma WorkersAreBounded(job: Job, start: real, events: seq<Event>, s: State)
    requires Reaches(job, start, events, s)
    ensures |s.workers| <= job.concurrency && |s.workers| <= |job.trajectories|
    ensures |s.workers| == job.concurrency || |s.workers| == |job.trajectories|
  {
    ReachableIsGood(job, start, events, s);
  }

  lemma ReachesNext(job: Job, start: real, events: seq<Event>, s: State, e: Event)
    requires Reaches(job, start, events, s) && Enabled(job, s, e)
    ensures Reaches(job, start, events + [e], Apply(job, s, e))
  {
    assert (events + [e])[..|events|] == events;
  }

  /** The first `count` workers have each sent the first turn of their session. */
  ghost predicate Busy(job: Job, s: State, count: nat) {
    |s.workers| == WorkerCount(job) && s.next == count <= |s.workers|
    && (forall i :: 0 <= i < count ==> s.workers[i] == Waiting(i, 0, s.now))
    && forall i :: count <= i < |s.workers| ==> s.workers[i] == Idle
  }

  lemma {:induction false} ManyAreBusy(job: Job, start: real, count: nat) returns (events: seq<Event>, s: State)
    requires count <= WorkerCount(job) && forall k :: 0 <= k < WorkerCount(job) ==> Turns(job.trajectories[k]) > 0
    ensures Reaches(job, start, events, s) && Busy(job, s, count) && s.now == start
  {
    if count == 0 {
      events, s := [], Initial(job, start);
    } else {
      var i := count - 1;
      events, s := ManyAreBusy(job, start, i);
      ReachesNext(job, start, events, s, Take(i));
      events, s := events + [Take(i)], Apply(job, s, Take(i));
      ReachesNext(job, start, events, s, Send(i, start));
      events, s := events + [Send(i, start)], Apply(job, s, Send(i, start));
    }
  }

  /** The bound is met: when the first sessions have turns, some run has a request of every worker in flight at once. */
  lemma AllAreBusy(job: Job, start: real) returns (events: seq<Event>, s: State)
    requires forall k :: 0 <= k < |job.trajectories| && k < job.concurrency ==> Turns(job.trajectories[k]) > 0
    ensures Reaches(job, start, events, s) && forall i :: 0 <= i < |s.workers| ==> s.workers[i].Waiting?
    ensures |s.workers| == if job.concurrency <= |job.trajectories| then job.concurrency else |job.trajectories|
  {
    events, s := ManyAreBusy(job, start, WorkerCount(job));
  }

  // ---- interleaving does not show in the results -------------------------------------------------

  /** Whatever the interleaving, a finished pool returns for each session exactly a sequential replay of it. */
  lemma FinishedIsReplay(job: Job, start: real, events: seq<Event>, s: State, k: nat)
    requires Reaches(job, start, events, s) && Finished(job, s) && k < |job.trajectories|
    ensures |s.results| == |job.trajectories|
    ensures exists answer: nat -> Outcome ::
              s.results[k] == ReplayOf(job.trajectories[k], job.maxOutput, Turns(job.trajectories[k]), answer)
  {
    hide RequestAt;
    ReachableIsGood(job, start, events, s);
    var t, done := job.trajectories[k], s.results[k];
    assert forall i :: 0 <= i < |s.workers| ==> !Holds(s.workers[i], k);
    var answer := (n: nat) => if n < |done| then done[n].outcome else Failed("");
    assert done == ReplayOf(t, job.maxOutput, Turns(t), answer);
  }
}
