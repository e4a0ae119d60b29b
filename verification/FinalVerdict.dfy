/**
  The end of a benchmark: pooling, gates, acceptance of every cell and the decision to fail. This module says what is
  known about a run that did not fail, down to the single request.
 */
module FinalVerdict {
  import opened Common
  import opened Replay
  import opened SessionEvidence
  import opened PooledGates
  import opened GateGuarantees
  import opened ResumableRun
  import Acceptance

  /** A cell of a run by its position: arm pass number `i`, cell number `c`. */
  ghost predicate InRun(results: seq<ArmPass>, i: nat, c: nat) {
    i < |results| && c < |results[i].cells|
  }

  ghost predicate AllAccepted(results: seq<ArmPass>, accepted: (nat, nat) -> bool) {
    forall i: nat, c: nat :: InRun(results, i, c) ==> accepted(i, c)
  }

  ghost predicate GatesHold(results: seq<ArmPass>, gates: Gates) {
    gates != Gates(None, None, false, None) ==>
      Pooled(results) != [] && forall c :: c in Pooled(results) ==> RowPasses(gates, c)
  }

  /** The last steps of the run: one rejected cell overrides the gates, and gates that were not configured do not fail. */
  method Conclude(results: seq<ArmPass>, accepted: (nat, nat) -> bool, gates: Gates) returns (raised: bool)
    ensures raised <==> !AllAccepted(results, accepted) || !GatesHold(results, gates)
  {
    hide Pooled, RowPasses;
    var rows := PoolRows(results);
    var verdict := EvaluateGates(rows, gates);
    var passed: Option<bool> := if verdict.Evaluated? then Some(verdict.passed) else None;
    var failures: seq<(nat, nat)> := [];
    for i := 0 to |results|
      invariant failures == [] <==> forall k: nat, c: nat :: k < i && InRun(results, k, c) ==> accepted(k, c)
    {
      for c := 0 to |results[i].cells|
        invariant failures == [] <==>
                    (forall k: nat, d: nat :: k < i && InRun(results, k, d) ==> accepted(k, d))
                    && forall d: nat :: d < c ==> accepted(i, d)
      {
        if !accepted(i, c) {
          failures := failures + [(i, c)];
        }
      }
    }
    if failures != [] {
      passed := Some(false);
    }
    raised := passed == Some(false);
  }

  // ---- what a run that did not fail has shown --------------------------------------------------------

  type Logs = (nat, nat) -> seq<Request>

  /** Every cell summarises its own request log, and its level has a cohort of recorded sessions. */
  ghost predicate Logged(results: seq<ArmPass>, cohorts: map<nat, seq<Trajectory>>, log: Logs) {
    forall i: nat, c: nat :: InRun(results, i, c) ==>
      results[i].cells[c].concurrency in cohorts && Summarizes(results[i].cells[c], log(i, c))
  }

  /** The acceptance flags are those of the acceptance checks. */
  ghost predicate Checked(results: seq<ArmPass>, cohorts: map<nat, seq<Trajectory>>, log: Logs,
                          policy: (nat, nat) -> Acceptance.Policy, accepted: (nat, nat) -> bool)
    requires Logged(results, cohorts, log)
  {
    forall i: nat, c: nat :: InRun(results, i, c) && accepted(i, c) ==>
      Acceptance.Accepted(cohorts[results[i].cells[c].concurrency], log(i, c), policy(i, c))
  }

  lemma CompleteHasTurn(trajectories: seq<Trajectory>, requests: seq<Request>, t: Trajectory, k: nat)
    requires Complete(trajectories, requests) && t in trajectories && k < Turns(t)
    ensures exists q :: q in requests && q.requestId == RequestId(t.sessionId, k)
  {
    hide RequestId;
    var own := Project(requests, t.sessionId);
    assert Observed(requests, t.sessionId)[k] == RequestId(t.sessionId, k);
    assert own[k].requestId == RequestId(t.sessionId, k);
    FilterMember(InSession(t.sessionId), requests, own[k]);
  }

  lemma LoggedIsGenuine(results: seq<ArmPass>, cohorts: map<nat, seq<Trajectory>>, log: Logs)
    requires Logged(results, cohorts, log)
    ensures AllGenuine(results)
  {
    hide Summarizes;
    forall i: nat, c: nat | InRun(results, i, c) ensures Genuine(results[i].cells[c]) {
      assert Summarizes(results[i].cells[c], log(i, c));
    }
    forall i, c | 0 <= i < |results| && 0 <= c < |results[i].cells| ensures Genuine(results[i].cells[c]) {
      assert InRun(results, i, c);
    }
  }

  /**
    Reproducibility: if the gates pass with output matching, then two complete cells at one concurrency level, of
    whatever arms and passes, answered every recorded turn of the level's sessions, and answered it with the same output.
   */
  lemma PassedRunIsReproducible(results: seq<ArmPass>, gates: Gates, cohorts: map<nat, seq<Trajectory>>, log: Logs,
                                i: nat, c: nat, j: nat, d: nat, t: Trajectory, k: nat)
    requires Logged(results, cohorts, log) && gates.requireOutputMatch
    requires forall row :: row in Pooled(results) ==> RowPasses(gates, row)
    requires InRun(results, i, c) && InRun(results, j, d)
    requires results[i].cells[c].concurrency == results[j].cells[d].concurrency
    requires Complete(cohorts[results[i].cells[c].concurrency], log(i, c))
    requires Complete(cohorts[results[i].cells[c].concurrency], log(j, d))
    requires t in cohorts[results[i].cells[c].concurrency] && k < Turns(t)
    ensures SameAnswer(log(i, c), log(j, d), RequestId(t.sessionId, k))
  {
    hide RowPasses, Pooled, Summarizes, Complete, RequestId;
    LoggedIsGenuine(results, cohorts, log);
    var cellA, cellB := results[i].cells[c], results[j].cells[d];
    assert Summarizes(cellA, log(i, c)) && Summarizes(cellB, log(j, d));
    var sessions := cohorts[cellA.concurrency];
    CompleteHasTurn(sessions, log(i, c), t, k);
    CompleteHasTurn(sessions, log(j, d), t, k);
    var a :| a in log(i, c) && a.requestId == RequestId(t.sessionId, k);
    var b :| b in log(j, d) && b.requestId == RequestId(t.sessionId, k);
    NonemptyId(t.sessionId, k);
    assert Has(results, results[i].arm, cellA) && Has(results, results[j].arm, cellB);
    PassingGatesMatchOutputs(results, gates, results[i].arm, cellA, log(i, c), a, results[j].arm, cellB, log(j, d), b);
  }

  /** Both logs hold a successful answer to the request, with one recorded output. */
  ghost predicate SameAnswer(one: seq<Request>, other: seq<Request>, id: string) {
    exists a, b :: a in one && b in other && a.requestId == b.requestId == id
      && a.outcome.Success? && b.outcome.Success?
      && a.outcome.served.contentSha == b.outcome.served.contentSha != ""
  }

  lemma NonemptyId(s: string, k: nat)
    ensures RequestId(s, k) != ""
  {
    assert |RequestId(s, k)| >= 1;
  }

  /**
    A run that finished its schedule and did not fail: every scheduled slot was measured, every cell of it is accepted,
    and where output matching was asked for, all cells at one level answered every recorded turn alike.
   */
  lemma RunThatDoesNotFail(arms: seq<string>, passes: nat, results: seq<ArmPass>, gates: Gates,
                           cohorts: map<nat, seq<Trajectory>>, log: Logs, policy: (nat, nat) -> Acceptance.Policy,
                           accepted: (nat, nat) -> bool)
    requires Slots(results) == Schedule(arms, passes)
    requires Logged(results, cohorts, log) && Checked(results, cohorts, log, policy, accepted)
    requires AllAccepted(results, accepted) && GatesHold(results, gates)
    ensures forall slot :: slot in Schedule(arms, passes) ==>
              exists i: nat :: i < |results| && SlotOf(results[i]) == slot
                && forall c: nat :: c < |results[i].cells| ==>
                     Acceptance.Accepted(cohorts[results[i].cells[c].concurrency], log(i, c), policy(i, c))
    ensures gates.requireOutputMatch ==>
              forall i: nat, c: nat, j: nat, d: nat, t, k: nat ::
                InRun(results, i, c) && InRun(results, j, d)
                && results[i].cells[c].concurrency == results[j].cells[d].concurrency
                && t in cohorts[results[i].cells[c].concurrency] && k < Turns(t) ==>
                  SameAnswer(log(i, c), log(j, d), RequestId(t.sessionId, k))
  {
    hide RowPasses, Pooled, Summarizes, Complete, RequestId, SameAnswer, Schedule, AssistantPositions;
    forall slot | slot in Schedule(arms, passes)
      ensures exists i: nat :: i < |results| && SlotOf(results[i]) == slot
                && forall c: nat :: c < |results[i].cells| ==>
                     Acceptance.Accepted(cohorts[results[i].cells[c].concurrency], log(i, c), policy(i, c))
    {
      var i :| 0 <= i < |Slots(results)| && Slots(results)[i] == slot;
      forall c: nat | c < |results[i].cells|
        ensures Acceptance.Accepted(cohorts[results[i].cells[c].concurrency], log(i, c), policy(i, c))
      {
        assert InRun(results, i, c);
      }
      assert SlotOf(results[i]) == slot;
    }
    if gates.requireOutputMatch {
      forall i: nat, c: nat, j: nat, d: nat, t, k: nat |
        InRun(results, i, c) && InRun(results, j, d)
        && results[i].cells[c].concurrency == results[j].cells[d].concurrency
        && t in cohorts[results[i].cells[c].concurrency] && k < Turns(t)
        ensures SameAnswer(log(i, c), log(j, d), RequestId(t.sessionId, k))
      {
        PassedRunIsReproducible(results, gates, cohorts, log, i, c, j, d, t, k);
      }
    }
  }
}
