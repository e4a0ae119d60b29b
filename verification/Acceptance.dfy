/**
  The acceptance tail of an arm pass, and the end-to-end guarantee that it gives together with the preflight: no
  accepted request can have outgrown the serving context.
 */
module Acceptance {
  import opened Common
  import opened Replay
  import opened SessionEvidence
  import opened SessionSummaries
  import opened ContextWindow
  import Recurrent = RecurrentEvidence
  import Pool = WorkerPool

  datatype AcceptProblem =
    | Incomplete(problem: Problem)
    | TokenCountDiffers
    | LongContextMissing(sessionId: string)
    | NoPromptReuse(sessionId: string)
    | NoRestore(reason: Recurrent.JoinProblem)

  /** What a run demands of its cells. A zero minimum switches its check off. */
  datatype Policy = Policy(qualified: Option<Eligibility>, minimumSessionTokens: nat, minimumContext: nat,
                           requireRestores: bool, logLines: seq<string>, parse: Recurrent.Parser)

  /** `{turn["request_id"]: turn["prompt_tokens"]}` over the qualified turns. */
  function ExpectedTokens(rows: seq<TurnRow>): map<string, Option<nat>> {
    if rows == [] then map[]
    else
      var last := rows[|rows| - 1];
      ExpectedTokens(rows[..|rows| - 1])[last.requestId := last.promptTokens]
  }

  /** `request.get("prompt_tokens") != expected_tokens.get(request["request_id"])`. */
  predicate TokensDiffer(r: Request, expected: map<string, Option<nat>>) {
    PromptTokens(r) != (if r.requestId in expected then expected[r.requestId] else None)
  }

  predicate AnyTokensDiffer(requests: seq<Request>, policy: Policy) {
    policy.qualified.Some?
    && exists r :: r in requests && TokensDiffer(r, ExpectedTokens(policy.qualified.value.turns))
  }

  predicate Reuses(requests: seq<Request>, s: string) {
    exists r :: r in requests && r.assistantTurn > 0 && r.sessionId == s
      && r.outcome.Success? && r.outcome.served.cachedTokens > 0
  }

  predicate LongEnough(requests: seq<Request>, policy: Policy, s: string) {
    policy.minimumSessionTokens > 0 ==> Largest(Project(requests, s)) >= policy.minimumSessionTokens
  }

  predicate ReusesEnough(requests: seq<Request>, policy: Policy, s: string) {
    policy.minimumContext > 0 ==> Reuses(requests, s)
  }

  function EvidenceFor(requests: seq<Request>, policy: Policy): Recurrent.Evidence {
    Recurrent.EvidenceOf(policy.logLines, policy.parse, requests, Max(1, policy.minimumSessionTokens))
  }

  /** What acceptance means. */
  ghost predicate Accepted(trajectories: seq<Trajectory>, requests: seq<Request>, policy: Policy) {
    Complete(trajectories, requests)
    && !AnyTokensDiffer(requests, policy)
    && (forall t :: t in trajectories ==>
          LongEnough(requests, policy, t.sessionId) && ReusesEnough(requests, policy, t.sessionId))
    && (policy.requireRestores ==> EvidenceFor(requests, policy).problems == [])
  }

  /** What the checks report of a cell. */
  ghost predicate Reported(trajectories: seq<Trajectory>, requests: seq<Request>, policy: Policy, p: AcceptProblem) {
    match p
    case Incomplete(problem) => problem in VerdictOf(trajectories, requests).problems
    case TokenCountDiffers => AnyTokensDiffer(requests, policy)
    case LongContextMissing(s) => s in SessionIds(trajectories) && !LongEnough(requests, policy, s)
    case NoPromptReuse(s) => s in SessionIds(trajectories) && !ReusesEnough(requests, policy, s)
    case NoRestore(reason) => policy.requireRestores && reason in EvidenceFor(requests, policy).problems
  }

  method FindDifference(requests: seq<Request>, expected: map<string, Option<nat>>) returns (differs: bool)
    ensures differs <==> exists r :: r in requests && TokensDiffer(r, expected)
  {
    for i := 0 to |requests|
      invariant forall j :: 0 <= j < i ==> !TokensDiffer(requests[j], expected)
    {
      if TokensDiffer(requests[i], expected) {
        return true;
      }
    }
    return false;
  }

  method CheckSessions(trajectories: seq<Trajectory>, requests: seq<Request>, policy: Policy)
    returns (problems: seq<AcceptProblem>)
    ensures forall p :: p in problems <==>
              (p.LongContextMissing? || p.NoPromptReuse?) && Reported(trajectories, requests, policy, p)
  {
    hide LongEnough, ReusesEnough;
    problems := [];
    ghost var ids := SessionIds(trajectories);
    for i := 0 to |trajectories|
      invariant forall p :: p in problems <==>
                  p.LongContextMissing? && p.sessionId in ids[..i] && !LongEnough(requests, policy, p.sessionId)
    {
      assert ids[i] == trajectories[i].sessionId;
      if !LongEnough(requests, policy, trajectories[i].sessionId) {
        problems := problems + [LongContextMissing(trajectories[i].sessionId)];
      }
    }
    assert ids[..|ids|] == ids;
    for i := 0 to |trajectories|
      invariant forall p :: p in problems <==>
                  (p.LongContextMissing? && p.sessionId in ids && !LongEnough(requests, policy, p.sessionId))
                  || (p.NoPromptReuse? && p.sessionId in ids[..i] && !ReusesEnough(requests, policy, p.sessionId))
    {
      assert ids[i] == trajectories[i].sessionId;
      if !ReusesEnough(requests, policy, trajectories[i].sessionId) {
        problems := problems + [NoPromptReuse(trajectories[i].sessionId)];
      }
    }
  }

  /** The acceptance checks of one cell, in order; the cell is accepted when they collect no problem. */
  method AcceptCell(trajectories: seq<Trajectory>, requests: seq<Request>, policy: Policy)
    returns (problems: seq<AcceptProblem>)
    ensures forall p :: p in problems <==> Reported(trajectories, requests, policy, p)
    ensures problems == [] <==> Accepted(trajectories, requests, policy)
  {
    hide VerdictOf, ExpectedTokens, TokensDiffer, LongEnough, ReusesEnough, EvidenceFor, Complete, Accepted;
    var verdict := CompleteSessions(trajectories, requests);
    problems := MapSeq((p: Problem) => Incomplete(p), verdict.problems);
    WrappedProblems(verdict.problems);
    if policy.qualified.Some? {
      var differs := FindDifference(requests, ExpectedTokens(policy.qualified.value.turns));
      problems := problems + if differs then [TokenCountDiffers] else [];
    }
    var perSession := CheckSessions(trajectories, requests, policy);
    problems := problems + perSession;
    if policy.requireRestores {
      var evidence := EvidenceFor(requests, policy);
      WrappedReasons(evidence.problems);
      problems := problems + MapSeq((p: Recurrent.JoinProblem) => NoRestore(p), evidence.problems);
    }
    AcceptedIffNothingReported(trajectories, requests, policy);
    assert problems == [] <==> forall p :: p !in problems by {
      if problems != [] {
        assert problems[0] in problems;
      }
    }
  }

  lemma WrappedProblems(found: seq<Problem>)
    ensures forall p :: p in MapSeq((q: Problem) => Incomplete(q), found) <==> p.Incomplete? && p.problem in found
  {
    var wrapped := MapSeq((q: Problem) => Incomplete(q), found);
    forall p: AcceptProblem | p.Incomplete? && p.problem in found ensures p in wrapped {
      var i :| 0 <= i < |found| && found[i] == p.problem;
      assert wrapped[i] == p;
    }
  }

  lemma WrappedReasons(found: seq<Recurrent.JoinProblem>)
    ensures forall p :: p in MapSeq((q: Recurrent.JoinProblem) => NoRestore(q), found) <==> p.NoRestore? && p.reason in found
  {
    var wrapped := MapSeq((q: Recurrent.JoinProblem) => NoRestore(q), found);
    forall p: AcceptProblem | p.NoRestore? && p.reason in found ensures p in wrapped {
      var i :| 0 <= i < |found| && found[i] == p.reason;
      assert wrapped[i] == p;
    }
  }

  /** Acceptance is the absence of anything to report. */
  lemma AcceptedIffNothingReported(trajectories: seq<Trajectory>, requests: seq<Request>, policy: Policy)
    ensures Accepted(trajectories, requests, policy) <==> forall p :: !Reported(trajectories, requests, policy, p)
  {
    hide VerdictOf, LongEnough, ReusesEnough, EvidenceFor, Complete, AnyTokensDiffer;
    PassesIffComplete(trajectories, requests);
    var ids := SessionIds(trajectories);
    if Accepted(trajectories, requests, policy) {
      forall p ensures !Reported(trajectories, requests, policy, p) {
        if (p.LongContextMissing? || p.NoPromptReuse?) && p.sessionId in ids {
          var i :| 0 <= i < |ids| && ids[i] == p.sessionId;
          assert trajectories[i] in trajectories;
        }
      }
    }
    if !Accepted(trajectories, requests, policy) {
      if VerdictOf(trajectories, requests).problems != [] {
        assert Reported(trajectories, requests, policy, Incomplete(VerdictOf(trajectories, requests).problems[0]));
      } else if AnyTokensDiffer(requests, policy) {
        assert Reported(trajectories, requests, policy, TokenCountDiffers);
      } else if policy.requireRestores && EvidenceFor(requests, policy).problems != [] {
        assert Reported(trajectories, requests, policy, NoRestore(EvidenceFor(requests, policy).problems[0]));
      } else {
        var i :| 0 <= i < |trajectories| && !(LongEnough(requests, policy, trajectories[i].sessionId)
                                              && ReusesEnough(requests, policy, trajectories[i].sessionId));
        assert ids[i] == trajectories[i].sessionId;
        assert Reported(trajectories, requests, policy, LongContextMissing(ids[i]))
            || Reported(trajectories, requests, policy, NoPromptReuse(ids[i]));
      }
    }
  }

  // ---- acceptance in terms of the requests --------------------------------------------------

  /** The qualified turn that counts for an identifier: the last one listed under it. */
  ghost predicate CountsFor(rows: seq<TurnRow>, id: string, i: int) {
    0 <= i < |rows| && rows[i].requestId == id && forall j :: i < j < |rows| ==> rows[j].requestId != id
  }

  /** The request counted as many prompt tokens as its qualified turn; one without such a turn counted none. */
  ghost predicate AsQualified(r: Request, rows: seq<TurnRow>) {
    match r.outcome
    case Success(served) => exists i :: CountsFor(rows, r.requestId, i) && rows[i].promptTokens == Some(served.promptTokens)
    case Failed(_) => forall i :: CountsFor(rows, r.requestId, i) ==> rows[i].promptTokens.None?
  }

  lemma {:induction false} ExpectedIsLast(rows: seq<TurnRow>, id: string)
    ensures id in ExpectedTokens(rows) ==>
              exists i :: CountsFor(rows, id, i) && rows[i].promptTokens == ExpectedTokens(rows)[id]
    ensures forall i :: CountsFor(rows, id, i) ==>
              id in ExpectedTokens(rows) && ExpectedTokens(rows)[id] == rows[i].promptTokens
  {
    if rows == [] {
    } else {
      var n := |rows| - 1;
      var front := rows[..n];
      ExpectedIsLast(front, id);
      if rows[n].requestId == id {
        assert CountsFor(rows, id, n);
      } else {
        forall i ensures CountsFor(rows, id, i) <==> CountsFor(front, id, i) {
        }
      }
    }
  }

  lemma QualifiedIff(r: Request, rows: seq<TurnRow>)
    ensures AsQualified(r, rows) <==> !TokensDiffer(r, ExpectedTokens(rows))
  {
    hide ExpectedTokens;
    ExpectedIsLast(rows, r.requestId);
  }

  /** The session had a prompt of this length. */
  ghost predicate HadPrompt(requests: seq<Request>, s: string, minimum: int) {
    exists r :: r in requests && r.sessionId == s && r.outcome.Success? && r.outcome.served.promptTokens >= minimum
  }

  /** After its first turn the session was answered from the cache. */
  ghost predicate HitCache(requests: seq<Request>, s: string) {
    exists r :: r in requests && r.sessionId == s && r.assistantTurn > 0
                && r.outcome.Success? && r.outcome.served.cachedTokens > 0
  }

  lemma SessionChecksAre(requests: seq<Request>, policy: Policy, s: string)
    ensures LongEnough(requests, policy, s)
            <==> policy.minimumSessionTokens == 0 || HadPrompt(requests, s, policy.minimumSessionTokens)
    ensures ReusesEnough(requests, policy, s) <==> policy.minimumContext == 0 || HitCache(requests, s)
  {
    hide Largest, Project;
    var rows := Project(requests, s);
    LargestIs(rows);
    ProjectTwice(requests, s);
  }

  /**
    Acceptance in full: the log is complete, every request counted the qualified number of prompt tokens, every session
    had a prompt of the minimum length and, after its first turn, an answer with cached tokens, and restores were proved
    where they are required.
   */
  lemma AcceptedMeans(trajectories: seq<Trajectory>, requests: seq<Request>, policy: Policy)
    ensures Accepted(trajectories, requests, policy)
            <==> VerdictOf(trajectories, requests).Passed()
                 && (policy.qualified.Some? ==> forall r :: r in requests ==> AsQualified(r, policy.qualified.value.turns))
                 && (policy.minimumSessionTokens > 0 ==>
                       forall t :: t in trajectories ==> HadPrompt(requests, t.sessionId, policy.minimumSessionTokens))
                 && (policy.minimumContext > 0 ==> forall t :: t in trajectories ==> HitCache(requests, t.sessionId))
                 && (policy.requireRestores ==>
                       Recurrent.EvidenceOf(policy.logLines, policy.parse, requests,
                                            if policy.minimumSessionTokens >= 1 then policy.minimumSessionTokens else 1)
                         .problems == [])
  {
    hide VerdictOf, Complete, LongEnough, ReusesEnough, TokensDiffer, AsQualified, HadPrompt, HitCache, Recurrent.EvidenceOf;
    PassesIffComplete(trajectories, requests);
    if policy.qualified.Some? {
      forall r | r in requests
        ensures AsQualified(r, policy.qualified.value.turns)
                <==> !TokensDiffer(r, ExpectedTokens(policy.qualified.value.turns))
      {
        QualifiedIff(r, policy.qualified.value.turns);
      }
    }
    forall t | t in trajectories
      ensures LongEnough(requests, policy, t.sessionId)
              <==> policy.minimumSessionTokens == 0 || HadPrompt(requests, t.sessionId, policy.minimumSessionTokens)
      ensures ReusesEnough(requests, policy, t.sessionId)
              <==> policy.minimumContext == 0 || HitCache(requests, t.sessionId)
    {
      SessionChecksAre(requests, policy, t.sessionId);
    }
  }

  // ---- end to end --------------------------------------------------------------------------

  lemma {:induction false} RowMember(trajectories: seq<Trajectory>, byId: map<string, Request>, context: int,
                                     maxOutput: int, row: TurnRow)
    ensures row in AllRows(trajectories, byId, context, maxOutput) <==>
              exists t, k: nat :: t in trajectories && k < Turns(t) && row == RowAt(t, k, byId, context, maxOutput)
  {
    hide RowAt;
    if trajectories == [] {
    } else {
      var front, last := trajectories[..|trajectories| - 1], trajectories[|trajectories| - 1];
      assert trajectories == front + [last];
      RowMember(front, byId, context, maxOutput, row);
      var rows := SessionRows(last, Turns(last), byId, context, maxOutput);
      if row in rows {
        var k :| 0 <= k < |rows| && rows[k] == row;
        assert last in trajectories && row == RowAt(last, k, byId, context, maxOutput);
      }
      if k: nat :| k < Turns(last) && row == RowAt(last, k, byId, context, maxOutput) {
        assert rows[k] == row;
      }
    }
  }

  lemma {:induction false} ExpectedTokensAt(rows: seq<TurnRow>, row: TurnRow)
    requires row in rows && forall other :: other in rows && other.requestId == row.requestId ==> other == row
    ensures row.requestId in ExpectedTokens(rows) && ExpectedTokens(rows)[row.requestId] == row.promptTokens
  {
    var front, last := rows[..|rows| - 1], rows[|rows| - 1];
    assert rows == front + [last];
    if last == row {
    } else {
      assert row in front;
      ExpectedTokensAt(front, row);
    }
  }

  lemma SameIdSameTrajectory(trajectories: seq<Trajectory>, a: Trajectory, i: nat, b: Trajectory, j: nat)
    requires Distinct(SessionIds(trajectories)) && a in trajectories && b in trajectories
    requires RequestId(a.sessionId, i) == RequestId(b.sessionId, j)
    ensures a == b && i == j
  {
    RequestIdInjective(a.sessionId, i, b.sessionId, j);
    var p :| 0 <= p < |trajectories| && trajectories[p] == a;
    var q :| 0 <= q < |trajectories| && trajectories[q] == b;
    assert SessionIds(trajectories)[p] == SessionIds(trajectories)[q];
  }

  ghost predicate FromReplay(trajectories: seq<Trajectory>, maxOutput: int, r: Request) {
    exists t, k: nat :: t in trajectories && k < Turns(t) && r == RequestAt(t, k, maxOutput, r.outcome)
  }

  /**
    If the preflight qualified a cohort and a measured cell of that cohort is accepted, then every request of the
    cell succeeded and its prompt plus the output it may generate fits the qualified context.
   */
  lemma AcceptedRequestsFit(trajectories: seq<Trajectory>, probes: seq<Request>, context: int, maxOutput: int,
                            minimumLong: int, requests: seq<Request>, policy: Policy, r: Request)
    requires EligibilityOf(trajectories, probes, context, maxOutput, minimumLong).Passed()
    requires policy.qualified == Some(EligibilityOf(trajectories, probes, context, maxOutput, minimumLong))
    requires Accepted(trajectories, requests, policy)
    requires r in requests && FromReplay(trajectories, maxOutput, r)
    ensures r.outcome.Success? && r.outcome.served.promptTokens > 0
    ensures r.outcome.served.promptTokens + r.requestedOutput <= context
  {
    hide EvidenceFor, Reuses, Largest, Project, OutputBudget, OpenAiMessage, VerdictOf, AllProblems;
    var byId := ById(probes);
    EligibleIff(trajectories, probes, context, maxOutput, minimumLong);
    var t, k: nat :| t in trajectories && k < Turns(t) && r == RequestAt(t, k, maxOutput, r.outcome);
    QualifiedTokens(trajectories, byId, context, maxOutput, t, k);
    assert !TokensDiffer(r, ExpectedTokens(policy.qualified.value.turns));
    assert RowAt(t, k, byId, context, maxOutput).fits;
  }

  lemma QualifiedTokens(trajectories: seq<Trajectory>, byId: map<string, Request>, context: int, maxOutput: int,
                        t: Trajectory, k: nat)
    requires Distinct(SessionIds(trajectories)) && t in trajectories && k < Turns(t)
    ensures var expected := ExpectedTokens(AllRows(trajectories, byId, context, maxOutput));
            var row := RowAt(t, k, byId, context, maxOutput);
            row.requestId == RequestId(t.sessionId, k)
            && row.requestId in expected && expected[row.requestId] == row.promptTokens
  {
    hide OutputBudget, AllRows, ProbeTokens;
    var rows, row := AllRows(trajectories, byId, context, maxOutput), RowAt(t, k, byId, context, maxOutput);
    RowMember(trajectories, byId, context, maxOutput, row);
    forall other | other in rows && other.requestId == row.requestId ensures other == row {
      RowMember(trajectories, byId, context, maxOutput, other);
      var t', k': nat :| t' in trajectories && k' < Turns(t') && other == RowAt(t', k', byId, context, maxOutput);
      SameIdSameTrajectory(trajectories, t', k', t, k);
    }
    ExpectedTokensAt(rows, row);
  }

  /** Whatever the schedule, the pool only ever sends requests of a sequential replay. */
  lemma PoolSendsReplays(job: Pool.Job, start: real, events: seq<Pool.Event>, s: Pool.State, r: Request)
    requires Pool.Reaches(job, start, events, s) && r in Pool.CellRequests(s)
    ensures FromReplay(job.trajectories, job.maxOutput, r)
  {
    hide RequestAt, Pool.Reaches;
    Pool.ReachableIsGood(job, start, events, s);
    FlattenMember(s.results, r);
    var k :| 0 <= k < |s.results| && r in s.results[k];
    assert Pool.IsReplay(job, k, s.results[k]);
    var n :| 0 <= n < |s.results[k]| && s.results[k][n] == r;
    assert job.trajectories[k] in job.trajectories;
  }

  /** From preflight and schedule to the served prompt: no request of an accepted run outgrew the qualified context. */
  lemma AcceptedRunFits(job: Pool.Job, start: real, events: seq<Pool.Event>, s: Pool.State, probes: seq<Request>,
                        context: int, minimumLong: int, policy: Policy, r: Request)
    requires Pool.Reaches(job, start, events, s) && r in Pool.CellRequests(s)
    requires EligibilityOf(job.trajectories, probes, context, job.maxOutput, minimumLong).Passed()
    requires policy.qualified == Some(EligibilityOf(job.trajectories, probes, context, job.maxOutput, minimumLong))
    requires Accepted(job.trajectories, Pool.CellRequests(s), policy)
    ensures r.outcome.Success? && r.outcome.served.promptTokens + r.requestedOutput <= context
  {
    hide *;
    PoolSendsReplays(job, start, events, s, r);
    AcceptedRequestsFit(job.trajectories, probes, context, job.maxOutput, minimumLong, Pool.CellRequests(s), policy, r);
  }
}
