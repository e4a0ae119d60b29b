/**
  The per-session part of a report: which turns a session answered, how much of its prompts was cached and whether it
  is complete on its own. This module proves that the parts agree with the whole.
 */
module SessionSummaries {
  import opened Common
  import opened Replay
  import opened SessionEvidence
  import CellSummary

  datatype SessionSummary = SessionSummary(sessionId: string, expectedIds: seq<string>, complete: bool,
                                           promptTokens: nat, cachedTokens: nat, cachePct: Option<real>,
                                           maxPromptTokens: nat, turns: seq<TurnSummary>)

  /** One answered turn as reported; what a failed request does not have is absent. */
  datatype TurnSummary = TurnSummary(requestId: string, promptTokens: Option<nat>, cachedTokens: Option<nat>,
                                     cachePct: Option<real>, ttft: Option<real>, error: Option<string>)

  function TurnOf(r: Request): TurnSummary {
    match r.outcome
    case Failed(error) => TurnSummary(r.requestId, None, None, None, None, Some(error))
    case Success(served) =>
      TurnSummary(r.requestId, Some(served.promptTokens), Some(served.cachedTokens),
                  if served.promptTokens > 0
                  then Some(100.0 * served.cachedTokens as real / served.promptTokens as real) else None,
                  Some(served.firstTokenAt - served.started), None)
  }

  function PromptOf(r: Request): nat {
    if r.outcome.Success? then r.outcome.served.promptTokens else 0
  }

  function CachedOf(r: Request): nat {
    if r.outcome.Success? then r.outcome.served.cachedTokens else 0
  }

  function Total(amount: Request -> nat, requests: seq<Request>): nat {
    if requests == [] then 0
    else Total(amount, requests[..|requests| - 1]) + amount(requests[|requests| - 1])
  }

  function Largest(requests: seq<Request>): nat {
    if requests == [] then 0
    else Max(Largest(requests[..|requests| - 1]), PromptOf(requests[|requests| - 1]))
  }

  function SummaryOf(t: Trajectory, requests: seq<Request>): SessionSummary {
    var rows := Project(requests, t.sessionId);
    var prompt, cached := Total(PromptOf, rows), Total(CachedOf, rows);
    SessionSummary(t.sessionId, ExpectedTurns(t), VerdictOf([t], rows).Passed(), prompt, cached,
                   if prompt > 0 then Some(100.0 * cached as real / prompt as real) else None,
                   Largest(rows), MapSeq(TurnOf, rows))
  }

  // ---- the loops ------------------------------------------------------------------------

  method RowsOf(requests: seq<Request>, s: string) returns (rows: seq<Request>)
    ensures rows == Project(requests, s)
  {
    hide Project;
    rows := [];
    assert Project(requests[..0], s) == [] by { NothingProjected(s); }
    for i := 0 to |requests|
      invariant rows == Project(requests[..i], s)
    {
      assert requests[..i + 1] == requests[..i] + [requests[i]];
      ProjectNext(requests[..i], requests[i]);
      if requests[i].sessionId == s {
        rows := rows + [requests[i]];
      }
    }
    assert requests[..|requests|] == requests;
  }

  lemma NothingProjected(s: string)
    ensures Project([], s) == []
  {
  }

  method Totals(rows: seq<Request>) returns (prompt: nat, cached: nat, largest: nat)
    ensures prompt == Total(PromptOf, rows) && cached == Total(CachedOf, rows) && largest == Largest(rows)
  {
    prompt, cached, largest := 0, 0, 0;
    for i := 0 to |rows|
      invariant prompt == Total(PromptOf, rows[..i]) && cached == Total(CachedOf, rows[..i])
      invariant largest == Largest(rows[..i])
    {
      assert rows[..i + 1][..i] == rows[..i];
      if rows[i].outcome.Success? {
        prompt := prompt + rows[i].outcome.served.promptTokens;
        cached := cached + rows[i].outcome.served.cachedTokens;
        largest := Max(largest, rows[i].outcome.served.promptTokens);
      }
    }
    assert rows[..|rows|] == rows;
  }

  method Summaries(trajectories: seq<Trajectory>, requests: seq<Request>) returns (result: seq<SessionSummary>)
    ensures |result| == |trajectories|
    ensures forall i :: 0 <= i < |result| ==> result[i] == SummaryOf(trajectories[i], requests)
  {
    hide VerdictOf, ExpectedTurns, Project, Total, Largest;
    result := [];
    for i := 0 to |trajectories|
      invariant |result| == i
      invariant forall k :: 0 <= k < i ==> result[k] == SummaryOf(trajectories[k], requests)
    {
      var t := trajectories[i];
      var rows := RowsOf(requests, t.sessionId);
      var prompt, cached, largest := Totals(rows);
      var verdict := CompleteSessions([t], rows);
      result := result + [SessionSummary(t.sessionId, ExpectedTurns(t), verdict.Passed(), prompt, cached,
                                         if prompt > 0 then Some(100.0 * cached as real / prompt as real) else None,
                                         largest, MapSeq(TurnOf, rows))];
    }
  }

  // ---- the parts and the whole ----------------------------------------------------------------

  lemma ProjectTwice(requests: seq<Request>, s: string)
    ensures Project(Project(requests, s), s) == Project(requests, s)
    ensures forall r :: r in Project(requests, s) <==> r in requests && r.sessionId == s
  {
    forall r ensures r in Project(requests, s) <==> r in requests && r.sessionId == s {
      FilterMember(InSession(s), requests, r);
    }
    FilterAll(InSession(s), Project(requests, s));
  }

  /** On its own rows, a session is complete exactly when nothing in it failed and its turns are the expected ones. */
  lemma SummaryIsLocal(t: Trajectory, requests: seq<Request>)
    ensures SummaryOf(t, requests).complete <==>
              Turns(t) > 0 && Observed(requests, t.sessionId) == ExpectedTurns(t)
              && forall r :: r in requests && r.sessionId == t.sessionId ==> ErrorText(r) == ""
  {
    hide VerdictOf, ExpectedTurns;
    var rows := Project(requests, t.sessionId);
    PassesIffComplete([t], rows);
    ProjectTwice(requests, t.sessionId);
    hide Project;
    assert t in [t] && SessionIds([t]) == [t.sessionId] && t.sessionId in SessionIds([t]);
  }

  /**
    The whole log passes exactly when the session ids are distinct, it holds no foreign request, and every session's
    own summary says complete.
   */
  lemma WholeIffParts(trajectories: seq<Trajectory>, requests: seq<Request>)
    ensures VerdictOf(trajectories, requests).Passed() <==>
              Distinct(SessionIds(trajectories))
              && (forall r :: r in requests ==> r.sessionId in SessionIds(trajectories))
              && forall t :: t in trajectories ==> SummaryOf(t, requests).complete
  {
    hide VerdictOf, ExpectedTurns, SummaryOf, Observed;
    PassesIffComplete(trajectories, requests);
    forall t | t in trajectories
      ensures SummaryOf(t, requests).complete <==>
                Turns(t) > 0 && Observed(requests, t.sessionId) == ExpectedTurns(t)
                && forall r :: r in requests && r.sessionId == t.sessionId ==> ErrorText(r) == ""
    {
      SummaryIsLocal(t, requests);
    }
    forall r | r in requests && r.sessionId in SessionIds(trajectories)
      ensures exists t :: t in trajectories && t.sessionId == r.sessionId
    {
      var i :| 0 <= i < |trajectories| && SessionIds(trajectories)[i] == r.sessionId;
      assert trajectories[i] in trajectories;
    }
  }

  // ---- what a summary says -----------------------------------------------------------------------

  /** One row of the report, for one request of the log. */
  ghost predicate ReportsTurn(r: Request, turn: TurnSummary) {
    turn.requestId == r.requestId
    && match r.outcome
       case Failed(text) =>
         turn.error == Some(text) && turn.promptTokens.None? && turn.cachedTokens.None? && turn.cachePct.None?
         && turn.ttft.None?
       case Success(served) =>
         turn.error.None? && turn.promptTokens == Some(served.promptTokens)
         && turn.cachedTokens == Some(served.cachedTokens)
         && turn.ttft == Some(served.firstTokenAt - served.started)
         && IsPercent(turn.cachePct, served.cachedTokens, served.promptTokens)
  }

  ghost predicate IsPercent(percent: Option<real>, part: nat, whole: nat) {
    (percent.None? <==> whole == 0) && (whole > 0 ==> percent.value * whole as real == 100.0 * part as real)
  }

  lemma PercentIs(part: nat, whole: nat)
    ensures IsPercent(if whole > 0 then Some(100.0 * part as real / whole as real) else None, part, whole)
  {
  }

  function SumPrompts(turns: seq<TurnSummary>): nat {
    if turns == [] then 0 else SumPrompts(turns[..|turns| - 1]) + turns[|turns| - 1].promptTokens.GetOr(0)
  }

  function SumCached(turns: seq<TurnSummary>): nat {
    if turns == [] then 0 else SumCached(turns[..|turns| - 1]) + turns[|turns| - 1].cachedTokens.GetOr(0)
  }

  lemma {:induction false} TotalsAreSums(rows: seq<Request>)
    ensures Total(PromptOf, rows) == SumPrompts(MapSeq(TurnOf, rows))
    ensures Total(CachedOf, rows) == SumCached(MapSeq(TurnOf, rows))
  {
    if rows == [] {
    } else {
      var turns := MapSeq(TurnOf, rows);
      assert turns[..|turns| - 1] == MapSeq(TurnOf, rows[..|rows| - 1]);
      TotalsAreSums(rows[..|rows| - 1]);
    }
  }

  /** The largest prompt among the successful rows; zero when there is none. */
  lemma {:induction false} LargestIs(rows: seq<Request>)
    ensures forall r :: r in rows && r.outcome.Success? ==> r.outcome.served.promptTokens <= Largest(rows)
    ensures Largest(rows) > 0 ==>
              exists r :: r in rows && r.outcome.Success? && r.outcome.served.promptTokens == Largest(rows)
  {
    if rows == [] {
    } else {
      var front, last := rows[..|rows| - 1], rows[|rows| - 1];
      assert rows == front + [last];
      LargestIs(front);
      if Largest(rows) > Largest(front) {
        assert last in rows;
      }
    }
  }

  /**
    A session's summary, against the positions of its requests in the log: one row per request in order, the totals of
    these rows, and the longest prompt.
   */
  lemma SummaryMeans(t: Trajectory, requests: seq<Request>, at: seq<nat>)
    requires ArePositions(requests, t.sessionId, at)
    ensures var s := SummaryOf(t, requests);
            |s.turns| == |at|
            && (forall k :: 0 <= k < |at| ==> at[k] < |requests| && ReportsTurn(requests[at[k]], s.turns[k]))
            && s.promptTokens == SumPrompts(s.turns) && s.cachedTokens == SumCached(s.turns)
            && IsPercent(s.cachePct, s.cachedTokens, s.promptTokens)
    ensures var s := SummaryOf(t, requests);
            (forall k :: 0 <= k < |s.turns| && s.turns[k].promptTokens.Some? ==>
               s.turns[k].promptTokens.value <= s.maxPromptTokens)
            && (s.maxPromptTokens > 0 ==>
                  exists k :: 0 <= k < |s.turns| && s.turns[k].promptTokens == Some(s.maxPromptTokens))
    ensures SummaryOf(t, requests).sessionId == t.sessionId
    ensures |SummaryOf(t, requests).expectedIds| == Count(IsAssistant(), t.messages)
    ensures forall k :: 0 <= k < |SummaryOf(t, requests).expectedIds| ==>
              IsIdOf(SummaryOf(t, requests).expectedIds[k], t.sessionId, k)
  {
    hide VerdictOf, Project, Largest, Total, SumPrompts, SumCached, IsPercent, IsIdOf, RequestId, Count, AssistantPositions;
    PositionsProject(requests, t.sessionId);
    OnePositionList(at, PositionsOf(requests, t.sessionId));
    var rows := Project(requests, t.sessionId);
    var s := SummaryOf(t, requests);
    PositionsCount(t.messages);
    TotalsAreSums(rows);
    LargestIs(rows);
    PercentIs(s.cachedTokens, s.promptTokens);
    forall k | 0 <= k < |at| ensures ReportsTurn(rows[k], s.turns[k]) {
      TurnIsReported(rows[k]);
    }
    forall k | 0 <= k < |s.turns| && s.turns[k].promptTokens.Some?
      ensures s.turns[k].promptTokens.value <= s.maxPromptTokens
    {
      assert rows[k] in rows;
    }
    if s.maxPromptTokens > 0 {
      var r :| r in rows && r.outcome.Success? && r.outcome.served.promptTokens == Largest(rows);
      var k :| 0 <= k < |rows| && rows[k] == r;
      assert s.turns[k].promptTokens == Some(s.maxPromptTokens);
    }
    forall k: nat | k < |s.expectedIds| ensures IsIdOf(s.expectedIds[k], t.sessionId, k) {
      IdIs(t.sessionId, k);
    }
  }

  lemma TurnIsReported(r: Request)
    ensures ReportsTurn(r, TurnOf(r))
  {
    if r.outcome.Success? {
      PercentIs(r.outcome.served.cachedTokens, r.outcome.served.promptTokens);
    }
  }

  // ---- conservation of tokens ------------------------------------------------------------------

  /** What the sessions of `order` add up to. */
  function TotalBySession(amount: Request -> nat, requests: seq<Request>, order: seq<string>): nat {
    if order == [] then 0
    else TotalBySession(amount, requests, order[..|order| - 1]) + Total(amount, Project(requests, order[|order| - 1]))
  }

  lemma {:induction false} TotalBySessionNext(amount: Request -> nat, requests: seq<Request>, r: Request, order: seq<string>)
    requires Distinct(order)
    ensures TotalBySession(amount, requests + [r], order)
         == TotalBySession(amount, requests, order) + (if r.sessionId in order then amount(r) else 0)
  {
    hide Project;
    if order == [] {
    } else {
      var front, s := order[..|order| - 1], order[|order| - 1];
      assert order == front + [s];
      TotalBySessionNext(amount, requests, r, front);
      ProjectNext(requests, r);
      var own := Project(requests, s);
      if s == r.sessionId {
        assert (own + [r])[..|own|] == own;
        forall i | 0 <= i < |front| ensures front[i] != s {
          assert order[i] != order[|order| - 1];
        }
      } else {
        assert own + [] == own;
      }
    }
  }

  lemma {:induction false} NothingToTotal(amount: Request -> nat, order: seq<string>)
    ensures TotalBySession(amount, [], order) == 0
  {
    if order == [] {
    } else {
      NothingToTotal(amount, order[..|order| - 1]);
      NothingProjected(order[|order| - 1]);
    }
  }

  /** Splitting a log into sessions neither loses nor double-counts tokens. */
  lemma {:induction false} TokensAreConserved(amount: Request -> nat, requests: seq<Request>, order: seq<string>)
    requires Distinct(order) && forall r :: r in requests ==> r.sessionId in order
    ensures TotalBySession(amount, requests, order) == Total(amount, requests)
  {
    if requests == [] {
      NothingToTotal(amount, order);
    } else {
      var front, last := requests[..|requests| - 1], requests[|requests| - 1];
      assert requests == front + [last];
      TokensAreConserved(amount, front, order);
      TotalBySessionNext(amount, front, last, order);
    }
  }

  function SummedPrompts(trajectories: seq<Trajectory>, requests: seq<Request>): nat {
    if trajectories == [] then 0
    else
      SummedPrompts(trajectories[..|trajectories| - 1], requests)
      + SummaryOf(trajectories[|trajectories| - 1], requests).promptTokens
  }

  lemma {:induction false} SummedBySession(trajectories: seq<Trajectory>, requests: seq<Request>)
    ensures SummedPrompts(trajectories, requests) == TotalBySession(PromptOf, requests, SessionIds(trajectories))
  {
    hide VerdictOf, ExpectedTurns, Project, Total, Largest;
    if trajectories == [] {
    } else {
      var front, last := trajectories[..|trajectories| - 1], trajectories[|trajectories| - 1];
      SummedBySession(front, requests);
      var ids := SessionIds(trajectories);
      assert ids[..|ids| - 1] == SessionIds(front) && ids[|ids| - 1] == last.sessionId;
    }
  }

  lemma {:induction false} TotalIsPromptSum(requests: seq<Request>)
    ensures Total(PromptOf, requests) == CellSummary.PromptSum(requests)
  {
    if requests == [] {
    } else {
      TotalIsPromptSum(requests[..|requests| - 1]);
    }
  }

  /** The per-session prompt tokens of a passing log add up to the prompt tokens that the cell reports. */
  lemma PassedSummariesAddUp(trajectories: seq<Trajectory>, requests: seq<Request>)
    requires VerdictOf(trajectories, requests).Passed()
    ensures SummedPrompts(trajectories, requests) == CellSummary.PromptSum(requests)
  {
    TotalIsPromptSum(requests);
    WholeIffParts(trajectories, requests);
    SummedBySession(trajectories, requests);
    TokensAreConserved(PromptOf, requests, SessionIds(trajectories));
  }
}
