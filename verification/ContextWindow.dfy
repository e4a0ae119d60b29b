/**
  Context-window safety, end to end: a preflight probes every formatted prompt once, and a measured cell is accepted
  only if its requests have the prompt lengths that the preflight saw.
 */
module ContextWindow {
  import opened Common
  import opened Replay
  import opened SessionEvidence

  datatype TurnRow = TurnRow(requestId: string, promptTokens: Option<nat>, outputBudget: int, fits: bool)

  datatype Eligibility = Eligibility(problems: seq<Problem>, context: int, minimumLong: int, turns: seq<TurnRow>) {
    predicate Passed() {
      problems == []
    }
  }

  /** `probe.get("prompt_tokens")`: absent from a failed request. */
  function PromptTokens(r: Request): Option<nat> {
    if r.outcome.Success? then Some(r.outcome.served.promptTokens) else None
  }

  /** `{p["request_id"]: p for p in probes}`. */
  function ById(probes: seq<Request>): map<string, Request> {
    if probes == [] then map[]
    else
      var last := probes[|probes| - 1];
      ById(probes[..|probes| - 1])[last.requestId := last]
  }

  function ProbeTokens(byId: map<string, Request>, id: string): Option<nat> {
    if id in byId then PromptTokens(byId[id]) else None
  }

  predicate Fits(tokens: Option<nat>, output: int, context: int) {
    tokens.Some? && tokens.value > 0 && tokens.value + output <= context
  }

  function TurnMessage(t: Trajectory, k: nat): Message
    requires k < Turns(t)
  {
    t.messages[AssistantPositions(t.messages)[k]]
  }

  function RowAt(t: Trajectory, k: nat, byId: map<string, Request>, context: int, maxOutput: int): TurnRow
    requires k < Turns(t)
  {
    var id := RequestId(t.sessionId, k);
    var output := OutputBudget(TurnMessage(t, k), maxOutput);
    TurnRow(id, ProbeTokens(byId, id), output, Fits(ProbeTokens(byId, id), output, context))
  }

  function SessionRows(t: Trajectory, turns: nat, byId: map<string, Request>, context: int, maxOutput: int): seq<TurnRow>
    requires turns <= Turns(t)
  {
    seq(turns, k requires 0 <= k < turns => RowAt(t, k, byId, context, maxOutput))
  }

  function Unfit(rows: seq<TurnRow>): seq<Problem> {
    if rows == [] then []
    else
      var last := rows[|rows| - 1];
      Unfit(rows[..|rows| - 1]) + (if last.fits then [] else [DoesNotFit(last.requestId)])
  }

  predicate ReachesLength(rows: seq<TurnRow>, minimum: int) {
    exists row :: row in rows && row.promptTokens.Some? && row.promptTokens.value >= minimum
  }

  function SessionProblems(t: Trajectory, rows: seq<TurnRow>, minimumLong: int): seq<Problem> {
    Unfit(rows) + (if ReachesLength(rows, minimumLong) then [] else [TooShort(t.sessionId)])
  }

  function AllRows(trajectories: seq<Trajectory>, byId: map<string, Request>, context: int, maxOutput: int): seq<TurnRow> {
    if trajectories == [] then []
    else
      var last := trajectories[|trajectories| - 1];
      AllRows(trajectories[..|trajectories| - 1], byId, context, maxOutput)
      + SessionRows(last, Turns(last), byId, context, maxOutput)
  }

  function AllProblems(trajectories: seq<Trajectory>, byId: map<string, Request>, context: int, maxOutput: int,
                       minimumLong: int): seq<Problem> {
    if trajectories == [] then []
    else
      var last := trajectories[|trajectories| - 1];
      AllProblems(trajectories[..|trajectories| - 1], byId, context, maxOutput, minimumLong)
      + SessionProblems(last, SessionRows(last, Turns(last), byId, context, maxOutput), minimumLong)
  }

  function EligibilityOf(trajectories: seq<Trajectory>, probes: seq<Request>, context: int, maxOutput: int,
                         minimumLong: int): Eligibility {
    Eligibility(VerdictOf(trajectories, probes).problems
                + AllProblems(trajectories, ById(probes), context, maxOutput, minimumLong),
                context, minimumLong, AllRows(trajectories, ById(probes), context, maxOutput))
  }

  // ---- the preflight's loops ---------------------------------------------------------

  method IndexProbes(probes: seq<Request>) returns (byId: map<string, Request>)
    ensures byId == ById(probes)
  {
    byId := map[];
    for i := 0 to |probes|
      invariant byId == ById(probes[..i])
    {
      assert probes[..i + 1][..i] == probes[..i];
      byId := byId[probes[i].requestId := probes[i]];
    }
    assert probes[..|probes|] == probes;
  }

  method CheckSession(t: Trajectory, byId: map<string, Request>, context: int, maxOutput: int, minimumLong: int)
    returns (rows: seq<TurnRow>, problems: seq<Problem>)
    ensures rows == SessionRows(t, Turns(t), byId, context, maxOutput)
    ensures problems == SessionProblems(t, rows, minimumLong)
  {
    hide AssistantPositions, RequestId, OutputBudget, ProbeTokens, Fits, ReachesLength, SessionRows, Unfit;
    var turn := 0;
    var reaches := false;
    NothingYet(t, byId, context, maxOutput, minimumLong);
    rows, problems := [], [];
    for i := 0 to |t.messages|
      invariant turn == |AssistantPositions(t.messages[..i])| <= Turns(t)
      invariant rows == SessionRows(t, turn, byId, context, maxOutput)
      invariant problems == Unfit(rows)
      invariant reaches <==> ReachesLength(rows, minimumLong)
    {
      NextTurn(t, i);
      if t.messages[i].role == ASSISTANT {
        var id := RequestId(t.sessionId, turn);
        var tokens := ProbeTokens(byId, id);
        var output := OutputBudget(t.messages[i], maxOutput);
        var row := TurnRow(id, tokens, output, Fits(tokens, output, context));
        ExtendRows(t, turn, byId, context, maxOutput);
        ReachesNext(rows, row, minimumLong);
        UnfitNext(rows, row);
        if !row.fits {
          problems := problems + [DoesNotFit(id)];
        }
        if tokens.Some? && tokens.value >= minimumLong {
          reaches := true;
        }
        rows := rows + [row];
        turn := turn + 1;
      }
    }
    assert t.messages[..|t.messages|] == t.messages;
    if !reaches {
      problems := problems + [TooShort(t.sessionId)];
    }
  }

  lemma NothingYet(t: Trajectory, byId: map<string, Request>, context: int, maxOutput: int, minimum: int)
    ensures |AssistantPositions(t.messages[..0])| == 0
    ensures SessionRows(t, 0, byId, context, maxOutput) == []
    ensures Unfit([]) == [] && !ReachesLength([], minimum)
  {
  }

  lemma NextTurn(t: Trajectory, i: nat)
    requires i < |t.messages|
    ensures var turn, next := |AssistantPositions(t.messages[..i])|, |AssistantPositions(t.messages[..i + 1])|;
            next <= Turns(t)
            && next == turn + (if t.messages[i].role == ASSISTANT then 1 else 0)
            && (t.messages[i].role == ASSISTANT ==> TurnMessage(t, turn) == t.messages[i])
  {
    PositionsStep(t.messages, i);
    PositionsPrefix(t.messages, i + 1);
    if t.messages[i].role == ASSISTANT {
      PositionAt(t.messages, i);
    }
  }

  lemma UnfitNext(rows: seq<TurnRow>, row: TurnRow)
    ensures Unfit(rows + [row]) == Unfit(rows) + (if row.fits then [] else [DoesNotFit(row.requestId)])
  {
    assert (rows + [row])[..|rows|] == rows;
  }

  lemma ReachesNext(rows: seq<TurnRow>, row: TurnRow, minimum: int)
    ensures ReachesLength(rows + [row], minimum) <==>
              ReachesLength(rows, minimum) || (row.promptTokens.Some? && row.promptTokens.value >= minimum)
  {
    assert row in rows + [row];
    assert forall r :: r in rows ==> r in rows + [row];
  }

  lemma ExtendRows(t: Trajectory, k: nat, byId: map<string, Request>, context: int, maxOutput: int)
    requires k < Turns(t)
    ensures SessionRows(t, k + 1, byId, context, maxOutput)
         == SessionRows(t, k, byId, context, maxOutput) + [RowAt(t, k, byId, context, maxOutput)]
  {
    hide RowAt;
  }

  method ContextEligibility(trajectories: seq<Trajectory>, probes: seq<Request>, context: int, maxOutput: int,
                            minimumLong: int) returns (e: Eligibility)
    ensures e == EligibilityOf(trajectories, probes, context, maxOutput, minimumLong)
  {
    hide VerdictOf, SessionRows, SessionProblems;
    var complete := CompleteSessions(trajectories, probes);
    var byId := IndexProbes(probes);
    var rows: seq<TurnRow>, problems: seq<Problem> := [], [];
    for i := 0 to |trajectories|
      invariant rows == AllRows(trajectories[..i], byId, context, maxOutput)
      invariant problems == AllProblems(trajectories[..i], byId, context, maxOutput, minimumLong)
    {
      assert trajectories[..i + 1][..i] == trajectories[..i];
      var more, found := CheckSession(trajectories[i], byId, context, maxOutput, minimumLong);
      rows := rows + more;
      problems := problems + found;
    }
    assert trajectories[..|trajectories|] == trajectories;
    e := Eligibility(complete.problems + problems, context, minimumLong, rows);
  }

  // ---- exactly when a cohort is eligible ------------------------------------------------

  lemma {:induction false} UnfitEmpty(rows: seq<TurnRow>)
    ensures Unfit(rows) == [] <==> forall row :: row in rows ==> row.fits
  {
    if rows == [] {
    } else {
      UnfitEmpty(rows[..|rows| - 1]);
      assert rows == rows[..|rows| - 1] + [rows[|rows| - 1]];
    }
  }

  ghost predicate SessionFits(t: Trajectory, byId: map<string, Request>, context: int, maxOutput: int, minimumLong: int) {
    (forall k: nat :: k < Turns(t) ==> RowAt(t, k, byId, context, maxOutput).fits)
    && exists k: nat :: k < Turns(t) && RowAt(t, k, byId, context, maxOutput).promptTokens.Some?
         && RowAt(t, k, byId, context, maxOutput).promptTokens.value >= minimumLong
  }

  lemma SessionProblemsEmpty(t: Trajectory, byId: map<string, Request>, context: int, maxOutput: int, minimumLong: int)
    ensures SessionProblems(t, SessionRows(t, Turns(t), byId, context, maxOutput), minimumLong) == []
       <==> SessionFits(t, byId, context, maxOutput, minimumLong)
  {
    hide RowAt;
    var rows := SessionRows(t, Turns(t), byId, context, maxOutput);
    UnfitEmpty(rows);
    assert |rows| == Turns(t) && forall k :: 0 <= k < |rows| ==> rows[k] == RowAt(t, k, byId, context, maxOutput);
    if forall row :: row in rows ==> row.fits {
      assert forall k: nat :: k < Turns(t) ==> rows[k] in rows;
    }
    if ReachesLength(rows, minimumLong) {
      var row :| row in rows && row.promptTokens.Some? && row.promptTokens.value >= minimumLong;
      var k :| 0 <= k < |rows| && rows[k] == row;
    }
    if k: nat :| k < Turns(t) && rows[k].promptTokens.Some? && rows[k].promptTokens.value >= minimumLong {
      assert rows[k] in rows;
    }
  }

  lemma {:induction false} AllProblemsEmpty(trajectories: seq<Trajectory>, byId: map<string, Request>, context: int,
                                            maxOutput: int, minimumLong: int)
    ensures AllProblems(trajectories, byId, context, maxOutput, minimumLong) == []
       <==> forall t :: t in trajectories ==> SessionFits(t, byId, context, maxOutput, minimumLong)
  {
    hide SessionFits, SessionProblems, SessionRows;
    if trajectories == [] {
    } else {
      var front, last := trajectories[..|trajectories| - 1], trajectories[|trajectories| - 1];
      assert trajectories == front + [last];
      AllProblemsEmpty(front, byId, context, maxOutput, minimumLong);
      SessionProblemsEmpty(last, byId, context, maxOutput, minimumLong);
    }
  }

  /** A cohort is eligible exactly when its probes are complete, every turn fits and every session is long enough. */
  lemma EligibleIff(trajectories: seq<Trajectory>, probes: seq<Request>, context: int, maxOutput: int, minimumLong: int)
    ensures EligibilityOf(trajectories, probes, context, maxOutput, minimumLong).Passed()
       <==> Complete(trajectories, probes)
            && forall t :: t in trajectories ==> SessionFits(t, ById(probes), context, maxOutput, minimumLong)
  {
    hide SessionFits, VerdictOf, Complete;
    PassesIffComplete(trajectories, probes);
    AllProblemsEmpty(trajectories, ById(probes), context, maxOutput, minimumLong);
  }

  // ---- eligibility by probes --------------------------------------------------------------

  /** In a complete log no identifier occurs twice. */
  lemma ProbesAreUnique(trajectories: seq<Trajectory>, probes: seq<Request>, i: nat, j: nat)
    requires Complete(trajectories, probes) && i < |probes| && j < |probes| && probes[i].requestId == probes[j].requestId
    ensures i == j
  {
    hide IsIdOf, ArePositions, Observed, ExpectedTurns, Count, IsAssistant;
    var at, k := PlaceOf(trajectories, probes, i);
    var bt, l := PlaceOf(trajectories, probes, j);
    OneIdOnly(probes[i].requestId, probes[i].sessionId, k);
    OneIdOnly(probes[j].requestId, probes[j].sessionId, l);
    RequestIdInjective(probes[i].sessionId, k, probes[j].sessionId, l);
    SamePositions(probes, probes[i].sessionId, at, bt);
  }

  lemma SamePositions(probes: seq<Request>, s: string, at: seq<nat>, bt: seq<nat>)
    requires ArePositions(probes, s, at) && ArePositions(probes, s, bt)
    ensures at == bt
  {
    OnePositionList(at, bt);
  }

  /** Where a probe stands among those of its session. */
  lemma PlaceOf(trajectories: seq<Trajectory>, probes: seq<Request>, i: nat) returns (at: seq<nat>, k: nat)
    requires Complete(trajectories, probes) && i < |probes|
    ensures ArePositions(probes, probes[i].sessionId, at) && k < |at| && at[k] == i
    ensures IsIdOf(probes[i].requestId, probes[i].sessionId, k)
  {
    hide IsIdOf, Observed, ExpectedTurns, Count, IsAssistant;
    assert probes[i] in probes;
    var ids := SessionIds(trajectories);
    var n :| 0 <= n < |ids| && ids[n] == probes[i].sessionId;
    var t := trajectories[n];
    assert t in trajectories;
    OwnTurnsIff(probes, t);
    at :| TurnsInOrder(probes, t, at);
    assert i in at;
    k :| 0 <= k < |at| && at[k] == i;
  }

  lemma {:induction false} ByIdHolds(probes: seq<Request>, i: nat)
    requires i < |probes| && forall j :: 0 <= j < |probes| && probes[j].requestId == probes[i].requestId ==> j == i
    ensures probes[i].requestId in ById(probes) && ById(probes)[probes[i].requestId] == probes[i]
  {
    var k := |probes| - 1;
    if i < k {
      assert probes[k].requestId != probes[i].requestId;
      ByIdHolds(probes[..k], i);
    }
  }

  lemma {:induction false} ByIdIsProbe(probes: seq<Request>, id: string)
    requires id in ById(probes)
    ensures ById(probes)[id] in probes && ById(probes)[id].requestId == id
  {
    var k := |probes| - 1;
    assert probes == probes[..k] + [probes[k]];
    if probes[k].requestId != id {
      ByIdIsProbe(probes[..k], id);
    }
  }

  /** Some probe under this identifier was answered and counted this many prompt tokens. */
  ghost predicate Counted(probes: seq<Request>, id: string, tokens: nat) {
    exists p :: p in probes && p.requestId == id && p.outcome.Success? && p.outcome.served.promptTokens == tokens
  }

  lemma TokensAreCounted(trajectories: seq<Trajectory>, probes: seq<Request>, id: string, tokens: nat)
    requires Complete(trajectories, probes)
    ensures ProbeTokens(ById(probes), id) == Some(tokens) <==> Counted(probes, id, tokens)
  {
    hide Complete;
    if id in ById(probes) {
      ByIdIsProbe(probes, id);
    }
    if Counted(probes, id, tokens) {
      var p :| p in probes && p.requestId == id && p.outcome.Success? && p.outcome.served.promptTokens == tokens;
      var i :| 0 <= i < |probes| && probes[i] == p;
      forall j | 0 <= j < |probes| && probes[j].requestId == probes[i].requestId ensures j == i {
        ProbesAreUnique(trajectories, probes, i, j);
      }
      ByIdHolds(probes, i);
    }
  }

  /** Turn `k` was probed to a prompt that leaves room for its output. */
  ghost predicate LeavesRoom(t: Trajectory, k: nat, probes: seq<Request>, context: int, maxOutput: int)
    requires k < Turns(t)
  {
    exists tokens: nat ::
      Counted(probes, RequestId(t.sessionId, k), tokens)
      && 0 < tokens && tokens + OutputBudget(TurnMessage(t, k), maxOutput) <= context
  }

  ghost predicate ProbedLong(t: Trajectory, k: nat, probes: seq<Request>, minimumLong: int) {
    exists tokens: nat :: Counted(probes, RequestId(t.sessionId, k), tokens) && tokens >= minimumLong
  }

  /** Every turn was probed to a prompt that leaves room for its output, and some turn to one that is long enough. */
  ghost predicate ProbedToFit(t: Trajectory, probes: seq<Request>, context: int, maxOutput: int, minimumLong: int) {
    (forall k: nat :: k < Turns(t) ==> LeavesRoom(t, k, probes, context, maxOutput))
    && exists k: nat :: k < Turns(t) && ProbedLong(t, k, probes, minimumLong)
  }

  /** Eligibility in terms of the probes alone. */
  lemma EligibleIffProbed(trajectories: seq<Trajectory>, probes: seq<Request>, context: int, maxOutput: int,
                          minimumLong: int)
    ensures EligibilityOf(trajectories, probes, context, maxOutput, minimumLong).Passed()
       <==> Complete(trajectories, probes)
            && forall t :: t in trajectories ==> ProbedToFit(t, probes, context, maxOutput, minimumLong)
  {
    hide Complete, SessionFits, ProbedToFit, EligibilityOf;
    EligibleIff(trajectories, probes, context, maxOutput, minimumLong);
    if Complete(trajectories, probes) {
      forall t | t in trajectories
        ensures SessionFits(t, ById(probes), context, maxOutput, minimumLong)
                <==> ProbedToFit(t, probes, context, maxOutput, minimumLong)
      {
        FitsIffProbed(trajectories, t, probes, context, maxOutput, minimumLong);
      }
    }
  }

  lemma TurnIffProbed(trajectories: seq<Trajectory>, t: Trajectory, k: nat, probes: seq<Request>, context: int,
                      maxOutput: int, minimumLong: int)
    requires Complete(trajectories, probes) && k < Turns(t)
    ensures var row := RowAt(t, k, ById(probes), context, maxOutput);
            (row.fits <==> LeavesRoom(t, k, probes, context, maxOutput))
            && (row.promptTokens.Some? && row.promptTokens.value >= minimumLong <==> ProbedLong(t, k, probes, minimumLong))
  {
    hide Complete, Counted, ProbeTokens, ById, OutputBudget, RequestId, TurnMessage, AssistantPositions;
    var id := RequestId(t.sessionId, k);
    var found := ProbeTokens(ById(probes), id);
    forall tokens: nat ensures found == Some(tokens) <==> Counted(probes, id, tokens) {
      TokensAreCounted(trajectories, probes, id, tokens);
    }
    if found.Some? {
      assert Counted(probes, id, found.value);
    }
  }

  lemma FitsIffProbed(trajectories: seq<Trajectory>, t: Trajectory, probes: seq<Request>, context: int, maxOutput: int,
                      minimumLong: int)
    requires Complete(trajectories, probes)
    ensures SessionFits(t, ById(probes), context, maxOutput, minimumLong)
            <==> ProbedToFit(t, probes, context, maxOutput, minimumLong)
  {
    hide Complete, RowAt, LeavesRoom, ProbedLong, ById, AssistantPositions;
    forall k: nat | k < Turns(t)
      ensures var row := RowAt(t, k, ById(probes), context, maxOutput);
              (row.fits <==> LeavesRoom(t, k, probes, context, maxOutput))
              && (row.promptTokens.Some? && row.promptTokens.value >= minimumLong
                  <==> ProbedLong(t, k, probes, minimumLong))
    {
      TurnIffProbed(trajectories, t, k, probes, context, maxOutput, minimumLong);
    }
  }
}
