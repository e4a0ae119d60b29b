/**
  Recorded sessions and their replay: which history each assistant turn is asked with, with which output budget,
  and how many turns a limited replay or a warm-up collects.
 */
module Replay {
  import opened Common

  const ASSISTANT := "assistant"

  /** A recorded message. JSON values are represented by their compact text; other fields may be null. */
  datatype Message = Message(role: string, content: Option<string>, toolCallsJson: Option<string>,
                             toolCalls: Option<string>, extra: map<string, Option<string>>)

  /** The message as it is sent: null fields dropped and the encoded tool calls, if any, put in place. */
  datatype SentMessage = SentMessage(role: string, content: Option<string>, toolCalls: Option<string>,
                                     extra: map<string, string>)

  datatype Trajectory = Trajectory(sessionId: string, framework: string, messages: seq<Message>)

  datatype Served = Served(started: real, firstTokenAt: real, completed: real,
                           promptTokens: nat, cachedTokens: nat, completionTokens: nat,
                           contentSha: string, decodeGaps: seq<real>)

  /** The answer of one request: either an error or measurements, never both. */
  datatype Outcome = Failed(error: string) | Success(served: Served)

  datatype Request = Request(requestId: string, sessionId: string, assistantTurn: nat, messageIndex: nat,
                             history: seq<SentMessage>, requestedOutput: int, outcome: Outcome)

  function OpenAiMessage(m: Message): SentMessage {
    SentMessage(
      m.role, m.content,
      if m.toolCallsJson.Some? && m.toolCallsJson.value != "" then m.toolCallsJson else m.toolCalls,
      map k | k in m.extra && m.extra[k].Some? :: m.extra[k].value)
  }

  /** About four characters per token, at least eight, at most the configured maximum. */
  function OutputBudget(m: Message, maximum: int): int {
    var contentLength := |m.content.GetOr("")|;
    var toolLength := |m.toolCallsJson.GetOr("")| + |m.toolCalls.GetOr("")|;
    Min(Max(CeilDiv(contentLength + toolLength, 4), 8), maximum)
  }

  function RequestId(sessionId: string, turn: nat): string {
    sessionId + ":" + Decimal(turn)
  }

  /** The request identifier names its session and turn uniquely, whatever characters the session id holds. */
  lemma RequestIdInjective(s1: string, t1: nat, s2: string, t2: nat)
    ensures RequestId(s1, t1) == RequestId(s2, t2) <==> s1 == s2 && t1 == t2
  {
    if RequestId(s1, t1) == RequestId(s2, t2) {
      var id, d1, d2 := RequestId(s1, t1), Decimal(t1), Decimal(t2);
      DecimalRoundTrip(t1);
      DecimalRoundTrip(t2);
      LastColon(s1, t1);
      LastColon(s2, t2);
      assert |s1| == |s2|;
      assert id[..|s1|] == s1 && id[..|s2|] == s2;
      assert id[|s1| + 1..] == d1 && id[|s2| + 1..] == d2;
    }
  }

  lemma LastColon(s: string, turn: nat)
    ensures RequestId(s, turn)[|s|] == ':'
    ensures forall i :: |s| < i < |RequestId(s, turn)| ==> RequestId(s, turn)[i] != ':'
  {
    DecimalRoundTrip(turn);
    forall i | |s| < i < |RequestId(s, turn)| ensures RequestId(s, turn)[i] != ':' {
      assert RequestId(s, turn)[i] == Decimal(turn)[i - |s| - 1];
      assert Decimal(turn)[i - |s| - 1] in Decimal(turn);
    }
  }

  // ---- the turns of a session ------------------------------------------------------

  /** The positions of the assistant messages, in order. */
  function AssistantPositions(messages: seq<Message>): (p: seq<nat>)
    ensures forall k :: 0 <= k < |p| ==> p[k] < |messages| && messages[p[k]].role == ASSISTANT
  {
    if messages == [] then []
    else
      var k := |messages| - 1;
      AssistantPositions(messages[..k]) + (if messages[k].role == ASSISTANT then [k] else [])
  }

  function Turns(t: Trajectory): nat {
    |AssistantPositions(t.messages)|
  }

  lemma {:induction false} AssistantPositionsMeaning(messages: seq<Message>)
    ensures var p := AssistantPositions(messages);
            (forall j, k :: 0 <= j < k < |p| ==> p[j] < p[k])
            && (forall i: nat :: i < |messages| && messages[i].role == ASSISTANT ==> i in p)
  {
    if messages == [] {
    } else {
      var k := |messages| - 1;
      AssistantPositionsMeaning(messages[..k]);
      var front, all := AssistantPositions(messages[..k]), AssistantPositions(messages);
      assert all == front + (if messages[k].role == ASSISTANT then [k] else []);
      hide AssistantPositions;
      forall i: nat | i < |messages| && messages[i].role == ASSISTANT ensures i in all {
        if i < k {
          assert messages[..k][i] == messages[i];
          assert i in front;
        } else {
          assert all[|all| - 1] == k;
        }
      }
    }
  }

  function SentHistory(messages: seq<Message>): seq<SentMessage> {
    MapSeq(OpenAiMessage, messages)
  }

  /**
    Request `k` of a session: it is sent everything recorded before the k-th assistant message, and nothing of what
    the server answered.
   */
  function RequestAt(t: Trajectory, k: nat, maxOutput: int, outcome: Outcome): Request
    requires k < Turns(t)
  {
    var at := AssistantPositions(t.messages)[k];
    Request(RequestId(t.sessionId, k), t.sessionId, k, at, SentHistory(t.messages[..at]),
            OutputBudget(t.messages[at], maxOutput), outcome)
  }

  // ---- what a request says ------------------------------------------------------------------

  function IsAssistant(): Message -> bool {
    (m: Message) => m.role == "assistant"
  }

  /** The message as recorded, without null fields; encoded tool calls, where there are any, stand for the tool calls. */
  ghost predicate SentAs(m: Message, sent: SentMessage) {
    sent.role == m.role && sent.content == m.content
    && (m.toolCallsJson == None || m.toolCallsJson == Some("") ==> sent.toolCalls == m.toolCalls)
    && (forall text :: m.toolCallsJson == Some(text) && text != "" ==> sent.toolCalls == Some(text))
    && forall key, value :: key in sent.extra && sent.extra[key] == value <==> key in m.extra && m.extra[key] == Some(value)
  }

  /** A quarter of the recorded characters, rounded up, then at least eight, then at most the configured maximum. */
  ghost predicate IsBudget(m: Message, maximum: int, budget: int) {
    var characters := |m.content.GetOr("")| + |m.toolCallsJson.GetOr("")| + |m.toolCalls.GetOr("")|;
    budget <= maximum
    && (budget < maximum ==> budget >= 8 && 4 * budget >= characters)
    && (budget > 8 ==> 4 * (budget - 1) < characters)
    && (budget < 8 ==> budget == maximum)
  }

  /** The session, a colon and the number of the turn in decimal digits. */
  ghost predicate IsIdOf(id: string, session: string, turn: nat) {
    |id| > |session| + 1 && id[..|session|] == session && id[|session|] == ':'
    && (forall i :: |session| < i < |id| ==> '0' <= id[i] <= '9')
    && ParseDecimal(id[|session| + 1..]) == turn
    && (id[|session| + 1] == '0' ==> |id| == |session| + 2)
  }

  lemma BudgetIs(m: Message, maximum: int)
    ensures IsBudget(m, maximum, OutputBudget(m, maximum))
  {
    var characters := |m.content.GetOr("")| + |m.toolCallsJson.GetOr("")| + |m.toolCalls.GetOr("")|;
    assert 4 * (CeilDiv(characters, 4) - 1) < characters <= 4 * CeilDiv(characters, 4) || characters == 0;
  }

  lemma IdIs(session: string, turn: nat)
    ensures IsIdOf(RequestId(session, turn), session, turn)
  {
    var id, digits := RequestId(session, turn), Decimal(turn);
    DecimalRoundTrip(turn);
    DecimalHasNoLeadingZero(turn);
    LastColon(session, turn);
    assert id[|session| + 1..] == digits;
    forall i | |session| < i < |id| ensures '0' <= id[i] <= '9' {
      assert id[i] == digits[i - |session| - 1] && digits[i - |session| - 1] in digits;
    }
  }

  lemma {:induction false} PositionsCount(messages: seq<Message>)
    ensures |AssistantPositions(messages)| == Count(IsAssistant(), messages)
  {
    if messages == [] {
    } else {
      PositionsCount(messages[..|messages| - 1]);
    }
  }

  lemma {:induction false} TurnsInFront(messages: seq<Message>, k: nat)
    requires k < |AssistantPositions(messages)|
    ensures |AssistantPositions(messages[..AssistantPositions(messages)[k]])| == k
  {
    var n := |messages| - 1;
    var front := messages[..n];
    var p := AssistantPositions(front);
    assert AssistantPositions(messages) == p + (if messages[n].role == ASSISTANT then [n] else []);
    if k < |p| {
      TurnsInFront(front, k);
      assert messages[..p[k]] == front[..p[k]];
    }
  }

  /**
    Request `k` of a session stands at the message of the session's k-th assistant turn, with exactly `k` such turns in
    front; it sends the messages in front of it one for one, and asks for the recorded length of the turn.
   */
  lemma RequestMeans(t: Trajectory, k: nat, maxOutput: int, outcome: Outcome)
    requires k < Turns(t)
    ensures var r := RequestAt(t, k, maxOutput, outcome);
            r.messageIndex < |t.messages| && t.messages[r.messageIndex].role == "assistant"
            && Count(IsAssistant(), t.messages[..r.messageIndex]) == k == r.assistantTurn
            && |r.history| == r.messageIndex
            && (forall i :: 0 <= i < |r.history| ==> SentAs(t.messages[i], r.history[i]))
            && IsBudget(t.messages[r.messageIndex], maxOutput, r.requestedOutput)
            && IsIdOf(r.requestId, t.sessionId, k) && r.sessionId == t.sessionId && r.outcome == outcome
    ensures Turns(t) == Count(IsAssistant(), t.messages)
  {
    var at := AssistantPositions(t.messages)[k];
    PositionsCount(t.messages);
    PositionsCount(t.messages[..at]);
    TurnsInFront(t.messages, k);
    BudgetIs(t.messages[at], maxOutput);
    IdIs(t.sessionId, k);
    hide IsBudget, IsIdOf, OutputBudget, RequestId, Count, AssistantPositions;
    var history := RequestAt(t, k, maxOutput, outcome).history;
    forall i | 0 <= i < |history| ensures SentAs(t.messages[i], history[i]) {
      SentIs(t.messages[i]);
    }
  }

  lemma SentIs(m: Message)
    ensures SentAs(m, OpenAiMessage(m))
  {
  }

  /** The first `turns` requests of a session, for arbitrary answers of the server. */
  function ReplayOf(t: Trajectory, maxOutput: int, turns: nat, answer: nat -> Outcome): seq<Request>
    requires turns <= Turns(t)
  {
    seq(turns, k requires 0 <= k < turns => RequestAt(t, k, maxOutput, answer(k)))
  }

  // ---- the replay loop ----------------------------------------------------------------

  method ReplayTrajectory(t: Trajectory, maxOutput: int, limit: Option<nat>, answer: nat -> Outcome)
    returns (results: seq<Request>)
    ensures results == ReplayOf(t, maxOutput,
                                if limit.Some? then Min(limit.value, Turns(t)) else Turns(t), answer)
  {
    var history: seq<SentMessage> := [];
    results := [];
    var assistantTurn := 0;
    for i := 0 to |t.messages|
      invariant history == SentHistory(t.messages[..i])
      invariant assistantTurn == |AssistantPositions(t.messages[..i])| <= Turns(t)
      invariant limit.Some? ==> assistantTurn <= limit.value
      invariant results == ReplayOf(t, maxOutput, assistantTurn, answer)
    {
      var recorded := t.messages[i];
      PositionsStep(t.messages, i);
      PositionsPrefix(t.messages, i + 1);
      if recorded.role == ASSISTANT {
        if limit.Some? && assistantTurn >= limit.value {
          return;
        }
        var result := Request(RequestId(t.sessionId, assistantTurn), t.sessionId, assistantTurn, i, history,
                              OutputBudget(recorded, maxOutput), answer(assistantTurn));
        PositionAt(t.messages, i);
        results := results + [result];
        ExtendReplay(t, maxOutput, assistantTurn, answer);
        assistantTurn := assistantTurn + 1;
      }
      history := history + [OpenAiMessage(recorded)];
      HistoryStep(t.messages, i);
    }
    assert t.messages[..|t.messages|] == t.messages;
  }

  lemma HistoryStep(messages: seq<Message>, i: nat)
    requires i < |messages|
    ensures SentHistory(messages[..i + 1]) == SentHistory(messages[..i]) + [OpenAiMessage(messages[i])]
  {
    hide OpenAiMessage;
    assert messages[..i + 1] == messages[..i] + [messages[i]];
  }

  lemma ExtendReplay(t: Trajectory, maxOutput: int, k: nat, answer: nat -> Outcome)
    requires k < Turns(t)
    ensures ReplayOf(t, maxOutput, k + 1, answer)
         == ReplayOf(t, maxOutput, k, answer) + [RequestAt(t, k, maxOutput, answer(k))]
  {
    hide RequestAt;
  }

  lemma PositionsStep(messages: seq<Message>, i: nat)
    requires i < |messages|
    ensures AssistantPositions(messages[..i + 1])
         == AssistantPositions(messages[..i]) + (if messages[i].role == ASSISTANT then [i] else [])
  {
    assert messages[..i + 1][..i] == messages[..i];
  }

  lemma {:induction false} PositionsPrefix(messages: seq<Message>, i: nat)
    requires i <= |messages|
    ensures AssistantPositions(messages[..i]) <= AssistantPositions(messages)
    decreases |messages| - i
  {
    if i < |messages| {
      PositionsStep(messages, i);
      PositionsPrefix(messages, i + 1);
    } else {
      assert messages[..i] == messages;
    }
  }

  /** An assistant message is the turn numbered by the assistant messages before it. */
  lemma PositionAt(messages: seq<Message>, i: nat)
    requires i < |messages| && messages[i].role == ASSISTANT
    ensures var k := |AssistantPositions(messages[..i])|;
            k < |AssistantPositions(messages)| && AssistantPositions(messages)[k] == i
  {
    PositionsStep(messages, i);
    PositionsPrefix(messages, i + 1);
  }

  /** Whatever two servers answer, a session asks both of them the same questions. */
  lemma HistoryIgnoresAnswers(t: Trajectory, maxOutput: int, one: nat -> Outcome, other: nat -> Outcome, k: nat)
    requires k < Turns(t)
    ensures ReplayOf(t, maxOutput, Turns(t), one)[k].(outcome := other(k))
         == ReplayOf(t, maxOutput, Turns(t), other)[k]
  {
    hide OpenAiMessage, OutputBudget;
    var a := RequestAt(t, k, maxOutput, one(k));
    assert ReplayOf(t, maxOutput, Turns(t), one)[k] == a;
    assert a.(outcome := other(k)) == RequestAt(t, k, maxOutput, other(k));
  }

  /** Each turn's history is a proper prefix of every later turn's history. */
  lemma HistoriesNest(t: Trajectory, maxOutput: int, answer: nat -> Outcome, j: nat, k: nat)
    requires j < k < Turns(t)
    ensures ReplayOf(t, maxOutput, Turns(t), answer)[j].history < ReplayOf(t, maxOutput, Turns(t), answer)[k].history
  {
    hide OpenAiMessage, OutputBudget;
    AssistantPositionsMeaning(t.messages);
    var p := AssistantPositions(t.messages);
    assert ReplayOf(t, maxOutput, Turns(t), answer)[j] == RequestAt(t, j, maxOutput, answer(j));
    assert ReplayOf(t, maxOutput, Turns(t), answer)[k] == RequestAt(t, k, maxOutput, answer(k));
    HistoryPrefix(t.messages, p[j], p[k]);
  }

  lemma HistoryPrefix(messages: seq<Message>, i: nat, j: nat)
    requires i < j <= |messages|
    ensures SentHistory(messages[..i]) < SentHistory(messages[..j])
  {
    hide OpenAiMessage;
    assert SentHistory(messages[..i]) == SentHistory(messages[..j])[..i];
  }

  // ---- warm-up ---------------------------------------------------------------------------

  function TotalTurns(trajectories: seq<Trajectory>): nat {
    if trajectories == [] then 0
    else TotalTurns(trajectories[..|trajectories| - 1]) + Turns(trajectories[|trajectories| - 1])
  }

  /** `validate_warmup_capacity`: does the cohort hold enough assistant turns? */
  method ValidateWarmupCapacity(trajectories: seq<Trajectory>, required: nat) returns (ok: bool)
    ensures ok <==> TotalTurns(trajectories) >= required
  {
    var available := 0;
    for i := 0 to |trajectories|
      invariant available == TotalTurns(trajectories[..i])
    {
      var count := 0;
      var messages := trajectories[i].messages;
      for m := 0 to |messages|
        invariant count == |AssistantPositions(messages[..m])|
      {
        PositionsStep(messages, m);
        if messages[m].role == ASSISTANT {
          count := count + 1;
        }
      }
      assert messages[..|messages|] == messages;
      assert trajectories[..i + 1][..i] == trajectories[..i];
      available := available + count;
    }
    assert trajectories[..|trajectories|] == trajectories;
    ok := available >= required;
  }

  datatype WarmupResult = Collected(requests: seq<Request>) | TooFewTurns(requests: seq<Request>) | FailedTurns

  /** The complete replays of all sessions, one after another. */
  function AllReplays(trajectories: seq<Trajectory>, maxOutput: int, answer: (nat, nat) -> Outcome): (all: seq<Request>)
    ensures |all| == TotalTurns(trajectories)
  {
    if trajectories == [] then []
    else
      var last := |trajectories| - 1;
      AllReplays(trajectories[..last], maxOutput, answer)
      + ReplayOf(trajectories[last], maxOutput, Turns(trajectories[last]), (k: nat) => answer(last, k))
  }

  lemma ReplayCut(t: Trajectory, maxOutput: int, turns: nat, answer: nat -> Outcome)
    requires turns <= Turns(t)
    ensures |ReplayOf(t, maxOutput, turns, answer)| == turns && |ReplayOf(t, maxOutput, Turns(t), answer)| == Turns(t)
    ensures ReplayOf(t, maxOutput, turns, answer) == ReplayOf(t, maxOutput, Turns(t), answer)[..turns]
  {
    hide RequestAt;
  }

  lemma WarmupStart(trajectories: seq<Trajectory>, maxOutput: int, answer: (nat, nat) -> Outcome)
    ensures AllReplays(trajectories[..0], maxOutput, answer) == [] && TotalTurns(trajectories[..0]) == 0
  {
  }

  /** One session further, cut after its first `turns` requests. */
  lemma WarmupNext(trajectories: seq<Trajectory>, maxOutput: int, answer: (nat, nat) -> Outcome, i: nat, turns: nat)
    requires i < |trajectories| && turns <= Turns(trajectories[i])
    ensures |ReplayOf(trajectories[i], maxOutput, Turns(trajectories[i]), (k: nat) => answer(i, k))| == Turns(trajectories[i])
    ensures TotalTurns(trajectories[..i + 1]) == TotalTurns(trajectories[..i]) + Turns(trajectories[i])
    ensures AllReplays(trajectories[..i + 1], maxOutput, answer)[..TotalTurns(trajectories[..i]) + turns]
         == AllReplays(trajectories[..i], maxOutput, answer)
            + ReplayOf(trajectories[i], maxOutput, Turns(trajectories[i]), (k: nat) => answer(i, k))[..turns]
  {
    hide RequestAt;
    assert trajectories[..i + 1][..i] == trajectories[..i];
  }

  ghost predicate NoFailure(requests: seq<Request>) {
    forall q :: q in requests ==> q.outcome.Success?
  }

  /**
    The warm-up loop. It collects exactly the first `turns` requests of the complete replays, and succeeds exactly
    when the cohort is large enough and none of those requests failed.
   */
  method RunWarmup(trajectories: seq<Trajectory>, turns: nat, maxOutput: int, answer: (nat, nat) -> Outcome)
    returns (r: WarmupResult)
    ensures var all := AllReplays(trajectories, maxOutput, answer);
            (r.TooFewTurns? <==> |all| < turns)
            && (r.TooFewTurns? ==> r.requests == all)
            && (r.Collected? <==> |all| >= turns && NoFailure(all[..turns]))
            && (r.Collected? ==> r.requests == all[..turns])
  {
    hide AllReplays, ReplayOf, TotalTurns;
    var requests: seq<Request> := [];
    WarmupStart(trajectories, maxOutput, answer);
    ghost var all := AllReplays(trajectories, maxOutput, answer);
    var i := 0;
    while i < |trajectories| && |requests| < turns
      invariant i <= |trajectories|
      invariant |requests| == Min(turns, TotalTurns(trajectories[..i]))
      invariant requests == AllReplays(trajectories[..i], maxOutput, answer)[..|requests|]
    {
      var remaining := turns - |requests|;
      var t := trajectories[i];
      var more := ReplayTrajectory(t, maxOutput, Some(remaining), (k: nat) => answer(i, k));
      ReplayCut(t, maxOutput, Min(remaining, Turns(t)), (k: nat) => answer(i, k));
      WarmupNext(trajectories, maxOutput, answer, i, |more|);
      requests := requests + more;
      i := i + 1;
    }
    AllReplaysPrefix(trajectories, maxOutput, answer, i);
    assert trajectories[..|trajectories|] == trajectories;
    if |requests| < turns {
      return TooFewTurns(requests);
    }
    assert requests == all[..turns];
    var failed := 0;
    for q := 0 to |requests|
      invariant failed == 0 <==> forall j :: 0 <= j < q ==> requests[j].outcome.Success?
      invariant failed >= 0
    {
      if requests[q].outcome.Failed? {
        failed := failed + 1;
      }
    }
    if failed != 0 {
      return FailedTurns;
    }
    r := Collected(requests);
  }

  lemma {:induction false} AllReplaysPrefix(trajectories: seq<Trajectory>, maxOutput: int, answer: (nat, nat) -> Outcome, i: nat)
    requires i <= |trajectories|
    ensures AllReplays(trajectories[..i], maxOutput, answer) <= AllReplays(trajectories, maxOutput, answer)
    decreases |trajectories| - i
  {
    if i < |trajectories| {
      assert trajectories[..i + 1][..i] == trajectories[..i];
      AllReplaysPrefix(trajectories, maxOutput, answer, i + 1);
    } else {
      assert trajectories[..i] == trajectories;
    }
  }

  /** A cohort that passes the capacity check yields exactly the requested warm-up turns, unless a turn fails. */
  method ValidatedWarmup(trajectories: seq<Trajectory>, turns: nat, maxOutput: int, answer: (nat, nat) -> Outcome)
    returns (accepted: bool, r: WarmupResult)
    ensures accepted ==> r.FailedTurns? || (r.Collected? && |r.requests| == turns)
    ensures accepted && r.FailedTurns? ==>
              var all := AllReplays(trajectories, maxOutput, answer);
              |all| >= turns && !NoFailure(all[..turns])
  {
    accepted := ValidateWarmupCapacity(trajectories, turns);
    r := RunWarmup(trajectories, turns, maxOutput, answer);
  }
}
