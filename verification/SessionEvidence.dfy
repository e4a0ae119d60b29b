/**
  The acceptance oracle: did every session replay every recorded turn, once and in order, and does every formatted
  prompt fit the serving context?
 */
module SessionEvidence {
  import opened Common
  import opened Replay

  // ---- completeness -------------------------------------------------------------

  /** `request.get("error")`: an absent error and an empty one both count as none. */
  function ErrorText(r: Request): string {
    if r.outcome.Failed? then r.outcome.error else ""
  }

  function ExpectedTurns(t: Trajectory): seq<string> {
    seq(Turns(t), k requires 0 <= k < Turns(t) => RequestId(t.sessionId, k))
  }

  datatype Problem =
    | RequestError(requestId: string, text: string)
    | DuplicateSessions
    | WrongTurns(sessionId: string)
    | UnexpectedSessions
    | DoesNotFit(requestId: string)
    | TooShort(sessionId: string)

  datatype Verdict = Verdict(problems: seq<Problem>, expectedIds: seq<string>, expectedTurns: nat) {
    predicate Passed() {
      problems == []
    }
  }

  function SessionIds(trajectories: seq<Trajectory>): seq<string> {
    MapSeq((t: Trajectory) => t.sessionId, trajectories)
  }

  function InSession(s: string): Request -> bool {
    (r: Request) => r.sessionId == s
  }

  /** The requests of one session, in the order of the log. */
  function Project(requests: seq<Request>, s: string): seq<Request> {
    Filter(InSession(s), requests)
  }

  function Ids(requests: seq<Request>): seq<string> {
    MapSeq((r: Request) => r.requestId, requests)
  }

  function Observed(requests: seq<Request>, s: string): seq<string> {
    Ids(Project(requests, s))
  }

  /** The dict of expected turns; a repeated session id keeps its first position and its last value. */
  function ExpectedMap(trajectories: seq<Trajectory>): map<string, seq<string>> {
    if trajectories == [] then map[]
    else
      var last := trajectories[|trajectories| - 1];
      ExpectedMap(trajectories[..|trajectories| - 1])[last.sessionId := ExpectedTurns(last)]
  }

  function ErrorProblems(requests: seq<Request>): seq<Problem> {
    if requests == [] then []
    else
      var last := requests[|requests| - 1];
      ErrorProblems(requests[..|requests| - 1])
      + (if ErrorText(last) != "" then [RequestError(last.requestId, ErrorText(last))] else [])
  }

  /** A session without any observed request never matches, not even an empty expectation. */
  predicate Matches(requests: seq<Request>, s: string, expected: seq<string>) {
    Project(requests, s) != [] && Observed(requests, s) == expected
  }

  function TurnProblems(order: seq<string>, expected: map<string, seq<string>>, requests: seq<Request>): seq<Problem>
    requires forall s :: s in order ==> s in expected
  {
    if order == [] then []
    else
      var s := order[|order| - 1];
      TurnProblems(order[..|order| - 1], expected, requests)
      + (if Matches(requests, s, expected[s]) then [] else [WrongTurns(s)])
  }

  function ExpectedIds(order: seq<string>, expected: map<string, seq<string>>): seq<string>
    requires forall s :: s in order ==> s in expected
  {
    Flatten(seq(|order|, i requires 0 <= i < |order| => expected[order[i]]))
  }

  lemma {:induction false} ExpectedKeys(trajectories: seq<Trajectory>)
    ensures ExpectedMap(trajectories).Keys == Elements(SessionIds(trajectories))
  {
    hide ExpectedTurns;
    if trajectories == [] {
    } else {
      var front, last := trajectories[..|trajectories| - 1], trajectories[|trajectories| - 1];
      ExpectedKeys(front);
      assert SessionIds(trajectories) == SessionIds(front) + [last.sessionId];
    }
  }

  lemma OrderIsKnown(trajectories: seq<Trajectory>)
    ensures forall s :: s in FirstOccurrences(SessionIds(trajectories)) <==> s in ExpectedMap(trajectories)
  {
    hide ExpectedTurns, ExpectedMap;
    var order := FirstOccurrences(SessionIds(trajectories));
    ExpectedKeys(trajectories);
    FirstOccurrencesSpec(SessionIds(trajectories));
    assert forall s :: s in order <==> s in Elements(order);
  }

  lemma {:induction false} ExpectedValue(trajectories: seq<Trajectory>, i: nat)
    requires i < |trajectories| && Distinct(SessionIds(trajectories))
    ensures trajectories[i].sessionId in ExpectedMap(trajectories)
    ensures ExpectedMap(trajectories)[trajectories[i].sessionId] == ExpectedTurns(trajectories[i])
  {
    hide ExpectedTurns;
    var k := |trajectories| - 1;
    var front := trajectories[..k];
    if i == k {
    } else {
      assert SessionIds(front) == SessionIds(trajectories)[..k];
      ExpectedValue(front, i);
      assert SessionIds(trajectories)[i] != SessionIds(trajectories)[k];
    }
  }

  function VerdictOf(trajectories: seq<Trajectory>, requests: seq<Request>): Verdict {
    var order := FirstOccurrences(SessionIds(trajectories));
    var expected := ExpectedMap(trajectories);
    OrderIsKnown(trajectories);
    Verdict(
      ErrorProblems(requests)
      + (if |expected| != |trajectories| then [DuplicateSessions] else [])
      + TurnProblems(order, expected, requests)
      + (if HasForeign(expected.Keys, requests) then [UnexpectedSessions] else []),
      ExpectedIds(order, expected),
      |ExpectedIds(order, expected)|)
  }

  predicate HasForeign(expected: set<string>, requests: seq<Request>) {
    exists r :: r in requests && r.sessionId !in expected
  }

  method CollectExpected(trajectories: seq<Trajectory>) returns (order: seq<string>, expected: map<string, seq<string>>)
    ensures order == FirstOccurrences(SessionIds(trajectories))
    ensures expected == ExpectedMap(trajectories)
  {
    hide ExpectedTurns;
    order, expected := [], map[];
    for i := 0 to |trajectories|
      invariant expected == ExpectedMap(trajectories[..i])
      invariant order == FirstOccurrences(SessionIds(trajectories[..i]))
    {
      var t := trajectories[i];
      assert trajectories[..i + 1][..i] == trajectories[..i];
      ghost var ids := SessionIds(trajectories[..i]);
      assert SessionIds(trajectories[..i + 1]) == ids + [t.sessionId];
      assert (ids + [t.sessionId])[..i] == ids;
      if t.sessionId !in order {
        order := order + [t.sessionId];
      }
      expected := expected[t.sessionId := ExpectedTurns(t)];
    }
    assert trajectories[..|trajectories|] == trajectories;
  }

  ghost predicate Observes(observed: map<string, seq<string>>, requests: seq<Request>) {
    (forall s :: s in observed <==> s in Sessions(requests))
    && (forall s :: s in observed ==> observed[s] == Observed(requests, s))
  }

  method CollectObserved(requests: seq<Request>) returns (observed: map<string, seq<string>>, problems: seq<Problem>)
    ensures Observes(observed, requests)
    ensures problems == ErrorProblems(requests)
  {
    observed, problems := map[], [];
    for i := 0 to |requests|
      invariant Observes(observed, requests[..i])
      invariant problems == ErrorProblems(requests[..i])
    {
      var r := requests[i];
      assert requests[..i + 1] == requests[..i] + [r];
      assert requests[..i + 1][..i] == requests[..i];
      ObserveNext(requests[..i], r);
      var earlier := if r.sessionId in observed then observed[r.sessionId] else [];
      observed := observed[r.sessionId := earlier + [r.requestId]];
      if ErrorText(r) != "" {
        problems := problems + [RequestError(r.requestId, ErrorText(r))];
      }
    }
    assert requests[..|requests|] == requests;
  }

  lemma SessionOccurs(requests: seq<Request>, s: string)
    ensures s in Sessions(requests) <==> exists r :: r in requests && r.sessionId == s
  {
    if s in Sessions(requests) {
      var i :| 0 <= i < |requests| && Sessions(requests)[i] == s;
      assert requests[i] in requests;
    }
    if r :| r in requests && r.sessionId == s {
      var i :| 0 <= i < |requests| && requests[i] == r;
      assert Sessions(requests)[i] == s;
    }
  }

  lemma UnexpectedIffForeign(observed: map<string, seq<string>>, expected: set<string>, requests: seq<Request>)
    requires Observes(observed, requests)
    ensures observed.Keys - expected != {} <==> HasForeign(expected, requests)
  {
    if s :| s in observed.Keys - expected {
      SessionOccurs(requests, s);
    }
    if r :| r in requests && r.sessionId !in expected {
      SessionOccurs(requests, r.sessionId);
      assert r.sessionId in observed.Keys - expected;
    }
  }

  method CompareTurns(order: seq<string>, expected: map<string, seq<string>>, observed: map<string, seq<string>>,
                      ghost requests: seq<Request>) returns (problems: seq<Problem>)
    requires forall s :: s in order ==> s in expected
    requires Observes(observed, requests)
    ensures problems == TurnProblems(order, expected, requests)
  {
    problems := [];
    for i := 0 to |order|
      invariant problems == TurnProblems(order[..i], expected, requests)
    {
      var s := order[i];
      assert order[..i + 1][..i] == order[..i];
      SessionSeen(requests, s);
      if s !in observed || observed[s] != expected[s] {
        problems := problems + [WrongTurns(s)];
      }
    }
    assert order[..|order|] == order;
  }

  /** The checker: expectations, observations, and then the comparison of the two. */
  method CompleteSessions(trajectories: seq<Trajectory>, requests: seq<Request>) returns (v: Verdict)
    ensures v == VerdictOf(trajectories, requests)
  {
    hide ExpectedTurns, ExpectedMap, Observed, TurnProblems, ErrorProblems, FirstOccurrences, SessionIds, ExpectedIds,
      Sessions, Project, HasForeign, Observes;
    var order, expected := CollectExpected(trajectories);
    var observed, problems := CollectObserved(requests);
    OrderIsKnown(trajectories);
    var duplicate: seq<Problem> := if |expected| != |trajectories| then [DuplicateSessions] else [];
    var wrong := CompareTurns(order, expected, observed, requests);
    UnexpectedIffForeign(observed, expected.Keys, requests);
    var foreign: seq<Problem> := if observed.Keys - expected.Keys != {} then [UnexpectedSessions] else [];
    problems := problems + duplicate + wrong + foreign;
    v := Verdict(problems, ExpectedIds(order, expected), |ExpectedIds(order, expected)|);
  }

  function Sessions(requests: seq<Request>): seq<string> {
    MapSeq((r: Request) => r.sessionId, requests)
  }

  lemma ProjectNext(requests: seq<Request>, r: Request)
    ensures forall s :: Project(requests + [r], s) == Project(requests, s) + (if s == r.sessionId then [r] else [])
  {
    forall s ensures Project(requests + [r], s) == Project(requests, s) + (if s == r.sessionId then [r] else []) {
      FilterAppend(InSession(s), requests, [r]);
      assert [r][1..] == [];
      assert Filter(InSession(s), [r]) == if s == r.sessionId then [r] else [];
    }
  }

  lemma ObserveNext(requests: seq<Request>, r: Request)
    ensures Sessions(requests + [r]) == Sessions(requests) + [r.sessionId]
    ensures Observed(requests + [r], r.sessionId) == Observed(requests, r.sessionId) + [r.requestId]
    ensures forall s :: s != r.sessionId ==> Observed(requests + [r], s) == Observed(requests, s)
    ensures r.sessionId !in Sessions(requests) ==> Observed(requests, r.sessionId) == []
  {
    ProjectNext(requests, r);
    SessionSeen(requests, r.sessionId);
  }

  lemma SessionSeen(requests: seq<Request>, s: string)
    ensures Project(requests, s) != [] <==> s in Sessions(requests)
  {
    if Project(requests, s) != [] {
      var r := Project(requests, s)[0];
      FilterMember(InSession(s), requests, r);
      var i :| 0 <= i < |requests| && requests[i] == r;
      assert Sessions(requests)[i] == s;
    }
    if s in Sessions(requests) {
      var i :| 0 <= i < |requests| && Sessions(requests)[i] == s;
      FilterMember(InSession(s), requests, requests[i]);
    }
  }

  // ---- exactly when a log is complete --------------------------------------------

  ghost predicate Complete(trajectories: seq<Trajectory>, requests: seq<Request>) {
    Distinct(SessionIds(trajectories))
    && (forall r :: r in requests ==> ErrorText(r) == "" && r.sessionId in SessionIds(trajectories))
    && (forall t :: t in trajectories ==> Turns(t) > 0 && Observed(requests, t.sessionId) == ExpectedTurns(t))
  }

  lemma {:induction false} ErrorProblemsEmpty(requests: seq<Request>)
    ensures ErrorProblems(requests) == [] <==> forall r :: r in requests ==> ErrorText(r) == ""
  {
    if requests == [] {
    } else {
      var front, last := requests[..|requests| - 1], requests[|requests| - 1];
      ErrorProblemsEmpty(front);
      assert requests == front + [last];
    }
  }

  lemma {:induction false} TurnProblemsEmpty(order: seq<string>, expected: map<string, seq<string>>, requests: seq<Request>)
    requires forall s :: s in order ==> s in expected
    ensures TurnProblems(order, expected, requests) == [] <==>
              forall s :: s in order ==> Matches(requests, s, expected[s])
  {
    if order == [] {
    } else {
      var front, last := order[..|order| - 1], order[|order| - 1];
      TurnProblemsEmpty(front, expected, requests);
      assert order == front + [last];
    }
  }

  /**
    The verdict over all inputs: it passes exactly when the session ids are distinct, nothing failed, no foreign
    session occurs, every session has a turn, and each session's own log is exactly its expected turns.
   */
  lemma PassesIffComplete(trajectories: seq<Trajectory>, requests: seq<Request>)
    ensures VerdictOf(trajectories, requests).Passed() <==> Complete(trajectories, requests)
  {
    hide ExpectedTurns, ExpectedMap, Observed, Matches;
    var ids := SessionIds(trajectories);
    var order, expected := FirstOccurrences(ids), ExpectedMap(trajectories);
    OrderIsKnown(trajectories);
    ExpectedKeys(trajectories);
    FirstOccurrencesSpec(ids);
    DistinctIffCardinality(ids);
    ErrorProblemsEmpty(requests);
    TurnProblemsEmpty(order, expected, requests);
    assert |expected| == |expected.Keys|;
    if Distinct(ids) {
      MatchesIffExpected(trajectories, requests);
    }
  }

  lemma MatchesIffExpected(trajectories: seq<Trajectory>, requests: seq<Request>)
    requires Distinct(SessionIds(trajectories))
    ensures forall s :: s in SessionIds(trajectories) ==> s in ExpectedMap(trajectories)
    ensures (forall s :: s in SessionIds(trajectories) ==> Matches(requests, s, ExpectedMap(trajectories)[s]))
       <==> forall t :: t in trajectories ==> Turns(t) > 0 && Observed(requests, t.sessionId) == ExpectedTurns(t)
  {
    hide ExpectedMap;
    var ids := SessionIds(trajectories);
    ExpectedKeys(trajectories);
    forall i | 0 <= i < |ids|
      ensures ids[i] in ExpectedMap(trajectories)
      ensures Matches(requests, ids[i], ExpectedMap(trajectories)[ids[i]])
              <==> Turns(trajectories[i]) > 0 && Observed(requests, ids[i]) == ExpectedTurns(trajectories[i])
    {
      ExpectedValue(trajectories, i);
      assert |Observed(requests, ids[i])| == |Project(requests, ids[i])|;
      assert |ExpectedTurns(trajectories[i])| == Turns(trajectories[i]);
    }
    forall t | t in trajectories ensures exists i :: 0 <= i < |trajectories| && trajectories[i] == t && ids[i] == t.sessionId {
    }
  }

  // ---- the verdict by positions in the log -----------------------------------------------------------

  /** These are the positions of the session's requests in the log, in order. */
  ghost predicate ArePositions(requests: seq<Request>, s: string, at: seq<nat>) {
    (forall j, k :: 0 <= j < k < |at| ==> at[j] < at[k])
    && forall i: nat :: i in at <==> i < |requests| && requests[i].sessionId == s
  }

  function PositionsOf(requests: seq<Request>, s: string): seq<nat> {
    if requests == [] then []
    else
      var k := |requests| - 1;
      PositionsOf(requests[..k], s) + (if requests[k].sessionId == s then [k] else [])
  }

  lemma {:induction false} PositionsProject(requests: seq<Request>, s: string)
    ensures ArePositions(requests, s, PositionsOf(requests, s))
    ensures |Project(requests, s)| == |PositionsOf(requests, s)|
    ensures forall k :: 0 <= k < |PositionsOf(requests, s)| ==>
              PositionsOf(requests, s)[k] < |requests|
              && Project(requests, s)[k] == requests[PositionsOf(requests, s)[k]]
  {
    if requests == [] {
    } else {
      var k := |requests| - 1;
      var front, last := requests[..k], requests[k];
      assert requests == front + [last];
      PositionsProject(front, s);
      ProjectNext(front, last);
      var p := PositionsOf(front, s);
      var all := PositionsOf(requests, s);
      assert all == p + (if last.sessionId == s then [k] else []);
      PositionsExtend(requests, s, p, all);
      hide Project, PositionsOf, ArePositions;
      forall i | 0 <= i < |all| ensures all[i] < |requests| && Project(requests, s)[i] == requests[all[i]] {
        if i < |p| {
          assert all[i] == p[i] && front[p[i]] == requests[p[i]];
        }
      }
    }
  }

  lemma PositionsExtend(requests: seq<Request>, s: string, p: seq<nat>, all: seq<nat>)
    requires requests != [] && ArePositions(requests[..|requests| - 1], s, p)
    requires all == p + (if requests[|requests| - 1].sessionId == s then [|requests| - 1] else [])
    ensures ArePositions(requests, s, all)
  {
    var k := |requests| - 1;
    var front := requests[..k];
    forall j | 0 <= j < |p| ensures p[j] < k {
      assert p[j] in p;
    }
    forall i: nat ensures i in all <==> i < |requests| && requests[i].sessionId == s {
      assert i in p <==> i < k && front[i].sessionId == s;
    }
  }

  lemma {:induction false} OnePositionList(a: seq<nat>, b: seq<nat>)
    requires forall j, k :: 0 <= j < k < |a| ==> a[j] < a[k]
    requires forall j, k :: 0 <= j < k < |b| ==> b[j] < b[k]
    requires forall i: nat :: i in a <==> i in b
    ensures a == b
    decreases |a|
  {
    if b != [] {
      assert b[|b| - 1] in b;
      assert b[|b| - 1] in a;
    }
    if a == [] {
    } else {
      var m, n := |a| - 1, |b| - 1;
      assert a[m] in b && b != [];
      assert b[n] in a;
      assert a[m] == b[n];
      forall i: nat ensures i in a[..m] <==> i in b[..n] {
        FrontMember(a, i);
        FrontMember(b, i);
      }
      OnePositionList(a[..m], b[..n]);
      assert a == a[..m] + [a[m]] && b == b[..n] + [b[n]];
    }
  }

  lemma FrontMember(a: seq<nat>, i: nat)
    requires a != [] && forall j, k :: 0 <= j < k < |a| ==> a[j] < a[k]
    ensures i in a[..|a| - 1] <==> i in a && i != a[|a| - 1]
  {
    assert a == a[..|a| - 1] + [a[|a| - 1]];
  }

  /** The session's requests in the log are its recorded turns: each once, in order, under the turn's own identifier. */
  ghost predicate TurnsInOrder(requests: seq<Request>, t: Trajectory, at: seq<nat>) {
    ArePositions(requests, t.sessionId, at)
    && |at| == Count(IsAssistant(), t.messages) > 0
    && forall k :: 0 <= k < |at| ==> at[k] < |requests| && IsIdOf(requests[at[k]].requestId, t.sessionId, k)
  }

  /** An identifier is spelled in one way only. */
  lemma OneIdOnly(id: string, session: string, turn: nat)
    ensures IsIdOf(id, session, turn) <==> id == RequestId(session, turn)
  {
    IdIs(session, turn);
    if IsIdOf(id, session, turn) {
      var digits := id[|session| + 1..];
      forall c | c in digits ensures '0' <= c <= '9' {
        var i :| 0 <= i < |digits| && digits[i] == c;
        assert id[|session| + 1 + i] == c;
      }
      hide Decimal, ParseDecimal;
      DecimalOfParse(digits);
      assert id == session + ":" + digits;
    }
  }

  lemma OwnTurnsIff(requests: seq<Request>, t: Trajectory)
    ensures Turns(t) > 0 && Observed(requests, t.sessionId) == ExpectedTurns(t)
            <==> exists at :: TurnsInOrder(requests, t, at)
  {
    hide RequestId, IsIdOf, Project, AssistantPositions, Count;
    PositionsCount(t.messages);
    PositionsProject(requests, t.sessionId);
    var own := PositionsOf(requests, t.sessionId);
    forall k: nat | k < |own|
      ensures IsIdOf(requests[own[k]].requestId, t.sessionId, k)
              <==> Observed(requests, t.sessionId)[k] == RequestId(t.sessionId, k)
    {
      OneIdOnly(requests[own[k]].requestId, t.sessionId, k);
    }
    if Turns(t) > 0 && Observed(requests, t.sessionId) == ExpectedTurns(t) {
      assert TurnsInOrder(requests, t, own);
    }
    if at :| TurnsInOrder(requests, t, at) {
      OnePositionList(at, own);
      assert forall k: nat :: k < |own| ==> Observed(requests, t.sessionId)[k] == RequestId(t.sessionId, k);
    }
  }

  /**
    The verdict by positions: a log passes exactly when session ids are distinct, no request has an error text or
    belongs to a session that was not asked for, and the requests of each session are its turns in order.
   */
  lemma PassesIffTurnsInOrder(trajectories: seq<Trajectory>, requests: seq<Request>)
    ensures VerdictOf(trajectories, requests).Passed()
            <==> (forall i, j :: 0 <= i < j < |trajectories| ==> trajectories[i].sessionId != trajectories[j].sessionId)
                 && (forall r :: r in requests ==>
                       (r.outcome.Failed? ==> r.outcome.error == "")
                       && exists t :: t in trajectories && t.sessionId == r.sessionId)
                 && forall t :: t in trajectories ==> exists at :: TurnsInOrder(requests, t, at)
  {
    hide VerdictOf, Observed, ExpectedTurns, TurnsInOrder, AssistantPositions;
    PassesIffComplete(trajectories, requests);
    forall t | t in trajectories
      ensures Turns(t) > 0 && Observed(requests, t.sessionId) == ExpectedTurns(t)
              <==> exists at :: TurnsInOrder(requests, t, at)
    {
      OwnTurnsIff(requests, t);
    }
    var ids := SessionIds(trajectories);
    forall r | r in requests
      ensures r.sessionId in ids <==> exists t :: t in trajectories && t.sessionId == r.sessionId
    {
      if r.sessionId in ids {
        var i :| 0 <= i < |ids| && ids[i] == r.sessionId;
        assert trajectories[i] in trajectories;
      }
      if t :| t in trajectories && t.sessionId == r.sessionId {
        var i :| 0 <= i < |trajectories| && trajectories[i] == t;
        assert ids[i] == r.sessionId;
      }
    }
    assert Distinct(ids)
        <==> forall i, j :: 0 <= i < j < |trajectories| ==> trajectories[i].sessionId != trajectories[j].sessionId by {
      forall i, j | 0 <= i < j < |trajectories|
        ensures ids[i] == trajectories[i].sessionId && ids[j] == trajectories[j].sessionId
      {
      }
    }
  }

  /** A session that recorded no assistant turn can never pass, even though nothing is expected of it. */
  lemma TurnlessSessionNeverPasses(trajectories: seq<Trajectory>, t: Trajectory, requests: seq<Request>)
    requires t in trajectories && Turns(t) == 0
    ensures !VerdictOf(trajectories, requests).Passed()
    ensures ExpectedTurns(t) == []
  {
    PassesIffComplete(trajectories, requests);
  }

  /** Only the order within each session matters: two logs with the same per-session logs get the same verdict. */
  lemma VerdictIgnoresInterleaving(trajectories: seq<Trajectory>, a: seq<Request>, b: seq<Request>)
    requires forall s :: Project(a, s) == Project(b, s)
    ensures VerdictOf(trajectories, a).Passed() <==> VerdictOf(trajectories, b).Passed()
  {
    hide VerdictOf, ExpectedTurns;
    PassesIffComplete(trajectories, a);
    PassesIffComplete(trajectories, b);
    forall r ensures r in a <==> r in b {
      FilterMember(InSession(r.sessionId), a, r);
      FilterMember(InSession(r.sessionId), b, r);
      assert Project(a, r.sessionId) == Project(b, r.sessionId);
    }
  }

  // ---- a complete log has every expected request exactly once ------------------------

  function ObservedAll(requests: seq<Request>, order: seq<string>): seq<seq<string>> {
    MapSeq((s: string) => Observed(requests, s), order)
  }

  lemma {:induction false} FlattenUpdate<T>(s: seq<seq<T>>, i: nat, x: seq<T>)
    requires i < |s|
    ensures multiset(Flatten(s[i := s[i] + x])) == multiset(Flatten(s)) + multiset(x)
  {
    if i == 0 {
      assert s[0 := s[0] + x][1..] == s[1..];
    } else {
      assert s[i := s[i] + x][1..] == s[1..][i - 1 := s[1..][i - 1] + x];
      FlattenUpdate(s[1..], i - 1, x);
    }
  }

  lemma {:induction false} FlattenEmpty(order: seq<string>)
    ensures Flatten(ObservedAll([], order)) == []
  {
    if order == [] {
    } else {
      FlattenEmpty(order[1..]);
      assert ObservedAll([], order)[1..] == ObservedAll([], order[1..]);
    }
  }

  /** Splitting a log by session loses and duplicates nothing. */
  lemma {:induction false} SplitBySession(requests: seq<Request>, order: seq<string>)
    requires Distinct(order) && forall r :: r in requests ==> r.sessionId in order
    ensures multiset(Flatten(ObservedAll(requests, order))) == multiset(Ids(requests))
  {
    if requests == [] {
      FlattenEmpty(order);
    } else {
      var front, last := requests[..|requests| - 1], requests[|requests| - 1];
      assert requests == front + [last];
      SplitBySession(front, order);
      ObserveNext(front, last);
      var i :| 0 <= i < |order| && order[i] == last.sessionId;
      var before := ObservedAll(front, order);
      assert ObservedAll(requests, order) == before[i := before[i] + [last.requestId]];
      FlattenUpdate(before, i, [last.requestId]);
      assert Ids(requests) == Ids(front) + [last.requestId];
    }
  }

  /** Passing means the log holds every expected request once and nothing else, so the counts agree too. */
  lemma PassingAccountsForEveryTurn(trajectories: seq<Trajectory>, requests: seq<Request>)
    requires VerdictOf(trajectories, requests).Passed()
    ensures multiset(Ids(requests)) == multiset(VerdictOf(trajectories, requests).expectedIds)
    ensures |requests| == VerdictOf(trajectories, requests).expectedTurns
  {
    hide ExpectedTurns, ExpectedMap;
    PassesIffComplete(trajectories, requests);
    var ids, expected := SessionIds(trajectories), ExpectedMap(trajectories);
    FirstOccurrencesSpec(ids);
    OrderIsKnown(trajectories);
    SplitBySession(requests, ids);
    forall i | 0 <= i < |ids| ensures ObservedAll(requests, ids)[i] == expected[ids[i]] {
      ExpectedValue(trajectories, i);
      assert trajectories[i] in trajectories;
    }
    assert ObservedAll(requests, ids) == seq(|ids|, i requires 0 <= i < |ids| => expected[ids[i]]);
    EqualMultisets(Ids(requests), ExpectedIds(ids, expected));
  }

  lemma EqualMultisets(a: seq<string>, b: seq<string>)
    requires multiset(a) == multiset(b)
    ensures |a| == |b|
  {
    assert |multiset(a)| == |a| && |multiset(b)| == |b|;
  }
}
