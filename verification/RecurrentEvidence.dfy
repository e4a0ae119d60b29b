/**
  Recurrent-restore evidence: server logs are read, possibly more than once and in any order, and joined with the
  requests of each session to show that recurrent state was really restored.
 */
module RecurrentEvidence {
  import opened Common
  import opened Replay
  import opened SessionEvidence

  /** A lookup decision of the server. `tokens` is absent when the logged value is not an integer. */
  datatype Event = Event(session: string, start: int, decision: string, payload: string, tokens: Option<int>)

  /** What a log line says: `None` for a line that is not a lookup decision event. */
  type Parser = string -> Option<Event>

  datatype JoinProblem = WrongEventCount(session: string, events: nat, turns: nat) | NoLaterRestore(session: string)

  datatype Row = Row(requestId: string, restored: bool, restoredTokens: int)

  datatype Evidence = Evidence(sessions: nat, problems: seq<JoinProblem>, restores: nat, rows: seq<Row>) {
    predicate Passed() {
      sessions > 0 && problems == []
    }
  }

  // ---- collecting decisions -----------------------------------------------------------

  /** The lookup decisions of one session among the given lines; an empty session key is ignored. */
  function DecisionsIn(lines: seq<string>, parse: Parser, s: string): seq<Event> {
    if lines == [] then []
    else
      var last := lines[|lines| - 1];
      DecisionsIn(lines[..|lines| - 1], parse, s) + LineDecision(last, parse, s)
  }

  /** A line counts once, however often it is read. */
  function Decisions(lines: seq<string>, parse: Parser, s: string): seq<Event> {
    DecisionsIn(FirstOccurrences(lines), parse, s)
  }

  function LineDecision(line: string, parse: Parser, s: string): seq<Event> {
    match parse(line)
    case Some(e) => if e.session != "" && e.session == s then [e] else []
    case None => []
  }

  lemma FirstOccurrencesNext(lines: seq<string>, line: string)
    ensures FirstOccurrences(lines + [line]) == FirstOccurrences(lines) + (if line in lines then [] else [line])
  {
    assert (lines + [line])[..|lines|] == lines;
    FirstOccurrencesSpec(lines);
    assert line in FirstOccurrences(lines) <==> line in Elements(FirstOccurrences(lines));
    assert line in lines <==> line in Elements(lines);
  }

  lemma DecisionsNext(lines: seq<string>, line: string, parse: Parser)
    ensures forall s :: Decisions(lines + [line], parse, s)
                     == Decisions(lines, parse, s) + (if line in lines then [] else LineDecision(line, parse, s))
  {
    FirstOccurrencesNext(lines, line);
    var firsts := FirstOccurrences(lines);
    assert (firsts + [line])[..|firsts|] == firsts;
  }

  lemma NothingRead(parse: Parser)
    ensures forall s :: Lookup<string, Event>(map[], s) == Decisions([], parse, s)
  {
  }

  method CollectDecisions(lines: seq<string>, parse: Parser) returns (decisions: map<string, seq<Event>>)
    ensures forall s :: Lookup(decisions, s) == Decisions(lines, parse, s)
  {
    NothingRead(parse);
    hide Decisions, Lookup, AppendTo;
    decisions := map[];
    var seen: set<string> := {};
    for i := 0 to |lines|
      invariant forall x :: x in seen <==> x in lines[..i] && parse(x).Some?
      invariant forall s :: Lookup(decisions, s) == Decisions(lines[..i], parse, s)
    {
      var line := lines[i];
      assert lines[..i + 1] == lines[..i] + [line];
      DecisionsNext(lines[..i], line, parse);
      match parse(line)
      case None =>
      case Some(e) =>
        if line !in seen {
          seen := seen + {line};
          if e.session != "" {
            decisions := AppendTo(decisions, e.session, e);
          }
        }
    }
    assert lines[..|lines|] == lines;
  }

  // ---- ordering by start time -----------------------------------------------------------

  function InsertEvent(sorted: seq<Event>, e: Event): seq<Event> {
    if sorted == [] || sorted[|sorted| - 1].start <= e.start then sorted + [e]
    else InsertEvent(sorted[..|sorted| - 1], e) + [sorted[|sorted| - 1]]
  }

  /** `sorted(events, key=start)`, which is stable. */
  function SortEvents(events: seq<Event>): seq<Event> {
    if events == [] then []
    else InsertEvent(SortEvents(events[..|events| - 1]), events[|events| - 1])
  }

  ghost predicate Ordered(events: seq<Event>) {
    forall i, j :: 0 <= i < j < |events| ==> events[i].start <= events[j].start
  }

  lemma {:induction false} InsertKeepsBag(sorted: seq<Event>, e: Event)
    ensures multiset(InsertEvent(sorted, e)) == multiset(sorted) + multiset{e}
  {
    if sorted != [] && sorted[|sorted| - 1].start > e.start {
      assert sorted == sorted[..|sorted| - 1] + [sorted[|sorted| - 1]];
      InsertKeepsBag(sorted[..|sorted| - 1], e);
    }
  }

  lemma {:induction false} InsertKeepsOrder(sorted: seq<Event>, e: Event)
    requires Ordered(sorted)
    ensures Ordered(InsertEvent(sorted, e))
  {
    if sorted != [] && sorted[|sorted| - 1].start > e.start {
      var front, last := sorted[..|sorted| - 1], sorted[|sorted| - 1];
      InsertKeepsOrder(front, e);
      InsertKeepsBag(front, e);
      forall i | 0 <= i < |InsertEvent(front, e)| ensures InsertEvent(front, e)[i].start <= last.start {
        assert InsertEvent(front, e)[i] in multiset(InsertEvent(front, e));
        assert InsertEvent(front, e)[i] == e || InsertEvent(front, e)[i] in front;
      }
    }
  }

  lemma {:induction false} SortEventsSorts(events: seq<Event>)
    ensures Ordered(SortEvents(events))
    ensures multiset(SortEvents(events)) == multiset(events)
    ensures |SortEvents(events)| == |events|
  {
    if events == [] {
    } else {
      var front, last := events[..|events| - 1], events[|events| - 1];
      assert events == front + [last];
      SortEventsSorts(front);
      InsertKeepsOrder(SortEvents(front), last);
      InsertKeepsBag(SortEvents(front), last);
    }
    assert |multiset(SortEvents(events))| == |SortEvents(events)| && |multiset(events)| == |events|;
  }

  function StartsAt(start: int): Event -> bool {
    (e: Event) => e.start == start
  }

  lemma {:induction false} InsertIsStable(sorted: seq<Event>, e: Event, start: int)
    requires Ordered(sorted)
    ensures Filter(StartsAt(start), InsertEvent(sorted, e)) == Filter(StartsAt(start), sorted + [e])
  {
    if sorted != [] && sorted[|sorted| - 1].start > e.start {
      var front, last := sorted[..|sorted| - 1], sorted[|sorted| - 1];
      var p := StartsAt(start);
      InsertIsStable(front, e, start);
      assert sorted == front + [last];
      FilterAppend(p, InsertEvent(front, e), [last]);
      FilterAppend(p, front, [e]);
      FilterAppend(p, sorted, [e]);
      FilterAppend(p, front, [last]);
      OneOrNone(p, e);
      OneOrNone(p, last);
      hide Filter, InsertEvent;
      assert !p(e) || !p(last);
      assert Filter(p, front) + Filter(p, [e]) + Filter(p, [last]) == Filter(p, front) + Filter(p, [last]) + Filter(p, [e]);
    }
  }

  lemma OneOrNone(p: Event -> bool, e: Event)
    ensures Filter(p, [e]) == if p(e) then [e] else []
  {
    assert [e][1..] == [];
  }

  /** Lookups with one start time keep the order in which their lines were read. */
  lemma {:induction false} SortIsStable(events: seq<Event>, start: int)
    ensures Filter(StartsAt(start), SortEvents(events)) == Filter(StartsAt(start), events)
  {
    if events == [] {
    } else {
      var front, last := events[..|events| - 1], events[|events| - 1];
      assert events == front + [last];
      SortIsStable(front, start);
      SortEventsSorts(front);
      InsertIsStable(SortEvents(front), last, start);
      FilterAppend(StartsAt(start), SortEvents(front), [last]);
      FilterAppend(StartsAt(start), front, [last]);
    }
  }

  ghost predicate DistinctStarts(events: seq<Event>) {
    forall e, f :: e in events && f in events && e.start == f.start ==> e == f
  }

  lemma LastIsDetermined(a: seq<Event>, b: seq<Event>)
    requires Ordered(a) && Ordered(b) && multiset(a) == multiset(b) && DistinctStarts(a) && a != [] && b != []
    ensures a[|a| - 1] == b[|b| - 1]
  {
    var la, lb := a[|a| - 1], b[|b| - 1];
    assert la in multiset(b) && lb in multiset(a);
    var i :| 0 <= i < |b| && b[i] == la;
    var j :| 0 <= j < |a| && a[j] == lb;
    assert la.start <= lb.start && lb.start <= la.start;
  }

  lemma SameBagWithoutLast(a: seq<Event>, b: seq<Event>)
    requires multiset(a) == multiset(b) && a != [] && b != [] && a[|a| - 1] == b[|b| - 1]
    ensures multiset(a[..|a| - 1]) == multiset(b[..|b| - 1])
  {
    assert a == a[..|a| - 1] + [a[|a| - 1]] && b == b[..|b| - 1] + [b[|b| - 1]];
    assert multiset(a[..|a| - 1]) == multiset(a) - multiset{a[|a| - 1]};
    assert multiset(b[..|b| - 1]) == multiset(b) - multiset{b[|b| - 1]};
  }

  /** With distinct start times there is only one sorted arrangement of a bag of events. */
  lemma {:induction false} SortedArrangementIsUnique(a: seq<Event>, b: seq<Event>)
    requires Ordered(a) && Ordered(b) && multiset(a) == multiset(b) && DistinctStarts(a)
    ensures a == b
  {
    assert |multiset(a)| == |a| && |multiset(b)| == |b|;
    if a == [] {
    } else {
      LastIsDetermined(a, b);
      var last, fa, fb := a[|a| - 1], a[..|a| - 1], b[..|b| - 1];
      SameBagWithoutLast(a, b);
      OrderedFront(a);
      OrderedFront(b);
      hide Ordered, DistinctStarts;
      SortedArrangementIsUnique(fa, fb);
      assert a == fa + [last] && b == fb + [last];
    }
  }

  lemma OrderedFront(a: seq<Event>)
    requires a != []
    ensures Ordered(a) ==> Ordered(a[..|a| - 1])
    ensures DistinctStarts(a) ==> DistinctStarts(a[..|a| - 1])
  {
    var front := a[..|a| - 1];
    assert forall e :: e in front ==> e in a;
  }

  // ---- joining with the requests ----------------------------------------------------------

  predicate Restored(turn: Request, e: Event, minimum: int) {
    e.decision == "exact_hit"
    && (e.payload == "kv-recurrent" || e.payload == "recurrent-only")
    && e.tokens.Some?
    && minimum <= e.tokens.value
       <= (if turn.outcome.Success? then turn.outcome.served.promptTokens as int else 0)
  }

  function RowOf(turn: Request, e: Event, minimum: int): Row {
    Row(turn.requestId, Restored(turn, e, minimum), if Restored(turn, e, minimum) then e.tokens.value else 0)
  }

  /** Restores on a turn after the first, among the first `n` pairs of turn and event. */
  function LaterRestores(turns: seq<Request>, events: seq<Event>, n: nat, minimum: int): nat
    requires n <= |turns| && n <= |events|
  {
    if n == 0 then 0
    else LaterRestores(turns, events, n - 1, minimum)
         + (if Restored(turns[n - 1], events[n - 1], minimum) && turns[n - 1].assistantTurn > 0 then 1 else 0)
  }

  function JoinSession(s: string, turns: seq<Request>, events: seq<Event>, minimum: int): Evidence {
    if |events| != |turns| then Evidence(1, [WrongEventCount(s, |events|, |turns|)], 0, [])
    else
      var restores := LaterRestores(turns, events, |turns|, minimum);
      Evidence(1, if restores == 0 then [NoLaterRestore(s)] else [], restores,
               seq(|turns|, i requires 0 <= i < |turns| => RowOf(turns[i], events[i], minimum)))
  }

  function Plus(a: Evidence, b: Evidence): Evidence {
    Evidence(a.sessions + b.sessions, a.problems + b.problems, a.restores + b.restores, a.rows + b.rows)
  }

  function JoinAll(order: seq<string>, lines: seq<string>, parse: Parser, requests: seq<Request>, minimum: int): Evidence {
    if order == [] then Evidence(0, [], 0, [])
    else
      var s := order[|order| - 1];
      Plus(JoinAll(order[..|order| - 1], lines, parse, requests, minimum),
           JoinSession(s, Project(requests, s), SortEvents(Decisions(lines, parse, s)), minimum))
  }

  function EvidenceOf(lines: seq<string>, parse: Parser, requests: seq<Request>, minimum: int): Evidence {
    JoinAll(FirstOccurrences(Sessions(requests)), lines, parse, requests, minimum)
  }

  method JoinLoop(s: string, turns: seq<Request>, events: seq<Event>, minimum: int) returns (e: Evidence)
    ensures e == JoinSession(s, turns, events, minimum)
  {
    if |events| != |turns| {
      return Evidence(1, [WrongEventCount(s, |events|, |turns|)], 0, []);
    }
    var restores := 0;
    var rows: seq<Row> := [];
    for i := 0 to |turns|
      invariant restores == LaterRestores(turns, events, i, minimum)
      invariant rows == seq(i, k requires 0 <= k < i => RowOf(turns[k], events[k], minimum))
    {
      var restored := Restored(turns[i], events[i], minimum);
      if restored && turns[i].assistantTurn > 0 {
        restores := restores + 1;
      }
      rows := rows + [Row(turns[i].requestId, restored, if restored then events[i].tokens.value else 0)];
    }
    e := Evidence(1, if restores == 0 then [NoLaterRestore(s)] else [], restores, rows);
  }

  lemma NothingGrouped()
    ensures FirstOccurrences(Sessions([])) == []
    ensures forall s :: Lookup<string, Request>(map[], s) == Project([], s)
  {
  }

  method GroupRequests(requests: seq<Request>) returns (order: seq<string>, grouped: map<string, seq<Request>>)
    ensures order == FirstOccurrences(Sessions(requests))
    ensures forall s :: s in order <==> s in grouped
    ensures forall s :: Lookup(grouped, s) == Project(requests, s)
  {
    NothingGrouped();
    hide FirstOccurrences, Project, Lookup, AppendTo;
    order, grouped := [], map[];
    for i := 0 to |requests|
      invariant order == FirstOccurrences(Sessions(requests[..i]))
      invariant forall s :: s in order <==> s in grouped
      invariant forall s :: Lookup(grouped, s) == Project(requests[..i], s)
    {
      var r := requests[i];
      assert requests[..i + 1] == requests[..i] + [r];
      ghost var ids := Sessions(requests[..i]);
      assert Sessions(requests[..i + 1]) == ids + [r.sessionId];
      FirstOccurrencesNext(ids, r.sessionId);
      FirstOccurrencesSpec(ids);
      assert r.sessionId in order <==> r.sessionId in Elements(order);
      assert r.sessionId in ids <==> r.sessionId in Elements(ids);
      ProjectNext(requests[..i], r);
      grouped := AppendTo(grouped, r.sessionId, r);
      if r.sessionId !in order {
        order := order + [r.sessionId];
      }
    }
    assert requests[..|requests|] == requests;
  }

  method CheckRecurrent(lines: seq<string>, parse: Parser, requests: seq<Request>, minimum: int) returns (e: Evidence)
    ensures e == EvidenceOf(lines, parse, requests, minimum)
  {
    hide Decisions, Project, FirstOccurrences, JoinSession, SortEvents;
    var decisions := CollectDecisions(lines, parse);
    var order, grouped := GroupRequests(requests);
    e := Evidence(0, [], 0, []);
    for i := 0 to |order|
      invariant e == JoinAll(order[..i], lines, parse, requests, minimum)
    {
      var s := order[i];
      assert order[..i + 1][..i] == order[..i];
      var events := SortEvents(Lookup(decisions, s));
      var joined := JoinLoop(s, grouped[s], events, minimum);
      e := Plus(e, joined);
    }
    assert order[..|order|] == order;
  }

  // ---- robustness ------------------------------------------------------------------------------

  lemma {:induction false} FirstOccurrencesIgnoresRepeats(lines: seq<string>, more: seq<string>)
    requires forall x :: x in more ==> x in lines
    ensures FirstOccurrences(lines + more) == FirstOccurrences(lines)
  {
    if more == [] {
      assert lines + more == lines;
    } else {
      var front, last := more[..|more| - 1], more[|more| - 1];
      FirstOccurrencesIgnoresRepeats(lines, front);
      assert (lines + more)[..|lines + more| - 1] == lines + front;
      FirstOccurrencesSpec(lines);
      assert last in Elements(lines);
      assert last in Elements(FirstOccurrences(lines));
    }
  }

  /** Reading lines again changes nothing. */
  lemma RereadingChangesNothing(lines: seq<string>, more: seq<string>, parse: Parser, requests: seq<Request>, minimum: int)
    requires forall x :: x in more ==> x in lines
    ensures EvidenceOf(lines + more, parse, requests, minimum) == EvidenceOf(lines, parse, requests, minimum)
  {
    FirstOccurrencesIgnoresRepeats(lines, more);
    SameDecisionsSameEvidence(FirstOccurrences(Sessions(requests)), lines + more, lines, parse, requests, minimum);
  }

  lemma {:induction false} SameDecisionsSameEvidence(order: seq<string>, a: seq<string>, b: seq<string>, parse: Parser,
                                                     requests: seq<Request>, minimum: int)
    requires forall s :: s in order ==> SortEvents(Decisions(a, parse, s)) == SortEvents(Decisions(b, parse, s))
    ensures JoinAll(order, a, parse, requests, minimum) == JoinAll(order, b, parse, requests, minimum)
  {
    hide JoinSession, SortEvents, Decisions, Project;
    if order == [] {
    } else {
      SameDecisionsSameEvidence(order[..|order| - 1], a, b, parse, requests, minimum);
      assert order[|order| - 1] in order;
    }
  }

  lemma {:induction false} DecisionMember(lines: seq<string>, parse: Parser, s: string, e: Event)
    ensures e in DecisionsIn(lines, parse, s) <==>
              e.session != "" && e.session == s && exists x :: x in lines && parse(x) == Some(e)
  {
    if lines == [] {
    } else {
      var front, last := lines[..|lines| - 1], lines[|lines| - 1];
      assert lines == front + [last];
      DecisionMember(front, parse, s, e);
    }
  }

  /** How often an event occurs is how many of the lines say it. */
  lemma {:induction false} DecisionsOfPermutation(a: seq<string>, b: seq<string>, parse: Parser, s: string)
    requires multiset(a) == multiset(b)
    ensures multiset(DecisionsIn(a, parse, s)) == multiset(DecisionsIn(b, parse, s))
    decreases |a|
  {
    assert |multiset(a)| == |a| && |multiset(b)| == |b|;
    if a == [] {
    } else {
      var front, last := a[..|a| - 1], a[|a| - 1];
      assert a == front + [last];
      assert last in multiset(b);
      var i :| 0 <= i < |b| && b[i] == last;
      DecisionsMoveOut(b, i, parse, s);
      DecisionsOfPermutation(front, b[..i] + b[i + 1..], parse, s);
    }
  }

  lemma DecisionsMoveOut(b: seq<string>, i: nat, parse: Parser, s: string)
    requires i < |b|
    ensures multiset(b[..i] + b[i + 1..]) == multiset(b) - multiset{b[i]}
    ensures multiset(DecisionsIn(b, parse, s))
         == multiset(DecisionsIn(b[..i] + b[i + 1..], parse, s)) + multiset(LineDecision(b[i], parse, s))
  {
    assert b == (b[..i] + [b[i]]) + b[i + 1..];
    DecisionsAppend(b[..i] + [b[i]], b[i + 1..], parse, s);
    assert (b[..i] + [b[i]])[..i] == b[..i];
    DecisionsAppend(b[..i], b[i + 1..], parse, s);
  }

  lemma {:induction false} DecisionsAppend(a: seq<string>, b: seq<string>, parse: Parser, s: string)
    ensures DecisionsIn(a + b, parse, s) == DecisionsIn(a, parse, s) + DecisionsIn(b, parse, s)
  {
    if b == [] {
      assert a + b == a;
    } else {
      assert (a + b)[..|a + b| - 1] == a + b[..|b| - 1];
      DecisionsAppend(a, b[..|b| - 1], parse, s);
    }
  }

  ghost predicate StartsDistinctPerSession(lines: seq<string>, parse: Parser) {
    forall x, y :: x in lines && y in lines && parse(x).Some? && parse(y).Some?
      && parse(x).value.session == parse(y).value.session && parse(x).value.start == parse(y).value.start
      ==> parse(x) == parse(y)
  }

  lemma {:induction false} DistinctSameElements(a: seq<string>, b: seq<string>)
    requires Distinct(a) && Distinct(b) && Elements(a) == Elements(b)
    ensures multiset(a) == multiset(b)
  {
    forall x ensures multiset(a)[x] == multiset(b)[x] {
      DistinctCount(a, x);
      DistinctCount(b, x);
      assert x in a <==> x in Elements(a);
      assert x in b <==> x in Elements(b);
    }
  }

  lemma {:induction false} DistinctCount(a: seq<string>, x: string)
    requires Distinct(a)
    ensures multiset(a)[x] == if x in a then 1 else 0
  {
    if a == [] {
    } else {
      var front, last := a[..|a| - 1], a[|a| - 1];
      assert a == front + [last];
      DistinctCount(front, x);
      forall i | 0 <= i < |front| ensures front[i] != last {
        assert a[i] != a[|a| - 1];
      }
    }
  }

  /**
    The evidence depends only on which lines the logs contain, not on their order or repetition, as long as the
    lookups of one session have distinct start times.
   */
  lemma EvidenceDependsOnLinesOnly(a: seq<string>, b: seq<string>, parse: Parser, requests: seq<Request>, minimum: int)
    requires Elements(a) == Elements(b) && StartsDistinctPerSession(a, parse)
    ensures EvidenceOf(a, parse, requests, minimum) == EvidenceOf(b, parse, requests, minimum)
  {
    FirstOccurrencesSpec(a);
    FirstOccurrencesSpec(b);
    DistinctSameElements(FirstOccurrences(a), FirstOccurrences(b));
    forall s ensures SortEvents(Decisions(a, parse, s)) == SortEvents(Decisions(b, parse, s)) {
      SortedDecisionsAgree(a, b, parse, s);
    }
    SameDecisionsSameEvidence(FirstOccurrences(Sessions(requests)), a, b, parse, requests, minimum);
  }

  lemma SortedDecisionsAgree(a: seq<string>, b: seq<string>, parse: Parser, s: string)
    requires multiset(FirstOccurrences(a)) == multiset(FirstOccurrences(b)) && StartsDistinctPerSession(a, parse)
    ensures SortEvents(Decisions(a, parse, s)) == SortEvents(Decisions(b, parse, s))
  {
    var da, db := Decisions(a, parse, s), Decisions(b, parse, s);
    DecisionsOfPermutation(FirstOccurrences(a), FirstOccurrences(b), parse, s);
    SortEventsSorts(da);
    SortEventsSorts(db);
    forall e, f | e in SortEvents(da) && f in SortEvents(da) && e.start == f.start ensures e == f {
      assert e in multiset(da) && f in multiset(da);
      StartsDetermine(a, parse, s, e, f);
    }
    SortedArrangementIsUnique(SortEvents(da), SortEvents(db));
  }

  lemma StartsDetermine(lines: seq<string>, parse: Parser, s: string, e: Event, f: Event)
    requires StartsDistinctPerSession(lines, parse) && e.start == f.start
    requires e in Decisions(lines, parse, s) && f in Decisions(lines, parse, s)
    ensures e == f
  {
    var firsts := FirstOccurrences(lines);
    FirstOccurrencesSpec(lines);
    DecisionMember(firsts, parse, s, e);
    DecisionMember(firsts, parse, s, f);
    var x :| x in firsts && parse(x) == Some(e);
    var y :| y in firsts && parse(y) == Some(f);
    assert x in Elements(firsts) && y in Elements(firsts);
  }

  // ---- what passing proves ------------------------------------------------------------------------

  /** The turns of one session, and its lookups in the order in which they started. */
  function TurnsOf(requests: seq<Request>, s: string): seq<Request> {
    Project(requests, s)
  }

  function LookupsOf(lines: seq<string>, parse: Parser, s: string): seq<Event> {
    SortEvents(Decisions(lines, parse, s))
  }

  /** The lines that say a certain event. */
  ghost function Saying(lines: seq<string>, parse: Parser, e: Event): set<string> {
    set line | line in lines && parse(line) == Some(e)
  }

  lemma SayingNext(front: seq<string>, last: string, parse: Parser, e: Event)
    requires last !in front
    ensures |Saying(front + [last], parse, e)| == |Saying(front, parse, e)| + (if parse(last) == Some(e) then 1 else 0)
  {
    assert Saying(front + [last], parse, e)
        == if parse(last) == Some(e) then Saying(front, parse, e) + {last} else Saying(front, parse, e);
  }

  lemma {:induction false} DecisionsCount(lines: seq<string>, parse: Parser, s: string, e: Event)
    requires Distinct(lines)
    ensures multiset(DecisionsIn(lines, parse, s))[e] == if e.session == s != "" then |Saying(lines, parse, e)| else 0
  {
    hide Saying, Distinct;
    if lines == [] {
      assert |Saying([], parse, e)| == 0 by { NothingSaid(parse, e); }
    } else {
      var front, last := lines[..|lines| - 1], lines[|lines| - 1];
      assert lines == front + [last];
      DistinctFront(lines);
      DecisionsCount(front, parse, s, e);
      SayingNext(front, last, parse, e);
    }
  }

  lemma NothingSaid(parse: Parser, e: Event)
    ensures Saying([], parse, e) == {}
  {
  }

  lemma DistinctFront<T>(s: seq<T>)
    requires s != [] && Distinct(s)
    ensures Distinct(s[..|s| - 1]) && s[|s| - 1] !in s[..|s| - 1]
  {
    var front, last := s[..|s| - 1], s[|s| - 1];
    forall i | 0 <= i < |front| ensures front[i] != last {
      assert s[i] != s[|s| - 1];
    }
  }

  /** The lookups of a session rise by start time, and each occurs once per line that says it, read once or more often. */
  lemma LookupsAreTheLines(lines: seq<string>, parse: Parser, s: string, e: Event)
    ensures forall i, j :: 0 <= i < j < |LookupsOf(lines, parse, s)| ==>
              LookupsOf(lines, parse, s)[i].start <= LookupsOf(lines, parse, s)[j].start
    ensures multiset(LookupsOf(lines, parse, s))[e]
         == if e.session == s != "" then |Saying(lines, parse, e)| else 0
  {
    var firsts := FirstOccurrences(lines);
    FirstOccurrencesSpec(lines);
    SortEventsSorts(Decisions(lines, parse, s));
    DecisionsCount(firsts, parse, s, e);
    forall line ensures line in firsts <==> line in lines {
      assert line in firsts <==> line in Elements(firsts);
      assert line in lines <==> line in Elements(lines);
    }
    assert Saying(firsts, parse, e) == Saying(lines, parse, e);
  }

  /** What the checker asks of one session: one lookup per turn, and a proven restore on a later turn. */
  ghost predicate SessionProved(lines: seq<string>, parse: Parser, requests: seq<Request>, minimum: int, s: string) {
    |LookupsOf(lines, parse, s)| == |TurnsOf(requests, s)| && ProvenTurns(lines, parse, requests, minimum, s) != {}
  }

  /**
    The later turns of a session on which state was provably restored: the lookup was an exact hit on one of the two
    recurrent payloads, and its restored tokens lie between the minimum and the prompt of the answered turn.
   */
  ghost function ProvenTurns(lines: seq<string>, parse: Parser, requests: seq<Request>, minimum: int, s: string): set<nat> {
    set i: nat |
      i < |TurnsOf(requests, s)| && i < |LookupsOf(lines, parse, s)|
      && TurnsOf(requests, s)[i].assistantTurn > 0
      && LookupsOf(lines, parse, s)[i].decision == "exact_hit"
      && (LookupsOf(lines, parse, s)[i].payload == "kv-recurrent" || LookupsOf(lines, parse, s)[i].payload == "recurrent-only")
      && LookupsOf(lines, parse, s)[i].tokens.Some?
      && minimum <= LookupsOf(lines, parse, s)[i].tokens.value
      && (if TurnsOf(requests, s)[i].outcome.Success?
          then LookupsOf(lines, parse, s)[i].tokens.value <= TurnsOf(requests, s)[i].outcome.served.promptTokens
          else LookupsOf(lines, parse, s)[i].tokens.value <= 0)
  }

  lemma {:induction false} RestoresAreProven(turns: seq<Request>, events: seq<Event>, n: nat, minimum: int,
                                             proven: set<nat>)
    requires n <= |turns| && n <= |events|
    requires forall i: nat :: i in proven <==>
               i < n && turns[i].assistantTurn > 0 && Restored(turns[i], events[i], minimum)
    ensures LaterRestores(turns, events, n, minimum) == |proven|
  {
    hide Restored;
    if n == 0 {
      assert proven == {};
    } else {
      var k := n - 1;
      RestoresAreProven(turns, events, k, minimum, proven - {k});
    }
  }

  lemma SessionMeaning(lines: seq<string>, parse: Parser, requests: seq<Request>, minimum: int, s: string)
    ensures var e := JoinSession(s, TurnsOf(requests, s), LookupsOf(lines, parse, s), minimum);
            var counted := |LookupsOf(lines, parse, s)| == |TurnsOf(requests, s)|;
            (e.problems == [] <==> SessionProved(lines, parse, requests, minimum, s))
            && e.restores == (if counted then |ProvenTurns(lines, parse, requests, minimum, s)| else 0)
  {
    hide TurnsOf, LookupsOf;
    var turns, events := TurnsOf(requests, s), LookupsOf(lines, parse, s);
    if |events| == |turns| {
      RestoresAreProven(turns, events, |turns|, minimum, ProvenTurns(lines, parse, requests, minimum, s));
    }
  }

  /** Every proven turn of every session whose lookups match its turns in number. */
  ghost function AllProven(order: seq<string>, lines: seq<string>, parse: Parser, requests: seq<Request>, minimum: int)
    : set<(string, nat)>
  {
    set s, i | s in order && |LookupsOf(lines, parse, s)| == |TurnsOf(requests, s)|
               && i in ProvenTurns(lines, parse, requests, minimum, s) :: (s, i)
  }

  ghost function Pairs(s: string, turns: set<nat>): set<(string, nat)> {
    set i | i in turns :: (s, i)
  }

  lemma {:induction false} PairsOfOne(s: string, turns: set<nat>)
    ensures |Pairs(s, turns)| == |turns|
    decreases |turns|
  {
    if turns == {} {
      assert Pairs(s, turns) == {};
    } else {
      var i :| i in turns;
      PairsOfOne(s, turns - {i});
      assert Pairs(s, turns) == Pairs(s, turns - {i}) + {(s, i)};
      assert (s, i) !in Pairs(s, turns - {i});
    }
  }

  lemma DisjointUnion<T>(a: set<T>, b: set<T>)
    requires a !! b
    ensures |a + b| == |a| + |b|
  {
  }

  lemma AllProvenNext(front: seq<string>, s: string, lines: seq<string>, parse: Parser, requests: seq<Request>, minimum: int)
    requires s !in front
    ensures |AllProven(front + [s], lines, parse, requests, minimum)|
         == |AllProven(front, lines, parse, requests, minimum)|
            + (if |LookupsOf(lines, parse, s)| == |TurnsOf(requests, s)|
               then |ProvenTurns(lines, parse, requests, minimum, s)| else 0)
  {
    hide ProvenTurns, TurnsOf, LookupsOf;
    var counted := |LookupsOf(lines, parse, s)| == |TurnsOf(requests, s)|;
    var turns := if counted then ProvenTurns(lines, parse, requests, minimum, s) else {};
    PairsOfOne(s, turns);
    var before, own := AllProven(front, lines, parse, requests, minimum), Pairs(s, turns);
    assert AllProven(front + [s], lines, parse, requests, minimum) == before + own;
    assert before !! own;
    hide AllProven, Pairs;
    DisjointUnion(before, own);
  }

  lemma {:induction false} JoinAllMeaning(order: seq<string>, lines: seq<string>, parse: Parser, requests: seq<Request>,
                                          minimum: int)
    requires Distinct(order)
    ensures var e := JoinAll(order, lines, parse, requests, minimum);
            e.sessions == |order|
            && (e.problems == [] <==> forall s :: s in order ==> SessionProved(lines, parse, requests, minimum, s))
            && e.restores == |AllProven(order, lines, parse, requests, minimum)|
  {
    hide SessionProved, ProvenTurns, AllProven, TurnsOf, LookupsOf, JoinSession;
    if order == [] {
      NoneProven(lines, parse, requests, minimum);
    } else {
      var front, s := order[..|order| - 1], order[|order| - 1];
      assert order == front + [s];
      DistinctFront(order);
      JoinAllMeaning(front, lines, parse, requests, minimum);
      SessionMeaning(lines, parse, requests, minimum, s);
      OneSession(lines, parse, requests, minimum, s);
      NamedParts(lines, parse, requests, s);
      AllProvenNext(front, s, lines, parse, requests, minimum);
    }
  }

  lemma OneSession(lines: seq<string>, parse: Parser, requests: seq<Request>, minimum: int, s: string)
    ensures JoinSession(s, TurnsOf(requests, s), LookupsOf(lines, parse, s), minimum).sessions == 1
  {
  }

  lemma NoneProven(lines: seq<string>, parse: Parser, requests: seq<Request>, minimum: int)
    ensures AllProven([], lines, parse, requests, minimum) == {}
  {
  }

  lemma NamedParts(lines: seq<string>, parse: Parser, requests: seq<Request>, s: string)
    ensures TurnsOf(requests, s) == Project(requests, s)
    ensures LookupsOf(lines, parse, s) == SortEvents(Decisions(lines, parse, s))
  {
  }

  lemma AllProvenAtLeastOneEach(order: seq<string>, lines: seq<string>, parse: Parser, requests: seq<Request>, minimum: int)
    requires Distinct(order) && forall s :: s in order ==> SessionProved(lines, parse, requests, minimum, s)
    ensures |AllProven(order, lines, parse, requests, minimum)| >= |order|
  {
    hide ProvenTurns, TurnsOf, LookupsOf;
    if order == [] {
    } else {
      var front, s := order[..|order| - 1], order[|order| - 1];
      assert order == front + [s];
      DistinctFront(order);
      AllProvenAtLeastOneEach(front, lines, parse, requests, minimum);
      assert SessionProved(lines, parse, requests, minimum, s);
      var i :| i in ProvenTurns(lines, parse, requests, minimum, s);
      var before := AllProven(front, lines, parse, requests, minimum);
      MoreInLarger(before, AllProven(order, lines, parse, requests, minimum), (s, i));
    }
  }

  lemma MoreInLarger<T>(small: set<T>, large: set<T>, x: T)
    requires small <= large && x in large && x !in small
    ensures |large| >= |small| + 1
  {
    assert small + {x} <= large;
    var rest := large - (small + {x});
    assert large == small + {x} + rest;
  }

  /**
    Passing is exactly: there is a session, and every session has one lookup per turn and, on a later turn, an exact hit on
    a recurrent payload that restored at least the minimum and at most the prompt. The restores reported are the number
    of all such turns, and on passing at least as many as there are sessions.
   */
  lemma PassingProvesReuse(lines: seq<string>, parse: Parser, requests: seq<Request>, minimum: int)
    ensures EvidenceOf(lines, parse, requests, minimum).Passed() <==>
              requests != [] && forall r :: r in requests ==> SessionProved(lines, parse, requests, minimum, r.sessionId)
    ensures EvidenceOf(lines, parse, requests, minimum).restores
         == |AllProven(FirstOccurrences(Sessions(requests)), lines, parse, requests, minimum)|
    ensures EvidenceOf(lines, parse, requests, minimum).Passed() ==>
              EvidenceOf(lines, parse, requests, minimum).restores >= |Elements(Sessions(requests))| >= 1
  {
    hide SessionProved, AllProven, JoinAll;
    var order := FirstOccurrences(Sessions(requests));
    FirstOccurrencesSpec(Sessions(requests));
    DistinctIffCardinality(order);
    JoinAllMeaning(order, lines, parse, requests, minimum);
    forall s ensures s in order <==> exists r :: r in requests && r.sessionId == s {
      SessionOccurs(requests, s);
      assert s in order <==> s in Elements(order);
      assert s in Sessions(requests) <==> s in Elements(Sessions(requests));
    }
    if requests != [] {
      assert requests[0] in requests;
      assert requests[0].sessionId in order;
    }
    if forall s :: s in order ==> SessionProved(lines, parse, requests, minimum, s) {
      AllProvenAtLeastOneEach(order, lines, parse, requests, minimum);
    }
  }

  /** What a row reports of a turn and its lookup. */
  ghost predicate RowReports(row: Row, turn: Request, e: Event, minimum: int) {
    var proven := e.decision == "exact_hit" && (e.payload == "kv-recurrent" || e.payload == "recurrent-only")
                  && e.tokens.Some? && minimum <= e.tokens.value
                  && (if turn.outcome.Success? then e.tokens.value <= turn.outcome.served.promptTokens
                      else e.tokens.value <= 0);
    row.requestId == turn.requestId && row.restored == proven
    && row.restoredTokens == if proven then e.tokens.value else 0
  }

  /** A session's rows are its turns in order, each with its lookup, when these match in number, and none otherwise. */
  lemma RowsReportTheJoin(s: string, turns: seq<Request>, events: seq<Event>, minimum: int)
    ensures var rows := JoinSession(s, turns, events, minimum).rows;
            |rows| == (if |events| == |turns| then |turns| else 0)
            && forall i :: 0 <= i < |rows| ==> RowReports(rows[i], turns[i], events[i], minimum)
  {
  }

  /** Every row of the evidence reports a turn of a session together with the lookup at the same position. */
  lemma {:induction false} EvidenceRowsReport(order: seq<string>, lines: seq<string>, parse: Parser, requests: seq<Request>,
                                              minimum: int, row: Row)
    requires row in JoinAll(order, lines, parse, requests, minimum).rows
    ensures exists s, i: nat :: s in order && i < |TurnsOf(requests, s)| == |LookupsOf(lines, parse, s)|
              && RowReports(row, TurnsOf(requests, s)[i], LookupsOf(lines, parse, s)[i], minimum)
  {
    hide RowReports, TurnsOf, LookupsOf, JoinSession;
    if order == [] {
    } else {
      var front, s := order[..|order| - 1], order[|order| - 1];
      assert order == front + [s];
      NamedParts(lines, parse, requests, s);
      var turns, events := TurnsOf(requests, s), LookupsOf(lines, parse, s);
      var own := JoinSession(s, turns, events, minimum).rows;
      if row in own {
        RowsReportTheJoin(s, turns, events, minimum);
        var i :| 0 <= i < |own| && own[i] == row;
        assert s in order && RowReports(row, turns[i], events[i], minimum);
      } else {
        EvidenceRowsReport(front, lines, parse, requests, minimum, row);
        var t, i: nat :| t in front && i < |TurnsOf(requests, t)| == |LookupsOf(lines, parse, t)|
          && RowReports(row, TurnsOf(requests, t)[i], LookupsOf(lines, parse, t)[i], minimum);
        assert t in order;
      }
    }
  }
}
