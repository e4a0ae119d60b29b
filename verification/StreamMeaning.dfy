/**
  What an answered stream says, read off its events directly: the texts and calls that its identity holds, and the
  figures and times that the answer reports.
 */
module StreamMeaning {
  import opened Common
  import opened StreamReader
  import opened StreamRequest
  import Outcome = StreamOutcome

  // ---- what the events carry --------------------------------------------------------------

  function DeltasIn(line: Line): seq<Delta> {
    match line
    case Data(Event(_, Some(Choice(_, Some(delta))))) => [delta]
    case _ => []
  }

  /** The deltas of a body, in the order of their arrival. */
  function Deltas(body: seq<Timed>): seq<Delta> {
    if body == [] then [] else Deltas(body[..|body| - 1]) + DeltasIn(body[|body| - 1].line)
  }

  function SaidContent(deltas: seq<Delta>): string {
    if deltas == [] then ""
    else
      SaidContent(deltas[..|deltas| - 1])
      + match deltas[|deltas| - 1].content
        case Some(text) => text
        case None => ""
  }

  function SaidReasoning(deltas: seq<Delta>): string {
    if deltas == [] then ""
    else
      SaidReasoning(deltas[..|deltas| - 1])
      + match deltas[|deltas| - 1].reasoning
        case Some(text) => text
        case None => ""
  }

  /** The fragments of one event for index `i`: those that name it, and the one without an index at position `i`. */
  function PiecesIn(tools: seq<ToolDelta>, i: int): seq<Placed> {
    if tools == [] then []
    else
      var k := |tools| - 1;
      PiecesIn(tools[..k], i)
      + match tools[k]
        case NotAnObject => []
        case ToolDelta(Some(index), _, _) => if index == i then [Placed(i, tools[k])] else []
        case ToolDelta(None, _, _) => if k == i then [Placed(i, tools[k])] else []
  }

  function Pieces(deltas: seq<Delta>, i: int): seq<Placed> {
    if deltas == [] then []
    else
      Pieces(deltas[..|deltas| - 1], i)
      + match deltas[|deltas| - 1].tools
        case Some(tools) => PiecesIn(tools, i)
        case None => []
  }

  ghost predicate MentionsArguments(p: Placed) {
    MentionsFunction(p) && p.delta.fn.value.arguments.Some?
  }

  /** The call that fragments add up to: the last type and name, and the argument texts one after the other. */
  ghost function CallFrom(pieces: seq<Placed>): ToolCall {
    ToolCall(LastType(pieces),
             if exists p :: p in pieces && MentionsFunction(p)
             then Some(CallFunction(LastName(pieces),
                                    if exists p :: p in pieces && MentionsArguments(p) then Some(Arguments(pieces)) else None))
             else None)
  }

  /** The indices at which deltas put fragments, in rising order. */
  ghost predicate IsIndexList(deltas: seq<Delta>, indices: seq<int>) {
    (forall j, k :: 0 <= j < k < |indices| ==> indices[j] < indices[k])
    && forall i :: i in indices <==> Pieces(deltas, i) != []
  }

  ghost function CallsAt(deltas: seq<Delta>, indices: seq<int>): seq<ToolCall> {
    seq(|indices|, k requires 0 <= k < |indices| => CallFrom(Pieces(deltas, indices[k])))
  }

  /** Both texts, and the calls in the order of their indices. */
  ghost predicate IsIdentity(deltas: seq<Delta>, indices: seq<int>, identity: Identity) {
    identity.content == SaidContent(deltas) && identity.reasoning == SaidReasoning(deltas)
    && identity.calls == CallsAt(deltas, indices)
  }

  // ---- the identity is what was said ------------------------------------------------------------

  lemma OneMoreDelta(deltas: seq<Delta>, d: Delta, i: int)
    ensures SaidContent(deltas + [d]) == SaidContent(deltas) + d.content.GetOr("")
    ensures SaidReasoning(deltas + [d]) == SaidReasoning(deltas) + d.reasoning.GetOr("")
    ensures Pieces(deltas + [d], i) == Pieces(deltas, i) + PiecesIn(d.tools.GetOr([]), i)
  {
    assert (deltas + [d])[..|deltas|] == deltas;
  }

  lemma LineIsDelta(line: Line)
    ensures DeltasIn(line) == if DeltaOf(line).Some? then [DeltaOf(line).value] else []
  {
  }

  lemma {:induction false} TextsAreSaid(body: seq<Timed>)
    ensures Content(body) == SaidContent(Deltas(body)) && Reasoning(body) == SaidReasoning(Deltas(body))
  {
    if body == [] {
    } else {
      var front, last := body[..|body| - 1], body[|body| - 1];
      TextsAreSaid(front);
      LineIsDelta(last.line);
      if DeltaOf(last.line).Some? {
        OneMoreDelta(Deltas(front), DeltaOf(last.line).value, 0);
      } else {
        assert Deltas(body) == Deltas(front);
      }
    }
  }

  lemma {:induction false} PiecesAreAt(tools: seq<ToolDelta>, i: int)
    ensures At(PlaceFrom(tools, 0), i) == PiecesIn(tools, i)
  {
    if tools == [] {
      assert PlaceFrom(tools, 0) == [];
      assert At([], i) == [];
    } else {
      var k := |tools| - 1;
      PiecesAreAt(tools[..k], i);
      assert PlaceFrom(tools, 0) == PlaceFrom(tools[..k], 0) + [Place(tools[k], k)];
      AtAppend(PlaceFrom(tools[..k], 0), [Place(tools[k], k)], i);
      AtSingle(Place(tools[k], k), i);
    }
  }

  lemma {:induction false} FragmentsArePieces(body: seq<Timed>, i: int)
    ensures At(Fragments(body), i) == Pieces(Deltas(body), i)
  {
    hide At, PiecesIn, PlaceFrom;
    if body == [] {
      NoFragments(i);
    } else {
      var front, last := body[..|body| - 1], body[|body| - 1];
      FragmentsArePieces(front, i);
      LineIsDelta(last.line);
      PiecesAreAt(ToolsOf(last.line), i);
      AtAppend(Fragments(front), PlacedOf(last.line), i);
      if DeltaOf(last.line).Some? {
        OneMoreDelta(Deltas(front), DeltaOf(last.line).value, i);
      } else {
        NoPieces(i);
        assert ToolsOf(last.line) == [] && Deltas(body) == Deltas(front);
        assert Pieces(Deltas(front), i) + [] == Pieces(Deltas(front), i);
      }
    }
  }

  lemma NoFragments(i: int)
    ensures At([], i) == []
  {
  }

  lemma NoPieces(i: int)
    ensures PiecesIn([], i) == []
  {
  }

  lemma {:induction false} ArgumentsPresent(pieces: seq<Placed>)
    requires forall p :: p in pieces ==> p.delta.ToolDelta?
    ensures var call := FoldOne(pieces);
            call.fn.Some? ==> (call.fn.value.arguments.Some? <==> exists p :: p in pieces && MentionsArguments(p))
    ensures FoldOne(pieces).fn.None? ==> forall p :: p in pieces ==> !MentionsFunction(p)
  {
    if pieces == [] {
    } else {
      var front, last := pieces[..|pieces| - 1], pieces[|pieces| - 1];
      assert pieces == front + [last];
      assert forall p :: p in pieces <==> p in front || p == last;
      ArgumentsPresent(front);
      FoldOneNext(front, last);
      ExistsNext(front, last, (p: Placed) => MentionsArguments(p));
      hide FoldOne;
      assert last.delta.fn.None? ==> FoldOne(pieces).fn == FoldOne(front).fn;
    }
  }

  lemma FoldOneIsCallFrom(pieces: seq<Placed>)
    requires forall p :: p in pieces ==> p.delta.ToolDelta?
    ensures FoldOne(pieces) == CallFrom(pieces)
  {
    hide FoldOne, LastType, LastName, Arguments;
    FoldOneMeaning(pieces);
    ArgumentsPresent(pieces);
  }

  /** The identity of a body holds what its deltas said, with the calls in the order of their indices. */
  lemma IdentityIsWhatWasSaid(body: seq<Timed>)
    ensures IsIndexList(Deltas(body), Indices(Fragments(body)))
    ensures IsIdentity(Deltas(body), Indices(Fragments(body)), IdentityOf(body))
  {
    hide At, Fold, FoldOne, Content, Reasoning, Fragments, Deltas, Pieces, CallFrom, Indices;
    TextsAreSaid(body);
    var placed := Fragments(body);
    IndicesAreKeys(placed);
    forall i
      ensures i in Fold(placed) <==> Pieces(Deltas(body), i) != []
      ensures i in Fold(placed) ==> Fold(placed)[i] == CallFrom(Pieces(Deltas(body), i))
    {
      FoldIsPerIndex(placed, i);
      FragmentsArePieces(body, i);
      FoldOneIsCallFrom(At(placed, i));
    }
    forall k | 0 <= k < |Indices(placed)| ensures Calls(placed)[k] == CallFrom(Pieces(Deltas(body), Indices(placed)[k])) {
      assert Indices(placed)[k] in Indices(placed);
    }
  }

  /** Two bodies have one identity exactly when both texts and the calls in index order are the same. */
  lemma OneIdentityIff(a: seq<Timed>, b: seq<Timed>, ia: seq<int>, ib: seq<int>)
    requires IsIndexList(Deltas(a), ia) && IsIndexList(Deltas(b), ib)
    ensures IdentityOf(a) == IdentityOf(b)
            <==> SaidContent(Deltas(a)) == SaidContent(Deltas(b)) && SaidReasoning(Deltas(a)) == SaidReasoning(Deltas(b))
                 && CallsAt(Deltas(a), ia) == CallsAt(Deltas(b), ib)
  {
    hide Deltas, SaidContent, SaidReasoning, CallsAt, IdentityOf, Indices, IsIndexList, Fragments;
    IdentityIsWhatWasSaid(a);
    IdentityIsWhatWasSaid(b);
    OneIndexList(Deltas(a), ia, Indices(Fragments(a)));
    OneIndexList(Deltas(b), ib, Indices(Fragments(b)));
  }

  lemma OneIndexList(deltas: seq<Delta>, a: seq<int>, b: seq<int>)
    requires IsIndexList(deltas, a) && IsIndexList(deltas, b)
    ensures a == b
  {
    hide Pieces;
    forall i ensures i in a <==> i in b {
      assert i in a <==> Pieces(deltas, i) != [];
    }
    RisingIsUnique(a, b);
  }

  /**
    One more event: its texts are appended to the two texts, and each of its fragments to the pieces of its own index,
    or of its position when it has none. Events without a delta and lines without data add nothing.
   */
  lemma EventGrowsIdentity(body: seq<Timed>, at: real, usage: Option<Usage>, finish: Option<string>,
                           content: Option<string>, reasoning: Option<string>, tools: Option<seq<ToolDelta>>, i: int)
    ensures var delta := Delta(content, reasoning, tools);
            var longer := body + [Timed(Data(Event(usage, Some(Choice(finish, Some(delta))))), at)];
            IdentityOf(longer).content == IdentityOf(body).content + (if content.Some? then content.value else "")
            && IdentityOf(longer).reasoning == IdentityOf(body).reasoning + (if reasoning.Some? then reasoning.value else "")
            && Pieces(Deltas(longer), i)
               == Pieces(Deltas(body), i) + (if tools.Some? then PiecesIn(tools.value, i) else [])
    ensures IdentityOf(body + [Timed(Data(Event(usage, Some(Choice(finish, None)))), at)]) == IdentityOf(body)
    ensures IdentityOf(body + [Timed(Data(Event(usage, None)), at)]) == IdentityOf(body)
    ensures IdentityOf(body + [Timed(Ignored, at)]) == IdentityOf(body)
  {
    hide Calls, Content, Reasoning, Fragments, SaidContent, SaidReasoning, Pieces, PiecesIn;
    var delta := Delta(content, reasoning, tools);
    var t := Timed(Data(Event(usage, Some(Choice(finish, Some(delta))))), at);
    OneMoreDelta(Deltas(body), delta, i);
    TextsAreSaid(body);
    TextsAreSaid(body + [t]);
    assert (body + [t])[..|body|] == body && Deltas(body + [t]) == Deltas(body) + [delta];
    NoPieces(i);
    hide Deltas;
    assert Pieces(Deltas(body), i) + [] == Pieces(Deltas(body), i);
    SilentAddsNothing(body, Timed(Data(Event(usage, Some(Choice(finish, None)))), at));
    SilentAddsNothing(body, Timed(Data(Event(usage, None)), at));
    SilentAddsNothing(body, Timed(Ignored, at));
  }

  lemma SilentAddsNothing(body: seq<Timed>, t: Timed)
    requires DeltasIn(t.line) == []
    ensures IdentityOf(body + [t]) == IdentityOf(body)
  {
    hide Calls;
    BodyNext(body, t);
    LineIsDelta(t.line);
    SilentLine(t.line);
    assert Content(body) + "" == Content(body) && Reasoning(body) + "" == Reasoning(body);
    assert Fragments(body) + [] == Fragments(body);
  }

  // ---- the figures and the times ---------------------------------------------------------------------

  function PromptReports(body: seq<Timed>): seq<int> {
    if body == [] then []
    else
      PromptReports(body[..|body| - 1])
      + match body[|body| - 1].line
        case Data(Event(Some(Usage(Some(tokens), _, _)), _)) => [tokens]
        case _ => []
  }

  function CompletionReports(body: seq<Timed>): seq<int> {
    if body == [] then []
    else
      CompletionReports(body[..|body| - 1])
      + match body[|body| - 1].line
        case Data(Event(Some(Usage(_, Some(tokens), _)), _)) => [tokens]
        case _ => []
  }

  function CachedReports(body: seq<Timed>): seq<int> {
    if body == [] then []
    else
      CachedReports(body[..|body| - 1])
      + match body[|body| - 1].line
        case Data(Event(Some(Usage(_, _, Some(Some(tokens)))), _)) => [tokens]
        case _ => []
  }

  function Finishes(body: seq<Timed>): seq<string> {
    if body == [] then []
    else
      Finishes(body[..|body| - 1])
      + match body[|body| - 1].line
        case Data(Event(_, Some(Choice(Some(reason), _)))) => [reason]
        case _ => []
  }

  /** The last value that is not zero; zero when there is none. */
  function LastNonzero(s: seq<int>): int {
    if s == [] then 0
    else if s[|s| - 1] != 0 then s[|s| - 1]
    else LastNonzero(s[..|s| - 1])
  }

  predicate Speaks(line: Line) {
    match line
    case Data(Event(_, Some(Choice(_, Some(Delta(content, reasoning, tools)))))) =>
      (content.Some? && content.value != "") || (reasoning.Some? && reasoning.value != "")
      || (tools.Some? && tools.value != [])
    case _ => false
  }

  function SpeakingTimes(body: seq<Timed>): seq<real> {
    if body == [] then []
    else SpeakingTimes(body[..|body| - 1]) + (if Speaks(body[|body| - 1].line) then [body[|body| - 1].at] else [])
  }

  lemma LastNonzeroNext(s: seq<int>, x: int)
    ensures LastNonzero(s + [x]) == if x != 0 then x else LastNonzero(s)
  {
    assert (s + [x])[..|s|] == s;
  }

  lemma {:induction false} FiguresAreReports(body: seq<Timed>)
    ensures Prompt(body) == LastNonzero(PromptReports(body))
    ensures Completion(body) == LastNonzero(CompletionReports(body))
    ensures Cached(body) == LastNonzero(CachedReports(body))
  {
    hide LastNonzero;
    if body == [] {
      assert LastNonzero([]) == 0 by {
        LastNonzeroNone();
      }
    } else {
      var front, last := body[..|body| - 1], body[|body| - 1];
      FiguresAreReports(front);
      assert PromptReports(front) + [] == PromptReports(front);
      assert CompletionReports(front) + [] == CompletionReports(front);
      assert CachedReports(front) + [] == CachedReports(front);
      if last.line.Data? && last.line.event.usage.Some? {
        var u := last.line.event.usage.value;
        LastNonzeroNext(PromptReports(front), u.prompt.GetOr(0));
        LastNonzeroNext(CompletionReports(front), u.completion.GetOr(0));
        LastNonzeroNext(CachedReports(front), u.details.GetOr(None).GetOr(0));
      }
    }
  }

  lemma LastNonzeroNone()
    ensures LastNonzero([]) == 0
  {
  }

  lemma {:induction false} FinishIsLast(body: seq<Timed>)
    ensures FinishReason(body) == var s := Finishes(body); if s == [] then None else Some(s[|s| - 1])
  {
    if body == [] {
    } else {
      FinishIsLast(body[..|body| - 1]);
    }
  }

  lemma SpeaksIsGenerates(line: Line)
    ensures Speaks(line) <==> Generates(line)
  {
  }

  lemma {:induction false} TimesAreSpeaking(body: seq<Timed>)
    ensures Times(body) == SpeakingTimes(body)
  {
    hide Generates, Speaks;
    if body == [] {
    } else {
      TimesAreSpeaking(body[..|body| - 1]);
      SpeaksIsGenerates(body[|body| - 1].line);
    }
  }

  lemma {:induction false} PromptIsListed(body: seq<Timed>)
    ensures (exists t :: t in body && ReportsPrompt(t.line)) <==> exists x :: x in PromptReports(body) && x > 0
  {
    if body == [] {
    } else {
      var front, last := body[..|body| - 1], body[|body| - 1];
      assert body == front + [last];
      PromptIsListed(front);
      var more := PromptReports(body)[|PromptReports(front)|..];
      assert PromptReports(body) == PromptReports(front) + more;
      assert ReportsPrompt(last.line) <==> exists x :: x in more && x > 0 by {
        if ReportsPrompt(last.line) {
          assert last.line.event.usage.value.prompt.value in more;
        }
      }
      hide PromptReports, ReportsPrompt;
      ExistsNext(front, last, (t: Timed) => ReportsPrompt(t.line));
      ExistsEither(PromptReports(front), more, (x: int) => x > 0);
    }
  }

  lemma {:induction false} CacheIsListed(body: seq<Timed>)
    ensures (exists t :: t in body && ReportsCache(t.line)) <==> exists x :: x in CachedReports(body) && x >= 0
  {
    if body == [] {
    } else {
      var front, last := body[..|body| - 1], body[|body| - 1];
      assert body == front + [last];
      CacheIsListed(front);
      var more := CachedReports(body)[|CachedReports(front)|..];
      assert CachedReports(body) == CachedReports(front) + more;
      assert ReportsCache(last.line) <==> exists x :: x in more && x >= 0 by {
        if ReportsCache(last.line) {
          assert last.line.event.usage.value.details.value.value in more;
        }
      }
      hide CachedReports, ReportsCache;
      ExistsNext(front, last, (t: Timed) => ReportsCache(t.line));
      ExistsEither(CachedReports(front), more, (x: int) => x >= 0);
    }
  }

  lemma ExistsNext<T>(s: seq<T>, x: T, p: T -> bool)
    ensures (exists t :: t in s + [x] && p(t)) <==> (exists t :: t in s && p(t)) || p(x)
  {
    if p(x) {
      assert x in s + [x];
    }
    if t :| t in s && p(t) {
      assert t in s + [x];
    }
  }

  lemma ExistsEither<T>(a: seq<T>, b: seq<T>, p: T -> bool)
    ensures (exists t :: t in a + b && p(t)) <==> (exists t :: t in a && p(t)) || exists t :: t in b && p(t)
  {
    if t :| t in a && p(t) {
      assert t in a + b;
    }
    if t :| t in b && p(t) {
      assert t in a + b;
    }
  }

  // ---- the answer ------------------------------------------------------------------------------------

  /** The lines of a stream up to its done marker, none of which ends it. */
  ghost predicate Unended(body: seq<Timed>) {
    forall t :: t in body ==> t.line.Ignored? || t.line.Data?
  }

  /** Whether the events before the done marker make an answer. */
  ghost predicate Answers(body: seq<Timed>, probe: bool) {
    (probe || (SpeakingTimes(body) != [] && LastNonzero(CompletionReports(body)) > 0))
    && (exists x :: x in PromptReports(body) && x > 0)
    && (exists x :: x in CachedReports(body) && x >= 0)
    && LastNonzero(CachedReports(body)) <= LastNonzero(PromptReports(body))
  }

  /** The whole answer in terms of the events: its condition, its identity, its figures and its times. */
  lemma AnswerMeans(body: seq<Timed>, done: real, rest: seq<Timed>, completed: real, probe: bool)
    requires Unended(body)
    ensures var r := ResponseTo(body + [Timed(Done, done)] + rest, completed, probe);
            r.Answered? <==> Answers(body, probe)
    ensures var r := ResponseTo(body + [Timed(Done, done)] + rest, completed, probe);
            r.Answered? ==>
              (exists indices :: IsIndexList(Deltas(body), indices) && IsIdentity(Deltas(body), indices, r.identity))
              && r.promptTokens == LastNonzero(PromptReports(body))
              && r.cachedTokens == LastNonzero(CachedReports(body))
              && r.completionTokens == LastNonzero(CompletionReports(body))
              && r.finish == (var s := Finishes(body); if s == [] then None else Some(s[|s| - 1]))
              && IsTimed(r, SpeakingTimes(body), completed)
  {
    hide Content, Reasoning, Fragments, Times, FinishReason, IdentityOf, Prompt, Cached, Completion, EndOf, IsIdentity,
      IsIndexList, Deltas, SpeakingTimes, PromptReports, CachedReports, CompletionReports, LastNonzero, Finishes,
      ReportsPrompt, ReportsCache;
    var lines := body + [Timed(Done, done)] + rest;
    var k := |body|;
    assert lines[k] == Timed(Done, done) && lines[..k] == body;
    forall i | 0 <= i < k ensures !Ends(lines[i].line) {
      assert lines[i] == body[i];
    }
    EndIs(lines, k);
    IdentityIsWhatWasSaid(body);
    FiguresAreReports(body);
    FinishIsLast(body);
    TimesAreSpeaking(body);
    PromptIsListed(body);
    CacheIsListed(body);
  }

  /** The events that spoke are counted and timed, and the first of them is the first token. */
  ghost predicate IsTimed(r: Response, times: seq<real>, completed: real) {
    r.Answered? && r.contentEvents == |times|
    && r.firstTokenAt == (if times == [] then completed else times[0])
    && |r.gaps| == (if times == [] then 0 else |times| - 1)
    && forall i :: 0 <= i < |r.gaps| ==> r.gaps[i] == times[i + 1] - times[i]
  }

  /**
    From the stream to the record of the request: it holds the hash of what was said, the reported figures, and the
    times of the first event that spoke and of the gaps between those that did.
   */
  lemma RecordMeans(body: seq<Timed>, done: real, rest: seq<Timed>, started: real, completed: real, probe: bool,
                    sha256: Identity -> string, text: Failure -> string)
    requires Unended(body) && Answers(body, probe)
    requires LastNonzero(CachedReports(body)) >= 0 && LastNonzero(CompletionReports(body)) >= 0
    ensures var r := ResponseTo(body + [Timed(Done, done)] + rest, completed, probe);
            r.Answered? && Outcome.Natural(r)
            && var record := Outcome.OutcomeOf(r, started, completed, sha256, text);
               record.Success?
               && (exists indices, identity ::
                     IsIndexList(Deltas(body), indices) && IsIdentity(Deltas(body), indices, identity)
                     && record.served.contentSha == sha256(identity))
               && record.served.promptTokens == LastNonzero(PromptReports(body))
               && record.served.cachedTokens == LastNonzero(CachedReports(body))
               && record.served.completionTokens == LastNonzero(CompletionReports(body))
               && record.served.started == started && record.served.completed == completed
               && record.served.firstTokenAt == (if SpeakingTimes(body) == [] then completed else SpeakingTimes(body)[0])
               && |record.served.decodeGaps| == (if SpeakingTimes(body) == [] then 0 else |SpeakingTimes(body)| - 1)
               && forall i :: 0 <= i < |record.served.decodeGaps| ==>
                    record.served.decodeGaps[i] == SpeakingTimes(body)[i + 1] - SpeakingTimes(body)[i]
  {
    hide ResponseTo, Answers, IsIndexList, IsIdentity, Deltas, SpeakingTimes, PromptReports, CachedReports,
      CompletionReports, LastNonzero, Finishes;
    AnswerMeans(body, done, rest, completed, probe);
    var r := ResponseTo(body + [Timed(Done, done)] + rest, completed, probe);
    FiguresCover(body, probe);
    var indices :| IsIndexList(Deltas(body), indices) && IsIdentity(Deltas(body), indices, r.identity);
  }

  lemma FiguresCover(body: seq<Timed>, probe: bool)
    requires Answers(body, probe)
    ensures LastNonzero(CachedReports(body)) <= LastNonzero(PromptReports(body))
  {
  }
}
