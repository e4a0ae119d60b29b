/**
  The event loop of one streamed request: which streams count as answered, what they are measured at, and the
  identity of the output they carried.
 */
module StreamRequest {
  import opened Common
  import opened StreamReader

  /** Usage as reported; a field is absent unless it is an integer, and the details unless they are an object. */
  datatype Usage = Usage(prompt: Option<int>, completion: Option<int>, details: Option<Option<int>>)

  datatype Delta = Delta(content: Option<string>, reasoning: Option<string>, tools: Option<seq<ToolDelta>>)

  datatype Choice = Choice(finish: Option<string>, delta: Option<Delta>)

  datatype Event = Event(usage: Option<Usage>, choice: Option<Choice>)

  /** A line of the response body. Lines without data and data that is not JSON are ignored alike. */
  datatype Line = Ignored | Done | ServerError(message: string) | Broken(message: string) | Data(event: Event)

  datatype Timed = Timed(line: Line, at: real)

  datatype Failure =
    | FromServer(message: string)
    | Raised(message: string)
    | NoDoneMarker
    | NoGeneratedContent
    | NoCompletionUsage
    | InvalidUsage

  /** The output that the content hash covers: both texts and the tool calls in index order. */
  datatype Identity = Identity(content: string, reasoning: string, calls: seq<ToolCall>)

  datatype Response =
    | Rejected(reason: Failure)
    | Answered(identity: Identity, promptTokens: int, cachedTokens: int, completionTokens: int, finish: Option<string>,
               contentEvents: nat, firstTokenAt: real, gaps: seq<real>)

  // ---- what an event contributes -------------------------------------------------------------

  function DeltaOf(line: Line): Option<Delta> {
    if line.Data? && line.event.choice.Some? then line.event.choice.value.delta else None
  }

  function UsageOf(line: Line): Option<Usage> {
    if line.Data? then line.event.usage else None
  }

  /** Text, reasoning or a tool fragment arrived: an event that counts as generated output. */
  predicate Generates(line: Line) {
    DeltaOf(line).Some?
    && (DeltaOf(line).value.content.GetOr("") != "" || DeltaOf(line).value.reasoning.GetOr("") != ""
        || DeltaOf(line).value.tools.GetOr([]) != [])
  }

  function ContentOf(line: Line): string {
    if DeltaOf(line).Some? then DeltaOf(line).value.content.GetOr("") else ""
  }

  function ReasoningOf(line: Line): string {
    if DeltaOf(line).Some? then DeltaOf(line).value.reasoning.GetOr("") else ""
  }

  function ToolsOf(line: Line): seq<ToolDelta> {
    if DeltaOf(line).Some? then DeltaOf(line).value.tools.GetOr([]) else []
  }

  function PlacedOf(line: Line): seq<Placed> {
    PlaceFrom(ToolsOf(line), 0)
  }

  // ---- what a body amounts to ----------------------------------------------------------------------

  function Content(body: seq<Timed>): string {
    if body == [] then "" else Content(body[..|body| - 1]) + ContentOf(body[|body| - 1].line)
  }

  function Reasoning(body: seq<Timed>): string {
    if body == [] then "" else Reasoning(body[..|body| - 1]) + ReasoningOf(body[|body| - 1].line)
  }

  function Fragments(body: seq<Timed>): seq<Placed> {
    if body == [] then [] else Fragments(body[..|body| - 1]) + PlacedOf(body[|body| - 1].line)
  }

  function Times(body: seq<Timed>): seq<real> {
    if body == [] then []
    else Times(body[..|body| - 1]) + (if Generates(body[|body| - 1].line) then [body[|body| - 1].at] else [])
  }

  function Gaps(times: seq<real>): seq<real> {
    if |times| < 2 then [] else seq(|times| - 1, i requires 0 <= i < |times| - 1 => times[i + 1] - times[i])
  }

  /** `int(reported or previous)`: a missing or zero value keeps the previous one. */
  function Report(previous: int, reported: Option<int>): int {
    if reported.Some? && reported.value != 0 then reported.value else previous
  }

  /** A figure of the usage block after a body: the last value reported for it that was not zero. */
  function Figure(field: Line -> Option<int>, body: seq<Timed>): int {
    if body == [] then 0
    else Report(Figure(field, body[..|body| - 1]), field(body[|body| - 1].line))
  }

  function PromptField(): Line -> Option<int> {
    (line: Line) => if UsageOf(line).Some? then UsageOf(line).value.prompt else None
  }

  function CompletionField(): Line -> Option<int> {
    (line: Line) => if UsageOf(line).Some? then UsageOf(line).value.completion else None
  }

  function CachedField(): Line -> Option<int> {
    (line: Line) => if UsageOf(line).Some? && UsageOf(line).value.details.Some? then UsageOf(line).value.details.value
                    else None
  }

  function Prompt(body: seq<Timed>): int {
    Figure(PromptField(), body)
  }

  function Completion(body: seq<Timed>): int {
    Figure(CompletionField(), body)
  }

  function Cached(body: seq<Timed>): int {
    Figure(CachedField(), body)
  }

  function FinishReason(body: seq<Timed>): Option<string> {
    if body == [] then None
    else
      var line := body[|body| - 1].line;
      if line.Data? && line.event.choice.Some? && line.event.choice.value.finish.Some?
      then line.event.choice.value.finish else FinishReason(body[..|body| - 1])
  }

  predicate ReportsPrompt(line: Line) {
    UsageOf(line).Some? && UsageOf(line).value.prompt.Some? && UsageOf(line).value.prompt.value > 0
  }

  predicate ReportsCache(line: Line) {
    UsageOf(line).Some? && UsageOf(line).value.details.Some? && UsageOf(line).value.details.value.Some?
    && UsageOf(line).value.details.value.value >= 0
  }

  // ---- tool calls in index order ------------------------------------------------------------------------

  function InsertIndex(sorted: seq<int>, i: int): seq<int> {
    if sorted == [] || sorted[|sorted| - 1] < i then sorted + [i]
    else if sorted[|sorted| - 1] == i then sorted
    else InsertIndex(sorted[..|sorted| - 1], i) + [sorted[|sorted| - 1]]
  }

  function Indices(placed: seq<Placed>): seq<int> {
    if placed == [] then []
    else
      var last, before := placed[|placed| - 1], Indices(placed[..|placed| - 1]);
      if last.delta.NotAnObject? then before else InsertIndex(before, last.index)
  }

  ghost predicate Rising(s: seq<int>) {
    forall i, j :: 0 <= i < j < |s| ==> s[i] < s[j]
  }

  lemma {:induction false} InsertIndexMeaning(sorted: seq<int>, i: int)
    requires Rising(sorted)
    ensures Rising(InsertIndex(sorted, i))
    ensures forall x :: x in InsertIndex(sorted, i) <==> x in sorted || x == i
  {
    if sorted == [] {
    } else {
      var front, last := sorted[..|sorted| - 1], sorted[|sorted| - 1];
      assert sorted == front + [last];
      if last > i {
        InsertIndexMeaning(front, i);
        var r := InsertIndex(front, i);
        forall k | 0 <= k < |r| ensures r[k] < last {
          assert r[k] in r;
        }
      }
    }
  }

  /** The index list is sorted and holds exactly the keys of the folded calls. */
  lemma {:induction false} IndicesAreKeys(placed: seq<Placed>)
    ensures Rising(Indices(placed))
    ensures forall i :: i in Indices(placed) <==> i in Fold(placed)
  {
    if placed == [] {
    } else {
      var front, last := placed[..|placed| - 1], placed[|placed| - 1];
      IndicesAreKeys(front);
      InsertIndexMeaning(Indices(front), last.index);
    }
  }

  lemma {:induction false} RisingIsUnique(a: seq<int>, b: seq<int>)
    requires Rising(a) && Rising(b) && forall i :: i in a <==> i in b
    ensures a == b
    decreases |a|
  {
    if b != [] {
      assert b[|b| - 1] in b;
      assert b[|b| - 1] in a;
    }
    if a == [] {
    } else {
      RisingFront(a);
      assert a[|a| - 1] in b;
      RisingFront(b);
      assert b[|b| - 1] in a;
      var fa, fb := a[..|a| - 1], b[..|b| - 1];
      assert a == fa + [a[|a| - 1]] && b == fb + [b[|b| - 1]];
      assert a[|a| - 1] == b[|b| - 1];
      forall i ensures i in fa <==> i in fb {
        assert i in fa <==> i in a && i != a[|a| - 1];
        assert i in fb <==> i in b && i != a[|a| - 1];
      }
      RisingIsUnique(fa, fb);
    }
  }

  lemma RisingFront(a: seq<int>)
    requires Rising(a) && a != []
    ensures a[|a| - 1] in a && Rising(a[..|a| - 1])
    ensures forall x :: x in a ==> x <= a[|a| - 1]
    ensures forall x :: x in a[..|a| - 1] <==> x in a && x != a[|a| - 1]
  {
    var front, last := a[..|a| - 1], a[|a| - 1];
    assert a == front + [last];
    assert a[|a| - 1] == last;
    forall k | 0 <= k < |front| ensures front[k] < last {
      assert front[k] == a[k];
    }
  }

  function Calls(placed: seq<Placed>): seq<ToolCall> {
    IndicesAreKeys(placed);
    var keys := Indices(placed);
    seq(|keys|, k requires 0 <= k < |keys| => (assert keys[k] in keys; Fold(placed)[keys[k]]))
  }

  lemma SameFoldSameCalls(a: seq<Placed>, b: seq<Placed>)
    requires Fold(a) == Fold(b)
    ensures Calls(a) == Calls(b)
  {
    IndicesAreKeys(a);
    IndicesAreKeys(b);
    RisingIsUnique(Indices(a), Indices(b));
  }

  function IdentityOf(body: seq<Timed>): Identity {
    Identity(Content(body), Reasoning(body), Calls(Fragments(body)))
  }

  // ---- the verdict on a stream ------------------------------------------------------------------------------

  predicate Ends(line: Line) {
    line.Done? || line.ServerError? || line.Broken?
  }

  /** The position of the first line that ends the loop, or the length of the stream. */
  function EndOf(lines: seq<Timed>): (k: nat)
    ensures k <= |lines| && forall i :: 0 <= i < k ==> !Ends(lines[i].line)
    ensures k < |lines| ==> Ends(lines[k].line)
  {
    if lines == [] then 0
    else
      var k := EndOf(lines[..|lines| - 1]);
      if k < |lines| - 1 then k
      else if Ends(lines[|lines| - 1].line) then |lines| - 1 else |lines|
  }

  function ResponseTo(lines: seq<Timed>, completed: real, probe: bool): Response {
    var end := EndOf(lines);
    var body := lines[..end];
    if end == |lines| then Rejected(NoDoneMarker)
    else if lines[end].line.ServerError? then Rejected(FromServer(lines[end].line.message))
    else if lines[end].line.Broken? then Rejected(Raised(lines[end].line.message))
    else Judge(body, true, completed, probe)
  }

  /** One more line of a body that has not ended. */
  lemma BodyNext(body: seq<Timed>, t: Timed)
    ensures var longer := body + [t];
            Content(longer) == Content(body) + ContentOf(t.line)
            && Reasoning(longer) == Reasoning(body) + ReasoningOf(t.line)
            && Fragments(longer) == Fragments(body) + PlacedOf(t.line)
            && Times(longer) == Times(body) + (if Generates(t.line) then [t.at] else [])
    ensures var longer, u := body + [t], UsageOf(t.line);
            Prompt(longer) == (if u.Some? then Report(Prompt(body), u.value.prompt) else Prompt(body))
            && Completion(longer) == (if u.Some? then Report(Completion(body), u.value.completion) else Completion(body))
            && Cached(longer) == (if u.Some? && u.value.details.Some? then Report(Cached(body), u.value.details.value)
                                  else Cached(body))
    ensures FinishReason(body + [t])
         == if t.line.Data? && t.line.event.choice.Some? && t.line.event.choice.value.finish.Some?
            then t.line.event.choice.value.finish else FinishReason(body)
  {
    assert (body + [t])[..|body|] == body;
  }

  lemma SilentLine(line: Line)
    requires !Generates(line)
    ensures ContentOf(line) == "" && ReasoningOf(line) == "" && PlacedOf(line) == []
  {
  }

  datatype Usages = Usages(prompt: int, cached: int, completion: int, sawPrompt: bool, sawCache: bool)

  ghost predicate Reported(u: Usages, body: seq<Timed>) {
    u.prompt == Prompt(body) && u.cached == Cached(body) && u.completion == Completion(body)
    && (u.sawPrompt <==> exists t :: t in body && ReportsPrompt(t.line))
    && (u.sawCache <==> exists t :: t in body && ReportsCache(t.line))
  }

  /** The usage block of the loop. */
  method TakeUsage(u0: Usages, line: Line, ghost body: seq<Timed>, ghost t: Timed) returns (u: Usages)
    requires Reported(u0, body) && t.line == line
    ensures Reported(u, body + [t])
  {
    BodyNext(body, t);
    u := u0;
    if UsageOf(line).Some? {
      var usage := UsageOf(line).value;
      u := u.(sawPrompt := u.sawPrompt || ReportsPrompt(line), sawCache := u.sawCache || ReportsCache(line));
      u := u.(completion := Report(u.completion, usage.completion), prompt := Report(u.prompt, usage.prompt));
      if usage.details.Some? {
        u := u.(cached := Report(u.cached, usage.details.value));
      }
    }
    hide Prompt, Cached, Completion, Content, Reasoning, Fragments, Times, FinishReason;
  }

  /** The loop over response lines, updating one counter or list at a time. */
  method ReadStream(lines: seq<Timed>, completed: real, probe: bool) returns (r: Response)
    ensures r == ResponseTo(lines, completed, probe)
  {
    NothingYet();
    hide Prompt, Cached, Completion, Content, Reasoning, Fragments, Times, FinishReason, PlacedOf, Fold, Indices,
      EndOf, Generates, ContentOf, ReasoningOf, Reported;
    var content, reasoning := "", "";
    var parts := new ToolCallParts();
    var indices: seq<int> := [];
    var times: seq<real> := [];
    var u := Usages(0, 0, 0, false, false);
    var sawDone := false;
    var finish: Option<string> := None;
    var i := 0;
    assert lines[..0] == [];
    while i < |lines| && !sawDone
      invariant i <= |lines| && (sawDone ==> i < |lines| && lines[i].line.Done?)
      invariant forall k :: 0 <= k < i ==> !Ends(lines[k].line)
      invariant content == Content(lines[..i]) && reasoning == Reasoning(lines[..i])
      invariant parts.calls == Fold(Fragments(lines[..i])) && fresh(parts)
      invariant indices == Indices(Fragments(lines[..i]))
      invariant times == Times(lines[..i])
      invariant Reported(u, lines[..i])
      invariant finish == FinishReason(lines[..i])
      decreases |lines| - i, if sawDone then 0 else 1
    {
      var line, at := lines[i].line, lines[i].at;
      if line.Done? {
        sawDone := true;
      } else if line.ServerError? {
        EndIs(lines, i);
        return Rejected(FromServer(line.message));
      } else if line.Broken? {
        EndIs(lines, i);
        return Rejected(Raised(line.message));
      } else {
        assert lines[..i + 1] == lines[..i] + [lines[i]];
        BodyNext(lines[..i], lines[i]);
        u := TakeUsage(u, line, lines[..i], lines[i]);
        if line.Data? && line.event.choice.Some? && line.event.choice.value.finish.Some? {
          finish := line.event.choice.value.finish;
        }
        if Generates(line) {
          times := times + [at];
          content := content + ContentOf(line);
          reasoning := reasoning + ReasoningOf(line);
          PlacedAreInPlace(line);
          indices := MergeAll(parts, PlacedOf(line), indices, Fragments(lines[..i]));
        } else {
          SilentLine(line);
          assert content + "" == content && reasoning + "" == reasoning;
          assert Fragments(lines[..i]) + [] == Fragments(lines[..i]);
        }
        i := i + 1;
      }
    }
    EndIs(lines, i);
    r := Conclude(lines[..i], sawDone, content, reasoning, parts, indices, times, u, finish, completed, probe);
  }

  lemma NothingYet()
    ensures Content([]) == "" && Reasoning([]) == "" && Fragments([]) == [] && Times([]) == []
    ensures Fold([]) == map[] && Indices([]) == [] && FinishReason([]) == None
    ensures Reported(Usages(0, 0, 0, false, false), [])
  {
  }

  lemma PlacedAreInPlace(line: Line)
    ensures forall k :: 0 <= k < |PlacedOf(line)| ==>
              PlacedOf(line)[k] == Place(PlacedOf(line)[k].delta, PlacedOf(line)[k].index)
  {
    var tools := ToolsOf(line);
    forall k | 0 <= k < |tools| ensures PlacedOf(line)[k] == Place(PlacedOf(line)[k].delta, PlacedOf(line)[k].index) {
      assert PlacedOf(line)[k] == Place(tools[k], k);
    }
  }

  /** What a finished body is worth, given whether the done marker followed it. */
  function Judge(body: seq<Timed>, sawDone: bool, completed: real, probe: bool): Response {
    if !sawDone then Rejected(NoDoneMarker)
    else if Times(body) == [] && !probe then Rejected(NoGeneratedContent)
    else if Completion(body) <= 0 && !probe then Rejected(NoCompletionUsage)
    else if !(exists t :: t in body && ReportsPrompt(t.line)) || !(exists t :: t in body && ReportsCache(t.line))
            || Cached(body) > Prompt(body) then Rejected(InvalidUsage)
    else Answered(IdentityOf(body), Prompt(body), Cached(body), Completion(body), FinishReason(body), |Times(body)|,
                  if Times(body) == [] then completed else Times(body)[0], Gaps(Times(body)))
  }

  /** The checks after the loop. */
  method Conclude(ghost body: seq<Timed>, sawDone: bool, content: string, reasoning: string, parts: ToolCallParts,
                  indices: seq<int>, times: seq<real>, u: Usages, finish: Option<string>, completed: real, probe: bool)
    returns (r: Response)
    requires content == Content(body) && reasoning == Reasoning(body) && parts.calls == Fold(Fragments(body))
    requires indices == Indices(Fragments(body)) && times == Times(body) && Reported(u, body)
    requires finish == FinishReason(body)
    ensures r == Judge(body, sawDone, completed, probe)
  {
    hide Prompt, Cached, Completion, Content, Reasoning, Fragments, Times, FinishReason, Fold, Indices;
    if !sawDone {
      return Rejected(NoDoneMarker);
    }
    if times == [] && !probe {
      return Rejected(NoGeneratedContent);
    }
    if u.completion <= 0 && !probe {
      return Rejected(NoCompletionUsage);
    }
    if !u.sawPrompt || !u.sawCache || u.cached > u.prompt {
      return Rejected(InvalidUsage);
    }
    IndicesAreKeys(Fragments(body));
    var calls: seq<ToolCall> := [];
    for k := 0 to |indices|
      invariant calls == Calls(Fragments(body))[..k]
    {
      assert indices[k] in indices;
      calls := calls + [parts.calls[indices[k]]];
    }
    assert calls == Calls(Fragments(body));
    r := Answered(Identity(content, reasoning, calls), u.prompt, u.cached, u.completion, finish, |times|,
                  if times == [] then completed else times[0], Gaps(times));
  }

  method MergeAll(parts: ToolCallParts, placed: seq<Placed>, indices0: seq<int>, ghost before: seq<Placed>)
    returns (indices: seq<int>)
    requires parts.calls == Fold(before) && indices0 == Indices(before)
    requires forall k :: 0 <= k < |placed| ==> placed[k] == Place(placed[k].delta, placed[k].index)
    modifies parts
    ensures parts.calls == Fold(before + placed) && indices == Indices(before + placed)
  {
    hide Fold, Indices, InsertIndex, MergePlaced;
    indices := indices0;
    assert before + placed[..0] == before;
    for k := 0 to |placed|
      invariant parts.calls == Fold(before + placed[..k]) && indices == Indices(before + placed[..k])
    {
      parts.Merge(placed[k].delta, placed[k].index);
      assert before + placed[..k + 1] == (before + placed[..k]) + [placed[k]];
      OneMore(before + placed[..k], placed[k]);
      if placed[k].delta.ToolDelta? {
        indices := InsertIndex(indices, placed[k].index);
      }
    }
    assert placed[..|placed|] == placed;
  }

  lemma OneMore(placed: seq<Placed>, p: Placed)
    ensures Fold(placed + [p]) == MergePlaced(Fold(placed), p)
    ensures Indices(placed + [p]) == if p.delta.NotAnObject? then Indices(placed) else InsertIndex(Indices(placed), p.index)
  {
    assert (placed + [p])[..|placed|] == placed;
  }

  lemma EndIs(lines: seq<Timed>, i: nat)
    requires i <= |lines| && forall k :: 0 <= k < i ==> !Ends(lines[k].line)
    requires i < |lines| ==> Ends(lines[i].line)
    ensures EndOf(lines) == i
  {
  }

  // ---- what the verdict means -------------------------------------------------------------------------------

  /**
    A stream is answered exactly when its first ending line is the done marker and the body before it generated
    something, counted completion tokens, reported a positive prompt and a cache figure, and claims no more cached
    tokens than prompt tokens. A qualification probe is excused from generating and counting.
   */
  lemma AnsweredIff(lines: seq<Timed>, completed: real, probe: bool)
    ensures ResponseTo(lines, completed, probe).Answered? <==>
              exists k :: 0 <= k < |lines| && lines[k].line.Done?
                && (forall i :: 0 <= i < k ==> !Ends(lines[i].line))
                && (probe || exists i :: 0 <= i < k && Generates(lines[i].line))
                && (probe || Completion(lines[..k]) > 0)
                && (exists i :: 0 <= i < k && ReportsPrompt(lines[i].line))
                && (exists i :: 0 <= i < k && ReportsCache(lines[i].line))
                && Cached(lines[..k]) <= Prompt(lines[..k])
  {
    hide Prompt, Cached, Completion, FinishReason, IdentityOf, Times, Generates, EndOf;
    var end := EndOf(lines);
    var body := lines[..end];
    TimesEmpty(body);
    InBody(lines, end);
    if k :| 0 <= k < |lines| && lines[k].line.Done? && forall i :: 0 <= i < k ==> !Ends(lines[i].line) {
      EndIs(lines, k);
    }
  }

  lemma InBody(lines: seq<Timed>, end: nat)
    requires end <= |lines|
    ensures (exists t :: t in lines[..end] && ReportsPrompt(t.line)) <==>
              exists i :: 0 <= i < end && ReportsPrompt(lines[i].line)
    ensures (exists t :: t in lines[..end] && ReportsCache(t.line)) <==>
              exists i :: 0 <= i < end && ReportsCache(lines[i].line)
  {
    var body := lines[..end];
    if i :| 0 <= i < end && ReportsPrompt(lines[i].line) {
      assert body[i] in body;
    }
    if i :| 0 <= i < end && ReportsCache(lines[i].line) {
      assert body[i] in body;
    }
    if t :| t in body && ReportsPrompt(t.line) {
      var i :| 0 <= i < end && body[i] == t;
      assert ReportsPrompt(lines[i].line);
    }
    if t :| t in body && ReportsCache(t.line) {
      var i :| 0 <= i < end && body[i] == t;
      assert ReportsCache(lines[i].line);
    }
  }

  lemma {:induction false} TimesEmpty(body: seq<Timed>)
    ensures Times(body) == [] <==> forall i :: 0 <= i < |body| ==> !Generates(body[i].line)
  {
    if body == [] {
    } else {
      TimesEmpty(body[..|body| - 1]);
    }
  }

  /** The recorded gaps add up to the time between the first and the last generated event. */
  lemma {:induction false} GapsTelescope(times: seq<real>)
    requires times != []
    ensures SumReal(Gaps(times)) == times[|times| - 1] - times[0]
    ensures |Gaps(times)| == |times| - 1
  {
    if |times| == 1 {
    } else {
      var tail := times[1..];
      GapsTelescope(tail);
      assert Gaps(times) == [times[1] - times[0]] + Gaps(tail);
    }
  }

  // ---- re-chunking -----------------------------------------------------------------------------------------------

  lemma {:induction false} ContentAppend(a: seq<Timed>, b: seq<Timed>)
    ensures Content(a + b) == Content(a) + Content(b)
  {
    hide ContentOf;
    if b == [] {
      assert a + b == a;
    } else {
      assert (a + b)[..|a + b| - 1] == a + b[..|b| - 1];
      ContentAppend(a, b[..|b| - 1]);
    }
  }

  lemma {:induction false} ReasoningAppend(a: seq<Timed>, b: seq<Timed>)
    ensures Reasoning(a + b) == Reasoning(a) + Reasoning(b)
  {
    hide ReasoningOf;
    if b == [] {
      assert a + b == a;
    } else {
      assert (a + b)[..|a + b| - 1] == a + b[..|b| - 1];
      ReasoningAppend(a, b[..|b| - 1]);
    }
  }

  lemma {:induction false} FragmentsAppend(a: seq<Timed>, b: seq<Timed>)
    ensures Fragments(a + b) == Fragments(a) + Fragments(b)
  {
    hide PlacedOf;
    if b == [] {
      assert a + b == a;
    } else {
      assert (a + b)[..|a + b| - 1] == a + b[..|b| - 1];
      FragmentsAppend(a, b[..|b| - 1]);
    }
  }

  lemma BodyAppend(a: seq<Timed>, b: seq<Timed>)
    ensures Content(a + b) == Content(a) + Content(b)
    ensures Reasoning(a + b) == Reasoning(a) + Reasoning(b)
    ensures Fragments(a + b) == Fragments(a) + Fragments(b)
  {
    hide Content, Reasoning, Fragments;
    ContentAppend(a, b);
    ReasoningAppend(a, b);
    FragmentsAppend(a, b);
  }

  /**
    Bodies with equal texts that agree at every tool index have the same identity, hence the same hash. The order in
    which fragments of different calls arrived, and the events that they arrived in, do not matter.
   */
  lemma SameOutputSameIdentity(a: seq<Timed>, b: seq<Timed>)
    requires Content(a) == Content(b) && Reasoning(a) == Reasoning(b)
    requires forall i :: SameAt(Fragments(a), Fragments(b), i)
    ensures IdentityOf(a) == IdentityOf(b)
  {
    hide SameAt, Fold, At, FoldOne;
    SameFoldIff(Fragments(a), Fragments(b));
    SameFoldSameCalls(Fragments(a), Fragments(b));
  }

  lemma SingleLine(t: Timed)
    ensures Content([t]) == ContentOf(t.line) && Reasoning([t]) == ReasoningOf(t.line)
    ensures Fragments([t]) == PlacedOf(t.line)
  {
    hide ContentOf, ReasoningOf, PlacedOf;
    assert [t][..0] == [];
    assert Content([]) == "" && Reasoning([]) == "" && Fragments([]) == [];
    assert Content([t]) == [] + ContentOf(t.line);
    assert Reasoning([t]) == [] + ReasoningOf(t.line);
    assert Fragments([t]) == [] + PlacedOf(t.line);
  }

  lemma TwoLines(x: Timed, y: Timed)
    ensures Content([x, y]) == ContentOf(x.line) + ContentOf(y.line)
    ensures Reasoning([x, y]) == ReasoningOf(x.line) + ReasoningOf(y.line)
    ensures Fragments([x, y]) == PlacedOf(x.line) + PlacedOf(y.line)
  {
    hide Content, Reasoning, Fragments, PlacedOf, ContentOf, ReasoningOf;
    assert [x, y] == [x] + [y];
    BodyAppend([x], [y]);
    SingleLine(x);
    SingleLine(y);
  }

  lemma Splice(before: seq<Timed>, events: seq<Timed>, after: seq<Timed>)
    ensures Content(before + events + after) == Content(before) + Content(events) + Content(after)
    ensures Reasoning(before + events + after) == Reasoning(before) + Reasoning(events) + Reasoning(after)
    ensures Fragments(before + events + after) == Fragments(before) + Fragments(events) + Fragments(after)
  {
    hide Content, Reasoning, Fragments;
    BodyAppend(before, events);
    BodyAppend(before + events, after);
  }

  /** The texts of one line are those of two lines together. */
  predicate TextsAddUp(whole: Line, first: Line, second: Line) {
    ContentOf(whole) == ContentOf(first) + ContentOf(second)
    && ReasoningOf(whole) == ReasoningOf(first) + ReasoningOf(second)
  }

  /**
    Cutting any event in two, anywhere in either text and between any two tool fragments, leaves the identity unchanged,
    provided that the fragments which move to the second event are indexed.
   */
  lemma SplitEvent(before: seq<Timed>, after: seq<Timed>, whole: Timed, first: Timed, second: Timed)
    requires TextsAddUp(whole.line, first.line, second.line)
    requires ToolsOf(whole.line) == ToolsOf(first.line) + ToolsOf(second.line) && Indexed(ToolsOf(second.line))
    ensures IdentityOf(before + [whole] + after) == IdentityOf(before + [first, second] + after)
  {
    CutTexts(before, after, whole, first, second);
    var one, two := ToolsOf(first.line), ToolsOf(second.line);
    PlaceFromAppend(one, two, 0);
    hide Content, Reasoning, Fragments, Fold, PlaceFrom, ToolsOf;
    SamePlacedAnywhere(Fragments(before) + PlaceFrom(one, 0), Fragments(after), two, |one|, 0);
    Regroup(Fragments(before), PlaceFrom(one, 0), PlaceFrom(two, |one|), Fragments(after));
    Regroup(Fragments(before), PlaceFrom(one, 0), PlaceFrom(two, 0), Fragments(after));
    SameFoldSameCalls(Fragments(before + [whole] + after), Fragments(before + [first, second] + after));
  }

  lemma Regroup(a: seq<Placed>, b: seq<Placed>, c: seq<Placed>, d: seq<Placed>)
    ensures a + b + c + d == a + (b + c) + d
  {
  }

  /** What is left to compare after a cut are the fragments. */
  lemma CutTexts(before: seq<Timed>, after: seq<Timed>, whole: Timed, first: Timed, second: Timed)
    requires TextsAddUp(whole.line, first.line, second.line)
    ensures Content(before + [whole] + after) == Content(before + [first, second] + after)
    ensures Reasoning(before + [whole] + after) == Reasoning(before + [first, second] + after)
    ensures Fragments(before + [whole] + after) == Fragments(before) + PlacedOf(whole.line) + Fragments(after)
    ensures Fragments(before + [first, second] + after)
         == Fragments(before) + (PlacedOf(first.line) + PlacedOf(second.line)) + Fragments(after)
  {
    hide Content, Reasoning, Fragments, ContentOf, ReasoningOf, PlacedOf;
    SingleLine(whole);
    TwoLines(first, second);
    Splice(before, [whole], after);
    Splice(before, [first, second], after);
  }

  /** Neighbouring events may arrive in either order if their fragments never meet at an index and only one brings text. */
  lemma CommuteEvents(before: seq<Timed>, after: seq<Timed>, x: Timed, y: Timed)
    requires Apart(PlacedOf(x.line), PlacedOf(y.line))
    requires ContentOf(x.line) == "" || ContentOf(y.line) == ""
    requires ReasoningOf(x.line) == "" || ReasoningOf(y.line) == ""
    ensures IdentityOf(before + [x, y] + after) == IdentityOf(before + [y, x] + after)
  {
    hide Content, Reasoning, Fragments, Fold, ContentOf, ReasoningOf, PlacedOf, Apart;
    TwoLines(x, y);
    TwoLines(y, x);
    Splice(before, [x, y], after);
    Splice(before, [y, x], after);
    EitherOrder(ContentOf(x.line), ContentOf(y.line));
    EitherOrder(ReasoningOf(x.line), ReasoningOf(y.line));
    CommuteIndices(Fragments(before), Fragments(after), PlacedOf(x.line), PlacedOf(y.line));
    Regroup(Fragments(before), PlacedOf(x.line), PlacedOf(y.line), Fragments(after));
    Regroup(Fragments(before), PlacedOf(y.line), PlacedOf(x.line), Fragments(after));
    SameFoldSameCalls(Fragments(before + [x, y] + after), Fragments(before + [y, x] + after));
  }

  lemma EitherOrder(a: string, b: string)
    requires a == "" || b == ""
    ensures a + b == b + a
  {
    assert a + [] == a && [] + a == a && b + [] == b && [] + b == b;
  }

  // ---- when a cut inside a tool fragment shows ---------------------------------------------------------

  lemma CallCount(placed: seq<Placed>)
    ensures |Calls(placed)| == |Fold(placed)|
  {
    IndicesAreKeys(placed);
    var keys := Indices(placed);
    assert Distinct(keys);
    DistinctIffCardinality(keys);
    forall x ensures x in Elements(keys) <==> x in Fold(placed).Keys {
      assert x in Elements(keys) <==> x in keys;
    }
    assert Elements(keys) == Fold(placed).Keys;
    assert |Fold(placed)| == |Fold(placed).Keys|;
  }

  lemma CallAtKey(a: seq<Placed>, b: seq<Placed>, i: int)
    requires Calls(a) == Calls(b) && Fold(a).Keys == Fold(b).Keys && i in Fold(a)
    ensures Fold(a)[i] == Fold(b)[i]
  {
    IndicesAreKeys(a);
    IndicesAreKeys(b);
    hide Fold;
    assert forall x :: x in Indices(a) <==> x in Indices(b);
    RisingIsUnique(Indices(a), Indices(b));
    var k :| 0 <= k < |Indices(a)| && Indices(a)[k] == i;
    assert Calls(a)[k] == Fold(a)[i] && Calls(b)[k] == Fold(b)[i];
  }

  /**
    Text inserted at one index shows in the calls: it adds a call, or else it makes the arguments of one longer.
   */
  lemma InsertedTextShows(a: seq<Placed>, b: seq<Placed>, i: int)
    requires forall j :: j != i ==> (At(a, j) == [] <==> At(b, j) == [])
    requires exists p :: p in At(b, i) && MentionsFunction(p)
    requires Arguments(At(a, i)) != Arguments(At(b, i))
    ensures Calls(a) != Calls(b)
  {
    hide Fold, FoldOne, At, Arguments, Calls;
    forall j ensures (j in Fold(a) <==> At(a, j) != []) && (j in Fold(b) <==> At(b, j) != []) {
      FoldIsPerIndex(a, j);
      FoldIsPerIndex(b, j);
    }
    CallCount(a);
    CallCount(b);
    var p :| p in At(b, i) && MentionsFunction(p);
    assert i in Fold(b);
    forall j | j != i ensures j in Fold(a) <==> j in Fold(b) {
      assert At(a, j) == [] <==> At(b, j) == [];
    }
    if i in Fold(a) {
      assert Fold(a).Keys == Fold(b).Keys by {
        forall j ensures j in Fold(a).Keys <==> j in Fold(b).Keys {
          assert j != i ==> (j in Fold(a) <==> j in Fold(b));
        }
      }
      FoldIsPerIndex(a, i);
      FoldIsPerIndex(b, i);
      FoldOneMeaning(At(a, i));
      FoldOneMeaning(At(b, i));
      assert Fold(a)[i] != Fold(b)[i];
      if Calls(a) == Calls(b) {
        CallAtKey(a, b, i);
      }
    } else {
      assert Fold(b).Keys == Fold(a).Keys + {i} by {
        forall j ensures j in Fold(b).Keys <==> j in Fold(a).Keys + {i} {
          assert j != i ==> (j in Fold(a) <==> j in Fold(b));
        }
      }
      assert |Fold(a)| == |Fold(a).Keys| && |Fold(b)| == |Fold(b).Keys|;
    }
  }

  lemma AtPieces(a: seq<Placed>, b: seq<Placed>, c: seq<Placed>, d: seq<Placed>, i: int)
    ensures At(a + b + c + d, i) == At(a, i) + At(b, i) + At(c, i) + At(d, i)
  {
    AtAppend(a + b + c, d, i);
    At3(a, b, c, i);
  }

  /**
    The cut that moves text to another index: the fold after it, compared with the fold before it. `head` is what
    precedes the cut fragment and `tail` what follows it.
   */
  lemma MovedTextShows(head: seq<Placed>, tail: seq<Placed>, j: int, callType: Option<string>, name: Option<string>,
                       left: string, right: string)
    requires j != 0 && right != ""
    ensures var whole := Placed(j, ArgumentsFragment(None, callType, name, left + right));
            var first := Placed(j, ArgumentsFragment(None, callType, name, left));
            var second := Placed(0, ArgumentsFragment(None, None, None, right));
            Calls(head + [whole] + tail) != Calls(head + [first] + [second] + tail)
  {
    var whole := Placed(j, ArgumentsFragment(None, callType, name, left + right));
    var first := Placed(j, ArgumentsFragment(None, callType, name, left));
    var second := Placed(0, ArgumentsFragment(None, None, None, right));
    var a, b := head + [whole] + tail, head + [first] + [second] + tail;
    hide At, Calls;
    forall i
      ensures At(a, i) == At(head, i) + (if i == j then [whole] else []) + At(tail, i)
      ensures At(b, i) == At(head, i) + (if i == j then [first] else []) + (if i == 0 then [second] else []) + At(tail, i)
    {
      At3(head, [whole], tail, i);
      AtPieces(head, [first], [second], tail, i);
      AtSingle(whole, i);
      AtSingle(first, i);
      AtSingle(second, i);
    }
    LongerArguments(At(head, 0), second, At(tail, 0), right);
    assert At(head, 0) + [] == At(head, 0);
    assert second in At(b, 0) && MentionsFunction(second);
    InsertedTextShows(a, b, 0);
  }

  lemma LongerArguments(head: seq<Placed>, p: Placed, tail: seq<Placed>, text: string)
    requires p.delta == ArgumentsFragment(None, None, None, text) && text != ""
    ensures Arguments(head + tail) != Arguments(head + [p] + tail)
  {
    ArgumentsOne(p, text);
    hide Arguments;
    ArgumentsAppend(head, tail);
    ArgumentsAppend(head + [p], tail);
    ArgumentsAppend(head, [p]);
    assert |Arguments(head + [p] + tail)| == |Arguments(head + tail)| + |text|;
  }

  lemma ArgumentsOne(p: Placed, text: string)
    requires p.delta == ArgumentsFragment(None, None, None, text)
    ensures Arguments([p]) == text
  {
    assert [p][..0] == [];
    assert Arguments([]) == [];
    assert Arguments([p]) == [] + text;
  }

  /** The same cut on fragments alone, for any index and position. */
  lemma CutCallsIff(head: seq<Placed>, post: seq<ToolDelta>, tail: seq<Placed>, j: nat, index: Option<int>,
                    callType: Option<string>, name: Option<string>, left: string, right: string)
    requires right != "" && Indexed(post)
    ensures var d := ArgumentsFragment(index, callType, name, left + right);
            var d1, d2 := ArgumentsFragment(index, callType, name, left), ArgumentsFragment(index, None, None, right);
            Calls(head + [Place(d, j)] + (PlaceFrom(post, j + 1) + tail))
              == Calls(head + [Place(d1, j)] + [Place(d2, 0)] + PlaceFrom(post, 1) + tail)
            <==> index.Some? || j == 0
  {
    hide Fold, PlaceFrom, Calls;
    var d := ArgumentsFragment(index, callType, name, left + right);
    var d1, d2 := ArgumentsFragment(index, callType, name, left), ArgumentsFragment(index, None, None, right);
    var cut, wide := head + [Place(d1, j)] + [Place(d2, 0)], PlaceFrom(post, j + 1) + tail;
    SamePlacedAnywhere(cut, tail, post, j + 1, 1);
    SameFoldSameCalls(cut + PlaceFrom(post, j + 1) + tail, cut + PlaceFrom(post, 1) + tail);
    assert cut + PlaceFrom(post, j + 1) + tail == cut + wide;
    if index.Some? || j == 0 {
      var at := if index.Some? then index.value else 0;
      SplitArguments(head, wide, at, index, callType, name, left, right);
      assert cut == head + [Place(d1, j), Place(d2, 0)];
      SameFoldSameCalls(head + [Place(d, j)] + wide, cut + wide);
    } else {
      MovedTextShows(head, wide, j, callType, name, left, right);
    }
  }

  /**
    The exact condition for a cut inside a tool fragment. The argument text of the fragment at position `|pre|` of an
    event is cut in two, and a nonempty second part moves to the head of a new event together with whatever follows,
    which is indexed. The identity stays the same if and only if the fragment has an index or stood first.
   */
  lemma CutIsInvisibleIff(before: seq<Timed>, after: seq<Timed>, whole: Timed, first: Timed, second: Timed,
                          pre: seq<ToolDelta>, post: seq<ToolDelta>, index: Option<int>, callType: Option<string>,
                          name: Option<string>, left: string, right: string)
    requires TextsAddUp(whole.line, first.line, second.line) && right != "" && Indexed(post)
    requires ToolsOf(whole.line) == pre + [ArgumentsFragment(index, callType, name, left + right)] + post
    requires ToolsOf(first.line) == pre + [ArgumentsFragment(index, callType, name, left)]
    requires ToolsOf(second.line) == [ArgumentsFragment(index, None, None, right)] + post
    ensures IdentityOf(before + [whole] + after) == IdentityOf(before + [first, second] + after)
            <==> index.Some? || pre == []
  {
    var j := |pre|;
    var d := ArgumentsFragment(index, callType, name, left + right);
    var d1, d2 := ArgumentsFragment(index, callType, name, left), ArgumentsFragment(index, None, None, right);
    CutTexts(before, after, whole, first, second);
    CutPieces(before, after, whole, first, second, pre, d, d1, d2, post);
    IdentityIffCalls(before + [whole] + after, before + [first, second] + after);
    hide *;
    CutCallsIff(Fragments(before) + PlaceFrom(pre, 0), post, Fragments(after), j, index, callType, name, left, right);
  }

  /** An event that carries tool fragments and nothing else. */
  function ToolEvent(tools: seq<ToolDelta>, at: real): Timed {
    Timed(Data(Event(None, Some(Choice(None, Some(Delta(None, None, Some(tools))))))), at)
  }

  /** For example, cutting the text of a second fragment without an index changes the identity. */
  lemma UnindexedCutShows(at: real)
    ensures var lead := ToolDelta(None, Some("function"), None);
            IdentityOf([ToolEvent([lead, ArgumentsFragment(None, None, None, "ab")], at)])
            != IdentityOf([ToolEvent([lead, ArgumentsFragment(None, None, None, "a")], at),
                           ToolEvent([ArgumentsFragment(None, None, None, "b")], at)])
  {
    var lead := ToolDelta(None, Some("function"), None);
    var d, d1, d2 := ArgumentsFragment(None, None, None, "ab"), ArgumentsFragment(None, None, None, "a"),
                     ArgumentsFragment(None, None, None, "b");
    var whole, first, second := ToolEvent([lead, d], at), ToolEvent([lead, d1], at), ToolEvent([d2], at);
    assert "a" + "b" == "ab";
    assert [lead] + [d] + [] == [lead, d] && [lead] + [d1] == [lead, d1] && [d2] + [] == [d2];
    CutIsInvisibleIff([], [], whole, first, second, [lead], [], None, None, None, "a", "b");
    assert [] + [whole] + [] == [whole] && [] + [first, second] + [] == [first, second];
  }

  lemma IdentityIffCalls(a: seq<Timed>, b: seq<Timed>)
    requires Content(a) == Content(b) && Reasoning(a) == Reasoning(b)
    ensures IdentityOf(a) == IdentityOf(b) <==> Calls(Fragments(a)) == Calls(Fragments(b))
  {
    hide Content, Reasoning, Calls, Fragments;
  }

  /** The fragments around the cut, piece by piece. */
  lemma CutPieces(before: seq<Timed>, after: seq<Timed>, whole: Timed, first: Timed, second: Timed,
                  pre: seq<ToolDelta>, d: ToolDelta, d1: ToolDelta, d2: ToolDelta, post: seq<ToolDelta>)
    requires TextsAddUp(whole.line, first.line, second.line)
    requires ToolsOf(whole.line) == pre + [d] + post
    requires ToolsOf(first.line) == pre + [d1] && ToolsOf(second.line) == [d2] + post
    ensures Fragments(before + [whole] + after)
         == (Fragments(before) + PlaceFrom(pre, 0)) + [Place(d, |pre|)] + (PlaceFrom(post, |pre| + 1) + Fragments(after))
    ensures Fragments(before + [first, second] + after)
         == (Fragments(before) + PlaceFrom(pre, 0)) + [Place(d1, |pre|)] + [Place(d2, 0)] + PlaceFrom(post, 1)
            + Fragments(after)
  {
    hide Content, Reasoning, Fragments, PlaceFrom, ToolsOf, ContentOf, ReasoningOf, Place;
    CutTexts(before, after, whole, first, second);
    PlacedCut(pre, d, post);
    PlacedParts(pre, d1, d2, post);
    Insert(Fragments(before), PlaceFrom(pre, 0), [Place(d, |pre|)], PlaceFrom(post, |pre| + 1), Fragments(after));
    Pair(Fragments(before), PlaceFrom(pre, 0), [Place(d1, |pre|)], [Place(d2, 0)], PlaceFrom(post, 1), Fragments(after));
  }

  lemma Insert(a: seq<Placed>, b: seq<Placed>, c: seq<Placed>, d: seq<Placed>, e: seq<Placed>)
    ensures a + (b + c + d) + e == (a + b) + c + (d + e)
  {
  }

  lemma Pair(a: seq<Placed>, b: seq<Placed>, c: seq<Placed>, d: seq<Placed>, e: seq<Placed>, f: seq<Placed>)
    ensures a + ((b + c) + (d + e)) + f == (a + b) + c + d + e + f
  {
  }

  lemma PlacedCut(pre: seq<ToolDelta>, d: ToolDelta, post: seq<ToolDelta>)
    ensures PlaceFrom(pre + [d] + post, 0) == PlaceFrom(pre, 0) + [Place(d, |pre|)] + PlaceFrom(post, |pre| + 1)
  {
  }

  lemma PlacedParts(pre: seq<ToolDelta>, d1: ToolDelta, d2: ToolDelta, post: seq<ToolDelta>)
    ensures PlaceFrom(pre + [d1], 0) == PlaceFrom(pre, 0) + [Place(d1, |pre|)]
    ensures PlaceFrom([d2] + post, 0) == [Place(d2, 0)] + PlaceFrom(post, 1)
  {
  }
}
