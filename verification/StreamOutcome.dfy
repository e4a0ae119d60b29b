/**
  From an answered stream to the outcome that a replay records: when are the reported figures natural numbers, and is
  the result one that the worker pool can receive?
 */
module StreamOutcome {
  import opened Common
  import opened StreamRequest
  import Replay
  import Pool = WorkerPool

  // ---- signs of the reported figures -------------------------------------------------------------

  /** A figure was reported negative, and no later event reported it positive. */
  ghost predicate LeftNegative(field: Line -> Option<int>, body: seq<Timed>) {
    exists k :: 0 <= k < |body| && Negative(field(body[k].line))
                && forall l :: k < l < |body| ==> !Positive(field(body[l].line))
  }

  predicate Negative(value: Option<int>) {
    value.Some? && value.value < 0
  }

  predicate Positive(value: Option<int>) {
    value.Some? && value.value > 0
  }

  lemma LeftNegativeNext(field: Line -> Option<int>, front: seq<Timed>, last: Timed)
    ensures LeftNegative(field, front + [last])
            <==> Negative(field(last.line)) || (LeftNegative(field, front) && !Positive(field(last.line)))
  {
    var body, k := front + [last], |front|;
    if Negative(field(last.line)) {
      assert Negative(field(body[k].line));
    }
    if LeftNegative(field, front) && !Positive(field(last.line)) {
      var n :| 0 <= n < |front| && Negative(field(front[n].line))
               && forall l :: n < l < |front| ==> !Positive(field(front[l].line));
      assert Negative(field(body[n].line));
      forall l | n < l < |body| ensures !Positive(field(body[l].line)) {
        assert l < k ==> body[l] == front[l];
      }
    }
    if LeftNegative(field, body) {
      var n :| 0 <= n < |body| && Negative(field(body[n].line))
               && forall l :: n < l < |body| ==> !Positive(field(body[l].line));
      if n < k {
        assert Negative(field(front[n].line)) && !Positive(field(body[k].line));
        forall l | n < l < |front| ensures !Positive(field(front[l].line)) {
          assert front[l] == body[l];
        }
        assert LeftNegative(field, front);
      }
    }
  }

  /** A figure ends up negative exactly when a negative report was never made good. */
  lemma {:induction false} FigureIsNegativeIff(field: Line -> Option<int>, body: seq<Timed>)
    ensures Figure(field, body) < 0 <==> LeftNegative(field, body)
  {
    if body == [] {
    } else {
      var front, last := body[..|body| - 1], body[|body| - 1];
      assert body == front + [last];
      FigureIsNegativeIff(field, front);
      LeftNegativeNext(field, front, last);
      hide LeftNegative;
    }
  }

  /** Once reported positive, a figure never returns to zero. */
  lemma {:induction false} FigureStaysNonzero(field: Line -> Option<int>, body: seq<Timed>, k: nat)
    requires k < |body| && Positive(field(body[k].line))
    ensures Figure(field, body) != 0
  {
    if k == |body| - 1 {
    } else {
      FigureStaysNonzero(field, body[..|body| - 1], k);
    }
  }

  /** The body that an answer is about. */
  function Body(lines: seq<Timed>): seq<Timed> {
    lines[..EndOf(lines)]
  }

  /**
    The figures of an answer are natural numbers exactly when no negative report of cached or completion tokens was
    left standing; the prompt is then positive and covers the cached tokens.
   */
  lemma AnsweredFigures(lines: seq<Timed>, completed: real, probe: bool)
    requires ResponseTo(lines, completed, probe).Answered?
    ensures var r, body := ResponseTo(lines, completed, probe), Body(lines);
            (r.promptTokens >= 0 && r.cachedTokens >= 0 && r.completionTokens >= 0)
            <==> !LeftNegative(CachedField(), body) && !LeftNegative(CompletionField(), body)
    ensures var r := ResponseTo(lines, completed, probe);
            r.cachedTokens >= 0 ==> r.promptTokens > 0 && r.promptTokens >= r.cachedTokens
    ensures var r := ResponseTo(lines, completed, probe);
            !probe ==> r.completionTokens > 0 && r.contentEvents > 0
  {
    hide Figure, LeftNegative, EndOf, IdentityOf, FinishReason;
    var body := Body(lines);
    FigureIsNegativeIff(CachedField(), body);
    FigureIsNegativeIff(CompletionField(), body);
    var t :| t in body && ReportsPrompt(t.line);
    var k :| 0 <= k < |body| && body[k] == t;
    FigureStaysNonzero(PromptField(), body, k);
  }

  /** A later negative report spoils an answer that an earlier positive one let through. */
  lemma NegativePromptIsAnswered(at: real)
    ensures var good, bad := Usage(Some(10), Some(1), Some(Some(0))), Usage(Some(-5), None, Some(Some(-10)));
            var lines := [Timed(Data(Event(Some(good), None)), at), Timed(Data(Event(Some(bad), None)), at), Timed(Done, at)];
            ResponseTo(lines, at, true).Answered? && ResponseTo(lines, at, true).promptTokens == -5
  {
    var good, bad := Usage(Some(10), Some(1), Some(Some(0))), Usage(Some(-5), None, Some(Some(-10)));
    var x, y, z := Timed(Data(Event(Some(good), None)), at), Timed(Data(Event(Some(bad), None)), at), Timed(Done, at);
    var lines := [x, y, z];
    EndIs(lines, 2);
    var body := lines[..2];
    assert body == [x, y] && body[..1] == [x] && body[..1][..0] == [];
    assert Figure(PromptField(), [x]) == 10 && Figure(CachedField(), [x]) == 0 && Figure(CompletionField(), [x]) == 1;
    assert Prompt(body) == -5 && Cached(body) == -10 && Completion(body) == 1;
    assert x in body && ReportsPrompt(x.line) && ReportsCache(x.line);
  }

  // ---- the outcome that the replay records --------------------------------------------------------

  predicate Natural(r: Response) {
    r.Answered? && r.promptTokens >= 0 && r.cachedTokens >= 0 && r.completionTokens >= 0
  }

  function OutcomeOf(r: Response, started: real, completed: real, sha256: Identity -> string,
                     text: Failure -> string): Replay.Outcome
    requires r.Answered? ==> Natural(r)
  {
    match r
    case Rejected(reason) => Replay.Failed(text(reason))
    case Answered(identity, prompt, cached, completion, _, _, first, gaps) =>
      Replay.Success(Replay.Served(started, first, completed, prompt, cached, completion, sha256(identity), gaps))
  }

  /** The clock does not run backwards between the request and the end of its stream. */
  ghost predicate OnTime(lines: seq<Timed>, started: real, completed: real) {
    started <= completed && forall t :: t in lines ==> started <= t.at <= completed
  }

  lemma {:induction false} TimesOnTime(body: seq<Timed>, started: real, completed: real)
    requires OnTime(body, started, completed)
    ensures forall at :: at in Times(body) ==> started <= at <= completed
  {
    if body == [] {
    } else {
      var front, last := body[..|body| - 1], body[|body| - 1];
      assert last in body && forall t :: t in front ==> t in body;
      TimesOnTime(front, started, completed);
    }
  }

  /** Whatever the server sent, a stream without standing negative reports becomes an outcome that the pool can receive. */
  lemma StreamsAreReceivable(lines: seq<Timed>, started: real, completed: real, probe: bool, sha256: Identity -> string,
                             text: Failure -> string)
    requires OnTime(lines, started, completed)
    requires !LeftNegative(CachedField(), Body(lines)) && !LeftNegative(CompletionField(), Body(lines))
    ensures var r := ResponseTo(lines, completed, probe);
            (r.Answered? ==> Natural(r))
            && Pool.Timed(OutcomeOf(r, started, completed, sha256, text), started, completed)
  {
    var r, body := ResponseTo(lines, completed, probe), Body(lines);
    hide LeftNegative, EndOf, IdentityOf, FinishReason, Figure, Times;
    if r.Answered? {
      AnsweredFigures(lines, completed, probe);
      assert forall t :: t in body ==> t in lines;
      TimesOnTime(body, started, completed);
      if Times(body) != [] {
        assert Times(body)[0] in Times(body);
      }
    }
  }
}
