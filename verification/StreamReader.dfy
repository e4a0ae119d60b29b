/**
  Reading one streamed chat completion: folding fragments into an output identity, and deciding whether the stream
  counts as a success. Servers cut the same output into different fragments; the identity must not show it.
 */
module StreamReader {
  import opened Common

  // ---- tool-call fragments ----------------------------------------------------------------

  /** A `function` object of a fragment; a field is absent unless it is a string. */
  datatype FunctionDelta = FunctionDelta(name: Option<string>, arguments: Option<string>)

  datatype ToolDelta =
    | NotAnObject
    | ToolDelta(index: Option<int>, callType: Option<string>, fn: Option<FunctionDelta>)

  datatype CallFunction = CallFunction(name: Option<string>, arguments: Option<string>)

  datatype ToolCall = ToolCall(callType: Option<string>, fn: Option<CallFunction>)

  const NEW_CALL := ToolCall(None, None)

  function MergeFunction(f: Option<CallFunction>, d: FunctionDelta): CallFunction {
    var before := f.GetOr(CallFunction(None, None));
    CallFunction(if d.name.Some? then d.name else before.name,
                 if d.arguments.Some? then Some(before.arguments.GetOr("") + d.arguments.value) else before.arguments)
  }

  function MergeCall(call: ToolCall, d: ToolDelta): ToolCall
    requires d.ToolDelta?
  {
    ToolCall(if d.callType.Some? then d.callType else call.callType,
             if d.fn.Some? then Some(MergeFunction(call.fn, d.fn.value)) else call.fn)
  }

  /** A fragment with the index it is merged at. */
  datatype Placed = Placed(index: int, delta: ToolDelta)

  function Place(d: ToolDelta, fallback: int): Placed {
    Placed(if d.ToolDelta? && d.index.Some? then d.index.value else fallback, d)
  }

  function MergePlaced(calls: map<int, ToolCall>, p: Placed): map<int, ToolCall> {
    if p.delta.NotAnObject? then calls
    else calls[p.index := MergeCall(if p.index in calls then calls[p.index] else NEW_CALL, p.delta)]
  }

  function Fold(placed: seq<Placed>): map<int, ToolCall> {
    if placed == [] then map[]
    else MergePlaced(Fold(placed[..|placed| - 1]), placed[|placed| - 1])
  }

  class ToolCallParts {
    var calls: map<int, ToolCall>

    constructor ()
      ensures calls == map[]
    {
      calls := map[];
    }

    /** Merge one fragment into the call at its index, field by field. */
    method Merge(d: ToolDelta, fallback: int)
      modifies this
      ensures calls == MergePlaced(old(calls), Place(d, fallback))
    {
      if d.NotAnObject? {
        return;
      }
      var index := if d.index.Some? then d.index.value else fallback;
      var target := if index in calls then calls[index] else NEW_CALL;
      if d.callType.Some? {
        target := target.(callType := d.callType);
      }
      if d.fn.Some? {
        var f := target.fn.GetOr(CallFunction(None, None));
        if d.fn.value.name.Some? {
          f := f.(name := d.fn.value.name);
        }
        if d.fn.value.arguments.Some? {
          f := f.(arguments := Some(f.arguments.GetOr("") + d.fn.value.arguments.value));
        }
        target := target.(fn := Some(f));
      }
      calls := calls[index := target];
    }
  }

  // ---- what folding means, index by index ---------------------------------------------------

  function AtIndex(i: int): Placed -> bool {
    (p: Placed) => p.index == i && p.delta.ToolDelta?
  }

  function FoldOne(placed: seq<Placed>): ToolCall
    requires forall p :: p in placed ==> p.delta.ToolDelta?
  {
    if placed == [] then NEW_CALL
    else
      assert forall p :: p in placed[..|placed| - 1] ==> p in placed;
      MergeCall(FoldOne(placed[..|placed| - 1]), placed[|placed| - 1].delta)
  }

  function At(placed: seq<Placed>, i: int): (own: seq<Placed>)
    ensures forall p :: p in own ==> p.delta.ToolDelta?
  {
    assert forall p :: p in Filter(AtIndex(i), placed) ==> p.delta.ToolDelta? by {
      forall p | p in Filter(AtIndex(i), placed) ensures p.delta.ToolDelta? {
        FilterMember(AtIndex(i), placed, p);
      }
    }
    Filter(AtIndex(i), placed)
  }

  lemma AtAppend(a: seq<Placed>, b: seq<Placed>, i: int)
    ensures At(a + b, i) == At(a, i) + At(b, i)
  {
    FilterAppend(AtIndex(i), a, b);
  }

  lemma AtSingle(p: Placed, i: int)
    ensures At([p], i) == if p.index == i && p.delta.ToolDelta? then [p] else []
  {
    assert [p][1..] == [];
    assert Filter(AtIndex(i), [p]) == (if AtIndex(i)(p) then [p] else []) + Filter(AtIndex(i), [p][1..]);
  }

  /** Folding keeps the indices apart: each call is the fold of the fragments placed at its own index. */
  lemma {:induction false} FoldIsPerIndex(placed: seq<Placed>, i: int)
    ensures i in Fold(placed) <==> At(placed, i) != []
    ensures i in Fold(placed) ==> Fold(placed)[i] == FoldOne(At(placed, i))
  {
    if placed == [] {
      assert At([], i) == [];
    } else {
      hide Fold, FoldOne, At, MergeCall;
      var front, last := placed[..|placed| - 1], placed[|placed| - 1];
      assert placed == front + [last];
      FoldIsPerIndex(front, i);
      FoldNext(placed);
      AtAppend(front, [last], i);
      AtSingle(last, i);
      if last.index == i && last.delta.ToolDelta? {
        FoldOneNext(At(front, i), last);
        FoldOneEmpty(At(front, i));
      } else {
        assert At(placed, i) == At(front, i);
      }
    }
  }

  lemma FoldNext(placed: seq<Placed>)
    requires placed != []
    ensures Fold(placed) == MergePlaced(Fold(placed[..|placed| - 1]), placed[|placed| - 1])
  {
  }

  lemma FoldOneNext(own: seq<Placed>, p: Placed)
    requires p.delta.ToolDelta? && forall q :: q in own ==> q.delta.ToolDelta?
    ensures forall q :: q in own + [p] ==> q.delta.ToolDelta?
    ensures FoldOne(own + [p]) == MergeCall(FoldOne(own), p.delta)
  {
    assert (own + [p])[..|own + [p]| - 1] == own;
  }

  lemma FoldOneEmpty(own: seq<Placed>)
    requires forall q :: q in own ==> q.delta.ToolDelta?
    ensures own == [] ==> FoldOne(own) == NEW_CALL
  {
  }

  function Arguments(placed: seq<Placed>): string {
    if placed == [] then ""
    else
      var last := placed[|placed| - 1].delta;
      Arguments(placed[..|placed| - 1])
      + (if last.ToolDelta? && last.fn.Some? then last.fn.value.arguments.GetOr("") else "")
  }

  function LastName(placed: seq<Placed>): Option<string> {
    if placed == [] then None
    else
      var last := placed[|placed| - 1].delta;
      if last.ToolDelta? && last.fn.Some? && last.fn.value.name.Some? then last.fn.value.name
      else LastName(placed[..|placed| - 1])
  }

  function LastType(placed: seq<Placed>): Option<string> {
    if placed == [] then None
    else
      var last := placed[|placed| - 1].delta;
      if last.ToolDelta? && last.callType.Some? then last.callType else LastType(placed[..|placed| - 1])
  }

  ghost predicate MentionsFunction(p: Placed) {
    p.delta.ToolDelta? && p.delta.fn.Some?
  }

  /** A folded call has the last type, the last name and all argument fragments in order. */
  lemma {:induction false} FoldOneMeaning(placed: seq<Placed>)
    requires forall p :: p in placed ==> p.delta.ToolDelta?
    ensures var call := FoldOne(placed);
            call.callType == LastType(placed)
            && (call.fn.Some? <==> exists p :: p in placed && MentionsFunction(p))
            && (call.fn.Some? ==> call.fn.value.name == LastName(placed)
                                        && call.fn.value.arguments.GetOr("") == Arguments(placed))
            && (call.fn.None? ==> LastName(placed) == None && Arguments(placed) == "")
  {
    if placed == [] {
    } else {
      var front, last := placed[..|placed| - 1], placed[|placed| - 1];
      assert placed == front + [last];
      assert forall p :: p in placed <==> p in front || p == last;
      FoldOneMeaning(front);
      FoldOneNext(front, last);
      hide FoldOne;
      if last.delta.fn.None? {
        assert Arguments(placed) == Arguments(front) + [];
        assert FoldOne(placed).fn == FoldOne(front).fn;
      } else {
        assert MentionsFunction(last);
        var more := last.delta.fn.value.arguments.GetOr("");
        assert Arguments(placed) == Arguments(front) + more;
        assert [] + more == more && Arguments(front) + [] == Arguments(front);
      }
    }
  }

  // ---- comparing folds index by index -------------------------------------------------------------

  /** Two bodies of fragments agree at an index: both or neither have fragments there, and these fold alike. */
  ghost predicate SameAt(a: seq<Placed>, b: seq<Placed>, i: int) {
    (At(a, i) == [] <==> At(b, i) == []) && FoldOne(At(a, i)) == FoldOne(At(b, i))
  }

  /** Folds are equal exactly when they agree at every index; how the indices were interleaved does not matter. */
  lemma SameFoldIff(a: seq<Placed>, b: seq<Placed>)
    ensures Fold(a) == Fold(b) <==> forall i :: SameAt(a, b, i)
  {
    hide Fold, FoldOne, At;
    forall i
      ensures SameAt(a, b, i) <==> (i in Fold(a) <==> i in Fold(b)) && (i in Fold(a) && i in Fold(b) ==> Fold(a)[i] == Fold(b)[i])
    {
      FoldIsPerIndex(a, i);
      FoldIsPerIndex(b, i);
      FoldOneEmpty(At(a, i));
      FoldOneEmpty(At(b, i));
    }
    if forall i :: SameAt(a, b, i) {
      forall i ensures i in Fold(a) <==> i in Fold(b) {
        assert SameAt(a, b, i);
      }
      assert Fold(a).Keys == Fold(b).Keys;
      forall i | i in Fold(a) ensures Fold(a)[i] == Fold(b)[i] {
        assert SameAt(a, b, i);
      }
    }
  }

  lemma {:induction false} ArgumentsAppend(a: seq<Placed>, b: seq<Placed>)
    ensures Arguments(a + b) == Arguments(a) + Arguments(b)
  {
    if b == [] {
      assert a + b == a;
    } else {
      assert (a + b)[..|a + b| - 1] == a + b[..|b| - 1];
      ArgumentsAppend(a, b[..|b| - 1]);
    }
  }

  // ---- the fragments of one event -------------------------------------------------------------------

  /** The fragments of an event from position `start` on; only fragments without an index look at their position. */
  function PlaceFrom(tools: seq<ToolDelta>, start: nat): seq<Placed> {
    seq(|tools|, k requires 0 <= k < |tools| => Place(tools[k], start + k))
  }

  ghost predicate Indexed(tools: seq<ToolDelta>) {
    forall d :: d in tools && d.ToolDelta? ==> d.index.Some?
  }

  lemma PlaceFromAppend(a: seq<ToolDelta>, b: seq<ToolDelta>, start: nat)
    ensures PlaceFrom(a + b, start) == PlaceFrom(a, start) + PlaceFrom(b, start + |a|)
  {
  }

  /** Indexed fragments do not care where in an event they stand. */
  lemma {:induction false} IndexedIgnoresPosition(tools: seq<ToolDelta>, m: nat, n: nat, i: int)
    requires Indexed(tools)
    ensures At(PlaceFrom(tools, m), i) == At(PlaceFrom(tools, n), i)
  {
    if tools == [] {
      assert PlaceFrom(tools, m) == PlaceFrom(tools, n);
    } else {
      hide At;
      var front, last := tools[..|tools| - 1], tools[|tools| - 1];
      var k := |front|;
      assert tools == front + [last] && last in tools;
      assert forall d :: d in front ==> d in tools;
      IndexedIgnoresPosition(front, m, n, i);
      assert PlaceFrom(tools, m) == PlaceFrom(front, m) + [Place(last, m + k)];
      assert PlaceFrom(tools, n) == PlaceFrom(front, n) + [Place(last, n + k)];
      AtAppend(PlaceFrom(front, m), [Place(last, m + k)], i);
      AtAppend(PlaceFrom(front, n), [Place(last, n + k)], i);
      AtSingle(Place(last, m + k), i);
      AtSingle(Place(last, n + k), i);
    }
  }

  /** An indexed group of fragments may stand at any position inside its event. */
  lemma SamePlacedAnywhere(before: seq<Placed>, after: seq<Placed>, tools: seq<ToolDelta>, m: nat, n: nat)
    requires Indexed(tools)
    ensures Fold(before + PlaceFrom(tools, m) + after) == Fold(before + PlaceFrom(tools, n) + after)
  {
    var a, b := before + PlaceFrom(tools, m) + after, before + PlaceFrom(tools, n) + after;
    hide Fold, FoldOne, At, PlaceFrom;
    forall i ensures SameAt(a, b, i) {
      IndexedIgnoresPosition(tools, m, n, i);
      At3(before, PlaceFrom(tools, m), after, i);
      At3(before, PlaceFrom(tools, n), after, i);
    }
    SameFoldIff(a, b);
  }

  lemma At3(a: seq<Placed>, b: seq<Placed>, c: seq<Placed>, i: int)
    ensures At(a + b + c, i) == At(a, i) + At(b, i) + At(c, i)
  {
    AtAppend(a + b, c, i);
    AtAppend(a, b, i);
  }

  // ---- re-chunking ------------------------------------------------------------------------------

  function ArgumentsFragment(index: Option<int>, callType: Option<string>, name: Option<string>, text: string): ToolDelta {
    ToolDelta(index, callType, Some(FunctionDelta(name, Some(text))))
  }

  /** Cutting an argument fragment in two at one place of the fold, at any point of the text, leaves the calls unchanged. */
  lemma SplitArguments(before: seq<Placed>, after: seq<Placed>, at: int, index: Option<int>, callType: Option<string>,
                       name: Option<string>, left: string, right: string)
    ensures var whole := Placed(at, ArgumentsFragment(index, callType, name, left + right));
            var first := Placed(at, ArgumentsFragment(index, callType, name, left));
            var second := Placed(at, ArgumentsFragment(index, None, None, right));
            Fold(before + [whole] + after) == Fold(before + [first, second] + after)
  {
    var whole := Placed(at, ArgumentsFragment(index, callType, name, left + right));
    var first := Placed(at, ArgumentsFragment(index, callType, name, left));
    var second := Placed(at, ArgumentsFragment(index, None, None, right));
    SamePrefixSameFold(before + [whole], before + [first, second], after) by {
      assert (before + [whole])[..|before|] == before;
      var two := before + [first, second];
      assert two[..|two| - 1] == before + [first] && (before + [first])[..|before|] == before;
      var calls := Fold(before);
      var call := if at in calls then calls[at] else NEW_CALL;
      var old0 := if call.fn.Some? then call.fn.value.arguments.GetOr("") else "";
      assert old0 + (left + right) == (old0 + left) + right;
      assert MergeCall(call, whole.delta) == MergeCall(MergeCall(call, first.delta), second.delta);
    }
  }

  lemma {:induction false} SamePrefixSameFold(a: seq<Placed>, b: seq<Placed>, after: seq<Placed>)
    requires Fold(a) == Fold(b)
    ensures Fold(a + after) == Fold(b + after)
  {
    if after == [] {
      assert a + after == a && b + after == b;
    } else {
      var front := after[..|after| - 1];
      assert (a + after)[..|a + after| - 1] == a + front && (b + after)[..|b + after| - 1] == b + front;
      SamePrefixSameFold(a, b, front);
    }
  }

  ghost predicate Apart(p: seq<Placed>, q: seq<Placed>) {
    forall i :: At(p, i) == [] || At(q, i) == []
  }

  /** Groups of fragments that never meet at an index may be merged in either order. */
  lemma CommuteIndices(before: seq<Placed>, after: seq<Placed>, p: seq<Placed>, q: seq<Placed>)
    requires Apart(p, q)
    ensures Fold(before + p + q + after) == Fold(before + q + p + after)
  {
    hide Fold, FoldOne, At;
    var a, b := before + p + q + after, before + q + p + after;
    forall i ensures SameAt(a, b, i) {
      AtAppend(before + p + q, after, i);
      AtAppend(before + q + p, after, i);
      At3(before, p, q, i);
      At3(before, q, p, i);
      assert At(before, i) + [] == At(before, i);
      assert At(before, i) + At(p, i) + [] == At(before, i) + At(p, i);
      assert At(before, i) + At(q, i) + [] == At(before, i) + At(q, i);
    }
    SameFoldIff(a, b);
  }
}
