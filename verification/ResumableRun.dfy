/**
  The alternating schedule of a benchmark and its crash-resumable outer loop. One document is persisted; it is
  replaced atomically after every arm pass, and a resumed invocation skips the passes it already holds.
 */
module ResumableRun {
  import opened Common
  import opened PooledGates

  // ---- the schedule -------------------------------------------------------------------

  datatype Slot = Slot(passNumber: nat, arm: string)

  function ArmAt(arms: seq<string>, pass: nat, position: nat): string
    requires position < |arms|
  {
    arms[if pass % 2 == 0 then position else |arms| - 1 - position]
  }

  /** Pass `pass`, numbered from one: arms forward in even passes and backward in odd ones. */
  function PassSlots(arms: seq<string>, pass: nat): seq<Slot> {
    seq(|arms|, k requires 0 <= k < |arms| => Slot(pass + 1, ArmAt(arms, pass, k)))
  }

  function Schedule(arms: seq<string>, passes: nat): seq<Slot> {
    if passes == 0 then [] else Schedule(arms, passes - 1) + PassSlots(arms, passes - 1)
  }

  method AbOrder(arms: seq<string>, passes: int) returns (order: Option<seq<Slot>>)
    ensures order.None? <==> passes <= 0
    ensures order.Some? ==> order.value == Schedule(arms, passes)
  {
    if passes <= 0 {
      return None;
    }
    var ordered: seq<Slot> := [];
    for p := 0 to passes
      invariant ordered == Schedule(arms, p)
    {
      var passArms := if p % 2 == 0 then arms else Reversed(arms);
      ghost var before := ordered;
      for k := 0 to |passArms|
        invariant ordered == before + PassSlots(arms, p)[..k]
      {
        ordered := ordered + [Slot(p + 1, passArms[k])];
      }
    }
    order := Some(ordered);
  }

  lemma {:induction false} ScheduleAt(arms: seq<string>, passes: nat, i: nat)
    requires i < |Schedule(arms, passes)|
    ensures |Schedule(arms, passes)| == passes * |arms|
    ensures |arms| > 0 && i / |arms| < passes
    ensures Schedule(arms, passes)[i] == Slot(i / |arms| + 1, ArmAt(arms, i / |arms|, i % |arms|))
  {
    ScheduleLength(arms, passes - 1);
    ScheduleLength(arms, passes);
    var n := |arms|;
    if i < (passes - 1) * n {
      ScheduleAt(arms, passes - 1, i);
    } else {
      DivModUnique(n, i, passes - 1, i - (passes - 1) * n);
    }
  }

  lemma {:induction false} ScheduleLength(arms: seq<string>, passes: nat)
    ensures |Schedule(arms, passes)| == passes * |arms|
  {
    if passes == 0 {
    } else {
      ScheduleLength(arms, passes - 1);
      assert passes * |arms| == (passes - 1) * |arms| + |arms|;
    }
  }

  /** With distinct arms no slot occurs twice. */
  lemma ScheduleDistinct(arms: seq<string>, passes: nat)
    requires Distinct(arms)
    ensures Distinct(Schedule(arms, passes))
  {
    hide Schedule;
    var order := Schedule(arms, passes);
    forall i, j | 0 <= i < j < |order| ensures order[i] != order[j] {
      ScheduleAt(arms, passes, i);
      ScheduleAt(arms, passes, j);
      SlotsDiffer(arms, i, j);
    }
  }

  lemma SlotsDiffer(arms: seq<string>, i: nat, j: nat)
    requires Distinct(arms) && |arms| > 0 && i != j
    ensures Slot(i / |arms| + 1, ArmAt(arms, i / |arms|, i % |arms|))
         != Slot(j / |arms| + 1, ArmAt(arms, j / |arms|, j % |arms|))
  {
    var n := |arms|;
    if i / n == j / n {
      assert i == n * (i / n) + i % n && j == n * (j / n) + j % n;
      assert i % n != j % n;
    }
  }

  // ---- counterbalancing ------------------------------------------------------------------

  /** The position at which arm number `a` of `n` runs in a pass. */
  function PositionOf(n: nat, a: nat, pass: nat): int {
    if pass % 2 == 0 then a else n - 1 - a
  }

  function PositionSum(n: nat, a: nat, passes: nat): int {
    if passes == 0 then 0 else PositionSum(n, a, passes - 1) + PositionOf(n, a, passes - 1)
  }

  lemma PositionIsWhereItRuns(arms: seq<string>, a: nat, pass: nat)
    requires a < |arms|
    ensures 0 <= PositionOf(|arms|, a, pass) < |arms|
    ensures PassSlots(arms, pass)[PositionOf(|arms|, a, pass)] == Slot(pass + 1, arms[a])
  {
  }

  lemma {:induction false} PositionSumOfRounds(n: nat, a: nat, rounds: nat)
    ensures PositionSum(n, a, 2 * rounds) == rounds * (n - 1)
  {
    if rounds == 0 {
    } else {
      PositionSumOfRounds(n, a, rounds - 1);
      assert PositionSum(n, a, 2 * rounds)
          == PositionSum(n, a, 2 * rounds - 2) + PositionOf(n, a, 2 * rounds - 2) + PositionOf(n, a, 2 * rounds - 1);
      assert rounds * (n - 1) == (rounds - 1) * (n - 1) + (n - 1);
    }
  }

  /** Where a slot first stands in a sequence of slots; its length when it does not occur. */
  function IndexOf(slots: seq<Slot>, slot: Slot): nat {
    if slots == [] || slots[0] == slot then 0 else 1 + IndexOf(slots[1..], slot)
  }

  lemma {:induction false} IndexOfDistinct(slots: seq<Slot>, k: nat)
    requires Distinct(slots) && k < |slots|
    ensures IndexOf(slots, slots[k]) == k
  {
    if k == 0 {
    } else {
      assert slots[0] != slots[k];
      IndexOfDistinct(slots[1..], k - 1);
    }
  }

  /** The index at which an arm stands among the slots of one pass of the schedule. */
  function StandsAt(arms: seq<string>, passes: nat, pass: nat, a: nat): nat
    requires a < |arms| && pass < passes
  {
    ScheduleLength(arms, passes);
    PassInside(|arms|, passes, pass);
    IndexOf(Schedule(arms, passes)[pass * |arms|..pass * |arms| + |arms|], Slot(pass + 1, arms[a]))
  }

  lemma PassInside(n: nat, passes: nat, pass: nat)
    requires pass < passes
    ensures 0 <= pass * n <= pass * n + n <= passes * n
  {
    assert passes * n == pass * n + n + (passes - pass - 1) * n;
  }

  function StandsSum(arms: seq<string>, passes: nat, a: nat, count: nat): int
    requires a < |arms| && count <= passes
  {
    if count == 0 then 0 else StandsSum(arms, passes, a, count - 1) + StandsAt(arms, passes, count - 1, a)
  }

  lemma {:induction false} PassOfSchedule(arms: seq<string>, passes: nat, pass: nat)
    requires pass < passes
    ensures |Schedule(arms, passes)| == passes * |arms| && 0 <= pass * |arms| <= pass * |arms| + |arms| <= passes * |arms|
    ensures Schedule(arms, passes)[pass * |arms|..pass * |arms| + |arms|] == PassSlots(arms, pass)
    decreases passes
  {
    hide PassSlots;
    ScheduleLength(arms, passes);
    ScheduleLength(arms, passes - 1);
    PassInside(|arms|, passes, pass);
    assert |PassSlots(arms, passes - 1)| == |arms| by { PassLength(arms, passes - 1); }
    var before, n := Schedule(arms, passes - 1), |arms|;
    if pass == passes - 1 {
      assert pass * n == |before|;
    } else {
      PassOfSchedule(arms, passes - 1, pass);
      assert Schedule(arms, passes)[pass * n..pass * n + n] == before[pass * n..pass * n + n];
    }
  }

  lemma PassLength(arms: seq<string>, pass: nat)
    ensures |PassSlots(arms, pass)| == |arms|
  {
  }

  lemma StandsAtPosition(arms: seq<string>, passes: nat, pass: nat, a: nat)
    requires Distinct(arms) && a < |arms| && pass < passes
    ensures StandsAt(arms, passes, pass, a) == PositionOf(|arms|, a, pass)
  {
    PassOfSchedule(arms, passes, pass);
    PositionIsWhereItRuns(arms, a, pass);
    PassIsDistinct(arms, pass);
    IndexOfDistinct(PassSlots(arms, pass), PositionOf(|arms|, a, pass));
  }

  lemma PassIsDistinct(arms: seq<string>, pass: nat)
    requires Distinct(arms)
    ensures Distinct(PassSlots(arms, pass))
  {
  }

  lemma {:induction false} StandsSumIsPositionSum(arms: seq<string>, passes: nat, a: nat, count: nat)
    requires Distinct(arms) && a < |arms| && count <= passes
    ensures StandsSum(arms, passes, a, count) == PositionSum(|arms|, a, count)
  {
    hide StandsAt, PositionOf;
    if count == 0 {
    } else {
      StandsSumIsPositionSum(arms, passes, a, count - 1);
      StandsAtPosition(arms, passes, count - 1, a);
    }
  }

  /**
    Over an even number of passes every arm runs equally early: the indices at which it stands in the passes of the
    schedule add up to the same total for every arm, so none profits from its place in the order.
   */
  lemma PositionsBalance(arms: seq<string>, a: nat, rounds: nat)
    requires Distinct(arms) && a < |arms|
    ensures StandsSum(arms, 2 * rounds, a, 2 * rounds) == rounds * (|arms| - 1)
  {
    hide StandsSum, PositionSum;
    StandsSumIsPositionSum(arms, 2 * rounds, a, 2 * rounds);
    PositionSumOfRounds(|arms|, a, rounds);
  }

  // ---- the persisted document -----------------------------------------------------------------

  /** Everything whose change forbids resuming: the plan, the builds and the trajectory manifest. */
  datatype Identity = Identity(arms: seq<string>, passes: nat, inputs: string)

  datatype Document = Document(identity: Identity, results: seq<ArmPass>)

  /** What running a slot would measure during one invocation. */
  type Measure = Slot -> seq<Cell>

  /**
    One start of the program: it stops before its first write when `budget` is zero, and after `budget - 1` arm
    passes otherwise, unless it finishes earlier.
   */
  datatype Invocation = Invocation(identity: Identity, resume: bool, measure: Measure, budget: nat)

  datatype Outcome = Refused | Stopped | Finished

  function SlotOf(result: ArmPass): Slot {
    Slot(result.passNumber, result.arm)
  }

  function Slots(results: seq<ArmPass>): seq<Slot> {
    MapSeq((r: ArmPass) => SlotOf(r), results)
  }

  function Ran(inv: Invocation, slot: Slot): ArmPass {
    ArmPass(slot.arm, slot.passNumber, inv.measure(slot))
  }

  predicate Refuses(stored: Option<Document>, inv: Invocation) {
    inv.identity.passes == 0
    || (stored.Some? && (!inv.resume || stored.value.identity != inv.identity))
  }

  function Earlier(stored: Option<Document>): seq<ArmPass> {
    if stored.Some? then stored.value.results else []
  }

  function Itself(slot: Slot): Slot {
    slot
  }

  /** The slots that an invocation still has to run, in schedule order. */
  function ToDo(stored: Option<Document>, inv: Invocation): seq<Slot> {
    Remaining(Elements(Slots(Earlier(stored))), Itself, Schedule(inv.identity.arms, inv.identity.passes))
  }

  /** What an invocation leaves behind. */
  function Invoke(stored: Option<Document>, inv: Invocation): Option<Document> {
    if Refuses(stored, inv) || inv.budget == 0 then stored
    else
      var todo := ToDo(stored, inv);
      var ran := todo[..Min(inv.budget - 1, |todo|)];
      Some(Document(inv.identity, Earlier(stored) + MapSeq((slot: Slot) => Ran(inv, slot), ran)))
  }

  class RunStore {
    var stored: Option<Document>

    /** The resume loop: skip finished slots, run the others in order and persist after each. */
    method RunBenchmark(inv: Invocation) returns (outcome: Outcome)
      modifies this
      ensures stored == Invoke(old(stored), inv)
      ensures outcome.Refused? <==>
                inv.identity.passes == 0
                || (old(stored).Some? && !inv.resume)
                || (old(stored).Some? && old(stored).value.identity != inv.identity)
      ensures outcome.Refused? ==> stored == old(stored)
      ensures outcome.Finished? <==> !Refuses(old(stored), inv) && inv.budget > |ToDo(old(stored), inv)|
      ensures outcome.Finished? ==> stored.Some? && stored.value.identity == inv.identity
      ensures outcome.Finished? ==>
                forall slot :: slot in Schedule(inv.identity.arms, inv.identity.passes) ==>
                  slot in Slots(stored.value.results)
    {
      hide Filter, Remaining, Slots, Schedule, Ran, Elements;
      if Refuses(stored, inv) {
        return Refused;
      }
      if inv.budget == 0 {
        return Stopped;
      }
      ghost var earlier := Earlier(stored);
      var results := if stored.Some? then stored.value.results else [];
      var completed := Elements(Slots(results));
      stored := Some(Document(inv.identity, results));
      var spent := 1;
      var passes := AbOrder(inv.identity.arms, inv.identity.passes);
      var order := passes.value;
      ghost var todo := Remaining(completed, Itself, order);
      RemainingNone(completed, order);
      for i := 0 to |order|
        invariant 1 <= spent <= inv.budget && spent - 1 == |Remaining(completed, Itself, order[..i])| <= |todo|
        invariant stored == Some(Document(inv.identity, results))
        invariant results == earlier + MapSeq((slot: Slot) => Ran(inv, slot), Remaining(completed, Itself, order[..i]))
      {
        RemainingNext(completed, order, i);
        if order[i] !in completed {
          if spent == inv.budget {
            RemainingPrefix(completed, order, i);
            return Stopped;
          }
          results := results + [Ran(inv, order[i])];
          stored := Some(Document(inv.identity, results));
          spent := spent + 1;
        }
      }
      assert order[..|order|] == order;
      assert todo[..|todo|] == todo;
      RanEverything(inv, earlier, order);
      outcome := Finished;
    }
  }

  lemma RemainingNone(done: set<Slot>, order: seq<Slot>)
    ensures Remaining(done, Itself, order[..0]) == []
  {
  }

  lemma RemainingNext(done: set<Slot>, order: seq<Slot>, i: nat)
    requires i < |order|
    ensures Remaining(done, Itself, order[..i + 1])
         == Remaining(done, Itself, order[..i]) + (if order[i] in done then [] else [order[i]])
    ensures |Remaining(done, Itself, order[..i + 1])| <= |Remaining(done, Itself, order)|
  {
    var keep := Unfinished(done, Itself);
    assert order[..i + 1] == order[..i] + [order[i]];
    FilterAppend(keep, order[..i], [order[i]]);
    assert [order[i]][1..] == [];
    assert Filter(keep, [order[i]]) == if order[i] in done then [] else [order[i]];
    assert order == order[..i + 1] + order[i + 1..];
    FilterAppend(keep, order[..i + 1], order[i + 1..]);
  }

  lemma RemainingPrefix(done: set<Slot>, order: seq<Slot>, i: nat)
    requires i <= |order|
    ensures |Remaining(done, Itself, order[..i])| <= |Remaining(done, Itself, order)|
    ensures Remaining(done, Itself, order[..i]) == Remaining(done, Itself, order)[..|Remaining(done, Itself, order[..i])|]
  {
    assert order == order[..i] + order[i..];
    FilterAppend(Unfinished(done, Itself), order[..i], order[i..]);
  }

  lemma RanEverything(inv: Invocation, earlier: seq<ArmPass>, order: seq<Slot>)
    ensures var todo := Remaining(Elements(Slots(earlier)), Itself, order);
            forall slot :: slot in order ==> slot in Slots(earlier + MapSeq((s: Slot) => Ran(inv, s), todo))
  {
    var done := Elements(Slots(earlier));
    var todo := Remaining(done, Itself, order);
    var ran := MapSeq((s: Slot) => Ran(inv, s), todo);
    var all := Slots(earlier + ran);
    forall slot | slot in order ensures slot in all {
      if slot in done {
        var i :| 0 <= i < |Slots(earlier)| && Slots(earlier)[i] == slot;
        assert all[i] == slot;
      } else {
        FilterMember(Unfinished(done, Itself), order, slot);
        var i :| 0 <= i < |todo| && todo[i] == slot;
        assert all[|earlier| + i] == slot;
      }
    }
  }

  // ---- every history of crashes and resumptions --------------------------------------------------------

  /** The stored results are the schedule up to some point: no gap, no repetition, no foreign slot. */
  ghost predicate Prefix(stored: Option<Document>) {
    stored.Some? ==>
      Distinct(stored.value.identity.arms)
      && Slots(stored.value.results) <= Schedule(stored.value.identity.arms, stored.value.identity.passes)
  }

  lemma RemainingOfPrefix(order: seq<Slot>, k: nat)
    requires Distinct(order) && k <= |order|
    ensures Remaining(Elements(order[..k]), Itself, order) == order[k..]
  {
    var done := Elements(order[..k]);
    var keep := Unfinished(done, Itself);
    assert order == order[..k] + order[k..];
    FilterAppend(keep, order[..k], order[k..]);
    forall slot | slot in order[..k] ensures !keep(slot) {
      assert Itself(slot) in done;
      UnfinishedMeans(done, Itself, slot);
    }
    FilterNone(keep, order[..k]);
    forall slot | slot in order[k..] ensures slot !in done {
      var j :| k <= j < |order| && order[j] == slot;
      forall i | 0 <= i < k ensures order[..k][i] != slot {
        assert order[i] != order[j];
      }
    }
    forall slot | slot in order[k..] ensures keep(slot) {
      assert Itself(slot) !in done;
      UnfinishedMeans(done, Itself, slot);
    }
    FilterAll(keep, order[k..]);
  }

  /** One invocation keeps the prefix, never touches earlier results and never changes the run's identity. */
  lemma InvokeKeepsPrefix(stored: Option<Document>, inv: Invocation)
    requires Prefix(stored) && Distinct(inv.identity.arms)
    ensures Prefix(Invoke(stored, inv))
    ensures Earlier(stored) <= Earlier(Invoke(stored, inv))
    ensures stored.Some? ==> Invoke(stored, inv).Some? && Invoke(stored, inv).value.identity == stored.value.identity
  {
    hide Schedule, Remaining, Elements, Slots, Distinct;
    if !Refuses(stored, inv) && inv.budget > 0 {
      var order := Schedule(inv.identity.arms, inv.identity.passes);
      var earlier := Earlier(stored);
      var k := |earlier|;
      ScheduleDistinct(inv.identity.arms, inv.identity.passes);
      RanSlots(inv, earlier, []);
      assert Slots(earlier) == order[..k];
      RemainingOfPrefix(order, k);
      var ran := order[k..][..Min(inv.budget - 1, |order[k..]|)];
      RanSlots(inv, earlier, ran);
      assert order[..k] + ran == order[..k + |ran|];
    }
  }

  lemma RanSlots(inv: Invocation, earlier: seq<ArmPass>, ran: seq<Slot>)
    ensures |Slots(earlier)| == |earlier|
    ensures Slots(earlier + MapSeq((slot: Slot) => Ran(inv, slot), ran)) == Slots(earlier) + ran
  {
  }

  function History(invocations: seq<Invocation>): Option<Document> {
    if invocations == [] then None
    else Invoke(History(invocations[..|invocations| - 1]), invocations[|invocations| - 1])
  }

  /**
    Any sequence of starts, crashes and resumptions leaves a prefix of the schedule, and each longer history only
    extends what a shorter one stored.
   */
  lemma {:induction false} HistoryIsPrefix(invocations: seq<Invocation>, k: nat)
    requires k <= |invocations| && forall inv :: inv in invocations ==> Distinct(inv.identity.arms)
    ensures Prefix(History(invocations))
    ensures Earlier(History(invocations[..k])) <= Earlier(History(invocations))
    decreases |invocations|
  {
    if invocations == [] {
    } else {
      var front, last := invocations[..|invocations| - 1], invocations[|invocations| - 1];
      assert last in invocations && forall inv :: inv in front ==> inv in invocations;
      HistoryIsPrefix(front, Min(k, |front|));
      InvokeKeepsPrefix(History(front), last);
      if k < |invocations| {
        assert front[..k] == invocations[..k];
      } else {
        assert invocations[..k] == invocations;
      }
    }
  }

  /**
    A start that gets past its first write holds exactly the schedule afterwards if and only if it could run every slot
    that was still missing; resuming any number of times then equals one uninterrupted run.
   */
  lemma FinishedRunIsTheSchedule(stored: Option<Document>, inv: Invocation)
    requires Prefix(stored) && Distinct(inv.identity.arms) && !Refuses(stored, inv) && inv.budget > 0
    ensures Invoke(stored, inv).Some?
    ensures Slots(Invoke(stored, inv).value.results) == Schedule(inv.identity.arms, inv.identity.passes)
            <==> inv.budget > |ToDo(stored, inv)|
  {
    hide Schedule, Remaining, Elements, Slots, Distinct;
    var order := Schedule(inv.identity.arms, inv.identity.passes);
    var earlier := Earlier(stored);
    var k := |earlier|;
    ScheduleDistinct(inv.identity.arms, inv.identity.passes);
    RanSlots(inv, earlier, []);
    assert Slots(earlier) == order[..k];
    RemainingOfPrefix(order, k);
    var ran := order[k..][..Min(inv.budget - 1, |order[k..]|)];
    RanSlots(inv, earlier, ran);
    assert order[..k] + order[k..] == order;
    assert |order[..k] + ran| == k + |ran|;
  }

  /** The result is what this start measured for one of its slots; the start was of the stored run and not a repetition. */
  ghost predicate MeasuredBy(inv: Invocation, identity: Identity, result: ArmPass) {
    inv.identity == identity && inv.identity.passes > 0
    && Slot(result.passNumber, result.arm) in Schedule(identity.arms, identity.passes)
    && result.cells == inv.measure(Slot(result.passNumber, result.arm))
  }

  /** Whatever was interrupted, some start of the same run measured each stored result for the slot that it stands for. */
  lemma {:induction false} ResultsAreMeasured(invocations: seq<Invocation>, result: ArmPass)
    requires History(invocations).Some? && result in History(invocations).value.results
    ensures exists i :: 0 <= i < |invocations| && MeasuredBy(invocations[i], History(invocations).value.identity, result)
  {
    hide Schedule, Remaining, MeasuredBy;
    var n := |invocations| - 1;
    var before, inv := History(invocations[..n]), invocations[n];
    if Refuses(before, inv) || inv.budget == 0 || result in Earlier(before) {
      assert before.Some? && result in before.value.results;
      ResultsAreMeasured(invocations[..n], result);
      var i :| 0 <= i < n && MeasuredBy(invocations[..n][i], before.value.identity, result);
      assert invocations[i] == invocations[..n][i];
    } else {
      NewResultIsMeasured(before, inv, result);
    }
  }

  lemma NewResultIsMeasured(stored: Option<Document>, inv: Invocation, result: ArmPass)
    requires !Refuses(stored, inv) && inv.budget > 0 && result !in Earlier(stored)
    requires result in Invoke(stored, inv).value.results
    ensures MeasuredBy(inv, inv.identity, result)
  {
    hide Schedule, Filter, Elements;
    var todo := ToDo(stored, inv);
    var ran := todo[..Min(inv.budget - 1, |todo|)];
    var added := MapSeq((slot: Slot) => Ran(inv, slot), ran);
    assert result in added;
    var i :| 0 <= i < |added| && added[i] == result;
    assert todo[i] in todo;
    var order := Schedule(inv.identity.arms, inv.identity.passes);
    FilterMember(Unfinished(Elements(Slots(Earlier(stored))), Itself), order, todo[i]);
    assert todo[i] == Slot(result.passNumber, result.arm);
  }

  /** The row that every other arm is compared with belongs to the first arm, however the run was interrupted. */
  lemma BaselineIsFirstArm(stored: Option<Document>)
    requires Prefix(stored) && stored.Some? && stored.value.results != []
    ensures stored.value.identity.arms != []
    ensures stored.value.results[0].arm == stored.value.identity.arms[0]
  {
    var id := stored.value.identity;
    ScheduleAt(id.arms, id.passes, 0);
    assert Slots(stored.value.results)[0] == Schedule(id.arms, id.passes)[0];
    assert 0 / |id.arms| == 0 && 0 % |id.arms| == 0;
  }
}
