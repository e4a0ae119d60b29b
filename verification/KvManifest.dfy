/**
  The frozen conversation of the restart replay: a seeded word generator and the loops that draw from it.

  The manifest is specified without the generator's state, by the position of each draw in the orbit of the
  seed. The loops are then proved to consume exactly those positions.
 */
module KvManifest {
  import opened Common
  import opened FullPeriod

  const SEED := 20260909

  const VOCABULARY: seq<string> := [
    "cache", "prefix", "token", "restore", "restart", "segment", "manifest", "budget", "eviction",
    "prefill", "decode", "latency", "throughput", "checkpoint", "durable", "radix", "tier", "admission",
    "pipeline", "stream", "verify", "digest", "commit", "quarantine", "pin", "lease", "reserve", "node",
    "mesh", "relay", "model", "runtime", "kernel", "attention", "matrix", "layer", "head", "batch", "queue",
    "trace", "replay", "harness", "baseline", "cohort", "percentile", "regression", "gate", "promote"
  ]

  /** The upper 32 bits of a state, which is what a draw returns. */
  function Output(state: int): int {
    state / 0x1_0000
  }

  function WordAt(state: int): string {
    var k := Output(state) % |VOCABULARY|;
    VOCABULARY[k]
  }

  /** The words of draws `from + 1 .. from + count` in the orbit of `seed`. */
  function Draws(seed: int, from: nat, count: nat): seq<string> {
    seq(count, i requires 0 <= i < count => WordAt(Iterate(seed, from + i + 1)))
  }

  lemma DrawsExtend(seed: int, from: nat, count: nat)
    ensures Draws(seed, from, count + 1)
         == Draws(seed, from, count) + [WordAt(Step(Iterate(seed, from + count)))]
  {
    assert Iterate(seed, from + count + 1) == Step(Iterate(seed, from + count));
    hide Step, WordAt, Iterate;
  }

  class DeterministicRandom {
    var state: int

    constructor (seed: int)
      ensures state == seed % MODULUS
    {
      state := seed % MODULUS;
    }

    method Next() returns (value: int)
      requires InRange(state)
      modifies this
      ensures InRange(state) && state == Step(old(state))
      ensures value == Output(state) && 0 <= value < 0x1_0000_0000
    {
      state := (state * MULTIPLIER + INCREMENT) % MODULUS;
      value := state / 0x1_0000;
    }

    method Below(bound: int) returns (value: int)
      requires InRange(state) && bound > 0
      modifies this
      ensures InRange(state) && state == Step(old(state))
      ensures value == Output(state) % bound && 0 <= value < bound
    {
      var raw := Next();
      value := raw % bound;
    }

    method Words(count: nat) returns (words: seq<string>)
      requires InRange(state)
      modifies this
      ensures InRange(state) && state == Iterate(old(state), count)
      ensures words == Draws(old(state), 0, count)
    {
      words := [];
      for i := 0 to count
        invariant InRange(state) && state == Iterate(old(state), i)
        invariant words == Draws(old(state), 0, i)
      {
        DrawsExtend(old(state), 0, i);
        var k := Below(|VOCABULARY|);
        words := words + [VOCABULARY[k]];
      }
    }
  }

  // ---- what a manifest is -------------------------------------------------

  datatype TurnText = TurnText(context: string, request: string, response: string)

  datatype Manifest = Manifest(seed: int, turnTarget: int, systemTokens: int, approxTokens: int,
                               system: string, turns: seq<TurnText>)

  /** max(1, int(target * 3 / 4)). */
  function BlockWords(target: int): nat {
    if target <= 0 then 1 else Max(1, target * 3 / 4)
  }

  /** A block is drawn eight words at a time, so it takes its word count rounded up to a multiple of eight. */
  function BlockDraws(target: int): nat {
    8 * CeilDiv(BlockWords(target), 8)
  }

  /** A block draws the least multiple of eight that covers three quarters of its target, and at least eight. */
  lemma BlockDrawsMeaning(target: int)
    ensures var draws := BlockDraws(target);
            draws >= 8 && draws % 8 == 0 && 4 * draws > 3 * target - 4
            && (draws > 8 ==> 4 * (draws - 8) <= 3 * target - 4)
  {
  }

  function TurnDraws(target: int): nat {
    BlockDraws(target) + 19
  }

  function BlockText(topic: string, words: seq<string>): string {
    "[" + topic + "] " + Join(words, " ")
  }

  function TurnAt(seed: int, at: nat, index: nat, target: int): TurnText {
    var b := at + BlockDraws(target);
    var n := Decimal(index + 1);
    TurnText(
      BlockText("turn-" + n + "-context", Draws(seed, at, BlockDraws(target))),
      "Turn " + n + ": given the project brief above, summarize the " + Join(Draws(seed, b, 6), " ")
      + " constraint in one sentence and list the " + Join(Draws(seed, b + 6, 4), " ") + " next step.",
      "Turn " + n + " answer: preserve the " + Join(Draws(seed, b + 10, 5), " ")
      + " constraint. Next step: verify " + Join(Draws(seed, b + 15, 4), " ") + "."
    )
  }

  /** Draws consumed before turn `index` starts. */
  function TurnStart(systemTokens: int, turnTarget: int, index: nat): nat {
    BlockDraws(systemTokens) + index * TurnDraws(turnTarget)
  }

  function ManifestText(turns: int, turnTarget: int, systemTokens: int): Manifest {
    var count := Max(0, turns);
    Manifest(SEED, turnTarget, systemTokens, systemTokens + turns * turnTarget,
             BlockText("scaffold", Draws(SEED, 0, BlockDraws(systemTokens))),
             seq(count, i requires 0 <= i < count =>
               TurnAt(SEED, TurnStart(systemTokens, turnTarget, i), i, turnTarget)))
  }

  // ---- the loops ----------------------------------------------------------

  lemma DrawsAppend(seed: int, from: nat, m: nat, n: nat)
    ensures Draws(seed, from, m) + Draws(seed, from + m, n) == Draws(seed, from, m + n)
  {
    assert |Draws(seed, from, m) + Draws(seed, from + m, n)| == |Draws(seed, from, m + n)|;
  }

  lemma TurnStartStep(systemTokens: int, turnTarget: int, index: nat)
    ensures TurnStart(systemTokens, turnTarget, index) + TurnDraws(turnTarget)
         == TurnStart(systemTokens, turnTarget, index + 1)
  {
    var d := TurnDraws(turnTarget);
    assert (index + 1) * d == index * d + d;
  }

  /** Draws counted from a later point of the orbit. */
  lemma DrawsShift(seed: int, at: nat, from: nat, count: nat)
    ensures Draws(Iterate(seed, at), from, count) == Draws(seed, at + from, count)
  {
    hide WordAt, Iterate;
    var shifted, whole := Draws(Iterate(seed, at), from, count), Draws(seed, at + from, count);
    forall i | 0 <= i < count ensures shifted[i] == whole[i] {
      IterateSplit(seed, at, from + i + 1);
      assert at + (from + i + 1) == (at + from) + i + 1;
    }
  }

  method Block(rng: DeterministicRandom, target: int, topic: string) returns (text: string)
    requires InRange(rng.state)
    modifies rng
    ensures InRange(rng.state) && rng.state == Iterate(old(rng.state), BlockDraws(target))
    ensures text == BlockText(topic, Draws(old(rng.state), 0, BlockDraws(target)))
  {
    hide Iterate, Draws, Join;
    ghost var seed := rng.state;
    var words := BlockWords(target);
    var chunks: seq<string> := [];
    NothingDrawn(seed);
    while |chunks| * 8 < words
      invariant |chunks| * 8 < words + 8
      invariant InRange(rng.state) && rng.state == Iterate(seed, 8 * |chunks|)
      invariant chunks == [] || Join(chunks, " ") == Join(Draws(seed, 0, 8 * |chunks|), " ")
      decreases words + 8 - |chunks| * 8
    {
      ghost var drawnBefore := 8 * |chunks|;
      var drawn := rng.Words(8);
      DrawsShift(seed, drawnBefore, 0, 8);
      IterateSplit(seed, drawnBefore, 8);
      var chunk := Join(drawn, " ");
      ExtendJoin(chunks, drawn, seed);
      chunks := chunks + [chunk];
    }
    assert |chunks| == CeilDiv(words, 8);
    text := "[" + topic + "] " + Join(chunks, " ");
  }

  lemma NothingDrawn(seed: int)
    ensures Iterate(seed, 0) == seed
  {
  }

  /** Appending the join of eight fresh words keeps the joined text equal to the join of every word so far. */
  lemma ExtendJoin(chunks: seq<string>, drawn: seq<string>, seed: int)
    requires drawn == Draws(seed, 8 * |chunks|, 8)
    requires chunks == [] || Join(chunks, " ") == Join(Draws(seed, 0, 8 * |chunks|), " ")
    ensures Join(chunks + [Join(drawn, " ")], " ") == Join(Draws(seed, 0, 8 * |chunks| + 8), " ")
  {
    DrawsAppend(seed, 0, 8 * |chunks|, 8);
    if chunks == [] {
      assert chunks + [Join(drawn, " ")] == [Join(drawn, " ")];
      assert Draws(seed, 0, 0) + drawn == drawn;
    } else {
      JoinAppend(chunks, [Join(drawn, " ")], " ");
      JoinAppend(Draws(seed, 0, 8 * |chunks|), drawn, " ");
    }
  }

  /** Some words, as draws of the orbit of `seed` instead of the current state. */
  method WordsAt(rng: DeterministicRandom, count: nat, ghost seed: int, ghost at: nat) returns (words: seq<string>)
    requires InRange(rng.state)
    modifies rng
    ensures InRange(rng.state)
    ensures old(rng.state) == Iterate(seed, at) ==>
              rng.state == Iterate(seed, at + count) && words == Draws(seed, at, count)
  {
    words := rng.Words(count);
    IterateSplit(seed, at, count);
    DrawsShift(seed, at, 0, count);
  }

  method BuildTurn(rng: DeterministicRandom, index: nat, target: int) returns (turn: TurnText)
    requires InRange(rng.state)
    modifies rng
    ensures InRange(rng.state) && rng.state == Iterate(old(rng.state), TurnDraws(target))
    ensures turn == TurnAt(old(rng.state), 0, index, target)
  {
    hide Iterate, BlockDraws, Draws, Join, BlockText, Decimal;
    ghost var seed, b := rng.state, BlockDraws(target);
    var n := Decimal(index + 1);
    var body := Block(rng, target, "turn-" + n + "-context");
    var summary := WordsAt(rng, 6, seed, b);
    var listing := WordsAt(rng, 4, seed, b + 6);
    var request := "Turn " + n + ": given the project brief above, summarize the " + Join(summary, " ")
      + " constraint in one sentence and list the " + Join(listing, " ") + " next step.";
    var preserved := WordsAt(rng, 5, seed, b + 10);
    var verified := WordsAt(rng, 4, seed, b + 15);
    var response := "Turn " + n + " answer: preserve the " + Join(preserved, " ")
      + " constraint. Next step: verify " + Join(verified, " ") + ".";
    turn := TurnText(body, request, response);
  }

  lemma TurnShift(seed: int, at: nat, index: nat, target: int)
    ensures TurnAt(Iterate(seed, at), 0, index, target) == TurnAt(seed, at, index, target)
  {
    hide Iterate, BlockDraws, Draws, Join, Decimal;
    var b := BlockDraws(target);
    DrawsShift(seed, at, 0, b);
    DrawsShift(seed, at, b, 6);
    DrawsShift(seed, at, b + 6, 4);
    DrawsShift(seed, at, b + 10, 5);
    DrawsShift(seed, at, b + 15, 4);
  }

  /** The whole manifest, and the exact number of draws that building it consumes. */
  method BuildManifest(turns: int, turnTarget: int, systemTokens: int)
    returns (manifest: Manifest, rng: DeterministicRandom)
    ensures manifest == ManifestText(turns, turnTarget, systemTokens)
    ensures rng.state == Iterate(SEED, TurnStart(systemTokens, turnTarget, Max(0, turns)))
  {
    hide Iterate, BlockDraws, TurnDraws, TurnAt, Draws;
    rng := new DeterministicRandom(SEED);
    var scaffold := Block(rng, systemTokens, "scaffold");
    var turnSpecs: seq<TurnText> := [];
    var count := Max(0, turns);
    for index := 0 to count
      invariant InRange(rng.state) && rng.state == Iterate(SEED, TurnStart(systemTokens, turnTarget, index))
      invariant |turnSpecs| == index
      invariant forall i :: 0 <= i < index ==>
        turnSpecs[i] == TurnAt(SEED, TurnStart(systemTokens, turnTarget, i), i, turnTarget)
    {
      ghost var at := TurnStart(systemTokens, turnTarget, index);
      var turn := BuildTurn(rng, index, turnTarget);
      TurnShift(SEED, at, index, turnTarget);
      IterateSplit(SEED, at, TurnDraws(turnTarget));
      turnSpecs := turnSpecs + [turn];
      TurnStartStep(systemTokens, turnTarget, index);
    }
    manifest := Manifest(SEED, turnTarget, systemTokens, systemTokens + turns * turnTarget, scaffold, turnSpecs);
    assert manifest.turns == ManifestText(turns, turnTarget, systemTokens).turns;
  }

  // ---- what follows for every manifest ------------------------------------

  /** No generator state repeats while a manifest is built exactly when it takes fewer than 2^48 draws. */
  lemma ManifestStatesAreFresh(turns: nat, turnTarget: int, systemTokens: int)
    ensures
      (forall i: nat, j: nat :: i < j <= TurnStart(systemTokens, turnTarget, turns) ==>
         Iterate(SEED, i) != Iterate(SEED, j))
      <==> TurnStart(systemTokens, turnTarget, turns) < MODULUS
  {
    FreshStates(SEED, TurnStart(systemTokens, turnTarget, turns));
  }

  lemma FreshStates(seed: int, n: nat)
    requires InRange(seed)
    ensures (forall i: nat, j: nat :: i < j <= n ==> Iterate(seed, i) != Iterate(seed, j)) <==> n < MODULUS
  {
    hide Iterate;
    if n < MODULUS {
      forall i: nat, j: nat | i < j <= n ensures Iterate(seed, i) != Iterate(seed, j) {
        OrbitCoincidence(seed, i, j);
      }
    } else {
      OrbitCoincidence(seed, 0, MODULUS);
      var i: nat, j: nat := 0, MODULUS;
      assert i < j <= n && Iterate(seed, i) == Iterate(seed, j);
    }
  }
}
