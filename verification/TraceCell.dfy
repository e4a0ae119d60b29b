/**
  One trace cell of the competitive matrix: how many prompts it takes, and the waves of warm-up and measured
  requests it sends for them.
 */
module TraceCell {
  import opened Common
  import opened CheckpointCut

  // ---- how many prompts ------------------------------------------------------

  /** At least `minimum` and `concurrency` prompts, rounded up to whole waves, but no more than exist. */
  function PromptLimit(concurrency: nat, minimum: nat, available: nat): nat
    requires concurrency > 0
  {
    var target := Max(minimum, concurrency);
    var rounded := if target % concurrency != 0 then target + concurrency - target % concurrency else target;
    Min(rounded, available)
  }

  /** The limit is the least whole number of waves that covers both bounds, unless the manifest runs out first. */
  lemma PromptLimitMeaning(concurrency: nat, minimum: nat, available: nat)
    requires concurrency > 0
    ensures var limit := PromptLimit(concurrency, minimum, available);
            limit <= available
            && (limit < available ==> limit % concurrency == 0 && limit >= minimum && limit >= concurrency)
            && (limit % concurrency != 0 ==> limit == available)
    ensures forall waves: nat :: waves * concurrency >= minimum && waves > 0 ==>
              PromptLimit(concurrency, minimum, available) <= waves * concurrency
  {
    var target := Max(minimum, concurrency);
    var whole := RoundedUp(target, concurrency);
    forall waves: nat | waves * concurrency >= minimum && waves > 0
      ensures PromptLimit(concurrency, minimum, available) <= waves * concurrency
    {
      MultiplesAreOrdered(waves, 1, concurrency);
      MultiplesAreOrdered(waves, whole, concurrency);
    }
  }

  lemma RoundedUp(target: nat, d: nat) returns (whole: nat)
    requires d > 0
    ensures (if target % d != 0 then target + d - target % d else target) == whole * d
    ensures (whole * d) % d == 0 && target <= whole * d
    ensures whole > 0 ==> (whole - 1) * d < target
  {
    var q, r := target / d, target % d;
    assert target == q * d + r;
    whole := if r != 0 then q + 1 else q;
    if r != 0 {
      assert whole * d == q * d + d;
    } else if whole > 0 {
      assert (whole - 1) * d == q * d - d;
    }
    DivModUnique(d, whole * d, whole, 0);
  }

  lemma MultiplesAreOrdered(a: nat, b: nat, d: nat)
    requires d > 0
    ensures a >= b ==> a * d >= b * d
    ensures a < b ==> a * d <= (b - 1) * d
  {
  }

  // ---- waves -------------------------------------------------------------------

  datatype Record =
    | Warm(group: nat, index: nat, fraction: real, prompt: string)
    | Measured(group: nat, index: nat, prompt: string)

  /** The prompts with positions `start .. end` warmed at one fraction. */
  function WarmPass(prompts: seq<string>, group: nat, start: nat, end: nat, fraction: real): seq<Record>
    requires start <= end <= |prompts|
  {
    seq(end - start, k requires 0 <= k < end - start =>
      Warm(group, start + k, fraction, Checkpoint(prompts[start + k], fraction)))
  }

  function WarmPasses(prompts: seq<string>, group: nat, start: nat, end: nat, fractions: seq<real>): seq<Record>
    requires start <= end <= |prompts|
  {
    if fractions == [] then []
    else WarmPasses(prompts, group, start, end, fractions[..|fractions| - 1])
         + WarmPass(prompts, group, start, end, fractions[|fractions| - 1])
  }

  function MeasuredPass(prompts: seq<string>, group: nat, start: nat, end: nat): seq<Record>
    requires start <= end <= |prompts|
  {
    seq(end - start, k requires 0 <= k < end - start => Measured(group, start + k, prompts[start + k]))
  }

  function Wave(prompts: seq<string>, group: nat, start: nat, end: nat, fractions: seq<real>): seq<Record>
    requires start <= end <= |prompts|
  {
    WarmPasses(prompts, group, start, end, fractions) + MeasuredPass(prompts, group, start, end)
  }

  /** The waves from position `start` on. */
  function WavesFrom(prompts: seq<string>, concurrency: nat, fractions: seq<real>, group: nat, start: nat): seq<Record>
    requires concurrency > 0
    decreases |prompts| - start
  {
    if start >= |prompts| then []
    else Wave(prompts, group, start, Min(start + concurrency, |prompts|), fractions)
         + WavesFrom(prompts, concurrency, fractions, group + 1, start + concurrency)
  }

  method SendWave(selected: seq<string>, group: nat, start: nat, end: nat, fractions: seq<real>)
    returns (records: seq<Record>)
    requires start <= end <= |selected|
    ensures records == Wave(selected, group, start, end, fractions)
  {
    records := [];
    for f := 0 to |fractions|
      invariant records == WarmPasses(selected, group, start, end, fractions[..f])
    {
      ghost var passes := records;
      for local := 0 to end - start
        invariant records == passes + WarmPass(selected, group, start, end, fractions[f])[..local]
      {
        var warmPrompt := Checkpoint(selected[start + local], fractions[f]);
        records := records + [Warm(group, start + local, fractions[f], warmPrompt)];
      }
      assert fractions[..f + 1][..f] == fractions[..f];
    }
    assert fractions[..|fractions|] == fractions;
    ghost var warmed := records;
    for local := 0 to end - start
      invariant records == warmed + MeasuredPass(selected, group, start, end)[..local]
    {
      records := records + [Measured(group, start + local, selected[start + local])];
    }
  }

  /** The loops of a trace cell over its selected prompts; the server's answers play no role here. */
  method RunTraceCell(prompts: seq<string>, concurrency: nat, minimum: nat, fractions: seq<real>)
    returns (records: seq<Record>)
    requires concurrency > 0
    ensures PromptLimit(concurrency, minimum, |prompts|) <= |prompts|
    ensures records == WavesFrom(prompts[..PromptLimit(concurrency, minimum, |prompts|)], concurrency, fractions, 0, 0)
  {
    var limit := PromptLimit(concurrency, minimum, |prompts|);
    var selected := prompts[..limit];
    records := [];
    var groupIndex, groupStart := 0, 0;
    while groupStart < |selected|
      invariant WavesFrom(selected, concurrency, fractions, 0, 0)
             == records + WavesFrom(selected, concurrency, fractions, groupIndex, groupStart)
      decreases |selected| - groupStart
    {
      var end := Min(groupStart + concurrency, |selected|);
      var wave := SendWave(selected, groupIndex, groupStart, end, fractions);
      records := records + wave;
      groupIndex := groupIndex + 1;
      groupStart := groupStart + concurrency;
    }
  }

  // ---- what the waves amount to ---------------------------------------------------

  function Interval(start: nat, end: nat): seq<nat>
    requires start <= end
  {
    seq(end - start, k requires 0 <= k < end - start => start + k)
  }

  /** The prompt positions that a phase touches, in the order of its requests. */
  function Positions(phase: Record -> bool, records: seq<Record>): seq<nat> {
    MapSeq(IndexOf(), Filter(phase, records))
  }

  function IndexOf(): Record -> nat {
    (r: Record) => r.index
  }

  function IsMeasured(): Record -> bool {
    (r: Record) => r.Measured?
  }

  function IsWarm(fraction: real): Record -> bool {
    (r: Record) => r.Warm? && r.fraction == fraction
  }

  lemma PositionsAppend(phase: Record -> bool, a: seq<Record>, b: seq<Record>)
    ensures Positions(phase, a + b) == Positions(phase, a) + Positions(phase, b)
  {
    FilterAppend(phase, a, b);
  }

  lemma PassPositions(prompts: seq<string>, group: nat, start: nat, end: nat, fraction: real, phase: Record -> bool)
    requires start <= end <= |prompts|
    ensures var pass := WarmPass(prompts, group, start, end, fraction);
            (forall r :: r in pass ==> phase(r)) ==> Positions(phase, pass) == Interval(start, end)
    ensures var pass := WarmPass(prompts, group, start, end, fraction);
            (forall r :: r in pass ==> !phase(r)) ==> Positions(phase, pass) == []
  {
    var pass := WarmPass(prompts, group, start, end, fraction);
    PassIndices(prompts, group, start, end, fraction);
    hide WarmPass, Filter;
    if forall r :: r in pass ==> phase(r) {
      FilterAll(phase, pass);
    }
    if forall r :: r in pass ==> !phase(r) {
      FilterNone(phase, pass);
      assert MapSeq(IndexOf(), Filter(phase, pass)) == [];
    }
  }

  lemma PassIndices(prompts: seq<string>, group: nat, start: nat, end: nat, fraction: real)
    requires start <= end <= |prompts|
    ensures MapSeq(IndexOf(), WarmPass(prompts, group, start, end, fraction)) == Interval(start, end)
  {
    hide Checkpoint;
  }

  lemma {:induction false} WarmPassesLength(prompts: seq<string>, group: nat, start: nat, end: nat, fractions: seq<real>)
    requires start <= end <= |prompts|
    ensures |WarmPasses(prompts, group, start, end, fractions)| == |fractions| * (end - start)
  {
    hide Checkpoint;
    if fractions == [] {
    } else {
      var front := fractions[..|fractions| - 1];
      WarmPassesLength(prompts, group, start, end, front);
      assert |fractions| * (end - start) == |front| * (end - start) + (end - start);
    }
  }

  lemma OnePass(prompts: seq<string>, group: nat, start: nat, end: nat, last: real, fraction: real)
    requires start <= end <= |prompts|
    ensures Positions(IsMeasured(), WarmPass(prompts, group, start, end, last)) == []
    ensures Positions(IsWarm(fraction), WarmPass(prompts, group, start, end, last))
         == if fraction == last then Interval(start, end) else []
  {
    hide Checkpoint, Positions, Interval;
    PassPositions(prompts, group, start, end, last, IsMeasured());
    PassPositions(prompts, group, start, end, last, IsWarm(fraction));
  }

  lemma {:induction false} WarmPassesPositions(prompts: seq<string>, group: nat, start: nat, end: nat,
                                               fractions: seq<real>, fraction: real)
    requires start <= end <= |prompts|
    ensures Positions(IsMeasured(), WarmPasses(prompts, group, start, end, fractions)) == []
    ensures Distinct(fractions) ==>
              Positions(IsWarm(fraction), WarmPasses(prompts, group, start, end, fractions))
              == if fraction in fractions then Interval(start, end) else []
  {
    hide Checkpoint, WarmPass, Positions;
    NoPositions(IsMeasured(), end);
    NoPositions(IsWarm(fraction), end);
    if fractions == [] {
    } else {
      var front, last := fractions[..|fractions| - 1], fractions[|fractions| - 1];
      WarmPassesPositions(prompts, group, start, end, front, fraction);
      var before, pass := WarmPasses(prompts, group, start, end, front), WarmPass(prompts, group, start, end, last);
      PositionsAppend(IsMeasured(), before, pass);
      PositionsAppend(IsWarm(fraction), before, pass);
      OnePass(prompts, group, start, end, last, fraction);
      assert fractions == front + [last];
      if Distinct(fractions) {
        forall i | 0 <= i < |front| ensures front[i] != last {
          assert fractions[i] != fractions[|fractions| - 1];
        }
      }
    }
  }

  lemma MeasuredPositions(prompts: seq<string>, group: nat, start: nat, end: nat, fraction: real)
    requires start <= end <= |prompts|
    ensures Positions(IsMeasured(), MeasuredPass(prompts, group, start, end)) == Interval(start, end)
    ensures Positions(IsWarm(fraction), MeasuredPass(prompts, group, start, end)) == []
  {
    var pass := MeasuredPass(prompts, group, start, end);
    FilterAll(IsMeasured(), pass);
    FilterNone(IsWarm(fraction), pass);
  }

  lemma WavePositions(prompts: seq<string>, group: nat, start: nat, end: nat, fractions: seq<real>, fraction: real)
    requires start <= end <= |prompts|
    ensures Positions(IsMeasured(), Wave(prompts, group, start, end, fractions)) == Interval(start, end)
    ensures Distinct(fractions) ==>
              Positions(IsWarm(fraction), Wave(prompts, group, start, end, fractions))
              == if fraction in fractions then Interval(start, end) else []
  {
    hide Checkpoint;
    var warm := WarmPasses(prompts, group, start, end, fractions);
    var measured := MeasuredPass(prompts, group, start, end);
    WarmPassesPositions(prompts, group, start, end, fractions, fraction);
    MeasuredPositions(prompts, group, start, end, fraction);
    PositionsAppend(IsMeasured(), warm, measured);
    PositionsAppend(IsWarm(fraction), warm, measured);
  }

  lemma IntervalSplit(a: nat, b: nat, c: nat)
    requires a <= b <= c
    ensures Interval(a, b) + Interval(b, c) == Interval(a, c)
  {
  }

  /**
    Coverage: every prompt from `start` on is measured exactly once and in order, and likewise warmed at each fraction
    when the fractions are distinct.
   */
  lemma {:induction false} WavesCover(prompts: seq<string>, concurrency: nat, fractions: seq<real>, fraction: real,
                                      group: nat, start: nat)
    requires concurrency > 0 && start <= |prompts|
    ensures var records := WavesFrom(prompts, concurrency, fractions, group, start);
            Positions(IsMeasured(), records) == Interval(start, |prompts|)
            && (Distinct(fractions) ==>
                  Positions(IsWarm(fraction), records)
                  == (if fraction in fractions then Interval(start, |prompts|) else []))
    decreases |prompts| - start
  {
    NoPositions(IsMeasured(), |prompts|);
    NoPositions(IsWarm(fraction), |prompts|);
    hide Wave, Positions, Interval;
    if start < |prompts| {
      var end := Min(start + concurrency, |prompts|);
      var wave := Wave(prompts, group, start, end, fractions);
      var rest := WavesFrom(prompts, concurrency, fractions, group + 1, start + concurrency);
      WavePositions(prompts, group, start, end, fractions, fraction);
      if start + concurrency <= |prompts| {
        WavesCover(prompts, concurrency, fractions, fraction, group + 1, start + concurrency);
      } else {
        assert rest == [] && end == |prompts|;
      }
      CoverStep(IsMeasured(), wave, rest, true, start, end, |prompts|);
      if Distinct(fractions) {
        CoverStep(IsWarm(fraction), wave, rest, fraction in fractions, start, end, |prompts|);
      }
    }
  }

  // ---- how often a prompt is warmed ------------------------------------------------------------------

  function WarmedAt(index: nat, fraction: real): Record -> bool {
    (r: Record) => r.Warm? && r.index == index && r.fraction == fraction
  }

  lemma {:induction false} PassWarms(prompts: seq<string>, group: nat, start: nat, end: nat, fraction: real,
                                     index: nat, wanted: real)
    requires start <= end <= |prompts|
    ensures Count(WarmedAt(index, wanted), WarmPass(prompts, group, start, end, fraction))
         == if fraction == wanted && start <= index < end then 1 else 0
    decreases end
  {
    hide Checkpoint;
    var pass := WarmPass(prompts, group, start, end, fraction);
    if start < end {
      PassWarms(prompts, group, start, end - 1, fraction, index, wanted);
      var last := Warm(group, end - 1, fraction, Checkpoint(prompts[end - 1], fraction));
      assert pass == WarmPass(prompts, group, start, end - 1, fraction) + [last];
      CountAppend(WarmedAt(index, wanted), WarmPass(prompts, group, start, end - 1, fraction), [last]);
      CountOne(WarmedAt(index, wanted), last);
    } else {
      assert pass == [];
    }
  }

  lemma {:induction false} PassesWarm(prompts: seq<string>, group: nat, start: nat, end: nat, fractions: seq<real>,
                                      index: nat, wanted: real)
    requires start <= end <= |prompts|
    ensures Count(WarmedAt(index, wanted), WarmPasses(prompts, group, start, end, fractions))
         == if start <= index < end then multiset(fractions)[wanted] else 0
  {
    hide WarmPass;
    if fractions != [] {
      var front, last := fractions[..|fractions| - 1], fractions[|fractions| - 1];
      assert fractions == front + [last];
      hide Count;
      PassesWarm(prompts, group, start, end, front, index, wanted);
      PassWarms(prompts, group, start, end, last, index, wanted);
      CountAppend(WarmedAt(index, wanted), WarmPasses(prompts, group, start, end, front),
                  WarmPass(prompts, group, start, end, last));
    } else {
      assert WarmPasses(prompts, group, start, end, fractions) == [];
    }
  }

  lemma WaveWarms(prompts: seq<string>, group: nat, start: nat, end: nat, fractions: seq<real>, index: nat, wanted: real)
    requires start <= end <= |prompts|
    ensures Count(WarmedAt(index, wanted), Wave(prompts, group, start, end, fractions))
         == if start <= index < end then multiset(fractions)[wanted] else 0
  {
    hide Count, WarmPasses;
    PassesWarm(prompts, group, start, end, fractions, index, wanted);
    var measured := MeasuredPass(prompts, group, start, end);
    CountAppend(WarmedAt(index, wanted), WarmPasses(prompts, group, start, end, fractions), measured);
    CountBounds(WarmedAt(index, wanted), measured);
  }

  /** Every prompt is warmed as often as a fraction is listed, for fractions with repetitions too. */
  lemma {:induction false} WavesWarm(prompts: seq<string>, concurrency: nat, fractions: seq<real>, group: nat, start: nat,
                                     index: nat, wanted: real)
    requires concurrency > 0 && start <= |prompts|
    ensures Count(WarmedAt(index, wanted), WavesFrom(prompts, concurrency, fractions, group, start))
         == if start <= index < |prompts| then multiset(fractions)[wanted] else 0
    decreases |prompts| - start
  {
    hide Wave;
    if start < |prompts| {
      var end := Min(start + concurrency, |prompts|);
      var rest := WavesFrom(prompts, concurrency, fractions, group + 1, start + concurrency);
      WaveWarms(prompts, group, start, end, fractions, index, wanted);
      CountAppend(WarmedAt(index, wanted), Wave(prompts, group, start, end, fractions), rest);
      if start + concurrency <= |prompts| {
        WavesWarm(prompts, concurrency, fractions, group + 1, start + concurrency, index, wanted);
      } else {
        assert rest == [];
      }
    }
  }

  lemma CoverStep(phase: Record -> bool, wave: seq<Record>, rest: seq<Record>, sent: bool, start: nat, end: nat, total: nat)
    requires start <= end <= total
    requires Positions(phase, wave) == if sent then Interval(start, end) else []
    requires Positions(phase, rest) == if sent then Interval(end, total) else []
    ensures Positions(phase, wave + rest) == if sent then Interval(start, total) else []
  {
    PositionsAppend(phase, wave, rest);
    IntervalSplit(start, end, total);
  }

  lemma NoPositions(phase: Record -> bool, end: nat)
    ensures Positions(phase, []) == [] && Interval(end, end) == []
  {
  }

  lemma WaveLength(prompts: seq<string>, group: nat, start: nat, end: nat, fractions: seq<real>)
    requires start <= end <= |prompts|
    ensures |Wave(prompts, group, start, end, fractions)| == |fractions| * (end - start) + (end - start)
  {
    hide WarmPasses, Checkpoint;
    WarmPassesLength(prompts, group, start, end, fractions);
  }

  /** A cell makes `limit * (fractions + 1)` requests in all. */
  lemma {:induction false} WavesLength(prompts: seq<string>, concurrency: nat, fractions: seq<real>, group: nat, start: nat)
    requires concurrency > 0 && start <= |prompts|
    ensures |WavesFrom(prompts, concurrency, fractions, group, start)| == (|prompts| - start) * (|fractions| + 1)
    decreases |prompts| - start
  {
    hide Wave;
    if start == |prompts| {
    } else {
      var end := Min(start + concurrency, |prompts|);
      WaveLength(prompts, group, start, end, fractions);
      if start + concurrency <= |prompts| {
        WavesLength(prompts, concurrency, fractions, group + 1, start + concurrency);
      }
      LengthStep(end - start, |prompts| - end, |fractions|);
    }
  }

  // ---- how full the waves are ---------------------------------------------------------------------

  function MeasuredIn(wave: nat): Record -> bool {
    (r: Record) => r.Measured? && r.group == wave
  }

  lemma WaveMeasures(prompts: seq<string>, group: nat, start: nat, end: nat, fractions: seq<real>, wave: nat)
    requires start <= end <= |prompts|
    ensures Count(MeasuredIn(wave), Wave(prompts, group, start, end, fractions)) == if group == wave then end - start else 0
  {
    hide Count, Checkpoint;
    var warm, measured := WarmPasses(prompts, group, start, end, fractions), MeasuredPass(prompts, group, start, end);
    CountAppend(MeasuredIn(wave), warm, measured);
    forall r | r in warm ensures !MeasuredIn(wave)(r) {
      WarmMember(prompts, group, start, end, fractions, r);
    }
    CountBounds(MeasuredIn(wave), warm);
    CountBounds(MeasuredIn(wave), measured);
  }

  /** How many prompts a wave measures: the concurrency, or what is left for the last one. */
  lemma {:induction false} WaveSize(prompts: seq<string>, concurrency: nat, fractions: seq<real>, group: nat, start: nat,
                                    wave: nat)
    requires concurrency > 0 && start == group * concurrency
    ensures Count(MeasuredIn(wave), WavesFrom(prompts, concurrency, fractions, group, start))
         == if group <= wave && wave * concurrency < |prompts|
            then Min(concurrency, |prompts| - wave * concurrency) else 0
    decreases |prompts| - start
  {
    hide Wave;
    if start >= |prompts| {
      WaveBehind(group, wave, concurrency, |prompts|);
    } else {
      var end := Min(start + concurrency, |prompts|);
      assert (group + 1) * concurrency == start + concurrency;
      WaveMeasures(prompts, group, start, end, fractions, wave);
      WaveSize(prompts, concurrency, fractions, group + 1, start + concurrency, wave);
      CountAppend(MeasuredIn(wave), Wave(prompts, group, start, end, fractions),
                  WavesFrom(prompts, concurrency, fractions, group + 1, start + concurrency));
    }
  }

  lemma WaveBehind(group: nat, wave: nat, concurrency: nat, total: nat)
    requires group * concurrency >= total
    ensures group <= wave ==> wave * concurrency >= total
  {
    if group <= wave {
      assert wave * concurrency == group * concurrency + (wave - group) * concurrency;
    }
  }

  /** Unless the available prompts cap the limit, every wave of a cell measures exactly `concurrency` prompts. */
  lemma WavesAreFull(prompts: seq<string>, concurrency: nat, minimum: nat, fractions: seq<real>, wave: nat)
    requires concurrency > 0 && PromptLimit(concurrency, minimum, |prompts|) < |prompts|
    ensures var limit := PromptLimit(concurrency, minimum, |prompts|);
            Count(MeasuredIn(wave), WavesFrom(prompts[..limit], concurrency, fractions, 0, 0))
            == if wave < limit / concurrency then concurrency else 0
  {
    hide PromptLimit, Count, WavesFrom;
    PromptLimitMeaning(concurrency, minimum, |prompts|);
    var limit := PromptLimit(concurrency, minimum, |prompts|);
    WaveSize(prompts[..limit], concurrency, fractions, 0, 0, wave);
    WholeWaves(limit, concurrency, wave);
  }

  lemma WholeWaves(limit: nat, concurrency: nat, wave: nat)
    requires concurrency > 0 && limit % concurrency == 0
    ensures wave < limit / concurrency ==> wave * concurrency + concurrency <= limit
    ensures wave >= limit / concurrency ==> wave * concurrency >= limit
  {
    var waves := limit / concurrency;
    assert limit == waves * concurrency;
    if wave < waves {
      MultiplesAreOrdered(wave, waves, concurrency);
      assert (waves - 1) * concurrency == waves * concurrency - concurrency;
    } else {
      MultiplesAreOrdered(wave, waves, concurrency);
    }
  }

  lemma LengthStep(first: nat, rest: nat, f: nat)
    ensures f * first + first + rest * (f + 1) == (first + rest) * (f + 1)
  {
  }

  /** The wave of a record is its position divided by the concurrency: no wave mixes two groups. */
  lemma {:induction false} WaveOfRecord(prompts: seq<string>, concurrency: nat, fractions: seq<real>,
                                        group: nat, start: nat, r: Record)
    requires concurrency > 0 && start == group * concurrency
    requires r in WavesFrom(prompts, concurrency, fractions, group, start)
    ensures r.index / concurrency == r.group && start <= r.index < |prompts|
    ensures r.prompt == if r.Warm? then Checkpoint(prompts[r.index], r.fraction) else prompts[r.index]
    decreases |prompts| - start
  {
    hide Checkpoint, Wave;
    var end := Min(start + concurrency, |prompts|);
    if r in Wave(prompts, group, start, end, fractions) {
      WaveMember(prompts, group, start, end, fractions, r);
      DivModUnique(concurrency, r.index, group, r.index - start);
    } else {
      assert (group + 1) * concurrency == group * concurrency + concurrency;
      WaveOfRecord(prompts, concurrency, fractions, group + 1, start + concurrency, r);
    }
  }

  lemma WaveMember(prompts: seq<string>, group: nat, start: nat, end: nat, fractions: seq<real>, r: Record)
    requires start <= end <= |prompts| && r in Wave(prompts, group, start, end, fractions)
    ensures r.group == group && start <= r.index < end
    ensures r.prompt == if r.Warm? then Checkpoint(prompts[r.index], r.fraction) else prompts[r.index]
  {
    if r in WarmPasses(prompts, group, start, end, fractions) {
      WarmMember(prompts, group, start, end, fractions, r);
    }
  }

  lemma {:induction false} WarmMember(prompts: seq<string>, group: nat, start: nat, end: nat, fractions: seq<real>, r: Record)
    requires start <= end <= |prompts|
    ensures r in WarmPasses(prompts, group, start, end, fractions) <==>
              r.Warm? && r.group == group && start <= r.index < end && r.fraction in fractions
              && r.prompt == Checkpoint(prompts[r.index], r.fraction)
  {
    hide Checkpoint;
    if fractions == [] {
    } else {
      var front, last := fractions[..|fractions| - 1], fractions[|fractions| - 1];
      WarmMember(prompts, group, start, end, front, r);
      PassMember(prompts, group, start, end, last, r);
      hide WarmPass;
      assert r in WarmPasses(prompts, group, start, end, fractions) <==>
               r in WarmPasses(prompts, group, start, end, front) || r in WarmPass(prompts, group, start, end, last);
      assert fractions == front + [last];
    }
  }

  lemma PassMember(prompts: seq<string>, group: nat, start: nat, end: nat, fraction: real, r: Record)
    requires start <= end <= |prompts|
    ensures r in WarmPass(prompts, group, start, end, fraction) <==>
              r.Warm? && r.group == group && start <= r.index < end && r.fraction == fraction
              && r.prompt == Checkpoint(prompts[r.index], fraction)
  {
    hide Checkpoint;
    var pass := WarmPass(prompts, group, start, end, fraction);
    if r.Warm? && r.group == group && start <= r.index < end && r.fraction == fraction
       && r.prompt == Checkpoint(prompts[r.index], fraction) {
      assert pass[r.index - start] == r;
    }
  }

  /** A prompt is measured only after every prompt of its wave has been warmed at every fraction. */
  lemma {:induction false} WarmBeforeMeasured(prompts: seq<string>, concurrency: nat, fractions: seq<real>,
                                              group: nat, start: nat, at: nat, index: nat, fraction: real)
    requires concurrency > 0 && start == group * concurrency && fraction in fractions && index < |prompts|
    requires at < |WavesFrom(prompts, concurrency, fractions, group, start)|
    requires WavesFrom(prompts, concurrency, fractions, group, start)[at].Measured?
    requires WavesFrom(prompts, concurrency, fractions, group, start)[at].group == index / concurrency
    ensures exists before :: 0 <= before < at
              && WavesFrom(prompts, concurrency, fractions, group, start)[before]
                 == Warm(index / concurrency, index, fraction, Checkpoint(prompts[index], fraction))
    decreases |prompts| - start
  {
    var records := WavesFrom(prompts, concurrency, fractions, group, start);
    var end := Min(start + concurrency, |prompts|);
    var warm := WarmPasses(prompts, group, start, end, fractions);
    var wave := Wave(prompts, group, start, end, fractions);
    var wanted := Warm(index / concurrency, index, fraction, Checkpoint(prompts[index], fraction));
    if at < |wave| {
      WaveMember(prompts, group, start, end, fractions, records[at]);
      WaveBounds(index, concurrency, group);
      WarmMember(prompts, group, start, end, fractions, wanted);
      var k :| 0 <= k < |warm| && warm[k] == wanted;
      WarmIsNotMeasured(prompts, group, start, end, fractions, at);
      assert records[k] == wanted;
    } else {
      WarmBeforeMeasured(prompts, concurrency, fractions, group + 1, start + concurrency, at - |wave|, index, fraction);
      var rest := WavesFrom(prompts, concurrency, fractions, group + 1, start + concurrency);
      var k :| 0 <= k < at - |wave| && rest[k] == wanted;
      assert records[k + |wave|] == wanted;
    }
  }

  lemma WaveBounds(index: nat, concurrency: nat, group: nat)
    requires concurrency > 0 && index / concurrency == group
    ensures group * concurrency <= index < group * concurrency + concurrency
  {
  }

  lemma WarmIsNotMeasured(prompts: seq<string>, group: nat, start: nat, end: nat, fractions: seq<real>, at: nat)
    requires start <= end <= |prompts| && at < |Wave(prompts, group, start, end, fractions)|
    requires Wave(prompts, group, start, end, fractions)[at].Measured?
    ensures at >= |WarmPasses(prompts, group, start, end, fractions)|
  {
    var warm := WarmPasses(prompts, group, start, end, fractions);
    if at < |warm| {
      WarmMember(prompts, group, start, end, fractions, warm[at]);
    }
  }
}
