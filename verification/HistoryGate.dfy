/**
  The nightly history gate: is the measured matrix whole, is a row complete, has it regressed against the last
  comparable runs, and may an automatic repair be requested?
 */
module HistoryGate {
  import opened Common

  // ---- matrix coverage ------------------------------------------------------------------

  datatype Place = Place(pass: int, concurrency: int)

  function Expected(passes: int, levels: seq<int>): set<Place> {
    set p: int, c | 1 <= p <= passes && c in levels :: Place(p, c)
  }

  /** `coverage_problem`: compare the set and the number of observed places with the planned matrix. */
  function CoverageProblem(observed: seq<Place>, passes: int, levels: seq<int>): bool {
    Elements(observed) != Expected(passes, levels) || |observed| != |Expected(passes, levels)|
  }

  /** No problem means that every planned pass and level was measured exactly once, and nothing else was. */
  lemma CoverageIsExact(observed: seq<Place>, passes: int, levels: seq<int>)
    ensures !CoverageProblem(observed, passes, levels) <==>
              Distinct(observed)
              && forall p, c :: Place(p, c) in observed <==> 1 <= p <= passes && c in levels
  {
    DistinctIffCardinality(observed);
    var expected := Expected(passes, levels);
    if Elements(observed) == expected {
      forall p, c ensures Place(p, c) in observed <==> 1 <= p <= passes && c in levels {
        assert Place(p, c) in observed <==> Place(p, c) in Elements(observed);
      }
    }
    if forall p, c :: Place(p, c) in observed <==> 1 <= p <= passes && c in levels {
      forall x ensures x in Elements(observed) <==> x in expected {
        assert x == Place(x.pass, x.concurrency);
      }
      assert Elements(observed) == expected;
    }
  }

  // ---- history rows ------------------------------------------------------------------------

  datatype Metric = DecodeSpeed | EndToEndSpeed | TtftMean | TtftP90 | LengthFinishes

  datatype Cohort = Cohort(model: string, sha: Option<string>, hardware: string, replay: string, concurrency: nat,
                           sessions: Option<seq<string>>)

  /** A history row; a metric is `None` when it is missing or not a number. */
  datatype Row = Row(cohort: Cohort, complete: bool, successful: int, failed: int, requests: int,
                     metrics: Metric -> Option<real>)

  datatype Reason = SomeFailed(count: int) | Unaccounted(seen: int, total: int) | NoRequests | ContractNotSatisfied

  /** Higher is better for the two speeds, lower is better for the rest. */
  function Direction(m: Metric): real {
    if m.DecodeSpeed? || m.EndToEndSpeed? then 1.0 else -1.0
  }

  const METRICS: seq<Metric> := [DecodeSpeed, EndToEndSpeed, TtftMean, TtftP90, LengthFinishes]

  const BASELINE_RUNS := 3
  const TOLERANCE_PCT := 5.0
  const TOLERANCE_ABS := 0.0

  /** Why a row is incomplete; a complete row has no reasons. */
  method IncompleteReasons(row: Row) returns (reasons: seq<Reason>)
    ensures reasons == [] <==> row.complete
    ensures forall n :: SomeFailed(n) in reasons <==> !row.complete && n == row.failed != 0
    ensures forall seen, total :: Unaccounted(seen, total) in reasons <==>
              !row.complete && seen == row.successful + row.failed != row.requests == total
    ensures NoRequests in reasons <==> !row.complete && row.requests <= 0
    ensures ContractNotSatisfied in reasons <==>
              !row.complete && row.failed == 0 && row.successful == row.requests && row.requests > 0
  {
    reasons := [];
    if row.complete {
      return;
    }
    if row.failed != 0 {
      reasons := reasons + [SomeFailed(row.failed)];
    }
    if row.successful + row.failed != row.requests {
      reasons := reasons + [Unaccounted(row.successful + row.failed, row.requests)];
    }
    if row.requests <= 0 {
      reasons := reasons + [NoRequests];
    }
    if reasons == [] {
      reasons := [ContractNotSatisfied];
    }
  }

  // ---- comparing with the baseline ----------------------------------------------------------

  /** Only complete rows of the same model digest, hardware, replay settings and sessions form a baseline. */
  predicate Matches(row: Row, r: Row) {
    r.complete && r.cohort.sha == row.cohort.sha && r.cohort.hardware == row.cohort.hardware
    && r.cohort.replay == row.cohort.replay && r.cohort.sessions == row.cohort.sessions
  }

  function Comparable(row: Row): Row -> bool {
    (r: Row) => Matches(row, r)
  }

  function LastThree(rows: seq<Row>): seq<Row>
    requires |rows| >= BASELINE_RUNS
  {
    rows[|rows| - BASELINE_RUNS..]
  }

  function Values(m: Metric, rows: seq<Row>): seq<real> {
    if rows == [] then []
    else
      var last := rows[|rows| - 1].metrics(m);
      Values(m, rows[..|rows| - 1]) + (if last.Some? then [last.value] else [])
  }

  function Median3(x: real, y: real, z: real): real {
    if x <= y then (if y <= z then y else if x <= z then z else x)
    else (if x <= z then x else if y <= z then z else y)
  }

  datatype Problem = Incomplete | MovedFromZero(metric: Metric) | Regressed(metric: Metric)

  function AbsReal(x: real): real {
    if x < 0.0 then -x else x
  }

  predicate TooMuchWorse(m: Metric, base: real, candidate: real)
    requires base != 0.0
  {
    100.0 * (candidate - base) / base * Direction(m) < -TOLERANCE_PCT
    && AbsReal(candidate - base) > TOLERANCE_ABS
  }

  function Judge(m: Metric, values: seq<real>, candidate: Option<real>): Option<Problem> {
    if |values| < BASELINE_RUNS || candidate.None? then None
    else
      var base := Median3(values[0], values[1], values[2]);
      if base == 0.0 then (if AbsReal(candidate.value) > TOLERANCE_ABS then Some(MovedFromZero(m)) else None)
      else if TooMuchWorse(m, base, candidate.value) then Some(Regressed(m)) else None
  }

  function Verdicts(row: Row, prior: seq<Row>, metrics: seq<Metric>): seq<Problem>
    requires |prior| >= BASELINE_RUNS
  {
    if metrics == [] then []
    else
      var m := metrics[|metrics| - 1];
      var p := Judge(m, Values(m, LastThree(prior)), row.metrics(m));
      Verdicts(row, prior, metrics[..|metrics| - 1]) + (if p.Some? then [p.value] else [])
  }

  function Compare(row: Row, prior: seq<Row>): seq<Problem> {
    if !row.complete then [Incomplete]
    else
      var matching := Filter(Comparable(row), prior);
      if |matching| < BASELINE_RUNS then [] else Verdicts(row, matching, METRICS)
  }

  /** The comparison loop over the metrics. */
  method CompareRow(row: Row, prior: seq<Row>) returns (problems: seq<Problem>)
    ensures problems == Compare(row, prior)
  {
    if !row.complete {
      return [Incomplete];
    }
    var matching := Filter(Comparable(row), prior);
    if |matching| < BASELINE_RUNS {
      return [];
    }
    problems := [];
    var recent := LastThree(matching);
    for i := 0 to |METRICS|
      invariant problems == Verdicts(row, matching, METRICS[..i])
    {
      var m := METRICS[i];
      assert METRICS[..i + 1][..i] == METRICS[..i];
      var values := CollectValues(m, recent);
      if |values| < BASELINE_RUNS {
        continue;
      }
      var base := Median3(values[0], values[1], values[2]);
      var candidate := row.metrics(m);
      if candidate.None? {
        continue;
      }
      if base == 0.0 {
        if AbsReal(candidate.value) > TOLERANCE_ABS {
          problems := problems + [MovedFromZero(m)];
        }
        continue;
      }
      if TooMuchWorse(m, base, candidate.value) {
        problems := problems + [Regressed(m)];
      }
    }
    assert METRICS[..|METRICS|] == METRICS;
  }

  method CollectValues(m: Metric, rows: seq<Row>) returns (values: seq<real>)
    ensures values == Values(m, rows)
  {
    values := [];
    for i := 0 to |rows|
      invariant values == Values(m, rows[..i])
    {
      assert rows[..i + 1][..i] == rows[..i];
      var value := rows[i].metrics(m);
      if value.Some? {
        values := values + [value.value];
      }
    }
    assert rows[..|rows|] == rows;
  }

  // ---- what a regression means -----------------------------------------------------------------

  /** Over five percent worse, in the direction of the metric. */
  predicate FivePercentWorse(m: Metric, base: real, candidate: real) {
    if Direction(m) > 0.0 then candidate < base * 0.95 else candidate > base * 1.05
  }

  lemma PercentChange(base: real, candidate: real)
    requires base > 0.0
    ensures var delta := 100.0 * (candidate - base) / base;
            (delta < -TOLERANCE_PCT <==> candidate < base * 0.95)
            && (TOLERANCE_PCT < delta <==> candidate > base * 1.05)
  {
    var delta := 100.0 * (candidate - base) / base;
    var scaled := delta * base;
    assert scaled == 100.0 * (candidate - base);
    ScaleOrder(delta, -TOLERANCE_PCT, base);
    assert delta < -TOLERANCE_PCT <==> scaled < -TOLERANCE_PCT * base;
    ScaleOrder(TOLERANCE_PCT, delta, base);
    assert TOLERANCE_PCT < delta <==> TOLERANCE_PCT * base < scaled;
    FivePercent(scaled, base, candidate);
  }

  lemma FivePercent(scaled: real, base: real, candidate: real)
    requires scaled == 100.0 * (candidate - base)
    ensures scaled < -TOLERANCE_PCT * base <==> candidate < base * 0.95
    ensures TOLERANCE_PCT * base < scaled <==> candidate > base * 1.05
  {
  }

  lemma Negated(x: real)
    ensures x * -1.0 == -x && x * 1.0 == x
  {
  }

  lemma ScaleOrder(x: real, y: real, scale: real)
    requires scale > 0.0
    ensures x < y <==> x * scale < y * scale
  {
    if x < y {
      ProductPositive(y - x, scale);
    }
    if x > y {
      ProductPositive(x - y, scale);
    }
  }

  /** For a positive baseline the gate fires exactly when the candidate is more than five percent worse. */
  lemma WorseMeansFivePercent(m: Metric, base: real, candidate: real)
    requires base > 0.0
    ensures TooMuchWorse(m, base, candidate) <==> FivePercentWorse(m, base, candidate)
  {
    PercentChange(base, candidate);
    var delta := 100.0 * (candidate - base) / base;
    Negated(delta);
    if Direction(m) > 0.0 {
      assert delta * Direction(m) == delta;
    } else {
      assert delta * Direction(m) == -delta;
    }
  }

  /** Worse than the median by five percent is worse than at least two of the three runs by five percent. */
  lemma MedianOutvotes(m: Metric, values: seq<real>, candidate: real)
    requires |values| == 3 && Median3(values[0], values[1], values[2]) > 0.0
    requires FivePercentWorse(m, Median3(values[0], values[1], values[2]), candidate)
    ensures exists i, j :: 0 <= i < j < 3
              && FivePercentWorse(m, values[i], candidate) && FivePercentWorse(m, values[j], candidate)
  {
    var x, y, z := values[0], values[1], values[2];
    var base := Median3(x, y, z);
    if FivePercentWorse(m, x, candidate) && FivePercentWorse(m, y, candidate) {
      assert 0 <= 0 < 1 < 3;
    } else if FivePercentWorse(m, x, candidate) {
      assert FivePercentWorse(m, values[0], candidate) && FivePercentWorse(m, values[2], candidate);
    } else {
      assert FivePercentWorse(m, values[1], candidate) && FivePercentWorse(m, values[2], candidate);
    }
  }

  lemma {:induction false} VerdictsMeaning(row: Row, prior: seq<Row>, metrics: seq<Metric>, p: Problem)
    requires |prior| >= BASELINE_RUNS
    ensures p in Verdicts(row, prior, metrics) <==>
              exists m :: m in metrics && Judge(m, Values(m, LastThree(prior)), row.metrics(m)) == Some(p)
  {
    hide Judge;
    if metrics == [] {
    } else {
      var front, last := metrics[..|metrics| - 1], metrics[|metrics| - 1];
      assert metrics == front + [last];
      VerdictsMeaning(row, prior, front, p);
    }
  }

  /**
    The verdict on a complete row with at least three comparable runs: a metric with a positive median is reported
    exactly when it is more than five percent worse than that median, and then it is more than five percent worse
    than at least two of the last three runs.
   */
  lemma RegressionIff(row: Row, prior: seq<Row>, m: Metric, values: seq<real>, candidate: real)
    requires row.complete && |Filter(Comparable(row), prior)| >= BASELINE_RUNS
    requires values == Values(m, LastThree(Filter(Comparable(row), prior))) && |values| == 3
    requires row.metrics(m) == Some(candidate) && Median3(values[0], values[1], values[2]) > 0.0
    ensures Regressed(m) in Compare(row, prior) <==>
              FivePercentWorse(m, Median3(values[0], values[1], values[2]), candidate)
    ensures Regressed(m) in Compare(row, prior) ==>
              exists i, j :: 0 <= i < j < 3
                && FivePercentWorse(m, values[i], candidate) && FivePercentWorse(m, values[j], candidate)
  {
    hide FivePercentWorse, TooMuchWorse, Values;
    var base := Median3(values[0], values[1], values[2]);
    VerdictsMeaning(row, Filter(Comparable(row), prior), METRICS, Regressed(m));
    AllMetrics(m);
    WorseMeansFivePercent(m, base, candidate);
    if FivePercentWorse(m, base, candidate) {
      MedianOutvotes(m, values, candidate);
    }
  }

  // ---- which runs are compared -------------------------------------------------------------------

  /** A whole run of the same model file, hardware, replay settings and sessions. */
  ghost predicate SameConditions(row: Row, r: Row) {
    r.complete
    && row.cohort.sha == r.cohort.sha
    && row.cohort.hardware == r.cohort.hardware
    && row.cohort.replay == r.cohort.replay
    && row.cohort.sessions == r.cohort.sessions
  }

  ghost function SameConditionsCount(row: Row, rows: seq<Row>): nat {
    if rows == [] then 0
    else (if SameConditions(row, rows[0]) then 1 else 0) + SameConditionsCount(row, rows[1..])
  }

  lemma {:induction false} CountIsLength(row: Row, rows: seq<Row>)
    ensures SameConditionsCount(row, rows) == |Filter(Comparable(row), rows)|
  {
    if rows == [] {
    } else {
      CountIsLength(row, rows[1..]);
    }
  }

  lemma FilterAround(row: Row, rows: seq<Row>, i: nat)
    requires i < |rows| && SameConditions(row, rows[i])
    ensures Filter(Comparable(row), rows)
         == Filter(Comparable(row), rows[..i]) + [rows[i]] + Filter(Comparable(row), rows[i + 1..])
  {
    var p := Comparable(row);
    assert rows == rows[..i] + ([rows[i]] + rows[i + 1..]);
    FilterAppend(p, rows[..i], [rows[i]] + rows[i + 1..]);
    assert ([rows[i]] + rows[i + 1..])[1..] == rows[i + 1..];
    assert Filter(p, [rows[i]] + rows[i + 1..]) == [rows[i]] + Filter(p, rows[i + 1..]);
  }

  /** The last three runs under the same conditions: none, one and two such runs follow them. */
  ghost predicate LastRuns(row: Row, prior: seq<Row>, i: nat, j: nat, k: nat) {
    i < j < k < |prior|
    && SameConditions(row, prior[i]) && SameConditions(row, prior[j]) && SameConditions(row, prior[k])
    && SameConditionsCount(row, prior[k + 1..]) == 0
    && SameConditionsCount(row, prior[j + 1..]) == 1
    && SameConditionsCount(row, prior[i + 1..]) == 2
  }

  lemma LastRunsAreCompared(row: Row, prior: seq<Row>, i: nat, j: nat, k: nat)
    requires LastRuns(row, prior, i, j, k)
    ensures |Filter(Comparable(row), prior)| >= BASELINE_RUNS
    ensures LastThree(Filter(Comparable(row), prior)) == [prior[i], prior[j], prior[k]]
  {
    hide Filter, SameConditions, SameConditionsCount;
    CountIsLength(row, prior[k + 1..]);
    CountIsLength(row, prior[j + 1..]);
    CountIsLength(row, prior[i + 1..]);
    TailIs(row, prior, j, k);
    TailIs(row, prior, i, j);
    FilterAround(row, prior, i);
    assert Filter(Comparable(row), prior[k + 1..]) == [];
    assert Filter(Comparable(row), prior[j + 1..]) == [prior[k]];
    assert Filter(Comparable(row), prior[i + 1..]) == [prior[j], prior[k]];
  }

  /** Behind position `a`, the comparable runs end in the one at `b` and those behind it. */
  lemma TailIs(row: Row, prior: seq<Row>, a: nat, b: nat)
    requires a < b < |prior| && SameConditions(row, prior[b])
    ensures var tail, rest := Filter(Comparable(row), prior[a + 1..]), Filter(Comparable(row), prior[b + 1..]);
            |tail| > |rest| && tail[|tail| - |rest| - 1..] == [prior[b]] + rest
  {
    hide Filter, SameConditions;
    var s, c := prior[a + 1..], b - a - 1;
    assert s[c] == prior[b] && s[c + 1..] == prior[b + 1..];
    FilterAround(row, s, c);
  }

  /** The middle one of three values: it is one of them, and two of them are at most, two at least as large. */
  ghost predicate IsMedian(x: real, y: real, z: real, base: real) {
    (base == x || base == y || base == z)
    && ((x <= base && y <= base) || (x <= base && z <= base) || (y <= base && z <= base))
    && ((x >= base && y >= base) || (x >= base && z >= base) || (y >= base && z >= base))
  }

  lemma MedianIsMiddle(x: real, y: real, z: real, base: real)
    ensures IsMedian(x, y, z, base) <==> base == Median3(x, y, z)
  {
  }

  /** What is reported of a metric, for a median of any sign: speeds should not fall, times and length finishes not rise. */
  ghost predicate VerdictIs(problems: seq<Problem>, m: Metric, base: real, candidate: real) {
    (MovedFromZero(m) in problems <==> base == 0.0 && candidate != 0.0)
    && (Regressed(m) in problems <==>
          match m
          case DecodeSpeed => SpeedFell(base, candidate)
          case EndToEndSpeed => SpeedFell(base, candidate)
          case TtftMean => CostRose(base, candidate)
          case TtftP90 => CostRose(base, candidate)
          case LengthFinishes => CostRose(base, candidate))
  }

  /** By more than five percent; under a negative median the percentage turns its sign. */
  ghost predicate SpeedFell(base: real, candidate: real) {
    (base > 0.0 && candidate < base * 0.95) || (base < 0.0 && candidate > base * 0.95)
  }

  ghost predicate CostRose(base: real, candidate: real) {
    (base > 0.0 && candidate > base * 1.05) || (base < 0.0 && candidate < base * 1.05)
  }

  /**
    The verdict in full: a whole row whose last three comparable runs and whose own value for a metric are numbers is
    reported for it exactly when the value is on the wrong side of five percent around the middle of the three.
   */
  lemma VerdictOnLastRuns(row: Row, prior: seq<Row>, i: nat, j: nat, k: nat, m: Metric, x: real, y: real, z: real,
                          base: real, candidate: real)
    requires row.complete && LastRuns(row, prior, i, j, k) && IsMedian(x, y, z, base)
    requires prior[i].metrics(m) == Some(x) && prior[j].metrics(m) == Some(y) && prior[k].metrics(m) == Some(z)
    requires row.metrics(m) == Some(candidate)
    ensures VerdictIs(Compare(row, prior), m, base, candidate)
  {
    hide SameConditions, SameConditionsCount, IsMedian, Median3, TooMuchWorse;
    var matching := Filter(Comparable(row), prior);
    LastRunsAreCompared(row, prior, i, j, k);
    MedianIsMiddle(x, y, z, base);
    ThreeValues(m, prior[i], prior[j], prior[k]);
    VerdictsMeaning(row, matching, METRICS, MovedFromZero(m));
    VerdictsMeaning(row, matching, METRICS, Regressed(m));
    AllMetrics(m);
    hide Filter, Values, Verdicts;
    if base > 0.0 {
      WorseMeansFivePercent(m, base, candidate);
    } else if base < 0.0 {
      NegativeBaselineFires(m, base, candidate);
    }
  }

  lemma ThreeValues(m: Metric, a: Row, b: Row, c: Row)
    requires a.metrics(m).Some? && b.metrics(m).Some? && c.metrics(m).Some?
    ensures Values(m, [a, b, c]) == [a.metrics(m).value, b.metrics(m).value, c.metrics(m).value]
  {
    assert [a, b, c][..2] == [a, b] && [a, b][..1] == [a] && [a][..0] == [];
    assert Values(m, []) == [];
    assert Values(m, [a]) == [] + [a.metrics(m).value];
    assert Values(m, [a, b]) == [a.metrics(m).value] + [b.metrics(m).value];
  }

  // ---- when an improvement is reported ----------------------------------------------------------

  /** Better than the baseline, in the direction of the metric. */
  predicate Better(m: Metric, base: real, candidate: real) {
    if Direction(m) > 0.0 then candidate > base else candidate < base
  }

  /** Better than a negative baseline by more than five percent of its size. */
  predicate FivePercentBetter(m: Metric, base: real, candidate: real) {
    if Direction(m) > 0.0 then candidate > base * 0.95 else candidate < base * 1.05
  }

  ghost predicate Reports(problems: seq<Problem>, m: Metric) {
    MovedFromZero(m) in problems || Regressed(m) in problems
  }

  /** For a negative baseline the sign of the percentage turns round: the gate fires on improvements, and only on these. */
  lemma NegativeBaselineFires(m: Metric, base: real, candidate: real)
    requires base < 0.0
    ensures TooMuchWorse(m, base, candidate) <==> FivePercentBetter(m, base, candidate)
    ensures FivePercentBetter(m, base, candidate) ==> Better(m, base, candidate)
  {
    PercentChange(-base, -candidate);
    var delta := 100.0 * (candidate - base) / base;
    SameRatio(100.0 * (candidate - base), base);
    Negated(delta);
    if Direction(m) > 0.0 {
      assert delta * Direction(m) == delta;
    } else {
      assert delta * Direction(m) == -delta;
    }
  }

  lemma SameRatio(x: real, y: real)
    requires y != 0.0
    ensures x / y == (-x) / (-y)
  {
  }

  /**
    The exact condition under which the comparison reports a metric that has improved: on a complete row with three
    comparable values, the candidate is better than the median and some problem names the metric, if and only if the
    median is zero and the candidate is better than that, or the median is negative and the candidate is better by more
    than five percent. With a positive median an improvement is never reported.
   */
  lemma ImprovementReportedIff(row: Row, prior: seq<Row>, m: Metric, values: seq<real>, candidate: real)
    requires row.complete && |Filter(Comparable(row), prior)| >= BASELINE_RUNS
    requires values == Values(m, LastThree(Filter(Comparable(row), prior))) && |values| == 3
    requires row.metrics(m) == Some(candidate)
    ensures var base := Median3(values[0], values[1], values[2]);
            Reports(Compare(row, prior), m) && Better(m, base, candidate)
            <==> (base == 0.0 && Better(m, base, candidate)) || (base < 0.0 && FivePercentBetter(m, base, candidate))
  {
    hide TooMuchWorse, Values, Filter;
    var base := Median3(values[0], values[1], values[2]);
    VerdictsMeaning(row, Filter(Comparable(row), prior), METRICS, Regressed(m));
    VerdictsMeaning(row, Filter(Comparable(row), prior), METRICS, MovedFromZero(m));
    AllMetrics(m);
    hide METRICS, Median3;
    if base > 0.0 {
      WorseMeansFivePercent(m, base, candidate);
    } else if base < 0.0 {
      NegativeBaselineFires(m, base, candidate);
    }
  }

  /** For example, a decode speed that rises from three stored zeros is reported. */
  lemma ImprovementFromZeroIsReported(cohort: Cohort)
    ensures var speed := (value: real) => ((m: Metric) => if m.DecodeSpeed? then Some(value) else None);
            var stored := Row(cohort, true, 1, 0, 1, speed(0.0));
            var row := Row(cohort, true, 1, 0, 1, speed(9.0));
            MovedFromZero(DecodeSpeed) in Compare(row, [stored, stored, stored])
  {
    var speed := (value: real) => ((m: Metric) => if m.DecodeSpeed? then Some(value) else None);
    var stored := Row(cohort, true, 1, 0, 1, speed(0.0));
    var row := Row(cohort, true, 1, 0, 1, speed(9.0));
    var prior := [stored, stored, stored];
    FilterAll(Comparable(row), prior);
    assert LastThree(prior) == prior;
    assert prior[..2] == [stored, stored] && [stored, stored][..1] == [stored] && [stored][..0] == [];
    assert Values(DecodeSpeed, [stored]) == [0.0];
    assert Values(DecodeSpeed, [stored, stored]) == [0.0, 0.0];
    assert Values(DecodeSpeed, prior) == [0.0, 0.0, 0.0];
    VerdictsMeaning(row, prior, METRICS, MovedFromZero(DecodeSpeed));
    AllMetrics(DecodeSpeed);
  }

  lemma AllMetrics(m: Metric)
    ensures m in METRICS
  {
    assert METRICS[0] == DecodeSpeed && METRICS[1] == EndToEndSpeed && METRICS[2] == TtftMean
      && METRICS[3] == TtftP90 && METRICS[4] == LengthFinishes;
  }

  /** Rows of other cohorts and incomplete rows may be added to the history anywhere without any effect. */
  lemma ForeignRowsDoNotMatter(row: Row, before: seq<Row>, foreign: seq<Row>, after: seq<Row>)
    requires forall r :: r in foreign ==> !Matches(row, r)
    ensures Compare(row, before + foreign + after) == Compare(row, before + after)
  {
    var p := Comparable(row);
    FilterAppend(p, before + foreign, after);
    FilterAppend(p, before, foreign);
    FilterAppend(p, before, after);
    FilterNone(p, foreign);
    assert Filter(p, before) + [] == Filter(p, before);
  }

  // ---- the decision ----------------------------------------------------------------------------

  datatype Integrity = Coverage(text: string) | IncompleteRow(row: Row) | NoRows

  datatype Decision = Decision(exitCode: int, repairRequired: bool, integrity: seq<Integrity>, regressions: seq<Problem>)

  datatype Key = Key(model: string, concurrency: nat)

  function BaselineKey(row: Row): Key {
    Key(row.cohort.model, row.cohort.concurrency)
  }

  function SameReplay(row: Row): Row -> bool {
    (r: Row) => r.cohort.replay == row.cohort.replay
  }

  function Prior(baseline: map<Key, seq<Row>>, row: Row): seq<Row> {
    Filter(SameReplay(row), Lookup(baseline, BaselineKey(row)))
  }

  function RegressionsOf(baseline: map<Key, seq<Row>>, rows: seq<Row>): seq<Problem> {
    if rows == [] then []
    else
      var row := rows[|rows| - 1];
      RegressionsOf(baseline, rows[..|rows| - 1]) + (if row.complete then Compare(row, Prior(baseline, row)) else [])
  }

  /** From the collected problems to the exit code and the repair flag; `baseline` is absent without a checkout. */
  method Decide(coverage: seq<string>, rows: seq<Row>, baseline: Option<map<Key, seq<Row>>>, gate: bool, reports: bool)
    returns (d: Decision)
    ensures d.integrity == [] <==> coverage == [] && rows != [] && forall row :: row in rows ==> row.complete
    ensures d.regressions == if baseline.Some? then RegressionsOf(baseline.value, rows) else []
    ensures d.exitCode == 1 <==> d.integrity != [] || (gate && d.regressions != [])
    ensures d.exitCode == 0 || d.exitCode == 1
    ensures d.repairRequired <==> reports && gate && d.regressions != [] && d.integrity == []
  {
    var repair := false;
    var integrity: seq<Integrity> := MapSeq((text: string) => Coverage(text), coverage);
    for i := 0 to |rows|
      invariant integrity == [] <==> coverage == [] && forall k :: 0 <= k < i ==> rows[k].complete
    {
      var reasons := IncompleteReasons(rows[i]);
      if reasons != [] {
        integrity := integrity + [IncompleteRow(rows[i])];
      }
    }
    if rows == [] {
      integrity := integrity + [NoRows];
    }
    var regressions: seq<Problem> := [];
    if baseline.Some? {
      for i := 0 to |rows|
        invariant regressions == RegressionsOf(baseline.value, rows[..i])
      {
        assert rows[..i + 1][..i] == rows[..i];
        if rows[i].complete {
          var found := CompareRow(rows[i], Prior(baseline.value, rows[i]));
          regressions := regressions + found;
        }
      }
      assert rows[..|rows|] == rows;
    }
    if reports && gate && regressions != [] && integrity == [] {
      repair := true;
    }
    d := Decision(if integrity != [] || (gate && regressions != []) then 1 else 0, repair, integrity, regressions);
  }

  lemma {:induction false} RegressionHasRow(baseline: map<Key, seq<Row>>, rows: seq<Row>, p: Problem)
    ensures p in RegressionsOf(baseline, rows) <==>
              exists row :: row in rows && row.complete && p in Compare(row, Prior(baseline, row))
  {
    hide Compare, Prior;
    if rows == [] {
    } else {
      var front, last := rows[..|rows| - 1], rows[|rows| - 1];
      assert rows == front + [last];
      RegressionHasRow(baseline, front, p);
    }
  }

  /** The filter that the decision applies first is implied by the comparison's own filter. */
  lemma PriorFilterIsRedundant(baseline: map<Key, seq<Row>>, row: Row)
    ensures Compare(row, Prior(baseline, row))
         == Compare(row, Lookup(baseline, Key(row.cohort.model, row.cohort.concurrency)))
  {
    FilterTwice(row, Lookup(baseline, BaselineKey(row)));
  }

  lemma {:induction false} FilterTwice(row: Row, rows: seq<Row>)
    ensures Filter(Comparable(row), Filter(SameReplay(row), rows)) == Filter(Comparable(row), rows)
  {
    if rows == [] {
    } else {
      FilterTwice(row, rows[1..]);
      var rest := Filter(SameReplay(row), rows[1..]);
      if SameReplay(row)(rows[0]) {
        assert ([rows[0]] + rest)[1..] == rest;
      }
    }
  }

  /** On a complete row the comparison only ever reports moved metrics. */
  lemma CompleteRowProblems(row: Row, prior: seq<Row>, p: Problem)
    requires row.complete && p in Compare(row, prior)
    ensures !p.Incomplete?
  {
    VerdictsMeaning(row, Filter(Comparable(row), prior), METRICS, p);
  }

  /** Some row's metric moved against the comparable rows stored for its model and concurrency. */
  ghost predicate SomethingMoved(baseline: map<Key, seq<Row>>, rows: seq<Row>) {
    exists row, p: Problem :: row in rows && row.complete && !p.Incomplete?
      && p in Compare(row, Lookup(baseline, Key(row.cohort.model, row.cohort.concurrency)))
  }

  lemma RegressionsMean(baseline: map<Key, seq<Row>>, rows: seq<Row>)
    ensures RegressionsOf(baseline, rows) != [] <==> SomethingMoved(baseline, rows)
  {
    hide Compare, Prior, RegressionsOf;
    if RegressionsOf(baseline, rows) != [] {
      var p := RegressionsOf(baseline, rows)[0];
      RegressionHasRow(baseline, rows, p);
      var row :| row in rows && row.complete && p in Compare(row, Prior(baseline, row));
      PriorFilterIsRedundant(baseline, row);
      CompleteRowProblems(row, Prior(baseline, row), p);
    }
    if SomethingMoved(baseline, rows) {
      var row, p: Problem :| row in rows && row.complete && !p.Incomplete?
        && p in Compare(row, Lookup(baseline, Key(row.cohort.model, row.cohort.concurrency)));
      PriorFilterIsRedundant(baseline, row);
      RegressionHasRow(baseline, rows, p);
    }
  }

  /**
    A repair is requested exactly on clean evidence: the gate is on, the matrix is whole, there are rows, every one is
    complete, and some metric moved. The exit code is then one.
   */
  method DecideRepair(coverage: seq<string>, rows: seq<Row>, baseline: map<Key, seq<Row>>, gate: bool) returns (d: Decision)
    ensures d.repairRequired <==>
              gate && coverage == [] && rows != [] && (forall row :: row in rows ==> row.complete)
              && SomethingMoved(baseline, rows)
    ensures d.repairRequired ==> d.exitCode == 1
  {
    hide Compare, Prior, SomethingMoved;
    d := Decide(coverage, rows, Some(baseline), gate, true);
    RegressionsMean(baseline, rows);
  }
}
