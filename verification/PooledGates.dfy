/**
  Pooling the cells of all passes into one row per arm and concurrency, comparing each row with the first arm, and
  the acceptance gates over the rows.
 */
module PooledGates {
  import opened Common
  import opened CellSummary

  datatype Cell = Cell(concurrency: nat, summary: Summary)

  datatype ArmPass = ArmPass(arm: string, passNumber: nat, cells: seq<Cell>)

  datatype Key = Key(arm: string, concurrency: nat)

  datatype Row = Row(
    key: Key,
    requests: nat,
    successes: nat,
    failures: int,
    failedIds: multiset<string>,
    identity: map<string, set<string>>,
    identityKnown: bool,
    stable: bool,
    promptMin: Option<nat>,
    promptMax: Option<nat>,
    cachePct: Option<real>,
    meanInFlight: Option<real>,
    utilizationPct: Option<real>,
    ttftP50: Option<real>)

  datatype Compared = Compared(row: Row, comparable: bool, ttftDeltaPct: Option<real>)

  // ---- pooling one group of cells ---------------------------------------------------------

  function SumOf(f: Cell -> int, cells: seq<Cell>): int {
    if cells == [] then 0 else SumOf(f, cells[..|cells| - 1]) + f(cells[|cells| - 1])
  }

  function SumOfReals(f: Cell -> real, cells: seq<Cell>): real {
    if cells == [] then 0.0 else SumOfReals(f, cells[..|cells| - 1]) + f(cells[|cells| - 1])
  }

  function RequestCount(): Cell -> int { (cell: Cell) => cell.summary.requests }

  function SuccessCount(): Cell -> int { (cell: Cell) => cell.summary.successful }

  function HashRecords(): Cell -> int { (cell: Cell) => |cell.summary.contentHashes| }

  function SuccessRecords(): Cell -> int { (cell: Cell) => |cell.summary.successIds| }

  function PromptTotal(): Cell -> int { (cell: Cell) => cell.summary.promptTokens }

  function CachedTotal(): Cell -> int { (cell: Cell) => cell.summary.cachedTokens }

  function WindowTotal(): Cell -> real { (cell: Cell) => cell.summary.windowSeconds }

  function BusyTotal(): Cell -> real {
    (cell: Cell) => if cell.summary.meanInFlight.Some?
                    then cell.summary.meanInFlight.value * cell.summary.windowSeconds else 0.0
  }

  /** For each request id, every hash that any of the cells recorded for it. */
  function Identity(cells: seq<Cell>): map<string, set<string>> {
    if cells == [] then map[]
    else AddHashes(Identity(cells[..|cells| - 1]), cells[|cells| - 1].summary.contentHashes)
  }

  function AddHashes(identity: map<string, set<string>>, hashes: map<string, string>): map<string, set<string>> {
    map id | id in identity.Keys + hashes.Keys ::
      (if id in identity then identity[id] else {}) + (if id in hashes then {hashes[id]} else {})
  }

  function FailedIdsOf(cells: seq<Cell>): multiset<string> {
    if cells == [] then multiset{}
    else FailedIdsOf(cells[..|cells| - 1]) + cells[|cells| - 1].summary.failedIds
  }

  function Support(bag: multiset<string>): set<string> {
    set id {:trigger bag[id]} | id in bag
  }

  function SuccessIdSet(cells: seq<Cell>): set<string> {
    if cells == [] then {}
    else SuccessIdSet(cells[..|cells| - 1]) + Support(cells[|cells| - 1].summary.successIds)
  }

  function Present(values: seq<Option<real>>): seq<real> {
    if values == [] then []
    else
      var last := values[|values| - 1];
      Present(values[..|values| - 1]) + (if last.Some? then [last.value] else [])
  }

  function MeanOrNone(values: seq<Option<real>>): Option<real> {
    var present := Present(values);
    if present == [] then None else Some(SumReal(present) / |present| as real)
  }

  function LowestPrompt(cells: seq<Cell>): Option<nat> {
    if cells == [] then None
    else
      var last, before := cells[|cells| - 1].summary.promptMin, LowestPrompt(cells[..|cells| - 1]);
      if last.None? then before else Some(Min(before.GetOr(last.value), last.value))
  }

  function HighestPrompt(cells: seq<Cell>): Option<nat> {
    if cells == [] then None
    else
      var last, before := cells[|cells| - 1].summary.promptMax, HighestPrompt(cells[..|cells| - 1]);
      if last.None? then before else Some(Max(before.GetOr(last.value), last.value))
  }

  function PooledTtft(cells: seq<Cell>): seq<real> {
    if cells == [] then [] else PooledTtft(cells[..|cells| - 1]) + cells[|cells| - 1].summary.ttft
  }

  function RealizedConcurrency(cells: seq<Cell>): Option<real> {
    var window := SumOfReals(WindowTotal(), cells);
    if window > 0.0 then Some(SumOfReals(BusyTotal(), cells) / window)
    else MeanOrNone(MapSeq((cell: Cell) => cell.summary.meanInFlight, cells))
  }

  function RowOf(key: Key, cells: seq<Cell>): Row {
    var requests, successes := SumOf(RequestCount(), cells), SumOf(SuccessCount(), cells);
    var prompts, cached := SumOf(PromptTotal(), cells), SumOf(CachedTotal(), cells);
    var realized := RealizedConcurrency(cells);
    Row(key, Max(0, requests), Max(0, successes), requests - successes, FailedIdsOf(cells), Identity(cells),
        SumOf(SuccessRecords(), cells) > 0
        && SumOf(HashRecords(), cells) == SumOf(SuccessRecords(), cells)
        && Identity(cells).Keys == SuccessIdSet(cells),
        forall id :: id in Identity(cells) ==> |Identity(cells)[id]| == 1,
        LowestPrompt(cells), HighestPrompt(cells),
        if prompts > 0 then Some(100.0 * cached as real / prompts as real) else None,
        realized,
        if realized.Some? && key.concurrency > 0 then Some(100.0 * realized.value / key.concurrency as real) else None,
        if PooledTtft(cells) != [] then Percentile(PooledTtft(cells), 0.5)
        else MeanOrNone(MapSeq((cell: Cell) => cell.summary.ttftP50, cells)))
  }

  // ---- comparing with the baseline ------------------------------------------------------------

  predicate OutputsComparable(row: Row, reference: Row) {
    (row.identityKnown && reference.identityKnown && row.stable && reference.stable
     && row.identity == reference.identity)
    || (!row.identityKnown && !reference.identityKnown)
  }

  predicate DeltaComparable(row: Row, reference: Option<Row>) {
    reference.Some?
    && row.requests == reference.value.requests
    && row.failedIds == reference.value.failedIds
    && OutputsComparable(row, reference.value)
  }

  function CompareRow(row: Row, reference: Option<Row>): Compared {
    var comparable := DeltaComparable(row, reference);
    Compared(row, comparable,
             if comparable && row.ttftP50.Some? && reference.value.ttftP50.Some? && reference.value.ttftP50.value != 0.0
             then Some(100.0 * (row.ttftP50.value / reference.value.ttftP50.value - 1.0)) else None)
  }

  // ---- grouping all passes ----------------------------------------------------------------------

  datatype Tagged = Tagged(key: Key, cell: Cell)

  function TagCells(pass: ArmPass): seq<Tagged> {
    MapSeq((cell: Cell) => Tagged(Key(pass.arm, cell.concurrency), cell), pass.cells)
  }

  /** All cells of all passes, each with its arm and concurrency. */
  function AllCells(results: seq<ArmPass>): seq<Tagged> {
    if results == [] then [] else AllCells(results[..|results| - 1]) + TagCells(results[|results| - 1])
  }

  function KeysIn(tagged: seq<Tagged>): seq<Key> {
    FirstOccurrences(MapSeq((t: Tagged) => t.key, tagged))
  }

  function CellsWith(tagged: seq<Tagged>, key: Key): seq<Cell> {
    if tagged == [] then []
    else
      var last := tagged[|tagged| - 1];
      CellsWith(tagged[..|tagged| - 1], key) + (if last.key == key then [last.cell] else [])
  }

  function Keys(results: seq<ArmPass>): seq<Key> {
    KeysIn(AllCells(results))
  }

  /** The cells of one arm at one concurrency, pass after pass. */
  function Group(results: seq<ArmPass>, key: Key): seq<Cell> {
    CellsWith(AllCells(results), key)
  }

  function Reference(results: seq<ArmPass>, concurrency: nat): Option<Row> {
    if results == [] then None
    else
      var key := Key(results[0].arm, concurrency);
      if key in Keys(results) then Some(RowOf(key, Group(results, key))) else None
  }

  function PooledRow(results: seq<ArmPass>, key: Key): Compared {
    CompareRow(RowOf(key, Group(results, key)), Reference(results, key.concurrency))
  }

  function Pooled(results: seq<ArmPass>): seq<Compared> {
    MapSeq((key: Key) => PooledRow(results, key), Keys(results))
  }

  // ---- the pooling loops ----------------------------------------------------------------------------

  ghost predicate Grouped(order: seq<Key>, groups: map<Key, seq<Cell>>, tagged: seq<Tagged>) {
    order == KeysIn(tagged)
    && (forall key :: key in groups <==> key in order)
    && (forall key :: Lookup(groups, key) == CellsWith(tagged, key))
  }

  lemma KeysNext(tagged: seq<Tagged>, t: Tagged)
    ensures KeysIn(tagged + [t]) == KeysIn(tagged) + (if t.key in KeysIn(tagged) then [] else [t.key])
  {
    var keys := MapSeq((t: Tagged) => t.key, tagged);
    assert MapSeq((t: Tagged) => t.key, tagged + [t]) == keys + [t.key];
    assert (keys + [t.key])[..|keys|] == keys;
  }

  lemma CellsNext(tagged: seq<Tagged>, t: Tagged)
    ensures forall key :: CellsWith(tagged + [t], key) == CellsWith(tagged, key) + (if key == t.key then [t.cell] else [])
  {
    assert (tagged + [t])[..|tagged|] == tagged;
  }

  lemma GroupNext(order: seq<Key>, groups: map<Key, seq<Cell>>, tagged: seq<Tagged>, t: Tagged)
    requires Grouped(order, groups, tagged)
    ensures Grouped(if t.key in groups then order else order + [t.key], AppendTo(groups, t.key, t.cell), tagged + [t])
  {
    KeysNext(tagged, t);
    CellsNext(tagged, t);
    hide KeysIn, CellsWith, AppendTo, Lookup;
  }

  method AddPass(ghost before: seq<Tagged>, pass: ArmPass, order0: seq<Key>, groups0: map<Key, seq<Cell>>)
    returns (order: seq<Key>, groups: map<Key, seq<Cell>>)
    requires Grouped(order0, groups0, before)
    ensures Grouped(order, groups, before + TagCells(pass))
  {
    hide Grouped, AppendTo;
    order, groups := order0, groups0;
    assert before + TagCells(pass)[..0] == before;
    for c := 0 to |pass.cells|
      invariant Grouped(order, groups, before + TagCells(pass)[..c])
    {
      var cell := pass.cells[c];
      var key := Key(pass.arm, cell.concurrency);
      GroupNext(order, groups, before + TagCells(pass)[..c], Tagged(key, cell));
      assert before + TagCells(pass)[..c] + [Tagged(key, cell)] == before + TagCells(pass)[..c + 1];
      order := if key in groups then order else order + [key];
      groups := AppendTo(groups, key, cell);
    }
    assert TagCells(pass)[..|pass.cells|] == TagCells(pass);
  }

  method GroupCells(results: seq<ArmPass>) returns (order: seq<Key>, groups: map<Key, seq<Cell>>)
    ensures Grouped(order, groups, AllCells(results))
  {
    order, groups := [], map[];
    for i := 0 to |results|
      invariant Grouped(order, groups, AllCells(results[..i]))
    {
      assert results[..i + 1][..i] == results[..i];
      order, groups := AddPass(AllCells(results[..i]), results[i], order, groups);
    }
    assert results[..|results|] == results;
  }

  function PlainRow(results: seq<ArmPass>, key: Key): Row {
    RowOf(key, Group(results, key))
  }

  method PoolEach(ghost results: seq<ArmPass>, order: seq<Key>, groups: map<Key, seq<Cell>>) returns (rows: seq<Row>)
    requires Grouped(order, groups, AllCells(results))
    ensures |rows| == |order| && forall k :: 0 <= k < |order| ==> rows[k] == PlainRow(results, order[k])
  {
    hide RowOf, CellsWith, AllCells, KeysIn;
    rows := [];
    for i := 0 to |order|
      invariant |rows| == i && forall k :: 0 <= k < i ==> rows[k] == PlainRow(results, order[k])
    {
      rows := rows + [RowOf(order[i], Lookup(groups, order[i]))];
    }
  }

  method IndexBaseline(ghost results: seq<ArmPass>, arm: string, order: seq<Key>, rows: seq<Row>)
    returns (baseline: map<nat, Row>)
    requires |rows| == |order| && forall k :: 0 <= k < |order| ==> rows[k] == PlainRow(results, order[k])
    ensures forall c :: c in baseline <==> Key(arm, c) in order
    ensures forall c :: c in baseline ==> baseline[c] == PlainRow(results, Key(arm, c))
  {
    hide PlainRow;
    baseline := map[];
    for i := 0 to |order|
      invariant forall c :: c in baseline <==> Key(arm, c) in order[..i]
      invariant forall c :: c in baseline ==> baseline[c] == PlainRow(results, Key(arm, c))
    {
      if order[i].arm == arm {
        assert order[i] == Key(arm, order[i].concurrency);
        baseline := baseline[order[i].concurrency := rows[i]];
      }
    }
    assert order[..|order|] == order;
  }

  /** Pool every group, then compare each row with the row of the first arm at the same concurrency. */
  method PoolRows(results: seq<ArmPass>) returns (rows: seq<Compared>)
    ensures rows == Pooled(results)
  {
    hide RowOf, CompareRow, CellsWith, KeysIn, AllCells;
    var order, groups := GroupCells(results);
    var pooled := PoolEach(results, order, groups);
    var baseline: map<nat, Row> := map[];
    if results != [] {
      baseline := IndexBaseline(results, results[0].arm, order, pooled);
    }
    rows := [];
    for i := 0 to |order|
      invariant rows == Pooled(results)[..i]
    {
      var level := order[i].concurrency;
      var reference := if level in baseline then Some(baseline[level]) else None;
      rows := rows + [CompareRow(pooled[i], reference)];
    }
  }

  // ---- the gates ------------------------------------------------------------------------------------

  datatype Gates = Gates(promptRange: Option<(nat, nat)>, minCachePct: Option<real>, requireOutputMatch: bool,
                         maxTtftRegressionPct: Option<real>)

  datatype CheckName = MeasuredRows | FailedRequests(at: Key) | PromptTokenRange(at: Key) | CachedPrompt(at: Key)
                     | DeterministicOutput(at: Key) | TtftRegression(at: Key)

  datatype Check = Check(name: CheckName, passed: bool)

  datatype GateResult = NotEvaluated | Evaluated(passed: bool, checks: seq<Check>)

  predicate Configured(gates: Gates) {
    gates.promptRange.Some? || gates.minCachePct.Some? || gates.requireOutputMatch || gates.maxTtftRegressionPct.Some?
  }

  predicate InRange(row: Row, range: (nat, nat)) {
    row.promptMin.Some? && row.promptMax.Some? && row.promptMin.value >= range.0 && row.promptMax.value <= range.1
  }

  predicate RangeOk(gates: Gates, c: Compared)
    requires gates.promptRange.Some?
  {
    InRange(c.row, gates.promptRange.value)
  }

  predicate CacheOk(gates: Gates, c: Compared)
    requires gates.minCachePct.Some?
  {
    c.row.cachePct.Some? && c.row.cachePct.value >= gates.minCachePct.value
  }

  predicate OutputOk(c: Compared) {
    c.row.identityKnown && c.comparable
  }

  predicate TtftOk(gates: Gates, c: Compared)
    requires gates.maxTtftRegressionPct.Some?
  {
    c.ttftDeltaPct.Some? && c.ttftDeltaPct.value <= gates.maxTtftRegressionPct.value
  }

  /** What the gates ask of one row. */
  predicate RowPasses(gates: Gates, c: Compared) {
    c.row.failures == 0
    && (gates.promptRange.Some? ==> RangeOk(gates, c))
    && (gates.minCachePct.Some? ==> CacheOk(gates, c))
    && (gates.requireOutputMatch ==> OutputOk(c))
    && (gates.maxTtftRegressionPct.Some? ==> TtftOk(gates, c))
  }

  /** The checks that a row deserves, each with its verdict. */
  ghost predicate Records(gates: Gates, c: Compared, check: Check) {
    match check.name
    case MeasuredRows => false
    case FailedRequests(at) => at == c.row.key && check.passed == (c.row.failures == 0)
    case PromptTokenRange(at) => at == c.row.key && gates.promptRange.Some? && check.passed == RangeOk(gates, c)
    case CachedPrompt(at) => at == c.row.key && gates.minCachePct.Some? && check.passed == CacheOk(gates, c)
    case DeterministicOutput(at) => at == c.row.key && gates.requireOutputMatch && check.passed == OutputOk(c)
    case TtftRegression(at) => at == c.row.key && gates.maxTtftRegressionPct.Some? && check.passed == TtftOk(gates, c)
  }

  /** The gate loop: every configured check is recorded for every row, and nothing else but the lack of rows. */
  method EvaluateGates(rows: seq<Compared>, gates: Gates) returns (r: GateResult)
    ensures r.NotEvaluated? <==>
              gates.promptRange == None && gates.minCachePct == None && !gates.requireOutputMatch
              && gates.maxTtftRegressionPct == None
    ensures r.Evaluated? ==>
              (r.passed <==> rows != [] && forall c :: c in rows ==> RowPasses(gates, c))
              && (r.passed <==> forall check :: check in r.checks ==> check.passed)
    ensures r.Evaluated? ==> forall check :: check in r.checks <==>
              (rows == [] && check == Check(MeasuredRows, false)) || exists c :: c in rows && Records(gates, c, check)
  {
    hide RowPasses, Records;
    if !Configured(gates) {
      return NotEvaluated;
    }
    var checks: seq<Check> := [];
    var passed := true;
    if rows == [] {
      checks := [Check(MeasuredRows, false)];
      passed := false;
    }
    for i := 0 to |rows|
      invariant passed <==> rows != [] && forall k :: 0 <= k < i ==> RowPasses(gates, rows[k])
      invariant passed <==> forall check :: check in checks ==> check.passed
      invariant forall check :: check in checks <==>
                  (rows == [] && check == Check(MeasuredRows, false))
                  || exists k :: 0 <= k < i && Records(gates, rows[k], check)
    {
      var rowChecks := CheckRow(rows[i], gates);
      checks := checks + rowChecks;
      passed := passed && forall check :: check in rowChecks ==> check.passed;
    }
    r := Evaluated(passed, checks);
  }

  method CheckRow(c: Compared, gates: Gates) returns (checks: seq<Check>)
    ensures (forall check :: check in checks ==> check.passed) <==> RowPasses(gates, c)
    ensures forall check :: check in checks <==> Records(gates, c, check)
  {
    hide RangeOk, CacheOk, OutputOk, TtftOk, RowPasses, Records;
    var at := c.row.key;
    checks := [Check(FailedRequests(at), c.row.failures == 0)];
    if gates.promptRange.Some? {
      checks := checks + [Check(PromptTokenRange(at), RangeOk(gates, c))];
    }
    if gates.minCachePct.Some? {
      checks := checks + [Check(CachedPrompt(at), CacheOk(gates, c))];
    }
    if gates.requireOutputMatch {
      checks := checks + [Check(DeterministicOutput(at), OutputOk(c))];
    }
    if gates.maxTtftRegressionPct.Some? {
      checks := checks + [Check(TtftRegression(at), TtftOk(gates, c))];
    }
    forall check ensures check in checks <==> Records(gates, c, check) {
      RecordsOneOf(gates, c, check);
    }
    AllRecordedPass(gates, c);
  }

  lemma RecordsOneOf(gates: Gates, c: Compared, check: Check)
    ensures var at := c.row.key;
            Records(gates, c, check) <==>
              check == Check(FailedRequests(at), c.row.failures == 0)
              || (gates.promptRange.Some? && check == Check(PromptTokenRange(at), RangeOk(gates, c)))
              || (gates.minCachePct.Some? && check == Check(CachedPrompt(at), CacheOk(gates, c)))
              || (gates.requireOutputMatch && check == Check(DeterministicOutput(at), OutputOk(c)))
              || (gates.maxTtftRegressionPct.Some? && check == Check(TtftRegression(at), TtftOk(gates, c)))
  {
    hide RangeOk, CacheOk, OutputOk, TtftOk;
  }

  /** A row passes when everything recorded of it passed. */
  lemma AllRecordedPass(gates: Gates, c: Compared)
    ensures RowPasses(gates, c) <==> forall check :: Records(gates, c, check) ==> check.passed
  {
    hide RangeOk, CacheOk, OutputOk, TtftOk;
    var at := c.row.key;
    if !RowPasses(gates, c) {
      if c.row.failures != 0 {
        assert Records(gates, c, Check(FailedRequests(at), false));
      } else if gates.promptRange.Some? && !RangeOk(gates, c) {
        assert Records(gates, c, Check(PromptTokenRange(at), false));
      } else if gates.minCachePct.Some? && !CacheOk(gates, c) {
        assert Records(gates, c, Check(CachedPrompt(at), false));
      } else if gates.requireOutputMatch && !OutputOk(c) {
        assert Records(gates, c, Check(DeterministicOutput(at), false));
      } else {
        assert Records(gates, c, Check(TtftRegression(at), false));
      }
    }
  }
}
