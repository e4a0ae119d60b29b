/**
  What passing gates prove about the raw requests. Rows hold only counts and identity maps; a counting argument takes
  the gate's verdict on them back to every single request of every pass of every arm.
 */
module GateGuarantees {
  import opened Common
  import opened Replay
  import opened CellSummary
  import opened PooledGates

  /** The cell is the summary of this request log. */
  ghost predicate Summarizes(cell: Cell, requests: seq<Request>) {
    cell.summary == Summarize(requests, cell.concurrency)
  }

  ghost predicate Genuine(cell: Cell) {
    exists requests :: Summarizes(cell, requests)
  }

  ghost predicate AllGenuine(results: seq<ArmPass>) {
    forall i, c :: 0 <= i < |results| && 0 <= c < |results[i].cells| ==> Genuine(results[i].cells[c])
  }

  ghost predicate Has(results: seq<ArmPass>, arm: string, cell: Cell) {
    exists i, c :: 0 <= i < |results| && 0 <= c < |results[i].cells|
      && results[i].arm == arm && results[i].cells[c] == cell
  }

  // ---- one cell: hashes against identifiers --------------------------------------------------

  lemma {:induction false} HashedIdsSucceeded(requests: seq<Request>, id: string)
    requires id in ContentHashes(requests)
    ensures SuccessIds(requests)[id] >= 1 && id != "" && ContentHashes(requests)[id] != ""
  {
    if requests == [] {
    } else {
      if id in ContentHashes(requests[..|requests| - 1]) {
        HashedIdsSucceeded(requests[..|requests| - 1], id);
      }
    }
  }

  lemma {:induction false} SuccessIsListed(requests: seq<Request>, q: Request)
    requires q in requests && q.outcome.Success? && q.requestId != ""
    ensures SuccessIds(requests)[q.requestId] >= 1
  {
    var front, last := requests[..|requests| - 1], requests[|requests| - 1];
    assert requests == front + [last];
    if q in front {
      SuccessIsListed(front, q);
    }
  }

  /** A request whose id occurs once has its own hash recorded under it. */
  lemma {:induction false} HashOfUnique(requests: seq<Request>, q: Request)
    requires q in requests && q.outcome.Success? && q.requestId != ""
    requires SuccessIds(requests)[q.requestId] == 1 && q.requestId in ContentHashes(requests)
    ensures ContentHashes(requests)[q.requestId] == q.outcome.served.contentSha
  {
    var front, last := requests[..|requests| - 1], requests[|requests| - 1];
    assert requests == front + [last];
    if last.outcome.Success? && last.requestId == q.requestId {
      assert SuccessIds(front)[q.requestId] == 0;
      if q.requestId in ContentHashes(front) {
        HashedIdsSucceeded(front, q.requestId);
      }
      if q in front {
        SuccessIsListed(front, q);
      }
    } else {
      HashOfUnique(front, q);
    }
  }

  /** A set of keys that all occur in a bag is no larger than the bag, and as large only if it is the bag. */
  lemma KeysAgainstBag(keys: set<string>, bag: multiset<string>)
    requires forall id :: id in keys ==> id in bag
    ensures |keys| <= |bag|
    ensures |keys| == |bag| ==> bag == multiset(keys)
  {
    assert |multiset(keys)| == |keys|;
    assert multiset(keys) <= bag;
    var rest := bag - multiset(keys);
    assert bag == multiset(keys) + rest;
  }

  lemma CellCounts(cell: Cell)
    requires Genuine(cell)
    ensures |cell.summary.contentHashes| <= |cell.summary.successIds|
    ensures |cell.summary.contentHashes| == |cell.summary.successIds| ==>
              cell.summary.successIds == multiset(cell.summary.contentHashes.Keys)
    ensures cell.summary.successful <= cell.summary.requests
  {
    var requests :| Summarizes(cell, requests);
    forall id | id in cell.summary.contentHashes.Keys ensures id in cell.summary.successIds {
      HashedIdsSucceeded(requests, id);
    }
    KeysAgainstBag(cell.summary.contentHashes.Keys, cell.summary.successIds);
    SuccessesAndFailures(requests);
    assert |cell.summary.contentHashes| == |cell.summary.contentHashes.Keys|;
  }

  // ---- equal sums with termwise bounds -----------------------------------------------------------

  lemma {:induction false} SumsOrdered(f: Cell -> int, g: Cell -> int, cells: seq<Cell>)
    requires forall cell :: cell in cells ==> f(cell) <= g(cell)
    ensures SumOf(f, cells) <= SumOf(g, cells)
    ensures SumOf(f, cells) == SumOf(g, cells) ==> forall cell :: cell in cells ==> f(cell) == g(cell)
  {
    if cells == [] {
    } else {
      var front, last := cells[..|cells| - 1], cells[|cells| - 1];
      assert cells == front + [last] && last in cells;
      SumsOrdered(f, g, front);
    }
  }

  // ---- from a row back to its cells ------------------------------------------------------------------

  lemma {:induction false} GroupMember(tagged: seq<Tagged>, key: Key, cell: Cell)
    ensures cell in CellsWith(tagged, key) <==> Tagged(key, cell) in tagged
  {
    if tagged == [] {
    } else {
      var front, last := tagged[..|tagged| - 1], tagged[|tagged| - 1];
      assert tagged == front + [last];
      GroupMember(front, key, cell);
    }
  }

  lemma {:induction false} TaggedMember(results: seq<ArmPass>, t: Tagged)
    ensures t in AllCells(results) <==> t.key.concurrency == t.cell.concurrency && Has(results, t.key.arm, t.cell)
  {
    if results == [] {
    } else {
      var front, last := results[..|results| - 1], results[|results| - 1];
      TaggedMember(front, t);
      if t in TagCells(last) {
        var c :| 0 <= c < |last.cells| && TagCells(last)[c] == t;
        assert results[|results| - 1].cells[c] == t.cell;
      }
      if i, c :| 0 <= i < |results| && 0 <= c < |results[i].cells|
                 && results[i].arm == t.key.arm && results[i].cells[c] == t.cell {
        if i < |front| {
          assert front[i].cells[c] == t.cell;
        } else if t.key.concurrency == t.cell.concurrency {
          assert TagCells(last)[c] == t;
        }
      }
    }
  }

  lemma InGroup(results: seq<ArmPass>, arm: string, cell: Cell)
    requires Has(results, arm, cell)
    ensures cell in Group(results, Key(arm, cell.concurrency))
    ensures Key(arm, cell.concurrency) in Keys(results)
  {
    var t := Tagged(Key(arm, cell.concurrency), cell);
    TaggedMember(results, t);
    GroupMember(AllCells(results), t.key, cell);
    var keys := MapSeq((t: Tagged) => t.key, AllCells(results));
    var i :| 0 <= i < |AllCells(results)| && AllCells(results)[i] == t;
    assert keys[i] == t.key;
    FirstOccurrencesSpec(keys);
    assert t.key in Elements(keys);
    assert t.key in Elements(Keys(results));
  }

  lemma GroupIsGenuine(results: seq<ArmPass>, key: Key)
    requires AllGenuine(results)
    ensures forall cell :: cell in Group(results, key) ==> Genuine(cell) && cell.concurrency == key.concurrency
  {
    forall cell | cell in Group(results, key) ensures Genuine(cell) && cell.concurrency == key.concurrency {
      GroupMember(AllCells(results), key, cell);
      TaggedMember(results, Tagged(key, cell));
    }
  }

  lemma {:induction false} IdentityHasHash(cells: seq<Cell>, cell: Cell, id: string)
    requires cell in cells && id in cell.summary.contentHashes
    ensures id in Identity(cells) && cell.summary.contentHashes[id] in Identity(cells)[id]
  {
    var front, last := cells[..|cells| - 1], cells[|cells| - 1];
    assert cells == front + [last];
    if cell in front {
      IdentityHasHash(front, cell, id);
    }
  }

  /** Known identity: every cell of the group recorded a hash for each of its successful ids, and none twice. */
  lemma KnownMeansHashed(cells: seq<Cell>, cell: Cell)
    requires forall c :: c in cells ==> Genuine(c)
    requires SumOf(HashRecords(), cells) == SumOf(SuccessRecords(), cells) && cell in cells
    ensures cell.summary.successIds == multiset(cell.summary.contentHashes.Keys)
  {
    forall c | c in cells ensures HashRecords()(c) <= SuccessRecords()(c) {
      CellCounts(c);
    }
    SumsOrdered(HashRecords(), SuccessRecords(), cells);
    CellCounts(cell);
    assert HashRecords()(cell) == SuccessRecords()(cell);
  }

  lemma NoFailures(cells: seq<Cell>, cell: Cell)
    requires forall c :: c in cells ==> Genuine(c)
    requires SumOf(RequestCount(), cells) == SumOf(SuccessCount(), cells) && cell in cells
    ensures cell.summary.failed == 0
  {
    forall c | c in cells ensures SuccessCount()(c) <= RequestCount()(c) {
      CellCounts(c);
    }
    SumsOrdered(SuccessCount(), RequestCount(), cells);
    assert SuccessCount()(cell) == RequestCount()(cell);
    var requests :| Summarizes(cell, requests);
    SuccessesAndFailures(requests);
  }

  // ---- soundness ------------------------------------------------------------------------------------

  /** What the gate establishes for one arm at one concurrency level. */
  ghost predicate RowSound(results: seq<ArmPass>, key: Key) {
    var row := PlainRow(results, key);
    SumOf(RequestCount(), Group(results, key)) == SumOf(SuccessCount(), Group(results, key))
    && row.identityKnown && row.stable
    && results != [] && row.identity == PlainRow(results, Key(results[0].arm, key.concurrency)).identity
  }

  /** Every key has its row among the pooled ones, so a gate that all pooled rows pass is passed by that row. */
  lemma KeyHasRow(results: seq<ArmPass>, gates: Gates, key: Key)
    requires key in Keys(results) && forall c :: c in Pooled(results) ==> RowPasses(gates, c)
    ensures RowPasses(gates, PooledRow(results, key))
    ensures PooledRow(results, key).row == PlainRow(results, key)
    ensures PooledRow(results, key) == CompareRow(PlainRow(results, key), Reference(results, key.concurrency))
  {
    hide RowPasses, RowOf, Group, Keys, Reference;
    var keys := Keys(results);
    var i :| 0 <= i < |keys| && keys[i] == key;
    assert Pooled(results)[i] == PooledRow(results, key);
    assert PooledRow(results, key) in Pooled(results);
  }

  lemma PassingRowIsSound(results: seq<ArmPass>, gates: Gates, key: Key)
    requires gates.requireOutputMatch && key in Keys(results)
    requires forall c :: c in Pooled(results) ==> RowPasses(gates, c)
    ensures RowSound(results, key)
  {
    hide Identity, CellsWith, SumOf, Percentile, FailedIdsOf, Pooled;
    KeyHasRow(results, gates, key);
  }

  /**
    If the gates pass with output matching required, then in every cell of every pass of every arm nothing failed,
    no identifier occurs twice and every successful request has a recorded hash.
   */
  lemma PassingGatesAccountForRequests(results: seq<ArmPass>, gates: Gates, arm: string, cell: Cell, requests: seq<Request>)
    requires AllGenuine(results) && gates.requireOutputMatch
    requires forall c :: c in Pooled(results) ==> RowPasses(gates, c)
    requires Has(results, arm, cell) && Summarizes(cell, requests)
    ensures forall q :: q in requests ==> q.outcome.Success?
    ensures forall q :: q in requests && q.requestId != "" ==>
              SuccessIds(requests)[q.requestId] == 1 && q.requestId in ContentHashes(requests)
              && ContentHashes(requests)[q.requestId] == q.outcome.served.contentSha
              && q.outcome.served.contentSha != ""
  {
    hide RowPasses, Pooled, CompareRow, Identity, Percentile;
    var key := Key(arm, cell.concurrency);
    InGroup(results, arm, cell);
    GroupIsGenuine(results, key);
    PassingRowIsSound(results, gates, key);
    var cells := Group(results, key);
    NoFailures(cells, cell);
    KnownMeansHashed(cells, cell);
    NothingFailed(requests);
    forall q | q in requests && q.requestId != ""
      ensures SuccessIds(requests)[q.requestId] == 1 && q.requestId in ContentHashes(requests)
      ensures ContentHashes(requests)[q.requestId] == q.outcome.served.contentSha
      ensures q.outcome.served.contentSha != ""
    {
      SuccessIsListed(requests, q);
      HashOfUnique(requests, q);
      HashedIdsSucceeded(requests, q.requestId);
    }
  }

  lemma NothingFailed(requests: seq<Request>)
    requires FailureCount(requests) == 0
    ensures forall q :: q in requests ==> q.outcome.Success?
  {
    AllSuccessful(requests);
    assert Failures(requests) == [];
  }

  /** Requests with one identifier produced the same output in every pass of every arm at that concurrency. */
  lemma PassingGatesMatchOutputs(results: seq<ArmPass>, gates: Gates,
                                 armA: string, cellA: Cell, logA: seq<Request>, a: Request,
                                 armB: string, cellB: Cell, logB: seq<Request>, b: Request)
    requires AllGenuine(results) && gates.requireOutputMatch
    requires forall c :: c in Pooled(results) ==> RowPasses(gates, c)
    requires Has(results, armA, cellA) && Summarizes(cellA, logA) && a in logA
    requires Has(results, armB, cellB) && Summarizes(cellB, logB) && b in logB
    requires cellA.concurrency == cellB.concurrency && a.requestId == b.requestId != ""
    ensures a.outcome.Success? && b.outcome.Success?
    ensures a.outcome.served.contentSha == b.outcome.served.contentSha != ""
  {
    hide RowPasses, Pooled, CompareRow, Percentile, Summarize;
    PassingGatesAccountForRequests(results, gates, armA, cellA, logA);
    PassingGatesAccountForRequests(results, gates, armB, cellB, logB);
    SummaryHashes(cellA, logA);
    SummaryHashes(cellB, logB);
    HashIsTheIdentity(results, gates, armA, cellA, a.requestId);
    HashIsTheIdentity(results, gates, armB, cellB, b.requestId);
  }

  lemma SummaryHashes(cell: Cell, log: seq<Request>)
    requires Summarizes(cell, log)
    ensures cell.summary.contentHashes == ContentHashes(log)
  {
  }

  lemma HashIsTheIdentity(results: seq<ArmPass>, gates: Gates, arm: string, cell: Cell, id: string)
    requires gates.requireOutputMatch && results != []
    requires forall c :: c in Pooled(results) ==> RowPasses(gates, c)
    requires Has(results, arm, cell) && id in cell.summary.contentHashes
    ensures var identity := PlainRow(results, Key(results[0].arm, cell.concurrency)).identity;
            id in identity && identity[id] == {cell.summary.contentHashes[id]}
  {
    hide RowPasses, Pooled, CompareRow, Percentile;
    var key := Key(arm, cell.concurrency);
    InGroup(results, arm, cell);
    PassingRowIsSound(results, gates, key);
    var cells := Group(results, key);
    IdentityHasHash(cells, cell, id);
    SingletonSet(Identity(cells)[id], cell.summary.contentHashes[id]);
  }

  lemma {:induction false} IdentityComesFromCell(cells: seq<Cell>, id: string)
    requires id in Identity(cells)
    ensures exists cell :: cell in cells && id in cell.summary.contentHashes
  {
    if cells == [] {
    } else {
      var front, last := cells[..|cells| - 1], cells[|cells| - 1];
      assert cells == front + [last];
      if id in last.summary.contentHashes {
        assert last in cells;
      } else {
        IdentityComesFromCell(front, id);
        var cell :| cell in front && id in cell.summary.contentHashes;
        assert cell in cells;
      }
    }
  }

  lemma GroupIsFromRun(results: seq<ArmPass>, key: Key, cell: Cell)
    requires cell in Group(results, key)
    ensures Has(results, key.arm, cell) && cell.concurrency == key.concurrency
  {
    GroupMember(AllCells(results), key, cell);
    TaggedMember(results, Tagged(key, cell));
  }

  /**
    No arm can answer a different set of requests: what one cell of one arm answered, some cell of every other arm that
    was measured at the same concurrency answered too, and with the same output.
   */
  lemma PassingGatesCoverEveryArm(results: seq<ArmPass>, gates: Gates, armA: string, cellA: Cell, logA: seq<Request>,
                                  a: Request, armB: string)
    requires AllGenuine(results) && gates.requireOutputMatch
    requires forall c :: c in Pooled(results) ==> RowPasses(gates, c)
    requires Has(results, armA, cellA) && Summarizes(cellA, logA) && a in logA && a.requestId != ""
    requires Key(armB, cellA.concurrency) in Keys(results)
    ensures a.outcome.Success?
    ensures exists cellB :: Has(results, armB, cellB) && cellB.concurrency == cellA.concurrency
              && a.requestId in cellB.summary.contentHashes
              && cellB.summary.contentHashes[a.requestId] == a.outcome.served.contentSha
  {
    hide RowPasses, Pooled, CompareRow, Percentile, Summarize, Identity, CellsWith, KeysIn, AllCells;
    var key, id := Key(armB, cellA.concurrency), a.requestId;
    PassingGatesAccountForRequests(results, gates, armA, cellA, logA);
    SummaryHashes(cellA, logA);
    HashIsTheIdentity(results, gates, armA, cellA, id);
    PassingRowIsSound(results, gates, key);
    RowIdentity(results, key);
    IdentityComesFromCell(Group(results, key), id);
    var cellB :| cellB in Group(results, key) && id in cellB.summary.contentHashes;
    GroupIsFromRun(results, key, cellB);
    IdentityHasHash(Group(results, key), cellB, id);
  }

  lemma RowIdentity(results: seq<ArmPass>, key: Key)
    ensures PlainRow(results, key).identity == Identity(Group(results, key))
  {
  }

  lemma SingletonSet(s: set<string>, x: string)
    requires |s| == 1 && x in s
    ensures s == {x}
  {
    assert |s - {x}| == 0;
  }

  // ---- the latency gate ------------------------------------------------------------------------------

  /** A first-token time is only ever judged between arms whose requests, failures and outputs are the same. */
  lemma LatencyGateComparesLikeWithLike(results: seq<ArmPass>, gates: Gates, key: Key)
    requires gates.maxTtftRegressionPct.Some? && key in Keys(results)
    requires forall c :: c in Pooled(results) ==> RowPasses(gates, c)
    ensures results != [] && Key(results[0].arm, key.concurrency) in Keys(results)
    ensures var row, reference := PlainRow(results, key), PlainRow(results, Key(results[0].arm, key.concurrency));
            row.failures == 0 && row.requests == reference.requests && row.failedIds == reference.failedIds
            && OutputsComparable(row, reference)
            && row.ttftP50.Some? && reference.ttftP50.Some?
            && (reference.ttftP50.value > 0.0 ==>
                  row.ttftP50.value <= reference.ttftP50.value * (1.0 + gates.maxTtftRegressionPct.value / 100.0))
  {
    hide RowOf, OutputsComparable, Pooled, Group;
    KeyHasRow(results, gates, key);
    var row, reference := PlainRow(results, key), PlainRow(results, Key(results[0].arm, key.concurrency));
    if reference.ttftP50.value > 0.0 {
      DeltaBound(row.ttftP50.value, reference.ttftP50.value, gates.maxTtftRegressionPct.value);
    }
  }

  lemma DeltaBound(value: real, base: real, limit: real)
    requires base > 0.0 && 100.0 * (value / base - 1.0) <= limit
    ensures value <= base * (1.0 + limit / 100.0)
  {
    var ratio := value / base;
    assert value == ratio * base;
    assert ratio <= 1.0 + limit / 100.0;
    ProductNonnegative(1.0 + limit / 100.0 - ratio, base);
  }

  lemma ProductNonnegative(x: real, y: real)
    requires x >= 0.0 && y >= 0.0
    ensures x * y >= 0.0
  {
  }

  // ---- the prompt-length gate ----------------------------------------------------------------------------

  lemma {:induction false} PooledExtremes(cells: seq<Cell>, cell: Cell)
    requires cell in cells && cell.summary.promptMin.Some? && cell.summary.promptMax.Some?
    ensures LowestPrompt(cells).Some? && LowestPrompt(cells).value <= cell.summary.promptMin.value
    ensures HighestPrompt(cells).Some? && HighestPrompt(cells).value >= cell.summary.promptMax.value
  {
    var front, last := cells[..|cells| - 1], cells[|cells| - 1];
    assert cells == front + [last];
    if cell in front {
      PooledExtremes(front, cell);
    }
  }

  /** A passing prompt-range gate confines every request of every pass, not only the averages. */
  lemma RangeGateConfinesEveryPrompt(results: seq<ArmPass>, gates: Gates, arm: string, cell: Cell,
                                     requests: seq<Request>, q: Request)
    requires AllGenuine(results) && gates.promptRange.Some?
    requires forall c :: c in Pooled(results) ==> RowPasses(gates, c)
    requires Has(results, arm, cell) && Summarizes(cell, requests) && q in requests
    ensures q.outcome.Success?
    ensures gates.promptRange.value.0 <= q.outcome.served.promptTokens <= gates.promptRange.value.1
  {
    hide CompareRow, Identity, Percentile, FailedIdsOf, CellsWith, SumOf, Pooled, PooledRow;
    var key := Key(arm, cell.concurrency);
    InGroup(results, arm, cell);
    GroupIsGenuine(results, key);
    var cells := Group(results, key);
    KeyHasRow(results, gates, key);
    NoFailures(cells, cell);
    NothingFailed(requests);
    PromptExtremes(requests, q);
    PooledExtremes(cells, cell);
  }

  // ---- realised concurrency of a row ------------------------------------------------------------------------

  /** What the worker pool guarantees of a cell: its busy time is known and bounded by `offered` times its window. */
  ghost predicate BusyWithin(cell: Cell, busy: real, offered: nat) {
    0.0 <= cell.summary.windowSeconds
    && 0.0 <= busy <= offered as real * cell.summary.windowSeconds
    && cell.summary.meanInFlight ==
       if cell.summary.windowSeconds > 0.0 then Some(busy / cell.summary.windowSeconds) else None
  }

  ghost predicate Bounded(total: real, limit: real, window: real) {
    0.0 <= window && 0.0 <= total <= limit * window
  }

  lemma BusyIsCounted(cell: Cell, busy: real, offered: nat)
    requires BusyWithin(cell, busy, offered)
    ensures BusyTotal()(cell) == busy
    ensures Bounded(busy, offered as real, WindowTotal()(cell))
  {
    if cell.summary.windowSeconds > 0.0 {
      assert busy / cell.summary.windowSeconds * cell.summary.windowSeconds == busy;
    }
  }

  lemma {:induction false} BusySums(cells: seq<Cell>, busy: seq<real>, offered: nat)
    requires |busy| == |cells| && forall i :: 0 <= i < |cells| ==> BusyWithin(cells[i], busy[i], offered)
    ensures SumOfReals(BusyTotal(), cells) == SumReal(busy)
    ensures Bounded(SumReal(busy), offered as real, SumOfReals(WindowTotal(), cells))
  {
    if cells == [] {
      NothingIsBounded(offered as real);
    } else {
      hide BusyWithin, BusyTotal, WindowTotal, SumOfReals, Bounded;
      var k := |cells| - 1;
      BusySums(cells[..k], busy[..k], offered);
      BusyIsCounted(cells[k], busy[k], offered);
      LastReal(busy);
      LastSum(BusyTotal(), cells);
      LastSum(WindowTotal(), cells);
      AddBounds(offered as real, SumReal(busy[..k]), SumOfReals(WindowTotal(), cells[..k]),
                busy[k], WindowTotal()(cells[k]));
    }
  }

  lemma NothingIsBounded(limit: real)
    ensures Bounded(0.0, limit, 0.0)
  {
  }

  lemma AddBounds(a: real, u: real, x: real, v: real, y: real)
    requires Bounded(u, a, x) && Bounded(v, a, y)
    ensures Bounded(u + v, a, x + y)
  {
    Distribute(a, x, y);
  }

  lemma LastSum(f: Cell -> real, cells: seq<Cell>)
    requires cells != []
    ensures SumOfReals(f, cells) == SumOfReals(f, cells[..|cells| - 1]) + f(cells[|cells| - 1])
  {
  }

  lemma LastReal(s: seq<real>)
    requires s != []
    ensures SumReal(s) == SumReal(s[..|s| - 1]) + s[|s| - 1]
  {
    var front, last := s[..|s| - 1], s[|s| - 1];
    assert s == front + [last];
    SumRealAppend(front, [last]);
    assert SumReal([last]) == last + SumReal([]);
  }

  lemma Distribute(a: real, x: real, y: real)
    ensures a * (x + y) == a * x + a * y
  {
  }

  /**
    Pooling keeps the meaning: the realised concurrency of a row is the total busy time over the total window, and
    stays between zero and the offered concurrency, so pooled utilisation is at most one hundred percent.
   */
  lemma PooledConcurrency(key: Key, cells: seq<Cell>, busy: seq<real>)
    requires |busy| == |cells| && key.concurrency > 0
    requires forall i :: 0 <= i < |cells| ==> BusyWithin(cells[i], busy[i], key.concurrency)
    requires SumOfReals(WindowTotal(), cells) > 0.0
    ensures RowOf(key, cells).meanInFlight == Some(SumReal(busy) / SumOfReals(WindowTotal(), cells))
    ensures 0.0 <= RowOf(key, cells).meanInFlight.value <= key.concurrency as real
    ensures RowOf(key, cells).utilizationPct.Some? && RowOf(key, cells).utilizationPct.value <= 100.0
  {
    hide RowOf, SumOfReals, SumReal, BusyWithin, Bounded, BusyTotal, WindowTotal;
    RowConcurrency(key, cells);
    BusySums(cells, busy, key.concurrency);
    var total, window := SumReal(busy), SumOfReals(WindowTotal(), cells);
    QuotientBound(total, window, key.concurrency as real);
  }

  lemma RowConcurrency(key: Key, cells: seq<Cell>)
    ensures RowOf(key, cells).meanInFlight == RealizedConcurrency(cells)
    ensures RowOf(key, cells).utilizationPct
         == if RealizedConcurrency(cells).Some? && key.concurrency > 0
            then Some(100.0 * RealizedConcurrency(cells).value / key.concurrency as real) else None
  {
    hide RealizedConcurrency, Identity, SumOf, Percentile, FailedIdsOf, SuccessIdSet, LowestPrompt, HighestPrompt, PooledTtft;
  }

  lemma QuotientBound(total: real, window: real, limit: real)
    requires window > 0.0 && Bounded(total, limit, window) && limit > 0.0
    ensures 0.0 <= total / window <= limit
    ensures 100.0 * (total / window) / limit <= 100.0
  {
    var mean := total / window;
    assert mean * window == total;
    if mean > limit {
      ProductPositive(mean - limit, window);
    }
  }
}
