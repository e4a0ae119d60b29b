/**
  Exactly when the gates pass, in terms of the raw requests: for every arm and level that was measured, the logs of its
  cells are compared with the logs of the first arm at that level.
 */
module GateExactness {
  import opened Common
  import opened Replay
  import opened CellSummary
  import opened PooledGates
  import opened GateGuarantees
  import opened FinalVerdict

  ghost predicate AllLogged(results: seq<ArmPass>, log: Logs) {
    forall i: nat, c: nat :: InRun(results, i, c) ==> Summarizes(results[i].cells[c], log(i, c))
  }

  // ---- the logs of one arm at one level ---------------------------------------------------------

  function PassLogs(pass: ArmPass, i: nat, log: Logs, key: Key, count: nat): seq<seq<Request>>
    requires count <= |pass.cells|
  {
    if count == 0 then []
    else
      PassLogs(pass, i, log, key, count - 1)
      + if pass.arm == key.arm && pass.cells[count - 1].concurrency == key.concurrency then [log(i, count - 1)] else []
  }

  /** The request logs of one arm at one concurrency, pass after pass. */
  function LogsAt(results: seq<ArmPass>, log: Logs, key: Key): seq<seq<Request>> {
    if results == [] then []
    else
      var n := |results| - 1;
      LogsAt(results[..n], log, key) + PassLogs(results[n], n, log, key, |results[n].cells|)
  }

  /** Cell by cell, these are the summaries of these logs. */
  ghost predicate Summarized(cells: seq<Cell>, logs: seq<seq<Request>>) {
    |cells| == |logs| && forall k :: 0 <= k < |cells| ==> Summarizes(cells[k], logs[k])
  }

  lemma {:induction false} CellsWithAppend(a: seq<Tagged>, b: seq<Tagged>, key: Key)
    ensures CellsWith(a + b, key) == CellsWith(a, key) + CellsWith(b, key)
  {
    if b == [] {
      assert a + b == a;
    } else {
      assert (a + b)[..|a + b| - 1] == a + b[..|b| - 1];
      CellsWithAppend(a, b[..|b| - 1], key);
    }
  }

  lemma SummarizedAppend(a: seq<Cell>, b: seq<Cell>, x: seq<seq<Request>>, y: seq<seq<Request>>)
    requires Summarized(a, x) && Summarized(b, y)
    ensures Summarized(a + b, x + y)
  {
  }

  lemma {:induction false} PassIsSummarized(results: seq<ArmPass>, log: Logs, key: Key, n: nat, count: nat)
    requires n < |results| && count <= |results[n].cells| && AllLogged(results, log)
    ensures Summarized(CellsWith(TagCells(results[n])[..count], key), PassLogs(results[n], n, log, key, count))
  {
    hide Summarizes;
    var tagged := TagCells(results[n]);
    if count == 0 {
      assert CellsWith([], key) == [];
    } else {
      PassIsSummarized(results, log, key, n, count - 1);
      var cell := results[n].cells[count - 1];
      assert InRun(results, n, count - 1) && Summarizes(cell, log(n, count - 1));
      assert tagged[..count][..count - 1] == tagged[..count - 1];
      assert tagged[count - 1] == Tagged(Key(results[n].arm, cell.concurrency), cell);
      if Key(results[n].arm, cell.concurrency) == key {
        SummarizedAppend(CellsWith(tagged[..count - 1], key), [cell],
                         PassLogs(results[n], n, log, key, count - 1), [log(n, count - 1)]);
      }
    }
  }

  lemma {:induction false} GroupIsSummarized(results: seq<ArmPass>, log: Logs, key: Key)
    requires AllLogged(results, log)
    ensures Summarized(Group(results, key), LogsAt(results, log, key))
  {
    hide Summarizes, Summarized, TagCells, PassLogs;
    if results == [] {
      NothingSummarized(key);
    } else {
      var n := |results| - 1;
      FrontIsLogged(results, log);
      GroupIsSummarized(results[..n], log, key);
      PassIsSummarized(results, log, key, n, |results[n].cells|);
      TaggedLength(results[n]);
      assert TagCells(results[n])[..|results[n].cells|] == TagCells(results[n]);
      CellsWithAppend(AllCells(results[..n]), TagCells(results[n]), key);
      SummarizedAppend(Group(results[..n], key), CellsWith(TagCells(results[n]), key), LogsAt(results[..n], log, key),
                       PassLogs(results[n], n, log, key, |results[n].cells|));
    }
  }

  lemma TaggedLength(pass: ArmPass)
    ensures |TagCells(pass)| == |pass.cells|
  {
  }

  lemma NothingSummarized(key: Key)
    ensures Summarized(CellsWith([], key), [])
  {
  }

  lemma FrontIsLogged(results: seq<ArmPass>, log: Logs)
    requires AllLogged(results, log) && results != []
    ensures AllLogged(results[..|results| - 1], log)
  {
    hide Summarizes;
    var front := results[..|results| - 1];
    forall i: nat, c: nat | InRun(front, i, c) ensures Summarizes(front[i].cells[c], log(i, c)) {
      assert InRun(results, i, c);
    }
  }

  lemma {:induction false} KeyHasCells(tagged: seq<Tagged>, key: Key)
    ensures key in KeysIn(tagged) <==> CellsWith(tagged, key) != []
  {
    if tagged == [] {
      assert MapSeq((t: Tagged) => t.key, tagged) == [];
    } else {
      hide KeysIn;
      var front, last := tagged[..|tagged| - 1], tagged[|tagged| - 1];
      assert tagged == front + [last];
      KeyHasCells(front, key);
      KeysNext(front, last);
    }
  }

  // ---- what a level's logs say ------------------------------------------------------------------------

  ghost predicate AllSucceeded(logs: seq<seq<Request>>) {
    forall q :: q in Flatten(logs) ==> q.outcome.Success?
  }

  /** No identifier is used twice among the successful requests of a cell. */
  ghost predicate EachIdOnce(log: seq<Request>) {
    forall i, j ::
      0 <= i < j < |log| && log[i].outcome.Success? && log[j].outcome.Success? && log[i].requestId != "" ==>
        log[i].requestId != log[j].requestId
  }

  ghost predicate EachHashed(log: seq<Request>) {
    forall q :: q in log && q.outcome.Success? && q.requestId != "" ==> q.outcome.served.contentSha != ""
  }

  /** Some request was answered under an identifier, and in each cell every identifier once and with a hash. */
  ghost predicate Known(logs: seq<seq<Request>>) {
    SomeIdentified(logs) && EachOnceAndHashed(logs)
  }

  ghost predicate EachOnceAndHashed(logs: seq<seq<Request>>) {
    forall log :: log in logs ==> EachIdOnce(log) && EachHashed(log)
  }

  ghost predicate SomeIdentified(logs: seq<seq<Request>>) {
    exists q :: q in Flatten(logs) && q.outcome.Success? && q.requestId != ""
  }

  /** Some cell answered the request with this output. */
  ghost predicate Answered(logs: seq<seq<Request>>, id: string, sha: string) {
    exists q :: q in Flatten(logs) && q.outcome.Success? && q.requestId == id && q.outcome.served.contentSha == sha
  }

  ghost predicate OneHashEach(logs: seq<seq<Request>>) {
    forall id, x, y :: id != "" && Answered(logs, id, x) && Answered(logs, id, y) ==> x == y
  }

  ghost predicate SameAnswers(logs: seq<seq<Request>>, base: seq<seq<Request>>) {
    forall id, sha :: id != "" ==> (Answered(logs, id, sha) <==> Answered(base, id, sha))
  }

  /** The two may be compared: as many requests, and the same outputs unless neither side's outputs are known. */
  ghost predicate Alike(logs: seq<seq<Request>>, base: seq<seq<Request>>) {
    base != [] && |Flatten(logs)| == |Flatten(base)|
    && ((Known(logs) && Known(base) && OneHashEach(logs) && OneHashEach(base) && SameAnswers(logs, base))
        || (!Known(logs) && !Known(base)))
  }

  function PromptTokens(requests: seq<Request>): nat {
    if requests == [] then 0
    else
      PromptTokens(requests[..|requests| - 1])
      + match requests[|requests| - 1].outcome
        case Success(served) => served.promptTokens
        case Failed(_) => 0
  }

  function CachedTokens(requests: seq<Request>): nat {
    if requests == [] then 0
    else
      CachedTokens(requests[..|requests| - 1])
      + match requests[|requests| - 1].outcome
        case Success(served) => served.cachedTokens
        case Failed(_) => 0
  }

  /** The waiting times of the successful requests. */
  function Waits(requests: seq<Request>): seq<real> {
    if requests == [] then []
    else
      Waits(requests[..|requests| - 1])
      + match requests[|requests| - 1].outcome
        case Success(served) => [served.firstTokenAt - served.started]
        case Failed(_) => []
  }

  /** The value of nearest rank one half: at least half of the values reach down to it, and fewer lie below it. */
  ghost predicate IsMiddle(values: seq<real>, v: real) {
    v in values && 2 * Count(AtMost(v), values) >= |values| && 2 * Count(Below(v), values) < |values|
  }

  // ---- counts ---------------------------------------------------------------------------------------------

  lemma FlattenLast<T>(logs: seq<seq<T>>)
    requires logs != []
    ensures Flatten(logs) == Flatten(logs[..|logs| - 1]) + logs[|logs| - 1]
  {
    var front, last := logs[..|logs| - 1], logs[|logs| - 1];
    assert logs == front + [last];
    FlattenAppend(front, [last]);
    assert Flatten([last]) == last + Flatten([]);
  }

  lemma {:induction false} CountsAre(cells: seq<Cell>, logs: seq<seq<Request>>)
    requires Summarized(cells, logs)
    ensures SumOf(RequestCount(), cells) == |Flatten(logs)|
    ensures SumOf(SuccessCount(), cells) == |Successes(Flatten(logs))|
  {
    hide Successes;
    if cells == [] {
      NoSuccesses();
    } else {
      var k := |cells| - 1;
      CountsAre(cells[..k], logs[..k]);
      FlattenLast(logs);
      SuccessesAppend(Flatten(logs[..k]), logs[k]);
      assert Summarizes(cells[k], logs[k]);
    }
  }

  lemma NoSuccesses()
    ensures Successes([]) == []
  {
  }

  lemma SuccessesAppend(a: seq<Request>, b: seq<Request>)
    ensures Successes(a + b) == Successes(a) + Successes(b)
  {
    FilterAppend(IsSuccess(), a, b);
  }

  lemma FailuresIff(key: Key, cells: seq<Cell>, logs: seq<seq<Request>>)
    requires Summarized(cells, logs)
    ensures RowOf(key, cells).failures == 0 <==> AllSucceeded(logs)
    ensures RowOf(key, cells).requests == |Flatten(logs)|
  {
    var all := Flatten(logs);
    CountsAre(cells, logs);
    RowCounts(key, cells);
    AllSuccessful(all);
    SuccessesAndFailures(all);
    hide RowOf, SumOf, Successes, Failures, Summarizes;
    if AllSucceeded(logs) {
      EverySuccess(all);
    } else {
      var q :| q in all && q.outcome.Failed?;
      assert q in Failures(all);
    }
  }

  lemma EverySuccess(requests: seq<Request>)
    requires forall q :: q in requests ==> q.outcome.Success?
    ensures Successes(requests) == requests
  {
    FilterAll(IsSuccess(), requests);
  }

  lemma RowCounts(key: Key, cells: seq<Cell>)
    ensures RowOf(key, cells).failures == SumOf(RequestCount(), cells) - SumOf(SuccessCount(), cells)
    ensures RowOf(key, cells).requests == Max(0, SumOf(RequestCount(), cells))
  {
    hide Identity, SumOf, Percentile, FailedIdsOf, SuccessIdSet, LowestPrompt, HighestPrompt, PooledTtft, RealizedConcurrency;
  }

  lemma {:induction false} NoFailedIds(cells: seq<Cell>, logs: seq<seq<Request>>)
    requires Summarized(cells, logs) && AllSucceeded(logs)
    ensures FailedIdsOf(cells) == multiset{}
  {
    if cells == [] {
    } else {
      var k := |cells| - 1;
      FlattenLast(logs);
      assert forall q :: q in Flatten(logs[..k]) ==> q in Flatten(logs);
      assert forall q :: q in logs[k] ==> q in Flatten(logs);
      NoFailedIds(cells[..k], logs[..k]);
      NoneFailed(logs[k]);
      assert Summarizes(cells[k], logs[k]);
    }
  }

  lemma {:induction false} NoneFailed(log: seq<Request>)
    requires forall q :: q in log ==> q.outcome.Success?
    ensures FailedIds(log) == multiset{}
  {
    if log == [] {
    } else {
      assert log[|log| - 1] in log;
      NoneFailed(log[..|log| - 1]);
    }
  }

  // ---- one cell: which identifiers are hashed --------------------------------------------------------------

  lemma OnceInFront(log: seq<Request>)
    requires log != []
    ensures var front, last := log[..|log| - 1], log[|log| - 1];
            EachIdOnce(log)
            <==> EachIdOnce(front)
                 && (last.outcome.Success? && last.requestId != "" ==>
                       forall q :: q in front && q.outcome.Success? ==> q.requestId != last.requestId)
  {
    var front, last := log[..|log| - 1], log[|log| - 1];
    assert log == front + [last];
    if EachIdOnce(log) && last.outcome.Success? && last.requestId != "" {
      forall q | q in front && q.outcome.Success? ensures q.requestId != last.requestId {
        var i :| 0 <= i < |front| && front[i] == q;
        assert log[i] == q && log[|log| - 1] == last;
      }
    }
    if EachIdOnce(front) && (last.outcome.Success? && last.requestId != "" ==>
         forall q :: q in front && q.outcome.Success? ==> q.requestId != last.requestId) {
      forall i, j | 0 <= i < j < |log| && log[i].outcome.Success? && log[j].outcome.Success? && log[i].requestId != ""
        ensures log[i].requestId != log[j].requestId
      {
        assert front[i] in front;
        if j < |front| {
          assert front[i].requestId != front[j].requestId;
        }
      }
    }
  }

  lemma HashedInFront(log: seq<Request>)
    requires log != []
    ensures var front, last := log[..|log| - 1], log[|log| - 1];
            EachHashed(log)
            <==> EachHashed(front)
                 && (last.outcome.Success? && last.requestId != "" ==> last.outcome.served.contentSha != "")
  {
    assert log == log[..|log| - 1] + [log[|log| - 1]];
  }

  /** An identifier is missing among the successes of a log exactly when its count is zero. */
  lemma {:induction false} UnlistedIff(log: seq<Request>, id: string)
    requires id != ""
    ensures SuccessIds(log)[id] == 0 <==> forall q :: q in log && q.outcome.Success? ==> q.requestId != id
  {
    if log == [] {
    } else {
      var front, last := log[..|log| - 1], log[|log| - 1];
      assert log == front + [last];
      assert forall q :: q in log <==> q in front || q == last;
      UnlistedIff(front, id);
    }
  }

  lemma BagGrows(bag: multiset<string>, keys: set<string>, id: string)
    requires id !in bag && id !in keys
    ensures bag + multiset{id} == multiset(keys + {id}) <==> bag == multiset(keys)
  {
    if bag + multiset{id} == multiset(keys + {id}) {
      forall x ensures bag[x] == multiset(keys)[x] {
        assert (bag + multiset{id})[x] == multiset(keys + {id})[x];
      }
    }
  }

  /** The hashes of a cell account for its successful identifiers exactly when each of these is used once and hashed. */
  lemma {:induction false} HashesAccountIff(log: seq<Request>)
    ensures SuccessIds(log) == multiset(ContentHashes(log).Keys) <==> EachIdOnce(log) && EachHashed(log)
  {
    if log == [] {
      assert ContentHashes(log).Keys == {};
    } else {
      hide EachIdOnce, EachHashed;
      var front, last := log[..|log| - 1], log[|log| - 1];
      HashesAccountIff(front);
      OnceInFront(log);
      HashedInFront(log);
      if last.outcome.Success? && last.requestId != "" {
        LastAccounts(log);
      }
    }
  }

  lemma LastAccounts(log: seq<Request>)
    requires log != [] && log[|log| - 1].outcome.Success? && log[|log| - 1].requestId != ""
    ensures var front, last := log[..|log| - 1], log[|log| - 1];
            SuccessIds(log) == multiset(ContentHashes(log).Keys)
            <==> SuccessIds(front) == multiset(ContentHashes(front).Keys) && last.outcome.served.contentSha != ""
                 && forall q :: q in front && q.outcome.Success? ==> q.requestId != last.requestId
  {
    var front, last := log[..|log| - 1], log[|log| - 1];
    var id, bag, keys := last.requestId, SuccessIds(front), ContentHashes(front).Keys;
    UnlistedIff(front, id);
    KeysAreListed(front, id);
    assert SuccessIds(log) == bag + multiset{id};
    assert ContentHashes(log).Keys == if last.outcome.served.contentSha != "" then keys + {id} else keys;
    if bag[id] == 0 {
      BagGrows(bag, keys, id);
      assert (bag + multiset{id})[id] == 1 && multiset(keys)[id] == 0;
    } else {
      assert (bag + multiset{id})[id] >= 2;
      assert multiset(keys + {id})[id] <= 1 && multiset(keys)[id] <= 1;
    }
  }

  lemma KeysAreListed(log: seq<Request>, id: string)
    ensures id in ContentHashes(log) ==> id in SuccessIds(log) && id != ""
  {
    if id in ContentHashes(log) {
      HashedIdsSucceeded(log, id);
    }
  }

  lemma {:induction false} HashHasSource(log: seq<Request>, id: string)
    requires id in ContentHashes(log)
    ensures exists q :: q in log && q.outcome.Success? && q.requestId == id
                        && q.outcome.served.contentSha == ContentHashes(log)[id]
  {
    var front, last := log[..|log| - 1], log[|log| - 1];
    assert log == front + [last];
    KeysAreListed(log, id);
    if last.outcome.Success? && last.requestId == id && last.outcome.served.contentSha != "" {
      assert last in log && ContentHashes(log)[id] == last.outcome.served.contentSha;
    } else {
      HashHasSource(front, id);
      var q :| q in front && q.outcome.Success? && q.requestId == id
                && q.outcome.served.contentSha == ContentHashes(front)[id];
      assert q in log;
    }
  }

  ghost predicate AnsweredIn(log: seq<Request>, id: string, sha: string) {
    exists q :: q in log && q.outcome.Success? && q.requestId == id && q.outcome.served.contentSha == sha
  }

  /** Where every identifier is used once and hashed, the recorded hashes are the answers. */
  lemma HashesAreAnswers(log: seq<Request>, id: string, sha: string)
    requires EachIdOnce(log) && EachHashed(log) && id != ""
    ensures id in ContentHashes(log) && ContentHashes(log)[id] == sha <==> AnsweredIn(log, id, sha)
  {
    HashesAccountIff(log);
    hide EachIdOnce, EachHashed, ContentHashes, SuccessIds;
    if id in ContentHashes(log) {
      HashHasSource(log, id);
    }
    if q :| q in log && q.outcome.Success? && q.requestId == id && q.outcome.served.contentSha == sha {
      SuccessIsListed(log, q);
      HashOfUnique(log, q);
    }
  }

  // ---- a group of cells: when its outputs are known ------------------------------------------------------

  ghost predicate Recorded(cells: seq<Cell>, id: string, sha: string) {
    exists cell :: cell in cells && id in cell.summary.contentHashes && cell.summary.contentHashes[id] == sha
  }

  lemma {:induction false} IdentityIsRecorded(cells: seq<Cell>, id: string, sha: string)
    ensures id in Identity(cells) && sha in Identity(cells)[id] <==> Recorded(cells, id, sha)
  {
    if cells == [] {
    } else {
      var front, last := cells[..|cells| - 1], cells[|cells| - 1];
      assert cells == front + [last];
      assert forall cell :: cell in cells <==> cell in front || cell == last;
      IdentityIsRecorded(front, id, sha);
    }
  }

  lemma IdentityHasKey(cells: seq<Cell>, id: string)
    ensures id in Identity(cells) <==> exists cell :: cell in cells && id in cell.summary.contentHashes
    ensures id in Identity(cells) ==> Identity(cells)[id] != {}
  {
    if id in Identity(cells) {
      IdentityComesFromCell(cells, id);
    }
    if cell :| cell in cells && id in cell.summary.contentHashes {
      IdentityHasHash(cells, cell, id);
    }
  }

  lemma {:induction false} SuccessSetMember(cells: seq<Cell>, id: string)
    ensures id in SuccessIdSet(cells) <==> exists cell :: cell in cells && id in cell.summary.successIds
  {
    if cells == [] {
    } else {
      var front, last := cells[..|cells| - 1], cells[|cells| - 1];
      assert cells == front + [last];
      assert forall cell :: cell in cells <==> cell in front || cell == last;
      SuccessSetMember(front, id);
    }
  }

  lemma {:induction false} SumsEqual(f: Cell -> int, g: Cell -> int, cells: seq<Cell>)
    requires forall cell :: cell in cells ==> f(cell) == g(cell)
    ensures SumOf(f, cells) == SumOf(g, cells)
  {
    if cells == [] {
    } else {
      assert cells[|cells| - 1] in cells;
      SumsEqual(f, g, cells[..|cells| - 1]);
    }
  }

  lemma {:induction false} SumPositiveIff(f: Cell -> int, cells: seq<Cell>)
    requires forall cell :: cell in cells ==> f(cell) >= 0
    ensures SumOf(f, cells) >= 0
    ensures SumOf(f, cells) > 0 <==> exists cell :: cell in cells && f(cell) > 0
  {
    if cells == [] {
    } else {
      var front, last := cells[..|cells| - 1], cells[|cells| - 1];
      assert cells == front + [last];
      assert forall cell :: cell in cells <==> cell in front || cell == last;
      SumPositiveIff(f, front);
    }
  }

  /** Every cell's hashes account for its successful identifiers. */
  ghost predicate Accounted(cells: seq<Cell>) {
    forall cell :: cell in cells ==> cell.summary.successIds == multiset(cell.summary.contentHashes.Keys)
  }

  lemma AccountedIffSums(cells: seq<Cell>)
    requires forall cell :: cell in cells ==> Genuine(cell)
    ensures SumOf(HashRecords(), cells) == SumOf(SuccessRecords(), cells) <==> Accounted(cells)
  {
    if SumOf(HashRecords(), cells) == SumOf(SuccessRecords(), cells) {
      forall cell | cell in cells ensures cell.summary.successIds == multiset(cell.summary.contentHashes.Keys) {
        KnownMeansHashed(cells, cell);
      }
    }
    if Accounted(cells) {
      forall cell | cell in cells ensures HashRecords()(cell) == SuccessRecords()(cell) {
        assert |cell.summary.contentHashes| == |cell.summary.contentHashes.Keys|;
        assert |multiset(cell.summary.contentHashes.Keys)| == |cell.summary.contentHashes.Keys|;
      }
      SumsEqual(HashRecords(), SuccessRecords(), cells);
    }
  }

  lemma AccountedMeansSameIds(cells: seq<Cell>)
    requires Accounted(cells)
    ensures Identity(cells).Keys == SuccessIdSet(cells)
  {
    hide Identity, SuccessIdSet;
    forall id ensures id in Identity(cells).Keys <==> id in SuccessIdSet(cells) {
      IdentityHasKey(cells, id);
      SuccessSetMember(cells, id);
    }
  }

  lemma AccountedIff(cells: seq<Cell>, logs: seq<seq<Request>>)
    requires Summarized(cells, logs)
    ensures Accounted(cells) <==> EachOnceAndHashed(logs)
  {
    forall k | 0 <= k < |cells|
      ensures cells[k].summary.successIds == multiset(cells[k].summary.contentHashes.Keys)
              <==> EachIdOnce(logs[k]) && EachHashed(logs[k])
    {
      assert Summarizes(cells[k], logs[k]);
      HashesAccountIff(logs[k]);
    }
    hide EachIdOnce, EachHashed, Summarizes;
    if Accounted(cells) {
      forall log | log in logs ensures EachIdOnce(log) && EachHashed(log) {
        var k :| 0 <= k < |logs| && logs[k] == log;
        assert cells[k] in cells;
      }
    }
    if EachOnceAndHashed(logs) {
      forall cell | cell in cells ensures cell.summary.successIds == multiset(cell.summary.contentHashes.Keys) {
        var k :| 0 <= k < |cells| && cells[k] == cell;
        assert logs[k] in logs;
      }
    }
  }

  lemma {:induction false} SuccessIdsNonempty(log: seq<Request>)
    ensures |SuccessIds(log)| > 0 <==> exists q :: q in log && q.outcome.Success? && q.requestId != ""
  {
    if log == [] {
    } else {
      var front, last := log[..|log| - 1], log[|log| - 1];
      assert log == front + [last];
      assert forall q :: q in log <==> q in front || q == last;
      SuccessIdsNonempty(front);
    }
  }

  lemma SomeIdIff(cells: seq<Cell>, logs: seq<seq<Request>>)
    requires Summarized(cells, logs)
    ensures SumOf(SuccessRecords(), cells) > 0 <==> SomeIdentified(logs)
  {
    SumPositiveIff(SuccessRecords(), cells);
    forall k | 0 <= k < |cells|
      ensures SuccessRecords()(cells[k]) > 0 <==> exists q :: q in logs[k] && q.outcome.Success? && q.requestId != ""
    {
      assert Summarizes(cells[k], logs[k]);
      SuccessIdsNonempty(logs[k]);
    }
    hide Summarizes, SumOf, Flatten;
    if SumOf(SuccessRecords(), cells) > 0 {
      var cell :| cell in cells && SuccessRecords()(cell) > 0;
      var k :| 0 <= k < |cells| && cells[k] == cell;
      var q :| q in logs[k] && q.outcome.Success? && q.requestId != "";
      FlattenMember(logs, q);
    }
    if SomeIdentified(logs) {
      var q :| q in Flatten(logs) && q.outcome.Success? && q.requestId != "";
      FlattenMember(logs, q);
      var k :| 0 <= k < |logs| && q in logs[k];
      assert cells[k] in cells && SuccessRecords()(cells[k]) > 0;
    }
  }

  lemma AllAreGenuine(cells: seq<Cell>, logs: seq<seq<Request>>)
    requires Summarized(cells, logs)
    ensures forall cell :: cell in cells ==> Genuine(cell)
  {
    hide Summarizes;
    forall cell | cell in cells ensures Genuine(cell) {
      var k :| 0 <= k < |cells| && cells[k] == cell;
      assert Summarizes(cell, logs[k]);
    }
  }

  lemma KnownIff(key: Key, cells: seq<Cell>, logs: seq<seq<Request>>)
    requires Summarized(cells, logs)
    ensures RowOf(key, cells).identityKnown <==> Known(logs)
  {
    RowIdentityKnown(key, cells);
    AllAreGenuine(cells, logs);
    hide RowOf, SumOf, Identity, SuccessIdSet, Summarized, Accounted, EachOnceAndHashed, SomeIdentified, Genuine;
    AccountedIffSums(cells);
    AccountedIff(cells, logs);
    SomeIdIff(cells, logs);
    if Accounted(cells) {
      AccountedMeansSameIds(cells);
    }
  }

  lemma RowIdentityKnown(key: Key, cells: seq<Cell>)
    ensures RowOf(key, cells).identityKnown
            <==> SumOf(SuccessRecords(), cells) > 0 && SumOf(HashRecords(), cells) == SumOf(SuccessRecords(), cells)
                 && Identity(cells).Keys == SuccessIdSet(cells)
    ensures RowOf(key, cells).identity == Identity(cells) && RowOf(key, cells).failedIds == FailedIdsOf(cells)
    ensures RowOf(key, cells).stable <==> OneHashRecorded(cells)
  {
    hide Identity, SumOf, Percentile, FailedIdsOf, SuccessIdSet, LowestPrompt, HighestPrompt, PooledTtft, RealizedConcurrency;
  }

  // ---- known outputs: what the identity map says -----------------------------------------------------------

  lemma RecordedIsAnswered(cells: seq<Cell>, logs: seq<seq<Request>>, id: string, sha: string)
    requires Summarized(cells, logs) && Known(logs)
    ensures Recorded(cells, id, sha) <==> id != "" && Answered(logs, id, sha)
  {
    forall k | 0 <= k < |cells|
      ensures id in cells[k].summary.contentHashes && cells[k].summary.contentHashes[id] == sha
              <==> id != "" && AnsweredIn(logs[k], id, sha)
    {
      assert Summarizes(cells[k], logs[k]) && logs[k] in logs;
      KeysAreListed(logs[k], id);
      if id != "" {
        HashesAreAnswers(logs[k], id, sha);
      }
    }
    hide Summarizes, Known, Flatten;
    if Recorded(cells, id, sha) {
      var cell :| cell in cells && id in cell.summary.contentHashes && cell.summary.contentHashes[id] == sha;
      var k :| 0 <= k < |cells| && cells[k] == cell;
      var q :| q in logs[k] && q.outcome.Success? && q.requestId == id && q.outcome.served.contentSha == sha;
      FlattenMember(logs, q);
    }
    if id != "" && Answered(logs, id, sha) {
      var q :| q in Flatten(logs) && q.outcome.Success? && q.requestId == id && q.outcome.served.contentSha == sha;
      FlattenMember(logs, q);
      var k :| 0 <= k < |logs| && q in logs[k];
      assert AnsweredIn(logs[k], id, sha) && cells[k] in cells;
    }
  }

  lemma IdentityIsAnswered(cells: seq<Cell>, logs: seq<seq<Request>>, id: string, sha: string)
    requires Summarized(cells, logs) && Known(logs)
    ensures id in Identity(cells) && sha in Identity(cells)[id] <==> id != "" && Answered(logs, id, sha)
  {
    IdentityIsRecorded(cells, id, sha);
    RecordedIsAnswered(cells, logs, id, sha);
  }

  ghost predicate OneHashRecorded(cells: seq<Cell>) {
    forall id :: id in Identity(cells) ==> |Identity(cells)[id]| == 1
  }

  lemma StableIff(cells: seq<Cell>, logs: seq<seq<Request>>)
    requires Summarized(cells, logs) && Known(logs)
    ensures OneHashRecorded(cells) <==> OneHashEach(logs)
  {
    hide Identity, Known, Summarized, Answered;
    forall id, sha ensures id in Identity(cells) && sha in Identity(cells)[id] <==> id != "" && Answered(logs, id, sha) {
      IdentityIsAnswered(cells, logs, id, sha);
    }
    if OneHashEach(logs) {
      forall id | id in Identity(cells) ensures |Identity(cells)[id]| == 1 {
        IdentityHasKey(cells, id);
        var x :| x in Identity(cells)[id];
        assert Answered(logs, id, x);
        forall y | y in Identity(cells)[id] ensures y == x {
          assert Answered(logs, id, y);
        }
        assert Identity(cells)[id] == {x};
      }
    }
    if OneHashRecorded(cells) {
      forall id, x, y | id != "" && Answered(logs, id, x) && Answered(logs, id, y) ensures x == y {
        SingletonSet(Identity(cells)[id], x);
      }
    }
  }

  lemma SameIff(cells: seq<Cell>, logs: seq<seq<Request>>, others: seq<Cell>, base: seq<seq<Request>>)
    requires Summarized(cells, logs) && Known(logs) && Summarized(others, base) && Known(base)
    ensures Identity(cells) == Identity(others) <==> SameAnswers(logs, base)
  {
    hide Identity, Known, Summarized, Answered;
    forall id, sha
      ensures id in Identity(cells) && sha in Identity(cells)[id] <==> id != "" && Answered(logs, id, sha)
      ensures id in Identity(others) && sha in Identity(others)[id] <==> id != "" && Answered(base, id, sha)
    {
      IdentityIsAnswered(cells, logs, id, sha);
      IdentityIsAnswered(others, base, id, sha);
    }
    if SameAnswers(logs, base) {
      forall id ensures id in Identity(cells) <==> id in Identity(others) {
        IdentityHasKey(cells, id);
        IdentityHasKey(others, id);
        if id in Identity(cells) {
          var x :| x in Identity(cells)[id];
          assert Answered(logs, id, x);
        }
        if id in Identity(others) {
          var x :| x in Identity(others)[id];
          assert Answered(base, id, x);
        }
      }
      SameMaps(Identity(cells), Identity(others));
    }
  }

  lemma SameMaps(a: map<string, set<string>>, b: map<string, set<string>>)
    requires forall id :: id in a <==> id in b
    requires forall id, sha :: id in a && id in b ==> (sha in a[id] <==> sha in b[id])
    ensures a == b
  {
    assert a.Keys == b.Keys;
    forall id | id in a ensures a[id] == b[id] {
    }
  }

  /** Two rows without failures are comparable exactly when their logs are alike. */
  lemma AlikeIff(key: Key, cells: seq<Cell>, logs: seq<seq<Request>>, at: Key, others: seq<Cell>, base: seq<seq<Request>>)
    requires Summarized(cells, logs) && Summarized(others, base)
    requires AllSucceeded(logs) && AllSucceeded(base) && base != []
    ensures DeltaComparable(RowOf(key, cells), Some(RowOf(at, others))) <==> Alike(logs, base)
  {
    FailuresIff(key, cells, logs);
    FailuresIff(at, others, base);
    NoFailedIds(cells, logs);
    NoFailedIds(others, base);
    KnownIff(key, cells, logs);
    KnownIff(at, others, base);
    RowIdentityKnown(key, cells);
    RowIdentityKnown(at, others);
    hide RowOf, SumOf, Identity, Known, Summarized, FailedIdsOf, OneHashEach, OneHashRecorded, SameAnswers, Flatten,
      AllSucceeded, SuccessIdSet;
    if Known(logs) {
      StableIff(cells, logs);
    }
    if Known(base) {
      StableIff(others, base);
    }
    if Known(logs) && Known(base) {
      SameIff(cells, logs, others, base);
    }
  }

  // ---- prompt lengths -------------------------------------------------------------------------------------

  /** A bound on the lowest and highest value holds exactly when it holds of every successful request. */
  ghost predicate Bounds(low: Option<nat>, high: Option<nat>, requests: seq<Request>, from: int, to: int) {
    (low.Some? <==> exists q :: q in requests && q.outcome.Success?)
    && (high.Some? <==> low.Some?)
    && (low.Some? ==> (from <= low.value <==>
                         forall q :: q in requests && q.outcome.Success? ==> from <= q.outcome.served.promptTokens))
    && (high.Some? ==> (high.value <= to <==>
                          forall q :: q in requests && q.outcome.Success? ==> q.outcome.served.promptTokens <= to))
  }

  lemma {:induction false} CellBounds(log: seq<Request>, from: int, to: int)
    ensures Bounds(PromptMin(log), PromptMax(log), log, from, to)
  {
    if log == [] {
    } else {
      var front, last := log[..|log| - 1], log[|log| - 1];
      assert log == front + [last];
      assert forall q :: q in log <==> q in front || q == last;
      CellBounds(front, from, to);
      if PromptMin(front).None? {
        assert forall q :: q in front ==> !q.outcome.Success?;
      }
    }
  }

  lemma JoinBounds(low: Option<nat>, high: Option<nat>, a: seq<Request>, low': Option<nat>, high': Option<nat>,
                   b: seq<Request>, from: int, to: int)
    requires Bounds(low, high, a, from, to) && Bounds(low', high', b, from, to)
    ensures Bounds(if low'.None? then low else Some(Min(low.GetOr(low'.value), low'.value)),
                   if high'.None? then high else Some(Max(high.GetOr(high'.value), high'.value)), a + b, from, to)
  {
    assert forall q :: q in a + b <==> q in a || q in b;
    if low.None? {
      assert forall q :: q in a ==> !q.outcome.Success?;
    }
    if low'.None? {
      assert forall q :: q in b ==> !q.outcome.Success?;
    }
  }

  lemma {:induction false} GroupBounds(cells: seq<Cell>, logs: seq<seq<Request>>, from: int, to: int)
    requires Summarized(cells, logs)
    ensures Bounds(LowestPrompt(cells), HighestPrompt(cells), Flatten(logs), from, to)
  {
    if cells == [] {
    } else {
      var k := |cells| - 1;
      GroupBounds(cells[..k], logs[..k], from, to);
      FlattenLast(logs);
      assert Summarizes(cells[k], logs[k]);
      CellBounds(logs[k], from, to);
      hide Bounds;
      JoinBounds(LowestPrompt(cells[..k]), HighestPrompt(cells[..k]), Flatten(logs[..k]),
                 cells[k].summary.promptMin, cells[k].summary.promptMax, logs[k], from, to);
    }
  }

  // ---- tokens and waiting times --------------------------------------------------------------------------

  lemma {:induction false} PromptAppend(a: seq<Request>, b: seq<Request>)
    ensures PromptTokens(a + b) == PromptTokens(a) + PromptTokens(b)
  {
    if b == [] {
      assert a + b == a;
    } else {
      assert (a + b)[..|a + b| - 1] == a + b[..|b| - 1];
      PromptAppend(a, b[..|b| - 1]);
    }
  }

  lemma {:induction false} CachedAppend(a: seq<Request>, b: seq<Request>)
    ensures CachedTokens(a + b) == CachedTokens(a) + CachedTokens(b)
  {
    if b == [] {
      assert a + b == a;
    } else {
      assert (a + b)[..|a + b| - 1] == a + b[..|b| - 1];
      CachedAppend(a, b[..|b| - 1]);
    }
  }

  lemma {:induction false} WaitsAppend(a: seq<Request>, b: seq<Request>)
    ensures Waits(a + b) == Waits(a) + Waits(b)
  {
    if b == [] {
      assert a + b == a;
    } else {
      assert (a + b)[..|a + b| - 1] == a + b[..|b| - 1];
      WaitsAppend(a, b[..|b| - 1]);
    }
  }

  lemma {:induction false} TokensOfCell(log: seq<Request>)
    ensures PromptSum(log) == PromptTokens(log) && CachedSum(log) == CachedTokens(log) && Ttft(log) == Waits(log)
  {
    if log == [] {
    } else {
      TokensOfCell(log[..|log| - 1]);
    }
  }

  lemma {:induction false} TokensOfGroup(cells: seq<Cell>, logs: seq<seq<Request>>)
    requires Summarized(cells, logs)
    ensures SumOf(PromptTotal(), cells) == PromptTokens(Flatten(logs))
    ensures SumOf(CachedTotal(), cells) == CachedTokens(Flatten(logs))
    ensures PooledTtft(cells) == Waits(Flatten(logs))
  {
    hide PromptTokens, CachedTokens, Waits;
    if cells == [] {
      NoTokens();
    } else {
      var k := |cells| - 1;
      TokensOfGroup(cells[..k], logs[..k]);
      FlattenLast(logs);
      PromptAppend(Flatten(logs[..k]), logs[k]);
      CachedAppend(Flatten(logs[..k]), logs[k]);
      WaitsAppend(Flatten(logs[..k]), logs[k]);
      assert Summarizes(cells[k], logs[k]);
      TokensOfCell(logs[k]);
    }
  }

  lemma NoTokens()
    ensures PromptTokens([]) == 0 && CachedTokens([]) == 0 && Waits([]) == []
  {
  }

  lemma PercentIff(part: int, whole: int, limit: real)
    requires whole > 0
    ensures 100.0 * part as real / whole as real >= limit <==> 100.0 * part as real >= limit * whole as real
  {
    var ratio, w := 100.0 * part as real / whole as real, whole as real;
    assert ratio * w == 100.0 * part as real;
    if ratio >= limit {
      ProductNonnegative(ratio - limit, w);
    } else {
      ProductPositive(limit - ratio, w);
    }
  }

  lemma RowFigures(key: Key, cells: seq<Cell>)
    ensures var prompts, cached := SumOf(PromptTotal(), cells), SumOf(CachedTotal(), cells);
            RowOf(key, cells).cachePct == if prompts > 0 then Some(100.0 * cached as real / prompts as real) else None
    ensures RowOf(key, cells).promptMin == LowestPrompt(cells) && RowOf(key, cells).promptMax == HighestPrompt(cells)
    ensures RowOf(key, cells).ttftP50
         == if PooledTtft(cells) != [] then Percentile(PooledTtft(cells), 0.5)
            else MeanOrNone(MapSeq((cell: Cell) => cell.summary.ttftP50, cells))
  {
    hide Identity, SumOf, Percentile, FailedIdsOf, SuccessIdSet, LowestPrompt, HighestPrompt, PooledTtft,
      RealizedConcurrency, MeanOrNone;
  }

  /** The cached tokens are at least this percentage of a positive number of prompt tokens. */
  predicate CachedShare(prompts: nat, cached: nat, percent: real) {
    prompts > 0 && 100.0 * cached as real >= percent * prompts as real
  }

  lemma ShareIff(prompts: int, cached: int, limit: real, percent: Option<real>)
    requires prompts >= 0 && cached >= 0
    requires percent == if prompts > 0 then Some(100.0 * cached as real / prompts as real) else None
    ensures percent.Some? && percent.value >= limit <==> CachedShare(prompts, cached, limit)
  {
    if prompts > 0 {
      PercentIff(cached, prompts, limit);
    }
  }

  lemma CacheIff(key: Key, cells: seq<Cell>, logs: seq<seq<Request>>, limit: real)
    requires Summarized(cells, logs)
    ensures var row := RowOf(key, cells);
            row.cachePct.Some? && row.cachePct.value >= limit
            <==> CachedShare(PromptTokens(Flatten(logs)), CachedTokens(Flatten(logs)), limit)
  {
    hide RowOf, SumOf, PromptTokens, CachedTokens, Flatten, CachedShare, Summarized;
    RowFigures(key, cells);
    TokensOfGroup(cells, logs);
    ShareIff(PromptTokens(Flatten(logs)), CachedTokens(Flatten(logs)), limit, RowOf(key, cells).cachePct);
  }

  lemma HalfRank(n: nat)
    requires n > 0
    ensures Rank(n, 0.5) == (n + 1) / 2
  {
    var half, k := n as real * 0.5, (n + 1) / 2;
    assert k as real >= half && k as real < half + 1.0;
    assert (-half).Floor == -k;
  }

  lemma MiddleIsPercentile(values: seq<real>)
    requires values != []
    ensures Percentile(values, 0.5).Some? && IsMiddle(values, Percentile(values, 0.5).value)
  {
    PercentileIsNearestRank(values, 0.5);
    HalfRank(|values|);
  }

  lemma {:induction false} CountMonotone(p: real -> bool, q: real -> bool, values: seq<real>)
    requires forall x :: p(x) ==> q(x)
    ensures Count(p, values) <= Count(q, values)
  {
    if values == [] {
    } else {
      CountMonotone(p, q, values[..|values| - 1]);
    }
  }

  lemma MiddleIsUnique(values: seq<real>, v: real, w: real)
    requires IsMiddle(values, v) && IsMiddle(values, w)
    ensures v == w
  {
    hide Count;
    if v < w {
      CountMonotone(AtMost(v), Below(w), values);
    }
    if w < v {
      CountMonotone(AtMost(w), Below(v), values);
    }
  }

  lemma {:induction false} NoWaitsNoMedian(cells: seq<Cell>)
    requires forall cell :: cell in cells ==> cell.summary.ttftP50 == None
    ensures Present(MapSeq((cell: Cell) => cell.summary.ttftP50, cells)) == []
  {
    if cells == [] {
    } else {
      var k := |cells| - 1;
      var f := (cell: Cell) => cell.summary.ttftP50;
      NoWaitsNoMedian(cells[..k]);
      assert MapSeq(f, cells)[..k] == MapSeq(f, cells[..k]);
      assert cells[k] in cells;
    }
  }

  lemma {:induction false} NoneWaited(cells: seq<Cell>)
    requires PooledTtft(cells) == []
    ensures forall k :: 0 <= k < |cells| ==> cells[k].summary.ttft == []
  {
    if cells == [] {
    } else {
      var last := |cells| - 1;
      NoneWaited(cells[..last]);
      forall k | 0 <= k < |cells| ensures cells[k].summary.ttft == [] {
        assert k < last ==> cells[..last][k] == cells[k];
      }
    }
  }

  lemma EmptyPool(cells: seq<Cell>, logs: seq<seq<Request>>)
    requires Summarized(cells, logs) && PooledTtft(cells) == []
    ensures forall cell :: cell in cells ==> cell.summary.ttftP50 == None
  {
    hide Summarizes, PooledTtft;
    NoneWaited(cells);
    forall cell | cell in cells ensures cell.summary.ttftP50 == None {
      var k :| 0 <= k < |cells| && cells[k] == cell;
      NoWaitsInCell(cell, logs[k]);
    }
  }

  lemma NoWaitsInCell(cell: Cell, log: seq<Request>)
    requires Summarizes(cell, log) && cell.summary.ttft == []
    ensures cell.summary.ttftP50 == None
  {
    hide ContentHashes, FailedIds, SuccessIds, PromptSum, CachedSum, PromptMin, PromptMax, Window, MeanInFlight,
      UtilizationPct, Ttft, SortReals, Successes;
  }

  /** The waiting time of a row: the middle value of all its waiting times, and nothing else. */
  lemma WaitOfRow(key: Key, cells: seq<Cell>, logs: seq<seq<Request>>)
    requires Summarized(cells, logs)
    ensures forall v :: RowOf(key, cells).ttftP50 == Some(v) <==> IsMiddle(Waits(Flatten(logs)), v)
  {
    RowFigures(key, cells);
    TokensOfGroup(cells, logs);
    var waits := Waits(Flatten(logs));
    hide RowOf, Waits, Flatten, IsMiddle, Percentile;
    if waits != [] {
      MiddleIsPercentile(waits);
      forall v | IsMiddle(waits, v) ensures Percentile(waits, 0.5) == Some(v) {
        MiddleIsUnique(waits, v, Percentile(waits, 0.5).value);
      }
    } else {
      EmptyPool(cells, logs);
      NoWaitsNoMedian(cells);
      NothingHasNoMiddle();
    }
  }

  lemma NothingHasNoMiddle()
    ensures forall v :: !IsMiddle([], v)
  {
  }

  // ---- the gates --------------------------------------------------------------------------------------------

  /** What the gates ask of the logs of one arm at one level, given those of the first arm. */
  ghost predicate Meets(gates: Gates, logs: seq<seq<Request>>, base: seq<seq<Request>>) {
    AllSucceeded(logs)
    && (gates.promptRange.Some? ==> WithinRange(Flatten(logs), gates.promptRange.value.0, gates.promptRange.value.1))
    && (gates.minCachePct.Some? ==>
          CachedShare(PromptTokens(Flatten(logs)), CachedTokens(Flatten(logs)), gates.minCachePct.value))
    && (gates.requireOutputMatch ==> Known(logs) && Alike(logs, base))
    && (gates.maxTtftRegressionPct.Some? ==>
          Alike(logs, base) && SlowerByAtMost(Waits(Flatten(logs)), Waits(Flatten(base)), gates.maxTtftRegressionPct.value))
  }

  ghost predicate WithinRange(requests: seq<Request>, from: int, to: int) {
    (exists q :: q in requests && q.outcome.Success?)
    && forall q :: q in requests && q.outcome.Success? ==> from <= q.outcome.served.promptTokens <= to
  }

  ghost predicate SlowerByAtMost(waits: seq<real>, base: seq<real>, percent: real) {
    exists v, b :: IsMiddle(waits, v) && IsMiddle(base, b) && b != 0.0 && 100.0 * (v / b - 1.0) <= percent
  }

  lemma RangeIff(key: Key, cells: seq<Cell>, logs: seq<seq<Request>>, range: (nat, nat))
    requires Summarized(cells, logs)
    ensures InRange(RowOf(key, cells), range) <==> WithinRange(Flatten(logs), range.0, range.1)
  {
    RowFigures(key, cells);
    GroupBounds(cells, logs, range.0, range.1);
    hide RowOf, LowestPrompt, HighestPrompt, Flatten;
  }

  /** A row and its reference: each stands for a group of cells and their logs, and the reference may be missing. */
  ghost predicate StandsFor(c: Compared, key: Key, cells: seq<Cell>, logs: seq<seq<Request>>, at: Key, others: seq<Cell>,
                            base: seq<seq<Request>>) {
    Summarized(cells, logs) && Summarized(others, base) && AllSucceeded(logs) && AllSucceeded(base)
    && c == CompareRow(RowOf(key, cells), if others == [] then None else Some(RowOf(at, others)))
  }

  lemma ComparableIff(c: Compared, key: Key, cells: seq<Cell>, logs: seq<seq<Request>>, at: Key, others: seq<Cell>,
                      base: seq<seq<Request>>)
    requires StandsFor(c, key, cells, logs, at, others, base)
    ensures c.comparable <==> Alike(logs, base)
    ensures c.row.identityKnown <==> Known(logs)
  {
    hide RowOf, AllSucceeded, Known, Flatten;
    KnownIff(key, cells, logs);
    if others != [] {
      AlikeIff(key, cells, logs, at, others, base);
    }
  }

  lemma TtftIff(c: Compared, key: Key, cells: seq<Cell>, logs: seq<seq<Request>>, at: Key, others: seq<Cell>,
                base: seq<seq<Request>>, percent: real)
    requires StandsFor(c, key, cells, logs, at, others, base)
    ensures c.ttftDeltaPct.Some? && c.ttftDeltaPct.value <= percent
            <==> Alike(logs, base) && SlowerByAtMost(Waits(Flatten(logs)), Waits(Flatten(base)), percent)
  {
    hide RowOf, AllSucceeded, Alike, Waits, Flatten, DeltaComparable, IsMiddle, Summarizes;
    ComparableIff(c, key, cells, logs, at, others, base);
    WaitOfRow(key, cells, logs);
    WaitOfRow(at, others, base);
    if Alike(logs, base) {
      NoBaseNotAlike(logs, base);
      assert others != [];
      DeltaIff(RowOf(key, cells).ttftP50, RowOf(at, others).ttftP50, Waits(Flatten(logs)), Waits(Flatten(base)), percent);
    }
  }

  lemma DeltaIff(value: Option<real>, reference: Option<real>, waits: seq<real>, base: seq<real>, percent: real)
    requires forall v :: value == Some(v) <==> IsMiddle(waits, v)
    requires forall b :: reference == Some(b) <==> IsMiddle(base, b)
    ensures (value.Some? && reference.Some? && reference.value != 0.0
             && 100.0 * (value.value / reference.value - 1.0) <= percent)
            <==> SlowerByAtMost(waits, base, percent)
  {
    hide IsMiddle;
    if value.Some? && reference.Some? {
      assert IsMiddle(waits, value.value) && IsMiddle(base, reference.value);
    }
  }

  lemma NoBaseNotAlike(logs: seq<seq<Request>>, base: seq<seq<Request>>)
    requires Alike(logs, base)
    ensures base != []
  {
  }

  lemma RowIff(gates: Gates, c: Compared, key: Key, cells: seq<Cell>, logs: seq<seq<Request>>, at: Key, others: seq<Cell>,
               base: seq<seq<Request>>)
    requires StandsFor(c, key, cells, logs, at, others, base)
    ensures RowPasses(gates, c) <==> Meets(gates, logs, base)
  {
    hide RowOf, AllSucceeded, Known, WithinRange, Alike, SlowerByAtMost, CachedShare, InRange, Flatten, PromptTokens,
      CachedTokens, Waits, DeltaComparable, Summarized;
    FailuresIff(key, cells, logs);
    ComparableIff(c, key, cells, logs, at, others, base);
    if gates.promptRange.Some? {
      RangeIff(key, cells, logs, gates.promptRange.value);
    }
    if gates.minCachePct.Some? {
      CacheIff(key, cells, logs, gates.minCachePct.value);
    }
    if gates.maxTtftRegressionPct.Some? {
      TtftIff(c, key, cells, logs, at, others, base, gates.maxTtftRegressionPct.value);
    }
  }

  /** The logs of the first arm at the level of a key. */
  function BaseLogs(results: seq<ArmPass>, log: Logs, key: Key): seq<seq<Request>> {
    if results == [] then [] else LogsAt(results, log, Key(results[0].arm, key.concurrency))
  }

  lemma MeasuredIff(results: seq<ArmPass>, log: Logs, key: Key)
    requires AllLogged(results, log)
    ensures Summarized(Group(results, key), LogsAt(results, log, key))
    ensures key in Keys(results) <==> LogsAt(results, log, key) != []
  {
    hide KeysIn, AllCells, CellsWith, LogsAt, Summarizes, AllLogged;
    GroupIsSummarized(results, log, key);
    KeyHasCells(AllCells(results), key);
  }

  lemma KeyIff(results: seq<ArmPass>, gates: Gates, log: Logs, key: Key)
    requires AllLogged(results, log) && results != []
    requires AllSucceeded(LogsAt(results, log, key)) && AllSucceeded(BaseLogs(results, log, key))
    ensures RowPasses(gates, PooledRow(results, key))
            <==> Meets(gates, LogsAt(results, log, key), BaseLogs(results, log, key))
  {
    hide Keys, Group, LogsAt, RowOf, RowPasses, Meets, AllLogged, AllSucceeded, CompareRow, Summarizes;
    var at := Key(results[0].arm, key.concurrency);
    MeasuredIff(results, log, key);
    MeasuredIff(results, log, at);
    RowIff(gates, PooledRow(results, key), key, Group(results, key), LogsAt(results, log, key), at, Group(results, at),
           BaseLogs(results, log, key));
  }

  lemma PassingSucceeded(results: seq<ArmPass>, gates: Gates, log: Logs, key: Key)
    requires AllLogged(results, log) && (key in Keys(results) ==> RowPasses(gates, PooledRow(results, key)))
    ensures AllSucceeded(LogsAt(results, log, key))
  {
    hide Keys, Group, LogsAt, RowOf, AllLogged, Summarizes, AllSucceeded;
    MeasuredIff(results, log, key);
    FailuresIff(key, Group(results, key), LogsAt(results, log, key));
    if LogsAt(results, log, key) == [] {
      NothingFailedAt();
    }
  }

  lemma NothingFailedAt()
    ensures AllSucceeded([])
  {
  }

  ghost predicate AllMeet(results: seq<ArmPass>, gates: Gates, log: Logs) {
    forall key :: LogsAt(results, log, key) != [] ==>
      Meets(gates, LogsAt(results, log, key), BaseLogs(results, log, key))
  }

  lemma MeetingSucceeded(results: seq<ArmPass>, gates: Gates, log: Logs, key: Key)
    requires AllMeet(results, gates, log)
    ensures AllSucceeded(LogsAt(results, log, key))
  {
    hide LogsAt, AllSucceeded;
    if LogsAt(results, log, key) == [] {
      NothingFailedAt();
    }
  }

  lemma PooledMember(results: seq<ArmPass>, gates: Gates)
    ensures (forall c :: c in Pooled(results) ==> RowPasses(gates, c))
            <==> forall key :: key in Keys(results) ==> RowPasses(gates, PooledRow(results, key))
  {
    hide RowPasses, PooledRow, Keys;
    var keys, rows := Keys(results), Pooled(results);
    if forall c :: c in rows ==> RowPasses(gates, c) {
      forall key | key in keys ensures RowPasses(gates, PooledRow(results, key)) {
        var i :| 0 <= i < |keys| && keys[i] == key;
        assert rows[i] in rows;
      }
    }
    if forall key :: key in keys ==> RowPasses(gates, PooledRow(results, key)) {
      forall c | c in rows ensures RowPasses(gates, c) {
        var i :| 0 <= i < |rows| && rows[i] == c;
        assert keys[i] in keys;
      }
    }
  }

  /**
    Exactly when the gates pass. Whatever gates are configured, all pooled rows pass if and only if the logs of every
    arm at every level that was measured meet them, against the logs of the first arm at that level.
   */
  lemma GatesPassIff(results: seq<ArmPass>, gates: Gates, log: Logs)
    requires AllLogged(results, log)
    ensures (forall c :: c in Pooled(results) ==> RowPasses(gates, c)) <==> AllMeet(results, gates, log)
  {
    hide Pooled, RowPasses, PooledRow, Keys, LogsAt, Meets, AllLogged, AllMeet, AllSucceeded;
    PooledMember(results, gates);
    if forall key :: key in Keys(results) ==> RowPasses(gates, PooledRow(results, key)) {
      PassingMeets(results, gates, log);
    }
    if AllMeet(results, gates, log) {
      MeetingPasses(results, gates, log);
    }
  }

  lemma PassingMeets(results: seq<ArmPass>, gates: Gates, log: Logs)
    requires AllLogged(results, log) && forall key :: key in Keys(results) ==> RowPasses(gates, PooledRow(results, key))
    ensures AllMeet(results, gates, log)
  {
    hide RowPasses, PooledRow, Keys, LogsAt, Meets, AllLogged, AllSucceeded;
    forall key | LogsAt(results, log, key) != []
      ensures Meets(gates, LogsAt(results, log, key), BaseLogs(results, log, key))
    {
      MeasuredIff(results, log, key);
      SomeResults(results, log, key);
      PassingSucceeded(results, gates, log, key);
      PassingSucceeded(results, gates, log, Key(results[0].arm, key.concurrency));
      KeyIff(results, gates, log, key);
    }
  }

  lemma SomeResults(results: seq<ArmPass>, log: Logs, key: Key)
    ensures LogsAt(results, log, key) != [] ==> results != []
  {
  }

  lemma MeetingPasses(results: seq<ArmPass>, gates: Gates, log: Logs)
    requires AllLogged(results, log) && AllMeet(results, gates, log)
    ensures forall key :: key in Keys(results) ==> RowPasses(gates, PooledRow(results, key))
  {
    hide RowPasses, PooledRow, Keys, LogsAt, AllLogged, AllSucceeded, AllMeet;
    forall key | key in Keys(results) ensures RowPasses(gates, PooledRow(results, key)) {
      MeasuredIff(results, log, key);
      SomeResults(results, log, key);
      MeetingSucceeded(results, gates, log, key);
      MeetingSucceeded(results, gates, log, Key(results[0].arm, key.concurrency));
      KeyIff(results, gates, log, key);
      MeetsAt(results, gates, log, key);
    }
  }

  lemma MeetsAt(results: seq<ArmPass>, gates: Gates, log: Logs, key: Key)
    requires AllMeet(results, gates, log) && LogsAt(results, log, key) != []
    ensures Meets(gates, LogsAt(results, log, key), BaseLogs(results, log, key))
  {
  }

  /**
    What output matching means for one arm at one level: the first arm was measured there too, nothing failed, something
    was answered under an identifier, every cell used each identifier once and hashed its answer, and both arms sent as
    many requests and got the same single output for the same identifiers.
   */
  ghost predicate MeetsOutput(logs: seq<seq<Request>>, base: seq<seq<Request>>) {
    base != [] && AllSucceeded(logs) && SomeIdentified(logs)
    && EachOnceAndHashed(logs)
    && |Flatten(logs)| == |Flatten(base)| && OneHashEach(logs) && SameAnswers(logs, base)
  }

  /** The output gate alone passes exactly when every measured arm and level matches the first arm in this sense. */
  lemma OutputGateIff(results: seq<ArmPass>, log: Logs)
    requires AllLogged(results, log)
    ensures (forall c :: c in Pooled(results) ==> RowPasses(Gates(None, None, true, None), c))
            <==> forall key :: LogsAt(results, log, key) != [] ==>
                   MeetsOutput(LogsAt(results, log, key), BaseLogs(results, log, key))
  {
    hide Pooled, RowPasses, LogsAt, AllLogged, AllSucceeded, SomeIdentified, EachOnceAndHashed, Flatten, OneHashEach,
      SameAnswers;
    var gates := Gates(None, None, true, None);
    GatesPassIff(results, gates, log);
    if forall key :: LogsAt(results, log, key) != [] ==>
         MeetsOutput(LogsAt(results, log, key), BaseLogs(results, log, key)) {
      forall key | LogsAt(results, log, key) != []
        ensures Meets(gates, LogsAt(results, log, key), BaseLogs(results, log, key))
      {
        SomeResults(results, log, key);
        assert MeetsOutput(LogsAt(results, log, key), BaseLogs(results, log, key));
        SameLevel(results, log, key);
      }
    }
  }

  /** The first arm's logs at a level are the logs of a measured key. */
  lemma SameLevel(results: seq<ArmPass>, log: Logs, key: Key)
    requires results != []
    ensures BaseLogs(results, log, key) == LogsAt(results, log, Key(results[0].arm, key.concurrency))
  {
  }
}
