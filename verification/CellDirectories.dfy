/**
  What a trusted cell directory holds, file by file, after any history of stopped and resumed runs: the names, the order
  in which they were written and the run that wrote them, and so what the loaders get to see.
 */
module CellDirectories {
  import opened Common
  import opened CompletionMarker
  import opened ReportLoaders

  // ---- one write after the other ------------------------------------------------------

  /** The directory after whole writes of these names, in order. */
  function Written(run: nat, names: seq<string>): Dir {
    ApplyPuts(Dir(run, map[]), WriteOps(run, names))
  }

  lemma NothingWritten(run: nat)
    ensures Written(run, []) == Dir(run, map[])
  {
  }

  lemma OneMoreWritten(run: nat, names: seq<string>, name: string)
    ensures Written(run, names + [name]) == PutFile(Written(run, names), name, Output(run, |names|))
  {
    hide ApplyPuts, WriteOps;
    var longer := names + [name];
    LastWrite(Dir(run, map[]), run, longer);
    assert longer[..|longer| - 1] == names;
  }

  /** A name written several times in a row stands for its last write. */
  lemma {:induction false} RepeatedWrites(run: nat, names: seq<string>, name: string, count: nat)
    ensures Written(run, names + Repeat(name, count))
         == if count == 0 then Written(run, names)
            else PutFile(Written(run, names), name, Output(run, |names| + count - 1))
  {
    hide Written;
    if count == 0 {
      assert names + Repeat(name, 0) == names;
    } else {
      RepeatedWrites(run, names, name, count - 1);
      assert names + Repeat(name, count) == names + Repeat(name, count - 1) + [name];
      OneMoreWritten(run, names + Repeat(name, count - 1), name);
    }
  }

  /** No output was written after the last one. */
  lemma {:induction false} LastIsLatest(run: nat, names: seq<string>)
    ensures forall name :: name in Written(run, names).files ==>
              Written(run, names).files[name].Output? && Written(run, names).files[name].step < |names|
  {
    hide Written;
    if names == [] {
      NothingWritten(run);
    } else {
      var k := |names| - 1;
      LastIsLatest(run, names[..k]);
      OneMoreWritten(run, names[..k], names[k]);
      assert names[..k] + [names[k]] == names;
    }
  }

  // ---- trace cells --------------------------------------------------------------------

  /** The groups of requests after each of which the records so far are written. */
  ghost predicate WaveCount(n: nat, prompts: nat, concurrency: nat) {
    if concurrency == 0 || prompts == 0 then n == 0
    else n > 0 && (n - 1) * concurrency < prompts <= n * concurrency
  }

  lemma CeilIsWaveCount(prompts: nat, concurrency: nat)
    ensures concurrency > 0 ==> CeilDiv(prompts, concurrency) >= 0
    ensures WaveCount(if concurrency == 0 then 0 else CeilDiv(prompts, concurrency), prompts, concurrency)
  {
    if concurrency > 0 {
      var x := prompts + concurrency - 1;
      var n := CeilDiv(prompts, concurrency);
      assert x == concurrency * n + x % concurrency;
      if prompts == 0 {
        DivModUnique(concurrency, x, 0, concurrency - 1);
      } else {
        Smallest(prompts, concurrency, n, x % concurrency);
      }
    }
  }

  lemma Smallest(prompts: nat, concurrency: nat, n: int, rest: int)
    requires concurrency > 0 && prompts > 0 && 0 <= rest < concurrency
    requires prompts + concurrency - 1 == concurrency * n + rest
    ensures n > 0 && (n - 1) * concurrency < prompts <= n * concurrency
  {
    MultipleBound(concurrency, n - 1);
    assert concurrency * (n - 1) == concurrency * n - concurrency;
  }

  /** Every file of a finished trace cell: who wrote it, and in which place of the order of writes. */
  ghost predicate IsTraceDirectory(hash: Hash, dir: Dir, cell: CellId, n: nat) {
    dir.files == (map[
      "stage.json" := Output(dir.run, 0),
      "server-command.json" := Output(dir.run, 1),
      "server.log" := Output(dir.run, 2),
      "requests.json" := Output(dir.run, n + 3),
      "result.json" := Output(dir.run, n + 4),
      "complete.json" := Marker(dir.run, hash(cell), cell)
    ] + if n == 0 then map[] else map["requests.partial.json" := Output(dir.run, n + 2)])
  }

  lemma OpeningFiles(run: nat)
    ensures Written(run, ["stage.json", "server-command.json", "server.log"])
         == Dir(run, map["stage.json" := Output(run, 0), "server-command.json" := Output(run, 1),
                         "server.log" := Output(run, 2)])
  {
    hide Written;
    NothingWritten(run);
    OneMoreWritten(run, [], "stage.json");
    OneMoreWritten(run, ["stage.json"], "server-command.json");
    OneMoreWritten(run, ["stage.json", "server-command.json"], "server.log");
    assert [] + ["stage.json"] == ["stage.json"];
    assert ["stage.json"] + ["server-command.json"] == ["stage.json", "server-command.json"];
    assert ["stage.json", "server-command.json"] + ["server.log"] == ["stage.json", "server-command.json", "server.log"];
  }

  lemma TraceFiles(hash: Hash, cell: CellId, run: nat) returns (n: nat)
    requires cell.place.TracePlace?
    ensures WaveCount(n, cell.promptCount, cell.place.concurrency)
    ensures FullDir(hash, cell, run).run == run && IsTraceDirectory(hash, FullDir(hash, cell, run), cell, n)
  {
    hide Written, FullDir;
    CeilIsWaveCount(cell.promptCount, cell.place.concurrency);
    n := if cell.place.concurrency == 0 then 0 else CeilDiv(cell.promptCount, cell.place.concurrency);
    assert Outputs(cell) == TraceNames(n);
    FullIsWrittenAndMarked(hash, cell, run);
    TraceWrites(run, n);
  }

  function TraceNames(n: nat): seq<string> {
    ["stage.json", "server-command.json", "server.log"] + Repeat("requests.partial.json", n)
    + ["requests.json", "result.json"]
  }

  lemma TraceWrites(run: nat, n: nat)
    ensures Written(run, TraceNames(n))
         == Dir(run, map["stage.json" := Output(run, 0), "server-command.json" := Output(run, 1),
                         "server.log" := Output(run, 2), "requests.json" := Output(run, n + 3),
                         "result.json" := Output(run, n + 4)]
                     + if n == 0 then map[] else map["requests.partial.json" := Output(run, n + 2)])
  {
    hide Written, Repeat;
    var opening := ["stage.json", "server-command.json", "server.log"];
    var partial := opening + Repeat("requests.partial.json", n);
    RepeatLength("requests.partial.json", n);
    OpeningFiles(run);
    RepeatedWrites(run, opening, "requests.partial.json", n);
    OneMoreWritten(run, partial, "requests.json");
    OneMoreWritten(run, partial + ["requests.json"], "result.json");
    assert TraceNames(n) == partial + ["requests.json"] + ["result.json"];
  }

  lemma RepeatLength(name: string, count: nat)
    ensures |Repeat(name, count)| == count
  {
  }

  lemma FullIsWrittenAndMarked(hash: Hash, cell: CellId, run: nat)
    ensures FullDir(hash, cell, run) == PutFile(Written(run, Outputs(cell)), MARKER, Marker(run, hash(cell), cell))
  {
  }

  /**
    After every history, a trace directory that the loader trusts holds exactly the files of one execution: the opening
    files, the partial records if there was a group, the records, then the result, then the marker for that place.
   */
  lemma TrustedTraceDirectory(hash: Hash, calls: seq<Call>, place: Place) returns (n: nat)
    requires place.TracePlace? && place in RunCalls(hash, EMPTY, calls).live
    requires TrustedCell(place, RunCalls(hash, EMPTY, calls).live[place], hash).Some?
    ensures var dir := RunCalls(hash, EMPTY, calls).live[place];
            var cell := TrustedCell(place, dir, hash).value;
            WaveCount(n, cell.promptCount, place.concurrency) && IsTraceDirectory(hash, dir, cell, n)
            && cell.place == place && dir.run < |calls| && calls[dir.run].cell == cell
            && calls[dir.run].budget >= 2 * (n + 5) + 3
  {
    hide FullDir, IsTraceDirectory, WaveCount, Outputs, CellOps, WriteOps;
    LoadedRowsAreComplete(hash, calls, place);
    var dir := RunCalls(hash, EMPTY, calls).live[place];
    var cell := TrustedCell(place, dir, hash).value;
    n := TraceFiles(hash, cell, dir.run);
    TraceOpsCount(hash, cell, dir.run, n);
  }

  lemma TraceOpsCount(hash: Hash, cell: CellId, run: nat, n: nat)
    requires cell.place.TracePlace? && WaveCount(n, cell.promptCount, cell.place.concurrency)
    ensures |CellOps(hash, cell, run)| == 2 * (n + 5) + 3
  {
    CellOpsPrefix(hash, EMPTY, cell, run, 0);
    WriteOpsLength(run, Outputs(cell));
    var m := if cell.place.concurrency == 0 then 0 else CeilDiv(cell.promptCount, cell.place.concurrency);
    CeilIsWaveCount(cell.promptCount, cell.place.concurrency);
    assert |Outputs(cell)| == m + 5;
    hide Outputs, WriteOps, CellOps;
    OneWaveCount(m, n, cell.promptCount, cell.place.concurrency);
  }

  lemma OneWaveCount(m: nat, n: nat, prompts: nat, concurrency: nat)
    requires WaveCount(m, prompts, concurrency) && WaveCount(n, prompts, concurrency)
    ensures m == n
  {
    if concurrency > 0 && prompts > 0 {
      MultipleBound(concurrency, m - n);
      MultipleBound(concurrency, n - m);
      assert concurrency * (m - n) == m * concurrency - n * concurrency;
    }
  }

  /** One row of the result for this place, and no second one. */
  ghost predicate OneRowFor(rows: seq<Row>, place: Place, source: File) {
    exists i :: 0 <= i < |rows| && rows[i] == Row(place, source)
                && forall j :: 0 <= j < |rows| && rows[j].place == place ==> j == i
  }

  /** What the loader returns after any history: exactly one row for every trusted trace directory, its result. */
  lemma OneRowPerTrustedCell(hash: Hash, calls: seq<Call>, places: seq<Place>, rows: seq<Row>, place: Place)
    returns (n: nat)
    requires var store := RunCalls(hash, EMPTY, calls);
             AreTraceRows(store, places, hash, rows) && Distinct(places)
             && place in places && place.TracePlace? && place in store.live
             && TrustedCell(place, store.live[place], hash).Some?
    ensures var dir := RunCalls(hash, EMPTY, calls).live[place];
            OneRowFor(rows, place, Output(dir.run, n + 4))
            && WaveCount(n, TrustedCell(place, dir, hash).value.promptCount, place.concurrency)
  {
    hide RunCalls, TrustedCell, WaveCount;
    n := TrustedTraceDirectory(hash, calls, place);
    var store := RunCalls(hash, EMPTY, calls);
    var dir := store.live[place];
    var row := Row(place, Output(dir.run, n + 4));
    assert dir.files["result.json"] == row.source;
    assert row in rows;
    var i :| 0 <= i < |rows| && rows[i] == row;
    forall j | 0 <= j < |rows| && rows[j].place == place ensures j == i {
      assert rows[j] in rows;
      assert rows[j] == row;
    }
  }

  // ---- data cells -------------------------------------------------------------------------

  /** The text of a pair's file names. */
  function PairName(t: nat, c: nat, suffix: string): string {
    "tg-" + Decimal(t) + "-c-" + Decimal(c) + suffix
  }

  /** The names of a finished synthetic cell: the fixed ones, and four for each configured pair. */
  ghost predicate IsDataName(cell: CellId, name: string) {
    name in {"stage.json", "server-command.json", "server.log", "warmup.out", "parity.json", "complete.json"}
    || exists t: nat, c: nat :: IsPairName(cell, name, t, c)
  }

  ghost predicate IsPairName(cell: CellId, name: string, t: nat, c: nat) {
    t in cell.config.outputTokens && c in cell.config.concurrency
    && (name == PairName(t, c, ".out") || name == PairName(t, c, ".json")
        || name == PairName(t, c, "-progress.jsonl") || name == "status.tsv")
  }

  lemma DataNames(cell: CellId, name: string)
    requires cell.place.DataPlace?
    ensures IsDataName(cell, name) <==> name == MARKER || name in Outputs(cell)
  {
    hide PairName, IsPairName;
    var tokens, concurrency := cell.config.outputTokens, cell.config.concurrency;
    if name in SyntheticFiles(tokens, concurrency) {
      WrittenIsPair(tokens, concurrency, name);
      var t: nat, c: nat :| t in tokens && c in concurrency && name in PairFiles(t, c);
      PairNames(cell, name, t, c);
    }
    if t: nat, c: nat :| IsPairName(cell, name, t, c) {
      assert t in tokens && c in concurrency by {
        PairNames(cell, name, t, c);
      }
      PairNames(cell, name, t, c);
      AllWritten(tokens, concurrency, t, c, name);
    }
  }

  lemma PairNames(cell: CellId, name: string, t: nat, c: nat)
    ensures IsPairName(cell, name, t, c)
            <==> t in cell.config.outputTokens && c in cell.config.concurrency && name in PairFiles(t, c)
  {
  }

  lemma AllWritten(tokens: seq<nat>, concurrency: seq<nat>, t: nat, c: nat, name: string)
    requires t in tokens && c in concurrency && name in PairFiles(t, c)
    ensures name in SyntheticFiles(tokens, concurrency)
  {
    hide PairFiles;
    var rows := MapSeq((k: nat) => RowFiles(k, concurrency), tokens);
    var pairs := MapSeq((k: nat) => PairFiles(t, k), concurrency);
    var i :| 0 <= i < |tokens| && tokens[i] == t;
    var j :| 0 <= j < |concurrency| && concurrency[j] == c;
    FlattenMember(pairs, name);
    assert rows[i] == RowFiles(t, concurrency);
    FlattenMember(rows, name);
  }

  /**
    After every history, a synthetic directory that the loader trusts holds exactly the named files, each whole and of
    the run of the marker, and the parity file was written last.
   */
  lemma TrustedDataDirectory(hash: Hash, calls: seq<Call>, place: Place)
    requires place.DataPlace? && place in RunCalls(hash, EMPTY, calls).live
    requires TrustedCell(place, RunCalls(hash, EMPTY, calls).live[place], hash).Some?
    ensures var dir := RunCalls(hash, EMPTY, calls).live[place];
            var cell := TrustedCell(place, dir, hash).value;
            (forall name :: name in dir.files <==> IsDataName(cell, name))
            && (forall name :: name in dir.files && name != "complete.json" ==>
                  "parity.json" in dir.files && dir.files["parity.json"].Output? && dir.files[name].Output?
                  && dir.files[name].run == dir.run && dir.files[name].step <= dir.files["parity.json"].step)
  {
    hide FullDir, IsDataName, Outputs, RunCalls, RanToEnd, TrustedCell;
    LoadedRowsAreComplete(hash, calls, place);
    var dir := RunCalls(hash, EMPTY, calls).live[place];
    var cell := TrustedCell(place, dir, hash).value;
    forall name ensures name in dir.files <==> IsDataName(cell, name) {
      DataNames(cell, name);
    }
    ParityIsLast(hash, cell, dir.run);
  }

  lemma ParityIsLast(hash: Hash, cell: CellId, run: nat)
    requires cell.place.DataPlace?
    ensures var files := FullDir(hash, cell, run).files;
            "parity.json" in files && files["parity.json"].Output?
            && forall name :: name in files && files[name].Output? ==> files[name].step <= files["parity.json"].step
  {
    var before := ["stage.json", "server-command.json", "server.log", "warmup.out"]
                  + SyntheticFiles(cell.config.outputTokens, cell.config.concurrency);
    assert Outputs(cell) == before + ["parity.json"];
    FullIsWrittenAndMarked(hash, cell, run);
    hide Written, SyntheticFiles, FullDir, Outputs;
    OneMoreWritten(run, before, "parity.json");
    LastIsLatest(run, before);
  }

  // ---- markers that no run wrote -----------------------------------------------------------------

  /**
    In any directory at all, also one that was copied or edited: it is trusted for a place exactly when its marker was
    sealed with the hash of the cell in it and that cell is for the place.
   */
  lemma TrustMeans(place: Place, dir: Dir, hash: Hash, cell: CellId)
    ensures TrustedCell(place, dir, hash) == Some(cell)
            <==> "complete.json" in dir.files
                 && dir.files["complete.json"] == Marker(dir.files["complete.json"].run, hash(cell), cell)
                 && cell.place == place
  {
  }

  /** In any store at all: a call skips exactly when it resumes and finds the sealed marker of its own cell. */
  lemma SkipMeans(store: Store, hash: Hash, call: Call)
    requires Injective(hash)
    ensures Skips(store, hash, call)
            <==> call.resume && call.cell.place in store.live && "complete.json" in store.live[call.cell.place].files
                 && var marker := store.live[call.cell.place].files["complete.json"];
                    marker == Marker(marker.run, hash(call.cell), call.cell)
  {
  }

  // ---- which calls skip, and what the others leave -----------------------------------------------

  /** A call skips exactly when it resumes and the live marker is for that very cell. */
  lemma SkipsIff(hash: Hash, calls: seq<Call>, call: Call)
    requires Injective(hash)
    ensures var store := RunCalls(hash, EMPTY, calls);
            Skips(store, hash, call)
            <==> call.resume && call.cell.place in store.live && "complete.json" in store.live[call.cell.place].files
                 && store.live[call.cell.place].files["complete.json"].Marker?
                 && store.live[call.cell.place].files["complete.json"].cell == call.cell
  {
    EveryHistoryIsGood(hash, calls);
    var store := RunCalls(hash, EMPTY, calls);
    if call.cell.place in store.live {
      MarkerIsSelfConsistent(hash, store.live[call.cell.place], call.cell.place, |calls|);
    }
  }

  lemma MarkerIsSelfConsistent(hash: Hash, dir: Dir, place: Place, runs: nat)
    requires GoodDir(hash, dir, place, runs)
    ensures MARKER in dir.files ==>
              dir.files[MARKER].Marker? && dir.files[MARKER].sha == hash(dir.files[MARKER].cell)
  {
  }

  /**
    A call that does not resume and is not stopped leaves its own directory, trusted as its cell, and what was there
    stands in quarantine whole.
   */
  lemma FinishedCellIsTrusted(hash: Hash, calls: seq<Call>, call: Call)
    requires Injective(hash) && call.budget >= |CellOps(hash, call.cell, |calls|)|
    ensures var before, after := RunCalls(hash, EMPTY, calls), RunCalls(hash, EMPTY, calls + [call]);
            var place := call.cell.place;
            place in after.live && TrustedCell(place, after.live[place], hash) == Some(call.cell)
            && (!call.resume ==>
                  after.live[place].run == |calls|
                  && (place in before.live ==>
                        Held(|calls|, place) in after.quarantine
                        && after.quarantine[Held(|calls|, place)] == before.live[place]))
  {
    hide CellOps, FullDir, Good;
    var n, place := |calls|, call.cell.place;
    var before := RunCalls(hash, EMPTY, calls);
    assert (calls + [call])[..n] == calls;
    EveryHistoryIsGood(hash, calls);
    SkipsIff(hash, calls, call);
    if Skips(before, hash, call) {
    } else {
      PrefixIsGood(hash, before, call.cell, n, |CellOps(hash, call.cell, n)|);
      FullDirIsTrusted(hash, call.cell, n);
      if place in before.live {
        NothingIsLost(hash, before, call, n, place);
        OlderRun(hash, before, n, place);
      }
    }
  }

  lemma FullDirIsTrusted(hash: Hash, cell: CellId, run: nat)
    ensures TrustedCell(cell.place, FullDir(hash, cell, run), hash) == Some(cell) && FullDir(hash, cell, run).run == run
  {
    LoneRun(run, Outputs(cell));
  }

  lemma LoneRun(run: nat, names: seq<string>)
    ensures Written(run, names).run == run
  {
    FullDirIsWhole(Dir(run, map[]), run, names);
  }

  lemma OlderRun(hash: Hash, store: Store, runs: nat, place: Place)
    requires Good(hash, store, runs) && place in store.live
    ensures store.live[place].run < runs
  {
  }
}
