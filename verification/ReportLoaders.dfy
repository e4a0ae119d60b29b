/**
  The report loaders of the competitive matrix. They see only files, and trust a directory by its marker; this module
  proves what that trust is worth after any history of stopped and resumed runs.
 */
module ReportLoaders {
  import opened Common
  import opened CompletionMarker

  datatype Row = Row(place: Place, source: File)

  /** The loader's test of a directory: a self-consistent marker whose fields agree with the path. */
  function TrustedCell(place: Place, dir: Dir, hash: Hash): Option<CellId> {
    match CompletedCell(dir, hash)
    case Some(cell) => if cell.place == place then Some(cell) else None
    case None => None
  }

  /** The results of the trusted trace directories among these places, and nothing else; once each for distinct places. */
  ghost predicate AreTraceRows(store: Store, places: seq<Place>, hash: Hash, rows: seq<Row>) {
    (Distinct(places) ==> Distinct(rows))
    && forall row :: row in rows <==>
         row.place in places && row.place.TracePlace? && row.place in store.live
         && "result.json" in store.live[row.place].files
         && TrustedCell(row.place, store.live[row.place], hash).Some?
         && row.source == store.live[row.place].files["result.json"]
  }

  /** `load_trace_rows`: one row per trace directory whose `result.json` exists and whose marker is trusted. */
  method LoadTraceRows(store: Store, places: seq<Place>, hash: Hash) returns (rows: seq<Row>)
    ensures AreTraceRows(store, places, hash, rows)
  {
    rows := [];
    for i := 0 to |places|
      invariant forall row :: row in rows <==>
                  row.place in places[..i] && row.place.TracePlace? && row.place in store.live
                  && "result.json" in store.live[row.place].files
                  && TrustedCell(row.place, store.live[row.place], hash).Some?
                  && row.source == store.live[row.place].files["result.json"]
      invariant Distinct(places) ==> Distinct(rows)
    {
      var place := places[i];
      if place.TracePlace? && place in store.live && "result.json" in store.live[place].files {
        if TrustedCell(place, store.live[place], hash).Some? {
          rows := rows + [Row(place, store.live[place].files["result.json"])];
        }
      }
    }
    assert places[..|places|] == places;
  }

  /**
    Loaded rows come only from the final result of a full, single execution: a call of the history for the cell that
    the marker and the path name, which ran to its end, wrote the directory.
   */
  lemma {:induction false} LoadedRowsAreComplete(hash: Hash, calls: seq<Call>, place: Place)
    requires var store := RunCalls(hash, EMPTY, calls);
             place in store.live && TrustedCell(place, store.live[place], hash).Some?
    ensures var store := RunCalls(hash, EMPTY, calls);
            var cell := TrustedCell(place, store.live[place], hash).value;
            cell.place == place && store.live[place] == FullDir(hash, cell, store.live[place].run)
            && RanToEnd(hash, calls, store.live[place].run, cell)
    ensures var dir := RunCalls(hash, EMPTY, calls).live[place];
            Whole(dir)
            && forall name :: name in dir.files <==>
                 name == MARKER || name in Outputs(TrustedCell(place, dir, hash).value)
  {
    EveryHistoryIsGood(hash, calls);
    EveryDirectoryIsTraced(hash, calls);
    var dir := RunCalls(hash, EMPTY, calls).live[place];
    assert Traced(hash, calls, place, dir);
    hide RanToEnd;
    var cell := dir.files[MARKER].cell;
    assert dir == FullDir(hash, cell, dir.run);
    FullDirIsWhole(Dir(dir.run, map[]), dir.run, Outputs(cell));
    var outputs := ApplyPuts(Dir(dir.run, map[]), WriteOps(dir.run, Outputs(cell)));
    assert dir == PutFile(outputs, MARKER, Marker(dir.run, hash(cell), cell));
  }

  /** Beside the marker there are only complete outputs of the run that owns the directory. */
  ghost predicate Whole(dir: Dir) {
    forall name :: name in dir.files && name != MARKER ==> dir.files[name].Output? && dir.files[name].run == dir.run
  }

  /** After all writes of a run every output is present and whole. */
  lemma {:induction false} FullDirIsWhole(dir: Dir, run: nat, names: seq<string>)
    requires Whole(dir) && dir.run == run
    ensures var after := ApplyPuts(dir, WriteOps(run, names));
            Whole(after) && after.run == run
            && (forall name :: name in after.files <==> name in dir.files || name in names)
  {
    if names == [] {
      assert ApplyPuts(dir, []) == dir;
    } else {
      hide ApplyPuts, WriteOps;
      var k := |names| - 1;
      FullDirIsWhole(dir, run, names[..k]);
      LastWrite(dir, run, names);
      assert names == names[..k] + [names[k]];
    }
  }

  lemma LastWrite(dir: Dir, run: nat, names: seq<string>)
    requires names != []
    ensures var k := |names| - 1;
            ApplyPuts(dir, WriteOps(run, names))
            == PutFile(PutFile(ApplyPuts(dir, WriteOps(run, names[..k])), names[k], Torn(run)), names[k], Output(run, k))
  {
    var k := |names| - 1;
    var before, ops := WriteOps(run, names[..k]), WriteOps(run, names);
    var torn := before + [Put(names[k], Torn(run))];
    assert ops[..|ops| - 1] == torn && torn[..|torn| - 1] == before;
  }

  // ---- the file names of a synthetic cell ---------------------------------------------------

  function DigitRun(s: string): (n: nat)
    ensures n <= |s|
  {
    if s == [] || !('0' <= s[0] <= '9') then 0 else 1 + DigitRun(s[1..])
  }

  /** The match of `tg-(\d+)-c-(\d+)\.json$` against a whole file name. */
  function ParseCell(name: string): Option<(int, int)> {
    if !("tg-" <= name) then None
    else
      var rest := name[3..];
      var n := DigitRun(rest);
      if n == 0 || !("-c-" <= rest[n..]) then None
      else
        var tail := rest[n..][3..];
        var m := DigitRun(tail);
        if m == 0 || tail[m..] != ".json" then None else Some((ParseDecimal(rest[..n]), ParseDecimal(tail[..m])))
  }

  lemma {:induction false} DigitRunOf(digits: string, rest: string)
    requires forall c :: c in digits ==> '0' <= c <= '9'
    requires rest == [] || !('0' <= rest[0] <= '9')
    ensures DigitRun(digits + rest) == |digits|
    ensures (digits + rest)[..|digits|] == digits && (digits + rest)[|digits|..] == rest
  {
    if digits == [] {
      assert digits + rest == rest;
    } else {
      assert digits[0] in digits && (digits + rest)[0] == digits[0];
      assert (digits + rest)[1..] == digits[1..] + rest;
      assert forall c :: c in digits[1..] ==> c in digits;
      DigitRunOf(digits[1..], rest);
    }
  }

  /** A name that starts with the stem of a pair is read as that pair if it continues with `.json`, and not otherwise. */
  lemma ParseOfStem(tokens: nat, concurrency: nat, suffix: string)
    requires suffix == [] || !('0' <= suffix[0] <= '9')
    ensures ParseCell(Stem(tokens, concurrency) + suffix)
         == if suffix == ".json" then Some((tokens, concurrency)) else None
  {
    var t, c := Decimal(tokens), Decimal(concurrency);
    DecimalRoundTrip(tokens);
    DecimalRoundTrip(concurrency);
    hide Decimal, ParseDecimal, DigitRun;
    var tail := c + suffix;
    var middle := "-c-" + tail;
    var rest := t + middle;
    Regroup("tg-", t, "-c-", c, suffix);
    DigitRunOf(t, middle);
    DigitRunOf(c, suffix);
    Behind("tg-", rest);
    Behind("-c-", tail);
  }

  lemma Regroup(a: string, b: string, c: string, d: string, e: string)
    ensures a + b + c + d + e == a + (b + (c + (d + e)))
  {
  }

  lemma Behind(prefix: string, rest: string)
    ensures prefix <= prefix + rest && (prefix + rest)[|prefix|..] == rest
  {
  }

  /** Of the four files that a pair writes, only its result is read as a measurement of that pair. */
  lemma PairIsParsed(tokens: nat, concurrency: nat, name: string)
    requires name in PairFiles(tokens, concurrency)
    ensures ParseCell(name) == if name == Stem(tokens, concurrency) + ".json" then Some((tokens, concurrency)) else None
  {
    hide ParseCell, Stem;
    ParseOfStem(tokens, concurrency, ".out");
    ParseOfStem(tokens, concurrency, ".json");
    ParseOfStem(tokens, concurrency, "-progress.jsonl");
    assert ParseCell("status.tsv") == None by {
      assert "status.tsv"[0] == 's';
      NotACell("status.tsv");
    }
  }

  lemma NotACell(name: string)
    requires !("tg-" <= name)
    ensures ParseCell(name) == None
  {
  }

  lemma PairIsWritten(tokens: seq<nat>, concurrency: seq<nat>, t: nat, c: nat)
    requires t in tokens && c in concurrency
    ensures Stem(t, c) + ".json" in SyntheticFiles(tokens, concurrency)
  {
    var name := Stem(t, c) + ".json";
    var rows := MapSeq((k: nat) => RowFiles(k, concurrency), tokens);
    var pairs := MapSeq((k: nat) => PairFiles(t, k), concurrency);
    var i :| 0 <= i < |tokens| && tokens[i] == t;
    var j :| 0 <= j < |concurrency| && concurrency[j] == c;
    assert PairFiles(t, c)[1] == name && pairs[j] == PairFiles(t, c);
    FlattenMember(pairs, name);
    assert rows[i] == RowFiles(t, concurrency);
    FlattenMember(rows, name);
  }

  lemma WrittenIsPair(tokens: seq<nat>, concurrency: seq<nat>, name: string)
    requires name in SyntheticFiles(tokens, concurrency)
    ensures exists t: nat, c: nat :: t in tokens && c in concurrency && name in PairFiles(t, c)
  {
    var rows := MapSeq((k: nat) => RowFiles(k, concurrency), tokens);
    FlattenMember(rows, name);
    var i :| 0 <= i < |rows| && name in rows[i];
    var pairs := MapSeq((k: nat) => PairFiles(tokens[i], k), concurrency);
    FlattenMember(pairs, name);
    var j :| 0 <= j < |pairs| && name in pairs[j];
    assert tokens[i] in tokens && concurrency[j] in concurrency && name in PairFiles(tokens[i], concurrency[j]);
  }

  /** The measurements that the written names stand for are exactly the configured pairs. */
  lemma OutputsAreTheMatrix(cell: CellId, name: string, t: nat, c: nat)
    requires cell.place.DataPlace?
    ensures name in Outputs(cell) && ParseCell(name) == Some((t, c)) ==>
              t in cell.config.outputTokens && c in cell.config.concurrency && name == Stem(t, c) + ".json"
    ensures t in cell.config.outputTokens && c in cell.config.concurrency ==>
              Stem(t, c) + ".json" in Outputs(cell) && ParseCell(Stem(t, c) + ".json") == Some((t, c))
  {
    hide ParseCell, Outputs, SyntheticFiles, Stem, PairFiles;
    var tokens, concurrency := cell.config.outputTokens, cell.config.concurrency;
    ParseOfStem(t, c, ".json");
    if t in tokens && c in concurrency {
      PairIsWritten(tokens, concurrency, t, c);
      SyntheticOutput(cell, Stem(t, c) + ".json");
    }
    if name in Outputs(cell) && ParseCell(name) == Some((t, c)) {
      SyntheticOutput(cell, name);
      WrittenIsPair(tokens, concurrency, name);
      var u: nat, d: nat :| u in tokens && d in concurrency && name in PairFiles(u, d);
      PairIsParsed(u, d, name);
    }
  }

  /** Every output that reads as a measurement comes from the loops over the pairs, and their outputs all count. */
  lemma SyntheticOutput(cell: CellId, name: string)
    requires cell.place.DataPlace?
    ensures name in Outputs(cell) && ParseCell(name).Some? ==>
              name in SyntheticFiles(cell.config.outputTokens, cell.config.concurrency)
    ensures name in SyntheticFiles(cell.config.outputTokens, cell.config.concurrency) ==> name in Outputs(cell)
  {
    hide SyntheticFiles, ParseCell;
    if name in ["stage.json", "server-command.json", "server.log"] || name in ["warmup.out"] || name in ["parity.json"] {
      assert name[0] == 's' || name[0] == 'w' || name[0] == 'p';
      NotACell(name);
    }
  }

  // ---- the loader of synthetic rows -----------------------------------------------------------

  /** One measurement: the pair read from the file name, and the file. */
  datatype Measurement = Measurement(place: Place, tokens: int, concurrency: int, source: File)

  ghost predicate Measured(store: Store, arms: set<string>, hash: Hash, place: Place, m: Measurement) {
    m.place == place && place.DataPlace? && place.arm in arms && place in store.live
    && TrustedCell(place, store.live[place], hash).Some?
    && exists name :: name in store.live[place].files && ParseCell(name) == Some((m.tokens, m.concurrency))
                      && m.source == store.live[place].files[name]
  }

  /** No two file names of the directory are read as the same pair. */
  ghost predicate OneNamePerPair(files: map<string, File>) {
    forall m, n :: m in files && n in files && ParseCell(m).Some? && ParseCell(m) == ParseCell(n) ==> m == n
  }

  /** The trusted directories among these places have unambiguous file names. */
  ghost predicate Unambiguous(store: Store, places: seq<Place>, hash: Hash) {
    forall place ::
      place in places && place in store.live && TrustedCell(place, store.live[place], hash).Some? ==>
        OneNamePerPair(store.live[place].files)
  }

  /** One row per result file of every trusted arm directory with a known arm name. */
  method LoadSyntheticRows(store: Store, places: seq<Place>, arms: set<string>, hash: Hash)
    returns (rows: seq<Measurement>)
    ensures forall m :: m in rows <==> m.place in places && Measured(store, arms, hash, m.place, m)
    ensures Distinct(places) && Unambiguous(store, places, hash) ==> Distinct(rows)
  {
    hide ParseCell, TrustedCell, OneNamePerPair;
    rows := [];
    for i := 0 to |places|
      invariant forall m :: m in rows <==> m.place in places[..i] && Measured(store, arms, hash, m.place, m)
      invariant Distinct(places) && Unambiguous(store, places, hash) ==> Distinct(rows)
    {
      var place := places[i];
      ghost var before := rows;
      if place.DataPlace? && place.arm in arms && place in store.live {
        if TrustedCell(place, store.live[place], hash).Some? {
          var more := LoadArm(place, store.live[place].files);
          if Distinct(places) && Unambiguous(store, places, hash) {
            forall m | m in rows ensures m !in more {
              assert m.place in places[..i];
            }
            DistinctConcat(rows, more);
          }
          rows := rows + more;
        }
      }
      assert forall m :: m in rows <==> m in before || Measured(store, arms, hash, place, m);
    }
    assert places[..|places|] == places;
  }

  method LoadArm(place: Place, files: map<string, File>) returns (rows: seq<Measurement>)
    ensures forall m :: m in rows <==>
              m.place == place
              && exists name :: name in files && ParseCell(name) == Some((m.tokens, m.concurrency)) && m.source == files[name]
    ensures OneNamePerPair(files) ==> Distinct(rows)
  {
    hide ParseCell;
    rows := [];
    var pending := files.Keys;
    while pending != {}
      invariant pending <= files.Keys
      invariant forall m :: m in rows <==>
                  m.place == place
                  && exists name :: name in files && name !in pending
                       && ParseCell(name) == Some((m.tokens, m.concurrency)) && m.source == files[name]
      invariant OneNamePerPair(files) ==> Distinct(rows)
      decreases |pending|
    {
      var name :| name in pending;
      ghost var before := rows;
      var pair := ParseCell(name);
      if pair.Some? {
        rows := rows + [Measurement(place, pair.value.0, pair.value.1, files[name])];
      }
      pending := pending - {name};
      assert forall m :: m in rows <==>
        m in before || (pair.Some? && m == Measurement(place, pair.value.0, pair.value.1, files[name]));
    }
  }

  /**
    After any history, the loaded measurements of a trusted arm are the configured matrix: one whole result, written by
    the execution that the marker stands for, for every configured pair, and nothing else.
   */
  lemma {:induction false} SyntheticRowsAreTheMatrix(hash: Hash, calls: seq<Call>, arms: set<string>, place: Place,
                                                     t: nat, c: nat)
    requires place.DataPlace? && place.arm in arms && place in RunCalls(hash, EMPTY, calls).live
    requires TrustedCell(place, RunCalls(hash, EMPTY, calls).live[place], hash).Some?
    ensures var store := RunCalls(hash, EMPTY, calls);
            var config := TrustedCell(place, store.live[place], hash).value.config;
            (exists m :: Measured(store, arms, hash, place, m) && m.tokens == t && m.concurrency == c)
            <==> t in config.outputTokens && c in config.concurrency
    ensures var store := RunCalls(hash, EMPTY, calls);
            forall m, n :: Measured(store, arms, hash, place, m) && Measured(store, arms, hash, place, n)
                           && m.tokens == n.tokens == t && m.concurrency == n.concurrency == c ==>
                             m == n && m.source.Output? && m.source.run == store.live[place].run
  {
    LoadedRowsAreComplete(hash, calls, place);
    hide RunCalls, FullDir;
    var store := RunCalls(hash, EMPTY, calls);
    DirIsTheMatrix(hash, store, arms, place, t, c);
  }

  lemma {:induction false} DirIsTheMatrix(hash: Hash, store: Store, arms: set<string>, place: Place, t: nat, c: nat)
    requires place.DataPlace? && place.arm in arms && place in store.live
    requires TrustedCell(place, store.live[place], hash).Some?
    requires TrustedCell(place, store.live[place], hash).value.place == place
    requires Whole(store.live[place])
    requires forall name :: name in store.live[place].files <==>
               name == MARKER || name in Outputs(TrustedCell(place, store.live[place], hash).value)
    ensures var config := TrustedCell(place, store.live[place], hash).value.config;
            (exists m :: Measured(store, arms, hash, place, m) && m.tokens == t && m.concurrency == c)
            <==> t in config.outputTokens && c in config.concurrency
    ensures forall m, n :: Measured(store, arms, hash, place, m) && Measured(store, arms, hash, place, n)
                           && m.tokens == n.tokens == t && m.concurrency == n.concurrency == c ==>
                             m == n && m.source.Output? && m.source.run == store.live[place].run
  {
    hide ParseCell, Outputs, Stem, TrustedCell;
    var files, cell := store.live[place].files, TrustedCell(place, store.live[place], hash).value;
    MarkerIsNoCell();
    forall name | name in files && ParseCell(name) == Some((t, c))
      ensures t in cell.config.outputTokens && c in cell.config.concurrency && name == Stem(t, c) + ".json"
      ensures files[name].Output? && files[name].run == store.live[place].run
    {
      OutputsAreTheMatrix(cell, name, t, c);
    }
    if t in cell.config.outputTokens && c in cell.config.concurrency {
      var name := Stem(t, c) + ".json";
      OutputsAreTheMatrix(cell, name, t, c);
      assert Measured(store, arms, hash, place, Measurement(place, t, c, files[name]));
    }
  }

  /** After any history the file names of a trusted arm directory are unambiguous, so its rows are loaded once each. */
  lemma {:induction false} TrustedNamesAreUnambiguous(hash: Hash, calls: seq<Call>, place: Place)
    requires place.DataPlace? && place in RunCalls(hash, EMPTY, calls).live
    requires TrustedCell(place, RunCalls(hash, EMPTY, calls).live[place], hash).Some?
    ensures OneNamePerPair(RunCalls(hash, EMPTY, calls).live[place].files)
  {
    LoadedRowsAreComplete(hash, calls, place);
    hide RunCalls, FullDir, ParseCell, Outputs, TrustedCell, RanToEnd;
    var dir := RunCalls(hash, EMPTY, calls).live[place];
    var cell := TrustedCell(place, dir, hash).value;
    MarkerIsNoCell();
    forall m, n | m in dir.files && n in dir.files && ParseCell(m).Some? && ParseCell(m) == ParseCell(n) ensures m == n {
      NameOfPair(cell, m);
      NameOfPair(cell, n);
    }
  }

  /** An output that reads as a pair is the result file of that pair. */
  lemma NameOfPair(cell: CellId, name: string)
    requires cell.place.DataPlace? && name in Outputs(cell) && ParseCell(name).Some?
    ensures exists t: nat, c: nat :: ParseCell(name) == Some((t, c)) && name == Stem(t, c) + ".json"
  {
    hide ParseCell, Outputs, SyntheticFiles, Stem, PairFiles;
    SyntheticOutput(cell, name);
    WrittenIsPair(cell.config.outputTokens, cell.config.concurrency, name);
    var t: nat, c: nat :| t in cell.config.outputTokens && c in cell.config.concurrency && name in PairFiles(t, c);
    PairIsParsed(t, c, name);
  }

  lemma MarkerIsNoCell()
    ensures ParseCell(MARKER) == None
  {
    assert MARKER[0] == 'c';
    NotACell(MARKER);
  }
}
