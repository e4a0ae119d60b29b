/**
  The completion-marker protocol of the competitive matrix.

  A cell directory is moved to quarantine before its cell runs again, its outputs are written one by one, and the
  marker `complete.json` is written last. A run may stop after any file-system operation. Every file carries the
  number of the run that wrote it, so that mixing two runs in one directory would be visible.
 */
module CompletionMarker {
  import opened Common
  import Plan = CompetitivePlan

  // ---- what is stored -----------------------------------------------------------

  /** Where a cell lives: `data/<platform>/<model>/<arm>` or `trace/<platform>/<model>/c-<concurrency>/<arm>`. */
  datatype Place =
    | DataPlace(platform: string, model: string, arm: string)
    | TracePlace(platform: string, model: string, concurrency: nat, arm: string)

  /** The identity that the marker records: the place, the prompt count, the configuration and the other inputs. */
  datatype CellId = CellId(place: Place, promptCount: nat, config: Plan.Config, inputs: string)

  datatype File =
    | Torn(run: nat)
    | Output(run: nat, step: nat)
    | Marker(run: nat, sha: string, cell: CellId)

  datatype Dir = Dir(run: nat, files: map<string, File>)

  datatype Held = Held(stamp: nat, place: Place)

  datatype Store = Store(live: map<Place, Dir>, quarantine: map<Held, Dir>)

  type Hash = CellId -> string

  const MARKER := "complete.json"

  // ---- the files of a cell, in the order of their writes ---------------------------

  function Stem(tokens: nat, concurrency: nat): string {
    "tg-" + Decimal(tokens) + "-c-" + Decimal(concurrency)
  }

  /** What one output-budget and concurrency pair writes. */
  function PairFiles(tokens: nat, concurrency: nat): seq<string> {
    var stem := Stem(tokens, concurrency);
    [stem + ".out", stem + ".json", stem + "-progress.jsonl", "status.tsv"]
  }

  function RowFiles(tokens: nat, concurrency: seq<nat>): seq<string> {
    Flatten(MapSeq((c: nat) => PairFiles(tokens, c), concurrency))
  }

  function SyntheticFiles(tokens: seq<nat>, concurrency: seq<nat>): seq<string> {
    Flatten(MapSeq((t: nat) => RowFiles(t, concurrency), tokens))
  }

  function Repeat(name: string, count: nat): seq<string> {
    seq(count, i => name)
  }

  function Outputs(cell: CellId): seq<string> {
    ["stage.json", "server-command.json", "server.log"] +
    match cell.place
    case DataPlace(_, _, _) =>
      ["warmup.out"] + SyntheticFiles(cell.config.outputTokens, cell.config.concurrency) + ["parity.json"]
    case TracePlace(_, _, concurrency, _) =>
      Repeat("requests.partial.json", if concurrency == 0 then 0 else CeilDiv(cell.promptCount, concurrency))
      + ["requests.json", "result.json"]
  }

  // ---- file-system operations -----------------------------------------------------

  datatype Op = Quarantine(stamp: nat) | MakeDir(run: nat) | Put(name: string, file: File)

  function PutFile(dir: Dir, name: string, file: File): Dir {
    dir.(files := dir.files[name := file])
  }

  function Apply(store: Store, place: Place, op: Op): Store {
    match op
    case Quarantine(stamp) =>
      if place in store.live
      then Store(store.live - {place}, store.quarantine[Held(stamp, place) := store.live[place]])
      else store
    case MakeDir(run) =>
      if place in store.live then store else store.(live := store.live[place := Dir(run, map[])])
    case Put(name, file) =>
      if place in store.live then store.(live := store.live[place := PutFile(store.live[place], name, file)])
      else store
  }

  function ApplyAll(store: Store, place: Place, ops: seq<Op>): Store {
    if ops == [] then store
    else Apply(ApplyAll(store, place, ops[..|ops| - 1]), place, ops[|ops| - 1])
  }

  /** Writing an output is not atomic: it is visible torn before it is visible whole. */
  function WriteOps(run: nat, names: seq<string>): seq<Op> {
    if names == [] then []
    else
      var k := |names| - 1;
      WriteOps(run, names[..k]) + [Put(names[k], Torn(run)), Put(names[k], Output(run, k))]
  }

  /** One uninterrupted execution of a cell. The marker is replaced atomically, and it comes last. */
  function CellOps(hash: Hash, cell: CellId, run: nat): seq<Op> {
    [Quarantine(run), MakeDir(run)] + WriteOps(run, Outputs(cell))
    + [Put(MARKER, Marker(run, hash(cell), cell))]
  }

  function ApplyPuts(dir: Dir, ops: seq<Op>): Dir {
    if ops == [] then dir
    else
      var before := ApplyPuts(dir, ops[..|ops| - 1]);
      match ops[|ops| - 1]
      case Put(name, file) => PutFile(before, name, file)
      case _ => before
  }

  /** The directory that an uninterrupted execution leaves behind. */
  function FullDir(hash: Hash, cell: CellId, run: nat): Dir {
    PutFile(ApplyPuts(Dir(run, map[]), WriteOps(run, Outputs(cell))), MARKER, Marker(run, hash(cell), cell))
  }

  // ---- the readers of a marker ------------------------------------------------------

  function LoadComplete(store: Store, place: Place, hash: Hash, cellHash: string): bool {
    place in store.live && MARKER in store.live[place].files
    && var marker := store.live[place].files[MARKER];
       marker.Marker? && marker.sha == cellHash && hash(marker.cell) == cellHash
  }

  function CompletedCell(dir: Dir, hash: Hash): Option<CellId> {
    if MARKER in dir.files && dir.files[MARKER].Marker? && dir.files[MARKER].sha == hash(dir.files[MARKER].cell)
    then Some(dir.files[MARKER].cell)
    else None
  }

  // ---- the runner ----------------------------------------------------------------------

  datatype Call = Call(cell: CellId, resume: bool, budget: nat)

  predicate Skips(store: Store, hash: Hash, call: Call) {
    call.resume && LoadComplete(store, call.cell.place, hash, hash(call.cell))
  }

  /** What one call of the runner leaves behind when the process stops after `budget` operations. */
  function RunCell(hash: Hash, store: Store, call: Call, run: nat): Store {
    if Skips(store, hash, call) then store
    else
      var ops := CellOps(hash, call.cell, run);
      ApplyAll(store, call.cell.place, ops[..Min(call.budget, |ops|)])
  }

  function RunCalls(hash: Hash, store: Store, calls: seq<Call>): Store {
    if calls == [] then store
    else
      var last := |calls| - 1;
      RunCell(hash, RunCalls(hash, store, calls[..last]), calls[last], last)
  }

  const EMPTY := Store(map[], map[])

  class ArtifactRoot {
    const hash: Hash
    var store: Store
    var runs: nat

    constructor (hash: Hash)
      ensures this.hash == hash && store == EMPTY && runs == 0
    {
      this.hash := hash;
      store := EMPTY;
      runs := 0;
    }

    method Perform(place: Place, op: Op)
      modifies this`store
      ensures store == Apply(old(store), place, op)
    {
      match op
      case Quarantine(stamp) =>
        if place in store.live {
          var dir := store.live[place];
          store := Store(store.live - {place}, store.quarantine[Held(stamp, place) := dir]);
        }
      case MakeDir(run) =>
        if place !in store.live {
          store := store.(live := store.live[place := Dir(run, map[])]);
        }
      case Put(name, file) =>
        if place in store.live {
          store := store.(live := store.live[place := PutFile(store.live[place], name, file)]);
        }
    }

    /** The body of a cell: skip, or quarantine, create, write every output and then the marker. */
    method RunOneCell(call: Call) returns (finished: bool)
      modifies this
      ensures store == RunCell(hash, old(store), call, old(runs)) && runs == old(runs) + 1
      ensures finished <==> Skips(old(store), hash, call)
                            || call.budget >= |CellOps(hash, call.cell, old(runs))|
    {
      var run := runs;
      runs := runs + 1;
      var cellHash := hash(call.cell);
      if call.resume && LoadComplete(store, call.cell.place, hash, cellHash) {
        return true;
      }
      hide Apply, ApplyAll, CellOps, Outputs, LoadComplete, WriteOps;
      var names := Outputs(call.cell);
      var place := call.cell.place;
      WriteOpsLength(run, names);
      CellOpsPrefix(hash, store, call.cell, run, call.budget);
      if call.budget == 0 { return false; }
      Perform(place, Quarantine(run));
      if call.budget == 1 { return false; }
      Perform(place, MakeDir(run));
      var done := WriteOutputs(place, run, names, call.budget - 2);
      if !done || call.budget == 2 + 2 * |names| { return false; }
      assert WriteOps(run, names)[..2 * |names|] == WriteOps(run, names);
      Perform(place, Put(MARKER, Marker(run, cellHash, call.cell)));
      finished := true;
    }

    method WriteOutputs(place: Place, run: nat, names: seq<string>, budget: nat) returns (done: bool)
      modifies this`store
      ensures done <==> budget >= 2 * |names|
      ensures var writes := WriteOps(run, names);
              store == ApplyAll(old(store), place, writes[..Min(budget, |writes|)])
    {
      hide Apply, ApplyAll, WriteOps;
      ghost var start, writes := store, WriteOps(run, names);
      WriteOpsLength(run, names);
      ApplyNone(start, place, writes);
      var spent := 0;
      for k := 0 to |names|
        invariant spent == 2 * k <= budget
        invariant store == ApplyAll(start, place, writes[..spent])
      {
        WriteOpsAt(run, names, k);
        if budget == spent { return false; }
        Perform(place, Put(names[k], Torn(run)));
        ApplyNext(start, place, writes, spent);
        if budget == spent + 1 { return false; }
        Perform(place, Put(names[k], Output(run, k)));
        ApplyNext(start, place, writes, spent + 1);
        spent := spent + 2;
      }
      done := true;
    }
  }

  /** What one execution of a cell has done after `budget` operations. */
  function AfterSome(hash: Hash, store: Store, cell: CellId, run: nat, budget: nat): Store {
    var place, writes := cell.place, WriteOps(run, Outputs(cell));
    var prepared := Apply(Apply(store, place, Quarantine(run)), place, MakeDir(run));
    if budget == 0 then store
    else if budget == 1 then Apply(store, place, Quarantine(run))
    else if budget <= 2 + |writes| then ApplyAll(prepared, place, writes[..budget - 2])
    else Apply(ApplyAll(prepared, place, writes), place, Put(MARKER, Marker(run, hash(cell), cell)))
  }

  lemma {:induction false} CellOpsPrefix(hash: Hash, store: Store, cell: CellId, run: nat, budget: nat)
    ensures var ops, writes := CellOps(hash, cell, run), WriteOps(run, Outputs(cell));
            |ops| == |writes| + 3
            && ApplyAll(store, cell.place, ops[..Min(budget, |ops|)]) == AfterSome(hash, store, cell, run, budget)
  {
    hide Outputs, WriteOps, Apply;
    var place, writes := cell.place, WriteOps(run, Outputs(cell));
    var opening, mark := [Quarantine(run), MakeDir(run)], Put(MARKER, Marker(run, hash(cell), cell));
    var ops := opening + writes + [mark];
    assert CellOps(hash, cell, run) == ops;
    assert opening[..1] == [Quarantine(run)] && opening[..1][..0] == [];
    assert ApplyAll(store, place, opening[..1]) == Apply(store, place, Quarantine(run));
    assert ApplyAll(store, place, opening) == Apply(Apply(store, place, Quarantine(run)), place, MakeDir(run));
    if budget == 0 {
      assert ops[..0] == [];
    } else if budget == 1 {
      assert ops[..1] == opening[..1];
    } else if budget <= 2 + |writes| {
      assert ops[..budget] == opening + writes[..budget - 2];
      ApplyAllAppend(store, place, opening, writes[..budget - 2]);
    } else {
      assert ops[..Min(budget, |ops|)] == ops && ops[..|ops| - 1] == opening + writes;
      ApplyAllAppend(store, place, opening, writes);
      assert ops[|ops| - 1] == mark;
      assert ApplyAll(store, place, ops) == Apply(ApplyAll(store, place, opening + writes), place, mark);
    }
  }

  lemma ApplyNone(store: Store, place: Place, ops: seq<Op>)
    ensures ApplyAll(store, place, ops[..0]) == store
  {
  }

  lemma ApplyNext(store: Store, place: Place, ops: seq<Op>, k: nat)
    requires k < |ops|
    ensures ApplyAll(store, place, ops[..k + 1]) == Apply(ApplyAll(store, place, ops[..k]), place, ops[k])
  {
    assert ops[..k + 1][..k] == ops[..k];
  }

  lemma {:induction false} WriteOpsLength(run: nat, names: seq<string>)
    ensures |WriteOps(run, names)| == 2 * |names|
  {
    if names == [] {
    } else {
      WriteOpsLength(run, names[..|names| - 1]);
    }
  }

  lemma {:induction false} WriteOpsAt(run: nat, names: seq<string>, k: nat)
    requires k < |names|
    ensures |WriteOps(run, names)| == 2 * |names|
    ensures WriteOps(run, names)[2 * k] == Put(names[k], Torn(run))
    ensures WriteOps(run, names)[2 * k + 1] == Put(names[k], Output(run, k))
  {
    WriteOpsLength(run, names);
    WriteOpsLength(run, names[..|names| - 1]);
    if k == |names| - 1 {
    } else {
      WriteOpsAt(run, names[..|names| - 1], k);
    }
  }

  // ---- what every run keeps -----------------------------------------------------------

  ghost predicate WrittenBy(file: File, run: nat) {
    file.run == run
  }

  /** All files of a directory come from the run that created it. */
  ghost predicate OneRun(dir: Dir) {
    forall name :: name in dir.files ==> WrittenBy(dir.files[name], dir.run)
  }

  /** A directory with a marker is the whole output of one uninterrupted execution of the marked cell. */
  ghost predicate MarkedIsFull(hash: Hash, dir: Dir, place: Place) {
    MARKER in dir.files ==>
      dir.files[MARKER].Marker?
      && dir.files[MARKER].cell.place == place
      && dir == FullDir(hash, dir.files[MARKER].cell, dir.run)
  }

  ghost predicate GoodDir(hash: Hash, dir: Dir, place: Place, runs: nat) {
    dir.run < runs && OneRun(dir) && MarkedIsFull(hash, dir, place)
  }

  /** The invariant: every directory, live or quarantined, is good, and no run owns two directories. */
  ghost predicate Good(hash: Hash, store: Store, runs: nat) {
    (forall p :: p in store.live ==> GoodDir(hash, store.live[p], p, runs))
    && (forall h :: h in store.quarantine ==>
          GoodDir(hash, store.quarantine[h], h.place, runs) && h.stamp < runs)
    && (forall p, q :: p in store.live && q in store.live && p != q ==> store.live[p].run != store.live[q].run)
    && (forall p, h :: p in store.live && h in store.quarantine ==> store.live[p].run != store.quarantine[h].run)
    && (forall g, h :: g in store.quarantine && h in store.quarantine && g != h ==>
          store.quarantine[g].run != store.quarantine[h].run)
  }

  // ---- a prefix of one execution -----------------------------------------------------

  lemma {:induction false} NameIsNotMarker(cell: CellId, name: string)
    requires name in Outputs(cell)
    ensures name != MARKER
  {
    if cell.place.DataPlace? && name in SyntheticFiles(cell.config.outputTokens, cell.config.concurrency) {
      SyntheticNameStart(cell.config.outputTokens, cell.config.concurrency, name);
    }
  }

  lemma SyntheticNameStart(tokens: seq<nat>, concurrency: seq<nat>, name: string)
    requires name in SyntheticFiles(tokens, concurrency)
    ensures name != MARKER
  {
    var rows := MapSeq((t: nat) => RowFiles(t, concurrency), tokens);
    FlattenMember(rows, name);
    var i :| 0 <= i < |rows| && name in rows[i];
    var pairs := MapSeq((c: nat) => PairFiles(tokens[i], c), concurrency);
    FlattenMember(pairs, name);
    var j :| 0 <= j < |pairs| && name in pairs[j];
    PairNameStart(tokens[i], concurrency[j], name);
  }

  lemma PairNameStart(tokens: nat, concurrency: nat, name: string)
    requires name in PairFiles(tokens, concurrency)
    ensures name != MARKER
  {
    assert Stem(tokens, concurrency)[0] == 't' && MARKER[0] == 'c';
    assert name[0] == 't' || name[0] == 's';
  }

  /** Where the next `k` writes of a run lead: only its own files, and no marker. */
  lemma {:induction false} PartialWrites(dir: Dir, run: nat, names: seq<string>, k: nat)
    requires dir.run == run && OneRun(dir) && MARKER !in dir.files && MARKER !in names
    requires k <= |WriteOps(run, names)|
    ensures var after := ApplyPuts(dir, WriteOps(run, names)[..k]);
            after.run == run && OneRun(after) && MARKER !in after.files
  {
    var ops := WriteOps(run, names);
    if k == 0 {
    } else {
      assert ops[..k][..k - 1] == ops[..k - 1];
      PartialWrites(dir, run, names, k - 1);
      WriteOpsLength(run, names);
      WriteOpsAt(run, names, (k - 1) / 2);
    }
  }

  lemma {:induction false} WriteOpsArePuts(run: nat, names: seq<string>, k: nat)
    requires k < |WriteOps(run, names)|
    ensures WriteOps(run, names)[k].Put?
  {
    WriteOpsLength(run, names);
    WriteOpsAt(run, names, k / 2);
  }

  /** Operations on a live directory change that directory and nothing else. */
  lemma {:induction false} PutsStayLocal(store: Store, place: Place, ops: seq<Op>)
    requires place in store.live && forall op :: op in ops ==> op.Put?
    ensures ApplyAll(store, place, ops) == store.(live := store.live[place := ApplyPuts(store.live[place], ops)])
  {
    if ops == [] {
      assert store.live[place := store.live[place]] == store.live;
    } else {
      var front, last := ops[..|ops| - 1], ops[|ops| - 1];
      PutsStayLocal(store, place, front);
      assert last in ops;
    }
  }

  lemma {:induction false} ApplyAllAppend(store: Store, place: Place, a: seq<Op>, b: seq<Op>)
    ensures ApplyAll(store, place, a + b) == ApplyAll(ApplyAll(store, place, a), place, b)
  {
    if b == [] {
      assert a + b == a;
    } else {
      assert (a + b)[..|a + b| - 1] == a + b[..|b| - 1];
      ApplyAllAppend(store, place, a, b[..|b| - 1]);
    }
  }

  lemma {:induction false} MovedIsGood(hash: Hash, store: Store, place: Place, run: nat)
    requires Good(hash, store, run)
    ensures Good(hash, Apply(store, place, Quarantine(run)), run + 1)
    ensures Unowned(Apply(store, place, Quarantine(run)), run)
  {
    hide FullDir;
    forall h | h in store.quarantine ensures h != Held(run, place) {
      assert h.stamp < run;
    }
  }

  ghost predicate Unowned(store: Store, run: nat) {
    (forall p :: p in store.live ==> store.live[p].run != run)
    && (forall h :: h in store.quarantine ==> store.quarantine[h].run != run)
  }

  lemma {:induction false} CreatedIsGood(hash: Hash, store: Store, place: Place, run: nat)
    requires Good(hash, store, run + 1) && place !in store.live && Unowned(store, run)
    ensures var created := Apply(store, place, MakeDir(run));
            Good(hash, created, run + 1) && place in created.live && created.live[place] == Dir(run, map[])
  {
    hide FullDir;
  }

  /** After quarantine and creation, the directory is new and empty, and what was there is kept aside. */
  lemma {:induction false} Opening(hash: Hash, store: Store, place: Place, run: nat)
    requires Good(hash, store, run)
    ensures var prepared := Apply(Apply(store, place, Quarantine(run)), place, MakeDir(run));
            Good(hash, prepared, run + 1) && place in prepared.live
            && prepared.live[place] == Dir(run, map[])
    ensures Good(hash, Apply(store, place, Quarantine(run)), run + 1)
  {
    hide Good, FullDir;
    var moved := Apply(store, place, Quarantine(run));
    MovedIsGood(hash, store, place, run);
    CreatedIsGood(hash, moved, place, run);
  }

  /** Replacing the fresh directory of the current run by another good one of the same run keeps the invariant. */
  lemma {:induction false} ReplaceOwn(hash: Hash, store: Store, place: Place, run: nat, dir: Dir)
    requires Good(hash, store, run + 1) && place in store.live && store.live[place].run == run == dir.run
    requires GoodDir(hash, dir, place, run + 1)
    ensures Good(hash, store.(live := store.live[place := dir]), run + 1)
  {
  }

  /** The state after the first `k` operations of one execution, for every `k`. */
  lemma {:induction false} PrefixIsGood(hash: Hash, store: Store, cell: CellId, run: nat, k: nat)
    requires Good(hash, store, run) && k <= |CellOps(hash, cell, run)|
    ensures var after := ApplyAll(store, cell.place, CellOps(hash, cell, run)[..k]);
            Good(hash, after, run + 1)
            && (k == |CellOps(hash, cell, run)| ==>
                  cell.place in after.live && after.live[cell.place] == FullDir(hash, cell, run))
  {
    var place, names := cell.place, Outputs(cell);
    var writes := WriteOps(run, names);
    CellOpsPrefix(hash, store, cell, run, k);
    Opening(hash, store, place, run);
    if k >= 2 {
      hide Good, CellOps, Outputs, WriteOps;
      var prepared := Apply(Apply(store, place, Quarantine(run)), place, MakeDir(run));
      var done := Min(k - 2, |writes|);
      WritesAreGood(hash, prepared, cell, run, done);
      if done < k - 2 {
        assert writes[..done] == writes;
        MarkingIsGood(hash, prepared, cell, run);
      }
    }
  }

  /** The outputs so far change the fresh directory alone, and keep it good and unmarked. */
  lemma {:induction false} WritesAreGood(hash: Hash, prepared: Store, cell: CellId, run: nat, done: nat)
    requires Good(hash, prepared, run + 1)
    requires cell.place in prepared.live && prepared.live[cell.place] == Dir(run, map[])
    requires done <= |WriteOps(run, Outputs(cell))|
    ensures var writes := WriteOps(run, Outputs(cell));
            var dir := ApplyPuts(Dir(run, map[]), writes[..done]);
            var after := ApplyAll(prepared, cell.place, writes[..done]);
            Good(hash, after, run + 1) && dir.run == run && OneRun(dir) && MARKER !in dir.files
            && after == prepared.(live := prepared.live[cell.place := dir])
  {
    var place, names := cell.place, Outputs(cell);
    hide Outputs, WriteOps, Good, FullDir, ApplyPuts, ApplyAll;
    var writes := WriteOps(run, names);
    MarkerNotAmongOutputs(cell);
    PartialWrites(Dir(run, map[]), run, names, done);
    forall op | op in writes[..done] ensures op.Put? {
      var i :| 0 <= i < done && writes[i] == op;
      WriteOpsArePuts(run, names, i);
    }
    PutsStayLocal(prepared, place, writes[..done]);
    ReplaceOwn(hash, prepared, place, run, ApplyPuts(Dir(run, map[]), writes[..done]));
  }

  /** The marker completes the directory. */
  lemma {:induction false} MarkingIsGood(hash: Hash, prepared: Store, cell: CellId, run: nat)
    requires Good(hash, prepared, run + 1)
    requires cell.place in prepared.live && prepared.live[cell.place] == Dir(run, map[])
    ensures var written := ApplyAll(prepared, cell.place, WriteOps(run, Outputs(cell)));
            var after := Apply(written, cell.place, Put(MARKER, Marker(run, hash(cell), cell)));
            Good(hash, after, run + 1) && cell.place in after.live
            && after.live[cell.place] == FullDir(hash, cell, run)
  {
    var place, writes := cell.place, WriteOps(run, Outputs(cell));
    WritesAreGood(hash, prepared, cell, run, |writes|);
    assert writes[..|writes|] == writes;
    var full := FullDir(hash, cell, run);
    assert full == PutFile(ApplyPuts(Dir(run, map[]), writes), MARKER, Marker(run, hash(cell), cell));
    hide Good, Outputs, WriteOps, ApplyPuts, ApplyAll;
    assert GoodDir(hash, full, place, run + 1);
    ReplaceOwn(hash, prepared, place, run, full);
    var dir := ApplyPuts(Dir(run, map[]), writes);
    assert prepared.live[place := dir][place := full] == prepared.live[place := full];
  }

  lemma MarkerNotAmongOutputs(cell: CellId)
    ensures MARKER !in Outputs(cell)
  {
    forall name | name in Outputs(cell) ensures name != MARKER {
      NameIsNotMarker(cell, name);
    }
  }

  lemma {:induction false} GoodLater(hash: Hash, store: Store, runs: nat)
    requires Good(hash, store, runs)
    ensures Good(hash, store, runs + 1)
  {
  }

  /** Every call keeps the invariant, wherever it stops. */
  lemma {:induction false} RunCellKeepsGood(hash: Hash, store: Store, call: Call, run: nat)
    requires Good(hash, store, run)
    ensures Good(hash, RunCell(hash, store, call, run), run + 1)
  {
    if Skips(store, hash, call) {
      GoodLater(hash, store, run);
    } else {
      PrefixIsGood(hash, store, call.cell, run,
                   Min(call.budget, |CellOps(hash, call.cell, run)|));
    }
  }

  /** Over every history of calls, resumed or not, stopped anywhere: each directory is good. */
  lemma {:induction false} EveryHistoryIsGood(hash: Hash, calls: seq<Call>)
    ensures Good(hash, RunCalls(hash, EMPTY, calls), |calls|)
  {
    if calls == [] {
    } else {
      var last := |calls| - 1;
      EveryHistoryIsGood(hash, calls[..last]);
      RunCellKeepsGood(hash, RunCalls(hash, EMPTY, calls[..last]), calls[last], last);
    }
  }

  // ---- where every directory comes from -----------------------------------------------------

  /** Call number `run` of the history was for this cell, did not skip it and was not stopped before its end. */
  ghost predicate RanToEnd(hash: Hash, calls: seq<Call>, run: nat, cell: CellId) {
    run < |calls| && calls[run].cell == cell && calls[run].budget >= |CellOps(hash, cell, run)|
    && !Skips(RunCalls(hash, EMPTY, calls[..run]), hash, calls[run])
  }

  /** A directory belongs to a call for its place, and a marker in it to a call for the marked cell that ran to its end. */
  ghost predicate Traced(hash: Hash, calls: seq<Call>, place: Place, dir: Dir) {
    dir.run < |calls| && calls[dir.run].cell.place == place
    && (MARKER in dir.files ==>
          dir.files[MARKER].Marker? && RanToEnd(hash, calls, dir.run, dir.files[MARKER].cell))
  }

  ghost predicate AllTraced(hash: Hash, calls: seq<Call>, store: Store) {
    (forall p :: p in store.live ==> Traced(hash, calls, p, store.live[p]))
    && forall h :: h in store.quarantine ==> Traced(hash, calls, h.place, store.quarantine[h])
  }

  /** The directory that a call leaves at its place when it is not the one it found. */
  ghost predicate OwnDir(hash: Hash, call: Call, run: nat, dir: Dir) {
    dir.run == run
    && (MARKER in dir.files ==>
          call.budget >= |CellOps(hash, call.cell, run)| && dir == FullDir(hash, call.cell, run))
  }

  /** Against `store`, only the call's own place changed: it holds a directory of the call, or what was there, or nothing. */
  ghost predicate OwnPlaceOnly(hash: Hash, store: Store, call: Call, run: nat, after: Store) {
    (forall p :: p in after.live ==>
       (p in store.live && after.live[p] == store.live[p])
       || (p == call.cell.place && OwnDir(hash, call, run, after.live[p])))
    && (forall h :: h in after.quarantine ==>
          (h in store.quarantine && after.quarantine[h] == store.quarantine[h])
          || (h.place == call.cell.place && h.place in store.live && after.quarantine[h] == store.live[h.place]))
  }

  lemma {:induction false} OpeningTouchesOwnPlace(hash: Hash, store: Store, call: Call, run: nat, dir: Dir)
    requires OwnDir(hash, call, run, dir)
    ensures var moved := Apply(store, call.cell.place, Quarantine(run));
            var prepared := Apply(moved, call.cell.place, MakeDir(run));
            OwnPlaceOnly(hash, store, call, run, moved)
            && OwnPlaceOnly(hash, store, call, run, prepared.(live := prepared.live[call.cell.place := dir]))
  {
    hide OwnDir;
  }

  lemma {:induction false} CallTouchesOwnPlace(hash: Hash, store: Store, call: Call, run: nat)
    requires Good(hash, store, run) && !Skips(store, hash, call)
    ensures OwnPlaceOnly(hash, store, call, run, RunCell(hash, store, call, run))
  {
    hide Good, CellOps, Outputs, WriteOps, OneRun, ApplyAll, ApplyPuts, OwnPlaceOnly, Apply;
    var place, cell := call.cell.place, call.cell;
    CellOpsPrefix(hash, store, cell, run, call.budget);
    if call.budget == 0 {
      NothingTouched(hash, store, call, run);
    } else {
      var dir := DirAfter(hash, store, call, run);
      OpeningTouchesOwnPlace(hash, store, call, run, dir);
    }
  }

  lemma {:induction false} NothingTouched(hash: Hash, store: Store, call: Call, run: nat)
    ensures OwnPlaceOnly(hash, store, call, run, store)
  {
  }

  /** The directory that a call which got past the quarantine step has written. */
  lemma {:induction false} DirAfter(hash: Hash, store: Store, call: Call, run: nat) returns (dir: Dir)
    requires Good(hash, store, run)
    ensures OwnDir(hash, call, run, dir)
    ensures var prepared := Apply(Apply(store, call.cell.place, Quarantine(run)), call.cell.place, MakeDir(run));
            call.budget >= 2 ==>
              AfterSome(hash, store, call.cell, run, call.budget)
              == prepared.(live := prepared.live[call.cell.place := dir])
  {
    hide Good, CellOps, Outputs, WriteOps, OneRun, ApplyAll, ApplyPuts;
    var place, cell := call.cell.place, call.cell;
    var writes := WriteOps(run, Outputs(cell));
    dir := Dir(run, map[]);
    if call.budget >= 2 {
      var prepared := Apply(Apply(store, place, Quarantine(run)), place, MakeDir(run));
      Opening(hash, store, place, run);
      var done := Min(call.budget - 2, |writes|);
      WritesAreGood(hash, prepared, cell, run, done);
      dir := ApplyPuts(Dir(run, map[]), writes[..done]);
      if done < call.budget - 2 {
        assert writes[..done] == writes;
        CellOpsPrefix(hash, store, cell, run, call.budget);
        dir := FullDir(hash, cell, run);
      }
    }
  }

  lemma {:induction false} TracedLater(hash: Hash, calls: seq<Call>, call: Call, place: Place, dir: Dir)
    requires Traced(hash, calls, place, dir)
    ensures Traced(hash, calls + [call], place, dir)
  {
    hide CellOps, RunCalls;
    assert (calls + [call])[..dir.run] == calls[..dir.run];
  }

  /** After every history each directory, live or in quarantine, is the work of one call for its place. */
  lemma {:induction false} EveryDirectoryIsTraced(hash: Hash, calls: seq<Call>)
    ensures AllTraced(hash, calls, RunCalls(hash, EMPTY, calls))
  {
    if calls == [] {
    } else {
      var n := |calls| - 1;
      var front, call := calls[..n], calls[n];
      var store := RunCalls(hash, EMPTY, front);
      assert calls == front + [call];
      EveryDirectoryIsTraced(hash, front);
      EveryHistoryIsGood(hash, front);
      OneCallIsTraced(hash, front, call, store);
    }
  }

  lemma {:induction false} OneCallIsTraced(hash: Hash, calls: seq<Call>, call: Call, store: Store)
    requires store == RunCalls(hash, EMPTY, calls) && Good(hash, store, |calls|) && AllTraced(hash, calls, store)
    ensures AllTraced(hash, calls + [call], RunCell(hash, store, call, |calls|))
  {
    hide CellOps, RunCalls, Good, Traced;
    var n, all, after := |calls|, calls + [call], RunCell(hash, store, call, |calls|);
    forall p | p in store.live ensures Traced(hash, all, p, store.live[p]) {
      TracedLater(hash, calls, call, p, store.live[p]);
    }
    forall h | h in store.quarantine ensures Traced(hash, all, h.place, store.quarantine[h]) {
      TracedLater(hash, calls, call, h.place, store.quarantine[h]);
    }
    if !Skips(store, hash, call) {
      CallTouchesOwnPlace(hash, store, call, n);
      forall p | p in after.live ensures Traced(hash, all, p, after.live[p]) {
        if !(p in store.live && after.live[p] == store.live[p]) {
          OwnDirIsTraced(hash, calls, call, after.live[p]);
        }
      }
    }
  }

  lemma {:induction false} OwnDirIsTraced(hash: Hash, calls: seq<Call>, call: Call, dir: Dir)
    requires OwnDir(hash, call, |calls|, dir) && !Skips(RunCalls(hash, EMPTY, calls), hash, call)
    ensures Traced(hash, calls + [call], call.cell.place, dir)
  {
    hide CellOps, RunCalls;
    assert (calls + [call])[..|calls|] == calls;
  }

  // ---- what a reader may conclude ---------------------------------------------------------

  ghost predicate Injective(hash: Hash) {
    forall a, b :: hash(a) == hash(b) ==> a == b
  }

  /**
    A cell that is skipped on resume has its whole output in place: an earlier call for that very cell, which did not
    skip it and ran to its end, wrote all of the directory.
   */
  lemma {:induction false} SkippedCellIsComplete(hash: Hash, calls: seq<Call>, call: Call)
    requires Injective(hash)
    requires Skips(RunCalls(hash, EMPTY, calls), hash, call)
    ensures var dir := RunCalls(hash, EMPTY, calls).live[call.cell.place];
            dir == FullDir(hash, call.cell, dir.run) && RanToEnd(hash, calls, dir.run, call.cell)
  {
    EveryHistoryIsGood(hash, calls);
    EveryDirectoryIsTraced(hash, calls);
    var dir := RunCalls(hash, EMPTY, calls).live[call.cell.place];
    assert dir.files[MARKER].cell == call.cell;
    assert Traced(hash, calls, call.cell.place, dir);
  }

  /** An uninterrupted call completes its cell, and asking for the same cell again with resume changes nothing. */
  lemma {:induction false} FinishedCellIsSkipped(hash: Hash, store: Store, call: Call, run: nat, again: Call, later: nat)
    requires Good(hash, store, run)
    requires call.budget >= |CellOps(hash, call.cell, run)|
    requires again.resume && again.cell == call.cell
    ensures var after := RunCell(hash, store, call, run);
            Skips(after, hash, again) && RunCell(hash, after, again, later) == after
  {
    if !Skips(store, hash, call) {
      PrefixIsGood(hash, store, call.cell, run, |CellOps(hash, call.cell, run)|);
    }
  }

  /** Without resume, or with any other identity at that place, the old directory is moved aside whole. */
  lemma {:induction false} NothingIsLost(hash: Hash, store: Store, call: Call, run: nat, place: Place)
    requires Good(hash, store, run) && place in store.live
    ensures var after := RunCell(hash, store, call, run);
            (place in after.live && after.live[place] == store.live[place])
            || (Held(run, place) in after.quarantine && after.quarantine[Held(run, place)] == store.live[place]
                && place == call.cell.place && !Skips(store, hash, call))
    ensures var after := RunCell(hash, store, call, run);
            forall h :: h in store.quarantine ==>
              h in after.quarantine && after.quarantine[h] == store.quarantine[h]
  {
    if !Skips(store, hash, call) {
      var ops := CellOps(hash, call.cell, run);
      var k := Min(call.budget, |ops|);
      if k == 0 {
        assert ops[..0] == [];
      } else {
        assert ops[..k] == [ops[0]] + ops[1..k];
        ApplyAllAppend(store, call.cell.place, [ops[0]], ops[1..k]);
        assert [ops[0]][..0] == [];
        var moved := Apply(store, call.cell.place, ops[0]);
        assert ApplyAll(store, call.cell.place, [ops[0]]) == moved;
        forall op | op in ops[1..k] ensures !op.Quarantine? {
          NoSecondQuarantine(hash, call.cell, run, op);
        }
        LaterOpsStayLocal(moved, call.cell.place, ops[1..k]);
      }
    }
  }

  lemma {:induction false} NoSecondQuarantine(hash: Hash, cell: CellId, run: nat, op: Op)
    requires op in CellOps(hash, cell, run)[1..]
    ensures !op.Quarantine?
  {
    var writes := WriteOps(run, Outputs(cell));
    if op in writes {
      var i :| 0 <= i < |writes| && writes[i] == op;
      WriteOpsArePuts(run, Outputs(cell), i);
    }
  }

  lemma {:induction false} LaterOpsStayLocal(store: Store, place: Place, ops: seq<Op>)
    requires forall op :: op in ops ==> !op.Quarantine?
    ensures var after := ApplyAll(store, place, ops);
            after.quarantine == store.quarantine
            && forall p :: p in store.live && p != place ==> p in after.live && after.live[p] == store.live[p]
  {
    if ops == [] {
    } else {
      LaterOpsStayLocal(store, place, ops[..|ops| - 1]);
      assert ops[|ops| - 1] in ops;
    }
  }
}
