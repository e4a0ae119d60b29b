/**
  The competitive matrix run against its completion markers: which planned cells a resumed run executes, and what the
  artifact directory holds when it has finished.
 */
module MatrixRun {
  import opened Common
  import opened TraceCell
  import opened CompetitivePlan
  import Marker = CompletionMarker

  // ---- the calls of a run, one per synthetic arm and per trace cell ---------------------------------

  /** One call of the runner: the unit that its marker covers, and the planned cells that it measures. */
  datatype Task = Task(unit: Unit, cells: seq<Cell>)

  function TaskCells(task: Task): seq<Cell> {
    task.cells
  }

  function SyntheticTask(platform: string, model: Model, config: Config): string -> Task {
    (arm: string) => Task(SyntheticArm(model.key, arm), SyntheticArmCells(platform, model, arm, config))
  }

  function TraceTask(platform: string, model: Model, config: Config, concurrency: nat): string -> Task
    requires concurrency > 0
  {
    (arm: string) => Task(TraceArm(model.key, arm, concurrency), [TraceCellOf(platform, model, arm, config, concurrency)])
  }

  function LevelTasks(platform: string, model: Model, arms: seq<string>, config: Config, index: nat): seq<Task>
    requires ValidConfig(config) && index < |config.concurrency|
  {
    assert config.concurrency[index] in config.concurrency;
    MapSeq(TraceTask(platform, model, config, config.concurrency[index]), OrderedArms(arms, index))
  }

  function TraceTasks(platform: string, model: Model, arms: seq<string>, config: Config, levels: nat): seq<Task>
    requires ValidConfig(config) && levels <= |config.concurrency|
  {
    if levels == 0 then []
    else TraceTasks(platform, model, arms, config, levels - 1) + LevelTasks(platform, model, arms, config, levels - 1)
  }

  function ModelTasks(platform: string, model: Model, arms: seq<string>, config: Config, workloads: set<Workload>): seq<Task>
    requires ValidConfig(config)
  {
    (if Synthetic in workloads then MapSeq(SyntheticTask(platform, model, config), arms) else [])
    + (if Thoughtworks in workloads then TraceTasks(platform, model, arms, config, |config.concurrency|) else [])
  }

  /** The calls of a run on one platform, in the order of its loops. */
  function Tasks(platform: string, models: seq<Model>, config: Config, workloads: set<Workload>,
                 armsByModel: map<string, seq<string>>, arms: seq<string>): seq<Task>
    requires ValidConfig(config)
  {
    if models == [] then []
    else
      var front, last := models[..|models| - 1], models[|models| - 1];
      Tasks(platform, front, config, workloads, armsByModel, arms)
      + ModelTasks(platform, last, ArmsFor(armsByModel, arms, last), config, workloads)
  }

  function CellsOf(tasks: seq<Task>): seq<Cell> {
    Flatten(MapSeq(TaskCells, tasks))
  }

  lemma CellsOfAppend(a: seq<Task>, b: seq<Task>)
    ensures CellsOf(a + b) == CellsOf(a) + CellsOf(b)
  {
    assert MapSeq(TaskCells, a + b) == MapSeq(TaskCells, a) + MapSeq(TaskCells, b);
    FlattenAppend(MapSeq(TaskCells, a), MapSeq(TaskCells, b));
  }

  lemma {:induction false} FlattenSingletons<T>(s: seq<seq<T>>, t: seq<T>)
    requires |s| == |t| && forall i :: 0 <= i < |s| ==> s[i] == [t[i]]
    ensures Flatten(s) == t
  {
    if s == [] {
    } else {
      FlattenSingletons(s[1..], t[1..]);
      assert t == [t[0]] + t[1..];
    }
  }

  lemma LevelCells(platform: string, model: Model, arms: seq<string>, config: Config, index: nat)
    requires ValidConfig(config) && index < |config.concurrency|
    ensures CellsOf(LevelTasks(platform, model, arms, config, index)) == TraceLevel(platform, model, arms, config, index)
  {
    hide TraceCellOf;
    var tasks := LevelTasks(platform, model, arms, config, index);
    FlattenSingletons(MapSeq(TaskCells, tasks), TraceLevel(platform, model, arms, config, index));
  }

  lemma {:induction false} TraceTasksCells(platform: string, model: Model, arms: seq<string>, config: Config, levels: nat)
    requires ValidConfig(config) && levels <= |config.concurrency|
    ensures CellsOf(TraceTasks(platform, model, arms, config, levels)) == TraceCells(platform, model, arms, config, levels)
  {
    hide CellsOf, LevelTasks, TraceLevel;
    if levels == 0 {
      NoCells();
    } else {
      TraceTasksCells(platform, model, arms, config, levels - 1);
      LevelCells(platform, model, arms, config, levels - 1);
      CellsOfAppend(TraceTasks(platform, model, arms, config, levels - 1),
                    LevelTasks(platform, model, arms, config, levels - 1));
    }
  }

  lemma NoCells()
    ensures CellsOf([]) == []
  {
  }

  lemma ModelTasksCells(platform: string, model: Model, arms: seq<string>, config: Config, workloads: set<Workload>)
    requires ValidConfig(config)
    ensures CellsOf(ModelTasks(platform, model, arms, config, workloads)) == ModelCells(platform, model, arms, config, workloads)
  {
    NoCells();
    var synthetic := MapSeq(SyntheticTask(platform, model, config), arms);
    assert CellsOf(synthetic) == SyntheticCells(platform, model, arms, config) by {
      hide SyntheticArmCells;
      assert MapSeq(TaskCells, synthetic) == MapSeq(ArmCells(platform, model, config), arms);
    }
    hide CellsOf, TraceTasks, TraceCells, SyntheticCells;
    TraceTasksCells(platform, model, arms, config, |config.concurrency|);
    CellsOfAppend(if Synthetic in workloads then synthetic else [],
                  if Thoughtworks in workloads then TraceTasks(platform, model, arms, config, |config.concurrency|) else []);
  }

  /** The calls measure exactly the planned cells, in the planned order. */
  lemma {:induction false} TasksMakeThePlan(platform: string, models: seq<Model>, config: Config, workloads: set<Workload>,
                                            armsByModel: map<string, seq<string>>, arms: seq<string>)
    requires ValidConfig(config)
    ensures CellsOf(Tasks(platform, models, config, workloads, armsByModel, arms))
         == PlatformCells(platform, models, config, workloads, armsByModel, arms)
  {
    hide CellsOf, ModelTasks, ModelCells;
    if models == [] {
      NoCells();
    } else {
      var front, last := models[..|models| - 1], models[|models| - 1];
      TasksMakeThePlan(platform, front, config, workloads, armsByModel, arms);
      ModelTasksCells(platform, last, ArmsFor(armsByModel, arms, last), config, workloads);
      CellsOfAppend(Tasks(platform, front, config, workloads, armsByModel, arms),
                    ModelTasks(platform, last, ArmsFor(armsByModel, arms, last), config, workloads));
    }
  }

  // ---- distinct calls ---------------------------------------------------------------------------------

  ghost predicate DistinctUnits(tasks: seq<Task>) {
    forall i, j :: 0 <= i < j < |tasks| ==> tasks[i].unit != tasks[j].unit
  }

  function ModelOf(unit: Unit): string {
    match unit
    case SyntheticArm(model, _) => model
    case TraceArm(model, _, _) => model
  }

  lemma DistinctAppend(a: seq<Task>, b: seq<Task>)
    requires DistinctUnits(a) && DistinctUnits(b)
    requires forall x, y :: x in a && y in b ==> x.unit != y.unit
    ensures DistinctUnits(a + b)
  {
    var c := a + b;
    forall i, j | 0 <= i < j < |c| ensures c[i].unit != c[j].unit {
      if i < |a| <= j {
        assert c[i] in a && c[j] in b;
      }
    }
  }

  lemma LevelIsDistinct(platform: string, model: Model, arms: seq<string>, config: Config, index: nat)
    requires ValidConfig(config) && index < |config.concurrency| && Distinct(arms)
    ensures DistinctUnits(LevelTasks(platform, model, arms, config, index))
    ensures forall task :: task in LevelTasks(platform, model, arms, config, index) ==>
              task.unit.TraceArm? && task.unit.model == model.key && task.unit.concurrency == config.concurrency[index]
  {
    hide TraceCellOf;
  }

  lemma {:induction false} TraceIsDistinct(platform: string, model: Model, arms: seq<string>, config: Config, levels: nat)
    requires ValidConfig(config) && levels <= |config.concurrency| && Distinct(arms) && Distinct(config.concurrency)
    ensures DistinctUnits(TraceTasks(platform, model, arms, config, levels))
    ensures forall task :: task in TraceTasks(platform, model, arms, config, levels) ==>
              task.unit.TraceArm? && task.unit.model == model.key && task.unit.concurrency in config.concurrency[..levels]
  {
    hide LevelTasks, DistinctUnits;
    if levels == 0 {
      NoTasks();
    } else {
      TraceIsDistinct(platform, model, arms, config, levels - 1);
      LevelIsDistinct(platform, model, arms, config, levels - 1);
      var c := config.concurrency;
      assert c[..levels] == c[..levels - 1] + [c[levels - 1]];
      var lower := c[..levels - 1];
      forall i | 0 <= i < |lower| ensures lower[i] != c[levels - 1] {
        assert c[i] != c[levels - 1];
      }
      DistinctAppend(TraceTasks(platform, model, arms, config, levels - 1),
                     LevelTasks(platform, model, arms, config, levels - 1));
    }
  }

  lemma NoTasks()
    ensures DistinctUnits([])
  {
  }

  lemma ModelIsDistinct(platform: string, model: Model, arms: seq<string>, config: Config, workloads: set<Workload>)
    requires ValidConfig(config) && Distinct(arms) && Distinct(config.concurrency)
    ensures DistinctUnits(ModelTasks(platform, model, arms, config, workloads))
    ensures forall task :: task in ModelTasks(platform, model, arms, config, workloads) ==> ModelOf(task.unit) == model.key
  {
    hide SyntheticArmCells;
    var synthetic := if Synthetic in workloads then MapSeq(SyntheticTask(platform, model, config), arms) else [];
    var trace := if Thoughtworks in workloads then TraceTasks(platform, model, arms, config, |config.concurrency|) else [];
    NoTasks();
    assert DistinctUnits(synthetic);
    assert forall task :: task in synthetic ==> task.unit.SyntheticArm? && task.unit.model == model.key;
    TraceIsDistinct(platform, model, arms, config, |config.concurrency|);
    hide DistinctUnits, TraceTasks;
    DistinctAppend(synthetic, trace);
  }

  /** Distinct model keys, arm names and concurrency levels make every call of a run a call of its own. */
  lemma {:induction false} TasksAreDistinct(platform: string, models: seq<Model>, config: Config, workloads: set<Workload>,
                                            armsByModel: map<string, seq<string>>, arms: seq<string>)
    requires ValidConfig(config) && Distinct(config.concurrency)
    requires forall i, j :: 0 <= i < j < |models| ==> models[i].key != models[j].key
    requires forall model :: model in models ==> Distinct(ArmsFor(armsByModel, arms, model))
    ensures DistinctUnits(Tasks(platform, models, config, workloads, armsByModel, arms))
    ensures forall task :: task in Tasks(platform, models, config, workloads, armsByModel, arms) ==>
              exists i :: 0 <= i < |models| && models[i].key == ModelOf(task.unit)
  {
    hide ModelTasks, DistinctUnits, Distinct, ArmsFor;
    if models == [] {
      NoTasks();
    } else {
      var k := |models| - 1;
      var front, last := models[..k], models[k];
      assert models == front + [last];
      TasksAreDistinct(platform, front, config, workloads, armsByModel, arms);
      ModelIsDistinct(platform, last, ArmsFor(armsByModel, arms, last), config, workloads);
      var before := Tasks(platform, front, config, workloads, armsByModel, arms);
      var own := ModelTasks(platform, last, ArmsFor(armsByModel, arms, last), config, workloads);
      forall x, y | x in before && y in own ensures x.unit != y.unit {
        var i :| 0 <= i < |front| && front[i].key == ModelOf(x.unit);
        assert models[i].key != models[k].key;
      }
      DistinctAppend(before, own);
      forall task | task in before + own ensures exists i :: 0 <= i < |models| && models[i].key == ModelOf(task.unit) {
        if task in before {
          var i :| 0 <= i < |front| && front[i].key == ModelOf(task.unit);
          assert models[i].key == ModelOf(task.unit);
        } else {
          assert models[k].key == ModelOf(task.unit);
        }
      }
    }
  }

  // ---- the calls against the markers --------------------------------------------------------------------

  /** What identifies the cells of one start of the runner, beside the unit: `inputs` hashes binaries and manifests. */
  datatype Setup = Setup(platform: string, config: Config, inputs: Unit -> string)

  function PlaceOf(platform: string, unit: Unit): Marker.Place {
    match unit
    case SyntheticArm(model, arm) => Marker.DataPlace(platform, model, arm)
    case TraceArm(model, arm, concurrency) => Marker.TracePlace(platform, model, concurrency, arm)
  }

  function PromptCount(config: Config, unit: Unit): nat {
    if unit.TraceArm? && unit.concurrency > 0
    then PromptLimit(unit.concurrency, config.minimumPrompts, config.families * config.requestsPerFamily)
    else 0
  }

  function IdOf(setup: Setup, unit: Unit): Marker.CellId {
    Marker.CellId(PlaceOf(setup.platform, unit), PromptCount(setup.config, unit), setup.config, setup.inputs(unit))
  }

  /** An uninterrupted call with `--resume`. */
  function CallFor(setup: Setup, unit: Unit): Marker.Call {
    var cell := IdOf(setup, unit);
    Marker.Call(cell, true, 2 * |Marker.Outputs(cell)| + 3)
  }

  /** A trace cell's directory lies where the cell says, and its marker records the prompt count that was planned. */
  lemma TraceIdIsPlanned(setup: Setup, cell: Cell, model: Model)
    requires cell.ThoughtworksCell? && cell.concurrency > 0
    requires FitsModel(setup.config, {Thoughtworks}, model, cell)
    ensures IdOf(setup, UnitOf(cell))
         == Marker.CellId(Marker.TracePlace(setup.platform, cell.model, cell.concurrency, cell.arm), cell.promptCount,
                          setup.config, setup.inputs(UnitOf(cell)))
  {
  }

  function Calls(setup: Setup, tasks: seq<Task>): seq<Marker.Call> {
    seq(|tasks|, i requires 0 <= i < |tasks| => CallFor(setup, tasks[i].unit))
  }

  /** The store after a history of calls and then the first `k` calls of a resumed run. */
  function StoreAt(hash: Marker.Hash, history: seq<Marker.Call>, setup: Setup, tasks: seq<Task>, k: nat): Marker.Store
    requires k <= |tasks|
  {
    Marker.RunCalls(hash, Marker.EMPTY, history + Calls(setup, tasks[..k]))
  }

  /** The cells that a resumed run measures: of each call the planned cells, unless the call finds its marker. */
  function Measured(hash: Marker.Hash, history: seq<Marker.Call>, setup: Setup, tasks: seq<Task>, k: nat): seq<Cell>
    requires k <= |tasks|
  {
    if k == 0 then []
    else
      Measured(hash, history, setup, tasks, k - 1)
      + (if Marker.Skips(StoreAt(hash, history, setup, tasks, k - 1), hash, CallFor(setup, tasks[k - 1].unit)) then []
         else tasks[k - 1].cells)
  }

  /** The units whose matching marker is already there when the run starts. */
  function Matched(hash: Marker.Hash, store: Marker.Store, setup: Setup, tasks: seq<Task>): set<Unit> {
    set i | 0 <= i < |tasks| && Marker.Skips(store, hash, CallFor(setup, tasks[i].unit)) :: tasks[i].unit
  }

  lemma {:induction false} StoreNext(hash: Marker.Hash, history: seq<Marker.Call>, setup: Setup, tasks: seq<Task>, k: nat)
    requires k < |tasks|
    ensures StoreAt(hash, history, setup, tasks, k + 1)
         == Marker.RunCell(hash, StoreAt(hash, history, setup, tasks, k), CallFor(setup, tasks[k].unit), |history| + k)
    ensures Marker.Good(hash, StoreAt(hash, history, setup, tasks, k), |history| + k)
  {
    hide CallFor;
    var now, next := history + Calls(setup, tasks[..k]), history + Calls(setup, tasks[..k + 1]);
    assert next == now + [CallFor(setup, tasks[k].unit)];
    assert next[..|now|] == now;
    Marker.EveryHistoryIsGood(hash, now);
  }

  /** The marker at another place is as it was. */
  lemma {:induction false} OtherPlaceUntouched(hash: Marker.Hash, store: Marker.Store, call: Marker.Call, run: nat,
                                               other: Marker.Call)
    requires Marker.Good(hash, store, run) && other.cell.place != call.cell.place
    ensures Marker.Skips(Marker.RunCell(hash, store, call, run), hash, other) <==> Marker.Skips(store, hash, other)
  {
    hide Marker.Good, Marker.RunCell, Marker.OwnDir;
    if Marker.Skips(store, hash, call) {
      SkippedChangesNothing(hash, store, call, run);
    } else {
      Marker.CallTouchesOwnPlace(hash, store, call, run);
      var place := other.cell.place;
      if place in store.live {
        Marker.NothingIsLost(hash, store, call, run, place);
      }
    }
  }

  lemma {:induction false} SkippedChangesNothing(hash: Marker.Hash, store: Marker.Store, call: Marker.Call, run: nat)
    requires Marker.Skips(store, hash, call)
    ensures Marker.RunCell(hash, store, call, run) == store
  {
  }

  lemma {:induction false} FinishesItsCall(hash: Marker.Hash, store: Marker.Store, setup: Setup, unit: Unit, run: nat)
    requires Marker.Good(hash, store, run)
    ensures Marker.Skips(Marker.RunCell(hash, store, CallFor(setup, unit), run), hash, CallFor(setup, unit))
  {
    var call := CallFor(setup, unit);
    Marker.WriteOpsLength(run, Marker.Outputs(call.cell));
    Marker.CellOpsPrefix(hash, store, call.cell, run, call.budget);
    Marker.FinishedCellIsSkipped(hash, store, call, run, call, run);
  }

  lemma PlacesDiffer(setup: Setup, one: Unit, other: Unit)
    requires one != other
    ensures CallFor(setup, one).cell.place != CallFor(setup, other).cell.place
  {
  }

  lemma {:induction false} OneCallOnMarkers(hash: Marker.Hash, history: seq<Marker.Call>, setup: Setup, tasks: seq<Task>,
                                            k: nat, j: nat)
    requires DistinctUnits(tasks) && k < |tasks| && j < |tasks|
    ensures Marker.Skips(StoreAt(hash, history, setup, tasks, k + 1), hash, CallFor(setup, tasks[j].unit))
            <==> j == k || Marker.Skips(StoreAt(hash, history, setup, tasks, k), hash, CallFor(setup, tasks[j].unit))
  {
    hide CallFor, StoreAt, Marker.Skips, Marker.RunCell, Marker.Good;
    StoreNext(hash, history, setup, tasks, k);
    var store := StoreAt(hash, history, setup, tasks, k);
    if j == k {
      FinishesItsCall(hash, store, setup, tasks[j].unit, |history| + k);
    } else {
      assert tasks[j].unit != tasks[k].unit;
      PlacesDiffer(setup, tasks[j].unit, tasks[k].unit);
      OtherPlaceUntouched(hash, store, CallFor(setup, tasks[k].unit), |history| + k, CallFor(setup, tasks[j].unit));
    }
  }

  /** Which calls find their marker is settled before the run starts; and a call that was made finds it from then on. */
  lemma {:induction false} MarkersDuringRun(hash: Marker.Hash, history: seq<Marker.Call>, setup: Setup, tasks: seq<Task>,
                                            k: nat, j: nat)
    requires DistinctUnits(tasks) && k <= |tasks| && j < |tasks|
    ensures Marker.Skips(StoreAt(hash, history, setup, tasks, k), hash, CallFor(setup, tasks[j].unit))
            <==> j < k || Marker.Skips(StoreAt(hash, history, setup, tasks, 0), hash, CallFor(setup, tasks[j].unit))
    decreases k
  {
    hide CallFor, StoreAt, Marker.Skips, DistinctUnits;
    if k == 0 {
    } else {
      MarkersDuringRun(hash, history, setup, tasks, k - 1, j);
      OneCallOnMarkers(hash, history, setup, tasks, k - 1, j);
    }
  }

  ghost predicate OwnCells(tasks: seq<Task>) {
    forall task, cell :: task in tasks && cell in task.cells ==> UnitOf(cell) == task.unit
  }

  lemma {:induction false} MeasuredIsRemaining(hash: Marker.Hash, history: seq<Marker.Call>, setup: Setup,
                                               tasks: seq<Task>, k: nat)
    requires DistinctUnits(tasks) && OwnCells(tasks) && k <= |tasks|
    ensures var done := Matched(hash, StoreAt(hash, history, setup, tasks, 0), setup, tasks);
            Measured(hash, history, setup, tasks, k) == Remaining(done, UnitOf, CellsOf(tasks[..k]))
  {
    hide CallFor, StoreAt, Marker.Skips, CellsOf, Remaining;
    var start := StoreAt(hash, history, setup, tasks, 0);
    var done := Matched(hash, start, setup, tasks);
    if k == 0 {
      NoCells();
      NothingRemains(done);
    } else {
      var task := tasks[k - 1];
      MeasuredIsRemaining(hash, history, setup, tasks, k - 1);
      MarkersDuringRun(hash, history, setup, tasks, k - 1, k - 1);
      MatchedIff(hash, start, setup, tasks, k - 1);
      assert tasks[..k] == tasks[..k - 1] + [task];
      CellsOfAppend(tasks[..k - 1], [task]);
      OneTask(task);
      RemainingAppend(done, UnitOf, CellsOf(tasks[..k - 1]), task.cells);
      assert task in tasks;
      RemainingUnit(done, task.cells, task.unit);
    }
  }

  lemma NothingRemains(done: set<Unit>)
    ensures Remaining(done, UnitOf, []) == []
  {
  }

  lemma OneTask(task: Task)
    ensures CellsOf([task]) == task.cells
  {
    assert MapSeq(TaskCells, [task]) == [task.cells];
    FlattenOne(task.cells);
  }

  lemma FlattenOne<T>(s: seq<T>)
    ensures Flatten([s]) == s
  {
    assert Flatten([s]) == s + Flatten([]);
  }

  lemma {:induction false} MatchedIff(hash: Marker.Hash, store: Marker.Store, setup: Setup, tasks: seq<Task>, i: nat)
    requires i < |tasks| && DistinctUnits(tasks)
    ensures tasks[i].unit in Matched(hash, store, setup, tasks) <==> Marker.Skips(store, hash, CallFor(setup, tasks[i].unit))
  {
  }

  lemma {:induction false} TasksOwnTheirCells(platform: string, models: seq<Model>, config: Config, workloads: set<Workload>,
                                              armsByModel: map<string, seq<string>>, arms: seq<string>)
    requires ValidConfig(config)
    ensures OwnCells(Tasks(platform, models, config, workloads, armsByModel, arms))
  {
    hide ModelTasks;
    if models == [] {
    } else {
      var front, last := models[..|models| - 1], models[|models| - 1];
      TasksOwnTheirCells(platform, front, config, workloads, armsByModel, arms);
      ModelOwnsItsCells(platform, last, ArmsFor(armsByModel, arms, last), config, workloads);
    }
  }

  lemma ModelOwnsItsCells(platform: string, model: Model, arms: seq<string>, config: Config, workloads: set<Workload>)
    requires ValidConfig(config)
    ensures OwnCells(ModelTasks(platform, model, arms, config, workloads))
  {
    forall arm ensures OwnCells([SyntheticTask(platform, model, config)(arm)]) {
      SyntheticArmUnit(platform, model, arm, config);
    }
    var synthetic := MapSeq(SyntheticTask(platform, model, config), arms);
    assert OwnCells(synthetic) by {
      hide SyntheticArmCells;
      forall task, cell | task in synthetic && cell in task.cells ensures UnitOf(cell) == task.unit {
        var i :| 0 <= i < |arms| && synthetic[i] == task;
        assert task in [SyntheticTask(platform, model, config)(arms[i])];
      }
    }
    TraceOwnsItsCells(platform, model, arms, config, |config.concurrency|);
  }

  lemma {:induction false} TraceOwnsItsCells(platform: string, model: Model, arms: seq<string>, config: Config, levels: nat)
    requires ValidConfig(config) && levels <= |config.concurrency|
    ensures OwnCells(TraceTasks(platform, model, arms, config, levels))
  {
    hide LevelTasks;
    if levels == 0 {
    } else {
      TraceOwnsItsCells(platform, model, arms, config, levels - 1);
      LevelOwnsItsCells(platform, model, arms, config, levels - 1);
    }
  }

  lemma LevelOwnsItsCells(platform: string, model: Model, arms: seq<string>, config: Config, index: nat)
    requires ValidConfig(config) && index < |config.concurrency|
    ensures OwnCells(LevelTasks(platform, model, arms, config, index))
  {
    hide PromptLimit, OrderedArms;
    var tasks := LevelTasks(platform, model, arms, config, index);
    forall task, cell | task in tasks && cell in task.cells ensures UnitOf(cell) == task.unit {
      var i :| 0 <= i < |tasks| && tasks[i] == task;
      assert cell == task.cells[0];
    }
  }

  /**
    The matrix after any history of calls, of this configuration or another, stopped anywhere. One uninterrupted resumed
    run measures exactly the planned cells whose unit has no matching marker when it starts, in plan order, and leaves
    every unit's directory with the whole output of one execution of that very unit.
   */
  lemma {:induction false} ResumedRunCompletesTheMatrix(hash: Marker.Hash, history: seq<Marker.Call>, setup: Setup,
                                                        models: seq<Model>, workloads: set<Workload>,
                                                        armsByModel: map<string, seq<string>>, arms: seq<string>)
    requires Marker.Injective(hash) && ValidConfig(setup.config) && Distinct(setup.config.concurrency)
    requires forall i, j :: 0 <= i < j < |models| ==> models[i].key != models[j].key
    requires forall model :: model in models ==> Distinct(ArmsFor(armsByModel, arms, model))
    ensures var tasks := Tasks(setup.platform, models, setup.config, workloads, armsByModel, arms);
            var done := Matched(hash, Marker.RunCalls(hash, Marker.EMPTY, history), setup, tasks);
            Measured(hash, history, setup, tasks, |tasks|)
            == Remaining(done, UnitOf, PlannedCells([setup.platform], models, setup.config, workloads, armsByModel, arms))
    ensures var tasks := Tasks(setup.platform, models, setup.config, workloads, armsByModel, arms);
            var all := history + Calls(setup, tasks);
            forall task :: task in tasks ==> Complete(hash, all, IdOf(setup, task.unit))
  {
    var tasks := Tasks(setup.platform, models, setup.config, workloads, armsByModel, arms);
    TasksAreDistinct(setup.platform, models, setup.config, workloads, armsByModel, arms);
    TasksOwnTheirCells(setup.platform, models, setup.config, workloads, armsByModel, arms);
    TasksMakeThePlan(setup.platform, models, setup.config, workloads, armsByModel, arms);
    SinglePlatform(setup.platform, models, setup.config, workloads, armsByModel, arms);
    hide *;
    ResumedTasks(hash, history, setup, tasks);
  }

  /** The same for any list of calls with distinct units. */
  lemma {:induction false} ResumedTasks(hash: Marker.Hash, history: seq<Marker.Call>, setup: Setup, tasks: seq<Task>)
    requires Marker.Injective(hash) && DistinctUnits(tasks) && OwnCells(tasks)
    ensures var done := Matched(hash, Marker.RunCalls(hash, Marker.EMPTY, history), setup, tasks);
            Measured(hash, history, setup, tasks, |tasks|) == Remaining(done, UnitOf, CellsOf(tasks))
    ensures forall task :: task in tasks ==> Complete(hash, history + Calls(setup, tasks), IdOf(setup, task.unit))
  {
    hide Measured, CellsOf, Remaining, Matched, DistinctUnits, OwnCells, Marker.Skips, Marker.RunCalls,
      Marker.FullDir, Marker.RanToEnd;
    assert history + Calls(setup, tasks[..0]) == history;
    MeasuredIsRemaining(hash, history, setup, tasks, |tasks|);
    assert tasks[..|tasks|] == tasks;
    forall j | 0 <= j < |tasks| ensures Complete(hash, history + Calls(setup, tasks), IdOf(setup, tasks[j].unit)) {
      MarkersDuringRun(hash, history, setup, tasks, |tasks|, j);
      SkipMeansComplete(hash, history + Calls(setup, tasks), setup, tasks[j].unit);
    }
  }

  lemma {:induction false} SkipMeansComplete(hash: Marker.Hash, calls: seq<Marker.Call>, setup: Setup, unit: Unit)
    requires Marker.Injective(hash)
    requires Marker.Skips(Marker.RunCalls(hash, Marker.EMPTY, calls), hash, CallFor(setup, unit))
    ensures Complete(hash, calls, IdOf(setup, unit))
  {
    hide Marker.RunCalls, Marker.FullDir, Marker.RanToEnd, IdOf;
    Marker.SkippedCellIsComplete(hash, calls, CallFor(setup, unit));
  }

  /** The cell's directory holds the whole output of one call of the history for that cell. */
  ghost predicate Complete(hash: Marker.Hash, calls: seq<Marker.Call>, cell: Marker.CellId) {
    var store := Marker.RunCalls(hash, Marker.EMPTY, calls);
    cell.place in store.live
    && store.live[cell.place] == Marker.FullDir(hash, cell, store.live[cell.place].run)
    && Marker.RanToEnd(hash, calls, store.live[cell.place].run, cell)
  }

  // ---- the run itself ---------------------------------------------------------------------------------

  /** The loops of the runner over its calls, on an artifact directory with any history. */
  method RunMatrix(root: Marker.ArtifactRoot, setup: Setup, tasks: seq<Task>, ghost history: seq<Marker.Call>)
    returns (measured: seq<Cell>)
    requires root.store == Marker.RunCalls(root.hash, Marker.EMPTY, history) && root.runs == |history|
    modifies root
    ensures root.runs == |history| + |tasks|
    ensures root.store == Marker.RunCalls(root.hash, Marker.EMPTY, history + Calls(setup, tasks))
    ensures measured == Measured(root.hash, history, setup, tasks, |tasks|)
  {
    hide CallFor, Marker.Skips, Marker.RunCell, Marker.RunCalls, Marker.CellOps;
    measured := [];
    assert history + Calls(setup, tasks[..0]) == history;
    for k := 0 to |tasks|
      invariant root.runs == |history| + k && root.store == StoreAt(root.hash, history, setup, tasks, k)
      invariant measured == Measured(root.hash, history, setup, tasks, k)
    {
      StoreNext(root.hash, history, setup, tasks, k);
      var call := CallFor(setup, tasks[k].unit);
      var skipped := Marker.Skips(root.store, root.hash, call);
      var finished := root.RunOneCell(call);
      if !skipped {
        measured := measured + tasks[k].cells;
      }
    }
    assert tasks[..|tasks|] == tasks;
  }
}
