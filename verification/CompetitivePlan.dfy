/**
  The competitive matrix as a plan and as an execution. The plan is written before anything runs; the runner walks
  its own loops, and this module proves that it runs the planned cells in the planned order.
 */
module CompetitivePlan {
  import opened Common
  import opened TraceCell

  datatype Model = Model(key: string, contextSize: nat, activeLanes: nat)

  datatype Workload = Synthetic | Thoughtworks

  datatype Config = Config(
    concurrency: seq<nat>,
    promptTokens: nat,
    outputTokens: seq<nat>,
    traceOutputTokens: nat,
    minimumPrompts: nat,
    families: nat,
    requestsPerFamily: nat)

  datatype Cell =
    | SyntheticCell(platform: string, model: string, arm: string, promptTokens: nat, outputTokens: nat, concurrency: nat)
    | ThoughtworksCell(platform: string, model: string, arm: string, outputTokens: nat, contextSize: nat,
                       activeLanes: nat, concurrency: nat, promptCount: nat)

  /** What one call of the runner executes, and what its completion marker covers. */
  datatype Unit = SyntheticArm(model: string, arm: string) | TraceArm(model: string, arm: string, concurrency: nat)

  function UnitOf(cell: Cell): Unit {
    match cell
    case SyntheticCell(_, model, arm, _, _, _) => SyntheticArm(model, arm)
    case ThoughtworksCell(_, model, arm, _, _, _, concurrency, _) => TraceArm(model, arm, concurrency)
  }

  ghost predicate ValidConfig(config: Config) {
    forall c :: c in config.concurrency ==> c > 0
  }

  /** Arms run forward at even concurrency indices and backward at odd ones. */
  function OrderedArms(arms: seq<string>, index: nat): seq<string> {
    if index % 2 == 0 then arms else Reversed(arms)
  }

  // ---- the cells, declaratively ------------------------------------------------

  function SyntheticRow(platform: string, model: Model, arm: string, config: Config, tokens: nat): seq<Cell> {
    seq(|config.concurrency|, i requires 0 <= i < |config.concurrency| =>
      SyntheticCell(platform, model.key, arm, config.promptTokens, tokens, config.concurrency[i]))
  }

  function SyntheticArmCells(platform: string, model: Model, arm: string, config: Config): seq<Cell> {
    Flatten(MapSeq(tokens => SyntheticRow(platform, model, arm, config, tokens), config.outputTokens))
  }

  function SyntheticCells(platform: string, model: Model, arms: seq<string>, config: Config): seq<Cell> {
    Flatten(MapSeq(ArmCells(platform, model, config), arms))
  }

  function ArmCells(platform: string, model: Model, config: Config): string -> seq<Cell> {
    (arm: string) => SyntheticArmCells(platform, model, arm, config)
  }

  function TraceCellOf(platform: string, model: Model, arm: string, config: Config, concurrency: nat): Cell
    requires concurrency > 0
  {
    ThoughtworksCell(platform, model.key, arm, config.traceOutputTokens, model.contextSize, model.activeLanes,
                     concurrency,
                     PromptLimit(concurrency, config.minimumPrompts, config.families * config.requestsPerFamily))
  }

  function TraceLevel(platform: string, model: Model, arms: seq<string>, config: Config, index: nat): seq<Cell>
    requires ValidConfig(config) && index < |config.concurrency|
  {
    var ordered := OrderedArms(arms, index);
    assert config.concurrency[index] in config.concurrency;
    seq(|ordered|, i requires 0 <= i < |ordered| =>
      TraceCellOf(platform, model, ordered[i], config, config.concurrency[index]))
  }

  function TraceCells(platform: string, model: Model, arms: seq<string>, config: Config, levels: nat): seq<Cell>
    requires ValidConfig(config) && levels <= |config.concurrency|
  {
    if levels == 0 then []
    else TraceCells(platform, model, arms, config, levels - 1) + TraceLevel(platform, model, arms, config, levels - 1)
  }

  function ModelCells(platform: string, model: Model, arms: seq<string>, config: Config, workloads: set<Workload>): seq<Cell>
    requires ValidConfig(config)
  {
    (if Synthetic in workloads then SyntheticCells(platform, model, arms, config) else [])
    + (if Thoughtworks in workloads then TraceCells(platform, model, arms, config, |config.concurrency|) else [])
  }

  function ArmsFor(armsByModel: map<string, seq<string>>, arms: seq<string>, model: Model): seq<string> {
    if model.key in armsByModel then armsByModel[model.key] else arms
  }

  function PlatformCells(platform: string, models: seq<Model>, config: Config, workloads: set<Workload>,
                         armsByModel: map<string, seq<string>>, arms: seq<string>): seq<Cell>
    requires ValidConfig(config)
  {
    if models == [] then []
    else
      var front, last := models[..|models| - 1], models[|models| - 1];
      PlatformCells(platform, front, config, workloads, armsByModel, arms)
      + ModelCells(platform, last, ArmsFor(armsByModel, arms, last), config, workloads)
  }

  function PlannedCells(platforms: seq<string>, models: seq<Model>, config: Config, workloads: set<Workload>,
                        armsByModel: map<string, seq<string>>, arms: seq<string>): seq<Cell>
    requires ValidConfig(config)
  {
    if platforms == [] then []
    else
      PlannedCells(platforms[..|platforms| - 1], models, config, workloads, armsByModel, arms)
      + PlatformCells(platforms[|platforms| - 1], models, config, workloads, armsByModel, arms)
  }

  // ---- the planner's loops --------------------------------------------------------

  method PlanSynthetic(platform: string, model: Model, arms: seq<string>, config: Config) returns (cells: seq<Cell>)
    ensures cells == SyntheticCells(platform, model, arms, config)
  {
    cells := [];
    for a := 0 to |arms|
      invariant cells == SyntheticCells(platform, model, arms[..a], config)
    {
      var armCells := SyntheticLoops(platform, model, arms[a], config);
      cells := cells + armCells;
      ExtendArms(platform, model, arms, config, a);
    }
    assert arms[..|arms|] == arms;
  }

  method SyntheticLoops(platform: string, model: Model, arm: string, config: Config) returns (cells: seq<Cell>)
    ensures cells == SyntheticArmCells(platform, model, arm, config)
  {
    cells := [];
    var row := tokens => SyntheticRow(platform, model, arm, config, tokens);
    for t := 0 to |config.outputTokens|
      invariant cells == Flatten(MapSeq(row, config.outputTokens[..t]))
    {
      ghost var before := cells;
      var tokens := config.outputTokens[t];
      for c := 0 to |config.concurrency|
        invariant cells == before + SyntheticRow(platform, model, arm, config, tokens)[..c]
      {
        cells := cells + [SyntheticCell(platform, model.key, arm, config.promptTokens, tokens, config.concurrency[c])];
      }
      FlattenMapExtend(row, config.outputTokens, t);
    }
    assert config.outputTokens[..|config.outputTokens|] == config.outputTokens;
  }

  lemma FlattenMapExtend<A, B>(f: A -> seq<B>, s: seq<A>, i: nat)
    requires i < |s|
    ensures Flatten(MapSeq(f, s[..i + 1])) == Flatten(MapSeq(f, s[..i])) + f(s[i])
  {
    assert MapSeq(f, s[..i + 1]) == MapSeq(f, s[..i]) + [f(s[i])];
    FlattenAppend(MapSeq(f, s[..i]), [f(s[i])]);
    assert Flatten([f(s[i])]) == f(s[i]) + Flatten([]);
  }

  lemma ExtendArms(platform: string, model: Model, arms: seq<string>, config: Config, a: nat)
    requires a < |arms|
    ensures SyntheticCells(platform, model, arms[..a + 1], config)
         == SyntheticCells(platform, model, arms[..a], config) + SyntheticArmCells(platform, model, arms[a], config)
  {
    FlattenMapExtend(ArmCells(platform, model, config), arms, a);
  }

  method PlanTrace(platform: string, model: Model, arms: seq<string>, config: Config) returns (cells: seq<Cell>)
    requires ValidConfig(config)
    ensures cells == TraceCells(platform, model, arms, config, |config.concurrency|)
  {
    cells := [];
    for index := 0 to |config.concurrency|
      invariant cells == TraceCells(platform, model, arms, config, index)
    {
      var level := PlanTraceLevel(platform, model, arms, config, index);
      cells := cells + level;
    }
  }

  method PlanTraceLevel(platform: string, model: Model, arms: seq<string>, config: Config, index: nat)
    returns (cells: seq<Cell>)
    requires ValidConfig(config) && index < |config.concurrency|
    ensures cells == TraceLevel(platform, model, arms, config, index)
  {
    hide PromptLimit;
    cells := [];
    var available := config.families * config.requestsPerFamily;
    var concurrency := config.concurrency[index];
    assert concurrency in config.concurrency;
    var ordered := if index % 2 == 0 then arms else Reversed(arms);
    for a := 0 to |ordered|
      invariant cells == TraceLevel(platform, model, arms, config, index)[..a]
    {
      cells := cells + [ThoughtworksCell(platform, model.key, ordered[a], config.traceOutputTokens,
                                         model.contextSize, model.activeLanes, concurrency,
                                         PromptLimit(concurrency, config.minimumPrompts, available))];
    }
  }

  method PlanPlatform(platform: string, models: seq<Model>, config: Config, workloads: set<Workload>,
                      armsByModel: map<string, seq<string>>, arms: seq<string>) returns (cells: seq<Cell>)
    requires ValidConfig(config)
    ensures cells == PlatformCells(platform, models, config, workloads, armsByModel, arms)
  {
    cells := [];
    for m := 0 to |models|
      invariant cells == PlatformCells(platform, models[..m], config, workloads, armsByModel, arms)
    {
      var modelArms := ArmsFor(armsByModel, arms, models[m]);
      var synthetic, trace := [], [];
      if Synthetic in workloads {
        synthetic := PlanSynthetic(platform, models[m], modelArms, config);
      }
      if Thoughtworks in workloads {
        trace := PlanTrace(platform, models[m], modelArms, config);
      }
      cells := cells + (synthetic + trace);
      ExtendPlatform(platform, models, config, workloads, armsByModel, arms, m);
    }
    assert models[..|models|] == models;
  }

  lemma ExtendPlatform(platform: string, models: seq<Model>, config: Config, workloads: set<Workload>,
                       armsByModel: map<string, seq<string>>, arms: seq<string>, m: nat)
    requires ValidConfig(config) && m < |models|
    ensures PlatformCells(platform, models[..m + 1], config, workloads, armsByModel, arms)
         == PlatformCells(platform, models[..m], config, workloads, armsByModel, arms)
            + ModelCells(platform, models[m], ArmsFor(armsByModel, arms, models[m]), config, workloads)
  {
    hide ModelCells;
    assert models[..m + 1][..m] == models[..m];
  }

  method BuildPlan(platforms: seq<string>, models: seq<Model>, config: Config, workloads: set<Workload>,
                   armsByModel: map<string, seq<string>>, arms: seq<string>) returns (cells: seq<Cell>)
    requires ValidConfig(config)
    ensures cells == PlannedCells(platforms, models, config, workloads, armsByModel, arms)
  {
    cells := [];
    for p := 0 to |platforms|
      invariant cells == PlannedCells(platforms[..p], models, config, workloads, armsByModel, arms)
    {
      var onPlatform := PlanPlatform(platforms[p], models, config, workloads, armsByModel, arms);
      cells := cells + onPlatform;
      assert platforms[..p + 1][..p] == platforms[..p];
    }
    assert platforms[..|platforms|] == platforms;
  }

  // ---- what is planned ----------------------------------------------------------------

  /** The cell names a model of the list and one of the arms that apply to it. */
  ghost predicate NamesArm(models: seq<Model>, armsByModel: map<string, seq<string>>, arms: seq<string>, model: Model,
                           arm: string) {
    model in models
    && (model.key in armsByModel ==> arm in armsByModel[model.key])
    && (model.key !in armsByModel ==> arm in arms)
  }

  /** A planned cell: one of the two workloads, with the settings of the configuration and of its model. */
  ghost predicate IsPlanned(platforms: seq<string>, models: seq<Model>, config: Config, workloads: set<Workload>,
                            armsByModel: map<string, seq<string>>, arms: seq<string>, cell: Cell) {
    cell.platform in platforms && cell.concurrency in config.concurrency && cell.concurrency > 0
    && exists model :: NamesArm(models, armsByModel, arms, model, cell.arm) && FitsModel(config, workloads, model, cell)
  }

  ghost predicate FitsModel(config: Config, workloads: set<Workload>, model: Model, cell: Cell)
    requires cell.concurrency > 0
  {
    cell.model == model.key
    && match cell
       case SyntheticCell(_, _, _, promptTokens, outputTokens, _) =>
         Synthetic in workloads && promptTokens == config.promptTokens && outputTokens in config.outputTokens
       case ThoughtworksCell(_, _, _, outputTokens, contextSize, activeLanes, concurrency, promptCount) =>
         Thoughtworks in workloads && outputTokens == config.traceOutputTokens && contextSize == model.contextSize
         && activeLanes == model.activeLanes
         && promptCount == PromptLimit(concurrency, config.minimumPrompts, config.families * config.requestsPerFamily)
  }

  lemma ArmCellMember(platform: string, model: Model, arm: string, config: Config, cell: Cell)
    ensures cell in SyntheticArmCells(platform, model, arm, config)
            <==> cell.SyntheticCell? && cell.platform == platform && cell.model == model.key && cell.arm == arm
                 && cell.promptTokens == config.promptTokens && cell.outputTokens in config.outputTokens
                 && cell.concurrency in config.concurrency
  {
    var row := tokens => SyntheticRow(platform, model, arm, config, tokens);
    var rows := MapSeq(row, config.outputTokens);
    FlattenMember(rows, cell);
    if i :| 0 <= i < |rows| && cell in rows[i] {
      assert rows[i] == SyntheticRow(platform, model, arm, config, config.outputTokens[i]);
    }
    if cell.SyntheticCell? && cell.platform == platform && cell.model == model.key && cell.arm == arm
       && cell.promptTokens == config.promptTokens && cell.outputTokens in config.outputTokens
       && cell.concurrency in config.concurrency {
      var i :| 0 <= i < |config.outputTokens| && config.outputTokens[i] == cell.outputTokens;
      var j :| 0 <= j < |config.concurrency| && config.concurrency[j] == cell.concurrency;
      assert rows[i] == SyntheticRow(platform, model, arm, config, cell.outputTokens);
      assert rows[i][j] == cell;
    }
  }

  lemma SyntheticMember(platform: string, model: Model, arms: seq<string>, config: Config, cell: Cell)
    ensures cell in SyntheticCells(platform, model, arms, config)
            <==> cell.SyntheticCell? && cell.platform == platform && cell.model == model.key && cell.arm in arms
                 && cell.promptTokens == config.promptTokens && cell.outputTokens in config.outputTokens
                 && cell.concurrency in config.concurrency
  {
    hide SyntheticArmCells;
    var parts := MapSeq(ArmCells(platform, model, config), arms);
    FlattenMember(parts, cell);
    forall a | 0 <= a < |arms| ensures parts[a] == SyntheticArmCells(platform, model, arms[a], config) {
    }
    forall arm | arm in arms ensures exists a :: 0 <= a < |arms| && arms[a] == arm && parts[a]
                                       == SyntheticArmCells(platform, model, arm, config) {
    }
    if a :| 0 <= a < |parts| && cell in parts[a] {
      ArmCellMember(platform, model, arms[a], config, cell);
    }
    ArmCellMember(platform, model, cell.arm, config, cell);
  }

  lemma LevelMember(platform: string, model: Model, arms: seq<string>, config: Config, index: nat, cell: Cell)
    requires ValidConfig(config) && index < |config.concurrency|
    ensures config.concurrency[index] > 0
    ensures cell in TraceLevel(platform, model, arms, config, index)
            <==> cell.arm in arms && cell == TraceCellOf(platform, model, cell.arm, config, config.concurrency[index])
  {
    hide PromptLimit;
    assert config.concurrency[index] in config.concurrency;
    var ordered := OrderedArms(arms, index);
    forall arm ensures arm in ordered <==> arm in arms {
      if arm in arms {
        var i :| 0 <= i < |arms| && arms[i] == arm;
        assert ordered[if index % 2 == 0 then i else |arms| - 1 - i] == arm;
      }
    }
    if cell.arm in arms && cell == TraceCellOf(platform, model, cell.arm, config, config.concurrency[index]) {
      var i :| 0 <= i < |ordered| && ordered[i] == cell.arm;
      assert TraceLevel(platform, model, arms, config, index)[i] == cell;
    }
  }

  lemma {:induction false} TraceMember(platform: string, model: Model, arms: seq<string>, config: Config, levels: nat,
                                       cell: Cell)
    requires ValidConfig(config) && levels <= |config.concurrency|
    ensures cell in TraceCells(platform, model, arms, config, levels)
            <==> cell.arm in arms && cell.concurrency in config.concurrency[..levels] && cell.concurrency > 0
                 && cell == TraceCellOf(platform, model, cell.arm, config, cell.concurrency)
  {
    hide PromptLimit, TraceLevel;
    if levels == 0 {
    } else {
      TraceMember(platform, model, arms, config, levels - 1, cell);
      LevelMember(platform, model, arms, config, levels - 1, cell);
      assert config.concurrency[..levels] == config.concurrency[..levels - 1] + [config.concurrency[levels - 1]];
    }
  }

  lemma ModelMember(platform: string, model: Model, arms: seq<string>, config: Config, workloads: set<Workload>, cell: Cell)
    requires ValidConfig(config)
    ensures cell in ModelCells(platform, model, arms, config, workloads)
            <==> cell.platform == platform && cell.arm in arms && cell.concurrency in config.concurrency
                 && cell.concurrency > 0 && FitsModel(config, workloads, model, cell)
  {
    hide PromptLimit, SyntheticCells, TraceCells;
    SyntheticMember(platform, model, arms, config, cell);
    TraceMember(platform, model, arms, config, |config.concurrency|, cell);
    assert config.concurrency[..|config.concurrency|] == config.concurrency;
  }

  lemma {:induction false} PlatformMember(platform: string, models: seq<Model>, config: Config, workloads: set<Workload>,
                                          armsByModel: map<string, seq<string>>, arms: seq<string>, cell: Cell)
    requires ValidConfig(config)
    ensures cell in PlatformCells(platform, models, config, workloads, armsByModel, arms)
            <==> IsPlanned([platform], models, config, workloads, armsByModel, arms, cell)
  {
    hide FitsModel, ModelCells;
    if models == [] {
    } else {
      var front, last := models[..|models| - 1], models[|models| - 1];
      assert models == front + [last];
      assert forall model :: model in models <==> model in front || model == last;
      PlatformMember(platform, front, config, workloads, armsByModel, arms, cell);
      ModelMember(platform, last, ArmsFor(armsByModel, arms, last), config, workloads, cell);
      if cell.concurrency > 0 && FitsModel(config, workloads, last, cell) {
        assert NamesArm(models, armsByModel, arms, last, cell.arm) <==> cell.arm in ArmsFor(armsByModel, arms, last);
      }
      forall model ensures NamesArm(models, armsByModel, arms, model, cell.arm)
                           <==> NamesArm(front, armsByModel, arms, model, cell.arm)
                                || (model == last && cell.arm in ArmsFor(armsByModel, arms, last)) {
      }
    }
  }

  /** The plan holds exactly the cells of the configuration: every platform, model, applicable arm, level and budget. */
  lemma {:induction false} PlannedIff(platforms: seq<string>, models: seq<Model>, config: Config, workloads: set<Workload>,
                                      armsByModel: map<string, seq<string>>, arms: seq<string>, cell: Cell)
    requires ValidConfig(config)
    ensures cell in PlannedCells(platforms, models, config, workloads, armsByModel, arms)
            <==> IsPlanned(platforms, models, config, workloads, armsByModel, arms, cell)
  {
    hide FitsModel, PlatformCells, NamesArm;
    if platforms == [] {
    } else {
      var n := |platforms| - 1;
      assert platforms == platforms[..n] + [platforms[n]];
      PlannedIff(platforms[..n], models, config, workloads, armsByModel, arms, cell);
      PlatformMember(platforms[n], models, config, workloads, armsByModel, arms, cell);
    }
  }

  // ---- the runner's loops -----------------------------------------------------------

  lemma RemainingUnit(done: set<Unit>, cells: seq<Cell>, unit: Unit)
    requires forall cell :: cell in cells ==> UnitOf(cell) == unit
    ensures Remaining(done, UnitOf, cells) == if unit in done then [] else cells
  {
    var keep := Unfinished(done, UnitOf);
    if unit in done {
      FilterNone(keep, cells);
    } else {
      FilterAll(keep, cells);
    }
  }

  /** One synthetic arm: skipped as a whole, or run over output budgets and concurrency levels. */
  method RunSyntheticArm(platform: string, model: Model, arm: string, config: Config, done: set<Unit>)
    returns (executed: seq<Cell>)
    ensures executed == Remaining(done, UnitOf, SyntheticArmCells(platform, model, arm, config))
  {
    SyntheticArmUnit(platform, model, arm, config);
    RemainingUnit(done, SyntheticArmCells(platform, model, arm, config), SyntheticArm(model.key, arm));
    if SyntheticArm(model.key, arm) in done {
      return [];
    }
    executed := [];
    var row := tokens => SyntheticRow(platform, model, arm, config, tokens);
    for t := 0 to |config.outputTokens|
      invariant executed == Flatten(MapSeq(row, config.outputTokens[..t]))
    {
      var measured := MeasureRow(platform, model, arm, config, config.outputTokens[t]);
      executed := executed + measured;
      FlattenMapExtend(row, config.outputTokens, t);
    }
    assert config.outputTokens[..|config.outputTokens|] == config.outputTokens;
  }

  /** One output budget at every concurrency level. */
  method MeasureRow(platform: string, model: Model, arm: string, config: Config, outputTokens: nat)
    returns (executed: seq<Cell>)
    ensures executed == SyntheticRow(platform, model, arm, config, outputTokens)
  {
    executed := [];
    var i := 0;
    while i < |config.concurrency|
      invariant i <= |config.concurrency| && executed == SyntheticRow(platform, model, arm, config, outputTokens)[..i]
    {
      var concurrency := config.concurrency[i];
      executed := executed
        + [SyntheticCell(platform, model.key, arm, config.promptTokens, outputTokens, concurrency)];
      i := i + 1;
    }
  }

  lemma SyntheticArmUnit(platform: string, model: Model, arm: string, config: Config)
    ensures forall cell :: cell in SyntheticArmCells(platform, model, arm, config) ==>
              UnitOf(cell) == SyntheticArm(model.key, arm)
  {
    var rows := MapSeq(tokens => SyntheticRow(platform, model, arm, config, tokens), config.outputTokens);
    forall cell | cell in Flatten(rows) ensures UnitOf(cell) == SyntheticArm(model.key, arm) {
      FlattenMember(rows, cell);
    }
  }

  method RunSynthetic(platform: string, model: Model, arms: seq<string>, config: Config, done: set<Unit>)
    returns (executed: seq<Cell>)
    ensures executed == Remaining(done, UnitOf, SyntheticCells(platform, model, arms, config))
  {
    executed := [];
    for a := 0 to |arms|
      invariant executed == Remaining(done, UnitOf, SyntheticCells(platform, model, arms[..a], config))
    {
      var ran := RunSyntheticArm(platform, model, arms[a], config, done);
      executed := executed + ran;
      ExtendArms(platform, model, arms, config, a);
      RemainingAppend(done, UnitOf, SyntheticCells(platform, model, arms[..a], config),
                      SyntheticArmCells(platform, model, arms[a], config));
    }
    assert arms[..|arms|] == arms;
  }

  /** One trace cell; its prompt count comes from the loaded manifest instead of the configuration. */
  method RunTraceArm(platform: string, model: Model, arm: string, config: Config, concurrency: nat,
                     prompts: seq<string>, done: set<Unit>) returns (executed: seq<Cell>)
    requires concurrency > 0 && |prompts| == config.families * config.requestsPerFamily
    ensures executed == Remaining(done, UnitOf, [TraceCellOf(platform, model, arm, config, concurrency)])
  {
    RemainingUnit(done, [TraceCellOf(platform, model, arm, config, concurrency)], TraceArm(model.key, arm, concurrency));
    if TraceArm(model.key, arm, concurrency) in done {
      return [];
    }
    executed := [ThoughtworksCell(platform, model.key, arm, config.traceOutputTokens, model.contextSize,
                                  model.activeLanes, concurrency,
                                  PromptLimit(concurrency, config.minimumPrompts, |prompts|))];
  }

  method RunTrace(platform: string, model: Model, arms: seq<string>, config: Config, prompts: seq<string>,
                  done: set<Unit>) returns (executed: seq<Cell>)
    requires ValidConfig(config) && |prompts| == config.families * config.requestsPerFamily
    ensures executed == Remaining(done, UnitOf, TraceCells(platform, model, arms, config, |config.concurrency|))
  {
    executed := [];
    for index := 0 to |config.concurrency|
      invariant executed == Remaining(done, UnitOf, TraceCells(platform, model, arms, config, index))
    {
      var ran := RunTraceLevel(platform, model, arms, config, index, prompts, done);
      executed := executed + ran;
      RemainingAppend(done, UnitOf, TraceCells(platform, model, arms, config, index),
                      TraceLevel(platform, model, arms, config, index));
    }
  }

  method RunTraceLevel(platform: string, model: Model, arms: seq<string>, config: Config, index: nat,
                       prompts: seq<string>, done: set<Unit>) returns (executed: seq<Cell>)
    requires ValidConfig(config) && index < |config.concurrency|
    requires |prompts| == config.families * config.requestsPerFamily
    ensures executed == Remaining(done, UnitOf, TraceLevel(platform, model, arms, config, index))
  {
    executed := [];
    assert config.concurrency[index] in config.concurrency;
    var ordered := if index % 2 == 0 then arms else Reversed(arms);
    ghost var level := TraceLevel(platform, model, arms, config, index);
    for a := 0 to |ordered|
      invariant executed == Remaining(done, UnitOf, level[..a])
    {
      var ran := RunTraceArm(platform, model, ordered[a], config, config.concurrency[index], prompts, done);
      executed := executed + ran;
      assert level[..a + 1] == level[..a] + [level[a]];
      RemainingAppend(done, UnitOf, level[..a], [level[a]]);
    }
    assert level[..|ordered|] == level;
  }

  method RunModel(platform: string, model: Model, config: Config, workloads: set<Workload>, arms: seq<string>,
                  prompts: seq<string>, done: set<Unit>) returns (executed: seq<Cell>)
    requires ValidConfig(config)
    requires Thoughtworks in workloads ==> |prompts| == config.families * config.requestsPerFamily
    ensures executed == Remaining(done, UnitOf, ModelCells(platform, model, arms, config, workloads))
  {
    executed := [];
    if Synthetic in workloads {
      executed := RunSynthetic(platform, model, arms, config, done);
    }
    if Thoughtworks in workloads {
      var ran := RunTrace(platform, model, arms, config, prompts, done);
      executed := executed + ran;
    }
    RemainingAppend(done, UnitOf,
                    if Synthetic in workloads then SyntheticCells(platform, model, arms, config) else [],
                    if Thoughtworks in workloads then TraceCells(platform, model, arms, config, |config.concurrency|)
                    else []);
  }

  /**
    A run on one platform executes exactly the plan's cells, in the plan's order, less the units that were already
    complete when it started.
   */
  method RunBenchmark(platform: string, models: seq<Model>, config: Config, workloads: set<Workload>,
                      armsByModel: map<string, seq<string>>, arms: seq<string>, prompts: seq<string>,
                      done: set<Unit>) returns (plan: seq<Cell>, executed: seq<Cell>)
    requires ValidConfig(config)
    requires Thoughtworks in workloads ==> |prompts| == config.families * config.requestsPerFamily
    ensures plan == PlannedCells([platform], models, config, workloads, armsByModel, arms)
    ensures executed == Remaining(done, UnitOf, plan)
    ensures done == {} ==> executed == plan
  {
    plan := BuildPlan([platform], models, config, workloads, armsByModel, arms);
    executed := [];
    for m := 0 to |models|
      invariant executed == Remaining(done, UnitOf, PlatformCells(platform, models[..m], config, workloads, armsByModel, arms))
    {
      var modelArms := ArmsFor(armsByModel, arms, models[m]);
      var ran := RunModel(platform, models[m], config, workloads, modelArms, prompts, done);
      executed := executed + ran;
      ExtendPlatform(platform, models, config, workloads, armsByModel, arms, m);
      RemainingAppend(done, UnitOf, PlatformCells(platform, models[..m], config, workloads, armsByModel, arms),
                      ModelCells(platform, models[m], modelArms, config, workloads));
    }
    assert models[..|models|] == models;
    SinglePlatform(platform, models, config, workloads, armsByModel, arms);
    if done == {} {
      FilterAll(Unfinished(done, UnitOf), plan);
    }
  }

  lemma SinglePlatform(platform: string, models: seq<Model>, config: Config, workloads: set<Workload>,
                       armsByModel: map<string, seq<string>>, arms: seq<string>)
    requires ValidConfig(config)
    ensures PlannedCells([platform], models, config, workloads, armsByModel, arms)
         == PlatformCells(platform, models, config, workloads, armsByModel, arms)
  {
    assert [platform][..0] == [];
  }

  // ---- what the order amounts to --------------------------------------------------------

  /** Level `index` of a model's trace cells starts at `index * arms` and runs its arms forward or backward. */
  lemma {:induction false} TraceOrder(platform: string, model: Model, arms: seq<string>, config: Config,
                                      levels: nat, index: nat, a: nat)
    requires ValidConfig(config) && index < levels <= |config.concurrency| && a < |arms|
    ensures |TraceCells(platform, model, arms, config, levels)| == levels * |arms|
    ensures 0 <= index * |arms| + a < levels * |arms|
    ensures TraceCells(platform, model, arms, config, levels)[index * |arms| + a]
         == TraceLevel(platform, model, arms, config, index)[a]
    decreases levels
  {
    hide TraceLevel;
    LevelSize(platform, model, arms, config, levels - 1);
    LevelsLength(platform, model, arms, config, levels - 1);
    NextMultiple(levels, |arms|);
    if index == levels - 1 {
    } else {
      TraceOrder(platform, model, arms, config, levels - 1, index, a);
    }
  }

  lemma LevelSize(platform: string, model: Model, arms: seq<string>, config: Config, index: nat)
    requires ValidConfig(config) && index < |config.concurrency|
    ensures |TraceLevel(platform, model, arms, config, index)| == |arms|
  {
  }

  lemma NextMultiple(n: nat, width: nat)
    requires n > 0
    ensures n * width == (n - 1) * width + width
  {
  }

  lemma {:induction false} LevelsLength(platform: string, model: Model, arms: seq<string>, config: Config, levels: nat)
    requires ValidConfig(config) && levels <= |config.concurrency|
    ensures |TraceCells(platform, model, arms, config, levels)| == levels * |arms|
  {
    hide TraceLevel;
    if levels == 0 {
    } else {
      LevelSize(platform, model, arms, config, levels - 1);
      LevelsLength(platform, model, arms, config, levels - 1);
      NextMultiple(levels, |arms|);
    }
  }
}
