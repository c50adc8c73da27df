/**
  Runs of the engine from an empty project in which what `EngineRuns` and `EngineRecovery`
  guard against happens, so the conditions stated there are needed.
 */
module EngineWitnesses {
  import opened ContextItems
  import opened EngineModel
  import opened EngineRuns
  import opened Text
  import opened Tokens
  import opened Wrappers

  const NO_SAVE := ALL_WELL.(save := false)

  function Well(op: Op): Step { Step(op, _ => ALL_WELL) }

  function Unsaved(op: Op): Step { Step(op, _ => NO_SAVE) }

  predicate Reaches(config: Config, steps: seq<Step>, s: State) { After(config, EMPTY, steps, |steps|) == s }

  lemma {:induction false} SamePrefix(config: Config, s: State, steps: seq<Step>, step: Step, n: nat)
    requires n <= |steps|
    ensures After(config, s, steps + [step], n) == After(config, s, steps, n)
  {
    hide Apply;
    if n > 0 { SamePrefix(config, s, steps, step, n - 1); }
  }

  lemma Then(config: Config, before: seq<Step>, s: State, step: Step) returns (steps: seq<Step>)
    requires Reaches(config, before, s)
    ensures steps == before + [step] && Reaches(config, steps, Apply(config, s, step.op, step.io))
  {
    hide Apply;
    steps := before + [step];
    SamePrefix(config, EMPTY, before, step, |before|);
  }

  /** An item that any enabled engine takes. */
  function Empty(id: string): Item { Item(id, Tool, "", 0, 0.0, 0.0, 0.0, Active, Project, Caller("")) }

  lemma EmptyItem()
    ensures ItemOk(Empty("a"))
  {
    assert Bytes("a") == 1 by { assert "a"[1..] == ""; }
  }

  /** The state of an engine that holds these items and has done nothing else. */
  function Holding(items: seq<Item>): State { State(items, {}, Window(items, {}), map[], map[]) }

  lemma InsertFirst(config: Config, x: Item)
    requires config.enabled && ItemOk(x) && x.tokenCount <= config.budget.maxInputTokens
    ensures Apply(config, EMPTY, DoInsert(x), _ => ALL_WELL) == Holding([x])
  {
    assert Without([], x.id) == [] && [] + [x] == [x];
  }

  /** Inserting an item that says it is offloaded leaves it without a record. */
  lemma InsertCanUncover(config: Config) returns (steps: seq<Step>, s: State)
    requires config.enabled
    ensures Reaches(config, steps, s) && !Covered(s)
  {
    var x := Empty("a").(state := Offloaded);
    EmptyItem();
    InsertFirst(config, x);
    s := Holding([x]);
    steps := Then(config, [], EMPTY, Well(DoInsert(x)));
    assert x in s.items;
  }

  lemma WithOne(x: Item, y: Item)
    requires y.id == x.id
    ensures Find([x], x.id) == Some(x) && Put([x], y) == [y] && Without([x], x.id) == []
    ensures ActiveTokens([x]) == ActiveCost(x)
  {
    assert [x][1..] == [] && Without([x][1..], x.id) == [];
    assert [] + [y] == [y];
  }

  /** An item that is offloaded and restored with the window write failing stays offloaded
      and loses its record. */
  lemma RestoreCanUncover(config: Config) returns (steps: seq<Step>, s: State)
    requires config.enabled
    ensures Reaches(config, steps, s) && !Covered(s)
  {
    var x := Empty("a");
    var y := x.(state := Offloaded);
    EmptyItem();
    InsertFirst(config, x);
    WithOne(x, y);
    WithOne(y, y);
    var offloaded := Holding([y]).(offloads := map["a" := y]);
    assert Apply(config, Holding([x]), DoOffload("a"), _ => ALL_WELL) == offloaded;
    s := Holding([y]);
    assert offloaded.offloads - {"a"} == map[];
    assert Apply(config, offloaded, DoRestore("a"), _ => NO_SAVE) == s;
    steps := Then(config, [], EMPTY, Well(DoInsert(x)));
    steps := Then(config, steps, Holding([x]), Well(DoOffload("a")));
    steps := Then(config, steps, offloaded, Unsaved(DoRestore("a")));
    assert y in s.items;
  }

  /** Protecting an item again with the window write failing drops its protection in memory
      and not on disk. */
  lemma ProtectCanLapse(config: Config) returns (steps: seq<Step>, s: State)
    requires config.enabled
    ensures Reaches(config, steps, s) && !InSync(s)
  {
    var x := Empty("a");
    EmptyItem();
    InsertFirst(config, x);
    WithOne(x, x);
    var protected := Holding([x]).(protected := {"a"}, window := Window([x], {"a"}));
    s := protected.(protected := {});
    assert Apply(config, Holding([x]), DoProtect("a"), _ => ALL_WELL) == protected;
    assert {"a"} + {"a"} - {"a"} == {};
    assert Apply(config, protected, DoProtect("a"), _ => NO_SAVE) == s;
    steps := Then(config, [], EMPTY, Well(DoInsert(x)));
    steps := Then(config, steps, Holding([x]), Well(DoProtect("a")));
    steps := Then(config, steps, protected, Unsaved(DoProtect("a")));
    assert "a" in {"a"};
  }

  /** Removing an item with the window write failing protects it in memory and not on disk. */
  lemma RemoveCanLapse(config: Config) returns (steps: seq<Step>, s: State)
    requires config.enabled
    ensures Reaches(config, steps, s) && !InSync(s)
  {
    var x := Empty("a");
    EmptyItem();
    InsertFirst(config, x);
    WithOne(x, x);
    s := Holding([x]).(protected := {"a"});
    assert Apply(config, Holding([x]), DoRemove("a"), _ => NO_SAVE) == s;
    steps := Then(config, [], EMPTY, Well(DoInsert(x)));
    steps := Then(config, steps, Holding([x]), Unsaved(DoRemove("a")));
    assert "a" in {"a"};
  }

  // ---------------------------------------------------------------- a snapshot that overflows

  /** Two active items that fit one by one and not together. */
  predicate FitApart(config: Config, x: Item, y: Item) {
    && config.enabled && x.id != y.id && ItemOk(x) && ItemOk(y) && x.state.Active? && y.state.Active?
    && Fits(config.budget, x.tokenCount) && Fits(config.budget, y.tokenCount)
    && !Fits(config.budget, x.tokenCount + y.tokenCount)
  }

  lemma InsertSecond(config: Config, x: Item, y: Item)
    requires FitApart(config, x, y)
    ensures var taken := Holding([]).(snapshots := map["s" := [x]]);
            Apply(config, taken, DoInsert(y), _ => ALL_WELL) == Holding([y]).(snapshots := map["s" := [x]])
  {
    assert Without([], y.id) == [] && [] + [y] == [y];
  }

  lemma SnapshotName()
    ensures ValidSnapshotId("s")
  {
    assert Bytes("s") == 1 by { assert "s"[1..] == ""; }
  }

  lemma TakeAndRemove(config: Config, x: Item)
    requires config.enabled && x.state.Active?
    ensures var taken := Holding([x]).(snapshots := map["s" := [x]]);
            && Apply(config, Holding([x]), DoSnapshot("s"), _ => ALL_WELL) == taken
            && Apply(config, taken, DoRemove(x.id), _ => ALL_WELL) == Holding([]).(snapshots := map["s" := [x]])
  {
    SnapshotName();
    WithOne(x, x);
    assert ActiveItems([x]) == [x] by { assert [x][1..] == [] && [x] + [] == [x]; }
    assert map["s" := [x]] == map[]["s" := [x]];
    assert {} - {x.id} == {};
  }

  lemma TwoActive(x: Item, y: Item)
    requires x.state.Active? && y.state.Active?
    ensures ActiveTokens([x, y]) == x.tokenCount + y.tokenCount
  {
    assert [x, y][1..] == [y] && [y][1..] == [];
    assert ActiveTokens([y]) == y.tokenCount;
  }

  lemma RestoreOnTop(config: Config, x: Item, y: Item)
    requires FitApart(config, x, y)
    ensures var s := Holding([y]).(snapshots := map["s" := [x]]);
            var t := Apply(config, s, DoRestoreSnapshot("s"), _ => ALL_WELL);
            !Fits(config.budget, ActiveTokens(t.items))
  {
    SnapshotName();
    var s := Holding([y]).(snapshots := map["s" := [x]]);
    var z := x.(recency := 1.0, state := Active);
    assert Without([y], z.id) == [y] by { assert [y][1..] == [] && [y] + [] == [y]; }
    assert [y] + [z] == [y, z];
    var io: nat -> IO := _ => ALL_WELL;
    assert RestoringOver(config, s, [x], 0, io) == Restoring(s, 0, [], []);
    assert RestoringOver(config, s, [x], 1, io).state.items == [y, z];
    TwoActive(y, z);
  }

  /** Restoring a snapshot takes the active tokens past the usable budget: for any two items
      that fit apart and not together, a run that snapshots the first, removes it, inserts
      the second and restores. */
  lemma SnapshotRestoreOverflows(config: Config, x: Item, y: Item) returns (steps: seq<Step>, s: State, t: State)
    requires FitApart(config, x, y)
    ensures Reaches(config, steps, s) && Fits(config.budget, ActiveTokens(s.items))
    ensures Reaches(config, steps + [Well(DoRestoreSnapshot("s"))], t)
    ensures !Fits(config.budget, ActiveTokens(t.items))
  {
    var taken, gone := Holding([x]).(snapshots := map["s" := [x]]), Holding([]).(snapshots := map["s" := [x]]);
    s := Holding([y]).(snapshots := map["s" := [x]]);
    t := Apply(config, s, DoRestoreSnapshot("s"), _ => ALL_WELL);
    InsertFirst(config, x);
    TakeAndRemove(config, x);
    InsertSecond(config, x, y);
    WithOne(y, y);
    RestoreOnTop(config, x, y);
    steps := Then(config, [], EMPTY, Well(DoInsert(x)));
    steps := Then(config, steps, Holding([x]), Well(DoSnapshot("s")));
    steps := Then(config, steps, taken, Well(DoRemove(x.id)));
    steps := Then(config, steps, gone, Well(DoInsert(y)));
    var whole := Then(config, steps, s, Well(DoRestoreSnapshot("s")));
  }

  /** There are such items: one-letter ones, with room for one token. */
  lemma ItemsFitApart() returns (config: Config, x: Item, y: Item)
    ensures FitApart(config, x, y)
  {
    config := Config(true, Budget(1, 0, 0), true, true);
    x := Item("a", Tool, "w", 1, 0.0, 0.0, 0.0, Active, Project, Caller(""));
    y := x.(id := "b");
    assert Bytes("a") == 1 by { assert "a"[1..] == ""; }
    assert Bytes("b") == 1 by { assert "b"[1..] == ""; }
    assert Count("w") == 1 by { assert "w"[..1] == "w" && "w"[1..] == ""; }
  }
}
