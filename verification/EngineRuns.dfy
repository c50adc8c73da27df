/**
  The context engine over whole runs (src/context/engine.rs): what every operation keeps
  under arbitrary file failures, and that offloaded content can be had back.
 */
module EngineRuns {
  import opened ContextItems
  import opened EngineModel
  import opened EnginePass
  import opened Tokens
  import opened Wrappers
  import P = ContextPolicy

  datatype Op =
    | DoInsert(item: Item)
    | DoProtect(id: string)
    | DoUnprotect(id: string)
    | DoRemove(id: string)
    | DoOffload(id: string)
    | DoRestore(id: string)
    | DoArchive(id: string)
    | DoCompress(id: string)
    | DoOptimize(task: string)
    | DoSnapshot(name: string)
    | DoRestoreSnapshot(name: string)
    | DoRestart

  /** One operation; those with one step meet the I/O outcomes `io(0)`. */
  function Apply(config: Config, s: State, op: Op, io: nat -> IO): State {
    match op
    case DoInsert(item) => InsertItem(config, s, item, io(0)).0
    case DoProtect(id) => Protect(s, id, io(0)).0
    case DoUnprotect(id) => Unprotect(s, id, io(0)).0
    case DoRemove(id) => RemoveItem(s, id, io(0)).0
    case DoOffload(id) => Offload(config, s, id, io(0)).0
    case DoRestore(id) => Restore(config, s, id, io(0)).0
    case DoArchive(id) => Archive(config, s, id, io(0)).0
    case DoCompress(id) => CompressItem(config, s, id, io(0)).0
    case DoOptimize(task) => Optimize(config, s, task, io).0
    case DoSnapshot(name) => TakeSnapshot(config, s, name, io(0)).0
    case DoRestoreSnapshot(name) => RestoreSnapshot(config, s, name, io).0
    case DoRestart => var t := Restart(s); if t.Some? then t.value else s
  }

  // ---------------------------------------------------------------- the invariant

  lemma ReplaceKeepsInv(s: State, x: Item, save: bool)
    requires Inv(s) && ItemOk(x)
    ensures Inv(ReplaceItem(s, x, save))
  {
    PutUnique(s.items, x);
    PutOk(s.items, x);
  }

  lemma RestoreKeepsInv(config: Config, s: State, x: Item, io: IO)
    requires Inv(s) && ItemOk(x)
    ensures Inv(RestoreAndRetire(config, s, x, io).0)
  {
    ReplaceKeepsInv(s, x.(recency := 1.0, state := Active), io.save);
  }

  lemma RemoveKeepsInv(s: State, id: string, io: IO)
    requires Inv(s)
    ensures Inv(RemoveItem(s, id, io).0)
  {
    WithoutUnique(s.items, id);
    var rest := Without(s.items, id);
    forall j | 0 <= j < |rest| ensures ItemOk(rest[j]) { WithoutIn(s.items, id, rest[j]); }
  }

  lemma {:induction false} ActiveItemsOk(items: seq<Item>)
    requires AllOk(items) && UniqueIds(items)
    ensures AllOk(ActiveItems(items)) && UniqueIds(ActiveItems(items))
    ensures forall x :: x in ActiveItems(items) ==> x in items
  {
    if items != [] {
      ActiveItemsOk(items[1..]);
      var rest := ActiveItems(items[1..]);
      forall j | 0 <= j < |rest| ensures rest[j].id != items[0].id { assert rest[j] in items[1..]; }
    }
  }

  lemma {:induction false} RestoringKeepsInv(config: Config, s: State, items: seq<Item>, n: nat, io: nat -> IO)
    requires Inv(s) && AllOk(items) && n <= |items|
    ensures Inv(RestoringOver(config, s, items, n, io).state)
  {
    if n > 0 {
      RestoringKeepsInv(config, s, items, n - 1, io);
      ReplaceKeepsInv(RestoringOver(config, s, items, n - 1, io).state,
                      items[n - 1].(recency := 1.0, state := Active), io(n - 1).save);
    }
  }

  lemma ArchiveKeepsInv(config: Config, s: State, id: string, io: IO)
    requires Inv(s)
    ensures Inv(Archive(config, s, id, io).0)
  {
    if Find(s.items, id).Some? {
      FoundIsOk(s, id);
      ReplaceKeepsInv(s, Find(s.items, id).value.(state := Archived), io.save);
    }
  }

  lemma CompressKeepsInv(config: Config, s: State, id: string, io: IO)
    requires Inv(s)
    ensures Inv(CompressItem(config, s, id, io).0)
  {
    if Find(s.items, id).Some? {
      FoundIsOk(s, id);
      ReplaceKeepsInv(s, Squeezed(Find(s.items, id).value), io.save);
    }
  }

  lemma OffloadKeepsInv(config: Config, s: State, id: string, io: IO)
    requires Inv(s)
    ensures Inv(Offload(config, s, id, io).0)
  {
    if Find(s.items, id).Some? {
      FoundIsOk(s, id);
      var x := Find(s.items, id).value.(state := Offloaded);
      var offloads := PutRecord(s.offloads, x, io);
      if offloads.Some? { ReplaceKeepsInv(s.(offloads := offloads.value), x, io.save); }
    }
  }

  lemma RestoreItemKeepsInv(config: Config, s: State, id: string, io: IO)
    requires Inv(s)
    ensures Inv(Restore(config, s, id, io).0)
  {
    if Find(s.items, id).Some? {
      FoundIsOk(s, id);
      RestoreKeepsInv(config, s, Find(s.items, id).value, io);
    }
    if id in s.offloads {
      assert RecordOk(s.offloads, id);
      RestoreKeepsInv(config, s, s.offloads[id].(state := Active), io);
    }
  }

  /** Every operation keeps the invariant, whichever file operations fail: ids are unique
      and valid, every token count is the counter's value on the content, and the in-memory
      items are the published ones. */
  lemma ApplyKeepsInv(config: Config, s: State, op: Op, io: nat -> IO)
    requires Inv(s)
    ensures Inv(Apply(config, s, op, io))
  {
    match op
    case DoInsert(item) =>
      if ValidItemId(item.id) { ReplaceKeepsInv(s, item.(tokenCount := Count(item.content)), true); }
    case DoRemove(id) => RemoveKeepsInv(s, id, io(0));
    case DoOffload(id) => OffloadKeepsInv(config, s, id, io(0));
    case DoRestore(id) => RestoreItemKeepsInv(config, s, id, io(0));
    case DoArchive(id) => ArchiveKeepsInv(config, s, id, io(0));
    case DoCompress(id) => CompressKeepsInv(config, s, id, io(0));
    case DoOptimize(task) => if config.enabled { PassEndFacts(config, s, task, io); }
    case DoSnapshot(_) => ActiveItemsOk(s.items);
    case DoRestoreSnapshot(name) =>
      if name in s.snapshots {
        RestoringKeepsInv(config, s, s.snapshots[name], |s.snapshots[name]|, io);
      }
    case _ =>
  }

  /** Every window the engine publishes loads, and a restart brings the same items back; the
      whole state, when the protected sets agree. */
  lemma RestartReproduces(s: State)
    requires Inv(s)
    ensures Restart(s).Some? && Restart(s).value.items == s.items
    ensures s.protected == s.window.protected ==> Restart(s).value == s
  {
    forall i | 0 <= i < |s.items| ensures ValidItemId(s.items[i].id) { assert ItemOk(s.items[i]); }
  }

  // ---------------------------------------------------------------- runs

  /** One operation of a run with the I/O outcomes it meets. */
  datatype Step = Step(op: Op, io: nat -> IO)

  /** The state after the first `n` steps. */
  function After(config: Config, s: State, steps: seq<Step>, n: nat): State
    requires n <= |steps|
  {
    if n == 0 then s else Apply(config, After(config, s, steps, n - 1), steps[n - 1].op, steps[n - 1].io)
  }

  /** The engine over an empty project. */
  const EMPTY := State([], {}, Window([], {}), map[], map[])

  /** The invariant holds all through every run. */
  lemma {:induction false} RunsKeepInv(config: Config, s: State, steps: seq<Step>, n: nat)
    requires Inv(s) && n <= |steps|
    ensures Inv(After(config, s, steps, n))
  {
    hide Apply;
    if n > 0 {
      RunsKeepInv(config, s, steps, n - 1);
      ApplyKeepsInv(config, After(config, s, steps, n - 1), steps[n - 1].op, steps[n - 1].io);
    }
  }

  /** Over every run from an empty project, whichever file operations fail, the items in
      memory are the published ones and the published window loads. */
  lemma ReachableStatesRestart(config: Config, steps: seq<Step>, n: nat)
    requires n <= |steps|
    ensures var s := After(config, EMPTY, steps, n);
            Inv(s) && Restart(s).Some? && Restart(s).value.items == s.items
  {
    hide Apply;
    RunsKeepInv(config, EMPTY, steps, n);
    RestartReproduces(After(config, EMPTY, steps, n));
  }

  // ---------------------------------------------------------------- the protected set and the disk

  predicate InSync(s: State) { s.protected == s.window.protected }

  /** The two rollbacks that do not remember what they undo: a failed write makes `protect`
      drop a protection that was there before, and `remove_item` add one that was not. */
  predicate Lapses(s: State, op: Op, io: IO) {
    match op
    case DoProtect(id) => ValidItemId(id) && Find(s.items, id).Some? && id in s.protected && !io.save
    case DoRemove(id) => Find(s.items, id).Some? && id !in s.protected && !io.save
    case _ => false
  }

  lemma PassStepInSync(config: Config, p: Pass, d: P.Decision, io: IO)
    requires InSync(p.state)
    ensures InSync(PassStep(config, p, d, io).state)
  {
  }

  lemma {:induction false} PassInSync(config: Config, p: Pass, ds: seq<P.Decision>, n: nat, io: nat -> IO)
    requires InSync(p.state) && n <= |ds|
    ensures InSync(PassOver(config, p, ds, n, io).state)
  {
    if n > 0 {
      PassInSync(config, p, ds, n - 1, io);
      PassStepInSync(config, PassOver(config, p, ds, n - 1, io), ds[n - 1], io(n - 1));
    }
  }

  lemma {:induction false} RestoringInSync(config: Config, s: State, items: seq<Item>, n: nat, io: nat -> IO)
    requires InSync(s) && n <= |items|
    ensures InSync(RestoringOver(config, s, items, n, io).state)
  {
    if n > 0 { RestoringInSync(config, s, items, n - 1, io); }
  }

  /** A step leaves the protected set in memory and the published one equal exactly when it
      is not one of the two lapses. */
  lemma InSyncIff(config: Config, s: State, op: Op, io: nat -> IO)
    requires InSync(s)
    ensures InSync(Apply(config, s, op, io)) <==> !Lapses(s, op, io(0))
  {
    match op
    case DoOptimize(task) =>
      var ds := Decisions(config, s, task);
      PassInSync(config, PassStart(s), ds, |ds|, io);
    case DoRestoreSnapshot(name) =>
      if name in s.snapshots { RestoringInSync(config, s, s.snapshots[name], |s.snapshots[name]|, io); }
    case _ =>
  }

  ghost predicate NothingLapses(config: Config, s: State, steps: seq<Step>, n: nat)
    requires n <= |steps|
  {
    forall i :: 0 <= i < n ==> !Lapses(After(config, s, steps, i), steps[i].op, steps[i].io(0))
  }

  lemma {:induction false} RunsStayInSync(config: Config, s: State, steps: seq<Step>, n: nat)
    requires InSync(s) && n <= |steps| && NothingLapses(config, s, steps, n)
    ensures InSync(After(config, s, steps, n))
  {
    hide Apply;
    if n > 0 {
      var t := After(config, s, steps, n - 1);
      RunsStayInSync(config, s, steps, n - 1);
      assert !Lapses(t, steps[n - 1].op, steps[n - 1].io(0));
      InSyncIff(config, t, steps[n - 1].op, steps[n - 1].io);
    }
  }

  /** After a run without a lapse a restart reproduces the whole state. */
  lemma RunsRestartWhole(config: Config, s: State, steps: seq<Step>, n: nat)
    requires Inv(s) && InSync(s) && n <= |steps| && NothingLapses(config, s, steps, n)
    ensures Restart(After(config, s, steps, n)) == Some(After(config, s, steps, n))
  {
    hide Apply;
    RunsKeepInv(config, s, steps, n);
    RunsStayInSync(config, s, steps, n);
    RestartReproduces(After(config, s, steps, n));
  }

  // ---------------------------------------------------------------- offload never means delete

  predicate HasRecord(offloads: map<string, Item>, x: Item) {
    x.id in offloads && offloads[x.id].content == x.content
  }

  /** Every item in memory that is offloaded has a durable record of the same content. */
  ghost predicate Covered(s: State) {
    forall x :: x in s.items && x.state.Offloaded? ==> HasRecord(s.offloads, x)
  }

  /** The two operations that leave an offloaded item without its record: inserting, within
      all bounds, an item that says it is offloaded when no such record is there; and
      restoring an offloaded item that fits or is protected, when the window write fails and
      the record is removed all the same. */
  predicate Uncovers(config: Config, s: State, op: Op, io: IO) {
    match op
    case DoInsert(item) =>
      && item.state.Offloaded? && !HasRecord(s.offloads, item)
      && config.enabled && ValidItemId(item.id) && Count(item.content) <= config.budget.maxInputTokens
      && (|s.items| < MAX_ACTIVE_ITEMS || Find(s.items, item.id).Some?) && io.save
    case DoRestore(id) =>
      var found := Find(s.items, id);
      && found.Some? && found.value.state.Offloaded?
      && config.enabled && !io.save && io.remove
      && (Fits(config.budget, ActiveTokens(s.items) + found.value.tokenCount) || id in s.protected)
    case _ => false
  }

  lemma PutCovered(s: State, t: State, x: Item)
    requires Covered(s) && t.items == Put(s.items, x)
    requires forall id :: id != x.id && id in s.offloads ==> id in t.offloads && t.offloads[id] == s.offloads[id]
    ensures Covered(t) <==> (x.state.Offloaded? ==> HasRecord(t.offloads, x))
  {
    forall y | y in t.items && y != x ensures y in s.items && y.id != x.id {
      assert y in Without(s.items, x.id);
      WithoutIn(s.items, x.id, y);
    }
    assert x == t.items[|t.items| - 1];
  }

  lemma ReplaceCovered(s: State, x: Item, save: bool)
    requires Covered(s) && (x.state.Offloaded? ==> HasRecord(s.offloads, x))
    ensures Covered(ReplaceItem(s, x, save))
  {
    PutCovered(s, ReplaceItem(s, x, true), x);
  }

  lemma OffloadCovered(config: Config, s: State, id: string, io: IO)
    requires Inv(s) && Covered(s)
    ensures Covered(Offload(config, s, id, io).0)
  {
    if Find(s.items, id).Some? && Find(s.items, id).value.state.Active? {
      FindIn(s.items, id);
      var x := Find(s.items, id).value;
      var y := x.(state := Offloaded);
      var offloads := PutRecord(s.offloads, y, io);
      if offloads.Some? {
        var t := s.(offloads := offloads.value);
        forall z | z in t.items && z.state.Offloaded? ensures HasRecord(t.offloads, z) {
          FindOf(s.items, z);
          assert z.id != id;
        }
        ReplaceCovered(t, y, io.save);
      }
    }
  }

  lemma ArchiveCovered(config: Config, s: State, id: string, io: IO)
    requires Covered(s)
    ensures Covered(Archive(config, s, id, io).0)
  {
    if Find(s.items, id).Some? { ReplaceCovered(s, Find(s.items, id).value.(state := Archived), io.save); }
  }

  lemma CompressCovered(config: Config, s: State, id: string, io: IO)
    requires Covered(s)
    ensures Covered(CompressItem(config, s, id, io).0)
  {
    if Find(s.items, id).Some? && Find(s.items, id).value.state.Active? {
      ReplaceCovered(s, Squeezed(Find(s.items, id).value), io.save);
    }
  }

  lemma PassStepCovered(config: Config, p: Pass, d: P.Decision, io: IO)
    requires Inv(p.state) && Covered(p.state)
    ensures Covered(PassStep(config, p, d, io).state)
  {
    OffloadCovered(config, p.state, d.id, io);
    CompressCovered(config, p.state, d.id, io);
    ArchiveCovered(config, p.state, d.id, io);
  }

  lemma {:induction false} PassCovered(config: Config, s: State, ds: seq<P.Decision>, n: nat, io: nat -> IO)
    requires config.enabled && Ready(s, ds) && Covered(s) && n <= |ds|
    ensures Covered(At(config, s, ds, n, io).state)
  {
    hide PassStep;
    if n > 0 {
      PassCovered(config, s, ds, n - 1, io);
      PassFacts(config, s, ds, n - 1, io);
      PassStepCovered(config, At(config, s, ds, n - 1, io), ds[n - 1], io(n - 1));
    }
  }

  lemma {:induction false} RestoringCovered(config: Config, s: State, items: seq<Item>, n: nat, io: nat -> IO)
    requires Covered(s) && n <= |items|
    ensures Covered(RestoringOver(config, s, items, n, io).state)
  {
    if n > 0 {
      RestoringCovered(config, s, items, n - 1, io);
      ReplaceCovered(RestoringOver(config, s, items, n - 1, io).state,
                     items[n - 1].(recency := 1.0, state := Active), io(n - 1).save);
    }
  }

  lemma RemoveCovered(s: State, id: string, io: IO)
    requires Covered(s)
    ensures Covered(RemoveItem(s, id, io).0)
  {
    var t := RemoveItem(s, id, io).0;
    forall x | x in t.items && x.state.Offloaded? ensures HasRecord(t.offloads, x) {
      WithoutIn(s.items, id, x);
    }
  }

  /** Restoring an item found in memory or in its record. */
  lemma RestoredCovered(config: Config, s: State, x: Item, io: IO)
    requires Inv(s) && Covered(s)
    ensures var (t, r) := RestoreAndRetire(config, s, x, io);
            var found := Find(s.items, x.id);
            Covered(t) <==> !(r.Ok? && !io.save && found.Some? && found.value.state.Offloaded?)
  {
    var (t, r) := RestoreAndRetire(config, s, x, io);
    var found := Find(s.items, x.id);
    FindIn(s.items, x.id);
    if RestoreToActive(config, s, x, io).1.Ok? {
      if io.save {
        PutCovered(s, t, x.(recency := 1.0, state := Active));
      } else {
        forall y | y in s.items ensures y.id == x.id ==> found == Some(y) { FindOf(s.items, y); }
      }
    }
  }

  lemma RestoreCovered(config: Config, s: State, id: string, io: IO)
    requires Inv(s) && Covered(s)
    ensures Covered(Restore(config, s, id, io).0) <==> !Uncovers(config, s, DoRestore(id), io)
  {
    var found := Find(s.items, id);
    FindIn(s.items, id);
    if found.Some? && found.value.state.Offloaded? {
      FoundIsOk(s, id);
      assert HasRecord(s.offloads, found.value);
      RestoredCovered(config, s, found.value, io);
    } else if id in s.offloads {
      assert RecordOk(s.offloads, id);
      RestoredCovered(config, s, s.offloads[id].(state := Active), io);
    }
  }

  /** A step keeps every offloaded item covered by its record, whichever file operations
      fail, exactly when it is not one of the two that uncover. */
  lemma CoveredIff(config: Config, s: State, op: Op, io: nat -> IO)
    requires Inv(s) && Covered(s)
    ensures Covered(Apply(config, s, op, io)) <==> !Uncovers(config, s, op, io(0))
  {
    match op
    case DoInsert(item) =>
      var counted := item.(tokenCount := Count(item.content));
      if InsertItem(config, s, item, io(0)).1.Ok? { PutCovered(s, Apply(config, s, op, io), counted); }
    case DoRemove(id) => RemoveCovered(s, id, io(0));
    case DoOffload(id) => OffloadCovered(config, s, id, io(0));
    case DoRestore(id) => RestoreCovered(config, s, id, io(0));
    case DoArchive(id) => ArchiveCovered(config, s, id, io(0));
    case DoCompress(id) => CompressCovered(config, s, id, io(0));
    case DoOptimize(task) =>
      if config.enabled {
        var ds := Decisions(config, s, task);
        DecisionsAreReady(config, s, task);
        PassCovered(config, s, ds, |ds|, io);
      }
    case DoRestoreSnapshot(name) =>
      if name in s.snapshots { RestoringCovered(config, s, s.snapshots[name], |s.snapshots[name]|, io); }
    case _ =>
  }

  ghost predicate NothingUncovers(config: Config, s: State, steps: seq<Step>, n: nat)
    requires n <= |steps|
  {
    forall i :: 0 <= i < n ==> !Uncovers(config, After(config, s, steps, i), steps[i].op, steps[i].io(0))
  }

  lemma OneMoreCovered(config: Config, t: State, step: Step)
    requires Inv(t) && Covered(t) && !Uncovers(config, t, step.op, step.io(0))
    ensures Inv(Apply(config, t, step.op, step.io)) && Covered(Apply(config, t, step.op, step.io))
  {
    ApplyKeepsInv(config, t, step.op, step.io);
    CoveredIff(config, t, step.op, step.io);
  }

  /** Over a run in which nothing uncovers, every offloaded item has its record. */
  lemma {:induction false} RunsStayCovered(config: Config, s: State, steps: seq<Step>, n: nat)
    requires Inv(s) && Covered(s) && n <= |steps| && NothingUncovers(config, s, steps, n)
    ensures Inv(After(config, s, steps, n)) && Covered(After(config, s, steps, n))
  {
    hide Apply;
    if n > 0 {
      var t := After(config, s, steps, n - 1);
      RunsStayCovered(config, s, steps, n - 1);
      assert !Uncovers(config, t, steps[n - 1].op, steps[n - 1].io(0));
      OneMoreCovered(config, t, steps[n - 1]);
    }
  }
}
