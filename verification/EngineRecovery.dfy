/**
  Getting content back (src/context/engine.rs:660-745 and 812-878): restoring offloaded
  items and whole snapshots, against the budget and over the runs in between.
 */
module EngineRecovery {
  import opened ContextItems
  import opened EngineModel
  import opened EnginePass
  import opened EngineRuns
  import opened Tokens
  import opened Wrappers
  import P = ContextPolicy

  function Revived(x: Item): Item { x.(recency := 1.0, state := Active) }

  // ---------------------------------------------------------------- restoring one item

  /** What restoring an item that is not active now does. */
  lemma RetireEffect(config: Config, s: State, x: Item, io: IO)
    requires Inv(s) && ItemOk(x) && OptionCost(Find(s.items, x.id)) == 0
    ensures var (t, r) := RestoreAndRetire(config, s, x, io);
            && (r.Ok? ==> r.value == Revived(x) && x.id !in t.offloads)
            && (r.Err? && r.error != IoFailed ==> t == s)
            && (r.Err? && r.error == IoFailed ==> x.id in t.offloads && !io.remove)
            && (x.id !in s.protected ==>
                  ActiveTokens(t.items) <= Max(ActiveTokens(s.items), UsableInputTokens(config.budget)))
            && (r.Ok? && x.id !in s.protected ==> Fits(config.budget, ActiveTokens(t.items)))
            && (r.Ok? && io.save ==> Find(t.items, x.id) == Some(Revived(x))
                                     && ActiveTokens(t.items) == ActiveTokens(s.items) + x.tokenCount)
            && (!io.save ==> t.items == s.items)
  {
    ActiveTokensPut(s.items, Revived(x));
    FindPut(s.items, Revived(x), x.id);
  }

  /** A restored item is active, fresh and counted, its record is gone, and restoring an
      unprotected item never takes the active tokens past the usable budget. The one error
      after which anything has changed is a record that cannot be removed, and then it is
      still there. */
  lemma RestoreIsGuarded(config: Config, s: State, id: string, io: IO)
    requires Inv(s)
    ensures var (t, r) := Restore(config, s, id, io);
            && (r.Ok? ==> r.value.id == id && r.value.state == Active && r.value.recency == 1.0 && id !in t.offloads)
            && (r.Err? && t != s ==> r.error == IoFailed && id in t.offloads)
            && (id !in s.protected ==>
                  ActiveTokens(t.items) <= Max(ActiveTokens(s.items), UsableInputTokens(config.budget)))
            && (r.Ok? && id !in s.protected ==> Fits(config.budget, ActiveTokens(t.items)))
            && (r.Ok? && io.save ==> Find(t.items, id) == Some(r.value)
                                     && ActiveTokens(t.items) == ActiveTokens(s.items) + r.value.tokenCount)
  {
    var found := Find(s.items, id);
    if found.Some? { FoundIsOk(s, id); }
    if found.Some? && found.value.state.Offloaded? {
      RetireEffect(config, s, found.value, io);
    } else if id in s.offloads && (found.None? || !found.value.state.Active?) {
      assert RecordOk(s.offloads, id);
      RetireEffect(config, s, s.offloads[id].(state := Active), io);
    }
  }

  /** What was just restored is not offloaded by the next pass, whatever its task. */
  lemma RestoredIsNotOffloadedAgain(config: Config, s: State, id: string, io: IO, task: string, later: nat -> IO)
    requires config.enabled && Inv(s) && io.save && Restore(config, s, id, io).1.Ok?
    ensures var (u, r) := Optimize(config, Restore(config, s, id, io).0, task, later);
            r.Ok? && id !in r.value.offloaded
  {
    var t := Restore(config, s, id, io).0;
    RestoreIsGuarded(config, s, id, io);
    ApplyKeepsInv(config, s, DoRestore(id), _ => io);
    FindIn(t.items, id);
    FreshItemsStay(config, t, task, later, Find(t.items, id).value);
  }

  lemma {:induction false} WithoutAppended(items: seq<Item>, x: Item)
    ensures Without(items + [x], x.id) == Without(items, x.id)
  {
    if items == [] {
      assert [] + [x] == [x] && [x][1..] == [];
    } else {
      WithoutAppended(items[1..], x);
      assert (items + [x])[1..] == items[1..] + [x] && (items + [x])[0] == items[0];
    }
  }

  lemma {:induction false} WithoutTwice(items: seq<Item>, id: string)
    ensures Without(Without(items, id), id) == Without(items, id)
  {
    if items != [] {
      WithoutTwice(items[1..], id);
      var rest := Without(items[1..], id);
      assert ([items[0]] + rest)[1..] == rest;
    }
  }

  /** Only the last replacement of an item shows. */
  lemma PutTwice(items: seq<Item>, x: Item, y: Item)
    requires x.id == y.id
    ensures Put(Put(items, x), y) == Put(items, y)
  {
    WithoutAppended(Without(items, x.id), x);
    WithoutTwice(items, x.id);
  }

  /** The state after an item has been offloaded. */
  lemma OffloadedNow(config: Config, s: State, x: Item, io: IO)
    requires Inv(s) && x in s.items && Offload(config, s, x.id, io).1.Ok? && io.save
    ensures var (t, y) := (Offload(config, s, x.id, io).0, x.(state := Offloaded));
            && Inv(t) && config.enabled && ValidItemId(x.id) && x.id !in s.protected
            && t == State(Put(s.items, y), s.protected, Window(Put(s.items, y), s.protected),
                          s.offloads[x.id := y], s.snapshots)
            && Find(t.items, x.id) == Some(y)
            && ActiveTokens(t.items) + x.tokenCount == ActiveTokens(s.items)
  {
    var y := x.(state := Offloaded);
    FindOf(s.items, x);
    FindPut(s.items, y, x.id);
    ActiveTokensPut(s.items, y);
    ActiveTokensAtLeast(s.items, x.id);
    OffloadKeepsInv(config, s, x.id, io);
  }

  /** Offloading an item and restoring it gives the original item back, fresh, and leaves
      the store without its record. With all file operations succeeding the restore works
      exactly when the active tokens were within the usable budget before the offload. */
  lemma OffloadThenRestore(config: Config, s: State, x: Item)
    requires Inv(s) && x in s.items && Offload(config, s, x.id, ALL_WELL).1.Ok?
    ensures var t := Offload(config, s, x.id, ALL_WELL).0;
            var (u, r) := Restore(config, t, x.id, ALL_WELL);
            var items := Put(s.items, Revived(x));
            && (r.Ok? <==> Fits(config.budget, ActiveTokens(s.items)))
            && (r.Ok? ==> r.value == Revived(x) && r.value.content == x.content
                          && u == State(items, s.protected, Window(items, s.protected),
                                        s.offloads - {x.id}, s.snapshots))
            && (r.Err? ==> u == t)
  {
    var y := x.(state := Offloaded);
    OffloadedNow(config, s, x, ALL_WELL);
    PutTwice(s.items, y, Revived(x));
    assert s.offloads[x.id := y] - {x.id} == s.offloads - {x.id};
  }

  // ---------------------------------------------------------------- stale records

  /** Which content comes back for an item that is in memory: its own, unless it is archived
      and an older record of its id holds another. */
  lemma RestoreContentIff(config: Config, s: State, x: Item, io: IO)
    requires Inv(s) && x in s.items && Restore(config, s, x.id, io).1.Ok?
    ensures Restore(config, s, x.id, io).1.value.content == x.content <==>
            x.state.Offloaded? || HasRecord(s.offloads, x)
  {
    FindOf(s.items, x);
  }

  /** So offloading an item, inserting a new version, archiving that and restoring brings
      the old version back. */
  lemma RestoreCanBringBackAnOldVersion(config: Config, s: State, x: Item, y: Item)
    requires Inv(s) && x in s.items && y.id == x.id && y.content != x.content
    requires Offload(config, s, x.id, ALL_WELL).1.Ok?
    requires Count(y.content) <= config.budget.maxInputTokens && Fits(config.budget, ActiveTokens(s.items))
    ensures var t := Offload(config, s, x.id, ALL_WELL).0;
            var u := InsertItem(config, t, y, ALL_WELL).0;
            var v := Archive(config, u, x.id, ALL_WELL).0;
            var (_, r) := Restore(config, v, x.id, ALL_WELL);
            && Find(v.items, x.id).Some? && Find(v.items, x.id).value.content == y.content
            && r.Ok? && r.value.content == x.content
  {
    var t := Offload(config, s, x.id, ALL_WELL).0;
    var u := InsertItem(config, t, y, ALL_WELL).0;
    FindOf(s.items, x);
    var off, counted := x.(state := Offloaded), y.(tokenCount := Count(y.content));
    FindPut(s.items, off, x.id);
    FindPut(t.items, counted, x.id);
    PutTwice(s.items, off, counted);
    PutTwice(s.items, counted, counted.(state := Archived));
    ActiveTokensPut(s.items, counted.(state := Archived));
    FindPut(s.items, counted.(state := Archived), x.id);
    ActiveTokensAtLeast(s.items, x.id);
  }

  // ---------------------------------------------------------------- offloaded content over a run

  /** An operation that names this item, or a snapshot that has it. */
  predicate Touches(s: State, op: Op, id: string) {
    match op
    case DoInsert(item) => item.id == id
    case DoRemove(other) => other == id
    case DoRestore(other) => other == id
    case DoArchive(other) => other == id
    case DoRestoreSnapshot(name) => name in s.snapshots && id in Ids(s.snapshots[name])
    case _ => false
  }

  predicate Resting(s: State, id: string) {
    Find(s.items, id).Some? && !Find(s.items, id).value.state.Active?
  }

  /** The item and the record of one id. */
  predicate SameAt(s: State, t: State, id: string) {
    && Find(t.items, id) == Find(s.items, id)
    && (id in t.offloads <==> id in s.offloads)
    && (id in s.offloads ==> t.offloads[id] == s.offloads[id])
  }

  lemma ReplaceElsewhere(s: State, x: Item, save: bool, id: string)
    requires x.id != id
    ensures SameAt(s, ReplaceItem(s, x, save), id)
  {
    FindPut(s.items, x, id);
  }

  lemma RetireElsewhere(config: Config, s: State, x: Item, io: IO, id: string)
    requires x.id != id
    ensures SameAt(s, RestoreAndRetire(config, s, x, io).0, id)
  {
    ReplaceElsewhere(s, Revived(x), io.save, id);
  }

  lemma RestoreElsewhere(config: Config, s: State, other: string, io: IO, id: string)
    requires Inv(s) && other != id
    ensures SameAt(s, Restore(config, s, other, io).0, id)
  {
    FindIn(s.items, other);
    if Find(s.items, other).Some? { RetireElsewhere(config, s, Find(s.items, other).value, io, id); }
    if other in s.offloads {
      assert RecordOk(s.offloads, other);
      RetireElsewhere(config, s, s.offloads[other].(state := Active), io, id);
    }
  }

  lemma OffloadElsewhere(config: Config, s: State, other: string, io: IO, id: string)
    requires Resting(s, id)
    ensures SameAt(s, Offload(config, s, other, io).0, id)
  {
    FindIn(s.items, other);
    if other != id && Find(s.items, other).Some? {
      var x := Find(s.items, other).value.(state := Offloaded);
      var offloads := PutRecord(s.offloads, x, io);
      if offloads.Some? { ReplaceElsewhere(s.(offloads := offloads.value), x, io.save, id); }
    }
  }

  lemma CompressElsewhere(config: Config, s: State, other: string, io: IO, id: string)
    requires Resting(s, id)
    ensures SameAt(s, CompressItem(config, s, other, io).0, id)
  {
    FindIn(s.items, other);
    if other != id && Find(s.items, other).Some? {
      ReplaceElsewhere(s, Squeezed(Find(s.items, other).value), io.save, id);
    }
  }

  lemma ArchiveElsewhere(config: Config, s: State, other: string, io: IO, id: string)
    requires other != id
    ensures SameAt(s, Archive(config, s, other, io).0, id)
  {
    FindIn(s.items, other);
    if Find(s.items, other).Some? {
      ReplaceElsewhere(s, Find(s.items, other).value.(state := Archived), io.save, id);
    }
  }

  /** The pass never acts on an item that is not active, so a step leaves it alone. */
  lemma PassStepElsewhere(config: Config, p: Pass, d: P.Decision, io: IO, id: string)
    requires Resting(p.state, id)
    requires d.id == id ==> d.action == P.Keep
    ensures SameAt(p.state, PassStep(config, p, d, io).state, id)
  {
    match d.action
    case Offload => OffloadElsewhere(config, p.state, d.id, io, id);
    case Compress => CompressElsewhere(config, p.state, d.id, io, id);
    case Archive => ArchiveElsewhere(config, p.state, d.id, io, id);
    case _ =>
  }

  lemma {:induction false} PassElsewhere(config: Config, p: Pass, ds: seq<P.Decision>, n: nat, io: nat -> IO,
                                         id: string)
    requires Resting(p.state, id) && n <= |ds|
    requires forall i :: 0 <= i < n && ds[i].id == id ==> ds[i].action == P.Keep
    ensures SameAt(p.state, PassOver(config, p, ds, n, io).state, id)
  {
    if n > 0 {
      PassElsewhere(config, p, ds, n - 1, io, id);
      PassStepElsewhere(config, PassOver(config, p, ds, n - 1, io), ds[n - 1], io(n - 1), id);
    }
  }

  lemma InactiveIsKept(config: Config, s: State, task: string, id: string)
    requires Inv(s) && Resting(s, id)
    ensures forall d :: d in Decisions(config, s, task) && d.id == id ==> d.action == P.Keep
  {
    RankedFacts(config, s, task);
  }

  lemma {:induction false} RestoringElsewhere(config: Config, s: State, items: seq<Item>, n: nat,
                                              io: nat -> IO, id: string)
    requires n <= |items| && forall i :: 0 <= i < n ==> items[i].id != id
    ensures SameAt(s, RestoringOver(config, s, items, n, io).state, id)
  {
    if n > 0 {
      RestoringElsewhere(config, s, items, n - 1, io, id);
      ReplaceElsewhere(RestoringOver(config, s, items, n - 1, io).state, Revived(items[n - 1]), io(n - 1).save, id);
    }
  }

  lemma InsertElsewhere(config: Config, s: State, item: Item, io: IO, id: string)
    requires item.id != id
    ensures SameAt(s, InsertItem(config, s, item, io).0, id)
  {
    ReplaceElsewhere(s, item.(tokenCount := Count(item.content)), true, id);
  }

  lemma RemoveElsewhere(s: State, other: string, io: IO, id: string)
    requires other != id
    ensures SameAt(s, RemoveItem(s, other, io).0, id)
  {
    FindWithout(s.items, other, id);
  }

  lemma OptimizeElsewhere(config: Config, s: State, task: string, io: nat -> IO, id: string)
    requires Inv(s) && Resting(s, id)
    ensures SameAt(s, Optimize(config, s, task, io).0, id)
  {
    var ds := Decisions(config, s, task);
    InactiveIsKept(config, s, task, id);
    PassElsewhere(config, PassStart(s), ds, |ds|, io, id);
  }

  lemma RestoreSnapshotElsewhere(config: Config, s: State, name: string, io: nat -> IO, id: string)
    requires name in s.snapshots && id !in Ids(s.snapshots[name])
    ensures SameAt(s, RestoreSnapshot(config, s, name, io).0, id)
  {
    var items := s.snapshots[name];
    forall i | 0 <= i < |items| ensures items[i].id != id { assert Ids(items)[i] in Ids(items); }
    RestoringElsewhere(config, s, items, |items|, io, id);
  }

  /** An operation that does not touch an inactive item leaves the item and its record as
      they are, whichever file operations fail. */
  lemma UntouchedStays(config: Config, s: State, op: Op, io: nat -> IO, id: string)
    requires Inv(s) && Resting(s, id)
    requires !Touches(s, op, id)
    ensures SameAt(s, Apply(config, s, op, io), id)
  {
    match op
    case DoInsert(item) => InsertElsewhere(config, s, item, io(0), id);
    case DoRemove(other) => RemoveElsewhere(s, other, io(0), id);
    case DoRestart => RestartReproduces(s);
    case DoOffload(other) => OffloadElsewhere(config, s, other, io(0), id);
    case DoRestore(other) => RestoreElsewhere(config, s, other, io(0), id);
    case DoArchive(other) => ArchiveElsewhere(config, s, other, io(0), id);
    case DoCompress(other) => CompressElsewhere(config, s, other, io(0), id);
    case DoOptimize(task) => OptimizeElsewhere(config, s, task, io, id);
    case DoRestoreSnapshot(name) =>
      if name in s.snapshots { RestoreSnapshotElsewhere(config, s, name, io, id); }
    case _ =>
  }

  /** No step of the run touches the item. */
  ghost predicate RunAvoids(config: Config, s: State, steps: seq<Step>, n: nat, id: string)
    requires n <= |steps|
  {
    forall i :: 0 <= i < n ==> !Touches(After(config, s, steps, i), steps[i].op, id)
  }

  lemma SameAtOnceMore(s: State, t: State, u: State, id: string)
    requires SameAt(s, t, id) && SameAt(t, u, id)
    ensures SameAt(s, u, id)
  {
  }

  lemma {:induction false} UntouchedStaysOverRuns(config: Config, s: State, steps: seq<Step>, n: nat, id: string)
    requires Inv(s) && Resting(s, id) && n <= |steps| && RunAvoids(config, s, steps, n, id)
    ensures SameAt(s, After(config, s, steps, n), id) && Inv(After(config, s, steps, n))
  {
    hide Apply;
    if n > 0 {
      var t := After(config, s, steps, n - 1);
      UntouchedStaysOverRuns(config, s, steps, n - 1, id);
      assert !Touches(t, steps[n - 1].op, id);
      OneMoreStep(config, s, t, steps[n - 1], id);
    }
  }

  lemma OneMoreStep(config: Config, s: State, t: State, step: Step, id: string)
    requires Inv(t) && Resting(s, id) && SameAt(s, t, id) && !Touches(t, step.op, id)
    ensures Inv(Apply(config, t, step.op, step.io)) && SameAt(s, Apply(config, t, step.op, step.io), id)
  {
    UntouchedStays(config, t, step.op, step.io, id);
    ApplyKeepsInv(config, t, step.op, step.io);
    SameAtOnceMore(s, t, Apply(config, t, step.op, step.io), id);
  }

  /** Restoring an item that is as it was when it was offloaded. */
  ghost predicate ComesBack(config: Config, u: State, x: Item) {
    var r := Restore(config, u, x.id, ALL_WELL).1;
    && x.id in u.offloads && u.offloads[x.id] == x.(state := Offloaded)
    && (r.Ok? <==> Fits(config.budget, ActiveTokens(u.items) + x.tokenCount) || x.id in u.protected)
    && (r.Ok? ==> r.value == Revived(x))
  }

  lemma StillComesBack(config: Config, t: State, u: State, x: Item)
    requires config.enabled && ValidItemId(x.id) && Find(t.items, x.id) == Some(x.(state := Offloaded))
    requires x.id in t.offloads && t.offloads[x.id] == x.(state := Offloaded) && SameAt(t, u, x.id)
    ensures ComesBack(config, u, x)
  {
  }

  /** Offloaded content can be had back after any run: however many operations and restarts
      come in between, and whichever of their file operations fail, as long as none touches
      the item, restoring it gives the item that was offloaded, exactly when it fits or is
      protected by then. */
  lemma {:induction false} OffloadedContentSurvives(config: Config, s: State, x: Item, io: IO,
                                                    t: State, steps: seq<Step>)
    requires Inv(s) && x in s.items && Offload(config, s, x.id, io) == (t, Ok(())) && io.save
    requires RunAvoids(config, t, steps, |steps|, x.id)
    ensures ComesBack(config, After(config, t, steps, |steps|), x)
  {
    hide Apply;
    OffloadedNow(config, s, x, io);
    UntouchedStaysOverRuns(config, t, steps, |steps|, x.id);
    StillComesBack(config, t, After(config, t, steps, |steps|), x);
  }

  // ---------------------------------------------------------------- snapshots

  /** The active tokens the items of these ids have. */
  function CostOf(items: seq<Item>, ids: seq<string>): nat {
    if ids == [] then 0 else CostOf(items, ids[..|ids| - 1]) + OptionCost(Find(items, ids[|ids| - 1]))
  }

  /** The tokens after restoring: those of before, less what the restored ids had, plus
      what came back. */
  predicate Exchanged(s: State, r: Restoring) {
    ActiveTokens(r.state.items) + CostOf(s.items, r.restored) == ActiveTokens(s.items) + r.active
  }

  /** What restoring made of the items: restored ones are as they were taken, and fresh. */
  ghost predicate Returned(s: State, items: seq<Item>, n: nat, r: Restoring)
    requires n <= |items|
  {
    && (forall id :: id !in r.restored ==> Find(r.state.items, id) == Find(s.items, id))
    && (forall i :: 0 <= i < n && items[i].id in r.restored ==>
          Find(r.state.items, items[i].id) == Some(Revived(items[i])))
  }

  /** Restored and skipped ids partition those of the items so far. */
  predicate Parted(items: seq<Item>, n: nat, r: Restoring)
    requires n <= |items|
  {
    multiset(r.restored) + multiset(r.skipped) == multiset(Ids(items[..n]))
  }

  /** Where restoring a snapshot stands after `n` of its items. */
  ghost predicate RestoringFacts(config: Config, s: State, items: seq<Item>, n: nat, r: Restoring)
    requires n <= |items|
  {
    && Inv(r.state) && r.active <= UsableInputTokens(config.budget)
    && Parted(items, n, r) && Exchanged(s, r) && Returned(s, items, n, r)
  }

  lemma NotRestoredYet(items: seq<Item>, n: nat, r: Restoring)
    requires UniqueIds(items) && n < |items| && Parted(items, n, r)
    ensures items[n].id !in r.restored
  {
    assert items[n].id !in Ids(items[..n]);
    assert items[n].id !in multiset(Ids(items[..n]));
  }

  lemma PartedStep(config: Config, items: seq<Item>, n: nat, r: Restoring, io: IO)
    requires n < |items| && Parted(items, n, r)
    ensures Parted(items, n + 1, RestoringStep(config, r, items[n], io))
  {
    assert Ids(items[..n + 1]) == Ids(items[..n]) + [items[n].id];
  }

  lemma ExchangedStep(config: Config, s: State, x: Item, r: Restoring, io: IO)
    requires UniqueIds(r.state.items) && Exchanged(s, r) && io.save
    requires Find(r.state.items, x.id) == Find(s.items, x.id)
    ensures Exchanged(s, RestoringStep(config, r, x, io))
  {
    ActiveTokensPut(r.state.items, Revived(x));
    assert (r.restored + [x.id])[..|r.restored|] == r.restored;
  }

  lemma ReturnedStep(config: Config, s: State, items: seq<Item>, n: nat, r: Restoring, io: IO)
    requires UniqueIds(items) && n < |items| && io.save
    requires Returned(s, items, n, r) && items[n].id !in r.restored
    ensures Returned(s, items, n + 1, RestoringStep(config, r, items[n], io))
  {
    var x, q := items[n], RestoringStep(config, r, items[n], io);
    if Fits(config.budget, r.active + x.tokenCount) {
      forall id ensures Find(q.state.items, id) == if id == x.id then Some(Revived(x)) else Find(r.state.items, id) {
        FindPut(r.state.items, Revived(x), id);
      }
    }
  }

  lemma RestoringStepFacts(config: Config, s: State, items: seq<Item>, n: nat, r: Restoring, io: IO)
    requires UniqueIds(items) && AllOk(items) && n < |items| && io.save
    requires RestoringFacts(config, s, items, n, r)
    ensures RestoringFacts(config, s, items, n + 1, RestoringStep(config, r, items[n], io))
  {
    NotRestoredYet(items, n, r);
    PartedStep(config, items, n, r, io);
    ExchangedStep(config, s, items[n], r, io);
    ReturnedStep(config, s, items, n, r, io);
    ReplaceKeepsInv(r.state, Revived(items[n]), true);
  }

  lemma {:induction false} RestoringTo(config: Config, s: State, items: seq<Item>, n: nat, io: nat -> IO)
    requires Inv(s) && UniqueIds(items) && AllOk(items) && n <= |items| && SavesSucceed(io, n)
    ensures RestoringFacts(config, s, items, n, RestoringOver(config, s, items, n, io))
  {
    hide RestoringStep;
    if n == 0 {
      assert Ids(items[..0]) == [];
    } else {
      RestoringTo(config, s, items, n - 1, io);
      RestoringStepFacts(config, s, items, n - 1, RestoringOver(config, s, items, n - 1, io), io(n - 1));
    }
  }

  /** Restoring a snapshot accounts exactly. Restored and skipped ids partition the
      snapshot's, restored items are back as they were taken and fresh, every other item is
      untouched, and the active tokens are those of before, less what the restored ids had,
      plus what came back, which alone is within the usable budget. */
  lemma SnapshotRestoreIsExact(config: Config, s: State, name: string, io: nat -> IO)
    requires Inv(s) && ValidSnapshotId(name) && name in s.snapshots && SavesSucceed(io, |s.snapshots[name]|)
    ensures var (t, r) := RestoreSnapshot(config, s, name, io);
            && r.Some? && t == r.value.state
            && RestoringFacts(config, s, s.snapshots[name], |s.snapshots[name]|, r.value)
  {
    var items := s.snapshots[name];
    RestoringTo(config, s, items, |items|, io);
  }

  lemma {:induction false} ActiveItemsFacts(items: seq<Item>)
    ensures TotalTokens(ActiveItems(items)) == ActiveTokens(items)
    ensures forall x :: x in ActiveItems(items) <==> x in items && x.state.Active?
  {
    if items != [] {
      ActiveItemsFacts(items[1..]);
      var rest := ActiveItems(items[1..]);
      assert ([items[0]] + rest)[1..] == rest;
      assert forall x :: x in items <==> x == items[0] || x in items[1..];
    }
  }

  lemma TotalTokensPrefix(items: seq<Item>, n: nat)
    requires n <= |items|
    ensures TotalTokens(items[..n]) <= TotalTokens(items)
  {
    TotalTokensConcat(items[..n], items[n..]);
    assert items[..n] + items[n..] == items;
  }

  lemma {:induction false} AllRestored(config: Config, s: State, items: seq<Item>, n: nat, io: nat -> IO)
    requires n <= |items| && Fits(config.budget, TotalTokens(items))
    ensures var r := RestoringOver(config, s, items, n, io);
            r.active == TotalTokens(items[..n]) && r.restored == Ids(items[..n]) && r.skipped == []
  {
    if n == 0 {
      assert Ids(items[..0]) == [];
    } else {
      AllRestored(config, s, items, n - 1, io);
      assert items[..n] == items[..n - 1] + [items[n - 1]];
      TotalTokensAppend(items[..n - 1], items[n - 1]);
      TotalTokensPrefix(items, n);
    }
  }

  /** Taking a snapshot while the active tokens fit and restoring it in any later state
      skips nothing and brings back every item that was active, fresh. */
  lemma SnapshotRoundTrip(config: Config, s: State, name: string, t: State, io: nat -> IO)
    requires Inv(s) && TakeSnapshot(config, s, name, ALL_WELL).1.Ok? && Fits(config.budget, ActiveTokens(s.items))
    requires Inv(t) && name in t.snapshots
             && t.snapshots[name] == TakeSnapshot(config, s, name, ALL_WELL).0.snapshots[name]
    requires SavesSucceed(io, |t.snapshots[name]|)
    ensures var (u, r) := RestoreSnapshot(config, t, name, io);
            && r.Some? && r.value.skipped == [] && r.value.active == ActiveTokens(s.items)
            && forall x :: x in s.items && x.state.Active? ==> Find(u.items, x.id) == Some(Revived(x))
  {
    var items := t.snapshots[name];
    ActiveItemsFacts(s.items);
    AllRestored(config, t, items, |items|, io);
    RestoringTo(config, t, items, |items|, io);
    assert items[..|items|] == items;
    forall x | x in s.items && x.state.Active?
      ensures Find(RestoreSnapshot(config, t, name, io).0.items, x.id) == Some(Revived(x))
    {
      assert x in items;
      var i :| 0 <= i < |items| && items[i] == x;
      assert Ids(items)[i] == x.id;
    }
  }

  lemma {:induction false} NothingReplaced(items: seq<Item>, ids: seq<string>)
    requires forall id :: id in ids ==> Find(items, id).None?
    ensures CostOf(items, ids) == 0
  {
    if ids != [] {
      assert forall id :: id in ids[..|ids| - 1] ==> id in ids;
      NothingReplaced(items, ids[..|ids| - 1]);
    }
  }

  /** What restoring a snapshot brings back, in tokens and ids: each item in turn, if it
      fits on top of those before it. It depends on the snapshot and the budget alone. */
  function Greedy(config: Config, items: seq<Item>, n: nat): (nat, seq<string>)
    requires n <= |items|
  {
    if n == 0 then (0, [])
    else
      var (tokens, ids) := Greedy(config, items, n - 1);
      if Fits(config.budget, tokens + items[n - 1].tokenCount)
      then (tokens + items[n - 1].tokenCount, ids + [items[n - 1].id])
      else (tokens, ids)
  }

  lemma {:induction false} RestoringIsGreedy(config: Config, s: State, items: seq<Item>, n: nat, io: nat -> IO)
    requires n <= |items|
    ensures var r := RestoringOver(config, s, items, n, io);
            (r.active, r.restored) == Greedy(config, items, n)
  {
    if n > 0 { RestoringIsGreedy(config, s, items, n - 1, io); }
  }

  /** The budget is checked against the snapshot alone: restoring one ends within the budget
      exactly when what is active, less what the restored ids had, and what comes back fit
      together. */
  lemma SnapshotRestoreFitsIff(config: Config, s: State, name: string, io: nat -> IO)
    requires Inv(s) && ValidSnapshotId(name) && name in s.snapshots && SavesSucceed(io, |s.snapshots[name]|)
    ensures var (back, ids) := Greedy(config, s.snapshots[name], |s.snapshots[name]|);
            Fits(config.budget, ActiveTokens(RestoreSnapshot(config, s, name, io).0.items)) <==>
            ActiveTokens(s.items) + back <= UsableInputTokens(config.budget) + CostOf(s.items, ids)
  {
    hide RestoringOver, Greedy, Inv;
    RestoringIsGreedy(config, s, s.snapshots[name], |s.snapshots[name]|, io);
    SnapshotRestoreIsExact(config, s, name, io);
  }

  lemma {:induction false} GreedyTakesAll(config: Config, items: seq<Item>, n: nat)
    requires n <= |items| && Fits(config.budget, TotalTokens(items))
    ensures Greedy(config, items, n) == (TotalTokens(items[..n]), Ids(items[..n]))
  {
    if n == 0 {
      assert Ids(items[..0]) == [];
    } else {
      GreedyTakesAll(config, items, n - 1);
      assert items[..n] == items[..n - 1] + [items[n - 1]];
      assert Ids(items[..n]) == Ids(items[..n - 1]) + [items[n - 1].id];
      TotalTokensAppend(items[..n - 1], items[n - 1]);
      TotalTokensPrefix(items, n);
    }
  }

  /** So restoring a snapshot that fits, and whose items are all gone, overflows exactly when
      it does not fit on top of what is active. */
  lemma SnapshotRestoreMayOverflow(config: Config, s: State, name: string, io: nat -> IO)
    requires Inv(s) && ValidSnapshotId(name) && name in s.snapshots && SavesSucceed(io, |s.snapshots[name]|)
    requires Fits(config.budget, TotalTokens(s.snapshots[name]))
    requires forall id :: id in Ids(s.snapshots[name]) ==> Find(s.items, id).None?
    ensures Fits(config.budget, ActiveTokens(RestoreSnapshot(config, s, name, io).0.items)) <==>
            Fits(config.budget, ActiveTokens(s.items) + TotalTokens(s.snapshots[name]))
  {
    hide RestoreSnapshot, Inv;
    var items := s.snapshots[name];
    SnapshotRestoreFitsIff(config, s, name, io);
    GreedyTakesAll(config, items, |items|);
    assert items[..|items|] == items;
    NothingReplaced(s.items, Ids(items));
  }
}
