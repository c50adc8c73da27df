/**
  The context engine on values (src/context/engine.rs, with offload.rs, window.rs and
  snapshot.rs): what every operation makes of the in-memory items and protected set, the
  published window, the offload records and the snapshots. The outcome of every read,
  write and removal of a file is a parameter.
 */
module EngineModel {
  import opened Compressor
  import opened ContextItems
  import opened Text
  import opened Tokens
  import opened Wrappers
  import P = ContextPolicy

  const MAX_ACTIVE_ITEMS := 5_000
  const MAX_OFFLOADS := 10_000
  const MAX_SNAPSHOTS := 1_000
  const MAX_SNAPSHOT_ID_LEN := 128

  datatype Config = Config(enabled: bool, budget: Budget, autoOffload: bool, autoCompress: bool)

  datatype Window = Window(items: seq<Item>, protected: set<string>)

  datatype State = State(
    items: seq<Item>, protected: set<string>, window: Window, offloads: map<string, Item>,
    snapshots: map<string, seq<Item>>)

  /** Which file operations succeed: publishing the window, writing, reading and removing
      an offload record (or writing a snapshot). */
  datatype IO = IO(save: bool, put: bool, read: bool, remove: bool)

  const ALL_WELL := IO(true, true, true, true)

  datatype Error =
    | Disabled | InvalidId | TooLarge | Full | IsProtected | NotFound | Inactive | AlreadyActive
    | OverBudget | IoFailed

  // ---------------------------------------------------------------- the item list

  function Find(items: seq<Item>, id: string): Option<Item> {
    if items == [] then None
    else if items[0].id == id then Some(items[0])
    else Find(items[1..], id)
  }

  function Without(items: seq<Item>, id: string): seq<Item> {
    if items == [] then []
    else if items[0].id == id then Without(items[1..], id)
    else [items[0]] + Without(items[1..], id)
  }

  /** Replaces the item with this id, moving it to the end, or adds it. */
  function Put(items: seq<Item>, item: Item): seq<Item> { Without(items, item.id) + [item] }

  function ActiveCost(item: Item): nat { if item.state.Active? then item.tokenCount else 0 }

  function ActiveTokens(items: seq<Item>): nat {
    if items == [] then 0 else ActiveCost(items[0]) + ActiveTokens(items[1..])
  }

  function OptionCost(item: Option<Item>): nat { if item.Some? then ActiveCost(item.value) else 0 }

  // ---------------------------------------------------------------- operations

  /** Publishes first and commits to memory only what was published. */
  function Commit(s: State, items: seq<Item>, save: bool): State {
    if save then s.(items := items, window := Window(items, s.protected)) else s
  }

  /** `replace_item`, which swallows a failed write. */
  function ReplaceItem(s: State, item: Item, save: bool): State { Commit(s, Put(s.items, item), save) }

  function InsertItem(config: Config, s: State, item: Item, io: IO): (State, Result<Item, Error>) {
    var counted := item.(tokenCount := Count(item.content));
    if !config.enabled then (s, Err(Disabled))
    else if !ValidItemId(item.id) then (s, Err(InvalidId))
    else if counted.tokenCount > config.budget.maxInputTokens then (s, Err(TooLarge))
    else if |s.items| >= MAX_ACTIVE_ITEMS && Find(s.items, item.id).None? then (s, Err(Full))
    else if !io.save then (s, Err(IoFailed))
    else (Commit(s, Put(s.items, counted), true), Ok(counted))
  }

  function Protect(s: State, id: string, io: IO): (State, bool) {
    if !ValidItemId(id) || Find(s.items, id).None? then (s, false)
    else
      var protected := s.protected + {id};
      if io.save then (s.(protected := protected, window := Window(s.items, protected)), true)
      else (s.(protected := protected - {id}), true)
  }

  function Unprotect(s: State, id: string, io: IO): (State, bool) {
    if id !in s.protected then (s, false)
    else
      var protected := s.protected - {id};
      if io.save then (s.(protected := protected, window := Window(s.items, protected)), true)
      else (s.(protected := protected + {id}), true)
  }

  function RemoveRecord(offloads: map<string, Item>, id: string, io: IO): (map<string, Item>, bool) {
    if id !in offloads then (offloads, true)
    else if io.remove then (offloads - {id}, true)
    else (offloads, false)
  }

  function RemoveItem(s: State, id: string, io: IO): (State, bool) {
    if Find(s.items, id).None? then (s, false)
    else
      var protected := s.protected - {id};
      if !io.save then (s.(protected := protected + {id}), false)
      else
        var items := Without(s.items, id);
        (s.(items := items, protected := protected, window := Window(items, protected),
            offloads := RemoveRecord(s.offloads, id, io).0), true)
  }

  /** `OffloadStore::put`. */
  function PutRecord(offloads: map<string, Item>, item: Item, io: IO): Option<map<string, Item>> {
    if !io.put || (|offloads| >= MAX_OFFLOADS && item.id !in offloads) then None
    else Some(offloads[item.id := item])
  }

  function Offload(config: Config, s: State, id: string, io: IO): (State, Result<(), Error>) {
    var found := Find(s.items, id);
    if !config.enabled then (s, Err(Disabled))
    else if !ValidItemId(id) then (s, Err(InvalidId))
    else if id in s.protected then (s, Err(IsProtected))
    else if found.None? then (s, Err(NotFound))
    else if !found.value.state.Active? then (s, Err(Inactive))
    else
      var item := found.value.(state := Offloaded);
      var offloads := PutRecord(s.offloads, item, io);
      if offloads.None? then (s, Err(IoFailed))
      else (ReplaceItem(s.(offloads := offloads.value), item, io.save), Ok(()))
  }

  function RestoreToActive(config: Config, s: State, item: Item, io: IO): (State, Result<Item, Error>) {
    if !Fits(config.budget, ActiveTokens(s.items) + item.tokenCount) && item.id !in s.protected
    then (s, Err(OverBudget))
    else
      var revived := item.(recency := 1.0, state := Active);
      (ReplaceItem(s, revived, io.save), Ok(revived))
  }

  /** Restores an item and retires its record; a record that cannot be removed is an error
      although the item is active by then. */
  function RestoreAndRetire(config: Config, s: State, item: Item, io: IO): (State, Result<Item, Error>) {
    var (next, r) := RestoreToActive(config, s, item, io);
    if r.Err? then (next, r)
    else
      var (offloads, removed) := RemoveRecord(next.offloads, item.id, io);
      (next.(offloads := offloads), if removed then r else Err(IoFailed))
  }

  function Restore(config: Config, s: State, id: string, io: IO): (State, Result<Item, Error>) {
    var found := Find(s.items, id);
    if !config.enabled then (s, Err(Disabled))
    else if !ValidItemId(id) then (s, Err(InvalidId))
    else if found.Some? && found.value.state.Offloaded? then RestoreAndRetire(config, s, found.value, io)
    else if found.Some? && found.value.state.Active? then (s, Err(AlreadyActive))
    else if id !in s.offloads then (s, Err(NotFound))
    else if !io.read then (s, Err(IoFailed))
    else RestoreAndRetire(config, s, s.offloads[id].(state := Active), io)
  }

  function Archive(config: Config, s: State, id: string, io: IO): (State, Result<(), Error>) {
    var found := Find(s.items, id);
    if !config.enabled then (s, Err(Disabled))
    else if id in s.protected then (s, Err(IsProtected))
    else if found.None? then (s, Err(NotFound))
    else (ReplaceItem(s, found.value.(state := Archived), io.save), Ok(()))
  }

  /** The tokens `compress_item` can save on a content. */
  function Savings(content: string): nat {
    SatSub(Count(content), Count(CompressedText(content, DEFAULT_OPTIONS)))
  }

  function Squeezed(item: Item): Item {
    var text := CompressedText(item.content, DEFAULT_OPTIONS);
    item.(content := text, tokenCount := Count(text), metadata := CompressedFrom(Count(item.content)))
  }

  function CompressItem(config: Config, s: State, id: string, io: IO): (State, Result<Option<nat>, Error>) {
    var found := Find(s.items, id);
    if !config.enabled then (s, Err(Disabled))
    else if found.None? then (s, Err(NotFound))
    else if !found.value.state.Active? || Savings(found.value.content) == 0 then (s, Ok(None))
    else (ReplaceItem(s, Squeezed(found.value), io.save), Ok(Some(Savings(found.value.content))))
  }

  // ---------------------------------------------------------------- the optimisation pass

  /** Where a pass stands. `swallowed` counts the tokens reported as released by actions
      whose window write failed unnoticed; the program has no such counter. */
  datatype Pass = Pass(
    state: State, kept: seq<string>, offloaded: seq<string>, compressed: seq<string>,
    archived: seq<string>, after: nat, swallowed: nat)

  datatype DecisionSummary = DecisionSummary(
    kept: seq<string>, offloaded: seq<string>, compressed: seq<string>, archived: seq<string>,
    tokensBefore: nat, tokensAfter: nat)

  function Unnoticed(tokens: nat, io: IO): nat { if io.save then 0 else tokens }

  function PassStep(config: Config, p: Pass, d: P.Decision, io: IO): Pass {
    match d.action
    case Offload =>
      if !config.autoOffload then p.(kept := p.kept + [d.id])
      else
        var (s, r) := Offload(config, p.state, d.id, io);
        if r.Err? then p.(state := s, kept := p.kept + [d.id])
        else p.(state := s, offloaded := p.offloaded + [d.id], after := SatSub(p.after, d.tokenCost),
                swallowed := p.swallowed + Unnoticed(d.tokenCost, io))
    case Compress =>
      if !config.autoCompress then p.(kept := p.kept + [d.id])
      else
        var (s, r) := CompressItem(config, p.state, d.id, io);
        if r.Err? || r.value.None? then p.(state := s, kept := p.kept + [d.id])
        else p.(state := s, compressed := p.compressed + [d.id], after := SatSub(p.after, r.value.value),
                swallowed := p.swallowed + Unnoticed(r.value.value, io))
    case Archive =>
      var (s, r) := Archive(config, p.state, d.id, io);
      if r.Err? then p.(state := s, kept := p.kept + [d.id])
      else p.(state := s, archived := p.archived + [d.id], after := SatSub(p.after, d.tokenCost),
              swallowed := p.swallowed + Unnoticed(d.tokenCost, io))
    case _ => p.(kept := p.kept + [d.id])
  }

  /** The first `n` decisions applied in order; step `i` meets the I/O outcomes `io(i)`. */
  function PassOver(config: Config, p: Pass, ds: seq<P.Decision>, n: nat, io: nat -> IO): Pass
    requires n <= |ds|
  {
    if n == 0 then p else PassStep(config, PassOver(config, p, ds, n - 1, io), ds[n - 1], io(n - 1))
  }

  function PassStart(s: State): Pass { Pass(s, [], [], [], [], ActiveTokens(s.items), 0) }

  function Decisions(config: Config, s: State, task: string): seq<P.Decision> {
    P.Decide(s.items, task, config.budget, s.protected)
  }

  function PassEnd(config: Config, s: State, task: string, io: nat -> IO): Pass {
    var ds := Decisions(config, s, task);
    PassOver(config, PassStart(s), ds, |ds|, io)
  }

  function SummaryOf(p: Pass, before: nat): DecisionSummary {
    DecisionSummary(p.kept, p.offloaded, p.compressed, p.archived, before, p.after)
  }

  function Optimize(config: Config, s: State, task: string, io: nat -> IO): (State, Result<DecisionSummary, Error>) {
    if !config.enabled then (s, Err(Disabled))
    else
      var end := PassEnd(config, s, task, io);
      (end.state, Ok(SummaryOf(end, ActiveTokens(s.items))))
  }

  // ---------------------------------------------------------------- snapshots and restart

  function ActiveItems(items: seq<Item>): seq<Item> {
    if items == [] then []
    else if items[0].state.Active? then [items[0]] + ActiveItems(items[1..])
    else ActiveItems(items[1..])
  }

  predicate ValidSnapshotId(id: string) { ValidItemId(id) && Bytes(id) <= MAX_SNAPSHOT_ID_LEN }

  function TakeSnapshot(config: Config, s: State, name: string, io: IO): (State, Result<(), Error>) {
    if !config.enabled then (s, Err(Disabled))
    else if !ValidSnapshotId(name) then (s, Err(InvalidId))
    else if name !in s.snapshots && |s.snapshots| >= MAX_SNAPSHOTS then (s, Err(Full))
    else if !io.put then (s, Err(IoFailed))
    else (s.(snapshots := s.snapshots[name := ActiveItems(s.items)]), Ok(()))
  }

  /** Where restoring a snapshot stands; `active` counts from zero. */
  datatype Restoring = Restoring(state: State, active: nat, restored: seq<string>, skipped: seq<string>)

  function RestoringStep(config: Config, r: Restoring, item: Item, io: IO): Restoring {
    if Fits(config.budget, r.active + item.tokenCount) then
      var revived := item.(recency := 1.0, state := Active);
      Restoring(ReplaceItem(r.state, revived, io.save), r.active + item.tokenCount, r.restored + [item.id], r.skipped)
    else r.(skipped := r.skipped + [item.id])
  }

  function RestoringOver(config: Config, s: State, items: seq<Item>, n: nat, io: nat -> IO): Restoring
    requires n <= |items|
  {
    if n == 0 then Restoring(s, 0, [], [])
    else RestoringStep(config, RestoringOver(config, s, items, n - 1, io), items[n - 1], io(n - 1))
  }

  /** Works on a disabled engine too. */
  function RestoreSnapshot(config: Config, s: State, name: string, io: nat -> IO): (State, Option<Restoring>) {
    if !ValidSnapshotId(name) || name !in s.snapshots then (s, None)
    else
      var items := s.snapshots[name];
      var r := RestoringOver(config, s, items, |items|, io);
      (r.state, Some(r))
  }

  /** What `WindowStore::load` accepts. */
  predicate Loadable(w: Window) { forall i :: 0 <= i < |w.items| ==> ValidItemId(w.items[i].id) }

  /** A new engine over the same files. */
  function Restart(s: State): Option<State> {
    if Loadable(s.window) then Some(s.(items := s.window.items, protected := s.window.protected)) else None
  }

  // ---------------------------------------------------------------- invariant

  /** The counter's value on the content is what the item carries. */
  predicate ItemOk(item: Item) { ValidItemId(item.id) && item.tokenCount == Count(item.content) }

  predicate AllOk(items: seq<Item>) { forall i :: 0 <= i < |items| ==> ItemOk(items[i]) }

  predicate RecordOk(offloads: map<string, Item>, id: string)
    requires id in offloads
  {
    offloads[id].id == id && ItemOk(offloads[id]) && offloads[id].state.Offloaded?
  }

  ghost predicate Inv(s: State) {
    && UniqueIds(s.items) && AllOk(s.items)
    && s.window.items == s.items
    && (forall id :: id in s.offloads ==> RecordOk(s.offloads, id))
    && (forall name :: name in s.snapshots ==> AllOk(s.snapshots[name]) && UniqueIds(s.snapshots[name]))
  }

  // ---------------------------------------------------------------- facts about lists

  lemma {:induction false} FindIn(items: seq<Item>, id: string)
    ensures var r := Find(items, id);
            match r
            case Some(item) => item in items && item.id == id
            case None => forall x :: x in items ==> x.id != id
  {
    if items != [] { FindIn(items[1..], id); }
  }

  lemma {:induction false} FindOf(items: seq<Item>, x: Item)
    requires UniqueIds(items) && x in items
    ensures Find(items, x.id) == Some(x)
  {
    if items[0] != x {
      var i :| 0 <= i < |items| && items[i] == x;
      assert x == items[1..][i - 1];
      FindOf(items[1..], x);
      assert items[0].id != items[i].id;
    }
  }

  lemma {:induction false} WithoutIn(items: seq<Item>, id: string, x: Item)
    ensures x in Without(items, id) <==> x in items && x.id != id
  {
    if items != [] {
      WithoutIn(items[1..], id, x);
      assert x in items <==> x == items[0] || x in items[1..];
    }
  }

  lemma {:induction false} WithoutUnique(items: seq<Item>, id: string)
    requires UniqueIds(items)
    ensures UniqueIds(Without(items, id))
  {
    if items != [] {
      WithoutUnique(items[1..], id);
      var rest := Without(items[1..], id);
      forall j | 0 <= j < |rest| ensures rest[j].id != items[0].id {
        WithoutIn(items[1..], id, rest[j]);
        assert rest[j] in items[1..];
      }
    }
  }

  lemma PutUnique(items: seq<Item>, item: Item)
    requires UniqueIds(items)
    ensures UniqueIds(Put(items, item))
  {
    WithoutUnique(items, item.id);
    var rest := Without(items, item.id);
    forall j | 0 <= j < |rest| ensures rest[j].id != item.id { WithoutIn(items, item.id, rest[j]); }
  }

  lemma PutOk(items: seq<Item>, item: Item)
    requires AllOk(items) && ItemOk(item)
    ensures AllOk(Put(items, item))
  {
    var rest := Without(items, item.id);
    forall j | 0 <= j < |rest| ensures ItemOk(rest[j]) { WithoutIn(items, item.id, rest[j]); }
  }

  lemma {:induction false} FindWithout(items: seq<Item>, gone: string, id: string)
    ensures Find(Without(items, gone), id) == if id == gone then None else Find(items, id)
  {
    if items != [] {
      FindWithout(items[1..], gone, id);
      var rest := Without(items[1..], gone);
      assert ([items[0]] + rest)[1..] == rest;
    }
  }

  lemma {:induction false} FindAppend(items: seq<Item>, x: Item, id: string)
    ensures Find(items + [x], id) ==
            if Find(items, id).Some? then Find(items, id) else if x.id == id then Some(x) else None
  {
    if items == [] {
      assert [] + [x] == [x] && [x][1..] == [];
    } else {
      FindAppend(items[1..], x, id);
      assert (items + [x])[1..] == items[1..] + [x] && (items + [x])[0] == items[0];
    }
  }

  lemma FindPut(items: seq<Item>, x: Item, id: string)
    ensures Find(Put(items, x), id) == if id == x.id then Some(x) else Find(items, id)
  {
    FindWithout(items, x.id, id);
    FindAppend(Without(items, x.id), x, id);
  }

  lemma {:induction false} ActiveTokensAppend(items: seq<Item>, x: Item)
    ensures ActiveTokens(items + [x]) == ActiveTokens(items) + ActiveCost(x)
  {
    if items == [] {
      assert [] + [x] == [x] && [x][1..] == [];
    } else {
      ActiveTokensAppend(items[1..], x);
      assert (items + [x])[1..] == items[1..] + [x] && (items + [x])[0] == items[0];
    }
  }

  lemma {:induction false} WithoutAbsent(items: seq<Item>, id: string)
    requires Find(items, id).None?
    ensures Without(items, id) == items
  {
    if items != [] { WithoutAbsent(items[1..], id); }
  }

  lemma HeadIsUnique(items: seq<Item>)
    requires UniqueIds(items) && items != []
    ensures Find(items[1..], items[0].id).None?
  {
    FindIn(items[1..], items[0].id);
  }

  lemma {:induction false} ActiveTokensWithout(items: seq<Item>, id: string)
    requires UniqueIds(items)
    ensures ActiveTokens(Without(items, id)) == ActiveTokens(items) - OptionCost(Find(items, id))
  {
    if items != [] {
      if items[0].id == id {
        HeadIsUnique(items);
        WithoutAbsent(items[1..], id);
      } else {
        ActiveTokensWithout(items[1..], id);
        var rest := Without(items[1..], id);
        assert ([items[0]] + rest)[1..] == rest;
      }
    }
  }

  /** Replacing an item exchanges its tokens for the new ones. */
  lemma ActiveTokensPut(items: seq<Item>, x: Item)
    requires UniqueIds(items)
    ensures ActiveTokens(Put(items, x)) == ActiveTokens(items) - OptionCost(Find(items, x.id)) + ActiveCost(x)
  {
    ActiveTokensWithout(items, x.id);
    ActiveTokensAppend(Without(items, x.id), x);
  }

  lemma {:induction false} ActiveTokensAtLeast(items: seq<Item>, id: string)
    ensures OptionCost(Find(items, id)) <= ActiveTokens(items)
  {
    if items != [] { ActiveTokensAtLeast(items[1..], id); }
  }

  lemma {:induction false} WithoutIds(items: seq<Item>, id: string)
    requires UniqueIds(items) && Find(items, id).Some?
    ensures multiset(Ids(items)) == multiset(Ids(Without(items, id))) + multiset{id}
  {
    assert Ids(items) == [items[0].id] + Ids(items[1..]);
    if items[0].id == id {
      HeadIsUnique(items);
      WithoutAbsent(items[1..], id);
    } else {
      WithoutIds(items[1..], id);
      var rest := Without(items[1..], id);
      assert Ids([items[0]] + rest) == [items[0].id] + Ids(rest);
    }
  }

  /** Replacing an item keeps the ids. */
  lemma PutIds(items: seq<Item>, x: Item)
    requires UniqueIds(items) && Find(items, x.id).Some?
    ensures multiset(Ids(Put(items, x))) == multiset(Ids(items))
  {
    WithoutIds(items, x.id);
    assert Ids(Put(items, x)) == Ids(Without(items, x.id)) + [x.id];
  }
}
