/**
  The context engine as it runs (src/context/engine.rs): an object over three stores, whose
  methods change its fields and publish to disk. Each method is proved to make of the state
  what `EngineModel` says.
 */
module Engine {
  import opened Compressor
  import opened ContextItems
  import opened EngineContext
  import opened EngineModel
  import opened EnginePass
  import opened EngineRuns
  import opened Selector
  import opened Tokens
  import opened Wrappers
  import P = ContextPolicy
  import M = EngineModel

  /** The published window (src/context/window.rs). */
  class WindowStore {
    var published: Window

    constructor ()
      ensures published == Window([], {})
    {
      published := Window([], {});
    }

    /** Every id is checked; one that is not valid fails the load. */
    method Load() returns (r: Option<Window>)
      ensures r == if Loadable(published) then Some(published) else None
    {
      for i := 0 to |published.items|
        invariant forall j :: 0 <= j < i ==> ValidItemId(published.items[j].id)
      {
        if !ValidItemId(published.items[i].id) { return None; }
      }
      return Some(published);
    }

    /** Publishes all or nothing. */
    method Save(w: Window, io: IO) returns (ok: bool)
      modifies this
      ensures ok == io.save
      ensures published == if io.save then w else old(published)
    {
      if io.save { published := w; }
      return io.save;
    }
  }

  /** The offload records (src/context/offload.rs). */
  class OffloadStore {
    var records: map<string, Item>

    constructor ()
      ensures records == map[]
    {
      records := map[];
    }

    method Put(item: Item, io: IO) returns (ok: bool)
      modifies this
      ensures ok <==> ValidItemId(item.id) && item.state.Offloaded? && PutRecord(old(records), item, io).Some?
      ensures records == if ok then PutRecord(old(records), item, io).value else old(records)
    {
      if !ValidItemId(item.id) { return false; }
      if !item.state.Offloaded? { return false; }
      if |records| >= MAX_OFFLOADS && item.id !in records { return false; }
      if !io.put { return false; }
      records := records[item.id := item];
      return true;
    }

    method Get(id: string, io: IO) returns (r: Result<Option<Item>, M.Error>)
      ensures r == if !ValidItemId(id) || id !in records then Ok(None)
                   else if io.read then Ok(Some(records[id])) else Err(IoFailed)
    {
      if !ValidItemId(id) { return Ok(None); }
      if id !in records { return Ok(None); }
      if !io.read { return Err(IoFailed); }
      return Ok(Some(records[id]));
    }

    /** True when a record was there to remove. */
    method RemoveRestored(id: string, io: IO) returns (r: Result<bool, M.Error>)
      modifies this
      ensures ValidItemId(id) ==>
                (records, r.Ok?) == RemoveRecord(old(records), id, io) && (r.Ok? ==> r.value == (id in old(records)))
      ensures !ValidItemId(id) ==> records == old(records) && r == Ok(false)
    {
      if !ValidItemId(id) { return Ok(false); }
      if id !in records { return Ok(false); }
      if !io.remove { return Err(IoFailed); }
      records := records - {id};
      return Ok(true);
    }
  }

  /** The snapshots (src/context/snapshot.rs). */
  class SnapshotStore {
    var records: map<string, seq<Item>>

    constructor ()
      ensures records == map[]
    {
      records := map[];
    }

    method Put(name: string, items: seq<Item>, io: IO) returns (r: Result<(), M.Error>)
      modifies this
      ensures r == if !ValidSnapshotId(name) then Err(InvalidId)
                   else if name !in old(records) && |old(records)| >= MAX_SNAPSHOTS then Err(Full)
                   else if !io.put then Err(IoFailed) else Ok(())
      ensures records == if r.Ok? then old(records)[name := items] else old(records)
      ensures r.Ok? ==> Get(name) == Some(items)
      ensures r.Err? ==> Get(name) == old(Get(name))
      ensures forall other :: other != name ==> Get(other) == old(Get(other))
    {
      if !ValidSnapshotId(name) { return Err(InvalidId); }
      if name !in records && |records| >= MAX_SNAPSHOTS { return Err(Full); }
      if !io.put { return Err(IoFailed); }
      records := records[name := items];
      return Ok(());
    }

    /** Looks a snapshot up under a valid id; what `Put` stored is what comes back. */
    function Get(name: string): (r: Option<seq<Item>>)
      reads this
      ensures r.Some? <==> ValidSnapshotId(name) && name in records
      ensures r.Some? ==> r.value == records[name]
    {
      if !ValidSnapshotId(name) || name !in records then None else Some(records[name])
    }
  }

  class ContextEngine {
    const config: Config
    const window: WindowStore
    const offloads: OffloadStore
    const snapshots: SnapshotStore
    var items: seq<Item>
    var protected: set<string>
    var lastDecision: Option<DecisionSummary>

    ghost function Value(): State
      reads this, window, offloads, snapshots
    {
      State(items, protected, window.published, offloads.records, snapshots.records)
    }

    ghost predicate Valid()
      reads this, window, offloads, snapshots
    {
      Inv(Value())
    }

    /** An engine over a window that was loaded. */
    constructor (config: Config, window: WindowStore, offloads: OffloadStore, snapshots: SnapshotStore, loaded: Window)
      ensures this.config == config && this.window == window
      ensures this.offloads == offloads && this.snapshots == snapshots
      ensures items == loaded.items && protected == loaded.protected && lastDecision == None
    {
      this.config := config;
      this.window := window;
      this.offloads := offloads;
      this.snapshots := snapshots;
      items := loaded.items;
      protected := loaded.protected;
      lastDecision := None;
    }

    /** A window that does not load fails the start; the engine does not begin empty. */
    static method Start(config: Config, window: WindowStore, offloads: OffloadStore, snapshots: SnapshotStore)
      returns (engine: Option<ContextEngine>)
      ensures engine.Some? <==> Loadable(window.published)
      ensures engine.Some? ==> fresh(engine.value) && engine.value.config == config
      ensures engine.Some? ==> engine.value.Value() == State(window.published.items, window.published.protected,
                                                             window.published, offloads.records, snapshots.records)
    {
      var loaded := window.Load();
      if loaded.None? { return None; }
      var e := new ContextEngine(config, window, offloads, snapshots, loaded.value);
      return Some(e);
    }

    /** The items the engine holds, under the window write lock. */
    method ReplaceItem(item: Item, io: IO)
      modifies this, window
      ensures Value() == M.ReplaceItem(old(Value()), item, io.save)
      ensures lastDecision == old(lastDecision)
    {
      var next := Without(items, item.id) + [item];
      var ok := window.Save(Window(next, protected), io);
      if ok { items := next; }
    }

    method Insert(item: Item, io: IO) returns (r: Result<Item, M.Error>)
      requires Valid()
      modifies this, window
      ensures Valid() && (Value(), r) == InsertItem(config, old(Value()), item, io)
    {
      ApplyKeepsInv(config, Value(), DoInsert(item), _ => io);
      if !config.enabled { return Err(Disabled); }
      if !ValidItemId(item.id) { return Err(InvalidId); }
      var tokens := CountTokens(item.content);
      var counted := item.(tokenCount := tokens);
      if counted.tokenCount > config.budget.maxInputTokens { return Err(TooLarge); }
      if |items| >= MAX_ACTIVE_ITEMS && Find(items, item.id).None? { return Err(Full); }
      var next := Without(items, item.id) + [counted];
      var ok := window.Save(Window(next, protected), io);
      if !ok { return Err(IoFailed); }
      items := next;
      return Ok(counted);
    }

    method Protect(id: string, io: IO) returns (found: bool)
      requires Valid()
      modifies this, window
      ensures Valid() && (Value(), found) == M.Protect(old(Value()), id, io)
    {
      if !ValidItemId(id) { return false; }
      found := Find(items, id).Some?;
      if found {
        protected := protected + {id};
        var ok := window.Save(Window(items, protected), io);
        if !ok { protected := protected - {id}; }
      }
    }

    method Unprotect(id: string, io: IO) returns (removed: bool)
      requires Valid()
      modifies this, window
      ensures Valid() && (Value(), removed) == M.Unprotect(old(Value()), id, io)
    {
      removed := id in protected;
      if removed {
        protected := protected - {id};
        var ok := window.Save(Window(items, protected), io);
        if !ok { protected := protected + {id}; }
      }
    }

    method RemoveItem(id: string, io: IO) returns (removed: bool)
      requires Valid()
      modifies this, window, offloads
      ensures Valid() && (Value(), removed) == M.RemoveItem(old(Value()), id, io)
    {
      ApplyKeepsInv(config, Value(), DoRemove(id), _ => io);
      WithoutLength(items, id);
      FindIn(items, id);
      var next := Without(items, id);
      removed := |next| != |items|;
      if removed {
        assert ItemOk(Find(items, id).value);
        protected := protected - {id};
        var ok := window.Save(Window(next, protected), io);
        if !ok {
          protected := protected + {id};
          return false;
        }
        items := next;
        var _ := offloads.RemoveRestored(id, io);
      }
    }

    method Offload(id: string, io: IO) returns (r: Result<(), M.Error>)
      requires Valid()
      modifies this, window, offloads
      ensures Valid() && (Value(), r) == M.Offload(config, old(Value()), id, io)
      ensures lastDecision == old(lastDecision)
    {
      OffloadKeepsInv(config, Value(), id, io);
      FindIn(items, id);
      if !config.enabled { return Err(Disabled); }
      if !ValidItemId(id) { return Err(InvalidId); }
      if id in protected { return Err(IsProtected); }
      var found := Find(items, id);
      if found.None? { return Err(NotFound); }
      if !found.value.state.Active? { return Err(Inactive); }
      var item := found.value.(state := Offloaded);
      var ok := offloads.Put(item, io);
      if !ok { return Err(IoFailed); }
      ReplaceItem(item, io);
      return Ok(());
    }

    method RestoreItemToActive(item: Item, io: IO) returns (r: Result<Item, M.Error>)
      modifies this, window
      ensures (Value(), r) == RestoreToActive(config, old(Value()), item, io)
    {
      var active := ActiveTokens(items);
      if Overflow(config.budget, active + item.tokenCount).Some? && item.id !in protected { return Err(OverBudget); }
      var revived := item.(recency := 1.0, state := Active);
      ReplaceItem(revived, io);
      return Ok(revived);
    }

    method Restore(id: string, io: IO) returns (r: Result<Item, M.Error>)
      requires Valid()
      modifies this, window, offloads
      ensures Valid() && (Value(), r) == M.Restore(config, old(Value()), id, io)
    {
      RestoreItemKeepsInv(config, Value(), id, io);
      FindIn(items, id);
      if !config.enabled { return Err(Disabled); }
      if !ValidItemId(id) { return Err(InvalidId); }
      var found := Find(items, id);
      if found.Some? {
        if found.value.state.Offloaded? {
          var restored := RestoreItemToActive(found.value, io);
          if restored.Err? { return restored; }
          var retired := offloads.RemoveRestored(restored.value.id, io);
          return if retired.Ok? then restored else Err(IoFailed);
        }
        if found.value.state.Active? { return Err(AlreadyActive); }
      }
      var record := offloads.Get(id, io);
      if record.Err? { return Err(IoFailed); }
      if record.value.None? { return Err(NotFound); }
      assert RecordOk(offloads.records, id);
      var restored := RestoreItemToActive(record.value.value.(state := Active), io);
      if restored.Err? { return restored; }
      var retired := offloads.RemoveRestored(id, io);
      return if retired.Ok? then restored else Err(IoFailed);
    }

    method Archive(id: string, io: IO) returns (r: Result<(), M.Error>)
      requires Valid()
      modifies this, window
      ensures Valid() && (Value(), r) == M.Archive(config, old(Value()), id, io)
      ensures lastDecision == old(lastDecision)
    {
      ArchiveKeepsInv(config, Value(), id, io);
      if !config.enabled { return Err(Disabled); }
      if id in protected { return Err(IsProtected); }
      var found := Find(items, id);
      if found.None? { return Err(NotFound); }
      ReplaceItem(found.value.(state := Archived), io);
      return Ok(());
    }

    method CompressItem(id: string, io: IO) returns (r: Result<Option<nat>, M.Error>)
      requires Valid()
      modifies this, window
      ensures Valid() && (Value(), r) == M.CompressItem(config, old(Value()), id, io)
      ensures lastDecision == old(lastDecision)
    {
      CompressKeepsInv(config, Value(), id, io);
      if !config.enabled { return Err(Disabled); }
      var found := Find(items, id);
      if found.None? { return Err(NotFound); }
      if !found.value.state.Active? { return Ok(None); }
      var compressed := Compress(found.value.content, DEFAULT_OPTIONS);
      if compressed.tokensSaved == 0 { return Ok(None); }
      var updated := found.value.(
        content := compressed.content, tokenCount := compressed.tokenCount,
        metadata := CompressedFrom(compressed.originalTokens));
      ReplaceItem(updated, io);
      return Ok(Some(compressed.tokensSaved));
    }

    /** Carries out one decision: what was done about the item, and the tokens it released. */
    method Act(d: P.Decision, io: IO, ghost p: Pass) returns (did: Did, released: nat)
      requires Valid() && Value() == p.state
      modifies this, window, offloads
      ensures Valid() && lastDecision == old(lastDecision)
      ensures var q := PassStep(config, p, d, io);
              Value() == q.state && q.after == SatSub(p.after, released) && ListsExtended(p, q, d.id, did)
    {
      did, released := WasKept, 0;
      match d.action {
        case Offload =>
          if config.autoOffload {
            var done := Offload(d.id, io);
            if done.Ok? { did, released := WasOffloaded, d.tokenCost; }
          }
        case Compress =>
          if config.autoCompress {
            var saved := CompressItem(d.id, io);
            if saved.Ok? && saved.value.Some? { did, released := WasCompressed, saved.value.value; }
          }
        case Archive =>
          var done := Archive(d.id, io);
          if done.Ok? { did, released := WasArchived, d.tokenCost; }
        case _ =>
      }
    }

    /** The policy pass. */
    method Optimize(task: string, io: nat -> IO) returns (r: Result<DecisionSummary, M.Error>)
      requires Valid()
      modifies this, window, offloads
      ensures Valid() && (Value(), r) == M.Optimize(config, old(Value()), task, io)
      ensures lastDecision == if r.Ok? then Some(r.value) else old(lastDecision)
    {
      if !config.enabled { return Err(Disabled); }
      ghost var start := PassStart(Value());
      var tokensBefore := ActiveTokens(items);
      var decisions := P.Decide(items, task, config.budget, protected);
      var kept, offloaded, compressed, archived := [], [], [], [];
      var tokensAfter := tokensBefore;
      for i := 0 to |decisions|
        invariant Valid() && lastDecision == old(lastDecision)
        invariant StandsAt(PassOver(config, start, decisions, i, io),
                           kept, offloaded, compressed, archived, tokensAfter)
      {
        var id := decisions[i].id;
        var did, released := Act(decisions[i], io(i), PassOver(config, start, decisions, i, io));
        match did {
          case WasKept => kept := kept + [id];
          case WasOffloaded => offloaded := offloaded + [id];
          case WasCompressed => compressed := compressed + [id];
          case WasArchived => archived := archived + [id];
        }
        tokensAfter := SatSub(tokensAfter, released);
      }
      var summary := DecisionSummary(kept, offloaded, compressed, archived, tokensBefore, tokensAfter);
      lastDecision := Some(summary);
      return Ok(summary);
    }

    /** The state, the lists and the count of a pass in progress. */
    ghost predicate StandsAt(p: Pass, kept: seq<string>, offloaded: seq<string>, compressed: seq<string>,
                             archived: seq<string>, tokensAfter: nat)
      reads this, window, offloads, snapshots
    {
      && Value() == p.state && kept == p.kept && offloaded == p.offloaded
      && compressed == p.compressed && archived == p.archived && tokensAfter == p.after
    }

    method Snapshot(name: string, io: IO) returns (r: Result<(), M.Error>)
      requires Valid()
      modifies snapshots
      ensures Valid() && (Value(), r) == TakeSnapshot(config, old(Value()), name, io)
    {
      ApplyKeepsInv(config, Value(), DoSnapshot(name), _ => io);
      if !config.enabled { return Err(Disabled); }
      r := snapshots.Put(name, ActiveItems(items), io);
    }

    /** The ids restored and skipped, when there is such a snapshot. */
    method RestoreSnapshot(name: string, io: nat -> IO) returns (r: Option<(seq<string>, seq<string>)>)
      requires Valid()
      modifies this, window
      ensures var (after, done) := M.RestoreSnapshot(config, old(Value()), name, io);
              && Valid() && Value() == after
              && r == (if done.Some? then Some((done.value.restored, done.value.skipped)) else None)
    {
      ghost var before := Value();
      var snapshot := snapshots.Get(name);
      if snapshot.None? { return None; }
      var taken := snapshot.value;
      var restored, skipped := [], [];
      var active: nat := 0;
      for i := 0 to |taken|
        invariant RestoringOver(config, before, taken, i, io) == Restoring(Value(), active, restored, skipped)
      {
        var item := taken[i];
        if active + item.tokenCount <= UsableInputTokens(config.budget) {
          ReplaceItem(item.(recency := 1.0, state := Active), io(i));
          active := active + item.tokenCount;
          restored := restored + [item.id];
        } else {
          skipped := skipped + [item.id];
        }
      }
      assert Valid() by { RestoringKeepsInv(config, before, taken, |taken|, io); }
      return Some((restored, skipped));
    }

    /** Changes nothing. */
    method Select(request: Request) returns (outcome: Outcome)
      ensures outcome == EngineContext.Select(config, Value(), request)
    {
      var scores := Scores(items, request.task, UsableInputTokens(config.budget));
      outcome := SelectWithinBudget(ActiveItems(items), scores, RequestBudget(config, request), protected);
    }

    method Shorten(item: Item, options: CompressOptions) returns (r: Item)
      ensures r == Shortened(config, item, options)
    {
      r := item;
      if config.autoCompress {
        var compressed := Compress(item.content, options);
        if compressed.tokensSaved > 0 {
          r := item.(content := compressed.content, tokenCount := compressed.tokenCount,
                     metadata := CompressedFrom(compressed.originalTokens));
        }
      }
    }

    /** Assembles the context of a request and changes nothing. */
    method GetContext(request: Request) returns (r: Result<Assembled, M.Error>)
      ensures r == EngineContext.GetContext(config, Value(), request)
    {
      if !config.enabled { return Err(Disabled); }
      var outcome := Select(request);
      var kept := AssembleItems(outcome.keptIds, ById(items), AssemblyOptions(request, |outcome.keptIds|));
      return Ok(Assembled(kept, outcome.keptTokens, config.budget, outcome.rejectedIds));
    }

    method AssembleItems(ids: seq<string>, byId: map<string, Item>, options: CompressOptions) returns (kept: seq<Item>)
      ensures kept == ItemsFor(config, byId, ids, options)
    {
      kept := [];
      for i := 0 to |ids|
        invariant kept == ItemsFor(config, byId, ids[..i], options)
      {
        assert ids[..i + 1][..i] == ids[..i];
        if ids[i] in byId {
          var item := Shorten(byId[ids[i]], options);
          kept := kept + [item];
        }
      }
      assert ids[..|ids|] == ids;
    }
  }

  lemma {:induction false} WithoutLength(items: seq<Item>, id: string)
    ensures |Without(items, id)| <= |items|
    ensures |Without(items, id)| == |items| <==> Find(items, id).None?
  {
    if items != [] { WithoutLength(items[1..], id); }
  }
}
