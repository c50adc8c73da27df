/**
  What each operation of the engine does, and when it succeeds, told by what is found under
  each id afterwards (src/context/engine.rs:264-383, 655-838).
 */
module EngineEffects {
  import opened ContextItems
  import opened EngineModel
  import opened EnginePass
  import opened EngineRecovery
  import opened EngineRuns
  import opened Text
  import opened Tokens
  import opened Wrappers

  /** Nothing has changed but what is found under one id. */
  ghost predicate OnlyItem(s: State, t: State, id: string, now: Option<Item>) {
    && t.protected == s.protected && t.offloads == s.offloads && t.snapshots == s.snapshots
    && (forall other :: Find(t.items, other) == if other == id then now else Find(s.items, other))
  }

  lemma PutOnlyItem(s: State, x: Item)
    ensures OnlyItem(s, ReplaceItem(s, x, true), x.id, Some(x))
  {
    forall other ensures Find(Put(s.items, x), other) == if other == x.id then Some(x) else Find(s.items, other) {
      FindPut(s.items, x, other);
    }
  }

  /** Inserting succeeds exactly for valid ids, content within the budget's limit, room for a
      new id, and a window that is written; the item is then found under its id with the
      counter's token count, and nothing else has changed. */
  lemma InsertIff(config: Config, s: State, item: Item, io: IO)
    ensures var (t, r) := InsertItem(config, s, item, io);
            && (r.Ok? <==>
                  && config.enabled && ValidItemId(item.id) && Count(item.content) <= config.budget.maxInputTokens
                  && (|s.items| < 5_000 || Find(s.items, item.id).Some?) && io.save)
            && (r.Ok? ==> r.value == item.(tokenCount := Count(item.content)) && OnlyItem(s, t, item.id, Some(r.value)))
            && (r.Err? ==> t == s)
  {
    PutOnlyItem(s, item.(tokenCount := Count(item.content)));
  }

  /** Protecting answers whether there is such an item. It adds the id to the protected ones
      and leaves the others, when the window is written; otherwise the id is not protected. */
  lemma ProtectIff(s: State, id: string, io: IO)
    requires Inv(s)
    ensures var (t, found) := Protect(s, id, io);
            && (found <==> Find(s.items, id).Some?)
            && t.items == s.items && t.offloads == s.offloads && t.snapshots == s.snapshots
            && (forall other :: other in t.protected <==>
                  if found && other == id then io.save else other in s.protected)
  {
    if Find(s.items, id).Some? { FoundIsOk(s, id); }
  }

  /** Unprotecting answers whether the id was protected, and takes it out when the window is
      written. */
  lemma UnprotectIff(s: State, id: string, io: IO)
    ensures var (t, removed) := Unprotect(s, id, io);
            && (removed <==> id in s.protected)
            && t.items == s.items && t.offloads == s.offloads && t.snapshots == s.snapshots
            && (forall other :: other in t.protected <==> other in s.protected && !(other == id && io.save))
  {
  }

  /** Removing succeeds exactly when there is such an item and the window is written. Item and
      protection of the id are gone then, and its record when that can be removed; of other
      ids nothing changes. */
  lemma RemoveIff(s: State, id: string, io: IO)
    ensures var (t, removed) := RemoveItem(s, id, io);
            && (removed <==> Find(s.items, id).Some? && io.save)
            && (forall other :: Find(t.items, other) == if removed && other == id then None else Find(s.items, other))
            && (forall other :: other != id ==> (other in t.protected <==> other in s.protected))
            && (removed ==> id !in t.protected)
            && t.offloads == (if removed && io.remove then s.offloads - {id} else s.offloads)
            && t.snapshots == s.snapshots
  {
    forall other ensures Find(Without(s.items, id), other) == if other == id then None else Find(s.items, other) {
      FindWithout(s.items, id, other);
    }
    assert id !in s.offloads ==> s.offloads - {id} == s.offloads;
  }

  /** Offloading succeeds exactly for an active, unprotected item whose record can be written.
      The record is the item, offloaded, and so is what is found, when the window is written;
      an error changes nothing. */
  lemma OffloadIff(config: Config, s: State, id: string, io: IO)
    requires Inv(s)
    ensures var (t, r) := Offload(config, s, id, io);
            var found := Find(s.items, id);
            && (r.Ok? <==>
                  && config.enabled && id !in s.protected && found.Some? && found.value.state == Active
                  && io.put && (|s.offloads| < 10_000 || id in s.offloads))
            && (r.Err? ==> t == s)
            && (r.Ok? ==>
                  && t.offloads == s.offloads[id := found.value.(state := Offloaded)]
                  && OnlyItem(s.(offloads := t.offloads), t, id,
                              if io.save then Some(found.value.(state := Offloaded)) else found))
  {
    if Find(s.items, id).Some? {
      FoundIsOk(s, id);
      PutOnlyItem(s.(offloads := s.offloads[id := Find(s.items, id).value.(state := Offloaded)]),
                  Find(s.items, id).value.(state := Offloaded));
    }
  }

  /** The item a restore would bring back: the offloaded one in memory, or else, when it is
      not active, the one on record, which has to be read. */
  function Recoverable(s: State, id: string, io: IO): Option<Item> {
    var found := Find(s.items, id);
    if found.Some? && found.value.state == Offloaded then found
    else if found.Some? && found.value.state == Active then None
    else if id in s.offloads && io.read then Some(s.offloads[id]) else None
  }

  /** What restoring an item does once it is found. */
  lemma RetireIff(config: Config, s: State, x: Item, io: IO)
    ensures var (t, r) := RestoreAndRetire(config, s, x, io);
            && (r.Ok? <==>
                  && (ActiveTokens(s.items) + x.tokenCount <= UsableInputTokens(config.budget) || x.id in s.protected)
                  && (io.remove || x.id !in s.offloads))
            && (r.Ok? ==>
                  && r.value == x.(recency := 1.0, state := Active)
                  && t.offloads == s.offloads - {x.id}
                  && OnlyItem(s.(offloads := t.offloads), t, x.id,
                              if io.save then Some(r.value) else Find(s.items, x.id)))
  {
    hide ActiveTokens, UsableInputTokens;
    PutOnlyItem(s, x.(recency := 1.0, state := Active));
    assert x.id !in s.offloads ==> s.offloads - {x.id} == s.offloads;
  }

  /** Restoring succeeds exactly when there is an item to bring back that fits or is
      protected, and a record, if there is one, can be removed. */
  lemma RestoreIff(config: Config, s: State, id: string, io: IO)
    requires Inv(s)
    ensures var (t, r) := Restore(config, s, id, io);
            var x := Recoverable(s, id, io);
            && (r.Ok? <==>
                  && config.enabled && x.Some?
                  && (|| ActiveTokens(s.items) + x.value.tokenCount <= UsableInputTokens(config.budget)
                      || id in s.protected)
                  && (io.remove || id !in s.offloads))
            && (r.Ok? ==>
                  && r.value == x.value.(recency := 1.0, state := Active)
                  && t.offloads == s.offloads - {id}
                  && OnlyItem(s.(offloads := t.offloads), t, id, if io.save then Some(r.value) else Find(s.items, id)))
  {
    var x := Recoverable(s, id, io);
    if Find(s.items, id).Some? { FoundIsOk(s, id); }
    if id in s.offloads { assert RecordOk(s.offloads, id); }
    hide RestoreAndRetire, OnlyItem, ActiveTokens, UsableInputTokens;
    if x.Some? {
      RetireIff(config, s, x.value, io);
      RetireIff(config, s, x.value.(state := Active), io);
    }
  }

  /** Archiving succeeds exactly for an unprotected item, whatever its state, which is found
      archived then, when the window is written. */
  lemma ArchiveIff(config: Config, s: State, id: string, io: IO)
    ensures var (t, r) := Archive(config, s, id, io);
            var found := Find(s.items, id);
            && (r.Ok? <==> config.enabled && id !in s.protected && found.Some?)
            && (r.Err? ==> t == s)
            && (r.Ok? ==> OnlyItem(s, t, id, if io.save then Some(found.value.(state := Archived)) else found))
  {
    if Find(s.items, id).Some? {
      FindIn(s.items, id);
      PutOnlyItem(s, Find(s.items, id).value.(state := Archived));
    }
  }

  /** Compressing answers what it saved, or nothing for an item that is not active or would
      not get cheaper. */
  lemma CompressIff(config: Config, s: State, id: string, io: IO)
    ensures var (t, r) := CompressItem(config, s, id, io);
            var found := Find(s.items, id);
            && (r.Ok? <==> config.enabled && found.Some?)
            && (r.Ok? && r.value.Some? <==>
                  config.enabled && found.Some? && found.value.state == Active && Savings(found.value.content) > 0)
            && (!(r.Ok? && r.value.Some?) ==> t == s)
            && (r.Ok? && r.value.Some? ==>
                  && r.value.value == Savings(found.value.content)
                  && OnlyItem(s, t, id, if io.save then Some(Squeezed(found.value)) else found))
  {
    if Find(s.items, id).Some? {
      FindIn(s.items, id);
      PutOnlyItem(s, Squeezed(Find(s.items, id).value));
    }
  }

  /** Taking a snapshot succeeds exactly for a valid name with room for it, when it can be
      written, and changes nothing but that it is there: every active item once. */
  lemma SnapshotIff(config: Config, s: State, name: string, io: IO)
    requires Inv(s)
    ensures var (t, r) := TakeSnapshot(config, s, name, io);
            && (r.Ok? <==>
                  && config.enabled && ValidItemId(name) && Bytes(name) <= 128
                  && (|s.snapshots| < 1_000 || name in s.snapshots) && io.put)
            && t.items == s.items && t.protected == s.protected && t.window == s.window && t.offloads == s.offloads
            && (forall other :: other != name ==>
                  (other in t.snapshots <==> other in s.snapshots)
                  && (other in s.snapshots ==> t.snapshots[other] == s.snapshots[other]))
            && (r.Err? ==> t == s)
            && (r.Ok? ==> name in t.snapshots && UniqueIds(t.snapshots[name])
                          && forall x :: x in t.snapshots[name] <==> x in s.items && x.state == Active)
  {
    ActiveItemsOk(s.items);
    ActiveItemsFacts(s.items);
  }

  /** What the budget leaves for input: all but the reserves, or nothing when they exceed it. */
  lemma UsableIs(b: Budget)
    ensures var reserved := b.reservedOutputTokens + b.safetyMarginTokens;
            if reserved <= b.maxInputTokens then UsableInputTokens(b) + reserved == b.maxInputTokens
            else UsableInputTokens(b) == 0
  {
  }
}
