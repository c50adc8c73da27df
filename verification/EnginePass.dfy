/**
  The optimisation pass of the engine (src/context/engine.rs:568-649): its accounting, what
  becomes of every item, and when a second pass changes nothing.
 */
module EnginePass {
  import opened ContextItems
  import opened EngineModel
  import opened Sorting
  import opened Wrappers
  import P = ContextPolicy

  // ---------------------------------------------------------------- one action

  /** Nothing but the item and the record of one id has changed. */
  ghost predicate SameElsewhere(s: State, t: State, id: string) {
    && t.protected == s.protected && t.snapshots == s.snapshots
    && multiset(Ids(t.items)) == multiset(Ids(s.items))
    && (forall other :: other != id ==> Find(t.items, other) == Find(s.items, other))
    && (forall other :: other != id ==> (other in t.offloads <==> other in s.offloads))
    && (forall other :: other != id && other in s.offloads ==> t.offloads[other] == s.offloads[other])
  }

  lemma ReplaceEffect(s: State, x: Item, save: bool)
    requires Inv(s) && ItemOk(x) && Find(s.items, x.id).Some?
    ensures var t := ReplaceItem(s, x, save);
            && Inv(t) && SameElsewhere(s, t, x.id) && t.offloads == s.offloads
            && Find(t.items, x.id) == (if save then Some(x) else Find(s.items, x.id))
            && ActiveTokens(t.items) ==
               if save then ActiveTokens(s.items) - OptionCost(Find(s.items, x.id)) + ActiveCost(x)
               else ActiveTokens(s.items)
  {
    PutUnique(s.items, x);
    PutOk(s.items, x);
    PutIds(s.items, x);
    ActiveTokensPut(s.items, x);
    forall other ensures Find(Put(s.items, x), other) == if other == x.id then Some(x) else Find(s.items, other) {
      FindPut(s.items, x, other);
    }
  }

  lemma FoundIsOk(s: State, id: string)
    requires Inv(s) && Find(s.items, id).Some?
    ensures ItemOk(Find(s.items, id).value) && Find(s.items, id).value.id == id
  {
    FindIn(s.items, id);
  }

  /** An active, unprotected item of the given size, as the decisions to act describe it. */
  predicate Actionable(s: State, id: string, tokens: nat) {
    var x := Find(s.items, id);
    x.Some? && x.value.state.Active? && x.value.tokenCount == tokens && id !in s.protected
  }

  lemma OffloadEffect(config: Config, s: State, id: string, tokens: nat, io: IO)
    requires Inv(s) && config.enabled && Actionable(s, id, tokens)
    ensures var (t, r) := Offload(config, s, id, io);
            var x := Find(s.items, id).value;
            && Inv(t) && SameElsewhere(s, t, id)
            && (r.Err? <==> PutRecord(s.offloads, x.(state := Offloaded), io).None?)
            && (r.Err? ==> t == s)
            && (r.Ok? ==> id in t.offloads && t.offloads[id] == x.(state := Offloaded)
                          && Find(t.items, id) == Some(if io.save then x.(state := Offloaded) else x)
                          && ActiveTokens(t.items) == ActiveTokens(s.items) - tokens + Unnoticed(tokens, io))
  {
    FoundIsOk(s, id);
    var x := Find(s.items, id).value;
    var offloads := PutRecord(s.offloads, x.(state := Offloaded), io);
    if offloads.Some? {
      ActiveTokensAtLeast(s.items, id);
      ReplaceEffect(s.(offloads := offloads.value), x.(state := Offloaded), io.save);
    }
  }

  lemma CompressEffect(config: Config, s: State, id: string, tokens: nat, io: IO)
    requires Inv(s) && config.enabled && Actionable(s, id, tokens)
    ensures var (t, r) := CompressItem(config, s, id, io);
            var x := Find(s.items, id).value;
            && Inv(t) && SameElsewhere(s, t, id) && t.offloads == s.offloads && r.Ok?
            && (r.value.None? <==> Savings(x.content) == 0)
            && (r.value.None? ==> t == s)
            && (r.value.Some? ==>
                  && r.value.value <= tokens
                  && Find(t.items, id) == Some(if io.save then Squeezed(x) else x)
                  && ActiveTokens(t.items) == ActiveTokens(s.items) - r.value.value + Unnoticed(r.value.value, io))
  {
    FoundIsOk(s, id);
    var x := Find(s.items, id).value;
    ReplaceEffect(s, Squeezed(x), io.save);
  }

  lemma ArchiveEffect(config: Config, s: State, id: string, tokens: nat, io: IO)
    requires Inv(s) && config.enabled && Actionable(s, id, tokens)
    ensures var (t, r) := Archive(config, s, id, io);
            var x := Find(s.items, id).value;
            && Inv(t) && SameElsewhere(s, t, id) && t.offloads == s.offloads && r.Ok?
            && Find(t.items, id) == Some(if io.save then x.(state := Archived) else x)
            && ActiveTokens(t.items) == ActiveTokens(s.items) - tokens + Unnoticed(tokens, io)
  {
    FoundIsOk(s, id);
    ReplaceEffect(s, Find(s.items, id).value.(state := Archived), io.save);
    ActiveTokensAtLeast(s.items, id);
  }

  // ---------------------------------------------------------------- one step

  datatype Did = WasKept | WasOffloaded | WasCompressed | WasArchived

  /** What a step does about its item. */
  function Done(config: Config, s: State, d: P.Decision, io: IO): Did {
    match d.action
    case Offload =>
      if config.autoOffload && Offload(config, s, d.id, io).1.Ok? then WasOffloaded else WasKept
    case Compress =>
      var r := CompressItem(config, s, d.id, io).1;
      if config.autoCompress && r.Ok? && r.value.Some? then WasCompressed else WasKept
    case Archive => if Archive(config, s, d.id, io).1.Ok? then WasArchived else WasKept
    case _ => WasKept
  }

  function Became(x: Item, did: Did): Item {
    match did
    case WasKept => x
    case WasOffloaded => x.(state := Offloaded)
    case WasCompressed => Squeezed(x)
    case WasArchived => x.(state := Archived)
  }

  predicate Acts(d: P.Decision) { d.action in {P.Offload, P.Compress, P.Archive} }

  function ActCost(d: P.Decision): nat { if Acts(d) then d.tokenCost else 0 }

  /** A decision still describes its item. */
  predicate Matches(s: State, d: P.Decision) {
    && (Acts(d) || d.action == P.Keep)
    && Find(s.items, d.id).Some?
    && (Acts(d) ==> Actionable(s, d.id, d.tokenCost))
  }

  function Entry(ids: seq<string>, id: string, here: bool): seq<string> { if here then ids + [id] else ids }

  /** The id lists of a pass after one more decision. */
  predicate ListsExtended(p: Pass, q: Pass, id: string, did: Did) {
    && q.kept == Entry(p.kept, id, did == WasKept)
    && q.offloaded == Entry(p.offloaded, id, did == WasOffloaded)
    && q.compressed == Entry(p.compressed, id, did == WasCompressed)
    && q.archived == Entry(p.archived, id, did == WasArchived)
  }

  /** The accounting of a pass: what it reports as active, and what it does not notice. */
  predicate Accounts(p: Pass) { p.after + p.swallowed == ActiveTokens(p.state.items) }

  predicate CanStep(config: Config, p: Pass, d: P.Decision) {
    Matches(p.state, d) && config.enabled && Accounts(p) && ActCost(d) <= p.after
  }

  /** What one step does, item, lists and accounting. */
  ghost predicate StepFacts(p: Pass, q: Pass, d: P.Decision, did: Did, save: bool)
    requires Find(p.state.items, d.id).Some?
  {
    var x := Find(p.state.items, d.id).value;
    && Inv(q.state) && SameElsewhere(p.state, q.state, d.id)
    && ListsExtended(p, q, d.id, did)
    && Accounts(q) && q.after >= p.after - ActCost(d)
    && (save ==> q.swallowed == p.swallowed)
    && (did == WasKept ==> q.state == p.state)
    && Find(q.state.items, d.id) == Some(if save then Became(x, did) else x)
    && (did == WasOffloaded ==> d.id in q.state.offloads && q.state.offloads[d.id] == x.(state := Offloaded))
  }

  lemma StepKeeps(p: Pass, d: P.Decision, save: bool)
    requires Inv(p.state) && Accounts(p) && Find(p.state.items, d.id).Some?
    ensures StepFacts(p, p.(kept := p.kept + [d.id]), d, WasKept, save)
  {
  }

  lemma StepOffloads(config: Config, p: Pass, d: P.Decision, io: IO)
    requires Inv(p.state) && CanStep(config, p, d) && d.action == P.Offload
    ensures StepFacts(p, PassStep(config, p, d, io), d, Done(config, p.state, d, io), io.save)
  {
    OffloadEffect(config, p.state, d.id, d.tokenCost, io);
    if Done(config, p.state, d, io) == WasKept { StepKeeps(p, d, io.save); }
  }

  lemma StepSqueezes(p: Pass, d: P.Decision, io: IO, t: State, saved: nat)
    requires Find(p.state.items, d.id).Some? && Accounts(p) && ActCost(d) == d.tokenCost <= p.after
    requires Inv(t) && SameElsewhere(p.state, t, d.id) && saved <= d.tokenCost
    requires var x := Find(p.state.items, d.id).value;
             Find(t.items, d.id) == Some(if io.save then Became(x, WasCompressed) else x)
    requires ActiveTokens(t.items) == ActiveTokens(p.state.items) - saved + Unnoticed(saved, io)
    ensures var q := p.(state := t, compressed := p.compressed + [d.id], after := SatSub(p.after, saved),
                        swallowed := p.swallowed + Unnoticed(saved, io));
            StepFacts(p, q, d, WasCompressed, io.save)
  {
  }

  lemma StepOfCompression(config: Config, p: Pass, d: P.Decision, io: IO, t: State, saved: Option<nat>)
    requires d.action == P.Compress && CompressItem(config, p.state, d.id, io) == (t, Ok(saved))
    ensures var q, did := PassStep(config, p, d, io), Done(config, p.state, d, io);
            if config.autoCompress && saved.Some? then
              did == WasCompressed
              && q == p.(state := t, compressed := p.compressed + [d.id], after := SatSub(p.after, saved.value),
                         swallowed := p.swallowed + Unnoticed(saved.value, io))
            else did == WasKept && q.kept == p.kept + [d.id] && q == p.(state := q.state, kept := q.kept)
                 && q.state in {t, p.state}
  {
  }

  lemma StepCompresses(config: Config, p: Pass, d: P.Decision, io: IO)
    requires Inv(p.state) && CanStep(config, p, d) && d.action == P.Compress
    ensures StepFacts(p, PassStep(config, p, d, io), d, Done(config, p.state, d, io), io.save)
  {
    var (t, r) := CompressItem(config, p.state, d.id, io);
    CompressEffect(config, p.state, d.id, d.tokenCost, io);
    var saved := r.value;
    StepOfCompression(config, p, d, io, t, saved);
    if config.autoCompress && saved.Some? {
      StepSqueezes(p, d, io, t, saved.value);
    } else {
      StepKeeps(p, d, io.save);
    }
  }

  lemma StepArchives(config: Config, p: Pass, d: P.Decision, io: IO)
    requires Inv(p.state) && CanStep(config, p, d) && d.action == P.Archive
    ensures StepFacts(p, PassStep(config, p, d, io), d, Done(config, p.state, d, io), io.save)
  {
    ArchiveEffect(config, p.state, d.id, d.tokenCost, io);
  }

  lemma PassStepFacts(config: Config, p: Pass, d: P.Decision, io: IO)
    requires Inv(p.state) && CanStep(config, p, d)
    ensures StepFacts(p, PassStep(config, p, d, io), d, Done(config, p.state, d, io), io.save)
  {
    match d.action
    case Offload => StepOffloads(config, p, d, io);
    case Compress => StepCompresses(config, p, d, io);
    case Archive => StepArchives(config, p, d, io);
    case _ => StepKeeps(p, d, io.save);
  }

  // ---------------------------------------------------------------- a whole pass

  function Pending(ds: seq<P.Decision>, n: nat): nat
    requires n <= |ds|
    decreases |ds| - n
  {
    if n == |ds| then 0 else ActCost(ds[n]) + Pending(ds, n + 1)
  }

  ghost predicate DistinctIds(ds: seq<P.Decision>) {
    forall i, j :: 0 <= i < j < |ds| ==> ds[i].id != ds[j].id
  }

  ghost predicate Ready(s: State, ds: seq<P.Decision>) {
    && Inv(s) && DistinctIds(ds)
    && (forall i :: 0 <= i < |ds| ==> Matches(s, ds[i]))
    && Pending(ds, 0) <= ActiveTokens(s.items)
  }

  function DecisionIds(ds: seq<P.Decision>): (ids: seq<string>)
    ensures |ids| == |ds| && forall i :: 0 <= i < |ds| ==> ids[i] == ds[i].id
  {
    seq(|ds|, i requires 0 <= i < |ds| => ds[i].id)
  }

  function AllLists(p: Pass): multiset<string> {
    multiset(p.kept) + multiset(p.offloaded) + multiset(p.compressed) + multiset(p.archived)
  }

  function At(config: Config, s: State, ds: seq<P.Decision>, n: nat, io: nat -> IO): Pass
    requires n <= |ds|
  {
    PassOver(config, PassStart(s), ds, n, io)
  }

  /** Items the pass has not reached are as at its start. */
  ghost predicate Untouched(s: State, p: Pass, ds: seq<P.Decision>, n: nat)
    requires n <= |ds|
  {
    forall id :: (forall i :: 0 <= i < n ==> ds[i].id != id) ==> Find(p.state.items, id) == Find(s.items, id)
  }

  lemma {:induction false} PassFacts(config: Config, s: State, ds: seq<P.Decision>, n: nat, io: nat -> IO)
    requires config.enabled && Ready(s, ds) && n <= |ds|
    ensures var p := At(config, s, ds, n, io);
            && Inv(p.state) && Accounts(p) && Pending(ds, n) <= p.after
            && p.state.protected == s.protected && p.state.snapshots == s.snapshots
            && multiset(Ids(p.state.items)) == multiset(Ids(s.items))
            && Untouched(s, p, ds, n)
            && (n < |ds| ==> Matches(p.state, ds[n]))
            && AllLists(p) == multiset(DecisionIds(ds[..n]))
  {
    if n == 0 {
      assert DecisionIds(ds[..0]) == [];
    } else {
      PassFacts(config, s, ds, n - 1, io);
      var p, d := At(config, s, ds, n - 1, io), ds[n - 1];
      PassStepFacts(config, p, d, io(n - 1));
      var q := At(config, s, ds, n, io);
      UntouchedStep(s, p, q, ds, n);
      ListsStep(p, q, ds, n, Done(config, p.state, d, io(n - 1)));
    }
  }

  lemma UntouchedStep(s: State, p: Pass, q: Pass, ds: seq<P.Decision>, n: nat)
    requires 0 < n <= |ds| && Untouched(s, p, ds, n - 1) && SameElsewhere(p.state, q.state, ds[n - 1].id)
    requires DistinctIds(ds) && p.state.protected == s.protected
    ensures Untouched(s, q, ds, n)
    ensures n < |ds| && Matches(s, ds[n]) ==> Matches(q.state, ds[n])
  {
    forall id | forall i :: 0 <= i < n ==> ds[i].id != id
      ensures Find(q.state.items, id) == Find(s.items, id)
    {
      assert Find(p.state.items, id) == Find(s.items, id);
    }
    if n < |ds| {
      assert forall i :: 0 <= i < n ==> ds[i].id != ds[n].id;
      assert Find(q.state.items, ds[n].id) == Find(s.items, ds[n].id);
    }
  }

  lemma ListsStep(p: Pass, q: Pass, ds: seq<P.Decision>, n: nat, did: Did)
    requires 0 < n <= |ds| && ListsExtended(p, q, ds[n - 1].id, did)
    requires AllLists(p) == multiset(DecisionIds(ds[..n - 1]))
    ensures AllLists(q) == multiset(DecisionIds(ds[..n]))
  {
    assert DecisionIds(ds[..n]) == DecisionIds(ds[..n - 1]) + [ds[n - 1].id];
  }

  // ---------------------------------------------------------------- the decisions fit the state

  lemma {:induction false} ActiveTokensInsert(x: Item, items: seq<Item>, le: (Item, Item) -> bool)
    ensures ActiveTokens(Insert(x, items, le)) == ActiveCost(x) + ActiveTokens(items)
  {
    if items == [] {
      assert [x][1..] == [];
    } else if le(x, items[0]) {
      assert ([x] + items)[1..] == items;
    } else {
      ActiveTokensInsert(x, items[1..], le);
      var rest := Insert(x, items[1..], le);
      assert ([items[0]] + rest)[1..] == rest;
    }
  }

  lemma {:induction false} ActiveTokensSort(items: seq<Item>, le: (Item, Item) -> bool)
    ensures ActiveTokens(Sort(items, le)) == ActiveTokens(items)
  {
    if items != [] {
      ActiveTokensSort(items[1..], le);
      ActiveTokensInsert(items[0], Sort(items[1..], le), le);
    }
  }

  lemma {:induction false} PendingIsActive(ranked: seq<Item>, n: nat, task: string, budget: Budget,
                                           protected: set<string>)
    requires n <= |ranked|
    ensures Pending(P.DecisionsFor(ranked, task, budget, protected), n) <= ActiveTokens(ranked[n..])
    decreases |ranked| - n
  {
    if n < |ranked| {
      PendingIsActive(ranked, n + 1, task, budget, protected);
      assert ranked[n..][1..] == ranked[n + 1..];
    }
  }

  function RankedItems(config: Config, s: State, task: string): seq<Item> {
    P.Ranked(s.items, task, config.budget)
  }

  lemma RankedFacts(config: Config, s: State, task: string)
    requires Inv(s)
    ensures var ranked := RankedItems(config, s, task);
            && multiset(ranked) == multiset(s.items) && UniqueIds(ranked)
            && ActiveTokens(ranked) == ActiveTokens(s.items)
            && forall i :: 0 <= i < |ranked| ==> Find(s.items, ranked[i].id) == Some(ranked[i])
  {
    var ranked, le := RankedItems(config, s, task), P.RankLe(task, config.budget);
    SortElements(s.items, le);
    UniqueIdsPermutation(s.items, ranked);
    ActiveTokensSort(s.items, le);
    forall i | 0 <= i < |ranked| ensures Find(s.items, ranked[i].id) == Some(ranked[i]) {
      assert ranked[i] in multiset(s.items);
      FindOf(s.items, ranked[i]);
    }
  }

  lemma DecisionsMatch(config: Config, s: State, task: string)
    requires Inv(s)
    ensures var ds := Decisions(config, s, task);
            DistinctIds(ds) && forall i :: 0 <= i < |ds| ==> Matches(s, ds[i])
  {
    RankedFacts(config, s, task);
  }

  lemma DecisionIdsAreIds(config: Config, s: State, task: string)
    requires Inv(s)
    ensures multiset(DecisionIds(Decisions(config, s, task))) == multiset(Ids(s.items))
  {
    var ranked := RankedItems(config, s, task);
    RankedFacts(config, s, task);
    Permutation(ranked, s.items);
    assert DecisionIds(Decisions(config, s, task)) == Ids(ranked);
  }

  lemma DecisionsAreReady(config: Config, s: State, task: string)
    requires Inv(s)
    ensures Ready(s, Decisions(config, s, task))
    ensures multiset(DecisionIds(Decisions(config, s, task))) == multiset(Ids(s.items))
  {
    var ranked := RankedItems(config, s, task);
    DecisionsMatch(config, s, task);
    DecisionIdsAreIds(config, s, task);
    assert Pending(Decisions(config, s, task), 0) <= ActiveTokens(s.items) by {
      RankedFacts(config, s, task);
      PendingIsActive(ranked, 0, task, config.budget, s.protected);
      assert ranked[0..] == ranked;
    }
  }

  // ---------------------------------------------------------------- exact accounting

  predicate SavesSucceed(io: nat -> IO, n: nat) { forall i :: 0 <= i < n ==> io(i).save }

  lemma {:induction false} NothingSwallowed(config: Config, s: State, ds: seq<P.Decision>, n: nat, io: nat -> IO)
    requires config.enabled && Ready(s, ds) && n <= |ds| && SavesSucceed(io, n)
    ensures At(config, s, ds, n, io).swallowed == 0
  {
    if n > 0 {
      NothingSwallowed(config, s, ds, n - 1, io);
      PassFacts(config, s, ds, n - 1, io);
      PassStepFacts(config, At(config, s, ds, n - 1, io), ds[n - 1], io(n - 1));
    }
  }

  lemma PassEndFacts(config: Config, s: State, task: string, io: nat -> IO)
    requires config.enabled && Inv(s)
    ensures var end := PassEnd(config, s, task, io);
            && Inv(end.state) && Accounts(end) && end.state.protected == s.protected
            && end.state.snapshots == s.snapshots
            && multiset(Ids(end.state.items)) == multiset(Ids(s.items))
            && AllLists(end) == multiset(Ids(s.items))
  {
    var ds := Decisions(config, s, task);
    DecisionsAreReady(config, s, task);
    PassFacts(config, s, ds, |ds|, io);
    assert ds[..|ds|] == ds;
  }

  /** The pass accounts exactly. Its four lists partition the item ids, the ids and the
      protected set stay, and the reported total is the active total less what failed window
      writes left behind unnoticed; with every window write succeeding the two are equal. */
  lemma OptimizeIsExact(config: Config, s: State, task: string, io: nat -> IO)
    requires config.enabled && Inv(s)
    ensures var (t, r) := Optimize(config, s, task, io);
            && Inv(t) && t.protected == s.protected
            && multiset(Ids(t.items)) == multiset(Ids(s.items))
            && r.Ok? && r.value.tokensBefore == ActiveTokens(s.items)
            && multiset(r.value.kept) + multiset(r.value.offloaded) + multiset(r.value.compressed)
               + multiset(r.value.archived) == multiset(Ids(s.items))
            && r.value.tokensAfter + PassEnd(config, s, task, io).swallowed == ActiveTokens(t.items)
            && (SavesSucceed(io, |s.items|) ==> r.value.tokensAfter == ActiveTokens(t.items))
  {
    var ds := Decisions(config, s, task);
    PassEndFacts(config, s, task, io);
    if SavesSucceed(io, |s.items|) {
      DecisionsAreReady(config, s, task);
      SortElements(s.items, P.RankLe(task, config.budget));
      NothingSwallowed(config, s, ds, |ds|, io);
    }
  }

  /** No saturating subtraction of the pass saturates: what an action is charged with is
      never more than what is still reported as active. */
  lemma SubtractionsNeverSaturate(config: Config, s: State, task: string, io: nat -> IO, n: nat)
    requires config.enabled && Inv(s) && n < |Decisions(config, s, task)|
    ensures var ds := Decisions(config, s, task);
            var p := At(config, s, ds, n, io);
            && Find(p.state.items, ds[n].id).Some?
            && ActCost(ds[n]) <= p.after
            && (ds[n].action == P.Compress ==> Savings(Find(p.state.items, ds[n].id).value.content) <= p.after)
  {
    var ds := Decisions(config, s, task);
    DecisionsAreReady(config, s, task);
    PassFacts(config, s, ds, n, io);
    FoundIsOk(At(config, s, ds, n, io).state, ds[n].id);
  }

  // ---------------------------------------------------------------- the fate of one item

  function DoneAt(config: Config, s: State, ds: seq<P.Decision>, i: nat, io: nat -> IO): Did
    requires i < |ds|
  {
    Done(config, At(config, s, ds, i, io).state, ds[i], io(i))
  }

  /** Where one id stands in a pass: its item, its record and its place in the lists. */
  ghost predicate Stands(p: Pass, id: string, item: Option<Item>, did: Did, record: Option<Item>) {
    && Find(p.state.items, id) == item
    && (did == WasOffloaded ==> id in p.state.offloads && Some(p.state.offloads[id]) == record)
    && (id in p.kept <==> did == WasKept)
    && (id in p.offloaded <==> did == WasOffloaded)
    && (id in p.compressed <==> did == WasCompressed)
    && (id in p.archived <==> did == WasArchived)
  }

  lemma NotListedYet(config: Config, s: State, ds: seq<P.Decision>, i: nat, io: nat -> IO)
    requires config.enabled && Ready(s, ds) && i < |ds|
    ensures var p, id := At(config, s, ds, i, io), ds[i].id;
            id !in p.kept && id !in p.offloaded && id !in p.compressed && id !in p.archived
  {
    PassFacts(config, s, ds, i, io);
    var p, id := At(config, s, ds, i, io), ds[i].id;
    assert id !in DecisionIds(ds[..i]);
    assert id !in AllLists(p);
    assert multiset(p.kept) <= AllLists(p) && multiset(p.offloaded) <= AllLists(p);
    assert multiset(p.compressed) <= AllLists(p) && multiset(p.archived) <= AllLists(p);
  }

  lemma StandsOnStep(p: Pass, q: Pass, d: P.Decision, did: Did, save: bool)
    requires Find(p.state.items, d.id).Some? && StepFacts(p, q, d, did, save)
    requires d.id !in p.kept && d.id !in p.offloaded && d.id !in p.compressed && d.id !in p.archived
    ensures var x := Find(p.state.items, d.id).value;
            Stands(q, d.id, Some(if save then Became(x, did) else x), did, Some(x.(state := Offloaded)))
  {
  }

  lemma StandsOnLaterStep(p: Pass, q: Pass, d: P.Decision, done: Did, save: bool,
                          id: string, item: Option<Item>, did: Did, record: Option<Item>)
    requires Find(p.state.items, d.id).Some? && StepFacts(p, q, d, done, save)
    requires id != d.id && Stands(p, id, item, did, record)
    ensures Stands(q, id, item, did, record)
  {
    ListedAfter(p, q, d.id, done, id);
  }

  lemma ListedAfter(p: Pass, q: Pass, d: string, done: Did, id: string)
    requires ListsExtended(p, q, d, done) && id != d
    ensures id in q.kept <==> id in p.kept
    ensures id in q.offloaded <==> id in p.offloaded
    ensures id in q.compressed <==> id in p.compressed
    ensures id in q.archived <==> id in p.archived
  {
  }

  /** Where decision `i` leaves its item. */
  ghost predicate Settles(config: Config, s: State, ds: seq<P.Decision>, i: nat, n: nat, io: nat -> IO)
    requires i < |ds| && n <= |ds| && Find(s.items, ds[i].id).Some?
  {
    var x, did := Find(s.items, ds[i].id).value, DoneAt(config, s, ds, i, io);
    Stands(At(config, s, ds, n, io), ds[i].id,
           Some(if io(i).save then Became(x, did) else x), did, Some(x.(state := Offloaded)))
  }

  lemma SettlesAtOnce(config: Config, s: State, ds: seq<P.Decision>, i: nat, io: nat -> IO)
    requires config.enabled && Ready(s, ds) && i < |ds| && Find(s.items, ds[i].id).Some?
    ensures Settles(config, s, ds, i, i + 1, io)
  {
    var p := At(config, s, ds, i, io);
    PassFacts(config, s, ds, i, io);
    PassStepFacts(config, p, ds[i], io(i));
    NotListedYet(config, s, ds, i, io);
    assert Find(p.state.items, ds[i].id) == Find(s.items, ds[i].id);
    StandsOnStep(p, At(config, s, ds, i + 1, io), ds[i], DoneAt(config, s, ds, i, io), io(i).save);
  }

  lemma SettlesStill(config: Config, s: State, ds: seq<P.Decision>, i: nat, n: nat, io: nat -> IO)
    requires config.enabled && Ready(s, ds) && i < n < |ds| && Find(s.items, ds[i].id).Some?
    requires Settles(config, s, ds, i, n, io)
    ensures Settles(config, s, ds, i, n + 1, io)
  {
    var x, did := Find(s.items, ds[i].id).value, DoneAt(config, s, ds, i, io);
    var p := At(config, s, ds, n, io);
    PassFacts(config, s, ds, n, io);
    PassStepFacts(config, p, ds[n], io(n));
    StandsOnLaterStep(p, At(config, s, ds, n + 1, io), ds[n], DoneAt(config, s, ds, n, io), io(n).save, ds[i].id,
                      Some(if io(i).save then Became(x, did) else x), did, Some(x.(state := Offloaded)));
  }

  /** A step settles its own item, and later steps leave it so. */
  lemma {:induction false} StandsAfter(config: Config, s: State, ds: seq<P.Decision>, i: nat, n: nat, io: nat -> IO)
    requires config.enabled && Ready(s, ds) && i < n <= |ds|
    ensures Find(s.items, ds[i].id).Some?
    ensures Settles(config, s, ds, i, n, io)
  {
    hide PassStep, Done;
    assert Matches(s, ds[i]);
    if i == n - 1 {
      SettlesAtOnce(config, s, ds, i, io);
    } else {
      StandsAfter(config, s, ds, i, n - 1, io);
      SettlesStill(config, s, ds, i, n - 1, io);
    }
  }

  lemma DecisionOf(config: Config, s: State, task: string, x: Item) returns (i: nat)
    requires Inv(s) && x in s.items
    ensures i < |Decisions(config, s, task)|
    ensures Decisions(config, s, task)[i] == P.DecisionFor(x, task, config.budget, s.protected)
  {
    var ranked := RankedItems(config, s, task);
    RankedFacts(config, s, task);
    assert x in multiset(ranked);
    i :| 0 <= i < |ranked| && ranked[i] == x;
  }

  /** What the pass makes of each item: it is in exactly one list, kept items and protected
      items are as they were, and the others have become what their list says, unless the
      window write failed, when they are as they were too. Only compression changes content,
      and an offloaded item has a record of itself. */
  lemma ItemFate(config: Config, s: State, task: string, io: nat -> IO, x: Item)
    requires config.enabled && Inv(s) && x in s.items
    ensures var end := PassEnd(config, s, task, io);
            var saved := SavesSucceed(io, |s.items|);
            var y := Find(end.state.items, x.id);
            && y.Some?
            && (x.id in s.protected ==> x.id in end.kept)
            && (x.id in end.kept ==> y.value == x)
            && (x.id in end.offloaded ==>
                  y.value in {x, x.(state := Offloaded)} && (saved ==> y.value.state == Offloaded)
                  && x.id in end.state.offloads && end.state.offloads[x.id] == x.(state := Offloaded))
            && (x.id in end.compressed ==> y.value in {x, Squeezed(x)} && (saved ==> y.value == Squeezed(x)))
            && (x.id in end.archived ==>
                  y.value in {x, x.(state := Archived)} && (saved ==> y.value.state == Archived))
            && (x.id !in end.compressed ==> y.value.content == x.content)
  {
    var ds := Decisions(config, s, task);
    DecisionsAreReady(config, s, task);
    var i := DecisionOf(config, s, task, x);
    FindOf(s.items, x);
    StandsAfter(config, s, ds, i, |ds|, io);
    RankedFacts(config, s, task);
    SortElements(s.items, P.RankLe(task, config.budget));
    assert |ds| == |s.items|;
    assert SavesSucceed(io, |s.items|) ==> io(i).save;
  }

  /** An item that was just restored is not offloaded by the next pass, on any task. */
  lemma FreshItemsStay(config: Config, s: State, task: string, io: nat -> IO, x: Item)
    requires config.enabled && Inv(s) && x in s.items && x.recency >= 1.0
    ensures x.id !in PassEnd(config, s, task, io).offloaded
  {
    var ds := Decisions(config, s, task);
    DecisionsAreReady(config, s, task);
    var i := DecisionOf(config, s, task, x);
    P.FreshItemsAreNotOffloaded(x, task, config.budget, s.protected);
    StandsAfter(config, s, ds, i, |ds|, io);
  }

  // ---------------------------------------------------------------- a second pass

  predicate AllWell(io: nat -> IO, n: nat) { forall i :: 0 <= i < n ==> io(i) == ALL_WELL }

  /** With every file operation succeeding, the policy's decision on this item does nothing. */
  predicate Settled(config: Config, s: State, y: Item, task: string) {
    match P.DecisionFor(y, task, config.budget, s.protected).action
    case Keep => true
    case Offload => !config.autoOffload || (|s.offloads| >= MAX_OFFLOADS && y.id !in s.offloads)
    case Compress => !config.autoCompress || Savings(y.content) == 0
    case _ => false
  }

  lemma SettledStep(config: Config, p: Pass, y: Item, task: string)
    requires config.enabled && Inv(p.state) && y in p.state.items && Settled(config, p.state, y, task)
    ensures var d := P.DecisionFor(y, task, config.budget, p.state.protected);
            PassStep(config, p, d, ALL_WELL) == p.(kept := p.kept + [y.id])
  {
    FindOf(p.state.items, y);
    FoundIsOk(p.state, y.id);
  }

  lemma RankedIsAnItem(config: Config, s: State, task: string, i: nat)
    requires Inv(s) && i < |RankedItems(config, s, task)|
    ensures RankedItems(config, s, task)[i] in s.items
  {
    RankedFacts(config, s, task);
    assert RankedItems(config, s, task)[i] in multiset(s.items);
  }

  lemma DecisionIdsAppend(ds: seq<P.Decision>, n: nat)
    requires 0 < n <= |ds|
    ensures DecisionIds(ds[..n]) == DecisionIds(ds[..n - 1]) + [ds[n - 1].id]
  {
  }

  /** Where a pass over settled items stands after `n` decisions. */
  function KeptSoFar(s: State, ds: seq<P.Decision>, n: nat): Pass
    requires n <= |ds|
  {
    PassStart(s).(kept := DecisionIds(ds[..n]))
  }

  ghost predicate AllSettled(config: Config, s: State, task: string) {
    forall y :: y in s.items ==> Settled(config, s, y, task)
  }

  lemma {:induction false} SettledPass(config: Config, s: State, task: string, io: nat -> IO, n: nat)
    requires config.enabled && Inv(s) && n <= |Decisions(config, s, task)| && AllWell(io, n)
    requires AllSettled(config, s, task)
    ensures At(config, s, Decisions(config, s, task), n, io) == KeptSoFar(s, Decisions(config, s, task), n)
  {
    hide PassStep, Settled;
    var ds := Decisions(config, s, task);
    if n == 0 {
      assert DecisionIds(ds[..0]) == [];
    } else {
      SettledPass(config, s, task, io, n - 1);
      SettledPassStep(config, s, task, ds, n);
    }
  }

  lemma SettledPassStep(config: Config, s: State, task: string, ds: seq<P.Decision>, n: nat)
    requires config.enabled && Inv(s) && ds == Decisions(config, s, task) && 0 < n <= |ds|
    requires AllSettled(config, s, task)
    ensures PassStep(config, KeptSoFar(s, ds, n - 1), ds[n - 1], ALL_WELL) == KeptSoFar(s, ds, n)
  {
    var y := RankedItems(config, s, task)[n - 1];
    RankedIsAnItem(config, s, task, n - 1);
    SettledStep(config, KeptSoFar(s, ds, n - 1), y, task);
    DecisionIdsAppend(ds, n);
  }

  /** Steps on other ids leave a record alone, and records are only ever added. */
  lemma {:induction false} RecordsGrow(config: Config, s: State, ds: seq<P.Decision>, i: nat, n: nat, io: nat -> IO)
    requires config.enabled && Ready(s, ds) && i < n <= |ds|
    ensures var p, q := At(config, s, ds, i + 1, io).state, At(config, s, ds, n, io).state;
            && (ds[i].id in q.offloads <==> ds[i].id in p.offloads)
            && p.offloads.Keys <= q.offloads.Keys
  {
    if i + 1 < n {
      RecordsGrow(config, s, ds, i, n - 1, io);
      var p, d := At(config, s, ds, n - 1, io), ds[n - 1];
      PassFacts(config, s, ds, n - 1, io);
      PassStepFacts(config, p, d, io(n - 1));
      assert ds[i].id != d.id;
      StepKeepsRecords(config, p, d, io(n - 1));
    }
  }

  lemma StepKeepsRecords(config: Config, p: Pass, d: P.Decision, io: IO)
    ensures p.state.offloads.Keys <= PassStep(config, p, d, io).state.offloads.Keys
  {
  }

  lemma FewerKeys(a: map<string, Item>, b: map<string, Item>)
    requires a.Keys <= b.Keys
    ensures |a| <= |b|
  {
    var rest := b.Keys - a.Keys;
    assert a.Keys + rest == b.Keys;
    assert |b.Keys| == |a.Keys| + |rest|;
    assert |a| == |a.Keys| && |b| == |b.Keys|;
  }

  /** An item the first pass kept is settled at its end. */
  lemma KeptIsSettled(config: Config, s: State, task: string, io: nat -> IO, x: Item, i: nat)
    requires config.enabled && Inv(s) && x in s.items
    requires var ds := Decisions(config, s, task);
             && AllWell(io, |ds|) && i < |ds|
             && ds[i] == P.DecisionFor(x, task, config.budget, s.protected)
             && DoneAt(config, s, ds, i, io) == WasKept
    ensures Settled(config, PassEnd(config, s, task, io).state, x, task)
  {
    var ds := Decisions(config, s, task);
    var p, end := At(config, s, ds, i, io), PassEnd(config, s, task, io);
    DecisionsAreReady(config, s, task);
    PassFacts(config, s, ds, i, io);
    PassEndFacts(config, s, task, io);
    FindOf(s.items, x);
    assert Find(p.state.items, x.id) == Some(x);
    match ds[i].action
    case Offload =>
      OffloadEffect(config, p.state, x.id, x.tokenCount, io(i));
      if config.autoOffload {
        assert |p.state.offloads| >= MAX_OFFLOADS && x.id !in p.state.offloads;
        PassStepFacts(config, p, ds[i], io(i));
        RecordsGrow(config, s, ds, i, |ds|, io);
        FewerKeys(p.state.offloads, end.state.offloads);
      }
    case Compress => CompressEffect(config, p.state, x.id, x.tokenCount, io(i));
    case Archive => ArchiveEffect(config, p.state, x.id, x.tokenCount, io(i));
    case _ =>
  }

  lemma ItemsAreSettled(config: Config, s: State, task: string, io: nat -> IO, y: Item)
    requires config.enabled && Inv(s) && AllWell(io, |s.items|)
    requires PassEnd(config, s, task, io).compressed == []
    requires y in PassEnd(config, s, task, io).state.items
    ensures Settled(config, PassEnd(config, s, task, io).state, y, task)
  {
    var ds, end := Decisions(config, s, task), PassEnd(config, s, task, io);
    DecisionsAreReady(config, s, task);
    PassEndFacts(config, s, task, io);
    SortElements(s.items, P.RankLe(task, config.budget));
    var x := SameIdBefore(s, end.state, y);
    var i := DecisionOf(config, s, task, x);
    FindOf(s.items, x);
    FindOf(end.state.items, y);
    StandsAfter(config, s, ds, i, |ds|, io);
    if DoneAt(config, s, ds, i, io) == WasKept {
      KeptIsSettled(config, s, task, io, x, i);
    }
  }

  lemma SameIdBefore(s: State, t: State, y: Item) returns (x: Item)
    requires multiset(Ids(t.items)) == multiset(Ids(s.items)) && y in t.items
    ensures x in s.items && x.id == y.id
  {
    var j :| 0 <= j < |t.items| && t.items[j] == y;
    assert Ids(t.items)[j] in multiset(Ids(s.items));
    var i :| 0 <= i < |Ids(s.items)| && Ids(s.items)[i] == y.id;
    x := s.items[i];
  }

  /** The pass settles: when it compressed nothing and every write succeeded, a second pass
      on the same task keeps every item and changes nothing. */
  lemma OptimizeSettles(config: Config, s: State, task: string, io: nat -> IO, again: nat -> IO)
    requires config.enabled && Inv(s) && AllWell(io, |s.items|) && AllWell(again, |s.items|)
    requires PassEnd(config, s, task, io).compressed == []
    ensures var t := Optimize(config, s, task, io).0;
            var (u, r) := Optimize(config, t, task, again);
            && u == t && r.Ok?
            && multiset(r.value.kept) == multiset(Ids(s.items))
            && r.value.tokensBefore == r.value.tokensAfter
  {
    var t := PassEnd(config, s, task, io).state;
    var ds := Decisions(config, t, task);
    PassEndFacts(config, s, task, io);
    assert |multiset(Ids(t.items))| == |t.items| && |multiset(Ids(s.items))| == |s.items|;
    SortElements(t.items, P.RankLe(task, config.budget));
    forall y | y in t.items ensures Settled(config, t, y, task) {
      ItemsAreSettled(config, s, task, io, y);
    }
    SettledPass(config, t, task, again, |ds|);
    assert ds[..|ds|] == ds;
    DecisionsAreReady(config, t, task);
  }

  // ---------------------------------------------------------------- repeated passes

  /** A step lowers the reported total by at least one token for every item it compresses,
      and never raises it. */
  lemma StepShrinks(config: Config, p: Pass, d: P.Decision, io: IO)
    requires Inv(p.state) && CanStep(config, p, d)
    ensures var q := PassStep(config, p, d, io);
            q.after + |q.compressed| <= p.after + |p.compressed|
  {
    if d.action == P.Compress { CompressEffect(config, p.state, d.id, d.tokenCost, io); }
  }

  lemma {:induction false} PassShrinks(config: Config, s: State, ds: seq<P.Decision>, n: nat, io: nat -> IO)
    requires config.enabled && Ready(s, ds) && n <= |ds|
    ensures var p := At(config, s, ds, n, io);
            p.after + |p.compressed| <= ActiveTokens(s.items)
  {
    hide PassStep;
    if n > 0 {
      PassShrinks(config, s, ds, n - 1, io);
      PassFacts(config, s, ds, n - 1, io);
      StepShrinks(config, At(config, s, ds, n - 1, io), ds[n - 1], io(n - 1));
    }
  }

  /** A pass whose window writes succeed lowers the active tokens by at least one for every
      item it compresses, and never raises them. */
  lemma OptimizeShrinks(config: Config, s: State, task: string, io: nat -> IO)
    requires config.enabled && Inv(s) && SavesSucceed(io, |s.items|)
    ensures var (t, r) := Optimize(config, s, task, io);
            r.Ok? && ActiveTokens(t.items) + |r.value.compressed| <= ActiveTokens(s.items)
  {
    hide PassStep;
    var ds := Decisions(config, s, task);
    OptimizeIsExact(config, s, task, io);
    DecisionsAreReady(config, s, task);
    PassShrinks(config, s, ds, |ds|, io);
  }

  function AlwaysWell(): nat -> IO { (_: nat) => ALL_WELL }

  /** The state after `k` passes on one task, every file operation succeeding. */
  function Passes(config: Config, s: State, task: string, k: nat): State
    decreases k
  {
    if k == 0 then s else Passes(config, Optimize(config, s, task, AlwaysWell()).0, task, k - 1)
  }

  predicate Fixed(config: Config, s: State, task: string) {
    Optimize(config, s, task, AlwaysWell()).0 == s
  }

  /** One pass comes to rest or lowers the active tokens. */
  lemma SettlesOrShrinks(config: Config, s: State, task: string)
    requires config.enabled && Inv(s)
    ensures var t := Optimize(config, s, task, AlwaysWell()).0;
            Inv(t) && (Fixed(config, t, task) || ActiveTokens(t.items) < ActiveTokens(s.items))
  {
    OptimizeIsExact(config, s, task, AlwaysWell());
    if PassEnd(config, s, task, AlwaysWell()).compressed == [] {
      OptimizeSettles(config, s, task, AlwaysWell(), AlwaysWell());
    } else {
      OptimizeShrinks(config, s, task, AlwaysWell());
    }
  }

  /** Repeated passes on one task come to rest: after at most one pass more than there were
      active tokens a pass changes nothing. */
  lemma {:induction false} PassesConverge(config: Config, s: State, task: string) returns (k: nat)
    requires config.enabled && Inv(s)
    ensures k <= ActiveTokens(s.items) + 1 && Fixed(config, Passes(config, s, task, k), task)
    decreases ActiveTokens(s.items)
  {
    hide Optimize, Inv, Fixed, ActiveTokens;
    var t := Optimize(config, s, task, AlwaysWell()).0;
    SettlesOrShrinks(config, s, task);
    if Fixed(config, t, task) {
      assert Passes(config, t, task, 0) == t;
      k := 1;
    } else {
      k := PassesConverge(config, t, task);
      k := k + 1;
    }
  }
}
