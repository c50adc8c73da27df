/**
  Which items the optimisation pass keeps and what becomes of the others, by their scores
  (src/context/policy.rs:100-180 under src/context/engine.rs:568-649).
 */
module EngineDecisions {
  import opened ContextItems
  import opened EngineModel
  import opened EnginePass
  import opened Scoring
  import opened Sorting
  import opened Text
  import opened Wrappers
  import P = ContextPolicy

  /** The score the policy gives an item. */
  function Worth(config: Config, task: string, x: Item): real {
    Score(x, task, UsableInputTokens(config.budget), DEFAULT_WEIGHTS)
  }

  /** Better score first, then the smaller id. */
  predicate Outranks(config: Config, task: string, y: Item, x: Item) {
    || Worth(config, task, y) > Worth(config, task, x)
    || (Worth(config, task, y) == Worth(config, task, x) && y.id != x.id && StringLe(y.id, x.id))
  }

  /** How many items are dealt with before this one. */
  function Rank(config: Config, s: State, task: string, x: Item): nat {
    |set y | y in s.items && Outranks(config, task, y, x)|
  }

  function Elements(items: seq<Item>): set<Item> { set y | y in items }

  lemma {:induction false} ElementsOf(items: seq<Item>, n: nat)
    requires UniqueIds(items) && n <= |items|
    ensures |Elements(items[..n])| == n
  {
    if n > 0 {
      ElementsOf(items, n - 1);
      var before, x := Elements(items[..n - 1]), items[n - 1];
      assert items[..n] == items[..n - 1] + [x];
      assert Elements(items[..n]) == before + {x};
      forall y | y in items[..n - 1] ensures y.id != x.id { }
      assert x !in before;
    }
  }

  /** The decision on an item comes after those on exactly the items that outrank it. */
  lemma DecidedAtRank(config: Config, s: State, task: string, x: Item)
    requires Inv(s) && x in s.items
    ensures var ds, i := Decisions(config, s, task), Rank(config, s, task, x);
            i < |ds| && |ds| == |s.items| && ds[i] == P.DecisionFor(x, task, config.budget, s.protected)
  {
    var ranked, le := RankedItems(config, s, task), P.RankLe(task, config.budget);
    RankedFacts(config, s, task);
    SortElements(s.items, le);
    P.RankLeIsAPreorder(s.items, task, config.budget);
    SortIsSorted(s.items, le);
    assert x in multiset(ranked);
    var i :| 0 <= i < |ranked| && ranked[i] == x;
    assert (set y | y in s.items && Outranks(config, task, y, x)) == Elements(ranked[..i]) by {
      OutrankersComeFirst(config, s, task, ranked, i);
    }
    ElementsOf(ranked, i);
  }

  lemma OutrankersComeFirst(config: Config, s: State, task: string, ranked: seq<Item>, i: nat)
    requires multiset(ranked) == multiset(s.items) && UniqueIds(ranked) && i < |ranked|
    requires Sorted(ranked, P.RankLe(task, config.budget))
    ensures (set y | y in s.items && Outranks(config, task, y, ranked[i])) == Elements(ranked[..i])
  {
    var x, le := ranked[i], P.RankLe(task, config.budget);
    forall y ensures y in s.items && Outranks(config, task, y, x) <==> y in ranked[..i] {
      assert y in s.items <==> y in multiset(s.items);
      assert y in ranked <==> y in multiset(ranked);
      if y in s.items && Outranks(config, task, y, x) {
        var j :| 0 <= j < |ranked| && ranked[j] == y;
        if i <= j {
          assert i < j ==> le(ranked[i], ranked[j]);
          StringLeTotal(x.id, y.id);
        }
      }
      if y in ranked[..i] {
        var j :| 0 <= j < i && ranked[j] == y;
        assert le(ranked[j], ranked[i]);
      }
    }
  }

  /** What the pass did about an item, from the decision at its rank. */
  lemma FateAtRank(config: Config, s: State, task: string, io: nat -> IO, x: Item)
    requires config.enabled && Inv(s) && x in s.items
    ensures var ds, i, end := Decisions(config, s, task), Rank(config, s, task, x), PassEnd(config, s, task, io);
            && i < |ds| && ds[i] == P.DecisionFor(x, task, config.budget, s.protected)
            && Inv(At(config, s, ds, i, io).state) && Find(At(config, s, ds, i, io).state.items, x.id) == Some(x)
            && At(config, s, ds, i, io).state.protected == s.protected
            && var did := DoneAt(config, s, ds, i, io);
               && Find(end.state.items, x.id) == Some(if io(i).save then Became(x, did) else x)
               && (x.id in end.kept <==> did == WasKept) && (x.id in end.offloaded <==> did == WasOffloaded)
               && (x.id in end.compressed <==> did == WasCompressed) && (x.id in end.archived <==> did == WasArchived)
  {
    var ds, i := Decisions(config, s, task), Rank(config, s, task, x);
    DecisionsAreReady(config, s, task);
    DecidedAtRank(config, s, task, x);
    FindOf(s.items, x);
    StandsAfter(config, s, ds, i, |ds|, io);
    PassFacts(config, s, ds, i, io);
    assert Find(At(config, s, ds, i, io).state.items, x.id) == Find(s.items, x.id);
  }

  lemma ArchiveIsDone(config: Config, s: State, d: P.Decision, io: IO)
    requires config.enabled && Inv(s) && d.action == P.Archive && Actionable(s, d.id, d.tokenCost)
    ensures Done(config, s, d, io) == WasArchived
  {
    ArchiveEffect(config, s, d.id, d.tokenCost, io);
  }

  lemma CompressIsDone(config: Config, s: State, d: P.Decision, io: IO)
    requires config.enabled && Inv(s) && d.action == P.Compress && Actionable(s, d.id, d.tokenCost)
    ensures Done(config, s, d, io) ==
            if config.autoCompress && Savings(Find(s.items, d.id).value.content) > 0 then WasCompressed else WasKept
  {
    CompressEffect(config, s, d.id, d.tokenCost, io);
  }

  lemma OffloadIsDone(config: Config, s: State, d: P.Decision, io: IO)
    requires config.enabled && Inv(s) && d.action == P.Offload && Actionable(s, d.id, d.tokenCost)
    ensures Done(config, s, d, io) ==
            if config.autoOffload && io.put && (|s.offloads| < MAX_OFFLOADS || d.id in s.offloads)
            then WasOffloaded else WasKept
  {
    FoundIsOk(s, d.id);
    OffloadEffect(config, s, d.id, d.tokenCost, io);
  }

  /** The records at the end, against those at an item's turn: none is lost, and if the item
      was kept its own is there or not as before. */
  lemma RecordsAfter(config: Config, s: State, task: string, io: nat -> IO, x: Item)
    requires config.enabled && Inv(s) && x in s.items
    ensures var ds, i, end := Decisions(config, s, task), Rank(config, s, task, x), PassEnd(config, s, task, io);
            && i < |ds|
            && (DoneAt(config, s, ds, i, io) == WasKept ==>
                  && |At(config, s, ds, i, io).state.offloads| <= |end.state.offloads|
                  && (x.id in end.state.offloads <==> x.id in At(config, s, ds, i, io).state.offloads))
  {
    FateAtRank(config, s, task, io, x);
    var ds, i := Decisions(config, s, task), Rank(config, s, task, x);
    DecisionsAreReady(config, s, task);
    PassFacts(config, s, ds, i, io);
    PassStepFacts(config, At(config, s, ds, i, io), ds[i], io(i));
    RecordsGrow(config, s, ds, i, |ds|, io);
    if DoneAt(config, s, ds, i, io) == WasKept {
      FewerKeys(At(config, s, ds, i, io).state.offloads, PassEnd(config, s, task, io).state.offloads);
    }
  }

  /** An active item that nothing protects. */
  predicate Open(s: State, x: Item) { x in s.items && x.state.Active? && x.id !in s.protected }

  /** Items that are protected or not active are kept as they are, whatever their score. */
  lemma OthersAreKept(config: Config, s: State, task: string, io: nat -> IO, x: Item)
    requires config.enabled && Inv(s) && x in s.items && !Open(s, x)
    ensures var (t, r) := Optimize(config, s, task, io);
            r.Ok? && x.id in r.value.kept && Find(t.items, x.id) == Some(x)
  {
    FateAtRank(config, s, task, io, x);
  }

  /** Items of a score from 0.45 on are kept as they are. */
  lemma GoodItemsAreKept(config: Config, s: State, task: string, io: nat -> IO, x: Item)
    requires config.enabled && Inv(s) && Open(s, x) && Worth(config, task, x) >= 0.45
    ensures var (t, r) := Optimize(config, s, task, io);
            r.Ok? && x.id in r.value.kept && Find(t.items, x.id) == Some(x)
  {
    FateAtRank(config, s, task, io, x);
  }

  /** Cheap items of a middling score are archived. */
  lemma CheapItemsAreArchived(config: Config, s: State, task: string, io: nat -> IO, x: Item)
    requires config.enabled && Inv(s) && Open(s, x)
    requires 0.15 <= Worth(config, task, x) < 0.45 && x.tokenCount <= 512
    ensures var (t, r) := Optimize(config, s, task, io);
            && r.Ok? && x.id in r.value.archived
            && Find(t.items, x.id) ==
               Some(if io(Rank(config, s, task, x)).save then x.(state := Archived) else x)
  {
    FateAtRank(config, s, task, io, x);
    var i, ds := Rank(config, s, task, x), Decisions(config, s, task);
    hide PassOver, Done;
    ArchiveIsDone(config, At(config, s, ds, i, io).state, ds[i], io(i));
  }

  /** Long items of a middling score are compressed exactly when that is allowed and saves
      tokens, and kept as they are otherwise. */
  lemma LongItemsAreCompressed(config: Config, s: State, task: string, io: nat -> IO, x: Item)
    requires config.enabled && Inv(s) && Open(s, x)
    requires 0.15 <= Worth(config, task, x) < 0.45 && x.tokenCount > 512
    ensures var (t, r) := Optimize(config, s, task, io);
            var shrinks := config.autoCompress && Savings(x.content) > 0;
            && r.Ok? && (x.id in r.value.compressed <==> shrinks) && (x.id in r.value.kept <==> !shrinks)
            && Find(t.items, x.id) ==
               Some(if shrinks && io(Rank(config, s, task, x)).save then Squeezed(x) else x)
  {
    FateAtRank(config, s, task, io, x);
    var i, ds := Rank(config, s, task, x), Decisions(config, s, task);
    hide PassOver, Done;
    CompressIsDone(config, At(config, s, ds, i, io).state, ds[i], io(i));
  }

  /** Items of a score below 0.15 are offloaded exactly when that is allowed and their record
      can be written, and kept as they are otherwise. The record write is the one at the
      item's rank; when it works, the item is kept only because the store had no room, and
      then the store is full at the end and has no record of the item. */
  lemma PoorItemsAreOffloaded(config: Config, s: State, task: string, io: nat -> IO, x: Item)
    requires config.enabled && Inv(s) && Open(s, x) && Worth(config, task, x) < 0.15
    ensures var (t, r) := Optimize(config, s, task, io);
            var write := io(Rank(config, s, task, x));
            && r.Ok? && (x.id in r.value.offloaded <==> x.id !in r.value.kept)
            && (x.id in r.value.offloaded <==>
                  config.autoOffload && write.put && (|t.offloads| < MAX_OFFLOADS || x.id in t.offloads))
            && (x.id in r.value.offloaded ==> x.id in t.offloads && t.offloads[x.id] == x.(state := Offloaded))
            && Find(t.items, x.id) ==
               Some(if x.id in r.value.offloaded && write.save then x.(state := Offloaded) else x)
  {
    FateAtRank(config, s, task, io, x);
    ItemFate(config, s, task, io, x);
    RecordsAfter(config, s, task, io, x);
    var i, ds := Rank(config, s, task, x), Decisions(config, s, task);
    hide PassOver, Done;
    OffloadIsDone(config, At(config, s, ds, i, io).state, ds[i], io(i));
  }
}
