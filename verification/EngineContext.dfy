/**
  Assembling the context of a request (src/context/engine.rs:468-560): select within the
  request's budget, then compress what was kept.
 */
module EngineContext {
  import opened Compressor
  import opened ContextItems
  import opened EngineModel
  import opened EngineRecovery
  import opened EngineRuns
  import opened Scoring
  import opened Selector
  import opened Sorting
  import opened Text
  import opened Tokens
  import opened Wrappers

  datatype Request = Request(task: string, tokenBudget: nat)

  datatype Assembled = Assembled(items: seq<Item>, totalTokens: nat, budget: Budget, rejectedIds: seq<string>)

  /** The score of every item; of items with one id the last counts. */
  function Scores(items: seq<Item>, task: string, usable: nat): map<string, real> {
    if items == [] then map[]
    else
      var x := items[|items| - 1];
      Scores(items[..|items| - 1], task, usable)[x.id := Score(x, task, usable, DEFAULT_WEIGHTS)]
  }

  /** A request can tighten the budget and not loosen it. */
  function RequestBudget(config: Config, request: Request): Budget {
    if request.tokenBudget > 0
    then Budget(Min(UsableInputTokens(config.budget), request.tokenBudget), 0, 0)
    else config.budget
  }

  function Select(config: Config, s: State, request: Request): Outcome {
    Selection(ActiveItems(s.items), Scores(s.items, request.task, UsableInputTokens(config.budget)),
              RequestBudget(config, request), s.protected)
  }

  function Clamp(x: nat, low: nat, high: nat): nat
    requires low <= high
  {
    if x < low then low else if x > high then high else x
  }

  /** How an item of a request that keeps `kept` items is compressed. */
  function AssemblyOptions(request: Request, kept: nat): CompressOptions {
    DEFAULT_OPTIONS.(maxTokens := Clamp(request.tokenBudget / (if kept == 0 then 1 else kept), 32, 4_096))
  }

  function ShortenedBy(x: Item, options: CompressOptions): nat {
    SatSub(Count(x.content), Count(CompressedText(x.content, options)))
  }

  function Shortened(config: Config, x: Item, options: CompressOptions): Item {
    if !config.autoCompress || ShortenedBy(x, options) == 0 then x
    else
      var text := CompressedText(x.content, options);
      x.(content := text, tokenCount := Count(text), metadata := CompressedFrom(Count(x.content)))
  }

  /** The items by id; of items with one id the last counts. */
  function ById(items: seq<Item>): map<string, Item> {
    if items == [] then map[] else ById(items[..|items| - 1])[items[|items| - 1].id := items[|items| - 1]]
  }

  function ItemsFor(config: Config, byId: map<string, Item>, ids: seq<string>, options: CompressOptions): seq<Item> {
    if ids == [] then []
    else
      var before, id := ItemsFor(config, byId, ids[..|ids| - 1], options), ids[|ids| - 1];
      if id in byId then before + [Shortened(config, byId[id], options)] else before
  }

  function GetContext(config: Config, s: State, request: Request): Result<Assembled, Error> {
    if !config.enabled then Err(Disabled)
    else
      var o := Select(config, s, request);
      var items := ItemsFor(config, ById(s.items), o.keptIds, AssemblyOptions(request, |o.keptIds|));
      Ok(Assembled(items, o.keptTokens, config.budget, o.rejectedIds))
  }

  // ---------------------------------------------------------------- what is assembled

  lemma {:induction false} ByIdOf(items: seq<Item>, x: Item)
    requires UniqueIds(items) && x in items
    ensures x.id in ById(items) && ById(items)[x.id] == x
  {
    var last := items[|items| - 1];
    if x != last {
      var i :| 0 <= i < |items| && items[i] == x;
      assert x == items[..|items| - 1][i] && x.id != last.id;
      ByIdOf(items[..|items| - 1], x);
    }
  }

  /** The items of a list, each shortened. */
  function AllShortened(config: Config, xs: seq<Item>, options: CompressOptions): seq<Item> {
    if xs == [] then []
    else AllShortened(config, xs[..|xs| - 1], options) + [Shortened(config, xs[|xs| - 1], options)]
  }

  lemma {:induction false} ItemsForIds(config: Config, items: seq<Item>, xs: seq<Item>, options: CompressOptions)
    requires UniqueIds(items) && forall x :: x in xs ==> x in items
    ensures ItemsFor(config, ById(items), Ids(xs), options) == AllShortened(config, xs, options)
  {
    if xs != [] {
      var before := xs[..|xs| - 1];
      ItemsForIds(config, items, before, options);
      ByIdOf(items, xs[|xs| - 1]);
      assert Ids(xs)[..|xs| - 1] == Ids(before);
    }
  }

  lemma ShortenedCosts(config: Config, x: Item, options: CompressOptions)
    requires ItemOk(x)
    ensures var y := Shortened(config, x, options);
            && y.id == x.id && ItemOk(y)
            && y.tokenCount == x.tokenCount - if config.autoCompress then ShortenedBy(x, options) else 0
  {
  }

  /** What shortening a list saves. */
  function Saved(config: Config, xs: seq<Item>, options: CompressOptions): nat {
    if xs == [] then 0
    else Saved(config, xs[..|xs| - 1], options)
         + if config.autoCompress then ShortenedBy(xs[|xs| - 1], options) else 0
  }

  lemma {:induction false} AllShortenedOk(config: Config, xs: seq<Item>, options: CompressOptions)
    requires AllOk(xs)
    ensures var ys := AllShortened(config, xs, options);
            Ids(ys) == Ids(xs) && AllOk(ys)
  {
    hide Shortened, ItemOk;
    if xs != [] {
      AllShortenedOk(config, xs[..|xs| - 1], options);
      ShortenedCosts(config, xs[|xs| - 1], options);
    }
  }

  lemma {:induction false} AllShortenedCost(config: Config, xs: seq<Item>, options: CompressOptions)
    requires AllOk(xs)
    ensures TotalTokens(AllShortened(config, xs, options)) + Saved(config, xs, options) == TotalTokens(xs)
  {
    if xs != [] {
      var before, x := xs[..|xs| - 1], xs[|xs| - 1];
      assert xs == before + [x];
      AllShortenedCost(config, before, options);
      ShortenedCosts(config, x, options);
      TotalTokensAppend(before, x);
      TotalTokensAppend(AllShortened(config, before, options), Shortened(config, x, options));
    }
  }

  /** The items a selection keeps. */
  function KeptItems(items: seq<Item>, scores: map<string, real>, budget: Budget, protected: set<string>): seq<Item> {
    var always, candidates := Choose(items, protected, true), Candidates(items, scores, protected);
    always + Kept(candidates, |candidates|, TotalTokens(always), UsableInputTokens(budget))
  }

  lemma KeptItemsFacts(items: seq<Item>, scores: map<string, real>, budget: Budget, protected: set<string>)
    ensures var xs, o := KeptItems(items, scores, budget, protected), Selection(items, scores, budget, protected);
            && Ids(xs) == o.keptIds && TotalTokens(xs) == o.keptTokens
            && forall x :: x in xs ==> x in items
  {
    var always, candidates := Choose(items, protected, true), Candidates(items, scores, protected);
    var base, usable := TotalTokens(always), UsableInputTokens(budget);
    var kept := Kept(candidates, |candidates|, base, usable);
    IdsConcat(always, kept);
    TotalTokensConcat(always, kept);
    SortElements(Choose(items, protected, false), CandidateLe(scores));
    forall x | x in always + kept ensures x in items {
      ChooseIn(items, protected, true, x);
      ChooseIn(items, protected, false, x);
      if x in always {
        assert x in multiset(always);
      } else {
        KeptAreCandidates(candidates, |candidates|, base, usable, x);
        assert x in multiset(candidates);
      }
      assert x in multiset(items);
    }
  }

  lemma {:induction false} NothingSaved(config: Config, xs: seq<Item>, options: CompressOptions)
    ensures !config.autoCompress ==> Saved(config, xs, options) == 0
  {
    if xs != [] { NothingSaved(config, xs[..|xs| - 1], options); }
  }

  /** The items a request selects, in the order of the kept ids. */
  function SelectedItems(config: Config, s: State, request: Request): seq<Item> {
    KeptItems(ActiveItems(s.items), Scores(s.items, request.task, UsableInputTokens(config.budget)),
              RequestBudget(config, request), s.protected)
  }

  lemma SelectedItemsFacts(config: Config, s: State, request: Request)
    requires Inv(s)
    ensures var xs, o := SelectedItems(config, s, request), Select(config, s, request);
            && Ids(xs) == o.keptIds && TotalTokens(xs) == o.keptTokens && AllOk(xs)
            && forall x :: x in xs ==> x in s.items && x.state.Active?
  {
    var xs := SelectedItems(config, s, request);
    KeptItemsFacts(ActiveItems(s.items), Scores(s.items, request.task, UsableInputTokens(config.budget)),
                   RequestBudget(config, request), s.protected);
    ActiveItemsFacts(s.items);
    forall i | 0 <= i < |xs| ensures ItemOk(xs[i]) { assert xs[i] in s.items; }
  }

  function OptionsFor(config: Config, s: State, request: Request): CompressOptions {
    AssemblyOptions(request, |Select(config, s, request).keptIds|)
  }

  lemma AssembledItems(config: Config, s: State, request: Request)
    requires Inv(s) && config.enabled
    ensures var r, o := GetContext(config, s, request), Select(config, s, request);
            && r.Ok? && r.value.totalTokens == o.keptTokens && r.value.rejectedIds == o.rejectedIds
            && r.value.items == AllShortened(config, SelectedItems(config, s, request), OptionsFor(config, s, request))
  {
    SelectedItemsFacts(config, s, request);
    ItemsForIds(config, s.items, SelectedItems(config, s, request), OptionsFor(config, s, request));
  }

  /** What is assembled for a request: exactly the kept ids, in order, every token count is
      right, and the items cost what the result reports less what compressing them saved; so
      never more than reported, and exactly that when compression is off. */
  lemma AssembledIsExact(config: Config, s: State, request: Request)
    requires Inv(s) && config.enabled
    ensures var r := GetContext(config, s, request);
            var saved := Saved(config, SelectedItems(config, s, request), OptionsFor(config, s, request));
            && r.Ok? && Ids(r.value.items) == Select(config, s, request).keptIds && AllOk(r.value.items)
            && TotalTokens(r.value.items) + saved == r.value.totalTokens
            && (!config.autoCompress ==> saved == 0)
  {
    var xs, options := SelectedItems(config, s, request), OptionsFor(config, s, request);
    SelectedItemsFacts(config, s, request);
    AssembledItems(config, s, request);
    AllShortenedOk(config, xs, options);
    AllShortenedCost(config, xs, options);
    NothingSaved(config, xs, options);
  }

  /** The reported total is within the configured budget and the request's, or is what the
      protected active items cost. */
  lemma AssembledFits(config: Config, s: State, request: Request)
    requires config.enabled
    ensures var r := GetContext(config, s, request);
            var always := TotalTokens(Choose(ActiveItems(s.items), s.protected, true));
            && r.Ok?
            && r.value.totalTokens <= Max(UsableInputTokens(config.budget), always)
            && (request.tokenBudget > 0 ==> r.value.totalTokens <= Max(request.tokenBudget, always))
  {
    SelectionFits(ActiveItems(s.items), Scores(s.items, request.task, UsableInputTokens(config.budget)),
                  RequestBudget(config, request), s.protected);
  }

  // ---------------------------------------------------------------- which items a request gets

  lemma {:induction false} ScoresAt(items: seq<Item>, task: string, usable: nat, x: Item)
    requires UniqueIds(items) && x in items
    ensures ScoreOf(Scores(items, task, usable), x.id) == Score(x, task, usable, DEFAULT_WEIGHTS)
  {
    var last := items[|items| - 1];
    if x != last {
      var i :| 0 <= i < |items| && items[i] == x;
      assert x == items[..|items| - 1][i] && x.id != last.id;
      ScoresAt(items[..|items| - 1], task, usable, x);
    }
  }

  /** An item scores better than another for a request, or the same and has the smaller id. */
  predicate Better(config: Config, request: Request, x: Item, y: Item) {
    var usable := UsableInputTokens(config.budget);
    var v, w := Score(x, request.task, usable, DEFAULT_WEIGHTS), Score(y, request.task, usable, DEFAULT_WEIGHTS);
    v > w || (v == w && x.id != y.id && StringLe(x.id, y.id))
  }

  /** A request passes an item over for a worse unprotected one only when it is the larger. */
  lemma RequestPrefersBetterScores(config: Config, s: State, request: Request, x: Item, y: Item)
    requires Inv(s) && config.enabled
    requires x in s.items && x.state.Active? && y in s.items && y.state.Active? && y.id !in s.protected
    requires var r := GetContext(config, s, request);
             r.Ok? && x.id in r.value.rejectedIds && y.id in Ids(r.value.items)
    requires Better(config, request, x, y)
    ensures y.tokenCount < x.tokenCount
  {
    var usable := UsableInputTokens(config.budget);
    var scores, active := Scores(s.items, request.task, usable), ActiveItems(s.items);
    AssembledItems(config, s, request);
    AssembledIsExact(config, s, request);
    ScoresAt(s.items, request.task, usable, x);
    ScoresAt(s.items, request.task, usable, y);
    ActiveItemsOk(s.items);
    ActiveItemsFacts(s.items);
    BetterScoresFirst(active, scores, RequestBudget(config, request), s.protected, x, y);
  }

  /** What a request gets at most: the engine's usable tokens, or fewer when it names fewer. */
  function Allowance(config: Config, request: Request): nat {
    var usable := UsableInputTokens(config.budget);
    if 0 < request.tokenBudget < usable then request.tokenBudget else usable
  }

  /** And nothing is passed over without need: an item that is rejected does not fit into
      what is left of the allowance. */
  lemma RequestIsFilled(config: Config, s: State, request: Request, x: Item)
    requires Inv(s) && config.enabled && x in s.items && x.state.Active?
    requires var r := GetContext(config, s, request); r.Ok? && x.id in r.value.rejectedIds
    ensures GetContext(config, s, request).value.totalTokens + x.tokenCount > Allowance(config, request)
  {
    var scores, active := Scores(s.items, request.task, UsableInputTokens(config.budget)), ActiveItems(s.items);
    var budget := RequestBudget(config, request);
    assert UsableInputTokens(budget) == Allowance(config, request);
    ActiveItemsOk(s.items);
    ActiveItemsFacts(s.items);
    RejectedIsUnprotected(active, scores, budget, s.protected, x);
    var i := PlaceOf(active, scores, budget, s.protected, x);
    RejectedCannotBeAdded(Candidates(active, scores, s.protected), TotalTokens(Choose(active, s.protected, true)),
                          UsableInputTokens(budget), i);
  }

  /** Every active item is given or rejected, and every protected one is given. */
  lemma RequestCoversActive(config: Config, s: State, request: Request, x: Item)
    requires Inv(s) && config.enabled && x in s.items && x.state.Active?
    ensures var r := GetContext(config, s, request);
            && r.Ok? && (x.id in Ids(r.value.items) <==> x.id !in r.value.rejectedIds)
            && (x.id in s.protected ==> x.id in Ids(r.value.items))
  {
    var scores, active := Scores(s.items, request.task, UsableInputTokens(config.budget)), ActiveItems(s.items);
    AssembledItems(config, s, request);
    AssembledIsExact(config, s, request);
    ActiveItemsOk(s.items);
    ActiveItemsFacts(s.items);
    IdsOnce(active, scores, RequestBudget(config, request), s.protected, x);
    OutcomeIsGreedy(active, scores, RequestBudget(config, request), s.protected, x);
  }

  /** An item's share of the requested tokens is what it is compressed to, within 32 and
      4096, with every stage on. */
  lemma AssemblyShares(request: Request, kept: nat)
    requires kept > 0
    ensures var o := AssemblyOptions(request, kept);
            && o.dedupLines && o.structural && o.truncate && 32 <= o.maxTokens <= 4_096
            && (o.maxTokens > 32 ==> o.maxTokens * kept <= request.tokenBudget)
            && (o.maxTokens < 4_096 ==> request.tokenBudget < (o.maxTokens + 1) * kept)
  {
    var share := request.tokenBudget / kept;
    assert share * kept <= request.tokenBudget < (share + 1) * kept;
    if share > 4_096 {
      Grows(4_096, share, kept);
    } else if share < 32 {
      Grows(share + 1, 33, kept);
    }
  }

  lemma Grows(a: nat, b: nat, k: nat)
    requires a <= b
    ensures a * k <= b * k
  {
  }
}
