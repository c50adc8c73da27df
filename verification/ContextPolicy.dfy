/** The deterministic decision policy (src/context/policy.rs). */
module ContextPolicy {
  import opened ContextItems
  import opened Scoring
  import opened Sorting
  import opened Text

  datatype Action = Keep | Offload | Restore | Compress | Archive | Ignore

  datatype Decision = Decision(id: string, action: Action, score: real, tokenCost: nat, priority: real)

  const KEEP_THRESHOLD := 0.45
  const OFFLOAD_THRESHOLD := 0.15
  const CHEAP_TOKEN_LIMIT := 512

  function ItemScore(item: Item, task: string, budget: Budget): real {
    Score(item, task, UsableInputTokens(budget), DEFAULT_WEIGHTS)
  }

  /** Score descending, then id ascending. */
  predicate RanksBefore(a: Item, b: Item, task: string, budget: Budget) {
    var x, y := ItemScore(a, task, budget), ItemScore(b, task, budget);
    x > y || (x == y && StringLe(a.id, b.id))
  }

  function RankLe(task: string, budget: Budget): (Item, Item) -> bool {
    (a: Item, b: Item) => RanksBefore(a, b, task, budget)
  }

  function ActionFor(item: Item, score: real, protected: set<string>): Action {
    if item.id in protected then Keep
    else if !item.state.Active? then Keep
    else if score >= KEEP_THRESHOLD then Keep
    else if score < OFFLOAD_THRESHOLD then Offload
    else if item.tokenCount > CHEAP_TOKEN_LIMIT then Compress
    else Archive
  }

  function DecisionFor(item: Item, task: string, budget: Budget, protected: set<string>): Decision {
    var score := ItemScore(item, task, budget);
    Decision(item.id, ActionFor(item, score, protected), score, item.tokenCount, item.priority)
  }

  function DecisionsFor(ranked: seq<Item>, task: string, budget: Budget, protected: set<string>): (ds: seq<Decision>)
    ensures |ds| == |ranked|
    ensures forall i :: 0 <= i < |ds| ==> ds[i] == DecisionFor(ranked[i], task, budget, protected)
  {
    seq(|ranked|, i requires 0 <= i < |ranked| => DecisionFor(ranked[i], task, budget, protected))
  }

  function Ranked(items: seq<Item>, task: string, budget: Budget): seq<Item> {
    Sort(items, RankLe(task, budget))
  }

  function Decide(items: seq<Item>, task: string, budget: Budget, protected: set<string>): seq<Decision> {
    DecisionsFor(Ranked(items, task, budget), task, budget, protected)
  }

  lemma RankLeIsAPreorder(items: seq<Item>, task: string, budget: Budget)
    ensures Preorder(multiset(items), RankLe(task, budget))
    ensures UniqueIds(items) ==> Antisymmetric(multiset(items), RankLe(task, budget))
  {
    var le := RankLe(task, budget);
    forall x, y | x in multiset(items) && y in multiset(items) ensures le(x, y) || le(y, x) {
      StringLeTotal(x.id, y.id);
    }
    forall x, y, z | x in multiset(items) && y in multiset(items) && z in multiset(items) && le(x, y) && le(y, z)
      ensures le(x, z)
    {
      if ItemScore(x, task, budget) == ItemScore(y, task, budget) == ItemScore(z, task, budget) {
        StringLeTransitive(x.id, y.id, z.id);
      }
    }
    if UniqueIds(items) {
      forall x, y | x in multiset(items) && y in multiset(items) && le(x, y) && le(y, x) ensures x == y {
        StringLeTotal(x.id, y.id);
        assert x in items && y in items;
      }
    }
  }

  /** Every item gets exactly one decision, best score first, and the decisions do not
      depend on the order of the items. */
  lemma DecisionsCoverItems(items: seq<Item>, others: seq<Item>, task: string, budget: Budget, protected: set<string>)
    requires UniqueIds(items) && multiset(items) == multiset(others)
    ensures multiset(Ranked(items, task, budget)) == multiset(items)
    ensures Sorted(Ranked(items, task, budget), RankLe(task, budget))
    ensures Decide(items, task, budget, protected) == Decide(others, task, budget, protected)
  {
    var le := RankLe(task, budget);
    UniqueIdsPermutation(items, others);
    RankLeIsAPreorder(items, task, budget);
    RankLeIsAPreorder(others, task, budget);
    SortElements(items, le);
    SortElements(others, le);
    SortIsSorted(items, le);
    SortIsSorted(others, le);
    SortedIsUnique(Sort(items, le), Sort(others, le), le);
  }

  /** An item that was just seen scores at least the offload threshold, so the default
      policy never offloads it. */
  lemma FreshItemsAreNotOffloaded(item: Item, task: string, budget: Budget, protected: set<string>)
    requires item.recency >= 1.0
    ensures DecisionFor(item, task, budget, protected).action != Offload
  {
    RawScoreIsAScore(item, task, UsableInputTokens(budget), DEFAULT_WEIGHTS);
  }

  /** It may still be archived. */
  lemma FreshItemsMayBeArchived() returns (item: Item)
    ensures item.recency == 1.0 && item.state == Active
    ensures DecisionFor(item, "", Budget(1, 0, 0), {}).action == Archive
  {
    item := Item("i", Tool, "", 0, 0.0, 0.0, 1.0, Active, Project, Caller(""));
    assert TaskAlignment("", "") == 0.0 by {
      assert WordSet("") == {} by { assert Words(Lower("")) == []; }
    }
    LeastFreshScore(item);
  }

  lemma LeastFreshScore(item: Item)
    requires item.relevance == item.priority == 0.0 && item.recency == 1.0
    requires item.tokenCount == 0 && TaskAlignment(item.content, "") == 0.0
    ensures Score(item, "", 1, DEFAULT_WEIGHTS) == 0.25
  {
    assert Cost(0, 1) == 0.0;
    assert Weigh(0.35, 0.0) == Weigh(0.25, 0.0) == Weigh(0.15, 0.0) == 0.0;
    assert Weigh(0.15, 1.0) == 0.15 && Weigh(0.10, 1.0) == 0.10;
  }
}
