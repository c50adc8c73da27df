/** Budget-constrained greedy selection (src/context/selector.rs). */
module Selector {
  import opened ContextItems
  import opened Sorting
  import opened Text
  import opened Wrappers

  datatype Outcome = Outcome(keptIds: seq<string>, rejectedIds: seq<string>, keptTokens: nat, usableTokens: nat)

  function ScoreOf(scores: map<string, real>, id: string): real {
    if id in scores then scores[id] else 0.0
  }

  /** Score descending, then id ascending. */
  function CandidateLe(scores: map<string, real>): (Item, Item) -> bool {
    (a: Item, b: Item) =>
      ScoreOf(scores, a.id) > ScoreOf(scores, b.id)
      || (ScoreOf(scores, a.id) == ScoreOf(scores, b.id) && StringLe(a.id, b.id))
  }

  /** The order of the bit patterns of two floats: numbers below zero come last, reversed. */
  predicate BitsLe(x: real, y: real) {
    if x >= 0.0 then y < 0.0 || x <= y else y < 0.0 && x >= y
  }

  function RejectedLe(scores: map<string, real>): (string, string) -> bool {
    (a: string, b: string) => BitsLe(ScoreOf(scores, a), ScoreOf(scores, b))
  }

  function Choose(items: seq<Item>, protected: set<string>, wanted: bool): seq<Item> {
    if items == [] then []
    else (if (items[0].id in protected) == wanted then [items[0]] else []) + Choose(items[1..], protected, wanted)
  }

  function Candidates(items: seq<Item>, scores: map<string, real>, protected: set<string>): seq<Item> {
    Sort(Choose(items, protected, false), CandidateLe(scores))
  }

  /** The candidates kept among the first `n` when `base` tokens are already in use. */
  function Kept(candidates: seq<Item>, n: nat, base: nat, usable: nat): seq<Item>
    requires n <= |candidates|
  {
    if n == 0 then []
    else
      var before := Kept(candidates, n - 1, base, usable);
      if base + TotalTokens(before) + candidates[n - 1].tokenCount <= usable
      then before + [candidates[n - 1]] else before
  }

  function Rejected(candidates: seq<Item>, n: nat, base: nat, usable: nat): seq<Item>
    requires n <= |candidates|
  {
    if n == 0 then []
    else
      var before := Kept(candidates, n - 1, base, usable);
      if base + TotalTokens(before) + candidates[n - 1].tokenCount <= usable
      then Rejected(candidates, n - 1, base, usable)
      else Rejected(candidates, n - 1, base, usable) + [candidates[n - 1]]
  }

  function Packed(always: seq<Item>, candidates: seq<Item>, scores: map<string, real>, usable: nat): Outcome {
    var base := TotalTokens(always);
    var kept := Kept(candidates, |candidates|, base, usable);
    Outcome(Ids(always) + Ids(kept),
            Sort(Ids(Rejected(candidates, |candidates|, base, usable)), RejectedLe(scores)),
            base + TotalTokens(kept), usable)
  }

  function Selection(items: seq<Item>, scores: map<string, real>, budget: Budget, protected: set<string>): Outcome {
    Packed(Choose(items, protected, true), Candidates(items, scores, protected), scores, UsableInputTokens(budget))
  }

  lemma {:induction false} ChooseAppend(items: seq<Item>, x: Item, protected: set<string>, wanted: bool)
    ensures Choose(items + [x], protected, wanted) ==
            if (x.id in protected) == wanted then Choose(items, protected, wanted) + [x]
            else Choose(items, protected, wanted)
  {
    if items == [] {
      assert [] + [x] == [x] && [x][1..] == [];
    } else {
      ChooseAppend(items[1..], x, protected, wanted);
      assert (items + [x])[1..] == items[1..] + [x] && (items + [x])[0] == items[0];
      var first := if (items[0].id in protected) == wanted then [items[0]] else [];
      var rest := Choose(items[1..], protected, wanted);
      assert first + (rest + [x]) == (first + rest) + [x];
    }
  }

  method SelectWithinBudget(items: seq<Item>, scores: map<string, real>, budget: Budget, protected: set<string>)
    returns (outcome: Outcome)
    ensures outcome == Selection(items, scores, budget, protected)
  {
    var usable := UsableInputTokens(budget);
    var keptIds, base := KeepProtected(items, protected);
    var candidates := Candidates(items, scores, protected);
    var packedIds, rejectedIds, packed := PackCandidates(candidates, base, usable);
    rejectedIds := Sort(rejectedIds, RejectedLe(scores));
    outcome := Outcome(keptIds + packedIds, rejectedIds, base + packed, usable);
  }

  /** First loop: protected items, in the given order and whatever they cost. */
  method KeepProtected(items: seq<Item>, protected: set<string>) returns (keptIds: seq<string>, tokens: nat)
    ensures keptIds == Ids(Choose(items, protected, true))
    ensures tokens == TotalTokens(Choose(items, protected, true))
  {
    keptIds, tokens := [], 0;
    for i := 0 to |items|
      invariant keptIds == Ids(Choose(items[..i], protected, true))
      invariant tokens == TotalTokens(Choose(items[..i], protected, true))
    {
      assert items[..i + 1] == items[..i] + [items[i]];
      ChooseAppend(items[..i], items[i], protected, true);
      TotalTokensAppend(Choose(items[..i], protected, true), items[i]);
      if items[i].id in protected {
        keptIds := keptIds + [items[i].id];
        tokens := tokens + items[i].tokenCount;
      }
    }
    assert items[..|items|] == items;
  }

  /** Second loop: the ranked candidates, each kept if it still fits. */
  method PackCandidates(candidates: seq<Item>, base: nat, usable: nat)
    returns (keptIds: seq<string>, rejectedIds: seq<string>, tokens: nat)
    ensures keptIds == Ids(Kept(candidates, |candidates|, base, usable))
    ensures rejectedIds == Ids(Rejected(candidates, |candidates|, base, usable))
    ensures tokens == TotalTokens(Kept(candidates, |candidates|, base, usable))
  {
    keptIds, rejectedIds, tokens := [], [], 0;
    for i := 0 to |candidates|
      invariant keptIds == Ids(Kept(candidates, i, base, usable))
      invariant rejectedIds == Ids(Rejected(candidates, i, base, usable))
      invariant tokens == TotalTokens(Kept(candidates, i, base, usable))
    {
      TotalTokensAppend(Kept(candidates, i, base, usable), candidates[i]);
      if base + tokens + candidates[i].tokenCount <= usable {
        keptIds := keptIds + [candidates[i].id];
        tokens := tokens + candidates[i].tokenCount;
      } else {
        rejectedIds := rejectedIds + [candidates[i].id];
      }
    }
  }

  // ---------------------------------------------------------------- what is selected

  lemma {:induction false} ChoosePartitions(items: seq<Item>, protected: set<string>)
    ensures multiset(Choose(items, protected, true)) + multiset(Choose(items, protected, false)) == multiset(items)
  {
    if items != [] {
      ChoosePartitions(items[1..], protected);
      assert items == [items[0]] + items[1..];
    }
  }

  lemma {:induction false} KeptOrRejected(candidates: seq<Item>, n: nat, base: nat, usable: nat)
    requires n <= |candidates|
    ensures multiset(Kept(candidates, n, base, usable)) + multiset(Rejected(candidates, n, base, usable))
         == multiset(candidates[..n])
  {
    if n > 0 {
      KeptOrRejected(candidates, n - 1, base, usable);
      PrefixElements(candidates, n);
    }
  }

  lemma PrefixElements(candidates: seq<Item>, n: nat)
    requires 0 < n <= |candidates|
    ensures multiset(candidates[..n]) == multiset(candidates[..n - 1]) + multiset{candidates[n - 1]}
  {
    assert candidates[..n] == candidates[..n - 1] + [candidates[n - 1]];
  }

  /** Kept and rejected ids together are the ids of the items, each as often as it occurs. */
  lemma SelectionPartitions(items: seq<Item>, scores: map<string, real>, budget: Budget, protected: set<string>)
    ensures var o := Selection(items, scores, budget, protected);
            multiset(o.keptIds) + multiset(o.rejectedIds) == multiset(Ids(items))
  {
    var always, others := Choose(items, protected, true), Choose(items, protected, false);
    var candidates := Candidates(items, scores, protected);
    var usable, base := UsableInputTokens(budget), TotalTokens(always);
    var kept := Kept(candidates, |candidates|, base, usable);
    var rejected := Rejected(candidates, |candidates|, base, usable);
    ChoosePartitions(items, protected);
    SortElements(others, CandidateLe(scores));
    KeptOrRejected(candidates, |candidates|, base, usable);
    assert candidates[..|candidates|] == candidates;
    SortElements(Ids(rejected), RejectedLe(scores));
    Permutation(always + (kept + rejected), items);
    IdsConcat(always, kept + rejected);
    IdsConcat(kept, rejected);
  }

  lemma {:induction false} KeptFits(candidates: seq<Item>, n: nat, base: nat, usable: nat)
    requires n <= |candidates|
    ensures var kept := Kept(candidates, n, base, usable);
            kept != [] ==> base + TotalTokens(kept) <= usable
  {
    if n > 0 {
      KeptFits(candidates, n - 1, base, usable);
      TotalTokensAppend(Kept(candidates, n - 1, base, usable), candidates[n - 1]);
    }
  }

  /** The selection overflows the usable budget only by what protected items cost. */
  lemma SelectionFits(items: seq<Item>, scores: map<string, real>, budget: Budget, protected: set<string>)
    ensures Selection(items, scores, budget, protected).keptTokens
         <= Max(UsableInputTokens(budget), TotalTokens(Choose(items, protected, true)))
  {
    var candidates := Candidates(items, scores, protected);
    KeptFits(candidates, |candidates|, TotalTokens(Choose(items, protected, true)), UsableInputTokens(budget));
  }

  lemma {:induction false} KeptGrows(candidates: seq<Item>, m: nat, n: nat, base: nat, usable: nat)
    requires m <= n <= |candidates|
    ensures TotalTokens(Kept(candidates, m, base, usable)) <= TotalTokens(Kept(candidates, n, base, usable))
    ensures forall x :: x in Kept(candidates, m, base, usable) ==> x in Kept(candidates, n, base, usable)
  {
    if m < n {
      KeptGrows(candidates, m, n - 1, base, usable);
      TotalTokensAppend(Kept(candidates, n - 1, base, usable), candidates[n - 1]);
    }
  }

  lemma {:induction false} KeptAreCandidates(candidates: seq<Item>, n: nat, base: nat, usable: nat, x: Item)
    requires n <= |candidates| && x in Kept(candidates, n, base, usable)
    ensures exists i :: 0 <= i < n && candidates[i] == x
                        && base + TotalTokens(Kept(candidates, i, base, usable)) + x.tokenCount <= usable
  {
    var before := Kept(candidates, n - 1, base, usable);
    if x in before { KeptAreCandidates(candidates, n - 1, base, usable, x); }
  }

  predicate FitsOnTop(candidates: seq<Item>, i: nat, base: nat, usable: nat)
    requires i < |candidates|
  {
    base + TotalTokens(Kept(candidates, i, base, usable)) + candidates[i].tokenCount <= usable
  }

  /** A candidate is kept exactly when it fits on top of the candidates kept before it. */
  lemma KeptIffItFits(candidates: seq<Item>, base: nat, usable: nat, i: nat)
    requires UniqueIds(candidates) && i < |candidates|
    ensures candidates[i] in Kept(candidates, |candidates|, base, usable) <==> FitsOnTop(candidates, i, base, usable)
  {
    var x, n := candidates[i], |candidates|;
    if FitsOnTop(candidates, i, base, usable) {
      assert x in Kept(candidates, i + 1, base, usable);
      KeptGrows(candidates, i + 1, n, base, usable);
    }
    if x in Kept(candidates, n, base, usable) {
      KeptAreCandidates(candidates, n, base, usable, x);
      var j :| 0 <= j < n && candidates[j] == x
               && base + TotalTokens(Kept(candidates, j, base, usable)) + x.tokenCount <= usable;
      assert j == i;
    }
  }

  /** What is rejected would not fit at the end either. */
  lemma RejectedCannotBeAdded(candidates: seq<Item>, base: nat, usable: nat, i: nat)
    requires i < |candidates| && !FitsOnTop(candidates, i, base, usable)
    ensures base + TotalTokens(Kept(candidates, |candidates|, base, usable)) + candidates[i].tokenCount > usable
  {
    KeptGrows(candidates, i, |candidates|, base, usable);
  }

  /** In terms of the outcome: with unique ids every protected id is kept, and any other id is
      kept or rejected as its item fits or does not fit on top of the ones ranked before it. */
  lemma OutcomeIsGreedy(items: seq<Item>, scores: map<string, real>, budget: Budget, protected: set<string>, x: Item)
    requires UniqueIds(items) && x in items
    ensures var o, candidates := Selection(items, scores, budget, protected), Candidates(items, scores, protected);
            var base, usable := TotalTokens(Choose(items, protected, true)), UsableInputTokens(budget);
            && (x.id in protected ==> x.id in o.keptIds)
            && (x.id !in protected ==>
                  exists i :: 0 <= i < |candidates| && candidates[i] == x
                              && (x.id in o.keptIds <==> FitsOnTop(candidates, i, base, usable))
                              && (x.id in o.rejectedIds <==> !FitsOnTop(candidates, i, base, usable)))
  {
    var candidates := Candidates(items, scores, protected);
    var always, others := Choose(items, protected, true), Choose(items, protected, false);
    var base, usable := TotalTokens(always), UsableInputTokens(budget);
    ChooseIn(items, protected, true, x);
    ChooseIn(items, protected, false, x);
    assert x in multiset(items);
    if x.id in protected {
      assert x in multiset(always);
      IdOfItem(always, x);
    } else {
      SortElements(others, CandidateLe(scores));
      ChooseUnique(items, protected, false);
      UniqueIdsPermutation(others, candidates);
      assert x in multiset(candidates);
      var i :| 0 <= i < |candidates| && candidates[i] == x;
      KeptIffItFits(candidates, base, usable, i);
      KeptByIdIff(items, scores, budget, protected, x);
    }
  }

  lemma IdOfItem(items: seq<Item>, x: Item)
    requires x in items
    ensures x.id in Ids(items)
  {
    var i :| 0 <= i < |items| && items[i] == x;
    assert Ids(items)[i] == x.id;
  }

  lemma ItemOfId(items: seq<Item>, id: string) returns (x: Item)
    requires id in Ids(items)
    ensures x in items && x.id == id
  {
    var i :| 0 <= i < |items| && Ids(items)[i] == id;
    x := items[i];
  }

  lemma KeptAreUnprotected(items: seq<Item>, scores: map<string, real>, budget: Budget, protected: set<string>, y: Item)
    requires var candidates := Candidates(items, scores, protected);
             var base, usable := TotalTokens(Choose(items, protected, true)), UsableInputTokens(budget);
             y in Kept(candidates, |candidates|, base, usable) || y in Rejected(candidates, |candidates|, base, usable)
    ensures y in items && y.id !in protected
  {
    var candidates := Candidates(items, scores, protected);
    var base, usable := TotalTokens(Choose(items, protected, true)), UsableInputTokens(budget);
    KeptOrRejected(candidates, |candidates|, base, usable);
    assert candidates[..|candidates|] == candidates;
    assert y in multiset(Kept(candidates, |candidates|, base, usable))
                + multiset(Rejected(candidates, |candidates|, base, usable));
    SortElements(Choose(items, protected, false), CandidateLe(scores));
    ChooseIn(items, protected, false, y);
    assert y in multiset(items);
  }

  lemma AlwaysAreProtected(items: seq<Item>, protected: set<string>, y: Item)
    requires y in Choose(items, protected, true)
    ensures y.id in protected
  {
    ChooseIn(items, protected, true, y);
    assert y in multiset(Choose(items, protected, true));
  }

  lemma UniqueIdsOnce(items: seq<Item>, id: string)
    requires UniqueIds(items)
    ensures multiset(Ids(items))[id] <= 1
  {
    if multiset(Ids(items))[id] >= 2 { var k, l := TwiceIsRepeated(Ids(items), id); }
  }

  /** With unique ids an unprotected item is among the kept or rejected items as its id is
      among the ids of the outcome. */
  lemma KeptByIdIff(items: seq<Item>, scores: map<string, real>, budget: Budget, protected: set<string>, x: Item)
    requires UniqueIds(items) && x in items && x.id !in protected
    ensures var o, candidates := Selection(items, scores, budget, protected), Candidates(items, scores, protected);
            var base, usable := TotalTokens(Choose(items, protected, true)), UsableInputTokens(budget);
            && (x.id in o.keptIds <==> x in Kept(candidates, |candidates|, base, usable))
            && (x.id in o.rejectedIds <==> x !in Kept(candidates, |candidates|, base, usable))
  {
    var o, candidates := Selection(items, scores, budget, protected), Candidates(items, scores, protected);
    var always := Choose(items, protected, true);
    var base, usable := TotalTokens(always), UsableInputTokens(budget);
    var kept := Kept(candidates, |candidates|, base, usable);
    if x in kept { IdOfItem(kept, x); }
    if x.id in o.keptIds {
      if x.id in Ids(always) {
        var y := ItemOfId(always, x.id);
        AlwaysAreProtected(items, protected, y);
        assert false;
      }
      var y := ItemOfId(kept, x.id);
      KeptAreUnprotected(items, scores, budget, protected, y);
      SameItem(items, x, y);
    }
    IdsOnce(items, scores, budget, protected, x);
  }

  lemma SameItem(items: seq<Item>, x: Item, y: Item)
    requires UniqueIds(items) && x in items && y in items && x.id == y.id
    ensures x == y
  {
  }

  /** Each id of unique ones is kept or rejected, and not both. */
  lemma IdsOnce(items: seq<Item>, scores: map<string, real>, budget: Budget, protected: set<string>, x: Item)
    requires UniqueIds(items) && x in items
    ensures var o := Selection(items, scores, budget, protected);
            x.id in o.keptIds <==> x.id !in o.rejectedIds
  {
    var o := Selection(items, scores, budget, protected);
    SelectionPartitions(items, scores, budget, protected);
    IdOfItem(items, x);
    if x.id in o.keptIds && x.id in o.rejectedIds {
      assert x.id in multiset(o.keptIds) && x.id in multiset(o.rejectedIds);
      UniqueIdsOnce(items, x.id);
      assert false;
    }
    assert x.id in multiset(Ids(items));
    assert x.id in multiset(o.keptIds) <==> x.id in o.keptIds;
    assert x.id in multiset(o.rejectedIds) <==> x.id in o.rejectedIds;
  }

  /** Rejected ids come out worst score first. */
  lemma RejectedAscend(items: seq<Item>, scores: map<string, real>, budget: Budget, protected: set<string>,
                       i: nat, j: nat)
    requires var rejected := Selection(items, scores, budget, protected).rejectedIds;
             i < j < |rejected| && ScoreOf(scores, rejected[i]) >= 0.0 && ScoreOf(scores, rejected[j]) >= 0.0
    ensures var rejected := Selection(items, scores, budget, protected).rejectedIds;
            ScoreOf(scores, rejected[i]) <= ScoreOf(scores, rejected[j])
  {
    var candidates := Candidates(items, scores, protected);
    var base, usable := TotalTokens(Choose(items, protected, true)), UsableInputTokens(budget);
    var ids := Ids(Rejected(candidates, |candidates|, base, usable));
    var le := RejectedLe(scores);
    assert Preorder(multiset(ids), le);
    SortIsSorted(ids, le);
    assert le(Sort(ids, le)[i], Sort(ids, le)[j]);
  }

  lemma CandidateLeIsAPreorder(s: seq<Item>, scores: map<string, real>)
    ensures Preorder(multiset(s), CandidateLe(scores))
    ensures UniqueIds(s) ==> Antisymmetric(multiset(s), CandidateLe(scores))
  {
    var le := CandidateLe(scores);
    forall x, y | x in multiset(s) && y in multiset(s) ensures le(x, y) || le(y, x) {
      StringLeTotal(x.id, y.id);
    }
    forall x, y, z | x in multiset(s) && y in multiset(s) && z in multiset(s) && le(x, y) && le(y, z)
      ensures le(x, z)
    {
      if ScoreOf(scores, x.id) == ScoreOf(scores, y.id) == ScoreOf(scores, z.id) {
        StringLeTransitive(x.id, y.id, z.id);
      }
    }
    if UniqueIds(s) {
      forall x, y | x in multiset(s) && y in multiset(s) && le(x, y) && le(y, x) ensures x == y {
        StringLeTotal(x.id, y.id);
        assert x in s && y in s;
      }
    }
  }

  lemma {:induction false} ChooseIn(items: seq<Item>, protected: set<string>, wanted: bool, x: Item)
    ensures multiset(Choose(items, protected, wanted))[x] ==
            if (x.id in protected) == wanted then multiset(items)[x] else 0
  {
    if items != [] {
      ChooseIn(items[1..], protected, wanted, x);
      assert items == [items[0]] + items[1..];
    }
  }

  lemma ChoosePermutation(a: seq<Item>, b: seq<Item>, protected: set<string>, wanted: bool)
    requires multiset(a) == multiset(b)
    ensures multiset(Choose(a, protected, wanted)) == multiset(Choose(b, protected, wanted))
  {
    forall x ensures multiset(Choose(a, protected, wanted))[x] == multiset(Choose(b, protected, wanted))[x] {
      ChooseIn(a, protected, wanted, x);
      ChooseIn(b, protected, wanted, x);
    }
  }

  lemma {:induction false} ChooseUnique(items: seq<Item>, protected: set<string>, wanted: bool)
    requires UniqueIds(items)
    ensures UniqueIds(Choose(items, protected, wanted))
    ensures forall x :: x in Choose(items, protected, wanted) ==> x in items
  {
    if items != [] {
      ChooseUnique(items[1..], protected, wanted);
      var rest := Choose(items[1..], protected, wanted);
      forall j | 0 <= j < |rest| ensures rest[j].id != items[0].id {
        assert rest[j] in items[1..];
      }
    }
  }

  /** What is kept and what is rejected depends on the items and not on their order; with
      nothing protected the whole outcome does. */
  lemma SelectionIgnoresOrder(a: seq<Item>, b: seq<Item>, scores: map<string, real>, budget: Budget,
                              protected: set<string>)
    requires UniqueIds(a) && multiset(a) == multiset(b)
    ensures var x, y := Selection(a, scores, budget, protected), Selection(b, scores, budget, protected);
            && x.rejectedIds == y.rejectedIds && x.keptTokens == y.keptTokens
            && multiset(x.keptIds) == multiset(y.keptIds)
            && (protected == {} ==> x == y)
  {
    SameInputsToPacking(a, b, scores, protected);
    var pa, pb := Choose(a, protected, true), Choose(b, protected, true);
    Permutation(pa, pb);
    if protected == {} {
      NothingChosen(a);
      NothingChosen(b);
    }
    SameOutcome(pa, pb, Candidates(a, scores, protected), scores, UsableInputTokens(budget));
  }

  lemma SameOutcome(pa: seq<Item>, pb: seq<Item>, candidates: seq<Item>, scores: map<string, real>, usable: nat)
    requires TotalTokens(pa) == TotalTokens(pb) && multiset(Ids(pa)) == multiset(Ids(pb))
    ensures var x, y := Packed(pa, candidates, scores, usable), Packed(pb, candidates, scores, usable);
            && x.rejectedIds == y.rejectedIds && x.keptTokens == y.keptTokens
            && multiset(x.keptIds) == multiset(y.keptIds)
            && (pa == pb ==> x == y)
  {
  }

  lemma SameInputsToPacking(a: seq<Item>, b: seq<Item>, scores: map<string, real>, protected: set<string>)
    requires UniqueIds(a) && multiset(a) == multiset(b)
    ensures Candidates(a, scores, protected) == Candidates(b, scores, protected)
    ensures multiset(Choose(a, protected, true)) == multiset(Choose(b, protected, true))
  {
    UniqueIdsPermutation(a, b);
    ChooseUnique(a, protected, false);
    ChooseUnique(b, protected, false);
    ChoosePermutation(a, b, protected, false);
    ChoosePermutation(a, b, protected, true);
    SameCandidates(Choose(a, protected, false), Choose(b, protected, false), scores);
  }

  lemma SameCandidates(a: seq<Item>, b: seq<Item>, scores: map<string, real>)
    requires UniqueIds(a) && UniqueIds(b) && multiset(a) == multiset(b)
    ensures Sort(a, CandidateLe(scores)) == Sort(b, CandidateLe(scores))
  {
    var le := CandidateLe(scores);
    CandidateLeIsAPreorder(a, scores);
    CandidateLeIsAPreorder(b, scores);
    SortElements(a, le);
    SortElements(b, le);
    SortIsSorted(a, le);
    SortIsSorted(b, le);
    SortedIsUnique(Sort(a, le), Sort(b, le), le);
  }

  lemma {:induction false} NothingChosen(items: seq<Item>)
    ensures Choose(items, {}, true) == []
  {
    if items != [] { NothingChosen(items[1..]); }
  }

  // ---------------------------------------------------------------- better scores first

  /** Better score, or the same score and the smaller id. */
  predicate Ahead(scores: map<string, real>, a: string, b: string) {
    ScoreOf(scores, a) > ScoreOf(scores, b) || (ScoreOf(scores, a) == ScoreOf(scores, b) && a != b && StringLe(a, b))
  }

  lemma CandidatesInOrder(items: seq<Item>, scores: map<string, real>, protected: set<string>, i: nat, j: nat)
    requires UniqueIds(items) && i < j < |Candidates(items, scores, protected)|
    ensures var candidates := Candidates(items, scores, protected);
            UniqueIds(candidates) && Ahead(scores, candidates[i].id, candidates[j].id)
  {
    var others, le := Choose(items, protected, false), CandidateLe(scores);
    ChooseUnique(items, protected, false);
    SortElements(others, le);
    UniqueIdsPermutation(others, Sort(others, le));
    CandidateLeIsAPreorder(others, scores);
    SortIsSorted(others, le);
    assert le(Sort(others, le)[i], Sort(others, le)[j]);
  }

  lemma NotBothAhead(scores: map<string, real>, a: string, b: string)
    ensures !(Ahead(scores, a, b) && Ahead(scores, b, a))
  {
    StringLeTotal(a, b);
  }

  /** An unprotected item among the kept or rejected ones, with its place in the ranking. */
  lemma PlaceOf(items: seq<Item>, scores: map<string, real>, budget: Budget, protected: set<string>, x: Item)
    returns (i: nat)
    requires UniqueIds(items) && x in items && x.id !in protected
    ensures var o, candidates := Selection(items, scores, budget, protected), Candidates(items, scores, protected);
            var base, usable := TotalTokens(Choose(items, protected, true)), UsableInputTokens(budget);
            && i < |candidates| && candidates[i] == x
            && (x.id in o.keptIds <==> FitsOnTop(candidates, i, base, usable))
            && (x.id in o.rejectedIds <==> !FitsOnTop(candidates, i, base, usable))
  {
    OutcomeIsGreedy(items, scores, budget, protected, x);
    var o, candidates := Selection(items, scores, budget, protected), Candidates(items, scores, protected);
    var base, usable := TotalTokens(Choose(items, protected, true)), UsableInputTokens(budget);
    i :| 0 <= i < |candidates| && candidates[i] == x
         && (x.id in o.keptIds <==> FitsOnTop(candidates, i, base, usable))
         && (x.id in o.rejectedIds <==> !FitsOnTop(candidates, i, base, usable));
  }

  /** An item is passed over for a worse one only when it is the larger: when an item is
      rejected and an unprotected one with a worse score, or the same and a larger id, is
      kept, the kept one has fewer tokens. */
  lemma BetterScoresFirst(items: seq<Item>, scores: map<string, real>, budget: Budget, protected: set<string>,
                          x: Item, y: Item)
    requires UniqueIds(items) && x in items && y in items
    requires var o := Selection(items, scores, budget, protected);
             x.id in o.rejectedIds && y.id in o.keptIds && y.id !in protected
    requires Ahead(scores, x.id, y.id)
    ensures y.tokenCount < x.tokenCount
  {
    RejectedIsUnprotected(items, scores, budget, protected, x);
    var candidates := Candidates(items, scores, protected);
    var base, usable := TotalTokens(Choose(items, protected, true)), UsableInputTokens(budget);
    var i := PlaceOf(items, scores, budget, protected, x);
    var j := PlaceOf(items, scores, budget, protected, y);
    if j < i {
      CandidatesInOrder(items, scores, protected, j, i);
      NotBothAhead(scores, x.id, y.id);
      assert false;
    }
    KeptGrows(candidates, i, j, base, usable);
  }

  lemma RejectedIsUnprotected(items: seq<Item>, scores: map<string, real>, budget: Budget, protected: set<string>,
                              x: Item)
    requires UniqueIds(items) && x in items && x.id in Selection(items, scores, budget, protected).rejectedIds
    ensures x.id !in protected
  {
    IdsOnce(items, scores, budget, protected, x);
    OutcomeIsGreedy(items, scores, budget, protected, x);
  }

  lemma {:induction false} KeptIsSorted(candidates: seq<Item>, n: nat, base: nat, usable: nat, le: (Item, Item) -> bool)
    requires n <= |candidates| && Sorted(candidates, le)
    ensures Sorted(Kept(candidates, n, base, usable), le)
  {
    if n > 0 {
      KeptIsSorted(candidates, n - 1, base, usable, le);
      var before := Kept(candidates, n - 1, base, usable);
      forall i | 0 <= i < |before| ensures le(before[i], candidates[n - 1]) {
        KeptAreCandidates(candidates, n - 1, base, usable, before[i]);
      }
    }
  }

  /** Kept ids list the protected items first, in the order of the items, and then the others
      from the best score to the worst. */
  lemma KeptInScoreOrder(items: seq<Item>, scores: map<string, real>, budget: Budget, protected: set<string>,
                         p: nat, q: nat)
    requires UniqueIds(items) && p < q < |Selection(items, scores, budget, protected).keptIds|
    ensures var ids := Selection(items, scores, budget, protected).keptIds;
            && Ids(Choose(items, protected, true)) <= ids
            && (ids[q] in protected ==> ids[p] in protected)
            && (ids[p] !in protected ==> Ahead(scores, ids[p], ids[q]))
  {
    var always, others, le := Choose(items, protected, true), Choose(items, protected, false), CandidateLe(scores);
    var candidates := Candidates(items, scores, protected);
    var base, usable := TotalTokens(always), UsableInputTokens(budget);
    var kept := Kept(candidates, |candidates|, base, usable);
    var ids := Selection(items, scores, budget, protected).keptIds;
    assert ids == Ids(always) + Ids(kept);
    KeptHalves(items, scores, budget, protected, p);
    KeptHalves(items, scores, budget, protected, q);
    if p >= |always| {
      ChooseUnique(items, protected, false);
      SortElements(others, le);
      CandidateLeIsAPreorder(others, scores);
      SortIsSorted(others, le);
      KeptIsSorted(candidates, |candidates|, base, usable, le);
      assert le(kept[p - |always|], kept[q - |always|]);
      KeptIdsDiffer(items, scores, budget, protected, p, q);
    }
  }

  lemma HalfOf(always: seq<Item>, kept: seq<Item>, protected: set<string>, p: nat)
    requires forall x :: x in always ==> x.id in protected
    requires forall x :: x in kept ==> x.id !in protected
    requires p < |always| + |kept|
    ensures (Ids(always) + Ids(kept))[p] in protected <==> p < |always|
  {
    if p < |always| {
      assert always[p] in always;
    } else {
      assert kept[p - |always|] in kept;
    }
  }

  /** Which half of the kept ids a place is in. */
  lemma KeptHalves(items: seq<Item>, scores: map<string, real>, budget: Budget, protected: set<string>, p: nat)
    requires p < |Selection(items, scores, budget, protected).keptIds|
    ensures Selection(items, scores, budget, protected).keptIds[p] in protected <==>
              p < |Choose(items, protected, true)|
  {
    var always, candidates := Choose(items, protected, true), Candidates(items, scores, protected);
    var kept := Kept(candidates, |candidates|, TotalTokens(always), UsableInputTokens(budget));
    forall x | x in always ensures x.id in protected { AlwaysAreProtected(items, protected, x); }
    forall x | x in kept ensures x.id !in protected { KeptAreUnprotected(items, scores, budget, protected, x); }
    HalfOf(always, kept, protected, p);
  }

  lemma KeptIdsDiffer(items: seq<Item>, scores: map<string, real>, budget: Budget, protected: set<string>,
                      p: nat, q: nat)
    requires UniqueIds(items) && p < q < |Selection(items, scores, budget, protected).keptIds|
    ensures var ids := Selection(items, scores, budget, protected).keptIds; ids[p] != ids[q]
  {
    var o := Selection(items, scores, budget, protected);
    SelectionPartitions(items, scores, budget, protected);
    UniqueIdsOnce(items, o.keptIds[p]);
    if o.keptIds[p] == o.keptIds[q] { RepeatedIsTwice(o.keptIds, p, q); }
  }
}
