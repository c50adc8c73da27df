/** Context items and the token budget (src/context/item.rs, src/context/budget.rs). */
module ContextItems {
  import opened Text
  import opened Wrappers

  datatype Source =
    | System | User | Assistant | Tool | Skill | File | Memory | Workspace | Search | Summary | Other

  datatype ItemState = Active | Offloaded | Archived

  datatype Scope = Project | Session | Global

  /** Caller metadata, or the note the engine leaves when it compresses an item. */
  datatype Metadata = Caller(text: string) | CompressedFrom(originalTokens: nat)

  /** Relevance, priority and recency are reals; the program uses 32-bit floats. */
  datatype Item = Item(
    id: string, source: Source, content: string, tokenCount: nat, relevance: real,
    priority: real, recency: real, state: ItemState, scope: Scope, metadata: Metadata)

  predicate ValidItemId(id: string) {
    && id != "" && Bytes(id) <= 256 && id != "." && id != ".."
    && forall c :: c in id ==> IsAsciiAlnum(c) || c == '-' || c == '_' || c == '.'
  }

  datatype Budget = Budget(maxInputTokens: nat, reservedOutputTokens: nat, safetyMarginTokens: nat)

  function UsableInputTokens(b: Budget): nat {
    SatSub(SatSub(b.maxInputTokens, b.reservedOutputTokens), b.safetyMarginTokens)
  }

  predicate Fits(b: Budget, tokens: nat) { tokens <= UsableInputTokens(b) }

  function Overflow(b: Budget, tokens: nat): Option<nat> {
    if Fits(b, tokens) then None else Some(tokens - UsableInputTokens(b))
  }

  function Ids(items: seq<Item>): (ids: seq<string>)
    ensures |ids| == |items|
    ensures forall i :: 0 <= i < |items| ==> ids[i] == items[i].id
  {
    seq(|items|, i requires 0 <= i < |items| => items[i].id)
  }

  ghost predicate UniqueIds(items: seq<Item>) {
    forall i, j :: 0 <= i < j < |items| ==> items[i].id != items[j].id
  }

  function TotalTokens(items: seq<Item>): nat {
    if items == [] then 0 else items[0].tokenCount + TotalTokens(items[1..])
  }

  lemma {:induction false} TotalTokensConcat(a: seq<Item>, b: seq<Item>)
    ensures TotalTokens(a + b) == TotalTokens(a) + TotalTokens(b)
  {
    if a == [] {
      assert a + b == b;
    } else {
      TotalTokensConcat(a[1..], b);
      assert (a + b)[1..] == a[1..] + b;
    }
  }

  lemma TotalTokensAppend(a: seq<Item>, x: Item)
    ensures TotalTokens(a + [x]) == TotalTokens(a) + x.tokenCount
  {
    TotalTokensConcat(a, [x]);
    assert [x][1..] == [];
  }

  function Removed(items: seq<Item>, i: nat): seq<Item>
    requires i < |items|
  {
    items[..i] + items[i + 1..]
  }

  lemma SplitAtItem(items: seq<Item>, i: nat)
    requires i < |items|
    ensures items == items[..i] + ([items[i]] + items[i + 1..])
  {
  }

  lemma RemovedTokens(items: seq<Item>, i: nat)
    requires i < |items|
    ensures TotalTokens(items) == TotalTokens(Removed(items, i)) + items[i].tokenCount
  {
    SplitAtItem(items, i);
    TotalTokensConcat(items[..i], [items[i]] + items[i + 1..]);
    TotalTokensConcat(items[..i], items[i + 1..]);
    assert ([items[i]] + items[i + 1..])[1..] == items[i + 1..];
  }

  lemma IdsConcat(a: seq<Item>, b: seq<Item>)
    ensures Ids(a + b) == Ids(a) + Ids(b)
  {
  }

  lemma RemovedIds(items: seq<Item>, i: nat)
    requires i < |items|
    ensures multiset(Ids(Removed(items, i))) == multiset(Ids(items)) - multiset{items[i].id}
    ensures items[i].id in multiset(Ids(items))
  {
    var before, x, after := items[..i], [items[i]], items[i + 1..];
    SplitAtItem(items, i);
    IdsConcat(before, x + after);
    IdsConcat(x, after);
    IdsConcat(before, after);
    assert Ids(x) == [items[i].id];
  }

  lemma RemovedItems(items: seq<Item>, i: nat)
    requires i < |items|
    ensures multiset(Removed(items, i)) == multiset(items) - multiset{items[i]}
  {
    SplitAtItem(items, i);
  }

  /** Taking one item out of two lists that are equal in sum and ids without it. */
  lemma RemovedBoth(a: seq<Item>, i: nat, b: seq<Item>, j: nat)
    requires i < |a| && j < |b| && a[i] == b[j]
    requires TotalTokens(Removed(a, i)) == TotalTokens(Removed(b, j))
    requires multiset(Ids(Removed(a, i))) == multiset(Ids(Removed(b, j)))
    ensures TotalTokens(a) == TotalTokens(b) && multiset(Ids(a)) == multiset(Ids(b))
  {
    hide *;
    RemovedTokens(a, i);
    RemovedTokens(b, j);
    RemovedIds(a, i);
    RemovedIds(b, j);
    var x := multiset{a[i].id};
    assert multiset(Ids(a)) == multiset(Ids(a)) - x + x;
    assert multiset(Ids(b)) == multiset(Ids(b)) - x + x;
  }

  /** The sum and the ids of a list do not depend on its order. */
  lemma {:induction false} Permutation(a: seq<Item>, b: seq<Item>)
    requires multiset(a) == multiset(b)
    ensures TotalTokens(a) == TotalTokens(b)
    ensures multiset(Ids(a)) == multiset(Ids(b))
  {
    if a != [] {
      assert a[0] in multiset(b);
      var i :| 0 <= i < |b| && b[i] == a[0];
      RemovedItems(a, 0);
      RemovedItems(b, i);
      assert |Removed(a, 0)| < |a|;
      hide *;
      Permutation(Removed(a, 0), Removed(b, i));
      RemovedBoth(a, 0, b, i);
    } else {
      assert |multiset(b)| == 0;
    }
  }

  lemma UniqueIdsPermutation(a: seq<Item>, b: seq<Item>)
    requires multiset(a) == multiset(b) && UniqueIds(a)
    ensures UniqueIds(b)
  {
    Permutation(a, b);
    forall i, j | 0 <= i < j < |b| ensures b[i].id != b[j].id {
      if b[i].id == b[j].id {
        RepeatedIsTwice(Ids(b), i, j);
        var k, l := TwiceIsRepeated(Ids(a), b[i].id);
      }
    }
  }

  lemma RepeatedIsTwice(s: seq<string>, i: nat, j: nat)
    requires i < j < |s| && s[i] == s[j]
    ensures multiset(s)[s[i]] >= 2
  {
    assert s == s[..i] + [s[i]] + s[i + 1..j] + [s[j]] + s[j + 1..];
  }

  lemma TwiceIsRepeated(s: seq<string>, x: string) returns (k: nat, l: nat)
    requires multiset(s)[x] >= 2
    ensures k < l < |s| && s[k] == x && s[l] == x
  {
    assert x in multiset(s);
    var i: nat :| i < |s| && s[i] == x;
    assert s == s[..i] + [s[i]] + s[i + 1..];
    if x in s[..i] {
      k :| 0 <= k < i && s[k] == x;
      l := i;
    } else {
      assert multiset(s[..i])[x] == 0;
      assert x in multiset(s[i + 1..]);
      k := i;
      l :| i < l < |s| && s[l] == x;
    }
  }

  // ---------------------------------------------------------------- ids

  lemma {:induction false} AsciiBytes(s: string)
    requires forall c :: c in s ==> c as int < 0x80
    ensures Bytes(s) == |s|
  {
    if s != "" {
      assert s[0] in s;
      assert forall c :: c in s[1..] ==> c in s;
      AsciiBytes(s[1..]);
    }
  }

  /** A valid id names a file in its directory and nothing else: it has no separator and is
      not a dot or two. Apart from these two every name of up to 256 ASCII letters, digits,
      dashes, underscores and dots is valid. */
  lemma ValidIdsAreFileNames(id: string)
    ensures ValidItemId(id) ==> '/' !in id && '\\' !in id && '\0' !in id && ':' !in id && id !in {"", ".", ".."}
    ensures (0 < |id| <= 256 && id !in {".", ".."}
             && forall c :: c in id ==> IsAsciiAlnum(c) || c in {'-', '_', '.'}) ==> ValidItemId(id)
  {
    if forall c :: c in id ==> IsAsciiAlnum(c) || c in {'-', '_', '.'} { AsciiBytes(id); }
  }
}
