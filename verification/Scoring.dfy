/** Deterministic item scores over the reals (src/context/scoring.rs). */
module Scoring {
  import opened ContextItems
  import opened Text

  datatype Weights = Weights(
    relevance: real, priority: real, recency: real, taskAlignment: real, cost: real)

  const DEFAULT_WEIGHTS := Weights(0.35, 0.25, 0.15, 0.15, 0.10)

  function Clamp01(x: real): real { if x < 0.0 then 0.0 else if x > 1.0 then 1.0 else x }

  function LowerChar(c: char): char {
    if 'A' <= c <= 'Z' then (c as int + 32) as char else c
  }

  function Lower(s: string): (r: string)
    ensures |r| == |s|
  {
    if s == "" then "" else [LowerChar(s[0])] + Lower(s[1..])
  }

  /** The lowercase words of more than two bytes. */
  function WordSet(text: string): set<string> {
    set w | w in Words(Lower(text)) && Bytes(w) > 2
  }

  /** The share of the task's words that the content has. */
  function TaskAlignment(content: string, task: string): real {
    var taskWords, itemWords := WordSet(task), WordSet(content);
    if taskWords == {} || itemWords == {} then 0.0
    else |taskWords * itemWords| as real / |taskWords| as real
  }

  function Cost(tokens: nat, usable: nat): real {
    if usable == 0 then 1.0 else Clamp01(tokens as real / usable as real)
  }

  function Weigh(w: real, x: real): real { w * x }

  function RawScore(item: Item, task: string, usable: nat, w: Weights): real {
    Weigh(w.relevance, Clamp01(item.relevance)) + Weigh(w.priority, Clamp01(item.priority))
    + Weigh(w.recency, Clamp01(item.recency)) + Weigh(w.taskAlignment, TaskAlignment(item.content, task))
    + Weigh(w.cost, 1.0 - Cost(item.tokenCount, usable))
  }

  function Score(item: Item, task: string, usable: nat, w: Weights): real {
    Clamp01(RawScore(item, task, usable, w))
  }

  lemma AlignmentIsAShare(content: string, task: string)
    ensures 0.0 <= TaskAlignment(content, task) <= 1.0
  {
    var taskWords, itemWords := WordSet(task), WordSet(content);
    if taskWords != {} {
      var rest := taskWords - itemWords;
      assert taskWords * itemWords + rest == taskWords;
      assert |taskWords| == |taskWords * itemWords| + |rest|;
      ShareOfWhole(|taskWords * itemWords| as real, |taskWords| as real);
    }
  }

  lemma ShareOfWhole(part: real, whole: real)
    requires 0.0 <= part <= whole && whole > 0.0
    ensures 0.0 <= part / whole <= 1.0
  {
  }

  lemma WeightedPart(w: real, x: real)
    requires 0.0 <= w && 0.0 <= x <= 1.0
    ensures 0.0 <= Weigh(w, x) <= w
  {
  }

  predicate Normalized(w: Weights) {
    && 0.0 <= w.relevance && 0.0 <= w.priority && 0.0 <= w.recency && 0.0 <= w.taskAlignment && 0.0 <= w.cost
    && w.relevance + w.priority + w.recency + w.taskAlignment + w.cost <= 1.0
  }

  /** With normalised weights the sum is already a score, so the final clamp does nothing. */
  lemma RawScoreIsAScore(item: Item, task: string, usable: nat, w: Weights)
    requires Normalized(w)
    ensures 0.0 <= RawScore(item, task, usable, w) <= 1.0
    ensures Score(item, task, usable, w) == RawScore(item, task, usable, w)
    ensures Score(item, task, usable, w) >= Weigh(w.recency, Clamp01(item.recency))
  {
    AlignmentIsAShare(item.content, task);
    WeightedPart(w.relevance, Clamp01(item.relevance));
    WeightedPart(w.priority, Clamp01(item.priority));
    WeightedPart(w.recency, Clamp01(item.recency));
    WeightedPart(w.taskAlignment, TaskAlignment(item.content, task));
    WeightedPart(w.cost, 1.0 - Cost(item.tokenCount, usable));
  }

  /** What a component of an item counts for when it lies between zero and one. */
  predicate Unit(x: real) { 0.0 <= x <= 1.0 }

  lemma CostIs(tokens: nat, usable: nat)
    ensures usable == 0 ==> Cost(tokens, usable) == 1.0
    ensures usable > 0 && tokens >= usable ==> Cost(tokens, usable) == 1.0
    ensures usable > 0 && tokens <= usable ==> Cost(tokens, usable) * usable as real == tokens as real
  {
    if usable > 0 {
      var t, u := tokens as real, usable as real;
      assert (t / u) * u == t;
      if tokens >= usable { assert t / u >= 1.0; } else { ShareOfWhole(t, u); }
    }
  }

  /** The score in numbers: 35 parts relevance, 25 priority, 15 recency, 15 alignment with the
      task and 10 for what the item leaves of the usable window. */
  lemma ScoreIs(item: Item, task: string, usable: nat)
    requires Unit(item.relevance) && Unit(item.priority) && Unit(item.recency)
    ensures Score(item, task, usable, DEFAULT_WEIGHTS) * 100.0 ==
            35.0 * item.relevance + 25.0 * item.priority + 15.0 * item.recency
            + 15.0 * TaskAlignment(item.content, task) + 10.0 * (1.0 - Cost(item.tokenCount, usable))
  {
    RawScoreIsAScore(item, task, usable, DEFAULT_WEIGHTS);
    assert Weigh(0.35, item.relevance) == 0.35 * item.relevance;
    assert Weigh(0.25, item.priority) == 0.25 * item.priority;
    assert Weigh(0.15, item.recency) == 0.15 * item.recency;
  }

  /** Components outside the unit interval count as its nearer end. */
  lemma ScoreClamps(item: Item, task: string, usable: nat)
    ensures var near := item.(relevance := Clamp01(item.relevance), priority := Clamp01(item.priority),
                              recency := Clamp01(item.recency));
            Unit(near.relevance) && Unit(near.priority) && Unit(near.recency)
            && Score(item, task, usable, DEFAULT_WEIGHTS) == Score(near, task, usable, DEFAULT_WEIGHTS)
  {
  }

  /** Each word the task and the content share counts the same. */
  lemma AlignmentCountsWords(content: string, task: string)
    requires WordSet(task) != {}
    ensures TaskAlignment(content, task) * |WordSet(task)| as real == |WordSet(task) * WordSet(content)| as real
  {
    if WordSet(content) == {} {
      assert WordSet(task) * WordSet(content) == {};
    } else {
      var part, whole := |WordSet(task) * WordSet(content)| as real, |WordSet(task)| as real;
      assert (part / whole) * whole == part;
    }
  }

  lemma SharedWords(taskWords: set<string>, itemWords: set<string>)
    ensures |taskWords * itemWords| == |taskWords| <==> taskWords <= itemWords
    ensures |taskWords * itemWords| == 0 <==> taskWords !! itemWords
  {
    var shared, rest := taskWords * itemWords, taskWords - itemWords;
    assert shared + rest == taskWords;
    assert |taskWords| == |shared| + |rest|;
    assert taskWords <= itemWords <==> rest == {};
  }

  lemma Scaled(a: real, b: real, w: real)
    requires a < b && w > 0.0
    ensures a * w < b * w
  {
  }

  lemma ShareExtremes(a: real, part: real, whole: real)
    requires whole > 0.0 && a * whole == part
    ensures a == 1.0 <==> part == whole
    ensures a == 0.0 <==> part == 0.0
  {
    if a < 1.0 { Scaled(a, 1.0, whole); }
    if a > 1.0 { Scaled(1.0, a, whole); }
    if a < 0.0 { Scaled(a, 0.0, whole); }
    if a > 0.0 { Scaled(0.0, a, whole); }
  }

  /** The whole alignment is for a task all of whose words the content has, and none is for
      one that has no word in common with it. */
  lemma AlignmentExtremes(content: string, task: string)
    ensures TaskAlignment(content, task) == 1.0 <==> WordSet(task) != {} && WordSet(task) <= WordSet(content)
    ensures TaskAlignment(content, task) == 0.0 <==> WordSet(task) !! WordSet(content)
  {
    if WordSet(task) != {} {
      var part, whole := |WordSet(task) * WordSet(content)|, |WordSet(task)|;
      SharedWords(WordSet(task), WordSet(content));
      AlignmentCountsWords(content, task);
      hide TaskAlignment;
      ShareExtremes(TaskAlignment(content, task), part as real, whole as real);
    }
  }

  /** The weight of each component on its own, for an item that has nothing else. */
  lemma SingleComponents(item: Item, task: string, usable: nat)
    requires item.relevance == item.priority == item.recency == 0.0
    requires TaskAlignment(item.content, task) == 0.0 && item.tokenCount >= usable
    ensures Score(item, task, usable, DEFAULT_WEIGHTS) == 0.0
    ensures Score(item.(relevance := 1.0), task, usable, DEFAULT_WEIGHTS) == 0.35
    ensures Score(item.(priority := 1.0), task, usable, DEFAULT_WEIGHTS) == 0.25
    ensures Score(item.(recency := 1.0), task, usable, DEFAULT_WEIGHTS) == 0.15
    ensures usable > 0 ==> Score(item.(tokenCount := 0), task, usable, DEFAULT_WEIGHTS) == 0.10
  {
    hide Score;
    CostIs(item.tokenCount, usable);
    CostIs(0, usable);
    ScoreIs(item, task, usable);
    ScoreIs(item.(relevance := 1.0), task, usable);
    ScoreIs(item.(priority := 1.0), task, usable);
    ScoreIs(item.(recency := 1.0), task, usable);
    if usable > 0 {
      assert Cost(0, usable) == 0.0;
      ScoreIs(item.(tokenCount := 0), task, usable);
    }
  }

  /** And of full alignment with the task. */
  lemma AlignmentAlone(item: Item, task: string, usable: nat)
    requires item.relevance == item.priority == item.recency == 0.0
    requires TaskAlignment(item.content, task) == 1.0 && item.tokenCount >= usable
    ensures Score(item, task, usable, DEFAULT_WEIGHTS) == 0.15
  {
    CostIs(item.tokenCount, usable);
    ScoreIs(item, task, usable);
  }

  // ---------------------------------------------------------------- the words that are compared

  lemma {:induction false} LowerAt(s: string, i: nat)
    requires i < |s|
    ensures Lower(s)[i] == LowerChar(s[i]) && (IsWhitespace(Lower(s)[i]) <==> IsWhitespace(s[i]))
  {
    if i > 0 { LowerAt(s[1..], i - 1); }
  }

  lemma LowerTake(s: string, n: nat)
    requires n <= |s|
    ensures Lower(s)[..n] == Lower(s[..n])
  {
    hide Lower, LowerChar, IsWhitespace;
    forall k | 0 <= k < n ensures Lower(s)[..n][k] == Lower(s[..n])[k] {
      LowerAt(s, k);
      LowerAt(s[..n], k);
    }
  }

  lemma {:induction false} LowerDrop(s: string, n: nat)
    requires n <= |s|
    ensures Lower(s)[n..] == Lower(s[n..])
  {
    hide LowerChar, IsWhitespace;
    if n > 0 {
      LowerDrop(s[1..], n - 1);
      assert s[1..][n - 1..] == s[n..];
      var rest := Lower(s[1..]);
      assert Lower(s) == [LowerChar(s[0])] + rest;
      hide Lower;
      assert ([LowerChar(s[0])] + rest)[n..] == rest[n - 1..];
    } else {
      assert Lower(s)[0..] == Lower(s) && s[0..] == s;
    }
  }

  lemma {:induction false} LowerWordLength(s: string)
    requires s != "" && !IsWhitespace(s[0])
    ensures !IsWhitespace(Lower(s)[0]) && WordLength(Lower(s)) == WordLength(s)
  {
    LowerAt(s, 0);
    if |s| > 1 {
      LowerAt(s, 1);
      if !IsWhitespace(s[1]) { LowerWordLength(s[1..]); }
    }
  }

  lemma LowerWordsSkip(s: string)
    requires s != "" && IsWhitespace(s[0])
    ensures Words(s) == Words(s[1..]) && Words(Lower(s)) == Words(Lower(s[1..]))
  {
    hide WordLength, Bytes;
    LowerAt(s, 0);
    assert Lower(s)[1..] == Lower(s[1..]);
  }

  lemma FirstWord(s: string)
    requires s != "" && !IsWhitespace(s[0])
    ensures
      var n := WordLength(s);
      0 < n <= |s| && Words(s) == [s[..n]] + Words(s[n..])
  {
  }

  lemma LowerWordsTake(s: string)
    requires s != "" && !IsWhitespace(s[0])
    ensures
      var n := WordLength(s);
      0 < n <= |s| && Words(s) == [s[..n]] + Words(s[n..]) &&
      Words(Lower(s)) == [Lower(s[..n])] + Words(Lower(s[n..]))
  {
    hide LowerChar, Lower, IsWhitespace, Words, WordLength, Bytes;
    var n := WordLength(s);
    LowerAt(s, 0);
    LowerWordLength(s);
    FirstWord(s);
    FirstWord(Lower(s));
    LowerTake(s, n);
    LowerDrop(s, n);
  }

  lemma {:induction false} LowerWords(s: string)
    ensures |Words(Lower(s))| == |Words(s)|
    ensures forall i :: 0 <= i < |Words(s)| ==> Words(Lower(s))[i] == Lower(Words(s)[i])
    decreases |s|
  {
    if s != "" {
      if IsWhitespace(s[0]) {
        LowerWordsSkip(s);
        hide *;
        LowerWords(s[1..]);
      } else {
        LowerWordsTake(s);
        hide *;
        LowerWords(s[WordLength(s)..]);
      }
    }
  }

  /** A word is compared when it is the lowercase of a word of the text and has three bytes
      or more. */
  lemma WordSetIs(text: string, w: string)
    ensures w in WordSet(text) <==> Bytes(w) >= 3 && exists v :: v in Words(text) && w == Lower(v)
  {
    LowerWords(text);
    if w in Words(Lower(text)) {
      var i :| 0 <= i < |Words(Lower(text))| && Words(Lower(text))[i] == w;
      assert Words(text)[i] in Words(text);
    }
    if v :| v in Words(text) && w == Lower(v) {
      var i :| 0 <= i < |Words(text)| && Words(text)[i] == v;
      assert Words(Lower(text))[i] == w;
    }
  }
}
