/**
  The approximate token counter (src/context/tokens.rs).

  `Count` is the reference: the text is cut into maximal runs of one character class and
  the runs are priced one by one. `CountTokens` is the one-pass loop of the program.
 */
module Tokens {
  import opened Text

  datatype Class = Space | Alnum | Cjk | Symbol

  predicate IsCjk(c: char) {
    var n := c as int;
    0x4E00 <= n <= 0x9FFF || 0x3040 <= n <= 0x30FF || 0xAC00 <= n <= 0xD7AF
  }

  function Classify(c: char): Class {
    if IsCjk(c) then Cjk
    else if IsWhitespace(c) then Space
    else if IsAsciiAlnum(c) then Alnum
    else Symbol
  }

  const CJK_BYTES_PER_TOKEN := 4

  /** `div_ceil` by the CJK ratio. */
  function CjkTokens(bytes: nat): nat {
    (bytes + CJK_BYTES_PER_TOKEN - 1) / CJK_BYTES_PER_TOKEN
  }

  /** The length of the maximal run of one class at the front of the text. */
  function RunLength(text: string): (n: nat)
    requires text != ""
    ensures 1 <= n <= |text|
    ensures forall i :: 0 <= i < n ==> Classify(text[i]) == Classify(text[0])
    ensures n < |text| ==> Classify(text[n]) != Classify(text[0])
  {
    if |text| == 1 || Classify(text[1]) != Classify(text[0]) then 1
    else 1 + RunLength(text[1..])
  }

  lemma {:induction false} RunLengthIs(text: string, n: nat)
    requires 1 <= n <= |text|
    requires forall i :: 0 <= i < n ==> Classify(text[i]) == Classify(text[0])
    requires n < |text| ==> Classify(text[n]) != Classify(text[0])
    ensures RunLength(text) == n
  {
    if n > 1 {
      assert Classify(text[1]) == Classify(text[0]);
      RunLengthIs(text[1..], n - 1);
    }
  }

  /** The price of one run: a word is one token, a symbol run one per character. */
  function RunCost(run: string): nat
    requires run != ""
  {
    match Classify(run[0])
    case Space => 0
    case Alnum => 1
    case Symbol => |run|
    case Cjk => CjkTokens(Bytes(run))
  }

  function Count(text: string): nat {
    if text == "" then 0
    else var n := RunLength(text); RunCost(text[..n]) + Count(text[n..])
  }

  /** What a text of one kind costs: nothing for white space, one token for a word, one for
      every symbol, and one for every four bytes, rounded up, of Chinese, Japanese or Korean. */
  lemma UniformCount(s: string)
    requires s != ""
    ensures (forall c :: c in s ==> IsWhitespace(c)) ==> Count(s) == 0
    ensures (forall c :: c in s ==> IsAsciiAlnum(c)) ==> Count(s) == 1
    ensures (forall c :: c in s ==> InCjkBlock(c)) ==> 4 * Count(s) - 4 < 3 * |s| <= 4 * Count(s)
    ensures (forall c :: c in s ==> !IsWhitespace(c) && !IsAsciiAlnum(c) && !InCjkBlock(c)) ==> Count(s) == |s|
  {
    ClassOf(s[0]);
    if forall i :: 0 <= i < |s| ==> Classify(s[i]) == Classify(s[0]) {
      RunLengthIs(s, |s|);
      assert s[..|s|] == s && s[|s|..] == "";
      if forall c :: c in s ==> InCjkBlock(c) { CjkBytes(s); }
    } else {
      var i :| 0 <= i < |s| && Classify(s[i]) != Classify(s[0]);
      ClassOf(s[i]);
      assert s[0] in s && s[i] in s;
    }
  }

  /** Unified ideographs, kana, and Hangul syllables with the seven code points after them. */
  predicate InCjkBlock(c: char) {
    '\U{4E00}' <= c <= '\U{9FFF}' || '\U{3040}' <= c <= '\U{30FF}' || '\U{AC00}' <= c <= '\U{D7AF}'
  }

  lemma ClassOf(c: char)
    ensures Classify(c) == if InCjkBlock(c) then Cjk else if IsWhitespace(c) then Space
                           else if IsAsciiAlnum(c) then Alnum else Symbol
    ensures InCjkBlock(c) ==> Utf8Len(c) == 3 && !IsWhitespace(c) && !IsAsciiAlnum(c)
    ensures IsWhitespace(c) ==> !IsAsciiAlnum(c)
  {
  }

  lemma {:induction false} CjkBytes(s: string)
    requires forall c :: c in s ==> InCjkBlock(c)
    ensures Bytes(s) == 3 * |s|
  {
    if s != "" {
      assert s[0] in s && forall c :: c in s[1..] ==> c in s;
      CjkBytes(s[1..]);
    }
  }

  /** The last maximal run. */
  function TailRun(text: string): (run: string)
    requires text != ""
    ensures run != "" && |run| <= |text|
    ensures run[0] == text[|text| - |run|]
    ensures Classify(run[0]) == Classify(text[|text| - 1])
  {
    var n := RunLength(text);
    if n == |text| then text else TailRun(text[n..])
  }

  /** What is saved when the two runs that meet at a split point are priced as one. */
  function Seam(a: string, b: string): int {
    if a == "" || b == "" then 0
    else
      var tail, head := TailRun(a), b[..RunLength(b)];
      if Classify(tail[0]) != Classify(head[0]) then 0
      else RunCost(tail) + RunCost(head) - RunCost(tail + head)
  }

  /** The exact law of concatenation; the seam is worth nothing or one token. */
  lemma {:induction false} CountConcat(a: string, b: string)
    ensures Count(a + b) == Count(a) + Count(b) - Seam(a, b)
    decreases |a|
  {
    if a == "" {
      assert a + b == b;
    } else if b == "" {
      assert a + b == a;
    } else if RunLength(a) < |a| {
      var n := RunLength(a);
      CountFirstRun(a, b);
      CountConcat(a[n..], b);
      assert Seam(a, b) == Seam(a[n..], b);
    } else {
      CountSingleRun(a, b);
    }
  }

  lemma CountFirstRun(a: string, b: string)
    requires a != "" && RunLength(a) < |a|
    ensures Count(a + b) - Count(a) == Count(a[RunLength(a)..] + b) - Count(a[RunLength(a)..])
  {
    var n, ab := RunLength(a), a + b;
    RunLengthIs(ab, n);
    assert ab[..n] == a[..n] && ab[n..] == a[n..] + b;
  }

  lemma CountSingleRun(a: string, b: string)
    requires a != "" && b != "" && RunLength(a) == |a|
    ensures Count(a + b) == Count(a) + Count(b) - Seam(a, b)
  {
    var n, m, ab := |a|, RunLength(b), a + b;
    assert a[..n] == a && a[n..] == "" && TailRun(a) == a;
    assert Count(a) == RunCost(a);
    if Classify(a[0]) != Classify(b[0]) {
      RunLengthIs(ab, n);
      assert ab[..n] == a && ab[n..] == b;
    } else {
      MergedRun(a, b);
      assert ab[..n + m] == a + b[..m] && ab[n + m..] == b[m..];
    }
  }

  lemma MergedRun(a: string, b: string)
    requires a != "" && b != "" && RunLength(a) == |a| && Classify(a[0]) == Classify(b[0])
    ensures RunLength(a + b) == |a| + RunLength(b)
  {
    var ab, k := a + b, |a| + RunLength(b);
    forall i | 0 <= i < k ensures Classify(ab[i]) == Classify(ab[0]) {
      if i >= |a| { assert ab[i] == b[i - |a|]; }
    }
    if k < |ab| { assert ab[k] == b[RunLength(b)]; }
    RunLengthIs(ab, k);
  }

  lemma SeamBounds(a: string, b: string)
    ensures 0 <= Seam(a, b) <= 1
    ensures a != "" && b != "" && Classify(a[|a| - 1]) != Classify(b[0]) ==> Seam(a, b) == 0
    ensures a != "" && b != "" && Classify(b[0]) in {Space, Symbol} ==> Seam(a, b) == 0
    ensures a != "" && b != "" && Classify(a[|a| - 1]) == Classify(b[0]) == Alnum ==> Seam(a, b) == 1
  {
    if a != "" && b != "" {
      var tail, head := TailRun(a), b[..RunLength(b)];
      BytesConcat(tail, head);
      assert (tail + head)[0] == tail[0];
    }
  }

  /** Near-additivity over all texts, exact on the right where the split touches white space. */
  lemma CountNearlyAdditive(a: string, b: string)
    ensures Count(a) + Count(b) - 1 <= Count(a + b) <= Count(a) + Count(b)
    ensures Touching(a, b) ==> Count(a + b) == Count(a) + Count(b)
  {
    CountConcat(a, b);
    SeamBounds(a, b);
  }

  /** The split point lies at an end of the text or beside white space. */
  predicate Touching(a: string, b: string) {
    a == "" || b == "" || Classify(a[|a| - 1]) == Space || Classify(b[0]) == Space
  }

  /** Two pieces whose meeting characters have different classes are priced apart. */
  lemma CountApart(a: string, b: string)
    requires a == "" || b == "" || Classify(a[|a| - 1]) != Classify(b[0])
    ensures Count(a + b) == Count(a) + Count(b)
  {
    CountConcat(a, b);
    SeamBounds(a, b);
  }

  lemma {:induction false} TailRunAppend(p: string, c: char)
    ensures TailRun(p + [c]) ==
            if p != "" && Classify(p[|p| - 1]) == Classify(c) then TailRun(p) + [c] else [c]
    decreases |p|
  {
    var pc := p + [c];
    if p == "" {
      assert pc == [c];
    } else {
      var n := RunLength(p);
      if n < |p| {
        RunLengthIs(pc, n);
        assert pc[n..] == p[n..] + [c];
        TailRunAppend(p[n..], c);
      } else if Classify(p[0]) == Classify(c) {
        MergedRun(p, [c]);
      } else {
        RunLengthIs(pc, n);
        assert pc[n..] == [c];
      }
    }
  }

  /** The pending CJK bytes and the word flag that the loop holds after reading `p`. */
  function PendingCjk(p: string): nat {
    if p != "" && Classify(p[|p| - 1]) == Cjk then Bytes(TailRun(p)) else 0
  }

  predicate InWord(p: string) { p != "" && Classify(p[|p| - 1]) == Alnum }

  lemma CountAppend(p: string, c: char)
    ensures PendingCjk(p + [c]) ==
            if Classify(c) == Cjk then PendingCjk(p) + Utf8Len(c) else 0
    ensures Count(p + [c]) - CjkTokens(PendingCjk(p + [c])) ==
            match Classify(c)
            case Cjk => Count(p) - CjkTokens(PendingCjk(p))
            case Space => Count(p)
            case Alnum => Count(p) + (if InWord(p) then 0 else 1)
            case Symbol => Count(p) + 1
    ensures InWord(p + [c]) <==> Classify(c) == Alnum
  {
    CountConcat(p, [c]);
    SeamBounds(p, [c]);
    TailRunAppend(p, c);
    assert [c][..1] == [c] && [c][1..] == "";
    assert Bytes([c]) == Utf8Len(c) by { assert [c][1..] == ""; }
    assert Count([c]) == RunCost([c]);
    if p != "" && Classify(p[|p| - 1]) == Classify(c) {
      BytesConcat(TailRun(p), [c]);
    }
  }

  method CountTokens(text: string) returns (tokens: nat)
    ensures tokens == Count(text)
  {
    assert Count("") == 0 && !InWord("") && PendingCjk("") == 0 && CjkTokens(0) == 0;
    hide Count, PendingCjk, CjkTokens, InWord, IsCjk, IsWhitespace, IsAsciiAlnum;
    tokens := 0;
    var inWord := false;
    var cjkBytes := 0;
    for i := 0 to |text|
      invariant inWord == InWord(text[..i])
      invariant cjkBytes == PendingCjk(text[..i])
      invariant tokens + CjkTokens(cjkBytes) == Count(text[..i])
    {
      var ch := text[i];
      CountAppend(text[..i], ch);
      assert text[..i + 1] == text[..i] + [ch];
      if IsCjk(ch) {
        cjkBytes := cjkBytes + Utf8Len(ch);
        inWord := false;
      } else {
        if cjkBytes > 0 {
          tokens := tokens + CjkTokens(cjkBytes);
          cjkBytes := 0;
        }
        if IsWhitespace(ch) {
          inWord := false;
        } else if IsAsciiAlnum(ch) {
          if !inWord {
            tokens := tokens + 1;
            inWord := true;
          }
        } else {
          tokens := tokens + 1;
          inWord := false;
        }
      }
    }
    if cjkBytes > 0 {
      tokens := tokens + CjkTokens(cjkBytes);
    }
    assert text[..|text|] == text;
  }
}
