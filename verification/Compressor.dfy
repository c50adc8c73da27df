/**
  Context compression (src/context/compressor.rs): duplicate-line removal, structural
  extraction of markdown, and truncation with a visible marker.
 */
module Compressor {
  import opened Text
  import opened Tokens
  import opened Wrappers

  datatype CompressOptions = CompressOptions(
    maxTokens: nat, dedupLines: bool, structural: bool, truncate: bool)

  const DEFAULT_OPTIONS := CompressOptions(512, true, true, true)

  datatype Strategy = DedupLines | StructuralExtract | Truncate

  datatype Compressed = Compressed(
    content: string, tokenCount: nat, originalTokens: nat, tokensSaved: nat,
    strategies: seq<Strategy>)

  // ---------------------------------------------------------------- token sums

  function SumCounts(parts: seq<string>): nat {
    if parts == [] then 0 else Count(parts[0]) + SumCounts(parts[1..])
  }

  lemma {:induction false} SumCountsAppend(a: seq<string>, b: seq<string>)
    ensures SumCounts(a + b) == SumCounts(a) + SumCounts(b)
  {
    if a == [] {
      assert a + b == b;
    } else {
      SumCountsAppend(a[1..], b);
      assert (a + b)[1..] == a[1..] + b;
    }
  }

  lemma CountDropsSpace(s: string)
    requires s != "" && IsWhitespace(s[0])
    ensures Count(s) == Count(s[1..])
  {
    assert s == [s[0]] + s[1..];
    CountNearlyAdditive([s[0]], s[1..]);
    assert [s[0]][..1] == [s[0]] && [s[0]][1..] == "";
  }

  lemma CountStripCr(s: string)
    ensures Count(StripCr(s)) == Count(s)
  {
    if s != "" && s[|s| - 1] == '\r' {
      assert s == s[..|s| - 1] + ['\r'];
      CountNearlyAdditive(s[..|s| - 1], ['\r']);
      assert ['\r'][..1] == ['\r'] && ['\r'][1..] == "";
    }
  }

  /** A text costs what its lines cost. */
  lemma {:induction false} CountLines(s: string)
    ensures Count(s) == SumCounts(Lines(s))
  {
    var k := IndexOf(s, '\n');
    if s == "" {
    } else if k == |s| {
      assert [s][1..] == [];
    } else {
      assert s == s[..k] + s[k..];
      CountNearlyAdditive(s[..k], s[k..]);
      CountDropsSpace(s[k..]);
      assert s[k..][1..] == s[k + 1..];
      CountStripCr(s[..k]);
      CountLines(s[k + 1..]);
    }
  }

  /** Parts joined by white space cost what the parts cost. */
  lemma {:induction false} CountJoin(parts: seq<string>, sep: char)
    requires IsWhitespace(sep)
    ensures Count(Join(parts, sep)) == SumCounts(parts)
  {
    if |parts| == 1 {
      assert parts[1..] == [];
    } else if |parts| > 1 {
      var rest := Join(parts[1..], sep);
      CountJoin(parts[1..], sep);
      assert parts[0] + [sep] + rest == parts[0] + ([sep] + rest);
      CountNearlyAdditive(parts[0], [sep] + rest);
      CountDropsSpace([sep] + rest);
    }
  }

  /** A text costs what its words cost. */
  lemma {:induction false} CountWords(s: string)
    ensures Count(s) == SumCounts(Words(s))
  {
    if s != "" {
      if IsWhitespace(s[0]) {
        CountDropsSpace(s);
        CountWords(s[1..]);
      } else {
        var n := WordLength(s);
        assert s == s[..n] + s[n..];
        CountNearlyAdditive(s[..n], s[n..]);
        CountWords(s[n..]);
      }
    }
  }

  // ---------------------------------------------------------------- selecting lines

  /** The lines among the first `n` whose index is kept, in order. */
  function Select(lines: seq<string>, keep: nat -> bool, n: nat): seq<string>
    requires n <= |lines|
  {
    if n == 0 then []
    else Select(lines, keep, n - 1) + if keep(n - 1) then [lines[n - 1]] else []
  }

  lemma {:induction false} SelectIsCheaper(lines: seq<string>, keep: nat -> bool, n: nat)
    requires n <= |lines|
    ensures SumCounts(Select(lines, keep, n)) <= SumCounts(lines[..n])
  {
    if n > 0 {
      SelectIsCheaper(lines, keep, n - 1);
      assert lines[..n] == lines[..n - 1] + [lines[n - 1]];
      SumCountsAppend(lines[..n - 1], [lines[n - 1]]);
      assert [lines[n - 1]][1..] == [];
      if keep(n - 1) {
        SumCountsAppend(Select(lines, keep, n - 1), [lines[n - 1]]);
      } else {
        assert Select(lines, keep, n - 1) + [] == Select(lines, keep, n - 1);
      }
    }
  }

  lemma {:induction false} SelectIn(lines: seq<string>, keep: nat -> bool, n: nat, x: string)
    requires n <= |lines|
    ensures x in Select(lines, keep, n) <==> exists i :: 0 <= i < n && keep(i) && lines[i] == x
  {
    if n > 0 { SelectIn(lines, keep, n - 1, x); }
  }

  // ---------------------------------------------------------------- duplicate lines

  predicate FirstOfItsKey(lines: seq<string>, i: nat)
    requires i < |lines|
  {
    forall j :: 0 <= j < i ==> TrimEnd(lines[j]) != TrimEnd(lines[i])
  }

  function FirstKeep(lines: seq<string>): nat -> bool {
    (i: nat) => i < |lines| && FirstOfItsKey(lines, i)
  }

  /** What `dedup_lines` joins: the first line of each key, and an empty last part
      when the content ends with a line feed. */
  function DedupParts(content: string): seq<string> {
    var lines := Lines(content);
    Select(lines, FirstKeep(lines), |lines|) + if EndsWithNewline(content) then [""] else []
  }

  function Dedup(content: string): string { Join(DedupParts(content), '\n') }

  function KeySet(lines: seq<string>, n: nat): set<string>
    requires n <= |lines|
  {
    if n == 0 then {} else KeySet(lines, n - 1) + {TrimEnd(lines[n - 1])}
  }

  lemma {:induction false} KeySetHolds(lines: seq<string>, n: nat, key: string)
    requires n <= |lines|
    ensures key in KeySet(lines, n) <==> exists j :: 0 <= j < n && TrimEnd(lines[j]) == key
  {
    if n > 0 { KeySetHolds(lines, n - 1, key); }
  }

  method DedupContent(content: string) returns (r: string)
    ensures r == Dedup(content)
  {
    var seen: set<string> := {};
    var out: seq<string> := [];
    var lines := Lines(content);
    for i := 0 to |lines|
      invariant out == Select(lines, FirstKeep(lines), i)
      invariant seen == KeySet(lines, i)
    {
      var key := TrimEnd(lines[i]);
      KeySetHolds(lines, i, key);
      if key !in seen {
        seen := seen + {key};
        out := out + [lines[i]];
      }
    }
    assert out + [] == out;
    if EndsWithNewline(content) {
      out := out + [""];
    }
    r := Join(out, '\n');
  }

  lemma DedupNeverRaisesTheCount(content: string)
    ensures Count(Dedup(content)) <= Count(content)
  {
    var lines := Lines(content);
    var kept := Select(lines, FirstKeep(lines), |lines|);
    SelectIsCheaper(lines, FirstKeep(lines), |lines|);
    assert lines[..|lines|] == lines;
    CountLines(content);
    CountJoin(DedupParts(content), '\n');
    if EndsWithNewline(content) {
      SumCountsAppend(kept, [""]);
      assert [""][1..] == [];
    } else {
      assert kept + [] == kept;
    }
  }

  predicate LineFree(parts: seq<string>) { forall p :: p in parts ==> '\n' !in p }

  lemma {:induction false} LinesAreLineFree(s: string)
    ensures LineFree(Lines(s))
  {
    var k := IndexOf(s, '\n');
    if s != "" && k < |s| {
      LinesAreLineFree(s[k + 1..]);
    }
  }

  /** The parts as they read back after one join and one split: every part but the last
      is followed by a line feed and loses a carriage return before it. */
  function StripInner(parts: seq<string>): (r: seq<string>)
    ensures |r| == |parts|
    ensures forall i :: 0 <= i < |parts| - 1 ==> r[i] == StripCr(parts[i])
    ensures parts != [] ==> r[|r| - 1] == parts[|parts| - 1]
  {
    if |parts| <= 1 then parts else [StripCr(parts[0])] + StripInner(parts[1..])
  }

  function DropEmptyLast(parts: seq<string>): seq<string> {
    if parts != [] && parts[|parts| - 1] == "" then parts[..|parts| - 1] else parts
  }

  lemma IndexOfIs(s: string, sep: char, k: nat)
    requires k < |s| && s[k] == sep && sep !in s[..k]
    ensures IndexOf(s, sep) == k
  {
    var m := IndexOf(s, sep);
    forall i | 0 <= i < k ensures s[i] != sep { assert s[i] == s[..k][i]; }
  }

  lemma LinesOfLine(head: string, rest: string)
    requires '\n' !in head
    ensures Lines(head + ['\n'] + rest) == [StripCr(head)] + Lines(rest)
  {
    var s := head + ['\n'] + rest;
    assert s[..|head|] == head;
    IndexOfIs(s, '\n', |head|);
    assert s[|head| + 1..] == rest;
  }

  lemma {:induction false} LinesOfJoin(parts: seq<string>)
    requires LineFree(parts)
    ensures Lines(Join(parts, '\n')) == DropEmptyLast(StripInner(parts))
  {
    if |parts| == 1 {
      assert parts[0] in parts;
      assert IndexOf(parts[0], '\n') == |parts[0]|;
    } else if |parts| > 1 {
      LinesOfLine(parts[0], Join(parts[1..], '\n'));
      LinesOfJoin(parts[1..]);
      DropEmptyLastCons(StripCr(parts[0]), StripInner(parts[1..]));
    }
  }

  lemma DropEmptyLastCons(x: string, rest: seq<string>)
    requires rest != []
    ensures DropEmptyLast([x] + rest) == [x] + DropEmptyLast(rest)
  {
  }

  lemma {:induction false} JoinEndsWithNewline(parts: seq<string>)
    requires LineFree(parts)
    ensures EndsWithNewline(Join(parts, '\n')) <==> |parts| >= 2 && parts[|parts| - 1] == ""
  {
    if |parts| == 1 {
      assert parts[0] in parts;
      assert '\n' !in parts[0];
    } else if |parts| > 1 {
      JoinEndsWithNewline(parts[1..]);
    }
  }

  predicate DistinctKeys(lines: seq<string>) {
    forall i, j :: 0 <= i < j < |lines| ==> TrimEnd(lines[i]) != TrimEnd(lines[j])
  }

  lemma {:induction false} DistinctKeysAreAllKept(lines: seq<string>, n: nat)
    requires DistinctKeys(lines) && n <= |lines|
    ensures Select(lines, FirstKeep(lines), n) == lines[..n]
  {
    if n > 0 {
      DistinctKeysAreAllKept(lines, n - 1);
      assert FirstOfItsKey(lines, n - 1);
    }
  }

  lemma DistinctKeysAppend(lines: seq<string>, x: string)
    requires DistinctKeys(lines) && forall y :: y in lines ==> TrimEnd(y) != TrimEnd(x)
    ensures DistinctKeys(lines + [x])
  {
  }

  lemma {:induction false} SelectedKeysAreDistinct(lines: seq<string>, n: nat)
    requires n <= |lines|
    ensures DistinctKeys(Select(lines, FirstKeep(lines), n))
  {
    hide DistinctKeys, TrimEnd;
    if n == 0 {
      NothingDistinct();
    } else {
      SelectedKeysAreDistinct(lines, n - 1);
      var before, x := Select(lines, FirstKeep(lines), n - 1), lines[n - 1];
      if FirstKeep(lines)(n - 1) {
        forall y | y in before ensures TrimEnd(y) != TrimEnd(x) { SelectIn(lines, FirstKeep(lines), n - 1, y); }
        DistinctKeysAppend(before, x);
      } else {
        assert before + [] == before;
      }
    }
  }

  lemma NothingDistinct()
    ensures DistinctKeys([])
  {
  }

  lemma StripCrKeepsTheKey(s: string)
    ensures TrimEnd(StripCr(s)) == TrimEnd(s)
  {
  }

  /** Parts read back after one join and one split: the keys are as before, and at most
      one empty part at the end is gone. */
  lemma ReadBack(kept: seq<string>, tail: seq<string>)
    requires tail == [] || tail == [""]
    ensures var back := DropEmptyLast(StripInner(kept + tail));
            && |kept| - 1 <= |back| <= |kept|
            && (forall i :: 0 <= i < |back| ==> TrimEnd(back[i]) == TrimEnd(kept[i]))
            && (|back| < |kept| ==> kept[|back|] == "")
  {
    var inner := StripInner(kept + tail);
    forall i | 0 <= i < |kept| ensures TrimEnd(inner[i]) == TrimEnd(kept[i]) {
      StripCrKeepsTheKey(kept[i]);
    }
  }

  function KeptLines(content: string): seq<string> {
    Select(Lines(content), FirstKeep(Lines(content)), |Lines(content)|)
  }

  /** The deduplicated text splits into its parts. */
  lemma DedupReadsBack(content: string)
    ensures LineFree(DedupParts(content))
    ensures Lines(Dedup(content)) == DropEmptyLast(StripInner(DedupParts(content)))
  {
    var lines := Lines(content);
    LinesAreLineFree(content);
    forall x | x in KeptLines(content) ensures x in lines { SelectIn(lines, FirstKeep(lines), |lines|, x); }
    LinesOfJoin(DedupParts(content));
  }

  /** The lines read back match the kept lines key by key. */
  lemma DedupKeysMatch(content: string)
    ensures var kept, back := KeptLines(content), Lines(Dedup(content));
            && |kept| - 1 <= |back| <= |kept|
            && (forall i :: 0 <= i < |back| ==> TrimEnd(back[i]) == TrimEnd(kept[i]))
            && (|back| < |kept| ==> kept[|back|] == "")
  {
    DedupReadsBack(content);
    ReadBack(KeptLines(content), if EndsWithNewline(content) then [""] else []);
  }

  /** The lines of deduplicated content: one per key. */
  lemma DedupLinesDistinct(content: string)
    ensures DistinctKeys(Lines(Dedup(content)))
  {
    DedupKeysMatch(content);
    SelectedKeysAreDistinct(Lines(content), |Lines(content)|);
  }

  predicate HasKey(lines: seq<string>, key: string) {
    exists i :: 0 <= i < |lines| && TrimEnd(lines[i]) == key
  }

  lemma KeySurvives(content: string, key: string)
    requires key != "" && HasKey(Lines(content), key)
    ensures HasKey(Lines(Dedup(content)), key)
  {
    hide TrimEnd, Lines, Dedup;
    var lines := Lines(content);
    var kept := Select(lines, FirstKeep(lines), |lines|);
    var k :| 0 <= k < |lines| && TrimEnd(lines[k]) == key;
    var i := FirstWithKey(lines, k);
    SelectIn(lines, FirstKeep(lines), |lines|, lines[i]);
    var j :| 0 <= j < |kept| && kept[j] == lines[i];
    DedupKeysMatch(content);
    assert TrimEnd(Lines(Dedup(content))[j]) == key;
  }

  lemma KeyWasThere(content: string, key: string)
    requires HasKey(Lines(Dedup(content)), key)
    ensures HasKey(Lines(content), key)
  {
    var lines := Lines(content);
    var kept := Select(lines, FirstKeep(lines), |lines|);
    DedupKeysMatch(content);
    var j :| 0 <= j < |Lines(Dedup(content))| && TrimEnd(Lines(Dedup(content))[j]) == key;
    SelectIn(lines, FirstKeep(lines), |lines|, kept[j]);
  }

  /** No key appears twice, and the non-blank keys are exactly those of the content. */
  lemma DedupKeepsEveryKeyOnce(content: string, key: string)
    ensures DistinctKeys(Lines(Dedup(content)))
    ensures key != "" ==> (HasKey(Lines(content), key) <==> HasKey(Lines(Dedup(content)), key))
  {
    DedupLinesDistinct(content);
    if key != "" && HasKey(Lines(content), key) { KeySurvives(content, key); }
    if HasKey(Lines(Dedup(content)), key) { KeyWasThere(content, key); }
  }

  lemma {:induction false} FirstWithKey(lines: seq<string>, k: nat) returns (i: nat)
    requires k < |lines|
    ensures i < |lines| && TrimEnd(lines[i]) == TrimEnd(lines[k]) && FirstOfItsKey(lines, i)
    decreases k
  {
    i := k;
    if !FirstOfItsKey(lines, k) {
      var j :| 0 <= j < k && TrimEnd(lines[j]) == TrimEnd(lines[k]);
      i := FirstWithKey(lines, j);
    }
  }

  // ---------------------------------------------------------------- idempotence

  predicate EndsWithCr(s: string) { s != "" && s[|s| - 1] == '\r' }

  /** Some line of the content that is the first of its key ends in a carriage return,
      which takes `CR CR LF`, and another line that is kept or the final line feed follows:
      the next split will take the carriage return for half of a CR LF. */
  predicate CarriageResidue(content: string) {
    var lines := Lines(content);
    exists j :: 0 <= j < |lines| && FirstOfItsKey(lines, j) && EndsWithCr(lines[j]) && KeepsMore(content, j)
  }

  predicate KeepsMore(content: string, j: nat) {
    var lines := Lines(content);
    EndsWithNewline(content) || exists m :: j < m < |lines| && FirstOfItsKey(lines, m)
  }

  /** The same of the parts that are joined. */
  predicate InnerPartEndsWithCr(content: string) {
    exists i :: 0 <= i < |DedupParts(content)| - 1 && EndsWithCr(DedupParts(content)[i])
  }

  lemma {:induction false} SelectAt(lines: seq<string>, keep: nat -> bool, j: nat, n: nat)
    requires j < n <= |lines| && keep(j)
    ensures var i := |Select(lines, keep, j)|;
            && i < |Select(lines, keep, n)| && Select(lines, keep, n)[i] == lines[j]
            && (i + 1 < |Select(lines, keep, n)| <==> exists m :: j < m < n && keep(m))
  {
    if j + 1 < n { SelectAt(lines, keep, j, n - 1); }
  }

  lemma {:induction false} SelectFrom(lines: seq<string>, keep: nat -> bool, n: nat, i: nat) returns (j: nat)
    requires n <= |lines| && i < |Select(lines, keep, n)|
    ensures j < n && keep(j) && |Select(lines, keep, j)| == i
  {
    if i < |Select(lines, keep, n - 1)| {
      j := SelectFrom(lines, keep, n - 1, i);
    } else {
      j := n - 1;
    }
  }

  lemma ResidueIsAnInnerPart(content: string)
    ensures CarriageResidue(content) <==> InnerPartEndsWithCr(content)
  {
    var lines, parts := Lines(content), DedupParts(content);
    var keep := FirstKeep(lines);
    if j :| 0 <= j < |lines| && FirstOfItsKey(lines, j) && EndsWithCr(lines[j]) && KeepsMore(content, j) {
      SelectAt(lines, keep, j, |lines|);
      if m :| j < m < |lines| && FirstOfItsKey(lines, m) { assert keep(m); }
      assert EndsWithCr(parts[|Select(lines, keep, j)|]);
    }
    if i :| 0 <= i < |parts| - 1 && EndsWithCr(parts[i]) {
      var j := SelectFrom(lines, keep, |lines|, i);
      SelectAt(lines, keep, j, |lines|);
      assert KeepsMore(content, j);
    }
  }

  function EmptyLast(parts: seq<string>): seq<string> {
    if |parts| >= 2 && parts[|parts| - 1] == "" then [""] else []
  }

  /** An empty part at the end is dropped on reading and put back on writing. */
  lemma DroppedAndPutBack(parts: seq<string>)
    requires parts != [""]
    ensures DropEmptyLast(StripInner(parts)) + EmptyLast(parts) == StripInner(parts)
  {
    var inner := StripInner(parts);
    if EmptyLast(parts) == [""] {
      assert inner[..|inner| - 1] + [""] == inner;
    } else {
      assert DropEmptyLast(inner) == inner;
      assert inner + [] == inner;
    }
  }

  lemma DedupPartsTwice(content: string)
    ensures var parts := DedupParts(content);
            DedupParts(Dedup(content)) == DropEmptyLast(StripInner(parts)) + EmptyLast(parts)
  {
    hide TrimEnd, Join, StripInner;
    var parts, back := DedupParts(content), Lines(Dedup(content));
    DedupReadsBack(content);
    DedupLinesDistinct(content);
    JoinEndsWithNewline(parts);
    DistinctKeysAreAllKept(back, |back|);
    assert back[..|back|] == back;
  }

  /** A second pass keeps every line and only strips carriage returns. */
  lemma DedupTwice(content: string)
    ensures Dedup(Dedup(content)) == Join(StripInner(DedupParts(content)), '\n')
  {
    var parts := DedupParts(content);
    if parts == [""] {
      assert Dedup(content) == "";
      assert Lines("") == [] && Dedup("") == "";
    } else {
      DedupPartsTwice(content);
      DroppedAndPutBack(parts);
    }
  }

  function TotalLength(parts: seq<string>): nat {
    if parts == [] then 0 else |parts[0]| + TotalLength(parts[1..])
  }

  lemma {:induction false} JoinLength(parts: seq<string>, sep: char)
    ensures |Join(parts, sep)| == TotalLength(parts) + if parts == [] then 0 else |parts| - 1
  {
    if |parts| == 1 {
      assert parts[1..] == [];
    } else if |parts| > 1 {
      JoinLength(parts[1..], sep);
    }
  }

  lemma {:induction false} StripInnerIsNoLonger(parts: seq<string>)
    ensures TotalLength(StripInner(parts)) <= TotalLength(parts)
  {
    if |parts| > 1 {
      StripInnerIsNoLonger(parts[1..]);
      assert ([StripCr(parts[0])] + StripInner(parts[1..]))[1..] == StripInner(parts[1..]);
    }
  }

  lemma {:induction false} StripInnerShortens(parts: seq<string>, i: nat)
    requires i < |parts| - 1 && EndsWithCr(parts[i])
    ensures TotalLength(StripInner(parts)) < TotalLength(parts)
  {
    assert ([StripCr(parts[0])] + StripInner(parts[1..]))[1..] == StripInner(parts[1..]);
    if i > 0 { StripInnerShortens(parts[1..], i - 1); } else { StripInnerIsNoLonger(parts[1..]); }
  }

  /** Deduplication is idempotent exactly on the texts without a carriage residue. */
  lemma DedupIdempotentIff(content: string)
    ensures Dedup(Dedup(content)) == Dedup(content) <==> !CarriageResidue(content)
  {
    hide CarriageResidue, DedupParts;
    var parts := DedupParts(content);
    DedupTwice(content);
    ResidueIsAnInnerPart(content);
    if CarriageResidue(content) {
      var i :| 0 <= i < |parts| - 1 && EndsWithCr(parts[i]);
      StripInnerShortens(parts, i);
      JoinLength(parts, '\n');
      JoinLength(StripInner(parts), '\n');
    } else {
      assert StripInner(parts) == parts;
    }
  }

  /** Two carriage returns before a line feed. */
  predicate HasCrCrLf(s: string) {
    exists i :: 0 <= i < |s| - 2 && s[i] == '\r' && s[i + 1] == '\r' && s[i + 2] == '\n'
  }

  lemma CrCrLfLater(s: string, k: nat)
    requires k <= |s| && HasCrCrLf(s[k..])
    ensures HasCrCrLf(s)
  {
    var t := s[k..];
    var i :| 0 <= i < |t| - 2 && t[i] == '\r' && t[i + 1] == '\r' && t[i + 2] == '\n';
    assert s[k + i] == t[i] && s[k + i + 1] == t[i + 1] && s[k + i + 2] == t[i + 2];
  }

  /** The lines that a line feed ends. */
  function EndedLines(s: string): nat {
    if s == "" || EndsWithNewline(s) then |Lines(s)| else |Lines(s)| - 1
  }

  lemma TwoCrs(line: string)
    requires EndsWithCr(StripCr(line))
    ensures |line| >= 2 && line[|line| - 1] == '\r' && line[|line| - 2] == '\r'
  {
  }

  lemma CrAtTheFirstEnd(s: string, k: nat)
    requires k < |s| && s[k] == '\n' && EndsWithCr(StripCr(s[..k]))
    ensures HasCrCrLf(s)
  {
    TwoCrs(s[..k]);
    assert s[k - 2] == '\r' && s[k - 1] == '\r' && s[k - 2 + 2] == '\n';
  }

  lemma {:induction false} CrAtTheEndIsLeftOver(s: string, i: nat)
    requires i < EndedLines(s) && EndsWithCr(Lines(s)[i])
    ensures HasCrCrLf(s)
  {
    hide HasCrCrLf, EndsWithCr;
    var k := IndexOf(s, '\n');
    if i > 0 {
      var rest := s[k + 1..];
      assert rest != "" ==> rest[|rest| - 1] == s[|s| - 1];
      CrAtTheEndIsLeftOver(rest, i - 1);
      CrCrLfLater(s, k + 1);
    } else {
      CrAtTheFirstEnd(s, k);
    }
  }

  /** So it is idempotent on every text without two carriage returns before a line feed. */
  lemma DedupIdempotentWithoutDoubleCr(content: string)
    requires !HasCrCrLf(content)
    ensures Dedup(Dedup(content)) == Dedup(content)
  {
    var lines := Lines(content);
    if j :| 0 <= j < |lines| && FirstOfItsKey(lines, j) && EndsWithCr(lines[j]) && KeepsMore(content, j) {
      CrAtTheEndIsLeftOver(content, j);
      assert false;
    }
    DedupIdempotentIff(content);
  }

  lemma DedupIsNotAlwaysIdempotent()
    ensures Dedup(Dedup("a\r\r\n")) != Dedup("a\r\r\n")
  {
    var content := "a\r\r\n";
    assert content == "a\r\r" + ['\n'] + "";
    LinesOfLine("a\r\r", "");
    var lines := Lines(content);
    assert "a\r\r"[..2] == "a\r";
    assert lines == ["a\r"];
    assert Select(lines, FirstKeep(lines), 0) == [];
    assert Select(lines, FirstKeep(lines), 1) == ["a\r"] by {
      assert FirstOfItsKey(lines, 0);
    }
    assert DedupParts(content) == ["a\r", ""];
    DedupIdempotentIff(content);
  }

  // ---------------------------------------------------------------- structure

  function Backticks(): string { "```" }

  predicate IsFence(line: string) { Backticks() <= TrimStart(line) }

  /** Whether line `i` starts inside a fenced block: an odd number of fence lines before it. */
  predicate InFence(lines: seq<string>, i: nat)
    requires i <= |lines|
  {
    i > 0 && InFence(lines, i - 1) != IsFence(lines[i - 1])
  }

  predicate IsStructural(line: string) {
    var t := TrimStart(line);
    "#" <= t || "- " <= t || "* " <= t || ">" <= t
  }

  function StructuralKeep(lines: seq<string>): nat -> bool {
    (i: nat) => i < |lines| &&
      (IsFence(lines[i]) || InFence(lines, i) || IsStructural(lines[i]) || i == 0)
  }

  const MIN_STRUCTURED_LINES := 6

  function Structural(content: string): string {
    var lines := Lines(content);
    if |lines| < MIN_STRUCTURED_LINES then content
    else Join(Select(lines, StructuralKeep(lines), |lines|), '\n')
  }

  method StructuralExtractContent(content: string) returns (r: string)
    ensures r == Structural(content)
  {
    var lines := Lines(content);
    if |lines| < MIN_STRUCTURED_LINES {
      return content;
    }
    hide Lines, Join, IsFence, IsStructural;
    var out: seq<string> := [];
    var inFence := false;
    for i := 0 to |lines|
      invariant inFence == InFence(lines, i)
      invariant out == Select(lines, StructuralKeep(lines), i)
    {
      if IsFence(lines[i]) {
        inFence := !inFence;
        out := out + [lines[i]];
      } else if inFence || IsStructural(lines[i]) || i == 0 {
        out := out + [lines[i]];
      }
    }
    r := Join(out, '\n');
  }

  lemma StructuralNeverRaisesTheCount(content: string)
    ensures Count(Structural(content)) <= Count(content)
  {
    var lines := Lines(content);
    if |lines| >= MIN_STRUCTURED_LINES {
      SelectIsCheaper(lines, StructuralKeep(lines), |lines|);
      assert lines[..|lines|] == lines;
      CountLines(content);
      CountJoin(Select(lines, StructuralKeep(lines), |lines|), '\n');
    }
  }

  // ---------------------------------------------------------------- truncation

  function MarkerWords(kept: nat, total: nat): seq<string> {
    ["[" + "truncated" + ":", Decimal(kept)] + ["of", Decimal(total)]
    + ["estimated", "tokens"] + ["retained" + "]"]
  }

  function Marker(kept: nat, total: nat): string {
    "\n" + Join(MarkerWords(kept, total), ' ')
  }

  /** One token is reserved for the marker, and never fewer than none is kept. */
  function KeptWords(words: nat, maxTokens: nat): nat {
    Min(words, Max(maxTokens, 1) - 1)
  }

  function WithMarker(words: seq<string>, n: nat, total: nat): string
    requires n <= |words|
  {
    Join(words[..n], ' ') + Marker(n, total)
  }

  function Truncated(content: string, maxTokens: nat): string {
    if Count(content) <= maxTokens then content
    else WithMarker(Words(content), KeptWords(|Words(content)|, maxTokens), Count(content))
  }

  method TruncateToTokens(content: string, maxTokens: nat) returns (r: string)
    ensures r == Truncated(content, maxTokens)
  {
    var total := CountTokens(content);
    if total <= maxTokens {
      return content;
    }
    var words := Words(content);
    var kept: seq<string> := [];
    var tokens := 0;
    while tokens < |words| && tokens + 1 < maxTokens
      invariant tokens <= KeptWords(|words|, maxTokens)
      invariant kept == words[..tokens]
    {
      kept := kept + [words[tokens]];
      tokens := tokens + 1;
    }
    r := Join(kept, ' ') + Marker(tokens, total);
    assert tokens == KeptWords(|words|, maxTokens);
    assert r == WithMarker(words, tokens, total);
  }

  predicate IsAlnumWord(w: string) { w != "" && forall c :: c in w ==> IsAsciiAlnum(c) }

  lemma OneWord(w: string)
    requires IsAlnumWord(w)
    ensures Count(w) == 1
  {
    forall i | 0 <= i < |w| ensures Classify(w[i]) == Alnum { assert w[i] in w; }
    RunLengthIs(w, |w|);
    assert w[..|w|] == w && w[|w|..] == "";
  }

  lemma OneSymbol(c: char)
    ensures Count([c]) == match Classify(c) case Space => 0 case _ => 1
  {
    assert [c][..1] == [c] && [c][1..] == "";
    assert Bytes([c]) == Utf8Len(c) by { assert [c][1..] == ""; }
  }

  /** A word between white space or other symbols is counted on its own. */
  lemma CountBetween(a: string, w: string, b: string)
    requires a == "" || w == "" || Classify(a[|a| - 1]) != Classify(w[0])
    requires w == "" || b == "" || Classify(w[|w| - 1]) != Classify(b[0])
    requires w != ""
    ensures Count(a + w + b) == Count(a) + Count(w) + Count(b)
  {
    CountApart(a, w);
    CountApart(a + w, b);
  }

  lemma TruncatedIsAWord()
    ensures IsAlnumWord("truncated")
  {
  }

  lemma RetainedIsAWord()
    ensures IsAlnumWord("retained")
  {
  }

  lemma OtherMarkerWords()
    ensures IsAlnumWord("of") && IsAlnumWord("estimated") && IsAlnumWord("tokens")
  {
  }

  /** A word between punctuation or nothing adds one token. */
  lemma WordBetween(a: string, w: string, b: string)
    requires IsAlnumWord(w)
    requires a != "" ==> Classify(a[|a| - 1]) != Alnum
    requires b != "" ==> Classify(b[0]) != Alnum
    ensures Count(a + w + b) == Count(a) + 1 + Count(b)
  {
    assert w[0] in w && w[|w| - 1] in w;
    OneWord(w);
    CountBetween(a, w, b);
  }

  lemma MarkerEnds()
    ensures Count("[" + "truncated" + ":") == 3
    ensures Count("retained" + "]") == 2
  {
    OneSymbol('[');
    OneSymbol(':');
    OneSymbol(']');
    TruncatedIsAWord();
    RetainedIsAWord();
    WordBetween("[", "truncated", ":");
    WordBetween("", "retained", "]");
    assert "" + "retained" == "retained";
  }

  lemma PairCost(a: string, b: string)
    ensures SumCounts([a, b]) == Count(a) + Count(b)
  {
    SumCountsAppend([a], [b]);
    assert [a, b] == [a] + [b] && [a][1..] == [] && [b][1..] == [];
  }

  lemma MarkerWordsCost(kept: nat, total: nat)
    ensures SumCounts(MarkerWords(kept, total)) == 10
  {
    var d1, d2 := Decimal(kept), Decimal(total);
    MarkerEnds();
    OneWord(d1);
    OneWord(d2);
    OtherMarkerWords();
    OneWord("of");
    OneWord("estimated");
    OneWord("tokens");
    PairCost("[" + "truncated" + ":", d1);
    PairCost("of", d2);
    PairCost("estimated", "tokens");
    SumCountsAppend(["retained" + "]"], []);
    SumOfFour(["[" + "truncated" + ":", d1], ["of", d2], ["estimated", "tokens"], ["retained" + "]"]);
  }

  lemma SumOfFour(p: seq<string>, q: seq<string>, r: seq<string>, t: seq<string>)
    ensures SumCounts(p + q + r + t) == SumCounts(p) + SumCounts(q) + SumCounts(r) + SumCounts(t)
  {
    SumCountsAppend(p, q);
    SumCountsAppend(p + q, r);
    SumCountsAppend(p + q + r, t);
  }

  lemma MarkerCount(kept: nat, total: nat)
    ensures Count(Marker(kept, total)) == 10
    ensures Marker(kept, total)[0] == '\n'
  {
    var words := MarkerWords(kept, total);
    MarkerWordsCost(kept, total);
    CountJoin(words, ' ');
    CountDropsSpace("\n" + Join(words, ' '));
    assert ("\n" + Join(words, ' '))[1..] == Join(words, ' ');
  }

  /** Truncated text costs the words it kept and ten tokens of marker. */
  lemma TruncatedCount(content: string, maxTokens: nat)
    requires Count(content) > maxTokens
    ensures var words := Words(content);
            Count(Truncated(content, maxTokens)) ==
            SumCounts(words[..KeptWords(|words|, maxTokens)]) + 10
  {
    var words := Words(content);
    var n := KeptWords(|words|, maxTokens);
    MarkerCount(n, Count(content));
    CountNearlyAdditive(Join(words[..n], ' '), Marker(n, Count(content)));
    CountJoin(words[..n], ' ');
  }

  /** Text made of ASCII-alphanumeric words and white space. */
  predicate AlnumText(s: string) { forall c :: c in s ==> IsAsciiAlnum(c) || IsWhitespace(c) }

  lemma {:induction false} AlnumTextWords(s: string)
    requires AlnumText(s)
    ensures forall w :: w in Words(s) ==> IsAlnumWord(w)
  {
    if s != "" {
      if IsWhitespace(s[0]) {
        AlnumTextWords(s[1..]);
      } else {
        var n := WordLength(s);
        AlnumTextWords(s[n..]);
        assert IsAlnumWord(s[..n]);
      }
    }
  }

  lemma {:induction false} AlnumWordsCost(words: seq<string>)
    requires forall w :: w in words ==> IsAlnumWord(w)
    ensures SumCounts(words) == |words|
  {
    if words != [] {
      OneWord(words[0]);
      AlnumWordsCost(words[1..]);
    }
  }

  /** On such text the truncated output costs exactly the bound of its options. */
  lemma TruncatedAlnumCount(content: string, maxTokens: nat)
    requires AlnumText(content)
    ensures Count(Truncated(content, maxTokens)) ==
            if Count(content) <= maxTokens then Count(content) else Max(maxTokens, 1) + 9
  {
    if Count(content) > maxTokens {
      var words := Words(content);
      AlnumTextWords(content);
      CountWords(content);
      AlnumWordsCost(words);
      AlnumWordsCost(words[..KeptWords(|words|, maxTokens)]);
      TruncatedCount(content, maxTokens);
    }
  }

  // ---------------------------------------------------------------- what extraction keeps

  /** The fence lines among the first `n`. */
  function Fences(lines: seq<string>, n: nat): nat
    requires n <= |lines|
  {
    if n == 0 then 0 else Fences(lines, n - 1) + if "```" <= TrimStart(lines[n - 1]) then 1 else 0
  }

  /** A line that carries structure: the first one, a heading, a list item, a quotation, a
      fence, or anything inside a fenced block. */
  predicate Carries(lines: seq<string>, i: nat)
    requires i < |lines|
  {
    var t := TrimStart(lines[i]);
    || i == 0 || Fences(lines, i) % 2 == 1
    || "#" <= t || "- " <= t || "* " <= t || ">" <= t || "```" <= t
  }

  lemma {:induction false} InFenceIsOdd(lines: seq<string>, i: nat)
    requires i <= |lines|
    ensures InFence(lines, i) <==> Fences(lines, i) % 2 == 1
  {
    if i > 0 { InFenceIsOdd(lines, i - 1); }
  }

  lemma KeepIffCarries(lines: seq<string>, i: nat)
    requires i < |lines|
    ensures StructuralKeep(lines)(i) <==> Carries(lines, i)
  {
    InFenceIsOdd(lines, i);
  }

  /** The lines that are left of a text of six lines or more. */
  function StructuralParts(content: string): seq<string> {
    Select(Lines(content), StructuralKeep(Lines(content)), |Lines(content)|)
  }

  /** Short texts stay as they are; a longer one is left with exactly the lines that carry
      structure, in their order. */
  lemma StructuralKeepsWhatCarries(content: string)
    ensures var lines := Lines(content);
            && (|lines| < 6 ==> Structural(content) == content)
            && (|lines| >= 6 ==> Structural(content) == Join(StructuralParts(content), '\n'))
            && (forall i :: 0 <= i < |lines| && Carries(lines, i) ==>
                  var k := |Select(lines, StructuralKeep(lines), i)|;
                  k < |StructuralParts(content)| && StructuralParts(content)[k] == lines[i])
            && (forall x :: x in StructuralParts(content) ==>
                  exists i :: 0 <= i < |lines| && Carries(lines, i) && lines[i] == x)
  {
    var lines := Lines(content);
    var keep := StructuralKeep(lines);
    forall i | 0 <= i < |lines| && Carries(lines, i)
      ensures var k := |Select(lines, keep, i)|;
              k < |StructuralParts(content)| && StructuralParts(content)[k] == lines[i]
    {
      KeepIffCarries(lines, i);
      SelectAt(lines, keep, i, |lines|);
    }
    forall x | x in StructuralParts(content)
      ensures exists i :: 0 <= i < |lines| && Carries(lines, i) && lines[i] == x
    {
      SelectIn(lines, keep, |lines|, x);
      var i :| 0 <= i < |lines| && keep(i) && lines[i] == x;
      KeepIffCarries(lines, i);
    }
  }

  /** So every such line that is not empty can be read in the result, but for a carriage
      return at its end. */
  lemma CarryingLinesSurvive(content: string, i: nat)
    requires |Lines(content)| >= 6 && i < |Lines(content)|
    requires Carries(Lines(content), i) && Lines(content)[i] != ""
    ensures Lines(content)[i] in Lines(Structural(content)) || StripCr(Lines(content)[i]) in Lines(Structural(content))
  {
    var lines, parts := Lines(content), StructuralParts(content);
    StructuralKeepsWhatCarries(content);
    var k := |Select(lines, StructuralKeep(lines), i)|;
    LinesAreLineFree(content);
    forall x | x in parts ensures '\n' !in x { SelectIn(lines, StructuralKeep(lines), |lines|, x); }
    LinesOfJoin(parts);
    hide Lines, Structural, Carries;
    var back := DropEmptyLast(StripInner(parts));
    assert StripInner(parts)[k] == if k == |parts| - 1 then parts[k] else StripCr(parts[k]);
    assert k < |back| && back[k] == StripInner(parts)[k];
  }

  lemma InDropped(parts: seq<string>, x: string)
    requires x in DropEmptyLast(parts)
    ensures x in parts
  {
  }

  lemma InStripped(parts: seq<string>, x: string)
    requires x in StripInner(parts)
    ensures exists y :: y in parts && (x == y || x == StripCr(y))
  {
    var k :| 0 <= k < |StripInner(parts)| && StripInner(parts)[k] == x;
    assert parts[k] in parts;
  }

  /** And nothing else can: every line of the result is one that carries structure. */
  lemma OnlyCarryingLinesSurvive(content: string, x: string)
    requires |Lines(content)| >= 6 && x in Lines(Structural(content))
    ensures exists i :: 0 <= i < |Lines(content)| && Carries(Lines(content), i)
                        && (x == Lines(content)[i] || x == StripCr(Lines(content)[i]))
  {
    var lines, parts := Lines(content), StructuralParts(content);
    StructuralKeepsWhatCarries(content);
    LinesAreLineFree(content);
    forall y | y in parts ensures '\n' !in y { SelectIn(lines, StructuralKeep(lines), |lines|, y); }
    LinesOfJoin(parts);
    hide *;
    InDropped(StripInner(parts), x);
    InStripped(parts, x);
  }

  // ---------------------------------------------------------------- what truncation keeps

  lemma PairJoin(x: string, y: string)
    ensures Join([x, y], ' ') == x + " " + y
  {
    assert [x, y][1..] == [y];
  }

  /** Seven words in one line. */
  lemma SevenJoin(a: string, k: string, b: string, t: string, c: string, d: string, e: string)
    ensures Join([a, k] + [b, t] + [c, d] + [e], ' ') ==
            a + " " + k + " " + b + " " + t + " " + c + " " + d + " " + e
  {
    JoinConcat([a, k] + [b, t] + [c, d], [e], ' ');
    JoinConcat([a, k] + [b, t], [c, d], ' ');
    JoinConcat([a, k], [b, t], ' ');
    PairJoin(a, k);
    PairJoin(b, t);
    PairJoin(c, d);
    Glued(a, k, b, t, c, d, e);
  }

  lemma Glued(a: string, k: string, b: string, t: string, c: string, d: string, e: string)
    ensures (a + " " + k) + " " + (b + " " + t) + " " + (c + " " + d) + " " + e ==
            a + " " + k + " " + b + " " + t + " " + c + " " + d + " " + e
  {
  }

  lemma MarkerText(kept: nat, total: nat)
    ensures Marker(kept, total) ==
            "\n" + ("[truncated:" + " " + Decimal(kept) + " " + "of" + " " + Decimal(total) + " "
                    + "estimated" + " " + "tokens" + " " + "retained]")
  {
    hide Join;
    assert "[" + "truncated" + ":" == "[truncated:";
    assert "retained" + "]" == "retained]";
    SevenJoin("[truncated:", Decimal(kept), "of", Decimal(total), "estimated", "tokens", "retained]");
  }

  /** Truncated text is the first words, one fewer than the limit and no more than there are,
      one space apart, and a line that says how many of how many tokens they are. */
  lemma TruncatedIs(content: string, maxTokens: nat)
    ensures var words := Words(content);
            var n := Min(|words|, if maxTokens == 0 then 0 else maxTokens - 1);
            Truncated(content, maxTokens) ==
            if Count(content) <= maxTokens then content
            else Join(words[..n], ' ') +
                 ("\n" + ("[truncated:" + " " + Decimal(n) + " " + "of" + " " + Decimal(Count(content)) + " "
                          + "estimated" + " " + "tokens" + " " + "retained]"))
  {
    hide Join, Words, Decimal, Count;
    var words := Words(content);
    MarkerText(KeptWords(|words|, maxTokens), Count(content));
  }

  // ---------------------------------------------------------------- the pipeline

  function StructureStage(content: string, options: CompressOptions): string {
    var deduped := if options.dedupLines then Dedup(content) else content;
    if options.structural then Structural(deduped) else deduped
  }

  function CompressedText(content: string, options: CompressOptions): string {
    var text := StructureStage(content, options);
    if options.truncate then Truncated(text, options.maxTokens) else text
  }

  lemma FitsUntouched(content: string, maxTokens: nat)
    ensures Count(content) <= maxTokens ==> Truncated(content, maxTokens) == content
  {
  }

  function Listed(strategy: Strategy, here: bool): seq<Strategy> { if here then [strategy] else [] }

  /** The stages that changed the text, in their order. */
  function AppliedStrategies(content: string, options: CompressOptions): seq<Strategy> {
    var deduped := if options.dedupLines then Dedup(content) else content;
    var structured, text := StructureStage(content, options), CompressedText(content, options);
    Listed(DedupLines, deduped != content) + Listed(StructuralExtract, structured != deduped)
    + Listed(Truncate, text != structured)
  }

  /** A text that no stage changed is returned as it is, and only then is nothing listed. */
  lemma NothingListedIff(content: string, options: CompressOptions)
    ensures AppliedStrategies(content, options) == [] ==> CompressedText(content, options) == content
    ensures DedupLines in AppliedStrategies(content, options) <==> options.dedupLines && Dedup(content) != content
    ensures StructuralExtract in AppliedStrategies(content, options) <==>
            StructureStage(content, options) != if options.dedupLines then Dedup(content) else content
    ensures Truncate in AppliedStrategies(content, options) <==>
            CompressedText(content, options) != StructureStage(content, options)
  {
    var deduped := if options.dedupLines then Dedup(content) else content;
    var structured, text := StructureStage(content, options), CompressedText(content, options);
    assert DedupLines in Listed(DedupLines, deduped != content) <==> deduped != content;
    assert StructuralExtract in Listed(StructuralExtract, structured != deduped) <==> structured != deduped;
    assert Truncate in Listed(Truncate, text != structured) <==> text != structured;
  }

  method Compress(content: string, options: CompressOptions) returns (r: Compressed)
    ensures r.content == CompressedText(content, options)
    ensures r.tokenCount == Count(r.content) && r.originalTokens == Count(content)
    ensures r.tokensSaved == SatSub(r.originalTokens, r.tokenCount)
    ensures r.strategies == AppliedStrategies(content, options)
  {
    hide Count, Dedup, Structural, Truncated;
    var originalTokens := CountTokens(content);
    var strategies: seq<Strategy> := [];
    var current := content;
    if options.dedupLines {
      var deduped := DedupContent(current);
      if deduped != current {
        current := deduped;
        strategies := strategies + [DedupLines];
      }
    }
    if options.structural {
      var extracted := StructuralExtractContent(current);
      if extracted != current {
        current := extracted;
        strategies := strategies + [StructuralExtract];
      }
    }
    if options.truncate {
      var n := CountTokens(current);
      FitsUntouched(current, options.maxTokens);
      if n > options.maxTokens {
        var truncated := TruncateToTokens(current, options.maxTokens);
        if truncated != current {
          current := truncated;
          strategies := strategies + [Truncate];
        }
      }
    }
    var tokenCount := CountTokens(current);
    r := Compressed(current, tokenCount, originalTokens, SatSub(originalTokens, tokenCount), strategies);
  }

  lemma {:induction false} AlnumTextJoin(parts: seq<string>, sep: char)
    requires IsWhitespace(sep) && forall p :: p in parts ==> AlnumText(p)
    ensures AlnumText(Join(parts, sep))
  {
    if |parts| == 1 {
      assert parts[0] in parts;
    } else if |parts| > 1 {
      assert parts[0] in parts;
      AlnumTextJoin(parts[1..], sep);
    }
  }

  lemma {:induction false} AlnumTextLines(s: string)
    requires AlnumText(s)
    ensures forall x :: x in Lines(s) ==> AlnumText(x)
  {
    var k := IndexOf(s, '\n');
    if s != "" && k < |s| { AlnumTextLines(s[k + 1..]); }
  }

  lemma AlnumTextSelect(s: string, keep: nat -> bool)
    requires AlnumText(s)
    ensures var lines := Lines(s);
            forall x :: x in Select(lines, keep, |lines|) ==> AlnumText(x)
  {
    var lines := Lines(s);
    AlnumTextLines(s);
    forall x | x in Select(lines, keep, |lines|) ensures AlnumText(x) {
      SelectIn(lines, keep, |lines|, x);
    }
  }

  lemma AlnumTextStages(content: string)
    requires AlnumText(content)
    ensures AlnumText(Dedup(content)) && AlnumText(Structural(content))
  {
    var lines := Lines(content);
    AlnumTextSelect(content, FirstKeep(lines));
    AlnumTextSelect(content, StructuralKeep(lines));
    AlnumTextJoin(DedupParts(content), '\n');
    AlnumTextJoin(Select(lines, StructuralKeep(lines), |lines|), '\n');
  }

  /** The first two stages never cost tokens; on alphanumeric text the whole pipeline
      ends at most nine tokens over its target, marker included. */
  lemma CompressionBounds(content: string, options: CompressOptions)
    ensures Count(StructureStage(content, options)) <= Count(content)
    ensures AlnumText(content) && options.truncate ==>
              Count(CompressedText(content, options)) <=
              if Count(content) <= options.maxTokens then Count(content)
              else Max(options.maxTokens, 1) + 9
  {
    var deduped := if options.dedupLines then Dedup(content) else content;
    DedupNeverRaisesTheCount(content);
    StructuralNeverRaisesTheCount(deduped);
    if AlnumText(content) && options.truncate {
      AlnumTextStages(content);
      AlnumTextStages(deduped);
      TruncatedAlnumCount(StructureStage(content, options), options.maxTokens);
    }
  }
}
