/**
  Path normalisation and component lists: `normalize_forward_slash` and
  `path_prefix_matches` (src/core/policy.rs), `normalize_relative`
  (src/core/fs_coordination.rs). The programs work character by character; the reference
  is the list of non-empty components.
 */
module Paths {
  import opened Text

  const SLASH: set<char> := {'/'}
  const SLASHES: set<char> := {'/', '\\'}

  function IndexOfAny(s: string, seps: set<char>): (k: nat)
    ensures k <= |s|
    ensures k < |s| ==> s[k] in seps
    ensures forall i :: 0 <= i < k ==> s[i] !in seps
  {
    if s == "" || s[0] in seps then 0 else 1 + IndexOfAny(s[1..], seps)
  }

  /** `str::split`: one piece more than there are separators. */
  function Split(s: string, seps: set<char>): (pieces: seq<string>)
    ensures pieces != []
    decreases |s|
  {
    var k := IndexOfAny(s, seps);
    if k == |s| then [s] else [s[..k]] + Split(s[k + 1..], seps)
  }

  function NonEmpty(pieces: seq<string>): seq<string> {
    if pieces == [] then []
    else (if pieces[0] == "" then [] else [pieces[0]]) + NonEmpty(pieces[1..])
  }

  function Components(path: string, seps: set<char>): seq<string> { NonEmpty(Split(path, seps)) }

  function SlashComponents(path: string): seq<string> { Components(path, SLASH) }

  function DropDots(pieces: seq<string>): seq<string> {
    if pieces == [] then []
    else (if pieces[0] == "." then [] else [pieces[0]]) + DropDots(pieces[1..])
  }

  /** The components a lock key keeps: both separators split, `.` is dropped. */
  function KeyComponents(path: string): seq<string> { DropDots(Components(path, SLASHES)) }

  function NormalizedPath(path: string): string { Join(SlashComponents(path), '/') }

  function NormalizedKey(path: string): string { Join(KeyComponents(path), '/') }

  // ---------------------------------------------------------------- splitting

  predicate SepFree(s: string, seps: set<char>) { forall c :: c in s ==> c !in seps }

  predicate Proper(pieces: seq<string>, seps: set<char>) {
    forall i :: 0 <= i < |pieces| ==> pieces[i] != "" && SepFree(pieces[i], seps)
  }

  lemma {:induction false} IndexOfAnyIs(s: string, seps: set<char>, k: nat)
    requires k <= |s| && SepFree(s[..k], seps) && (k < |s| ==> s[k] in seps)
    ensures IndexOfAny(s, seps) == k
  {
    if k > 0 {
      assert s[0] == s[..k][0];
      assert s[1..][..k - 1] == s[..k][1..];
      IndexOfAnyIs(s[1..], seps, k - 1);
    }
  }

  lemma SplitSepFree(s: string, seps: set<char>)
    requires SepFree(s, seps)
    ensures Split(s, seps) == [s]
  {
    assert s[..|s|] == s;
    IndexOfAnyIs(s, seps, |s|);
  }

  lemma {:induction false} SplitAt(x: string, sep: char, y: string, seps: set<char>)
    requires sep in seps
    ensures Split(x + [sep] + y, seps) == Split(x, seps) + Split(y, seps)
    decreases |x|
  {
    var s, k := x + [sep] + y, IndexOfAny(x, seps);
    assert s[..k] == x[..k];
    IndexOfAnyIs(s, seps, k);
    if k == |x| {
      assert s[k + 1..] == y && x[..k] == x;
    } else {
      assert s[k + 1..] == x[k + 1..] + [sep] + y;
      SplitAt(x[k + 1..], sep, y, seps);
      assert [x[..k]] + (Split(x[k + 1..], seps) + Split(y, seps))
          == ([x[..k]] + Split(x[k + 1..], seps)) + Split(y, seps);
    }
  }

  lemma {:induction false} NonEmptyConcat(a: seq<string>, b: seq<string>)
    ensures NonEmpty(a + b) == NonEmpty(a) + NonEmpty(b)
  {
    if a == [] {
      assert a + b == b;
    } else {
      NonEmptyConcat(a[1..], b);
      assert (a + b)[1..] == a[1..] + b && (a + b)[0] == a[0];
      var first := NonEmpty([a[0]]);
      OnlyPiece(a[0]);
      assert NonEmpty(a) == first + NonEmpty(a[1..]);
      assert NonEmpty(a + b) == first + NonEmpty(a[1..] + b);
      assert first + (NonEmpty(a[1..]) + NonEmpty(b)) == (first + NonEmpty(a[1..])) + NonEmpty(b);
    }
  }

  lemma ComponentsAt(x: string, sep: char, y: string, seps: set<char>)
    requires sep in seps
    ensures Components(x + [sep] + y, seps) == Components(x, seps) + Components(y, seps)
  {
    SplitAt(x, sep, y, seps);
    NonEmptyConcat(Split(x, seps), Split(y, seps));
  }

  lemma OnlyPiece(p: string)
    ensures NonEmpty([p]) == if p == "" then [] else [p]
    ensures DropDots([p]) == if p == "." then [] else [p]
  {
    assert [p][1..] == [] && [p] + [] == [p];
    assert NonEmpty([]) == [] && DropDots([]) == [];
  }

  lemma OneComponent(s: string, seps: set<char>)
    requires SepFree(s, seps)
    ensures Components(s, seps) == if s == "" then [] else [s]
  {
    SplitSepFree(s, seps);
    OnlyPiece(s);
  }

  lemma {:induction false} ComponentsOfJoin(pieces: seq<string>, seps: set<char>)
    requires '/' in seps && Proper(pieces, seps)
    ensures Components(Join(pieces, '/'), seps) == pieces
  {
    if pieces == [] {
      OneComponent("", seps);
    } else if |pieces| == 1 {
      OneComponent(pieces[0], seps);
    } else {
      ComponentsOfJoin(pieces[1..], seps);
      ComponentsAt(pieces[0], '/', Join(pieces[1..], '/'), seps);
      OneComponent(pieces[0], seps);
    }
  }

  lemma {:induction false} SplitPiecesSepFree(s: string, seps: set<char>)
    ensures forall p :: p in Split(s, seps) ==> SepFree(p, seps)
    decreases |s|
  {
    var k := IndexOfAny(s, seps);
    if k < |s| { SplitPiecesSepFree(s[k + 1..], seps); }
  }

  lemma {:induction false} NonEmptyIn(pieces: seq<string>)
    ensures forall i :: 0 <= i < |NonEmpty(pieces)| ==> NonEmpty(pieces)[i] != "" && NonEmpty(pieces)[i] in pieces
    ensures forall p :: p in pieces && p != "" ==> p in NonEmpty(pieces)
  {
    if pieces != [] { NonEmptyIn(pieces[1..]); }
  }

  lemma ComponentsProper(path: string, seps: set<char>)
    ensures Proper(Components(path, seps), seps)
  {
    SplitPiecesSepFree(path, seps);
    NonEmptyIn(Split(path, seps));
  }

  lemma {:induction false} DropDotsIn(pieces: seq<string>)
    ensures forall i :: 0 <= i < |DropDots(pieces)| ==> DropDots(pieces)[i] != "." && DropDots(pieces)[i] in pieces
    ensures "." !in pieces ==> DropDots(pieces) == pieces
  {
    if pieces != [] { DropDotsIn(pieces[1..]); }
  }

  lemma KeyComponentsProper(path: string)
    ensures Proper(KeyComponents(path), SLASHES) && "." !in KeyComponents(path)
  {
    ComponentsProper(path, SLASHES);
    DropDotsIn(Components(path, SLASHES));
  }

  // ---------------------------------------------------------------- the normalisers

  /** A normal form has exactly the components it was made of, so two normal forms are
      equal exactly when the component lists are, and normalising again changes nothing. */
  lemma NormalizedPathComponents(path: string, other: string)
    ensures SlashComponents(NormalizedPath(path)) == SlashComponents(path)
    ensures NormalizedPath(NormalizedPath(path)) == NormalizedPath(path)
    ensures NormalizedPath(path) == NormalizedPath(other) <==>
            SlashComponents(path) == SlashComponents(other)
  {
    ComponentsProper(path, SLASH);
    ComponentsProper(other, SLASH);
    ComponentsOfJoin(SlashComponents(path), SLASH);
    ComponentsOfJoin(SlashComponents(other), SLASH);
  }

  lemma NormalizedKeyComponents(path: string, other: string)
    ensures KeyComponents(NormalizedKey(path)) == KeyComponents(path)
    ensures NormalizedKey(NormalizedKey(path)) == NormalizedKey(path)
    ensures NormalizedKey(path) == NormalizedKey(other) <==>
            KeyComponents(path) == KeyComponents(other)
  {
    KeyComponentsProper(path);
    KeyComponentsProper(other);
    ComponentsOfJoin(KeyComponents(path), SLASHES);
    ComponentsOfJoin(KeyComponents(other), SLASHES);
    DropDotsIn(KeyComponents(path));
    DropDotsIn(KeyComponents(other));
  }

  lemma {:induction false} SplitWithoutBackslash(s: string)
    requires '\\' !in s
    ensures Split(s, SLASHES) == Split(s, SLASH)
    decreases |s|
  {
    var k := IndexOfAny(s, SLASH);
    IndexOfAnyIs(s, SLASHES, k);
    if k < |s| { SplitWithoutBackslash(s[k + 1..]); }
  }

  lemma {:induction false} CharInJoin(pieces: seq<string>, c: char)
    requires c != '/'
    ensures c in Join(pieces, '/') <==> exists i :: 0 <= i < |pieces| && c in pieces[i]
  {
    if |pieces| > 1 {
      CharInJoin(pieces[1..], c);
      if i :| 0 <= i < |pieces| && c in pieces[i] {
        assert i > 0 ==> c in pieces[1..][i - 1];
      }
    }
  }

  lemma {:induction false} CharInSplit(s: string, c: char) returns (i: nat)
    requires c in s && c != '/'
    ensures i < |Split(s, SLASH)| && c in Split(s, SLASH)[i]
    decreases |s|
  {
    var k := IndexOfAny(s, SLASH);
    if k == |s| || c in s[..k] {
      i := 0;
    } else {
      assert s == s[..k] + [s[k]] + s[k + 1..];
      i := CharInSplit(s[k + 1..], c);
      i := i + 1;
    }
  }

  lemma BackslashesSeparate(path: string)
    requires '\\' in path
    ensures NormalizedPath(path) != NormalizedKey(path)
  {
    var i := CharInSplit(path, '\\');
    var piece := Split(path, SLASH)[i];
    NonEmptyIn(Split(path, SLASH));
    assert piece in SlashComponents(path);
    CharInJoin(SlashComponents(path), '\\');
    KeyComponentsProper(path);
    CharInJoin(KeyComponents(path), '\\');
  }

  /** The policy's and the lock key's normal forms agree exactly on the paths without
      backslashes and without `.` components. */
  lemma NormalisersAgreeIff(path: string)
    ensures NormalizedPath(path) == NormalizedKey(path) <==>
            '\\' !in path && "." !in SlashComponents(path)
  {
    if '\\' in path {
      BackslashesSeparate(path);
    } else {
      SplitWithoutBackslash(path);
      DropDotsIn(SlashComponents(path));
      KeyComponentsProper(path);
      ComponentsProper(path, SLASH);
      ComponentsOfJoin(SlashComponents(path), SLASH);
      assert Proper(KeyComponents(path), SLASH);
      ComponentsOfJoin(KeyComponents(path), SLASH);
    }
  }

  method NormalizeRelative(relative: string) returns (out: string)
    ensures out == NormalizedKey(relative)
  {
    out := "";
    var pieces := Split(relative, SLASHES);
    for i := 0 to |pieces|
      invariant out == Join(DropDots(NonEmpty(pieces[..i])), '/')
      invariant Proper(DropDots(NonEmpty(pieces[..i])), {})
    {
      KeptAppend(pieces[..i], pieces[i]);
      assert pieces[..i + 1] == pieces[..i] + [pieces[i]];
      JoinAppend(DropDots(NonEmpty(pieces[..i])), pieces[i]);
      if pieces[i] != "" && pieces[i] != "." {
        if out != "" {
          out := out + "/";
        }
        out := out + pieces[i];
      }
    }
    assert pieces[..|pieces|] == pieces;
  }

  lemma {:induction false} DropDotsConcat(a: seq<string>, b: seq<string>)
    ensures DropDots(a + b) == DropDots(a) + DropDots(b)
  {
    if a == [] {
      assert a + b == b;
    } else {
      DropDotsConcat(a[1..], b);
      assert (a + b)[1..] == a[1..] + b && (a + b)[0] == a[0];
      var first := DropDots([a[0]]);
      OnlyPiece(a[0]);
      assert DropDots(a) == first + DropDots(a[1..]);
      assert DropDots(a + b) == first + DropDots(a[1..] + b);
      assert first + (DropDots(a[1..]) + DropDots(b)) == (first + DropDots(a[1..])) + DropDots(b);
    }
  }

  lemma KeptAppend(pieces: seq<string>, p: string)
    ensures DropDots(NonEmpty(pieces + [p])) ==
            if p == "" || p == "." then DropDots(NonEmpty(pieces)) else DropDots(NonEmpty(pieces)) + [p]
  {
    NonEmptyConcat(pieces, [p]);
    OnlyPiece(p);
    DropDotsConcat(NonEmpty(pieces), NonEmpty([p]));
    assert NonEmpty(pieces) + [] == NonEmpty(pieces);
    assert DropDots(NonEmpty(pieces)) + [] == DropDots(NonEmpty(pieces));
  }

  /** Joining one more component, given that components are not empty. */
  lemma JoinAppend(pieces: seq<string>, p: string)
    requires Proper(pieces, {})
    ensures Join(pieces + [p], '/') == if pieces == [] then p else Join(pieces, '/') + "/" + p
    ensures Join(pieces, '/') == "" <==> pieces == []
  {
    if pieces == [] {
      assert pieces + [p] == [p];
    } else {
      JoinConcat(pieces, [p], '/');
      assert |pieces| > 1 ==> |Join(pieces, '/')| >= |pieces[0]|;
    }
  }

  function AllButLast(pieces: seq<string>): seq<string>
    requires pieces != []
  {
    pieces[..|pieces| - 1]
  }

  function Last(pieces: seq<string>): string
    requires pieces != []
  {
    pieces[|pieces| - 1]
  }

  lemma LastOfCons(x: string, rest: seq<string>)
    requires rest != []
    ensures AllButLast([x] + rest) == [x] + AllButLast(rest) && Last([x] + rest) == Last(rest)
  {
  }

  lemma SplitCons(s: string, seps: set<char>)
    requires IndexOfAny(s, seps) < |s|
    ensures var k := IndexOfAny(s, seps);
            Split(s, seps) == [s[..k]] + Split(s[k + 1..], seps)
  {
  }

  lemma {:induction false} SplitEndsEmpty(s: string)
    ensures Last(Split(s, SLASH)) == "" <==> s == "" || s[|s| - 1] == '/'
    decreases |s|
  {
    var k := IndexOfAny(s, SLASH);
    if k == |s| {
      SplitSepFree(s, SLASH);
    } else {
      SplitCons(s, SLASH);
      LastOfCons(s[..k], Split(s[k + 1..], SLASH));
      SplitEndsEmpty(s[k + 1..]);
    }
  }

  lemma SplitAppendStep(s: string, c: char)
    requires c !in SLASH && IndexOfAny(s, SLASH) < |s|
    ensures var k := IndexOfAny(s, SLASH);
            Split(s + [c], SLASH) == [s[..k]] + Split(s[k + 1..] + [c], SLASH)
  {
    hide Split;
    var k, sc := IndexOfAny(s, SLASH), s + [c];
    assert sc[..k] == s[..k] && sc[k + 1..] == s[k + 1..] + [c];
    IndexOfAnyIs(sc, SLASH, k);
    SplitCons(sc, SLASH);
  }

  /** Reading one more character extends the last piece of a split text. */
  lemma {:induction false} SplitAppend(s: string, c: char)
    requires c !in SLASH
    ensures Split(s + [c], SLASH) == AllButLast(Split(s, SLASH)) + [Last(Split(s, SLASH)) + [c]]
    decreases |s|
  {
    hide Split;
    var k := IndexOfAny(s, SLASH);
    if k == |s| {
      SplitSepFree(s, SLASH);
      SplitSepFree(s + [c], SLASH);
    } else {
      var rest := Split(s[k + 1..], SLASH);
      SplitAppendStep(s, c);
      SplitAppend(s[k + 1..], c);
      SplitCons(s, SLASH);
      LastOfCons(s[..k], rest);
      AppendAssoc([s[..k]], AllButLast(rest), [Last(rest) + [c]]);
    }
  }

  lemma AppendAssoc(a: seq<string>, b: seq<string>, c: seq<string>)
    ensures a + (b + c) == (a + b) + c
  {
  }

  lemma ComponentsAppend(s: string, c: char)
    requires c !in SLASH
    ensures var before := SlashComponents(s);
            if s == "" || s[|s| - 1] == '/' then SlashComponents(s + [c]) == before + [[c]]
            else before != [] && SlashComponents(s + [c]) == AllButLast(before) + [Last(before) + [c]]
  {
    SplitAppend(s, c);
    SplitEndsEmpty(s);
    var pieces := Split(s, SLASH);
    var front, last := AllButLast(pieces), Last(pieces);
    assert pieces == front + [last];
    NonEmptyConcat(front, [last]);
    NonEmptyConcat(front, [last + [c]]);
    OnlyPiece(last);
    OnlyPiece(last + [c]);
    if last == "" {
      assert NonEmpty(front) + [] == NonEmpty(front) && last + [c] == [c];
    }
  }

  lemma {:induction false} JoinExtendLast(pieces: seq<string>, c: char)
    requires pieces != []
    ensures Join(AllButLast(pieces) + [Last(pieces) + [c]], '/') == Join(pieces, '/') + [c]
  {
    var n := |pieces| - 1;
    if n > 0 {
      assert pieces == pieces[..n] + [pieces[n]];
      JoinConcat(pieces[..n], [pieces[n]], '/');
      JoinConcat(pieces[..n], [pieces[n] + [c]], '/');
    }
  }

  method NormalizeForwardSlash(path: string) returns (out: string)
    ensures out == NormalizedPath(path)
  {
    out := "";
    var lastWasSlash := false;
    OneComponent("", SLASH);
    for i := 0 to |path|
      invariant lastWasSlash == (i > 0 && path[i - 1] == '/')
      invariant out == NormalizedPath(path[..i])
    {
      var ch, done := path[i], path[..i];
      assert path[..i + 1] == done + [ch];
      if ch == '/' {
        assert done + [ch] == done + ['/'] + "";
        ComponentsAt(done, '/', "", SLASH);
        OneComponent("", SLASH);
        assert SlashComponents(done) + [] == SlashComponents(done);
        lastWasSlash := true;
      } else {
        ComponentsProper(done, SLASH);
        ComponentsAppend(done, ch);
        JoinAppend(SlashComponents(done), [ch]);
        if SlashComponents(done) != [] { JoinExtendLast(SlashComponents(done), ch); }
        if done == "" { OneComponent("", SLASH); }
        if lastWasSlash && out != "" {
          out := out + "/";
        }
        lastWasSlash := false;
        out := out + [ch];
      }
    }
    assert path[..|path|] == path;
  }

  // ---------------------------------------------------------------- prefix matching

  predicate PathPrefixMatches(pattern: string, resource: string) {
    var p, r := NormalizedPath(pattern), NormalizedPath(resource);
    p != "" && (r == p || p + "/" <= r)
  }

  lemma PrefixSplits(p: string, r: string)
    requires p + "/" <= r
    ensures SlashComponents(p) <= SlashComponents(r)
  {
    var rest := r[|p| + 1..];
    assert r == p + ['/'] + rest;
    ComponentsAt(p, '/', rest, SLASH);
  }

  /** The string test holds exactly when the pattern's components are a non-empty prefix of
      the resource's components. */
  lemma PrefixMatchIsComponentPrefix(pattern: string, resource: string)
    ensures PathPrefixMatches(pattern, resource) <==>
            SlashComponents(pattern) != [] && SlashComponents(pattern) <= SlashComponents(resource)
  {
    var a, b := SlashComponents(pattern), SlashComponents(resource);
    var p, r := NormalizedPath(pattern), NormalizedPath(resource);
    ComponentsProper(pattern, SLASH);
    ComponentsProper(resource, SLASH);
    ComponentsOfJoin(a, SLASH);
    ComponentsOfJoin(b, SLASH);
    if p + "/" <= r { PrefixSplits(p, r); }
    if a != [] && a <= b && a != b {
      assert b == a + b[|a|..];
      JoinConcat(a, b[|a|..], '/');
    }
  }

  /** A pattern that matches a path matches everything below it. */
  lemma MatchCoversSubtree(pattern: string, resource: string, below: string)
    requires PathPrefixMatches(pattern, resource)
    ensures PathPrefixMatches(pattern, resource + "/" + below)
  {
    PrefixMatchIsComponentPrefix(pattern, resource);
    ComponentsAt(resource, '/', below, SLASH);
    assert resource + "/" + below == resource + ['/'] + below;
    PrefixMatchIsComponentPrefix(pattern, resource + "/" + below);
  }
}
