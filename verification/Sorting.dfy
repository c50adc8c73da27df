/** The stable sort of Rust's standard library, as a function of a comparison. */
module Sorting {
  /** Puts `x` before the first element it does not exceed. */
  function Insert<T>(x: T, s: seq<T>, le: (T, T) -> bool): seq<T> {
    if s == [] then [x]
    else if le(x, s[0]) then [x] + s
    else [s[0]] + Insert(x, s[1..], le)
  }

  function Sort<T>(s: seq<T>, le: (T, T) -> bool): seq<T> {
    if s == [] then [] else Insert(s[0], Sort(s[1..], le), le)
  }

  ghost predicate Sorted<T>(s: seq<T>, le: (T, T) -> bool) {
    forall i, j :: 0 <= i < j < |s| ==> le(s[i], s[j])
  }

  /** The comparison is a total preorder on the elements of a collection. */
  ghost predicate Preorder<T(!new)>(s: multiset<T>, le: (T, T) -> bool) {
    && (forall x, y :: x in s && y in s ==> le(x, y) || le(y, x))
    && (forall x, y, z :: x in s && y in s && z in s && le(x, y) && le(y, z) ==> le(x, z))
  }

  ghost predicate Antisymmetric<T(!new)>(s: multiset<T>, le: (T, T) -> bool) {
    forall x, y :: x in s && y in s && le(x, y) && le(y, x) ==> x == y
  }

  lemma {:induction false} InsertElements<T>(x: T, s: seq<T>, le: (T, T) -> bool)
    ensures multiset(Insert(x, s, le)) == multiset(s) + multiset{x}
  {
    if s != [] && !le(x, s[0]) {
      InsertElements(x, s[1..], le);
      assert s == [s[0]] + s[1..];
    }
  }

  lemma {:induction false} SortElements<T>(s: seq<T>, le: (T, T) -> bool)
    ensures multiset(Sort(s, le)) == multiset(s)
    ensures |Sort(s, le)| == |s|
  {
    if s != [] {
      SortElements(s[1..], le);
      InsertElements(s[0], Sort(s[1..], le), le);
      assert s == [s[0]] + s[1..];
    }
    assert |multiset(Sort(s, le))| == |multiset(s)|;
  }

  /** An element that precedes the head of a sorted list precedes all of it. */
  lemma HeadBelow<T(!new)>(x: T, s: seq<T>, le: (T, T) -> bool, m: multiset<T>)
    requires Sorted(s, le) && Preorder(m, le) && x in m && multiset(s) <= m
    requires s != [] && le(x, s[0])
    ensures forall y :: y in s ==> le(x, y)
  {
    forall y | y in s ensures le(x, y) {
      var j :| 0 <= j < |s| && s[j] == y;
      assert s[0] in multiset(s) && s[j] in multiset(s);
      assert j > 0 ==> le(s[0], s[j]);
    }
  }

  lemma SortedCons<T(!new)>(x: T, s: seq<T>, le: (T, T) -> bool)
    requires Sorted(s, le) && forall y :: y in s ==> le(x, y)
    ensures Sorted([x] + s, le)
  {
  }

  lemma {:induction false} InsertSorted<T(!new)>(x: T, s: seq<T>, le: (T, T) -> bool, m: multiset<T>)
    requires Sorted(s, le) && Preorder(m, le) && x in m && multiset(s) <= m
    ensures Sorted(Insert(x, s, le), le)
  {
    if s != [] {
      assert s[0] in multiset(s);
      if le(x, s[0]) {
        HeadBelow(x, s, le, m);
        SortedCons(x, s, le);
      } else {
        var rest := Insert(x, s[1..], le);
        assert s == [s[0]] + s[1..];
        InsertSorted(x, s[1..], le, m);
        InsertElements(x, s[1..], le);
        forall y | y in rest ensures le(s[0], y) {
          assert y in multiset(rest);
          if y != x {
            assert y in s[1..];
          }
        }
        SortedCons(s[0], rest, le);
      }
    }
  }

  lemma {:induction false} SortIsSorted<T(!new)>(s: seq<T>, le: (T, T) -> bool)
    requires Preorder(multiset(s), le)
    ensures Sorted(Sort(s, le), le)
  {
    if s != [] {
      assert s == [s[0]] + s[1..];
      SortIsSorted(s[1..], le);
      SortElements(s[1..], le);
      InsertSorted(s[0], Sort(s[1..], le), le, multiset(s));
    }
  }

  lemma SortedHeadsAgree<T(!new)>(a: seq<T>, b: seq<T>, le: (T, T) -> bool)
    requires multiset(a) == multiset(b) && a != [] && b != []
    requires Sorted(a, le) && Sorted(b, le) && Antisymmetric(multiset(a), le)
    ensures a[0] == b[0]
  {
    assert a[0] in multiset(a) && b[0] in multiset(b);
    var i :| 0 <= i < |b| && b[i] == a[0];
    var j :| 0 <= j < |a| && a[j] == b[0];
    if i > 0 && j > 0 {
      assert le(b[0], b[i]) && le(a[0], a[j]);
    }
  }

  /** A sorted arrangement is unique when no two elements tie. */
  lemma {:induction false} SortedIsUnique<T(!new)>(a: seq<T>, b: seq<T>, le: (T, T) -> bool)
    requires multiset(a) == multiset(b)
    requires Sorted(a, le) && Sorted(b, le) && Antisymmetric(multiset(a), le)
    ensures a == b
  {
    assert |a| == |multiset(a)| == |multiset(b)| == |b|;
    if a != [] {
      SortedHeadsAgree(a, b, le);
      assert a == [a[0]] + a[1..] && b == [b[0]] + b[1..];
      assert multiset(a[1..]) == multiset(a) - multiset{a[0]} == multiset(b[1..]);
      SortedTail(a, le);
      SortedTail(b, le);
      SortedIsUnique(a[1..], b[1..], le);
    }
  }

  lemma SortedTail<T(!new)>(a: seq<T>, le: (T, T) -> bool)
    requires a != [] && Sorted(a, le)
    ensures Sorted(a[1..], le)
    ensures Antisymmetric(multiset(a), le) ==> Antisymmetric(multiset(a[1..]), le)
  {
    assert a == [a[0]] + a[1..];
  }
}
