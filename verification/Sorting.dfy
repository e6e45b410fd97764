/** The library sort the code relies on: stable insertion by a total preorder. */
module Sorting {

  ghost predicate TotalPreorder<T(!new)>(le: (T, T) -> bool) {
    && (forall a, b :: le(a, b) || le(b, a))
    && (forall a, b, c :: le(a, b) && le(b, c) ==> le(a, c))
  }

  predicate Ordered<T(!new)>(s: seq<T>, le: (T, T) -> bool) {
    forall i, j | 0 <= i < j < |s| :: le(s[i], s[j])
  }

  /** Inserts `x` after everything it does not come strictly before. */
  function InsertBy<T>(x: T, s: seq<T>, le: (T, T) -> bool): seq<T> {
    if s == [] || !le(s[0], x) then [x] + s else [s[0]] + InsertBy(x, s[1..], le)
  }

  function SortBy<T>(s: seq<T>, le: (T, T) -> bool): seq<T> {
    if s == [] then [] else InsertBy(s[|s| - 1], SortBy(s[..|s| - 1], le), le)
  }

  lemma Transitive<T(!new)>(le: (T, T) -> bool, a: T, b: T, c: T)
    requires TotalPreorder(le) && le(a, b) && le(b, c)
    ensures le(a, c)
  {
  }

  lemma {:induction false} InsertKeeps<T>(x: T, s: seq<T>, le: (T, T) -> bool)
    ensures multiset(InsertBy(x, s, le)) == multiset(s) + multiset{x}
  {
    if s != [] && le(s[0], x) {
      assert s == [s[0]] + s[1..];
      InsertKeeps(x, s[1..], le);
    }
  }

  lemma {:induction false} InsertOrdered<T(!new)>(x: T, s: seq<T>, le: (T, T) -> bool)
    requires TotalPreorder(le) && Ordered(s, le)
    ensures Ordered(InsertBy(x, s, le), le)
  {
    if s != [] {
      assert le(s[0], x) || le(x, s[0]);
      hide TotalPreorder;
      if le(s[0], x) {
        var rest := InsertBy(x, s[1..], le);
        InsertOrdered(x, s[1..], le);
        InsertKeeps(x, s[1..], le);
        forall k | 0 <= k < |rest| ensures le(s[0], rest[k]) {
          assert rest[k] in multiset(rest);
        }
      } else {
        forall k | 1 <= k < |s| ensures le(x, s[k]) {
          Transitive(le, x, s[0], s[k]);
        }
      }
    }
  }

  lemma {:induction false} SortKeeps<T>(s: seq<T>, le: (T, T) -> bool)
    ensures multiset(SortBy(s, le)) == multiset(s) && |SortBy(s, le)| == |s|
  {
    if s != [] {
      var n := |s| - 1;
      assert s == s[..n] + [s[n]];
      SortKeeps(s[..n], le);
      InsertKeeps(s[n], SortBy(s[..n], le), le);
      assert |SortBy(s, le)| == |multiset(SortBy(s, le))| == |multiset(s)| == |s|;
    }
  }

  /** The result is the same elements, in order. */
  lemma {:induction false} SortSorts<T(!new)>(s: seq<T>, le: (T, T) -> bool)
    requires TotalPreorder(le)
    ensures Ordered(SortBy(s, le), le) && multiset(SortBy(s, le)) == multiset(s) && |SortBy(s, le)| == |s|
  {
    hide TotalPreorder;
    SortKeeps(s, le);
    if s != [] {
      SortSorts(s[..|s| - 1], le);
      InsertOrdered(s[|s| - 1], SortBy(s[..|s| - 1], le), le);
    }
  }

  ghost predicate Antisymmetric<T(!new)>(le: (T, T) -> bool) {
    forall x, y :: le(x, y) && le(y, x) ==> x == y
  }

  /** For an antisymmetric order the result depends only on the multiset sorted. */
  lemma {:induction false} SortedUnique<T(!new)>(a: seq<T>, b: seq<T>, le: (T, T) -> bool)
    requires TotalPreorder(le) && Antisymmetric(le)
    requires Ordered(a, le) && Ordered(b, le) && multiset(a) == multiset(b)
    ensures a == b
  {
    hide TotalPreorder, Antisymmetric;
    assert |a| == |multiset(a)| == |multiset(b)| == |b|;
    if a != [] {
      FirstIsLeast(a, b, le);
      FirstIsLeast(b, a, le);
      SameElement(le, a[0], b[0]);
      assert a == [a[0]] + a[1..] && b == [b[0]] + b[1..];
      assert multiset(a[1..]) == multiset(a) - multiset{a[0]};
      assert multiset(b[1..]) == multiset(b) - multiset{b[0]};
      assert Ordered(a[1..], le) && Ordered(b[1..], le);
      SortedUnique(a[1..], b[1..], le);
    }
  }

  lemma SameElement<T(!new)>(le: (T, T) -> bool, a: T, b: T)
    requires Antisymmetric(le) && le(a, b) && le(b, a)
    ensures a == b
  {
  }

  lemma FirstIsLeast<T(!new)>(a: seq<T>, b: seq<T>, le: (T, T) -> bool)
    requires TotalPreorder(le) && Ordered(a, le) && multiset(a) == multiset(b) && a != [] && b != []
    ensures le(a[0], b[0])
  {
    assert le(a[0], a[0]);
    hide TotalPreorder;
    assert b[0] in multiset(a);
    var i :| 0 <= i < |a| && a[i] == b[0];
  }
}
