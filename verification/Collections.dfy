/** Sequences and sums shared by every ledger of the project. */
module Collections {

  datatype Option<+T> = None | Some(value: T)

  datatype Result<+T, +E> = Ok(value: T) | Err(error: E)

  /** The total of `f` over a table; rows are appended at the end. */
  function Sum<T>(s: seq<T>, f: T -> int): int {
    if |s| == 0 then 0 else Sum(s[..|s| - 1], f) + f(s[|s| - 1])
  }

  function Total(quantities: seq<int>): int {
    if quantities == [] then 0 else Total(quantities[..|quantities| - 1]) + quantities[|quantities| - 1]
  }

  function Constant<T>(c: int): T -> int {
    (_: T) => c
  }

  ghost predicate NoDup(ids: seq<nat>) {
    forall i, j | 0 <= i < j < |ids| :: ids[i] != ids[j]
  }

  /** Applies `f` to the rows whose index is listed in `ids`. */
  function UpdateAt<T>(s: seq<T>, ids: seq<nat>, f: T -> T): seq<T> {
    seq(|s|, i requires 0 <= i < |s| => if i in ids then f(s[i]) else s[i])
  }

  lemma SumAppend<T>(s: seq<T>, x: T, f: T -> int)
    ensures Sum(s + [x], f) == Sum(s, f) + f(x)
  {
    assert (s + [x])[..|s|] == s;
  }

  lemma {:induction false} SumConcat<T>(s: seq<T>, t: seq<T>, f: T -> int)
    ensures Sum(s + t, f) == Sum(s, f) + Sum(t, f)
  {
    if t == [] {
      assert s + t == s;
    } else {
      assert (s + t)[..|s + t| - 1] == s + t[..|t| - 1];
      SumConcat(s, t[..|t| - 1], f);
    }
  }

  lemma {:induction false} SumUpdate<T>(s: seq<T>, i: nat, x: T, f: T -> int)
    requires i < |s|
    ensures Sum(s[i := x], f) == Sum(s, f) - f(s[i]) + f(x)
  {
    var n := |s| - 1;
    if i == n {
      assert s[i := x][..n] == s[..n];
    } else {
      assert s[i := x][..n] == s[..n][i := x];
      SumUpdate(s[..n], i, x, f);
    }
  }

  lemma {:induction false} SumEqual<S, T>(s: seq<S>, t: seq<T>, f: S -> int, g: T -> int)
    requires |s| == |t|
    requires forall i | 0 <= i < |s| :: f(s[i]) == g(t[i])
    ensures Sum(s, f) == Sum(t, g)
  {
    if s != [] {
      SumEqual(s[..|s| - 1], t[..|t| - 1], f, g);
    }
  }

  lemma {:induction false} SumConstant<T>(s: seq<T>, c: int)
    ensures Sum(s, Constant<T>(c)) == c * |s|
  {
    if s != [] {
      SumConstant(s[..|s| - 1], c);
    }
  }

  lemma {:induction false} SumZero<T>(s: seq<T>, f: T -> int)
    requires forall i | 0 <= i < |s| :: f(s[i]) == 0
    ensures Sum(s, f) == 0
  {
    if s != [] {
      SumZero(s[..|s| - 1], f);
    }
  }

  /** A sum of non-negative terms is at least any one of its terms. */
  lemma {:induction false} SumAtLeast<T>(s: seq<T>, k: nat, f: T -> int)
    requires k < |s|
    requires forall i | 0 <= i < |s| :: f(s[i]) >= 0
    ensures Sum(s, f) >= f(s[k])
  {
    if k == |s| - 1 {
      SumNonNegative(s[..k], f);
    } else {
      SumAtLeast(s[..|s| - 1], k, f);
    }
  }

  lemma {:induction false} SumNonNegative<T>(s: seq<T>, f: T -> int)
    requires forall i | 0 <= i < |s| :: f(s[i]) >= 0
    ensures Sum(s, f) >= 0
  {
    if s != [] {
      SumNonNegative(s[..|s| - 1], f);
    }
  }

  /** Two distinct non-negative terms are both inside the sum. */
  lemma {:induction false} SumAtLeastTwo<T>(s: seq<T>, j: nat, k: nat, f: T -> int)
    requires j < k < |s|
    requires forall i | 0 <= i < |s| :: f(s[i]) >= 0
    ensures Sum(s, f) >= f(s[j]) + f(s[k])
  {
    if k == |s| - 1 {
      SumAtLeast(s[..k], j, f);
    } else {
      SumAtLeastTwo(s[..|s| - 1], j, k, f);
    }
  }

  /** Pointwise sums of three measures. */
  lemma {:induction false} SumAdd<T>(s: seq<T>, f: T -> int, g: T -> int, h: T -> int)
    requires forall i | 0 <= i < |s| :: f(s[i]) == g(s[i]) + h(s[i])
    ensures Sum(s, f) == Sum(s, g) + Sum(s, h)
  {
    if s != [] {
      SumAdd(s[..|s| - 1], f, g, h);
    }
  }

  /** Updating distinct rows moves a sum by the total of the rows' differences. */
  lemma {:induction false} SumUpdateAt<T>(s: seq<T>, ids: seq<nat>, f: T -> T, g: T -> int, d: nat -> int)
    requires NoDup(ids)
    requires forall i | i in ids :: i < |s| && g(f(s[i])) == g(s[i]) + d(i)
    ensures Sum(UpdateAt(s, ids, f), g) == Sum(s, g) + Sum(ids, d)
  {
    if ids == [] {
      assert UpdateAt(s, ids, f) == s;
    } else {
      var n := |ids| - 1;
      var front, x := ids[..n], ids[n];
      assert ids == front + [x];
      SumUpdateAt(s, front, f, g, d);
      assert x in ids;
      UpdateAtAppend(s, front, x, f);
      var t := UpdateAt(s, front, f);
      SumUpdate(t, x, f(s[x]), g);
    }
  }

  lemma UpdateAtAppend<T>(s: seq<T>, ids: seq<nat>, x: nat, f: T -> T)
    requires x < |s| && x !in ids
    ensures UpdateAt(s, ids + [x], f) == UpdateAt(s, ids, f)[x := f(s[x])]
  {
  }
}
