/** Sums of a quantity over the rows of a table. */
module Sums {
  function Sum<T>(xs: seq<T>, f: T -> int): int {
    if |xs| == 0 then 0 else Sum(xs[..|xs| - 1], f) + f(xs[|xs| - 1])
  }

  lemma {:induction false} SumAppend<T>(xs: seq<T>, x: T, f: T -> int)
    ensures Sum(xs + [x], f) == Sum(xs, f) + f(x)
  {
    assert (xs + [x])[..|xs|] == xs;
  }

  lemma {:induction false} SumConcat<T>(xs: seq<T>, ys: seq<T>, f: T -> int)
    ensures Sum(xs + ys, f) == Sum(xs, f) + Sum(ys, f)
  {
    if |ys| == 0 {
      assert xs + ys == xs;
    } else {
      var n := |ys| - 1;
      assert xs + ys == (xs + ys[..n]) + [ys[n]];
      SumAppend(xs + ys[..n], ys[n], f);
      SumConcat(xs, ys[..n], f);
    }
  }

  lemma {:induction false} SumUpdate<T>(xs: seq<T>, i: nat, x: T, f: T -> int)
    requires i < |xs|
    ensures Sum(xs[i := x], f) == Sum(xs, f) - f(xs[i]) + f(x)
  {
    var n := |xs| - 1;
    if i == n {
      assert xs[i := x][..n] == xs[..n];
    } else {
      assert xs[i := x][..n] == xs[..n][i := x];
      SumUpdate(xs[..n], i, x, f);
    }
  }

  /** Tables that agree row by row have the same sum. */
  lemma {:induction false} SumSame<T, U>(xs: seq<T>, f: T -> int, ys: seq<U>, g: U -> int)
    requires |xs| == |ys|
    requires forall i :: 0 <= i < |xs| ==> f(xs[i]) == g(ys[i])
    ensures Sum(xs, f) == Sum(ys, g)
  {
    if |xs| == 0 {
    } else {
      var n := |xs| - 1;
      SumSame(xs[..n], f, ys[..n], g);
    }
  }

  lemma {:induction false} SumLe<T, U>(xs: seq<T>, f: T -> int, ys: seq<U>, g: U -> int)
    requires |xs| == |ys|
    requires forall i :: 0 <= i < |xs| ==> f(xs[i]) <= g(ys[i])
    ensures Sum(xs, f) <= Sum(ys, g)
  {
    if |xs| == 0 {
    } else {
      var n := |xs| - 1;
      SumLe(xs[..n], f, ys[..n], g);
    }
  }

  /** A sum of sums, row by row. */
  lemma {:induction false} SumSplit<T>(xs: seq<T>, f: T -> int, g: T -> int, h: T -> int)
    requires forall i :: 0 <= i < |xs| ==> f(xs[i]) == g(xs[i]) + h(xs[i])
    ensures Sum(xs, f) == Sum(xs, g) + Sum(xs, h)
  {
    if |xs| == 0 {
    } else {
      SumSplit(xs[..|xs| - 1], f, g, h);
    }
  }

  lemma {:induction false} SumZero<T>(xs: seq<T>, f: T -> int)
    requires forall i :: 0 <= i < |xs| ==> f(xs[i]) == 0
    ensures Sum(xs, f) == 0
  {
    if |xs| == 0 {
    } else {
      SumZero(xs[..|xs| - 1], f);
    }
  }

  lemma {:induction false} SumNonNegative<T>(xs: seq<T>, f: T -> int)
    requires forall i :: 0 <= i < |xs| ==> f(xs[i]) >= 0
    ensures Sum(xs, f) >= 0
  {
    if |xs| == 0 {
    } else {
      SumNonNegative(xs[..|xs| - 1], f);
    }
  }

  /** One row of a table of non-negative quantities is at most the sum. */
  lemma {:induction false} SumAtLeastRow<T>(xs: seq<T>, i: nat, f: T -> int)
    requires i < |xs|
    requires forall k :: 0 <= k < |xs| ==> f(xs[k]) >= 0
    ensures f(xs[i]) <= Sum(xs, f)
  {
    var n := |xs| - 1;
    SumNonNegative(xs[..n], f);
    if i < n {
      SumAtLeastRow(xs[..n], i, f);
    }
  }

  lemma {:induction false} SumOne<T>(a: T, f: T -> int)
    ensures Sum([a], f) == f(a)
  {
    assert [a] == [] + [a];
    SumAppend([], a, f);
  }

  lemma {:induction false} SumTwo<T>(a: T, b: T, f: T -> int)
    ensures Sum([a, b], f) == f(a) + f(b)
  {
    assert [a, b] == [a] + [b];
    SumAppend([a], b, f);
    SumOne(a, f);
  }

  lemma {:induction false} SumThree<T>(a: T, b: T, c: T, f: T -> int)
    ensures Sum([a, b, c], f) == f(a) + f(b) + f(c)
  {
    assert [a, b, c] == [a, b] + [c];
    SumAppend([a, b], c, f);
    SumTwo(a, b, f);
  }
}
