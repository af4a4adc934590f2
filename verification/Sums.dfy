/** Sums of a natural-number weight over a sequence, and how they change with it. */
module Sums {

  ghost function Sum<T>(f: T -> nat, xs: seq<T>): nat {
    if xs == [] then 0 else f(xs[0]) + Sum(f, xs[1..])
  }

  lemma {:induction false} SumConcat<T>(f: T -> nat, xs: seq<T>, ys: seq<T>)
    ensures Sum(f, xs + ys) == Sum(f, xs) + Sum(f, ys)
  {
    if xs == [] {
      assert xs + ys == ys;
    } else {
      assert (xs + ys)[1..] == xs[1..] + ys;
      SumConcat(f, xs[1..], ys);
    }
  }

  lemma SumAppend<T>(f: T -> nat, xs: seq<T>, x: T)
    ensures Sum(f, xs + [x]) == Sum(f, xs) + f(x)
  {
    SumConcat(f, xs, [x]);
    assert [x][1..] == [];
  }

  lemma SumRemove<T>(f: T -> nat, xs: seq<T>, k: nat)
    requires k < |xs|
    ensures Sum(f, xs) == Sum(f, xs[..k] + xs[k + 1..]) + f(xs[k])
  {
    assert xs == xs[..k] + ([xs[k]] + xs[k + 1..]);
    SumConcat(f, xs[..k], [xs[k]] + xs[k + 1..]);
    SumConcat(f, xs[..k], xs[k + 1..]);
  }

  lemma SumUpdate<T>(f: T -> nat, xs: seq<T>, k: nat, x: T)
    requires k < |xs|
    ensures Sum(f, xs[k := x]) + f(xs[k]) == Sum(f, xs) + f(x)
  {
    var ys := xs[k := x];
    SumRemove(f, xs, k);
    SumRemove(f, ys, k);
    assert ys[..k] == xs[..k] && ys[k + 1..] == xs[k + 1..];
  }

  /** One element's weight never exceeds the sum. */
  lemma SumAtLeast<T>(f: T -> nat, xs: seq<T>, k: nat)
    requires k < |xs|
    ensures f(xs[k]) <= Sum(f, xs)
  {
    SumRemove(f, xs, k);
  }

  /** A positive sum has a witness. */
  lemma {:induction false} SumPositive<T>(f: T -> nat, xs: seq<T>)
    requires Sum(f, xs) > 0
    ensures exists k :: 0 <= k < |xs| && f(xs[k]) > 0
  {
    if f(xs[0]) == 0 {
      SumPositive(f, xs[1..]);
      var k :| 0 <= k < |xs[1..]| && f(xs[1..][k]) > 0;
      assert f(xs[k + 1]) > 0;
    }
  }

  /** Two different elements of positive weight make the sum at least two. */
  lemma SumTwo<T>(f: T -> nat, xs: seq<T>, i: nat, j: nat)
    requires i < |xs| && j < |xs| && i != j && f(xs[i]) > 0 && f(xs[j]) > 0
    ensures Sum(f, xs) >= 2
  {
    SumRemove(f, xs, i);
    SumAtLeast(f, xs[..i] + xs[i + 1..], if j < i then j else j - 1);
  }
}
