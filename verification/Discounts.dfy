/** Discounted cumulative gain over an arbitrary rank discount, and the
    rearrangement inequality behind its ideal value. */
module Discounts {
  import opened Orders
  import opened Products

  /** `discount(r)` stands for 1 / log2(r + 1), the weight of rank r >= 1. */
  ghost predicate Discount(d: nat -> real) {
    forall r: nat :: r >= 1 ==> d(r) > 0.0 && d(r + 1) <= d(r)
  }

  ghost predicate StrictDiscount(d: nat -> real) {
    Discount(d) && forall r: nat :: r >= 1 ==> d(r + 1) < d(r)
  }

  /** The i-th value, zero past the end of the list. */
  function At(x: seq<real>, i: nat): real { if i < |x| then x[i] else 0.0 }

  /** DCG over the first `n` ranks. */
  function Dcg(x: seq<real>, d: nat -> real, n: nat): real {
    if n == 0 then 0.0 else Dcg(x, d, n - 1) + At(x, n - 1) * d(n)
  }

  function Total(x: seq<real>, n: nat): real {
    if n == 0 then 0.0 else Total(x, n - 1) + At(x, n - 1)
  }

  ghost predicate Dominates(y: seq<real>, x: seq<real>, n: nat) {
    forall j: nat :: j <= n ==> Total(x, j) <= Total(y, j)
  }

  lemma {:induction false} AbelStep(gap: real, surplus: real, y: real, x: real, before: real, here: real)
    requires gap >= surplus * before && surplus >= 0.0 && before >= here >= 0.0
    ensures gap + y * here - x * here >= (surplus + y - x) * here
  {
    var more := Scale(here, before, surplus);
    assert (surplus + y - x) * here == surplus * here + y * here - x * here;
  }

  lemma {:induction false} SurplusCounts(x: seq<real>, y: seq<real>, d: nat -> real, n: nat)
    requires Discount(d) && Dominates(y, x, n) && n >= 1
    ensures Dcg(y, d, n) - Dcg(x, d, n) >= (Total(y, n) - Total(x, n)) * d(n)
  {
    if n == 1 {
      assert Dcg(x, d, 1) == At(x, 0) * d(1) && Dcg(y, d, 1) == At(y, 0) * d(1);
      assert Total(x, 1) == At(x, 0) && Total(y, 1) == At(y, 0);
    } else {
      SurplusCounts(x, y, d, n - 1);
      var gap, surplus := Dcg(y, d, n - 1) - Dcg(x, d, n - 1), Total(y, n - 1) - Total(x, n - 1);
      AbelStep(gap, surplus, At(y, n - 1), At(x, n - 1), d(n - 1), d(n));
      assert Total(y, n) - Total(x, n) == surplus + At(y, n - 1) - At(x, n - 1);
    }
  }

  /** Abel summation, one direction: larger prefix totals give a larger DCG, by at
      least the last discount times the surplus. */
  lemma {:induction false} PrefixesDecide(x: seq<real>, y: seq<real>, d: nat -> real, n: nat)
    requires Discount(d) && Dominates(y, x, n) && n >= 1
    ensures Dcg(y, d, n) - Dcg(x, d, n) >= (Total(y, n) - Total(x, n)) * d(n)
    ensures Dcg(x, d, n) <= Dcg(y, d, n)
  {
    SurplusCounts(x, y, d, n);
    assert Total(x, n) <= Total(y, n);
    var more := Scale(0.0, Total(y, n) - Total(x, n), d(n));
  }

  lemma {:induction false} EqualDcgMeansEqualTotals(x: seq<real>, y: seq<real>, d: nat -> real, n: nat)
    requires Discount(d) && Dominates(y, x, n) && Dcg(x, d, n) == Dcg(y, d, n) && n >= 1
    ensures Total(x, n) == Total(y, n)
  {
    PrefixesDecide(x, y, d, n);
    assert Total(x, n) <= Total(y, n);
    if Total(x, n) < Total(y, n) { var q := PositiveProduct(Total(y, n) - Total(x, n), d(n)); }
  }

  lemma {:induction false} SurplusVanishes(surplus: real, step: real, gap: real, before: real, here: real)
    requires surplus >= 0.0 && surplus + step == 0.0 && before > here
    requires gap >= surplus * before && gap + step * here == 0.0
    ensures surplus == 0.0 && gap == 0.0
  {
    assert step == -surplus;
    assert gap == surplus * here;
    assert surplus * (before - here) <= 0.0;
  }

  /** With a strictly falling discount, equal DCG forces equal gains. */
  lemma {:induction false} EqualDcgMeansEqualGains(x: seq<real>, y: seq<real>, d: nat -> real, n: nat)
    requires StrictDiscount(d) && Dominates(y, x, n) && Dcg(x, d, n) == Dcg(y, d, n)
    ensures forall i: nat :: i < n ==> At(x, i) == At(y, i)
  {
    if n >= 1 {
      EqualDcgMeansEqualTotals(x, y, d, n);
      if n > 1 {
        PrefixesDecide(x, y, d, n - 1);
        SurplusVanishes(Total(y, n - 1) - Total(x, n - 1), At(y, n - 1) - At(x, n - 1),
                        Dcg(y, d, n - 1) - Dcg(x, d, n - 1), d(n - 1), d(n));
      }
      EqualDcgMeansEqualGains(x, y, d, n - 1);
    }
  }

  // -------------------------------------------------- the best arrangement

  ghost predicate Descending(s: seq<real>) {
    forall i, j :: 0 <= i < j < |s| ==> s[i] >= s[j]
  }

  ghost predicate NonNegative(s: seq<real>) { forall i :: 0 <= i < |s| ==> s[i] >= 0.0 }

  lemma {:induction false} TotalOfPrefix(s: seq<real>, t: seq<real>, n: nat)
    requires forall i: nat :: i < n ==> At(s, i) == At(t, i)
    ensures Total(s, n) == Total(t, n)
  {
    if n > 0 { TotalOfPrefix(s, t, n - 1); }
  }

  lemma {:induction false} TotalGrows(s: seq<real>, m: nat, n: nat)
    requires NonNegative(s) && m <= n
    ensures Total(s, m) <= Total(s, n)
  {
    if m < n { TotalGrows(s, m, n - 1); }
  }

  /** Taking element i out of a list lowers the total of the first n by it. */
  lemma {:induction false} TotalWithout(s: seq<real>, i: nat, n: nat)
    requires i < |s|
    ensures Total(s[..i] + s[i + 1..], n) == if n <= i then Total(s, n) else Total(s, n + 1) - s[i]
  {
    var t := s[..i] + s[i + 1..];
    if n > 0 {
      TotalWithout(s, i, n - 1);
      if n == i + 1 {
        assert At(t, i) == At(s, i + 1);
      }
    }
  }

  lemma {:induction false} TotalWithoutOne(whole: seq<real>, i: nat, n: nat, x: real)
    requires Descending(whole) && i < |whole| && whole[i] == x && n < |whole|
    ensures Total(whole[..i] + whole[i + 1..], n) + x <= Total(whole, n + 1)
  {
    TotalWithout(whole, i, n);
    assert n < i ==> whole[n] >= whole[i];
  }

  lemma {:induction false} Locate(part: seq<real>, whole: seq<real>, n: nat) returns (i: nat)
    requires multiset(part) <= multiset(whole) && n < |part|
    ensures i < |whole| && whole[i] == part[n]
  {
    assert part[n] in multiset(part) && part[n] in multiset(whole);
    i :| 0 <= i < |whole| && whole[i] == part[n];
  }

  /** No part of a descending list sums to more than its first elements. */
  lemma {:induction false} TopElementsAreBest(part: seq<real>, whole: seq<real>)
    requires Descending(whole) && multiset(part) <= multiset(whole)
    ensures |part| <= |whole|
    ensures Total(part, |part|) <= Total(whole, |part|)
  {
    if part != [] {
      var n := |part| - 1;
      var front, x := part[..n], part[n];
      assert part == front + [x];
      var i := Locate(part, whole, n);
      var rest := whole[..i] + whole[i + 1..];
      TakeOut(front, x, whole, i);
      TopElementsAreBest(front, rest);
      TotalOfPrefix(front, part, n);
      TotalWithoutOne(whole, i, n, x);
    }
  }

  /** The values that are positive, in order. */
  function Positives(x: seq<real>): seq<real> {
    if x == [] then []
    else
      var front := Positives(x[..|x| - 1]);
      if x[|x| - 1] > 0.0 then front + [x[|x| - 1]] else front
  }

  lemma {:induction false} PositivesTotal(x: seq<real>)
    requires NonNegative(x)
    ensures |Positives(x)| <= |x|
    ensures Total(Positives(x), |Positives(x)|) == Total(x, |x|)
  {
    if x != [] {
      var front := x[..|x| - 1];
      assert x == front + [x[|x| - 1]];
      PositivesTotal(front);
      TotalOfPrefix(front, x, |front|);
      TotalOfPrefix(Positives(front), Positives(x), |Positives(front)|);
    }
  }

  lemma {:induction false} PositivesOfPrefix(x: seq<real>, j: nat)
    requires j <= |x|
    ensures multiset(Positives(x[..j])) <= multiset(Positives(x))
    decreases |x|
  {
    if j == |x| {
      assert x[..j] == x;
    } else {
      assert x[..|x| - 1][..j] == x[..j];
      PositivesOfPrefix(x[..|x| - 1], j);
    }
  }

  lemma {:induction false} TotalPastEnd(x: seq<real>, m: nat, j: nat)
    requires m <= j && (m == j || m >= |x|)
    ensures Total(x, j) == Total(x, m)
  {
    if m < j { TotalPastEnd(x, m, j - 1); }
  }

  /** Rearrangement: a ranking whose positive gains all come from `ideal`, taken
      in descending order, has no larger DCG. */
  lemma {:induction false} IdealDominates(x: seq<real>, ideal: seq<real>, n: nat)
    requires NonNegative(x) && NonNegative(ideal) && Descending(ideal)
    requires multiset(Positives(x)) <= multiset(ideal)
    ensures Dominates(ideal, x, n)
  {
    forall j: nat | j <= n ensures Total(x, j) <= Total(ideal, j) {
      var m := if j < |x| then j else |x|;
      PositivesOfPrefix(x, m);
      assert NonNegative(x[..m]);
      PositivesTotal(x[..m]);
      TopElementsAreBest(Positives(x[..m]), ideal);
      TotalOfPrefix(x[..m], x, m);
      TotalPastEnd(x, m, j);
      TotalGrows(ideal, |Positives(x[..m])|, j);
    }
  }
}
