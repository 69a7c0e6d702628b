/** The facility-location objective of the context selector: how well a set of
    chosen candidates represents every row of the candidate universe. */
module Coverage {

  /** A retrieved item. `key` is the fixed-width hexadecimal dedupe digest read
      as a number (same order); `tokens`, `chars` and `tokenEstimate` are what the
      tokenizer, `len(text)` and the token estimator return for its text. */
  datatype Item = Item(source: string, key: nat, tokens: set<string>, chars: nat,
                       tokenEstimate: int, score: real)

  datatype Candidate = Candidate(item: Item, relevance: real, tokens: set<string>,
                                 charCost: nat, tokenCost: nat)

  lemma {:induction false} IntersectionSmaller<T>(a: set<T>, b: set<T>)
    ensures |a * b| <= |a + b|
  {
    assert a + b == (a * b) + ((a + b) - (a * b));
  }

  function Jaccard<T>(a: set<T>, b: set<T>): (r: real)
    ensures 0.0 <= r <= 1.0
  {
    if a == {} || b == {} then 0.0
    else
      assert a + b != {} && |a * b| <= |a + b| by {
        assert a <= a + b;
        IntersectionSmaller(a, b);
      }
      |a * b| as real / |a + b| as real
  }

  /** How well choosing `c` represents `target`. */
  function Weight(target: Candidate, c: Candidate): real {
    target.relevance * Jaccard(target.tokens, c.tokens)
  }

  /** A fully relevant row is represented as well as its tokens are alike, and any other in
      proportion to its own relevance. */
  lemma {:induction false} WeightIsProportional(target: Candidate, c: Candidate, a: real, b: real)
    ensures Weight(target.(relevance := 1.0), c) == Jaccard(target.tokens, c.tokens)
    ensures Weight(target.(relevance := a + b), c)
         == Weight(target.(relevance := a), c) + Weight(target.(relevance := b), c)
  {
  }

  function Excess(represented: real, covered: real): real {
    if represented > covered then represented - covered else 0.0
  }

  /** The part of the marginal gain owed to the first `n` rows. */
  function GainUpTo(c: Candidate, rows: seq<Candidate>, cov: seq<real>, n: nat): real
    requires n <= |rows| == |cov|
  {
    if n == 0 then 0.0
    else GainUpTo(c, rows, cov, n - 1) + Excess(Weight(rows[n - 1], c), cov[n - 1])
  }

  function Gain(c: Candidate, rows: seq<Candidate>, cov: seq<real>): real
    requires |rows| == |cov|
  {
    GainUpTo(c, rows, cov, |rows|)
  }

  /** The coverage list after `c` has been chosen as well. */
  function Applied(c: Candidate, rows: seq<Candidate>, cov: seq<real>): (r: seq<real>)
    requires |rows| == |cov|
    ensures |r| == |rows|
    ensures forall i :: 0 <= i < |rows| ==> r[i] == cov[i] + Excess(Weight(rows[i], c), cov[i])
  {
    seq(|rows|, i requires 0 <= i < |rows| => cov[i] + Excess(Weight(rows[i], c), cov[i]))
  }

  /** The coverage list after the choices `chosen`, taken in order from zeros. */
  function CoverageOf(rows: seq<Candidate>, chosen: seq<Candidate>): (r: seq<real>)
    ensures |r| == |rows|
  {
    if chosen == [] then seq(|rows|, _ => 0.0)
    else Applied(chosen[|chosen| - 1], rows, CoverageOf(rows, chosen[..|chosen| - 1]))
  }

  function SumUpTo(cov: seq<real>, n: nat): real
    requires n <= |cov|
  {
    if n == 0 then 0.0 else SumUpTo(cov, n - 1) + cov[n - 1]
  }

  /** The objective F(S). */
  function Objective(rows: seq<Candidate>, chosen: seq<Candidate>): real {
    SumUpTo(CoverageOf(rows, chosen), |rows|)
  }

  function CostOf(c: Candidate, tokenAware: bool): nat {
    if tokenAware then c.tokenCost else c.charCost
  }

  function TotalCost(s: seq<Candidate>, tokenAware: bool): nat {
    if s == [] then 0 else TotalCost(s[..|s| - 1], tokenAware) + CostOf(s[|s| - 1], tokenAware)
  }

  /** What each chosen candidate would add on its own to the coverage `cov`. */
  function GainTotal(s: seq<Candidate>, rows: seq<Candidate>, cov: seq<real>): real
    requires |rows| == |cov|
  {
    if s == [] then 0.0 else GainTotal(s[..|s| - 1], rows, cov) + Gain(s[|s| - 1], rows, cov)
  }

  ghost predicate Below(a: seq<real>, b: seq<real>) {
    |a| == |b| && forall i :: 0 <= i < |a| ==> a[i] <= b[i]
  }

  lemma {:induction false} CoverageStep(rows: seq<Candidate>, chosen: seq<Candidate>, c: Candidate)
    ensures CoverageOf(rows, chosen + [c]) == Applied(c, rows, CoverageOf(rows, chosen))
  {
    assert (chosen + [c])[..|chosen + [c]| - 1] == chosen;
  }

  /** The mutated list holds, row by row, the best representation by any choice. */
  lemma {:induction false} CoverageIsMaximum(rows: seq<Candidate>, chosen: seq<Candidate>, i: nat)
    requires i < |rows|
    ensures CoverageOf(rows, chosen)[i] >= 0.0
    ensures forall c :: c in chosen ==> Weight(rows[i], c) <= CoverageOf(rows, chosen)[i]
    ensures CoverageOf(rows, chosen)[i] == 0.0
            || exists c :: c in chosen && CoverageOf(rows, chosen)[i] == Weight(rows[i], c)
  {
    if chosen != [] {
      CoverageIsMaximum(rows, chosen[..|chosen| - 1], i);
      assert chosen == chosen[..|chosen| - 1] + [chosen[|chosen| - 1]];
      var c := chosen[|chosen| - 1];
      if Weight(rows[i], c) > CoverageOf(rows, chosen[..|chosen| - 1])[i] {
        assert c in chosen && CoverageOf(rows, chosen)[i] == Weight(rows[i], c);
      }
    }
  }

  lemma {:induction false} SamePrefix(a: seq<real>, b: seq<real>, n: nat)
    requires n <= |a| && n <= |b| && a[..n] == b[..n]
    ensures SumUpTo(a, n) == SumUpTo(b, n)
  {
    if n > 0 {
      assert a[..n - 1] == a[..n][..n - 1] && b[..n - 1] == b[..n][..n - 1];
      assert a[n - 1] == a[..n][n - 1] && b[n - 1] == b[..n][n - 1];
      SamePrefix(a, b, n - 1);
    }
  }

  lemma {:induction false} AppliedByRow(c: Candidate, rows: seq<Candidate>, r: Candidate, cov: seq<real>,
                                        extra: seq<real>)
    requires |cov| == |rows| && |extra| == 1
    ensures Applied(c, rows + [r], cov + extra) == Applied(c, rows, cov) + Applied(c, [r], extra)
  {
    forall i | 0 <= i < |rows| + 1
      ensures Applied(c, rows + [r], cov + extra)[i] == (Applied(c, rows, cov) + Applied(c, [r], extra))[i]
    {
      assert i < |rows| ==> (rows + [r])[i] == rows[i] && (cov + extra)[i] == cov[i];
    }
  }

  lemma {:induction false} CoverageByRow(rows: seq<Candidate>, r: Candidate, chosen: seq<Candidate>)
    ensures CoverageOf(rows + [r], chosen) == CoverageOf(rows, chosen) + CoverageOf([r], chosen)
  {
    if chosen != [] {
      var front := chosen[..|chosen| - 1];
      CoverageByRow(rows, r, front);
      AppliedByRow(chosen[|chosen| - 1], rows, r, CoverageOf(rows, front), CoverageOf([r], front));
    }
  }

  /** The objective is the sum, over the rows, of how well each of them is represented. */
  lemma {:induction false} ObjectiveAddsUp(rows: seq<Candidate>, r: Candidate, chosen: seq<Candidate>)
    ensures Objective([], chosen) == 0.0
    ensures Objective(rows + [r], chosen) == Objective(rows, chosen) + CoverageOf([r], chosen)[0]
  {
    CoverageByRow(rows, r, chosen);
    SamePrefix(CoverageOf(rows + [r], chosen), CoverageOf(rows, chosen), |rows|);
  }

  /** The total cost in the active unit is the sum of the costs. */
  lemma {:induction false} TotalCostAddsUp(s: seq<Candidate>, c: Candidate, byTokens: bool)
    ensures TotalCost([], byTokens) == 0
    ensures TotalCost(s + [c], byTokens) == TotalCost(s, byTokens) + if byTokens then c.tokenCost else c.charCost
  {
    assert (s + [c])[..|s|] == s;
  }

  /** Submodularity: a candidate gains less once more is covered. */
  lemma {:induction false} GainShrinks(c: Candidate, rows: seq<Candidate>, cov: seq<real>, cov': seq<real>, n: nat)
    requires n <= |rows| == |cov| && Below(cov, cov')
    ensures 0.0 <= GainUpTo(c, rows, cov', n) <= GainUpTo(c, rows, cov, n)
  {
    if n > 0 { GainShrinks(c, rows, cov, cov', n - 1); }
  }

  lemma {:induction false} SumAfterApply(c: Candidate, rows: seq<Candidate>, cov: seq<real>, n: nat)
    requires n <= |rows| == |cov|
    ensures SumUpTo(Applied(c, rows, cov), n) == SumUpTo(cov, n) + GainUpTo(c, rows, cov, n)
  {
    if n > 0 { SumAfterApply(c, rows, cov, n - 1); }
  }

  /** `_gain` is exactly the increase of the objective. */
  lemma {:induction false} GainIsMarginal(rows: seq<Candidate>, chosen: seq<Candidate>, c: Candidate)
    ensures Objective(rows, chosen + [c])
         == Objective(rows, chosen) + Gain(c, rows, CoverageOf(rows, chosen))
  {
    CoverageStep(rows, chosen, c);
    SumAfterApply(c, rows, CoverageOf(rows, chosen), |rows|);
  }

  lemma {:induction false} SumMonotone(a: seq<real>, b: seq<real>, n: nat)
    requires Below(a, b) && n <= |a|
    ensures SumUpTo(a, n) <= SumUpTo(b, n)
  {
    if n > 0 { SumMonotone(a, b, n - 1); }
  }

  /** Coverage depends on the set of choices only, and grows with it. */
  lemma {:induction false} CoverageGrows(rows: seq<Candidate>, small: seq<Candidate>, large: seq<Candidate>)
    requires forall c :: c in small ==> c in large
    ensures Below(CoverageOf(rows, small), CoverageOf(rows, large))
    ensures Objective(rows, small) <= Objective(rows, large)
  {
    forall i | 0 <= i < |rows| ensures CoverageOf(rows, small)[i] <= CoverageOf(rows, large)[i] {
      CoverageIsMaximum(rows, small, i);
      CoverageIsMaximum(rows, large, i);
    }
    SumMonotone(CoverageOf(rows, small), CoverageOf(rows, large), |rows|);
  }

  /** Adding a whole set gains at most what its members gain one by one. */
  lemma {:induction false} UnionBound(rows: seq<Candidate>, chosen: seq<Candidate>, other: seq<Candidate>)
    ensures Objective(rows, chosen + other)
         <= Objective(rows, chosen) + GainTotal(other, rows, CoverageOf(rows, chosen))
  {
    if other == [] {
      assert chosen + other == chosen;
    } else {
      var front, c := other[..|other| - 1], other[|other| - 1];
      UnionBound(rows, chosen, front);
      assert chosen + other == (chosen + front) + [c];
      GainIsMarginal(rows, chosen + front, c);
      CoverageGrows(rows, chosen, chosen + front);
      GainShrinks(c, rows, CoverageOf(rows, chosen), CoverageOf(rows, chosen + front), |rows|);
    }
  }

  /** A candidate that is already covered by the choices gains nothing. */
  lemma {:induction false} ChosenGainsNothing(c: Candidate, rows: seq<Candidate>, chosen: seq<Candidate>, n: nat)
    requires c in chosen && n <= |rows|
    ensures GainUpTo(c, rows, CoverageOf(rows, chosen), n) == 0.0
  {
    if n > 0 {
      ChosenGainsNothing(c, rows, chosen, n - 1);
      CoverageIsMaximum(rows, chosen, n - 1);
    }
  }
}
