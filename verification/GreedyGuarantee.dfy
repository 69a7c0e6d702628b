/** What the greedy run is worth: budget, maximality, and how close it comes to any
    other affordable choice. */
module GreedyGuarantee {
  import opened Products
  import opened Coverage
  import opened LazySelection

  // ------------------------------------------------- one step against any O

  /** Everything in `other` is already chosen or can still be taken. */
  ghost predicate Reachable(l: Limits, remaining: set<Candidate>, chosen: seq<Candidate>, other: seq<Candidate>) {
    forall o :: o in other ==> o in chosen || (o in remaining && Fits(l, chosen, o))
  }

  /** `k` times `x`, by repeated addition. */
  ghost function Times(k: nat, x: real): real {
    if k == 0 then 0.0 else Times(k - 1, x) + x
  }

  lemma {:induction false} TimesIsProduct(k: nat, x: real)
    ensures Times(k, x) == k as real * x
  {
    if k > 0 { TimesIsProduct(k - 1, x); }
  }

  lemma {:induction false} TimesAdds(a: nat, b: nat, x: real)
    ensures Times(a + b, x) == Times(a, x) + Times(b, x)
  {
    if b > 0 { TimesAdds(a, b - 1, x); }
  }

  lemma {:induction false} TimesMonotone(k: nat, x: real, y: real)
    requires x <= y
    ensures Times(k, x) <= Times(k, y)
  {
    if k > 0 { TimesMonotone(k - 1, x, y); }
  }

  ghost predicate GainsAtMost(ratio: real, rows: seq<Candidate>, cov: seq<real>, tokenAware: bool, o: Candidate)
    requires |rows| == |cov|
  {
    Gain(o, rows, cov) <= Times(CostOf(o, tokenAware), ratio)
  }

  lemma {:induction false} ChosenIsBounded(ratio: real, rows: seq<Candidate>, chosen: seq<Candidate>,
                                           tokenAware: bool, o: Candidate)
    requires o in chosen && ratio >= 0.0
    ensures GainsAtMost(ratio, rows, CoverageOf(rows, chosen), tokenAware, o)
  {
    ChosenGainsNothing(o, rows, chosen, |rows|);
    TimesMonotone(CostOf(o, tokenAware), 0.0, ratio);
    TimesIsProduct(CostOf(o, tokenAware), 0.0);
  }

  lemma {:induction false} DivideTimes(x: real, k: nat)
    requires k > 0
    ensures Times(k, x / k as real) == x
  {
    TimesIsProduct(k, x / k as real);
  }

  lemma {:induction false} RatioTimesCost(l: Limits, rows: seq<Candidate>, chosen: seq<Candidate>, o: Candidate)
    requires o.charCost > 0 && o.tokenCost > 0
    ensures Times(CostOf(o, l.TokenAware()), Ratio(l, rows, chosen, o)) == Gain(o, rows, CoverageOf(rows, chosen))
  {
    DivideTimes(Gain(o, rows, CoverageOf(rows, chosen)), CostOf(o, l.TokenAware()));
  }

  lemma {:induction false} RatioIsNonNegative(l: Limits, rows: seq<Candidate>, chosen: seq<Candidate>, c: Candidate)
    requires c.charCost > 0 && c.tokenCost > 0
    ensures Ratio(l, rows, chosen, c) >= 0.0
  {
    GainShrinks(c, rows, CoverageOf(rows, chosen), CoverageOf(rows, chosen), |rows|);
    DivideMonotone(0.0, Gain(c, rows, CoverageOf(rows, chosen)), CostOf(c, l.TokenAware()) as real);
  }

  /** The greedy ratio: nothing within reach gains more per cost. */
  lemma {:induction false} BestRatio(l: Limits, rows: seq<Candidate>, remaining: set<Candidate>,
                                     chosen: seq<Candidate>, c: Candidate, other: seq<Candidate>) returns (ratio: real)
    requires Costly(remaining) && IsBest(l, rows, remaining, chosen, c)
    requires Reachable(l, remaining, chosen, other)
    ensures ratio >= 0.0
    ensures Gain(c, rows, CoverageOf(rows, chosen)) == Times(CostOf(c, l.TokenAware()), ratio)
    ensures forall o :: o in other ==> GainsAtMost(ratio, rows, CoverageOf(rows, chosen), l.TokenAware(), o)
  {
    ratio := Ratio(l, rows, chosen, c);
    RatioIsNonNegative(l, rows, chosen, c);
    RatioTimesCost(l, rows, chosen, c);
    forall o | o in other ensures GainsAtMost(ratio, rows, CoverageOf(rows, chosen), l.TokenAware(), o) {
      if o in chosen {
        ChosenIsBounded(ratio, rows, chosen, l.TokenAware(), o);
      } else {
        assert o == c || Ahead(l, rows, chosen, c, o);
        RatioTimesCost(l, rows, chosen, o);
        TimesMonotone(CostOf(o, l.TokenAware()), Ratio(l, rows, chosen, o), ratio);
      }
    }
  }

  lemma {:induction false} GainsAdd(rows: seq<Candidate>, cov: seq<real>, other: seq<Candidate>, ratio: real,
                                    tokenAware: bool)
    requires |rows| == |cov|
    requires forall o :: o in other ==> GainsAtMost(ratio, rows, cov, tokenAware, o)
    ensures GainTotal(other, rows, cov) <= Times(TotalCost(other, tokenAware), ratio)
  {
    if other != [] {
      var front, o := other[..|other| - 1], other[|other| - 1];
      assert other == front + [o];
      GainsAdd(rows, cov, front, ratio, tokenAware);
      assert GainsAtMost(ratio, rows, cov, tokenAware, o);
      TimesAdds(TotalCost(front, tokenAware), CostOf(o, tokenAware), ratio);
    }
  }

  /** How much better `other` represents the rows than `chosen` does. */
  ghost function Gap(rows: seq<Candidate>, other: seq<Candidate>, chosen: seq<Candidate>): real {
    Objective(rows, other) - Objective(rows, chosen)
  }

  /** The share of the active budget that `c` costs. */
  ghost function Share(l: Limits, c: Candidate): real
    requires l.Active() > 0
  {
    CostOf(c, l.TokenAware()) as real / l.Active() as real
  }

  lemma {:induction false} GapIsBounded(rows: seq<Candidate>, chosen: seq<Candidate>, other: seq<Candidate>,
                                        ratio: real, tokenAware: bool)
    requires forall o :: o in other ==> GainsAtMost(ratio, rows, CoverageOf(rows, chosen), tokenAware, o)
    ensures Gap(rows, other, chosen) <= Times(TotalCost(other, tokenAware), ratio)
  {
    UnionBound(rows, chosen, other);
    CoverageGrows(rows, other, chosen + other);
    GainsAdd(rows, CoverageOf(rows, chosen), other, ratio, tokenAware);
  }

  /** The step that takes `c` brings the gap down by at least its share of it. */
  ghost predicate StepCloses(l: Limits, c: Candidate, before: real, after: real)
    requires l.Active() > 0
  {
    before - after >= Share(l, c) * before
  }

  lemma {:induction false} StepArithmetic(gap: real, gain: real, ratio: real, cost: real, spent: real, budget: real)
    requires 0.0 <= spent <= budget && 0.0 < cost && 0.0 < budget && 0.0 <= ratio
    requires gap <= spent * ratio && gain == cost * ratio
    ensures gain >= (cost / budget) * gap
  {
    var more := Scale(spent, budget, ratio);
    var room := Scale(gap, budget * ratio, cost / budget);
    assert (budget * ratio) * (cost / budget) == cost * ratio;
  }

  lemma {:induction false} ShareIsClosed(l: Limits, c: Candidate, before: real, after: real, ratio: real, spent: nat)
    requires spent <= l.Active() && CostOf(c, l.TokenAware()) > 0 && l.Active() > 0 && ratio >= 0.0
    requires before <= Times(spent, ratio) && before - after == Times(CostOf(c, l.TokenAware()), ratio)
    ensures StepCloses(l, c, before, after)
  {
    TimesIsProduct(spent, ratio);
    TimesIsProduct(CostOf(c, l.TokenAware()), ratio);
    StepArithmetic(before, before - after, ratio, CostOf(c, l.TokenAware()) as real, spent as real, l.Active() as real);
  }

  lemma {:induction false} StepFacts(l: Limits, rows: seq<Candidate>, remaining: set<Candidate>,
                                     chosen: seq<Candidate>, c: Candidate, other: seq<Candidate>) returns (ratio: real)
    requires Costly(remaining) && IsBest(l, rows, remaining, chosen, c)
    requires Reachable(l, remaining, chosen, other)
    ensures ratio >= 0.0
    ensures Gap(rows, other, chosen) <= Times(TotalCost(other, l.TokenAware()), ratio)
    ensures Gap(rows, other, chosen) - Gap(rows, other, chosen + [c]) == Times(CostOf(c, l.TokenAware()), ratio)
  {
    ratio := BestRatio(l, rows, remaining, chosen, c, other);
    GapIsBounded(rows, chosen, other, ratio, l.TokenAware());
    GainIsMarginal(rows, chosen, c);
  }

  /** One greedy step of cost c closes at least the share c/B of the gap to any
      choice `other` that the active budget B could pay for. */
  lemma {:induction false} GreedyStepGuarantee(l: Limits, rows: seq<Candidate>, remaining: set<Candidate>,
                                               chosen: seq<Candidate>, c: Candidate, other: seq<Candidate>)
    requires Costly(remaining) && IsBest(l, rows, remaining, chosen, c)
    requires Reachable(l, remaining, chosen, other) && TotalCost(other, l.TokenAware()) <= l.Active()
    ensures l.Active() > 0
    ensures StepCloses(l, c, Gap(rows, other, chosen), Gap(rows, other, chosen + [c]))
  {
    var ratio := StepFacts(l, rows, remaining, chosen, c, other);
    ShareIsClosed(l, c, Gap(rows, other, chosen), Gap(rows, other, chosen + [c]), ratio,
                  TotalCost(other, l.TokenAware()));
  }

  // --------------------------------------------------------- the whole run

  /** The part of a gap that is still open after the steps `taken`. */
  ghost function OpenShare(l: Limits, taken: seq<Candidate>): real
    requires l.Active() > 0
  {
    if taken == [] then 1.0
    else OpenShare(l, taken[..|taken| - 1])
         * (1.0 - Share(l, taken[|taken| - 1]))
  }

  /** After `taken`, the gap `first` has shrunk to `now`, at most its open share. */
  ghost predicate LeftOpen(l: Limits, taken: seq<Candidate>, first: real, now: real)
    requires l.Active() > 0
  {
    now <= OpenShare(l, taken) * first
  }

  /** `other` is within reach before each of the first `k` steps of `run`. */
  ghost predicate StaysReachable(l: Limits, remaining: set<Candidate>, start: seq<Candidate>, run: seq<Candidate>,
                                 other: seq<Candidate>, k: nat)
    requires k <= |run|
  {
    forall i :: 0 <= i < k ==> Reachable(l, remaining - Members(run[..i]), start + run[..i], other)
  }

  lemma {:induction false} EagerUnfold(l: Limits, rows: seq<Candidate>, remaining: set<Candidate>,
                                       start: seq<Candidate>)
    requires Costly(remaining) && EagerGreedy(l, rows, remaining, start) != []
    ensures var run := EagerGreedy(l, rows, remaining, start); var c := run[0];
      && IsWorthyBest(l, rows, remaining, start, c)
      && run[1..] == EagerGreedy(l, rows, remaining - {c}, start + [c])
      && start + run == (start + [c]) + run[1..]
  {
  }

  lemma {:induction false} TailSplit(remaining: set<Candidate>, start: seq<Candidate>, run: seq<Candidate>, k: nat)
    requires 0 < k <= |run|
    ensures start + run[..k] == (start + [run[0]]) + run[1..][..k - 1]
    ensures remaining - Members(run[..k]) == (remaining - {run[0]}) - Members(run[1..][..k - 1])
  {
    assert run[..k] == [run[0]] + run[1..][..k - 1];
  }

  /** The k-th element of the eager run is the worthy best of what is left then. */
  lemma {:induction false} EagerRunStep(l: Limits, rows: seq<Candidate>, remaining: set<Candidate>,
                                        start: seq<Candidate>, k: nat)
    requires Costly(remaining)
    requires k < |EagerGreedy(l, rows, remaining, start)|
    ensures var run := EagerGreedy(l, rows, remaining, start);
      IsWorthyBest(l, rows, remaining - Members(run[..k]), start + run[..k], run[k])
    decreases k
  {
    var run := EagerGreedy(l, rows, remaining, start);
    var c := run[0];
    EagerUnfold(l, rows, remaining, start);
    if k == 0 {
      assert start + run[..0] == start && remaining - Members(run[..0]) == remaining;
    } else {
      EagerRunStep(l, rows, remaining - {c}, start + [c], k - 1);
      TailSplit(remaining, start, run, k);
    }
  }

  /** Where the run stops, no fitting candidate gains anything. */
  lemma {:induction false} EagerRunEnd(l: Limits, rows: seq<Candidate>, remaining: set<Candidate>,
                                       start: seq<Candidate>)
    requires Costly(remaining)
    ensures var run := EagerGreedy(l, rows, remaining, start);
      && Members(run) <= remaining
      && forall d :: !IsWorthyBest(l, rows, remaining - Members(run), start + run, d)
    decreases |remaining|
  {
    var run := EagerGreedy(l, rows, remaining, start);
    if run == [] {
      assert start + run == start && remaining - Members(run) == remaining;
    } else {
      var c := run[0];
      EagerRunEnd(l, rows, remaining - {c}, start + [c]);
      assert start + run == (start + [c]) + run[1..];
      assert remaining - Members(run) == (remaining - {c}) - Members(run[1..]);
    }
  }

  /** The run takes nothing twice. */
  lemma {:induction false} RunIsPart(l: Limits, rows: seq<Candidate>, remaining: set<Candidate>, start: seq<Candidate>)
    requires Costly(remaining)
    ensures multiset(EagerGreedy(l, rows, remaining, start)) <= multiset(remaining)
    decreases |remaining|
  {
    var run := EagerGreedy(l, rows, remaining, start);
    if run != [] {
      EagerUnfold(l, rows, remaining, start);
      RunIsPart(l, rows, remaining - {run[0]}, start + [run[0]]);
      assert run == [run[0]] + run[1..];
    }
  }

  lemma {:induction false} PartOfOne(cost: real, budget: real)
    requires 0.0 <= cost <= budget && budget > 0.0
    ensures 0.0 <= cost / budget <= 1.0
  {
    var share := cost / budget;
    assert share * budget == cost;
    if share < 0.0 { var less := StrictScale(share, 0.0, budget); }
    if share > 1.0 { var more := StrictScale(1.0, share, budget); }
  }

  lemma {:induction false} ShareOfBudget(l: Limits, chosen: seq<Candidate>, c: Candidate)
    requires Fits(l, chosen, c) && l.Active() > 0
    ensures 0.0 <= Share(l, c) <= 1.0
  {
    PartOfOne(CostOf(c, l.TokenAware()) as real, l.Active() as real);
  }

  lemma {:induction false} PrefixSplit(start: seq<Candidate>, run: seq<Candidate>, k: nat)
    requires 0 < k <= |run|
    ensures run[..k] == run[..k - 1] + [run[k - 1]]
    ensures start + run[..k] == (start + run[..k - 1]) + [run[k - 1]]
  {
  }

  lemma {:induction false} Shrink(first: real, before: real, after: real, open: real, share: real)
    requires 0.0 <= share <= 1.0
    requires before <= open * first && before - after >= share * before
    ensures after <= (open * (1.0 - share)) * first
  {
    var more := Scale(before, open * first, 1.0 - share);
    assert before * (1.0 - share) == before - share * before;
    assert (open * first) * (1.0 - share) == (open * (1.0 - share)) * first;
  }

  lemma {:induction false} CloseGap(l: Limits, taken: seq<Candidate>, c: Candidate, first: real, before: real,
                                    after: real)
    requires l.Active() > 0 && 0.0 <= Share(l, c) <= 1.0
    requires LeftOpen(l, taken, first, before) && StepCloses(l, c, before, after)
    ensures LeftOpen(l, taken + [c], first, after)
  {
    assert (taken + [c])[..|taken|] == taken;
    Shrink(first, before, after, OpenShare(l, taken), Share(l, c));
  }

  lemma {:induction false} OneMoreStep(l: Limits, rows: seq<Candidate>, left: set<Candidate>, start: seq<Candidate>,
                                       taken: seq<Candidate>, c: Candidate, other: seq<Candidate>)
    requires Costly(left) && l.Active() > 0 && TotalCost(other, l.TokenAware()) <= l.Active()
    requires IsBest(l, rows, left, start + taken, c) && Reachable(l, left, start + taken, other)
    requires LeftOpen(l, taken, Gap(rows, other, start), Gap(rows, other, start + taken))
    ensures LeftOpen(l, taken + [c], Gap(rows, other, start), Gap(rows, other, (start + taken) + [c]))
  {
    GreedyStepGuarantee(l, rows, left, start + taken, c, other);
    ShareOfBudget(l, start + taken, c);
    CloseGap(l, taken, c, Gap(rows, other, start), Gap(rows, other, start + taken),
             Gap(rows, other, (start + taken) + [c]));
  }

  /** As long as everything in `other` stays within reach, k greedy steps leave
      open at most the product of (1 - c/B) of the initial gap. */
  lemma {:induction false} GreedyRunGuarantee(l: Limits, rows: seq<Candidate>, remaining: set<Candidate>,
                                              start: seq<Candidate>, other: seq<Candidate>, k: nat)
    requires Costly(remaining) && l.Active() > 0
    requires TotalCost(other, l.TokenAware()) <= l.Active()
    requires k <= |EagerGreedy(l, rows, remaining, start)|
    requires StaysReachable(l, remaining, start, EagerGreedy(l, rows, remaining, start), other, k)
    ensures var run := EagerGreedy(l, rows, remaining, start);
      LeftOpen(l, run[..k], Gap(rows, other, start), Gap(rows, other, start + run[..k]))
  {
    var run := EagerGreedy(l, rows, remaining, start);
    if k == 0 {
      assert start + run[..0] == start;
    } else {
      GreedyRunGuarantee(l, rows, remaining, start, other, k - 1);
      EagerRunStep(l, rows, remaining, start, k - 1);
      OneMoreStep(l, rows, remaining - Members(run[..k - 1]), start, run[..k - 1], run[k - 1], other);
      PrefixSplit(start, run, k);
    }
  }

  lemma {:induction false} BestExists(l: Limits, rows: seq<Candidate>, fitting: set<Candidate>,
                                      chosen: seq<Candidate>) returns (c: Candidate)
    requires Costly(fitting) && KeysApart(fitting) && fitting != {}
    ensures c in fitting
    ensures forall d :: d in fitting && d != c ==> Ahead(l, rows, chosen, c, d)
    decreases |fitting|
  {
    var x :| x in fitting;
    if fitting - {x} == {} {
      assert forall d :: d in fitting ==> d == x || d in fitting - {x};
      c := x;
    } else {
      var m := BestExists(l, rows, fitting - {x}, chosen);
      c := if Ahead(l, rows, chosen, m, x) then m else x;
      assert forall d :: d in fitting ==> d == x || d in fitting - {x};
    }
  }

  lemma {:induction false} FittingGainsNothing(l: Limits, rows: seq<Candidate>, left: set<Candidate>,
                                               chosen: seq<Candidate>, o: Candidate)
    requires Costly(left) && KeysApart(left)
    requires forall d :: !IsWorthyBest(l, rows, left, chosen, d)
    requires o in left && Fits(l, chosen, o)
    ensures Gain(o, rows, CoverageOf(rows, chosen)) <= 0.0
  {
    var fitting := set d | d in left && Fits(l, chosen, d);
    assert o in fitting;
    var c := BestExists(l, rows, fitting, chosen);
    assert IsBest(l, rows, left, chosen, c) && !IsWorthyBest(l, rows, left, chosen, c);
    PositiveRatio(Gain(c, rows, CoverageOf(rows, chosen)), CostOf(c, l.TokenAware()) as real);
    PositiveRatio(Gain(o, rows, CoverageOf(rows, chosen)), CostOf(o, l.TokenAware()) as real);
  }

  lemma {:induction false} NoGainLeft(l: Limits, rows: seq<Candidate>, left: set<Candidate>,
                                      chosen: seq<Candidate>, other: seq<Candidate>)
    requires Costly(left) && KeysApart(left)
    requires forall d :: !IsWorthyBest(l, rows, left, chosen, d)
    requires Reachable(l, left, chosen, other)
    ensures GainTotal(other, rows, CoverageOf(rows, chosen)) <= 0.0
  {
    if other != [] {
      var front, o := other[..|other| - 1], other[|other| - 1];
      assert other == front + [o];
      NoGainLeft(l, rows, left, chosen, front);
      if o in chosen {
        ChosenGainsNothing(o, rows, chosen, |rows|);
      } else {
        FittingGainsNothing(l, rows, left, chosen, o);
      }
    }
  }

  /** A run that stops while `other` is still within reach is at least as good. */
  lemma {:induction false} GreedyStopIsOptimal(l: Limits, rows: seq<Candidate>, remaining: set<Candidate>,
                                               start: seq<Candidate>, other: seq<Candidate>)
    requires Costly(remaining) && KeysApart(remaining)
    requires var run := EagerGreedy(l, rows, remaining, start);
      Reachable(l, remaining - Members(run), start + run, other)
    ensures Objective(rows, other) <= Objective(rows, start + EagerGreedy(l, rows, remaining, start))
  {
    var run := EagerGreedy(l, rows, remaining, start);
    var left := remaining - Members(run);
    EagerRunEnd(l, rows, remaining, start);
    NoGainLeft(l, rows, left, start + run, other);
    UnionBound(rows, start + run, other);
    CoverageGrows(rows, other, (start + run) + other);
  }

  /** All of `other` is in the run's own start or still to be chosen from. */
  ghost predicate Available(remaining: set<Candidate>, start: seq<Candidate>, other: seq<Candidate>) {
    forall o :: o in other ==> o in start || o in remaining
  }

  /** After k steps some member of `other` is left over and no longer fits. */
  ghost predicate SqueezedOutAt(l: Limits, remaining: set<Candidate>, start: seq<Candidate>, run: seq<Candidate>,
                                other: seq<Candidate>, k: nat)
    requires k <= |run|
  {
    exists o :: o in other && o !in start + run[..k] && o in remaining && !Fits(l, start + run[..k], o)
  }

  /** The first position up to `n` at which `other` is out of reach, or `n`. */
  lemma {:induction false} FirstOutOfReach(l: Limits, remaining: set<Candidate>, start: seq<Candidate>,
                                           run: seq<Candidate>, other: seq<Candidate>, n: nat) returns (k: nat)
    requires n <= |run|
    ensures k <= n && StaysReachable(l, remaining, start, run, other, k)
    ensures k < n ==> !Reachable(l, remaining - Members(run[..k]), start + run[..k], other)
  {
    k := 0;
    if n > 0 {
      k := FirstOutOfReach(l, remaining, start, run, other, n - 1);
      if k == n - 1 && Reachable(l, remaining - Members(run[..k]), start + run[..k], other) { k := n; }
    }
  }

  lemma {:induction false} OutOfReachIsSqueezedOut(l: Limits, remaining: set<Candidate>, start: seq<Candidate>,
                                                   run: seq<Candidate>, other: seq<Candidate>, k: nat)
    requires k <= |run| && Available(remaining, start, other)
    requires !Reachable(l, remaining - Members(run[..k]), start + run[..k], other)
    ensures SqueezedOutAt(l, remaining, start, run, other, k)
  {
    assert forall o :: o in Members(run[..k]) ==> o in start + run[..k];
  }

  /** Without any assumption about what stays in reach: against every affordable choice
      the final selection is at least as good, or after some k steps a member of the
      choice no longer fits, and until then the gap had shrunk to its open share. */
  lemma {:induction false} GreedyAgainstAny(l: Limits, rows: seq<Candidate>, remaining: set<Candidate>,
                                            start: seq<Candidate>, other: seq<Candidate>) returns (k: nat)
    requires Costly(remaining) && KeysApart(remaining) && l.Active() > 0
    requires TotalCost(other, l.TokenAware()) <= l.Active() && Available(remaining, start, other)
    ensures var run := EagerGreedy(l, rows, remaining, start);
      && k <= |run|
      && LeftOpen(l, run[..k], Gap(rows, other, start), Gap(rows, other, start + run[..k]))
      && (|| SqueezedOutAt(l, remaining, start, run, other, k)
          || (k == |run| && Objective(rows, other) <= Objective(rows, start + run)))
  {
    var run := EagerGreedy(l, rows, remaining, start);
    k := FirstOutOfReach(l, remaining, start, run, other, |run|);
    GreedyRunGuarantee(l, rows, remaining, start, other, k);
    if Reachable(l, remaining - Members(run[..k]), start + run[..k], other) {
      assert run[..k] == run;
      GreedyStopIsOptimal(l, rows, remaining, start, other);
    } else {
      OutOfReachIsSqueezedOut(l, remaining, start, run, other, k);
    }
  }

  // ------------------------------------------------------- where the run ends

  lemma {:induction false} EagerStaysInBudget(l: Limits, rows: seq<Candidate>, remaining: set<Candidate>,
                                              start: seq<Candidate>)
    requires Costly(remaining) && WithinBudget(l, start)
    ensures WithinBudget(l, start + EagerGreedy(l, rows, remaining, start))
    decreases |remaining|
  {
    var run := EagerGreedy(l, rows, remaining, start);
    if run == [] {
      assert start + run == start;
    } else {
      EagerUnfold(l, rows, remaining, start);
      UsedStep(start, run[0]);
      EagerStaysInBudget(l, rows, remaining - {run[0]}, start + [run[0]]);
    }
  }

  lemma {:induction false} GreedyIsMaximal(l: Limits, rows: seq<Candidate>, start: seq<Candidate>,
                                           rest: seq<Candidate>, row: Candidate)
    requires PositiveCosts(rest) && DistinctKeys(rest) && WithinBudget(l, start)
    requires row in start || row in rest
    ensures var out := start + EagerGreedy(l, rows, Members(rest), start);
      && WithinBudget(l, out)
      && (row in out || !Fits(l, out, row) || Objective(rows, out + [row]) == Objective(rows, out))
  {
    EagerStaysInBudget(l, rows, Members(rest), start);
    EagerRunEnd(l, rows, Members(rest), start);
    MembersApart(rest);
    var run := EagerGreedy(l, rows, Members(rest), start);
    if row !in start + run && Fits(l, start + run, row) {
      FittingGainsNothing(l, rows, Members(rest) - Members(run), start + run, row);
      GainIsMarginal(rows, start + run, row);
      GainShrinks(row, rows, CoverageOf(rows, start + run), CoverageOf(rows, start + run), |rows|);
    }
  }

  // --------------------------------------------- the choices, on the objective

  /** More gain for the cost than `other` for `otherCost`, or as much and first. */
  ghost predicate PaysMore(gain: real, cost: nat, other: real, otherCost: nat, first: bool) {
    || gain * otherCost as real > other * cost as real
    || (gain * otherCost as real == other * cost as real && first)
  }

  lemma {:induction false} RatiosCompare(a: real, d: nat, b: real, e: nat, first: bool)
    requires d > 0 && e > 0
    requires a / d as real > b / e as real || (a / d as real == b / e as real && first)
    ensures PaysMore(a, d, b, e, first)
  {
    var d', e' := d as real, e as real;
    var x, y := a / d', b / e';
    assert x * d' == a && y * e' == b;
    var product := PositiveProduct(d', e');
    assert a * e' == x * product && b * d' == y * product;
    if x > y {
      var gap := StrictScale(y, x, product);
    }
  }

  /** What choosing `c` as well adds to the objective. */
  ghost function Added(rows: seq<Candidate>, chosen: seq<Candidate>, c: Candidate): real {
    Objective(rows, chosen + [c]) - Objective(rows, chosen)
  }

  lemma {:induction false} AddedIsGain(rows: seq<Candidate>, chosen: seq<Candidate>, c: Candidate)
    ensures Added(rows, chosen, c) == Gain(c, rows, CoverageOf(rows, chosen))
  {
    GainIsMarginal(rows, chosen, c);
  }

  /** On the objective and the fields of the rows: `c` raises the objective, by more per unit
      of active cost than `d`, or by as much and with the smaller key. */
  ghost predicate PicksWell(byTokens: bool, rows: seq<Candidate>, chosen: seq<Candidate>, c: Candidate, d: Candidate) {
    && Added(rows, chosen, c) > 0.0
    && PaysMore(Added(rows, chosen, c), if byTokens then c.tokenCost else c.charCost,
                Added(rows, chosen, d), if byTokens then d.tokenCost else d.charCost,
                c.item.key < d.item.key)
  }

  lemma {:induction false} BestPicksWell(l: Limits, rows: seq<Candidate>, remaining: set<Candidate>,
                                         chosen: seq<Candidate>, c: Candidate, d: Candidate)
    requires Costly(remaining) && IsWorthyBest(l, rows, remaining, chosen, c)
    requires d in remaining && d != c && Fits(l, chosen, d)
    ensures PicksWell(l.tokens.Some?, rows, chosen, c, d)
  {
    AddedIsGain(rows, chosen, c);
    AddedIsGain(rows, chosen, d);
    assert Ahead(l, rows, chosen, c, d);
    RatiosCompare(Gain(c, rows, CoverageOf(rows, chosen)), CostOf(c, l.TokenAware()),
                  Gain(d, rows, CoverageOf(rows, chosen)), CostOf(d, l.TokenAware()), c.item.key < d.item.key);
  }

  /** Every choice of the greedy run pays better than any other candidate that fits. */
  lemma {:induction false} RunPicksWell(l: Limits, rows: seq<Candidate>, remaining: set<Candidate>,
                                        start: seq<Candidate>, m: nat, d: Candidate)
    requires Costly(remaining) && m < |EagerGreedy(l, rows, remaining, start)|
    requires var out := start + EagerGreedy(l, rows, remaining, start); var k := |start| + m;
      (d in start || d in remaining) && d !in out[..k] && d != out[k] && Fits(l, out[..k], d)
    ensures var out := start + EagerGreedy(l, rows, remaining, start); var k := |start| + m;
      PicksWell(l.tokens.Some?, rows, out[..k], out[k], d)
  {
    var run := EagerGreedy(l, rows, remaining, start);
    assert (start + run)[..|start| + m] == start + run[..m];
    EagerRunStep(l, rows, remaining, start, m);
    BestPicksWell(l, rows, remaining - Members(run[..m]), start + run[..m], run[m], d);
  }
}
