/** Off-policy estimators over logged decisions: what they average to under the
    logging distribution, and the bounds they keep. */
module OffPolicy {
  import opened Wrappers
  import opened Exploration
  import opened Products

  /** A missing or non-finite number is `None`. */
  datatype Outcome = Outcome(reward: Option<real>, cost: Option<real>)

  /** A logged decision with its outcome; `None` stands for a field that is no object. */
  datatype Row = Row(lowRisk: bool, context: nat, chosen: Arm,
                     propensities: Option<map<Arm, Option<real>>>, outcome: Option<Outcome>)

  function Probability(row: Row, arm: Arm): Option<real> {
    if row.propensities.Some? && arm in row.propensities.value then row.propensities.value[arm] else None
  }

  predicate HasMass(row: Row, arm: Arm) { Probability(row, arm).Some? && Probability(row, arm).value > 0.0 }

  function Reward(row: Row): Option<real> { if row.outcome.Some? then row.outcome.value.reward else None }

  function Cost(row: Row): Option<real> { if row.outcome.Some? then row.outcome.value.cost else None }

  // ------------------------------------------------- the doubly robust score

  /** `target_action_for_row`. */
  function TargetAction(row: Row, policy: map<nat, Arm>): Arm {
    if !row.lowRisk then BASELINE
    else
      var requested := if row.context in policy then policy[row.context] else BASELINE;
      if HasMass(row, requested) then requested else BASELINE
  }

  /** What an outcome drawn with probability p stands for. */
  function Share(x: real, p: real): real
    requires p > 0.0
  {
    x / p
  }

  /** `_dr_value`, for a model's prediction per arm in the row's context. */
  function DrValue(row: Row, observed: Option<real>, target: Arm, predict: Arm -> real): Option<real> {
    if observed.None? || !HasMass(row, row.chosen) then None
    else
      var correction :=
        if row.chosen != target then 0.0
        else Share(observed.value - predict(row.chosen), Probability(row, row.chosen).value);
      Some(predict(target) + correction)
  }

  // ---------------------------------------------------- the sequential score

  datatype Refusal = InvalidOutcome | RewardRange | InvalidPropensity | WeightViolation

  function Weighed(weight: real, reward: real): real { weight * reward }

  /** The weighted reward counts for the target and against the baseline. */
  function Contrast(term: real, asTarget: bool, asBaseline: bool): real {
    (if asTarget then term else 0.0) - (if asBaseline then term else 0.0)
  }

  /** `_sequential_reward_score`. */
  function SequentialScore(row: Row, target: Arm, lo: real, hi: real, maxWeight: real): Result<real, Refusal> {
    if row.outcome.None? then Err(InvalidOutcome)
    else if Reward(row).None? || Reward(row).value < lo || Reward(row).value > hi then Err(RewardRange)
    else if !HasMass(row, row.chosen) then Err(InvalidPropensity)
    else
      var weight := 1.0 / Probability(row, row.chosen).value;
      if (row.chosen == target || row.chosen == BASELINE) && weight > maxWeight then Err(WeightViolation)
      else Ok(Contrast(Weighed(weight, Reward(row).value), row.chosen == target, row.chosen == BASELINE))
  }

  function Abs(x: real): real { if x < 0.0 then -x else x }

  function Max(x: real, y: real): real { if x >= y then x else y }

  const TINY: real := 0.000000000001

  /** The absolute bound handed to the confidence sequence. */
  function AbsoluteBound(lo: real, hi: real, maxWeight: real): real {
    Max(Weighed(maxWeight, Max(Abs(lo), Abs(hi))), TINY)
  }

  lemma {:induction false} WeightedBound(w: real, maxWeight: real, r: real, bound: real)
    requires 0.0 <= w <= maxWeight && -bound <= r <= bound
    ensures -(maxWeight * bound) <= w * r <= maxWeight * bound
  {
    var above := Scale(r, bound, w);
    var below := Scale(-bound, r, w);
    var cap := Scale(w, maxWeight, bound);
    assert bound * w == w * bound && -bound * w == -(w * bound) && r * w == w * r;
  }

  lemma {:induction false} ContrastIsBounded(w: real, maxWeight: real, r: real, bound: real, asTarget: bool,
                                             asBaseline: bool)
    requires 0.0 <= w <= maxWeight && -bound <= r <= bound
    ensures Abs(Contrast(Weighed(w, r), asTarget, asBaseline)) <= Weighed(maxWeight, bound)
  {
    WeightedBound(w, maxWeight, r, bound);
  }

  lemma {:induction false} Reciprocal(p: real)
    requires p > 0.0
    ensures 1.0 / p > 0.0 && (1.0 / p) * p == 1.0
  {
    var w := 1.0 / p;
    assert w * p == 1.0;
    if w <= 0.0 { var gap := Scale(w, 0.0, p); }
  }

  /** No score leaves the bound, whatever the row says. */
  lemma {:induction false} SequentialScoreIsBounded(row: Row, target: Arm, lo: real, hi: real, maxWeight: real)
    requires SequentialScore(row, target, lo, hi, maxWeight).Ok?
    ensures Abs(SequentialScore(row, target, lo, hi, maxWeight).value) <= AbsoluteBound(lo, hi, maxWeight)
  {
    var bound := Max(Abs(lo), Abs(hi));
    if row.chosen == target || row.chosen == BASELINE {
      var p, r := Probability(row, row.chosen).value, Reward(row).value;
      Reciprocal(p);
      ContrastIsBounded(1.0 / p, maxWeight, r, bound, row.chosen == target, row.chosen == BASELINE);
    }
  }

  lemma {:induction false} InverseOfInverse(w: real)
    requires w > 0.0
    ensures 1.0 / w > 0.0 && 1.0 / (1.0 / w) == w
  {
    Reciprocal(w);
    var p := 1.0 / w;
    Reciprocal(p);
    var q := 1.0 / p;
    assert q * p == 1.0 && w * p == 1.0;
    if q < w { var gap := StrictScale(q, w, p); }
    if q > w { var gap := StrictScale(w, q, p); }
  }

  /** The bound is no larger than it must be: a row drawn at the cap with the reward farthest
      from 0 reaches it, unless it is the floor of 1e-12. */
  lemma {:induction false} BoundIsReached(lo: real, hi: real, maxWeight: real) returns (row: Row)
    requires lo <= hi && maxWeight > 0.0
    ensures var score := SequentialScore(row, SourceRank, lo, hi, maxWeight);
      var bound := AbsoluteBound(lo, hi, maxWeight);
      score.Ok? && (Abs(score.value) == bound || bound == 0.000000000001)
  {
    InverseOfInverse(maxWeight);
    var reward := if Abs(lo) >= Abs(hi) then lo else hi;
    row := Row(true, 0, SourceRank, Some(map[SourceRank := Some(1.0 / maxWeight)]),
               Some(Outcome(Some(reward), None)));
    assert Probability(row, SourceRank) == Some(1.0 / maxWeight) && Reward(row) == Some(reward);
    var above := Scale(0.0, Abs(reward), maxWeight);
    assert maxWeight * reward == if reward < 0.0 then -(maxWeight * Abs(reward)) else maxWeight * Abs(reward);
    assert maxWeight * Abs(reward) == Abs(reward) * maxWeight;
    assert Weighed(maxWeight, reward) == maxWeight * reward;
  }

  /** Why a row is refused: the reward is checked before the propensity, and that before the weight. */
  lemma {:induction false} RefusedFor(row: Row, target: Arm, lo: real, hi: real, maxWeight: real)
    ensures var score := SequentialScore(row, target, lo, hi, maxWeight);
      var inRange := row.outcome.Some? && row.outcome.value.reward.Some? && lo <= row.outcome.value.reward.value <= hi;
      var drawn := && row.propensities.Some? && row.chosen in row.propensities.value
                   && row.propensities.value[row.chosen].Some? && row.propensities.value[row.chosen].value > 0.0;
      && (score == Err(InvalidOutcome) <==> row.outcome.None?)
      && (score == Err(RewardRange) <==> row.outcome.Some? && !inRange)
      && (score == Err(InvalidPropensity) <==> inRange && !drawn)
      && (score == Err(WeightViolation) ==>
            inRange && drawn && (row.chosen == target || row.chosen == AdaptiveMath))
      && (inRange && drawn && row.chosen != target && row.chosen != AdaptiveMath ==> score == Ok(0.0))
  {
  }

  // --------------------------------------------- averages over the logged arm

  /** How decisions are logged in one context: distinct arms with probabilities that
      sum to 1, and what each arm earns. */
  datatype Logging = Logging(arms: seq<Arm>, p: Arm -> real, earns: Arm -> real)

  function Mass(g: Logging, n: nat): real
    requires n <= |g.arms|
  {
    if n == 0 then 0.0 else Mass(g, n - 1) + g.p(g.arms[n - 1])
  }

  ghost predicate IsLogging(g: Logging) {
    && Distinct(g.arms) && (forall i :: 0 <= i < |g.arms| ==> g.p(g.arms[i]) >= 0.0)
    && Mass(g, |g.arms|) == 1.0
  }

  function Term(g: Logging, f: Arm -> real, a: Arm): real { Weighed(g.p(a), f(a)) }

  /** The probability-weighted sum of `f` over the first `n` arms. */
  function Mean(g: Logging, f: Arm -> real, n: nat): real
    requires n <= |g.arms|
  {
    if n == 0 then 0.0 else Mean(g, f, n - 1) + Term(g, f, g.arms[n - 1])
  }

  /** The row logged when `arm` is drawn. */
  function Logged(g: Logging, row: Row, arm: Arm): Row {
    row.(chosen := arm, propensities := Some(map a | a in g.arms :: Some(g.p(a))),
         outcome := Some(Outcome(Some(g.earns(arm)), None)))
  }

  /** The doubly robust score of the logged row; an arm without mass is never drawn. */
  function DrScore(g: Logging, row: Row, target: Arm, predict: Arm -> real): Arm -> real {
    arm =>
      var v := DrValue(Logged(g, row, arm), Reward(Logged(g, row, arm)), target, predict);
      if v.Some? then v.value else 0.0
  }

  function LevelOf(g: Logging, level: real, a: Arm): real { Weighed(level, g.p(a)) }

  function Level(g: Logging, level: real, n: nat): real
    requires n <= |g.arms|
  {
    if n == 0 then 0.0 else Level(g, level, n - 1) + LevelOf(g, level, g.arms[n - 1])
  }

  /** An arm adds its share of the level, and the target the peak. */
  predicate Contributes(g: Logging, f: Arm -> real, a: Arm, level: real, target: Arm, peak: real) {
    Term(g, f, a) == LevelOf(g, level, a) + if a == target then peak else 0.0
  }

  lemma {:induction false} MeanOfParts(g: Logging, f: Arm -> real, level: real, target: Arm, peak: real, n: nat)
    requires n <= |g.arms| && Distinct(g.arms)
    requires forall i :: 0 <= i < |g.arms| ==> Contributes(g, f, g.arms[i], level, target, peak)
    ensures Mean(g, f, n) == Level(g, level, n) + if target in g.arms[..n] then peak else 0.0
  {
    if n > 0 {
      var a := g.arms[n - 1];
      MeanOfParts(g, f, level, target, peak, n - 1);
      assert g.arms[..n] == g.arms[..n - 1] + [a];
      assert Contributes(g, f, a, level, target, peak);
    }
  }

  lemma {:induction false} Distribute(k: real, x: real, y: real)
    ensures k * (x + y) == k * x + k * y
  {
  }

  lemma {:induction false} LevelIsProduct(g: Logging, level: real, n: nat)
    requires n <= |g.arms|
    ensures Level(g, level, n) == level * Mass(g, n)
  {
    if n > 0 {
      LevelIsProduct(g, level, n - 1);
      Distribute(level, Mass(g, n - 1), g.p(g.arms[n - 1]));
    }
  }

  lemma {:induction false} DrTerm(p: real, prediction: real, gap: real)
    requires p > 0.0
    ensures Weighed(p, prediction + Share(gap, p)) == Weighed(prediction, p) + gap
    ensures Weighed(p, prediction + 0.0) == Weighed(prediction, p)
  {
    assert (gap / p) * p == gap;
    assert p * (prediction + gap / p) == prediction * p + (gap / p) * p;
  }

  /** What the correction adds on average. */
  function DrPeak(g: Logging, target: Arm, predict: Arm -> real): real {
    if g.p(target) > 0.0 then g.earns(target) - predict(target) else 0.0
  }

  lemma {:induction false} DrScoreOf(g: Logging, row: Row, target: Arm, predict: Arm -> real, a: Arm)
    requires a in g.arms && g.p(a) >= 0.0
    ensures Contributes(g, DrScore(g, row, target, predict), a, predict(target), target, DrPeak(g, target, predict))
  {
    assert Logged(g, row, a).propensities.value[a] == Some(g.p(a));
    if g.p(a) > 0.0 {
      DrTerm(g.p(a), predict(target), g.earns(a) - predict(a));
    }
  }

  /** Under the logging distribution the doubly robust score averages to what the
      target arm earns, for any model, exactly when the target has mass or the model
      is right about it. */
  lemma {:induction false} DoublyRobustIsUnbiased(g: Logging, row: Row, target: Arm, predict: Arm -> real)
    requires IsLogging(g) && target in g.arms
    ensures (Mean(g, DrScore(g, row, target, predict), |g.arms|) == g.earns(target)
             <==> g.p(target) > 0.0 || predict(target) == g.earns(target))
  {
    var f := DrScore(g, row, target, predict);
    forall i | 0 <= i < |g.arms|
      ensures Contributes(g, f, g.arms[i], predict(target), target, DrPeak(g, target, predict))
    {
      DrScoreOf(g, row, target, predict, g.arms[i]);
    }
    MeanOfParts(g, f, predict(target), target, DrPeak(g, target, predict), |g.arms|);
    LevelIsProduct(g, predict(target), |g.arms|);
    assert g.arms[..|g.arms|] == g.arms;
  }

  /** A logging policy that never tries the target, and a model that is wrong about it:
      the score averages to what the model says. */
  lemma {:induction false} BiasedWithoutMass(row: Row) returns (g: Logging, target: Arm, predict: Arm -> real)
    ensures IsLogging(g) && target in g.arms && g.p(target) == 0.0
    ensures g.earns(target) == 0.0 && Mean(g, DrScore(g, row, target, predict), |g.arms|) == 1.0
  {
    g := Logging([BASELINE, SourceRank], (a: Arm) => if a == BASELINE then 1.0 else 0.0, (_: Arm) => 0.0);
    target, predict := SourceRank, (a: Arm) => if a == SourceRank then 1.0 else 0.0;
    assert Mass(g, 1) == Mass(g, 0) + 1.0;
    var f := DrScore(g, row, target, predict);
    DrScoreOf(g, row, target, predict, BASELINE);
    DrScoreOf(g, row, target, predict, SourceRank);
    assert Mean(g, f, 1) == Mean(g, f, 0) + Term(g, f, BASELINE);
  }

  /** The target action of a row always has mass if the baseline has, so the
      condition above holds for every policy. */
  lemma {:induction false} TargetActionHasMass(row: Row, policy: map<nat, Arm>)
    requires HasMass(row, BASELINE)
    ensures HasMass(row, TargetAction(row, policy))
    ensures TargetAction(row, policy) != BASELINE ==> row.lowRisk
    ensures row.lowRisk && row.context in policy && HasMass(row, policy[row.context]) ==>
      TargetAction(row, policy) == policy[row.context]
  {
  }

  function Score(g: Logging, row: Row, target: Arm, lo: real, hi: real, maxWeight: real): Arm -> real {
    arm =>
      var s := SequentialScore(Logged(g, row, arm), target, lo, hi, maxWeight);
      if s.Ok? then s.value else 0.0
  }

  /** Target and baseline are drawn often enough for the weight cap. */
  predicate WithinCap(g: Logging, target: Arm, maxWeight: real) {
    && g.p(target) > 0.0 && 1.0 / g.p(target) <= maxWeight
    && g.p(BASELINE) > 0.0 && 1.0 / g.p(BASELINE) <= maxWeight
  }

  lemma {:induction false} Undo(p: real, w: real, r: real)
    requires w * p == 1.0
    ensures p * (w * r) == r && p * -(w * r) == -r
  {
    assert p * (w * r) == (w * p) * r;
  }

  /** An arm adds what it earns as the target, and subtracts it as the baseline. */
  predicate Differs(g: Logging, f: Arm -> real, a: Arm, target: Arm) {
    Term(g, f, a) == (if a == target then g.earns(a) else 0.0) - (if a == BASELINE then g.earns(a) else 0.0)
  }

  lemma {:induction false} ScoreOf(g: Logging, row: Row, target: Arm, lo: real, hi: real, maxWeight: real, a: Arm)
    requires a in g.arms && g.p(a) >= 0.0 && WithinCap(g, target, maxWeight)
    requires lo <= g.earns(a) <= hi
    ensures Differs(g, Score(g, row, target, lo, hi, maxWeight), a, target)
  {
    assert Logged(g, row, a).propensities.value[a] == Some(g.p(a));
    if g.p(a) > 0.0 {
      Reciprocal(g.p(a));
      Undo(g.p(a), 1.0 / g.p(a), g.earns(a));
    }
  }

  lemma {:induction false} MeanOfDifference(g: Logging, f: Arm -> real, target: Arm, n: nat)
    requires n <= |g.arms| && Distinct(g.arms)
    requires forall i :: 0 <= i < |g.arms| ==> Differs(g, f, g.arms[i], target)
    ensures Mean(g, f, n)
         == (if target in g.arms[..n] then g.earns(target) else 0.0)
          - (if BASELINE in g.arms[..n] then g.earns(BASELINE) else 0.0)
  {
    if n > 0 {
      var a := g.arms[n - 1];
      MeanOfDifference(g, f, target, n - 1);
      assert g.arms[..n] == g.arms[..n - 1] + [a];
      assert Differs(g, f, a, target);
    }
  }

  /** The sequential score averages to the target's advantage over the baseline. */
  lemma {:induction false} SequentialScoreIsUnbiased(g: Logging, row: Row, target: Arm, lo: real, hi: real,
                                                     maxWeight: real)
    requires IsLogging(g) && target in g.arms && BASELINE in g.arms && WithinCap(g, target, maxWeight)
    requires forall i :: 0 <= i < |g.arms| ==> lo <= g.earns(g.arms[i]) <= hi
    ensures Mean(g, Score(g, row, target, lo, hi, maxWeight), |g.arms|) == g.earns(target) - g.earns(BASELINE)
  {
    var f := Score(g, row, target, lo, hi, maxWeight);
    forall i | 0 <= i < |g.arms| ensures Differs(g, f, g.arms[i], target) {
      ScoreOf(g, row, target, lo, hi, maxWeight, g.arms[i]);
    }
    MeanOfDifference(g, f, target, |g.arms|);
    assert g.arms[..|g.arms|] == g.arms;
  }

  lemma {:induction false} CapIsReciprocal(w: real, maxWeight: real, p: real)
    requires w * p == 1.0 && p > 0.0
    ensures w > maxWeight <==> Weighed(maxWeight, p) < 1.0
  {
    if w > maxWeight {
      var gap := StrictScale(maxWeight, w, p);
    } else {
      var gap := Scale(w, maxWeight, p);
    }
  }

  /** A drawn arm's score is refused for its weight exactly when the arm is the
      target or the baseline and its probability is below the cap's inverse. */
  lemma {:induction false} RefusedExactlyPastTheCap(g: Logging, row: Row, target: Arm, lo: real, hi: real,
                                                    maxWeight: real, i: nat)
    requires IsLogging(g) && i < |g.arms| && g.p(g.arms[i]) > 0.0 && lo <= g.earns(g.arms[i]) <= hi
    ensures (SequentialScore(Logged(g, row, g.arms[i]), target, lo, hi, maxWeight).Err?
             <==> (g.arms[i] == target || g.arms[i] == BASELINE) && Weighed(maxWeight, g.p(g.arms[i])) < 1.0)
  {
    var a := g.arms[i];
    assert Logged(g, row, a).propensities.value[a] == Some(g.p(a));
    Reciprocal(g.p(a));
    CapIsReciprocal(1.0 / g.p(a), maxWeight, g.p(a));
    assert Probability(Logged(g, row, a), a) == Some(g.p(a)) && Reward(Logged(g, row, a)) == Some(g.earns(a));
  }

  // ---------------------------------------------------- the weighted estimates

  /** `_safe_target_action`. */
  function SafeTargetAction(row: Row, target: Arm): Arm { if HasMass(row, target) then target else BASELINE }

  /** One matched event. */
  datatype Matched = Matched(weight: real, reward: real, cost: real)

  /** What a row contributes to `_estimate`, if anything. */
  function MatchOf(row: Row, target: Arm): Option<Matched> {
    if row.chosen == SafeTargetAction(row, target) && HasMass(row, row.chosen) && Reward(row).Some? && Cost(row).Some?
    then Some(Matched(1.0 / Probability(row, row.chosen).value, Reward(row).value, Cost(row).value))
    else None
  }

  /** What a row adds to the weighted rewards. */
  function IpsTerm(row: Row, target: Arm): real {
    var m := MatchOf(row, target);
    if m.Some? then Weighed(m.value.weight, m.value.reward) else 0.0
  }

  /** The row logged when `arm` is drawn, with a cost. */
  function LoggedAtCost(g: Logging, row: Row, cost: real, arm: Arm): Row {
    Logged(g, row, arm).(outcome := Some(Outcome(Some(g.earns(arm)), Some(cost))))
  }

  function IpsScore(g: Logging, row: Row, cost: real, target: Arm): Arm -> real {
    arm => IpsTerm(LoggedAtCost(g, row, cost, arm), target)
  }

  lemma {:induction false} IpsScoreOf(g: Logging, row: Row, cost: real, target: Arm, a: Arm)
    requires a in g.arms && g.p(a) >= 0.0 && target in g.arms && g.p(target) > 0.0
    ensures Contributes(g, IpsScore(g, row, cost, target), a, 0.0, target, g.earns(target))
  {
    var logged := LoggedAtCost(g, row, cost, a);
    assert Probability(logged, a) == Some(g.p(a)) && Probability(logged, target) == Some(g.p(target));
    assert SafeTargetAction(logged, target) == target;
    if a == target {
      Reciprocal(g.p(a));
      Undo(g.p(a), 1.0 / g.p(a), g.earns(a));
    }
  }

  /** Under the logging distribution the weighted reward of a row averages to what the target
      arm earns, when the target has mass. */
  lemma {:induction false} WeightedRewardIsUnbiased(g: Logging, row: Row, cost: real, target: Arm)
    requires IsLogging(g) && target in g.arms && g.p(target) > 0.0
    ensures Mean(g, IpsScore(g, row, cost, target), |g.arms|) == g.earns(target)
  {
    var f := IpsScore(g, row, cost, target);
    forall i | 0 <= i < |g.arms| ensures Contributes(g, f, g.arms[i], 0.0, target, g.earns(target)) {
      IpsScoreOf(g, row, cost, target, g.arms[i]);
    }
    MeanOfParts(g, f, 0.0, target, g.earns(target), |g.arms|);
    LevelIsProduct(g, 0.0, |g.arms|);
    assert g.arms[..|g.arms|] == g.arms;
  }

  function Matches(rows: seq<Row>, target: Arm): seq<Matched> {
    if rows == [] then []
    else
      var n := |rows| - 1;
      Matches(rows[..n], target) + if MatchOf(rows[n], target).Some? then [MatchOf(rows[n], target).value] else []
  }

  function Total(ms: seq<Matched>): real {
    if ms == [] then 0.0 else Total(ms[..|ms| - 1]) + ms[|ms| - 1].weight
  }

  function Weighted(ms: seq<Matched>): real {
    if ms == [] then 0.0 else Weighted(ms[..|ms| - 1]) + Weighed(ms[|ms| - 1].weight, ms[|ms| - 1].reward)
  }

  function Square(x: real): real { x * x }

  function Squares(ms: seq<Matched>): real {
    if ms == [] then 0.0 else Squares(ms[..|ms| - 1]) + Square(ms[|ms| - 1].weight)
  }

  function Quotient(x: real, y: real): Option<real> { if y > 0.0 then Some(x / y) else None }

  /** `total^2 / sum of squares`, or 0 without matches. */
  function EffectiveSize(total: real, squares: real): real { if squares > 0.0 then total * total / squares else 0.0 }

  datatype Estimate = Estimate(logged: nat, matched: nat, ipsReward: Option<real>, snipsReward: Option<real>,
                                 effectiveSize: real)

  lemma {:induction false} MatchStep(rows: seq<Row>, i: nat, target: Arm)
    requires i < |rows|
    ensures Matches(rows[..i + 1], target)
         == Matches(rows[..i], target) + if MatchOf(rows[i], target).Some? then [MatchOf(rows[i], target).value] else []
  {
    assert rows[..i + 1][..i] == rows[..i];
  }

  lemma {:induction false} SumsStep(ms: seq<Matched>, m: Matched)
    ensures Total(ms + [m]) == Total(ms) + m.weight
    ensures Weighted(ms + [m]) == Weighted(ms) + Weighed(m.weight, m.reward)
    ensures Squares(ms + [m]) == Squares(ms) + Square(m.weight)
  {
    assert (ms + [m])[..|ms|] == ms;
  }

  /** The loop and the sums of `_estimate`, before rounding. */
  method ComputeEstimate(rows: seq<Row>, target: Arm) returns (e: Estimate, ghost ms: seq<Matched>)
    ensures ms == Matches(rows, target) && e.logged == |rows| && e.matched == |ms|
    ensures e.ipsReward == if rows == [] then None else Some(Weighted(ms) / |rows| as real)
    ensures e.snipsReward == Quotient(Weighted(ms), Total(ms))
    ensures e.effectiveSize == EffectiveSize(Total(ms), Squares(ms))
  {
    var total, weighted, squares, matched := 0.0, 0.0, 0.0, 0;
    ms := [];
    for i := 0 to |rows|
      invariant ms == Matches(rows[..i], target) && matched == |ms|
      invariant total == Total(ms) && weighted == Weighted(ms) && squares == Squares(ms)
    {
      var m := MatchOf(rows[i], target);
      MatchStep(rows, i, target);
      if m.Some? {
        SumsStep(ms, m.value);
        total := total + m.value.weight;
        weighted := weighted + m.value.weight * m.value.reward;
        squares := squares + m.value.weight * m.value.weight;
        matched := matched + 1;
        ms := ms + [m.value];
      }
    }
    assert rows[..|rows|] == rows;
    e := Estimate(|rows|, matched, if rows == [] then None else Some(weighted / |rows| as real),
                  Quotient(weighted, total), EffectiveSize(total, squares));
  }

  lemma {:induction false} WeightsArePositive(rows: seq<Row>, target: Arm)
    ensures forall i :: 0 <= i < |Matches(rows, target)| ==> Matches(rows, target)[i].weight > 0.0
  {
    if rows != [] {
      var n := |rows| - 1;
      WeightsArePositive(rows[..n], target);
      if MatchOf(rows[n], target).Some? { Reciprocal(Probability(rows[n], rows[n].chosen).value); }
    }
  }

  // -------------------------------------------------------- Cauchy and Schwarz

  /** The squared distances of the weights from w. */
  function Spread(ms: seq<Matched>, w: real): real {
    if ms == [] then 0.0
    else Spread(ms[..|ms| - 1], w) + Square(ms[|ms| - 1].weight - w)
  }

  function Size(ms: seq<Matched>): real { if ms == [] then 0.0 else Size(ms[..|ms| - 1]) + 1.0 }

  function SlackOf(size: real, squares: real, total: real): real { size * squares - total * total }

  /** The number of events times the squares, less the square of the total. */
  function Slack(ms: seq<Matched>): real { SlackOf(Size(ms), Squares(ms), Total(ms)) }

  /** The spread of `size` weights from w, by their total and their squares. */
  function SpreadOf(squares: real, total: real, size: real, w: real): real {
    squares - 2.0 * (w * total) + size * (w * w)
  }

  lemma {:induction false} SpreadStep(squares: real, total: real, size: real, w: real, x: real)
    ensures SpreadOf(squares + Square(x), total + x, size + 1.0, w) == SpreadOf(squares, total, size, w) + Square(x - w)
  {
    assert (x - w) * (x - w) == x * x - 2.0 * (w * x) + w * w;
    assert w * (total + x) == w * total + w * x;
    assert (size + 1.0) * (w * w) == size * (w * w) + w * w;
  }

  lemma {:induction false} SpreadExpands(ms: seq<Matched>, w: real)
    ensures Spread(ms, w) == SpreadOf(Squares(ms), Total(ms), Size(ms), w)
  {
    if ms != [] {
      var front := ms[..|ms| - 1];
      SpreadExpands(front, w);
      SpreadStep(Squares(front), Total(front), Size(front), w, ms[|ms| - 1].weight);
    }
  }

  lemma {:induction false} SquareOf(d: real) returns (q: real)
    ensures Square(d) == q >= 0.0 && (q == 0.0 <==> d == 0.0)
  {
    if d == 0.0 {
      q := 0.0;
    } else if d > 0.0 {
      q := PositiveProduct(d, d);
    } else {
      q := PositiveProduct(-d, -d);
      assert d * d == -d * -d;
    }
  }

  /** The spread is never negative, and zero exactly when every weight is w. */
  lemma {:induction false} SpreadIsZeroExactly(ms: seq<Matched>, w: real)
    ensures Spread(ms, w) >= 0.0
    ensures Spread(ms, w) == 0.0 <==> forall i :: 0 <= i < |ms| ==> ms[i].weight == w
  {
    if ms != [] {
      var front := ms[..|ms| - 1];
      SpreadIsZeroExactly(front, w);
      var q := SquareOf(ms[|ms| - 1].weight - w);
      assert Spread(ms, w) == Spread(front, w) + q;
      assert (forall i :: 0 <= i < |ms| ==> ms[i].weight == w)
        <==> (forall i :: 0 <= i < |front| ==> front[i].weight == w) && ms[|ms| - 1].weight == w by {
        assert forall i :: 0 <= i < |front| ==> front[i] == ms[i];
      }
    }
  }

  lemma {:induction false} SlackStep(size: real, squares: real, total: real, w: real)
    ensures SlackOf(size + 1.0, squares + Square(w), total + w)
      == SlackOf(size, squares, total) + SpreadOf(squares, total, size, w)
  {
    assert (size + 1.0) * (squares + w * w) == size * squares + size * (w * w) + squares + w * w;
    assert (total + w) * (total + w) == total * total + 2.0 * (w * total) + w * w;
  }

  lemma {:induction false} SlackGrows(ms: seq<Matched>)
    requires ms != []
    ensures Slack(ms) == Slack(ms[..|ms| - 1]) + Spread(ms[..|ms| - 1], ms[|ms| - 1].weight)
  {
    var front, w := ms[..|ms| - 1], ms[|ms| - 1].weight;
    SpreadExpands(front, w);
    SlackStep(Size(front), Squares(front), Total(front), w);
  }

  ghost predicate AllEqual(ms: seq<Matched>) { forall i, j :: 0 <= i < j < |ms| ==> ms[i].weight == ms[j].weight }

  lemma {:induction false} EqualWeights(ms: seq<Matched>)
    requires ms != []
    ensures var front, w := ms[..|ms| - 1], ms[|ms| - 1].weight;
      AllEqual(ms) <==> AllEqual(front) && forall i :: 0 <= i < |front| ==> front[i].weight == w
  {
    var front, w := ms[..|ms| - 1], ms[|ms| - 1].weight;
    if AllEqual(ms) {
      forall i | 0 <= i < |front| ensures front[i].weight == w {
        assert ms[i].weight == ms[|ms| - 1].weight;
      }
    }
  }

  /** The square of the total never exceeds the count times the squares, with
      equality exactly for equal weights. */
  lemma {:induction false} SlackIsNonNegative(ms: seq<Matched>)
    ensures Slack(ms) >= 0.0
    ensures Slack(ms) == 0.0 <==> AllEqual(ms)
  {
    if ms != [] {
      var front, w := ms[..|ms| - 1], ms[|ms| - 1].weight;
      SlackIsNonNegative(front);
      SlackGrows(ms);
      SpreadIsZeroExactly(front, w);
      EqualWeights(ms);
    }
  }

  lemma {:induction false} SizeIsCount(ms: seq<Matched>)
    ensures Size(ms) == |ms| as real
  {
    if ms != [] { SizeIsCount(ms[..|ms| - 1]); }
  }

  lemma {:induction false} SquaresArePositive(ms: seq<Matched>)
    requires forall i :: 0 <= i < |ms| ==> ms[i].weight > 0.0
    ensures Squares(ms) >= 0.0 && (ms != [] ==> Squares(ms) > 0.0 && Total(ms) > 0.0)
  {
    if ms != [] {
      var w := ms[|ms| - 1].weight;
      assert w > 0.0;
      SquaresArePositive(ms[..|ms| - 1]);
      var q := PositiveProduct(w, w);
      assert Squares(ms) == Squares(ms[..|ms| - 1]) + q;
    }
  }

  lemma {:induction false} QuotientBound(x: real, n: real, y: real)
    requires y > 0.0 && n * y - x >= 0.0
    ensures x / y <= n && (x / y == n <==> n * y - x == 0.0)
  {
    var q := x / y;
    assert q * y == x;
    if q > n {
      var gap := StrictScale(n, q, y);
    } else if q < n {
      var gap := StrictScale(q, n, y);
    }
  }

  lemma {:induction false} EffectiveSizeAtMost(total: real, squares: real, size: real)
    requires squares > 0.0 && SlackOf(size, squares, total) >= 0.0
    ensures EffectiveSize(total, squares) <= size
    ensures EffectiveSize(total, squares) == size <==> SlackOf(size, squares, total) == 0.0
  {
    QuotientBound(total * total, size, squares);
  }

  /** Positive weights, however they were matched: their effective sample size is at
      most their number, and equal to it exactly when they are all equal. */
  lemma {:induction false} EffectiveSizeBound(ms: seq<Matched>)
    requires forall i :: 0 <= i < |ms| ==> ms[i].weight > 0.0
    ensures EffectiveSize(Total(ms), Squares(ms)) <= |ms| as real
    ensures EffectiveSize(Total(ms), Squares(ms)) == |ms| as real <==> AllEqual(ms)
  {
    SizeIsCount(ms);
    SquaresArePositive(ms);
    SlackIsNonNegative(ms);
    if ms != [] { EffectiveSizeAtMost(Total(ms), Squares(ms), Size(ms)); }
  }

  /** The effective sample size is at most the number of matched events, and equal
      to it exactly when all weights are equal. */
  lemma {:induction false} EffectiveSizeAtMostMatched(rows: seq<Row>, target: Arm)
    ensures var ms := Matches(rows, target);
      && EffectiveSize(Total(ms), Squares(ms)) <= |ms| as real
      && (EffectiveSize(Total(ms), Squares(ms)) == |ms| as real <==> AllEqual(ms))
  {
    WeightsArePositive(rows, target);
    EffectiveSizeBound(Matches(rows, target));
  }

  // --------------------------------------------------------- self-normalising

  lemma {:induction false} BetweenStep(lo: real, hi: real, total: real, weighted: real, w: real, r: real)
    requires w > 0.0 && lo <= r <= hi && Weighed(lo, total) <= weighted <= Weighed(hi, total)
    ensures Weighed(lo, total + w) <= weighted + Weighed(w, r) <= Weighed(hi, total + w)
  {
    var low := Scale(lo, r, w);
    var high := Scale(r, hi, w);
    Distribute(lo, total, w);
    Distribute(hi, total, w);
    assert r * w == w * r;
  }

  lemma {:induction false} WeightedBetween(ms: seq<Matched>, lo: real, hi: real)
    requires forall i :: 0 <= i < |ms| ==> ms[i].weight > 0.0 && lo <= ms[i].reward <= hi
    ensures Weighed(lo, Total(ms)) <= Weighted(ms) <= Weighed(hi, Total(ms))
  {
    if ms != [] {
      var front, m := ms[..|ms| - 1], ms[|ms| - 1];
      WeightedBetween(front, lo, hi);
      BetweenStep(lo, hi, Total(front), Weighted(front), m.weight, m.reward);
    }
  }

  lemma {:induction false} QuotientBetween(x: real, y: real, lo: real, hi: real)
    requires y > 0.0 && Weighed(lo, y) <= x <= Weighed(hi, y)
    ensures lo <= x / y <= hi
  {
    var q := x / y;
    assert q * y == x;
    if q < lo {
      var gap := StrictScale(q, lo, y);
    } else if q > hi {
      var gap := StrictScale(hi, q, y);
    }
  }

  /** The self-normalised estimate lies between the smallest and the largest matched
      reward, and exists exactly when something matched. */
  lemma {:induction false} SnipsIsBetween(rows: seq<Row>, target: Arm, lo: real, hi: real)
    requires forall i :: 0 <= i < |Matches(rows, target)| ==> lo <= Matches(rows, target)[i].reward <= hi
    ensures var ms := Matches(rows, target); var snips := Quotient(Weighted(ms), Total(ms));
      && (snips.Some? <==> ms != [])
      && (snips.Some? ==> lo <= snips.value <= hi)
  {
    var ms := Matches(rows, target);
    WeightsArePositive(rows, target);
    SquaresArePositive(ms);
    WeightedBetween(ms, lo, hi);
    if ms != [] { QuotientBetween(Weighted(ms), Total(ms), lo, hi); }
  }
}
