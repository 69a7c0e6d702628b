/** Bounded exploration: arm propensities, the draw, and the logged decision. */
module Exploration {
  import opened Wrappers
  import opened Products

  datatype Arm =
    | AdaptiveMath | SourceRank | Bm25Rank | RrfOnly | RrfMmr050 | RrfMmr075 | RrfMmr090
    | Unlisted(name: string)  // not a safe exploration arm

  const BASELINE := AdaptiveMath
  const SUM_TOLERANCE: real := 0.000000001

  /** A dictionary in its own order. */
  type Propensities = seq<(Arm, real)>

  predicate IsSafe(arm: Arm) { !arm.Unlisted? }

  predicate Distinct(arms: seq<Arm>) { forall i, j :: 0 <= i < j < |arms| ==> arms[i] != arms[j] }

  // ----------------------------------------------------------- propensities

  /** The total of the first `n` probabilities. */
  function Cumulative(ps: Propensities, n: nat): real
    requires n <= |ps|
  {
    if n == 0 then 0.0 else Cumulative(ps, n - 1) + ps[n - 1].1
  }

  predicate IsDistribution(ps: Propensities) {
    (forall i :: 0 <= i < |ps| ==> 0.0 <= ps[i].1 <= 1.0) && Cumulative(ps, |ps|) == 1.0
  }

  function PropensityOf(arm: Arm, arms: nat, epsilon: real): real
    requires arms > 0
  {
    if arms <= 1 || epsilon <= 0.0 then (if arm == BASELINE then 1.0 else 0.0)
    else epsilon / arms as real + if arm == BASELINE then 1.0 - epsilon else 0.0
  }

  /** `_propensities`. */
  function ArmPropensities(arms: seq<Arm>, epsilon: real): (ps: Propensities)
    ensures |ps| == |arms| && forall i :: 0 <= i < |arms| ==> ps[i].0 == arms[i]
  {
    seq(|arms|, i requires 0 <= i < |arms| => (arms[i], PropensityOf(arms[i], |arms|, epsilon)))
  }

  function Repeat(x: real, n: nat): real { if n == 0 then 0.0 else Repeat(x, n - 1) + x }

  lemma {:induction false} RepeatIsProduct(x: real, n: nat)
    ensures Repeat(x, n) == n as real * x
  {
    if n > 0 {
      RepeatIsProduct(x, n - 1);
      assert n as real * x == (n - 1) as real * x + x;
    }
  }

  lemma {:induction false} PrefixTotal(arms: seq<Arm>, epsilon: real, share: real, n: nat)
    requires Distinct(arms) && n <= |arms| && |arms| > 1 && epsilon > 0.0 && share == epsilon / |arms| as real
    ensures Cumulative(ArmPropensities(arms, epsilon), n)
      == Repeat(share, n) + if BASELINE in arms[..n] then 1.0 - epsilon else 0.0
  {
    if n > 0 {
      PrefixTotal(arms, epsilon, share, n - 1);
      assert arms[..n] == arms[..n - 1] + [arms[n - 1]];
      assert ArmPropensities(arms, epsilon)[n - 1].1 == share + if arms[n - 1] == BASELINE then 1.0 - epsilon else 0.0;
    }
  }

  lemma {:induction false} BaselineTotal(arms: seq<Arm>, epsilon: real, n: nat)
    requires Distinct(arms) && n <= |arms| && (|arms| <= 1 || epsilon <= 0.0)
    ensures Cumulative(ArmPropensities(arms, epsilon), n) == if BASELINE in arms[..n] then 1.0 else 0.0
  {
    if n > 0 {
      BaselineTotal(arms, epsilon, n - 1);
      assert arms[..n] == arms[..n - 1] + [arms[n - 1]];
    }
  }

  lemma {:induction false} TooMuch(share: real, epsilon: real, n: real)
    requires share >= epsilon > 0.0 && n > 1.0
    ensures share * n > epsilon
  {
    var gap := StrictScale(1.0, n, share);
    assert n * share == share * n;
  }

  lemma {:induction false} ShareOf(epsilon: real, n: real)
    requires 0.0 < epsilon <= 1.0 && n > 1.0
    ensures n * (epsilon / n) == epsilon && 0.0 < epsilon / n < epsilon
  {
    var share := epsilon / n;
    assert share * n == epsilon;
    if share <= 0.0 { var gap := Scale(share, 0.0, n); }
    if share >= epsilon { TooMuch(share, epsilon, n); }
  }

  /** The propensities are a distribution over the arms; with exploration mass every
      arm has some. */
  lemma {:induction false} PropensitiesSumToOne(arms: seq<Arm>, epsilon: real)
    requires Distinct(arms) && BASELINE in arms && epsilon <= 1.0
    ensures IsDistribution(ArmPropensities(arms, epsilon))
    ensures |arms| > 1 && epsilon > 0.0 ==> forall i :: 0 <= i < |arms| ==> ArmPropensities(arms, epsilon)[i].1 > 0.0
  {
    assert arms[..|arms|] == arms;
    if |arms| <= 1 || epsilon <= 0.0 {
      BaselineTotal(arms, epsilon, |arms|);
    } else {
      PrefixTotal(arms, epsilon, epsilon / |arms| as real, |arms|);
      RepeatIsProduct(epsilon / |arms| as real, |arms|);
      ShareOf(epsilon, |arms| as real);
    }
  }

  /** With exploration every arm has the same share of the exploration mass, and the baseline
      the rest on top of it; without, the baseline has everything. */
  lemma {:induction false} PropensitiesMean(arms: seq<Arm>, epsilon: real, i: nat) returns (share: real)
    requires i < |arms|
    ensures var p := ArmPropensities(arms, epsilon)[i].1;
      && (|arms| > 1 && epsilon > 0.0 ==>
            && share * |arms| as real == epsilon
            && p == if arms[i] == AdaptiveMath then 1.0 - epsilon + share else share)
      && (|arms| == 1 || epsilon <= 0.0 ==> p == if arms[i] == AdaptiveMath then 1.0 else 0.0)
  {
    share := epsilon / |arms| as real;
    assert share * |arms| as real == epsilon;
  }

  // ---------------------------------------------------------------- the draw

  /** The loop stops at `i`: the first running total not below the point, or the
      last arm. */
  ghost predicate StopsAt(ps: Propensities, i: nat, point: real) {
    && i < |ps|
    && (forall j :: 1 <= j <= i ==> Cumulative(ps, j) < point)
    && (point <= Cumulative(ps, i + 1) || i == |ps| - 1)
  }

  /** `_sample_arm`, given the random point. */
  method SampleArm(ps: Propensities, point: real) returns (arm: Arm, ghost at: nat)
    ensures ps == [] ==> arm == BASELINE
    ensures ps != [] ==> StopsAt(ps, at, point) && arm == ps[at].0
  {
    var cumulative := 0.0;
    arm, at := BASELINE, 0;
    for i := 0 to |ps|
      invariant cumulative == Cumulative(ps, i)
      invariant forall j :: 1 <= j <= i ==> Cumulative(ps, j) < point
      invariant if i == 0 then arm == BASELINE else at == i - 1 && arm == ps[at].0
    {
      arm, at := ps[i].0, i;
      cumulative := cumulative + ps[i].1;
      if point <= cumulative { return; }
    }
  }

  lemma {:induction false} CumulativeGrows(ps: Propensities, m: nat, n: nat)
    requires m <= n <= |ps| && forall i :: 0 <= i < |ps| ==> ps[i].1 >= 0.0
    ensures Cumulative(ps, m) <= Cumulative(ps, n)
  {
    if m < n { CumulativeGrows(ps, m, n - 1); }
  }

  /** Arm i is drawn exactly for the points in (Cumulative(i), Cumulative(i + 1)],
      the first interval being closed at 0: an interval as long as its propensity. */
  lemma {:induction false} DrawnExactlyOnItsInterval(ps: Propensities, i: nat, point: real)
    requires IsDistribution(ps) && i < |ps| && 0.0 <= point <= 1.0
    ensures StopsAt(ps, i, point) <==> (i == 0 || Cumulative(ps, i) < point) && point <= Cumulative(ps, i + 1)
    ensures Cumulative(ps, i + 1) - Cumulative(ps, i) == ps[i].1 && Cumulative(ps, 0) == 0.0
  {
    if i > 0 {
      forall j | 1 <= j <= i ensures Cumulative(ps, j) <= Cumulative(ps, i) {
        CumulativeGrows(ps, j, i);
      }
    }
  }

  /** An arm without probability is drawn in one case only: the point is exactly 0
      and the arm comes first. */
  lemma {:induction false} ImpossibleArmExactly(ps: Propensities, i: nat, point: real)
    requires IsDistribution(ps) && 0.0 <= point <= 1.0 && i < |ps| && ps[i].1 == 0.0
    ensures StopsAt(ps, i, point) <==> i == 0 && point == 0.0
  {
    DrawnExactlyOnItsInterval(ps, i, point);
  }

  // ------------------------------------------------------------ the decision

  datatype Mode = Off | Observe | Explore | Canary | OtherMode(text: string)

  /** A deployment assignment as read: the arm, the propensities if they are a
      dictionary (a probability that is no finite number is `None`), the mode. */
  datatype Assignment = Assignment(arm: Arm, propensities: Option<seq<(Arm, Option<real>)>>, mode: Mode)

  datatype Decision = Decision(mode: Mode, arm: Arm, propensities: Propensities)

  function BaselineOnly(): Propensities { [(BASELINE, 1.0)] }

  /** A Python dictionary assignment: a known key keeps its place. */
  function Assign(ps: Propensities, arm: Arm, p: real): (r: Propensities)
    ensures forall i :: 0 <= i < |r| ==> r[i] == (arm, p) || r[i] in ps
  {
    if ps == [] then [(arm, p)]
    else if ps[0].0 == arm then [(arm, p)] + ps[1..]
    else [ps[0]] + Assign(ps[1..], arm, p)
  }

  predicate Usable(entry: (Arm, Option<real>)) { IsSafe(entry.0) && entry.1.Some? && 0.0 <= entry.1.value <= 1.0 }

  ghost predicate Fractions(ps: Propensities) { forall i :: 0 <= i < |ps| ==> IsSafe(ps[i].0) && 0.0 <= ps[i].1 <= 1.0 }

  ghost predicate Recorded(raw: seq<(Arm, Option<real>)>, n: nat, e: (Arm, real))
    requires n <= |raw|
  {
    exists k :: 0 <= k < n && raw[k] == (e.0, Some(e.1))
  }

  ghost predicate AllUsable(raw: seq<(Arm, Option<real>)>) { forall i :: 0 <= i < |raw| ==> Usable(raw[i]) }

  /** The dictionary that the usable entries make, one after the other. */
  function Gathered(raw: seq<(Arm, Option<real>)>): (parsed: Propensities)
    requires AllUsable(raw)
  {
    if raw == [] then []
    else
      var n := |raw| - 1;
      Assign(Gathered(raw[..n]), raw[n].0, raw[n].1.value)
  }

  /** Its entries are fractions, and each stands in the assignment. */
  lemma {:induction false} GatheredIsRecorded(raw: seq<(Arm, Option<real>)>)
    requires AllUsable(raw)
    ensures Fractions(Gathered(raw))
    ensures forall i :: 0 <= i < |Gathered(raw)| ==> Recorded(raw, |raw|, Gathered(raw)[i])
  {
    if raw != [] {
      var n := |raw| - 1;
      var front, next := Gathered(raw[..n]), Gathered(raw);
      GatheredIsRecorded(raw[..n]);
      forall k | 0 <= k < |next| ensures Recorded(raw, |raw|, next[k]) && Usable((next[k].0, Some(next[k].1))) {
        if next[k] == (raw[n].0, raw[n].1.value) {
          assert raw[n] == (next[k].0, Some(next[k].1));
        } else {
          var m :| 0 <= m < |front| && front[m] == next[k];
          assert Recorded(raw[..n], n, front[m]);
        }
      }
    }
  }

  /** The parsing loop: stops at the first entry that is not a usable probability. */
  method ParsePropensities(raw: seq<(Arm, Option<real>)>) returns (valid: bool, parsed: Propensities)
    ensures valid <==> AllUsable(raw)
    ensures Fractions(parsed)
    ensures valid ==> parsed == Gathered(raw)
    ensures valid ==> forall i :: 0 <= i < |parsed| ==> Recorded(raw, |raw|, parsed[i])
  {
    valid, parsed := true, [];
    for i := 0 to |raw|
      invariant valid && AllUsable(raw[..i]) && parsed == Gathered(raw[..i])
    {
      GatheredIsRecorded(raw[..i]);
      if !Usable(raw[i]) { return false, parsed; }
      assert raw[..i + 1][..i] == raw[..i];
      parsed := Assign(parsed, raw[i].0, raw[i].1.value);
    }
    assert raw[..|raw|] == raw;
    GatheredIsRecorded(raw);
  }

  /** The last entry of an arm decides. */
  function LastMass(raw: seq<(Arm, Option<real>)>, arm: Arm): Option<real> {
    if raw == [] then None
    else
      var n := |raw| - 1;
      if raw[n].0 == arm then raw[n].1 else LastMass(raw[..n], arm)
  }

  function Find(ps: Propensities, arm: Arm): (p: Option<real>)
    ensures p.Some? ==> exists i :: 0 <= i < |ps| && ps[i] == (arm, p.value)
  {
    if ps == [] then None
    else if ps[0].0 == arm then Some(ps[0].1)
    else
      var rest := Find(ps[1..], arm);
      assert rest.Some? ==> exists i :: 0 <= i < |ps| && ps[i] == (arm, rest.value) by {
        if rest.Some? {
          var i :| 0 <= i < |ps[1..]| && ps[1..][i] == (arm, rest.value);
          assert ps[i + 1] == (arm, rest.value);
        }
      }
      rest
  }

  lemma {:induction false} FindAssigned(ps: Propensities, arm: Arm, p: real, other: Arm)
    ensures Find(Assign(ps, arm, p), other) == if other == arm then Some(p) else Find(ps, other)
  {
    if ps != [] && ps[0].0 != arm {
      FindAssigned(ps[1..], arm, p, other);
      assert ([ps[0]] + Assign(ps[1..], arm, p))[1..] == Assign(ps[1..], arm, p);
    } else if ps != [] {
      assert ([(arm, p)] + ps[1..])[1..] == ps[1..];
    }
  }

  lemma {:induction false} GatheredFinds(raw: seq<(Arm, Option<real>)>, arm: Arm)
    requires AllUsable(raw)
    ensures Find(Gathered(raw), arm) == LastMass(raw, arm)
  {
    if raw != [] {
      var n := |raw| - 1;
      GatheredFinds(raw[..n], arm);
      FindAssigned(Gathered(raw[..n]), raw[n].0, raw[n].1.value, arm);
    }
  }

  ghost predicate KeysApart(ps: Propensities) { forall i, j :: 0 <= i < j < |ps| ==> ps[i].0 != ps[j].0 }

  lemma {:induction false} AssignKeepsKeys(ps: Propensities, arm: Arm, p: real)
    requires KeysApart(ps)
    ensures KeysApart(Assign(ps, arm, p))
    ensures forall e :: e in Assign(ps, arm, p) ==> e.0 == arm || exists i :: 0 <= i < |ps| && ps[i].0 == e.0
  {
    if ps != [] {
      assert ps == [ps[0]] + ps[1..];
      if ps[0].0 != arm {
        var rest := Assign(ps[1..], arm, p);
        AssignKeepsKeys(ps[1..], arm, p);
        forall j | 0 <= j < |rest| ensures rest[j].0 != ps[0].0 {
          assert rest[j] in rest;
        }
      }
    }
  }

  /** The parsed dictionary has every arm once. */
  lemma {:induction false} GatheredKeysApart(raw: seq<(Arm, Option<real>)>)
    requires AllUsable(raw)
    ensures KeysApart(Gathered(raw))
  {
    if raw != [] {
      var n := |raw| - 1;
      GatheredKeysApart(raw[..n]);
      AssignKeepsKeys(Gathered(raw[..n]), raw[n].0, raw[n].1.value);
    }
  }

  predicate NearOne(ps: Propensities) {
    var d := Cumulative(ps, |ps|) - 1.0;
    d <= SUM_TOLERANCE && -d <= SUM_TOLERANCE
  }

  /** What every logged decision promises to the estimators: the chosen arm is safe
      and was drawn with a recorded, positive probability. */
  ghost predicate IsLogged(d: Decision, lowRisk: bool) {
    && Fractions(d.propensities) && NearOne(d.propensities)
    && Find(d.propensities, d.arm).Some? && Find(d.propensities, d.arm).value > 0.0
    && (d.arm != BASELINE ==> lowRisk)
  }

  /** The deployment assignments that are followed: a near-distribution of safe arms
      with mass on its own arm, and another arm than the baseline only at low risk. */
  ghost predicate Followed(a: Assignment, lowRisk: bool) {
    && IsSafe(a.arm) && (a.arm != BASELINE ==> lowRisk)
    && a.propensities.Some? && AllUsable(a.propensities.value) && NearOne(Gathered(a.propensities.value))
    && LastMass(a.propensities.value, a.arm).Some? && LastMass(a.propensities.value, a.arm).value > 0.0
  }

  lemma {:induction false} LastMassMeans(raw: seq<(Arm, Option<real>)>, arm: Arm)
    ensures LastMass(raw, arm).Some? <==>
      exists k :: 0 <= k < |raw| && raw[k].0 == arm && raw[k].1.Some?
                  && forall m :: k < m < |raw| ==> raw[m].0 != arm
    ensures forall k :: 0 <= k < |raw| && raw[k].0 == arm && (forall m :: k < m < |raw| ==> raw[m].0 != arm) ==>
      LastMass(raw, arm) == raw[k].1
  {
    if raw != [] {
      var n := |raw| - 1;
      LastMassMeans(raw[..n], arm);
      if raw[n].0 != arm {
        forall k | 0 <= k < |raw| && raw[k].0 == arm && (forall m :: k < m < |raw| ==> raw[m].0 != arm)
          ensures k < n && raw[..n][k] == raw[k] && LastMass(raw, arm) == raw[k].1
        {
          assert forall m :: k < m < n ==> raw[..n][m] == raw[m];
        }
        if LastMass(raw, arm).Some? {
          var k :| 0 <= k < n && raw[..n][k].0 == arm && raw[..n][k].1.Some?
                   && forall m :: k < m < n ==> raw[..n][m].0 != arm;
          assert forall m :: k < m < |raw| ==> raw[m].0 == if m == n then raw[n].0 else raw[..n][m].0;
          assert raw[k] == raw[..n][k];
        }
      }
    }
  }

  /** A usable entry: a safe arm with a number from 0 to 1. */
  ghost predicate NamesFraction(entry: (Arm, Option<real>)) {
    && entry.0 in {AdaptiveMath, SourceRank, Bm25Rank, RrfOnly, RrfMmr050, RrfMmr075, RrfMmr090}
    && entry.1.Some? && entry.1.value >= 0.0 && entry.1.value <= 1.0
  }

  /** The arm's last entry, if it has one, gives it mass. */
  ghost predicate EndsWithMass(raw: seq<(Arm, Option<real>)>, arm: Arm) {
    exists k :: 0 <= k < |raw| && raw[k].0 == arm && raw[k].1.Some? && raw[k].1.value > 0.0
                && forall m :: k < m < |raw| ==> raw[m].0 != arm
  }

  /** Which assignments are followed, on their own fields. */
  lemma {:induction false} FollowedExactly(a: Assignment, lowRisk: bool)
    ensures Followed(a, lowRisk) <==>
      && a.arm in {AdaptiveMath, SourceRank, Bm25Rank, RrfOnly, RrfMmr050, RrfMmr075, RrfMmr090}
      && (a.arm == AdaptiveMath || lowRisk)
      && a.propensities.Some? && (forall e :: e in a.propensities.value ==> NamesFraction(e))
      && EndsWithMass(a.propensities.value, a.arm)
      && AllUsable(a.propensities.value)
      && 0.999999999 <= Cumulative(Gathered(a.propensities.value), |Gathered(a.propensities.value)|) <= 1.000000001
  {
    if a.propensities.Some? {
      var raw := a.propensities.value;
      LastMassMeans(raw, a.arm);
      assert forall i :: 0 <= i < |raw| ==> (Usable(raw[i]) <==> NamesFraction(raw[i]));
    }
  }

  predicate MayExplore(mode: Mode, killSwitch: bool, lowRisk: bool, lowRiskAllowed: bool, arms: seq<Arm>,
                       epsilon: real)
  {
    mode.Explore? && !killSwitch && lowRisk && lowRiskAllowed && |arms| > 1 && epsilon > 0.0
  }

  /** What is decided: the assignment if it is followed, a draw if the configuration
      explores, the baseline otherwise. */
  ghost predicate IsDecision(mode: Mode, killSwitch: bool, lowRisk: bool, lowRiskAllowed: bool, arms: seq<Arm>,
                             epsilon: real, assignment: Option<Assignment>, point: real, d: Decision)
  {
    match assignment
    case Some(a) =>
      if Followed(a, lowRisk) then d == Decision(a.mode, a.arm, Gathered(a.propensities.value))
      else d == Decision(Canary, BASELINE, BaselineOnly())
    case None =>
      if MayExplore(mode, killSwitch, lowRisk, lowRiskAllowed, arms, epsilon) then
        && d.mode == mode && d.propensities == ArmPropensities(arms, epsilon)
        && exists at: nat :: StopsAt(d.propensities, at, point) && d.arm == d.propensities[at].0
      else d == Decision(mode, BASELINE, BaselineOnly())
  }

  lemma {:induction false} BaselineOnlyIsLogged()
    ensures Fractions(BaselineOnly()) && NearOne(BaselineOnly()) && Find(BaselineOnly(), BASELINE) == Some(1.0)
  {
    assert Cumulative(BaselineOnly(), 1) == Cumulative(BaselineOnly(), 0) + 1.0;
  }

  lemma {:induction false} FindHits(ps: Propensities, at: nat)
    requires at < |ps|
    ensures Find(ps, ps[at].0).Some?
  {
    if at > 0 { FindHits(ps[1..], at - 1); }
  }

  lemma {:induction false} DrawIsLogged(ps: Propensities, arms: seq<Arm>, at: nat)
    requires |ps| == |arms| && at < |ps| && IsDistribution(ps) && Distinct(arms)
    requires forall i :: 0 <= i < |ps| ==> ps[i].0 == arms[i] && IsSafe(arms[i]) && ps[i].1 > 0.0
    ensures Fractions(ps) && NearOne(ps) && Find(ps, ps[at].0).Some? && Find(ps, ps[at].0).value > 0.0
  {
    FindHits(ps, at);
  }

  /** The branch for a deployment assignment: an invalid one means the baseline. */
  method FollowAssignment(a: Assignment, lowRisk: bool) returns (d: Decision)
    ensures IsLogged(d, lowRisk)
    ensures d == if Followed(a, lowRisk) then Decision(a.mode, a.arm, Gathered(a.propensities.value))
                 else Decision(Canary, BASELINE, BaselineOnly())
    ensures d.arm != BASELINE ==> d.arm == a.arm && d.mode == a.mode
  {
    var valid, parsed := IsSafe(a.arm), [];
    if a.propensities.None? {
      valid := false;
    } else if valid {
      valid, parsed := ParsePropensities(a.propensities.value);
      var own := Find(parsed, a.arm);
      if parsed == [] || !NearOne(parsed) || own.None? || own.value <= 0.0 { valid := false; }
      if AllUsable(a.propensities.value) { GatheredFinds(a.propensities.value, a.arm); }
    }
    if a.arm != BASELINE && !lowRisk { valid := false; }
    if valid {
      d := Decision(a.mode, a.arm, parsed);
    } else {
      BaselineOnlyIsLogged();
      d := Decision(Canary, BASELINE, BaselineOnly());
    }
  }

  /** `choose_learning_decision`. `lowRiskAllowed` says whether the configured risks
      include "low"; no other risk can be allowed. */
  method ChooseLearningDecision(mode: Mode, killSwitch: bool, lowRisk: bool, lowRiskAllowed: bool, arms: seq<Arm>,
                                epsilon: real, assignment: Option<Assignment>, point: real)
    returns (d: Decision)
    requires Distinct(arms) && BASELINE in arms && (forall a :: a in arms ==> IsSafe(a))
    requires 0.0 <= epsilon <= 1.0 && 0.0 <= point < 1.0
    ensures IsLogged(d, lowRisk)
    ensures IsDecision(mode, killSwitch, lowRisk, lowRiskAllowed, arms, epsilon, assignment, point, d)
    ensures d.arm != BASELINE && assignment.None? ==> mode.Explore? && !killSwitch && epsilon > 0.0
    ensures d.arm != BASELINE && assignment.Some? ==> d.arm == assignment.value.arm && d.mode == assignment.value.mode
    ensures assignment.None? ==> d.mode == mode
    ensures var explores := mode == Explore && !killSwitch && lowRisk && lowRiskAllowed && |arms| > 1 && epsilon > 0.0;
      assignment.None? ==>
        if explores then d.propensities == ArmPropensities(arms, epsilon)
        else d.arm == AdaptiveMath && d.propensities == [(AdaptiveMath, 1.0)]
  {
    d := Decision(mode, BASELINE, BaselineOnly());
    BaselineOnlyIsLogged();
    if assignment.Some? {
      d := FollowAssignment(assignment.value, lowRisk);
    } else if mode.Explore? && !killSwitch && lowRisk && lowRiskAllowed && |arms| > 1 && epsilon > 0.0 {
      var ps := ArmPropensities(arms, epsilon);
      PropensitiesSumToOne(arms, epsilon);
      var arm, at := SampleArm(ps, point);
      DrawIsLogged(ps, arms, at);
      d := Decision(mode, arm, ps);
    }
  }

  /** The logging half of `prepare_learning_decision`: `firstWrite` and `secondWrite`
      say whether the two attempts to write succeed. */
  function LogDecision(d: Decision, firstWrite: bool, secondWrite: bool): (r: (Decision, bool)) {
    if d.mode.Off? then (d, false)
    else if firstWrite then (d, true)
    else if d.arm == BASELINE then (d, false)
    else (Decision(d.mode, BASELINE, BaselineOnly()), secondWrite)
  }

  /** Off means no log. Otherwise the decision stays if it could be written; if not, and
      another arm than the baseline was chosen, the baseline replaces it and is written. */
  lemma {:induction false} LogMeans(d: Decision, firstWrite: bool, secondWrite: bool)
    ensures var (used, logged) := LogDecision(d, firstWrite, secondWrite);
      && (logged <==> d.mode != Off && (firstWrite || (d.arm != AdaptiveMath && secondWrite)))
      && used.mode == d.mode
      && (if d.mode != Off && !firstWrite && d.arm != AdaptiveMath then
            used.arm == AdaptiveMath && used.propensities == [(AdaptiveMath, 1.0)]
          else used == d)
  {
  }

  /** An assignment that makes another arm than the baseline go unlogged: it is
      followed and claims the mode "off". */
  ghost predicate SilencesLog(assignment: Option<Assignment>, lowRisk: bool) {
    && assignment.Some? && Followed(assignment.value, lowRisk)
    && assignment.value.mode.Off? && assignment.value.arm != BASELINE
  }

  /** From the whole configuration to the arm in use: without the log another arm than
      the baseline is used exactly if the assignment silences it; no mode of the
      configuration can. */
  lemma {:induction false} UnloggedArmExactly(mode: Mode, killSwitch: bool, lowRisk: bool, lowRiskAllowed: bool,
                                              arms: seq<Arm>, epsilon: real, assignment: Option<Assignment>,
                                              point: real, d: Decision, firstWrite: bool, secondWrite: bool)
    requires IsDecision(mode, killSwitch, lowRisk, lowRiskAllowed, arms, epsilon, assignment, point, d)
    ensures var (used, logged) := LogDecision(d, firstWrite, secondWrite);
      && (used.arm != BASELINE && !logged <==> SilencesLog(assignment, lowRisk))
      && (logged && used.arm != BASELINE ==> used == d)
  {
  }

  /** `prepare_learning_decision`. */
  method PrepareLearningDecision(mode: Mode, killSwitch: bool, lowRisk: bool, lowRiskAllowed: bool, arms: seq<Arm>,
                                 epsilon: real, assignment: Option<Assignment>, point: real,
                                 firstWrite: bool, secondWrite: bool)
    returns (used: Decision, logged: bool)
    requires Distinct(arms) && BASELINE in arms && (forall a :: a in arms ==> IsSafe(a))
    requires 0.0 <= epsilon <= 1.0 && 0.0 <= point < 1.0
    ensures IsLogged(used, lowRisk)
    ensures used.arm != BASELINE && !logged <==> SilencesLog(assignment, lowRisk)
    ensures used.arm != BASELINE ==>
      IsDecision(mode, killSwitch, lowRisk, lowRiskAllowed, arms, epsilon, assignment, point, used)
    ensures logged ==> firstWrite || secondWrite
  {
    var d := ChooseLearningDecision(mode, killSwitch, lowRisk, lowRiskAllowed, arms, epsilon, assignment, point);
    UnloggedArmExactly(mode, killSwitch, lowRisk, lowRiskAllowed, arms, epsilon, assignment, point, d,
                       firstWrite, secondWrite);
    BaselineOnlyIsLogged();
    var result := LogDecision(d, firstWrite, secondWrite);
    return result.0, result.1;
  }

  /** Such an assignment is easy to write down. */
  lemma {:induction false} SilencingAssignment()
    ensures SilencesLog(Some(Assignment(SourceRank, Some([(SourceRank, Some(1.0))]), Off)), true)
  {
    var raw := [(SourceRank, Some(1.0))];
    assert raw[..0] == [];
    assert Gathered(raw) == [(SourceRank, 1.0)];
    assert Cumulative(Gathered(raw), 1) == Cumulative(Gathered(raw), 0) + 1.0;
  }
}
