/** Cost-sensitive calibration of the sufficiency threshold: a finite list of
    candidates searched in place of the continuum of thresholds. */
module Calibration {
  import opened Wrappers
  import opened Orders

  /** A benchmark row: its score, and whether it is a positive case. */
  datatype Row = Row(score: Option<real>, positive: Option<bool>)

  datatype Metrics = Metrics(threshold: real, n: nat, tp: nat, tn: nat, falseAccepts: nat, falseRejects: nat,
                             totalCost: real)

  predicate Counts(row: Row) { row.score.Some? && row.positive.Some? }

  predicate Accepts(t: real, score: real) { score >= t }

  // --------------------------------------------------------------- rounding

  /** Nearest integer, ties to even. */
  function RoundInt(x: real): int {
    var f := x.Floor;
    var rest := x - f as real;
    if rest < 0.5 then f else if rest > 0.5 then f + 1 else if f % 2 == 0 then f else f + 1
  }

  /** `round(x, 6)`. */
  function Round6(x: real): real { RoundInt(x * 1000000.0) as real / 1000000.0 }

  /** The nearest integer; halfway, the even one. */
  lemma {:induction false} RoundsToNearest(x: real)
    ensures RoundInt(x) as real - 0.5 <= x <= RoundInt(x) as real + 0.5
    ensures x == RoundInt(x) as real - 0.5 || x == RoundInt(x) as real + 0.5 ==> RoundInt(x) % 2 == 0
  {
    assert x.Floor as real <= x < (x.Floor + 1) as real;
  }

  /** A reported figure counts millionths, as many as are nearest. */
  lemma {:induction false} ReportsMillionths(x: real) returns (millionths: int)
    ensures Round6(x) * 1000000.0 == millionths as real
    ensures millionths as real - 0.5 <= x * 1000000.0 <= millionths as real + 0.5
    ensures x * 1000000.0 - millionths as real in {-0.5, 0.5} ==> millionths % 2 == 0
  {
    millionths := RoundInt(x * 1000000.0);
    RoundsToNearest(x * 1000000.0);
  }

  lemma {:induction false} RoundExact(k: int)
    ensures Round6(k as real / 1000000.0) == k as real / 1000000.0
  {
    assert k as real / 1000000.0 * 1000000.0 == k as real;
  }

  // ----------------------------------------------------------------- counts

  /** How many counting rows have the given label and the given verdict. */
  function Tally(rows: seq<Row>, t: real, positive: bool, accepted: bool): nat {
    if rows == [] then 0
    else
      var last := rows[|rows| - 1];
      Tally(rows[..|rows| - 1], t, positive, accepted)
      + if Counts(last) && last.positive.value == positive && Accepts(t, last.score.value) == accepted then 1 else 0
  }

  function FalseAccepts(rows: seq<Row>, t: real): nat { Tally(rows, t, false, true) }

  function FalseRejects(rows: seq<Row>, t: real): nat { Tally(rows, t, true, false) }

  function Cost(rows: seq<Row>, t: real, acceptCost: real, rejectCost: real): real {
    FalseAccepts(rows, t) as real * acceptCost + FalseRejects(rows, t) as real * rejectCost
  }

  function MetricsAt(rows: seq<Row>, t: real, acceptCost: real, rejectCost: real): Metrics {
    var tp, tn := Tally(rows, t, true, true), Tally(rows, t, false, false);
    var fp, fn := FalseAccepts(rows, t), FalseRejects(rows, t);
    Metrics(Round6(t), tp + tn + fp + fn, tp, tn, fp, fn, Round6(Cost(rows, t, acceptCost, rejectCost)))
  }

  /** The rows with the given label that score at least `t`, or less. */
  ghost function Cases(rows: seq<Row>, t: real, positive: bool, accepted: bool): set<int> {
    set i | 0 <= i < |rows| && rows[i].score.Some? && rows[i].positive == Some(positive)
            && (rows[i].score.value >= t <==> accepted)
  }

  lemma {:induction false} TallyCountsCases(rows: seq<Row>, t: real, positive: bool, accepted: bool)
    ensures Tally(rows, t, positive, accepted) == |Cases(rows, t, positive, accepted)|
  {
    if rows != [] {
      var n := |rows| - 1;
      var before := Cases(rows[..n], t, positive, accepted);
      TallyCountsCases(rows[..n], t, positive, accepted);
      if Counts(rows[n]) && rows[n].positive.value == positive && (rows[n].score.value >= t <==> accepted) {
        assert Cases(rows, t, positive, accepted) == before + {n};
      } else {
        assert Cases(rows, t, positive, accepted) == before;
      }
    }
  }

  lemma {:induction false} FourTallies(rows: seq<Row>, t: real)
    ensures forall positive, accepted :: Tally(rows, t, positive, accepted) == |Cases(rows, t, positive, accepted)|
  {
    forall positive, accepted ensures Tally(rows, t, positive, accepted) == |Cases(rows, t, positive, accepted)| {
      TallyCountsCases(rows, t, positive, accepted);
    }
  }

  /** The cost is the sum of the unit costs of the wrong verdicts. */
  lemma {:induction false} CostAddsUp(rows: seq<Row>, row: Row, t: real, acceptCost: real, rejectCost: real)
    ensures Cost([], t, acceptCost, rejectCost) == 0.0
    ensures Cost(rows + [row], t, acceptCost, rejectCost) == Cost(rows, t, acceptCost, rejectCost)
         + (if row.score.None? || row.positive.None? then 0.0
            else if !row.positive.value && row.score.value >= t then acceptCost
            else if row.positive.value && row.score.value < t then rejectCost
            else 0.0)
  {
    assert (rows + [row])[..|rows|] == rows;
  }

  /** `threshold_metrics`; `None` stands for the error on a negative cost. */
  method ThresholdMetrics(rows: seq<Row>, t: real, acceptCost: real, rejectCost: real) returns (m: Option<Metrics>)
    ensures m.Some? <==> acceptCost >= 0.0 && rejectCost >= 0.0
    ensures m.Some? ==> m.value == MetricsAt(rows, t, acceptCost, rejectCost)
    ensures m.Some? ==>
      && m.value.tp == |Cases(rows, t, true, true)| && m.value.tn == |Cases(rows, t, false, false)|
      && m.value.falseAccepts == |Cases(rows, t, false, true)| && m.value.falseRejects == |Cases(rows, t, true, false)|
      && m.value.n == m.value.tp + m.value.tn + m.value.falseAccepts + m.value.falseRejects
  {
    if acceptCost < 0.0 || rejectCost < 0.0 {
      return None;
    }
    var tp, tn, fp, fn, scored := 0, 0, 0, 0, 0;
    for i := 0 to |rows|
      invariant tp == Tally(rows[..i], t, true, true) && tn == Tally(rows[..i], t, false, false)
      invariant fp == Tally(rows[..i], t, false, true) && fn == Tally(rows[..i], t, true, false)
      invariant scored == tp + tn + fp + fn
    {
      assert rows[..i + 1][..i] == rows[..i];
      if Counts(rows[i]) {
        var prediction, positive := Accepts(t, rows[i].score.value), rows[i].positive.value;
        scored := scored + 1;
        if prediction && positive {
          tp := tp + 1;
        } else if !prediction && !positive {
          tn := tn + 1;
        } else if prediction && !positive {
          fp := fp + 1;
        } else {
          fn := fn + 1;
        }
      }
    }
    assert rows[..|rows|] == rows;
    FourTallies(rows, t);
    var totalCost := fp as real * acceptCost + fn as real * rejectCost;
    assert fp == FalseAccepts(rows, t) && fn == FalseRejects(rows, t);
    assert totalCost == Cost(rows, t, acceptCost, rejectCost);
    m := Some(Metrics(Round6(t), scored, tp, tn, fp, fn, Round6(totalCost)));
  }

  // ------------------------------------------------------------- candidates

  ghost predicate IsScore(rows: seq<Row>, s: real) {
    exists i :: 0 <= i < |rows| && rows[i].score == Some(s)
  }

  function AtMost(): (real, real) -> bool { (a: real, b: real) => a <= b }

  /** A Python set, kept as a list without repeats. */
  predicate NoRepeats(values: seq<real>) { forall i, j :: 0 <= i < j < |values| ==> values[i] != values[j] }

  /** `set.add`. */
  function Include(values: seq<real>, t: real): (r: seq<real>)
    ensures NoRepeats(values) ==> NoRepeats(r)
    ensures forall u :: u in r <==> u in values || u == t
  {
    if t in values then values else values + [t]
  }

  /** Without repeats means counted at most once, which sorting respects. */
  lemma {:induction false} CountedOnce(values: seq<real>)
    ensures NoRepeats(values) <==> forall v :: multiset(values)[v] <= 1
  {
    if values != [] {
      var front, last := values[..|values| - 1], values[|values| - 1];
      CountedOnce(front);
      assert values == front + [last];
      assert multiset(values) == multiset(front) + multiset{last};
      if NoRepeats(values) {
        assert last !in front;
      } else if forall v :: multiset(values)[v] <= 1 {
        assert multiset(values)[last] <= 1;
        assert forall v :: multiset(front)[v] <= multiset(values)[v];
      }
    }
  }

  lemma {:induction false} SameCountsNoRepeats(s: seq<real>, t: seq<real>)
    requires multiset(s) == multiset(t) && NoRepeats(s)
    ensures NoRepeats(t)
  {
    CountedOnce(s);
    CountedOnce(t);
  }

  /** The distinct scores in ascending order. */
  method SortedScores(rows: seq<Row>) returns (scores: seq<real>)
    ensures SortedBy(scores, AtMost()) && NoRepeats(scores) && forall s :: s in scores <==> IsScore(rows, s)
  {
    var found: seq<real> := [];
    for i := 0 to |rows|
      invariant NoRepeats(found)
      invariant forall s :: s in found <==> exists k :: 0 <= k < i && rows[k].score == Some(s)
    {
      if rows[i].score.Some? { found := Include(found, rows[i].score.value); }
    }
    SortPermutes(found, AtMost());
    SortSorts(found, AtMost());
    SameCountsNoRepeats(found, Sort(found, AtMost()));
    scores := Sort(found, AtMost());
  }

  function Middle(scores: seq<real>, i: nat): real
    requires i + 1 < |scores|
  {
    (scores[i] + scores[i + 1]) / 2.0
  }

  ghost predicate IsMidpoint(scores: seq<real>, upTo: nat, t: real) {
    exists i :: 0 <= i < upTo && i + 1 < |scores| && t == Middle(scores, i)
  }

  lemma {:induction false} MidpointStep(scores: seq<real>, i: nat)
    requires i + 1 < |scores|
    ensures forall t :: IsMidpoint(scores, i + 1, t) <==> IsMidpoint(scores, i, t) || t == Middle(scores, i)
  {
    forall t ensures IsMidpoint(scores, i + 1, t) <==> IsMidpoint(scores, i, t) || t == Middle(scores, i) {
      if k :| 0 <= k < i + 1 && k + 1 < |scores| && t == Middle(scores, k) {
        assert k < i ==> IsMidpoint(scores, i, t);
      }
      if k :| 0 <= k < i && k + 1 < |scores| && t == Middle(scores, k) {
        assert IsMidpoint(scores, i + 1, t);
      }
    }
  }

  ghost predicate IsCandidate(scores: seq<real>, t: real) {
    t == 0.0 || t == 1.0 || t in scores || IsMidpoint(scores, |scores|, t)
  }

  /** `candidate_thresholds`: both ends, every score and the midpoints between
      neighbouring scores; nothing without a score. */
  method CandidateThresholds(rows: seq<Row>) returns (thresholds: seq<real>, ghost scores: seq<real>)
    ensures SortedBy(scores, AtMost()) && forall s :: s in scores <==> IsScore(rows, s)
    ensures thresholds == [] <==> scores == []
    ensures SortedBy(thresholds, AtMost()) && NoRepeats(thresholds)
    ensures scores != [] ==> forall t :: t in thresholds <==> IsCandidate(scores, t)
    ensures (scores != [] ==>
      && 0.0 in thresholds && 1.0 in thresholds && (forall s :: s in scores ==> s in thresholds)
      && forall i :: 1 <= i < |scores| ==> (scores[i - 1] + scores[i]) / 2.0 in thresholds)
  {
    var sorted := SortedScores(rows);
    scores := sorted;
    if sorted == [] {
      return [], sorted;
    }
    var found := [0.0, 1.0];
    for i := 0 to |sorted|
      invariant NoRepeats(found)
      invariant forall t :: t in found <==> t == 0.0 || t == 1.0 || t in sorted[..i]
    {
      found := Include(found, sorted[i]);
    }
    assert sorted[..|sorted|] == sorted;
    for i := 0 to |sorted| - 1
      invariant NoRepeats(found)
      invariant forall t :: t in found <==> t == 0.0 || t == 1.0 || t in sorted || IsMidpoint(sorted, i, t)
    {
      MidpointStep(sorted, i);
      found := Include(found, (sorted[i] + sorted[i + 1]) / 2.0);
    }
    SortPermutes(found, AtMost());
    SortSorts(found, AtMost());
    SameCountsNoRepeats(found, Sort(found, AtMost()));
    thresholds := Sort(found, AtMost());
    assert 0.0 in found;
    assert 0.0 in thresholds;
    forall i | 1 <= i < |sorted| ensures (sorted[i - 1] + sorted[i]) / 2.0 in thresholds {
      assert (sorted[i - 1] + sorted[i]) / 2.0 == Middle(sorted, i - 1);
      assert IsMidpoint(sorted, |sorted|, Middle(sorted, i - 1));
    }
  }

  // -------------------------------------------------------------- the choice

  /** Sort key (total cost, false accepts, -threshold). */
  predicate Preferred(a: Metrics, b: Metrics) {
    if a.totalCost != b.totalCost then a.totalCost < b.totalCost
    else if a.falseAccepts != b.falseAccepts then a.falseAccepts < b.falseAccepts
    else a.threshold >= b.threshold
  }

  datatype CalibrationError = NegativeCost | NoScores

  /** Preferred to the reports of the first `n` thresholds. */
  ghost predicate LeadsUpTo(leader: Metrics, rows: seq<Row>, thresholds: seq<real>, acceptCost: real,
                            rejectCost: real, n: nat)
    requires n <= |thresholds|
  {
    forall k :: 0 <= k < n ==> Preferred(leader, MetricsAt(rows, thresholds[k], acceptCost, rejectCost))
  }

  lemma {:induction false} LeadStep(leader: Metrics, rows: seq<Row>, thresholds: seq<real>,
                                    acceptCost: real, rejectCost: real, i: nat)
    requires i < |thresholds| && LeadsUpTo(leader, rows, thresholds, acceptCost, rejectCost, i)
    ensures var next := MetricsAt(rows, thresholds[i], acceptCost, rejectCost);
      LeadsUpTo(if Preferred(leader, next) then leader else next, rows, thresholds, acceptCost, rejectCost, i + 1)
  {
    var next := MetricsAt(rows, thresholds[i], acceptCost, rejectCost);
    forall k | 0 <= k < i && !Preferred(leader, next)
      ensures Preferred(next, MetricsAt(rows, thresholds[k], acceptCost, rejectCost))
    {
      assert Preferred(leader, MetricsAt(rows, thresholds[k], acceptCost, rejectCost));
    }
  }

  /** No real threshold up to 1 has a smaller cost in its report. */
  ghost predicate CheapestUpToOne(rows: seq<Row>, acceptCost: real, rejectCost: real, best: Metrics) {
    forall t: real | t <= 1.0 :: best.totalCost <= Round6(Cost(rows, t, acceptCost, rejectCost))
  }

  /** `best` is the report at the candidate `chosen`, preferred to all others. */
  ghost predicate IsBestCandidate(rows: seq<Row>, acceptCost: real, rejectCost: real, scores: seq<real>,
                                  best: Metrics, chosen: real)
  {
    && acceptCost >= 0.0 && rejectCost >= 0.0
    && IsCandidate(scores, chosen) && best == MetricsAt(rows, chosen, acceptCost, rejectCost)
    && forall t :: IsCandidate(scores, t) ==> Preferred(best, MetricsAt(rows, t, acceptCost, rejectCost))
  }

  // ------------------------------------------------- every threshold has a twin

  /** The two thresholds give every score the same verdict. */
  ghost predicate SameVerdicts(scores: seq<real>, t: real, u: real) {
    forall s :: s in scores ==> (Accepts(t, s) <==> Accepts(u, s))
  }

  /** Least score that a threshold lets through. */
  lemma {:induction false} LeastAbove(scores: seq<real>, t: real) returns (c: real)
    requires exists s :: s in scores && s >= t
    ensures c in scores && c >= t && SameVerdicts(scores, t, c)
  {
    var n := |scores| - 1;
    assert scores == scores[..n] + [scores[n]];
    if exists s :: s in scores[..n] && s >= t {
      c := LeastAbove(scores[..n], t);
      if t <= scores[n] < c { c := scores[n]; }
    } else {
      c := scores[n];
    }
  }

  /** Every threshold up to 1 acts like one of the candidates. */
  lemma {:induction false} CandidatesCover(scores: seq<real>, t: real) returns (c: real)
    requires scores != [] && t <= 1.0
    ensures IsCandidate(scores, c) && SameVerdicts(scores, t, c)
  {
    if exists s :: s in scores && s >= t {
      c := LeastAbove(scores, t);
    } else {
      c := 1.0;
    }
  }

  ghost predicate HasTwin(scores: seq<real>, t: real) {
    exists c :: IsCandidate(scores, c) && SameVerdicts(scores, t, c)
  }

  lemma {:induction false} Maximum(scores: seq<real>) returns (top: real)
    requires scores != []
    ensures top in scores && forall s :: s in scores ==> s <= top
  {
    var n := |scores| - 1;
    assert scores == scores[..n] + [scores[n]];
    top := scores[n];
    if n > 0 {
      var front := Maximum(scores[..n]);
      if front > top { top := front; }
    }
  }

  lemma {:induction false} CandidatesAreLow(scores: seq<real>, top: real, c: real)
    requires top >= 1.0 && (forall s :: s in scores ==> s <= top) && IsCandidate(scores, c)
    ensures c <= top
  {
    if i :| 0 <= i < |scores| && i + 1 < |scores| && c == Middle(scores, i) {
      assert scores[i] in scores && scores[i + 1] in scores;
    }
  }

  /** Every real threshold acts like a candidate exactly when no score reaches 1:
      otherwise no candidate rejects everything. */
  lemma {:induction false} CandidatesCoverAllExactly(scores: seq<real>)
    requires scores != []
    ensures (forall t: real :: HasTwin(scores, t)) <==> (forall s :: s in scores ==> s < 1.0)
  {
    if forall s :: s in scores ==> s < 1.0 {
      forall t: real ensures HasTwin(scores, t) {
        if t <= 1.0 {
          var c := CandidatesCover(scores, t);
        } else {
          assert SameVerdicts(scores, t, 1.0) && IsCandidate(scores, 1.0);
        }
      }
    } else {
      var top := Maximum(scores);
      assert !HasTwin(scores, top + 1.0) by {
        forall c | IsCandidate(scores, c) ensures !SameVerdicts(scores, top + 1.0, c) {
          CandidatesAreLow(scores, top, c);
          assert Accepts(c, top) && !Accepts(top + 1.0, top);
        }
      }
    }
  }

  lemma {:induction false} SameVerdictsSameTally(rows: seq<Row>, scores: seq<real>, t: real, u: real,
                                                 positive: bool, accepted: bool)
    requires SameVerdicts(scores, t, u)
    requires forall i :: 0 <= i < |rows| && rows[i].score.Some? ==> rows[i].score.value in scores
    ensures Tally(rows, t, positive, accepted) == Tally(rows, u, positive, accepted)
  {
    if rows != [] { SameVerdictsSameTally(rows[..|rows| - 1], scores, t, u, positive, accepted); }
  }

  lemma {:induction false} TwinsCostTheSame(rows: seq<Row>, scores: seq<real>, t: real, c: real,
                                            acceptCost: real, rejectCost: real)
    requires SameVerdicts(scores, t, c) && forall s :: s in scores <==> IsScore(rows, s)
    ensures FalseAccepts(rows, t) == FalseAccepts(rows, c)
    ensures Cost(rows, t, acceptCost, rejectCost) == Cost(rows, c, acceptCost, rejectCost)
  {
    forall i | 0 <= i < |rows| && rows[i].score.Some? ensures rows[i].score.value in scores {
      assert IsScore(rows, rows[i].score.value);
    }
    SameVerdictsSameTally(rows, scores, t, c, false, true);
    SameVerdictsSameTally(rows, scores, t, c, true, false);
  }

  /** The chosen threshold costs no more, as reported, than any real threshold up
      to 1, and at equal cost it accepts no more false cases; if no score reaches
      1 this holds against every real threshold. */
  lemma {:induction false} ChosenIsOptimal(rows: seq<Row>, acceptCost: real, rejectCost: real, scores: seq<real>,
                                           best: Metrics, chosen: real, t: real)
    requires scores != [] && forall s :: s in scores <==> IsScore(rows, s)
    requires IsBestCandidate(rows, acceptCost, rejectCost, scores, best, chosen)
    requires t <= 1.0 || forall s :: s in scores ==> s < 1.0
    ensures best.totalCost <= Round6(Cost(rows, t, acceptCost, rejectCost))
    ensures best.totalCost == Round6(Cost(rows, t, acceptCost, rejectCost)) ==>
      best.falseAccepts <= FalseAccepts(rows, t)
  {
    CandidatesCoverAllExactly(scores);
    var c: real;
    if t <= 1.0 {
      c := CandidatesCover(scores, t);
    } else {
      assert HasTwin(scores, t);
      c :| IsCandidate(scores, c) && SameVerdicts(scores, t, c);
    }
    TwinsCostTheSame(rows, scores, t, c, acceptCost, rejectCost);
    assert Preferred(best, MetricsAt(rows, c, acceptCost, rejectCost));
  }

  /** Of candidates with the same reported cost and as many false accepts, the highest is chosen. */
  lemma {:induction false} TiesGoHigh(rows: seq<Row>, acceptCost: real, rejectCost: real, scores: seq<real>,
                                      best: Metrics, chosen: real, t: real)
    requires IsBestCandidate(rows, acceptCost, rejectCost, scores, best, chosen) && IsCandidate(scores, t)
    requires Round6(Cost(rows, t, acceptCost, rejectCost)) == best.totalCost
    requires FalseAccepts(rows, t) == best.falseAccepts
    ensures best.threshold == Round6(chosen) >= Round6(t)
  {
    assert Preferred(best, MetricsAt(rows, t, acceptCost, rejectCost));
  }

  // ------------------------------------------------------------------- choosing

  /** `choose_cost_sensitive_threshold`. */
  method ChooseThreshold(rows: seq<Row>, acceptCost: real, rejectCost: real)
    returns (best: Result<Metrics, CalibrationError>, ghost chosen: real, ghost scores: seq<real>)
    ensures SortedBy(scores, AtMost()) && forall s :: s in scores <==> IsScore(rows, s)
    ensures best == Err(NoScores) <==> scores == []
    ensures best == Err(NegativeCost) <==> scores != [] && (acceptCost < 0.0 || rejectCost < 0.0)
    ensures best.Ok? ==> IsBestCandidate(rows, acceptCost, rejectCost, scores, best.value, chosen)
    ensures best == Err(NoScores) <==> forall s :: !IsScore(rows, s)
    ensures best.Ok? ==> CheapestUpToOne(rows, acceptCost, rejectCost, best.value)
  {
    var thresholds;
    thresholds, scores := CandidateThresholds(rows);
    chosen := 0.0;
    if thresholds == [] {
      return Err(NoScores), chosen, scores;
    }
    assert scores[0] in scores && IsScore(rows, scores[0]);
    var first := ThresholdMetrics(rows, thresholds[0], acceptCost, rejectCost);
    if first.None? {
      return Err(NegativeCost), chosen, scores;
    }
    var leader := first.value;
    chosen := thresholds[0];
    for i := 1 to |thresholds|
      invariant chosen in thresholds && leader == MetricsAt(rows, chosen, acceptCost, rejectCost)
      invariant LeadsUpTo(leader, rows, thresholds, acceptCost, rejectCost, i)
    {
      var next := ThresholdMetrics(rows, thresholds[i], acceptCost, rejectCost);
      LeadStep(leader, rows, thresholds, acceptCost, rejectCost, i);
      if !Preferred(leader, next.value) {
        leader := next.value;
        chosen := thresholds[i];
      }
    }
    best := Ok(leader);
    forall t: real | t <= 1.0 ensures leader.totalCost <= Round6(Cost(rows, t, acceptCost, rejectCost)) {
      ChosenIsOptimal(rows, acceptCost, rejectCost, scores, leader, chosen, t);
    }
  }

  // --------------------------------------------------------- further properties

  /** A score of exactly 1 costs: rejecting everything would be free, but every
      candidate accepts the one wrong case. */
  lemma {:induction false} ScoreOfOneIsNotCovered(c: real)
    requires IsCandidate([1.0], c)
    ensures Cost([Row(Some(1.0), Some(false))], c, 5.0, 1.0) == 5.0
    ensures Cost([Row(Some(1.0), Some(false))], 2.0, 5.0, 1.0) == 0.0
  {
    var rows := [Row(Some(1.0), Some(false))];
    CandidatesAreLow([1.0], 1.0, c);
    assert rows[..0] == [];
  }

  /** Raising the threshold accepts no more wrong cases and rejects no fewer
      right ones. */
  lemma {:induction false} RatesAreMonotone(rows: seq<Row>, t: real, u: real)
    requires t <= u
    ensures FalseAccepts(rows, u) <= FalseAccepts(rows, t)
    ensures FalseRejects(rows, t) <= FalseRejects(rows, u)
  {
    if rows != [] { RatesAreMonotone(rows[..|rows| - 1], t, u); }
  }

  function TenThousandths(k: int): real { k as real / 10000.0 }

  ghost predicate FourDecimals(s: real) { exists k: int :: s == TenThousandths(k) }

  lemma {:induction false} CandidateDigits(scores: seq<real>, t: real) returns (k: int)
    requires IsCandidate(scores, t) && forall s :: s in scores ==> FourDecimals(s)
    ensures t == k as real / 1000000.0
  {
    if t == 0.0 {
      k := 0;
    } else if t == 1.0 {
      k := 1000000;
    } else if t in scores {
      var j: int :| t == TenThousandths(j);
      k := 100 * j;
    } else {
      var i :| 0 <= i < |scores| && i + 1 < |scores| && t == Middle(scores, i);
      assert scores[i] in scores && scores[i + 1] in scores;
      var a: int :| scores[i] == TenThousandths(a);
      var b: int :| scores[i + 1] == TenThousandths(b);
      k := 50 * (a + b);
    }
  }

  /** With scores of four decimals every candidate is its own six-digit rounding,
      so evaluating again at the returned threshold gives the same report. */
  lemma {:induction false} ReturnedThresholdIsExact(rows: seq<Row>, acceptCost: real, rejectCost: real,
                                                    scores: seq<real>, best: Metrics, chosen: real)
    requires IsBestCandidate(rows, acceptCost, rejectCost, scores, best, chosen)
    requires forall s :: s in scores ==> FourDecimals(s)
    ensures best.threshold == chosen
    ensures MetricsAt(rows, best.threshold, acceptCost, rejectCost) == best
  {
    var k := CandidateDigits(scores, chosen);
    RoundExact(k);
  }
}
