/** The choice of a threshold by its rounded cost, judged by the true cost: for which
    pairs of unit costs the cheapest report is the cheapest threshold on all data. And
    thresholds above 1: for which scores the candidates stand for them too. */
module CostRounding {
  import opened Wrappers
  import opened Calibration
  import opened Products

  const MILLIONTH: real := 0.000001

  // ------------------------------------------------------------------ rounding

  lemma {:induction false} RoundIntNear(x: real)
    ensures -0.5 <= RoundInt(x) as real - x <= 0.5
  {
  }

  lemma {:induction false} RoundIntGrows(x: real, y: real)
    ensures x <= y ==> RoundInt(x) <= RoundInt(y)
    ensures y > x + 1.0 ==> RoundInt(x) < RoundInt(y)
  {
    RoundIntNear(x);
    RoundIntNear(y);
  }

  /** How six-digit rounding compares two costs. */
  lemma {:induction false} Round6Compares(x: real, y: real)
    ensures Round6(x) <= Round6(y) <==> RoundInt(x * 1000000.0) <= RoundInt(y * 1000000.0)
    ensures x <= y ==> Round6(x) <= Round6(y)
    ensures y > x + MILLIONTH ==> Round6(x) < Round6(y)
  {
    RoundIntGrows(x * 1000000.0, y * 1000000.0);
  }

  // -------------------------------------------------------- the chosen threshold

  /** No threshold up to 1 has a smaller true cost than the chosen one, on these
      rows, whichever report the search prefers. */
  ghost predicate TrulyCheapest(rows: seq<Row>, acceptCost: real, rejectCost: real) {
    forall scores, best, chosen, t ::
      scores != [] && (forall s :: s in scores <==> IsScore(rows, s))
      && IsBestCandidate(rows, acceptCost, rejectCost, scores, best, chosen) && t <= 1.0
      ==> Cost(rows, chosen, acceptCost, rejectCost) <= Cost(rows, t, acceptCost, rejectCost)
  }

  /** In general the chosen threshold costs at most a millionth more than any other. */
  lemma {:induction false} ChosenIsNearlyCheapest(rows: seq<Row>, acceptCost: real, rejectCost: real, scores: seq<real>,
                                                  best: Metrics, chosen: real, t: real)
    requires scores != [] && forall s :: s in scores <==> IsScore(rows, s)
    requires IsBestCandidate(rows, acceptCost, rejectCost, scores, best, chosen)
    requires t <= 1.0 || forall s :: s in scores ==> s < 1.0
    ensures Cost(rows, chosen, acceptCost, rejectCost) <= Cost(rows, t, acceptCost, rejectCost) + MILLIONTH
  {
    ChosenIsOptimal(rows, acceptCost, rejectCost, scores, best, chosen, t);
    Round6Compares(Cost(rows, t, acceptCost, rejectCost), Cost(rows, chosen, acceptCost, rejectCost));
  }

  // ------------------------------------------------------------ the unit costs

  function Times(k: nat, x: real): real { k as real * x }

  ghost predicate IsUnit(acceptCost: real, rejectCost: real, g: real, m: nat, n: nat) {
    g >= MILLIONTH && acceptCost == Times(m, g) && rejectCost == Times(n, g)
  }

  /** Both unit costs are whole multiples of one unit of at least a millionth. */
  ghost predicate CommonUnit(acceptCost: real, rejectCost: real) {
    exists g: real, m: nat, n: nat :: IsUnit(acceptCost, rejectCost, g, m, n)
  }

  /** What the six digits of a report can tell apart: nothing is rejected at a cost,
      accepting is free and one rejection still shows, or there is a common unit. */
  ghost predicate Resolved(acceptCost: real, rejectCost: real) {
    || rejectCost == 0.0
    || (acceptCost == 0.0 && rejectCost > MILLIONTH / 2.0)
    || (acceptCost > 0.0 && CommonUnit(acceptCost, rejectCost))
  }

  lemma {:induction false} TimesAdd(k: nat, l: nat, x: real)
    ensures Times(k + l, x) == Times(k, x) + Times(l, x)
  {
  }

  lemma {:induction false} TimesMinus(k: nat, x: real, y: real)
    ensures Times(k, x - y) == Times(k, x) - Times(k, y)
  {
  }

  lemma {:induction false} TimesTimes(k: nat, m: nat, x: real)
    ensures Times(k, Times(m, x)) == Times(k * m, x)
  {
    assert (k * m) as real == k as real * m as real;
  }

  lemma {:induction false} TimesIsNonNegative(k: nat, x: real)
    requires x >= 0.0
    ensures Times(k, x) >= 0.0
  {
  }

  lemma {:induction false} AtLeastOnce(k: nat, x: real)
    requires x >= 0.0 && k >= 1
    ensures Times(k, x) >= x
  {
    TimesAdd(k - 1, 1, x);
    TimesIsNonNegative(k - 1, x);
  }

  lemma {:induction false} TimesGrows(k: nat, l: nat, x: real)
    requires x >= 0.0
    ensures k <= l ==> Times(k, x) <= Times(l, x)
    ensures Times(k, x) < Times(l, x) ==> Times(l, x) - Times(k, x) >= x
    ensures k >= 1 ==> Times(k, x) >= x
  {
    if k <= l {
      TimesAdd(k, l - k, x);
      TimesIsNonNegative(l - k, x);
      if k < l { AtLeastOnce(l - k, x); }
    } else {
      TimesAdd(l, k - l, x);
      TimesIsNonNegative(k - l, x);
    }
    if k >= 1 { AtLeastOnce(k, x); }
  }

  /** Costs that are whole multiples of a millionth, as the defaults 5 and 1 are, have
      a common unit. */
  lemma {:induction false} MillionthsAreResolved(m: nat, n: nat)
    ensures Resolved(Times(m, MILLIONTH), Times(n, MILLIONTH))
  {
    assert IsUnit(Times(m, MILLIONTH), Times(n, MILLIONTH), MILLIONTH, m, n);
    if n > 0 { AtLeastOnce(n, MILLIONTH); }
    if m > 0 { AtLeastOnce(m, MILLIONTH); }
  }

  // ------------------------------------------------- resolved costs are enough

  /** A pair of confusion counts with its cost. */
  function CostOf(accepts: nat, rejects: nat, acceptCost: real, rejectCost: real): real {
    Times(accepts, acceptCost) + Times(rejects, rejectCost)
  }

  lemma {:induction false} CostInUnits(accepts: nat, rejects: nat, g: real, m: nat, n: nat)
    ensures CostOf(accepts, rejects, Times(m, g), Times(n, g)) == Times(accepts * m + rejects * n, g)
  {
    TimesTimes(accepts, m, g);
    TimesTimes(rejects, n, g);
    TimesAdd(accepts * m, rejects * n, g);
  }

  /** Whole multiples of a unit of at least a millionth keep their order when rounded. */
  lemma {:induction false} UnitsAreTold(k: nat, l: nat, g: real)
    requires g >= MILLIONTH && Times(l, g) < Times(k, g)
    ensures Round6(Times(l, g)) < Round6(Times(k, g))
  {
    TimesGrows(l, k, g);
    Round6Compares(Times(l, g), Times(k, g));
    if g == MILLIONTH {
      RoundExact(l);
      RoundExact(k);
      assert Times(l, g) == l as real / 1000000.0 && Times(k, g) == k as real / 1000000.0;
    }
  }

  /** With free acceptance nothing beats accepting everything. */
  lemma {:induction false} AcceptAll(rows: seq<Row>, t: real)
    requires forall i :: 0 <= i < |rows| && rows[i].score.Some? ==> t <= rows[i].score.value
    ensures FalseRejects(rows, t) == 0
  {
    if rows != [] { AcceptAll(rows[..|rows| - 1], t); }
  }

  lemma {:induction false} LowThreshold(rows: seq<Row>) returns (t: real)
    ensures t <= 1.0 && FalseRejects(rows, t) == 0
    ensures forall i :: 0 <= i < |rows| && rows[i].score.Some? ==> t <= rows[i].score.value
  {
    if rows == [] {
      t := 1.0;
    } else {
      var n := |rows| - 1;
      t := LowThreshold(rows[..n]);
      assert rows == rows[..n] + [rows[n]];
      if rows[n].score.Some? && rows[n].score.value < t { t := rows[n].score.value; }
      AcceptAll(rows, t);
    }
  }

  /** More than half a millionth does not round to nothing. */
  lemma {:induction false} OneShows(n: nat, x: real)
    requires x > MILLIONTH / 2.0 && Round6(Times(n, x)) <= Round6(0.0)
    ensures n == 0
  {
    RoundIntNear(Times(n, x) * 1000000.0);
    if n > 0 { AtLeastOnce(n, x); }
  }

  lemma {:induction false} FreeAcceptance(rows: seq<Row>, rejectCost: real, scores: seq<real>, best: Metrics,
                                          chosen: real)
    requires rejectCost > MILLIONTH / 2.0 && scores != [] && forall s :: s in scores <==> IsScore(rows, s)
    requires IsBestCandidate(rows, 0.0, rejectCost, scores, best, chosen)
    ensures FalseRejects(rows, chosen) == 0
  {
    var low := LowThreshold(rows);
    ChosenIsOptimal(rows, 0.0, rejectCost, scores, best, chosen, low);
    assert Cost(rows, low, 0.0, rejectCost) == 0.0;
    assert Cost(rows, chosen, 0.0, rejectCost) == Times(FalseRejects(rows, chosen), rejectCost);
    OneShows(FalseRejects(rows, chosen), rejectCost);
  }

  /** Rounded costs order two pairs of counts as the true costs do. */
  lemma {:induction false} UnitOrder(a: nat, b: nat, c: nat, d: nat, acceptCost: real, rejectCost: real)
    requires CommonUnit(acceptCost, rejectCost)
    requires Round6(CostOf(a, b, acceptCost, rejectCost)) <= Round6(CostOf(c, d, acceptCost, rejectCost))
    ensures CostOf(a, b, acceptCost, rejectCost) <= CostOf(c, d, acceptCost, rejectCost)
  {
    var g: real, m: nat, n: nat :| IsUnit(acceptCost, rejectCost, g, m, n);
    CostInUnits(a, b, g, m, n);
    CostInUnits(c, d, g, m, n);
    var here, there := Times(a * m + b * n, g), Times(c * m + d * n, g);
    if there < here { UnitsAreTold(a * m + b * n, c * m + d * n, g); }
  }

  lemma {:induction false} FreeRejection(a: nat, b: nat, c: nat, d: nat, acceptCost: real)
    requires acceptCost >= 0.0
    requires Round6(CostOf(a, b, acceptCost, 0.0)) <= Round6(CostOf(c, d, acceptCost, 0.0))
    requires Round6(CostOf(a, b, acceptCost, 0.0)) == Round6(CostOf(c, d, acceptCost, 0.0)) ==> a <= c
    ensures CostOf(a, b, acceptCost, 0.0) <= CostOf(c, d, acceptCost, 0.0)
  {
    Round6Compares(Times(c, acceptCost), Times(a, acceptCost));
    TimesGrows(a, c, acceptCost);
  }

  /** With resolved costs the order of two reports is the order of the true costs. */
  lemma {:induction false} ResolvedOrder(a: nat, b: nat, c: nat, d: nat, acceptCost: real, rejectCost: real)
    requires acceptCost >= 0.0 && rejectCost >= 0.0 && Resolved(acceptCost, rejectCost)
    requires Round6(CostOf(a, b, acceptCost, rejectCost)) <= Round6(CostOf(c, d, acceptCost, rejectCost))
    requires Round6(CostOf(a, b, acceptCost, rejectCost)) == Round6(CostOf(c, d, acceptCost, rejectCost)) ==> a <= c
    requires acceptCost == 0.0 && rejectCost > MILLIONTH / 2.0 ==> b == 0
    ensures CostOf(a, b, acceptCost, rejectCost) <= CostOf(c, d, acceptCost, rejectCost)
  {
    if rejectCost == 0.0 {
      FreeRejection(a, b, c, d, acceptCost);
    } else if acceptCost == 0.0 {
      TimesIsNonNegative(d, rejectCost);
    } else {
      UnitOrder(a, b, c, d, acceptCost, rejectCost);
    }
  }

  /** What the search knows of the chosen threshold and another one. */
  ghost predicate Reported(rows: seq<Row>, acceptCost: real, rejectCost: real, chosen: real, t: real) {
    var here := CostOf(FalseAccepts(rows, chosen), FalseRejects(rows, chosen), acceptCost, rejectCost);
    var there := CostOf(FalseAccepts(rows, t), FalseRejects(rows, t), acceptCost, rejectCost);
    && Round6(here) <= Round6(there)
    && (Round6(here) == Round6(there) ==> FalseAccepts(rows, chosen) <= FalseAccepts(rows, t))
    && (acceptCost == 0.0 && rejectCost > MILLIONTH / 2.0 ==> FalseRejects(rows, chosen) == 0)
  }

  lemma {:induction false} ReportsOrder(rows: seq<Row>, acceptCost: real, rejectCost: real, chosen: real, t: real)
    requires acceptCost >= 0.0 && rejectCost >= 0.0 && Resolved(acceptCost, rejectCost)
    requires Reported(rows, acceptCost, rejectCost, chosen, t)
    ensures Cost(rows, chosen, acceptCost, rejectCost) <= Cost(rows, t, acceptCost, rejectCost)
  {
    ResolvedOrder(FalseAccepts(rows, chosen), FalseRejects(rows, chosen), FalseAccepts(rows, t), FalseRejects(rows, t),
                  acceptCost, rejectCost);
  }

  lemma {:induction false} CostIsCostOf(rows: seq<Row>, t: real, acceptCost: real, rejectCost: real)
    ensures Cost(rows, t, acceptCost, rejectCost)
         == CostOf(FalseAccepts(rows, t), FalseRejects(rows, t), acceptCost, rejectCost)
  {
  }

  lemma {:induction false} ChosenIsReported(rows: seq<Row>, acceptCost: real, rejectCost: real, scores: seq<real>,
                                            best: Metrics, chosen: real, t: real)
    requires scores != [] && forall s :: s in scores <==> IsScore(rows, s)
    requires IsBestCandidate(rows, acceptCost, rejectCost, scores, best, chosen)
    requires t <= 1.0
    ensures Reported(rows, acceptCost, rejectCost, chosen, t)
  {
    ChosenIsOptimal(rows, acceptCost, rejectCost, scores, best, chosen, t);
    CostIsCostOf(rows, chosen, acceptCost, rejectCost);
    CostIsCostOf(rows, t, acceptCost, rejectCost);
    if acceptCost == 0.0 && rejectCost > MILLIONTH / 2.0 {
      FreeAcceptance(rows, rejectCost, scores, best, chosen);
    }
  }

  lemma {:induction false} ResolvedChoice(rows: seq<Row>, acceptCost: real, rejectCost: real, scores: seq<real>,
                                          best: Metrics, chosen: real, t: real)
    requires Resolved(acceptCost, rejectCost)
    requires scores != [] && forall s :: s in scores <==> IsScore(rows, s)
    requires IsBestCandidate(rows, acceptCost, rejectCost, scores, best, chosen)
    requires t <= 1.0
    ensures Cost(rows, chosen, acceptCost, rejectCost) <= Cost(rows, t, acceptCost, rejectCost)
  {
    ChosenIsReported(rows, acceptCost, rejectCost, scores, best, chosen, t);
    ReportsOrder(rows, acceptCost, rejectCost, chosen, t);
  }

  // ---------------------------------------- unresolved costs meet a counterexample

  /** Two pairs of counts that one set of rows can have at two thresholds: the second
      accepts `i` fewer wrong cases, rejects `j` more right ones, costs more, and
      reports the same cost. */
  ghost predicate Trap(acceptCost: real, rejectCost: real, accepts: nat, rejects: nat, i: nat, j: nat) {
    && i <= accepts
    && Times(i, acceptCost) < Times(j, rejectCost)
    && Round6(CostOf(accepts, rejects, acceptCost, rejectCost))
       == Round6(CostOf(accepts - i, rejects + j, acceptCost, rejectCost))
  }

  lemma {:induction false} Enough(x: real, y: real) returns (n: nat)
    requires x > 0.0
    ensures Times(n, x) > y && n > 0
  {
    var q := y / x;
    assert q * x == y;
    n := if q < 0.0 then 1 else q.Floor + 1;
    var gap := StrictScale(q, n as real, x);
  }

  /** How often x fits into y with something left. */
  lemma {:induction false} Fit(x: real, y: real) returns (k: nat)
    requires 0.0 < x < 1.0 <= y
    ensures 0.0 < y - Times(k, x) < 1.0
  {
    k := 0;
    var most := Enough(x, y);
    while y - Times(k, x) >= 1.0
      invariant 0.0 < y - Times(k, x)
      decreases most - k
    {
      TimesAdd(k, 1, x);
      if k >= most { TimesGrows(most, k, x); }
      k := k + 1;
    }
  }

  /** Either two lengths have a common unit of at least 1, or some `j·y - i·x` falls
      strictly between 0 and 1: the algorithm of Euclid. */
  lemma {:induction false} UnitOrStep(x: real, y: real) returns (found: bool, g: real, i: nat, j: nat)
    requires x > 0.0 && y > 0.0
    ensures found ==> g >= 1.0 && x == Times(i, g) && y == Times(j, g)
    ensures !found ==> 0.0 < Times(j, y) - Times(i, x) < 1.0
    decreases (x + y).Floor
  {
    found, g, i, j := false, 1.0, 0, 1;
    if x == y && y >= 1.0 {
      found, g, i := true, x, 1;
    } else if y < 1.0 {
    } else if x < 1.0 {
      i := Fit(x, y);
    } else if x > y {
      found, g, i, j := UnitOrStep(x - y, y);
      if found {
        TimesAdd(i, j, g);
        i := i + j;
      } else {
        TimesMinus(i, x, y);
        TimesAdd(i, j, y);
        j := i + j;
      }
    } else {
      found, g, i, j := UnitOrStep(x, y - x);
      if found {
        TimesAdd(i, j, g);
        j := i + j;
      } else {
        TimesMinus(j, y, x);
        TimesAdd(i, j, x);
        i := i + j;
      }
    }
  }

  /** The room left for a rounded cost that has risen at every step so far. */
  ghost predicate Room(cost: real, step: real, n: nat) {
    RoundInt(cost) as real - cost > 0.5 - Times(n, 1.0 - step)
  }

  lemma {:induction false} RoomShrinks(cost: real, step: real, n: nat)
    requires 0.0 < step < 1.0 && Room(cost, step, n)
    ensures n > 0 && (RoundInt(cost) != RoundInt(cost + step) ==> Room(cost + step, step, n - 1))
  {
    RoundIntNear(cost);
    assert n > 0;
    TimesAdd(n - 1, 1, 1.0 - step);
    RoundIntGrows(cost, cost + step);
  }

  lemma {:induction false} WalkRoom(n: nat, i: nat)
    requires n > 0
    ensures n * i >= i && n * i - i == (n - 1) * i
  {
  }

  lemma {:induction false} NextCost(acceptCost: real, rejectCost: real, i: nat, j: nat, accepts: nat, rejects: nat)
    requires i <= accepts
    ensures CostOf(accepts - i, rejects + j, acceptCost, rejectCost)
         == CostOf(accepts, rejects, acceptCost, rejectCost) + (Times(j, rejectCost) - Times(i, acceptCost))
  {
    TimesAdd(accepts - i, i, acceptCost);
    TimesAdd(rejects, j, rejectCost);
  }

  /** Small steps must meet two costs that are rounded alike: walking up in steps of
      less than a millionth, the rounded cost cannot rise each time. */
  lemma {:induction false} Walk(acceptCost: real, rejectCost: real, i: nat, j: nat, n: nat, accepts: nat, rejects: nat)
    returns (a: nat, b: nat)
    requires accepts >= n * i && 0.0 < Times(j, rejectCost) - Times(i, acceptCost) < MILLIONTH
    requires Room(CostOf(accepts, rejects, acceptCost, rejectCost) * 1000000.0,
                  (Times(j, rejectCost) - Times(i, acceptCost)) * 1000000.0, n)
    ensures Trap(acceptCost, rejectCost, a, b, i, j)
    decreases n
  {
    var cost, step := CostOf(accepts, rejects, acceptCost, rejectCost), Times(j, rejectCost) - Times(i, acceptCost);
    RoomShrinks(cost * 1000000.0, step * 1000000.0, n);
    WalkRoom(n, i);
    NextCost(acceptCost, rejectCost, i, j, accepts, rejects);
    assert (cost + step) * 1000000.0 == cost * 1000000.0 + step * 1000000.0;
    a, b := accepts, rejects;
    if RoundInt(cost * 1000000.0) != RoundInt((cost + step) * 1000000.0) {
      a, b := Walk(acceptCost, rejectCost, i, j, n - 1, accepts - i, rejects + j);
    }
  }

  lemma {:induction false} TimesScale(k: nat, x: real)
    ensures Times(k, x * 1000000.0) == Times(k, x) * 1000000.0
    ensures Times(k, x / 1000000.0) == Times(k, x) / 1000000.0
  {
  }

  lemma {:induction false} ScaledUnit(acceptCost: real, rejectCost: real, g: real, m: nat, n: nat)
    requires g >= 1.0 && acceptCost * 1000000.0 == Times(m, g) && rejectCost * 1000000.0 == Times(n, g)
    ensures CommonUnit(acceptCost, rejectCost)
  {
    TimesScale(m, g);
    TimesScale(n, g);
    assert IsUnit(acceptCost, rejectCost, g / 1000000.0, m, n);
  }

  /** Unit costs that are not resolved have a trap. */
  lemma {:induction false} UnresolvedHasTrap(acceptCost: real, rejectCost: real)
    returns (accepts: nat, rejects: nat, i: nat, j: nat)
    requires acceptCost >= 0.0 && rejectCost >= 0.0 && !Resolved(acceptCost, rejectCost)
    ensures Trap(acceptCost, rejectCost, accepts, rejects, i, j)
    ensures acceptCost == 0.0 ==> rejects == 0
  {
    if acceptCost == 0.0 {
      accepts, rejects, i, j := 0, 0, 0, 1;
      assert RoundInt(rejectCost * 1000000.0) == 0 && RoundInt(0.0) == 0;
    } else {
      var found, g;
      found, g, i, j := UnitOrStep(acceptCost * 1000000.0, rejectCost * 1000000.0);
      if found { ScaledUnit(acceptCost, rejectCost, g, i, j); }
      TimesScale(j, rejectCost);
      TimesScale(i, acceptCost);
      var short := 1.0 - (Times(j, rejectCost) - Times(i, acceptCost)) * 1000000.0;
      var n := Enough(short, 1.0);
      RoundIntNear(CostOf(n * i, 0, acceptCost, rejectCost) * 1000000.0);
      accepts, rejects := Walk(acceptCost, rejectCost, i, j, n, n * i, 0);
    }
  }

  // ------------------------------------------------------- rows built on a trap

  function Copies(row: Row, n: nat): (rows: seq<Row>)
    ensures |rows| == n && forall k :: 0 <= k < n ==> rows[k] == row
  {
    seq(n, _ => row)
  }

  predicate Matches(row: Row, t: real, positive: bool, accepted: bool) {
    Counts(row) && row.positive.value == positive && Accepts(t, row.score.value) == accepted
  }

  lemma {:induction false} TallyCopies(rows: seq<Row>, row: Row, n: nat, t: real, positive: bool, accepted: bool)
    ensures Tally(rows + Copies(row, n), t, positive, accepted)
         == Tally(rows, t, positive, accepted) + if Matches(row, t, positive, accepted) then n else 0
  {
    if n == 0 {
      assert rows + Copies(row, 0) == rows;
    } else {
      var all := rows + Copies(row, n);
      assert all[..|all| - 1] == rows + Copies(row, n - 1);
      TallyCopies(rows, row, n - 1, t, positive, accepted);
    }
  }

  const LOW: real := 0.2
  const MIDDLE: real := 0.5
  const HIGH: real := 1.0

  /** One unlabelled row for each of the three scores. */
  const UNLABELLED: seq<Row> := [Row(Some(LOW), None), Row(Some(MIDDLE), None), Row(Some(HIGH), None)]

  /** Above LOW the counts are `accepts` and `rejects`, above MIDDLE `i` fewer and `j`
      more; accepting everything adds `m` wrong cases. */
  function TrapRows(m: nat, accepts: nat, rejects: nat, i: nat, j: nat): seq<Row>
    requires i <= accepts
  {
    UNLABELLED + Copies(Row(Some(LOW), Some(false)), m) + Copies(Row(Some(LOW), Some(true)), rejects)
    + Copies(Row(Some(MIDDLE), Some(false)), i) + Copies(Row(Some(MIDDLE), Some(true)), j)
    + Copies(Row(Some(HIGH), Some(false)), accepts - i)
  }

  lemma {:induction false} NoneLabelled(t: real, positive: bool, accepted: bool)
    ensures Tally(UNLABELLED, t, positive, accepted) == 0
  {
    assert Tally(UNLABELLED[..1], t, positive, accepted) == 0;
    assert UNLABELLED[..2][..1] == UNLABELLED[..1];
    assert Tally(UNLABELLED[..2], t, positive, accepted) == 0;
  }

  /** The counts of such rows at a threshold up to HIGH. */
  ghost predicate CountsAt(rows: seq<Row>, m: nat, accepts: nat, rejects: nat, i: nat, j: nat, t: real)
    requires i <= accepts
  {
    && FalseAccepts(rows, t) == accepts - i + (if t <= MIDDLE then i else 0) + (if t <= LOW then m else 0)
    && FalseRejects(rows, t) == (if t <= LOW then 0 else rejects) + (if t <= MIDDLE then 0 else j)
  }

  lemma {:induction false} TrapTally(m: nat, accepts: nat, rejects: nat, i: nat, j: nat, t: real,
                                     positive: bool, accepted: bool)
    requires i <= accepts && t <= HIGH
    ensures Tally(TrapRows(m, accepts, rejects, i, j), t, positive, accepted)
      == (if Matches(Row(Some(LOW), Some(false)), t, positive, accepted) then m else 0)
       + (if Matches(Row(Some(LOW), Some(true)), t, positive, accepted) then rejects else 0)
       + (if Matches(Row(Some(MIDDLE), Some(false)), t, positive, accepted) then i else 0)
       + (if Matches(Row(Some(MIDDLE), Some(true)), t, positive, accepted) then j else 0)
       + (if Matches(Row(Some(HIGH), Some(false)), t, positive, accepted) then accepts - i else 0)
  {
    NoneLabelled(t, positive, accepted);
    var rows := UNLABELLED;
    TallyCopies(rows, Row(Some(LOW), Some(false)), m, t, positive, accepted);
    rows := rows + Copies(Row(Some(LOW), Some(false)), m);
    TallyCopies(rows, Row(Some(LOW), Some(true)), rejects, t, positive, accepted);
    rows := rows + Copies(Row(Some(LOW), Some(true)), rejects);
    TallyCopies(rows, Row(Some(MIDDLE), Some(false)), i, t, positive, accepted);
    rows := rows + Copies(Row(Some(MIDDLE), Some(false)), i);
    TallyCopies(rows, Row(Some(MIDDLE), Some(true)), j, t, positive, accepted);
    rows := rows + Copies(Row(Some(MIDDLE), Some(true)), j);
    TallyCopies(rows, Row(Some(HIGH), Some(false)), accepts - i, t, positive, accepted);
  }

  lemma {:induction false} TrapCounts(m: nat, accepts: nat, rejects: nat, i: nat, j: nat, t: real)
    requires i <= accepts && t <= HIGH
    ensures CountsAt(TrapRows(m, accepts, rejects, i, j), m, accepts, rejects, i, j, t)
  {
    TrapTally(m, accepts, rejects, i, j, t, false, true);
    TrapTally(m, accepts, rejects, i, j, t, true, false);
  }

  lemma {:induction false} TrapScores(m: nat, accepts: nat, rejects: nat, i: nat, j: nat)
    requires i <= accepts
    ensures forall s :: s in [LOW, MIDDLE, HIGH] <==> IsScore(TrapRows(m, accepts, rejects, i, j), s)
  {
    var rows := TrapRows(m, accepts, rejects, i, j);
    assert rows[0].score == Some(LOW) && rows[1].score == Some(MIDDLE) && rows[2].score == Some(HIGH);
    assert IsScore(rows, LOW) && IsScore(rows, MIDDLE) && IsScore(rows, HIGH);
  }

  /** The costs of such rows at the two thresholds and when everything is accepted. */
  lemma {:induction false} CostsAt(rows: seq<Row>, acceptCost: real, rejectCost: real, m: nat, accepts: nat,
                                   rejects: nat, i: nat, j: nat, t: real)
    requires i <= accepts && CountsAt(rows, m, accepts, rejects, i, j, t)
    ensures Cost(rows, t, acceptCost, rejectCost) ==
      if t <= LOW then CostOf(accepts + m, 0, acceptCost, rejectCost)
      else if t <= MIDDLE then CostOf(accepts, rejects, acceptCost, rejectCost)
      else CostOf(accepts - i, rejects + j, acceptCost, rejectCost)
  {
    CostIsCostOf(rows, t, acceptCost, rejectCost);
    if t <= LOW {
      assert FalseAccepts(rows, t) == accepts + m && FalseRejects(rows, t) == 0;
    } else if t <= MIDDLE {
      assert FalseAccepts(rows, t) == accepts && FalseRejects(rows, t) == rejects;
    } else {
      assert FalseAccepts(rows, t) == accepts - i && FalseRejects(rows, t) == rejects + j;
    }
  }

  lemma {:induction false} PreferredBy(rows: seq<Row>, acceptCost: real, rejectCost: real, high: real, t: real)
    requires t <= high && FalseAccepts(rows, high) <= FalseAccepts(rows, t)
    requires Round6(Cost(rows, high, acceptCost, rejectCost)) <= Round6(Cost(rows, t, acceptCost, rejectCost))
    ensures Preferred(MetricsAt(rows, high, acceptCost, rejectCost), MetricsAt(rows, t, acceptCost, rejectCost))
  {
    Round6Compares(t, high);
  }

  lemma {:induction false} AcceptAllIsDearer(acceptCost: real, rejectCost: real, m: nat, accepts: nat, rejects: nat)
    requires Times(m, acceptCost) >= Times(rejects, rejectCost)
    ensures Round6(CostOf(accepts, rejects, acceptCost, rejectCost))
         <= Round6(CostOf(accepts + m, 0, acceptCost, rejectCost))
  {
    TimesAdd(accepts, m, acceptCost);
    Round6Compares(CostOf(accepts, rejects, acceptCost, rejectCost), CostOf(accepts + m, 0, acceptCost, rejectCost));
  }

  /** On such rows the threshold 1 has the preferred report. */
  lemma {:induction false} TrapIsChosen(rows: seq<Row>, acceptCost: real, rejectCost: real, m: nat, accepts: nat,
                                        rejects: nat, i: nat, j: nat, t: real)
    requires Trap(acceptCost, rejectCost, accepts, rejects, i, j)
    requires Times(m, acceptCost) >= Times(rejects, rejectCost) && t <= HIGH
    requires CountsAt(rows, m, accepts, rejects, i, j, t) && CountsAt(rows, m, accepts, rejects, i, j, HIGH)
    ensures Preferred(MetricsAt(rows, HIGH, acceptCost, rejectCost), MetricsAt(rows, t, acceptCost, rejectCost))
  {
    CostsAt(rows, acceptCost, rejectCost, m, accepts, rejects, i, j, t);
    CostsAt(rows, acceptCost, rejectCost, m, accepts, rejects, i, j, HIGH);
    AcceptAllIsDearer(acceptCost, rejectCost, m, accepts, rejects);
    PreferredBy(rows, acceptCost, rejectCost, HIGH, t);
  }

  lemma {:induction false} TrapRowsMislead(rows: seq<Row>, acceptCost: real, rejectCost: real, m: nat, accepts: nat,
                                           rejects: nat, i: nat, j: nat)
    requires acceptCost >= 0.0 && rejectCost >= 0.0 && Trap(acceptCost, rejectCost, accepts, rejects, i, j)
    requires Times(m, acceptCost) >= Times(rejects, rejectCost)
    requires forall s :: s in [LOW, MIDDLE, HIGH] <==> IsScore(rows, s)
    requires forall t :: t <= HIGH ==> CountsAt(rows, m, accepts, rejects, i, j, t)
    ensures !TrulyCheapest(rows, acceptCost, rejectCost)
  {
    var best := MetricsAt(rows, HIGH, acceptCost, rejectCost);
    forall t | IsCandidate([LOW, MIDDLE, HIGH], t) ensures Preferred(best, MetricsAt(rows, t, acceptCost, rejectCost)) {
      CandidatesAreLow([LOW, MIDDLE, HIGH], HIGH, t);
      TrapIsChosen(rows, acceptCost, rejectCost, m, accepts, rejects, i, j, t);
    }
    assert IsBestCandidate(rows, acceptCost, rejectCost, [LOW, MIDDLE, HIGH], best, HIGH);
    CostsAt(rows, acceptCost, rejectCost, m, accepts, rejects, i, j, HIGH);
    CostsAt(rows, acceptCost, rejectCost, m, accepts, rejects, i, j, MIDDLE);
    NextCost(acceptCost, rejectCost, i, j, accepts, rejects);
  }

  lemma {:induction false} TrapSprings(acceptCost: real, rejectCost: real, m: nat, accepts: nat, rejects: nat,
                                       i: nat, j: nat)
    requires acceptCost >= 0.0 && rejectCost >= 0.0 && Trap(acceptCost, rejectCost, accepts, rejects, i, j)
    requires Times(m, acceptCost) >= Times(rejects, rejectCost)
    ensures !TrulyCheapest(TrapRows(m, accepts, rejects, i, j), acceptCost, rejectCost)
  {
    TrapScores(m, accepts, rejects, i, j);
    forall t | t <= HIGH ensures CountsAt(TrapRows(m, accepts, rejects, i, j), m, accepts, rejects, i, j, t) {
      TrapCounts(m, accepts, rejects, i, j, t);
    }
    TrapRowsMislead(TrapRows(m, accepts, rejects, i, j), acceptCost, rejectCost, m, accepts, rejects, i, j);
  }

  lemma {:induction false} ResolvedIsCheapest(rows: seq<Row>, acceptCost: real, rejectCost: real)
    requires Resolved(acceptCost, rejectCost)
    ensures TrulyCheapest(rows, acceptCost, rejectCost)
  {
    forall scores, best, chosen, t |
      scores != [] && (forall s :: s in scores <==> IsScore(rows, s))
      && IsBestCandidate(rows, acceptCost, rejectCost, scores, best, chosen) && t <= 1.0
      ensures Cost(rows, chosen, acceptCost, rejectCost) <= Cost(rows, t, acceptCost, rejectCost)
    {
      ResolvedChoice(rows, acceptCost, rejectCost, scores, best, chosen, t);
    }
  }

  /** For which unit costs the chosen threshold is the truly cheapest up to 1 on every
      set of rows: exactly for the resolved ones. */
  lemma {:induction false} CheapestExactly(acceptCost: real, rejectCost: real)
    requires acceptCost >= 0.0 && rejectCost >= 0.0
    ensures (forall rows :: TrulyCheapest(rows, acceptCost, rejectCost)) <==> Resolved(acceptCost, rejectCost)
  {
    if Resolved(acceptCost, rejectCost) {
      forall rows ensures TrulyCheapest(rows, acceptCost, rejectCost) {
        ResolvedIsCheapest(rows, acceptCost, rejectCost);
      }
    } else {
      var accepts, rejects, i, j := UnresolvedHasTrap(acceptCost, rejectCost);
      var m := 0;
      if acceptCost > 0.0 { m := Enough(acceptCost, Times(rejects, rejectCost)); }
      TrapSprings(acceptCost, rejectCost, m, accepts, rejects, i, j);
    }
  }

  /** A rejection worth a ten-millionth does not show in a report: of one right case
      with score one half, the search rejects it for nothing. */
  lemma {:induction false} InvisibleCost()
    ensures var rows := [Row(Some(0.5), Some(true))];
      && IsBestCandidate(rows, 0.0, 0.0000001, [0.5], MetricsAt(rows, 1.0, 0.0, 0.0000001), 1.0)
      && Cost(rows, 1.0, 0.0, 0.0000001) == 0.0000001
      && Cost(rows, 0.5, 0.0, 0.0000001) == 0.0
  {
    var rows := [Row(Some(0.5), Some(true))];
    assert rows[..0] == [];
    forall t | IsCandidate([0.5], t)
      ensures Preferred(MetricsAt(rows, 1.0, 0.0, 0.0000001), MetricsAt(rows, t, 0.0, 0.0000001))
    {
      CandidatesAreLow([0.5, 1.0], 1.0, t);
      Round6Compares(t, 1.0);
      assert FalseAccepts(rows, t) == 0;
      assert Tally(rows, t, true, false) <= 1;
    }
  }

  // --------------------------------------------------------- thresholds above 1

  /** On all rows with these scores the chosen report costs no more than the report at
      any real threshold, above 1 too. */
  ghost predicate CheapestEverywhere(scores: seq<real>, acceptCost: real, rejectCost: real) {
    forall rows, best, chosen, t: real ::
      (forall s :: s in scores <==> IsScore(rows, s))
      && IsBestCandidate(rows, acceptCost, rejectCost, scores, best, chosen)
      ==> best.totalCost <= MetricsAt(rows, t, acceptCost, rejectCost).totalCost
  }

  lemma {:induction false} FreeAcceptanceIsCheapest(rows: seq<Row>, rejectCost: real, scores: seq<real>,
                                                    best: Metrics, chosen: real, t: real)
    requires rejectCost >= 0.0 && scores != [] && forall s :: s in scores <==> IsScore(rows, s)
    requires IsBestCandidate(rows, 0.0, rejectCost, scores, best, chosen)
    ensures best.totalCost <= MetricsAt(rows, t, 0.0, rejectCost).totalCost
  {
    var low := LowThreshold(rows);
    ChosenIsOptimal(rows, 0.0, rejectCost, scores, best, chosen, low);
    CostIsCostOf(rows, t, 0.0, rejectCost);
    TimesIsNonNegative(FalseRejects(rows, t), rejectCost);
    Round6Compares(0.0, Cost(rows, t, 0.0, rejectCost));
  }

  function Unlabelled(scores: seq<real>): (rows: seq<Row>)
    ensures |rows| == |scores| && forall i :: 0 <= i < |scores| ==> rows[i] == Row(Some(scores[i]), None)
  {
    seq(|scores|, i requires 0 <= i < |scores| => Row(Some(scores[i]), None))
  }

  /** Rows without a label for the scores, and `n` wrong cases with the highest one. */
  function HighRows(scores: seq<real>, top: real, n: nat): seq<Row> {
    Unlabelled(scores) + Copies(Row(Some(top), Some(false)), n)
  }

  lemma {:induction false} UnlabelledCountsNothing(rows: seq<Row>, t: real, positive: bool, accepted: bool)
    requires forall i :: 0 <= i < |rows| ==> rows[i].positive.None?
    ensures Tally(rows, t, positive, accepted) == 0
  {
    if rows != [] { UnlabelledCountsNothing(rows[..|rows| - 1], t, positive, accepted); }
  }

  lemma {:induction false} HighRowsCost(scores: seq<real>, top: real, n: nat, t: real, acceptCost: real,
                                        rejectCost: real)
    ensures var rows := HighRows(scores, top, n);
      && FalseAccepts(rows, t) == (if t <= top then n else 0)
      && Cost(rows, t, acceptCost, rejectCost) == if t <= top then Times(n, acceptCost) else 0.0
  {
    var row := Row(Some(top), Some(false));
    UnlabelledCountsNothing(Unlabelled(scores), t, false, true);
    UnlabelledCountsNothing(Unlabelled(scores), t, true, false);
    TallyCopies(Unlabelled(scores), row, n, t, false, true);
    TallyCopies(Unlabelled(scores), row, n, t, true, false);
  }

  lemma {:induction false} HighRowsScores(scores: seq<real>, top: real, n: nat)
    requires top in scores
    ensures forall s :: s in scores <==> IsScore(HighRows(scores, top, n), s)
  {
    var rows := HighRows(scores, top, n);
    forall s | s in scores ensures IsScore(rows, s) {
      var i :| 0 <= i < |scores| && scores[i] == s;
      assert rows[i].score == Some(s);
    }
    forall s | IsScore(rows, s) ensures s in scores {
      var i :| 0 <= i < |rows| && rows[i].score == Some(s);
      assert i < |scores| ==> scores[i] == s;
    }
  }

  /** With a score of 1 or more, enough wrong cases at the highest score show in every
      candidate's report; rejecting everything would cost nothing. */
  lemma {:induction false} HighScoreMisleads(scores: seq<real>, acceptCost: real, rejectCost: real)
    requires scores != [] && acceptCost > 0.0 && rejectCost >= 0.0 && !forall s :: s in scores ==> s < 1.0
    ensures !CheapestEverywhere(scores, acceptCost, rejectCost)
  {
    var top := Maximum(scores);
    var n := Enough(acceptCost, MILLIONTH);
    var rows := HighRows(scores, top, n);
    HighRowsScores(scores, top, n);
    var best := MetricsAt(rows, top, acceptCost, rejectCost);
    HighRowsCost(scores, top, n, top, acceptCost, rejectCost);
    forall t | IsCandidate(scores, t) ensures Preferred(best, MetricsAt(rows, t, acceptCost, rejectCost)) {
      CandidatesAreLow(scores, top, t);
      HighRowsCost(scores, top, n, t, acceptCost, rejectCost);
      PreferredBy(rows, acceptCost, rejectCost, top, t);
    }
    assert IsBestCandidate(rows, acceptCost, rejectCost, scores, best, top);
    HighRowsCost(scores, top, n, top + 1.0, acceptCost, rejectCost);
    Round6Compares(0.0, Times(n, acceptCost));
    assert MetricsAt(rows, top + 1.0, acceptCost, rejectCost).totalCost == Round6(0.0);
  }

  /** Exactly for which scores that is so: those below 1, unless accepting is free. */
  lemma {:induction false} CheapestEverywhereExactly(scores: seq<real>, acceptCost: real, rejectCost: real)
    requires scores != [] && acceptCost >= 0.0 && rejectCost >= 0.0
    ensures CheapestEverywhere(scores, acceptCost, rejectCost)
       <==> acceptCost == 0.0 || forall s :: s in scores ==> s < 1.0
  {
    if acceptCost == 0.0 || forall s :: s in scores ==> s < 1.0 {
      forall rows, best, chosen, t: real |
        (forall s :: s in scores <==> IsScore(rows, s))
        && IsBestCandidate(rows, acceptCost, rejectCost, scores, best, chosen)
        ensures best.totalCost <= MetricsAt(rows, t, acceptCost, rejectCost).totalCost
      {
        if acceptCost == 0.0 {
          FreeAcceptanceIsCheapest(rows, rejectCost, scores, best, chosen, t);
        } else {
          ChosenIsOptimal(rows, acceptCost, rejectCost, scores, best, chosen, t);
        }
      }
    } else {
      HighScoreMisleads(scores, acceptCost, rejectCost);
    }
  }
}
