/** The pattern metrics of the retrieval benchmark: each relevant pattern earns
    its discount once, at the first free position from its first match on. */
module PatternRanking {
  import opened Wrappers
  import opened Discounts

  datatype PatternMetrics = PatternMetrics(covered: nat, dcg: real, idealDcg: real)

  predicate OccursAt(text: string, pattern: string, i: nat) {
    i + |pattern| <= |text| && text[i..i + |pattern|] == pattern
  }

  /** `pattern in text`. */
  predicate Contains(text: string, pattern: string) {
    exists i: nat :: i <= |text| && OccursAt(text, pattern, i)
  }

  /** A text contains a pattern that stands between some beginning and some end of it. */
  lemma {:induction false} ContainsExactly(text: string, pattern: string)
    ensures Contains(text, pattern) <==> exists before, after :: text == before + pattern + after
  {
    if i: nat :| i <= |text| && OccursAt(text, pattern, i) {
      assert text == text[..i] + pattern + text[i + |pattern|..];
    }
    if before, after :| text == before + pattern + after {
      assert OccursAt(text, pattern, |before|);
    }
  }

  /** The 1-based rank of the first text containing the pattern, or 0. */
  function FirstRank(texts: seq<string>, pattern: string): (r: nat)
    ensures r <= |texts|
    ensures r > 0 ==> Contains(texts[r - 1], pattern)
    ensures forall q :: 0 <= q < (if r > 0 then r - 1 else |texts|) ==> !Contains(texts[q], pattern)
  {
    if texts == [] then 0
    else
      var front := FirstRank(texts[..|texts| - 1], pattern);
      if front > 0 then front
      else if Contains(texts[|texts| - 1], pattern) then |texts| else 0
  }

  ghost function Ranks(texts: seq<string>, patterns: seq<string>): (ranks: seq<nat>)
    ensures |ranks| == |patterns|
    ensures forall i :: 0 <= i < |patterns| ==> ranks[i] == FirstRank(texts, patterns[i])
  {
    seq(|patterns|, i requires 0 <= i < |patterns| => FirstRank(texts, patterns[i]))
  }

  // ------------------------------------------- positions from first ranks

  ghost predicate Within(order: seq<nat>, ranks: seq<nat>) {
    forall j :: 0 <= j < |order| ==> order[j] < |ranks|
  }

  ghost predicate Earlier(i: nat, j: nat, ranks: seq<nat>)
    requires i < |ranks| && j < |ranks|
  {
    ranks[i] < ranks[j] || (ranks[i] == ranks[j] && i < j)
  }

  ghost predicate InOrder(order: seq<nat>, ranks: seq<nat>) {
    Within(order, ranks) && forall a, b :: 0 <= a < b < |order| ==> Earlier(order[a], order[b], ranks)
  }

  /** All matched patterns, by (first rank, index). */
  ghost predicate IsMatchOrder(order: seq<nat>, ranks: seq<nat>) {
    InOrder(order, ranks) && forall i :: i in order <==> 0 <= i < |ranks| && ranks[i] > 0
  }

  /** The position of the j-th matched pattern: not before its first rank, and
      after every position given out earlier. */
  ghost function Position(order: seq<nat>, ranks: seq<nat>, j: nat): nat
    requires j < |order| && Within(order, ranks)
  {
    var free := if j == 0 then 1 else Position(order, ranks, j - 1) + 1;
    if ranks[order[j]] > free then ranks[order[j]] else free
  }

  ghost function Earned(order: seq<nat>, ranks: seq<nat>, d: nat -> real, n: nat): real
    requires n <= |order| && Within(order, ranks)
  {
    if n == 0 then 0.0 else Earned(order, ranks, d, n - 1) + d(Position(order, ranks, n - 1))
  }

  function IdealUpTo(d: nat -> real, n: nat): real {
    if n == 0 then 0.0 else IdealUpTo(d, n - 1) + d(n)
  }

  lemma {:induction false} DiscountFalls(d: nat -> real, a: nat, b: nat)
    requires Discount(d) && 1 <= a <= b
    ensures 0.0 < d(b) <= d(a)
    ensures StrictDiscount(d) && a < b ==> d(b) < d(a)
  {
    if a < b { DiscountFalls(d, a, b - 1); }
  }

  /** Positions strictly increase, so the j-th is at least j + 1; each is the first that is
      free and not before the pattern is found. */
  lemma {:induction false} PositionsIncrease(order: seq<nat>, ranks: seq<nat>, j: nat)
    requires j < |order| && Within(order, ranks)
    ensures Position(order, ranks, j) >= j + 1
    ensures Position(order, ranks, j) >= ranks[order[j]]
    ensures j > 0 ==> Position(order, ranks, j) > Position(order, ranks, j - 1)
    ensures || Position(order, ranks, j) == ranks[order[j]]
            || Position(order, ranks, j) == if j == 0 then 1 else Position(order, ranks, j - 1) + 1
  {
    if j > 0 { PositionsIncrease(order, ranks, j - 1); }
  }

  lemma {:induction false} IdealGrows(d: nat -> real, m: nat, n: nat)
    requires Discount(d) && m <= n
    ensures 0.0 <= IdealUpTo(d, m) <= IdealUpTo(d, n)
    ensures m < n ==> IdealUpTo(d, m) < IdealUpTo(d, n)
  {
    if n > 0 {
      DiscountFalls(d, n, n);
      IdealGrows(d, if m < n then m else n - 1, n - 1);
    }
  }

  /** Every one of the first `n` positions is the earliest conceivable. */
  ghost predicate Tight(order: seq<nat>, ranks: seq<nat>, n: nat)
    requires n <= |order| && Within(order, ranks)
  {
    n == 0 || (Tight(order, ranks, n - 1) && Position(order, ranks, n - 1) == n)
  }

  /** What the matched patterns earn is at most the ideal; with a strictly falling
      discount it equals the ideal only if every position is the earliest. */
  lemma {:induction false} EarnedBelowIdeal(order: seq<nat>, ranks: seq<nat>, d: nat -> real, n: nat)
    requires Discount(d) && n <= |order| && Within(order, ranks)
    ensures 0.0 <= Earned(order, ranks, d, n) <= IdealUpTo(d, n)
    ensures StrictDiscount(d) ==> (Earned(order, ranks, d, n) == IdealUpTo(d, n) <==> Tight(order, ranks, n))
  {
    if n > 0 {
      EarnedBelowIdeal(order, ranks, d, n - 1);
      PositionsIncrease(order, ranks, n - 1);
      DiscountFalls(d, n, Position(order, ranks, n - 1));
    }
  }

  /** Positions are tight when each pattern is found by its place in the order. */
  lemma {:induction false} TightExactlyWhenEarly(order: seq<nat>, ranks: seq<nat>, n: nat)
    requires n <= |order| && Within(order, ranks)
    ensures Tight(order, ranks, n) <==> forall j :: 0 <= j < n ==> ranks[order[j]] <= j + 1
  {
    if n > 0 {
      TightExactlyWhenEarly(order, ranks, n - 1);
      PositionsIncrease(order, ranks, n - 1);
    }
  }

  /** The score is perfect exactly when every pattern is matched and each has its
      first match no later than its place in the matching order. */
  lemma {:induction false} PerfectExactlyWhenEarly(order: seq<nat>, ranks: seq<nat>, d: nat -> real)
    requires StrictDiscount(d) && Within(order, ranks) && |order| <= |ranks|
    ensures Earned(order, ranks, d, |order|) == IdealUpTo(d, |ranks|) <==>
      |order| == |ranks| && forall j :: 0 <= j < |order| ==> ranks[order[j]] <= j + 1
  {
    EarnedBelowIdeal(order, ranks, d, |order|);
    IdealGrows(d, |order|, |ranks|);
    TightExactlyWhenEarly(order, ranks, |order|);
  }

  // ------------------------------------------------------------- the method

  /** Pattern i is matched once the ranks up to `r`, and for the indices below `t`
      rank r + 1 too, have been looked at. */
  ghost predicate Done(ranks: seq<nat>, r: nat, t: nat, i: nat)
    requires i < |ranks|
  {
    1 <= ranks[i] <= r || (ranks[i] == r + 1 && i < t)
  }

  ghost predicate Progress(ranks: seq<nat>, d: nat -> real, r: nat, t: nat,
                           unmatched: set<nat>, nextPosition: nat, dcg: real, order: seq<nat>)
  {
    && (forall i :: i in unmatched <==> 0 <= i < |ranks| && !Done(ranks, r, t, i))
    && (forall i :: i in order <==> 0 <= i < |ranks| && Done(ranks, r, t, i))
    && InOrder(order, ranks)
    && dcg == Earned(order, ranks, d, |order|)
    && nextPosition == (if order == [] then 1 else Position(order, ranks, |order| - 1) + 1)
    && |unmatched| + |order| == |ranks|
  }

  lemma {:induction false} AppendKeepsEarned(order: seq<nat>, extra: nat, ranks: seq<nat>, d: nat -> real, n: nat)
    requires n <= |order| && Within(order, ranks) && Within(order + [extra], ranks)
    ensures Earned(order + [extra], ranks, d, n) == Earned(order, ranks, d, n)
    ensures n > 0 ==> Position(order + [extra], ranks, n - 1) == Position(order, ranks, n - 1)
  {
    if n > 0 { AppendKeepsEarned(order, extra, ranks, d, n - 1); }
  }

  lemma {:induction false} ProgressTakes(ranks: seq<nat>, d: nat -> real, r: nat, t: nat,
                                         unmatched: set<nat>, nextPosition: nat, dcg: real, order: seq<nat>,
                                         position: nat)
    requires Progress(ranks, d, r, t, unmatched, nextPosition, dcg, order)
    requires t < |ranks| && ranks[t] == r + 1
    requires position == if r + 1 > nextPosition then r + 1 else nextPosition
    ensures Progress(ranks, d, r, t + 1, unmatched - {t}, position + 1, dcg + d(position), order + [t])
  {
    var order' := order + [t];
    forall a, b | 0 <= a < b < |order'| ensures Earlier(order'[a], order'[b], ranks) {
      assert b == |order| ==> order'[a] in order && Done(ranks, r, t, order'[a]);
    }
    AppendKeepsEarned(order, t, ranks, d, |order|);
    assert t in unmatched;
  }

  function UpTo(n: nat): (s: set<nat>)
    ensures |s| == n && forall i :: i in s <==> 0 <= i < n
  {
    if n == 0 then {} else UpTo(n - 1) + {n - 1}
  }

  lemma {:induction false} ProgressSkips(ranks: seq<nat>, d: nat -> real, r: nat, t: nat,
                                         unmatched: set<nat>, nextPosition: nat, dcg: real, order: seq<nat>)
    requires Progress(ranks, d, r, t, unmatched, nextPosition, dcg, order) && t < |ranks| && ranks[t] != r + 1
    ensures Progress(ranks, d, r, t + 1, unmatched, nextPosition, dcg, order)
  {
    assert forall i :: 0 <= i < |ranks| ==> (Done(ranks, r, t + 1, i) <==> Done(ranks, r, t, i));
  }

  lemma {:induction false} ProgressTurns(ranks: seq<nat>, d: nat -> real, r: nat,
                                         unmatched: set<nat>, nextPosition: nat, dcg: real, order: seq<nat>)
    requires Progress(ranks, d, r, |ranks|, unmatched, nextPosition, dcg, order)
    ensures Progress(ranks, d, r + 1, 0, unmatched, nextPosition, dcg, order)
  {
    assert forall i :: 0 <= i < |ranks| ==> (Done(ranks, r + 1, 0, i) <==> Done(ranks, r, |ranks|, i));
  }

  /** The body of the inner loop: a pattern found here takes the next free position. */
  method Settle(found: bool, d: nat -> real, r: nat, t: nat, free: set<nat>, start: nat, earned: real,
                ghost before: seq<nat>, ghost ranks: seq<nat>)
    returns (unmatched: set<nat>, nextPosition: nat, dcg: real, ghost order: seq<nat>)
    requires t < |ranks| && (found <==> ranks[t] == r + 1)
    requires Progress(ranks, d, r, t, free, start, earned, before)
    ensures Progress(ranks, d, r, t + 1, unmatched, nextPosition, dcg, order)
  {
    unmatched, nextPosition, dcg, order := free, start, earned, before;
    if found {
      var position := if r + 1 > nextPosition then r + 1 else nextPosition;
      ProgressTakes(ranks, d, r, t, unmatched, nextPosition, dcg, order, position);
      dcg := dcg + d(position);
      nextPosition := position + 1;
      unmatched := unmatched - {t};
      order := order + [t];
    } else {
      ProgressSkips(ranks, d, r, t, unmatched, nextPosition, dcg, order);
    }
  }

  /** The test of the inner loop picks exactly the patterns first found here. */
  lemma {:induction false} MatchesNow(texts: seq<string>, patterns: seq<string>, r: nat, t: nat, unmatched: set<nat>)
    requires r < |texts| && t < |patterns|
    requires t in unmatched <==> !Done(Ranks(texts, patterns), r, t, t)
    ensures t in unmatched && Contains(texts[r], patterns[t]) <==> Ranks(texts, patterns)[t] == r + 1
  {
  }

  /** The inner loop of `retrieval_metrics`: the patterns first found at rank r + 1. */
  method MatchAtRank(ranked: seq<string>, patterns: seq<string>, d: nat -> real, r: nat,
                     free: set<nat>, start: nat, earned: real, ghost before: seq<nat>)
    returns (unmatched: set<nat>, nextPosition: nat, dcg: real, ghost order: seq<nat>)
    requires r < |ranked| && Progress(Ranks(ranked, patterns), d, r, 0, free, start, earned, before)
    ensures Progress(Ranks(ranked, patterns), d, r + 1, 0, unmatched, nextPosition, dcg, order)
  {
    ghost var ranks := Ranks(ranked, patterns);
    unmatched, nextPosition, dcg, order := free, start, earned, before;
    for t := 0 to |patterns|
      invariant Progress(ranks, d, r, t, unmatched, nextPosition, dcg, order)
    {
      MatchesNow(ranked, patterns, r, t, unmatched);
      var found := t in unmatched && Contains(ranked[r], patterns[t]);
      unmatched, nextPosition, dcg, order := Settle(found, d, r, t, unmatched, nextPosition, dcg, order, ranks);
    }
    ProgressTurns(ranks, d, r, unmatched, nextPosition, dcg, order);
  }

  /** The patterns that some text contains. */
  ghost function Findable(ranks: seq<nat>): set<nat> { set i: nat | i < |ranks| && ranks[i] > 0 }

  lemma {:induction false} FoundIsFindable(ranks: seq<nat>, r: nat, unmatched: set<nat>)
    requires forall i :: 0 <= i < |ranks| ==> ranks[i] <= r
    requires forall i :: i in unmatched <==> 0 <= i < |ranks| && !Done(ranks, r, 0, i)
    ensures |Findable(ranks)| == |ranks| - |unmatched|
  {
    var all := UpTo(|ranks|);
    assert Findable(ranks) == all - unmatched;
    assert all == (all - unmatched) + unmatched;
  }

  /** The outer loop of `retrieval_metrics`. */
  method MatchPatterns(ranked: seq<string>, patterns: seq<string>, d: nat -> real)
    returns (covered: nat, dcg: real, ghost order: seq<nat>)
    ensures IsMatchOrder(order, Ranks(ranked, patterns)) && covered == |order| <= |patterns|
    ensures dcg == Earned(order, Ranks(ranked, patterns), d, |order|)
    ensures covered == |Findable(Ranks(ranked, patterns))|
  {
    var unmatched := UpTo(|patterns|);
    var nextPosition := 1;
    dcg, order := 0.0, [];
    for r := 0 to |ranked|
      invariant Progress(Ranks(ranked, patterns), d, r, 0, unmatched, nextPosition, dcg, order)
    {
      unmatched, nextPosition, dcg, order := MatchAtRank(ranked, patterns, d, r, unmatched, nextPosition, dcg, order);
    }
    covered := |patterns| - |unmatched|;
    FoundIsFindable(Ranks(ranked, patterns), |ranked|, unmatched);
  }

  method ComputeIdeal(d: nat -> real, n: nat) returns (ideal: real)
    ensures ideal == IdealUpTo(d, n)
  {
    ideal := 0.0;
    for rank := 1 to n + 1
      invariant ideal == IdealUpTo(d, rank - 1)
    {
      ideal := ideal + d(rank);
    }
  }

  ghost predicate IsPatternReport(m: PatternMetrics, order: seq<nat>, ranks: seq<nat>, d: nat -> real) {
    && IsMatchOrder(order, ranks)
    && m.covered == |order| <= |ranks|
    && m.dcg == Earned(order, ranks, d, |order|)
    && m.idealDcg == IdealUpTo(d, |ranks|)
    && 0.0 <= m.dcg <= m.idealDcg
  }

  /** `items[:cutoff]`. */
  function Top(texts: seq<string>, k: int): seq<string> {
    var cutoff := if k > 1 then k else 1;
    if |texts| <= cutoff then texts else texts[..cutoff]
  }

  lemma {:induction false} TopIsPrefix(texts: seq<string>, k: int)
    ensures Top(texts, k) <= texts && |Top(texts, k)| == if |texts| < k then |texts| else if k > 1 then k
                                                         else if texts == [] then 0 else 1
  {
  }

  /** `retrieval_metrics`, on case-folded texts and non-blank patterns. */
  method RetrievalMetrics(texts: seq<string>, patterns: seq<string>, k: int, d: nat -> real)
    returns (result: Option<PatternMetrics>, ghost order: seq<nat>)
    requires Discount(d)
    ensures result.None? <==> patterns == []
    ensures result.Some? ==> IsPatternReport(result.value, order, Ranks(Top(texts, k), patterns), d)
    ensures result.Some? ==> result.value.covered == |Findable(Ranks(Top(texts, k), patterns))|
    ensures result.Some? ==> 0.0 <= result.value.dcg <= result.value.idealDcg == IdealUpTo(d, |patterns|)
    ensures (result.Some? && StrictDiscount(d) && result.value.dcg == result.value.idealDcg
             ==> result.value.covered == |patterns|)
  {
    if patterns == [] {
      return None, [];
    }
    var covered, dcg;
    covered, dcg, order := MatchPatterns(Top(texts, k), patterns, d);
    var ideal := ComputeIdeal(d, |patterns|);
    EarnedBelowIdeal(order, Ranks(Top(texts, k), patterns), d, |order|);
    IdealGrows(d, |order|, |patterns|);
    if StrictDiscount(d) { PerfectExactlyWhenEarly(order, Ranks(Top(texts, k), patterns), d); }
    result := Some(PatternMetrics(covered, dcg, ideal));
  }
}
