/** Maximal marginal relevance: a greedy ordering that trades a document's own
    score against its likeness to what is already selected. */
module MarginalRelevance {
  import opened Wrappers
  import opened Products

  import Coverage

  datatype Doc = Doc(tokens: set<nat>, item: nat)

  datatype RankError = LengthMismatch

  // ------------------------------------------------------------- similarity

  function Count(s: set<nat>): real { |s| as real }

  lemma {:induction false} SubsetSize(a: set<nat>, b: set<nat>)
    requires a <= b
    ensures |a| <= |b|
  {
    assert |b - a| + |a| == |b| by { assert b == (b - a) + a; }
  }

  lemma {:induction false} BothNonempty(a: set<nat>, b: set<nat>)
    requires a * b != {}
    ensures 0.0 < Count(a * b) <= Count(a) + Count(b) - Count(a * b)
  {
    SubsetSize(a * b, a);
    SubsetSize(a * b, b);
    assert |a * b| > 0;
  }

  /** `jaccard_similarity`. */
  function Jaccard(a: set<nat>, b: set<nat>): real {
    if a * b == {} then 0.0
    else
      BothNonempty(a, b);
      Count(a * b) / (Count(a) + Count(b) - Count(a * b))
  }

  lemma {:induction false} SameSize(a: set<nat>, b: set<nat>)
    requires a <= b && |a| == |b|
    ensures a == b
  {
    assert |b - a| == 0 by { assert b == (b - a) + a; }
  }

  lemma {:induction false} Fraction(p: real, q: real)
    requires 0.0 < p <= q
    ensures 0.0 < p / q <= 1.0
    ensures p / q == 1.0 <==> p == q
  {
    var f := p / q;
    assert f * q == p;
    if f <= 0.0 { var gap := Scale(f, 0.0, q); }
    if f > 1.0 { var gap := StrictScale(1.0, f, q); }
    if f < 1.0 { var gap := StrictScale(f, 1.0, q); }
  }

  /** Similarity is symmetric, lies in [0, 1] and is 1 exactly for equal nonempty sets. */
  lemma {:induction false} JaccardIsASimilarity(a: set<nat>, b: set<nat>)
    ensures 0.0 <= Jaccard(a, b) <= 1.0 && Jaccard(a, b) == Jaccard(b, a)
    ensures Jaccard(a, b) == 1.0 <==> a == b != {}
  {
    assert a * b == b * a;
    if a * b != {} {
      BothNonempty(a, b);
      Fraction(Count(a * b), Count(a) + Count(b) - Count(a * b));
      SubsetSize(a * b, a);
      SubsetSize(a * b, b);
      if |a * b| == |a| == |b| {
        SameSize(a * b, a);
        SameSize(a * b, b);
      }
    }
    assert a == b ==> a * b == a;
  }

  /** It is the similarity of the context selector, which counts the union itself. */
  lemma {:induction false} SimilaritiesAgree(a: set<nat>, b: set<nat>)
    ensures Jaccard(a, b) == Coverage.Jaccard(a, b)
  {
    assert a + b == a + (b - a * b) && a !! (b - a * b);
    assert |b - a * b| + |a * b| == |b| by { assert b == (b - a * b) + a * b; }
    assert a == {} || b == {} ==> a * b == {};
  }

  // --------------------------------------------------------- what is wanted

  function MaxScore(scores: seq<real>, n: nat): (m: real)
    requires 0 < n <= |scores|
    ensures (exists i :: 0 <= i < n && m == scores[i]) && forall i :: 0 <= i < n ==> scores[i] <= m
  {
    if n == 1 then scores[0]
    else
      var before := MaxScore(scores, n - 1);
      if scores[n - 1] > before then scores[n - 1] else before
  }

  /** The scores divided by the largest, or by 1 when none is positive. */
  function Norm(scores: seq<real>): (norm: seq<real>)
    requires scores != []
    ensures |norm| == |scores|
  {
    var top := MaxScore(scores, |scores|);
    var scale := if top <= 0.0 then 1.0 else top;
    seq(|scores|, i requires 0 <= i < |scores| => scores[i] / scale)
  }

  /** Scores are normalised by the largest, if it is positive, and left alone otherwise. */
  lemma {:induction false} NormMeans(scores: seq<real>, top: nat, i: nat)
    requires top < |scores| && i < |scores| && forall j :: 0 <= j < |scores| ==> scores[j] <= scores[top]
    ensures if scores[top] > 0.0 then Norm(scores)[i] * scores[top] == scores[i] else Norm(scores)[i] == scores[i]
  {
    assert MaxScore(scores, |scores|) == scores[top];
  }

  predicate Indices(s: seq<nat>, n: nat) { forall i :: 0 <= i < |s| ==> s[i] < n }

  /** The largest similarity to a selected document. */
  function Penalty(docs: seq<Doc>, picked: seq<nat>, c: nat): real
    requires c < |docs| && Indices(picked, |docs|)
  {
    if picked == [] then 0.0
    else if |picked| == 1 then Jaccard(docs[c].tokens, docs[picked[0]].tokens)
    else
      var n := |picked| - 1;
      var before := Penalty(docs, picked[..n], c);
      var last := Jaccard(docs[c].tokens, docs[picked[n]].tokens);
      if last > before then last else before
  }

  function Trade(balance: real, relevancy: real, penalty: real): real {
    balance * relevancy - (1.0 - balance) * penalty
  }

  /** The trade is all relevancy at 1, all penalty at 0, and in between the mixture of both. */
  lemma {:induction false} TradeIsMixture(balance: real, relevancy: real, penalty: real)
    ensures Trade(1.0, relevancy, penalty) == relevancy && Trade(0.0, relevancy, penalty) == -penalty
    ensures Trade(balance, relevancy, penalty)
         == balance * Trade(1.0, relevancy, penalty) + (1.0 - balance) * Trade(0.0, relevancy, penalty)
  {
    assert (1.0 - balance) * -penalty == -((1.0 - balance) * penalty);
  }

  function Marginal(docs: seq<Doc>, norm: seq<real>, balance: real, picked: seq<nat>, c: nat): real
    requires c < |docs| == |norm| && Indices(picked, |docs|)
  {
    Trade(balance, norm[c], Penalty(docs, picked, c))
  }

  predicate Beats(x: real, c: nat, y: real, d: nat) { x > y || (x == y && c < d) }

  /** `c` has the largest marginal value among the candidates not yet picked; on a
      tie it is the earliest. */
  ghost predicate IsBest(docs: seq<Doc>, norm: seq<real>, balance: real, relevant: set<nat>, picked: seq<nat>, c: nat)
    requires |docs| == |norm| && Indices(picked, |docs|) && forall d :: d in relevant ==> d < |docs|
  {
    && c in relevant && c !in picked
    && forall d :: d in relevant && d !in picked && d != c ==>
         Beats(Marginal(docs, norm, balance, picked, c), c, Marginal(docs, norm, balance, picked, d), d)
  }

  /** Every pick is the best one at its turn, and picking stops only at `count`
      items or when no candidate is left. */
  ghost predicate IsGreedy(docs: seq<Doc>, norm: seq<real>, balance: real, relevant: set<nat>, picked: seq<nat>)
    requires |docs| == |norm| && forall d :: d in relevant ==> d < |docs|
  {
    && Indices(picked, |docs|)
    && forall t :: 0 <= t < |picked| ==> IsBest(docs, norm, balance, relevant, picked[..t], picked[t])
  }

  function RelevantUpTo(scores: seq<real>, n: nat): (r: set<nat>)
    requires n <= |scores|
    ensures forall d :: d in r <==> 0 <= d < n && scores[d] > 0.0
  {
    if n == 0 then {}
    else RelevantUpTo(scores, n - 1) + if scores[n - 1] > 0.0 then {n - 1} else {}
  }

  function Relevant(scores: seq<real>): (r: set<nat>)
    ensures forall d :: d in r <==> 0 <= d < |scores| && scores[d] > 0.0
  {
    RelevantUpTo(scores, |scores|)
  }

  // ---------------------------------------------------------- the algorithm

  ghost function Members(s: seq<nat>): set<nat> { set x | x in s }

  predicate Ascending(s: seq<nat>) { forall i, j :: 0 <= i < j < |s| ==> s[i] < s[j] }

  /** The largest similarity to the selected documents, by a loop. */
  method ComputePenalty(docs: seq<Doc>, picked: seq<nat>, c: nat) returns (penalty: real)
    requires c < |docs| && Indices(picked, |docs|)
    ensures penalty == Penalty(docs, picked, c)
  {
    if picked == [] { return 0.0; }
    penalty := Jaccard(docs[c].tokens, docs[picked[0]].tokens);
    assert picked[..1] == [picked[0]];
    for i := 1 to |picked|
      invariant penalty == Penalty(docs, picked[..i], c)
    {
      var similarity := Jaccard(docs[c].tokens, docs[picked[i]].tokens);
      assert picked[..i + 1][..i] == picked[..i];
      penalty := if similarity > penalty then similarity else penalty;
    }
    assert picked[..|picked|] == picked;
  }

  /** The position in `unselected` of the first candidate of largest value. */
  method ArgMax(docs: seq<Doc>, norm: seq<real>, balance: real, picked: seq<nat>, unselected: seq<nat>)
    returns (at: nat)
    requires |docs| == |norm| && Indices(picked, |docs|) && Indices(unselected, |docs|)
    requires unselected != [] && Ascending(unselected)
    ensures at < |unselected|
    ensures forall i :: 0 <= i < |unselected| && i != at ==>
      Beats(Marginal(docs, norm, balance, picked, unselected[at]), unselected[at],
            Marginal(docs, norm, balance, picked, unselected[i]), unselected[i])
  {
    at := 0;
    var penalty := ComputePenalty(docs, picked, unselected[0]);
    var best := Trade(balance, norm[unselected[0]], penalty);
    for i := 1 to |unselected|
      invariant at < i && best == Marginal(docs, norm, balance, picked, unselected[at])
      invariant forall k :: 0 <= k < i && k != at ==>
        Beats(best, unselected[at], Marginal(docs, norm, balance, picked, unselected[k]), unselected[k])
    {
      penalty := ComputePenalty(docs, picked, unselected[i]);
      var mmr := Trade(balance, norm[unselected[i]], penalty);
      if mmr > best {
        at, best := i, mmr;
      }
    }
  }

  /** The indices, in order, of the positive scores. */
  method PositiveIndices(scores: seq<real>) returns (r: seq<nat>)
    ensures Ascending(r) && Members(r) == Relevant(scores) && Indices(r, |scores|)
  {
    r := [];
    for i := 0 to |scores|
      invariant Ascending(r) && Indices(r, i)
      invariant forall d :: d in r <==> 0 <= d < i && scores[d] > 0.0
    {
      if scores[i] > 0.0 { r := r + [i]; }
    }
  }

  ghost predicate Selecting(docs: seq<Doc>, norm: seq<real>, balance: real, relevant: set<nat>,
                            picked: seq<nat>, unselected: seq<nat>)
    requires |docs| == |norm| && forall d :: d in relevant ==> d < |docs|
  {
    && Ascending(unselected) && Indices(unselected, |docs|)
    && (forall d :: d in unselected <==> d in relevant && d !in picked)
    && IsGreedy(docs, norm, balance, relevant, picked)
    && |picked| + |unselected| == |relevant|
  }

  lemma {:induction false} GreedyExtends(docs: seq<Doc>, norm: seq<real>, balance: real, relevant: set<nat>,
                                         picked: seq<nat>, c: nat)
    requires |docs| == |norm| && (forall d :: d in relevant ==> d < |docs|)
    requires IsGreedy(docs, norm, balance, relevant, picked) && IsBest(docs, norm, balance, relevant, picked, c)
    ensures IsGreedy(docs, norm, balance, relevant, picked + [c])
  {
    var longer := picked + [c];
    forall t | 0 <= t < |longer| ensures IsBest(docs, norm, balance, relevant, longer[..t], longer[t]) {
      if t < |picked| {
        assert longer[..t] == picked[..t];
        assert IsBest(docs, norm, balance, relevant, picked[..t], picked[t]);
      } else {
        assert longer[..t] == picked;
      }
    }
  }

  /** Removing one element of an ascending list. */
  lemma {:induction false} WithoutOne(s: seq<nat>, at: nat)
    requires Ascending(s) && at < |s|
    ensures Ascending(s[..at] + s[at + 1..])
    ensures forall d :: d in s[..at] + s[at + 1..] <==> d in s && d != s[at]
  {
    var rest := s[..at] + s[at + 1..];
    forall d | d in s && d != s[at] ensures d in rest {
      var i :| 0 <= i < |s| && s[i] == d;
      assert rest[if i < at then i else i - 1] == d;
    }
    forall d | d in rest ensures d in s && d != s[at] {
      var i :| 0 <= i < |rest| && rest[i] == d;
      assert s[if i < at then i else i + 1] == d;
    }
  }

  lemma {:induction false} SelectStep(docs: seq<Doc>, norm: seq<real>, balance: real, relevant: set<nat>,
                                      picked: seq<nat>, unselected: seq<nat>, at: nat)
    requires |docs| == |norm| && (forall d :: d in relevant ==> d < |docs|) && at < |unselected|
    requires Selecting(docs, norm, balance, relevant, picked, unselected)
    requires forall i :: 0 <= i < |unselected| && i != at ==>
      Beats(Marginal(docs, norm, balance, picked, unselected[at]), unselected[at],
            Marginal(docs, norm, balance, picked, unselected[i]), unselected[i])
    ensures Selecting(docs, norm, balance, relevant, picked + [unselected[at]], unselected[..at] + unselected[at + 1..])
  {
    var c := unselected[at];
    assert c in unselected;
    WithoutOne(unselected, at);
    forall d | d in relevant && d !in picked && d != c
      ensures Beats(Marginal(docs, norm, balance, picked, c), c, Marginal(docs, norm, balance, picked, d), d)
    {
      assert d in unselected;
      var i :| 0 <= i < |unselected| && unselected[i] == d;
    }
    GreedyExtends(docs, norm, balance, relevant, picked, c);
  }

  function Least(a: nat, b: nat): nat { if a <= b then a else b }

  lemma {:induction false} AscendingSize(s: seq<nat>)
    requires Ascending(s)
    ensures |Members(s)| == |s|
  {
    if s == [] {
      assert Members(s) == {};
    } else {
      var n := |s| - 1;
      AscendingSize(s[..n]);
      assert Members(s) == Members(s[..n]) + {s[n]} by {
        forall x | x in s ensures x in Members(s[..n]) + {s[n]} {
          var i :| 0 <= i < |s| && s[i] == x;
          assert i < n ==> s[..n][i] == x;
        }
      }
      assert s[n] !in s[..n];
    }
  }

  /** The loop of `maximal_marginal_relevance`, on indices. */
  method Select(docs: seq<Doc>, norm: seq<real>, balance: real, scores: seq<real>, maxItems: int)
    returns (picked: seq<nat>)
    requires |docs| == |norm| == |scores|
    ensures IsGreedy(docs, norm, balance, Relevant(scores), picked)
    ensures |picked| == Least(if maxItems > 0 then maxItems else 0, |Relevant(scores)|)
  {
    var unselected := PositiveIndices(scores);
    AscendingSize(unselected);
    picked := [];
    while unselected != [] && |picked| < maxItems
      invariant Selecting(docs, norm, balance, Relevant(scores), picked, unselected)
      invariant |picked| <= if maxItems > 0 then maxItems else 0
      decreases |unselected|
    {
      var at := ArgMax(docs, norm, balance, picked, unselected);
      SelectStep(docs, norm, balance, Relevant(scores), picked, unselected, at);
      picked := picked + [unselected[at]];
      unselected := unselected[..at] + unselected[at + 1..];
    }
  }

  /** `maximal_marginal_relevance`: nothing without a query, an error on ragged
      input, and otherwise the greedy ordering of the positive scores. */
  method MaximalMarginalRelevance(query: seq<nat>, docs: seq<Doc>, scores: seq<real>, balance: real, maxItems: int)
    returns (r: Result<seq<nat>, RankError>, ghost picked: seq<nat>)
    ensures r.Err? <==> docs != [] && query != [] && |docs| != |scores|
    ensures docs == [] || query == [] ==> r == Ok([])
    ensures r.Ok? && docs != [] && query != [] ==>
      && IsGreedy(docs, Norm(scores), balance, Relevant(scores), picked)
      && |picked| == Least(if maxItems > 0 then maxItems else 0, |Relevant(scores)|)
      && r.value == seq(|picked|, i requires 0 <= i < |picked| => docs[picked[i]].item)
    ensures |picked| <= if maxItems > 0 then maxItems else 0
    ensures (r.Ok? && docs != [] && query != [] && |picked| < maxItems ==>
      |picked| == |set d | 0 <= d < |scores| && scores[d] > 0.0|)
  {
    picked := [];
    if docs == [] || query == [] { return Ok([]), []; }
    if |docs| != |scores| { return Err(LengthMismatch), []; }
    var norm := Norm(scores);
    var order := Select(docs, norm, balance, scores, maxItems);
    picked := order;
    var items := seq(|order|, i requires 0 <= i < |order| => docs[order[i]].item);
    assert picked == [] || items != [];
    assert Relevant(scores) == set d | 0 <= d < |scores| && scores[d] > 0.0;
    r := Ok(items);
  }

  // ---------------------------------------------------------- main theorems

  /** No candidate is picked twice, and only positive scores are. */
  lemma {:induction false} PicksAreDistinct(docs: seq<Doc>, norm: seq<real>, balance: real, relevant: set<nat>,
                                            picked: seq<nat>)
    requires |docs| == |norm| && (forall d :: d in relevant ==> d < |docs|)
      && IsGreedy(docs, norm, balance, relevant, picked)
    ensures forall i, j :: 0 <= i < j < |picked| ==> picked[i] != picked[j]
    ensures forall i :: 0 <= i < |picked| ==> picked[i] in relevant
  {
    forall i, j | 0 <= i < j < |picked| ensures picked[i] != picked[j] {
      assert IsBest(docs, norm, balance, relevant, picked[..j], picked[j]);
      assert picked[..j][i] == picked[i];
    }
    forall i | 0 <= i < |picked| ensures picked[i] in relevant {
      assert IsBest(docs, norm, balance, relevant, picked[..i], picked[i]);
    }
  }

  lemma {:induction false} QuotientsKeepOrder(a: real, b: real, k: real)
    requires k > 0.0
    ensures a / k > b / k <==> a > b
    ensures a / k == b / k <==> a == b
  {
    var p, q := a / k, b / k;
    assert p * k == a && q * k == b;
    if p < q { var gap := StrictScale(p, q, k); }
    if q < p { var gap := StrictScale(q, p, k); }
  }

  /** Dividing by the largest score keeps the order of the scores. */
  lemma {:induction false} NormKeepsOrder(scores: seq<real>, i: nat, j: nat)
    requires i < |scores| && j < |scores|
    ensures Norm(scores)[i] > Norm(scores)[j] <==> scores[i] > scores[j]
    ensures Norm(scores)[i] == Norm(scores)[j] <==> scores[i] == scores[j]
  {
    var top := MaxScore(scores, |scores|);
    QuotientsKeepOrder(scores[i], scores[j], if top <= 0.0 then 1.0 else top);
  }

  lemma {:induction false} OnlyTheScoreCounts(docs: seq<Doc>, norm: seq<real>, picked: seq<nat>, c: nat)
    requires c < |docs| == |norm| && Indices(picked, |docs|)
    ensures Marginal(docs, norm, 1.0, picked, c) == norm[c]
  {
    var penalty := Penalty(docs, picked, c);
    assert (1.0 - 1.0) * penalty == 0.0;
  }

  lemma {:induction false} OnlyThePenaltyCounts(docs: seq<Doc>, norm: seq<real>, picked: seq<nat>, c: nat)
    requires c < |docs| == |norm| && Indices(picked, |docs|)
    ensures Marginal(docs, norm, 0.0, picked, c) == -Penalty(docs, picked, c)
  {
    TradeIsMixture(0.0, norm[c], Penalty(docs, picked, c));
  }

  /** Every pick beats what is left. */
  lemma {:induction false} PickBeats(docs: seq<Doc>, norm: seq<real>, balance: real, relevant: set<nat>,
                                     picked: seq<nat>, i: nat, d: nat) returns (mine: real, other: real)
    requires |docs| == |norm| && (forall c :: c in relevant ==> c < |docs|)
      && IsGreedy(docs, norm, balance, relevant, picked)
    requires i < |picked| && d in relevant && d !in picked[..i + 1]
    ensures picked[i] < |docs| && Indices(picked[..i], |docs|)
    ensures mine == Marginal(docs, norm, balance, picked[..i], picked[i])
    ensures other == Marginal(docs, norm, balance, picked[..i], d)
    ensures Beats(mine, picked[i], other, d)
  {
    var front, c := picked[..i], picked[i];
    assert IsBest(docs, norm, balance, relevant, front, c);
    assert picked[..i + 1] == front + [c];
    mine, other := Marginal(docs, norm, balance, front, c), Marginal(docs, norm, balance, front, d);
  }

  /** With lambda 0 every pick is the one least like what is already picked, the earliest on a tie. */
  lemma {:induction false} LambdaZeroIsNovelty(docs: seq<Doc>, norm: seq<real>, relevant: set<nat>, picked: seq<nat>,
                                               i: nat, d: nat)
    requires |docs| == |norm| && (forall c :: c in relevant ==> c < |docs|)
      && IsGreedy(docs, norm, 0.0, relevant, picked)
    requires i < |picked| && d in relevant && d !in picked[..i + 1]
    ensures var mine, other := Penalty(docs, picked[..i], picked[i]), Penalty(docs, picked[..i], d);
      mine < other || (mine == other && picked[i] < d)
  {
    var mine, other := PickBeats(docs, norm, 0.0, relevant, picked, i, d);
    OnlyThePenaltyCounts(docs, norm, picked[..i], picked[i]);
    OnlyThePenaltyCounts(docs, norm, picked[..i], d);
  }

  lemma {:induction false} LambdaOneIsNormOrder(docs: seq<Doc>, norm: seq<real>, relevant: set<nat>,
                                                picked: seq<nat>, i: nat, d: nat)
    requires |docs| == |norm| && (forall c :: c in relevant ==> c < |docs|)
      && IsGreedy(docs, norm, 1.0, relevant, picked)
    requires i < |picked| && d in relevant && d !in picked[..i + 1]
    ensures Beats(norm[picked[i]], picked[i], norm[d], d)
  {
    var mine, other := PickBeats(docs, norm, 1.0, relevant, picked, i, d);
    OnlyTheScoreCounts(docs, norm, picked[..i], picked[i]);
    OnlyTheScoreCounts(docs, norm, picked[..i], d);
  }

  /** With lambda 1 the greedy order is the stable order by falling score. */
  lemma {:induction false} LambdaOneIsScoreOrder(docs: seq<Doc>, scores: seq<real>, picked: seq<nat>, i: nat, d: nat)
    requires |docs| == |scores| && docs != [] && IsGreedy(docs, Norm(scores), 1.0, Relevant(scores), picked)
    requires i < |picked| && d in Relevant(scores) && d !in picked[..i + 1]
    ensures scores[picked[i]] > scores[d] || (scores[picked[i]] == scores[d] && picked[i] < d)
  {
    LambdaOneIsNormOrder(docs, Norm(scores), Relevant(scores), picked, i, d);
    NormKeepsOrder(scores, picked[i], d);
  }

  /** The penalty is the likeness to some selected document, and to none more. */
  lemma {:induction false} PenaltyIsTheMaximum(docs: seq<Doc>, picked: seq<nat>, c: nat)
    requires c < |docs| && Indices(picked, |docs|)
    ensures forall i :: 0 <= i < |picked| ==>
      Jaccard(docs[c].tokens, docs[picked[i]].tokens) <= Penalty(docs, picked, c)
    ensures picked != [] ==>
      exists i :: 0 <= i < |picked| && Penalty(docs, picked, c) == Jaccard(docs[c].tokens, docs[picked[i]].tokens)
    ensures 0.0 <= Penalty(docs, picked, c) <= 1.0
  {
    if picked != [] {
      var n := |picked| - 1;
      JaccardIsASimilarity(docs[c].tokens, docs[picked[n]].tokens);
      PenaltyIsTheMaximum(docs, picked[..n], c);
    }
  }
}
