/** Line-span metrics of the retrieval benchmark: interval merging, the line
    budget, and the two ways of counting relevant lines. */
module Spans {
  import opened Wrappers
  import opened Orders

  /** A gold span may leave its repository open (`None`). */
  datatype Span = Span(path: string, first: int, last: int, repository: Option<string>)

  datatype Interval = Interval(first: int, last: int)

  predicate SameLocation(retrieved: Span, gold: Span) {
    retrieved.path == gold.path && (gold.repository.None? || retrieved.repository == gold.repository)
  }

  /** `_overlap`. */
  function Overlap(retrieved: Span, gold: Span): Option<Interval> {
    if !SameLocation(retrieved, gold) then None
    else
      var first := if retrieved.first > gold.first then retrieved.first else gold.first;
      var last := if retrieved.last < gold.last then retrieved.last else gold.last;
      if first <= last then Some(Interval(first, last)) else None
  }

  predicate Between(first: int, l: int, last: int) { first <= l <= last }

  function Lines(first: int, last: int): set<int> { set l | first <= l <= last && Between(first, l, last) }

  function LineCount(s: Span): int { s.last - s.first + 1 }

  /** The lines of `gold` that `retrieved` contains. */
  function HitLines(retrieved: Span, gold: Span): set<int> {
    if SameLocation(retrieved, gold) then Lines(gold.first, gold.last) * Lines(retrieved.first, retrieved.last) else {}
  }

  lemma {:induction false} CountLines(first: int, last: int)
    requires first <= last + 1
    ensures |Lines(first, last)| == last - first + 1
    decreases last - first + 1
  {
    if first <= last {
      CountLines(first, last - 1);
      assert Lines(first, last) == Lines(first, last - 1) + {last};
    }
  }

  lemma {:induction false} OverlapIsHitLines(retrieved: Span, gold: Span)
    ensures match Overlap(retrieved, gold)
            case None => HitLines(retrieved, gold) == {}
            case Some(i) => i.first <= i.last && HitLines(retrieved, gold) == Lines(i.first, i.last)
  {
  }

  /** A line is hit if both spans have it, in the same file and repository; a gold span that
      names no repository matches any. */
  lemma {:induction false} HitLinesMean(retrieved: Span, gold: Span, l: int)
    ensures l in HitLines(retrieved, gold) <==>
      && retrieved.path == gold.path && (gold.repository == None || retrieved.repository == gold.repository)
      && retrieved.first <= l <= retrieved.last && gold.first <= l <= gold.last
  {
  }

  /** Union of a list of sets. */
  function Union(sets: seq<set<int>>): set<int> {
    if sets == [] then {} else Union(sets[..|sets| - 1]) + sets[|sets| - 1]
  }

  function TotalSize(sets: seq<set<int>>): nat {
    if sets == [] then 0 else TotalSize(sets[..|sets| - 1]) + |sets[|sets| - 1]|
  }

  ghost predicate PairwiseDisjoint(sets: seq<set<int>>) {
    forall i, j :: 0 <= i < j < |sets| ==> sets[i] !! sets[j]
  }

  lemma {:induction false} UnionMembers(sets: seq<set<int>>)
    ensures forall l :: l in Union(sets) <==> exists i :: 0 <= i < |sets| && l in sets[i]
  {
    if sets != [] {
      var front, last := sets[..|sets| - 1], sets[|sets| - 1];
      UnionMembers(front);
      forall l ensures l in Union(sets) <==> exists i :: 0 <= i < |sets| && l in sets[i] {
        if l in Union(front) {
          var i :| 0 <= i < |front| && l in front[i];
          assert l in sets[i];
        }
        if i :| 0 <= i < |sets| && l in sets[i] {
          if i < |front| { assert l in front[i]; }
        }
      }
    }
  }

  lemma {:induction false} SumOfSizes(a: set<int>, b: set<int>)
    ensures |a + b| + |a * b| == |a| + |b|
    ensures |a * b| == 0 <==> a !! b
  {
    assert a + b == (a - a * b) + b && (a - a * b) !! b;
  }

  lemma {:induction false} DisjointSplit(sets: seq<set<int>>)
    requires sets != []
    ensures PairwiseDisjoint(sets) <==>
      PairwiseDisjoint(sets[..|sets| - 1]) && Union(sets[..|sets| - 1]) !! sets[|sets| - 1]
  {
    var front, last := sets[..|sets| - 1], sets[|sets| - 1];
    UnionMembers(front);
    if PairwiseDisjoint(sets) {
      forall l | l in Union(front) ensures l !in last {
        var i :| 0 <= i < |front| && l in front[i];
        assert sets[i] !! sets[|sets| - 1];
      }
    }
    if PairwiseDisjoint(front) && Union(front) !! last {
      forall i, j | 0 <= i < j < |sets| ensures sets[i] !! sets[j] {
        if j < |front| {
          assert front[i] !! front[j];
        } else {
          forall l | l in front[i] ensures l !in last { assert l in Union(front); }
        }
      }
    }
  }

  /** A union is as large as its parts together exactly when they are disjoint. */
  lemma {:induction false} UnionSize(sets: seq<set<int>>)
    ensures |Union(sets)| <= TotalSize(sets)
    ensures |Union(sets)| == TotalSize(sets) <==> PairwiseDisjoint(sets)
  {
    if sets != [] {
      var front, last := sets[..|sets| - 1], sets[|sets| - 1];
      UnionSize(front);
      UnionMembers(front);
      SumOfSizes(Union(front), last);
      DisjointSplit(sets);
    }
  }

  // ------------------------------------------------------- interval merging

  function IntervalSets(intervals: seq<Interval>): (s: seq<set<int>>)
    ensures |s| == |intervals|
  {
    seq(|intervals|, i requires 0 <= i < |intervals| => Lines(intervals[i].first, intervals[i].last))
  }

  predicate StartsBefore(a: Interval, b: Interval) { a.first < b.first || (a.first == b.first && a.last <= b.last) }

  function ByStart(): (Interval, Interval) -> bool { (a: Interval, b: Interval) => StartsBefore(a, b) }

  lemma {:induction false} ByStartIsTotal()
    ensures TotalPreorder(ByStart())
  {
  }

  /** What the merge loop knows: the closed runs make up `closed`, which ends more
      than one line before the open run first..last. */
  ghost predicate Merged(done: seq<Interval>, closed: set<int>, first: int, last: int, covered: int) {
    && first <= last
    && Union(IntervalSets(done)) == closed + Lines(first, last)
    && |closed| == covered
    && forall l :: l in closed ==> l < first
  }

  lemma {:induction false} MergeStep(done: seq<Interval>, next: Interval, closed: set<int>, first: int,
                                     last: int, covered: int)
    requires Merged(done, closed, first, last, covered)
    requires first <= next.first <= next.last
    ensures next.first <= last + 1 ==>
      Merged(done + [next], closed, first, if next.last > last then next.last else last, covered)
    ensures next.first > last + 1 ==>
      Merged(done + [next], closed + Lines(first, last), next.first, next.last, covered + (last - first + 1))
  {
    var sets := IntervalSets(done + [next]);
    assert sets[..|sets| - 1] == IntervalSets(done);
    assert Union(sets) == Union(IntervalSets(done)) + Lines(next.first, next.last);
    CountLines(first, last);
    assert closed !! Lines(first, last);
    if next.first <= last + 1 {
      assert Lines(first, last) + Lines(next.first, next.last)
          == Lines(first, if next.last > last then next.last else last);
    }
  }

  lemma {:induction false} MergeStart(only: Interval)
    requires only.first <= only.last
    ensures Merged([only], {}, only.first, only.last, 0)
  {
    var sets := IntervalSets([only]);
    assert sets[..|sets| - 1] == [];
  }

  lemma {:induction false} MergeEnd(done: seq<Interval>, closed: set<int>, first: int, last: int, covered: int)
    requires Merged(done, closed, first, last, covered)
    ensures covered + (last - first + 1) == |Union(IntervalSets(done))|
  {
    CountLines(first, last);
    assert closed !! Lines(first, last);
  }

  /** The merge loop of `_covered_lines`, on sorted intervals. */
  method MergeSorted(intervals: seq<Interval>) returns (covered: int)
    requires intervals != [] && SortedBy(intervals, ByStart())
    requires forall i :: 0 <= i < |intervals| ==> intervals[i].first <= intervals[i].last
    ensures covered == |Union(IntervalSets(intervals))|
  {
    covered := 0;
    var currentFirst, currentLast := intervals[0].first, intervals[0].last;
    ghost var closed: set<int> := {};
    MergeStart(intervals[0]);
    assert intervals[..1] == [intervals[0]];
    for i := 1 to |intervals|
      invariant Merged(intervals[..i], closed, currentFirst, currentLast, covered)
      invariant currentFirst <= intervals[i - 1].first
    {
      var next := intervals[i];
      assert ByStart()(intervals[i - 1], next);
      MergeStep(intervals[..i], next, closed, currentFirst, currentLast, covered);
      assert intervals[..i + 1] == intervals[..i] + [next];
      if next.first <= currentLast + 1 {
        currentLast := if next.last > currentLast then next.last else currentLast;
      } else {
        covered := covered + (currentLast - currentFirst + 1);
        closed := closed + Lines(currentFirst, currentLast);
        currentFirst, currentLast := next.first, next.last;
      }
    }
    assert intervals[..|intervals|] == intervals;
    MergeEnd(intervals, closed, currentFirst, currentLast, covered);
    covered := covered + (currentLast - currentFirst + 1);
  }

  lemma {:induction false} SameUnion(a: seq<Interval>, b: seq<Interval>)
    requires forall x :: x in a <==> x in b
    ensures Union(IntervalSets(a)) == Union(IntervalSets(b))
  {
    UnionMembers(IntervalSets(a));
    UnionMembers(IntervalSets(b));
    forall l ensures l in Union(IntervalSets(a)) <==> l in Union(IntervalSets(b)) {
      if i :| 0 <= i < |a| && l in IntervalSets(a)[i] {
        assert a[i] in b;
        var j :| 0 <= j < |b| && b[j] == a[i];
        assert l in IntervalSets(b)[j];
      }
      if j :| 0 <= j < |b| && l in IntervalSets(b)[j] {
        assert b[j] in a;
        var i :| 0 <= i < |a| && a[i] == b[j];
        assert l in IntervalSets(a)[i];
      }
    }
  }

  /** The sort-and-merge part of `_covered_lines`. */
  method MergeLength(intervals: seq<Interval>) returns (covered: int)
    requires forall i :: i in intervals ==> i.first <= i.last
    ensures covered == |Union(IntervalSets(intervals))|
  {
    if intervals == [] {
      return 0;
    }
    var sorted := Sort(intervals, ByStart());
    SortPermutes(intervals, ByStart());
    ByStartIsTotal();
    SortSorts(intervals, ByStart());
    covered := MergeSorted(sorted);
    SameUnion(intervals, sorted);
  }

  /** For one gold span, the lines each retrieved span hits. */
  function HitsOfGold(gold: Span, retrieved: seq<Span>): (s: seq<set<int>>)
    ensures |s| == |retrieved|
  {
    seq(|retrieved|, i requires 0 <= i < |retrieved| => HitLines(retrieved[i], gold))
  }

  /** The covered lines of a gold span are its lines that some retrieved span hits. */
  lemma {:induction false} CoveredMeans(gold: Span, retrieved: seq<Span>, l: int)
    ensures l in Union(HitsOfGold(gold, retrieved)) <==>
      exists r :: r in retrieved && l in HitLines(r, gold)
  {
    UnionMembers(HitsOfGold(gold, retrieved));
    if r :| r in retrieved && l in HitLines(r, gold) {
      var i :| 0 <= i < |retrieved| && retrieved[i] == r;
      assert l in HitsOfGold(gold, retrieved)[i];
    }
    if i :| 0 <= i < |retrieved| && l in HitsOfGold(gold, retrieved)[i] {
      assert retrieved[i] in retrieved;
    }
  }

  /** `_covered_lines`: the number of distinct lines of the gold span that some
      retrieved span covers. */
  method CoveredLines(gold: Span, retrieved: seq<Span>) returns (covered: int)
    ensures covered == |Union(HitsOfGold(gold, retrieved))|
  {
    var intervals: seq<Interval> := [];
    for i := 0 to |retrieved|
      invariant forall x :: x in intervals ==> x.first <= x.last
      invariant Union(IntervalSets(intervals)) == Union(HitsOfGold(gold, retrieved[..i]))
    {
      var overlap := Overlap(retrieved[i], gold);
      OverlapIsHitLines(retrieved[i], gold);
      var hits := HitsOfGold(gold, retrieved[..i + 1]);
      assert hits[..|hits| - 1] == HitsOfGold(gold, retrieved[..i]);
      if overlap.Some? {
        ghost var sets := IntervalSets(intervals + [overlap.value]);
        assert sets[..|sets| - 1] == IntervalSets(intervals);
        intervals := intervals + [overlap.value];
      }
    }
    assert retrieved[..|retrieved|] == retrieved;
    covered := MergeLength(intervals);
  }

  // -------------------------------------------------------- two line counts

  /** For one retrieved span, the lines it hits in each gold span. */
  function HitsOfRetrieved(retrieved: Span, gold: seq<Span>): (s: seq<set<int>>)
    ensures |s| == |gold|
  {
    seq(|gold|, i requires 0 <= i < |gold| => HitLines(retrieved, gold[i]))
  }

  /** Gold side: distinct covered lines, gold span by gold span. */
  function GoldLines(gold: seq<Span>, retrieved: seq<Span>): nat {
    if gold == [] then 0
    else GoldLines(gold[..|gold| - 1], retrieved) + |Union(HitsOfGold(gold[|gold| - 1], retrieved))|
  }

  /** Retrieved side: distinct relevant lines, retrieved span by retrieved span. */
  function RetrievedLines(gold: seq<Span>, retrieved: seq<Span>): nat {
    if retrieved == [] then 0
    else RetrievedLines(gold, retrieved[..|retrieved| - 1]) + |Union(HitsOfRetrieved(retrieved[|retrieved| - 1], gold))|
  }

  /** The inner loop of the retrieved side, with its set of line numbers. */
  method RelevantLines(retrieved: Span, gold: seq<Span>) returns (count: nat)
    ensures count == |Union(HitsOfRetrieved(retrieved, gold))|
  {
    var covered: set<int> := {};
    for i := 0 to |gold|
      invariant covered == Union(HitsOfRetrieved(retrieved, gold[..i]))
    {
      var hits := HitsOfRetrieved(retrieved, gold[..i + 1]);
      assert hits[..|hits| - 1] == HitsOfRetrieved(retrieved, gold[..i]);
      OverlapIsHitLines(retrieved, gold[i]);
      var overlap := Overlap(retrieved, gold[i]);
      if overlap.Some? {
        covered := covered + Lines(overlap.value.first, overlap.value.last);
      }
    }
    assert gold[..|gold|] == gold;
    count := |covered|;
  }

  /** The line counts of `span_retrieval_metrics`. */
  method CountBothSides(gold: seq<Span>, retrieved: seq<Span>) returns (coveredGold: nat, relevantRetrieved: nat)
    ensures coveredGold == GoldLines(gold, retrieved) && relevantRetrieved == RetrievedLines(gold, retrieved)
  {
    coveredGold, relevantRetrieved := 0, 0;
    for i := 0 to |gold|
      invariant coveredGold == GoldLines(gold[..i], retrieved)
    {
      assert gold[..i + 1][..i] == gold[..i];
      var c := CoveredLines(gold[i], retrieved);
      coveredGold := coveredGold + c;
    }
    for j := 0 to |retrieved|
      invariant relevantRetrieved == RetrievedLines(gold, retrieved[..j])
    {
      assert retrieved[..j + 1][..j] == retrieved[..j];
      var c := RelevantLines(retrieved[j], gold);
      relevantRetrieved := relevantRetrieved + c;
    }
    assert gold[..|gold|] == gold && retrieved[..|retrieved|] == retrieved;
  }

  /** All pairs: gold span by gold span, and retrieved span by retrieved span. */
  function PairsByGold(gold: seq<Span>, retrieved: seq<Span>): nat {
    if gold == [] then 0
    else PairsByGold(gold[..|gold| - 1], retrieved) + TotalSize(HitsOfGold(gold[|gold| - 1], retrieved))
  }

  function PairsByRetrieved(gold: seq<Span>, retrieved: seq<Span>): nat {
    if retrieved == [] then 0
    else
      PairsByRetrieved(gold, retrieved[..|retrieved| - 1])
      + TotalSize(HitsOfRetrieved(retrieved[|retrieved| - 1], gold))
  }

  lemma {:induction false} PairsByGoldStep(gold: seq<Span>, retrieved: seq<Span>)
    requires retrieved != []
    ensures PairsByGold(gold, retrieved) == PairsByGold(gold, retrieved[..|retrieved| - 1])
                                            + TotalSize(HitsOfRetrieved(retrieved[|retrieved| - 1], gold))
  {
    if gold != [] {
      var g, r := gold[|gold| - 1], retrieved[|retrieved| - 1];
      PairsByGoldStep(gold[..|gold| - 1], retrieved);
      assert HitsOfGold(g, retrieved)[..|retrieved| - 1] == HitsOfGold(g, retrieved[..|retrieved| - 1]);
      assert HitsOfRetrieved(r, gold)[..|gold| - 1] == HitsOfRetrieved(r, gold[..|gold| - 1]);
    } else {
      assert HitsOfRetrieved(retrieved[|retrieved| - 1], gold) == [];
    }
  }

  lemma {:induction false} NoPairs(gold: seq<Span>)
    ensures PairsByGold(gold, []) == 0
  {
    if gold != [] {
      NoPairs(gold[..|gold| - 1]);
      assert HitsOfGold(gold[|gold| - 1], []) == [];
    }
  }

  lemma {:induction false} PairsSwap(gold: seq<Span>, retrieved: seq<Span>)
    ensures PairsByGold(gold, retrieved) == PairsByRetrieved(gold, retrieved)
  {
    if retrieved == [] {
      NoPairs(gold);
    } else {
      PairsByGoldStep(gold, retrieved);
      PairsSwap(gold, retrieved[..|retrieved| - 1]);
    }
  }

  /** No line of a gold span is retrieved twice. */
  ghost predicate NoneRetrievedTwice(gold: seq<Span>, retrieved: seq<Span>) {
    forall g :: g in gold ==> PairwiseDisjoint(HitsOfGold(g, retrieved))
  }

  /** No line of a retrieved span is in two gold spans. */
  ghost predicate NoneGoldTwice(gold: seq<Span>, retrieved: seq<Span>) {
    forall r :: r in retrieved ==> PairwiseDisjoint(HitsOfRetrieved(r, gold))
  }

  lemma {:induction false} GoldLinesAreExact(gold: seq<Span>, retrieved: seq<Span>)
    ensures GoldLines(gold, retrieved) <= PairsByGold(gold, retrieved)
    ensures GoldLines(gold, retrieved) == PairsByGold(gold, retrieved) <==> NoneRetrievedTwice(gold, retrieved)
  {
    if gold != [] {
      var front, last := gold[..|gold| - 1], gold[|gold| - 1];
      assert gold == front + [last];
      GoldLinesAreExact(front, retrieved);
      UnionSize(HitsOfGold(last, retrieved));
    }
  }

  lemma {:induction false} RetrievedLinesAreExact(gold: seq<Span>, retrieved: seq<Span>)
    ensures RetrievedLines(gold, retrieved) <= PairsByRetrieved(gold, retrieved)
    ensures RetrievedLines(gold, retrieved) == PairsByRetrieved(gold, retrieved) <==> NoneGoldTwice(gold, retrieved)
  {
    if retrieved != [] {
      var front, last := retrieved[..|retrieved| - 1], retrieved[|retrieved| - 1];
      assert retrieved == front + [last];
      RetrievedLinesAreExact(gold, front);
      UnionSize(HitsOfRetrieved(last, gold));
    }
  }

  lemma {:induction false} UnionOfSame(lines: set<int>)
    ensures Union([lines]) == lines && Union([lines, lines]) == lines
  {
    assert [lines, lines][..1] == [lines] && [lines][..0] == [];
  }

  /** A span retrieved twice counts once on the gold side and twice on the retrieved
      side; a gold span listed twice the other way round. */
  lemma {:induction false} DoubleSpanCountsTwice(span: Span)
    requires span.first <= span.last
    ensures GoldLines([span], [span, span]) == LineCount(span)
    ensures RetrievedLines([span], [span, span]) == 2 * LineCount(span)
    ensures GoldLines([span, span], [span]) == 2 * LineCount(span)
    ensures RetrievedLines([span, span], [span]) == LineCount(span)
  {
    var lines := Lines(span.first, span.last);
    CountLines(span.first, span.last);
    assert HitLines(span, span) == lines;
    UnionOfSame(lines);
    assert HitsOfGold(span, [span]) == [lines] && HitsOfRetrieved(span, [span]) == [lines];
    assert HitsOfGold(span, [span, span]) == [lines, lines] && HitsOfRetrieved(span, [span, span]) == [lines, lines];
    assert [span, span][..1] == [span] && [span][..0] == [];
    assert GoldLines([span], [span]) == LineCount(span) && RetrievedLines([span], [span]) == LineCount(span);
  }

  /** When nothing is counted twice on one side, that side is the larger count;
      when nothing is on either, the two counts are equal. */
  lemma {:induction false} LineCountsCompare(gold: seq<Span>, retrieved: seq<Span>)
    ensures NoneRetrievedTwice(gold, retrieved) ==> RetrievedLines(gold, retrieved) <= GoldLines(gold, retrieved)
    ensures NoneGoldTwice(gold, retrieved) ==> GoldLines(gold, retrieved) <= RetrievedLines(gold, retrieved)
    ensures NoneRetrievedTwice(gold, retrieved) ==>
      (GoldLines(gold, retrieved) == RetrievedLines(gold, retrieved) <==> NoneGoldTwice(gold, retrieved))
  {
    PairsSwap(gold, retrieved);
    GoldLinesAreExact(gold, retrieved);
    RetrievedLinesAreExact(gold, retrieved);
  }

  ghost predicate SpansDisjoint(spans: seq<Span>) {
    forall i, j :: 0 <= i < j < |spans| && spans[i].path == spans[j].path
      ==> Lines(spans[i].first, spans[i].last) !! Lines(spans[j].first, spans[j].last)
  }

  /** Spans that are pairwise disjoint on each side give equal counts. */
  lemma {:induction false} DisjointSpansCountAlike(gold: seq<Span>, retrieved: seq<Span>)
    requires SpansDisjoint(gold) && SpansDisjoint(retrieved)
    ensures GoldLines(gold, retrieved) == RetrievedLines(gold, retrieved)
  {
    LineCountsCompare(gold, retrieved);
  }

  // ---------------------------------------------------------- the line budget

  /** The spans of the items that have one. */
  function Located(items: seq<Option<Span>>): seq<Span> {
    if items == [] then []
    else if items[0].Some? then [items[0].value] + Located(items[1..])
    else Located(items[1..])
  }

  function SumLines(spans: seq<Span>): int {
    if spans == [] then 0 else LineCount(spans[0]) + SumLines(spans[1..])
  }

  /** The spans taken while ranks and lines remain; the last may be cut short. */
  function Taken(spans: seq<Span>, ranks: nat, lines: Option<nat>): seq<Span>
    decreases |spans|
  {
    if spans == [] || ranks == 0 || lines == Some(0) then []
    else if lines.None? then [spans[0]] + Taken(spans[1..], ranks - 1, None)
    else if LineCount(spans[0]) > lines.value then [spans[0].(last := spans[0].first + lines.value - 1)]
    else if LineCount(spans[0]) >= 0 then
      [spans[0]] + Taken(spans[1..], ranks - 1, Some(lines.value - LineCount(spans[0])))
    else [spans[0]]
  }

  function Budget(lineBudget: Option<int>): Option<nat> {
    if lineBudget.None? then None else Some(if lineBudget.value > 1 then lineBudget.value else 1)
  }

  /** What one located item contributes, and the lines left after it. */
  function CutTo(span: Span, lines: Option<nat>): (Span, Option<nat>)
    requires span.first <= span.last
  {
    if lines.None? then (span, None)
    else if LineCount(span) > lines.value then (span.(last := span.first + lines.value - 1), Some(0))
    else (span, Some(lines.value - LineCount(span)))
  }

  lemma {:induction false} TakenStep(span: Span, rest: seq<Span>, ranks: nat, lines: Option<nat>)
    requires span.first <= span.last && ranks > 0 && lines != Some(0)
    ensures var (cut, left) := CutTo(span, lines);
      Taken([span] + rest, ranks, lines) == [cut] + Taken(rest, ranks - 1, left)
  {
    assert ([span] + rest)[1..] == rest;
  }

  /** What the loop has ranked, followed by what the items from `i` on will add. */
  ghost function AndThen(ranked: seq<Span>, items: seq<Option<Span>>, i: nat, cutoff: nat,
                         lines: Option<nat>): seq<Span>
    requires i <= |items| && |ranked| <= cutoff
  {
    ranked + Taken(Located(items[i..]), cutoff - |ranked|, lines)
  }

  lemma {:induction false} AndThenStep(ranked: seq<Span>, items: seq<Option<Span>>, i: nat, cutoff: nat,
                                       lines: Option<nat>)
    requires i < |items| && |ranked| < cutoff && lines != Some(0)
    requires items[i].Some? ==> items[i].value.first <= items[i].value.last
    ensures (AndThen(ranked, items, i, cutoff, lines)
             == if items[i].None? then AndThen(ranked, items, i + 1, cutoff, lines)
                else AndThen(ranked + [CutTo(items[i].value, lines).0], items, i + 1, cutoff,
                              CutTo(items[i].value, lines).1))
  {
    assert items[i..][1..] == items[i + 1..];
    if items[i].Some? {
      TakenStep(items[i].value, Located(items[i + 1..]), cutoff - |ranked|, lines);
    }
  }

  /** The ranking loop of `span_retrieval_metrics`. */
  method RankSpans(items: seq<Option<Span>>, cutoff: nat, lineBudget: Option<int>) returns (ranked: seq<Span>)
    requires cutoff >= 1
    requires forall i :: 0 <= i < |items| && items[i].Some? ==> items[i].value.first <= items[i].value.last
    ensures ranked == Taken(Located(items), cutoff, Budget(lineBudget))
  {
    ranked := [];
    var remaining: Option<nat> := Budget(lineBudget);
    assert items[0..] == items;
    for i := 0 to |items|
      invariant |ranked| < cutoff && remaining != Some(0)
      invariant AndThen(ranked, items, i, cutoff, remaining) == Taken(Located(items), cutoff, Budget(lineBudget))
    {
      AndThenStep(ranked, items, i, cutoff, remaining);
      if items[i].Some? {
        var (cut, left) := CutTo(items[i].value, remaining);
        remaining := left;
        ranked := ranked + [cut];
        if |ranked| >= cutoff || remaining == Some(0) {
          return;
        }
      }
    }
  }

  /** `ranked` is the start of `spans`, its last span possibly cut short. */
  ghost predicate CutOf(ranked: seq<Span>, spans: seq<Span>) {
    && |ranked| <= |spans|
    && (forall i :: 0 <= i < |ranked| - 1 ==> ranked[i] == spans[i])
    && (ranked != [] ==> var r, s := ranked[|ranked| - 1], spans[|ranked| - 1];
          r == s.(last := r.last) && s.first <= r.last <= s.last)
  }

  function First(spans: seq<Span>, k: nat): seq<Span> { if |spans| <= k then spans else spans[..k] }

  function Min(a: int, b: int): int { if a < b then a else b }

  lemma {:induction false} LinesArePositive(spans: seq<Span>)
    requires forall i :: 0 <= i < |spans| ==> spans[i].first <= spans[i].last
    ensures SumLines(spans) >= |spans|
  {
    if spans != [] { LinesArePositive(spans[1..]); }
  }

  lemma {:induction false} FirstStep(spans: seq<Span>, ranks: nat)
    requires spans != [] && ranks > 0
    ensures First(spans, ranks) == [spans[0]] + First(spans[1..], ranks - 1)
  {
  }

  lemma {:induction false} CutOfGrows(head: Span, ranked: seq<Span>, spans: seq<Span>)
    requires CutOf(ranked, spans) && head.first <= head.last
    ensures CutOf([head] + ranked, [head] + spans)
  {
    var r, s := [head] + ranked, [head] + spans;
    forall i | 0 <= i < |r| - 1 ensures r[i] == s[i] {
      if i > 0 { assert ranked[i - 1] == spans[i - 1]; }
    }
  }

  /** A span longer than the lines left is cut, and nothing follows. */
  lemma {:induction false} CutHead(spans: seq<Span>, ranks: nat, lines: nat)
    requires spans != [] && ranks > 0 && 0 < lines < LineCount(spans[0]) && spans[0].first <= spans[0].last
    ensures CutOf(Taken(spans, ranks, Some(lines)), First(spans, ranks))
  {
    var cut := spans[0].(last := spans[0].first + lines - 1);
    assert Taken(spans, ranks, Some(lines)) == [cut] && First(spans, ranks)[0] == spans[0];
  }

  /** A span that fits stays as it is, and the rest decides. */
  lemma {:induction false} WholeHead(spans: seq<Span>, ranks: nat, left: Option<nat>)
    requires spans != [] && ranks > 0 && spans[0].first <= spans[0].last
    requires CutOf(Taken(spans[1..], ranks - 1, left), First(spans[1..], ranks - 1))
    ensures CutOf([spans[0]] + Taken(spans[1..], ranks - 1, left), First(spans, ranks))
  {
    FirstStep(spans, ranks);
    CutOfGrows(spans[0], Taken(spans[1..], ranks - 1, left), First(spans[1..], ranks - 1));
  }

  /** The ranked spans are the first ones, the last possibly cut. */
  lemma {:induction false} TakenIsCut(spans: seq<Span>, ranks: nat, lines: Option<nat>)
    requires forall i :: 0 <= i < |spans| ==> spans[i].first <= spans[i].last
    ensures CutOf(Taken(spans, ranks, lines), First(spans, ranks))
    ensures lines.None? ==> Taken(spans, ranks, lines) == First(spans, ranks)
    decreases |spans|
  {
    if spans != [] && ranks > 0 && lines != Some(0) {
      if lines.None? {
        TakenIsCut(spans[1..], ranks - 1, None);
        WholeHead(spans, ranks, None);
        FirstStep(spans, ranks);
      } else if LineCount(spans[0]) <= lines.value {
        var left := Some(lines.value - LineCount(spans[0]));
        TakenIsCut(spans[1..], ranks - 1, left);
        WholeHead(spans, ranks, left);
      } else {
        CutHead(spans, ranks, lines.value);
      }
    }
  }

  /** Together they have exactly as many lines as the budget and the first
      `ranks` spans allow. */
  lemma {:induction false} TakenFillsTheBudget(spans: seq<Span>, ranks: nat, lines: nat)
    requires forall i :: 0 <= i < |spans| ==> spans[i].first <= spans[i].last
    ensures SumLines(Taken(spans, ranks, Some(lines))) == Min(lines, SumLines(First(spans, ranks)))
    decreases |spans|
  {
    LinesArePositive(First(spans, ranks));
    if spans != [] && ranks > 0 && lines != 0 {
      FirstStep(spans, ranks);
      var head, tail := spans[0], First(spans[1..], ranks - 1);
      assert ([head] + tail)[1..] == tail;
      LinesArePositive(tail);
      if LineCount(head) <= lines {
        var rest := Taken(spans[1..], ranks - 1, Some(lines - LineCount(head)));
        TakenFillsTheBudget(spans[1..], ranks - 1, lines - LineCount(head));
        assert ([head] + rest)[1..] == rest;
      } else {
        var cut := head.(last := head.first + lines - 1);
        assert Taken(spans, ranks, Some(lines)) == [cut] && [cut][1..] == [];
      }
    }
  }

  /** The located spans are those of the items that have one, in order. */
  lemma {:induction false} LocatedAddsUp(items: seq<Option<Span>>, item: Option<Span>)
    ensures Located([]) == []
    ensures Located(items + [item]) == Located(items) + if item.Some? then [item.value] else []
  {
    if items == [] {
      assert items + [item] == [item];
    } else {
      assert (items + [item])[1..] == items[1..] + [item];
      LocatedAddsUp(items[1..], item);
    }
  }

  lemma {:induction false} LocatedAreSpans(items: seq<Option<Span>>)
    requires forall i :: 0 <= i < |items| && items[i].Some? ==> items[i].value.first <= items[i].value.last
    ensures forall i :: 0 <= i < |Located(items)| ==> Located(items)[i].first <= Located(items)[i].last
  {
    if items != [] {
      LocatedAreSpans(items[1..]);
      assert items[0].Some? ==> items[0].value.first <= items[0].value.last;
    }
  }

  /** What is ranked, in the budget as given: the first located spans, the last one cut short
      so that the lines are as many as the budget, at least 1, allows. */
  lemma {:induction false} RankedMeans(items: seq<Option<Span>>, cutoff: nat, lineBudget: Option<int>)
    requires forall i :: 0 <= i < |items| && items[i].Some? ==> items[i].value.first <= items[i].value.last
    ensures var ranked, first := Taken(Located(items), cutoff, Budget(lineBudget)), First(Located(items), cutoff);
      && CutOf(ranked, first)
      && (lineBudget.None? ==> ranked == first)
      && (lineBudget.Some? ==>
            SumLines(ranked) == Min(if lineBudget.value > 1 then lineBudget.value else 1, SumLines(first)))
  {
    LocatedAreSpans(items);
    TakenIsCut(Located(items), cutoff, Budget(lineBudget));
    if lineBudget.Some? { TakenFillsTheBudget(Located(items), cutoff, Budget(lineBudget).value); }
  }
}
