/** The budgeted context selector: the mandatory pass, the relevance mode and the
    facility-location mode put together. */
module ContextSelection {
  import opened Wrappers
  import opened Orders
  import opened Coverage
  import opened LazySelection
  import opened GreedyGuarantee
  import opened Products
  import opened SelectorCandidates

  datatype Mode = Empty | Relevance | FacilityLocation

  // --------------------------------------------------------- the selection

  /** Goes through `queue` in order and takes whatever still fits. */
  function TakeFitting(l: Limits, chosen: seq<Candidate>, queue: seq<Candidate>): seq<Candidate>
    decreases |queue|
  {
    if queue == [] then chosen
    else TakeFitting(l, if Fits(l, chosen, queue[0]) then chosen + [queue[0]] else chosen, queue[1..])
  }

  function Mandatory(l: Limits, rows: seq<Candidate>, sources: set<string>): seq<Candidate> {
    TakeFitting(l, [], Filter(rows, FromSources(sources)))
  }

  function Leftover(l: Limits, rows: seq<Candidate>, sources: set<string>): seq<Candidate> {
    Filter(rows, KeyOutside(Keys(Mandatory(l, rows, sources))))
  }

  predicate TightBudget(l: Limits, rows: seq<Candidate>, tightFraction: real) {
    var total := TotalCost(rows, l.TokenAware());
    l.Active() as real / (if total > 1 then total else 1) as real <= tightFraction
  }

  /** What the selector is meant to return, with the greedy run eagerly. */
  ghost function Selection(l: Limits, rows: seq<Candidate>, sources: set<string>, tightFraction: real): seq<Candidate>
    requires PositiveCosts(rows)
  {
    var start := Mandatory(l, rows, sources);
    var rest := Leftover(l, rows, sources);
    FilterMembers(rows, KeyOutside(Keys(start)));
    if TightBudget(l, rows, tightFraction) then
      TakeFitting(l, start, Sort(rest, Ranking(l.TokenAware())))
    else
      start + EagerGreedy(l, rows, Members(rest), start)
  }

  lemma {:induction false} TakeFittingStep(l: Limits, chosen: seq<Candidate>, queue: seq<Candidate>, c: Candidate)
    ensures var before := TakeFitting(l, chosen, queue);
      TakeFitting(l, chosen, queue + [c]) == if Fits(l, before, c) then before + [c] else before
    ensures var before := TakeFitting(l, chosen, queue);
      && UsedChars(before + [c]) == UsedChars(before) + c.charCost
      && UsedTokens(before + [c]) == UsedTokens(before) + c.tokenCost
    decreases |queue|
  {
    UsedStep(TakeFitting(l, chosen, queue), c);
    if queue == [] {
      assert queue + [c] == [c];
    } else {
      assert (queue + [c])[1..] == queue[1..] + [c];
      TakeFittingStep(l, if Fits(l, chosen, queue[0]) then chosen + [queue[0]] else chosen, queue[1..], c);
    }
  }

  lemma {:induction false} TakeFittingExtends(l: Limits, chosen: seq<Candidate>, queue: seq<Candidate>)
    requires WithinBudget(l, chosen)
    ensures var out := TakeFitting(l, chosen, queue);
      && WithinBudget(l, out) && chosen <= out
      && UsedChars(chosen) <= UsedChars(out) && UsedTokens(chosen) <= UsedTokens(out)
    decreases |queue|
  {
    if queue != [] {
      UsedStep(chosen, queue[0]);
      TakeFittingExtends(l, if Fits(l, chosen, queue[0]) then chosen + [queue[0]] else chosen, queue[1..]);
    }
  }

  lemma {:induction false} TakeFittingTakesPart(l: Limits, chosen: seq<Candidate>, queue: seq<Candidate>)
    ensures multiset(TakeFitting(l, chosen, queue)) <= multiset(chosen) + multiset(queue)
    decreases |queue|
  {
    if queue != [] {
      assert queue == [queue[0]] + queue[1..];
      TakeFittingTakesPart(l, if Fits(l, chosen, queue[0]) then chosen + [queue[0]] else chosen, queue[1..]);
    }
  }

  lemma {:induction false} TakeFittingLeaves(l: Limits, chosen: seq<Candidate>, queue: seq<Candidate>, c: Candidate)
    requires WithinBudget(l, chosen) && c in queue
    ensures c in TakeFitting(l, chosen, queue) || !Fits(l, TakeFitting(l, chosen, queue), c)
    decreases |queue|
  {
    var next := if Fits(l, chosen, queue[0]) then chosen + [queue[0]] else chosen;
    UsedStep(chosen, queue[0]);
    if c == queue[0] {
      TakeFittingExtends(l, next, queue[1..]);
      assert c in next || !Fits(l, next, c);
    } else {
      assert queue == [queue[0]] + queue[1..];
      TakeFittingLeaves(l, next, queue[1..], c);
    }
  }

  /** What the take-if-it-fits pass keeps: the budget, and the order of the queue;
      whatever it leaves out does not fit beside what it chose. */
  lemma {:induction false} TakeFittingKeeps(l: Limits, chosen: seq<Candidate>, queue: seq<Candidate>)
    requires WithinBudget(l, chosen)
    ensures var out := TakeFitting(l, chosen, queue);
      && WithinBudget(l, out)
      && chosen <= out
      && UsedChars(chosen) <= UsedChars(out) && UsedTokens(chosen) <= UsedTokens(out)
      && multiset(out) <= multiset(chosen) + multiset(queue)
      && forall c :: c in queue ==> c in out || !Fits(l, out, c)
  {
    TakeFittingExtends(l, chosen, queue);
    TakeFittingTakesPart(l, chosen, queue);
    forall c | c in queue ensures c in TakeFitting(l, chosen, queue) || !Fits(l, TakeFitting(l, chosen, queue), c) {
      TakeFittingLeaves(l, chosen, queue, c);
    }
  }

  lemma {:induction false} KeyIsFresh(l: Limits, rows: seq<Candidate>, i: nat, sources: set<string>)
    requires DistinctKeys(rows) && i < |rows|
    ensures rows[i].item.key !in Keys(TakeFitting(l, [], Filter(rows[..i], FromSources(sources))))
  {
    var queue := Filter(rows[..i], FromSources(sources));
    TakeFittingKeeps(l, [], queue);
    FilterMembers(rows[..i], FromSources(sources));
    forall c | c in TakeFitting(l, [], queue) ensures c in rows[..i] {
      assert c in multiset(TakeFitting(l, [], queue));
      assert c in multiset(queue);
    }
  }

  lemma {:induction false} MandatoryStep(l: Limits, rows: seq<Candidate>, i: nat, sources: set<string>)
    requires DistinctKeys(rows) && i < |rows|
    ensures var before, c := TakeFitting(l, [], Filter(rows[..i], FromSources(sources))), rows[i];
      && TakeFitting(l, [], Filter(rows[..i + 1], FromSources(sources)))
         == (if c.item.source in sources && Fits(l, before, c) then before + [c] else before)
      && c.item.key !in Keys(before)
      && UsedChars(before + [c]) == UsedChars(before) + c.charCost
      && UsedTokens(before + [c]) == UsedTokens(before) + c.tokenCost
  {
    assert rows[..i + 1][..i] == rows[..i];
    TakeFittingStep(l, [], Filter(rows[..i], FromSources(sources)), rows[i]);
    KeyIsFresh(l, rows, i, sources);
  }

  /** The mandatory pass after `i` rows, with its set of keys and its running totals. */
  ghost predicate Passed(l: Limits, rows: seq<Candidate>, i: nat, sources: set<string>, selected: seq<Candidate>,
                         selectedKeys: set<nat>, usedChars: nat, usedTokens: nat)
    requires i <= |rows|
  {
    && selected == TakeFitting(l, [], Filter(rows[..i], FromSources(sources)))
    && usedChars == UsedChars(selected) && usedTokens == UsedTokens(selected) && selectedKeys == Keys(selected)
  }

  lemma {:induction false} KeysGrow(s: seq<Candidate>, c: Candidate)
    ensures Keys(s + [c]) == Keys(s) + {c.item.key}
  {
    assert forall d :: d in s + [c] <==> d in s || d == c;
  }

  lemma {:induction false} PassStep(l: Limits, rows: seq<Candidate>, i: nat, sources: set<string>,
                                    selected: seq<Candidate>, selectedKeys: set<nat>,
                                    usedChars: nat, usedTokens: nat)
    requires DistinctKeys(rows) && i < |rows|
    requires Passed(l, rows, i, sources, selected, selectedKeys, usedChars, usedTokens)
    ensures var c := rows[i];
      if c.item.source in sources && c.item.key !in selectedKeys && FitsIn(l, usedChars, usedTokens, c) then
        Passed(l, rows, i + 1, sources, selected + [c], selectedKeys + {c.item.key},
               usedChars + c.charCost, usedTokens + c.tokenCost)
      else Passed(l, rows, i + 1, sources, selected, selectedKeys, usedChars, usedTokens)
  {
    MandatoryStep(l, rows, i, sources);
    KeysGrow(selected, rows[i]);
  }

  /** The first loop of `select_context`: mandatory sources, in row order. */
  method MandatoryPass(l: Limits, rows: seq<Candidate>, sources: set<string>)
    returns (selected: seq<Candidate>, selectedKeys: set<nat>, usedChars: nat, usedTokens: nat)
    requires DistinctKeys(rows)
    ensures selected == Mandatory(l, rows, sources) && selectedKeys == Keys(selected)
    ensures usedChars == UsedChars(selected) && usedTokens == UsedTokens(selected)
  {
    selected, selectedKeys, usedChars, usedTokens := [], {}, 0, 0;
    for i := 0 to |rows|
      invariant Passed(l, rows, i, sources, selected, selectedKeys, usedChars, usedTokens)
    {
      var c := rows[i];
      PassStep(l, rows, i, sources, selected, selectedKeys, usedChars, usedTokens);
      if c.item.source in sources && c.item.key !in selectedKeys && FitsIn(l, usedChars, usedTokens, c) {
        selected := selected + [c];
        selectedKeys := selectedKeys + {c.item.key};
        usedChars := usedChars + c.charCost;
        usedTokens := usedTokens + c.tokenCost;
      }
    }
    assert rows[..|rows|] == rows;
  }

  /** The relevance mode: the ranked leftovers, whatever still fits. */
  method RelevancePass(l: Limits, ranked: seq<Candidate>, start: seq<Candidate>, startChars: nat, startTokens: nat)
    returns (selected: seq<Candidate>, usedChars: nat, usedTokens: nat)
    requires startChars == UsedChars(start) && startTokens == UsedTokens(start)
    ensures selected == TakeFitting(l, start, ranked)
    ensures usedChars == UsedChars(selected) && usedTokens == UsedTokens(selected)
  {
    selected, usedChars, usedTokens := start, startChars, startTokens;
    for i := 0 to |ranked|
      invariant selected == TakeFitting(l, start, ranked[..i])
      invariant usedChars == UsedChars(selected) && usedTokens == UsedTokens(selected)
    {
      var c := ranked[i];
      assert ranked[..i + 1] == ranked[..i] + [c];
      TakeFittingStep(l, start, ranked[..i], c);
      if FitsIn(l, usedChars, usedTokens, c) {
        selected := selected + [c];
        usedChars := usedChars + c.charCost;
        usedTokens := usedTokens + c.tokenCost;
      }
    }
    assert ranked[..|ranked|] == ranked;
  }

  // ----------------------------------------------- what the selection is

  lemma {:induction false} SubDistinctLeftover(l: Limits, rows: seq<Candidate>, sources: set<string>)
    requires DistinctKeys(rows)
    ensures multiset(Leftover(l, rows, sources)) <= multiset(rows) && DistinctKeys(Leftover(l, rows, sources))
  {
    FilterMembers(rows, KeyOutside(Keys(Mandatory(l, rows, sources))));
    SubDistinct(Leftover(l, rows, sources), rows);
  }

  lemma {:induction false} LeftoverIsTheRest(l: Limits, rows: seq<Candidate>, sources: set<string>, row: Candidate)
    requires DistinctKeys(rows) && row in rows
    ensures row in Mandatory(l, rows, sources) || row in Leftover(l, rows, sources)
    ensures multiset(Leftover(l, rows, sources)) <= multiset(rows) && DistinctKeys(Leftover(l, rows, sources))
    ensures forall c :: c in Leftover(l, rows, sources) ==> c in rows
  {
    SubDistinctLeftover(l, rows, sources);
    var start, queue := Mandatory(l, rows, sources), Filter(rows, FromSources(sources));
    TakeFittingKeeps(l, [], queue);
    FilterMembers(rows, FromSources(sources));
    FilterMembers(rows, KeyOutside(Keys(start)));
    MembersApart(rows);
    if row.item.key in Keys(start) {
      var c :| c in start && c.item.key == row.item.key;
      assert c in multiset(start) && c in multiset(queue);
      assert c in Members(rows) && row in Members(rows);
    }
  }

  /** Every selection respects both ceilings, starts with the mandatory pass, and
      leaves a row out only if it does not fit beside the selection or, in the
      facility-location mode, would represent no row any better. */
  lemma {:induction false} SelectionIsMaximal(l: Limits, rows: seq<Candidate>, sources: set<string>,
                                              tightFraction: real, row: Candidate)
    requires PositiveCosts(rows) && DistinctKeys(rows) && row in rows
    ensures var out := Selection(l, rows, sources, tightFraction);
      && WithinBudget(l, out)
      && Mandatory(l, rows, sources) <= out
      && (row in out || !Fits(l, out, row)
          || (!TightBudget(l, rows, tightFraction) && Objective(rows, out + [row]) == Objective(rows, out)))
  {
    TakeFittingKeeps(l, [], Filter(rows, FromSources(sources)));
    LeftoverIsTheRest(l, rows, sources, row);
    if TightBudget(l, rows, tightFraction) {
      var rest := Leftover(l, rows, sources);
      SortPermutes(rest, Ranking(l.TokenAware()));
      TakeFittingKeeps(l, Mandatory(l, rows, sources), Sort(rest, Ranking(l.TokenAware())));
    } else {
      GreedyIsMaximal(l, rows, Mandatory(l, rows, sources), Leftover(l, rows, sources), row);
    }
  }

  /** Used characters and tokens never fall along a selection. */
  lemma {:induction false} UsedGrows(s: seq<Candidate>, k: nat)
    requires k <= |s|
    ensures UsedChars(s[..k]) <= UsedChars(s) && UsedTokens(s[..k]) <= UsedTokens(s)
    decreases |s|
  {
    if k == |s| {
      assert s[..k] == s;
    } else {
      assert s[..|s| - 1][..k] == s[..k];
      UsedGrows(s[..|s| - 1], k);
    }
  }

  /** A candidate that was offered first and is not chosen does not fit any more. */
  lemma {:induction false} HeadIsPast(l: Limits, chosen: seq<Candidate>, head: Candidate, out: seq<Candidate>, k: nat,
                                      d: Candidate)
    requires chosen <= out && |chosen| <= k < |out| && d !in out[..k] && Fits(l, out[..k], d)
    requires Fits(l, chosen, head) ==> |chosen| < k && out[|chosen|] == head
    ensures d != head
  {
    assert out[..k][..|chosen|] == chosen;
    UsedGrows(out[..k], |chosen|);
    if Fits(l, chosen, head) { assert out[..k][|chosen|] == head; }
  }

  /** Whatever the take-if-it-fits pass picks comes, in its queue, no later than any
      candidate that could have been picked instead. */
  lemma {:induction false} PicksInOrder(l: Limits, chosen: seq<Candidate>, queue: seq<Candidate>, out: seq<Candidate>,
                                        k: nat, d: Candidate) returns (i: nat, j: nat)
    requires WithinBudget(l, chosen) && out == TakeFitting(l, chosen, queue) && |chosen| <= k < |out|
    requires d in queue && d !in out[..k] && Fits(l, out[..k], d)
    ensures i <= j < |queue| && queue[i] == out[k] && queue[j] == d
    decreases |queue|
  {
    var taken := Fits(l, chosen, queue[0]);
    var next := if taken then chosen + [queue[0]] else chosen;
    UsedStep(chosen, queue[0]);
    TakeFittingExtends(l, next, queue[1..]);
    assert next <= out && WithinBudget(l, next);
    if taken && k == |chosen| {
      assert out[k] == next[k] == queue[0];
      i := 0;
      j :| 0 <= j < |queue| && queue[j] == d;
    } else {
      HeadIsPast(l, chosen, queue[0], out, k, d);
      var i', j' := PicksInOrder(l, next, queue[1..], out, k, d);
      i, j := i' + 1, j' + 1;
    }
  }

  /** Higher relevance, then lower cost in the active unit, then the first source, then the
      smaller key. */
  ghost predicate RanksFirst(byTokens: bool, c: Candidate, d: Candidate) {
    var cost, other := if byTokens then c.tokenCost else c.charCost, if byTokens then d.tokenCost else d.charCost;
    || c.relevance > d.relevance
    || (c.relevance == d.relevance && cost < other)
    || (c.relevance == d.relevance && cost == other && c.item.source != d.item.source
        && LexLeq(c.item.source, d.item.source))
    || (c.relevance == d.relevance && cost == other && c.item.source == d.item.source && c.item.key <= d.item.key)
  }

  lemma {:induction false} InPrefix(start: seq<Candidate>, out: seq<Candidate>, k: nat, d: Candidate)
    requires start <= out && |start| <= k <= |out| && d in start
    ensures d in out[..k]
  {
    var m :| 0 <= m < |start| && start[m] == d;
    assert out[..k][m] == d;
  }

  /** The relevance mode, on the fields of the rows: it takes the first in rank of the rows
      that are not taken yet and still fit. */
  lemma {:induction false} RelevancePick(l: Limits, rows: seq<Candidate>, sources: set<string>, tightFraction: real,
                                         k: nat, d: Candidate)
    requires PositiveCosts(rows) && DistinctKeys(rows) && TightBudget(l, rows, tightFraction)
    requires |Mandatory(l, rows, sources)| <= k < |Selection(l, rows, sources, tightFraction)|
    requires d in rows && d !in Selection(l, rows, sources, tightFraction)[..k]
    requires Fits(l, Selection(l, rows, sources, tightFraction)[..k], d)
    ensures RanksFirst(l.tokens.Some?, Selection(l, rows, sources, tightFraction)[k], d)
  {
    var start, rest := Mandatory(l, rows, sources), Leftover(l, rows, sources);
    var ranked := Sort(rest, Ranking(l.TokenAware()));
    var out := Selection(l, rows, sources, tightFraction);
    TakeFittingKeeps(l, [], Filter(rows, FromSources(sources)));
    TakeFittingKeeps(l, start, ranked);
    LeftoverIsTheRest(l, rows, sources, d);
    if d in start { InPrefix(start, out, k, d); }
    SortPermutes(rest, Ranking(l.TokenAware()));
    RankingIsTotal(l.TokenAware());
    SortSorts(rest, Ranking(l.TokenAware()));
    var i, j := PicksInOrder(l, start, ranked, out, k, d);
    assert i < j ==> Ranking(l.TokenAware())(ranked[i], ranked[j]);
  }

  /** Row `c` is not behind row `d`. */
  ghost predicate InRowOrder(rows: seq<Candidate>, c: Candidate, d: Candidate) {
    exists i, j :: 0 <= i <= j < |rows| && rows[i] == c && rows[j] == d
  }

  /** Filtering keeps the order of the rows. */
  lemma {:induction false} FilterKeepsOrder(rows: seq<Candidate>, keep: Candidate -> bool, i: nat, j: nat)
    requires i <= j < |Filter(rows, keep)|
    ensures InRowOrder(rows, Filter(rows, keep)[i], Filter(rows, keep)[j])
    decreases |rows|
  {
    var n := |rows| - 1;
    var front := Filter(rows[..n], keep);
    FilterMembers(rows, keep);
    assert Filter(rows, keep)[i] in rows;
    if j == |front| {
      var a :| 0 <= a < |rows| && rows[a] == Filter(rows, keep)[i];
      assert rows[n] == Filter(rows, keep)[j];
    } else {
      FilterKeepsOrder(rows[..n], keep, i, j);
      var a, b :| 0 <= a <= b < |rows[..n]| && rows[..n][a] == front[i] && rows[..n][b] == front[j];
      assert rows[a] == front[i] && rows[b] == front[j];
    }
  }

  /** The mandatory pass takes the first of the mandatory rows that still fit. */
  lemma {:induction false} MandatoryPick(l: Limits, rows: seq<Candidate>, sources: set<string>, k: nat, d: Candidate)
    requires k < |Mandatory(l, rows, sources)| && d in rows && d.item.source in sources
    requires d !in Mandatory(l, rows, sources)[..k] && Fits(l, Mandatory(l, rows, sources)[..k], d)
    ensures InRowOrder(rows, Mandatory(l, rows, sources)[k], d)
  {
    FilterMembers(rows, FromSources(sources));
    var i, j := PicksInOrder(l, [], Filter(rows, FromSources(sources)), Mandatory(l, rows, sources), k, d);
    FilterKeepsOrder(rows, FromSources(sources), i, j);
  }

  /** The mandatory rows that were taken, and those that do not fit beside them. */
  lemma {:induction false} MandatoryComesFirst(l: Limits, rows: seq<Candidate>, sources: set<string>, c: Candidate)
    requires c in rows
    ensures c in Mandatory(l, rows, sources) ==> c.item.source in sources
    ensures c.item.source in sources ==> c in Mandatory(l, rows, sources) || !Fits(l, Mandatory(l, rows, sources), c)
  {
    var queue := Filter(rows, FromSources(sources));
    FilterMembers(rows, FromSources(sources));
    TakeFittingKeeps(l, [], queue);
    if c in Mandatory(l, rows, sources) {
      assert c in multiset(Mandatory(l, rows, sources)) && c in multiset(queue);
    }
  }

  /** The facility-location mode, on the objective: every pick raises it, and no other row
      that is not taken yet and still fits raises it by more per unit of active cost, nor by
      as much with a smaller key. */
  lemma {:induction false} FacilityPick(l: Limits, rows: seq<Candidate>, sources: set<string>, tightFraction: real,
                                        k: nat, d: Candidate)
    requires PositiveCosts(rows) && DistinctKeys(rows) && !TightBudget(l, rows, tightFraction)
    requires |Mandatory(l, rows, sources)| <= k < |Selection(l, rows, sources, tightFraction)|
    requires var out := Selection(l, rows, sources, tightFraction);
      d in rows && d !in out[..k] && d != out[k] && Fits(l, out[..k], d)
    ensures var out := Selection(l, rows, sources, tightFraction);
      PicksWell(l.tokens.Some?, rows, out[..k], out[k], d)
  {
    var start, rest := Mandatory(l, rows, sources), Leftover(l, rows, sources);
    LeftoverIsTheRest(l, rows, sources, d);
    RunPicksWell(l, rows, Members(rest), start, k - |start|, d);
  }

  lemma {:induction false} SelectionKeepsBudget(l: Limits, rows: seq<Candidate>, sources: set<string>,
                                                tightFraction: real)
    requires PositiveCosts(rows) && DistinctKeys(rows)
    ensures var out := Selection(l, rows, sources, tightFraction);
      WithinBudget(l, out) && Mandatory(l, rows, sources) <= out
  {
    var start, rest := Mandatory(l, rows, sources), Leftover(l, rows, sources);
    TakeFittingKeeps(l, [], Filter(rows, FromSources(sources)));
    SubDistinctLeftover(l, rows, sources);
    if TightBudget(l, rows, tightFraction) {
      TakeFittingKeeps(l, start, Sort(rest, Ranking(l.TokenAware())));
    } else {
      FilterMembers(rows, KeyOutside(Keys(start)));
      EagerStaysInBudget(l, rows, Members(rest), start);
    }
  }

  lemma {:induction false} PartsJoin(start: seq<Candidate>, rest: seq<Candidate>, out: seq<Candidate>,
                                     rows: seq<Candidate>)
    requires multiset(start) <= multiset(rows) && multiset(rest) <= multiset(rows)
    requires forall c :: c in start ==> c !in rest
    requires multiset(out) <= multiset(start) + multiset(rest)
    ensures multiset(out) <= multiset(rows)
  {
    forall c ensures multiset(out)[c] <= multiset(rows)[c] {
      assert multiset(out)[c] <= multiset(start)[c] + multiset(rest)[c];
      assert c in start <==> c in multiset(start);
      assert c in rest <==> c in multiset(rest);
    }
  }

  /** The selection takes rows, and none of them twice. */
  lemma {:induction false} SelectionIsPart(l: Limits, rows: seq<Candidate>, sources: set<string>, tightFraction: real)
    requires PositiveCosts(rows) && DistinctKeys(rows)
    ensures multiset(Selection(l, rows, sources, tightFraction)) <= multiset(rows)
  {
    var start, rest := Mandatory(l, rows, sources), Leftover(l, rows, sources);
    var out := Selection(l, rows, sources, tightFraction);
    TakeFittingKeeps(l, [], Filter(rows, FromSources(sources)));
    FilterMembers(rows, FromSources(sources));
    FilterMembers(rows, KeyOutside(Keys(start)));
    if TightBudget(l, rows, tightFraction) {
      SortPermutes(rest, Ranking(l.TokenAware()));
      TakeFittingKeeps(l, start, Sort(rest, Ranking(l.TokenAware())));
    } else {
      RunIsPart(l, rows, Members(rest), start);
      forall c | c in Members(rest) ensures multiset(Members(rest))[c] <= multiset(rest)[c] {
        assert c in multiset(rest);
      }
    }
    PartsJoin(start, rest, out, rows);
  }

  /** `c` fits within the budgets beside what is chosen. */
  ghost predicate FitsBeside(charBudget: int, tokenBudget: Option<int>, chosen: seq<Candidate>, c: Candidate) {
    && UsedChars(chosen) + c.charCost <= charBudget
    && (tokenBudget.Some? ==> UsedTokens(chosen) + c.tokenCost <= tokenBudget.value)
  }

  /** Choice `k` was not worse than choosing `d`: while the mandatory rows are taken, row
      order decides, then the rank or what the objective gains per unit of cost. */
  ghost predicate NoWorse(rows: seq<Candidate>, sources: set<string>, byTokens: bool, mode: Mode, first: nat,
                          selected: seq<Candidate>, k: nat, d: Candidate)
    requires k < |selected|
  {
    if k < first then d.item.source in sources ==> InRowOrder(rows, selected[k], d)
    else if mode == Relevance then RanksFirst(byTokens, selected[k], d)
    else PicksWell(byTokens, rows, selected[..k], selected[k], d)
  }

  lemma {:induction false} EveryChoice(l: Limits, rows: seq<Candidate>, sources: set<string>, tightFraction: real,
                                       k: nat, d: Candidate)
    requires PositiveCosts(rows) && DistinctKeys(rows)
    requires var out := Selection(l, rows, sources, tightFraction);
      k < |out| && d in rows && d !in out[..k] && d != out[k] && Fits(l, out[..k], d)
    ensures Mandatory(l, rows, sources) <= Selection(l, rows, sources, tightFraction)
    ensures NoWorse(rows, sources, l.tokens.Some?,
                    if TightBudget(l, rows, tightFraction) then Relevance else FacilityLocation,
                    |Mandatory(l, rows, sources)|, Selection(l, rows, sources, tightFraction), k, d)
  {
    var start, out := Mandatory(l, rows, sources), Selection(l, rows, sources, tightFraction);
    SelectionIsMaximal(l, rows, sources, tightFraction, d);
    if k < |start| {
      assert out[..k] == start[..k] && out[k] == start[k];
      if d.item.source in sources { MandatoryPick(l, rows, sources, k, d); }
    } else if TightBudget(l, rows, tightFraction) {
      RelevancePick(l, rows, sources, tightFraction, k, d);
    } else {
      FacilityPick(l, rows, sources, tightFraction, k, d);
    }
  }

  /** The active budget is at most the fraction of the total cost, at least 1, of the rows. */
  ghost predicate IsTight(charBudget: int, tokenBudget: Option<int>, total: nat, tightFraction: real) {
    (if tokenBudget.Some? then tokenBudget.value else charBudget) as real
    <= tightFraction * (if total > 1 then total else 1) as real
  }

  function AtLeast(floor: nat, value: int): nat { if value > floor then value else floor }

  function LimitsOf(charBudget: int, tokenBudget: Option<int>): Limits {
    Limits(AtLeast(0, charBudget),
           if tokenBudget.None? then None else Some(AtLeast(0, tokenBudget.value)))
  }

  lemma {:induction false} TightMeans(charBudget: int, tokenBudget: Option<int>, rows: seq<Candidate>,
                                      tightFraction: real)
    requires charBudget > 0 && (tokenBudget.Some? ==> tokenBudget.value > 0)
    ensures TightBudget(LimitsOf(charBudget, tokenBudget), rows, tightFraction)
      <==> IsTight(charBudget, tokenBudget, TotalCost(rows, tokenBudget.Some?), tightFraction)
  {
    var total := TotalCost(rows, tokenBudget.Some?);
    var active := if tokenBudget.Some? then tokenBudget.value else charBudget;
    var whole := (if total > 1 then total else 1) as real;
    var ratio := active as real / whole;
    assert ratio * whole == active as real;
    if ratio <= tightFraction {
      var gap := Scale(ratio, tightFraction, whole);
    } else {
      var gap := StrictScale(tightFraction, ratio, whole);
    }
  }

  /** The first `first` choices are mandatory rows, and no other mandatory row fits beside them. */
  ghost predicate MandatoryFirst(rows: seq<Candidate>, charBudget: int, tokenBudget: Option<int>,
                                 sources: set<string>, first: nat, selected: seq<Candidate>)
    requires first <= |selected|
  {
    && (forall c :: c in selected[..first] ==> c.item.source in sources)
    && (forall c :: c in rows && c.item.source in sources && c !in selected[..first] ==>
          !FitsBeside(charBudget, tokenBudget, selected[..first], c))
  }

  /** No choice was worse than another row that was not taken yet and fitted. */
  ghost predicate ChoicesAreBest(rows: seq<Candidate>, charBudget: int, tokenBudget: Option<int>,
                                 sources: set<string>, mode: Mode, first: nat, selected: seq<Candidate>)
  {
    forall k, d | 0 <= k < |selected| && d in rows && d !in selected[..k] && d != selected[k] ::
      (FitsBeside(charBudget, tokenBudget, selected[..k], d) ==>
         NoWorse(rows, sources, tokenBudget.Some?, mode, first, selected, k, d))
  }

  lemma {:induction false} MandatoryGoesFirst(rows: seq<Candidate>, charBudget: int, tokenBudget: Option<int>,
                                              sources: set<string>, tightFraction: real)
    requires PositiveCosts(rows) && DistinctKeys(rows)
    requires charBudget > 0 && (tokenBudget.Some? ==> tokenBudget.value > 0)
    ensures var l := LimitsOf(charBudget, tokenBudget);
      var start, out := Mandatory(l, rows, sources), Selection(l, rows, sources, tightFraction);
      |start| <= |out| && MandatoryFirst(rows, charBudget, tokenBudget, sources, |start|, out)
  {
    var l := LimitsOf(charBudget, tokenBudget);
    var start, out := Mandatory(l, rows, sources), Selection(l, rows, sources, tightFraction);
    SelectionIsPart(l, rows, sources, tightFraction);
    SelectionKeepsBudget(l, rows, sources, tightFraction);
    assert out[..|start|] == start;
    forall c | c in start ensures c.item.source in sources {
      assert c in out && c in multiset(out) && c in multiset(rows);
      MandatoryComesFirst(l, rows, sources, c);
    }
    forall c | c in rows && c.item.source in sources && c !in start
      ensures !FitsBeside(charBudget, tokenBudget, start, c)
    {
      MandatoryComesFirst(l, rows, sources, c);
    }
  }

  lemma {:induction false} SelectionChoosesBest(rows: seq<Candidate>, charBudget: int, tokenBudget: Option<int>,
                                                sources: set<string>, tightFraction: real)
    requires PositiveCosts(rows) && DistinctKeys(rows)
    requires charBudget > 0 && (tokenBudget.Some? ==> tokenBudget.value > 0)
    ensures var l := LimitsOf(charBudget, tokenBudget);
      ChoicesAreBest(rows, charBudget, tokenBudget, sources,
                     if TightBudget(l, rows, tightFraction) then Relevance else FacilityLocation,
                     |Mandatory(l, rows, sources)|, Selection(l, rows, sources, tightFraction))
  {
    var l := LimitsOf(charBudget, tokenBudget);
    var start, out := Mandatory(l, rows, sources), Selection(l, rows, sources, tightFraction);
    var mode := if TightBudget(l, rows, tightFraction) then Relevance else FacilityLocation;
    forall k, d | 0 <= k < |out| && d in rows && d !in out[..k] && d != out[k]
                  && FitsBeside(charBudget, tokenBudget, out[..k], d)
      ensures NoWorse(rows, sources, tokenBudget.Some?, mode, |start|, out, k, d)
    {
      EveryChoice(l, rows, sources, tightFraction, k, d);
    }
  }

  /** A row is left out only if it would pass a budget or represent nothing any better. */
  ghost predicate LeavesOutOnly(rows: seq<Candidate>, charBudget: int, tokenBudget: Option<int>, mode: Mode,
                                selected: seq<Candidate>, usedChars: nat, usedTokens: nat)
  {
    forall c | c in rows && c !in selected ::
      || usedChars + c.charCost > charBudget
      || (tokenBudget.Some? && usedTokens + c.tokenCost > tokenBudget.value)
      || (mode == FacilityLocation && Objective(rows, selected + [c]) == Objective(rows, selected))
  }

  lemma {:induction false} LeftOutFor(rows: seq<Candidate>, charBudget: int, tokenBudget: Option<int>,
                                      sources: set<string>, tightFraction: real)
    requires PositiveCosts(rows) && DistinctKeys(rows)
    requires charBudget > 0 && (tokenBudget.Some? ==> tokenBudget.value > 0)
    ensures var l := LimitsOf(charBudget, tokenBudget);
      var out := Selection(l, rows, sources, tightFraction);
      && UsedChars(out) <= charBudget && (tokenBudget.Some? ==> UsedTokens(out) <= tokenBudget.value)
      && LeavesOutOnly(rows, charBudget, tokenBudget,
                       if TightBudget(l, rows, tightFraction) then Relevance else FacilityLocation, out,
                       UsedChars(out), UsedTokens(out))
  {
    var l := LimitsOf(charBudget, tokenBudget);
    SelectionKeepsBudget(l, rows, sources, tightFraction);
    forall c | c in rows
      ensures var out := Selection(l, rows, sources, tightFraction);
        || c in out || !Fits(l, out, c)
        || (!TightBudget(l, rows, tightFraction) && Objective(rows, out + [c]) == Objective(rows, out))
    {
      SelectionIsMaximal(l, rows, sources, tightFraction, c);
    }
  }

  /** The three passes of `select_context`, in budgets that are positive. */
  method SelectRows(charBudget: int, tokenBudget: Option<int>, rows: seq<Candidate>, sources: set<string>,
                    tightFraction: real)
    returns (selected: seq<Candidate>, mode: Mode, usedChars: nat, usedTokens: nat, ghost first: nat)
    requires PositiveCosts(rows) && DistinctKeys(rows)
    ensures var l := LimitsOf(charBudget, tokenBudget);
      && mode == (if TightBudget(l, rows, tightFraction) then Relevance else FacilityLocation)
      && selected == Selection(l, rows, sources, tightFraction)
      && first == |Mandatory(l, rows, sources)|
    ensures usedChars == UsedChars(selected) && usedTokens == UsedTokens(selected)
  {
    var l := LimitsOf(charBudget, tokenBudget);
    var selectedKeys;
    selected, selectedKeys, usedChars, usedTokens := MandatoryPass(l, rows, sources);
    first := |selected|;
    var remainingRows := Filter(rows, KeyOutside(selectedKeys));
    if TightBudget(l, rows, tightFraction) {
      mode := Relevance;
      var ranked := Sort(remainingRows, Ranking(l.TokenAware()));
      selected, usedChars, usedTokens := RelevancePass(l, ranked, selected, usedChars, usedTokens);
    } else {
      mode := FacilityLocation;
      FilterMembers(rows, KeyOutside(selectedKeys));
      SubDistinct(remainingRows, rows);
      selected, usedChars, usedTokens := LazyGreedy(l, rows, selected, remainingRows, usedChars, usedTokens);
    }
  }

  /** `select_context`. `query` is the token set of the query text. Two ghost results say
      which rows the selector works on and how many of its choices are mandatory. */
  method SelectContext(query: set<string>, items: seq<Item>, charBudget: int, tokenBudget: Option<int>,
                       requestedLimit: int, sources: set<string>, tightFraction: real)
    returns (selected: seq<Candidate>, mode: Mode, usedChars: nat, usedTokens: nat,
             ghost rows: seq<Candidate>, ghost first: nat)
    ensures rows == Bounded(CandidateRows(query, items), if requestedLimit > 1 then requestedLimit else 1, sources,
                            tokenBudget.Some?)
    ensures PositiveCosts(rows) && DistinctKeys(rows)
    ensures mode == Empty <==> rows == [] || charBudget <= 0 || (tokenBudget.Some? && tokenBudget.value <= 0)
    ensures mode != Empty ==>
      (mode == Relevance <==> IsTight(charBudget, tokenBudget, TotalCost(rows, tokenBudget.Some?), tightFraction))
    ensures selected == if mode == Empty then []
                        else Selection(LimitsOf(charBudget, tokenBudget), rows, sources, tightFraction)
    ensures usedChars == UsedChars(selected) && usedTokens == UsedTokens(selected)
    ensures usedChars <= if charBudget > 0 then charBudget else 0
    ensures tokenBudget.Some? ==> usedTokens <= if tokenBudget.value > 0 then tokenBudget.value else 0
    ensures multiset(selected) <= multiset(rows)
    ensures LeavesOutOnly(rows, charBudget, tokenBudget, mode, selected, usedChars, usedTokens)
    ensures first <= |selected| && (mode != Empty ==>
      && MandatoryFirst(rows, charBudget, tokenBudget, sources, first, selected)
      && ChoicesAreBest(rows, charBudget, tokenBudget, sources, mode, first, selected))
  {
    var allRows := BuildCandidates(query, items);
    var universe := Bounded(allRows, AtLeast(1, requestedLimit), sources, tokenBudget.Some?);
    rows := universe;
    BoundedIsSound(query, items, AtLeast(1, requestedLimit), sources, tokenBudget.Some?);
    var l := LimitsOf(charBudget, tokenBudget);
    if universe == [] || l.chars == 0 || (l.tokens.Some? && l.tokens.value == 0) {
      return [], Empty, 0, 0, universe, 0;
    }
    selected, mode, usedChars, usedTokens, first :=
      SelectRows(charBudget, tokenBudget, universe, sources, tightFraction);
    TightMeans(charBudget, tokenBudget, universe, tightFraction);
    SelectionIsPart(l, universe, sources, tightFraction);
    LeftOutFor(universe, charBudget, tokenBudget, sources, tightFraction);
    MandatoryGoesFirst(universe, charBudget, tokenBudget, sources, tightFraction);
    SelectionChoosesBest(universe, charBudget, tokenBudget, sources, tightFraction);
  }
}
