/** The facility-location branch of the context selector: a heap of possibly
    stale gain bounds, refined lazily, against plain greedy. */
module LazySelection {
  import opened Wrappers
  import opened Coverage
  import opened Products

  const TOLERANCE: real := 0.000000000001

  /** The character ceiling and, when token aware, the token ceiling. */
  datatype Limits = Limits(chars: nat, tokens: Option<nat>) {
    predicate TokenAware() { tokens.Some? }
    function Active(): nat { if tokens.Some? then tokens.value else chars }
  }

  // ---------------------------------------------------------------- budgets

  function UsedChars(s: seq<Candidate>): nat {
    if s == [] then 0 else UsedChars(s[..|s| - 1]) + s[|s| - 1].charCost
  }

  function UsedTokens(s: seq<Candidate>): nat {
    if s == [] then 0 else UsedTokens(s[..|s| - 1]) + s[|s| - 1].tokenCost
  }

  predicate FitsIn(l: Limits, usedChars: nat, usedTokens: nat, c: Candidate) {
    && usedChars + c.charCost <= l.chars
    && (l.tokens.Some? ==> usedTokens + c.tokenCost <= l.tokens.value)
  }

  predicate Fits(l: Limits, chosen: seq<Candidate>, c: Candidate) {
    FitsIn(l, UsedChars(chosen), UsedTokens(chosen), c)
  }

  predicate WithinBudget(l: Limits, chosen: seq<Candidate>) {
    UsedChars(chosen) <= l.chars && (l.tokens.Some? ==> UsedTokens(chosen) <= l.tokens.value)
  }

  /** What is used is the sum of the costs. */
  lemma {:induction false} UsedStep(s: seq<Candidate>, c: Candidate)
    ensures UsedChars([]) == 0 && UsedTokens([]) == 0
    ensures UsedChars(s + [c]) == UsedChars(s) + c.charCost
    ensures UsedTokens(s + [c]) == UsedTokens(s) + c.tokenCost
  {
    assert (s + [c])[..|s + [c]| - 1] == s;
  }

  // ------------------------------------------------- well-formed candidates

  ghost predicate DistinctKeys(s: seq<Candidate>) {
    forall i, j :: 0 <= i < j < |s| ==> s[i].item.key != s[j].item.key
  }

  ghost predicate PositiveCosts(s: seq<Candidate>) {
    forall c :: c in s ==> c.charCost > 0 && c.tokenCost > 0
  }

  ghost predicate KeysApart(s: set<Candidate>) {
    forall c, d :: c in s && d in s && c.item.key == d.item.key ==> c == d
  }

  ghost function Members(s: seq<Candidate>): set<Candidate> { set c | c in s }

  lemma {:induction false} MembersApart(s: seq<Candidate>)
    requires DistinctKeys(s)
    ensures KeysApart(Members(s))
  {
    forall c, d | c in s && d in s && c.item.key == d.item.key ensures c == d {
      var i :| 0 <= i < |s| && s[i] == c;
      var j :| 0 <= j < |s| && s[j] == d;
      assert i == j;
    }
  }

  // ------------------------------------------------------ eager greedy spec

  /** Marginal gain per unit of active cost. */
  ghost function Ratio(l: Limits, rows: seq<Candidate>, chosen: seq<Candidate>, c: Candidate): real
    requires c.charCost > 0 && c.tokenCost > 0
  {
    Gain(c, rows, CoverageOf(rows, chosen)) / CostOf(c, l.TokenAware()) as real
  }

  ghost predicate Ahead(l: Limits, rows: seq<Candidate>, chosen: seq<Candidate>, c: Candidate, d: Candidate)
    requires c.charCost > 0 && c.tokenCost > 0 && d.charCost > 0 && d.tokenCost > 0
  {
    || Ratio(l, rows, chosen, c) > Ratio(l, rows, chosen, d)
    || (Ratio(l, rows, chosen, c) == Ratio(l, rows, chosen, d) && c.item.key < d.item.key)
  }

  ghost predicate Costly(s: set<Candidate>) {
    forall c :: c in s ==> c.charCost > 0 && c.tokenCost > 0
  }

  /** `c` is the fitting candidate of highest ratio, ties to the smallest key. */
  ghost predicate IsBest(l: Limits, rows: seq<Candidate>, remaining: set<Candidate>,
                         chosen: seq<Candidate>, c: Candidate)
    requires Costly(remaining)
  {
    && c in remaining
    && Fits(l, chosen, c)
    && forall d :: d in remaining && d != c && Fits(l, chosen, d) ==> Ahead(l, rows, chosen, c, d)
  }

  ghost predicate IsWorthyBest(l: Limits, rows: seq<Candidate>, remaining: set<Candidate>,
                               chosen: seq<Candidate>, c: Candidate)
    requires Costly(remaining)
  {
    IsBest(l, rows, remaining, chosen, c) && Gain(c, rows, CoverageOf(rows, chosen)) > 0.0
  }

  /** Plain greedy: every gain is computed afresh at every step; stops when
      nothing fits or the best candidate gains nothing. */
  ghost function EagerGreedy(l: Limits, rows: seq<Candidate>, remaining: set<Candidate>,
                             chosen: seq<Candidate>): seq<Candidate>
    requires Costly(remaining)
    decreases |remaining|
  {
    if c :| IsWorthyBest(l, rows, remaining, chosen, c) then
      [c] + EagerGreedy(l, rows, remaining - {c}, chosen + [c])
    else
      []
  }

  lemma {:induction false} BestIsUnique(l: Limits, rows: seq<Candidate>, remaining: set<Candidate>,
                                        chosen: seq<Candidate>, c: Candidate, d: Candidate)
    requires Costly(remaining) && KeysApart(remaining)
    requires IsBest(l, rows, remaining, chosen, c) && IsBest(l, rows, remaining, chosen, d)
    ensures c == d
  {
  }

  lemma {:induction false} EagerTakes(l: Limits, rows: seq<Candidate>, remaining: set<Candidate>,
                                      chosen: seq<Candidate>, c: Candidate)
    requires Costly(remaining) && KeysApart(remaining)
    requires IsWorthyBest(l, rows, remaining, chosen, c)
    ensures EagerGreedy(l, rows, remaining, chosen)
         == [c] + EagerGreedy(l, rows, remaining - {c}, chosen + [c])
  {
    forall d | IsWorthyBest(l, rows, remaining, chosen, d) ensures d == c {
      BestIsUnique(l, rows, remaining, chosen, c, d);
    }
  }

  // -------------------------------------------------------- the lazy greedy

  datatype Entry = Entry(negBound: real, key: nat, epoch: nat, candidate: Candidate)

  /** Order of heap tuples; keys are unique, so later components never decide. */
  predicate Before(e: Entry, f: Entry) {
    e.negBound < f.negBound || (e.negBound == f.negBound && e.key <= f.key)
  }

  ghost function Stale(heap: set<Entry>, epoch: nat): set<Entry> {
    set e | e in heap && e.epoch != epoch
  }

  /** What stays true of the heap: bounds are upper bounds on the present
      ratios, exact for entries of the present epoch; every candidate that can
      still be taken has one entry. */
  ghost predicate HeapOk(l: Limits, rows: seq<Candidate>, remaining: set<Candidate>,
                         chosen: seq<Candidate>, heap: set<Entry>, epoch: nat)
    requires Costly(remaining)
  {
    && (forall e :: e in heap ==>
          && e.candidate in remaining
          && e.key == e.candidate.item.key
          && e.epoch <= epoch
          && -e.negBound >= Ratio(l, rows, chosen, e.candidate)
          && (e.epoch == epoch ==> -e.negBound == Ratio(l, rows, chosen, e.candidate)))
    && (forall e, f :: e in heap && f in heap && e.candidate == f.candidate ==> e == f)
    && (forall c :: c in remaining && Fits(l, chosen, c) ==> exists e :: e in heap && e.candidate == c)
  }

  lemma {:induction false} MinimumExists(heap: set<Entry>)
    requires heap != {}
    ensures exists e :: e in heap && forall f :: f in heap ==> Before(e, f)
  {
    var e :| e in heap;
    if heap - {e} != {} {
      MinimumExists(heap - {e});
      var m :| m in heap - {e} && forall f :: f in heap - {e} ==> Before(m, f);
      if Before(e, m) {
        assert forall f :: f in heap ==> f == e || f in heap - {e};
        assert forall f :: f in heap ==> Before(e, f);
      } else {
        assert forall f :: f in heap ==> f == e || f in heap - {e};
        assert forall f :: f in heap ==> Before(m, f);
      }
    } else {
      assert forall f :: f in heap ==> f == e || f in heap - {e};
      assert forall f :: f in heap ==> Before(e, f);
    }
  }

  /** `heapq.heappop`. */
  method HeapPop(heap: set<Entry>) returns (e: Entry, rest: set<Entry>)
    requires heap != {}
    ensures e in heap && rest == heap - {e}
    ensures forall f :: f in heap ==> Before(e, f)
  {
    MinimumExists(heap);
    e :| e in heap && forall f :: f in heap ==> Before(e, f);
    rest := heap - {e};
  }

  /** A popped entry of the present epoch is the eager choice. */
  lemma {:induction false} FreshTopIsBest(l: Limits, rows: seq<Candidate>, remaining: set<Candidate>,
                                          chosen: seq<Candidate>, heap: set<Entry>, epoch: nat, e: Entry)
    requires Costly(remaining) && KeysApart(remaining)
    requires HeapOk(l, rows, remaining, chosen, heap, epoch)
    requires e in heap && (forall f :: f in heap ==> Before(e, f))
    requires e.epoch == epoch && Fits(l, chosen, e.candidate)
    ensures IsBest(l, rows, remaining, chosen, e.candidate)
  {
    forall d | d in remaining && d != e.candidate && Fits(l, chosen, d)
      ensures Ahead(l, rows, chosen, e.candidate, d)
    {
      var f :| f in heap && f.candidate == d;
      assert Before(e, f);
      assert d.item.key != e.candidate.item.key;
    }
  }

  /** Re-pushing a stale entry with its present ratio keeps the heap in order. */
  lemma {:induction false} RefreshKeepsHeap(l: Limits, rows: seq<Candidate>, remaining: set<Candidate>,
                                            chosen: seq<Candidate>, heap: set<Entry>, epoch: nat, e: Entry, e': Entry)
    requires Costly(remaining)
    requires HeapOk(l, rows, remaining, chosen, heap, epoch)
    requires e in heap && e.epoch != epoch
    requires e' == Entry(-Ratio(l, rows, chosen, e.candidate), e.candidate.item.key, epoch, e.candidate)
    ensures HeapOk(l, rows, remaining, chosen, heap - {e} + {e'}, epoch)
    ensures |heap - {e} + {e'}| == |heap|
    ensures |Stale(heap - {e} + {e'}, epoch)| < |Stale(heap, epoch)|
  {
    var heap' := heap - {e} + {e'};
    assert e' !in heap - {e};
    forall c | c in remaining && Fits(l, chosen, c) ensures exists f :: f in heap' && f.candidate == c {
      var f :| f in heap && f.candidate == c;
      if f == e { assert e' in heap'; } else { assert f in heap'; }
    }
    assert Stale(heap', epoch) == Stale(heap, epoch) - {e};
  }

  /** Dropping an entry that does not fit loses nothing. */
  lemma {:induction false} DropKeepsHeap(l: Limits, rows: seq<Candidate>, remaining: set<Candidate>,
                                         chosen: seq<Candidate>, heap: set<Entry>, epoch: nat, e: Entry)
    requires Costly(remaining)
    requires HeapOk(l, rows, remaining, chosen, heap, epoch)
    requires e in heap && !Fits(l, chosen, e.candidate)
    ensures HeapOk(l, rows, remaining, chosen, heap - {e}, epoch)
  {
    forall c | c in remaining && Fits(l, chosen, c) ensures exists f :: f in heap - {e} && f.candidate == c {
      var f :| f in heap && f.candidate == c;
      assert f in heap - {e};
    }
  }

  lemma {:induction false} RatioShrinks(l: Limits, rows: seq<Candidate>, chosen: seq<Candidate>,
                                        chosen': seq<Candidate>, c: Candidate)
    requires c.charCost > 0 && c.tokenCost > 0
    requires Below(CoverageOf(rows, chosen), CoverageOf(rows, chosen'))
    ensures Ratio(l, rows, chosen', c) <= Ratio(l, rows, chosen, c)
  {
    GainShrinks(c, rows, CoverageOf(rows, chosen), CoverageOf(rows, chosen'), |rows|);
    DivideMonotone(Gain(c, rows, CoverageOf(rows, chosen')), Gain(c, rows, CoverageOf(rows, chosen)),
                   CostOf(c, l.TokenAware()) as real);
  }

  /** Taking a candidate: old bounds stay upper bounds by submodularity, and
      what does not fit now will not fit later. */
  lemma {:induction false} TakeKeepsHeap(l: Limits, rows: seq<Candidate>, remaining: set<Candidate>,
                                         chosen: seq<Candidate>, heap: set<Entry>, epoch: nat, e: Entry)
    requires Costly(remaining) && KeysApart(remaining)
    requires HeapOk(l, rows, remaining, chosen, heap, epoch)
    requires e in heap
    ensures HeapOk(l, rows, remaining - {e.candidate}, chosen + [e.candidate], heap - {e}, epoch + 1)
  {
    var c0 := e.candidate;
    var chosen' := chosen + [c0];
    UsedStep(chosen, c0);
    CoverageGrows(rows, chosen, chosen');
    forall f | f in heap - {e}
      ensures -f.negBound >= Ratio(l, rows, chosen', f.candidate)
    {
      RatioShrinks(l, rows, chosen, chosen', f.candidate);
    }
    forall c | c in remaining - {c0} && Fits(l, chosen', c)
      ensures exists f :: f in heap - {e} && f.candidate == c
    {
      var f :| f in heap && f.candidate == c;
      assert f in heap - {e};
    }
  }

  /** `_gain`. */
  method ComputeGain(c: Candidate, rows: seq<Candidate>, coverage: array<real>) returns (gain: real)
    requires coverage.Length == |rows|
    ensures gain == Gain(c, rows, coverage[..])
  {
    gain := 0.0;
    for i := 0 to |rows|
      invariant gain == GainUpTo(c, rows, coverage[..], i)
    {
      var represented := Weight(rows[i], c);
      if represented > coverage[i] {
        gain := gain + (represented - coverage[i]);
      }
    }
  }

  /** `_apply`. */
  method Apply(c: Candidate, rows: seq<Candidate>, coverage: array<real>)
    requires coverage.Length == |rows|
    modifies coverage
    ensures coverage[..] == Applied(c, rows, old(coverage[..]))
  {
    for i := 0 to |rows|
      invariant forall k :: 0 <= k < i ==> coverage[k] == Applied(c, rows, old(coverage[..]))[k]
      invariant forall k :: i <= k < |rows| ==> coverage[k] == old(coverage[k])
    {
      var represented := Weight(rows[i], c);
      if represented > coverage[i] {
        coverage[i] := represented;
      }
    }
  }

  /** The coverage list before the loop: zeros, then `_apply` per mandatory choice. */
  method LoadCoverage(rows: seq<Candidate>, start: seq<Candidate>) returns (coverage: array<real>)
    ensures fresh(coverage) && coverage.Length == |rows|
    ensures coverage[..] == CoverageOf(rows, start)
  {
    coverage := new real[|rows|](_ => 0.0);
    for i := 0 to |start|
      invariant coverage[..] == CoverageOf(rows, start[..i])
    {
      Apply(start[i], rows, coverage);
      CoverageStep(rows, start[..i], start[i]);
      assert start[..i + 1] == start[..i] + [start[i]];
    }
    assert start[..|start|] == start;
  }

  lemma {:induction false} PushKeepsHeap(l: Limits, rows: seq<Candidate>, remaining: set<Candidate>,
                                         chosen: seq<Candidate>,
                                         heap: set<Entry>, e: Entry)
    requires e.candidate.charCost > 0 && e.candidate.tokenCost > 0
    requires Costly(remaining) && HeapOk(l, rows, remaining, chosen, heap, 0)
    requires e.candidate !in remaining
    requires e == Entry(-Ratio(l, rows, chosen, e.candidate), e.candidate.item.key, 0, e.candidate)
    ensures HeapOk(l, rows, remaining + {e.candidate}, chosen, heap + {e}, 0)
  {
    forall c | c in remaining + {e.candidate} && Fits(l, chosen, c)
      ensures exists f :: f in heap + {e} && f.candidate == c
    {
      if c == e.candidate {
        assert e in heap + {e};
      } else {
        var f :| f in heap && f.candidate == c;
        assert f in heap + {e};
      }
    }
  }

  /** The heap before the loop: one exact entry per remaining row. */
  method LoadHeap(l: Limits, rows: seq<Candidate>, start: seq<Candidate>, remainingRows: seq<Candidate>,
                  coverage: array<real>)
    returns (heap: set<Entry>)
    requires PositiveCosts(remainingRows) && DistinctKeys(remainingRows)
    requires coverage.Length == |rows| && coverage[..] == CoverageOf(rows, start)
    ensures HeapOk(l, rows, Members(remainingRows), start, heap, 0)
  {
    heap := {};
    for i := 0 to |remainingRows|
      invariant HeapOk(l, rows, Members(remainingRows[..i]), start, heap, 0)
    {
      var c := remainingRows[i];
      var gain := ComputeGain(c, rows, coverage);
      var entry := Entry(-(gain / CostOf(c, l.TokenAware()) as real), c.item.key, 0, c);
      assert Members(remainingRows[..i + 1]) == Members(remainingRows[..i]) + {c};
      assert c !in remainingRows[..i];
      PushKeepsHeap(l, rows, Members(remainingRows[..i]), start, heap, entry);
      heap := heap + {entry};
    }
    assert remainingRows[..|remainingRows|] == remainingRows;
  }

  /** The loop invariant: the heap is in order, and what is chosen so far followed
      by the rest of the eager run is the whole eager run. */
  ghost predicate Loop(l: Limits, rows: seq<Candidate>, remaining: set<Candidate>, chosen: seq<Candidate>,
                       heap: set<Entry>, epoch: nat, whole: seq<Candidate>)
  {
    && Costly(remaining) && KeysApart(remaining)
    && HeapOk(l, rows, remaining, chosen, heap, epoch)
    && whole == chosen + EagerGreedy(l, rows, remaining, chosen)
  }

  lemma {:induction false} PositiveRatio(a: real, d: real)
    requires d > 0.0
    ensures a / d > 0.0 <==> a > 0.0
  {
    assert a == (a / d) * d;
  }

  lemma {:induction false} EagerAdvances(l: Limits, rows: seq<Candidate>, remaining: set<Candidate>,
                                         chosen: seq<Candidate>, c: Candidate)
    requires Costly(remaining) && KeysApart(remaining)
    requires IsBest(l, rows, remaining, chosen, c) && Ratio(l, rows, chosen, c) > 0.0
    ensures chosen + EagerGreedy(l, rows, remaining, chosen)
         == (chosen + [c]) + EagerGreedy(l, rows, remaining - {c}, chosen + [c])
  {
    PositiveRatio(Gain(c, rows, CoverageOf(rows, chosen)), CostOf(c, l.TokenAware()) as real);
    EagerTakes(l, rows, remaining, chosen, c);
  }

  /** One iteration that takes `e.candidate` is one step of eager greedy. */
  lemma {:induction false} TakeStep(l: Limits, rows: seq<Candidate>, remaining: set<Candidate>, chosen: seq<Candidate>,
                                    heap: set<Entry>, epoch: nat, whole: seq<Candidate>, e: Entry)
    requires Loop(l, rows, remaining, chosen, heap, epoch, whole)
    requires e in heap && (forall f :: f in heap ==> Before(e, f))
    requires e.epoch == epoch && Fits(l, chosen, e.candidate) && Ratio(l, rows, chosen, e.candidate) > 0.0
    ensures Loop(l, rows, remaining - {e.candidate}, chosen + [e.candidate], heap - {e}, epoch + 1, whole)
    ensures |heap - {e}| < |heap|
    ensures UsedChars(chosen + [e.candidate]) == UsedChars(chosen) + e.candidate.charCost
    ensures UsedTokens(chosen + [e.candidate]) == UsedTokens(chosen) + e.candidate.tokenCost
    ensures CoverageOf(rows, chosen + [e.candidate]) == Applied(e.candidate, rows, CoverageOf(rows, chosen))
  {
    UsedStep(chosen, e.candidate);
    CoverageStep(rows, chosen, e.candidate);
    FreshTopIsBest(l, rows, remaining, chosen, heap, epoch, e);
    EagerAdvances(l, rows, remaining, chosen, e.candidate);
    TakeKeepsHeap(l, rows, remaining, chosen, heap, epoch, e);
  }

  lemma {:induction false} DropStep(l: Limits, rows: seq<Candidate>, remaining: set<Candidate>, chosen: seq<Candidate>,
                                    heap: set<Entry>, epoch: nat, whole: seq<Candidate>, e: Entry)
    requires Loop(l, rows, remaining, chosen, heap, epoch, whole)
    requires e in heap && !Fits(l, chosen, e.candidate)
    ensures Loop(l, rows, remaining, chosen, heap - {e}, epoch, whole) && |heap - {e}| < |heap|
  {
    DropKeepsHeap(l, rows, remaining, chosen, heap, epoch, e);
  }

  lemma {:induction false} RefreshStep(l: Limits, rows: seq<Candidate>, remaining: set<Candidate>,
                                       chosen: seq<Candidate>, heap: set<Entry>, epoch: nat,
                                       whole: seq<Candidate>, e: Entry, e': Entry)
    requires Loop(l, rows, remaining, chosen, heap, epoch, whole)
    requires e in heap && e.epoch != epoch
    requires e' == Entry(-Ratio(l, rows, chosen, e.candidate), e.candidate.item.key, epoch, e.candidate)
    ensures Loop(l, rows, remaining, chosen, heap - {e} + {e'}, epoch, whole)
    ensures |heap - {e} + {e'}| == |heap|
    ensures |Stale(heap - {e} + {e'}, epoch)| < |Stale(heap, epoch)|
  {
    RefreshKeepsHeap(l, rows, remaining, chosen, heap, epoch, e, e');
  }

  /** When the fresh best candidate gains nothing, eager greedy is done. */
  lemma {:induction false} StopStep(l: Limits, rows: seq<Candidate>, remaining: set<Candidate>, chosen: seq<Candidate>,
                                    heap: set<Entry>, epoch: nat, whole: seq<Candidate>, e: Entry)
    requires Loop(l, rows, remaining, chosen, heap, epoch, whole)
    requires e in heap && (forall f :: f in heap ==> Before(e, f))
    requires e.epoch == epoch && Fits(l, chosen, e.candidate) && Ratio(l, rows, chosen, e.candidate) <= 0.0
    ensures whole == chosen
  {
    FreshTopIsBest(l, rows, remaining, chosen, heap, epoch, e);
    forall d | d in remaining ensures !IsWorthyBest(l, rows, remaining, chosen, d) {
      PositiveRatio(Gain(d, rows, CoverageOf(rows, chosen)), CostOf(d, l.TokenAware()) as real);
    }
  }

  /** With the heap empty nothing fits, so eager greedy is done. */
  lemma {:induction false} EmptyStep(l: Limits, rows: seq<Candidate>, remaining: set<Candidate>, chosen: seq<Candidate>,
                                     epoch: nat, whole: seq<Candidate>)
    requires Loop(l, rows, remaining, chosen, {}, epoch, whole)
    ensures whole == chosen
  {
  }

  /** The current gain per unit of cost. */
  method ComputeRatio(l: Limits, c: Candidate, rows: seq<Candidate>, coverage: array<real>,
                      ghost chosen: seq<Candidate>)
    returns (ratio: real)
    requires c.charCost > 0 && c.tokenCost > 0 && coverage[..] == CoverageOf(rows, chosen)
    ensures ratio == Ratio(l, rows, chosen, c)
  {
    var gain := ComputeGain(c, rows, coverage);
    ratio := gain / CostOf(c, l.TokenAware()) as real;
  }

  /** The bound is not of this epoch, or not the ratio just computed. */
  predicate Outdated(e: Entry, epoch: nat, current: real) {
    e.epoch != epoch || current + e.negBound > TOLERANCE || -(current + e.negBound) > TOLERANCE
  }

  /** The variables of the loop: what is chosen, its running totals, the heap. */
  datatype Search = Search(chosen: seq<Candidate>, chars: nat, tokens: nat, heap: set<Entry>, epoch: nat)

  ghost predicate Running(l: Limits, rows: seq<Candidate>, remaining: set<Candidate>, s: Search,
                          coverage: seq<real>, whole: seq<Candidate>)
  {
    && coverage == CoverageOf(rows, s.chosen)
    && s.chars == UsedChars(s.chosen) && s.tokens == UsedTokens(s.chosen)
    && Loop(l, rows, remaining, s.chosen, s.heap, s.epoch, whole)
  }

  /** One turn of the loop: drop an entry that no longer fits, refresh one whose
      bound is outdated, stop at one that gains nothing, or take it. */
  method Turn(l: Limits, rows: seq<Candidate>, coverage: array<real>, s: Search,
              ghost remaining: set<Candidate>, ghost whole: seq<Candidate>)
    returns (s': Search, stop: bool, ghost left: set<Candidate>)
    requires Running(l, rows, remaining, s, coverage[..], whole) && s.heap != {}
    modifies coverage
    ensures if stop then s' == s && whole == s.chosen else Running(l, rows, left, s', coverage[..], whole)
    ensures (!stop ==> |s'.heap| < |s.heap|
                       || (|s'.heap| == |s.heap| && |Stale(s'.heap, s'.epoch)| < |Stale(s.heap, s.epoch)|))
  {
    var e, rest := HeapPop(s.heap);
    var c := e.candidate;
    stop, left, s' := false, remaining, s;
    if !FitsIn(l, s.chars, s.tokens, c) {
      DropStep(l, rows, remaining, s.chosen, s.heap, s.epoch, whole, e);
      s' := s.(heap := rest);
    } else {
      var current := ComputeRatio(l, c, rows, coverage, s.chosen);
      if Outdated(e, s.epoch, current) {
        var e' := Entry(-current, c.item.key, s.epoch, c);
        RefreshStep(l, rows, remaining, s.chosen, s.heap, s.epoch, whole, e, e');
        s' := s.(heap := rest + {e'});
      } else if current <= 0.0 {
        StopStep(l, rows, remaining, s.chosen, s.heap, s.epoch, whole, e);
        stop := true;
      } else {
        TakeStep(l, rows, remaining, s.chosen, s.heap, s.epoch, whole, e);
        Apply(c, rows, coverage);
        left := remaining - {c};
        s' := Search(s.chosen + [c], s.chars + c.charCost, s.tokens + c.tokenCost, rest, s.epoch + 1);
      }
    }
  }

  /** The facility-location branch of `select_context` yields exactly the eager
      greedy sequence. Every iteration empties the heap or freshens an entry. */
  method LazyGreedy(l: Limits, rows: seq<Candidate>, start: seq<Candidate>, remainingRows: seq<Candidate>,
                    startChars: nat, startTokens: nat)
    returns (selected: seq<Candidate>, usedChars: nat, usedTokens: nat)
    requires DistinctKeys(remainingRows) && PositiveCosts(remainingRows)
    requires startChars == UsedChars(start) && startTokens == UsedTokens(start)
    ensures usedChars == UsedChars(selected) && usedTokens == UsedTokens(selected)
    ensures selected == start + EagerGreedy(l, rows, Members(remainingRows), start)
  {
    MembersApart(remainingRows);
    var coverage := LoadCoverage(rows, start);
    var heap := LoadHeap(l, rows, start, remainingRows, coverage);
    var s := Search(start, startChars, startTokens, heap, 0);
    ghost var remaining := Members(remainingRows);
    ghost var whole := start + EagerGreedy(l, rows, remaining, start);
    var stop := false;
    while s.heap != {} && !stop
      invariant if stop then whole == s.chosen else Running(l, rows, remaining, s, coverage[..], whole)
      invariant s.chars == UsedChars(s.chosen) && s.tokens == UsedTokens(s.chosen)
      decreases !stop, |s.heap|, |Stale(s.heap, s.epoch)|
    {
      s, stop, remaining := Turn(l, rows, coverage, s, remaining, whole);
    }
    if !stop { EmptyStep(l, rows, remaining, s.chosen, s.epoch, whole); }
    selected, usedChars, usedTokens := s.chosen, s.chars, s.tokens;
  }
}
