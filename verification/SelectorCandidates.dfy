/** Building and bounding the candidate rows of the context selector. */
module SelectorCandidates {
  import opened Orders
  import opened Coverage
  import opened Products
  import opened LazySelection

  // ------------------------------------------------ building the candidates

  /** `_dedupe`: the first item of every key, in order. */
  function Deduped(items: seq<Item>): seq<Item> {
    if items == [] then []
    else
      var front := Deduped(items[..|items| - 1]);
      var last := items[|items| - 1];
      if exists it :: it in front && it.key == last.key then front else front + [last]
  }

  /** No earlier item has the key of item `i`. */
  predicate IsFirst(items: seq<Item>, i: nat)
    requires i < |items|
  {
    forall k :: 0 <= k < i ==> items[k].key != items[i].key
  }

  /** `out` holds the items at the positions `at`: the first item of every key and
      no other, in input order. */
  ghost predicate KeepsFirsts(items: seq<Item>, out: seq<Item>, at: seq<nat>) {
    && |at| == |out|
    && (forall j :: 0 <= j < |at| ==> at[j] < |items| && out[j] == items[at[j]])
    && (forall j, k :: 0 <= j < k < |at| ==> at[j] < at[k])
    && (forall i :: 0 <= i < |items| ==> (i in at <==> IsFirst(items, i)))
  }

  function ItemKeys(items: seq<Item>): set<nat> { set it | it in items :: it.key }

  lemma {:induction false} AddFirst(front: seq<Item>, last: Item, out: seq<Item>, at: seq<nat>)
    requires KeepsFirsts(front, out, at) && IsFirst(front + [last], |front|)
    requires forall i: nat :: i < |front| ==> (IsFirst(front + [last], i) <==> IsFirst(front, i))
    ensures KeepsFirsts(front + [last], out + [last], at + [|front|])
  {
    var longer, items := at + [|front|], front + [last];
    forall j | 0 <= j < |longer| ensures longer[j] < |items| && (out + [last])[j] == items[longer[j]] {
      assert j < |at| ==> longer[j] == at[j];
    }
    forall i | 0 <= i < |items| ensures i in longer <==> IsFirst(items, i) {
      assert i in longer <==> i in at || i == |front|;
      assert i == |front| ==> items[i] == last;
    }
  }

  lemma {:induction false} FirstStays(front: seq<Item>, last: Item, i: nat)
    requires i < |front|
    ensures IsFirst(front + [last], i) <==> IsFirst(front, i)
  {
    assert forall k :: 0 <= k <= i ==> (front + [last])[k] == front[k];
  }

  lemma {:induction false} LastIsFirst(front: seq<Item>, last: Item)
    ensures IsFirst(front + [last], |front|) <==> last.key !in ItemKeys(front)
  {
    assert forall k :: 0 <= k < |front| ==> (front + [last])[k] == front[k] && front[k] in front;
    if last.key in ItemKeys(front) {
      var it :| it in front && it.key == last.key;
      var k :| 0 <= k < |front| && front[k] == it;
      assert (front + [last])[k].key == last.key;
    }
  }

  lemma {:induction false} FirstsStep(front: seq<Item>, last: Item, out: seq<Item>, at: seq<nat>)
    returns (longer: seq<nat>)
    requires KeepsFirsts(front, out, at)
    ensures KeepsFirsts(front + [last], if last.key in ItemKeys(front) then out else out + [last], longer)
  {
    LastIsFirst(front, last);
    forall i: nat | i < |front| ensures IsFirst(front + [last], i) <==> IsFirst(front, i) {
      FirstStays(front, last, i);
    }
    if last.key in ItemKeys(front) {
      longer := at;
    } else {
      longer := at + [|front|];
      AddFirst(front, last, out, at);
    }
  }

  /** Deduplication keeps one item per key, and no other. */
  lemma {:induction false} DedupedKeys(items: seq<Item>)
    ensures forall i, j :: 0 <= i < j < |Deduped(items)| ==> Deduped(items)[i].key != Deduped(items)[j].key
    ensures ItemKeys(Deduped(items)) == ItemKeys(items)
    ensures forall it :: it in Deduped(items) ==> it in items
  {
    if items != [] {
      var front, last := items[..|items| - 1], items[|items| - 1];
      DedupedKeys(front);
      assert items == front + [last];
      assert ItemKeys(items) == ItemKeys(front) + {last.key};
      assert ItemKeys(Deduped(front) + [last]) == ItemKeys(Deduped(front)) + {last.key};
    }
  }

  /** Deduplication has met a key exactly when some item had it. */
  lemma {:induction false} SeenBefore(front: seq<Item>, last: Item)
    ensures (exists it :: it in Deduped(front) && it.key == last.key) <==> last.key in ItemKeys(front)
  {
    DedupedKeys(front);
    assert last.key in ItemKeys(front) <==> last.key in ItemKeys(Deduped(front));
  }

  /** Deduplication keeps the first item of every key and no other, in input order. */
  lemma {:induction false} DedupedKeepsFirsts(items: seq<Item>) returns (at: seq<nat>)
    ensures KeepsFirsts(items, Deduped(items), at)
  {
    at := [];
    if items != [] {
      var n := |items| - 1;
      at := DedupedKeepsFirsts(items[..n]);
      SeenBefore(items[..n], items[n]);
      assert items == items[..n] + [items[n]];
      at := FirstsStep(items[..n], items[n], Deduped(items[..n]), at);
    }
  }

  method Dedupe(items: seq<Item>) returns (out: seq<Item>)
    ensures out == Deduped(items)
  {
    out := [];
    var seen: set<nat> := {};
    for i := 0 to |items|
      invariant out == Deduped(items[..i])
      invariant seen == set it | it in out :: it.key
    {
      assert items[..i + 1][..i] == items[..i];
      if items[i].key !in seen {
        seen := seen + {items[i].key};
        out := out + [items[i]];
      }
    }
    assert items[..|items|] == items;
  }

  function MaxScore(items: seq<Item>): (m: real)
    ensures m >= 0.0
    ensures forall it :: it in items ==> it.score <= m
    ensures m == 0.0 || exists it :: it in items && it.score == m
  {
    if items == [] then 0.0
    else
      var front, last := MaxScore(items[..|items| - 1]), items[|items| - 1].score;
      assert items == items[..|items| - 1] + [items[|items| - 1]];
      if last > front then last else front
  }

  /** `max(...) or 1.0`. */
  function ScoreScale(items: seq<Item>): (m: real)
    ensures m > 0.0
    ensures forall it :: it in items ==> it.score <= m
    ensures (exists it :: it in items && it.score == m) || (m == 1.0 && forall it :: it in items ==> it.score <= 0.0)
  {
    if MaxScore(items) == 0.0 then 1.0 else MaxScore(items)
  }

  function RelevanceOf(query: set<string>, it: Item, scale: real): real
    requires scale > 0.0
  {
    var source := (if it.score > 0.0 then it.score else 0.0) / scale;
    var mixed := 0.65 * source + 0.35 * Jaccard(query, it.tokens);
    if mixed < 1.0 then mixed else 1.0
  }

  function ToCandidate(query: set<string>, it: Item, scale: real): Candidate
    requires scale > 0.0
  {
    Candidate(it, RelevanceOf(query, it, scale), it.tokens,
              if it.chars > 1 then it.chars else 1,
              if it.tokenEstimate > 1 then it.tokenEstimate else 1)
  }

  function CandidateRows(query: set<string>, items: seq<Item>): (rows: seq<Candidate>)
    ensures |rows| == |Deduped(items)|
  {
    var unique := Deduped(items);
    seq(|unique|, i requires 0 <= i < |unique| => ToCandidate(query, unique[i], ScoreScale(unique)))
  }

  /** `_candidates`. */
  method BuildCandidates(query: set<string>, items: seq<Item>) returns (rows: seq<Candidate>)
    ensures rows == CandidateRows(query, items)
  {
    var unique := Dedupe(items);
    rows := [];
    for i := 0 to |unique|
      invariant rows == CandidateRows(query, items)[..i]
    {
      rows := rows + [ToCandidate(query, unique[i], ScoreScale(unique))];
    }
  }

  lemma {:induction false} RelevanceInUnit(query: set<string>, it: Item, scale: real)
    requires scale > 0.0
    ensures 0.0 <= RelevanceOf(query, it, scale) <= 1.0
  {
    DivideMonotone(0.0, if it.score > 0.0 then it.score else 0.0, scale);
  }

  lemma {:induction false} CandidateRowsAreSound(query: set<string>, items: seq<Item>)
    ensures DistinctKeys(CandidateRows(query, items)) && PositiveCosts(CandidateRows(query, items))
    ensures forall c :: c in CandidateRows(query, items) ==> 0.0 <= c.relevance <= 1.0
  {
    DedupedKeys(items);
    forall c | c in CandidateRows(query, items) ensures 0.0 <= c.relevance <= 1.0 {
      var unique := Deduped(items);
      var i :| 0 <= i < |unique| && CandidateRows(query, items)[i] == c;
      RelevanceInUnit(query, unique[i], ScoreScale(unique));
    }
  }

  /** What a relevance is made of: 65 parts of the score against the scale and 35 parts of the
      similarity, cut at 1; a score below 0 counts as 0. */
  lemma {:induction false} RelevanceMeans(query: set<string>, it: Item, scale: real) returns (part: real)
    requires scale > 0.0
    ensures part * scale == if it.score <= 0.0 then 0.0 else it.score
    ensures var mixed := 0.65 * part + 0.35 * Jaccard(query, it.tokens);
      RelevanceOf(query, it, scale) == if mixed > 1.0 then 1.0 else mixed
  {
    part := (if it.score > 0.0 then it.score else 0.0) / scale;
  }

  /** What a row is, on the fields of its item: costs of at least 1, and the relevance against
      the best score, or against 1 when no score is positive. */
  lemma {:induction false} RowMeans(query: set<string>, items: seq<Item>, i: nat) returns (best: real, part: real)
    requires i < |Deduped(items)|
    ensures forall it :: it in Deduped(items) ==> it.score <= best
    ensures best > 0.0
    ensures || (exists it :: it in Deduped(items) && it.score == best)
            || (best == 1.0 && forall it :: it in Deduped(items) ==> it.score <= 0.0)
    ensures var c, it := CandidateRows(query, items)[i], Deduped(items)[i];
      var mixed := 0.65 * part + 0.35 * Jaccard(query, it.tokens);
      && c.item == it && c.tokens == it.tokens
      && c.charCost == (if it.chars == 0 then 1 else it.chars)
      && c.tokenCost == (if it.tokenEstimate < 1 then 1 else it.tokenEstimate)
      && part * best == (if it.score <= 0.0 then 0.0 else it.score)
      && c.relevance == if mixed > 1.0 then 1.0 else mixed
  {
    best := ScoreScale(Deduped(items));
    part := RelevanceMeans(query, Deduped(items)[i], best);
    assert CandidateRows(query, items)[i] == ToCandidate(query, Deduped(items)[i], best);
  }

  // ------------------------------------------------------ bounding the rows

  function Filter(s: seq<Candidate>, keep: Candidate -> bool): seq<Candidate> {
    if s == [] then []
    else
      var front := Filter(s[..|s| - 1], keep);
      if keep(s[|s| - 1]) then front + [s[|s| - 1]] else front
  }

  function FromSources(sources: set<string>): Candidate -> bool {
    (c: Candidate) => c.item.source in sources
  }

  function KeyOutside(keys: set<nat>): Candidate -> bool {
    (c: Candidate) => c.item.key !in keys
  }

  function Keys(s: seq<Candidate>): set<nat> { set c | c in s :: c.item.key }

  /** The sort key (-relevance, active cost, source, dedupe key). */
  predicate RanksBefore(tokenAware: bool, a: Candidate, b: Candidate) {
    if a.relevance != b.relevance then a.relevance > b.relevance
    else if CostOf(a, tokenAware) != CostOf(b, tokenAware) then CostOf(a, tokenAware) < CostOf(b, tokenAware)
    else if a.item.source != b.item.source then LexLeq(a.item.source, b.item.source)
    else a.item.key <= b.item.key
  }

  function Ranking(tokenAware: bool): (Candidate, Candidate) -> bool {
    (a: Candidate, b: Candidate) => RanksBefore(tokenAware, a, b)
  }

  /** The first `room` of the rows whose keys are not mandatory, best first. */
  function BestOptional(rows: seq<Candidate>, mandatory: seq<Candidate>, room: nat, tokenAware: bool): seq<Candidate> {
    var ranked := Sort(Filter(rows, KeyOutside(Keys(mandatory))), Ranking(tokenAware));
    if room < |ranked| then ranked[..room] else ranked
  }

  /** `_bounded`. */
  function Bounded(rows: seq<Candidate>, limit: nat, sources: set<string>, tokenAware: bool): seq<Candidate> {
    if |rows| <= limit then rows
    else
      var mandatory := Filter(rows, FromSources(sources));
      mandatory + BestOptional(rows, mandatory, if limit > |mandatory| then limit - |mandatory| else 0, tokenAware)
  }

  lemma {:induction false} RankingIsTotal(tokenAware: bool)
    ensures TotalPreorder(Ranking(tokenAware))
  {
    forall a: Candidate, b: Candidate ensures Ranking(tokenAware)(a, b) || Ranking(tokenAware)(b, a) {
      LexTotal(a.item.source, b.item.source);
    }
    forall a: Candidate, b: Candidate, c: Candidate
      | Ranking(tokenAware)(a, b) && Ranking(tokenAware)(b, c)
      ensures Ranking(tokenAware)(a, c)
    {
      LexTotal(a.item.source, b.item.source);
      if LexLeq(a.item.source, b.item.source) && LexLeq(b.item.source, c.item.source) {
        LexTransitive(a.item.source, b.item.source, c.item.source);
      }
    }
  }

  lemma {:induction false} FilterMembers(s: seq<Candidate>, keep: Candidate -> bool)
    ensures forall c :: c in Filter(s, keep) <==> c in s && keep(c)
    ensures multiset(Filter(s, keep)) <= multiset(s)
  {
    if s != [] {
      FilterMembers(s[..|s| - 1], keep);
      assert s == s[..|s| - 1] + [s[|s| - 1]];
    }
  }

  /** Distinct keys in terms of counts, which sorting and slicing respect. */
  lemma {:induction false} DistinctByCount(s: seq<Candidate>)
    ensures DistinctKeys(s) <==> KeysApart(Members(s)) && forall c :: multiset(s)[c] <= 1
  {
    if s != [] {
      var front, last := s[..|s| - 1], s[|s| - 1];
      DistinctByCount(front);
      assert s == front + [last];
      assert multiset(s) == multiset(front) + multiset{last};
      if DistinctKeys(s) {
        assert last !in front;
        MembersApart(s);
      }
      if KeysApart(Members(s)) && forall c :: multiset(s)[c] <= 1 {
        assert multiset(s)[last] <= 1;
        assert forall c :: multiset(front)[c] <= multiset(s)[c];
        assert KeysApart(Members(front));
        forall i | 0 <= i < |front| ensures front[i].item.key != last.item.key {
          assert front[i] in front && front[i] in Members(s) && last in Members(s);
        }
      }
    }
  }

  lemma {:induction false} SubDistinct(t: seq<Candidate>, s: seq<Candidate>)
    requires DistinctKeys(s) && multiset(t) <= multiset(s)
    ensures DistinctKeys(t)
  {
    DistinctByCount(s);
    DistinctByCount(t);
    forall c | c in t ensures c in s { assert c in multiset(t); }
    forall c ensures multiset(t)[c] <= 1 { assert multiset(t)[c] <= multiset(s)[c]; }
  }

  /** The optional rows are the rows from other sources. */
  lemma {:induction false} OptionalRows(rows: seq<Candidate>, sources: set<string>)
    requires DistinctKeys(rows)
    ensures var mandatory := Filter(rows, FromSources(sources));
      forall c :: c in Filter(rows, KeyOutside(Keys(mandatory))) <==> c in rows && c.item.source !in sources
  {
    var mandatory := Filter(rows, FromSources(sources));
    FilterMembers(rows, FromSources(sources));
    FilterMembers(rows, KeyOutside(Keys(mandatory)));
    MembersApart(rows);
    forall c | c in rows && c.item.source !in sources ensures c.item.key !in Keys(mandatory) {
      forall d | d in mandatory ensures d.item.key != c.item.key {
        assert d in Members(rows) && c in Members(rows);
      }
    }
  }

  lemma {:induction false} CutCounts(mandatory: seq<Candidate>, optional: seq<Candidate>, head: seq<Candidate>,
                                     rows: seq<Candidate>)
    requires multiset(mandatory) <= multiset(rows) && multiset(optional) <= multiset(rows)
    requires multiset(head) <= multiset(optional)
    requires forall c :: c in mandatory ==> c !in optional
    ensures multiset(mandatory + head) <= multiset(rows)
  {
    forall c ensures multiset(mandatory + head)[c] <= multiset(rows)[c] {
      assert multiset(mandatory + head)[c] == multiset(mandatory)[c] + multiset(head)[c];
      assert multiset(head)[c] <= multiset(optional)[c] <= multiset(rows)[c];
      assert c in mandatory <==> c in multiset(mandatory);
      assert c in optional <==> c in multiset(optional);
    }
  }

  lemma {:induction false} PrefixCounts(s: seq<Candidate>, k: nat)
    requires k <= |s|
    ensures multiset(s[..k]) <= multiset(s)
  {
    assert s == s[..k] + s[k..];
  }

  lemma {:induction false} BestOptionalIsPart(rows: seq<Candidate>, mandatory: seq<Candidate>, room: nat,
                                              tokenAware: bool)
    ensures multiset(BestOptional(rows, mandatory, room, tokenAware))
         <= multiset(Filter(rows, KeyOutside(Keys(mandatory))))
    ensures |BestOptional(rows, mandatory, room, tokenAware)| <= room
  {
    var optional := Filter(rows, KeyOutside(Keys(mandatory)));
    SortPermutes(optional, Ranking(tokenAware));
    if room < |optional| { PrefixCounts(Sort(optional, Ranking(tokenAware)), room); }
  }

  /** The mandatory and the optional rows are disjoint parts of the rows. */
  lemma {:induction false} PartsOfRows(rows: seq<Candidate>, sources: set<string>)
    requires DistinctKeys(rows)
    ensures var mandatory := Filter(rows, FromSources(sources));
      var optional := Filter(rows, KeyOutside(Keys(mandatory)));
      && multiset(mandatory) <= multiset(rows) && multiset(optional) <= multiset(rows)
      && (forall c :: c in mandatory <==> c in rows && c.item.source in sources)
      && (forall c :: c in mandatory ==> c !in optional)
  {
    FilterMembers(rows, FromSources(sources));
    FilterMembers(rows, KeyOutside(Keys(Filter(rows, FromSources(sources)))));
    OptionalRows(rows, sources);
  }

  lemma {:induction false} MandatoryMembers(rows: seq<Candidate>, sources: set<string>)
    ensures forall c :: c in Filter(rows, FromSources(sources)) <==> c in rows && c.item.source in sources
  {
    FilterMembers(rows, FromSources(sources));
  }

  lemma {:induction false} BoundedCounts(rows: seq<Candidate>, room: nat, sources: set<string>, tokenAware: bool)
    requires DistinctKeys(rows)
    ensures var mandatory := Filter(rows, FromSources(sources));
      var head := BestOptional(rows, mandatory, room, tokenAware);
      multiset(mandatory + head) <= multiset(rows) && |head| <= room
  {
    var mandatory := Filter(rows, FromSources(sources));
    PartsOfRows(rows, sources);
    BestOptionalIsPart(rows, mandatory, room, tokenAware);
    CutCounts(mandatory, Filter(rows, KeyOutside(Keys(mandatory))),
              BestOptional(rows, mandatory, room, tokenAware), rows);
  }

  lemma {:induction false} BoundedParts(rows: seq<Candidate>, limit: nat, sources: set<string>, tokenAware: bool)
    returns (mandatory: seq<Candidate>, head: seq<Candidate>)
    requires DistinctKeys(rows) && |rows| > limit
    ensures Bounded(rows, limit, sources, tokenAware) == mandatory + head
    ensures multiset(mandatory + head) <= multiset(rows)
    ensures forall c :: c in mandatory <==> c in rows && c.item.source in sources
    ensures |mandatory + head| <= limit || head == []
  {
    mandatory := Filter(rows, FromSources(sources));
    var room := if limit > |mandatory| then limit - |mandatory| else 0;
    head := BestOptional(rows, mandatory, room, tokenAware);
    BoundedCounts(rows, room, sources, tokenAware);
    MandatoryMembers(rows, sources);
  }

  lemma {:induction false} FiltersSplit(s: seq<Candidate>, keep: Candidate -> bool, drop: Candidate -> bool)
    requires forall c :: c in s ==> (keep(c) <==> !drop(c))
    ensures |Filter(s, keep)| + |Filter(s, drop)| == |s|
  {
    if s != [] {
      assert s[|s| - 1] in s;
      FiltersSplit(s[..|s| - 1], keep, drop);
    }
  }

  lemma {:induction false} BoundedFillsUp(rows: seq<Candidate>, limit: nat, sources: set<string>, tokenAware: bool)
    requires DistinctKeys(rows) && |rows| > limit
    ensures |Bounded(rows, limit, sources, tokenAware)| >= limit
  {
    var mandatory := Filter(rows, FromSources(sources));
    var others := KeyOutside(Keys(mandatory));
    OptionalRows(rows, sources);
    FilterMembers(rows, others);
    FiltersSplit(rows, FromSources(sources), others);
    SortPermutes(Filter(rows, others), Ranking(tokenAware));
  }

  /** Bounding keeps every mandatory row, drops nothing from up to `limit` rows, and otherwise
      keeps exactly `limit` rows, or the mandatory ones if those alone exceed it. */
  lemma {:induction false} BoundedKeepsMandatory(rows: seq<Candidate>, limit: nat, sources: set<string>,
                                                 tokenAware: bool)
    requires DistinctKeys(rows)
    ensures var kept := Bounded(rows, limit, sources, tokenAware);
      && multiset(kept) <= multiset(rows)
      && (forall c :: c in rows && c.item.source in sources ==> c in kept)
      && (|rows| <= limit ==> kept == rows)
      && (|rows| > limit ==> |kept| == limit || (|kept| > limit && forall c :: c in kept ==> c.item.source in sources))
  {
    if |rows| > limit {
      var mandatory, head := BoundedParts(rows, limit, sources, tokenAware);
      BoundedFillsUp(rows, limit, sources, tokenAware);
    }
  }

  lemma {:induction false} HeadRanksFirst(optional: seq<Candidate>, k: nat, tokenAware: bool, c: Candidate,
                                          d: Candidate)
    requires k <= |Sort(optional, Ranking(tokenAware))|
    requires c in Sort(optional, Ranking(tokenAware))[..k]
    requires d in optional && d !in Sort(optional, Ranking(tokenAware))[..k]
    ensures RanksBefore(tokenAware, c, d)
  {
    var ranked := Sort(optional, Ranking(tokenAware));
    SortPermutes(optional, Ranking(tokenAware));
    RankingIsTotal(tokenAware);
    SortSorts(optional, Ranking(tokenAware));
    var i :| 0 <= i < k && ranked[..k][i] == c;
    assert ranked == ranked[..k] + ranked[k..];
    var j :| 0 <= j < |ranked[k..]| && ranked[k..][j] == d;
    assert Ranking(tokenAware)(ranked[i], ranked[k + j]);
  }

  /** Bounding drops only rows that rank behind every optional row it keeps. */
  lemma {:induction false} BoundedDropsTheWorst(rows: seq<Candidate>, limit: nat, sources: set<string>,
                                                tokenAware: bool, c: Candidate, d: Candidate)
    requires DistinctKeys(rows)
    requires c in Bounded(rows, limit, sources, tokenAware) && c.item.source !in sources
    requires d in rows && d !in Bounded(rows, limit, sources, tokenAware)
    ensures RanksBefore(tokenAware, c, d)
  {
    var mandatory := Filter(rows, FromSources(sources));
    var optional := Filter(rows, KeyOutside(Keys(mandatory)));
    var ranked := Sort(optional, Ranking(tokenAware));
    var room := if limit > |mandatory| then limit - |mandatory| else 0;
    var k := if room < |ranked| then room else |ranked|;
    FilterMembers(rows, FromSources(sources));
    OptionalRows(rows, sources);
    assert ranked[..|ranked|] == ranked;
    HeadRanksFirst(optional, k, tokenAware, c, d);
  }

  lemma {:induction false} BoundedIsSound(query: set<string>, items: seq<Item>, limit: nat,
                                          sources: set<string>, tokenAware: bool)
    ensures var rows := Bounded(CandidateRows(query, items), limit, sources, tokenAware);
      PositiveCosts(rows) && DistinctKeys(rows)
  {
    var all := CandidateRows(query, items);
    var rows := Bounded(all, limit, sources, tokenAware);
    CandidateRowsAreSound(query, items);
    BoundedKeepsMandatory(all, limit, sources, tokenAware);
    SubDistinct(rows, all);
    forall c | c in rows ensures c in all { assert c in multiset(rows); }
  }
}
