/** Reciprocal rank fusion: many ranked lists, one order. */
module RankFusion {
  import opened Wrappers
  import opened Orders
  import opened Products

  datatype Key = Key(text: string)

  datatype Item = Item(key: Key, payload: string)

  type Ranking = seq<Item>

  datatype Fused = Fused(score: real, item: Item)

  datatype FusionError = BadConstant | WeightsMismatch | NegativeWeight

  // ------------------------------------------------------------ what is wanted

  /** A count as a real number. */
  function Units(n: nat): (r: real)
    ensures r >= 0.0 && (n > 0 ==> r > 0.0)
  {
    if n == 0 then 0.0 else Units(n - 1) + 1.0
  }

  function Share(w: real, k: int, rank: nat): real
    requires k > 0
  {
    w / Units(k + rank)
  }

  /** The rank, from 1, of the first item under a key; 0 when there is none. */
  function FirstRank(ranking: Ranking, key: Key): (rank: nat)
    ensures rank <= |ranking|
    ensures rank > 0 ==> ranking[rank - 1].key == key && forall i | 0 <= i < rank - 1 :: ranking[i].key != key
    ensures rank == 0 ==> forall i | 0 <= i < |ranking| :: ranking[i].key != key
  {
    if ranking == [] then 0
    else
      var before := FirstRank(ranking[..|ranking| - 1], key);
      if before > 0 then before
      else if ranking[|ranking| - 1].key == key then |ranking|
      else 0
  }

  /** What one ranking adds to a key's score. */
  function Term(ranking: Ranking, w: real, k: int, key: Key): real
    requires k > 0
  {
    if w == 0.0 || FirstRank(ranking, key) == 0 then 0.0 else Share(w, k, FirstRank(ranking, key))
  }

  /** The sum of w / (k + first rank) over the rankings that hold the key. */
  function Score(rankings: seq<Ranking>, weights: seq<real>, k: int, key: Key): real
    requires k > 0 && |rankings| == |weights|
  {
    if rankings == [] then 0.0
    else
      var n := |rankings| - 1;
      Score(rankings[..n], weights[..n], k, key) + Term(rankings[n], weights[n], k, key)
  }

  predicate HasKey(items: seq<Item>, key: Key) { exists i :: 0 <= i < |items| && items[i].key == key }

  /** Adds the items whose keys are new, in order. */
  function Merge(items: seq<Item>, ranking: Ranking): seq<Item> {
    if ranking == [] then items
    else
      var n := |ranking| - 1;
      var rest := Merge(items, ranking[..n]);
      if HasKey(rest, ranking[n].key) then rest else rest + [ranking[n]]
  }

  /** The first item under each key of the weighted rankings, in order of sight. */
  function Seen(rankings: seq<Ranking>, weights: seq<real>): seq<Item>
    requires |rankings| == |weights|
  {
    if rankings == [] then []
    else
      var n := |rankings| - 1;
      var rest := Seen(rankings[..n], weights[..n]);
      if weights[n] == 0.0 then rest else Merge(rest, rankings[n])
  }

  datatype Row = Row(score: real, seen: nat, item: Item)

  predicate Ahead(a: Row, b: Row) { a.score > b.score || (a.score == b.score && a.seen <= b.seen) }

  function Rows(rankings: seq<Ranking>, weights: seq<real>, k: int, items: seq<Item>): seq<Row>
    requires k > 0 && |rankings| == |weights|
  {
    seq(|items|, i requires 0 <= i < |items| => Row(Score(rankings, weights, k, items[i].key), i, items[i]))
  }

  function Output(rows: seq<Row>): seq<Fused> {
    seq(|rows|, i requires 0 <= i < |rows| => Fused(rows[i].score, rows[i].item))
  }

  /** Score order, equal scores in order of sight. */
  function Ranked(rankings: seq<Ranking>, weights: seq<real>, k: int): seq<Row>
    requires k > 0 && |rankings| == |weights|
  {
    Sort(Rows(rankings, weights, k, Seen(rankings, weights)), Ahead)
  }

  predicate WeightsOk(rankings: seq<Ranking>, weights: Option<seq<real>>) {
    weights.Some? ==> |weights.value| == |rankings| && forall i | 0 <= i < |weights.value| :: weights.value[i] >= 0.0
  }

  function Effective(rankings: seq<Ranking>, weights: Option<seq<real>>): (w: seq<real>)
    requires WeightsOk(rankings, weights)
    ensures |w| == |rankings| && forall i | 0 <= i < |w| :: w[i] >= 0.0
  {
    if weights.Some? && weights.value != [] then weights.value else seq(|rankings|, _ => 1.0)
  }

  // ------------------------------------------------------------- the algorithm

  /** The three dictionaries of the loop; `order` is the order of insertion. */
  datatype Table = Table(order: seq<Key>, items: map<Key, Item>, firstSeen: map<Key, nat>, scores: map<Key, real>)

  predicate Complete(t: Table, i: nat)
    requires i < |t.order|
  {
    t.order[i] in t.items && t.order[i] in t.firstSeen && t.order[i] in t.scores
  }

  predicate Entered(t: Table, seen: seq<Item>, i: nat)
    requires i < |seen| && i < |t.order|
  {
    var key := seen[i].key;
    && t.order[i] == key && key in t.items && key in t.firstSeen && key in t.scores
    && t.items[key] == seen[i] && t.firstSeen[key] == i
  }

  /** The dictionaries hold the seen items, in order, and no other key. */
  ghost predicate Ordered(t: Table, seen: seq<Item>) {
    && |t.order| == |seen|
    && (forall i | 0 <= i < |seen| :: Entered(t, seen, i))
    && (forall key | key in t.firstSeen || key in t.scores :: HasKey(seen, key))
  }

  ghost predicate Scored(scores: map<Key, real>, base: seq<Ranking>, ws: seq<real>, k: int, part: Ranking, w: real)
    requires k > 0 && |base| == |ws|
  {
    forall key | key in scores :: scores[key] == Score(base, ws, k, key) + Term(part, w, k, key)
  }

  /** The dictionaries after the rankings `base` and the part `part` of the next. */
  ghost predicate Holds(t: Table, base: seq<Ranking>, ws: seq<real>, k: int, part: Ranking, w: real)
    requires k > 0 && |base| == |ws|
  {
    Ordered(t, Merge(Seen(base, ws), part)) && Scored(t.scores, base, ws, k, part, w)
  }

  lemma {:induction false} MergeHasKeys(items: seq<Item>, ranking: Ranking, key: Key)
    ensures HasKey(Merge(items, ranking), key) <==> HasKey(items, key) || FirstRank(ranking, key) > 0
  {
    if ranking != [] {
      var n := |ranking| - 1;
      var rest := Merge(items, ranking[..n]);
      MergeHasKeys(items, ranking[..n], key);
      if !HasKey(rest, ranking[n].key) {
        assert (rest + [ranking[n]])[|rest|].key == ranking[n].key;
        if HasKey(rest, key) {
          var i :| 0 <= i < |rest| && rest[i].key == key;
          assert (rest + [ranking[n]])[i].key == key;
        }
      }
    }
  }

  /** Some weighted ranking holds the key. */
  ghost predicate IsHeld(rankings: seq<Ranking>, weights: seq<real>, key: Key)
    requires |rankings| == |weights|
  {
    exists i :: 0 <= i < |rankings| && weights[i] != 0.0 && FirstRank(rankings[i], key) > 0
  }

  lemma {:induction false} HeldStep(rankings: seq<Ranking>, weights: seq<real>, key: Key)
    requires |rankings| == |weights| && rankings != []
    ensures var n := |rankings| - 1;
      IsHeld(rankings, weights, key) <==>
        IsHeld(rankings[..n], weights[..n], key) || (weights[n] != 0.0 && FirstRank(rankings[n], key) > 0)
  {
    var n := |rankings| - 1;
    assert forall i :: 0 <= i < n ==> rankings[..n][i] == rankings[i] && weights[..n][i] == weights[i];
  }

  /** A key is seen exactly when some weighted ranking holds it. */
  lemma {:induction false} SeenHasKeys(rankings: seq<Ranking>, weights: seq<real>, key: Key)
    requires |rankings| == |weights|
    ensures HasKey(Seen(rankings, weights), key) <==> IsHeld(rankings, weights, key)
  {
    if rankings != [] {
      var n := |rankings| - 1;
      SeenHasKeys(rankings[..n], weights[..n], key);
      MergeHasKeys(Seen(rankings[..n], weights[..n]), rankings[n], key);
      HeldStep(rankings, weights, key);
    }
  }

  /** A key no weighted ranking holds scores nothing. */
  lemma {:induction false} UnseenScoresZero(rankings: seq<Ranking>, weights: seq<real>, k: int, key: Key)
    requires k > 0 && |rankings| == |weights| && !HasKey(Seen(rankings, weights), key)
    ensures Score(rankings, weights, k, key) == 0.0
  {
    if rankings != [] {
      var n := |rankings| - 1;
      MergeHasKeys(Seen(rankings[..n], weights[..n]), rankings[n], key);
      UnseenScoresZero(rankings[..n], weights[..n], k, key);
    }
  }

  lemma {:induction false} TermStep(part: Ranking, item: Item, w: real, k: int, key: Key)
    requires k > 0 && w > 0.0
    ensures Term(part + [item], w, k, key)
         == if FirstRank(part, key) == 0 && item.key == key then Share(w, k, |part| + 1) else Term(part, w, k, key)
  {
    assert (part + [item])[..|part|] == part;
  }

  lemma {:induction false} MergeStep(items: seq<Item>, part: Ranking, item: Item)
    ensures Merge(items, part + [item])
         == if HasKey(Merge(items, part), item.key) then Merge(items, part) else Merge(items, part) + [item]
  {
    assert (part + [item])[..|part|] == part;
  }

  /** Adds one item that this ranking did not show before. */
  method Enter(t: Table, item: Item, share: real) returns (r: Table)
    ensures item.key in t.firstSeen ==> r.order == t.order && r.items == t.items && r.firstSeen == t.firstSeen
    ensures item.key !in t.firstSeen ==> && r.order == t.order + [item.key] && r.items == t.items[item.key := item]
                                         && r.firstSeen == t.firstSeen[item.key := |t.order|]
    ensures r.scores == t.scores[item.key := (if item.key in t.scores then t.scores[item.key] else 0.0) + share]
  {
    r := t;
    if item.key !in r.firstSeen {
      r := r.(firstSeen := r.firstSeen[item.key := |r.order|], items := r.items[item.key := item],
              order := r.order + [item.key]);
    }
    r := r.(scores := r.scores[item.key := (if item.key in r.scores then r.scores[item.key] else 0.0) + share]);
  }

  lemma {:induction false} RepeatKeeps(t: Table, base: seq<Ranking>, ws: seq<real>, k: int, part: Ranking,
                                       w: real, item: Item)
    requires k > 0 && |base| == |ws| && w > 0.0 && Holds(t, base, ws, k, part, w) && FirstRank(part, item.key) > 0
    ensures Holds(t, base, ws, k, part + [item], w)
  {
    MergeHasKeys(Seen(base, ws), part, item.key);
    MergeStep(Seen(base, ws), part, item);
    forall key | key in t.scores ensures Term(part + [item], w, k, key) == Term(part, w, k, key) {
      TermStep(part, item, w, k, key);
    }
  }

  lemma {:induction false} KnownKey(t: Table, base: seq<Ranking>, ws: seq<real>, k: int, part: Ranking, w: real,
                                    key: Key)
    requires k > 0 && |base| == |ws| && Holds(t, base, ws, k, part, w)
    ensures key in t.firstSeen <==> HasKey(Merge(Seen(base, ws), part), key)
    ensures key in t.scores <==> HasKey(Merge(Seen(base, ws), part), key)
  {
    var seen := Merge(Seen(base, ws), part);
    if HasKey(seen, key) {
      var i :| 0 <= i < |seen| && seen[i].key == key;
      assert Entered(t, seen, i);
    }
  }

  lemma {:induction false} EnterKeepsOrder(t: Table, r: Table, before: seq<Item>, item: Item)
    requires Ordered(t, before) && (item.key in t.firstSeen <==> HasKey(before, item.key))
    requires item.key in t.firstSeen ==> r.order == t.order && r.items == t.items && r.firstSeen == t.firstSeen
    requires item.key !in t.firstSeen ==> && r.order == t.order + [item.key] && r.items == t.items[item.key := item]
                                          && r.firstSeen == t.firstSeen[item.key := |t.order|]
    requires forall key :: key in r.scores <==> key in t.scores || key == item.key
    ensures Ordered(r, if HasKey(before, item.key) then before else before + [item])
  {
    var seen := if HasKey(before, item.key) then before else before + [item];
    forall i | 0 <= i < |seen| ensures Entered(r, seen, i) {
      if i < |before| {
        assert Entered(t, before, i) && seen[i] == before[i];
        assert HasKey(before, before[i].key);
      }
    }
    forall key | key in r.firstSeen || key in r.scores ensures HasKey(seen, key) {
      if key == item.key {
        assert HasKey(before, key) || seen[|before|].key == key;
      } else {
        var i :| 0 <= i < |before| && before[i].key == key;
        assert seen[i].key == key;
      }
    }
  }

  lemma {:induction false} EnterKeepsScores(t: Table, base: seq<Ranking>, ws: seq<real>, k: int, part: Ranking,
                                            w: real, item: Item)
    requires k > 0 && |base| == |ws| && w > 0.0 && Scored(t.scores, base, ws, k, part, w)
    requires FirstRank(part, item.key) == 0
    requires item.key in t.scores || !HasKey(Merge(Seen(base, ws), part), item.key)
    ensures var was := if item.key in t.scores then t.scores[item.key] else 0.0;
      Scored(t.scores[item.key := was + Share(w, k, |part| + 1)], base, ws, k, part + [item], w)
  {
    forall key | key in t.scores || key == item.key
      ensures key in t.scores || Score(base, ws, k, key) == 0.0
      ensures Term(part + [item], w, k, key)
           == if key == item.key then Share(w, k, |part| + 1) else Term(part, w, k, key)
    {
      TermStep(part, item, w, k, key);
      if key !in t.scores {
        MergeHasKeys(Seen(base, ws), part, key);
        UnseenScoresZero(base, ws, k, key);
      }
    }
  }

  lemma {:induction false} EnterKeeps(t: Table, r: Table, base: seq<Ranking>, ws: seq<real>, k: int,
                                      part: Ranking, w: real, item: Item)
    requires k > 0 && |base| == |ws| && w > 0.0 && Holds(t, base, ws, k, part, w) && FirstRank(part, item.key) == 0
    requires item.key in t.firstSeen ==> r.order == t.order && r.items == t.items && r.firstSeen == t.firstSeen
    requires item.key !in t.firstSeen ==> && r.order == t.order + [item.key] && r.items == t.items[item.key := item]
                                          && r.firstSeen == t.firstSeen[item.key := |t.order|]
    requires r.scores
          == t.scores[item.key := (if item.key in t.scores then t.scores[item.key] else 0.0) + Share(w, k, |part| + 1)]
    ensures Holds(r, base, ws, k, part + [item], w)
  {
    MergeStep(Seen(base, ws), part, item);
    KnownKey(t, base, ws, k, part, w, item.key);
    EnterKeepsOrder(t, r, Merge(Seen(base, ws), part), item);
    EnterKeepsScores(t, base, ws, k, part, w, item);
  }

  ghost predicate Shown(keys: set<Key>, part: Ranking) { forall key :: key in keys <==> FirstRank(part, key) > 0 }

  lemma {:induction false} ShownStep(keys: set<Key>, part: Ranking, item: Item)
    requires Shown(keys, part)
    ensures Shown(keys + {item.key}, part + [item])
  {
    forall key ensures key in keys + {item.key} <==> FirstRank(part + [item], key) > 0 {
      assert (part + [item])[..|part|] == part;
    }
  }

  /** One turn of the inner loop: an item already shown by this ranking is skipped. */
  method FuseItem(t: Table, shown: set<Key>, item: Item, rank: nat, w: real, k: int,
                  ghost base: seq<Ranking>, ghost ws: seq<real>, ghost part: Ranking)
    returns (r: Table, keys: set<Key>)
    requires k > 0 && |base| == |ws| && w > 0.0 && Holds(t, base, ws, k, part, w) && Shown(shown, part)
    requires rank == |part| + 1
    ensures Holds(r, base, ws, k, part + [item], w) && Shown(keys, part + [item])
  {
    ShownStep(shown, part, item);
    keys := shown + {item.key};
    if item.key in shown {
      RepeatKeeps(t, base, ws, k, part, w, item);
      r := t;
    } else {
      r := Enter(t, item, Share(w, k, rank));
      EnterKeeps(t, r, base, ws, k, part, w, item);
    }
  }

  method FuseRanking(t: Table, ranking: Ranking, w: real, k: int, ghost base: seq<Ranking>, ghost ws: seq<real>)
    returns (r: Table)
    requires k > 0 && |base| == |ws| && w > 0.0 && Holds(t, base, ws, k, [], w)
    ensures Holds(r, base, ws, k, ranking, w)
  {
    r := t;
    var seenInRanking: set<Key> := {};
    for rank := 0 to |ranking|
      invariant Holds(r, base, ws, k, ranking[..rank], w)
      invariant Shown(seenInRanking, ranking[..rank])
    {
      r, seenInRanking := FuseItem(r, seenInRanking, ranking[rank], rank + 1, w, k, base, ws, ranking[..rank]);
      assert ranking[..rank + 1] == ranking[..rank] + [ranking[rank]];
    }
    assert ranking[..|ranking|] == ranking;
  }

  lemma {:induction false} RankingDone(t: Table, base: seq<Ranking>, ws: seq<real>, k: int, ranking: Ranking,
                                       w: real, v: real)
    requires k > 0 && |base| == |ws|
      && (if w == 0.0 then Holds(t, base, ws, k, [], w) else Holds(t, base, ws, k, ranking, w))
    ensures Holds(t, base + [ranking], ws + [w], k, [], v)
  {
    assert (base + [ranking])[..|base|] == base && (ws + [w])[..|ws|] == ws;
  }

  lemma {:induction false} WeightIsFree(t: Table, base: seq<Ranking>, ws: seq<real>, k: int, w: real, v: real)
    requires k > 0 && |base| == |ws| && Holds(t, base, ws, k, [], w)
    ensures Holds(t, base, ws, k, [], v)
  {
  }

  function RowOf(t: Table, i: nat): Row
    requires i < |t.order| && Complete(t, i)
  {
    Row(t.scores[t.order[i]], t.firstSeen[t.order[i]], t.items[t.order[i]])
  }

  lemma {:induction false} RowInTable(t: Table, rankings: seq<Ranking>, ws: seq<real>, k: int, i: nat)
    requires k > 0 && |rankings| == |ws| && Holds(t, rankings, ws, k, [], 0.0) && i < |t.order|
    ensures |t.order| == |Seen(rankings, ws)| && Complete(t, i)
    ensures RowOf(t, i) == Rows(rankings, ws, k, Seen(rankings, ws))[i]
  {
    assert Entered(t, Seen(rankings, ws), i);
  }

  /** Fuses the rankings into exactly the score order, or says what is wrong. */
  method ReciprocalRankFusion(rankings: seq<Ranking>, k: int, weights: Option<seq<real>>)
    returns (r: Result<seq<Fused>, FusionError>)
    ensures r.Ok? <==> k > 0 && WeightsOk(rankings, weights)
    ensures r.Ok? ==> r.value == Output(Ranked(rankings, Effective(rankings, weights), k))
    ensures r.Ok? && (weights.None? || weights.value == []) ==>
      Effective(rankings, weights) == seq(|rankings|, _ => 1.0)
    ensures r.Ok? && weights.Some? && weights.value != [] ==> Effective(rankings, weights) == weights.value
    ensures r == Err(NegativeWeight) <==>
      && k > 0 && weights.Some? && |weights.value| == |rankings|
      && exists i :: 0 <= i < |rankings| && weights.value[i] < 0.0
    ensures r == Err(BadConstant) <==> k <= 0
    ensures r == Err(WeightsMismatch) <==> k > 0 && weights.Some? && |weights.value| != |rankings|
  {
    if k <= 0 { return Err(BadConstant); }
    if weights.Some? {
      if |weights.value| != |rankings| { return Err(WeightsMismatch); }
      if exists i | 0 <= i < |weights.value| :: weights.value[i] < 0.0 { return Err(NegativeWeight); }
    }
    var effective := Effective(rankings, weights);
    var t := Table([], map[], map[], map[]);
    for n := 0 to |rankings|
      invariant Holds(t, rankings[..n], effective[..n], k, [], 0.0)
    {
      var w := effective[n];
      ghost var base, ws := rankings[..n], effective[..n];
      WeightIsFree(t, base, ws, k, 0.0, w);
      if w != 0.0 {
        t := FuseRanking(t, rankings[n], w, k, base, ws);
      }
      RankingDone(t, base, ws, k, rankings[n], w, 0.0);
      assert rankings[..n + 1] == base + [rankings[n]] && effective[..n + 1] == ws + [w];
    }
    assert rankings[..|rankings|] == rankings && effective[..|rankings|] == effective;
    forall i | 0 <= i < |t.order| ensures Complete(t, i) {
      RowInTable(t, rankings, effective, k, i);
    }
    var rows := seq(|t.order|, i requires 0 <= i < |t.order| && Complete(t, i) => RowOf(t, i));
    assert rows == Rows(rankings, effective, k, Seen(rankings, effective)) by {
      forall i | 0 <= i < |rows| ensures rows[i] == Rows(rankings, effective, k, Seen(rankings, effective))[i] {
        RowInTable(t, rankings, effective, k, i);
      }
    }
    r := Ok(Output(Sort(rows, Ahead)));
  }

  // ------------------------------------------------------------- main theorems

  lemma {:induction false} AheadIsTotal()
    ensures TotalPreorder(Ahead)
  {
  }

  lemma {:induction false} MergeIsDistinct(items: seq<Item>, ranking: Ranking)
    requires forall i, j | 0 <= i < j < |items| :: items[i].key != items[j].key
    ensures forall i, j | 0 <= i < j < |Merge(items, ranking)| ::
      Merge(items, ranking)[i].key != Merge(items, ranking)[j].key
  {
    if ranking != [] { MergeIsDistinct(items, ranking[..|ranking| - 1]); }
  }

  lemma {:induction false} SeenIsDistinct(rankings: seq<Ranking>, weights: seq<real>)
    requires |rankings| == |weights|
    ensures forall i, j | 0 <= i < j < |Seen(rankings, weights)| ::
      Seen(rankings, weights)[i].key != Seen(rankings, weights)[j].key
  {
    if rankings != [] {
      var n := |rankings| - 1;
      SeenIsDistinct(rankings[..n], weights[..n]);
      MergeIsDistinct(Seen(rankings[..n], weights[..n]), rankings[n]);
    }
  }

  /** Every row of the result is a seen item with its score, and none is missing. */
  lemma {:induction false} RankedRows(rankings: seq<Ranking>, weights: seq<real>, k: int)
    requires k > 0 && |rankings| == |weights|
    ensures |Ranked(rankings, weights, k)| == |Seen(rankings, weights)| && SortedBy(Ranked(rankings, weights, k), Ahead)
    ensures forall row :: row in Ranked(rankings, weights, k) <==>
      row in Rows(rankings, weights, k, Seen(rankings, weights))
  {
    AheadIsTotal();
    var rows := Rows(rankings, weights, k, Seen(rankings, weights));
    SortPermutes(rows, Ahead);
    SortSorts(rows, Ahead);
  }

  /** Position of a key in the result. */
  predicate IsAt(out: seq<Fused>, at: int, key: Key) { 0 <= at < |out| && out[at].item.key == key }

  lemma {:induction false} SingleInDistinct(rows: seq<Row>, row: Row)
    requires forall i, j | 0 <= i < j < |rows| :: rows[i].seen != rows[j].seen
    ensures multiset(rows)[row] <= 1
  {
    if rows != [] {
      var n := |rows| - 1;
      SingleInDistinct(rows[..n], row);
      assert rows == rows[..n] + [rows[n]];
      if rows[n] == row { assert row !in rows[..n]; }
    }
  }

  lemma {:induction false} TwiceCountsTwo(rows: seq<Row>, i: int, j: int)
    requires 0 <= i < |rows| && 0 <= j < |rows| && i != j && rows[i] == rows[j]
    ensures multiset(rows)[rows[i]] >= 2
  {
    var lo, hi := if i < j then i else j, if i < j then j else i;
    assert rows == rows[..lo] + [rows[lo]] + rows[lo + 1..hi] + [rows[hi]] + rows[hi + 1..];
  }

  lemma {:induction false} RowsAppearOnce(rankings: seq<Ranking>, weights: seq<real>, k: int, at: int, to: int)
    requires k > 0 && |rankings| == |weights|
    requires 0 <= at < |Ranked(rankings, weights, k)| && 0 <= to < |Ranked(rankings, weights, k)|
    requires Ranked(rankings, weights, k)[at].item.key == Ranked(rankings, weights, k)[to].item.key
    ensures at == to
  {
    var seen := Seen(rankings, weights);
    var rows, ranked := Rows(rankings, weights, k, seen), Ranked(rankings, weights, k);
    RankedRows(rankings, weights, k);
    SeenIsDistinct(rankings, weights);
    assert ranked[at] in rows && ranked[to] in rows;
    assert ranked[at] == ranked[to];
    SortPermutes(rows, Ahead);
    SingleInDistinct(rows, ranked[at]);
    if at != to { TwiceCountsTwo(ranked, at, to); }
  }

  /** Each key of the weighted rankings comes out once, with its score. */
  lemma {:induction false} EachKeyOnce(rankings: seq<Ranking>, weights: seq<real>, k: int, key: Key)
    requires k > 0 && |rankings| == |weights|
    ensures (exists at :: IsAt(Output(Ranked(rankings, weights, k)), at, key)) <==> HasKey(Seen(rankings, weights), key)
    ensures forall at :: IsAt(Output(Ranked(rankings, weights, k)), at, key)
                    ==> Output(Ranked(rankings, weights, k))[at].score == Score(rankings, weights, k, key)
    ensures forall at, to ::
      IsAt(Output(Ranked(rankings, weights, k)), at, key) && IsAt(Output(Ranked(rankings, weights, k)), to, key)
      ==> at == to
  {
    var seen := Seen(rankings, weights);
    var rows, ranked := Rows(rankings, weights, k, seen), Ranked(rankings, weights, k);
    var out := Output(ranked);
    RankedRows(rankings, weights, k);
    SeenIsDistinct(rankings, weights);
    forall at | IsAt(out, at, key) ensures out[at].score == Score(rankings, weights, k, key) && HasKey(seen, key) {
      assert ranked[at] in rows;
    }
    if HasKey(seen, key) {
      var i :| 0 <= i < |seen| && seen[i].key == key;
      assert rows[i] in ranked;
      var at :| 0 <= at < |ranked| && ranked[at] == rows[i];
      assert IsAt(out, at, key);
    }
    forall at, to | IsAt(out, at, key) && IsAt(out, to, key) ensures at == to {
      RowsAppearOnce(rankings, weights, k, at, to);
    }
  }

  lemma {:induction false} UnitsGrow(m: nat, n: nat)
    requires m < n
    ensures Units(m) < Units(n)
  {
    if m < n - 1 { UnitsGrow(m, n - 1); }
  }

  lemma {:induction false} SmallerProduct(p: real, q: real, x: real, y: real)
    requires p <= q && 0.0 < q && 0.0 < x < y
    ensures p * x < q * y
  {
    var less := Scale(p, q, x);
    var more := StrictScale(x, y, q);
  }

  lemma {:induction false} Reciprocal(w: real, x: real, y: real)
    requires w > 0.0 && 0.0 < x < y
    ensures w / x > w / y > 0.0
  {
    var p, q := w / x, w / y;
    assert p * x == w && q * y == w;
    if q <= 0.0 { var gap := Scale(q, 0.0, y); }
    if 0.0 < q && p <= q { SmallerProduct(p, q, x, y); }
  }

  lemma {:induction false} ShareFalls(w: real, k: int, a: nat, b: nat)
    requires w > 0.0 && k > 0 && a < b
    ensures Share(w, k, a) > Share(w, k, b) > 0.0
  {
    UnitsGrow(k + a, k + b);
    Reciprocal(w, Units(k + a), Units(k + b));
  }

  /** `x` is ahead of `y` wherever a weighted ranking holds `y`. */
  ghost predicate Dominates(rankings: seq<Ranking>, weights: seq<real>, x: Key, y: Key)
    requires |rankings| == |weights|
  {
    forall i | 0 <= i < |rankings| && weights[i] != 0.0 && FirstRank(rankings[i], y) > 0 ::
      0 < FirstRank(rankings[i], x) < FirstRank(rankings[i], y)
  }

  lemma {:induction false} TermOrder(ranking: Ranking, w: real, k: int, x: Key, y: Key)
    requires k > 0 && w >= 0.0
    requires w != 0.0 && FirstRank(ranking, y) > 0 ==> 0 < FirstRank(ranking, x) < FirstRank(ranking, y)
    ensures Term(ranking, w, k, x) >= Term(ranking, w, k, y)
    ensures w != 0.0 && FirstRank(ranking, y) > 0 ==> Term(ranking, w, k, x) > Term(ranking, w, k, y)
  {
    if w > 0.0 {
      if FirstRank(ranking, y) > 0 {
        ShareFalls(w, k, FirstRank(ranking, x), FirstRank(ranking, y));
      } else {
        ShareFalls(w, k, FirstRank(ranking, x), FirstRank(ranking, x) + 1);
      }
    }
  }

  lemma {:induction false} DominanceAddsUp(rankings: seq<Ranking>, weights: seq<real>, k: int, x: Key, y: Key)
    requires k > 0 && |rankings| == |weights| && Dominates(rankings, weights, x, y)
    requires forall i | 0 <= i < |weights| :: weights[i] >= 0.0
    ensures Score(rankings, weights, k, x) >= Score(rankings, weights, k, y)
    ensures HasKey(Seen(rankings, weights), y) ==> Score(rankings, weights, k, x) > Score(rankings, weights, k, y)
  {
    if rankings != [] {
      var n := |rankings| - 1;
      forall i | 0 <= i < n && weights[..n][i] != 0.0 && FirstRank(rankings[..n][i], y) > 0
        ensures 0 < FirstRank(rankings[..n][i], x) < FirstRank(rankings[..n][i], y)
      {
        assert rankings[..n][i] == rankings[i] && weights[..n][i] == weights[i];
      }
      DominanceAddsUp(rankings[..n], weights[..n], k, x, y);
      MergeHasKeys(Seen(rankings[..n], weights[..n]), rankings[n], y);
      TermOrder(rankings[n], weights[n], k, x, y);
    }
  }

  /** An item ahead of `y` in every weighted ranking that holds `y` comes out
      ahead of `y`. */
  lemma {:induction false} DominanceIsKept(rankings: seq<Ranking>, weights: seq<real>, k: int, x: Key, y: Key,
                                           atY: int) returns (atX: int)
    requires k > 0 && |rankings| == |weights| && Dominates(rankings, weights, x, y)
    requires forall i | 0 <= i < |weights| :: weights[i] >= 0.0
    requires IsAt(Output(Ranked(rankings, weights, k)), atY, y)
    ensures IsAt(Output(Ranked(rankings, weights, k)), atX, x) && atX < atY
  {
    EachKeyOnce(rankings, weights, k, y);
    SeenHasKeys(rankings, weights, y);
    SeenHasKeys(rankings, weights, x);
    EachKeyOnce(rankings, weights, k, x);
    DominanceAddsUp(rankings, weights, k, x, y);
    atX :| IsAt(Output(Ranked(rankings, weights, k)), atX, x);
    RankedRows(rankings, weights, k);
    var ranked := Ranked(rankings, weights, k);
    assert Output(ranked)[atX].score > Output(ranked)[atY].score;
    assert atY < atX ==> Ahead(ranked[atY], ranked[atX]);
  }

  // ------------------------------------------- scores and order, written out

  lemma {:induction false} UnitsCount(n: nat)
    ensures Units(n) == n as real
  {
    if n > 0 { UnitsCount(n - 1); }
  }

  lemma {:induction false} ShareMeans(w: real, k: int, rank: nat)
    requires k > 0
    ensures Share(w, k, rank) * (k + rank) as real == w
  {
    UnitsCount(k + rank);
  }

  /** A score is a sum with one part per ranking: nothing from a ranking without the key, and
      from any other the part that is the weight when multiplied by k + first rank. */
  lemma {:induction false} ScoreAddsUp(rankings: seq<Ranking>, weights: seq<real>, ranking: Ranking, w: real, k: int,
                                       key: Key) returns (part: real)
    requires k > 0 && |rankings| == |weights|
    ensures Score([], [], k, key) == 0.0
    ensures Score(rankings + [ranking], weights + [w], k, key) == Score(rankings, weights, k, key) + part
    ensures if FirstRank(ranking, key) == 0 then part == 0.0 else part * (k + FirstRank(ranking, key)) as real == w
  {
    part := Term(ranking, w, k, key);
    assert (rankings + [ranking])[..|rankings|] == rankings && (weights + [w])[..|weights|] == weights;
    if FirstRank(ranking, key) > 0 && w != 0.0 { ShareMeans(w, k, FirstRank(ranking, key)); }
  }

  /** `key` comes into sight at rank `p` of ranking `r`: no weighted ranking before holds it. */
  ghost predicate SightedAt(rankings: seq<Ranking>, weights: seq<real>, key: Key, r: nat, p: nat)
    requires |rankings| == |weights|
  {
    && r < |rankings| && weights[r] != 0.0 && 0 < p == FirstRank(rankings[r], key)
    && forall q :: 0 <= q < r ==> weights[q] == 0.0 || FirstRank(rankings[q], key) == 0
  }

  /** What merging appends: the first item of each new key. */
  lemma {:induction false} MergeAppends(items: seq<Item>, ranking: Ranking, i: nat)
    requires i < |Merge(items, ranking)|
    ensures items <= Merge(items, ranking)
    ensures |items| <= i ==>
      var item := Merge(items, ranking)[i];
      && !HasKey(items, item.key)
      && FirstRank(ranking, item.key) > 0 && ranking[FirstRank(ranking, item.key) - 1] == item
  {
    if ranking != [] {
      var n := |ranking| - 1;
      var rest := Merge(items, ranking[..n]);
      MergeHasKeys(items, ranking[..n], ranking[n].key);
      if i < |rest| {
        MergeAppends(items, ranking[..n], i);
      } else if rest != [] {
        MergeAppends(items, ranking[..n], |rest| - 1);
      }
    }
  }

  lemma {:induction false} MergeInOrder(items: seq<Item>, ranking: Ranking, i: nat, j: nat)
    requires |items| <= i < j < |Merge(items, ranking)|
    ensures FirstRank(ranking, Merge(items, ranking)[i].key) < FirstRank(ranking, Merge(items, ranking)[j].key)
  {
    var n := |ranking| - 1;
    var rest := Merge(items, ranking[..n]);
    MergeAppends(items, ranking, i);
    MergeAppends(items, ranking, j);
    MergeAppends(items, ranking[..n], i);
    if j < |rest| {
      MergeAppends(items, ranking[..n], j);
      MergeInOrder(items, ranking[..n], i, j);
    } else {
      MergeHasKeys(items, ranking[..n], ranking[n].key);
    }
  }

  lemma {:induction false} SightStays(rankings: seq<Ranking>, weights: seq<real>, key: Key, r: nat, p: nat)
    requires |rankings| == |weights| && rankings != []
    requires SightedAt(rankings[..|rankings| - 1], weights[..|rankings| - 1], key, r, p)
    ensures SightedAt(rankings, weights, key, r, p)
  {
    var n := |rankings| - 1;
    assert forall q :: 0 <= q < n ==> rankings[..n][q] == rankings[q] && weights[..n][q] == weights[q];
  }

  /** A key that only the last ranking holds comes into sight there. */
  lemma {:induction false} NewSight(rankings: seq<Ranking>, weights: seq<real>, key: Key)
    requires |rankings| == |weights| && rankings != []
    requires var n := |rankings| - 1;
      !HasKey(Seen(rankings[..n], weights[..n]), key) && weights[n] != 0.0 && FirstRank(rankings[n], key) > 0
    ensures SightedAt(rankings, weights, key, |rankings| - 1, FirstRank(rankings[|rankings| - 1], key))
  {
    var n := |rankings| - 1;
    SeenHasKeys(rankings[..n], weights[..n], key);
    forall q | 0 <= q < n ensures weights[q] == 0.0 || FirstRank(rankings[q], key) == 0 {
      assert weights[..n][q] == weights[q] && rankings[..n][q] == rankings[q];
    }
  }

  /** Every seen item stands where its key came into sight. */
  lemma {:induction false} SightOf(rankings: seq<Ranking>, weights: seq<real>, i: nat) returns (r: nat, p: nat)
    requires |rankings| == |weights| && i < |Seen(rankings, weights)|
    ensures SightedAt(rankings, weights, Seen(rankings, weights)[i].key, r, p)
    ensures rankings[r][p - 1] == Seen(rankings, weights)[i]
    ensures i < |Seen(rankings[..|rankings| - 1], weights[..|rankings| - 1])| <==> r < |rankings| - 1
  {
    var n := |rankings| - 1;
    var before := Seen(rankings[..n], weights[..n]);
    if weights[n] != 0.0 { MergeAppends(before, rankings[n], i); }
    if i < |before| {
      r, p := SightOf(rankings[..n], weights[..n], i);
      SightStays(rankings, weights, before[i].key, r, p);
    } else {
      var key := Seen(rankings, weights)[i].key;
      r, p := n, FirstRank(rankings[n], key);
      NewSight(rankings, weights, key);
    }
  }

  lemma {:induction false} SightIsUnique(rankings: seq<Ranking>, weights: seq<real>, key: Key, r: nat, p: nat,
                                         r': nat, p': nat)
    requires |rankings| == |weights|
    requires SightedAt(rankings, weights, key, r, p) && SightedAt(rankings, weights, key, r', p')
    ensures r == r' && p == p'
  {
  }

  /** The order of the seen items is the order in which their keys come into sight. */
  lemma {:induction false} SightsInOrder(rankings: seq<Ranking>, weights: seq<real>, i: nat, j: nat)
    returns (r: nat, p: nat, r': nat, p': nat)
    requires |rankings| == |weights| && i < j < |Seen(rankings, weights)|
    ensures SightedAt(rankings, weights, Seen(rankings, weights)[i].key, r, p)
    ensures SightedAt(rankings, weights, Seen(rankings, weights)[j].key, r', p')
    ensures rankings[r][p - 1] == Seen(rankings, weights)[i] && rankings[r'][p' - 1] == Seen(rankings, weights)[j]
    ensures r < r' || (r == r' && p < p')
  {
    var n := |rankings| - 1;
    var before := Seen(rankings[..n], weights[..n]);
    r, p := SightOf(rankings, weights, i);
    r', p' := SightOf(rankings, weights, j);
    if weights[n] != 0.0 { MergeAppends(before, rankings[n], j); }
    if j < |before| {
      var s, q, s', q' := SightsInOrder(rankings[..n], weights[..n], i, j);
      SightStays(rankings, weights, before[i].key, s, q);
      SightStays(rankings, weights, before[j].key, s', q');
      SightIsUnique(rankings, weights, before[i].key, r, p, s, q);
      SightIsUnique(rankings, weights, before[j].key, r', p', s', q');
    } else if |before| <= i {
      MergeInOrder(before, rankings[n], i, j);
    }
  }

  /** Where the row at a place of the result was seen. */
  lemma {:induction false} RankedAt(rankings: seq<Ranking>, weights: seq<real>, k: int, at: nat) returns (i: nat)
    requires k > 0 && |rankings| == |weights| && at < |Ranked(rankings, weights, k)|
    ensures i < |Seen(rankings, weights)| && Ranked(rankings, weights, k)[at].seen == i
    ensures Ranked(rankings, weights, k)[at].item == Seen(rankings, weights)[i]
  {
    RankedRows(rankings, weights, k);
    var rows := Rows(rankings, weights, k, Seen(rankings, weights));
    assert Ranked(rankings, weights, k)[at] in rows;
    i :| 0 <= i < |rows| && rows[i] == Ranked(rankings, weights, k)[at];
  }

  /** The result is in the order of the scores; equal scores come in the order in which their
      keys come into sight, and every item is the one first seen under its key. */
  lemma {:induction false} FusedInOrder(rankings: seq<Ranking>, weights: seq<real>, k: int, at: nat, to: nat)
    returns (r: nat, p: nat, r': nat, p': nat)
    requires k > 0 && |rankings| == |weights| && at < to < |Output(Ranked(rankings, weights, k))|
    ensures var out := Output(Ranked(rankings, weights, k));
      && SightedAt(rankings, weights, out[at].item.key, r, p) && SightedAt(rankings, weights, out[to].item.key, r', p')
      && rankings[r][p - 1] == out[at].item && rankings[r'][p' - 1] == out[to].item
      && (out[at].score > out[to].score || (out[at].score == out[to].score && (r < r' || (r == r' && p < p'))))
  {
    var ranked := Ranked(rankings, weights, k);
    RankedRows(rankings, weights, k);
    assert Ahead(ranked[at], ranked[to]);
    var i := RankedAt(rankings, weights, k, at);
    var j := RankedAt(rankings, weights, k, to);
    if i == j { RowsAppearOnce(rankings, weights, k, at, to); }
    if i < j {
      r, p, r', p' := SightsInOrder(rankings, weights, i, j);
    } else {
      r', p', r, p := SightsInOrder(rankings, weights, j, i);
    }
  }
}
