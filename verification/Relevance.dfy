/** Role-aware file metrics of the retrieval benchmark: the distinct ranking, its
    graded DCG against the ideal one, and the recalls. */
module Relevance {
  import opened Wrappers
  import opened Orders
  import opened Discounts
  import opened Products

  datatype Role = EditTarget | SupportingContext

  /** One relevance row after path normalisation; an unknown role is `None`. */
  datatype RelevanceRow = RelevanceRow(path: string, role: Option<Role>)

  datatype Metrics = Metrics(ranked: seq<string>, dcg: real, idealDcg: real, ndcg: Option<real>,
                             weightedRecall: Option<real>, editRecall: Option<real>, supportRecall: Option<real>)

  function RoleGain(r: Role): nat { if r.EditTarget? then 2 else 1 }

  function Pow2(n: nat): nat { if n == 0 then 1 else 2 * Pow2(n - 1) }

  /** `2**gain - 1`. */
  function Worth(gain: nat): real { (Pow2(gain) - 1) as real }

  lemma {:induction false} Pow2Grows(a: nat, b: nat)
    requires a <= b
    ensures 1 <= Pow2(a) <= Pow2(b)
  {
    if a < b {
      Pow2Grows(a, b - 1);
    } else if a > 0 {
      Pow2Grows(a - 1, b - 1);
    }
  }

  lemma {:induction false} WorthGrows(a: nat, b: nat)
    requires a <= b
    ensures 0.0 <= Worth(a) <= Worth(b) && (Worth(a) > 0.0 <==> a > 0)
  {
    Pow2Grows(0, a);
    Pow2Grows(a, b);
    if a > 0 { Pow2Grows(1, a); }
  }

  // ------------------------------------------------------------- the inputs

  ghost predicate NoRepeats(s: seq<string>) { forall i, j :: 0 <= i < j < |s| ==> s[i] != s[j] }

  /** The distinct non-blank paths in order of first appearance. */
  function Distinct(items: seq<string>): seq<string> {
    if items == [] then []
    else
      var front, last := Distinct(items[..|items| - 1]), items[|items| - 1];
      if last == "" || last in front then front else front + [last]
  }

  function RolesOf(rows: seq<RelevanceRow>): map<string, Role> {
    if rows == [] then map[]
    else
      var front, last := RolesOf(rows[..|rows| - 1]), rows[|rows| - 1];
      if last.path != "" && last.role.Some? then front[last.path := last.role.value] else front
  }

  function GainOf(roles: map<string, Role>, path: string): nat {
    if path in roles then RoleGain(roles[path]) else 0
  }

  function Mapped<T, U>(f: T -> U, s: seq<T>): (r: seq<U>)
    ensures |r| == |s|
    ensures forall i :: 0 <= i < |s| ==> r[i] == f(s[i])
  {
    seq(|s|, i requires 0 <= i < |s| => f(s[i]))
  }

  function GainFunction(roles: map<string, Role>): string -> nat { (p: string) => GainOf(roles, p) }

  function Gains(roles: map<string, Role>, files: seq<string>): seq<nat> { Mapped(GainFunction(roles), files) }

  function Worths(gains: seq<nat>): seq<real> { Mapped(Worth, gains) }

  function Sum(gains: seq<nat>): nat {
    if gains == [] then 0 else Sum(gains[..|gains| - 1]) + gains[|gains| - 1]
  }

  function AtLeast(): (nat, nat) -> bool { (a: nat, b: nat) => a >= b }

  /** `sorted(gains, reverse=True)`. */
  function Ideal(roles: map<string, Role>, order: seq<string>): seq<nat> { Sort(Gains(roles, order), AtLeast()) }

  lemma {:induction false} DistinctHasNoRepeats(items: seq<string>)
    ensures NoRepeats(Distinct(items)) && "" !in Distinct(items)
    ensures forall p :: p in Distinct(items) <==> p in items && p != ""
  {
    if items != [] {
      DistinctHasNoRepeats(items[..|items| - 1]);
      assert items == items[..|items| - 1] + [items[|items| - 1]];
    }
  }

  lemma {:induction false} DistinctGrows(items: seq<string>, i: nat)
    requires i <= |items|
    ensures Distinct(items[..i]) <= Distinct(items)
    decreases |items|
  {
    if i == |items| {
      assert items[..i] == items;
    } else {
      assert items[..|items| - 1][..i] == items[..i];
      DistinctGrows(items[..|items| - 1], i);
    }
  }

  // ------------------------------------------------------------- the method

  function Truncated(s: seq<string>, k: nat): seq<string> { if |s| <= k then s else s[..k] }

  /** The ranking loop with its early exit. */
  method RankFiles(items: seq<string>, cutoff: nat) returns (ranked: seq<string>)
    requires cutoff >= 1
    ensures ranked == Truncated(Distinct(items), cutoff)
    ensures ranked <= Distinct(items) && |ranked| <= cutoff && (|ranked| < cutoff ==> ranked == Distinct(items))
  {
    ranked := [];
    var seen: set<string> := {};
    for i := 0 to |items|
      invariant ranked == Distinct(items[..i]) && |ranked| < cutoff
      invariant seen == set p | p in ranked
    {
      assert items[..i + 1][..i] == items[..i];
      if items[i] == "" || items[i] in seen {
        continue;
      }
      seen := seen + {items[i]};
      ranked := ranked + [items[i]];
      if |ranked| >= cutoff {
        DistinctGrows(items, i + 1);
        return;
      }
    }
    assert items[..|items|] == items;
  }

  /** The role loop, with the insertion order of the dictionary. */
  method CollectRoles(rows: seq<RelevanceRow>) returns (roles: map<string, Role>, order: seq<string>)
    ensures roles == RolesOf(rows)
    ensures NoRepeats(order) && forall p :: p in order <==> p in roles
  {
    roles, order := map[], [];
    for i := 0 to |rows|
      invariant roles == RolesOf(rows[..i])
      invariant NoRepeats(order) && forall p :: p in order <==> p in roles
    {
      assert rows[..i + 1][..i] == rows[..i];
      var row := rows[i];
      if row.path != "" && row.role.Some? {
        if row.path !in roles { order := order + [row.path]; }
        roles := roles[row.path := row.role.value];
      }
    }
    assert rows[..|rows|] == rows;
  }

  method ComputeDcg(gains: seq<nat>, d: nat -> real, skipZero: bool) returns (dcg: real)
    ensures dcg == Dcg(Worths(gains), d, |gains|)
  {
    dcg := 0.0;
    for i := 0 to |gains|
      invariant dcg == Dcg(Worths(gains), d, i)
    {
      if !skipZero || gains[i] > 0 {
        dcg := dcg + Worth(gains[i]) * d(i + 1);
      }
    }
  }

  method ComputeSum(gains: seq<nat>) returns (total: nat)
    ensures total == Sum(gains)
  {
    total := 0;
    for i := 0 to |gains|
      invariant total == Sum(gains[..i])
    {
      assert gains[..i + 1][..i] == gains[..i];
      total := total + gains[i];
    }
    assert gains[..|gains|] == gains;
  }

  function WithRole(roles: map<string, Role>, r: Role): set<string> { set p | p in roles && roles[p] == r }

  function Share(part: nat, whole: nat): Option<real> {
    if whole == 0 then None else Some(part as real / whole as real)
  }

  /** q is a / b, a share of the whole: at most 1, and 1 only when a is b. */
  ghost predicate IsQuotient(q: real, a: real, b: real) {
    b != 0.0 && q * b == a && 0.0 <= q <= 1.0 && (q == 1.0 <==> a == b)
  }

  lemma {:induction false} QuotientInUnit(a: real, b: real)
    requires 0.0 <= a <= b && b != 0.0
    ensures IsQuotient(a / b, a, b)
  {
    assert a == (a / b) * b;
  }

  function Cut(s: seq<nat>, k: nat): seq<nat> { s[..if |s| <= k then |s| else k] }

  lemma {:induction false} DcgPastEnd(x: seq<real>, d: nat -> real, m: nat, n: nat)
    requires |x| <= m <= n
    ensures Dcg(x, d, n) == Dcg(x, d, m)
  {
    if m < n { DcgPastEnd(x, d, m, n - 1); }
  }

  lemma {:induction false} DcgOfPrefix(x: seq<real>, y: seq<real>, d: nat -> real, n: nat)
    requires forall i: nat :: i < n ==> At(x, i) == At(y, i)
    ensures Dcg(x, d, n) == Dcg(y, d, n)
  {
    if n > 0 { DcgOfPrefix(x, y, d, n - 1); }
  }

  lemma {:induction false} IdealCut(roles: map<string, Role>, order: seq<string>, d: nat -> real, cutoff: nat)
    ensures var cut := Cut(Ideal(roles, order), cutoff);
      Dcg(Worths(cut), d, |cut|) == Dcg(Worths(Ideal(roles, order)), d, cutoff)
  {
    var sorted := Ideal(roles, order);
    var cut := Cut(sorted, cutoff);
    DcgOfPrefix(Worths(cut), Worths(sorted), d, |cut|);
    if |sorted| <= cutoff { DcgPastEnd(Worths(sorted), d, |cut|, cutoff); }
  }

  /** `[path for path in ranked_files if path in relevant]`. */
  function Relevant(roles: map<string, Role>, files: seq<string>): seq<string> {
    if files == [] then []
    else
      var front, last := Relevant(roles, files[..|files| - 1]), files[|files| - 1];
      if last in roles then front + [last] else front
  }

  lemma {:induction false} RelevantKeeps(roles: map<string, Role>, files: seq<string>)
    requires NoRepeats(files)
    ensures NoRepeats(Relevant(roles, files))
    ensures forall p :: p in Relevant(roles, files) <==> p in files && p in roles
  {
    if files != [] {
      assert files == files[..|files| - 1] + [files[|files| - 1]];
      RelevantKeeps(roles, files[..|files| - 1]);
    }
  }

  lemma {:induction false} RelevantEarns(roles: map<string, Role>, files: seq<string>)
    ensures Positives(Worths(Gains(roles, files))) == Worths(Gains(roles, Relevant(roles, files)))
  {
    if files != [] {
      var front, last := files[..|files| - 1], files[|files| - 1];
      RelevantEarns(roles, front);
      WorthGrows(GainOf(roles, last), GainOf(roles, last));
      assert Worths(Gains(roles, files))[..|files| - 1] == Worths(Gains(roles, front));
    }
  }

  /** Distinct files that all occur in `order` are a part of it. */
  lemma {:induction false} PartOf(part: seq<string>, order: seq<string>)
    requires NoRepeats(part) && forall p :: p in part ==> p in order
    ensures multiset(part) <= multiset(order)
  {
    if part != [] {
      var front, last := part[..|part| - 1], part[|part| - 1];
      assert part == front + [last];
      PartOf(front, order);
      assert last !in front && last in order;
    }
  }

  lemma {:induction false} MappedWithout<T, U>(f: T -> U, whole: seq<T>, i: nat)
    requires i < |whole|
    ensures multiset(Mapped(f, whole)) == multiset(Mapped(f, whole[..i] + whole[i + 1..])) + multiset{f(whole[i])}
  {
    var mapped := Mapped(f, whole[..i] + whole[i + 1..]);
    assert Mapped(f, whole) == mapped[..i] + [f(whole[i])] + mapped[i..];
    assert mapped == mapped[..i] + mapped[i..];
  }

  lemma {:induction false} MappedPart<T, U>(f: T -> U, part: seq<T>, whole: seq<T>)
    requires multiset(part) <= multiset(whole)
    ensures multiset(Mapped(f, part)) <= multiset(Mapped(f, whole))
  {
    if part != [] {
      var front, last := part[..|part| - 1], part[|part| - 1];
      assert part == front + [last];
      assert last in multiset(part) && last in multiset(whole);
      var i :| 0 <= i < |whole| && whole[i] == last;
      var rest := whole[..i] + whole[i + 1..];
      TakeOut(front, last, whole, i);
      MappedPart(f, front, rest);
      assert Mapped(f, part) == Mapped(f, front) + [f(last)];
      MappedWithout(f, whole, i);
    }
  }

  lemma {:induction false} IdealDescends(roles: map<string, Role>, order: seq<string>)
    ensures Descending(Worths(Ideal(roles, order))) && NonNegative(Worths(Ideal(roles, order)))
  {
    var sorted := Ideal(roles, order);
    SortSorts(Gains(roles, order), AtLeast());
    forall i, j | 0 <= i <= j < |sorted| ensures Worths(sorted)[i] >= Worths(sorted)[j] >= 0.0 {
      assert i == j || AtLeast()(sorted[i], sorted[j]);
      WorthGrows(sorted[j], sorted[i]);
    }
  }

  /** The ideal worths: descending, and a superset of what any ranking can earn. */
  lemma {:induction false} IdealContains(roles: map<string, Role>, order: seq<string>, ranked: seq<string>)
    requires NoRepeats(order) && (forall p :: p in order <==> p in roles) && NoRepeats(ranked)
    ensures var ideal := Worths(Ideal(roles, order));
      Descending(ideal) && NonNegative(ideal) && multiset(Positives(Worths(Gains(roles, ranked)))) <= multiset(ideal)
  {
    RelevantKeeps(roles, ranked);
    RelevantEarns(roles, ranked);
    PartOf(Relevant(roles, ranked), order);
    MappedPart(GainFunction(roles), Relevant(roles, ranked), order);
    SortPermutes(Gains(roles, order), AtLeast());
    SortSorts(Gains(roles, order), AtLeast());
    MappedPart(Worth, Gains(roles, Relevant(roles, ranked)), Ideal(roles, order));
    IdealDescends(roles, order);
  }

  lemma {:induction false} WorthsNonNegative(gains: seq<nat>)
    ensures NonNegative(Worths(gains))
  {
    forall i | 0 <= i < |gains| ensures Worths(gains)[i] >= 0.0 { WorthGrows(gains[i], gains[i]); }
  }

  lemma {:induction false} DcgNonNegative(x: seq<real>, d: nat -> real, n: nat)
    requires Discount(d) && NonNegative(x)
    ensures Dcg(x, d, n) >= 0.0
    ensures n >= 1 && At(x, 0) > 0.0 ==> Dcg(x, d, n) > 0.0
  {
    if n > 0 {
      DcgNonNegative(x, d, n - 1);
      var more := Scale(0.0, At(x, n - 1), d(n));
      if n == 1 && At(x, 0) > 0.0 { assert At(x, 0) * d(1) > 0.0; }
    }
  }

  /** Graded DCG never exceeds the ideal DCG, for any positive non-increasing
      discount, any relevance rows and any ranking. */
  lemma {:induction false} DcgBelowIdeal(roles: map<string, Role>, order: seq<string>, ranked: seq<string>,
                                         d: nat -> real, cutoff: nat)
    requires Discount(d) && cutoff >= 1 && |ranked| <= cutoff
    requires NoRepeats(order) && (forall p :: p in order <==> p in roles) && NoRepeats(ranked)
    ensures var x, ideal := Worths(Gains(roles, ranked)), Worths(Ideal(roles, order));
      0.0 <= Dcg(x, d, |ranked|) == Dcg(x, d, cutoff) <= Dcg(ideal, d, cutoff)
  {
    var x, ideal := Worths(Gains(roles, ranked)), Worths(Ideal(roles, order));
    WorthsNonNegative(Gains(roles, ranked));
    DcgNonNegative(x, d, |ranked|);
    DcgPastEnd(x, d, |ranked|, cutoff);
    IdealContains(roles, order, ranked);
    IdealDominates(x, ideal, cutoff);
    PrefixesDecide(x, ideal, d, cutoff);
  }

  /** The ideal DCG is positive as soon as any file has a role. */
  lemma {:induction false} IdealIsPositive(roles: map<string, Role>, order: seq<string>, d: nat -> real, cutoff: nat)
    requires Discount(d) && cutoff >= 1
    requires NoRepeats(order) && (forall p :: p in order <==> p in roles)
    ensures Dcg(Worths(Ideal(roles, order)), d, cutoff) > 0.0 <==> roles != map[]
    ensures Dcg(Worths(Ideal(roles, order)), d, cutoff) >= 0.0
  {
    var sorted := Ideal(roles, order);
    IdealDescends(roles, order);
    SortPermutes(Gains(roles, order), AtLeast());
    DcgNonNegative(Worths(sorted), d, cutoff);
    if order != [] { assert order[0] in order; }
    if roles == map[] {
      DcgPastEnd(Worths(sorted), d, 0, cutoff);
    } else {
      var p :| p in roles;
      assert p in order;
      assert sorted[0] in Gains(roles, order);
      WorthGrows(sorted[0], sorted[0]);
      assert At(Worths(sorted), 0) > 0.0;
    }
  }

  function ByGain(roles: map<string, Role>): (string, string) -> bool {
    (p: string, q: string) => GainOf(roles, p) >= GainOf(roles, q)
  }

  lemma {:induction false} InsertByGain(roles: map<string, Role>, p: string, files: seq<string>)
    ensures Gains(roles, Insert(p, files, ByGain(roles))) == Insert(GainOf(roles, p), Gains(roles, files), AtLeast())
  {
    if files == [] || ByGain(roles)(p, files[0]) {
      assert Gains(roles, [p] + files) == [GainOf(roles, p)] + Gains(roles, files);
    } else {
      InsertByGain(roles, p, files[1..]);
      assert Gains(roles, files)[1..] == Gains(roles, files[1..]);
      assert Gains(roles, [files[0]] + Insert(p, files[1..], ByGain(roles)))
          == [GainOf(roles, files[0])] + Gains(roles, Insert(p, files[1..], ByGain(roles)));
    }
  }

  lemma {:induction false} SortByGain(roles: map<string, Role>, files: seq<string>)
    ensures Gains(roles, Sort(files, ByGain(roles))) == Sort(Gains(roles, files), AtLeast())
  {
    if files != [] {
      SortByGain(roles, files[1..]);
      assert Gains(roles, files)[1..] == Gains(roles, files[1..]);
      InsertByGain(roles, files[0], Sort(files[1..], ByGain(roles)));
    }
  }

  lemma {:induction false} NoRepeatsByCount(s: seq<string>)
    ensures NoRepeats(s) <==> forall p :: multiset(s)[p] <= 1
  {
    if s != [] {
      var front, last := s[..|s| - 1], s[|s| - 1];
      assert s == front + [last] && multiset(s) == multiset(front) + multiset{last};
      NoRepeatsByCount(front);
      if last in front {
        var i :| 0 <= i < |front| && front[i] == last;
        assert s[i] == s[|s| - 1] && multiset(s)[last] >= 2;
      } else if NoRepeats(front) {
        assert forall p :: multiset(s)[p] == multiset(front)[p] + multiset{last}[p];
      } else {
        var i, j :| 0 <= i < j < |front| && front[i] == front[j];
        assert s[i] == s[j];
        var p :| multiset(front)[p] > 1;
        assert multiset(s)[p] > 1;
      }
    }
  }

  /** The ideal DCG is that of a ranking: the files with a role, best first, cut at the cutoff. */
  lemma {:induction false} IdealIsReached(roles: map<string, Role>, order: seq<string>, d: nat -> real, cutoff: nat)
    returns (best: seq<string>)
    requires NoRepeats(order) && forall p :: p in order <==> p in roles
    ensures NoRepeats(best) && |best| <= cutoff && forall p :: p in best ==> p in roles
    ensures Dcg(Worths(Gains(roles, best)), d, cutoff) == Dcg(Worths(Ideal(roles, order)), d, cutoff)
  {
    var sorted := Sort(order, ByGain(roles));
    SortByGain(roles, order);
    SortPermutes(order, ByGain(roles));
    NoRepeatsByCount(order);
    NoRepeatsByCount(sorted);
    best := sorted[..if |sorted| <= cutoff then |sorted| else cutoff];
    forall p | p in best ensures p in roles { assert p in sorted; }
    assert Gains(roles, best) == Cut(Ideal(roles, order), cutoff);
    IdealCut(roles, order, d, cutoff);
    DcgPastEnd(Worths(Gains(roles, best)), d, |best|, cutoff);
  }

  /** The graded score: DCG, ideal DCG and their quotient. */
  method GradedScore(roles: map<string, Role>, order: seq<string>, ranked: seq<string>, d: nat -> real, cutoff: nat)
    returns (dcg: real, idealDcg: real, ndcg: Option<real>)
    requires Discount(d) && cutoff >= 1 && |ranked| <= cutoff
    requires NoRepeats(order) && (forall p :: p in order <==> p in roles) && NoRepeats(ranked)
    ensures dcg == Dcg(Worths(Gains(roles, ranked)), d, cutoff)
    ensures idealDcg == Dcg(Worths(Ideal(roles, order)), d, cutoff)
    ensures 0.0 <= dcg <= idealDcg
    ensures ndcg.Some? <==> roles != map[]
    ensures ndcg.Some? ==> IsQuotient(ndcg.value, dcg, idealDcg)
  {
    dcg := ComputeDcg(Gains(roles, ranked), d, true);
    idealDcg := ComputeDcg(Cut(Ideal(roles, order), cutoff), d, false);
    DcgBelowIdeal(roles, order, ranked, d, cutoff);
    IdealCut(roles, order, d, cutoff);
    IdealIsPositive(roles, order, d, cutoff);
    ndcg := None;
    if idealDcg != 0.0 {
      var quotient := dcg / idealDcg;
      QuotientInUnit(dcg, idealDcg);
      ndcg := Some(quotient);
    }
  }

  /** The ranked share of all gains. */
  ghost predicate IsRecall(q: real, roles: map<string, Role>, order: seq<string>, ranked: seq<string>) {
    IsQuotient(q, Sum(Gains(roles, Relevant(roles, ranked))) as real, Sum(Gains(roles, order)) as real)
  }

  lemma {:induction false} PositiveSum(gains: seq<nat>)
    requires forall g :: g in gains ==> g > 0
    ensures Sum(gains) == 0 <==> gains == []
  {
    if gains != [] { assert gains[|gains| - 1] in gains; }
  }

  lemma {:induction false} SumWithout(gains: seq<nat>, i: nat)
    requires i < |gains|
    ensures Sum(gains) == Sum(gains[..i] + gains[i + 1..]) + gains[i]
  {
    var n, rest := |gains| - 1, gains[..i] + gains[i + 1..];
    if i == n {
      assert rest == gains[..n];
    } else {
      SumWithout(gains[..n], i);
      assert rest[..|rest| - 1] == gains[..n][..i] + gains[..n][i + 1..];
    }
  }

  /** A part sums to no more than the whole, and to as much only if it is all of
      it, when every gain is positive. */
  lemma {:induction false} SumOfPart(part: seq<nat>, whole: seq<nat>)
    requires multiset(part) <= multiset(whole) && forall g :: g in whole ==> g > 0
    ensures Sum(part) <= Sum(whole) && |part| <= |whole|
    ensures Sum(part) == Sum(whole) <==> |part| == |whole|
    decreases |whole|
  {
    if part == [] {
      PositiveSum(whole);
    } else {
      var front, last := part[..|part| - 1], part[|part| - 1];
      assert part == front + [last];
      assert last in multiset(part) && last in multiset(whole);
      var i :| 0 <= i < |whole| && whole[i] == last;
      TakeOut(front, last, whole, i);
      var rest := whole[..i] + whole[i + 1..];
      forall g | g in rest ensures g > 0 {
        var k :| 0 <= k < |rest| && rest[k] == g;
        assert whole[if k < i then k else k + 1] in whole;
      }
      SumOfPart(front, rest);
      SumWithout(whole, i);
    }
  }

  function Set(s: seq<string>): set<string> { set p | p in s }

  lemma {:induction false} SameSizeSubset(a: set<string>, b: set<string>)
    requires a <= b && |a| == |b|
    ensures a == b
  {
    assert b == a + (b - a);
  }

  lemma {:induction false} SetSize(s: seq<string>)
    requires NoRepeats(s)
    ensures |Set(s)| == |s|
  {
    if s != [] {
      var front, last := s[..|s| - 1], s[|s| - 1];
      assert s == front + [last];
      SetSize(front);
      assert Set(s) == Set(front) + {last} && last !in Set(front);
    }
  }

  lemma {:induction false} SizeOfPart(part: seq<string>, order: seq<string>)
    requires NoRepeats(part) && NoRepeats(order) && forall p :: p in part ==> p in order
    ensures |part| == |order| <==> forall p :: p in order ==> p in part
  {
    SetSize(part);
    SetSize(order);
    assert Set(part) <= Set(order);
    if |part| == |order| {
      SameSizeSubset(Set(part), Set(order));
      assert forall p :: p in order ==> p in Set(order);
    } else {
      assert (forall p :: p in order ==> p in part) ==> Set(part) == Set(order);
    }
  }

  /** Weighted recall is complete exactly when every file with a role is ranked. */
  lemma {:induction false} WeightedRecallIsExact(roles: map<string, Role>, order: seq<string>, ranked: seq<string>)
    requires NoRepeats(order) && (forall p :: p in order <==> p in roles) && NoRepeats(ranked)
    ensures var matched, total := Sum(Gains(roles, Relevant(roles, ranked))), Sum(Gains(roles, order));
      && matched <= total && (total == 0 <==> roles == map[])
      && (matched == total <==> forall p :: p in roles ==> p in ranked)
  {
    var hits := Relevant(roles, ranked);
    RelevantKeeps(roles, ranked);
    PartOf(hits, order);
    MappedPart(GainFunction(roles), hits, order);
    SumOfPart(Gains(roles, hits), Gains(roles, order));
    PositiveSum(Gains(roles, order));
    SizeOfPart(hits, order);
    if order != [] { assert order[0] in order; }
    if roles == map[] {
    } else {
      var p :| p in roles;
      assert p in order;
    }
  }

  /** The gain-weighted recall. */
  method WeightedRecall(roles: map<string, Role>, order: seq<string>, ranked: seq<string>)
    returns (recall: Option<real>)
    requires NoRepeats(order) && (forall p :: p in order <==> p in roles) && NoRepeats(ranked)
    ensures recall.Some? <==> roles != map[]
    ensures recall.Some? ==> IsRecall(recall.value, roles, order, ranked)
    ensures recall.Some? ==> (recall.value == 1.0 <==> forall p :: p in roles ==> p in ranked)
  {
    var total := ComputeSum(Gains(roles, order));
    var matched := ComputeSum(Gains(roles, Relevant(roles, ranked)));
    WeightedRecallIsExact(roles, order, ranked);
    if total != 0 { QuotientInUnit(matched as real, total as real); }
    recall := Share(matched, total);
  }

  function Cutoff(k: int): nat { if k > 1 then k else 1 }

  function RoleRecall(roles: map<string, Role>, r: Role, ranked: seq<string>): Option<real> {
    Share(|WithRole(roles, r) * Set(ranked)|, |WithRole(roles, r)|)
  }

  ghost predicate Enumerates(order: seq<string>, roles: map<string, Role>) {
    NoRepeats(order) && forall p :: p in order <==> p in roles
  }

  /** The files that have the role. */
  ghost function FilesOf(roles: map<string, Role>, r: Role, files: seq<string>): set<string> {
    set p | p in files && p in roles && roles[p] == r
  }

  ghost function AllOf(roles: map<string, Role>, r: Role): set<string> { set p | p in roles && roles[p] == r }

  lemma {:induction false} OneMoreFile(roles: map<string, Role>, r: Role, front: seq<string>, last: string)
    requires last !in front
    ensures |FilesOf(roles, r, front + [last])|
         == |FilesOf(roles, r, front)| + if last in roles && roles[last] == r then 1 else 0
  {
    if last in roles && roles[last] == r {
      assert FilesOf(roles, r, front + [last]) == FilesOf(roles, r, front) + {last};
    } else {
      assert FilesOf(roles, r, front + [last]) == FilesOf(roles, r, front);
    }
  }

  lemma {:induction false} OneMoreGain(roles: map<string, Role>, front: seq<string>, last: string)
    ensures Sum(Gains(roles, front + [last])) == Sum(Gains(roles, front)) + GainOf(roles, last)
  {
    assert Gains(roles, front + [last]) == Gains(roles, front) + [GainOf(roles, last)];
    assert (Gains(roles, front) + [GainOf(roles, last)])[..|front|] == Gains(roles, front);
  }

  /** Gains add up to 2 for every edit target and 1 for every supporting file. */
  lemma {:induction false} GainsInCounts(roles: map<string, Role>, files: seq<string>)
    requires NoRepeats(files)
    ensures Sum(Gains(roles, files))
         == 2 * |FilesOf(roles, EditTarget, files)| + |FilesOf(roles, SupportingContext, files)|
  {
    if files != [] {
      var front, last := files[..|files| - 1], files[|files| - 1];
      assert files == front + [last];
      GainsInCounts(roles, front);
      OneMoreGain(roles, front, last);
      OneMoreFile(roles, EditTarget, front, last);
      OneMoreFile(roles, SupportingContext, front, last);
    }
  }

  lemma {:induction false} SameGains(x: seq<nat>, y: seq<nat>, d: nat -> real)
    requires x <= y
    ensures Dcg(Worths(x), d, |x|) == Dcg(Worths(y), d, |x|)
  {
    DcgOfPrefix(Worths(x), Worths(y), d, |x|);
  }

  /** Every place of a ranking earns its discount three times for an edit target, once for
      a supporting file, and nothing for any other. */
  lemma {:induction false} PlacesEarn(roles: map<string, Role>, ranked: seq<string>, path: string, d: nat -> real)
    ensures Dcg(Worths(Gains(roles, [])), d, 0) == 0.0
    ensures Dcg(Worths(Gains(roles, ranked + [path])), d, |ranked| + 1)
         == Dcg(Worths(Gains(roles, ranked)), d, |ranked|)
            + (if path !in roles then 0.0 else if roles[path] == EditTarget then 3.0 else 1.0) * d(|ranked| + 1)
  {
    var longer := Gains(roles, ranked + [path]);
    assert longer == Gains(roles, ranked) + [GainOf(roles, path)];
    SameGains(Gains(roles, ranked), longer, d);
    assert Worth(0) == 0.0 && Worth(1) == 1.0;
    assert Pow2(2) == 2 * Pow2(1) == 4 && Worth(2) == 3.0;
    assert At(Worths(longer), |ranked|) == Worth(GainOf(roles, path));
  }

  /** A file has a role exactly if some row with a known role names it, and the last such row
      decides which. */
  lemma {:induction false} LastRoleWins(rows: seq<RelevanceRow>, path: string) returns (i: nat)
    ensures i <= |rows| && (path in RolesOf(rows) <==> i < |rows|)
    ensures i < |rows| ==> path != "" && rows[i].path == path && rows[i].role == Some(RolesOf(rows)[path])
    ensures forall j :: 0 <= j < |rows| && (j > i || i == |rows|) ==>
      rows[j].path == "" || rows[j].path != path || rows[j].role.None?
  {
    i := |rows|;
    if rows != [] {
      var n := |rows| - 1;
      i := LastRoleWins(rows[..n], path);
      assert forall j :: 0 <= j < n ==> rows[..n][j] == rows[j];
      if rows[n].path != "" && rows[n].role.Some? && rows[n].path == path {
        i := n;
      } else if i == n {
        i := |rows|;
      }
    }
  }

  /** The figures that compare with all files that have a role. */
  ghost predicate OverAllRoles(m: Metrics, roles: map<string, Role>, order: seq<string>, cutoff: nat, d: nat -> real)
    requires Enumerates(order, roles)
  {
    && m.idealDcg == Dcg(Worths(Ideal(roles, order)), d, cutoff)
    && (m.weightedRecall.Some? ==> IsRecall(m.weightedRecall.value, roles, order, m.ranked))
  }

  /** What a report says about a ranking. */
  ghost predicate IsReport(m: Metrics, items: seq<string>, roles: map<string, Role>, cutoff: nat, d: nat -> real) {
    && m.ranked == Truncated(Distinct(items), cutoff)
    && m.dcg == Dcg(Worths(Gains(roles, m.ranked)), d, cutoff)
    && 0.0 <= m.dcg <= m.idealDcg
    && (exists order :: Enumerates(order, roles) && OverAllRoles(m, roles, order, cutoff, d))
    && (m.ndcg.Some? <==> roles != map[])
    && (m.ndcg.Some? ==> IsQuotient(m.ndcg.value, m.dcg, m.idealDcg))
    && (m.weightedRecall.Some? <==> roles != map[])
    && (m.weightedRecall == Some(1.0) <==> roles != map[] && forall p :: p in roles ==> p in m.ranked)
    && m.editRecall == RoleRecall(roles, EditTarget, m.ranked)
    && m.supportRecall == RoleRecall(roles, SupportingContext, m.ranked)
  }

  /** `role_aware_file_metrics`; `items` are the files the ranked items name, ""
      for an item that names none. */
  method RoleAwareFileMetrics(items: seq<string>, rows: seq<RelevanceRow>, distractors: seq<string>, k: int,
                              d: nat -> real)
    returns (result: Option<Metrics>)
    requires Discount(d)
    ensures result.None? <==> rows == [] && distractors == []
    ensures result.Some? ==> IsReport(result.value, items, RolesOf(rows), Cutoff(k), d)
    ensures Cutoff(k) == if k > 1 then k else 1
  {
    if rows == [] && distractors == [] {
      return None;
    }
    var roles, order := CollectRoles(rows);
    var ranked := RankFiles(items, Cutoff(k));
    DistinctHasNoRepeats(items);
    var dcg, idealDcg, ndcg := GradedScore(roles, order, ranked, d, Cutoff(k));
    var weighted := WeightedRecall(roles, order, ranked);
    result := Some(Metrics(ranked, dcg, idealDcg, ndcg, weighted,
                           RoleRecall(roles, EditTarget, ranked), RoleRecall(roles, SupportingContext, ranked)));
    assert Enumerates(order, roles) && OverAllRoles(result.value, roles, order, Cutoff(k), d);
  }

  /** The share `part / whole`, or nothing when there is no whole. */
  ghost predicate IsShareOf(q: Option<real>, part: nat, whole: nat) {
    (q.None? <==> whole == 0) && (q.Some? ==> q.value * whole as real == part as real)
  }

  /** The recall of a role is the share of its files that are ranked. */
  lemma {:induction false} RecallMeans(roles: map<string, Role>, r: Role, ranked: seq<string>)
    ensures IsShareOf(RoleRecall(roles, r, ranked), |FilesOf(roles, r, ranked)|,
                      |AllOf(roles, r)|)
  {
    assert WithRole(roles, r) == AllOf(roles, r);
    assert WithRole(roles, r) * Set(ranked) == FilesOf(roles, r, ranked);
  }

  lemma {:induction false} WholeInCounts(roles: map<string, Role>, order: seq<string>)
    requires Enumerates(order, roles)
    ensures Sum(Gains(roles, order)) == 2 * |AllOf(roles, EditTarget)| + |AllOf(roles, SupportingContext)|
  {
    GainsInCounts(roles, order);
    assert FilesOf(roles, EditTarget, order) == AllOf(roles, EditTarget);
    assert FilesOf(roles, SupportingContext, order) == AllOf(roles, SupportingContext);
  }

  lemma {:induction false} RankedInCounts(roles: map<string, Role>, ranked: seq<string>)
    requires NoRepeats(ranked)
    ensures Sum(Gains(roles, Relevant(roles, ranked)))
         == 2 * |FilesOf(roles, EditTarget, ranked)| + |FilesOf(roles, SupportingContext, ranked)|
  {
    var hits := Relevant(roles, ranked);
    RelevantKeeps(roles, ranked);
    GainsInCounts(roles, hits);
    assert FilesOf(roles, EditTarget, hits) == FilesOf(roles, EditTarget, ranked);
    assert FilesOf(roles, SupportingContext, hits) == FilesOf(roles, SupportingContext, ranked);
  }

  /** The weighted recall in counts of files: an edit target weighs 2 and a supporting file 1. */
  lemma {:induction false} WeightedInCounts(q: real, roles: map<string, Role>, order: seq<string>, ranked: seq<string>)
    returns (matched: nat, total: nat)
    requires Enumerates(order, roles) && NoRepeats(ranked) && IsRecall(q, roles, order, ranked)
    ensures total == 2 * |AllOf(roles, EditTarget)| + |AllOf(roles, SupportingContext)|
    ensures matched == 2 * |FilesOf(roles, EditTarget, ranked)| + |FilesOf(roles, SupportingContext, ranked)|
    ensures IsQuotient(q, matched as real, total as real)
  {
    matched, total := Sum(Gains(roles, Relevant(roles, ranked))), Sum(Gains(roles, order));
    WholeInCounts(roles, order);
    RankedInCounts(roles, ranked);
  }

  // ---------------------------------------------------------- the perfect score

  /** With a strictly falling discount such as 1 / log2(rank + 1), the score is
      perfect exactly when the ranking lists the gains in ideal order. */
  lemma {:induction false} PerfectExactlyWhenIdeal(roles: map<string, Role>, order: seq<string>,
                                                   ranked: seq<string>, d: nat -> real, cutoff: nat)
    requires StrictDiscount(d) && cutoff >= 1 && |ranked| <= cutoff
    requires NoRepeats(order) && (forall p :: p in order <==> p in roles) && NoRepeats(ranked)
    ensures var x, ideal := Worths(Gains(roles, ranked)), Worths(Ideal(roles, order));
      Dcg(x, d, cutoff) == Dcg(ideal, d, cutoff) <==> forall i: nat :: i < cutoff ==> At(x, i) == At(ideal, i)
  {
    var x, ideal := Worths(Gains(roles, ranked)), Worths(Ideal(roles, order));
    WorthsNonNegative(Gains(roles, ranked));
    IdealContains(roles, order, ranked);
    IdealDominates(x, ideal, cutoff);
    if Dcg(x, d, cutoff) == Dcg(ideal, d, cutoff) {
      EqualDcgMeansEqualGains(x, ideal, d, cutoff);
    } else if forall i: nat :: i < cutoff ==> At(x, i) == At(ideal, i) {
      DcgOfPrefix(x, ideal, d, cutoff);
    }
  }
}
