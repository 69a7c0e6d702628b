/** The block of ignore patterns kept inside a text file the user also edits. */
module ManagedBlock {
  import opened Wrappers

  datatype Markers = Markers(begin: string, end: string, body: string)

  const PATTERNS: seq<string> := [
    "/ai-workspace/config/repositories.json", "/ai-workspace/generated/", "/ai-workspace/indexes/",
    "/ai-workspace/code-review-graph/", "/ai-workspace/memory/", "/.code-review-graph/", "/.ai/"]

  function Join(lines: seq<string>): string {
    if lines == [] then "" else if |lines| == 1 then lines[0] else lines[0] + ['\n'] + Join(lines[1..])
  }

  const BEGIN := "# >>> ai-workflow local state >>>"
  const END := "# <<< ai-workflow local state <<<"
  const LOCAL_EXCLUDE := Markers(BEGIN, END, Join(PATTERNS))

  datatype Outcome = Replaced(text: string) | Malformed(text: string) | NotFound

  // ---------------------------------------------------- searching, as Python does

  predicate Matches(s: string, m: string, at: int) { 0 <= at <= |s| - |m| && s[at..at + |m|] == m }

  /** `s.count(m)`: occurrences found left to right, without overlap. */
  function Count(s: string, m: string): nat
    requires m != []
  {
    if |s| < |m| then 0
    else if Matches(s, m, 0) then 1 + Count(s[|m|..], m)
    else Count(s[1..], m)
  }

  /** `s.index(m, from)`, or nothing where it raises. */
  function Index(s: string, m: string, from: nat): (at: Option<nat>)
    ensures at.None? ==> forall i: nat | from <= i :: !Matches(s, m, i)
    ensures at.Some? ==> from <= at.value && Matches(s, m, at.value)
    ensures at.Some? ==> forall i: nat | from <= i < at.value :: !Matches(s, m, i)
    decreases |s| - from
  {
    if from > |s| then None
    else if Matches(s, m, from) then Some(from)
    else Index(s, m, from + 1)
  }

  function Block(k: Markers): string { k.begin + ['\n'] + k.body + ['\n'] + k.end + ['\n'] }

  predicate EndsLine(s: string) { s != [] && s[|s| - 1] == '\n' }

  predicate EndsBlankLine(s: string) { |s| >= 2 && s[|s| - 1] == '\n' && s[|s| - 2] == '\n' }

  function NewlineUnless(s: string, done: bool): string { if s == [] || done then s else s + ['\n'] }

  /** The text before an appended block: a nonempty file gets a blank line. */
  function Prefix(existing: string): string {
    var line := NewlineUnless(existing, EndsLine(existing));
    NewlineUnless(line, EndsBlankLine(line))
  }

  /** At most two newlines are added, and just enough for a blank line. */
  lemma {:induction false} PrefixIsPadding(existing: string)
    ensures Prefix(existing) in {existing, existing + ['\n'], existing + ['\n'] + ['\n']}
    ensures if existing == [] then Prefix(existing) == [] else EndsBlankLine(Prefix(existing))
    ensures existing != [] ==> |Prefix(existing)| >= 2 && Prefix(existing)[|Prefix(existing)| - 2..] == "\n\n"
    ensures |existing| >= 2 && existing[|existing| - 2..] == "\n\n" ==> Prefix(existing) == existing
    ensures existing != [] && existing[|existing| - 1] == '\n' ==> |Prefix(existing)| <= |existing| + 1
  {
  }

  function ReplaceManagedBlock(k: Markers, existing: string): Outcome
    requires k.begin != [] && k.end != []
  {
    var begins, ends := Count(existing, k.begin), Count(existing, k.end);
    if begins != ends || begins > 1 then Malformed(existing)
    else if begins == 0 then Replaced(Prefix(existing) + Block(k))
    else
      match Index(existing, k.begin, 0)
      case None => NotFound
      case Some(start) =>
        match Index(existing, k.end, start)
        case None => NotFound
        case Some(at) =>
          var end := at + |k.end|;
          var rest := if end < |existing| && existing[end] == '\n' then end + 1 else end;
          Replaced(existing[..start] + Block(k) + existing[rest..])
  }

  // ----------------------------------------------------------- markers as lines

  /** A comment line: one '#', in front, and no newline. */
  predicate IsMarker(m: string) { m != [] && m[0] == '#' && (forall i | 1 <= i < |m| :: m[i] != '#') && '\n' !in m }

  predicate WellShaped(k: Markers) {
    IsMarker(k.begin) && IsMarker(k.end) && |k.begin| == |k.end| && k.begin != k.end && '#' !in k.body
  }

  /** Where a marker occurs. */
  ghost function Places(s: string, m: string): set<int> { set i | 0 <= i < |s| && Matches(s, m, i) }

  lemma {:induction false} MatchHead(s: string, m: string, i: int)
    requires Matches(s, m, i) && m != []
    ensures s[i] == m[0]
  {
    assert s[i] == s[i..i + |m|][0];
  }

  lemma {:induction false} NoOverlap(s: string, m: string, i: int)
    requires IsMarker(m) && Matches(s, m, 0) && 0 < i < |m|
    ensures !Matches(s, m, i)
  {
    assert s[i] == s[0..|m|][i] == m[i];
    if Matches(s, m, i) { MatchHead(s, m, i); }
  }

  lemma {:induction false} MatchesAfter(s: string, m: string, d: int, i: int)
    requires 0 <= d <= |s| && 0 <= i
    ensures Matches(s[d..], m, i) <==> Matches(s, m, d + i)
  {
    if i + |m| <= |s| - d { assert s[d..][i..i + |m|] == s[d + i..d + i + |m|]; }
  }

  ghost function Shifted(s: set<int>, d: int): set<int> { set i | i in s :: i + d }

  /** Occurrences split into one at the front, if any, and those past it. */
  lemma {:induction false} PlacesSplit(s: string, m: string, d: int)
    requires IsMarker(m) && |m| <= |s| && d == if Matches(s, m, 0) then |m| else 1
    ensures Places(s, m) == Shifted(Places(s[d..], m), d) + (if Matches(s, m, 0) then {0} else {})
  {
    forall i | 0 < i < d ensures !Matches(s, m, i) {
      NoOverlap(s, m, i);
    }
    forall i | 0 <= i ensures Matches(s[d..], m, i) <==> Matches(s, m, d + i) {
      MatchesAfter(s, m, d, i);
    }
    forall i | i in Places(s, m) && i > 0 ensures i in Shifted(Places(s[d..], m), d) {
      assert Matches(s[d..], m, i - d);
      assert i - d in Places(s[d..], m);
    }
  }

  lemma {:induction false} ShiftKeepsSize(s: set<int>, d: int)
    ensures |Shifted(s, d)| == |s|
  {
    if !(exists x :: x in s) {
      assert s == {} && Shifted(s, d) == {};
    } else {
      var x :| x in s;
      ShiftKeepsSize(s - {x}, d);
      var rest := Shifted(s - {x}, d);
      assert x + d !in rest;
      assert Shifted(s, d) == rest + {x + d} by {
        forall i | i in Shifted(s, d) ensures i in rest + {x + d} {
          assert i - d in s;
          if i != x + d { assert i - d in s - {x}; }
        }
        assert x in s;
      }
    }
  }

  /** Occurrences of a marker cannot overlap, so counting finds them all. */
  lemma {:induction false} CountFindsAll(s: string, m: string)
    requires IsMarker(m)
    ensures Count(s, m) == |Places(s, m)|
    decreases |s|
  {
    if |s| < |m| {
      assert Places(s, m) == {};
    } else {
      var d := if Matches(s, m, 0) then |m| else 1;
      CountFindsAll(s[d..], m);
      PlacesSplit(s, m, d);
      ShiftKeepsSize(Places(s[d..], m), d);
      assert 0 !in Shifted(Places(s[d..], m), d);
    }
  }

  predicate OnlyAt(s: string, m: string, at: int) {
    Matches(s, m, at) && forall i | 0 <= i <= |s| :: Matches(s, m, i) ==> i == at
  }

  predicate Nowhere(s: string, m: string) { forall i | 0 <= i <= |s| :: !Matches(s, m, i) }

  lemma {:induction false} CountZero(s: string, m: string)
    requires IsMarker(m)
    ensures Count(s, m) == 0 <==> Nowhere(s, m)
  {
    CountFindsAll(s, m);
    if Count(s, m) == 0 {
      forall i | 0 <= i <= |s| ensures !Matches(s, m, i) {
        assert i !in Places(s, m);
      }
    } else {
      assert Places(s, m) != {};
      var i :| i in Places(s, m);
    }
  }

  lemma {:induction false} SingletonIs(s: set<int>, x: int)
    requires |s| == 1 && x in s
    ensures s == {x}
  {
    assert |s - {x}| == 0;
  }

  lemma {:induction false} CountOne(s: string, m: string)
    requires IsMarker(m)
    ensures forall at :: OnlyAt(s, m, at) ==> Count(s, m) == 1
    ensures Count(s, m) == 1 ==> Index(s, m, 0).Some? && OnlyAt(s, m, Index(s, m, 0).value)
  {
    CountFindsAll(s, m);
    forall at | OnlyAt(s, m, at) ensures Count(s, m) == 1 {
      assert Places(s, m) == {at};
    }
    if Count(s, m) == 1 {
      var at :| at in Places(s, m);
      SingletonIs(Places(s, m), at);
      assert OnlyAt(s, m, at) by {
        forall i | 0 <= i <= |s| && Matches(s, m, i) ensures i == at {
          assert i in Places(s, m);
        }
      }
    }
  }

  // --------------------------------------------------- no marker spans a boundary

  /** A marker does not reach across a newline, nor across another marker's start. */
  predicate Apart(a: string, b: string) {
    a == [] || b == [] || a[|a| - 1] == '\n' || b[0] == '#' || b[0] == '\n'
  }

  lemma {:induction false} MatchesInParts(a: string, b: string, m: string, at: int)
    requires IsMarker(m) && Apart(a, b)
    ensures Matches(a + b, m, at) <==> Matches(a, m, at) || Matches(b, m, at - |a|)
  {
    var s := a + b;
    if 0 <= at && at + |m| <= |a| {
      assert s[at..at + |m|] == a[at..at + |m|];
    } else if |a| <= at && at + |m| <= |s| {
      assert s[at..at + |m|] == b[at - |a|..at - |a| + |m|];
    } else if 0 <= at && at + |m| <= |s| {
      var cut := |a| - at;
      assert s[at..at + |m|][cut] == b[0] && s[at..at + |m|][cut - 1] == a[|a| - 1];
    }
  }

  lemma {:induction false} NowhereInParts(a: string, b: string, m: string)
    requires IsMarker(m) && Apart(a, b)
    ensures Nowhere(a + b, m) <==> Nowhere(a, m) && Nowhere(b, m)
  {
    forall i ensures Matches(a + b, m, i) <==> Matches(a, m, i) || Matches(b, m, i - |a|) {
      MatchesInParts(a, b, m, i);
    }
    if Nowhere(a + b, m) {
      forall i | 0 <= i <= |b| ensures !Matches(b, m, i) {
        assert !Matches(a + b, m, i + |a|);
      }
    }
  }

  lemma {:induction false} OnlyInLeft(a: string, b: string, m: string, at: int)
    requires IsMarker(m) && Apart(a, b) && OnlyAt(a, m, at) && Nowhere(b, m)
    ensures OnlyAt(a + b, m, at)
  {
    forall i ensures Matches(a + b, m, i) <==> Matches(a, m, i) || Matches(b, m, i - |a|) {
      MatchesInParts(a, b, m, i);
    }
  }

  lemma {:induction false} OnlyInRight(a: string, b: string, m: string, at: int)
    requires IsMarker(m) && Apart(a, b) && Nowhere(a, m) && OnlyAt(b, m, at)
    ensures OnlyAt(a + b, m, |a| + at)
  {
    forall i ensures Matches(a + b, m, i) <==> Matches(a, m, i) || Matches(b, m, i - |a|) {
      MatchesInParts(a, b, m, i);
    }
  }

  function EndAt(k: Markers): nat { |k.begin| + |k.body| + 2 }

  /** The block holds each marker once. */
  lemma {:induction false} BlockHoldsOne(k: Markers)
    requires WellShaped(k)
    ensures OnlyAt(Block(k), k.begin, 0) && OnlyAt(Block(k), k.end, EndAt(k))
  {
    var block := Block(k);
    forall i | 0 <= i < |block| && i != 0 && i != EndAt(k) ensures block[i] != '#' {
      if i < |k.begin| { assert block[i] == k.begin[i]; }
      else if |k.begin| < i < EndAt(k) - 1 { assert block[i] == k.body[i - |k.begin| - 1]; }
      else if EndAt(k) < i < |block| - 1 { assert block[i] == k.end[i - EndAt(k)]; }
    }
    assert block[..|k.begin|] == k.begin && block[EndAt(k)..EndAt(k) + |k.end|] == k.end;
    forall i, m | Matches(block, m, i) && (m == k.begin || m == k.end) ensures i == 0 || i == EndAt(k) {
      assert block[i] == block[i..i + |m|][0];
    }
  }

  lemma {:induction false} NewlineIsNoMarker(m: string)
    requires IsMarker(m)
    ensures Nowhere(['\n'], m)
  {
    assert forall i | 0 <= i <= 1 :: Matches(['\n'], m, i) ==> ['\n'][0..|m|] == m;
  }

  lemma {:induction false} PrefixAddsNothing(existing: string, m: string)
    requires IsMarker(m) && Nowhere(existing, m)
    ensures Nowhere(Prefix(existing), m)
  {
    NowhereInParts(existing, ['\n'], m);
    NowhereInParts(existing + ['\n'], ['\n'], m);
    NewlineIsNoMarker(m);
  }

  // ------------------------------------------------------------- main theorems

  /** A file that holds the block once, between `before` and `after`. */
  predicate Holds(k: Markers, text: string, before: string, after: string)
    requires WellShaped(k)
  {
    && text == before + Block(k) + after
    && OnlyAt(text, k.begin, |before|) && OnlyAt(text, k.end, |before| + EndAt(k))
  }

  lemma {:induction false} PlacingTheBlock(k: Markers, before: string, after: string)
    requires WellShaped(k)
    requires Nowhere(before, k.begin) && Nowhere(before, k.end) && Nowhere(after, k.begin) && Nowhere(after, k.end)
    ensures Holds(k, before + Block(k) + after, before, after)
  {
    BlockHoldsOne(k);
    OnlyInRight(before, Block(k), k.begin, 0);
    OnlyInRight(before, Block(k), k.end, EndAt(k));
    OnlyInLeft(before + Block(k), after, k.begin, |before|);
    OnlyInLeft(before + Block(k), after, k.end, |before| + EndAt(k));
  }

  lemma {:induction false} SliceOfSlice(s: string, lo: int, hi: int, i: int, j: int)
    requires 0 <= lo <= hi <= |s| && 0 <= i <= j <= hi - lo
    ensures s[lo..hi][i..j] == s[lo + i..lo + j]
  {
    var part, whole := s[lo..hi][i..j], s[lo + i..lo + j];
    assert |part| == |whole|;
    assert forall k | 0 <= k < |part| :: part[k] == s[lo..hi][i + k] && whole[k] == s[lo + i + k];
  }

  lemma {:induction false} SlicesOfNowhere(s: string, m: string, begin: int, lo: int, hi: int)
    requires IsMarker(m) && OnlyAt(s, m, begin) && 0 <= lo <= hi <= |s|
    requires begin < lo || hi < begin + |m|
    ensures Nowhere(s[lo..hi], m)
  {
    forall i | 0 <= i <= hi - lo ensures !Matches(s[lo..hi], m, i) {
      if Matches(s[lo..hi], m, i) {
        SliceOfSlice(s, lo, hi, i, i + |m|);
        assert Matches(s, m, lo + i);
      }
    }
  }

  function AfterBlock(s: string, end: int): string
    requires 0 <= end <= |s|
  {
    if end < |s| && s[end] == '\n' then s[end + 1..] else s[end..]
  }

  /** The text kept around the block: everything outside the one old block, or
      everything, when there was none. */
  ghost predicate Kept(k: Markers, existing: string, before: string, after: string) {
    if Nowhere(existing, k.begin) then before == Prefix(existing) && after == []
    else
      exists start, at | OnlyAt(existing, k.begin, start) && OnlyAt(existing, k.end, at) && start < at ::
        before == existing[..start]
        && after == AfterBlock(existing, at + |k.end|)
  }

  lemma {:induction false} ReplaceOld(k: Markers, existing: string, start: int,
                                      at: int) returns (before: string, after: string)
    requires WellShaped(k) && OnlyAt(existing, k.begin, start) && OnlyAt(existing, k.end, at) && start < at
    ensures before == existing[..start] && after == AfterBlock(existing, at + |k.end|)
    ensures Holds(k, before + Block(k) + after, before, after)
  {
    before, after := existing[..start], AfterBlock(existing, at + |k.end|);
    var rest := |existing| - |after|;
    assert after == existing[rest..|existing|] && before == existing[0..start];
    SlicesOfNowhere(existing, k.begin, start, 0, start);
    SlicesOfNowhere(existing, k.end, at, 0, start);
    SlicesOfNowhere(existing, k.begin, start, rest, |existing|);
    SlicesOfNowhere(existing, k.end, at, rest, |existing|);
    PlacingTheBlock(k, before, after);
  }

  lemma {:induction false} AppendNew(k: Markers, existing: string)
    requires WellShaped(k) && Nowhere(existing, k.begin) && Nowhere(existing, k.end)
    ensures Holds(k, Prefix(existing) + Block(k), Prefix(existing), [])
  {
    PrefixAddsNothing(existing, k.begin);
    PrefixAddsNothing(existing, k.end);
    PlacingTheBlock(k, Prefix(existing), []);
    assert Prefix(existing) + Block(k) + [] == Prefix(existing) + Block(k);
  }

  lemma {:induction false} Located(k: Markers, existing: string) returns (start: int, at: int)
    requires WellShaped(k) && ReplaceManagedBlock(k, existing).Replaced? && Count(existing, k.begin) != 0
    ensures OnlyAt(existing, k.begin, start) && OnlyAt(existing, k.end, at) && start < at
    ensures ReplaceManagedBlock(k, existing).text == existing[..start] + Block(k) + AfterBlock(existing, at + |k.end|)
  {
    CountOne(existing, k.begin);
    CountOne(existing, k.end);
    start := Index(existing, k.begin, 0).value;
    at := Index(existing, k.end, start).value;
    assert start != at;
  }

  /** Whatever the file held, a successful call leaves exactly one begin and one
      end marker and keeps the text before and after the old block. */
  lemma {:induction false} ReplaceHolds(k: Markers, existing: string) returns (before: string, after: string)
    requires WellShaped(k) && ReplaceManagedBlock(k, existing).Replaced?
    ensures Holds(k, ReplaceManagedBlock(k, existing).text, before, after) && Kept(k, existing, before, after)
  {
    CountZero(existing, k.begin);
    CountZero(existing, k.end);
    if Count(existing, k.begin) == 0 {
      before, after := Prefix(existing), [];
      AppendNew(k, existing);
    } else {
      var start, at := Located(k, existing);
      before, after := ReplaceOld(k, existing, start, at);
    }
  }

  lemma {:induction false} AroundTheBlock(k: Markers, text: string, before: string, after: string)
    requires WellShaped(k) && text == before + Block(k) + after
    ensures var end := |before| + EndAt(k) + |k.end|;
      end < |text| && text[end] == '\n' && text[..|before|] == before && text[end + 1..] == after
  {
    var end := |before| + EndAt(k) + |k.end|;
    assert text[end] == Block(k)[end - |before|] == '\n';
  }

  /** Replacing in a file that holds the block changes nothing. */
  lemma {:induction false} ReplaceInPlace(k: Markers, text: string, before: string, after: string)
    requires WellShaped(k) && Holds(k, text, before, after)
    ensures ReplaceManagedBlock(k, text) == Replaced(text)
  {
    CountOne(text, k.begin);
    CountOne(text, k.end);
    AroundTheBlock(k, text, before, after);
  }

  /** Installing twice is installing once. */
  lemma {:induction false} ReplaceIsIdempotent(k: Markers, existing: string)
    requires WellShaped(k) && ReplaceManagedBlock(k, existing).Replaced?
    ensures ReplaceManagedBlock(k, ReplaceManagedBlock(k, existing).text) == ReplaceManagedBlock(k, existing)
    ensures Count(ReplaceManagedBlock(k, existing).text, k.begin) == 1
    ensures Count(ReplaceManagedBlock(k, existing).text, k.end) == 1
  {
    var before, after := ReplaceHolds(k, existing);
    var text := ReplaceManagedBlock(k, existing).text;
    ReplaceInPlace(k, text, before, after);
    CountOne(text, k.begin);
    CountOne(text, k.end);
  }

  /** The call raises exactly when the one end marker precedes the one begin marker. */
  lemma {:induction false} RaisesExactly(k: Markers, existing: string)
    requires WellShaped(k)
    ensures ReplaceManagedBlock(k, existing).NotFound?
       <==> exists start, at :: OnlyAt(existing, k.begin, start) && OnlyAt(existing, k.end, at) && at < start
  {
    CountOne(existing, k.begin);
    CountOne(existing, k.end);
  }

  /** The call leaves the file alone and says so exactly when the markers do not occur equally
      often, or more than once. */
  lemma {:induction false} MalformedExactly(k: Markers, existing: string)
    requires WellShaped(k)
    ensures ReplaceManagedBlock(k, existing) == Malformed(existing)
       <==> |Places(existing, k.begin)| != |Places(existing, k.end)| || |Places(existing, k.begin)| > 1
    ensures ReplaceManagedBlock(k, existing).Malformed? ==> ReplaceManagedBlock(k, existing).text == existing
  {
    CountFindsAll(existing, k.begin);
    CountFindsAll(existing, k.end);
  }

  lemma {:induction false} MarkerStandsAlone(m: string, other: string)
    requires IsMarker(m) && IsMarker(other) && |m| == |other| && m != other
    ensures OnlyAt(m, m, 0) && Nowhere(m, other)
  {
    assert m[0..|m|] == m;
  }

  /** Two lines are enough: the end marker, then the begin marker. */
  lemma {:induction false} SwappedMarkersRaise(k: Markers)
    requires WellShaped(k)
    ensures ReplaceManagedBlock(k, k.end + ['\n'] + k.begin).NotFound?
  {
    MarkerStandsAlone(k.end, k.begin);
    MarkerStandsAlone(k.begin, k.end);
    NewlineIsNoMarker(k.end);
    NewlineIsNoMarker(k.begin);
    OnlyInLeft(k.end, ['\n'], k.end, 0);
    OnlyInLeft(k.end + ['\n'], k.begin, k.end, 0);
    NowhereInParts(k.end, ['\n'], k.begin);
    OnlyInRight(k.end + ['\n'], k.begin, k.begin, 0);
    RaisesExactly(k, k.end + ['\n'] + k.begin);
  }

  lemma {:induction false} BeginIsMarker()
    ensures IsMarker(BEGIN) && |BEGIN| == 33 && BEGIN[2] == '>'
  {
    assert '\n' !in BEGIN;
  }

  lemma {:induction false} EndIsMarker()
    ensures IsMarker(END) && |END| == 33 && END[2] == '<'
  {
    assert '\n' !in END;
  }

  lemma {:induction false} PatternsHaveNoHash()
    ensures forall i | 0 <= i < |PATTERNS| :: '#' !in PATTERNS[i]
  {
  }

  lemma {:induction false} JoinHasNoHash(lines: seq<string>)
    requires forall i | 0 <= i < |lines| :: '#' !in lines[i]
    ensures '#' !in Join(lines)
  {
    if |lines| > 1 { JoinHasNoHash(lines[1..]); }
  }

  /** The markers and patterns in use have the shape the theorems ask for. */
  lemma {:induction false} LocalExcludeIsWellShaped()
    ensures WellShaped(LOCAL_EXCLUDE)
  {
    BeginIsMarker();
    EndIsMarker();
    PatternsHaveNoHash();
    JoinHasNoHash(PATTERNS);
    assert BEGIN[2] != END[2];
  }

  lemma {:induction false} JoinHasLine(lines: seq<string>, i: nat) returns (before: string, after: string)
    requires i < |lines|
    ensures "\n" + Join(lines) + "\n" == before + ("\n" + lines[i] + "\n") + after
  {
    if |lines| == 1 {
      before, after := "", "";
    } else if i == 0 {
      before, after := "", Join(lines[1..]) + "\n";
    } else {
      var before', after' := JoinHasLine(lines[1..], i - 1);
      before, after := "\n" + lines[0] + before', after';
      assert "\n" + Join(lines) + "\n" == "\n" + lines[0] + ("\n" + Join(lines[1..]) + "\n");
    }
  }

  lemma {:induction false} Around(x: string, p: string, inner: string, q: string, y: string)
    ensures x + (p + inner + q) + y == (x + p) + inner + (q + y)
  {
  }

  lemma {:induction false} BodyInBlock(k: Markers)
    ensures Block(k) == k.begin + ("\n" + k.body + "\n") + (k.end + "\n")
  {
  }

  /** After a successful call every line of the body stands in the file, on a line of its own. */
  lemma {:induction false} BodyIsInstalled(k: Markers, lines: seq<string>, existing: string, i: nat)
    returns (before: string, after: string)
    requires WellShaped(k) && k.body == Join(lines) && i < |lines|
    requires ReplaceManagedBlock(k, existing).Replaced?
    ensures ReplaceManagedBlock(k, existing).text == before + ("\n" + lines[i] + "\n") + after
  {
    var front, back := ReplaceHolds(k, existing);
    var before', after' := JoinHasLine(lines, i);
    BodyInBlock(k);
    Around(front, k.begin, "\n" + k.body + "\n", k.end + "\n", back);
    before, after := (front + k.begin) + before', after' + (k.end + "\n" + back);
    Around(front + k.begin, before', "\n" + lines[i] + "\n", after', k.end + "\n" + back);
  }

  /** For the block in use and any file: a second installation changes nothing. */
  lemma {:induction false} InstallIsIdempotent(existing: string)
    requires ReplaceManagedBlock(LOCAL_EXCLUDE, existing).Replaced?
    ensures ReplaceManagedBlock(LOCAL_EXCLUDE, ReplaceManagedBlock(LOCAL_EXCLUDE, existing).text)
         == ReplaceManagedBlock(LOCAL_EXCLUDE, existing)
  {
    LocalExcludeIsWellShaped();
    ReplaceIsIdempotent(LOCAL_EXCLUDE, existing);
  }
}
