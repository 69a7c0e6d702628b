/** The replay journal: a hash chain of seven decision events, built from a run
    record and verified from a stored one. */
module RunJournal {
  import opened Wrappers
  import opened Text

  const SCHEMA := "ai-workflow-run-journal-v2"
  const MODE := "decision-history-only"
  const RETRIEVAL := "retrieval"
  const SELECTION := "selection"
  const EVIDENCE := "selected_evidence"
  const CHANGED := "changed_files"
  const KINDS: seq<string> :=
    ["routing", "repository_routing", RETRIEVAL, "ranking", SELECTION, "orchestration", "authorization"]
  const OBJECTS: seq<string> :=
    ["policy_identity", "workspace_state", "graph_state", "repository_state", "provider_versions", RETRIEVAL]
  const MAX_CHANGED_FILES := 4096
  const MAX_CHANGED_FILE_CHARS := 4096

  /** A JSON value; a float is its floor and the rest, and a non-finite one can be
      read but not written canonically. */
  datatype Value =
    | Null | Bool(flag: bool) | Int(number: int) | Float(floor: int, fraction: real) | NotFinite
    | Str(text: string) | List(items: seq<Value>) | Object(fields: Fields)

  type Fields = map<string, Value>

  /** SHA-256 of the canonical event body, told apart from any other text. */
  datatype Digest =
    | Sha256(sequence: nat, kind: string, previous: Option<Digest>, payload: Fields)
    | OtherText(text: string)

  /** A stored event: `extra` holds keys the chain knows nothing about. */
  datatype Entry =
    | NotAMapping
    | Event(sequence: Value, kind: string, previous: Option<Digest>, payload: Option<Fields>, digest: Digest,
            extra: Fields)

  /** An event as handed to the builder. */
  datatype RawEvent = RawEvent(kind: string, payload: Option<Fields>)

  /** Everything in a record except its own digest. */
  datatype Body = Body(schema: string, mode: string, runId: Option<string>, fields: Fields,
                       events: Option<seq<Entry>>, count: Value, head: Option<Digest>)

  datatype Seal = SealOf(body: Body) | OtherSeal(text: string)

  datatype Journal = Journal(body: Body, seal: Seal)

  datatype Fault =
    | SchemaVersionMismatch | ReplayModeMismatch | RunIdInvalid | ExpectedRunIdInvalid | RunIdMismatch
    | ObjectInvalid(key: string) | SelectedEvidenceInvalid | ChangedFilesInvalid | ReplayEventsMissing
    | EventContractCountMismatch | EventInvalid(at: nat) | SequenceMismatch(at: nat) | KindMismatch(at: nat)
    | ShapeInvalid(at: nat) | PreviousDigestMismatch(at: nat) | DigestUnverifiable(at: nat) | DigestMismatch(at: nat)
    | EventCountMismatch | HeadDigestMismatch | RetrievalSnapshotMismatch | SelectionSnapshotMismatch
    | JournalDigestUnverifiable | JournalDigestMismatch

  datatype BuildError = InvalidRunId | NotEncodable | MissingObject | MissingEvidence | BadChangedFiles
                      | EventContract | BlankKind | PayloadNotObject

  datatype Report = Report(valid: bool, errors: seq<Fault>, eventCount: nat, head: Option<Digest>)

  // -------------------------------------------------------------- small pieces

  predicate Encodable(v: Value) {
    match v
    case NotFinite => false
    case List(items) => forall i | 0 <= i < |items| :: Encodable(items[i])
    case Object(fields) => forall k | k in fields :: Encodable(fields[k])
    case _ => true
  }

  predicate EncodableFields(fields: Fields) { forall k | k in fields :: Encodable(fields[k]) }

  predicate EncodableEntry(e: Entry) {
    e.Event? ==>
      && Encodable(e.sequence) && EncodableFields(e.extra)
      && (e.payload.Some? ==> EncodableFields(e.payload.value))
  }

  predicate EncodableBody(b: Body) {
    && EncodableFields(b.fields) && Encodable(b.count)
    && (b.events.Some? ==> forall i | 0 <= i < |b.events.value| :: EncodableEntry(b.events.value[i]))
  }

  /** Python's `==` between a JSON value and an integer. */
  predicate IsNumber(v: Value, n: int) {
    match v
    case Int(k) => k == n
    case Float(floor, fraction) => floor == n && fraction == 0.0
    case Bool(b) => n == if b then 1 else 0
    case _ => false
  }

  function Get(fields: Fields, key: string): Value { if key in fields then fields[key] else Null }

  predicate IsWordChar(c: char) { 'a' <= c <= 'z' || 'A' <= c <= 'Z' || '0' <= c <= '9' || c == '-' || c == '_' }

  function SafeRunId(raw: string): Option<string> {
    var value := Strip(raw);
    if value != [] && forall i | 0 <= i < |value| :: IsWordChar(value[i]) then Some(value) else None
  }

  predicate IsPath(v: Value) {
    v.Str? && 0 < |v.text| <= MAX_CHANGED_FILE_CHARS && '\0' !in v.text
  }

  predicate ChangedFilesOk(fields: Fields) {
    var raw := Get(fields, CHANGED);
    raw.List? && |raw.items| <= MAX_CHANGED_FILES && forall i | 0 <= i < |raw.items| :: IsPath(raw.items[i])
  }

  predicate ObjectsOk(fields: Fields) { forall i | 0 <= i < |OBJECTS| :: Get(fields, OBJECTS[i]).Object? }

  function When(condition: bool, fault: Fault): (faults: seq<Fault>)
    ensures |faults| == if condition then 1 else 0
  {
    if condition then [fault] else []
  }

  /** `kinds` is the event contract, always `KINDS` in the end. */
  predicate RightKind(kinds: seq<string>, kind: string, i: nat) { i < |kinds| ==> kind == kinds[i] }

  // ----------------------------------------------------------- what a chain is

  function PreviousDigest(entries: seq<Entry>, i: nat): Option<Digest>
    requires i <= |entries|
  {
    if i == 0 || entries[i - 1].NotAMapping? then None else Some(entries[i - 1].digest)
  }

  /** Event `i` is well formed, points at its predecessor and carries its own digest. */
  predicate Linked(entries: seq<Entry>, i: nat)
    requires i < |entries|
  {
    var e := entries[i];
    && e.Event? && IsNumber(e.sequence, i) && Strip(e.kind) != [] && e.payload.Some?
    && e.previous == PreviousDigest(entries, i) && EncodableFields(e.payload.value)
    && e.digest == Sha256(i, Strip(e.kind), e.previous, e.payload.value)
  }

  predicate IsChain(entries: seq<Entry>) { forall i | 0 <= i < |entries| :: Linked(entries, i) }

  predicate SameEvent(a: Entry, b: Entry) {
    && a.Event? && b.Event? && Strip(a.kind) == Strip(b.kind)
    && a.previous == b.previous && a.payload == b.payload && a.digest == b.digest
  }

  /** What a chain says, without the parts no digest covers. */
  predicate SameHistory(a: seq<Entry>, b: seq<Entry>) {
    && |a| == |b|
    && forall i | 0 <= i < |a| :: SameEvent(a[i], b[i])
  }

  lemma {:induction false} PrefixIsChain(a: seq<Entry>)
    requires IsChain(a) && a != []
    ensures IsChain(a[..|a| - 1])
    ensures PreviousDigest(a[..|a| - 1], |a| - 1) == PreviousDigest(a, |a| - 1)
  {
    var front := a[..|a| - 1];
    forall i | 0 <= i < |front| ensures Linked(front, i) {
      assert Linked(a, i);
    }
  }

  /** Equal head digests mean equal histories: nothing was dropped, added,
      reordered or edited. */
  lemma {:induction false} SameHeadSameHistory(a: seq<Entry>, b: seq<Entry>)
    requires IsChain(a) && IsChain(b)
    requires PreviousDigest(a, |a|) == PreviousDigest(b, |b|)
    ensures SameHistory(a, b)
    decreases |a|
  {
    if a != [] {
      assert Linked(a, |a| - 1);
    }
    if b != [] {
      assert Linked(b, |b| - 1);
    }
    if a != [] && b != [] {
      var front, other := a[..|a| - 1], b[..|b| - 1];
      PrefixIsChain(a);
      PrefixIsChain(b);
      SameHeadSameHistory(front, other);
      forall i | 0 <= i < |a| ensures SameEvent(a[i], b[i]) {
        if i < |a| - 1 {
          assert a[i] == front[i] && b[i] == other[i];
        }
      }
    }
  }

  /** The head digest of a chain tells exactly its history. */
  lemma {:induction false} SameHeadExactly(a: seq<Entry>, b: seq<Entry>)
    requires IsChain(a) && IsChain(b)
    ensures PreviousDigest(a, |a|) == PreviousDigest(b, |b|) <==> SameHistory(a, b)
  {
    if PreviousDigest(a, |a|) == PreviousDigest(b, |b|) {
      SameHeadSameHistory(a, b);
    }
  }

  /** Event `i` as `chain_replay_events` writes it: a stripped kind, the position
      as a plain integer, no foreign keys. */
  predicate IsPlain(e: Entry, i: nat) {
    e.Event? && e.kind == Strip(e.kind) && e.sequence == Int(i) && e.extra == map[]
  }

  predicate AllPlain(entries: seq<Entry>) { forall i | 0 <= i < |entries| :: IsPlain(entries[i], i) }

  function Plain(e: Entry, i: nat): Entry
    requires e.Event?
  {
    e.(kind := Strip(e.kind), sequence := Int(i), extra := map[])
  }

  /** The chain without its decoration. */
  function Undecorated(entries: seq<Entry>): (plain: seq<Entry>)
    requires IsChain(entries)
    ensures |plain| == |entries|
    ensures forall i | 0 <= i < |entries| :: Linked(entries, i) && plain[i] == Plain(entries[i], i)
  {
    seq(|entries|, i requires 0 <= i < |entries| => assert Linked(entries, i); Plain(entries[i], i))
  }

  /** Removing the decoration gives a plain chain with the same head, and the same
      chain exactly when there was none. */
  lemma {:induction false} UndecoratedIsChain(a: seq<Entry>)
    requires IsChain(a)
    ensures IsChain(Undecorated(a)) && AllPlain(Undecorated(a))
    ensures PreviousDigest(Undecorated(a), |a|) == PreviousDigest(a, |a|)
    ensures Undecorated(a) == a <==> AllPlain(a)
  {
    var plain := Undecorated(a);
    forall i | 0 <= i < |a| ensures Linked(plain, i) && IsPlain(plain[i], i) {
      assert Linked(a, i);
      StripIsIdempotent(a[i].kind);
      assert i > 0 ==> Linked(a, i - 1) && plain[i - 1].digest == a[i - 1].digest;
    }
    if a != [] { assert Linked(a, |a| - 1) && Linked(plain, |a| - 1); }
  }

  lemma {:induction false} PlainIsUndecorated(a: seq<Entry>)
    requires IsChain(a)
    ensures AllPlain(a) ==> Undecorated(a) == a
  {
    UndecoratedIsChain(a);
  }

  /** Chains tell one history exactly when they are equal without their decoration. */
  lemma {:induction false} SamePlainExactly(a: seq<Entry>, b: seq<Entry>)
    requires IsChain(a) && IsChain(b)
    ensures SameHistory(a, b) <==> Undecorated(a) == Undecorated(b)
  {
    if |a| == |b| {
      forall i | 0 <= i < |a|
        ensures a[i].Event? && b[i].Event? && (SameEvent(a[i], b[i]) <==> Plain(a[i], i) == Plain(b[i], i))
      {
        assert Linked(a, i) && Linked(b, i);
      }
    }
  }

  /** Among chains as they are written, one head means one list of events; in
      general, one list of events once the decoration is removed. */
  lemma {:induction false} HeadNamesPlainChain(a: seq<Entry>, b: seq<Entry>)
    requires IsChain(a) && IsChain(b)
    ensures PreviousDigest(a, |a|) == PreviousDigest(b, |b|) <==> Undecorated(a) == Undecorated(b)
    ensures AllPlain(a) && AllPlain(b) ==> (PreviousDigest(a, |a|) == PreviousDigest(b, |b|) <==> a == b)
  {
    SameHeadExactly(a, b);
    SamePlainExactly(a, b);
    PlainIsUndecorated(a);
    PlainIsUndecorated(b);
  }

  // ------------------------------------------------------------------ building

  predicate Chainable(e: RawEvent) { Strip(e.kind) != [] && e.payload.Some? && EncodableFields(e.payload.value) }

  predicate Records(entries: seq<Entry>, events: seq<RawEvent>, n: nat)
    requires n <= |entries| && n <= |events|
  {
    forall i | 0 <= i < n :: entries[i].Event? && entries[i].kind == Strip(events[i].kind)
      && entries[i].payload == events[i].payload && entries[i].sequence == Int(i) && entries[i].extra == map[]
  }

  lemma {:induction false} ChainGrows(chained: seq<Entry>, entry: Entry)
    requires IsChain(chained) && entry.Event? && entry.payload.Some? && Strip(entry.kind) != []
    requires IsNumber(entry.sequence, |chained|) && entry.previous == PreviousDigest(chained, |chained|)
    requires EncodableFields(entry.payload.value)
    requires entry.digest == Sha256(|chained|, Strip(entry.kind), entry.previous, entry.payload.value)
    ensures IsChain(chained + [entry])
  {
    var longer := chained + [entry];
    forall i | 0 <= i < |longer| ensures Linked(longer, i) {
      if i < |chained| { assert Linked(chained, i); }
    }
  }

  method ChainReplayEvents(events: seq<RawEvent>) returns (r: Result<seq<Entry>, BuildError>)
    ensures r.Ok? <==> forall i | 0 <= i < |events| :: Chainable(events[i])
    ensures r.Ok? ==> |r.value| == |events| && IsChain(r.value) && Records(r.value, events, |events|)
  {
    var chained: seq<Entry> := [];
    var previous: Option<Digest> := None;
    for sequence := 0 to |events|
      invariant |chained| == sequence && IsChain(chained) && previous == PreviousDigest(chained, sequence)
      invariant Records(chained, events, sequence)
      invariant forall i | 0 <= i < sequence :: Chainable(events[i])
    {
      var raw := events[sequence];
      var kind := Strip(raw.kind);
      if kind == [] { return Err(BlankKind); }
      if raw.payload.None? { return Err(PayloadNotObject); }
      if !EncodableFields(raw.payload.value) { return Err(NotEncodable); }
      var digest := Sha256(sequence, kind, previous, raw.payload.value);
      var entry := Event(Int(sequence), kind, previous, raw.payload, digest, map[]);
      StripIsIdempotent(raw.kind);
      ChainGrows(chained, entry);
      chained := chained + [entry];
      previous := Some(digest);
    }
    return Ok(chained);
  }

  /** Exactly the seven kinds, in order. */
  predicate MeetsContract(kinds: seq<string>, events: seq<RawEvent>) {
    |events| == |kinds| && forall i | 0 <= i < |kinds| :: RightKind(kinds, Strip(events[i].kind), i)
  }

  predicate RecordOk(fields: Fields) {
    EncodableFields(fields) && ObjectsOk(fields) && Get(fields, EVIDENCE).List? && ChangedFilesOk(fields)
  }

  ghost predicate IsBuilt(runId: string, fields: Fields, events: seq<RawEvent>, j: Journal) {
    && SafeRunId(runId).Some? && RecordOk(fields) && MeetsContract(KINDS, events)
    && j.body.schema == SCHEMA && j.body.mode == MODE && j.body.runId == SafeRunId(runId) && j.body.fields == fields
    && j.body.events.Some? && |j.body.events.value| == |events|
    && IsChain(j.body.events.value) && Records(j.body.events.value, events, |events|)
    && j.body.count == Int(|KINDS|) && j.body.head == PreviousDigest(j.body.events.value, |KINDS|)
    && j.seal == SealOf(j.body)
  }

  /** Builds exactly when the run id, the record and the events are in order. */
  method BuildReplayJournal(runId: string, fields: Fields, events: seq<RawEvent>)
    returns (r: Result<Journal, BuildError>)
    ensures r.Ok? <==> (&& SafeRunId(runId).Some? && RecordOk(fields) && MeetsContract(KINDS, events)
                        && forall i | 0 <= i < |events| :: Chainable(events[i]))
    ensures r.Ok? ==> IsBuilt(runId, fields, events, r.value)
  {
    var safe := SafeRunId(runId);
    if safe.None? { return Err(InvalidRunId); }
    if !EncodableFields(fields) { return Err(NotEncodable); }
    if !ObjectsOk(fields) { return Err(MissingObject); }
    if !Get(fields, EVIDENCE).List? { return Err(MissingEvidence); }
    if !ChangedFilesOk(fields) { return Err(BadChangedFiles); }
    if !MeetsContract(KINDS, events) { return Err(EventContract); }
    var chain := ChainReplayEvents(events);
    if chain.Err? { return Err(chain.error); }
    var chained := chain.value;
    var head := Some(chained[|chained| - 1].digest);
    assert Linked(chained, |chained| - 1);
    var body := Body(SCHEMA, MODE, safe, fields, Some(chained), Int(|chained|), head);
    return Ok(Journal(body, SealOf(body)));
  }

  // ----------------------------------------------------------------- verifying

  predicate Unusable(e: Entry) { e.NotAMapping? || Strip(e.kind) == [] || e.payload.None? }

  /** The loop's `previous` after `n` events: unusable ones do not move it. */
  function PreviousAfter(entries: seq<Entry>, n: nat): Option<Digest>
    requires n <= |entries|
  {
    if n == 0 then None
    else if Unusable(entries[n - 1]) then PreviousAfter(entries, n - 1)
    else Some(entries[n - 1].digest)
  }

  /** The payload kept under a kind after `n` events: the last one wins. */
  function PayloadAfter(entries: seq<Entry>, n: nat, kind: string): Option<Fields>
    requires n <= |entries|
  {
    if n == 0 then None
    else if !Unusable(entries[n - 1]) && Strip(entries[n - 1].kind) == kind then entries[n - 1].payload
    else PayloadAfter(entries, n - 1, kind)
  }

  function ExpectedDigest(e: Entry, i: nat): Digest
    requires !Unusable(e)
  {
    if EncodableFields(e.payload.value) then Sha256(i, Strip(e.kind), e.previous, e.payload.value) else OtherText("")
  }

  function EventFaults(kinds: seq<string>, e: Entry, i: nat, previous: Option<Digest>): seq<Fault> {
    if e.NotAMapping? then [EventInvalid(i)]
    else
      When(!IsNumber(e.sequence, i), SequenceMismatch(i))
      + When(!RightKind(kinds, Strip(e.kind), i), KindMismatch(i))
      + if Unusable(e) then [ShapeInvalid(i)]
        else
          When(e.previous != previous, PreviousDigestMismatch(i))
          + When(!EncodableFields(e.payload.value), DigestUnverifiable(i))
          + When(e.digest != ExpectedDigest(e, i), DigestMismatch(i))
  }

  function Concat(parts: nat -> seq<Fault>, n: nat): seq<Fault> {
    if n == 0 then [] else Concat(parts, n - 1) + parts(n - 1)
  }

  function FaultsAt(kinds: seq<string>, entries: seq<Entry>): nat -> seq<Fault> {
    i => if 0 <= i < |entries| then EventFaults(kinds, entries[i], i, PreviousAfter(entries, i)) else []
  }

  function ChainFaults(kinds: seq<string>, entries: seq<Entry>): seq<Fault> {
    Concat(FaultsAt(kinds, entries), |entries|)
  }

  function RunIdFaults(runId: Option<string>, expected: Option<string>): seq<Fault> {
    var recorded := if runId.Some? then SafeRunId(runId.value) else None;
    When(recorded.None?, RunIdInvalid)
    + if expected.None? then []
      else When(SafeRunId(expected.value).None?, ExpectedRunIdInvalid)
           + When(recorded != SafeRunId(expected.value), RunIdMismatch)
  }

  function ObjectFaults(keys: seq<string>, fields: Fields, n: nat): seq<Fault>
    requires n <= |keys|
  {
    if n == 0 then []
    else ObjectFaults(keys, fields, n - 1) + When(!Get(fields, keys[n - 1]).Object?, ObjectInvalid(keys[n - 1]))
  }

  function RecordFaults(b: Body, expected: Option<string>): seq<Fault> {
    When(b.schema != SCHEMA, SchemaVersionMismatch) + When(b.mode != MODE, ReplayModeMismatch)
    + RunIdFaults(b.runId, expected) + ObjectFaults(OBJECTS, b.fields, |OBJECTS|)
    + When(!Get(b.fields, EVIDENCE).List?, SelectedEvidenceInvalid)
    + When(!ChangedFilesOk(b.fields), ChangedFilesInvalid)
  }

  function SnapshotFaults(b: Body, retrieval: Option<Fields>, selection: Option<Fields>): seq<Fault> {
    var recorded := Get(b.fields, RETRIEVAL);
    When(retrieval.Some? && recorded.Object? && retrieval.value != recorded.fields, RetrievalSnapshotMismatch)
    + When(selection.Some? && Get(selection.value, EVIDENCE) != Get(b.fields, EVIDENCE), SelectionSnapshotMismatch)
  }

  function SealFaults(j: Journal): seq<Fault> {
    var expected := if EncodableBody(j.body) then SealOf(j.body) else OtherSeal("");
    When(!EncodableBody(j.body), JournalDigestUnverifiable) + When(j.seal != expected, JournalDigestMismatch)
  }

  /** Every fault, in the order the verifier reports them. */
  function Faults(j: Journal, expected: Option<string>): seq<Fault> {
    var b := j.body;
    if b.events.None? then RecordFaults(b, expected) + [ReplayEventsMissing]
    else
      var entries := b.events.value;
      RecordFaults(b, expected)
      + When(|entries| != |KINDS|, EventContractCountMismatch)
      + ChainFaults(KINDS, entries)
      + When(!IsNumber(b.count, |entries|), EventCountMismatch)
      + When(b.head != PreviousAfter(entries, |entries|), HeadDigestMismatch)
      + SnapshotFaults(b, PayloadAfter(entries, |entries|, RETRIEVAL), PayloadAfter(entries, |entries|, SELECTION))
      + SealFaults(j)
  }

  predicate RunIdOk(runId: Option<string>, expected: Option<string>) {
    && runId.Some? && SafeRunId(runId.value).Some?
    && (expected.Some? ==> SafeRunId(expected.value) == SafeRunId(runId.value))
  }

  predicate KindsOk(kinds: seq<string>, entries: seq<Entry>) {
    && |entries| == |kinds|
    && forall i | 0 <= i < |kinds| :: entries[i].Event? && RightKind(kinds, Strip(entries[i].kind), i)
  }

  /** Events 2 and 4 repeat what the record itself says. */
  predicate SnapshotsOk(fields: Fields, retrieval: Fields, selection: Fields) {
    && Get(fields, RETRIEVAL) == Object(retrieval) && Get(selection, EVIDENCE) == Get(fields, EVIDENCE)
  }

  /** Seven linked events of the right kinds. */
  predicate SevenInPlace(entries: seq<Entry>) { KindsOk(KINDS, entries) && IsChain(entries) }

  predicate RecordFine(b: Body, expected: Option<string>) {
    && b.schema == SCHEMA && b.mode == MODE && RunIdOk(b.runId, expected)
    && ObjectsOk(b.fields) && Get(b.fields, EVIDENCE).List? && ChangedFilesOk(b.fields)
  }

  /** What a verified journal is, with no reference to the verifier's loop. */
  ghost predicate Verified(j: Journal, expected: Option<string>) {
    var b := j.body;
    && RecordFine(b, expected)
    && b.events.Some? && SevenInPlace(b.events.value)
    && IsNumber(b.count, |KINDS|) && b.head == PreviousDigest(b.events.value, |KINDS|)
    && b.events.value[2].payload.Some? && b.events.value[4].payload.Some?
    && SnapshotsOk(b.fields, b.events.value[2].payload.value, b.events.value[4].payload.value)
    && EncodableBody(b) && j.seal == SealOf(b)
  }

  lemma {:induction false} ObjectFaultsExactly(keys: seq<string>, fields: Fields, n: nat)
    requires n <= |keys|
    ensures |ObjectFaults(keys, fields, n)| == 0 <==> forall i | 0 <= i < n :: Get(fields, keys[i]).Object?
  {
    if n > 0 { ObjectFaultsExactly(keys, fields, n - 1); }
  }

  predicate InPlace(kinds: seq<string>, entries: seq<Entry>, i: nat)
    requires i < |entries|
  {
    Linked(entries, i) && RightKind(kinds, Strip(entries[i].kind), i)
  }

  lemma {:induction false} EventFaultsExactly(kinds: seq<string>, entries: seq<Entry>, i: nat)
    requires i < |entries|
    requires PreviousAfter(entries, i) == PreviousDigest(entries, i)
    ensures |FaultsAt(kinds, entries)(i)| == 0 <==> InPlace(kinds, entries, i)
  {
  }

  lemma {:induction false} ConcatIsEmpty(parts: nat -> seq<Fault>, n: nat)
    ensures |Concat(parts, n)| == 0 <==> forall i: nat | i < n :: |parts(i)| == 0
  {
    if n > 0 { ConcatIsEmpty(parts, n - 1); }
  }

  ghost predicate AllInPlace(kinds: seq<string>, entries: seq<Entry>, n: nat)
    requires n <= |entries|
  {
    forall i | 0 <= i < n :: InPlace(kinds, entries, i)
  }

  lemma {:induction false} InPlaceMoves(kinds: seq<string>, entries: seq<Entry>, n: nat)
    requires n <= |entries| && AllInPlace(kinds, entries, n)
    ensures PreviousAfter(entries, n) == PreviousDigest(entries, n)
  {
    if n > 0 {
      assert InPlace(kinds, entries, n - 1);
    }
  }

  ghost predicate QuietUpTo(kinds: seq<string>, entries: seq<Entry>, n: nat) {
    forall i: nat | i < n :: |FaultsAt(kinds, entries)(i)| == 0
  }

  lemma {:induction false} QuietMeansInPlace(kinds: seq<string>, entries: seq<Entry>, i: nat)
    requires i < |entries| && QuietUpTo(kinds, entries, i + 1)
    ensures InPlace(kinds, entries, i)
  {
    assert AllInPlace(kinds, entries, i) by {
      forall k: nat | k < i ensures InPlace(kinds, entries, k) {
        assert QuietUpTo(kinds, entries, k + 1);
        QuietMeansInPlace(kinds, entries, k);
      }
    }
    InPlaceMoves(kinds, entries, i);
    EventFaultsExactly(kinds, entries, i);
    assert |FaultsAt(kinds, entries)(i)| == 0;
  }

  /** No fault exactly when every event is linked and of the right kind. */
  lemma {:induction false} ChainFaultsExactly(kinds: seq<string>, entries: seq<Entry>)
    ensures |ChainFaults(kinds, entries)| == 0 <==> AllInPlace(kinds, entries, |entries|)
    ensures AllInPlace(kinds, entries, |entries|) ==>
      PreviousAfter(entries, |entries|) == PreviousDigest(entries, |entries|)
  {
    ConcatIsEmpty(FaultsAt(kinds, entries), |entries|);
    if |ChainFaults(kinds, entries)| == 0 {
      forall i: nat | i < |entries| ensures InPlace(kinds, entries, i) {
        assert QuietUpTo(kinds, entries, i + 1);
        QuietMeansInPlace(kinds, entries, i);
      }
    }
    if AllInPlace(kinds, entries, |entries|) {
      InPlaceMoves(kinds, entries, |entries|);
      forall i: nat | i < |entries| ensures |FaultsAt(kinds, entries)(i)| == 0 {
        assert AllInPlace(kinds, entries, i);
        InPlaceMoves(kinds, entries, i);
        EventFaultsExactly(kinds, entries, i);
      }
    }
  }

  lemma {:induction false} PayloadFound(kinds: seq<string>, entries: seq<Entry>, n: nat, at: nat)
    requires n <= |entries| && KindsOk(kinds, entries) && IsChain(entries) && at < |kinds|
    requires forall i | 0 <= i < |kinds| && kinds[i] == kinds[at] :: i == at
    ensures PayloadAfter(entries, n, kinds[at]) == if at < n then entries[at].payload else None
  {
    if n > 0 {
      PayloadFound(kinds, entries, n - 1, at);
      assert Linked(entries, n - 1) && RightKind(kinds, Strip(entries[n - 1].kind), n - 1);
    }
  }

  lemma {:induction false} SnapshotKindsAreUnique()
    ensures KINDS[2] == RETRIEVAL && KINDS[4] == SELECTION
    ensures forall i | 0 <= i < |KINDS| && KINDS[i] == KINDS[2] :: i == 2
    ensures forall i | 0 <= i < |KINDS| && KINDS[i] == KINDS[4] :: i == 4
  {
    assert KINDS[2][2] == 't' && KINDS[4][2] == 'l';
    assert KINDS[0][2] == 'u' && KINDS[1][2] == 'p' && KINDS[3][2] == 'n' && KINDS[5][2] == 'c';
    assert KINDS[6][3] == 'h' && KINDS[2][3] == 'r';
  }

  lemma {:induction false} RecordFaultsExactly(b: Body, expected: Option<string>)
    ensures |RecordFaults(b, expected)| == 0 <==> RecordFine(b, expected)
    ensures ObjectsOk(b.fields) ==> Get(b.fields, RETRIEVAL).Object?
  {
    ObjectFaultsExactly(OBJECTS, b.fields, |OBJECTS|);
    assert OBJECTS[5] == RETRIEVAL;
    assert |RunIdFaults(b.runId, expected)| == 0 <==> RunIdOk(b.runId, expected);
  }

  lemma {:induction false} AllInPlaceMeans(kinds: seq<string>, entries: seq<Entry>)
    requires |entries| == |kinds|
    ensures AllInPlace(kinds, entries, |entries|) <==> KindsOk(kinds, entries) && IsChain(entries)
  {
    if AllInPlace(kinds, entries, |entries|) {
      forall i | 0 <= i < |entries| ensures Linked(entries, i) && RightKind(kinds, Strip(entries[i].kind), i) {
        assert InPlace(kinds, entries, i);
      }
    }
    if KindsOk(kinds, entries) && IsChain(entries) {
      forall i | 0 <= i < |entries| ensures InPlace(kinds, entries, i) {
        assert Linked(entries, i);
      }
    }
  }

  lemma {:induction false} SnapshotsFound(entries: seq<Entry>)
    requires SevenInPlace(entries)
    ensures entries[2].payload.Some? && PayloadAfter(entries, |entries|, RETRIEVAL) == entries[2].payload
    ensures entries[4].payload.Some? && PayloadAfter(entries, |entries|, SELECTION) == entries[4].payload
  {
    SnapshotKindsAreUnique();
    PayloadFound(KINDS, entries, |entries|, 2);
    PayloadFound(KINDS, entries, |entries|, 4);
    assert Linked(entries, 2) && Linked(entries, 4);
  }

  lemma {:induction false} SevenInPlaceExactly(entries: seq<Entry>)
    ensures |entries| == |KINDS| && |ChainFaults(KINDS, entries)| == 0 <==> SevenInPlace(entries)
    ensures SevenInPlace(entries) ==> PreviousAfter(entries, |entries|) == PreviousDigest(entries, |entries|)
    ensures (SevenInPlace(entries)
             ==> && entries[2].payload.Some? && PayloadAfter(entries, |entries|, RETRIEVAL) == entries[2].payload
                 && entries[4].payload.Some? && PayloadAfter(entries, |entries|, SELECTION) == entries[4].payload)
  {
    ChainFaultsExactly(KINDS, entries);
    if |entries| == |KINDS| { AllInPlaceMeans(KINDS, entries); }
    if SevenInPlace(entries) { SnapshotsFound(entries); }
  }

  /** The verifier finds no fault exactly in the verified journals. */
  lemma {:induction false} NoFaultsExactly(j: Journal, expected: Option<string>)
    ensures |Faults(j, expected)| == 0 <==> Verified(j, expected)
  {
    var b := j.body;
    RecordFaultsExactly(b, expected);
    if b.events.Some? {
      SevenInPlaceExactly(b.events.value);
    }
  }

  /** The loop's `previous` and its payloads by kind, after `n` events. */
  ghost predicate Tracked(entries: seq<Entry>, n: nat, previous: Option<Digest>, payloads: map<string, Fields>)
    requires n <= |entries|
  {
    && previous == PreviousAfter(entries, n)
    && forall k :: PayloadAfter(entries, n, k) == if k in payloads then Some(payloads[k]) else None
  }

  lemma {:induction false} TrackedStep(entries: seq<Entry>, n: nat, previous: Option<Digest>,
                                       payloads: map<string, Fields>)
    requires n < |entries| && Tracked(entries, n, previous, payloads)
    ensures var e := entries[n];
      if Unusable(e) then Tracked(entries, n + 1, previous, payloads)
      else Tracked(entries, n + 1, Some(e.digest), payloads[Strip(e.kind) := e.payload.value])
  {
  }

  ghost predicate Listed(kinds: seq<string>, entries: seq<Entry>, n: nat, errors: seq<Fault>)
    requires n <= |entries|
  {
    errors == Concat(FaultsAt(kinds, entries), n)
  }

  lemma {:induction false} ListedStep(kinds: seq<string>, entries: seq<Entry>, n: nat, errors: seq<Fault>,
                                      previous: Option<Digest>, payloads: map<string, Fields>)
    requires n < |entries| && Listed(kinds, entries, n, errors) && Tracked(entries, n, previous, payloads)
    ensures Listed(kinds, entries, n + 1, errors + EventFaults(kinds, entries[n], n, previous))
  {
    assert FaultsAt(kinds, entries)(n) == EventFaults(kinds, entries[n], n, PreviousAfter(entries, n));
  }

  /** The faults of one more event. */
  method VerifyEvent(kinds: seq<string>, entries: seq<Entry>, n: nat, errors: seq<Fault>, previous: Option<Digest>,
                     ghost payloads: map<string, Fields>)
    returns (more: seq<Fault>)
    requires n < |entries| && Listed(kinds, entries, n, errors) && Tracked(entries, n, previous, payloads)
    ensures Listed(kinds, entries, n + 1, more)
  {
    ListedStep(kinds, entries, n, errors, previous, payloads);
    more := errors + EventFaults(kinds, entries[n], n, previous);
  }

  /** What is remembered after one more event. */
  method Advance(entries: seq<Entry>, n: nat, previous: Option<Digest>, payloads: map<string, Fields>)
    returns (newPrevious: Option<Digest>, newPayloads: map<string, Fields>)
    requires n < |entries| && Tracked(entries, n, previous, payloads)
    ensures Tracked(entries, n + 1, newPrevious, newPayloads)
  {
    TrackedStep(entries, n, previous, payloads);
    newPrevious, newPayloads := previous, payloads;
    if !Unusable(entries[n]) {
      newPrevious := Some(entries[n].digest);
      newPayloads := payloads[Strip(entries[n].kind) := entries[n].payload.value];
    }
  }

  method VerifyEvents(kinds: seq<string>, entries: seq<Entry>)
    returns (errors: seq<Fault>, previous: Option<Digest>, payloads: map<string, Fields>)
    ensures errors == ChainFaults(kinds, entries)
    ensures previous == PreviousAfter(entries, |entries|)
    ensures forall k :: PayloadAfter(entries, |entries|, k) == if k in payloads then Some(payloads[k]) else None
  {
    errors, previous, payloads := [], None, map[];
    for sequence := 0 to |entries|
      invariant Listed(kinds, entries, sequence, errors)
      invariant Tracked(entries, sequence, previous, payloads)
    {
      errors := VerifyEvent(kinds, entries, sequence, errors, previous, payloads);
      previous, payloads := Advance(entries, sequence, previous, payloads);
    }
  }

  /** Reports every fault in order, and is valid exactly on verified journals. */
  method VerifyReplayJournal(j: Journal, expected: Option<string>) returns (r: Report)
    ensures r.errors == Faults(j, expected)
    ensures r.valid <==> Verified(j, expected)
    ensures r.eventCount == if j.body.events.Some? then |j.body.events.value| else 0
    ensures r.valid ==> r.head == j.body.head
  {
    var b := j.body;
    var errors := RecordFaults(b, expected);
    NoFaultsExactly(j, expected);
    if b.events.None? {
      return Report(false, errors + [ReplayEventsMissing], 0, None);
    }
    var entries := b.events.value;
    errors := errors + When(|entries| != |KINDS|, EventContractCountMismatch);
    var faults, previous, payloads := VerifyEvents(KINDS, entries);
    errors := errors + faults + When(!IsNumber(b.count, |entries|), EventCountMismatch)
      + When(b.head != previous, HeadDigestMismatch);
    var retrieval := if RETRIEVAL in payloads then Some(payloads[RETRIEVAL]) else None;
    var selection := if SELECTION in payloads then Some(payloads[SELECTION]) else None;
    errors := errors + SnapshotFaults(b, retrieval, selection) + SealFaults(j);
    if errors == [] { ChainFaultsExactly(KINDS, entries); }
    r := Report(errors == [], errors, |entries|, previous);
  }

  // -------------------------------------------- a verified journal, written out

  /** `w` is `v` or stands somewhere in it. */
  ghost predicate Occurs(w: Value, v: Value) {
    || w == v
    || (v.List? && exists i :: 0 <= i < |v.items| && Occurs(w, v.items[i]))
    || (v.Object? && exists k :: k in v.fields && Occurs(w, v.fields[k]))
  }

  /** Only a number that is not finite keeps a value from being written. */
  lemma {:induction false} EncodableExactly(v: Value)
    ensures Encodable(v) <==> !Occurs(NotFinite, v)
  {
    match v
    case List(items) =>
      forall i | 0 <= i < |items| ensures Encodable(items[i]) <==> !Occurs(NotFinite, items[i]) {
        EncodableExactly(items[i]);
      }
    case Object(fields) =>
      forall k | k in fields ensures Encodable(fields[k]) <==> !Occurs(NotFinite, fields[k]) {
        EncodableExactly(fields[k]);
      }
    case _ =>
  }

  /** No number that is not finite stands under any key. */
  ghost predicate AllFinite(fields: Fields) { forall k :: k in fields ==> !Occurs(NotFinite, fields[k]) }

  lemma {:induction false} FieldsExactly(fields: Fields)
    ensures EncodableFields(fields) <==> AllFinite(fields)
  {
    forall k | k in fields ensures Encodable(fields[k]) <==> !Occurs(NotFinite, fields[k]) {
      EncodableExactly(fields[k]);
    }
  }

  /** The integer `n` in one of the spellings that Python calls equal. */
  ghost predicate Spells(v: Value, n: int) {
    v == Int(n) || v == Float(n, 0.0) || (n == 0 && v == Bool(false)) || (n == 1 && v == Bool(true))
  }

  /** Letters, digits, `-` and `_`, at least one. */
  ghost predicate IsRunId(text: string) {
    text != "" && forall c :: c in text ==> 'a' <= c <= 'z' || 'A' <= c <= 'Z' || '0' <= c <= '9' || c in "-_"
  }

  lemma {:induction false} RunIdExactly(raw: string)
    ensures SafeRunId(raw) == if IsRunId(Strip(raw)) then Some(Strip(raw)) else None
  {
    var value := Strip(raw);
    assert forall i :: 0 <= i < |value| ==> value[i] in value;
    if SafeRunId(raw).Some? {
      forall c | c in value ensures 'a' <= c <= 'z' || 'A' <= c <= 'Z' || '0' <= c <= '9' || c in "-_" {
        var i :| 0 <= i < |value| && value[i] == c;
        assert IsWordChar(value[i]);
      }
    }
  }

  ghost predicate HoldsObject(fields: Fields, key: string) { key in fields && fields[key].Object? }

  /** The parts of the record that the events do not repeat. */
  ghost predicate RecordHolds(fields: Fields) {
    && HoldsObject(fields, "policy_identity") && HoldsObject(fields, "workspace_state")
    && HoldsObject(fields, "graph_state") && HoldsObject(fields, "repository_state")
    && HoldsObject(fields, "provider_versions") && HoldsObject(fields, "retrieval")
    && "selected_evidence" in fields && fields["selected_evidence"].List?
    && "changed_files" in fields && fields["changed_files"].List? && |fields["changed_files"].items| <= 4096
    && forall v :: v in fields["changed_files"].items ==>
         v.Str? && v.text != "" && |v.text| <= 4096 && '\0' !in v.text
  }

  lemma {:induction false} ObjectsExactly(fields: Fields)
    ensures ObjectsOk(fields) <==>
      && HoldsObject(fields, "policy_identity") && HoldsObject(fields, "workspace_state")
      && HoldsObject(fields, "graph_state") && HoldsObject(fields, "repository_state")
      && HoldsObject(fields, "provider_versions") && HoldsObject(fields, "retrieval")
  {
    forall i | 0 <= i < 6 ensures Get(fields, OBJECTS[i]).Object? <==> HoldsObject(fields, OBJECTS[i]) {
    }
    assert OBJECTS[0] == "policy_identity" && OBJECTS[1] == "workspace_state" && OBJECTS[2] == "graph_state";
    assert OBJECTS[3] == "repository_state" && OBJECTS[4] == "provider_versions" && OBJECTS[5] == "retrieval";
  }

  lemma {:induction false} RecordExactly(fields: Fields)
    ensures ObjectsOk(fields) && Get(fields, EVIDENCE).List? && ChangedFilesOk(fields) <==> RecordHolds(fields)
  {
    ObjectsExactly(fields);
    if CHANGED in fields && fields[CHANGED].List? {
      var items := fields[CHANGED].items;
      if forall v :: v in items ==> v.Str? && v.text != "" && |v.text| <= 4096 && '\0' !in v.text {
        assert forall i :: 0 <= i < |items| ==> items[i] in items;
      }
    }
  }

  /** The kinds of the seven events, in order. */
  ghost predicate IsKind(kind: string, i: nat) {
    && (i == 0 ==> kind == "routing") && (i == 1 ==> kind == "repository_routing") && (i == 2 ==> kind == "retrieval")
    && (i == 3 ==> kind == "ranking") && (i == 4 ==> kind == "selection") && (i == 5 ==> kind == "orchestration")
    && (i == 6 ==> kind == "authorization")
  }

  /** Event `i` says its position, kind and predecessor, and carries the digest of all that. */
  ghost predicate EventHolds(entries: seq<Entry>, i: nat)
    requires i < |entries| == 7
  {
    var e := entries[i];
    && e.Event? && Spells(e.sequence, i) && IsKind(Strip(e.kind), i)
    && e.previous == (if i == 0 || !entries[i - 1].Event? then None else Some(entries[i - 1].digest))
    && e.payload.Some? && AllFinite(e.payload.value)
    && e.digest == Sha256(i, Strip(e.kind), e.previous, e.payload.value)
  }

  lemma {:induction false} KindExactly(kind: string, i: nat)
    requires i < 7
    ensures RightKind(KINDS, kind, i) <==> IsKind(kind, i)
    ensures |KINDS| == 7 && (IsKind(kind, i) ==> kind != [])
  {
  }

  lemma {:induction false} EventExactly(entries: seq<Entry>, i: nat)
    requires i < |entries| == 7
    ensures EventHolds(entries, i) <==> Linked(entries, i) && RightKind(KINDS, Strip(entries[i].kind), i)
  {
    if entries[i].Event? {
      KindExactly(Strip(entries[i].kind), i);
      if entries[i].payload.Some? { FieldsExactly(entries[i].payload.value); }
    }
  }

  lemma {:induction false} SevenExactly(entries: seq<Entry>)
    ensures SevenInPlace(entries) <==> |entries| == 7 && forall i :: 0 <= i < 7 ==> EventHolds(entries, i)
  {
    assert |KINDS| == 7;
    if |entries| == 7 {
      forall i | 0 <= i < 7
        ensures EventHolds(entries, i) <==> Linked(entries, i) && RightKind(KINDS, Strip(entries[i].kind), i)
      {
        EventExactly(entries, i);
      }
    }
  }

  /** The run id in the record is one, and the one that was asked for. */
  ghost predicate RunIdHolds(runId: Option<string>, expected: Option<string>) {
    && runId.Some? && IsRunId(Strip(runId.value))
    && (expected.Some? ==> Strip(expected.value) == Strip(runId.value))
  }

  lemma {:induction false} RunIdHoldsExactly(runId: Option<string>, expected: Option<string>)
    ensures RunIdOk(runId, expected) <==> RunIdHolds(runId, expected)
  {
    if runId.Some? { RunIdExactly(runId.value); }
    if expected.Some? { RunIdExactly(expected.value); }
  }

  lemma {:induction false} RecordFineExactly(b: Body, expected: Option<string>)
    ensures RecordFine(b, expected) <==>
      && b.schema == "ai-workflow-run-journal-v2" && b.mode == "decision-history-only"
      && RunIdHolds(b.runId, expected) && RecordHolds(b.fields)
  {
    RunIdHoldsExactly(b.runId, expected);
    RecordExactly(b.fields);
  }

  /** The head is the digest of the last event, and events 2 and 4 repeat the record. */
  ghost predicate EndsRight(b: Body, entries: seq<Entry>)
    requires |entries| == 7 && RecordHolds(b.fields)
  {
    && entries[6].Event? && b.head == Some(entries[6].digest)
    && entries[2].Event? && entries[2].payload.Some? && b.fields["retrieval"] == Object(entries[2].payload.value)
    && entries[4].Event? && entries[4].payload.Some? && "selected_evidence" in entries[4].payload.value
    && entries[4].payload.value["selected_evidence"] == b.fields["selected_evidence"]
  }

  lemma {:induction false} EndsExactly(b: Body, entries: seq<Entry>)
    requires |entries| == 7 && RecordHolds(b.fields) && forall i :: 0 <= i < 7 ==> EventHolds(entries, i)
    ensures EndsRight(b, entries) <==>
      && b.head == PreviousDigest(entries, 7) && entries[2].Event? && entries[2].payload.Some?
      && entries[4].Event? && entries[4].payload.Some?
      && SnapshotsOk(b.fields, entries[2].payload.value, entries[4].payload.value)
  {
    assert EventHolds(entries, 2) && EventHolds(entries, 4) && EventHolds(entries, 6);
  }

  lemma {:induction false} TailExactly(b: Body, entries: seq<Entry>)
    requires SevenInPlace(entries) && RecordHolds(b.fields) && |entries| == 7
    ensures Spells(b.count, 7) && EndsRight(b, entries) <==>
      && IsNumber(b.count, |KINDS|) && b.head == PreviousDigest(entries, |KINDS|)
      && entries[2].payload.Some? && entries[4].payload.Some?
      && SnapshotsOk(b.fields, entries[2].payload.value, entries[4].payload.value)
  {
    SevenExactly(entries);
    EndsExactly(b, entries);
  }

  /** Every number in the record and its events is finite. */
  ghost predicate AllWritable(b: Body) {
    && AllFinite(b.fields) && !Occurs(NotFinite, b.count)
    && (b.events.Some? ==> forall e :: e in b.events.value && e.Event? ==>
          && !Occurs(NotFinite, e.sequence) && AllFinite(e.extra)
          && (e.payload.Some? ==> AllFinite(e.payload.value)))
  }

  lemma {:induction false} EntryExactly(e: Entry)
    ensures EncodableEntry(e) <==> e.Event? ==>
      && !Occurs(NotFinite, e.sequence) && AllFinite(e.extra) && (e.payload.Some? ==> AllFinite(e.payload.value))
  {
    if e.Event? {
      EncodableExactly(e.sequence);
      FieldsExactly(e.extra);
      if e.payload.Some? { FieldsExactly(e.payload.value); }
    }
  }

  lemma {:induction false} BodyExactly(b: Body)
    ensures EncodableBody(b) <==> AllWritable(b)
  {
    FieldsExactly(b.fields);
    EncodableExactly(b.count);
    if b.events.Some? {
      var entries := b.events.value;
      forall i | 0 <= i < |entries|
        ensures entries[i] in entries
        ensures EncodableEntry(entries[i]) <==> entries[i].Event? ==>
          && !Occurs(NotFinite, entries[i].sequence) && AllFinite(entries[i].extra)
          && (entries[i].payload.Some? ==> AllFinite(entries[i].payload.value))
      {
        EntryExactly(entries[i]);
      }
    }
  }

  /** A verified journal on its own fields: the schema, the run id, the record, seven linked
      events, their count and head, the two snapshots, and the seal over all of it. */
  lemma {:induction false} VerifiedExactly(j: Journal, expected: Option<string>)
    requires j.body.events.Some?
    ensures var b, entries := j.body, j.body.events.value;
      Verified(j, expected) <==>
        && b.schema == "ai-workflow-run-journal-v2" && b.mode == "decision-history-only"
        && RunIdHolds(b.runId, expected) && RecordHolds(b.fields)
        && |entries| == 7 && (forall i :: 0 <= i < 7 ==> EventHolds(entries, i))
        && Spells(b.count, 7) && EndsRight(b, entries) && AllWritable(b) && j.seal == SealOf(b)
  {
    var b, entries := j.body, j.body.events.value;
    RecordFineExactly(b, expected);
    SevenExactly(entries);
    if SevenInPlace(entries) && RecordHolds(b.fields) { TailExactly(b, entries); }
    BodyExactly(b);
  }

  lemma {:induction false} ObjectFaultsMean(keys: seq<string>, fields: Fields, n: nat, fault: Fault)
    requires n <= |keys|
    ensures fault in ObjectFaults(keys, fields, n) <==>
      fault.ObjectInvalid? && fault.key in keys[..n] && !HoldsObject(fields, fault.key)
  {
    if n > 0 {
      ObjectFaultsMean(keys, fields, n - 1, fault);
      assert keys[..n] == keys[..n - 1] + [keys[n - 1]];
    }
  }

  lemma {:induction false} OneOf(fault: Fault, a: seq<Fault>, b: seq<Fault>, c: seq<Fault>)
    ensures fault in a + b + c <==> fault in a || fault in b || fault in c
  {
  }

  /** What the faults of the run id say. */
  lemma {:induction false} RunIdFaultsMean(runId: Option<string>, expected: Option<string>)
    ensures var faults := RunIdFaults(runId, expected);
      && (RunIdInvalid in faults <==> runId.None? || !IsRunId(Strip(runId.value)))
      && (ExpectedRunIdInvalid in faults <==> expected.Some? && !IsRunId(Strip(expected.value)))
      && (RunIdMismatch in faults <==>
            && expected.Some? && (IsRunId(Strip(expected.value)) || (runId.Some? && IsRunId(Strip(runId.value))))
            && (runId.None? || Strip(runId.value) != Strip(expected.value)))
      && (forall f :: f in faults ==> f.RunIdInvalid? || f.ExpectedRunIdInvalid? || f.RunIdMismatch?)
  {
    if runId.Some? { RunIdExactly(runId.value); }
    if expected.Some? { RunIdExactly(expected.value); }
  }

  lemma {:induction false} OneOfSix(fault: Fault, a: seq<Fault>, b: seq<Fault>, c: seq<Fault>, d: seq<Fault>,
                                    e: seq<Fault>, f: seq<Fault>)
    ensures fault in a + b + c + d + e + f
       <==> fault in a || fault in b || fault in c || fault in d || fault in e || fault in f
  {
    OneOf(fault, a, b, c);
    OneOf(fault, a + b + c, d, e);
    OneOf(fault, a + b + c + d + e, f, []);
    assert a + b + c + d + e + f + [] == a + b + c + d + e + f;
  }

  lemma {:induction false} InRecordFaults(b: Body, expected: Option<string>, fault: Fault)
    ensures fault in RecordFaults(b, expected) <==>
      || fault in When(b.schema != SCHEMA, SchemaVersionMismatch) || fault in When(b.mode != MODE, ReplayModeMismatch)
      || fault in RunIdFaults(b.runId, expected) || fault in ObjectFaults(OBJECTS, b.fields, |OBJECTS|)
      || fault in When(!Get(b.fields, EVIDENCE).List?, SelectedEvidenceInvalid)
      || fault in When(!ChangedFilesOk(b.fields), ChangedFilesInvalid)
  {
    OneOfSix(fault, When(b.schema != SCHEMA, SchemaVersionMismatch), When(b.mode != MODE, ReplayModeMismatch),
             RunIdFaults(b.runId, expected), ObjectFaults(OBJECTS, b.fields, |OBJECTS|),
             When(!Get(b.fields, EVIDENCE).List?, SelectedEvidenceInvalid),
             When(!ChangedFilesOk(b.fields), ChangedFilesInvalid));
  }

  /** What each fault of the record says. */
  lemma {:induction false} RecordFaultsMean(b: Body, expected: Option<string>, fault: Fault)
    ensures fault in RecordFaults(b, expected) <==>
      || (fault == SchemaVersionMismatch && b.schema != "ai-workflow-run-journal-v2")
      || (fault == ReplayModeMismatch && b.mode != "decision-history-only")
      || fault in RunIdFaults(b.runId, expected)
      || (fault.ObjectInvalid? && fault.key in OBJECTS && !HoldsObject(b.fields, fault.key))
      || (fault == SelectedEvidenceInvalid
          && ("selected_evidence" !in b.fields || !b.fields["selected_evidence"].List?))
      || (fault == ChangedFilesInvalid && !ChangedFilesOk(b.fields))
  {
    InRecordFaults(b, expected, fault);
    ObjectFaultsMean(OBJECTS, b.fields, |OBJECTS|, fault);
    assert OBJECTS[..|OBJECTS|] == OBJECTS;
  }

  /** What each fault of an event says. Anything but a mapping is only called invalid, and a
      mapping without a kind or a payload is checked no further. */
  lemma {:induction false} EventFaultsMean(e: Entry, i: nat, previous: Option<Digest>, fault: Fault)
    ensures fault in EventFaults(KINDS, e, i, previous) <==>
      if !e.Event? then fault == EventInvalid(i)
      else || (fault == SequenceMismatch(i) && !Spells(e.sequence, i))
           || (fault == KindMismatch(i) && !IsKind(Strip(e.kind), i))
           || (if Strip(e.kind) == "" || e.payload.None? then fault == ShapeInvalid(i)
               else || (fault == PreviousDigestMismatch(i) && e.previous != previous)
                    || (fault == DigestUnverifiable(i) && !AllFinite(e.payload.value))
                    || (fault == DigestMismatch(i) && e.digest != ExpectedDigest(e, i)))
  {
    if e.Event? {
      if i < 7 { KindExactly(Strip(e.kind), i); }
      var sequence, kind := When(!IsNumber(e.sequence, i), SequenceMismatch(i)),
                            When(!RightKind(KINDS, Strip(e.kind), i), KindMismatch(i));
      if Unusable(e) {
        OneOf(fault, sequence, kind, [ShapeInvalid(i)]);
      } else {
        var link := When(e.previous != previous, PreviousDigestMismatch(i));
        var finite := When(!EncodableFields(e.payload.value), DigestUnverifiable(i));
        var digest := When(e.digest != ExpectedDigest(e, i), DigestMismatch(i));
        FieldsExactly(e.payload.value);
        OneOf(fault, link, finite, digest);
        OneOf(fault, sequence, kind, link + finite + digest);
      }
    }
  }

  lemma {:induction false} ConcatHolds(parts: nat -> seq<Fault>, n: nat, fault: Fault)
    ensures fault in Concat(parts, n) <==> exists i: nat :: i < n && fault in parts(i)
  {
    if n > 0 { ConcatHolds(parts, n - 1, fault); }
  }

  /** The faults of the chain are those of its events, each checked against the digest of the
      last usable event before it. */
  lemma {:induction false} ChainFaultsMean(entries: seq<Entry>, fault: Fault)
    ensures fault in ChainFaults(KINDS, entries) <==>
      exists i: nat :: i < |entries| && fault in EventFaults(KINDS, entries[i], i, PreviousAfter(entries, i))
  {
    var parts := FaultsAt(KINDS, entries);
    ConcatHolds(parts, |entries|, fault);
    if i: nat :| i < |entries| && fault in EventFaults(KINDS, entries[i], i, PreviousAfter(entries, i)) {
      assert fault in parts(i);
    }
  }

  // ------------------------------------------------------------- main theorems

  lemma {:induction false} RunIdIsStable(runId: string)
    requires SafeRunId(runId).Some?
    ensures SafeRunId(SafeRunId(runId).value) == SafeRunId(runId)
  {
    StripIsIdempotent(runId);
  }

  lemma {:induction false} BuiltRecordIsFine(runId: string, fields: Fields, events: seq<RawEvent>,
                                             j: Journal, expected: Option<string>)
    requires IsBuilt(runId, fields, events, j)
    ensures RecordFine(j.body, expected) <==> (expected.Some? ==> SafeRunId(expected.value) == SafeRunId(runId))
  {
    RunIdIsStable(runId);
  }

  lemma {:induction false} BuiltKindsInPlace(kinds: seq<string>, entries: seq<Entry>, events: seq<RawEvent>)
    requires MeetsContract(kinds, events) && |entries| == |events|
    requires IsChain(entries) && Records(entries, events, |events|)
    ensures KindsOk(kinds, entries)
    ensures forall i | 0 <= i < |entries| :: EncodableEntry(entries[i]) && entries[i].payload.Some?
  {
    forall i | 0 <= i < |entries|
      ensures entries[i].Event? && RightKind(kinds, Strip(entries[i].kind), i)
      ensures EncodableEntry(entries[i]) && entries[i].payload.Some?
    {
      assert Linked(entries, i);
      StripIsIdempotent(events[i].kind);
    }
  }

  lemma {:induction false} BuiltEventsInPlace(entries: seq<Entry>, events: seq<RawEvent>)
    requires MeetsContract(KINDS, events) && |entries| == |events|
    requires IsChain(entries) && Records(entries, events, |events|)
    ensures SevenInPlace(entries)
    ensures forall i | 0 <= i < |entries| :: EncodableEntry(entries[i]) && entries[i].payload.Some?
  {
    BuiltKindsInPlace(KINDS, entries, events);
  }

  lemma {:induction false} BuiltEventsAreFine(runId: string, fields: Fields, events: seq<RawEvent>, j: Journal)
    requires IsBuilt(runId, fields, events, j)
    ensures SevenInPlace(j.body.events.value) && EncodableBody(j.body)
    ensures events[2].payload.Some? && events[4].payload.Some?
    ensures j.body.events.value[2].payload == events[2].payload
    ensures j.body.events.value[4].payload == events[4].payload
  {
    BuiltEventsInPlace(j.body.events.value, events);
  }

  /** A built journal verifies exactly when its retrieval and selection events
      repeat the record, and the expected run id, if given, is the recorded one. */
  lemma {:induction false} BuiltVerifiesExactly(runId: string, fields: Fields, events: seq<RawEvent>,
                                                j: Journal, expected: Option<string>)
    requires IsBuilt(runId, fields, events, j)
    ensures events[2].payload.Some? && events[4].payload.Some?
    ensures Verified(j, expected)
       <==> && SnapshotsOk(fields, events[2].payload.value, events[4].payload.value)
            && (expected.Some? ==> SafeRunId(expected.value) == SafeRunId(runId))
  {
    BuiltRecordIsFine(runId, fields, events, j, expected);
    BuiltEventsAreFine(runId, fields, events, j);
  }

  /** Verified journals have one head digest exactly when they tell one history;
      when their events are as the builder writes them, exactly when the events
      are identical. */
  lemma {:induction false} HeadDecidesHistory(a: Journal, b: Journal, x: Option<string>, y: Option<string>)
    requires Verified(a, x) && Verified(b, y)
    ensures a.body.head == b.body.head <==> SameHistory(a.body.events.value, b.body.events.value)
    ensures AllPlain(a.body.events.value) && AllPlain(b.body.events.value) ==>
      (a.body.head == b.body.head <==> a.body.events == b.body.events)
  {
    SameHeadExactly(a.body.events.value, b.body.events.value);
    HeadNamesPlainChain(a.body.events.value, b.body.events.value);
  }

  /** The first event with a space in front of its kind, the number 0 written as
      `0.0` (or as `0`) and one more key. */
  function Decorated(entries: seq<Entry>): (changed: seq<Entry>)
    requires entries != [] && entries[0].Event?
    ensures |changed| == |entries| && forall i | 1 <= i < |entries| :: changed[i] == entries[i]
  {
    var e := entries[0];
    var number := if e.sequence == Int(0) then Float(0, 0.0) else Int(0);
    var note := if "note" in e.extra then e.extra - {"note"} else e.extra["note" := Null];
    entries[0 := e.(kind := [' '] + e.kind, sequence := number, extra := note)]
  }

  lemma {:induction false} DecorationKeepsKinds(entries: seq<Entry>)
    requires entries != [] && entries[0].Event?
    ensures Decorated(entries)[0].Event? && Strip(Decorated(entries)[0].kind) == Strip(entries[0].kind)
  {
    assert Decorated(entries)[0].kind[1..] == entries[0].kind;
  }

  lemma {:induction false} DecorationKeepsPlaces(kinds: seq<string>, entries: seq<Entry>)
    requires KindsOk(kinds, entries) && IsChain(entries) && entries != [] && entries[0].Event?
    ensures KindsOk(kinds, Decorated(entries)) && IsChain(Decorated(entries))
  {
    DecorationKeepsKinds(entries);
    forall i | 0 <= i < |entries| ensures Linked(Decorated(entries), i) {
      assert Linked(entries, i);
    }
  }

  lemma {:induction false} DecorationKeepsChain(entries: seq<Entry>)
    requires SevenInPlace(entries)
    ensures SevenInPlace(Decorated(entries))
    ensures PreviousDigest(Decorated(entries), |entries|) == PreviousDigest(entries, |entries|)
  {
    DecorationKeepsKinds(entries);
    DecorationKeepsPlaces(KINDS, entries);
  }

  lemma {:induction false} DecorationIsEncodable(entries: seq<Entry>)
    requires entries != [] && entries[0].Event? && forall i | 0 <= i < |entries| :: EncodableEntry(entries[i])
    ensures forall i | 0 <= i < |entries| :: EncodableEntry(Decorated(entries)[i])
  {
    assert EncodableEntry(entries[0]);
  }

  /** Spaces around a kind, the spelling of the sequence number and foreign keys of
      an event are outside the chain: any verified journal has another one with the
      same head and other events, which is not as the builder writes it. */
  lemma {:induction false} HeadMissesDecoration(j: Journal, x: Option<string>) returns (other: Journal)
    requires Verified(j, x)
    ensures Verified(other, x) && other.body.head == j.body.head
    ensures var was, now := j.body.events.value[0], other.body.events.value[0];
      && now.kind == [' '] + was.kind && now.sequence != was.sequence && now.extra != was.extra
    ensures !AllPlain(other.body.events.value) && other.seal != j.seal
  {
    var entries := j.body.events.value;
    var changed := Decorated(entries);
    DecorationKeepsChain(entries);
    var body := j.body.(events := Some(changed));
    other := Journal(body, SealOf(body));
    DecorationIsEncodable(entries);
    assert changed[0] != entries[0];
  }
}
