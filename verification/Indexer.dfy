/** The lightweight source index: full build, incremental rebuild and the
    read-side freshness guard. */
module Indexer {

  /** A repository-relative path. */
  datatype Path = Path(text: string)
  type Bytes = string

  /** SHA-256 taken as injective: a digest is the bytes it was computed from. */
  datatype Digest = Sha256(bytes: Bytes)

  datatype File = File(bytes: Bytes, mtime: nat)

  type Files = map<Path, File>

  /** One line of a row file; `info` stands for the symbol or route fields. */
  datatype Row = Row(file: Path, digest: Digest, info: string)

  datatype Entry = Entry(digest: Digest, size: nat, mtime: nat)

  /** What the parsers find in a file: a function of its path and its text. */
  datatype Parser = Parser(symbols: (Path, Bytes) -> seq<string>, endpoints: (Path, Bytes) -> seq<string>)

  /** The three published files. A missing state file reads as no entries. */
  datatype Store = Store(symbols: seq<Row>, endpoints: seq<Row>, state: map<Path, Entry>)

  function Tag(rel: Path, digest: Digest, infos: seq<string>): (rows: seq<Row>)
    ensures |rows| == |infos|
    ensures forall i :: 0 <= i < |infos| ==> rows[i] == Row(rel, digest, infos[i])
  {
    seq(|infos|, i requires 0 <= i < |infos| => Row(rel, digest, infos[i]))
  }

  /** `_parse_file`, for either kind of row. */
  function ParseFile(parse: (Path, Bytes) -> seq<string>, rel: Path, bytes: Bytes, digest: Digest): seq<Row> {
    Tag(rel, digest, parse(rel, bytes))
  }

  /** `_state_entry`. */
  function EntryOf(f: File, digest: Digest): Entry {
    Entry(digest, |f.bytes|, f.mtime)
  }

  predicate StatMatches(f: File, e: Entry) {
    e.size == |f.bytes| && e.mtime == f.mtime
  }

  /** `row_fresh`. Every row carries its file. */
  predicate RowFresh(fs: Files, state: map<Path, Entry>, row: Row) {
    && row.file in fs
    && row.file in state
    && row.digest == state[row.file].digest
    && Sha256(fs[row.file].bytes) == state[row.file].digest
  }

  /** The rows of one file, in stored order. */
  function RowsOf(rows: seq<Row>, rel: Path): seq<Row> {
    if rows == [] then []
    else
      var front := RowsOf(rows[..|rows| - 1], rel);
      if rows[|rows| - 1].file == rel then front + [rows[|rows| - 1]] else front
  }

  /** `[r for r in rows if r.get("file") in keep]`. */
  function Kept(rows: seq<Row>, keep: set<Path>): seq<Row> {
    if rows == [] then []
    else
      var front := Kept(rows[..|rows| - 1], keep);
      if rows[|rows| - 1].file in keep then front + [rows[|rows| - 1]] else front
  }

  lemma {:induction false} RowsOfAppend(a: seq<Row>, b: seq<Row>, rel: Path)
    ensures RowsOf(a + b, rel) == RowsOf(a, rel) + RowsOf(b, rel)
  {
    if b == [] {
      assert a + b == a;
    } else {
      assert (a + b)[..|a + b| - 1] == a + b[..|b| - 1];
      RowsOfAppend(a, b[..|b| - 1], rel);
    }
  }

  lemma {:induction false} RowsOfSameFile(rows: seq<Row>, owner: Path, rel: Path)
    requires forall r :: r in rows ==> r.file == owner
    ensures RowsOf(rows, rel) == if rel == owner then rows else []
  {
    if rows != [] {
      assert rows == rows[..|rows| - 1] + [rows[|rows| - 1]];
      RowsOfSameFile(rows[..|rows| - 1], owner, rel);
    }
  }

  lemma {:induction false} RowsOfKept(rows: seq<Row>, keep: set<Path>, rel: Path)
    ensures RowsOf(Kept(rows, keep), rel) == if rel in keep then RowsOf(rows, rel) else []
  {
    if rows != [] {
      var front, last := rows[..|rows| - 1], rows[|rows| - 1];
      RowsOfKept(front, keep, rel);
      RowsOfAppend(Kept(front, keep), [last], rel);
      RowsOfSameFile([last], last.file, rel);
    }
  }

  /** Row files with the same rows for every path hold the same rows. */
  lemma {:induction false} CountInRowsOf(rows: seq<Row>, r: Row)
    ensures multiset(rows)[r] == multiset(RowsOf(rows, r.file))[r]
  {
    if rows != [] {
      var front, last := rows[..|rows| - 1], rows[|rows| - 1];
      assert rows == front + [last];
      CountInRowsOf(front, r);
    }
  }

  lemma {:induction false} SameRowsPerFile(a: seq<Row>, b: seq<Row>)
    requires forall rel :: RowsOf(a, rel) == RowsOf(b, rel)
    ensures multiset(a) == multiset(b)
  {
    forall r ensures multiset(a)[r] == multiset(b)[r] {
      CountInRowsOf(a, r);
      CountInRowsOf(b, r);
    }
  }

  // ------------------------------------------------------------- full build

  /** What parsing the present bytes of `rel` gives. */
  function FreshRows(parse: (Path, Bytes) -> seq<string>, fs: Files, rel: Path): seq<Row>
    requires rel in fs
  {
    Tag(rel, Sha256(fs[rel].bytes), parse(rel, fs[rel].bytes))
  }

  ghost predicate FilledAt(parse: (Path, Bytes) -> seq<string>, fs: Files, done: set<Path>,
                           base: seq<Row>, keep: set<Path>, rows: seq<Row>, rel: Path)
    requires done <= fs.Keys
  {
    RowsOf(rows, rel) ==
      if rel in done then FreshRows(parse, fs, rel) else if rel in keep then RowsOf(base, rel) else []
  }

  /** The rows of the files in `done` are freshly parsed, those of the files in
      `keep` are as in `base`, and no other file has rows. */
  ghost predicate Filled(parse: (Path, Bytes) -> seq<string>, fs: Files, done: set<Path>,
                         base: seq<Row>, keep: set<Path>, rows: seq<Row>)
    requires done <= fs.Keys
  {
    forall rel :: FilledAt(parse, fs, done, base, keep, rows, rel)
  }

  lemma {:induction false} FilledStep(parse: (Path, Bytes) -> seq<string>, fs: Files, done: set<Path>,
                                      base: seq<Row>, keep: set<Path>, rows: seq<Row>, next: Path)
    requires done <= fs.Keys && Filled(parse, fs, done, base, keep, rows)
    requires next in fs && next !in done && next !in keep
    ensures Filled(parse, fs, done + {next}, base, keep, rows + FreshRows(parse, fs, next))
  {
    forall rel ensures FilledAt(parse, fs, done + {next}, base, keep, rows + FreshRows(parse, fs, next), rel) {
      assert FilledAt(parse, fs, done, base, keep, rows, rel);
      RowsOfAppend(rows, FreshRows(parse, fs, next), rel);
      RowsOfSameFile(FreshRows(parse, fs, next), next, rel);
    }
  }

  lemma {:induction false} FilledStart(parse: (Path, Bytes) -> seq<string>, fs: Files, base: seq<Row>, keep: set<Path>)
    ensures Filled(parse, fs, {}, base, keep, Kept(base, keep))
  {
    forall rel ensures FilledAt(parse, fs, {}, base, keep, Kept(base, keep), rel) {
      RowsOfKept(base, keep, rel);
    }
  }

  ghost predicate RowsCurrent(p: Parser, fs: Files, s: Store, rel: Path) {
    && RowsOf(s.symbols, rel) == (if rel in fs then FreshRows(p.symbols, fs, rel) else [])
    && RowsOf(s.endpoints, rel) == (if rel in fs then FreshRows(p.endpoints, fs, rel) else [])
  }

  /** The store holds exactly the rows that parsing the files gives, each under its
      file and the digest of its bytes, and records exactly these digests. */
  ghost predicate HoldsExactly(parse: (Path, Bytes) -> seq<string>, fs: Files, rows: seq<Row>) {
    forall row :: row in rows <==>
      row.file in fs && row.digest.bytes == fs[row.file].bytes && row.info in parse(row.file, fs[row.file].bytes)
  }

  /** The store answers every query as a fresh parse of `fs` would: the digests
      of all files, and each file's rows in parse order. */
  ghost predicate UpToDate(p: Parser, fs: Files, s: Store) {
    && s.state.Keys == fs.Keys
    && (forall rel :: rel in fs ==> s.state[rel].digest == Sha256(fs[rel].bytes))
    && (forall rel :: RowsCurrent(p, fs, s, rel))
  }

  lemma {:induction false} MembersByFile(rows: seq<Row>, row: Row)
    ensures row in rows <==> row in RowsOf(rows, row.file)
  {
    CountInRowsOf(rows, row);
    assert row in rows <==> row in multiset(rows);
    assert row in RowsOf(rows, row.file) <==> row in multiset(RowsOf(rows, row.file));
  }

  lemma {:induction false} FreshMembers(parse: (Path, Bytes) -> seq<string>, fs: Files, row: Row)
    requires row.file in fs
    ensures row in FreshRows(parse, fs, row.file) <==>
      row.digest.bytes == fs[row.file].bytes && row.info in parse(row.file, fs[row.file].bytes)
  {
    var infos := parse(row.file, fs[row.file].bytes);
    if row.digest.bytes == fs[row.file].bytes && row.info in infos {
      var i :| 0 <= i < |infos| && infos[i] == row.info;
      assert FreshRows(parse, fs, row.file)[i] == row;
    }
  }

  /** What an up-to-date store is, in terms of its rows: it holds what parsing gives, and
      the guard lets every one of its rows through. */
  lemma {:induction false} UpToDateMeans(p: Parser, fs: Files, s: Store)
    requires UpToDate(p, fs, s)
    ensures HoldsExactly(p.symbols, fs, s.symbols) && HoldsExactly(p.endpoints, fs, s.endpoints)
    ensures forall row :: row in s.symbols + s.endpoints ==> RowFresh(fs, s.state, row)
  {
    forall row
      ensures row in s.symbols <==>
        row.file in fs && row.digest.bytes == fs[row.file].bytes && row.info in p.symbols(row.file, fs[row.file].bytes)
      ensures row in s.endpoints <==>
        && row.file in fs && row.digest.bytes == fs[row.file].bytes
        && row.info in p.endpoints(row.file, fs[row.file].bytes)
    {
      assert RowsCurrent(p, fs, s, row.file);
      MembersByFile(s.symbols, row);
      MembersByFile(s.endpoints, row);
      if row.file in fs {
        FreshMembers(p.symbols, fs, row);
        FreshMembers(p.endpoints, fs, row);
      }
    }
  }

  /** Exactly which rows the guard lets through: those whose file is there and recorded,
      with one digest in the row, in the state and of the present bytes. */
  lemma {:induction false} GuardExactly(fs: Files, state: map<Path, Entry>, row: Row)
    ensures RowFresh(fs, state, row) <==>
      row.file in fs && row.file in state && row.digest.bytes == state[row.file].digest.bytes == fs[row.file].bytes
  {
  }

  // ----------------------------------------------------- incremental rebuild

  predicate StatReused(prior: map<Path, Entry>, rel: Path, f: File, strict: bool) {
    !strict && rel in prior && StatMatches(f, prior[rel])
  }

  predicate Changed(prior: map<Path, Entry>, rel: Path, f: File, strict: bool) {
    !StatReused(prior, rel, f, strict) && !(rel in prior && prior[rel].digest == Sha256(f.bytes))
  }

  function ChangedSet(prior: map<Path, Entry>, fs: Files, strict: bool): set<Path> {
    set rel | rel in fs && Changed(prior, rel, fs[rel], strict)
  }

  function NewEntry(prior: map<Path, Entry>, rel: Path, f: File, strict: bool): Entry {
    EntryOf(f, if StatReused(prior, rel, f, strict) then prior[rel].digest else Sha256(f.bytes))
  }

  ghost predicate EntriesFor(prior: map<Path, Entry>, fs: Files, strict: bool, entries: map<Path, Entry>) {
    entries.Keys <= fs.Keys && forall rel :: rel in entries ==> entries[rel] == NewEntry(prior, rel, fs[rel], strict)
  }

  /** What an undisturbed incremental run makes of the stored files. */
  ghost predicate Rebuilt(p: Parser, fs: Files, prior: Store, strict: bool, s: Store) {
    var changed := ChangedSet(prior.state, fs, strict);
    && s.state.Keys == fs.Keys
    && EntriesFor(prior.state, fs, strict, s.state)
    && Filled(p.symbols, fs, changed, prior.symbols, fs.Keys - changed, s.symbols)
    && Filled(p.endpoints, fs, changed, prior.endpoints, fs.Keys - changed, s.endpoints)
  }

  ghost predicate ChangedIn(prior: map<Path, Entry>, fs: Files, strict: bool, done: set<Path>, changed: set<Path>) {
    && done <= fs.Keys && changed <= done
    && forall rel :: rel in done ==> (rel in changed <==> Changed(prior, rel, fs[rel], strict))
  }

  lemma {:induction false} EntriesStep(prior: map<Path, Entry>, fs: Files, strict: bool,
                                       entries: map<Path, Entry>, next: Path)
    requires EntriesFor(prior, fs, strict, entries) && next in fs
    ensures EntriesFor(prior, fs, strict, entries[next := NewEntry(prior, next, fs[next], strict)])
  {
  }

  /** The changed files after one more file was looked at. */
  function WithFile(changed: set<Path>, next: Path, same: bool): set<Path> {
    if same then changed else changed + {next}
  }

  function One(counted: bool): nat { if counted then 1 else 0 }

  lemma {:induction false} ChangedStep(prior: map<Path, Entry>, fs: Files, strict: bool, done: set<Path>,
                                       changed: set<Path>, next: Path, same: bool)
    requires ChangedIn(prior, fs, strict, done, changed) && next in fs && next !in done
    requires same <==> !Changed(prior, next, fs[next], strict)
    ensures ChangedIn(prior, fs, strict, done + {next}, WithFile(changed, next, same))
    ensures |WithFile(changed, next, same)| == |changed| + One(!same)
  {
    assert next !in changed;
  }

  /** The classifying loop with the files `todo` still to be looked at. */
  ghost predicate Classified(prior: map<Path, Entry>, fs: Files, strict: bool, todo: set<Path>,
                             entries: map<Path, Entry>, changed: set<Path>)
  {
    && todo <= fs.Keys && entries.Keys == fs.Keys - todo
    && EntriesFor(prior, fs, strict, entries) && ChangedIn(prior, fs, strict, entries.Keys, changed)
  }

  /** Its counters: every file seen is skipped or changed, and reused or hashed. */
  ghost predicate Counted(all: set<Path>, todo: set<Path>, changed: set<Path>,
                          skipped: nat, statReused: nat, hashed: nat)
  {
    skipped + |changed| + |todo| == |all| == statReused + hashed + |todo|
  }

  lemma {:induction false} KeysGrow(entries: map<Path, Entry>, next: Path, entry: Entry)
    ensures entries[next := entry].Keys == entries.Keys + {next}
  {
  }

  lemma {:induction false} MoveOne(all: set<Path>, todo: set<Path>, next: Path)
    requires next in todo && todo <= all
    ensures all - todo + {next} == all - (todo - {next})
    ensures |todo - {next}| == |todo| - 1
  {
  }

  lemma {:induction false} ClassifyStep(prior: map<Path, Entry>, fs: Files, strict: bool, todo: set<Path>,
                                        entries: map<Path, Entry>, changed: set<Path>, next: Path, entry: Entry,
                                        same: bool)
    requires Classified(prior, fs, strict, todo, entries, changed) && next in todo
    requires entry == NewEntry(prior, next, fs[next], strict)
    requires same <==> !Changed(prior, next, fs[next], strict)
    ensures Classified(prior, fs, strict, todo - {next}, entries[next := entry], WithFile(changed, next, same))
    ensures |WithFile(changed, next, same)| == |changed| + One(!same)
    ensures |todo - {next}| == |todo| - 1
  {
    MoveOne(fs.Keys, todo, next);
    KeysGrow(entries, next, entry);
    EntriesStep(prior, fs, strict, entries, next);
    ChangedStep(prior, fs, strict, entries.Keys, changed, next, same);
  }

  /** With nothing left to look at, the loop has found the changed files. */
  lemma {:induction false} ClassifyDone(prior: map<Path, Entry>, fs: Files, strict: bool,
                                        entries: map<Path, Entry>, changed: set<Path>,
                                        skipped: nat, statReused: nat, hashed: nat)
    requires Classified(prior, fs, strict, {}, entries, changed)
    requires Counted(fs.Keys, {}, changed, skipped, statReused, hashed)
    ensures entries.Keys == fs.Keys && EntriesFor(prior, fs, strict, entries)
    ensures changed == ChangedSet(prior, fs, strict)
    ensures skipped + |changed| == |fs| == statReused + hashed
  {
    assert fs.Keys - {} == fs.Keys;
  }

  /** The file is new or its size or time is not the recorded one, or every file is hashed. */
  ghost predicate MustHash(prior: map<Path, Entry>, rel: Path, f: File, strict: bool) {
    strict || rel !in prior || prior[rel].size != |f.bytes| || prior[rel].mtime != f.mtime
  }

  /** `hashed` files were hashed so far: those that must be, and no others. */
  ghost predicate HashedSoFar(prior: map<Path, Entry>, fs: Files, strict: bool, done: set<Path>,
                              hashedFiles: set<Path>, hashed: nat)
  {
    && hashed == |hashedFiles| && hashedFiles <= done <= fs.Keys
    && forall rel :: rel in done ==> (rel in hashedFiles <==> MustHash(prior, rel, fs[rel], strict))
  }

  /** The files recorded with another digest than before, or for the first time. */
  ghost function Differing(before: map<Path, Entry>, after: map<Path, Entry>): set<Path> {
    set rel | rel in after && (rel !in before || before[rel].digest != after[rel].digest)
  }

  lemma {:induction false} ChangedDiffer(prior: map<Path, Entry>, fs: Files, strict: bool, entries: map<Path, Entry>)
    requires entries.Keys == fs.Keys && EntriesFor(prior, fs, strict, entries)
    ensures ChangedSet(prior, fs, strict) == Differing(prior, entries)
  {
  }

  lemma {:induction false} HashedStep(prior: map<Path, Entry>, fs: Files, strict: bool, done: set<Path>,
                                      hashedFiles: set<Path>, hashed: nat, next: Path, reused: bool)
    requires HashedSoFar(prior, fs, strict, done, hashedFiles, hashed) && next in fs && next !in done
    requires reused <==> !MustHash(prior, next, fs[next], strict)
    ensures HashedSoFar(prior, fs, strict, done + {next}, WithFile(hashedFiles, next, reused), hashed + One(!reused))
  {
    assert next !in hashedFiles;
  }

  lemma {:induction false} FilledEverywhere(p: Parser, fs: Files, s: Store)
    requires s.state.Keys == fs.Keys
    requires forall rel :: rel in fs ==> s.state[rel].digest == Sha256(fs[rel].bytes)
    requires Filled(p.symbols, fs, fs.Keys, [], {}, s.symbols) && Filled(p.endpoints, fs, fs.Keys, [], {}, s.endpoints)
    ensures UpToDate(p, fs, s)
  {
    forall rel ensures RowsCurrent(p, fs, s, rel) {
      assert FilledAt(p.symbols, fs, fs.Keys, [], {}, s.symbols, rel);
      assert FilledAt(p.endpoints, fs, fs.Keys, [], {}, s.endpoints, rel);
    }
  }

  class IndexDirectory {
    var symbols: seq<Row>
    var endpoints: seq<Row>
    var state: map<Path, Entry>

    ghost function Value(): Store reads this { Store(symbols, endpoints, state) }

    /** `build_indexes`, with the files at rest. The walk order is arbitrary. */
    method BuildIndexes(p: Parser, fs: Files) returns (files: nat, symbolCount: nat, endpointCount: nat)
      modifies this
      ensures UpToDate(p, fs, Value())
      ensures forall rel :: rel in fs ==> state[rel] == EntryOf(fs[rel], Sha256(fs[rel].bytes))
      ensures files == |state| && symbolCount == |symbols| && endpointCount == |endpoints|
    {
      var newSymbols: seq<Row>, newEndpoints: seq<Row>, newState: map<Path, Entry> := [], [], map[];
      var todo := fs.Keys;
      FilledStart(p.symbols, fs, [], {});
      FilledStart(p.endpoints, fs, [], {});
      assert newState.Keys == {};
      while todo != {}
        invariant todo <= fs.Keys && newState.Keys == fs.Keys - todo
        invariant forall rel :: rel in newState ==> newState[rel] == EntryOf(fs[rel], Sha256(fs[rel].bytes))
        invariant Filled(p.symbols, fs, newState.Keys, [], {}, newSymbols)
        invariant Filled(p.endpoints, fs, newState.Keys, [], {}, newEndpoints)
        decreases |todo|
      {
        var next :| next in todo;
        FilledStep(p.symbols, fs, newState.Keys, [], {}, newSymbols, next);
        FilledStep(p.endpoints, fs, newState.Keys, [], {}, newEndpoints, next);
        KeysGrow(newState, next, EntryOf(fs[next], Sha256(fs[next].bytes)));
        MoveOne(fs.Keys, todo, next);
        todo := todo - {next};
        var digest := Sha256(fs[next].bytes);
        newState := newState[next := EntryOf(fs[next], digest)];
        newSymbols := newSymbols + ParseFile(p.symbols, next, fs[next].bytes, digest);
        newEndpoints := newEndpoints + ParseFile(p.endpoints, next, fs[next].bytes, digest);
      }
      assert newState.Keys == fs.Keys;
      symbols := newSymbols;
      endpoints := newEndpoints;
      state := newState;
      FilledEverywhere(p, fs, Value());
      return |state|, |symbols|, |endpoints|;
    }

    /** `incremental_indexes`, with the files at rest. */
    method IncrementalIndexes(p: Parser, fs: Files, strict: bool)
      returns (changedCount: nat, removed: nat, skipped: nat, statReused: nat, hashed: nat,
               ghost hashedFiles: set<Path>)
      modifies this
      ensures Rebuilt(p, fs, old(Value()), strict, Value())
      ensures changedCount == |ChangedSet(old(state), fs, strict)| && removed == |old(state).Keys - fs.Keys|
      ensures skipped + changedCount == |fs| == statReused + hashed
      ensures strict ==> statReused == 0
      ensures HashedSoFar(old(state), fs, strict, fs.Keys, hashedFiles, hashed)
      ensures state.Keys == fs.Keys && forall rel :: rel in fs ==>
        && state[rel].size == |fs[rel].bytes| && state[rel].mtime == fs[rel].mtime
        && state[rel].digest == if rel in hashedFiles then Sha256(fs[rel].bytes) else old(state)[rel].digest
      ensures changedCount == |Differing(old(state), state)|
    {
      var newState, changed;
      newState, changed, skipped, statReused, hashed, hashedFiles := Classify(state, fs, strict);
      ChangedDiffer(state, fs, strict, newState);
      removed := |state.Keys - fs.Keys|;
      changedCount := |changed|;
      var newSymbols, newEndpoints := Refill(p, fs, fs.Keys - changed, changed, newState);
      symbols := newSymbols;
      endpoints := newEndpoints;
      state := newState;
    }

    /** One iteration of the classifying loop: trust the recorded digest when the
        size and time still match, hash the bytes otherwise. */
    static method Inspect(prior: map<Path, Entry>, rel: Path, f: File, strict: bool)
      returns (entry: Entry, same: bool, reused: bool)
      ensures entry == NewEntry(prior, rel, f, strict)
      ensures same <==> !Changed(prior, rel, f, strict)
      ensures reused <==> StatReused(prior, rel, f, strict)
      ensures reused <==> !strict && rel in prior && prior[rel].size == |f.bytes| && prior[rel].mtime == f.mtime
      ensures entry.size == |f.bytes| && entry.mtime == f.mtime
      ensures entry.digest == if reused then prior[rel].digest else Sha256(f.bytes)
      ensures same <==> rel in prior && prior[rel].digest == entry.digest
    {
      if !strict && rel in prior && StatMatches(f, prior[rel]) {
        return EntryOf(f, prior[rel].digest), true, true;
      }
      var digest := Sha256(f.bytes);
      return EntryOf(f, digest), rel in prior && prior[rel].digest == digest, false;
    }

    /** The first half of `incremental_indexes`: which files changed. */
    static method Classify(prior: map<Path, Entry>, fs: Files, strict: bool)
      returns (newState: map<Path, Entry>, changed: set<Path>, skipped: nat, statReused: nat, hashed: nat,
               ghost hashedFiles: set<Path>)
      ensures newState.Keys == fs.Keys
      ensures EntriesFor(prior, fs, strict, newState)
      ensures changed == ChangedSet(prior, fs, strict)
      ensures skipped + |changed| == |fs| == statReused + hashed
      ensures strict ==> statReused == 0
      ensures HashedSoFar(prior, fs, strict, fs.Keys, hashedFiles, hashed)
    {
      newState, changed, skipped, statReused, hashed, hashedFiles := map[], {}, 0, 0, 0, {};
      var todo := fs.Keys;
      while todo != {}
        invariant Classified(prior, fs, strict, todo, newState, changed)
        invariant Counted(fs.Keys, todo, changed, skipped, statReused, hashed)
        invariant strict ==> statReused == 0
        invariant HashedSoFar(prior, fs, strict, newState.Keys, hashedFiles, hashed)
        decreases |todo|
      {
        var next :| next in todo;
        var entry, same, reused := Inspect(prior, next, fs[next], strict);
        ClassifyStep(prior, fs, strict, todo, newState, changed, next, entry, same);
        HashedStep(prior, fs, strict, newState.Keys, hashedFiles, hashed, next, reused);
        KeysGrow(newState, next, entry);
        hashedFiles := WithFile(hashedFiles, next, reused);
        todo := todo - {next};
        newState := newState[next := entry];
        changed := WithFile(changed, next, same);
        skipped, statReused, hashed := skipped + One(same), statReused + One(reused), hashed + One(!reused);
      }
      ClassifyDone(prior, fs, strict, newState, changed, skipped, statReused, hashed);
    }

    /** The second half of `incremental_indexes`: keep the rows of unchanged
        files, then parse the changed ones in some order. */
    method Refill(p: Parser, fs: Files, keep: set<Path>, changed: set<Path>, entries: map<Path, Entry>)
      returns (newSymbols: seq<Row>, newEndpoints: seq<Row>)
      requires changed <= fs.Keys <= entries.Keys && keep !! changed
      requires forall rel :: rel in changed ==> entries[rel].digest == Sha256(fs[rel].bytes)
      ensures Filled(p.symbols, fs, changed, symbols, keep, newSymbols)
      ensures Filled(p.endpoints, fs, changed, endpoints, keep, newEndpoints)
    {
      newSymbols, newEndpoints := Kept(symbols, keep), Kept(endpoints, keep);
      FilledStart(p.symbols, fs, symbols, keep);
      FilledStart(p.endpoints, fs, endpoints, keep);
      var todo := changed;
      assert changed - todo == {};
      while todo != {}
        invariant todo <= changed
        invariant Filled(p.symbols, fs, changed - todo, symbols, keep, newSymbols)
        invariant Filled(p.endpoints, fs, changed - todo, endpoints, keep, newEndpoints)
        decreases |todo|
      {
        var next :| next in todo;
        FilledStep(p.symbols, fs, changed - todo, symbols, keep, newSymbols, next);
        FilledStep(p.endpoints, fs, changed - todo, endpoints, keep, newEndpoints, next);
        MoveOne(changed, todo, next);
        todo := todo - {next};
        var digest := entries[next].digest;
        newSymbols := newSymbols + ParseFile(p.symbols, next, fs[next].bytes, digest);
        newEndpoints := newEndpoints + ParseFile(p.endpoints, next, fs[next].bytes, digest);
      }
      assert changed - todo == changed;
    }
  }

  /** One file after an undisturbed incremental run. */
  lemma {:induction false} RebuiltAt(p: Parser, fs: Files, prior: Store, strict: bool, s: Store, rel: Path)
    requires Rebuilt(p, fs, prior, strict, s)
    ensures rel !in fs ==> RowsOf(s.symbols, rel) == RowsOf(s.endpoints, rel) == []
    ensures rel in fs && Changed(prior.state, rel, fs[rel], strict) ==> RowsCurrent(p, fs, s, rel)
    ensures rel in fs && !Changed(prior.state, rel, fs[rel], strict) ==>
      RowsOf(s.symbols, rel) == RowsOf(prior.symbols, rel) && RowsOf(s.endpoints, rel) == RowsOf(prior.endpoints, rel)
  {
    var changed := ChangedSet(prior.state, fs, strict);
    assert FilledAt(p.symbols, fs, changed, prior.symbols, fs.Keys - changed, s.symbols, rel);
    assert FilledAt(p.endpoints, fs, changed, prior.endpoints, fs.Keys - changed, s.endpoints, rel);
  }

  // --------------------------------------- incremental against full rebuild

  /** Stored rows are the parse of the bytes whose digest the state records. */
  ghost predicate EntryBacked(p: Parser, s: Store, rel: Path)
    requires rel in s.state
  {
    var d := s.state[rel].digest;
    && RowsOf(s.symbols, rel) == ParseFile(p.symbols, rel, d.bytes, d)
    && RowsOf(s.endpoints, rel) == ParseFile(p.endpoints, rel, d.bytes, d)
  }

  ghost predicate Consistent(p: Parser, s: Store) {
    forall rel :: rel in s.state ==> EntryBacked(p, s, rel)
  }

  /** An incremental run never spoils a consistent store, in either mode. */
  lemma {:induction false} RebuildKeepsConsistency(p: Parser, fs: Files, prior: Store, strict: bool, s: Store)
    requires Consistent(p, prior) && Rebuilt(p, fs, prior, strict, s)
    ensures Consistent(p, s)
  {
    forall rel | rel in s.state ensures EntryBacked(p, s, rel) {
      RebuiltAt(p, fs, prior, strict, s, rel);
      if !Changed(prior.state, rel, fs[rel], strict) {
        assert EntryBacked(p, prior, rel);
      }
    }
  }

  /** No file that keeps its recorded size and modification time was edited. */
  ghost predicate NoDisguisedEdit(prior: map<Path, Entry>, fs: Files, strict: bool) {
    forall rel :: rel in fs && StatReused(prior, rel, fs[rel], strict) ==> prior[rel].digest == Sha256(fs[rel].bytes)
  }

  /** Exactly when an incremental run over a consistent store gives what a full
      build would: no file that still has its recorded size and modification
      time holds other bytes. With strict hashing this always holds. */
  lemma {:induction false} RebuildMatchesFullBuild(p: Parser, fs: Files, prior: Store, strict: bool, s: Store)
    requires Consistent(p, prior) && Rebuilt(p, fs, prior, strict, s)
    ensures UpToDate(p, fs, s) <==> NoDisguisedEdit(prior.state, fs, strict)
    ensures strict ==> UpToDate(p, fs, s)
  {
    if NoDisguisedEdit(prior.state, fs, strict) {
      forall rel ensures RowsCurrent(p, fs, s, rel) {
        RebuiltAt(p, fs, prior, strict, s, rel);
        if rel in fs && !Changed(prior.state, rel, fs[rel], strict) {
          assert EntryBacked(p, prior, rel);
        }
      }
    } else {
      var rel :| rel in fs && StatReused(prior.state, rel, fs[rel], strict)
                 && prior.state[rel].digest != Sha256(fs[rel].bytes);
      assert s.state[rel].digest == prior.state[rel].digest;
    }
  }

  const NOTHING_STORED := Store([], [], map[])

  lemma {:induction false} EmptyIsConsistent(p: Parser)
    ensures Consistent(p, NOTHING_STORED)
  {
  }

  /** A file whose bytes are not the recorded ones shows it by its size or its time. */
  ghost predicate ShowsEdit(prior: map<Path, Entry>, rel: Path, f: File) {
    rel in prior && prior[rel].digest.bytes != f.bytes ==> prior[rel].size != |f.bytes| || prior[rel].mtime != f.mtime
  }

  /** If every edited file shows it, a run in either mode indexes all edits. */
  lemma {:induction false} VisibleEditsAreIndexed(p: Parser, fs: Files, prior: Store, strict: bool, s: Store)
    requires Consistent(p, prior) && Rebuilt(p, fs, prior, strict, s)
    requires forall rel :: rel in fs ==> ShowsEdit(prior.state, rel, fs[rel])
    ensures UpToDate(p, fs, s)
  {
    forall rel | rel in fs && StatReused(prior.state, rel, fs[rel], strict)
      ensures prior.state[rel].digest == Sha256(fs[rel].bytes)
    {
      assert ShowsEdit(prior.state, rel, fs[rel]);
    }
    RebuildMatchesFullBuild(p, fs, prior, strict, s);
  }

  /** Over the empty store an incremental run in either mode is a full build. */
  lemma {:induction false} FirstRunIsFullBuild(p: Parser, fs: Files, strict: bool, s: Store)
    requires Rebuilt(p, fs, NOTHING_STORED, strict, s)
    ensures UpToDate(p, fs, s)
  {
    EmptyIsConsistent(p);
    RebuildMatchesFullBuild(p, fs, NOTHING_STORED, strict, s);
  }

  /** A file "a" becomes "b" and keeps its size 1 and its time 7: the stat-reusing run
      trusts it and leaves the store as it is, which is no longer what a full build
      would give; a strict run would have noticed. */
  lemma {:induction false} DisguisedEditIsMissed(p: Parser, rel: Path) returns (prior: Store, was: Files, now: Files)
    ensures was == map[rel := File("a", 7)] && now == map[rel := File("b", 7)]
    ensures UpToDate(p, was, prior) && Rebuilt(p, now, prior, false, prior) && !UpToDate(p, now, prior)
    ensures ChangedSet(prior.state, now, false) == {} && ChangedSet(prior.state, now, true) == {rel}
  {
    was, now := map[rel := File("a", 7)], map[rel := File("b", 7)];
    prior := Store(FreshRows(p.symbols, was, rel), FreshRows(p.endpoints, was, rel),
                   map[rel := Entry(Sha256("a"), 1, 7)]);
    forall other ensures RowsCurrent(p, was, prior, other) {
      RowsOfSameFile(prior.symbols, rel, other);
      RowsOfSameFile(prior.endpoints, rel, other);
    }
    assert ChangedSet(prior.state, now, false) == {} && now.Keys - {} == {rel};
    forall other
      ensures FilledAt(p.symbols, now, {}, prior.symbols, {rel}, prior.symbols, other)
      ensures FilledAt(p.endpoints, now, {}, prior.endpoints, {rel}, prior.endpoints, other)
    {
      assert RowsCurrent(p, was, prior, other);
    }
    assert now[rel].bytes != "a";
  }

  /** Whatever a crash left behind: after a strict run, the rows of a file are
      current if and only if the state disagreed with its bytes or its stored
      rows were already the right ones. */
  lemma {:induction false} RebuildRepairsExactly(p: Parser, fs: Files, prior: Store, s: Store, rel: Path)
    requires Rebuilt(p, fs, prior, true, s) && rel in fs
    ensures RowsCurrent(p, fs, s, rel) <==>
      rel !in prior.state || prior.state[rel].digest != Sha256(fs[rel].bytes) || RowsCurrent(p, fs, prior, rel)
  {
    RebuiltAt(p, fs, prior, true, s, rel);
  }

  lemma {:induction false} FoundInRowsOf(rows: seq<Row>, row: Row)
    requires row in rows
    ensures row in RowsOf(rows, row.file)
  {
    CountInRowsOf(rows, row);
    assert row in multiset(rows);
  }

  /** A crash between publishing rows and publishing the state, then a revert of
      the file: rows of either kind that carry another digest are kept by every
      later strict run, and none of them is served. */
  lemma {:induction false} CrashThenRevertHidesRows(p: Parser, fs: Files, prior: Store, s: Store, rel: Path,
                                                    crashed: Digest)
    requires Rebuilt(p, fs, prior, true, s) && rel in fs
    requires rel in prior.state && prior.state[rel].digest == Sha256(fs[rel].bytes)
    requires crashed != Sha256(fs[rel].bytes)
    ensures RowsOf(s.symbols, rel) == RowsOf(prior.symbols, rel)
    ensures RowsOf(s.endpoints, rel) == RowsOf(prior.endpoints, rel)
    ensures RowsOf(prior.symbols, rel) == ParseFile(p.symbols, rel, crashed.bytes, crashed) ==>
      forall row :: row in s.symbols && row.file == rel ==> !RowFresh(fs, s.state, row)
    ensures RowsOf(prior.endpoints, rel) == ParseFile(p.endpoints, rel, crashed.bytes, crashed) ==>
      forall row :: row in s.endpoints && row.file == rel ==> !RowFresh(fs, s.state, row)
  {
    RebuiltAt(p, fs, prior, true, s, rel);
    forall row | row in s.symbols && row.file == rel ensures row in RowsOf(s.symbols, rel) {
      FoundInRowsOf(s.symbols, row);
    }
    forall row | row in s.endpoints && row.file == rel ensures row in RowsOf(s.endpoints, rel) {
      FoundInRowsOf(s.endpoints, row);
    }
  }

  ghost predicate StrictRunOver(p: Parser, rel: Path, recorded: Digest, fs: Files, prior: Store, s: Store) {
    rel in fs && Sha256(fs[rel].bytes) == recorded && Rebuilt(p, fs, prior, true, s)
  }

  /** Strict runs that all see the recorded bytes at `rel`, whatever happens to the
      other files: `stores[k + 1]` is what the k-th run makes of `stores[k]`. */
  ghost predicate StrictRunsOver(p: Parser, rel: Path, recorded: Digest, history: seq<Files>, stores: seq<Store>) {
    && |stores| == |history| + 1 && rel in stores[0].state && stores[0].state[rel].digest == recorded
    && forall k: nat :: k < |history| ==> StrictRunOver(p, rel, recorded, history[k], stores[k], stores[k + 1])
  }

  lemma {:induction false} StaleRowsStayOnce(p: Parser, rel: Path, recorded: Digest, crashed: Digest,
                                             fs: Files, prior: Store, s: Store)
    requires StrictRunOver(p, rel, recorded, fs, prior, s) && crashed != recorded
    requires rel in prior.state && prior.state[rel].digest == recorded
    requires RowsOf(prior.symbols, rel) == ParseFile(p.symbols, rel, crashed.bytes, crashed)
    requires RowsOf(prior.endpoints, rel) == ParseFile(p.endpoints, rel, crashed.bytes, crashed)
    ensures RowsOf(s.symbols, rel) == RowsOf(prior.symbols, rel)
    ensures RowsOf(s.endpoints, rel) == RowsOf(prior.endpoints, rel)
    ensures rel in s.state && s.state[rel].digest == recorded
    ensures forall row :: row in s.symbols + s.endpoints && row.file == rel ==> !RowFresh(fs, s.state, row)
  {
    CrashThenRevertHidesRows(p, fs, prior, s, rel, crashed);
  }

  /** The rows of a file carry another digest than the recorded one, as a crash leaves
      them: after any number of strict runs they are still there, and no row of the file
      has ever been served since. */
  lemma {:induction false} StaleRowsStay(p: Parser, rel: Path, recorded: Digest, crashed: Digest,
                                         history: seq<Files>, stores: seq<Store>, k: nat)
    requires StrictRunsOver(p, rel, recorded, history, stores) && crashed != recorded && k < |history|
    requires RowsOf(stores[0].symbols, rel) == ParseFile(p.symbols, rel, crashed.bytes, crashed)
    requires RowsOf(stores[0].endpoints, rel) == ParseFile(p.endpoints, rel, crashed.bytes, crashed)
    ensures RowsOf(stores[k + 1].symbols, rel) == RowsOf(stores[0].symbols, rel)
    ensures RowsOf(stores[k + 1].endpoints, rel) == RowsOf(stores[0].endpoints, rel)
    ensures rel in stores[k + 1].state && stores[k + 1].state[rel].digest == recorded
    ensures forall row :: row in stores[k + 1].symbols + stores[k + 1].endpoints && row.file == rel ==>
      !RowFresh(history[k], stores[k + 1].state, row)
  {
    if k > 0 { StaleRowsStay(p, rel, recorded, crashed, history, stores, k - 1); }
    assert StrictRunOver(p, rel, recorded, history[k], stores[k], stores[k + 1]);
    StaleRowsStayOnce(p, rel, recorded, crashed, history[k], stores[k], stores[k + 1]);
  }

  /** Up-to-date stores agree on all digests and, as multisets, on all rows. */
  lemma {:induction false} UpToDateStoresAgree(p: Parser, fs: Files, a: Store, b: Store)
    requires UpToDate(p, fs, a) && UpToDate(p, fs, b)
    ensures multiset(a.symbols) == multiset(b.symbols) && multiset(a.endpoints) == multiset(b.endpoints)
    ensures forall rel :: rel in fs ==> a.state[rel].digest == b.state[rel].digest
  {
    forall rel
      ensures RowsOf(a.symbols, rel) == RowsOf(b.symbols, rel) && RowsOf(a.endpoints, rel) == RowsOf(b.endpoints, rel)
    {
      assert RowsCurrent(p, fs, a, rel) && RowsCurrent(p, fs, b, rel);
    }
    SameRowsPerFile(a.symbols, b.symbols);
    SameRowsPerFile(a.endpoints, b.endpoints);
  }

  // --------------------------------------------------------- whole histories

  datatype Mode = FullBuild | Incremental(strict: bool)

  /** What one undisturbed run of either kind makes of the store. */
  ghost predicate Ran(p: Parser, mode: Mode, fs: Files, prior: Store, s: Store) {
    match mode
    case FullBuild => UpToDate(p, fs, s)
    case Incremental(strict) => Rebuilt(p, fs, prior, strict, s)
  }

  function StoreBefore(first: Store, stores: seq<Store>, k: nat): Store
    requires k <= |stores|
  {
    if k == 0 then first else stores[k - 1]
  }

  ghost predicate RanAt(p: Parser, first: Store, history: seq<Files>, modes: seq<Mode>, stores: seq<Store>, k: nat)
    requires k < |history| == |modes| == |stores|
  {
    Ran(p, modes[k], history[k], StoreBefore(first, stores, k), stores[k])
  }

  /** A history of full and incremental runs in any order and mode: the k-th sees the
      files `history[k]`, and the first store is consistent, as the empty one is. */
  ghost predicate History(p: Parser, first: Store, history: seq<Files>, modes: seq<Mode>, stores: seq<Store>) {
    && |history| == |modes| == |stores| && Consistent(p, first)
    && forall k: nat :: k < |history| ==> RanAt(p, first, history, modes, stores, k)
  }

  lemma {:induction false} UpToDateIsConsistent(p: Parser, fs: Files, s: Store)
    requires UpToDate(p, fs, s)
    ensures Consistent(p, s)
  {
    forall rel | rel in s.state ensures EntryBacked(p, s, rel) {
      assert RowsCurrent(p, fs, s, rel);
    }
  }

  lemma {:induction false} RanKeepsConsistency(p: Parser, mode: Mode, fs: Files, prior: Store, s: Store)
    requires Consistent(p, prior) && Ran(p, mode, fs, prior, s)
    ensures Consistent(p, s)
  {
    match mode
    case FullBuild => UpToDateIsConsistent(p, fs, s);
    case Incremental(strict) => RebuildKeepsConsistency(p, fs, prior, strict, s);
  }

  lemma {:induction false} StepStaysConsistent(p: Parser, first: Store, history: seq<Files>, modes: seq<Mode>,
                                               stores: seq<Store>, k: nat)
    requires k < |history| == |modes| == |stores| && RanAt(p, first, history, modes, stores, k)
    requires Consistent(p, StoreBefore(first, stores, k))
    ensures Consistent(p, StoreBefore(first, stores, k + 1))
  {
    RanKeepsConsistency(p, modes[k], history[k], StoreBefore(first, stores, k), stores[k]);
  }

  lemma {:induction false} HistoryStaysConsistent(p: Parser, first: Store, history: seq<Files>, modes: seq<Mode>,
                                                  stores: seq<Store>, k: nat)
    requires History(p, first, history, modes, stores) && k <= |stores|
    ensures Consistent(p, StoreBefore(first, stores, k))
  {
    if k > 0 {
      HistoryStaysConsistent(p, first, history, modes, stores, k - 1);
      StepStaysConsistent(p, first, history, modes, stores, k - 1);
    }
  }

  /** However the files were edited, added and removed between the runs: the last run
      leaves what a full build would exactly if it is a full build or trusts no file
      whose bytes differ from those of its recorded digest. */
  lemma {:induction false} HistoryMatchesFullBuild(p: Parser, first: Store, history: seq<Files>, modes: seq<Mode>,
                                                   stores: seq<Store>)
    requires History(p, first, history, modes, stores) && history != []
    ensures var n := |history| - 1;
      UpToDate(p, history[n], stores[n]) <==>
        modes[n].FullBuild? || NoDisguisedEdit(StoreBefore(first, stores, n).state, history[n], modes[n].strict)
  {
    var n := |history| - 1;
    HistoryStaysConsistent(p, first, history, modes, stores, n);
    assert RanAt(p, first, history, modes, stores, n);
    if modes[n].Incremental? {
      RebuildMatchesFullBuild(p, history[n], StoreBefore(first, stores, n), modes[n].strict, stores[n]);
    }
  }

  /** So a history that ends with a full or strict run ends with the rows and digests
      of a full build. */
  lemma {:induction false} IncrementalEqualsFull(p: Parser, first: Store, history: seq<Files>, modes: seq<Mode>,
                                                 stores: seq<Store>, full: Store)
    requires History(p, first, history, modes, stores) && history != []
    requires modes[|history| - 1].FullBuild? || modes[|history| - 1].strict
    requires UpToDate(p, history[|history| - 1], full)
    ensures UpToDate(p, history[|history| - 1], stores[|history| - 1])
    ensures multiset(stores[|history| - 1].symbols) == multiset(full.symbols)
    ensures multiset(stores[|history| - 1].endpoints) == multiset(full.endpoints)
  {
    var n := |history| - 1;
    HistoryMatchesFullBuild(p, first, history, modes, stores);
    UpToDateStoresAgree(p, history[n], stores[n], full);
  }
}
