/** Index runs as interleaved steps: edits of the source files at any moment,
    several full or incremental runs side by side, and crashes anywhere, also
    between the three publishes of a run. */
module IndexCrash {
  import opened Indexer

  /** An unfinished run. `changed` are the files it has decided to parse, of
      which it has parsed `parsed`; the kept rows come from the `loaded` (up to two)
      stored row files. A run may pass over any file, as a walk beside edits can. */
  datatype Run = Run(incremental: bool, priorState: map<Path, Entry>, loaded: nat,
                     priorSymbols: seq<Row>, priorEndpoints: seq<Row>,
                     entries: map<Path, Entry>, changed: set<Path>, parsed: set<Path>,
                     symbols: seq<Row>, endpoints: seq<Row>, published: nat)

  datatype World = World(fs: Files, store: Store, runs: map<nat, Run>)

  datatype Action =
    | Edit(path: Path, file: File)
    | Remove(path: Path)
    | BeginFull(id: nat)
    | BeginIncremental(id: nat)
    | LoadSymbols(id: nat)
    | LoadEndpoints(id: nat)
    | Hash(id: nat, path: Path, size: nat, mtime: nat)  // the later `stat` may see another edit
    | Reuse(id: nat, path: Path, size: nat, mtime: nat)  // likewise
    | Parse(id: nat, path: Path)
    | PublishSymbols(id: nat)
    | PublishEndpoints(id: nat)
    | PublishState(id: nat)
    | Crash(id: nat)

  const NOTHING_INDEXED := World(map[], NOTHING_STORED, map[])

  function NewRun(incremental: bool, prior: map<Path, Entry>): Run {
    Run(incremental, prior, 0, [], [], map[], {}, {}, [], [], 0)
  }

  /** A full run parses each file right after hashing it; an incremental run first
      loads the stored rows, then looks at all files, then parses the changed ones. */
  predicate MayLook(r: Run) {
    r.published == 0 && if r.incremental then r.loaded == 2 && r.parsed == {} else r.parsed == r.changed
  }

  predicate MayPublish(r: Run) {
    r.published == 0 && r.parsed == r.changed && (r.incremental ==> r.loaded == 2)
  }

  ghost predicate Enabled(w: World, a: Action) {
    match a
    case Edit(_, _) => true
    case Remove(_) => true
    case BeginFull(id) => id !in w.runs
    case BeginIncremental(id) => id !in w.runs
    case LoadSymbols(id) => id in w.runs && w.runs[id].incremental && w.runs[id].loaded == 0
    case LoadEndpoints(id) => id in w.runs && w.runs[id].incremental && w.runs[id].loaded == 1
    case Hash(id, path, _, _) =>
      id in w.runs && MayLook(w.runs[id]) && path in w.fs && path !in w.runs[id].entries
    case Reuse(id, path, _, _) =>
      && id in w.runs && MayLook(w.runs[id]) && path in w.fs && path !in w.runs[id].entries
      && path in w.runs[id].priorState && StatMatches(w.fs[path], w.runs[id].priorState[path])
    case Parse(id, path) =>
      && id in w.runs && w.runs[id].published == 0
      && path in w.runs[id].changed - w.runs[id].parsed && path in w.runs[id].entries
    case PublishSymbols(id) => id in w.runs && MayPublish(w.runs[id])
    case PublishEndpoints(id) => id in w.runs && w.runs[id].published == 1
    case PublishState(id) => id in w.runs && w.runs[id].published == 2
    case Crash(id) => id in w.runs
  }

  /** The rows a run publishes: the loaded rows of unchanged files, then its own. */
  function Output(loaded: seq<Row>, r: Run, own: seq<Row>): seq<Row> {
    Kept(loaded, r.entries.Keys - r.changed) + own
  }

  ghost function Next(p: Parser, w: World, a: Action): World
    requires Enabled(w, a)
  {
    match a
    case Edit(path, file) => w.(fs := w.fs[path := file])
    case Remove(path) => w.(fs := w.fs - {path})
    case BeginFull(id) => w.(runs := w.runs[id := NewRun(false, map[])])
    case BeginIncremental(id) => w.(runs := w.runs[id := NewRun(true, w.store.state)])
    case LoadSymbols(id) => w.(runs := w.runs[id := w.runs[id].(priorSymbols := w.store.symbols, loaded := 1)])
    case LoadEndpoints(id) => w.(runs := w.runs[id := w.runs[id].(priorEndpoints := w.store.endpoints, loaded := 2)])
    case Hash(id, path, size, mtime) =>
      var r, digest := w.runs[id], Sha256(w.fs[path].bytes);
      var same := r.incremental && path in r.priorState && r.priorState[path].digest == digest;
      w.(runs := w.runs[id := r.(entries := r.entries[path := Entry(digest, size, mtime)],
                                 changed := r.changed + if same then {} else {path})])
    case Reuse(id, path, size, mtime) =>
      var r := w.runs[id];
      w.(runs := w.runs[id := r.(entries := r.entries[path := Entry(r.priorState[path].digest, size, mtime)])])
    case Parse(id, path) =>
      var r := w.runs[id];
      if path !in w.fs then w.(runs := w.runs[id := r.(parsed := r.parsed + {path})])  // unreadable: no rows
      else
        var bytes, digest := w.fs[path].bytes, r.entries[path].digest;
        w.(runs := w.runs[id := r.(parsed := r.parsed + {path},
                                   symbols := r.symbols + ParseFile(p.symbols, path, bytes, digest),
                                   endpoints := r.endpoints + ParseFile(p.endpoints, path, bytes, digest))])
    case PublishSymbols(id) =>
      var r := w.runs[id];
      w.(store := w.store.(symbols := Output(r.priorSymbols, r, r.symbols)), runs := w.runs[id := r.(published := 1)])
    case PublishEndpoints(id) =>
      var r := w.runs[id];
      w.(store := w.store.(endpoints := Output(r.priorEndpoints, r, r.endpoints)),
         runs := w.runs[id := r.(published := 2)])
    case PublishState(id) =>
      w.(store := w.store.(state := w.runs[id].entries), runs := w.runs - {id})
    case Crash(id) => w.(runs := w.runs - {id})
  }

  /** The step is no parse, or a parse that reads nothing which is not in the hashed
      bytes as well. */
  ghost predicate Harmless(p: Parser, w: World, a: Action)
    requires Enabled(w, a)
  {
    a.Parse? && a.path in w.fs ==>
      var read, hashed := w.fs[a.path].bytes, w.runs[a.id].entries[a.path].digest.bytes;
      && (forall s :: s in p.symbols(a.path, read) ==> s in p.symbols(a.path, hashed))
      && (forall s :: s in p.endpoints(a.path, read) ==> s in p.endpoints(a.path, hashed))
  }

  // ------------------------------------------------------------ whole runs

  ghost predicate Legal(p: Parser, trace: seq<Action>)
    decreases |trace|, 0
  {
    trace == [] ||
    (Legal(p, trace[..|trace| - 1]) && Enabled(After(p, trace[..|trace| - 1]), trace[|trace| - 1]))
  }

  ghost function After(p: Parser, trace: seq<Action>): World
    requires Legal(p, trace)
    decreases |trace|, 1
  {
    if trace == [] then NOTHING_INDEXED
    else Next(p, After(p, trace[..|trace| - 1]), trace[|trace| - 1])
  }

  /** All steps from position `from` on are harmless. */
  ghost predicate HarmlessFrom(p: Parser, trace: seq<Action>, from: nat)
    requires Legal(p, trace)
  {
    |trace| <= from ||
    (HarmlessFrom(p, trace[..|trace| - 1], from) && Harmless(p, After(p, trace[..|trace| - 1]), trace[|trace| - 1]))
  }

  // -------------------------------------------------------------- soundness

  /** Every row is one that parsing the bytes behind its digest yields. */
  ghost predicate Sound(parse: (Path, Bytes) -> seq<string>, rows: seq<Row>) {
    forall r :: r in rows ==> r.info in parse(r.file, r.digest.bytes)
  }

  ghost predicate SoundRun(p: Parser, r: Run) {
    && Sound(p.symbols, r.priorSymbols) && Sound(p.symbols, r.symbols)
    && Sound(p.endpoints, r.priorEndpoints) && Sound(p.endpoints, r.endpoints)
  }

  ghost predicate SoundWorld(p: Parser, w: World) {
    && Sound(p.symbols, w.store.symbols) && Sound(p.endpoints, w.store.endpoints)
    && forall id :: id in w.runs ==> SoundRun(p, w.runs[id])
  }

  lemma {:induction false} KeptMembers(rows: seq<Row>, keep: set<Path>)
    ensures forall r :: r in Kept(rows, keep) ==> r in rows
  {
    if rows != [] {
      KeptMembers(rows[..|rows| - 1], keep);
      assert rows == rows[..|rows| - 1] + [rows[|rows| - 1]];
    }
  }

  /** A harmless step keeps all stored and pending rows sound. */
  lemma {:induction false} StepKeepsSound(p: Parser, w: World, a: Action)
    requires SoundWorld(p, w) && Enabled(w, a) && Harmless(p, w, a)
    ensures SoundWorld(p, Next(p, w, a))
  {
    if a.PublishSymbols? || a.PublishEndpoints? {
      var r := w.runs[a.id];
      KeptMembers(r.priorSymbols, r.entries.Keys - r.changed);
      KeptMembers(r.priorEndpoints, r.entries.Keys - r.changed);
    }
  }

  lemma {:induction false} RunKeepsSound(p: Parser, trace: seq<Action>)
    requires Legal(p, trace) && HarmlessFrom(p, trace, 0)
    ensures SoundWorld(p, After(p, trace))
  {
    if trace != [] {
      RunKeepsSound(p, trace[..|trace| - 1]);
      StepKeepsSound(p, After(p, trace[..|trace| - 1]), trace[|trace| - 1]);
    }
  }

  ghost predicate ServedWrongly(p: Parser, w: World, state: map<Path, Entry>, row: Row) {
    && RowFresh(w.fs, state, row)
    && (|| (row in w.store.symbols && row !in FreshRows(p.symbols, w.fs, row.file))
        || (row in w.store.endpoints && row !in FreshRows(p.endpoints, w.fs, row.file)))
  }

  /** The guard, reading the stored state, lets a row through that parsing the present
      bytes does not give. */
  ghost predicate ServesWrongRow(p: Parser, w: World) { exists row :: ServedWrongly(p, w, w.store.state, row) }

  lemma {:induction false} TaggedRow(parse: (Path, Bytes) -> seq<string>, fs: Files, row: Row)
    requires row.file in fs && row.digest == Sha256(fs[row.file].bytes)
    requires row.info in parse(row.file, row.digest.bytes)
    ensures row in FreshRows(parse, fs, row.file)
  {
    var infos := parse(row.file, row.digest.bytes);
    var i :| 0 <= i < |infos| && infos[i] == row.info;
    assert FreshRows(parse, fs, row.file)[i] == row;
  }

  /** Across every interleaving of edits, runs and crashes with harmless parses, each
      stored row that `row_fresh` accepts is a row of parsing that file's present
      bytes; also with a state that the caller loaded at another time, or any state. */
  lemma {:induction false} ServedRowsAreCurrent(p: Parser, trace: seq<Action>)
    requires Legal(p, trace) && HarmlessFrom(p, trace, 0)
    ensures forall state, row :: !ServedWrongly(p, After(p, trace), state, row)
    ensures !ServesWrongRow(p, After(p, trace))
  {
    RunKeepsSound(p, trace);
    var w := After(p, trace);
    forall state, row ensures !ServedWrongly(p, w, state, row) {
      if RowFresh(w.fs, state, row) {
        if row in w.store.symbols { TaggedRow(p.symbols, w.fs, row); }
        if row in w.store.endpoints { TaggedRow(p.endpoints, w.fs, row); }
      }
    }
  }

  lemma {:induction false} AppendedSound(parse: (Path, Bytes) -> seq<string>, rows: seq<Row>, path: Path,
                                         read: Bytes, digest: Digest)
    requires Sound(parse, rows)
    ensures Sound(parse, rows + ParseFile(parse, path, read, digest))
       <==> forall s :: s in parse(path, read) ==> s in parse(path, digest.bytes)
  {
    var parsed := ParseFile(parse, path, read, digest);
    if Sound(parse, rows + parsed) {
      forall s | s in parse(path, read) ensures s in parse(path, digest.bytes) {
        assert Row(path, digest, s) in parsed by {
          var i :| 0 <= i < |parse(path, read)| && parse(path, read)[i] == s;
          assert parsed[i] == Row(path, digest, s);
        }
        assert Row(path, digest, s) in rows + parsed;
      }
    }
  }

  /** Exactly the harmless parse steps keep all stored and pending rows sound. */
  lemma {:induction false} ParseStepIsSoundExactly(p: Parser, w: World, a: Action)
    requires SoundWorld(p, w) && Enabled(w, a) && a.Parse?
    ensures SoundWorld(p, Next(p, w, a)) <==> Harmless(p, w, a)
  {
    if a.path in w.fs {
      var r, w' := w.runs[a.id], Next(p, w, a);
      var read, digest := w.fs[a.path].bytes, r.entries[a.path].digest;
      AppendedSound(p.symbols, r.symbols, a.path, read, digest);
      AppendedSound(p.endpoints, r.endpoints, a.path, read, digest);
      assert SoundWorld(p, w') ==> SoundRun(p, w'.runs[a.id]);
    }
  }

  // ---------------------------------------------------------- a torn parse

  lemma {:induction false} Extend(p: Parser, trace: seq<Action>, a: Action)
    requires Legal(p, trace) && Enabled(After(p, trace), a)
    ensures Legal(p, trace + [a]) && After(p, trace + [a]) == Next(p, After(p, trace), a)
  {
    assert (trace + [a])[..|trace + [a]| - 1] == trace;
  }

  /** The three publishes of a run that has parsed all it meant to. */
  lemma {:induction false} PublishAll(p: Parser, before: seq<Action>, id: nat) returns (trace: seq<Action>)
    requires Legal(p, before) && id in After(p, before).runs
    requires MayPublish(After(p, before).runs[id])
    ensures trace == before + [PublishSymbols(id), PublishEndpoints(id), PublishState(id)]
    ensures Legal(p, trace) && After(p, trace).fs == After(p, before).fs
    ensures After(p, trace).runs == After(p, before).runs - {id}
    ensures var r := After(p, before).runs[id];
      After(p, trace).store ==
        Store(Output(r.priorSymbols, r, r.symbols), Output(r.priorEndpoints, r, r.endpoints), r.entries)
  {
    trace := before;
    Extend(p, trace, PublishSymbols(id)); trace := trace + [PublishSymbols(id)];
    Extend(p, trace, PublishEndpoints(id)); trace := trace + [PublishEndpoints(id)];
    Extend(p, trace, PublishState(id)); trace := trace + [PublishState(id)];
  }

  /** A full run hashes a file that is edited before the run parses it. */
  lemma {:induction false} HashEditParse(p: Parser, path: Path, was: File, now: File) returns (trace: seq<Action>)
    ensures Legal(p, trace) && 0 in After(p, trace).runs && After(p, trace).fs == map[path := now]
    ensures After(p, trace).runs[0] ==
      Run(false, map[], 0, [], [], map[path := Entry(Sha256(was.bytes), 0, 0)], {path}, {path},
          ParseFile(p.symbols, path, now.bytes, Sha256(was.bytes)),
          ParseFile(p.endpoints, path, now.bytes, Sha256(was.bytes)), 0)
  {
    trace := [];
    Extend(p, trace, Edit(path, was)); trace := trace + [Edit(path, was)];
    Extend(p, trace, BeginFull(0)); trace := trace + [BeginFull(0)];
    Extend(p, trace, Hash(0, path, 0, 0)); trace := trace + [Hash(0, path, 0, 0)];
    Extend(p, trace, Edit(path, now)); trace := trace + [Edit(path, now)];
    Extend(p, trace, Parse(0, path)); trace := trace + [Parse(0, path)];
  }

  /** Without that condition the guard can be fooled: a file is hashed, edited,
      parsed and reverted, and a row of the edited text is served. */
  lemma {:induction false} TornParseIsServed() returns (p: Parser, trace: seq<Action>, row: Row)
    ensures Legal(p, trace)
    ensures var w := After(p, trace);
      && row in w.store.symbols && RowFresh(w.fs, w.store.state, row)
      && row !in FreshRows(p.symbols, w.fs, row.file)
  {
    p := Parser((_, bytes) => [bytes], (_, _) => []);
    var path := Path("a.py");
    trace := HashEditParse(p, path, File("old", 1), File("new", 2));
    trace := PublishAll(p, trace, 0);
    row := Row(path, Sha256("old"), "new");
    assert After(p, trace).store.symbols == [row];
    var revert := Edit(path, File("old", 3));
    Extend(p, trace, revert);
    trace := trace + [revert];
  }

  // ------------------------------------------------- a crash and a revert

  /** One file, no run under way. */
  ghost predicate AtRest(p: Parser, trace: seq<Action>, path: Path, bytes: Bytes, store: Store) {
    && Legal(p, trace) && After(p, trace).runs == map[] && After(p, trace).store == store
    && After(p, trace).fs.Keys == {path} && After(p, trace).fs[path].bytes == bytes
  }

  function EntryFor(bytes: Bytes): Entry { Entry(Sha256(bytes), |bytes|, 0) }

  /** The store of an index of the one file with these bytes; its state may be older. */
  function StoreOf(p: Parser, path: Path, bytes: Bytes, recorded: Bytes): Store {
    Store(ParseFile(p.symbols, path, bytes, Sha256(bytes)), ParseFile(p.endpoints, path, bytes, Sha256(bytes)),
          map[path := EntryFor(recorded)])
  }

  lemma {:induction false} KeptAll(rows: seq<Row>, keep: set<Path>)
    ensures (forall r :: r in rows ==> r.file in keep) ==> Kept(rows, keep) == rows
    ensures (forall r :: r in rows ==> r.file !in keep) ==> Kept(rows, keep) == []
  {
    if rows != [] {
      KeptAll(rows[..|rows| - 1], keep);
      assert rows == rows[..|rows| - 1] + [rows[|rows| - 1]];
    }
  }

  // The steps of an edit, a full run, a run that dies between its publishes, and a
  // strict run that finds nothing changed, all over the one file.

  function EditSteps(path: Path, bytes: Bytes): seq<Action> { [Edit(path, File(bytes, 0))] }

  function PublishSteps(): seq<Action> { [PublishSymbols(0), PublishEndpoints(0), PublishState(0)] }

  function FullSteps(path: Path, bytes: Bytes): seq<Action> {
    [BeginFull(0), Hash(0, path, |bytes|, 0), Parse(0, path)] + PublishSteps()
  }

  function LookSteps(path: Path, bytes: Bytes): seq<Action> {
    [BeginIncremental(0), LoadSymbols(0), LoadEndpoints(0), Hash(0, path, |bytes|, 0)]
  }

  function DyingSteps(path: Path, bytes: Bytes): seq<Action> {
    LookSteps(path, bytes) + [Parse(0, path)] + [PublishSymbols(0), PublishEndpoints(0), Crash(0)]
  }

  function StrictSteps(path: Path, bytes: Bytes): seq<Action> { LookSteps(path, bytes) + PublishSteps() }

  /** Index the file, edit it, let a run die before it publishes the state, revert. */
  function CrashAndRevert(path: Path, was: Bytes, now: Bytes): seq<Action> {
    EditSteps(path, was) + FullSteps(path, was) + EditSteps(path, now) + DyingSteps(path, now) + EditSteps(path, was)
  }

  function StrictRuns(path: Path, bytes: Bytes, n: nat): seq<Action> {
    if n == 0 then [] else StrictRuns(path, bytes, n - 1) + StrictSteps(path, bytes)
  }

  lemma {:induction false} FullRun(p: Parser, before: seq<Action>, path: Path, bytes: Bytes, store: Store)
    returns (trace: seq<Action>)
    requires AtRest(p, before, path, bytes, store)
    ensures trace == before + FullSteps(path, bytes)
    ensures AtRest(p, trace, path, bytes, StoreOf(p, path, bytes, bytes))
  {
    trace := before;
    Extend(p, trace, BeginFull(0)); trace := trace + [BeginFull(0)];
    Extend(p, trace, Hash(0, path, |bytes|, 0)); trace := trace + [Hash(0, path, |bytes|, 0)];
    Extend(p, trace, Parse(0, path)); trace := trace + [Parse(0, path)];
    trace := PublishAll(p, trace, 0);
  }

  lemma {:induction false} LoadStored(p: Parser, before: seq<Action>) returns (trace: seq<Action>)
    requires Legal(p, before) && After(p, before).runs == map[]
    ensures trace == before + [BeginIncremental(0), LoadSymbols(0), LoadEndpoints(0)] && Legal(p, trace)
    ensures var w := After(p, before);
      After(p, trace) == w.(runs := map[0 := Run(true, w.store.state, 2, w.store.symbols, w.store.endpoints,
                                                 map[], {}, {}, [], [], 0)])
  {
    trace := before;
    Extend(p, trace, BeginIncremental(0)); trace := trace + [BeginIncremental(0)];
    Extend(p, trace, LoadSymbols(0)); trace := trace + [LoadSymbols(0)];
    Extend(p, trace, LoadEndpoints(0)); trace := trace + [LoadEndpoints(0)];
  }

  /** An incremental run up to its decision about the one file. */
  lemma {:induction false} Loaded(p: Parser, before: seq<Action>, path: Path, bytes: Bytes, store: Store)
    returns (trace: seq<Action>)
    requires AtRest(p, before, path, bytes, store) && path in store.state
    ensures trace == before + LookSteps(path, bytes) && Legal(p, trace)
    ensures After(p, trace).store == store && After(p, trace).fs == After(p, before).fs
    ensures After(p, trace).runs == map[0 := Run(true, store.state, 2, store.symbols, store.endpoints,
      map[path := EntryFor(bytes)], if store.state[path].digest == Sha256(bytes) then {} else {path}, {}, [], [], 0)]
  {
    trace := LoadStored(p, before);
    var none: set<Path> := {};
    assert none + none == none && none + {path} == {path};
    Extend(p, trace, Hash(0, path, |bytes|, 0));
    trace := trace + [Hash(0, path, |bytes|, 0)];
  }

  /** A run that publishes both row files and dies before it publishes the state. */
  lemma {:induction false} PublishRowsAndDie(p: Parser, before: seq<Action>, id: nat) returns (trace: seq<Action>)
    requires Legal(p, before) && id in After(p, before).runs
    requires MayPublish(After(p, before).runs[id])
    ensures trace == before + [PublishSymbols(id), PublishEndpoints(id), Crash(id)]
    ensures Legal(p, trace) && After(p, trace).fs == After(p, before).fs
    ensures After(p, trace).runs == After(p, before).runs - {id}
    ensures var r := After(p, before).runs[id];
      After(p, trace).store ==
        Store(Output(r.priorSymbols, r, r.symbols), Output(r.priorEndpoints, r, r.endpoints),
              After(p, before).store.state)
  {
    trace := before;
    Extend(p, trace, PublishSymbols(id)); trace := trace + [PublishSymbols(id)];
    Extend(p, trace, PublishEndpoints(id)); trace := trace + [PublishEndpoints(id)];
    Extend(p, trace, Crash(id)); trace := trace + [Crash(id)];
  }

  /** The run parses the one file it means to parse. */
  lemma {:induction false} ParseEdited(p: Parser, before: seq<Action>, path: Path, bytes: Bytes)
    returns (trace: seq<Action>)
    requires Legal(p, before) && After(p, before).runs.Keys == {0}
    requires path in After(p, before).fs && After(p, before).fs[path].bytes == bytes
    requires var r := After(p, before).runs[0];
      && r.published == 0 && r.changed == {path} && r.parsed == {} && r.entries == map[path := EntryFor(bytes)]
      && r.symbols == r.endpoints == [] && r.incremental && r.loaded == 2
    ensures trace == before + [Parse(0, path)] && Legal(p, trace) && After(p, trace).runs.Keys == {0}
    ensures After(p, trace).fs == After(p, before).fs && After(p, trace).store == After(p, before).store
    ensures var was, r := After(p, before).runs[0], After(p, trace).runs[0];
      && MayPublish(r) && r.changed == {path} && r.entries == was.entries
      && r.priorSymbols == was.priorSymbols && r.priorEndpoints == was.priorEndpoints
      && r.symbols == ParseFile(p.symbols, path, bytes, Sha256(bytes))
      && r.endpoints == ParseFile(p.endpoints, path, bytes, Sha256(bytes))
  {
    Extend(p, before, Parse(0, path));
    trace := before + [Parse(0, path)];
  }

  /** A run over an edited file that dies before it publishes the state. */
  lemma {:induction false} CrashedRun(p: Parser, before: seq<Action>, path: Path, bytes: Bytes, was: Bytes)
    returns (trace: seq<Action>)
    requires AtRest(p, before, path, bytes, StoreOf(p, path, was, was)) && bytes != was
    ensures trace == before + DyingSteps(path, bytes)
    ensures AtRest(p, trace, path, bytes, StoreOf(p, path, bytes, was))
  {
    trace := Loaded(p, before, path, bytes, StoreOf(p, path, was, was));
    trace := ParseEdited(p, trace, path, bytes);
    var r := After(p, trace).runs[0];
    assert r.entries.Keys - r.changed == {};
    KeptAll(r.priorSymbols, {});
    KeptAll(r.priorEndpoints, {});
    trace := PublishRowsAndDie(p, trace, 0);
  }

  /** A run that found the one file unchanged publishes the rows it loaded. */
  lemma {:induction false} OutputKeeps(r: Run, path: Path, rows: seq<Row>)
    requires r.entries.Keys == {path} && r.changed == {} && forall row :: row in rows ==> row.file == path
    ensures Output(rows, r, []) == rows
  {
    KeptAll(rows, {path});
    assert r.entries.Keys - r.changed == {path};
  }

  /** A strict run that finds the recorded digest: it keeps whatever rows there are. */
  lemma {:induction false} StrictRun(p: Parser, before: seq<Action>, path: Path, bytes: Bytes, stale: Bytes)
    returns (trace: seq<Action>)
    requires AtRest(p, before, path, bytes, StoreOf(p, path, stale, bytes))
    ensures trace == before + StrictSteps(path, bytes)
    ensures AtRest(p, trace, path, bytes, StoreOf(p, path, stale, bytes))
  {
    trace := Loaded(p, before, path, bytes, StoreOf(p, path, stale, bytes));
    OutputKeeps(After(p, trace).runs[0], path, StoreOf(p, path, stale, bytes).symbols);
    OutputKeeps(After(p, trace).runs[0], path, StoreOf(p, path, stale, bytes).endpoints);
    trace := PublishAll(p, trace, 0);
  }

  lemma {:induction false} EditTo(p: Parser, before: seq<Action>, path: Path, was: Bytes, bytes: Bytes, store: Store)
    returns (trace: seq<Action>)
    requires AtRest(p, before, path, was, store)
    ensures trace == before + EditSteps(path, bytes)
    ensures AtRest(p, trace, path, bytes, store)
  {
    Extend(p, before, Edit(path, File(bytes, 0)));
    trace := before + [Edit(path, File(bytes, 0))];
  }

  lemma {:induction false} CrashAndRevertLeaves(p: Parser, path: Path, was: Bytes, now: Bytes)
    requires was != now
    ensures AtRest(p, CrashAndRevert(path, was, now), path, was, StoreOf(p, path, now, was))
  {
    Extend(p, [], Edit(path, File(was, 0)));
    var trace := [] + EditSteps(path, was);
    assert trace == [] + [Edit(path, File(was, 0))];
    trace := FullRun(p, trace, path, was, NOTHING_INDEXED.store);
    trace := EditTo(p, trace, path, was, now, StoreOf(p, path, was, was));
    trace := CrashedRun(p, trace, path, now, was);
    trace := EditTo(p, trace, path, now, was, StoreOf(p, path, now, was));
    assert trace == CrashAndRevert(path, was, now);
  }

  lemma {:induction false} StrictRunsLeave(p: Parser, before: seq<Action>, path: Path, bytes: Bytes, stale: Bytes,
                                           n: nat)
    requires AtRest(p, before, path, bytes, StoreOf(p, path, stale, bytes))
    ensures AtRest(p, before + StrictRuns(path, bytes, n), path, bytes, StoreOf(p, path, stale, bytes))
  {
    if n == 0 {
      assert before + [] == before;
    } else {
      StrictRunsLeave(p, before, path, bytes, stale, n - 1);
      var trace := StrictRun(p, before + StrictRuns(path, bytes, n - 1), path, bytes, stale);
      assert trace == before + StrictRuns(path, bytes, n);
    }
  }

  /** For every parser and any two texts of a file: index it, edit it, let an
      incremental run die before it publishes the state, revert the file, and let any
      number of strict runs follow. The trace is legal, the store still holds the rows
      of the other text, and no stored row is served, whatever a fresh parse finds. */
  lemma {:induction false} CrashThenRevertServesNothing(p: Parser, path: Path, was: Bytes, now: Bytes, strictRuns: nat)
    requires was != now
    ensures var trace := CrashAndRevert(path, was, now) + StrictRuns(path, was, strictRuns);
      && Legal(p, trace) && After(p, trace).store == StoreOf(p, path, now, was)
      && After(p, trace).fs.Keys == {path} && After(p, trace).fs[path].bytes == was
      && |FreshRows(p.symbols, After(p, trace).fs, path)| == |p.symbols(path, was)|
      && |FreshRows(p.endpoints, After(p, trace).fs, path)| == |p.endpoints(path, was)|
      && forall row :: row in After(p, trace).store.symbols + After(p, trace).store.endpoints ==>
        !RowFresh(After(p, trace).fs, After(p, trace).store.state, row)
  {
    CrashAndRevertLeaves(p, path, was, now);
    StrictRunsLeave(p, CrashAndRevert(path, was, now), path, was, now, strictRuns);
  }

  // -------------------------------------------- every other parse can mislead

  lemma {:induction false} Advance(p: Parser, trace: seq<Action>, from: nat, a: Action) returns (longer: seq<Action>)
    requires Legal(p, trace) && HarmlessFrom(p, trace, from) && from <= |trace|
    requires Enabled(After(p, trace), a) && Harmless(p, After(p, trace), a)
    ensures longer == trace + [a]
    ensures Legal(p, longer) && HarmlessFrom(p, longer, from) && After(p, longer) == Next(p, After(p, trace), a)
  {
    Extend(p, trace, a);
    longer := trace + [a];
    assert longer[..|longer| - 1] == trace;
  }

  /** A run parses only files it has an entry for, and after loading. */
  ghost predicate RunOk(r: Run) {
    r.parsed <= r.changed <= r.entries.Keys && (r.incremental && r.changed != {} ==> r.loaded == 2)
  }

  lemma {:induction false} StepKeepsRunOk(p: Parser, w: World, a: Action, id: nat)
    requires Enabled(w, a) && id in Next(p, w, a).runs && (id in w.runs ==> RunOk(w.runs[id]))
    ensures RunOk(Next(p, w, a).runs[id])
  {
  }

  lemma {:induction false} RunsStayOk(p: Parser, trace: seq<Action>, id: nat)
    requires Legal(p, trace) && id in After(p, trace).runs
    ensures RunOk(After(p, trace).runs[id])
  {
    if trace != [] {
      var front := trace[..|trace| - 1];
      if id in After(p, front).runs { RunsStayOk(p, front, id); }
      StepKeepsRunOk(p, After(p, front), trace[|trace| - 1], id);
    }
  }

  /** An unpublished run that has parsed something and holds a row of a file it has an
      entry for. */
  ghost predicate Holding(w: World, id: nat, row: Row, isSymbol: bool) {
    && id in w.runs && w.runs[id].published == 0 && RunOk(w.runs[id]) && w.runs[id].changed != {}
    && row.file in w.runs[id].entries && w.runs[id].entries[row.file].digest == row.digest
    && row in (if isSymbol then w.runs[id].symbols else w.runs[id].endpoints)
  }

  /** The files a full run has not looked at, and those a run still means to parse. */
  ghost function Unseen(w: World, id: nat): set<Path>
    requires id in w.runs
  {
    if w.runs[id].incremental then {} else w.fs.Keys - w.runs[id].entries.Keys
  }

  ghost function Unparsed(w: World, id: nat): set<Path>
    requires id in w.runs
  {
    w.runs[id].changed - w.runs[id].parsed
  }

  lemma {:induction false} AllParsed(w: World, id: nat)
    requires id in w.runs && RunOk(w.runs[id]) && Unparsed(w, id) == {}
    ensures w.runs[id].parsed == w.runs[id].changed
  {
    forall path | path in w.runs[id].changed ensures path in w.runs[id].parsed {
      assert path !in Unparsed(w, id);
    }
  }

  lemma {:induction false} HashKeepsHolding(p: Parser, w: World, id: nat, row: Row, isSymbol: bool, path: Path)
    requires Holding(w, id, row, isSymbol) && path in Unseen(w, id) && Unparsed(w, id) == {}
    ensures Enabled(w, Hash(id, path, 0, 0))
    ensures var w' := Next(p, w, Hash(id, path, 0, 0));
      && Holding(w', id, row, isSymbol) && w'.fs == w.fs && !w'.runs[id].incremental
      && Unseen(w', id) == Unseen(w, id) - {path} && Unparsed(w', id) == {path}
      && w'.runs[id].entries[path].digest == Sha256(w.fs[path].bytes)
  {
    AllParsed(w, id);
  }

  lemma {:induction false} RevertKeepsHolding(p: Parser, w: World, id: nat, row: Row, isSymbol: bool, path: Path)
    requires Holding(w, id, row, isSymbol) && path in Unparsed(w, id)
    ensures var hashed := w.runs[id].entries[path].digest.bytes; var w' := Next(p, w, Edit(path, File(hashed, 0)));
      && Holding(w', id, row, isSymbol) && w'.runs == w.runs
      && path in w'.fs && w'.fs[path].bytes == hashed
  {
  }

  lemma {:induction false} ParseKeepsHolding(p: Parser, w: World, id: nat, row: Row, isSymbol: bool, path: Path)
    requires Holding(w, id, row, isSymbol) && path in Unparsed(w, id)
    requires path in w.fs && w.fs[path].bytes == w.runs[id].entries[path].digest.bytes
    ensures var a := Parse(id, path);
      && Enabled(w, a) && Harmless(p, w, a) && Holding(Next(p, w, a), id, row, isSymbol)
      && Unseen(Next(p, w, a), id) == Unseen(w, id) && Unparsed(Next(p, w, a), id) == Unparsed(w, id) - {path}
  {
  }

  /** The trace goes on by harmless steps and the run still holds its row. */
  ghost predicate StillHolding(p: Parser, trace: seq<Action>, from: nat, id: nat, row: Row, isSymbol: bool) {
    from <= |trace| && Legal(p, trace) && HarmlessFrom(p, trace, from) && Holding(After(p, trace), id, row, isSymbol)
  }

  lemma {:induction false} ParseOne(p: Parser, before: seq<Action>, from: nat, id: nat, row: Row, isSymbol: bool,
                                    path: Path)
    returns (trace: seq<Action>)
    requires StillHolding(p, before, from, id, row, isSymbol) && path in Unparsed(After(p, before), id)
    ensures before <= trace && StillHolding(p, trace, from, id, row, isSymbol)
    ensures Unparsed(After(p, trace), id) == Unparsed(After(p, before), id) - {path}
  {
    var w := After(p, before);
    RevertKeepsHolding(p, w, id, row, isSymbol, path);
    var reverted := Advance(p, before, from, Edit(path, File(w.runs[id].entries[path].digest.bytes, 0)));
    ParseKeepsHolding(p, After(p, reverted), id, row, isSymbol, path);
    trace := Advance(p, reverted, from, Parse(id, path));
  }

  lemma {:induction false} SeeOne(p: Parser, before: seq<Action>, from: nat, id: nat, row: Row, isSymbol: bool,
                                  path: Path)
    returns (trace: seq<Action>)
    requires StillHolding(p, before, from, id, row, isSymbol)
    requires path in Unseen(After(p, before), id) && Unparsed(After(p, before), id) == {}
    ensures before <= trace && StillHolding(p, trace, from, id, row, isSymbol)
    ensures Unparsed(After(p, trace), id) == {}
    ensures Unseen(After(p, trace), id) == Unseen(After(p, before), id) - {path}
  {
    HashKeepsHolding(p, After(p, before), id, row, isSymbol, path);
    var hashed := Advance(p, before, from, Hash(id, path, 0, 0));
    ParseKeepsHolding(p, After(p, hashed), id, row, isSymbol, path);
    trace := Advance(p, hashed, from, Parse(id, path));
  }

  /** The run parses every file it still means to; each is back at the hashed bytes
      when it is read. */
  lemma {:induction false} ParseRest(p: Parser, before: seq<Action>, from: nat, id: nat, row: Row, isSymbol: bool,
                                     unparsed: set<Path>)
    returns (trace: seq<Action>)
    requires StillHolding(p, before, from, id, row, isSymbol) && unparsed == Unparsed(After(p, before), id)
    ensures before <= trace && StillHolding(p, trace, from, id, row, isSymbol) && Unparsed(After(p, trace), id) == {}
    decreases |unparsed|
  {
    trace := before;
    if unparsed != {} {
      var path :| path in unparsed;
      trace := ParseOne(p, before, from, id, row, isSymbol, path);
      trace := ParseRest(p, trace, from, id, row, isSymbol, unparsed - {path});
    }
  }

  /** A full run goes on to look at every file that is there. */
  lemma {:induction false} SeeRest(p: Parser, before: seq<Action>, from: nat, id: nat, row: Row, isSymbol: bool,
                                   unseen: set<Path>)
    returns (trace: seq<Action>)
    requires StillHolding(p, before, from, id, row, isSymbol) && Unparsed(After(p, before), id) == {}
    requires unseen == Unseen(After(p, before), id)
    ensures before <= trace && StillHolding(p, trace, from, id, row, isSymbol)
    ensures Unseen(After(p, trace), id) == Unparsed(After(p, trace), id) == {}
    decreases |unseen|
  {
    trace := before;
    if unseen != {} {
      var path :| path in unseen;
      trace := SeeOne(p, before, from, id, row, isSymbol, path);
      trace := SeeRest(p, trace, from, id, row, isSymbol, unseen - {path});
    }
  }

  /** A run with all it meant to parse publishes the row it holds, with the entry
      that vouches for it; then the file goes back to the hashed bytes. */
  lemma {:induction false} PublishHeld(p: Parser, before: seq<Action>, from: nat, id: nat, row: Row, isSymbol: bool)
    returns (trace: seq<Action>)
    requires StillHolding(p, before, from, id, row, isSymbol) && Unparsed(After(p, before), id) == {}
    ensures before <= trace && Legal(p, trace) && HarmlessFrom(p, trace, from)
    ensures var w := After(p, trace);
      && RowFresh(w.fs, w.store.state, row) && row in (if isSymbol then w.store.symbols else w.store.endpoints)
      && w.store.state == After(p, before).runs[id].entries
  {
    AllParsed(After(p, before), id);
    trace := Advance(p, before, from, PublishSymbols(id));
    trace := Advance(p, trace, from, PublishEndpoints(id));
    trace := Advance(p, trace, from, PublishState(id));
    trace := Advance(p, trace, from, Edit(row.file, File(row.digest.bytes, 0)));
  }

  ghost predicate Misleads(p: Parser, before: seq<Action>, whole: seq<Action>) {
    && before <= whole && Legal(p, whole) && HarmlessFrom(p, whole, |before|)
    && ServesWrongRow(p, After(p, whole))
  }

  /** Some continuation with harmless parses only lets the guard serve a wrong row. */
  ghost predicate CanMislead(p: Parser, before: seq<Action>) { exists whole :: Misleads(p, before, whole) }

  lemma {:induction false} WrongRowOf(parse: (Path, Bytes) -> seq<string>, path: Path, read: Bytes, digest: Digest)
    returns (row: Row)
    requires exists s :: s in parse(path, read) && s !in parse(path, digest.bytes)
    ensures row in ParseFile(parse, path, read, digest) && row.file == path && row.digest == digest
    ensures row.info !in parse(path, digest.bytes)
  {
    var s :| s in parse(path, read) && s !in parse(path, digest.bytes);
    row := Row(path, digest, s);
    var i :| 0 <= i < |parse(path, read)| && parse(path, read)[i] == s;
    assert ParseFile(parse, path, read, digest)[i] == row;
  }

  /** The row that a parse step adds although the hashed bytes do not contain it. */
  lemma {:induction false} WrongRow(p: Parser, w: World, a: Action) returns (row: Row, isSymbol: bool)
    requires Enabled(w, a) && !Harmless(p, w, a) && RunOk(w.runs[a.id])
    ensures Holding(Next(p, w, a), a.id, row, isSymbol)
    ensures isSymbol ==> row.info !in p.symbols(row.file, row.digest.bytes)
    ensures !isSymbol ==> row.info !in p.endpoints(row.file, row.digest.bytes)
  {
    var read, digest := w.fs[a.path].bytes, w.runs[a.id].entries[a.path].digest;
    isSymbol := exists s :: s in p.symbols(a.path, read) && s !in p.symbols(a.path, digest.bytes);
    if isSymbol {
      row := WrongRowOf(p.symbols, a.path, read, digest);
      assert row in w.runs[a.id].symbols + ParseFile(p.symbols, a.path, read, digest);
    } else {
      row := WrongRowOf(p.endpoints, a.path, read, digest);
      assert row in w.runs[a.id].endpoints + ParseFile(p.endpoints, a.path, read, digest);
    }
  }

  lemma {:induction false} NotFresh(parse: (Path, Bytes) -> seq<string>, fs: Files, row: Row)
    requires row.file in fs && row.digest == Sha256(fs[row.file].bytes)
    ensures row in FreshRows(parse, fs, row.file) <==> row.info in parse(row.file, row.digest.bytes)
  {
    if row.info in parse(row.file, row.digest.bytes) { TaggedRow(parse, fs, row); }
  }

  lemma {:induction false} MisleadingContinuation(p: Parser, trace: seq<Action>, a: Action)
    requires Legal(p, trace) && Enabled(After(p, trace), a) && !Harmless(p, After(p, trace), a)
    ensures Legal(p, trace + [a]) && CanMislead(p, trace + [a])
  {
    Extend(p, trace, a);
    RunsStayOk(p, trace, a.id);
    var row, isSymbol := WrongRow(p, After(p, trace), a);
    var before := trace + [a];
    var parsed := ParseRest(p, before, |before|, a.id, row, isSymbol, Unparsed(After(p, before), a.id));
    var seen := SeeRest(p, parsed, |before|, a.id, row, isSymbol, Unseen(After(p, parsed), a.id));
    var whole := PublishHeld(p, seen, |before|, a.id, row, isSymbol);
    NotFresh(p.symbols, After(p, whole).fs, row);
    NotFresh(p.endpoints, After(p, whole).fs, row);
    assert ServedWrongly(p, After(p, whole), After(p, whole).store.state, row);
    assert Misleads(p, before, whole);
  }

  lemma {:induction false} HarmlessThroughout(p: Parser, trace: seq<Action>, middle: nat)
    requires Legal(p, trace) && middle <= |trace| && HarmlessFrom(p, trace, middle)
    requires Legal(p, trace[..middle]) && HarmlessFrom(p, trace[..middle], 0)
    ensures HarmlessFrom(p, trace, 0)
  {
    if middle < |trace| {
      assert trace[..|trace| - 1][..middle] == trace[..middle];
      HarmlessThroughout(p, trace[..|trace| - 1], middle);
    } else {
      assert trace[..middle] == trace;
    }
  }

  /** In every world reached by harmless steps, the harmless steps are exactly those
      after which no harmless continuation serves a wrong row. */
  lemma {:induction false} HarmlessExactly(p: Parser, trace: seq<Action>, a: Action)
    requires Legal(p, trace) && HarmlessFrom(p, trace, 0) && Enabled(After(p, trace), a)
    ensures Legal(p, trace + [a]) && (Harmless(p, After(p, trace), a) <==> !CanMislead(p, trace + [a]))
  {
    Extend(p, trace, a);
    if Harmless(p, After(p, trace), a) {
      var before := Advance(p, trace, 0, a);
      forall whole ensures !Misleads(p, before, whole) {
        if before <= whole && Legal(p, whole) && HarmlessFrom(p, whole, |before|) {
          assert whole[..|before|] == before;
          HarmlessThroughout(p, whole, |before|);
          ServedRowsAreCurrent(p, whole);
        }
      }
    } else {
      MisleadingContinuation(p, trace, a);
    }
  }
}
