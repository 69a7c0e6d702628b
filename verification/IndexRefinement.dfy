/** An undisturbed run of the step machine is a run at rest: what it publishes is what
    the whole-run relations of `Indexer` say. */
module IndexRefinement {
  import opened Indexer
  import opened IndexCrash

  predicate StatSeen(f: File, size: nat, mtime: nat) { size == |f.bytes| && mtime == f.mtime }

  /** A step that leaves run `id` alone or belongs to it: the files stay as they are, no
      other run publishes, and `id` looks at a file as its mode says, hashing it unless
      the recorded size and time may be trusted. Other runs may come, work and die. */
  ghost predicate Undisturbed(w: World, a: Action, id: nat, strict: bool)
    requires Enabled(w, a) && id in w.runs
  {
    match a
    case Edit(_, _) => false
    case Remove(_) => false
    case PublishSymbols(i) => i == id
    case PublishEndpoints(i) => i == id
    case PublishState(i) => i == id
    case Crash(i) => i != id
    case Hash(i, path, size, mtime) =>
      i == id ==> StatSeen(w.fs[path], size, mtime) && !StatReused(w.runs[id].priorState, path, w.fs[path], strict)
    case Reuse(i, path, size, mtime) => i == id ==> StatSeen(w.fs[path], size, mtime) && !strict
    case _ => true
  }

  /** The prior part of a run: all of the store for an incremental one, nothing for a
      full one. */
  function PriorOf(store: Store, incremental: bool): Store { if incremental then store else NOTHING_STORED }

  ghost predicate Loaded(store: Store, r: Run) {
    && r.priorState == PriorOf(store, r.incremental).state && r.loaded <= 2 && (!r.incremental ==> r.loaded == 0)
    && r.priorSymbols == (if r.loaded >= 1 then store.symbols else [])
    && r.priorEndpoints == (if r.loaded == 2 then store.endpoints else [])
  }

  ghost predicate Looked(start: World, r: Run, strict: bool) {
    && EntriesFor(r.priorState, start.fs, strict, r.entries)
    && ChangedIn(r.priorState, start.fs, strict, r.entries.Keys, r.changed)
  }

  /** The rows found so far are those of the parsed files. */
  ghost predicate Parsed(p: Parser, fs: Files, r: Run) {
    && r.parsed <= r.changed && r.parsed <= fs.Keys
    && Filled(p.symbols, fs, r.parsed, [], {}, r.symbols)
    && Filled(p.endpoints, fs, r.parsed, [], {}, r.endpoints)
  }

  /** The store after the publishes made so far. */
  function Published(store: Store, r: Run): Store {
    Store(if r.published >= 1 then Output(r.priorSymbols, r, r.symbols) else store.symbols,
          if r.published >= 2 then Output(r.priorEndpoints, r, r.endpoints) else store.endpoints,
          store.state)
  }

  /** Where run `id`, begun over the files and the store of `start`, has got to. */
  ghost predicate Underway(p: Parser, start: World, w: World, id: nat, strict: bool) {
    && id in w.runs && w.fs == start.fs
    && var r := w.runs[id];
      && Loaded(start.store, r) && Looked(start, r, strict) && Parsed(p, start.fs, r)
      && r.published <= 2 && (r.published > 0 ==> MayPublish(r.(published := 0)))
      && w.store == Published(start.store, r)
  }

  // ------------------------------------------------------------- one step

  /** The run has looked at one more file. */
  function WithLook(r: Run, path: Path, entry: Entry, same: bool): Run {
    r.(entries := r.entries[path := entry], changed := WithFile(r.changed, path, same))
  }

  lemma {:induction false} LookedStep(start: World, r: Run, strict: bool, path: Path, same: bool)
    requires Looked(start, r, strict) && path in start.fs && path !in r.entries
    requires same <==> !Changed(r.priorState, path, start.fs[path], strict)
    ensures Looked(start, WithLook(r, path, NewEntry(r.priorState, path, start.fs[path], strict), same), strict)
  {
    KeysGrow(r.entries, path, NewEntry(r.priorState, path, start.fs[path], strict));
    ChangedStep(r.priorState, start.fs, strict, r.entries.Keys, r.changed, path, same);
  }

  lemma {:induction false} HashIsLook(p: Parser, w: World, a: Action, strict: bool)
    requires Enabled(w, a) && a.Hash? && Undisturbed(w, a, a.id, strict)
    requires !w.runs[a.id].incremental ==> w.runs[a.id].priorState == map[]
    ensures var r, f := w.runs[a.id], w.fs[a.path];
      Next(p, w, a) == w.(runs := w.runs[a.id := WithLook(r, a.path, NewEntry(r.priorState, a.path, f, strict),
                                                          !Changed(r.priorState, a.path, f, strict))])
  {
    var r := w.runs[a.id];
    assert r.changed + {} == r.changed;
  }

  lemma {:induction false} HashStep(p: Parser, start: World, w: World, a: Action, id: nat, strict: bool)
    requires Underway(p, start, w, id, strict) && Enabled(w, a) && Undisturbed(w, a, id, strict)
    requires a.Hash? && a.id == id
    ensures Underway(p, start, Next(p, w, a), id, strict)
  {
    HashIsLook(p, w, a, strict);
    LookedStep(start, w.runs[id], strict, a.path, !Changed(w.runs[id].priorState, a.path, w.fs[a.path], strict));
  }

  lemma {:induction false} ReuseStep(p: Parser, start: World, w: World, a: Action, id: nat, strict: bool)
    requires Underway(p, start, w, id, strict) && Enabled(w, a) && Undisturbed(w, a, id, strict)
    requires a.Reuse? && a.id == id
    ensures Underway(p, start, Next(p, w, a), id, strict)
  {
    LookedStep(start, w.runs[id], strict, a.path, true);
  }

  lemma {:induction false} ParseStep(p: Parser, start: World, w: World, a: Action, id: nat, strict: bool)
    requires Underway(p, start, w, id, strict) && Enabled(w, a)
    requires a.Parse? && a.id == id
    ensures Underway(p, start, Next(p, w, a), id, strict)
  {
    var r := w.runs[id];
    assert r.entries[a.path] == NewEntry(r.priorState, a.path, w.fs[a.path], strict);
    FilledStep(p.symbols, start.fs, r.parsed, [], {}, r.symbols, a.path);
    FilledStep(p.endpoints, start.fs, r.parsed, [], {}, r.endpoints, a.path);
  }

  /** Loading, publishing a row file, and everything that other runs do. */
  lemma {:induction false} OtherStep(p: Parser, start: World, w: World, a: Action, id: nat, strict: bool)
    requires Underway(p, start, w, id, strict) && Enabled(w, a) && Undisturbed(w, a, id, strict)
    requires a != PublishState(id) && !((a.Hash? || a.Reuse? || a.Parse?) && a.id == id)
    ensures Underway(p, start, Next(p, w, a), id, strict)
  {
  }

  lemma {:induction false} ModeStays(p: Parser, w: World, a: Action, id: nat)
    requires Enabled(w, a) && id in w.runs && id in Next(p, w, a).runs
    ensures Next(p, w, a).runs[id].incremental == w.runs[id].incremental
  {
  }

  lemma {:induction false} StepGoesOn(p: Parser, start: World, w: World, a: Action, id: nat, strict: bool)
    requires Underway(p, start, w, id, strict) && Enabled(w, a) && Undisturbed(w, a, id, strict)
    requires a != PublishState(id)
    ensures Underway(p, start, Next(p, w, a), id, strict)
    ensures Next(p, w, a).runs[id].incremental == w.runs[id].incremental
  {
    ModeStays(p, w, a, id);
    if a.Hash? && a.id == id {
      HashStep(p, start, w, a, id, strict);
    } else if a.Reuse? && a.id == id {
      ReuseStep(p, start, w, a, id, strict);
    } else if a.Parse? && a.id == id {
      ParseStep(p, start, w, a, id, strict);
    } else {
      OtherStep(p, start, w, a, id, strict);
    }
  }

  // -------------------------------------------------------- the whole run

  /** Kept rows of unchanged files and own rows of the changed ones fill a row file. */
  lemma {:induction false} OutputIsFilled(parse: (Path, Bytes) -> seq<string>, fs: Files, base: seq<Row>,
                                          r: Run, own: seq<Row>)
    requires r.changed <= r.entries.Keys == fs.Keys && Filled(parse, fs, r.changed, [], {}, own)
    ensures Filled(parse, fs, r.changed, base, fs.Keys - r.changed, Output(base, r, own))
  {
    forall rel ensures FilledAt(parse, fs, r.changed, base, fs.Keys - r.changed, Output(base, r, own), rel) {
      assert FilledAt(parse, fs, r.changed, [], {}, own, rel);
      RowsOfAppend(Kept(base, fs.Keys - r.changed), own, rel);
      RowsOfKept(base, fs.Keys - r.changed, rel);
    }
  }

  /** The last publish of a run that has passed over no file. */
  lemma {:induction false} LastPublish(p: Parser, start: World, w: World, id: nat, strict: bool)
    requires Underway(p, start, w, id, strict) && Enabled(w, PublishState(id))
    requires w.runs[id].entries.Keys == start.fs.Keys
    ensures Rebuilt(p, start.fs, PriorOf(start.store, w.runs[id].incremental), strict,
      Next(p, w, PublishState(id)).store)
  {
    var r := w.runs[id];
    var prior := PriorOf(start.store, r.incremental);
    assert r.changed == ChangedSet(r.priorState, start.fs, strict);
    assert r.priorSymbols == prior.symbols && r.priorEndpoints == prior.endpoints;
    OutputIsFilled(p.symbols, start.fs, prior.symbols, r, r.symbols);
    OutputIsFilled(p.endpoints, start.fs, prior.endpoints, r, r.endpoints);
  }

  /** From position `from` on, run `id` is there and every step leaves it undisturbed. */
  ghost predicate UndisturbedFrom(p: Parser, trace: seq<Action>, from: nat, id: nat, strict: bool)
    requires Legal(p, trace)
  {
    |trace| <= from ||
    (var front := trace[..|trace| - 1];
     && UndisturbedFrom(p, front, from, id, strict)
     && id in After(p, front).runs && Undisturbed(After(p, front), trace[|trace| - 1], id, strict))
  }

  lemma {:induction false} NewRunIsUnderway(p: Parser, start: World, id: nat, strict: bool, begin: Action)
    requires begin == BeginFull(id) || begin == BeginIncremental(id)
    requires Enabled(start, begin)
    ensures Underway(p, start, Next(p, start, begin), id, strict)
    ensures Next(p, start, begin).runs[id].incremental == begin.BeginIncremental?
  {
    FilledStart(p.symbols, start.fs, [], {});
    FilledStart(p.endpoints, start.fs, [], {});
  }

  /** The trace holds the begin of run `id` at `from`, and nobody has disturbed it since. */
  ghost predicate BegunAt(p: Parser, trace: seq<Action>, from: nat, id: nat, strict: bool, begin: Action) {
    && from < |trace| && Legal(p, trace) && Legal(p, trace[..from]) && trace[from] == begin
    && (begin == BeginFull(id) || begin == BeginIncremental(id))
    && UndisturbedFrom(p, trace, from + 1, id, strict)
  }

  lemma {:induction false} StaysUnderway(p: Parser, trace: seq<Action>, from: nat, id: nat, strict: bool, begin: Action)
    requires BegunAt(p, trace, from, id, strict, begin) && id in After(p, trace).runs
    ensures Underway(p, After(p, trace[..from]), After(p, trace), id, strict)
    ensures After(p, trace).runs[id].incremental == begin.BeginIncremental?
  {
    var n := |trace| - 1;
    if n == from {
      NewRunIsUnderway(p, After(p, trace[..n]), id, strict, begin);
    } else {
      assert trace[..n][..from] == trace[..from];
      StaysUnderway(p, trace[..n], from, id, strict, begin);
      StepGoesOn(p, After(p, trace[..from]), After(p, trace[..n]), trace[n], id, strict);
    }
  }

  /** A run that nobody disturbs, from its begin to its last publish, and that passes
      over no file: an incremental one makes of the store what the whole-run relation
      says, in either mode; a full one leaves the index of the files. */
  lemma {:induction false} UndisturbedRun(p: Parser, trace: seq<Action>, from: nat, id: nat, strict: bool,
                                          begin: Action)
    requires BegunAt(p, trace, from, id, strict, begin) && trace[|trace| - 1] == PublishState(id)
    requires After(p, trace).store.state.Keys == After(p, trace).fs.Keys
    ensures After(p, trace).fs == After(p, trace[..from]).fs
    ensures begin.BeginIncremental? ==>
      Rebuilt(p, After(p, trace).fs, After(p, trace[..from]).store, strict, After(p, trace).store)
    ensures begin.BeginFull? ==> UpToDate(p, After(p, trace).fs, After(p, trace).store)
  {
    var front := trace[..|trace| - 1];
    assert front[..from] == trace[..from];
    StaysUnderway(p, front, from, id, strict, begin);
    LastPublish(p, After(p, trace[..from]), After(p, front), id, strict);
    if begin.BeginFull? {
      FirstRunIsFullBuild(p, After(p, trace).fs, strict, After(p, trace).store);
    }
  }
}
