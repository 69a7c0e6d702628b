/** The directory lock around the deployment state file, as interleaved steps of
    any number of processes that may crash at any moment. */
module StateLock {
  import opened Wrappers
  import opened Rollout
  import opened Text

  const LEASE_SECONDS: int := 300

  type ProcessId = nat

  datatype Owner = Owner(token: nat, process: ProcessId)

  datatype LockDir = LockDir(mtime: int, owner: Option<Owner>)

  datatype Phase =
    | Idle                     // outside, or gave up with an error
    | Trying(attempt: nat)     // about to call mkdir
    | Blocked                  // mkdir found the directory on the first attempt
    | Recovering               // judged the lock stale, about to rename it away
    | Created                  // made the directory, owner not recorded yet
    | Holding                  // owner recorded: inside the `with` block
    | Loaded(current: State)   // has read the state file
    | Releasing                // leaving the block, about to compare tokens
    | Removing                 // token matched, about to remove the directory
    | Dead

  datatype Process = Process(phase: Phase, token: nat)

  datatype World = World(now: int, lock: Option<LockDir>, processes: map<ProcessId, Process>, nextToken: nat,
                         file: Option<State>, written: seq<int>)

  /** `canProbe(r, q)`: process r runs on q's host and can ask whether q lives. */
  datatype Config = Config(key: Key, canProbe: (ProcessId, ProcessId) -> bool)

  datatype Action =
    | Enter(p: ProcessId)
    | Mkdir(p: ProcessId)
    | Judge(p: ProcessId)
    | Rename(p: ProcessId)
    | WriteOwner(p: ProcessId)
    | Load(p: ProcessId)
    | Update(p: ProcessId, request: Request, expected: Option<int>)
    | WriteNew(p: ProcessId, initial: State)
    | CompareToken(p: ProcessId)
    | RemoveDir(p: ProcessId)
    | Die(p: ProcessId)
    | Tick(seconds: nat)

  const NOBODY_THERE := World(0, None, map[], 0, None, [])

  function PhaseOf(w: World, p: ProcessId): Phase {
    if p in w.processes then w.processes[p].phase else Idle
  }

  function TokenOf(w: World, p: ProcessId): nat {
    if p in w.processes then w.processes[p].token else 0
  }

  function Moved(w: World, p: ProcessId, phase: Phase): World {
    w.(processes := w.processes[p := Process(phase, TokenOf(w, p))])
  }

  predicate Alive(w: World, p: ProcessId) { !PhaseOf(w, p).Dead? }

  /** The process believes that the lock is its own. */
  predicate Holds(w: World, p: ProcessId) {
    var phase := PhaseOf(w, p);
    phase.Created? || phase.Holding? || phase.Loaded? || phase.Releasing? || phase.Removing?
  }

  /** What `_recover_stale_lock` checks before it renames. */
  predicate Stale(c: Config, w: World, p: ProcessId) {
    && w.lock.Some?
    && w.now - w.lock.value.mtime > LEASE_SECONDS
    && !(w.lock.value.owner.Some? && c.canProbe(p, w.lock.value.owner.value.process)
         && Alive(w, w.lock.value.owner.value.process))
  }

  ghost predicate Enabled(c: Config, w: World, a: Action) {
    match a
    case Enter(p) => PhaseOf(w, p).Idle?
    case Mkdir(p) => PhaseOf(w, p).Trying?
    case Judge(p) => PhaseOf(w, p).Blocked?
    case Rename(p) => PhaseOf(w, p).Recovering?
    case WriteOwner(p) => PhaseOf(w, p).Created?
    case Load(p) => PhaseOf(w, p).Holding?
    case Update(p, _, _) => PhaseOf(w, p).Loaded?
    case WriteNew(p, s) => PhaseOf(w, p).Holding? && Valid(s, c.key)
    case CompareToken(p) => PhaseOf(w, p).Releasing?
    case RemoveDir(p) => PhaseOf(w, p).Removing?
    case Die(p) => Alive(w, p)
    case Tick(_) => true
  }

  ghost function Next(c: Config, w: World, a: Action): World
    requires Enabled(c, w, a)
  {
    match a
    case Enter(p) =>
      w.(processes := w.processes[p := Process(Trying(0), w.nextToken)], nextToken := w.nextToken + 1)
    case Mkdir(p) =>
      if w.lock.None? then Moved(w, p, Created).(lock := Some(LockDir(w.now, None)))
      else if PhaseOf(w, p).attempt == 0 then Moved(w, p, Blocked)
      else Moved(w, p, Idle)
    case Judge(p) => Moved(w, p, if Stale(c, w, p) then Recovering else Idle)
    case Rename(p) => if w.lock.Some? then Moved(w, p, Trying(1)).(lock := None) else Moved(w, p, Idle)
    case WriteOwner(p) => Moved(w, p, Holding).(lock := Some(LockDir(w.now, Some(Owner(TokenOf(w, p), p)))))
    case Load(p) => Moved(w, p, if w.file.Some? then Loaded(w.file.value) else Releasing)
    case Update(p, request, expected) =>
      var current := PhaseOf(w, p).current;
      if !Valid(current, c.key) || (expected.Some? && current.payload.generation != expected.value) then
        Moved(w, p, Releasing)
      else if Transition(current, c.key, request).Err? then Moved(w, p, Releasing)
      else
        var updated := Transition(current, c.key, request).value;
        Moved(w, p, Releasing).(file := Some(updated), written := w.written + [updated.payload.generation])
    case WriteNew(p, s) =>
      if w.file.Some? then Moved(w, p, Releasing)
      else Moved(w, p, Releasing).(file := Some(s), written := w.written + [s.payload.generation])
    case CompareToken(p) =>
      var own := w.lock.Some? && w.lock.value.owner.Some? && w.lock.value.owner.value.token == TokenOf(w, p);
      Moved(w, p, if own then Removing else Idle)
    case RemoveDir(p) => Moved(w, p, Idle).(lock := None)
    case Die(p) => Moved(w, p, Dead)
    case Tick(seconds) => w.(now := w.now + seconds)
  }

  // ------------------------------------------------------------ assumptions

  /** A live holder is within its lease, or shielded by the liveness probe. */
  ghost predicate InTime(c: Config, w: World, p: ProcessId)
    requires w.lock.Some?
  {
    || w.now - w.lock.value.mtime <= LEASE_SECONDS
    || (!PhaseOf(w, p).Created? && forall r :: c.canProbe(r, p))
  }

  /** Time does not run out on a live holder. */
  ghost predicate Timely(c: Config, w: World, a: Action)
    requires Enabled(c, w, a)
  {
    a.Tick? ==> forall p :: Holds(w, p) ==> w.lock.Some? && InTime(c, Next(c, w, a), p)
  }

  /** The lock is still stale at the moment it is renamed: the check and the
      rename act as one step. */
  ghost predicate StillStale(c: Config, w: World, a: Action)
    requires Enabled(c, w, a)
  {
    a.Rename? && w.lock.Some? ==> Stale(c, w, a.p)
  }

  // -------------------------------------------------------- mutual exclusion

  ghost predicate Exclusive(w: World) {
    forall p, q :: Holds(w, p) && Holds(w, q) ==> p == q
  }

  /** The lock directory is the one holder's own, and what it has read is what is
      on disk. */
  ghost predicate OwnsLock(c: Config, w: World, p: ProcessId) {
    && w.lock.Some?
    && w.lock.value.owner == (if PhaseOf(w, p).Created? then None else Some(Owner(TokenOf(w, p), p)))
    && InTime(c, w, p)
    && (PhaseOf(w, p).Loaded? ==> w.file == Some(PhaseOf(w, p).current))
  }

  ghost predicate Safe(c: Config, w: World) {
    Exclusive(w) && forall p :: Holds(w, p) ==> OwnsLock(c, w, p)
  }

  /** The step takes the lock directory away from nobody. */
  ghost predicate SparesHolder(c: Config, w: World, a: Action) {
    a.Rename? && w.lock.Some? ==> forall q :: !Holds(w, q)
  }

  /** A timely step keeps the lock safe if it spares the holder. */
  lemma {:induction false} SparingStepKeepsSafe(c: Config, w: World, a: Action)
    requires Safe(c, w) && Enabled(c, w, a) && Timely(c, w, a) && SparesHolder(c, w, a)
    ensures Safe(c, Next(c, w, a))
  {
    var w' := Next(c, w, a);
    if !a.Tick? {
      assert forall q :: q != a.p ==> PhaseOf(w', q) == PhaseOf(w, q) && TokenOf(w', q) == TokenOf(w, q);
      assert forall q :: q != a.p ==> (Holds(w', q) <==> Holds(w, q));
      if a.Mkdir? && w.lock.None? { assert forall q :: !Holds(w, q); }
      assert Holds(w', a.p) && !Holds(w, a.p) ==> a.Mkdir? && w.lock.None?;
    } else {
      assert forall q :: Holds(w', q) <==> Holds(w, q);
      assert forall q :: PhaseOf(w', q) == PhaseOf(w, q) && TokenOf(w', q) == TokenOf(w, q);
    }
    forall q | Holds(w', q) ensures OwnsLock(c, w', q) {
      assert !a.Tick? && Holds(w, q) && Holds(w, a.p) ==> q == a.p;
      assert Holds(w, q) ==> OwnsLock(c, w, q);
    }
  }

  lemma {:induction false} StaleMeansNoHolder(c: Config, w: World, p: ProcessId)
    requires Safe(c, w) && Stale(c, w, p)
    ensures forall q :: !Holds(w, q)
  {
    forall q ensures !Holds(w, q) {
      assert Holds(w, q) ==> OwnsLock(c, w, q);
    }
  }

  lemma {:induction false} StepKeepsSafe(c: Config, w: World, a: Action)
    requires Safe(c, w) && Enabled(c, w, a) && Timely(c, w, a) && StillStale(c, w, a)
    ensures Safe(c, Next(c, w, a))
  {
    if a.Rename? && w.lock.Some? { StaleMeansNoHolder(c, w, a.p); }
    SparingStepKeepsSafe(c, w, a);
  }

  /** Exactly which renames keep the holder's ownership of the directory: those that
      take it away from nobody. */
  lemma {:induction false} RenameIsSafeExactly(c: Config, w: World, p: ProcessId)
    requires Safe(c, w) && Enabled(c, w, Rename(p)) && w.lock.Some?
    ensures Safe(c, Next(c, w, Rename(p))) <==> forall q :: !Holds(w, q)
  {
    var w' := Next(c, w, Rename(p));
    assert forall q :: q != p ==> PhaseOf(w', q) == PhaseOf(w, q);
    assert !Holds(w, p) && !Holds(w', p);
    assert forall q :: Holds(w', q) <==> Holds(w, q);
    if q :| Holds(w, q) {
      assert Holds(w', q) && !OwnsLock(c, w', q);
    }
  }

  /** And exactly those after which exclusion outlasts the next step: the process that
      renamed the directory goes on to make its own. */
  lemma {:induction false} RenameKeepsExclusionExactly(c: Config, w: World, p: ProcessId)
    requires Safe(c, w) && Enabled(c, w, Rename(p)) && w.lock.Some?
    ensures Enabled(c, Next(c, w, Rename(p)), Mkdir(p))
    ensures Exclusive(Next(c, Next(c, w, Rename(p)), Mkdir(p))) <==> forall q :: !Holds(w, q)
  {
    var w' := Next(c, Next(c, w, Rename(p)), Mkdir(p));
    assert forall q :: q != p ==> PhaseOf(w', q) == PhaseOf(w, q);
    assert !Holds(w, p) && Holds(w', p);
    assert forall q :: q != p ==> (Holds(w', q) <==> Holds(w, q));
  }

  // ------------------------------------------------------------ whole traces

  ghost predicate Legal(c: Config, trace: seq<Action>)
    decreases |trace|, 0
  {
    trace == [] ||
    (Legal(c, trace[..|trace| - 1]) && Enabled(c, After(c, trace[..|trace| - 1]), trace[|trace| - 1]))
  }

  ghost function After(c: Config, trace: seq<Action>): World
    requires Legal(c, trace)
    decreases |trace|, 1
  {
    if trace == [] then NOBODY_THERE
    else Next(c, After(c, trace[..|trace| - 1]), trace[|trace| - 1])
  }

  ghost predicate AlwaysTimely(c: Config, trace: seq<Action>)
    requires Legal(c, trace)
  {
    trace == [] ||
    (AlwaysTimely(c, trace[..|trace| - 1]) && Timely(c, After(c, trace[..|trace| - 1]), trace[|trace| - 1]))
  }

  ghost predicate AlwaysStillStale(c: Config, trace: seq<Action>)
    requires Legal(c, trace)
  {
    trace == [] ||
    (AlwaysStillStale(c, trace[..|trace| - 1]) && StillStale(c, After(c, trace[..|trace| - 1]), trace[|trace| - 1]))
  }

  /** In every interleaving of acquisition, recovery, crash and release, at most
      one live process is inside, provided holders finish within their lease and
      the lock found stale is the lock renamed. */
  lemma {:induction false} MutualExclusion(c: Config, trace: seq<Action>)
    requires Legal(c, trace) && AlwaysTimely(c, trace) && AlwaysStillStale(c, trace)
    ensures Safe(c, After(c, trace))
  {
    if trace != [] {
      MutualExclusion(c, trace[..|trace| - 1]);
      StepKeepsSafe(c, After(c, trace[..|trace| - 1]), trace[|trace| - 1]);
    }
  }

  /** The lock is safe after every prefix of the trace. */
  ghost predicate AlwaysSafe(c: Config, trace: seq<Action>)
    requires Legal(c, trace)
  {
    Safe(c, After(c, trace)) && (trace == [] || AlwaysSafe(c, trace[..|trace| - 1]))
  }

  /** Every rename of an existing lock happened while nobody held it. */
  ghost predicate AlwaysSpares(c: Config, trace: seq<Action>)
    requires Legal(c, trace)
  {
    trace == [] ||
    (AlwaysSpares(c, trace[..|trace| - 1]) && SparesHolder(c, After(c, trace[..|trace| - 1]), trace[|trace| - 1]))
  }

  lemma {:induction false} SafeStepExactly(c: Config, w: World, a: Action)
    requires Safe(c, w) && Enabled(c, w, a) && Timely(c, w, a)
    ensures Safe(c, Next(c, w, a)) <==> SparesHolder(c, w, a)
  {
    if SparesHolder(c, w, a) {
      SparingStepKeepsSafe(c, w, a);
    } else {
      RenameIsSafeExactly(c, w, a.p);
    }
  }

  /** Exactly which whole interleavings with timely holders are safe throughout: those
      in which no rename takes a lock away from a holder. */
  lemma {:induction false} AlwaysSafeExactly(c: Config, trace: seq<Action>)
    requires Legal(c, trace) && AlwaysTimely(c, trace)
    ensures AlwaysSafe(c, trace) <==> AlwaysSpares(c, trace)
  {
    if trace != [] {
      var front, last := trace[..|trace| - 1], trace[|trace| - 1];
      AlwaysSafeExactly(c, front);
      if AlwaysSafe(c, front) {
        SafeStepExactly(c, After(c, front), last);
      }
    }
  }

  // ------------------------------------------------------------ the state file

  ghost predicate Increasing(s: seq<int>) {
    forall i, j :: 0 <= i < j < |s| ==> s[i] < s[j]
  }

  /** The log of written generations ends with the stored one. */
  ghost predicate LogOk(w: World) {
    && Increasing(w.written)
    && (w.file.None? ==> w.written == [])
    && (w.file.Some? ==> w.written != [] && w.written[|w.written| - 1] == w.file.value.payload.generation)
  }

  /** `later` holds everything that `earlier` recorded. */
  ghost predicate Extends(earlier: Option<State>, later: Option<State>) {
    earlier.Some? ==> later.Some? && earlier.value.payload.history <= later.value.payload.history
                      && earlier.value.payload.generation <= later.value.payload.generation
  }

  lemma {:induction false} StepExtendsFile(c: Config, w: World, a: Action)
    requires Safe(c, w) && Enabled(c, w, a) && LogOk(w)
    ensures LogOk(Next(c, w, a)) && Extends(w.file, Next(c, w, a).file)
  {
    if a.Update? {
      assert Holds(w, a.p) && OwnsLock(c, w, a.p);
    }
  }

  lemma {:induction false} LogStaysOk(c: Config, trace: seq<Action>)
    requires Legal(c, trace) && AlwaysTimely(c, trace) && AlwaysStillStale(c, trace)
    ensures LogOk(After(c, trace))
  {
    if trace != [] {
      LogStaysOk(c, trace[..|trace| - 1]);
      MutualExclusion(c, trace[..|trace| - 1]);
      StepExtendsFile(c, After(c, trace[..|trace| - 1]), trace[|trace| - 1]);
    }
  }

  /** Successive stored histories are prefixes of one another, and no generation
      is ever written twice: no update is lost. */
  lemma {:induction false} NoUpdateIsLost(c: Config, trace: seq<Action>, k: nat)
    requires Legal(c, trace) && AlwaysTimely(c, trace) && AlwaysStillStale(c, trace) && k <= |trace|
    ensures Legal(c, trace[..k]) && Extends(After(c, trace[..k]).file, After(c, trace).file)
    ensures Increasing(After(c, trace).written)
    decreases |trace|
  {
    LogStaysOk(c, trace);
    if k == |trace| {
      assert trace[..k] == trace;
    } else {
      var front := trace[..|trace| - 1];
      NoUpdateIsLost(c, front, k);
      assert front[..k] == trace[..k];
      MutualExclusion(c, front);
      LogStaysOk(c, front);
      StepExtendsFile(c, After(c, front), trace[|trace| - 1]);
    }
  }

  /** The expectation of an update is met by the state it has loaded. */
  predicate AsExpected(expected: Option<int>, current: State) {
    expected.Some? ==> expected.value == current.payload.generation
  }

  /** Exactly when an update writes: the stored state verifies, has the expected
      generation if one is given, and the request is one that is accepted. What it
      writes has one generation more; an update that writes nothing changes neither the
      file nor the log. */
  lemma {:induction false} UpdateWritesExactly(c: Config, w: World, a: Action)
    requires Safe(c, w) && Enabled(c, w, a) && a.Update?
    ensures w.file.Some?
    ensures var w' := Next(c, w, a);
      && (w'.written != w.written <==>
            && Valid(w.file.value, c.key) && AsExpected(a.expected, w.file.value)
            && Transition(w.file.value, c.key, a.request).Ok?)
      && (w'.written != w.written ==>
            && Transition(w.file.value, c.key, a.request) == Ok(w'.file.value) && w'.file.Some?
            && w'.file.value.payload.generation == w.file.value.payload.generation + 1
            && w'.written == w.written + [w.file.value.payload.generation + 1])
      && (w'.written == w.written ==> w'.file == w.file)
  {
    assert Holds(w, a.p) && OwnsLock(c, w, a.p);
  }

  /** A named actor's rollback of a verified state writes, whatever the stage below
      `rolled_back`, if the expectation is met. */
  lemma {:induction false} ExpectedRollbackWrites(c: Config, w: World, a: Action)
    requires Safe(c, w) && Enabled(c, w, a) && a.Update? && w.file.Some? && Valid(w.file.value, c.key)
    requires a.request.target == RolledBack && Strip(a.request.actor) != "" && w.file.value.payload.stage != RolledBack
    requires a.expected == None || a.expected == Some(w.file.value.payload.generation)
    ensures var w' := Next(c, w, a);
      && w'.file.Some? && w'.file.value.payload.stage == RolledBack && w'.file.value.payload.traffic == 0.0
      && w'.file.value.payload.generation == w.file.value.payload.generation + 1
  {
    UpdateWritesExactly(c, w, a);
    AcceptedExactly(w.file.value, c.key, a.request);
    AcceptedState(w.file.value, c.key, a.request);
  }

  /** The step at position `i` of the trace is an update that writes, told to expect `g`. */
  ghost predicate WritesExpecting(c: Config, trace: seq<Action>, i: nat, g: int)
    requires Legal(c, trace) && i < |trace|
  {
    && Legal(c, trace[..i]) && Legal(c, trace[..i + 1])
    && trace[i].Update? && trace[i].expected == Some(g)
    && After(c, trace[..i + 1]).written != After(c, trace[..i]).written
  }

  lemma {:induction false} PrefixFacts(c: Config, trace: seq<Action>, k: nat)
    requires Legal(c, trace) && AlwaysTimely(c, trace) && AlwaysStillStale(c, trace) && k <= |trace|
    ensures Legal(c, trace[..k]) && AlwaysTimely(c, trace[..k]) && AlwaysStillStale(c, trace[..k])
    ensures k < |trace| ==> Legal(c, trace[..k + 1]) && Enabled(c, After(c, trace[..k]), trace[k])
                            && After(c, trace[..k + 1]) == Next(c, After(c, trace[..k]), trace[k])
  {
    if k < |trace| {
      var front := trace[..|trace| - 1];
      if k < |front| {
        PrefixFacts(c, front, k);
        assert front[..k] == trace[..k] && front[..k + 1] == trace[..k + 1];
      } else {
        assert trace[..k + 1] == trace && trace[..k] == front;
      }
    } else {
      assert trace[..k] == trace;
    }
  }

  lemma {:induction false} ExpectedIsStored(c: Config, trace: seq<Action>, i: nat, g: int)
    requires Legal(c, trace) && AlwaysTimely(c, trace) && AlwaysStillStale(c, trace)
    requires i < |trace| && WritesExpecting(c, trace, i, g)
    ensures After(c, trace[..i]).file.Some? && After(c, trace[..i]).file.value.payload.generation == g
    ensures After(c, trace[..i + 1]).file.Some?
    ensures After(c, trace[..i + 1]).file.value.payload.generation == g + 1
  {
    PrefixFacts(c, trace, i);
    MutualExclusion(c, trace[..i]);
    UpdateWritesExactly(c, After(c, trace[..i]), trace[i]);
  }

  /** Compare and swap, over whole interleavings: an update told to expect a generation
      writes only over that generation, and no two updates told to expect the same one
      both write. */
  lemma {:induction false} OneUpdatePerGeneration(c: Config, trace: seq<Action>, i: nat, j: nat, g: int)
    requires Legal(c, trace) && AlwaysTimely(c, trace) && AlwaysStillStale(c, trace)
    requires i < j < |trace|
    ensures WritesExpecting(c, trace, i, g) ==>
      && Legal(c, trace[..i]) && After(c, trace[..i]).file.Some?
      && After(c, trace[..i]).file.value.payload.generation == g
    ensures !(WritesExpecting(c, trace, i, g) && WritesExpecting(c, trace, j, g))
  {
    if WritesExpecting(c, trace, i, g) {
      ExpectedIsStored(c, trace, i, g);
      PrefixFacts(c, trace, j);
      assert trace[..j][..i + 1] == trace[..i + 1];
      NoUpdateIsLost(c, trace[..j], i + 1);
      if WritesExpecting(c, trace, j, g) { ExpectedIsStored(c, trace, j, g); }
    }
  }

  // --------------------------------------------------- coming in and going out

  /** What one attempt makes of the lock: free, it is taken and recorded; taken, it is
      only looked at, and recovered if it is older than 300 seconds and its recorded
      owner, as far as the process can ask, is not alive. */
  lemma {:induction false} AttemptMeans(c: Config, w: World, p: ProcessId)
    ensures Enabled(c, w, Mkdir(p)) && w.lock.None? ==>
      && Next(c, w, Mkdir(p)).lock == Some(LockDir(w.now, None))
      && Enabled(c, Next(c, w, Mkdir(p)), WriteOwner(p))
      && var v := Next(c, Next(c, w, Mkdir(p)), WriteOwner(p));
         v.lock == Some(LockDir(w.now, Some(Owner(TokenOf(w, p), p)))) && PhaseOf(v, p) == Holding
    ensures Enabled(c, w, Mkdir(p)) && w.lock.Some? ==>
      && Next(c, w, Mkdir(p)).lock == w.lock && !Holds(Next(c, w, Mkdir(p)), p)
    ensures Enabled(c, w, Judge(p)) && w.lock.Some? ==>
      (PhaseOf(Next(c, w, Judge(p)), p) == Recovering <==>
        && w.now - w.lock.value.mtime > 300
        && (w.lock.value.owner.None? || !c.canProbe(p, w.lock.value.owner.value.process)
            || PhaseOf(w, w.lock.value.owner.value.process) == Dead))
    ensures Enabled(c, w, Judge(p)) ==> Next(c, w, Judge(p)).lock == w.lock && !Holds(Next(c, w, Judge(p)), p)
  {
  }

  /** A holder that leaves compares the tokens, finds its own and removes the directory:
      the lock is free, nobody is inside, and the state file is as it was. */
  lemma {:induction false} ReleaseFreesLock(c: Config, w: World, p: ProcessId)
    requires Safe(c, w) && PhaseOf(w, p) == Releasing
    ensures Enabled(c, w, CompareToken(p)) && Enabled(c, Next(c, w, CompareToken(p)), RemoveDir(p))
    ensures var v := Next(c, Next(c, w, CompareToken(p)), RemoveDir(p));
      v.lock == None && PhaseOf(v, p) == Idle && v.file == w.file && forall q :: !Holds(v, q)
  {
    assert Holds(w, p) && OwnsLock(c, w, p);
    var u := Next(c, w, CompareToken(p));
    var v := Next(c, u, RemoveDir(p));
    forall q ensures !Holds(v, q) {
      assert q != p ==> PhaseOf(v, q) == PhaseOf(w, q);
      assert Holds(w, q) ==> q == p;
    }
  }

  /** A process whose token is not the recorded one leaves the directory to its owner. */
  lemma {:induction false} ForeignLockIsSpared(c: Config, w: World, p: ProcessId)
    requires PhaseOf(w, p) == Releasing && w.lock.Some?
    requires w.lock.value.owner.None? || w.lock.value.owner.value.token != TokenOf(w, p)
    ensures var v := Next(c, w, CompareToken(p)); v.lock == w.lock && PhaseOf(v, p) == Idle
  {
  }

  /** Reading and creating the file: what is loaded is what is stored, a new state is
      written only where none is. */
  lemma {:induction false} FileStepsMean(c: Config, w: World, p: ProcessId, s: State)
    ensures PhaseOf(w, p) == Holding ==>
      && Next(c, w, Load(p)).file == w.file
      && (w.file.Some? ==> PhaseOf(Next(c, w, Load(p)), p) == Loaded(w.file.value))
      && (w.file.None? ==> PhaseOf(Next(c, w, Load(p)), p) == Releasing)
    ensures Enabled(c, w, WriteNew(p, s)) <==> PhaseOf(w, p) == Holding && Valid(s, c.key)
    ensures PhaseOf(w, p) == Holding && Valid(s, c.key) ==>
      Next(c, w, WriteNew(p, s)).file == if w.file.None? then Some(s) else w.file
  {
  }

  // ---------------------------------------- the gap between check and rename

  lemma {:induction false} Extend(c: Config, trace: seq<Action>, a: Action)
    requires Legal(c, trace) && AlwaysTimely(c, trace) && Enabled(c, After(c, trace), a)
    requires !a.Tick? || forall p :: !Holds(After(c, trace), p)
    ensures Legal(c, trace + [a]) && AlwaysTimely(c, trace + [a])
    ensures After(c, trace + [a]) == Next(c, After(c, trace), a)
  {
    var longer := trace + [a];
    assert longer[..|longer| - 1] == trace && longer[|longer| - 1] == a;
    assert Timely(c, After(c, trace), a);
  }

  ghost predicate OthersStay(w: World, v: World, p: ProcessId) { forall q | q != p :: PhaseOf(w, q) == PhaseOf(v, q) }

  /** A process makes the directory and dies; its lease runs out. */
  lemma {:induction false} OwnerDies(c: Config) returns (trace: seq<Action>)
    ensures Legal(c, trace) && AlwaysTimely(c, trace)
    ensures After(c, trace) == World(301, Some(LockDir(0, None)), map[0 := Process(Dead, 0)], 1, None, [])
  {
    var steps := [Enter(0), Mkdir(0), Die(0), Tick(301)];
    trace := [];
    Extend(c, trace, steps[0]); trace := trace + [steps[0]];
    Extend(c, trace, steps[1]); trace := trace + [steps[1]];
    Extend(c, trace, steps[2]); trace := trace + [steps[2]];
    Extend(c, trace, steps[3]); trace := trace + [steps[3]];
  }

  /** A newcomer finds a stale lock and judges it so. */
  lemma {:induction false} JudgesStale(c: Config, before: seq<Action>, p: ProcessId) returns (trace: seq<Action>)
    requires Legal(c, before) && AlwaysTimely(c, before) && PhaseOf(After(c, before), p).Idle?
    requires Stale(c, After(c, before), p)
    ensures trace == before + [Enter(p), Mkdir(p), Judge(p)]
    ensures Legal(c, trace) && AlwaysTimely(c, trace)
    ensures PhaseOf(After(c, trace), p).Recovering? && OthersStay(After(c, before), After(c, trace), p)
    ensures TokenOf(After(c, trace), p) == After(c, before).nextToken
    ensures After(c, trace).lock == After(c, before).lock && After(c, trace).now == After(c, before).now
    ensures After(c, trace).file == After(c, before).file
  {
    trace := before;
    Extend(c, trace, Enter(p)); trace := trace + [Enter(p)];
    Extend(c, trace, Mkdir(p)); trace := trace + [Mkdir(p)];
    Extend(c, trace, Judge(p)); trace := trace + [Judge(p)];
  }

  /** A recoverer renames whatever lock is there away and takes its own. */
  lemma {:induction false} RenamesAndEnters(c: Config, before: seq<Action>, p: ProcessId) returns (trace: seq<Action>)
    requires Legal(c, before) && AlwaysTimely(c, before) && PhaseOf(After(c, before), p).Recovering?
    requires After(c, before).lock.Some?
    ensures trace == before + [Rename(p), Mkdir(p), WriteOwner(p)]
    ensures Legal(c, trace) && AlwaysTimely(c, trace)
    ensures PhaseOf(After(c, trace), p).Holding? && OthersStay(After(c, before), After(c, trace), p)
    ensures After(c, trace).now == After(c, before).now && After(c, trace).file == After(c, before).file
    ensures After(c, trace).lock == Some(LockDir(After(c, trace).now, Some(Owner(TokenOf(After(c, before), p), p))))
    ensures TokenOf(After(c, trace), p) == TokenOf(After(c, before), p)
  {
    trace := before;
    Extend(c, trace, Rename(p)); trace := trace + [Rename(p)];
    Extend(c, trace, Mkdir(p)); trace := trace + [Mkdir(p)];
    Extend(c, trace, WriteOwner(p)); trace := trace + [WriteOwner(p)];
  }

  /** Two newcomers judge the abandoned lock stale before either renames it. The
      second then renames away the lock that the first has just acquired, and
      both are inside, each well within its lease. */
  lemma {:induction false} TwoRecoverersBothEnter(c: Config) returns (trace: seq<Action>)
    ensures Legal(c, trace) && AlwaysTimely(c, trace)
    ensures PhaseOf(After(c, trace), 1).Holding? && PhaseOf(After(c, trace), 2).Holding?
  {
    trace := OwnerDies(c);
    trace := JudgesStale(c, trace, 1);
    trace := JudgesStale(c, trace, 2);
    trace := RenamesAndEnters(c, trace, 1);
    trace := RenamesAndEnters(c, trace, 2);
  }

  // ------------------------------------------------------------- recovery

  /** Nobody holds the lock, and its recorded owner, if `p` can ask for it, is dead. */
  ghost predicate Abandoned(c: Config, w: World, p: ProcessId) {
    && w.lock.Some? && (forall q :: !Holds(w, q))
    && !(w.lock.value.owner.Some? && c.canProbe(p, w.lock.value.owner.value.process)
         && Alive(w, w.lock.value.owner.value.process))
  }

  /** The steps of a newcomer that waits for the lease and takes the lock over. */
  function RecoverySteps(p: ProcessId, wait: nat): seq<Action> {
    [Tick(wait), Enter(p), Mkdir(p), Judge(p)] + [Rename(p), Mkdir(p), WriteOwner(p)]
  }

  lemma {:induction false} WaitsAndJudges(c: Config, before: seq<Action>, p: ProcessId, wait: nat)
    returns (trace: seq<Action>)
    requires Legal(c, before) && AlwaysTimely(c, before) && PhaseOf(After(c, before), p).Idle?
    requires Abandoned(c, After(c, before), p)
    requires After(c, before).now + wait - After(c, before).lock.value.mtime > LEASE_SECONDS
    ensures trace == before + [Tick(wait), Enter(p), Mkdir(p), Judge(p)]
    ensures Legal(c, trace) && AlwaysTimely(c, trace)
    ensures After(c, trace).now == After(c, before).now + wait && After(c, trace).file == After(c, before).file
    ensures PhaseOf(After(c, trace), p).Recovering? && OthersStay(After(c, before), After(c, trace), p)
    ensures TokenOf(After(c, trace), p) == After(c, before).nextToken
    ensures After(c, trace).lock == After(c, before).lock
  {
    Extend(c, before, Tick(wait));
    trace := JudgesStale(c, before + [Tick(wait)], p);
  }

  /** An abandoned lock, whatever left it behind, can be acquired by any idle process
      once its lease has run out: the recovery steps are legal and timely, end with that
      process inside as the recorded owner, and keep a safe lock safe. */
  lemma {:induction false} AbandonedLockIsRecovered(c: Config, before: seq<Action>, p: ProcessId, wait: nat)
    requires Legal(c, before) && AlwaysTimely(c, before) && PhaseOf(After(c, before), p).Idle?
    requires Abandoned(c, After(c, before), p)
    requires After(c, before).now + wait - After(c, before).lock.value.mtime > LEASE_SECONDS
    ensures var trace := before + RecoverySteps(p, wait);
      && Legal(c, trace) && AlwaysTimely(c, trace)
      && PhaseOf(After(c, trace), p).Holding? && OthersStay(After(c, before), After(c, trace), p)
      && After(c, trace).lock == Some(LockDir(After(c, trace).now, Some(Owner(After(c, before).nextToken, p))))
      && After(c, trace).file == After(c, before).file
      && Safe(c, After(c, trace))
  {
    var w := After(c, before);
    var trace := WaitsAndJudges(c, before, p, wait);
    trace := RenamesAndEnters(c, trace, p);
    assert trace == before + RecoverySteps(p, wait);
    var v := After(c, trace);
    forall q ensures Holds(v, q) <==> q == p {
      assert q != p ==> PhaseOf(v, q) == PhaseOf(w, q) && !Holds(w, q);
    }
  }
}
