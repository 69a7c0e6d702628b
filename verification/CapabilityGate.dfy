/** The deterministic gate in front of model-proposed actions: two bounded
    traversals of the parameter tree and the decision built on them. */
module CapabilityGate {
  import opened Wrappers
  import opened Text

  const MAX_DEPTH := 6
  const MAX_NODES := 256
  const MAX_STRING := 4096
  const MAX_KEY := 128

  datatype Key = TextKey(text: string) | OtherKey

  datatype Value =
    | Null
    | Boolean(flag: bool)
    | Integer(number: int)
    | Float(finite: bool)
    | Str(text: string)
    | Mapping(entries: seq<Entry>)
    | Items(items: seq<Value>)
    | Unsupported

  datatype Entry = Entry(key: Key, value: Value)

  /** A node of the tree with the key it hangs on, if any, and its depth. */
  datatype Node = Node(key: Option<Key>, depth: nat, value: Value)

  datatype Capability =
    | ToolExecution | ProviderSelection | RepositoryActivation | NetworkAccess | SecretAccess
    | SafetyLaneChange | SkipVerification

  datatype Request = Request(capability: Capability, toolName: Option<string>, providerId: Option<string>,
                             repositoryId: Option<string>, networkHost: Option<string>, secretName: Option<string>,
                             requestedLane: Option<string>, parameters: seq<Entry>, citedEvidence: seq<string>)

  /** The key tables and the path test, the key normalisation before them, and whether
      a request has a JSON text in UTF-8 (a lone surrogate or a huge integer has none). */
  datatype Tables = Tables(normalize: string -> string, privileged: string -> bool, repository: string -> bool,
                           graphDepth: string -> bool, path: string -> bool, safePath: string -> bool,
                           encodable: Request -> bool)

  datatype Policy = Policy(allowedTools: seq<string>, activeRepositories: seq<string>, maxGraphDepth: int)

  datatype Reason =
    | UnknownEvidence | InvalidRequest | ToolNotAllowlisted | ControlPlaneOwned | OperatorOwned
    | TrustedRuntimeGrantRequired | VerificationRequired | PrivilegedParameter
    | RepositoryScopeViolation | RepositoryScopeRequired | PathScopeViolation | GraphDepthExceeded
    | ParameterBudgetExceeded | PreauthorizedScopedTool

  // ------------------------------------------------------- the tree as a list

  /** All nodes, parents before children, children in order. */
  function NodesOf(v: Value, key: Option<Key>, depth: nat): (nodes: seq<Node>)
    ensures |nodes| >= 1
    decreases v, 1
  {
    [Node(key, depth, v)] +
    match v
    case Mapping(entries) => NodesOfEntries(entries, depth + 1)
    case Items(items) => NodesOfItems(items, depth + 1)
    case _ => []
  }

  function NodesOfEntries(entries: seq<Entry>, depth: nat): seq<Node>
    decreases entries, 0
  {
    if entries == [] then []
    else
      assert entries[0].value < entries[0];
      NodesOf(entries[0].value, Some(entries[0].key), depth) + NodesOfEntries(entries[1..], depth)
  }

  function NodesOfItems(items: seq<Value>, depth: nat): seq<Node>
    decreases items, 0
  {
    if items == [] then [] else NodesOf(items[0], None, depth) + NodesOfItems(items[1..], depth)
  }

  /** `n` sits somewhere in the value `v` that hangs on `key` at `depth`. */
  ghost predicate Occurs(n: Node, v: Value, key: Option<Key>, depth: nat)
    decreases v
  {
    || n == Node(key, depth, v)
    || (v.Mapping? && exists i :: 0 <= i < |v.entries| && OccursUnder(n, v.entries[i], depth + 1))
    || (v.Items? && exists i :: 0 <= i < |v.items| && Occurs(n, v.items[i], None, depth + 1))
  }

  ghost predicate OccursUnder(n: Node, e: Entry, depth: nat)
    decreases e
  {
    Occurs(n, e.value, Some(e.key), depth)
  }

  /** The list holds everything that sits in the value, at any depth, and no more. */
  lemma {:induction false} NodesAreWhatOccurs(n: Node, v: Value, key: Option<Key>, depth: nat)
    ensures n in NodesOf(v, key, depth) <==> Occurs(n, v, key, depth)
    decreases v, 1
  {
    match v
    case Mapping(entries) =>
      EntriesAreWhatOccurs(n, entries, depth + 1);
    case Items(items) =>
      ItemsAreWhatOccurs(n, items, depth + 1);
    case _ =>
  }

  lemma {:induction false} EntriesAreWhatOccurs(n: Node, entries: seq<Entry>, depth: nat)
    ensures n in NodesOfEntries(entries, depth) <==>
      exists i :: 0 <= i < |entries| && OccursUnder(n, entries[i], depth)
    decreases entries, 0
  {
    if entries != [] {
      assert entries[0].value < entries[0];
      NodesAreWhatOccurs(n, entries[0].value, Some(entries[0].key), depth);
      EntriesAreWhatOccurs(n, entries[1..], depth);
      if i :| 0 <= i < |entries[1..]| && OccursUnder(n, entries[1..][i], depth) {
        assert entries[i + 1] == entries[1..][i];
      }
      if i :| 1 <= i < |entries| && OccursUnder(n, entries[i], depth) {
        assert entries[1..][i - 1] == entries[i];
      }
    }
  }

  lemma {:induction false} ItemsAreWhatOccurs(n: Node, items: seq<Value>, depth: nat)
    ensures n in NodesOfItems(items, depth) <==> exists i :: 0 <= i < |items| && Occurs(n, items[i], None, depth)
    decreases items, 0
  {
    if items != [] {
      NodesAreWhatOccurs(n, items[0], None, depth);
      ItemsAreWhatOccurs(n, items[1..], depth);
      if i :| 0 <= i < |items[1..]| && Occurs(n, items[1..][i], None, depth) {
        assert items[i + 1] == items[1..][i];
      }
      if i :| 1 <= i < |items| && Occurs(n, items[i], None, depth) {
        assert items[1..][i - 1] == items[i];
      }
    }
  }

  /** The first objection in a list of nodes; `visit` also sees the running count. */
  function FirstObjection<R>(visit: (Node, nat) -> Option<R>, nodes: seq<Node>, count: nat): Option<R> {
    if nodes == [] then None
    else if visit(nodes[0], count + 1).Some? then visit(nodes[0], count + 1)
    else FirstObjection(visit, nodes[1..], count + 1)
  }

  lemma {:induction false} FirstObjectionAppend<R>(visit: (Node, nat) -> Option<R>, a: seq<Node>, b: seq<Node>,
                                                   count: nat)
    ensures FirstObjection(visit, a + b, count)
         == if FirstObjection(visit, a, count).Some? then FirstObjection(visit, a, count)
            else FirstObjection(visit, b, count + |a|)
  {
    if a == [] {
      assert a + b == b;
    } else {
      assert (a + b)[1..] == a[1..] + b;
      FirstObjectionAppend(visit, a[1..], b, count + 1);
    }
  }

  lemma {:induction false} NoObjectionExactly<R>(visit: (Node, nat) -> Option<R>, nodes: seq<Node>, count: nat)
    ensures FirstObjection(visit, nodes, count).None?
       <==> forall i :: 0 <= i < |nodes| ==> visit(nodes[i], count + i + 1).None?
  {
    if nodes != [] {
      NoObjectionExactly(visit, nodes[1..], count + 1);
      if FirstObjection(visit, nodes, count).None? {
        forall i | 0 <= i < |nodes| ensures visit(nodes[i], count + i + 1).None? {
          if i > 0 { assert nodes[1..][i - 1] == nodes[i]; }
        }
      } else if visit(nodes[0], count + 1).None? {
        var i :| 0 <= i < |nodes[1..]| && visit(nodes[1..][i], count + 1 + i + 1).Some?;
        assert visit(nodes[i + 1], count + (i + 1) + 1).Some?;
      }
    }
  }

  // --------------------------------------------------- the digest traversal

  datatype DigestError = OverBudget | Malformed

  predicate DigestKeyOk(key: Key) { key.TextKey? && 0 < |key.text| <= MAX_KEY }

  /** What `_canonical_value` objects to at one node. */
  function DigestVisit(n: Node, count: nat): Option<DigestError> {
    if n.key.Some? && !DigestKeyOk(n.key.value) then Some(Malformed)
    else if count > MAX_NODES || n.depth > MAX_DEPTH then Some(OverBudget)
    else match n.value
      case Str(text) => if |text| > MAX_STRING then Some(OverBudget) else None
      case Float(finite) => if finite then None else Some(Malformed)
      case Mapping(entries) => if |entries| > MAX_NODES then Some(OverBudget) else None
      case Items(items) => if |items| > MAX_NODES then Some(OverBudget) else None
      case Unsupported => Some(Malformed)
      case _ => None
  }

  class DigestTraversal {
    var nodes: nat

    constructor ()
      ensures nodes == 0
    {
      nodes := 0;
    }

    /** `_canonical_value`, up to the copy that it returns. The key has been checked
        by the caller. */
    method Canonical(v: Value, key: Option<Key>, depth: nat) returns (error: Option<DigestError>)
      requires key.Some? ==> DigestKeyOk(key.value)
      modifies this
      ensures error == FirstObjection(DigestVisit, NodesOf(v, key, depth), old(nodes))
      ensures error.None? ==> nodes == old(nodes) + |NodesOf(v, key, depth)|
      decreases v, 1
    {
      ghost var here, rest := [Node(key, depth, v)], NodesOf(v, key, depth)[1..];
      assert NodesOf(v, key, depth) == here + rest;
      FirstObjectionAppend(DigestVisit, here, rest, nodes);
      nodes := nodes + 1;
      if nodes > MAX_NODES || depth > MAX_DEPTH { return Some(OverBudget); }
      match v
      case Str(text) => error := if |text| > MAX_STRING then Some(OverBudget) else None;
      case Float(finite) => error := if finite then None else Some(Malformed);
      case Mapping(entries) =>
        if |entries| > MAX_NODES { return Some(OverBudget); }
        error := CanonicalEntries(entries, depth + 1);
      case Items(items) =>
        if |items| > MAX_NODES { return Some(OverBudget); }
        error := CanonicalItems(items, depth + 1);
      case Unsupported => error := Some(Malformed);
      case _ => error := None;
    }

    method CanonicalEntries(entries: seq<Entry>, depth: nat) returns (error: Option<DigestError>)
      modifies this
      ensures error == FirstObjection(DigestVisit, NodesOfEntries(entries, depth), old(nodes))
      ensures error.None? ==> nodes == old(nodes) + |NodesOfEntries(entries, depth)|
      decreases entries, 0
    {
      if entries == [] { return None; }
      ghost var head := NodesOf(entries[0].value, Some(entries[0].key), depth);
      FirstObjectionAppend(DigestVisit, head, NodesOfEntries(entries[1..], depth), nodes);
      if !DigestKeyOk(entries[0].key) { return Some(Malformed); }
      assert entries[0].value < entries[0];
      error := Canonical(entries[0].value, Some(entries[0].key), depth);
      if error.None? { error := CanonicalEntries(entries[1..], depth); }
    }

    method CanonicalItems(items: seq<Value>, depth: nat) returns (error: Option<DigestError>)
      modifies this
      ensures error == FirstObjection(DigestVisit, NodesOfItems(items, depth), old(nodes))
      ensures error.None? ==> nodes == old(nodes) + |NodesOfItems(items, depth)|
      decreases items, 0
    {
      if items == [] { return None; }
      FirstObjectionAppend(DigestVisit, NodesOf(items[0], None, depth), NodesOfItems(items[1..], depth), nodes);
      error := Canonical(items[0], None, depth);
      if error.None? { error := CanonicalItems(items[1..], depth); }
    }
  }

  // ----------------------------------------------- the validating traversal

  predicate WalkKeyOk(key: Key) { key.TextKey? && key.text != "" }

  /** `_path_values_are_safe`. */
  predicate PathValuesSafe(t: Tables, v: Value) {
    match v
    case Str(text) => t.safePath(text)
    case Items(items) => items != [] && forall i :: 0 <= i < |items| ==> items[i].Str? && t.safePath(items[i].text)
    case _ => false
  }

  /** The repository a node names, if its key is a repository key. */
  predicate NamesRepository(t: Tables, n: Node) {
    n.key.Some? && n.key.value.TextKey? && t.repository(t.normalize(n.key.value.text))
  }

  /** What a node's own key forbids. */
  function KeyObjection(t: Tables, p: Policy, key: string, v: Value): Option<Reason> {
    var k := t.normalize(key);
    if t.privileged(k) then Some(PrivilegedParameter)
    else if t.repository(k) && (!v.Str? || Strip(v.text) == "") then Some(InvalidRequest)
    else if t.repository(k) && Strip(v.text) !in p.activeRepositories then Some(RepositoryScopeViolation)
    else if t.graphDepth(k) && !v.Integer? then Some(InvalidRequest)
    else if t.graphDepth(k) && !(0 <= v.number <= p.maxGraphDepth) then Some(GraphDepthExceeded)
    else if t.path(k) && !PathValuesSafe(t, v) then Some(PathScopeViolation)
    else None
  }

  /** What a value is refused for whatever its key. */
  function ValueObjection(v: Value): Option<Reason> {
    match v
    case Str(text) => if |text| > MAX_STRING then Some(ParameterBudgetExceeded) else None
    case Float(finite) => if finite then None else Some(InvalidRequest)
    case Unsupported => Some(InvalidRequest)
    case _ => None
  }

  /** What the inner function `walk` objects to at one node. */
  function WalkVisit(t: Tables, p: Policy, n: Node, count: nat): Option<Reason> {
    if n.key.Some? && !WalkKeyOk(n.key.value) then Some(InvalidRequest)
    else if count > MAX_NODES || n.depth > MAX_DEPTH then Some(ParameterBudgetExceeded)
    else if n.key.Some? && KeyObjection(t, p, n.key.value.text, n.value).Some? then
      KeyObjection(t, p, n.key.value.text, n.value)
    else ValueObjection(n.value)
  }

  function Walker(t: Tables, p: Policy): (Node, nat) -> Option<Reason> {
    (n: Node, count: nat) => WalkVisit(t, p, n, count)
  }

  function RepositoriesIn(t: Tables, nodes: seq<Node>): set<string> {
    set i | 0 <= i < |nodes| && NamesRepository(t, nodes[i]) && nodes[i].value.Str? :: Strip(nodes[i].value.text)
  }

  lemma {:induction false} RepositoriesAppend(t: Tables, a: seq<Node>, b: seq<Node>)
    ensures RepositoriesIn(t, a + b) == RepositoriesIn(t, a) + RepositoriesIn(t, b)
  {
    forall r | r in RepositoriesIn(t, a) ensures r in RepositoriesIn(t, a + b) {
      var i :| 0 <= i < |a| && NamesRepository(t, a[i]) && a[i].value.Str? && r == Strip(a[i].value.text);
      assert (a + b)[i] == a[i];
    }
    forall r | r in RepositoriesIn(t, b) ensures r in RepositoriesIn(t, a + b) {
      var i :| 0 <= i < |b| && NamesRepository(t, b[i]) && b[i].value.Str? && r == Strip(b[i].value.text);
      assert (a + b)[|a| + i] == b[i];
    }
  }

  /** The nodes under a value. */
  function Below(v: Value, depth: nat): seq<Node> {
    match v
    case Mapping(entries) => NodesOfEntries(entries, depth + 1)
    case Items(items) => NodesOfItems(items, depth + 1)
    case _ => []
  }

  function NamedBy(t: Tables, n: Node): set<string> {
    if NamesRepository(t, n) && n.value.Str? then {Strip(n.value.text)} else {}
  }

  /** A walk looks at the node itself, then at the nodes under it. */
  lemma {:induction false} NodeThenBelow(t: Tables, p: Policy, v: Value, key: Option<Key>, depth: nat, count: nat)
    ensures var n, nodes := Node(key, depth, v), NodesOf(v, key, depth);
      && |nodes| == 1 + |Below(v, depth)|
      && RepositoriesIn(t, nodes) == NamedBy(t, n) + RepositoriesIn(t, Below(v, depth))
      && FirstObjection(Walker(t, p), nodes, count)
         == (if WalkVisit(t, p, n, count + 1).Some? then WalkVisit(t, p, n, count + 1)
             else FirstObjection(Walker(t, p), Below(v, depth), count + 1))
  {
    var n, nodes := Node(key, depth, v), NodesOf(v, key, depth);
    assert nodes == [n] + Below(v, depth) && nodes[1..] == Below(v, depth);
    RepositoriesAppend(t, [n], Below(v, depth));
    assert RepositoriesIn(t, [n]) == NamedBy(t, n) by {
      assert [n][0] == n;
    }
  }

  class ParameterWalk {
    const t: Tables
    const p: Policy
    var nodes: nat
    var repositories: set<string>

    constructor (t: Tables, p: Policy)
      ensures nodes == 0 && repositories == {} && this.t == t && this.p == p
    {
      this.t := t;
      this.p := p;
      nodes := 0;
      repositories := {};
    }

    /** The inner function `walk`. The caller has checked that the key is text. */
    method Walk(v: Value, key: Option<Key>, depth: nat) returns (reason: Option<Reason>)
      requires key.Some? ==> WalkKeyOk(key.value)
      modifies this
      ensures reason == FirstObjection(Walker(t, p), NodesOf(v, key, depth), old(nodes))
      ensures reason.None? ==> nodes == old(nodes) + |NodesOf(v, key, depth)|
      ensures reason.None? ==> repositories == old(repositories) + RepositoriesIn(t, NodesOf(v, key, depth))
      decreases v, 1
    {
      NodeThenBelow(t, p, v, key, depth, nodes);
      nodes := nodes + 1;
      if nodes > MAX_NODES || depth > MAX_DEPTH { return Some(ParameterBudgetExceeded); }
      if key.Some? {
        reason := CheckKey(key.value.text, v);
        if reason.Some? { return; }
      }
      reason := WalkValue(v, depth);
    }

    /** The rest of `walk`: the value itself and what is under it. */
    method WalkValue(v: Value, depth: nat) returns (reason: Option<Reason>)
      modifies this
      ensures reason == if ValueObjection(v).Some? then ValueObjection(v)
                        else FirstObjection(Walker(t, p), Below(v, depth), old(nodes))
      ensures reason.None? ==> nodes == old(nodes) + |Below(v, depth)|
      ensures reason.None? ==> repositories == old(repositories) + RepositoriesIn(t, Below(v, depth))
      decreases v, 0
    {
      match v
      case Mapping(entries) => reason := WalkEntries(entries, depth + 1);
      case Items(items) => reason := WalkItems(items, depth + 1);
      case _ => reason := ValueObjection(v);
    }

    /** The key checks of `walk`, which also collect repositories. */
    method CheckKey(key: string, v: Value) returns (reason: Option<Reason>)
      modifies this`repositories
      ensures reason == KeyObjection(t, p, key, v)
      ensures reason.None? && t.repository(t.normalize(key)) ==> repositories == old(repositories) + {Strip(v.text)}
      ensures reason.None? && !t.repository(t.normalize(key)) ==> repositories == old(repositories)
    {
      var k := t.normalize(key);
      if t.privileged(k) { return Some(PrivilegedParameter); }
      if t.repository(k) {
        if !v.Str? || Strip(v.text) == "" { return Some(InvalidRequest); }
        var repository := Strip(v.text);
        if repository !in p.activeRepositories { return Some(RepositoryScopeViolation); }
        repositories := repositories + {repository};
      }
      if t.graphDepth(k) {
        if !v.Integer? { return Some(InvalidRequest); }
        if v.number < 0 || v.number > p.maxGraphDepth { return Some(GraphDepthExceeded); }
      }
      if t.path(k) {
        if !PathValuesSafe(t, v) { return Some(PathScopeViolation); }
      }
      return None;
    }

    method WalkEntries(entries: seq<Entry>, depth: nat) returns (reason: Option<Reason>)
      modifies this
      ensures reason == FirstObjection(Walker(t, p), NodesOfEntries(entries, depth), old(nodes))
      ensures reason.None? ==> nodes == old(nodes) + |NodesOfEntries(entries, depth)|
      ensures reason.None? ==> repositories == old(repositories) + RepositoriesIn(t, NodesOfEntries(entries, depth))
      decreases entries, 0
    {
      if entries == [] { return None; }
      ghost var head := NodesOf(entries[0].value, Some(entries[0].key), depth);
      FirstObjectionAppend(Walker(t, p), head, NodesOfEntries(entries[1..], depth), nodes);
      RepositoriesAppend(t, head, NodesOfEntries(entries[1..], depth));
      if !WalkKeyOk(entries[0].key) { return Some(InvalidRequest); }
      assert entries[0].value < entries[0];
      reason := Walk(entries[0].value, Some(entries[0].key), depth);
      if reason.None? { reason := WalkEntries(entries[1..], depth); }
    }

    method WalkItems(items: seq<Value>, depth: nat) returns (reason: Option<Reason>)
      modifies this
      ensures reason == FirstObjection(Walker(t, p), NodesOfItems(items, depth), old(nodes))
      ensures reason.None? ==> nodes == old(nodes) + |NodesOfItems(items, depth)|
      ensures reason.None? ==> repositories == old(repositories) + RepositoriesIn(t, NodesOfItems(items, depth))
      decreases items, 0
    {
      if items == [] { return None; }
      ghost var head := NodesOf(items[0], None, depth);
      FirstObjectionAppend(Walker(t, p), head, NodesOfItems(items[1..], depth), nodes);
      RepositoriesAppend(t, head, NodesOfItems(items[1..], depth));
      reason := Walk(items[0], None, depth);
      if reason.None? { reason := WalkItems(items[1..], depth); }
    }
  }

  // ------------------------------------------------- the traversals together

  ghost predicate NodeWellFormed(n: Node) {
    && (n.key.Some? ==> DigestKeyOk(n.key.value))
    && n.depth <= MAX_DEPTH
    && !n.value.Unsupported?
    && (n.value.Float? ==> n.value.finite)
    && (n.value.Str? ==> |n.value.text| <= MAX_STRING)
    && (n.value.Mapping? ==> |n.value.entries| <= MAX_NODES)
    && (n.value.Items? ==> |n.value.items| <= MAX_NODES)
  }

  /** The tree is within the structural bounds, node by node. */
  ghost predicate WellFormed(nodes: seq<Node>) {
    && |nodes| <= MAX_NODES
    && forall i :: 0 <= i < |nodes| ==> NodeWellFormed(nodes[i])
  }

  /** No node is refused for its own key. */
  ghost predicate Permitted(t: Tables, p: Policy, nodes: seq<Node>) {
    forall i :: 0 <= i < |nodes| && nodes[i].key.Some? && nodes[i].key.value.TextKey?
      ==> KeyObjection(t, p, nodes[i].key.value.text, nodes[i].value).None?
  }

  /** The digest traversal succeeds exactly on well-formed trees. */
  lemma {:induction false} DigestSucceedsExactly(nodes: seq<Node>)
    ensures FirstObjection(DigestVisit, nodes, 0).None? <==> WellFormed(nodes)
  {
    NoObjectionExactly(DigestVisit, nodes, 0);
    if FirstObjection(DigestVisit, nodes, 0).None? {
      forall i | 0 <= i < |nodes| ensures NodeWellFormed(nodes[i]) && i < MAX_NODES {
        assert DigestVisit(nodes[i], 0 + i + 1).None?;
      }
      assert nodes != [] ==> NodeWellFormed(nodes[|nodes| - 1]);
    }
  }

  lemma {:induction false} NeverOverBudget(t: Tables, p: Policy, nodes: seq<Node>, count: nat)
    requires count + |nodes| <= MAX_NODES && forall i :: 0 <= i < |nodes| ==> NodeWellFormed(nodes[i])
    ensures FirstObjection(Walker(t, p), nodes, count) != Some(ParameterBudgetExceeded)
  {
    if nodes != [] {
      assert NodeWellFormed(nodes[0]);
      NeverOverBudget(t, p, nodes[1..], count + 1);
    }
  }

  /** On a tree that the digest traversal accepts, the validating traversal objects
      exactly when some key forbids its value, and then with that key's reason:
      the two node counters and depth limits agree. */
  lemma {:induction false} WalkAfterDigest(t: Tables, p: Policy, nodes: seq<Node>)
    requires FirstObjection(DigestVisit, nodes, 0).None?
    ensures FirstObjection(Walker(t, p), nodes, 0).None? <==> Permitted(t, p, nodes)
    ensures FirstObjection(Walker(t, p), nodes, 0) != Some(ParameterBudgetExceeded)
  {
    DigestSucceedsExactly(nodes);
    NoObjectionExactly(Walker(t, p), nodes, 0);
    assert forall i :: 0 <= i < |nodes| ==> NodeWellFormed(nodes[i]);
    NeverOverBudget(t, p, nodes, 0);
  }

  // ------------------------------------------------------------ the decision

  datatype Decision = Decision(allowed: bool, reason: Reason)

  predicate Blank(value: Option<string>) { value.None? || Strip(value.value) == "" }

  // What the gate promises, in terms of the request's own fields.

  /** The parameters hold at most 256 nodes, at most six levels deep, under short keys,
      with finite numbers and bounded texts. */
  ghost predicate Bounded(n: Node) {
    && n.depth <= 6
    && (n.key.Some? ==> n.key.value.TextKey? && 0 < |n.key.value.text| <= 128)
    && !n.value.Unsupported? && n.value != Float(false) && (n.value.Str? ==> |n.value.text| <= 4096)
    && (n.value.Mapping? ==> |n.value.entries| <= 256) && (n.value.Items? ==> |n.value.items| <= 256)
  }

  /** A key in one of the tables holds what that table demands. */
  ghost predicate KeyHonoured(t: Tables, p: Policy, k: string, v: Value) {
    && !t.privileged(k)
    && (t.repository(k) ==> v.Str? && Strip(v.text) != "" && Strip(v.text) in p.activeRepositories)
    && (t.graphDepth(k) ==> v.Integer? && 0 <= v.number <= p.maxGraphDepth)
    && (t.path(k) ==>
          || (v.Str? && t.safePath(v.text))
          || (v.Items? && v.items != [] && forall w :: w in v.items ==> w.Str? && t.safePath(w.text)))
  }

  /** No optional field is set, or only to blanks. */
  predicate Unset(field: Option<string>) { field.Some? ==> Strip(field.value) == "" }

  /** A request that may run: a listed tool, nothing privileged, every repository it
      names active, and one named if several are. */
  ghost predicate MayRun(t: Tables, p: Policy, r: Request, nodes: seq<Node>, evidence: set<string>) {
    && |nodes| <= 256 && (forall n :: n in nodes ==> Bounded(n)) && t.encodable(r)
    && (forall n :: n in nodes && n.key.Some? && n.key.value.TextKey? ==>
          KeyHonoured(t, p, t.normalize(n.key.value.text), n.value))
    && (forall id :: id in r.citedEvidence ==> id in evidence)
    && r.capability == ToolExecution
    && r.toolName.Some? && Strip(r.toolName.value) != "" && Strip(r.toolName.value) in p.allowedTools
    && Unset(r.providerId) && Unset(r.networkHost) && Unset(r.secretName) && Unset(r.requestedLane)
    && (r.repositoryId.Some? ==>
          Strip(r.repositoryId.value) != "" && Strip(r.repositoryId.value) in p.activeRepositories)
    && (|p.activeRepositories| > 1 && r.repositoryId.None? ==>
          exists n :: n in nodes && n.key.Some? && n.key.value.TextKey?
                      && t.repository(t.normalize(n.key.value.text)) && n.value.Str?)
  }

  lemma {:induction false} BoundedNode(n: Node)
    ensures NodeWellFormed(n) <==> Bounded(n)
  {
    match n.value
    case Float(finite) => assert n.value == Float(false) <==> !finite;
    case _ =>
  }

  lemma {:induction false} BoundedExactly(nodes: seq<Node>)
    ensures WellFormed(nodes) <==> |nodes| <= 256 && forall n :: n in nodes ==> Bounded(n)
  {
    if WellFormed(nodes) {
      forall n | n in nodes ensures Bounded(n) {
        var i :| 0 <= i < |nodes| && nodes[i] == n;
        BoundedNode(nodes[i]);
      }
    } else if |nodes| <= 256 {
      var i :| 0 <= i < |nodes| && !NodeWellFormed(nodes[i]);
      BoundedNode(nodes[i]);
      assert nodes[i] in nodes;
    }
  }

  lemma {:induction false} HonouredExactly(t: Tables, p: Policy, key: string, v: Value)
    ensures KeyObjection(t, p, key, v).None? <==> KeyHonoured(t, p, t.normalize(key), v)
  {
    if v.Items? && (forall w :: w in v.items ==> w.Str? && t.safePath(w.text)) {
      assert forall i :: 0 <= i < |v.items| ==> v.items[i] in v.items;
    }
  }

  /** The reason names the first table whose demand the value does not meet. */
  lemma {:induction false} ReasonForKey(t: Tables, p: Policy, key: string, v: Value)
    ensures var k, reason := t.normalize(key), KeyObjection(t, p, key, v);
      var named := v.Str? && Strip(v.text) != "";
      var inScope := t.repository(k) ==> named && Strip(v.text) in p.activeRepositories;
      && (t.privileged(k) <==> reason == Some(PrivilegedParameter))
      && (t.privileged(k) || (reason == Some(RepositoryScopeViolation) <==>
            t.repository(k) && named && Strip(v.text) !in p.activeRepositories))
      && (t.privileged(k) || (reason == Some(GraphDepthExceeded) <==>
            inScope && t.graphDepth(k) && v.Integer? && (v.number < 0 || v.number > p.maxGraphDepth)))
      && (t.privileged(k) || (reason == Some(InvalidRequest) <==>
            (t.repository(k) && !named) || (inScope && t.graphDepth(k) && !v.Integer?)))
      && (reason == Some(PathScopeViolation) ==>
            && inScope && t.path(k) && !KeyHonoured(t, p, k, v)
            && (t.graphDepth(k) ==> v.Integer? && 0 <= v.number <= p.maxGraphDepth))
  {
    HonouredExactly(t, p, key, v);
  }

  lemma {:induction false} PermittedExactly(t: Tables, p: Policy, nodes: seq<Node>)
    ensures Permitted(t, p, nodes) <==>
      forall n :: n in nodes && n.key.Some? && n.key.value.TextKey? ==>
        KeyHonoured(t, p, t.normalize(n.key.value.text), n.value)
  {
    forall i | 0 <= i < |nodes| && nodes[i].key.Some? && nodes[i].key.value.TextKey?
      ensures KeyObjection(t, p, nodes[i].key.value.text, nodes[i].value).None?
         <==> KeyHonoured(t, p, t.normalize(nodes[i].key.value.text), nodes[i].value)
    {
      HonouredExactly(t, p, nodes[i].key.value.text, nodes[i].value);
    }
    if Permitted(t, p, nodes) {
      forall n | n in nodes && n.key.Some? && n.key.value.TextKey?
        ensures KeyHonoured(t, p, t.normalize(n.key.value.text), n.value)
      {
        var i :| 0 <= i < |nodes| && nodes[i] == n;
      }
    }
  }

  /** The declarative meaning of an allowed request. */
  ghost predicate Allowed(t: Tables, p: Policy, r: Request, evidence: set<string>) {
    var nodes := NodesOf(Mapping(r.parameters), None, 0);
    && WellFormed(nodes) && t.encodable(r) && Permitted(t, p, nodes)
    && (forall id :: id in r.citedEvidence ==> id in evidence)
    && r.capability.ToolExecution?
    && !Blank(r.toolName) && Strip(r.toolName.value) in p.allowedTools
    && Blank(r.providerId) && Blank(r.networkHost) && Blank(r.secretName) && Blank(r.requestedLane)
    && (r.repositoryId.Some? ==> !Blank(r.repositoryId) && Strip(r.repositoryId.value) in p.activeRepositories)
    && (|p.activeRepositories| > 1 ==>
          r.repositoryId.Some? || exists i :: 0 <= i < |nodes| && NamesRepository(t, nodes[i]))
  }

  /** Nothing but that: the requests that may run, read off the fields. */
  lemma {:induction false} AllowedExactly(t: Tables, p: Policy, r: Request, evidence: set<string>)
    ensures Allowed(t, p, r, evidence) <==> MayRun(t, p, r, NodesOf(Mapping(r.parameters), None, 0), evidence)
  {
    var nodes := NodesOf(Mapping(r.parameters), None, 0);
    BoundedExactly(nodes);
    PermittedExactly(t, p, nodes);
    if i :| 0 <= i < |nodes| && NamesRepository(t, nodes[i]) {
      assert nodes[i] in nodes;
      if Permitted(t, p, nodes) { assert KeyObjection(t, p, nodes[i].key.value.text, nodes[i].value).None?; }
    }
    if n :| n in nodes && n.key.Some? && n.key.value.TextKey? && t.repository(t.normalize(n.key.value.text)) {
      var i :| 0 <= i < |nodes| && nodes[i] == n;
      assert NamesRepository(t, nodes[i]);
    }
  }

  function DenialFor(c: Capability): Reason {
    match c
    case RepositoryActivation => OperatorOwned
    case NetworkAccess => TrustedRuntimeGrantRequired
    case SecretAccess => TrustedRuntimeGrantRequired
    case SkipVerification => VerificationRequired
    case _ => ControlPlaneOwned
  }

  lemma {:induction false} ObjectionIsADenial(t: Tables, p: Policy, nodes: seq<Node>, count: nat)
    ensures FirstObjection(Walker(t, p), nodes, count) != Some(PreauthorizedScopedTool)
  {
    if nodes != [] { ObjectionIsADenial(t, p, nodes[1..], count + 1); }
  }

  lemma {:induction false} ReferencesExactly(t: Tables, p: Policy, nodes: seq<Node>)
    requires Permitted(t, p, nodes)
    ensures RepositoriesIn(t, nodes) != {} <==> exists i :: 0 <= i < |nodes| && NamesRepository(t, nodes[i])
  {
    if i :| 0 <= i < |nodes| && NamesRepository(t, nodes[i]) {
      assert KeyObjection(t, p, nodes[i].key.value.text, nodes[i].value).None?;
      assert Strip(nodes[i].value.text) in RepositoriesIn(t, nodes);
    }
  }

  /** The tool branch of `authorize_model_action`. */
  method AuthorizeTool(t: Tables, p: Policy, r: Request, ghost nodes: seq<Node>) returns (d: Decision)
    requires nodes == NodesOf(Mapping(r.parameters), None, 0) && FirstObjection(DigestVisit, nodes, 0).None?
    ensures d.allowed <==>
      && Permitted(t, p, nodes)
      && !Blank(r.toolName) && Strip(r.toolName.value) in p.allowedTools
      && Blank(r.providerId) && Blank(r.networkHost) && Blank(r.secretName) && Blank(r.requestedLane)
      && (r.repositoryId.Some? ==> !Blank(r.repositoryId) && Strip(r.repositoryId.value) in p.activeRepositories)
      && (|p.activeRepositories| > 1 ==>
            r.repositoryId.Some? || exists i :: 0 <= i < |nodes| && NamesRepository(t, nodes[i]))
    ensures d.allowed <==> d.reason == PreauthorizedScopedTool
    ensures d.reason != ParameterBudgetExceeded
    ensures if Unset(r.toolName) then d.reason == InvalidRequest
            else if Strip(r.toolName.value) !in p.allowedTools then d.reason == ToolNotAllowlisted
            else if !(Unset(r.providerId) && Unset(r.networkHost) && Unset(r.secretName) && Unset(r.requestedLane)) then
              d.reason == PrivilegedParameter
            else if && r.repositoryId.Some?
                    && (Unset(r.repositoryId) || Strip(r.repositoryId.value) !in p.activeRepositories) then
              d.reason == RepositoryScopeViolation
            else d.allowed || (Permitted(t, p, nodes) ==> d.reason == RepositoryScopeRequired)
  {
    if Blank(r.toolName) { return Decision(false, InvalidRequest); }
    if Strip(r.toolName.value) !in p.allowedTools { return Decision(false, ToolNotAllowlisted); }
    if !(Blank(r.providerId) && Blank(r.networkHost) && Blank(r.secretName) && Blank(r.requestedLane)) {
      return Decision(false, PrivilegedParameter);
    }
    var references: set<string> := {};
    if r.repositoryId.Some? {
      var repository := Strip(r.repositoryId.value);
      if repository == "" || repository !in p.activeRepositories { return Decision(false, RepositoryScopeViolation); }
      references := {repository};
    }
    WalkAfterDigest(t, p, nodes);
    var walk := new ParameterWalk(t, p);
    var reason := walk.Walk(Mapping(r.parameters), None, 0);
    if reason.Some? {
      ObjectionIsADenial(t, p, nodes, 0);
      return Decision(false, reason.value);
    }
    references := references + walk.repositories;
    ReferencesExactly(t, p, nodes);
    if |p.activeRepositories| > 1 && references == {} { return Decision(false, RepositoryScopeRequired); }
    return Decision(true, PreauthorizedScopedTool);
  }

  /** `authorize_model_action`: allowed exactly when the declarative predicate
      holds, and over budget only when the digest traversal says so. */
  method Authorize(t: Tables, p: Policy, r: Request, evidence: set<string>) returns (d: Decision)
    ensures d.allowed <==> Allowed(t, p, r, evidence)
    ensures d.allowed <==> MayRun(t, p, r, NodesOf(Mapping(r.parameters), None, 0), evidence)
    ensures var nodes := NodesOf(Mapping(r.parameters), None, 0);
      |nodes| <= 256 && (forall n :: n in nodes ==> Bounded(n)) && t.encodable(r) ==>
        if exists id :: id in r.citedEvidence && id !in evidence then d.reason == UnknownEvidence
        else if r.capability == NetworkAccess || r.capability == SecretAccess then
          d.reason == TrustedRuntimeGrantRequired
        else if r.capability == RepositoryActivation then d.reason == OperatorOwned
        else if r.capability == SkipVerification then d.reason == VerificationRequired
        else r.capability != ToolExecution ==> d.reason == ControlPlaneOwned
    ensures d.allowed <==> d.reason == PreauthorizedScopedTool
    ensures d.reason == ParameterBudgetExceeded <==>
      FirstObjection(DigestVisit, NodesOf(Mapping(r.parameters), None, 0), 0) == Some(OverBudget)
    ensures WellFormed(NodesOf(Mapping(r.parameters), None, 0)) && !t.encodable(r) ==> d.reason == InvalidRequest
  {
    ghost var nodes := NodesOf(Mapping(r.parameters), None, 0);
    DigestSucceedsExactly(nodes);
    BoundedExactly(nodes);
    AllowedExactly(t, p, r, evidence);
    var digest := new DigestTraversal();
    var error := digest.Canonical(Mapping(r.parameters), None, 0);
    if error.Some? {
      return Decision(false, if error.value.OverBudget? then ParameterBudgetExceeded else InvalidRequest);
    }
    if !t.encodable(r) {
      return Decision(false, InvalidRequest);
    }
    if exists id :: id in r.citedEvidence && id !in evidence {
      return Decision(false, UnknownEvidence);
    }
    if !r.capability.ToolExecution? {
      return Decision(false, DenialFor(r.capability));
    }
    d := AuthorizeTool(t, p, r, nodes);
  }
}
