/** The staged canary rollout: approval, promotion under a guardrail report,
    rollback, and the signed state that records them. */
module Rollout {
  import opened Wrappers
  import opened Text

  const BASELINE_ARM := "adaptive_math"
  const BOUNDED_LIMIT: real := 0.25
  const CANARY_LIMIT: real := 0.10
  const TRAFFIC_TOLERANCE: real := 0.000000000001

  type Key = string

  datatype Stage = Shadow | Approved | Canary1 | Canary5 | Canary10 | Bounded | RolledBack | Unknown(name: string)

  predicate IsLive(s: Stage) { s.Canary1? || s.Canary5? || s.Canary10? || s.Bounded? }

  predicate IsDeploymentStage(s: Stage) { s.Approved? || IsLive(s) || s.RolledBack? }

  /** NEXT_STAGE. */
  function NextStage(s: Stage): Option<Stage> {
    match s
    case Approved => Some(Canary1)
    case Canary1 => Some(Canary5)
    case Canary5 => Some(Canary10)
    case Canary10 => Some(Bounded)
    case _ => None
  }

  /** `_traffic_for_stage`. */
  function TrafficFor(bounded: real, s: Stage): real {
    match s
    case Bounded => bounded
    case Canary1 => 0.01
    case Canary5 => 0.05
    case Canary10 => 0.10
    case _ => 0.0
  }

  /** `valid` and `signedBy` stand for the manifest's own verification. */
  datatype Manifest = Manifest(policyId: string, evidenceCutoff: string, signedBy: Key, valid: bool)

  predicate ManifestVerifies(m: Manifest, key: Key) { key != "" && m.signedBy == key && m.valid }

  datatype ShadowReport = ShadowReport(policyId: string, evidenceCutoff: string, eligible: bool,
                                       manifestValid: bool, receivedTraffic: bool)

  datatype GuardrailReport = GuardrailReport(policyId: string, stateGeneration: int, stage: Stage, safeToAdvance: bool)

  /** A SHA-256 of canonical JSON, taken as injective, is the document itself. */
  datatype Evidence = ShadowEvidence(shadow: ShadowReport) | GuardrailEvidence(report: GuardrailReport)

  datatype HistoryEntry = HistoryEntry(generation: int, from: Stage, to: Stage, actor: string, at: int,
                                       evidence: Option<Evidence>, reason: string)

  datatype Rollback = Rollback(targetArm: string, automatic: bool, reason: Option<string>, at: Option<int>)

  datatype Guardrails = Guardrails(rewardMin: real, rewardMax: real, maxImportanceWeight: real,
                                   maxFailureRate: real, maxContextTvDistance: real, maxUnknownContextRate: real,
                                   minimumMonitorClusters: int, bootstrapResamples: int,
                                   maxCumulativeCost: Option<real>)

  datatype Payload = Payload(currentSchema: bool, policyId: string, stage: Stage, traffic: real, bounded: real,
                             generation: int, updatedAt: int, approvedBy: string, automaticActivation: bool,
                             manifest: Manifest, guardrails: Guardrails, rollback: Rollback,
                             history: seq<HistoryEntry>)

  /** HMAC-SHA-256 and the key fingerprint, taken as injective. */
  datatype Mac = Mac(key: Key, payload: Payload) | NotAMac

  datatype Signature = NoSignature | Signature(hmacSha256: bool, keyId: Key, value: Mac)

  datatype State = State(payload: Payload, signature: Signature)

  function Sign(payload: Payload, key: Key): State {
    State(payload, Signature(true, key, Mac(key, payload)))
  }

  // ------------------------------------------------------------ verification

  datatype Fault =
    | SigningKeyMissing | SignatureMissing | SignatureAlgorithmMismatch | KeyIdMismatch | SignatureMismatch
    | SchemaVersionMismatch | InvalidStage | InvalidGeneration | ManifestVerificationFailed | PolicyIdMismatch
    | InvalidBoundedTraffic | TrafficMismatch | AutomaticActivationForbidden | RollbackTargetMismatch

  function Distance(a: real, b: real): real { if a >= b then a - b else b - a }

  /** When each fault is present in a state. */
  predicate Has(s: State, key: Key, f: Fault) {
    match f
    case SigningKeyMissing => key == ""
    case SignatureMissing => key != "" && s.signature.NoSignature?
    case SignatureAlgorithmMismatch => key != "" && s.signature.Signature? && !s.signature.hmacSha256
    case KeyIdMismatch => key != "" && s.signature.Signature? && s.signature.keyId != key
    case SignatureMismatch => key != "" && s.signature.Signature? && s.signature.value != Mac(key, s.payload)
    case SchemaVersionMismatch => !s.payload.currentSchema
    case InvalidStage => !IsDeploymentStage(s.payload.stage)
    case InvalidGeneration => s.payload.generation < 1
    case ManifestVerificationFailed => !ManifestVerifies(s.payload.manifest, key)
    case PolicyIdMismatch => s.payload.policyId != s.payload.manifest.policyId
    case InvalidBoundedTraffic => !(CANARY_LIMIT < s.payload.bounded <= BOUNDED_LIMIT)
    case TrafficMismatch =>
      || !IsDeploymentStage(s.payload.stage)
      || Distance(s.payload.traffic, TrafficFor(s.payload.bounded, s.payload.stage)) > TRAFFIC_TOLERANCE
    case AutomaticActivationForbidden => s.payload.automaticActivation
    case RollbackTargetMismatch => s.payload.rollback.targetArm != BASELINE_ARM
  }

  ghost predicate Valid(s: State, key: Key) { forall f: Fault :: !Has(s, key, f) }

  predicate IsSignatureFault(f: Fault) {
    || f.SigningKeyMissing? || f.SignatureMissing? || f.SignatureAlgorithmMismatch? || f.KeyIdMismatch?
    || f.SignatureMismatch?
  }

  predicate IsEarly(f: Fault) {
    IsSignatureFault(f) || f.SchemaVersionMismatch? || f.InvalidStage? || f.InvalidGeneration?
    || f.ManifestVerificationFailed?
  }

  /** `_verify_signature`. */
  method VerifySignature(s: State, key: Key) returns (errors: seq<Fault>)
    ensures forall f :: f in errors <==> Has(s, key, f) && IsSignatureFault(f)
  {
    errors := [];
    if key == "" { return [SigningKeyMissing]; }
    if s.signature.NoSignature? { return [SignatureMissing]; }
    if !s.signature.hmacSha256 { errors := errors + [SignatureAlgorithmMismatch]; }
    if s.signature.keyId != key { errors := errors + [KeyIdMismatch]; }
    if s.signature.value != Mac(key, s.payload) { errors := errors + [SignatureMismatch]; }
  }

  /** `if present: errors.append(f)`. */
  function Append(errors: seq<Fault>, present: bool, f: Fault): (r: seq<Fault>)
    ensures forall g :: g in r <==> g in errors || (present && g == f)
  {
    if present then errors + [f] else errors
  }

  /** The signature, schema, stage, generation and manifest checks. */
  method VerifyHeader(s: State, key: Key) returns (errors: seq<Fault>)
    ensures forall f :: f in errors <==> Has(s, key, f) && IsEarly(f)
  {
    errors := VerifySignature(s, key);
    errors := Append(errors, !s.payload.currentSchema, SchemaVersionMismatch);
    errors := Append(errors, !IsDeploymentStage(s.payload.stage), InvalidStage);
    errors := Append(errors, s.payload.generation < 1, InvalidGeneration);
    errors := Append(errors, !ManifestVerifies(s.payload.manifest, key), ManifestVerificationFailed);
  }

  /** `verify_deployment_state`: the list names exactly the faults present. */
  method VerifyDeploymentState(s: State, key: Key) returns (errors: seq<Fault>)
    ensures forall f :: f in errors <==> Has(s, key, f)
    ensures errors == [] <==> Valid(s, key)
  {
    errors := VerifyHeader(s, key);
    errors := Append(errors, s.payload.policyId != s.payload.manifest.policyId, PolicyIdMismatch);
    errors := Append(errors, !(CANARY_LIMIT < s.payload.bounded <= BOUNDED_LIMIT), InvalidBoundedTraffic);
    errors := Append(errors, !IsDeploymentStage(s.payload.stage)
                     || Distance(s.payload.traffic, TrafficFor(s.payload.bounded, s.payload.stage)) > TRAFFIC_TOLERANCE,
                     TrafficMismatch);
    errors := Append(errors, s.payload.automaticActivation, AutomaticActivationForbidden);
    errors := Append(errors, s.payload.rollback.targetArm != BASELINE_ARM, RollbackTargetMismatch);
    if errors != [] { assert errors[0] in errors; }
  }

  // ---------------------------------------------------------------- creation

  datatype Refusal =
    | ManifestInvalid | ShadowNotEligible | ApproverBlank | BadBoundedFraction | BadGuardrails
    | StateInvalid | ActorBlank | AlreadyRolledBack | InvalidTransition
    | ReportRequired | ReportPolicyMismatch | ReportGenerationMismatch | ReportStageMismatch

  predicate ShadowEligible(m: Manifest, r: ShadowReport) {
    && r.policyId == m.policyId && r.evidenceCutoff == m.evidenceCutoff
    && r.eligible && r.manifestValid && !r.receivedTraffic
  }

  predicate GuardrailsOk(g: Guardrails) {
    && g.rewardMax > g.rewardMin && g.maxImportanceWeight >= 100.0
    && 0.0 <= g.maxFailureRate <= 1.0 && 0.0 <= g.maxContextTvDistance <= 1.0 && 0.0 <= g.maxUnknownContextRate <= 1.0
    && g.minimumMonitorClusters >= 2 && g.bootstrapResamples >= 100
    && (g.maxCumulativeCost.Some? ==> g.maxCumulativeCost.value >= 0.0)
  }

  /** `create_deployment_state`. The manifest's policy id carries no outer blanks,
      being the digest its own verification recomputes. */
  function Create(m: Manifest, shadow: ShadowReport, key: Key, approvedBy: string, bounded: real,
                  g: Guardrails, now: int): Result<State, Refusal>
  {
    if !ManifestVerifies(m, key) then Err(ManifestInvalid)
    else if !ShadowEligible(m, shadow) then Err(ShadowNotEligible)
    else if Strip(approvedBy) == "" then Err(ApproverBlank)
    else if !(CANARY_LIMIT < bounded <= BOUNDED_LIMIT) then Err(BadBoundedFraction)
    else if !GuardrailsOk(g) then Err(BadGuardrails)
    else
      var entry := HistoryEntry(1, Shadow, Approved, Strip(approvedBy), now, Some(ShadowEvidence(shadow)),
                                "manual approval after signed shadow evidence");
      Ok(Sign(Payload(true, m.policyId, Approved, 0.0, bounded, 1, now, Strip(approvedBy), false, m, g,
                      Rollback(BASELINE_ARM, true, None, None), [entry]), key))
  }

  // -------------------------------------------------------------- transition

  /** One call's arguments. */
  datatype Request = Request(target: Stage, actor: string, report: Option<GuardrailReport>,
                             reason: Option<string>, now: int)

  /** Why a promotion out of `s` is refused, if it is. */
  function PromotionRefusal(p: Payload, r: Request): Option<Refusal> {
    if NextStage(p.stage) != Some(r.target) then Some(InvalidTransition)
    else if !IsLive(p.stage) then None
    else if r.report.None? || !r.report.value.safeToAdvance then Some(ReportRequired)
    else if r.report.value.policyId != p.policyId then Some(ReportPolicyMismatch)
    else if r.report.value.stateGeneration != p.generation then Some(ReportGenerationMismatch)
    else if r.report.value.stage != p.stage then Some(ReportStageMismatch)
    else None
  }

  function ReasonOr(reason: Option<string>, default: string): string {
    if reason.Some? && Strip(reason.value) != "" then Strip(reason.value) else default
  }

  function EntryFor(p: Payload, r: Request): HistoryEntry {
    HistoryEntry(p.generation + 1, p.stage, r.target, Strip(r.actor), r.now,
                 if r.report.Some? then Some(GuardrailEvidence(r.report.value)) else None,
                 ReasonOr(r.reason, if r.target.RolledBack? then "manual or automatic rollback"
                                    else "manual staged promotion"))
  }

  function Advanced(p: Payload, r: Request): Payload {
    p.(stage := r.target, traffic := TrafficFor(p.bounded, r.target), generation := p.generation + 1,
       updatedAt := r.now, history := p.history + [EntryFor(p, r)],
       rollback := if !r.target.RolledBack? then p.rollback
                   else p.rollback.(reason := Some(ReasonOr(r.reason, "deployment guardrail rollback")),
                                    at := Some(r.now), automatic := "runtime:" <= Strip(r.actor)))
  }

  ghost function Transition(s: State, key: Key, r: Request): Result<State, Refusal> {
    if !Valid(s, key) then Err(StateInvalid)
    else if Strip(r.actor) == "" then Err(ActorBlank)
    else if r.target.RolledBack? && s.payload.stage.RolledBack? then Err(AlreadyRolledBack)
    else if !r.target.RolledBack? && PromotionRefusal(s.payload, r).Some? then Err(PromotionRefusal(s.payload, r).value)
    else Ok(Sign(Advanced(s.payload, r), key))
  }

  /** `transition_deployment_state`: the copy of the state is updated field by
      field and signed again. */
  method TransitionDeploymentState(s: State, key: Key, r: Request) returns (result: Result<State, Refusal>)
    ensures result == Transition(s, key, r)
  {
    var errors := VerifyDeploymentState(s, key);
    if errors != [] { return Err(StateInvalid); }
    var current, actor := s.payload.stage, Strip(r.actor);
    if actor == "" { return Err(ActorBlank); }
    if r.target.RolledBack? {
      if current.RolledBack? { return Err(AlreadyRolledBack); }
    } else {
      if NextStage(current) != Some(r.target) { return Err(InvalidTransition); }
      if IsLive(current) {
        if r.report.None? || !r.report.value.safeToAdvance { return Err(ReportRequired); }
        if r.report.value.policyId != s.payload.policyId { return Err(ReportPolicyMismatch); }
        if r.report.value.stateGeneration != s.payload.generation { return Err(ReportGenerationMismatch); }
        if r.report.value.stage != current { return Err(ReportStageMismatch); }
      }
    }
    var unsigned := s.payload;
    var generation := unsigned.generation + 1;
    unsigned := unsigned.(stage := r.target);
    unsigned := unsigned.(traffic := TrafficFor(unsigned.bounded, r.target));
    unsigned := unsigned.(generation := generation);
    unsigned := unsigned.(updatedAt := r.now);
    var defaultReason := if !r.target.RolledBack? then "manual staged promotion" else "manual or automatic rollback";
    var entry := HistoryEntry(generation, current, r.target, actor, r.now,
                              if r.report.Some? then Some(GuardrailEvidence(r.report.value)) else None,
                              ReasonOr(r.reason, defaultReason));
    unsigned := unsigned.(history := unsigned.history + [entry]);
    if r.target.RolledBack? {
      var reason := ReasonOr(r.reason, "deployment guardrail rollback");
      unsigned := unsigned.(rollback := unsigned.rollback.(reason := Some(reason)));
      unsigned := unsigned.(rollback := unsigned.rollback.(at := Some(r.now)));
      unsigned := unsigned.(rollback := unsigned.rollback.(automatic := "runtime:" <= actor));
    }
    return Ok(Sign(unsigned, key));
  }

  // ------------------------------------------- what is accepted, field by field

  /** A state that verifies under a key was signed with that key as it stands. */
  lemma {:induction false} ValidMeansSigned(s: State, key: Key)
    requires Valid(s, key)
    ensures s == Sign(s.payload, key)
  {
    assert !Has(s, key, SigningKeyMissing) && !Has(s, key, SignatureMissing) && !Has(s, key, KeyIdMismatch);
    assert !Has(s, key, SignatureAlgorithmMismatch) && !Has(s, key, SignatureMismatch);
  }

  /** The traffic of each stage. */
  ghost predicate IsTraffic(bounded: real, s: Stage, traffic: real) {
    && (s == Approved || s == RolledBack ==> traffic == 0.0)
    && (s == Canary1 ==> traffic == 0.01) && (s == Canary5 ==> traffic == 0.05) && (s == Canary10 ==> traffic == 0.1)
    && (s == Bounded ==> traffic == bounded)
  }

  /** What a state must say of itself to verify. */
  ghost predicate Verifies(p: Payload, key: Key) {
    && p.currentSchema && p.generation >= 1 && !p.automaticActivation
    && p.stage in {Approved, Canary1, Canary5, Canary10, Bounded, RolledBack}
    && p.manifest.valid && p.manifest.signedBy == key && p.policyId == p.manifest.policyId
    && 0.1 < p.bounded <= 0.25 && p.rollback.targetArm == "adaptive_math"
    && exists expected ::
         IsTraffic(p.bounded, p.stage, expected) && expected - 0.000000000001 <= p.traffic <= expected + 0.000000000001
  }

  ghost predicate HasStage(p: Payload) {
    p.stage in {Approved, Canary1, Canary5, Canary10, Bounded, RolledBack}
  }

  /** What each fault says, on the fields of the state. */
  lemma {:induction false} FaultsMean(s: State, key: Key)
    ensures var p := s.payload;
      && (Has(s, key, SigningKeyMissing) <==> key == "")
      && (Has(s, key, SignatureMissing) <==> key != "" && s.signature == NoSignature)
      && (key != "" && s.signature != NoSignature ==>
            && (Has(s, key, SignatureAlgorithmMismatch) <==> !s.signature.hmacSha256)
            && (Has(s, key, KeyIdMismatch) <==> s.signature.keyId != key)
            && (Has(s, key, SignatureMismatch) <==> s.signature.value != Mac(key, p)))
      && (Has(s, key, SchemaVersionMismatch) <==> !p.currentSchema)
      && (Has(s, key, InvalidStage) <==> !HasStage(p))
      && (Has(s, key, InvalidGeneration) <==> p.generation <= 0)
    ensures var p := s.payload;
      && (Has(s, key, ManifestVerificationFailed) <==> key == "" || p.manifest.signedBy != key || !p.manifest.valid)
      && (Has(s, key, PolicyIdMismatch) <==> p.policyId != p.manifest.policyId)
      && (Has(s, key, InvalidBoundedTraffic) <==> p.bounded <= 0.1 || p.bounded > 0.25)
      && (Has(s, key, AutomaticActivationForbidden) <==> p.automaticActivation)
      && (Has(s, key, RollbackTargetMismatch) <==> p.rollback.targetArm != "adaptive_math")
      && (!HasStage(p) ==> Has(s, key, TrafficMismatch))
    ensures var p := s.payload;
      forall t :: HasStage(p) && IsTraffic(p.bounded, p.stage, t) ==>
        (Has(s, key, TrafficMismatch) <==> p.traffic < t - 0.000000000001 || p.traffic > t + 0.000000000001)
  {
  }

  /** Exactly the signed states that say so verify. */
  lemma {:induction false} ValidExactly(s: State, key: Key)
    ensures Valid(s, key) <==>
      key != "" && s.signature == Signature(true, key, Mac(key, s.payload)) && Verifies(s.payload, key)
  {
    var p := s.payload;
    var expected := TrafficFor(p.bounded, p.stage);
    if Valid(s, key) {
      ValidMeansSigned(s, key);
      assert !Has(s, key, SigningKeyMissing) && !Has(s, key, SchemaVersionMismatch) && !Has(s, key, InvalidStage);
      assert !Has(s, key, InvalidGeneration) && !Has(s, key, ManifestVerificationFailed);
      assert !Has(s, key, PolicyIdMismatch) && !Has(s, key, InvalidBoundedTraffic) && !Has(s, key, TrafficMismatch);
      assert !Has(s, key, AutomaticActivationForbidden) && !Has(s, key, RollbackTargetMismatch);
      assert IsTraffic(p.bounded, p.stage, expected);
    }
    if key != "" && s.signature == Signature(true, key, Mac(key, p)) && Verifies(p, key) {
      var t: real :| IsTraffic(p.bounded, p.stage, t) && t - 0.000000000001 <= p.traffic <= t + 0.000000000001;
      assert t == expected;
      forall f: Fault ensures !Has(s, key, f) {
      }
    }
  }

  /** The next rung above `from`. */
  predicate NextRung(from: Stage, to: Stage) {
    || (from == Approved && to == Canary1) || (from == Canary1 && to == Canary5)
    || (from == Canary5 && to == Canary10) || (from == Canary10 && to == Bounded)
  }

  /** A report that vouches for this generation and stage of the rollout. */
  predicate Vouches(p: Payload, report: Option<GuardrailReport>) {
    && report.Some? && report.value.safeToAdvance && report.value.policyId == p.policyId
    && report.value.stateGeneration == p.generation && report.value.stage == p.stage
  }

  /** Which transitions of a verified state are accepted: a named actor's rollback from
      any stage but `rolled_back`, and his promotion to the next rung, vouched for by a
      report unless the state is only approved. */
  lemma {:induction false} AcceptedExactly(s: State, key: Key, r: Request)
    requires Valid(s, key)
    ensures Transition(s, key, r).Ok? <==>
      && Strip(r.actor) != ""
      && (|| (r.target == RolledBack && s.payload.stage != RolledBack)
          || (NextRung(s.payload.stage, r.target) && (s.payload.stage == Approved || Vouches(s.payload, r.report))))
  {
    assert !Has(s, key, InvalidStage);
  }

  /** The reason given, or the default one. */
  ghost predicate IsReason(given: Option<string>, default: string, used: string) {
    used == if given.Some? && Strip(given.value) != "" then Strip(given.value) else default
  }

  /** What an accepted transition makes of the state: the new stage with its traffic,
      one more generation, one more entry that says who, when, why and on what
      evidence, a record of a rollback; nothing else changes, and the key signs it. */
  lemma {:induction false} AcceptedState(s: State, key: Key, r: Request)
    requires Valid(s, key) && Transition(s, key, r).Ok?
    ensures var p, q := s.payload, Transition(s, key, r).value.payload;
      && Transition(s, key, r).value.signature == Signature(true, key, Mac(key, q))
      && q.stage == r.target && IsTraffic(p.bounded, r.target, q.traffic)
      && q.generation == p.generation + 1 && q.updatedAt == r.now
      && q.currentSchema == p.currentSchema && q.policyId == p.policyId && q.bounded == p.bounded
      && q.approvedBy == p.approvedBy && q.automaticActivation == p.automaticActivation
      && q.manifest == p.manifest && q.guardrails == p.guardrails
      && |q.history| == |p.history| + 1 && q.history[..|p.history|] == p.history
    ensures var p, q := s.payload, Transition(s, key, r).value.payload; var e := q.history[|p.history|];
      && e.generation == p.generation + 1 && e.from == p.stage && e.to == r.target
      && e.actor == Strip(r.actor) && e.at == r.now
      && e.evidence == (if r.report.None? then None else Some(GuardrailEvidence(r.report.value)))
      && IsReason(r.reason, if r.target == RolledBack then "manual or automatic rollback"
                            else "manual staged promotion", e.reason)
    ensures var p, q := s.payload, Transition(s, key, r).value.payload;
      && q.rollback.targetArm == "adaptive_math"
      && (r.target != RolledBack ==> q.rollback == p.rollback)
      && (r.target == RolledBack ==>
            && q.rollback.at == Some(r.now) && q.rollback.reason.Some?
            && (q.rollback.automatic <==> |Strip(r.actor)| >= 8 && Strip(r.actor)[..8] == "runtime:")
            && IsReason(r.reason, "deployment guardrail rollback", q.rollback.reason.value))
  {
    assert !Has(s, key, InvalidStage) && !Has(s, key, RollbackTargetMismatch);
  }

  /** Which refusal is given to a verified state's transition. */
  lemma {:induction false} RefusedFor(s: State, key: Key, r: Request)
    requires Valid(s, key) && Transition(s, key, r).Err?
    ensures var p, e := s.payload, Transition(s, key, r).error;
      && (e == ActorBlank <==> Strip(r.actor) == "")
      && (Strip(r.actor) != "" ==>
            && (e == AlreadyRolledBack <==> r.target == RolledBack)
            && (e == InvalidTransition <==> r.target != RolledBack && !NextRung(p.stage, r.target))
            && (NextRung(p.stage, r.target) ==>
                  && (e == ReportRequired <==> r.report.None? || !r.report.value.safeToAdvance)
                  && (e == ReportPolicyMismatch ==> r.report.value.policyId != p.policyId)
                  && (e == ReportGenerationMismatch ==> r.report.value.stateGeneration != p.generation)
                  && (e == ReportStageMismatch ==> r.report.value.stage != p.stage)))
  {
    assert !Has(s, key, InvalidStage);
  }

  /** Which rollouts may be created, and what they start as. */
  lemma {:induction false} CreatedExactly(m: Manifest, shadow: ShadowReport, key: Key, approvedBy: string,
                                          bounded: real, g: Guardrails, now: int)
    ensures var result := Create(m, shadow, key, approvedBy, bounded, g, now);
      result.Ok? <==>
        && key != "" && m.valid && m.signedBy == key
        && shadow.policyId == m.policyId && shadow.evidenceCutoff == m.evidenceCutoff
        && shadow.eligible && shadow.manifestValid && !shadow.receivedTraffic
        && Strip(approvedBy) != "" && 0.1 < bounded <= 0.25
        && g.rewardMin < g.rewardMax && g.maxImportanceWeight >= 100.0
        && 0.0 <= g.maxFailureRate <= 1.0 && 0.0 <= g.maxContextTvDistance <= 1.0
        && 0.0 <= g.maxUnknownContextRate <= 1.0
        && g.minimumMonitorClusters >= 2 && g.bootstrapResamples >= 100
        && (g.maxCumulativeCost.None? || g.maxCumulativeCost.value >= 0.0)
    ensures var result := Create(m, shadow, key, approvedBy, bounded, g, now);
      result.Ok? ==>
        var p := result.value.payload;
        && p.stage == Approved && p.traffic == 0.0 && p.bounded == bounded && p.generation == 1 && p.updatedAt == now
        && p.policyId == m.policyId && p.manifest == m && p.guardrails == g && p.approvedBy == Strip(approvedBy)
        && p.currentSchema && !p.automaticActivation
        && p.rollback == Rollback("adaptive_math", true, None, None)
        && |p.history| == 1 && p.history[0].generation == 1 && p.history[0].from == Shadow
        && p.history[0].to == Approved && p.history[0].actor == Strip(approvedBy) && p.history[0].at == now
        && p.history[0].evidence == Some(ShadowEvidence(shadow))
  {
  }

  // --------------------------------------------------------- reachable states

  ghost predicate Created(key: Key, s: State) {
    exists m, shadow, approver, bounded, g, now :: Create(m, shadow, key, approver, bounded, g, now) == Ok(s)
  }

  ghost predicate Succeeds(key: Key, s: State, s': State) {
    exists r :: Transition(s, key, r) == Ok(s')
  }

  /** A rollout: an approved state, then any number of accepted transitions. */
  ghost predicate Rollout(key: Key, states: seq<State>) {
    && states != []
    && Created(key, states[0])
    && forall i :: 0 < i < |states| ==> Succeeds(key, states[i - 1], states[i])
  }

  predicate IsPromotionOfLive(e: HistoryEntry) { IsLive(e.from) && !e.to.RolledBack? }

  /** A history entry is explained by the entries before it. */
  ghost predicate Linked(p: Payload, i: nat)
    requires i < |p.history|
  {
    var e := p.history[i];
    && e.generation == i + 1
    && (i == 0 ==> e.from == Shadow && e.to == Approved)
    && (i > 0 ==> e.from == p.history[i - 1].to && !e.from.RolledBack?
                  && (e.to.RolledBack? || Some(e.to) == NextStage(e.from)))
    && (i > 0 && IsPromotionOfLive(e) ==>
          && e.evidence.Some? && e.evidence.value.GuardrailEvidence?
          && e.evidence.value.report == GuardrailReport(p.policyId, i, e.from, true))
  }

  ghost predicate Sound(s: State, key: Key) {
    && Valid(s, key)
    && s.payload.generation == |s.payload.history| > 0
    && s.payload.stage == s.payload.history[|s.payload.history| - 1].to
    && s.payload.traffic == TrafficFor(s.payload.bounded, s.payload.stage)
    && forall i :: 0 <= i < |s.payload.history| ==> Linked(s.payload, i)
  }

  lemma {:induction false} CreateIsSound(m: Manifest, shadow: ShadowReport, key: Key, approver: string,
                                         bounded: real, g: Guardrails, now: int)
    requires Create(m, shadow, key, approver, bounded, g, now).Ok?
    ensures Sound(Create(m, shadow, key, approver, bounded, g, now).value, key)
  {
    var s := Create(m, shadow, key, approver, bounded, g, now).value;
    assert Linked(s.payload, 0);
  }

  lemma {:induction false} TransitionKeepsValid(s: State, key: Key, r: Request)
    requires Valid(s, key) && Transition(s, key, r).Ok?
    ensures Valid(Transition(s, key, r).value, key)
  {
    var s' := Transition(s, key, r).value;
    assert !Has(s, key, SigningKeyMissing) && !Has(s, key, SchemaVersionMismatch)
      && !Has(s, key, InvalidBoundedTraffic);
    assert !Has(s, key, InvalidGeneration) && !Has(s, key, ManifestVerificationFailed)
      && !Has(s, key, PolicyIdMismatch);
    assert !Has(s, key, AutomaticActivationForbidden) && !Has(s, key, RollbackTargetMismatch);
    forall f: Fault ensures !Has(s', key, f) {
    }
  }

  /** Every accepted transition keeps a state verifiable and its history linked. */
  lemma {:induction false} TransitionKeepsSound(s: State, key: Key, r: Request)
    requires Sound(s, key) && Transition(s, key, r).Ok?
    ensures Sound(Transition(s, key, r).value, key)
  {
    var s' := Transition(s, key, r).value;
    TransitionKeepsValid(s, key, r);
    forall i | 0 <= i < |s'.payload.history| ensures Linked(s'.payload, i) {
      if i < |s.payload.history| {
        assert Linked(s.payload, i);
        assert s'.payload.history[i] == s.payload.history[i];
        if i > 0 { assert s'.payload.history[i - 1] == s.payload.history[i - 1]; }
      }
    }
  }

  lemma {:induction false} StepKeepsSound(key: Key, s: State, s': State)
    requires Sound(s, key) && Succeeds(key, s, s')
    ensures Sound(s', key) && s.payload.history <= s'.payload.history
    ensures s'.payload.generation == s.payload.generation + 1 && s'.payload.bounded == s.payload.bounded
  {
    var r :| Transition(s, key, r) == Ok(s');
    TransitionKeepsSound(s, key, r);
  }

  lemma {:induction false} RolloutIsSound(key: Key, states: seq<State>, i: nat)
    requires Rollout(key, states) && i < |states|
    ensures Sound(states[i], key)
    ensures states[0].payload.history <= states[i].payload.history
    ensures states[i].payload.generation == i + 1
    ensures states[i].payload.bounded == states[0].payload.bounded
    decreases i
  {
    if i == 0 {
      var m, shadow, approver, bounded, g, now :| Create(m, shadow, key, approver, bounded, g, now) == Ok(states[0]);
      CreateIsSound(m, shadow, key, approver, bounded, g, now);
    } else {
      RolloutIsSound(key, states, i - 1);
      StepKeepsSound(key, states[i - 1], states[i]);
    }
  }

  // ------------------------------------------------- what reachability gives

  const LADDER: seq<Stage> := [Approved, Canary1, Canary5, Canary10, Bounded]

  /** A sound history climbs the ladder one rung at a time; only its last entry
      can be a rollback. So it has at most six entries. */
  lemma {:induction false} HistoryClimbs(s: State, key: Key, i: nat)
    requires Sound(s, key) && i < |s.payload.history|
    ensures var h := s.payload.history;
      if h[i].to.RolledBack? then i == |h| - 1 && 0 < i <= 5
      else i < 5 && h[i].to == LADDER[i]
    decreases i
  {
    var h := s.payload.history;
    assert Linked(s.payload, i);
    if i > 0 {
      HistoryClimbs(s, key, i - 1);
      if i < |h| - 1 {
        assert Linked(s.payload, i + 1);
      }
    } else if |h| > 1 {
      assert Linked(s.payload, 1);
    }
  }

  /** At most six generations exist, and no reachable state sends more than a
      quarter of the traffic. */
  lemma {:induction false} RolloutIsBounded(key: Key, states: seq<State>)
    requires Rollout(key, states)
    ensures |states| <= 6
    ensures forall i :: 0 <= i < |states| ==> 0.0 <= states[i].payload.traffic <= BOUNDED_LIMIT
  {
    var n := |states| - 1;
    RolloutIsSound(key, states, n);
    HistoryClimbs(states[n], key, n);
    forall i | 0 <= i < |states| ensures 0.0 <= states[i].payload.traffic <= BOUNDED_LIMIT {
      RolloutIsSound(key, states, i);
      assert !Has(states[i], key, InvalidBoundedTraffic);
    }
  }

  /** Traffic rises strictly with every promotion and drops to zero on rollback. */
  lemma {:induction false} TrafficRises(s: State, key: Key, r: Request)
    requires Sound(s, key) && Transition(s, key, r).Ok?
    ensures var s' := Transition(s, key, r).value;
      if r.target.RolledBack? then s'.payload.traffic == 0.0 else s'.payload.traffic > s.payload.traffic
  {
    assert !Has(s, key, InvalidBoundedTraffic);
  }

  /** After a rollback nothing is accepted any more. */
  lemma {:induction false} RolledBackIsAbsorbing(s: State, key: Key, r: Request)
    requires s.payload.stage.RolledBack?
    ensures Transition(s, key, r).Err?
  {
  }

  /** No guardrail report justifies two promotions of one rollout. */
  lemma {:induction false} ReportsAreNotReused(s: State, key: Key, i: nat, j: nat)
    requires Sound(s, key) && 0 < i < j < |s.payload.history|
    requires IsPromotionOfLive(s.payload.history[i]) && IsPromotionOfLive(s.payload.history[j])
    ensures s.payload.history[i].evidence != s.payload.history[j].evidence
  {
    assert Linked(s.payload, i) && Linked(s.payload, j);
  }
}
