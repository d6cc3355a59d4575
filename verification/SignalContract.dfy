/** Canonical Signal v1: its validator, and the materialisation of THRESHOLD matches. */
module SignalContract {
  import opened Wrappers
  import opened Contracts
  import opened Sorting

  const EVENT_RULE := 1
  const THRESHOLD_RULE := 2
  const CORRELATION_RULE := 3
  const NORMALIZED_EVENT_INPUT := 1
  const ACTIVE_STATUS := 1
  const UINT32_RANGE := 0x1_0000_0000
  const UINT64_RANGE := 0x1_0000_0000_0000_0000

  datatype SignalInput = SignalInput(signalId: string, inputType: int, inputId: string, relation: string, ordinal: nat)

  datatype Provenance = Provenance(evaluatedAt: Option<Timestamp>, executionBackend: int)

  datatype Signal = Signal(
    signalId: string, tenantId: string, ruleId: string, ruleVersion: string, ruleType: int,
    severity: string, confidence: Option<string>, status: int,
    firstObservedAt: Option<Timestamp>, lastObservedAt: Option<Timestamp>, createdAt: Option<Timestamp>,
    executionMode: int, sourceCount: nat, eventCount: nat, summary: string,
    provenance: Option<Provenance>, inputs: seq<SignalInput>)

  function ModeNumber(mode: ExecutionMode): int {
    match mode
    case Unspecified => 0
    case Live => 1
    case Replay => 2
    case Test => 3
  }

  function BackendNumber(backend: Backend): int {
    match backend
    case ClickHouse => 1
    case Stream => 2
  }

  predicate OptionalText(s: Option<string>) {
    s.Some? ==> HasText(s.value)
  }

  predicate IsDetectionRuleId(s: string) {
    && |s| == 14 && s[..8] == "CER-DET-"
    && forall i :: 8 <= i < 14 ==> '0' <= s[i] <= '9'
  }

  predicate ValidIdentity(s: Signal) {
    && IsUuidV7(s.signalId) && IsUuidV7(s.tenantId) && IsDetectionRuleId(s.ruleId) && HasText(s.ruleVersion)
    && EVENT_RULE <= s.ruleType <= CORRELATION_RULE
    && HasText(s.severity) && OptionalText(s.confidence)
    && 1 <= s.status <= 4 && 1 <= s.executionMode <= 3
  }

  predicate ValidTimes(s: Signal) {
    && (match (s.firstObservedAt, s.lastObservedAt)
        case (None, None) => true
        case (Some(first), Some(last)) => ValidTimestamp(first) && ValidTimestamp(last) && TimestampLe(first, last)
        case _ => false)
    && s.createdAt.Some? && ValidTimestamp(s.createdAt.value)
  }

  predicate ValidProvenance(s: Signal) {
    && s.provenance.Some? && s.provenance.value.evaluatedAt.Some?
    && ValidTimestamp(s.provenance.value.evaluatedAt.value)
    && 1 <= s.provenance.value.executionBackend <= 2
  }

  predicate ValidInput(signalId: string, input: SignalInput, position: nat) {
    && input.signalId == signalId && 1 <= input.inputType <= 3 && IsUuidV7(input.inputId)
    && HasText(input.relation) && position < UINT32_RANGE && input.ordinal == position
  }

  ghost predicate ValidInputs(signalId: string, inputs: seq<SignalInput>) {
    && inputs != []
    && (forall i :: 0 <= i < |inputs| ==> ValidInput(signalId, inputs[i], i))
    && DistinctIdentities(inputs, |inputs|)
  }

  /** The first `n` inputs repeat no identity. */
  ghost predicate DistinctIdentities(inputs: seq<SignalInput>, n: nat)
    requires n <= |inputs|
  {
    forall i, j :: 0 <= i < j < n ==> Identity(inputs[i]) != Identity(inputs[j])
  }

  lemma NoIdentities(inputs: seq<SignalInput>)
    ensures DistinctIdentities(inputs, 0)
  {
  }

  lemma IdentityStep(inputs: seq<SignalInput>, n: nat)
    requires n < |inputs| && DistinctIdentities(inputs, n)
    ensures DistinctIdentities(inputs, n + 1) <==> Identity(inputs[n]) !in set j | 0 <= j < n :: Identity(inputs[j])
    ensures DistinctIdentities(inputs, |inputs|) ==> DistinctIdentities(inputs, n + 1)
  {
    hide Identity;
  }

  function Identity(input: SignalInput): (int, string) {
    (input.inputType, input.inputId)
  }

  function NormalizedEventInputs(inputs: seq<SignalInput>): nat {
    if inputs == [] then 0
    else
      var n := |inputs| - 1;
      NormalizedEventInputs(inputs[..n]) + if inputs[n].inputType == NORMALIZED_EVENT_INPUT then 1 else 0
  }

  predicate ValidRuleCounts(s: Signal, normalizedEventInputs: nat) {
    if s.ruleType == EVENT_RULE then
      normalizedEventInputs == 1 && s.eventCount == 1 && s.sourceCount <= s.eventCount
    else if s.ruleType == THRESHOLD_RULE then
      normalizedEventInputs != 0 && normalizedEventInputs == s.eventCount && s.sourceCount <= s.eventCount
    else true
  }

  ghost predicate ValidSignal(s: Signal) {
    && ValidIdentity(s) && ValidTimes(s) && s.sourceCount > 0 && s.eventCount > 0 && HasText(s.summary)
    && ValidProvenance(s) && ValidInputs(s.signalId, s.inputs)
    && ValidRuleCounts(s, NormalizedEventInputs(s.inputs))
  }

  method ValidateInputs(signalId: string, inputs: seq<SignalInput>) returns (count: Option<nat>)
    ensures count == if ValidInputs(signalId, inputs) then Some(NormalizedEventInputs(inputs)) else None
  {
    hide ValidInput, Identity, DistinctIdentities;
    if inputs == [] {
      return None;
    }
    var unique: set<(int, string)> := {};
    var normalized := 0;
    NoIdentities(inputs);
    for i := 0 to |inputs|
      invariant forall j :: 0 <= j < i ==> ValidInput(signalId, inputs[j], j)
      invariant unique == set j | 0 <= j < i :: Identity(inputs[j])
      invariant DistinctIdentities(inputs, i)
      invariant normalized == NormalizedEventInputs(inputs[..i])
    {
      var input := inputs[i];
      IdentityStep(inputs, i);
      if !ValidInput(signalId, input, i) || Identity(input) in unique {
        return None;
      }
      unique := unique + {Identity(input)};
      assert inputs[..i + 1][..i] == inputs[..i];
      if input.inputType == NORMALIZED_EVENT_INPUT {
        normalized := normalized + 1;
      }
    }
    assert inputs[..|inputs|] == inputs;
    return Some(normalized);
  }

  /** The validator accepts exactly the canonical Signals. */
  method ValidateSignal(s: Signal) returns (ok: bool)
    ensures ok <==> ValidSignal(s)
  {
    if !ValidIdentity(s) || !ValidTimes(s) || s.sourceCount == 0 || s.eventCount == 0 || !HasText(s.summary)
       || !ValidProvenance(s) {
      return false;
    }
    var count := ValidateInputs(s.signalId, s.inputs);
    return count.Some? && ValidRuleCounts(s, count.value);
  }

  // ----- THRESHOLD materialisation -----

  datatype ThresholdProvenance = ThresholdProvenance(
    ruleId: string, ruleVersion: string, tenantId: string, eventIds: seq<string>,
    first: Timestamp, last: Timestamp, evaluatedAt: Timestamp, backend: Backend, mode: ExecutionMode)

  datatype SignalContext = SignalContext(
    signalId: string, severity: string, confidence: Option<string>, summary: string, relation: string,
    createdAt: Timestamp, sourceCount: nat)

  function ThresholdSignal(p: ThresholdProvenance, c: SignalContext): Signal {
    Signal(c.signalId, p.tenantId, p.ruleId, p.ruleVersion, THRESHOLD_RULE, c.severity, c.confidence, ACTIVE_STATUS,
           Some(p.first), Some(p.last), Some(c.createdAt), ModeNumber(p.mode), c.sourceCount, |p.eventIds|, c.summary,
           Some(Provenance(Some(p.evaluatedAt), BackendNumber(p.backend))),
           seq(|p.eventIds|, i requires 0 <= i < |p.eventIds| =>
             SignalInput(c.signalId, NORMALIZED_EVENT_INPUT, p.eventIds[i], c.relation, i)))
  }

  /** The Signal tells the match and the context apart, field by field, and lists the events in order. */
  ghost predicate TellsMatch(s: Signal, p: ThresholdProvenance, c: SignalContext) {
    && s.signalId == c.signalId && s.severity == c.severity && s.confidence == c.confidence && s.summary == c.summary
    && s.createdAt == Some(c.createdAt) && s.sourceCount == c.sourceCount
    && s.tenantId == p.tenantId && s.ruleId == p.ruleId && s.ruleVersion == p.ruleVersion
    && s.executionMode == ModeNumber(p.mode)
    && s.firstObservedAt == Some(p.first) && s.lastObservedAt == Some(p.last)
    && s.provenance == Some(Provenance(Some(p.evaluatedAt), BackendNumber(p.backend)))
    && s.ruleType == THRESHOLD_RULE && s.status == ACTIVE_STATUS
    && s.eventCount == |p.eventIds| == |s.inputs| && forall i :: 0 <= i < |s.inputs| ==>
      s.inputs[i] == SignalInput(c.signalId, NORMALIZED_EVENT_INPUT, p.eventIds[i], c.relation, i)
  }

  /** Materialisation: refuse an empty or unnumberable contributor list, build the Signal, validate it. */
  method MaterializeThreshold(p: ThresholdProvenance, c: SignalContext) returns (r: Option<Signal>)
    ensures r == if p.eventIds != [] && |p.eventIds| <= UINT32_RANGE && ValidSignal(ThresholdSignal(p, c))
                 then Some(ThresholdSignal(p, c)) else None
    ensures r.Some? ==> ValidSignal(r.value) && TellsMatch(r.value, p, c)
  {
    if p.eventIds == [] || |p.eventIds| >= UINT64_RANGE || |p.eventIds| > UINT32_RANGE {
      return None;
    }
    var signal := ThresholdSignal(p, c);
    var ok := ValidateSignal(signal);
    return if ok then Some(signal) else None;
  }

  /** What an evaluation hands over for one match of a compiled plan. */
  ghost predicate EvaluatedProvenance(p: ThresholdProvenance) {
    && IsDetectionRuleId(p.ruleId) && HasText(p.ruleVersion) && IsUuidV7(p.tenantId)
    && p.eventIds != [] && Distinct(p.eventIds) && (forall i :: 0 <= i < |p.eventIds| ==> IsUuidV7(p.eventIds[i]))
    && ValidTimestamp(p.first) && ValidTimestamp(p.last) && TimestampLe(p.first, p.last)
    && ValidTimestamp(p.evaluatedAt) && p.mode != Unspecified
  }

  /** The producer's side of the bargain, for a match of `n` events. */
  ghost predicate ProducerContext(c: SignalContext, n: nat) {
    && IsUuidV7(c.signalId) && HasText(c.severity) && OptionalText(c.confidence) && HasText(c.summary)
    && HasText(c.relation) && ValidTimestamp(c.createdAt) && 1 <= c.sourceCount <= n
  }

  lemma {:induction false} AllNormalized(inputs: seq<SignalInput>)
    requires forall i :: 0 <= i < |inputs| ==> inputs[i].inputType == NORMALIZED_EVENT_INPUT
    ensures NormalizedEventInputs(inputs) == |inputs|
  {
    if inputs != [] {
      AllNormalized(inputs[..|inputs| - 1]);
    }
  }

  /** An evaluated match becomes a valid Signal exactly when the producer's context is valid and the ordinals fit. */
  lemma ThresholdSignalValidIff(p: ThresholdProvenance, c: SignalContext)
    requires EvaluatedProvenance(p)
    ensures ValidSignal(ThresholdSignal(p, c)) <==> ProducerContext(c, |p.eventIds|) && |p.eventIds| <= UINT32_RANGE
  {
    hide HasText, IsUuidV7, ValidTimestamp, TimestampLe, IsDetectionRuleId;
    var s := ThresholdSignal(p, c);
    AllNormalized(s.inputs);
    var n := |p.eventIds|;
    assert s.inputs[0].relation == c.relation && s.inputs[n - 1].ordinal == n - 1;
    if ValidInputs(s.signalId, s.inputs) {
      assert ValidInput(s.signalId, s.inputs[0], 0) && ValidInput(s.signalId, s.inputs[n - 1], n - 1);
    }
    if HasText(c.relation) && n <= UINT32_RANGE {
      forall i | 0 <= i < n
        ensures ValidInput(s.signalId, s.inputs[i], i)
      {
      }
    }
  }
}
