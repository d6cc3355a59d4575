/** Canonical Finding v1: its validator, and the materialisation of SEQUENCE correlation matches. */
module FindingContract {
  import opened Wrappers
  import opened Contracts
  import opened Sorting
  import opened SignalContract

  const CORRELATION_FINDING := 3
  const ANALYTICAL_FINDING := 4
  const OPEN_STATUS := 1
  const UNDETERMINED_DISPOSITION := 1
  const SIGNAL_INPUT_TYPE := "SIGNAL"

  datatype FindingInput = FindingInput(findingId: string, inputType: string, inputId: string, relation: string)

  datatype CorrelationProvenance = CorrelationProvenance(
    ruleId: string, ruleVersion: string, windowStart: Option<Timestamp>, windowEnd: Option<Timestamp>,
    inputIds: seq<string>, outputFindingId: string, executionBackend: int, executionMode: int,
    configurationHash: string)

  datatype Finding = Finding(
    findingId: string, tenantId: string, findingType: int, status: int,
    severity: string, confidence: Option<string>, title: string, description: string,
    firstSeen: Option<Timestamp>, lastSeen: Option<Timestamp>,
    createdAt: Option<Timestamp>, updatedAt: Option<Timestamp>,
    primaryRuleId: Option<string>, primaryRuleVersion: Option<string>,
    correlationRuleId: Option<string>, correlationRuleVersion: Option<string>,
    disposition: int, executionMode: int, inputs: seq<FindingInput>,
    correlation: Option<CorrelationProvenance>)

  predicate OptionalPair(a: Option<string>, b: Option<string>) {
    a.Some? == b.Some? && OptionalText(a) && OptionalText(b)
  }

  predicate OrderedPair(a: Option<Timestamp>, b: Option<Timestamp>) {
    a.Some? && b.Some? && ValidTimestamp(a.value) && ValidTimestamp(b.value) && TimestampLe(a.value, b.value)
  }

  predicate RequiredTime(t: Option<Timestamp>) {
    t.Some? && ValidTimestamp(t.value)
  }

  predicate ValidFindingInput(findingId: string, input: FindingInput) {
    input.findingId == findingId && HasText(input.inputType) && IsUuidV7(input.inputId) && HasText(input.relation)
  }

  ghost predicate ValidFindingInputs(findingId: string, inputs: seq<FindingInput>) {
    && inputs != []
    && (forall i :: 0 <= i < |inputs| ==> ValidFindingInput(findingId, inputs[i]))
    && DistinctRelations(inputs, |inputs|)
  }

  /** The first `n` inputs repeat no relation. */
  ghost predicate DistinctRelations(inputs: seq<FindingInput>, n: nat)
    requires n <= |inputs|
  {
    forall i, j :: 0 <= i < j < n ==> Relation(inputs[i]) != Relation(inputs[j])
  }

  ghost function RelationsUpTo(inputs: seq<FindingInput>, n: nat): set<(string, string, string)>
    requires n <= |inputs|
  {
    set j | 0 <= j < n :: Relation(inputs[j])
  }

  ghost function IdsUpTo(inputs: seq<FindingInput>, n: nat): set<string>
    requires n <= |inputs|
  {
    set j | 0 <= j < n :: inputs[j].inputId
  }

  lemma NoRelations(inputs: seq<FindingInput>)
    ensures DistinctRelations(inputs, 0) && RelationsUpTo(inputs, 0) == {} && IdsUpTo(inputs, 0) == {}
    ensures IdsUpTo(inputs, |inputs|) == InputIds(inputs)
  {
  }

  lemma RelationStep(inputs: seq<FindingInput>, n: nat)
    requires n < |inputs| && DistinctRelations(inputs, n)
    ensures DistinctRelations(inputs, n + 1) <==> Relation(inputs[n]) !in RelationsUpTo(inputs, n)
    ensures DistinctRelations(inputs, |inputs|) ==> DistinctRelations(inputs, n + 1)
    ensures RelationsUpTo(inputs, n + 1) == RelationsUpTo(inputs, n) + {Relation(inputs[n])}
    ensures IdsUpTo(inputs, n + 1) == IdsUpTo(inputs, n) + {inputs[n].inputId}
  {
    hide Relation;
  }

  function Relation(input: FindingInput): (string, string, string) {
    (input.inputType, input.inputId, input.relation)
  }

  ghost function InputIds(inputs: seq<FindingInput>): set<string> {
    set i | 0 <= i < |inputs| :: inputs[i].inputId
  }

  ghost predicate ValidCorrelationIds(ids: seq<string>, backed: set<string>) {
    && ids != [] && Distinct(ids)
    && forall i :: 0 <= i < |ids| ==> IsUuidV7(ids[i]) && ids[i] in backed
  }

  predicate ValidCorrelationHeader(f: Finding, p: CorrelationProvenance) {
    && f.correlationRuleId == Some(p.ruleId) && f.correlationRuleVersion == Some(p.ruleVersion)
    && OrderedPair(p.windowStart, p.windowEnd)
    && p.outputFindingId == f.findingId && 1 <= p.executionBackend <= 2
    && p.executionMode == f.executionMode && HasText(p.configurationHash)
  }

  predicate ValidHeader(f: Finding) {
    && IsUuidV7(f.findingId) && IsUuidV7(f.tenantId) && 1 <= f.findingType <= 4 && 1 <= f.status <= 5
    && HasText(f.severity) && OptionalText(f.confidence) && HasText(f.title) && HasText(f.description)
    && ((f.firstSeen.None? && f.lastSeen.None?) || OrderedPair(f.firstSeen, f.lastSeen))
    && RequiredTime(f.createdAt) && RequiredTime(f.updatedAt)
    && OptionalPair(f.primaryRuleId, f.primaryRuleVersion)
    && OptionalPair(f.correlationRuleId, f.correlationRuleVersion)
    && 1 <= f.disposition <= 6 && 1 <= f.executionMode <= 3
  }

  ghost predicate ValidFinding(f: Finding) {
    && ValidHeader(f) && ValidFindingInputs(f.findingId, f.inputs)
    && if f.findingType == CORRELATION_FINDING then
         && f.correlation.Some? && ValidCorrelationHeader(f, f.correlation.value)
         && ValidCorrelationIds(f.correlation.value.inputIds, InputIds(f.inputs))
       else
         && f.correlation.None?
         && (f.findingType != ANALYTICAL_FINDING ==> f.primaryRuleId.Some? && f.primaryRuleVersion.Some?)
  }

  method ValidateFindingInputs(findingId: string, inputs: seq<FindingInput>) returns (ids: Option<set<string>>)
    ensures ids == if ValidFindingInputs(findingId, inputs) then Some(InputIds(inputs)) else None
  {
    hide ValidFindingInput, Relation, DistinctRelations, RelationsUpTo, IdsUpTo, InputIds;
    if inputs == [] {
      return None;
    }
    var relations: set<(string, string, string)> := {};
    var seen: set<string> := {};
    NoRelations(inputs);
    for i := 0 to |inputs|
      invariant forall j :: 0 <= j < i ==> ValidFindingInput(findingId, inputs[j])
      invariant relations == RelationsUpTo(inputs, i)
      invariant DistinctRelations(inputs, i)
      invariant seen == IdsUpTo(inputs, i)
    {
      var input := inputs[i];
      RelationStep(inputs, i);
      if !ValidFindingInput(findingId, input) || Relation(input) in relations {
        return None;
      }
      relations := relations + {Relation(input)};
      seen := seen + {input.inputId};
    }
    return Some(seen);
  }

  method ValidateCorrelationIds(ids: seq<string>, backed: set<string>) returns (ok: bool)
    ensures ok <==> ValidCorrelationIds(ids, backed)
  {
    var seen: set<string> := {};
    for i := 0 to |ids|
      invariant forall j :: 0 <= j < i ==> IsUuidV7(ids[j]) && ids[j] in backed
      invariant forall j, k :: 0 <= j < k < i ==> ids[j] != ids[k]
      invariant seen == set j | 0 <= j < i :: ids[j]
    {
      if !IsUuidV7(ids[i]) || ids[i] in seen || ids[i] !in backed {
        return false;
      }
      seen := seen + {ids[i]};
    }
    return ids != [];
  }

  /** The validator accepts exactly the canonical Findings. */
  method ValidateFinding(f: Finding) returns (ok: bool)
    ensures ok <==> ValidFinding(f)
  {
    if !ValidHeader(f) {
      return false;
    }
    var ids := ValidateFindingInputs(f.findingId, f.inputs);
    if ids.None? {
      return false;
    }
    if f.findingType != CORRELATION_FINDING {
      return f.correlation.None? && (f.findingType != ANALYTICAL_FINDING ==>
        f.primaryRuleId.Some? && f.primaryRuleVersion.Some?);
    }
    if f.correlation.None? || !ValidCorrelationHeader(f, f.correlation.value) {
      return false;
    }
    ok := ValidateCorrelationIds(f.correlation.value.inputIds, ids.value);
  }

  // ----- SEQUENCE materialisation -----

  datatype SequenceMatch = SequenceMatch(
    ruleId: string, ruleVersion: string, tenantId: string, windowStart: Timestamp, windowEnd: Timestamp,
    signalIds: seq<string>, backend: Backend, mode: ExecutionMode, configurationHash: string)

  datatype FindingContext = FindingContext(
    findingId: string, severity: string, confidence: Option<string>, title: string, description: string,
    relation: string, createdAt: Timestamp)

  function SequenceFinding(m: SequenceMatch, c: FindingContext): Finding {
    Finding(c.findingId, m.tenantId, CORRELATION_FINDING, OPEN_STATUS, c.severity, c.confidence, c.title, c.description,
            Some(m.windowStart), Some(m.windowEnd), Some(c.createdAt), Some(c.createdAt), None, None,
            Some(m.ruleId), Some(m.ruleVersion), UNDETERMINED_DISPOSITION, ModeNumber(m.mode),
            seq(|m.signalIds|, i requires 0 <= i < |m.signalIds| =>
              FindingInput(c.findingId, SIGNAL_INPUT_TYPE, m.signalIds[i], c.relation)),
            Some(CorrelationProvenance(m.ruleId, m.ruleVersion, Some(m.windowStart), Some(m.windowEnd), m.signalIds,
                                       c.findingId, BackendNumber(m.backend), ModeNumber(m.mode), m.configurationHash)))
  }

  /** The Finding tells the match and the context apart, field by field, and lists the Signals in order. */
  ghost predicate TellsMatch(f: Finding, m: SequenceMatch, c: FindingContext) {
    && f.findingId == c.findingId && f.severity == c.severity && f.confidence == c.confidence && f.title == c.title
    && f.description == c.description && f.createdAt == f.updatedAt == Some(c.createdAt)
    && f.tenantId == m.tenantId && f.correlationRuleId == Some(m.ruleId)
    && f.correlationRuleVersion == Some(m.ruleVersion)
    && f.firstSeen == Some(m.windowStart) && f.lastSeen == Some(m.windowEnd)
    && f.findingType == CORRELATION_FINDING && f.status == OPEN_STATUS && f.executionMode == ModeNumber(m.mode)
    && f.correlation.Some? && f.correlation.value.inputIds == m.signalIds
    && f.correlation.value.configurationHash == m.configurationHash
    && f.correlation.value.ruleId == m.ruleId && f.correlation.value.ruleVersion == m.ruleVersion
    && f.correlation.value.windowStart == Some(m.windowStart) && f.correlation.value.windowEnd == Some(m.windowEnd)
    && f.correlation.value.executionBackend == BackendNumber(m.backend)
    && f.correlation.value.executionMode == ModeNumber(m.mode)
    && |f.inputs| == |m.signalIds| && forall i :: 0 <= i < |f.inputs| ==>
      f.inputs[i].inputId == m.signalIds[i] && f.inputs[i].relation == c.relation
  }

  method MaterializeSequence(m: SequenceMatch, c: FindingContext) returns (r: Option<Finding>)
    ensures r == if ValidFinding(SequenceFinding(m, c)) then Some(SequenceFinding(m, c)) else None
    ensures r.Some? ==> ValidFinding(r.value) && TellsMatch(r.value, m, c)
  {
    var finding := SequenceFinding(m, c);
    var ok := ValidateFinding(finding);
    return if ok then Some(finding) else None;
  }

  /** What an evaluation hands over for one match of a compiled plan. */
  ghost predicate EvaluatedMatch(m: SequenceMatch) {
    && HasText(m.ruleId) && HasText(m.ruleVersion) && HasText(m.configurationHash) && IsUuidV7(m.tenantId)
    && m.signalIds != [] && Distinct(m.signalIds) && (forall i :: 0 <= i < |m.signalIds| ==> IsUuidV7(m.signalIds[i]))
    && ValidTimestamp(m.windowStart) && ValidTimestamp(m.windowEnd) && TimestampLe(m.windowStart, m.windowEnd)
    && m.mode != Unspecified
  }

  ghost predicate FindingProducerContext(c: FindingContext) {
    && IsUuidV7(c.findingId) && HasText(c.severity) && OptionalText(c.confidence) && HasText(c.title)
    && HasText(c.description) && HasText(c.relation) && ValidTimestamp(c.createdAt)
  }

  lemma SignalTypeHasText()
    ensures HasText(SIGNAL_INPUT_TYPE)
  {
  }

  /** An evaluated match becomes a valid Finding exactly when the producer's context is valid. */
  lemma SequenceFindingValidIff(m: SequenceMatch, c: FindingContext)
    requires EvaluatedMatch(m)
    ensures ValidFinding(SequenceFinding(m, c)) <==> FindingProducerContext(c)
  {
    SignalTypeHasText();
    hide HasText, IsUuidV7, ValidTimestamp, TimestampLe;
    var f := SequenceFinding(m, c);
    assert f.inputs[0].relation == c.relation;
    forall i | 0 <= i < |m.signalIds|
      ensures m.signalIds[i] in InputIds(f.inputs)
    {
      assert f.inputs[i].inputId == m.signalIds[i];
    }
    if ValidFindingInputs(f.findingId, f.inputs) {
      assert ValidFindingInput(f.findingId, f.inputs[0]);
    }
  }
}
