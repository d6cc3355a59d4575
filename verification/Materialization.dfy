/** From evaluation to canonical objects: every match of a compiled plan materialises. */
module Materialization {
  import opened Wrappers
  import opened Contracts
  import opened Sorting
  import opened Sequence
  import opened SignalContract
  import opened FindingContract
  import T = ThresholdEvaluation
  import S = SequenceEvaluation

  // ----- THRESHOLD -----

  function ThresholdProvenanceOf(
      ruleId: string, ruleVersion: string, k: T.Key, m: T.Match, at: Timestamp, mode: ExecutionMode)
    : ThresholdProvenance
  {
    ThresholdProvenance(ruleId, ruleVersion, k.0, m.ids, m.first, m.last, at, ClickHouse, mode)
  }

  /** Every THRESHOLD match becomes a valid Signal under every valid producer context, and under no other. */
  lemma EveryThresholdMatchMaterializes(
    plan: T.Plan, events: seq<T.Event>, mode: ExecutionMode, at: Timestamp, policy: T.Policy, k: T.Key,
    ruleId: string, ruleVersion: string, context: SignalContext)
    requires IsDetectionRuleId(ruleId) && HasText(ruleVersion)
    requires T.Evaluated(plan, events, mode, at, policy).Ok? && k in T.Evaluated(plan, events, mode, at, policy).value
    ensures var m := T.Evaluated(plan, events, mode, at, policy).value[k];
            ValidSignal(ThresholdSignal(ThresholdProvenanceOf(ruleId, ruleVersion, k, m, at, mode), context))
            <==> ProducerContext(context, plan.threshold) && plan.threshold <= UINT32_RANGE
  {
    T.MatchesStayInGroup(plan, events, mode, at, policy, k);
    var m := T.Evaluated(plan, events, mode, at, policy).value[k];
    var p := ThresholdProvenanceOf(ruleId, ruleVersion, k, m, at, mode);
    assert ValidTimestamp(at) && mode != Unspecified;
    hide T.Evaluated, IsUuidV7, HasText, ValidTimestamp, ValidSignal;
    forall i | 0 <= i < |m.ids|
      ensures IsUuidV7(m.ids[i]) && IsUuidV7(k.0)
    {
      assert T.MemberOf(policy, events, k, m.ids[i]);
    }
    assert IsUuidV7(m.ids[0]) && IsUuidV7(k.0);
    assert EvaluatedProvenance(p);
    ThresholdSignalValidIff(p, context);
  }

  // ----- SEQUENCE -----

  lemma {:induction false} StageMatched<K>(policy: S.Policy<K>, s: Signal, stages: nat, i: nat)
    requires S.MatchingStages(policy, s, stages).Some? && i in S.MatchingStages(policy, s, stages).value
    ensures i < stages && policy.stageMatches(i, s) == Ok(true)
  {
    if stages != 0 && i in S.MatchingStages(policy, s, stages - 1).value {
      StageMatched(policy, s, stages - 1, i);
    }
  }

  /** A delivered Signal that satisfies stage `i` and belongs to the group `k`. */
  ghost predicate StageOf<K(!new)>(policy: S.Policy<K>, signals: seq<Signal>, k: S.Key, i: nat, id: string) {
    exists s :: s in signals && s.signalId == id && s.tenantId == k.0 && ValidSignal(s)
                && policy.groupKey(s) == Ok(Some(k.1)) && policy.stageMatches(i, s) == Ok(true)
  }

  lemma CandidateStage<K(!new)>(
      policy: S.Policy<K>, stages: nat, signals: seq<Signal>, s: Signal, k: S.Key, c: Candidate<K>, i: nat)
    requires s in signals && ValidSignal(s) && S.Contribution(policy, stages, s) == Ok(Some((k, c))) && i in c.stages
    ensures StageOf(policy, signals, k, i, c.id)
    ensures IsUuidV7(c.id) && IsUuidV7(k.0)
  {
    StageMatched(policy, s, stages, i);
  }

  /** `unique` holds delivered, valid Signals under their identities. */
  ghost predicate Delivered(signals: seq<Signal>, unique: map<string, Signal>) {
    forall id :: id in unique ==> unique[id] in signals && ValidSignal(unique[id]) && unique[id].signalId == id
  }

  lemma UniqueIsDelivered(signals: seq<Signal>, mode: ExecutionMode)
    requires S.Unique(signals, mode).Ok?
    ensures Delivered(signals, S.Unique(signals, mode).value)
  {
    S.UniqueCharacterised(signals, mode);
    hide ValidSignal, S.Consistent;
    var unique := S.Unique(signals, mode).value;
    forall id | id in unique
      ensures ValidSignal(unique[id])
    {
      assert S.Admissible(unique[id], mode);
    }
  }

  lemma EmittedAmong<K(!new)>(
      plan: S.RawPlan, policy: S.Policy<K>, mode: ExecutionMode, unique: map<string, Signal>, keys: set<S.Key>,
      k: S.Key)
    requires S.Ready(plan, policy, unique)
    requires S.EmitAll(plan, policy, mode, unique, keys).Ok? && k in S.EmitAll(plan, policy, mode, unique, keys).value
    ensures S.Emission(plan, policy, mode, unique, k) == Ok(Some(S.EmitAll(plan, policy, mode, unique, keys).value[k]))
  {
    hide S.Ready, S.Emission;
  }

  lemma EvaluatedEmission<K(!new)>(
      plan: S.RawPlan, signals: seq<Signal>, mode: ExecutionMode, policy: S.Policy<K>, k: S.Key)
    returns (unique: map<string, Signal>)
    requires S.Compiled(plan) && StrictOrder(policy.less)
    requires S.Evaluated(plan, signals, mode, policy).Ok? && k in S.Evaluated(plan, signals, mode, policy).value
    ensures Delivered(signals, unique) && S.Ready(plan, policy, unique) && mode != Unspecified
    ensures S.Emission(plan, policy, mode, unique, k) == Ok(Some(S.Evaluated(plan, signals, mode, policy).value[k]))
  {
    hide StrictOrder, S.Emission, S.EmitAll, S.Contribution, S.Unique, ValidSignal;
    unique := S.Unique(signals, mode).value;
    UniqueIsDelivered(signals, mode);
    assert S.Ready(plan, policy, unique);
    assert S.Evaluated(plan, signals, mode, policy) == S.EvaluatedUnique(plan, policy, mode, unique);
    EmittedAmong(plan, policy, mode, unique, S.GroupKeys(policy, plan.stages, unique), k);
  }

  /** The ordered group and the selection behind an emitted match. */
  lemma Emitted<K(!new)>(
      plan: S.RawPlan, policy: S.Policy<K>, mode: ExecutionMode, unique: map<string, Signal>, k: S.Key)
    returns (c: seq<Candidate<K>>, s: Selection)
    requires S.Ready(plan, policy, unique)
    requires S.Emission(plan, policy, mode, unique, k).Ok? && S.Emission(plan, policy, mode, unique, k).value.Some?
    ensures S.Compiled(plan) && StrictOrder(policy.less)
    ensures |s.picked| == plan.stages && s.first <= s.last && Covers(policy.less, c, s.picked)
    ensures Partial(policy.less, c, plan.window, s)
    ensures S.Emission(plan, policy, mode, unique, k) == S.MatchOf(plan, mode, k, c, s)
    ensures S.DistinctIds(S.GroupOf(policy, plan.stages, unique, k))
    ensures forall x :: x in c <==> x in S.GroupOf(policy, plan.stages, unique, k)
  {
    var group := S.GroupOf(policy, plan.stages, unique, k);
    S.GroupIdsDistinct(policy, plan.stages, unique, k);
    S.OrderedIsSorted(policy.less, group);
    S.OrderedKeysAscend(policy.less, group);
    c := S.Ordered(policy.less, group);
    SelectIsSound(policy.less, c, plan.stages, plan.window);
    s := Select(policy.less, c, plan.stages, plan.window, 0).value;
  }

  /**
   * A match draws its i-th Signal from the delivered ones of its own tenant and join key, satisfying
   * stage i, and repeats none; its window is ordered.
   */
  lemma SequenceMatchMembers<K(!new)>(
      plan: S.RawPlan, signals: seq<Signal>, mode: ExecutionMode, policy: S.Policy<K>, k: S.Key)
    requires S.Compiled(plan) && StrictOrder(policy.less)
    requires S.Evaluated(plan, signals, mode, policy).Ok? && k in S.Evaluated(plan, signals, mode, policy).value
    ensures var m := S.Evaluated(plan, signals, mode, policy).value[k];
            && |m.signalIds| == plan.stages && m.tenantId == k.0
            && (forall i: nat :: i < |m.signalIds| ==> StageOf(policy, signals, k, i, m.signalIds[i]))
            && EvaluatedMatch(m)
  {
    var m := S.Evaluated(plan, signals, mode, policy).value[k];
    var unique := EvaluatedEmission(plan, signals, mode, policy, k);
    EmissionMembers(plan, signals, mode, policy, k, unique, m);
  }

  lemma EmissionMembers<K(!new)>(
    plan: S.RawPlan, signals: seq<Signal>, mode: ExecutionMode, policy: S.Policy<K>, k: S.Key,
    unique: map<string, Signal>, m: SequenceMatch)
    requires Delivered(signals, unique) && S.Ready(plan, policy, unique) && mode != Unspecified
    requires S.Emission(plan, policy, mode, unique, k) == Ok(Some(m))
    ensures |m.signalIds| == plan.stages && m.tenantId == k.0
    ensures forall i: nat :: i < |m.signalIds| ==> StageOf(policy, signals, k, i, m.signalIds[i])
    ensures EvaluatedMatch(m)
  {
    hide S.Emission, S.Ready, S.GroupOf, S.DistinctIds, S.MatchOf, StrictOrder, Delivered, EvaluatedMatch, StageOf;
    var c, s := Emitted(plan, policy, mode, unique, k);
    PickedMembers(plan, signals, policy, k, unique, c, s);
    PickedIdsDistinct(policy, plan, unique, k, c, s);
    MatchIsEvaluated(plan, mode, k, c, s, m);
  }

  lemma PickedMembers<K(!new)>(
    plan: S.RawPlan, signals: seq<Signal>, policy: S.Policy<K>, k: S.Key, unique: map<string, Signal>,
    c: seq<Candidate<K>>, s: Selection)
    requires Delivered(signals, unique) && Covers(policy.less, c, s.picked) && s.picked != []
    requires forall x :: x in c ==> x in S.GroupOf(policy, plan.stages, unique, k)
    ensures forall i: nat :: i < |s.picked| ==> s.picked[i] < |c| && StageOf(policy, signals, k, i, c[s.picked[i]].id)
    ensures IsUuidV7(k.0) && forall i :: 0 <= i < |s.picked| ==> IsUuidV7(c[s.picked[i]].id)
  {
    hide S.GroupOf, Delivered, StageOf, IsUuidV7;
    forall i: nat | i < |s.picked|
      ensures StageOf(policy, signals, k, i, c[s.picked[i]].id)
      ensures IsUuidV7(c[s.picked[i]].id) && IsUuidV7(k.0)
    {
      MemberStage(policy, plan.stages, signals, unique, k, c[s.picked[i]], i);
    }
    assert IsUuidV7(c[s.picked[0]].id) && IsUuidV7(k.0);
  }

  lemma MemberStage<K(!new)>(
      policy: S.Policy<K>, stages: nat, signals: seq<Signal>, unique: map<string, Signal>, k: S.Key, c: Candidate<K>,
      i: nat)
    requires Delivered(signals, unique) && c in S.GroupOf(policy, stages, unique, k) && i in c.stages
    ensures StageOf(policy, signals, k, i, c.id)
    ensures IsUuidV7(c.id) && IsUuidV7(k.0)
  {
    S.GroupIdsDistinct(policy, stages, unique, k);
    hide S.Contribution, ValidSignal, IsUuidV7, StageOf;
    CandidateStage(policy, stages, signals, unique[c.id], k, c, i);
  }

  lemma MatchIsEvaluated<K>(
      plan: S.RawPlan, mode: ExecutionMode, k: S.Key, c: seq<Candidate<K>>, s: Selection, m: SequenceMatch)
    requires S.Compiled(plan) && mode != Unspecified && s.first <= s.last
    requires s.picked != [] && forall i :: 0 <= i < |s.picked| ==> s.picked[i] < |c|
    requires S.MatchOf(plan, mode, k, c, s) == Ok(Some(m))
    requires IsUuidV7(k.0) && forall i :: 0 <= i < |s.picked| ==> IsUuidV7(c[s.picked[i]].id)
    requires forall i, j :: 0 <= i < j < |s.picked| ==> c[s.picked[i]].id != c[s.picked[j]].id
    ensures EvaluatedMatch(m) && m.tenantId == k.0 && |m.signalIds| == |s.picked|
    ensures forall i :: 0 <= i < |s.picked| ==> m.signalIds[i] == c[s.picked[i]].id
  {
    MillisSplit(s.first, s.last);
    hide IsUuidV7, HasText, ValidTimestamp, TimestampLe, TimestampFromMillis;
  }

  // ----- what a match says -----

  /** The Signal satisfies stage `i` of the group `k`, at this time and order key. */
  ghost predicate Stands<K>(policy: S.Policy<K>, k: S.Key, i: nat, s: Signal, time: int, key: K) {
    && s.tenantId == k.0 && policy.groupKey(s) == Ok(Some(k.1)) && policy.stageMatches(i, s) == Ok(true)
    && policy.time(s) == Ok(Some(time)) && policy.orderKey(s) == Ok(Some(key))
  }

  lemma CandidateTells<K>(
      policy: S.Policy<K>, stages: nat, s: Signal, k: S.Key, c: Candidate<K>, i: nat)
    requires S.Contribution(policy, stages, s) == Ok(Some((k, c))) && i in c.stages
    ensures Stands(policy, k, i, s, c.time, c.key) && c.id == s.signalId
  {
    StageMatched(policy, s, stages, i);
  }

  /** `picks` are delivered Signals, one per stage in order, with these times and ascending order keys. */
  ghost predicate Sequenced<K(!new)>(
      policy: S.Policy<K>, signals: seq<Signal>, k: S.Key, picks: seq<Signal>, times: seq<int>, keys: seq<K>) {
    && |picks| == |times| == |keys|
    && (forall i: nat | i < |picks| :: picks[i] in signals && Stands(policy, k, i, picks[i], times[i], keys[i]))
    && (forall i, j | 0 <= i < j < |keys| :: policy.less(keys[i], keys[j]))
  }

  /** The least and the greatest of the times. */
  ghost predicate Bounds(times: seq<int>, first: int, last: int) {
    (forall i | 0 <= i < |times| :: first <= times[i] <= last) && first in times && last in times
  }

  /** The plan's own rule, under the evaluation's mode. */
  predicate OfPlan(m: SequenceMatch, plan: S.RawPlan, mode: ExecutionMode) {
    && m.ruleId == plan.ruleId && m.ruleVersion == plan.ruleVersion && m.configurationHash == plan.configurationHash
    && m.backend == plan.backend && m.mode == mode
  }

  function TimesOf<K>(c: seq<Candidate<K>>, picked: seq<nat>): (r: seq<int>)
    requires forall i :: 0 <= i < |picked| ==> picked[i] < |c|
    ensures |r| == |picked| && forall i :: 0 <= i < |picked| ==> r[i] == c[picked[i]].time
  {
    seq(|picked|, i requires 0 <= i < |picked| => c[picked[i]].time)
  }

  function KeysOf<K>(c: seq<Candidate<K>>, picked: seq<nat>): (r: seq<K>)
    requires forall i :: 0 <= i < |picked| ==> picked[i] < |c|
    ensures |r| == |picked| && forall i :: 0 <= i < |picked| ==> r[i] == c[picked[i]].key
  {
    seq(|picked|, i requires 0 <= i < |picked| => c[picked[i]].key)
  }

  function SignalsOf<K>(c: seq<Candidate<K>>, picked: seq<nat>, unique: map<string, Signal>): (r: seq<Signal>)
    requires forall i :: 0 <= i < |picked| ==> picked[i] < |c| && c[picked[i]].id in unique
    ensures |r| == |picked| && forall i :: 0 <= i < |picked| ==> r[i] == unique[c[picked[i]].id]
  {
    seq(|picked|, i requires 0 <= i < |picked| => unique[c[picked[i]].id])
  }

  lemma PickedBounds<K(!new)>(less: (K, K) -> bool, c: seq<Candidate<K>>, window: int, s: Selection)
    requires Partial(less, c, window, s)
    ensures Bounds(TimesOf(c, s.picked), s.first, s.last)
  {
    var lo :| 0 <= lo < |s.picked| && c[s.picked[lo]].time == s.first;
    var hi :| 0 <= hi < |s.picked| && c[s.picked[hi]].time == s.last;
    var times := TimesOf(c, s.picked);
    assert times[lo] == s.first && times[hi] == s.last;
  }

  /** `c` lists candidates of the group `k`, each the contribution of its own Signal. */
  ghost predicate FromSignals<K(!new)>(
      policy: S.Policy<K>, stages: nat, unique: map<string, Signal>, k: S.Key, c: seq<Candidate<K>>) {
    forall x :: x in c ==> x.id in unique && S.Contribution(policy, stages, unique[x.id]) == Ok(Some((k, x)))
  }

  lemma PickStands<K(!new)>(
      policy: S.Policy<K>, stages: nat, signals: seq<Signal>, unique: map<string, Signal>, k: S.Key,
      c: seq<Candidate<K>>, n: nat, i: nat)
    requires Delivered(signals, unique) && FromSignals(policy, stages, unique, k, c) && n < |c| && i in c[n].stages
    ensures c[n].id in unique && unique[c[n].id] in signals && unique[c[n].id].signalId == c[n].id
    ensures Stands(policy, k, i, unique[c[n].id], c[n].time, c[n].key)
  {
    hide S.Contribution, ValidSignal, Stands;
    assert c[n] in c;
    CandidateTells(policy, stages, unique[c[n].id], k, c[n], i);
  }

  lemma PickedSignals<K(!new)>(
    plan: S.RawPlan, signals: seq<Signal>, policy: S.Policy<K>, k: S.Key, unique: map<string, Signal>,
    c: seq<Candidate<K>>, s: Selection)
    returns (picks: seq<Signal>)
    requires Delivered(signals, unique) && Covers(policy.less, c, s.picked)
    requires FromSignals(policy, plan.stages, unique, k, c)
    ensures |picks| == |s.picked|
    ensures Sequenced(policy, signals, k, picks, TimesOf(c, s.picked), KeysOf(c, s.picked))
    ensures forall i | 0 <= i < |picks| :: picks[i].signalId == c[s.picked[i]].id
  {
    hide Stands, FromSignals, Delivered;
    forall i: nat | i < |s.picked|
      ensures c[s.picked[i]].id in unique && unique[c[s.picked[i]].id] in signals
      ensures unique[c[s.picked[i]].id].signalId == c[s.picked[i]].id
      ensures Stands(policy, k, i, unique[c[s.picked[i]].id], c[s.picked[i]].time, c[s.picked[i]].key)
    {
      PickStands(policy, plan.stages, signals, unique, k, c, s.picked[i], i);
    }
    picks := SignalsOf(c, s.picked, unique);
  }

  /**
   * A match is its plan's, and tells delivered Signals of its tenant and join key, the i-th of which
   * satisfies stage i, in ascending order keys; it runs from the least of their times to the
   * greatest, which lie within the window.
   */
  lemma SequenceMatchTells<K(!new)>(
      plan: S.RawPlan, signals: seq<Signal>, mode: ExecutionMode, policy: S.Policy<K>, k: S.Key)
    returns (picks: seq<Signal>, times: seq<int>, keys: seq<K>, first: int, last: int)
    requires S.Compiled(plan) && StrictOrder(policy.less)
    requires S.Evaluated(plan, signals, mode, policy).Ok? && k in S.Evaluated(plan, signals, mode, policy).value
    ensures var m := S.Evaluated(plan, signals, mode, policy).value[k];
            && OfPlan(m, plan, mode) && m.tenantId == k.0
            && |picks| == plan.stages == |m.signalIds|
            && (forall i | 0 <= i < |picks| :: picks[i].signalId == m.signalIds[i])
            && Sequenced(policy, signals, k, picks, times, keys)
            && Bounds(times, first, last) && last - first <= plan.window
            && m.windowStart == TimestampFromMillis(first) && m.windowEnd == TimestampFromMillis(last)
  {
    hide S.Evaluated, S.Emission, S.Ready, S.GroupOf, S.DistinctIds, S.Contribution, StrictOrder, Delivered, Sequenced,
      Bounds, FromSignals, TimestampFromMillis, ValidTimestamp;
    var unique := EvaluatedEmission(plan, signals, mode, policy, k);
    var c, s := Emitted(plan, policy, mode, unique, k);
    IndexedGroup(plan, policy, unique, k, c);
    picks := PickedSignals(plan, signals, policy, k, unique, c, s);
    times, keys := TimesOf(c, s.picked), KeysOf(c, s.picked);
    PickedBounds(policy.less, c, plan.window, s);
    first, last := s.first, s.last;
  }

  lemma IndexedGroup<K(!new)>(
      plan: S.RawPlan, policy: S.Policy<K>, unique: map<string, Signal>, k: S.Key, c: seq<Candidate<K>>)
    requires S.Ready(plan, policy, unique) && forall x :: x in c <==> x in S.GroupOf(policy, plan.stages, unique, k)
    ensures FromSignals(policy, plan.stages, unique, k, c)
  {
    hide S.Contribution, S.GroupOf, StrictOrder;
    S.GroupIdsDistinct(policy, plan.stages, unique, k);
  }

  lemma PickedIdsDistinct<K(!new)>(
      policy: S.Policy<K>, plan: S.RawPlan, unique: map<string, Signal>, k: S.Key, c: seq<Candidate<K>>, s: Selection)
    requires StrictOrder(policy.less) && Covers(policy.less, c, s.picked)
    requires S.DistinctIds(S.GroupOf(policy, plan.stages, unique, k))
    requires forall x :: x in c <==> x in S.GroupOf(policy, plan.stages, unique, k)
    ensures forall i, j :: 0 <= i < j < |s.picked| ==> c[s.picked[i]].id != c[s.picked[j]].id
  {
    forall i, j | 0 <= i < j < |s.picked|
      ensures c[s.picked[i]].id != c[s.picked[j]].id
    {
      var x, y := c[s.picked[i]], c[s.picked[j]];
      assert x in c && y in c;
      assert policy.less(x.key, y.key);
    }
  }

  /** Every SEQUENCE match becomes a valid Finding under every valid producer context, and under no other. */
  lemma EverySequenceMatchMaterializes<K(!new)>(
    plan: S.RawPlan, signals: seq<Signal>, mode: ExecutionMode, policy: S.Policy<K>, k: S.Key, context: FindingContext)
    requires S.Compiled(plan) && StrictOrder(policy.less)
    requires S.Evaluated(plan, signals, mode, policy).Ok? && k in S.Evaluated(plan, signals, mode, policy).value
    ensures ValidFinding(SequenceFinding(S.Evaluated(plan, signals, mode, policy).value[k], context))
            <==> FindingProducerContext(context)
  {
    SequenceMatchMembers(plan, signals, mode, policy, k);
    SequenceFindingValidIff(S.Evaluated(plan, signals, mode, policy).value[k], context);
  }

  // ----- the batch runtime's policy -----

  /** The runtime orders Signals by observation time and then identity. */
  ghost predicate ObservedPolicy(policy: S.Policy<ObservedKey>) {
    && policy.less == ObservedLess
    && forall s :: policy.orderKey(s) == match policy.time(s)
                                         case Err(e) => Err(e)
                                         case Ok(None) => Ok(None)
                                         case Ok(Some(millis)) => Ok(Some((millis, s.signalId)))
  }

  lemma ObservedKeyOf(policy: S.Policy<ObservedKey>, stages: nat, s: Signal, k: S.Key, c: Candidate<ObservedKey>)
    requires ObservedPolicy(policy) && S.Contribution(policy, stages, s) == Ok(Some((k, c)))
    ensures c.key.0 == c.time
  {
  }

  lemma ObservedGroup(
      policy: S.Policy<ObservedKey>, stages: nat, unique: map<string, Signal>, k: S.Key, c: seq<Candidate<ObservedKey>>)
    requires ObservedPolicy(policy) && forall id :: id in unique ==> unique[id].signalId == id
    requires forall x :: x in c ==> x in S.GroupOf(policy, stages, unique, k)
    ensures TimeMonotone(policy.less, c)
  {
    S.GroupIdsDistinct(policy, stages, unique, k);
    hide S.Contribution;
    forall i | 0 <= i < |c|
      ensures c[i].key.0 == c[i].time
    {
      assert c[i] in c;
      ObservedKeyOf(policy, stages, unique[c[i].id], k, c[i]);
    }
    ObservedKeysAreTimeMonotone(c);
  }

  lemma SilentIffUnselected<K(!new)>(
      plan: S.RawPlan, less: (K, K) -> bool, mode: ExecutionMode, k: S.Key, c: seq<Candidate<K>>)
    requires S.Compiled(plan) && StrictOrder(less) && KeysAscend(less, c)
    ensures S.EmitGroup(plan, less, mode, k, c) != Ok(None) <==> Select(less, c, plan.stages, plan.window, 0).Some?
  {
    hide StrictOrder, KeysAscend, Select, Chain;
  }

  lemma EmissionIsOfOrdered<K(!new)>(
      plan: S.RawPlan, policy: S.Policy<K>, mode: ExecutionMode, unique: map<string, Signal>, k: S.Key)
    returns (c: seq<Candidate<K>>)
    requires S.Ready(plan, policy, unique)
    ensures c == S.Ordered(policy.less, S.GroupOf(policy, plan.stages, unique, k)) && KeysAscend(policy.less, c)
    ensures forall x :: x in c ==> x in S.GroupOf(policy, plan.stages, unique, k)
    ensures S.Emission(plan, policy, mode, unique, k) == S.EmitGroup(plan, policy.less, mode, k, c)
  {
    var group := S.GroupOf(policy, plan.stages, unique, k);
    S.GroupIdsDistinct(policy, plan.stages, unique, k);
    S.OrderedIsSorted(policy.less, group);
    S.OrderedKeysAscend(policy.less, group);
    c := S.Ordered(policy.less, group);
  }

  lemma GroupEmitsIffChain(
      plan: S.RawPlan, policy: S.Policy<ObservedKey>, mode: ExecutionMode, unique: map<string, Signal>, k: S.Key)
    requires S.Ready(plan, policy, unique) && ObservedPolicy(policy)
    ensures S.Emission(plan, policy, mode, unique, k) != Ok(None) <==>
            exists q :: Chain(policy.less, S.Ordered(policy.less, S.GroupOf(policy, plan.stages, unique, k)),
              plan.stages, plan.window, q)
  {
    var c := EmissionIsOfOrdered(plan, policy, mode, unique, k);
    ObservedGroup(policy, plan.stages, unique, k, c);
    hide ObservedPolicy, TimeMonotone, NoTraps, KeysAscend, StrictOrder, S.Emission, S.EmitGroup, S.Ordered, S.GroupOf,
      Chain, Select;
    SilentIffUnselected(plan, policy.less, mode, k, c);
    MonotoneHasNoTraps(policy.less, c);
    SelectsIffChainExists(policy.less, c, plan.stages, plan.window);
  }

  /** The runtime's evaluation: its ordering is a strict order, so nothing is asked of the policy but its shape. */
  ghost function RuntimeEvaluated(
      plan: S.RawPlan, signals: seq<Signal>, mode: ExecutionMode, policy: S.Policy<ObservedKey>)
    : Result<map<S.Key, SequenceMatch>, S.Error>
    requires S.Compiled(plan) && ObservedPolicy(policy)
  {
    ObservedOrder();
    S.Evaluated(plan, signals, mode, policy)
  }

  function TimeOf(policy: S.Policy<ObservedKey>, s: Signal): Option<int> {
    match policy.time(s)
    case Ok(Some(millis)) => Some(millis)
    case _ => None
  }

  /** A delivered Signal of the group `k` that satisfies stage `i` and carries a time. */
  ghost predicate TakesStage(policy: S.Policy<ObservedKey>, signals: seq<Signal>, k: S.Key, i: nat, s: Signal) {
    && s in signals && s.tenantId == k.0 && policy.groupKey(s) == Ok(Some(k.1))
    && policy.stageMatches(i, s) == Ok(true) && TimeOf(policy, s).Some?
  }

  /** One delivered Signal per stage, in ascending (time, id) order, all within the window. */
  ghost predicate QualifyingSignals(
      plan: S.RawPlan, policy: S.Policy<ObservedKey>, signals: seq<Signal>, k: S.Key, picks: seq<Signal>) {
    && |picks| == plan.stages
    && (forall i: nat | i < |picks| :: TakesStage(policy, signals, k, i, picks[i]))
    && (forall i, j | 0 <= i < j < |picks| :: Follows(policy, picks[i], picks[j]))
    && (forall i, j | 0 <= i < |picks| && 0 <= j < |picks| :: Near(policy, plan.window, picks[i], picks[j]))
  }

  predicate Follows(policy: S.Policy<ObservedKey>, a: Signal, b: Signal) {
    && TimeOf(policy, a).Some? && TimeOf(policy, b).Some?
    && ObservedLess((TimeOf(policy, a).value, a.signalId), (TimeOf(policy, b).value, b.signalId))
  }

  predicate Near(policy: S.Policy<ObservedKey>, window: int, a: Signal, b: Signal) {
    && TimeOf(policy, a).Some? && TimeOf(policy, b).Some?
    && TimeOf(policy, a).value - TimeOf(policy, b).value <= window
  }

  lemma {:induction false} StageListed<K>(policy: S.Policy<K>, s: Signal, stages: nat, i: nat)
    requires S.MatchingStages(policy, s, stages).Some? && i < stages && policy.stageMatches(i, s) == Ok(true)
    ensures i in S.MatchingStages(policy, s, stages).value
  {
    if i < stages - 1 {
      StageListed(policy, s, stages - 1, i);
    }
  }

  /** The candidate of a Signal that takes a stage. */
  lemma CandidateOf(policy: S.Policy<ObservedKey>, stages: nat, signals: seq<Signal>, s: Signal, k: S.Key, i: nat)
    returns (c: Candidate<ObservedKey>)
    requires ObservedPolicy(policy) && i < stages && TakesStage(policy, signals, k, i, s)
    requires S.Contribution(policy, stages, s).Ok?
    ensures S.Contribution(policy, stages, s) == Ok(Some((k, c)))
    ensures c.id == s.signalId && i in c.stages && TimeOf(policy, s) == Some(c.time) && c.key == (c.time, s.signalId)
  {
    StageListed(policy, s, stages, i);
    c := S.Contribution(policy, stages, s).value.value.1;
  }

  /** And back: what a candidate says of the Signal behind it. */
  lemma SignalOf(
      policy: S.Policy<ObservedKey>, stages: nat, signals: seq<Signal>, s: Signal, k: S.Key,
      c: Candidate<ObservedKey>, i: nat)
    requires ObservedPolicy(policy) && s in signals && S.Contribution(policy, stages, s) == Ok(Some((k, c)))
      && i in c.stages
    ensures TakesStage(policy, signals, k, i, s) && TimeOf(policy, s) == Some(c.time) && c.key == (c.time, s.signalId)
  {
    StageMatched(policy, s, stages, i);
  }

  /** `c` lists the candidates of the group `k`, each from the Signal of its identity. */
  ghost predicate ListsGroup(
    policy: S.Policy<ObservedKey>, stages: nat, unique: map<string, Signal>, k: S.Key, c: seq<Candidate<ObservedKey>>)
  {
    forall x :: x in c <==> x.id in unique && S.Contribution(policy, stages, unique[x.id]) == Ok(Some((k, x)))
  }

  lemma ChainPicks(
    plan: S.RawPlan, policy: S.Policy<ObservedKey>, signals: seq<Signal>, unique: map<string, Signal>, k: S.Key,
    c: seq<Candidate<ObservedKey>>, q: seq<nat>) returns (picks: seq<Signal>)
    requires ObservedPolicy(policy) && S.IsIndex(signals, unique) && ListsGroup(policy, plan.stages, unique, k, c)
    requires Chain(ObservedLess, c, plan.stages, plan.window, q)
    ensures QualifyingSignals(plan, policy, signals, k, picks)
  {
    forall i | 0 <= i < |q|
      ensures c[q[i]].id in unique
    {
      assert c[q[i]] in c;
    }
    picks := seq(|q|, i requires 0 <= i < |q| => unique[c[q[i]].id]);
    hide S.Contribution, TakesStage, ObservedLess, TimeOf;
    forall i: nat | i < |q|
      ensures TakesStage(policy, signals, k, i, picks[i])
      ensures TimeOf(policy, picks[i]) == Some(c[q[i]].time) && c[q[i]].key == (c[q[i]].time, picks[i].signalId)
    {
      assert c[q[i]] in c;
      SignalOf(policy, plan.stages, signals, picks[i], k, c[q[i]], i);
    }
  }

  lemma PicksChain(
    plan: S.RawPlan, policy: S.Policy<ObservedKey>, signals: seq<Signal>, unique: map<string, Signal>, k: S.Key,
    c: seq<Candidate<ObservedKey>>, picks: seq<Signal>) returns (q: seq<nat>)
    requires ObservedPolicy(policy) && S.IsIndex(signals, unique) && ListsGroup(policy, plan.stages, unique, k, c)
    requires forall id :: id in unique ==> S.Contribution(policy, plan.stages, unique[id]).Ok?
    requires QualifyingSignals(plan, policy, signals, k, picks)
    ensures Chain(ObservedLess, c, plan.stages, plan.window, q)
  {
    hide S.Contribution, ObservedLess, TimeOf;
    q := [];
    while |q| < |picks|
      invariant |q| <= |picks|
      invariant forall i :: 0 <= i < |q| ==> q[i] < |c| && StandsFor(policy, c[q[i]], picks[i], i)
    {
      var i := |q|;
      assert TakesStage(policy, signals, k, i, picks[i]);
      var x := CandidateOf(policy, plan.stages, signals, picks[i], k, i);
      assert x in c;
      var j :| 0 <= j < |c| && c[j] == x;
      q := q + [j];
    }
    forall i, j | 0 <= i < j < |q|
      ensures ObservedLess(c[q[i]].key, c[q[j]].key)
    {
      assert Follows(policy, picks[i], picks[j]);
    }
    forall i, j | 0 <= i < |q| && 0 <= j < |q|
      ensures c[q[i]].time - c[q[j]].time <= plan.window
    {
      assert Near(policy, plan.window, picks[i], picks[j]);
    }
  }

  /** The candidate stands for the Signal at stage `i`. */
  ghost predicate StandsFor(policy: S.Policy<ObservedKey>, x: Candidate<ObservedKey>, s: Signal, i: nat) {
    i in x.stages && TimeOf(policy, s) == Some(x.time) && x.key == (x.time, s.signalId)
  }

  lemma EvaluatedGroup(
      plan: S.RawPlan, signals: seq<Signal>, mode: ExecutionMode, policy: S.Policy<ObservedKey>, k: S.Key)
    returns (unique: map<string, Signal>)
    requires S.Compiled(plan) && ObservedPolicy(policy) && RuntimeEvaluated(plan, signals, mode, policy).Ok?
    ensures S.Ready(plan, policy, unique) && S.IsIndex(signals, unique)
    ensures forall id :: id in unique ==> S.Contribution(policy, plan.stages, unique[id]).Ok?
    ensures k in RuntimeEvaluated(plan, signals, mode, policy).value <==>
            k in S.GroupKeys(policy, plan.stages, unique) && S.Emission(plan, policy, mode, unique, k) != Ok(None)
  {
    ObservedOrder();
    assert StrictOrder(policy.less);
    hide StrictOrder, S.Emission, S.Contribution, S.Unique, S.GroupKeys, ObservedPolicy;
    unique := S.Unique(signals, mode).value;
    S.UniqueCharacterised(signals, mode);
    assert S.Ready(plan, policy, unique);
    assert RuntimeEvaluated(plan, signals, mode, policy) == S.EvaluatedUnique(plan, policy, mode, unique);
  }

  lemma InGroupKeys<K(!new)>(policy: S.Policy<K>, stages: nat, unique: map<string, Signal>, k: S.Key, c: Candidate<K>)
    requires c in S.GroupOf(policy, stages, unique, k)
    ensures k in S.GroupKeys(policy, stages, unique)
  {
    hide S.Contribution;
  }

  /**
   * Under the runtime's policy a group is reported if and only if the delivered Signals hold a
   * qualifying sequence for it: one per stage, in ascending (time, id) order, within the window.
   */
  lemma RuntimeReportsIffSequence(
      plan: S.RawPlan, signals: seq<Signal>, mode: ExecutionMode, policy: S.Policy<ObservedKey>, k: S.Key)
    requires S.Compiled(plan) && ObservedPolicy(policy) && RuntimeEvaluated(plan, signals, mode, policy).Ok?
    ensures k in RuntimeEvaluated(plan, signals, mode, policy).value <==>
            exists picks :: QualifyingSignals(plan, policy, signals, k, picks)
  {
    var unique := EvaluatedGroup(plan, signals, mode, policy, k);
    var c := EmissionIsOfOrdered(plan, policy, mode, unique, k);
    var group := S.GroupOf(policy, plan.stages, unique, k);
    S.GroupIdsDistinct(policy, plan.stages, unique, k);
    S.OrderedIsSorted(policy.less, group);
    GroupEmitsIffChain(plan, policy, mode, unique, k);
    hide RuntimeEvaluated, S.Contribution, S.GroupOf, S.GroupKeys, S.Emission, S.Ordered, Chain, QualifyingSignals,
      KeysAscend;
    assert ListsGroup(policy, plan.stages, unique, k, c);
    if q :| Chain(policy.less, c, plan.stages, plan.window, q) {
      var picks := ChainPicks(plan, policy, signals, unique, k, c, q);
    }
    if picks :| QualifyingSignals(plan, policy, signals, k, picks) {
      var q := PicksChain(plan, policy, signals, unique, k, c, picks);
      ChainStarts(plan, policy, c, q);
      InGroupKeys(policy, plan.stages, unique, k, c[0]);
    }
  }

  lemma ChainStarts(plan: S.RawPlan, policy: S.Policy<ObservedKey>, c: seq<Candidate<ObservedKey>>, q: seq<nat>)
    requires S.Compiled(plan) && Chain(policy.less, c, plan.stages, plan.window, q)
    ensures c != [] && c[0] in c
  {
    assert q[0] < |c|;
  }
}
