/** Bounded SEQUENCE correlation of one set of canonical Signals. */
module SequenceEvaluation {
  import opened Wrappers
  import opened Contracts
  import opened Sorting
  import opened Sequence
  import opened SignalContract
  import opened FindingContract

  /** The rule-owned questions; every answer may be an error. */
  datatype Policy<!K> = Policy(
    stageMatches: (nat, Signal) -> Result<bool, string>,
    groupKey: Signal -> Result<Option<string>, string>,
    time: Signal -> Result<Option<int>, string>,
    orderKey: Signal -> Result<Option<K>, string>,
    less: (K, K) -> bool)

  datatype RawPlan = RawPlan(
    ruleId: string, ruleVersion: string, configurationHash: string, stages: nat, window: nat, backend: Backend)

  /** What compilation lets through. */
  predicate Compiled(p: RawPlan) {
    && HasText(p.ruleId) && HasText(p.ruleVersion) && HasText(p.configurationHash)
    && 1 <= p.stages && 1 <= p.window <= MAX_INT64 && p.backend == ClickHouse
  }

  datatype Error = PolicyError | InvalidInput | UnspecifiedExecutionMode

  type Key = (string, string)

  // ----- duplicate deliveries -----

  /** Identities seen so far; a repeated identity must repeat the whole Signal. */
  ghost function Unique(signals: seq<Signal>, mode: ExecutionMode): Result<map<string, Signal>, Error> {
    if signals == [] then Ok(map[])
    else
      var n := |signals| - 1;
      var unique :- Unique(signals[..n], mode);
      var s := signals[n];
      if !ValidSignal(s) || s.executionMode != ModeNumber(mode) then Err(InvalidInput)
      else if s.signalId in unique then if unique[s.signalId] == s then Ok(unique) else Err(InvalidInput)
      else Ok(unique[s.signalId := s])
  }

  lemma {:induction false} UniqueErrorPersists(signals: seq<Signal>, mode: ExecutionMode, n: nat)
    requires n <= |signals| && Unique(signals[..n], mode).Err?
    ensures Unique(signals, mode).Err?
    decreases |signals|
  {
    if n == |signals| {
      assert signals[..n] == signals;
    } else {
      var front := signals[..|signals| - 1];
      assert front[..n] == signals[..n];
      UniqueErrorPersists(front, mode, n);
    }
  }

  method ValidateUniqueSignals(
      signals: seq<Signal>, mode: ExecutionMode)
    returns (r: Result<map<string, Signal>, Error>)
    ensures r == Unique(signals, mode)
  {
    hide ValidSignal;
    var unique: map<string, Signal> := map[];
    for n := 0 to |signals|
      invariant Unique(signals[..n], mode) == Ok(unique)
    {
      var s := signals[n];
      assert signals[..n + 1][..n] == signals[..n];
      var valid := ValidateSignal(s);
      if !valid || s.executionMode != ModeNumber(mode) || (s.signalId in unique && unique[s.signalId] != s) {
        UniqueErrorPersists(signals, mode, n + 1);
        UniqueErrors(signals, mode);
        return Err(InvalidInput);
      }
      if s.signalId !in unique {
        unique := unique[s.signalId := s];
      }
    }
    assert signals[..|signals|] == signals;
    return Ok(unique);
  }

  lemma {:induction false} UniqueErrors(signals: seq<Signal>, mode: ExecutionMode)
    ensures Unique(signals, mode).Err? ==> Unique(signals, mode).error == InvalidInput
  {
    if signals != [] {
      UniqueErrors(signals[..|signals| - 1], mode);
    }
  }

  ghost predicate Admissible(s: Signal, mode: ExecutionMode) {
    ValidSignal(s) && s.executionMode == ModeNumber(mode)
  }

  ghost predicate Consistent(signals: seq<Signal>) {
    forall x, y :: x in signals && y in signals && x.signalId == y.signalId ==> x == y
  }

  /** Deduplication succeeds exactly on admissible, consistent deliveries, and keeps each Signal once. */
  lemma {:induction false} UniqueCharacterised(signals: seq<Signal>, mode: ExecutionMode)
    ensures Unique(signals, mode).Ok? <==> Consistent(signals) && forall s :: s in signals ==> Admissible(s, mode)
    ensures Unique(signals, mode).Ok? ==>
              IsIndex(signals, Unique(signals, mode).value)
  {
    hide Admissible;
    if signals != [] {
      var n := |signals| - 1;
      var front, s := signals[..n], signals[n];
      assert signals == front + [s];
      UniqueCharacterised(front, mode);
      UniqueStep(signals, mode);
      FrontOf(front, s, mode);
      hide Unique, Consistent;
      if Unique(front, mode).Ok? {
        IndexStep(front, s, Unique(front, mode).value);
      }
    }
  }

  lemma UniqueStep(signals: seq<Signal>, mode: ExecutionMode)
    requires signals != []
    ensures var n := |signals| - 1;
            var front, s := Unique(signals[..n], mode), signals[n];
            Unique(signals, mode) ==
            if front.Err? then front
            else if !Admissible(s, mode) || (s.signalId in front.value && front.value[s.signalId] != s) then
              Err(InvalidInput)
            else Ok(front.value[s.signalId := s])
  {
    hide ValidSignal;
    var n := |signals| - 1;
    var front, s := Unique(signals[..n], mode), signals[n];
    if front.Ok? && s.signalId in front.value && front.value[s.signalId] == s {
      assert front.value[s.signalId := s] == front.value;
    }
  }

  /** A longer delivery is consistent and admissible exactly when its front and its last Signal fit. */
  lemma FrontOf(front: seq<Signal>, s: Signal, mode: ExecutionMode)
    ensures var signals := front + [s];
            Consistent(signals) && (forall x :: x in signals ==> Admissible(x, mode)) <==>
            && Consistent(front) && (forall x :: x in front ==> Admissible(x, mode)) && Admissible(s, mode)
            && (forall x :: x in front && x.signalId == s.signalId ==> x == s)
  {
    hide Admissible;
    assert forall x :: x in front + [s] <==> x in front || x == s;
  }

  lemma IndexStep(front: seq<Signal>, s: Signal, unique: map<string, Signal>)
    requires IsIndex(front, unique)
    ensures (s.signalId in unique && unique[s.signalId] != s) <==>
      exists x :: x in front && x.signalId == s.signalId && x != s
    ensures !(s.signalId in unique && unique[s.signalId] != s) ==> IsIndex(front + [s], unique[s.signalId := s])
  {
    assert forall x :: x in front + [s] <==> x in front || x == s;
    if s.signalId in unique && unique[s.signalId] != s {
      assert unique[s.signalId] in front;
    }
  }

  lemma UniqueIgnoresDelivery(a: seq<Signal>, b: seq<Signal>, mode: ExecutionMode)
    requires forall s :: s in a <==> s in b
    ensures Unique(a, mode) == Unique(b, mode)
  {
    hide Unique, Admissible;
    UniqueCharacterised(a, mode);
    UniqueCharacterised(b, mode);
    UniqueErrors(a, mode);
    UniqueErrors(b, mode);
    SameConsistency(a, b);
    hide Consistent;
    if Unique(a, mode).Ok? && Unique(b, mode).Ok? {
      SameUnique(a, b, Unique(a, mode).value, Unique(b, mode).value);
    }
  }

  lemma SameConsistency(a: seq<Signal>, b: seq<Signal>)
    requires forall s :: s in a <==> s in b
    ensures Consistent(a) <==> Consistent(b)
  {
  }

  /** `unique` is the delivered Signals under their identities. */
  ghost predicate IsIndex(signals: seq<Signal>, unique: map<string, Signal>) {
    && (forall s :: s in signals ==> s.signalId in unique && unique[s.signalId] == s)
    && (forall id :: id in unique ==> unique[id] in signals && unique[id].signalId == id)
  }

  lemma SameUnique(a: seq<Signal>, b: seq<Signal>, x: map<string, Signal>, y: map<string, Signal>)
    requires IsIndex(a, x) && IsIndex(b, y) && forall s :: s in a <==> s in b
    ensures x == y
  {
    assert forall id :: id in x <==> id in y;
    assert forall id :: id in x ==> x[id] == y[id];
  }

  // ----- grouping -----

  /** Stages the Signal satisfies, asked in order; None once a stage cannot be decided. */
  function MatchingStages<K>(policy: Policy<K>, s: Signal, stages: nat): Option<seq<nat>> {
    if stages == 0 then Some([])
    else
      var earlier := MatchingStages(policy, s, stages - 1);
      if earlier.None? then None
      else match policy.stageMatches(stages - 1, s)
        case Err(_) => None
        case Ok(hit) => Some(if hit then earlier.value + [stages - 1] else earlier.value)
  }

  function Contribution<K>(policy: Policy<K>, stages: nat, s: Signal): Result<Option<(Key, Candidate<K>)>, Error> {
    match MatchingStages(policy, s, stages)
    case None => Err(PolicyError)
    case Some(matching) =>
      if matching == [] then Ok(None)
      else match policy.groupKey(s)
        case Err(_) => Err(PolicyError)
        case Ok(None) => Ok(None)
        case Ok(Some(group)) =>
          match policy.time(s)
          case Err(_) => Err(PolicyError)
          case Ok(None) => Ok(None)
          case Ok(Some(millis)) =>
            match policy.orderKey(s)
            case Err(_) => Err(PolicyError)
            case Ok(None) => Ok(None)
            case Ok(Some(key)) => Ok(Some(((s.tenantId, group), Candidate(s.signalId, matching, millis, key))))
  }

  /** Every stage is decided, and the listed stages are those the Signal satisfies, in order. */
  lemma {:induction false} MatchingStagesIff<K>(policy: Policy<K>, s: Signal, stages: nat)
    ensures var r := MatchingStages(policy, s, stages);
            && (r.Some? <==> forall i: nat :: i < stages ==> policy.stageMatches(i, s).Ok?)
            && (r.Some? ==>
                  && (forall i: nat :: i in r.value <==> i < stages && policy.stageMatches(i, s) == Ok(true))
                  && forall a, b :: 0 <= a < b < |r.value| ==> r.value[a] < r.value[b])
  {
    if stages != 0 {
      MatchingStagesIff(policy, s, stages - 1);
      var earlier := MatchingStages(policy, s, stages - 1);
      if earlier.Some? {
        assert forall a :: 0 <= a < |earlier.value| ==> earlier.value[a] in earlier.value;
      }
    }
  }

  /** The Signal satisfies a stage, with every stage decided. */
  ghost predicate Relevant<K>(policy: Policy<K>, stages: nat, s: Signal) {
    && (forall i: nat :: i < stages ==> policy.stageMatches(i, s).Ok?)
    && exists i: nat :: i < stages && policy.stageMatches(i, s) == Ok(true)
  }

  lemma MatchesSome<K>(policy: Policy<K>, stages: nat, s: Signal)
    ensures Relevant(policy, stages, s) <==>
            MatchingStages(policy, s, stages).Some? && MatchingStages(policy, s, stages).value != []
  {
    MatchingStagesIff(policy, s, stages);
    hide MatchingStages;
    var r := MatchingStages(policy, s, stages);
    if r.Some? && r.value != [] {
      assert r.value[0] in r.value;
    }
  }

  /**
   * A Signal contributes to a group exactly when it satisfies some stage and has a join key, a time
   * and an order key; the candidate carries these, its own identity and all the stages it satisfies.
   */
  lemma ContributionIff<K>(policy: Policy<K>, stages: nat, s: Signal, k: Key, c: Candidate<K>)
    ensures Contribution(policy, stages, s) == Ok(Some((k, c))) <==>
            && Relevant(policy, stages, s) && MatchingStages(policy, s, stages) == Some(c.stages)
            && s.tenantId == k.0 && policy.groupKey(s) == Ok(Some(k.1)) && policy.time(s) == Ok(Some(c.time))
            && policy.orderKey(s) == Ok(Some(c.key)) && c.id == s.signalId
  {
    MatchesSome(policy, stages, s);
    hide MatchingStages, Relevant;
  }

  /** It fails exactly at a question that is asked and not answered: the later ones only of a relevant Signal. */
  lemma ContributionFailsIff<K>(policy: Policy<K>, stages: nat, s: Signal)
    ensures Contribution(policy, stages, s).Err? <==>
            || (exists i: nat :: i < stages && policy.stageMatches(i, s).Err?)
            || (Relevant(policy, stages, s) && policy.groupKey(s).Err?)
            || (Relevant(policy, stages, s) && policy.groupKey(s).Ok? && policy.groupKey(s).value.Some?
                && (policy.time(s).Err?
                    || (policy.time(s).value.Some? && policy.orderKey(s).Err?)))
  {
    MatchingStagesIff(policy, s, stages);
    MatchesSome(policy, stages, s);
    hide MatchingStages, Relevant;
  }

  /** What `unique` contributes to group `k`. */
  ghost function GroupOf<K>(policy: Policy<K>, stages: nat, unique: map<string, Signal>, k: Key): set<Candidate<K>> {
    set id | id in unique && InGroup(Contribution(policy, stages, unique[id]), k)
      :: Contribution(policy, stages, unique[id]).value.value.1
  }

  predicate InGroup<K>(entry: Result<Option<(Key, Candidate<K>)>, Error>, k: Key) {
    entry.Ok? && entry.value.Some? && entry.value.value.0 == k
  }

  type Groups<K> = map<Key, seq<Candidate<K>>>

  /** Every contribution of `ids` is in its group, once, and nothing else is. */
  ghost predicate Grouped<K(!new)>(
      policy: Policy<K>, stages: nat, unique: map<string, Signal>, ids: set<string>, groups: Groups<K>) {
    && (forall k :: k in groups ==> groups[k] != [] && Distinct(groups[k]))
    && (forall k, c :: k in groups && c in groups[k] ==>
          c.id in ids && c.id in unique && Contribution(policy, stages, unique[c.id]) == Ok(Some((k, c))))
    && (forall id :: id in ids && id in unique ==> Recorded(Contribution(policy, stages, unique[id]), groups))
  }

  ghost predicate Recorded<K(!new)>(entry: Result<Option<(Key, Candidate<K>)>, Error>, groups: Groups<K>) {
    entry.Ok? && (entry.value.Some? ==>
      entry.value.value.0 in groups && entry.value.value.1 in groups[entry.value.value.0])
  }

  method CollectCandidates<K(!new)>(policy: Policy<K>, stages: nat, unique: map<string, Signal>)
    returns (r: Result<Groups<K>, Error>)
    requires forall id :: id in unique ==> unique[id].signalId == id
    ensures r.Err? <==> exists id :: id in unique && Contribution(policy, stages, unique[id]).Err?
    ensures r.Err? ==> r.error == PolicyError
    ensures r.Ok? ==> Grouped(policy, stages, unique, unique.Keys, r.value)
  {
    hide Contribution;
    var groups: Groups<K> := map[];
    var todo := unique.Keys;
    while todo != {}
      invariant todo <= unique.Keys
      invariant Grouped(policy, stages, unique, unique.Keys - todo, groups)
      decreases |todo|
    {
      var id :| id in todo;
      var entry := Contribution(policy, stages, unique[id]);
      if entry.Err? {
        return Err(PolicyError);
      }
      StepKeepsGrouped(policy, stages, unique, unique.Keys - todo, groups, id);
      groups := AddCandidate(groups, entry.value);
      assert unique.Keys - todo + {id} == unique.Keys - (todo - {id});
      todo := todo - {id};
    }
    return Ok(groups);
  }

  function AddCandidate<K>(groups: Groups<K>, entry: Option<(Key, Candidate<K>)>): Groups<K> {
    match entry
    case None => groups
    case Some((k, c)) => groups[k := (if k in groups then groups[k] else []) + [c]]
  }

  lemma ContributionKeepsId<K>(policy: Policy<K>, stages: nat, s: Signal)
    ensures var entry := Contribution(policy, stages, s);
            entry.Ok? && entry.value.Some? ==>
              entry.value.value.1.id == s.signalId && entry.value.value.0.0 == s.tenantId
  {
  }

  lemma StepKeepsGrouped<K(!new)>(
      policy: Policy<K>, stages: nat, unique: map<string, Signal>, ids: set<string>, groups: Groups<K>, id: string)
    requires Grouped(policy, stages, unique, ids, groups) && id !in ids && id in unique && unique[id].signalId == id
    requires Contribution(policy, stages, unique[id]).Ok?
    ensures Grouped(policy, stages, unique, ids + {id}, AddCandidate(groups,
      Contribution(policy, stages, unique[id]).value))
  {
    ContributionKeepsId(policy, stages, unique[id]);
    hide Contribution;
    var entry := Contribution(policy, stages, unique[id]).value;
    var added := AddCandidate(groups, entry);
    forall k: Key, c: Candidate<K> | k in added && c in added[k]
      ensures c.id in ids + {id} && c.id in unique && Contribution(policy, stages, unique[c.id]) == Ok(Some((k, c)))
    {
      if entry != Some((k, c)) {
        assert k in groups && c in groups[k];
      }
    }
    forall x | x in ids + {id} && x in unique
      ensures Recorded(Contribution(policy, stages, unique[x]), added)
    {
      if x in ids {
        assert Recorded(Contribution(policy, stages, unique[x]), groups);
      }
    }
  }

  // ----- ordering a group -----

  predicate CandidateBefore<K(==)>(less: (K, K) -> bool, a: Candidate<K>, b: Candidate<K>) {
    less(a.key, b.key) || (a.key == b.key && StringLess(a.id, b.id))
  }

  function CandidateOrder<K(==)>(less: (K, K) -> bool): (Candidate<K>, Candidate<K>) -> bool {
    (a: Candidate<K>, b: Candidate<K>) => CandidateBefore(less, a, b)
  }

  lemma CandidateOrderIsPartial<K(!new)>(less: (K, K) -> bool)
    requires StrictOrder(less)
    ensures PartialOrder(CandidateOrder(less))
  {
    StringOrder();
  }

  /** Candidates of one group carry different identities. */
  ghost predicate DistinctIds<K(!new)>(s: set<Candidate<K>>) {
    forall x, y :: x in s && y in s && x.id == y.id ==> x == y
  }

  lemma Comparable<K(!new)>(less: (K, K) -> bool, s: set<Candidate<K>>, c: seq<Candidate<K>>)
    requires StrictOrder(less) && DistinctIds(s) && forall x :: x in c ==> x in s
    ensures TotalOn(CandidateOrder(less), c)
  {
    forall x, y | x in c && y in c
      ensures x == y || CandidateOrder(less)(x, y) || CandidateOrder(less)(y, x)
    {
      StringLessTotal(x.id, y.id);
    }
  }

  /** The group in order: by order key, then by identity. */
  ghost function Ordered<K(!new)>(less: (K, K) -> bool, s: set<Candidate<K>>): seq<Candidate<K>> {
    if s == {} then []
    else
      var x :| x in s;
      Insert(CandidateOrder(less), x, Ordered(less, s - {x}))
  }

  lemma {:induction false} OrderedIsSorted<K(!new)>(less: (K, K) -> bool, s: set<Candidate<K>>)
    requires StrictOrder(less) && DistinctIds(s)
    ensures Sorted(CandidateOrder(less), Ordered(less, s))
    ensures forall c :: c in Ordered(less, s) <==> c in s
  {
    if s != {} {
      var x :| x in s && Ordered(less, s) == Insert(CandidateOrder(less), x, Ordered(less, s - {x}));
      var rest := Ordered(less, s - {x});
      OrderedIsSorted(less, s - {x});
      CandidateOrderIsPartial(less);
      Comparable(less, s, [x] + rest);
      InsertKeepsSorted(CandidateOrder(less), x, rest);
    }
  }

  /** Sorting a group's candidates, in whatever order they were collected, gives its one ordering. */
  lemma SortIsOrdered<K(!new)>(less: (K, K) -> bool, s: set<Candidate<K>>, c: seq<Candidate<K>>)
    requires StrictOrder(less) && DistinctIds(s) && Distinct(c) && forall x :: x in c <==> x in s
    ensures Sort(CandidateOrder(less), c) == Ordered(less, s)
  {
    OrderedIsSorted(less, s);
    CandidateOrderIsPartial(less);
    Comparable(less, s, c);
    SortIsSorted(CandidateOrder(less), c);
    SortedUnique(CandidateOrder(less), Sort(CandidateOrder(less), c), Ordered(less, s));
  }

  lemma OrderedKeysAscend<K(!new)>(less: (K, K) -> bool, s: set<Candidate<K>>)
    requires StrictOrder(less) && DistinctIds(s)
    ensures KeysAscend(less, Ordered(less, s))
  {
    OrderedIsSorted(less, s);
    var c := Ordered(less, s);
    hide Ordered, DistinctIds;
    forall i, j | 0 <= i < j < |c|
      ensures !less(c[j].key, c[i].key)
    {
      assert CandidateOrder(less)(c[i], c[j]);
      KeyNotBefore(less, c[i], c[j]);
    }
  }

  lemma KeyNotBefore<K(!new)>(less: (K, K) -> bool, a: Candidate<K>, b: Candidate<K>)
    requires StrictOrder(less) && CandidateBefore(less, a, b)
    ensures !less(b.key, a.key)
  {
  }

  // ----- emission -----

  function MatchOf<K>(
      plan: RawPlan, mode: ExecutionMode, k: Key, c: seq<Candidate<K>>, s: Selection)
    : Result<Option<SequenceMatch>, Error>
    requires forall i :: 0 <= i < |s.picked| ==> s.picked[i] < |c|
  {
    var start, end := TimestampFromMillis(s.first), TimestampFromMillis(s.last);
    if !ValidTimestamp(start) || !ValidTimestamp(end) then Err(InvalidInput)
    else Ok(Some(SequenceMatch(plan.ruleId, plan.ruleVersion, k.0, start, end,
                               seq(|s.picked|, i requires 0 <= i < |s.picked| => c[s.picked[i]].id),
                               plan.backend, mode, plan.configurationHash)))
  }

  ghost function EmitGroup<K(!new)>(
      plan: RawPlan, less: (K, K) -> bool, mode: ExecutionMode, k: Key, c: seq<Candidate<K>>)
    : Result<Option<SequenceMatch>, Error>
    requires Compiled(plan) && StrictOrder(less) && KeysAscend(less, c)
  {
    SelectIsSound(less, c, plan.stages, plan.window);
    match Select(less, c, plan.stages, plan.window, 0)
    case None => Ok(None)
    case Some(s) => MatchOf(plan, mode, k, c, s)
  }

  lemma GroupIdsDistinct<K(!new)>(policy: Policy<K>, stages: nat, unique: map<string, Signal>, k: Key)
    requires forall id :: id in unique ==> unique[id].signalId == id
    ensures DistinctIds(GroupOf(policy, stages, unique, k))
    ensures forall c :: c in GroupOf(policy, stages, unique, k) <==>
                        c.id in unique && Contribution(policy, stages, unique[c.id]) == Ok(Some((k, c)))
  {
    forall c
      ensures c in GroupOf(policy, stages, unique, k) <==>
              c.id in unique && Contribution(policy, stages, unique[c.id]) == Ok(Some((k, c)))
    {
      if c.id in unique && Contribution(policy, stages, unique[c.id]) == Ok(Some((k, c))) {
        assert InGroup(Contribution(policy, stages, unique[c.id]), k);
      }
    }
  }

  ghost predicate Ready<K(!new)>(plan: RawPlan, policy: Policy<K>, unique: map<string, Signal>) {
    && Compiled(plan) && StrictOrder(policy.less)
    && forall id :: id in unique ==> unique[id].signalId == id
  }

  /** What one group of deduplicated Signals emits. */
  ghost function Emission<K(!new)>(
      plan: RawPlan, policy: Policy<K>, mode: ExecutionMode, unique: map<string, Signal>, k: Key)
    : Result<Option<SequenceMatch>, Error>
    requires Ready(plan, policy, unique)
  {
    GroupIdsDistinct(policy, plan.stages, unique, k);
    OrderedKeysAscend(policy.less, GroupOf(policy, plan.stages, unique, k));
    EmitGroup(plan, policy.less, mode, k, Ordered(policy.less, GroupOf(policy, plan.stages, unique, k)))
  }

  ghost function GroupKeys<K(!new)>(policy: Policy<K>, stages: nat, unique: map<string, Signal>): set<Key> {
    set id | id in unique && Contribution(policy, stages, unique[id]).Ok?
      && Contribution(policy, stages, unique[id]).value.Some?
      :: Contribution(policy, stages, unique[id]).value.value.0
  }

  ghost function EvaluatedUnique<K(!new)>(
      plan: RawPlan, policy: Policy<K>, mode: ExecutionMode, unique: map<string, Signal>)
    : Result<map<Key, SequenceMatch>, Error>
    requires Ready(plan, policy, unique)
  {
    if exists id :: id in unique && Contribution(policy, plan.stages, unique[id]).Err? then Err(PolicyError)
    else EmitAll(plan, policy, mode, unique, GroupKeys(policy, plan.stages, unique))
  }

  ghost function EmitAll<K(!new)>(
      plan: RawPlan, policy: Policy<K>, mode: ExecutionMode, unique: map<string, Signal>, keys: set<Key>)
    : Result<map<Key, SequenceMatch>, Error>
    requires Ready(plan, policy, unique)
  {
    if exists k :: k in keys && Emission(plan, policy, mode, unique, k).Err? then Err(InvalidInput)
    else Ok(map k | k in keys && Emission(plan, policy, mode, unique, k).value.Some?
              :: Emission(plan, policy, mode, unique, k).value.value)
  }

  ghost function Evaluated<K(!new)>(plan: RawPlan, signals: seq<Signal>, mode: ExecutionMode, policy: Policy<K>)
    : Result<map<Key, SequenceMatch>, Error>
    requires Compiled(plan) && StrictOrder(policy.less)
  {
    if mode == Unspecified then Err(UnspecifiedExecutionMode)
    else
      var unique :- Unique(signals, mode);
      UniqueCharacterised(signals, mode);
      EvaluatedUnique(plan, policy, mode, unique)
  }

  method EmitOne<K(!new, ==)>(
      plan: RawPlan, policy: Policy<K>, mode: ExecutionMode, ghost unique: map<string, Signal>, k: Key,
      candidates: seq<Candidate<K>>)
    returns (r: Result<Option<SequenceMatch>, Error>)
    requires Ready(plan, policy, unique)
    requires IsGroup(policy, plan.stages, unique, k, candidates)
    ensures r == Emission(plan, policy, mode, unique, k)
  {
    ghost var group := GroupOf(policy, plan.stages, unique, k);
    GroupIdsDistinct(policy, plan.stages, unique, k);
    var c := Sort(CandidateOrder(policy.less), candidates);
    SortIsOrdered(policy.less, group, candidates);
    OrderedKeysAscend(policy.less, group);
    SelectIsSound(policy.less, c, plan.stages, plan.window);
    var s := SelectSequence(policy.less, c, plan.stages, plan.window);
    if s.None? {
      return Ok(None);
    }
    return MatchOf(plan, mode, k, c, s.value);
  }

  lemma GroupedGroups<K(!new)>(policy: Policy<K>, stages: nat, unique: map<string, Signal>, groups: Groups<K>)
    requires forall id :: id in unique ==> unique[id].signalId == id
    requires Grouped(policy, stages, unique, unique.Keys, groups)
    ensures forall id :: id in unique ==> Contribution(policy, stages, unique[id]).Ok?
    ensures groups.Keys == GroupKeys(policy, stages, unique)
    ensures forall k :: k in groups ==> IsGroup(policy, stages, unique, k, groups[k])
  {
    hide Contribution;
    assert forall id :: id in unique ==> Recorded(Contribution(policy, stages, unique[id]), groups);
    forall k
      ensures k in groups ==> k in GroupKeys(policy, stages, unique)
    {
      if k in groups {
        var c := groups[k][0];
        assert c in groups[k] && Contribution(policy, stages, unique[c.id]) == Ok(Some((k, c)));
      }
    }
    forall k | k in GroupKeys(policy, stages, unique)
      ensures k in groups
    {
      var id :| id in unique && InGroup(Contribution(policy, stages, unique[id]), k);
      assert Recorded(Contribution(policy, stages, unique[id]), groups);
    }
    forall k | k in groups
      ensures IsGroup(policy, stages, unique, k, groups[k])
    {
      forall c
        ensures c in groups[k] <==> c in GroupOf(policy, stages, unique, k)
      {
        GroupIdsDistinct(policy, stages, unique, k);
        if c in GroupOf(policy, stages, unique, k) {
          assert Recorded(Contribution(policy, stages, unique[c.id]), groups);
        }
      }
    }
  }

  /** `c` lists the group `k` without repetition. */
  ghost predicate IsGroup<K(!new)>(
      policy: Policy<K>, stages: nat, unique: map<string, Signal>, k: Key, c: seq<Candidate<K>>) {
    Distinct(c) && forall x :: x in c <==> x in GroupOf(policy, stages, unique, k)
  }

  method EmitGroups<K(!new, ==)>(
      plan: RawPlan, policy: Policy<K>, mode: ExecutionMode, ghost unique: map<string, Signal>, groups: Groups<K>)
    returns (r: Result<map<Key, SequenceMatch>, Error>)
    requires Ready(plan, policy, unique)
    requires forall k :: k in groups ==> IsGroup(policy, plan.stages, unique, k, groups[k])
    ensures r == EmitAll(plan, policy, mode, unique, groups.Keys)
  {
    hide IsGroup, Emission, Ready;
    var matches: map<Key, SequenceMatch> := map[];
    var todo := groups.Keys;
    while todo != {}
      invariant todo <= groups.Keys
      invariant forall k :: k in groups && k !in todo ==> Emission(plan, policy, mode, unique, k).Ok?
      invariant forall k :: k in matches <==>
        k in groups && k !in todo && Emission(plan, policy, mode, unique, k).value.Some?
      invariant forall k :: k in matches ==> matches[k] == Emission(plan, policy, mode, unique, k).value.value
      decreases |todo|
    {
      var k :| k in todo;
      todo := todo - {k};
      var emitted := EmitOne(plan, policy, mode, unique, k, groups[k]);
      if emitted.Err? {
        return Err(InvalidInput);
      }
      if emitted.value.Some? {
        matches := matches[k := emitted.value.value];
      }
    }
    AllEmitted(plan, policy, mode, unique, groups.Keys, matches);
    return Ok(matches);
  }

  lemma AllEmitted<K(!new)>(
      plan: RawPlan, policy: Policy<K>, mode: ExecutionMode, unique: map<string, Signal>, keys: set<Key>,
      matches: map<Key, SequenceMatch>)
    requires Ready(plan, policy, unique)
    requires forall k :: k in keys ==> Emission(plan, policy, mode, unique, k).Ok?
    requires forall k :: k in matches <==> k in keys && Emission(plan, policy, mode, unique, k).value.Some?
    requires forall k :: k in matches ==> matches[k] == Emission(plan, policy, mode, unique, k).value.value
    ensures EmitAll(plan, policy, mode, unique, keys) == Ok(matches)
  {
    hide Emission, Ready;
    assert EmitAll(plan, policy, mode, unique, keys).value == matches;
  }

  method Evaluate<K(!new, ==)>(plan: RawPlan, signals: seq<Signal>, mode: ExecutionMode, policy: Policy<K>)
    returns (r: Result<map<Key, SequenceMatch>, Error>)
    requires Compiled(plan) && StrictOrder(policy.less)
    ensures r == Evaluated(plan, signals, mode, policy)
  {
    if mode == Unspecified {
      return Err(UnspecifiedExecutionMode);
    }
    var deduplicated := ValidateUniqueSignals(signals, mode);
    if deduplicated.Err? {
      return Err(deduplicated.error);
    }
    var unique := deduplicated.value;
    UniqueCharacterised(signals, mode);
    var collected := CollectCandidates(policy, plan.stages, unique);
    if collected.Err? {
      return Err(collected.error);
    }
    GroupedGroups(policy, plan.stages, unique, collected.value);
    r := EmitGroups(plan, policy, mode, unique, collected.value);
  }

  // ----- what a correlation guarantees -----

  /** Any reordering or repetition of the delivered Signals gives the same answer, errors included. */
  lemma DeliveryOrderIrrelevant<K(!new)>(
      plan: RawPlan, a: seq<Signal>, b: seq<Signal>, mode: ExecutionMode, policy: Policy<K>)
    requires Compiled(plan) && StrictOrder(policy.less) && forall s :: s in a <==> s in b
    ensures Evaluated(plan, a, mode, policy) == Evaluated(plan, b, mode, policy)
  {
    UniqueIgnoresDelivery(a, b, mode);
  }

  // ----- when evaluation succeeds -----

  /** The calendar holds the time of every delivered Signal that has one. */
  ghost predicate TimesRepresentable<K(!new)>(policy: Policy<K>, signals: seq<Signal>) {
    forall s, t :: s in signals && policy.time(s) == Ok(Some(t)) ==> ValidTimestamp(TimestampFromMillis(t))
  }

  lemma EmissionSucceeds<K(!new)>(
      plan: RawPlan, signals: seq<Signal>, policy: Policy<K>, mode: ExecutionMode, unique: map<string, Signal>, k: Key)
    requires Ready(plan, policy, unique) && TimesRepresentable(policy, signals)
    requires forall id :: id in unique ==> unique[id] in signals
    ensures Emission(plan, policy, mode, unique, k).Ok?
  {
    hide StrictOrder, TimestampFromMillis, ValidTimestamp, KeysAscend, GroupOf, Ordered;
    var group := GroupOf(policy, plan.stages, unique, k);
    GroupIdsDistinct(policy, plan.stages, unique, k);
    OrderedIsSorted(policy.less, group);
    OrderedKeysAscend(policy.less, group);
    var c := Ordered(policy.less, group);
    forall x | x in c
      ensures ValidTimestamp(TimestampFromMillis(x.time))
    {
      ContributionIff(policy, plan.stages, unique[x.id], k, x);
    }
    hide Contribution;
    SelectIsSound(policy.less, c, plan.stages, plan.window);
    SelectionSucceeds(plan, policy.less, mode, k, c);
  }

  lemma SelectionSucceeds<K(!new)>(
      plan: RawPlan, less: (K, K) -> bool, mode: ExecutionMode, k: Key, c: seq<Candidate<K>>)
    requires Compiled(plan) && StrictOrder(less) && KeysAscend(less, c)
    requires forall x :: x in c ==> ValidTimestamp(TimestampFromMillis(x.time))
    ensures EmitGroup(plan, less, mode, k, c).Ok?
  {
    hide StrictOrder, TimestampFromMillis, ValidTimestamp, KeysAscend, Select;
    SelectIsSound(less, c, plan.stages, plan.window);
    var s := Select(less, c, plan.stages, plan.window, 0);
    if s.Some? {
      var lo :| 0 <= lo < |s.value.picked| && c[s.value.picked[lo]].time == s.value.first;
      var hi :| 0 <= hi < |s.value.picked| && c[s.value.picked[hi]].time == s.value.last;
      assert c[s.value.picked[lo]] in c && c[s.value.picked[hi]] in c;
    }
  }

  /**
   * Where the calendar holds every time, evaluation succeeds exactly under a stated mode, for
   * consistent deliveries of valid Signals of that mode, with every asked question answered.
   */
  lemma EvaluationSucceedsIff<K(!new)>(
      plan: RawPlan, signals: seq<Signal>, mode: ExecutionMode, policy: Policy<K>)
    requires Compiled(plan) && StrictOrder(policy.less) && TimesRepresentable(policy, signals)
    ensures Evaluated(plan, signals, mode, policy).Ok? <==>
            && mode != Unspecified && Consistent(signals) && (forall s :: s in signals ==> Admissible(s, mode))
            && (forall s :: s in signals ==> Contribution(policy, plan.stages, s).Ok?)
  {
    hide StrictOrder, TimesRepresentable, Admissible, Consistent, Contribution, Emission, Unique;
    UniqueCharacterised(signals, mode);
    if Unique(signals, mode).Ok? {
      var unique := Unique(signals, mode).value;
      assert Ready(plan, policy, unique);
      SameSignals(policy, plan.stages, signals, unique);
      forall k
        ensures Emission(plan, policy, mode, unique, k).Ok?
      {
        EmissionSucceeds(plan, signals, policy, mode, unique, k);
      }
    }
  }

  lemma SameSignals<K(!new)>(policy: Policy<K>, stages: nat, signals: seq<Signal>, unique: map<string, Signal>)
    requires IsIndex(signals, unique)
    ensures (exists id :: id in unique && Contribution(policy, stages, unique[id]).Err?) <==>
            exists s :: s in signals && Contribution(policy, stages, s).Err?
  {
    hide Contribution;
    if s :| s in signals && Contribution(policy, stages, s).Err? {
      assert s.signalId in unique && Contribution(policy, stages, unique[s.signalId]).Err?;
    }
  }
}
