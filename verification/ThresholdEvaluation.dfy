/** Bounded THRESHOLD evaluation of one dataset: validation, deduplication, grouping, selection. */
module ThresholdEvaluation {
  import opened Wrappers
  import opened Contracts
  import opened Sorting
  import opened Threshold

  datatype Event = Event(id: string, tenant: string, body: string)

  /** The rule-owned questions; every answer may be an error. */
  datatype Policy = Policy(
    matches: Event -> Result<bool, string>,
    groupKey: Event -> Result<Option<seq<string>>, string>,
    time: Event -> Result<Option<int>, string>)

  datatype RawPlan = RawPlan(threshold: nat, window: nat)

  /** What compilation lets through: a positive threshold, and a positive window that fits int64. */
  type Plan = p: RawPlan | 1 <= p.threshold && 1 <= p.window <= MAX_INT64 witness RawPlan(1, 1)

  datatype Error = PolicyError(message: string) | InvalidProvenance | UnspecifiedExecutionMode

  type Key = (string, seq<string>)

  type Groups = map<Key, seq<Candidate>>

  datatype Match = Match(ids: seq<string>, first: Timestamp, last: Timestamp)

  /** The group and candidate an event contributes, asked in the evaluator's short-circuit order. */
  function Contribution(policy: Policy, e: Event): Result<Option<(Key, Candidate)>, Error> {
    match policy.matches(e)
    case Err(m) => Err(PolicyError(m))
    case Ok(false) => Ok(None)
    case Ok(true) =>
      match policy.groupKey(e)
      case Err(m) => Err(PolicyError(m))
      case Ok(None) => Ok(None)
      case Ok(Some(key)) =>
        match policy.time(e)
        case Err(m) => Err(PolicyError(m))
        case Ok(None) => Ok(None)
        case Ok(Some(millis)) => Ok(Some(((e.tenant, key), Candidate(e.id, millis))))
  }

  function AddCandidate(groups: Groups, entry: Option<(Key, Candidate)>): Groups {
    match entry
    case None => groups
    case Some((k, c)) => groups[k := (if k in groups then groups[k] else []) + [c]]
  }

  ghost predicate SeenId(events: seq<Event>, id: string) {
    exists e :: e in events && e.id == id
  }

  /** Grouping in delivery order; a repeated id is skipped after its identity is validated. */
  ghost function Collect(policy: Policy, events: seq<Event>): Result<Groups, Error> {
    if events == [] then Ok(map[])
    else
      var n := |events| - 1;
      var groups :- Collect(policy, events[..n]);
      var e := events[n];
      if !IsUuidV7(e.id) || !IsUuidV7(e.tenant) then Err(InvalidProvenance)
      else if SeenId(events[..n], e.id) then Ok(groups)
      else
        var entry :- Contribution(policy, e);
        Ok(AddCandidate(groups, entry))
  }

  function Provenance(w: seq<Candidate>): Result<Option<Match>, Error>
    requires w != []
  {
    var first, last := TimestampFromMillis(w[0].time), TimestampFromMillis(w[|w| - 1].time);
    if !ValidTimestamp(first) || !ValidTimestamp(last) then Err(InvalidProvenance)
    else Ok(Some(Match(seq(|w|, i requires 0 <= i < |w| => w[i].id), first, last)))
  }

  ghost function EmitGroup(plan: Plan, candidates: seq<Candidate>): Result<Option<Match>, Error> {
    match FirstWindow(Sort(Before, candidates), plan.threshold, plan.window, 0)
    case None => Ok(None)
    case Some(w) => if w == [] then Ok(None) else Provenance(w)
  }

  ghost function EmitAll(plan: Plan, groups: Groups): Result<map<Key, Match>, Error> {
    if exists k :: k in groups && EmitGroup(plan, groups[k]).Err? then Err(InvalidProvenance)
    else Ok(map k | k in groups && EmitGroup(plan, groups[k]).value.Some? :: EmitGroup(plan, groups[k]).value.value)
  }

  ghost function Evaluated(plan: Plan, events: seq<Event>, mode: ExecutionMode, evaluatedAt: Timestamp, policy: Policy)
    : Result<map<Key, Match>, Error>
  {
    if !ValidTimestamp(evaluatedAt) then Err(InvalidProvenance)
    else if mode == Unspecified then Err(UnspecifiedExecutionMode)
    else
      var groups :- Collect(policy, events);
      EmitAll(plan, groups)
  }

  // ----- the evaluator -----

  lemma {:induction false} CollectErrorPersists(policy: Policy, events: seq<Event>, n: nat)
    requires n <= |events| && Collect(policy, events[..n]).Err?
    ensures Collect(policy, events) == Collect(policy, events[..n])
    decreases |events|
  {
    if n == |events| {
      assert events[..n] == events;
    } else {
      var front := events[..|events| - 1];
      assert front[..n] == events[..n];
      CollectErrorPersists(policy, front, n);
    }
  }

  lemma CollectStep(policy: Policy, events: seq<Event>, n: nat)
    requires n < |events|
    ensures events[..n + 1][..n] == events[..n] && events[..n + 1][n] == events[n]
    ensures SeenId(events[..n + 1], events[n].id)
    ensures forall id :: SeenId(events[..n + 1], id) <==> SeenId(events[..n], id) || id == events[n].id
  {
    assert events[..n + 1] == events[..n] + [events[n]];
    assert events[n] in events[..n + 1];
    forall id | SeenId(events[..n], id)
      ensures SeenId(events[..n + 1], id)
    {
      var e :| e in events[..n] && e.id == id;
      assert e in events[..n + 1];
    }
  }

  method CollectGroups(policy: Policy, events: seq<Event>) returns (r: Result<Groups, Error>)
    ensures r == Collect(policy, events)
  {
    var seen: set<string> := {};
    var groups: Groups := map[];
    for n := 0 to |events|
      invariant Collect(policy, events[..n]) == Ok(groups)
      invariant forall id :: id in seen <==> SeenId(events[..n], id)
    {
      var e := events[n];
      CollectStep(policy, events, n);
      if !IsUuidV7(e.id) || !IsUuidV7(e.tenant) {
        CollectErrorPersists(policy, events, n + 1);
        return Err(InvalidProvenance);
      }
      if e.id in seen {
        continue;
      }
      seen := seen + {e.id};
      var entry := Contribution(policy, e);
      if entry.Err? {
        CollectErrorPersists(policy, events, n + 1);
        return Err(entry.error);
      }
      groups := AddCandidate(groups, entry.value);
    }
    assert events[..|events|] == events;
    return Ok(groups);
  }

  lemma {:induction false} CollectedIdsAreSeen(policy: Policy, events: seq<Event>)
    requires Collect(policy, events).Ok?
    ensures forall k, c :: k in Collect(policy, events).value && c in Collect(policy, events).value[k] ==>
      SeenId(events, c.id)
    ensures forall k :: k in Collect(policy, events).value ==> Distinct(Collect(policy, events).value[k])
  {
    if events != [] {
      var n := |events| - 1;
      CollectStep(policy, events, n);
      assert events[..n + 1] == events;
      CollectedIdsAreSeen(policy, events[..n]);
    }
  }

  method EmitOne(plan: Plan, candidates: seq<Candidate>) returns (r: Result<Option<Match>, Error>)
    requires Distinct(candidates)
    ensures r == EmitGroup(plan, candidates)
  {
    var sorted := Sort(Before, candidates);
    BeforeIsStrictOrder();
    SortIsSorted(Before, candidates);
    var w := ScanWindow(sorted, plan.threshold, plan.window);
    if w.None? {
      return Ok(None);
    }
    EmittedWindowQualifies(sorted, plan.threshold, plan.window);
    return Provenance(w.value);
  }

  method EmitGroups(plan: Plan, groups: Groups) returns (r: Result<map<Key, Match>, Error>)
    requires forall k :: k in groups ==> Distinct(groups[k])
    ensures r == EmitAll(plan, groups)
  {
    var matches: map<Key, Match> := map[];
    var todo := groups.Keys;
    while todo != {}
      invariant todo <= groups.Keys
      invariant forall k :: k in groups && k !in todo ==> EmitGroup(plan, groups[k]).Ok?
      invariant forall k :: k in matches <==> k in groups && k !in todo && EmitGroup(plan, groups[k]).value.Some?
      invariant forall k :: k in matches ==> matches[k] == EmitGroup(plan, groups[k]).value.value
      decreases |todo|
    {
      var k :| k in todo;
      todo := todo - {k};
      var emitted := EmitOne(plan, groups[k]);
      if emitted.Err? {
        ErrorsAreInvalidProvenance(plan, groups[k]);
        return Err(InvalidProvenance);
      }
      if emitted.value.Some? {
        matches := matches[k := emitted.value.value];
      }
    }
    assert EmitAll(plan, groups).value == matches;
    return Ok(matches);
  }

  lemma ErrorsAreInvalidProvenance(plan: Plan, candidates: seq<Candidate>)
    ensures EmitGroup(plan, candidates).Err? ==> EmitGroup(plan, candidates) == Err(InvalidProvenance)
  {
  }

  method Evaluate(plan: Plan, events: seq<Event>, mode: ExecutionMode, evaluatedAt: Timestamp, policy: Policy)
    returns (r: Result<map<Key, Match>, Error>)
    ensures r == Evaluated(plan, events, mode, evaluatedAt, policy)
  {
    if !ValidTimestamp(evaluatedAt) {
      return Err(InvalidProvenance);
    }
    if mode == Unspecified {
      return Err(UnspecifiedExecutionMode);
    }
    var collected := CollectGroups(policy, events);
    if collected.Err? {
      return Err(collected.error);
    }
    CollectedIdsAreSeen(policy, events);
    r := EmitGroups(plan, collected.value);
  }

  // ----- delivery order and duplication -----

  /** Deliveries that repeat an id repeat the whole event. */
  ghost predicate Consistent(events: seq<Event>) {
    forall x, y :: x in events && y in events && x.id == y.id ==> x == y
  }

  ghost predicate Holds(groups: Groups, k: Key, c: Candidate) {
    k in groups && c in groups[k]
  }

  /** The first delivery of its id: the one that counts, whatever later deliveries of that id hold. */
  ghost predicate Counted(events: seq<Event>, e: Event) {
    exists i :: 0 <= i < |events| && FirstAt(events, i, e)
  }

  ghost predicate FirstAt(events: seq<Event>, i: nat, e: Event)
    requires i < |events|
  {
    events[i] == e && !SeenId(events[..i], e.id)
  }

  ghost predicate Contributes(policy: Policy, events: seq<Event>, k: Key, c: Candidate) {
    exists e :: Counted(events, e) && Contribution(policy, e) == Ok(Some((k, c)))
  }

  lemma CountedAppend(front: seq<Event>, e: Event, x: Event)
    ensures Counted(front + [e], x) <==> Counted(front, x) || (x == e && !SeenId(front, e.id))
  {
    var all := front + [e];
    hide SeenId;
    if Counted(front, x) {
      var i :| 0 <= i < |front| && FirstAt(front, i, x);
      assert all[..i] == front[..i] && FirstAt(all, i, x);
    }
    if x == e && !SeenId(front, e.id) {
      assert all[..|front|] == front && FirstAt(all, |front|, x);
    }
    if Counted(all, x) {
      var i :| 0 <= i < |all| && FirstAt(all, i, x);
      if i < |front| {
        assert all[..i] == front[..i] && FirstAt(front, i, x);
      } else {
        assert all[..i] == front;
      }
    }
  }

  /** One event counts for each id. */
  lemma CountedOnce(events: seq<Event>, x: Event, y: Event)
    requires Counted(events, x) && Counted(events, y) && x.id == y.id
    ensures x == y && x in events
  {
    var i :| 0 <= i < |events| && FirstAt(events, i, x);
    var j :| 0 <= j < |events| && FirstAt(events, j, y);
    EarlierIsSeen(events, i, j);
    EarlierIsSeen(events, j, i);
    hide SeenId;
  }

  lemma EarlierIsSeen(events: seq<Event>, i: nat, j: nat)
    requires i < |events| && j < |events|
    ensures i < j ==> SeenId(events[..j], events[i].id)
  {
    if i < j {
      assert events[..j][i] == events[i];
    }
  }

  /** Among consistent deliveries every event counts. */
  lemma {:induction false} ConsistentCounts(events: seq<Event>, e: Event)
    requires Consistent(events)
    ensures Counted(events, e) <==> e in events
  {
    if events != [] {
      var n := |events| - 1;
      var front, last := events[..n], events[n];
      assert events == front + [last];
      assert Consistent(front);
      ConsistentCounts(front, e);
      CountedAppend(front, last, e);
      hide Counted;
      if e == last && SeenId(front, e.id) {
        var x :| x in front && x.id == e.id;
        assert x in events;
      }
    }
  }

  /** The identities of all deliveries, and the answers about those that count, are in order. */
  ghost predicate Answered(policy: Policy, events: seq<Event>) {
    && (forall e :: e in events ==> IsUuidV7(e.id) && IsUuidV7(e.tenant))
    && (forall e :: Counted(events, e) ==> Answers(policy, e))
  }

  /** Each question asked about the event is answered: the group only of a match, the time only of a group. */
  predicate Answers(policy: Policy, e: Event) {
    && policy.matches(e).Ok?
    && (policy.matches(e).value ==>
          policy.groupKey(e).Ok? && (policy.groupKey(e).value.Some? ==> policy.time(e).Ok?))
  }

  /** The event matches, belongs to the group and carries a time. */
  predicate BelongsTo(policy: Policy, k: Key, e: Event) {
    && e.tenant == k.0 && policy.matches(e) == Ok(true) && policy.groupKey(e) == Ok(Some(k.1))
    && policy.time(e).Ok? && policy.time(e).value.Some?
  }

  function TimeOf(policy: Policy, e: Event): int {
    match policy.time(e)
    case Ok(Some(millis)) => millis
    case _ => 0
  }

  /** An event contributes its own identity and time to its own tenant's group, exactly when it belongs there. */
  lemma ContributionIff(policy: Policy, e: Event, k: Key, c: Candidate)
    ensures Contribution(policy, e) == Ok(Some((k, c))) <==>
            BelongsTo(policy, k, e) && policy.time(e) == Ok(Some(c.time)) && c.id == e.id
    ensures Contribution(policy, e).Ok? <==> Answers(policy, e)
  {
  }

  lemma AnsweredAppend(policy: Policy, front: seq<Event>, e: Event)
    ensures Answered(policy, front + [e]) <==>
            && Answered(policy, front) && IsUuidV7(e.id) && IsUuidV7(e.tenant)
            && (!SeenId(front, e.id) ==> Answers(policy, e))
  {
    hide Answers, Counted, SeenId, IsUuidV7;
    var all := front + [e];
    assert forall x :: x in all <==> x in front || x == e;
    forall x
      ensures Counted(all, x) <==> Counted(front, x) || (x == e && !SeenId(front, e.id))
    {
      CountedAppend(front, e, x);
    }
  }

  /** Collecting succeeds exactly when every identity is valid and every counted event gets its answers. */
  lemma {:induction false} CollectSucceeds(policy: Policy, events: seq<Event>)
    ensures Collect(policy, events).Ok? <==> Answered(policy, events)
  {
    if events != [] {
      var n := |events| - 1;
      var front, e := events[..n], events[n];
      assert events == front + [e];
      CollectSucceeds(policy, front);
      AnsweredAppend(policy, front, e);
      ContributionIff(policy, e, ("", []), Candidate("", 0));
      hide Answers, Answered, Contribution, SeenId, IsUuidV7;
    } else {
      assert Answered(policy, events);
    }
  }

  lemma NothingContributed(policy: Policy, k: Key, c: Candidate)
    ensures !Holds(map[], k, c) && !Contributes(policy, [], k, c)
  {
    hide Contribution;
  }

  /** The groups hold exactly what the counted events contribute. */
  lemma {:induction false} CollectHoldsContributions(policy: Policy, events: seq<Event>)
    requires Collect(policy, events).Ok?
    ensures var groups := Collect(policy, events).value;
            && (forall k :: k in groups ==> groups[k] != [])
            && forall k, c :: Holds(groups, k, c) <==> Contributes(policy, events, k, c)
  {
    hide Contribution, Contributes, Holds, SeenId, IsUuidV7;
    if events == [] {
      forall k, c
        ensures Holds(map[], k, c) <==> Contributes(policy, events, k, c)
      {
        NothingContributed(policy, k, c);
      }
    } else {
      var n := |events| - 1;
      var e, front := events[n], events[..n];
      assert events == front + [e];
      CollectHoldsContributions(policy, front);
      var groups, before := Collect(policy, events).value, Collect(policy, front).value;
      forall k, c
        ensures Holds(groups, k, c) <==> Contributes(policy, events, k, c)
      {
        ContributesAppend(policy, front, e, k, c);
        if !SeenId(front, e.id) {
          AddedMember(before, Contribution(policy, e).value, k, c);
        }
      }
    }
  }

  lemma AddedMember(groups: Groups, entry: Option<(Key, Candidate)>, k: Key, c: Candidate)
    ensures var after := AddCandidate(groups, entry);
            Holds(after, k, c) <==> Holds(groups, k, c) || entry == Some((k, c))
  {
  }

  lemma ContributesAppend(policy: Policy, front: seq<Event>, e: Event, k: Key, c: Candidate)
    ensures Contributes(policy, front + [e], k, c) <==>
            Contributes(policy, front, k, c) || (!SeenId(front, e.id) && Contribution(policy, e) == Ok(Some((k, c))))
  {
    hide Counted, SeenId, Contribution;
    forall x
      ensures Counted(front + [e], x) <==> Counted(front, x) || (x == e && !SeenId(front, e.id))
    {
      CountedAppend(front, e, x);
    }
  }

  /**
   * Delivery order and repetition do not matter: two deliveries of the same events both fail or
   * produce the same match for every tenant and group key.
   */
  lemma DeliveryOrderIrrelevant(
      plan: Plan, a: seq<Event>, b: seq<Event>, mode: ExecutionMode, at: Timestamp, policy: Policy)
    requires Consistent(a) && forall e :: e in a <==> e in b
    ensures Evaluated(plan, a, mode, at, policy).Ok? == Evaluated(plan, b, mode, at, policy).Ok?
    ensures Evaluated(plan, a, mode, at, policy).Ok? ==>
      Evaluated(plan, a, mode, at, policy) == Evaluated(plan, b, mode, at, policy)
  {
    CollectSucceeds(policy, a);
    CollectSucceeds(policy, b);
    SameCounted(a, b);
    hide Counted, Consistent, Contribution;
    if Collect(policy, a).Ok? {
      CollectHoldsContributions(policy, a);
      CollectHoldsContributions(policy, b);
      var ga, gb := Collect(policy, a).value, Collect(policy, b).value;
      CollectedIdsAreSeen(policy, a);
      CollectedIdsAreSeen(policy, b);
      assert forall k, c :: Contributes(policy, a, k, c) <==> Contributes(policy, b, k, c);
      forall k
        ensures k in ga <==> k in gb
        ensures k in ga ==> EmitGroup(plan, ga[k]) == EmitGroup(plan, gb[k])
      {
        if k in ga {
          assert Holds(ga, k, ga[k][0]);
        }
        if k in gb {
          assert Holds(gb, k, gb[k][0]);
        }
        if k in ga {
          assert forall c :: Holds(ga, k, c) <==> Holds(gb, k, c);
          assert forall c :: c in ga[k] <==> Holds(ga, k, c);
          assert forall c :: c in gb[k] <==> Holds(gb, k, c);
          SortsAgree(ga[k], gb[k]);
        }
      }
      SameEmissions(plan, ga, gb);
    }
  }

  lemma SameCounted(a: seq<Event>, b: seq<Event>)
    requires Consistent(a) && forall e :: e in a <==> e in b
    ensures forall e :: Counted(a, e) <==> Counted(b, e)
  {
    assert Consistent(b);
    forall e
      ensures Counted(a, e) <==> Counted(b, e)
    {
      ConsistentCounts(a, e);
      ConsistentCounts(b, e);
    }
  }

  lemma SortsAgree(a: seq<Candidate>, b: seq<Candidate>)
    requires Distinct(a) && Distinct(b) && forall c :: c in a <==> c in b
    ensures Sort(Before, a) == Sort(Before, b)
  {
    BeforeIsStrictOrder();
    SortIsSorted(Before, a);
    SortIsSorted(Before, b);
    SortedUnique(Before, Sort(Before, a), Sort(Before, b));
  }

  lemma SameEmissions(plan: Plan, ga: Groups, gb: Groups)
    requires forall k :: k in ga <==> k in gb
    requires forall k :: k in ga ==> EmitGroup(plan, ga[k]) == EmitGroup(plan, gb[k])
    ensures EmitAll(plan, ga) == EmitAll(plan, gb)
  {
    if EmitAll(plan, ga).Ok? {
      assert EmitAll(plan, ga).value == EmitAll(plan, gb).value;
    } else {
      var k :| k in ga && EmitGroup(plan, ga[k]).Err?;
      assert k in gb && EmitGroup(plan, gb[k]).Err?;
    }
  }

  /** No match mixes tenants or group keys: every contributor is a delivered event of that very group. */
  lemma MatchesStayInGroup(plan: Plan, events: seq<Event>, mode: ExecutionMode, at: Timestamp, policy: Policy, k: Key)
    requires Evaluated(plan, events, mode, at, policy).Ok? && k in Evaluated(plan, events, mode, at, policy).value
    ensures var m := Evaluated(plan, events, mode, at, policy).value[k];
            && |m.ids| == plan.threshold && Distinct(m.ids)
            && ValidTimestamp(m.first) && ValidTimestamp(m.last) && TimestampLe(m.first, m.last)
            && forall i :: 0 <= i < |m.ids| ==> MemberOf(policy, events, k, m.ids[i])
  {
    var groups := Collect(policy, events).value;
    CollectedIdsAreSeen(policy, events);
    var w := EmittedWindow(plan, groups[k]);
    var m := Evaluated(plan, events, mode, at, policy).value[k];
    assert Ok(Some(m)) == Provenance(w);
    CollectSucceeds(policy, events);
    CollectHoldsContributions(policy, events);
    hide Collect, Contributes, Answered, EmitGroup;
    forall c | c in w
      ensures Contributes(policy, events, k, c)
    {
      assert Holds(groups, k, c);
    }
    WindowMembers(policy, events, k, w);
  }

  lemma Contributor(policy: Policy, events: seq<Event>, k: Key, c: Candidate) returns (e: Event)
    requires Answered(policy, events) && Contributes(policy, events, k, c)
    ensures Counted(events, e) && e.id == c.id && Contribution(policy, e) == Ok(Some((k, c)))
    ensures MemberOf(policy, events, k, c.id)
  {
    e :| Counted(events, e) && Contribution(policy, e) == Ok(Some((k, c)));
    CountedOnce(events, e, e);
  }

  /** Different contributions to one group come from different ids. */
  lemma ContributorsDiffer(policy: Policy, events: seq<Event>, k: Key, c: Candidate, d: Candidate)
    requires Answered(policy, events) && Contributes(policy, events, k, c) && Contributes(policy, events, k, d)
      && c.id == d.id
    ensures c == d
  {
    hide Contributes, Answered;
    var x := Contributor(policy, events, k, c);
    var y := Contributor(policy, events, k, d);
    CountedOnce(events, x, y);
  }

  lemma WindowMembers(policy: Policy, events: seq<Event>, k: Key, w: seq<Candidate>)
    requires Answered(policy, events) && Distinct(w) && forall c :: c in w ==> Contributes(policy, events, k, c)
    ensures forall i :: 0 <= i < |w| ==> MemberOf(policy, events, k, w[i].id)
    ensures forall i, j :: 0 <= i < j < |w| ==> w[i].id != w[j].id
  {
    hide Contributes, Answered, MemberOf;
    forall i | 0 <= i < |w|
      ensures MemberOf(policy, events, k, w[i].id)
    {
      var e := Contributor(policy, events, k, w[i]);
    }
    forall i, j | 0 <= i < j < |w|
      ensures w[i].id != w[j].id
    {
      if w[i].id == w[j].id {
        ContributorsDiffer(policy, events, k, w[i], w[j]);
      }
    }
  }

  // ----- when a group emits -----

  /** `threshold` distinct contributions of counted events to the group, spanning at most the window. */
  ghost predicate QualifyingCandidates(plan: Plan, events: seq<Event>, policy: Policy, k: Key, s: set<Candidate>) {
    Qualifies(s, plan.threshold, plan.window) && forall c :: c in s ==> Contributes(policy, events, k, c)
  }

  lemma GroupEmitsIff(plan: Plan, candidates: seq<Candidate>)
    requires Distinct(candidates) && EmitGroup(plan, candidates).Ok?
    ensures EmitGroup(plan, candidates).value.Some? <==>
            exists s: set<Candidate> :: s <= Elements(candidates) && Qualifies(s, plan.threshold, plan.window)
  {
    var sorted := Sort(Before, candidates);
    BeforeIsStrictOrder();
    SortIsSorted(Before, candidates);
    EmitsIffQualifyingSetExists(sorted, plan.threshold, plan.window);
    assert Elements(sorted) == Elements(candidates);
    hide Qualifies, StrictOrder;
    if FirstWindow(sorted, plan.threshold, plan.window, 0).Some? {
      EmittedWindowQualifies(sorted, plan.threshold, plan.window);
    }
  }

  lemma EvaluatedGroup(plan: Plan, events: seq<Event>, mode: ExecutionMode, at: Timestamp, policy: Policy, k: Key)
    requires Evaluated(plan, events, mode, at, policy).Ok?
    ensures var groups, matches := Collect(policy, events).value, Evaluated(plan, events, mode, at, policy).value;
            && Collect(policy, events).Ok?
            && (k in matches <==>
              k in groups && EmitGroup(plan, groups[k]).Ok? && EmitGroup(plan, groups[k]).value.Some?)
            && (k in groups ==> EmitGroup(plan, groups[k]).Ok?)
            && (k in matches ==> EmitGroup(plan, groups[k]) == Ok(Some(matches[k])))
  {
    hide Collect, EmitGroup;
  }

  /** A tenant's group is reported exactly when its candidates hold a qualifying set. */
  lemma GroupReportsIff(plan: Plan, events: seq<Event>, mode: ExecutionMode, at: Timestamp, policy: Policy, k: Key)
    requires Evaluated(plan, events, mode, at, policy).Ok?
    ensures k in Evaluated(plan, events, mode, at, policy).value <==>
            exists s :: QualifyingCandidates(plan, events, policy, k, s)
  {
    EvaluatedGroup(plan, events, mode, at, policy, k);
    CollectHoldsContributions(policy, events);
    CollectedIdsAreSeen(policy, events);
    var groups := Collect(policy, events).value;
    hide Evaluated, Collect, Contributes, EmitGroup, Qualifies;
    if s :| QualifyingCandidates(plan, events, policy, k, s) {
      QualifyingHasGroup(plan, events, policy, k, s, groups);
    }
    if k in groups {
      GroupEmitsIff(plan, groups[k]);
      assert forall c :: c in Elements(groups[k]) <==> Holds(groups, k, c);
      if s: set<Candidate> :| s <= Elements(groups[k]) && Qualifies(s, plan.threshold, plan.window) {
        assert QualifyingCandidates(plan, events, policy, k, s);
      }
      if s :| QualifyingCandidates(plan, events, policy, k, s) {
        assert s <= Elements(groups[k]);
      }
    }
  }

  lemma QualifyingHasGroup(plan: Plan, events: seq<Event>, policy: Policy, k: Key, s: set<Candidate>, groups: Groups)
    requires QualifyingCandidates(plan, events, policy, k, s)
    requires forall c :: Contributes(policy, events, k, c) ==> Holds(groups, k, c)
    ensures k in groups
  {
    var c :| c in s;
    assert Contributes(policy, events, k, c);
  }

  /** What was reported: the members in (time, id) order, with the times of the first and the last of them. */
  ghost predicate Reports(m: Match, w: seq<Candidate>) {
    && |w| > 0 && |m.ids| == |w| && (forall i :: 0 <= i < |w| ==> m.ids[i] == w[i].id)
    && m.first == TimestampFromMillis(w[0].time) && m.last == TimestampFromMillis(w[|w| - 1].time)
  }

  lemma ReportedWindow(
    plan: Plan, events: seq<Event>, mode: ExecutionMode, at: Timestamp, policy: Policy, k: Key, s: set<Candidate>)
    returns (w: seq<Candidate>)
    requires Evaluated(plan, events, mode, at, policy).Ok? && k in Evaluated(plan, events, mode, at, policy).value
    requires QualifyingCandidates(plan, events, policy, k, s)
    ensures Reports(Evaluated(plan, events, mode, at, policy).value[k], w) && Sorted(Before, w)
    ensures |w| == plan.threshold && QualifyingCandidates(plan, events, policy, k, Elements(w))
    ensures exists x :: x in s && (x == w[|w| - 1] || Before(w[|w| - 1], x))
  {
    EvaluatedGroup(plan, events, mode, at, policy, k);
    CollectHoldsContributions(policy, events);
    CollectedIdsAreSeen(policy, events);
    var groups := Collect(policy, events).value;
    hide Evaluated, Collect, Contributes;
    assert forall c :: c in Elements(groups[k]) <==> Holds(groups, k, c);
    w := EarliestWindow(plan, groups[k], s);
    forall c | c in Elements(w)
      ensures Contributes(policy, events, k, c)
    {
      assert Holds(groups, k, c);
    }
  }

  lemma EarliestWindow(plan: Plan, candidates: seq<Candidate>, s: set<Candidate>) returns (w: seq<Candidate>)
    requires Distinct(candidates) && s <= Elements(candidates) && Qualifies(s, plan.threshold, plan.window)
    requires EmitGroup(plan, candidates).Ok? && EmitGroup(plan, candidates).value.Some?
    ensures Reports(EmitGroup(plan, candidates).value.value, w) && Sorted(Before, w)
    ensures |w| == plan.threshold && Elements(w) <= Elements(candidates)
      && Qualifies(Elements(w), plan.threshold, plan.window)
    ensures exists x :: x in s && (x == w[|w| - 1] || Before(w[|w| - 1], x))
  {
    hide FirstWindow, Qualifies, StrictOrder, Sorted, TimestampFromMillis, ValidTimestamp;
    var sorted := Sort(Before, candidates);
    BeforeIsStrictOrder();
    SortIsSorted(Before, candidates);
    assert Elements(sorted) == Elements(candidates);
    EmittedWindowQualifies(sorted, plan.threshold, plan.window);
    EmittedWindowEndsEarliest(sorted, plan.threshold, plan.window, s);
    w := FirstWindow(sorted, plan.threshold, plan.window, 0).value;
    ProvenanceReports(w);
  }

  lemma ProvenanceReports(w: seq<Candidate>)
    requires w != [] && Provenance(w).Ok?
    ensures Provenance(w).value.Some? && Reports(Provenance(w).value.value, w)
  {
    hide TimestampFromMillis, ValidTimestamp;
  }

  /** A delivered event with this id that matched the filter and belongs to the group `k`. */
  ghost predicate MemberOf(policy: Policy, events: seq<Event>, k: Key, id: string) {
    exists e :: e in events && e.id == id && e.tenant == k.0 && IsUuidV7(e.id) && IsUuidV7(e.tenant)
                && policy.matches(e) == Ok(true) && policy.groupKey(e) == Ok(Some(k.1))
  }

  lemma EmittedWindow(plan: Plan, candidates: seq<Candidate>) returns (w: seq<Candidate>)
    requires Distinct(candidates)
    requires EmitGroup(plan, candidates).Ok? && EmitGroup(plan, candidates).value.Some?
    ensures |w| == plan.threshold && Distinct(w) && EmitGroup(plan, candidates) == Provenance(w)
    ensures TimestampLe(TimestampFromMillis(w[0].time), TimestampFromMillis(w[|w| - 1].time))
    ensures forall c :: c in w ==> c in candidates
  {
    BeforeIsStrictOrder();
    SortIsSorted(Before, candidates);
    var sorted := Sort(Before, candidates);
    EmittedWindowQualifies(sorted, plan.threshold, plan.window);
    w := FirstWindow(sorted, plan.threshold, plan.window, 0).value;
    MillisSplit(w[0].time, w[|w| - 1].time);
    assert |w| == 1 || Before(w[0], w[|w| - 1]);
    assert forall c :: c in w ==> c in Elements(w);
  }

  // ----- the same, of the delivered events -----

  /** An event that counts and belongs to the group. */
  ghost predicate CountsFor(policy: Policy, events: seq<Event>, k: Key, e: Event) {
    Counted(events, e) && BelongsTo(policy, k, e)
  }

  /** `threshold` events that count for the group, their times pairwise within the window. */
  ghost predicate Qualifying(plan: Plan, events: seq<Event>, policy: Policy, k: Key, members: set<Event>) {
    && |members| == plan.threshold
    && (forall e :: e in members ==> CountsFor(policy, events, k, e))
    && forall x, y :: x in members && y in members ==> TimeOf(policy, x) - TimeOf(policy, y) <= plan.window
  }

  function CandidateOf(policy: Policy, e: Event): Candidate {
    Candidate(e.id, TimeOf(policy, e))
  }

  lemma CountsIff(policy: Policy, events: seq<Event>, k: Key, c: Candidate)
    ensures Contributes(policy, events, k, c) <==>
            exists e :: CountsFor(policy, events, k, e) && c == CandidateOf(policy, e)
  {
    hide Counted, BelongsTo, Contribution;
    forall e
      ensures Contribution(policy, e) == Ok(Some((k, c))) <==>
              BelongsTo(policy, k, e) && c == CandidateOf(policy, e)
    {
      ContributionIff(policy, e, k, c);
      if BelongsTo(policy, k, e) {
        Timed(policy, k, e);
      }
    }
  }

  lemma Timed(policy: Policy, k: Key, e: Event)
    requires BelongsTo(policy, k, e)
    ensures policy.time(e) == Ok(Some(TimeOf(policy, e)))
  {
  }

  ghost function CandidatesOf(policy: Policy, members: set<Event>): set<Candidate> {
    set e | e in members :: CandidateOf(policy, e)
  }

  lemma {:induction false} CandidatesCounted(policy: Policy, members: set<Event>)
    requires forall x, y :: x in members && y in members && x.id == y.id ==> x == y
    ensures |CandidatesOf(policy, members)| == |members|
  {
    if members != {} {
      var e :| e in members;
      CandidatesCounted(policy, members - {e});
      assert CandidatesOf(policy, members) == CandidatesOf(policy, members - {e}) + {CandidateOf(policy, e)};
    }
  }

  lemma CountsOnce(policy: Policy, events: seq<Event>, k: Key, members: set<Event>)
    requires forall e :: e in members ==> CountsFor(policy, events, k, e)
    ensures forall x, y :: x in members && y in members && x.id == y.id ==> x == y
  {
    hide Counted, BelongsTo;
    forall x, y | x in members && y in members && x.id == y.id
      ensures x == y
    {
      CountedOnce(events, x, y);
    }
  }

  lemma EventsQualify(plan: Plan, events: seq<Event>, policy: Policy, k: Key, members: set<Event>)
    requires Qualifying(plan, events, policy, k, members)
    ensures QualifyingCandidates(plan, events, policy, k, CandidatesOf(policy, members))
  {
    hide CountsFor, Contributes, TimeOf;
    CountsOnce(policy, events, k, members);
    CandidatesCounted(policy, members);
    forall c | c in CandidatesOf(policy, members)
      ensures Contributes(policy, events, k, c)
    {
      CountsIff(policy, events, k, c);
    }
  }

  /** The events behind a sequence of contributions, one for one. */
  lemma {:induction false} EventsBehind(policy: Policy, events: seq<Event>, k: Key, w: seq<Candidate>)
    returns (members: seq<Event>)
    requires forall c :: c in w ==> Contributes(policy, events, k, c)
    ensures |members| == |w|
    ensures forall i :: 0 <= i < |w| ==>
              CountsFor(policy, events, k, members[i]) && w[i] == CandidateOf(policy, members[i])
  {
    hide CountsFor, Contributes, TimeOf;
    members := [];
    if w != [] {
      var n := |w| - 1;
      assert w[n] in w;
      members := EventsBehind(policy, events, k, w[..n]);
      CountsIff(policy, events, k, w[n]);
      var e :| CountsFor(policy, events, k, e) && w[n] == CandidateOf(policy, e);
      members := members + [e];
    }
  }

  lemma {:induction false} Listed(s: set<Candidate>) returns (w: seq<Candidate>)
    ensures |w| == |s| && Distinct(w) && forall c :: c in w <==> c in s
  {
    w := [];
    if s != {} {
      var c :| c in s;
      var rest := Listed(s - {c});
      w := [c] + rest;
    }
  }

  lemma {:induction false} ElementsCounted(members: seq<Event>)
    requires Distinct(members)
    ensures |set e | e in members| == |members|
  {
    if members == [] {
      assert (set e | e in members) == {};
    } else {
      ElementsCounted(members[1..]);
      assert members == [members[0]] + members[1..];
      assert (set e | e in members) == {members[0]} + set e | e in members[1..];
    }
  }

  lemma CandidatesQualify(plan: Plan, events: seq<Event>, policy: Policy, k: Key, s: set<Candidate>)
    returns (members: set<Event>)
    requires QualifyingCandidates(plan, events, policy, k, s)
    ensures Qualifying(plan, events, policy, k, members)
  {
    hide CountsFor, Contributes, TimeOf;
    var w := Listed(s);
    var list := EventsBehind(policy, events, k, w);
    forall i, j | 0 <= i < j < |list|
      ensures list[i] != list[j]
    {
      assert w[i] != w[j];
    }
    ElementsCounted(list);
    members := set e | e in list;
    forall x, y | x in members && y in members
      ensures TimeOf(policy, x) - TimeOf(policy, y) <= plan.window
    {
      var i :| 0 <= i < |list| && list[i] == x;
      var j :| 0 <= j < |list| && list[j] == y;
      assert w[i] in s && w[j] in s;
    }
  }

  /**
   * A tenant's group is reported if and only if some `threshold` distinct events that count match,
   * belong to it and lie pairwise within the window, whatever the duplicates among the deliveries hold.
   */
  lemma ReportsIffQualifying(plan: Plan, events: seq<Event>, mode: ExecutionMode, at: Timestamp, policy: Policy, k: Key)
    requires Evaluated(plan, events, mode, at, policy).Ok?
    ensures k in Evaluated(plan, events, mode, at, policy).value <==>
            exists members :: Qualifying(plan, events, policy, k, members)
  {
    hide Evaluated, Qualifying, QualifyingCandidates;
    GroupReportsIff(plan, events, mode, at, policy, k);
    if members :| Qualifying(plan, events, policy, k, members) {
      EventsQualify(plan, events, policy, k, members);
    }
    if s :| QualifyingCandidates(plan, events, policy, k, s) {
      var members := CandidatesQualify(plan, events, policy, k, s);
    }
  }

  predicate EventBefore(policy: Policy, x: Event, y: Event) {
    TimeOf(policy, x) < TimeOf(policy, y) || (TimeOf(policy, x) == TimeOf(policy, y) && StringLess(x.id, y.id))
  }

  /** The match lists these events in (time, id) order, and runs from the least of their times to the greatest. */
  ghost predicate ReportsEvents(policy: Policy, m: Match, w: seq<Event>) {
    && |w| > 0 && |m.ids| == |w| && (forall i :: 0 <= i < |w| ==> m.ids[i] == w[i].id)
    && (forall i, j :: 0 <= i < j < |w| ==> EventBefore(policy, w[i], w[j]))
    && (forall i :: 0 <= i < |w| ==>
          TimeOf(policy, w[0]) <= TimeOf(policy, w[i]) <= TimeOf(policy, w[|w| - 1]))
    && m.first == TimestampFromMillis(TimeOf(policy, w[0]))
    && m.last == TimestampFromMillis(TimeOf(policy, w[|w| - 1]))
  }

  /** What is reported are qualifying events in order, and no qualifying set of events ends before them. */
  lemma ReportedEndsEarliest(
    plan: Plan, events: seq<Event>, mode: ExecutionMode, at: Timestamp, policy: Policy, k: Key, members: set<Event>)
    returns (w: seq<Event>)
    requires Evaluated(plan, events, mode, at, policy).Ok? && k in Evaluated(plan, events, mode, at, policy).value
    requires Qualifying(plan, events, policy, k, members)
    ensures ReportsEvents(policy, Evaluated(plan, events, mode, at, policy).value[k], w)
    ensures |w| == plan.threshold && Qualifying(plan, events, policy, k, set e | e in w)
    ensures exists e :: e in members && (e == w[|w| - 1] || EventBefore(policy, w[|w| - 1], e))
  {
    hide Evaluated, Qualifying, QualifyingCandidates, Sorted, CountsFor, Reports, ReportsEvents;
    EventsQualify(plan, events, policy, k, members);
    var s := CandidatesOf(policy, members);
    var c := ReportedWindow(plan, events, mode, at, policy, k, s);
    w := EventsOfWindow(plan, events, policy, k, c);
    WindowReports(policy, Evaluated(plan, events, mode, at, policy).value[k], c, w);
    EndsNoLater(plan, events, policy, k, members, c, w);
  }

  lemma EventsOfWindow(plan: Plan, events: seq<Event>, policy: Policy, k: Key, c: seq<Candidate>)
    returns (w: seq<Event>)
    requires |c| == plan.threshold && Sorted(Before, c)
    requires QualifyingCandidates(plan, events, policy, k, Elements(c))
    ensures |w| == |c| && (forall i :: 0 <= i < |c| ==> c[i] == CandidateOf(policy, w[i]))
    ensures Qualifying(plan, events, policy, k, set e | e in w)
  {
    hide CountsFor, Contributes, TimeOf, Sorted, Before;
    forall x | x in c
      ensures Contributes(policy, events, k, x)
    {
      assert x in Elements(c);
    }
    w := EventsBehind(policy, events, k, c);
    SortedDistinct(c);
    forall i, j | 0 <= i < j < |w|
      ensures w[i] != w[j]
    {
      assert c[i] != c[j];
    }
    ElementsCounted(w);
    forall x, y | x in w && y in w
      ensures TimeOf(policy, x) - TimeOf(policy, y) <= plan.window
    {
      var i :| 0 <= i < |w| && w[i] == x;
      var j :| 0 <= j < |w| && w[j] == y;
      assert c[i] in Elements(c) && c[j] in Elements(c);
    }
  }

  lemma WindowReports(policy: Policy, m: Match, c: seq<Candidate>, w: seq<Event>)
    requires Reports(m, c) && Sorted(Before, c) && |w| == |c|
    requires forall i :: 0 <= i < |c| ==> c[i] == CandidateOf(policy, w[i])
    ensures ReportsEvents(policy, m, w)
  {
    hide TimeOf, TimestampFromMillis;
    TimesAscend(c);
    forall i, j | 0 <= i < j < |w|
      ensures EventBefore(policy, w[i], w[j])
    {
      assert Before(c[i], c[j]);
    }
  }

  lemma EndsNoLater(
      plan: Plan, events: seq<Event>, policy: Policy, k: Key, members: set<Event>, c: seq<Candidate>, w: seq<Event>)
    requires |w| == |c| > 0 && forall i :: 0 <= i < |c| ==> c[i] == CandidateOf(policy, w[i])
    requires Qualifying(plan, events, policy, k, members) && Qualifying(plan, events, policy, k, set e | e in w)
    requires exists x :: x in CandidatesOf(policy, members) && (x == c[|c| - 1] || Before(c[|c| - 1], x))
    ensures exists e :: e in members && (e == w[|w| - 1] || EventBefore(policy, w[|w| - 1], e))
  {
    hide TimeOf, Counted, Qualifying;
    var last := w[|w| - 1];
    var x :| x in CandidatesOf(policy, members) && (x == c[|c| - 1] || Before(c[|c| - 1], x));
    var e :| e in members && x == CandidateOf(policy, e);
    if x == c[|c| - 1] {
      MemberCounts(plan, events, policy, k, members, e);
      MemberCounts(plan, events, policy, k, (set y | y in w), last);
      CountedOnce(events, e, last);
    }
  }

  lemma MemberCounts(plan: Plan, events: seq<Event>, policy: Policy, k: Key, members: set<Event>, e: Event)
    requires Qualifying(plan, events, policy, k, members) && e in members
    ensures Counted(events, e)
  {
    hide Counted, BelongsTo, TimeOf;
    assert CountsFor(policy, events, k, e);
  }

  // ----- when evaluation succeeds -----

  /** The calendar holds the time of every event that counts for some group. */
  ghost predicate TimesRepresentable(policy: Policy, events: seq<Event>) {
    forall k, e :: CountsFor(policy, events, k, e) ==> ValidTimestamp(TimestampFromMillis(TimeOf(policy, e)))
  }

  lemma GroupSucceeds(plan: Plan, events: seq<Event>, policy: Policy, k: Key)
    requires Collect(policy, events).Ok? && TimesRepresentable(policy, events) && k in Collect(policy, events).value
    ensures EmitGroup(plan, Collect(policy, events).value[k]).Ok?
  {
    var group := Collect(policy, events).value[k];
    CollectHoldsContributions(policy, events);
    hide Collect, CountsFor, Contributes, TimestampFromMillis, ValidTimestamp;
    forall c | c in group
      ensures ValidTimestamp(TimestampFromMillis(c.time))
    {
      assert Holds(Collect(policy, events).value, k, c);
      CountsIff(policy, events, k, c);
    }
    WindowSucceeds(plan, group);
  }

  lemma WindowSucceeds(plan: Plan, group: seq<Candidate>)
    requires forall c :: c in group ==> ValidTimestamp(TimestampFromMillis(c.time))
    ensures EmitGroup(plan, group).Ok?
  {
    hide TimestampFromMillis, ValidTimestamp;
    var sorted := Sort(Before, group);
    var w := FirstWindow(sorted, plan.threshold, plan.window, 0);
    if w.Some? {
      WindowInside(sorted, plan.threshold, plan.window, 0);
    }
  }

  lemma {:induction false} WindowInside(c: seq<Candidate>, threshold: nat, window: int, r: nat)
    requires 1 <= threshold && r <= |c| && FirstWindow(c, threshold, window, r).Some?
    ensures forall x :: x in FirstWindow(c, threshold, window, r).value ==> x in c
    decreases |c| - r
  {
    if !WindowEndsAt(c, threshold, window, r) {
      WindowInside(c, threshold, window, r + 1);
    }
  }

  /**
   * Where the calendar holds every time, evaluation succeeds exactly at a valid instant, under a
   * stated mode, with valid identities and every asked question answered.
   */
  lemma EvaluationSucceedsIff(plan: Plan, events: seq<Event>, mode: ExecutionMode, at: Timestamp, policy: Policy)
    requires TimesRepresentable(policy, events)
    ensures Evaluated(plan, events, mode, at, policy).Ok? <==>
            ValidTimestamp(at) && mode != Unspecified && Answered(policy, events)
  {
    CollectSucceeds(policy, events);
    hide Answered, Collect, EmitGroup, TimesRepresentable, ValidTimestamp;
    if Collect(policy, events).Ok? {
      forall k | k in Collect(policy, events).value
        ensures EmitGroup(plan, Collect(policy, events).value[k]).Ok?
      {
        GroupSucceeds(plan, events, policy, k);
      }
    }
  }
}
