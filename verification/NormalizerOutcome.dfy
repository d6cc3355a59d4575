/** What one delivery comes to when nothing outside disturbs it. */
module NormalizerOutcome {
  import opened Wrappers
  import opened NormalizerProtocol
  import opened NormalizerRuntime
  import R = RetryState

  /** Every outside call takes effect and answers. */
  predicate Calm(a: Answers) {
    && a.reachable && a.idReadable && a.findFault.None? && a.insertFault.None? && a.stored && a.readFault.None?
    && a.sending.Confirmed? && a.clearFault == R.NoFault && a.acked && a.recordFault == R.NoFault
    && a.deadSending.Confirmed? && a.termed && a.termReported && a.cleanFault == R.NoFault
  }

  /** How processing ends: with a row to publish, or with an error. */
  datatype Ending = Publishes(identity: Identity, row: Row) | Fails(messageId: Option<string>, error: Error)

  /** The row stored under the derivation's key decides; without one, a new row is made from the plan. */
  ghost predicate EndsIn(s: System, a: Answers, e: Ending) {
    match a.decoded
    case Err(error) => e == Fails(None, error)
    case Ok(incoming) =>
      match a.derived
      case Err(error) => e == Fails(Some(incoming.messageId), error)
      case Ok(identity) =>
        if exists row :: StoredUnder(s, identity.logicalKey, row) then
          exists row :: StoredUnder(s, identity.logicalKey, row)
            && e == if row.plan.identity == identity && row.plan.rawEventId == incoming.rawEventId
                    then Publishes(identity, row) else Fails(Some(incoming.messageId), CONFLICT)
        else match a.plan
          case Err(error) => e == Fails(Some(incoming.messageId), error)
          case Ok(made) =>
            if made.identity.logicalKey != identity.logicalKey then e == Fails(Some(incoming.messageId), DERIVATION)
            else e == Publishes(made.identity,
              Row(Plan(made.identity, incoming.rawEventId, made.hashAlgorithm, made.hash), a.publicationId))
  }

  /** The dead letter is out, the message terminated and its lifecycle forgotten. */
  function Buried(s: System, index: nat, state: R.State): System {
    s.(dead := s.dead + [DeadLetter(index, state)], left := s.left + {index}, retry := s.retry - {KeyOf(index)},
       task := None)
  }

  /** The event is published, the lifecycle forgotten and the message acknowledged. */
  function Done(s: System, index: nat, rawEventId: string, identity: Identity, row: Row): System {
    s.(normalized := s.normalized + [Publication(index, rawEventId, identity, row)], left := s.left + {index},
       retry := s.retry - {KeyOf(index)}, task := None)
  }

  function FailureIn(index: nat, a: Answers, messageId: Option<string>, error: Error): R.Failure {
    R.Failure(KeyOf(index), messageId, a.occurredAt, a.budget, a.deliveries, error.code, error.message,
              error.retryable, a.occurredAt + a.delay)
  }

  /** After a failure: buried when it is permanent or spends the budget, otherwise kept for a retry. */
  ghost predicate Recorded(s: System, index: nat, f: R.Failure, t: System) {
    if !R.ValidFailure(f) then t == s.(task := None)
    else
      exists state :: R.Tells(state, R.Row(s.retry, KeyOf(index)), f)
        && t == if !f.retryable || state.failures >= state.budget then Buried(s, index, state)
                else s.(retry := s.retry[KeyOf(index) := state], task := None)
  }

  // ----- the three ways a delivery ends -----

  lemma ClearedRow(retry: R.Table, k: R.Key)
    requires R.ValidKey(k)
    ensures R.Step(retry, R.ClearRow(k, R.NoFault)) == retry - {k}
  {
    hide R.ValidKey;
  }

  lemma IsolationEnds(s: System, index: nat, a: Answers, m: System, state: R.State, k: nat)
    requires Calm(a) && 2 <= k <= 11 && R.ValidKey(KeyOf(index)) && state.key == KeyOf(index)
    requires After(s, index, a, k) == Busy(m, index, Isolating(state))
    ensures Run(s, StepsOf(index, a)) == Buried(m, index, state)
  {
    hide After, Run, Next, KeyOf, R.Step, R.ValidKey;
    Skip(s, index, a, k, 11);
    DeadStep(s, index, a, m, state);
    var logged := m.(dead := m.dead + [DeadLetter(index, state)]);
    assert After(s, index, a, 12) == Busy(logged, index, Terminating(state));
    TermStep(s, index, a, logged, state);
    var gone := logged.(left := m.left + {index});
    assert After(s, index, a, 13) == Busy(gone, index, Cleaning(state));
    CleanStep(s, index, a, gone, state);
    ClearedRow(m.retry, KeyOf(index));
  }

  lemma FailureEnds(
      s: System, index: nat, a: Answers, m: System, messageId: Option<string>, error: Error, k: nat)
    requires Calm(a) && 2 <= k <= 10 && R.ValidKey(KeyOf(index)) && R.ValidTable(m.retry) && !Isolated(m, index)
    requires After(s, index, a, k) == Busy(m, index, Failing(messageId, error))
    ensures Recorded(m, index, FailureIn(index, a, messageId, error), Run(s, StepsOf(index, a)))
  {
    hide After, Run, Next, KeyOf, R.Step, R.ValidKey, R.ValidTable, R.ValidFailure, R.Tells, R.IsolationRequired;
    var f := FailureIn(index, a, messageId, error);
    Skip(s, index, a, k, 10);
    RecordStep(s, index, a, m, messageId, error);
    RecordEffect(m, index, a, messageId, error);
    R.AdvanceTells(m.retry, f);
    var answer := R.Advance(R.Row(m.retry, f.key), R.Effective(R.Row(m.retry, f.key), f));
    if answer.Err? {
      Settled(s, index, a, 11);
    } else {
      AnswerKey(m.retry, f);
      var stored := m.(retry := m.retry[KeyOf(index) := answer.value]);
      if R.IsolationRequired(answer.value) {
        IsolationEnds(s, index, a, stored, answer.value, 11);
        assert stored.retry - {KeyOf(index)} == m.retry - {KeyOf(index)};
      } else {
        Settled(s, index, a, 11);
      }
      TellsWhen(answer.value, R.Row(m.retry, f.key), f);
    }
  }

  lemma TellsWhen(after: R.State, e: Option<R.State>, f: R.Failure)
    requires R.Tells(after, e, f)
    ensures R.IsolationRequired(after) <==> !f.retryable || after.failures >= after.budget
  {
  }

  lemma AnswerKey(retry: R.Table, f: R.Failure)
    requires R.ValidTable(retry) && R.Advance(R.Row(retry, f.key), R.Effective(R.Row(retry, f.key), f)).Ok?
    ensures R.Advance(R.Row(retry, f.key), R.Effective(R.Row(retry, f.key), f)).value.key == f.key
  {
    hide R.ValidTable, R.Advance, R.Effective, R.ValidFailure;
    R.AdvanceTells(retry, f);
  }

  lemma RecordEffect(m: System, index: nat, a: Answers, messageId: Option<string>, error: Error)
    requires a.recordFault == R.NoFault && R.ValidTable(m.retry)
    ensures var f := FailureIn(index, a, messageId, error);
            var answer := R.Advance(R.Row(m.retry, f.key), R.Effective(R.Row(m.retry, f.key), f));
            AfterRecord(Busy(m, index, Failing(messageId, error)), Failing(messageId, error),
                        Record(a.occurredAt, a.delay, a.deliveries, a.budget, a.recordFault)) ==
            if answer.Err? then m.(task := None)
            else
              var stored := m.(retry := m.retry[KeyOf(index) := answer.value]);
              if R.IsolationRequired(answer.value) then Busy(stored, index, Isolating(answer.value))
              else stored.(task := None)
  {
    hide KeyOf, R.Advance, R.Effective, R.ValidTable, R.IsolationRequired;
  }

  lemma PublishingEnds(
      s: System, index: nat, a: Answers, m: System, incoming: Incoming, identity: Identity, row: Row, k: nat)
    requires Calm(a) && 4 <= k <= 7 && R.ValidKey(KeyOf(index))
    requires After(s, index, a, k) == Busy(m, index, Publishing(incoming, identity, row))
    ensures Run(s, StepsOf(index, a)) == Done(m, index, incoming.rawEventId, identity, row)
  {
    hide After, Run, KeyOf, R.Step, R.ValidKey;
    Skip(s, index, a, k, 7);
    Turn(s, index, a, 7);
    var logged := m.(normalized := m.normalized + [Publication(index, incoming.rawEventId, identity, row)]);
    assert After(s, index, a, 8) == Busy(logged, index, Normalized);
    Turn(s, index, a, 8);
    ClearedRow(m.retry, KeyOf(index));
    Turn(s, index, a, 9);
    Settled(s, index, a, 10);
  }

  // ----- processing -----

  lemma FoundEnds(s: System, index: nat, a: Answers, m: System, incoming: Incoming, row: Row)
    requires Calm(a) && R.ValidKey(KeyOf(index)) && R.ValidTable(m.retry) && !Isolated(m, index)
    requires UniqueRows(m.rows) && a.derived.Ok? && StoredUnder(m, a.derived.value.logicalKey, row)
    requires After(s, index, a, 2) == Busy(m, index, Reading(incoming))
    ensures var identity := a.derived.value;
            var t := Run(s, StepsOf(index, a));
            if row.plan.identity == identity && row.plan.rawEventId == incoming.rawEventId
            then t == Done(m, index, incoming.rawEventId, identity, row)
            else Recorded(m, index, FailureIn(index, a, Some(incoming.messageId), CONFLICT), t)
  {
    hide After, Run, Next, KeyOf, R.ValidKey, R.ValidTable, Find, UniqueRows, Recorded, Done, FailureIn, Isolated;
    var identity := a.derived.value;
    ReadStep(s, index, a, m, incoming);
    LookupStep(s, index, a, m, incoming, identity);
    FindsStored(m, identity.logicalKey, row);
    if SameIdentity(row, incoming.rawEventId, identity) {
      PublishingEnds(s, index, a, m, incoming, identity, row, 4);
    } else {
      FailureEnds(s, index, a, m, Some(incoming.messageId), CONFLICT, 4);
    }
  }

  lemma StoringEnds(
      s: System, index: nat, a: Answers, m: System, incoming: Incoming, identity: Identity, candidate: Row)
    requires Calm(a) && R.ValidKey(KeyOf(index)) && Absent(m.rows, candidate.plan.identity.logicalKey)
    requires After(s, index, a, 5) == Busy(m, index, Storing(incoming, identity, candidate))
    ensures Run(s, StepsOf(index, a)) ==
            Done(m.(rows := m.rows + [candidate]), index, incoming.rawEventId, candidate.plan.identity, candidate)
  {
    hide After, Run, KeyOf, R.ValidKey, Find, Done;
    var stored := m.(rows := m.rows + [candidate]);
    Turn(s, index, a, 5);
    Turn(s, index, a, 6);
    FindsNew(m.rows, candidate);
    PublishingEnds(s, index, a, stored, incoming, candidate.plan.identity, candidate, 7);
  }

  lemma {:induction false} FindsNew(rows: seq<Row>, candidate: Row)
    requires Absent(rows, candidate.plan.identity.logicalKey)
    ensures Find(rows + [candidate], candidate.plan.identity.logicalKey) == Some(candidate)
  {
    if rows != [] {
      FindsNew(rows[1..], candidate);
      assert (rows + [candidate])[1..] == rows[1..] + [candidate];
    }
  }

  lemma NewEnds(s: System, index: nat, a: Answers, m: System, incoming: Incoming)
    requires Calm(a) && R.ValidKey(KeyOf(index)) && R.ValidTable(m.retry) && !Isolated(m, index)
    requires a.derived.Ok? && !exists row :: StoredUnder(m, a.derived.value.logicalKey, row)
    requires After(s, index, a, 2) == Busy(m, index, Reading(incoming))
    ensures var t := Run(s, StepsOf(index, a));
            match a.plan
            case Err(error) => Recorded(m, index, FailureIn(index, a, Some(incoming.messageId), error), t)
            case Ok(made) =>
              if made.identity.logicalKey != a.derived.value.logicalKey
              then Recorded(m, index, FailureIn(index, a, Some(incoming.messageId), DERIVATION), t)
              else
                var row := Row(Plan(made.identity, incoming.rawEventId, made.hashAlgorithm, made.hash),
                               a.publicationId);
                t == Done(m.(rows := m.rows + [row]), index, incoming.rawEventId, made.identity, row)
  {
    hide After, Run, Next, KeyOf, R.ValidKey, R.ValidTable, Find, Recorded, Done, FailureIn, Isolated;
    var identity := a.derived.value;
    ReadStep(s, index, a, m, incoming);
    LookupStep(s, index, a, m, incoming, identity);
    assert Absent(m.rows, identity.logicalKey) by {
      NothingUnder(m, identity.logicalKey);
    }
    FindIsFirst(m.rows, identity.logicalKey);
    PlanStep(s, index, a, m, incoming, identity);
    match a.plan {
      case Err(error) =>
        FailureEnds(s, index, a, m, Some(incoming.messageId), error, 5);
      case Ok(made) =>
        if made.identity.logicalKey != identity.logicalKey {
          FailureEnds(s, index, a, m, Some(incoming.messageId), DERIVATION, 5);
        } else {
          StoringEnds(s, index, a, m, incoming, identity, Planned(incoming, made, a.publicationId));
        }
    }
  }

  lemma NothingUnder(s: System, logicalKey: string)
    requires !exists row :: StoredUnder(s, logicalKey, row)
    ensures Absent(s.rows, logicalKey)
  {
    forall i | 0 <= i < |s.rows|
      ensures s.rows[i].plan.identity.logicalKey != logicalKey
    {
      assert !StoredUnder(s, logicalKey, s.rows[i]);
    }
  }

  /** The state in which processing works: the attempt is logged once the message was decoded. */
  function Tried(s: System, index: nat, a: Answers): System {
    if a.decoded.Ok? then s.(attempts := s.attempts + [index]) else s
  }

  /**
   * From every state a run reaches, a delivery that nothing disturbs does exactly one of these: an
   * isolated message is dead-lettered, terminated and forgotten; a message whose derivation is
   * stored, or can be stored, is published and acknowledged; any other failure is stored as it
   * happened, and buries the message when it is permanent or spends the budget.
   */
  lemma CalmOutcome(s: System, index: nat, a: Answers) returns (e: Ending)
    requires Inv(s) && Waiting(s, index) && index <= MAX_SEQUENCE && Calm(a)
    ensures var t := Run(s, StepsOf(index, a));
            if Isolated(s, index) then t == Buried(s, index, s.retry[KeyOf(index)])
            else
              && EndsIn(s, a, e)
              && match e
                 case Publishes(identity, row) =>
                   && a.decoded.Ok?
                   && t == Done(Tried(s, index, a).(rows := if row in s.rows then s.rows else s.rows + [row]), index,
                                a.decoded.value.rawEventId, identity, row)
                 case Fails(messageId, error) =>
                   Recorded(Tried(s, index, a), index, FailureIn(index, a, messageId, error), t)
  {
    hide After, Run, Next, KeyOf, R.ValidKey, Done, Buried, Recorded, FailureIn, StoredUnder, R.IsolationRequired,
      Inv, R.ValidTable, UniqueRows;
    StreamKeysValid(index);
    RetryIsValid(s);
    Loaded(s, index, a);
    var m := Tried(s, index, a);
    if Isolated(s, index) {
      RowKeyed(s.retry, KeyOf(index));
      IsolationEnds(s, index, a, s, s.retry[KeyOf(index)], 2);
      e := Fails(None, CONFLICT);
    } else if a.decoded.Err? {
      FailureEnds(s, index, a, s, None, a.decoded.error, 2);
      e := Fails(None, a.decoded.error);
    } else {
      e := ProcessingEnds(s, index, a, m, a.decoded.value);
    }
  }

  lemma RowsUnique(s: System)
    requires Inv(s)
    ensures UniqueRows(s.rows)
  {
  }

  lemma ProcessingEnds(s: System, index: nat, a: Answers, m: System, incoming: Incoming) returns (e: Ending)
    requires Inv(s) && !Isolated(s, index) && Calm(a) && R.ValidKey(KeyOf(index)) && a.decoded == Ok(incoming)
    requires m == s.(attempts := s.attempts + [index])
    requires After(s, index, a, 2) == Busy(m, index, Reading(incoming))
    ensures var t := Run(s, StepsOf(index, a));
            && EndsIn(s, a, e)
            && match e
               case Publishes(identity, row) =>
                 t == Done(m.(rows := if row in s.rows then s.rows else s.rows + [row]), index, incoming.rawEventId,
                           identity, row)
               case Fails(messageId, error) => Recorded(m, index, FailureIn(index, a, messageId, error), t)
  {
    hide After, Run, KeyOf, R.ValidKey, Done, Recorded, FailureIn, R.IsolationRequired, Inv, R.ValidTable, UniqueRows;
    RetryIsValid(s);
    RowsUnique(s);
    if a.derived.Err? {
      ReadStep(s, index, a, m, incoming);
      FailureEnds(s, index, a, m, Some(incoming.messageId), a.derived.error, 3);
      e := Fails(Some(incoming.messageId), a.derived.error);
      return;
    }
    var identity := a.derived.value;
    SameRows(s, m, identity.logicalKey);
    if row :| StoredUnder(s, identity.logicalKey, row) {
      FoundEnds(s, index, a, m, incoming, row);
      e := if row.plan.identity == identity && row.plan.rawEventId == incoming.rawEventId
           then Publishes(identity, row) else Fails(Some(incoming.messageId), CONFLICT);
      return;
    }
    NewEnds(s, index, a, m, incoming);
    e := match a.plan
      case Err(error) => Fails(Some(incoming.messageId), error)
      case Ok(made) =>
        if made.identity.logicalKey != identity.logicalKey then Fails(Some(incoming.messageId), DERIVATION)
        else Publishes(made.identity,
          Row(Plan(made.identity, incoming.rawEventId, made.hashAlgorithm, made.hash), a.publicationId));
    if e.Publishes? {
      assert !StoredUnder(s, identity.logicalKey, e.row);
    }
  }

  lemma SameRows(s: System, m: System, logicalKey: string)
    requires s.rows == m.rows
    ensures forall row :: StoredUnder(s, logicalKey, row) <==> StoredUnder(m, logicalKey, row)
  {
  }
}
