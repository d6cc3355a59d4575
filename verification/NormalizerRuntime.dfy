/** The normalizer's handlers, in the order of their effects, as runs of the normalizer protocol. */
module NormalizerRuntime {
  import opened Wrappers
  import opened NormalizerProtocol
  import R = RetryState

  /** What every outside call answers during one delivery. */
  datatype Answers = Answers(
    reachable: bool, decoded: Result<Incoming, Error>, idReadable: bool, derived: Result<Identity, Error>,
    findFault: Option<Error>,
    plan: Result<Plan, Error>, publicationId: string, insertFault: Option<Error>, stored: bool,
    readFault: Option<Error>,
    sending: Sending, sendError: Error, clearFault: R.Fault, acked: bool,
    occurredAt: int, delay: nat, deliveries: int, budget: R.uint32, recordFault: R.Fault,
    deadSending: Sending, termed: bool, termReported: bool, cleanFault: R.Fault)

  /** The protocol steps of one delivery; a step whose turn does not come changes nothing. */
  function StepsOf(index: nat, a: Answers): (steps: seq<Step>)
    ensures |steps| == 14
  {
    [Deliver(index), Load(a.reachable, a.decoded, a.idReadable), Read(a.derived), Lookup(a.findFault),
     MakePlan(a.plan, a.publicationId), Insert(a.insertFault, a.stored), ReadBack(a.readFault),
     PublishNormalized(a.sending, a.sendError), ClearRow(a.clearFault), Ack(a.acked),
     Record(a.occurredAt, a.delay, a.deliveries, a.budget, a.recordFault),
     PublishDead(a.deadSending), Term(a.termed, a.termReported), CleanRow(a.cleanFault)]
  }

  /** The state after the first `k` steps of a delivery that began in `s`. */
  ghost function After(s: System, index: nat, a: Answers, k: nat): System
    requires k <= 14
  {
    Run(s, StepsOf(index, a)[..k])
  }

  lemma Turn(s: System, index: nat, a: Answers, k: nat)
    requires k < 14
    ensures After(s, index, a, 0) == s && After(s, index, a, 14) == Run(s, StepsOf(index, a))
    ensures After(s, index, a, k + 1) == Next(After(s, index, a, k), StepsOf(index, a)[k])
  {
    hide Next;
    var steps := StepsOf(index, a);
    assert steps[..k + 1][..k] == steps[..k] && steps[..14] == steps;
  }

  lemma {:induction false} Skip(s: System, index: nat, a: Answers, k: nat, j: nat)
    requires k <= j <= 14 && forall i :: k <= i < j ==> !Enabled(After(s, index, a, k).task, StepsOf(index, a)[i])
    ensures After(s, index, a, j) == After(s, index, a, k)
    decreases j - k
  {
    hide After, Enabled, StepsOf;
    if k < j {
      Skip(s, index, a, k, j - 1);
      Turn(s, index, a, j - 1);
      assert !Enabled(After(s, index, a, k).task, StepsOf(index, a)[j - 1]);
    }
  }

  lemma Loaded(s: System, index: nat, a: Answers)
    requires s.task.None? && index < s.size && index !in s.left
    ensures After(s, index, a, 2) == AfterLoad(s.(task := Some(Task(index, Delivered))), StepsOf(index, a)[1])
    ensures StepsOf(index, a)[1] == Load(a.reachable, a.decoded, a.idReadable)
  {
    hide After, Run, AfterLoad;
    Turn(s, index, a, 0);
    Turn(s, index, a, 1);
  }

  function Busy(m: System, index: nat, phase: Phase): System {
    m.(task := Some(Task(index, phase)))
  }

  lemma ReadStep(s: System, index: nat, a: Answers, m: System, incoming: Incoming)
    requires After(s, index, a, 2) == Busy(m, index, Reading(incoming))
    ensures After(s, index, a, 3) == Busy(m, index, if a.derived.Ok? then Finding(incoming, a.derived.value)
      else Failing(Some(incoming.messageId), a.derived.error))
  {
    hide After;
    Turn(s, index, a, 2);
  }

  lemma LookupStep(s: System, index: nat, a: Answers, m: System, incoming: Incoming, identity: Identity)
    requires After(s, index, a, 3) == Busy(m, index, Finding(incoming, identity))
    ensures After(s, index, a, 4) == AfterLookup(Busy(m, index, Finding(incoming, identity)),
      Finding(incoming, identity), a.findFault)
  {
    hide After, AfterLookup;
    Turn(s, index, a, 3);
  }

  lemma PlanStep(s: System, index: nat, a: Answers, m: System, incoming: Incoming, identity: Identity)
    requires After(s, index, a, 4) == Busy(m, index, Planning(incoming, identity))
    ensures After(s, index, a, 5) == Busy(m, index,
              if a.plan.Err? then Failing(Some(incoming.messageId), a.plan.error)
              else if a.plan.value.identity.logicalKey != identity.logicalKey then
                Failing(Some(incoming.messageId), DERIVATION)
              else Storing(incoming, identity, Planned(incoming, a.plan.value, a.publicationId)))
  {
    hide After;
    Turn(s, index, a, 4);
  }

  lemma DeadStep(s: System, index: nat, a: Answers, m: System, state: R.State)
    requires After(s, index, a, 11) == Busy(m, index, Isolating(state))
    ensures After(s, index, a, 12) == AfterPublishDead(Busy(m, index, Isolating(state)), state, a.deadSending)
  {
    hide After, AfterPublishDead;
    Turn(s, index, a, 11);
  }

  lemma TermStep(s: System, index: nat, a: Answers, m: System, state: R.State)
    requires After(s, index, a, 12) == Busy(m, index, Terminating(state))
    ensures After(s, index, a, 13) ==
            m.(left := if a.termed then m.left + {index} else m.left, task := if a.termReported then
              Some(Task(index, Cleaning(state))) else None)
  {
    hide After;
    Turn(s, index, a, 12);
  }

  lemma CleanStep(s: System, index: nat, a: Answers, m: System, state: R.State)
    requires After(s, index, a, 13) == Busy(m, index, Cleaning(state))
    ensures Run(s, StepsOf(index, a)) == m.(retry := R.Step(m.retry, R.ClearRow(state.key, a.cleanFault)), task := None)
  {
    hide After, Run, R.Step;
    Turn(s, index, a, 13);
  }

  lemma RecordStep(s: System, index: nat, a: Answers, m: System, messageId: Option<string>, error: Error)
    requires After(s, index, a, 10) == Busy(m, index, Failing(messageId, error))
    ensures After(s, index, a, 11) == AfterRecord(Busy(m, index, Failing(messageId, error)), Failing(messageId, error),
                                                  Record(a.occurredAt, a.delay, a.deliveries, a.budget, a.recordFault))
  {
    hide After, AfterRecord;
    Turn(s, index, a, 10);
  }

  /** Nothing is left to do once no task is held. */
  lemma Settled(s: System, index: nat, a: Answers, k: nat)
    requires 1 <= k <= 14 && After(s, index, a, k).task.None?
    ensures After(s, index, a, k) == Run(s, StepsOf(index, a))
  {
    hide After, Run;
    Skip(s, index, a, k, 14);
    Turn(s, index, a, 13);
  }

  class Processor {
    const store: R.PostgresStore
    var size: nat
    var left: set<nat>
    var rows: seq<Row>
    var normalized: seq<Publication>
    var dead: seq<DeadLetter>
    ghost var attempts: seq<nat>

    constructor (store: R.PostgresStore)
      ensures this.store == store && size == 0 && left == {} && rows == [] && normalized == [] && dead == []
        && attempts == []
    {
      this.store := store;
      size, left, rows, normalized, dead, attempts := 0, {}, [], [], [], [];
    }

    ghost function At(task: Option<Task>): System
      reads this, store
    {
      System(size, left, store.rows, rows, normalized, dead, attempts, task)
    }

    method HandleMessage(index: nat, a: Answers)
      requires index < size && index !in left && R.ValidTable(store.rows)
      modifies this, store
      ensures R.ValidTable(store.rows)
      ensures At(None) == Run(old(At(None)), StepsOf(index, a))
    {
      hide R.ValidTable, R.IsolationRequired, After, Run, Effect, KeyOf;
      ghost var s := At(None);
      Loaded(s, index, a);
      if !a.reachable {
        Skip(s, index, a, 2, 14);
        Turn(s, index, a, 13);
        return;
      }
      if KeyOf(index) in store.rows && R.IsolationRequired(store.rows[KeyOf(index)]) {
        HandleIsolation(s, index, a, store.rows[KeyOf(index)], 2);
        return;
      }
      if a.decoded.Err? {
        HandleProcessingFailure(s, index, a, None, a.decoded.error, 2);
        return;
      }
      if !a.idReadable {
        Skip(s, index, a, 2, 14);
        Turn(s, index, a, 13);
        return;
      }
      attempts := attempts + [index];
      var incoming := a.decoded.value;
      var outcome := ProcessMessage(s, index, a, incoming);
      if outcome.Err? {
        HandleProcessingFailure(s, index, a, Some(incoming.messageId), outcome.error, 8);
        return;
      }
      ClearAndAck(s, index, a);
    }

    method ClearAndAck(ghost s: System, index: nat, a: Answers)
      requires R.ValidTable(store.rows) && After(s, index, a, 8) == At(Some(Task(index, Normalized)))
      modifies this`left, store
      ensures R.ValidTable(store.rows)
      ensures At(None) == Run(s, StepsOf(index, a))
    {
      hide R.ValidTable, R.Step, R.ValidKey, After, Run, KeyOf;
      Turn(s, index, a, 8);
      var cleared := store.Clear(KeyOf(index), a.clearFault);
      if cleared.Err? {
        Skip(s, index, a, 9, 14);
        return;
      }
      Turn(s, index, a, 9);
      if a.acked {
        left := left + {index};
      }
      Skip(s, index, a, 10, 14);
    }

    /** Validate, find or derive, store, and publish the stored row. */
    method ProcessMessage(ghost s: System, index: nat, a: Answers, incoming: Incoming) returns (r: Result<(), Error>)
      requires After(s, index, a, 2) == At(Some(Task(index, Reading(incoming))))
      modifies this`rows, this`normalized
      ensures After(s, index, a, 8) ==
              At(Some(Task(index, if r.Ok? then Normalized else Failing(Some(incoming.messageId), r.error))))
    {
      hide After, Run, Find, Next;
      ReadStep(s, index, a, At(None), incoming);
      if a.derived.Err? {
        Skip(s, index, a, 3, 8);
        return Err(a.derived.error);
      }
      var identity := a.derived.value;
      LookupStep(s, index, a, At(None), incoming, identity);
      if a.findFault.Some? {
        Skip(s, index, a, 4, 8);
        return Err(a.findFault.value);
      }
      var existing := Find(rows, identity.logicalKey);
      if existing.Some? {
        if !SameIdentity(existing.value, incoming.rawEventId, identity) {
          Skip(s, index, a, 4, 8);
          return Err(CONFLICT);
        }
        Skip(s, index, a, 4, 7);
        r := Emit(s, index, a, incoming, identity, existing.value);
        return;
      }
      PlanStep(s, index, a, At(None), incoming, identity);
      if a.plan.Err? {
        Skip(s, index, a, 5, 8);
        return Err(a.plan.error);
      }
      if a.plan.value.identity.logicalKey != identity.logicalKey {
        Skip(s, index, a, 5, 8);
        return Err(DERIVATION);
      }
      r := StoreAndEmit(s, index, a, incoming, identity, Planned(incoming, a.plan.value, a.publicationId));
    }

    method StoreAndEmit(
        ghost s: System, index: nat, a: Answers, incoming: Incoming, ghost identity: Identity, candidate: Row)
      returns (r: Result<(), Error>)
      requires After(s, index, a, 5) == At(Some(Task(index, Storing(incoming, identity, candidate))))
      modifies this`rows, this`normalized
      ensures After(s, index, a, 8) ==
              At(Some(Task(index, if r.Ok? then Normalized else Failing(Some(incoming.messageId), r.error))))
    {
      hide After, Run, Find;
      Turn(s, index, a, 5);
      if a.stored {
        rows := rows + [candidate];
      }
      if a.insertFault.Some? {
        Skip(s, index, a, 6, 8);
        return Err(a.insertFault.value);
      }
      r := ReadAndEmit(s, index, a, incoming, identity, candidate.plan);
    }

    /** The stored row is read back before it is published. */
    method ReadAndEmit(
        ghost s: System, index: nat, a: Answers, incoming: Incoming, ghost identity: Identity, plan: Plan)
      returns (r: Result<(), Error>)
      requires After(s, index, a, 6) == At(Some(Task(index, ReadingBack(incoming, identity, plan))))
      modifies this`normalized
      ensures After(s, index, a, 8) ==
              At(Some(Task(index, if r.Ok? then Normalized else Failing(Some(incoming.messageId), r.error))))
    {
      hide After, Run, Find;
      Turn(s, index, a, 6);
      if a.readFault.Some? {
        Skip(s, index, a, 7, 8);
        return Err(a.readFault.value);
      }
      var found := Find(rows, plan.identity.logicalKey);
      if found.None? {
        Skip(s, index, a, 7, 8);
        return Err(NOT_READABLE);
      }
      if found.value.plan != plan {
        Skip(s, index, a, 7, 8);
        return Err(CONFLICT);
      }
      r := Emit(s, index, a, incoming, plan.identity, found.value);
    }

    method Emit(
        ghost s: System, index: nat, a: Answers, incoming: Incoming, identity: Identity, row: Row)
      returns (r: Result<(), Error>)
      requires After(s, index, a, 7) == At(Some(Task(index, Publishing(incoming, identity, row))))
      modifies this`normalized
      ensures After(s, index, a, 8) ==
              At(Some(Task(index, if r.Ok? then Normalized else Failing(Some(incoming.messageId), r.error))))
    {
      hide After, Run;
      Turn(s, index, a, 7);
      if a.sending != Unconfirmed(false) {
        normalized := normalized + [Publication(index, incoming.rawEventId, identity, row)];
      }
      return if a.sending.Confirmed? then Ok(()) else Err(a.sendError);
    }

    /** Make the failure durable; only a state that asks for isolation is dead-lettered. */
    method HandleProcessingFailure(
        ghost s: System, index: nat, a: Answers, messageId: Option<string>, error: Error, ghost k: nat)
      requires R.ValidTable(store.rows) && 2 <= k <= 10
      requires After(s, index, a, k) == At(Some(Task(index, Failing(messageId, error))))
      modifies this`left, this`dead, store
      ensures R.ValidTable(store.rows)
      ensures At(None) == Run(s, StepsOf(index, a))
    {
      hide R.ValidTable, R.Step, R.Advance, R.Effective, R.IsolationRequired, After, Run, Next, KeyOf;
      Skip(s, index, a, k, 10);
      RecordStep(s, index, a, At(None), messageId, error);
      var failure := R.Failure(KeyOf(index), messageId, a.occurredAt, a.budget, a.deliveries,
                               error.code, error.message, error.retryable, a.occurredAt + a.delay);
      var state := store.RecordFailure(failure, a.recordFault);
      if state.Err? || !R.IsolationRequired(state.value) {
        Settled(s, index, a, 11);
        return;
      }
      HandleIsolation(s, index, a, state.value, 11);
    }

    /** Publish the dead letter, then terminate, then forget the lifecycle. */
    method HandleIsolation(ghost s: System, index: nat, a: Answers, state: R.State, ghost k: nat)
      requires R.ValidTable(store.rows) && 2 <= k <= 11
      requires After(s, index, a, k) == At(Some(Task(index, Isolating(state))))
      modifies this`left, this`dead, store
      ensures R.ValidTable(store.rows)
      ensures At(None) == Run(s, StepsOf(index, a))
    {
      hide R.ValidTable, R.Step, After, Run, Next;
      Skip(s, index, a, k, 11);
      DeadStep(s, index, a, At(None), state);
      if a.deadSending != Unconfirmed(false) {
        dead := dead + [DeadLetter(index, state)];
      }
      if !a.deadSending.Confirmed? {
        Settled(s, index, a, 12);
        return;
      }
      TermStep(s, index, a, At(None), state);
      if a.termed {
        left := left + {index};
      }
      if !a.termReported {
        Settled(s, index, a, 13);
        return;
      }
      CleanStep(s, index, a, At(None), state);
      var _ := store.Clear(state.key, a.cleanFault);
    }
  }
}
