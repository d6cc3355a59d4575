/** The normalizer over whole runs: one message at a time, with lost answers, crashes and redelivery. */
module NormalizerProtocol {
  import opened Wrappers
  import opened Text
  import Decimal
  import R = RetryState

  datatype Error = Error(code: string, message: string, retryable: bool)

  /** What a normalization is derived from; equal inputs derive equal identities. */
  datatype Identity = Identity(
    logicalKey: string, parserId: string, parserVersion: string, mappingId: string, mappingVersion: string,
    ocsfVersion: string, pipelineVersion: string, configurationHash: string, executionMode: int)

  datatype Plan = Plan(identity: Identity, rawEventId: string, hashAlgorithm: string, hash: string)

  datatype Row = Row(plan: Plan, publicationId: string)

  datatype Incoming = Incoming(messageId: string, rawEventId: string)

  /** A stored row stands for this raw event under this derivation. */
  predicate SameIdentity(row: Row, rawEventId: string, identity: Identity) {
    row.plan.identity == identity && row.plan.rawEventId == rawEventId
  }

  /** The row of a plan; a plan always names the raw event it was made from. */
  function Planned(incoming: Incoming, made: Plan, publicationId: string): Row {
    Row(made.(rawEventId := incoming.rawEventId), publicationId)
  }

  /** The query stops at its first match. */
  function Find(rows: seq<Row>, logicalKey: string): Option<Row> {
    if rows == [] then None
    else if rows[0].plan.identity.logicalKey == logicalKey then Some(rows[0])
    else Find(rows[1..], logicalKey)
  }

  // ----- the system -----

  datatype Phase =
    | Delivered
    | Reading(incoming: Incoming)
    | Finding(incoming: Incoming, identity: Identity)
    | Planning(incoming: Incoming, identity: Identity)
    | Storing(incoming: Incoming, identity: Identity, candidate: Row)
    | ReadingBack(incoming: Incoming, identity: Identity, plan: Plan)
    | Publishing(incoming: Incoming, identity: Identity, row: Row)
    | Normalized
    | Acking
    | Failing(messageId: Option<string>, error: Error)
    | Isolating(state: R.State)
    | Terminating(state: R.State)
    | Cleaning(state: R.State)

  datatype Task = Task(index: nat, phase: Phase)

  datatype Publication = Publication(index: nat, rawEventId: string, identity: Identity, row: Row)

  datatype DeadLetter = DeadLetter(index: nat, state: R.State)

  /** `left` holds the messages acknowledged or terminated; `attempts` the messages handed to processing, in order. */
  datatype System = System(
    size: nat, left: set<nat>, retry: R.Table, rows: seq<Row>, normalized: seq<Publication>, dead: seq<DeadLetter>,
    attempts: seq<nat>, task: Option<Task>)

  datatype Sending = Confirmed | Unconfirmed(stored: bool)

  datatype Step =
    | Append
    | Deliver(index: nat)
    | Load(reachable: bool, decoded: Result<Incoming, Error>, idReadable: bool)
    | Read(derived: Result<Identity, Error>)
    | Lookup(fault: Option<Error>)
    | MakePlan(plan: Result<Plan, Error>, publicationId: string)
    | Insert(fault: Option<Error>, stored: bool)
    | ReadBack(fault: Option<Error>)
    | PublishNormalized(sending: Sending, error: Error)
    | ClearRow(outage: R.Fault)
    | Ack(applied: bool)
    | Record(occurredAt: int, delay: nat, deliveries: int, budget: R.uint32, outage: R.Fault)
    | PublishDead(sending: Sending)
    | Term(applied: bool, reported: bool)
    | CleanRow(outage: R.Fault)
    | Crash

  const CONSUMER := "normalizer"

  function KeyOf(index: nat): R.Key {
    R.Key(CONSUMER, "stream:" + Decimal.Text(index))
  }

  const CONFLICT := Error("CER-NORM-IDEMPOTENCY-CONFLICT", "", false)
  const DERIVATION := Error("CER-NORM-DERIVATION-IDENTITY", "", false)
  const NOT_READABLE := Error("CER-NORM-CLICKHOUSE-READBACK", "", true)

  /** Whether it is this step's turn. */
  predicate Enabled(task: Option<Task>, step: Step) {
    match step
    case Append => true
    case Deliver(_) => task.None?
    case Load(_, _, _) => task.Some? && task.value.phase.Delivered?
    case Read(_) => task.Some? && task.value.phase.Reading?
    case Lookup(_) => task.Some? && task.value.phase.Finding?
    case MakePlan(_, _) => task.Some? && task.value.phase.Planning?
    case Insert(_, _) => task.Some? && task.value.phase.Storing?
    case ReadBack(_) => task.Some? && task.value.phase.ReadingBack?
    case PublishNormalized(_, _) => task.Some? && task.value.phase.Publishing?
    case ClearRow(_) => task.Some? && task.value.phase.Normalized?
    case Ack(_) => task.Some? && task.value.phase.Acking?
    case Record(_, _, _, _, _) => task.Some? && task.value.phase.Failing?
    case PublishDead(_) => task.Some? && task.value.phase.Isolating?
    case Term(_, _) => task.Some? && task.value.phase.Terminating?
    case CleanRow(_) => task.Some? && task.value.phase.Cleaning?
    case Crash => task.Some?
  }

  function Idle(s: System): System {
    s.(task := None)
  }

  function To(s: System, phase: Phase): System
    requires s.task.Some?
  {
    s.(task := Some(Task(s.task.value.index, phase)))
  }

  function FailureOf(index: nat, phase: Phase, step: Step): R.Failure
    requires phase.Failing? && step.Record?
  {
    R.Failure(KeyOf(index), phase.messageId, step.occurredAt, step.budget, step.deliveries,
              phase.error.code, phase.error.message, phase.error.retryable, step.occurredAt + step.delay)
  }

  /** The store's answer to a recorded failure. */
  function Recorded(retry: R.Table, f: R.Failure, fault: R.Fault): Result<R.State, R.Error> {
    var stepped := R.Advance(R.Row(retry, f.key), R.Effective(R.Row(retry, f.key), f));
    if stepped == Err(R.InvalidFailure) || fault == R.NoFault then stepped else Err(R.StoreUnavailable)
  }

  function AfterLoad(s: System, step: Step): System
    requires step.Load? && s.task.Some?
  {
    var row := R.Row(s.retry, KeyOf(s.task.value.index));
    if !step.reachable then Idle(s)
    else if row.Some? && R.IsolationRequired(row.value) then To(s, Isolating(row.value))
    else match step.decoded
      case Err(error) => To(s, Failing(None, error))
      case Ok(incoming) =>
        if !step.idReadable then Idle(s)
        else To(s.(attempts := s.attempts + [s.task.value.index]), Reading(incoming))
  }

  function AfterLookup(s: System, phase: Phase, fault: Option<Error>): System
    requires s.task.Some? && phase.Finding?
  {
    var failing := (error: Error) => To(s, Failing(Some(phase.incoming.messageId), error));
    if fault.Some? then failing(fault.value)
    else match Find(s.rows, phase.identity.logicalKey)
      case None => To(s, Planning(phase.incoming, phase.identity))
      case Some(row) =>
        if SameIdentity(row, phase.incoming.rawEventId, phase.identity) then
          To(s, Publishing(phase.incoming, phase.identity, row))
        else failing(CONFLICT)
  }

  function AfterReadBack(s: System, phase: Phase, fault: Option<Error>): System
    requires s.task.Some? && phase.ReadingBack?
  {
    var failing := (error: Error) => To(s, Failing(Some(phase.incoming.messageId), error));
    if fault.Some? then failing(fault.value)
    else match Find(s.rows, phase.plan.identity.logicalKey)
      case None => failing(NOT_READABLE)
      case Some(row) =>
        if row.plan == phase.plan then To(s, Publishing(phase.incoming, phase.plan.identity, row))
          else failing(CONFLICT)
  }

  function AfterRecord(s: System, phase: Phase, step: Step): System
    requires s.task.Some? && phase.Failing? && step.Record?
  {
    var f := FailureOf(s.task.value.index, phase, step);
    var t := s.(retry := R.Step(s.retry, R.Record(f, step.outage)));
    var answer := Recorded(s.retry, f, step.outage);
    if answer.Ok? && R.IsolationRequired(answer.value) then To(t, Isolating(answer.value)) else Idle(t)
  }

  function AfterPublish(s: System, phase: Phase, step: Step): System
    requires s.task.Some? && phase.Publishing? && step.PublishNormalized?
  {
    var logged := s.(normalized := s.normalized
      + [Publication(s.task.value.index, phase.incoming.rawEventId, phase.identity, phase.row)]);
    match step.sending
    case Confirmed => To(logged, Normalized)
    case Unconfirmed(stored) => To(if stored then logged else s, Failing(Some(phase.incoming.messageId), step.error))
  }

  function AfterPublishDead(s: System, state: R.State, sending: Sending): System
    requires s.task.Some?
  {
    var logged := s.(dead := s.dead + [DeadLetter(s.task.value.index, state)]);
    match sending
    case Confirmed => To(logged, Terminating(state))
    case Unconfirmed(stored) => Idle(if stored then logged else s)
  }

  function Leave(s: System, applied: bool): System
    requires s.task.Some?
  {
    if applied then s.(left := s.left + {s.task.value.index}) else s
  }

  function Effect(s: System, step: Step): System
    requires Enabled(s.task, step)
  {
    match step
    case Append => s.(size := s.size + 1)
    case Deliver(index) => if index < s.size && index !in s.left then s.(task := Some(Task(index, Delivered))) else s
    case Load(_, _, _) => AfterLoad(s, step)
    case Read(derived) =>
      (match derived
       case Err(error) => To(s, Failing(Some(s.task.value.phase.incoming.messageId), error))
       case Ok(identity) => To(s, Finding(s.task.value.phase.incoming, identity)))
    case Lookup(fault) => AfterLookup(s, s.task.value.phase, fault)
    case MakePlan(plan, publicationId) =>
      (var phase := s.task.value.phase;
       match plan
       case Err(error) => To(s, Failing(Some(phase.incoming.messageId), error))
       case Ok(made) =>
         if made.identity.logicalKey != phase.identity.logicalKey then
           To(s, Failing(Some(phase.incoming.messageId), DERIVATION))
         else To(s, Storing(phase.incoming, phase.identity, Planned(phase.incoming, made, publicationId))))
    case Insert(fault, stored) =>
      (var phase := s.task.value.phase;
       var t := if stored then s.(rows := s.rows + [phase.candidate]) else s;
       if fault.Some? then To(t, Failing(Some(phase.incoming.messageId), fault.value))
       else To(t, ReadingBack(phase.incoming, phase.identity, phase.candidate.plan)))
    case ReadBack(fault) => AfterReadBack(s, s.task.value.phase, fault)
    case PublishNormalized(_, _) => AfterPublish(s, s.task.value.phase, step)
    case ClearRow(outage) =>
      (var t := s.(retry := R.Step(s.retry, R.ClearRow(KeyOf(s.task.value.index), outage)));
       if outage == R.NoFault && R.ValidKey(KeyOf(s.task.value.index)) then To(t, Acking) else Idle(t))
    case Ack(applied) => Idle(Leave(s, applied))
    case Record(_, _, _, _, _) => AfterRecord(s, s.task.value.phase, step)
    case PublishDead(sending) => AfterPublishDead(s, s.task.value.phase.state, sending)
    case Term(applied, reported) =>
      if reported then To(Leave(s, applied), Cleaning(s.task.value.phase.state)) else Idle(Leave(s, applied))
    case CleanRow(outage) => Idle(s.(retry := R.Step(s.retry, R.ClearRow(s.task.value.phase.state.key, outage))))
    case Crash => Idle(s)
  }

  /** A step whose turn does not come changes nothing. */
  function Next(s: System, step: Step): System {
    if Enabled(s.task, step) then Effect(s, step) else s
  }

  function Run(s: System, steps: seq<Step>): System {
    if steps == [] then s else Next(Run(s, steps[..|steps| - 1]), steps[|steps| - 1])
  }

  const Empty: System := System(0, {}, map[], [], [], [], [], None)

  // ----- the invariant -----

  ghost predicate UniqueRows(rows: seq<Row>) {
    forall i, j :: 0 <= i < j < |rows| ==> rows[i].plan.identity.logicalKey != rows[j].plan.identity.logicalKey
  }

  ghost predicate HasPublication(s: System, index: nat) {
    exists i :: 0 <= i < |s.normalized| && s.normalized[i].index == index
  }

  ghost predicate HasDeadLetter(s: System, index: nat) {
    exists i :: 0 <= i < |s.dead| && s.dead[i].index == index
  }

  /** The latest dead letter is this message's, and tells this state. */
  ghost predicate LastDead(s: System, index: nat, state: R.State) {
    |s.dead| > 0 && s.dead[|s.dead| - 1] == DeadLetter(index, state)
  }

  predicate Isolated(s: System, index: nat) {
    KeyOf(index) in s.retry && R.IsolationRequired(s.retry[KeyOf(index)])
  }

  /** The retry row of the message is this state. */
  predicate Stored(s: System, index: nat, state: R.State) {
    KeyOf(index) in s.retry && s.retry[KeyOf(index)] == state && state.key == KeyOf(index)
  }

  ghost predicate Absent(rows: seq<Row>, logicalKey: string) {
    forall i :: 0 <= i < |rows| ==> rows[i].plan.identity.logicalKey != logicalKey
  }

  /** The row published for a raw event is a stored one, and stands for that event under its own derivation. */
  ghost predicate PublicationOk(s: System, p: Publication) {
    p.row in s.rows && p.row.plan.identity == p.identity && p.row.plan.rawEventId == p.rawEventId
  }

  /** Processing has the message: its lifecycle does not ask for isolation. */
  predicate InProcess(phase: Phase) {
    phase.Reading? || phase.Finding? || phase.Planning? || phase.Storing? || phase.ReadingBack? || phase.Publishing?
    || phase.Normalized? || phase.Failing?
  }

  ghost predicate PhaseOk(s: System, index: nat, phase: Phase) {
    && (InProcess(phase) ==> !Isolated(s, index))
    && match phase
       case Planning(_, identity) => Absent(s.rows, identity.logicalKey)
       case Storing(incoming, _, candidate) =>
         Absent(s.rows, candidate.plan.identity.logicalKey) && candidate.plan.rawEventId == incoming.rawEventId
       case ReadingBack(incoming, _, plan) => plan.rawEventId == incoming.rawEventId
       case Publishing(incoming, identity, row) => row in s.rows && SameIdentity(row, incoming.rawEventId, identity)
       case Normalized => HasPublication(s, index)
       case Acking => HasPublication(s, index)
       case Isolating(state) => R.IsolationRequired(state) && Stored(s, index, state)
       case Terminating(state) => LastDead(s, index, state) && Stored(s, index, state)
       case Cleaning(state) => LastDead(s, index, state) && Stored(s, index, state)
       case _ => true
  }

  ghost predicate Inv(s: System) {
    && R.ValidTable(s.retry) && UniqueRows(s.rows)
    && (forall i :: 0 <= i < |s.normalized| ==> PublicationOk(s, s.normalized[i]))
    && (forall i :: i in s.left ==> HasPublication(s, i) || HasDeadLetter(s, i))
    && (s.task.Some? ==> PhaseOk(s, s.task.value.index, s.task.value.phase))
  }

  /** Durable logs only grow. */
  ghost predicate Grew(s: System, t: System) {
    s.rows <= t.rows && s.normalized <= t.normalized && s.dead <= t.dead && s.left <= t.left && s.attempts <= t.attempts
  }

  const MAX_SEQUENCE: nat := 0xFFFF_FFFF_FFFF_FFFF

  /** Every position of the stream makes a valid retry key. */
  lemma StreamKeysValid(index: nat)
    requires index <= MAX_SEQUENCE
    ensures R.ValidKey(KeyOf(index))
  {
    var k := KeyOf(index);
    HeadIsText(k.consumer);
    HeadIsText(k.message);
    R.Utf8Bound(k.message);
    Pow10Of20();
    Decimal.CodesLength(index, 20);
  }

  lemma Pow10Of20()
    ensures MAX_SEQUENCE < Decimal.Pow10(20)
  {
    assert Decimal.Pow10(10) == 10_000_000_000;
    assert Decimal.Pow10(20) == 100_000_000_000_000_000_000;
  }

  lemma KeyOfInjective(i: nat, j: nat)
    requires KeyOf(i) == KeyOf(j)
    ensures i == j
  {
    var p := |"stream:"|;
    assert KeyOf(i).message[p..] == Decimal.Text(i) && KeyOf(j).message[p..] == Decimal.Text(j);
    Decimal.TextInjective(i, j);
  }

  lemma {:induction false} FindIsFirst(rows: seq<Row>, logicalKey: string)
    ensures Find(rows, logicalKey).None? <==> Absent(rows, logicalKey)
    ensures Find(rows, logicalKey).Some? ==>
              Find(rows, logicalKey).value in rows && Find(rows, logicalKey).value.plan.identity.logicalKey ==
                logicalKey
  {
    if rows != [] {
      FindIsFirst(rows[1..], logicalKey);
      assert rows == [rows[0]] + rows[1..];
    }
  }

  /** Publications, dead letters and rows, once there, stay. */
  lemma EvidenceStays(s: System, t: System, index: nat)
    requires Grew(s, t)
    ensures HasPublication(s, index) ==> HasPublication(t, index)
    ensures HasDeadLetter(s, index) ==> HasDeadLetter(t, index)
  {
    if HasPublication(s, index) {
      var i :| 0 <= i < |s.normalized| && s.normalized[i].index == index;
      assert t.normalized[i].index == index;
    }
    if HasDeadLetter(s, index) {
      var i :| 0 <= i < |s.dead| && s.dead[i].index == index;
      assert t.dead[i].index == index;
    }
  }

  ghost predicate TaskOk(s: System) {
    s.task.Some? ==> PhaseOk(s, s.task.value.index, s.task.value.phase)
  }

  ghost predicate NewPublicationsOk(s: System, t: System) {
    forall i :: |s.normalized| <= i < |t.normalized| ==> PublicationOk(t, t.normalized[i])
  }

  ghost predicate NewLeftOk(s: System, t: System) {
    forall i :: i in t.left && i !in s.left ==> HasPublication(t, i) || HasDeadLetter(t, i)
  }

  /** A step adds to the logs soundly and leaves the message in progress in order. */
  ghost predicate Adds(s: System, t: System) {
    Grew(s, t) && R.ValidTable(t.retry) && UniqueRows(t.rows) && NewPublicationsOk(s, t) && NewLeftOk(s, t) && TaskOk(t)
  }

  lemma InvFrom(s: System, t: System)
    requires Inv(s) && Adds(s, t)
    ensures Inv(t)
  {
    hide R.ValidTable, UniqueRows, HasPublication, HasDeadLetter, PhaseOk;
    forall i | 0 <= i < |t.normalized|
      ensures PublicationOk(t, t.normalized[i])
    {
      if i < |s.normalized| {
        assert PublicationOk(s, s.normalized[i]);
      }
    }
    forall i | i in t.left
      ensures HasPublication(t, i) || HasDeadLetter(t, i)
    {
      EvidenceStays(s, t, i);
    }
  }

  lemma RowKeyed(retry: R.Table, k: R.Key)
    requires R.ValidTable(retry) && k in retry
    ensures retry[k].key == k
  {
  }

  lemma LoadAdds(s: System, step: Step)
    requires Inv(s) && step.Load? && Enabled(s.task, step)
    ensures Adds(s, AfterLoad(s, step))
  {
    hide R.ValidTable, UniqueRows, PublicationOk, HasPublication, HasDeadLetter, KeyOf, R.IsolationRequired;
    if KeyOf(s.task.value.index) in s.retry {
      RowKeyed(s.retry, KeyOf(s.task.value.index));
    }
  }

  lemma RowsAdds(s: System, step: Step)
    requires Inv(s) && (step.Read? || step.Lookup? || step.MakePlan? || step.ReadBack?) && Enabled(s.task, step)
    ensures Adds(s, Effect(s, step))
  {
    hide R.ValidTable, UniqueRows, PublicationOk, HasPublication, HasDeadLetter, KeyOf, Find;
    var phase := s.task.value.phase;
    if step.Lookup? {
      FindIsFirst(s.rows, phase.identity.logicalKey);
    } else if step.ReadBack? {
      FindIsFirst(s.rows, phase.plan.identity.logicalKey);
    }
  }

  lemma InsertAdds(s: System, step: Step)
    requires Inv(s) && step.Insert? && Enabled(s.task, step)
    ensures Adds(s, Effect(s, step))
  {
    hide R.ValidTable, PublicationOk, HasPublication, HasDeadLetter, KeyOf, Find;
    var t := Effect(s, step);
    var candidate := s.task.value.phase.candidate;
    assert t.rows == s.rows || t.rows == s.rows + [candidate];
  }

  lemma PublishAdds(s: System, step: Step)
    requires Inv(s) && step.PublishNormalized? && Enabled(s.task, step)
    ensures Adds(s, AfterPublish(s, s.task.value.phase, step))
  {
    hide R.ValidTable, UniqueRows, KeyOf, Find, HasDeadLetter;
    var t := AfterPublish(s, s.task.value.phase, step);
    if |t.normalized| > |s.normalized| {
      assert t.normalized[|s.normalized|].index == s.task.value.index;
    }
  }

  lemma RetryAdds(s: System, step: Step)
    requires Inv(s) && (step.ClearRow? || step.CleanRow?) && Enabled(s.task, step)
    ensures Adds(s, Effect(s, step))
  {
    hide UniqueRows, PublicationOk, HasPublication, HasDeadLetter, KeyOf, R.ValidTable, R.Step, R.ValidKey,
      R.IsolationRequired;
    var index := s.task.value.index;
    var op := R.ClearRow(if step.ClearRow? then KeyOf(index) else s.task.value.phase.state.key, step.outage);
    R.StepKeeps(s.retry, op, KeyOf(index));
    EvidenceStays(s, Effect(s, step), index);
  }

  lemma RecordedKey(retry: R.Table, f: R.Failure, fault: R.Fault)
    requires R.ValidTable(retry)
    ensures var after := R.Step(retry, R.Record(f, fault));
            Recorded(retry, f, fault).Ok? ==>
              && Recorded(retry, f, fault).value.key == f.key
              && f.key in after && after[f.key] == Recorded(retry, f, fault).value
  {
    R.AdvanceOutcome(retry, f);
    hide R.Advance, R.Effective, R.ValidTable, R.ValidFailure, R.ValidState;
  }

  lemma RecordAdds(s: System, step: Step)
    requires Inv(s) && step.Record? && Enabled(s.task, step)
    ensures Adds(s, AfterRecord(s, s.task.value.phase, step))
  {
    hide UniqueRows, PublicationOk, HasPublication, HasDeadLetter, KeyOf, R.ValidTable, R.Step, Recorded,
      R.IsolationRequired;
    var f := FailureOf(s.task.value.index, s.task.value.phase, step);
    R.StepKeeps(s.retry, R.Record(f, step.outage), f.key);
    RecordedKey(s.retry, f, step.outage);
  }

  lemma EndAdds(s: System, step: Step)
    requires Inv(s) && (step.Ack? || step.Term? || step.Deliver? || step.Crash? || step.Append?)
      && Enabled(s.task, step)
    ensures Adds(s, Effect(s, step))
  {
    hide R.ValidTable, UniqueRows, PublicationOk, KeyOf, Find, R.IsolationRequired;
    if s.task.Some? {
      EvidenceStays(s, Effect(s, step), s.task.value.index);
    }
  }

  lemma PublishDeadAdds(s: System, step: Step)
    requires Inv(s) && step.PublishDead? && Enabled(s.task, step)
    ensures Adds(s, Effect(s, step))
  {
    hide R.ValidTable, UniqueRows, PublicationOk, KeyOf, Find, R.IsolationRequired, HasPublication, HasDeadLetter;
  }

  /** Every step keeps the invariant, and the durable logs only grow. */
  lemma StepKeepsInvariant(s: System, step: Step)
    requires Inv(s)
    ensures Inv(Next(s, step)) && Grew(s, Next(s, step))
  {
    hide Inv;
    if Enabled(s.task, step) {
      match step {
        case Load(_, _, _) => LoadAdds(s, step);
        case Insert(_, _) => InsertAdds(s, step);
        case PublishNormalized(_, _) => PublishAdds(s, step);
        case ClearRow(_) => RetryAdds(s, step);
        case CleanRow(_) => RetryAdds(s, step);
        case Record(_, _, _, _, _) => RecordAdds(s, step);
        case Read(_) => RowsAdds(s, step);
        case Lookup(_) => RowsAdds(s, step);
        case MakePlan(_, _) => RowsAdds(s, step);
        case ReadBack(_) => RowsAdds(s, step);
        case PublishDead(_) => PublishDeadAdds(s, step);
        case _ => EndAdds(s, step);
      }
      hide *;
      InvFrom(s, Effect(s, step));
    }
  }

  lemma {:induction false} RunKeepsInvariant(s: System, steps: seq<Step>)
    requires Inv(s)
    ensures Inv(Run(s, steps)) && Grew(s, Run(s, steps))
  {
    hide Inv, Next;
    if steps != [] {
      var n := |steps| - 1;
      RunKeepsInvariant(s, steps[..n]);
      StepKeepsInvariant(Run(s, steps[..n]), steps[n]);
    }
  }

  // ----- what every run guarantees -----

  /** A message leaves the stream only after its normalized event or its dead letter was published. */
  lemma LeavesOnlyAfterPublication(steps: seq<Step>, index: nat)
    requires index in Run(Empty, steps).left
    ensures HasPublication(Run(Empty, steps), index) || HasDeadLetter(Run(Empty, steps), index)
  {
    RunKeepsInvariant(Empty, steps);
  }

  /** Every normalized publication of one logical key is the same stored row, publication identifier included. */
  lemma OnePublicationPerLogicalKey(steps: seq<Step>, i: nat, j: nat)
    requires var s := Run(Empty, steps);
             && i < |s.normalized| && j < |s.normalized|
             && s.normalized[i].identity.logicalKey == s.normalized[j].identity.logicalKey
    ensures var s := Run(Empty, steps);
            && s.normalized[i].row == s.normalized[j].row
            && s.normalized[i].row.publicationId == s.normalized[j].row.publicationId
            && s.normalized[i].row.plan.identity == s.normalized[i].identity
            && s.normalized[i].row.plan.rawEventId == s.normalized[i].rawEventId == s.normalized[j].rawEventId
  {
    RunKeepsInvariant(Empty, steps);
    var s := Run(Empty, steps);
    hide Run, PhaseOk, HasPublication, HasDeadLetter, R.ValidTable;
    assert PublicationOk(s, s.normalized[i]) && PublicationOk(s, s.normalized[j]);
    var a :| 0 <= a < |s.rows| && s.rows[a] == s.normalized[i].row;
    var b :| 0 <= b < |s.rows| && s.rows[b] == s.normalized[j].row;
  }

  // ----- which row is published -----

  /** The stored row under a logical key; there is at most one. */
  ghost predicate StoredUnder(s: System, logicalKey: string, row: Row) {
    row in s.rows && row.plan.identity.logicalKey == logicalKey
  }

  lemma FindsStored(s: System, logicalKey: string, row: Row)
    requires UniqueRows(s.rows) && StoredUnder(s, logicalKey, row)
    ensures Find(s.rows, logicalKey) == Some(row)
  {
    FindIsFirst(s.rows, logicalKey);
    var i :| 0 <= i < |s.rows| && s.rows[i] == row;
    var found := Find(s.rows, logicalKey).value;
    var j :| 0 <= j < |s.rows| && s.rows[j] == found;
  }

  lemma FindsNothing(s: System, logicalKey: string)
    requires forall row :: row in s.rows ==> row.plan.identity.logicalKey != logicalKey
    ensures Find(s.rows, logicalKey) == None
  {
    FindIsFirst(s.rows, logicalKey);
  }

  /**
   * A lookup that answers republishes the row stored under the key exactly when that row carries
   * this very derivation of this very raw event; any other row there is a conflict, and without a
   * row the event is normalized anew.
   */
  lemma LookupDecides(s: System, row: Row)
    requires Inv(s) && s.task.Some? && s.task.value.phase.Finding?
    ensures var phase := s.task.value.phase;
            var next := Next(s, Lookup(None)).task;
            && next.Some? && next.value.index == s.task.value.index
            && (StoredUnder(s, phase.identity.logicalKey, row) ==>
                  if row.plan.identity == phase.identity && row.plan.rawEventId == phase.incoming.rawEventId
                  then next.value.phase == Publishing(phase.incoming, phase.identity, row)
                  else next.value.phase == Failing(Some(phase.incoming.messageId), CONFLICT))
            && ((forall r :: r in s.rows ==> r.plan.identity.logicalKey != phase.identity.logicalKey) ==>
                  next.value.phase == Planning(phase.incoming, phase.identity))
  {
    hide Find, HasPublication, HasDeadLetter, R.ValidTable, PublicationOk;
    var phase := s.task.value.phase;
    if StoredUnder(s, phase.identity.logicalKey, row) {
      FindsStored(s, phase.identity.logicalKey, row);
    }
    if forall r :: r in s.rows ==> r.plan.identity.logicalKey != phase.identity.logicalKey {
      FindsNothing(s, phase.identity.logicalKey);
    }
  }

  /** What was stored is published exactly when it is read back as planned, payload hash included. */
  lemma ReadBackDecides(s: System, row: Row)
    requires Inv(s) && s.task.Some? && s.task.value.phase.ReadingBack?
    ensures var phase := s.task.value.phase;
            var next := Next(s, ReadBack(None)).task;
            && next.Some? && next.value.index == s.task.value.index
            && (StoredUnder(s, phase.plan.identity.logicalKey, row) ==>
                  if row.plan == phase.plan
                  then next.value.phase == Publishing(phase.incoming, phase.plan.identity, row)
                  else next.value.phase == Failing(Some(phase.incoming.messageId), CONFLICT))
            && ((forall r :: r in s.rows ==> r.plan.identity.logicalKey != phase.plan.identity.logicalKey) ==>
                  next.value.phase == Failing(Some(phase.incoming.messageId), NOT_READABLE))
  {
    hide Find, HasPublication, HasDeadLetter, R.ValidTable, PublicationOk;
    var phase := s.task.value.phase;
    if StoredUnder(s, phase.plan.identity.logicalKey, row) {
      FindsStored(s, phase.plan.identity.logicalKey, row);
    }
    if forall r :: r in s.rows ==> r.plan.identity.logicalKey != phase.plan.identity.logicalKey {
      FindsNothing(s, phase.plan.identity.logicalKey);
    }
  }

  // ----- what a fault does -----

  /** The error an outside call of processing fails with. */
  function FaultOf(step: Step): Option<Error> {
    match step
    case Read(Err(error)) => Some(error)
    case Lookup(fault) => fault
    case MakePlan(Err(error), _) => Some(error)
    case Insert(fault, _) => fault
    case ReadBack(fault) => fault
    case PublishNormalized(Unconfirmed(_), error) => Some(error)
    case _ => None
  }

  /** A call whose failure only puts the message back. */
  predicate PutsBack(step: Step) {
    match step
    case Load(reachable, _, _) => !reachable
    case ClearRow(outage) => outage != R.NoFault
    case Record(_, _, _, _, outage) => outage != R.NoFault
    case PublishDead(sending) => sending.Unconfirmed?
    case Crash => true
    case _ => false
  }

  /** A failed call of processing is recorded with its own error and message; the message stays in the stream. */
  lemma FaultIsRecorded(s: System, step: Step)
    requires Enabled(s.task, step) && FaultOf(step).Some?
    ensures var t := Next(s, step);
            && t.task == Some(Task(s.task.value.index, Failing(Some(s.task.value.phase.incoming.messageId),
                                                               FaultOf(step).value)))
            && t.left == s.left && t.retry == s.retry && t.dead == s.dead
  {
    hide Find, KeyOf;
  }

  /** A failure to load, clear, record or dead-letter changes neither stream nor evidence, and ends the delivery. */
  lemma FaultPutsBack(s: System, step: Step)
    requires Enabled(s.task, step) && PutsBack(step)
    ensures var t := Next(s, step);
            && t.task.None? && t.left == s.left && t.attempts == s.attempts && t.normalized == s.normalized
            && t.rows == s.rows && (t.dead == s.dead || step.PublishDead?)
            && (t.retry == s.retry || step.ClearRow? || step.Record?)
  {
    hide Find, KeyOf, R.Step, R.Advance, R.Effective, R.ValidKey, R.IsolationRequired;
  }

  // ----- when a failure isolates -----

  /** The failures of the message's lifecycle so far. */
  function FailuresOf(s: System, index: nat): nat {
    if KeyOf(index) in s.retry then s.retry[KeyOf(index)].failures else 0
  }

  /** The budget the lifecycle captured, or would capture now. */
  function BudgetOf(s: System, index: nat, offered: nat): nat {
    if KeyOf(index) in s.retry then s.retry[KeyOf(index)].budget else offered
  }

  /**
   * A recorded failure isolates its message exactly when the store's answer arrives and the failure
   * is admissible and either permanent or the last one the captured budget allows.
   */
  lemma RecordIsolatesIff(s: System, step: Step)
    requires Inv(s) && step.Record? && Enabled(s.task, step)
    ensures var index, error := s.task.value.index, s.task.value.phase.error;
            var f := FailureOf(index, s.task.value.phase, step);
            var t := Next(s, step);
            && (t.task.Some? <==>
                  && step.outage == R.NoFault && R.ValidFailure(f)
                  && (!error.retryable || FailuresOf(s, index) + 1 >= BudgetOf(s, index, step.budget)))
            && (t.task.Some? ==>
                  && t.task.value.index == index && t.task.value.phase.Isolating?
                  && Stored(t, index, t.task.value.phase.state)
                  && t.task.value.phase.state.retryable == error.retryable
                  && t.task.value.phase.state.errorCode == error.code
                  && t.task.value.phase.state.errorMessage == error.message)
  {
    hide UniqueRows, PublicationOk, HasPublication, HasDeadLetter, KeyOf, R.ValidTable, R.Step, R.Advance, R.Effective,
      R.ValidFailure, Absent;
    var f := FailureOf(s.task.value.index, s.task.value.phase, step);
    R.AdvanceTells(s.retry, f);
    RecordedKey(s.retry, f, step.outage);
  }

  /** Neither processed nor published between the two states. */
  ghost predicate Untouched(s: System, t: System, index: nat) {
    && (forall i :: |s.attempts| <= i < |t.attempts| ==> t.attempts[i] != index)
    && (forall i :: |s.normalized| <= i < |t.normalized| ==> t.normalized[i].index != index)
  }

  /** A dead letter for `index` was published between the two states. */
  ghost predicate NewDeadLetter(s: System, t: System, index: nat) {
    exists i :: |s.dead| <= i < |t.dead| && t.dead[i].index == index
  }

  /** The dead letter of the current isolation is out; only termination and clearing remain. */
  predicate Settling(s: System, index: nat) {
    && s.task.Some? && s.task.value.index == index
    && (s.task.value.phase.Terminating? || s.task.value.phase.Cleaning?)
  }

  lemma RetryKeepsIsolated(s: System, step: Step, index: nat)
    requires Inv(s) && Isolated(s, index) && !Settling(s, index) && Enabled(s.task, step)
    requires step.Record? || step.ClearRow? || step.CleanRow?
    ensures Isolated(Effect(s, step), index)
  {
    hide KeyOf, UniqueRows, PublicationOk, HasPublication, LastDead, R.ValidTable, R.Step, R.IsolationRequired;
    var j := s.task.value.index;
    assert j != index;
    if KeyOf(j) == KeyOf(index) {
      KeyOfInjective(j, index);
    }
    var op := if step.Record? then R.Record(FailureOf(j, s.task.value.phase, step), step.outage)
              else R.ClearRow(KeyOf(j), step.outage);
    R.StepKeeps(s.retry, op, KeyOf(index));
  }

  lemma OthersKeepIsolated(s: System, step: Step, index: nat)
    requires Inv(s) && Isolated(s, index) && Enabled(s.task, step)
    requires !step.Record? && !step.ClearRow? && !step.CleanRow?
    ensures Isolated(Effect(s, step), index)
  {
    hide KeyOf, Inv, R.IsolationRequired, Find;
  }

  lemma StepLeavesUntouched(s: System, step: Step, index: nat)
    requires Inv(s) && Isolated(s, index) && Enabled(s.task, step)
    ensures Untouched(s, Effect(s, step), index)
  {
    hide KeyOf, UniqueRows, PublicationOk, HasPublication, LastDead, R.ValidTable, R.Step, Recorded, Find;
  }

  /** Only a published dead letter lets a message settle. */
  lemma StepSettles(s: System, step: Step, index: nat)
    requires Enabled(s.task, step) && !Settling(s, index)
    ensures Settling(Effect(s, step), index) ==> NewDeadLetter(s, Effect(s, step), index)
  {
    hide KeyOf, Find, Recorded, R.Step, R.IsolationRequired;
    var t := Effect(s, step);
    if step.PublishDead? && step.sending.Confirmed? {
      assert t.dead[|s.dead|].index == s.task.value.index;
    }
  }

  lemma StepKeepsIsolated(s: System, step: Step, index: nat)
    requires Inv(s) && Isolated(s, index) && !Settling(s, index) && !NewDeadLetter(s, Next(s, step), index)
    ensures Isolated(Next(s, step), index) && Untouched(s, Next(s, step), index) && !Settling(Next(s, step), index)
  {
    hide Inv, Isolated, Effect, NewDeadLetter, Settling;
    if Enabled(s.task, step) {
      StepLeavesUntouched(s, step, index);
      StepSettles(s, step, index);
      if step.Record? || step.ClearRow? || step.CleanRow? {
        RetryKeepsIsolated(s, step, index);
      } else {
        OthersKeepIsolated(s, step, index);
      }
    }
  }

  lemma NoNewEarlier(s: System, t: System, u: System, index: nat)
    requires Grew(s, t) && Grew(t, u) && !NewDeadLetter(s, u, index)
    ensures !NewDeadLetter(s, t, index) && !NewDeadLetter(t, u, index)
  {
    forall i | |s.dead| <= i < |t.dead|
      ensures t.dead[i].index != index
    {
      assert u.dead[i] == t.dead[i];
    }
  }

  lemma {:induction false} IsolationHolds(s: System, steps: seq<Step>, index: nat)
    requires Inv(s) && Isolated(s, index) && !Settling(s, index) && !NewDeadLetter(s, Run(s, steps), index)
    ensures Isolated(Run(s, steps), index) && Untouched(s, Run(s, steps), index) && !Settling(Run(s, steps), index)
  {
    hide Inv, Next, Isolated, NewDeadLetter, Settling;
    if steps != [] {
      var n := |steps| - 1;
      var t := Run(s, steps[..n]);
      RunKeepsInvariant(s, steps[..n]);
      StepKeepsInvariant(t, steps[n]);
      NoNewEarlier(s, t, Next(t, steps[n]), index);
      IsolationHolds(s, steps[..n], index);
      StepKeepsIsolated(t, steps[n], index);
    }
  }

  /**
   * Once a reachable state marks a lifecycle for isolation, its message is neither processed nor
   * published as normalized until a dead letter for this isolation is out, whatever happens in
   * between and whatever earlier lifecycles of the same message left behind. Where that dead letter
   * is already out it is the latest one, and it tells the isolating state the store holds.
   */
  lemma IsolatedIsNotProcessed(before: seq<Step>, after: seq<Step>, index: nat)
    requires Isolated(Run(Empty, before), index)
    ensures var s := Run(Empty, before);
            var t := Run(s, after);
            if Settling(s, index) then LastDead(s, index, s.retry[KeyOf(index)])
            else NewDeadLetter(s, t, index) || (Isolated(t, index) && Untouched(s, t, index))
  {
    hide Inv, Run, Isolated, NewDeadLetter, Untouched, LastDead;
    EmptyIsInvariant();
    RunKeepsInvariant(Empty, before);
    var s := Run(Empty, before);
    if Settling(s, index) {
      SettlingTells(s, index);
    } else if !NewDeadLetter(s, Run(s, after), index) {
      IsolationHolds(s, after, index);
    }
  }

  lemma EmptyIsInvariant()
    ensures Inv(Empty)
  {
  }

  lemma SettlingTells(s: System, index: nat)
    requires Inv(s) && Settling(s, index)
    ensures KeyOf(index) in s.retry && LastDead(s, index, s.retry[KeyOf(index)])
  {
    hide UniqueRows, PublicationOk, HasPublication, HasDeadLetter, R.ValidTable, LastDead;
  }

  // ----- when a message can be processed again -----

  /** A message in progress is still in the stream; only the cleanup after termination may outlive it. */
  predicate Held(s: System) {
    && (forall i :: i in s.left ==> i < s.size)
    && (s.task.Some? ==> s.task.value.index < s.size
                         && (s.task.value.phase.Cleaning? || s.task.value.index !in s.left))
  }

  lemma StepKeepsHeld(s: System, step: Step)
    requires Held(s)
    ensures Held(Next(s, step))
  {
    hide KeyOf, Find, Recorded, R.Step, R.IsolationRequired, R.ValidKey;
  }

  lemma {:induction false} RunKeepsHeld(s: System, steps: seq<Step>)
    requires Held(s)
    ensures Held(Run(s, steps))
  {
    hide Held, Next;
    if steps != [] {
      RunKeepsHeld(s, steps[..|steps| - 1]);
      StepKeepsHeld(Run(s, steps[..|steps| - 1]), steps[|steps| - 1]);
    }
  }

  /** `index` was handed to processing between the two states. */
  ghost predicate NewAttempt(s: System, t: System, index: nat) {
    exists i :: |s.attempts| <= i < |t.attempts| && t.attempts[i] == index
  }

  lemma StepOfLeft(s: System, step: Step, index: nat)
    requires Held(s) && index in s.left
    ensures index in Next(s, step).left
    ensures Next(s, step).attempts == s.attempts
            || exists other: nat :: other != index && Next(s, step).attempts == s.attempts + [other]
  {
    hide KeyOf, Find, Recorded, R.Step, R.IsolationRequired, R.ValidKey;
  }

  /** What has left the stream is never handed to processing again. */
  lemma {:induction false} LeftIsDone(s: System, steps: seq<Step>, index: nat)
    requires Held(s) && index in s.left
    ensures var t := Run(s, steps);
            index in t.left && |s.attempts| <= |t.attempts| && !NewAttempt(s, t, index)
  {
    hide Held, Next;
    if steps != [] {
      var n := |steps| - 1;
      LeftIsDone(s, steps[..n], index);
      RunKeepsHeld(s, steps[..n]);
      StepOfLeft(Run(s, steps[..n]), steps[n], index);
    }
  }

  lemma Then(s: System, steps: seq<Step>, step: Step) returns (longer: seq<Step>)
    ensures Run(s, longer) == Next(Run(s, steps), step)
  {
    hide Next;
    longer := steps + [step];
    assert longer[..|steps|] == steps;
  }

  /** Nothing in progress, and the message waits in the stream. */
  predicate Waiting(s: System, index: nat) {
    s.task.None? && index < s.size && index !in s.left
  }

  lemma {:induction false} AppendUntil(s: System, steps: seq<Step>, index: nat) returns (longer: seq<Step>)
    requires Run(s, steps).task.None?
    ensures var t, u := Run(s, steps), Run(s, longer);
            u == t.(size := u.size) && index < u.size
    decreases index - Run(s, steps).size
  {
    longer := steps;
    if index >= Run(s, steps).size {
      var more := Then(s, steps, Append);
      longer := AppendUntil(s, more, index);
    }
  }

  /** The stream delivers the message once the message in progress, if any, is dropped. */
  lemma ComesToWait(s: System, index: nat) returns (steps: seq<Step>)
    requires index !in s.left
    ensures var t := Run(s, steps);
            Waiting(t, index) && t == s.(task := None, size := t.size)
  {
    var crashed := Then(s, [], Crash);
    hide Next;
    assert Run(s, []) == s;
    assert Next(s, Crash) == s.(task := None) by {
      CrashDrops(s);
    }
    steps := AppendUntil(s, crashed, index);
  }

  lemma CrashDrops(s: System)
    ensures Next(s, Crash) == s.(task := None)
  {
  }

  /** The first half of an isolation: delivered, loaded, published. */
  lemma IsolationPublishes(s: System, index: nat)
    requires Waiting(s, index) && Isolated(s, index)
    ensures var row := s.retry[KeyOf(index)];
            Next(Next(Next(s, Deliver(index)), Load(true, Err(CONFLICT), true)), PublishDead(Confirmed)) ==
            s.(dead := s.dead + [DeadLetter(index, row)], task := Some(Task(index, Terminating(row))))
  {
    hide KeyOf, R.IsolationRequired;
  }

  /** The second half with its termination lost: the row is cleared and the message is still there. */
  lemma LostTerminationClears(s: System, index: nat, state: R.State)
    requires s.task == Some(Task(index, Terminating(state))) && state.key == KeyOf(index) && R.ValidKey(KeyOf(index))
    ensures Next(Next(s, Term(false, true)), CleanRow(R.NoFault)) ==
            s.(retry := s.retry - {KeyOf(index)}, task := None)
  {
    hide KeyOf, R.ValidKey;
  }

  lemma RowKeyValid(s: System, index: nat)
    requires Inv(s) && KeyOf(index) in s.retry
    ensures R.ValidKey(KeyOf(index)) && s.retry[KeyOf(index)].key == KeyOf(index)
  {
    hide KeyOf, UniqueRows, PublicationOk, HasPublication, HasDeadLetter, PhaseOk, R.ValidKey;
  }

  /** A dead letter whose termination is lost leaves its message waiting, no longer marked for isolation. */
  lemma IsolationCanBeLost(s: System, steps: seq<Step>, index: nat) returns (longer: seq<Step>)
    requires var t := Run(s, steps);
             Inv(t) && Waiting(t, index) && Isolated(t, index)
    ensures var t, u := Run(s, steps), Run(s, longer);
            Waiting(u, index) && !Isolated(u, index) && u.attempts == t.attempts
  {
    hide Inv, KeyOf, R.ValidKey, R.IsolationRequired, Next, Run;
    var t := Run(s, steps);
    RowKeyValid(t, index);
    IsolationPublishes(t, index);
    longer := Then(s, steps, Deliver(index));
    longer := Then(s, longer, Load(true, Err(CONFLICT), true));
    longer := Then(s, longer, PublishDead(Confirmed));
    LostTerminationClears(Run(s, longer), index, t.retry[KeyOf(index)]);
    longer := Then(s, longer, Term(false, true));
    longer := Then(s, longer, CleanRow(R.NoFault));
  }

  lemma WaitingIsProcessed(s: System, index: nat)
    requires Waiting(s, index) && !Isolated(s, index)
    ensures Next(Next(s, Deliver(index)), Load(true, Ok(Incoming("", "")), true)).attempts == s.attempts + [index]
  {
    hide KeyOf, R.IsolationRequired;
  }

  lemma CanBeProcessed(s: System, index: nat) returns (steps: seq<Step>)
    requires Inv(s) && index !in s.left
    ensures NewAttempt(s, Run(s, steps), index)
  {
    hide Inv, KeyOf, Isolated, Waiting, Next, Run;
    steps := ComesToWait(s, index);
    RunKeepsInvariant(s, steps);
    if Isolated(Run(s, steps), index) {
      steps := IsolationCanBeLost(s, steps, index);
    }
    WaitingIsProcessed(Run(s, steps), index);
    steps := Then(s, steps, Deliver(index));
    steps := Then(s, steps, Load(true, Ok(Incoming("", "")), true));
    assert Run(s, steps).attempts[|s.attempts|] == index;
  }

  /**
   * From every reachable state, some continuation hands a message to processing if and only if the
   * message has not left the stream. So a dead-lettered message is done for good exactly when its
   * termination took effect, and an acknowledged one when its acknowledgement did.
   */
  lemma ProcessedAgainIff(before: seq<Step>, index: nat)
    ensures var s := Run(Empty, before);
            (exists after :: NewAttempt(s, Run(s, after), index)) <==> index !in s.left
  {
    hide Inv, Held, Run, NewAttempt;
    var s := Run(Empty, before);
    EmptyIsInvariant();
    RunKeepsInvariant(Empty, before);
    EmptyIsHeld();
    RunKeepsHeld(Empty, before);
    if index !in s.left {
      var after := CanBeProcessed(s, index);
      assert NewAttempt(s, Run(s, after), index);
    } else {
      forall after
        ensures !NewAttempt(s, Run(s, after), index)
      {
        LeftIsDone(s, after, index);
      }
    }
  }

  lemma EmptyIsHeld()
    ensures Held(Empty)
  {
  }

  // ----- messages that keep their identity -----

  predicate IdOf(id: Option<string>, own: string) {
    id.None? || id.value == own
  }

  predicate PhaseIds(phase: Phase, own: string) {
    match phase
    case Reading(incoming) => incoming.messageId == own
    case Finding(incoming, _) => incoming.messageId == own
    case Planning(incoming, _) => incoming.messageId == own
    case Storing(incoming, _, _) => incoming.messageId == own
    case ReadingBack(incoming, _, _) => incoming.messageId == own
    case Publishing(incoming, _, _) => incoming.messageId == own
    case Failing(id, _) => IdOf(id, own)
    case _ => true
  }

  /** Rows and the message in progress carry no identity but the message's own. */
  ghost predicate OwnIds(idOf: nat -> string, s: System) {
    && (forall i: nat :: KeyOf(i) in s.retry ==> IdOf(s.retry[KeyOf(i)].messageId, idOf(i)))
    && (s.task.Some? ==> PhaseIds(s.task.value.phase, idOf(s.task.value.index)))
  }

  /** A message decodes to the same identity each time it is delivered. */
  predicate DecodesOwn(idOf: nat -> string, s: System, step: Step) {
    step.Load? && step.decoded.Ok? && s.task.Some? ==> step.decoded.value.messageId == idOf(s.task.value.index)
  }

  ghost predicate Steady(idOf: nat -> string, steps: seq<Step>) {
    forall i :: 0 <= i < |steps| ==> DecodesOwn(idOf, Run(Empty, steps[..i]), steps[i])
  }

  lemma RecordedId(retry: R.Table, f: R.Failure, fault: R.Fault, own: string)
    requires R.ValidTable(retry) && IdOf(f.messageId, own)
    requires f.key in retry ==> IdOf(retry[f.key].messageId, own)
    ensures var after := R.Step(retry, R.Record(f, fault));
            && (forall k :: k in after && k != f.key ==> k in retry && after[k] == retry[k])
            && (f.key in after ==> IdOf(after[f.key].messageId, own))
  {
    hide R.ValidKey, R.ValidState, R.ValidFailure;
  }

  lemma RecordKeepsIds(idOf: nat -> string, s: System, step: Step)
    requires Inv(s) && OwnIds(idOf, s) && step.Record? && Enabled(s.task, step)
    ensures OwnIds(idOf, Effect(s, step))
  {
    hide Inv, KeyOf, R.Step, R.IsolationRequired, Recorded;
    var index := s.task.value.index;
    var f := FailureOf(index, s.task.value.phase, step);
    assert R.ValidTable(s.retry) by {
      RetryIsValid(s);
    }
    RecordedId(s.retry, f, step.outage, idOf(index));
    var t := AfterRecord(s, s.task.value.phase, step);
    forall i: nat | KeyOf(i) in t.retry
      ensures IdOf(t.retry[KeyOf(i)].messageId, idOf(i))
    {
      if KeyOf(i) == KeyOf(index) {
        KeyOfInjective(i, index);
      }
    }
  }

  lemma RetryIsValid(s: System)
    requires Inv(s)
    ensures R.ValidTable(s.retry)
  {
  }

  lemma ClearKeepsIds(idOf: nat -> string, s: System, step: Step)
    requires OwnIds(idOf, s) && (step.ClearRow? || step.CleanRow?) && Enabled(s.task, step)
    ensures OwnIds(idOf, Effect(s, step))
  {
    hide KeyOf, Find, R.IsolationRequired, R.ValidKey;
  }

  lemma OthersKeepIds(idOf: nat -> string, s: System, step: Step)
    requires OwnIds(idOf, s) && !step.Record? && !step.ClearRow? && !step.CleanRow?
    requires Enabled(s.task, step) && DecodesOwn(idOf, s, step)
    ensures OwnIds(idOf, Effect(s, step))
  {
    hide KeyOf, Find, R.IsolationRequired, R.ValidKey, R.Step, Recorded, FailureOf;
  }

  lemma StepKeepsIds(idOf: nat -> string, s: System, step: Step)
    requires Inv(s) && OwnIds(idOf, s) && DecodesOwn(idOf, s, step)
    ensures OwnIds(idOf, Next(s, step))
  {
    hide Inv, OwnIds, DecodesOwn, Effect, Enabled;
    if Enabled(s.task, step) {
      if step.Record? {
        RecordKeepsIds(idOf, s, step);
      } else if step.ClearRow? || step.CleanRow? {
        ClearKeepsIds(idOf, s, step);
      } else {
        OthersKeepIds(idOf, s, step);
      }
    }
  }

  lemma SteadyBefore(idOf: nat -> string, steps: seq<Step>, n: nat)
    requires Steady(idOf, steps) && n <= |steps|
    ensures Steady(idOf, steps[..n])
  {
    hide DecodesOwn, Run;
    assert forall i :: 0 <= i < n ==> steps[..n][..i] == steps[..i] && steps[..n][i] == steps[i];
  }

  lemma LastDecodesOwn(idOf: nat -> string, steps: seq<Step>)
    requires Steady(idOf, steps) && steps != []
    ensures DecodesOwn(idOf, Run(Empty, steps[..|steps| - 1]), steps[|steps| - 1])
  {
    hide DecodesOwn, Run;
  }

  lemma {:induction false} RunKeepsIds(idOf: nat -> string, steps: seq<Step>)
    requires Steady(idOf, steps)
    ensures OwnIds(idOf, Run(Empty, steps))
  {
    hide Inv, OwnIds, Next, DecodesOwn, Steady;
    if steps == [] {
      EmptyHasOwnIds(idOf);
    } else {
      var n := |steps| - 1;
      SteadyBefore(idOf, steps, n);
      LastDecodesOwn(idOf, steps);
      RunKeepsIds(idOf, steps[..n]);
      EmptyIsInvariant();
      RunKeepsInvariant(Empty, steps[..n]);
      StepKeepsIds(idOf, Run(Empty, steps[..n]), steps[n]);
    }
  }

  lemma EmptyHasOwnIds(idOf: nat -> string)
    ensures OwnIds(idOf, Empty)
  {
  }

  /**
   * While each message decodes to one identity, the store and the reference transition agree on
   * every failure ever recorded: the family on which they differ is never met.
   */
  lemma StoreIsReference(idOf: nat -> string, steps: seq<Step>, step: Step)
    requires Steady(idOf, steps) && step.Record? && Enabled(Run(Empty, steps).task, step)
    ensures var s := Run(Empty, steps);
            var f := FailureOf(s.task.value.index, s.task.value.phase, step);
            R.Advance(R.Row(s.retry, f.key), R.Effective(R.Row(s.retry, f.key), f)) ==
            R.Advance(R.Row(s.retry, f.key), f)
  {
    hide *;
    var s := Run(Empty, steps);
    EmptyIsInvariant();
    RunKeepsInvariant(Empty, steps);
    RunKeepsIds(idOf, steps);
    RecordAgrees(idOf, s, step);
  }

  lemma RecordAgrees(idOf: nat -> string, s: System, step: Step)
    requires Inv(s) && OwnIds(idOf, s) && step.Record? && Enabled(s.task, step)
    ensures var f := FailureOf(s.task.value.index, s.task.value.phase, step);
            R.Advance(R.Row(s.retry, f.key), R.Effective(R.Row(s.retry, f.key), f)) ==
            R.Advance(R.Row(s.retry, f.key), f)
  {
    hide Inv, KeyOf, R.Advance, R.Effective, R.ValidFailure, R.ValidTable, R.IsolationRequired;
    RetryIsValid(s);
    R.RefinesReferenceIff(s.retry, FailureOf(s.task.value.index, s.task.value.phase, step));
  }
}
