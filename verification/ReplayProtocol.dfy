/** The replay worker over whole runs: queue, reservations, publications, acknowledgements and crashes. */
module ReplayProtocol {
  import opened Wrappers
  import opened Contracts
  import opened Replay
  import opened ReplayReservation
  import opened Sorting
  import Decimal

  // ----- the system -----

  /** How far a worker has taken one delivered dead letter. */
  datatype Phase =
    | Chosen
    | Sourced(source: RawMessage)
    | Paid(source: RawMessage, reservation: Reservation)
    | Closing(reason: Reason, answer: Option<Lookup>)

  datatype Task = Task(index: nat, decision: Decision, phase: Phase)

  datatype Sent = Sent(index: nat, source: RawMessage, decision: Decision, reservation: Reservation, message: Message)

  /** Why a dead letter was closed; `answer` is the lookup that closed it, where one did. */
  datatype Closed = Closed(decision: Decision, reason: Reason, answer: Option<Lookup>)

  /**
   * `raw` holds every raw message ever stored under its sequence and `gone` the sequences removed
   * since: an entry may disappear, but never changes. `acked` holds the dead letters that left the
   * queue, and why.
   */
  datatype System = System(
    raw: map<uint64, RawMessage>, gone: set<uint64>, db: Db, queue: seq<DeadLetter>, acked: map<nat, Closed>,
    sent: seq<Sent>,
    tasks: map<nat, Task>)

  datatype Lookup = Found(source: RawMessage) | Missing | Unavailable

  datatype Payment = Answered | NoAnswer(applied: bool)

  datatype Publication = Confirmed | Unconfirmed(stored: bool)

  datatype Step =
    | Store(message: RawMessage)
    | Remove(removed: uint64)
    | Arrive(record: DeadLetter)
    | Fail(replay: nat, sequence: Option<uint64>, recordId: string, messageId: Option<string>, retryable: bool)
    | Deliver(worker: nat, index: nat, max: uint32)
    | Look(worker: nat, reachable: bool)
    | Pay(worker: nat, now: int, payment: Payment)
    | Publish(worker: nat, publication: Publication)
    | Ack(worker: nat)
    | Crash(worker: nat)

  function Drop(s: System, w: nat): System {
    s.(tasks := s.tasks - {w})
  }

  function Move(s: System, w: nat, phase: Phase): System
    requires w in s.tasks
  {
    s.(tasks := s.tasks[w := s.tasks[w].(phase := phase)])
  }

  /** What the raw stream answers for a sequence. */
  function Answer(raw: map<uint64, RawMessage>, gone: set<uint64>, sequence: uint64, reachable: bool): Lookup {
    if !reachable then Unavailable
    else if sequence in raw && sequence !in gone then Found(raw[sequence])
    else Missing
  }

  /** Where a lookup leaves a decision; None when it is put back. */
  function Looked(sha: Digest, d: Decision, answer: Lookup): Option<Phase> {
    match answer
    case Unavailable => None
    case Missing => Some(Closing(SourceUnavailable, Some(answer)))
    case Found(source) =>
      Some(if ValidSource(sha, source, d) then Sourced(source) else Closing(SourceUnavailable, Some(answer)))
  }

  function AfterLookup(sha: Digest, s: System, w: nat, reachable: bool): System
    requires w in s.tasks
  {
    var d := s.tasks[w].decision;
    match Looked(sha, d, Answer(s.raw, s.gone, d.sourceSequence, reachable))
    case None => Drop(s, w)
    case Some(phase) => Move(s, w, phase)
  }

  function AfterPayment(s: System, w: nat, now: int, payment: Payment): (t: System)
    requires w in s.tasks && s.tasks[w].phase.Sourced? && ValidDb(s.db)
    ensures ValidDb(t.db)
  {
    hide ValidDb, Reserve;
    var q := RequestOf(s.tasks[w].decision);
    ReserveIsCharged(s.db, q, now);
    if !ValidRequest(q) then Move(s, w, Closing(InvalidRecord, None))
    else
      var (db, r) := Reserve(s.db, q, now);
      match payment
      case NoAnswer(applied) => Drop(if applied then s.(db := db) else s, w)
      case Answered =>
        var t := s.(db := db);
        match r
        case Ok(reservation) =>
          Move(t, w, if reservation.reserved then Paid(s.tasks[w].phase.source, reservation)
            else Closing(BudgetExhausted, None))
        case Err(error) => if error == StateConflict then Move(t, w, Closing(InvalidRecord, None)) else Drop(t, w)
  }

  function AfterPublish(sha: Digest, s: System, w: nat, publication: Publication): System
    requires w in s.tasks && s.tasks[w].phase.Paid?
  {
    var task := s.tasks[w];
    var handoff := Handoff(sha, task.phase.source, task.decision, task.phase.reservation);
    if handoff.None? then Move(s, w, Closing(InvalidRecord, None))
    else
      var logged := s.(sent := s.sent + [Sent(task.index, task.phase.source, task.decision, task.phase.reservation,
        handoff.value)]);
      match publication
      case Confirmed => Move(logged, w, Closing(Published, None))
      case Unconfirmed(stored) => Drop(if stored then logged else s, w)
  }

  function AfterAck(s: System, w: nat): System
    requires w in s.tasks && s.tasks[w].phase.Closing?
  {
    var task := s.tasks[w];
    var t := if task.index in s.acked then s
      else s.(acked := s.acked[task.index := Closed(task.decision, task.phase.reason, task.phase.answer)]);
    Drop(t, w)
  }

  /** One step of any worker, of a producer or of the normalizer; a step that does not apply changes nothing. */
  function Next(sha: Digest, s: System, step: Step): (t: System)
    requires ValidDb(s.db)
    ensures ValidDb(t.db)
  {
    hide ValidDb, Evaluate, FromMessage, AfterPayment;
    match step
    case Store(message) => if message.sequence in s.raw then s else s.(raw := s.raw[message.sequence := message])
    case Remove(sequence) => s.(gone := s.gone + {sequence})
    case Arrive(record) => s.(queue := s.queue + [record])
    case Fail(i, sequence, recordId, messageId, retryable) =>
      if i < |s.sent| then
        s.(queue := s.queue + [FromMessage(sha, s.sent[i].message, sequence, recordId, messageId, retryable)]) else s
    case Deliver(w, index, max) =>
      if index < |s.queue| && index !in s.acked && w !in s.tasks then
        var d := Evaluate(s.queue[index], max);
        s.(tasks := s.tasks[w := Task(index, d, if d.reason == Eligible then Chosen else Closing(d.reason, None))])
      else s
    case Look(w, reachable) => if w in s.tasks && s.tasks[w].phase.Chosen? then AfterLookup(sha, s, w, reachable) else s
    case Pay(w, now, payment) =>
      if w in s.tasks && s.tasks[w].phase.Sourced? then AfterPayment(s, w, now, payment) else s
    case Publish(w, publication) => if w in s.tasks && s.tasks[w].phase.Paid? then
      AfterPublish(sha, s, w, publication) else s
    case Ack(w) => if w in s.tasks && s.tasks[w].phase.Closing? then AfterAck(s, w) else s
    case Crash(w) => Drop(s, w)
  }

  function Run(sha: Digest, s: System, steps: seq<Step>): (t: System)
    requires ValidDb(s.db)
    ensures ValidDb(t.db)
  {
    if steps == [] then s else Next(sha, Run(sha, s, steps[..|steps| - 1]), steps[|steps| - 1])
  }

  const Empty: System := System(map[], {}, Db(map[], map[]), [], map[], [], map[])

  // ----- the invariant -----

  /** The ledger holds the attempt this decision was given. */
  ghost predicate Charged(db: Db, d: Decision, attempt: int) {
    && d.lifecycleKey in db.states && db.states[d.lifecycleKey].root == d.root
    && db.states[d.lifecycleKey].max == d.maxAttempts
    && (d.lifecycleKey, d.sourceId) in db.ledger
    && db.ledger[(d.lifecycleKey, d.sourceId)] == Attempt(attempt, d.sourceSequence)
  }

  ghost predicate Spent(db: Db, d: Decision) {
    && d.lifecycleKey in db.states
    && db.states[d.lifecycleKey].consumed == db.states[d.lifecycleKey].max == d.maxAttempts
  }

  /** The captured budget or the captured source position differs from what the decision asks for. */
  ghost predicate Conflicted(db: Db, d: Decision) {
    && d.lifecycleKey in db.states
    && (|| db.states[d.lifecycleKey].max != d.maxAttempts
        || ((d.lifecycleKey, d.sourceId) in db.ledger
          && db.ledger[(d.lifecycleKey, d.sourceId)].sequence != d.sourceSequence))
  }

  /** The message the raw stream stored under a sequence. */
  ghost predicate IsRaw(s: System, sequence: uint64, source: RawMessage) {
    sequence in s.raw && s.raw[sequence] == source
  }

  /** A lookup that ends a replay: nothing there, or a stored message that is not the one the record describes. */
  ghost predicate Unusable(sha: Digest, s: System, d: Decision, answer: Option<Lookup>) {
    match answer
    case Some(Missing) => true
    case Some(Found(source)) => IsRaw(s, d.sourceSequence, source) && !ValidSource(sha, source, d)
    case _ => false
  }

  /** What must be true before a dead letter may leave the queue for a reason. */
  ghost predicate Justified(sha: Digest, s: System, index: nat, c: Closed) {
    if c.decision.reason != Eligible then c.reason == c.decision.reason
    else match c.reason
      case Published => exists i :: 0 <= i < |s.sent| && s.sent[i].index == index && s.sent[i].decision == c.decision
      case BudgetExhausted => Spent(s.db, c.decision)
      case InvalidRecord => Conflicted(s.db, c.decision)
      case SourceUnavailable => Unusable(sha, s, c.decision, c.answer)
      case _ => false
  }

  ghost predicate Decided(s: System, index: nat, d: Decision) {
    index < |s.queue| && d == Evaluate(s.queue[index], d.maxAttempts)
  }

  ghost predicate TaskOk(sha: Digest, s: System, t: Task) {
    && Decided(s, t.index, t.decision)
    && match t.phase
       case Chosen => t.decision.reason == Eligible
       case Sourced(source) =>
         t.decision.reason == Eligible && ValidSource(sha, source, t.decision)
           && IsRaw(s, t.decision.sourceSequence, source)
       case Paid(source, r) =>
         && t.decision.reason == Eligible && ValidSource(sha, source, t.decision)
         && IsRaw(s, t.decision.sourceSequence, source)
         && Grants(r, t.decision) && Charged(s.db, t.decision, r.attempt)
       case Closing(reason, answer) => Justified(sha, s, t.index, Closed(t.decision, reason, answer))
  }

  ghost predicate SentOk(sha: Digest, s: System, x: Sent) {
    && Decided(s, x.index, x.decision)
    && Handoff(sha, x.source, x.decision, x.reservation) == Some(x.message)
    && Charged(s.db, x.decision, x.reservation.attempt) && IsRaw(s, x.decision.sourceSequence, x.source)
  }

  ghost predicate AckOk(sha: Digest, s: System, index: nat, c: Closed) {
    Decided(s, index, c.decision) && Justified(sha, s, index, c)
  }

  ghost predicate Inv(sha: Digest, s: System) {
    && ValidDb(s.db)
    && (forall w :: w in s.tasks ==> TaskOk(sha, s, s.tasks[w]))
    && (forall i :: 0 <= i < |s.sent| ==> SentOk(sha, s, s.sent[i]))
    && (forall i :: i in s.acked ==> AckOk(sha, s, i, s.acked[i]))
  }

  /** What every step keeps. */
  ghost predicate Grew(s: System, t: System) {
    && ValidDb(s.db) && ValidDb(t.db) && Extends(s.db, t.db) && s.queue <= t.queue && s.sent <= t.sent
    && (forall i :: i in s.acked ==> i in t.acked && t.acked[i] == s.acked[i])
    && (forall q :: q in s.raw ==> q in t.raw && t.raw[q] == s.raw[q]) && s.gone <= t.gone
  }

  lemma SpentStays(a: Db, b: Db, d: Decision)
    requires ValidDb(a) && ValidDb(b) && Extends(a, b) && Spent(a, d)
    ensures Spent(b, d)
  {
    hide AttemptsComplete, AttemptsDistinct, AttemptsPaid;
    assert ValidBudget(d.lifecycleKey, b.states[d.lifecycleKey]);
  }

  lemma JustifiedStays(sha: Digest, s: System, t: System, index: nat, c: Closed)
    requires Grew(s, t) && Justified(sha, s, index, c)
    ensures Justified(sha, t, index, c)
  {
    if c.decision.reason == Eligible && c.reason == BudgetExhausted {
      SpentStays(s.db, t.db, c.decision);
    }
    hide ValidDb, Spent, ValidSource;
    if c.decision.reason == Eligible && c.reason == Published {
      var i :| 0 <= i < |s.sent| && s.sent[i].index == index && s.sent[i].decision == c.decision;
      assert t.sent[i] == s.sent[i];
    }
  }

  lemma TaskStays(sha: Digest, s: System, t: System, task: Task)
    requires Grew(s, t) && TaskOk(sha, s, task)
    ensures TaskOk(sha, t, task)
  {
    if task.phase.Closing? {
      JustifiedStays(sha, s, t, task.index, Closed(task.decision, task.phase.reason, task.phase.answer));
    }
    hide ValidDb, Justified, Evaluate, ValidSource;
  }

  lemma SentStays(sha: Digest, s: System, t: System, x: Sent)
    requires Grew(s, t) && SentOk(sha, s, x)
    ensures SentOk(sha, t, x)
  {
    hide ValidDb, Evaluate, Handoff;
  }

  lemma AckStays(sha: Digest, s: System, t: System, index: nat, c: Closed)
    requires Grew(s, t) && AckOk(sha, s, index, c)
    ensures AckOk(sha, t, index, c)
  {
    JustifiedStays(sha, s, t, index, c);
    hide ValidDb, Evaluate, Justified;
  }

  /** `t` grew from `s` by sound additions. */
  ghost predicate Adds(sha: Digest, s: System, t: System) {
    && Grew(s, t)
    && (forall w :: w in t.tasks ==> (w in s.tasks && s.tasks[w] == t.tasks[w]) || TaskOk(sha, t, t.tasks[w]))
    && (forall i :: |s.sent| <= i < |t.sent| ==> SentOk(sha, t, t.sent[i]))
    && (forall i :: i in t.acked ==> i in s.acked || AckOk(sha, t, i, t.acked[i]))
  }

  lemma InvFrom(sha: Digest, s: System, t: System)
    requires Inv(sha, s) && Adds(sha, s, t)
    ensures Inv(sha, t)
  {
    hide TaskOk, SentOk, AckOk, Extends, ValidDb;
    forall w | w in t.tasks
      ensures TaskOk(sha, t, t.tasks[w])
    {
      if w in s.tasks && s.tasks[w] == t.tasks[w] {
        TaskStays(sha, s, t, t.tasks[w]);
      }
    }
    forall i | 0 <= i < |s.sent|
      ensures SentOk(sha, t, t.sent[i])
    {
      SentStays(sha, s, t, s.sent[i]);
    }
    forall i | i in s.acked
      ensures AckOk(sha, t, i, t.acked[i])
    {
      AckStays(sha, s, t, i, s.acked[i]);
    }
  }

  lemma ExtendsItself(db: Db)
    ensures Extends(db, db)
  {
  }

  lemma TaskOf(sha: Digest, s: System, w: nat)
    requires Inv(sha, s) && w in s.tasks
    ensures TaskOk(sha, s, s.tasks[w]) && ValidDb(s.db)
  {
  }

  lemma DbOf(sha: Digest, s: System)
    requires Inv(sha, s)
    ensures ValidDb(s.db)
  {
  }

  lemma SentOf(sha: Digest, s: System, i: nat)
    requires Inv(sha, s) && i < |s.sent|
    ensures SentOk(sha, s, s.sent[i])
  {
  }

  lemma OneTaskAdds(sha: Digest, s: System, t: System, w: nat)
    requires ValidDb(s.db) && ValidDb(t.db) && Extends(s.db, t.db)
    requires t.raw == s.raw && t.gone == s.gone && t.queue == s.queue && t.sent == s.sent && t.acked == s.acked
    requires forall v :: v in t.tasks && v != w ==> v in s.tasks && s.tasks[v] == t.tasks[v]
    requires w in t.tasks ==> TaskOk(sha, t, t.tasks[w])
    ensures Adds(sha, s, t)
  {
    hide Extends, ValidDb, TaskOk;
  }

  lemma PaymentTask(sha: Digest, s: System, w: nat, now: int, payment: Payment)
    requires ValidDb(s.db) && w in s.tasks && TaskOk(sha, s, s.tasks[w]) && s.tasks[w].phase.Sourced?
    ensures var t := AfterPayment(s, w, now, payment);
            && ValidDb(t.db) && Extends(s.db, t.db)
            && (w in t.tasks ==> TaskOk(sha, t, t.tasks[w]))
  {
    hide Reserve, Extends, ValidDb, ValidRequest, Evaluate, Charged, Conflicted, Spent, ValidSource, Grants;
    var d := s.tasks[w].decision;
    ReserveIsCharged(s.db, RequestOf(d), now);
    ExtendsItself(s.db);
    EligibleRequest(s, s.tasks[w].index, d);
    PaymentVerdict(s.db, d, now);
  }

  lemma PaymentAdds(sha: Digest, s: System, w: nat, now: int, payment: Payment)
    requires Inv(sha, s) && w in s.tasks && s.tasks[w].phase.Sourced?
    ensures Adds(sha, s, AfterPayment(s, w, now, payment))
  {
    hide Inv, Reserve, Extends, ValidDb, ValidRequest, TaskOk, Adds;
    TaskOf(sha, s, w);
    PaymentTask(sha, s, w, now, payment);
    OneTaskAdds(sha, s, AfterPayment(s, w, now, payment), w);
  }

  /** An eligible decision always makes a well-formed request. */
  lemma EligibleRequest(s: System, index: nat, d: Decision)
    requires Decided(s, index, d) && d.reason == Eligible
    ensures ValidRequest(RequestOf(d))
  {
    EligibleIff(s.queue[index], d.maxAttempts);
  }

  lemma PaymentVerdict(db: Db, d: Decision, now: int)
    requires ValidDb(db) && ValidRequest(RequestOf(d))
    ensures var (after, r) := Reserve(db, RequestOf(d), now);
            && (r.Ok? && r.value.reserved ==> Grants(r.value, d) && Charged(after, d, r.value.attempt))
            && (r.Ok? && !r.value.reserved ==> Spent(after, d))
            && (r == Err(StateConflict) ==> Conflicted(after, d))
  {
    var q := RequestOf(d);
    ReserveIsCharged(db, q, now);
    if Reserve(db, q, now).1 == Err(StateConflict) {
      assert ValidBudget(d.lifecycleKey, db.states[d.lifecycleKey]);
      LifecycleKeyInjective(d.root, db.states[d.lifecycleKey].root);
    }
    hide AttemptsComplete, AttemptsDistinct, AttemptsPaid, LifecycleKey;
  }

  /** After a reservation the handoff checks never refuse. */
  lemma HandoffAccepted(sha: Digest, s: System, task: Task)
    requires TaskOk(sha, s, task) && task.phase.Paid?
    ensures Handoff(sha, task.phase.source, task.decision, task.phase.reservation).Some?
  {
    hide Evaluate, ValidSource, Charged;
  }

  lemma PublishTask(sha: Digest, s: System, w: nat, publication: Publication)
    requires w in s.tasks && TaskOk(sha, s, s.tasks[w]) && s.tasks[w].phase.Paid?
    ensures var t := AfterPublish(sha, s, w, publication);
            && t.raw == s.raw && t.gone == s.gone && t.db == s.db && t.queue == s.queue && t.acked == s.acked
            && (t.sent == s.sent || (t.sent == s.sent + [t.sent[|s.sent|]] && SentOk(sha, t, t.sent[|s.sent|])))
            && (w in t.tasks ==> TaskOk(sha, t, t.tasks[w]))
  {
    HandoffAccepted(sha, s, s.tasks[w]);
    hide ValidDb, Evaluate, Handoff, ValidSource, Grants, Charged;
    var t := AfterPublish(sha, s, w, publication);
    if publication.Confirmed? {
      assert t.sent[|s.sent|].decision == s.tasks[w].decision;
    }
  }

  lemma PublishAdds(sha: Digest, s: System, w: nat, publication: Publication)
    requires Inv(sha, s) && w in s.tasks && s.tasks[w].phase.Paid?
    ensures Adds(sha, s, AfterPublish(sha, s, w, publication))
  {
    hide Inv, Extends, ValidDb, TaskOk, SentOk, Handoff;
    TaskOf(sha, s, w);
    PublishTask(sha, s, w, publication);
    ExtendsItself(s.db);
  }

  lemma LookupAdds(sha: Digest, s: System, w: nat, reachable: bool)
    requires Inv(sha, s) && w in s.tasks && s.tasks[w].phase.Chosen?
    ensures Adds(sha, s, AfterLookup(sha, s, w, reachable))
  {
    hide Inv, Extends, ValidDb, Evaluate, ValidSource;
    TaskOf(sha, s, w);
    ExtendsItself(s.db);
    var t := AfterLookup(sha, s, w, reachable);
    assert w in t.tasks ==> TaskOk(sha, t, t.tasks[w]);
    hide TaskOk, Adds;
    OneTaskAdds(sha, s, t, w);
  }

  lemma AckAdds(sha: Digest, s: System, w: nat)
    requires Inv(sha, s) && w in s.tasks && s.tasks[w].phase.Closing?
    ensures Adds(sha, s, AfterAck(s, w))
  {
    hide Inv, Extends, ValidDb, Evaluate, Justified;
    TaskOf(sha, s, w);
    ExtendsItself(s.db);
    var t, task := AfterAck(s, w), s.tasks[w];
    assert Grew(s, t);
    JustifiedStays(sha, s, t, task.index, Closed(task.decision, task.phase.reason, task.phase.answer));
  }

  lemma NewTaskOk(sha: Digest, s: System, index: nat, max: uint32)
    requires index < |s.queue|
    ensures var d := Evaluate(s.queue[index], max);
            TaskOk(sha, s, Task(index, d, if d.reason == Eligible then Chosen else Closing(d.reason, None)))
  {
    EvaluatesFor(s.queue[index], max);
    hide Evaluate;
  }

  lemma EvaluatesFor(r: DeadLetter, max: uint32)
    ensures Evaluate(r, max).maxAttempts == max
  {
  }

  lemma DeliverAdds(sha: Digest, s: System, w: nat, index: nat, max: uint32)
    requires Inv(sha, s) && ValidDb(s.db) && index < |s.queue|
    ensures Adds(sha, s, Next(sha, s, Deliver(w, index, max)))
  {
    hide Inv, Extends, ValidDb, Evaluate, TaskOk, Adds;
    ExtendsItself(s.db);
    var t := Next(sha, s, Deliver(w, index, max));
    if w !in s.tasks {
      if w in t.tasks {
        NewTaskOk(sha, t, index, max);
      }
      OneTaskAdds(sha, s, t, w);
    } else {
      OtherStepAdds(sha, s, t);
    }
  }

  lemma OtherStepAdds(sha: Digest, s: System, t: System)
    requires ValidDb(s.db) && t.db == s.db && t.sent == s.sent && t.acked == s.acked && s.queue <= t.queue
    requires (forall q :: q in s.raw ==> q in t.raw && t.raw[q] == s.raw[q]) && s.gone <= t.gone
    requires forall w :: w in t.tasks ==> w in s.tasks && t.tasks[w] == s.tasks[w]
    ensures Adds(sha, s, t)
  {
    ExtendsItself(s.db);
    hide Extends, ValidDb;
  }

  /** Every step of every participant keeps the invariant and only adds to the durable state. */
  lemma StepKeepsInvariant(sha: Digest, s: System, step: Step)
    requires Inv(sha, s)
    ensures Inv(sha, Next(sha, s, step)) && Grew(s, Next(sha, s, step))
  {
    hide Inv, ValidDb, Grew, Evaluate, FromMessage, AfterLookup, AfterPayment, AfterPublish, AfterAck;
    DbOf(sha, s);
    var t := Next(sha, s, step);
    assert Adds(sha, s, t) by {
      if step.Deliver? && step.index < |s.queue| {
        DeliverAdds(sha, s, step.worker, step.index, step.max);
      } else if step.Look? && step.worker in s.tasks && s.tasks[step.worker].phase.Chosen? {
        LookupAdds(sha, s, step.worker, step.reachable);
      } else if step.Pay? && step.worker in s.tasks && s.tasks[step.worker].phase.Sourced? {
        PaymentAdds(sha, s, step.worker, step.now, step.payment);
      } else if step.Publish? && step.worker in s.tasks && s.tasks[step.worker].phase.Paid? {
        PublishAdds(sha, s, step.worker, step.publication);
      } else if step.Ack? && step.worker in s.tasks && s.tasks[step.worker].phase.Closing? {
        AckAdds(sha, s, step.worker);
      } else {
        OtherStepAdds(sha, s, t);
      }
    }
    InvFrom(sha, s, t);
  }

  // ----- whole runs -----

  lemma GrewTransitive(s: System, t: System, u: System)
    requires Grew(s, t) && Grew(t, u)
    ensures Grew(s, u)
  {
    hide ValidDb;
  }

  lemma {:induction false} RunKeepsInvariant(sha: Digest, s: System, steps: seq<Step>)
    requires Inv(sha, s)
    ensures Inv(sha, Run(sha, s, steps)) && Grew(s, Run(sha, s, steps))
  {
    if steps == [] {
      ExtendsItself(s.db);
    } else {
      var n := |steps| - 1;
      RunKeepsInvariant(sha, s, steps[..n]);
      var t := Run(sha, s, steps[..n]);
      StepKeepsInvariant(sha, t, steps[n]);
      hide Inv, Grew, Next;
      GrewTransitive(s, t, Next(sha, t, steps[n]));
    }
  }

  lemma EmptyIsInvariant(sha: Digest)
    ensures Inv(sha, Empty)
  {
  }

  // ----- what every run guarantees -----

  function HeaderOf(x: Sent, name: string): Option<string> {
    Header(x.message.headers, name)
  }

  /** Distinct replay message identifiers ever published for a root. */
  ghost function ReplayIds(s: System, root: string): set<Option<string>> {
    set i | 0 <= i < |s.sent| && HeaderOf(s.sent[i], ROOT_HEADER) == Some(root) ::
      HeaderOf(s.sent[i], MESSAGE_ID_HEADER)
  }

  ghost function IdsUpTo(root: string, n: nat): set<Option<string>> {
    set a | 1 <= a <= n :: Some(ReplayMessageId(root, a))
  }

  lemma {:induction false} IdsUpToSize(root: string, n: nat)
    ensures |IdsUpTo(root, n)| <= n
  {
    if n == 0 {
      assert IdsUpTo(root, n) == {};
    } else {
      IdsUpToSize(root, n - 1);
      assert IdsUpTo(root, n) == IdsUpTo(root, n - 1) + {Some(ReplayMessageId(root, n))};
    }
  }

  lemma SentHeaders(sha: Digest, s: System, x: Sent)
    requires SentOk(sha, s, x)
    ensures HeaderOf(x, ROOT_HEADER) == Some(x.decision.root)
    ensures HeaderOf(x, MESSAGE_ID_HEADER) == Some(ReplayMessageId(x.decision.root, x.reservation.attempt))
    ensures HeaderOf(x, SOURCE_RECORD_HEADER) == Some(x.decision.sourceId)
    ensures HeaderOf(x, SOURCE_SEQUENCE_HEADER) == Some(Decimal.Text(x.decision.sourceSequence))
    ensures x.decision.lifecycleKey == LifecycleKey(x.decision.root)
  {
    EligibleIff(s.queue[x.index], x.decision.maxAttempts);
    hide Evaluate, Charged, ReplayMessageId, Decimal.Text;
  }

  lemma PublishedWithinConsumed(sha: Digest, s: System, root: string)
    requires Inv(sha, s)
    ensures var k := LifecycleKey(root);
            ReplayIds(s, root) <= IdsUpTo(root, if k in s.db.states then s.db.states[k].consumed else 0)
  {
    var k := LifecycleKey(root);
    assert k in s.db.states ==> ValidBudget(k, s.db.states[k]);
    hide ValidBudget, LifecycleKey, ReplayMessageId, TaskOk, AckOk;
    forall id | id in ReplayIds(s, root)
      ensures id in IdsUpTo(root, if k in s.db.states then s.db.states[k].consumed else 0)
    {
      var i :| 0 <= i < |s.sent| && HeaderOf(s.sent[i], ROOT_HEADER) == Some(root)
        && HeaderOf(s.sent[i], MESSAGE_ID_HEADER) == id;
      PublishedIsPaid(sha, s, i);
      SentHeaders(sha, s, s.sent[i]);
    }
  }

  lemma PublishedIsPaid(sha: Digest, s: System, i: nat)
    requires Inv(sha, s) && i < |s.sent|
    ensures var x := s.sent[i];
            && SentOk(sha, s, x) && x.decision.lifecycleKey in s.db.states
            && 1 <= x.reservation.attempt <= s.db.states[x.decision.lifecycleKey].consumed
  {
    assert SentOk(sha, s, s.sent[i]);
    hide Handoff, Evaluate, AttemptsComplete, AttemptsDistinct, BudgetsValid, TaskOk, AckOk;
    assert (s.sent[i].decision.lifecycleKey, s.sent[i].decision.sourceId) in s.db.ledger;
  }

  /**
   * Replay budget over whole runs: whatever the interleaving of deliveries, redeliveries, lost
   * answers, crashes and failed replays, the identifiers published for a root are among its first
   * `consumed` attempts, so their number never exceeds the captured budget.
   */
  lemma ReplayBudget(sha: Digest, steps: seq<Step>, root: string)
    ensures var s := Run(sha, Empty, steps);
            var k := LifecycleKey(root);
            if k in s.db.states then
              && ReplayIds(s, root) <= IdsUpTo(root, s.db.states[k].consumed)
              && |ReplayIds(s, root)| <= s.db.states[k].consumed <= s.db.states[k].max
              && s.db.states[k].root == root
            else ReplayIds(s, root) == {}
  {
    EmptyIsInvariant(sha);
    RunKeepsInvariant(sha, Empty, steps);
    var s := Run(sha, Empty, steps);
    var k := LifecycleKey(root);
    if k in s.db.states {
      assert ValidBudget(k, s.db.states[k]);
      LifecycleKeyInjective(root, s.db.states[k].root);
    }
    PublishedWithinConsumed(sha, s, root);
    var n := if k in s.db.states then s.db.states[k].consumed else 0;
    SubsetSize(ReplayIds(s, root), IdsUpTo(root, n));
    IdsUpToSize(root, n);
  }

  /** Source records charged in a lifecycle for attempts up to `n`. */
  ghost function SourcesUpTo(db: Db, k: string, n: int): set<Entry> {
    set e | e in db.ledger && e.0 == k && db.ledger[e].attempt <= n
  }

  lemma NextSource(db: Db, k: string, n: int)
    requires ValidDb(db) && k in db.states && 1 <= n <= db.states[k].consumed
    ensures |SourcesUpTo(db, k, n)| == |SourcesUpTo(db, k, n - 1)| + 1
  {
    CompleteAt(db, k, n);
    hide AttemptsComplete, BudgetsValid, AttemptsPaid;
    var source :| (k, source) in db.ledger && db.ledger[(k, source)].attempt == n;
    assert SourcesUpTo(db, k, n) == SourcesUpTo(db, k, n - 1) + {(k, source)};
  }

  lemma {:induction false} SourcesUpToSize(db: Db, k: string, n: nat)
    requires ValidDb(db) && k in db.states && n <= db.states[k].consumed
    ensures |SourcesUpTo(db, k, n)| == n
  {
    hide AttemptsComplete, BudgetsValid, AttemptsDistinct;
    if n == 0 {
      assert SourcesUpTo(db, k, n) == {};
    } else {
      SourcesUpToSize(db, k, n - 1);
      NextSource(db, k, n);
    }
  }

  /**
   * After every run a lifecycle has charged exactly `consumed` source records, each once, with
   * attempts 1..consumed.
   */
  lemma LedgerIsExact(sha: Digest, steps: seq<Step>, k: string)
    ensures var db := Run(sha, Empty, steps).db;
            && (k in db.states ==>
                  && |set e | e in db.ledger && e.0 == k| == db.states[k].consumed
                  && forall n :: 1 <= n <= db.states[k].consumed ==> HasAttempt(db.ledger, k, n))
            && (k !in db.states ==> forall e :: e in db.ledger ==> e.0 != k)
  {
    EmptyIsInvariant(sha);
    RunKeepsInvariant(sha, Empty, steps);
    var db := Run(sha, Empty, steps).db;
    if k in db.states {
      assert ValidBudget(k, db.states[k]);
      SourcesUpToSize(db, k, db.states[k].consumed);
      assert (set e | e in db.ledger && e.0 == k) == SourcesUpTo(db, k, db.states[k].consumed);
    }
  }

  /** Every published replay carries the bytes of the persisted raw message its dead letter describes. */
  lemma ReplaysTheSource(sha: Digest, steps: seq<Step>, i: nat)
    requires i < |Run(sha, Empty, steps).sent|
    ensures var s := Run(sha, Empty, steps);
            var x := s.sent[i];
            && x.index < |s.queue| && Some(x.decision.sourceSequence) == s.queue[x.index].sequence
            && x.decision.sourceSequence in s.raw
            && var raw := s.raw[x.decision.sourceSequence];
               && raw.subject == RAW_PERSISTED_SUBJECT && raw.sequence == x.decision.sourceSequence
               && x.message.data == raw.data && sha(raw.data) == s.queue[x.index].payloadHash
  {
    EmptyIsInvariant(sha);
    RunKeepsInvariant(sha, Empty, steps);
    var s := Run(sha, Empty, steps);
    hide Run, Inv, Charged, Evaluate, Headers;
    SentOf(sha, s, i);
    EligibleIff(s.queue[s.sent[i].index], s.sent[i].decision.maxAttempts);
  }

  /** One identifier never stands for two messages: headers, lineage and bytes agree. */
  lemma SameIdSameMessage(sha: Digest, steps: seq<Step>, i: nat, j: nat)
    requires var s := Run(sha, Empty, steps);
             i < |s.sent| && j < |s.sent| && HeaderOf(s.sent[i], MESSAGE_ID_HEADER) ==
               HeaderOf(s.sent[j], MESSAGE_ID_HEADER)
    ensures var x, y := Run(sha, Empty, steps).sent[i], Run(sha, Empty, steps).sent[j];
            && x.message == y.message
            && HeaderOf(x, ROOT_HEADER) == HeaderOf(y, ROOT_HEADER)
            && HeaderOf(x, SOURCE_RECORD_HEADER) == HeaderOf(y, SOURCE_RECORD_HEADER)
            && HeaderOf(x, SOURCE_SEQUENCE_HEADER) == HeaderOf(y, SOURCE_SEQUENCE_HEADER)
  {
    EmptyIsInvariant(sha);
    RunKeepsInvariant(sha, Empty, steps);
    hide Run, Inv;
    IdDeterminesMessage(sha, Run(sha, Empty, steps), i, j);
  }

  lemma IdDeterminesMessage(sha: Digest, s: System, i: nat, j: nat)
    requires Inv(sha, s) && i < |s.sent| && j < |s.sent|
    requires HeaderOf(s.sent[i], MESSAGE_ID_HEADER) == HeaderOf(s.sent[j], MESSAGE_ID_HEADER)
    ensures s.sent[i].message == s.sent[j].message
  {
    var x, y := s.sent[i], s.sent[j];
    PublishedIsPaid(sha, s, i);
    PublishedIsPaid(sha, s, j);
    SentHeaders(sha, s, x);
    SentHeaders(sha, s, y);
    ReplayMessageIdInjective(x.decision.root, x.reservation.attempt, y.decision.root, y.reservation.attempt);
    hide Inv, Evaluate, AttemptsComplete, AttemptsPaid, BudgetsValid, LifecycleKey, ReplayMessageId, HeaderOf;
    LedgerSeparates(s.db, x.decision, y.decision, x.reservation.attempt);
    hide AttemptsDistinct, Charged;
    assert x.source == y.source;
    MessageDetermined(sha, x, y);
  }

  lemma MessageDetermined(sha: Digest, x: Sent, y: Sent)
    requires Handoff(sha, x.source, x.decision, x.reservation) == Some(x.message)
    requires Handoff(sha, y.source, y.decision, y.reservation) == Some(y.message)
    requires x.source == y.source && x.reservation.attempt == y.reservation.attempt
      && x.decision.root == y.decision.root
    requires x.decision.sourceId == y.decision.sourceId && x.decision.sourceSequence == y.decision.sourceSequence
    ensures x.message == y.message
  {
    hide ReplayMessageId, Decimal.Text;
  }

  lemma LedgerSeparates(db: Db, x: Decision, y: Decision, attempt: int)
    requires AttemptsDistinct(db.ledger) && Charged(db, x, attempt) && Charged(db, y, attempt)
      && x.lifecycleKey == y.lifecycleKey
    ensures x.sourceId == y.sourceId && x.sourceSequence == y.sourceSequence
  {
    assert (x.lifecycleKey, x.sourceId) == (y.lifecycleKey, y.sourceId);
  }

  /**
   * A dead letter leaves the queue only when its own replay was published, its budget is spent, the
   * lookup found nothing or a stored message that is not the described one, its captured state
   * conflicts, or it was never eligible.
   */
  lemma AckedIsJustified(sha: Digest, steps: seq<Step>, index: nat)
    requires index in Run(sha, Empty, steps).acked
    ensures var s := Run(sha, Empty, steps);
            Decided(s, index, s.acked[index].decision) && Justified(sha, s, index, s.acked[index])
  {
    EmptyIsInvariant(sha);
    RunKeepsInvariant(sha, Empty, steps);
    var s := Run(sha, Empty, steps);
    assert AckOk(sha, s, index, s.acked[index]);
  }

  /**
   * In every reachable state: a request is always well formed, and after a reservation the handoff
   * checks never refuse.
   */
  lemma HandoffNeverRefuses(sha: Digest, steps: seq<Step>, w: nat)
    requires w in Run(sha, Empty, steps).tasks
    ensures var task := Run(sha, Empty, steps).tasks[w];
            && (task.phase.Sourced? ==> ValidRequest(RequestOf(task.decision)))
            && (task.phase.Paid? ==> Handoff(sha, task.phase.source, task.decision, task.phase.reservation).Some?)
  {
    EmptyIsInvariant(sha);
    RunKeepsInvariant(sha, Empty, steps);
    var s := Run(sha, Empty, steps);
    hide Run, ValidRequest, Handoff;
    TaskOf(sha, s, w);
    var task := s.tasks[w];
    if task.phase.Sourced? {
      EligibleRequest(s, task.index, task.decision);
    } else if task.phase.Paid? {
      HandoffAccepted(sha, s, task);
    }
  }

  /**
   * From any reachable state, whatever happens next: captured roots and budgets stay, charges and
   * ledger entries are never undone.
   */
  lemma CapturedForever(sha: Digest, before: seq<Step>, after: seq<Step>, k: string)
    requires k in Run(sha, Empty, before).db.states
    ensures var a := Run(sha, Empty, before);
            var b := Run(sha, a, after);
            && k in b.db.states && b.db.states[k].root == a.db.states[k].root
            && b.db.states[k].max == a.db.states[k].max
            && a.db.states[k].consumed <= b.db.states[k].consumed <= a.db.states[k].max
            && forall e :: e in a.db.ledger ==> e in b.db.ledger && b.db.ledger[e] == a.db.ledger[e]
  {
    EmptyIsInvariant(sha);
    RunKeepsInvariant(sha, Empty, before);
    var a := Run(sha, Empty, before);
    RunKeepsInvariant(sha, a, after);
    assert ValidBudget(k, Run(sha, a, after).db.states[k]);
  }

  /** A failed replay re-enters the queue in its root's lifecycle, pointing at the same raw message. */
  lemma FailedReplayReturns(
    sha: Digest, steps: seq<Step>, i: nat, sequence: Option<uint64>, recordId: string, messageId: Option<string>,
    retryable: bool, later: uint32)
    requires i < |Run(sha, Empty, steps).sent| && HasText(recordId) && later != 0
    ensures var s := Run(sha, Empty, steps);
            var t := Next(sha, s, Fail(i, sequence, recordId, messageId, retryable));
            && |t.queue| == |s.queue| + 1
            && Evaluate(t.queue[|s.queue|], later) ==
               s.sent[i].decision.(reason := if retryable then Eligible else PermanentFailure, maxAttempts := later,
                 sourceId := recordId)
  {
    hide Inv, Evaluate, Handoff, Charged, FromMessage, Run;
    EmptyIsInvariant(sha);
    RunKeepsInvariant(sha, Empty, steps);
    var s := Run(sha, Empty, steps);
    var x := s.sent[i];
    SentOf(sha, s, i);
    FailedReplayStaysInLifecycle(sha, s.queue[x.index], x.decision.maxAttempts, x.source, x.reservation, sequence,
      recordId, messageId, retryable, later);
  }

  /** A lookup, reservation or publication that brings no answer, or a crash. */
  predicate Unanswered(step: Step) {
    match step
    case Look(_, reachable) => !reachable
    case Pay(_, _, payment) => payment.NoAnswer?
    case Publish(_, publication) => publication.Unconfirmed?
    case Crash(_) => true
    case _ => false
  }

  /** The phase in which the worker makes the call. */
  predicate TurnOf(phase: Phase, step: Step) {
    match step
    case Look(_, _) => phase.Chosen?
    case Pay(_, _, _) => phase.Sourced?
    case Publish(_, _) => phase.Paid?
    case _ => true
  }

  /** The worker let go of its letter; nothing was acknowledged, and only the call itself may have taken effect. */
  predicate PutBack(s: System, t: System, step: Step)
    requires Unanswered(step)
  {
    && t.acked == s.acked && t.tasks == s.tasks - {step.worker} && t.queue == s.queue
    && (t.db == s.db || step.Pay?) && (t.sent == s.sent || step.Publish?)
  }

  /** In every reachable state, a call without an answer puts the letter back: nothing is acknowledged. */
  lemma UnansweredPutsBack(sha: Digest, steps: seq<Step>, step: Step)
    requires Unanswered(step) && step.worker in Run(sha, Empty, steps).tasks
    requires TurnOf(Run(sha, Empty, steps).tasks[step.worker].phase, step)
    ensures var s := Run(sha, Empty, steps);
            PutBack(s, Next(sha, s, step), step)
  {
    EmptyIsInvariant(sha);
    RunKeepsInvariant(sha, Empty, steps);
    hide Run, Inv, Next, TaskOk, PutBack, ValidDb;
    var s := Run(sha, Empty, steps);
    TaskOf(sha, s, step.worker);
    if step.Pay? {
      UnansweredPay(sha, s, step);
    } else if step.Publish? {
      UnansweredPublish(sha, s, step);
    } else {
      UnansweredOther(sha, s, step);
    }
  }

  lemma UnansweredPay(sha: Digest, s: System, step: Step)
    requires ValidDb(s.db) && step.Pay? && Unanswered(step) && step.worker in s.tasks
    requires TurnOf(s.tasks[step.worker].phase, step) && TaskOk(sha, s, s.tasks[step.worker])
    ensures PutBack(s, Next(sha, s, step), step)
  {
    hide ValidDb, Reserve, Evaluate, ValidRequest, ValidSource;
    EligibleRequest(s, s.tasks[step.worker].index, s.tasks[step.worker].decision);
  }

  lemma UnansweredPublish(sha: Digest, s: System, step: Step)
    requires ValidDb(s.db) && step.Publish? && Unanswered(step) && step.worker in s.tasks
    requires TurnOf(s.tasks[step.worker].phase, step) && TaskOk(sha, s, s.tasks[step.worker])
    ensures PutBack(s, Next(sha, s, step), step)
  {
    hide ValidDb, Handoff, TaskOk;
    HandoffAccepted(sha, s, s.tasks[step.worker]);
  }

  lemma UnansweredOther(sha: Digest, s: System, step: Step)
    requires ValidDb(s.db) && !step.Pay? && !step.Publish? && Unanswered(step) && step.worker in s.tasks
    requires TurnOf(s.tasks[step.worker].phase, step)
    ensures PutBack(s, Next(sha, s, step), step)
  {
    hide ValidDb, Evaluate, AfterPayment, AfterPublish;
  }
}
