/** The worker's message handler, in the order of its effects, as a run of the replay protocol. */
module ReplayWorker {
  import opened Wrappers
  import opened Contracts
  import opened Replay
  import opened ReplayReservation
  import opened ReplayProtocol
  import Decimal

  class Worker {
    const sha: Digest
    const store: PostgresReplayStore
    var raw: map<uint64, RawMessage>
    var gone: set<uint64>
    var queue: seq<DeadLetter>
    var acked: map<nat, Closed>
    var sent: seq<Sent>

    constructor (sha: Digest, store: PostgresReplayStore)
      ensures this.sha == sha && this.store == store
      ensures raw == map[] && gone == {} && queue == [] && acked == map[] && sent == []
    {
      this.sha := sha;
      this.store := store;
      raw, gone, queue, acked, sent := map[], {}, [], map[], [];
    }

    /** The shared state between two messages: no task is in progress. */
    ghost function Idle(): System
      reads this, store
    {
      System(raw, gone, store.db, queue, acked, sent, map[])
    }

    method Acknowledge(index: nat, c: Closed, applied: bool)
      modifies this`acked
      ensures acked == if applied && index !in old(acked) then old(acked)[index := c] else old(acked)
    {
      if applied && index !in acked {
        acked := acked[index := c];
      }
    }

    /**
     * One delivery of the dead letter at `index`: look up the source, validate it, reserve, publish,
     * and only then acknowledge. The parameters say what each outside call answered.
     */
    method Handle(
        index: nat, max: uint32, reachable: bool, now: int, cut: Cut, publication: Publication, ackApplied: bool)
      returns (ghost payment: Payment)
      requires index < |queue| && index !in acked && ValidDb(store.db)
      modifies this`acked, this`sent, store
      ensures Idle() == Run(sha, old(Idle()), Handling(index, max, reachable, now, payment, publication, ackApplied))
      ensures cut == Never ==> payment == Answered
    {
      payment := Answered;
      ghost var s := Idle();
      ghost var steps := Handling(index, max, reachable, now, payment, publication, ackApplied);
      HandlingShape(index, max, reachable, now, payment, publication, ackApplied);
      var d := Evaluate(queue[index], max);
      hide Evaluate, ValidDb, ValidSource, Run, Next, Handling;
      DeliverStep(sha, s, steps, index, max);
      if d.reason != Eligible {
        Acknowledge(index, Closed(d, d.reason, None), ackApplied);
        ClosedAt(sha, s, steps, 1, s, Closed(d, d.reason, None), index);
        return;
      }
      LookStep(sha, s, steps, index, d, reachable);
      var lookup := Answer(raw, gone, d.sourceSequence, reachable);
      if lookup == Unavailable {
        IdleAt(sha, s, steps, 2, s);
        return;
      }
      if lookup == Missing || !ValidSource(sha, lookup.source, d) {
        var closed := Closed(d, SourceUnavailable, Some(lookup));
        Acknowledge(index, closed, ackApplied);
        ClosedAt(sha, s, steps, 2, s, closed, index);
        return;
      }
      forall p
        ensures Run(sha, s, Handling(index, max, reachable, now, p, publication, ackApplied)[..2]) ==
          With(s, Task(index, d, Sourced(lookup.source)))
      {
        PaymentComesThird(index, max, reachable, now, payment, p, publication, ackApplied);
      }
      payment := ReserveAndPublish(s, index, max, reachable, d, lookup.source, now, cut, publication, ackApplied);
    }

    /** From a validated source on: reserve, then publish what was reserved. */
    method ReserveAndPublish(
      ghost s: System, index: nat, ghost max: uint32, ghost reachable: bool, d: Decision, source: RawMessage,
        now: int, cut: Cut,
      publication: Publication, ackApplied: bool) returns (ghost payment: Payment)
      requires s == Idle() && ValidDb(s.db) && index !in acked
      requires forall p ::
        Run(sha, s, Handling(index, max, reachable, now, p, publication, ackApplied)[..2]) ==
        With(s, Task(index, d, Sourced(source)))
      modifies this`acked, this`sent, store
      ensures Idle() == Run(sha, s, Handling(index, max, reachable, now, payment, publication, ackApplied))
      ensures cut == Never ==> payment == Answered
    {
      hide ValidDb, Reserve, Handoff, ValidRequest, Run, Next, Handling;
      payment := Answered;
      ghost var steps := Handling(index, max, reachable, now, payment, publication, ackApplied);
      HandlingShape(index, max, reachable, now, payment, publication, ackApplied);
      PayStep(sha, s, steps, index, d, source, now, payment);
      var request := RequestOf(d);
      if !ValidRequest(request) {
        Acknowledge(index, Closed(d, InvalidRecord, None), ackApplied);
        ClosedAt(sha, s, steps, 3, s, Closed(d, InvalidRecord, None), index);
        return;
      }
      var answer := store.ReserveAttempt(request, now, cut);
      ghost var paid := s.(db := store.db);
      if answer.Err? {
        if answer.error == StateConflict {
          Acknowledge(index, Closed(d, InvalidRecord, None), ackApplied);
          ClosedAt(sha, s, steps, 3, paid, Closed(d, InvalidRecord, None), index);
        } else if cut == Never {
          IdleAt(sha, s, steps, 3, paid);
        } else {
          payment := NoAnswer(store.db != s.db);
          steps := Handling(index, max, reachable, now, payment, publication, ackApplied);
          HandlingShape(index, max, reachable, now, payment, publication, ackApplied);
          PayStep(sha, s, steps, index, d, source, now, payment);
          IdleAt(sha, s, steps, 3, paid);
        }
        return;
      }
      var reservation := answer.value;
      if !reservation.reserved {
        Acknowledge(index, Closed(d, BudgetExhausted, None), ackApplied);
        ClosedAt(sha, s, steps, 3, paid, Closed(d, BudgetExhausted, None), index);
        return;
      }
      PublishReserved(s, steps, paid, index, d, source, reservation, publication, ackApplied);
    }

    method PublishReserved(
      ghost s: System, ghost steps: seq<Step>, ghost paid: System, index: nat, d: Decision, source: RawMessage,
        reservation: Reservation,
      publication: Publication, ackApplied: bool)
      requires ValidDb(s.db) && paid == Idle() && Handles(steps) && steps[3] == Publish(0, publication)
        && (steps[4].Ack? <==> ackApplied)
      requires Run(sha, s, steps[..3]) == With(paid, Task(index, d, Paid(source, reservation)))
      modifies this`acked, this`sent
      ensures Idle() == Run(sha, s, steps)
    {
      hide ValidDb, Handoff, Run, Next;
      PublishStep(sha, s, steps, paid, Task(index, d, Paid(source, reservation)), publication);
      var message := BuildMessage(sha, source, d, reservation);
      if message.None? {
        Acknowledge(index, Closed(d, InvalidRecord, None), ackApplied);
        ClosedAt(sha, s, steps, 4, paid, Closed(d, InvalidRecord, None), index);
        return;
      }
      if publication != Unconfirmed(false) {
        sent := sent + [Sent(index, source, d, reservation, message.value)];
      }
      ghost var logged := paid.(sent := sent);
      if publication == Confirmed {
        Acknowledge(index, Closed(d, Published, None), ackApplied);
        ClosedAt(sha, s, steps, 4, logged, Closed(d, Published, None), index);
      } else {
        IdleAt(sha, s, steps, 4, logged);
      }
    }
  }

  /** The protocol steps of one delivery; a step whose turn does not come changes nothing. */
  function Handling(
      index: nat, max: uint32, reachable: bool, now: int, payment: Payment, publication: Publication, ackApplied: bool)
    : seq<Step> {
    [Deliver(0, index, max), Look(0, reachable), Pay(0, now, payment), Publish(0, publication), if ackApplied then
      Ack(0) else Crash(0)]
  }

  lemma HandlingShape(
      index: nat, max: uint32, reachable: bool, now: int, payment: Payment, publication: Publication, ackApplied: bool)
    ensures var steps := Handling(index, max, reachable, now, payment, publication, ackApplied);
            && Handles(steps) && steps[0] == Deliver(0, index, max) && steps[1] == Look(0, reachable)
            && steps[2] == Pay(0, now, payment)
            && steps[3] == Publish(0, publication) && (steps[4].Ack? <==> ackApplied)
  {
  }

  lemma PaymentComesThird(
      index: nat, max: uint32, reachable: bool, now: int, p: Payment, q: Payment, publication: Publication,
      ackApplied: bool)
    ensures Handling(index, max, reachable, now, p, publication, ackApplied)[..2] ==
      Handling(index, max, reachable, now, q, publication, ackApplied)[..2]
  {
  }

  function With(s: System, task: Task): System {
    s.(tasks := map[0 := task])
  }

  lemma WithDb(s: System, task: Task)
    ensures With(s, task).db == s.db
  {
  }

  lemma MoveWith(s: System, task: Task, phase: Phase)
    ensures Move(With(s, task), 0, phase) == With(s, task.(phase := phase))
  {
    assert map[0 := task][0 := task.(phase := phase)] == map[0 := task.(phase := phase)];
  }

  lemma DropWith(s: System, task: Task)
    requires s.tasks == map[]
    ensures Drop(With(s, task), 0) == s
  {
    assert map[0 := task] - {0} == map[];
  }

  lemma DeliverStep(sha: Digest, s: System, steps: seq<Step>, index: nat, max: uint32)
    requires ValidDb(s.db) && s.tasks == map[] && index < |s.queue| && index !in s.acked
    requires steps != [] && steps[0] == Deliver(0, index, max)
    ensures var d := Evaluate(s.queue[index], max);
            Run(sha, s, steps[..1]) ==
              With(s, Task(index, d, if d.reason == Eligible then Chosen else Closing(d.reason, None)))
  {
    hide Run, Evaluate, ValidDb;
    Prefix(sha, s, steps, 1);
  }

  lemma LookStep(sha: Digest, s: System, steps: seq<Step>, index: nat, d: Decision, reachable: bool)
    requires ValidDb(s.db) && s.tasks == map[] && |steps| >= 2 && steps[1] == Look(0, reachable)
    requires Run(sha, s, steps[..1]) == With(s, Task(index, d, Chosen))
    ensures Run(sha, s, steps[..2]) == match Looked(sha, d, Answer(s.raw, s.gone, d.sourceSequence, reachable))
                                       case None => s
                                       case Some(phase) => With(s, Task(index, d, phase))
  {
    hide Run, ValidDb, Move, Drop, Looked;
    Prefix(sha, s, steps, 2);
    var task := Task(index, d, Chosen);
    DropWith(s, task);
    var looked := Looked(sha, d, Answer(s.raw, s.gone, d.sourceSequence, reachable));
    if looked.Some? {
      MoveWith(s, task, looked.value);
    }
  }

  lemma PayStep(
      sha: Digest, s: System, steps: seq<Step>, index: nat, d: Decision, source: RawMessage, now: int, payment: Payment)
    requires ValidDb(s.db) && s.tasks == map[] && |steps| >= 3 && steps[2] == Pay(0, now, payment)
    requires Run(sha, s, steps[..2]) == With(s, Task(index, d, Sourced(source)))
    ensures var (db, r) := Reserve(s.db, RequestOf(d), now);
            Run(sha, s, steps[..3]) ==
            if !ValidRequest(RequestOf(d)) then With(s, Task(index, d, Closing(InvalidRecord, None)))
            else match payment
              case NoAnswer(applied) => if applied then s.(db := db) else s
              case Answered =>
                match r
                case Err(error) => if error == StateConflict then
                  With(s.(db := db), Task(index, d, Closing(InvalidRecord, None))) else s.(db := db)
                case Ok(reservation) =>
                  With(s.(db := db), Task(index, d, if reservation.reserved then Paid(source, reservation)
                    else Closing(BudgetExhausted, None)))
  {
    hide Run, ValidDb, Reserve, ValidRequest, Move, Drop;
    Prefix(sha, s, steps, 3);
    var task := Task(index, d, Sourced(source));
    var (db, r) := Reserve(s.db, RequestOf(d), now);
    var paid := s.(db := db);
    assert With(s, task).(db := db) == With(paid, task);
    DropWith(s, task);
    DropWith(paid, task);
    MoveWith(s, task, Closing(InvalidRecord, None));
    MoveWith(paid, task, Closing(InvalidRecord, None));
    MoveWith(paid, task, Closing(BudgetExhausted, None));
    if r.Ok? {
      MoveWith(paid, task, Paid(source, r.value));
    }
  }

  function Log(paid: System, task: Task, message: Message): System
    requires task.phase.Paid?
  {
    paid.(sent := paid.sent + [Sent(task.index, task.phase.source, task.decision, task.phase.reservation, message)])
  }

  function PublishEnd(paid: System, task: Task, handoff: Option<Message>, publication: Publication): System
    requires task.phase.Paid?
  {
    match handoff
    case None => With(paid, task.(phase := Closing(InvalidRecord, None)))
    case Some(message) =>
      match publication
      case Confirmed => With(Log(paid, task, message), task.(phase := Closing(Published, None)))
      case Unconfirmed(stored) => if stored then Log(paid, task, message) else paid
  }

  lemma PublishEffect(sha: Digest, paid: System, task: Task, publication: Publication)
    requires paid.tasks == map[] && task.phase.Paid?
    ensures AfterPublish(sha, With(paid, task), 0, publication) ==
            PublishEnd(paid, task, Handoff(sha, task.phase.source, task.decision, task.phase.reservation), publication)
  {
    hide Handoff, Move, Drop;
    DropWith(paid, task);
    MoveWith(paid, task, Closing(InvalidRecord, None));
    var handoff := Handoff(sha, task.phase.source, task.decision, task.phase.reservation);
    if handoff.Some? {
      var logged := Log(paid, task, handoff.value);
      assert With(logged, task) == With(paid, task).(sent := logged.sent);
      DropWith(logged, task);
      MoveWith(logged, task, Closing(Published, None));
    }
  }

  lemma PublishTurn(sha: Digest, paid: System, task: Task, publication: Publication)
    requires ValidDb(paid.db) && task.phase.Paid?
    ensures 0 in With(paid, task).tasks && With(paid, task).tasks[0].phase.Paid? && ValidDb(With(paid, task).db)
    ensures Next(sha, With(paid, task), Publish(0, publication)) == AfterPublish(sha, With(paid, task), 0, publication)
  {
    hide ValidDb, AfterPublish;
  }

  lemma PublishStep(sha: Digest, s: System, steps: seq<Step>, paid: System, task: Task, publication: Publication)
    requires ValidDb(s.db) && paid.tasks == map[] && |steps| >= 4 && steps[3] == Publish(0, publication)
      && task.phase.Paid?
    requires Run(sha, s, steps[..3]) == With(paid, task)
    ensures Run(sha, s, steps[..4]) ==
            PublishEnd(paid, task, Handoff(sha, task.phase.source, task.decision, task.phase.reservation), publication)
  {
    hide *;
    WithDb(paid, task);
    Prefix(sha, s, steps, 4);
    PublishEffect(sha, paid, task, publication);
    PublishTurn(sha, paid, task, publication);
  }

  lemma Prefix(sha: Digest, s: System, steps: seq<Step>, n: nat)
    requires ValidDb(s.db) && 1 <= n <= |steps|
    ensures Run(sha, s, steps[..n]) == Next(sha, Run(sha, s, steps[..n - 1]), steps[n - 1])
    ensures Run(sha, s, steps[..0]) == s && Run(sha, s, steps[..|steps|]) == Run(sha, s, steps)
  {
    hide Next;
    assert steps[..n][..n - 1] == steps[..n - 1];
    assert steps[..|steps|] == steps;
  }

  /** The last steps of one delivery by worker 0. */
  predicate Handles(steps: seq<Step>) {
    && |steps| == 5 && steps[1].Look? && steps[2].Pay? && steps[3].Publish? && (steps[4].Ack? || steps[4].Crash?)
    && forall i :: 1 <= i < 5 ==> steps[i].worker == 0
  }

  /** With no task left, the remaining steps change nothing. */
  lemma {:induction false} IdleAt(sha: Digest, s0: System, steps: seq<Step>, k: nat, s: System)
    requires ValidDb(s0.db) && Handles(steps) && 1 <= k <= 5
    requires s.tasks == map[] && Run(sha, s0, steps[..k]) == s
    ensures Run(sha, s0, steps) == s
    decreases 5 - k
  {
    hide Run, ValidDb;
    if k < 5 {
      Prefix(sha, s0, steps, k + 1);
      assert Next(sha, s, steps[k]) == s;
      IdleAt(sha, s0, steps, k + 1, s);
    } else {
      Prefix(sha, s0, steps, 5);
    }
  }

  function Acknowledged(s: System, index: nat, c: Closed, applied: bool): System {
    if applied && index !in s.acked then s.(acked := s.acked[index := c]) else s
  }

  /** Once the delivery is closing, the remaining steps only acknowledge. */
  lemma {:induction false} ClosedAt(sha: Digest, s0: System, steps: seq<Step>, k: nat, s: System, c: Closed, index: nat)
    requires ValidDb(s0.db) && Handles(steps) && 1 <= k <= 4
    requires s.tasks == map[]
      && Run(sha, s0, steps[..k]) == With(s, Task(index, c.decision, Closing(c.reason, c.answer)))
    ensures Run(sha, s0, steps) == Acknowledged(s, index, c, steps[4].Ack?)
    decreases 4 - k
  {
    hide Run, ValidDb;
    var closing := With(s, Task(index, c.decision, Closing(c.reason, c.answer)));
    Prefix(sha, s0, steps, k + 1);
    if k < 4 {
      assert Next(sha, closing, steps[k]) == closing;
      ClosedAt(sha, s0, steps, k + 1, s, c, index);
    } else {
      assert closing.tasks - {0} == map[];
    }
  }

  // ----- what one undisturbed delivery comes to -----

  function Undisturbed(index: nat, max: uint32, now: int): seq<Step> {
    Handling(index, max, true, now, Answered, Confirmed, true)
  }

  /** The raw stream still holds the message the decision describes. */
  predicate SourceStands(sha: Digest, s: System, d: Decision) {
    && d.sourceSequence in s.raw && d.sourceSequence !in s.gone
    && s.raw[d.sourceSequence].sequence == d.sourceSequence
    && s.raw[d.sourceSequence].subject == RAW_PERSISTED_SUBJECT
    && sha(s.raw[d.sourceSequence].data) == d.payloadHash
  }

  /** Why the letter leaves the queue; None when it stays for another delivery. */
  predicate Leaves(sha: Digest, s: System, d: Decision, now: int, reason: Option<Reason>) {
    var q := RequestOf(d);
    var entry := (q.lifecycleKey, q.sourceId);
    if d.reason != Eligible then reason == Some(d.reason)
    else if !SourceStands(sha, s, d) then reason == Some(SourceUnavailable)
    else if !FitsColumns(q) then reason == None
    else if Conflicts(s.db, q) then reason == Some(InvalidRecord)
    else if entry in s.db.ledger || HasRoom(s.db, q, now) then reason == Some(Published)
    else if ConsumedBy(s.db, q.lifecycleKey) == q.maxAttempts then reason == Some(BudgetExhausted)
    else reason == None
  }

  /** The paid attempt: the one in the ledger, or the next. */
  function AttemptOf(s: System, d: Decision): int {
    var entry := (d.lifecycleKey, d.sourceId);
    if entry in s.db.ledger then s.db.ledger[entry].attempt else ConsumedBy(s.db, d.lifecycleKey) + 1
  }

  /** The replay of the stored raw message under the paid attempt. */
  predicate IsReplayOf(s: System, d: Decision, m: Message)
    requires d.sourceSequence in s.raw && AttemptOf(s, d) >= 0
  {
    && m.subject == RAW_REPLAY_SUBJECT && m.data == s.raw[d.sourceSequence].data
    && Header(m.headers, MESSAGE_ID_HEADER) == Some(ReplayMessageId(d.root, AttemptOf(s, d)))
    && Header(m.headers, ATTEMPT_HEADER) == Some(Decimal.Text(AttemptOf(s, d)))
    && Header(m.headers, ROOT_HEADER) == Some(d.root) && Header(m.headers, SOURCE_RECORD_HEADER) == Some(d.sourceId)
    && Header(m.headers, SOURCE_SEQUENCE_HEADER) == Some(Decimal.Text(d.sourceSequence))
  }

  lemma HandoffIsReplay(sha: Digest, s: System, d: Decision, r: Reservation)
    requires d.reason == Eligible && SourceStands(sha, s, d) && Grants(r, d) && AttemptOf(s, d) == r.attempt
    ensures var m := Handoff(sha, s.raw[d.sourceSequence], d, r);
            m.Some? && IsReplayOf(s, d, m.value)
  {
    hide ReplayMessageId, Decimal.Text, AttemptOf;
  }

  lemma SourcedAt(sha: Digest, s: System, index: nat, max: uint32, now: int)
    requires ValidDb(s.db) && s.tasks == map[] && index < |s.queue| && index !in s.acked
    requires var d := Evaluate(s.queue[index], max);
             d.reason == Eligible && SourceStands(sha, s, d)
    ensures var d := Evaluate(s.queue[index], max);
            Run(sha, s, Undisturbed(index, max, now)[..2]) ==
            With(s, Task(index, d, Sourced(s.raw[d.sourceSequence])))
  {
    hide Evaluate, ValidDb, Run, Next, Handling;
    var d := Evaluate(s.queue[index], max);
    var steps := Undisturbed(index, max, now);
    HandlingShape(index, max, true, now, Answered, Confirmed, true);
    DeliverStep(sha, s, steps, index, max);
    LookStep(sha, s, steps, index, d, true);
  }

  /** Without a standing source the letter is closed before anything is reserved. */
  lemma ClosedEarly(sha: Digest, s: System, index: nat, max: uint32, now: int)
    requires ValidDb(s.db) && s.tasks == map[] && index < |s.queue| && index !in s.acked
    requires var d := Evaluate(s.queue[index], max);
             d.reason != Eligible || !SourceStands(sha, s, d)
    ensures var d := Evaluate(s.queue[index], max);
            var t := Run(sha, s, Undisturbed(index, max, now));
            && index in t.acked && t == s.(acked := s.acked[index := t.acked[index]])
            && t.acked[index].decision == d
            && t.acked[index].reason == if d.reason != Eligible then d.reason else SourceUnavailable
  {
    hide Evaluate, ValidDb, Run, Next, Handling;
    var d := Evaluate(s.queue[index], max);
    var steps := Undisturbed(index, max, now);
    HandlingShape(index, max, true, now, Answered, Confirmed, true);
    DeliverStep(sha, s, steps, index, max);
    if d.reason != Eligible {
      ClosedAt(sha, s, steps, 1, s, Closed(d, d.reason, None), index);
    } else {
      LookStep(sha, s, steps, index, d, true);
      var lookup := Answer(s.raw, s.gone, d.sourceSequence, true);
      ClosedAt(sha, s, steps, 2, s, Closed(d, SourceUnavailable, Some(lookup)), index);
    }
  }

  /** What the reservation answers decides the rest. */
  lemma PaidOutcome(sha: Digest, s: System, index: nat, max: uint32, now: int)
    requires ValidDb(s.db) && s.tasks == map[] && index < |s.queue| && index !in s.acked
    requires var d := Evaluate(s.queue[index], max);
             d.reason == Eligible && SourceStands(sha, s, d) && ValidRequest(RequestOf(d))
    ensures var d := Evaluate(s.queue[index], max);
            var (db, r) := Reserve(s.db, RequestOf(d), now);
            var paid := s.(db := db);
            var t := Run(sha, s, Undisturbed(index, max, now));
            match r
            case Err(error) =>
              t == if error == StateConflict
                   then Acknowledged(paid, index, Closed(d, InvalidRecord, None), true) else paid
            case Ok(reservation) =>
              if !reservation.reserved then t == Acknowledged(paid, index, Closed(d, BudgetExhausted, None), true)
              else
                var source := s.raw[d.sourceSequence];
                var handoff := Handoff(sha, source, d, reservation);
                handoff.Some? ==>
                  t == Acknowledged(Log(paid, Task(index, d, Paid(source, reservation)), handoff.value), index,
                                    Closed(d, Published, None), true)
  {
    hide Evaluate, ValidDb, ValidSource, ValidRequest, Reserve, Handoff, Run, Next, Handling;
    var d := Evaluate(s.queue[index], max);
    var source := s.raw[d.sourceSequence];
    var steps := Undisturbed(index, max, now);
    HandlingShape(index, max, true, now, Answered, Confirmed, true);
    SourcedAt(sha, s, index, max, now);
    PayStep(sha, s, steps, index, d, source, now, Answered);
    var (db, r) := Reserve(s.db, RequestOf(d), now);
    var paid := s.(db := db);
    if r.Err? {
      if r.error == StateConflict {
        ClosedAt(sha, s, steps, 3, paid, Closed(d, InvalidRecord, None), index);
      } else {
        IdleAt(sha, s, steps, 3, paid);
      }
    } else if !r.value.reserved {
      ClosedAt(sha, s, steps, 3, paid, Closed(d, BudgetExhausted, None), index);
    } else {
      var task := Task(index, d, Paid(source, r.value));
      PublishStep(sha, s, steps, paid, task, Confirmed);
      var handoff := Handoff(sha, source, d, r.value);
      if handoff.Some? {
        ClosedAt(sha, s, steps, 4, Log(paid, task, handoff.value), Closed(d, Published, None), index);
      }
    }
  }

  lemma EligibleAsks(sha: Digest, s: System, index: nat, max: uint32)
    requires index < |s.queue| && Evaluate(s.queue[index], max).reason == Eligible
    ensures ValidRequest(RequestOf(Evaluate(s.queue[index], max)))
  {
    hide Evaluate, ValidRequest;
    EvaluatesFor(s.queue[index], max);
    EligibleRequest(s, index, Evaluate(s.queue[index], max));
  }

  /**
   * Whatever the state, a delivery that nothing disturbs closes its letter for exactly one reason,
   * or leaves it for another delivery: it publishes the replay exactly when the source stands, the
   * captured state agrees, and an attempt is already paid or still to be had.
   */
  lemma UndisturbedOutcome(sha: Digest, s: System, index: nat, max: uint32, now: int)
    requires ValidDb(s.db) && s.tasks == map[] && index < |s.queue| && index !in s.acked
    ensures var d := Evaluate(s.queue[index], max);
            var t := Run(sha, s, Undisturbed(index, max, now));
            && Leaves(sha, s, d, now, if index in t.acked then Some(t.acked[index].reason) else None)
            && (index in t.acked ==> t.acked[index].decision == d)
            && t.queue == s.queue && t.raw == s.raw && t.tasks == map[]
            && (forall i :: i != index ==> (i in t.acked <==> i in s.acked))
            && if index in t.acked && t.acked[index].reason == Published && d.reason == Eligible then
                 && |t.sent| == |s.sent| + 1 && t.sent[..|s.sent|] == s.sent
                 && d.sourceSequence in s.raw && AttemptOf(s, d) >= 1
                 && IsReplayOf(s, d, t.sent[|s.sent|].message)
               else t.sent == s.sent && t.db == s.db
  {
    hide Evaluate, ValidDb, ValidSource, ValidRequest, FitsColumns, Reserve, Handoff, Run, Conflicts, HasRoom,
      ConsumedBy, Grants, IsReplayOf, AttemptOf;
    var d := Evaluate(s.queue[index], max);
    if d.reason != Eligible || !SourceStands(sha, s, d) {
      ClosedEarly(sha, s, index, max, now);
    } else {
      EligibleAsks(sha, s, index, max);
      PaidOutcome(sha, s, index, max, now);
      ReserveAnswers(sha, s, d, now);
    }
  }

  lemma ReserveAnswers(sha: Digest, s: System, d: Decision, now: int)
    requires ValidDb(s.db) && ValidRequest(RequestOf(d)) && d.reason == Eligible && SourceStands(sha, s, d)
    ensures var (db, r) := Reserve(s.db, RequestOf(d), now);
            && (r.Ok? && r.value.reserved ==>
                  var handoff := Handoff(sha, s.raw[d.sourceSequence], d, r.value);
                  && AttemptOf(s, d) >= 1 && handoff.Some? && IsReplayOf(s, d, handoff.value)
                  && Leaves(sha, s, d, now, Some(Published)))
            && (r.Ok? && !r.value.reserved ==> Leaves(sha, s, d, now, Some(BudgetExhausted)) && db == s.db)
            && (r == Err(StateConflict) ==> Leaves(sha, s, d, now, Some(InvalidRecord)) && db == s.db)
            && (r.Err? && r != Err(StateConflict) ==> Leaves(sha, s, d, now, None) && db == s.db)
  {
    hide ValidDb, ValidRequest, FitsColumns, Reserve, Handoff, IsReplayOf, SourceStands, Conflicts, HasRoom;
    GrantedIff(s.db, RequestOf(d), now);
    RefusedIff(s.db, RequestOf(d), now);
    ReserveIsCharged(s.db, RequestOf(d), now);
    var r := Reserve(s.db, RequestOf(d), now).1;
    assert r.Err? ==> r.error.InvalidRequest? || r.error.StateConflict? || r.error.StoreFailure?;
    if r.Ok? && r.value.reserved {
      HandoffIsReplay(sha, s, d, r.value);
    } else if Acceptable(s.db, RequestOf(d)) {
      NoRoomLeft(s.db, RequestOf(d), now);
    }
  }

  lemma NoRoomLeft(db: Db, q: Request, now: int)
    requires ValidDb(db) && Acceptable(db, q)
    ensures ConsumedBy(db, q.lifecycleKey) == q.maxAttempts ==> !HasRoom(db, q, now)
  {
    hide HasText, LifecycleKey, FitsColumns, AttemptsComplete, AttemptsPaid, AttemptsDistinct;
    RowOf(db, q.lifecycleKey);
  }
}
