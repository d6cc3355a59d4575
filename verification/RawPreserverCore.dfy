/** The preservation core's orchestration, in the order of its effects, as a run of the outbox protocol. */
module RawPreserverCore {
  import opened Wrappers
  import opened Contracts
  import opened RawPreserver

  /** What every outside call answers while one delivery is processed. */
  datatype Answers = Answers(
    findReachable: bool, evidence: RawObject, ensured: Answer, publication: Option<Publication>, committed: Answer,
    published: Answer, marked: Answer)

  /** The protocol steps of one delivery; a step whose turn does not come changes nothing. */
  function StepsOf(d: Delivery, a: Answers): (steps: seq<Step>)
    ensures |steps| == 7
  {
    [Receive(0, d), Find(0, a.findReachable), Ensure(0, a.evidence, a.ensured), Build(0, a.publication),
      Commit(0, a.committed),
     Publish(0, a.published), Mark(0, a.marked)]
  }

  /** The state after the first `k` steps of a delivery that began in `s`. */
  ghost function After(c: Config, s: System, d: Delivery, a: Answers, k: nat): System
    requires Unpacked(s.tasks) && k <= 7
  {
    Run(c, s, StepsOf(d, a)[..k])
  }

  lemma Turn(c: Config, s: System, d: Delivery, a: Answers, k: nat)
    requires Unpacked(s.tasks) && k < 7
    ensures After(c, s, d, a, 0) == s && After(c, s, d, a, 7) == Run(c, s, StepsOf(d, a))
    ensures Unpacked(After(c, s, d, a, k).tasks)
    ensures After(c, s, d, a, k + 1) == Next(c, After(c, s, d, a, k), StepsOf(d, a)[k])
  {
    hide Next;
    var steps := StepsOf(d, a);
    assert steps[..k + 1][..k] == steps[..k] && steps[..7] == steps;
  }

  lemma {:induction false} Skip(c: Config, s: System, d: Delivery, a: Answers, k: nat, j: nat)
    requires Unpacked(s.tasks) && k <= j <= 7
    requires forall i :: k <= i < j ==> !Enabled(After(c, s, d, a, k).tasks, StepsOf(d, a)[i])
    ensures After(c, s, d, a, j) == After(c, s, d, a, k)
    decreases j - k
  {
    hide After, Enabled, Unpacked;
    if k < j {
      Skip(c, s, d, a, k, j - 1);
      Turn(c, s, d, a, j - 1);
      assert !Enabled(After(c, s, d, a, k).tasks, StepsOf(d, a)[j - 1]);
    }
  }

  /** From a closing task on, nothing more happens. */
  lemma Closed(c: Config, s: System, d: Delivery, a: Answers, k: nat)
    requires Unpacked(s.tasks) && 1 <= k <= 7
    requires 0 in After(c, s, d, a, k).tasks && After(c, s, d, a, k).tasks[0].phase.Closing?
    ensures After(c, s, d, a, k) == Run(c, s, StepsOf(d, a))
  {
    hide After, Unpacked;
    Skip(c, s, d, a, k, 7);
    Turn(c, s, d, a, 6);
  }

  /** `s` with worker 0 busy on `d`. */
  function Holding(s: System, d: Delivery, phase: Phase): System {
    s.(tasks := map[0 := Task(d, phase)])
  }

  lemma ToHolding(s: System, d: Delivery, from: Phase, phase: Phase)
    ensures To(Holding(s, d, from), 0, phase) == Holding(s, d, phase)
  {
    assert map[0 := Task(d, from)][0 := Task(d, phase)] == map[0 := Task(d, phase)];
  }

  lemma ReceiveStep(c: Config, s: System, d: Delivery, a: Answers)
    requires s.tasks == map[]
    ensures After(c, s, d, a, 1) == Holding(s, d, if ValidDelivery(c.sha, d) then Received else Closing(Isolate))
  {
    hide After, ValidDelivery;
    Turn(c, s, d, a, 0);
  }

  lemma FindStep(c: Config, s: System, d: Delivery, a: Answers)
    requires s.tasks == map[] && d.event.Some? && After(c, s, d, a, 1) == Holding(s, d, Received)
    ensures After(c, s, d, a, 2) == Holding(s, d, if !a.findReachable then Closing(Retry)
                                                  else if d.messageId in s.records then
                                                    Resume(c.consumer, d, s.records[d.messageId])
                                                  else Storing)
  {
    hide After, Resume, To;
    Turn(c, s, d, a, 1);
    ToHolding(s, d, Received, Closing(Retry));
    ToHolding(s, d, Received, Storing);
    if d.messageId in s.records {
      ToHolding(s, d, Received, Resume(c.consumer, d, s.records[d.messageId]));
    }
  }

  lemma EnsureStep(c: Config, s: System, d: Delivery, a: Answers)
    requires s.tasks == map[] && d.event.Some? && After(c, s, d, a, 2) == Holding(s, d, Storing)
    ensures var e := d.event.value;
            var ok := Writable(s.objects, a.evidence.locator, e.payload);
            var stored := if ok
              && a.ensured != Lost(false) then s.(objects := s.objects[a.evidence.locator := e.payload]) else s;
            After(c, s, d, a, 3) == Holding(stored, d, if a.ensured.Lost? || !ok then Closing(Retry)
                                                       else if ValidObject(e, a.evidence) then Building(a.evidence)
                                                       else Closing(Isolate))
  {
    hide After, To, ValidObject, Writable;
    Turn(c, s, d, a, 2);
    var stored := s.(objects := s.objects[a.evidence.locator := d.event.value.payload]);
    assert Holding(s, d, Storing).(objects := stored.objects) == Holding(stored, d, Storing);
    ToHolding(s, d, Storing, Closing(Retry));
    ToHolding(stored, d, Storing, Closing(Retry));
    ToHolding(stored, d, Storing, Closing(Isolate));
    ToHolding(stored, d, Storing, Building(a.evidence));
  }

  function Candidate(c: Config, d: Delivery, a: Answers): Record
    requires d.event.Some? && a.publication.Some?
  {
    Record(c.consumer, d.messageId, d.event.value.eventId, a.evidence, a.publication.value, false)
  }

  lemma BuildStep(c: Config, s: System, m: System, d: Delivery, a: Answers)
    requires s.tasks == map[] && d.event.Some? && After(c, s, d, a, 3) == Holding(m, d, Building(a.evidence))
    ensures After(c, s, d, a, 4) == Holding(m, d, if a.publication.None? then Closing(Retry)
                                                  else if !ValidPublication(a.publication.value) then Closing(Isolate)
                                                  else Committing(Candidate(c, d, a)))
  {
    hide After, To, ValidPublication;
    Turn(c, s, d, a, 3);
    ToHolding(m, d, Building(a.evidence), Closing(Retry));
    ToHolding(m, d, Building(a.evidence), Closing(Isolate));
    if a.publication.Some? {
      ToHolding(m, d, Building(a.evidence), Committing(Candidate(c, d, a)));
    }
  }

  lemma CommitStep(c: Config, s: System, m: System, d: Delivery, a: Answers, r: Record)
    requires s.tasks == map[] && d.event.Some? && After(c, s, d, a, 4) == Holding(m, d, Committing(r))
    ensures var committed := m.(records := Committed(m.records, r));
            After(c, s, d, a, 5) == Holding(if a.committed == Lost(false) then m else committed, d,
                                            if a.committed.Lost? then Closing(Retry)
                                            else Resume(c.consumer, d, committed.records[r.messageId]))
  {
    hide After, To, Resume;
    Turn(c, s, d, a, 4);
    var committed := m.(records := Committed(m.records, r));
    assert Holding(m, d, Committing(r)).(records := committed.records) == Holding(committed, d, Committing(r));
    ToHolding(m, d, Committing(r), Closing(Retry));
    ToHolding(committed, d, Committing(r), Closing(Retry));
    ToHolding(committed, d, Committing(r), Resume(c.consumer, d, committed.records[r.messageId]));
  }

  lemma PublishStep(c: Config, s: System, m: System, d: Delivery, a: Answers, r: Record)
    requires s.tasks == map[] && After(c, s, d, a, 5) == Holding(m, d, Publishing(r))
    ensures var logged := m.(sent := m.sent + [Sent(r.messageId, r.publication)]);
            After(c, s, d, a, 6) ==
            if !ValidPublication(r.publication) then Holding(m, d, Closing(Isolate))
            else Holding(if a.published == Lost(false) then m else logged, d, if a.published.Lost? then
              Closing(Retry) else Marking(r))
  {
    hide After, To, ValidPublication;
    Turn(c, s, d, a, 5);
    var logged := m.(sent := m.sent + [Sent(r.messageId, r.publication)]);
    assert Holding(m, d, Publishing(r)).(sent := logged.sent) == Holding(logged, d, Publishing(r));
    ToHolding(m, d, Publishing(r), Closing(Retry));
    ToHolding(m, d, Publishing(r), Closing(Isolate));
    ToHolding(logged, d, Publishing(r), Closing(Retry));
    ToHolding(logged, d, Publishing(r), Marking(r));
  }

  lemma MarkStep(c: Config, s: System, m: System, d: Delivery, a: Answers, r: Record)
    requires s.tasks == map[] && After(c, s, d, a, 6) == Holding(m, d, Marking(r))
    ensures var marked := m.(records := Marked(m.records, r.messageId));
            After(c, s, d, a, 7) == Holding(if a.marked == Lost(false) then m else marked, d,
                                            Closing(if a.marked.Lost? then Retry else Acknowledge))
  {
    hide After, To;
    Turn(c, s, d, a, 6);
    var marked := m.(records := Marked(m.records, r.messageId));
    assert Holding(m, d, Marking(r)).(records := marked.records) == Holding(marked, d, Marking(r));
    ToHolding(m, d, Marking(r), Closing(Retry));
    ToHolding(marked, d, Marking(r), Closing(Retry));
    ToHolding(marked, d, Marking(r), Closing(Acknowledge));
  }

  class Core {
    const config: Config
    var objects: map<Locator, Payload>
    var records: map<string, Record>
    var sent: seq<Sent>
    ghost var acked: set<Delivery>

    constructor (config: Config)
      ensures this.config == config && objects == map[] && records == map[] && sent == [] && acked == {}
    {
      this.config := config;
      objects, records, sent, acked := map[], map[], [], {};
    }

    ghost function Idle(): System
      reads this
    {
      System(objects, records, sent, acked, map[])
    }

    /** Advance one delivery; the answer says whether the caller may acknowledge it. */
    method Process(d: Delivery, a: Answers) returns (r: Disposition)
      modifies this`objects, this`records, this`sent
      ensures Holding(Idle(), d, Closing(r)) == Run(config, old(Idle()), StepsOf(d, a))
    {
      ghost var s := Idle();
      ReceiveStep(config, s, d, a);
      if !ValidDelivery(config.sha, d) {
        Closed(config, s, d, a, 1);
        return Isolate;
      }
      FindStep(config, s, d, a);
      hide After, Run, ValidDelivery, Resume, ValidExisting, Writable, ValidObject;
      if !a.findReachable {
        Closed(config, s, d, a, 2);
        return Retry;
      }
      if d.messageId in records {
        r := Continue(s, d, a, records[d.messageId], 2);
        return;
      }
      EnsureStep(config, s, d, a);
      var bytes := d.event.value.payload;
      var writable := Writable(objects, a.evidence.locator, bytes);
      if writable && a.ensured != Lost(false) {
        objects := objects[a.evidence.locator := bytes];
      }
      if a.ensured.Lost? || !writable {
        Closed(config, s, d, a, 3);
        return Retry;
      }
      if !ValidObject(d.event.value, a.evidence) {
        Closed(config, s, d, a, 3);
        return Isolate;
      }
      r := BuildAndCommit(s, d, a);
    }

    method BuildAndCommit(ghost s: System, d: Delivery, a: Answers) returns (r: Disposition)
      requires s.tasks == map[] && d.event.Some? && After(config, s, d, a, 3) ==
        Holding(Idle(), d, Building(a.evidence))
      modifies this`records, this`sent
      ensures Holding(Idle(), d, Closing(r)) == Run(config, s, StepsOf(d, a))
    {
      hide After, Run, Resume, ValidPublication;
      BuildStep(config, s, Idle(), d, a);
      if a.publication.None? {
        Closed(config, s, d, a, 4);
        return Retry;
      }
      if !ValidPublication(a.publication.value) {
        Closed(config, s, d, a, 4);
        return Isolate;
      }
      var candidate := Record(config.consumer, d.messageId, d.event.value.eventId, a.evidence, a.publication.value,
        false);
      CommitStep(config, s, Idle(), d, a, candidate);
      if a.committed != Lost(false) && candidate.messageId !in records {
        records := records[candidate.messageId := candidate];
      }
      if a.committed.Lost? {
        Closed(config, s, d, a, 5);
        return Retry;
      }
      r := Continue(s, d, a, records[candidate.messageId], 5);
    }

    /** Validate the committed record, then publish and mark it unless that was done before. */
    method Continue(ghost s: System, d: Delivery, a: Answers, record: Record, ghost k: nat) returns (r: Disposition)
      requires s.tasks == map[] && d.event.Some? && (k == 2 || k == 5)
      requires After(config, s, d, a, k) == Holding(Idle(), d, Resume(config.consumer, d, record))
      modifies this`records, this`sent
      ensures Holding(Idle(), d, Closing(r)) == Run(config, s, StepsOf(d, a))
    {
      hide After, Run, ValidExisting;
      if !ValidExisting(config.consumer, d, record) {
        Closed(config, s, d, a, k);
        return Isolate;
      }
      if record.published {
        Closed(config, s, d, a, k);
        return Acknowledge;
      }
      Skip(config, s, d, a, k, 5);
      r := PublishAndMark(s, d, a, record);
    }

    method PublishAndMark(ghost s: System, d: Delivery, a: Answers, record: Record) returns (r: Disposition)
      requires s.tasks == map[] && After(config, s, d, a, 5) == Holding(Idle(), d, Publishing(record))
      modifies this`records, this`sent
      ensures Holding(Idle(), d, Closing(r)) == Run(config, s, StepsOf(d, a))
    {
      hide After, Run, ValidPublication;
      PublishStep(config, s, Idle(), d, a, record);
      if !ValidPublication(record.publication) {
        Closed(config, s, d, a, 6);
        return Isolate;
      }
      if a.published != Lost(false) {
        sent := sent + [Sent(record.messageId, record.publication)];
      }
      if a.published.Lost? {
        Closed(config, s, d, a, 6);
        return Retry;
      }
      MarkStep(config, s, Idle(), d, a, record);
      if a.marked != Lost(false) && record.messageId in records {
        records := records[record.messageId := records[record.messageId].(published := true)];
      }
      Turn(config, s, d, a, 6);
      return if a.marked.Lost? then Retry else Acknowledge;
    }
  }

  // ----- when a delivery is acknowledged, retried or isolated -----

  /** Nothing stands for the message yet, and the store confirmed its bytes. */
  predicate Stored(s: System, d: Delivery, a: Answers)
    requires d.event.Some?
  {
    && d.messageId !in s.records && a.ensured.Done?
    && Writable(s.objects, a.evidence.locator, d.event.value.payload)
  }

  /** What no redelivery can heal: a malformed delivery, or evidence, a publication or a record that contradicts it. */
  predicate Hopeless(c: Config, s: System, d: Delivery, a: Answers) {
    || !ValidDelivery(c.sha, d)
    || (a.findReachable && d.messageId in s.records && !ValidExisting(c.consumer, d, s.records[d.messageId]))
    || (a.findReachable && Stored(s, d, a)
        && (!ValidObject(d.event.value, a.evidence)
            || (a.publication.Some? && !ValidPublication(a.publication.value))))
  }

  /** Every effect that was still missing was confirmed. */
  predicate Finished(c: Config, s: System, d: Delivery, a: Answers)
    requires d.event.Some?
  {
    && a.findReachable
    && (d.messageId !in s.records ==> Stored(s, d, a) && a.publication.Some? && a.committed.Done?)
    && ((d.messageId in s.records && s.records[d.messageId].published) || (a.published.Done? && a.marked.Done?))
  }

  function DispositionOf(c: Config, s: System, d: Delivery, a: Answers): Disposition {
    if Hopeless(c, s, d, a) then Isolate
    else if Finished(c, s, d, a) then Acknowledge
    else Retry
  }

  ghost predicate EndsAs(c: Config, s: System, d: Delivery, a: Answers, r: Disposition) {
    && Unpacked(s.tasks)
    && var t := Run(c, s, StepsOf(d, a));
       0 in t.tasks && t.tasks[0] == Task(d, Closing(r))
  }

  lemma EndsClosing(c: Config, s: System, m: System, d: Delivery, a: Answers, k: nat, r: Disposition)
    requires s.tasks == map[] && 1 <= k <= 7 && After(c, s, d, a, k) == Holding(m, d, Closing(r))
    ensures EndsAs(c, s, d, a, r)
  {
    hide After, Run;
    Closed(c, s, d, a, k);
  }

  /** From the record that stands for the message on. */
  lemma ContinueEnds(c: Config, s: System, m: System, d: Delivery, a: Answers, record: Record, k: nat)
    requires s.tasks == map[] && d.event.Some? && (k == 2 || k == 5)
    requires After(c, s, d, a, k) == Holding(m, d, Resume(c.consumer, d, record))
    ensures EndsAs(c, s, d, a,
              if !ValidExisting(c.consumer, d, record) then Isolate
              else if record.published || (a.published.Done? && a.marked.Done?) then Acknowledge
              else Retry)
  {
    hide After, Run, ValidObject, ValidPublication, EndsAs;
    if !ValidExisting(c.consumer, d, record) {
      EndsClosing(c, s, m, d, a, k, Isolate);
    } else if record.published {
      EndsClosing(c, s, m, d, a, k, Acknowledge);
    } else {
      Skip(c, s, d, a, k, 5);
      PublishStep(c, s, m, d, a, record);
      var logged := m.(sent := m.sent + [Sent(record.messageId, record.publication)]);
      if a.published.Lost? {
        EndsClosing(c, s, if a.published == Lost(false) then m else logged, d, a, 6, Retry);
      } else {
        MarkStep(c, s, logged, d, a, record);
        var marked := logged.(records := Marked(logged.records, record.messageId));
        EndsClosing(c, s, if a.marked == Lost(false) then logged else marked, d, a, 7,
          if a.marked.Lost? then Retry else Acknowledge);
      }
    }
  }

  lemma CandidateIsValid(c: Config, d: Delivery, a: Answers)
    requires d.event.Some? && a.publication.Some? && ValidPublication(a.publication.value)
    requires ValidObject(d.event.value, a.evidence)
    ensures ValidExisting(c.consumer, d, Candidate(c, d, a))
  {
    hide ValidPublication, ValidObject;
  }

  lemma StoreEnds(c: Config, s: System, d: Delivery, a: Answers)
    requires s.tasks == map[] && d.event.Some? && d.messageId !in s.records && a.findReachable
    requires ValidDelivery(c.sha, d) && After(c, s, d, a, 2) == Holding(s, d, Storing)
    ensures EndsAs(c, s, d, a, DispositionOf(c, s, d, a))
  {
    hide After, Run, ValidDelivery, ValidObject, ValidPublication, ValidExisting, Writable, Resume, EndsAs;
    EnsureStep(c, s, d, a);
    var e := d.event.value;
    var ok := Writable(s.objects, a.evidence.locator, e.payload);
    var m := if ok && a.ensured != Lost(false) then s.(objects := s.objects[a.evidence.locator := e.payload]) else s;
    if a.ensured.Lost? || !ok {
      EndsClosing(c, s, m, d, a, 3, Retry);
    } else if !ValidObject(e, a.evidence) {
      EndsClosing(c, s, m, d, a, 3, Isolate);
    } else {
      BuildStep(c, s, m, d, a);
      if a.publication.None? {
        EndsClosing(c, s, m, d, a, 4, Retry);
      } else if !ValidPublication(a.publication.value) {
        EndsClosing(c, s, m, d, a, 4, Isolate);
      } else {
        var record := Candidate(c, d, a);
        CandidateIsValid(c, d, a);
        CommitStep(c, s, m, d, a, record);
        var committed := m.(records := Committed(m.records, record));
        if a.committed.Lost? {
          EndsClosing(c, s, if a.committed == Lost(false) then m else committed, d, a, 5, Retry);
        } else {
          ContinueEnds(c, s, committed, d, a, record, 5);
        }
      }
    }
  }

  /**
   * Whatever was stored before and whatever answers arrive: a delivery is isolated exactly when no
   * redelivery can heal it, acknowledged exactly when every missing effect was confirmed, and retried
   * in every other case.
   */
  lemma DispositionIff(c: Config, s: System, d: Delivery, a: Answers, r: Disposition)
    requires s.tasks == map[]
    ensures EndsAs(c, s, d, a, r) <==> r == DispositionOf(c, s, d, a)
  {
    hide After, Run, ValidDelivery, ValidExisting, Resume;
    ReceiveStep(c, s, d, a);
    if !ValidDelivery(c.sha, d) {
      EndsClosing(c, s, s, d, a, 1, Isolate);
    } else {
      ValidHasEvent(c, d);
      FindStep(c, s, d, a);
      if !a.findReachable {
        EndsClosing(c, s, s, d, a, 2, Retry);
      } else if d.messageId in s.records {
        ContinueEnds(c, s, s, d, a, s.records[d.messageId], 2);
      } else {
        StoreEnds(c, s, d, a);
      }
    }
  }

  lemma ValidHasEvent(c: Config, d: Delivery)
    requires ValidDelivery(c.sha, d)
    ensures d.event.Some?
  {
  }
}
