/** Raw preservation: durable bytes, committed record, publication, mark, and only then acknowledgement. */
module RawPreserver {
  import opened Wrappers
  import opened Contracts

  type Payload = seq<int>
  type Digest = Payload -> string

  const RAW_PERSISTED_SUBJECT := "cerbero.v1.raw.persisted"
  const MESSAGE_TYPE := "RawEventReceived"
  const PAYLOAD_SCHEMA := "cerbero.raw_event.v1"

  datatype RawEvent = RawEvent(eventId: string, tenantId: string, hashAlgorithm: string, hash: string, size: nat,
    payload: Payload)

  /** `event` is None when the payload does not unpack; `wellFormed` stands for the envelope's other fields. */
  datatype Delivery = Delivery(
    wellFormed: bool, messageId: string, messageType: string, payloadSchema: string, tenantId: string,
    requestId: string,
    event: Option<RawEvent>)

  datatype Locator = Locator(uri: string, segment: string, offset: nat)

  datatype RawObject = RawObject(locator: Locator, length: nat, hash: string)

  datatype Publication = Publication(subject: string, messageId: string, requestId: string, payload: Payload)

  datatype Record = Record(consumer: string, messageId: string, eventId: string, evidence: RawObject,
    publication: Publication, published: bool)

  datatype Disposition = Acknowledge | Retry | Isolate

  // ----- validators -----

  predicate ValidEvent(sha: Digest, e: RawEvent) {
    IsUuidV7(e.eventId) && e.size == |e.payload| && e.hashAlgorithm == "sha256" && e.hash == sha(e.payload)
      && e.tenantId != ""
  }

  predicate ValidDelivery(sha: Digest, d: Delivery) {
    && d.wellFormed && IsUuidV7(d.messageId) && d.messageType == MESSAGE_TYPE && d.payloadSchema == PAYLOAD_SCHEMA
    && d.tenantId != ""
    && (d.requestId != "" ==> IsUuidV7(d.requestId))
    && d.event.Some? && ValidEvent(sha, d.event.value) && d.event.value.tenantId == d.tenantId
  }

  predicate ValidObject(e: RawEvent, o: RawObject) {
    o.locator.uri != "" && o.locator.segment != "" && o.length == e.size && o.hash == e.hash
  }

  predicate ValidPublication(p: Publication) {
    p.subject == RAW_PERSISTED_SUBJECT && IsUuidV7(p.messageId) && (p.requestId != "" ==> IsUuidV7(p.requestId))
      && p.payload != []
  }

  predicate ValidExisting(consumer: string, d: Delivery, r: Record)
    requires d.event.Some?
  {
    && r.consumer == consumer && r.messageId == d.messageId && r.eventId == d.event.value.eventId
    && ValidObject(d.event.value, r.evidence) && ValidPublication(r.publication)
  }

  // ----- the system -----

  datatype Phase =
    | Received
    | Storing
    | Building(evidence: RawObject)
    | Committing(candidate: Record)
    | Publishing(record: Record)
    | Marking(record: Record)
    | Closing(disposition: Disposition)

  datatype Task = Task(delivery: Delivery, phase: Phase)

  datatype Sent = Sent(messageId: string, publication: Publication)

  datatype System = System(
    objects: map<Locator, Payload>, records: map<string, Record>, sent: seq<Sent>, acked: set<Delivery>,
    tasks: map<nat, Task>)

  /** Who runs: the hash and the durable consumer's name. */
  datatype Config = Config(sha: Digest, consumer: string)

  datatype Answer = Done | Lost(applied: bool)

  datatype Step =
    | Receive(worker: nat, delivery: Delivery)
    | Find(worker: nat, reachable: bool)
    | Ensure(worker: nat, evidence: RawObject, answer: Answer)
    | Build(worker: nat, publication: Option<Publication>)
    | Commit(worker: nat, answer: Answer)
    | Publish(worker: nat, answer: Answer)
    | Mark(worker: nat, answer: Answer)
    | Ack(worker: nat)
    | Crash(worker: nat)

  predicate Enabled(tasks: map<nat, Task>, step: Step) {
    match step
    case Receive(w, _) => w !in tasks
    case Find(w, _) => w in tasks && tasks[w].phase.Received?
    case Ensure(w, _, _) => w in tasks && tasks[w].phase.Storing?
    case Build(w, _) => w in tasks && tasks[w].phase.Building?
    case Commit(w, _) => w in tasks && tasks[w].phase.Committing?
    case Publish(w, _) => w in tasks && tasks[w].phase.Publishing?
    case Mark(w, _) => w in tasks && tasks[w].phase.Marking?
    case Ack(w) => w in tasks && tasks[w].phase == Closing(Acknowledge)
    case Crash(w) => w in tasks
  }

  function To(s: System, w: nat, phase: Phase): System
    requires w in s.tasks
  {
    s.(tasks := s.tasks[w := s.tasks[w].(phase := phase)])
  }

  /** What to do with the record that now stands for the message. */
  function Resume(consumer: string, d: Delivery, r: Record): Phase
    requires d.event.Some?
  {
    if !ValidExisting(consumer, d, r) then Closing(Isolate)
    else if r.published then Closing(Acknowledge)
    else Publishing(r)
  }

  /** The raw store never overwrites evidence: a taken locator answers only for the same bytes. */
  predicate Writable(objects: map<Locator, Payload>, at: Locator, bytes: Payload) {
    at in objects ==> objects[at] == bytes
  }

  /** An existing record wins over the candidate. */
  function Committed(records: map<string, Record>, candidate: Record): map<string, Record> {
    if candidate.messageId in records then records else records[candidate.messageId := candidate]
  }

  function Marked(records: map<string, Record>, messageId: string): map<string, Record> {
    if messageId in records then records[messageId := records[messageId].(published := true)] else records
  }

  function Accept(c: Config, d: Delivery): Task {
    Task(d, if ValidDelivery(c.sha, d) then Received else Closing(Isolate))
  }

  function EnsureEffect(s: System, step: Step): System
    requires step.Ensure? && Enabled(s.tasks, step) && s.tasks[step.worker].delivery.event.Some?
  {
    var e := s.tasks[step.worker].delivery.event.value;
    var stored := if Writable(s.objects, step.evidence.locator, e.payload) then
      s.(objects := s.objects[step.evidence.locator := e.payload]) else s;
    match step.answer
    case Lost(applied) => To(if applied then stored else s, step.worker, Closing(Retry))
    case Done =>
      if !Writable(s.objects, step.evidence.locator, e.payload) then To(s, step.worker, Closing(Retry))
      else if ValidObject(e, step.evidence) then To(stored, step.worker, Building(step.evidence))
      else To(stored, step.worker, Closing(Isolate))
  }

  function BuildEffect(c: Config, s: System, step: Step): System
    requires step.Build? && Enabled(s.tasks, step) && s.tasks[step.worker].delivery.event.Some?
  {
    var d := s.tasks[step.worker].delivery;
    match step.publication
    case None => To(s, step.worker, Closing(Retry))
    case Some(p) =>
      if !ValidPublication(p) then To(s, step.worker, Closing(Isolate))
      else To(s, step.worker,
        Committing(Record(c.consumer, d.messageId, d.event.value.eventId, s.tasks[step.worker].phase.evidence, p,
        false)))
  }

  function CommitEffect(c: Config, s: System, step: Step): System
    requires step.Commit? && Enabled(s.tasks, step) && s.tasks[step.worker].delivery.event.Some?
  {
    var task := s.tasks[step.worker];
    var committed := s.(records := Committed(s.records, task.phase.candidate));
    match step.answer
    case Lost(applied) => To(if applied then committed else s, step.worker, Closing(Retry))
    case Done =>
      To(committed, step.worker, Resume(c.consumer, task.delivery, committed.records[task.phase.candidate.messageId]))
  }

  function PublishEffect(s: System, step: Step): System
    requires step.Publish? && Enabled(s.tasks, step)
  {
    var record := s.tasks[step.worker].phase.record;
    var logged := s.(sent := s.sent + [Sent(record.messageId, record.publication)]);
    if !ValidPublication(record.publication) then To(s, step.worker, Closing(Isolate))
    else match step.answer
      case Lost(applied) => To(if applied then logged else s, step.worker, Closing(Retry))
      case Done => To(logged, step.worker, Marking(record))
  }

  function MarkEffect(s: System, step: Step): System
    requires step.Mark? && Enabled(s.tasks, step)
  {
    var marked := s.(records := Marked(s.records, s.tasks[step.worker].phase.record.messageId));
    match step.answer
    case Lost(applied) => To(if applied then marked else s, step.worker, Closing(Retry))
    case Done => To(marked, step.worker, Closing(Acknowledge))
  }

  function FindEffect(c: Config, s: System, step: Step): System
    requires step.Find? && Enabled(s.tasks, step) && s.tasks[step.worker].delivery.event.Some?
  {
    var d := s.tasks[step.worker].delivery;
    if !step.reachable then To(s, step.worker, Closing(Retry))
    else if d.messageId in s.records then To(s, step.worker, Resume(c.consumer, d, s.records[d.messageId]))
    else To(s, step.worker, Storing)
  }

  /** Deliveries in progress have been validated. */
  predicate Unpacked(tasks: map<nat, Task>) {
    forall w :: w in tasks && !tasks[w].phase.Closing? ==> tasks[w].delivery.event.Some?
  }

  function Next(c: Config, s: System, step: Step): (t: System)
    requires Unpacked(s.tasks)
    ensures Unpacked(t.tasks)
  {
    if !Enabled(s.tasks, step) then s
    else match step
      case Receive(w, d) => s.(tasks := s.tasks[w := Accept(c, d)])
      case Find(_, _) => FindEffect(c, s, step)
      case Ensure(_, _, _) => EnsureEffect(s, step)
      case Build(_, _) => BuildEffect(c, s, step)
      case Commit(_, _) => CommitEffect(c, s, step)
      case Publish(_, _) => PublishEffect(s, step)
      case Mark(_, _) => MarkEffect(s, step)
      case Ack(w) => s.(acked := s.acked + {s.tasks[w].delivery}, tasks := s.tasks - {w})
      case Crash(w) => s.(tasks := s.tasks - {w})
  }

  function Run(c: Config, s: System, steps: seq<Step>): (t: System)
    requires Unpacked(s.tasks)
    ensures Unpacked(t.tasks)
  {
    if steps == [] then s else Next(c, Run(c, s, steps[..|steps| - 1]), steps[|steps| - 1])
  }

  const Empty: System := System(map[], map[], [], {}, map[])

  // ----- the invariant -----

  ghost predicate Durable(sha: Digest, objects: map<Locator, Payload>, o: RawObject) {
    o.locator in objects && |objects[o.locator]| == o.length && sha(objects[o.locator]) == o.hash
  }

  ghost predicate IsSent(sent: seq<Sent>, messageId: string, p: Publication) {
    Sent(messageId, p) in sent
  }

  ghost predicate RecordOk(c: Config, s: System, id: string, r: Record) {
    && r.messageId == id && r.consumer == c.consumer && Durable(c.sha, s.objects, r.evidence)
    && (r.published ==> IsSent(s.sent, id, r.publication))
  }

  /** The same record up to its published flag is committed. */
  ghost predicate IsCommitted(records: map<string, Record>, r: Record) {
    r.messageId in records && records[r.messageId].(published := r.published) == r
  }

  /** Everything the outbox promises about an acknowledged delivery. */
  ghost predicate Preserved(c: Config, s: System, d: Delivery) {
    && d.event.Some? && d.messageId in s.records
    && var r := s.records[d.messageId];
       && r.published && ValidExisting(c.consumer, d, r) && IsSent(s.sent, d.messageId, r.publication)
       && Durable(c.sha, s.objects, r.evidence)
  }

  ghost predicate PhaseOk(c: Config, s: System, d: Delivery, phase: Phase) {
    && (!phase.Closing? ==> ValidDelivery(c.sha, d))
    && match phase
       case Building(evidence) => ValidObject(d.event.value, evidence) && Durable(c.sha, s.objects, evidence)
       case Committing(candidate) =>
         && candidate.messageId == d.messageId && candidate.consumer == c.consumer && !candidate.published
         && Durable(c.sha, s.objects, candidate.evidence)
       case Publishing(r) => ValidExisting(c.consumer, d, r) && IsCommitted(s.records, r)
       case Marking(r) => ValidExisting(c.consumer, d, r) && IsCommitted(s.records, r)
         && IsSent(s.sent, r.messageId, r.publication)
       case Closing(disposition) => disposition == Acknowledge ==> Preserved(c, s, d)
       case _ => true
  }

  ghost predicate TaskOk(c: Config, s: System, t: Task) {
    PhaseOk(c, s, t.delivery, t.phase)
  }

  /** Whatever was sent for a message is the committed publication. */
  ghost predicate SentOk(s: System, x: Sent) {
    x.messageId in s.records && s.records[x.messageId].publication == x.publication
  }

  ghost predicate Inv(c: Config, s: System) {
    && (forall id :: id in s.records ==> RecordOk(c, s, id, s.records[id]))
    && (forall i :: 0 <= i < |s.sent| ==> SentOk(s, s.sent[i]))
    && (forall d :: d in s.acked ==> Preserved(c, s, d))
    && (forall w :: w in s.tasks ==> TaskOk(c, s, s.tasks[w]))
  }

  /** Evidence is never rewritten, records change only by being marked, and the logs only grow. */
  ghost predicate Grew(s: System, t: System) {
    && (forall l :: l in s.objects ==> l in t.objects && t.objects[l] == s.objects[l])
    && (forall id :: id in s.records ==>
          && id in t.records && t.records[id].(published := s.records[id].published) == s.records[id]
          && (s.records[id].published ==> t.records[id].published))
    && s.sent <= t.sent && s.acked <= t.acked
  }

  lemma SentStays(s: System, t: System, id: string, p: Publication)
    requires s.sent <= t.sent && IsSent(s.sent, id, p)
    ensures IsSent(t.sent, id, p)
  {
  }

  lemma PreservedStays(c: Config, s: System, t: System, d: Delivery)
    requires Grew(s, t) && Preserved(c, s, d)
    ensures Preserved(c, t, d)
  {
    hide IsUuidV7;
    SentStays(s, t, d.messageId, s.records[d.messageId].publication);
  }

  lemma TaskStays(c: Config, s: System, t: System, task: Task)
    requires Grew(s, t) && TaskOk(c, s, task)
    ensures TaskOk(c, t, task)
  {
    if task.phase == Closing(Acknowledge) {
      PreservedStays(c, s, t, task.delivery);
    }
    hide ValidDelivery, ValidObject, ValidExisting, Preserved;
    if task.phase.Marking? {
      SentStays(s, t, task.phase.record.messageId, task.phase.record.publication);
    }
  }

  lemma RecordStays(c: Config, s: System, t: System, id: string)
    requires Grew(s, t) && id in s.records && RecordOk(c, s, id, s.records[id])
    requires t.records[id].published ==> IsSent(t.sent, id, t.records[id].publication)
    ensures RecordOk(c, t, id, t.records[id])
  {
  }

  /** `t` grew from `s` by sound additions. */
  ghost predicate Adds(c: Config, s: System, t: System) {
    && Grew(s, t)
    && (forall id :: id in t.records ==>
      (id in s.records && t.records[id] == s.records[id]) || RecordOk(c, t, id, t.records[id]))
    && (forall i :: |s.sent| <= i < |t.sent| ==> SentOk(t, t.sent[i]))
    && (forall d :: d in t.acked ==> d in s.acked || Preserved(c, t, d))
    && (forall w :: w in t.tasks ==> (w in s.tasks && s.tasks[w] == t.tasks[w]) || TaskOk(c, t, t.tasks[w]))
  }

  lemma InvFrom(c: Config, s: System, t: System)
    requires Inv(c, s) && Adds(c, s, t)
    ensures Inv(c, t)
  {
    hide TaskOk, Preserved, IsSent, Durable;
    forall id | id in t.records
      ensures RecordOk(c, t, id, t.records[id])
    {
      if id in s.records && t.records[id] == s.records[id] {
        if s.records[id].published {
          SentStays(s, t, id, s.records[id].publication);
        }
        RecordStays(c, s, t, id);
      }
    }
    forall i | 0 <= i < |t.sent|
      ensures SentOk(t, t.sent[i])
    {
      assert i < |s.sent| ==> SentOk(s, s.sent[i]);
    }
    forall d | d in t.acked
      ensures Preserved(c, t, d)
    {
      if d in s.acked {
        PreservedStays(c, s, t, d);
      }
    }
    forall w | w in t.tasks
      ensures TaskOk(c, t, t.tasks[w])
    {
      if w in s.tasks && s.tasks[w] == t.tasks[w] {
        TaskStays(c, s, t, t.tasks[w]);
      }
    }
  }

  /** Only one task moved, and it moved soundly. */
  lemma OneTaskAdds(c: Config, s: System, t: System, w: nat)
    requires Grew(s, t) && t.acked == s.acked
    requires forall id :: id in t.records ==>
      (id in s.records && t.records[id] == s.records[id]) || RecordOk(c, t, id, t.records[id])
    requires forall i :: |s.sent| <= i < |t.sent| ==> SentOk(t, t.sent[i])
    requires forall v :: v in t.tasks && v != w ==> v in s.tasks && s.tasks[v] == t.tasks[v]
    requires w in t.tasks ==> TaskOk(c, t, t.tasks[w])
    ensures Adds(c, s, t)
  {
    hide Grew, RecordOk, SentOk, TaskOk, Preserved;
  }

  lemma TaskOf(c: Config, s: System, w: nat)
    requires Inv(c, s) && w in s.tasks
    ensures TaskOk(c, s, s.tasks[w])
  {
  }

  /** A committed record that is resumed is either published already or ready to be. */
  lemma ResumeOk(c: Config, s: System, d: Delivery, r: Record)
    requires ValidDelivery(c.sha, d) && d.messageId in s.records && s.records[d.messageId] == r
      && RecordOk(c, s, d.messageId, r)
    ensures PhaseOk(c, s, d, Resume(c.consumer, d, r))
  {
    hide ValidEvent, ValidObject, ValidPublication, IsUuidV7, IsSent, Durable;
  }

  lemma ReceiveAdds(c: Config, s: System, w: nat, d: Delivery)
    requires Inv(c, s) && Unpacked(s.tasks) && w !in s.tasks
    ensures Adds(c, s, Next(c, s, Receive(w, d)))
  {
    hide Inv, RecordOk, SentOk, ValidDelivery, Preserved;
    OneTaskAdds(c, s, Next(c, s, Receive(w, d)), w);
  }

  lemma FindAdds(c: Config, s: System, step: Step)
    requires Inv(c, s) && Unpacked(s.tasks) && step.Find? && Enabled(s.tasks, step)
    ensures Adds(c, s, FindEffect(c, s, step))
  {
    var w := step.worker;
    TaskOf(c, s, w);
    var d := s.tasks[w].delivery;
    if d.messageId in s.records {
      assert RecordOk(c, s, d.messageId, s.records[d.messageId]);
      ResumeOk(c, s, d, s.records[d.messageId]);
    }
    var t := FindEffect(c, s, step);
    hide Inv, RecordOk, SentOk, ValidDelivery, ValidExisting, Preserved, Resume, IsSent, Durable, IsCommitted;
    assert PhaseOk(c, t, d, t.tasks[w].phase);
    OneTaskAdds(c, s, t, w);
  }

  lemma EnsureAdds(c: Config, s: System, step: Step)
    requires Inv(c, s) && Unpacked(s.tasks) && step.Ensure? && Enabled(s.tasks, step)
    ensures Adds(c, s, EnsureEffect(s, step))
  {
    hide Inv, IsUuidV7, RecordOk, SentOk, Preserved;
    TaskOf(c, s, step.worker);
    OneTaskAdds(c, s, EnsureEffect(s, step), step.worker);
  }

  lemma BuildAdds(c: Config, s: System, step: Step)
    requires Inv(c, s) && Unpacked(s.tasks) && step.Build? && Enabled(s.tasks, step)
    ensures Adds(c, s, BuildEffect(c, s, step))
  {
    hide Inv, IsUuidV7, RecordOk, SentOk, Preserved, Durable, ValidDelivery, ValidPublication;
    TaskOf(c, s, step.worker);
    OneTaskAdds(c, s, BuildEffect(c, s, step), step.worker);
  }

  lemma CommittedRecords(c: Config, s: System, candidate: Record)
    requires Inv(c, s) && candidate.consumer == c.consumer && !candidate.published
      && Durable(c.sha, s.objects, candidate.evidence)
    ensures var t := s.(records := Committed(s.records, candidate));
            && Grew(s, t) && RecordOk(c, t, candidate.messageId, t.records[candidate.messageId])
            && forall id :: id in t.records ==>
              (id in s.records && t.records[id] == s.records[id]) || RecordOk(c, t, id, t.records[id])
  {
    hide TaskOk, SentOk, Preserved, IsSent;
  }

  lemma CommitAdds(c: Config, s: System, step: Step)
    requires Inv(c, s) && Unpacked(s.tasks) && step.Commit? && Enabled(s.tasks, step)
    ensures Adds(c, s, CommitEffect(c, s, step))
  {
    hide Inv, IsUuidV7, RecordOk, SentOk, Preserved, Durable, ValidDelivery, ValidExisting, Resume, IsSent, IsCommitted;
    var w := step.worker;
    TaskOf(c, s, w);
    var task := s.tasks[w];
    var committed := s.(records := Committed(s.records, task.phase.candidate));
    CommittedRecords(c, s, task.phase.candidate);
    ResumeOk(c, committed, task.delivery, committed.records[task.phase.candidate.messageId]);
    var t := CommitEffect(c, s, step);
    SameRecords(c, s, if t.records == s.records then s else committed, t);
    PhaseCarries(c, committed, t, task.delivery, t.tasks[w].phase, step.answer == Done);
    OneTaskAdds(c, s, t, w);
  }

  lemma SameRecords(c: Config, s: System, m: System, t: System)
    requires Grew(s, m) && t.objects == m.objects && t.records == m.records && t.sent == m.sent && t.acked == m.acked
    requires forall id :: id in m.records ==>
      (id in s.records && m.records[id] == s.records[id]) || RecordOk(c, m, id, m.records[id])
    ensures Grew(s, t)
    ensures forall id :: id in t.records ==>
      (id in s.records && t.records[id] == s.records[id]) || RecordOk(c, t, id, t.records[id])
  {
    hide Durable, IsSent;
  }

  lemma PhaseCarries(c: Config, m: System, t: System, d: Delivery, phase: Phase, same: bool)
    requires same ==> t.objects == m.objects && t.records == m.records && t.sent == m.sent && PhaseOk(c, m, d, phase)
    requires !same ==> phase == Closing(Retry)
    ensures PhaseOk(c, t, d, phase)
  {
    hide ValidDelivery, ValidObject, ValidExisting, Durable, IsSent, IsCommitted;
  }

  lemma PublishTask(c: Config, s: System, step: Step)
    requires Unpacked(s.tasks) && step.Publish? && Enabled(s.tasks, step) && TaskOk(c, s, s.tasks[step.worker])
    ensures var t := PublishEffect(s, step);
            && (t.sent == s.sent || (t.sent == s.sent + [t.sent[|s.sent|]] && SentOk(t, t.sent[|s.sent|])))
            && TaskOk(c, t, t.tasks[step.worker])
  {
    hide RecordOk, Preserved, Durable, ValidDelivery, ValidExisting, ValidPublication;
  }

  lemma PublishAdds(c: Config, s: System, step: Step)
    requires Inv(c, s) && Unpacked(s.tasks) && step.Publish? && Enabled(s.tasks, step)
    ensures Adds(c, s, PublishEffect(s, step))
  {
    hide Inv, RecordOk, SentOk, TaskOk, IsCommitted, IsSent;
    TaskOf(c, s, step.worker);
    PublishTask(c, s, step);
    OneTaskAdds(c, s, PublishEffect(s, step), step.worker);
  }

  lemma MarkedRecords(c: Config, s: System, id: string)
    requires Inv(c, s) && id in s.records && IsSent(s.sent, id, s.records[id].publication)
    ensures var t := s.(records := Marked(s.records, id));
            && Grew(s, t)
            && forall x :: x in t.records ==>
              (x in s.records && t.records[x] == s.records[x]) || RecordOk(c, t, x, t.records[x])
  {
    hide TaskOk, SentOk, Preserved, IsSent, Durable;
    assert RecordOk(c, s, id, s.records[id]);
  }

  lemma MarkPreserves(c: Config, s: System, d: Delivery, r: Record)
    requires Inv(c, s) && PhaseOk(c, s, d, Marking(r))
    ensures Preserved(c, s.(records := Marked(s.records, r.messageId)), d)
  {
    assert RecordOk(c, s, r.messageId, s.records[r.messageId]);
    hide Inv, ValidDelivery, ValidObject, ValidPublication, IsSent, Durable;
  }

  lemma MarkAdds(c: Config, s: System, step: Step)
    requires Inv(c, s) && Unpacked(s.tasks) && step.Mark? && Enabled(s.tasks, step)
    ensures Adds(c, s, MarkEffect(s, step))
  {
    hide Inv, RecordOk, SentOk, Preserved, Durable, ValidDelivery, ValidExisting, IsSent;
    var w := step.worker;
    TaskOf(c, s, w);
    var d, r := s.tasks[w].delivery, s.tasks[w].phase.record;
    var marked := s.(records := Marked(s.records, r.messageId));
    MarkedRecords(c, s, r.messageId);
    MarkPreserves(c, s, d, r);
    var t := MarkEffect(s, step);
    SameRecords(c, s, if t.records == s.records then s else marked, t);
    PhaseCarries(c, marked, t, d, t.tasks[w].phase, step.answer == Done);
    OneTaskAdds(c, s, t, w);
  }

  lemma EndAdds(c: Config, s: System, step: Step)
    requires Inv(c, s) && Unpacked(s.tasks) && (step.Ack? || step.Crash?) && Enabled(s.tasks, step)
    ensures Adds(c, s, Next(c, s, step))
  {
    TaskOf(c, s, step.worker);
    hide Inv, RecordOk, SentOk, Durable, ValidDelivery, ValidExisting, IsSent, IsCommitted;
    var t := Next(c, s, step);
    if step.Ack? {
      var d := s.tasks[step.worker].delivery;
      assert Preserved(c, s, d);
      assert Grew(s, t);
      PreservedStays(c, s, t, d);
    }
  }

  /** Every step of every worker keeps the invariant; nothing durable is rewritten. */
  lemma StepKeepsInvariant(c: Config, s: System, step: Step)
    requires Inv(c, s) && Unpacked(s.tasks)
    ensures Inv(c, Next(c, s, step)) && Grew(s, Next(c, s, step))
  {
    hide Inv, FindEffect, EnsureEffect, BuildEffect, CommitEffect, PublishEffect, MarkEffect;
    if Enabled(s.tasks, step) {
      match step {
        case Receive(w, d) => ReceiveAdds(c, s, w, d);
        case Find(_, _) => FindAdds(c, s, step);
        case Ensure(_, _, _) => EnsureAdds(c, s, step);
        case Build(_, _) => BuildAdds(c, s, step);
        case Commit(_, _) => CommitAdds(c, s, step);
        case Publish(_, _) => PublishAdds(c, s, step);
        case Mark(_, _) => MarkAdds(c, s, step);
        case _ => EndAdds(c, s, step);
      }
      InvFrom(c, s, Next(c, s, step));
    }
  }

  lemma GrewTransitive(s: System, t: System, u: System)
    requires Grew(s, t) && Grew(t, u)
    ensures Grew(s, u)
  {
  }

  lemma {:induction false} RunKeepsInvariant(c: Config, s: System, steps: seq<Step>)
    requires Inv(c, s) && Unpacked(s.tasks)
    ensures Inv(c, Run(c, s, steps)) && Grew(s, Run(c, s, steps))
  {
    if steps != [] {
      hide Inv, Next, Grew;
      var n := |steps| - 1;
      RunKeepsInvariant(c, s, steps[..n]);
      StepKeepsInvariant(c, Run(c, s, steps[..n]), steps[n]);
      GrewTransitive(s, Run(c, s, steps[..n]), Run(c, s, steps));
    }
  }

  // ----- what every run guarantees -----

  /**
   * With crashes after any step, lost answers and arbitrary redelivery, an acknowledged delivery has
   * its bytes durable under the event's hash and length, its record committed and marked, and its
   * publication sent.
   */
  lemma AcknowledgedIsPreserved(c: Config, steps: seq<Step>, d: Delivery)
    requires d in Run(c, Empty, steps).acked
    ensures var s := Run(c, Empty, steps);
            && d.event.Some? && d.messageId in s.records
            && var r, e := s.records[d.messageId], d.event.value;
               && r.published && r.eventId == e.eventId && Sent(d.messageId, r.publication) in s.sent
               && r.evidence.locator in s.objects
               && |s.objects[r.evidence.locator]| == e.size && c.sha(s.objects[r.evidence.locator]) == e.hash
  {
    RunKeepsInvariant(c, Empty, steps);
    assert Preserved(c, Run(c, Empty, steps), d);
  }

  /** All publications ever sent for one incoming message are identical, however often it was rebuilt. */
  lemma PublicationsIdentical(c: Config, steps: seq<Step>, i: nat, j: nat)
    requires var s := Run(c, Empty, steps);
             i < |s.sent| && j < |s.sent| && s.sent[i].messageId == s.sent[j].messageId
    ensures Run(c, Empty, steps).sent[i] == Run(c, Empty, steps).sent[j]
  {
    RunKeepsInvariant(c, Empty, steps);
    var s := Run(c, Empty, steps);
    assert SentOk(s, s.sent[i]) && SentOk(s, s.sent[j]);
  }

  /** Whatever happens next, stored bytes and committed publications stay as they are. */
  lemma EvidenceIsImmutable(c: Config, before: seq<Step>, after: seq<Step>, l: Locator, id: string)
    ensures var s := Run(c, Empty, before);
            var t := Run(c, s, after);
            && (l in s.objects ==> l in t.objects && t.objects[l] == s.objects[l])
            && (id in s.records ==> id in t.records && t.records[id].publication == s.records[id].publication
                                    && t.records[id].evidence == s.records[id].evidence)
  {
    RunKeepsInvariant(c, Empty, before);
    var s := Run(c, Empty, before);
    RunKeepsInvariant(c, s, after);
  }
}
